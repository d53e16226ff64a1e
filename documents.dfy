/**
 * What the xml and json capabilities share: each node a query returns in an
 * included file becomes an incident for the file's absolute path, carrying
 * the node's variables and, when getLocation resolves the node's text, its
 * line. The location cache is threaded from node to node.
 */
module Documents {
  import opened Wrappers
  import opened GoStrings
  import opened BuiltinTypes
  import opened Inclusion
  import opened LocationResolver

  /** A node as the incident loop sees it: the text located and the variables reported. */
  datatype Found = Found(content: string, vars: Variables)

  /** The response built so far and the location cache. */
  datatype Progress = Progress(matched: bool, incidents: seq<Incident>, cache: map<string, int>)

  /** The incident of one node, located when getLocation succeeds, and the cache after getLocation. */
  function Located(cache: map<string, int>, absPath: string, f: Found, env: Env): (Incident, map<string, int>)
  {
    var (loc, after) := ResolveLocation(cache, absPath, f.content, env.multilineGrep);
    (Incident(absPath,
              if loc.Ok? then Some(loc.value.startLine) else None,
              if loc.Ok? then Some(loc.value) else None,
              f.vars),
     after)
  }

  /** The node loop of one file: nothing for a file that is not included. */
  function LocateAll(p: Progress, config: Config, absPath: string, found: seq<Found>, env: Env): Progress
    decreases |found|
  {
    if found == [] then p
    else if !Included(config, env, absPath) then LocateAll(p, config, absPath, found[1..], env)
    else
      var (inc, after) := Located(p.cache, absPath, found[0], env);
      LocateAll(Progress(p.matched, p.incidents + [inc], after), config, absPath, found[1..], env)
  }

  /** An incident with its location dropped: what does not depend on the cache or the grep. */
  function Bare(inc: Incident): Incident
  {
    inc.(lineNumber := None, codeLocation := None)
  }

  function Bares(incs: seq<Incident>): (r: seq<Incident>)
    ensures |r| == |incs|
    ensures forall k :: 0 <= k < |incs| ==> r[k] == Bare(incs[k])
  {
    seq(|incs|, k requires 0 <= k < |incs| => Bare(incs[k]))
  }

  lemma BaresAppend(a: seq<Incident>, b: seq<Incident>)
    ensures Bares(a + b) == Bares(a) + Bares(b)
  {
    assert forall k :: 0 <= k < |a + b| ==> Bares(a + b)[k] == (Bares(a) + Bares(b))[k];
  }

  /** One incident per node, location aside, in order. */
  function NodeIncidents(absPath: string, found: seq<Found>): (r: seq<Incident>)
    ensures |r| == |found|
    ensures forall k :: 0 <= k < |r| ==> r[k] == Incident(absPath, None, None, found[k].vars)
  {
    seq(|found|, k requires 0 <= k < |found| => Incident(absPath, None, None, found[k].vars))
  }

  /** The incidents one file yields, location aside: one per node when included, none otherwise. */
  function Shapes(config: Config, absPath: string, found: seq<Found>, env: Env): (r: seq<Incident>)
    ensures |r| == (if Included(config, env, absPath) then |found| else 0)
    ensures forall k :: 0 <= k < |r| ==> r[k] == Incident(absPath, None, None, found[k].vars)
  {
    if Included(config, env, absPath) then NodeIncidents(absPath, found) else []
  }

  /** A line number is reported exactly with a location whose start and end are that line. */
  predicate WellLocated(inc: Incident)
  {
    && (inc.lineNumber.Some? <==> inc.codeLocation.Some?)
    && (inc.codeLocation.Some? ==>
          inc.codeLocation.value == Location(inc.lineNumber.value, inc.lineNumber.value))
  }

  predicate AllWellLocated(incs: seq<Incident>)
  {
    forall k :: 0 <= k < |incs| ==> WellLocated(incs[k])
  }

  /** A located incident is well located and names the node's file and variables. */
  lemma LocatedFacts(cache: map<string, int>, absPath: string, f: Found, env: Env)
    ensures var (inc, after) := Located(cache, absPath, f, env);
      && Bare(inc) == Incident(absPath, None, None, f.vars)
      && WellLocated(inc)
      && CacheExtends(cache, after)
  {
    ResolveExtends(cache, absPath, f.content, env.multilineGrep);
  }

  /** The node loop leaves the match flag alone and only extends the cache. */
  lemma {:induction false} LocateAllKeeps(p: Progress, config: Config, absPath: string, found: seq<Found>, env: Env)
    ensures LocateAll(p, config, absPath, found, env).matched == p.matched
    ensures CacheExtends(p.cache, LocateAll(p, config, absPath, found, env).cache)
    decreases |found|
  {
    if found != [] {
      if !Included(config, env, absPath) {
        LocateAllKeeps(p, config, absPath, found[1..], env);
      } else {
        var located := Located(p.cache, absPath, found[0], env);
        LocatedFacts(p.cache, absPath, found[0], env);
        var q := Progress(p.matched, p.incidents + [located.0], located.1);
        LocateAllKeeps(q, config, absPath, found[1..], env);
        CacheExtendsTrans(p.cache, located.1, LocateAll(q, config, absPath, found[1..], env).cache);
      }
    }
  }

  lemma NodeIncidentsStep(absPath: string, found: seq<Found>)
    requires found != []
    ensures NodeIncidents(absPath, found) ==
      [Incident(absPath, None, None, found[0].vars)] + NodeIncidents(absPath, found[1..])
  {
    var s, tail := NodeIncidents(absPath, found), NodeIncidents(absPath, found[1..]);
    assert s[1..] == tail;
    assert s == [s[0]] + s[1..];
  }

  lemma ShapesStep(config: Config, absPath: string, found: seq<Found>, env: Env)
    requires found != [] && Included(config, env, absPath)
    ensures Shapes(config, absPath, found, env) ==
      [Incident(absPath, None, None, found[0].vars)] + Shapes(config, absPath, found[1..], env)
  {
    NodeIncidentsStep(absPath, found);
  }

  /** The node loop appends one incident per node of an included file, with the node's variables. */
  lemma {:induction false} LocateAllShapes(p: Progress, config: Config, absPath: string, found: seq<Found>, env: Env)
    ensures Bares(LocateAll(p, config, absPath, found, env).incidents) == Bares(p.incidents) + Shapes(config, absPath, found, env)
    decreases |found|
  {
    if found == [] {
      assert Bares(p.incidents) + [] == Bares(p.incidents);
    } else if !Included(config, env, absPath) {
      LocateAllShapes(p, config, absPath, found[1..], env);
    } else {
      var located := Located(p.cache, absPath, found[0], env);
      var inc := located.0;
      LocatedFacts(p.cache, absPath, found[0], env);
      var q := Progress(p.matched, p.incidents + [inc], located.1);
      assert LocateAll(p, config, absPath, found, env) == LocateAll(q, config, absPath, found[1..], env);
      LocateAllShapes(q, config, absPath, found[1..], env);
      BaresAppend(p.incidents, [inc]);
      assert Bares(q.incidents) == Bares(p.incidents) + [Bare(inc)];
      var tail := Shapes(config, absPath, found[1..], env);
      ShapesStep(config, absPath, found, env);
      ConcatAssociates(Bares(p.incidents), [Bare(inc)], tail);
    }
  }

  /** Every incident the node loop appends is well located. */
  lemma {:induction false} LocateAllWellLocated(p: Progress, config: Config, absPath: string, found: seq<Found>, env: Env)
    requires AllWellLocated(p.incidents)
    ensures AllWellLocated(LocateAll(p, config, absPath, found, env).incidents)
    decreases |found|
  {
    if found != [] {
      if !Included(config, env, absPath) {
        LocateAllWellLocated(p, config, absPath, found[1..], env);
      } else {
        var located := Located(p.cache, absPath, found[0], env);
        LocatedFacts(p.cache, absPath, found[0], env);
        var q := Progress(p.matched, p.incidents + [located.0], located.1);
        assert AllWellLocated(q.incidents);
        LocateAllWellLocated(q, config, absPath, found[1..], env);
      }
    }
  }
}
