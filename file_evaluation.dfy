/**
 * The file and filecontent capabilities. file lists the files whose path
 * (scoped) or base name (walk of the analysis root) matches a Go regex, or a
 * glob when the pattern is not a regex, and reports one incident per included
 * file. filecontent scans every line of every regular file with a regexp2
 * pattern and keeps the matches whose file passes the file pattern filter.
 */
module FileEvaluation {
  import opened Wrappers
  import opened Seqs
  import opened GoStrings
  import opened BuiltinTypes
  import opened Inclusion
  import opened Scan

  /** A path or name against the pattern: as a Go regex when it compiles, else as a glob. */
  function NameMatches(pattern: string, name: string, env: Env): Result<bool, string>
  {
    if env.goCompiles(pattern) then Ok(env.goMatch(pattern, name)) else env.globMatch(pattern, name)
  }

  /** A scoped path is kept when it matches; a glob error skips it. */
  function ScopedHit(pattern: string, env: Env): string -> seq<string>
  {
    path => if NameMatches(pattern, path, env) == Ok(true) then [path] else []
  }

  /** The scoped loop of the file capability. */
  function ScopedMatches(pattern: string, paths: seq<string>, env: Env): seq<string>
  {
    FlatMap(paths, ScopedHit(pattern, env))
  }

  /** The scoped matches are the scoped paths that match, in order; a glob error only drops its path. */
  lemma ScopedMatchesMember(pattern: string, paths: seq<string>, env: Env, p: string)
    ensures p in ScopedMatches(pattern, paths, env) <==> p in paths && NameMatches(pattern, p, env) == Ok(true)
    ensures |ScopedMatches(pattern, paths, env)| <= |paths|
  {
    FlatMapMember(paths, ScopedHit(pattern, env), p);
    FlatMapAtMostOne(paths, ScopedHit(pattern, env));
    if p in paths && NameMatches(pattern, p, env) == Ok(true) {
      var i :| 0 <= i < |paths| && paths[i] == p;
      assert p in ScopedHit(pattern, env)(paths[i]);
    }
  }

  /** The walk callback of findFilesMatchingPattern: the base name is matched, the full path kept; a glob error ends the walk. */
  function TreeMatches(entries: seq<DirEntry>, pattern: string, env: Env): Result<seq<string>, string>
  {
    if entries == [] then Ok([])
    else match NameMatches(pattern, entries[0].name, env)
      case Err(e) => Err(e)
      case Ok(m) => Prepend(if m then [entries[0].path] else [], TreeMatches(entries[1..], pattern, env))
  }

  /** findFilesMatchingPattern: a walk error or a glob error is the error. */
  function FindFiles(root: string, pattern: string, env: Env): Result<seq<string>, string>
  {
    match env.walkDir(root)
    case Err(e) => Err(e)
    case Ok(entries) => TreeMatches(entries, pattern, env)
  }

  /** What one walk entry contributes when its name matches without error. */
  function EntryHit(pattern: string, env: Env): DirEntry -> seq<string>
  {
    (d: DirEntry) => if NameMatches(pattern, d.name, env) == Ok(true) then [d.path] else []
  }

  /**
   * The walk fails exactly when matching some entry's name fails, and
   * otherwise keeps the full paths of the entries whose names match, in walk
   * order.
   */
  lemma {:induction false} TreeMatchesSpec(entries: seq<DirEntry>, pattern: string, env: Env)
    ensures TreeMatches(entries, pattern, env).Err? <==>
      exists k :: 0 <= k < |entries| && NameMatches(pattern, entries[k].name, env).Err?
    ensures TreeMatches(entries, pattern, env).Ok? ==>
      TreeMatches(entries, pattern, env).value == FlatMap(entries, EntryHit(pattern, env))
  {
    if entries != [] {
      TreeMatchesSpec(entries[1..], pattern, env);
      if NameMatches(pattern, entries[0].name, env).Ok? {
        if exists k :: 0 <= k < |entries| && NameMatches(pattern, entries[k].name, env).Err? {
          var k :| 0 <= k < |entries| && NameMatches(pattern, entries[k].name, env).Err?;
          assert entries[1..][k - 1] == entries[k];
        }
        if exists k :: 0 <= k < |entries[1..]| && NameMatches(pattern, entries[1..][k].name, env).Err? {
          var k :| 0 <= k < |entries[1..]| && NameMatches(pattern, entries[1..][k].name, env).Err?;
          assert entries[1..][k] == entries[k + 1];
        }
      }
    }
  }

  /** A walked path is found exactly when its entry's base name matches, not its path. */
  lemma FoundByName(entries: seq<DirEntry>, pattern: string, env: Env, p: string)
    requires TreeMatches(entries, pattern, env).Ok?
    ensures p in TreeMatches(entries, pattern, env).value <==>
      exists k :: 0 <= k < |entries| && entries[k].path == p && NameMatches(pattern, entries[k].name, env) == Ok(true)
  {
    TreeMatchesSpec(entries, pattern, env);
    FlatMapMember(entries, EntryHit(pattern, env), p);
  }

  /** The loop of findFilesMatchingPattern. */
  method FindFilesMatchingPattern(root: string, pattern: string, env: Env) returns (r: Result<seq<string>, string>)
    ensures r == FindFiles(root, pattern, env)
  {
    var walked := env.walkDir(root);
    if walked.Err? {
      return Err(walked.error);
    }
    var entries := walked.value;
    var matches: seq<string> := [];
    assert entries[0..] == entries;
    PrependNothing(FindFiles(root, pattern, env));
    for i := 0 to |entries|
      invariant FindFiles(root, pattern, env) == Prepend(matches, TreeMatches(entries[i..], pattern, env))
    {
      assert entries[i..][0] == entries[i] && entries[i..][1..] == entries[i + 1..];
      var d := entries[i];
      var matched: bool;
      if env.goCompiles(pattern) {
        matched := env.goMatch(pattern, d.name);
      } else {
        var globbed := env.globMatch(pattern, d.name);
        if globbed.Err? {
          return Err(globbed.error);
        }
        matched := globbed.value;
      }
      var hit := if matched then [d.path] else [];
      PrependTwice(matches, hit, TreeMatches(entries[i + 1..], pattern, env));
      matches := matches + hit;
    }
    assert entries[|entries|..] == [] && matches + [] == matches;
    r := Ok(matches);
  }

  /** The files the file capability found: the scoped matches, or those of the walk. */
  function MatchingFiles(config: Config, c: FileCondition, scoped: Option<seq<string>>, env: Env): Result<seq<string>, string>
  {
    if scoped.Some? then Ok(ScopedMatches(c.pattern, scoped.value, env))
    else FindFiles(config.location, c.pattern, env)
  }

  predicate IsAbs(path: string)
  {
    |path| > 0 && path[0] == '/'
  }

  /** The absolute form of a match: the match itself when already absolute. */
  function AbsPath(path: string, env: Env): string
  {
    if IsAbs(path) then path else env.abs(path)
  }

  function FileIncident(path: string): Incident
  {
    Incident(path, None, None, NoVariables)
  }

  /** What one match contributes: an incident for its absolute path when that is included. */
  function FileHit(config: Config, env: Env): string -> seq<Incident>
  {
    f => if Included(config, env, AbsPath(f, env)) then [FileIncident(AbsPath(f, env))] else []
  }

  function FileIncidents(config: Config, env: Env, files: seq<string>): seq<Incident>
  {
    FlatMap(files, FileHit(config, env))
  }

  /** The file capability. */
  function FileEval(config: Config, c: FileCondition, scoped: Option<seq<string>>, env: Env): Evaluation
  {
    if c.pattern == "" then Evaluation(EmptyResponse, Some(MissingPattern("file")))
    else match MatchingFiles(config, c, scoped, env)
      case Err(e) => Evaluation(EmptyResponse, Some(SearchFailed(e)))
      case Ok(files) =>
        var incidents := FileIncidents(config, env, files);
        Evaluation(Response(|incidents| > 0, incidents, Some(files)), None)
  }

  /**
   * An incident is reported exactly for the absolute path of a match that is
   * included; at most one per match, and exactly one each when no included
   * paths are configured.
   */
  lemma FileIncidentsSpec(config: Config, env: Env, files: seq<string>, inc: Incident)
    ensures inc in FileIncidents(config, env, files) <==>
      exists k :: 0 <= k < |files| && inc == FileIncident(AbsPath(files[k], env)) && Included(config, env, AbsPath(files[k], env))
    ensures |FileIncidents(config, env, files)| <= |files|
    ensures |config.includedPaths| == 0 ==> |FileIncidents(config, env, files)| == |files|
  {
    FileIncidentsMember(config, env, files, inc);
    FlatMapAtMostOne(files, FileHit(config, env));
    if |config.includedPaths| == 0 {
      FlatMapExactlyOne(files, FileHit(config, env));
    }
  }

  lemma FileIncidentsMember(config: Config, env: Env, files: seq<string>, inc: Incident)
    ensures inc in FileIncidents(config, env, files) <==>
      exists k :: 0 <= k < |files| && inc == FileIncident(AbsPath(files[k], env)) && Included(config, env, AbsPath(files[k], env))
  {
    FlatMapMember(files, FileHit(config, env), inc);
  }

  /**
   * An empty pattern is refused before any search, whatever the filesystem
   * holds; otherwise a failed search is the error; and a successful one puts
   * every match, included or not, into the template context and matches
   * exactly when an incident was reported.
   */
  lemma FileEvalSpec(config: Config, c: FileCondition, scoped: Option<seq<string>>, env: Env, other: Env)
    ensures c.pattern == "" ==> FileEval(config, c, scoped, env) == FileEval(config, c, scoped, other)
    ensures FileEval(config, c, scoped, env).err.None? <==> c.pattern != "" && MatchingFiles(config, c, scoped, env).Ok?
    ensures c.pattern != "" && MatchingFiles(config, c, scoped, env).Err? ==>
      FileEval(config, c, scoped, env) == Evaluation(EmptyResponse, Some(SearchFailed(MatchingFiles(config, c, scoped, env).error)))
    ensures FileEval(config, c, scoped, env).err.None? ==>
      var r := FileEval(config, c, scoped, env).response;
      && r.templateFilepaths == Some(MatchingFiles(config, c, scoped, env).value)
      && r.incidents == FileIncidents(config, env, MatchingFiles(config, c, scoped, env).value)
      && (r.matched <==> |r.incidents| > 0)
  {
  }

  /** With a pattern that compiles as a Go regex, a scoped search never fails and keeps the scoped paths the regex matches. */
  lemma ScopedRegexNeverFails(config: Config, c: FileCondition, paths: seq<string>, env: Env)
    requires c.pattern != "" && env.goCompiles(c.pattern)
    ensures FileEval(config, c, Some(paths), env).err.None?
    ensures forall p :: p in FileEval(config, c, Some(paths), env).response.templateFilepaths.value <==>
      p in paths && env.goMatch(c.pattern, p)
  {
    forall p ensures p in ScopedMatches(c.pattern, paths, env) <==> p in paths && env.goMatch(c.pattern, p) {
      ScopedMatchesMember(c.pattern, paths, env, p);
    }
  }

  /** An incident of the filecontent capability for one match. */
  function ContentIncident(w: WalkResult): Incident
  {
    Incident(w.uri, Some(w.line), Some(Location(w.line, w.line)), MatchingText(w.text))
  }

  /** The incidents the filter loop built and the filter error that ended it, if any. */
  datatype Filtered = Filtered(incidents: seq<Incident>, failure: Option<string>)

  /** The filter loop of filecontent: the first filter error ends it, keeping what was built. */
  function FilterResults(filePattern: string, rs: seq<WalkResult>, env: Env): Filtered
  {
    if rs == [] then Filtered([], None)
    else match env.filterFilePattern(filePattern, rs[0].uri)
      case Err(e) => Filtered([], Some(e))
      case Ok(keep) =>
        var rest := FilterResults(filePattern, rs[1..], env);
        Filtered((if keep then [ContentIncident(rs[0])] else []) + rest.incidents, rest.failure)
  }

  /** What one match contributes when the filter accepts its file. */
  function Kept(filePattern: string, env: Env): WalkResult -> seq<Incident>
  {
    (w: WalkResult) => if env.filterFilePattern(filePattern, w.uri) == Ok(true) then [ContentIncident(w)] else []
  }

  /** rs[k] is the first match whose filter fails, with f's error, and f holds the incidents before it. */
  predicate FirstFailure(filePattern: string, rs: seq<WalkResult>, env: Env, k: int, f: Filtered)
  {
    && 0 <= k < |rs|
    && f.failure.Some? && env.filterFilePattern(filePattern, rs[k].uri) == Err(f.failure.value)
    && (forall j :: 0 <= j < k ==> env.filterFilePattern(filePattern, rs[j].uri).Ok?)
    && f.incidents == FlatMap(rs[..k], Kept(filePattern, env))
  }

  /**
   * Without a filter error the incidents are those of the accepted matches,
   * in order. With one, it is the error of the first match whose filter
   * fails, and the incidents are those of the accepted matches before it.
   */
  lemma {:induction false} FilterResultsSpec(filePattern: string, rs: seq<WalkResult>, env: Env)
    ensures var f := FilterResults(filePattern, rs, env);
      && (f.failure.None? <==> forall k :: 0 <= k < |rs| ==> env.filterFilePattern(filePattern, rs[k].uri).Ok?)
      && (f.failure.None? ==> f.incidents == FlatMap(rs, Kept(filePattern, env)))
      && (f.failure.Some? ==> exists k :: FirstFailure(filePattern, rs, env, k, f))
  {
    if rs != [] {
      var f := FilterResults(filePattern, rs, env);
      var head := Kept(filePattern, env)(rs[0]);
      FilterResultsSpec(filePattern, rs[1..], env);
      var rest := FilterResults(filePattern, rs[1..], env);
      match env.filterFilePattern(filePattern, rs[0].uri)
      case Err(e) =>
        assert rs[..0] == [];
        assert FirstFailure(filePattern, rs, env, 0, f);
      case Ok(keep) =>
        assert f.incidents == head + rest.incidents;
        if rest.failure.None? {
          forall k | 0 <= k < |rs| ensures env.filterFilePattern(filePattern, rs[k].uri).Ok? {
            if k > 0 {
              assert rs[1..][k - 1] == rs[k];
            }
          }
        } else {
          var k :| FirstFailure(filePattern, rs[1..], env, k, rest);
          assert rs[..k + 1][1..] == rs[1..][..k];
          assert rs[1..][k] == rs[k + 1];
          forall j | 0 <= j < k + 1 ensures env.filterFilePattern(filePattern, rs[j].uri).Ok? {
            if j > 0 {
              assert rs[1..][j - 1] == rs[j];
            }
          }
          assert f.incidents == FlatMap(rs[..k + 1], Kept(filePattern, env));
          assert FirstFailure(filePattern, rs, env, k + 1, f);
        }
        if f.failure.None? {
          assert rest.failure.None?;
        }
    }
  }

  /** The filecontent capability. */
  function FileContentEval(config: Config, c: FileContentCondition, env: Env): Evaluation
  {
    if c.pattern == "" then Evaluation(EmptyResponse, Some(MissingPattern("filecontent")))
    else if !env.lookCompiles(c.pattern) then Evaluation(EmptyResponse, Some(PatternCompileFailed(c.pattern)))
    else match WalkScan(config.location, c.pattern, env)
      case Err(e) => Evaluation(EmptyResponse, Some(Propagated(e)))
      case Ok(rs) =>
        var f := FilterResults(c.filePattern, rs, env);
        if f.failure.Some? then Evaluation(Response(false, f.incidents, None), Some(Propagated(f.failure.value)))
        else Evaluation(Response(|f.incidents| != 0, f.incidents, None), None)
  }

  /**
   * filecontent refuses an empty pattern before anything else, so no oracle
   * is consulted, and a pattern regexp2 cannot compile before the walk; both
   * come with the empty response.
   */
  lemma FileContentRefusals(config: Config, c: FileContentCondition, env: Env, other: Env)
    ensures c.pattern == "" ==>
      FileContentEval(config, c, env) == Evaluation(EmptyResponse, Some(MissingPattern("filecontent")))
    ensures c.pattern == "" ==> FileContentEval(config, c, env) == FileContentEval(config, c, other)
    ensures c.pattern != "" && !env.lookCompiles(c.pattern) ==>
      FileContentEval(config, c, env) == Evaluation(EmptyResponse, Some(PatternCompileFailed(c.pattern)))
  {
  }

  /** A filtered incident is the incident of some match of the scan. */
  lemma FilteredFromResults(filePattern: string, rs: seq<WalkResult>, env: Env, inc: Incident)
    requires inc in FilterResults(filePattern, rs, env).incidents
    ensures exists w :: w in rs && inc == ContentIncident(w)
  {
    FilterResultsSpec(filePattern, rs, env);
    var f := FilterResults(filePattern, rs, env);
    if f.failure.None? {
      FlatMapMember(rs, Kept(filePattern, env), inc);
    } else {
      var k :| FirstFailure(filePattern, rs, env, k, f);
      FlatMapMember(rs[..k], Kept(filePattern, env), inc);
      var j :| 0 <= j < k && inc in Kept(filePattern, env)(rs[..k][j]);
      assert rs[..k][j] == rs[j];
    }
  }

  /**
   * Every filecontent incident, also the partial ones beside a filter error,
   * lies in a regular file of the walk, on a line numbered from 1 that is both
   * its start and its end; the response matches only without an error and
   * then exactly when there is an incident.
   */
  lemma FileContentIncidentsOnLines(config: Config, c: FileContentCondition, env: Env)
    ensures var e := FileContentEval(config, c, env);
      && (e.response.matched <==> e.err.None? && |e.response.incidents| != 0)
      && forall inc :: inc in e.response.incidents ==>
        && inc.lineNumber.Some? && inc.lineNumber.value >= 1
        && inc.codeLocation == Some(Location(inc.lineNumber.value, inc.lineNumber.value))
        && exists i :: 0 <= i < |env.walk(config.location).value| && env.walk(config.location).value[i].regular
             && inc.fileURI == env.abs(env.walk(config.location).value[i].path)
  {
    var e := FileContentEval(config, c, env);
    if c.pattern != "" && env.lookCompiles(c.pattern) && WalkScan(config.location, c.pattern, env).Ok? {
      var infos := env.walk(config.location).value;
      var rs := WalkScan(config.location, c.pattern, env).value;
      WalkFilesFromRegularFiles(infos, c.pattern, env);
      forall inc | inc in e.response.incidents
        ensures && inc.lineNumber.Some? && inc.lineNumber.value >= 1
                && inc.codeLocation == Some(Location(inc.lineNumber.value, inc.lineNumber.value))
                && exists i :: 0 <= i < |infos| && infos[i].regular && inc.fileURI == env.abs(infos[i].path)
      {
        FilteredFromResults(c.filePattern, rs, env, inc);
        var w :| w in rs && inc == ContentIncident(w);
      }
    }
  }

  /** With the filter accepting every file, each scan match is an incident, in scan order. */
  lemma {:induction false} AcceptAllKeepsEveryMatch(filePattern: string, rs: seq<WalkResult>, env: Env)
    requires forall w :: w in rs ==> env.filterFilePattern(filePattern, w.uri) == Ok(true)
    ensures FilterResults(filePattern, rs, env).failure.None?
    ensures |FilterResults(filePattern, rs, env).incidents| == |rs|
    ensures forall k :: 0 <= k < |rs| ==> FilterResults(filePattern, rs, env).incidents[k] == ContentIncident(rs[k])
  {
    if rs != [] {
      assert rs[0] in rs;
      assert forall w :: w in rs[1..] ==> w in rs;
      AcceptAllKeepsEveryMatch(filePattern, rs[1..], env);
      var f := FilterResults(filePattern, rs, env);
      assert f.incidents == [ContentIncident(rs[0])] + FilterResults(filePattern, rs[1..], env).incidents;
      forall k | 0 <= k < |rs| ensures f.incidents[k] == ContentIncident(rs[k]) {
        if k > 0 {
          assert rs[1..][k - 1] == rs[k];
        }
      }
    }
  }

  /** The filter loop of filecontent. */
  method FilterMatches(filePattern: string, rs: seq<WalkResult>, env: Env) returns (f: Filtered)
    ensures f == FilterResults(filePattern, rs, env)
  {
    var incidents: seq<Incident> := [];
    assert rs[0..] == rs;
    assert FilterResults(filePattern, rs, env).incidents == [] + FilterResults(filePattern, rs, env).incidents;
    for i := 0 to |rs|
      invariant FilterResults(filePattern, rs, env) ==
        Filtered(incidents + FilterResults(filePattern, rs[i..], env).incidents, FilterResults(filePattern, rs[i..], env).failure)
    {
      assert rs[i..][0] == rs[i] && rs[i..][1..] == rs[i + 1..];
      var contains := env.filterFilePattern(filePattern, rs[i].uri);
      if contains.Err? {
        return Filtered(incidents, Some(contains.error));
      }
      var hit := if contains.value then [ContentIncident(rs[i])] else [];
      ConcatAssociates(incidents, hit, FilterResults(filePattern, rs[i + 1..], env).incidents);
      incidents := incidents + hit;
    }
    assert rs[|rs|..] == [] && incidents + [] == incidents;
    f := Filtered(incidents, None);
  }
}
