/**
 * The candidate files of the xml, xmlPublicID and json capabilities. When the
 * condition is scoped to a file list and also names file paths, the scoped
 * list is narrowed by a nested loop over the condition paths (outer) and the
 * scoped paths (inner): xml keeps a scoped path once for an exact match and
 * once more when its base name matches, xmlPublicID on exact matches only.
 */
module Narrowing {
  import opened Wrappers
  import opened GoStrings
  import opened Seqs

  /** What one scoped path contributes for one condition path. */
  function Hits(byBase: bool, condPath: string, path: string): (r: seq<string>)
    ensures |r| <= 2
    ensures forall k :: 0 <= k < |r| ==> r[k] == path
  {
    (if condPath == path then [path] else []) + (if byBase && Base(path) == condPath then [path] else [])
  }

  function HitsFor(byBase: bool, condPath: string): string -> seq<string>
  {
    path => Hits(byBase, condPath, path)
  }

  /** The inner loop: everything one condition path keeps of the scoped paths. */
  function Row(byBase: bool, scoped: seq<string>): string -> seq<string>
  {
    condPath => FlatMap(scoped, HitsFor(byBase, condPath))
  }

  /** newPaths after both loops. */
  function Narrow(condPaths: seq<string>, scoped: seq<string>, byBase: bool): seq<string>
  {
    FlatMap(condPaths, Row(byBase, scoped))
  }

  /** Whether a scoped path is asked for by a condition path. */
  predicate Requested(condPaths: seq<string>, byBase: bool, path: string)
  {
    exists i :: 0 <= i < |condPaths| && (condPaths[i] == path || (byBase && Base(path) == condPaths[i]))
  }

  /** The narrowed list holds exactly the scoped paths some condition path asks for. */
  lemma NarrowMember(condPaths: seq<string>, scoped: seq<string>, byBase: bool, path: string)
    ensures path in Narrow(condPaths, scoped, byBase) <==> path in scoped && Requested(condPaths, byBase, path)
  {
    FlatMapMember(condPaths, Row(byBase, scoped), path);
    if path in Narrow(condPaths, scoped, byBase) {
      var i :| 0 <= i < |condPaths| && path in Row(byBase, scoped)(condPaths[i]);
      FlatMapMember(scoped, HitsFor(byBase, condPaths[i]), path);
      var j :| 0 <= j < |scoped| && path in HitsFor(byBase, condPaths[i])(scoped[j]);
      assert scoped[j] == path;
    }
    if path in scoped && Requested(condPaths, byBase, path) {
      var i :| 0 <= i < |condPaths| && (condPaths[i] == path || (byBase && Base(path) == condPaths[i]));
      var j :| 0 <= j < |scoped| && scoped[j] == path;
      assert path in HitsFor(byBase, condPaths[i])(scoped[j]);
      FlatMapMember(scoped, HitsFor(byBase, condPaths[i]), path);
      assert path in Row(byBase, scoped)(condPaths[i]);
    }
  }

  /** xml keeps a slash-free scoped name twice when the condition names it: once exactly, once by base name. */
  lemma BaseNameMatchDuplicates(name: string)
    requires name != "" && '/' !in name
    ensures Narrow([name], [name], true) == [name, name]
    ensures Narrow([name], [name], false) == [name]
  {
    assert DropTrailingSlashes(name) == name;
    assert Base(name) == name;
    FlatMapSingle(name, HitsFor(true, name));
    FlatMapSingle(name, HitsFor(false, name));
    FlatMapSingle(name, Row(true, [name]));
    FlatMapSingle(name, Row(false, [name]));
    assert Hits(true, name, name) == [name, name];
    assert Hits(false, name, name) == [name];
  }

  /** A piecewise sub-multiset relation carries over to FlatMap. */
  lemma {:induction false} FlatMapSubMultiset<T>(xs: seq<T>, f: T -> seq<string>, g: T -> seq<string>)
    requires forall x :: x in xs ==> multiset(f(x)) <= multiset(g(x))
    ensures multiset(FlatMap(xs, f)) <= multiset(FlatMap(xs, g))
  {
    if xs != [] {
      assert xs[0] in xs;
      assert forall x :: x in xs[1..] ==> x in xs;
      FlatMapSubMultiset(xs[1..], f, g);
    }
  }

  /** The exact-only narrowing keeps nothing the xml narrowing does not, counting duplicates. */
  lemma ExactWithinBaseNarrowing(condPaths: seq<string>, scoped: seq<string>)
    ensures multiset(Narrow(condPaths, scoped, false)) <= multiset(Narrow(condPaths, scoped, true))
  {
    forall c | c in condPaths
      ensures multiset(Row(false, scoped)(c)) <= multiset(Row(true, scoped)(c))
    {
      forall p | p in scoped
        ensures multiset(HitsFor(false, c)(p)) <= multiset(HitsFor(true, c)(p))
      {
        assert Hits(false, c, p) == (if c == p then [p] else []) + [];
      }
      FlatMapSubMultiset(scoped, HitsFor(false, c), HitsFor(true, c));
    }
    FlatMapSubMultiset(condPaths, Row(false, scoped), Row(true, scoped));
  }

  /** The two appends of the inner loop body: the path itself, then its base name when asked for. */
  method PathHits(p: string, path: string, byBase: bool) returns (hits: seq<string>)
    ensures hits == Hits(byBase, p, path)
  {
    hits := [];
    if p == path {
      hits := hits + [path];
    }
    if byBase && Base(path) == p {
      hits := hits + [path];
    }
  }

  /** The inner loop: the scoped paths one condition path asks for, appended to newPaths. */
  method AppendHits(newPaths: seq<string>, p: string, scoped: seq<string>, byBase: bool) returns (out: seq<string>)
    ensures out == newPaths + Row(byBase, scoped)(p)
  {
    out := newPaths;
    ghost var rest := scoped;
    for j := 0 to |scoped|
      invariant rest == scoped[j..]
      invariant out + FlatMap(rest, HitsFor(byBase, p)) == newPaths + Row(byBase, scoped)(p)
    {
      var path := scoped[j];
      assert rest[0] == path && rest[1..] == scoped[j + 1..];
      var hits := PathHits(p, path, byBase);
      ConcatAssociates(out, hits, FlatMap(rest[1..], HitsFor(byBase, p)));
      out, rest := out + hits, rest[1..];
    }
    assert out + [] == out;
  }

  /** The nested loop that builds newPaths: condition paths outside, scoped paths inside. */
  method NarrowPaths(condPaths: seq<string>, scoped: seq<string>, byBase: bool) returns (newPaths: seq<string>)
    ensures newPaths == Narrow(condPaths, scoped, byBase)
  {
    newPaths := [];
    for i := 0 to |condPaths|
      invariant newPaths == FlatMap(condPaths[..i], Row(byBase, scoped))
    {
      newPaths := AppendHits(newPaths, condPaths[i], scoped, byBase);
      FlatMapStep(condPaths, i, Row(byBase, scoped));
    }
    assert condPaths[..|condPaths|] == condPaths;
  }

  /** The files to search: none at all, or a list that GetFiles widens to the whole tree when empty. */
  datatype Candidates = NoFiles | Search(paths: seq<string>)

  /**
   * The candidate files of xml (byBase) and xmlPublicID: the narrowed scoped
   * list when the condition also names paths, the scoped list otherwise, and
   * without scoping the condition's own paths.
   */
  function CandidatePaths(scoped: Option<seq<string>>, condPaths: seq<string>, byBase: bool): Candidates
  {
    match scoped
    case Some(paths) =>
      if |condPaths| > 0 then
        var narrowed := Narrow(condPaths, paths, byBase);
        if |narrowed| == 0 then NoFiles else Search(narrowed)
      else Search(paths)
    case None => Search(condPaths)
  }

  /**
   * No file is searched exactly when the condition is scoped, names paths, and
   * none of the scoped paths is asked for by them.
   */
  lemma NoFilesIff(scoped: Option<seq<string>>, condPaths: seq<string>, byBase: bool)
    ensures CandidatePaths(scoped, condPaths, byBase).NoFiles? <==>
      scoped.Some? && |condPaths| > 0 && forall p :: p in scoped.value ==> !Requested(condPaths, byBase, p)
  {
    if scoped.Some? && |condPaths| > 0 {
      var narrowed := Narrow(condPaths, scoped.value, byBase);
      forall p ensures p in narrowed <==> p in scoped.value && Requested(condPaths, byBase, p) {
        NarrowMember(condPaths, scoped.value, byBase, p);
      }
      if |narrowed| > 0 {
        assert narrowed[0] in narrowed;
      }
    }
  }

  /**
   * The json candidate files: the scoped list, else the json condition's paths
   * but only when the xml condition names paths, else none (the whole tree).
   */
  function JsonCandidatePaths(scoped: Option<seq<string>>, xmlPaths: seq<string>, jsonPaths: seq<string>): (r: seq<string>)
    ensures scoped.Some? ==> r == scoped.value
    ensures scoped.None? && |xmlPaths| > 0 ==> r == jsonPaths
    ensures scoped.None? && |xmlPaths| == 0 ==> r == []
  {
    if scoped.Some? then scoped.value
    else if |xmlPaths| > 0 then jsonPaths
    else []
  }
}
