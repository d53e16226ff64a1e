/**
 * isFileIncluded: whether a file lies under one of the configured included
 * paths. Paths are compared as the concatenation of their non-empty
 * '/'-separated segments; a directory scope is compared with the parent of the
 * file, a file scope with the file itself.
 */
module Inclusion {
  import opened GoStrings
  import opened BuiltinTypes

  /** The parts that are not "", in order. */
  function NonEmpty(parts: seq<string>): (r: seq<string>)
    ensures |r| <= |parts|
  {
    if parts == [] then []
    else (if parts[0] == "" then [] else [parts[0]]) + NonEmpty(parts[1..])
  }

  /** Filtering distributes over concatenation. */
  lemma {:induction false} NonEmptyAppend(a: seq<string>, b: seq<string>)
    ensures NonEmpty(a + b) == NonEmpty(a) + NonEmpty(b)
  {
    if a != [] {
      var head := if a[0] == "" then [] else [a[0]];
      assert (a + b)[1..] == a[1..] + b;
      assert NonEmpty(a + b) == head + NonEmpty(a[1..] + b);
      assert NonEmpty(a) == head + NonEmpty(a[1..]);
      NonEmptyAppend(a[1..], b);
      ConcatAssociates(head, NonEmpty(a[1..]), NonEmpty(b));
    } else {
      assert a + b == b;
    }
  }

  /** getSegments: the non-empty '/'-separated segments of a path. */
  function Segments(path: string): seq<string>
  {
    NonEmpty(Split(path, '/'))
  }

  /** The segments of a + "/" + b are those of a followed by those of b. */
  lemma SegmentsAround(a: string, b: string)
    ensures Segments(a + "/" + b) == Segments(a) + Segments(b)
  {
    SplitAround(a, b, '/');
    NonEmptyAppend(Split(a, '/'), Split(b, '/'));
  }

  /** The loop of getSegments. */
  method GetSegments(path: string) returns (segments: seq<string>)
    ensures segments == Segments(path)
  {
    var parts := Split(path, '/');
    segments := [];
    for i := 0 to |parts|
      invariant segments == NonEmpty(parts[..i])
    {
      assert parts[..i + 1] == parts[..i] + [parts[i]];
      NonEmptyAppend(parts[..i], [parts[i]]);
      if parts[i] != "" {
        segments := segments + [parts[i]];
      }
    }
    assert parts[..|parts|] == parts;
  }

  predicate HasPrefix(s: string, prefix: string)
  {
    |prefix| <= |s| && s[..|prefix|] == prefix
  }

  /** filepath.Join of the analysis root and an included path. */
  function JoinPath(location: string, scope: string): string
  {
    if location == "" then scope
    else if scope == "" then location
    else location + "/" + scope
  }

  /** The absolute form of an included path. */
  function IncludedRoot(location: string, scope: string, env: Env): string
  {
    env.abs(JoinPath(location, scope))
  }

  /** The segments of the file that are compared: those of its parent for a directory scope. */
  function CandidateSegments(location: string, scope: string, env: Env, path: string): seq<string>
  {
    if env.isDir(IncludedRoot(location, scope, env)) then Segments(Dir(path)) else Segments(path)
  }

  /**
   * One included path admits the file when the file has at least as many
   * segments as the included path and its concatenated segments begin with
   * the included path's concatenated segments.
   */
  predicate ScopeAdmits(location: string, scope: string, env: Env, path: string)
  {
    var candidate := CandidateSegments(location, scope, env, path);
    var included := Segments(IncludedRoot(location, scope, env));
    |candidate| >= |included| && HasPrefix(Join(candidate, ""), Join(included, ""))
  }

  /** The loop over the included paths, which returns at the first that admits the file. */
  predicate AnyScopeAdmits(location: string, scopes: seq<string>, env: Env, path: string)
  {
    |scopes| > 0 && (ScopeAdmits(location, scopes[0], env, path) || AnyScopeAdmits(location, scopes[1..], env, path))
  }

  /** isFileIncluded: no included paths admits every file. */
  predicate Included(config: Config, env: Env, path: string)
  {
    |config.includedPaths| == 0 || AnyScopeAdmits(config.location, config.includedPaths, env, path)
  }

  /** The loop finds an admitting included path exactly when one exists. */
  lemma {:induction false} AnyScopeAdmitsIff(location: string, scopes: seq<string>, env: Env, path: string)
    ensures AnyScopeAdmits(location, scopes, env, path) <==>
      exists i :: 0 <= i < |scopes| && ScopeAdmits(location, scopes[i], env, path)
  {
    if |scopes| > 0 {
      AnyScopeAdmitsIff(location, scopes[1..], env, path);
      if exists i :: 0 <= i < |scopes| && ScopeAdmits(location, scopes[i], env, path) {
        var i :| 0 <= i < |scopes| && ScopeAdmits(location, scopes[i], env, path);
        if i > 0 {
          assert scopes[1..][i - 1] == scopes[i];
        }
      }
      if exists i :: 0 <= i < |scopes[1..]| && ScopeAdmits(location, scopes[1..][i], env, path) {
        var i :| 0 <= i < |scopes[1..]| && ScopeAdmits(location, scopes[1..][i], env, path);
        assert scopes[1..][i] == scopes[i + 1];
      }
    }
  }

  /** A file whose compared segments extend the included path's segments is admitted. */
  lemma SegmentPrefixAdmitted(location: string, scope: string, env: Env, path: string, rest: seq<string>)
    requires CandidateSegments(location, scope, env, path) == Segments(IncludedRoot(location, scope, env)) + rest
    ensures ScopeAdmits(location, scope, env, path)
  {
    var included := Segments(IncludedRoot(location, scope, env));
    JoinEmptyAppend(included, rest);
  }

  /** The parent of root + "/" + rest whose segments extend those of root. */
  lemma DirUnderRoot(root: string, rest: string)
    requires root != "" && rest != ""
    ensures exists more :: Segments(Dir(root + "/" + rest)) == Segments(root) + more
  {
    var p := root + "/" + rest;
    if '/' in rest {
      var j := LastIndexOf(rest, '/');
      assert p[|root| + 1 + j..] == rest[j..];
      LastIndexOfUnique(p, '/', |root| + 1 + j);
      assert Dir(p) == root + "/" + rest[..j];
      SegmentsAround(root, rest[..j]);
    } else {
      assert p[|root| + 1..] == rest;
      LastIndexOfUnique(p, '/', |root|);
      assert Dir(p) == root;
      assert Segments(Dir(p)) == Segments(root) + [];
    }
  }

  /** Under a directory scope, every file anywhere below the directory is admitted. */
  lemma FileBelowIncludedDirectoryAdmitted(location: string, scope: string, env: Env, rest: string)
    requires IncludedRoot(location, scope, env) != "" && rest != ""
    requires env.isDir(IncludedRoot(location, scope, env))
    ensures ScopeAdmits(location, scope, env, IncludedRoot(location, scope, env) + "/" + rest)
  {
    var root := IncludedRoot(location, scope, env);
    DirUnderRoot(root, rest);
    var more :| Segments(Dir(root + "/" + rest)) == Segments(root) + more;
    SegmentPrefixAdmitted(location, scope, env, root + "/" + rest, more);
  }

  /** Under a file scope, the file itself and every path below it are admitted. */
  lemma IncludedFileAdmitted(location: string, scope: string, env: Env, rest: string)
    requires !env.isDir(IncludedRoot(location, scope, env))
    ensures ScopeAdmits(location, scope, env, IncludedRoot(location, scope, env))
    ensures ScopeAdmits(location, scope, env, IncludedRoot(location, scope, env) + "/" + rest)
  {
    var root := IncludedRoot(location, scope, env);
    SegmentPrefixAdmitted(location, scope, env, root, []);
    SegmentsAround(root, rest);
    SegmentPrefixAdmitted(location, scope, env, root + "/" + rest, Segments(rest));
  }

  /** The parent of x + "/" + f, for a slash-free name f. */
  lemma DirOfChild(x: string, f: string)
    requires x != "" && '/' !in f
    ensures Dir(x + "/" + f) == x
  {
    var p := x + "/" + f;
    assert p[|x| + 1..] == f;
    LastIndexOfUnique(p, '/', |x|);
  }

  /** The segments of "/" + a + "/" + b for slash-free, non-empty a and b. */
  lemma SegmentsOfTwo(a: string, b: string)
    requires a != "" && b != "" && '/' !in a && '/' !in b
    ensures Segments("/" + a + "/" + b) == [a, b]
    ensures Join([a, b], "") == a + b
  {
    SegmentsAround("/" + a, b);
    SegmentsAround("", a);
    assert "" + "/" + a == "/" + a;
    assert Split("", '/') == [""];
    assert Split(a, '/') == [a];
    assert Split(b, '/') == [b];
    assert [a, b][1..] == [b];
  }

  /** A common front can be dropped from both sides of a prefix test. */
  lemma HasPrefixCancel(r: string, e: string, d: string)
    requires HasPrefix(r + e, r + d)
    ensures HasPrefix(e, d)
  {
    forall k | 0 <= k < |d| ensures e[k] == d[k] {
      assert (r + e)[|r| + k] == (r + d)[|r| + k];
    }
  }

  /**
   * Segments are compared after concatenation, so with the directory /r/d
   * included, a file in a sibling directory /r/(d + extra), such as /r/srcx
   * beside /r/src, is admitted too.
   */
  lemma SiblingSharingPrefixAdmitted(env: Env, r: string, d: string, extra: string, f: string)
    requires r != "" && d != "" && '/' !in r && '/' !in d && '/' !in extra && '/' !in f
    requires env.abs("/" + r + "/" + d) == "/" + r + "/" + d && env.isDir("/" + r + "/" + d)
    ensures ScopeAdmits("/" + r, d, env, "/" + r + "/" + (d + extra) + "/" + f)
  {
    DirOfChild("/" + r + "/" + (d + extra), f);
    SegmentsOfTwo(r, d);
    SegmentsOfTwo(r, d + extra);
    assert r + (d + extra) == (r + d) + extra;
  }

  /**
   * With the directory /r/d as the only included path, a file in a directory
   * /r/e whose name does not begin with d is excluded.
   */
  lemma OtherDirectoryExcluded(env: Env, tags: set<string>, r: string, d: string, e: string, f: string)
    requires r != "" && d != "" && e != "" && '/' !in r && '/' !in d && '/' !in e && '/' !in f
    requires !HasPrefix(e, d)
    requires env.abs("/" + r + "/" + d) == "/" + r + "/" + d && env.isDir("/" + r + "/" + d)
    ensures !Included(Config("/" + r, tags, [d]), env, "/" + r + "/" + e + "/" + f)
  {
    DirOfChild("/" + r + "/" + e, f);
    SegmentsOfTwo(r, d);
    SegmentsOfTwo(r, e);
    var location, path := "/" + r, "/" + r + "/" + e + "/" + f;
    assert IncludedRoot(location, d, env) == "/" + r + "/" + d;
    assert CandidateSegments(location, d, env, path) == [r, e];
    if HasPrefix(r + e, r + d) {
      HasPrefixCancel(r, e, d);
    }
    assert !ScopeAdmits(location, d, env, path);
    assert [d][1..] == [] && [d][0] == d;
    assert !AnyScopeAdmits(location, [], env, path);
    assert !AnyScopeAdmits(location, [d], env, path);
  }
}
