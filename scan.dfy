/**
 * The content scan of the filecontent capability: processFile numbers the
 * lines of one file from 1 and reports every regexp2 match of each line, left
 * to right; parallelWalk runs it on every regular file of the tree.
 */
module Scan {
  import opened Wrappers
  import opened Seqs
  import opened BuiltinTypes

  /** A line matcher: every match in one line, or the engine's error. */
  type Matcher = (string, string) -> Result<seq<Match>, string>

  /** The results of one line: one per match, in matcher order. */
  function LineResults(uri: string, line: nat, ms: seq<Match>): (rs: seq<WalkResult>)
    ensures |rs| == |ms|
    ensures forall k :: 0 <= k < |ms| ==> rs[k] == WalkResult(uri, line, ms[k].index, ms[k].text)
  {
    seq(|ms|, k requires 0 <= k < |ms| => WalkResult(uri, line, ms[k].index, ms[k].text))
  }

  /**
   * The results of lines, the first of which has number first: the first
   * matcher error ends the scan.
   */
  function ScanLines(uri: string, pattern: string, lines: seq<string>, first: nat, matcher: Matcher): Result<seq<WalkResult>, string>
  {
    if lines == [] then Ok([])
    else match matcher(pattern, lines[0])
      case Err(e) => Err(e)
      case Ok(ms) => Prepend(LineResults(uri, first, ms), ScanLines(uri, pattern, lines[1..], first + 1, matcher))
  }

  /** processFile: the lines of the file, numbered from 1; results carry the absolute path. */
  function FileScan(path: string, pattern: string, env: Env): Result<seq<WalkResult>, string>
  {
    match env.readLines(path)
    case Err(e) => Err(e)
    case Ok(lines) => ScanLines(env.abs(path), pattern, lines, 1, env.lineMatches)
  }

  /** The scan fails exactly when the matcher fails on some line. */
  lemma {:induction false} ScanLinesErrIff(uri: string, pattern: string, lines: seq<string>, first: nat, matcher: Matcher)
    ensures ScanLines(uri, pattern, lines, first, matcher).Err? <==>
      exists k :: 0 <= k < |lines| && matcher(pattern, lines[k]).Err?
  {
    if lines != [] {
      ScanLinesErrIff(uri, pattern, lines[1..], first + 1, matcher);
      if matcher(pattern, lines[0]).Ok? {
        if exists k :: 0 <= k < |lines| && matcher(pattern, lines[k]).Err? {
          var k :| 0 <= k < |lines| && matcher(pattern, lines[k]).Err?;
          assert lines[1..][k - 1] == lines[k];
        }
        if exists k :: 0 <= k < |lines[1..]| && matcher(pattern, lines[1..][k]).Err? {
          var k :| 0 <= k < |lines[1..]| && matcher(pattern, lines[1..][k]).Err?;
          assert lines[1..][k] == lines[k + 1];
        }
      }
    }
  }

  /**
   * Every result carries the file's uri and the number of one of the scanned
   * lines, and the numbers never decrease: results come in line order.
   */
  lemma {:induction false} ScanLinesOrdered(uri: string, pattern: string, lines: seq<string>, first: nat, matcher: Matcher)
    requires ScanLines(uri, pattern, lines, first, matcher).Ok?
    ensures var rs := ScanLines(uri, pattern, lines, first, matcher).value;
      && (forall k :: 0 <= k < |rs| ==> rs[k].uri == uri && first <= rs[k].line < first + |lines|)
      && (forall a, b :: 0 <= a <= b < |rs| ==> rs[a].line <= rs[b].line)
  {
    if lines != [] {
      var ms := matcher(pattern, lines[0]).value;
      var head := LineResults(uri, first, ms);
      ScanLinesOrdered(uri, pattern, lines[1..], first + 1, matcher);
      var rest := ScanLines(uri, pattern, lines[1..], first + 1, matcher).value;
      var rs := ScanLines(uri, pattern, lines, first, matcher).value;
      assert rs == head + rest;
      forall a, b | 0 <= a <= b < |rs| ensures rs[a].line <= rs[b].line {
        if b < |head| {
          assert rs[a] == head[a] && rs[b] == head[b];
        } else if a < |head| {
          assert rs[a] == head[a] && rs[b] == rest[b - |head|];
        } else {
          assert rs[a] == rest[a - |head|] && rs[b] == rest[b - |head|];
        }
      }
    }
  }

  /** The results on line n, in order. */
  function OnLine(rs: seq<WalkResult>, n: nat): seq<WalkResult>
  {
    FlatMap(rs, OnLineHit(n))
  }

  function OnLineHit(n: nat): WalkResult -> seq<WalkResult>
  {
    (w: WalkResult) => if w.line == n then [w] else []
  }

  lemma OnLineAppend(a: seq<WalkResult>, b: seq<WalkResult>, n: nat)
    ensures OnLine(a + b, n) == OnLine(a, n) + OnLine(b, n)
  {
    FlatMapAppend(a, b, OnLineHit(n));
  }

  /** All results of one line are on that line. */
  lemma {:induction false} OnLineResults(uri: string, line: nat, ms: seq<Match>, n: nat)
    ensures OnLine(LineResults(uri, line, ms), n) == if n == line then LineResults(uri, line, ms) else []
  {
    if ms != [] {
      var rs := LineResults(uri, line, ms);
      assert rs[1..] == LineResults(uri, line, ms[1..]);
      OnLineResults(uri, line, ms[1..], n);
      assert rs == [rs[0]] + rs[1..];
    }
  }

  /**
   * The results on the k-th scanned line are exactly the matches the matcher
   * reports for that line, in the matcher's order.
   */
  lemma {:induction false} ScanLinesPerLine(uri: string, pattern: string, lines: seq<string>, first: nat, matcher: Matcher, k: nat)
    requires ScanLines(uri, pattern, lines, first, matcher).Ok?
    requires k < |lines|
    ensures matcher(pattern, lines[k]).Ok?
    ensures OnLine(ScanLines(uri, pattern, lines, first, matcher).value, first + k) ==
            LineResults(uri, first + k, matcher(pattern, lines[k]).value)
  {
    if k == 0 {
      ScanFirstLine(uri, pattern, lines, first, matcher);
    } else {
      ScanLaterLine(uri, pattern, lines, first, matcher, first + k);
      ScanLinesPerLine(uri, pattern, lines[1..], first + 1, matcher, k - 1);
      assert lines[1..][k - 1] == lines[k];
    }
  }

  /** The results on the first scanned line are its matches. */
  lemma ScanFirstLine(uri: string, pattern: string, lines: seq<string>, first: nat, matcher: Matcher)
    requires ScanLines(uri, pattern, lines, first, matcher).Ok? && lines != []
    ensures matcher(pattern, lines[0]).Ok?
    ensures OnLine(ScanLines(uri, pattern, lines, first, matcher).value, first) ==
            LineResults(uri, first, matcher(pattern, lines[0]).value)
  {
    var ms := matcher(pattern, lines[0]).value;
    var head := LineResults(uri, first, ms);
    var rest := ScanLines(uri, pattern, lines[1..], first + 1, matcher).value;
    assert ScanLines(uri, pattern, lines, first, matcher).value == head + rest;
    OnLineAppend(head, rest, first);
    OnLineResults(uri, first, ms, first);
    ScanLinesOrdered(uri, pattern, lines[1..], first + 1, matcher);
    OnLineNone(rest, first);
    assert head + [] == head;
  }

  /** The results on a later line all come from the scan of the remaining lines. */
  lemma ScanLaterLine(uri: string, pattern: string, lines: seq<string>, first: nat, matcher: Matcher, n: nat)
    requires ScanLines(uri, pattern, lines, first, matcher).Ok? && lines != [] && n > first
    ensures ScanLines(uri, pattern, lines[1..], first + 1, matcher).Ok?
    ensures OnLine(ScanLines(uri, pattern, lines, first, matcher).value, n) ==
            OnLine(ScanLines(uri, pattern, lines[1..], first + 1, matcher).value, n)
  {
    var ms := matcher(pattern, lines[0]).value;
    var head := LineResults(uri, first, ms);
    var rest := ScanLines(uri, pattern, lines[1..], first + 1, matcher).value;
    assert ScanLines(uri, pattern, lines, first, matcher).value == head + rest;
    OnLineAppend(head, rest, n);
    OnLineResults(uri, first, ms, n);
    assert [] + OnLine(rest, n) == OnLine(rest, n);
  }

  /** No result lies on a line below every result's line. */
  lemma {:induction false} OnLineNone(rs: seq<WalkResult>, n: nat)
    requires forall k :: 0 <= k < |rs| ==> rs[k].line > n
    ensures OnLine(rs, n) == []
  {
    if rs != [] {
      OnLineNone(rs[1..], n);
    }
  }

  /** The scan loop of processFile. */
  method ProcessFile(path: string, pattern: string, env: Env) returns (r: Result<seq<WalkResult>, string>)
    ensures r == FileScan(path, pattern, env)
  {
    var read := env.readLines(path);
    if read.Err? {
      return Err(read.error);
    }
    var lines := read.value;
    var results: seq<WalkResult> := [];
    var lineNumber: nat := 1;
    var i := 0;
    assert lines[0..] == lines;
    PrependNothing(FileScan(path, pattern, env));
    while i < |lines|
      invariant 0 <= i <= |lines| && lineNumber == i + 1
      invariant FileScan(path, pattern, env) == Prepend(results, ScanLines(env.abs(path), pattern, lines[i..], lineNumber, env.lineMatches))
    {
      var line := lines[i];
      var found := env.lineMatches(pattern, line);
      assert lines[i..][0] == line && lines[i..][1..] == lines[i + 1..];
      if found.Err? {
        return Err(found.error);
      }
      var j := 0;
      ghost var before := results;
      while j < |found.value|
        invariant 0 <= j <= |found.value|
        invariant results == before + LineResults(env.abs(path), lineNumber, found.value[..j])
      {
        var m := found.value[j];
        var absPath := env.abs(path);
        results := results + [WalkResult(absPath, lineNumber, m.index, m.text)];
        assert found.value[..j + 1] == found.value[..j] + [m];
        j := j + 1;
      }
      assert found.value[..j] == found.value;
      PrependTwice(before, LineResults(env.abs(path), lineNumber, found.value),
                   ScanLines(env.abs(path), pattern, lines[i + 1..], lineNumber + 1, env.lineMatches));
      lineNumber := lineNumber + 1;
      i := i + 1;
    }
    assert lines[i..] == [] && results + [] == results;
    r := Ok(results);
  }

  /**
   * parallelWalk, in walk order: the scans of the regular files concatenated;
   * the walk's error or the first file error ends it.
   */
  function WalkFiles(infos: seq<FileInfo>, pattern: string, env: Env): Result<seq<WalkResult>, string>
  {
    if infos == [] then Ok([])
    else if !infos[0].regular then WalkFiles(infos[1..], pattern, env)
    else match FileScan(infos[0].path, pattern, env)
      case Err(e) => Err(e)
      case Ok(rs) => Prepend(rs, WalkFiles(infos[1..], pattern, env))
  }

  function WalkScan(location: string, pattern: string, env: Env): Result<seq<WalkResult>, string>
  {
    match env.walk(location)
    case Err(e) => Err(e)
    case Ok(infos) => WalkFiles(infos, pattern, env)
  }

  /** Every result comes from a regular file of the walk, carries its absolute path, and is on a line of it. */
  lemma {:induction false} WalkFilesFromRegularFiles(infos: seq<FileInfo>, pattern: string, env: Env)
    requires WalkFiles(infos, pattern, env).Ok?
    ensures forall w :: w in WalkFiles(infos, pattern, env).value ==>
      exists i :: 0 <= i < |infos| && infos[i].regular && w.uri == env.abs(infos[i].path) && w.line >= 1
  {
    if infos != [] {
      WalkFilesFromRegularFiles(infos[1..], pattern, env);
      var rest := WalkFiles(infos[1..], pattern, env).value;
      forall w | w in rest
        ensures exists i :: 0 <= i < |infos| && infos[i].regular && w.uri == env.abs(infos[i].path) && w.line >= 1
      {
        var i :| 0 <= i < |infos[1..]| && infos[1..][i].regular && w.uri == env.abs(infos[1..][i].path) && w.line >= 1;
        assert infos[1..][i] == infos[i + 1];
      }
      if infos[0].regular {
        var rs := FileScan(infos[0].path, pattern, env).value;
        ScanLinesOrdered(env.abs(infos[0].path), pattern, env.readLines(infos[0].path).value, 1, env.lineMatches);
        forall w | w in rs
          ensures w.uri == env.abs(infos[0].path) && w.line >= 1
        {
          var k :| 0 <= k < |rs| && rs[k] == w;
        }
      }
    }
  }

  /** The walk of parallelWalk, run one file after another. */
  method ParallelWalk(location: string, pattern: string, env: Env) returns (r: Result<seq<WalkResult>, string>)
    ensures r == WalkScan(location, pattern, env)
  {
    var walked := env.walk(location);
    if walked.Err? {
      return Err(walked.error);
    }
    var infos := walked.value;
    var positions: seq<WalkResult> := [];
    assert infos[0..] == infos;
    PrependNothing(WalkScan(location, pattern, env));
    for i := 0 to |infos|
      invariant WalkScan(location, pattern, env) == Prepend(positions, WalkFiles(infos[i..], pattern, env))
    {
      assert infos[i..][0] == infos[i] && infos[i..][1..] == infos[i + 1..];
      if infos[i].regular {
        var pos := ProcessFile(infos[i].path, pattern, env);
        if pos.Err? {
          return Err(pos.error);
        }
        PrependTwice(positions, pos.value, WalkFiles(infos[i + 1..], pattern, env));
        positions := positions + pos.value;
      }
    }
    assert infos[|infos|..] == [] && positions + [] == positions;
    r := Ok(positions);
  }
}
