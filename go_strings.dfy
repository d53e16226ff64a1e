/**
 * The few functions of Go's strings, regexp and path/filepath packages that the
 * builtin provider applies to plain text: splitting, joining, trimming, tab
 * removal, regex quoting, and the base and parent of a '/'-separated path.
 * Strings are sequences of runes.
 */
module GoStrings {

  /** Index of the first occurrence of c in s. */
  function IndexOf(s: string, c: char): (i: nat)
    requires c in s
    ensures i < |s| && s[i] == c && c !in s[..i]
  {
    if s[0] == c then 0
    else
      var j := IndexOf(s[1..], c);
      assert s[..j + 1] == [s[0]] + s[1..][..j];
      1 + j
  }

  /** Index of the last occurrence of c in s. */
  function LastIndexOf(s: string, c: char): (i: nat)
    requires c in s
    ensures i < |s| && s[i] == c && c !in s[i + 1..]
  {
    if s[|s| - 1] == c then |s| - 1
    else
      var j := LastIndexOf(s[..|s| - 1], c);
      assert s[j + 1..] == s[..|s| - 1][j + 1..] + [s[|s| - 1]];
      j
  }

  /** LastIndexOf names the occurrence that has no c after it. */
  lemma {:induction false} LastIndexOfUnique(s: string, c: char, i: nat)
    requires i < |s| && s[i] == c && c !in s[i + 1..]
    ensures LastIndexOf(s, c) == i
  {
    if i < |s| - 1 {
      assert s[|s| - 1] in s[i + 1..];
      var t := s[..|s| - 1];
      assert t[i + 1..] + [s[|s| - 1]] == s[i + 1..];
      LastIndexOfUnique(t, c, i);
    }
  }

  /** strings.Join: the parts with sep between consecutive parts. */
  function Join(parts: seq<string>, sep: string): string
  {
    if |parts| == 0 then ""
    else if |parts| == 1 then parts[0]
    else parts[0] + sep + Join(parts[1..], sep)
  }

  /** Join of three parts. */
  lemma JoinThree(a: string, b: string, c: string, sep: string)
    ensures Join([a, b, c], sep) == a + sep + b + sep + c
  {
    assert [a, b, c][1..] == [b, c];
    assert [b, c][1..] == [c];
    assert Join([b, c], sep) == b + sep + c;
    assert Join([a, b, c], sep) == a + sep + (b + sep + c);
    ConcatAssociates(a + sep, b + sep, c);
    ConcatAssociates(a + sep, b, sep);
  }

  /**
   * strings.Split with a one-rune separator: the maximal separator-free pieces,
   * always at least one (Split("") is [""]).
   */
  function Split(s: string, sep: char): (parts: seq<string>)
    ensures |parts| >= 1
    decreases |s|
  {
    if sep !in s then [s]
    else
      var i := IndexOf(s, sep);
      [s[..i]] + Split(s[i + 1..], sep)
  }

  /** No piece contains the separator. */
  lemma {:induction false} SplitPiecesFree(s: string, sep: char)
    ensures forall i :: 0 <= i < |Split(s, sep)| ==> sep !in Split(s, sep)[i]
    decreases |s|
  {
    if sep in s {
      var i := IndexOf(s, sep);
      SplitPiecesFree(s[i + 1..], sep);
    }
  }

  /** Joining the pieces back with the separator gives the text. */
  lemma {:induction false} JoinSplit(s: string, sep: char)
    ensures Join(Split(s, sep), [sep]) == s
    decreases |s|
  {
    if sep in s {
      var i := IndexOf(s, sep);
      var rest := Split(s[i + 1..], sep);
      JoinSplit(s[i + 1..], sep);
      assert ([s[..i]] + rest)[1..] == rest;
      assert s == s[..i] + [sep] + s[i + 1..];
    }
  }

  /** The first occurrence is the only index with c there and none before it. */
  lemma IndexOfUnique(s: string, c: char, i: nat)
    requires i < |s| && s[i] == c && c !in s[..i]
    ensures IndexOf(s, c) == i
  {
  }

  /** Splitting the join of separator-free parts gives the parts back. */
  lemma {:induction false} SplitJoin(parts: seq<string>, sep: char)
    requires |parts| >= 1
    requires forall i :: 0 <= i < |parts| ==> sep !in parts[i]
    ensures Split(Join(parts, [sep]), sep) == parts
  {
    if |parts| > 1 {
      var s := Join(parts, [sep]);
      var p0 := parts[0];
      var tail := Join(parts[1..], [sep]);
      assert s == p0 + [sep] + tail;
      assert s[..|p0|] == p0;
      IndexOfUnique(s, sep, |p0|);
      assert s[|p0| + 1..] == tail;
      SplitJoin(parts[1..], sep);
    }
  }

  /** Split unfolded once at the first separator of s. */
  lemma SplitAt(s: string, sep: char, i: nat)
    requires i < |s| && s[i] == sep && sep !in s[..i]
    ensures Split(s, sep) == [s[..i]] + Split(s[i + 1..], sep)
  {
    IndexOfUnique(s, sep, i);
  }

  /** A separator splits the text into the pieces on either side of it. */
  lemma {:induction false} SplitAround(a: string, b: string, sep: char)
    ensures Split(a + [sep] + b, sep) == Split(a, sep) + Split(b, sep)
    decreases |a|
  {
    if sep !in a {
      SplitAroundFree(a, b, sep);
    } else {
      var j := IndexOf(a, sep);
      var a', head := a[j + 1..], [a[..j]];
      SplitAroundStep(a, b, sep, j);
      SplitAround(a', b, sep);
      ConcatAssociates(head, Split(a', sep), Split(b, sep));
    }
  }

  lemma ConcatAssociates<T>(x: seq<T>, y: seq<T>, z: seq<T>)
    ensures x + (y + z) == (x + y) + z
  {
  }

  /** SplitAround when a holds no separator. */
  lemma SplitAroundFree(a: string, b: string, sep: char)
    requires sep !in a
    ensures Split(a + [sep] + b, sep) == [a] + Split(b, sep)
  {
    var s := a + [sep] + b;
    assert s[..|a|] == a;
    SplitAt(s, sep, |a|);
    assert s[|a| + 1..] == b;
  }

  /** One unfolding of SplitAround at the first separator j of a. */
  lemma SplitAroundStep(a: string, b: string, sep: char, j: nat)
    requires j < |a| && a[j] == sep && sep !in a[..j]
    ensures Split(a + [sep] + b, sep) == [a[..j]] + Split(a[j + 1..] + [sep] + b, sep)
    ensures Split(a, sep) == [a[..j]] + Split(a[j + 1..], sep)
  {
    var s := a + [sep] + b;
    assert s[..j] == a[..j];
    SplitAt(s, sep, j);
    assert s[j + 1..] == a[j + 1..] + [sep] + b;
    SplitAt(a, sep, j);
  }

  /** Joining with the empty separator distributes over concatenation. */
  lemma {:induction false} JoinEmptyAppend(a: seq<string>, b: seq<string>)
    ensures Join(a + b, "") == Join(a, "") + Join(b, "")
  {
    if |a| == 0 {
      assert a + b == b;
    } else if |a| == 1 {
      if |b| > 0 {
        assert (a + b)[1..] == b;
      }
    } else {
      assert (a + b)[1..] == a[1..] + b;
      JoinEmptyAppend(a[1..], b);
    }
  }

  /** Joining with the empty separator gives "" exactly when every part is "". */
  lemma {:induction false} JoinEmptyIsEmpty(parts: seq<string>)
    ensures Join(parts, "") == "" <==> forall i :: 0 <= i < |parts| ==> parts[i] == ""
  {
    if |parts| > 1 {
      JoinEmptyIsEmpty(parts[1..]);
      assert forall i :: 1 <= i < |parts| ==> parts[i] == parts[1..][i - 1];
    }
  }

  /** Leading runes of s in cut removed. */
  function TrimLeft(s: string, cut: set<char>): (r: string)
    ensures |r| <= |s|
  {
    if |s| > 0 && s[0] in cut then TrimLeft(s[1..], cut) else s
  }

  /** TrimLeft removes a prefix of runes in cut and stops at a rune outside it. */
  lemma {:induction false} TrimLeftFacts(s: string, cut: set<char>)
    ensures var r := TrimLeft(s, cut);
      && r == s[|s| - |r|..]
      && (forall k :: 0 <= k < |s| - |r| ==> s[k] in cut)
      && (|r| > 0 ==> r[0] !in cut)
  {
    if |s| > 0 && s[0] in cut {
      TrimLeftFacts(s[1..], cut);
      var r := TrimLeft(s, cut);
      assert forall k :: 1 <= k < |s| - |r| ==> s[k] == s[1..][k - 1];
    }
  }

  /** Trailing runes of s in cut removed. */
  function TrimRight(s: string, cut: set<char>): (r: string)
    ensures |r| <= |s|
  {
    if |s| > 0 && s[|s| - 1] in cut then TrimRight(s[..|s| - 1], cut) else s
  }

  /** TrimRight removes a suffix of runes in cut and stops at a rune outside it. */
  lemma {:induction false} TrimRightFacts(s: string, cut: set<char>)
    ensures var r := TrimRight(s, cut);
      && r == s[..|r|]
      && (forall k :: |r| <= k < |s| ==> s[k] in cut)
      && (|r| > 0 ==> r[|r| - 1] !in cut)
  {
    if |s| > 0 && s[|s| - 1] in cut {
      TrimRightFacts(s[..|s| - 1], cut);
    }
  }

  /** strings.Trim(s, cutset): leading and trailing runes in cut removed. */
  function Trim(s: string, cut: set<char>): (r: string)
    ensures |r| <= |s|
  {
    TrimRight(TrimLeft(s, cut), cut)
  }

  /**
   * Trim leaves "" exactly when every rune of s is in cut; otherwise the
   * result starts and ends outside cut; every rune of s is cut or kept.
   */
  lemma TrimFacts(s: string, cut: set<char>)
    ensures var r := Trim(s, cut);
      && (r == "" <==> forall k :: 0 <= k < |s| ==> s[k] in cut)
      && (|r| > 0 ==> r[0] !in cut && r[|r| - 1] !in cut)
      && (forall k :: 0 <= k < |s| ==> s[k] in cut || s[k] in r)
  {
    var left := TrimLeft(s, cut);
    var r := TrimRight(left, cut);
    var d := |s| - |left|;
    TrimLeftFacts(s, cut);
    TrimRightFacts(left, cut);
    if r != "" {
      assert s[d] == left[0];
      assert left[0] == r[0];
    }
    forall k | 0 <= k < |s| && s[k] !in cut ensures s[k] in r {
      assert k >= d;
      assert s[k] == left[k - d];
      assert k - d < |r|;
      assert r[k - d] == left[k - d];
    }
  }

  /** Every rune of a part occurs in the joined text. */
  lemma {:induction false} JoinKeeps(parts: seq<string>, sep: string, i: nat, k: nat)
    requires i < |parts| && k < |parts[i]|
    ensures parts[i][k] in Join(parts, sep)
  {
    if |parts| > 1 {
      var tail := Join(parts[1..], sep);
      assert Join(parts, sep) == parts[0] + sep + tail;
      if i == 0 {
        assert Join(parts, sep)[k] == parts[0][k];
      } else {
        JoinKeeps(parts[1..], sep, i - 1, k);
        var m :| 0 <= m < |tail| && tail[m] == parts[i][k];
        assert Join(parts, sep)[|parts[0]| + |sep| + m] == tail[m];
      }
    }
  }

  /** The runes unicode.IsSpace accepts, which strings.TrimSpace removes. */
  const Whitespace: set<char> := {
    '\t', '\n', '\U{B}', '\U{C}', '\r', ' ', '\U{85}', '\U{A0}', '\U{1680}',
    '\U{2000}', '\U{2001}', '\U{2002}', '\U{2003}', '\U{2004}', '\U{2005}',
    '\U{2006}', '\U{2007}', '\U{2008}', '\U{2009}', '\U{200A}',
    '\U{2028}', '\U{2029}', '\U{202F}', '\U{205F}', '\U{3000}'
  }

  /** strings.TrimSpace. */
  function TrimSpace(s: string): string
  {
    Trim(s, Whitespace)
  }

  /** strings.ReplaceAll(s, string(c), ""): every c deleted, the other runes kept in order. */
  function RemoveAll(s: string, c: char): (r: string)
    ensures |r| <= |s|
  {
    if s == "" then ""
    else (if s[0] == c then "" else [s[0]]) + RemoveAll(s[1..], c)
  }

  /**
   * RemoveAll leaves no c, changes nothing when there is no c, and leaves ""
   * exactly when s holds nothing but c.
   */
  lemma {:induction false} RemoveAllFacts(s: string, c: char)
    ensures var r := RemoveAll(s, c);
      && c !in r
      && (c !in s ==> r == s)
      && (r == "" <==> forall k :: 0 <= k < |s| ==> s[k] == c)
  {
    if s != "" {
      RemoveAllFacts(s[1..], c);
      assert forall k :: 1 <= k < |s| ==> s[k] == s[1..][k - 1];
      assert s == [s[0]] + s[1..];
    }
  }

  /** The bytes regexp.QuoteMeta escapes with a backslash. */
  const RegexSpecial: set<char> :=
    {'\\', '.', '+', '*', '?', '(', ')', '|', '[', ']', '{', '}', '^', '$'}

  /** regexp.QuoteMeta: every regex metacharacter preceded by a backslash. */
  function QuoteMeta(s: string): (r: string)
    ensures |s| <= |r| <= 2 * |s|
  {
    if s == "" then ""
    else (if s[0] in RegexSpecial then ['\\', s[0]] else [s[0]]) + QuoteMeta(s[1..])
  }

  /** QuoteMeta leaves text without metacharacters alone. */
  lemma {:induction false} QuoteMetaPlain(s: string)
    requires forall k :: 0 <= k < |s| ==> s[k] !in RegexSpecial
    ensures QuoteMeta(s) == s
  {
    if s != "" {
      QuoteMetaPlain(s[1..]);
      assert s == [s[0]] + s[1..];
    }
  }

  /** Inverse of QuoteMeta: a backslash makes the rune after it literal. */
  function Unquote(r: string): string
  {
    if r == "" then ""
    else if r[0] == '\\' && |r| > 1 then [r[1]] + Unquote(r[2..])
    else [r[0]] + Unquote(r[1..])
  }

  /** Quoting loses nothing: unquoting the quoted text gives it back. */
  lemma {:induction false} UnquoteQuoteMeta(s: string)
    ensures Unquote(QuoteMeta(s)) == s
  {
    if s != "" {
      var q := QuoteMeta(s);
      var tail := QuoteMeta(s[1..]);
      UnquoteQuoteMeta(s[1..]);
      if s[0] in RegexSpecial {
        assert q == ['\\', s[0]] + tail;
        assert q[2..] == tail;
      } else {
        assert q == [s[0]] + tail;
        assert q[1..] == tail;
      }
      assert s == [s[0]] + s[1..];
    }
  }

  /** path with its trailing slashes removed. */
  function DropTrailingSlashes(path: string): (r: string)
    ensures |r| <= |path| && r == path[..|r|]
    ensures |r| > 0 ==> r[|r| - 1] != '/'
  {
    if |path| > 0 && path[|path| - 1] == '/' then DropTrailingSlashes(path[..|path| - 1]) else path
  }

  /**
   * filepath.Base: the last element of path after trailing slashes are removed;
   * "." for the empty path and "/" for a path of slashes only.
   */
  function Base(path: string): (r: string)
    ensures r != ""
  {
    if path == "" then "."
    else
      var p := DropTrailingSlashes(path);
      if p == "" then "/"
      else if '/' in p then p[LastIndexOf(p, '/') + 1..]
      else p
  }

  /**
   * filepath.Dir for a clean path: everything before the last '/', "/" when
   * that slash is the first rune, and "." when there is no slash.
   */
  function Dir(path: string): string
  {
    if '/' !in path then "."
    else
      var i := LastIndexOf(path, '/');
      if i == 0 then "/" else path[..i]
  }
}
