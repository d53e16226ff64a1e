/**
 * The location resolver of getLocation: a snippet of a document becomes a
 * fuzzy multi-line regex, which is looked up in, or resolved by the multi-line
 * grep into, the location cache. The cache maps path + "-" + pattern to a line
 * number, with -1 meaning "resolution failed before".
 */
module LocationResolver {
  import opened Wrappers
  import opened GoStrings
  import opened BuiltinTypes

  /** Only this many "\n"-separated parts of a snippet are used. */
  const MaxSnippetLines: nat := 5

  /** The lazy wildcard between lines and in front of the pattern. */
  const Wildcard: string := ".*?"

  /** The cached value standing for an earlier failure. */
  const FailedLine: int := -1

  datatype LocationError = EmptyContent | PreviouslyFailed | NotFound(path: string)

  /** One snippet line: spaces trimmed from both ends, then every tab deleted, then regex metacharacters quoted. */
  function NormalizeLine(part: string): string
  {
    QuoteMeta(RemoveAll(Trim(part, {' '}), '\t'))
  }

  /**
   * A line normalises to "" exactly when only tabs are left once its spaces are
   * trimmed; so an all-space line does, and every line that does is made of
   * spaces and tabs.
   */
  lemma NormalizeLineEmpty(part: string)
    ensures NormalizeLine(part) == "" <==>
      var t := Trim(part, {' '}); forall k :: 0 <= k < |t| ==> t[k] == '\t'
    ensures (forall k :: 0 <= k < |part| ==> part[k] == ' ') ==> NormalizeLine(part) == ""
    ensures NormalizeLine(part) == "" ==> forall k :: 0 <= k < |part| ==> part[k] == ' ' || part[k] == '\t'
  {
    var t := Trim(part, {' '});
    TrimFacts(part, {' '});
    RemoveAllFacts(t, '\t');
  }

  /** Tab removal comes after trimming, so a space between tabs survives. */
  lemma SpaceBetweenTabsSurvives()
    ensures NormalizeLine("\t \t") == " "
  {
    assert TrimLeft("\t \t", {' '}) == "\t \t";
    assert TrimRight("\t \t", {' '}) == "\t \t";
    assert RemoveAll("\t", '\t') == "";
    assert RemoveAll(" \t", '\t') == " ";
    assert RemoveAll("\t \t", '\t') == " ";
    assert QuoteMeta(" ") == " ";
  }

  /** The parts of a snippet that are used: the first MaxSnippetLines. */
  function FirstParts(parts: seq<string>): (r: seq<string>)
    ensures |r| <= MaxSnippetLines && |r| <= |parts|
    ensures r == parts[..|r|]
    ensures |parts| <= MaxSnippetLines ==> r == parts
    ensures |parts| > MaxSnippetLines ==> |r| == MaxSnippetLines
  {
    if |parts| > MaxSnippetLines then parts[..MaxSnippetLines] else parts
  }

  /** Every part normalised, in order. */
  function NormalizeAll(parts: seq<string>): (lines: seq<string>)
    ensures |lines| == |parts|
    ensures forall i :: 0 <= i < |parts| ==> lines[i] == NormalizeLine(parts[i])
  {
    seq(|parts|, i requires 0 <= i < |parts| => NormalizeLine(parts[i]))
  }

  /** At most one leading and one trailing "" removed. */
  function DropEmptyEnds(lines: seq<string>): seq<string>
  {
    var a := if |lines| > 0 && lines[0] == "" then lines[1..] else lines;
    if |a| > 0 && a[|a| - 1] == "" then a[..|a| - 1] else a
  }

  /**
   * Dropping the empty ends removes at most two lines, all of them "", and
   * keeps a non-empty first or last line in place.
   */
  lemma DropEmptyEndsKeeps(lines: seq<string>)
    ensures var r := DropEmptyEnds(lines);
      && |lines| - 2 <= |r| <= |lines|
      && (forall i :: 0 <= i < |r| ==> r[i] in lines)
      && (forall i :: 0 <= i < |lines| ==> lines[i] == "" || lines[i] in r)
      && (|lines| > 0 && lines[0] != "" ==> |r| > 0 && r[0] == lines[0])
      && (|lines| > 0 && lines[|lines| - 1] != "" ==> |r| > 0 && r[|r| - 1] == lines[|lines| - 1])
  {
    var a := if |lines| > 0 && lines[0] == "" then lines[1..] else lines;
    if |lines| > 0 && lines[0] == "" {
      assert forall i :: 1 <= i < |lines| ==> lines[i] == a[i - 1];
    }
    if |a| > 0 && a[|a| - 1] == "" {
      assert forall i :: 0 <= i < |a| - 1 ==> a[i] == a[..|a| - 1][i];
    }
  }

  /** The "\n"-separated parts of a snippet that are used. */
  function UsedParts(content: string): seq<string>
  {
    FirstParts(Split(content, '\n'))
  }

  /** The lines of the pattern of a snippet, before the emptiness check. */
  function PatternLines(content: string): seq<string>
  {
    DropEmptyEnds(NormalizeAll(UsedParts(content)))
  }

  /** The "empty content" error: no line left, or only empty ones. */
  predicate IsEmptyContent(lines: seq<string>)
  {
    |lines| < 1 || Join(lines, "") == ""
  }

  /** The fuzzy pattern: Wildcard, then the lines joined by Wildcard. */
  function PatternOf(lines: seq<string>): string
  {
    Wildcard + Join(lines, Wildcard)
  }

  /** The pattern of a snippet; None stands for the "empty content" error. */
  function LocationPattern(content: string): Option<string>
  {
    var lines := PatternLines(content);
    if IsEmptyContent(lines) then None else Some(PatternOf(lines))
  }

  /** Dropping the empty ends leaves empty content exactly when every line is "". */
  lemma DropEmptyEndsEmptyIff(lines: seq<string>)
    ensures IsEmptyContent(DropEmptyEnds(lines)) <==> forall i :: 0 <= i < |lines| ==> lines[i] == ""
  {
    var r := DropEmptyEnds(lines);
    JoinEmptyIsEmpty(r);
    DropEmptyEndsKeeps(lines);
    if forall i :: 0 <= i < |lines| ==> lines[i] == "" {
      forall i | 0 <= i < |r| ensures r[i] == "" {
        var j :| 0 <= j < |lines| && lines[j] == r[i];
      }
    } else {
      var i :| 0 <= i < |lines| && lines[i] != "";
      assert lines[i] in r;
    }
  }

  /** Lines whose first and last are not "" are kept whole and are not empty content. */
  lemma DropEmptyEndsKeepsAll(lines: seq<string>)
    requires |lines| >= 1 && lines[0] != "" && lines[|lines| - 1] != ""
    ensures DropEmptyEnds(lines) == lines
    ensures !IsEmptyContent(lines)
  {
    JoinEmptyIsEmpty(lines);
  }

  /** The snippet is empty content exactly when each used part normalises to "". */
  lemma EmptyContentIff(content: string)
    ensures IsEmptyContent(PatternLines(content)) <==>
      forall i :: 0 <= i < |UsedParts(content)| ==> NormalizeLine(UsedParts(content)[i]) == ""
  {
    var parts := UsedParts(content);
    var normalized := NormalizeAll(parts);
    DropEmptyEndsEmptyIff(normalized);
    assert (forall i :: 0 <= i < |normalized| ==> normalized[i] == "") <==>
           (forall i :: 0 <= i < |parts| ==> NormalizeLine(parts[i]) == "");
  }

  /** The cache key of getLocation. */
  function CacheKey(path: string, pattern: string): string
  {
    path + "-" + pattern
  }

  /**
   * getLocation from the pattern lines on, as a function of the cache before
   * the call: the result and the cache after it. The cache is read only for a
   * non-empty pattern and written only on a miss, with the line grep found or
   * FailedLine.
   */
  function ResolveLines(cache: map<string, int>, path: string, lines: seq<string>,
                        grep: (nat, string, string) -> Result<int, string>): (Result<Location, LocationError>, map<string, int>)
  {
    if IsEmptyContent(lines) then (Err(EmptyContent), cache)
    else
      var pattern := PatternOf(lines);
      var key := CacheKey(path, pattern);
      if key in cache then
        if cache[key] == FailedLine then (Err(PreviouslyFailed), cache)
        else (Ok(Location(cache[key], cache[key])), cache)
      else
        match grep(|lines|, path, pattern)
        case Err(_) => (Err(NotFound(path)), cache[key := FailedLine])
        case Ok(n) =>
          if n == FailedLine then (Err(NotFound(path)), cache[key := FailedLine])
          else (Ok(Location(n, n)), cache[key := n])
  }

  /** getLocation for a snippet. */
  function ResolveLocation(cache: map<string, int>, path: string, content: string,
                           grep: (nat, string, string) -> Result<int, string>): (Result<Location, LocationError>, map<string, int>)
  {
    ResolveLines(cache, path, PatternLines(content), grep)
  }

  /** The loop of getLocation that builds the lines from the used parts. */
  method NormalizeParts(parts: seq<string>) returns (lines: seq<string>)
    ensures lines == NormalizeAll(parts)
  {
    lines := [];
    for i := 0 to |parts|
      invariant |lines| == i
      invariant forall k :: 0 <= k < i ==> lines[k] == NormalizeLine(parts[k])
    {
      lines := lines + [NormalizeLine(parts[i])];
    }
  }

  /** A snippet of spaces and line breaks only is empty content and leaves the cache alone. */
  lemma BlankSnippetIsEmptyContent(cache: map<string, int>, path: string, content: string,
                                   grep: (nat, string, string) -> Result<int, string>)
    requires forall k :: 0 <= k < |content| ==> content[k] == ' ' || content[k] == '\n'
    ensures ResolveLocation(cache, path, content, grep) == (Err(EmptyContent), cache)
  {
    var all := Split(content, '\n');
    var parts := FirstParts(all);
    JoinSplit(content, '\n');
    SplitPiecesFree(content, '\n');
    forall i | 0 <= i < |parts| ensures NormalizeLine(parts[i]) == "" {
      forall k | 0 <= k < |parts[i]| ensures parts[i][k] == ' ' {
        assert parts[i] == all[i];
        JoinKeeps(all, "\n", i, k);
      }
      NormalizeLineEmpty(parts[i]);
    }
    EmptyContentIff(content);
  }

  /** A snippet "\t \t" is not empty content: its pattern is Wildcard + " ". */
  lemma TabsAroundSpaceGivePattern()
    ensures LocationPattern("\t \t") == Some(Wildcard + " ")
  {
    assert Split("\t \t", '\n') == ["\t \t"];
    SpaceBetweenTabsSurvives();
    assert NormalizeAll(["\t \t"]) == [" "];
    assert PatternLines("\t \t") == [" "];
  }

  /** Parts after the fifth never reach the pattern. */
  lemma PatternIgnoresPartsAfterFifth(parts: seq<string>, extra: seq<string>)
    requires |parts| == MaxSnippetLines
    requires forall i :: 0 <= i < |parts + extra| ==> '\n' !in (parts + extra)[i]
    ensures PatternLines(Join(parts + extra, "\n")) == PatternLines(Join(parts, "\n"))
  {
    SplitJoin(parts + extra, '\n');
    assert forall i :: 0 <= i < |parts| ==> '\n' !in parts[i] by {
      assert forall i :: 0 <= i < |parts| ==> parts[i] == (parts + extra)[i];
    }
    SplitJoin(parts, '\n');
    assert (parts + extra)[..MaxSnippetLines] == parts;
  }

  /**
   * For one to five lines whose first and last do not normalise to "", the
   * pattern is Wildcard followed by all normalised lines joined by Wildcard.
   */
  lemma PatternOfLines(parts: seq<string>)
    requires 1 <= |parts| <= MaxSnippetLines
    requires forall i :: 0 <= i < |parts| ==> '\n' !in parts[i]
    requires NormalizeLine(parts[0]) != "" && NormalizeLine(parts[|parts| - 1]) != ""
    ensures LocationPattern(Join(parts, "\n")) == Some(Wildcard + Join(NormalizeAll(parts), Wildcard))
  {
    SplitJoin(parts, '\n');
    PatternLinesOfParts(Join(parts, "\n"), parts);
  }

  /** When the used parts have ends that do not normalise to "", every one of them is a pattern line. */
  lemma PatternLinesOfParts(content: string, parts: seq<string>)
    requires UsedParts(content) == parts && |parts| >= 1
    requires NormalizeLine(parts[0]) != "" && NormalizeLine(parts[|parts| - 1]) != ""
    ensures PatternLines(content) == NormalizeAll(parts)
    ensures !IsEmptyContent(PatternLines(content))
  {
    DropEmptyEndsKeepsAll(NormalizeAll(parts));
  }

  /** A line without spaces, tabs or regex metacharacters is its own pattern line. */
  lemma PlainLineUnchanged(s: string)
    requires forall k :: 0 <= k < |s| ==> s[k] != ' ' && s[k] != '\t' && s[k] !in RegexSpecial
    ensures NormalizeLine(s) == s
  {
    assert TrimLeft(s, {' '}) == s;
    assert TrimRight(s, {' '}) == s;
    RemoveAllFacts(s, '\t');
    QuoteMetaPlain(s);
  }

  /** The pattern lines of "\n\n" + line: the first empty line goes, the second stays. */
  lemma DoubleBlankLines(line: string)
    requires '\n' !in line && NormalizeLine(line) != ""
    ensures PatternLines("\n\n" + line) == ["", NormalizeLine(line)]
  {
    var parts := ["", "", line];
    JoinThree("", "", line, "\n");
    assert "" + "\n" + "" + "\n" + line == "\n\n" + line;
    SplitJoin(parts, '\n');
    PlainLineUnchanged("");
    var normalized := NormalizeAll(parts);
    assert normalized == ["", "", NormalizeLine(line)];
    assert normalized[1..] == ["", NormalizeLine(line)];
  }

  /**
   * Only one of two leading empty lines is dropped: the pattern of "\n\n" + line
   * keeps an empty line, so it holds two wildcards before the line.
   */
  lemma OneLeadingEmptyLineDropped(line: string)
    requires '\n' !in line && NormalizeLine(line) != ""
    ensures LocationPattern("\n\n" + line) == Some(Wildcard + Wildcard + NormalizeLine(line))
  {
    DoubleBlankLines(line);
    var lines := ["", NormalizeLine(line)];
    JoinEmptyIsEmpty(lines);
    assert lines[1..] == [NormalizeLine(line)];
    assert Join(lines, Wildcard) == Wildcard + NormalizeLine(line);
    assert !IsEmptyContent(lines) by {
      assert lines[1] != "";
    }
    assert PatternOf(lines) == Wildcard + Wildcard + NormalizeLine(line);
  }

  /** A hit on the failure value is an error, whatever grep would now say. */
  lemma CachedFailureSkipsGrep(cache: map<string, int>, path: string, lines: seq<string>,
                               grep1: (nat, string, string) -> Result<int, string>,
                               grep2: (nat, string, string) -> Result<int, string>)
    requires !IsEmptyContent(lines)
    requires CacheKey(path, PatternOf(lines)) in cache
    requires cache[CacheKey(path, PatternOf(lines))] == FailedLine
    ensures ResolveLines(cache, path, lines, grep1) == (Err(PreviouslyFailed), cache)
    ensures ResolveLines(cache, path, lines, grep2) == ResolveLines(cache, path, lines, grep1)
  {
  }

  /** A hit on a line v gives start = end = v and leaves the cache as it was. */
  lemma CachedLineReplayed(cache: map<string, int>, path: string, lines: seq<string>,
                           grep: (nat, string, string) -> Result<int, string>)
    requires !IsEmptyContent(lines)
    requires CacheKey(path, PatternOf(lines)) in cache
    requires cache[CacheKey(path, PatternOf(lines))] != FailedLine
    ensures var v := cache[CacheKey(path, PatternOf(lines))];
      ResolveLines(cache, path, lines, grep) == (Ok(Location(v, v)), cache)
  {
  }

  /**
   * A miss writes exactly the key of this call: the line grep found, or
   * FailedLine when grep failed or found nothing; a success reports that line
   * as both start and end. The grep window is the number of lines.
   */
  lemma MissWritesOnce(cache: map<string, int>, path: string, lines: seq<string>,
                       grep: (nat, string, string) -> Result<int, string>)
    requires !IsEmptyContent(lines)
    requires CacheKey(path, PatternOf(lines)) !in cache
    ensures var pattern := PatternOf(lines);
      var key := CacheKey(path, pattern);
      var (r, after) := ResolveLines(cache, path, lines, grep);
      var found := grep(|lines|, path, pattern);
      var v := if found.Ok? then found.value else FailedLine;
      && after == cache[key := v]
      && (r.Ok? <==> v != FailedLine)
      && (r.Ok? ==> r.value == Location(v, v))
      && (r.Err? ==> r.error == NotFound(path))
  {
  }

  /** Entries already in the cache are never changed, and at most one key is added. */
  lemma CacheOnlyGrows(cache: map<string, int>, path: string, lines: seq<string>,
                       grep: (nat, string, string) -> Result<int, string>)
    ensures var after := ResolveLines(cache, path, lines, grep).1;
      && (forall k :: k in cache ==> k in after && after[k] == cache[k])
      && |after.Keys - cache.Keys| <= 1
  {
    var after := ResolveLines(cache, path, lines, grep).1;
    var key := CacheKey(path, PatternOf(lines));
    if !IsEmptyContent(lines) && key !in cache {
      MissWritesOnce(cache, path, lines, grep);
      assert after.Keys - cache.Keys == {key};
    } else {
      assert after == cache;
    }
  }

  /**
   * Resolving the same lines in the same file a second time replays the first
   * answer and does not consult grep: a changed or deleted file (another grep)
   * makes no difference.
   */
  lemma SecondResolutionReplays(cache: map<string, int>, path: string, lines: seq<string>,
                                grep1: (nat, string, string) -> Result<int, string>,
                                grep2: (nat, string, string) -> Result<int, string>)
    ensures var (r1, c1) := ResolveLines(cache, path, lines, grep1);
      var (r2, c2) := ResolveLines(c1, path, lines, grep2);
      && c2 == c1
      && (r1.Ok? ==> r2 == r1)
      && (r1.Err? ==> r2.Err?)
  {
  }

  /** Every entry of before is still in after, with the same value. */
  predicate CacheExtends(before: map<string, int>, after: map<string, int>)
  {
    forall k :: k in before ==> k in after && after[k] == before[k]
  }

  lemma CacheExtendsTrans(a: map<string, int>, b: map<string, int>, c: map<string, int>)
    requires CacheExtends(a, b) && CacheExtends(b, c)
    ensures CacheExtends(a, c)
  {
  }

  /** One resolution only extends the cache. */
  lemma ResolveExtends(cache: map<string, int>, path: string, content: string,
                       grep: (nat, string, string) -> Result<int, string>)
    ensures CacheExtends(cache, ResolveLocation(cache, path, content, grep).1)
  {
    CacheOnlyGrows(cache, path, PatternLines(content), grep);
  }
}
