/**
 * The two-engine regex selector of the builtin provider. A selector holds
 * exactly one compiled regex: one for Go's RE2 engine, which has no lookaround,
 * or one for the backtracking regexp2 engine. Both engines are foreign; each
 * appears here as a record of functions of (pattern, text).
 */
module PathRegex {
  import opened Wrappers

  /** The four strings LOOK_SYNTAX lists. */
  const LookSyntax: seq<string> := ["(?=", "(?!", "(?<=", "(?<!"]

  /** Go's regexp package applied to the pattern a regex was compiled from. */
  datatype GoEngine = GoEngine(
    compiles: string -> bool,
    matchString: (string, string) -> bool,
    findString: (string, string) -> string,
    /** FindStringIndex: [start, end] of the leftmost match, or nil. */
    findStringIndex: (string, string) -> Option<seq<nat>>,
    findStringSubmatch: (string, string) -> seq<string>)

  /** A match object of regexp2: its text and its start index. */
  datatype LookMatch = LookMatch(text: string, index: nat)

  /** The regexp2 package; its matching calls can fail (time-outs). */
  datatype LookEngine = LookEngine(
    compiles: string -> bool,
    matchString: (string, string) -> Result<bool, string>,
    findStringMatch: (string, string) -> Result<Option<LookMatch>, string>)

  /** regexSelector: exactly one of goRegex and lookRegex is set. */
  datatype Selector = GoRegex(goPattern: string) | LookRegex(lookPattern: string)

  /** What FindStringMatch returns besides its error: matched text and start. */
  datatype Found = Found(text: string, index: nat)

  /**
   * compileRegex. The lookaround engine is chosen when the whole pattern
   * equals one of LookSyntax, otherwise RE2; a compile failure is an error.
   */
  function CompileRegex(pattern: string, go: GoEngine, look: LookEngine): (r: Result<Selector, string>)
    ensures r.Ok? ==> (r.value.LookRegex? <==> pattern in LookSyntax)
    ensures r.Ok? && r.value.LookRegex? ==> r.value.lookPattern == pattern
    ensures r.Ok? && r.value.GoRegex? ==> r.value.goPattern == pattern
    ensures r.Ok? <==> if pattern in LookSyntax then look.compiles(pattern) else go.compiles(pattern)
  {
    if pattern in LookSyntax then
      if look.compiles(pattern) then Ok(LookRegex(pattern)) else Err("regexp2: cannot compile " + pattern)
    else
      if go.compiles(pattern) then Ok(GoRegex(pattern)) else Err("regexp: cannot compile " + pattern)
  }

  /** MatchString: never an error from RE2; the regexp2 result otherwise. */
  function MatchString(sel: Selector, s: string, go: GoEngine, look: LookEngine): (r: Result<bool, string>)
    ensures sel.GoRegex? ==> r == Ok(go.matchString(sel.goPattern, s))
    ensures sel.LookRegex? ==> r == look.matchString(sel.lookPattern, s)
  {
    match sel
    case GoRegex(p) => Ok(go.matchString(p, s))
    case LookRegex(p) => look.matchString(p, s)
  }

  /** FindStringSubmatch: the RE2 capture groups; always [] on regexp2. */
  function FindStringSubmatch(sel: Selector, s: string, go: GoEngine): (r: seq<string>)
    ensures sel.LookRegex? ==> r == []
    ensures sel.GoRegex? ==> r == go.findStringSubmatch(sel.goPattern, s)
  {
    match sel
    case GoRegex(p) => go.findStringSubmatch(p, s)
    case LookRegex(_) => []
  }

  /**
   * FindStringMatch: ("", 0) without error when nothing matches, on either
   * engine; otherwise the matched text and its start index.
   */
  function FindStringMatch(sel: Selector, s: string, go: GoEngine, look: LookEngine): (r: Result<Found, string>)
    ensures sel.GoRegex? && go.findStringIndex(sel.goPattern, s).None? ==> r == Ok(Found("", 0))
    ensures sel.GoRegex? && go.findStringIndex(sel.goPattern, s).Some? && |go.findStringIndex(sel.goPattern, s).value| >= 1 ==>
              r == Ok(Found(go.findString(sel.goPattern, s), go.findStringIndex(sel.goPattern, s).value[0]))
    ensures sel.LookRegex? && look.findStringMatch(sel.lookPattern, s) == Ok(None) ==> r == Ok(Found("", 0))
    ensures sel.LookRegex? && look.findStringMatch(sel.lookPattern, s).Ok? && look.findStringMatch(sel.lookPattern, s).value.Some? ==>
              var m := look.findStringMatch(sel.lookPattern, s).value.value; r == Ok(Found(m.text, m.index))
    ensures sel.LookRegex? && look.findStringMatch(sel.lookPattern, s).Err? ==> r == Err(look.findStringMatch(sel.lookPattern, s).error)
    ensures sel.GoRegex? ==> r.Ok?
  {
    match sel
    case GoRegex(p) =>
      var index := go.findStringIndex(p, s);
      if index.None? || |index.value| < 1 then Ok(Found("", 0))
      else Ok(Found(go.findString(p, s), index.value[0]))
    case LookRegex(p) =>
      match look.findStringMatch(p, s)
      case Err(e) => Err(e)
      case Ok(None) => Ok(Found("", 0))
      case Ok(Some(m)) => Ok(Found(m.text, m.index))
  }

  /**
   * A pattern that merely begins with a lookaround operator, such as
   * "(?=foo)", is longer than every LookSyntax entry and so goes to RE2.
   */
  lemma LookaroundPrefixGoesToGo(prefix: string, rest: string, go: GoEngine, look: LookEngine)
    requires prefix in LookSyntax && rest != ""
    requires go.compiles(prefix + rest)
    ensures CompileRegex(prefix + rest, go, look) == Ok(GoRegex(prefix + rest))
  {
    var p := prefix + rest;
    assert |p| > |prefix|;
    if |prefix| == 3 && |p| == 4 {
      assert p[2] == prefix[2];
      assert p[2] != '<';
    }
    assert forall i :: 0 <= i < |LookSyntax| ==> LookSyntax[i] != p;
  }

  /** "(?=foo)" is compiled by RE2, the engine without lookaround. */
  lemma LookaheadPatternSelectsGo(go: GoEngine, look: LookEngine)
    requires go.compiles("(?=foo)")
    ensures CompileRegex("(?=foo)", go, look) == Ok(GoRegex("(?=foo)"))
  {
    assert "(?=" + "foo)" == "(?=foo)";
    LookaroundPrefixGoesToGo("(?=", "foo)", go, look);
  }

  /** A compiled pattern that is not a LookSyntax entry never reports a match error. */
  lemma PlainPatternMatchesWithoutError(pattern: string, s: string, go: GoEngine, look: LookEngine)
    requires pattern !in LookSyntax && go.compiles(pattern)
    ensures CompileRegex(pattern, go, look).Ok?
    ensures MatchString(CompileRegex(pattern, go, look).value, s, go, look).Ok?
    ensures FindStringMatch(CompileRegex(pattern, go, look).value, s, go, look).Ok?
  {
  }
}
