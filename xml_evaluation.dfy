/**
 * The xml and xmlPublicID capabilities. Both search the candidate XML files
 * and query each with an XPath expression; a file that cannot be read, parsed
 * or queried is skipped. xml reports every node a query returns in an
 * included file and locates it; xmlPublicID reports a node whose first
 * public-id attribute matches a Go regex.
 */
module XmlEvaluation {
  import opened Wrappers
  import opened Seqs
  import opened GoStrings
  import opened BuiltinTypes
  import opened Inclusion
  import opened LocationResolver
  import opened Narrowing
  import opened Documents

  /** findXMLFiles searches files with these name patterns. */
  const XmlPatterns: seq<string> := ["*.xml", "*.xhtml"]

  /** The outcome of the file search. */
  datatype Searched = NothingToSearch | SearchError(reason: string) | Files(files: seq<string>)

  /** The candidate paths narrowed (or not), then findXMLFiles. */
  function FindXmlFiles(config: Config, scoped: Option<seq<string>>, condPaths: seq<string>, byBase: bool, env: Env): Searched
  {
    match CandidatePaths(scoped, condPaths, byBase)
    case NoFiles => NothingToSearch
    case Search(paths) =>
      match env.getFiles(config.location, paths, XmlPatterns)
      case Err(e) => SearchError(e)
      case Ok(files) => Files(files)
  }

  /** The text getLocation looks for: the trimmed inner text, or the node's data when that is blank. */
  function XmlContent(n: XmlNode): string
  {
    if TrimSpace(n.innerText) == "" then n.data else TrimSpace(n.innerText)
  }

  function XmlFound(n: XmlNode): Found
  {
    Found(XmlContent(n), XmlVariables(n.outputXML, n.innerText, n.data))
  }

  function XmlFinds(nodes: seq<XmlNode>): (r: seq<Found>)
    ensures |r| == |nodes|
    ensures forall k :: 0 <= k < |nodes| ==> r[k] == XmlFound(nodes[k])
  {
    seq(|nodes|, k requires 0 <= k < |nodes| => XmlFound(nodes[k]))
  }

  predicate HasNodes(f: string, c: XmlCondition, env: Env)
  {
    env.queryXml(f, c.xpath, c.namespaces).Ok? && |env.queryXml(f, c.xpath, c.namespaces).value| != 0
  }

  /**
   * One file of the xml capability: a file whose query fails or returns
   * nothing changes nothing; one whose query returns nodes sets the match
   * flag, whether or not the file is included.
   */
  function XmlStep(p: Progress, config: Config, f: string, c: XmlCondition, env: Env): Progress
  {
    if HasNodes(f, c, env)
    then LocateAll(p.(matched := true), config, env.abs(f), XmlFinds(env.queryXml(f, c.xpath, c.namespaces).value), env)
    else p
  }

  /** The file loop of the xml capability. */
  function XmlFiles(p: Progress, config: Config, files: seq<string>, c: XmlCondition, env: Env): Progress
    decreases |files|
  {
    if files == [] then p
    else XmlFiles(XmlStep(p, config, files[0], c, env), config, files[1..], c, env)
  }

  /** The xml capability: the evaluation and the location cache after it. */
  function XmlEval(cache: map<string, int>, config: Config, c: XmlCondition, scoped: Option<seq<string>>, env: Env): (Evaluation, map<string, int>)
  {
    if !env.xpathCompiles(c.xpath, c.namespaces) then (Evaluation(EmptyResponse, Some(QueryCompileFailed(c.xpath))), cache)
    else match FindXmlFiles(config, scoped, c.filepaths, true, env)
      case NothingToSearch => (Evaluation(EmptyResponse, None), cache)
      case SearchError(e) => (Evaluation(EmptyResponse, Some(SearchFailed(e))), cache)
      case Files(files) =>
        var p := XmlFiles(Progress(false, [], cache), config, files, c, env);
        (Evaluation(Response(p.matched, p.incidents, None), None), p.cache)
  }

  /** What one file yields, location aside. */
  function XmlFileShapes(config: Config, c: XmlCondition, env: Env): string -> seq<Incident>
  {
    f => match env.queryXml(f, c.xpath, c.namespaces)
         case Err(_) => []
         case Ok(nodes) => Shapes(config, env.abs(f), XmlFinds(nodes), env)
  }

  /** The match flag is set exactly when some file's query returns nodes. */
  lemma {:induction false} XmlFilesMatched(p: Progress, config: Config, files: seq<string>, c: XmlCondition, env: Env)
    ensures XmlFiles(p, config, files, c, env).matched <==>
      p.matched || exists k :: 0 <= k < |files| && HasNodes(files[k], c, env)
    decreases |files|
  {
    if files != [] {
      var q := XmlStep(p, config, files[0], c, env);
      if HasNodes(files[0], c, env) {
        LocateAllKeeps(p.(matched := true), config, env.abs(files[0]), XmlFinds(env.queryXml(files[0], c.xpath, c.namespaces).value), env);
      }
      assert q.matched <==> p.matched || HasNodes(files[0], c, env);
      assert XmlFiles(p, config, files, c, env) == XmlFiles(q, config, files[1..], c, env);
      XmlFilesMatched(q, config, files[1..], c, env);
      if exists k :: 0 <= k < |files| && HasNodes(files[k], c, env) {
        var k :| 0 <= k < |files| && HasNodes(files[k], c, env);
        if k > 0 {
          assert files[1..][k - 1] == files[k];
        }
      }
      if exists k :: 0 <= k < |files[1..]| && HasNodes(files[1..][k], c, env) {
        var k :| 0 <= k < |files[1..]| && HasNodes(files[1..][k], c, env);
        assert files[1..][k] == files[k + 1];
      }
    }
  }

  /**
   * The incidents are, location aside, one per node of each included file, in
   * file and node order, whatever the cache held.
   */
  lemma {:induction false} XmlFilesShapes(p: Progress, config: Config, files: seq<string>, c: XmlCondition, env: Env)
    ensures Bares(XmlFiles(p, config, files, c, env).incidents) == Bares(p.incidents) + FlatMap(files, XmlFileShapes(config, c, env))
    decreases |files|
  {
    if files == [] {
      assert Bares(p.incidents) + [] == Bares(p.incidents);
    } else {
      var piece := XmlFileShapes(config, c, env)(files[0]);
      var q := XmlStep(p, config, files[0], c, env);
      if HasNodes(files[0], c, env) {
        var found := XmlFinds(env.queryXml(files[0], c.xpath, c.namespaces).value);
        LocateAllShapes(p.(matched := true), config, env.abs(files[0]), found, env);
        assert piece == Shapes(config, env.abs(files[0]), found, env);
      } else {
        assert piece == [];
      }
      assert Bares(q.incidents) == Bares(p.incidents) + piece;
      assert XmlFiles(p, config, files, c, env) == XmlFiles(q, config, files[1..], c, env);
      XmlFilesShapes(q, config, files[1..], c, env);
      ConcatAssociates(Bares(p.incidents), piece, FlatMap(files[1..], XmlFileShapes(config, c, env)));
    }
  }

  /** The file loop keeps every incident well located and only extends the cache. */
  lemma {:induction false} XmlFilesKeeps(p: Progress, config: Config, files: seq<string>, c: XmlCondition, env: Env)
    requires AllWellLocated(p.incidents)
    ensures AllWellLocated(XmlFiles(p, config, files, c, env).incidents)
    ensures CacheExtends(p.cache, XmlFiles(p, config, files, c, env).cache)
    decreases |files|
  {
    if files != [] {
      var q := XmlStep(p, config, files[0], c, env);
      if HasNodes(files[0], c, env) {
        var found := XmlFinds(env.queryXml(files[0], c.xpath, c.namespaces).value);
        LocateAllKeeps(p.(matched := true), config, env.abs(files[0]), found, env);
        LocateAllWellLocated(p.(matched := true), config, env.abs(files[0]), found, env);
      }
      assert XmlFiles(p, config, files, c, env) == XmlFiles(q, config, files[1..], c, env);
      XmlFilesKeeps(q, config, files[1..], c, env);
      CacheExtendsTrans(p.cache, q.cache, XmlFiles(p, config, files, c, env).cache);
    }
  }

  /**
   * The query is compiled before anything is searched; no candidate file
   * means an empty response without error; a failed search is the error. Any
   * outcome only extends the cache and reports every line together with a
   * matching location.
   */
  lemma XmlEvalOutcome(cache: map<string, int>, config: Config, c: XmlCondition, scoped: Option<seq<string>>, env: Env)
    ensures !env.xpathCompiles(c.xpath, c.namespaces) ==>
      XmlEval(cache, config, c, scoped, env) == (Evaluation(EmptyResponse, Some(QueryCompileFailed(c.xpath))), cache)
    ensures env.xpathCompiles(c.xpath, c.namespaces) && FindXmlFiles(config, scoped, c.filepaths, true, env).NothingToSearch? ==>
      XmlEval(cache, config, c, scoped, env) == (Evaluation(EmptyResponse, None), cache)
    ensures env.xpathCompiles(c.xpath, c.namespaces) && FindXmlFiles(config, scoped, c.filepaths, true, env).SearchError? ==>
      XmlEval(cache, config, c, scoped, env).0.err == Some(SearchFailed(FindXmlFiles(config, scoped, c.filepaths, true, env).reason))
    ensures XmlEval(cache, config, c, scoped, env).0.err.None? <==>
      env.xpathCompiles(c.xpath, c.namespaces) && !FindXmlFiles(config, scoped, c.filepaths, true, env).SearchError?
    ensures AllWellLocated(XmlEval(cache, config, c, scoped, env).0.response.incidents)
    ensures CacheExtends(cache, XmlEval(cache, config, c, scoped, env).1)
  {
    if env.xpathCompiles(c.xpath, c.namespaces) && FindXmlFiles(config, scoped, c.filepaths, true, env).Files? {
      XmlFilesKeeps(Progress(false, [], cache), config, FindXmlFiles(config, scoped, c.filepaths, true, env).files, c, env);
    }
  }

  /**
   * After a successful search, the response matches exactly when some
   * candidate file's query returns nodes, and its incidents are, location
   * aside, one per node of each included file.
   */
  lemma XmlEvalFound(cache: map<string, int>, config: Config, c: XmlCondition, scoped: Option<seq<string>>, env: Env)
    requires env.xpathCompiles(c.xpath, c.namespaces)
    requires FindXmlFiles(config, scoped, c.filepaths, true, env).Files?
    ensures var files := FindXmlFiles(config, scoped, c.filepaths, true, env).files;
      var r := XmlEval(cache, config, c, scoped, env).0.response;
      && (r.matched <==> exists k :: 0 <= k < |files| && HasNodes(files[k], c, env))
      && Bares(r.incidents) == FlatMap(files, XmlFileShapes(config, c, env))
  {
    var files := FindXmlFiles(config, scoped, c.filepaths, true, env).files;
    var p := XmlFiles(Progress(false, [], cache), config, files, c, env);
    assert XmlEval(cache, config, c, scoped, env).0.response == Response(p.matched, p.incidents, None);
    XmlFilesMatched(Progress(false, [], cache), config, files, c, env);
    XmlFilesShapes(Progress(false, [], cache), config, files, c, env);
    assert Bares([]) == [];
    assert [] + FlatMap(files, XmlFileShapes(config, c, env)) == FlatMap(files, XmlFileShapes(config, c, env));
  }

  /**
   * When none of the files is included, a query that returns nodes still makes
   * the condition match, with no incident at all.
   */
  lemma MatchedWithoutIncidents(cache: map<string, int>, config: Config, c: XmlCondition, scoped: Option<seq<string>>, env: Env, k: nat)
    requires env.xpathCompiles(c.xpath, c.namespaces)
    requires FindXmlFiles(config, scoped, c.filepaths, true, env).Files?
    requires k < |FindXmlFiles(config, scoped, c.filepaths, true, env).files|
    requires HasNodes(FindXmlFiles(config, scoped, c.filepaths, true, env).files[k], c, env)
    requires forall f :: f in FindXmlFiles(config, scoped, c.filepaths, true, env).files ==> !Included(config, env, env.abs(f))
    ensures XmlEval(cache, config, c, scoped, env).0.response.matched
    ensures XmlEval(cache, config, c, scoped, env).0.response.incidents == []
  {
    var files := FindXmlFiles(config, scoped, c.filepaths, true, env).files;
    XmlEvalFound(cache, config, c, scoped, env);
    forall f | f in files ensures XmlFileShapes(config, c, env)(f) == [] {
    }
    FlatMapNone(files, XmlFileShapes(config, c, env));
  }

  /** The query xmlPublicID runs on every candidate file. */
  const PublicIdQuery: string := "//*[@public-id]"

  const PublicIdAttr: string := "public-id"

  /** The attribute loop of one node: whether it set the match flag and whether it appended an incident. */
  datatype AttrOutcome = AttrOutcome(matched: bool, report: bool)

  /**
   * The attribute loop: at a public-id attribute that does not match, the
   * loop breaks; at one that matches, the flag is set and, for an included
   * file, an incident appended before the break; for a file that is not
   * included the loop continues with the next attribute.
   */
  function PublicIdScan(attrs: seq<XmlAttr>, regex: string, included: bool, env: Env): AttrOutcome
  {
    if attrs == [] then AttrOutcome(false, false)
    else if attrs[0].local != PublicIdAttr then PublicIdScan(attrs[1..], regex, included, env)
    else if !env.goMatch(regex, attrs[0].value) then AttrOutcome(false, false)
    else if !included then AttrOutcome(true, PublicIdScan(attrs[1..], regex, included, env).report)
    else AttrOutcome(true, true)
  }

  /** The value of the first public-id attribute. */
  function FirstPublicId(attrs: seq<XmlAttr>): Option<string>
  {
    if attrs == [] then None
    else if attrs[0].local == PublicIdAttr then Some(attrs[0].value)
    else FirstPublicId(attrs[1..])
  }

  predicate PublicIdMatches(attrs: seq<XmlAttr>, regex: string, env: Env)
  {
    FirstPublicId(attrs).Some? && env.goMatch(regex, FirstPublicId(attrs).value)
  }

  /**
   * Only the first public-id attribute decides: the node matches when its
   * value matches the regex, and is reported when it matches and the file is
   * included.
   */
  lemma {:induction false} PublicIdScanFirst(attrs: seq<XmlAttr>, regex: string, included: bool, env: Env)
    ensures PublicIdScan(attrs, regex, included, env).matched == PublicIdMatches(attrs, regex, env)
    ensures PublicIdScan(attrs, regex, included, env).report == (PublicIdMatches(attrs, regex, env) && included)
  {
    if attrs != [] {
      if attrs[0].local != PublicIdAttr {
        PublicIdScanFirst(attrs[1..], regex, included, env);
      } else if env.goMatch(regex, attrs[0].value) && !included {
        PublicIdScanFirst(attrs[1..], regex, included, env);
      }
    }
  }

  /** The public-id flag and the incidents built so far. */
  datatype IdProgress = IdProgress(matched: bool, incidents: seq<Incident>)

  function PublicIdIncident(absPath: string, n: XmlNode): Incident
  {
    Incident(absPath, None, None, XmlVariables(n.outputXML, n.innerText, n.data))
  }

  /** The node loop of one file. */
  function PublicIdNodes(p: IdProgress, absPath: string, included: bool, nodes: seq<XmlNode>, regex: string, env: Env): IdProgress
    decreases |nodes|
  {
    if nodes == [] then p
    else
      var o := PublicIdScan(nodes[0].attrs, regex, included, env);
      var q := IdProgress(p.matched || o.matched, p.incidents + (if o.report then [PublicIdIncident(absPath, nodes[0])] else []));
      PublicIdNodes(q, absPath, included, nodes[1..], regex, env)
  }

  /** One file of xmlPublicID: a file whose query fails is skipped. */
  function PublicIdFile(p: IdProgress, config: Config, f: string, regex: string, ns: map<string, string>, env: Env): IdProgress
  {
    match env.queryXml(f, PublicIdQuery, ns)
    case Err(_) => p
    case Ok(nodes) =>
      var absPath := env.abs(f);
      PublicIdNodes(p, absPath, Included(config, env, absPath), nodes, regex, env)
  }

  /** The file loop of xmlPublicID. */
  function PublicIdFiles(p: IdProgress, config: Config, files: seq<string>, regex: string, ns: map<string, string>, env: Env): IdProgress
    decreases |files|
  {
    if files == [] then p
    else PublicIdFiles(PublicIdFile(p, config, files[0], regex, ns, env), config, files[1..], regex, ns, env)
  }

  /** The xmlPublicID capability. */
  function PublicIdEval(config: Config, cond: Condition, env: Env): Evaluation
  {
    var c := cond.xmlPublicID;
    if !env.goCompiles(c.regex) then Evaluation(EmptyResponse, Some(PatternCompileFailed(c.regex)))
    else if !env.xpathCompiles(PublicIdQuery, c.namespaces) then Evaluation(EmptyResponse, Some(QueryCompileFailed(cond.xml.xpath)))
    else match FindXmlFiles(config, cond.providerContext.scopedFilepaths, cond.xml.filepaths, false, env)
      case NothingToSearch => Evaluation(EmptyResponse, None)
      case SearchError(e) => Evaluation(EmptyResponse, Some(SearchFailed(e)))
      case Files(files) =>
        var p := PublicIdFiles(IdProgress(false, []), config, files, c.regex, c.namespaces, env);
        Evaluation(Response(p.matched, p.incidents, None), None)
  }

  /** What one node contributes: an incident when its public id matches in an included file. */
  function IdHit(absPath: string, included: bool, regex: string, env: Env): XmlNode -> seq<Incident>
  {
    (n: XmlNode) => if included && PublicIdMatches(n.attrs, regex, env) then [PublicIdIncident(absPath, n)] else []
  }

  predicate SomePublicIdMatches(nodes: seq<XmlNode>, regex: string, env: Env)
  {
    exists k :: 0 <= k < |nodes| && PublicIdMatches(nodes[k].attrs, regex, env)
  }

  /** The node loop reports the matching nodes of an included file and flags any matching node. */
  lemma {:induction false} PublicIdNodesSpec(p: IdProgress, absPath: string, included: bool, nodes: seq<XmlNode>, regex: string, env: Env)
    ensures PublicIdNodes(p, absPath, included, nodes, regex, env).incidents ==
      p.incidents + FlatMap(nodes, IdHit(absPath, included, regex, env))
    ensures PublicIdNodes(p, absPath, included, nodes, regex, env).matched <==>
      p.matched || SomePublicIdMatches(nodes, regex, env)
    decreases |nodes|
  {
    if nodes == [] {
      assert p.incidents + [] == p.incidents;
    } else {
      PublicIdScanFirst(nodes[0].attrs, regex, included, env);
      var piece := IdHit(absPath, included, regex, env)(nodes[0]);
      var q := IdProgress(p.matched || PublicIdMatches(nodes[0].attrs, regex, env), p.incidents + piece);
      assert PublicIdNodes(p, absPath, included, nodes, regex, env) == PublicIdNodes(q, absPath, included, nodes[1..], regex, env);
      PublicIdNodesSpec(q, absPath, included, nodes[1..], regex, env);
      ConcatAssociates(p.incidents, piece, FlatMap(nodes[1..], IdHit(absPath, included, regex, env)));
      if SomePublicIdMatches(nodes, regex, env) {
        var k :| 0 <= k < |nodes| && PublicIdMatches(nodes[k].attrs, regex, env);
        if k > 0 {
          assert nodes[1..][k - 1] == nodes[k];
        }
      }
      if SomePublicIdMatches(nodes[1..], regex, env) {
        var k :| 0 <= k < |nodes[1..]| && PublicIdMatches(nodes[1..][k].attrs, regex, env);
        assert nodes[1..][k] == nodes[k + 1];
      }
    }
  }

  /** What one file contributes. */
  function IdFileHits(config: Config, regex: string, ns: map<string, string>, env: Env): string -> seq<Incident>
  {
    f => match env.queryXml(f, PublicIdQuery, ns)
         case Err(_) => []
         case Ok(nodes) => FlatMap(nodes, IdHit(env.abs(f), Included(config, env, env.abs(f)), regex, env))
  }

  predicate FileHasPublicId(f: string, regex: string, ns: map<string, string>, env: Env)
  {
    env.queryXml(f, PublicIdQuery, ns).Ok? && SomePublicIdMatches(env.queryXml(f, PublicIdQuery, ns).value, regex, env)
  }

  /** One file appends its hits and flags a node whose public id matches. */
  lemma PublicIdFileSpec(p: IdProgress, config: Config, f: string, regex: string, ns: map<string, string>, env: Env)
    ensures PublicIdFile(p, config, f, regex, ns, env).incidents == p.incidents + IdFileHits(config, regex, ns, env)(f)
    ensures PublicIdFile(p, config, f, regex, ns, env).matched <==> p.matched || FileHasPublicId(f, regex, ns, env)
  {
    if env.queryXml(f, PublicIdQuery, ns).Ok? {
      var absPath := env.abs(f);
      PublicIdNodesSpec(p, absPath, Included(config, env, absPath), env.queryXml(f, PublicIdQuery, ns).value, regex, env);
    } else {
      assert p.incidents + [] == p.incidents;
    }
  }

  /** The file loop: the incidents of every file, in order. */
  lemma {:induction false} PublicIdFilesIncidents(p: IdProgress, config: Config, files: seq<string>, regex: string, ns: map<string, string>, env: Env)
    ensures PublicIdFiles(p, config, files, regex, ns, env).incidents ==
      p.incidents + FlatMap(files, IdFileHits(config, regex, ns, env))
    decreases |files|
  {
    if files == [] {
      assert p.incidents + [] == p.incidents;
    } else {
      var q := PublicIdFile(p, config, files[0], regex, ns, env);
      PublicIdFileSpec(p, config, files[0], regex, ns, env);
      PublicIdFilesIncidents(q, config, files[1..], regex, ns, env);
      ConcatAssociates(p.incidents, IdFileHits(config, regex, ns, env)(files[0]), FlatMap(files[1..], IdFileHits(config, regex, ns, env)));
    }
  }

  /** The file loop sets the flag exactly when some file has a node whose public id matches. */
  lemma {:induction false} PublicIdFilesMatched(p: IdProgress, config: Config, files: seq<string>, regex: string, ns: map<string, string>, env: Env)
    ensures PublicIdFiles(p, config, files, regex, ns, env).matched <==>
      p.matched || exists f :: f in files && FileHasPublicId(f, regex, ns, env)
    decreases |files|
  {
    if files != [] {
      var q := PublicIdFile(p, config, files[0], regex, ns, env);
      PublicIdFileSpec(p, config, files[0], regex, ns, env);
      PublicIdFilesMatched(q, config, files[1..], regex, ns, env);
      assert forall f :: f in files <==> f == files[0] || f in files[1..];
    }
  }

  /** Both compiled and the search found files. */
  predicate PublicIdSearched(config: Config, cond: Condition, env: Env)
  {
    && env.goCompiles(cond.xmlPublicID.regex)
    && env.xpathCompiles(PublicIdQuery, cond.xmlPublicID.namespaces)
    && FindXmlFiles(config, cond.providerContext.scopedFilepaths, cond.xml.filepaths, false, env).Files?
  }

  /**
   * The regex is compiled first, then the public-id query, whose failure is
   * reported with the xml condition's query; a narrowing that leaves nothing
   * to search gives the empty response, scanning nothing; after a search the
   * response matches exactly when some file has a node whose first public-id
   * matches, and reports those nodes of included files.
   */
  lemma PublicIdEvalSpec(config: Config, cond: Condition, env: Env)
    ensures !env.goCompiles(cond.xmlPublicID.regex) ==>
      PublicIdEval(config, cond, env).err == Some(PatternCompileFailed(cond.xmlPublicID.regex))
    ensures env.goCompiles(cond.xmlPublicID.regex) && !env.xpathCompiles(PublicIdQuery, cond.xmlPublicID.namespaces) ==>
      PublicIdEval(config, cond, env).err == Some(QueryCompileFailed(cond.xml.xpath))
    ensures PublicIdEval(config, cond, env).err.None? <==>
      && env.goCompiles(cond.xmlPublicID.regex) && env.xpathCompiles(PublicIdQuery, cond.xmlPublicID.namespaces)
      && !FindXmlFiles(config, cond.providerContext.scopedFilepaths, cond.xml.filepaths, false, env).SearchError?
    ensures env.goCompiles(cond.xmlPublicID.regex) && env.xpathCompiles(PublicIdQuery, cond.xmlPublicID.namespaces) &&
            FindXmlFiles(config, cond.providerContext.scopedFilepaths, cond.xml.filepaths, false, env).NothingToSearch? ==>
      PublicIdEval(config, cond, env) == Evaluation(EmptyResponse, None)
    ensures PublicIdSearched(config, cond, env) ==>
      var files := FindXmlFiles(config, cond.providerContext.scopedFilepaths, cond.xml.filepaths, false, env).files;
      var r := PublicIdEval(config, cond, env).response;
      && (r.matched <==> exists f :: f in files && FileHasPublicId(f, cond.xmlPublicID.regex, cond.xmlPublicID.namespaces, env))
      && r.incidents == FlatMap(files, IdFileHits(config, cond.xmlPublicID.regex, cond.xmlPublicID.namespaces, env))
  {
    var c := cond.xmlPublicID;
    if PublicIdSearched(config, cond, env) {
      var files := FindXmlFiles(config, cond.providerContext.scopedFilepaths, cond.xml.filepaths, false, env).files;
      PublicIdFilesIncidents(IdProgress(false, []), config, files, c.regex, c.namespaces, env);
      PublicIdFilesMatched(IdProgress(false, []), config, files, c.regex, c.namespaces, env);
      assert [] + FlatMap(files, IdFileHits(config, c.regex, c.namespaces, env)) == FlatMap(files, IdFileHits(config, c.regex, c.namespaces, env));
    }
  }
}
