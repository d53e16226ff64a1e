/**
 * builtinServiceClient: the analysis configuration, which never changes, and
 * the location cache, which getLocation fills. Each capability branch of
 * Evaluate is a method whose loops follow the Go code; each is proved equal to
 * the function that specifies it, so the lemmas about those functions are
 * facts about the client.
 */
module Client {
  import opened Wrappers
  import opened Seqs
  import opened GoStrings
  import opened BuiltinTypes
  import opened LocationResolver
  import opened Inclusion
  import opened Narrowing
  import opened Scan
  import opened FileEvaluation
  import opened Documents
  import opened XmlEvaluation
  import opened JsonEvaluation
  import opened Dispatch

  class BuiltinServiceClient {
    /** Analysis root, the client's tags and its included paths. */
    const config: Config
    /** path + "-" + pattern to the line found, or FailedLine. */
    var locationCache: map<string, int>

    constructor(config: Config)
      ensures this.config == config && locationCache == map[]
    {
      this.config := config;
      locationCache := map[];
    }

    /** getLocation drops one empty line at each end of the normalised lines. */
    static method TrimEmptyEnds(normalized: seq<string>) returns (lines: seq<string>)
      ensures lines == DropEmptyEnds(normalized)
    {
      lines := normalized;
      if |lines| > 0 && lines[0] == "" {
        lines := lines[1..];
      }
      if |lines| > 0 && lines[|lines| - 1] == "" {
        lines := lines[..|lines| - 1];
      }
    }

    /** getLocation: the snippet becomes a fuzzy pattern, answered from the cache or by the grep. */
    method GetLocation(path: string, content: string, env: Env) returns (r: Result<Location, LocationError>)
      modifies this
      ensures (r, locationCache) == ResolveLocation(old(locationCache), path, content, env.multilineGrep)
    {
      var parts := Split(content, '\n');
      if |parts| < 1 {
        return Err(EmptyContent);
      } else if |parts| > MaxSnippetLines {
        parts := parts[..MaxSnippetLines];
      }
      assert parts == UsedParts(content);
      var lines := NormalizeParts(parts);
      lines := TrimEmptyEnds(lines);
      if |lines| < 1 || Join(lines, "") == "" {
        return Err(EmptyContent);
      }
      var pattern := Wildcard + Join(lines, Wildcard);
      var cacheKey := path + "-" + pattern;
      if cacheKey in locationCache {
        var val := locationCache[cacheKey];
        if val == FailedLine {
          return Err(PreviouslyFailed);
        }
        return Ok(Location(val, val));
      }
      var lineNumber := env.multilineGrep(|lines|, path, pattern);
      if lineNumber.Err? || lineNumber.value == FailedLine {
        locationCache := locationCache[cacheKey := FailedLine];
        return Err(NotFound(path));
      }
      locationCache := locationCache[cacheKey := lineNumber.value];
      r := Ok(Location(lineNumber.value, lineNumber.value));
    }

    /** isFileIncluded: the loop returns at the first included path that admits the file. */
    method IsFileIncluded(absolutePath: string, env: Env) returns (b: bool)
      ensures b == Included(config, env, absolutePath)
    {
      var scopes := config.includedPaths;
      if |scopes| == 0 {
        return true;
      }
      assert scopes[0..] == scopes;
      for i := 0 to |scopes|
        invariant AnyScopeAdmits(config.location, scopes, env, absolutePath) ==
          AnyScopeAdmits(config.location, scopes[i..], env, absolutePath)
      {
        assert scopes[i..][0] == scopes[i] && scopes[i..][1..] == scopes[i + 1..];
        var includedPath := env.abs(JoinPath(config.location, scopes[i]));
        var pathSegments := GetSegments(absolutePath);
        if env.isDir(includedPath) {
          pathSegments := GetSegments(Dir(absolutePath));
        }
        var includedPathSegments := GetSegments(includedPath);
        if |pathSegments| >= |includedPathSegments| &&
           HasPrefix(Join(pathSegments, ""), Join(includedPathSegments, "")) {
          return true;
        }
      }
      return false;
    }

    /** The scoped loop of the file capability: a glob error skips the path. */
    method MatchScoped(pattern: string, paths: seq<string>, env: Env) returns (matchingFiles: seq<string>)
      ensures matchingFiles == ScopedMatches(pattern, paths, env)
    {
      matchingFiles := [];
      for i := 0 to |paths|
        invariant matchingFiles == FlatMap(paths[..i], ScopedHit(pattern, env))
      {
        var path := paths[i];
        var matched := false;
        if env.goCompiles(pattern) {
          matched := env.goMatch(pattern, path);
        } else {
          var globbed := env.globMatch(pattern, path);
          if globbed.Ok? {
            matched := globbed.value;
          }
        }
        FlatMapStep(paths, i, ScopedHit(pattern, env));
        if matched {
          matchingFiles := matchingFiles + [path];
        }
      }
      assert paths[..|paths|] == paths;
    }

    /** The incident loop of the file capability: one incident per included match. */
    method FileMatchIncidents(matchingFiles: seq<string>, env: Env) returns (incidents: seq<Incident>)
      ensures incidents == FileIncidents(config, env, matchingFiles)
    {
      incidents := [];
      for i := 0 to |matchingFiles|
        invariant incidents == FlatMap(matchingFiles[..i], FileHit(config, env))
      {
        var absPath := matchingFiles[i];
        if !IsAbs(absPath) {
          absPath := env.abs(absPath);
        }
        var included := IsFileIncluded(absPath, env);
        FlatMapStep(matchingFiles, i, FileHit(config, env));
        if included {
          incidents := incidents + [FileIncident(absPath)];
        }
      }
      assert matchingFiles[..|matchingFiles|] == matchingFiles;
    }

    /** The file capability. */
    method EvaluateFile(c: FileCondition, scoped: Option<seq<string>>, env: Env) returns (e: Evaluation)
      ensures e == FileEval(config, c, scoped, env)
    {
      if c.pattern == "" {
        return Evaluation(EmptyResponse, Some(MissingPattern("file")));
      }
      var matchingFiles: seq<string>;
      if scoped.Some? {
        matchingFiles := MatchScoped(c.pattern, scoped.value, env);
      } else {
        var found := FindFilesMatchingPattern(config.location, c.pattern, env);
        if found.Err? {
          return Evaluation(EmptyResponse, Some(SearchFailed(found.error)));
        }
        matchingFiles := found.value;
      }
      var incidents := FileMatchIncidents(matchingFiles, env);
      e := Evaluation(Response(|incidents| > 0, incidents, Some(matchingFiles)), None);
    }

    /** The filecontent capability. */
    method EvaluateFileContent(c: FileContentCondition, env: Env) returns (e: Evaluation)
      ensures e == FileContentEval(config, c, env)
    {
      if c.pattern == "" {
        return Evaluation(EmptyResponse, Some(MissingPattern("filecontent")));
      }
      if !env.lookCompiles(c.pattern) {
        return Evaluation(EmptyResponse, Some(PatternCompileFailed(c.pattern)));
      }
      var matches := ParallelWalk(config.location, c.pattern, env);
      if matches.Err? {
        return Evaluation(EmptyResponse, Some(Propagated(matches.error)));
      }
      var filtered := FilterMatches(c.filePattern, matches.value, env);
      if filtered.failure.Some? {
        return Evaluation(Response(false, filtered.incidents, None), Some(Propagated(filtered.failure.value)));
      }
      e := Evaluation(Response(|filtered.incidents| != 0, filtered.incidents, None), None);
    }

    /**
     * The node loop shared by xml and json: for an included file, each node
     * becomes an incident, located through getLocation.
     */
    method LocateNodes(ghost matched: bool, incidents: seq<Incident>, absPath: string, found: seq<Found>, env: Env)
      returns (out: seq<Incident>)
      modifies this
      ensures Progress(matched, out, locationCache) ==
        LocateAll(Progress(matched, incidents, old(locationCache)), config, absPath, found, env)
    {
      out := incidents;
      assert found[0..] == found;
      for j := 0 to |found|
        invariant LocateAll(Progress(matched, incidents, old(locationCache)), config, absPath, found, env) ==
          LocateAll(Progress(matched, out, locationCache), config, absPath, found[j..], env)
      {
        assert found[j..][0] == found[j] && found[j..][1..] == found[j + 1..];
        var included := IsFileIncluded(absPath, env);
        if included {
          var location := GetLocation(absPath, found[j].content, env);
          var incident := Incident(absPath,
                                   if location.Ok? then Some(location.value.startLine) else None,
                                   if location.Ok? then Some(location.value) else None,
                                   found[j].vars);
          out := out + [incident];
        }
      }
    }

    /**
     * The file search of xml (byBase) and xmlPublicID: the scoped paths,
     * narrowed by the condition's paths when it names some, or the condition's
     * paths, then findXMLFiles.
     */
    method SearchXmlFiles(scoped: Option<seq<string>>, condPaths: seq<string>, byBase: bool, env: Env) returns (s: Searched)
      ensures s == FindXmlFiles(config, scoped, condPaths, byBase, env)
    {
      var filePaths: seq<string> := [];
      if scoped.Some? {
        if |condPaths| > 0 {
          var newPaths := NarrowPaths(condPaths, scoped.value, byBase);
          if |newPaths| == 0 {
            return NothingToSearch;
          }
          filePaths := newPaths;
        } else {
          filePaths := scoped.value;
        }
      } else if |condPaths| > 0 {
        filePaths := condPaths;
      }
      var xmlFiles := env.getFiles(config.location, filePaths, XmlPatterns);
      if xmlFiles.Err? {
        return SearchError(xmlFiles.error);
      }
      s := Files(xmlFiles.value);
    }

    /** The xml capability. */
    method EvaluateXml(c: XmlCondition, scoped: Option<seq<string>>, env: Env) returns (e: Evaluation)
      modifies this
      ensures (e, locationCache) == XmlEval(old(locationCache), config, c, scoped, env)
    {
      if !env.xpathCompiles(c.xpath, c.namespaces) {
        return Evaluation(EmptyResponse, Some(QueryCompileFailed(c.xpath)));
      }
      var searched := SearchXmlFiles(scoped, c.filepaths, true, env);
      if searched.NothingToSearch? {
        return Evaluation(EmptyResponse, None);
      } else if searched.SearchError? {
        return Evaluation(EmptyResponse, Some(SearchFailed(searched.reason)));
      }
      var files := searched.files;
      var matched := false;
      var incidents: seq<Incident> := [];
      ghost var start := Progress(false, [], locationCache);
      assert files[0..] == files;
      for i := 0 to |files|
        invariant XmlFiles(start, config, files, c, env) ==
          XmlFiles(Progress(matched, incidents, locationCache), config, files[i..], c, env)
      {
        assert files[i..][0] == files[i] && files[i..][1..] == files[i + 1..];
        var nodes := env.queryXml(files[i], c.xpath, c.namespaces);
        if nodes.Ok? && |nodes.value| != 0 {
          matched := true;
          incidents := LocateNodes(matched, incidents, env.abs(files[i]), XmlFinds(nodes.value), env);
        }
      }
      e := Evaluation(Response(matched, incidents, None), None);
    }

    /**
     * The attribute loop of one xmlPublicID node: whether it set the match
     * flag and whether it reports the node.
     */
    method PublicIdAttrs(attrs: seq<XmlAttr>, regex: string, file: string, env: Env) returns (o: AttrOutcome)
      ensures o == PublicIdScan(attrs, regex, Included(config, env, env.abs(file)), env)
    {
      ghost var included := Included(config, env, env.abs(file));
      ghost var total := PublicIdScan(attrs, regex, included, env);
      ghost var rest := attrs;
      var matched := false;
      var k := 0;
      while k < |attrs|
        invariant 0 <= k <= |attrs| && rest == attrs[k..]
        invariant total.matched == (matched || PublicIdScan(rest, regex, included, env).matched)
        invariant total.report == PublicIdScan(rest, regex, included, env).report
      {
        assert rest[0] == attrs[k] && rest[1..] == attrs[k + 1..];
        if attrs[k].local == PublicIdAttr {
          if env.goMatch(regex, attrs[k].value) {
            matched := true;
            var absPath := env.abs(file);
            var isIncluded := IsFileIncluded(absPath, env);
            if !isIncluded {
              k, rest := k + 1, rest[1..];
              continue;
            }
            return AttrOutcome(true, true);
          }
          return AttrOutcome(matched, false);
        }
        k, rest := k + 1, rest[1..];
      }
      o := AttrOutcome(matched, false);
    }

    /** The node loop of one xmlPublicID file. */
    method PublicIdNodeLoop(p: IdProgress, file: string, nodes: seq<XmlNode>, regex: string, env: Env) returns (q: IdProgress)
      ensures q == PublicIdNodes(p, env.abs(file), Included(config, env, env.abs(file)), nodes, regex, env)
    {
      ghost var included := Included(config, env, env.abs(file));
      var matched, incidents := p.matched, p.incidents;
      assert nodes[0..] == nodes;
      for j := 0 to |nodes|
        invariant PublicIdNodes(p, env.abs(file), included, nodes, regex, env) ==
          PublicIdNodes(IdProgress(matched, incidents), env.abs(file), included, nodes[j..], regex, env)
      {
        assert nodes[j..][0] == nodes[j] && nodes[j..][1..] == nodes[j + 1..];
        var o := PublicIdAttrs(nodes[j].attrs, regex, file, env);
        ghost var next := IdProgress(matched || o.matched,
          incidents + (if o.report then [PublicIdIncident(env.abs(file), nodes[j])] else []));
        assert PublicIdNodes(IdProgress(matched, incidents), env.abs(file), included, nodes[j..], regex, env) ==
          PublicIdNodes(next, env.abs(file), included, nodes[j + 1..], regex, env);
        if o.matched {
          matched := true;
        }
        if o.report {
          incidents := incidents + [PublicIdIncident(env.abs(file), nodes[j])];
        } else {
          assert incidents + [] == incidents;
        }
        assert next == IdProgress(matched, incidents);
      }
      q := IdProgress(matched, incidents);
    }

    /** The xmlPublicID capability. */
    method EvaluateXmlPublicID(cond: Condition, env: Env) returns (e: Evaluation)
      ensures e == PublicIdEval(config, cond, env)
    {
      var c := cond.xmlPublicID;
      if !env.goCompiles(c.regex) {
        return Evaluation(EmptyResponse, Some(PatternCompileFailed(c.regex)));
      }
      if !env.xpathCompiles(PublicIdQuery, c.namespaces) {
        return Evaluation(EmptyResponse, Some(QueryCompileFailed(cond.xml.xpath)));
      }
      var searched := SearchXmlFiles(cond.providerContext.scopedFilepaths, cond.xml.filepaths, false, env);
      if searched.NothingToSearch? {
        return Evaluation(EmptyResponse, None);
      } else if searched.SearchError? {
        return Evaluation(EmptyResponse, Some(SearchFailed(searched.reason)));
      }
      var files := searched.files;
      var matched := false;
      var incidents: seq<Incident> := [];
      assert files[0..] == files;
      for i := 0 to |files|
        invariant PublicIdFiles(IdProgress(false, []), config, files, c.regex, c.namespaces, env) ==
          PublicIdFiles(IdProgress(matched, incidents), config, files[i..], c.regex, c.namespaces, env)
      {
        assert files[i..][0] == files[i] && files[i..][1..] == files[i + 1..];
        var file := files[i];
        var nodes := env.queryXml(file, PublicIdQuery, c.namespaces);
        if nodes.Ok? {
          var p := PublicIdNodeLoop(IdProgress(matched, incidents), file, nodes.value, c.regex, env);
          matched, incidents := p.matched, p.incidents;
        }
      }
      e := Evaluation(Response(matched, incidents, None), None);
    }

    /** The json capability: a failing query returns the response built so far with the error. */
    method EvaluateJson(cond: Condition, env: Env) returns (e: Evaluation)
      modifies this
      ensures (e, locationCache) == JsonEval(old(locationCache), config, cond, env)
    {
      var query := cond.json.xpath;
      if query == "" {
        return Evaluation(EmptyResponse, Some(MissingPattern("json")));
      }
      var filePaths: seq<string> := [];
      if cond.providerContext.scopedFilepaths.Some? {
        filePaths := cond.providerContext.scopedFilepaths.value;
      } else if |cond.xml.filepaths| > 0 {
        filePaths := cond.json.filepaths;
      }
      var jsonFiles := env.getFiles(config.location, filePaths, JsonPatterns);
      if jsonFiles.Err? {
        return Evaluation(EmptyResponse, Some(SearchFailed(jsonFiles.error)));
      }
      var files := jsonFiles.value;
      var matched := false;
      var incidents: seq<Incident> := [];
      ghost var start := Progress(false, [], locationCache);
      assert files[0..] == files;
      for i := 0 to |files|
        invariant JsonFiles(start, config, files, query, env) ==
          JsonFiles(Progress(matched, incidents, locationCache), config, files[i..], query, env)
      {
        assert files[i..][0] == files[i] && files[i..][1..] == files[i + 1..];
        var outcome := env.queryJson(files[i], query);
        if outcome.JsonQueryFailed? {
          return Evaluation(Response(matched, incidents, None), Some(Propagated(outcome.reason)));
        }
        if outcome.JsonNodes? && |outcome.nodes| != 0 {
          matched := true;
          incidents := LocateNodes(matched, incidents, env.abs(files[i]), JsonFinds(outcome.nodes), env);
        }
      }
      e := Evaluation(Response(matched, incidents, None), None);
    }

    /** The hasTags capability: the loop breaks at the first tag known to neither tag set. */
    method EvaluateHasTags(cond: Condition) returns (e: Evaluation)
      ensures e == HasTagsEval(config, cond)
    {
      var tags := cond.hasTags;
      var found := true;
      var i := 0;
      assert tags[0..] == tags;
      while i < |tags|
        invariant 0 <= i <= |tags|
        invariant TagsFound(config, cond.providerContext, tags) == TagsFound(config, cond.providerContext, tags[i..])
      {
        assert tags[i..][0] == tags[i] && tags[i..][1..] == tags[i + 1..];
        if tags[i] !in cond.providerContext.tags && tags[i] !in config.tags {
          found := false;
          break;
        }
        i := i + 1;
      }
      if found {
        return Evaluation(Response(true, [TagIncident(tags)], None), None);
      }
      e := Evaluation(EmptyResponse, None);
    }

    /** Evaluate: the condition, once decoded, is answered by the capability's branch. */
    method Evaluate(cap: string, cond: Option<Condition>, env: Env) returns (e: Evaluation)
      modifies this
      ensures (e, locationCache) == EvaluateSpec(old(locationCache), config, cap, cond, env)
    {
      if cond.None? {
        return Evaluation(EmptyResponse, Some(UnreadableCondition));
      }
      var c := cond.value;
      if cap == "file" {
        e := EvaluateFile(c.file, c.providerContext.scopedFilepaths, env);
      } else if cap == "filecontent" {
        e := EvaluateFileContent(c.filecontent, env);
      } else if cap == "xml" {
        e := EvaluateXml(c.xml, c.providerContext.scopedFilepaths, env);
      } else if cap == "xmlPublicID" {
        e := EvaluateXmlPublicID(c, env);
      } else if cap == "json" {
        e := EvaluateJson(c, env);
      } else if cap == "hasTags" {
        e := EvaluateHasTags(c);
      } else {
        e := Evaluation(EmptyResponse, Some(UnsupportedCapability(cap)));
      }
    }
  }
}
