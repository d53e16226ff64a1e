/**
 * The json capability: every candidate JSON file is opened, parsed and
 * queried; a file that cannot be opened or parsed is skipped, while a failing
 * query ends the evaluation with the response built so far. Every node a query
 * returns in an included file becomes an incident, located by its inner text.
 */
module JsonEvaluation {
  import opened Wrappers
  import opened Seqs
  import opened GoStrings
  import opened BuiltinTypes
  import opened Inclusion
  import opened LocationResolver
  import opened Narrowing
  import opened Documents

  /** The name pattern of the files searched. */
  const JsonPatterns: seq<string> := ["*.json"]

  function JsonFound(n: JsonNode): Found
  {
    Found(n.innerText, JsonVariables(n.innerText, n.data))
  }

  function JsonFinds(nodes: seq<JsonNode>): (r: seq<Found>)
    ensures |r| == |nodes|
    ensures forall k :: 0 <= k < |nodes| ==> r[k] == JsonFound(nodes[k])
  {
    seq(|nodes|, k requires 0 <= k < |nodes| => JsonFound(nodes[k]))
  }

  /** The progress of the file loop and the query error that ended it, if any. */
  datatype JsonProgress = JsonProgress(progress: Progress, failure: Option<string>)

  predicate QueryFails(f: string, query: string, env: Env)
  {
    env.queryJson(f, query).JsonQueryFailed?
  }

  predicate JsonHasNodes(f: string, query: string, env: Env)
  {
    env.queryJson(f, query).JsonNodes? && |env.queryJson(f, query).nodes| != 0
  }

  /** One file whose query returns nodes: the flag is set and its nodes become incidents, when included. */
  function JsonStep(p: Progress, config: Config, f: string, query: string, env: Env): Progress
  {
    if JsonHasNodes(f, query, env)
    then LocateAll(p.(matched := true), config, env.abs(f), JsonFinds(env.queryJson(f, query).nodes), env)
    else p
  }

  /** The file loop of json. */
  function JsonFiles(p: Progress, config: Config, files: seq<string>, query: string, env: Env): JsonProgress
    decreases |files|
  {
    if files == [] then JsonProgress(p, None)
    else match env.queryJson(files[0], query)
      case JsonUnreadable(_) => JsonFiles(p, config, files[1..], query, env)
      case JsonQueryFailed(e) => JsonProgress(p, Some(e))
      case JsonNodes(_) => JsonFiles(JsonStep(p, config, files[0], query, env), config, files[1..], query, env)
  }

  /** The files searched: the scoped list, or the json paths when the xml condition names paths, else the tree. */
  function JsonSearchPaths(cond: Condition): seq<string>
  {
    JsonCandidatePaths(cond.providerContext.scopedFilepaths, cond.xml.filepaths, cond.json.filepaths)
  }

  /** The json capability: the evaluation and the location cache after it. */
  function JsonEval(cache: map<string, int>, config: Config, cond: Condition, env: Env): (Evaluation, map<string, int>)
  {
    if cond.json.xpath == "" then (Evaluation(EmptyResponse, Some(MissingPattern("json"))), cache)
    else match env.getFiles(config.location, JsonSearchPaths(cond), JsonPatterns)
      case Err(e) => (Evaluation(EmptyResponse, Some(SearchFailed(e))), cache)
      case Ok(files) =>
        var r := JsonFiles(Progress(false, [], cache), config, files, cond.json.xpath, env);
        (Evaluation(Response(r.progress.matched, r.progress.incidents, None),
                    if r.failure.Some? then Some(Propagated(r.failure.value)) else None),
         r.progress.cache)
  }

  /** What one file yields, location aside. */
  function JsonFileShapes(config: Config, query: string, env: Env): string -> seq<Incident>
  {
    f => match env.queryJson(f, query)
         case JsonNodes(nodes) => Shapes(config, env.abs(f), JsonFinds(nodes), env)
         case _ => []
  }

  /** files[k] is the first file whose query fails. */
  predicate FirstQueryFailure(files: seq<string>, query: string, env: Env, k: int)
  {
    0 <= k < |files| && QueryFails(files[k], query, env) &&
    forall j :: 0 <= j < k ==> !QueryFails(files[j], query, env)
  }

  /** The loop ends with an error exactly when some file's query fails. */
  lemma {:induction false} JsonFilesFailsIff(p: Progress, config: Config, files: seq<string>, query: string, env: Env)
    ensures JsonFiles(p, config, files, query, env).failure.None? <==>
      forall f :: f in files ==> !QueryFails(f, query, env)
    decreases |files|
  {
    if files != [] {
      assert forall f :: f in files <==> f == files[0] || f in files[1..];
      if !QueryFails(files[0], query, env) {
        var q := JsonStep(p, config, files[0], query, env);
        assert JsonFiles(p, config, files, query, env) == JsonFiles(q, config, files[1..], query, env);
        JsonFilesFailsIff(q, config, files[1..], query, env);
      }
    }
  }

  /**
   * An error is the first failing file's, and the response is the one the
   * files before it built.
   */
  lemma {:induction false} JsonFilesFirstFailure(p: Progress, config: Config, files: seq<string>, query: string, env: Env)
    requires JsonFiles(p, config, files, query, env).failure.Some?
    ensures exists k ::
      && FirstQueryFailure(files, query, env, k)
      && env.queryJson(files[k], query).reason == JsonFiles(p, config, files, query, env).failure.value
      && JsonFiles(p, config, files[..k], query, env) == JsonProgress(JsonFiles(p, config, files, query, env).progress, None)
    decreases |files|
  {
    var r := JsonFiles(p, config, files, query, env);
    if QueryFails(files[0], query, env) {
      assert files[..0] == [];
      assert FirstQueryFailure(files, query, env, 0);
    } else {
      var q := JsonStep(p, config, files[0], query, env);
      assert r == JsonFiles(q, config, files[1..], query, env);
      JsonFilesFirstFailure(q, config, files[1..], query, env);
      var k :| FirstQueryFailure(files[1..], query, env, k)
        && env.queryJson(files[1..][k], query).reason == r.failure.value
        && JsonFiles(q, config, files[1..][..k], query, env) == JsonProgress(r.progress, None);
      assert files[1..][k] == files[k + 1];
      forall j | 0 <= j < k + 1 ensures !QueryFails(files[j], query, env) {
        if j > 0 {
          assert files[1..][j - 1] == files[j];
        }
      }
      assert FirstQueryFailure(files, query, env, k + 1);
      assert files[..k + 1][0] == files[0] && files[..k + 1][1..] == files[1..][..k];
      assert JsonFiles(p, config, files[..k + 1], query, env) == JsonFiles(q, config, files[1..][..k], query, env);
    }
  }

  /**
   * Without a failing query, the flag is set exactly when some file's query
   * returns nodes, and the incidents are, location aside, one per node of
   * each included file.
   */
  lemma {:induction false} JsonFilesFound(p: Progress, config: Config, files: seq<string>, query: string, env: Env)
    requires forall f :: f in files ==> !QueryFails(f, query, env)
    ensures JsonFiles(p, config, files, query, env).progress.matched <==>
      p.matched || exists f :: f in files && JsonHasNodes(f, query, env)
    ensures Bares(JsonFiles(p, config, files, query, env).progress.incidents) ==
      Bares(p.incidents) + FlatMap(files, JsonFileShapes(config, query, env))
    decreases |files|
  {
    if files == [] {
      assert Bares(p.incidents) + [] == Bares(p.incidents);
    } else {
      assert forall f :: f in files <==> f == files[0] || f in files[1..];
      assert !QueryFails(files[0], query, env);
      var piece := JsonFileShapes(config, query, env)(files[0]);
      var q := JsonStep(p, config, files[0], query, env);
      if JsonHasNodes(files[0], query, env) {
        var found := JsonFinds(env.queryJson(files[0], query).nodes);
        LocateAllKeeps(p.(matched := true), config, env.abs(files[0]), found, env);
        LocateAllShapes(p.(matched := true), config, env.abs(files[0]), found, env);
        assert piece == Shapes(config, env.abs(files[0]), found, env);
      } else {
        assert piece == [];
      }
      assert Bares(q.incidents) == Bares(p.incidents) + piece;
      assert q.matched <==> p.matched || JsonHasNodes(files[0], query, env);
      assert JsonFiles(p, config, files, query, env) == JsonFiles(q, config, files[1..], query, env);
      JsonFilesFound(q, config, files[1..], query, env);
      ConcatAssociates(Bares(p.incidents), piece, FlatMap(files[1..], JsonFileShapes(config, query, env)));
    }
  }

  /** The file loop keeps every incident well located and only extends the cache. */
  lemma {:induction false} JsonFilesKeeps(p: Progress, config: Config, files: seq<string>, query: string, env: Env)
    requires AllWellLocated(p.incidents)
    ensures AllWellLocated(JsonFiles(p, config, files, query, env).progress.incidents)
    ensures CacheExtends(p.cache, JsonFiles(p, config, files, query, env).progress.cache)
    decreases |files|
  {
    if files != [] && !QueryFails(files[0], query, env) {
      var q := JsonStep(p, config, files[0], query, env);
      if JsonHasNodes(files[0], query, env) {
        var found := JsonFinds(env.queryJson(files[0], query).nodes);
        LocateAllKeeps(p.(matched := true), config, env.abs(files[0]), found, env);
        LocateAllWellLocated(p.(matched := true), config, env.abs(files[0]), found, env);
      }
      assert JsonFiles(p, config, files, query, env) == JsonFiles(q, config, files[1..], query, env);
      JsonFilesKeeps(q, config, files[1..], query, env);
      CacheExtendsTrans(p.cache, q.cache, JsonFiles(p, config, files, query, env).progress.cache);
    }
  }

  /**
   * An empty query is refused before any search; a failed search is the
   * error; a failing query is returned beside the response built so far. Any
   * outcome only extends the cache and reports every line with a matching
   * location.
   */
  lemma JsonEvalOutcome(cache: map<string, int>, config: Config, cond: Condition, env: Env, other: Env)
    ensures cond.json.xpath == "" ==> JsonEval(cache, config, cond, env) == JsonEval(cache, config, cond, other)
    ensures cond.json.xpath == "" ==> JsonEval(cache, config, cond, env).0.err == Some(MissingPattern("json"))
    ensures cond.json.xpath != "" && env.getFiles(config.location, JsonSearchPaths(cond), JsonPatterns).Err? ==>
      JsonEval(cache, config, cond, env) ==
      (Evaluation(EmptyResponse, Some(SearchFailed(env.getFiles(config.location, JsonSearchPaths(cond), JsonPatterns).error))), cache)
    ensures cond.json.xpath != "" && env.getFiles(config.location, JsonSearchPaths(cond), JsonPatterns).Ok? ==>
      (JsonEval(cache, config, cond, env).0.err.None? <==>
       forall f :: f in env.getFiles(config.location, JsonSearchPaths(cond), JsonPatterns).value ==> !QueryFails(f, cond.json.xpath, env))
    ensures AllWellLocated(JsonEval(cache, config, cond, env).0.response.incidents)
    ensures CacheExtends(cache, JsonEval(cache, config, cond, env).1)
  {
    if cond.json.xpath != "" && env.getFiles(config.location, JsonSearchPaths(cond), JsonPatterns).Ok? {
      var files := env.getFiles(config.location, JsonSearchPaths(cond), JsonPatterns).value;
      JsonFilesKeeps(Progress(false, [], cache), config, files, cond.json.xpath, env);
      JsonFilesFailsIff(Progress(false, [], cache), config, files, cond.json.xpath, env);
    }
  }

  /**
   * Without scoping, the json condition's own paths are used only when the
   * xml condition names paths: with no xml paths, any json paths give the
   * same evaluation, a search of the whole tree.
   */
  lemma JsonPathsNeedXmlPaths(cache: map<string, int>, config: Config, cond: Condition, env: Env, paths: seq<string>)
    requires cond.providerContext.scopedFilepaths.None? && |cond.xml.filepaths| == 0
    ensures JsonSearchPaths(cond) == []
    ensures JsonEval(cache, config, cond, env) == JsonEval(cache, config, cond.(json := cond.json.(filepaths := paths)), env)
  {
  }
}
