/**
 * The values the builtin condition evaluator consumes and produces, and the
 * record of foreign services (regex engines, document engines, filesystem) it
 * calls. Paths are clean and absolute with '/' separators.
 */
module BuiltinTypes {
  import opened Wrappers

  /** A code location; only the line of each end is used. */
  datatype Location = Location(startLine: int, endLine: int)

  /** The capability-specific variables of an incident. */
  datatype Variables =
    | NoVariables
    | MatchingText(matchingText: string)
    | XmlVariables(matchingXML: string, innerText: string, data: string)
    | JsonVariables(matchingJSON: string, data: string)
    | TagVariables(tags: seq<string>)

  /** IncidentContext. The file is "" for the tag incident, as Go's zero value. */
  datatype Incident = Incident(
    fileURI: string,
    lineNumber: Option<int>,
    codeLocation: Option<Location>,
    variables: Variables)

  /** ProviderEvaluateResponse; templateFilepaths is TemplateContext["filepaths"]. */
  datatype Response = Response(matched: bool, incidents: seq<Incident>, templateFilepaths: Option<seq<string>>)

  const EmptyResponse := Response(false, [], None)

  datatype EvalError =
    | UnreadableCondition
    | MissingPattern(capability: string)
    | PatternCompileFailed(pattern: string)
    | QueryCompileFailed(query: string)
    | SearchFailed(reason: string)
    | Propagated(reason: string)
    | UnsupportedCapability(capability: string)

  /** What Evaluate returns: the response and the error beside it. */
  datatype Evaluation = Evaluation(response: Response, err: Option<EvalError>)

  /** The client's configuration: analysis root, own tags and included paths. */
  datatype Config = Config(location: string, tags: set<string>, includedPaths: seq<string>)

  /** ProviderContext: the scoped file list (GetScopedFilepaths) and external tags. */
  datatype ProviderContext = ProviderContext(scopedFilepaths: Option<seq<string>>, tags: set<string>)

  datatype FileCondition = FileCondition(pattern: string)
  datatype FileContentCondition = FileContentCondition(pattern: string, filePattern: string)
  datatype XmlCondition = XmlCondition(xpath: string, namespaces: map<string, string>, filepaths: seq<string>)
  datatype XmlPublicIDCondition = XmlPublicIDCondition(regex: string, namespaces: map<string, string>)
  datatype JsonCondition = JsonCondition(xpath: string, filepaths: seq<string>)

  /** builtinCondition: one sub-payload per capability. */
  datatype Condition = Condition(
    file: FileCondition,
    filecontent: FileContentCondition,
    xml: XmlCondition,
    xmlPublicID: XmlPublicIDCondition,
    json: JsonCondition,
    hasTags: seq<string>,
    providerContext: ProviderContext)

  datatype XmlAttr = XmlAttr(local: string, value: string)

  /** An xmlquery node: its OutputXML, InnerText, Data and attributes. */
  datatype XmlNode = XmlNode(outputXML: string, innerText: string, data: string, attrs: seq<XmlAttr>)

  datatype JsonNode = JsonNode(innerText: string, data: string)

  /** Opening and parsing a JSON file, then running the query on it. */
  datatype JsonOutcome =
    | JsonUnreadable(reason: string)
    | JsonQueryFailed(reason: string)
    | JsonNodes(nodes: seq<JsonNode>)

  /** An entry of filepath.WalkDir: full path and base name. */
  datatype DirEntry = DirEntry(path: string, name: string)

  /** An entry of filepath.Walk: path and whether it is a regular file. */
  datatype FileInfo = FileInfo(path: string, regular: bool)

  /** A regexp2 match within one line: its text and 0-based start. */
  datatype Match = Match(text: string, index: nat)

  /** walkResult: file, 1-based line, 0-based character, matched text. */
  datatype WalkResult = WalkResult(uri: string, line: nat, character: nat, text: string)

  /** The foreign services, each a function of its arguments. */
  datatype Env = Env(
    /** regexp.Compile succeeds on the pattern. */
    goCompiles: string -> bool,
    /** (*regexp.Regexp).MatchString for (pattern, text). */
    goMatch: (string, string) -> bool,
    /** filepath.Match for (pattern, name). */
    globMatch: (string, string) -> Result<bool, string>,
    /** regexp2.Compile succeeds on the pattern. */
    lookCompiles: string -> bool,
    /** Every match regexp2 finds in a line, left to right: FindStringMatch, then FindNextMatch. */
    lineMatches: (string, string) -> Result<seq<Match>, string>,
    /** filepath.WalkDir entries under a root. */
    walkDir: string -> Result<seq<DirEntry>, string>,
    /** filepath.Walk entries under a root. */
    walk: string -> Result<seq<FileInfo>, string>,
    /**
     * os.Open plus the bufio.Scanner loop: Err only when os.Open fails. A
     * read error ends the Scanner silently (scanner.Err() is never consulted),
     * so one is Ok with the lines read before it.
     */
    readLines: string -> Result<seq<string>, string>,
    /** provider.FilterFilePattern for (filePattern, uri). */
    filterFilePattern: (string, string) -> Result<bool, string>,
    /** filepath.Abs, with the path itself when it fails. */
    abs: string -> string,
    /** os.Stat succeeds and reports a directory. */
    isDir: string -> bool,
    /** provider.GetFiles for (root, filepaths, patterns). */
    getFiles: (string, seq<string>, seq<string>) -> Result<seq<string>, string>,
    /** xpath.CompileWithNS succeeds for (query, namespaces). */
    xpathCompiles: (string, map<string, string>) -> bool,
    /** queryXMLFile with the compiled (query, namespaces). */
    queryXml: (string, string, map<string, string>) -> Result<seq<XmlNode>, string>,
    /** Opening, parsing and querying one JSON file. */
    queryJson: (string, string) -> JsonOutcome,
    /** provider.MultilineGrep for (window of lines, path, pattern): a 1-based line or -1. */
    multilineGrep: (nat, string, string) -> Result<int, string>)
}
