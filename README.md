# analyzer-lsp builtin provider: a verified model of the condition evaluator

This project models the decision layer of the builtin provider of
analyzer-lsp. The provider answers rule conditions over a source tree through
six capabilities:

- `file`: files whose path or name matches a pattern;
- `filecontent`: lines matching a regexp2 pattern;
- `xml`: nodes an XPath query returns;
- `xmlPublicID`: XML nodes whose `public-id` attribute matches a regex;
- `json`: nodes a JSON query returns;
- `hasTags`: tags known to the provider.

The model covers `Evaluate` and its branches, **getLocation** with its location
cache, `isFileIncluded`, `findFilesMatchingPattern`, `findXMLFiles`,
`parallelWalk`, `processFile`, and the two-engine regex selector of
`path_regex.go`.

## How it is modelled

Code outside the core is an oracle: the regex engines, XPath and JSON
querying, the filesystem walks, `filepath.Abs`, `os.Stat`, `provider.GetFiles`,
`provider.FilterFilePattern` and `provider.MultilineGrep`. Each one is a
function-typed field of the record `BuiltinTypes.Env`, which every operation
receives.

Each capability has a pure specification function:
- `FileEvaluation.FileEval` and `FileEvaluation.FileContentEval`;
- `XmlEvaluation.XmlEval` and `XmlEvaluation.PublicIdEval`;
- `JsonEvaluation.JsonEval`;
- `Dispatch.HasTagsEval`, with `Dispatch.EvaluateSpec` for `Evaluate` as a whole.

`LocationResolver.ResolveLocation` specifies getLocation. `Inclusion.Included`
specifies `isFileIncluded`. The specifications that touch the location cache
take the cache before the call and return it after the call.

`builtinServiceClient` is the class `Client.BuiltinServiceClient`. It has an
immutable `config` (analysis root, own tags, included paths) and a mutable
`locationCache: map<string, int>`. Its methods follow the Go loops: the
deferred cache write, the nested narrowing loops, the `found` flag with
`break`, and the attribute loop with `continue` and `break`. Each method is
proved equal to its specification function. The lemmas about those functions
are therefore facts about the client.

Modules, in dependency order:
- `Wrappers`, `Seqs` (FlatMap, Prepend) and `GoStrings`, a model of the Go
  `strings`/`filepath` functions the core calls;
- `BuiltinTypes`;
- `PathRegex`;
- `LocationResolver`, `Inclusion`, `Narrowing`, `Scan`;
- `FileEvaluation`, `Documents` (the node loop shared by xml and json),
  `XmlEvaluation`, `JsonEvaluation`;
- `Dispatch`;
- `Client`.

## Model

| member | source | states |
|---|---|---|
| PathRegex.CompileRegex | provider/internal/builtin/path_regex.go:10-28 | the lookaround engine is chosen exactly when the whole pattern equals one of the four LOOK_SYNTAX strings, RE2 otherwise; the selector keeps the pattern; compilation succeeds exactly when the chosen engine compiles it |
| PathRegex.MatchString | provider/internal/builtin/path_regex.go:30-35 | RE2 answers without error; otherwise the regexp2 result, error included |
| PathRegex.FindStringSubmatch | provider/internal/builtin/path_regex.go:37-43 | the RE2 capture groups; always empty on the lookaround engine |
| PathRegex.FindStringMatch | provider/internal/builtin/path_regex.go:45-59 | ("", 0) without error when nothing matches, on either engine; otherwise the matched text and its start, for RE2 the first element of FindStringIndex; regexp2 errors propagate, RE2 never errs |
| PathRegex.LookaroundPrefixGoesToGo | provider/internal/builtin/path_regex.go:17-28 | a pattern that only begins with a lookaround operator is compiled by RE2 |
| PathRegex.LookaheadPatternSelectsGo | provider/internal/builtin/path_regex.go:17-28 | "(?=foo)" goes to RE2 |
| PathRegex.PlainPatternMatchesWithoutError | provider/internal/builtin/path_regex.go:17-52 | a compiled pattern outside LOOK_SYNTAX never reports a match or find error |
| LocationResolver.NormalizeLineEmpty | provider/internal/builtin/service_client.go:395-400 | a part normalises to "" exactly when only tabs remain once its spaces are trimmed; all-space parts do, and only space/tab parts can |
| LocationResolver.SpaceBetweenTabsSurvives | provider/internal/builtin/service_client.go:396-397 | trimming comes before tab removal, so "\t \t" normalises to " " |
| LocationResolver.FirstParts | provider/internal/builtin/service_client.go:387-393 | at most the first 5 parts are kept, as a prefix, and all of them when there are at most 5 |
| LocationResolver.NormalizeAll | provider/internal/builtin/service_client.go:394-400 | one normalised line per part, in order |
| LocationResolver.NormalizeParts | provider/internal/builtin/service_client.go:394-400 | the part loop produces exactly the normalised parts |
| LocationResolver.DropEmptyEndsKeeps | provider/internal/builtin/service_client.go:401-407 | at most two lines go, all of them ""; a non-empty first or last line stays in place |
| LocationResolver.DropEmptyEndsEmptyIff | provider/internal/builtin/service_client.go:401-410 | after dropping the ends the content is empty exactly when every line was "" |
| LocationResolver.DropEmptyEndsKeepsAll | provider/internal/builtin/service_client.go:401-410 | lines with non-empty ends are kept whole and are not empty content |
| LocationResolver.EmptyContentIff | provider/internal/builtin/service_client.go:387-410 | a snippet is empty content exactly when each of its first five parts normalises to "" |
| LocationResolver.BlankSnippetIsEmptyContent | provider/internal/builtin/service_client.go:408-410 | a snippet of spaces and newlines is the empty-content error and leaves the cache as it was |
| LocationResolver.TabsAroundSpaceGivePattern | provider/internal/builtin/service_client.go:395-411 | "\t \t" is not empty content; its pattern is ".*? " |
| LocationResolver.PatternIgnoresPartsAfterFifth | provider/internal/builtin/service_client.go:387-393 | parts after the fifth never change the pattern lines |
| LocationResolver.PatternOfLines | provider/internal/builtin/service_client.go:387-411 | for one to five lines with non-empty ends, the pattern is ".*?" followed by all normalised lines joined by ".*?" |
| LocationResolver.PlainLineUnchanged | provider/internal/builtin/service_client.go:396-398 | a line without spaces, tabs or metacharacters is its own pattern line |
| LocationResolver.DoubleBlankLines | provider/internal/builtin/service_client.go:401-407 | of two leading empty lines only the first is dropped |
| LocationResolver.OneLeadingEmptyLineDropped | provider/internal/builtin/service_client.go:401-411 | the pattern of "\n\n" + line holds two wildcards before the line |
| LocationResolver.CachedFailureSkipsGrep | provider/internal/builtin/service_client.go:412-419 | a hit on -1 is the "previous error" error, the cache unchanged, whatever grep would say |
| LocationResolver.CachedLineReplayed | provider/internal/builtin/service_client.go:412-428 | a hit on v gives start = end = v, the cache unchanged |
| LocationResolver.MissWritesOnce | provider/internal/builtin/service_client.go:430-443 | a miss writes exactly the key path + "-" + pattern: the line grep found, or -1 when grep fails or finds nothing; success reports that line as start and end; grep gets the number of lines as its window |
| LocationResolver.CacheOnlyGrows | provider/internal/builtin/service_client.go:412-443 | existing entries never change and at most one key is added |
| LocationResolver.SecondResolutionReplays | provider/internal/builtin/service_client.go:412-443 | resolving the same snippet again replays the first answer without consulting grep |
| LocationResolver.ResolveExtends | provider/internal/builtin/service_client.go:382-443 | a getLocation call only extends the cache |
| Inclusion.GetSegments | provider/internal/builtin/service_client.go:522-532 | the loop yields the non-empty '/'-separated segments, in order |
| Inclusion.AnyScopeAdmitsIff | provider/internal/builtin/service_client.go:534-551 | the loop over included paths succeeds exactly when some included path admits the file |
| Inclusion.SegmentPrefixAdmitted | provider/internal/builtin/service_client.go:539-547 | a file whose compared segments extend those of the included path is admitted |
| Inclusion.DirUnderRoot | provider/internal/builtin/service_client.go:541 | the parent of root + "/" + rest has root's segments as a prefix |
| Inclusion.FileBelowIncludedDirectoryAdmitted | provider/internal/builtin/service_client.go:534-548 | under a directory scope every file anywhere below it is admitted |
| Inclusion.IncludedFileAdmitted | provider/internal/builtin/service_client.go:534-548 | under a file scope the file itself and every path below it are admitted |
| Inclusion.SiblingSharingPrefixAdmitted | provider/internal/builtin/service_client.go:544-547 | because segments are compared after concatenation, with /r/d included a file in the sibling /r/(d + extra) is admitted too |
| Inclusion.OtherDirectoryExcluded | provider/internal/builtin/service_client.go:517-551 | with only /r/d included, a file in /r/e is excluded when e does not begin with d |
| Narrowing.Hits | provider/internal/builtin/service_client.go:161-166 | a scoped path is appended once per equality and once more per base-name equality, never anything else |
| Narrowing.NarrowMember | provider/internal/builtin/service_client.go:159-168 | the narrowed list holds exactly the scoped paths some condition path asks for |
| Narrowing.BaseNameMatchDuplicates | provider/internal/builtin/service_client.go:161-166 | xml keeps a bare file name twice, once for equality and once for the base name; xmlPublicID keeps it once |
| Narrowing.ExactWithinBaseNarrowing | provider/internal/builtin/service_client.go:240-246 | the xmlPublicID narrowing keeps nothing the xml narrowing does not, duplicates counted |
| Narrowing.AppendHits | provider/internal/builtin/service_client.go:160-167 | the inner loop appends to newPaths exactly the scoped paths that one condition path asks for, in scoped order |
| Narrowing.NarrowPaths | provider/internal/builtin/service_client.go:156-168 | the nested loop's newPaths equal the narrowing, with the outer loop over condition paths |
| Narrowing.NoFilesIff | provider/internal/builtin/service_client.go:152-180 | no file is searched exactly when the condition is scoped, names paths, and none of the scoped paths is asked for |
| Narrowing.JsonCandidatePaths | provider/internal/builtin/service_client.go:304-309 | the scoped list; else the json paths only when the xml condition names paths; else none |
| Scan.LineResults | provider/internal/builtin/service_client.go:617-638 | one result per match of a line, in matcher order, with the line number and the match's start and text |
| Scan.ScanLinesErrIff | provider/internal/builtin/service_client.go:613-617 | the scan fails exactly when the matcher fails on some line |
| Scan.ScanLinesOrdered | provider/internal/builtin/service_client.go:611-641 | every result carries the file's path and a number of a scanned line, counted from the first, and results come in line order |
| Scan.OnLineResults | provider/internal/builtin/service_client.go:618-638 | all results of one line lie on that line |
| Scan.ScanLinesPerLine | provider/internal/builtin/service_client.go:611-641 | the results on the k-th line are exactly the matcher's matches of that line, in its order |
| Scan.OnLineNone | provider/internal/builtin/service_client.go:611-641 | no result lies on a line below every result's line |
| Scan.ProcessFile | provider/internal/builtin/service_client.go:601-645 | the line loop numbers lines from 1 and equals the file scan; open and matcher errors are the error |
| Scan.WalkFilesFromRegularFiles | provider/internal/builtin/service_client.go:569-584 | every walk result comes from a regular file of the walk, carries its absolute path and is on a line numbered from 1 |
| Scan.ParallelWalk | provider/internal/builtin/service_client.go:559-599 | the walk equals the concatenated scans of the regular files; the walk's and the first file's error end it |
| FileEvaluation.ScopedMatchesMember | provider/internal/builtin/service_client.go:62-78 | a scoped path is kept exactly when it matches, at most once; a glob error only drops that path |
| FileEvaluation.TreeMatchesSpec | provider/internal/builtin/service_client.go:446-471 | the walk fails exactly when matching some entry's name fails; otherwise it keeps the full paths of the entries whose names match, in walk order |
| FileEvaluation.FoundByName | provider/internal/builtin/service_client.go:451-468 | a path is found exactly when some entry with that path has a matching name |
| FileEvaluation.FindFilesMatchingPattern | provider/internal/builtin/service_client.go:446-471 | the walk loop equals the specification of findFilesMatchingPattern |
| FileEvaluation.FileIncidentsSpec | provider/internal/builtin/service_client.go:87-102 | an incident exactly for the absolute path of each included match, at most one per match, one each without included paths |
| FileEvaluation.FileEvalSpec | provider/internal/builtin/service_client.go:56-104 | an empty pattern is refused before any search; a failed search is the error; otherwise the template context holds every match, included or not, and the condition matches exactly when an incident exists |
| FileEvaluation.ScopedRegexNeverFails | provider/internal/builtin/service_client.go:62-78 | with a pattern that is a Go regex, a scoped search never fails and keeps exactly the scoped paths the regex matches |
| FileEvaluation.FilterResultsSpec | provider/internal/builtin/service_client.go:121-143 | without a filter error the incidents are those of the accepted matches, in order; with one it is the first failing match's error beside the incidents before it |
| FileEvaluation.FilteredFromResults | provider/internal/builtin/service_client.go:121-143 | every filtered incident is the incident of some scan match |
| FileEvaluation.FileContentRefusals | provider/internal/builtin/service_client.go:106-114 | an empty pattern is refused before any search or compilation, whatever the oracles answer; a pattern regexp2 cannot compile is refused before the walk; both come with the empty response |
| FileEvaluation.FileContentIncidentsOnLines | provider/internal/builtin/service_client.go:105-146 | every filecontent incident, partial ones included, lies in a regular file of the walk on a line numbered from 1 that is its start and end; the response matches only without error and then exactly when there is an incident |
| FileEvaluation.AcceptAllKeepsEveryMatch | provider/internal/builtin/service_client.go:121-143 | with a filter accepting everything, every match is an incident, in scan order |
| FileEvaluation.FilterMatches | provider/internal/builtin/service_client.go:121-143 | the filter loop equals its specification |
| Documents.Bares | provider/internal/builtin/service_client.go:199-221 | an incident with its location dropped, one per incident |
| Documents.Shapes | provider/internal/builtin/service_client.go:192-221 | an included file yields one incident per node, in order, with the node's variables; a file that is not included yields none |
| Documents.LocatedFacts | provider/internal/builtin/service_client.go:199-220 | a node's incident names its file and variables, carries a line exactly with a location whose start and end are that line, and only extends the cache |
| Documents.LocateAllKeeps | provider/internal/builtin/service_client.go:192-221 | the node loop leaves the match flag alone and only extends the cache |
| Documents.LocateAllShapes | provider/internal/builtin/service_client.go:192-221 | the node loop appends, location aside, exactly the file's shapes |
| Documents.LocateAllWellLocated | provider/internal/builtin/service_client.go:192-221 | every appended incident is well located |
| XmlEvaluation.XmlFinds | provider/internal/builtin/service_client.go:199-211 | one found node per node, with the trimmed inner text (or data) as the text to locate |
| XmlEvaluation.XmlFilesMatched | provider/internal/builtin/service_client.go:184-191 | the match flag is set exactly when some file's query returns nodes |
| XmlEvaluation.XmlFilesShapes | provider/internal/builtin/service_client.go:184-222 | the incidents are, location aside, one per node of each included file, in file and node order |
| XmlEvaluation.XmlFilesKeeps | provider/internal/builtin/service_client.go:184-222 | the file loop keeps incidents well located and only extends the cache |
| XmlEvaluation.XmlEvalOutcome | provider/internal/builtin/service_client.go:147-183 | the query is compiled first; no candidate file gives an empty response without error; a failed search is the error; any outcome only extends the cache and reports lines with matching locations |
| XmlEvaluation.XmlEvalFound | provider/internal/builtin/service_client.go:184-223 | after a search, the response matches exactly when some file's query returns nodes, with one incident per node of each included file |
| XmlEvaluation.MatchedWithoutIncidents | provider/internal/builtin/service_client.go:190-198 | when no file is included, a query with nodes still makes the condition match, with no incident |
| XmlEvaluation.PublicIdScanFirst | provider/internal/builtin/service_client.go:271-292 | only the first public-id attribute decides: the node matches when its value matches, and is reported when it matches in an included file |
| XmlEvaluation.PublicIdNodesSpec | provider/internal/builtin/service_client.go:269-293 | the node loop reports the matching nodes of an included file and flags any matching node |
| XmlEvaluation.PublicIdFileSpec | provider/internal/builtin/service_client.go:262-294 | a file whose query fails is skipped; otherwise its hits are appended and a matching node sets the flag |
| XmlEvaluation.PublicIdFilesIncidents | provider/internal/builtin/service_client.go:262-295 | the incidents are every file's hits, in order |
| XmlEvaluation.PublicIdFilesMatched | provider/internal/builtin/service_client.go:262-295 | the flag is set exactly when some file has a node whose public id matches |
| XmlEvaluation.PublicIdEvalSpec | provider/internal/builtin/service_client.go:224-297 | the regex is compiled first, then the fixed query, whose failure names the xml condition's query; no error exactly when both compile and the search does not fail; a narrowing that leaves nothing to search gives the empty response without error and without a scan; after a search the match flag and incidents are as above |
| JsonEvaluation.JsonFinds | provider/internal/builtin/service_client.go:337-346 | one found node per node, located by its inner text |
| JsonEvaluation.JsonFilesFailsIff | provider/internal/builtin/service_client.go:314-328 | the loop ends with an error exactly when some file's query fails |
| JsonEvaluation.JsonFilesFirstFailure | provider/internal/builtin/service_client.go:314-328 | the error is the first failing file's, beside the response the files before it built |
| JsonEvaluation.JsonFilesFound | provider/internal/builtin/service_client.go:314-355 | without a failing query, the flag is set exactly when some file yields nodes, and the incidents are one per node of each included file |
| JsonEvaluation.JsonFilesKeeps | provider/internal/builtin/service_client.go:314-355 | the loop keeps incidents well located and only extends the cache |
| JsonEvaluation.JsonEvalOutcome | provider/internal/builtin/service_client.go:298-356 | an empty query is refused before any search; a failed search is the error; no error exactly when no query fails; the cache only grows |
| JsonEvaluation.JsonPathsNeedXmlPaths | provider/internal/builtin/service_client.go:304-309 | unscoped and without xml paths, the json paths are ignored and the whole tree is searched |
| Dispatch.TagsFoundIff | provider/internal/builtin/service_client.go:358-366 | the tag loop succeeds exactly when every requested tag is in the provider context's tags or the client's |
| Dispatch.HasTagsEvalSpec | provider/internal/builtin/service_client.go:357-375 | hasTags never errs; it matches exactly when every tag is known, always for no tags, and then with exactly one incident carrying the tags, none otherwise |
| Dispatch.EvaluateRefusals | provider/internal/builtin/service_client.go:46-51 | an undecodable condition is refused whatever the capability; a decoded one is refused as unsupported exactly for a capability outside the six (lines 376-377) |
| Dispatch.EvaluateCacheAndErrors | provider/internal/builtin/service_client.go:46-377 | the cache only grows, and only xml and json touch it; every error except a propagated one comes with the empty response |
| Client.BuiltinServiceClient.constructor | provider/internal/builtin/service_client.go:27-36 | the client keeps its configuration and starts with an empty cache |
| Client.BuiltinServiceClient.GetLocation | provider/internal/builtin/service_client.go:382-444 | the result and the new cache are those of the getLocation specification on the old cache |
| Client.BuiltinServiceClient.IsFileIncluded | provider/internal/builtin/service_client.go:517-552 | the answer is Included: no included paths, or some included path admits the file |
| Client.BuiltinServiceClient.MatchScoped | provider/internal/builtin/service_client.go:62-78 | the scoped loop keeps exactly the matching scoped paths |
| Client.BuiltinServiceClient.FileMatchIncidents | provider/internal/builtin/service_client.go:87-102 | the incident loop builds one incident per included match |
| Client.BuiltinServiceClient.EvaluateFile | provider/internal/builtin/service_client.go:56-104 | equals the file specification |
| Client.BuiltinServiceClient.EvaluateFileContent | provider/internal/builtin/service_client.go:105-146 | equals the filecontent specification |
| Client.BuiltinServiceClient.LocateNodes | provider/internal/builtin/service_client.go:192-221 | the node loop and the new cache are those of the node-loop specification |
| Client.BuiltinServiceClient.SearchXmlFiles | provider/internal/builtin/service_client.go:152-183 | the narrowing and findXMLFiles give the specified candidate files |
| Client.BuiltinServiceClient.EvaluateXml | provider/internal/builtin/service_client.go:147-223 | the evaluation and the new cache are those of the xml specification on the old cache |
| Client.BuiltinServiceClient.PublicIdAttrs | provider/internal/builtin/service_client.go:271-292 | the attribute loop, with its continue and break, gives the specified outcome |
| Client.BuiltinServiceClient.PublicIdNodeLoop | provider/internal/builtin/service_client.go:269-293 | the node loop of one file equals its specification |
| Client.BuiltinServiceClient.EvaluateXmlPublicID | provider/internal/builtin/service_client.go:224-297 | equals the xmlPublicID specification |
| Client.BuiltinServiceClient.EvaluateJson | provider/internal/builtin/service_client.go:298-356 | the evaluation and the new cache are those of the json specification on the old cache |
| Client.BuiltinServiceClient.EvaluateHasTags | provider/internal/builtin/service_client.go:357-375 | the flag loop with its break equals the hasTags specification |
| Client.BuiltinServiceClient.Evaluate | provider/internal/builtin/service_client.go:46-378 | the evaluation and the new cache are those of the Evaluate specification on the old cache |

## Where the code and its documentation differ

The model follows the code in each of these cases.

- The regex selector picks regexp2 only when the whole pattern *equals* one of
  `(?=`, `(?!`, `(?<=`, `(?<!` (`path_regex.go:18`). It does not test for a
  prefix, so a real lookaround pattern such as `(?=foo)` goes to RE2
  (`PathRegex.LookaheadPatternSelectsGo`).
- `isFileIncluded` compares the *concatenated* segments, not segment by
  segment. A sibling directory that merely shares a name prefix is therefore
  admitted (`Inclusion.SiblingSharingPrefixAdmitted`).
- getLocation trims spaces before deleting tabs, so `"\t \t"` becomes `" "`, not
  an empty line (`LocationResolver.SpaceBetweenTabsSurvives`).
- The json branch tests `cond.XML.Filepaths` but then searches
  `cond.JSON.Filepaths` (`service_client.go:307-308`). Json paths are ignored
  when the xml condition names no path (`JsonEvaluation.JsonPathsNeedXmlPaths`).
- The xmlPublicID error for a failed query compilation names
  `cond.XML.XPath`, not the public-id query (`service_client.go:231`).
- The xml branch sets `Matched` as soon as a file's query returns nodes, before
  the inclusion filter. A condition can therefore match with no incidents
  (`XmlEvaluation.MatchedWithoutIncidents`). The file branch instead derives
  `Matched` from the filtered incidents.
- The xml narrowing appends a scoped path twice when it equals the condition
  path and also has that base name (`Narrowing.BaseNameMatchDuplicates`).

## Left out

- I/O, the filesystem and foreign libraries are oracles in `Env`:
  - file opening and reading (`bufio.Scanner` with its token size limit);
  - `filepath.Walk`/`WalkDir`, `filepath.Abs` and `os.Stat`;
  - `provider.GetFiles`, `provider.FilterFilePattern` and `provider.MultilineGrep`;
  - XPath compilation, `xmlquery` and `jsonquery`;
  - Go's `regexp`, `regexp2` and `filepath.Match`.
- `filepath.Abs` is total in the model. Where Go falls back to the path itself
  when `Abs` fails (`service_client.go:90-94`, `193-196`, `275-278`, `332-335`),
  the `abs` oracle is free to return that path, so the fallback is covered. The
  error `processFile` returns when `Abs` fails (`service_client.go:619-622`) is
  not modelled.
- File reading is one oracle, `readLines`. Its error stands only for a failed
  `os.Open`, which `processFile` returns. `processFile` never calls
  `scanner.Err()`, so a read error, such as a line over the Scanner's token
  limit, ends the scan silently. It keeps the matches of the lines read before
  it and returns no error. The oracle then returns `Ok` with those lines.
- `filepath.Clean` and `filepath.Join` are reduced to joining with "/" and
  dropping empty segments. Paths are taken as clean, with `/` separators, so
  `..` and `.` are not resolved.
- Concurrency: `parallelWalk` runs `processFile` in goroutines (limit 256) and
  appends under a mutex, so its result order is not fixed. `Scan.ParallelWalk`
  scans the files one after another in walk order. It reports the error of the
  first failing file in that order. The cache's `RWMutex` is left out as well:
  the client is single-threaded.
- The YAML decoding of the condition is left out. It is a parameter
  `Option<Condition>`, with `None` for a payload that does not decode.
- Logging and tracing spans are left out.
- URI formatting is left out. `uri.File(absPath)` and `"file:///" + path`
  become the absolute path itself.
- Line numbers are `float64` in the cache and `uint32` in walk results. They
  are unbounded integers here, with `-1` as the failure value of the cache.
- `queryXMLFile` is the oracle `Env.queryXml`, one error result for every
  failure. This covers the XML 1.1 to 1.0 rewrite, `Strict: false` parsing and
  the recovery from a panic in the XPath search.
- The json branch's "open" and "parse" failures are one `JsonUnreadable`
  outcome. The file is skipped either way.
- Variables and template context are typed records, not
  `map[string]interface{}`. Error messages are error constructors that carry
  the pattern, query or reason; the formatted text is not modelled.
- `Stop` and the embedded dependency interfaces do nothing relevant to
  conditions and are not modelled.
