# code-to-docs: crash-report rule and report engine, in Dafny

code-to-docs walks the syntax trees of a TypeScript project and runs a list of
rules on every node. It then writes a Markdown report that groups what the
rules found.

This project models three parts of it:

- **The built-in rule `findCrashAnalyticService`.** It recognises calls of
  the form `CrashAnalyticsService.<method>(…)` and turns each into one log
  entry with four fields:
  - a title, taken from a `new Error('…')` in the arguments;
  - a severity, taken from the method name;
  - a domain, taken from a `tag: ErrorTag.…` in the arguments;
  - for `sendInfo`, a reason, read from the enclosing catch clause or arrow
    function.
- **The analysis pass and the renderer.**
  - `analyzeProject` folds what every rule returned on every node into a
    two-level, insertion-ordered map: rule key → domain key → entries.
  - `generateMarkdownTable` prints that map as one section per rule and one
    table per domain.
- **Around them:**
  - the rule check `isRule`;
  - the file-name filter for local rules;
  - the list of active rules: the built-in ones, then the local ones;
  - the second, four-case severity mapping in `src/util.ts`.

How the model is built:

- **Maps.** JavaScript `Map`s are association lists kept in insertion order
  (`OrderedMaps`).
- **Nodes.** A syntax node is a record with five parts:
  - whether it is a call;
  - its callee text;
  - its arguments, each with an object-literal flag and its children's texts;
  - the text of its nearest catch clause, if any;
  - the text of its nearest arrow function, if any.
- **Projects.** A project is a sequence of files. Each file is the sequence
  of its nodes in traversal order.
- **The two regular expressions** are searches for the leftmost match of a
  fixed template.
- **The method name** is the callee's second `.`-segment (`split('.')[1]`),
  not the text after its last `.`. So `CrashAnalyticsService.a.sendInfo` is
  not a report.
- **`debug`** has a severity. It is not in the list of reporting methods
  (`src/rules/findCrashAnalyticService.ts:59`), so a `debug` call yields
  nothing.
- **Two views of each imperative operation:**
  - a method with loops, like the source's mutating `forEach` loops;
  - a function that specifies what that method computes.

  Lemmas about these functions state what the program promises.

## Model

| member | source | states |
|---|---|---|
| FindCrashAnalyticService.MapMethodNameToSeverity | src/rules/findCrashAnalyticService.ts:20-35 | `sendError`, `sendWarning`, `sendInfo`, `debug` and `sendUnhandledError` map to error, warning, info, debug and unhandledError, each in both directions. Every other name maps to `""`, and only those do. |
| FindCrashAnalyticService.IsToast | src/rules/findCrashAnalyticService.ts:12-14 | Holds exactly when `ToastService` or `toast` occurs at some position of the text. |
| FindCrashAnalyticService.IsModal | src/rules/findCrashAnalyticService.ts:16-18 | Holds exactly when `alert` occurs at some position of the text. |
| FindCrashAnalyticService.ErrorMatchAtIff | src/rules/findCrashAnalyticService.ts:79-80 | The `new Error\('([^']*)'\)` template matches at position p and captures c exactly when `new Error('c')` starts at p and c holds no quote. |
| FindCrashAnalyticService.TagMatchAtIff | src/rules/findCrashAnalyticService.ts:82-83 | The `tag: ErrorTag\.([^,]*)` template matches at p and captures c exactly when `tag: ErrorTag.c` starts at p, c holds no comma, and c runs up to a comma or the end. |
| FindCrashAnalyticService.LeftmostIsFirstMatch | src/rules/findCrashAnalyticService.ts:80 | The search that `match` performs returns the first position, from p on, at which the template matches. |
| FindCrashAnalyticService.FirstMatchSpec | src/rules/findCrashAnalyticService.ts:83 | The first success is absent only when every attempt fails. Otherwise it is a success with only failures before it. |
| FindCrashAnalyticService.ErrorTemplateFound | src/rules/findCrashAnalyticService.ts:79-80 | A text a + `new Error('x')` + b captures x when a holds no `n` and x holds no quote. |
| FindCrashAnalyticService.TagTemplateFound | src/rules/findCrashAnalyticService.ts:82-83 | The text `tag: ErrorTag.y`, with no comma in y, captures y. |
| FindCrashAnalyticService.NoErrorTemplate | src/rules/findCrashAnalyticService.ts:79-80 | A text with no `(` yields no match (`null`). |
| FindCrashAnalyticService.NoTagTemplate | src/rules/findCrashAnalyticService.ts:82-83 | A text with no `.` yields no match (`null`). |
| FindCrashAnalyticService.LastCaptureNone | src/rules/findCrashAnalyticService.ts:68-91 | When no child text matches a template, the field keeps its initial value. |
| FindCrashAnalyticService.LastCaptureWins | src/rules/findCrashAnalyticService.ts:75-91 | Last write wins: the field ends as the capture of the last matching child, whatever earlier children captured. |
| FindCrashAnalyticService.LastCaptureConcat | src/rules/findCrashAnalyticService.ts:75-91 | Scanning two runs of children equals scanning the second from where the first left off. |
| FindCrashAnalyticService.ScanChildren | src/rules/findCrashAnalyticService.ts:77-91 | The loop over one object literal's children leaves the title and the domain as the last captures, starting from their values on entry. |
| FindCrashAnalyticService.ExtractTitleAndDomain | src/rules/findCrashAnalyticService.ts:75-93 | The nested loops over the arguments produce the last-write-wins title and domain. Only children of object-literal arguments count. The defaults are `MapToError` and `""`. |
| FindCrashAnalyticService.Reason | src/rules/findCrashAnalyticService.ts:107-117 | A method other than `sendInfo` gets `예외처리 없음`. For `sendInfo`, the reason is chosen in priority order: toast, then modal, then the `조회 실패` title marker, then `기록을 위한 로그`. Each label is stated as an if-and-only-if on those tests. |
| FindCrashAnalyticService.ReportingSeverity | src/rules/findCrashAnalyticService.ts:59-70 | Each of the four reporting methods has a non-empty severity that is not debug. |
| FindCrashAnalyticService.EntryOf | src/rules/findCrashAnalyticService.ts:67-118 | The entry of a report call never has severity `""` or debug. |
| FindCrashAnalyticService.Execute | src/rules/findCrashAnalyticService.ts:51-126 | The imperative `execute` returns `Classify(node)`. |
| FindCrashAnalyticService.ClassifyShape | src/rules/findCrashAnalyticService.ts:52-125 | The result is empty exactly when the node is not a call, its callee does not start with `CrashAnalyticsService`, or its second `.`-segment is not a reporting method. Otherwise it has one key, equal to the entry's domain. That key holds one entry, whose severity is the method's mapping and is not `""`. |
| FindCrashAnalyticService.DebugNotReported | src/rules/findCrashAnalyticService.ts:59-65 | A `debug` call yields nothing, although `debug` has a severity. |
| FindCrashAnalyticService.ServicePrefixSuffices | src/rules/findCrashAnalyticService.ts:54-61 | The service test is a prefix test. Any dot-free receiver starting with `CrashAnalyticsService`, longer names included, followed by `.` and a reporting method, is a report with that method name. |
| FindCrashAnalyticService.DefaultsWithoutMatches | src/rules/findCrashAnalyticService.ts:68-73 | With no template match among the children, the title stays `MapToError` and the domain stays `""`. |
| FindCrashAnalyticService.ReasonOnlyForInfo | src/rules/findCrashAnalyticService.ts:95-118 | A report by any method other than `sendInfo` keeps the reason `예외처리 없음`. |
| FindCrashAnalyticService.ToastWinsOverFallback | src/rules/findCrashAnalyticService.ts:107-117 | For `sendInfo` inside a catch clause that mentions `toast`, the reason is `토스트 노출`, whatever the title says. |
| FindCrashAnalyticService.CatchClauseFirst | src/rules/findCrashAnalyticService.ts:96-105 | When there is a catch clause, its text is the context, even inside an arrow function. |
| FindCrashAnalyticService.TagOnly | src/rules/findCrashAnalyticService.ts:75-91 | Children with no `(` and no `.`, followed by `tag: ErrorTag.d`, give the default title and the domain d, under one condition: d holds no comma and no `(`. |
| FindCrashAnalyticService.ErrorThenTag | src/rules/findCrashAnalyticService.ts:75-91 | Two children: first `a` + `new Error('x')`, then `tag: ErrorTag.d`. They give the title x and the domain d, under these conditions: a holds no `n` and no `.`; x holds no quote and no `.`; d holds no comma and no `(`. |
| FindCrashAnalyticService.LookupFailureTitleAndDomain | example/ex1.ts:14-17 | The arguments of the example call give the title `고객 잔여 캐시 조회 실패` and the domain `test1`. |
| FindCrashAnalyticService.LookupFailureMarked | src/rules/findCrashAnalyticService.ts:107 | That title contains the lookup-failure marker `조회 실패`. |
| FindCrashAnalyticService.ExampleLookupFailure | example/ex1.ts:13-17 | The example `sendInfo` call, inside an arrow function with no toast or alert, yields one entry under `test1`: that title, severity info, reason `fallback 화면 노출`. |
| FindCrashAnalyticService.UnhandledTitleAndDomain | example/qweqweqwe.ts:14-21 | The arguments of the example call give the title `MapToError` and the domain `WhiteScreen`. |
| FindCrashAnalyticService.ExampleUnhandled | example/qweqweqwe.ts:14-21 | The example `sendUnhandledError` call yields one entry under `WhiteScreen`: title `MapToError`, severity unhandledError, reason `예외처리 없음`. This holds whatever its context. |
| Text.ContainsIff | src/rules/findCrashAnalyticService.ts:13 | `includes` holds exactly when the text occurs at some position. |
| Text.IndexOf | src/rules/findCrashAnalyticService.ts:58 | Gives the first position of a character, or none exactly when the character is absent. |
| Text.SecondSegmentSound | src/rules/findCrashAnalyticService.ts:58 | `split('.')[1]` is undefined exactly when there is no `.`. Otherwise it is the dot-free text after the first `.`, up to the next `.` or the end. |
| Text.SecondSegmentComplete | src/rules/findCrashAnalyticService.ts:58 | Conversely, any such text is `split('.')[1]`. |
| Text.SecondSegmentOfPair | src/rules/findCrashAnalyticService.ts:58 | For `a.b` with no dot in a or b, `split('.')[1]` is b. |
| Text.CountJoin | src/index.ts:40 | `join` of n parts free of a character c, with a separator that holds c once, yields n - 1 occurrences of c (none for no parts). |
| OrderedMaps.Get | src/index.ts:17 | `get` finds a value exactly when the key is present. |
| OrderedMaps.Set | src/index.ts:18 | `set` gives the key the new value and leaves every other key's value alone. A present key keeps its place; a new key goes last. |
| OrderedMaps.AppendOnEmpty | src/rules/findCrashAnalyticService.ts:121-122 | Appending to the missing list of a fresh map gives the one-key, one-element map. |
| OrderedMaps.AppendAllNewContents | src/index.ts:15-20 | Adding keys keeps the old ones in front. It adds exactly the new ones, and it adds no duplicate. |
| OrderedMaps.DistinctFirstAppearance | src/index.ts:15-20 | Deduplicating keeps each element once, in the order of its first appearance. |
| Analysis.MergeEntries | src/index.ts:16-19 | Merging one rule output appends its lists after what was stored under each domain key. Nothing is dropped, merged or reordered. |
| Analysis.MergeKeys | src/index.ts:16-19 | Merging adds the output's new domain keys after the old ones, in output order. |
| Analysis.StepStored | src/index.ts:13-20 | One run extends the list under its own rule key and changes no other rule key's lists. |
| Analysis.FoldStored | src/index.ts:10-23 | For every rule key and domain key, the stored list is the earlier list followed by everything the runs with that key returned under that domain, in run order. |
| Analysis.FoldKeys | src/index.ts:15-20 | Rule keys appear in the order of their first run. |
| Analysis.StepDomainKeys | src/index.ts:15-20 | One run adds its new domain keys under its own rule key only. |
| Analysis.FoldDomainKeys | src/index.ts:10-23 | Domain keys under a rule key appear in the order in which they were first returned. |
| Analysis.FoldKeepsMeta | src/index.ts:15 | The meta stored under a key never changes afterwards. |
| Analysis.FoldFirstMeta | src/index.ts:15 | A newly stored key carries the meta of the first run with that key. |
| Analysis.FoldAbsent | src/index.ts:15-20 | A key that no run carries is not added. |
| Analysis.AnalyzeRuleKeys | src/index.ts:8-25 | Once one node is visited, every rule's key is present, once each, in rule-list order. With no node, the result is empty. |
| Analysis.AnalyzeUnmatchedRule | src/index.ts:15-20 | Once one node is visited, the key of a listed rule is present with an empty inner map when no run, of any rule with that key, returned a domain key. |
| Analysis.AnalyzeStored | src/index.ts:8-25 | Under each rule key and domain key, the result holds everything that rules with that key returned under that domain key, in order: files, then nodes, then rules. |
| Analysis.AnalyzeMeta | src/index.ts:12-20 | The stored meta of a rule key is that of the first listed rule with that key. |
| Analysis.MergeInto | src/index.ts:16-19 | The loop over one rule output computes `Merge`. |
| Analysis.RunRules | src/index.ts:12-21 | The loop over the rules for one node folds in that node's runs. |
| Analysis.AnalyzeFile | src/index.ts:11-22 | The loop over a file's nodes folds in their runs, in order. |
| Analysis.AnalyzeProject | src/index.ts:8-25 | The imperative `analyzeProject` returns `Analyze(project, rules)`. |
| MarkdownTable.LinesConcat | src/index.ts:30-44 | The report of two runs of rule keys is their two reports in sequence, so sections follow key order. |
| MarkdownTable.LinesHead | src/index.ts:30-31 | A non-empty report opens with `## ` and the first rule key. |
| MarkdownTable.SectionBodyConcat | src/index.ts:33-43 | The tables of two runs of domain keys come in sequence, so tables follow domain-key order. |
| MarkdownTable.SectionBodyLength | src/index.ts:33-43 | A rule's section has three lines per domain key and one per stored entry. |
| MarkdownTable.LinesLength | src/index.ts:27-47 | The report has one line per rule key, three per domain key (heading, header, separator) and one per entry. |
| MarkdownTable.HeaderRowBars | src/index.ts:35 | When no header holds a `\|`, the header row has one `\|` per header and a closing one. |
| MarkdownTable.SeparatorRowBars | src/index.ts:36 | The separator row has one `\|` per header and a closing one, like the header row. |
| MarkdownTable.RowBars | src/index.ts:40 | When no field holds a `\|`, an entry row has one `\|` per header key plus one, and two when there are no header keys. Its width follows `headersKey`, not `headers`. |
| MarkdownTable.HeaderRowOfThree | src/index.ts:35 | Three headers a, b, c give `\| a \| b \| c \|`. |
| MarkdownTable.RowOfThree | src/index.ts:40 | Three header keys give the row of those three fields, in that order. |
| MarkdownTable.AppendRows | src/index.ts:37-42 | The loop over one list appends one row line per entry. |
| MarkdownTable.AppendTables | src/index.ts:33-43 | The loop over a rule's domain keys appends, for each key, its heading, header, separator and rows. |
| MarkdownTable.GenerateMarkdownTable | src/index.ts:27-47 | The imperative `generateMarkdownTable` returns the lines of `Lines(dataMap)`, each ending in a newline. |
| Registry.IsRule | src/index.ts:63-70 | Holds exactly for a non-null object that has both an `execute` and a `meta` member. Functions, primitives, `null` and `undefined` fail it. |
| Registry.JavaScriptFilesRejected | src/index.ts:55 | A name ending in `.js` is never accepted: the filter's suffix is `.ts`. |
| Registry.AcceptedFiles | src/index.ts:54-55 | A file is kept exactly when it is listed and its name ends in `.ts`. |
| Registry.AcceptedFilesConcat | src/index.ts:54-55 | Filtering keeps directory order. |
| Registry.LocalRules | src/index.ts:54-60 | There are no more local rules than accepted files. |
| Registry.LocalRulesConcat | src/index.ts:54-60 | Loading keeps directory order: the rules of two runs of files are the rules of each, in sequence. |
| Registry.LocalRulesOfOne | src/index.ts:55-60 | A single file contributes its loaded value as a rule exactly when its name ends in `.ts` and the value passes `isRule`. Otherwise it contributes nothing. With `LocalRulesConcat`, this fixes the whole list. |
| Registry.LocalRuleOfFile | src/index.ts:54-60 | Every accepted file whose value passes the rule check contributes that value as a rule. It sits right after the rules of the files listed before it. |
| Registry.FileOfLocalRule | src/index.ts:54-60 | Every local rule is the loaded value of some accepted file that passes the rule check. |
| Registry.BuiltInMetaWins | src/index.ts:77-78 | The built-in rule comes first in the active rules. So, once a node is visited, the meta stored under `findCrashAnalyticService` is the built-in rule's, even when a local rule reuses that key. |
| Registry.ReportOpensWithBuiltInRule | src/index.ts:77-79 | For a project with a node, the report's first line is `## findCrashAnalyticService`, so the report text that `main` writes begins with that heading and a newline. |
| Registry.ClassifyUnder | src/rules/findCrashAnalyticService.ts:120-123 | The built-in rule's output holds its one entry under that entry's domain, and nothing under any other domain. |
| Registry.BuiltInAnalysis | src/index.ts:8-25 | With the built-in rule alone, each domain holds the entries of every report call filed under it, in file and traversal order. Domains appear in order of first occurrence. |
| Registry.BuiltInHeaderRow | src/index.ts:35 | The built-in rule's header row is `\| 에러 메시지 \| 분류 \| 분류 이유 \|`. |
| Registry.BuiltInRow | src/index.ts:40 | A built-in row shows title, severity and reason, in that order. The domain is the table, not a column. |
| Util.MapMethodNameToSeverity | src/util.ts:3-16 | `sendError`, `sendWarning`, `sendInfo` and `debug` map to their severities, each in both directions. Every other name, `sendUnhandledError` included, maps to `""`. |
| Util.AgreesWithRuleExceptUnhandled | src/util.ts:3-16 | Agrees with the rule's mapping on every name except `sendUnhandledError`, which it maps to `""` and the rule maps to unhandledError. |

## Left out

- **Files, processes and the command line.** These are not modelled:
  - building the `Project` from `tsconfig.json`;
  - `fs.readdirSync` of the rule directory;
  - the dynamic `require` of a rule file;
  - `fs.writeFileSync` of the report;
  - `src/cli.ts`.

  Loading a module is the parameter `load` of `Registry.LocalRules`. The
  directory listing is its `files` parameter.
- **The TypeScript compiler API**, including traversal, `getText`, and
  ancestor and descendant lookups. Each node is given with its callee text,
  arguments and enclosing texts. A file is given as its nodes in traversal
  order.
- **A general regular-expression engine.** Only the two fixed templates are
  modelled, as leftmost searches.
- **The `result instanceof Array` test** in the renderer (`src/index.ts:37`)
  always holds for the lists the analysis builds. The model has no branch
  for it.
- **Template literals on entry fields.** A field is shown as its text, or as
  `undefined` when the entry has no such field. Inherited prototype
  properties are not modelled.
- **The declared `RuleResult` type** in `src/rules/index.ts:16` does not
  match what `execute` returns. The model follows the code: a map from
  domain key to entry lists.
- **The `Severity` import.** `src/util.ts:1` imports a name that the module
  it names does not export. This is a compile-time defect and leaves nothing
  to model.
- FindCrashAnalyticService.ExampleLookupFailure: the arrow function's text is
  a parameter constrained to mention no toast and no alert. The text of
  `example/ex1.ts` itself is not written out.
- FindCrashAnalyticService.ExampleUnhandled: the text of the nested `metadata`
  object is a parameter that holds no `(` and no `.`, as in
  `example/qweqweqwe.ts`. The catch and arrow texts are free.
- **Well-formed rules.** A value that passes the rule check is taken to
  have two things:
  - a well-formed `meta` with a `key`, `headers` and `headersKey`;
  - a total `execute` that returns a map from domain key to entry lists.

  `isRule` (`src/index.ts:63-70`) checks only that the two members exist.
  Other values also pass, such as `{ meta: undefined, execute }`, an
  `execute` that is not a function, or one that returns `undefined` or
  throws. With such a value, `analyzeProject` throws a `TypeError` at
  `src/index.ts:13`, 14 or 16, and no report is written. The model has no
  such failure. `Analysis.AnalyzeRuleKeys` and
  `Registry.ReportOpensWithBuiltInRule` hold for every local rule only
  because of this assumption.
- Registry.BuiltInAnalysis: stated for the built-in rule alone. A local rule
  that reuses the key `findCrashAnalyticService` adds its own entries to the
  same lists. With local rules, the stored lists are described by
  `Analysis.AnalyzeStored` in general, and the stored meta by
  `Registry.BuiltInMetaWins`.
