# JBehave → ReportPortal bridge (legacy agent), modelled in Dafny

The agent listens to JBehave's story-reporter events and mirrors the run
as a tree of items in ReportPortal: a story item per story (given stories
nested under the scenario or story that pulls them in), a scenario item
under it, and a step item under the scenario. `JBehaveUtils` holds the
static operations that start and finish those items and the string
helpers that shape what is sent (item names, meta descriptions,
`<placeholder>` substitution from example rows); `ReportPortalStoryReporter`
maps each JBehave event onto them.

The model is split along the same lines:

- `text.dfy` (`Text`): `normalizeName`, `joinMeta(key, value)` with its
  link rendering, and the decimal rendering of the example index.
- `metas.dfy` (`Metas`): metas as maps (`metaToMap`, `metasToMap`) and as
  text (`joinMeta(Map)`, `joinMeta(Meta)`, `joinMetas`).
- `placeholders.dfy` (`Placeholders`): the regular expression `<(.*?)>`
  and `expandParameters`, a loop proved against a recursive definition.
- `lifecycle.dfy` (`Lifecycle`): the bridge state (the current story
  record, the stack of outer stories, the item cache, the backend's call
  log) and each stateful operation of `JBehaveUtils` as a function from
  the state before to the state after, with its properties.
- `calls.dfy` (`CallLog`): the shape of the call log when steps are
  skipped in bulk (pairs of start/finish calls, rows of them).
- `handlers.dfy` (`Handlers`): each event handler of the reporter as a
  state function, and its properties, among them the fan-out of
  `scenarioNotAllowed` into one skipped step per example row and step.
- `bridge.dfy` (`Bridge`): the class `Context` holding that state in
  mutable fields; its methods do the operations step by step and are
  proved to agree with the `Lifecycle` functions.
- `reporter.dfy` (`StoryReporter`): the handlers as methods driving a
  `Context`, proved to agree with the `Handlers` functions.

The reporting backend is a log: starting an item returns the next handle
(a counter) and appends a `Start` call; finishing appends a `Finish` call;
uploading a stack trace appends a `LogError` call. The backend never fails, and it hands
out fresh handles: `Lifecycle.Fresh` (every started handle is below the
counter and no two are equal) holds of a new context and every operation
and handler keeps it, so an item finished by its handle is the one item
started with that handle.

`startStory` sets the item description only when the story's own
description IS null or empty (the test is `isNullOrEmpty`, not its
negation), so the description sent is a newline followed by the meta
text (after "null" for a null description), and a story with a
description gets none. The model keeps this as written
(`Lifecycle.StoryDescription`).

## Model

| member | source | states |
|---|---|---|
| Text.NormalizeName | src/main/java/com/epam/reportportal/jbehave/JBehaveUtils.java:437-448 | null or empty gives "UNKNOWN"; the result is never empty and at most 256 long; it is a prefix of the input; names up to 256 are kept; longer ones are cut to 255 |
| Text.NormalizeNameIdempotent | src/main/java/com/epam/reportportal/jbehave/JBehaveUtils.java:437-448 | normalising a normalised name changes nothing |
| Text.NormalizeNameCutsBelowLimit | src/main/java/com/epam/reportportal/jbehave/JBehaveUtils.java:441-443 | a 257-character name is cut to 255, shorter than its 256-character prefix which would be kept whole |
| Text.ToLower | src/main/java/com/epam/reportportal/jbehave/JBehaveUtils.java:383-385 | lower-casing keeps the length and maps each character |
| Text.LastIndexOf | src/main/java/com/epam/reportportal/jbehave/JBehaveUtils.java:386-386 | -1 exactly when the character is absent; otherwise that character's last position |
| Text.SubstringAfterLast | src/main/java/com/epam/reportportal/jbehave/JBehaveUtils.java:386-386 | the suffix after the last '/', free of '/', and "" when there is no '/' |
| Text.JoinMetaEntry | src/main/java/com/epam/reportportal/jbehave/JBehaveUtils.java:379-395 | a null value gives the key; a non-http value gives "key:value"; an http value gives a link to the value |
| Text.JiraLinkText | src/main/java/com/epam/reportportal/jbehave/JBehaveUtils.java:383-390 | the link text is "key:" plus the last path segment when the value mentions jira, else the key |
| Text.IsHttpIgnoresCase | src/main/java/com/epam/reportportal/jbehave/JBehaveUtils.java:383-383 | the http test gives the same answer for a value and its lower-cased form |
| Text.NatToString | src/main/java/com/epam/reportportal/jbehave/JBehaveUtils.java:198-200 | the example index prints as decimal digits with no leading zero |
| Text.NatToStringRoundTrip | src/main/java/com/epam/reportportal/jbehave/JBehaveUtils.java:198-200 | reading the printed index back gives the index |
| Metas.MetaToMap | src/main/java/com/epam/reportportal/jbehave/JBehaveUtils.java:336-346 | a null meta gives the empty map; otherwise the map holds exactly the meta's names, each with its value |
| Metas.PropertiesToMap | src/main/java/com/epam/reportportal/jbehave/JBehaveUtils.java:340-343 | the map holds exactly the properties' names, each with its value |
| Metas.MetasToMap | src/main/java/com/epam/reportportal/jbehave/JBehaveUtils.java:349-359 | the loop of putAll calls builds the left-to-right merge of the metas' maps |
| Metas.MergeLastWins | src/main/java/com/epam/reportportal/jbehave/JBehaveUtils.java:352-355 | a key's merged value comes from the last meta that has the key |
| Metas.MergeAbsent | src/main/java/com/epam/reportportal/jbehave/JBehaveUtils.java:349-359 | a key no meta has is absent from the merge |
| Metas.JoinEnd | src/main/java/com/epam/reportportal/jbehave/JBehaveUtils.java:365-371 | joining one more part appends the separator and that part at its offset |
| Metas.JoinPrefix | src/main/java/com/epam/reportportal/jbehave/JBehaveUtils.java:365-371 | joining a leading run of parts gives a prefix of the whole join |
| Metas.JoinPartAt | src/main/java/com/epam/reportportal/jbehave/JBehaveUtils.java:361-377 | each rendered part sits at its offset in the joined text, and the last one ends it |
| Metas.JoinSepAfter | src/main/java/com/epam/reportportal/jbehave/JBehaveUtils.java:369-370 | a single space follows every part but the last |
| Metas.Rendered | src/main/java/com/epam/reportportal/jbehave/JBehaveUtils.java:367-371 | one rendering per entry, each by joinMeta(key, value) |
| Metas.JoinMetaMap | src/main/java/com/epam/reportportal/jbehave/JBehaveUtils.java:361-377 | the loop gives "" for no entries, else the renderings separated by single spaces |
| Metas.EntriesOf | src/main/java/com/epam/reportportal/jbehave/JBehaveUtils.java:319-331 | one entry per property, in order, with its (non-null) value |
| Metas.JoinMeta | src/main/java/com/epam/reportportal/jbehave/JBehaveUtils.java:314-334 | a null meta gives ""; otherwise its properties rendered and space-separated |
| Metas.JoinMetas | src/main/java/com/epam/reportportal/jbehave/JBehaveUtils.java:403-411 | for the story and scenario meta: their two texts with one space between, a null meta counting as "" |
| Placeholders.CloseFrom | src/main/java/com/epam/reportportal/jbehave/JBehaveUtils.java:71-71 | a match found ends at a '>' at or after the start |
| Placeholders.CloseFromIsLazyMatch | src/main/java/com/epam/reportportal/jbehave/JBehaveUtils.java:71-71 | the lazy `.*?>` ends at the first '>' reached without a line terminator, and fails only when no such '>' exists |
| Placeholders.CloseFromAt | src/main/java/com/epam/reportportal/jbehave/JBehaveUtils.java:71-71 | a '>' reached through plain characters is where the lazy match ends |
| Placeholders.FindToken | src/main/java/com/epam/reportportal/jbehave/JBehaveUtils.java:417-418 | a match found lies at or after the scan position, '<' before '>' |
| Placeholders.FindTokenIsLeftmost | src/main/java/com/epam/reportportal/jbehave/JBehaveUtils.java:417-418 | find returns the leftmost match, or none when no position starts one |
| Placeholders.FindTokenAt | src/main/java/com/epam/reportportal/jbehave/JBehaveUtils.java:417-418 | the first '<' closed through plain characters is the match found |
| Placeholders.FindTokenNone | src/main/java/com/epam/reportportal/jbehave/JBehaveUtils.java:417-418 | with no '<' ahead there is no match |
| Placeholders.ScanStep | src/main/java/com/epam/reportportal/jbehave/JBehaveUtils.java:417-425 | one turn of the loop: a known key is replaced and recorded, an unknown one is kept |
| Placeholders.ScanTextAgrees | src/main/java/com/epam/reportportal/jbehave/JBehaveUtils.java:414-428 | whatever state the loop has reached, its final text is the buffer, the pending text and the expansion of the rest |
| Placeholders.ScanUsedAgrees | src/main/java/com/epam/reportportal/jbehave/JBehaveUtils.java:419-423 | the loop appends exactly the parameters of the known keys still ahead |
| Placeholders.ExpandParameters | src/main/java/com/epam/reportportal/jbehave/JBehaveUtils.java:414-428 | the text is the substituted name; the caller's list gains one parameter per substituted match, left to right |
| Placeholders.ExpandWithoutKnownKeys | src/main/java/com/epam/reportportal/jbehave/JBehaveUtils.java:418-419 | when no match names a key of the row, the name is returned unchanged and nothing is recorded |
| Placeholders.UnknownSkipped | src/main/java/com/epam/reportportal/jbehave/JBehaveUtils.java:418-419 | a match with an unknown key records no parameter |
| Placeholders.UnknownCopied | src/main/java/com/epam/reportportal/jbehave/JBehaveUtils.java:418-419 | a match with an unknown key stays in the text |
| Placeholders.ExpandEmptyRow | src/main/java/com/epam/reportportal/jbehave/JBehaveUtils.java:414-428 | with an empty row the name is kept and no parameter is recorded |
| Placeholders.KnownParametersFromRow | src/main/java/com/epam/reportportal/jbehave/JBehaveUtils.java:419-423 | every recorded parameter is a key of the row with that key's value, at most one per match |
| Lifecycle.StartItem | src/main/java/com/epam/reportportal/jbehave/JBehaveUtils.java:145-150 | starting an item logs one start call with the next handle and changes nothing else; in a fresh state no item started before has that handle, and the state stays fresh |
| Lifecycle.StartStory | src/main/java/com/epam/reportportal/jbehave/JBehaveUtils.java:118-157 | specification of startStory; its properties are Lifecycle.GivenStoryRoundTrip, Lifecycle.TopStoryRoundTrip and Lifecycle.StartStoryKeepsFresh |
| Lifecycle.StoryRequest | src/main/java/com/epam/reportportal/jbehave/JBehaveUtils.java:120-133 | specification of the story request; its property is Lifecycle.StoryDescription |
| Lifecycle.FinishStory | src/main/java/com/epam/reportportal/jbehave/JBehaveUtils.java:162-182 | specification of finishStory; its properties are Lifecycle.FinishStoryWithoutId and the round trips |
| Lifecycle.StepRequest | src/main/java/com/epam/reportportal/jbehave/JBehaveUtils.java:193-210 | specification of the step request; its property is Lifecycle.StepRequestShape |
| Lifecycle.StartStep | src/main/java/com/epam/reportportal/jbehave/JBehaveUtils.java:189-216 | specification of startStep; its properties are Lifecycle.StartStepEffect and Lifecycle.StartedStepIsUnique |
| Lifecycle.FinishStep | src/main/java/com/epam/reportportal/jbehave/JBehaveUtils.java:223-244 | specification of finishStep; its property is Lifecycle.FinishStepEffect |
| Lifecycle.StartScenario | src/main/java/com/epam/reportportal/jbehave/JBehaveUtils.java:251-266 | specification of the corrected startScenario; its properties are Lifecycle.StartScenarioEffect and Lifecycle.ScenarioNamedAfterMeta |
| Lifecycle.StartScenarioAsWritten | src/main/java/com/epam/reportportal/jbehave/JBehaveUtils.java:258-260 | startScenario as written, failing on a title that names a meta key; its properties are Lifecycle.ScenarioTitleWithMetaKey and Lifecycle.ScenarioAsWrittenAgrees |
| Lifecycle.FinishScenario | src/main/java/com/epam/reportportal/jbehave/JBehaveUtils.java:271-294 | specification of finishScenario; its property is Lifecycle.FinishScenarioEffect |
| Lifecycle.MakeSureAllItemsFinished | src/main/java/com/epam/reportportal/jbehave/JBehaveUtils.java:301-312 | specification of makeSureAllItemsFinished; its property is Lifecycle.FinishAllInOrder |
| Lifecycle.GivenStoryRoundTrip | src/main/java/com/epam/reportportal/jbehave/JBehaveUtils.java:138-157 | a given story starts under the open scenario, else the story, in a new record whose parent is the old one; finishing it restores the old record after one start and one PASSED finish |
| Lifecycle.TopStoryRoundTrip | src/main/java/com/epam/reportportal/jbehave/JBehaveUtils.java:148-157 | a top-level story starts at the launch root in the same record; finishing it clears only its id and keeps its meta |
| Lifecycle.FinishStoryWithoutId | src/main/java/com/epam/reportportal/jbehave/JBehaveUtils.java:162-182 | without a story id finishStory returns the state unchanged; a second finish of a top-level story is a no-op |
| Lifecycle.StoryDescription | src/main/java/com/epam/reportportal/jbehave/JBehaveUtils.java:128-131 | the description is set exactly when the story's own is null or empty, and is then a newline and the meta text, after "null" for a null one; the name is normalised |
| Lifecycle.IssueFor | src/main/java/com/epam/reportportal/jbehave/JBehaveUtils.java:235-239 | NOT_ISSUE is attached exactly to a SKIPPED finish when skipped steps are not issues |
| Lifecycle.FinishStepEffect | src/main/java/com/epam/reportportal/jbehave/JBehaveUtils.java:223-244 | without a step nothing happens; otherwise one finish of that step with the issue rule, and the step is cleared, so a second finish is a no-op |
| Lifecycle.FinishScenarioEffect | src/main/java/com/epam/reportportal/jbehave/JBehaveUtils.java:271-287 | without a scenario nothing happens; otherwise one finish with the status and the scenario is cleared |
| Lifecycle.StartStepEffect | src/main/java/com/epam/reportportal/jbehave/JBehaveUtils.java:189-216 | a step starts under the current scenario and becomes the current step |
| Lifecycle.StepRequestShape | src/main/java/com/epam/reportportal/jbehave/JBehaveUtils.java:193-206 | an examples step is named "[index] " plus its substituted name and carries the parameters; any other step keeps its name and is described by both metas |
| Lifecycle.FinishAllInOrder | src/main/java/com/epam/reportportal/jbehave/JBehaveUtils.java:301-312 | one finish per cached item, in cache order |
| Lifecycle.ScenarioTitleWithMetaKey | src/main/java/com/epam/reportportal/jbehave/JBehaveUtils.java:258-260 | a title "<k>" with k a meta key makes startScenario as written throw, while the corrected one names the scenario after k's value |
| Lifecycle.ScenarioAsWrittenAgrees | src/main/java/com/epam/reportportal/jbehave/JBehaveUtils.java:258-260 | a title with no placeholder naming a meta key: both versions agree and the name is the title |
| Lifecycle.ScenarioNamedAfterMeta | src/main/java/com/epam/reportportal/jbehave/JBehaveUtils.java:258-260 | corrected startScenario, title "<k>" with k a meta key: one scenario start under the story, named after k's merged meta value |
| Lifecycle.StartScenarioEffect | src/main/java/com/epam/reportportal/jbehave/JBehaveUtils.java:251-266 | the corrected startScenario: a scenario starts under the current story, described by both metas, and becomes the current scenario (as written, a title naming a meta key throws instead) |
| Lifecycle.FreshAppend | src/main/java/com/epam/reportportal/jbehave/JBehaveUtils.java:175-175 | finish and log calls keep the handles fresh |
| Lifecycle.FreshRecord | src/main/java/com/epam/reportportal/jbehave/JBehaveUtils.java:118-312 | freshness depends only on the call log and the counter |
| Lifecycle.StartStoryKeepsFresh | src/main/java/com/epam/reportportal/jbehave/JBehaveUtils.java:118-157 | startStory keeps the handles fresh |
| Lifecycle.FinishStoryKeepsFresh | src/main/java/com/epam/reportportal/jbehave/JBehaveUtils.java:162-182 | finishStory keeps the handles fresh |
| Lifecycle.StartStepKeepsFresh | src/main/java/com/epam/reportportal/jbehave/JBehaveUtils.java:189-216 | startStep keeps the handles fresh |
| Lifecycle.FinishStepKeepsFresh | src/main/java/com/epam/reportportal/jbehave/JBehaveUtils.java:223-244 | finishStep keeps the handles fresh |
| Lifecycle.StartScenarioKeepsFresh | src/main/java/com/epam/reportportal/jbehave/JBehaveUtils.java:251-266 | startScenario keeps the handles fresh |
| Lifecycle.FinishScenarioKeepsFresh | src/main/java/com/epam/reportportal/jbehave/JBehaveUtils.java:271-287 | finishScenario keeps the handles fresh |
| Lifecycle.MakeSureAllItemsFinishedKeepsFresh | src/main/java/com/epam/reportportal/jbehave/JBehaveUtils.java:301-312 | makeSureAllItemsFinished keeps the handles fresh |
| Lifecycle.StartedStepIsUnique | src/main/java/com/epam/reportportal/jbehave/JBehaveUtils.java:213-214 | in a fresh state the step just started is the only item ever started with its handle, which becomes the current step |
| CallLog.CellsIsProduct | src/main/java/com/epam/reportportal/jbehave/ReportPortalStoryReporter.java:122-127 | the step count of the table fan-out is rows times steps |
| CallLog.SkippedPairsLength | src/main/java/com/epam/reportportal/jbehave/ReportPortalStoryReporter.java:129-131 | skipping steps one by one sends two calls per step |
| CallLog.SkippedPairAt | src/main/java/com/epam/reportportal/jbehave/ReportPortalStoryReporter.java:136-139 | step s is started at call 2s and finished SKIPPED at call 2s + 1, handles consecutive |
| CallLog.RowPairsLength | src/main/java/com/epam/reportportal/jbehave/ReportPortalStoryReporter.java:122-127 | the rows' skipped steps send two calls per row and step |
| CallLog.FanOutAt | src/main/java/com/epam/reportportal/jbehave/ReportPortalStoryReporter.java:122-127 | rows fan out in row-major order: step s of row r occupies calls 2(r·width + s) and the next |
| CallLog.FanOutInLog | src/main/java/com/epam/reportportal/jbehave/ReportPortalStoryReporter.java:122-127 | in a log that continues with the rows' calls, step s of row r is started and finished SKIPPED at that offset past the earlier calls |
| Handlers.BeforeScenario | src/main/java/com/epam/reportportal/jbehave/ReportPortalStoryReporter.java:55-59 | specification of beforeScenario (with the corrected startScenario); its property is Handlers.BeforeScenarioSeesMeta |
| Handlers.BeforeExamples | src/main/java/com/epam/reportportal/jbehave/ReportPortalStoryReporter.java:76-79 | specification of beforeExamples; its property is Handlers.ExamplesHooks |
| Handlers.AfterExamples | src/main/java/com/epam/reportportal/jbehave/ReportPortalStoryReporter.java:81-84 | specification of afterExamples; its property is Handlers.ExamplesHooks |
| Handlers.SelectRow | src/main/java/com/epam/reportportal/jbehave/ReportPortalStoryReporter.java:123-123 | specification of selecting example row i; its property is Handlers.SimulateRowsEffect |
| Handlers.Example | src/main/java/com/epam/reportportal/jbehave/ReportPortalStoryReporter.java:71-74 | specification of example(row, index); its property is Handlers.ExamplesHooks |
| Handlers.SkipStep | src/main/java/com/epam/reportportal/jbehave/ReportPortalStoryReporter.java:91-105 | specification of ignorable and notPerformed; its property is Handlers.SkipStepEffect |
| Handlers.StepFailed | src/main/java/com/epam/reportportal/jbehave/ReportPortalStoryReporter.java:107-111 | specification of failed; its property is Handlers.StepFailedEffect |
| Handlers.SimulateStep | src/main/java/com/epam/reportportal/jbehave/ReportPortalStoryReporter.java:136-139 | specification of simulateStep; its property is Handlers.SimulateStepEffect |
| Handlers.SimulateSteps | src/main/java/com/epam/reportportal/jbehave/ReportPortalStoryReporter.java:129-131 | specification of the loop over the steps; its property is Handlers.SimulateStepsEffect |
| Handlers.SimulateRows | src/main/java/com/epam/reportportal/jbehave/ReportPortalStoryReporter.java:122-127 | specification of the loop over the rows; its property is Handlers.SimulateRowsEffect |
| Handlers.ScenarioNotAllowed | src/main/java/com/epam/reportportal/jbehave/ReportPortalStoryReporter.java:118-134 | specification of scenarioNotAllowed; its properties are Handlers.ScenarioNotAllowedWithExamples, Handlers.ScenarioNotAllowedWithoutExamples and Handlers.ScenarioNotAllowedCount |
| Handlers.SimulateStepEffect | src/main/java/com/epam/reportportal/jbehave/ReportPortalStoryReporter.java:136-139 | a simulated step is always a new step, started under the scenario and finished at once, leaving no step open |
| Handlers.SkipStepEffect | src/main/java/com/epam/reportportal/jbehave/ReportPortalStoryReporter.java:91-105 | ignorable and notPerformed finish an open step SKIPPED without starting one; otherwise start and finish a new one |
| Handlers.StepFailedEffect | src/main/java/com/epam/reportportal/jbehave/ReportPortalStoryReporter.java:107-111 | failed uploads the cause first, then finishes the open step FAILED with no issue |
| Handlers.BeforeScenarioSeesMeta | src/main/java/com/epam/reportportal/jbehave/ReportPortalStoryReporter.java:55-59 | the scenario meta is recorded before the start, so the scenario's name and description use it |
| Handlers.ExamplesHooks | src/main/java/com/epam/reportportal/jbehave/ReportPortalStoryReporter.java:71-84 | example fails without examples and otherwise only sets the index; beforeExamples installs row 0; afterExamples clears them |
| Handlers.StepRequests | src/main/java/com/epam/reportportal/jbehave/ReportPortalStoryReporter.java:124-126 | one request per step |
| Handlers.RowRequests | src/main/java/com/epam/reportportal/jbehave/ReportPortalStoryReporter.java:122-127 | one run of requests per row |
| Handlers.StepRequestsIgnoreStep | src/main/java/com/epam/reportportal/jbehave/JBehaveUtils.java:189-216 | the step requests do not depend on which step is open |
| Handlers.SimulateStepsEffect | src/main/java/com/epam/reportportal/jbehave/ReportPortalStoryReporter.java:129-131 | skipping steps one by one starts and finishes each in order with consecutive handles and leaves no step open |
| Handlers.RowRequestAt | src/main/java/com/epam/reportportal/jbehave/ReportPortalStoryReporter.java:123-126 | row r's request for step s is built with the examples at row r |
| Handlers.SimulateRowsEffect | src/main/java/com/epam/reportportal/jbehave/ReportPortalStoryReporter.java:122-127 | running n rows selects each row in turn and skips every step in it, row after row; the index ends at n - 1 |
| Handlers.ScenarioNotAllowedWithExamples | src/main/java/com/epam/reportportal/jbehave/ReportPortalStoryReporter.java:119-133 | with a non-empty table: rows × steps skipped steps in row-major order, then the scenario finished SKIPPED and cleared, the examples left at the last row |
| Handlers.ScenarioNotAllowedWithoutExamples | src/main/java/com/epam/reportportal/jbehave/ReportPortalStoryReporter.java:128-133 | without a table (or an empty one): each step skipped once in order, then the scenario finished SKIPPED and cleared |
| Handlers.ScenarioNotAllowedCount | src/main/java/com/epam/reportportal/jbehave/ReportPortalStoryReporter.java:120-133 | with a table: rows × steps steps started, two calls each, plus the scenario's finish |
| Handlers.BeforeScenarioKeepsFresh | src/main/java/com/epam/reportportal/jbehave/ReportPortalStoryReporter.java:55-59 | beforeScenario keeps the handles fresh |
| Handlers.ExamplesHooksKeepFresh | src/main/java/com/epam/reportportal/jbehave/ReportPortalStoryReporter.java:71-84 | the examples hooks keep the handles fresh |
| Handlers.SimulateStepKeepsFresh | src/main/java/com/epam/reportportal/jbehave/ReportPortalStoryReporter.java:136-139 | a simulated step keeps the handles fresh |
| Handlers.SkipAndFailKeepFresh | src/main/java/com/epam/reportportal/jbehave/ReportPortalStoryReporter.java:91-111 | ignorable, notPerformed and failed keep the handles fresh |
| Handlers.SimulateStepsKeepFresh | src/main/java/com/epam/reportportal/jbehave/ReportPortalStoryReporter.java:129-131 | skipping the steps keeps the handles fresh |
| Handlers.SimulateRowsKeepFresh | src/main/java/com/epam/reportportal/jbehave/ReportPortalStoryReporter.java:122-127 | running the rows keeps the handles fresh |
| Handlers.ScenarioNotAllowedKeepsFresh | src/main/java/com/epam/reportportal/jbehave/ReportPortalStoryReporter.java:118-134 | scenarioNotAllowed keeps the handles fresh |
| Bridge.Context.constructor | src/main/java/com/epam/reportportal/jbehave/JBehaveUtils.java:118-157 | a fresh context: empty story record, no outer stories, nothing sent, handles fresh |
| Bridge.Context.StartTestItem | src/main/java/com/epam/reportportal/jbehave/JBehaveUtils.java:145-150 | returns the next handle and logs the start; in a fresh state that handle differs from every handle started before, and the state stays fresh |
| Bridge.Context.FinishTestItem | src/main/java/com/epam/reportportal/jbehave/JBehaveUtils.java:175-175 | only logs the finish |
| Bridge.Context.SendStackTrace | src/main/java/com/epam/reportportal/jbehave/ReportPortalStoryReporter.java:109-109 | only logs the error |
| Bridge.Context.StartStory | src/main/java/com/epam/reportportal/jbehave/JBehaveUtils.java:118-157 | moves the state exactly as Lifecycle.StartStory |
| Bridge.Context.FinishStory | src/main/java/com/epam/reportportal/jbehave/JBehaveUtils.java:162-182 | moves the state exactly as Lifecycle.FinishStory |
| Bridge.Context.StartStep | src/main/java/com/epam/reportportal/jbehave/JBehaveUtils.java:189-216 | moves the state exactly as Lifecycle.StartStep |
| Bridge.Context.FinishStep | src/main/java/com/epam/reportportal/jbehave/JBehaveUtils.java:223-244 | moves the state exactly as Lifecycle.FinishStep |
| Bridge.Context.StartScenario | src/main/java/com/epam/reportportal/jbehave/JBehaveUtils.java:251-266 | moves the state exactly as the corrected Lifecycle.StartScenario |
| Bridge.Context.FinishScenario | src/main/java/com/epam/reportportal/jbehave/JBehaveUtils.java:271-294 | moves the state exactly as Lifecycle.FinishScenario |
| Bridge.Context.MakeSureAllItemsFinished | src/main/java/com/epam/reportportal/jbehave/JBehaveUtils.java:301-312 | the polling loop finishes every cached item in order and drains the cache |
| StoryReporter.StoryCancelled | src/main/java/com/epam/reportportal/jbehave/ReportPortalStoryReporter.java:40-43 | finishes the story |
| StoryReporter.BeforeStory | src/main/java/com/epam/reportportal/jbehave/ReportPortalStoryReporter.java:45-48 | starts the story |
| StoryReporter.AfterStory | src/main/java/com/epam/reportportal/jbehave/ReportPortalStoryReporter.java:50-53 | finishes the story, given or not |
| StoryReporter.BeforeScenario | src/main/java/com/epam/reportportal/jbehave/ReportPortalStoryReporter.java:55-59 | moves the state exactly as Handlers.BeforeScenario |
| StoryReporter.AfterScenario | src/main/java/com/epam/reportportal/jbehave/ReportPortalStoryReporter.java:61-64 | finishes the scenario PASSED |
| StoryReporter.BeforeStep | src/main/java/com/epam/reportportal/jbehave/ReportPortalStoryReporter.java:66-69 | starts the step |
| StoryReporter.Example | src/main/java/com/epam/reportportal/jbehave/ReportPortalStoryReporter.java:71-74 | agrees with Handlers.Example; a failed call changes nothing |
| StoryReporter.BeforeExamples | src/main/java/com/epam/reportportal/jbehave/ReportPortalStoryReporter.java:76-79 | moves the state exactly as Handlers.BeforeExamples |
| StoryReporter.AfterExamples | src/main/java/com/epam/reportportal/jbehave/ReportPortalStoryReporter.java:81-84 | moves the state exactly as Handlers.AfterExamples |
| StoryReporter.Successful | src/main/java/com/epam/reportportal/jbehave/ReportPortalStoryReporter.java:86-89 | finishes the step PASSED |
| StoryReporter.Ignorable | src/main/java/com/epam/reportportal/jbehave/ReportPortalStoryReporter.java:91-97 | moves the state exactly as Handlers.SkipStep |
| StoryReporter.NotPerformed | src/main/java/com/epam/reportportal/jbehave/ReportPortalStoryReporter.java:99-105 | moves the state exactly as Handlers.SkipStep |
| StoryReporter.Failed | src/main/java/com/epam/reportportal/jbehave/ReportPortalStoryReporter.java:107-111 | moves the state exactly as Handlers.StepFailed |
| StoryReporter.Pending | src/main/java/com/epam/reportportal/jbehave/ReportPortalStoryReporter.java:113-116 | simulates the step as SKIPPED |
| StoryReporter.SelectExample | src/main/java/com/epam/reportportal/jbehave/ReportPortalStoryReporter.java:123-123 | selects row i of the examples, if any |
| StoryReporter.ScenarioNotAllowed | src/main/java/com/epam/reportportal/jbehave/ReportPortalStoryReporter.java:118-134 | the nested loops move the state exactly as Handlers.ScenarioNotAllowed |
| StoryReporter.SimulateAll | src/main/java/com/epam/reportportal/jbehave/ReportPortalStoryReporter.java:124-126 | the loop over the steps moves the state exactly as Handlers.SimulateSteps |
| StoryReporter.SimulateStep | src/main/java/com/epam/reportportal/jbehave/ReportPortalStoryReporter.java:136-139 | moves the state exactly as Handlers.SimulateStep |

## Left out

- Timestamps, debug logging, the launch supplier, `finishLaunch` and the reading of the skipped-issue launch attribute: the launch parameter is a constant of the context.
- Backend failures: the backend never throws, so the `try`/`finally` of `finishScenario` has no visible effect here.
- `HashMap` iteration order: a meta's text lists its properties in the meta's own order, not in the hash map's order.
- `appendReplacement` gives `$` and `\` in a replacement value a special meaning; the model inserts values literally.
- Text.ToLower: lower-cases ASCII letters only and ignores the default locale, whereas `toLowerCase` follows it; under a Turkish locale "JIRA" lower-cases to "jıra", so such a link value does not mention jira in Java but does in the model.
- Text.NormalizeName: lengths count Unicode scalar values, whereas Java counts UTF-16 code units; a name of more than 256 units made of characters outside the Basic Multilingual Plane can be kept whole here while Java cuts it at 255 units, possibly through a surrogate pair.
- A null `skippedAnIssue` launch parameter (an unboxing failure) is not modelled.
- `finishStep()` (no argument), `sendStackTraceToRP` and the one-argument `example(row)` are not in the files of this model; they are taken to finish PASSED, to upload the cause as one error log, and to select row i of the table.
- `JBehaveContext` and its `Examples` are not part of this model: `hasStep` is membership in the step list, the current index starts at 0, a row past the table has no values, and the index printed is the current index. The index is a `nat`, so a negative index is not modelled.
- The code that fills the items cache is not part of this model: the cache is a given sequence that `makeSureAllItemsFinished` drains.
- The parent chain of story records is a stack of values, so aliasing between records is not modelled.
- `ReportPortalFormat` is not part of this model.
- Code references, test-case ids, example-row items and status folding belong to a newer agent and are absent from this code.
- Handlers.BeforeScenario: runs the corrected startScenario (see Findings); as written, a title naming a meta key throws and starts nothing, which Lifecycle.StartScenarioAsWritten models.
- StoryReporter.BeforeScenario: runs the corrected startScenario, as Handlers.BeforeScenario does.
- Bridge.Context.StartScenario: the corrected startScenario, as Handlers.BeforeScenario does.
- Lifecycle.StartScenarioEffect: states the corrected startScenario for every title.
- StoryReporter.ScenarioNotAllowed: the inner loop over the steps is the separate method `SimulateAll`.

## Findings

| source | as written | input that shows it | evidently intended | confidence | as-written member | corrected member |
|---|---|---|---|---|---|---|
| src/main/java/com/epam/reportportal/jbehave/JBehaveUtils.java:258-260 | `startScenario` passes the immutable `Collections.emptyList()` as the parameter list that `expandParameters` appends to | scenario title `<ticker>` with scenario meta `ticker=ABC`: the append throws `UnsupportedOperationException` and no scenario is started | the scenario is named `ABC`, the meta value, and the collected parameters are discarded | not executed | Lifecycle.ScenarioTitleWithMetaKey | Lifecycle.ScenarioNamedAfterMeta |
