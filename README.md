# ralph: a verified model of the implementation loop

ralph drives an AI coding agent through a feature, one requirement at a time.
The feature is described by a PRD, a product requirements document: a list of
requirements, each with an id, a title, acceptance criteria and a status
(`todo`, `in_progress`, `done`, `blocked`).

The `implement` command works in iterations. Each iteration:

- picks the first requirement that is still open;
- numbers the iteration one past the latest iteration in the append-only ledger;
- logs a `Started` event;
- builds a prompt, feeding back the requirement's last validation failure, cut to 2000 characters;
- asks the implementer agent to do the work;
- runs the validation profile's stages (fmt, lint, typecheck, and every fifth iteration the tests too), stopping at the first failing command;
- records the final status in the PRD and a `Done` or `Failed` event, carrying a summary of the failed stage's output, in the ledger.

In loop mode it repeats until nothing is open or `max_iterations` is reached.

Around the loop there are four smaller parts:

- the `commit-msg` hook, which rejects a commit message that references no `REQ-<digits>` id;
- the `plan` command, which creates the initial PRD and rewrites the markdown PRD while keeping its planning-log section;
- the markdown PRD's marker-delimited sections (`<!-- RALPH:BEGIN X -->` … `<!-- RALPH:END X -->`);
- the `status` command's progress counts and icons.

## How the model is organised

There is one Dafny module per source file, plus two support modules.

| module | source | form |
|---|---|---|
| `Common` | support | an `Option` datatype and one lemma about sequence concatenation |
| `Text` | support | the Rust string operations the code calls: `find`, `contains`, `trim`, `lines`, `join`, and decimal formatting |
| `Prd` | `crates/ralph-lib/src/prd.rs` | datatypes, plus the classes `Prd` and `MarkdownPrd` |
| `Ledger` | `crates/ralph-lib/src/ledger.rs` | event datatypes and queries, plus the class `Ledger` over a `seq` of events |
| `Validation` | `crates/ralph-lib/src/validation.rs` | stage and profile functions, plus the loop methods `RunStage` and `RunAll` |
| `Implement` | `crates/ralph-cli/src/commands/implement.rs` | the methods `Run`, `RunSingleIteration`, `GeneratePrompt` and `SmartTruncate`, each proved against a specification function |
| `Hook` | `crates/ralph-cli/src/commands/hook.rs` | pure |
| `Plan` | `crates/ralph-cli/src/commands/plan.rs` | pure, apart from the allocation of the new PRD |
| `Status` | `crates/ralph-cli/src/commands/status.rs` | pure |

The source updates the PRD, the markdown PRD and the ledger in place, so each is a class.

- `Prd.Prd.UpdateRequirementStatus`, `Prd.MarkdownPrd.AppendToSection` and `Ledger.Ledger.Append` change exactly the fields they name.
- `Implement.RunSingleIteration`, `Implement.Loop` and `Implement.Run` modify the PRD's requirements and the ledger.
- `Implement.Loop` keeps the source's counter and `break`s. Its invariant says that the remaining budget of `RunLoop` from the current state ends where the whole run ends.
- Each method's postcondition ties the new state to a specification function of the old state:
  - `Implement.Iteration` for one iteration;
  - `Implement.RunSpec` for the whole `run`.
- The loop's properties are proved about those functions.

Everything the code gets from outside is a parameter:

- the agent processes: the implementer and the summarizer;
- the shell that runs validation commands;
- the clock;
- the file-existence test used to detect profiles;
- in the hook, the set of known requirement ids.

A `World` bundles the oracles of the loop. Each oracle is indexed by the iteration number, so every iteration may see different answers.

Three choices in the model go beyond what the source shows:

- **Ledger queries.** In the revision of `ledger.rs` modelled here the file defines only the types, `new` and `events`. `implement.rs` and the benchmarks call `latest_iteration`, `get_last_validation_failure`, `events_for_requirement` and `is_requirement_failed`. The model defines them outright, in the form their call sites (`implement.rs:169`, `:189`, `:241` and `:280`, and `benches/benchmarks.rs:57-86`) rely on: the largest iteration or 0, the requirement's events in order, whether its most recent event is `Failed`, and the message of its most recent outcome event when that validation failed.
  - `Ledger.IsRequirementFailed` holds exactly when the requirement's most recent event is `Failed`, so a later `Done` or `Started` event clears it.
  - `Ledger.LastValidationFailure` looks at the requirement's most recent event that carries a validation result. It gives that event's message when the recorded validation failed.
  - The `Started` event that `run_single_iteration` logs just before building the prompt therefore does not hide the previous failure. `Ledger.NonOutcomeKeepsQueries` proves this.
- **Event message.** `LedgerEvent` gains a `message` field, which `with_validation_output` fills in (`implement.rs:236-239`). In the revision modelled here the struct declares only the first five fields.
- **Section slicing.** `get_section` slices the content between the first BEGIN and the first END marker. Rust panics when that END starts inside that BEGIN. `Section` therefore requires `SectionSliceOk`, the condition under which it does not panic. For every marker name without `<` or a line feed the condition always holds (`Prd.PlainMarkerSliceOk`).

A consequence worth knowing: `smart_truncate_validation_output` keeps `min(15, n/2)` head lines and `min(10, n/2)` tail lines. An over-long output that is a single line therefore keeps none of its text, only the note `... (1 lines omitted) ...` (`Implement.SingleLineDropped`). The source's own comment says it keeps the first and last lines "to preserve context and final errors", so this is probably not what the authors meant. The model keeps the code's behaviour and states the case.

## Model

| member | source | states |
|---|---|---|
| `Text.Find` | crates/ralph-lib/src/prd.rs:236-237 | `str::find`: the index returned is an occurrence, none occurs before it, and `None` exactly when the pattern does not occur |
| `Text.TrimIsTrimmed` | crates/ralph-lib/src/prd.rs:242 | what `trim` returns neither starts nor ends with whitespace |
| `Text.TrimIgnoresPadding` | crates/ralph-lib/src/prd.rs:242 | whitespace added around a text does not change what `trim` returns |
| `Text.TrimIsSlice` | crates/ralph-lib/src/prd.rs:242 | `trim` returns a contiguous slice of its input |
| `Text.Lines` | crates/ralph-cli/src/commands/implement.rs:314 | `str::lines`: no lines exactly for the empty text, and no line contains a line feed |
| `Text.JoinLinesOfLines` | crates/ralph-cli/src/commands/implement.rs:314-340 | for text without carriage returns, re-emitting every line followed by a newline gives the text back, newline-terminated |
| `Text.ParseNatToString` | crates/ralph-cli/src/commands/implement.rs:288-291 | the decimal text of a count reads back as that count |
| `Prd.StatusToWire` | crates/ralph-lib/src/prd.rs:9-17 | each status is written as its wire string, which decodes back to the same status |
| `Prd.StatusFromWire` | crates/ralph-lib/src/prd.rs:9-17 | exactly `todo`, `in_progress`, `done`, `blocked` are accepted |
| `Prd.StatusWireInverse` | crates/ralph-lib/src/prd.rs:323-340 | every accepted wire string is the encoding of the status it decodes to |
| `Prd.FindById` | crates/ralph-lib/src/prd.rs:154 | `iter().find` by id: the first requirement with that id, and `None` exactly when no requirement has it |
| `Prd.WithStatus` | crates/ralph-lib/src/prd.rs:153-160 | the first requirement with the id gets the new status; every id, title, criterion and other status is unchanged; with no match the list is unchanged |
| `Prd.WithStatusTwice` | crates/ralph-lib/src/prd.rs:153-160 | a second status update of the same id overrides the first |
| `Prd.WithStatusAt` | crates/ralph-lib/src/prd.rs:154-155 | with unique ids, updating requirement `k`'s id updates exactly requirement `k` |
| `Prd.Prd.constructor` | crates/ralph-lib/src/prd.rs:36-49 | a PRD holds the six fields given |
| `Prd.Prd.UpdateRequirementStatus` | crates/ralph-lib/src/prd.rs:153-160 | returns true exactly when some requirement has the id; the requirements become `WithStatus(old, id, status)`; only the requirement list is modified |
| `Prd.WriteRequirement` | crates/ralph-lib/src/prd.rs:135-147 | the loop body of `to_markdown` appends the requirement's block (heading, criteria bullets, blank line) |
| `Prd.Prd.ToMarkdown` | crates/ralph-lib/src/prd.rs:122-150 | the loop produces the preamble followed by every requirement's block, in order |
| `Prd.Markdown` | crates/ralph-lib/src/prd.rs:122-150 | the rendered PRD; `BlocksContainEach` and `MarkdownContainsEveryRequirement` state that every requirement appears in it |
| `Prd.BlocksContainEach` | crates/ralph-lib/src/prd.rs:135-148 | every requirement's block occurs in the rendered requirement list |
| `Prd.MarkdownContainsEveryRequirement` | crates/ralph-lib/src/prd.rs:468-473 | the rendered markdown contains every requirement's id, preceded by its status icon |
| `Prd.Section` | crates/ralph-lib/src/prd.rs:232-246 | `get_section` gives a value exactly when both markers are found and the first BEGIN precedes the first END |
| `Prd.PlainMarkerSliceOk` | crates/ralph-lib/src/prd.rs:239-241 | for a marker name without `<` or a line feed the slice never panics |
| `Prd.SectionHasNoEnd` | crates/ralph-lib/src/prd.rs:236-242 | a section's text never contains its END marker |
| `Prd.MarkdownPrd.constructor` | crates/ralph-lib/src/prd.rs:220-222 | the markdown PRD holds the given content |
| `Prd.MarkdownPrd.GetSection` | crates/ralph-lib/src/prd.rs:232-246 | reads the section of the current content |
| `Prd.AppendedToSection` | crates/ralph-lib/src/prd.rs:249-268 | the result is longer than the content. With an END marker: the prefix before it is kept, then a newline only if that prefix lacks one, the text and a newline, then the rest. Without one: the content followed by a new section |
| `Prd.MarkdownPrd.AppendToSection` | crates/ralph-lib/src/prd.rs:249-268 | the content becomes `AppendedToSection(old content, marker, text)` |
| `Prd.AppendCreatesSection` | crates/ralph-lib/src/prd.rs:265-267 | appending to a missing section creates it, and reading it back gives the trimmed text |
| `Prd.AppendExtendsSection` | crates/ralph-lib/src/prd.rs:254-264 | appending to an existing section keeps its old text and adds the new text at its end |
| `Prd.LogBody` | crates/ralph-lib/src/prd.rs:176-181 | the log is written as given, followed by one newline exactly when it does not already end in one (so its length grows by 0 or 1, and the body ends in a newline); no log writes nothing |
| `Prd.MarkersHeaderShape` | crates/ralph-lib/src/prd.rs:167-172 | the header before the planning-log section holds no `<` and ends with a newline |
| `Prd.MarkersLayout` | crates/ralph-lib/src/prd.rs:174-182 | the planning-log section of `to_markdown_with_markers` reads back as the trimmed section body it wrote |
| `Prd.Prd.ToMarkdownWithMarkers` | crates/ralph-lib/src/prd.rs:164-185 | the header, then the planning-log section; `MarkersLayout` and `MarkersRoundTrip` state that the log reads back from it |
| `Prd.MarkersRoundTrip` | crates/ralph-lib/src/prd.rs:164-185 | reading the planning log back from `to_markdown_with_markers` gives the trimmed log, or the empty text when there was none |
| `Ledger.EventStatusToWire` | crates/ralph-lib/src/ledger.rs:8-15 | each event status is written as `started`, `in_progress`, `done` or `failed`, which decodes back to it |
| `Ledger.EventStatusFromWire` | crates/ralph-lib/src/ledger.rs:8-15 | exactly the four snake_case strings are accepted |
| `Ledger.EventStatusWireInverse` | crates/ralph-lib/src/ledger.rs:8-15 | every accepted wire string is the encoding of the status it decodes to |
| `Ledger.NewEvent` | crates/ralph-cli/src/commands/implement.rs:189 | the event holds the given iteration, requirement and status, and serializes only the four required keys |
| `Ledger.WithValidation` | crates/ralph-cli/src/commands/implement.rs:235 | records the verdict, so `validationPassed` is serialized, and leaves every other field unchanged |
| `Ledger.WithValidationOutput` | crates/ralph-cli/src/commands/implement.rs:236-239 | attaches the message, so `message` is serialized, and leaves every other field unchanged |
| `Ledger.SerializedKeys` | crates/ralph-lib/src/ledger.rs:18-32 | the serialized keys start with the four camelCase field names; `validationPassed` is present exactly when there is a validation result, and `message` exactly when there is a message |
| `Ledger.SerializedKeysOfBuilders` | crates/ralph-cli/src/commands/implement.rs:189-239 | the `Started` event serializes four keys, the outcome event adds `validationPassed`, and a failed one adds `message` after it |
| `Ledger.MaxIteration` | crates/ralph-cli/src/commands/implement.rs:169 | `latest_iteration`: no event has a larger iteration, and the value is 0 or some event's iteration |
| `Ledger.NextIterationIsLatest` | crates/ralph-lib/src/ledger.rs:23-24 | the next iteration number is at least 1, and an event carrying it becomes the latest |
| `Ledger.SameIterationKeepsLatest` | crates/ralph-cli/src/commands/implement.rs:234-241 | a second event of the latest iteration leaves the latest iteration unchanged |
| `Ledger.EventsFor` | crates/ralph-lib/benches/benchmarks.rs:81-83 | `events_for_requirement`: exactly the ledger's events for that requirement |
| `Ledger.EventsForAppend` | crates/ralph-lib/benches/benchmarks.rs:57-62 | appending an event extends a requirement's history by that event, or leaves it as it was |
| `Ledger.LastOutcome` | crates/ralph-cli/src/commands/implement.rs:280 | the most recent event for the requirement that carries a validation result; `None` exactly when there is none |
| `Ledger.LastValidationFailure` | crates/ralph-cli/src/commands/implement.rs:280 | a failure is reported only as the message of the requirement's latest event with a validation result, when that validation failed; with no such event there is none |
| `Ledger.LastEventFor` | crates/ralph-lib/benches/benchmarks.rs:85-86 | the index of the requirement's most recent event; `None` exactly when it has no event |
| `Ledger.IsRequirementFailed` | crates/ralph-lib/benches/benchmarks.rs:85-86 | true exactly when some event of the requirement is `Failed` and no later event belongs to it |
| `Ledger.LatestEventDecidesFailed` | crates/ralph-lib/benches/benchmarks.rs:85-86 | after an event for the requirement, the failed flag is exactly whether that event is `Failed`, so a later `Done` clears it; a requirement with no events is not failed |
| `Ledger.NonOutcomeKeepsQueries` | crates/ralph-cli/src/commands/implement.rs:189-192 | an event without a validation result (the `Started` event) does not change the requirement's last validation failure |
| `Ledger.OutcomeDecidesQueries` | crates/ralph-cli/src/commands/implement.rs:234-241 | after an outcome event, the last failure is its message when it failed validation, and the requirement counts as failed exactly when its status is `Failed` |
| `Ledger.OtherRequirementKeepsQueries` | crates/ralph-lib/benches/benchmarks.rs:85-86 | events of other requirements do not change a requirement's queries |
| `Ledger.LatestIsLast` | crates/ralph-lib/src/ledger.rs:23-24 | in a ledger whose iterations never decrease, the latest iteration is the last event's |
| `Ledger.AppendKeepsNonDecreasing` | crates/ralph-lib/src/ledger.rs:34-38 | appending at or after the latest iteration keeps iterations non-decreasing |
| `Ledger.Ledger.constructor` | crates/ralph-lib/src/ledger.rs:42-44 | a new ledger has no events |
| `Ledger.Ledger.Events` | crates/ralph-lib/src/ledger.rs:47-49 | returns the stored events unchanged and in order |
| `Ledger.Ledger.LatestIteration` | crates/ralph-cli/src/commands/implement.rs:169 | `latest_iteration` of the stored events: no event has a larger iteration, and it is 0 or some event's iteration, so `+ 1` numbers a new iteration past every recorded one |
| `Ledger.Ledger.Append` | crates/ralph-lib/benches/benchmarks.rs:57-62 | appends exactly one event; every earlier event stays where it was |
| `Validation.AllStages` | crates/ralph-lib/src/validation.rs:70-72 | the four stages, each once, `Fmt` first and `Test` last |
| `Validation.ShortCircuitStages` | crates/ralph-lib/src/validation.rs:70-77 | `short_circuit` is the first three stages of `all`, without `Test` |
| `Validation.SelectedStages` | crates/ralph-lib/src/validation.rs:146-150 | a prefix of all stages, at least the first three, holding `Test` exactly when tests are requested |
| `Validation.CommandsForStage` | crates/ralph-lib/src/validation.rs:91-98 | the stage's own command list; `RunAllOverResults` and `AllPassIff` state what running those lists gives |
| `Validation.Matches` | crates/ralph-lib/src/validation.rs:21-26 | the rules match exactly when some listed file exists; an empty list never matches |
| `Validation.GetProfile` | crates/ralph-lib/src/validation.rs:207-209 | a profile is found exactly when the name is a key, and it is that key's profile |
| `Validation.DetectProfiles` | crates/ralph-lib/src/validation.rs:197-204 | the names returned are exactly those of the profiles whose rules match, each once |
| `Validation.FailureResult` | crates/ralph-lib/src/validation.rs:108-126 | a failed launch reports no exit code and the error text; a non-zero exit reports its code and stdout followed by stderr |
| `Validation.FirstFailure` | crates/ralph-lib/src/validation.rs:105-128 | the first command that does not succeed; `None` exactly when every command succeeds |
| `Validation.StageResult` | crates/ralph-lib/src/validation.rs:101-136 | the stage succeeds exactly when every command does, and then reports exit code 0 and empty output |
| `Validation.CommandsRun` | crates/ralph-lib/src/validation.rs:105-128 | the commands started are a prefix of the list; all but the last succeeded; a shorter prefix ends with a failure |
| `Validation.RunStage` | crates/ralph-lib/src/validation.rs:101-136 | the loop returns `StageResult` and starts exactly the commands of `CommandsRun` |
| `Validation.FirstFailureAt` | crates/ralph-lib/src/validation.rs:105-117 | the first failure is at `i` when every earlier command succeeds and command `i` does not |
| `Validation.RunAllOver` | crates/ralph-lib/src/validation.rs:152-161 | at most one result per stage, and at least one when there is a stage |
| `Validation.RunAllOverResults` | crates/ralph-lib/src/validation.rs:152-159 | result `k` is that of running stage `k` |
| `Validation.RunAllOverStops` | crates/ralph-lib/src/validation.rs:153-159 | every result but the last succeeded; the results stop early only after a failure |
| `Validation.RunAll` | crates/ralph-lib/src/validation.rs:140-162 | the loop returns `RunAllOver` of the selected stages |
| `Validation.RunAllIsPrefix` | crates/ralph-lib/src/validation.rs:146-161 | at least one result; the results follow the selected stages in order; the results stop early only after a failure |
| `Validation.NoTestStageUnlessRequested` | crates/ralph-lib/src/validation.rs:146-150 | without tests requested no result is for the test stage |
| `Validation.AllPassIff` | crates/ralph-lib/src/validation.rs:152-161 | all results pass exactly when every command of every stage succeeds |
| `Implement.FirstOpen` | crates/ralph-cli/src/commands/implement.rs:158-162 | the first requirement whose status is `Todo` or `InProgress`; `None` exactly when none is open |
| `Implement.Bullets` | crates/ralph-cli/src/commands/implement.rs:270-274 | each acceptance criterion becomes `- ` followed by the criterion, in order |
| `Implement.PushFeedback` | crates/ralph-cli/src/commands/implement.rs:281-300 | pushes the intro, the failure text (clipped when over 2000 characters) and the outro |
| `Implement.PromptText` | crates/ralph-cli/src/commands/implement.rs:253-305 | the prompt; `FirstPromptHasNoFeedback`, `TestStageMention`, `ShortFeedbackVerbatim` and `LongFeedbackClipped` state its feedback and test-stage parts |
| `Implement.GeneratePrompt` | crates/ralph-cli/src/commands/implement.rs:253-305 | the prompt is `PromptText` of the requirement, iteration and test flag, with the ledger's last validation failure |
| `Implement.FirstPromptHasNoFeedback` | crates/ralph-cli/src/commands/implement.rs:279 | the first iteration's prompt carries no failure feedback, whatever the ledger holds |
| `Implement.TestStageMention` | crates/ralph-cli/src/commands/implement.rs:264-275 | the full-test prompt is the other prompt with ` -> test` inserted after the announced stages, and otherwise equal |
| `Implement.ShortFeedbackVerbatim` | crates/ralph-cli/src/commands/implement.rs:292-294 | a failure text of at most 2000 characters is injected verbatim |
| `Implement.LongFeedbackClipped` | crates/ralph-cli/src/commands/implement.rs:286-291 | a longer failure text keeps exactly its first 2000 characters, followed by a note whose number reads back as the count of dropped characters |
| `Implement.PushLines` | crates/ralph-cli/src/commands/implement.rs:325-328 | the loop appends each of the given lines followed by a newline |
| `Implement.PushWindow` | crates/ralph-cli/src/commands/implement.rs:319-340 | pushes the head lines, the omitted-lines note when lines were omitted, and the tail lines |
| `Implement.SmartTruncate` | crates/ralph-cli/src/commands/implement.rs:309-349 | `smart_truncate_validation_output` returns `Truncated(output, max_chars)` |
| `Implement.WindowsDisjoint` | crates/ralph-cli/src/commands/implement.rs:319-320 | the head and tail windows never overlap, so the saturating subtraction is exact |
| `Implement.NothingOmittedIff` | crates/ralph-cli/src/commands/implement.rs:331-334 | the omitted-lines note appears exactly when there are more than 20 lines or an odd number of them |
| `Implement.FullWindow` | crates/ralph-cli/src/commands/implement.rs:319-340 | when nothing is omitted the window is every line, newline-ended |
| `Implement.FullWindowIsOutput` | crates/ralph-cli/src/commands/implement.rs:314-340 | then, without carriage returns, the window is the output itself, newline-terminated |
| `Implement.TruncatedFits` | crates/ralph-cli/src/commands/implement.rs:310-346 | output that fits is returned unchanged; the result never exceeds the limit by more than the truncation notice |
| `Implement.OneLineNote` | crates/ralph-cli/src/commands/implement.rs:333 | the note for one omitted line, and its length |
| `Implement.WindowOfOneLine` | crates/ralph-cli/src/commands/implement.rs:319-340 | the window of a single line is only the note that it was omitted |
| `Implement.SingleLineDropped` | crates/ralph-cli/src/commands/implement.rs:309-349 | an over-long single-line output keeps none of its text, only the omitted-line note, itself cut below 28 characters |
| `Implement.SummaryOf` | crates/ralph-cli/src/commands/implement.rs:353-404 | the summary of a failed stage's output; `SummaryShape` states when it is empty, trimmed or bounded |
| `Implement.Summarize` | crates/ralph-cli/src/commands/implement.rs:353-404 | returns `SummaryOf`: empty for empty output, the agent's trimmed answer, or the output truncated to 2000 characters when the agent fails |
| `Implement.SummaryShape` | crates/ralph-cli/src/commands/implement.rs:354-356 | empty output gives an empty summary; an agent summary is trimmed; the fallback is bounded by 2000 characters plus the notice |
| `Implement.FirstFailed` | crates/ralph-cli/src/commands/implement.rs:205-208 | the first failed result; `None` exactly when all results succeeded |
| `Implement.StageName` | crates/ralph-cli/src/commands/implement.rs:208 | the `{:?}` name of the failed stage in the `Stage: …` report, a capitalised variant name |
| `Implement.StageNameInjective` | crates/ralph-cli/src/commands/implement.rs:208 | different stages get different names, so the report identifies the stage |
| `Implement.ValidationVerdict` | crates/ralph-cli/src/commands/implement.rs:198-221 | the iteration's verdict; `VerdictReportsFailure`, `NoProfilePasses` and `ProfileVerdict` state when it passes and when it reports a failure |
| `Implement.RunValidation` | crates/ralph-cli/src/commands/implement.rs:198-221 | returns `ValidationVerdict` of the configuration, the PRD's profiles and the test flag |
| `Implement.VerdictReportsFailure` | crates/ralph-cli/src/commands/implement.rs:202-208 | a failed stage's report is present exactly when validation did not pass |
| `Implement.NoProfilePasses` | crates/ralph-cli/src/commands/implement.rs:216-221 | without a configuration or a profile for the PRD's first profile name, validation counts as passed with no report |
| `Implement.ProfileVerdict` | crates/ralph-cli/src/commands/implement.rs:199-202 | with a profile, validation passes exactly when every command of every selected stage succeeds, and `Test` is selected only every fifth iteration |
| `Implement.StartIteration` | crates/ralph-cli/src/commands/implement.rs:184-189 | the requirement becomes `InProgress` and a `Started` event is appended |
| `Implement.FinishIteration` | crates/ralph-cli/src/commands/implement.rs:223-241 | the final status is set, and the outcome event with the verdict and the summarized failure is appended |
| `Implement.AskImplementer` | crates/ralph-cli/src/commands/implement.rs:191-195 | the implementer gets the prompt built from the ledger as it was before `Started` |
| `Implement.WorkOn` | crates/ralph-cli/src/commands/implement.rs:184-250 | the PRD and ledger become those of `Record` |
| `Implement.RunSingleIteration` | crates/ralph-cli/src/commands/implement.rs:149-251 | the returned flag, the requirements and the events are those of `Iteration` on the old requirements and events |
| `Implement.Record` | crates/ralph-cli/src/commands/implement.rs:184-241 | working on a requirement never reports completion, keeps the number of requirements, and appends exactly two events after the old ones |
| `Implement.Iteration` | crates/ralph-cli/src/commands/implement.rs:149-251 | an iteration reports completion exactly when no requirement is open |
| `Implement.RecordLogsTwoEvents` | crates/ralph-cli/src/commands/implement.rs:189-241 | exactly two events are appended, with the iteration's number: `Started` without a validation result, then the outcome with the verdict; the outcome is `Done` exactly when the implementer and validation both succeeded |
| `Implement.RecordDecidesStatus` | crates/ralph-cli/src/commands/implement.rs:224-230 | with unique ids the requirement ends `Done` or `InProgress`, and no other requirement changes |
| `Implement.NoOpenRequirement` | crates/ralph-cli/src/commands/implement.rs:164-167 | with no open requirement the iteration reports completion and changes nothing |
| `Implement.DryRunChangesNothing` | crates/ralph-cli/src/commands/implement.rs:177-182 | a dry run with work reports more work and changes neither the PRD nor the ledger |
| `Implement.WorkingIteration` | crates/ralph-cli/src/commands/implement.rs:169-241 | the two events are numbered one past the latest iteration; the outcome carries a message exactly when validation failed; the requirement ends `Done` exactly when the implementer succeeded and validation passed |
| `Implement.RecordKeepsNonDecreasing` | crates/ralph-cli/src/commands/implement.rs:169-241 | the two events of a working iteration keep the ledger's iteration numbers non-decreasing |
| `Implement.IterationKeepsNonDecreasing` | crates/ralph-cli/src/commands/implement.rs:149-251 | every iteration keeps the ledger's iteration numbers non-decreasing |
| `Implement.RunSpec` | crates/ralph-cli/src/commands/implement.rs:83-141 | `run_single_iteration` is called at most `max_iterations` times in loop mode and once otherwise |
| `Implement.RunLoop` | crates/ralph-cli/src/commands/implement.rs:91-130 | the loop takes at most its budget of steps, and at least one when the budget is positive |
| `Implement.Run` | crates/ralph-cli/src/commands/implement.rs:83-141 | the loop (or the single iteration) ends in the state and call count of `RunSpec` |
| `Implement.Loop` | crates/ralph-cli/src/commands/implement.rs:91-130 | the loop ends in the requirements, events and iteration count of `RunLoop` over `max_iterations` |
| `Implement.LoopStep` | crates/ralph-cli/src/commands/implement.rs:112-119 | one loop body changes the state as one step of `RunLoop` does |
| `Implement.IterationAppends` | crates/ralph-cli/src/commands/implement.rs:149-251 | an iteration only appends to the ledger, at most two events, and reports completion only when nothing is open |
| `Implement.IterationKeepsDone` | crates/ralph-cli/src/commands/implement.rs:158-230 | an iteration keeps the ids, their uniqueness and every `Done` requirement |
| `Implement.KeepsDoneAt` | crates/ralph-cli/src/commands/implement.rs:230 | setting the status of an open requirement keeps ids and every `Done` |
| `Implement.LoopBounds` | crates/ralph-cli/src/commands/implement.rs:91-130 | the loop runs at most `max_iterations` steps, appends at most two events per step, and stops early only when nothing is open |
| `Implement.LoopKeepsDone` | crates/ralph-cli/src/commands/implement.rs:91-130 | the loop never reopens a finished requirement |
| `Implement.RunLoopProperties` | crates/ralph-cli/src/commands/implement.rs:91-130 | loop mode calls `run_single_iteration` at most `max_iterations` times, only appends to the ledger, ends early only when no requirement is open (a failed validation never stops it), and keeps every `Done` |
| `Implement.LoopKeepsNonDecreasing` | crates/ralph-cli/src/commands/implement.rs:91-130 | a loop of steps that each keep the ledger's iteration numbers non-decreasing keeps them non-decreasing |
| `Implement.RunKeepsNonDecreasing` | crates/ralph-cli/src/commands/implement.rs:83-141 | `run`, in loop mode or not, keeps the ledger's iteration numbers non-decreasing |
| `Hook.DigitsEnd` | crates/ralph-cli/src/commands/hook.rs:24 | the end of the maximal digit run starting at a position |
| `Hook.SpansFrom` | crates/ralph-cli/src/commands/hook.rs:26-29 | every match is `REQ-` followed by a maximal run of one or more digits |
| `Hook.SpansOrdered` | crates/ralph-cli/src/commands/hook.rs:26-29 | matches come left to right, do not overlap, and no reference starts between two of them |
| `Hook.SpansComplete` | crates/ralph-cli/src/commands/hook.rs:26-29 | no reference starts before the first match or after the last, and with no match there is none at all |
| `Hook.RefsShape` | crates/ralph-cli/src/commands/hook.rs:24-29 | each extracted reference is `REQ-` followed by one or more digits |
| `Hook.NoRefsIff` | crates/ralph-cli/src/commands/hook.rs:26-31 | there are no references exactly when `REQ-` never stands right before a digit |
| `Hook.Refs` | crates/ralph-cli/src/commands/hook.rs:26-29 | the references in order; `RefsShape`, `NoRefsIff`, `SpansOrdered` and `SpansComplete` state that each is a whole `REQ-<digits>` match and that none is missed |
| `Hook.Unknown` | crates/ralph-cli/src/commands/hook.rs:48-50 | the references warned about are exactly those not among the known ids |
| `Hook.CommitMsg` | crates/ralph-cli/src/commands/hook.rs:16-62 | rejected exactly when there is no reference; without known ids nothing is warned about; with them the warnings are exactly the references not among the ids |
| `Hook.RejectedIff` | crates/ralph-cli/src/commands/hook.rs:24-39 | a message is rejected exactly when no `REQ-` is followed by a digit, whatever ids are known |
| `Hook.UnknownOnlyWarns` | crates/ralph-cli/src/commands/hook.rs:45-61 | a message with references is accepted even when no PRD knows them; those are exactly the warnings |
| `Hook.NoRNoRef` | crates/ralph-cli/src/commands/hook.rs:24 | a text without an uppercase `R` holds no reference |
| `Hook.ExampleAccepted` | crates/ralph-cli/tests/integration_tests.rs:147-161 | `REQ-01: Add feature` yields the single reference `REQ-01` and is accepted |
| `Hook.ExampleRejected` | crates/ralph-cli/tests/integration_tests.rs:164-180 | `Add feature without reference` is rejected |
| `Plan.ReplaceDashes` | crates/ralph-cli/src/commands/plan.rs:90 | same length, every dash becomes a space, every other character stays |
| `Plan.CreateInitialPrd` | crates/ralph-cli/src/commands/plan.rs:80-100 | schema `1.0`, the slug, the dashless title, run id `<slug>-<timestamp>`, profiles `["rust-cargo"]`, and the one initial requirement |
| `Plan.InitialPrdIsOpen` | crates/ralph-cli/src/commands/plan.rs:93-98 | the initial requirement is `REQ-01` in status `Todo`, so the loop finds work |
| `Plan.MarkdownToWrite` | crates/ralph-cli/src/commands/plan.rs:102-117 | the markdown written on re-planning; `PlanningLogPreserved` states that it keeps the old planning log |
| `Plan.PlanningLogPreserved` | crates/ralph-cli/src/commands/plan.rs:102-117 | re-planning keeps the planning-log section: the new markdown's section is the old one, or empty when the old file had none or there was no file |
| `Status.CountDone` | crates/ralph-cli/src/commands/status.rs:152-156 | at most the number of requirements; all exactly when every requirement is `Done`; zero exactly when none is |
| `Status.CountDoneAppend` | crates/ralph-cli/src/commands/status.rs:152-156 | counting splits over a concatenation |
| `Status.CountRequirements` | crates/ralph-cli/src/commands/status.rs:150-158 | `(done, total)` with total the number of requirements and `done <= total`; equal exactly when all are done |
| `Status.StatusIcon` | crates/ralph-cli/src/commands/status.rs:160-168 | complete exactly when `done == total > 0`, partial exactly when some but not all are done, empty exactly when none is (including 0/0) |
| `Status.PrdComplete` | crates/ralph-cli/src/commands/status.rs:150-162 | a feature is shown complete exactly when it has requirements and all are `Done` |
| `Status.ReqStatusIcon` | crates/ralph-cli/src/commands/status.rs:170-177 | the icon is the one the markdown rendering uses for that status |
| `Status.ReqStatusIcons` | crates/ralph-cli/src/commands/status.rs:170-177 | each status has its own icon, and the feature icons are those of done, in-progress and todo |

## Left out

- **Files and git.** These are left out as file and process I/O:
  - reading and writing files: `Prd::from_file`/`save`/`save_markdown`, `MarkdownPrd::from_file`/`save`, and ledger loading;
  - JSON (de)serialization of whole documents;
  - JSON Schema validation (`validate_schema`);
  - the directory walks in `status` and in `collect_all_requirement_ids`;
  - git branch handling (`ensure_branch`, `has_uncommitted_changes`);
  - `process::exit`.

  Every write is assumed to succeed, so the `?` error paths of saving and appending are not modelled.
- **Agent processes and the shell.** Launching the implementer and summarizer agents and `sh -c` commands is not modelled. Their results are oracles in the `World`, or in the `shell` parameter of `Validation`.
- **Clock readings.** These are parameters: the run-id timestamp of `plan` and the event timestamps.
- **Known requirement ids.** The hook's list of known ids (`collect_all_requirement_ids`) is a parameter, `None` when the tasks directory is missing.
- **Printed output.** What is printed (`println!`, `eprintln!`, the `verbose` flag, the rest of `status`) is not modelled: it changes no state.
- **Character counts.** Lengths, the 2000-character cut and `truncate` count Unicode characters. Rust counts UTF-8 bytes and panics when a cut falls inside a character. The two agree on ASCII text.
- **Integer widths.** Iteration numbers and counts are unbounded naturals. The source's `u32` iteration number, which would overflow after 2^32 iterations, and the `usize` arithmetic are not modelled.
- **Profile order.** `DetectProfiles` states its result as a set of names without repetition. The source's `HashMap` iteration order is unspecified.
- **Ledger query bodies.** `ledger.rs` in the revision modelled here does not define `append`, `latest_iteration`, `events_for_requirement`, `is_requirement_failed` or `get_last_validation_failure`. The model's definitions are stated outright (see "Ledger queries" above), so they may differ in detail from a later revision's code.
- **Other commands.** `init` and the command-line parsing of `main.rs` hold no logic of the core.
- Plan.PlanningLogPreserved: the title and slug must not contain `<` at all. This is stronger than the source's real condition, that they contain neither marker string, so the property is proved for fewer inputs.
- Prd.MarkersRoundTrip: it requires the same `<`-free title and slug, for the same reason.
