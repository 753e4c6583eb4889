# A Dafny model of the OctopusGarden convergence engine

OctopusGarden generates code from a specification, builds it, validates it against holdout scenarios and feeds the
failures back until the score converges. This project models the engine around that loop (dependency ordering, the
file-block language, the attractor run with its tiers, stalls, budget and model escalation, the container lifecycle,
the background message streams, the scenario language and the smaller algorithms with exact specifications) and
proves what each of them keeps on every input, every script of outside events and every schedule.

Code that loops over and updates state is a method or a class proved against a specification function; what the
system promises is then proved about that function: what it yields is stated a second time in the terms of its inputs
(letters of a line, events of a run, capabilities, arrivals) and proved to agree. The language model, Docker, the
validator, the network and the clock are adversarial inputs: a script of events, a list of answers, a schedule of
arrivals.

| module | what it is about |
|---|---|
| `DependencyGraph`, `TopoSort`, `GeneValidation` | Kahn's sort and the depth-first cycle check, each against "a cycle exists", and against each other |
| `ComposedRun` | converging components in dependency order and merging their files |
| `FileBlocks`, `FileBlockPrinter` | the file-block parser, the patch-prompt printer, and their round trip |
| `Escalation`, `RunLoop`, `RunInvariants`, `RunTheorems`, `RunByEvents`, `StallTheorems` | the monolithic run as a state machine, what every run keeps, and the same run told by its events alone |
| `Containers` | start, restart and stop closures over one shared variable, as a ledger of containers |
| `BackgroundStream` | reader and collector over a locked buffer, over every interleaving |
| `Substitution`, `SubstitutionOrder`, `PieceWords`, `SubstitutionSwap`, `SubstitutedTemplate`, `SubstitutedText` | `{name}` substitution in arbitrary map order: against simultaneous substitution, and one order against another |
| `ScenarioLint`, `LintDiagnostics`, `ScenarioRunner`, `LintedRun` | every diagnostic of the linter, the values the runner binds, and the one against the other |
| `Config`, `ConfigText`, `ConfigRoundTrip` | the configuration file: read, update, write, and what a later start sees |
| `Utf8Cut`, `Utf8Encoding`, `Steering`, `FileSetHash`, `SpecParser`, `SpecText`, `SpecLint`, `SpecReports`, `TokenBudget` | byte cuts, failure streaks, the hashed encoding, markdown sections, the token budget |

## Where the code and its promises differ

Each of these is a lemma below; the model follows the code.

- A service that fails to start or to become healthy, short of the stall limit, does not end the iteration:
  `startServiceContainer` returns neither an error nor a stall, so `buildRunValidate` goes on to the validator
  (`Containers.ValidatorRunsRegardless`). Such an iteration can therefore add two stalls
  (`RunTheorems.OneIterationTwoStalls`), and `stallCount` exceeds the number of trailing non-improving iterations by
  exactly the number of such iterations among them (`RunTheorems.StallCountExact`).
- With regression blocking the best score can fall on convergence: a low score, a higher one blocked for a
  regression and one in between that converges make such a run (`RunTheorems.BlockedBestCanFall`). In general
  converging raises the best exactly when no earlier validation of the tier scored as much
  (`RunTheorems.ConvergenceRaisesIff`).
- Gene validation compares normalised names, the sort literal ones: a validated gene sorts exactly when every
  dependency is spelled as its component is (`GeneValidation.ValidGeneSortable`, `SpellingBreaksAgreement`).
- The header `=== FILE: ===` satisfies both the prefix and the suffix test and makes the slice panic
  (`FileBlocks.SliceSafeIff`). Feedback quoted in a patch prompt is read like any other text, so printing and parsing
  are inverse exactly under the condition of `FileBlockPrinter.RoundTripIff`.
- `{name}` substitution depends on the map's iteration order: for brace-free names and values two orders give different
  texts exactly when the text forges a placeholder (`SubstitutionSwap.OrderIndependentIff`), as `{{a}}` does with a = b
  and b = x (`NestedPlaceholderDepends`); a value holding a brace breaks even flat text
  (`SubstitutionOrder.BracesInValuesMatter`).
- The linter does not look into structured request bodies, although the runner substitutes there
  (`LintedRun.StructuredBodyEscapes`).
- For a key given twice, start-up uses the first nonempty value and `configure` keeps the last
  (`ConfigRoundTrip.KeepingKeepsIff`).
- The documented "distinct separators" do not keep the hashed encoding injective once a content holds the byte 1
  (`FileSetHash.TwoFilesLookLikeOne`).
- The specification parser takes any first heading as the title, the linter the first of level 1, so one may miss a
  description that the other sees, either way round (`SpecLint.VerdictsDiffer`).

## Model

| member | source | states |
|---|---|---|
| TopoSort.TopoSort | internal/attractor/toposort.go:14-20 | fails with the first unknown dependency exactly when one is unknown; with distinct names succeeds exactly when also no cycle exists, returning the components in the one dependency-first order that is first come, first served |
| TopoSort.BuildTopoGraph | internal/attractor/toposort.go:23-39 | succeeds exactly when every dependency names a component, else reports the first that does not; indexes the components by name with the count of their declared dependencies, repeats included |
| TopoSort.BuildDependents | internal/attractor/toposort.go:44-49 | each component waits in the list of a dependency as often as it declares it, in component order |
| TopoSort.KahnSort | internal/attractor/toposort.go:42-75 | on known dependencies and distinct names: an order exists exactly when there is no cycle, and then it is a dependency-first permutation in which what became ready with an earlier component stands earlier, the list's own order deciding between those that became ready together |
| TopoSort.OneOrder | internal/attractor/toposort.go:42-75 | there is at most one such order, so the result is determined |
| TopoSort.RoundKeepsOrder | internal/attractor/toposort.go:59-69 | one turn of the queue loop keeps the finished and the queued names in order of arrival |
| TopoSort.KahnDequeue | internal/attractor/toposort.go:59-62 | taking the head of the queue keeps the in-degree invariant, with its dependents pending |
| TopoSort.KahnDecrement | internal/attractor/toposort.go:63-68 | lowering one pending dependent and queueing it at zero keeps the invariant |
| TopoSort.AllDoneAcyclic | internal/attractor/toposort.go:71-74 | when everything was sorted, the graph has no cycle |
| TopoSort.LeftoverIsCyclic | internal/attractor/toposort.go:71-73 | when the queue runs dry with something unsorted, a cycle exists |
| GeneValidation.CycleSearch.Visit | internal/gene/gene.go:123-140 | a depth-first step terminates, blackens its node or returns a walk that closes on itself; no black node ever lies on a cycle or leads out of the black set |
| GeneValidation.CycleSearch.Search | internal/gene/gene.go:112-119 | whatever order the map is iterated in, a cycle is reported exactly when one exists, and the reported path ends in one |
| GeneValidation.ValidateComponents | internal/gene/gene.go:77-99 | succeeds exactly when normalised names are nonempty and distinct, every dependency is known and no cycle exists; otherwise reports the first bad name, else the first missing dependency, else a path that ends in a cycle |
| GeneValidation.ValidGeneSortable | internal/gene/gene.go:77-140 | for a validated gene the topological sort succeeds exactly when every dependency literally equals a component name |
| GeneValidation.AgreementInNormalForm | internal/gene/gene.go:72-140 | on normalised, nonempty, distinct names the two checks agree |
| GeneValidation.SpellingBreaksAgreement | internal/gene/gene.go:80-92 | two components that validate but cannot be sorted because a dependency is spelled differently |
| GeneValidation.NormalizeIdempotent | internal/gene/gene.go:72-74 | a normalised name is its own normal form |
| GeneValidation.NormalizeSpelled | internal/gene/gene.go:72-74 | however its words are spaced and cased, a name is normalised to the words in lower case with one space between |
| ComposedRun.ConvergeInOrder | internal/attractor/attractor.go:509-530 | every component is converged in sorted order, under budget and on exactly the files of all earlier ones, and in a dependency-first order with all its dependencies' interfaces recorded; it halts only at a failed component or for lack of budget |
| ComposedRun.CostsAddUp | internal/attractor/attractor.go:509-530 | the cost counted so far is the sum of the loops' own costs |
| ComposedRun.MergeComponentFiles | internal/attractor/attractor.go:553-565 | the merge is the overlay of the components' files in sorted order |
| ComposedRun.OverlayLastWins | internal/attractor/attractor.go:551-561 | a path of an overlay has the content of the last set that holds it |
| ComposedRun.Compose | internal/attractor/attractor.go:487-533 | an unknown dependency is an error before any call; every call starts under budget on exactly the earlier files, falling back has its cause, and success means every component converged; for distinct names the error comes exactly for unsortable components, calls are in the one first-come dependency order, each with the interfaces of its dependencies and no others, and the merged files equal the accumulated ones |
| FileBlocks.ParseFilesWithMetadata | internal/attractor/fileparse.go:47-104 | the loop over the lines computes the line-by-line specification, failures included |
| FileBlocks.SliceSafeIff | internal/attractor/fileparse.go:108-113 | the path slice panics exactly on the one line where prefix and suffix overlap |
| FileBlocks.ValidPathStaysInside | internal/attractor/fileparse.go:126-135 | a path is accepted exactly when it is relative and never climbs above its start |
| FileBlocks.ParseAccounts | internal/attractor/fileparse.go:47-104 | parsing succeeds exactly when every line is acceptable and some block closes; each file is the last block of its path, its content the lines between header and end marker with all final newlines cut and one put back; the dropped list is the unclosed headers in order, truncated says the last marker opens a block, and every header is closed or dropped |
| FileBlocks.ClosedFilesAre | internal/attractor/fileparse.go:74-83 | a path has a file exactly when some header of it is followed, after plain lines only, by an end marker; the last such block gives the content |
| FileBlocks.MarkIff | internal/attractor/fileparse.go:108-117 | a line opens a block exactly when it is written as the header, around a nonempty trimmed path, and closes one exactly when it is the end marker |
| FileBlocks.AcceptableIff | internal/attractor/fileparse.go:60-72 | the lines that end the parse are the one whose slice panics and the headers of invalid paths |
| FileBlocks.ParseFailsAtFirstBadLine | internal/attractor/fileparse.go:64-68 | the first unacceptable line decides the failure: the panic or its own path |
| FileBlockPrinter.PrintThenParse | internal/attractor/prompts.go:530-534 | a patch prompt without marker lines of its own parses back to exactly its files, in whatever order printed |
| FileBlockPrinter.PrintThenParseAnyTail | internal/attractor/prompts.go:530-562 | with any text after the files, that text's blocks overlay them and its unclosed headers are dropped |
| FileBlockPrinter.RoundTripIff | internal/attractor/prompts.go:530-562 | printing and parsing are inverse exactly when the tail is acceptable, drops nothing and only repeats files already there |
| FileBlockPrinter.ParsedIsPrintable | internal/attractor/fileparse.go:78-83 | whatever the parser returns can be printed |
| FileBlockPrinter.MergeAndSelectStayPrintable | internal/attractor/fileparse.go:150-155 | a merge holds the new files and those previous ones they do not replace; it and any subset can be printed |
| FileBlockPrinter.ParsePrintParse | internal/attractor/fileparse.go:47-144 | parse, print, parse equals parse, for any first text that parses |
| Escalation.EscalationState.RecordOutcome | internal/attractor/escalation.go:75-105 | one outcome's effect on tier and counters |
| Escalation.CountersFollowOutcomes | internal/attractor/escalation.go:28-105 | after any outcomes: frugal counts the trailing failures, at most one; primary counts them, or two fewer exactly when the tier was still frugal before them, with fewer than five trailing improvements |
| Escalation.PrimaryIff | internal/attractor/escalation.go:28-105 | the primary tier is active exactly when two failures in a row were not yet followed by five improvements in a row |
| RunLoop.RunState.Process | internal/attractor/attractor.go:1493-1568 | one validated result: regressions, convergence, best, stalls, limits in the code's order |
| RunLoop.RunState.RunIteration | internal/attractor/attractor.go:1201-1263 | one iteration over any outside event, the fall-through after a failed start included |
| RunLoop.RunState.TrackRegression | internal/attractor/attractor.go:1573-1583 | the patch counter and the switch to full generation |
| RunLoop.RunState.AdvanceTierIfNeeded | internal/attractor/attractor.go:1635-1666 | only a converged tier below the last advances, resetting the per-tier state and keeping files and cost |
| RunLoop.RunState.Pass | internal/attractor/attractor.go:374-418 | one pass of the loop: budget check, iteration, escalation, tier advancement or return |
| RunLoop.RunAttractor | internal/attractor/attractor.go:374-422 | the whole loop computes the run specification and stops after MaxIterations; every iteration is given the model its state calls for |
| RunLoop.RunState.CurrentModel | internal/attractor/attractor.go:226-231 | the frugal model while the escalation object says so, the primary one otherwise |
| RunInvariants.ContinueTracks | internal/attractor/attractor.go:1493-1568 | an iteration that goes on keeps best, files, directory, stalls, escalation and patch mode tied to the tier's events |
| RunInvariants.BestIsEarned | internal/attractor/attractor.go:1535-1545 | the recorded best bounds every score of a series of events, is the score of the event at the last improvement, and is 0 when nothing improved |
| RunTheorems.RunningTracks | internal/attractor/attractor.go:374-422 | in every reachable continuing state best bounds every validated score of the tier and is the score of the event at the last improvement, whose files are bestFiles; before any improvement best is 0 and bestFiles are what converged the previous tier; bestDir holds them, stalls, escalation and patch mode are what the events determine, and the stall limit is not reached |
| RunTheorems.StallCountExact | internal/attractor/attractor.go:1535-1560 | stallCount is the number of iterations since the last improvement plus one for each that was validated after a failed start |
| RunTheorems.IterationStalls | internal/attractor/attractor.go:300-307 | an iteration that does not improve adds one stall, or two after a failed start |
| RunTheorems.OneIterationTwoStalls | internal/attractor/attractor.go:1217-1227 | an iteration that adds two |
| RunTheorems.BestBelowThreshold | internal/attractor/attractor.go:1524-1533 | without regression blocking the best stays below a positive threshold while the run continues |
| RunTheorems.ConvergenceRaisesBest | internal/attractor/attractor.go:1526-1533 | so converging raises it |
| RunTheorems.ThresholdReachedIff | internal/attractor/attractor.go:1523-1545 | while a run continues its best has reached a positive threshold exactly when a validated event of the tier scored that much |
| RunTheorems.ConvergenceRaisesIff | internal/attractor/attractor.go:1523-1533 | converging raises the best exactly when no validated event of the tier scored as much before |
| RunTheorems.BlockedBestCanFall | internal/attractor/attractor.go:1523-1533 | with blocking it can fall within a run from the start: a low score, a higher one blocked for a regression, then one in between that is accepted |
| RunTheorems.TierDiscipline | internal/attractor/attractor.go:1635-1647 | the tier moves by one and only by converging; converged is returned only at tier 0 or 3 and at or above the threshold |
| RunTheorems.IterationCharges | internal/attractor/attractor.go:1231-1234 | an iteration charges no more than its generation and validation, and exactly that unless it fails or stops first |
| RunTheorems.SpendIsTracked | internal/attractor/attractor.go:1648-1666 | over all tiers, the spend on record is the seeded cost plus what the iterations of the script cost, and no iteration began with the budget spent |
| RunTheorems.FinishedRunBounds | internal/attractor/attractor.go:374-422 | a run that stops reports exactly what its iterations cost, never began one with the budget spent, has at least the stall limit or is over budget as its status says, and is within its iteration limit |
| RunTheorems.RunAllBounds | internal/attractor/attractor.go:272-274 | at most MaxIterations over all tiers; the reported spend is the seeded cost plus what the script's iterations cost, less at most the validation a stalled last start never reached; no iteration began with that sum at the budget |
| RunTheorems.OverspendsByOneIteration | internal/attractor/attractor.go:376-382 | with a budget, what a run's iterations cost in all stays below it plus the last one's cost |
| RunByEvents.PassFollows | internal/attractor/attractor.go:374-418 | one pass, from any state in step with the tier's events |
| RunByEvents.RunFollows | internal/attractor/attractor.go:374-418 | in every run, the tier's events, the script's cost so far and the next event decide whether the run errs, goes on, moves to the next tier or ends, with which status and iteration count, cost, best score, files and directory |
| RunByEvents.RunEnds | internal/attractor/attractor.go:374-422 | the run is its first pass that does not go on, or all of MaxIterations |
| RunByEvents.RunStarts | internal/attractor/attractor.go:275-294 | it starts with the seeded cost, nothing achieved, in tier 1 if tiers are on |
| StallTheorems.StallsAgainstFailures | internal/attractor/attractor.go:409-411 | on the frugal tier the stalls are the failure count, at most one, and on the primary tier that count or two more, the latter exactly when the last improvement left the tier frugal; in both cases plus the fall-through iterations |
| StallTheorems.SmallLimitStaysFrugal | internal/attractor/escalation.go:28-38 | a stall limit of one or two never gives an iteration the primary model |
| StallTheorems.LimitThreeBuysOneAttempt | internal/attractor/escalation.go:28-38 | a limit of three buys exactly one primary attempt: the pass after the switch is given the primary model and improves, converges a tier or ends the run |
| Containers.ServiceHandle.Restart | internal/attractor/attractor.go:1380-1395 | any mix of start and health failures keeps the shared variable the whole truth: at most one service alive, everything else stopped once |
| Containers.ServiceHandle.Stop | internal/attractor/attractor.go:1400 | the deferred stop leaves nothing alive and everything stopped exactly once |
| Containers.StartHTTP | internal/attractor/attractor.go:1358-1403 | a handle exactly when started and healthy, nothing left running otherwise |
| Containers.StartGRPC | internal/attractor/attractor.go:1414-1456 | a handle unless the start failed or an unhealthy service reached the stall limit |
| Containers.StartService | internal/attractor/attractor.go:1306-1343 | by capability: a service container starts exactly for gRPC, HTTP, or (without TUI steps) browser steps or no exec steps; restarts are offered exactly over HTTP, the gRPC target exactly over gRPC, and only of a service that is handed on |
| Containers.Validate | internal/attractor/attractor.go:1380-1395 | restarts on demand succeed exactly when start and health do, starting one container each |
| Containers.BuildRunValidate | internal/attractor/attractor.go:1201-1263 | on every path out each container started was stopped exactly once, none alive, never two services at a time, session and gRPC target cleared; by capability, how many containers of each kind were started, which exit was taken, and with which session, target and restarts the validator ran |
| Containers.IterationByNeed | internal/attractor/attractor.go:1201-1343 | the containers and the exit of an iteration, by what its scenarios need and how each step answers |
| Containers.ValidatorRunsRegardless | internal/attractor/attractor.go:1231-1256 | an unhealthy HTTP service stops the validator only at the stall limit |
| Containers.ValidateCommand | cmd/octog/main.go:823-881 | the same ledger for the validate command, with one image removal and one close |
| BackgroundStream.EveryInterleavingConserves | internal/scenario/grpc.go:461-543 | over every interleaving, taken then buffered messages are the arrivals in order less the lost ones; for gRPC none is lost |
| BackgroundStream.LostIff | internal/scenario/ws.go:154-158 | over any schedule of reads and collects, the i-th arrival is lost exactly when it came over WebSocket and met 1000 buffered messages |
| BackgroundStream.DrainedForGood | internal/scenario/grpc.go:465-470 | an empty buffer after a stream error stays empty |
| BackgroundStream.StreamBuffer.Receive | internal/scenario/ws.go:144-160 | one read of the background reader |
| BackgroundStream.StreamBuffer.Take | internal/scenario/grpc.go:518-528 | one locked poll takes the oldest messages wanted |
| BackgroundStream.StreamBuffer.Collect | internal/scenario/grpc.go:505-543 | a collect yields the first count of everything buffered or arriving until an error or the timer, in order, over WebSocket only what fits 1000; it polls no longer than that takes, and reports failure or timeout exactly when that is too little |
| BackgroundStream.BatchRead | internal/scenario/ws.go:144-160 | a batch of arrivals appends the messages before its first error, as far as they fit, and leaves the error |
| Substitution.SubstituteVars | internal/scenario/runner.go:214-219 | the loop yields the result of some iteration order, and the simultaneous substitution where nothing is forged |
| Substitution.ReplaceAllIsSimultaneous | internal/scenario/runner.go:216 | replacing one brace-free name is simultaneous substitution of it alone |
| Substitution.EveryOrderAgrees | internal/scenario/runner.go:214-219 | without forged placeholders every order yields the simultaneous substitution |
| Substitution.FlatTextNeverForges | internal/scenario/runner.go:214-219 | text without nested braces forges nothing |
| SubstitutedTemplate.TemplateFilled | internal/scenario/runner.go:214-219 | literal text with placeholders in it comes out with every captured name replaced by its value and all else as written, in every order |
| SubstitutionOrder.OpensAfterSubstitution | internal/scenario/runner.go:214-219 | substituting at once removes one opening brace per placeholder |
| SubstitutionOrder.SimultaneousLeavesMost | internal/scenario/runner.go:214-219 | no order leaves more opening braces than substituting at once |
| SubstitutionOrder.ForgedLast | internal/scenario/runner.go:214-219 | an order ending with a forged variable leaves fewer |
| SubstitutionOrder.SimultaneousIff | internal/scenario/runner.go:214-219 | for brace-free names and values, every order yields the simultaneous substitution exactly when no position forges a placeholder |
| SubstitutionSwap.TwoSteps | internal/scenario/runner.go:214-219 | where a text forges, putting the forged variable before the last of the variables used in it, or after, gives the two substitutions written out piece by piece |
| PieceWords.ForgedRowDiffers | internal/scenario/runner.go:214-219 | two such piecewise substitutions of one word never give the same text |
| SubstitutionSwap.SwapDiffers | internal/scenario/runner.go:214-219 | so for a text that forges, two orders that differ only in their last two variables give different texts |
| SubstitutionSwap.OrderIndependentIff | internal/scenario/runner.go:214-219 | for brace-free names and values any two orders give the same text exactly when no position forges a placeholder |
| SubstitutionSwap.NestedPlaceholderDepends | internal/scenario/runner.go:214-219 | `{{a}}` with a = b and b = x becomes x in one order and {b} in the other |
| SubstitutionOrder.BracesInValuesMatter | internal/scenario/runner.go:214-219 | a value holding a placeholder makes flat text depend on the order |
| SubstitutedText.NoRefsLeftIff | internal/lint/varcheck.go:13 | the substituted text refers to no identifier exactly when no literal brace comes to spell one |
| SubstitutedText.IdentifierIff | internal/lint/varcheck.go:13 | an identifier is an ASCII letter or underscore, then letters, digits and underscores |
| SubstitutedText.BoundTextIsClean | internal/scenario/runner.go:214-219 | text in which no literal brace has a placeholder among identifier characters up to its closing brace, with every reference bound, comes out the same in every order and free of references |
| SubstitutedText.UnnestedIff | internal/scenario/runner.go:214-219 | such text is exactly the text that no brace-free values for its references ever make refer to anything further |
| SubstitutedText.FlatIsUnnested | internal/scenario/runner.go:214-219 | text without nested braces is such a text |
| SubstitutedText.JsonIsUnnested | internal/scenario/runner.go:214-219 | so is a JSON object holding placeholders, which has nested braces |
| SubstitutedText.FlatTextIsClean | internal/scenario/runner.go:214-219 | flat text with every reference bound comes out free of references |
| SubstitutedText.UnforgedTextRefers | internal/scenario/runner.go:214-219 | text that forges nothing comes out the same in every order, and refers to something exactly when a literal brace comes to spell it |
| SubstitutedText.NestedTextMayStillRefer | internal/scenario/runner.go:214-219 | nested text with every reference bound may still refer |
| ScenarioLint.CaptureSet.CheckVarRefs | internal/lint/varcheck.go:64-82 | one warning per distinct unknown reference, in order of first occurrence |
| ScenarioLint.RefWarningsIff | internal/lint/varcheck.go:64-82 | the warnings are exactly the references not known, each once |
| ScenarioLint.CaptureSet.LintCaptures | internal/lint/scenario.go:821-879 | captures are checked and learnt in order |
| ScenarioLint.CaptureSet.LintStep | internal/lint/scenario.go:291-353 | a step's fields are checked against earlier captures before its own are learnt |
| ScenarioLint.LintScenario | internal/lint/scenario.go:161-188 | setup then steps, threading one capture set |
| ScenarioLint.LintWarnsIff | internal/lint/scenario.go:161-188 | a name is warned about exactly when some step refers to it in a checked text and no earlier step captures it |
| LintDiagnostics.LintIff | internal/lint/scenario.go:161-879 | the linter reports a diagnostic exactly when it holds of some step: type count, missing required field, bad name, source or path, shadowed name with the line it was last captured on, or a reference never captured |
| LintDiagnostics.PathIff | internal/lint/varcheck.go:85-100 | a JSON path is well formed exactly when it is $. and nonempty keys with dots between |
| LintDiagnostics.LearntIff | internal/lint/scenario.go:911-960 | after any captures a name is known with the line of its last capture |
| ScenarioRunner.RetrySucceedsIff | internal/scenario/runner.go:133-179 | retrying succeeds exactly when some attempt within the limit does and no deadline passed before it |
| ScenarioRunner.OutcomeIff | internal/scenario/runner.go:126-179 | a step's output is that of its first successful attempt within the limit, one without retry and three where the count is not positive, if no deadline passed before it |
| ScenarioRunner.CallsAre | internal/scenario/runner.go:133-179 | a step makes no call before it can run, and then every attempt up to the first success or deadline |
| ScenarioRunner.Execute | internal/scenario/runner.go:126-179 | the retry loop returns the last attempt made, and how many executor calls it took |
| ScenarioRunner.ApplyCaptures | internal/scenario/runner.go:221-230 | captures are bound in order up to the first that stands for nothing: each name holds what its last capture stands for, the trimmed source text, the path in it, or the path in the body; all other names keep their value |
| ScenarioRunner.ResolvesIff | internal/scenario/runner.go:232-250 | what one capture stands for, and when it stands for nothing |
| ScenarioRunner.StepIs | internal/scenario/runner.go:66-124 | a step runs exactly once its delay has passed, with an action, an executor and a successful attempt; it succeeds exactly when each capture stands for something; otherwise it binds nothing or the captures before the failing one |
| ScenarioRunner.ValuesAfter | internal/scenario/runner.go:43-124 | after any steps of any run each name holds the value the last step that gave it one gave it, or what it held before |
| ScenarioRunner.RunSetup | internal/scenario/runner.go:47-65 | setup succeeds exactly when every step runs and captures; the first that fails ends it; the executor calls are exactly those of the steps begun |
| ScenarioRunner.Run | internal/scenario/runner.go:43-124 | results exactly when setup succeeds, one per judged step, telling whether it ran; after a failed setup step nothing more is called |
| ScenarioRunner.LoggedCallsSeeEarlier | internal/scenario/runner.go:43-124 | every executor call, each retry included, is given exactly what the steps before it left bound |
| ScenarioRunner.LoggedCallsCount | internal/scenario/runner.go:43-124 | the log holds for each step begun as many calls as it makes attempts, none for later steps, in the order of the steps |
| ScenarioRunner.BoundAfter | internal/scenario/runner.go:43-124 | whatever the service does only captured names are bound, and all of them when every step succeeds |
| ScenarioRunner.LintSoundness | internal/lint/scenario.go:166-187 | a reference the linter is silent about is bound when its step executes, in every run whose earlier steps succeeded |
| ScenarioRunner.LintCompleteness | internal/lint/varcheck.go:64-82 | a reference warned about is made by some step before which no run at all binds it |
| LintedRun.CheckedOrExcepted | internal/lint/scenario.go:397-792 | the texts the executors substitute are exactly those the linter checks and the listed exceptions |
| LintedRun.StructuredBodyEscapes | internal/scenario/http.go:92-108 | a reference in a structured body is substituted but never checked |
| LintedRun.CleanLintLeavesNoReference | internal/lint/scenario.go:291-353 | in a clean scenario, a checked text of a step reached by succeeding that forges nothing comes out the same in every order, free of references exactly when no literal brace comes to spell one, and always so when none is nested; values are brace-free |
| LintedRun.CleanLintBinds | internal/lint/scenario.go:291-353 | a clean scenario binds every reference of the checked texts of a step reached by succeeding |
| Config.ReadConfig | cmd/octog/main.go:2214-2246 | the lines scanned and the last value of each key |
| Config.WriteConfig | cmd/octog/main.go:2252-2305 | known and unknown keys rewritten in place, cleared known keys dropped, new ones appended in prompt order |
| Config.Configure | cmd/octog/main.go:2149-2200 | reading, answering and writing put together |
| ConfigText.EntryIff | cmd/octog/main.go:2226-2240 | a line is an entry exactly when it is written key = value with any spaces around either, the key holding no = and opening no comment |
| ConfigText.DroppedAt | cmd/octog/main.go:2214-2246 | reading drops at most one carriage return from a line |
| ConfigText.WrittenItems | cmd/octog/main.go:2252-2305 | line by line and in place, remarks stay, every setting takes its key's present value and settings of cleared keys go; known keys without a line are added at the end in prompt order |
| ConfigRoundTrip.ConfigRoundTrip | cmd/octog/main.go:2149-2305 | reading back what was written yields exactly the updated values, duplicate and unknown keys included |
| ConfigRoundTrip.AnsweredIs | cmd/octog/main.go:2161-2182 | each key is kept, set or cleared by its own answer alone |
| ConfigRoundTrip.AnswersFor | cmd/octog/main.go:1817-1818 | the answers are for the Anthropic key, the OpenAI key and the OpenAI base URL, in this order |
| ConfigRoundTrip.PassiveLinesSurvive | cmd/octog/main.go:2258-2272 | comments, blank lines and lines without "=" survive in order, each up to one carriage return |
| ConfigRoundTrip.LoadConfig | cmd/octog/main.go:1823-1873 | start-up sets a known variable only while it is empty |
| ConfigRoundTrip.LoadIs | cmd/octog/main.go:1860-1870 | so an unset known variable gets the first nonempty value of its key |
| ConfigRoundTrip.StartSeesConfigured | cmd/octog/main.go:1823-1873 | after configuring, a start sees exactly the configured value |
| ConfigRoundTrip.KeepingKeepsIff | cmd/octog/main.go:2149-2305 | answering nothing leaves what a start sees unchanged exactly when a key's first nonempty value is its last |
| ConfigRoundTrip.DuplicateKeyDiffers | cmd/octog/main.go:1860-1870 | a key given twice means its first value to a start and its last to configure |
| Utf8Cut.LastRuneBad | internal/attractor/prompts.go:590-593 | the backward decode reports an error exactly when the text does not end with a character |
| Utf8Cut.TrimUTF8Boundary | internal/attractor/prompts.go:585-598 | the rune-by-rune trim stops at the longest prefix within the limit that is empty or ends with a character |
| Utf8Cut.TruncateObserved | cmd/octog/main.go:1767-1780 | the same cut with an ellipsis |
| Utf8Cut.BrowserCut | internal/scenario/browser.go:449-458 | re-validating stops at the longest valid prefix |
| Utf8Cut.ValidTextCut | internal/attractor/prompts.go:585-598 | on valid text the cuts agree, on the longest valid prefix, at most three bytes short of the limit |
| Utf8Cut.CutsAgreeIff | internal/scenario/browser.go:449-458 | on any bytes they agree exactly when what the trim keeps is valid |
| Utf8Encoding.RuneLenIff | internal/attractor/prompts.go:585-598 | the decoder reads n bytes exactly where the n bytes of some Unicode scalar value stand |
| Utf8Encoding.ValidIff | internal/scenario/browser.go:449-458 | bytes are valid exactly when they encode some text |
| Utf8Encoding.ObservedStaysValid | cmd/octog/main.go:1767-1780 | valid text cut and given its ellipsis is valid |
| Steering.FoldHistory | internal/attractor/prompts.go:749-769 | the two maps hold each scenario's trailing run and its scores in order |
| Steering.BuildSteering | internal/attractor/prompts.go:749-791 | the notice lists exactly the scenarios whose trailing run is two or more, with run and scores |
| Steering.StallsIff | internal/attractor/prompts.go:772-777 | that is, those that failed in both of the last two validations |
| Steering.OthersIgnored | internal/attractor/prompts.go:754-756 | entries that are not validations, wherever they stand among them, change nothing |
| FileSetHash.HashedStream | internal/attractor/oscillation.go:14-25 | the writes into the hash, path by path in sorted order |
| FileSetHash.StreamIs | internal/attractor/oscillation.go:14-25 | each path, a zero byte, its content and a one byte, path after path |
| FileSetHash.LessIff | internal/attractor/oscillation.go:16 | the order of the paths is byte-wise, a prefix first |
| FileSetHash.SameStreamIff | internal/attractor/oscillation.go:14-25 | file sets without separator bytes give the same stream exactly when equal |
| FileSetHash.TwoFilesLookLikeOne | internal/attractor/oscillation.go:12-13 | every two-file set shares its stream with a one-file set that holds the separator |
| FileSetHash.OscillationIff | internal/attractor/oscillation.go:30-36 | with a collision-free digest oscillation means the last four file sets are A, B, A, B |
| SpecParser.ParseHeading | internal/spec/parser.go:105-131 | one to six hashes, a space, some text |
| SpecText.HeadingIff | internal/spec/parser.go:105-131 | a line is a heading of level n exactly when it is n hashes, one to six, a space and the text, with spaces around each |
| SpecParser.FindHeadings | internal/spec/parser.go:39-52 | the headings outside fenced blocks, in order |
| SpecParser.HeadingsAre | internal/spec/parser.go:39-52 | the list holds exactly the heading lines not inside a fence |
| SpecText.FenceIff | internal/spec/parser.go:42 | a fence line is three backquotes or tildes after any spaces |
| SpecText.FencedIff | internal/spec/parser.go:32-46 | inside a fence means after an odd number of fence lines |
| SpecParser.Laminar | internal/spec/parser.go:72-81 | of two sections the later heading lies in the earlier range exactly when all headings up to it are deeper, and then ends no later; otherwise they are disjoint |
| SpecParser.EmptyContentIff | internal/spec/parser.go:147-153 | a range has empty content exactly when all its lines are blank |
| SpecText.ContentIs | internal/spec/parser.go:147-153 | a content is the text of its lines with nothing but spaces cut off at both ends |
| SpecParser.EmptyHasNoSubsection | internal/spec/parser.go:70-88 | a section without content has no subsection |
| SpecParser.Parse | internal/spec/parser.go:14-91 | title, description and one section per heading with its range's content; nothing for blank text |
| SpecText.LinesAre | internal/spec/parser.go:26-27 | neither CRLF line ends nor any number of final newlines change the lines read |
| SpecLint.ExtractHeadings | internal/lint/spec.go:63-80 | the parser's headings, one line on, and whether a fence is left open |
| SpecLint.CheckEmptySections | internal/lint/spec.go:111-135 | the empty sections other than the first level-1 heading, in order |
| SpecLint.CheckDescription | internal/lint/spec.go:91-109 | whether text follows the first level-1 heading |
| SpecLint.DescriptionVerdicts | internal/lint/spec.go:91-109 | linter and parser each find no description exactly when the lines of their own range are blank: below the first level-1 heading, and below the first of any level |
| SpecLint.LintSpec | internal/lint/spec.go:25-60 | the diagnostics put together |
| SpecReports.ReportsIff | internal/lint/spec.go:25-60 | of a text that is not blank exactly these are reported: an odd number of fence lines, no level-1 heading, blank lines below it, and every other section with blank lines only |
| SpecLint.FlagsWhatTheParserLeavesEmpty | internal/lint/spec.go:111-135 | a section is reported exactly when the parser gives it empty content and it is not the first of level 1 |
| SpecLint.TitleFirstAgrees | internal/lint/spec.go:91-109 | when the text opens with a level-1 heading, linter and parser agree on a missing description |
| SpecLint.VerdictsDiffer | internal/lint/spec.go:91-109 | two texts on which they disagree, one each way |
| SpecLint.DeeperFirstDiffers | internal/lint/spec.go:82-109 | otherwise the parser's description ends before the linter's title |
| TokenBudget.TrimSources | internal/gene/scan.go:481-494 | keeps all role files and the longest prefix of the source files that fits beside them |
| TokenBudget.EnforceTokenBudget | internal/gene/scan.go:476-503 | then drops model, handler, readme while over budget |
| TokenBudget.DropLast | internal/gene/scan.go:483-493 | removing the last source file keeps one fewer of the first ones |
| TokenBudget.BudgetKept | internal/gene/scan.go:476-503 | the result is a subsequence, and over budget only when markers, a Dockerfile and an entry point remain |
| TokenBudget.DropsInOrder | internal/gene/scan.go:495-502 | a model, handler or readme file goes exactly when what is left without those before it is still over budget, and none while a source stays |
| TokenBudget.FitsInBytes | internal/gene/scan.go:476-503 | a token is four bytes of a file: up to 80003 bytes fit, in a single file no more, and in n files never 80004 + 3n |
| TokenBudget.FewerSourcesFit | internal/gene/scan.go:481-494 | fewer source files never cost more |

## Left out

- GeneValidation.ValidateComponents: case folding is modelled on the ASCII letters; other letters are left as they are.
- TopoSort.TopoSort: on duplicate names only the unknown-dependency half is stated; gene validation refuses such input.
- FileBlocks.ParseFilesWithMetadata: texts are sequences of Unicode scalar values, so bytes that are not valid UTF-8 are not covered.
- FileBlocks.ValidPathStaysInside: path separators are slashes; other platforms' paths are not modelled, and `a` and `./a` stay two paths.
- RunLoop.RunState.RunIteration: prompt texts, the feedback history and the agentic generation mode are inputs of the event, not computed; parsed scenario lines are taken as a map of scores.
- RunLoop.RunState.Process: a failing write of the best files is an error event; a partly written directory is not modelled.
- RunTheorems.BestBelowThreshold: stated for a positive threshold; at zero or below, the initial best of 0 already meets it.
- RunTheorems.RunAllBounds: scores and costs are reals; rounding and NaN are not modelled.
- ComposedRun.Compose: with duplicate names, whether a sorted order is found, what calls know of interfaces and what the merge holds are not stated; the build-infrastructure files and the final validation of the composed result are not part of this model.
- ComposedRun.MergeComponentFiles: takes any converged file sets; the inner loop that converges one component is an input.
- Containers.BuildRunValidate: context cancellation, and errors of the test command or the validator itself, leave by the same deferred clean-up and are not told apart.
- BackgroundStream.StreamBuffer.Collect: time is the number of polls until the timer fires; the second read of the error for the reported status, reconnecting and closing are not modelled.
- LintedRun.CleanLintLeavesNoReference: JSON escaping of values is a parameter: any brace-free values with the same names.
- ScenarioLint.LintScenario: checks of id, type, weight, tier, durations, methods, counts, retry and platform only add diagnostics and are left out, as are files, lines other than a capture's, and message texts.
- ScenarioRunner.Run: JSON path evaluation is a parameter; delays, executors and attempts are answers of the surroundings.
- Config.ReadConfig: the scanner's limit on line length and file permissions are not modelled.
- FileSetHash.HashedStream: sorting the keys is the library's; the method is given its result.
- SpecParser.Parse: the test command and the trimmed raw content are left out.
- SpecLint.LintSpec: the duplicate-heading check is left out.
- Language-model clients, Docker itself, browser and terminal automation, the store, tracing, prompts and language templates: input and output, or fixed text.
- Trend detection, tier inference, aggregation, cost tables and display code: correct but easy.
