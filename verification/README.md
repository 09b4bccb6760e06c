# A verified model of the orchestrator's protocols and of the end-to-end oracles

This project models, in Dafny, the control logic that decides what the Python orchestrator in `agent/`
does, and the evidence checks in `app/`, and proves what they promise for every input and every run.

* **Work units.** A work unit selects tasks of a dependency graph and drives each through Codex, a scope
  check, validation, bounded repair and transport retry, with a state file that survives crashes. Every
  foreign call (Codex, scope check, validation, state-file fingerprints, whether a write is refused) is an
  arbitrary answer of an oracle; every effect is an event of a trace; a crash cuts a trace anywhere. A
  history is a row of such starts, between which anyone may leave any file at the state path.
  Files: `TaskGraph`, `ExecutionState`, `Transitions`, `Select`, `Cycle`, `CycleProofs`, `WorkUnit`,
  `WorkUnitProofs` (fresh units and sound files), `Durability`, `AnyStart`, `Starts` (any readable file),
  `Histories`, `Budgets`, and what a run's evidence decides and its report means:
  `TurnEvidence`, `ReportEvidence`, `StartReports`, `DirtyWorktree`.
* **Reviews.** Independent review runs share nothing but a tracking comment and a set of labels. A run is
  the list of GitHub effects it makes; it may stop after any of them. Files: `Labels`, `ReviewLoop`,
  `ReviewRecord`, `ReviewProofs`, `ReviewDecisions`, `ReviewGate`, `ReviewNotices`, `ReviewProgress`, `ReviewStability`, `ReviewTraps`,
  `ReviewFixes`, `ReviewAttempts`.
* **Text that is written and read back.** The tracking comment, the marker of a pull-request body, and
  Task Spec paths, down to characters. Files: `PyText`, `Marker`, `ReviewTrack`, `PullBody`, `SpecPath`.
* **Clocks and traces.** The safe restart bound, the pairing of heartbeat operations, the renewal check,
  the publication oracles. Worlds of several clocks are ghost functions of physical time.
  Files: `ClockModel`, `Clocks`, `LifecycleEvents`, `LifecycleEvidence`, `Heartbeats`, `LifecycleOutput`, `Publication`.
* **The HCL scanner.** Brace matching against a reference lexer, and the two passes built on it.
  Files: `HclScanner`, `HclStatements`.

Where the source loops or mutates, there is a method with that loop (`Dfs`, `AssertTaskGraph`,
`SelectInDefinitionOrder`, `RunLoop`, `ParseTrackComment`, `ParseMarker`, `Issue.ApplyStatusLabel`,
`FilterFeedback`, `CollapsePathSegments`, `MatchingBrace`, `PairOperations`, `DeriveKeys`,
`ObservePublication` and others), proved against a specification. A result `None` or `Err` stands for
an exception of the source.

## Where the obvious claim is false

Nine claims a reader might expect do not hold of the code. Each has an input on which it fails. The first
eight listed have the exact condition under which they hold; the last one, about the IAM scan, has a
sufficient one.

* *A restart always recovers.* For every accepted spec some start leaves its unit FAILED with every task
  completed, and the next one raises INVALID_TRANSITION (`FailedUnitIsReachable`). `StartIsClassified`
  says for any readable state file which error a start raises; while nobody else touches the
  file, the start after that one recovers (`TwoStartsReachWork`).
* *Whatever is left at the state path, two starts reach work.* A tampering turn can leave a file from which
  no start ever does (`TamperingStrands`); `TwoStartsReachWorkIff` and `OtherwiseNeverWorks` give the
  condition, and `TwoStartsReachWork` reduces it to "not blocked" while nobody touches the file.
* *Repair budgets survive crashes.* For every n there is a history that starts n repairs
  (`RepairsAreUnbounded`). `RepairsAreConserved` accounts for every repair by the file and by what
  recovery gave back, `HistoryBudget` bounds the total, `RepairCountSurvivesIff` says when one is lost.
* *Every report is accepted by its validator.* A file of another unit that repeats a completed task makes
  the start raise instead of reporting (`RepeatedTaskIsNotReported`); `ReportAcceptedIff` and
  `PreparationReportIff` give the condition for every path.
* *READY means the feedback was dealt with.* A sticky READY returns without looking
  (`StickyReadyMissesFeedback`, `StickyReadyIff`). A run whose fix raises, or is killed before its push,
  leaves accepted feedback processed and unpushed (`KilledFixIsMissed`, `RaisedFixIsMissed`); `AbandonedIff`
  says exactly which runs do, `AbandonedIsReadyIff` exactly when the reviews after it are READY, and
  `AbandonedIsNeverPushed` and `AttemptsAreConserved` what that means over histories. `ReadyIsSound` says
  what READY does mean.
* *IN_REVIEW ends.* With a comment cap of zero it repeats for ever (`ZeroCapWaitsForEver`,
  `ZeroCapStallsIff`); otherwise it cannot, by `WaitingIsBounded`.
* *One tracking comment, always readable.* A notice that quotes the tracking marker makes every later run
  refuse (`QuotedMarkerRefuses`), and a spec path in the pull-request body gets there
  (`MarkerPathPoisons`). `NoticeFate` says exactly which notices do it, and `HistoriesAreSafe` what
  survives that, and that nothing else does it.
* *Canonicalising a path twice gives the same path.* `CanonicalizedIff`, and `BlankBeforeDot` on an input.
* *The IAM scan reads what the brace scanner reads.* Blanking strings ignores comments, so a quote in a
  comment can hide a statement (`CommentHidesStatement`). Where no blanked string covers a brace read in
  code and no other brace shows, the two agree (`IamStatementBodies`); closed strings and comments
  without quotes and opening braces suffice for that (`PlainScanAgrees`).

## Model

| member | source | states |
|---|---|---|
| TaskGraph.AssertTaskGraph | agent/spec.py:576-602 | each verdict if and only if its fault is the first: duplicate ids, an unknown dependency, or some task that reaches itself through one or more edges; acceptance yields a complete topological order |
| TaskGraph.DependencySearch.Dfs | agent/spec.py:590-599 | the nested search stops at a task on a cycle, or ends with the node visited, the path restored and the visited nodes in topological order; each nested call leaves fewer nodes off the path |
| TaskGraph.RankFalls | agent/spec.py:590-602 | a position in an accepted order is a rank that strictly falls along every edge |
| TaskGraph.OrderedIsAcyclic | agent/spec.py:590-602 | a graph with a complete topological order has no task that reaches itself |
| TaskGraph.AcyclicHasReady | agent/select.py:45-61 | every non-empty set of tasks of an acyclic graph has a member with no dependency in the set |
| Select.MissingDependencies | agent/select.py:10-11 | the listed dependencies are exactly those not completed; none is missing if and only if the task is ready |
| Select.SelectInDefinitionOrder | agent/select.py:14-61 | the loop that collects blocked tasks computes the selection: the current task if it can resume, else the first ready one, else none when all is completed, else the errors |
| Select.FirstReady | agent/select.py:45-56 | the first task in definition order that is neither completed nor blocked, and none only if there is no such task |
| Select.NeverBlocked | agent/select.py:45-61 | in an accepted graph selection is never blocked, and answers none exactly when every task is completed |
| Select.ExtendLinear | agent/cycle.py:650-681 | completing a selected task keeps the completed list a duplicate-free linear extension of the graph |
| Transitions.DeliveryIsValidated | agent/state.py:152-215 | whatever was tried before, a path of the status table from PENDING to PR_CREATED ends with implementing, validating, completing a task and final validation, in that order |
| Transitions.CompletionIsReviewed | agent/state.py:152-215 | a path to COMPLETED ends with all of that, then delivered, in review and ready |
| Transitions.EnteredFromIs | agent/state.py:152-215 | the statuses each status can be entered from |
| Transitions.StopsForGood | agent/state.py:152-215 | a status has no successor if and only if people must act or everything is done; RUNNING is entered from PENDING and FAILED alone |
| Transitions.TransitionIs | agent/state.py:295-356 | a transition outside the table is refused first; one inside it if and only if the state names no branch or holds a malformed identifier; otherwise only the status moves |
| CycleProofs.InvokePost | agent/cycle.py:881-961 | whatever the oracle answers from a Codex turn on: every state written keeps the invariant, exits are valid results or foreign errors, and Codex runs at most three times for each repair round left |
| CycleProofs.AfterCodexPost | agent/cycle.py:453-592 | the same, from the scope check on, with the transport retries left as the budget |
| CycleProofs.ValidatePost | agent/cycle.py:618-818 | the same, from validation on; repairs never exceed the limit and never decrease |
| CycleProofs.TamperedPost | agent/cycle.py:1023-1063 | a tampered turn ends in a valid SCOPE_VIOLATION result with its code, completes nothing and writes nothing |
| CycleProofs.CompletingKeeps | agent/cycle.py:650-681 | completing the task being worked on keeps the invariant of every state |
| TurnEvidence.TurnsFollowEvidence | agent/cycle.py:827-961 | the mutually recursive functions end, from any state of the unit that a turn passes through, with the outcome, code, status, result, repair count and number of turns that a flat loop decides from each turn's evidence alone |
| TurnEvidence.ScopedTurnFollowsEvidence | agent/cycle.py:453-592 | the same from the scope check on |
| TurnEvidence.ValidationFollowsEvidence | agent/cycle.py:618-818 | the same from validation on |
| TurnEvidence.CompletionNeedsAcceptedTurn | agent/cycle.py:494-818 | the last turn decides: the task is completed if and only if that turn was clean, in scope, successful and validated, out of scope if and only if it was tampered with or left the scope, failed if and only if the environment or the stream failed it, escalated if and only if anything else did; every earlier turn was a lost stream or a repairable rejection |
| TurnEvidence.FinalVerificationExact | agent/cycle.py:368-431 | final verification passes if and only if it ran and every command passed |
| ReportEvidence.StartFollowsEvidence | agent/workunit.py:520-645 | from any readable file that works, the start raises a foreign error if the evidence holds no verdict; otherwise it reports, unless the file repeats a completed task, and the report means what ended the run: passed, with its flags, if and only if the trace ends with a final verification run all of whose commands passed; out of scope, with its flag, if and only if something was tampered with or the last turn left the scope; failed if and only if the environment ended it; escalated if and only if anything else did |
| ReportEvidence.EphemeralFollowsEvidence | agent/reconcile.py:82-85 | the same for a unit whose states are not persisted |
| ReportEvidence.LoopFollowsEvidence | agent/workunit.py:589-645 | the same for the loop over cycles from any state it can be resumed in |
| ReportEvidence.SaidIsMeant | agent/workunit.py:65-150 | a cycle result that says what ended it becomes a report that means it: outcome, the three flags, code, tasks and repairs |
| StartReports.IdleStartReports | agent/workunit.py:372-451 | what a start reports without any work: a file that blocks, by its own status, with its flags and class; one of another unit or branch, one that cannot be read and a path without a regular file, by the code of the refusal, about the stored state or an untouched one |
| StartReports.ReconcileReportIs | agent/workunit.py:372-396 | for any state whatever: there is a report if and only if the status has an outcome of that name, the branch is the spec's and the completed tasks are distinct tasks of the spec; it names the status |
| StartReports.CompletedTaskIsNotReported | agent/workunit.py:143-150 | a report is refused as unsupported if and only if its cycle completed a task |
| StartReports.AttemptIs | agent/reconcile.py:71-95 | a start whose writes may be refused: every state in its trace was written; it is the whole start if and only if none was refused; a refusal of preparation's own write is reported as a scope violation about an untouched state, any later one is raised as STATE_TAMPERED |
| StartReports.FirstWriteIsPreparations | agent/reconcile.py:71-95 | the first event of a start is preparation's write of the state it goes on from, and a start without one was refused or crashed |
| StartReports.ValidReportsAgree | agent/workunit.py:157-238 | the validator leaves no choice: outcome and state fix the flags, tasks, count and branch of an accepted report, and the outcome whose failure it is |
| DirtyWorktree.DirtEndsACycleIff | agent/cycle.py:325-328 | from any state, dirt ends a cycle, with its own error and no event, if and only if a clean tree is wanted, nothing is completed, the state file is regular or absent and a task is selected; otherwise the cycle is the one a clean tree would have had |
| DirtyWorktree.OnlyFirstDirtCounts | agent/cycle.py:325-328 | whatever the file holds, a start equals the one in which the tree is clean from the second cycle on, and from the first if something is completed already: the files that tasks leave behind end nothing |
| DirtyWorktree.DirtyStartIsRefused | agent/cycle.py:325-328 | from a file that works with nothing completed, on a dirty tree where a clean one is wanted, the start writes its first state, raises DIRTY_WORKTREE and does nothing else |
| WorkUnit.RunLoop | agent/workunit.py:589-620 | the bounded loop that rebinds the state and the last result computes the run, its trace and the bound's failure; what the run's report means is `StartFollowsEvidence` |
| WorkUnitProofs.CompletedCount | agent/workunit.py:592-593 | a linear extension has at most as many entries as there are tasks, and as many only when all are completed |
| WorkUnitProofs.SelectFromCheckpoint | agent/select.py:14-61 | from any state the loop starts a cycle in, selection succeeds with a ready, uncompleted task, or with none exactly when all is done |
| WorkUnitProofs.FinalVerifyIfReadyPost | agent/cycle.py:368-431 | from a complete checkpoint the cycle runs final verification, invokes no Codex and ends in a valid result or a foreign error |
| WorkUnitProofs.RunTaskCyclePost | agent/cycle.py:294-365 | a cycle adds exactly one completed task if it reports TASK_COMPLETED and none otherwise, within three Codex runs and three for each repair it used; when the dirty-tree guard ends it is `DirtEndsACycleIff` |
| WorkUnitProofs.LoopPost | agent/workunit.py:589-620 | one iteration for each missing task and one more suffice: the loop's `else` is never reached, and Codex stays within budget |
| WorkUnitProofs.FreshRunIsSafe | agent/workunit.py:520-653 | a fresh work unit over an accepted spec, each of whose state writes may be refused as tampered: it raises nothing of its own but that refusal, reports what its validator accepts, writes only linear extensions, and runs Codex at most 3 * (tasks + repair limit) times |
| WorkUnitProofs.ReportAccepted | agent/workunit.py:157-238 | every cycle result that ends the loop becomes a report the validator accepts; what that report means is `SaidIsMeant` |
| WorkUnitProofs.BlockedReportAccepted | agent/workunit.py:372-396 | a blocked start reports the state it found, and the validator accepts it |
| WorkUnitProofs.PreparationKeeps | agent/reconcile.py:122-178 | from a file that satisfies the state invariant: recovery is blocked exactly in ESCALATED and SCOPE_VIOLATION, drops no completed task, leaves the current task absent, completed or ready, and is stuck exactly after a complete FAILED unit |
| WorkUnitProofs.RepairCountSurvivesIff | agent/reconcile.py:163-178 | one recovery keeps the repair count if and only if it is zero or the run was not in flight with nothing completed |
| WorkUnitProofs.StartPost | agent/workunit.py:520-653 | a start from any file that satisfies the state invariant, other than a complete FAILED one, is as safe as a fresh run and within the budget that is left |
| WorkUnitProofs.StuckStart | agent/reconcile.py:148-153 | a complete FAILED unit is retried as RUNNING, that state is written and nothing else happens |
| WorkUnitProofs.InvalidTransitionIff | agent/cycle.py:377-385 | from a file that satisfies the state invariant, a start raises INVALID_TRANSITION if and only if the unit had FAILED with every task completed and the cycle got as far as selecting |
| Durability.InvokeKept | agent/cycle.py:881-961 | from a Codex turn on, and from any state of the unit the schema accepts: every write follows the transition table and counts its repair or its completion, Codex runs at most three times between two such writes and only on the task the last write shows, and an untampered result is the state written last |
| Durability.AfterCodexKept | agent/cycle.py:453-592 | the same from the scope check on |
| Durability.ValidateKept | agent/cycle.py:618-818 | the same from validation on, repair rounds included |
| AnyStart.SelectIs | agent/select.py:14-61 | selection from any state whatever: the unknown task, the dependency that blocks the current task, the end, or the task it selects, each if and only if |
| AnyStart.EntersIff | agent/cycle.py:434-450 | exactly which states can enter a task, and that entering changes only the status and the current task |
| AnyStart.CycleFrom | agent/cycle.py:294-365 | one cycle from any resumable state: the error of its own it raises, exactly when, what it writes, what its result says of the state and how a completed task changes what is missing |
| AnyStart.ReportIff | agent/workunit.py:157-238 | a result that ends the loop is reported if and only if its completed tasks are distinct |
| AnyStart.LoopFrom | agent/workunit.py:589-645 | the loop from any resumable state: the bound suffices, writes are ahead of work, and it raises the error its first state stands for, a refused report or a foreign error |
| Starts.PreparationIsExact | agent/reconcile.py:122-178 | preparation of any state the schema accepts: the two refusals, the blocking statuses and the state it resumes, each if and only if |
| Starts.StartIsClassified | agent/workunit.py:520-645 | from any file the reader accepts or refuses, whoever wrote it, the file alone decides whether the start refuses, crashes on bytes it cannot decode, blocks, raises INVALID_STATE, DEPENDENCY_BLOCKED or INVALID_TRANSITION, or reaches a Codex turn or final verification; the loop bound is never reached |
| Starts.ReportAcceptedIff | agent/workunit.py:157-238 | from any readable file the report is accepted if and only if the completed tasks it shows are distinct, and known tasks where the spec is checked, and a refusal has a non-empty code; otherwise the start raises INVALID_WORK_UNIT_REPORT |
| Starts.PreparationReportIff | agent/workunit.py:399-451 | the same for a preparation error built from any state and code |
| Starts.RepeatedTaskIsNotReported | agent/workunit.py:182-185 | the input: a stored file of another unit that lists one completed task twice |
| Starts.StartWritesAhead | agent/workunit.py:520-645 | a start from any readable file writes first the state it starts from; then Codex runs only on the task the file shows as IMPLEMENTING, final verification only while the file shows FINAL_VALIDATING, every write follows the transition table, and an untampered report is about the state in the file |
| Starts.TwoStartsReachWorkIff | agent/reconcile.py:122-178 | from any readable file, one of two clean starts reaches work if and only if the file works at once or is a FAILED one whose retry leaves a file that does |
| Starts.OtherwiseNeverWorks | agent/reconcile.py:122-178 | from any other readable file no number of starts ever reaches work, in whatever environment |
| Histories.LeftBehindIsSound | agent/reconcile.py:71-95 | the file that any history of starts, each killed after any event, leaves behind satisfies the state invariant, as long as what others leave at the path does |
| Histories.TwoStartsReachWork | agent/reconcile.py:122-178 | after any history, tampering included, two clean starts reach work if and only if the file can work; while nobody touches the file, that is if and only if it is not blocked |
| Histories.TamperingStrands | agent/cycle.py:1023-1063 | the input: a turn is reported as tampered, the file it leaves is readable, and every later start raises INVALID_STATE |
| Histories.FailedUnitIsReachable | agent/cycle.py:377-385 | the input: for every accepted spec, a start that leaves its unit FAILED with every task completed, after which the next start raises INVALID_TRANSITION |
| Budgets.RepairsAreConserved | agent/reconcile.py:163-178 | over any history of killed starts, whatever readable files others leave in between: repairs started + what others added to the count = repairs the file shows + repairs that preparation gave back; the same for completed tasks; and Codex ran at most three times for each start, completion and repair |
| Budgets.HistoryBudget | agent/reconcile.py:163-178 | while what others leave satisfies the state invariant, the repairs, less what others took off the count, are at most the limit once, and once more for each start that began again from PENDING |
| Budgets.RepairsAreUnbounded | agent/reconcile.py:163-178 | the input: for every n, a history of killed starts that makes n repairs, all but the last of them given back |
| ReviewTracking.ParseTrackComment | agent/review_track.py:73-134 | the line loop over three variables computes the parse |
| PyText.DigitGroupIff | agent/review_track.py:119-122 | an attempt count is a number if and only if, after its sign, it is runs of digits joined by single underscores |
| ReviewTracking.MergeProcessed | agent/review_track.py:158-180 | the append loop computes the merge |
| ReviewTracking.MergeAdds | agent/review_track.py:158-180 | merging keeps the old identities as a prefix and adds exactly the given ones |
| ReviewTracking.TrackRoundTripIff | agent/review_track.py:73-155 | a track is read back from its rendering unchanged if and only if its fields and identities are trimmed, single-line, free of the end marker, non-empty where required, and of the current schema |
| ReviewTracking.RenderedIsReadIff | agent/review_track.py:73-134 | a track whose text keeps its lines is read back if and only if it is of the current schema and names its unit in full, and refused otherwise |
| ReviewTracking.ParsedIsWellFormed | agent/review_track.py:73-134 | whatever body parses, the track is one that survives being written |
| ReviewTracking.ParseIsStable | agent/review_track.py:73-155 | for any body that parses, rendering and parsing again gives the same track |
| Marker.ExtractFramed | agent/pr.py:37-47 | the block between a start marker and the end marker is extracted whole, whatever follows it |
| Marker.FieldRoundTrip | agent/pr.py:22-60 | a rendered `key: value` line is read back as its key and value |
| PullBody.ParseMarker | agent/pr.py:37-67 | the dictionary-filling loop computes the parse |
| PullBody.MarkerRoundTripIff | agent/pr.py:22-67 | the marker read from a pull-request body is exactly the five identity fields, whatever the other sections say, if and only if the fields are non-empty, trimmed, single-line and free of the end marker |
| PullBody.ReuseIsExact | agent/pr.py:80-130 | the body of one spec authorises exactly the specs of the same identity, and selects a pull exactly when id, branches and refs agree |
| PullBody.SelectedIsOurs | agent/pr.py:70-97 | whatever a body says, a selected pull carries the marker and the spec's two branches, neither blank, and belongs to no spec of another id or branch |
| PullBody.AuthorisedIsOne | agent/pr.py:111-130 | whatever a body says, it authorises the specs of one identity only |
| PullBody.UnboundIsRefused | agent/spec.py:205-217 | a spec without a bound path or digest gets no body and is never authorised |
| PullBody.BodyShows | agent/pr.py:133-189 | each section stands in the body under its heading, with every item it lists in order, or the words for none |
| Labels.Issue.ApplyStatusLabel | agent/labels.py:55-66 | the calls on the issue, one by one and in order, and the label set they leave |
| Labels.Issue.CurrentTerminalStatusLabel | agent/labels.py:39-52 | the loop reads failed before escalated before ready |
| Labels.LabelChangeIsSafe | agent/labels.py:39-66 | after any number of the calls of an exclusive change the target is set, no other label moved, the sticky reading is the one before or the one after, and in the end the target is the only exclusive label |
| ReviewLoop.LoadTrackComment | agent/review_loop.py:743-786 | the loop over the comments computes the loaded track or the refusal |
| ReviewLoop.FilterFeedback | agent/review_loop.py:337-370 | the filtering loop computes the partition |
| ReviewLoop.ClassifyBatch | agent/review_loop.py:404-449 | the classification loop computes the decisions, or stops at the first failure |
| ReviewRecord.StepKeeps | agent/review_loop.py:743-804 | an allowed effect keeps the record's invariant, keeps the comments' text readable as the record, and keeps a status label set |
| ReviewRecord.StatusAllowed | agent/review_loop.py:326-328 | a status change is allowed from any record, after any of its calls, and moves only labels |
| ReviewRecord.LoadReadsRecord | agent/review_loop.py:743-786 | loading never finds two tracks: it returns the record's track, and refuses only a marker forged in a foreign comment |
| ReviewProofs.PartitionIsExact | agent/review_filter.py:59-81 | every item is in the part its reason says, and every part holds only collected items |
| ReviewProofs.FixPolicyIsExact | agent/review_policy.py:22-88 | a fix is decided if and only if the feedback is actionable, repair is enabled, confidence suffices and all referenced paths, at least one, are in scope |
| ReviewDecisions.ReviewDecides | agent/review_loop.py:337-536 | what a run on completed feedback does, over the classifier and the configuration: a forbidden path escalates; then the first item of the batch without an answer escalates or raises; then the first item that needs people escalates with its own reason and no fix starts; then the actionable ones that may be fixed are fixed, all and only they, or escalate when the attempts are used up; otherwise nothing is fixed and nobody is asked |
| ReviewDecisions.EscalatesIff | agent/review_loop.py:452-516 | with nothing forbidden and every item answered, the run ends ESCALATED if and only if some batch item is neither actionable nor non-actionable, or actionable and refused a fix (repair off, low confidence, no path, a path out of scope), or one is accepted and the attempts are used up |
| ReviewDecisions.ReadyIff | agent/review_loop.py:372-498 | when nobody is asked and nothing fixed, it ends READY if and only if the batch left no candidate and every item of the actor about this head is processed |
| ReviewDecisions.LookedAt | agent/review_loop.py:337-402 | the candidates, the forbidden, the set-aside items and the batch a run looks at are those of the whole feedback, each by its own fields |
| ReviewDecisions.PolicyIff | agent/review_policy.py:22-88 | for every answered item: people are asked, or a fix is decided, exactly by the class, the switch, the confidence and the paths, with the reason of the first that fails |
| ReviewGate.GateIs | agent/review_loop.py:222-335 | what a run answers without looking at feedback: a setup error or a refused load raises without effect; on the head its track is bound to, a terminal label answers, FAILED before ESCALATED before READY, without effect and with the track's counts, and FAILED is answered in no other way; a review that has not finished leaves IN_REVIEW with a label change only; one that cannot be read escalates with its name |
| ReviewGate.LoadIff | agent/review_loop.py:743-786 | for any comments, loading succeeds if and only if every marked comment is a track of this unit by the author and no two are marked; it returns that one and its comment, or a new track |
| ReviewProofs.FixAllowed | agent/review_loop.py:500-536 | the incremented track that covers the accepted items is durable before the fix starts |
| ReviewProofs.PlanAllowed | agent/review_loop.py:267-536 | every effect of a run whose notice does not quote the tracking marker is allowed where it happens |
| ReviewNotices.FrontAllowed | agent/review_loop.py:267-536 | whatever its notice says, every effect of a run before the notice is allowed where it happens |
| ReviewProofs.QuietRunKeeps | agent/review_loop.py:977-1041 | a run cut anywhere, and its failure handling cut anywhere, with no marker in a notice, leave the pull request described by the record that its effects make |
| ReviewNotices.SilencedPlan | agent/review_loop.py:807-974 | what a notice says changes nothing of a plan but the notice |
| ReviewNotices.QuotedMarkerRefuses | agent/review_loop.py:743-786 | one comment of the orchestrator with the marker and no end marker makes every later load refuse, whatever else is on the pull request |
| ReviewNotices.NoticeFate | agent/review_loop.py:743-786 | after a posted notice every later load refuses, whatever is added, if and only if the notice holds the marker and is not read as the first track of this unit; otherwise loading finds the track there was, or the forged one |
| ReviewNotices.NoticeQuotes | agent/notify.py:20-39 | the text of a failure notice contains its reason: a marker in it is a marker of the notice |
| ReviewNotices.MarkerPathPoisons | agent/review_loop.py:680-741 | the input: the marker of a pull-request body names this path, the path is refused, the failure notice quotes it, and every later run refuses and has no effect |
| ReviewNotices.RunRecorded | agent/review_loop.py:977-1041 | a run cut anywhere, and its failure handling cut anywhere, leave exactly the record that their effects make, or a pull request that refuses for ever |
| ReviewNotices.RunKeeps | agent/review_loop.py:977-1041 | a run cut anywhere, and its failure handling cut anywhere, whatever the notices say, keep the pull request either described by a record or refused for ever |
| ReviewNotices.HistoriesAreSafe | agent/review_loop.py:222-536 | after any sequence of runs on any heads, each stopped after any effect, whatever the notices say: at most min(spec limit, config limit) fixes, no identity accepted by two fixes or pushed twice, only started fixes pushed, a status label once set stays set, and at most one tracking comment or every later run refuses; without a quoted marker it is the former |
| ReviewProgress.ConvergenceIsExact | agent/review_loop.py:824-852 | READY if and only if every item that applies to the head is processed; then the track is bound to the head and ready is the only exclusive label |
| ReviewProgress.CompletedShape | agent/review_loop.py:337-498 | a run on completed feedback escalates, fixes, raises, converges, or leaves a batch's rest for later, and nothing else |
| ReviewProgress.ReadyIsSound | agent/review_loop.py:325-498 | READY without a sticky label means: completed on this head, track bound to it, and every collected item that applies processed |
| ReviewProgress.StickyReadyIff | agent/review_loop.py:861-895 | the runs that return READY from a sticky label are exactly those on the bound head with ready set and neither failed nor escalated; they have no effect and do not depend on the feedback |
| ReviewProgress.InReviewGrows | agent/review_loop.py:387-498 | unless the cap is zero, an IN_REVIEW run after completion has processed an item it had not |
| ReviewProgress.ZeroCapStallsIff | agent/review_loop.py:387-402 | with a cap of zero the run stays IN_REVIEW with nothing new processed if and only if something waits, nothing is skipped and nothing is forbidden |
| ReviewProgress.WaitingIsBounded | agent/review_loop.py:325-498 | on fixed items IN_REVIEW repeats at most once for each item not yet processed |
| ReviewTraps.ZeroCapWaitsForEver | agent/review_loop.py:387-402 | the input: with a cap of zero, something waiting and nothing forbidden, there are n IN_REVIEW runs in a row for every n |
| ReviewTraps.StickyReadyMissesFeedback | agent/review_loop.py:861-895 | the input: a READY run, then one new item that applies to the head, and READY again with the item unprocessed |
| ReviewFixes.FixPlanShape | agent/review_loop.py:518-536 | a run that starts a fix sets the review label and persists the incremented track before it, and after it pushes exactly what it accepted, or raises |
| ReviewFixes.AbandonedIff | agent/review_loop.py:518-677 | a run that decides to fix leaves its accepted feedback processed and unpushed if and only if its attempt was persisted and its fix raised or was killed before the push |
| ReviewFixes.AbandonedIsReadyIff | agent/review_loop.py:337-498 | after such a run every completed review of the same head and feedback is READY if and only if no candidate was left waiting, no failed or escalated label call got through, and no notice with the tracking marker was posted |
| ReviewFixes.FirstFixIsMissed | agent/review_loop.py:518-677 | on a first review with one actionable item in scope: wherever the run stops before its push, unnoticed, the next review is READY and nothing was pushed |
| ReviewFixes.KilledFixIsMissed | agent/review_loop.py:555-677 | the input: the process is killed while the fix runs |
| ReviewFixes.RaisedFixIsMissed | agent/review_loop.py:1002-1041 | the input: the fix raises and the failure label does not reach GitHub |
| ReviewAttempts.AttemptsAreConserved | agent/review_loop.py:372-536 | over any history of runs cut anywhere, whatever their notices quote short of a track of this unit, the attempts of the track without a push grow by exactly the runs that abandoned their fix |
| ReviewAttempts.ForgedAttempts | agent/review_loop.py:743-786 | the input for the exception: a notice that reads as the first track brings the attempts it names |
| ReviewAttempts.AbandonedIsNeverPushed | agent/review_loop.py:337-370 | what such a run had accepted is part of no push, whatever runs follow and whatever any notice says |
| ReviewStability.CompletedLeaves | agent/review_loop.py:372-536 | whichever way a run on completed feedback ends READY or ESCALATED, it leaves its track bound to the head, its processed set and attempts in it, and that status as the only exclusive label |
| ReviewStability.TerminalIsStable | agent/review_loop.py:861-974 | after such a run every further run on the same head returns the same outcome, processed set and attempts, without any effect, unless it escalated with a notice that quotes the tracking marker |
| SpecPath.CollapsePathSegments | agent/spec.py:272-286 | the push-and-pop loop raises if and only if some prefix climbs above the root, and keeps exactly the names nothing later climbs out of |
| SpecPath.CollapseIsIdempotent | agent/spec.py:272-286 | the output has no empty, dot or dot-dot segment and no separator inside a name, and collapsing it again changes nothing |
| SpecPath.CanonicalIff | agent/spec.py:163-175 | canonical paths are exactly the trimmed, backslash-free fixpoints of collapsing under the directory |
| SpecPath.CanonicalizedIff | agent/spec.py:134-160 | a canonicalised path is canonical, and a fixpoint, if and only if it has no outer whitespace |
| SpecPath.CanonicalizeAnswers | agent/spec.py:134-160 | which refusal a path meets, over its segments: blank, back at the root or without a configured directory; outside the repository or climbing above its root; or not in the directory |
| SpecPath.UnderIff | agent/spec.py:289-301 | being under a directory is a matter of whole names: the path's names begin with all of the directory's and go on |
| SpecPath.CanonicalIsRelative | agent/spec.py:163-175 | whatever directory is configured, a canonical path is not blank, not absolute and on no drive |
| SpecPath.BlankBeforeDot | agent/spec.py:134-160 | `specs/tasks/a /.` canonicalises to a path that is not canonical |
| HclScanner.MatchingBrace | app/scripts/validate_terraform_contracts.py:126-178 | the scanner returns the first index at which a reference lexer closes the depth, and raises if and only if there is none |
| HclScanner.BlankedShowsCode | app/scripts/validate_terraform_contracts.py:891-895 | on text whose strings are closed and whose comments hold no quote and no opening brace, blanking strings shows exactly the characters outside strings |
| HclScanner.MaskNestedObjects | app/scripts/validate_terraform_contracts.py:891-901 | for any text the result is the recursive masking `MaskFrom`, which blanks every shown brace up to the first close of the reference lexer and fails if and only if one has none; where the braces that show are those read in code, that is exactly the outermost objects |
| HclStatements.IamStatementBodies | app/scripts/validate_terraform_contracts.py:904-915 | for any text it computes `Found`: the bodies, in order, at the braces that show once strings are blanked and whose masked text has an action, or the failure at the first that has no close or cannot be masked; where the braces that show are those read in code, in the text and in each body, it raises if and only if an object is left open, and the bodies are those of the objects opened in code |
| HclStatements.AllClosedIff | app/scripts/validate_terraform_contracts.py:904-915 | every object has a matching brace if and only if nothing is open at the end |
| HclStatements.BodyBalanced | app/scripts/validate_terraform_contracts.py:911-913 | the body of any closed object is balanced, so that masking it cannot raise where its braces show as they are read |
| HclStatements.PlainScanAgrees | app/scripts/validate_terraform_contracts.py:891-915 | text whose strings are closed and whose comments hold no quote and no opening brace is such a text |
| HclStatements.CommentHidesStatement | app/scripts/validate_terraform_contracts.py:904-915 | the input on which comments matter: an object with an action, between two comments that each hold a quote, is the only statement, and the scan finds none |
| Clocks.ExcessIsExact | app/frontend/e2e/reliability/lifecycle.ts:59-84 | the reported excess is exactly the tolerance that was missing; a reversed local clock is reported first, by how far it went back, and no tolerance accepts it |
| Clocks.UnusableIff | app/frontend/e2e/reliability/lifecycle.ts:65 | numbers that are all positive are never refused as unusable, others always |
| Clocks.RecoveryIsSafe | app/frontend/e2e/reliability/lifecycle.ts:22-43 | once local time reaches the bound, the lease and every window granted before the stop have expired, for all clocks whose elapsed times agree within the skew; when there is a bound is `AnsweredIff` |
| Clocks.GenuineIsAnswered | app/frontend/e2e/reliability/lifecycle.ts:22-43 | evidence is never refused if its numbers are positive, some clocks explain the database reading within the tolerance, and the response came no later than the stop on a local clock that never runs back and agrees with the worker's within the skew |
| Clocks.AnsweredIff | app/frontend/e2e/reliability/lifecycle.ts:22-84 | a bound is answered if and only if some world explains the whole evidence; the refusals name, in order, numbers that are not positive, a database reading no world explains, and an observation that no world puts before the stop |
| Clocks.NoEarlierBoundIsSafe | app/frontend/e2e/reliability/lifecycle.ts:22-43 | a restart at a reading may meet an unexpired lease or window if and only if the reading is before the tight bound; the reported bound is never earlier, and equals it if and only if the lease had not expired when read or the logged extension reaches past the local reading |
| Clocks.GenuineRestartIsAccepted | app/frontend/e2e/reliability/lifecycle-driver.ts:258-271 | after the driver's wait, a genuine acquisition is never rejected by the replacement check |
| Clocks.LocalWaitSuffices | app/frontend/e2e/reliability/lifecycle-driver.ts:254-268 | the database clause of the wait never delays it beyond the local one |
| Clocks.AcceptedReplacementIsSafe | app/frontend/e2e/reliability/lifecycle.ts:138-140 | an accepted acquisition really happened after everything had expired |
| Clocks.WaitIsExact | app/frontend/e2e/reliability/lifecycle-driver.ts:258-268 | a wait of twice the skew suffices for every genuine restart, and no shorter wait does |
| LifecycleEvents.GroupOperations | app/frontend/e2e/reliability/lifecycle-events.ts:23-96 | the row loop fails if and only if a row is rejected, a group gets two operations of a kind, or the size bound is passed; otherwise the map holds exactly the groups |
| LifecycleEvidence.JudgeIff | app/frontend/e2e/reliability/lifecycle-events.ts:27-96 | a row is accepted if and only if it is of the owner's delivery, succeeded, carries the owner's message and no other job or video, has a positive safe cycle, times within the skew and the configured duration, and for a lease the owner's worker and attempt; it is ignored if and only if it is of no owned delivery and names neither job nor video; an accepted row's operation carries its fields |
| LifecycleEvidence.UsableIff | app/frontend/e2e/reliability/lifecycle-events.ts:15-110 | the evidence is usable if and only if the skew is positive, every row is accepted or ignored, at most 20000 are owned, no two are of one kind, delivery and cycle, and no extension was requested before its cycle's renewal was answered, within the skew |
| LifecycleEvidence.OperationsAreGenuine | app/frontend/e2e/reliability/lifecycle-events.ts:44-96 | every operation returned reports one genuine row, and every owned row is reported |
| LifecycleEvidence.HeartbeatsSummarizeRows | app/frontend/e2e/reliability/lifecycle-events.ts:97-121 | every heartbeat says of its cycle what the rows of that delivery and cycle say, and every owned row has a heartbeat |
| LifecycleEvents.PairGroups | app/frontend/e2e/reliability/lifecycle-events.ts:97-120 | the second loop fails if and only if some pair is out of order, and otherwise makes one heartbeat for each group in order |
| LifecycleEvents.PairOperations | app/frontend/e2e/reliability/lifecycle-events.ts:15-122 | the whole function succeeds exactly on usable evidence, which `UsableIff` reads off the rows, and returns its operations and heartbeats |
| LifecycleEvents.KeysDistinct | app/frontend/e2e/reliability/lifecycle-events.ts:88-93 | each delivery and cycle has one group |
| LifecycleEvents.OperationsConserved | app/frontend/e2e/reliability/lifecycle-events.ts:88-120 | operations = 2 * succeeded + incomplete heartbeats |
| LifecycleEvents.PairingIgnoresInterleaving | app/frontend/e2e/reliability/lifecycle-events.ts:14-122 | neither whether the evidence is usable nor the set of heartbeats depends on how the log lines are interleaved |
| LifecycleEvents.ReportedExpiryIsLowerBound | app/frontend/e2e/reliability/lifecycle-events.ts:112-117 | each reported expiry is at most the expiry the service set, for any clocks within the skew, even if the worker's clock stepped back |
| LifecycleEvents.NoLaterExpiryIsSafe | app/frontend/e2e/reliability/lifecycle-events.ts:112-117 | some world within the skew has the operation expire before a later bound if and only if the bound exceeds start + duration - skew; the reported one is below that by exactly how far the worker's clock stepped back, and not at all if it did not |
| Heartbeats.AssertHeartbeats | app/frontend/e2e/reliability/lifecycle.ts:186-233 | the loop over neighbours accepts exactly enough complete cycles of one owner, with every cycle number above all earlier ones and no time falling back beyond the tolerance |
| Heartbeats.CyclesAreDistinct | app/frontend/e2e/reliability/lifecycle.ts:199-225 | the cycles counted are distinct, and the last is at least the required number |
| Heartbeats.BoundsGrow | app/frontend/e2e/reliability/lifecycle.ts:193-231 | without a tolerance, times and expiry bounds grow strictly over the whole run |
| Heartbeats.LossIsBounded | app/frontend/e2e/reliability/lifecycle.ts:193-231 | with one, the bounds fall by at most one tolerance for each step between two renewals |
| Heartbeats.LossAddsUp | app/frontend/e2e/reliability/lifecycle.ts:193-231 | and they can fall by that much: one tolerance over the whole run is not a bound |
| Heartbeats.RenewalsUseEveryOperation | app/frontend/e2e/reliability/lifecycle-events.ts:97-121 | paired evidence that passes the check has exactly two operations for each cycle, all of one delivery |
| LifecycleOutput.AcknowledgedIff | app/frontend/e2e/reliability/duplicate-driver.ts:76-84 | acknowledged if and only if the delivery whose first event is newest ends with a deletion |
| LifecycleOutput.CollectKeys | app/frontend/e2e/reliability/lifecycle-driver.ts:99-116 | the pair loop accepts exactly segment pairs closed by one manifest pair, and collects their keys |
| LifecycleOutput.DeriveKeys | app/frontend/e2e/reliability/lifecycle-driver.ts:62-118 | a trace is accepted if and only if it is download, encode, k >= 1 segment pairs, one manifest pair, completion, by one owner, in time order and acknowledged; the keys are then those of k consecutive segments and the manifest |
| LifecycleOutput.ShapeIff | app/frontend/e2e/reliability/lifecycle-driver.ts:91-109 | the order checks and the pair loop together pin the shape of the trace |
| LifecycleOutput.WorkKeeps | app/frontend/e2e/reliability/lifecycle-driver.ts:67-71 | the trace keeps exactly the positions of the log with one of the nine work outcomes of the owner's delivery, each once and in log order |
| LifecycleOutput.OthersAreIgnored | app/frontend/e2e/reliability/lifecycle-driver.ts:67-79 | an event of another delivery, wherever it stands, is not in the owner's trace, and if it is of another message too it changes neither verdict nor keys |
| LifecycleOutput.PaddedIs | app/frontend/e2e/reliability/lifecycle-driver.ts:113 | padding puts zeros in front until there are five characters |
| LifecycleOutput.SegmentKeysAreEven | app/frontend/e2e/reliability/lifecycle-driver.ts:110-114 | below 100000 segments every segment key has five digits |
| LifecycleOutput.KeysAreDistinct | app/frontend/e2e/reliability/lifecycle-driver.ts:110-114 | no two of the keys are equal: the segment number can be read back from its padded key |
| Publication.ObservePublication | app/frontend/e2e/publication-probe.ts:48-94 | the polling loop returns exactly when the manifest appears bracketed and the CDN serves it in time, with the evidence fixed by those two rounds; it fails with the reason of the first round that breaks a rule, and as stopped if and only if a round before any other end is aborted or its guard reads the start plus the timeout or later |
| Publication.PublicationBracketed | app/frontend/e2e/publication-probe.ts:44-94 | in every world that explains the observation, publication lies between the last absence and the first presence, at most 5 s apart, and the true delay to the CDN's first success is at most the reported bound, at most 10 s |
| Publication.NoSmallerBoundIsSafe | app/frontend/e2e/publication-probe.ts:84-89 | whenever some world explains the observation, every smaller bound is exceeded in another world that explains it |

## Left out

- Subprocesses, git, GitHub HTTP, OpenAI and AWS calls: parameters and oracles. Snapshot, policy and credential errors of a cycle's start are one answer of its oracle.
- The persistence of a state: a write happens, is refused (`Attempt`), or the run is killed there; what a half-written file or a full disk leaves is not modelled, because the source replaces the file atomically.
- `run_task_cycle` without a state argument, and the loading of a state file inside it: a work unit always passes the state.
- `bind_spec_identity` and the scope-policy check at the head of `run_work_unit`: they run before any state exists.
- Prompts, diagnostics, thread ids, backoff times, validation output, changed files, patches and commit ids in results and reports.
- The message of a refused preparation is a constant of the model; the source repeats the exception's text.
- The schema patterns accept one trailing newline in an identifier; the model's identifiers have none.
- Unicode: whitespace, line breaks, letters and decimal digits are the ASCII ones and the few listed in `PyText`; `splitlines` drops a last empty line, which the parsers skip anyway.
- Absolute spec paths: their resolution against the file system is the parameter `absolute`.
- The order of collected feedback, GitHub's JSON shapes, and repository-level label creation.
- Review runs: the head and the feedback identities are assumed to be one trimmed line without an end marker. The orchestrator's own comments are those of the tracking author. The text of the human action and of the mention in a notice is a parameter.
- The inside of `_apply_review_fix`: it starts, and it pushes, raises before its push, or raises once the remote has it.
- NaN and infinite times, and the parsing of JSON log lines and span merging: a row is a record with real times.
- The checks of `assertCrashRecovery` other than the acquisition time, and the polling of `runLifecycle` around the oracles.
- `validateDuplicateResult` and `runDuplicate`: the first repeats the oracle of `lifecycleOutput` without timestamps of its own.
- The regular expressions of the Terraform policy checks: `hasActions` is a parameter of `IamStatementBodies`; block headers and `_without_ecr_token_statements` are not modelled.
- BlankedShowsCode: asks for closed strings and for comments without quotes and opening braces; `IamStatementBodies` asks only that the braces agree.
- The directory probe of `agent/config.py`, and the worker lease protocol, whose source is not part of this model.
