# FGOps: a Dafny model

FGOps keeps FortiGate databases up to date. It watches a publisher's page, downloads an archive, asks for
approval or works unattended, and restores packages on a device. This project models the parts whose
guarantees span many calls, and proves those guarantees for all inputs and all runs.

* **The approval record** (`Approval`, `Reconcile`, `Replay`, `Watchdog`, `ApprovalRuns`, `ApprovalAuthority`,
  `CommandMeaning`, `WatchdogMeaning`, `CreatedRecords`). A signed record in an issue is advanced by commands found
  in comments and by a watchdog. For every comment and every state: what becomes of the record. Replaying the
  comment history is total, independent of arrival order and idempotent; dropped runs at other times are harmless
  exactly when no comment is decided differently; comments that were only marked processed could as well not
  exist. Over whole lives of a record: the record invariant, terminal states, accounting, the reminder budget, and
  that nothing is approved without a listed approver's command.
* **The issue body** (`Markers`, `IssueCodec`, `IssueBody`, `HiddenMarkers`, `StatusTable`). Two marked blocks are
  spliced into an operator's text and the record is read back from them. Round trip, overwriting, survival of the
  text, what the operator reads, only signed records verify; and, for marker text hidden in record fields, exactly
  when embedding, reading back and overwriting still work.
* **The archive lifecycle** (`Lifecycle`, `LifecycleRuns`, `PreparedArchives`, `CycleOutcomes`, `AppliedEvidence`,
  `Deduplication`, `Payload`) and **the device-changing run** (`ControlledApply`, `RestoreOrder`, `ApplyOutcome`,
  `Classifier`). The state file is a field of a class; the device, the network and the files are a `World` that may
  answer anything and raise at any call; the events of a run are recorded. At-most-once restoring, a lifecycle that
  only climbs, APPLIED exactly on evidence, finite duplicate chains that end at an applied archive, order of the
  packages and of the safety checks, no downgrade.
* **Refinement cores**: two version orders and the texts they read (`Versions`, `VersionTexts`), the HTML context
  stack and the choice of the link (`LinkParser`, `ItemLinks`, `Discovery`, `LinkChoice`), archive flattening
  (`Inventory`, `ArchivePaths`).

`Text` and `Wrappers` hold shared strings, sorting, and result types.

## Conventions

Instants are integers, durations positive integers, comment ids integers; exceptions are `Failure`, `Refused`,
`None` or `Raised` results. SHA-256, HMAC, canonical JSON and URL-safe base64 (section 5 of RFC 4648) are
function parameters; where a statement needs a law about them (injectivity, decoding after encoding, the
alphabet), the law is a `requires` of that statement. Methods follow the code's loops and assignments and are
proved equal to a function; the lemmas are about that function.

`Approval.LateCommandExpires`, `ApprovalAuthority.CommandVerdict`, `ApprovalAuthority.WatchdogVerdict` and
`IssueCodec.TamperingIsRejected` sum up the branches of one function each. They are helpers of the results below
and have no row.

## Where the code differs from its documentation or from what one might expect

* docs/approval-model.md, line 33, lets only non-approved states expire. In the code a late command of an
  approver, `status` included, expires any record (`ApprovalRuns.LateStatusExpiresApproved`).
* docs/approval-model.md, lines 46-47 and 50, promises recovery from dropped runs. A recovering run happens later,
  and across the deadline or a scheduled time the clock decides otherwise: an approval handled in time stays
  APPROVED, handled late it expires the record (`Replay.DroppedRunAcrossDeadline`). Recovery holds exactly when no
  comment is decided differently (`Replay.RecoveryNeedsAgreement`); clocks on the same sides of the deadline and of
  all scheduled times suffice (`Replay.SameSideAgrees`); ids, revision and updated_at are recovered in any case
  (`Replay.DroppedRunsKeepLedger`).
* The direct `apply` command has no exception handler. Interrupted after its checks it leaves PREPARED,
  and a second `apply` restores the same archive again (`LifecycleRuns.DirectApplyCanReplay`). A step keeps
  the at-most-once invariant exactly when it is not such a call (`LifecycleRuns.StepKeepsOnce`).
* `approve` on a manifest that was already applied moves its entry to REVIEW_REQUIRED; if the manifest id is
  ambiguous, the first entry that has it (`LifecycleRuns.ApprovingTwiceDemotes`).
* If removing the TFTP directory fails after a success, the entry is already APPLIED; a cycle or an approval then
  moves it to REVIEW_REQUIRED (`CycleOutcomes.UnattendedCycle`).
* The permanent copy of the mandatory backup is verified after the restores; only the receipt of the upload
  precedes them (`ControlledApply.BackupCopyComesLast`).
* Record fields shown in the status table are not checked for marker text. A state begin marker in one of them
  stops the embedding unless an end marker follows it (`HiddenMarkers.HiddenMarkerStopsEmbedding`). A status end
  marker, as in the comment `/fg reject <!-- FGOPS_APPROVAL_STATUS_END -->`, lets the record be embedded and read
  back, but the next embedding leaves a rest of the old table in the body
  (`HiddenMarkers.MarkedReasonLeavesDebris`, `HiddenMarkers.RejectCanHideTheEnd`).
* A link is bound to the wrong item when an earlier `<a>` was not closed: its address is the earlier one's, its
  context the later item's (`ItemLinks.UnclosedLinkTakesNextItem`).
* Payload fingerprints cover enabled packages that are not safe for deferred apply and so are never restored. A
  CONTENT_DUPLICATE therefore means "was restored" only if all packages of the payload are safe
  (`Deduplication.DuplicatePayloadWasRestored`).

## Model

| member | source | states |
|---|---|---|
| Approval.MutatedIsValid | src/fgops/approval_state.py:458-572 | every mutation yields a valid record, also the expiry result that is returned without `validate()` |
| CommandMeaning.ApproverIsListed | src/fgops/approval_state.py:424-427 | an approver is who is listed, whatever the case of the letters |
| CommandMeaning.DecisionAfter | src/fgops/approval_state.py:467-572 | for every comment and every valid record: the decision after the comment, from the fields of both |
| CommandMeaning.LiveComment | src/fgops/approval_state.py:495-572 | an admitted command before the deadline on a record that waits, snoozes or is scheduled: the whole new record, note and message, verb by verb |
| CommandMeaning.ApprovedComment | src/fgops/approval_state.py:489-494 | the same on an approved record: it only listens to cancel and answers status |
| CommandMeaning.FinalComment | src/fgops/approval_state.py:489-492 | the same on a rejected, expired or cancelled record: it only answers status |
| CommandMeaning.LateComment | src/fgops/approval_state.py:478-488 | past the deadline every well-formed admitted command expires the record |
| CommandMeaning.RefusedComment | src/fgops/approval_state.py:634-678 | a comment that is not admitted or not well-formed: the first check that fails gives the note, nothing else changes |
| CommandMeaning.MessagesInOrder | src/fgops/approval_state.py:628-680 | one more comment at the end of a history meets the record the others leave, and its message follows theirs |
| ApprovalAuthority.AdvanceGrants | src/fgops/approval_state.py:424-427 | a comment that leaves the record holding a grant either found it held or took effect as a granting command, with an allowed association and a listed author |
| ApprovalAuthority.NothingIsApprovedUnasked | docs/approval-model.md:52-59 | over any life after creation, a record that is APPROVED or SCHEDULED got its packages at some event, by a command of one of its approvers that took effect there and covers exactly these packages; it did not hold them before and held them ever since |
| Reconcile.ReconcileComments | src/fgops/approval_state.py:601-680 | both loops compute the fold of the sorted `/fg ` history, with flag and messages |
| Reconcile.HistoryFacts | src/fgops/approval_state.py:613-626 | the replayed history is sorted by (created_at, id) and holds exactly the `/fg ` comments |
| Reconcile.SortedIsUnique | src/fgops/approval_state.py:626-626 | the sorted history does not depend on the order the comments came in |
| Replay.StepIsTotal | src/fgops/approval_state.py:634-678 | handling one comment never raises on a valid record |
| Replay.AdvanceFacts | src/fgops/approval_state.py:575-598 | one comment: the record stays valid, bindings and reminders stay, the id is recorded once, the revision grows by one, updated_at is the later time, and without a mutation the decision stays |
| Replay.ReconcileIsTotal | src/fgops/approval_state.py:608-680 | no exception escapes; every `/fg ` id ends up processed and no other; one revision and one message for each new id; `changed` iff some id was new |
| Replay.ReconcileClock | src/fgops/approval_state.py:585-593 | updated_at becomes the latest of the old value and the newly handled creation times |
| Replay.ReconcileIsOrderBlind | docs/approval-model.md:41-48 | record, flag and messages are the same for any order of the comments |
| Replay.ReconcileIsIdempotent | docs/approval-model.md:45-45 | a second run over the same comments, at any time, changes nothing |
| Replay.DroppedRunsAreHarmless | docs/approval-model.md:46-47 | after any runs over partial histories, repeated, out of order and each at its own time, a full run gives the record of a single full run, provided that no run decides a comment differently |
| Replay.AdvanceAgrees | src/fgops/approval_state.py:634-678 | two runs leave the same record after a comment iff it is known, or both allow or both refuse its association and, if it is heard, their clocks are on one side of the deadline and of the time it asks to schedule |
| Replay.SameSideAgrees | src/fgops/approval_state.py:478-572 | clocks on the same side of the deadline and of every scheduled time in the comments decide every comment of any history alike |
| Replay.RecoveryNeedsAgreement | docs/approval-model.md:46-50 | a run at another time is harmless wherever the history was cut iff no comment is decided differently |
| Replay.DroppedRunAcrossDeadline | src/fgops/approval_state.py:478-488 | a counterexample to recovery for every awaiting record: an approval seen by a dropped run before the deadline ends APPROVED, seen only afterwards EXPIRED |
| Replay.DroppedRunsKeepLedger | docs/approval-model.md:43-48 | whatever the clocks of the dropped runs: binding, processed ids, revision and updated_at are those of a single full run |
| Replay.ErasingNoEffectComments | docs/approval-model.md:48-48 | deleting any comments that were only marked processed leaves state, approved packages, execution time and snooze unchanged |
| Replay.MarkedOnlyIs | src/fgops/approval_state.py:634-678 | a comment was only marked processed iff it did not take effect on the record that the comments before it leave |
| Replay.StalenessIsInitial | src/fgops/approval_state.py:476-477 | in a sorted history an earlier comment cannot make a later one stale |
| Watchdog.ScanReminders | src/fgops/approval_state.py:753-770 | the scan with its early exit finds a reminder due iff some threshold was passed since the last one, or the repeat period has elapsed |
| Watchdog.EvaluateWatchdog | src/fgops/approval_state.py:683-784 | the branches of the watchdog compute `Evaluate`; an invalid record is refused |
| Watchdog.PendingDecreases | src/fgops/approval_state.py:697-784 | at a fixed instant every mutating call decreases the number of pending moves |
| Watchdog.WatchdogConverges | src/fgops/approval_state.py:697-784 | at a fixed instant any number of calls beyond two equals two, and the next call is a no-op |
| Watchdog.TwoMovesHappen | src/fgops/approval_state.py:716-784 | the bound of two is reached: a snooze that ends past a threshold |
| WatchdogMeaning.ClockMoves | src/fgops/approval_state.py:697-784 | what one call does in each state: the whole new record, and when a reminder is asked for |
| WatchdogMeaning.ReminderIsDueFrom | src/fgops/approval_state.py:750-768 | a reminder is due from one instant on: the first threshold after the last reminder, or the end of the repeat period once all thresholds are behind |
| ApprovalRuns.CreatedIsReachable | src/fgops/approval_state.py:247-307 | a created record satisfies the run invariant, with revision 0 and sorted package hashes |
| CreatedRecords.CreationSucceeds | src/fgops/approval_state.py:247-307 | when a record is created, in terms of the request, and the error otherwise |
| CreatedRecords.CreatedIs | src/fgops/approval_state.py:280-305 | a created record binds the request and starts with nothing decided |
| CreatedRecords.CreatedPackages | src/fgops/approval_state.py:263-272 | the bound kinds, the deferrable ones among them, and name and hash of each package by name |
| CreatedRecords.SignedRecords | src/fgops/approval_state.py:161-200 | exactly which records are signed |
| ApprovalRuns.RunKeepsReachable | src/fgops/approval_state.py:430-784 | every record of every run is valid, duplicate-free and coherent: packages are approved exactly in SCHEDULED and APPROVED and are the allow-list or the safe subset, schedules and snoozes end before expiry; the binding never changes |
| ApprovalRuns.TerminalStatesAbsorb | src/fgops/approval_state.py:491-492 | REJECTED, EXPIRED and CANCELLED are never left except for EXPIRED, with nothing approved, under every later batch, command and watchdog call |
| ApprovalRuns.LateStatusExpiresApproved | src/fgops/approval_state.py:478-490 | a `status` of an approver expires a record in any other state, APPROVED and CANCELLED included, iff the deadline has passed |
| ApprovalRuns.CommandAccounting | src/fgops/approval_state.py:453-454 | revision = processed ids + mutating watchdog steps; ids are duplicate-free; reminders are among the watchdog steps |
| ApprovalRuns.UpdatedAtNeverDecreases | src/fgops/approval_state.py:711-711 | updated_at never decreases if no watchdog call runs with a clock behind it |
| ApprovalRuns.ReminderStepKeepsBudget | src/fgops/approval_state.py:753-784 | each counted reminder strictly advances last_reminded_at and keeps the budget |
| ApprovalRuns.ReminderBudget | src/fgops/approval_state.py:704-784 | under any interleaving with k intervals (largest i) and repeat period R: count <= k, or (count - k) * R <= last - created - i; and last < expires_at |
| IssueCodec.SortedOnce | src/fgops/approval_state.py:137-137 | sorting the package hashes is idempotent and leaves exactly the sorted ones alone |
| IssueCodec.DictRoundTrip | src/fgops/approval_state.py:91-159 | `from_dict(to_dict(r)) = r` iff the record has schema 1, is valid, and its package hashes are sorted; enum texts and the package object are parsed |
| IssueCodec.DictParses | src/fgops/approval_state.py:91-159 | for every record, what parsing its dictionary gives: the record with its package hashes as a sorted object, or the error |
| IssueCodec.OnlySignedRecordsVerify | src/fgops/approval_state.py:310-344 | of all envelopes that carry an issued signature, with any payload, only those verify whose record was signed with it (ideal MAC) |
| IssueCodec.InnerContains | src/fgops/approval_state.py:369-402 | for each marker: the status table shows it iff one of the values in it contains it, whatever the row formatting does at the seams |
| IssueCodec.InnerIsFree | src/fgops/approval_state.py:369-402 | a status table whose values hold no marker text holds none |
| IssueCodec.StatusIsBlock | src/fgops/approval_state.py:369-402 | the rendered status is one complete block: each of its markers once, at its ends |
| StatusTable.BindingIsShown | src/fgops/approval_state.py:369-402 | the rows of the status table that show whom the approval is about |
| StatusTable.PackagesAreShown | src/fgops/approval_state.py:369-402 | the rows that show the manifest, the allowed packages and the expiry |
| StatusTable.DecisionIsShown | src/fgops/approval_state.py:369-402 | the rows that show the decision |
| StatusTable.HistoryIsShown | src/fgops/approval_state.py:369-402 | the rows that show actor, reason, revision and reminders |
| IssueBody.StateIsBlock | src/fgops/approval_state.py:416-418 | the state block around base64 text is one complete block |
| IssueBody.ReplaceHit | src/fgops/approval_state.py:405-413 | replacing a block exchanges exactly that block |
| IssueBody.SpliceGivesTarget | src/fgops/approval_state.py:416-421 | for every body with at most one block of each kind, in either order: where both blocks end up, and the text around them |
| IssueBody.ExtractFrom | src/fgops/approval_state.py:352-362 | the envelope of the only state block is decoded, wherever it stands |
| IssueBody.EmbedResult | src/fgops/approval_state.py:416-421 | what `embed_record` returns: the free text survives up to trailing whitespace |
| IssueBody.EmbedExtractRoundTrip | src/fgops/approval_state.py:365-421 | `extract_record(embed_record(b, r, k), k) = r` |
| IssueBody.EmbedOverwrites | src/fgops/approval_state.py:405-421 | embedding over an embedding equals embedding at once; the later record is read back |
| IssueBody.ExtractedBlockIsUnique | src/fgops/approval_state.py:352-362 | a body that reads back holds exactly one state marker |
| IssueBody.RefusedBodies | src/fgops/approval_state.py:352-360 | no state block, an incomplete one and a second one are refused, each with its error |
| HiddenMarkers.HiddenMarkerStopsEmbedding | src/fgops/approval_state.py:369-421 | for every valid record: embedding in plain text succeeds iff the status table hides no state begin marker or an end marker follows it; otherwise the error is the incomplete block |
| HiddenMarkers.BareRoundTrip | src/fgops/approval_state.py:347-421 | for every record at all: what is embedded in plain text is read back iff the record is valid, has schema 1 and sorted hashes, the key is long enough, and the table hides no state begin marker, or one complete block with none after it |
| HiddenMarkers.BareOverwrites | src/fgops/approval_state.py:405-421 | for any two records that can be embedded in plain text: embedding the second over the first equals embedding it at once iff the first status end marker of the old table is its last, and the second table hides no state block unless the first did |
| HiddenMarkers.PlainRecordsOverwrite | src/fgops/approval_state.py:369-421 | the same in terms of the record values: without state begin markers in them, overwriting works iff no value shown in the first table contains the status end marker |
| HiddenMarkers.HidesIs | src/fgops/approval_state.py:369-402 | the table hides a state begin marker iff a value in it contains one |
| HiddenMarkers.OneStatusEndIs | src/fgops/approval_state.py:369-402 | the first status end marker of the table is its last iff no value in it contains one |
| HiddenMarkers.MarkedReasonLeavesDebris | src/fgops/approval_state.py:405-421 | a record whose reason is the status end marker is embedded and read back, but embedding over it differs from embedding at once |
| HiddenMarkers.RejectCanHideTheEnd | src/fgops/approval.py:40-62 | a reject command whose argument is the status end marker parses and yields such a record |
| Versions.PopZeros | src/fgops/controlled_apply.py:205-208 | the popping loop strips trailing zeros but keeps one part |
| Versions.StrippedOrder | src/fgops/controlled_apply.py:199-208 | stripping and comparing tuples decides which version is older at the first differing component |
| Versions.PaddedOrder | scripts/health_report.py:137-147 | padding and comparing tuples decides the same |
| Versions.VersionOrdersAgree | src/fgops/controlled_apply.py:199-208 | both comparisons have the same sign on all number sequences |
| Versions.VersionOrderIsTotalPreorder | scripts/health_report.py:132-147 | the order is reflexive, total and transitive |
| Versions.TextOrdersAgree | scripts/health_report.py:132-147 | on all dotted-number strings the two functions agree, text scanning included |
| VersionTexts.PrintedIsRead | src/fgops/controlled_apply.py:199-208 | a version printed in decimal, with leading zeros or not, behind a heading and before other text, is read as its numbers without trailing zeros |
| VersionTexts.JudgedByNumbers | src/fgops/controlled_apply.py:243-253 | an object is newer iff its printed version is higher at the first component that changed, older iff it is lower there |
| VersionTexts.JudgedWithout | src/fgops/controlled_apply.py:243-253 | an object that gets a version is newer, one that loses it is neither |
| VersionTexts.ReportComparesNumbers | scripts/health_report.py:132-147 | on printed versions the health report compares the numbers |
| Classifier.ClassifyPackage | src/fgops/controlled_apply.py:220-283 | the flag loop computes the status from "some object older", "some object newer" and the reply |
| Classifier.ClassifyWithSuccessfulNoChange | src/fgops/entrypoint.py:39-66 | the installed wrapper upgrades exactly a clean no-op |
| Classifier.InstalledStatusIs | src/fgops/entrypoint.py:39-66 | the status in terms of return code, reply texts and versions |
| Classifier.DeltasCompare | src/fgops/controlled_apply.py:230-237 | each expected object is compared with itself, before and after |
| Classifier.AcceptedMeansEvidence | src/fgops/entrypoint.py:39-66 | accepted iff evidence; FAILED iff a prevented downgrade, and never upgraded |
| ControlledApply.SortByRankFacts | src/fgops/controlled_apply.py:349-349 | the sort by package order is a stable sorting permutation |
| ControlledApply.SelectPackages | src/fgops/controlled_apply.py:340-349 | the selection is the stably sorted list of the eligible packages |
| ControlledApply.SelectedFacts | src/fgops/controlled_apply.py:340-349 | the selection holds exactly the enabled, deferred-safe packages, stably sorted by rank |
| RestoreOrder.SelectionInOrder | src/fgops/controlled_apply.py:340-349 | the selection is the enabled, deferrable packages of the manifest, ordered by their place in `package_order`, others last, equals as in the manifest |
| ControlledApply.PassGates | src/fgops/controlled_apply.py:331-420 | the checks before the loop, in order, with the events they leave |
| ControlledApply.GatesFacts | src/fgops/controlled_apply.py:331-420 | the loop is entered iff every check passed; nothing is sent before |
| ControlledApply.RestorePackages | src/fgops/controlled_apply.py:422-452 | the restore loop with its early exits |
| ControlledApply.RestoresStops | src/fgops/controlled_apply.py:448-452 | with stop_on_failure only the last result can be a failure; a loop without failure restores everything |
| ControlledApply.ResultsTelescope | src/fgops/controlled_apply.py:433-447 | each package is judged against the versions read after the package before it |
| ControlledApply.ResultsAreNamed | src/fgops/controlled_apply.py:433-447 | each result names the package that was sent |
| ControlledApply.RunOnDevice | src/fgops/controlled_apply.py:331-547 | the whole run computes its trace, results and outcome |
| ControlledApply.TraceDiscipline | src/fgops/controlled_apply.py:340-466 | for all replies and failures: the restored packages are a prefix of the selection, distinct in kind, sorted by rank; no restore precedes a passed preflight, both hash checks and the received mandatory backup |
| RestoreOrder.RestoresInOrder | src/fgops/controlled_apply.py:341-349 | whatever the device answers, packages are sent in the order of `package_order`, no two of one kind, none disabled or unsafe |
| ControlledApply.BackupCopyComesLast | src/fgops/controlled_apply.py:454-463 | the permanent backup copy is verified after every restore |
| ControlledApply.AcceptedRunIsComplete | src/fgops/controlled_apply.py:286-297 | a result other than FAILED means the whole selection ran, every package has evidence, and postflight passed |
| ApplyOutcome.OutcomeOf | src/fgops/controlled_apply.py:422-548 | a run has an outcome iff its checks passed and nothing raised; it is other than FAILED iff the run is evidenced and ends without an exception |
| ApplyOutcome.CleanSuccess | src/fgops/controlled_apply.py:286-297 | an accepted run is SUCCESS iff every package brought a newer object without a warning, else SUCCESS_WITH_WARNING |
| ApplyOutcome.LoopRaises | src/fgops/controlled_apply.py:422-452 | the loop raises only at a restore or version reading that raises, and stops early otherwise only after a failure under stop_on_failure |
| ControlledApply.NoDowngrade | src/fgops/controlled_apply.py:433-447 | with prevent_downgrade and an accepted run of local restores, no object whose version stays readable ends older than at preflight |
| Payload.PayloadSha256 | src/fgops/agent_orchestrator.py:111-125 | the collecting loop computes the fingerprint |
| Payload.FingerprintIsSound | src/fgops/agent_orchestrator.py:111-125 | with an ideal hash, fingerprints are equal iff the kind-to-hash maps are |
| Payload.FingerprintIgnoresOrder | docs/payload-deduplication.md:13-25 | the fingerprint does not depend on the package order |
| Payload.LinesAppend | docs/payload-deduplication.md:13-25 | the fingerprinted text: one line `kind:hash` for each package |
| PreparedArchives.FingerprintExists | src/fgops/agent_orchestrator.py:111-125 | a fingerprint exists iff each asked kind has exactly one package with a hash |
| Lifecycle.Agent.FindAppliedPayload | src/fgops/agent_orchestrator.py:154-172 | the scan that writes into entries while it looks |
| PreparedArchives.KnownPayload | src/fgops/agent_orchestrator.py:128-151 | by which fingerprint an entry is known: the recorded one if taken over the asked kinds, else that of its retained manifest |
| PreparedArchives.ScanFindsFirst | src/fgops/agent_orchestrator.py:154-172 | for any state file: the scan finds the first entry known by the fingerprint, if any, and refreshes exactly the entries it has passed |
| Lifecycle.Agent.RunAgentOnce | src/fgops/agent_orchestrator.py:222-382 | the decision of one monitor run and the state it saves |
| PreparedArchives.KnownArchive | src/fgops/agent_orchestrator.py:222-272 | an archive that was handled before changes nothing, and only a prepared one is taken up again, unattended and outside a dry run |
| PreparedArchives.RefusedArchive | src/fgops/agent_orchestrator.py:274-306 | an archive that cannot be used changes nothing |
| PreparedArchives.NewArchive | src/fgops/agent_orchestrator.py:296-382 | a new usable archive becomes a duplicate of the first entry that repeats its payload, else it is prepared if its plan can be written; the entry field by field |
| Lifecycle.Agent.RunControlledApply | src/fgops/controlled_apply.py:321-548 | the effect of an apply on the state file and the history |
| ApplyOutcome.ApplyWrites | src/fgops/controlled_apply.py:529-548 | what a permitted apply writes, in terms of the answers it gets: status, history and result |
| ApplyOutcome.NotPermitted | src/fgops/controlled_apply.py:321-340 | an apply that configuration, approval or state do not permit does nothing |
| ApplyOutcome.AppliedExactlyOnEvidence | src/fgops/controlled_apply.py:529-541 | a prepared entry ends APPLIED iff the apply is permitted, every selected package has evidence, and nothing raises before the report |
| Lifecycle.Agent.RunCycle | src/fgops/cycle.py:204-282 | a cycle with its exception handler |
| CycleOutcomes.QuietCycle | src/fgops/cycle.py:204-232 | a cycle without a prepared archive applies nothing; only a missing or failed notice is sent again |
| CycleOutcomes.AttendedCycle | src/fgops/cycle.py:234-243 | an agent that is not unattended only sends the notice |
| CycleOutcomes.UnattendedCycle | src/fgops/cycle.py:242-282 | the final entry and history of an unattended cycle: APPLIED, APPLY_FAILED or REVIEW_REQUIRED by what the device answers and what raises |
| CycleOutcomes.UnattendedRefused | src/fgops/cycle.py:247-262 | without secret or permission the archive goes to review |
| Lifecycle.Agent.ApproveManifest | src/fgops/cycle.py:285-340 | an approval with its exception handler |
| CycleOutcomes.ApprovalApplied | src/fgops/cycle.py:285-340 | the final entry and history of an approval that may apply |
| CycleOutcomes.ApprovalRefused | src/fgops/cycle.py:296-323 | an approval that cannot apply sends the first entry with the id to review |
| CycleOutcomes.ApprovalElsewhere | src/fgops/cycle.py:286-287 | outside approval mode nothing happens |
| CycleOutcomes.OneMatch | src/fgops/controlled_apply.py:182-191 | a manifest id means one archive iff exactly one entry of the state file has it |
| CycleOutcomes.FirstMatch | src/fgops/cycle.py:297-304 | the first match is the first entry that has the id |
| LifecycleRuns.StepKeepsOnce | src/fgops/cycle.py:242-260 | one step keeps the at-most-once invariant iff it is not a direct apply that passes every check and breaks off before its report; the state only climbs |
| LifecycleRuns.LeftPreparedMeans | src/fgops/controlled_apply.py:422-548 | those direct applies, described by their inputs, are exactly the ones that enter the loop and leave the state file as it was |
| LifecycleRuns.AtMostOnceApply | src/fgops/agent_state.py:47-59 | over any orderly run each archive enters the restore loop at most once, and each kind at most once in it |
| LifecycleRuns.WithoutDirectApplyOrderly | src/fgops/cycle.py:242-323 | runs of cycles, approvals and monitor calls are always orderly |
| LifecycleRuns.PrepareClimbs | src/fgops/agent_orchestrator.py:222-382 | preparing adds at most the new hash and changes no existing status |
| LifecycleRuns.LifecycleOnlyClimbs | src/fgops/agent_state.py:47-59 | between any two points of any run, no entry returns to PREPARED or is lost, and CONTENT_DUPLICATE and REVIEW_REQUIRED are final |
| LifecycleRuns.ApprovingTwiceDemotes | src/fgops/cycle.py:296-323 | in approval mode an APPLIED or APPLY_FAILED entry keeps its status iff it is not the first match of the approved manifest id, unique or not; the first match moves to REVIEW_REQUIRED and no device is touched |
| LifecycleRuns.DirectApplyCanReplay | src/fgops/agent_cli.py:356-361 | from the empty state file: an archive prepared by the monitor, then the same interrupted direct apply twice, enters the loop twice |
| AppliedEvidence.ApplyNeedsEvidence | src/fgops/controlled_apply.py:529-545 | an apply turns an entry APPLIED, or says so in the history, only in an allowed mode and after a complete run with evidence for every selected package |
| AppliedEvidence.AppliedCarriesEvidence | src/fgops/controlled_apply.py:533-541 | every APPLIED entry of any run was turned APPLIED by a step of that run that was allowed to, sent the whole selection to the device and had the evidence |
| AppliedEvidence.HistoryCarriesEvidence | src/fgops/controlled_apply.py:529-545 | the same for every archive the history ever calls applied, whatever became of its entry |
| Deduplication.RunKeepsSound | src/fgops/agent_orchestrator.py:281-317 | recorded fingerprints are true and every duplicate links to an older entry with the same payload, in every state of a run with fixed enabled kinds |
| Deduplication.DuplicatesWereApplied | src/fgops/agent_orchestrator.py:296-317 | the chain of every CONTENT_DUPLICATE is finite and ends at an older archive that reached APPLIED with the same kind-to-hash map |
| Deduplication.SafePayloadIsRestored | src/fgops/controlled_apply.py:340-349 | every package of a fingerprinted payload is in the selection iff all its packages are safe for deferred apply |
| Deduplication.DuplicatePayloadWasRestored | docs/payload-deduplication.md:27-42 | behind every CONTENT_DUPLICATE stands a step that applied the archive at the end of its chain; if the manifest file read there held that archive's packages, all of the duplicate's payload was restored by it iff all of these packages are safe |
| Deduplication.FindIsComplete | src/fgops/agent_orchestrator.py:154-172 | the scan finds an entry whenever a candidate has the asked fingerprint, in spite of what it writes while looking |
| Deduplication.RepeatedPayloadIsRecognised | docs/payload-deduplication.md:31-42 | a new archive whose enabled payload provably equals that of an applied one becomes CONTENT_DUPLICATE and is not prepared |
| LinkParser.Parser.HandleStartTag | src/fgops/source_monitor.py:37-47 | opens a context, begins a link unless one is being read |
| LinkParser.Parser.HandleData | src/fgops/source_monitor.py:49-56 | text reaches every open context and the link being read |
| LinkParser.Parser.HandleEndTag | src/fgops/source_monitor.py:58-73 | records the link being read and closes the innermost context of that name with all inside it |
| LinkParser.CutKeepsStack | src/fgops/source_monitor.py:69-73 | after the cut the stack holds exactly the tags no end tag has closed, each with all text since it opened |
| LinkParser.PartsText | src/fgops/source_monitor.py:50-66 | joining and stripping the normalized pieces gives the words of the text joined by single blanks |
| LinkParser.ParseLinks | src/fgops/source_monitor.py:18-73 | for arbitrarily nested and unclosed tags, each link carries its own words and the words since the innermost still-open context tag |
| ItemLinks.ItemBindsItsLinks | src/fgops/source_monitor.py:19-26 | the link recorded for an anchor in an item has the item's own text as context, whatever precedes the item; its address and text are those of that anchor iff no earlier anchor is still open |
| ItemLinks.ReadingInItem | src/fgops/source_monitor.py:44-47 | the item's anchor is the one being read iff the item has ended an earlier one or none was being read before it |
| ItemLinks.LinkOutsideItems | src/fgops/source_monitor.py:60-65 | outside all items a link is its own context |
| ItemLinks.UnclosedLinkTakesNextItem | src/fgops/source_monitor.py:37-73 | a page with an unclosed link, whose only recorded link has the first item's address and the second item's context |
| LinkChoice.NormalizedText | src/fgops/source_monitor.py:49-52 | what stays of a text: its maximal runs without white space, in order, with single blanks |
| LinkChoice.Anchors | src/fgops/source_monitor.py:42-47 | a link begins at an `a` whose first `href` has a value, whatever the case |
| LinkChoice.ContextTags | src/fgops/source_monitor.py:28-40 | which tags open a context |
| Discovery.DiscoverDownloadLink | src/fgops/source_monitor.py:102-125 | the loops choose among the preferred candidates and succeed iff these have one address |
| Discovery.PreferredFacts | src/fgops/source_monitor.py:107-119 | the preferred candidates are the matching links, and of those the archives if there are any |
| Discovery.ChoiceIgnoresOrder | src/fgops/source_monitor.py:119-125 | any order and repetition of the same links fails alike or gives the same address |
| LinkChoice.OneAddress | src/fgops/source_monitor.py:102-125 | discovery succeeds iff the matching links, or the archives among them, lead to one address; it returns the last of them, and tells no link from several addresses |
| Inventory.Directory.SafeExtractPackages | src/fgops/inventory.py:38-86 | extraction succeeds iff the archive is acceptable for the directory; the files and the list it leaves; no file is ever overwritten |
| Inventory.Directory.ExtractMember | src/fgops/inventory.py:49-83 | one member: refused iff it does not fit, else skipped or written |
| Inventory.OneFilePerName | src/fgops/inventory.py:51-83 | each package name, whatever the case, has exactly one file, with the digest of every member of that name |
| Inventory.OnlyPackagesAreWritten | src/fgops/inventory.py:50-83 | nothing but the first package of a name is written |
| Inventory.EmptyDirectory | src/fgops/inventory.py:38-86 | into an empty directory, with an ideal digest: succeeds iff all members are safe, there is a package, and packages of one name have equal bytes |
| Inventory.ReturnedNames | src/fgops/inventory.py:84-86 | the returned list is the extracted names, each once, sorted by lower case; case folding and lower case are arbitrary functions |
| ArchivePaths.BaseIsLastName | src/fgops/inventory.py:52-52 | a package is written under what follows the last `/` of its path |
| ArchivePaths.NameBehindDirectories | src/fgops/inventory.py:52-52 | a name stays the name behind any directories |
| ArchivePaths.RefusedIsUnsafe | src/fgops/inventory.py:27-35 | a member is refused iff its path is absolute, has a `..` component, or it is a link that is no directory |
| ArchivePaths.IntoEmptyDirectory | src/fgops/inventory.py:38-86 | success into an empty directory, on the paths and bytes of the members |
| ArchivePaths.PackagesAreThere | src/fgops/inventory.py:51-83 | after success every package lies under the name of the first one so called, with its own digest |
| ArchivePaths.OnlyNamedPackages | src/fgops/inventory.py:50-83 | every new file is a first package under its name |
| ArchivePaths.ReturnedAreFirst | src/fgops/inventory.py:84-86 | the returned list holds exactly the names of the first packages |
| Text.LexIs | src/fgops/inventory.py:86-86 | strings are ordered by their first difference in code points |
| Text.StripIs | src/fgops/approval_state.py:273-273 | stripping removes exactly the white space at both ends |
| Text.WhiteSpace | src/fgops/source_monitor.py:50-50 | the white space at which texts are split |

## Left out

- SSH sessions, prompts, TFTP, downloads, TLS, Telegram, secret stores and file permissions: answers of a `World` or inputs.
- HMAC, SHA-256, canonical JSON and base64 as bytes: functions with stated laws; lenient decoding of damaged base64 is part of the function.
- Regular expressions, `datetime` and time zones, YAML: parsed commands, integer times and validated configuration are inputs; durations are taken in range (an `OverflowError` from a huge one is not caught by the code).
- Unicode lower case of approver names and HTML tags: modelled for ASCII letters only; in `Inventory` case folding is an arbitrary function.
- `int(digest, 16)` also accepts signs, underscores and a `0x` prefix: digests are modelled as hexadecimal digits.
- Message texts: values of `Reason`, `Refusal` and the error datatypes.
- Process kills, concurrent processes and a failing state file; `last_run_at`, `last_result` and `last_error`.
- The work directory is named by a 16-digit prefix of the archive hash; collisions of the prefix are not modelled.
- Changing `enabled_packages` between runs: outside `Deduplication.RunKeepsSound` and `Deduplication.DuplicatesWereApplied`, because kinds that were not enabled at apply time are recomputed from the retained manifest.
- Deduplication.DuplicatesWereApplied: the fixed content of an archive hash is a function (`Catalog`); what the manifest file held during the apply is compared with it in `Deduplication.DuplicatePayloadWasRestored`.
- RestoreOrder.SelectionInOrder: a `package_order` that names a kind twice is excluded, because the configuration refuses it (src/fgops/agent_config.py, line 169), and with it one of more than 999 kinds.
- LifecycleRuns.AtMostOnceApply: excludes runs with a direct `apply` that was interrupted inside the loop, because `LifecycleRuns.DirectApplyCanReplay` shows the claim false for them.
- IssueBody.EmbedExtractRoundTrip: excludes free text with marker text, because a second state marker is refused (`IssueBody.ExtractedBlockIsUnique`), and record values with marker text, for which `HiddenMarkers` has the exact conditions in plain text only.
- IssueCodec.DictRoundTrip: numbers, strings and times are carried verbatim; conversions of payloads that no record has (a number for a string, a missing member) are not modelled.
- The retry of a prepared notification is modelled by its effect on the entry; message rendering and provider selection are not.
- `load_policy`, `evaluate_policy`, the package map and `build_manifest` beyond its uniqueness gate; the operator checklist, daily logs, retention, health-report checks, command-line plumbing, retry backoff and FFDB polling: easy members or user interface.
- `urljoin`, `urlparse` and the configured link expression are functions of a `Rules` value; an address that `urljoin` refuses is not modelled.
- Duplicate-member warnings of the extraction and the retained partial files of a failed one beyond "nothing is overwritten".
