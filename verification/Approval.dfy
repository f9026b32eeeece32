/** The approval record and its command transitions (src/fgops/approval_state.py).

    Instants are integers, durations positive integers and comment ids integers.  The record's
    fields are grouped: `Binding` holds what no transition may touch, `Decision` what commands
    and the watchdog decide.  Message texts are values of `Reason`.
 */
module Approval {
  import opened Text
  import opened Wrappers

  datatype PackageKind = AV | IPS | APDB | FFDB | MCDB | MMDB | ISDB | BOTNET | IGNORED | UNKNOWN

  datatype State = AwaitingApproval | Snoozed | Scheduled | Approved | Rejected | Expired | Cancelled

  type Positive = n: int | 0 < n witness 1

  datatype Command =
    | Approve
    | ApplySafe
    | Reject(argument: Option<string>)
    | Cancel
    | Snooze(duration: Positive)
    | Schedule(executeAt: int)
    | Status

  datatype Refusal =
    | InvalidRecord
    | NotAnApprover(name: string)
    | Stale
    | TerminalState(state: State)
    | AlreadyApproved
    | NoSafePackage
    | SnoozeBeyondExpiry
    | ScheduleNotInFuture
    | ScheduleBeyondExpiry
    | UnsupportedCommand
    | BadArgument

  datatype Reason =
    | WaitingForCommand
    | ApprovalGranted
    | SafeApprovalGranted
    | RejectedBecause(text: string)
    | RequestCancelled
    | SnoozedUntil(until: int)
    | ScheduledFor(at: int)
    | ExpiredBeforeCommand
    | StatusDoesNotMutate
    | CommandAlreadyProcessed
    | UnauthorizedAssociation(commandId: int)
    | CommandRejected(commandId: int, why: Refusal)
    | WatchdogExpired
    | SnoozeElapsed
    | ExecutionTimeReached
    | ReminderDue

  datatype Binding = Binding(
    schemaVersion: int,
    approvalId: string,
    repository: string,
    issueNumber: int,
    deviceName: string,
    expectedModel: string,
    expectedFirmware: string,
    sourceArchiveSha256: string,
    manifestId: string,
    packageHashes: seq<(string, string)>,
    allowedPackages: seq<PackageKind>,
    safePackages: seq<PackageKind>,
    approvers: seq<string>,
    createdAt: int,
    expiresAt: int)

  datatype Decision = Decision(
    state: State,
    approvedPackages: seq<PackageKind>,
    executeAt: Option<int>,
    snoozedUntil: Option<int>)

  datatype Record = Record(
    binding: Binding,
    decision: Decision,
    updatedAt: int,
    actor: Option<string>,
    reason: Reason,
    revision: int,
    processed: seq<int>,
    lastReminded: Option<int>,
    reminderCount: int)

  // ---- validate() ----

  predicate IsHexDigit(c: char) {
    '0' <= c <= '9' || 'a' <= c <= 'f' || 'A' <= c <= 'F'
  }

  predicate IsDigest(s: string) {
    |s| == 64 && forall i | 0 <= i < |s| :: IsHexDigit(s[i])
  }

  predicate UniqueNames(pairs: seq<(string, string)>) {
    forall i, j | 0 <= i < j < |pairs| :: pairs[i].0 != pairs[j].0
  }

  predicate ValidBinding(b: Binding) {
    && '/' in b.repository
    && 0 < b.issueNumber
    && 0 < |b.approvers|
    && (forall i, j | 0 <= i < j < |b.approvers| :: Lower(b.approvers[i]) != Lower(b.approvers[j]))
    && 0 < |b.allowedPackages|
    && (forall k | k in b.safePackages :: k in b.allowedPackages)
    && UniqueNames(b.packageHashes)
    && (forall p | p in b.packageHashes :: p.0 != "" && IsDigest(p.1))
    && b.createdAt < b.expiresAt
  }

  predicate NotBefore(t: Option<int>, bound: int) {
    t.Some? ==> bound <= t.value
  }

  predicate ValidDecision(b: Binding, d: Decision) {
    && (forall k | k in d.approvedPackages :: k in b.allowedPackages)
    && NotBefore(d.executeAt, b.createdAt)
    && NotBefore(d.snoozedUntil, b.createdAt)
  }

  predicate Valid(r: Record) {
    && ValidBinding(r.binding)
    && ValidDecision(r.binding, r.decision)
    && r.binding.createdAt <= r.updatedAt
    && NotBefore(r.lastReminded, r.binding.createdAt)
    && 0 <= r.revision
    && 0 <= r.reminderCount
  }

  predicate Final(s: State) {
    s == Rejected || s == Expired || s == Cancelled
  }

  predicate IsApprover(b: Binding, actor: string) {
    exists i | 0 <= i < |b.approvers| :: Lower(b.approvers[i]) == Lower(actor)
  }

  // ---- apply_command, _next_record, _mark_processed ----

  datatype Outcome =
    | Mutated(record: Record)
    | Unchanged(note: Reason)
    | Refused(why: Refusal)

  function NextRecord(r: Record, at: int, id: int, actor: string, d: Decision, reason: Reason): Record {
    r.(decision := d,
       actor := Some(actor),
       reason := reason,
       updatedAt := at,
       revision := r.revision + 1,
       processed := r.processed + [id])
  }

  /** What a live command asks for: a new decision, or why it is refused. */
  function Decide(b: Binding, cmd: Command, at: int, now: int): Result<(Decision, Reason), Refusal>
    requires cmd != Status
  {
    match cmd
    case Approve => Success((Decision(Approved, b.allowedPackages, None, None), ApprovalGranted))
    case ApplySafe =>
      if b.safePackages == [] then Failure(NoSafePackage)
      else Success((Decision(Approved, b.safePackages, None, None), SafeApprovalGranted))
    case Reject(argument) =>
      var text := if argument.Some? && argument.value != "" then argument.value else "Rejected.";
      Success((Decision(Rejected, [], None, None), RejectedBecause(text)))
    case Cancel => Success((Decision(Cancelled, [], None, None), RequestCancelled))
    case Snooze(duration) =>
      var until := at + duration;
      if b.expiresAt <= until then Failure(SnoozeBeyondExpiry)
      else Success((Decision(Snoozed, [], None, Some(until)), SnoozedUntil(until)))
    case Schedule(executeAt) =>
      if executeAt <= now then Failure(ScheduleNotInFuture)
      else if b.expiresAt <= executeAt then Failure(ScheduleBeyondExpiry)
      else Success((Decision(Scheduled, b.allowedPackages, Some(executeAt), None), ScheduledFor(executeAt)))
  }

  function ApplyCommand(r: Record, cmd: Command, id: int, actor: string, at: int, now: int): Outcome {
    if !Valid(r) then Refused(InvalidRecord)
    else if !IsApprover(r.binding, actor) then Refused(NotAnApprover(actor))
    else if id in r.processed then Unchanged(CommandAlreadyProcessed)
    else if at < r.updatedAt then Refused(Stale)
    else if r.binding.expiresAt <= now then
      // This result is returned without validation.
      Mutated(NextRecord(r, at, id, actor, Decision(Expired, [], None, None), ExpiredBeforeCommand))
    else if cmd == Status then Unchanged(StatusDoesNotMutate)
    else if Final(r.decision.state) then Refused(TerminalState(r.decision.state))
    else if r.decision.state == Approved && cmd != Cancel then Refused(AlreadyApproved)
    else
      match Decide(r.binding, cmd, at, now)
      case Failure(why) => Refused(why)
      case Success((d, reason)) =>
        var updated := NextRecord(r, at, id, actor, d, reason);
        if Valid(updated) then Mutated(updated) else Refused(InvalidRecord)
  }

  function Max(a: int, b: int): int {
    if a < b then b else a
  }

  function MarkProcessed(r: Record, id: int, actor: string, at: int, reason: Reason): Result<Record, Refusal> {
    if id in r.processed then Success(r)
    else
      var updated := r.(actor := Some(actor),
                        reason := reason,
                        updatedAt := Max(at, r.updatedAt),
                        revision := r.revision + 1,
                        processed := r.processed + [id]);
      if Valid(updated) then Success(updated) else Failure(InvalidRecord)
  }

  /** The unvalidated expiry result is valid too, so a mutation always yields a valid record. */
  lemma MutatedIsValid(r: Record, cmd: Command, id: int, actor: string, at: int, now: int)
    requires ApplyCommand(r, cmd, id, actor, at, now).Mutated?
    ensures Valid(ApplyCommand(r, cmd, id, actor, at, now).record)
  {
  }

  /** A fresh command of an approver expires the record exactly when the deadline has passed,
      whatever state the record is in: APPROVED and the terminal states included. */
  lemma LateCommandExpires(r: Record, cmd: Command, id: int, actor: string, at: int, now: int)
    requires Valid(r) && IsApprover(r.binding, actor) && id !in r.processed && r.updatedAt <= at
    ensures
      var o := ApplyCommand(r, cmd, id, actor, at, now);
      (o.Mutated? && o.record.decision.state == Expired) <==> r.binding.expiresAt <= now
  {
  }
}
