/** Whole lives of an approval record: creation, then any interleaving of comment batches,
    direct commands and watchdog calls. */
module ApprovalRuns {
  import opened Wrappers
  import opened Approval
  import opened Reconcile
  import opened Replay
  import opened Watchdog
  import Text

  // ---- create_approval_record ----

  datatype Package = Package(filename: string, sha256: string, kind: PackageKind, safeForDeferredApply: bool)

  datatype Request = Request(
    approvalId: string,
    repository: string,
    issueNumber: int,
    deviceName: string,
    expectedModel: string,
    expectedFirmware: string,
    sourceArchiveSha256: string,
    manifestId: string,
    packages: seq<Package>,
    approvers: seq<string>,
    expiresAt: int)

  datatype CreateError = ExpiryNotInFuture | NothingApprovable | CreatedInvalid

  function Known(packages: seq<Package>): seq<Package> {
    if packages == [] then []
    else (if packages[0].kind in {UNKNOWN, IGNORED} then [] else [packages[0]]) + Known(packages[1..])
  }

  function Kinds(packages: seq<Package>): seq<PackageKind> {
    if packages == [] then [] else [packages[0].kind] + Kinds(packages[1..])
  }

  function SafeOnes(packages: seq<Package>): seq<Package> {
    if packages == [] then []
    else (if packages[0].safeForDeferredApply then [packages[0]] else []) + SafeOnes(packages[1..])
  }

  function Hashes(packages: seq<Package>): seq<(string, string)> {
    if packages == [] then [] else [(packages[0].filename, packages[0].sha256)] + Hashes(packages[1..])
  }

  /** Stripped, non-empty names; the first of equal names is kept. */
  function CleanApprovers(names: seq<string>, taken: seq<string>): seq<string>
    decreases |names|
  {
    if names == [] then taken
    else
      var name := Text.Strip(names[0]);
      CleanApprovers(names[1..], if name == "" || name in taken then taken else taken + [name])
  }

  function CreateRecord(q: Request, now: int): Result<Record, CreateError> {
    if q.expiresAt <= now then Failure(ExpiryNotInFuture)
    else
      var known := Known(q.packages);
      if known == [] then Failure(NothingApprovable)
      else
        var binding := Binding(
          1, q.approvalId, q.repository, q.issueNumber, q.deviceName, q.expectedModel, q.expectedFirmware,
          q.sourceArchiveSha256, q.manifestId,
          Text.SortPairs(Hashes(known)), Kinds(known), Kinds(SafeOnes(known)),
          CleanApprovers(q.approvers, []), now, q.expiresAt);
        var r := Record(binding, Decision(AwaitingApproval, [], None, None), now, None, WaitingForCommand, 0, [], None, 0);
        if Valid(r) then Success(r) else Failure(CreatedInvalid)
  }

  // ---- Events and runs ----

  datatype Event =
    | Batch(comments: seq<Comment>, env: Env)
    | Direct(cmd: Command, id: int, actor: string, at: int, now: int)
    | Tick(now: int)

  function Perform(r: Record, e: Event, p: Policy): Record {
    match e
    case Batch(comments, env) => Reconciled(r, comments, env)
    case Direct(cmd, id, actor, at, now) =>
      (match ApplyCommand(r, cmd, id, actor, at, now)
       case Mutated(updated) => updated
       case _ => r)
    case Tick(now) => if Valid(r) then Evaluate(r, now, p).record else r
  }

  function Run(r: Record, events: seq<Event>, p: Policy): Record
    decreases |events|
  {
    if events == [] then r else Run(Perform(r, events[0], p), events[1..], p)
  }

  // ---- The reachable-record invariant ----

  /** What every record of a run satisfies beyond `Valid`. */
  predicate Coherent(b: Binding, d: Decision) {
    && (d.approvedPackages != [] <==> d.state == Scheduled || d.state == Approved)
    && (d.state == Scheduled ==>
          && d.approvedPackages == b.allowedPackages
          && d.executeAt.Some? && d.executeAt.value < b.expiresAt)
    && (d.state == Approved ==> d.approvedPackages == b.allowedPackages || d.approvedPackages == b.safePackages)
    && (d.state == Snoozed ==> d.snoozedUntil.Some? && d.snoozedUntil.value < b.expiresAt)
    && (d.executeAt.Some? ==> d.state == Scheduled || d.state == Approved || d.state == Expired)
    && (d.snoozedUntil.Some? ==> d.state == Snoozed || d.state == Expired)
  }

  predicate Reachable(r: Record) {
    && Valid(r)
    && Coherent(r.binding, r.decision)
    && DuplicateFree(r.processed)
    && (r.lastReminded.Some? <==> 0 < r.reminderCount)
    && (r.lastReminded.Some? ==> r.lastReminded.value < r.binding.expiresAt)
    && r.reminderCount + |r.processed| <= r.revision
  }

  lemma CreatedIsReachable(q: Request, now: int)
    requires CreateRecord(q, now).Success?
    ensures
      var r := CreateRecord(q, now).value;
      && Reachable(r)
      && r.revision == 0 && r.processed == [] && r.reminderCount == 0
      && r.binding.createdAt == now && r.binding.expiresAt == q.expiresAt && r.binding.schemaVersion == 1
      && Text.PairsAscending(r.binding.packageHashes)
  {
    Text.SortPairsFacts(Hashes(Known(q.packages)));
  }

  lemma CommandKeepsReachable(r: Record, cmd: Command, id: int, actor: string, at: int, now: int)
    requires Reachable(r) && ApplyCommand(r, cmd, id, actor, at, now).Mutated?
    ensures Reachable(ApplyCommand(r, cmd, id, actor, at, now).record)
  {
    MutatedIsValid(r, cmd, id, actor, at, now);
  }

  lemma AdvanceKeepsReachable(r: Record, c: Comment, env: Env)
    requires Reachable(r)
    ensures Reachable(Advance(r, c, env))
  {
    AdvanceFacts(r, c, env);
    if Mutates(r, c, env) {
      CommandKeepsReachable(r, ParseCommand(c.body).value, c.id, c.author, c.createdAt, env.now);
    }
  }

  lemma {:induction false} ReplayKeepsReachable(r: Record, cs: seq<Comment>, env: Env)
    requires Reachable(r)
    ensures Reachable(ReplayAll(r, cs, env))
    decreases |cs|
  {
    if cs != [] {
      AdvanceKeepsReachable(r, cs[0], env);
      ReplayKeepsReachable(Advance(r, cs[0], env), cs[1..], env);
    }
  }

  lemma TickKeepsReachable(r: Record, now: int, p: Policy)
    requires Reachable(r) && PositivePolicy(p)
    ensures Reachable(Evaluate(r, now, p).record)
  {
  }

  lemma PerformKeepsReachable(r: Record, e: Event, p: Policy)
    requires Reachable(r) && PositivePolicy(p)
    ensures Reachable(Perform(r, e, p))
    ensures Perform(r, e, p).binding == r.binding
  {
    match e
    case Batch(comments, env) =>
      ReconcileIsTotal(r, comments, env);
      ReplayKeepsReachable(r, History(comments), env);
    case Direct(cmd, id, actor, at, now) =>
      if ApplyCommand(r, cmd, id, actor, at, now).Mutated? {
        CommandKeepsReachable(r, cmd, id, actor, at, now);
      }
    case Tick(now) =>
      TickKeepsReachable(r, now, p);
  }

  /** Every record of every run is valid and coherent, also where the code does not validate;
      the binding never changes. */
  lemma {:induction false} RunKeepsReachable(r: Record, events: seq<Event>, p: Policy)
    requires Reachable(r) && PositivePolicy(p)
    ensures Reachable(Run(r, events, p))
    ensures Run(r, events, p).binding == r.binding
    decreases |events|
  {
    if events != [] {
      PerformKeepsReachable(r, events[0], p);
      RunKeepsReachable(Perform(r, events[0], p), events[1..], p);
    }
  }

  // ---- Terminal states ----

  predicate Terminated(r: Record) {
    Final(r.decision.state) && r.decision.approvedPackages == []
  }

  lemma {:induction false} ReplayKeepsTerminated(r: Record, cs: seq<Comment>, env: Env)
    requires Valid(r) && Terminated(r)
    ensures
      var q := ReplayAll(r, cs, env);
      Terminated(q) && (q.decision.state == r.decision.state || q.decision.state == Expired)
    decreases |cs|
  {
    if cs != [] {
      AdvanceFacts(r, cs[0], env);
      ReplayKeepsTerminated(Advance(r, cs[0], env), cs[1..], env);
    }
  }

  /** A rejected, expired or cancelled record stays so, with nothing approved, under every later
      batch, command and watchdog call; the only move left is to EXPIRED. */
  lemma {:induction false} TerminalStatesAbsorb(r: Record, events: seq<Event>, p: Policy)
    requires Reachable(r) && PositivePolicy(p) && Final(r.decision.state)
    ensures
      var q := Run(r, events, p);
      && Terminated(q) && q.binding == r.binding
      && (q.decision.state == r.decision.state || q.decision.state == Expired)
    decreases |events|
  {
    if events != [] {
      PerformKeepsReachable(r, events[0], p);
      if events[0].Batch? {
        ReconcileIsTotal(r, events[0].comments, events[0].env);
        ReplayKeepsTerminated(r, History(events[0].comments), events[0].env);
      }
      TerminalStatesAbsorb(Perform(r, events[0], p), events[1..], p);
    }
  }

  /** The documented diagram says only non-approved states expire.  A `status` of an approver expires any
      record that is not expired yet, an approved or cancelled one too, exactly when the deadline has passed. */
  lemma LateStatusExpiresApproved(r: Record, id: int, actor: string, at: int, now: int, p: Policy)
    requires Reachable(r) && r.decision.state != Expired
    requires IsApprover(r.binding, actor) && id !in r.processed && r.updatedAt <= at
    ensures Perform(r, Direct(Status, id, actor, at, now), p).decision.state == Expired <==> r.binding.expiresAt <= now
  {
    LateCommandExpires(r, Status, id, actor, at, now);
  }

  // ---- Accounting ----

  function MutatingTicks(r: Record, events: seq<Event>, p: Policy): nat
    decreases |events|
  {
    if events == [] then 0
    else
      (if IsMutatingTick(r, events[0], p) then 1 else 0)
      + MutatingTicks(Perform(r, events[0], p), events[1..], p)
  }

  predicate IsMutatingTick(r: Record, e: Event, p: Policy) {
    e.Tick? && Valid(r) && Evaluate(r, e.now, p).changed
  }

  lemma PerformAccounting(r: Record, e: Event, p: Policy)
    requires Reachable(r)
    ensures
      var q := Perform(r, e, p);
      && r.processed <= q.processed
      && q.revision - |q.processed|
           == r.revision - |r.processed| + (if IsMutatingTick(r, e, p) then 1 else 0)
  {
    if e.Batch? {
      ReconcileIsTotal(r, e.comments, e.env);
    }
  }

  lemma {:induction false} RunAccounting(r: Record, events: seq<Event>, p: Policy)
    requires Reachable(r) && PositivePolicy(p)
    ensures
      var q := Run(r, events, p);
      && r.processed <= q.processed
      && q.revision - |q.processed| == r.revision - |r.processed| + MutatingTicks(r, events, p)
    decreases |events|
  {
    if events != [] {
      PerformKeepsReachable(r, events[0], p);
      PerformAccounting(r, events[0], p);
      RunAccounting(Perform(r, events[0], p), events[1..], p);
    }
  }

  /** From creation on: revision = processed ids + mutating watchdog steps, processed ids are
      duplicate-free, and reminders are a part of the watchdog steps. */
  lemma CommandAccounting(q: Request, now: int, events: seq<Event>, p: Policy)
    requires CreateRecord(q, now).Success? && PositivePolicy(p)
    ensures
      var r := CreateRecord(q, now).value;
      var s := Run(r, events, p);
      && s.revision == |s.processed| + MutatingTicks(r, events, p)
      && DuplicateFree(s.processed)
      && s.reminderCount <= MutatingTicks(r, events, p)
      && Reachable(s) && s.binding == r.binding
  {
    CreatedIsReachable(q, now);
    var r := CreateRecord(q, now).value;
    RunKeepsReachable(r, events, p);
    RunAccounting(r, events, p);
  }

  /** No watchdog call runs with a clock behind the record's last update. */
  predicate ClockInOrder(r: Record, events: seq<Event>, p: Policy)
    decreases |events|
  {
    events == []
    || ((events[0].Tick? ==> r.updatedAt <= events[0].now) && ClockInOrder(Perform(r, events[0], p), events[1..], p))
  }

  lemma {:induction false} UpdatedAtNeverDecreases(r: Record, events: seq<Event>, p: Policy)
    requires Reachable(r) && PositivePolicy(p) && ClockInOrder(r, events, p)
    ensures r.updatedAt <= Run(r, events, p).updatedAt
    decreases |events|
  {
    if events != [] {
      PerformKeepsReachable(r, events[0], p);
      if events[0].Batch? {
        ReconcileIsTotal(r, events[0].comments, events[0].env);
        ReplayFacts(r, History(events[0].comments), events[0].env);
      }
      UpdatedAtNeverDecreases(Perform(r, events[0], p), events[1..], p);
    }
  }

  // ---- The reminder budget ----

  /** How many thresholds lie at or before `last`. */
  function Passed(createdAt: int, last: int, intervals: seq<int>): nat {
    if intervals == [] then 0
    else (if createdAt + intervals[0] <= last then 1 else 0) + Passed(createdAt, last, intervals[1..])
  }

  lemma {:induction false} PassedGrows(createdAt: int, last: int, now: int, intervals: seq<int>)
    requires last <= now
    ensures Passed(createdAt, last, intervals) <= Passed(createdAt, now, intervals) <= |intervals|
    ensures forall i | 0 <= i < |intervals| && last < createdAt + intervals[i] <= now ::
              Passed(createdAt, last, intervals) < Passed(createdAt, now, intervals)
  {
    if intervals != [] {
      PassedGrows(createdAt, last, now, intervals[1..]);
      forall i | 0 < i < |intervals| && last < createdAt + intervals[i] <= now
        ensures Passed(createdAt, last, intervals) < Passed(createdAt, now, intervals)
      {
        assert intervals[1..][i - 1] == intervals[i];
      }
    }
  }

  lemma {:induction false} PassedPositive(createdAt: int, now: int, intervals: seq<int>, i: nat)
    requires i < |intervals| && createdAt + intervals[i] <= now
    ensures 0 < Passed(createdAt, now, intervals)
  {
    if i > 0 {
      PassedPositive(createdAt, now, intervals[1..], i - 1);
    }
  }

  /** Reminders sent so far: one per passed threshold, then at most one per repeat period. */
  predicate WithinBudget(r: Record, p: Policy) {
    var k, count := |p.intervals|, r.reminderCount;
    var first := r.binding.createdAt + Largest(p.intervals);
    r.lastReminded.Some? ==>
      var last := r.lastReminded.value;
      && (count <= k || (p.repeatEvery.Some? && (count - k) * p.repeatEvery.value <= last - first))
      && (last < first ==> count <= Passed(r.binding.createdAt, last, p.intervals))
  }

  lemma ReminderStepKeepsBudget(r: Record, now: int, p: Policy)
    requires Reachable(r) && PositivePolicy(p) && WithinBudget(r, p) && IsReminderDue(r, now, p)
    ensures r.lastReminded.Some? ==> r.lastReminded.value < now
    ensures WithinBudget(r.(lastReminded := Some(now), reminderCount := r.reminderCount + 1), p)
  {
    var created, k, count := r.binding.createdAt, |p.intervals|, r.reminderCount;
    var first := created + Largest(p.intervals);
    PassedGrows(created, now, now, p.intervals);
    if p.intervals != [] {
      LargestBounds(p.intervals);
    }
    if r.lastReminded.None? {
      assert ThresholdPassed(created, now, None, p.intervals);
      var i :| 0 <= i < k && created + p.intervals[i] <= now;
      PassedPositive(created, now, p.intervals, i);
    } else {
      var last := r.lastReminded.value;
      if ThresholdPassed(created, now, r.lastReminded, p.intervals) {
        var i :| 0 <= i < k && created + p.intervals[i] <= now && last < created + p.intervals[i];
        assert p.intervals[i] in p.intervals;
        PassedGrows(created, last, now, p.intervals);
      } else {
        var R := p.repeatEvery.value;
        assert first <= last by {
          var i :| 0 <= i < k && p.intervals[i] == Largest(p.intervals);
          assert created + p.intervals[i] <= now;
        }
        OneMorePeriod(count, k, R, last - first, now - last);
      }
    }
  }

  lemma OneMorePeriod(count: nat, k: nat, R: int, spent: int, gap: int)
    requires 0 < R <= gap && 0 <= spent && (count <= k || (count - k) * R <= spent)
    ensures count + 1 <= k || (count + 1 - k) * R <= spent + gap
  {
  }

  lemma BatchKeepsBudget(r: Record, comments: seq<Comment>, env: Env, p: Policy)
    requires Valid(r) && WithinBudget(r, p)
    ensures WithinBudget(Perform(r, Batch(comments, env), p), p)
  {
    ReconcileIsTotal(r, comments, env);
    ReplayFacts(r, History(comments), env);
  }

  lemma TickKeepsBudget(r: Record, now: int, p: Policy)
    requires Reachable(r) && PositivePolicy(p) && WithinBudget(r, p)
    ensures WithinBudget(Evaluate(r, now, p).record, p)
  {
    if r.decision.state == AwaitingApproval && IsReminderDue(r, now, p) {
      ReminderStepKeepsBudget(r, now, p);
    }
    TickReminders(r, now, p);
  }

  /** Only the reminder branch touches the reminder fields. */
  lemma TickReminders(r: Record, now: int, p: Policy)
    ensures
      var q := Evaluate(r, now, p).record;
      && q.binding == r.binding
      && ((q.lastReminded == r.lastReminded && q.reminderCount == r.reminderCount)
          || (&& r.decision.state == AwaitingApproval && IsReminderDue(r, now, p)
              && q.lastReminded == Some(now) && q.reminderCount == r.reminderCount + 1))
  {
  }

  lemma CommandKeepsBudget(r: Record, cmd: Command, id: int, actor: string, at: int, now: int, p: Policy)
    requires WithinBudget(r, p) && ApplyCommand(r, cmd, id, actor, at, now).Mutated?
    ensures WithinBudget(ApplyCommand(r, cmd, id, actor, at, now).record, p)
  {
    var q := ApplyCommand(r, cmd, id, actor, at, now).record;
    assert q.lastReminded == r.lastReminded && q.reminderCount == r.reminderCount && q.binding == r.binding;
  }

  lemma PerformKeepsBudget(r: Record, e: Event, p: Policy)
    requires Reachable(r) && PositivePolicy(p) && WithinBudget(r, p)
    ensures WithinBudget(Perform(r, e, p), p)
  {
    match e
    case Batch(comments, env) => BatchKeepsBudget(r, comments, env, p);
    case Direct(cmd, id, actor, at, now) =>
      if ApplyCommand(r, cmd, id, actor, at, now).Mutated? {
        CommandKeepsBudget(r, cmd, id, actor, at, now, p);
      }
    case Tick(now) => TickKeepsBudget(r, now, p);
  }

  lemma {:induction false} RunKeepsBudget(r: Record, events: seq<Event>, p: Policy)
    requires Reachable(r) && PositivePolicy(p) && WithinBudget(r, p)
    ensures WithinBudget(Run(r, events, p), p)
    decreases |events|
  {
    if events != [] {
      PerformKeepsReachable(r, events[0], p);
      PerformKeepsBudget(r, events[0], p);
      RunKeepsBudget(Perform(r, events[0], p), events[1..], p);
    }
  }

  /** With k intervals (largest i_k) and repeat period R: at most k reminders were counted, or
      (count - k) * R <= last - created - i_k; and the last one came before expiry. */
  predicate RemindersBounded(r: Record, p: Policy) {
    var k := |p.intervals|;
    && (r.reminderCount <= k
        || (&& r.lastReminded.Some? && p.repeatEvery.Some?
            && (r.reminderCount - k) * p.repeatEvery.value
                 <= r.lastReminded.value - r.binding.createdAt - Largest(p.intervals)))
    && (r.lastReminded.Some? ==> r.lastReminded.value < r.binding.expiresAt)
  }

  lemma BudgetMeansBounded(r: Record, p: Policy)
    requires Reachable(r) && WithinBudget(r, p)
    ensures RemindersBounded(r, p)
  {
  }

  lemma RunIsBounded(r: Record, events: seq<Event>, p: Policy)
    requires Reachable(r) && r.lastReminded == None && PositivePolicy(p)
    ensures RemindersBounded(Run(r, events, p), p)
  {
    RunKeepsReachable(r, events, p);
    RunKeepsBudget(r, events, p);
    BudgetMeansBounded(Run(r, events, p), p);
  }

  /** The reminder budget holds after any interleaving of commands and watchdog calls. */
  lemma ReminderBudget(q: Request, now: int, events: seq<Event>, p: Policy)
    requires CreateRecord(q, now).Success? && PositivePolicy(p)
    ensures
      var s := Run(CreateRecord(q, now).value, events, p);
      RemindersBounded(s, p) && s.binding.createdAt == now && s.binding.expiresAt == q.expiresAt
  {
    CreatedIsReachable(q, now);
    RunIsBounded(CreateRecord(q, now).value, events, p);
    RunKeepsReachable(CreateRecord(q, now).value, events, p);
  }
}
