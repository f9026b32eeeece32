/** Expiry, snooze, schedule and reminders (`evaluate_watchdog`, src/fgops/approval_state.py). */
module Watchdog {
  import opened Wrappers
  import opened Approval

  datatype Policy = Policy(intervals: seq<int>, repeatEvery: Option<int>)

  datatype WatchdogResult = WatchdogResult(record: Record, changed: bool, reminderDue: bool)

  /** The reminder policies `load_policy` can produce. */
  predicate PositivePolicy(p: Policy) {
    && (forall i | 0 <= i < |p.intervals| :: 0 < p.intervals[i])
    && (p.repeatEvery.Some? ==> 0 < p.repeatEvery.value)
  }

  /** The largest interval, 0 when there is none: the last entry of the sorted intervals. */
  function Largest(intervals: seq<int>): int {
    if intervals == [] then 0
    else if |intervals| == 1 then intervals[0]
    else Max(intervals[0], Largest(intervals[1..]))
  }

  /** Some threshold has been passed since the last reminder. */
  predicate ThresholdPassed(createdAt: int, now: int, last: Option<int>, intervals: seq<int>) {
    exists i | 0 <= i < |intervals| ::
      createdAt + intervals[i] <= now && (last.None? || last.value < createdAt + intervals[i])
  }

  predicate RepeatDue(createdAt: int, now: int, last: Option<int>, p: Policy) {
    && p.repeatEvery.Some? && p.repeatEvery.value != 0
    && p.intervals != []
    && createdAt + Largest(p.intervals) <= now
    && last.Some?
    && p.repeatEvery.value <= now - last.value
  }

  predicate IsReminderDue(r: Record, now: int, p: Policy) {
    || ThresholdPassed(r.binding.createdAt, now, r.lastReminded, p.intervals)
    || RepeatDue(r.binding.createdAt, now, r.lastReminded, p)
  }

  const WATCHDOG := "fgops-watchdog"

  function Touched(r: Record, now: int, d: Decision, reason: Reason): Record {
    r.(decision := d, actor := Some(WATCHDOG), reason := reason, updatedAt := now, revision := r.revision + 1)
  }

  /** The watchdog's effect on a valid record; its results are never validated. */
  function Evaluate(r: Record, now: int, p: Policy): WatchdogResult {
    var d := r.decision;
    if Final(d.state) then WatchdogResult(r, false, false)
    else if r.binding.expiresAt <= now && d.state != Approved then
      WatchdogResult(Touched(r, now, d.(state := Expired, approvedPackages := []), WatchdogExpired), true, false)
    else
      match d.state
      case Snoozed =>
        if d.snoozedUntil.Some? && d.snoozedUntil.value <= now
        then WatchdogResult(Touched(r, now, d.(state := AwaitingApproval, snoozedUntil := None), SnoozeElapsed), true, true)
        else WatchdogResult(r, false, false)
      case Scheduled =>
        if d.executeAt.Some? && d.executeAt.value <= now
        then WatchdogResult(Touched(r, now, d.(state := Approved), ExecutionTimeReached), true, false)
        else WatchdogResult(r, false, false)
      case Approved => WatchdogResult(r, false, false)
      case _ =>
        if IsReminderDue(r, now, p)
        then WatchdogResult(
               Touched(r, now, d, ReminderDue).(lastReminded := Some(now), reminderCount := r.reminderCount + 1),
               true, true)
        else WatchdogResult(r, false, false)
  }

  function InsertInterval(x: int, s: seq<int>): seq<int> {
    if s == [] || x <= s[0] then [x] + s else [s[0]] + InsertInterval(x, s[1..])
  }

  function SortIntervals(s: seq<int>): seq<int> {
    if s == [] then [] else InsertInterval(s[0], SortIntervals(s[1..]))
  }

  predicate Ascending(s: seq<int>) {
    forall i, j | 0 <= i < j < |s| :: s[i] <= s[j]
  }

  lemma {:induction false} InsertIntervalFacts(x: int, s: seq<int>)
    ensures forall y :: y in InsertInterval(x, s) <==> y == x || y in s
    ensures Ascending(s) ==> Ascending(InsertInterval(x, s))
  {
    if s != [] && s[0] < x {
      InsertIntervalFacts(x, s[1..]);
      assert s == [s[0]] + s[1..];
      var t := InsertInterval(x, s[1..]);
      assert forall i | 0 <= i < |t| :: t[i] in t;
      assert Ascending(s) ==> forall y | y in t :: s[0] <= y;
    }
  }

  lemma {:induction false} SortIntervalsFacts(s: seq<int>)
    ensures forall y :: y in SortIntervals(s) <==> y in s
    ensures Ascending(SortIntervals(s))
  {
    if s != [] {
      SortIntervalsFacts(s[1..]);
      InsertIntervalFacts(s[0], SortIntervals(s[1..]));
      assert s == [s[0]] + s[1..];
    }
  }

  lemma {:induction false} LargestBounds(s: seq<int>)
    requires s != []
    ensures Largest(s) in s && forall x | x in s :: x <= Largest(s)
  {
    if |s| > 1 {
      LargestBounds(s[1..]);
      assert s == [s[0]] + s[1..];
    }
  }

  /** The scan breaks at the first sorted threshold that was passed; then the repeat period is tried. */
  method ScanReminders(record: Record, now: int, policy: Policy) returns (reminderDue: bool)
    ensures reminderDue <==> IsReminderDue(record, now, policy)
  {
    var createdAt, last := record.binding.createdAt, record.lastReminded;
    var intervals := SortIntervals(policy.intervals);
    SortIntervalsFacts(policy.intervals);
    reminderDue := false;
    var n := 0;
    while n < |intervals| && !reminderDue
      invariant 0 <= n <= |intervals|
      invariant !reminderDue ==> !ThresholdPassed(createdAt, now, last, intervals[..n])
      invariant reminderDue ==> ThresholdPassed(createdAt, now, last, intervals)
      decreases |intervals| - n, !reminderDue
    {
      var threshold := createdAt + intervals[n];
      if threshold <= now && (last.None? || last.value < threshold) {
        reminderDue := true;
      } else {
        n := n + 1;
      }
    }
    assert intervals[..|intervals|] == intervals;
    ThresholdsOfSameMembers(createdAt, now, last, intervals, policy.intervals);
    assert policy.intervals != [] ==> policy.intervals[0] in intervals;
    if !reminderDue && intervals != [] {
      LargestBounds(policy.intervals);
      LastIsLargest(intervals, policy.intervals);
      if && policy.repeatEvery.Some? && policy.repeatEvery.value != 0
         && createdAt + intervals[|intervals| - 1] <= now
         && last.Some? && policy.repeatEvery.value <= now - last.value {
        reminderDue := true;
      }
    }
  }

  method EvaluateWatchdog(record: Record, now: int, policy: Policy)
    returns (result: Result<WatchdogResult, Refusal>)
    ensures result == if Valid(record) then Success(Evaluate(record, now, policy)) else Failure(InvalidRecord)
  {
    if !Valid(record) {
      return Failure(InvalidRecord);
    }
    var d := record.decision;
    if Final(d.state) {
      return Success(WatchdogResult(record, false, false));
    }
    if record.binding.expiresAt <= now && d.state != Approved {
      var expired := Touched(record, now, d.(state := Expired, approvedPackages := []), WatchdogExpired);
      return Success(WatchdogResult(expired, true, false));
    }
    if d.state == Snoozed {
      if d.snoozedUntil.Some? && d.snoozedUntil.value <= now {
        var awake := Touched(record, now, d.(state := AwaitingApproval, snoozedUntil := None), SnoozeElapsed);
        return Success(WatchdogResult(awake, true, true));
      }
      return Success(WatchdogResult(record, false, false));
    }
    if d.state == Scheduled {
      if d.executeAt.Some? && d.executeAt.value <= now {
        var due := Touched(record, now, d.(state := Approved), ExecutionTimeReached);
        return Success(WatchdogResult(due, true, false));
      }
      return Success(WatchdogResult(record, false, false));
    }
    if d.state == Approved {
      return Success(WatchdogResult(record, false, false));
    }
    var reminderDue := ScanReminders(record, now, policy);
    if !reminderDue {
      return Success(WatchdogResult(record, false, false));
    }
    var updated := Touched(record, now, d, ReminderDue);
    result := Success(WatchdogResult(
                        updated.(lastReminded := Some(now), reminderCount := record.reminderCount + 1), true, true));
  }

  lemma ThresholdsOfSameMembers(createdAt: int, now: int, last: Option<int>, s: seq<int>, t: seq<int>)
    requires forall x :: x in s <==> x in t
    ensures ThresholdPassed(createdAt, now, last, s) <==> ThresholdPassed(createdAt, now, last, t)
  {
    if i :| 0 <= i < |s| && createdAt + s[i] <= now && (last.None? || last.value < createdAt + s[i]) {
      assert s[i] in t;
    }
    if i :| 0 <= i < |t| && createdAt + t[i] <= now && (last.None? || last.value < createdAt + t[i]) {
      assert t[i] in s;
    }
  }

  lemma LastIsLargest(s: seq<int>, t: seq<int>)
    requires s != [] && forall x :: x in s <==> x in t
    requires forall i, j | 0 <= i < j < |s| :: s[i] <= s[j]
    requires Largest(t) in t && forall x | x in t :: x <= Largest(t)
    ensures t != [] && s[|s| - 1] == Largest(t)
  {
    assert s[|s| - 1] in t;
    assert Largest(t) in s;
  }

  // ---- Convergence ----

  /** At a fixed instant the watchdog moves at most twice (a snooze that ends, then its reminder). */
  function Pending(r: Record, now: int, p: Policy): nat {
    if !Evaluate(r, now, p).changed then 0
    else if r.decision.state == Snoozed && now < r.binding.expiresAt then 2
    else 1
  }

  lemma PendingDecreases(r: Record, now: int, p: Policy)
    requires PositivePolicy(p)
    requires Evaluate(r, now, p).changed
    ensures Pending(Evaluate(r, now, p).record, now, p) < Pending(r, now, p)
  {
  }

  function Repeat(r: Record, now: int, p: Policy, times: nat): Record
    decreases times
  {
    if times == 0 then r else Repeat(Evaluate(r, now, p).record, now, p, times - 1)
  }

  /** Any number of further calls at the same instant equals two calls, the next call is a no-op,
      and the revision grew by at most two. */
  lemma WatchdogConverges(r: Record, now: int, p: Policy, times: nat)
    requires PositivePolicy(p)
    ensures !Evaluate(Repeat(r, now, p, times + 2), now, p).changed
    ensures Repeat(r, now, p, times + 2) == Repeat(r, now, p, 2)
    ensures Repeat(r, now, p, 2).revision <= r.revision + 2
  {
    var one := Evaluate(r, now, p).record;
    var two := Evaluate(one, now, p).record;
    assert Repeat(r, now, p, 2) == Repeat(one, now, p, 1) == Repeat(two, now, p, 0) == two;
    if Evaluate(r, now, p).changed {
      PendingDecreases(r, now, p);
      if Evaluate(one, now, p).changed {
        PendingDecreases(one, now, p);
      }
    }
    assert !Evaluate(two, now, p).changed;
    Settled(two, now, p, times);
    assert Repeat(r, now, p, times + 2) == Repeat(one, now, p, times + 1) == Repeat(two, now, p, times);
  }

  lemma {:induction false} Settled(r: Record, now: int, p: Policy, times: nat)
    requires !Evaluate(r, now, p).changed
    ensures Repeat(r, now, p, times) == r
    decreases times
  {
    if times != 0 {
      Settled(r, now, p, times - 1);
    }
  }

  /** Two moves are possible: a snooze ending past the first threshold. */
  lemma TwoMovesHappen(r: Record, now: int, p: Policy)
    requires r.decision.state == Snoozed && r.decision.snoozedUntil == Some(now) && now < r.binding.expiresAt
    requires r.lastReminded == None && p.intervals == [1] && r.binding.createdAt < now
    ensures Pending(r, now, p) == 2 && Repeat(r, now, p, 2).revision == r.revision + 2
  {
    var one := Evaluate(r, now, p).record;
    assert p.intervals[0] == 1;
    assert ThresholdPassed(one.binding.createdAt, now, one.lastReminded, p.intervals);
    assert Repeat(r, now, p, 2) == Repeat(one, now, p, 1) == Repeat(Evaluate(one, now, p).record, now, p, 0);
  }
}
