/** What one watchdog call does, state by state, and from which instant a reminder is due
    (`evaluate_watchdog`, src/fgops/approval_state.py). */
module WatchdogMeaning {
  import opened Wrappers
  import opened Approval
  import opened Watchdog

  // ---- The moves of the clock ----

  /** The record as the watchdog signs it. */
  function Signed(r: Record, now: int, reason: Reason): Record {
    r.(actor := Some("fgops-watchdog"), reason := reason, updatedAt := now, revision := r.revision + 1)
  }

  function Quiet(r: Record): WatchdogResult {
    WatchdogResult(r, false, false)
  }

  /** Past the deadline everything open expires; the end of a snooze asks for a reminder, the release of a
      schedule does not. */
  lemma ClockMoves(r: Record, now: int, p: Policy)
    ensures
      var d := r.decision;
      Evaluate(r, now, p) ==
      match d.state
      case Rejected => Quiet(r)
      case Expired => Quiet(r)
      case Cancelled => Quiet(r)
      case Approved => Quiet(r)
      case Snoozed =>
        if r.binding.expiresAt <= now then
          WatchdogResult(Signed(r, now, WatchdogExpired).(
            decision := Decision(Expired, [], d.executeAt, d.snoozedUntil)), true, false)
        else if d.snoozedUntil.None? || now < d.snoozedUntil.value then Quiet(r)
        else
          WatchdogResult(Signed(r, now, SnoozeElapsed).(
            decision := Decision(AwaitingApproval, d.approvedPackages, d.executeAt, None)), true, true)
      case Scheduled =>
        if r.binding.expiresAt <= now then
          WatchdogResult(Signed(r, now, WatchdogExpired).(
            decision := Decision(Expired, [], d.executeAt, d.snoozedUntil)), true, false)
        else if d.executeAt.None? || now < d.executeAt.value then Quiet(r)
        else
          WatchdogResult(Signed(r, now, ExecutionTimeReached).(
            decision := Decision(Approved, d.approvedPackages, d.executeAt, d.snoozedUntil)), true, false)
      case AwaitingApproval =>
        if r.binding.expiresAt <= now then
          WatchdogResult(Signed(r, now, WatchdogExpired).(
            decision := Decision(Expired, [], d.executeAt, d.snoozedUntil)), true, false)
        else if !IsReminderDue(r, now, p) then Quiet(r)
        else
          WatchdogResult(Signed(r, now, ReminderDue).(
            lastReminded := Some(now), reminderCount := r.reminderCount + 1), true, true)
  {
  }

  // ---- The next reminder ----

  function Earlier(a: Option<int>, b: Option<int>): Option<int> {
    if a.None? || (b.Some? && b.value < a.value) then b else a
  }

  /** The first threshold after the last reminder. */
  function NextThreshold(createdAt: int, last: Option<int>, intervals: seq<int>): Option<int> {
    if intervals == [] then None
    else
      var threshold := createdAt + intervals[0];
      Earlier(if last.Some? && threshold <= last.value then None else Some(threshold),
              NextThreshold(createdAt, last, intervals[1..]))
  }

  /** When the repeat period, which runs after all thresholds, asks again. */
  function NextRepeat(createdAt: int, last: Option<int>, p: Policy): Option<int> {
    if p.repeatEvery.None? || p.repeatEvery.value == 0 || p.intervals == [] || last.None? then None
    else Some(if last.value + p.repeatEvery.value < createdAt + Largest(p.intervals) then createdAt + Largest(p.intervals)
              else last.value + p.repeatEvery.value)
  }

  function NextReminder(r: Record, p: Policy): Option<int> {
    Earlier(NextThreshold(r.binding.createdAt, r.lastReminded, p.intervals),
            NextRepeat(r.binding.createdAt, r.lastReminded, p))
  }

  lemma {:induction false} ThresholdFrom(createdAt: int, last: Option<int>, intervals: seq<int>, now: int)
    ensures
      var next := NextThreshold(createdAt, last, intervals);
      ThresholdPassed(createdAt, now, last, intervals) <==> next.Some? && next.value <= now
  {
    if intervals != [] {
      var rest := intervals[1..];
      ThresholdFrom(createdAt, last, rest, now);
      if i :| 0 <= i < |intervals| && createdAt + intervals[i] <= now
              && (last.None? || last.value < createdAt + intervals[i]) {
        assert i > 0 ==> rest[i - 1] == intervals[i];
      }
      if i :| 0 <= i < |rest| && createdAt + rest[i] <= now && (last.None? || last.value < createdAt + rest[i]) {
        assert intervals[i + 1] == rest[i];
      }
      assert intervals[0] == intervals[0];
    }
  }

  /** A reminder is due from one instant on, which only depends on the record and the policy: the first
      threshold after the last reminder, or the repeat period after it once all thresholds are behind. */
  lemma ReminderIsDueFrom(r: Record, now: int, p: Policy)
    ensures IsReminderDue(r, now, p) <==> NextReminder(r, p).Some? && NextReminder(r, p).value <= now
  {
    ThresholdFrom(r.binding.createdAt, r.lastReminded, p.intervals, now);
  }
}
