/** How a cycle and an approval leave the entry they work on (`run_cycle` and `approve_manifest`,
    src/fgops/cycle.py). */
module CycleOutcomes {
  import opened Wrappers
  import opened Lifecycle
  import opened LifecycleRuns
  import opened AppliedEvidence
  import opened ApplyOutcome
  import A = ControlledApply

  /** The state with the entry of `h`, if there is one, changed to this status and notice. */
  function Marked(s: AgentState, h: string, status: Status, notice: Notice): AgentState {
    if h in s.archives
    then AgentState(s.order, s.archives[h := s.archives[h].(status := status, notice := notice)])
    else s
  }

  function Noticed(s: AgentState, h: string, notice: Notice): AgentState {
    if h in s.archives then AgentState(s.order, s.archives[h := s.archives[h].(notice := notice)]) else s
  }

  /** What the caller's exception handler and the final notice make of a permitted apply: APPLIED or
      APPLY_FAILED if the apply returns, REVIEW_REQUIRED if anything raises, the clean-up after a success
      included. */
  function FinalStatus(c: A.Config, manifestId: string, h: string, site: Site): Status {
    var w := site.world;
    if !A.Cleared(c, manifestId, h, w) || !LoopReturns(c, w) || !EndsWell(c, w) then ReviewRequired
    else if EvidencedRun(c, w) then (if site.cleanupWorks then Applied else ReviewRequired)
    else ApplyFailed
  }

  /** Every package of the selection was restored and accepted, and the second health check passed. */
  predicate EvidencedRun(c: A.Config, w: A.World)
    requires w.manifestFile.Some? && w.preflight.Some?
  {
    LoopReturns(c, w) && A.NoFailure(A.LoopOf(c, w).results) && w.postflight == Some(true)
  }

  /** The history of a permitted apply. */
  function ApplyLog(c: A.Config, manifestId: string, h: string, w: A.World): seq<LogEvent> {
    if !A.Cleared(c, manifestId, h, w) then []
    else
      [LoopEntered(h, A.LoopOf(c, w).sent)]
      + if LoopReturns(c, w) && EndsWell(c, w) && EvidencedRun(c, w) then [BecameApplied(h)] else []
  }

  lemma ApplyLeaves(s: AgentState, c: A.Config, manifestId: string, approval: Option<string>, site: Site, h: string)
    requires Permitted(s, c, manifestId, approval, h)
    ensures
      var r := ApplyManifest(s, c, manifestId, approval, site);
      && r.log == ApplyLog(c, manifestId, h, site.world)
      && h in r.state.archives
      && r.state == AgentState(s.order, s.archives[h := s.archives[h].(status := r.state.archives[h].status)])
      && (r.outcome.Some? ==> r.state.archives[h].status == FinalStatus(c, manifestId, h, site))
      && (r.outcome.None? ==> FinalStatus(c, manifestId, h, site) == ReviewRequired)
  {
    ApplyWrites(s, c, manifestId, approval, site, h);
    if A.Cleared(c, manifestId, h, site.world) {
      EvidencedIs(c, manifestId, h, site.world);
    }
    assert s.archives[h := s.archives[h]] == s.archives;
  }

  lemma SettledIs(s: AgentState, r: ApplyResult, h: string, last: Notice, status: Status)
    requires h in s.archives && h in r.state.archives
    requires r.state == AgentState(s.order, s.archives[h := s.archives[h].(status := r.state.archives[h].status)])
    requires r.outcome.Some? ==> r.state.archives[h].status == status
    requires r.outcome.None? ==> status == ReviewRequired
    ensures Settle(r, h, last) == Marked(s, h, status, last)
  {
    var e := s.archives[h].(status := status, notice := last);
    assert Settle(r, h, last).archives == s.archives[h := e];
  }

  // ---- The cycle ----

  /** Without a prepared archive nothing is applied; a prepared archive that was seen before only has a missing
      or failed notice sent again. */
  lemma QuietCycle(s: System, cat: Catalog, step: Step)
    requires step.Cycle?
    ensures
      var (state, result) := MonitorSpec(s.state, step.c, cat, step.src, false);
      match result
      case Ready(_, _) => true
      case NoChange(h) =>
        Perform(s, cat, step) ==
        System(if && h in state.archives && state.archives[h].manifestId.Some?
                  && state.archives[h].notice in {Unset, NotifyFailed}
               then Noticed(state, h, step.first) else state, s.log)
      case _ => Perform(s, cat, step) == System(state, s.log)
  {
  }

  /** An archive that is ready, in an agent that is not unattended: only the notice changes. */
  lemma AttendedCycle(s: System, cat: Catalog, step: Step)
    requires step.Cycle? && step.c.mode != A.Unattended
    ensures
      var (state, result) := MonitorSpec(s.state, step.c, cat, step.src, false);
      result.Ready? ==> Perform(s, cat, step) == System(Noticed(state, result.hash, step.first), s.log)
  {
  }

  lemma NoticeKeepsPermission(s: AgentState, h: string, n: Notice, c: A.Config, manifestId: string,
                              approval: Option<string>, g: string)
    requires h in s.archives
    ensures Permitted(Notify(s, h, n), c, manifestId, approval, g) <==> Permitted(s, c, manifestId, approval, g)
  {
    MatchingIgnoresStatus(s.order, s.archives, Notify(s, h, n).archives, manifestId);
  }

  /** An archive that is ready, in an unattended agent that may apply it. */
  lemma UnattendedCycle(s: System, cat: Catalog, step: Step, h: string, manifestId: string)
    requires step.Cycle? && step.c.mode == A.Unattended && step.secrets
    requires MonitorSpec(s.state, step.c, cat, step.src, false).1 == Ready(h, manifestId)
    requires Permitted(MonitorSpec(s.state, step.c, cat, step.src, false).0, step.c, manifestId, None, h)
    ensures
      var state := MonitorSpec(s.state, step.c, cat, step.src, false).0;
      Perform(s, cat, step) ==
      System(Marked(state, h, FinalStatus(step.c, manifestId, h, step.site), step.last),
             s.log + ApplyLog(step.c, manifestId, h, step.site.world))
  {
    var state := MonitorSpec(s.state, step.c, cat, step.src, false).0;
    var notified := Notify(state, h, step.first);
    NoticeKeepsPermission(state, h, step.first, step.c, manifestId, None, h);
    ApplyLeaves(notified, step.c, manifestId, None, step.site, h);
    var r := ApplyManifest(notified, step.c, manifestId, None, step.site);
    var status := FinalStatus(step.c, manifestId, h, step.site);
    SettledIs(notified, r, h, step.last, status);
    assert Marked(notified, h, status, step.last).archives == Marked(state, h, status, step.last).archives;
  }

  lemma RefusedIsMarked(s: AgentState, h: string, first: Notice, last: Notice)
    ensures Settle(ApplyResult(Notify(s, h, first), [], None), h, last) == Marked(s, h, ReviewRequired, last)
  {
    if h in s.archives {
      assert Settle(ApplyResult(Notify(s, h, first), [], None), h, last).archives
          == s.archives[h := s.archives[h].(status := ReviewRequired, notice := last)];
    }
  }

  lemma NothingApplied(state: AgentState, h: string, first: Notice, c: A.Config, manifestId: string, secrets: bool,
                       site: Site)
    requires h in state.archives
    requires !secrets || forall g :: !Permitted(state, c, manifestId, None, g)
    ensures Guarded(Notify(state, h, first), c, manifestId, None, secrets, site)
         == ApplyResult(Notify(state, h, first), [], None)
  {
    if secrets {
      forall g ensures !Permitted(Notify(state, h, first), c, manifestId, None, g) {
        NoticeKeepsPermission(state, h, first, c, manifestId, None, g);
      }
      NotPermitted(Notify(state, h, first), c, manifestId, None, site);
    }
  }

  /** An archive that is ready, in an unattended agent that cannot apply it, for want of a secret or of
      permission: it goes to review. */
  lemma UnattendedRefused(s: System, cat: Catalog, step: Step, h: string, manifestId: string)
    requires Inv(s.state) && step.Cycle? && step.c.mode == A.Unattended
    requires MonitorSpec(s.state, step.c, cat, step.src, false).1 == Ready(h, manifestId)
    requires !step.secrets
             || forall g :: !Permitted(MonitorSpec(s.state, step.c, cat, step.src, false).0, step.c, manifestId, None, g)
    ensures
      var state := MonitorSpec(s.state, step.c, cat, step.src, false).0;
      Perform(s, cat, step) == System(Marked(state, h, ReviewRequired, step.last), s.log)
  {
    var state := MonitorSpec(s.state, step.c, cat, step.src, false).0;
    MonitorClimbs(s.state, step.c, cat, step.src, false);
    NothingApplied(state, h, step.first, step.c, manifestId, step.secrets, step.site);
    RefusedIsMarked(state, h, step.first, step.last);
    assert s.log + [] == s.log;
  }

  // ---- Approving ----

  /** Outside approval mode `approve` does nothing. */
  lemma ApprovalElsewhere(s: System, cat: Catalog, step: Step)
    requires step.Approval? && step.c.mode != A.ApprovalMode
    ensures Perform(s, cat, step) == s
  {
  }

  /** An approval that may apply its archive. */
  lemma ApprovalApplied(s: System, cat: Catalog, step: Step, h: string)
    requires step.Approval? && step.c.mode == A.ApprovalMode && step.secrets
    requires Permitted(s.state, step.c, step.manifestId, Some(step.manifestId), h)
    ensures Perform(s, cat, step) ==
            System(Marked(s.state, h, FinalStatus(step.c, step.manifestId, h, step.site), step.last),
                   s.log + ApplyLog(step.c, step.manifestId, h, step.site.world))
  {
    var m := step.manifestId;
    ApplyLeaves(s.state, step.c, m, Some(m), step.site, h);
    var r := ApplyManifest(s.state, step.c, m, Some(m), step.site);
    MatchingIgnoresStatus(s.state.order, s.state.archives, r.state.archives, m);
    SettledIs(s.state, r, h, step.last, FinalStatus(step.c, m, h, step.site));
  }

  /** An approval that cannot apply: the first entry with this manifest id, if any, goes to review. */
  lemma ApprovalRefused(s: System, cat: Catalog, step: Step)
    requires step.Approval? && step.c.mode == A.ApprovalMode
    requires !step.secrets || forall g :: !Permitted(s.state, step.c, step.manifestId, Some(step.manifestId), g)
    ensures
      var matches := Matching(s.state.order, s.state.archives, step.manifestId);
      Perform(s, cat, step) ==
      if matches == [] then s else System(Marked(s.state, matches[0], ReviewRequired, step.last), s.log)
  {
    var m := step.manifestId;
    if step.secrets {
      NotPermitted(s.state, step.c, m, Some(m), step.site);
    }
    assert s.log + [] == s.log;
    var matches := Matching(s.state.order, s.state.archives, m);
    if matches != [] {
      assert Settle(ApplyResult(s.state, [], None), matches[0], step.last).archives
          == Marked(s.state, matches[0], ReviewRequired, step.last).archives;
    }
  }

  // ---- Which entry a manifest id means ----

  predicate Holds(archives: map<string, Entry>, h: string, manifestId: string) {
    h in archives && archives[h].manifestId == Some(manifestId)
  }

  /** The first match is the first entry of the state file that has the id. */
  lemma {:induction false} FirstMatch(order: seq<string>, archives: map<string, Entry>, manifestId: string)
    returns (i: nat)
    requires Matching(order, archives, manifestId) != []
    ensures i < |order| && Matching(order, archives, manifestId)[0] == order[i] && Holds(archives, order[i], manifestId)
    ensures forall j | 0 <= j < i :: !Holds(archives, order[j], manifestId)
  {
    if Holds(archives, order[0], manifestId) {
      i := 0;
    } else {
      var k := FirstMatch(order[1..], archives, manifestId);
      i := k + 1;
      assert forall j | 0 < j < i :: order[j] == order[1..][j - 1];
    }
  }

  lemma {:induction false} NoMatch(order: seq<string>, archives: map<string, Entry>, manifestId: string)
    ensures Matching(order, archives, manifestId) == [] <==>
              forall i | 0 <= i < |order| :: !Holds(archives, order[i], manifestId)
  {
    if order != [] {
      NoMatch(order[1..], archives, manifestId);
      assert forall i | 0 < i < |order| :: order[i] == order[1..][i - 1];
      assert forall i | 0 <= i < |order[1..]| :: order[1..][i] == order[i + 1];
    }
  }

  lemma HeadIsAll(x: string, more: seq<string>, h: string)
    ensures [x] + more == [h] <==> x == h && more == []
  {
    if [x] + more == [h] {
      assert x == ([x] + more)[0] && more == ([x] + more)[1..];
    }
  }

  /** One match means one entry with the id. */
  lemma {:induction false} OneMatch(order: seq<string>, archives: map<string, Entry>, manifestId: string, h: string)
    ensures Matching(order, archives, manifestId) == [h] <==>
              exists i | 0 <= i < |order| :: order[i] == h && Holds(archives, h, manifestId)
                && forall j | 0 <= j < |order| && Holds(archives, order[j], manifestId) :: j == i
  {
    if order != [] {
      var rest := order[1..];
      OneMatch(rest, archives, manifestId, h);
      NoMatch(rest, archives, manifestId);
      assert forall i | 0 < i < |order| :: order[i] == rest[i - 1];
      assert forall i | 0 <= i < |rest| :: rest[i] == order[i + 1];
      if Holds(archives, order[0], manifestId) {
        HeadIsAll(order[0], Matching(rest, archives, manifestId), h);
        if i :| 0 <= i < |order| && order[i] == h && Holds(archives, h, manifestId)
                && forall j | 0 <= j < |order| && Holds(archives, order[j], manifestId) :: j == i {
          assert i == 0 && forall j | 0 < j < |order| :: !Holds(archives, order[j], manifestId);
        }
      } else {
        assert Matching(order, archives, manifestId) == Matching(rest, archives, manifestId);
        if i :| 0 <= i < |rest| && rest[i] == h && Holds(archives, h, manifestId)
                && forall j | 0 <= j < |rest| && Holds(archives, rest[j], manifestId) :: j == i {
          assert order[i + 1] == h;
        }
      }
    }
  }
}
