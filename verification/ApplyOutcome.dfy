/** What a controlled apply writes, in both directions: APPLIED exactly on evidence and a complete ending
    (`run_controlled_apply`, src/fgops/controlled_apply.py). */
module ApplyOutcome {
  import opened Wrappers
  import opened Lifecycle
  import opened LifecycleRuns
  import opened AppliedEvidence
  import A = ControlledApply
  import C = Classifier

  // ---- The loop ----

  /** The loop ended without an exception. */
  predicate LoopReturns(c: A.Config, w: A.World)
    requires w.manifestFile.Some? && w.preflight.Some?
  {
    !A.LoopOf(c, w).raised
  }

  predicate PackageEvidence(c: A.Config, w: A.World, l: A.Loop, start: C.Inventory, i: nat)
    requires i < |l.sent| && i < |l.inventories|
  {
    i < |w.replies| && w.replies[i].Replied?
    && C.Evidence(A.DeltasAt(l, start, i), w.replies[i].output, c.preventDowngrade)
  }

  /** One result is an acceptance exactly on evidence. */
  lemma ResultIs(c: A.Config, w: A.World, i: nat)
    requires w.manifestFile.Some? && w.preflight.Some? && i < |A.LoopOf(c, w).results|
    ensures
      var l, start := A.LoopOf(c, w), w.preflight.value.versions;
      && i < |l.sent| && i < |l.inventories| && i < |w.replies| && w.replies[i].Replied?
      && l.results[i].status == C.InstalledStatus(A.DeltasAt(l, start, i), w.replies[i].output, c.preventDowngrade)
      && (!C.Failure(l.results[i].status) <==> PackageEvidence(c, w, l, start, i))
  {
    var items, start := A.Selected(c, w.manifestFile.value), w.preflight.value.versions;
    A.ResultsTelescope(c, items, start, w.replies, i);
    C.AcceptedMeansEvidence(A.DeltasAt(A.LoopOf(c, w), start, i), w.replies[i].output, c.preventDowngrade);
  }

  lemma LoopShape(c: A.Config, w: A.World)
    requires w.manifestFile.Some? && w.preflight.Some?
    ensures
      var l, items := A.LoopOf(c, w), A.Selected(c, w.manifestFile.value);
      && |l.results| == |l.inventories| && |l.sent| == |l.results| + (if l.raised then 1 else 0)
      && |l.results| <= |w.replies|
      && (!l.raised && A.NoFailure(l.results) ==> l.sent == items)
  {
    var items, start := A.Selected(c, w.manifestFile.value), w.preflight.value.versions;
    A.RestoresShape(c, items, start, w.replies);
    A.RestoresStops(c, items, start, w.replies);
    if |A.LoopOf(c, w).results| > 0 {
      A.ResultsTelescope(c, items, start, w.replies, |A.LoopOf(c, w).results| - 1);
    }
  }

  /** Evidence for each package of the selection is what makes every result an acceptance. */
  lemma EvidenceIsAcceptance(c: A.Config, w: A.World)
    requires w.manifestFile.Some? && w.preflight.Some?
    ensures
      var l, start := A.LoopOf(c, w), w.preflight.value.versions;
      !l.raised && A.NoFailure(l.results) <==>
        && l.sent == A.Selected(c, w.manifestFile.value) && |l.inventories| == |l.sent|
        && forall i | 0 <= i < |l.sent| :: PackageEvidence(c, w, l, start, i)
  {
    LoopShape(c, w);
    forall i | 0 <= i < |A.LoopOf(c, w).results|
      ensures !C.Failure(A.LoopOf(c, w).results[i].status)
         <==> PackageEvidence(c, w, A.LoopOf(c, w), w.preflight.value.versions, i)
    {
      ResultIs(c, w, i);
    }
  }

  lemma EvidencedIs(c: A.Config, manifestId: string, h: string, w: A.World)
    requires A.Cleared(c, manifestId, h, w)
    ensures Evidenced(c, manifestId, w, h) <==>
      LoopReturns(c, w) && A.NoFailure(A.LoopOf(c, w).results) && w.postflight == Some(true)
  {
    LoopShape(c, w);
    EvidenceIsAcceptance(c, w);
    var l, start := A.LoopOf(c, w), w.preflight.value.versions;
    if LoopReturns(c, w) && A.NoFailure(l.results) {
      forall i | 0 <= i < |l.sent|
        ensures w.replies[i].Replied?
        ensures C.Evidence(A.DeltasAt(l, start, i), w.replies[i].output, c.preventDowngrade)
      {
        assert PackageEvidence(c, w, l, start, i);
      }
    }
    if Evidenced(c, manifestId, w, h) {
      forall i | 0 <= i < |l.sent| ensures PackageEvidence(c, w, l, start, i) {
        assert w.replies[i].Replied?;
      }
    }
  }

  // ---- The ending ----

  /** After the loop nothing raises: the session closes, the backup copy is verified if there is one, the
      second health check answers, the report is written. */
  predicate EndsWell(c: A.Config, w: A.World) {
    w.sessionCloses && (c.requireBackup ==> w.backupCopyVerified) && w.postflight.Some? && w.reportWritten
  }

  lemma OutcomeOf(c: A.Config, manifestId: string, h: string, w: A.World)
    ensures
      var outcome := A.ApplySpec(c, manifestId, h, w).outcome;
      && (outcome.Some? <==> A.Cleared(c, manifestId, h, w) && LoopReturns(c, w) && EndsWell(c, w))
      && (outcome.Some? && outcome.value != A.OverallFailed <==> Evidenced(c, manifestId, w, h) && EndsWell(c, w))
  {
    A.GatesOpen(c, manifestId, h, w);
    if A.Cleared(c, manifestId, h, w) {
      EvidencedIs(c, manifestId, h, w);
    }
  }

  /** The package brought a newer object, and the device did not warn. */
  predicate CleanlyNewer(w: A.World, l: A.Loop, start: C.Inventory, i: nat)
    requires i < |l.sent| && i < |l.inventories| && i < |w.replies| && w.replies[i].Replied?
  {
    && C.AnyNewer(A.DeltasAt(l, start, i)) && !w.replies[i].output.commandFail
    && (w.replies[i].output.returnCode == None || w.replies[i].output.returnCode == Some(0))
  }

  lemma CleanResult(c: A.Config, w: A.World, i: nat)
    requires w.manifestFile.Some? && w.preflight.Some? && i < |A.LoopOf(c, w).results|
    requires !C.Failure(A.LoopOf(c, w).results[i].status)
    ensures i < |A.LoopOf(c, w).sent| && i < |A.LoopOf(c, w).inventories| && i < |w.replies| && w.replies[i].Replied?
    ensures A.LoopOf(c, w).results[i].status == C.SUCCESS
       <==> CleanlyNewer(w, A.LoopOf(c, w), w.preflight.value.versions, i)
  {
    ResultIs(c, w, i);
    C.AcceptedMeansEvidence(A.DeltasAt(A.LoopOf(c, w), w.preflight.value.versions, i), w.replies[i].output,
                            c.preventDowngrade);
  }

  lemma EndedOutcome(c: A.Config, manifestId: string, h: string, w: A.World)
    requires A.Cleared(c, manifestId, h, w) && LoopReturns(c, w) && EndsWell(c, w)
    ensures A.ApplySpec(c, manifestId, h, w).outcome == Some(A.OverallStatus(A.LoopOf(c, w).results, w.postflight.value))
  {
    A.GatesOpen(c, manifestId, h, w);
  }

  lemma AllCleanly(results: seq<C.PackageResult>)
    requires A.NoFailure(results)
    ensures A.OverallStatus(results, true) ==
            if forall i | 0 <= i < |results| :: results[i].status == C.SUCCESS then A.OverallSuccess else A.OverallWarning
  {
  }

  /** An accepted run ends without a warning exactly when every package brought a newer object and the device
      did not warn. */
  lemma CleanSuccess(c: A.Config, manifestId: string, h: string, w: A.World)
    requires Evidenced(c, manifestId, w, h) && EndsWell(c, w)
    ensures
      var l, start := A.LoopOf(c, w), w.preflight.value.versions;
      A.ApplySpec(c, manifestId, h, w).outcome ==
      Some(if forall i | 0 <= i < |l.sent| :: CleanlyNewer(w, l, start, i) then A.OverallSuccess else A.OverallWarning)
  {
    LoopShape(c, w);
    EvidencedIs(c, manifestId, h, w);
    EndedOutcome(c, manifestId, h, w);
    AllCleanly(A.LoopOf(c, w).results);
    forall i | 0 <= i < |A.LoopOf(c, w).sent|
      ensures i < |w.replies| && w.replies[i].Replied?
      ensures A.LoopOf(c, w).results[i].status == C.SUCCESS
         <==> CleanlyNewer(w, A.LoopOf(c, w), w.preflight.value.versions, i)
    {
      CleanResult(c, w, i);
    }
  }

  // ---- The state file and the history ----

  /** The call may touch the device: configuration, approval and the one matching entry allow it. */
  predicate Permitted(s: AgentState, c: A.Config, manifestId: string, approval: Option<string>, h: string) {
    && c.hasDevice && c.hasApply
    && (c.mode == A.Unattended || (c.mode == A.ApprovalMode && approval == Some(manifestId)))
    && Matching(s.order, s.archives, manifestId) == [h]
    && h in s.archives && s.archives[h].status == Prepared && s.archives[h].hasWorkDir
  }

  /** A call that is not permitted does nothing. */
  lemma NotPermitted(s: AgentState, c: A.Config, manifestId: string, approval: Option<string>, site: Site)
    requires forall h :: !Permitted(s, c, manifestId, approval, h)
    ensures ApplyManifest(s, c, manifestId, approval, site) == ApplyResult(s, [], None)
  {
    var matches := Matching(s.order, s.archives, manifestId);
    if |matches| == 1 {
      assert matches == [matches[0]];
      assert !Permitted(s, c, manifestId, approval, matches[0]);
    }
  }

  function WithStatus(s: AgentState, h: string, status: Status): AgentState
    requires h in s.archives
  {
    s.(archives := s.archives[h := s.archives[h].(status := status)])
  }

  lemma PermittedIs(s: AgentState, c: A.Config, manifestId: string, approval: Option<string>, site: Site, h: string)
    requires Permitted(s, c, manifestId, approval, h)
    ensures ApplyManifest(s, c, manifestId, approval, site)
         == Conclude(s, h, A.Gates(c, manifestId, h, site.world).1, A.ApplySpec(c, manifestId, h, site.world),
                     site.cleanupWorks)
  {
  }

  /** What a run whose checks passed leaves, in terms of its outcome. */
  function Written(s: AgentState, h: string, entered: LogEvent, outcome: Option<A.Overall>, cleanupWorks: bool): ApplyResult
    requires h in s.archives
  {
    match outcome
    case None => ApplyResult(s, [entered], None)
    case Some(OverallFailed) => ApplyResult(WithStatus(s, h, ApplyFailed), [entered], outcome)
    case Some(_) =>
      ApplyResult(WithStatus(s, h, Applied), [entered, BecameApplied(h)], if cleanupWorks then outcome else None)
  }

  lemma ConcludeWrites(s: AgentState, h: string, run: A.ApplyRun, cleanupWorks: bool)
    requires h in s.archives
    ensures Conclude(s, h, true, run, cleanupWorks)
         == Written(s, h, LoopEntered(h, A.Restored(run.trace)), run.outcome, cleanupWorks)
  {
  }

  /** A permitted call, in terms of what the device and the files answer: the new status of the entry, the
      history, and whether the caller sees a result.  Nothing else changes. */
  lemma ApplyWrites(s: AgentState, c: A.Config, manifestId: string, approval: Option<string>, site: Site, h: string)
    requires Permitted(s, c, manifestId, approval, h)
    ensures
      var r, w := ApplyManifest(s, c, manifestId, approval, site), site.world;
      if !A.Cleared(c, manifestId, h, w) then r == ApplyResult(s, [], None)
      else
        var entered := LoopEntered(h, A.LoopOf(c, w).sent);
        if !LoopReturns(c, w) || !EndsWell(c, w) then r == ApplyResult(s, [entered], None)
        else if Evidenced(c, manifestId, w, h) then
          && r.state == WithStatus(s, h, Applied) && r.log == [entered, BecameApplied(h)]
          && (r.outcome.Some? <==> site.cleanupWorks)
          && (r.outcome.Some? ==> r.outcome.value != A.OverallFailed)
        else r == ApplyResult(WithStatus(s, h, ApplyFailed), [entered], Some(A.OverallFailed))
  {
    var w := site.world;
    PermittedIs(s, c, manifestId, approval, site, h);
    OutcomeOf(c, manifestId, h, w);
    A.GatesOpen(c, manifestId, h, w);
    if A.Cleared(c, manifestId, h, w) {
      A.EnteredRun(c, manifestId, h, w);
      ConcludeWrites(s, h, A.ApplySpec(c, manifestId, h, w), site.cleanupWorks);
    }
  }

  /** A prepared entry ends APPLIED exactly when the call is permitted, the run has evidence for every package
      of the selection, and nothing raises before the report is written. */
  lemma AppliedExactlyOnEvidence(s: AgentState, c: A.Config, manifestId: string, approval: Option<string>, site: Site,
                                 h: string)
    requires Inv(s) && h in s.archives && s.archives[h].status == Prepared
    ensures
      var t := ApplyManifest(s, c, manifestId, approval, site).state;
      h in t.archives && t.archives[h].status == Applied <==>
        Permitted(s, c, manifestId, approval, h) && Evidenced(c, manifestId, site.world, h) && EndsWell(c, site.world)
  {
    if Permitted(s, c, manifestId, approval, h) {
      ApplyWrites(s, c, manifestId, approval, site, h);
      OutcomeOf(c, manifestId, h, site.world);
    } else if g :| Permitted(s, c, manifestId, approval, g) {
      ApplyWrites(s, c, manifestId, approval, site, g);
    } else {
      NotPermitted(s, c, manifestId, approval, site);
    }
  }

  /** What ends a loop with an exception: a restore that raises, versions that cannot be read, or no more answers. */
  lemma {:induction false} LoopRaises(c: A.Config, items: seq<A.Item>, start: C.Inventory, replies: seq<A.Reply>)
    ensures
      var l := A.Restores(c, items, start, replies);
      && (l.raised ==> |l.sent| > 0 && (|replies| < |l.sent| || !replies[|l.sent| - 1].Replied?))
      && (!l.raised && l.sent != items ==>
            c.stopOnFailure && |l.results| > 0 && C.Failure(l.results[|l.results| - 1].status))
    decreases |items|
  {
    if items != [] && A.NextReply(replies).Replied? {
      var rest := A.Restores(c, items[1..], replies[0].after, replies[1..]);
      A.RestoresStep(c, items, start, replies);
      LoopRaises(c, items[1..], replies[0].after, replies[1..]);
      A.RestoresShape(c, items[1..], replies[0].after, replies[1..]);
      assert items == [items[0]] + items[1..];
    }
  }
}
