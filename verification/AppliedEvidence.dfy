/** Whole runs again: APPLIED is written only for an archive whose every selected package was
    restored and confirmed by the device. */
module AppliedEvidence {
  import opened Wrappers
  import opened Lifecycle
  import opened LifecycleRuns
  import A = ControlledApply
  import C = Classifier
  import P = Payload

  predicate IsApplied(s: AgentState, h: string) {
    h in s.archives && s.archives[h].status == Applied
  }

  /** The device run under `w` restored the whole selection of archive `h`, found evidence for each
      package in it, and passed both health checks. */
  predicate Evidenced(c: A.Config, manifestId: string, w: A.World, h: string) {
    && A.Cleared(c, manifestId, h, w)
    && w.postflight == Some(true)
    && var l, start := A.LoopOf(c, w), w.preflight.value.versions;
       && l.sent == A.Selected(c, w.manifestFile.value)
       && |l.inventories| == |l.sent| <= |w.replies|
       && forall i | 0 <= i < |l.sent| ::
            w.replies[i].Replied? && C.Evidence(A.DeltasAt(l, start, i), w.replies[i].output, c.preventDowngrade)
  }

  lemma AcceptedIsEvidenced(c: A.Config, manifestId: string, w: A.World, h: string)
    requires
      var run := A.ApplySpec(c, manifestId, h, w);
      run.outcome.Some? && run.outcome.value != A.OverallFailed
    ensures Evidenced(c, manifestId, w, h)
  {
    A.AcceptedRunIsComplete(c, manifestId, h, w);
    A.GatesFacts(c, manifestId, h, w);
  }

  /** What an apply that succeeded leaves in the history: the whole selection went to the device. */
  function SuccessLog(c: A.Config, w: A.World, h: string): seq<LogEvent>
    requires w.manifestFile.Some?
  {
    [LoopEntered(h, A.Selected(c, w.manifestFile.value)), BecameApplied(h)]
  }

  /** The apply turned the entry APPLIED, or says so in the history. */
  ghost predicate Applies(s: AgentState, r: ApplyResult, h: string) {
    (!IsApplied(s, h) && IsApplied(r.state, h)) || BecameApplied(h) in r.log
  }

  /** A controlled apply writes APPLIED only on evidence. */
  lemma ApplyNeedsEvidence(s: AgentState, c: A.Config, manifestId: string, approval: Option<string>, site: Site, h: string)
    requires Applies(s, ApplyManifest(s, c, manifestId, approval, site), h)
    ensures A.ConfigAllows(c, manifestId, approval) && Evidenced(c, manifestId, site.world, h)
    ensures ApplyManifest(s, c, manifestId, approval, site).log == SuccessLog(c, site.world, h)
  {
    var matches := Matching(s.order, s.archives, manifestId);
    assert h == matches[0];
    AcceptedIsEvidenced(c, manifestId, site.world, h);
    A.EnteredRun(c, manifestId, h, site.world);
  }

  // ---- No other step writes APPLIED ----

  lemma NotifyApplies(s: AgentState, g: string, n: Notice, h: string)
    ensures IsApplied(Notify(s, g, n), h) <==> IsApplied(s, h)
  {
  }

  lemma SettleApplies(r: ApplyResult, g: string, last: Notice, h: string)
    ensures IsApplied(Settle(r, g, last), h) ==> IsApplied(r.state, h)
  {
  }

  lemma MonitorApplies(s: AgentState, c: A.Config, cat: Catalog, src: Source, dryRun: bool, h: string)
    requires Inv(s)
    ensures IsApplied(MonitorSpec(s, c, cat, src, dryRun).0, h) <==> IsApplied(s, h)
  {
    MonitorClimbs(s, c, cat, src, dryRun);
    if src.archive.Some? && !Handled(s, src.archive.value) {
      UnhandledIsNew(s, src.archive.value);
      PrepareApplies(s, c, cat, src, src.archive.value, h);
    }
  }

  lemma PrepareApplies(s: AgentState, c: A.Config, cat: Catalog, src: Source, g: string, h: string)
    requires Inv(s) && g !in s.archives
    ensures IsApplied(Prepare(s, c, cat, src, g).0, h) <==> IsApplied(s, h)
  {
    var b := cat.bundle(g);
    if Buildable(c, b, src, cat) {
      var kinds := KindSet(Planned(b.packages, c.enabled));
      FindFacts(s.order, s.archives, P.Fingerprint(b.packages, kinds, cat.digest).value, kinds, g, cat, src.readable);
    }
  }

  // ---- One step ----

  /** The step may apply this manifest on its own authority. */
  predicate MayApply(step: Step, manifestId: string) {
    match step
    case Monitor(_, _, _) => false
    case Cycle(c, _, _, _, _, _) => c.mode == A.Unattended
    case Approval(c, m, _, _, _) => c.mode == A.ApprovalMode && m == manifestId
    case DirectApply(c, m, approval, _) => m == manifestId && A.ConfigAllows(c, m, approval)
  }

  /** The step ran the apply of archive `h`: it sent the whole selection, had the evidence, and said so. */
  ghost predicate AppliedBy(s: System, cat: Catalog, step: Step, h: string) {
    exists m :: MayApply(step, m) && Evidenced(step.c, m, step.site.world, h)
                && Perform(s, cat, step).log == s.log + SuccessLog(step.c, step.site.world, h)
  }

  /** The step turned the entry APPLIED, or added that to the history. */
  ghost predicate StepApplied(s: System, t: System, h: string) {
    (!IsApplied(s.state, h) && IsApplied(t.state, h)) || (BecameApplied(h) !in s.log && BecameApplied(h) in t.log)
  }

  lemma CycleApplies(s: System, cat: Catalog, step: Step, h: string)
    requires Inv(s.state) && step.Cycle? && StepApplied(s, Perform(s, cat, step), h)
    ensures AppliedBy(s, cat, step, h)
  {
    var (state, result) := MonitorSpec(s.state, step.c, cat, step.src, false);
    MonitorApplies(s.state, step.c, cat, step.src, false, h);
    if result.NoChange? {
      NotifyApplies(state, result.hash, step.first, h);
    } else if result.Ready? {
      var notified := Notify(state, result.hash, step.first);
      NotifyApplies(state, result.hash, step.first, h);
      if step.c.mode == A.Unattended {
        var r := Guarded(notified, step.c, result.manifestId, None, step.secrets, step.site);
        SettleApplies(r, result.hash, step.last, h);
        ApplyNeedsEvidence(notified, step.c, result.manifestId, None, step.site, h);
        assert MayApply(step, result.manifestId);
      }
    }
  }

  lemma ApprovalApplies(s: System, cat: Catalog, step: Step, h: string)
    requires step.Approval? && StepApplied(s, Perform(s, cat, step), h)
    ensures AppliedBy(s, cat, step, h)
  {
    var m := step.manifestId;
    var r := Guarded(s.state, step.c, m, Some(m), step.secrets, step.site);
    var matches := Matching(r.state.order, r.state.archives, m);
    if matches != [] {
      SettleApplies(r, matches[0], step.last, h);
    }
    ApplyNeedsEvidence(s.state, step.c, m, Some(m), step.site, h);
    assert MayApply(step, m);
  }

  lemma DirectApplies(s: System, cat: Catalog, step: Step, h: string)
    requires step.DirectApply? && StepApplied(s, Perform(s, cat, step), h)
    ensures AppliedBy(s, cat, step, h)
  {
    ApplyNeedsEvidence(s.state, step.c, step.manifestId, step.approval, step.site, h);
    assert MayApply(step, step.manifestId);
  }

  lemma StepApplies(s: System, cat: Catalog, step: Step, h: string)
    requires Inv(s.state) && StepApplied(s, Perform(s, cat, step), h)
    ensures AppliedBy(s, cat, step, h)
  {
    match step
    case Monitor(c, src, dryRun) => MonitorApplies(s.state, c, cat, src, dryRun, h);
    case Cycle(_, _, _, _, _, _) => CycleApplies(s, cat, step, h);
    case Approval(_, _, _, _, _) => ApprovalApplies(s, cat, step, h);
    case DirectApply(_, _, _, _) => DirectApplies(s, cat, step, h);
  }

  // ---- Whole runs ----

  lemma RunHead(s: System, cat: Catalog, steps: seq<Step>, k: nat)
    requires k < |steps|
    ensures Run(s, cat, steps[..k + 1]) == Run(Perform(s, cat, steps[0]), cat, steps[1..][..k])
  {
    assert steps[..k + 1][1..] == steps[1..][..k];
  }

  /** The archive's entry is APPLIED, or the history says that it became so. */
  predicate Shown(s: System, h: string, told: bool) {
    if told then BecameApplied(h) in s.log else IsApplied(s.state, h)
  }

  /** Step `k` of a run ran the apply that first showed the archive as applied. */
  ghost predicate AppliedAt(s: System, cat: Catalog, steps: seq<Step>, k: nat, h: string, told: bool) {
    k < |steps| &&
    var before, after := Run(s, cat, steps[..k]), Run(s, cat, steps[..k + 1]);
    AppliedBy(before, cat, steps[k], h) && !Shown(before, h, told) && Shown(after, h, told)
  }

  lemma AppliedHere(s: System, cat: Catalog, steps: seq<Step>, h: string, told: bool)
    requires Inv(s.state) && steps != [] && !Shown(s, h, told) && Shown(Perform(s, cat, steps[0]), h, told)
    ensures AppliedAt(s, cat, steps, 0, h, told)
  {
    StepApplies(s, cat, steps[0], h);
    RunHead(s, cat, steps, 0);
    assert Run(s, cat, steps[..0]) == s;
    assert Run(Perform(s, cat, steps[0]), cat, steps[1..][..0]) == Perform(s, cat, steps[0]);
  }

  lemma AppliedLater(s: System, cat: Catalog, steps: seq<Step>, k: nat, h: string, told: bool)
    requires steps != [] && AppliedAt(Perform(s, cat, steps[0]), cat, steps[1..], k, h, told)
    ensures AppliedAt(s, cat, steps, k + 1, h, told)
  {
    RunHead(s, cat, steps, k);
    RunHead(s, cat, steps, k + 1);
  }

  lemma {:induction false} RunApplies(s: System, cat: Catalog, steps: seq<Step>, h: string, told: bool) returns (k: nat)
    requires Inv(s.state) && !Shown(s, h, told) && Shown(Run(s, cat, steps), h, told)
    ensures AppliedAt(s, cat, steps, k, h, told)
    decreases |steps|
  {
    var next := Perform(s, cat, steps[0]);
    StepClimbs(s, cat, steps[0]);
    if Shown(next, h, told) {
      k := 0;
      AppliedHere(s, cat, steps, h, told);
    } else {
      var j := RunApplies(next, cat, steps[1..], h, told);
      k := j + 1;
      AppliedLater(s, cat, steps, j, h, told);
    }
  }

  /** Every APPLIED entry of any run was written by a step of that run that sent the whole selection and
      had the evidence; before that step the entry was not APPLIED. */
  lemma AppliedCarriesEvidence(cat: Catalog, steps: seq<Step>, h: string)
    requires IsApplied(Run(EMPTY, cat, steps).state, h)
    ensures exists k: nat :: k < |steps|
                      && AppliedBy(Run(EMPTY, cat, steps[..k]), cat, steps[k], h)
                      && !IsApplied(Run(EMPTY, cat, steps[..k]).state, h)
                      && IsApplied(Run(EMPTY, cat, steps[..k + 1]).state, h)
  {
    var k := RunApplies(EMPTY, cat, steps, h, false);
  }

  /** The same for every archive the history calls applied, whatever became of its entry. */
  lemma HistoryCarriesEvidence(cat: Catalog, steps: seq<Step>, h: string) returns (k: nat)
    requires BecameApplied(h) in Run(EMPTY, cat, steps).log
    ensures k < |steps| && AppliedBy(Run(EMPTY, cat, steps[..k]), cat, steps[k], h)
    ensures BecameApplied(h) !in Run(EMPTY, cat, steps[..k]).log
    ensures BecameApplied(h) in Run(EMPTY, cat, steps[..k + 1]).log
  {
    k := RunApplies(EMPTY, cat, steps, h, true);
  }
}
