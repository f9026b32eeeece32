/** Safety over whole runs of the agent: the lifecycle only climbs, and an archive enters the
    device-changing loop at most once. */
module LifecycleRuns {
  import opened Wrappers
  import opened Lifecycle
  import A = ControlledApply
  import P = Payload

  // ---- The state invariant and the allowed moves ----

  predicate Inv(s: AgentState) {
    && (forall h | h in s.archives :: h in s.order)
    && (forall h | h in s.order :: h in s.archives)
    && (forall h | h in s.archives :: Known(s.archives[h].status))
    && (forall h | h in s.archives && s.archives[h].status == ContentDuplicate :: s.archives[h].manifestId == None)
  }

  predicate Move(a: Status, b: Status) {
    || a == b
    || (a == Prepared && (b == Applied || b == ApplyFailed || b == ReviewRequired))
    || ((a == Applied || a == ApplyFailed) && b == ReviewRequired)
  }

  predicate Later(a: Entry, b: Entry) {
    Move(a.status, b.status) && a.manifestId == b.manifestId && a.hasWorkDir == b.hasWorkDir
    && a.planned == b.planned && a.duplicateOf == b.duplicateOf
  }

  /** No entry is lost, replaced or moved back. */
  predicate Climbs(s: AgentState, t: AgentState) {
    forall h | h in s.archives :: h in t.archives && Later(s.archives[h], t.archives[h])
  }

  lemma ClimbsTransitive(s: AgentState, t: AgentState, u: AgentState)
    requires Climbs(s, t) && Climbs(t, u)
    ensures Climbs(s, u)
  {
  }

  lemma NotifyClimbs(s: AgentState, h: string, n: Notice)
    requires Inv(s)
    ensures Inv(Notify(s, h, n)) && Climbs(s, Notify(s, h, n))
    ensures forall g | g in s.archives :: Notify(s, h, n).archives[g].status == s.archives[g].status
    ensures Notify(s, h, n).order == s.order
  {
  }

  lemma SetStatusClimbs(s: AgentState, h: string, status: Status)
    requires Inv(s) && Known(status) && status != ContentDuplicate
    requires h in s.archives ==> Move(s.archives[h].status, status)
    ensures Inv(SetStatus(s, h, status)) && Climbs(s, SetStatus(s, h, status))
    ensures SetStatus(s, h, status).order == s.order
  {
  }

  // ---- Preparing ----

  /** The scan only touches payload fields. */
  predicate SameButPayload(a: map<string, Entry>, b: map<string, Entry>) {
    a.Keys == b.Keys
    && forall h | h in a :: b[h] == a[h].(payloadSha := b[h].payloadSha, payloadKinds := b[h].payloadKinds)
  }

  lemma {:induction false} FindFacts(order: seq<string>, archives: map<string, Entry>, sha: string, kinds: set<string>,
                                     exclude: string, cat: Catalog, readable: set<string>)
    ensures
      var (b, found) := FindPayload(order, archives, sha, kinds, exclude, cat, readable);
      SameButPayload(archives, b) && (found.Some? ==> found.value in order && IsCandidate(archives, found.value, exclude))
    decreases |order|
  {
    if order != [] {
      if IsCandidate(archives, order[0], exclude) {
        var candidate := EntryPayload(order[0], archives[order[0]], kinds, cat, readable);
        var updated := Remember(archives, order[0], candidate, kinds);
        FindFacts(order[1..], updated, sha, kinds, exclude, cat, readable);
      } else {
        FindFacts(order[1..], archives, sha, kinds, exclude, cat, readable);
      }
    }
  }

  lemma PayloadWritesClimb(s: AgentState, archives: map<string, Entry>)
    requires Inv(s) && SameButPayload(s.archives, archives)
    ensures Inv(s.(archives := archives)) && Climbs(s, s.(archives := archives))
    ensures forall h | h in s.archives :: archives[h].status == s.archives[h].status
  {
  }

  lemma PutClimbs(s: AgentState, h: string, e: Entry)
    requires Inv(s) && h !in s.archives && Known(e.status) && (e.status == ContentDuplicate ==> e.manifestId == None)
    ensures Inv(Put(s, h, e)) && Climbs(s, Put(s, h, e))
  {
  }

  lemma UnhandledIsNew(s: AgentState, h: string)
    requires Inv(s) && !Handled(s, h)
    ensures h !in s.archives
  {
  }

  /** Preparing never re-prepares a known hash and changes no existing status. */
  lemma PrepareClimbs(s: AgentState, c: A.Config, cat: Catalog, src: Source, h: string)
    requires Inv(s) && h !in s.archives
    ensures
      var (t, result) := Prepare(s, c, cat, src, h);
      && Inv(t) && Climbs(s, t)
      && (forall g | g in s.archives :: t.archives[g].status == s.archives[g].status)
      && (forall g | g in t.archives && g !in s.archives :: g == h)
      && (result.Ready? ==> result.hash == h && h in t.archives && t.archives[h].manifestId == Some(result.manifestId)
                            && t.archives[h].status == Prepared)
      && !result.NoChange?
  {
    var b := cat.bundle(h);
    if Buildable(c, b, src, cat) {
      var planned := Planned(b.packages, c.enabled);
      var sha := P.Fingerprint(b.packages, KindSet(planned), cat.digest).value;
      var (archives, duplicate) := FindPayload(s.order, s.archives, sha, KindSet(planned), h, cat, src.readable);
      FindFacts(s.order, s.archives, sha, KindSet(planned), h, cat, src.readable);
      PayloadWritesClimb(s, archives);
      var found := s.(archives := archives);
      var e := if duplicate.Some? then DuplicateEntry(planned, sha, duplicate.value)
               else PreparedEntry(planned, sha, b.manifestId);
      PutClimbs(found, h, e);
      ClimbsTransitive(s, found, Put(found, h, e));
    }
  }

  lemma ClimbsReflexive(s: AgentState)
    ensures Climbs(s, s)
  {
  }

  lemma MonitorClimbs(s: AgentState, c: A.Config, cat: Catalog, src: Source, dryRun: bool)
    requires Inv(s)
    ensures
      var (t, result) := MonitorSpec(s, c, cat, src, dryRun);
      && Inv(t) && Climbs(s, t)
      && (forall g | g in s.archives :: t.archives[g].status == s.archives[g].status)
      && (result.Ready? ==> result.hash in t.archives && t.archives[result.hash].status == Prepared
                            && t.archives[result.hash].manifestId == Some(result.manifestId))
  {
    ClimbsReflexive(s);
    if src.archive.Some? && !Handled(s, src.archive.value) {
      UnhandledIsNew(s, src.archive.value);
      PrepareClimbs(s, c, cat, src, src.archive.value);
    }
  }

  // ---- Applying ----

  lemma {:induction false} MatchingFacts(order: seq<string>, archives: map<string, Entry>, manifestId: string)
    ensures forall h :: h in Matching(order, archives, manifestId) <==>
              h in order && h in archives && archives[h].manifestId == Some(manifestId)
  {
    if order != [] {
      MatchingFacts(order[1..], archives, manifestId);
      assert forall h :: h in order <==> h == order[0] || h in order[1..];
    }
  }

  lemma {:induction false} MatchingIgnoresStatus(order: seq<string>, a: map<string, Entry>, b: map<string, Entry>, manifestId: string)
    requires a.Keys == b.Keys && forall h | h in a :: a[h].manifestId == b[h].manifestId
    ensures Matching(order, a, manifestId) == Matching(order, b, manifestId)
  {
    if order != [] {
      MatchingIgnoresStatus(order[1..], a, b, manifestId);
    }
  }

  function Entries(log: seq<LogEvent>, h: string): nat {
    if log == [] then 0 else (if log[0].LoopEntered? && log[0].hash == h then 1 else 0) + Entries(log[1..], h)
  }

  lemma {:induction false} EntriesAppend(a: seq<LogEvent>, b: seq<LogEvent>, h: string)
    ensures Entries(a + b, h) == Entries(a, h) + Entries(b, h)
  {
    if a == [] {
      assert a + b == b;
    } else {
      assert (a + b)[1..] == a[1..] + b;
      EntriesAppend(a[1..], b, h);
    }
  }

  predicate Distinct(log: seq<LogEvent>) {
    forall i | 0 <= i < |log| && log[i].LoopEntered? :: A.DistinctKinds(log[i].sent)
  }

  /** The history one apply of archive `h` leaves: nothing, an entry, or an entry and a success. */
  predicate LogOf(log: seq<LogEvent>, h: string) {
    || log == []
    || (&& log[0].LoopEntered? && log[0].hash == h && A.DistinctKinds(log[0].sent)
        && (|log| == 1 || (|log| == 2 && log[1] == BecameApplied(h))))
  }

  lemma LogOfFacts(log: seq<LogEvent>, h: string)
    requires LogOf(log, h)
    ensures Distinct(log)
    ensures forall g :: Entries(log, g) == if log != [] && g == h then 1 else 0
  {
    if log != [] {
      assert |log| == 2 ==> log[1..] == [BecameApplied(h)];
      assert |log| == 1 ==> log[1..] == [];
      forall g ensures Entries(log, g) == if g == h then 1 else 0 {
        assert Entries(log[1..], g) == 0;
      }
    }
  }

  /** Only archive `h` may move, and it moves on unless the loop was interrupted. */
  ghost predicate Effect(s: AgentState, h: string, r: ApplyResult) {
    && Inv(r.state) && Climbs(s, r.state) && r.state.order == s.order && r.state.archives.Keys == s.archives.Keys
    && (forall g | g in s.archives && g != h :: r.state.archives[g] == s.archives[g])
    && LogOf(r.log, h)
    && (r.log == [] ==> r.state == s)
    && (r.log != [] ==> h in s.archives && s.archives[h].status == Prepared)
    && (r.log != [] ==> r.state == s || r.state.archives[h].status != Prepared)
  }

  /** A success is logged exactly when the entry became APPLIED. */
  predicate AppliedIsLogged(s: AgentState, h: string, r: ApplyResult) {
    BecameApplied(h) in r.log <==>
      h in s.archives && h in r.state.archives && r.state.archives[h].status == Applied != s.archives[h].status
  }

  lemma ConcludeFacts(s: AgentState, h: string, entered: bool, run: A.ApplyRun, cleanupWorks: bool)
    requires Inv(s) && Lifecycle.Eligible(s, h)
    requires A.DistinctKinds(A.Restored(run.trace)) && (run.outcome.Some? ==> entered)
    ensures Effect(s, h, Conclude(s, h, entered, run, cleanupWorks))
    ensures AppliedIsLogged(s, h, Conclude(s, h, entered, run, cleanupWorks))
  {
    ClimbsReflexive(s);
    if run.outcome.Some? {
      var status := if run.outcome.value == A.OverallFailed then ApplyFailed else Applied;
      SetStatusClimbs(s, h, status);
      assert Conclude(s, h, entered, run, cleanupWorks).state == SetStatus(s, h, status);
    }
  }

  lemma OutcomeNeedsEntry(c: A.Config, manifestId: string, archive: string, w: A.World)
    ensures A.ApplySpec(c, manifestId, archive, w).outcome.Some? ==> A.Gates(c, manifestId, archive, w).1
  {
  }

  /** What one controlled apply does to the state and the log. */
  lemma ApplyFacts(s: AgentState, c: A.Config, manifestId: string, approval: Option<string>, site: Site)
    returns (h: string)
    requires Inv(s)
    ensures
      var r := ApplyManifest(s, c, manifestId, approval, site);
      Effect(s, h, r) && AppliedIsLogged(s, h, r) && (r.log != [] ==> Matching(s.order, s.archives, manifestId) == [h])
  {
    var matches := Matching(s.order, s.archives, manifestId);
    h := if matches == [] then "" else matches[0];
    ClimbsReflexive(s);
    if A.ConfigAllows(c, manifestId, approval) && |matches| == 1 && Lifecycle.Eligible(s, h) {
      A.TraceDiscipline(c, manifestId, h, site.world);
      OutcomeNeedsEntry(c, manifestId, h, site.world);
      ConcludeFacts(s, h, A.Gates(c, manifestId, h, site.world).1, A.ApplySpec(c, manifestId, h, site.world),
                    site.cleanupWorks);
    }
  }

  // ---- One step ----

  /** Every archive entered the loop at most once, and one that did is no longer PREPARED. */
  ghost predicate Once(s: System) {
    && (forall h :: Entries(s.log, h) <= 1)
    && (forall h | 1 <= Entries(s.log, h) :: h in s.state.archives && s.state.archives[h].status != Prepared)
    && Distinct(s.log)
  }

  /** A direct apply that is allowed, finds its one eligible archive and passes every check, and whose run
      then breaks off before the report: in the loop, at closing the session, at the backup copy, at the
      second health check, or at writing the report. */
  predicate LeftPrepared(s: AgentState, step: Step) {
    step.DirectApply? &&
    var matches := Matching(s.order, s.archives, step.manifestId);
    && A.ConfigAllows(step.c, step.manifestId, step.approval)
    && |matches| == 1 && Lifecycle.Eligible(s, matches[0])
    && A.Cleared(step.c, step.manifestId, matches[0], step.site.world)
    && A.Ending(step.c, A.LoopOf(step.c, step.site.world), step.site.world).1.None?
  }

  /** These are exactly the direct applies that enter the loop and leave the state file as it was. */
  lemma LeftPreparedMeans(s: AgentState, step: Step)
    requires step.DirectApply?
    ensures
      var r := ApplyManifest(s, step.c, step.manifestId, step.approval, step.site);
      LeftPrepared(s, step) <==> r.log != [] && r.state == s
  {
    var matches := Matching(s.order, s.archives, step.manifestId);
    if |matches| == 1 && Lifecycle.Eligible(s, matches[0]) {
      A.GatesOpen(step.c, step.manifestId, matches[0], step.site.world);
      SetStatusMoves(s, matches[0], Applied);
      SetStatusMoves(s, matches[0], ApplyFailed);
    }
  }

  lemma SetStatusMoves(s: AgentState, h: string, status: Status)
    requires h in s.archives && s.archives[h].status != status
    ensures SetStatus(s, h, status) != s
  {
    assert SetStatus(s, h, status).archives[h].status == status;
  }

  lemma OnceSurvivesClimb(s: System, t: AgentState)
    requires Once(s) && Climbs(s.state, t)
    ensures Once(System(t, s.log))
  {
  }

  /** A log extension whose entered archive was PREPARED before and is not afterwards. */
  lemma OnceExtends(s: System, log: seq<LogEvent>, t: AgentState, h: string)
    requires Once(s) && Climbs(s.state, t) && LogOf(log, h)
    requires log != [] ==> h in s.state.archives && s.state.archives[h].status == Prepared
    requires log != [] ==> h in t.archives && t.archives[h].status != Prepared
    ensures Once(System(t, s.log + log))
  {
    OnceSurvivesClimb(s, t);
    LogOfFacts(log, h);
    forall g ensures Entries(s.log + log, g) <= 1
      ensures 1 <= Entries(s.log + log, g) ==> g in t.archives && t.archives[g].status != Prepared
    {
      EntriesAppend(s.log, log, g);
    }
  }

  lemma SettleClimbs(s: AgentState, r: ApplyResult, h: string, last: Notice)
    requires Inv(s) && Inv(r.state) && Climbs(s, r.state)
    requires h in r.state.archives && r.state.archives[h].status != ContentDuplicate
    ensures
      var t := Settle(r, h, last);
      && Inv(t) && Climbs(s, t)
      && (r.outcome.None? || r.state.archives[h].status != Prepared ==> t.archives[h].status != Prepared)
  {
    var marked := if r.outcome.Some? then r.state else SetStatus(r.state, h, ReviewRequired);
    ClimbsReflexive(r.state);
    SetStatusClimbs(r.state, h, ReviewRequired);
    ClimbsTransitive(s, r.state, marked);
    NotifyClimbs(marked, h, last);
    ClimbsTransitive(s, marked, Settle(r, h, last));
  }

  lemma UnsavedHasNoOutcome(s: AgentState, c: A.Config, manifestId: string, approval: Option<string>, site: Site, h: string)
    requires Inv(s) && h in s.archives && Matching(s.order, s.archives, manifestId) == [h]
    requires ApplyManifest(s, c, manifestId, approval, site).outcome.Some?
    ensures ApplyManifest(s, c, manifestId, approval, site).state.archives[h].status != Prepared
  {
  }

  /** Running an apply for archive `h` and settling it in the exception handler. */
  lemma SettledApply(s: AgentState, c: A.Config, manifestId: string, approval: Option<string>, secrets: bool, site: Site,
                     h: string, last: Notice)
    requires Inv(s) && h in s.archives && s.archives[h].manifestId == Some(manifestId)
    ensures
      var r := Guarded(s, c, manifestId, approval, secrets, site);
      var t := Settle(r, h, last);
      && Inv(t) && Climbs(s, t) && LogOf(r.log, h)
      && (r.log != [] ==> s.archives[h].status == Prepared && t.archives[h].status != Prepared)
  {
    ClimbsReflexive(s);
    MatchingFacts(s.order, s.archives, manifestId);
    assert h in Matching(s.order, s.archives, manifestId);
    var r := Guarded(s, c, manifestId, approval, secrets, site);
    if secrets {
      var g := ApplyFacts(s, c, manifestId, approval, site);
      if r.log != [] {
        assert g == h;
        if r.outcome.Some? {
          UnsavedHasNoOutcome(s, c, manifestId, approval, site, h);
        }
      }
    }
    assert Later(s.archives[h], r.state.archives[h]);
    SettleClimbs(s, r, h, last);
  }

  lemma ReadyKeepsOnce(s: System, c: A.Config, h: string, manifestId: string, first: Notice, secrets: bool, site: Site,
                       last: Notice)
    requires Inv(s.state) && Once(s)
    requires h in s.state.archives && s.state.archives[h].manifestId == Some(manifestId)
    ensures
      var t := ReadyStep(s, c, h, manifestId, first, secrets, site, last);
      Inv(t.state) && Once(t) && Climbs(s.state, t.state)
  {
    var notified := Notify(s.state, h, first);
    NotifyClimbs(s.state, h, first);
    OnceSurvivesClimb(s, notified);
    if c.mode == A.Unattended {
      var r := Guarded(notified, c, manifestId, None, secrets, site);
      SettledApply(notified, c, manifestId, None, secrets, site, h, last);
      OnceExtends(System(notified, s.log), r.log, Settle(r, h, last), h);
      ClimbsTransitive(s.state, notified, Settle(r, h, last));
    }
  }

  lemma RetryClimbs(s: AgentState, h: string, n: Notice)
    requires Inv(s)
    ensures Inv(Retry(s, h, n)) && Climbs(s, Retry(s, h, n))
  {
  }

  lemma AfterMonitorKeepsOnce(s: System, c: A.Config, result: MonitorResult, first: Notice, secrets: bool, site: Site,
                              last: Notice)
    requires Inv(s.state) && Once(s)
    requires result.Ready? ==> result.hash in s.state.archives
                               && s.state.archives[result.hash].manifestId == Some(result.manifestId)
    ensures
      var t := AfterMonitor(s, c, result, first, secrets, site, last);
      Inv(t.state) && Once(t) && Climbs(s.state, t.state)
  {
    ClimbsReflexive(s.state);
    if result.NoChange? {
      RetryClimbs(s.state, result.hash, first);
      OnceSurvivesClimb(s, Retry(s.state, result.hash, first));
    } else if result.Ready? {
      ReadyKeepsOnce(s, c, result.hash, result.manifestId, first, secrets, site, last);
    }
  }

  lemma CycleKeepsOnce(s: System, c: A.Config, cat: Catalog, src: Source, first: Notice, secrets: bool, site: Site,
                       last: Notice)
    requires Inv(s.state) && Once(s)
    ensures
      var t := CycleStep(s, c, cat, src, first, secrets, site, last);
      Inv(t.state) && Once(t) && Climbs(s.state, t.state)
  {
    var (state, result) := MonitorSpec(s.state, c, cat, src, false);
    MonitorClimbs(s.state, c, cat, src, false);
    OnceSurvivesClimb(s, state);
    AfterMonitorKeepsOnce(System(state, s.log), c, result, first, secrets, site, last);
    ClimbsTransitive(s.state, state, AfterMonitor(System(state, s.log), c, result, first, secrets, site, last).state);
  }

  lemma MatchingAfterApply(s: AgentState, c: A.Config, manifestId: string, approval: Option<string>, secrets: bool, site: Site)
    requires Inv(s)
    ensures
      var r := Guarded(s, c, manifestId, approval, secrets, site);
      var matches := Matching(s.order, s.archives, manifestId);
      && Matching(r.state.order, r.state.archives, manifestId) == matches
      && (matches == [] ==> r == ApplyResult(s, [], None))
      && (matches != [] ==> matches[0] in s.archives && s.archives[matches[0]].manifestId == Some(manifestId))
  {
    var matches := Matching(s.order, s.archives, manifestId);
    MatchingFacts(s.order, s.archives, manifestId);
    assert matches != [] ==> matches[0] in matches;
    if secrets {
      var h := ApplyFacts(s, c, manifestId, approval, site);
      var r := ApplyManifest(s, c, manifestId, approval, site);
      assert forall g | g in s.archives :: Later(s.archives[g], r.state.archives[g]);
      MatchingIgnoresStatus(s.order, s.archives, r.state.archives, manifestId);
    }
  }

  lemma ApprovalKeepsOnce(s: System, cat: Catalog, step: Step)
    requires Inv(s.state) && Once(s) && step.Approval?
    ensures
      var t := Perform(s, cat, step);
      Inv(t.state) && Once(t) && Climbs(s.state, t.state)
  {
    ClimbsReflexive(s.state);
    if step.c.mode == A.ApprovalMode {
      var m := step.manifestId;
      var r := Guarded(s.state, step.c, m, Some(m), step.secrets, step.site);
      MatchingAfterApply(s.state, step.c, m, Some(m), step.secrets, step.site);
      var matches := Matching(s.state.order, s.state.archives, m);
      if matches != [] {
        SettledApply(s.state, step.c, m, Some(m), step.secrets, step.site, matches[0], step.last);
        OnceExtends(s, r.log, Settle(r, matches[0], step.last), matches[0]);
      } else {
        assert s.log + [] == s.log;
      }
    }
  }

  lemma DirectKeepsOnce(s: System, cat: Catalog, step: Step)
    requires Inv(s.state) && Once(s) && step.DirectApply?
    ensures
      var t := Perform(s, cat, step);
      Inv(t.state) && Climbs(s.state, t.state) && (Once(t) <==> !LeftPrepared(s.state, step))
  {
    var r := ApplyManifest(s.state, step.c, step.manifestId, step.approval, step.site);
    var h := ApplyFacts(s.state, step.c, step.manifestId, step.approval, step.site);
    LeftPreparedMeans(s.state, step);
    if r.log == [] {
      assert s.log + r.log == s.log;
    } else if r.state != s.state {
      OnceExtends(s, r.log, r.state, h);
    } else {
      LogOfFacts(r.log, h);
      EntriesAppend(s.log, r.log, h);
      assert 1 <= Entries(s.log + r.log, h) && r.state.archives[h].status == Prepared;
    }
  }

  /** One step keeps the at-most-once invariant exactly when it is not a direct apply that was
      interrupted in the loop. */
  lemma StepKeepsOnce(s: System, cat: Catalog, step: Step)
    requires Inv(s.state) && Once(s)
    ensures
      var t := Perform(s, cat, step);
      Inv(t.state) && Climbs(s.state, t.state) && (Once(t) <==> !LeftPrepared(s.state, step))
  {
    match step
    case Monitor(c, src, dryRun) =>
      MonitorClimbs(s.state, c, cat, src, dryRun);
      OnceSurvivesClimb(s, Perform(s, cat, step).state);
    case Cycle(c, src, first, secrets, site, last) => CycleKeepsOnce(s, c, cat, src, first, secrets, site, last);
    case Approval(_, _, _, _, _) => ApprovalKeepsOnce(s, cat, step);
    case DirectApply(_, _, _, _) => DirectKeepsOnce(s, cat, step);
  }

  // ---- Whole runs ----

  /** No direct apply of the run was interrupted inside the loop. */
  predicate Orderly(s: System, cat: Catalog, steps: seq<Step>)
    decreases |steps|
  {
    steps == [] || (!LeftPrepared(s.state, steps[0]) && Orderly(Perform(s, cat, steps[0]), cat, steps[1..]))
  }

  lemma {:induction false} RunKeepsOnce(s: System, cat: Catalog, steps: seq<Step>)
    requires Inv(s.state) && Once(s) && Orderly(s, cat, steps)
    ensures
      var t := Run(s, cat, steps);
      Inv(t.state) && Once(t) && Climbs(s.state, t.state)
    decreases |steps|
  {
    ClimbsReflexive(s.state);
    if steps != [] {
      var next := Perform(s, cat, steps[0]);
      StepKeepsOnce(s, cat, steps[0]);
      RunKeepsOnce(next, cat, steps[1..]);
      ClimbsTransitive(s.state, next.state, Run(next, cat, steps[1..]).state);
    }
  }

  /** From an empty state file, with arbitrary devices, failures and configurations: each archive
      enters the restore loop at most once, and each package kind at most once in it. */
  lemma AtMostOnceApply(cat: Catalog, steps: seq<Step>, h: string)
    requires Orderly(EMPTY, cat, steps)
    ensures Entries(Run(EMPTY, cat, steps).log, h) <= 1
    ensures
      var log := Run(EMPTY, cat, steps).log;
      forall i, x, y | 0 <= i < |log| && log[i].LoopEntered? && 0 <= x < y < |log[i].sent| ::
        log[i].sent[x].kind != log[i].sent[y].kind
  {
    RunKeepsOnce(EMPTY, cat, steps);
  }

  /** Cycles, approvals and monitor runs are always orderly. */
  lemma {:induction false} WithoutDirectApplyOrderly(s: System, cat: Catalog, steps: seq<Step>)
    requires forall i | 0 <= i < |steps| :: !steps[i].DirectApply?
    ensures Orderly(s, cat, steps)
    decreases |steps|
  {
    if steps != [] {
      WithoutDirectApplyOrderly(Perform(s, cat, steps[0]), cat, steps[1..]);
    }
  }

  /** The state part of a step does not depend on the history, so climbing needs no hypothesis on it. */
  lemma StepClimbs(s: System, cat: Catalog, step: Step)
    requires Inv(s.state)
    ensures Inv(Perform(s, cat, step).state) && Climbs(s.state, Perform(s, cat, step).state)
  {
    var blank := System(s.state, []);
    assert Once(blank);
    StepKeepsOnce(blank, cat, step);
    assert Perform(blank, cat, step).state == Perform(s, cat, step).state;
  }

  lemma {:induction false} RunClimbs(s: System, cat: Catalog, steps: seq<Step>)
    requires Inv(s.state)
    ensures Inv(Run(s, cat, steps).state) && Climbs(s.state, Run(s, cat, steps).state)
    decreases |steps|
  {
    ClimbsReflexive(s.state);
    if steps != [] {
      var next := Perform(s, cat, steps[0]);
      StepClimbs(s, cat, steps[0]);
      RunClimbs(next, cat, steps[1..]);
      ClimbsTransitive(s.state, next.state, Run(next, cat, steps[1..]).state);
    }
  }

  /** Between any two points of any run every entry only climbs: nothing returns to PREPARED,
      CONTENT_DUPLICATE and REVIEW_REQUIRED are final. */
  lemma LifecycleOnlyClimbs(cat: Catalog, earlier: seq<Step>, later: seq<Step>, h: string)
    ensures
      var s, t := Run(EMPTY, cat, earlier).state, Run(Run(EMPTY, cat, earlier), cat, later).state;
      h in s.archives ==>
        && h in t.archives && Later(s.archives[h], t.archives[h])
        && (t.archives[h].status == Prepared ==> s.archives[h].status == Prepared)
        && (s.archives[h].status == ContentDuplicate || s.archives[h].status == ReviewRequired ==>
              t.archives[h].status == s.archives[h].status)
  {
    RunClimbs(EMPTY, cat, earlier);
    RunClimbs(Run(EMPTY, cat, earlier), cat, later);
  }

  /** In approval mode an APPLIED or APPLY_FAILED entry keeps its status exactly when it is not the first
      match of the approved manifest id.  The first match goes to review, also when the id is ambiguous,
      and no device is touched. */
  lemma ApprovingTwiceDemotes(s: System, cat: Catalog, step: Step, h: string)
    requires Inv(s.state) && step.Approval? && step.c.mode == A.ApprovalMode
    requires h in s.state.archives && (s.state.archives[h].status == Applied || s.state.archives[h].status == ApplyFailed)
    ensures
      var t := Perform(s, cat, step);
      var matches := Matching(s.state.order, s.state.archives, step.manifestId);
      && h in t.state.archives
      && (t.state.archives[h].status == s.state.archives[h].status <==> matches == [] || matches[0] != h)
      && (matches != [] && matches[0] == h ==>
            && t.log == s.log
            && t.state.archives == s.state.archives[h := s.state.archives[h].(status := ReviewRequired, notice := step.last)])
  {
    var m := step.manifestId;
    var r := Guarded(s.state, step.c, m, Some(m), step.secrets, step.site);
    MatchingAfterApply(s.state, step.c, m, Some(m), step.secrets, step.site);
    var matches := Matching(s.state.order, s.state.archives, m);
    if matches != [] && matches[0] == h {
      NotEligibleIsRefused(s.state, step.c, m, Some(m), step.site);
      assert s.log + [] == s.log;
    } else {
      OthersKeepStatus(s.state, step.c, m, Some(m), step.site, h);
      if matches != [] {
        SettleKeepsOthers(r, matches[0], step.last, h);
      }
    }
  }

  lemma SettleKeepsOthers(r: ApplyResult, g: string, last: Notice, h: string)
    requires g != h && h in r.state.archives
    ensures h in Settle(r, g, last).archives && Settle(r, g, last).archives[h] == r.state.archives[h]
  {
  }

  lemma NotEligibleIsRefused(s: AgentState, c: A.Config, manifestId: string, approval: Option<string>, site: Site)
    requires
      var matches := Matching(s.order, s.archives, manifestId);
      matches != [] && !Lifecycle.Eligible(s, matches[0])
    ensures ApplyManifest(s, c, manifestId, approval, site) == ApplyResult(s, [], None)
  {
  }

  lemma OthersKeepStatus(s: AgentState, c: A.Config, manifestId: string, approval: Option<string>, site: Site, h: string)
    requires h in s.archives
    requires
      var matches := Matching(s.order, s.archives, manifestId);
      matches == [] || matches[0] != h
    ensures
      var r := ApplyManifest(s, c, manifestId, approval, site);
      h in r.state.archives && r.state.archives[h] == s.archives[h]
  {
  }

  // ---- The direct apply command ----

  const SAMPLE_ITEM := A.Item("AV", "av.pkg", "00", "av", ["Virus Definitions"], true)

  const SAMPLE_CONFIG := A.Config(A.Unattended, true, true, ["AV"], true, true, false, true, ["AV"])

  /** Everything is in order until the restore command raises. */
  const BROKEN_LINE :=
    A.World(Some(A.Manifest("M", "A", [SAMPLE_ITEM])), map["av.pkg" := "00"], Some(A.Preflight(true, map[])), true,
            map["av.pkg" := "00"], true, true, None, true, [], true, true, None, true)

  const SAMPLE_CATALOG := Catalog((h: string) => Bundle("M", [SAMPLE_ITEM]), (text: string) => text)

  const PREPARE := Monitor(SAMPLE_CONFIG, Source(Some("A"), true, true, {}), false)

  const BROKEN_APPLY := DirectApply(SAMPLE_CONFIG, "M", None, Site(BROKEN_LINE, true))

  lemma SamplePlan()
    ensures Planned([SAMPLE_ITEM], ["AV"]) == ["AV"] && KindSet(["AV"]) == {"AV"}
    ensures P.Fingerprint([SAMPLE_ITEM], {"AV"}, SAMPLE_CATALOG.digest).Some?
  {
    var items := [SAMPLE_ITEM];
    assert items[1..] == [];
    assert Planned(items, ["AV"]) == ["AV"] + Planned(items[1..], ["AV"]) == ["AV"];
    assert P.Pairs(items, {"AV"}) == [("AV", "00")] + P.Pairs(items[1..], {"AV"}) == [("AV", "00")];
    assert P.Names([("AV", "00")]) == {"AV"};
  }

  /** What the monitor prepares from an empty state. */
  lemma SamplePrepared()
    ensures
      var s := Run(EMPTY, SAMPLE_CATALOG, [PREPARE]);
      && s.log == [] && s.state.order == ["A"] && s.state.archives.Keys == {"A"}
      && s.state.archives["A"].status == Prepared && s.state.archives["A"].manifestId == Some("M")
      && s.state.archives["A"].hasWorkDir
  {
    SamplePlan();
    assert [PREPARE][1..] == [];
    assert Run(EMPTY, SAMPLE_CATALOG, [PREPARE]) == Perform(EMPTY, SAMPLE_CATALOG, PREPARE);
    assert Buildable(SAMPLE_CONFIG, SAMPLE_CATALOG.bundle("A"), PREPARE.src, SAMPLE_CATALOG);
  }

  /** One interrupted direct apply of the prepared sample. */
  lemma SampleBreaks(s: System)
    requires s.state.order == ["A"] && s.state.archives.Keys == {"A"}
    requires s.state.archives["A"].status == Prepared && s.state.archives["A"].manifestId == Some("M")
    requires s.state.archives["A"].hasWorkDir
    ensures LeftPrepared(s.state, BROKEN_APPLY)
    ensures
      var t := Perform(s, SAMPLE_CATALOG, BROKEN_APPLY);
      t.state == s.state && Entries(t.log, "A") == Entries(s.log, "A") + 1
  {
    assert Matching(["A"], s.state.archives, "M") == ["A"] + Matching([], s.state.archives, "M") == ["A"];
    SampleRun();
    A.GatesOpen(SAMPLE_CONFIG, "M", "A", BROKEN_LINE);
    var r := ApplyManifest(s.state, SAMPLE_CONFIG, "M", None, Site(BROKEN_LINE, true));
    assert r.state == s.state && |r.log| == 1 && r.log[0].LoopEntered? && r.log[0].hash == "A";
    EntriesAppend(s.log, r.log, "A");
    assert r.log[1..] == [];
  }

  /** The `apply` command has no exception handler: interrupted in the loop it leaves PREPARED, and a
      second `apply` enters the loop for the same archive again. */
  lemma DirectApplyCanReplay()
    ensures Entries(Run(EMPTY, SAMPLE_CATALOG, [PREPARE, BROKEN_APPLY, BROKEN_APPLY]).log, "A") == 2
    ensures !Orderly(EMPTY, SAMPLE_CATALOG, [PREPARE, BROKEN_APPLY, BROKEN_APPLY])
  {
    var steps := [PREPARE, BROKEN_APPLY, BROKEN_APPLY];
    SamplePrepared();
    var s := Perform(EMPTY, SAMPLE_CATALOG, PREPARE);
    assert [PREPARE][1..] == [] && Run(EMPTY, SAMPLE_CATALOG, [PREPARE]) == s;
    SampleBreaks(s);
    var t := Perform(s, SAMPLE_CATALOG, BROKEN_APPLY);
    SampleBreaks(t);
    assert steps[1..] == [BROKEN_APPLY, BROKEN_APPLY] && steps[1..][1..] == [BROKEN_APPLY];
    assert Run(EMPTY, SAMPLE_CATALOG, steps) == Run(s, SAMPLE_CATALOG, [BROKEN_APPLY, BROKEN_APPLY])
        == Run(t, SAMPLE_CATALOG, [BROKEN_APPLY]);
    assert [BROKEN_APPLY][1..] == [];
    assert Entries([], "A") == 0;
    assert !Orderly(s, SAMPLE_CATALOG, steps[1..]);
  }

  lemma SampleRun()
    ensures A.Gates(SAMPLE_CONFIG, "M", "A", BROKEN_LINE).1
    ensures A.Cleared(SAMPLE_CONFIG, "M", "A", BROKEN_LINE)
    ensures A.Ending(SAMPLE_CONFIG, A.LoopOf(SAMPLE_CONFIG, BROKEN_LINE), BROKEN_LINE).1.None?
    ensures A.ApplySpec(SAMPLE_CONFIG, "M", "A", BROKEN_LINE).outcome == None
  {
    var items := [SAMPLE_ITEM];
    assert A.EligibleItems(SAMPLE_CONFIG, items) == [SAMPLE_ITEM] + A.EligibleItems(SAMPLE_CONFIG, items[1..]);
    assert A.EligibleItems(SAMPLE_CONFIG, items) == [SAMPLE_ITEM];
    assert items[1..] == [];
    assert A.SortByRank(["AV"], items) == A.InsertByRank(["AV"], SAMPLE_ITEM, A.SortByRank(["AV"], items[1..])) == items;
    assert A.Selected(SAMPLE_CONFIG, BROKEN_LINE.manifestFile.value) == items;
    assert A.Cleared(SAMPLE_CONFIG, "M", "A", BROKEN_LINE);
    A.GatesFacts(SAMPLE_CONFIG, "M", "A", BROKEN_LINE);
  }
}
