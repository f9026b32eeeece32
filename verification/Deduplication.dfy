/** Payload deduplication over whole runs: what a CONTENT_DUPLICATE entry stands for
    (docs/payload-deduplication.md; src/fgops/agent_orchestrator.py, lines 111-172 and 281-317). */
module Deduplication {
  import opened Wrappers
  import opened Lifecycle
  import opened LifecycleRuns
  import E = AppliedEvidence
  import A = ControlledApply
  import P = Payload

  // ---- Insertion order ----

  function Position(order: seq<string>, h: string): nat {
    if order == [] || order[0] == h then 0 else 1 + Position(order[1..], h)
  }

  lemma {:induction false} PositionFacts(order: seq<string>, h: string, more: seq<string>)
    ensures h in order ==> Position(order, h) < |order| && Position(order + more, h) == Position(order, h)
    ensures h !in order ==> Position(order, h) == |order|
    ensures h !in order && more != [] && more[0] == h ==> Position(order + more, h) == |order|
  {
    if order == [] {
      assert order + more == more;
    } else {
      assert (order + more)[0] == order[0] && (order + more)[1..] == order[1..] + more;
      PositionFacts(order[1..], h, more);
    }
  }

  // ---- The invariant ----

  /** A recorded fingerprint is the fingerprint of the archive's packages over the recorded kinds. */
  predicate Truthful(h: string, e: Entry, cat: Catalog) {
    e.payloadSha.Some? ==>
      e.payloadKinds.Some?
      && e.payloadSha == P.Fingerprint(cat.bundle(h).packages, e.payloadKinds.value, cat.digest)
  }

  /** The original of a duplicate may only be in one of these states. */
  predicate Original(s: Status) {
    s == Applied || s == ReviewRequired || s == ContentDuplicate
  }

  /** A duplicate points to an older entry with the same payload, which is itself a duplicate over the
      same kinds or was applied. */
  predicate Linked(s: System, h: string, cat: Catalog, enabled: seq<string>)
    requires h in s.state.archives
  {
    var e := s.state.archives[h];
    && e.duplicateOf.Some? && e.payloadSha.Some? && e.payloadKinds.Some? && !e.hasWorkDir
    && (forall k | k in e.payloadKinds.value :: k in enabled && k != "UNKNOWN")
    && var g := e.duplicateOf.value;
    && g in s.state.archives
    && Position(s.state.order, g) < Position(s.state.order, h)
    && Original(s.state.archives[g].status)
    && P.Fingerprint(cat.bundle(g).packages, e.payloadKinds.value, cat.digest) == e.payloadSha
    && (s.state.archives[g].status == ContentDuplicate ==> s.state.archives[g].payloadKinds == e.payloadKinds)
    && (s.state.archives[g].status != ContentDuplicate ==> BecameApplied(g) in s.log)
  }

  ghost predicate Sound(s: System, cat: Catalog, enabled: seq<string>) {
    && Inv(s.state)
    && (forall h | h in s.state.archives :: Truthful(h, s.state.archives[h], cat))
    && (forall h | h in s.state.archives && s.state.archives[h].status == Applied :: BecameApplied(h) in s.log)
    && (forall h | h in s.state.archives && s.state.archives[h].status == ContentDuplicate :: Linked(s, h, cat, enabled))
  }

  // ---- Steps that only change statuses and notifications ----

  predicate StatusOnly(s: AgentState, t: AgentState) {
    && s.order == t.order && s.archives.Keys == t.archives.Keys
    && (forall h | h in s.archives ::
          t.archives[h] == s.archives[h].(status := t.archives[h].status, notice := t.archives[h].notice))
  }

  lemma SetIsStatusOnly(s: AgentState, h: string, status: Status)
    ensures StatusOnly(s, SetStatus(s, h, status))
  {
  }

  lemma NotifyIsStatusOnly(s: AgentState, h: string, n: Notice)
    ensures StatusOnly(s, Notify(s, h, n))
  {
  }

  predicate AppliedLogged(s: System) {
    forall h | h in s.state.archives && s.state.archives[h].status == Applied :: BecameApplied(h) in s.log
  }

  lemma LinkSurvives(s: System, t: System, h: string, cat: Catalog, enabled: seq<string>)
    requires h in s.state.archives && Linked(s, h, cat, enabled)
    requires Climbs(s.state, t.state) && StatusOnly(s.state, t.state) && s.log <= t.log
    requires forall g | g in s.state.archives && t.state.archives[g].status == ContentDuplicate ::
               s.state.archives[g].status == ContentDuplicate
    ensures h in t.state.archives && Linked(t, h, cat, enabled)
  {
  }

  lemma StatusChangeKeepsSound(s: System, t: System, cat: Catalog, enabled: seq<string>)
    requires Sound(s, cat, enabled) && Inv(t.state) && Climbs(s.state, t.state) && StatusOnly(s.state, t.state)
    requires s.log <= t.log && AppliedLogged(t)
    ensures Sound(t, cat, enabled)
  {
    NoNewDuplicates(s.state, t.state);
    forall h | h in t.state.archives && t.state.archives[h].status == ContentDuplicate
      ensures Linked(t, h, cat, enabled)
    {
      LinkSurvives(s, t, h, cat, enabled);
    }
    forall h | h in t.state.archives ensures Truthful(h, t.state.archives[h], cat) {
      assert Truthful(h, s.state.archives[h], cat);
    }
  }

  lemma ApplyIsStatusOnly(s: System, c: A.Config, manifestId: string, approval: Option<string>, secrets: bool, site: Site)
    requires Inv(s.state) && AppliedLogged(s)
    ensures
      var r := Guarded(s.state, c, manifestId, approval, secrets, site);
      && StatusOnly(s.state, r.state)
      && AppliedLogged(System(r.state, s.log + r.log))
  {
    var r := Guarded(s.state, c, manifestId, approval, secrets, site);
    if secrets {
      var h := ApplyFacts(s.state, c, manifestId, approval, site);
      ApplyStateIsSet(s.state, c, manifestId, approval, site);
    }
  }

  lemma ApplyStateIsSet(s: AgentState, c: A.Config, manifestId: string, approval: Option<string>, site: Site)
    ensures StatusOnly(s, ApplyManifest(s, c, manifestId, approval, site).state)
  {
    var matches := Matching(s.order, s.archives, manifestId);
    if |matches| == 1 {
      var h := matches[0];
      ConcludeIsStatusOnly(s, h, A.Gates(c, manifestId, h, site.world).1, A.ApplySpec(c, manifestId, h, site.world),
                           site.cleanupWorks);
    }
  }

  lemma ConcludeIsStatusOnly(s: AgentState, h: string, entered: bool, run: A.ApplyRun, cleanupWorks: bool)
    ensures StatusOnly(s, Conclude(s, h, entered, run, cleanupWorks).state)
  {
    SetIsStatusOnly(s, h, ApplyFailed);
    SetIsStatusOnly(s, h, Applied);
  }

  lemma StatusOnlyTransitive(s: AgentState, t: AgentState, u: AgentState)
    requires StatusOnly(s, t) && StatusOnly(t, u)
    ensures StatusOnly(s, u)
  {
  }

  lemma SettleIsStatusOnly(s: System, r: ApplyResult, h: string, last: Notice)
    requires StatusOnly(s.state, r.state) && AppliedLogged(System(r.state, s.log + r.log))
    ensures StatusOnly(s.state, Settle(r, h, last)) && AppliedLogged(System(Settle(r, h, last), s.log + r.log))
  {
    var marked := if r.outcome.Some? then r.state else SetStatus(r.state, h, ReviewRequired);
    SetIsStatusOnly(r.state, h, ReviewRequired);
    StatusOnlyTransitive(s.state, r.state, marked);
    MarkKeepsLogged(r.state, h, s.log + r.log);
    NotifyKeepsLogged(marked, h, last, s.log + r.log);
    NotifyIsStatusOnly(marked, h, last);
    StatusOnlyTransitive(s.state, marked, Settle(r, h, last));
  }

  lemma MarkKeepsLogged(s: AgentState, h: string, log: seq<LogEvent>)
    requires AppliedLogged(System(s, log))
    ensures AppliedLogged(System(SetStatus(s, h, ReviewRequired), log))
  {
  }

  lemma NotifyKeepsLogged(s: AgentState, h: string, n: Notice, log: seq<LogEvent>)
    requires AppliedLogged(System(s, log))
    ensures AppliedLogged(System(Notify(s, h, n), log))
  {
  }

  lemma ReadyIsStatusOnly(s: System, c: A.Config, h: string, manifestId: string, first: Notice, secrets: bool, site: Site,
                          last: Notice)
    requires Inv(s.state) && AppliedLogged(s)
    ensures
      var t := ReadyStep(s, c, h, manifestId, first, secrets, site, last);
      StatusOnly(s.state, t.state) && AppliedLogged(t) && s.log <= t.log
  {
    var notified := System(Notify(s.state, h, first), s.log);
    NotifyClimbs(s.state, h, first);
    NotifyIsStatusOnly(s.state, h, first);
    NotifyKeepsLogged(s.state, h, first, s.log);
    if c.mode == A.Unattended {
      var r := Guarded(notified.state, c, manifestId, None, secrets, site);
      ApplyIsStatusOnly(notified, c, manifestId, None, secrets, site);
      SettleIsStatusOnly(notified, r, h, last);
      StatusOnlyTransitive(s.state, notified.state, Settle(r, h, last));
    }
  }

  lemma AfterMonitorIsStatusOnly(s: System, c: A.Config, result: MonitorResult, first: Notice, secrets: bool, site: Site,
                                 last: Notice)
    requires Inv(s.state) && AppliedLogged(s)
    ensures
      var t := AfterMonitor(s, c, result, first, secrets, site, last);
      StatusOnly(s.state, t.state) && AppliedLogged(t) && s.log <= t.log
  {
    if result.NoChange? {
      NotifyIsStatusOnly(s.state, result.hash, first);
      NotifyKeepsLogged(s.state, result.hash, first, s.log);
    } else if result.Ready? {
      ReadyIsStatusOnly(s, c, result.hash, result.manifestId, first, secrets, site, last);
    }
  }

  lemma ApprovalIsStatusOnly(s: System, c: A.Config, manifestId: string, secrets: bool, site: Site, last: Notice)
    requires Inv(s.state) && AppliedLogged(s)
    ensures
      var t := ApprovalStep(s, c, manifestId, secrets, site, last);
      StatusOnly(s.state, t.state) && AppliedLogged(t) && s.log <= t.log
  {
    if c.mode == A.ApprovalMode {
      var r := Guarded(s.state, c, manifestId, Some(manifestId), secrets, site);
      ApplyIsStatusOnly(s, c, manifestId, Some(manifestId), secrets, site);
      var matches := Matching(r.state.order, r.state.archives, manifestId);
      if matches != [] {
        SettleIsStatusOnly(s, r, matches[0], last);
      }
    }
  }

  // ---- The scan and the new entry ----

  lemma FingerprintKinds(items: seq<A.Item>, kinds: set<string>, digest: string -> string)
    requires P.Fingerprint(items, kinds, digest).Some?
    ensures kinds != {}
  {
  }

  /** A candidate fingerprint is the archive's own fingerprint over the asked kinds. */
  lemma CandidateIsTrue(h: string, e: Entry, kinds: set<string>, cat: Catalog, readable: set<string>)
    requires Truthful(h, e, cat)
    ensures
      var candidate := EntryPayload(h, e, kinds, cat, readable);
      && (candidate.Some? ==> candidate == P.Fingerprint(cat.bundle(h).packages, kinds, cat.digest))
      && (candidate.Some? && !e.hasWorkDir ==> e.payloadKinds == Some(kinds) && e.payloadSha == candidate)
  {
  }

  lemma RememberKeepsSound(s: System, cat: Catalog, enabled: seq<string>, h: string, kinds: set<string>, readable: set<string>)
    requires Sound(s, cat, enabled) && h in s.state.archives
    ensures
      var candidate := EntryPayload(h, s.state.archives[h], kinds, cat, readable);
      Sound(System(s.state.(archives := Remember(s.state.archives, h, candidate, kinds)), s.log), cat, enabled)
  {
    var e := s.state.archives[h];
    var candidate := EntryPayload(h, e, kinds, cat, readable);
    CandidateIsTrue(h, e, kinds, cat, readable);
    var archives := Remember(s.state.archives, h, candidate, kinds);
    var t := System(s.state.(archives := archives), s.log);
    if e.status == ContentDuplicate {
      assert Linked(s, h, cat, enabled);
      assert archives == s.state.archives;
      assert t == s;
    } else {
      forall d | d in archives && archives[d].status == ContentDuplicate ensures Linked(t, d, cat, enabled) {
        assert Linked(s, d, cat, enabled);
      }
    }
  }

  /** The scan keeps the invariant and only finds entries with the asked payload. */
  lemma {:induction false} FindKeepsSound(s: System, cat: Catalog, enabled: seq<string>, order: seq<string>, sha: string,
                                          kinds: set<string>, exclude: string, readable: set<string>)
    requires Sound(s, cat, enabled)
    ensures
      var (archives, found) := FindPayload(order, s.state.archives, sha, kinds, exclude, cat, readable);
      && Sound(System(s.state.(archives := archives), s.log), cat, enabled)
      && (found.Some? ==>
            && found.value in archives
            && P.Fingerprint(cat.bundle(found.value).packages, kinds, cat.digest) == Some(sha)
            && (archives[found.value].status == Applied || archives[found.value].status == ContentDuplicate)
            && (archives[found.value].status == ContentDuplicate ==> archives[found.value].payloadKinds == Some(kinds)))
    decreases |order|
  {
    if order != [] {
      var h := order[0];
      if IsCandidate(s.state.archives, h, exclude) {
        var candidate := EntryPayload(h, s.state.archives[h], kinds, cat, readable);
        var updated := Remember(s.state.archives, h, candidate, kinds);
        RememberKeepsSound(s, cat, enabled, h, kinds, readable);
        CandidateIsTrue(h, s.state.archives[h], kinds, cat, readable);
        FindKeepsSound(System(s.state.(archives := updated), s.log), cat, enabled, order[1..], sha, kinds, exclude, readable);
        if candidate == Some(sha) {
          assert s.state.archives[h].status == ContentDuplicate ==> Linked(s, h, cat, enabled);
        }
      } else {
        FindKeepsSound(s, cat, enabled, order[1..], sha, kinds, exclude, readable);
        assert s.state.(archives := s.state.archives) == s.state;
      }
    } else {
      assert s.state.(archives := s.state.archives) == s.state;
    }
  }

  lemma {:induction false} PlannedFacts(items: seq<A.Item>, enabled: seq<string>)
    ensures forall k :: k in Planned(items, enabled) <==>
              k != "UNKNOWN" && k in enabled && exists i :: i in items && i.kind == k
  {
    if items != [] {
      PlannedFacts(items[1..], enabled);
      assert items == [items[0]] + items[1..];
    }
  }

  lemma PutKeepsSound(s: System, cat: Catalog, enabled: seq<string>, h: string, e: Entry)
    requires Sound(s, cat, enabled) && h !in s.state.archives
    requires Known(e.status) && e.status != Applied && Truthful(h, e, cat)
    requires e.status == ContentDuplicate ==> e.manifestId == None && Linked(System(Put(s.state, h, e), s.log), h, cat, enabled)
    ensures Sound(System(Put(s.state, h, e), s.log), cat, enabled)
  {
    var t := System(Put(s.state, h, e), s.log);
    forall d | d in t.state.archives && t.state.archives[d].status == ContentDuplicate
      ensures Linked(t, d, cat, enabled)
    {
      if d != h {
        assert Linked(s, d, cat, enabled);
        PositionFacts(s.state.order, d, [h]);
        PositionFacts(s.state.order, s.state.archives[d].duplicateOf.value, [h]);
      }
    }
  }

  lemma NewDuplicateIsLinked(s: System, cat: Catalog, enabled: seq<string>, h: string, planned: seq<string>, sha: string,
                             g: string)
    requires Sound(s, cat, enabled) && h !in s.state.archives && g in s.state.archives
    requires forall k | k in planned :: k in enabled && k != "UNKNOWN"
    requires P.Fingerprint(cat.bundle(g).packages, KindSet(planned), cat.digest) == Some(sha)
    requires s.state.archives[g].status == Applied || s.state.archives[g].status == ContentDuplicate
    requires s.state.archives[g].status == ContentDuplicate ==> s.state.archives[g].payloadKinds == Some(KindSet(planned))
    ensures Linked(System(Put(s.state, h, DuplicateEntry(planned, sha, g)), s.log), h, cat, enabled)
  {
    PositionFacts(s.state.order, h, [h]);
    PositionFacts(s.state.order, g, [h]);
  }

  lemma PrepareKeepsSound(s: System, c: A.Config, cat: Catalog, src: Source, h: string)
    requires Sound(s, cat, c.enabled) && h !in s.state.archives
    ensures Sound(System(Prepare(s.state, c, cat, src, h).0, s.log), cat, c.enabled)
  {
    var b := cat.bundle(h);
    if Buildable(c, b, src, cat) {
      var planned := Planned(b.packages, c.enabled);
      var kinds := KindSet(planned);
      var sha := P.Fingerprint(b.packages, kinds, cat.digest).value;
      PlannedFacts(b.packages, c.enabled);
      var (archives, duplicate) := FindPayload(s.state.order, s.state.archives, sha, kinds, h, cat, src.readable);
      FindKeepsSound(s, cat, c.enabled, s.state.order, sha, kinds, h, src.readable);
      FindFacts(s.state.order, s.state.archives, sha, kinds, h, cat, src.readable);
      var found := System(s.state.(archives := archives), s.log);
      if duplicate.Some? {
        NewDuplicateIsLinked(found, cat, c.enabled, h, planned, sha, duplicate.value);
        PutKeepsSound(found, cat, c.enabled, h, DuplicateEntry(planned, sha, duplicate.value));
      } else if src.planWritten {
        PutKeepsSound(found, cat, c.enabled, h, PreparedEntry(planned, sha, b.manifestId));
      }
    }
  }

  lemma MonitorKeepsSound(s: System, c: A.Config, cat: Catalog, src: Source, dryRun: bool)
    requires Sound(s, cat, c.enabled)
    ensures Sound(System(MonitorSpec(s.state, c, cat, src, dryRun).0, s.log), cat, c.enabled)
  {
    if src.archive.Some? && !Handled(s.state, src.archive.value) {
      UnhandledIsNew(s.state, src.archive.value);
      PrepareKeepsSound(s, c, cat, src, src.archive.value);
    } else {
      assert System(s.state, s.log) == s;
    }
  }

  // ---- Whole runs with a fixed enabled set ----

  lemma NoNewDuplicates(s: AgentState, t: AgentState)
    requires Climbs(s, t) && StatusOnly(s, t)
    ensures forall h | h in s.archives && t.archives[h].status == ContentDuplicate ::
              s.archives[h].status == ContentDuplicate
  {
  }

  lemma AfterMonitorKeepsSound(s: System, c: A.Config, cat: Catalog, result: MonitorResult, first: Notice, secrets: bool,
                               site: Site, last: Notice)
    requires Sound(s, cat, c.enabled)
    requires result.Ready? ==> result.hash in s.state.archives
                               && s.state.archives[result.hash].manifestId == Some(result.manifestId)
    ensures Sound(AfterMonitor(s, c, result, first, secrets, site, last), cat, c.enabled)
  {
    AfterMonitorIsStatusOnly(s, c, result, first, secrets, site, last);
    var blank := System(s.state, []);
    assert Once(blank);
    AfterMonitorKeepsOnce(blank, c, result, first, secrets, site, last);
    var t := AfterMonitor(s, c, result, first, secrets, site, last);
    assert t.state == AfterMonitor(blank, c, result, first, secrets, site, last).state;
    StatusChangeKeepsSound(s, t, cat, c.enabled);
  }

  lemma CycleKeepsSound(s: System, c: A.Config, cat: Catalog, src: Source, first: Notice, secrets: bool, site: Site,
                        last: Notice)
    requires Sound(s, cat, c.enabled)
    ensures Sound(CycleStep(s, c, cat, src, first, secrets, site, last), cat, c.enabled)
  {
    var (state, result) := MonitorSpec(s.state, c, cat, src, false);
    MonitorKeepsSound(s, c, cat, src, false);
    MonitorClimbs(s.state, c, cat, src, false);
    AfterMonitorKeepsSound(System(state, s.log), c, cat, result, first, secrets, site, last);
  }

  lemma StepKeepsSound(s: System, cat: Catalog, step: Step)
    requires Sound(s, cat, step.c.enabled)
    ensures Sound(Perform(s, cat, step), cat, step.c.enabled)
  {
    match step
    case Monitor(c, src, dryRun) =>
      MonitorKeepsSound(s, c, cat, src, dryRun);
    case Cycle(c, src, first, secrets, site, last) =>
      CycleKeepsSound(s, c, cat, src, first, secrets, site, last);
    case Approval(c, manifestId, secrets, site, last) =>
      StepClimbs(s, cat, step);
      ApprovalIsStatusOnly(s, c, manifestId, secrets, site, last);
      StatusChangeKeepsSound(s, Perform(s, cat, step), cat, c.enabled);
    case DirectApply(c, manifestId, approval, site) =>
      StepClimbs(s, cat, step);
      ApplyIsStatusOnly(s, c, manifestId, approval, true, site);
      StatusChangeKeepsSound(s, Perform(s, cat, step), cat, c.enabled);
  }

  lemma {:induction false} RunKeepsSound(s: System, cat: Catalog, steps: seq<Step>, enabled: seq<string>)
    requires Sound(s, cat, enabled)
    requires forall i | 0 <= i < |steps| :: steps[i].c.enabled == enabled
    ensures Sound(Run(s, cat, steps), cat, enabled)
    decreases |steps|
  {
    if steps != [] {
      StepKeepsSound(s, cat, steps[0]);
      RunKeepsSound(Perform(s, cat, steps[0]), cat, steps[1..], enabled);
    }
  }

  // ---- Where the chain of a duplicate ends ----

  /** Follow `duplicate_of` to the entry that is not a duplicate. */
  function Origin(s: System, cat: Catalog, enabled: seq<string>, h: string): string
    requires Sound(s, cat, enabled) && h in s.state.archives
    decreases Position(s.state.order, h)
  {
    if s.state.archives[h].status != ContentDuplicate then h
    else
      assert Linked(s, h, cat, enabled);
      Origin(s, cat, enabled, s.state.archives[h].duplicateOf.value)
  }

  lemma {:induction false} OriginFacts(s: System, cat: Catalog, enabled: seq<string>, h: string)
    requires Sound(s, cat, enabled) && h in s.state.archives && s.state.archives[h].status == ContentDuplicate
    ensures
      var o := Origin(s, cat, enabled, h);
      && o in s.state.archives && s.state.archives[o].status != ContentDuplicate
      && Position(s.state.order, o) < Position(s.state.order, h)
      && BecameApplied(o) in s.log
      && s.state.archives[h].payloadKinds.Some? && s.state.archives[h].payloadSha.Some?
      && P.Fingerprint(cat.bundle(o).packages, s.state.archives[h].payloadKinds.value, cat.digest)
           == s.state.archives[h].payloadSha
    decreases Position(s.state.order, h)
  {
    assert Linked(s, h, cat, enabled);
    var g := s.state.archives[h].duplicateOf.value;
    if s.state.archives[g].status == ContentDuplicate {
      OriginFacts(s, cat, enabled, g);
      assert Truthful(g, s.state.archives[g], cat);
    }
  }

  /** With a fixed enabled set and an ideal hash: the chain of every CONTENT_DUPLICATE is finite and
      ends at an older archive that reached APPLIED, whose enabled packages of the duplicate's kinds
      are exactly the duplicate's. */
  lemma DuplicatesWereApplied(cat: Catalog, steps: seq<Step>, enabled: seq<string>, h: string)
    requires forall i | 0 <= i < |steps| :: steps[i].c.enabled == enabled
    requires P.Injective(cat.digest) && forall g :: P.CleanItems(cat.bundle(g).packages)
    requires
      var s := Run(EMPTY, cat, steps).state;
      h in s.archives && s.archives[h].status == ContentDuplicate
    ensures Sound(Run(EMPTY, cat, steps), cat, enabled)
    ensures
      var s := Run(EMPTY, cat, steps);
      var o := Origin(s, cat, enabled, h);
      var kinds := s.state.archives[h].payloadKinds;
      && BecameApplied(o) in s.log
      && o in s.state.archives && s.state.archives[o].status != ContentDuplicate
      && Position(s.state.order, o) < Position(s.state.order, h)
      && kinds.Some? && kinds.value != {}
      && (forall k | k in kinds.value :: k in Planned(cat.bundle(o).packages, enabled))
      && P.PayloadMap(cat.bundle(o).packages, kinds.value) == P.PayloadMap(cat.bundle(h).packages, kinds.value)
  {
    RunKeepsSound(EMPTY, cat, steps, enabled);
    var s := Run(EMPTY, cat, steps);
    OriginFacts(s, cat, enabled, h);
    assert Linked(s, h, cat, enabled) && Truthful(h, s.state.archives[h], cat);
    var o, kinds := Origin(s, cat, enabled, h), s.state.archives[h].payloadKinds.value;
    P.FingerprintIsSound(cat.bundle(o).packages, cat.bundle(h).packages, kinds, cat.digest);
    FingerprintKinds(cat.bundle(h).packages, kinds, cat.digest);
    PlannedFacts(cat.bundle(o).packages, enabled);
    forall k | k in kinds ensures k in Planned(cat.bundle(o).packages, enabled) {
      FingerprintCovers(cat.bundle(o).packages, kinds, cat.digest, k);
    }
  }

  lemma FingerprintCovers(items: seq<A.Item>, kinds: set<string>, digest: string -> string, k: string)
    requires P.Fingerprint(items, kinds, digest).Some? && k in kinds
    ensures exists i :: i in items && i.kind == k
  {
    var p :| p in P.Pairs(items, kinds) && p.0 == k;
    PairsComeFromItems(items, kinds, p);
  }

  lemma {:induction false} PairsComeFromItems(items: seq<A.Item>, kinds: set<string>, p: (string, string))
    ensures p in P.Pairs(items, kinds) <==>
              p.0 in kinds && p.1 != "" && exists i :: i in items && i.kind == p.0 && i.sha256 == p.1
  {
    if items != [] {
      PairsComeFromItems(items[1..], kinds, p);
      assert forall i :: i in items <==> i == items[0] || i in items[1..];
    }
  }

  // ---- Nothing provable is missed ----

  /** The scan finds an entry whenever one of the candidates has the asked fingerprint: what it writes
      into the entries it passes does not hide the later ones. */
  lemma {:induction false} FindIsComplete(order: seq<string>, archives: map<string, Entry>, sha: string,
                                          kinds: set<string>, exclude: string, cat: Catalog, readable: set<string>,
                                          g: string)
    requires g in order && IsCandidate(archives, g, exclude)
    requires EntryPayload(g, archives[g], kinds, cat, readable) == Some(sha)
    ensures FindPayload(order, archives, sha, kinds, exclude, cat, readable).1.Some?
    decreases |order|
  {
    var h := order[0];
    if h != g {
      assert g in order[1..];
      if IsCandidate(archives, h, exclude) {
        var updated := Remember(archives, h, EntryPayload(h, archives[h], kinds, cat, readable), kinds);
        FindIsComplete(order[1..], updated, sha, kinds, exclude, cat, readable, g);
      } else {
        FindIsComplete(order[1..], archives, sha, kinds, exclude, cat, readable, g);
      }
    }
  }

  /** The fingerprint of `g` over `kinds` is recorded, or its manifest is retained and readable. */
  predicate Provable(e: Entry, g: string, kinds: set<string>, readable: set<string>) {
    (e.payloadSha.Some? && RecordedKinds(e) == kinds) || (e.hasWorkDir && g in readable)
  }

  /** A new archive whose enabled payload is provably that of an applied archive, or of a duplicate of one,
      is never prepared again: it becomes CONTENT_DUPLICATE. */
  lemma RepeatedPayloadIsRecognised(s: System, c: A.Config, cat: Catalog, src: Source, h: string, g: string)
    requires Sound(s, cat, c.enabled) && h !in s.state.archives && Buildable(c, cat.bundle(h), src, cat)
    requires IsCandidate(s.state.archives, g, h)
    requires
      var kinds := KindSet(Planned(cat.bundle(h).packages, c.enabled));
      && Provable(s.state.archives[g], g, kinds, src.readable)
      && P.Fingerprint(cat.bundle(g).packages, kinds, cat.digest)
           == P.Fingerprint(cat.bundle(h).packages, kinds, cat.digest)
    ensures
      var (t, result) := Prepare(s.state, c, cat, src, h);
      result == NoContentChange(h) && h in t.archives && t.archives[h].status == ContentDuplicate
  {
    var kinds := KindSet(Planned(cat.bundle(h).packages, c.enabled));
    var sha := P.Fingerprint(cat.bundle(h).packages, kinds, cat.digest).value;
    CandidateIsTrue(g, s.state.archives[g], kinds, cat, src.readable);
    assert EntryPayload(g, s.state.archives[g], kinds, cat, src.readable) == Some(sha);
    FindIsComplete(s.state.order, s.state.archives, sha, kinds, h, cat, src.readable, g);
  }

  // ---- What of a duplicate's payload was restored ----

  predicate TakesPart(i: A.Item, kinds: set<string>) {
    i.kind in kinds && i.sha256 != ""
  }

  lemma {:induction false} PairOfItem(items: seq<A.Item>, kinds: set<string>, y: A.Item) returns (j: nat)
    requires y in items && TakesPart(y, kinds)
    ensures j < |P.Pairs(items, kinds)| && P.Pairs(items, kinds)[j] == (y.kind, y.sha256)
  {
    j := 0;
    if items[0] != y {
      var k := PairOfItem(items[1..], kinds, y);
      j := if TakesPart(items[0], kinds) then k + 1 else k;
    }
  }

  lemma PairsTail(items: seq<A.Item>, kinds: set<string>)
    requires items != [] && P.DistinctNames(P.Pairs(items, kinds))
    ensures P.DistinctNames(P.Pairs(items[1..], kinds))
    ensures TakesPart(items[0], kinds) ==>
              P.Pairs(items, kinds) == [(items[0].kind, items[0].sha256)] + P.Pairs(items[1..], kinds)
  {
    var ps, qs := P.Pairs(items, kinds), P.Pairs(items[1..], kinds);
    if TakesPart(items[0], kinds) {
      forall i, j | 0 <= i < j < |qs| ensures qs[i].0 != qs[j].0 {
        assert ps[i + 1] == qs[i] && ps[j + 1] == qs[j];
      }
    } else {
      assert ps == qs;
    }
  }

  lemma HeadKindIsNew(items: seq<A.Item>, kinds: set<string>, y: A.Item)
    requires items != [] && P.DistinctNames(P.Pairs(items, kinds)) && TakesPart(items[0], kinds)
    requires y in items[1..] && TakesPart(y, kinds)
    ensures y.kind != items[0].kind
  {
    PairsTail(items, kinds);
    var j := PairOfItem(items[1..], kinds, y);
    assert P.Pairs(items, kinds)[0] == (items[0].kind, items[0].sha256);
    assert P.Pairs(items, kinds)[j + 1] == (y.kind, y.sha256);
  }

  /** One item of each kind takes part in a fingerprint. */
  lemma {:induction false} SameKindSameItem(items: seq<A.Item>, kinds: set<string>, x: A.Item, y: A.Item)
    requires P.DistinctNames(P.Pairs(items, kinds))
    requires x in items && y in items && x.kind == y.kind && TakesPart(x, kinds) && TakesPart(y, kinds)
    ensures x == y
  {
    PairsTail(items, kinds);
    if x in items[1..] && y in items[1..] {
      SameKindSameItem(items[1..], kinds, x, y);
    } else if x in items[1..] {
      HeadKindIsNew(items, kinds, x);
    } else if y in items[1..] {
      HeadKindIsNew(items, kinds, y);
    }
  }

  /** A package of this kind with these bytes is among the restored ones. */
  predicate WasRestored(sent: seq<A.Item>, kind: string, sha: string) {
    exists i | i in sent :: i.kind == kind && i.sha256 == sha
  }

  /** Every package that takes part in the payload is marked safe for deferred apply. */
  predicate PayloadIsSafe(items: seq<A.Item>, kinds: set<string>) {
    forall i | i in items && TakesPart(i, kinds) :: i.safe
  }

  lemma PayloadFacts(items: seq<A.Item>, kinds: set<string>, digest: string -> string)
    requires P.Fingerprint(items, kinds, digest).Some?
    ensures P.DistinctNames(P.Pairs(items, kinds)) && P.PayloadMap(items, kinds).Keys == kinds
    ensures forall p :: p in P.Pairs(items, kinds) <==>
              p.0 in P.PayloadMap(items, kinds) && P.PayloadMap(items, kinds)[p.0] == p.1
  {
    P.CountedNamesAreDistinct(P.Pairs(items, kinds));
    P.MapOfFacts(P.Pairs(items, kinds));
  }

  /** Fingerprints cover packages that are never restored: a whole payload is restored exactly when all
      its packages are safe. */
  lemma SafePayloadIsRestored(c: A.Config, m: A.Manifest, kinds: set<string>, digest: string -> string)
    requires P.Fingerprint(m.packages, kinds, digest).Some? && forall k | k in kinds :: k in c.enabled
    ensures P.PayloadMap(m.packages, kinds).Keys == kinds
    ensures (forall k | k in kinds :: WasRestored(A.Selected(c, m), k, P.PayloadMap(m.packages, kinds)[k]))
       <==> PayloadIsSafe(m.packages, kinds)
  {
    var items, payload := m.packages, P.PayloadMap(m.packages, kinds);
    PayloadFacts(items, kinds, digest);
    A.SelectedFacts(c, m, 0);
    forall k | k in kinds ensures PayloadIsSafe(items, kinds) ==> WasRestored(A.Selected(c, m), k, payload[k]) {
      PairsComeFromItems(items, kinds, (k, payload[k]));
    }
    forall i | i in items && TakesPart(i, kinds)
      ensures WasRestored(A.Selected(c, m), i.kind, payload[i.kind]) ==> i.safe
    {
      PairsComeFromItems(items, kinds, (i.kind, i.sha256));
      if WasRestored(A.Selected(c, m), i.kind, payload[i.kind]) {
        var x :| x in A.Selected(c, m) && x.kind == i.kind && x.sha256 == payload[i.kind];
        SameKindSameItem(items, kinds, x, i);
      }
    }
  }

  /** Behind every CONTENT_DUPLICATE stands a step that applied the archive its chain ends at.  If the
      manifest file read there held that archive's packages, every package of the duplicate's payload was
      restored by that step exactly when all of them are safe for deferred apply. */
  lemma DuplicatePayloadWasRestored(cat: Catalog, steps: seq<Step>, enabled: seq<string>, h: string)
    returns (k: nat, o: string)
    requires forall i | 0 <= i < |steps| :: steps[i].c.enabled == enabled
    requires P.Injective(cat.digest) && forall g :: P.CleanItems(cat.bundle(g).packages)
    requires
      var s := Run(EMPTY, cat, steps).state;
      h in s.archives && s.archives[h].status == ContentDuplicate
    ensures Sound(Run(EMPTY, cat, steps), cat, enabled) && o == Origin(Run(EMPTY, cat, steps), cat, enabled, h)
    ensures k < |steps| && E.AppliedBy(Run(EMPTY, cat, steps[..k]), cat, steps[k], o)
    ensures
      var kinds := Run(EMPTY, cat, steps).state.archives[h].payloadKinds;
      var file := steps[k].site.world.manifestFile;
      && kinds.Some? && file.Some?
      && (file.value.packages == cat.bundle(o).packages ==>
            && P.PayloadMap(cat.bundle(h).packages, kinds.value).Keys == kinds.value
            && ((forall x | x in kinds.value ::
                   WasRestored(A.Selected(steps[k].c, file.value), x, P.PayloadMap(cat.bundle(h).packages, kinds.value)[x]))
                <==> PayloadIsSafe(cat.bundle(o).packages, kinds.value)))
  {
    DuplicatesWereApplied(cat, steps, enabled, h);
    var s := Run(EMPTY, cat, steps);
    o := Origin(s, cat, enabled, h);
    k := E.HistoryCarriesEvidence(cat, steps, o);
    OriginFacts(s, cat, enabled, h);
    var kinds, file := s.state.archives[h].payloadKinds.value, steps[k].site.world.manifestFile.value;
    assert Linked(s, h, cat, enabled);
    if file.packages == cat.bundle(o).packages {
      SafePayloadIsRestored(steps[k].c, file, kinds, cat.digest);
    }
  }
}
