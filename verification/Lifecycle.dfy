/** The archive lifecycle kept in the agent's state file: `run_agent_once`
    (src/fgops/agent_orchestrator.py), `run_cycle` and `approve_manifest` (src/fgops/cycle.py),
    `_select_archive` and the state update of `run_controlled_apply` (src/fgops/controlled_apply.py). */
module Lifecycle {
  import opened Wrappers
  import A = ControlledApply
  import P = Payload

  datatype Status = Prepared | Applied | ApplyFailed | ReviewRequired | ContentDuplicate | OtherStatus(text: string)

  datatype Notice = Unset | Disabled | Sent | NotifyFailed

  datatype Entry = Entry(
    status: Status,
    manifestId: Option<string>,
    hasWorkDir: bool,
    payloadSha: Option<string>,
    payloadKinds: Option<set<string>>,
    planned: seq<string>,
    duplicateOf: Option<string>,
    notice: Notice)

  /** The archives dictionary with its insertion order. */
  datatype AgentState = AgentState(order: seq<string>, archives: map<string, Entry>)

  datatype Bundle = Bundle(manifestId: string, packages: seq<A.Item>)

  /** What an archive hash stands for, and the payload hash function. */
  datatype Catalog = Catalog(bundle: string -> Bundle, digest: string -> string)

  // ---- Reading the state ----

  predicate Known(s: Status) {
    !s.OtherStatus?
  }

  /** `has_successful_archive`. */
  predicate Handled(s: AgentState, h: string) {
    h in s.archives && Known(s.archives[h].status)
  }

  function Matching(order: seq<string>, archives: map<string, Entry>, manifestId: string): seq<string> {
    if order == [] then []
    else
      (if order[0] in archives && archives[order[0]].manifestId == Some(manifestId) then [order[0]] else [])
      + Matching(order[1..], archives, manifestId)
  }

  function Put(s: AgentState, h: string, e: Entry): AgentState {
    AgentState(if h in s.archives then s.order else s.order + [h], s.archives[h := e])
  }

  function SetStatus(s: AgentState, h: string, status: Status): AgentState {
    if h in s.archives then s.(archives := s.archives[h := s.archives[h].(status := status)]) else s
  }

  /** `_record_notification`. */
  function Notify(s: AgentState, h: string, n: Notice): AgentState {
    if h in s.archives then s.(archives := s.archives[h := s.archives[h].(notice := n)]) else s
  }

  // ---- Preparing: run_agent_once ----

  predicate Ambiguous(items: seq<A.Item>, enabled: seq<string>) {
    exists i, j | 0 <= i < j < |items| ::
      items[i].kind == items[j].kind && items[i].kind in enabled
      && items[i].kind != "UNKNOWN" && items[i].kind != "IGNORED"
  }

  predicate HasUnknown(items: seq<A.Item>) {
    exists i | i in items :: i.kind == "UNKNOWN"
  }

  function Planned(items: seq<A.Item>, enabled: seq<string>): seq<string> {
    if items == [] then []
    else
      (if items[0].kind != "UNKNOWN" && items[0].kind in enabled then [items[0].kind] else [])
      + Planned(items[1..], enabled)
  }

  function KindSet(kinds: seq<string>): set<string> {
    set k | k in kinds
  }

  function RecordedKinds(e: Entry): set<string> {
    if e.payloadKinds.Some? && e.payloadKinds.value != {} then e.payloadKinds.value else KindSet(e.planned)
  }

  /** `_entry_payload_sha256`; `readable` are the archives whose retained manifest can still be read. */
  function EntryPayload(h: string, e: Entry, kinds: set<string>, cat: Catalog, readable: set<string>): Option<string> {
    if e.payloadSha.Some? && RecordedKinds(e) == kinds then e.payloadSha
    else if !e.hasWorkDir || h !in readable then None
    else P.Fingerprint(cat.bundle(h).packages, kinds, cat.digest)
  }

  predicate IsCandidate(archives: map<string, Entry>, h: string, exclude: string) {
    h != exclude && h in archives
    && (archives[h].status == Applied || archives[h].status == ContentDuplicate)
  }

  function Remember(archives: map<string, Entry>, h: string, sha: Option<string>, kinds: set<string>): map<string, Entry>
    requires h in archives
  {
    if sha.Some? then archives[h := archives[h].(payloadSha := sha, payloadKinds := Some(kinds))] else archives
  }

  /** `_find_applied_payload`: the first match in insertion order, with the fields it writes back. */
  function FindPayload(order: seq<string>, archives: map<string, Entry>, sha: string, kinds: set<string>,
                       exclude: string, cat: Catalog, readable: set<string>): (map<string, Entry>, Option<string>)
    decreases |order|
  {
    if order == [] then (archives, None)
    else if !IsCandidate(archives, order[0], exclude) then
      FindPayload(order[1..], archives, sha, kinds, exclude, cat, readable)
    else
      var candidate := EntryPayload(order[0], archives[order[0]], kinds, cat, readable);
      var updated := Remember(archives, order[0], candidate, kinds);
      if candidate == Some(sha) then (updated, Some(order[0]))
      else FindPayload(order[1..], updated, sha, kinds, exclude, cat, readable)
  }

  /** `archive: None` means that fetching, discovery or download raised. */
  datatype Source = Source(archive: Option<string>, buildWorks: bool, planWritten: bool, readable: set<string>)

  datatype MonitorResult = MonitorRaised | NoChange(hash: string) | NoContentChange(hash: string)
                         | Ready(hash: string, manifestId: string)

  function DuplicateEntry(planned: seq<string>, sha: string, original: string): Entry {
    Entry(ContentDuplicate, None, false, Some(sha), Some(KindSet(planned)), planned, Some(original), Disabled)
  }

  function PreparedEntry(planned: seq<string>, sha: string, manifestId: string): Entry {
    Entry(Prepared, Some(manifestId), true, Some(sha), Some(KindSet(planned)), planned, None, Unset)
  }

  predicate Resumable(c: A.Config, dryRun: bool, e: Entry) {
    c.mode == A.Unattended && !dryRun && e.status == Prepared && e.manifestId.Some? && e.hasWorkDir
  }

  predicate Buildable(c: A.Config, b: Bundle, src: Source, cat: Catalog) {
    && src.buildWorks
    && !Ambiguous(b.packages, c.enabled)
    && !(HasUnknown(b.packages) && c.rejectUnknown)
    && Planned(b.packages, c.enabled) != []
    && P.Fingerprint(b.packages, KindSet(Planned(b.packages, c.enabled)), cat.digest).Some?
  }

  function Prepare(s: AgentState, c: A.Config, cat: Catalog, src: Source, h: string): (AgentState, MonitorResult) {
    var b := cat.bundle(h);
    if !Buildable(c, b, src, cat) then (s, MonitorRaised)
    else
      var planned := Planned(b.packages, c.enabled);
      var sha := P.Fingerprint(b.packages, KindSet(planned), cat.digest).value;
      var (archives, duplicate) := FindPayload(s.order, s.archives, sha, KindSet(planned), h, cat, src.readable);
      var found := s.(archives := archives);
      if duplicate.Some? then (Put(found, h, DuplicateEntry(planned, sha, duplicate.value)), NoContentChange(h))
      else if !src.planWritten then (found, MonitorRaised)
      else (Put(found, h, PreparedEntry(planned, sha, b.manifestId)), Ready(h, b.manifestId))
  }

  function MonitorSpec(s: AgentState, c: A.Config, cat: Catalog, src: Source, dryRun: bool): (AgentState, MonitorResult) {
    if src.archive.None? then (s, MonitorRaised)
    else
      var h := src.archive.value;
      if !Handled(s, h) then Prepare(s, c, cat, src, h)
      else if Resumable(c, dryRun, s.archives[h]) then (s, Ready(h, s.archives[h].manifestId.value))
      else (s, NoChange(h))
  }

  // ---- Applying ----

  datatype LogEvent = LoopEntered(hash: string, sent: seq<A.Item>) | BecameApplied(hash: string)

  /** `cleanupWorks`: removing the TFTP directory after a successful run, when the state is already saved. */
  datatype Site = Site(world: A.World, cleanupWorks: bool)

  datatype ApplyResult = ApplyResult(state: AgentState, log: seq<LogEvent>, outcome: Option<A.Overall>)

  /** The run's effect on the state file and on the history. */
  function Conclude(s: AgentState, h: string, entered: bool, run: A.ApplyRun, cleanupWorks: bool): ApplyResult {
    var log := if entered then [LoopEntered(h, A.Restored(run.trace))] else [];
    if run.outcome.None? then ApplyResult(s, log, None)
    else if run.outcome.value == A.OverallFailed then ApplyResult(SetStatus(s, h, ApplyFailed), log, run.outcome)
    else ApplyResult(SetStatus(s, h, Applied), log + [BecameApplied(h)], if cleanupWorks then run.outcome else None)
  }

  predicate Eligible(s: AgentState, h: string) {
    h in s.archives && s.archives[h].status == Prepared && s.archives[h].hasWorkDir
  }

  function ApplyManifest(s: AgentState, c: A.Config, manifestId: string, approval: Option<string>, site: Site): ApplyResult {
    var matches := Matching(s.order, s.archives, manifestId);
    if !A.ConfigAllows(c, manifestId, approval) || |matches| != 1 || !Eligible(s, matches[0]) then ApplyResult(s, [], None)
    else
      var h := matches[0];
      Conclude(s, h, A.Gates(c, manifestId, h, site.world).1, A.ApplySpec(c, manifestId, h, site.world), site.cleanupWorks)
  }

  // ---- Cycles, approvals and runs ----

  datatype System = System(state: AgentState, log: seq<LogEvent>)

  datatype Step =
    | Monitor(c: A.Config, src: Source, dryRun: bool)
    | Cycle(c: A.Config, src: Source, first: Notice, secrets: bool, site: Site, last: Notice)
    | Approval(c: A.Config, manifestId: string, secrets: bool, site: Site, last: Notice)
    | DirectApply(c: A.Config, manifestId: string, approval: Option<string>, site: Site)

  /** `ApplyManifest` behind the secret environment, which may itself raise. */
  function Guarded(s: AgentState, c: A.Config, manifestId: string, approval: Option<string>, secrets: bool, site: Site): ApplyResult {
    if secrets then ApplyManifest(s, c, manifestId, approval, site) else ApplyResult(s, [], None)
  }

  /** The exception handler of `run_cycle` and `approve_manifest`. */
  function Settle(r: ApplyResult, h: string, last: Notice): AgentState {
    if r.outcome.Some? then Notify(r.state, h, last) else Notify(SetStatus(r.state, h, ReviewRequired), h, last)
  }

  function MonitorStep(s: System, c: A.Config, cat: Catalog, src: Source, dryRun: bool): System {
    s.(state := MonitorSpec(s.state, c, cat, src, dryRun).0)
  }

  /** `_retry_pending_prepared_notification`: a missing or failed notification is tried again. */
  function Retry(s: AgentState, h: string, n: Notice): AgentState {
    if h in s.archives && s.archives[h].manifestId.Some?
       && (s.archives[h].notice == Unset || s.archives[h].notice == NotifyFailed)
    then Notify(s, h, n) else s
  }

  function CycleStep(s: System, c: A.Config, cat: Catalog, src: Source, first: Notice, secrets: bool, site: Site,
                     last: Notice): System {
    var (state, result) := MonitorSpec(s.state, c, cat, src, false);
    AfterMonitor(System(state, s.log), c, result, first, secrets, site, last)
  }

  function AfterMonitor(s: System, c: A.Config, result: MonitorResult, first: Notice, secrets: bool, site: Site,
                        last: Notice): System {
    match result
    case MonitorRaised => s
    case NoContentChange(_) => s
    case NoChange(h) => s.(state := Retry(s.state, h, first))
    case Ready(h, manifestId) => ReadyStep(s, c, h, manifestId, first, secrets, site, last)
  }

  /** A prepared archive: notify, and apply it when unattended. */
  function ReadyStep(s: System, c: A.Config, h: string, manifestId: string, first: Notice, secrets: bool, site: Site,
                     last: Notice): System {
    var notified := Notify(s.state, h, first);
    if c.mode != A.Unattended then s.(state := notified)
    else
      var r := Guarded(notified, c, manifestId, None, secrets, site);
      System(Settle(r, h, last), s.log + r.log)
  }

  function ApprovalStep(s: System, c: A.Config, manifestId: string, secrets: bool, site: Site, last: Notice): System {
    if c.mode != A.ApprovalMode then s
    else
      var r := Guarded(s.state, c, manifestId, Some(manifestId), secrets, site);
      var matches := Matching(r.state.order, r.state.archives, manifestId);
      if matches == [] then System(r.state, s.log + r.log)
      else System(Settle(r, matches[0], last), s.log + r.log)
  }

  function Perform(s: System, cat: Catalog, step: Step): System {
    match step
    case Monitor(c, src, dryRun) => MonitorStep(s, c, cat, src, dryRun)
    case Cycle(c, src, first, secrets, site, last) => CycleStep(s, c, cat, src, first, secrets, site, last)
    case Approval(c, manifestId, secrets, site, last) => ApprovalStep(s, c, manifestId, secrets, site, last)
    case DirectApply(c, manifestId, approval, site) =>
      var r := ApplyManifest(s.state, c, manifestId, approval, site);
      System(r.state, s.log + r.log)
  }

  function Run(s: System, cat: Catalog, steps: seq<Step>): System
    decreases |steps|
  {
    if steps == [] then s else Run(Perform(s, cat, steps[0]), cat, steps[1..])
  }

  const EMPTY := System(AgentState([], map[]), [])

  // ---- The agent, as it loads, changes and saves its state file ----

  class Agent {
    var file: AgentState

    constructor ()
      ensures file == EMPTY.state
    {
      file := AgentState([], map[]);
    }

    /** The scan of `_find_applied_payload`, which writes into the entries while it looks. */
    method FindAppliedPayload(archives: map<string, Entry>, order: seq<string>, sha: string, kinds: set<string>,
                              exclude: string, cat: Catalog, readable: set<string>)
      returns (updated: map<string, Entry>, found: Option<string>)
      ensures (updated, found) == FindPayload(order, archives, sha, kinds, exclude, cat, readable)
    {
      updated, found := archives, None;
      for i := 0 to |order|
        invariant FindPayload(order[i..], updated, sha, kinds, exclude, cat, readable)
               == FindPayload(order, archives, sha, kinds, exclude, cat, readable)
      {
        var h := order[i];
        assert order[i..][0] == h && order[i..][1..] == order[i + 1..];
        if !IsCandidate(updated, h, exclude) {
          continue;
        }
        var candidate := EntryPayload(h, updated[h], kinds, cat, readable);
        updated := Remember(updated, h, candidate, kinds);
        if candidate == Some(sha) {
          found := Some(h);
          return;
        }
      }
    }

    method RunAgentOnce(c: A.Config, cat: Catalog, src: Source, dryRun: bool) returns (result: MonitorResult)
      modifies this
      ensures (file, result) == MonitorSpec(old(file), c, cat, src, dryRun)
    {
      var state := file;
      if src.archive.None? {
        return MonitorRaised;
      }
      var h := src.archive.value;
      if Handled(state, h) {
        var e := state.archives[h];
        if Resumable(c, dryRun, e) {
          return Ready(h, e.manifestId.value);
        }
        return NoChange(h);
      }
      var b := cat.bundle(h);
      if !src.buildWorks || Ambiguous(b.packages, c.enabled) || (HasUnknown(b.packages) && c.rejectUnknown) {
        return MonitorRaised;
      }
      var planned := Planned(b.packages, c.enabled);
      if planned == [] {
        return MonitorRaised;
      }
      var sha := P.PayloadSha256(b.packages, KindSet(planned), cat.digest);
      if sha.None? {
        return MonitorRaised;
      }
      var archives, duplicate := FindAppliedPayload(state.archives, state.order, sha.value, KindSet(planned), h, cat,
                                                    src.readable);
      state := state.(archives := archives);
      if duplicate.Some? {
        file := Put(state, h, DuplicateEntry(planned, sha.value, duplicate.value));
        return NoContentChange(h);
      }
      if !src.planWritten {
        file := state;
        return MonitorRaised;
      }
      file := Put(state, h, PreparedEntry(planned, sha.value, b.manifestId));
      result := Ready(h, b.manifestId);
    }

    method RunControlledApply(c: A.Config, manifestId: string, approval: Option<string>, site: Site)
      returns (log: seq<LogEvent>, outcome: Option<A.Overall>)
      modifies this
      ensures ApplyResult(file, log, outcome) == ApplyManifest(old(file), c, manifestId, approval, site)
    {
      log, outcome := [], None;
      if !A.ConfigAllows(c, manifestId, approval) {
        return;
      }
      var matches := Matching(file.order, file.archives, manifestId);
      if |matches| != 1 {
        return;
      }
      var h := matches[0];
      if h !in file.archives || file.archives[h].status != Prepared || !file.archives[h].hasWorkDir {
        return;
      }
      var run := A.RunOnDevice(c, manifestId, h, site.world);
      if A.Gates(c, manifestId, h, site.world).1 {
        log := [LoopEntered(h, A.Restored(run.trace))];
      }
      if run.outcome.None? {
        return;
      }
      if run.outcome.value == A.OverallFailed {
        file := SetStatus(file, h, ApplyFailed);
        outcome := run.outcome;
        return;
      }
      file := SetStatus(file, h, Applied);
      log := log + [BecameApplied(h)];
      outcome := if site.cleanupWorks then run.outcome else None;
    }

    /** The rest of `run_cycle` for a prepared archive, with its exception handler. */
    method HandleReady(c: A.Config, h: string, manifestId: string, first: Notice, secrets: bool, site: Site, last: Notice)
      returns (log: seq<LogEvent>)
      modifies this
      ensures System(file, log) == ReadyStep(System(old(file), []), c, h, manifestId, first, secrets, site, last)
    {
      log := [];
      file := Notify(file, h, first);
      if c.mode != A.Unattended {
        return;
      }
      var outcome := None;
      if secrets {
        log, outcome := RunControlledApply(c, manifestId, None, site);
      }
      if outcome.None? {
        file := SetStatus(file, h, ReviewRequired);
      }
      file := Notify(file, h, last);
    }

    /** `run_cycle`; `log` is what it adds to the history. */
    method RunCycle(c: A.Config, cat: Catalog, src: Source, first: Notice, secrets: bool, site: Site, last: Notice)
      returns (log: seq<LogEvent>)
      modifies this
      ensures System(file, log) == CycleStep(System(old(file), []), c, cat, src, first, secrets, site, last)
    {
      var result := RunAgentOnce(c, cat, src, false);
      log := ActOn(c, result, first, secrets, site, last);
    }

    /** What `run_cycle` does with the result of the monitor. */
    method ActOn(c: A.Config, result: MonitorResult, first: Notice, secrets: bool, site: Site, last: Notice)
      returns (log: seq<LogEvent>)
      modifies this
      ensures System(file, log) == AfterMonitor(System(old(file), []), c, result, first, secrets, site, last)
    {
      log := [];
      match result {
        case MonitorRaised =>
        case NoContentChange(_) =>
        case NoChange(h) => file := Retry(file, h, first);
        case Ready(h, manifestId) => log := HandleReady(c, h, manifestId, first, secrets, site, last);
      }
    }

    method ApproveManifest(c: A.Config, manifestId: string, secrets: bool, site: Site, last: Notice)
      returns (log: seq<LogEvent>)
      modifies this
      ensures System(file, log) == ApprovalStep(System(old(file), []), c, manifestId, secrets, site, last)
    {
      log := [];
      if c.mode != A.ApprovalMode {
        return;
      }
      var outcome := None;
      if secrets {
        log, outcome := RunControlledApply(c, manifestId, Some(manifestId), site);
      }
      var matches := Matching(file.order, file.archives, manifestId);
      if matches == [] {
        return;
      }
      if outcome.None? {
        file := SetStatus(file, matches[0], ReviewRequired);
      }
      file := Notify(file, matches[0], last);
    }
  }
}
