/** The device-changing run (`run_controlled_apply`, src/fgops/controlled_apply.py).

    Everything the run asks of files, network and device is answered by a `World`: any answer is
    possible, and every call may raise.  The events of a run are recorded in a trace. */
module ControlledApply {
  import opened Wrappers
  import C = Classifier
  import V = Versions

  datatype Mode = PrepareOnly | ApprovalMode | Unattended

  datatype Config = Config(
    mode: Mode,
    hasDevice: bool,
    hasApply: bool,
    enabled: seq<string>,
    rejectUnknown: bool,
    preventDowngrade: bool,
    requireBackup: bool,
    stopOnFailure: bool,
    packageOrder: seq<string>)

  datatype Item = Item(
    kind: string, filename: string, sha256: string, family: string, expectedObjects: seq<string>, safe: bool)

  datatype Manifest = Manifest(manifestId: string, sourceArchiveSha256: string, packages: seq<Item>)

  datatype Reply =
    | RestoreRaises
    | VersionsRaise(output: C.Output)
    | Replied(output: C.Output, after: C.Inventory)

  datatype Preflight = Preflight(pass: bool, versions: C.Inventory)

  /** `None` and `false` stand for a raised exception. */
  datatype World = World(
    manifestFile: Option<Manifest>,
    packageHashes: map<string, string>,
    preflight: Option<Preflight>,
    stagingWorks: bool,
    stagedHashes: map<string, string>,
    backupPassword: bool,
    sessionOpens: bool,
    backupReply: Option<C.Output>,
    uploadReceived: bool,
    replies: seq<Reply>,
    sessionCloses: bool,
    backupCopyVerified: bool,
    postflight: Option<bool>,
    reportWritten: bool)

  datatype Event =
    | PackagesChecked
    | PreflightPassed
    | StagedChecked
    | BackupReceived
    | RestoreSent(item: Item)
    | BackupVerified
    | PostflightDone(pass: bool)

  datatype Overall = OverallSuccess | OverallWarning | OverallFailed

  datatype ApplyRun = ApplyRun(trace: seq<Event>, results: seq<C.PackageResult>, outcome: Option<Overall>)

  // ---- Selection ----

  /** Position in the order, its length if the kind is not there. */
  function IndexOf(order: seq<string>, kind: string): nat {
    if order == [] || order[0] == kind then 0 else 1 + IndexOf(order[1..], kind)
  }

  /** Position in the configured order, which has no repetitions; 999 for kinds outside it. */
  function Rank(order: seq<string>, kind: string): nat {
    if kind in order then IndexOf(order, kind) else 999
  }

  predicate Eligible(c: Config, i: Item) {
    i.kind in c.enabled && i.safe
  }

  function EligibleItems(c: Config, items: seq<Item>): seq<Item> {
    if items == [] then []
    else (if Eligible(c, items[0]) then [items[0]] else []) + EligibleItems(c, items[1..])
  }

  function InsertByRank(order: seq<string>, x: Item, s: seq<Item>): seq<Item> {
    if s == [] || Rank(order, x.kind) <= Rank(order, s[0].kind) then [x] + s
    else [s[0]] + InsertByRank(order, x, s[1..])
  }

  /** The stable sort by rank. */
  function SortByRank(order: seq<string>, s: seq<Item>): seq<Item> {
    if s == [] then [] else InsertByRank(order, s[0], SortByRank(order, s[1..]))
  }

  function Selected(c: Config, m: Manifest): seq<Item> {
    SortByRank(c.packageOrder, EligibleItems(c, m.packages))
  }

  predicate DistinctKinds(s: seq<Item>) {
    forall i, j | 0 <= i < j < |s| :: s[i].kind != s[j].kind
  }

  predicate HashesMatch(s: seq<Item>, hashes: map<string, string>) {
    forall i | i in s :: i.filename in hashes && hashes[i.filename] == i.sha256
  }

  predicate RankOrdered(order: seq<string>, s: seq<Item>) {
    forall i, j | 0 <= i < j < |s| :: Rank(order, s[i].kind) <= Rank(order, s[j].kind)
  }

  function WithRank(order: seq<string>, k: nat, s: seq<Item>): seq<Item> {
    if s == [] then []
    else (if Rank(order, s[0].kind) == k then [s[0]] else []) + WithRank(order, k, s[1..])
  }

  lemma {:induction false} InsertPermutes(order: seq<string>, x: Item, s: seq<Item>)
    ensures multiset(InsertByRank(order, x, s)) == multiset{x} + multiset(s)
  {
    if s != [] && Rank(order, s[0].kind) < Rank(order, x.kind) {
      InsertPermutes(order, x, s[1..]);
      assert s == [s[0]] + s[1..];
    }
  }

  lemma {:induction false} InsertOrders(order: seq<string>, x: Item, s: seq<Item>)
    requires RankOrdered(order, s)
    ensures RankOrdered(order, InsertByRank(order, x, s))
  {
    if s != [] && Rank(order, s[0].kind) < Rank(order, x.kind) {
      InsertOrders(order, x, s[1..]);
      InsertPermutes(order, x, s[1..]);
      var t := InsertByRank(order, x, s[1..]);
      forall i | 0 <= i < |t| ensures Rank(order, s[0].kind) <= Rank(order, t[i].kind) {
        assert t[i] in multiset(t);
        if t[i] != x {
          assert t[i] in multiset(s[1..]);
          var k :| 0 <= k < |s[1..]| && s[1..][k] == t[i];
          assert s[k + 1] == t[i];
        }
      }
    }
  }

  lemma WithRankCons(order: seq<string>, k: nat, x: Item, s: seq<Item>)
    ensures WithRank(order, k, [x] + s) == (if Rank(order, x.kind) == k then [x] else []) + WithRank(order, k, s)
  {
  }

  lemma {:induction false} InsertIsStable(order: seq<string>, x: Item, s: seq<Item>, k: nat)
    ensures WithRank(order, k, InsertByRank(order, x, s))
         == (if Rank(order, x.kind) == k then [x] else []) + WithRank(order, k, s)
  {
    if s == [] || Rank(order, x.kind) <= Rank(order, s[0].kind) {
      WithRankCons(order, k, x, s);
    } else {
      InsertIsStable(order, x, s[1..], k);
      WithRankCons(order, k, s[0], InsertByRank(order, x, s[1..]));
    }
  }

  /** The sort permutes, orders by rank, and keeps items of equal rank in their order. */
  lemma {:induction false} SortByRankFacts(order: seq<string>, s: seq<Item>, k: nat)
    ensures multiset(SortByRank(order, s)) == multiset(s)
    ensures RankOrdered(order, SortByRank(order, s))
    ensures WithRank(order, k, SortByRank(order, s)) == WithRank(order, k, s)
  {
    if s != [] {
      SortByRankFacts(order, s[1..], k);
      var t := SortByRank(order, s[1..]);
      InsertPermutes(order, s[0], t);
      InsertOrders(order, s[0], t);
      InsertIsStable(order, s[0], t, k);
      assert s == [s[0]] + s[1..];
    }
  }

  lemma {:induction false} EligibleItemsFacts(c: Config, items: seq<Item>)
    ensures forall i :: i in EligibleItems(c, items) <==> i in items && Eligible(c, i)
  {
    if items != [] {
      EligibleItemsFacts(c, items[1..]);
      assert forall i :: i in items <==> i == items[0] || i in items[1..];
    }
  }

  lemma SelectedFacts(c: Config, m: Manifest, k: nat)
    ensures forall i :: i in Selected(c, m) <==> i in m.packages && Eligible(c, i)
    ensures multiset(Selected(c, m)) == multiset(EligibleItems(c, m.packages))
    ensures RankOrdered(c.packageOrder, Selected(c, m))
    ensures WithRank(c.packageOrder, k, Selected(c, m)) == WithRank(c.packageOrder, k, EligibleItems(c, m.packages))
  {
    var e := EligibleItems(c, m.packages);
    EligibleItemsFacts(c, m.packages);
    SortByRankFacts(c.packageOrder, e, k);
    forall i ensures i in Selected(c, m) <==> i in e {
      assert i in Selected(c, m) <==> i in multiset(Selected(c, m));
      assert i in e <==> i in multiset(e);
    }
  }

  // ---- The restore loop ----

  /** `sent`: restores submitted to the device; `raised`: an exception ended the loop;
      `inventories`: the versions read after each completed restore. */
  datatype Loop = Loop(sent: seq<Item>, results: seq<C.PackageResult>, inventories: seq<C.Inventory>, raised: bool)

  function Judge(c: Config, i: Item, before: C.Inventory, r: Reply): C.PackageResult
    requires r.Replied?
  {
    C.ClassifyInstalled(i.kind, i.filename, i.expectedObjects, before, r.after, r.output, c.preventDowngrade)
  }

  function NextReply(replies: seq<Reply>): Reply {
    if replies == [] then RestoreRaises else replies[0]
  }

  function Rest(replies: seq<Reply>): seq<Reply> {
    if replies == [] then [] else replies[1..]
  }

  function Restores(c: Config, items: seq<Item>, current: C.Inventory, replies: seq<Reply>): Loop
    decreases |items|
  {
    if items == [] then Loop([], [], [], false)
    else
      var reply := NextReply(replies);
      if !reply.Replied? then Loop([items[0]], [], [], true)
      else
        var result := Judge(c, items[0], current, reply);
        if c.stopOnFailure && C.Failure(result.status) then Loop([items[0]], [result], [reply.after], false)
        else
          var rest := Restores(c, items[1..], reply.after, Rest(replies));
          Loop([items[0]] + rest.sent, [result] + rest.results, [reply.after] + rest.inventories, rest.raised)
  }

  function Joined(a: Loop, b: Loop): Loop {
    Loop(a.sent + b.sent, a.results + b.results, a.inventories + b.inventories, b.raised)
  }

  function One(i: Item, result: C.PackageResult, after: C.Inventory): Loop {
    Loop([i], [result], [after], false)
  }

  lemma RestoresStep(c: Config, items: seq<Item>, current: C.Inventory, replies: seq<Reply>)
    requires items != [] && NextReply(replies).Replied?
    ensures
      var reply := NextReply(replies);
      var result := Judge(c, items[0], current, reply);
      Restores(c, items, current, replies)
      == if c.stopOnFailure && C.Failure(result.status) then One(items[0], result, reply.after)
         else Joined(One(items[0], result, reply.after), Restores(c, items[1..], reply.after, Rest(replies)))
  {
  }

  lemma JoinedIsAssociative(x: Loop, y: Loop, z: Loop)
    ensures Joined(Joined(x, y), z) == Joined(x, Joined(y, z))
  {
  }

  /** The restore loop, with its early exits. */
  method RestorePackages(c: Config, selected: seq<Item>, versions: C.Inventory, replies: seq<Reply>)
    returns (loop: Loop)
    ensures loop == Restores(c, selected, versions, replies)
  {
    var current, script := versions, replies;
    loop := Loop([], [], [], false);
    for i := 0 to |selected|
      invariant Restores(c, selected, versions, replies) == Joined(loop, Restores(c, selected[i..], current, script))
      invariant !loop.raised
    {
      var item, reply := selected[i], NextReply(script);
      assert selected[i..][0] == item && selected[i..][1..] == selected[i + 1..];
      if !reply.Replied? {
        assert Restores(c, selected[i..], current, script) == Loop([item], [], [], true);
        loop := Loop(loop.sent + [item], loop.results + [], loop.inventories + [], true);
        return;
      }
      RestoresStep(c, selected[i..], current, script);
      var result := Classify(c, item, current, reply);
      var done := One(item, result, reply.after);
      JoinedIsAssociative(loop, done, Restores(c, selected[i + 1..], reply.after, Rest(script)));
      loop := Joined(loop, done);
      if c.stopOnFailure && C.Failure(result.status) {
        return;
      }
      current, script := reply.after, Rest(script);
    }
  }

  method Classify(c: Config, i: Item, before: C.Inventory, r: Reply) returns (result: C.PackageResult)
    requires r.Replied?
    ensures result == Judge(c, i, before, r)
  {
    result := C.ClassifyWithSuccessfulNoChange(i.kind, i.filename, i.expectedObjects, before, r.after, r.output,
                                               c.preventDowngrade);
  }

  predicate NoFailure(results: seq<C.PackageResult>) {
    forall i | 0 <= i < |results| :: !C.Failure(results[i].status)
  }

  /** What was sent is a prefix of the items, and everything but a raising restore was judged. */
  lemma {:induction false} RestoresShape(c: Config, items: seq<Item>, current: C.Inventory, replies: seq<Reply>)
    ensures
      var l := Restores(c, items, current, replies);
      && l.sent <= items
      && |l.results| == |l.inventories|
      && |l.sent| == |l.results| + (if l.raised then 1 else 0)
    decreases |items|
  {
    if items != [] && NextReply(replies).Replied? {
      RestoresStep(c, items, current, replies);
      RestoresShape(c, items[1..], NextReply(replies).after, Rest(replies));
      assert items == [items[0]] + items[1..];
    }
  }

  /** With stop_on_failure every result before the last is an acceptance, and a loop without
      failure or exception restores everything. */
  lemma {:induction false} RestoresStops(c: Config, items: seq<Item>, current: C.Inventory, replies: seq<Reply>)
    ensures
      var l := Restores(c, items, current, replies);
      && (c.stopOnFailure ==> forall i | 0 <= i < |l.results| - 1 :: !C.Failure(l.results[i].status))
      && (!l.raised && (NoFailure(l.results) || !c.stopOnFailure) ==> l.sent == items)
    decreases |items|
  {
    if items != [] && NextReply(replies).Replied? {
      RestoresStep(c, items, current, replies);
      var l := Restores(c, items, current, replies);
      var rest := Restores(c, items[1..], NextReply(replies).after, Rest(replies));
      RestoresStops(c, items[1..], NextReply(replies).after, Rest(replies));
      assert items == [items[0]] + items[1..];
      assert l.results[0] == Judge(c, items[0], current, NextReply(replies));
      if !(c.stopOnFailure && C.Failure(l.results[0].status)) {
        assert forall i | 0 <= i < |rest.results| :: l.results[i + 1] == rest.results[i];
      }
    }
  }

  /** The inventory before restore `i`: the one read after the restore before it. */
  function Before(start: C.Inventory, inventories: seq<C.Inventory>, i: nat): C.Inventory
    requires i <= |inventories|
  {
    if i == 0 then start else inventories[i - 1]
  }

  function DeltasAt(l: Loop, start: C.Inventory, i: nat): seq<C.Delta>
    requires i < |l.inventories| && i < |l.sent|
  {
    C.Deltas(l.sent[i].expectedObjects, Before(start, l.inventories, i), l.inventories[i])
  }

  /** Each package is judged against the previous package's after-versions. */
  lemma {:induction false} ResultsTelescope(c: Config, items: seq<Item>, start: C.Inventory, replies: seq<Reply>, i: nat)
    requires i < |Restores(c, items, start, replies).results|
    ensures
      var l := Restores(c, items, start, replies);
      && |l.results| == |l.inventories| <= |l.sent|
      && i < |replies| && replies[i].Replied? && replies[i].after == l.inventories[i]
      && l.results[i].status == C.InstalledStatus(DeltasAt(l, start, i), replies[i].output, c.preventDowngrade)
    decreases |items|
  {
    RestoresShape(c, items, start, replies);
    var reply := NextReply(replies);
    if i > 0 {
      RestoresStep(c, items, start, replies);
      RestoresShape(c, items[1..], reply.after, Rest(replies));
      ResultsTelescope(c, items[1..], reply.after, Rest(replies), i - 1);
    }
  }

  /** A result names the package it is about. */
  lemma {:induction false} ResultsAreNamed(c: Config, items: seq<Item>, current: C.Inventory, replies: seq<Reply>, i: nat)
    requires i < |Restores(c, items, current, replies).results|
    ensures
      var l := Restores(c, items, current, replies);
      && i < |l.sent| && l.results[i].kind == l.sent[i].kind && l.results[i].filename == l.sent[i].filename
    decreases |items|
  {
    RestoresShape(c, items, current, replies);
    if i > 0 {
      RestoresStep(c, items, current, replies);
      ResultsAreNamed(c, items[1..], NextReply(replies).after, Rest(replies), i - 1);
    }
  }

  // ---- The whole run ----

  function OverallStatus(results: seq<C.PackageResult>, postflightPass: bool): Overall {
    if !postflightPass || !NoFailure(results) then OverallFailed
    else if exists i | 0 <= i < |results| ::
              results[i].status == C.SUCCESS_WITH_WARNING || results[i].status == C.SKIPPED_NO_UPDATE
    then OverallWarning
    else OverallSuccess
  }

  function Aborted(trace: seq<Event>): ApplyRun {
    ApplyRun(trace, [], None)
  }

  function SentEvents(items: seq<Item>): seq<Event> {
    seq(|items|, i requires 0 <= i < |items| => RestoreSent(items[i]))
  }

  predicate ConfigAllows(c: Config, manifestId: string, approval: Option<string>) {
    && c.hasDevice && c.hasApply
    && c.mode != PrepareOnly
    && (c.mode == ApprovalMode ==> approval == Some(manifestId))
  }

  predicate ManifestFits(m: Manifest, manifestId: string, archive: string) {
    m.packages != [] && m.manifestId == manifestId && m.sourceArchiveSha256 == archive
  }

  /** The run up to the loop: the events so far and whether the loop is entered. */
  function Gates(c: Config, manifestId: string, archive: string, w: World): (seq<Event>, bool)
  {
    if w.manifestFile.None? || !ManifestFits(w.manifestFile.value, manifestId, archive) then ([], false)
    else
      var selected := Selected(c, w.manifestFile.value);
      if selected == [] || !DistinctKinds(selected) || !HashesMatch(selected, w.packageHashes) then ([], false)
      else if w.preflight.None? || !w.preflight.value.pass then ([PackagesChecked], false)
      else if !w.stagingWorks || !HashesMatch(selected, w.stagedHashes) then ([PackagesChecked, PreflightPassed], false)
      else
        var t := [PackagesChecked, PreflightPassed, StagedChecked];
        if (c.requireBackup && !w.backupPassword) || !w.sessionOpens then (t, false)
        else if !c.requireBackup then (t, true)
        else if w.backupReply.None? || w.backupReply.value.commandFail || !w.uploadReceived then (t, false)
        else (t + [BackupReceived], true)
  }

  /** The restore loop of a run whose gates are open. */
  function LoopOf(c: Config, w: World): Loop
    requires w.manifestFile.Some? && w.preflight.Some?
  {
    Restores(c, Selected(c, w.manifestFile.value), w.preflight.value.versions, w.replies)
  }

  /** What follows the loop: the further events and the outcome, `None` for an exception. */
  function Ending(c: Config, l: Loop, w: World): (seq<Event>, Option<Overall>) {
    if l.raised || !w.sessionCloses || (c.requireBackup && !w.backupCopyVerified) then ([], None)
    else
      var copied := if c.requireBackup then [BackupVerified] else [];
      if w.postflight.None? then (copied, None)
      else
        (copied + [PostflightDone(w.postflight.value)],
         if w.reportWritten then Some(OverallStatus(l.results, w.postflight.value)) else None)
  }

  function ApplySpec(c: Config, manifestId: string, archive: string, w: World): ApplyRun {
    var (trace, entered) := Gates(c, manifestId, archive, w);
    if !entered then Aborted(trace)
    else
      var l := LoopOf(c, w);
      var (events, outcome) := Ending(c, l, w);
      ApplyRun(trace + SentEvents(l.sent) + events, l.results, outcome)
  }

  lemma EligibleStep(c: Config, selected: seq<Item>, packages: seq<Item>, i: nat)
    requires i < |packages|
    ensures
      var taken := if Eligible(c, packages[i]) then [packages[i]] else [];
      selected + EligibleItems(c, packages[i..]) == (selected + taken) + EligibleItems(c, packages[i + 1..])
  {
    assert packages[i..][1..] == packages[i + 1..];
  }

  method SelectPackages(c: Config, packages: seq<Item>) returns (selected: seq<Item>)
    ensures selected == SortByRank(c.packageOrder, EligibleItems(c, packages))
  {
    selected := [];
    for i := 0 to |packages|
      invariant selected + EligibleItems(c, packages[i..]) == EligibleItems(c, packages)
    {
      EligibleStep(c, selected, packages, i);
      if packages[i].kind in c.enabled && packages[i].safe {
        selected := selected + [packages[i]];
      }
    }
    assert packages[|packages|..] == [] && selected + [] == selected;
    selected := SortByRank(c.packageOrder, selected);
  }

  method PassGates(c: Config, manifestId: string, archive: string, w: World)
    returns (trace: seq<Event>, entered: bool, selected: seq<Item>)
    ensures (trace, entered) == Gates(c, manifestId, archive, w)
    ensures entered ==> w.manifestFile.Some? && selected == Selected(c, w.manifestFile.value)
  {
    trace, entered, selected := [], false, [];
    if w.manifestFile.None? || !ManifestFits(w.manifestFile.value, manifestId, archive) {
      return;
    }
    selected := SelectPackages(c, w.manifestFile.value.packages);
    if selected == [] || !DistinctKinds(selected) || !HashesMatch(selected, w.packageHashes) {
      return;
    }
    trace := [PackagesChecked];
    if w.preflight.None? || !w.preflight.value.pass {
      return;
    }
    trace := trace + [PreflightPassed];
    assert trace == [PackagesChecked, PreflightPassed];
    if !w.stagingWorks || !HashesMatch(selected, w.stagedHashes) {
      return;
    }
    trace := trace + [StagedChecked];
    assert trace == [PackagesChecked, PreflightPassed, StagedChecked];
    if (c.requireBackup && !w.backupPassword) || !w.sessionOpens {
      return;
    }
    if c.requireBackup {
      if w.backupReply.None? || w.backupReply.value.commandFail || !w.uploadReceived {
        return;
      }
      trace := trace + [BackupReceived];
    }
    entered := true;
  }

  method RunOnDevice(c: Config, manifestId: string, archive: string, w: World) returns (run: ApplyRun)
    ensures run == ApplySpec(c, manifestId, archive, w)
  {
    GatesFacts(c, manifestId, archive, w);
    var trace, entered, selected := PassGates(c, manifestId, archive, w);
    if !entered {
      return Aborted(trace);
    }
    var loop := RestorePackages(c, selected, w.preflight.value.versions, w.replies);
    var events, outcome := Finish(c, loop, w);
    run := ApplyRun(trace + SentEvents(loop.sent) + events, loop.results, outcome);
  }

  method Finish(c: Config, loop: Loop, w: World) returns (events: seq<Event>, outcome: Option<Overall>)
    ensures (events, outcome) == Ending(c, loop, w)
  {
    events, outcome := [], None;
    if loop.raised || !w.sessionCloses {
      return;
    }
    if c.requireBackup {
      if !w.backupCopyVerified {
        return;
      }
      events := [BackupVerified];
    }
    if w.postflight.None? {
      return;
    }
    events := events + [PostflightDone(w.postflight.value)];
    if w.reportWritten {
      outcome := Some(OverallStatus(loop.results, w.postflight.value));
    }
  }

  // ---- Trace discipline ----

  function Restored(trace: seq<Event>): seq<Item> {
    if trace == [] then []
    else (if trace[0].RestoreSent? then [trace[0].item] else []) + Restored(trace[1..])
  }

  /** Nothing is sent before the checks that protect the device. */
  predicate Guarded(c: Config, trace: seq<Event>) {
    forall j | 0 <= j < |trace| && trace[j].RestoreSent? ::
      && PackagesChecked in trace[..j]
      && PreflightPassed in trace[..j]
      && StagedChecked in trace[..j]
      && (c.requireBackup ==> BackupReceived in trace[..j])
  }

  lemma RestoredCons(e: Event, b: seq<Event>)
    ensures Restored([e] + b) == (if e.RestoreSent? then [e.item] else []) + Restored(b)
  {
  }

  lemma {:induction false} RestoredAppend(a: seq<Event>, b: seq<Event>)
    ensures Restored(a + b) == Restored(a) + Restored(b)
  {
    if a == [] {
      assert a + b == b;
    } else {
      RestoredAppend(a[1..], b);
      RestoredCons(a[0], a[1..] + b);
      assert a + b == [a[0]] + (a[1..] + b);
    }
  }

  lemma {:induction false} RestoredSent(items: seq<Item>)
    ensures Restored(SentEvents(items)) == items
  {
    if items != [] {
      assert SentEvents(items)[1..] == SentEvents(items[1..]);
      RestoredSent(items[1..]);
    }
  }

  lemma {:induction false} RestoredNone(trace: seq<Event>)
    requires forall j | 0 <= j < |trace| :: !trace[j].RestoreSent?
    ensures Restored(trace) == []
  {
    if trace != [] {
      RestoredNone(trace[1..]);
    }
  }

  /** What the world must answer before anything is restored: a manifest of this id and archive, packages of
      different kinds whose files have the recorded hashes before and after staging, a passed preflight, an
      open session and, if demanded, an accepted and received backup. */
  predicate Cleared(c: Config, manifestId: string, archive: string, w: World) {
    && w.manifestFile.Some?
    && (var m := w.manifestFile.value;
        var selected := Selected(c, m);
        && m.manifestId == manifestId && m.sourceArchiveSha256 == archive && selected != []
        && (forall i, j | 0 <= i < j < |selected| :: selected[i].kind != selected[j].kind)
        && (forall i | i in selected ::
              && i.filename in w.packageHashes && w.packageHashes[i.filename] == i.sha256
              && i.filename in w.stagedHashes && w.stagedHashes[i.filename] == i.sha256))
    && w.preflight.Some? && w.preflight.value.pass
    && w.stagingWorks && w.sessionOpens
    && (c.requireBackup ==>
          && w.backupPassword && w.uploadReceived
          && w.backupReply.Some? && !w.backupReply.value.commandFail)
  }

  lemma GatesOpen(c: Config, manifestId: string, archive: string, w: World)
    ensures Gates(c, manifestId, archive, w).1 <==> Cleared(c, manifestId, archive, w)
  {
    if w.manifestFile.Some? && w.manifestFile.value.packages == [] {
      assert Selected(c, w.manifestFile.value) == [];
    }
  }

  /** The events before the loop, as far as the checks got. */
  predicate GateEvents(c: Config, t: seq<Event>, entered: bool) {
    || (!entered && (t == [] || t == [PackagesChecked] || t == [PackagesChecked, PreflightPassed]))
    || (t == [PackagesChecked, PreflightPassed, StagedChecked] && (entered ==> !c.requireBackup))
    || (t == [PackagesChecked, PreflightPassed, StagedChecked, BackupReceived] && entered && c.requireBackup)
  }

  lemma GatesLeave(c: Config, manifestId: string, archive: string, w: World)
    ensures GateEvents(c, Gates(c, manifestId, archive, w).0, Gates(c, manifestId, archive, w).1)
  {
  }

  lemma GateEventsFacts(c: Config, t: seq<Event>, entered: bool)
    requires GateEvents(c, t, entered)
    ensures Restored(t) == [] && Guarded(c, t)
    ensures entered ==> PackagesChecked in t && PreflightPassed in t && StagedChecked in t
    ensures entered && c.requireBackup ==> BackupReceived in t
    ensures BackupVerified !in t
  {
    RestoredNone(t);
  }

  /** The loop is entered exactly when every check passed; before it nothing is sent. */
  lemma GatesFacts(c: Config, manifestId: string, archive: string, w: World)
    ensures Gates(c, manifestId, archive, w).1 <==> Cleared(c, manifestId, archive, w)
    ensures
      var (t, entered) := Gates(c, manifestId, archive, w);
      && Restored(t) == []
      && Guarded(c, t)
      && (entered ==>
            && PackagesChecked in t && PreflightPassed in t && StagedChecked in t
            && (c.requireBackup ==> BackupReceived in t))
      && BackupVerified !in t
  {
    GatesOpen(c, manifestId, archive, w);
    GatesLeave(c, manifestId, archive, w);
    GateEventsFacts(c, Gates(c, manifestId, archive, w).0, Gates(c, manifestId, archive, w).1);
  }

  lemma EndingSendsNothing(c: Config, l: Loop, w: World)
    ensures forall j | 0 <= j < |Ending(c, l, w).0| :: !Ending(c, l, w).0[j].RestoreSent?
  {
  }

  lemma EnteredShape(c: Config, manifestId: string, archive: string, w: World)
    requires Gates(c, manifestId, archive, w).1
    ensures w.manifestFile.Some? && w.preflight.Some?
    ensures ApplySpec(c, manifestId, archive, w).trace
         == Gates(c, manifestId, archive, w).0 + SentEvents(LoopOf(c, w).sent) + Ending(c, LoopOf(c, w), w).0
  {
  }

  lemma GuardedRun(c: Config, t: seq<Event>, sent: seq<Event>, tail: seq<Event>)
    requires Guarded(c, t)
    requires PackagesChecked in t && PreflightPassed in t && StagedChecked in t
    requires c.requireBackup ==> BackupReceived in t
    ensures Guarded(c, t + sent + tail)
  {
    GuardedExtends(c, t, sent + tail);
    assert t + sent + tail == t + (sent + tail);
  }

  /** What an entered run sent, and that it was sent after the checks. */
  lemma EnteredRun(c: Config, manifestId: string, archive: string, w: World)
    requires Gates(c, manifestId, archive, w).1
    ensures w.manifestFile.Some? && w.preflight.Some?
    ensures Restored(ApplySpec(c, manifestId, archive, w).trace) == LoopOf(c, w).sent
    ensures Guarded(c, ApplySpec(c, manifestId, archive, w).trace)
  {
    EnteredShape(c, manifestId, archive, w);
    GatesFacts(c, manifestId, archive, w);
    EndingSendsNothing(c, LoopOf(c, w), w);
    RestoredOfRun(Gates(c, manifestId, archive, w).0, LoopOf(c, w).sent, Ending(c, LoopOf(c, w), w).0);
    GuardedRun(c, Gates(c, manifestId, archive, w).0, SentEvents(LoopOf(c, w).sent), Ending(c, LoopOf(c, w), w).0);
  }

  /** For all replies and failures: what was sent is a prefix of the selection, distinct in kind, in
      configured order; every restore follows the checks; with stop_on_failure only the last result
      can be a failure. */
  lemma TraceDiscipline(c: Config, manifestId: string, archive: string, w: World)
    ensures
      var run := ApplySpec(c, manifestId, archive, w);
      && Guarded(c, run.trace)
      && (Restored(run.trace) != [] ==> Cleared(c, manifestId, archive, w))
      && DistinctKinds(Restored(run.trace))
      && RankOrdered(c.packageOrder, Restored(run.trace))
      && (Restored(run.trace) != [] ==>
            w.manifestFile.Some? && Restored(run.trace) <= Selected(c, w.manifestFile.value))
      && (c.stopOnFailure ==> forall i | 0 <= i < |run.results| - 1 :: !C.Failure(run.results[i].status))
  {
    GatesFacts(c, manifestId, archive, w);
    if Gates(c, manifestId, archive, w).1 {
      EnteredRun(c, manifestId, archive, w);
      SentIsPrefix(c, w);
    }
  }

  lemma RestoredOfRun(t: seq<Event>, items: seq<Item>, tail: seq<Event>)
    requires Restored(t) == [] && forall j | 0 <= j < |tail| :: !tail[j].RestoreSent?
    ensures Restored(t + SentEvents(items) + tail) == items
  {
    RestoredAppend(t + SentEvents(items), tail);
    RestoredAppend(t, SentEvents(items));
    RestoredSent(items);
    RestoredNone(tail);
  }

  lemma SentIsPrefix(c: Config, w: World)
    requires w.manifestFile.Some? && w.preflight.Some?
    ensures
      var items, l := Selected(c, w.manifestFile.value), LoopOf(c, w);
      && l.sent <= items
      && RankOrdered(c.packageOrder, l.sent)
      && (DistinctKinds(items) ==> DistinctKinds(l.sent))
      && (c.stopOnFailure ==> forall i | 0 <= i < |l.results| - 1 :: !C.Failure(l.results[i].status))
  {
    RestoresShape(c, Selected(c, w.manifestFile.value), w.preflight.value.versions, w.replies);
    RestoresStops(c, Selected(c, w.manifestFile.value), w.preflight.value.versions, w.replies);
    SelectedFacts(c, w.manifestFile.value, 0);
  }

  lemma GuardedExtends(c: Config, t: seq<Event>, more: seq<Event>)
    requires Guarded(c, t)
    requires PackagesChecked in t && PreflightPassed in t && StagedChecked in t
    requires c.requireBackup ==> BackupReceived in t
    ensures Guarded(c, t + more)
  {
    var all := t + more;
    forall j | 0 <= j < |all| && all[j].RestoreSent?
      ensures PackagesChecked in all[..j] && PreflightPassed in all[..j] && StagedChecked in all[..j]
      ensures c.requireBackup ==> BackupReceived in all[..j]
    {
      if j < |t| {
        assert all[..j] == t[..j];
      } else {
        assert all[..j] == t + more[..j - |t|];
      }
    }
  }

  lemma CopyComesAfter(t: seq<Event>, items: seq<Item>, tail: seq<Event>, j: nat, k: nat)
    requires forall e | e in t :: e != BackupVerified
    requires forall i | 0 <= i < |tail| :: !tail[i].RestoreSent?
    requires
      var all := t + SentEvents(items) + tail;
      j < |all| && k < |all| && all[j].RestoreSent? && all[k] == BackupVerified
    ensures j < k
  {
    assert forall i | 0 <= i < |t| :: t[i] in t;
    assert forall i | 0 <= i < |tail| :: (t + SentEvents(items) + tail)[|t| + |items| + i] == tail[i];
  }

  /** The permanent copy of the backup is verified only after the last restore: what protects the restores
      is the receipt of the upload (`TraceDiscipline`). */
  lemma BackupCopyComesLast(c: Config, manifestId: string, archive: string, w: World, j: nat, k: nat)
    requires
      var t := ApplySpec(c, manifestId, archive, w).trace;
      j < |t| && k < |t| && t[j].RestoreSent? && t[k] == BackupVerified
    ensures j < k
  {
    GatesFacts(c, manifestId, archive, w);
    if Gates(c, manifestId, archive, w).1 {
      EnteredShape(c, manifestId, archive, w);
      EndingSendsNothing(c, LoopOf(c, w), w);
      CopyComesAfter(Gates(c, manifestId, archive, w).0, LoopOf(c, w).sent, Ending(c, LoopOf(c, w), w).0, j, k);
    }
  }

  /** A result other than FAILED: the whole selection was restored, every package was accepted on
      evidence, and postflight passed. */
  lemma AcceptedRunIsComplete(c: Config, manifestId: string, archive: string, w: World)
    requires
      var run := ApplySpec(c, manifestId, archive, w);
      run.outcome.Some? && run.outcome.value != OverallFailed
    ensures w.manifestFile.Some? && w.preflight.Some? && w.preflight.value.pass
    ensures
      var l := LoopOf(c, w);
      && l.sent == Selected(c, w.manifestFile.value)
      && |l.inventories| == |l.results| == |l.sent| <= |w.replies|
      && w.postflight == Some(true)
      && (forall i | 0 <= i < |l.sent| ::
            w.replies[i].Replied?
            && C.Evidence(DeltasAt(l, w.preflight.value.versions, i), w.replies[i].output, c.preventDowngrade))
  {
    GatesFacts(c, manifestId, archive, w);
    var l, items, start := LoopOf(c, w), Selected(c, w.manifestFile.value), w.preflight.value.versions;
    RestoresShape(c, items, start, w.replies);
    RestoresStops(c, items, start, w.replies);
    if |l.results| > 0 {
      ResultsTelescope(c, items, start, w.replies, |l.results| - 1);
    }
    forall i | 0 <= i < |l.sent|
      ensures w.replies[i].Replied?
      ensures C.Evidence(DeltasAt(l, start, i), w.replies[i].output, c.preventDowngrade)
    {
      ResultsTelescope(c, items, start, w.replies, i);
      C.AcceptedMeansEvidence(DeltasAt(l, start, i), w.replies[i].output, c.preventDowngrade);
    }
  }

  // ---- No downgrade ----

  function VersionIn(inv: C.Inventory, name: string): Option<seq<nat>> {
    C.Parsed(C.Lookup(inv, name))
  }

  /** Each restore only changes objects its package names. */
  ghost predicate Local(l: Loop, start: C.Inventory) {
    forall i, name | 0 <= i < |l.inventories| && i < |l.sent| && name !in l.sent[i].expectedObjects ::
      C.Lookup(l.inventories[i], name) == C.Lookup(Before(start, l.inventories, i), name)
  }

  /** The object's version can be read at preflight and after every restore. */
  predicate Readable(l: Loop, start: C.Inventory, name: string) {
    && VersionIn(start, name).Some?
    && forall i | 0 <= i < |l.inventories| :: VersionIn(l.inventories[i], name).Some?
  }

  function VersionAt(l: Loop, start: C.Inventory, i: nat, name: string): seq<nat>
    requires i <= |l.inventories| && Readable(l, start, name)
  {
    VersionIn(Before(start, l.inventories, i), name).value
  }

  lemma StepKeepsVersion(l: Loop, start: C.Inventory, i: nat, name: string)
    requires Local(l, start) && i < |l.inventories| && i < |l.sent|
    requires !C.AnyOlder(DeltasAt(l, start, i))
    requires Readable(l, start, name)
    ensures V.Compare(VersionAt(l, start, i, name), VersionAt(l, start, i + 1, name)) <= 0
  {
    var before, after := VersionAt(l, start, i, name), VersionAt(l, start, i + 1, name);
    V.CompareLaws(before, after, []);
    if name in l.sent[i].expectedObjects {
      var k :| 0 <= k < |l.sent[i].expectedObjects| && l.sent[i].expectedObjects[k] == name;
      assert !C.Older(DeltasAt(l, start, i)[k]);
    } else {
      V.CompareLaws(before, before, []);
    }
  }

  lemma {:induction false} VersionsClimb(l: Loop, start: C.Inventory, n: nat, name: string)
    requires Local(l, start) && n <= |l.inventories| <= |l.sent| && Readable(l, start, name)
    requires forall i | 0 <= i < n :: !C.AnyOlder(DeltasAt(l, start, i))
    ensures V.Compare(VersionAt(l, start, 0, name), VersionAt(l, start, n, name)) <= 0
  {
    var first := VersionAt(l, start, 0, name);
    if n == 0 {
      V.CompareLaws(first, first, []);
    } else {
      VersionsClimb(l, start, n - 1, name);
      StepKeepsVersion(l, start, n - 1, name);
      V.CompareLaws(first, VersionAt(l, start, n - 1, name), VersionAt(l, start, n, name));
    }
  }

  /** With prevent_downgrade and an accepted run whose restores are local, no object whose version
      stays readable ends older than at preflight. */
  lemma NoDowngrade(c: Config, manifestId: string, archive: string, w: World, name: string)
    requires c.preventDowngrade
    requires
      var run := ApplySpec(c, manifestId, archive, w);
      run.outcome.Some? && run.outcome.value != OverallFailed
    requires w.manifestFile.Some? && w.preflight.Some?
    requires Local(LoopOf(c, w), w.preflight.value.versions)
    requires Readable(LoopOf(c, w), w.preflight.value.versions, name)
    ensures
      var l, start := LoopOf(c, w), w.preflight.value.versions;
      V.Compare(VersionAt(l, start, 0, name), VersionAt(l, start, |l.inventories|, name)) <= 0
  {
    AcceptedRunIsComplete(c, manifestId, archive, w);
    var l, start := LoopOf(c, w), w.preflight.value.versions;
    VersionsClimb(l, start, |l.inventories|, name);
  }
}
