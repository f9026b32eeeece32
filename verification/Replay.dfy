/** What replaying the durable comment history guarantees (docs/approval-model.md, lines 39-50):
    totality, order-blindness, idempotence, recovery from dropped runs, and the harmlessness of
    every command that was only marked processed.
 */
module Replay {
  import opened Wrappers
  import opened Approval
  import opened Reconcile

  /** The record after one comment; `StepIsTotal` shows the failure branch is never taken. */
  function Advance(r: Record, c: Comment, env: Env): Record {
    if c.id in r.processed then r
    else
      match StepRecord(r, c, env)
      case Success((updated, _)) => updated
      case Failure(_) => r
  }

  function ReplayAll(r: Record, cs: seq<Comment>, env: Env): Record
    decreases |cs|
  {
    if cs == [] then r else ReplayAll(Advance(r, cs[0], env), cs[1..], env)
  }

  /** The comment changes the decision, rather than only being recorded. */
  predicate Mutates(r: Record, c: Comment, env: Env) {
    && c.id !in r.processed
    && c.association in env.associations
    && ParseCommand(c.body).Success?
    && ApplyCommand(r, ParseCommand(c.body).value, c.id, c.author, c.createdAt, env.now).Mutated?
  }

  // ---- One comment ----

  lemma StepIsTotal(r: Record, c: Comment, env: Env)
    requires Valid(r)
    ensures StepRecord(r, c, env).Success?
  {
  }

  lemma AdvanceFacts(r: Record, c: Comment, env: Env)
    requires Valid(r)
    ensures
      var q := Advance(r, c, env);
      && Valid(q)
      && q.binding == r.binding && q.lastReminded == r.lastReminded && q.reminderCount == r.reminderCount
      && (c.id in r.processed ==> q == r)
      && (c.id !in r.processed ==>
            && q.processed == r.processed + [c.id]
            && q.revision == r.revision + 1
            && q.updatedAt == Max(c.createdAt, r.updatedAt))
      && (!Mutates(r, c, env) ==> q.decision == r.decision)
  {
  }

  // ---- The whole loop ----

  predicate Covers(r: Record, cs: seq<Comment>) {
    forall c | c in cs :: c.id in r.processed
  }

  /** The loop never fails on a valid record, and reports a change exactly when some command was new. */
  lemma {:induction false} FoldIsReplay(p: Progress, cs: seq<Comment>, env: Env)
    requires Valid(p.record)
    ensures
      var f := Fold(p, cs, env);
      && f.Success?
      && f.value.record == ReplayAll(p.record, cs, env)
      && Valid(f.value.record)
      && (f.value.changed <==> p.changed || !Covers(p.record, cs))
      && |f.value.messages| - |p.messages| == f.value.record.revision - p.record.revision
    decreases |cs|
  {
    if cs != [] {
      var c := cs[0];
      AdvanceFacts(p.record, c, env);
      StepIsTotal(p.record, c, env);
      var q := Handle(p, c, env).value;
      FoldIsReplay(q, cs[1..], env);
      assert cs == [c] + cs[1..];
    }
  }

  lemma {:induction false} ReplayConcat(r: Record, a: seq<Comment>, b: seq<Comment>, env: Env)
    ensures ReplayAll(r, a + b, env) == ReplayAll(ReplayAll(r, a, env), b, env)
    decreases |a|
  {
    if a == [] {
      assert a + b == b;
    } else {
      assert (a + b)[0] == a[0] && (a + b)[1..] == a[1..] + b;
      ReplayConcat(Advance(r, a[0], env), a[1..], b, env);
    }
  }

  lemma {:induction false} ReplaySkips(r: Record, cs: seq<Comment>, env: Env)
    requires Covers(r, cs)
    ensures ReplayAll(r, cs, env) == r
    decreases |cs|
  {
    if cs != [] {
      assert cs[0] in cs;
      ReplaySkips(r, cs[1..], env);
    }
  }

  predicate DuplicateFree(ids: seq<int>) {
    forall i, j | 0 <= i < j < |ids| :: ids[i] != ids[j]
  }

  /** `t` is the later of `bound` and the newest of the newly handled creation times. */
  ghost predicate IsLatest(t: int, bound: int, r: Record, cs: seq<Comment>) {
    && bound <= t
    && (forall c | c in cs && c.id !in r.processed :: c.createdAt <= t)
    && (t == bound || exists c :: c in cs && c.id !in r.processed && c.createdAt == t)
  }

  lemma {:induction false} ReplayFacts(r: Record, cs: seq<Comment>, env: Env)
    requires Valid(r)
    ensures
      var q := ReplayAll(r, cs, env);
      && Valid(q)
      && q.binding == r.binding && q.lastReminded == r.lastReminded && q.reminderCount == r.reminderCount
      && r.processed <= q.processed
      && q.revision - |q.processed| == r.revision - |r.processed|
      && Covers(q, cs)
      && (DuplicateFree(r.processed) ==> DuplicateFree(q.processed))
      && (forall id | id in q.processed :: id in r.processed || exists c :: c in cs && c.id == id)
      && r.updatedAt <= q.updatedAt
    decreases |cs|
  {
    if cs != [] {
      AdvanceFacts(r, cs[0], env);
      ReplayFacts(Advance(r, cs[0], env), cs[1..], env);
      assert cs == [cs[0]] + cs[1..];
      assert cs[0].id in Advance(r, cs[0], env).processed;
      assert forall id | id in Advance(r, cs[0], env).processed :: id in ReplayAll(r, cs, env).processed;
    }
  }

  lemma NewInTail(r: Record, q: Record, cs: seq<Comment>)
    requires cs != [] && UniqueIds(cs)
    requires q.processed == if cs[0].id in r.processed then r.processed else r.processed + [cs[0].id]
    ensures forall x | x in cs[1..] :: x.id in q.processed <==> x.id in r.processed
  {
    forall x | x in cs[1..] ensures x.id != cs[0].id {
      var k :| 0 <= k < |cs[1..]| && cs[1..][k] == x;
      assert cs[k + 1] == x;
    }
  }

  lemma LatestStep(t: int, r: Record, q: Record, cs: seq<Comment>)
    requires cs != [] && IsLatest(t, q.updatedAt, q, cs[1..])
    requires forall x | x in cs[1..] :: x.id in q.processed <==> x.id in r.processed
    requires q.updatedAt == if cs[0].id in r.processed then r.updatedAt else Max(cs[0].createdAt, r.updatedAt)
    ensures IsLatest(t, r.updatedAt, r, cs)
  {
    assert cs == [cs[0]] + cs[1..];
    assert cs[0] in cs;
  }

  lemma {:induction false} ReplayClock(r: Record, cs: seq<Comment>, env: Env)
    requires Valid(r) && UniqueIds(cs)
    ensures IsLatest(ReplayAll(r, cs, env).updatedAt, r.updatedAt, r, cs)
    decreases |cs|
  {
    if cs != [] {
      var q := Advance(r, cs[0], env);
      AdvanceFacts(r, cs[0], env);
      TailFacts(cs);
      ReplayClock(q, cs[1..], env);
      NewInTail(r, q, cs);
      LatestStep(ReplayAll(q, cs[1..], env).updatedAt, r, q, cs);
    }
  }

  // ---- Main results about one reconcile call ----

  /** The reconciled record (`ReconcileIsTotal`: the call never fails on a valid record). */
  function Reconciled(r: Record, comments: seq<Comment>, env: Env): Record {
    match ReconcileSpec(r, comments, env)
    case Success(p) => p.record
    case Failure(_) => r
  }

  /** A valid record and any comments: no exception escapes, the result is valid, every `/fg `
      comment ends up processed, processed ids only grow, and every handled command costs one
      revision and one message. */
  lemma ReconcileIsTotal(r: Record, comments: seq<Comment>, env: Env)
    requires Valid(r)
    ensures
      var f := ReconcileSpec(r, comments, env);
      && f.Success?
      && f.value.record == Reconciled(r, comments, env) == ReplayAll(r, History(comments), env)
      && Valid(f.value.record)
      && f.value.record.binding == r.binding
      && (forall c | c in comments && IsCommand(c) :: c.id in f.value.record.processed)
      && (forall id | id in f.value.record.processed ::
            id in r.processed || exists c :: c in comments && IsCommand(c) && c.id == id)
      && r.processed <= f.value.record.processed
      && (DuplicateFree(r.processed) ==> DuplicateFree(f.value.record.processed))
      && |f.value.messages| == f.value.record.revision - r.revision
           == |f.value.record.processed| - |r.processed|
      && (f.value.changed <==> f.value.record.processed != r.processed)
  {
    var h := History(comments);
    FoldIsReplay(Progress(r, false, []), h, env);
    ReplayFacts(r, h, env);
    HistoryMembers(comments);
    if Covers(r, h) {
      ReplaySkips(r, h, env);
    }
  }

  lemma HistoryMembers(comments: seq<Comment>)
    ensures forall c :: c in History(comments) <==> c in comments && IsCommand(c)
  {
    FilterFacts(IsCommand, comments);
    SortFacts(Commands(comments));
    forall c ensures c in History(comments) <==> c in comments && IsCommand(c) {
      SameElements(History(comments), Commands(comments), c);
    }
  }

  lemma ReconcileClock(r: Record, comments: seq<Comment>, env: Env)
    requires Valid(r) && UniqueIds(comments)
    ensures IsLatest(Reconciled(r, comments, env).updatedAt, r.updatedAt, r, History(comments))
  {
    HistoryFacts(comments);
    FoldIsReplay(Progress(r, false, []), History(comments), env);
    ReplayClock(r, History(comments), env);
  }

  /** The order in which the comments arrive is irrelevant: record, flag and messages agree. */
  lemma ReconcileIsOrderBlind(r: Record, a: seq<Comment>, b: seq<Comment>, env: Env)
    requires multiset(a) == multiset(b) && UniqueIds(a)
    ensures ReconcileSpec(r, a, env) == ReconcileSpec(r, b, env)
  {
    FilterMultiset(IsCommand, a, b);
    SortFacts(Commands(a));
    SortFacts(Commands(b));
    HistoryFacts(a);
    SortedIsUnique(History(a), History(b));
  }

  /** A second run over the same comments, at any time and with any association list, is a no-op. */
  lemma ReconcileIsIdempotent(r: Record, comments: seq<Comment>, first: Env, second: Env)
    requires Valid(r)
    ensures
      var once := Reconciled(r, comments, first);
      ReconcileSpec(once, comments, second) == Success(Progress(once, false, []))
  {
    ReconcileIsTotal(r, comments, first);
    var once := Reconciled(r, comments, first);
    ReplayFacts(r, History(comments), first);
    FoldSkips(Progress(once, false, []), History(comments), second);
  }

  lemma {:induction false} FoldSkips(p: Progress, cs: seq<Comment>, env: Env)
    requires Covers(p.record, cs)
    ensures Fold(p, cs, env) == Success(p)
    decreases |cs|
  {
    if cs != [] {
      assert cs[0] in cs;
      FoldSkips(p, cs[1..], env);
    }
  }

  // ---- Recovery by replay ----

  datatype Cut = Cut(time: int, id: int)

  function UpTo(cut: Cut): Comment -> bool {
    (c: Comment) => c.createdAt < cut.time || (c.createdAt == cut.time && c.id <= cut.id)
  }

  function Part(comments: seq<Comment>, cut: Cut): seq<Comment> {
    Filter(UpTo(cut), comments)
  }

  lemma {:induction false} NothingKept(keep: Comment -> bool, s: seq<Comment>)
    requires forall x | x in s :: !keep(x)
    ensures Filter(keep, s) == []
  {
    if s != [] {
      NothingKept(keep, s[1..]);
    }
  }

  lemma {:induction false} CutIsPrefix(h: seq<Comment>, cut: Cut) returns (k: nat)
    requires Sorted(h)
    ensures k <= |h| && Part(h, cut) == h[..k]
  {
    if h == [] {
      k := 0;
    } else if UpTo(cut)(h[0]) {
      TailFacts(h);
      var j := CutIsPrefix(h[1..], cut);
      k := j + 1;
      assert h[..k] == [h[0]] + h[1..][..j];
    } else {
      k := 0;
      forall x | x in h ensures !UpTo(cut)(x) {
        var i :| 0 <= i < |h| && h[i] == x;
        assert i == 0 || KeyLeq(h[0], h[i]);
      }
      NothingKept(UpTo(cut), h);
    }
  }

  /** Replaying one prefix after another amounts to replaying the longer of the two. */
  lemma ReplayPrefixes(r: Record, h: seq<Comment>, k: nat, j: nat, env: Env)
    requires Valid(r) && k <= |h| && j <= |h|
    ensures ReplayAll(ReplayAll(r, h[..k], env), h[..j], env) == ReplayAll(r, h[..if j < k then k else j], env)
  {
    var q := ReplayAll(r, h[..k], env);
    ReplayFacts(r, h[..k], env);
    if j < k {
      assert forall c | c in h[..j] :: c in h[..k];
      ReplaySkips(q, h[..j], env);
    } else {
      assert h[..j] == h[..k] + h[k..j];
      ReplaySkips(q, h[..k], env);
      ReplayConcat(q, h[..k], h[k..j], env);
      ReplayConcat(r, h[..k], h[k..j], env);
    }
  }

  // ---- What the time of a run decides ----

  /** The comment reaches the checks that look at the clock. */
  predicate Heard(r: Record, c: Comment, env: Env) {
    && c.association in env.associations && ParseCommand(c.body).Success?
    && IsApprover(r.binding, c.author) && r.updatedAt <= c.createdAt
  }

  predicate Live(s: State) {
    !Final(s) && s != Approved
  }

  /** The clock matters only on the two sides of the deadline and, for a live record, of the scheduled time. */
  predicate SameTiming(r: Record, cmd: Command, now: int, other: int) {
    && (now < r.binding.expiresAt <==> other < r.binding.expiresAt)
    && (cmd.Schedule? && now < r.binding.expiresAt && Live(r.decision.state) ==>
          (now < cmd.executeAt <==> other < cmd.executeAt))
  }

  /** Two runs decide the comment alike: it is known already, or the same associations are allowed and, if
      it is heard, both runs are on one side of the deadline and of the time it asks to schedule. */
  predicate SameVerdict(r: Record, c: Comment, e: Env, f: Env) {
    c.id in r.processed
    || (&& (c.association in e.associations <==> c.association in f.associations)
        && (Heard(r, c, e) ==> SameTiming(r, ParseCommand(c.body).value, e.now, f.now)))
  }

  lemma CommandAgrees(r: Record, cmd: Command, id: int, actor: string, at: int, now: int, other: int)
    requires Valid(r) && IsApprover(r.binding, actor) && id !in r.processed && r.updatedAt <= at
    ensures ApplyCommand(r, cmd, id, actor, at, now) == ApplyCommand(r, cmd, id, actor, at, other)
       <==> SameTiming(r, cmd, now, other)
  {
  }

  /** The note a heard command leaves tells its outcome. */
  function NoteOf(id: int, o: Outcome): Reason {
    match o
    case Mutated(record) => record.reason
    case Unchanged(note) => note
    case Refused(why) => CommandRejected(id, why)
  }

  lemma HeardNote(r: Record, c: Comment, env: Env)
    requires Valid(r) && c.id !in r.processed && Heard(r, c, env)
    ensures
      var o := ApplyCommand(r, ParseCommand(c.body).value, c.id, c.author, c.createdAt, env.now);
      Advance(r, c, env).reason == NoteOf(c.id, o) && (o.Mutated? ==> Advance(r, c, env) == o.record)
  {
    StepIsTotal(r, c, env);
  }

  lemma NotesDiffer(r: Record, cmd: Command, id: int, actor: string, at: int, now: int, other: int)
    requires Valid(r) && IsApprover(r.binding, actor) && id !in r.processed && r.updatedAt <= at
    requires !SameTiming(r, cmd, now, other)
    ensures NoteOf(id, ApplyCommand(r, cmd, id, actor, at, now)) != NoteOf(id, ApplyCommand(r, cmd, id, actor, at, other))
  {
  }

  lemma HeardAgrees(r: Record, c: Comment, e: Env, f: Env)
    requires Valid(r) && c.id !in r.processed && Heard(r, c, e) && Heard(r, c, f)
    ensures Advance(r, c, e) == Advance(r, c, f) <==> SameTiming(r, ParseCommand(c.body).value, e.now, f.now)
  {
    var cmd := ParseCommand(c.body).value;
    CommandAgrees(r, cmd, c.id, c.author, c.createdAt, e.now, f.now);
    HeardNote(r, c, e);
    HeardNote(r, c, f);
    if !SameTiming(r, cmd, e.now, f.now) {
      NotesDiffer(r, cmd, c.id, c.author, c.createdAt, e.now, f.now);
    }
  }

  /** Why a comment with an allowed association is not heard. */
  function HearingRefusal(r: Record, c: Comment): Refusal {
    match ParseCommand(c.body)
    case Failure(why) => why
    case Success(_) => if !IsApprover(r.binding, c.author) then NotAnApprover(c.author) else Stale
  }

  /** Without a hearing the clock plays no part. */
  lemma UnheardNote(r: Record, c: Comment, env: Env)
    requires Valid(r) && c.id !in r.processed
    ensures c.association !in env.associations ==>
              Advance(r, c, env) == MarkProcessed(r, c.id, Named(c.author), c.createdAt, UnauthorizedAssociation(c.id)).value
    ensures c.association in env.associations && !Heard(r, c, env) ==>
              Advance(r, c, env) == MarkProcessed(r, c.id, Named(c.author), c.createdAt,
                                                  CommandRejected(c.id, HearingRefusal(r, c))).value
  {
  }

  lemma UnheardAgrees(r: Record, c: Comment, e: Env, f: Env)
    requires Valid(r) && c.id !in r.processed && !(Heard(r, c, e) && Heard(r, c, f))
    ensures Advance(r, c, e) == Advance(r, c, f) <==> (c.association in e.associations <==> c.association in f.associations)
  {
    UnheardNote(r, c, e);
    UnheardNote(r, c, f);
    if c.association !in e.associations && c.association in f.associations && Heard(r, c, f) {
      HeardNote(r, c, f);
    }
    if c.association !in f.associations && c.association in e.associations && Heard(r, c, e) {
      HeardNote(r, c, e);
    }
  }

  /** Two runs leave the same record exactly when they decide the comment alike. */
  lemma AdvanceAgrees(r: Record, c: Comment, e: Env, f: Env)
    requires Valid(r)
    ensures Advance(r, c, e) == Advance(r, c, f) <==> SameVerdict(r, c, e, f)
  {
    if c.id !in r.processed {
      if Heard(r, c, e) && Heard(r, c, f) {
        HeardAgrees(r, c, e, f);
      } else {
        UnheardAgrees(r, c, e, f);
      }
    }
  }

  /** No comment of the history is decided differently. */
  predicate Agree(r: Record, cs: seq<Comment>, e: Env, f: Env)
    decreases |cs|
  {
    cs == [] || (SameVerdict(r, cs[0], e, f) && Agree(Advance(r, cs[0], f), cs[1..], e, f))
  }

  lemma ReplayHead(r: Record, cs: seq<Comment>, k: nat, env: Env)
    requires k < |cs|
    ensures ReplayAll(r, cs[..k + 1], env) == ReplayAll(Advance(r, cs[0], env), cs[1..][..k], env)
  {
    assert cs[..k + 1][1..] == cs[1..][..k];
  }

  lemma {:induction false} AgreementReplays(r: Record, cs: seq<Comment>, e: Env, f: Env, k: nat)
    requires Valid(r) && Agree(r, cs, e, f) && k <= |cs|
    ensures ReplayAll(r, cs[..k], e) == ReplayAll(r, cs[..k], f)
    decreases |cs|
  {
    if k > 0 {
      AdvanceAgrees(r, cs[0], e, f);
      AdvanceFacts(r, cs[0], f);
      AgreementReplays(Advance(r, cs[0], f), cs[1..], e, f, k - 1);
      ReplayHead(r, cs, k - 1, e);
      ReplayHead(r, cs, k - 1, f);
    }
  }

  lemma {:induction false} EqualReplaysAgree(r: Record, cs: seq<Comment>, e: Env, f: Env)
    requires Valid(r) && forall k | 0 <= k <= |cs| :: ReplayAll(r, cs[..k], e) == ReplayAll(r, cs[..k], f)
    ensures Agree(r, cs, e, f)
    decreases |cs|
  {
    if cs != [] {
      var next := Advance(r, cs[0], f);
      ReplayHead(r, cs, 0, e);
      ReplayHead(r, cs, 0, f);
      assert cs[1..][..0] == [];
      AdvanceAgrees(r, cs[0], e, f);
      AdvanceFacts(r, cs[0], f);
      forall k | 0 <= k <= |cs[1..]| ensures ReplayAll(next, cs[1..][..k], e) == ReplayAll(next, cs[1..][..k], f) {
        ReplayHead(r, cs, k, e);
        ReplayHead(r, cs, k, f);
        assert ReplayAll(r, cs[..k + 1], e) == ReplayAll(r, cs[..k + 1], f);
      }
      EqualReplaysAgree(next, cs[1..], e, f);
    }
  }

  /** Both clocks are on one side of the deadline and of every time the comments ask to schedule. */
  predicate SameSide(b: Binding, cs: seq<Comment>, e: Env, f: Env) {
    && e.associations == f.associations
    && (e.now < b.expiresAt <==> f.now < b.expiresAt)
    && forall c | c in cs && ParseCommand(c.body).Success? && ParseCommand(c.body).value.Schedule? ::
         e.now < ParseCommand(c.body).value.executeAt <==> f.now < ParseCommand(c.body).value.executeAt
  }

  /** What can be seen before the runs: clocks on the same sides decide everything alike. */
  lemma {:induction false} SameSideAgrees(r: Record, cs: seq<Comment>, e: Env, f: Env)
    requires Valid(r) && SameSide(r.binding, cs, e, f)
    ensures Agree(r, cs, e, f)
    decreases |cs|
  {
    if cs != [] {
      AdvanceFacts(r, cs[0], f);
      assert cs == [cs[0]] + cs[1..];
      SameSideAgrees(Advance(r, cs[0], f), cs[1..], e, f);
    }
  }

  // ---- Runs on partial histories, each at its own time ----

  datatype PartialRun = PartialRun(cut: Cut, env: Env)

  /** A series of runs, each of which only saw the history up to some point. */
  function PartialRuns(r: Record, comments: seq<Comment>, runs: seq<PartialRun>): Record
    decreases |runs|
  {
    if runs == [] then r
    else PartialRuns(Reconciled(r, Part(comments, runs[0].cut), runs[0].env), comments, runs[1..])
  }

  lemma PartialRunReplays(r: Record, comments: seq<Comment>, run: PartialRun) returns (j: nat)
    requires Valid(r) && UniqueIds(comments)
    ensures j <= |History(comments)|
    ensures Part(History(comments), run.cut) == History(comments)[..j]
    ensures Reconciled(r, Part(comments, run.cut), run.env) == ReplayAll(r, History(comments)[..j], run.env)
  {
    HistoryFacts(comments);
    HistoryOfFilter(UpTo(run.cut), comments);
    j := CutIsPrefix(History(comments), run.cut);
    FoldIsReplay(Progress(r, false, []), History(comments)[..j], run.env);
  }

  lemma {:induction false} PartialRunsArePrefix(
    r: Record, start: Record, h: seq<Comment>, k: nat, comments: seq<Comment>, runs: seq<PartialRun>, env: Env)
    returns (m: nat)
    requires Valid(r) && UniqueIds(comments) && h == History(comments)
    requires forall i | 0 <= i < |runs| :: Agree(r, h, runs[i].env, env)
    requires k <= |h| && start == ReplayAll(r, h[..k], env)
    ensures m <= |h| && PartialRuns(start, comments, runs) == ReplayAll(r, h[..m], env)
    decreases |runs|
  {
    m := k;
    if runs != [] {
      var e := runs[0].env;
      ReplayFacts(r, h[..k], env);
      var j := PartialRunReplays(start, comments, runs[0]);
      var longer := if j < k then k else j;
      AgreementReplays(r, h, e, env, k);
      AgreementReplays(r, h, e, env, longer);
      ReplayPrefixes(r, h, k, j, e);
      m := PartialRunsArePrefix(r, ReplayAll(start, h[..j], e), h, longer, comments, runs[1..], env);
    }
  }

  /** Recovery: after any number of runs on partial histories, in any order, with repetitions and at
      times that decide no comment differently, one run over the complete history gives the record that
      a single run gives. */
  lemma DroppedRunsAreHarmless(r: Record, comments: seq<Comment>, runs: seq<PartialRun>, env: Env)
    requires Valid(r) && UniqueIds(comments)
    requires forall i | 0 <= i < |runs| :: Agree(r, History(comments), runs[i].env, env)
    ensures
      var before := PartialRuns(r, comments, runs);
      && Valid(before)
      && Reconciled(before, comments, env) == Reconciled(r, comments, env)
  {
    var h := History(comments);
    assert ReplayAll(r, h[..0], env) == r;
    var m := PartialRunsArePrefix(r, r, h, 0, comments, runs, env);
    var before := PartialRuns(r, comments, runs);
    ReplayFacts(r, h[..m], env);
    ReplayPrefixes(r, h, m, |h|, env);
    assert h[..|h|] == h;
    FoldIsReplay(Progress(before, false, []), h, env);
    FoldIsReplay(Progress(r, false, []), h, env);
  }

  /** The cut after the first `k` comments of a history. */
  function CutAt(h: seq<Comment>, k: nat): Cut
    requires k <= |h|
  {
    if k > 0 then Cut(h[k - 1].createdAt, h[k - 1].id)
    else if h == [] then Cut(0, 0)
    else Cut(h[0].createdAt - 1, 0)
  }

  /** The cut keeps the first `k` comments and no other. */
  lemma CutMembers(h: seq<Comment>, k: nat, i: nat)
    requires Sorted(h) && UniqueIds(h) && k <= |h| && i < |h|
    ensures UpTo(CutAt(h, k))(h[i]) <==> i < k
  {
    assert i < k - 1 ==> KeyLeq(h[i], h[k - 1]);
    assert 0 < k <= i ==> KeyLeq(h[k - 1], h[i]) && h[k - 1].id != h[i].id;
    assert 0 < i ==> KeyLeq(h[0], h[i]);
  }

  lemma CutAtIs(h: seq<Comment>, k: nat)
    requires Sorted(h) && UniqueIds(h) && k <= |h|
    ensures Part(h, CutAt(h, k)) == h[..k]
  {
    var cut := CutAt(h, k);
    var j := CutIsPrefix(h, cut);
    FilterFacts(UpTo(cut), h);
    if j > 0 {
      CutMembers(h, k, j - 1);
      assert h[..j][j - 1] in Part(h, cut);
    }
    if k > 0 {
      CutMembers(h, k, k - 1);
      assert h[k - 1] in Part(h, cut);
      var i :| 0 <= i < j && h[..j][i] == h[k - 1];
      assert h[i].id == h[k - 1].id;
    }
  }

  /** A run at another time is harmless wherever the history is cut, exactly when no comment is decided
      differently. */
  lemma RecoveryNeedsAgreement(r: Record, comments: seq<Comment>, e: Env, f: Env)
    requires Valid(r) && UniqueIds(comments)
    ensures Agree(r, History(comments), e, f) <==>
      forall cut: Cut ::
        Reconciled(PartialRuns(r, comments, [PartialRun(cut, e)]), Part(comments, cut), f)
        == Reconciled(r, Part(comments, cut), f)
  {
    var h := History(comments);
    HistoryFacts(comments);
    forall cut: Cut
      ensures PartialRuns(r, comments, [PartialRun(cut, e)]) == Reconciled(r, Part(comments, cut), e)
      ensures Reconciled(Reconciled(r, Part(comments, cut), e), Part(comments, cut), f) == Reconciled(r, Part(comments, cut), e)
      ensures exists j: nat :: j <= |h| && Part(h, cut) == h[..j]
                               && Reconciled(r, Part(comments, cut), e) == ReplayAll(r, h[..j], e)
                               && Reconciled(r, Part(comments, cut), f) == ReplayAll(r, h[..j], f)
    {
      assert [PartialRun(cut, e)][1..] == [];
      ReconcileIsIdempotent(r, Part(comments, cut), e, f);
      var j := PartialRunReplays(r, comments, PartialRun(cut, e));
      var i := PartialRunReplays(r, comments, PartialRun(cut, f));
      assert |h[..j]| == j && |h[..i]| == i;
    }
    if Agree(r, h, e, f) {
      forall k: nat | k <= |h| ensures ReplayAll(r, h[..k], e) == ReplayAll(r, h[..k], f) {
        AgreementReplays(r, h, e, f, k);
      }
    }
    if forall cut: Cut :: Reconciled(r, Part(comments, cut), e) == Reconciled(r, Part(comments, cut), f) {
      forall k | 0 <= k <= |h| ensures ReplayAll(r, h[..k], e) == ReplayAll(r, h[..k], f) {
        CutAtIs(h, k);
        var j: nat :| j <= |h| && Part(h, CutAt(h, k)) == h[..j]
                      && Reconciled(r, Part(comments, CutAt(h, k)), e) == ReplayAll(r, h[..j], e)
                      && Reconciled(r, Part(comments, CutAt(h, k)), f) == ReplayAll(r, h[..j], f);
        assert |h[..j]| == |h[..k]|;
      }
      EqualReplaysAgree(r, h, e, f);
    }
  }

  lemma SingleComment(r: Record, c: Comment, env: Env)
    requires Valid(r) && IsCommand(c)
    ensures Reconciled(r, [c], env) == Advance(r, c, env)
    ensures Part([c], Cut(c.createdAt, c.id)) == [c]
  {
    ReconcileIsTotal(r, [c], env);
    assert [c] == [c] + [] && [c][1..] == [];
    FilterCons(IsCommand, c, []);
    FilterCons(UpTo(Cut(c.createdAt, c.id)), c, []);
    assert SortComments([c]) == Insert(c, SortComments([])) == [c];
    assert ReplayAll(r, [c], env) == ReplayAll(Advance(r, c, env), [], env);
  }

  lemma OnePartialRun(r: Record, c: Comment, env: Env, later: Env)
    requires Valid(r) && IsCommand(c)
    ensures
      var before := PartialRuns(r, [c], [PartialRun(Cut(c.createdAt, c.id), env)]);
      before == Advance(r, c, env) && Reconciled(before, [c], later) == before
  {
    SingleComment(r, c, env);
    AdvanceFacts(r, c, env);
    SingleComment(Advance(r, c, env), c, later);
    var run := PartialRun(Cut(c.createdAt, c.id), env);
    assert PartialRuns(r, [c], [run]) == PartialRuns(Advance(r, c, env), [c], [run][1..]);
  }

  lemma ApprovalDecided(r: Record, c: Comment, env: Env)
    requires Valid(r) && r.decision.state == AwaitingApproval && c.id !in r.processed
    requires c.body == Typed(VApprove, Absent) && Heard(r, c, env)
    ensures Advance(r, c, env).decision.state == if env.now < r.binding.expiresAt then Approved else Expired
  {
    HeardNote(r, c, env);
  }

  /** Across the deadline a dropped run does matter: an approval handled in time stays APPROVED, handled
      late it expires the record. */
  lemma DroppedRunAcrossDeadline(r: Record, c: Comment, early: Env, late: Env)
    requires Valid(r) && r.decision.state == AwaitingApproval && c.id !in r.processed
    requires c.body == Typed(VApprove, Absent) && IsApprover(r.binding, c.author) && r.updatedAt <= c.createdAt
    requires c.association in early.associations && c.association in late.associations
    requires early.now < r.binding.expiresAt <= late.now
    ensures
      var before := PartialRuns(r, [c], [PartialRun(Cut(c.createdAt, c.id), early)]);
      && Reconciled(before, [c], late).decision.state == Approved
      && Reconciled(r, [c], late).decision.state == Expired
  {
    OnePartialRun(r, c, early, late);
    SingleComment(r, c, late);
    ApprovalDecided(r, c, early);
    ApprovalDecided(r, c, late);
  }

  // ---- What no clock can change ----

  /** Everything of a record but the decision and the last note. */
  predicate SameLedger(r: Record, q: Record) {
    r.binding == q.binding && r.processed == q.processed && r.revision == q.revision && r.updatedAt == q.updatedAt
  }

  lemma {:induction false} ReplayKeepsLedger(r: Record, q: Record, cs: seq<Comment>, e: Env, f: Env)
    requires Valid(r) && Valid(q) && SameLedger(r, q)
    ensures SameLedger(ReplayAll(r, cs, e), ReplayAll(q, cs, f))
    decreases |cs|
  {
    if cs != [] {
      AdvanceFacts(r, cs[0], e);
      AdvanceFacts(q, cs[0], f);
      ReplayKeepsLedger(Advance(r, cs[0], e), Advance(q, cs[0], f), cs[1..], e, f);
    }
  }

  lemma {:induction false} PartialRunsKeepLedger(
    r: Record, start: Record, h: seq<Comment>, k: nat, comments: seq<Comment>, runs: seq<PartialRun>, env: Env)
    returns (m: nat)
    requires Valid(r) && Valid(start) && UniqueIds(comments) && h == History(comments)
    requires k <= |h| && SameLedger(start, ReplayAll(r, h[..k], env))
    ensures m <= |h| && SameLedger(PartialRuns(start, comments, runs), ReplayAll(r, h[..m], env))
    ensures Valid(PartialRuns(start, comments, runs))
    decreases |runs|
  {
    m := k;
    if runs != [] {
      ReplayFacts(r, h[..k], env);
      var j := PartialRunReplays(start, comments, runs[0]);
      ReplayKeepsLedger(start, ReplayAll(r, h[..k], env), h[..j], runs[0].env, env);
      ReplayPrefixes(r, h, k, j, env);
      ReplayFacts(start, h[..j], runs[0].env);
      m := PartialRunsKeepLedger(r, ReplayAll(start, h[..j], runs[0].env), h, if j < k then k else j, comments,
                                 runs[1..], env);
    }
  }

  /** Whatever the times and association lists of the partial runs, the processed ids, the revision and
      updated_at end as in a single run. */
  lemma DroppedRunsKeepLedger(r: Record, comments: seq<Comment>, runs: seq<PartialRun>, env: Env)
    requires Valid(r) && UniqueIds(comments)
    ensures SameLedger(Reconciled(PartialRuns(r, comments, runs), comments, env), Reconciled(r, comments, env))
  {
    var h := History(comments);
    assert ReplayAll(r, h[..0], env) == r;
    var m := PartialRunsKeepLedger(r, r, h, 0, comments, runs, env);
    var before := PartialRuns(r, comments, runs);
    ReplayFacts(r, h[..m], env);
    ReplayKeepsLedger(before, ReplayAll(r, h[..m], env), h, env, env);
    ReplayPrefixes(r, h, m, |h|, env);
    assert h[..|h|] == h;
    FoldIsReplay(Progress(before, false, []), h, env);
    FoldIsReplay(Progress(r, false, []), h, env);
  }

  // ---- Erasing commands that had no effect ----

  /** Ids of the comments of the history that were skipped or only marked processed. */
  function MarkedOnly(r: Record, cs: seq<Comment>, env: Env): set<int>
    decreases |cs|
  {
    if cs == [] then {}
    else (if Mutates(r, cs[0], env) then {} else {cs[0].id}) + MarkedOnly(Advance(r, cs[0], env), cs[1..], env)
  }

  function Outside(ids: set<int>): Comment -> bool {
    (c: Comment) => c.id !in ids
  }

  /** The two records decide alike on every comment of `cs`: clocks and logs may differ. */
  ghost predicate Similar(r: Record, q: Record, cs: seq<Comment>) {
    && Valid(r) && Valid(q)
    && r.binding == q.binding
    && r.decision == q.decision
    && (forall c | c in cs :: c.createdAt < r.updatedAt <==> c.createdAt < q.updatedAt)
    && (forall c | c in cs :: c.id in r.processed <==> c.id in q.processed)
  }

  lemma SimilarCommand(r: Record, q: Record, cmd: Command, id: int, actor: string, at: int, now: int)
    requires Valid(r) && Valid(q) && r.binding == q.binding && r.decision == q.decision
    requires at < r.updatedAt <==> at < q.updatedAt
    requires id in r.processed <==> id in q.processed
    ensures
      var o, u := ApplyCommand(r, cmd, id, actor, at, now), ApplyCommand(q, cmd, id, actor, at, now);
      (o.Mutated? <==> u.Mutated?) && (o.Mutated? ==> o.record.decision == u.record.decision)
  {
  }

  lemma MutatesOrKeeps(r: Record, c: Comment, env: Env)
    requires Valid(r)
    ensures Advance(r, c, env).decision ==
            if Mutates(r, c, env)
            then ApplyCommand(r, ParseCommand(c.body).value, c.id, c.author, c.createdAt, env.now).record.decision
            else r.decision
  {
  }

  lemma SimilarVerdict(r: Record, q: Record, c: Comment, cs: seq<Comment>, env: Env)
    requires Similar(r, q, cs) && c in cs
    ensures Mutates(r, c, env) <==> Mutates(q, c, env)
    ensures Advance(r, c, env).decision == Advance(q, c, env).decision
  {
    if ParseCommand(c.body).Success? {
      SimilarCommand(r, q, ParseCommand(c.body).value, c.id, c.author, c.createdAt, env.now);
    }
    MutatesOrKeeps(r, c, env);
    MutatesOrKeeps(q, c, env);
  }

  /** Sorted histories: staleness of a later comment is not affected by an earlier one. */
  lemma StalenessIsInitial(c: Comment, d: Comment, t: int)
    requires KeyLeq(c, d)
    ensures d.createdAt < Max(c.createdAt, t) <==> d.createdAt < t
  {
  }

  lemma SimilarTail(r: Record, q: Record, r': Record, q': Record, cs: seq<Comment>, env: Env)
    requires cs != [] && Sorted(cs) && UniqueIds(cs) && Similar(r, q, cs)
    requires r' == Advance(r, cs[0], env)
    requires q' == Advance(q, cs[0], env) || (q' == q && !Mutates(r, cs[0], env))
    ensures Similar(r', q', cs[1..])
  {
    var c := cs[0];
    AdvanceFacts(r, c, env);
    AdvanceFacts(q, c, env);
    SimilarVerdict(r, q, c, cs, env);
    forall d | d in cs[1..]
      ensures d.createdAt < r'.updatedAt <==> d.createdAt < q'.updatedAt
      ensures d.id in r'.processed <==> d.id in q'.processed
    {
      var k :| 0 <= k < |cs[1..]| && cs[1..][k] == d;
      assert cs[k + 1] == d && KeyLeq(cs[0], cs[k + 1]);
      StalenessIsInitial(c, d, r.updatedAt);
      StalenessIsInitial(c, d, q.updatedAt);
    }
  }

  lemma {:induction false} ErasingKeepsDecision(r: Record, q: Record, cs: seq<Comment>, dropped: set<int>, env: Env)
    requires Sorted(cs) && UniqueIds(cs) && Similar(r, q, cs)
    requires forall c | c in cs && c.id in dropped :: c.id in MarkedOnly(r, cs, env)
    ensures ReplayAll(r, cs, env).decision == ReplayAll(q, Filter(Outside(dropped), cs), env).decision
    decreases |cs|
  {
    if cs != [] {
      var c, rest := cs[0], cs[1..];
      TailFacts(cs);
      var r' := Advance(r, c, env);
      MarkedIdsComeFromHistory(r', rest, env);
      forall x | x in rest ensures x.id != c.id && x in cs {
        var k :| 0 <= k < |rest| && rest[k] == x;
        assert cs[k + 1] == x;
      }
      assert c in cs;
      var kept := Filter(Outside(dropped), rest);
      if c.id in dropped {
        assert c.id !in MarkedOnly(r', rest, env);
        assert !Mutates(r, c, env);
        SimilarTail(r, q, r', q, cs, env);
        ErasingKeepsDecision(r', q, rest, dropped, env);
        assert Filter(Outside(dropped), cs) == kept;
      } else {
        var q' := Advance(q, c, env);
        SimilarTail(r, q, r', q', cs, env);
        ErasingKeepsDecision(r', q', rest, dropped, env);
        assert Filter(Outside(dropped), cs) == [c] + kept;
        assert ([c] + kept)[1..] == kept;
      }
    }
  }

  /** The comments that were only marked processed: each met a record whose decision it did not change. */
  lemma {:induction false} MarkedOnlyIs(r: Record, cs: seq<Comment>, env: Env, id: int)
    ensures id in MarkedOnly(r, cs, env) <==>
              exists k | 0 <= k < |cs| :: cs[k].id == id && !Mutates(ReplayAll(r, cs[..k], env), cs[k], env)
    decreases |cs|
  {
    if cs != [] {
      var next, rest := Advance(r, cs[0], env), cs[1..];
      MarkedOnlyIs(next, rest, env, id);
      assert cs[..0] == [];
      forall k | 0 <= k < |rest| ensures ReplayAll(r, cs[..k + 1], env) == ReplayAll(next, rest[..k], env) {
        ReplayHead(r, cs, k, env);
      }
      if k :| 0 <= k < |cs| && cs[k].id == id && !Mutates(ReplayAll(r, cs[..k], env), cs[k], env) {
        assert k > 0 ==> rest[k - 1] == cs[k];
      }
      if k :| 0 <= k < |rest| && rest[k].id == id && !Mutates(ReplayAll(next, rest[..k], env), rest[k], env) {
        assert cs[k + 1] == rest[k];
      }
    }
  }

  lemma {:induction false} MarkedIdsComeFromHistory(r: Record, cs: seq<Comment>, env: Env)
    ensures forall id | id in MarkedOnly(r, cs, env) :: exists c :: c in cs && c.id == id
    decreases |cs|
  {
    if cs != [] {
      MarkedIdsComeFromHistory(Advance(r, cs[0], env), cs[1..], env);
      assert cs == [cs[0]] + cs[1..];
    }
  }

  /** Deleting any comments that were only marked processed (unauthorised, malformed, stale, illegal
      in their state, or `status`) leaves state, approved packages, execution time and snooze alone. */
  lemma ErasingNoEffectComments(r: Record, comments: seq<Comment>, dropped: set<int>, env: Env)
    requires Valid(r) && UniqueIds(comments)
    requires dropped <= MarkedOnly(r, History(comments), env)
    ensures
      Reconciled(r, Filter(Outside(dropped), comments), env).decision == Reconciled(r, comments, env).decision
  {
    var h := History(comments);
    HistoryFacts(comments);
    HistoryOfFilter(Outside(dropped), comments);
    FoldIsReplay(Progress(r, false, []), h, env);
    FoldIsReplay(Progress(r, false, []), Filter(Outside(dropped), h), env);
    ErasingKeepsDecision(r, r, h, dropped, env);
  }
}
