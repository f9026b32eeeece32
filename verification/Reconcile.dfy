/** Replaying the durable comment history of an approval issue
    (`reconcile_comments`, src/fgops/approval_state.py, and `parse_approval_command`, src/fgops/approval.py).
 */
module Reconcile {
  import opened Wrappers
  import opened Approval

  datatype Verb = VApprove | VReject | VSnooze | VSchedule | VApplySafe | VStatus | VCancel

  datatype Instant = Instant(time: int, aware: bool)

  /** The argument text, with what the duration and timestamp parsers make of it. */
  datatype Argument = Absent | Given(text: string, duration: Option<int>, instant: Option<Instant>)

  /** `Prose` does not start with `/fg `; `Malformed` does, but the command grammar rejects it. */
  datatype Body = Prose | Malformed | Typed(verb: Verb, argument: Argument)

  datatype Comment = Comment(id: int, createdAt: int, author: string, association: string, body: Body)

  datatype Env = Env(now: int, associations: set<string>)

  function HasText(a: Argument): bool {
    a.Given? && a.text != ""
  }

  function ParseCommand(body: Body): Result<Command, Refusal> {
    if !body.Typed? then Failure(UnsupportedCommand)
    else
      var a := body.argument;
      match body.verb
      case VSnooze =>
        if HasText(a) && a.duration.Some? && 0 < a.duration.value
        then Success(Snooze(a.duration.value)) else Failure(BadArgument)
      case VSchedule =>
        if HasText(a) && a.instant.Some? && a.instant.value.aware
        then Success(Schedule(a.instant.value.time)) else Failure(BadArgument)
      case VReject => if HasText(a) then Success(Reject(Some(a.text))) else Failure(BadArgument)
      case VApprove => if HasText(a) then Failure(BadArgument) else Success(Approve)
      case VApplySafe => if HasText(a) then Failure(BadArgument) else Success(ApplySafe)
      case VStatus => if HasText(a) then Failure(BadArgument) else Success(Status)
      case VCancel => if HasText(a) then Failure(BadArgument) else Success(Cancel)
  }

  function Named(actor: string): string {
    if actor == "" then "unknown" else actor
  }

  // ---- Ordering the history ----

  predicate KeyLeq(a: Comment, b: Comment) {
    a.createdAt < b.createdAt || (a.createdAt == b.createdAt && a.id <= b.id)
  }

  function Insert(c: Comment, s: seq<Comment>): seq<Comment> {
    if s == [] || KeyLeq(c, s[0]) then [c] + s else [s[0]] + Insert(c, s[1..])
  }

  /** The stable sort by (created_at, id). */
  function SortComments(s: seq<Comment>): seq<Comment> {
    if s == [] then [] else Insert(s[0], SortComments(s[1..]))
  }

  function Filter(keep: Comment -> bool, s: seq<Comment>): seq<Comment> {
    if s == [] then []
    else (if keep(s[0]) then [s[0]] else []) + Filter(keep, s[1..])
  }

  function IsCommand(c: Comment): bool {
    c.body != Prose
  }

  function Commands(comments: seq<Comment>): seq<Comment> {
    Filter(IsCommand, comments)
  }

  function History(comments: seq<Comment>): seq<Comment> {
    SortComments(Commands(comments))
  }

  predicate Sorted(s: seq<Comment>) {
    forall i, j | 0 <= i < j < |s| :: KeyLeq(s[i], s[j])
  }

  predicate UniqueIds(s: seq<Comment>) {
    forall i, j | 0 <= i < j < |s| :: s[i].id != s[j].id
  }

  // ---- The replay loop ----

  /** Entries of the returned message list. */
  datatype Message = Plain(reason: Reason) | About(id: int, note: Reason)

  datatype Progress = Progress(record: Record, changed: bool, messages: seq<Message>)

  /** One unprocessed comment: the new record and the message it adds. */
  function StepRecord(r: Record, c: Comment, env: Env): Result<(Record, Message), Refusal> {
    if c.association !in env.associations then
      Rejection(r, c, UnauthorizedAssociation(c.id))
    else
      match ParseCommand(c.body)
      case Failure(why) => Rejection(r, c, CommandRejected(c.id, why))
      case Success(cmd) =>
        match ApplyCommand(r, cmd, c.id, c.author, c.createdAt, env.now)
        case Mutated(updated) => Success((updated, About(c.id, updated.reason)))
        case Unchanged(note) =>
          (match MarkProcessed(r, c.id, c.author, c.createdAt, note)
           case Failure(why) => Rejection(r, c, CommandRejected(c.id, why))
           case Success(marked) => Success((marked, About(c.id, note))))
        case Refused(why) => Rejection(r, c, CommandRejected(c.id, why))
  }

  /** Record a command that had no effect; a validation failure here escapes to the caller. */
  function Rejection(r: Record, c: Comment, reason: Reason): Result<(Record, Message), Refusal> {
    match MarkProcessed(r, c.id, Named(c.author), c.createdAt, reason)
    case Failure(why) => Failure(why)
    case Success(marked) => Success((marked, Plain(marked.reason)))
  }

  function Handle(p: Progress, c: Comment, env: Env): Result<Progress, Refusal> {
    if c.id in p.record.processed then Success(p)
    else
      match StepRecord(p.record, c, env)
      case Failure(why) => Failure(why)
      case Success((r, message)) => Success(Progress(r, true, p.messages + [message]))
  }

  function Fold(p: Progress, cs: seq<Comment>, env: Env): Result<Progress, Refusal>
    decreases |cs|
  {
    if cs == [] then Success(p)
    else
      match Handle(p, cs[0], env)
      case Failure(why) => Failure(why)
      case Success(q) => Fold(q, cs[1..], env)
  }

  function ReconcileSpec(r: Record, comments: seq<Comment>, env: Env): Result<Progress, Refusal> {
    if !Valid(r) then Failure(InvalidRecord)
    else Fold(Progress(r, false, []), History(comments), env)
  }

  method ReconcileComments(record: Record, comments: seq<Comment>, env: Env)
    returns (result: Result<Progress, Refusal>)
    ensures result == ReconcileSpec(record, comments, env)
  {
    if !Valid(record) {
      return Failure(InvalidRecord);
    }
    var normalized: seq<Comment> := [];
    for i := 0 to |comments|
      invariant normalized + Commands(comments[i..]) == Commands(comments)
    {
      if IsCommand(comments[i]) {
        normalized := normalized + [comments[i]];
      }
      assert comments[i..][1..] == comments[i + 1..];
    }
    assert comments[|comments|..] == [] && normalized + [] == normalized;
    assert normalized == Commands(comments);
    var ordered := SortComments(normalized);

    var current, changed, messages: seq<Message> := record, false, [];
    for i := 0 to |ordered|
      invariant Fold(Progress(current, changed, messages), ordered[i..], env)
             == Fold(Progress(record, false, []), ordered, env)
    {
      var c := ordered[i];
      assert ordered[i..][0] == c && ordered[i..][1..] == ordered[i + 1..];
      if c.id in current.processed {
        continue;
      }
      var handled := StepRecord(current, c, env);
      if handled.Failure? {
        return Failure(handled.error);
      }
      current, messages, changed := handled.value.0, messages + [handled.value.1], true;
    }
    result := Success(Progress(current, changed, messages));
  }

  // ---- Sorting facts ----

  lemma {:induction false} InsertPermutes(c: Comment, s: seq<Comment>)
    ensures multiset(Insert(c, s)) == multiset{c} + multiset(s)
  {
    if s != [] && !KeyLeq(c, s[0]) {
      InsertPermutes(c, s[1..]);
      assert s == [s[0]] + s[1..];
    }
  }

  lemma {:induction false} InsertOrders(c: Comment, s: seq<Comment>)
    requires Sorted(s)
    ensures Sorted(Insert(c, s))
  {
    if s != [] && !KeyLeq(c, s[0]) {
      InsertOrders(c, s[1..]);
      InsertPermutes(c, s[1..]);
      var t := Insert(c, s[1..]);
      forall x | x in t ensures KeyLeq(s[0], x) {
        assert x in multiset(t);
        if x != c {
          assert x in multiset(s[1..]);
          assert x in s[1..];
        }
      }
    }
  }

  lemma {:induction false} SortFacts(s: seq<Comment>)
    ensures multiset(SortComments(s)) == multiset(s)
    ensures Sorted(SortComments(s))
  {
    if s != [] {
      SortFacts(s[1..]);
      InsertPermutes(s[0], SortComments(s[1..]));
      InsertOrders(s[0], SortComments(s[1..]));
      assert s == [s[0]] + s[1..];
    }
  }

  lemma SameElements(s: seq<Comment>, t: seq<Comment>, x: Comment)
    requires multiset(s) == multiset(t)
    ensures x in s <==> x in t
  {
    assert x in s <==> x in multiset(s);
    assert x in t <==> x in multiset(t);
  }

  lemma UniqueIdsOfPermutation(s: seq<Comment>, t: seq<Comment>)
    requires multiset(s) == multiset(t) && UniqueIds(s)
    ensures UniqueIds(t)
  {
    forall i, j | 0 <= i < j < |t| ensures t[i].id != t[j].id {
      if t[i].id == t[j].id {
        SameElements(s, t, t[i]);
        SameElements(s, t, t[j]);
        var a :| 0 <= a < |s| && s[a] == t[i];
        var b :| 0 <= b < |s| && s[b] == t[j];
        assert t[i] == t[j];
        TwoOccurrences(t, i, j);
        OneOccurrence(s, a);
        assert false;
      }
    }
  }

  lemma TwoOccurrences(t: seq<Comment>, i: nat, j: nat)
    requires i < j < |t| && t[i] == t[j]
    ensures 2 <= multiset(t)[t[i]]
  {
    assert t == t[..j] + [t[j]] + t[j + 1..];
    assert t[..j][i] == t[j];
    assert t[j] in multiset(t[..j]);
  }

  lemma OneOccurrence(s: seq<Comment>, a: nat)
    requires a < |s| && UniqueIds(s)
    ensures multiset(s)[s[a]] == 1
  {
    assert s == s[..a] + [s[a]] + s[a + 1..];
    assert s[a] !in s[..a] && s[a] !in s[a + 1..];
  }

  lemma LeastAgree(s: seq<Comment>, t: seq<Comment>)
    requires multiset(s) == multiset(t) && Sorted(s) && Sorted(t) && UniqueIds(s) && s != []
    ensures t != [] && s[0] == t[0]
  {
    SameElements(s, t, s[0]);
    assert s[0] in s;
    assert t[0] in t;
    SameElements(s, t, t[0]);
    var i :| 0 <= i < |s| && s[i] == t[0];
    var j :| 0 <= j < |t| && t[j] == s[0];
    assert i == 0 || KeyLeq(s[0], s[i]);
    assert j == 0 || KeyLeq(t[0], t[j]);
  }

  lemma TailMultiset(s: seq<Comment>)
    requires s != []
    ensures multiset(s[1..]) == multiset(s) - multiset{s[0]}
  {
    assert s == [s[0]] + s[1..];
  }

  /** Sorting forgets the input order. */
  lemma {:induction false} SortedIsUnique(s: seq<Comment>, t: seq<Comment>)
    requires multiset(s) == multiset(t) && Sorted(s) && Sorted(t) && UniqueIds(s)
    ensures s == t
  {
    if s == [] {
      assert |t| == |multiset(t)| == 0;
    } else {
      LeastAgree(s, t);
      TailMultiset(s);
      TailMultiset(t);
      SortedIsUnique(s[1..], t[1..]);
      assert s == [s[0]] + s[1..] && t == [t[0]] + t[1..];
    }
  }

  lemma FilterMultiset(keep: Comment -> bool, s: seq<Comment>, t: seq<Comment>)
    requires multiset(s) == multiset(t)
    ensures multiset(Filter(keep, s)) == multiset(Filter(keep, t))
  {
    forall x ensures multiset(Filter(keep, s))[x] == multiset(Filter(keep, t))[x] {
      FilterCount(keep, s, x);
      FilterCount(keep, t, x);
    }
  }

  lemma {:induction false} FilterCount(keep: Comment -> bool, s: seq<Comment>, x: Comment)
    ensures multiset(Filter(keep, s))[x] == if keep(x) then multiset(s)[x] else 0
  {
    if s != [] {
      FilterCount(keep, s[1..], x);
      assert s == [s[0]] + s[1..];
    }
  }

  lemma TailFacts(s: seq<Comment>)
    requires s != []
    ensures UniqueIds(s) ==> UniqueIds(s[1..])
    ensures Sorted(s) ==> Sorted(s[1..])
  {
  }

  lemma FilterCons(keep: Comment -> bool, x: Comment, s: seq<Comment>)
    ensures Filter(keep, [x] + s) == (if keep(x) then [x] else []) + Filter(keep, s)
  {
  }

  lemma {:induction false} FilterMembers(keep: Comment -> bool, s: seq<Comment>)
    ensures forall x :: x in Filter(keep, s) <==> x in s && keep(x)
  {
    if s != [] {
      FilterMembers(keep, s[1..]);
      assert forall x :: x in s <==> x == s[0] || x in s[1..];
    }
  }

  lemma {:induction false} FilterOrder(keep: Comment -> bool, s: seq<Comment>)
    ensures UniqueIds(s) ==> UniqueIds(Filter(keep, s))
    ensures Sorted(s) ==> Sorted(Filter(keep, s))
  {
    if s != [] {
      FilterOrder(keep, s[1..]);
      FilterMembers(keep, s[1..]);
      TailFacts(s);
      var rest := Filter(keep, s[1..]);
      forall j | 0 <= j < |rest|
        ensures UniqueIds(s) ==> rest[j].id != s[0].id
        ensures Sorted(s) ==> KeyLeq(s[0], rest[j])
      {
        assert rest[j] in rest;
        var k :| 0 <= k < |s[1..]| && s[1..][k] == rest[j];
        assert s[k + 1] == rest[j];
      }
    }
  }

  lemma FilterFacts(keep: Comment -> bool, s: seq<Comment>)
    ensures forall x :: x in Filter(keep, s) <==> x in s && keep(x)
    ensures UniqueIds(s) ==> UniqueIds(Filter(keep, s))
    ensures Sorted(s) ==> Sorted(Filter(keep, s))
  {
    FilterMembers(keep, s);
    FilterOrder(keep, s);
  }

  lemma SortFilter(keep: Comment -> bool, s: seq<Comment>)
    requires UniqueIds(s)
    ensures SortComments(Filter(keep, s)) == Filter(keep, SortComments(s))
  {
    SortFacts(s);
    SortFacts(Filter(keep, s));
    FilterFacts(keep, s);
    FilterFacts(keep, SortComments(s));
    FilterMultiset(keep, s, SortComments(s));
    UniqueIdsOfPermutation(Filter(keep, s), SortComments(Filter(keep, s)));
    SortedIsUnique(SortComments(Filter(keep, s)), Filter(keep, SortComments(s)));
  }

  lemma {:induction false} FilterSwap(f: Comment -> bool, g: Comment -> bool, s: seq<Comment>)
    ensures Filter(f, Filter(g, s)) == Filter(g, Filter(f, s))
  {
    if s != [] {
      FilterSwap(f, g, s[1..]);
      FilterCons(f, s[0], Filter(g, s[1..]));
      FilterCons(g, s[0], Filter(f, s[1..]));
      assert forall t: seq<Comment> :: [] + t == t;
    }
  }

  /** The history of a sub-collection is the sub-collection of the history. */
  lemma HistoryOfFilter(keep: Comment -> bool, comments: seq<Comment>)
    requires UniqueIds(comments)
    ensures History(Filter(keep, comments)) == Filter(keep, History(comments))
  {
    FilterSwap(IsCommand, keep, comments);
    FilterFacts(IsCommand, comments);
    SortFilter(keep, Commands(comments));
  }

  lemma HistoryFacts(comments: seq<Comment>)
    requires UniqueIds(comments)
    ensures Sorted(History(comments)) && UniqueIds(History(comments))
    ensures
      var h := History(comments);
      forall i, j | 0 <= i < j < |h| ::
        h[i].createdAt < h[j].createdAt || (h[i].createdAt == h[j].createdAt && h[i].id < h[j].id)
    ensures forall c :: c in History(comments) <==> c in comments && (c.body.Malformed? || c.body.Typed?)
  {
    FilterFacts(IsCommand, comments);
    SortFacts(Commands(comments));
    UniqueIdsOfPermutation(Commands(comments), History(comments));
    forall c ensures c in History(comments) <==> c in comments && IsCommand(c) {
      SameElements(History(comments), Commands(comments), c);
    }
  }
}
