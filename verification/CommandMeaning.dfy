/** What a comment does to a valid record, verb by verb and case by case: `reconcile_comments` with
    `apply_command` (src/fgops/approval_state.py) and `parse_approval_command` (src/fgops/approval.py),
    in terms of the comment's own fields. */
module CommandMeaning {
  import opened Wrappers
  import opened Approval
  import opened Reconcile
  import opened Replay
  import Text

  // ---- Who is heard ----

  /** An approver is who is listed, whatever the case of the letters. */
  lemma ApproverIsListed(b: Binding, actor: string)
    ensures IsApprover(b, actor) <==> exists i | 0 <= i < |b.approvers| :: Text.SameName(b.approvers[i], actor)
  {
    forall i | 0 <= i < |b.approvers|
      ensures Text.Lower(b.approvers[i]) == Text.Lower(actor) <==> Text.SameName(b.approvers[i], actor)
    {
      Text.LowerIgnoresCase(b.approvers[i], actor);
    }
  }

  predicate Listed(b: Binding, actor: string) {
    exists i | 0 <= i < |b.approvers| :: Text.SameName(b.approvers[i], actor)
  }

  // ---- What a comment says ----

  predicate NoText(a: Argument) {
    a == Absent || a.text == ""
  }

  /** The comment asks for something the grammar knows. */
  predicate WellFormed(body: Body) {
    body.Typed? &&
    match body.verb
    case VReject => !NoText(body.argument)
    case VSnooze => !NoText(body.argument) && body.argument.duration.Some? && 0 < body.argument.duration.value
    case VSchedule => !NoText(body.argument) && body.argument.instant.Some? && body.argument.instant.value.aware
    case _ => NoText(body.argument)
  }

  // ---- What happens to the record ----

  /** The command takes effect. */
  function Taken(r: Record, c: Comment, d: Decision, reason: Reason): Result<(Record, Message), Refusal> {
    Success((r.(decision := d, actor := Some(c.author), reason := reason, updatedAt := c.createdAt,
                revision := r.revision + 1, processed := r.processed + [c.id]),
             About(c.id, reason)))
  }

  function Later(a: int, b: int): int {
    if b < a then a else b
  }

  function NotedRecord(r: Record, c: Comment, name: string, reason: Reason): Record {
    r.(actor := Some(name), reason := reason, updatedAt := Later(c.createdAt, r.updatedAt),
       revision := r.revision + 1, processed := r.processed + [c.id])
  }

  /** The comment is only marked processed. */
  function Noted(r: Record, c: Comment, reason: Reason): Result<(Record, Message), Refusal> {
    Success((NotedRecord(r, c, if c.author == "" then "unknown" else c.author, reason), Plain(reason)))
  }

  function Denied(r: Record, c: Comment, why: Refusal): Result<(Record, Message), Refusal> {
    Noted(r, c, CommandRejected(c.id, why))
  }

  function StatusNoted(r: Record, c: Comment): Result<(Record, Message), Refusal> {
    Success((NotedRecord(r, c, c.author, StatusDoesNotMutate), About(c.id, StatusDoesNotMutate)))
  }

  /** A comment that has not been processed and passes every check on its writer and its time. */
  predicate Admitted(r: Record, c: Comment, env: Env) {
    && Valid(r) && c.id !in r.processed && c.association in env.associations
    && Listed(r.binding, c.author) && r.updatedAt <= c.createdAt
  }

  lemma AdvanceIsStep(r: Record, c: Comment, env: Env)
    requires Valid(r)
    ensures c.id in r.processed ==> Advance(r, c, env) == r
    ensures c.id !in r.processed ==>
              StepRecord(r, c, env).Success? && Advance(r, c, env) == StepRecord(r, c, env).value.0
  {
    StepIsTotal(r, c, env);
  }

  // ---- Comments that are not admitted ----

  /** The first check that fails gives the note; the decision stays. */
  lemma RefusedComment(r: Record, c: Comment, env: Env)
    requires Valid(r) && c.id !in r.processed
    ensures c.association !in env.associations ==>
              StepRecord(r, c, env) == Noted(r, c, UnauthorizedAssociation(c.id))
    ensures c.association in env.associations && !c.body.Typed? ==>
              StepRecord(r, c, env) == Denied(r, c, UnsupportedCommand)
    ensures c.association in env.associations && c.body.Typed? && !WellFormed(c.body) ==>
              StepRecord(r, c, env) == Denied(r, c, BadArgument)
    ensures c.association in env.associations && WellFormed(c.body) && !Listed(r.binding, c.author) ==>
              StepRecord(r, c, env) == Denied(r, c, NotAnApprover(c.author))
    ensures c.association in env.associations && WellFormed(c.body) && Listed(r.binding, c.author)
            && c.createdAt < r.updatedAt ==>
              StepRecord(r, c, env) == Denied(r, c, Stale)
  {
    ApproverIsListed(r.binding, c.author);
  }

  // ---- Admitted comments ----

  /** After the deadline every well-formed command expires the record, in any state. */
  lemma LateComment(r: Record, c: Comment, env: Env)
    requires Admitted(r, c, env) && WellFormed(c.body) && r.binding.expiresAt <= env.now
    ensures StepRecord(r, c, env) == Taken(r, c, Decision(Expired, [], None, None), ExpiredBeforeCommand)
  {
    ApproverIsListed(r.binding, c.author);
  }

  lemma LiveStep(r: Record, c: Comment, env: Env, cmd: Command)
    requires Admitted(r, c, env) && env.now < r.binding.expiresAt && ParseCommand(c.body) == Success(cmd) && cmd != Status
    requires r.decision.state in {AwaitingApproval, Snoozed, Scheduled}
    ensures
      StepRecord(r, c, env) ==
      match Decide(r.binding, cmd, c.createdAt, env.now)
      case Failure(why) => Denied(r, c, why)
      case Success((d, reason)) =>
        if ValidDecision(r.binding, d) then Taken(r, c, d, reason) else Denied(r, c, InvalidRecord)
  {
    ApproverIsListed(r.binding, c.author);
  }

  lemma LiveStatus(r: Record, c: Comment, env: Env)
    requires Admitted(r, c, env) && env.now < r.binding.expiresAt && ParseCommand(c.body) == Success(Status)
    ensures StepRecord(r, c, env) == StatusNoted(r, c)
  {
    ApproverIsListed(r.binding, c.author);
  }

  /** Before the deadline, a record that waits, snoozes or is scheduled. */
  lemma LiveComment(r: Record, c: Comment, env: Env)
    requires Admitted(r, c, env) && WellFormed(c.body) && env.now < r.binding.expiresAt
    requires r.decision.state in {AwaitingApproval, Snoozed, Scheduled}
    ensures
      var b := r.binding;
      StepRecord(r, c, env) ==
      match c.body.verb
      case VApprove => Taken(r, c, Decision(Approved, b.allowedPackages, None, None), ApprovalGranted)
      case VApplySafe =>
        if b.safePackages == [] then Denied(r, c, NoSafePackage)
        else Taken(r, c, Decision(Approved, b.safePackages, None, None), SafeApprovalGranted)
      case VReject => Taken(r, c, Decision(Rejected, [], None, None), RejectedBecause(c.body.argument.text))
      case VCancel => Taken(r, c, Decision(Cancelled, [], None, None), RequestCancelled)
      case VStatus => StatusNoted(r, c)
      case VSnooze =>
        var until := c.createdAt + c.body.argument.duration.value;
        if b.expiresAt <= until then Denied(r, c, SnoozeBeyondExpiry)
        else Taken(r, c, Decision(Snoozed, [], None, Some(until)), SnoozedUntil(until))
      case VSchedule =>
        var at := c.body.argument.instant.value.time;
        if at <= env.now then Denied(r, c, ScheduleNotInFuture)
        else if b.expiresAt <= at then Denied(r, c, ScheduleBeyondExpiry)
        else if at < b.createdAt then Denied(r, c, InvalidRecord)
        else Taken(r, c, Decision(Scheduled, b.allowedPackages, Some(at), None), ScheduledFor(at))
  {
    if c.body.verb == VStatus {
      LiveStatus(r, c, env);
    } else {
      LiveStep(r, c, env, ParseCommand(c.body).value);
    }
  }

  /** Before the deadline, an approved record only listens to `cancel` and answers `status`. */
  lemma ApprovedComment(r: Record, c: Comment, env: Env)
    requires Admitted(r, c, env) && WellFormed(c.body) && env.now < r.binding.expiresAt
    requires r.decision.state == Approved
    ensures
      StepRecord(r, c, env) ==
      match c.body.verb
      case VCancel => Taken(r, c, Decision(Cancelled, [], None, None), RequestCancelled)
      case VStatus => StatusNoted(r, c)
      case _ => Denied(r, c, AlreadyApproved)
  {
    ApproverIsListed(r.binding, c.author);
  }

  /** Before the deadline, a rejected, expired or cancelled record only answers `status`. */
  lemma FinalComment(r: Record, c: Comment, env: Env)
    requires Admitted(r, c, env) && WellFormed(c.body) && env.now < r.binding.expiresAt
    requires r.decision.state in {Rejected, Expired, Cancelled}
    ensures
      StepRecord(r, c, env) ==
      if c.body.verb == VStatus then StatusNoted(r, c) else Denied(r, c, TerminalState(r.decision.state))
  {
    ApproverIsListed(r.binding, c.author);
  }

  // ---- All cases together ----

  /** The decision that a well-formed command asks of a record that waits, snoozes or is scheduled. */
  function Asked(b: Binding, body: Body, at: int, now: int): Option<Decision>
    requires WellFormed(body)
  {
    match body.verb
    case VApprove => Some(Decision(Approved, b.allowedPackages, None, None))
    case VApplySafe => if b.safePackages == [] then None else Some(Decision(Approved, b.safePackages, None, None))
    case VReject => Some(Decision(Rejected, [], None, None))
    case VCancel => Some(Decision(Cancelled, [], None, None))
    case VStatus => None
    case VSnooze =>
      var until := at + body.argument.duration.value;
      if until < b.expiresAt then Some(Decision(Snoozed, [], None, Some(until))) else None
    case VSchedule =>
      var time := body.argument.instant.value.time;
      if now < time < b.expiresAt && b.createdAt <= time then Some(Decision(Scheduled, b.allowedPackages, Some(time), None))
      else None
  }

  /** For every comment and every valid record: the decision after it. */
  lemma DecisionAfter(r: Record, c: Comment, env: Env)
    requires Valid(r)
    ensures Advance(r, c, env).decision ==
            if !Admitted(r, c, env) || !WellFormed(c.body) then r.decision
            else if r.binding.expiresAt <= env.now then Decision(Expired, [], None, None)
            else if r.decision.state in {AwaitingApproval, Snoozed, Scheduled} then
              var asked := Asked(r.binding, c.body, c.createdAt, env.now);
              if asked.Some? then asked.value else r.decision
            else if r.decision.state == Approved && c.body.verb == VCancel then Decision(Cancelled, [], None, None)
            else r.decision
  {
    AdvanceIsStep(r, c, env);
    if c.id !in r.processed {
      if !Admitted(r, c, env) || !WellFormed(c.body) {
        RefusedComment(r, c, env);
      } else if r.binding.expiresAt <= env.now {
        LateComment(r, c, env);
      } else if r.decision.state in {AwaitingApproval, Snoozed, Scheduled} {
        LiveComment(r, c, env);
      } else if r.decision.state == Approved {
        ApprovedComment(r, c, env);
      } else {
        FinalComment(r, c, env);
      }
    }
  }

  // ---- The whole history ----

  /** One more comment at the end of the history: it meets the record the others leave, and its message follows
      theirs. */
  lemma {:induction false} MessagesInOrder(p: Progress, cs: seq<Comment>, c: Comment, env: Env)
    requires Valid(p.record)
    ensures Fold(p, cs, env).Success? && Valid(Fold(p, cs, env).value.record)
    ensures
      var q := Fold(p, cs, env).value;
      Fold(p, cs + [c], env) ==
      if c.id in q.record.processed then Success(q)
      else
        match StepRecord(q.record, c, env)
        case Failure(why) => Failure(why)
        case Success((r, message)) => Success(Progress(r, true, q.messages + [message]))
    decreases |cs|
  {
    if cs == [] {
      assert cs + [c] == [c];
      assert [c][1..] == [];
    } else {
      StepIsTotal(p.record, cs[0], env);
      AdvanceFacts(p.record, cs[0], env);
      assert (cs + [c])[1..] == cs[1..] + [c];
      MessagesInOrder(Handle(p, cs[0], env).value, cs[1..], c, env);
    }
  }
}
