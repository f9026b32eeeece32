/** Who can approve: over any life of a record, nothing is approved or scheduled without the command
    of a listed approver, and exactly what that command covers is approved. */
module ApprovalAuthority {
  import opened Wrappers
  import opened Approval
  import opened Reconcile
  import opened Replay
  import opened Watchdog
  import opened ApprovalRuns

  // ---- When a command is accepted ----

  /** What a live command needs beyond a fresh, authorised, timely comment. */
  predicate Applicable(r: Record, cmd: Command, at: int, now: int) {
    && cmd != Status && !Final(r.decision.state)
    && (r.decision.state == Approved ==> cmd == Cancel)
    && (cmd == ApplySafe ==> r.binding.safePackages != [])
    && (cmd.Snooze? ==> at + cmd.duration < r.binding.expiresAt)
    && (cmd.Schedule? ==> now < cmd.executeAt < r.binding.expiresAt && r.binding.createdAt <= cmd.executeAt)
  }

  /** A command changes a valid record exactly when it comes from an approver, is new and not stale, and
      either the deadline has passed or the command applies. */
  lemma CommandVerdict(r: Record, cmd: Command, id: int, actor: string, at: int, now: int)
    requires Valid(r)
    ensures ApplyCommand(r, cmd, id, actor, at, now).Mutated? <==>
      && IsApprover(r.binding, actor) && id !in r.processed && r.updatedAt <= at
      && (r.binding.expiresAt <= now || Applicable(r, cmd, at, now))
    ensures ApplyCommand(r, cmd, id, actor, at, now).Mutated? ==>
      var q := ApplyCommand(r, cmd, id, actor, at, now).record;
      && q.updatedAt == at && q.actor == Some(actor) && q.processed == r.processed + [id]
      && (r.binding.expiresAt <= now <==> q.decision.state == Expired)
      && (q.decision.state == Approved ==> cmd == Approve || cmd == ApplySafe)
      && (q.decision.state == Scheduled ==> cmd.Schedule? && q.decision.executeAt == Some(cmd.executeAt))
      && (q.decision.state == Snoozed ==> cmd.Snooze? && q.decision.snoozedUntil == Some(at + cmd.duration))
      && (q.decision.state == Rejected <==> cmd.Reject? && now < r.binding.expiresAt)
      && (q.decision.state == Cancelled <==> cmd == Cancel && now < r.binding.expiresAt)
  {
  }

  /** What a watchdog call does to a reachable record: the clock alone expires, wakes, releases or reminds. */
  lemma WatchdogVerdict(r: Record, now: int, p: Policy)
    requires Reachable(r)
    ensures
      var w := Evaluate(r, now, p);
      var q := w.record;
      && (!w.changed ==> q == r && !w.reminderDue)
      && (w.changed ==> q.updatedAt == now && q.revision == r.revision + 1 && q.processed == r.processed)
      && (q.decision.state == Expired <==>
            r.decision.state == Expired
            || (r.binding.expiresAt <= now && !Final(r.decision.state) && r.decision.state != Approved))
      && (w.changed && (r.binding.expiresAt <= now || r.decision.state == Scheduled) ==> !w.reminderDue)
      && (w.changed && now < r.binding.expiresAt && r.decision.state == Snoozed ==> w.reminderDue)
      && (now < r.binding.expiresAt && r.decision.state == Scheduled ==>
            && q.decision == r.decision.(state := q.decision.state)
            && q.decision.state == if r.decision.executeAt.value <= now then Approved else Scheduled)
      && (now < r.binding.expiresAt && r.decision.state == Snoozed ==>
            q.decision == if r.decision.snoozedUntil.value <= now then Decision(AwaitingApproval, [], None, None)
                          else r.decision)
      && (now < r.binding.expiresAt && r.decision.state == AwaitingApproval ==>
            && q.decision == r.decision && (w.reminderDue <==> w.changed)
            && q.reminderCount == r.reminderCount + (if w.changed then 1 else 0)
            && (w.changed ==> q.lastReminded == Some(now)))
  {
  }

  // ---- Grants ----

  predicate Granted(d: Decision) {
    d.state == Approved || d.state == Scheduled
  }

  /** The packages the command grants. */
  predicate Grants(cmd: Command, b: Binding, packages: seq<PackageKind>) {
    || ((cmd == Approve || cmd.Schedule?) && packages == b.allowedPackages)
    || (cmd == ApplySafe && packages == b.safePackages)
  }

  /** The comment takes effect on `r` and grants these packages. */
  predicate CommentGrants(r: Record, c: Comment, env: Env, packages: seq<PackageKind>) {
    Mutates(r, c, env) && IsApprover(r.binding, c.author) && Grants(ParseCommand(c.body).value, r.binding, packages)
  }

  predicate Holds(r: Record, packages: seq<PackageKind>) {
    Granted(r.decision) && r.decision.approvedPackages == packages
  }

  /** Comment `k` of the history grants the packages, and no later comment takes or changes the grant. */
  ghost predicate GrantedAt(r: Record, h: seq<Comment>, env: Env, k: nat, packages: seq<PackageKind>) {
    && k < |h| && CommentGrants(ReplayAll(r, h[..k], env), h[k], env, packages)
    && forall j | k < j <= |h| :: Holds(ReplayAll(r, h[..j], env), packages)
  }

  /** The event finds `r` and holds the command with this id, which takes effect and grants the packages. */
  ghost predicate EventGrants(r: Record, e: Event, id: int, packages: seq<PackageKind>) {
    match e
    case Batch(comments, env) =>
      exists k: nat :: GrantedAt(r, History(comments), env, k, packages) && History(comments)[k].id == id
    case Direct(cmd, i, actor, at, now) =>
      && i == id && ApplyCommand(r, cmd, i, actor, at, now).Mutated?
      && IsApprover(r.binding, actor) && Grants(cmd, r.binding, packages)
    case Tick(_) => false
  }

  lemma CommandGrants(r: Record, cmd: Command, id: int, actor: string, at: int, now: int)
    requires ApplyCommand(r, cmd, id, actor, at, now).Mutated?
    ensures
      var q := ApplyCommand(r, cmd, id, actor, at, now).record;
      Granted(q.decision) ==> IsApprover(r.binding, actor) && Grants(cmd, r.binding, q.decision.approvedPackages)
                              && id in q.processed
  {
  }

  /** A comment that leaves the record granted kept the grant or gave it. */
  lemma AdvanceGrants(r: Record, c: Comment, env: Env, packages: seq<PackageKind>)
    requires Valid(r) && Holds(Advance(r, c, env), packages)
    ensures Holds(r, packages) || CommentGrants(r, c, env, packages)
  {
    AdvanceFacts(r, c, env);
    if Mutates(r, c, env) {
      CommandGrants(r, ParseCommand(c.body).value, c.id, c.author, c.createdAt, env.now);
    }
  }

  /** The granting comment of a history that ends granted, if the grant is not as old as the record. */
  lemma {:induction false} ReplayGrants(r: Record, h: seq<Comment>, env: Env, packages: seq<PackageKind>)
    returns (origin: Option<nat>)
    requires Valid(r) && Holds(ReplayAll(r, h, env), packages)
    ensures origin.None? ==> forall j | 0 <= j <= |h| :: Holds(ReplayAll(r, h[..j], env), packages)
    ensures origin.Some? ==> GrantedAt(r, h, env, origin.value, packages)
    decreases |h|
  {
    assert ReplayAll(r, h[..0], env) == r;
    if h == [] {
      return None;
    }
    var next, rest := Advance(r, h[0], env), h[1..];
    AdvanceFacts(r, h[0], env);
    var later := ReplayGrants(next, rest, env, packages);
    forall j | 0 <= j <= |rest| ensures ReplayAll(r, h[..j + 1], env) == ReplayAll(next, rest[..j], env) {
      if j < |h| {
        ReplayHead(r, h, j, env);
      }
    }
    if later.Some? {
      origin := Some(later.value + 1);
      HoldsShifted(r, h, env, later.value, packages);
    } else {
      assert rest[..0] == [];
      assert Holds(next, packages);
      AdvanceGrants(r, h[0], env, packages);
      HoldsThroughout(r, h, env, packages);
      origin := if Holds(r, packages) then None else Some(0);
    }
  }

  lemma HoldsShifted(r: Record, h: seq<Comment>, env: Env, k: nat, packages: seq<PackageKind>)
    requires h != [] && GrantedAt(Advance(r, h[0], env), h[1..], env, k, packages)
    ensures GrantedAt(r, h, env, k + 1, packages)
  {
    ReplayHead(r, h, k, env);
    forall j | k + 1 < j <= |h| ensures Holds(ReplayAll(r, h[..j], env), packages) {
      ReplayHead(r, h, j - 1, env);
      assert Holds(ReplayAll(Advance(r, h[0], env), h[1..][..j - 1], env), packages);
    }
  }

  lemma HoldsThroughout(r: Record, h: seq<Comment>, env: Env, packages: seq<PackageKind>)
    requires h != []
    requires forall j | 0 <= j <= |h[1..]| :: Holds(ReplayAll(Advance(r, h[0], env), h[1..][..j], env), packages)
    ensures forall j | 0 < j <= |h| :: Holds(ReplayAll(r, h[..j], env), packages)
  {
    forall j | 0 < j <= |h| ensures Holds(ReplayAll(r, h[..j], env), packages) {
      ReplayHead(r, h, j - 1, env);
      assert Holds(ReplayAll(Advance(r, h[0], env), h[1..][..j - 1], env), packages);
    }
  }

  lemma PerformGrants(r: Record, e: Event, p: Policy, packages: seq<PackageKind>) returns (id: int)
    requires Reachable(r) && PositivePolicy(p) && Holds(Perform(r, e, p), packages) && !Holds(r, packages)
    ensures EventGrants(r, e, id, packages) && id in Perform(r, e, p).processed
  {
    match e
    case Batch(comments, env) =>
      var h := History(comments);
      ReconcileIsTotal(r, comments, env);
      ReplayFacts(r, h, env);
      var origin := ReplayGrants(r, h, env, packages);
      assert ReplayAll(r, h[..0], env) == r;
      id := h[origin.value].id;
      assert GrantedAt(r, h, env, origin.value, packages);
      assert h[origin.value] in h;
    case Direct(cmd, i, actor, at, now) =>
      id := i;
      if ApplyCommand(r, cmd, i, actor, at, now).Mutated? {
        CommandVerdict(r, cmd, i, actor, at, now);
        CommandGrants(r, cmd, i, actor, at, now);
      }
    case Tick(now) =>
      id := 0;
      WatchdogVerdict(r, now, p);
  }

  // ---- Whole runs ----

  lemma RunHead(r: Record, events: seq<Event>, k: nat, p: Policy)
    requires k < |events|
    ensures Run(r, events[..k + 1], p) == Run(Perform(r, events[0], p), events[1..][..k], p)
  {
    assert events[..k + 1][1..] == events[1..][..k];
  }

  /** From event `i` on the record holds the grant. */
  ghost predicate HeldFrom(r: Record, events: seq<Event>, i: nat, p: Policy, packages: seq<PackageKind>) {
    forall j | i <= j <= |events| :: Holds(Run(r, events[..j], p), packages)
  }

  /** Event `i` gives the grant by the command with this id; before it the record did not hold it, after
      it the record holds it to the end. */
  ghost predicate GrantBegins(r: Record, events: seq<Event>, i: nat, id: int, p: Policy, packages: seq<PackageKind>) {
    && i < |events|
    && EventGrants(Run(r, events[..i], p), events[i], id, packages)
    && id in Run(r, events[..i + 1], p).processed
    && !Holds(Run(r, events[..i], p), packages)
    && HeldFrom(r, events, i + 1, p, packages)
  }

  lemma HeldShifted(r: Record, events: seq<Event>, i: nat, p: Policy, packages: seq<PackageKind>)
    requires events != [] && HeldFrom(Perform(r, events[0], p), events[1..], i, p, packages)
    ensures HeldFrom(r, events, i + 1, p, packages)
  {
    forall j | i + 1 <= j <= |events| ensures Holds(Run(r, events[..j], p), packages) {
      RunHead(r, events, j - 1, p);
      assert Holds(Run(Perform(r, events[0], p), events[1..][..j - 1], p), packages);
    }
  }

  lemma GrantShifted(r: Record, events: seq<Event>, i: nat, id: int, p: Policy, packages: seq<PackageKind>)
    requires events != [] && GrantBegins(Perform(r, events[0], p), events[1..], i, id, p, packages)
    ensures GrantBegins(r, events, i + 1, id, p, packages)
  {
    RunHead(r, events, i, p);
    RunHead(r, events, i + 1, p);
    HeldShifted(r, events, i + 1, p, packages);
  }

  lemma GrantHere(r: Record, events: seq<Event>, id: int, p: Policy, packages: seq<PackageKind>)
    requires events != [] && !Holds(r, packages) && EventGrants(r, events[0], id, packages)
    requires id in Perform(r, events[0], p).processed
    requires HeldFrom(Perform(r, events[0], p), events[1..], 0, p, packages)
    ensures GrantBegins(r, events, 0, id, p, packages)
  {
    RunHead(r, events, 0, p);
    assert Run(r, events[..0], p) == r;
    assert Run(Perform(r, events[0], p), events[1..][..0], p) == Perform(r, events[0], p);
    HeldShifted(r, events, 0, p, packages);
  }

  lemma HeldFromStart(r: Record, events: seq<Event>, p: Policy, packages: seq<PackageKind>)
    requires Holds(r, packages) && (events != [] ==> HeldFrom(Perform(r, events[0], p), events[1..], 0, p, packages))
    ensures HeldFrom(r, events, 0, p, packages)
  {
    assert Run(r, events[..0], p) == r;
    if events != [] {
      HeldShifted(r, events, 0, p, packages);
    }
  }

  lemma {:induction false} RunGrants(r: Record, events: seq<Event>, p: Policy, packages: seq<PackageKind>)
    returns (origin: Option<nat>, id: int)
    requires Reachable(r) && PositivePolicy(p) && Holds(Run(r, events, p), packages)
    ensures origin.None? ==> HeldFrom(r, events, 0, p, packages)
    ensures origin.Some? ==> GrantBegins(r, events, origin.value, id, p, packages)
    decreases |events|
  {
    origin, id := None, 0;
    if events == [] {
      HeldFromStart(r, events, p, packages);
      return;
    }
    var next := Perform(r, events[0], p);
    PerformKeepsReachable(r, events[0], p);
    var later, i := RunGrants(next, events[1..], p, packages);
    if later.Some? {
      origin, id := Some(later.value + 1), i;
      GrantShifted(r, events, later.value, i, p, packages);
    } else {
      assert Run(next, events[1..][..0], p) == next;
      if Holds(r, packages) {
        HeldFromStart(r, events, p, packages);
      } else {
        origin := Some(0);
        id := PerformGrants(r, events[0], p, packages);
        GrantHere(r, events, id, p, packages);
      }
    }
  }

  /** Whatever happens after creation: an approved or scheduled record became so by a command of one of its
      approvers that took effect at some event, and it has held exactly the packages that command grants
      ever since. */
  lemma NothingIsApprovedUnasked(q: Request, now: int, events: seq<Event>, p: Policy)
    requires CreateRecord(q, now).Success? && PositivePolicy(p)
    requires Granted(Run(CreateRecord(q, now).value, events, p).decision)
    ensures
      var r := CreateRecord(q, now).value;
      exists i: nat, id :: GrantBegins(r, events, i, id, p, Run(r, events, p).decision.approvedPackages)
  {
    var r := CreateRecord(q, now).value;
    CreatedIsReachable(q, now);
    assert Run(r, events[..0], p) == r;
    var origin, id := RunGrants(r, events, p, Run(r, events, p).decision.approvedPackages);
    assert !Granted(r.decision);
    assert origin.Some?;
  }
}
