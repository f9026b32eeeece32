/** Which approval records are created, and what is bound in them (`create_approval_record` and `validate`,
    src/fgops/approval_state.py). */
module CreatedRecords {
  import opened Wrappers
  import opened Approval
  import opened ApprovalRuns
  import IssueCodec
  import Text

  // ---- What is taken from the manifest ----

  /** The packages an approval is about, as they stand in the manifest. */
  function Bound(packages: seq<Package>): seq<Package> {
    if packages == [] then []
    else
      var p := packages[|packages| - 1];
      Bound(packages[..|packages| - 1]) + (if p.kind == UNKNOWN || p.kind == IGNORED then [] else [p])
  }

  function Deferrable(packages: seq<Package>): seq<Package> {
    if packages == [] then []
    else
      var p := packages[|packages| - 1];
      Deferrable(packages[..|packages| - 1]) + (if p.safeForDeferredApply then [p] else [])
  }

  lemma {:induction false} KnownAppend(packages: seq<Package>, p: Package)
    ensures Known(packages + [p]) == Known(packages) + Known([p])
  {
    if packages == [] {
      assert packages + [p] == [p];
    } else {
      assert (packages + [p])[1..] == packages[1..] + [p];
      KnownAppend(packages[1..], p);
    }
  }

  lemma {:induction false} SafeAppend(packages: seq<Package>, p: Package)
    ensures SafeOnes(packages + [p]) == SafeOnes(packages) + SafeOnes([p])
  {
    if packages == [] {
      assert packages + [p] == [p];
    } else {
      assert (packages + [p])[1..] == packages[1..] + [p];
      SafeAppend(packages[1..], p);
    }
  }

  lemma {:induction false} KnownAreBound(packages: seq<Package>)
    ensures Known(packages) == Bound(packages) && SafeOnes(packages) == Deferrable(packages)
  {
    if packages != [] {
      var front, p := packages[..|packages| - 1], packages[|packages| - 1];
      KnownAreBound(front);
      KnownAppend(front, p);
      SafeAppend(front, p);
      assert packages == front + [p];
    }
  }

  lemma {:induction false} KindsAre(packages: seq<Package>)
    ensures |Kinds(packages)| == |packages| == |Hashes(packages)|
    ensures forall i | 0 <= i < |packages| ::
              Kinds(packages)[i] == packages[i].kind && Hashes(packages)[i] == (packages[i].filename, packages[i].sha256)
  {
    if packages != [] {
      KindsAre(packages[1..]);
    }
  }

  /** The stripped names, the first of equal ones, without empty ones. */
  function Approvers(names: seq<string>): seq<string> {
    if names == [] then []
    else
      var taken, name := Approvers(names[..|names| - 1]), Text.Strip(names[|names| - 1]);
      if name == "" || name in taken then taken else taken + [name]
  }

  lemma {:induction false} CleanAppend(names: seq<string>, x: string, taken: seq<string>)
    ensures
      var t, name := CleanApprovers(names, taken), Text.Strip(x);
      CleanApprovers(names + [x], taken) == if name == "" || name in t then t else t + [name]
    decreases |names|
  {
    if names == [] {
      assert (names + [x])[1..] == [];
    } else {
      var name := Text.Strip(names[0]);
      assert (names + [x])[1..] == names[1..] + [x];
      CleanAppend(names[1..], x, if name == "" || name in taken then taken else taken + [name]);
    }
  }

  lemma {:induction false} CleanAreApprovers(names: seq<string>)
    ensures CleanApprovers(names, []) == Approvers(names)
  {
    if names != [] {
      var front, x := names[..|names| - 1], names[|names| - 1];
      CleanAreApprovers(front);
      CleanAppend(front, x, []);
      assert names == front + [x];
    }
  }

  // ---- Sorted hashes ----

  lemma HeadUnique(p: (string, string), s: seq<(string, string)>)
    ensures UniqueNames([p] + s) <==> UniqueNames(s) && forall q | q in s :: q.0 != p.0
  {
    var t := [p] + s;
    assert forall i | 0 <= i < |s| :: t[i + 1] == s[i];
    if UniqueNames(t) {
      forall q | q in s ensures q.0 != p.0 {
        var i :| 0 <= i < |s| && s[i] == q;
        assert t[0] == p && t[i + 1] == q;
      }
    }
    if UniqueNames(s) && forall q | q in s :: q.0 != p.0 {
      forall i, j | 0 <= i < j < |t| ensures t[i].0 != t[j].0 {
        assert t[j] == s[j - 1] && s[j - 1] in s;
      }
    }
  }

  lemma {:induction false} InsertUnique(p: (string, string), s: seq<(string, string)>)
    ensures UniqueNames(Text.InsertPair(p, s)) <==> UniqueNames([p] + s)
    ensures forall q :: q in Text.InsertPair(p, s) <==> q == p || q in s
  {
    if s != [] && !Text.PairLeq(p, s[0]) {
      var rest := s[1..];
      InsertUnique(p, rest);
      assert s == [s[0]] + rest;
      HeadUnique(s[0], Text.InsertPair(p, rest));
      HeadUnique(p, rest);
      HeadUnique(p, s);
      HeadUnique(s[0], rest);
    }
  }

  lemma {:induction false} SortUnique(s: seq<(string, string)>)
    ensures UniqueNames(Text.SortPairs(s)) <==> UniqueNames(s)
    ensures forall q :: q in Text.SortPairs(s) <==> q in s
  {
    if s != [] {
      SortUnique(s[1..]);
      InsertUnique(s[0], Text.SortPairs(s[1..]));
      HeadUnique(s[0], s[1..]);
      HeadUnique(s[0], Text.SortPairs(s[1..]));
      assert s == [s[0]] + s[1..];
    }
  }

  /** The names of the sorted hashes stand in code-point order. */
  lemma SortedByName(s: seq<(string, string)>)
    requires UniqueNames(s)
    ensures
      var t := Text.SortPairs(s);
      multiset(t) == multiset(s) && forall i, j | 0 <= i < j < |t| :: Text.Precedes(t[i].0, t[j].0)
  {
    var t := Text.SortPairs(s);
    Text.SortPairsFacts(s);
    SortUnique(s);
    forall i, j | 0 <= i < j < |t| ensures Text.Precedes(t[i].0, t[j].0) {
      assert Text.PairLeq(t[i], t[j]) && t[i].0 != t[j].0;
      Text.LexIs(t[i].0, t[j].0);
    }
  }

  // ---- Creation ----

  predicate Sha256Text(s: string) {
    |s| == 64 && forall i | 0 <= i < |s| :: s[i] in "0123456789abcdefABCDEF"
  }

  /** The packages to be bound have names, all different, and SHA-256 hashes. */
  predicate WellDescribed(packages: seq<Package>) {
    && (forall i | 0 <= i < |packages| :: packages[i].filename != "" && Sha256Text(packages[i].sha256))
    && forall i, j | 0 <= i < j < |packages| :: packages[i].filename != packages[j].filename
  }

  predicate WellAddressed(q: Request) {
    && '/' in q.repository && 0 < q.issueNumber
    && Approvers(q.approvers) != []
    && forall i, j | 0 <= i < j < |Approvers(q.approvers)| ::
         !Text.SameName(Approvers(q.approvers)[i], Approvers(q.approvers)[j])
  }

  lemma HexDigits(s: string)
    ensures IsDigest(s) <==> Sha256Text(s)
  {
  }

  lemma HashNames(packages: seq<Package>)
    ensures UniqueNames(Hashes(packages)) <==>
              forall i, j | 0 <= i < j < |packages| :: packages[i].filename != packages[j].filename
  {
    KindsAre(packages);
    assert forall i | 0 <= i < |packages| :: Hashes(packages)[i].0 == packages[i].filename;
  }

  lemma HashTexts(packages: seq<Package>)
    ensures (forall p | p in Hashes(packages) :: p.0 != "" && IsDigest(p.1)) <==>
              forall i | 0 <= i < |packages| :: packages[i].filename != "" && Sha256Text(packages[i].sha256)
  {
    var h := Hashes(packages);
    KindsAre(packages);
    forall i | 0 <= i < |packages|
      ensures h[i] in h && h[i].0 == packages[i].filename && (IsDigest(h[i].1) <==> Sha256Text(packages[i].sha256))
    {
      HexDigits(h[i].1);
    }
  }

  lemma HashesAreValid(packages: seq<Package>)
    ensures
      var hashes := Text.SortPairs(Hashes(packages));
      UniqueNames(hashes) && (forall p | p in hashes :: p.0 != "" && IsDigest(p.1)) <==> WellDescribed(packages)
  {
    SortUnique(Hashes(packages));
    HashNames(packages);
    HashTexts(packages);
  }

  lemma {:induction false} SafeOnesAre(packages: seq<Package>)
    ensures forall p :: p in SafeOnes(packages) <==> p in packages && p.safeForDeferredApply
  {
    if packages != [] {
      SafeOnesAre(packages[1..]);
      assert packages == [packages[0]] + packages[1..];
    }
  }

  lemma SafeAreAllowed(packages: seq<Package>)
    ensures forall k | k in Kinds(SafeOnes(packages)) :: k in Kinds(packages)
  {
    var safe := SafeOnes(packages);
    SafeOnesAre(packages);
    KindsAre(safe);
    KindsAre(packages);
    forall k | k in Kinds(safe) ensures k in Kinds(packages) {
      var i :| 0 <= i < |safe| && Kinds(safe)[i] == k;
      assert safe[i] in packages;
      var j :| 0 <= j < |packages| && packages[j] == safe[i];
      assert Kinds(packages)[j] == k;
    }
  }

  lemma ApproversDiffer(names: seq<string>)
    ensures (forall i, j | 0 <= i < j < |names| :: Text.Lower(names[i]) != Text.Lower(names[j]))
       <==> (forall i, j | 0 <= i < j < |names| :: !Text.SameName(names[i], names[j]))
  {
    forall i, j | 0 <= i < j < |names|
      ensures Text.Lower(names[i]) == Text.Lower(names[j]) <==> Text.SameName(names[i], names[j])
    {
      Text.LowerIgnoresCase(names[i], names[j]);
    }
  }

  /** The record before it is validated. */
  function Draft(q: Request, now: int): Record {
    var bound := Bound(q.packages);
    Record(Binding(1, q.approvalId, q.repository, q.issueNumber, q.deviceName, q.expectedModel, q.expectedFirmware,
                   q.sourceArchiveSha256, q.manifestId, Text.SortPairs(Hashes(bound)), Kinds(bound),
                   Kinds(Deferrable(bound)), Approvers(q.approvers), now, q.expiresAt),
           Decision(AwaitingApproval, [], None, None), now, None, WaitingForCommand, 0, [], None, 0)
  }

  lemma CreateIs(q: Request, now: int)
    ensures CreateRecord(q, now) ==
            if q.expiresAt <= now then Failure(ExpiryNotInFuture)
            else if Bound(q.packages) == [] then Failure(NothingApprovable)
            else if Valid(Draft(q, now)) then Success(Draft(q, now))
            else Failure(CreatedInvalid)
  {
    KnownAreBound(q.packages);
    KnownAreBound(Bound(q.packages));
    CleanAreApprovers(q.approvers);
  }

  lemma DraftIsValid(q: Request, now: int)
    requires now < q.expiresAt && Bound(q.packages) != []
    ensures Valid(Draft(q, now)) <==> WellDescribed(Bound(q.packages)) && WellAddressed(q)
  {
    var bound := Bound(q.packages);
    KindsAre(bound);
    KnownAreBound(bound);
    SafeAreAllowed(bound);
    HashesAreValid(bound);
    ApproversDiffer(Approvers(q.approvers));
  }

  /** When a record is created, and why not otherwise. */
  lemma CreationSucceeds(q: Request, now: int)
    ensures
      var bound := Bound(q.packages);
      if q.expiresAt <= now then CreateRecord(q, now) == Failure(ExpiryNotInFuture)
      else if bound == [] then CreateRecord(q, now) == Failure(NothingApprovable)
      else if !WellDescribed(bound) || !WellAddressed(q) then CreateRecord(q, now) == Failure(CreatedInvalid)
      else CreateRecord(q, now).Success?
  {
    CreateIs(q, now);
    if now < q.expiresAt && Bound(q.packages) != [] {
      DraftIsValid(q, now);
    }
  }

  /** What a created record binds and starts with: everything but the packages is the request's. */
  lemma CreatedIs(q: Request, now: int)
    requires CreateRecord(q, now).Success?
    ensures
      var r := CreateRecord(q, now).value;
      var b := r.binding;
      && r == Record(b, Decision(AwaitingApproval, [], None, None), now, None, WaitingForCommand, 0, [], None, 0)
      && b == Binding(1, q.approvalId, q.repository, q.issueNumber, q.deviceName, q.expectedModel, q.expectedFirmware,
                      q.sourceArchiveSha256, q.manifestId, b.packageHashes, b.allowedPackages, b.safePackages,
                      Approvers(q.approvers), now, q.expiresAt)
  {
    CreateIs(q, now);
  }

  /** What a created record binds of the packages: the kinds in manifest order, the deferrable ones among them,
      and name and hash of each, by name. */
  lemma CreatedPackages(q: Request, now: int)
    requires CreateRecord(q, now).Success?
    ensures
      var b, bound := CreateRecord(q, now).value.binding, Bound(q.packages);
      && |b.allowedPackages| == |bound|
      && (forall i | 0 <= i < |bound| :: b.allowedPackages[i] == bound[i].kind)
      && |b.safePackages| == |Deferrable(bound)|
      && (forall i | 0 <= i < |b.safePackages| :: b.safePackages[i] == Deferrable(bound)[i].kind)
      && (forall h :: h in b.packageHashes <==> exists p :: p in bound && h == (p.filename, p.sha256))
      && forall i, j | 0 <= i < j < |b.packageHashes| :: Text.Precedes(b.packageHashes[i].0, b.packageHashes[j].0)
  {
    var bound := Bound(q.packages);
    CreateIs(q, now);
    DraftHashes(q, now);
    KindsAre(bound);
    KindsAre(Deferrable(bound));
  }

  lemma DraftHashes(q: Request, now: int)
    requires Valid(Draft(q, now))
    ensures
      var hashes := Draft(q, now).binding.packageHashes;
      && (forall h :: h in hashes <==> exists p :: p in Bound(q.packages) && h == (p.filename, p.sha256))
      && forall i, j | 0 <= i < j < |hashes| :: Text.Precedes(hashes[i].0, hashes[j].0)
  {
    var hashes := Hashes(Bound(q.packages));
    SortUnique(hashes);
    SortedByName(hashes);
    HashMembers(Bound(q.packages));
  }

  lemma HashMembers(packages: seq<Package>)
    ensures forall h :: h in Hashes(packages) <==> exists p :: p in packages && h == (p.filename, p.sha256)
  {
    KindsAre(packages);
    var hs := Hashes(packages);
    forall h | h in hs ensures exists p :: p in packages && h == (p.filename, p.sha256) {
      var i :| 0 <= i < |hs| && hs[i] == h;
      assert packages[i] in packages;
    }
    forall p | p in packages ensures (p.filename, p.sha256) in hs {
      var i :| 0 <= i < |packages| && packages[i] == p;
      assert hs[i] == (p.filename, p.sha256);
    }
  }

  // ---- Signing ----

  predicate NotEarlier(t: Option<int>, bound: int) {
    t == None || bound <= t.value
  }

  /** Exactly the records that hold together are signed, with a key of at least 32 characters. */
  lemma SignedRecords(r: Record, key: string, w: IssueCodec.Wire)
    ensures IssueCodec.Sign(r, key, w).Success? <==>
      var b, d := r.binding, r.decision;
      && 32 <= |key|
      && '/' in b.repository && 0 < b.issueNumber
      && b.approvers != [] && (forall i, j | 0 <= i < j < |b.approvers| :: !Text.SameName(b.approvers[i], b.approvers[j]))
      && b.allowedPackages != []
      && (forall k | k in b.safePackages + d.approvedPackages :: k in b.allowedPackages)
      && (forall i, j | 0 <= i < j < |b.packageHashes| :: b.packageHashes[i].0 != b.packageHashes[j].0)
      && (forall i | 0 <= i < |b.packageHashes| :: b.packageHashes[i].0 != "" && Sha256Text(b.packageHashes[i].1))
      && b.createdAt < b.expiresAt && b.createdAt <= r.updatedAt
      && NotEarlier(d.executeAt, b.createdAt) && NotEarlier(d.snoozedUntil, b.createdAt)
      && NotEarlier(r.lastReminded, b.createdAt)
      && 0 <= r.revision && 0 <= r.reminderCount
  {
    var b := r.binding;
    ApproversDiffer(b.approvers);
    forall i | 0 <= i < |b.packageHashes| ensures IsDigest(b.packageHashes[i].1) <==> Sha256Text(b.packageHashes[i].1) {
      HexDigits(b.packageHashes[i].1);
    }
    assert forall i | 0 <= i < |b.packageHashes| :: b.packageHashes[i] in b.packageHashes;
    assert forall k :: k in b.safePackages + r.decision.approvedPackages <==>
                         k in b.safePackages || k in r.decision.approvedPackages;
  }
}
