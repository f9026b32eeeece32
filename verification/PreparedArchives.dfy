/** What one monitor run decides, case by case: known archives, refused archives, duplicates and prepared
    archives (`run_agent_once` and `_find_applied_payload`, src/fgops/agent_orchestrator.py). */
module PreparedArchives {
  import opened Wrappers
  import opened Lifecycle
  import A = ControlledApply
  import D = Deduplication
  import P = Payload

  // ---- Fingerprints that exist ----

  /** A package of this kind that has a hash. */
  predicate Counts(items: seq<A.Item>, i: nat, kind: string) {
    i < |items| && items[i].kind == kind && items[i].sha256 != ""
  }

  ghost predicate OneOfEach(items: seq<A.Item>, kinds: set<string>) {
    && (forall k | k in kinds :: exists i: nat :: Counts(items, i, k))
    && (forall k, i: nat, j: nat | k in kinds && Counts(items, i, k) && Counts(items, j, k) :: i == j)
  }

  lemma {:induction false} DistinctAreCounted(ps: seq<(string, string)>)
    requires P.DistinctNames(ps)
    ensures |P.Names(ps)| == |ps|
  {
    if ps != [] {
      var rest := ps[1..];
      forall i, j | 0 <= i < j < |rest| ensures rest[i].0 != rest[j].0 {
        assert rest[i] == ps[i + 1] && rest[j] == ps[j + 1];
      }
      DistinctAreCounted(rest);
      P.NamesCons(ps);
      forall p | p in rest ensures p.0 != ps[0].0 {
        var k :| 0 <= k < |rest| && rest[k] == p;
        assert ps[k + 1] == p;
      }
      assert ps[0].0 !in P.Names(rest);
    }
  }

  /** No two packages of one kind take part. */
  ghost predicate NoTwo(items: seq<A.Item>, kinds: set<string>) {
    forall k, i: nat, j: nat | k in kinds && Counts(items, i, k) && Counts(items, j, k) :: i == j
  }

  lemma CountsTail(items: seq<A.Item>, i: nat, kind: string)
    requires items != []
    ensures Counts(items[1..], i, kind) <==> Counts(items, i + 1, kind)
  {
  }

  lemma PairsMembers(items: seq<A.Item>, kinds: set<string>, kind: string)
    requires kind in kinds
    ensures (exists p :: p in P.Pairs(items, kinds) && p.0 == kind) <==> exists i: nat :: Counts(items, i, kind)
  {
    if p :| p in P.Pairs(items, kinds) && p.0 == kind {
      D.PairsComeFromItems(items, kinds, p);
      var x :| x in items && x.kind == kind && x.sha256 == p.1;
      var i: nat :| i < |items| && items[i] == x;
      assert Counts(items, i, kind);
    }
    if i: nat :| Counts(items, i, kind) {
      D.PairsComeFromItems(items, kinds, (kind, items[i].sha256));
      assert items[i] in items;
    }
  }

  lemma {:induction false} NoTwoIsDistinct(items: seq<A.Item>, kinds: set<string>)
    ensures NoTwo(items, kinds) <==> P.DistinctNames(P.Pairs(items, kinds))
  {
    if items != [] {
      var rest := items[1..];
      NoTwoIsDistinct(rest, kinds);
      NoTwoTail(items, kinds);
      if D.TakesPart(items[0], kinds) {
        PairsMembers(rest, kinds, items[0].kind);
        assert P.Pairs(items, kinds) == [(items[0].kind, items[0].sha256)] + P.Pairs(rest, kinds);
        HeadIsNew(P.Pairs(items, kinds), P.Pairs(rest, kinds), (items[0].kind, items[0].sha256));
      } else {
        assert P.Pairs(items, kinds) == P.Pairs(rest, kinds);
      }
    }
  }

  lemma HeadIsNew(ps: seq<(string, string)>, rest: seq<(string, string)>, p: (string, string))
    requires ps == [p] + rest
    ensures P.DistinctNames(ps) <==> P.DistinctNames(rest) && !exists q :: q in rest && q.0 == p.0
  {
    assert forall i | 0 <= i < |rest| :: ps[i + 1] == rest[i];
    assert forall i | 0 < i < |ps| :: ps[i] == rest[i - 1];
    assert ps[0] == p;
    if P.DistinctNames(ps) {
      forall q | q in rest ensures q.0 != p.0 {
        var k :| 0 <= k < |rest| && rest[k] == q;
        assert ps[k + 1] == q;
      }
    } else if P.DistinctNames(rest) {
      var i, j :| 0 <= i < j < |ps| && ps[i].0 == ps[j].0;
      assert rest[j - 1] in rest;
    }
  }

  lemma NoTwoTail(items: seq<A.Item>, kinds: set<string>)
    requires items != []
    ensures NoTwo(items, kinds) <==>
      NoTwo(items[1..], kinds)
      && (D.TakesPart(items[0], kinds) ==> !exists i: nat :: Counts(items[1..], i, items[0].kind))
  {
    var rest := items[1..];
    forall i: nat, k ensures Counts(rest, i, k) <==> Counts(items, i + 1, k) {
      CountsTail(items, i, k);
    }
    if NoTwo(items, kinds) {
      forall k, i: nat, j: nat | k in kinds && Counts(rest, i, k) && Counts(rest, j, k) ensures i == j {
        assert Counts(items, i + 1, k) && Counts(items, j + 1, k);
      }
      if D.TakesPart(items[0], kinds) {
        assert Counts(items, 0, items[0].kind);
      }
    } else {
      var k, i: nat, j: nat :| k in kinds && Counts(items, i, k) && Counts(items, j, k) && i != j;
      if i == 0 {
        assert Counts(rest, j - 1, k);
      } else if j == 0 {
        assert Counts(rest, i - 1, k);
      } else {
        assert Counts(rest, i - 1, k) && Counts(rest, j - 1, k);
      }
    }
  }

  /** A fingerprint over some kinds exists exactly when each of them has one package with a hash. */
  lemma FingerprintExists(items: seq<A.Item>, kinds: set<string>, digest: string -> string)
    ensures P.Fingerprint(items, kinds, digest).Some? <==> kinds != {} && OneOfEach(items, kinds)
  {
    var ps := P.Pairs(items, kinds);
    NoTwoIsDistinct(items, kinds);
    P.CountedNamesAreDistinct(ps);
    if P.DistinctNames(ps) {
      DistinctAreCounted(ps);
    }
    forall k | k in kinds ensures k in P.Names(ps) <==> exists i: nat :: Counts(items, i, k) {
      PairsMembers(items, kinds, k);
    }
    forall k | k in P.Names(ps) ensures k in kinds {
      var p :| p in ps && p.0 == k;
      D.PairsComeFromItems(items, kinds, p);
    }
    assert P.Names(ps) == kinds <==> forall k | k in kinds :: k in P.Names(ps);
  }

  // ---- The scan for an applied payload ----

  /** The fingerprint an entry is known by: the recorded one if it was taken over these kinds, else the one of
      the retained manifest if that can be read. */
  lemma KnownPayload(h: string, e: Entry, kinds: set<string>, cat: Catalog, readable: set<string>)
    requires kinds != {}
    ensures
      var recorded := e.payloadSha.Some? && (e.payloadKinds == Some(kinds)
                      || ((e.payloadKinds == None || e.payloadKinds == Some({})) && kinds == set k | k in e.planned));
      EntryPayload(h, e, kinds, cat, readable) ==
      if recorded then e.payloadSha
      else if e.hasWorkDir && h in readable then P.Fingerprint(cat.bundle(h).packages, kinds, cat.digest)
      else None
  {
  }

  /** The entry was applied, or is a duplicate of one that was, and is known by this fingerprint. */
  predicate Repeats(archives: map<string, Entry>, g: string, sha: string, kinds: set<string>, exclude: string,
                    cat: Catalog, readable: set<string>) {
    && g in archives && g != exclude && archives[g].status in {Applied, ContentDuplicate}
    && EntryPayload(g, archives[g], kinds, cat, readable) == Some(sha)
  }

  /** The entry with what the scan writes into it. */
  function Refreshed(archives: map<string, Entry>, g: string, kinds: set<string>, exclude: string, cat: Catalog,
                     readable: set<string>): Entry
    requires g in archives
  {
    var e := archives[g];
    var sha := EntryPayload(g, e, kinds, cat, readable);
    if g != exclude && e.status in {Applied, ContentDuplicate} && sha.Some?
    then e.(payloadSha := sha, payloadKinds := Some(kinds)) else e
  }

  /** What the scan writes into one entry does not change what it will find. */
  lemma RememberKeepsRepeats(archives: map<string, Entry>, h: string, kinds: set<string>, exclude: string, cat: Catalog,
                             readable: set<string>, g: string, sha: string)
    requires kinds != {} && IsCandidate(archives, h, exclude)
    ensures
      var updated := Remember(archives, h, EntryPayload(h, archives[h], kinds, cat, readable), kinds);
      && updated.Keys == archives.Keys
      && (Repeats(updated, g, sha, kinds, exclude, cat, readable) <==>
            Repeats(archives, g, sha, kinds, exclude, cat, readable))
      && (g in archives ==> Refreshed(updated, g, kinds, exclude, cat, readable)
                            == Refreshed(archives, g, kinds, exclude, cat, readable))
  {
  }

  function Hits(archives: map<string, Entry>, sha: string, kinds: set<string>, exclude: string, cat: Catalog,
                readable: set<string>): set<string> {
    set g | g in archives && Repeats(archives, g, sha, kinds, exclude, cat, readable)
  }

  function Renewed(archives: map<string, Entry>, kinds: set<string>, exclude: string, cat: Catalog, readable: set<string>)
    : map<string, Entry>
  {
    map g | g in archives :: Refreshed(archives, g, kinds, exclude, cat, readable)
  }

  /** The scan stops behind its first hit, or reads the whole file; the entries it passed are refreshed. */
  predicate Scanned(order: seq<string>, archives: map<string, Entry>, hits: set<string>, renewed: map<string, Entry>,
                    updated: map<string, Entry>, found: Option<string>, n: nat)
    requires renewed.Keys == archives.Keys
  {
    && n <= |order| && updated.Keys == archives.Keys
    && (match found
        case None => n == |order| && forall j | 0 <= j < n :: order[j] !in hits
        case Some(g) => 0 < n && order[n - 1] == g && g in hits && forall j | 0 <= j < n - 1 :: order[j] !in hits)
    && forall g | g in archives :: updated[g] == if g in order[..n] then renewed[g] else archives[g]
  }

  lemma ScanPass(order: seq<string>, archives: map<string, Entry>, hits: set<string>, renewed: map<string, Entry>,
                 passed: map<string, Entry>, updated: map<string, Entry>, found: Option<string>, n: nat)
    requires order != [] && order[0] !in hits && renewed.Keys == archives.Keys == passed.Keys
    requires forall g | g in archives :: passed[g] == if g == order[0] then renewed[g] else archives[g]
    requires Scanned(order[1..], passed, hits, renewed, updated, found, n)
    ensures Scanned(order, archives, hits, renewed, updated, found, n + 1)
  {
    assert order[..n + 1] == [order[0]] + order[1..][..n];
    assert forall j | 0 < j <= n && j < |order| :: order[j] == order[1..][j - 1];
  }

  /** What the scan writes into one entry does not change what it will find. */
  lemma PassKeeps(archives: map<string, Entry>, h: string, sha: string, kinds: set<string>, exclude: string, cat: Catalog,
                  readable: set<string>)
    requires kinds != {} && IsCandidate(archives, h, exclude)
    ensures
      var passed := Remember(archives, h, EntryPayload(h, archives[h], kinds, cat, readable), kinds);
      && passed.Keys == archives.Keys
      && Hits(passed, sha, kinds, exclude, cat, readable) == Hits(archives, sha, kinds, exclude, cat, readable)
      && Renewed(passed, kinds, exclude, cat, readable) == Renewed(archives, kinds, exclude, cat, readable)
      && forall g | g in archives ::
           passed[g] == if g == h then Refreshed(archives, h, kinds, exclude, cat, readable) else archives[g]
  {
    forall g {
      RememberKeepsRepeats(archives, h, kinds, exclude, cat, readable, g, sha);
    }
  }

  /** For any state file: the scan finds the first applied or duplicate entry known by the asked fingerprint, if
      there is one, and refreshes exactly the entries it has passed. */
  lemma {:induction false} ScanFindsFirst(order: seq<string>, archives: map<string, Entry>, sha: string,
                                          kinds: set<string>, exclude: string, cat: Catalog, readable: set<string>)
    returns (n: nat)
    requires kinds != {}
    ensures
      var (updated, found) := FindPayload(order, archives, sha, kinds, exclude, cat, readable);
      Scanned(order, archives, Hits(archives, sha, kinds, exclude, cat, readable),
              Renewed(archives, kinds, exclude, cat, readable), updated, found, n)
    decreases |order|
  {
    var (updated, found) := FindPayload(order, archives, sha, kinds, exclude, cat, readable);
    var hits, renewed := Hits(archives, sha, kinds, exclude, cat, readable), Renewed(archives, kinds, exclude, cat, readable);
    if order == [] {
      n := 0;
    } else if !IsCandidate(archives, order[0], exclude) {
      var k := ScanFindsFirst(order[1..], archives, sha, kinds, exclude, cat, readable);
      n := k + 1;
      ScanPass(order, archives, hits, renewed, archives, updated, found, k);
    } else {
      var candidate := EntryPayload(order[0], archives[order[0]], kinds, cat, readable);
      if candidate == Some(sha) {
        n := 1;
        assert order[..1] == [order[0]];
      } else {
        var passed := Remember(archives, order[0], candidate, kinds);
        var k := ScanFindsFirst(order[1..], passed, sha, kinds, exclude, cat, readable);
        n := k + 1;
        PassKeeps(archives, order[0], sha, kinds, exclude, cat, readable);
        ScanPass(order, archives, hits, renewed, passed, updated, found, k);
      }
    }
  }

  // ---- One monitor run ----

  /** The agent has dealt with this archive before, whatever became of it. */
  predicate Settled(s: AgentState, h: string) {
    h in s.archives && s.archives[h].status in {Prepared, Applied, ApplyFailed, ReviewRequired, ContentDuplicate}
  }

  /** The enabled kinds of the packages, as they stand in the manifest. */
  function Wanted(items: seq<A.Item>, enabled: seq<string>): seq<string> {
    if items == [] then []
    else
      var kind := items[|items| - 1].kind;
      Wanted(items[..|items| - 1], enabled) + (if kind in enabled && kind != "UNKNOWN" then [kind] else [])
  }

  lemma {:induction false} PlannedAppend(items: seq<A.Item>, x: A.Item, enabled: seq<string>)
    ensures Planned(items + [x], enabled) == Planned(items, enabled) + Planned([x], enabled)
  {
    if items == [] {
      assert items + [x] == [x];
    } else {
      assert (items + [x])[1..] == items[1..] + [x];
      PlannedAppend(items[1..], x, enabled);
    }
  }

  lemma {:induction false} PlannedAreWanted(items: seq<A.Item>, enabled: seq<string>)
    ensures Planned(items, enabled) == Wanted(items, enabled)
  {
    if items != [] {
      var front, x := items[..|items| - 1], items[|items| - 1];
      PlannedAreWanted(front, enabled);
      PlannedAppend(front, x, enabled);
      assert items == front + [x];
    }
  }

  function WantedKinds(items: seq<A.Item>, enabled: seq<string>): set<string> {
    set k | k in Wanted(items, enabled)
  }

  /** A bundle the agent prepares: it can be built, no enabled kind is there twice, no unknown package is in it
      if these are refused, and each of its enabled kinds has one package with a hash. */
  ghost predicate Usable(c: A.Config, b: Bundle, src: Source) {
    && src.buildWorks
    && (forall i, j | 0 <= i < j < |b.packages| && b.packages[i].kind == b.packages[j].kind ::
          b.packages[i].kind !in c.enabled || b.packages[i].kind in {"UNKNOWN", "IGNORED"})
    && (c.rejectUnknown ==> forall i | 0 <= i < |b.packages| :: b.packages[i].kind != "UNKNOWN")
    && Wanted(b.packages, c.enabled) != []
    && OneOfEach(b.packages, WantedKinds(b.packages, c.enabled))
  }

  lemma UsableIsBuildable(c: A.Config, b: Bundle, src: Source, cat: Catalog)
    ensures Usable(c, b, src) <==> Buildable(c, b, src, cat)
  {
    PlannedAreWanted(b.packages, c.enabled);
    FingerprintExists(b.packages, KindSet(Planned(b.packages, c.enabled)), cat.digest);
    if Wanted(b.packages, c.enabled) != [] {
      assert Wanted(b.packages, c.enabled)[0] in WantedKinds(b.packages, c.enabled);
    }
    assert HasUnknown(b.packages) <==> exists i | 0 <= i < |b.packages| :: b.packages[i].kind == "UNKNOWN";
  }

  /** Nothing fetched, or an archive the agent knows: the state file stays.  Only a prepared archive is taken up
      again, by an unattended agent outside a dry run. */
  lemma KnownArchive(s: AgentState, c: A.Config, cat: Catalog, src: Source, dryRun: bool)
    ensures src.archive == None ==> MonitorSpec(s, c, cat, src, dryRun) == (s, MonitorRaised)
    ensures src.archive.Some? && Settled(s, src.archive.value) ==>
      var h := src.archive.value;
      var e := s.archives[h];
      MonitorSpec(s, c, cat, src, dryRun) ==
      (s, if c.mode == A.Unattended && !dryRun && e.status == Prepared && e.manifestId.Some? && e.hasWorkDir
          then Ready(h, e.manifestId.value) else NoChange(h))
  {
  }

  lemma RefusedArchive(s: AgentState, c: A.Config, cat: Catalog, src: Source, dryRun: bool, h: string)
    requires src.archive == Some(h) && !Settled(s, h) && !Usable(c, cat.bundle(h), src)
    ensures MonitorSpec(s, c, cat, src, dryRun) == (s, MonitorRaised)
  {
    UsableIsBuildable(c, cat.bundle(h), src, cat);
  }

  function Added(s: AgentState, archives: map<string, Entry>, h: string, e: Entry): AgentState {
    AgentState(if h in s.archives then s.order else s.order + [h], archives[h := e])
  }

  /** The entry of a new archive, as a duplicate of `original` or as prepared. */
  function NewEntry(b: Bundle, enabled: seq<string>, sha: string, original: Option<string>): Entry {
    var planned, kinds := Wanted(b.packages, enabled), WantedKinds(b.packages, enabled);
    if original.Some? then Entry(ContentDuplicate, None, false, Some(sha), Some(kinds), planned, original, Disabled)
    else Entry(Prepared, Some(b.manifestId), true, Some(sha), Some(kinds), planned, None, Unset)
  }

  function NewOutcome(s: AgentState, h: string, b: Bundle, enabled: seq<string>, sha: string, planWritten: bool,
                      archives: map<string, Entry>, original: Option<string>): (AgentState, MonitorResult) {
    if original.Some? then (Added(s, archives, h, NewEntry(b, enabled, sha, original)), NoContentChange(h))
    else if !planWritten then (AgentState(s.order, archives), MonitorRaised)
    else (Added(s, archives, h, NewEntry(b, enabled, sha, None)), Ready(h, b.manifestId))
  }

  lemma PrepareIs(s: AgentState, c: A.Config, cat: Catalog, src: Source, h: string)
    requires Buildable(c, cat.bundle(h), src, cat)
    ensures
      var b := cat.bundle(h);
      var kinds := WantedKinds(b.packages, c.enabled);
      && P.Fingerprint(b.packages, kinds, cat.digest).Some?
      && var sha := P.Fingerprint(b.packages, kinds, cat.digest).value;
         var found := FindPayload(s.order, s.archives, sha, kinds, h, cat, src.readable);
         found.0.Keys == s.archives.Keys ==>
           Prepare(s, c, cat, src, h) == NewOutcome(s, h, b, c.enabled, sha, src.planWritten, found.0, found.1)
  {
    PlannedAreWanted(cat.bundle(h).packages, c.enabled);
  }

  /** A new usable archive: it becomes a duplicate of the first entry that repeats its enabled payload; without
      such an entry it is prepared, if its plan can be written. */
  lemma NewArchive(s: AgentState, c: A.Config, cat: Catalog, src: Source, dryRun: bool, h: string)
    returns (sha: string, archives: map<string, Entry>, original: Option<string>, n: nat)
    requires src.archive == Some(h) && !Settled(s, h) && Usable(c, cat.bundle(h), src)
    ensures
      var kinds := WantedKinds(cat.bundle(h).packages, c.enabled);
      && P.Fingerprint(cat.bundle(h).packages, kinds, cat.digest) == Some(sha)
      && Scanned(s.order, s.archives, Hits(s.archives, sha, kinds, h, cat, src.readable),
                 Renewed(s.archives, kinds, h, cat, src.readable), archives, original, n)
    ensures MonitorSpec(s, c, cat, src, dryRun)
         == NewOutcome(s, h, cat.bundle(h), c.enabled, sha, src.planWritten, archives, original)
  {
    var b := cat.bundle(h);
    var kinds := WantedKinds(b.packages, c.enabled);
    UsableIsBuildable(c, b, src, cat);
    assert Wanted(b.packages, c.enabled)[0] in kinds;
    PrepareIs(s, c, cat, src, h);
    sha := P.Fingerprint(b.packages, kinds, cat.digest).value;
    n := ScanFindsFirst(s.order, s.archives, sha, kinds, h, cat, src.readable);
    archives, original := FindPayload(s.order, s.archives, sha, kinds, h, cat, src.readable).0,
      FindPayload(s.order, s.archives, sha, kinds, h, cat, src.readable).1;
  }
}
