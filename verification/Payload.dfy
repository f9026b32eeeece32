/** The payload fingerprint (`_payload_sha256`, src/fgops/agent_orchestrator.py). */
module Payload {
  import opened Wrappers
  import opened Text
  import A = ControlledApply

  /** The (kind, hash) pairs of the packages whose kind takes part. */
  function Pairs(items: seq<A.Item>, kinds: set<string>): seq<Pair> {
    if items == [] then []
    else
      (if items[0].kind in kinds && items[0].sha256 != "" then [(items[0].kind, items[0].sha256)] else [])
      + Pairs(items[1..], kinds)
  }

  function Names(ps: seq<Pair>): set<string> {
    set p | p in ps :: p.0
  }

  function Line(p: Pair): string {
    p.0 + ":" + p.1
  }

  function Lines(ps: seq<Pair>): string {
    if ps == [] then ""
    else if |ps| == 1 then Line(ps[0])
    else Line(ps[0]) + "\n" + Lines(ps[1..])
  }

  /** `digest` stands for SHA-256 of the text. */
  function Fingerprint(items: seq<A.Item>, kinds: set<string>, digest: string -> string): Option<string> {
    var selected := Pairs(items, kinds);
    if selected == [] || Names(selected) != kinds || |selected| != |kinds| then None
    else Some(digest(Lines(SortPairs(selected))))
  }

  lemma PairsStep(selected: seq<Pair>, items: seq<A.Item>, kinds: set<string>, i: nat)
    requires i < |items|
    ensures
      var taken := if items[i].kind in kinds && items[i].sha256 != "" then [(items[i].kind, items[i].sha256)] else [];
      selected + Pairs(items[i..], kinds) == (selected + taken) + Pairs(items[i + 1..], kinds)
  {
    assert items[i..][1..] == items[i + 1..];
  }

  /** The collecting loop. */
  method PayloadSha256(items: seq<A.Item>, kinds: set<string>, digest: string -> string) returns (r: Option<string>)
    ensures r == Fingerprint(items, kinds, digest)
  {
    var selected: seq<Pair> := [];
    for i := 0 to |items|
      invariant selected + Pairs(items[i..], kinds) == Pairs(items, kinds)
    {
      PairsStep(selected, items, kinds, i);
      if items[i].kind in kinds && items[i].sha256 != "" {
        selected := selected + [(items[i].kind, items[i].sha256)];
      }
    }
    assert items[|items|..] == [] && selected + [] == selected;
    if selected == [] || Names(selected) != kinds || |selected| != |kinds| {
      return None;
    }
    r := Some(digest(Lines(SortPairs(selected))));
  }

  /** The kind-to-hash map of the participating packages. */
  function MapOf(ps: seq<Pair>): map<string, string> {
    if ps == [] then map[] else MapOf(ps[1..])[ps[0].0 := ps[0].1]
  }

  function PayloadMap(items: seq<A.Item>, kinds: set<string>): map<string, string> {
    MapOf(Pairs(items, kinds))
  }

  ghost predicate Injective(digest: string -> string) {
    forall x, y :: digest(x) == digest(y) ==> x == y
  }

  /** Kinds contain neither `:` nor a newline, hashes no newline. */
  predicate CleanPair(p: Pair) {
    ':' !in p.0 && '\n' !in p.0 && '\n' !in p.1
  }

  predicate CleanItems(items: seq<A.Item>) {
    forall i | i in items :: CleanPair((i.kind, i.sha256))
  }

  // ---- Distinct kinds ----

  predicate DistinctNames(ps: seq<Pair>) {
    forall i, j | 0 <= i < j < |ps| :: ps[i].0 != ps[j].0
  }

  lemma NamesCons(ps: seq<Pair>)
    requires ps != []
    ensures Names(ps) == {ps[0].0} + Names(ps[1..])
  {
  }

  lemma {:induction false} CountedNamesAreDistinct(ps: seq<Pair>)
    ensures |Names(ps)| <= |ps|
    ensures |Names(ps)| == |ps| ==> DistinctNames(ps)
  {
    if ps != [] {
      var rest := ps[1..];
      CountedNamesAreDistinct(rest);
      NamesCons(ps);
      if |Names(ps)| == |ps| {
        assert ps[0].0 !in Names(rest);
        forall j | 0 < j < |ps| ensures ps[0].0 != ps[j].0 {
          assert rest[j - 1] in rest && rest[j - 1] == ps[j];
        }
      }
    }
  }

  lemma {:induction false} MapOfFacts(ps: seq<Pair>)
    requires DistinctNames(ps)
    ensures forall p :: p in ps <==> p.0 in MapOf(ps) && MapOf(ps)[p.0] == p.1
    ensures MapOf(ps).Keys == Names(ps)
  {
    if ps != [] {
      MapOfFacts(ps[1..]);
      assert ps == [ps[0]] + ps[1..];
      assert forall p | p in ps[1..] :: p.0 in Names(ps[1..]);
      assert ps[0].0 !in Names(ps[1..]) by {
        forall p | p in ps[1..] ensures p.0 != ps[0].0 {
          var k :| 0 <= k < |ps[1..]| && ps[1..][k] == p;
          assert ps[k + 1] == p;
        }
      }
    }
  }

  lemma {:induction false} DistinctMultiplicity(ps: seq<Pair>, p: Pair)
    requires DistinctNames(ps)
    ensures multiset(ps)[p] == if p in ps then 1 else 0
  {
    if ps != [] {
      DistinctMultiplicity(ps[1..], p);
      assert ps == [ps[0]] + ps[1..];
      if p in ps[1..] {
        var k :| 0 <= k < |ps[1..]| && ps[1..][k] == p;
        assert ps[k + 1] == p;
      }
    }
  }

  lemma SameMapSamePairs(ps: seq<Pair>, qs: seq<Pair>)
    requires DistinctNames(ps) && DistinctNames(qs)
    ensures MapOf(ps) == MapOf(qs) <==> multiset(ps) == multiset(qs)
  {
    MapOfFacts(ps);
    MapOfFacts(qs);
    if MapOf(ps) == MapOf(qs) {
      forall p ensures multiset(ps)[p] == multiset(qs)[p] {
        DistinctMultiplicity(ps, p);
        DistinctMultiplicity(qs, p);
        assert p in ps <==> p in qs;
      }
    }
    if multiset(ps) == multiset(qs) {
      SamePairs(ps, qs);
      assert Names(ps) == Names(qs);
      forall k | k in MapOf(ps) ensures k in MapOf(qs) && MapOf(ps)[k] == MapOf(qs)[k] {
        assert (k, MapOf(ps)[k]) in ps;
      }
    }
  }

  // ---- The canonical text determines the list ----

  lemma SplitAt(sep: char, a: string, b: string, x: string, y: string)
    requires sep !in a && sep !in b && a + [sep] + x == b + [sep] + y
    ensures a == b && x == y
  {
    var s, t := a + [sep] + x, b + [sep] + y;
    assert s[|a|] == sep && t[|b|] == sep;
    assert |a| == |b|;
    assert a == s[..|a|] && b == t[..|b|];
    assert x == s[|a| + 1..] && y == t[|b| + 1..];
  }

  lemma LineIsInjective(p: Pair, q: Pair)
    requires CleanPair(p) && CleanPair(q) && Line(p) == Line(q)
    ensures p == q
  {
    assert Line(p) == p.0 + [':'] + p.1 && Line(q) == q.0 + [':'] + q.1;
    SplitAt(':', p.0, q.0, p.1, q.1);
  }

  lemma {:induction false} LinesAreInjective(ps: seq<Pair>, qs: seq<Pair>)
    requires |ps| == |qs| && Lines(ps) == Lines(qs)
    requires forall p | p in ps :: CleanPair(p)
    requires forall q | q in qs :: CleanPair(q)
    ensures ps == qs
  {
    if |ps| == 1 {
      LineIsInjective(ps[0], qs[0]);
    } else if |ps| > 1 {
      assert CleanPair(ps[0]) && CleanPair(qs[0]);
      assert Lines(ps) == Line(ps[0]) + ['\n'] + Lines(ps[1..]);
      assert Lines(qs) == Line(qs[0]) + ['\n'] + Lines(qs[1..]);
      SplitAt('\n', Line(ps[0]), Line(qs[0]), Lines(ps[1..]), Lines(qs[1..]));
      LineIsInjective(ps[0], qs[0]);
      LinesAreInjective(ps[1..], qs[1..]);
      assert ps == [ps[0]] + ps[1..] && qs == [qs[0]] + qs[1..];
    }
  }

  lemma {:induction false} PairsFacts(items: seq<A.Item>, kinds: set<string>)
    requires CleanItems(items)
    ensures forall p | p in Pairs(items, kinds) :: CleanPair(p)
  {
    if items != [] {
      assert items[0] in items;
      assert forall i | i in items[1..] :: i in items;
      PairsFacts(items[1..], kinds);
    }
  }

  lemma FingerprintedPairs(items: seq<A.Item>, kinds: set<string>, digest: string -> string)
    requires Fingerprint(items, kinds, digest).Some? && CleanItems(items)
    ensures
      var ps := Pairs(items, kinds);
      && DistinctNames(ps) && |ps| == |kinds|
      && PayloadMap(items, kinds).Keys == kinds
      && multiset(SortPairs(ps)) == multiset(ps) && PairsAscending(SortPairs(ps))
      && |SortPairs(ps)| == |ps|
      && forall p | p in SortPairs(ps) :: CleanPair(p)
  {
    var ps := Pairs(items, kinds);
    CountedNamesAreDistinct(ps);
    MapOfFacts(ps);
    SortPairsFacts(ps);
    SamePairs(SortPairs(ps), ps);
    PairsFacts(items, kinds);
  }

  /** With an ideal hash, fingerprints over the same kinds are equal exactly when the kind-to-hash
      maps are. */
  lemma FingerprintIsSound(items: seq<A.Item>, others: seq<A.Item>, kinds: set<string>, digest: string -> string)
    requires Injective(digest) && CleanItems(items) && CleanItems(others)
    requires Fingerprint(items, kinds, digest).Some? && Fingerprint(others, kinds, digest).Some?
    ensures Fingerprint(items, kinds, digest) == Fingerprint(others, kinds, digest)
       <==> PayloadMap(items, kinds) == PayloadMap(others, kinds)
  {
    var ps, qs := Pairs(items, kinds), Pairs(others, kinds);
    FingerprintedPairs(items, kinds, digest);
    FingerprintedPairs(others, kinds, digest);
    SameMapSamePairs(ps, qs);
    if Fingerprint(items, kinds, digest) == Fingerprint(others, kinds, digest) {
      LinesAreInjective(SortPairs(ps), SortPairs(qs));
    }
    if PayloadMap(items, kinds) == PayloadMap(others, kinds) {
      AscendingIsUnique(SortPairs(ps), SortPairs(qs));
    }
  }

  /** The fingerprint does not depend on the package order. */
  lemma FingerprintIgnoresOrder(items: seq<A.Item>, others: seq<A.Item>, kinds: set<string>, digest: string -> string)
    requires multiset(items) == multiset(others)
    ensures Fingerprint(items, kinds, digest) == Fingerprint(others, kinds, digest)
  {
    PairsPermute(items, others, kinds);
    var ps, qs := Pairs(items, kinds), Pairs(others, kinds);
    SamePairs(ps, qs);
    assert Names(ps) == Names(qs);
    SortPairsFacts(ps);
    SortPairsFacts(qs);
    AscendingIsUnique(SortPairs(ps), SortPairs(qs));
  }

  lemma PairsWithout(before: seq<A.Item>, x: A.Item, after: seq<A.Item>, kinds: set<string>)
    ensures multiset(Pairs(before + [x] + after, kinds))
         == multiset(Pairs([x], kinds)) + multiset(Pairs(before + after, kinds))
  {
    PairsConcat(before + [x], after, kinds);
    PairsConcat(before, [x], kinds);
    PairsConcat(before, after, kinds);
  }

  lemma Extract(others: seq<A.Item>, x: A.Item) returns (before: seq<A.Item>, after: seq<A.Item>)
    requires x in others
    ensures others == before + [x] + after
    ensures multiset(before + after) == multiset(others) - multiset{x}
  {
    var k :| 0 <= k < |others| && others[k] == x;
    before, after := others[..k], others[k + 1..];
  }

  lemma PairsHead(items: seq<A.Item>, kinds: set<string>)
    requires items != []
    ensures multiset(items[1..]) == multiset(items) - multiset{items[0]}
    ensures multiset(Pairs(items, kinds)) == multiset(Pairs([items[0]], kinds)) + multiset(Pairs(items[1..], kinds))
  {
    assert items == [items[0]] + items[1..];
    PairsConcat([items[0]], items[1..], kinds);
  }

  lemma {:induction false} PairsPermute(items: seq<A.Item>, others: seq<A.Item>, kinds: set<string>)
    requires multiset(items) == multiset(others)
    ensures multiset(Pairs(items, kinds)) == multiset(Pairs(others, kinds))
  {
    if items == [] {
      assert |others| == |multiset(others)| == 0;
    } else {
      var x, rest := items[0], items[1..];
      PairsHead(items, kinds);
      assert x in multiset(others);
      var before, after := Extract(others, x);
      PairsPermute(rest, before + after, kinds);
      PairsWithout(before, x, after, kinds);
    }
  }

  lemma {:induction false} PairsConcat(a: seq<A.Item>, b: seq<A.Item>, kinds: set<string>)
    ensures Pairs(a + b, kinds) == Pairs(a, kinds) + Pairs(b, kinds)
  {
    if a == [] {
      assert a + b == b;
    } else {
      assert (a + b)[1..] == a[1..] + b;
      PairsConcat(a[1..], b, kinds);
    }
  }

  /** The text under the fingerprint: one line `kind:hash` for each participating package. */
  lemma {:induction false} LinesAppend(ps: seq<Pair>, p: Pair)
    ensures Lines(ps + [p]) == (if ps == [] then "" else Lines(ps) + "\n") + p.0 + ":" + p.1
  {
    if ps == [] {
      assert ps + [p] == [p];
    } else {
      assert (ps + [p])[1..] == ps[1..] + [p];
      LinesAppend(ps[1..], p);
      if |ps| > 1 {
        LinesRegroup(Line(ps[0]), Lines(ps[1..]), p.0, p.1);
      } else {
        assert ps[1..] == [];
      }
    }
  }

  lemma LinesRegroup(a: string, b: string, c: string, d: string)
    ensures a + "\n" + (b + "\n" + c + ":" + d) == (a + "\n" + b) + "\n" + c + ":" + d
  {
  }
}
