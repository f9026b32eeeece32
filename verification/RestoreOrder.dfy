/** The order in which packages are selected and restored, in terms of `package_order` itself
    (`run_controlled_apply`, src/fgops/controlled_apply.py). */
module RestoreOrder {
  import opened Wrappers
  import opened ControlledApply

  /** What the configuration enforces: no kind twice; there are far fewer than 999 kinds. */
  predicate ProperOrder(order: seq<string>) {
    |order| <= 999 && forall i, j | 0 <= i < j < |order| :: order[i] != order[j]
  }

  lemma {:induction false} RankOfListed(order: seq<string>, i: nat)
    requires (forall k, l | 0 <= k < l < |order| :: order[k] != order[l]) && i < |order|
    ensures Rank(order, order[i]) == i
  {
    if i > 0 {
      RankOfListed(order[1..], i - 1);
      assert order[1..][i - 1] == order[i];
      assert order[i] in order[1..];
    }
  }

  /** `a` is listed before `b`, or `a` is listed and `b` is not. */
  predicate ListedBefore(order: seq<string>, a: string, b: string) {
    exists i | 0 <= i < |order| && order[i] == a :: b !in order || exists j | i < j < |order| :: order[j] == b
  }

  lemma RankFollowsList(order: seq<string>, a: string, b: string)
    requires ProperOrder(order)
    ensures ListedBefore(order, a, b) <==> Rank(order, a) < Rank(order, b)
  {
    if a in order {
      var i :| 0 <= i < |order| && order[i] == a;
      RankOfListed(order, i);
    }
    if b in order {
      var j :| 0 <= j < |order| && order[j] == b;
      RankOfListed(order, j);
    }
  }

  /** No package stands before one whose kind is listed earlier; in particular those of kinds outside the
      list come last. */
  predicate InOrder(order: seq<string>, s: seq<Item>) {
    forall x, y | 0 <= x < |s| && 0 <= y < |s| && ListedBefore(order, s[x].kind, s[y].kind) :: x < y
  }

  lemma RankOrderedIsInOrder(order: seq<string>, s: seq<Item>)
    requires ProperOrder(order)
    ensures RankOrdered(order, s) <==> InOrder(order, s)
  {
    forall x, y | 0 <= x < |s| && 0 <= y < |s|
      ensures ListedBefore(order, s[x].kind, s[y].kind) <==> Rank(order, s[x].kind) < Rank(order, s[y].kind)
    {
      RankFollowsList(order, s[x].kind, s[y].kind);
    }
    if RankOrdered(order, s) {
      assert InOrder(order, s);
    }
    if InOrder(order, s) {
      forall x, y | 0 <= x < y < |s| ensures Rank(order, s[x].kind) <= Rank(order, s[y].kind) {
        assert ListedBefore(order, s[y].kind, s[x].kind) ==> y < x;
      }
    }
  }

  /** The packages of one kind, or those of no listed kind, in the order they stand in. */
  function OfKind(s: seq<Item>, kind: string): seq<Item> {
    if s == [] then [] else (if s[0].kind == kind then [s[0]] else []) + OfKind(s[1..], kind)
  }

  function Unlisted(order: seq<string>, s: seq<Item>): seq<Item> {
    if s == [] then [] else (if s[0].kind !in order then [s[0]] else []) + Unlisted(order, s[1..])
  }

  lemma {:induction false} UnlistedIsWithRank(order: seq<string>, s: seq<Item>)
    requires ProperOrder(order)
    ensures WithRank(order, 999, s) == Unlisted(order, s)
  {
    if s != [] {
      UnlistedIsWithRank(order, s[1..]);
      if s[0].kind in order {
        var i :| 0 <= i < |order| && order[i] == s[0].kind;
        RankOfListed(order, i);
      }
    }
  }

  lemma {:induction false} OfKindIsWithRank(order: seq<string>, i: nat, s: seq<Item>)
    requires ProperOrder(order) && i < |order|
    ensures WithRank(order, i, s) == OfKind(s, order[i])
  {
    RankOfListed(order, i);
    if s != [] {
      OfKindIsWithRank(order, i, s[1..]);
      if s[0].kind in order {
        var j :| 0 <= j < |order| && order[j] == s[0].kind;
        RankOfListed(order, j);
      }
    }
  }

  /** The manifest's packages that are enabled and safe for deferred apply, as they stand there. */
  function Chosen(enabled: seq<string>, packages: seq<Item>): seq<Item> {
    if packages == [] then []
    else
      var p := packages[|packages| - 1];
      Chosen(enabled, packages[..|packages| - 1]) + (if p.safe && p.kind in enabled then [p] else [])
  }

  lemma {:induction false} EligibleAppend(c: Config, items: seq<Item>, p: Item)
    ensures EligibleItems(c, items + [p]) == EligibleItems(c, items) + EligibleItems(c, [p])
  {
    if items == [] {
      assert items + [p] == [p];
    } else {
      assert (items + [p])[1..] == items[1..] + [p];
      EligibleAppend(c, items[1..], p);
    }
  }

  lemma {:induction false} ChosenAreEligible(c: Config, packages: seq<Item>)
    ensures Chosen(c.enabled, packages) == EligibleItems(c, packages)
  {
    if packages != [] {
      var front, p := packages[..|packages| - 1], packages[|packages| - 1];
      ChosenAreEligible(c, front);
      assert packages == front + [p];
      EligibleAppend(c, front, p);
    }
  }

  /** The selection: the enabled, safe packages of the manifest, each as often as there, in the configured
      order, those of one kind and those outside the list as in the manifest. */
  lemma SelectionInOrder(c: Config, m: Manifest)
    requires ProperOrder(c.packageOrder)
    ensures multiset(Selected(c, m)) == multiset(Chosen(c.enabled, m.packages))
    ensures InOrder(c.packageOrder, Selected(c, m))
    ensures Unlisted(c.packageOrder, Selected(c, m)) == Unlisted(c.packageOrder, Chosen(c.enabled, m.packages))
    ensures forall kind | kind in c.packageOrder ::
              OfKind(Selected(c, m), kind) == OfKind(Chosen(c.enabled, m.packages), kind)
  {
    var order, e := c.packageOrder, EligibleItems(c, m.packages);
    ChosenAreEligible(c, m.packages);
    SelectedFacts(c, m, 999);
    RankOrderedIsInOrder(order, Selected(c, m));
    UnlistedIsWithRank(order, Selected(c, m));
    UnlistedIsWithRank(order, e);
    forall kind | kind in order ensures OfKind(Selected(c, m), kind) == OfKind(e, kind) {
      var i :| 0 <= i < |order| && order[i] == kind;
      SelectedFacts(c, m, i);
      OfKindIsWithRank(order, i, Selected(c, m));
      OfKindIsWithRank(order, i, e);
    }
  }

  /** Whatever the device answers: packages are sent in the configured order, no two of one kind, and none
      that is disabled or unsafe. */
  lemma RestoresInOrder(c: Config, manifestId: string, archive: string, w: World)
    requires ProperOrder(c.packageOrder)
    ensures
      var sent := Restored(ApplySpec(c, manifestId, archive, w).trace);
      && InOrder(c.packageOrder, sent)
      && (forall x, y | 0 <= x < y < |sent| :: sent[x].kind != sent[y].kind)
      && (forall i | i in sent :: i.safe && i.kind in c.enabled
                                  && w.manifestFile.Some? && i in w.manifestFile.value.packages)
  {
    var sent := Restored(ApplySpec(c, manifestId, archive, w).trace);
    TraceDiscipline(c, manifestId, archive, w);
    RankOrderedIsInOrder(c.packageOrder, sent);
    if sent != [] {
      var selected := Selected(c, w.manifestFile.value);
      SelectedFacts(c, w.manifestFile.value, 0);
      forall i | i in sent ensures i in selected {
        var k :| 0 <= k < |sent| && sent[k] == i;
        assert selected[k] == i;
      }
    }
  }
}
