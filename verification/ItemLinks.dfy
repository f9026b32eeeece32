/** What binds a download link to the list item it stands in, and when it does not
    (`_LinkParser`, src/fgops/source_monitor.py). */
module ItemLinks {
  import opened LinkParser
  import opened Text
  import opened Wrappers

  // ---- The text of an item ----

  /** An item: a context tag, then anything but context tags. */
  predicate IsItem(item: seq<Event>) {
    && item != [] && Opens(item[0])
    && forall k | 1 <= k < |item| :: !Opens(item[k]) && !(item[k].End? && ContextTag(Lower(item[k].tag)))
  }

  lemma {:induction false} ItemIsInnermost(pre: seq<Event>, item: seq<Event>)
    requires IsItem(item)
    ensures LastOpen(pre + item, |pre| + |item|) == Some(|pre|)
  {
    var h, e := pre + item, item[|item| - 1];
    if |item| == 1 {
      assert h == pre + [e];
      OpenStep(pre, e, |pre|);
    } else {
      assert Front(h) == pre + Front(item);
      assert IsItem(Front(item));
      ItemIsInnermost(pre, Front(item));
      assert OpenTags(h) == OpenTags(Front(h));
      SameInnermost(h, Front(h), |h| - 1);
    }
  }

  lemma {:induction false} SameInnermost(h: seq<Event>, g: seq<Event>, n: nat)
    requires OpenTags(h) == OpenTags(g)
    ensures LastOpen(h, n) == LastOpen(g, n)
  {
    if n > 0 {
      SameInnermost(h, g, n - 1);
    }
  }

  lemma WordsStep(h: seq<Event>, e: Event, from: nat)
    requires from <= |h|
    ensures WordsFrom(h + [e], from) == WordsFrom(h, from) + (if e.Data? then Words(e.text) else [])
  {
  }

  lemma {:induction false} WordsAreLocal(pre: seq<Event>, item: seq<Event>, from: nat)
    ensures WordsFrom(pre + item, |pre| + from) == WordsFrom(item, from)
  {
    if from < |item| {
      var e := item[|item| - 1];
      WordsAreLocal(pre, Front(item), from);
      WordsStep(pre + Front(item), e, |pre| + from);
      WordsStep(Front(item), e, from);
      assert pre + item == pre + Front(item) + [e] && item == Front(item) + [e];
    }
  }

  lemma NoEndSplits(pre: seq<Event>, item: seq<Event>, lo: nat, hi: nat)
    requires hi <= |item|
    ensures NoAnchorEnd(pre + item, |pre| + lo, |pre| + hi) <==> NoAnchorEnd(item, lo, hi)
    ensures lo <= |pre| ==>
              (NoAnchorEnd(pre + item, lo, |pre| + hi) <==> NoAnchorEnd(pre, lo, |pre|) && NoAnchorEnd(item, 0, hi))
  {
    var h := pre + item;
    assert forall k | 0 <= k < |pre| :: h[k] == pre[k];
    assert forall k | 0 <= k < |item| :: h[|pre| + k] == item[k];
    if NoAnchorEnd(h, |pre| + lo, |pre| + hi) {
      forall k | lo <= k < hi ensures !Closes(item[k], "a") {
        assert !Closes(h[|pre| + k], "a");
      }
    }
    if lo <= |pre| && NoAnchorEnd(h, lo, |pre| + hi) {
      forall k | lo <= k < |pre| ensures !Closes(pre[k], "a") {
        assert !Closes(h[k], "a");
      }
      forall k | 0 <= k < hi ensures !Closes(item[k], "a") {
        assert !Closes(h[|pre| + k], "a");
      }
    }
  }

  lemma AnchorSplits(pre: seq<Event>, item: seq<Event>, q: nat)
    ensures AnchorAt(pre + item, q) <==> if q < |pre| then AnchorAt(pre, q) else AnchorAt(item, q - |pre|)
  {
  }

  /** The anchor at `p` of the item is the one being read: the item itself has ended an earlier one, or none
      was being read before the item. */
  predicate OwnAnchor(pre: seq<Event>, item: seq<Event>, p: nat) {
    !NoAnchorEnd(item, 0, p) || forall q: nat | q < |pre| :: !Reading(pre, q)
  }

  lemma ReadingInItem(pre: seq<Event>, item: seq<Event>, p: nat)
    requires Reading(item, p)
    ensures Reading(pre + item, |pre| + p) <==> OwnAnchor(pre, item, p)
  {
    var h := pre + item;
    AnchorSplits(pre, item, |pre| + p);
    NoEndSplits(pre, item, p, |item|);
    forall q: nat | |pre| <= q < |pre| + p && AnchorAt(h, q) ensures !NoAnchorEnd(h, q, |pre| + p) {
      AnchorSplits(pre, item, q);
      NoEndSplits(pre, item, q - |pre|, p);
    }
    forall q: nat | q < |pre|
      ensures AnchorAt(h, q) <==> AnchorAt(pre, q)
      ensures NoAnchorEnd(h, q, |pre| + p) <==> NoAnchorEnd(pre, q, |pre|) && NoAnchorEnd(item, 0, p)
    {
      AnchorSplits(pre, item, q);
      NoEndSplits(pre, item, q, p);
    }
    if OwnAnchor(pre, item, p) {
      forall q: nat | q < |pre| && AnchorAt(pre, q) ensures !(NoAnchorEnd(pre, q, |pre|) && NoAnchorEnd(item, 0, p)) {
        if NoAnchorEnd(pre, q, |pre|) {
          var r := FirstReading(pre, q);
        }
      }
    } else {
      var q: nat :| q < |pre| && Reading(pre, q);
      assert AnchorAt(h, q) && NoAnchorEnd(h, q, |pre| + p);
    }
  }

  /** An anchor being read before an item that ends none is read on through it. */
  lemma ReadingThroughItem(pre: seq<Event>, item: seq<Event>, q: nat)
    requires Reading(pre, q) && NoAnchorEnd(item, 0, |item|)
    ensures Reading(pre + item, q)
  {
    var h := pre + item;
    AnchorSplits(pre, item, q);
    NoEndSplits(pre, item, q, |item|);
    assert forall k | 0 <= k < |pre| :: h[k] == pre[k];
    forall j: nat | j < q && AnchorAt(h, j) ensures !NoAnchorEnd(h, j, q) {
      AnchorSplits(pre, item, j);
      assert AnchorAt(pre, j) && !NoAnchorEnd(pre, j, q);
      var k :| j <= k < q && Closes(pre[k], "a");
      assert Closes(h[k], "a");
    }
  }

  lemma RecordedAt(h: seq<Event>, p: nat, e: Event)
    requires Reading(h, p) && Closes(e, "a")
    ensures NewLinks(h, e) == [LinkAt(h, p)]
  {
    var r := ReadingBelow(h, |h|);
    assert r.Some?;
    ReadingIsUnique(h, p, r.value);
  }

  lemma InnerIs(h: seq<Event>, i: nat, otherwise: string)
    requires LastOpen(h, |h|) == Some(i)
    ensures InnerText(h, otherwise) == Join(WordsFrom(h, i + 1))
  {
  }

  lemma ItemContext(pre: seq<Event>, item: seq<Event>, otherwise: string)
    requires IsItem(item)
    ensures InnerText(pre + item, otherwise) == Join(WordsFrom(item, 1))
  {
    ItemIsInnermost(pre, item);
    InnerIs(pre + item, |pre|, otherwise);
    WordsAreLocal(pre, item, 1);
  }

  /** The recorded link, part by part. */
  lemma LinkParts(h: seq<Event>, q: nat, e: Event, href: string, words: seq<string>, context: string)
    requires Reading(h, q) && Closes(e, "a")
    requires Href(h[q].attrs) == Some(href) && WordsFrom(h, q + 1) == words && InnerText(h, Join(words)) == context
    ensures NewLinks(h, e) == [Link(href, Join(words), context)]
  {
    RecordedAt(h, q, e);
  }

  lemma ItemLink(pre: seq<Event>, item: seq<Event>, q: nat, e: Event, href: string, words: seq<string>)
    requires IsItem(item) && Reading(pre + item, q) && Closes(e, "a")
    requires Href((pre + item)[q].attrs) == Some(href) && WordsFrom(pre + item, q + 1) == words
    ensures NewLinks(pre + item, e) == [Link(href, Join(words), Join(WordsFrom(item, 1)))]
  {
    ItemContext(pre, item, Join(words));
    LinkParts(pre + item, q, e, href, words, Join(WordsFrom(item, 1)));
  }

  lemma {:induction false} OwnLink(pre: seq<Event>, item: seq<Event>, p: nat, e: Event)
    requires IsItem(item) && AnchorAt(item, p) && Reading(pre + item, |pre| + p) && Closes(e, "a")
    ensures NewLinks(pre + item, e)
         == [Link(Href(item[p].attrs).value, Join(WordsFrom(item, p + 1)), Join(WordsFrom(item, 1)))]
  {
    WordsAfter(pre, item, p);
    ItemLink(pre, item, |pre| + p, e, Href(item[p].attrs).value, WordsFrom(item, p + 1));
  }

  lemma WordsAfter(pre: seq<Event>, item: seq<Event>, p: nat)
    requires p < |item|
    ensures (pre + item)[|pre| + p] == item[p]
    ensures WordsFrom(pre + item, |pre| + p + 1) == WordsFrom(item, p + 1)
  {
    WordsAreLocal(pre, item, p + 1);
  }

  lemma EarlierLink(pre: seq<Event>, item: seq<Event>, q: nat, e: Event)
    requires IsItem(item) && Reading(pre, q) && NoAnchorEnd(item, 0, |item|) && Closes(e, "a")
    ensures NewLinks(pre + item, e)
         == [Link(Href(pre[q].attrs).value, Join(WordsFrom(pre + item, q + 1)), Join(WordsFrom(item, 1)))]
  {
    ReadingThroughItem(pre, item, q);
    ItemLink(pre, item, q, e, Href(pre[q].attrs).value, WordsFrom(pre + item, q + 1));
  }

  /** The link an end tag records for the anchor at `p` of an item.  Its context is the item's own text,
      whatever the page holds before, closed or not.  Its address and text are those of that anchor exactly
      when `OwnAnchor`; otherwise they are those of an earlier anchor that nothing has ended. */
  lemma ItemBindsItsLinks(pre: seq<Event>, item: seq<Event>, p: nat, e: Event)
    requires IsItem(item) && Reading(item, p) && Closes(e, "a")
    ensures Reading(pre + item, |pre| + p) <==> OwnAnchor(pre, item, p)
    ensures OwnAnchor(pre, item, p) ==>
              NewLinks(pre + item, e)
              == [Link(Href(item[p].attrs).value, Join(WordsFrom(item, p + 1)), Join(WordsFrom(item, 1)))]
    ensures !OwnAnchor(pre, item, p) ==>
              exists q: nat :: Reading(pre, q) && NewLinks(pre + item, e)
                == [Link(Href(pre[q].attrs).value, Join(WordsFrom(pre + item, q + 1)), Join(WordsFrom(item, 1)))]
  {
    ReadingInItem(pre, item, p);
    if OwnAnchor(pre, item, p) {
      OwnLink(pre, item, p, e);
    } else {
      var q: nat :| q < |pre| && Reading(pre, q);
      NoEndJoins(item, p);
      EarlierLink(pre, item, q, e);
    }
  }

  lemma NoEndJoins(item: seq<Event>, p: nat)
    requires p <= |item| && NoAnchorEnd(item, 0, p) && NoAnchorEnd(item, p, |item|)
    ensures NoAnchorEnd(item, 0, |item|)
  {
  }

  // ---- An unclosed link takes the next item's text ----

  const OLD_ITEM: seq<Event> := [Start("li", []), Start("a", [("href", Some("old.zip"))]), Data("1"), End("li")]

  const NEW_ITEM: seq<Event> := [Start("li", []), Start("a", [("href", Some("new.zip"))]), Data("2")]

  lemma SampleTags()
    ensures Lower("li") == "li" && Lower("a") == "a" && Lower("href") == "href"
  {
  }

  lemma SingleWord(c: char)
    requires !IsSpace(c)
    ensures Words([c]) == [[c]]
  {
    var s := [c];
    assert s[1..] == "" && "" + [s[0]] == s;
    assert Split(s, "") == Split(s[1..], "" + [s[0]]) == Split("", s);
  }

  /** One text between events without any. */
  lemma {:induction false} SingleText(x: seq<Event>, text: string, y: seq<Event>, from: nat)
    requires from <= |x| && (forall k | from <= k < |x| :: !x[k].Data?) && forall k | 0 <= k < |y| :: !y[k].Data?
    ensures WordsFrom(x + [Data(text)] + y, from) == Words(text)
  {
    if y == [] {
      NoWords(x, from);
      WordsStep(x, Data(text), from);
      assert x + [Data(text)] + y == x + [Data(text)];
    } else {
      SingleText(x, text, Front(y), from);
      WordsStep(x + [Data(text)] + Front(y), y[|y| - 1], from);
      assert x + [Data(text)] + y == x + [Data(text)] + Front(y) + [y[|y| - 1]];
    }
  }

  lemma SampleItems()
    ensures IsItem(NEW_ITEM) && Reading(NEW_ITEM, 1) && Reading(OLD_ITEM, 1)
  {
    SampleTags();
  }

  lemma TwoTexts(x: seq<Event>, one: string, y: seq<Event>, two: string, from: nat)
    requires from <= |x| && (forall k | from <= k < |x| :: !x[k].Data?) && forall k | 0 <= k < |y| :: !y[k].Data?
    ensures WordsFrom(x + [Data(one)] + y + [Data(two)], from) == Words(one) + Words(two)
  {
    SingleText(x, one, y, from);
    WordsStep(x + [Data(one)] + y, Data(two), from);
  }

  lemma SampleShapes()
    ensures NEW_ITEM == NEW_ITEM[..2] + [Data("2")] + []
    ensures OLD_ITEM + NEW_ITEM == OLD_ITEM[..2] + [Data("1")] + ([End("li")] + NEW_ITEM[..2]) + [Data("2")]
  {
  }

  lemma SampleTexts()
    ensures WordsFrom(NEW_ITEM, 1) == ["2"] && WordsFrom(OLD_ITEM + NEW_ITEM, 2) == ["1", "2"]
  {
    SingleWord('1');
    SingleWord('2');
    SampleShapes();
    SingleText(NEW_ITEM[..2], "2", [], 1);
    TwoTexts(OLD_ITEM[..2], "1", [End("li")] + NEW_ITEM[..2], "2", 2);
  }

  lemma {:induction false} NoWords(h: seq<Event>, from: nat)
    requires forall k | from <= k < |h| :: !h[k].Data?
    ensures WordsFrom(h, from) == []
  {
    if from < |h| {
      NoWords(Front(h), from);
    }
  }

  lemma {:induction false} NoEndsNoLinks(h: seq<Event>)
    requires NoAnchorEnd(h, 0, |h|)
    ensures LinksOf(h) == []
  {
    if h != [] {
      NoEndsNoLinks(Front(h));
    }
  }

  /** `<li><a href=old.zip>1</li><li><a href=new.zip>2</a>`: the only link recorded has the old address, both
      texts, and the new item as its context. */
  lemma UnclosedLinkTakesNextItem()
    ensures LinksOf(OLD_ITEM + NEW_ITEM + [End("a")]) == [Link("old.zip", "1 2", "2")]
    ensures !OwnAnchor(OLD_ITEM, NEW_ITEM, 1)
  {
    var h, e := OLD_ITEM + NEW_ITEM, End("a");
    SampleTags();
    SampleItems();
    SampleTexts();
    LinksStep(h, e);
    SampleHasNoEnd();
    NoEndsNoLinks(h);
    EarlierLink(OLD_ITEM, NEW_ITEM, 1, e);
    SampleLink();
  }

  lemma SampleLink()
    ensures Join(["1", "2"]) == "1 2" && Join(["2"]) == "2"
    ensures Href([("href", Some("old.zip"))]) == Some("old.zip")
  {
    assert Join(["1", "2"]) == "1" + " " + Join(["1", "2"][1..]);
  }

  lemma SampleHasNoEnd()
    ensures NoAnchorEnd(OLD_ITEM + NEW_ITEM, 0, |OLD_ITEM + NEW_ITEM|) && NoAnchorEnd(NEW_ITEM, 0, |NEW_ITEM|)
  {
    SampleTags();
  }

  lemma OneReading(h: seq<Event>, p: nat)
    requires Reading(h, p)
    ensures ReadingBelow(h, |h|) == Some(p)
  {
    var q := ReadingBelow(h, |h|);
    if q.Some? {
      ReadingIsUnique(h, p, q.value);
    }
  }

  lemma {:induction false} OutsideText(h: seq<Event>, otherwise: string)
    requires forall i: nat :: !Open(h, i)
    ensures InnerText(h, otherwise) == otherwise
  {
    assert LastOpen(h, |h|).None?;
  }

  /** Outside all items a link is its own context. */
  lemma {:induction false} LinkOutsideItems(h: seq<Event>, p: nat, e: Event)
    requires Reading(h, p) && Closes(e, "a") && forall i: nat :: !Open(h, i)
    ensures
      var text := Join(WordsFrom(h, p + 1));
      NewLinks(h, e) == [Link(Href(h[p].attrs).value, text, text)]
  {
    OneReading(h, p);
    OutsideText(h, Join(WordsFrom(h, p + 1)));
  }
}
