/** Binding each download link to its own list item: the incremental parser `_LinkParser`
    (src/fgops/source_monitor.py).

    The parser is fed start tags, text and end tags in any order, closed or not.  Beside its stack it
    keeps a ghost `history` of those events, and everything it records is stated over the history. */
module LinkParser {
  import opened Wrappers
  import opened Text

  datatype Event = Start(tag: string, attrs: seq<(string, Option<string>)>) | Data(text: string) | End(tag: string)

  datatype Link = Link(href: string, text: string, context: string)

  // ---- Words ----

  /** The words of `s`, given the word being read: Python's `s.split()`. */
  function Split(s: string, word: string): seq<string> {
    if s == "" then (if word == "" then [] else [word])
    else if IsSpace(s[0]) then (if word == "" then [] else [word]) + Split(s[1..], "")
    else Split(s[1..], word + [s[0]])
  }

  function Words(s: string): seq<string> {
    Split(s, "")
  }

  /** `" ".join(parts)`. */
  function Join(parts: seq<string>): string {
    if parts == [] then ""
    else if |parts| == 1 then parts[0]
    else parts[0] + " " + Join(parts[1..])
  }

  /** `" ".join(parts).strip()`. */
  function TextOf(parts: seq<string>): string {
    Strip(Join(parts))
  }

  function Normalize(s: string): string {
    Join(Words(s))
  }

  // ---- Contexts and anchors of a history ----

  predicate ContextTag(tag: string) {
    tag == "li" || tag == "p" || tag == "td" || tag == "th" || tag == "dt" || tag == "dd"
  }

  predicate Opens(e: Event) {
    e.Start? && ContextTag(Lower(e.tag))
  }

  predicate Closes(e: Event, tag: string) {
    e.End? && Lower(e.tag) == tag
  }

  function Front(h: seq<Event>): seq<Event>
    requires h != []
  {
    h[..|h| - 1]
  }

  predicate Named(h: seq<Event>, i: nat, tag: string) {
    i < |h| && h[i].Start? && Lower(h[i].tag) == tag
  }

  /** An end tag closes the innermost open tag of its name, with everything opened inside it. */
  predicate Cut(open: set<nat>, h: seq<Event>, i: nat, e: Event) {
    e.End? && (exists j | j in open :: j <= i && Named(h, j, Lower(e.tag)))
    && !exists j | j in open :: i < j && Named(h, j, Lower(e.tag))
  }

  /** The positions of the context tags that no later end tag has closed. */
  function OpenTags(h: seq<Event>): (r: set<nat>)
    ensures forall i | i in r :: i < |h| && Opens(h[i])
  {
    if h == [] then {}
    else
      var open, e := OpenTags(Front(h)), h[|h| - 1];
      (set i | i in open && !Cut(open, Front(h), i, e)) + (if Opens(e) then {|h| - 1} else {})
  }

  predicate Open(h: seq<Event>, i: nat) {
    i in OpenTags(h)
  }

  predicate OpenNamed(h: seq<Event>, i: nat, tag: string) {
    Open(h, i) && Named(h, i, tag)
  }

  predicate ClosedBy(h: seq<Event>, i: nat, e: Event) {
    Cut(OpenTags(h), h, i, e)
  }

  function Href(attrs: seq<(string, Option<string>)>): Option<string> {
    if attrs == [] then None
    else if Lower(attrs[0].0) == "href" then attrs[0].1
    else Href(attrs[1..])
  }

  predicate Anchor(e: Event) {
    e.Start? && Lower(e.tag) == "a" && Href(e.attrs).Some? && Href(e.attrs).value != ""
  }

  predicate AnchorAt(h: seq<Event>, p: nat) {
    p < |h| && Anchor(h[p])
  }

  /** No link ends in `h[lo..hi]`. */
  predicate NoAnchorEnd(h: seq<Event>, lo: nat, hi: nat) {
    forall k | lo <= k < hi && k < |h| :: !Closes(h[k], "a")
  }

  /** The link being read starts at `p`: nothing has ended it, and no link was being read there. */
  predicate Reading(h: seq<Event>, p: nat) {
    && AnchorAt(h, p) && NoAnchorEnd(h, p, |h|)
    && forall q: nat | q < p && AnchorAt(h, q) :: !NoAnchorEnd(h, q, p)
  }

  /** The normalized pieces of text from position `from` on. */
  function Parts(h: seq<Event>, from: nat): seq<string> {
    if |h| <= from then []
    else Parts(Front(h), from) + PartsOf(h[|h| - 1])
  }

  function PartsOf(e: Event): seq<string> {
    if e.Data? && Normalize(e.text) != "" then [Normalize(e.text)] else []
  }

  /** All words of text from position `from` on. */
  function WordsFrom(h: seq<Event>, from: nat): seq<string> {
    if |h| <= from then []
    else WordsFrom(Front(h), from) + (if h[|h| - 1].Data? then Words(h[|h| - 1].text) else [])
  }

  /** The innermost open tag below position `n`. */
  function LastOpen(h: seq<Event>, n: nat): (r: Option<nat>)
    ensures r.Some? ==> r.value < n && Open(h, r.value) && forall i: nat | r.value < i < n :: !Open(h, i)
    ensures r.None? ==> forall i: nat | i < n :: !Open(h, i)
  {
    if n == 0 then None else if Open(h, n - 1) then Some(n - 1) else LastOpen(h, n - 1)
  }

  /** The start of the link being read, below position `n`. */
  function ReadingBelow(h: seq<Event>, n: nat): (r: Option<nat>)
    ensures r.Some? ==> Reading(h, r.value)
    ensures r.None? ==> forall p: nat | p < n :: !Reading(h, p)
  {
    if n == 0 then None else if Reading(h, n - 1) then Some(n - 1) else ReadingBelow(h, n - 1)
  }

  /** The words since the innermost open tag, `otherwise` if none is open. */
  function InnerText(h: seq<Event>, otherwise: string): string {
    var inner := LastOpen(h, |h|);
    if inner.Some? then Join(WordsFrom(h, inner.value + 1)) else otherwise
  }

  /** The link that starts at `p` and ends here: its words, and the words since the innermost open tag. */
  function LinkAt(h: seq<Event>, p: nat): Link
    requires Reading(h, p)
  {
    var text := Join(WordsFrom(h, p + 1));
    Link(Href(h[p].attrs).value, text, InnerText(h, text))
  }

  function NewLinks(h: seq<Event>, e: Event): seq<Link> {
    var p := ReadingBelow(h, |h|);
    if Closes(e, "a") && p.Some? then [LinkAt(h, p.value)] else []
  }

  /** The links of a history. */
  function LinksOf(h: seq<Event>): seq<Link> {
    if h == [] then [] else LinksOf(Front(h)) + NewLinks(Front(h), h[|h| - 1])
  }

  // ---- Words and joins ----

  ghost predicate Clean(ws: seq<string>) {
    forall i | 0 <= i < |ws| :: ws[i] != "" && forall k | 0 <= k < |ws[i]| :: !IsSpace(ws[i][k])
  }

  lemma {:induction false} SplitIsClean(s: string, word: string)
    requires forall k | 0 <= k < |word| :: !IsSpace(word[k])
    ensures Clean(Split(s, word))
  {
    if s != "" {
      SplitIsClean(s[1..], if IsSpace(s[0]) then "" else word + [s[0]]);
    }
  }

  lemma {:induction false} JoinEnds(ws: seq<string>)
    requires Clean(ws) && ws != []
    ensures Join(ws) != "" && !IsSpace(Join(ws)[0]) && !IsSpace(Join(ws)[|Join(ws)| - 1])
  {
    if |ws| > 1 {
      JoinEnds(ws[1..]);
    }
  }

  lemma {:induction false} JoinConcat(a: seq<string>, b: seq<string>)
    requires a != [] && b != []
    ensures Join(a + b) == Join(a) + " " + Join(b)
  {
    if |a| == 1 {
      assert (a + b)[1..] == b;
    } else {
      assert (a + b)[1..] == a[1..] + b;
      JoinConcat(a[1..], b);
      assert a[0] + " " + (Join(a[1..]) + " " + Join(b)) == a[0] + " " + Join(a[1..]) + " " + Join(b);
    }
  }

  lemma CleanStaysStripped(s: string)
    requires s == "" || (!IsSpace(s[0]) && !IsSpace(s[|s| - 1]))
    ensures Strip(s) == s
  {
  }

  /** Joining the normalized pieces is joining their words. */
  lemma {:induction false} PartsAreWords(h: seq<Event>, from: nat)
    ensures Clean(WordsFrom(h, from))
    ensures Parts(h, from) == [] <==> WordsFrom(h, from) == []
    ensures Join(Parts(h, from)) == Join(WordsFrom(h, from))
  {
    if from < |h| {
      PartsAreWords(Front(h), from);
      var e, parts, words := h[|h| - 1], Parts(Front(h), from), WordsFrom(Front(h), from);
      if e.Data? {
        PieceIsWords(e.text);
      }
      if e.Data? && Words(e.text) != [] {
        assert Parts(h, from) == parts + [Join(Words(e.text))];
        assert WordsFrom(h, from) == words + Words(e.text);
        JoinAppend(parts, words, Words(e.text));
        CleanConcat(words, Words(e.text));
      } else {
        assert Parts(h, from) == parts + [] == parts;
        assert WordsFrom(h, from) == words + [] == words;
      }
    }
  }

  lemma CleanConcat(a: seq<string>, b: seq<string>)
    requires Clean(a) && Clean(b)
    ensures Clean(a + b)
  {
  }

  lemma PieceIsWords(text: string)
    ensures Clean(Words(text))
    ensures Normalize(text) == "" <==> Words(text) == []
  {
    SplitIsClean(text, "");
    if Words(text) != [] {
      JoinEnds(Words(text));
    }
  }

  lemma JoinAppend(parts: seq<string>, words: seq<string>, more: seq<string>)
    requires (parts == [] <==> words == []) && Join(parts) == Join(words) && more != []
    ensures Join(parts + [Join(more)]) == Join(words + more)
  {
    if words == [] {
      assert parts + [Join(more)] == [Join(more)] && words + more == more;
    } else {
      JoinConcat(parts, [Join(more)]);
      JoinConcat(words, more);
    }
  }

  /** What the parser computes from its pieces of text. */
  lemma PartsText(h: seq<Event>, from: nat)
    ensures TextOf(Parts(h, from)) == Join(WordsFrom(h, from))
  {
    PartsAreWords(h, from);
    if WordsFrom(h, from) != [] {
      JoinEnds(WordsFrom(h, from));
    }
    CleanStaysStripped(Join(WordsFrom(h, from)));
  }

  // ---- One more event ----

  lemma OpenStep(h: seq<Event>, e: Event, i: nat)
    ensures Open(h + [e], i) <==> (i == |h| && Opens(e)) || (Open(h, i) && !ClosedBy(h, i, e))
  {
  }

  lemma ReadingIsUnique(h: seq<Event>, p: nat, q: nat)
    requires Reading(h, p) && Reading(h, q)
    ensures p == q
  {
    assert q < p ==> NoAnchorEnd(h, q, p);
    assert p < q ==> NoAnchorEnd(h, p, q);
  }

  /** If some link start has no end after it, a link is being read. */
  lemma {:induction false} FirstReading(h: seq<Event>, q: nat) returns (p: nat)
    requires AnchorAt(h, q) && NoAnchorEnd(h, q, |h|)
    ensures Reading(h, p)
    decreases q
  {
    p := q;
    if !Reading(h, q) {
      var earlier: nat :| earlier < q && AnchorAt(h, earlier) && NoAnchorEnd(h, earlier, q);
      p := FirstReading(h, earlier);
    }
  }

  lemma NoEndStep(h: seq<Event>, e: Event, lo: nat, hi: nat)
    requires hi <= |h|
    ensures NoAnchorEnd(h + [e], lo, hi) <==> NoAnchorEnd(h, lo, hi)
    ensures lo <= |h| ==> (NoAnchorEnd(h + [e], lo, |h| + 1) <==> NoAnchorEnd(h, lo, |h|) && !Closes(e, "a"))
  {
    assert forall k | 0 <= k < |h| :: (h + [e])[k] == h[k];
    assert (h + [e])[|h|] == e;
  }

  lemma ReadingStep(h: seq<Event>, e: Event, p: nat)
    ensures Reading(h + [e], p) <==>
      if p < |h| then Reading(h, p) && !Closes(e, "a")
      else p == |h| && Anchor(e) && forall q: nat :: !Reading(h, q)
  {
    var g := h + [e];
    forall q: nat | q < |h| ensures AnchorAt(g, q) <==> AnchorAt(h, q) {
      assert g[q] == h[q];
    }
    if p < |h| {
      NoEndStep(h, e, p, |h|);
      forall q: nat | q < p ensures NoAnchorEnd(g, q, p) <==> NoAnchorEnd(h, q, p) {
        NoEndStep(h, e, q, p);
      }
    } else if p == |h| {
      NoEndStep(h, e, p, |h|);
      forall q: nat | q < p ensures NoAnchorEnd(g, q, p) <==> NoAnchorEnd(h, q, |h|) {
        NoEndStep(h, e, q, |h|);
      }
      if q: nat :| AnchorAt(h, q) && NoAnchorEnd(h, q, |h|) {
        var r := FirstReading(h, q);
      }
    }
  }

  lemma LinksStep(h: seq<Event>, e: Event)
    ensures LinksOf(h + [e]) == LinksOf(h) + NewLinks(h, e)
  {
  }

  lemma NoNewLinks(h: seq<Event>, e: Event)
    requires !e.End?
    ensures LinksOf(h + [e]) == LinksOf(h)
  {
  }

  lemma PartsStep(h: seq<Event>, e: Event, from: nat)
    requires from <= |h|
    ensures Parts(h + [e], from) == Parts(h, from) + PartsOf(e)
  {
  }

  // ---- The parser ----

  predicate Ascending(s: seq<nat>) {
    forall i, j | 0 <= i < j < |s| :: s[i] < s[j]
  }

  type Context = (string, seq<string>)

  ghost predicate AreOpen(starts: seq<nat>, h: seq<Event>) {
    Ascending(starts) && forall i: nat :: Open(h, i) <==> i in starts
  }

  /** The context of the tag opened at `i`: its name and all text since. */
  predicate Describes(c: Context, h: seq<Event>, i: nat) {
    Open(h, i) && c == (Lower(h[i].tag), Parts(h, i + 1))
  }

  /** One context for each open tag, outermost first, holding all text since that tag. */
  ghost predicate Stacked(contexts: seq<Context>, starts: seq<nat>, h: seq<Event>) {
    AreOpen(starts, h) && |contexts| == |starts| && forall k | 0 <= k < |starts| :: Describes(contexts[k], h, starts[k])
  }

  function Grown(contexts: seq<Context>, parts: seq<string>): seq<Context> {
    seq(|contexts|, k requires 0 <= k < |contexts| => (contexts[k].0, contexts[k].1 + parts))
  }

  lemma StillDescribes(c: Context, h: seq<Event>, e: Event, i: nat)
    requires Describes(c, h, i) && !ClosedBy(h, i, e)
    ensures Describes((c.0, c.1 + PartsOf(e)), h + [e], i)
    ensures !e.Data? ==> Describes(c, h + [e], i)
  {
    OpenStep(h, e, i);
    PartsStep(h, e, i + 1);
    assert (h + [e])[i] == h[i];
    assert c.1 + [] == c.1;
  }

  lemma NewlyDescribes(h: seq<Event>, e: Event)
    requires Opens(e)
    ensures Describes((Lower(e.tag), []), h + [e], |h|)
  {
  }

  lemma PushKeepsStack(contexts: seq<Context>, starts: seq<nat>, h: seq<Event>, e: Event)
    requires Stacked(contexts, starts, h) && Opens(e)
    ensures Stacked(contexts + [(Lower(e.tag), [])], starts + [|h|], h + [e])
  {
    var all := starts + [|h|];
    forall i: nat ensures Open(h + [e], i) <==> i in all {
      OpenStep(h, e, i);
      assert i in all <==> i in starts || i == |h|;
    }
    forall k | 0 <= k < |starts| ensures Describes(contexts[k], h + [e], starts[k]) && starts[k] < |h| {
      assert Describes(contexts[k], h, starts[k]);
      StillDescribes(contexts[k], h, e, starts[k]);
    }
    NewlyDescribes(h, e);
  }

  /** Where the stack keeps the tag opened at `j`. */
  lemma Placed(contexts: seq<Context>, starts: seq<nat>, h: seq<Event>, j: nat, tag: string) returns (k: nat)
    requires Stacked(contexts, starts, h) && OpenNamed(h, j, tag)
    ensures k < |starts| && starts[k] == j && contexts[k].0 == tag
  {
    assert j in starts;
    k :| 0 <= k < |starts| && starts[k] == j;
    assert Describes(contexts[k], h, starts[k]);
  }

  /** Events that neither open nor close a context add their text to every context. */
  lemma PassKeepsStack(contexts: seq<Context>, starts: seq<nat>, h: seq<Event>, e: Event)
    requires Stacked(contexts, starts, h) && !Opens(e)
    requires forall k | 0 <= k < |contexts| :: !Closes(e, contexts[k].0)
    ensures Stacked(Grown(contexts, PartsOf(e)), starts, h + [e])
    ensures PartsOf(e) == [] ==> Stacked(contexts, starts, h + [e])
  {
    forall i: nat ensures !ClosedBy(h, i, e) {
      if ClosedBy(h, i, e) {
        var j :| j in OpenTags(h) && j <= i && Named(h, j, Lower(e.tag));
        var k := Placed(contexts, starts, h, j, Lower(e.tag));
        assert false;
      }
    }
    forall i: nat ensures Open(h + [e], i) <==> i in starts {
      OpenStep(h, e, i);
    }
    forall k | 0 <= k < |starts|
      ensures Describes(Grown(contexts, PartsOf(e))[k], h + [e], starts[k])
      ensures PartsOf(e) == [] ==> Describes(contexts[k], h + [e], starts[k])
    {
      assert Describes(contexts[k], h, starts[k]);
      StillDescribes(contexts[k], h, e, starts[k]);
      assert contexts[k].1 + [] == contexts[k].1;
    }
  }

  /** An end tag cuts the stack at the innermost context of its name. */
  lemma CutKeepsStack(contexts: seq<Context>, starts: seq<nat>, h: seq<Event>, e: Event, index: nat)
    requires Stacked(contexts, starts, h) && index < |contexts| && Closes(e, contexts[index].0)
    requires forall k | index < k < |contexts| :: !Closes(e, contexts[k].0)
    ensures Stacked(contexts[..index], starts[..index], h + [e])
  {
    assert Describes(contexts[index], h, starts[index]);
    assert OpenNamed(h, starts[index], Lower(e.tag));
    forall k | 0 <= k < |starts| ensures ClosedBy(h, starts[k], e) <==> index <= k {
      CutCloses(contexts, starts, h, e, index, k);
    }
    forall i: nat ensures Open(h + [e], i) <==> i in starts[..index] {
      OpenStep(h, e, i);
      if i in starts {
        var k :| 0 <= k < |starts| && starts[k] == i;
        assert i in starts[..index] <==> k < index;
      }
    }
    forall k | 0 <= k < index ensures Describes(contexts[k], h + [e], starts[k]) {
      assert Describes(contexts[k], h, starts[k]);
      StillDescribes(contexts[k], h, e, starts[k]);
    }
  }

  lemma CutCloses(contexts: seq<Context>, starts: seq<nat>, h: seq<Event>, e: Event, index: nat, k: nat)
    requires Stacked(contexts, starts, h) && index < |contexts| && Closes(e, contexts[index].0) && k < |starts|
    requires forall k | index < k < |contexts| :: !Closes(e, contexts[k].0)
    ensures ClosedBy(h, starts[k], e) <==> index <= k
  {
    assert Describes(contexts[index], h, starts[index]);
    assert OpenNamed(h, starts[index], Lower(e.tag));
    if index <= k {
      forall j | j in OpenTags(h) && starts[k] < j ensures !Named(h, j, Lower(e.tag)) {
        if Named(h, j, Lower(e.tag)) {
          assert OpenNamed(h, j, Lower(e.tag));
          var m := Placed(contexts, starts, h, j, Lower(e.tag));
          assert false;
        }
      }
    }
  }

  /** The link being read: where it starts, its address and its text so far. */
  ghost predicate Anchored(href: Option<string>, text: seq<string>, reading: Option<nat>, h: seq<Event>) {
    && (forall p: nat :: Reading(h, p) <==> reading == Some(p))
    && (reading.None? ==> href == None)
    && (reading.Some? ==>
          && Reading(h, reading.value)
          && href == Href(h[reading.value].attrs)
          && text == Parts(h, reading.value + 1))
  }

  lemma PassKeepsAnchor(href: Option<string>, text: seq<string>, reading: Option<nat>, h: seq<Event>, e: Event)
    requires Anchored(href, text, reading, h) && !(Closes(e, "a") && reading.Some?) && (Anchor(e) ==> reading.Some?)
    ensures Anchored(href, text + PartsOf(e), reading, h + [e])
    ensures PartsOf(e) == [] ==> Anchored(href, text, reading, h + [e])
  {
    forall p: nat ensures Reading(h + [e], p) <==> reading == Some(p) {
      ReadingStep(h, e, p);
      if reading.Some? {
        assert Reading(h, reading.value);
      }
    }
    if reading.Some? {
      PartsStep(h, e, reading.value + 1);
      assert (h + [e])[reading.value] == h[reading.value];
    }
    assert text + [] == text;
  }

  lemma BeginAnchor(h: seq<Event>, e: Event, href: Option<string>, text: seq<string>)
    requires Anchored(href, text, None, h) && Anchor(e)
    ensures Anchored(Href(e.attrs), [], Some(|h|), h + [e])
  {
    forall p: nat ensures Reading(h + [e], p) <==> p == |h| {
      ReadingStep(h, e, p);
    }
  }

  lemma EndAnchor(h: seq<Event>, e: Event)
    requires Closes(e, "a")
    ensures Anchored(None, [], None, h + [e])
  {
    forall p: nat ensures !Reading(h + [e], p) {
      ReadingStep(h, e, p);
    }
  }

  lemma NothingRead(href: Option<string>, text: seq<string>, reading: Option<nat>, h: seq<Event>, e: Event)
    requires Anchored(href, text, reading, h) && (href.None? || !Closes(e, "a"))
    ensures NewLinks(h, e) == []
    ensures reading.Some? ==> !Closes(e, "a")
  {
    if reading.Some? {
      assert Reading(h, reading.value);
    }
    var p := ReadingBelow(h, |h|);
    assert p.Some? ==> Reading(h, p.value);
  }

  lemma InnermostContext(contexts: seq<Context>, starts: seq<nat>, h: seq<Event>)
    requires Stacked(contexts, starts, h)
    ensures LastOpen(h, |h|) == if starts == [] then None else Some(starts[|starts| - 1])
  {
    var r := LastOpen(h, |h|);
    if starts != [] {
      var last := |starts| - 1;
      assert Describes(contexts[last], h, starts[last]);
      assert r.Some?;
    }
    if r.Some? {
      assert r.value in starts;
      var k :| 0 <= k < |starts| && starts[k] == r.value;
    }
  }

  lemma InnerTextAt(h: seq<Event>, i: nat, otherwise: string)
    requires LastOpen(h, |h|) == Some(i)
    ensures InnerText(h, otherwise) == TextOf(Parts(h, i + 1))
  {
    PartsText(h, i + 1);
  }

  lemma InnerTextIs(contexts: seq<Context>, starts: seq<nat>, h: seq<Event>, otherwise: string)
    requires Stacked(contexts, starts, h)
    ensures InnerText(h, otherwise) == if contexts == [] then otherwise else TextOf(contexts[|contexts| - 1].1)
  {
    InnermostContext(contexts, starts, h);
    if contexts != [] {
      assert Describes(contexts[|starts| - 1], h, starts[|starts| - 1]);
      InnerTextAt(h, starts[|starts| - 1], otherwise);
    }
  }

  lemma ReadingIs(href: Option<string>, text: seq<string>, reading: Option<nat>, h: seq<Event>)
    requires Anchored(href, text, reading, h) && reading.Some?
    ensures Reading(h, reading.value) && ReadingBelow(h, |h|) == reading
  {
    assert Reading(h, reading.value);
    var r := ReadingBelow(h, |h|);
    assert r.Some? ==> Reading(h, r.value);
  }

  /** What the parser records is the link of its history. */
  lemma RecordedLink(href: Option<string>, text: seq<string>, reading: Option<nat>, h: seq<Event>, e: Event)
    requires Anchored(href, text, reading, h) && href.Some? && Closes(e, "a")
    ensures NewLinks(h, e) == [Link(href.value, TextOf(text), InnerText(h, TextOf(text)))]
  {
    ReadingIs(href, text, reading, h);
    PartsText(h, reading.value + 1);
    assert NewLinks(h, e) == [LinkAt(h, reading.value)];
  }

  lemma RecordedIs(contexts: seq<Context>, starts: seq<nat>, href: Option<string>, text: seq<string>,
                   reading: Option<nat>, h: seq<Event>, e: Event)
    requires Stacked(contexts, starts, h) && Anchored(href, text, reading, h) && href.Some? && Closes(e, "a")
    ensures NewLinks(h, e) == [Link(href.value, TextOf(text), ContextOf(contexts, TextOf(text)))]
  {
    RecordedLink(href, text, reading, h, e);
    InnerTextIs(contexts, starts, h, TextOf(text));
  }

  function ContextOf(contexts: seq<Context>, text: string): string {
    if contexts == [] then text else TextOf(contexts[|contexts| - 1].1)
  }

  class Parser {
    var contexts: seq<Context>
    var activeHref: Option<string>
    var activeText: seq<string>
    var links: seq<Link>

    ghost var history: seq<Event>
    ghost var starts: seq<nat>
    ghost var reading: Option<nat>

    ghost predicate Valid()
      reads this
    {
      && Stacked(contexts, starts, history)
      && Anchored(activeHref, activeText, reading, history)
      && links == LinksOf(history)
    }

    constructor ()
      ensures Valid() && history == []
    {
      contexts, activeHref, activeText, links := [], None, [], [];
      history, starts, reading := [], [], None;
    }

    method HandleStartTag(tag: string, attrs: seq<(string, Option<string>)>)
      requires Valid()
      modifies this
      ensures Valid() && history == old(history) + [Start(tag, attrs)] && links == old(links)
    {
      ghost var e := Start(tag, attrs);
      NoNewLinks(history, e);
      OpenContext(Lower(tag), e);
      BeginLink(Lower(tag), attrs, e);
      history := history + [e];
    }

    method OpenContext(tag: string, ghost e: Event)
      requires e.Start? && Lower(e.tag) == tag && Stacked(contexts, starts, history)
      modifies `contexts, `starts
      ensures Stacked(contexts, starts, history + [e])
    {
      if ContextTag(tag) {
        PushKeepsStack(contexts, starts, history, e);
        contexts := contexts + [(tag, [])];
        starts := starts + [|history|];
      } else {
        PassKeepsStack(contexts, starts, history, e);
      }
    }

    /** A link starts here unless one is being read already. */
    method BeginLink(tag: string, attrs: seq<(string, Option<string>)>, ghost e: Event)
      requires e.Start? && e.attrs == attrs && Lower(e.tag) == tag && Anchored(activeHref, activeText, reading, history)
      modifies `activeHref, `activeText, `reading
      ensures Anchored(activeHref, activeText, reading, history + [e])
    {
      var href := Href(attrs);
      if tag != "a" || activeHref.Some? || href.None? || href.value == "" {
        PassKeepsAnchor(activeHref, activeText, reading, history, e);
        return;
      }
      BeginAnchor(history, e, activeHref, activeText);
      activeHref, activeText := href, [];
      reading := Some(|history|);
    }

    method HandleData(data: string)
      requires Valid()
      modifies this
      ensures Valid() && history == old(history) + [Data(data)] && links == old(links)
    {
      ghost var h, e := history, Data(data);
      NoNewLinks(h, e);
      PassKeepsStack(contexts, starts, h, e);
      PassKeepsAnchor(activeHref, activeText, reading, h, e);
      history := h + [e];
      var normalized := Normalize(data);
      if normalized == "" {
        return;
      }
      AddToContexts(normalized);
      if activeHref.Some? {
        activeText := activeText + [normalized];
      }
    }

    method AddToContexts(part: string)
      modifies `contexts
      ensures contexts == Grown(old(contexts), [part])
    {
      for i := 0 to |contexts|
        invariant |contexts| == |old(contexts)|
        invariant forall k | 0 <= k < i :: contexts[k] == Grown(old(contexts), [part])[k]
        invariant forall k | i <= k < |contexts| :: contexts[k] == old(contexts)[k]
      {
        contexts := contexts[i := (contexts[i].0, contexts[i].1 + [part])];
      }
    }

    method HandleEndTag(tag: string)
      requires Valid()
      modifies this
      ensures Valid() && history == old(history) + [End(tag)]
      ensures links == old(links) + NewLinks(old(history), End(tag))
    {
      ghost var h, e := history, End(tag);
      LinksStep(h, e);
      var normalizedTag := Lower(tag);
      if normalizedTag == "a" && activeHref.Some? {
        RecordLink(e);
      } else {
        NothingRead(activeHref, activeText, reading, h, e);
        PassKeepsAnchor(activeHref, activeText, reading, h, e);
      }
      CloseContext(normalizedTag, e);
      history := h + [e];
    }

    /** The end of the link being read. */
    method RecordLink(ghost e: Event)
      requires Stacked(contexts, starts, history) && Anchored(activeHref, activeText, reading, history)
      requires activeHref.Some? && Closes(e, "a")
      modifies `links, `activeHref, `activeText, `reading
      ensures links == old(links) + NewLinks(history, e)
      ensures Anchored(activeHref, activeText, reading, history + [e])
    {
      RecordedIs(contexts, starts, activeHref, activeText, reading, history, e);
      EndAnchor(history, e);
      var text := TextOf(activeText);
      var context := ContextOf(contexts, text);
      links := links + [Link(activeHref.value, text, context)];
      activeHref, activeText := None, [];
      reading := None;
    }

    /** Drops the innermost context of this tag, with everything opened inside it. */
    method CloseContext(tag: string, ghost e: Event)
      requires Closes(e, tag) && Stacked(contexts, starts, history)
      modifies `contexts, `starts
      ensures Stacked(contexts, starts, history + [e])
    {
      var index := |contexts|;
      while 0 < index
        invariant 0 <= index <= |contexts|
        invariant forall k | index <= k < |contexts| :: contexts[k].0 != tag
        invariant contexts == old(contexts) && starts == old(starts)
      {
        index := index - 1;
        if contexts[index].0 == tag {
          CutKeepsStack(contexts, starts, history, e, index);
          contexts := contexts[..index];
          starts := starts[..index];
          return;
        }
      }
      PassKeepsStack(contexts, starts, history, e);
    }

    method Feed(e: Event)
      requires Valid()
      modifies this
      ensures Valid() && history == old(history) + [e]
    {
      match e {
        case Start(tag, attrs) => HandleStartTag(tag, attrs);
        case Data(text) => HandleData(text);
        case End(tag) => HandleEndTag(tag);
      }
    }
  }

  lemma PrefixStep(events: seq<Event>, i: nat)
    requires i < |events|
    ensures events[..i + 1] == events[..i] + [events[i]]
  {
  }

  /** The whole page: for arbitrarily nested and unclosed tags, what is recorded is `LinksOf`. */
  method ParseLinks(events: seq<Event>) returns (links: seq<Link>)
    ensures links == LinksOf(events)
  {
    var parser := new Parser();
    for i := 0 to |events|
      invariant parser.Valid() && parser.history == events[..i]
      invariant fresh(parser)
    {
      PrefixStep(events, i);
      parser.Feed(events[i]);
    }
    assert events[..|events|] == events;
    links := parser.links;
  }
}
