/** What a page's links and words amount to (`_LinkParser.handle_data`, `handle_starttag` and
    `discover_download_link`, src/fgops/source_monitor.py). */
module LinkChoice {
  import opened Wrappers
  import opened LinkParser
  import opened Discovery
  import opened Text

  // ---- Words ----

  predicate Spaces(s: string) {
    forall c | c in s :: IsSpace(c)
  }

  predicate Word(s: string) {
    s != "" && forall c | c in s :: !IsSpace(c)
  }

  /** The words laid out with gaps of white space before, between and behind them. */
  function Laid(gaps: seq<string>, words: seq<string>): string
    requires |gaps| == |words| + 1
  {
    if words == [] then gaps[0] else gaps[0] + (words[0] + Laid(gaps[1..], words[1..]))
  }

  predicate ProperGaps(gaps: seq<string>) {
    && (forall i | 0 <= i < |gaps| :: Spaces(gaps[i]))
    && forall i | 0 < i < |gaps| - 1 :: gaps[i] != ""
  }

  lemma {:induction false} SplitGap(gap: string, rest: string, word: string)
    requires Spaces(gap) && gap != ""
    ensures Split(gap + rest, word) == (if word == "" then [] else [word]) + Split(rest, "")
    decreases |gap|
  {
    assert gap[0] in gap;
    assert (gap + rest)[1..] == gap[1..] + rest;
    if |gap| > 1 {
      assert forall c | c in gap[1..] :: c in gap;
      SplitGap(gap[1..], rest, "");
    } else {
      assert gap[1..] + rest == rest;
    }
  }

  lemma {:induction false} SplitWord(w: string, rest: string, word: string)
    requires forall c | c in w :: !IsSpace(c)
    ensures Split(w + rest, word) == Split(rest, word + w)
    decreases |w|
  {
    if w == "" {
      assert w + rest == rest && word + w == word;
    } else {
      assert w[0] in w && (w + rest)[1..] == w[1..] + rest;
      assert forall c | c in w[1..] :: c in w;
      SplitWord(w[1..], rest, word + [w[0]]);
      assert word + [w[0]] + w[1..] == word + w;
    }
  }

  /** Behind a word, the text goes on with a gap or ends. */
  lemma {:induction false} SplitBehindWord(gaps: seq<string>, words: seq<string>, word: string)
    requires |gaps| == |words| + 1 && (forall i | 0 <= i < |gaps| :: Spaces(gaps[i])) && word != ""
    requires (forall i | 0 <= i < |gaps| - 1 :: gaps[i] != "") && forall i | 0 <= i < |words| :: Word(words[i])
    ensures Split(Laid(gaps, words), word) == [word] + words
    decreases |words|
  {
    if words == [] {
      if gaps[0] != "" {
        SplitGap(gaps[0], "", word);
        assert gaps[0] + "" == gaps[0];
      }
    } else {
      var rest := Laid(gaps[1..], words[1..]);
      SplitGap(gaps[0], words[0] + rest, word);
      SplitWord(words[0], rest, "");
      assert "" + words[0] == words[0];
      SplitBehindWord(gaps[1..], words[1..], words[0]);
      assert words == [words[0]] + words[1..];
    }
  }

  lemma LeadingGap(gap: string, rest: string)
    requires Spaces(gap)
    ensures Words(gap + rest) == Words(rest)
  {
    if gap == "" {
      assert gap + rest == rest;
    } else {
      SplitGap(gap, rest, "");
    }
  }

  lemma LeadingWord(w: string, gaps: seq<string>, words: seq<string>)
    requires |gaps| == |words| + 1 && (forall i | 0 <= i < |gaps| :: Spaces(gaps[i])) && Word(w)
    requires (forall i | 0 <= i < |gaps| - 1 :: gaps[i] != "") && forall i | 0 <= i < |words| :: Word(words[i])
    ensures Words(w + Laid(gaps, words)) == [w] + words
  {
    SplitWord(w, Laid(gaps, words), "");
    assert "" + w == w;
    SplitBehindWord(gaps, words, w);
  }

  /** The words of a text are its maximal runs without white space, in their order. */
  lemma WordsOfText(gaps: seq<string>, words: seq<string>)
    requires |gaps| == |words| + 1 && ProperGaps(gaps) && forall i | 0 <= i < |words| :: Word(words[i])
    ensures Words(Laid(gaps, words)) == words
  {
    if words == [] {
      LeadingGap(gaps[0], "");
      assert gaps[0] + "" == gaps[0];
    } else {
      LeadingGap(gaps[0], words[0] + Laid(gaps[1..], words[1..]));
      LeadingWord(words[0], gaps[1..], words[1..]);
      assert words == [words[0]] + words[1..];
    }
  }

  /** What stays of a text: its words with single blanks between them. */
  lemma NormalizedText(gaps: seq<string>, words: seq<string>)
    requires |gaps| == |words| + 1 && ProperGaps(gaps) && forall i | 0 <= i < |words| :: Word(words[i])
    ensures words == [] ==> Normalize(Laid(gaps, words)) == ""
    ensures |words| == 1 ==> Normalize(Laid(gaps, words)) == words[0]
    ensures |words| > 1 ==>
              Normalize(Laid(gaps, words)) == Join(words[..|words| - 1]) + " " + words[|words| - 1]
  {
    WordsOfText(gaps, words);
    if |words| > 1 {
      JoinLast(words);
    }
  }

  lemma JoinLast(words: seq<string>)
    requires 1 < |words|
    ensures Join(words) == Join(words[..|words| - 1]) + " " + words[|words| - 1]
  {
    var front, last := words[..|words| - 1], words[|words| - 1];
    assert words == front + [last];
    JoinConcat(front, [last]);
  }

  // ---- Addresses ----

  predicate SaysHref(name: string) {
    |name| == 4 && name[0] in "hH" && name[1] in "rR" && name[2] in "eE" && name[3] in "fF"
  }

  lemma HrefName(name: string)
    ensures Lower(name) == "href" <==> SaysHref(name)
  {
    var low := Lower(name);
    if |name| == 4 {
      assert low == [low[0], low[1], low[2], low[3]];
    }
  }

  /** The address of a link is its first `href`, in any case, even if that has no value. */
  lemma {:induction false} FirstHref(before: seq<(string, Option<string>)>, name: string, value: Option<string>,
                                     behind: seq<(string, Option<string>)>)
    requires SaysHref(name) && forall i | 0 <= i < |before| :: !SaysHref(before[i].0)
    ensures Href(before + [(name, value)] + behind) == value
  {
    var attrs := before + [(name, value)] + behind;
    HrefName(attrs[0].0);
    if before != [] {
      FirstHref(before[1..], name, value, behind);
      assert attrs[1..] == before[1..] + [(name, value)] + behind;
    }
  }

  lemma {:induction false} NoHref(attrs: seq<(string, Option<string>)>)
    requires forall i | 0 <= i < |attrs| :: !SaysHref(attrs[i].0)
    ensures Href(attrs) == None
  {
    if attrs != [] {
      HrefName(attrs[0].0);
      NoHref(attrs[1..]);
    }
  }

  // ---- The choice ----

  /** The link goes to the web, and the expression matches its context, its text and its full address. */
  predicate Matches(l: Link, r: Rules) {
    var url := r.resolve(l.href);
    r.isWeb(url) && r.matches(l.context + " " + l.text + " " + url)
  }

  /** The link takes part in the choice: it matches, and it is an archive if any matching link is. */
  predicate Chosen(links: seq<Link>, l: Link, r: Rules) {
    && l in links && Matches(l, r)
    && (r.isZip(r.resolve(l.href)) || forall k | k in links && Matches(k, r) :: !r.isZip(r.resolve(k.href)))
  }

  lemma ChosenArePreferred(links: seq<Link>, r: Rules)
    ensures forall l | Chosen(links, l, r) :: FoundOf(l, r) in Preferred(Candidates(links, r), r)
    ensures forall f | f in Preferred(Candidates(links, r), r) :: exists l :: Chosen(links, l, r) && f == FoundOf(l, r)
  {
    var cs := Candidates(links, r);
    forall f ensures f in cs <==> Candidate(f, r) && exists l :: l in links && f == FoundOf(l, r) {
      CandidatesFacts(links, r, f);
    }
    forall l | Chosen(links, l, r) ensures FoundOf(l, r) in Preferred(cs, r) {
      PreferredFacts(links, r, FoundOf(l, r));
    }
    forall f | f in Preferred(cs, r) ensures exists l :: Chosen(links, l, r) && f == FoundOf(l, r) {
      PreferredFacts(links, r, f);
      var l :| l in links && f == FoundOf(l, r);
      forall k | k in links && Matches(k, r) ensures FoundOf(k, r) in cs {
        assert Candidate(FoundOf(k, r), r);
      }
      assert Chosen(links, l, r);
    }
  }

  lemma {:induction false} LastCandidate(links: seq<Link>, r: Rules) returns (i: nat)
    requires Candidates(links, r) != []
    ensures i < |links| && Matches(links[i], r) && forall j | i < j < |links| :: !Matches(links[j], r)
    ensures
      var cs := Candidates(links, r);
      cs[|cs| - 1] == FoundOf(links[i], r)
  {
    i := |links| - 1;
    if !Matches(links[i], r) {
      var front := links[..i];
      assert Candidates(links, r) == Candidates(front, r);
      i := LastCandidate(front, r);
      assert forall j | 0 <= j < |front| :: front[j] == links[j];
    }
  }

  predicate ZipMatches(l: Link, r: Rules) {
    Matches(l, r) && r.isZip(r.resolve(l.href))
  }

  lemma ZipsStep(cs: seq<Found>, f: Found, r: Rules)
    ensures Zips(cs + [f], r) == Zips(cs, r) + (if r.isZip(f.url) then [f] else [])
  {
    assert (cs + [f])[..|cs|] == cs;
  }

  function ZipCandidates(links: seq<Link>, r: Rules): seq<Found> {
    Zips(Candidates(links, r), r)
  }

  lemma ZipCandidatesStep(front: seq<Link>, l: Link, links: seq<Link>, r: Rules)
    requires links == front + [l]
    ensures ZipCandidates(links, r)
         == ZipCandidates(front, r) + (if ZipMatches(l, r) then [FoundOf(l, r)] else [])
  {
    assert links[..|front|] == front;
    ZipsStep(Candidates(front, r), FoundOf(l, r), r);
    assert Candidates(front, r) + [] == Candidates(front, r);
  }

  lemma {:induction false} LastZip(links: seq<Link>, r: Rules) returns (i: nat)
    requires ZipCandidates(links, r) != []
    ensures i < |links| && ZipMatches(links[i], r) && forall j | i < j < |links| :: !ZipMatches(links[j], r)
    ensures
      var zs := ZipCandidates(links, r);
      zs[|zs| - 1] == FoundOf(links[i], r)
  {
    i := |links| - 1;
    var front, l := links[..i], links[i];
    assert links == front + [l];
    ZipCandidatesStep(front, l, links, r);
    if !ZipMatches(l, r) {
      i := LastZip(front, r);
      assert forall j | 0 <= j < |front| :: front[j] == links[j];
    }
  }

  /** The choice ends with the last link that takes part. */
  lemma LastChosen(links: seq<Link>, r: Rules) returns (i: nat)
    requires Preferred(Candidates(links, r), r) != []
    ensures i < |links| && Chosen(links, links[i], r) && forall j | i < j < |links| :: !Chosen(links, links[j], r)
    ensures
      var p := Preferred(Candidates(links, r), r);
      p[|p| - 1] == FoundOf(links[i], r)
  {
    if Zips(Candidates(links, r), r) != [] {
      i := LastZip(links, r);
    } else {
      i := LastCandidate(links, r);
      NoZips(links, r);
      assert forall k | k in links && Matches(k, r) :: !ZipMatches(k, r);
    }
  }

  lemma NoZips(links: seq<Link>, r: Rules)
    requires Zips(Candidates(links, r), r) == []
    ensures forall l | l in links :: !ZipMatches(l, r)
  {
    forall l | l in links ensures !ZipMatches(l, r) {
      CandidatesFacts(links, r, FoundOf(l, r));
      ZipsFacts(Candidates(links, r), r, FoundOf(l, r));
    }
  }

  /** The download succeeds exactly when there are links that take part and all lead to one address; then it is
      the last of them that is returned.  No link and several addresses are told apart. */
  lemma OneAddress(links: seq<Link>, r: Rules)
    ensures
      match Single(Preferred(Candidates(links, r), r))
      case Success(f) =>
        && (exists i | 0 <= i < |links| ::
              && Chosen(links, links[i], r) && f == Found(r.resolve(links[i].href), links[i].text, links[i].context)
              && forall j | i < j < |links| :: !Chosen(links, links[j], r))
        && forall l | Chosen(links, l, r) :: r.resolve(l.href) == f.url
      case Failure(NoMatch) => forall l :: !Chosen(links, l, r)
      case Failure(SeveralMatch) =>
        exists l, k :: Chosen(links, l, r) && Chosen(links, k, r) && r.resolve(l.href) != r.resolve(k.href)
  {
    var p := Preferred(Candidates(links, r), r);
    ChosenArePreferred(links, r);
    match Single(p)
    case Success(f) =>
      var i := LastChosen(links, r);
      forall l | Chosen(links, l, r) ensures r.resolve(l.href) == f.url {
        assert FoundOf(l, r) in p;
      }
    case Failure(NoMatch) =>
      forall l ensures !Chosen(links, l, r) {
        assert Chosen(links, l, r) ==> FoundOf(l, r) in p;
      }
    case Failure(SeveralMatch) =>
      var i :| 0 <= i < |p| && p[i].url != p[|p| - 1].url;
      assert p[i] in p && p[|p| - 1] in p;
  }

  // ---- Context tags ----

  /** Texts of items in lists, paragraphs, tables and definition lists, in any case of the letters. */
  lemma ContextTags(tag: string)
    ensures Opens(Start(tag, [])) <==> exists t :: t in {"li", "p", "td", "th", "dt", "dd"} && SameName(t, tag)
  {
    assert Lower("li") == "li" && Lower("p") == "p" && Lower("td") == "td" && Lower("th") == "th";
    assert Lower("dt") == "dt" && Lower("dd") == "dd";
    forall t ensures Lower(t) == Lower(tag) <==> SameName(t, tag) {
      LowerIgnoresCase(t, tag);
    }
  }

  /** What begins a link: an `a`, in any case, whose first `href` has a value. */
  lemma Anchors(tag: string, before: seq<(string, Option<string>)>, name: string, value: Option<string>,
                behind: seq<(string, Option<string>)>)
    requires SaysHref(name) && forall i | 0 <= i < |before| :: !SaysHref(before[i].0)
    ensures Anchor(Start(tag, before + [(name, value)] + behind)) <==> tag in {"a", "A"} && value.Some? && value.value != ""
  {
    FirstHref(before, name, value, behind);
    LowerIgnoresCase("a", tag);
    assert Lower("a") == "a";
    if SameName("a", tag) {
      assert tag == [tag[0]];
    }
  }
}
