/** Choosing the one download link of a page (`discover_download_link`, src/fgops/source_monitor.py). */
module Discovery {
  import opened Wrappers
  import opened LinkParser

  /** `resolve` joins with the page address; `isWeb` asks for an http(s) URL with a host, `isZip` for a path
      that ends in `.zip`, and `matches` is the configured expression. */
  datatype Rules = Rules(
    resolve: string -> string, isWeb: string -> bool, isZip: string -> bool, matches: string -> bool)

  datatype Found = Found(url: string, text: string, context: string)

  datatype DiscoveryError = NoMatch | SeveralMatch

  function FoundOf(l: Link, r: Rules): Found {
    Found(r.resolve(l.href), l.text, l.context)
  }

  predicate Candidate(f: Found, r: Rules) {
    r.isWeb(f.url) && r.matches(f.context + " " + f.text + " " + f.url)
  }

  function Candidates(links: seq<Link>, r: Rules): seq<Found> {
    if links == [] then []
    else
      var f := FoundOf(links[|links| - 1], r);
      Candidates(links[..|links| - 1], r) + (if Candidate(f, r) then [f] else [])
  }

  function Zips(cs: seq<Found>, r: Rules): seq<Found> {
    if cs == [] then []
    else Zips(cs[..|cs| - 1], r) + (if r.isZip(cs[|cs| - 1].url) then [cs[|cs| - 1]] else [])
  }

  function Preferred(cs: seq<Found>, r: Rules): seq<Found> {
    if Zips(cs, r) != [] then Zips(cs, r) else cs
  }

  method CollectCandidates(links: seq<Link>, r: Rules) returns (candidates: seq<Found>)
    ensures candidates == Candidates(links, r)
  {
    candidates := [];
    for i := 0 to |links|
      invariant candidates == Candidates(links[..i], r)
    {
      assert links[..i + 1][..i] == links[..i];
      var f := FoundOf(links[i], r);
      if r.isWeb(f.url) && r.matches(f.context + " " + f.text + " " + f.url) {
        candidates := candidates + [f];
      }
    }
    assert links[..|links|] == links;
  }

  method KeepZips(candidates: seq<Found>, r: Rules) returns (zips: seq<Found>)
    ensures zips == Zips(candidates, r)
  {
    zips := [];
    for i := 0 to |candidates|
      invariant zips == Zips(candidates[..i], r)
    {
      assert candidates[..i + 1][..i] == candidates[..i];
      if r.isZip(candidates[i].url) {
        zips := zips + [candidates[i]];
      }
    }
    assert candidates[..|candidates|] == candidates;
  }

  /** Exactly one address, with the text of the last link that has it. */
  function Single(p: seq<Found>): Result<Found, DiscoveryError> {
    if p == [] then Failure(NoMatch)
    else if exists i | 0 <= i < |p| :: p[i].url != p[|p| - 1].url then Failure(SeveralMatch)
    else Success(p[|p| - 1])
  }

  method SelectSingle(selected: seq<Found>) returns (result: Result<Found, DiscoveryError>)
    ensures result == Single(selected)
  {
    var unique: map<string, Found> := map[];
    for i := 0 to |selected|
      invariant forall k | 0 <= k < i :: selected[k].url in unique
      invariant forall u | u in unique :: exists k | 0 <= k < i :: selected[k].url == u
      invariant 0 < i ==> selected[i - 1].url in unique && unique[selected[i - 1].url] == selected[i - 1]
    {
      unique := unique[selected[i].url := selected[i]];
    }
    if unique == map[] {
      return Failure(NoMatch);
    }
    var last := selected[|selected| - 1];
    if unique.Keys != {last.url} {
      return Failure(SeveralMatch);
    }
    assert forall k | 0 <= k < |selected| :: selected[k].url in unique.Keys;
    return Success(unique[last.url]);
  }

  method DiscoverDownloadLink(links: seq<Link>, r: Rules) returns (result: Result<Found, DiscoveryError>)
    ensures result == Single(Preferred(Candidates(links, r), r))
  {
    var candidates := CollectCandidates(links, r);
    var zips := KeepZips(candidates, r);
    result := SelectSingle(if zips != [] then zips else candidates);
  }

  lemma {:induction false} CandidatesFacts(links: seq<Link>, r: Rules, f: Found)
    ensures f in Candidates(links, r) <==> Candidate(f, r) && exists l :: l in links && f == FoundOf(l, r)
  {
    if links != [] {
      var rest, last := links[..|links| - 1], links[|links| - 1];
      CandidatesFacts(rest, r, f);
      assert links == rest + [last];
      assert forall l :: l in links <==> l in rest || l == last;
    }
  }

  lemma {:induction false} ZipsFacts(cs: seq<Found>, r: Rules, f: Found)
    ensures f in Zips(cs, r) <==> f in cs && r.isZip(f.url)
  {
    if cs != [] {
      ZipsFacts(cs[..|cs| - 1], r, f);
      assert cs == cs[..|cs| - 1] + [cs[|cs| - 1]];
    }
  }

  /** The links a choice is made from: the matching ones, and of those the archives if there are any. */
  lemma PreferredFacts(links: seq<Link>, r: Rules, f: Found)
    ensures
      var cs := Candidates(links, r);
      f in Preferred(cs, r) <==>
        && Candidate(f, r) && (exists l :: l in links && f == FoundOf(l, r))
        && (r.isZip(f.url) || forall g | g in cs :: !r.isZip(g.url))
  {
    var cs := Candidates(links, r);
    CandidatesFacts(links, r, f);
    ZipsFacts(cs, r, f);
    if Zips(cs, r) != [] {
      ZipsFacts(cs, r, Zips(cs, r)[0]);
    } else {
      forall g | g in cs ensures !r.isZip(g.url) {
        ZipsFacts(cs, r, g);
      }
    }
  }

  /** The download is decided by the set of matching links: any two orders of the same links, with any
      repetitions, fail together or give the same address. */
  lemma ChoiceIgnoresOrder(a: seq<Link>, b: seq<Link>, r: Rules)
    requires forall l :: l in a <==> l in b
    ensures
      var x, y := Single(Preferred(Candidates(a, r), r)), Single(Preferred(Candidates(b, r), r));
      match x
      case Failure(why) => y == x
      case Success(f) => y.Success? && y.value.url == f.url
  {
    forall f ensures f in Candidates(a, r) <==> f in Candidates(b, r) {
      CandidatesFacts(a, r, f);
      CandidatesFacts(b, r, f);
    }
    var p, q := Preferred(Candidates(a, r), r), Preferred(Candidates(b, r), r);
    forall f ensures f in p <==> f in q {
      PreferredFacts(a, r, f);
      PreferredFacts(b, r, f);
    }
    SingleIgnoresOrder(p, q);
    SingleIgnoresOrder(q, p);
  }

  lemma SingleIgnoresOrder(p: seq<Found>, q: seq<Found>)
    requires forall f :: f in p <==> f in q
    ensures Single(p).Success? ==> Single(q).Success? && Single(q).value.url == Single(p).value.url
    ensures p == [] <==> q == []
  {
    if p != [] {
      assert p[0] in q;
    }
    if q != [] {
      assert q[0] in p;
    }
    if Single(p).Success? {
      forall i | 0 <= i < |q| ensures q[i].url == p[|p| - 1].url {
        assert q[i] in p;
      }
    }
  }
}
