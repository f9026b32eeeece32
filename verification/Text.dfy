/** Strings as the Python code uses them: code-point order, stripping, lower case, sorting of (name, value)
    pairs. */
module Text {

  // ---- Code-point order ----

  predicate LexLeq(a: string, b: string) {
    a == "" || (b != "" && (a[0] < b[0] || (a[0] == b[0] && LexLeq(a[1..], b[1..]))))
  }

  lemma {:induction false} LexTotal(a: string, b: string)
    ensures LexLeq(a, b) || LexLeq(b, a)
    ensures LexLeq(a, a)
  {
    if a != "" {
      LexTotal(a[1..], if b == "" then "" else b[1..]);
    }
  }

  lemma {:induction false} LexAntisymmetric(a: string, b: string)
    requires LexLeq(a, b) && LexLeq(b, a)
    ensures a == b
  {
    if a != "" {
      LexAntisymmetric(a[1..], b[1..]);
      assert a == [a[0]] + a[1..] && b == [b[0]] + b[1..];
    }
  }

  lemma {:induction false} LexTransitive(a: string, b: string, c: string)
    requires LexLeq(a, b) && LexLeq(b, c)
    ensures LexLeq(a, c)
  {
    if a != "" && a[0] == b[0] && b[0] == c[0] {
      LexTransitive(a[1..], b[1..], c[1..]);
    }
  }

  /** The reference order: a prefix, or smaller at the first difference. */
  ghost predicate Precedes(a: string, b: string) {
    exists n: nat :: DiffersAt(a, b, n) && (n == |a| || (n < |b| && a[n] < b[n]))
  }

  predicate DiffersAt(a: string, b: string, n: nat) {
    n <= |a| && n <= |b| && a[..n] == b[..n]
  }

  lemma SameHead(a: string, b: string, n: nat)
    requires DiffersAt(a, b, n) && 0 < n
    ensures a != "" && b != "" && a[0] == b[0]
  {
    assert a[..n][0] == b[..n][0];
  }

  lemma {:induction false} LexIs(a: string, b: string)
    ensures LexLeq(a, b) <==> Precedes(a, b)
  {
    if a == "" {
      assert DiffersAt(a, b, 0);
    } else if b == "" || a[0] != b[0] {
      assert DiffersAt(a, b, 0);
      if n: nat :| DiffersAt(a, b, n) && (n == |a| || (n < |b| && a[n] < b[n])) {
        if n > 0 {
          SameHead(a, b, n);
        }
      }
    } else {
      LexIs(a[1..], b[1..]);
      if n: nat :| DiffersAt(a[1..], b[1..], n) && (n == |a[1..]| || (n < |b[1..]| && a[1..][n] < b[1..][n])) {
        assert a[..n + 1] == [a[0]] + a[1..][..n] && b[..n + 1] == [b[0]] + b[1..][..n];
        assert DiffersAt(a, b, n + 1);
      }
      if n: nat :| DiffersAt(a, b, n) && (n == |a| || (n < |b| && a[n] < b[n])) {
        assert n > 0;
        assert a[1..][..n - 1] == a[..n][1..] && b[1..][..n - 1] == b[..n][1..];
        assert DiffersAt(a[1..], b[1..], n - 1);
      }
    }
  }

  // ---- Sorting pairs ----

  type Pair = (string, string)

  predicate PairLeq(p: Pair, q: Pair) {
    if p.0 == q.0 then LexLeq(p.1, q.1) else LexLeq(p.0, q.0)
  }

  function InsertPair(p: Pair, s: seq<Pair>): seq<Pair> {
    if s == [] || PairLeq(p, s[0]) then [p] + s else [s[0]] + InsertPair(p, s[1..])
  }

  function SortPairs(s: seq<Pair>): seq<Pair> {
    if s == [] then [] else InsertPair(s[0], SortPairs(s[1..]))
  }

  predicate PairsAscending(s: seq<Pair>) {
    forall i, j | 0 <= i < j < |s| :: PairLeq(s[i], s[j])
  }

  lemma PairTotal(p: Pair, q: Pair)
    ensures PairLeq(p, q) || PairLeq(q, p)
  {
    LexTotal(p.0, q.0);
    LexTotal(p.1, q.1);
  }

  lemma PairTransitive(p: Pair, q: Pair, r: Pair)
    requires PairLeq(p, q) && PairLeq(q, r)
    ensures PairLeq(p, r)
  {
    if p.0 == q.0 == r.0 {
      LexTransitive(p.1, q.1, r.1);
    } else {
      LexTotal(p.0, q.0);
      LexTotal(q.0, r.0);
      LexTransitive(p.0, q.0, r.0);
      if p.0 == r.0 {
        LexAntisymmetric(p.0, q.0);
      }
    }
  }

  lemma PairAntisymmetric(p: Pair, q: Pair)
    requires PairLeq(p, q) && PairLeq(q, p)
    ensures p == q
  {
    if p.0 == q.0 {
      LexAntisymmetric(p.1, q.1);
    } else {
      LexAntisymmetric(p.0, q.0);
    }
  }

  lemma {:induction false} InsertPairFacts(p: Pair, s: seq<Pair>)
    ensures multiset(InsertPair(p, s)) == multiset{p} + multiset(s)
    ensures PairsAscending(s) ==> PairsAscending(InsertPair(p, s))
  {
    if s == [] {
    } else if PairLeq(p, s[0]) {
      forall i | 0 <= i < |s| ensures PairsAscending(s) ==> PairLeq(p, s[i]) {
        if PairsAscending(s) && i > 0 {
          PairTransitive(p, s[0], s[i]);
        }
      }
    } else {
      PairTotal(p, s[0]);
      InsertPairFacts(p, s[1..]);
      assert s == [s[0]] + s[1..];
      var t := InsertPair(p, s[1..]);
      forall x | x in t ensures PairsAscending(s) ==> PairLeq(s[0], x) {
        assert x in multiset(t);
        if x != p {
          assert x in multiset(s[1..]);
          assert x in s[1..];
        }
      }
    }
  }

  lemma {:induction false} SortPairsFacts(s: seq<Pair>)
    ensures multiset(SortPairs(s)) == multiset(s)
    ensures PairsAscending(SortPairs(s))
  {
    if s != [] {
      SortPairsFacts(s[1..]);
      InsertPairFacts(s[0], SortPairs(s[1..]));
      assert s == [s[0]] + s[1..];
    }
  }

  lemma SamePairs(s: seq<Pair>, t: seq<Pair>)
    requires multiset(s) == multiset(t)
    ensures |s| == |t| && forall x :: x in s <==> x in t
  {
    assert |s| == |multiset(s)| && |t| == |multiset(t)|;
    forall x ensures x in s <==> x in t {
      assert x in s <==> x in multiset(s);
      assert x in t <==> x in multiset(t);
    }
  }

  lemma LeastAgree(s: seq<Pair>, t: seq<Pair>)
    requires multiset(s) == multiset(t) && PairsAscending(s) && PairsAscending(t) && s != []
    ensures t != [] && s[0] == t[0]
  {
    SamePairs(s, t);
    assert s[0] in s && t[0] in t;
    assert t[0] in s && s[0] in t;
    var i :| 0 <= i < |s| && s[i] == t[0];
    var j :| 0 <= j < |t| && t[j] == s[0];
    if i != 0 && j != 0 {
      assert PairLeq(s[0], s[i]) && PairLeq(t[0], t[j]);
      PairAntisymmetric(s[0], t[0]);
    }
  }

  lemma TailMultiset(s: seq<Pair>)
    requires s != []
    ensures multiset(s[1..]) == multiset(s) - multiset{s[0]}
  {
    assert s == [s[0]] + s[1..];
  }

  /** A sorted list is determined by its elements. */
  lemma {:induction false} AscendingIsUnique(s: seq<Pair>, t: seq<Pair>)
    requires multiset(s) == multiset(t) && PairsAscending(s) && PairsAscending(t)
    ensures s == t
  {
    SamePairs(s, t);
    if s != [] {
      LeastAgree(s, t);
      TailMultiset(s);
      TailMultiset(t);
      AscendingIsUnique(s[1..], t[1..]);
      assert s == [s[0]] + s[1..] && t == [t[0]] + t[1..];
    }
  }

  // ---- Stripping ----

  /** The code points for which Python's str.isspace holds. */
  predicate IsSpace(c: char) {
    var n := c as int;
    || 0x09 <= n <= 0x0D || 0x1C <= n <= 0x20 || n == 0x85 || n == 0xA0 || n == 0x1680
    || 0x2000 <= n <= 0x200A || n == 0x2028 || n == 0x2029 || n == 0x202F || n == 0x205F || n == 0x3000
  }

  function RStrip(s: string): (t: string)
    ensures t <= s
    ensures t == "" || !IsSpace(t[|t| - 1])
    ensures forall i | |t| <= i < |s| :: IsSpace(s[i])
  {
    if s == "" || !IsSpace(s[|s| - 1]) then s else RStrip(s[..|s| - 1])
  }

  function LStrip(s: string): string {
    if s == "" || !IsSpace(s[0]) then s else LStrip(s[1..])
  }

  function Strip(s: string): string {
    LStrip(RStrip(s))
  }

  lemma {:induction false} LStripSkips(gap: string, t: string)
    requires (forall c | c in gap :: IsSpace(c)) && (t == "" || !IsSpace(t[0]))
    ensures LStrip(gap + t) == t
    decreases |gap|
  {
    if gap == "" {
      assert gap + t == t;
    } else {
      assert gap[0] in gap && (gap + t)[1..] == gap[1..] + t;
      assert forall c | c in gap[1..] :: c in gap;
      LStripSkips(gap[1..], t);
    }
  }

  lemma RStripSkips(t: string, gap: string)
    requires (forall c | c in gap :: IsSpace(c)) && (t == "" || !IsSpace(t[|t| - 1]))
    ensures RStrip(t + gap) == t
  {
    var s := t + gap;
    forall i | |t| <= i < |s| ensures IsSpace(s[i]) {
      assert s[i] == gap[i - |t|] && gap[i - |t|] in gap;
    }
    assert t <= s && RStrip(s) <= s;
  }

  /** Stripping removes exactly the white space at both ends. */
  lemma StripIs(before: string, t: string, behind: string)
    requires (forall c | c in before :: IsSpace(c)) && (forall c | c in behind :: IsSpace(c))
    requires t == "" || (!IsSpace(t[0]) && !IsSpace(t[|t| - 1]))
    ensures Strip(before + t + behind) == t
  {
    if t == "" {
      RStripSkips("", before + behind);
      assert before + t + behind == "" + (before + behind);
    } else {
      RStripSkips(before + t, behind);
      LStripSkips(before, t);
    }
  }

  // ---- Case ----

  function LowerChar(c: char): char {
    if 'A' <= c <= 'Z' then (c as int + 32) as char else c
  }

  function Lower(s: string): string {
    seq(|s|, i requires 0 <= i < |s| => LowerChar(s[i]))
  }

  predicate SameLetter(a: char, b: char) {
    a == b || ('A' <= a <= 'Z' && b as int == a as int + 32) || ('A' <= b <= 'Z' && a as int == b as int + 32)
  }

  /** Equal but for the case of ASCII letters. */
  predicate SameName(a: string, b: string) {
    |a| == |b| && forall i | 0 <= i < |a| :: SameLetter(a[i], b[i])
  }

  lemma LowerIgnoresCase(a: string, b: string)
    ensures Lower(a) == Lower(b) <==> SameName(a, b)
  {
    var x, y := Lower(a), Lower(b);
    if SameName(a, b) {
      assert forall i | 0 <= i < |x| :: x[i] == y[i];
    }
    if x == y {
      forall i | 0 <= i < |a| ensures SameLetter(a[i], b[i]) {
        assert x[i] == y[i];
      }
    }
  }

  /** The white space of Python's `str.split` and `str.strip`. */
  lemma WhiteSpace(c: char)
    ensures IsSpace(c) <==>
      || c in {'\U{9}', '\U{A}', '\U{B}', '\U{C}', '\U{D}', '\U{1C}', '\U{1D}', '\U{1E}', '\U{1F}', ' '}
      || c in {'\U{85}', '\U{A0}', '\U{1680}', '\U{2000}', '\U{2001}', '\U{2002}', '\U{2003}', '\U{2004}'}
      || c in {'\U{2005}', '\U{2006}', '\U{2007}', '\U{2008}', '\U{2009}', '\U{200A}', '\U{2028}', '\U{2029}'}
      || c in {'\U{202F}', '\U{205F}', '\U{3000}'}
  {
  }
}
