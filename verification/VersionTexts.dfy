/** What a printed version means to `_version_tuple`, `classify_package_result`
    (src/fgops/controlled_apply.py) and `compare_versions` (scripts/health_report.py): its decimal numbers, leading
    zeros and surrounding text aside. */
module VersionTexts {
  import opened Wrappers
  import V = Versions
  import C = Classifier

  // ---- Printing numbers ----

  function Digit(d: nat): char
    requires d < 10
  {
    ['0', '1', '2', '3', '4', '5', '6', '7', '8', '9'][d]
  }

  /** `str(n)`. */
  function Decimal(n: nat): string {
    if n < 10 then [Digit(n)] else Decimal(n / 10) + [Digit(n % 10)]
  }

  function ZeroText(k: nat): string {
    if k == 0 then "" else "0" + ZeroText(k - 1)
  }

  /** A decimal numeral of `n`, with any number of leading zeros. */
  ghost predicate Numeral(text: string, n: nat) {
    exists k: nat :: text == ZeroText(k) + Decimal(n)
  }

  predicate Digits(text: string) {
    forall k | 0 <= k < |text| :: V.IsDigit(text[k])
  }

  lemma DigitIs(d: nat)
    requires d < 10
    ensures V.IsDigit(Digit(d)) && Digit(d) as int - '0' as int == d
  {
  }

  lemma ValueAppend(text: string, c: char)
    requires Digits(text) && V.IsDigit(c)
    ensures V.Value(text + [c]) == 10 * V.Value(text) + (c as int - '0' as int)
  {
    assert (text + [c])[..|text|] == text;
  }

  lemma {:induction false} DecimalFacts(n: nat)
    ensures Decimal(n) != "" && Digits(Decimal(n)) && V.Value(Decimal(n)) == n
  {
    if n < 10 {
      DigitIs(n);
      ValueAppend("", Digit(n));
      assert "" + [Digit(n)] == [Digit(n)];
    } else {
      DecimalFacts(n / 10);
      DigitIs(n % 10);
      ValueAppend(Decimal(n / 10), Digit(n % 10));
    }
  }

  lemma {:induction false} ZeroTextFacts(k: nat)
    ensures Digits(ZeroText(k)) && ZeroText(k) + "0" == ZeroText(k + 1) && V.Value(ZeroText(k)) == 0
  {
    if k > 0 {
      ZeroTextFacts(k - 1);
      ValueAppend(ZeroText(k - 1), '0');
      assert "0" + (ZeroText(k - 1) + "0") == ("0" + ZeroText(k - 1)) + "0";
    }
  }

  lemma {:induction false} LeadingZeros(k: nat, text: string)
    requires Digits(text)
    ensures Digits(ZeroText(k) + text) && V.Value(ZeroText(k) + text) == V.Value(text)
  {
    ZeroTextFacts(k);
    if text == "" {
      assert ZeroText(k) + text == ZeroText(k);
    } else {
      var front, last := text[..|text| - 1], text[|text| - 1];
      LeadingZeros(k, front);
      assert text == front + [last] && ZeroText(k) + text == (ZeroText(k) + front) + [last];
      ValueAppend(front, last);
      ValueAppend(ZeroText(k) + front, last);
    }
  }

  lemma NumeralFacts(text: string, n: nat)
    requires Numeral(text, n)
    ensures text != "" && Digits(text) && V.Value(text) == n
  {
    var k: nat :| text == ZeroText(k) + Decimal(n);
    DecimalFacts(n);
    LeadingZeros(k, Decimal(n));
  }

  // ---- Printing versions ----

  ghost predicate Numerals(groups: seq<string>, ns: seq<nat>) {
    |groups| == |ns| && forall i | 0 <= i < |ns| :: Numeral(groups[i], ns[i])
  }

  function Dotted(groups: seq<string>): string {
    if groups == [] then "" else if |groups| == 1 then groups[0] else groups[0] + "." + Dotted(groups[1..])
  }

  predicate EndsAt(s: string, j: nat) {
    j < |s| ==> !V.IsDigit(s[j]) && !(s[j] == '.' && j + 1 < |s| && V.IsDigit(s[j + 1]))
  }

  lemma {:induction false} RunIs(s: string, i: nat, n: nat)
    requires i + n <= |s| && (forall k | i <= k < i + n :: V.IsDigit(s[k])) && (i + n < |s| ==> !V.IsDigit(s[i + n]))
    ensures V.Run(s, i) == n
    decreases n
  {
    if n > 0 {
      RunIs(s, i + 1, n - 1);
    }
  }

  /** A group between other text is read as a whole. */
  lemma GroupIsRead(s: string, i: nat, g: string, n: nat, len: nat)
    requires Numeral(g, n) && len == |g| && i + len <= |s| && s[i..i + len] == g
    requires i + len < |s| ==> !V.IsDigit(s[i + len])
    ensures 0 < len && V.Run(s, i) == len && V.ValueAt(s, i, len) == n
  {
    NumeralFacts(g, n);
    forall k | i <= k < i + len ensures V.IsDigit(s[k]) {
      assert s[k] == g[k - i];
    }
    RunIs(s, i, len);
  }

  // ---- Where the groups stand ----

  /** Group `k` stands from `cuts[k]` up to the dot, or the end, before `cuts[k + 1]`. */
  predicate GroupAt(s: string, ns: seq<nat>, cuts: seq<nat>, k: nat)
    requires |cuts| == |ns| + 1 && k < |ns|
  {
    && cuts[k] + 1 < cuts[k + 1] <= |s| + 1
    && V.Run(s, cuts[k]) == cuts[k + 1] - 1 - cuts[k]
    && V.ValueAt(s, cuts[k], cuts[k + 1] - 1 - cuts[k]) == ns[k]
    && (k + 1 < |ns| ==> cuts[k + 1] <= |s| && s[cuts[k + 1] - 1] == '.')
  }

  /** The numbers stand in the text, and the dotted number ends with them. */
  predicate Stand(s: string, ns: seq<nat>, cuts: seq<nat>) {
    && |cuts| == |ns| + 1
    && (forall k | 0 <= k < |ns| :: GroupAt(s, ns, cuts, k))
    && 0 < cuts[|ns|] && EndsAt(s, cuts[|ns|] - 1)
  }

  lemma StandCons(s: string, ns: seq<nat>, cuts: seq<nat>, start: nat)
    requires ns != [] && |cuts| == |ns| && Stand(s, ns[1..], cuts) && GroupAt(s, ns, [start] + cuts, 0)
    ensures Stand(s, ns, [start] + cuts)
  {
    var all := [start] + cuts;
    forall k | 0 < k < |ns| ensures GroupAt(s, ns, all, k) {
      assert all[k] == cuts[k - 1] && all[k + 1] == cuts[k] && ns[k] == ns[1..][k - 1];
      assert GroupAt(s, ns[1..], cuts, k - 1);
    }
  }

  lemma Regroup(pre: string, g: string, rest: string, post: string)
    ensures pre + (g + "." + rest) + post == (pre + g + ".") + rest + post
    ensures pre + (g + "." + rest) + post == pre + g + ("." + rest + post)
  {
  }

  lemma Middle(pre: string, g: string, rest: string, s: string, i: nat, len: nat)
    requires s == pre + g + rest && i == |pre| && len == |g|
    ensures i + len <= |s| && s[i..i + len] == g && (rest != "" ==> i + len < |s| && s[i + len] == rest[0])
    ensures rest == "" ==> i + len == |s|
  {
  }

  lemma LastStands(pre: string, g: string, post: string, s: string, n: nat, i: nat, len: nat)
    requires Numeral(g, n) && EndsAt(post, 0) && s == pre + g + post && i == |pre| && len == |g|
    ensures Stand(s, [n], [i, i + len + 1])
  {
    Middle(pre, g, post, s, i, len);
    EndsAfter(pre + g, post);
    GroupIsRead(s, i, g, n, len);
    assert GroupAt(s, [n], [i, i + len + 1], 0);
  }

  lemma GroupInFront(pre: string, g: string, rest: string, s: string, ns: seq<nat>, cuts: seq<nat>, i: nat, len: nat)
    requires s == pre + g + rest && rest != "" && rest[0] == '.' && i == |pre| && len == |g|
    requires |cuts| == |ns| + 1 && 2 <= |ns| && Numeral(g, ns[0]) && cuts[0] == i && cuts[1] == i + len + 1
    ensures GroupAt(s, ns, cuts, 0)
  {
    Middle(pre, g, rest, s, i, len);
    GroupIsRead(s, i, g, ns[0], len);
  }

  lemma GroupBeforeOthers(pre: string, g: string, rest: string, post: string, s: string, ns: seq<nat>, behind: seq<nat>,
                          cuts: seq<nat>)
    requires s == pre + (g + "." + rest) + post && 2 <= |ns| && Numeral(g, ns[0])
    requires Stand(s, ns[1..], behind) && behind[0] == |pre| + |g| + 1 && cuts == [|pre|] + behind
    ensures Stand(s, ns, cuts) && cuts[0] == |pre| && cuts[|ns|] == behind[|ns| - 1]
  {
    Regroup(pre, g, rest, post);
    GroupInFront(pre, g, "." + rest + post, s, ns, cuts, |pre|, |g|);
    StandCons(s, ns, behind, |pre|);
  }

  lemma DottedSplits(groups: seq<string>, d: string, rest: string)
    requires 2 <= |groups| && d == Dotted(groups) && rest == Dotted(groups[1..])
    ensures d == groups[0] + "." + rest
  {
  }

  /** The groups of a printed version stand where they were printed. */
  lemma {:induction false} DottedStands(pre: string, groups: seq<string>, post: string, ns: seq<nat>, d: string, s: string)
    returns (cuts: seq<nat>)
    requires groups != [] && Numerals(groups, ns) && EndsAt(post, 0) && d == Dotted(groups) && s == pre + d + post
    ensures Stand(s, ns, cuts) && cuts[0] == |pre| && cuts[|ns|] == |s| - |post| + 1
    decreases |groups|
  {
    var g := groups[0];
    if |groups| == 1 {
      LastStands(pre, g, post, s, ns[0], |pre|, |g|);
      cuts := [|pre|, |pre| + |g| + 1];
      assert ns == [ns[0]];
    } else {
      var rest := Dotted(groups[1..]);
      DottedSplits(groups, d, rest);
      Regroup(pre, g, rest, post);
      var behind := DottedStands(pre + g + ".", groups[1..], post, ns[1..], rest, s);
      cuts := [|pre|] + behind;
      GroupBeforeOthers(pre, g, rest, post, s, ns, behind, cuts);
    }
  }

  lemma EndsAfter(head: string, post: string)
    requires EndsAt(post, 0)
    ensures EndsAt(head + post, |head|)
  {
    if post != "" {
      assert (head + post)[|head|] == post[0];
      if 1 < |post| {
        assert (head + post)[|head| + 1] == post[1];
      }
    }
  }

  // ---- Scanning ----

  lemma HeadAndTail(ns: seq<nat>, k: nat)
    requires k < |ns|
    ensures ns[k..] == [ns[k]] + ns[k + 1..]
  {
  }

  lemma TailStep(s: string, i: nat, n: nat, value: nat, rest: seq<nat>)
    requires i + 1 + n <= |s| && s[i] == '.' && 0 < n && V.Run(s, i + 1) == n && V.ValueAt(s, i + 1, n) == value
    requires V.DottedTail(s, i + 1 + n) == rest
    ensures V.DottedTail(s, i) == [value] + rest
  {
  }

  lemma TailEnds(s: string, i: nat)
    requires i <= |s| && EndsAt(s, i)
    ensures V.DottedTail(s, i) == []
  {
  }

  lemma GroupRead(s: string, ns: seq<nat>, cuts: seq<nat>, k: nat, i: nat, n: nat)
    requires Stand(s, ns, cuts) && k < |ns| && i == cuts[k] && i + n + 1 == cuts[k + 1]
    ensures 0 < n && i + n <= |s| && V.Run(s, i) == n && V.ValueAt(s, i, n) == ns[k]
    ensures k + 1 < |ns| ==> i + n < |s| && s[i + n] == '.'
  {
    assert GroupAt(s, ns, cuts, k);
  }

  lemma GroupLength(s: string, ns: seq<nat>, cuts: seq<nat>, k: nat) returns (n: nat)
    requires Stand(s, ns, cuts) && k < |ns|
    ensures cuts[k] + n + 1 == cuts[k + 1]
  {
    assert GroupAt(s, ns, cuts, k);
    n := cuts[k + 1] - 1 - cuts[k];
  }

  lemma {:induction false} TailFrom(s: string, ns: seq<nat>, cuts: seq<nat>, k: nat, i: nat, tail: seq<nat>)
    requires Stand(s, ns, cuts) && 0 < k <= |ns| && i + 1 == cuts[k] && i <= |s| && tail == ns[k..]
    requires k < |ns| ==> i < |s| && s[i] == '.'
    ensures V.DottedTail(s, i) == tail
    decreases |ns| - k
  {
    if k == |ns| {
      TailEnds(s, i);
    } else {
      var n := GroupLength(s, ns, cuts, k);
      GroupRead(s, ns, cuts, k, i + 1, n);
      TailFrom(s, ns, cuts, k + 1, i + 1 + n, ns[k + 1..]);
      TailStep(s, i, n, ns[k], ns[k + 1..]);
      HeadAndTail(ns, k);
    }
  }

  /** The text before the version has no dotted number in it and does not run into it. */
  predicate Heading(pre: string) {
    && (forall k | 0 <= k < |pre| - 2 :: !(V.IsDigit(pre[k]) && pre[k + 1] == '.' && V.IsDigit(pre[k + 2])))
    && (pre == "" || (!V.IsDigit(pre[|pre| - 1]) && pre[|pre| - 1] != '.'))
  }

  lemma NothingInHeading(pre: string, s: string, i: nat)
    requires Heading(pre) && pre <= s && i < |pre|
    ensures i + V.Run(s, i) < |pre|
    ensures V.Run(s, i) > 0 ==> V.DottedTail(s, i + V.Run(s, i)) == []
  {
    var n := V.Run(s, i);
    assert forall k | 0 <= k < |pre| :: s[k] == pre[k];
    assert s[|pre| - 1] == pre[|pre| - 1];
    if 0 < n && i + n + 1 < |s| && s[i + n] == '.' {
      assert i + n + 1 < |pre|;
      assert V.IsDigit(pre[i + n - 1]) && pre[i + n] == '.';
    }
  }

  lemma FirstDottedHit(s: string, i: nat, n: nat, value: nat, rest: seq<nat>)
    requires i + n <= |s| && 0 < n && V.Run(s, i) == n && V.ValueAt(s, i, n) == value
    requires V.DottedTail(s, i + n) == rest && rest != []
    ensures V.FirstDotted(s, i) == Some([value] + rest)
  {
  }

  lemma FoundHere(s: string, ns: seq<nat>, cuts: seq<nat>, i: nat)
    requires 2 <= |ns| && Stand(s, ns, cuts) && i == cuts[0]
    ensures i <= |s| && V.FirstDotted(s, i) == Some(ns)
  {
    var n := GroupLength(s, ns, cuts, 0);
    var tail := ns[1..];
    GroupRead(s, ns, cuts, 0, i, n);
    TailFrom(s, ns, cuts, 1, i + n, tail);
    FirstDottedHit(s, i, n, ns[0], tail);
    HeadAndTail(ns, 0);
  }

  lemma FirstDottedStep(s: string, i: nat)
    requires i < |s|
    ensures
      var n := V.Run(s, i);
      && (n == 0 ==> V.FirstDotted(s, i) == V.FirstDotted(s, i + 1))
      && (n > 0 && V.DottedTail(s, i + n) == [] ==> V.FirstDotted(s, i) == V.FirstDotted(s, i + n))
  {
  }

  /** The heading is passed over. */
  lemma {:induction false} HeadingIsPassed(pre: string, s: string, i: nat)
    requires Heading(pre) && pre <= s && i <= |pre|
    ensures V.FirstDotted(s, i) == V.FirstDotted(s, |pre|)
    decreases |pre| - i
  {
    if i < |pre| {
      NothingInHeading(pre, s, i);
      FirstDottedStep(s, i);
      HeadingIsPassed(pre, s, if V.Run(s, i) == 0 then i + 1 else i + V.Run(s, i));
    }
  }

  // ---- Reading versions ----

  /** The text prints the version `ns`: its numbers in decimal, with leading zeros or not, separated by dots, after
      a heading and before anything that does not continue it. */
  ghost predicate Prints(text: string, ns: seq<nat>) {
    2 <= |ns| && exists pre, groups, post ::
      Heading(pre) && EndsAt(post, 0) && Numerals(groups, ns) && text == pre + Dotted(groups) + post
  }

  lemma FoundInText(pre: string, groups: seq<string>, post: string, text: string, ns: seq<nat>)
    requires Heading(pre) && EndsAt(post, 0) && 2 <= |ns| && Numerals(groups, ns) && text == pre + Dotted(groups) + post
    ensures V.FirstDotted(text, 0) == Some(ns)
  {
    var cuts := DottedStands(pre, groups, post, ns, Dotted(groups), text);
    FoundHere(text, ns, cuts, |pre|);
    IsPrefix(pre, Dotted(groups), post, text);
    HeadingIsPassed(pre, text, 0);
  }

  lemma IsPrefix(a: string, b: string, c: string, s: string)
    requires s == a + b + c
    ensures a <= s
  {
    assert s == a + (b + c);
  }

  lemma TupleOfFound(text: string, ns: seq<nat>)
    requires V.FirstDotted(text, 0) == Some(ns) && ns != []
    ensures V.VersionTuple(text) == Some(V.StripZeros(ns))
  {
  }

  /** A printed version is read as its numbers, without trailing zeros. */
  lemma PrintedIsRead(text: string, ns: seq<nat>)
    requires Prints(text, ns)
    ensures V.VersionTuple(text) == Some(V.StripZeros(ns))
  {
    var pre, groups, post :|
      Heading(pre) && EndsAt(post, 0) && Numerals(groups, ns) && text == pre + Dotted(groups) + post;
    FoundInText(pre, groups, post, text, ns);
    TupleOfFound(text, ns);
  }

  /** An object counts as newer exactly when its version got higher at the first component that changed, as
      older exactly when it got lower there. */
  lemma JudgedByNumbers(name: string, before: string, after: string, ns: seq<nat>, ms: seq<nat>)
    requires Prints(before, ns) && Prints(after, ms)
    ensures
      var d := C.Delta(name, Some(before), Some(after));
      (C.Newer(d) <==> V.Older(ns, ms)) && (C.Older(d) <==> V.Older(ms, ns))
  {
    PrintedIsRead(before, ns);
    PrintedIsRead(after, ms);
    V.StrippedOrder(ns, ms);
    V.StrippedOrder(ms, ns);
  }

  /** An object that had no version counts as newer, one that lost it as neither. */
  lemma JudgedWithout(name: string, text: string, ns: seq<nat>)
    requires Prints(text, ns)
    ensures C.Newer(C.Delta(name, None, Some(text))) && !C.Older(C.Delta(name, None, Some(text)))
    ensures !C.Newer(C.Delta(name, Some(text), None)) && !C.Older(C.Delta(name, Some(text), None))
  {
    PrintedIsRead(text, ns);
  }

  // ---- The health report ----

  lemma ScanStep(s: string, i: nat, n: nat)
    requires i + n <= |s| && 0 < n && V.Run(s, i) == n
    requires i + n == |s| || (s[i + n] == '.' && V.DottedFrom(s, i + n + 1))
    ensures V.DottedFrom(s, i)
  {
  }

  lemma {:induction false} DottedScan(s: string, ns: seq<nat>, cuts: seq<nat>, k: nat, i: nat)
    requires Stand(s, ns, cuts) && k < |ns| && cuts[|ns|] == |s| + 1 && i == cuts[k]
    ensures i <= |s| && V.DottedFrom(s, i)
    decreases |ns| - k
  {
    var n := GroupLength(s, ns, cuts, k);
    GroupRead(s, ns, cuts, k, i, n);
    if k + 1 < |ns| {
      DottedScan(s, ns, cuts, k + 1, i + n + 1);
    }
    ScanStep(s, i, n);
  }

  lemma AllNumbersRead(groups: seq<string>, ns: seq<nat>, s: string)
    requires 2 <= |ns| && Numerals(groups, ns) && s == Dotted(groups)
    ensures V.AllNumbers(s, 0) == ns
  {
    assert "" + s + "" == s;
    var cuts := DottedStands("", groups, "", ns, s, s);
    DottedScan(s, ns, cuts, 0, 0);
    var n := GroupLength(s, ns, cuts, 0);
    GroupRead(s, ns, cuts, 0, 0, n);
    FoundHere(s, ns, cuts, 0);
    V.DottedPartsAgree(s);
  }

  /** On printed versions the health report compares the numbers. */
  lemma ReportComparesNumbers(a: seq<string>, b: seq<string>, ns: seq<nat>, ms: seq<nat>)
    requires 2 <= |ns| && 2 <= |ms| && Numerals(a, ns) && Numerals(b, ms)
    ensures V.CompareTexts(Dotted(a), Dotted(b)) == Some(-1) <==> V.Older(ns, ms)
    ensures V.CompareTexts(Dotted(a), Dotted(b)) == Some(0) <==> V.SameVersion(ns, ms)
    ensures V.CompareTexts(Dotted(a), Dotted(b)) == Some(1) <==> V.Older(ms, ns)
  {
    AllNumbersRead(a, ns, Dotted(a));
    AllNumbersRead(b, ms, Dotted(b));
    V.PaddedOrder(ns, ms);
    V.OrderIsExclusive(ns, ms);
  }
}
