/** Two independent comparisons of FortiGuard version strings: `_version_tuple` with tuple comparison
    (src/fgops/controlled_apply.py) and `compare_versions` (scripts/health_report.py). */
module Versions {
  import opened Wrappers

  // ---- Comparing number sequences ----

  /** Python's tuple comparison: -1, 0 or 1. */
  function Compare(a: seq<nat>, b: seq<nat>): int {
    if a == [] && b == [] then 0
    else if a == [] then -1
    else if b == [] then 1
    else if a[0] < b[0] then -1
    else if b[0] < a[0] then 1
    else Compare(a[1..], b[1..])
  }

  predicate Less(a: seq<nat>, b: seq<nat>) {
    Compare(a, b) < 0
  }

  function StripZeros(parts: seq<nat>): seq<nat> {
    if 1 < |parts| && parts[|parts| - 1] == 0 then StripZeros(parts[..|parts| - 1]) else parts
  }

  /** The popping loop of `_version_tuple`. */
  method PopZeros(parts: seq<nat>) returns (r: seq<nat>)
    ensures r == StripZeros(parts)
  {
    r := parts;
    while 1 < |r| && r[|r| - 1] == 0
      invariant StripZeros(r) == StripZeros(parts)
      decreases |r|
    {
      r := r[..|r| - 1];
    }
  }

  function Zeros(n: nat): seq<nat> {
    seq(n, _ => 0)
  }

  function ComparePadded(a: seq<nat>, b: seq<nat>): int {
    var count := if |a| < |b| then |b| else |a|;
    Compare(a + Zeros(count - |a|), b + Zeros(count - |b|))
  }

  /** Component `i` of a version, zero beyond its end. */
  function At(a: seq<nat>, i: nat): nat {
    if i < |a| then a[i] else 0
  }

  /** The reference order: the first differing component of the zero-extended versions decides. */
  ghost predicate FirstDifference(a: seq<nat>, b: seq<nat>, i: nat) {
    At(a, i) != At(b, i) && forall j: nat | j < i :: At(a, j) == At(b, j)
  }

  ghost predicate SameVersion(a: seq<nat>, b: seq<nat>) {
    forall i: nat :: At(a, i) == At(b, i)
  }

  ghost predicate Older(a: seq<nat>, b: seq<nat>) {
    exists i: nat :: FirstDifference(a, b, i) && At(a, i) < At(b, i)
  }

  predicate Stripped(a: seq<nat>) {
    1 < |a| ==> a[|a| - 1] != 0
  }

  lemma {:induction false} StripZerosFacts(a: seq<nat>)
    ensures Stripped(StripZeros(a)) && (a != [] ==> StripZeros(a) != [])
    ensures forall i: nat :: At(StripZeros(a), i) == At(a, i)
    decreases |a|
  {
    if 1 < |a| && a[|a| - 1] == 0 {
      StripZerosFacts(a[..|a| - 1]);
      forall i: nat ensures At(a[..|a| - 1], i) == At(a, i) {
      }
    }
  }

  lemma AtTail(a: seq<nat>, i: nat)
    requires a != []
    ensures At(a, i + 1) == At(a[1..], i)
  {
  }

  /** On equally long or on stripped non-empty versions, tuple comparison decides the reference order. */
  lemma {:induction false} CompareDecides(a: seq<nat>, b: seq<nat>) returns (i: nat)
    requires |a| == |b| || (Stripped(a) && Stripped(b) && a != [] && b != [])
             || (a == [] && b != [] && b[|b| - 1] != 0) || (b == [] && a != [] && a[|a| - 1] != 0)
    ensures Compare(a, b) == 0 ==> a == b
    ensures Compare(a, b) < 0 ==> FirstDifference(a, b, i) && At(a, i) < At(b, i)
    ensures Compare(a, b) > 0 ==> FirstDifference(a, b, i) && At(b, i) < At(a, i)
    decreases |a| + |b|
  {
    i := 0;
    if a == [] || b == [] {
      i := FirstNonZero(if a == [] then b else a);
    } else if a[0] == b[0] {
      var j := CompareDecides(a[1..], b[1..]);
      i := j + 1;
      forall k: nat | k < i && (FirstDifference(a[1..], b[1..], j)) ensures At(a, k) == At(b, k) {
        if k > 0 {
          AtTail(a, k - 1);
          AtTail(b, k - 1);
        }
      }
      AtTail(a, j);
      AtTail(b, j);
      assert a == [a[0]] + a[1..] && b == [b[0]] + b[1..];
    }
  }

  lemma FirstNonZero(b: seq<nat>) returns (i: nat)
    requires b != [] ==> b[|b| - 1] != 0
    ensures b != [] ==> i < |b| && b[i] != 0 && forall j: nat | j < i :: b[j] == 0
  {
    i := 0;
    while i < |b| && b[i] == 0
      invariant i <= |b|
      invariant forall j: nat | j < i :: b[j] == 0
    {
      i := i + 1;
    }
  }

  lemma OrderIsExclusive(a: seq<nat>, b: seq<nat>)
    ensures !(Older(a, b) && Older(b, a))
    ensures SameVersion(a, b) ==> !Older(a, b) && !Older(b, a)
  {
  }

  /** Stripping trailing zeros and comparing tuples decides the reference order, in all three outcomes. */
  lemma StrippedOrder(a: seq<nat>, b: seq<nat>)
    requires a != [] && b != []
    ensures
      var c := Compare(StripZeros(a), StripZeros(b));
      (c < 0 <==> Older(a, b)) && (c == 0 <==> SameVersion(a, b)) && (c > 0 <==> Older(b, a))
  {
    var s, t := StripZeros(a), StripZeros(b);
    StripZerosFacts(a);
    StripZerosFacts(b);
    var i := CompareDecides(s, t);
    Transfer(s, t, a, b, i);
    OrderIsExclusive(a, b);
  }

  /** Zero-padding to equal length and comparing tuples decides the same order. */
  lemma PaddedOrder(a: seq<nat>, b: seq<nat>)
    ensures
      var c := ComparePadded(a, b);
      (c < 0 <==> Older(a, b)) && (c == 0 <==> SameVersion(a, b)) && (c > 0 <==> Older(b, a))
  {
    var count := if |a| < |b| then |b| else |a|;
    var s, t := a + Zeros(count - |a|), b + Zeros(count - |b|);
    var i := CompareDecides(s, t);
    Transfer(s, t, a, b, i);
    OrderIsExclusive(a, b);
  }

  lemma Transfer(s: seq<nat>, t: seq<nat>, a: seq<nat>, b: seq<nat>, i: nat)
    requires forall k: nat :: At(s, k) == At(a, k)
    requires forall k: nat :: At(t, k) == At(b, k)
    requires Compare(s, t) == 0 ==> s == t
    requires Compare(s, t) < 0 ==> FirstDifference(s, t, i) && At(s, i) < At(t, i)
    requires Compare(s, t) > 0 ==> FirstDifference(s, t, i) && At(t, i) < At(s, i)
    ensures Compare(s, t) == 0 ==> SameVersion(a, b)
    ensures Compare(s, t) < 0 ==> Older(a, b)
    ensures Compare(s, t) > 0 ==> Older(b, a)
  {
  }

  function Sign(n: int): int {
    if n < 0 then -1 else if n == 0 then 0 else 1
  }

  /** The two comparisons of the repository agree on all number sequences. */
  lemma VersionOrdersAgree(a: seq<nat>, b: seq<nat>)
    requires a != [] && b != []
    ensures Sign(Compare(StripZeros(a), StripZeros(b))) == Sign(ComparePadded(a, b))
  {
    StrippedOrder(a, b);
    PaddedOrder(a, b);
  }

  // ---- A total preorder ----

  lemma {:induction false} CompareLaws(a: seq<nat>, b: seq<nat>, c: seq<nat>)
    ensures Compare(a, b) == -Compare(b, a) && -1 <= Compare(a, b) <= 1
    ensures Compare(a, b) <= 0 && Compare(b, c) <= 0 ==> Compare(a, c) <= 0
    ensures Compare(a, a) == 0
    decreases |a| + |b| + |c|
  {
    if a != [] || b != [] || c != [] {
      CompareLaws(if a == [] then [] else a[1..], if b == [] then [] else b[1..], if c == [] then [] else c[1..]);
    }
  }

  /** "Not newer than" on versions, in either comparison, is reflexive, total and transitive. */
  lemma VersionOrderIsTotalPreorder(a: seq<nat>, b: seq<nat>, c: seq<nat>)
    requires a != [] && b != [] && c != []
    ensures ComparePadded(a, a) == 0
    ensures ComparePadded(a, b) <= 0 || ComparePadded(b, a) <= 0
    ensures ComparePadded(a, b) <= 0 && ComparePadded(b, c) <= 0 ==> ComparePadded(a, c) <= 0
  {
    VersionOrdersAgree(a, a);
    VersionOrdersAgree(a, b);
    VersionOrdersAgree(b, a);
    VersionOrdersAgree(b, c);
    VersionOrdersAgree(a, c);
    CompareLaws(StripZeros(a), StripZeros(b), StripZeros(c));
  }

  // ---- From text to numbers ----

  predicate IsDigit(c: char) {
    '0' <= c <= '9'
  }

  /** The length of the run of digits that starts at `i`. */
  function Run(s: string, i: nat): (n: nat)
    requires i <= |s|
    ensures i + n <= |s|
    ensures forall k | i <= k < i + n :: IsDigit(s[k])
    ensures i + n < |s| ==> !IsDigit(s[i + n])
    decreases |s| - i
  {
    if i < |s| && IsDigit(s[i]) then 1 + Run(s, i + 1) else 0
  }

  function Value(digits: string): nat
    requires forall k | 0 <= k < |digits| :: IsDigit(digits[k])
  {
    if digits == "" then 0
    else assert IsDigit(digits[|digits| - 1]); 10 * Value(digits[..|digits| - 1]) + (digits[|digits| - 1] as int - '0' as int)
  }

  function ValueAt(s: string, i: nat, n: nat): nat
    requires i + n <= |s| && forall k | i <= k < i + n :: IsDigit(s[k])
  {
    Value(s[i..i + n])
  }

  /** `re.findall(r"\d+", s)` from position `i`, as numbers (`version_parts`). */
  function AllNumbers(s: string, i: nat): seq<nat>
    requires i <= |s|
    decreases |s| - i
  {
    if i == |s| then []
    else
      var n := Run(s, i);
      if n == 0 then AllNumbers(s, i + 1)
      else [ValueAt(s, i, n)] + AllNumbers(s, i + n)
  }

  /** The groups `(\.\d+)*` that follow at position `i`, greedily. */
  function DottedTail(s: string, i: nat): seq<nat>
    requires i <= |s|
    decreases |s| - i
  {
    if i + 1 < |s| && s[i] == '.' && IsDigit(s[i + 1]) then
      var n := Run(s, i + 1);
      [ValueAt(s, i + 1, n)] + DottedTail(s, i + 1 + n)
    else []
  }

  /** `re.search(r"\d+(?:\.\d+)+", s)`: the leftmost dotted number, as a list of its parts.
      A start inside a digit run cannot succeed where the whole run fails. */
  function FirstDotted(s: string, i: nat): Option<seq<nat>>
    requires i <= |s|
    decreases |s| - i
  {
    if i == |s| then None
    else
      var n := Run(s, i);
      if n == 0 then FirstDotted(s, i + 1)
      else
        var tail := DottedTail(s, i + n);
        if tail != [] then Some([ValueAt(s, i, n)] + tail) else FirstDotted(s, i + n)
  }

  /** `_version_tuple` on a present version text. */
  function VersionTuple(s: string): (r: Option<seq<nat>>)
    ensures r.Some? ==> r.value != []
  {
    match FirstDotted(s, 0)
    case None => None
    case Some(parts) => StripZerosFacts(parts); if parts == [] then None else Some(StripZeros(parts))
  }

  /** `compare_versions`. */
  function CompareTexts(current: string, expected: string): Option<int> {
    if current == expected then Some(0)
    else
      var a, b := AllNumbers(current, 0), AllNumbers(expected, 0);
      if a == [] || b == [] then None else Some(Sign(ComparePadded(a, b)))
  }

  /** From `i` on, the text is digits, or digits and dots with digits after every dot. */
  predicate DottedFrom(s: string, i: nat)
    requires i <= |s|
    decreases |s| - i
  {
    var n := Run(s, i);
    0 < n && (i + n == |s| || (s[i + n] == '.' && DottedFrom(s, i + n + 1)))
  }

  /** A dotted-number string: at least two digit groups separated by single dots. */
  predicate DottedNumber(s: string) {
    DottedFrom(s, 0) && Run(s, 0) < |s|
  }

  lemma {:induction false} DottedTailIsAll(s: string, i: nat)
    requires i < |s| && s[i] == '.' && DottedFrom(s, i + 1)
    ensures DottedTail(s, i) == AllNumbers(s, i) && DottedTail(s, i) != []
    decreases |s| - i
  {
    var n := Run(s, i + 1);
    AllNumbersSkip(s, i);
    if i + 1 + n < |s| {
      DottedTailIsAll(s, i + 1 + n);
    }
  }

  lemma AllNumbersSkip(s: string, i: nat)
    requires i + 1 < |s| && s[i] == '.' && IsDigit(s[i + 1])
    ensures AllNumbers(s, i) == [ValueAt(s, i + 1, Run(s, i + 1))] + AllNumbers(s, i + 1 + Run(s, i + 1))
  {
  }

  lemma DottedPartsAgree(s: string)
    requires DottedNumber(s)
    ensures FirstDotted(s, 0) == Some(AllNumbers(s, 0)) && AllNumbers(s, 0) != []
  {
    var n := Run(s, 0);
    DottedTailIsAll(s, n);
  }

  /** On dotted-number strings the apply agent and the health report order versions alike. */
  lemma TextOrdersAgree(a: string, b: string)
    requires DottedNumber(a) && DottedNumber(b)
    ensures VersionTuple(a).Some? && VersionTuple(b).Some?
    ensures CompareTexts(a, b) == Some(Sign(Compare(VersionTuple(a).value, VersionTuple(b).value)))
  {
    DottedPartsAgree(a);
    DottedPartsAgree(b);
    VersionOrdersAgree(AllNumbers(a, 0), AllNumbers(b, 0));
    CompareLaws(VersionTuple(a).value, VersionTuple(b).value, []);
  }
}
