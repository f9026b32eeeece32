/** The block markers of an approval issue body, and where they can occur in concatenated text. */
module Markers {
  import opened Text

  const STATE_BEGIN: string := "<!-- FGOPS_APPROVAL_STATE_V1\n"
  const STATE_END: string := "\nFGOPS_APPROVAL_STATE_END -->"
  const STATUS_BEGIN: string := "<!-- FGOPS_APPROVAL_STATUS_V1 -->"
  const STATUS_END: string := "<!-- FGOPS_APPROVAL_STATUS_END -->"

  predicate IsMarker(m: string) {
    m == STATE_BEGIN || m == STATE_END || m == STATUS_BEGIN || m == STATUS_END
  }

  // ---- Searching ----

  predicate Occurs(s: string, m: string, i: int) {
    0 <= i && i + |m| <= |s| && s[i..i + |m|] == m
  }

  ghost predicate Contains(s: string, m: string) {
    exists i :: Occurs(s, m, i)
  }

  /** Python's `s.find(m, from)`. */
  function Find(s: string, m: string, from: nat): (r: int)
    ensures r == -1 ==> forall i | from <= i :: !Occurs(s, m, i)
    ensures r != -1 ==> from <= r && Occurs(s, m, r) && forall i | from <= i < r :: !Occurs(s, m, i)
    decreases |s| - from
  {
    if |s| < from + |m| then -1
    else if Occurs(s, m, from) then from
    else Find(s, m, from + 1)
  }

  lemma FindIs(s: string, m: string, from: nat, i: int)
    requires from <= i && Occurs(s, m, i) && forall j | from <= j < i :: !Occurs(s, m, j)
    ensures Find(s, m, from) == i
  {
  }

  lemma OccursAt(s: string, m: string, i: int, k: int)
    requires Occurs(s, m, i) && 0 <= k < |m|
    ensures s[i + k] == m[k]
  {
  }

  lemma SliceOfSlice(s: string, lo: nat, hi: nat, i: nat, j: nat)
    requires lo <= hi <= |s| && i <= j <= hi - lo
    ensures s[lo..hi][i..j] == s[lo + i..lo + j]
  {
    var u := s[lo..hi];
    assert forall k | 0 <= k < |u| :: u[k] == s[lo + k];
  }

  lemma SliceOccurs(s: string, m: string, lo: nat, hi: nat, i: int)
    requires lo <= hi <= |s|
    ensures Occurs(s[lo..hi], m, i) <==> 0 <= i && lo + i + |m| <= hi && Occurs(s, m, lo + i)
  {
    if 0 <= i && lo + i + |m| <= hi {
      SliceOfSlice(s, lo, hi, i, i + |m|);
    }
  }

  // ---- What markers look like ----

  /** Characters no marker has in its interior. */
  predicate Delimiter(c: char) {
    c == '|' || c == '`' || c == '*'
  }

  predicate Sealed(m: string) {
    && 28 <= |m|
    && (forall i | 1 <= i < |m| - 1 :: m[i] != '<' && m[i] != '>' && m[i] != '\n' && !Delimiter(m[i]))
    && (m[0] == '<' || m[0] == '\n')
    && (m[|m| - 1] == '>' || m[|m| - 1] == '\n')
  }

  lemma StateMarkersAreSealed()
    ensures Sealed(STATE_BEGIN)
    ensures Sealed(STATE_END)
  {
  }

  lemma StatusBeginIsSealed()
    ensures Sealed(STATUS_BEGIN)
  {
  }

  lemma StatusEndIsSealed()
    ensures Sealed(STATUS_END)
  {
  }

  lemma MarkersAreSealed(m: string)
    requires IsMarker(m)
    ensures Sealed(m)
  {
    StateMarkersAreSealed();
    StatusBeginIsSealed();
    StatusEndIsSealed();
  }

  // ---- Seams ----

  /** No marker can stretch over the seam between `a` and `b`. */
  predicate Seam(a: string, b: string) {
    || a == "" || b == ""
    || b[0] == '<' || Delimiter(b[0])
    || a[|a| - 1] == '>' || Delimiter(a[|a| - 1])
  }

  lemma NoStretch(a: string, b: string, m: string, i: int)
    requires Sealed(m) && Seam(a, b) && Occurs(a + b, m, i)
    ensures i + |m| <= |a| || |a| <= i
  {
    if i < |a| < i + |m| {
      OccursAt(a + b, m, i, |a| - i);
      OccursAt(a + b, m, i, |a| - 1 - i);
      assert false;
    }
  }

  lemma SeamOccursSealed(a: string, b: string, m: string, i: int)
    requires Sealed(m) && Seam(a, b)
    ensures Occurs(a + b, m, i) <==> Occurs(a, m, i) || Occurs(b, m, i - |a|)
  {
    if Occurs(a + b, m, i) {
      NoStretch(a, b, m, i);
    }
    if 0 <= i && i + |m| <= |a| {
      assert (a + b)[i..i + |m|] == a[i..i + |m|];
    }
    if |a| <= i && i + |m| <= |a| + |b| {
      assert (a + b)[i..i + |m|] == b[i - |a|..i - |a| + |m|];
    }
  }

  lemma SeamOccurs(a: string, b: string, m: string, i: int)
    requires IsMarker(m) && Seam(a, b)
    ensures Occurs(a + b, m, i) <==> Occurs(a, m, i) || Occurs(b, m, i - |a|)
  {
    MarkersAreSealed(m);
    SeamOccursSealed(a, b, m, i);
  }

  // ---- Free text ----

  /** No marker occurs. */
  ghost predicate Free(t: string) {
    forall m, i | IsMarker(m) :: !Occurs(t, m, i)
  }

  lemma FreeConcat(a: string, b: string)
    requires Free(a) && Free(b) && Seam(a, b)
    ensures Free(a + b)
  {
    forall m, i | IsMarker(m) ensures !Occurs(a + b, m, i) {
      SeamOccurs(a, b, m, i);
    }
  }

  lemma ShortIsFree(t: string)
    requires |t| < 28
    ensures Free(t)
  {
  }

  lemma ConcatContains(a: string, b: string, m: string)
    requires IsMarker(m) && Seam(a, b)
    ensures Contains(a + b, m) <==> Contains(a, m) || Contains(b, m)
  {
    if i :| Occurs(a + b, m, i) {
      SeamOccurs(a, b, m, i);
    }
    if i :| Occurs(a, m, i) {
      SeamOccurs(a, b, m, i);
    }
    if i :| Occurs(b, m, i) {
      SeamOccurs(a, b, m, i + |a|);
    }
  }

  lemma PaddedOccurs(t: string, m: string, i: int)
    requires Sealed(m)
    ensures Occurs(" " + t + " ", m, i) ==> Occurs(t, m, i - 1)
  {
    var s := " " + t + " ";
    if Occurs(s, m, i) {
      OccursAt(s, m, i, 0);
      OccursAt(s, m, i, |m| - 1);
      assert i != 0 && i + |m| != |s|;
      assert s[i..i + |m|] == t[i - 1..i - 1 + |m|];
    }
  }

  lemma OccursInside(pre: string, t: string, post: string, m: string, i: int)
    requires Occurs(t, m, i)
    ensures Occurs(pre + t + post, m, |pre| + i)
  {
    assert (pre + t + post)[|pre| + i..|pre| + i + |m|] == t[i..i + |m|];
  }

  /** Padding a cell with blanks creates no marker and hides none. */
  lemma PaddedContains(t: string, m: string)
    requires IsMarker(m)
    ensures Contains(" " + t + " ", m) <==> Contains(t, m)
  {
    MarkersAreSealed(m);
    if i :| Occurs(" " + t + " ", m, i) {
      PaddedOccurs(t, m, i);
    }
    if i :| Occurs(t, m, i) {
      OccursInside(" ", t, " ", m, i);
    }
  }

  /** A second newline after free text creates no marker. */
  lemma SecondNewlineIsFree(t: string)
    requires Free(t + "\n")
    ensures Free(t + "\n\n")
  {
    var s := t + "\n\n";
    forall m, i | IsMarker(m) ensures !Occurs(s, m, i) {
      MarkersAreSealed(m);
      if Occurs(s, m, i) {
        if i + |m| == |s| {
          OccursAt(s, m, i, |m| - 2);
          assert false;
        } else {
          assert s[i..i + |m|] == (t + "\n")[i..i + |m|];
          assert Occurs(t + "\n", m, i);
        }
      }
    }
  }

  /** Free text that stays free when it is right-trimmed and followed by a newline. */
  ghost predicate TrimFree(t: string) {
    Free(t) && Free(RStrip(t) + "\n")
  }

  // ---- Blocks ----

  ghost predicate OnlyAt(s: string, m: string, k: int) {
    forall i :: Occurs(s, m, i) <==> i == k
  }

  ghost predicate Absent(s: string, m: string) {
    forall i :: !Occurs(s, m, i)
  }

  predicate Bracketed(b: string) {
    b != "" && b[0] == '<' && b[|b| - 1] == '>'
  }

  /** One complete block: its own two markers once each, at its ends, and no other marker. */
  ghost predicate Block(b: string, begin: string, end: string) {
    && Bracketed(b) && |begin| + |end| <= |b|
    && OnlyAt(b, begin, 0) && OnlyAt(b, end, |b| - |end|)
    && forall m | IsMarker(m) && m != begin && m != end :: Absent(b, m)
  }

  ghost predicate StatusBlock(b: string) {
    Block(b, STATUS_BEGIN, STATUS_END)
  }

  ghost predicate StateBlock(b: string) {
    Block(b, STATE_BEGIN, STATE_END)
  }
}
