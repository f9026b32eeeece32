/** Embedding a record in an issue body and reading it back (`embed_record`, `extract_record`,
    src/fgops/approval_state.py): round trip, overwriting, and survival of the operator's text. */
module IssueBody {
  import opened Wrappers
  import opened Approval
  import opened Markers
  import opened Text
  import opened IssueCodec

  // ---- The state block ----

  predicate Base64Text(s: string) {
    forall i | 0 <= i < |s| :: Base64Char(s[i])
  }

  /** In a state block `<` occurs only at the start and `\n` only before and after the text. */
  lemma StateBlockChars(enc: string, i: int)
    requires Base64Text(enc)
    ensures
      var b := STATE_BEGIN + enc + STATE_END;
      && (0 <= i < |b| && b[i] == '<' ==> i == 0)
      && (0 <= i < |b| && b[i] == '\n' ==> i == |STATE_BEGIN| - 1 || i == |STATE_BEGIN| + |enc|)
  {
    StateMarkersAreSealed();
    if |STATE_BEGIN| <= i < |STATE_BEGIN| + |enc| {
      assert Base64Char(enc[i - |STATE_BEGIN|]);
    }
  }

  lemma BeginsAtStart(enc: string, m: string, i: int)
    requires Base64Text(enc) && IsMarker(m) && m != STATE_END
    ensures Occurs(STATE_BEGIN + enc + STATE_END, m, i) <==> m == STATE_BEGIN && i == 0
  {
    var b := STATE_BEGIN + enc + STATE_END;
    if Occurs(b, m, i) {
      OccursAt(b, m, i, 0);
      StateBlockChars(enc, i);
      StatusMarkersStart(m);
      assert i == 0;
      OccursAt(b, m, 0, 24);
      assert b[24] == STATE_BEGIN[24];
    }
    assert b[0..0 + |STATE_BEGIN|] == STATE_BEGIN;
  }

  /** The first character, and the one that tells STATE from STATUS. */
  lemma StatusMarkersStart(m: string)
    requires IsMarker(m) && m != STATE_END
    ensures 24 < |m| && m[0] == '<' && (m != STATE_BEGIN ==> m[24] != STATE_BEGIN[24])
  {
  }

  lemma InnerIsBase64(enc: string, i: int)
    requires Base64Text(enc)
    ensures
      var b := STATE_BEGIN + enc + STATE_END;
      |STATE_BEGIN| <= i < |STATE_BEGIN| + |enc| ==> Base64Char(b[i])
  {
  }

  lemma EndsAtEnd(enc: string, i: int)
    requires Base64Text(enc)
    ensures Occurs(STATE_BEGIN + enc + STATE_END, STATE_END, i) <==> i == |STATE_BEGIN| + |enc|
  {
    var b := STATE_BEGIN + enc + STATE_END;
    var k := |STATE_BEGIN| + |enc|;
    StateMarkersAreSealed();
    if Occurs(b, STATE_END, i) {
      OccursAt(b, STATE_END, i, 0);
      StateBlockChars(enc, i);
      if i != k {
        InnerIsBase64(enc, i + 25);
        OccursAt(b, STATE_END, i, if |enc| + 1 < |STATE_END| then |enc| + 1 else 25);
        assert false;
      }
    }
    assert b[k..k + |STATE_END|] == STATE_END;
  }

  lemma StateIsBlock(enc: string)
    requires Base64Text(enc)
    ensures StateBlock(STATE_BEGIN + enc + STATE_END)
  {
    var b := STATE_BEGIN + enc + STATE_END;
    forall m, i | IsMarker(m) && m != STATE_END
      ensures Occurs(b, m, i) <==> m == STATE_BEGIN && i == 0
    {
      BeginsAtStart(enc, m, i);
    }
    forall i ensures Occurs(b, STATE_END, i) <==> i == |b| - |STATE_END| {
      EndsAtEnd(enc, i);
    }
  }

  // ---- Replacing one block ----

  lemma BlockInText(pre: string, b: string, post: string, m: string, i: int)
    requires IsMarker(m) && Bracketed(b)
    ensures Occurs(pre + b + post, m, i)
       <==> Occurs(pre, m, i) || Occurs(b, m, i - |pre|) || Occurs(post, m, i - |pre| - |b|)
  {
    SeamOccurs(pre + b, post, m, i);
    SeamOccurs(pre, b, m, i);
  }

  lemma ReplaceAt(body: string, begin: string, end: string, text: string, start: nat, stop: int)
    requires Find(body, begin, 0) == start && Find(body, end, start) == stop
    ensures ReplaceBlock(body, begin, end, text) ==
            if stop < 0 then Failure(IncompleteBlock) else Success(body[..start] + text + body[stop + |end|..])
  {
  }

  lemma FirstBegin(head: string, t: string, tail: string, begin: string)
    requires IsMarker(begin) && Absent(head, begin) && Bracketed(t) && Occurs(t, begin, 0)
    ensures Find(head + t + tail, begin, 0) == |head|
  {
    forall i | i <= |head| ensures Occurs(head + t + tail, begin, i) <==> i == |head| {
      BlockInText(head, t, tail, begin, i);
    }
    FindIs(head + t + tail, begin, 0, |head|);
  }

  lemma FirstEnd(head: string, t: string, tail: string, end: string, e: nat)
    requires IsMarker(end) && Bracketed(t) && Find(t, end, 0) == e
    ensures Find(head + t + tail, end, |head|) == |head| + e
  {
    MarkersAreSealed(end);
    forall i | |head| <= i <= |head| + e ensures Occurs(head + t + tail, end, i) <==> i == |head| + e {
      BlockInText(head, t, tail, end, i);
    }
    FindIs(head + t + tail, end, |head|, |head| + e);
  }

  lemma {:induction false} ReplaceFront(head: string, t: string, tail: string, begin: string, end: string, text: string,
                                        e: nat)
    requires e + |end| <= |t|
    requires Find(head + t + tail, begin, 0) == |head| && Find(head + t + tail, end, |head|) == |head| + e
    ensures ReplaceBlock(head + t + tail, begin, end, text) == Success(head + text + (t[e + |end|..] + tail))
  {
    ReplaceAt(head + t + tail, begin, end, text, |head|, |head| + e);
    CutBody(head, t, tail, e + |end|);
  }

  /** A text that starts with `begin` and has an end marker loses all up to its first one. */
  lemma CutsAtFirstEnd(head: string, t: string, tail: string, begin: string, end: string, text: string, e: nat)
    requires IsMarker(begin) && IsMarker(end) && Absent(head, begin) && Bracketed(t)
    requires Occurs(t, begin, 0) && Find(t, end, 0) == e
    ensures e + |end| <= |t|
    ensures ReplaceBlock(head + t + tail, begin, end, text) == Success(head + text + (t[e + |end|..] + tail))
  {
    FirstBegin(head, t, tail, begin);
    FirstEnd(head, t, tail, end, e);
    ReplaceFront(head, t, tail, begin, end, text, e);
  }

  lemma CutBody(head: string, t: string, tail: string, k: nat)
    requires k <= |t|
    ensures (head + t + tail)[..|head|] == head && (head + t + tail)[|head| + k..] == t[k..] + tail
  {
  }

  lemma ReplaceHit(pre: string, b: string, post: string, begin: string, end: string, replacement: string)
    requires IsMarker(begin) && IsMarker(end) && Block(b, begin, end) && Absent(pre, begin)
    ensures ReplaceBlock(pre + b + post, begin, end, replacement) == Success(pre + replacement + post)
  {
    BlockEnd(b, begin, end);
    CutsAtFirstEnd(pre, b, post, begin, end, replacement, |b| - |end|);
    assert b[|b|..] + post == post;
  }

  lemma BlockEnd(b: string, begin: string, end: string)
    requires Block(b, begin, end)
    ensures Occurs(b, begin, 0) && Find(b, end, 0) == |b| - |end|
  {
    assert Occurs(b, end, |b| - |end|);
    FindIs(b, end, 0, |b| - |end|);
  }

  lemma ReplaceMiss(body: string, begin: string, end: string, replacement: string)
    requires Absent(body, begin)
    ensures ReplaceBlock(body, begin, end, replacement) == Success(RStrip(body) + "\n\n" + replacement + "\n")
  {
  }

  // ---- Trimming ----

  lemma RStripIs(s: string, t: string)
    requires t <= s && (t == "" || !IsSpace(t[|t| - 1])) && forall i | |t| <= i < |s| :: IsSpace(s[i])
    ensures RStrip(s) == t
  {
  }

  lemma RStripAfter(s: string, tail: string)
    requires s != "" && !IsSpace(s[|s| - 1])
    ensures RStrip(s + tail) == s + RStrip(tail)
  {
    var t := s + RStrip(tail);
    assert t <= s + tail;
    forall i | |t| <= i < |s + tail| ensures IsSpace((s + tail)[i]) {
      assert (s + tail)[i] == tail[i - |s|];
    }
    RStripIs(s + tail, t);
  }

  lemma RStripNewline(t: string)
    ensures RStrip(RStrip(t) + "\n") == RStrip(t)
    ensures RStrip("\n") == ""
  {
  }

  // ---- Shapes of issue bodies ----

  /** Both blocks in free text `p`, `q`, `r`. */
  datatype Layout = StatusFirst(p: string, q: string, r: string) | StateFirst(p: string, q: string, r: string)

  function Body(l: Layout, status: string, state: string): string {
    match l
    case StatusFirst(p, q, r) => p + status + q + state + r
    case StateFirst(p, q, r) => p + state + q + status + r
  }

  /** A body with at most one complete block of each kind. */
  datatype Shape =
    | Bare(text: string)
    | OnlyStatus(before: string, status: string, after: string)
    | OnlyState(before: string, state: string, after: string)
    | Both(layout: Layout, status: string, state: string)

  function TextOf(s: Shape): string {
    match s
    case Bare(text) => text
    case OnlyStatus(before, status, after) => before + status + after
    case OnlyState(before, state, after) => before + state + after
    case Both(layout, status, state) => Body(layout, status, state)
  }

  /** Free text has no marker, and gets none from trimming its end; blocks are blocks. */
  ghost predicate WellShaped(s: Shape) {
    match s
    case Bare(text) => TrimFree(text)
    case OnlyStatus(before, status, after) => Free(before) && StatusBlock(status) && TrimFree(after)
    case OnlyState(before, state, after) => Free(before) && StateBlock(state) && TrimFree(after)
    case Both(l, status, state) =>
      Free(l.p) && Free(l.q) && TrimFree(l.r) && StatusBlock(status) && StateBlock(state)
  }

  /** Where the two blocks end up, and the free text around them. */
  function Target(s: Shape): Layout {
    match s
    case Bare(text) => StatusFirst(RStrip(text) + "\n\n", "\n\n", "\n")
    case OnlyStatus(before, _, after) => StatusFirst(before, RStrip(after) + "\n\n", "\n")
    case OnlyState(before, _, after) => StateFirst(before, RStrip(after) + "\n\n", "\n")
    case Both(l, _, _) => l.(r := RStrip(l.r) + "\n")
  }

  lemma TrimmedIsFree(t: string)
    requires TrimFree(t)
    ensures Free(RStrip(t) + "\n") && Free(RStrip(t) + "\n\n")
  {
    SecondNewlineIsFree(RStrip(t));
  }

  lemma TargetIsFree(s: Shape)
    requires WellShaped(s)
    ensures
      var l := Target(s);
      Free(l.p) && Free(l.q) && Free(l.r) && TrimFree(l.r) && RStrip(l.r) + "\n" == l.r
  {
    ShortIsFree("\n");
    ShortIsFree("\n\n");
    RStripNewline("");
    match s
    case Bare(text) => TrimmedIsFree(text);
    case OnlyStatus(_, _, after) => TrimmedIsFree(after);
    case OnlyState(_, _, after) => TrimmedIsFree(after);
    case Both(l, _, _) =>
      RStripNewline(l.r);
      TrimmedIsFree(l.r);
  }

  lemma AbsentAround(pre: string, b: string, post: string, m: string)
    requires IsMarker(m) && Bracketed(b) && Absent(pre, m) && Absent(b, m) && Absent(post, m)
    ensures Absent(pre + b + post, m)
  {
    forall i ensures !Occurs(pre + b + post, m, i) {
      BlockInText(pre, b, post, m, i);
    }
  }

  // ---- Splicing, step by step ----

  lemma Regroup(p: string, x: string, q: string, y: string, r: string)
    ensures p + x + q + y + r == p + x + (q + y + r)
    ensures p + x + q + y + r == (p + x + q) + y + r
  {
  }

  /** The final trim touches only what follows the last block. */
  lemma TrimTail(pre: string, b: string, tail: string)
    requires Bracketed(b)
    ensures RStrip(pre + b + tail) == pre + b + RStrip(tail)
    ensures RStrip(pre + b + tail) + "\n" == pre + b + (RStrip(tail) + "\n")
  {
    RStripAfter(pre + b, tail);
  }

  lemma SpliceSteps(body: string, once: string, twice: string, status: string, state: string)
    requires ReplaceBlock(body, STATUS_BEGIN, STATUS_END, status) == Success(once)
    requires ReplaceBlock(once, STATE_BEGIN, STATE_END, state) == Success(twice)
    ensures Splice(body, status, state) == Success(RStrip(twice) + "\n")
  {
  }

  /** A block that is missing goes behind the trimmed text. */
  lemma Append(pre: string, b: string, tail: string, begin: string, end: string, added: string)
    requires Bracketed(b) && Absent(pre + b + tail, begin)
    ensures ReplaceBlock(pre + b + tail, begin, end, added)
         == Success(pre + b + (RStrip(tail) + "\n\n") + added + "\n")
  {
    ReplaceMiss(pre + b + tail, begin, end, added);
    TrimTail(pre, b, tail);
    assert pre + b + RStrip(tail) + "\n\n" == pre + b + (RStrip(tail) + "\n\n");
  }

  lemma StatusHit(pre: string, x: string, post: string, status: string)
    requires Free(pre) && StatusBlock(x)
    ensures ReplaceBlock(pre + x + post, STATUS_BEGIN, STATUS_END, status) == Success(pre + status + post)
  {
    ReplaceHit(pre, x, post, STATUS_BEGIN, STATUS_END, status);
  }

  lemma StateHit(pre: string, y: string, post: string, state: string)
    requires Free(pre) && StateBlock(y)
    ensures ReplaceBlock(pre + y + post, STATE_BEGIN, STATE_END, state) == Success(pre + state + post)
  {
    ReplaceHit(pre, y, post, STATE_BEGIN, STATE_END, state);
  }

  lemma StatusHitAfter(p: string, y: string, q: string, x: string, r: string, status: string)
    requires Free(p) && StateBlock(y) && Free(q) && StatusBlock(x)
    ensures ReplaceBlock(p + y + q + x + r, STATUS_BEGIN, STATUS_END, status) == Success(p + y + q + status + r)
  {
    AbsentAround(p, y, q, STATUS_BEGIN);
    ReplaceHit(p + y + q, x, r, STATUS_BEGIN, STATUS_END, status);
  }

  lemma StateHitAfter(p: string, x: string, q: string, y: string, r: string, state: string)
    requires Free(p) && StatusBlock(x) && Free(q) && StateBlock(y)
    ensures ReplaceBlock(p + x + q + y + r, STATE_BEGIN, STATE_END, state) == Success(p + x + q + state + r)
  {
    AbsentAround(p, x, q, STATE_BEGIN);
    ReplaceHit(p + x + q, y, r, STATE_BEGIN, STATE_END, state);
  }

  lemma SpliceBare(f: string, status: string, state: string)
    requires TrimFree(f) && StatusBlock(status) && StateBlock(state)
    ensures Splice(f, status, state) == Success(Body(Target(Bare(f)), status, state))
  {
    var head := RStrip(f) + "\n\n";
    ReplaceMiss(f, STATUS_BEGIN, STATUS_END, status);
    TrimmedIsFree(f);
    ShortIsFree("\n");
    AbsentAround(head, status, "\n", STATE_BEGIN);
    RStripNewline("");
    assert "" + "\n\n" == "\n\n";
    Append(head, status, "\n", STATE_BEGIN, STATE_END, state);
    SpliceSteps(f, head + status + "\n", head + status + "\n\n" + state + "\n", status, state);
    TrimTail(head + status + "\n\n", state, "\n");
  }

  lemma SpliceOnlyStatus(f: string, x: string, g: string, status: string, state: string)
    requires Free(f) && StatusBlock(x) && TrimFree(g) && StatusBlock(status) && StateBlock(state)
    ensures Splice(f + x + g, status, state) == Success(f + status + (RStrip(g) + "\n\n") + state + "\n")
  {
    var twice := f + status + (RStrip(g) + "\n\n") + state + "\n";
    StatusHit(f, x, g, status);
    AbsentAround(f, status, g, STATE_BEGIN);
    Append(f, status, g, STATE_BEGIN, STATE_END, state);
    SpliceSteps(f + x + g, f + status + g, twice, status, state);
    RStripNewline("");
    TrimTail(f + status + (RStrip(g) + "\n\n"), state, "\n");
  }

  lemma SpliceOnlyState(f: string, y: string, g: string, status: string, state: string)
    requires Free(f) && StateBlock(y) && TrimFree(g) && StatusBlock(status) && StateBlock(state)
    ensures Splice(f + y + g, status, state) == Success(f + state + (RStrip(g) + "\n\n") + status + "\n")
  {
    var q := RStrip(g) + "\n\n";
    AbsentAround(f, y, g, STATUS_BEGIN);
    Append(f, y, g, STATUS_BEGIN, STATUS_END, status);
    Regroup(f, y, q, status, "\n");
    StateHit(f, y, q + status + "\n", state);
    Regroup(f, state, q, status, "\n");
    SpliceSteps(f + y + g, f + y + q + status + "\n", f + state + q + status + "\n", status, state);
    RStripNewline("");
    TrimTail(f + state + q, status, "\n");
  }

  lemma SpliceStatusFirst(p: string, x: string, q: string, y: string, r: string, status: string, state: string)
    requires Free(p) && Free(q) && StatusBlock(x) && StateBlock(y) && StatusBlock(status) && StateBlock(state)
    ensures Splice(p + x + q + y + r, status, state) == Success(p + status + q + state + (RStrip(r) + "\n"))
  {
    Regroup(p, x, q, y, r);
    StatusHit(p, x, q + y + r, status);
    Regroup(p, status, q, y, r);
    StateHitAfter(p, status, q, y, r, state);
    SpliceSteps(p + x + q + y + r, p + status + q + y + r, p + status + q + state + r, status, state);
    TrimTail(p + status + q, state, r);
  }

  lemma SpliceStateFirst(p: string, y: string, q: string, x: string, r: string, status: string, state: string)
    requires Free(p) && Free(q) && StatusBlock(x) && StateBlock(y) && StatusBlock(status) && StateBlock(state)
    ensures Splice(p + y + q + x + r, status, state) == Success(p + state + q + status + (RStrip(r) + "\n"))
  {
    StatusHitAfter(p, y, q, x, r, status);
    Regroup(p, y, q, status, r);
    StateHit(p, y, q + status + r, state);
    Regroup(p, state, q, status, r);
    SpliceSteps(p + y + q + x + r, p + y + q + status + r, p + state + q + status + r, status, state);
    TrimTail(p + state + q, status, r);
  }

  /** Splicing puts each block in the place of the old one, or behind the trimmed text; the free text
      of `Target` survives. */
  lemma SpliceGivesTarget(s: Shape, status: string, state: string)
    requires WellShaped(s) && StatusBlock(status) && StateBlock(state)
    ensures Splice(TextOf(s), status, state) == Success(Body(Target(s), status, state))
  {
    match s
    case Bare(f) => SpliceBare(f, status, state);
    case OnlyStatus(f, x, g) => SpliceOnlyStatus(f, x, g, status, state);
    case OnlyState(f, y, g) => SpliceOnlyState(f, y, g, status, state);
    case Both(l, x, y) =>
      if l.StatusFirst? {
        SpliceStatusFirst(l.p, x, l.q, y, l.r, status, state);
      } else {
        SpliceStateFirst(l.p, y, l.q, x, l.r, status, state);
      }
  }

  // ---- Reading back ----

  lemma StripBase64(s: string)
    requires Base64Text(s)
    ensures Strip(s) == s
  {
  }

  lemma FindOnly(s: string, m: string, k: nat)
    requires OnlyAt(s, m, k) && m != ""
    ensures Find(s, m, 0) == k && Find(s, m, k + |m|) == -1
  {
    assert Occurs(s, m, k);
    FindIs(s, m, 0, k);
    var r := Find(s, m, k + |m|);
    assert r != -1 ==> Occurs(s, m, r);
  }

  lemma StateBeginOnce(pre: string, b: string, post: string)
    requires StateBlock(b) && Absent(pre, STATE_BEGIN) && Absent(post, STATE_BEGIN)
    ensures OnlyAt(pre + b + post, STATE_BEGIN, |pre|)
  {
    forall i ensures Occurs(pre + b + post, STATE_BEGIN, i) <==> i == |pre| {
      BlockInText(pre, b, post, STATE_BEGIN, i);
    }
  }

  lemma CutEncoded(pre: string, enc: string, post: string)
    ensures
      var body, start := pre + (STATE_BEGIN + enc + STATE_END) + post, |pre| + |STATE_BEGIN|;
      body[start..start + |enc|] == enc
  {
  }

  lemma FindStateEnd(pre: string, enc: string, post: string)
    requires Base64Text(enc)
    ensures
      var body, stop := pre + (STATE_BEGIN + enc + STATE_END) + post, |pre| + |STATE_BEGIN| + |enc|;
      Find(body, STATE_END, |pre|) == stop && stop <= |body| && body[|pre| + |STATE_BEGIN|..stop] == enc
  {
    var b := STATE_BEGIN + enc + STATE_END;
    StateIsBlock(enc);
    BlockEnd(b, STATE_BEGIN, STATE_END);
    FirstEnd(pre, b, post, STATE_END, |STATE_BEGIN| + |enc|);
    CutEncoded(pre, enc, post);
  }

  lemma ExtractAt(body: string, start: nat, stop: nat, enc: string, w: Wire)
    requires OnlyAt(body, STATE_BEGIN, start) && Find(body, STATE_END, start) == stop
    requires start + |STATE_BEGIN| <= stop <= |body| && body[start + |STATE_BEGIN|..stop] == enc
    requires Strip(enc) == enc && w.decode(enc).Some?
    ensures ExtractEnvelope(body, w) == Success(w.decode(enc).value)
  {
    FindOnly(body, STATE_BEGIN, start);
  }

  lemma ExtractFrom(pre: string, enc: string, post: string, w: Wire)
    requires Base64Text(enc) && Absent(pre, STATE_BEGIN) && Absent(post, STATE_BEGIN) && w.decode(enc).Some?
    ensures ExtractEnvelope(pre + (STATE_BEGIN + enc + STATE_END) + post, w) == Success(w.decode(enc).value)
  {
    var b := STATE_BEGIN + enc + STATE_END;
    StateIsBlock(enc);
    StateBeginOnce(pre, b, post);
    FindStateEnd(pre, enc, post);
    StripBase64(enc);
    ExtractAt(pre + b + post, |pre|, |pre| + |STATE_BEGIN| + |enc|, enc, w);
  }

  lemma ExtractBody(l: Layout, status: string, enc: string, w: Wire)
    requires Free(l.p) && Free(l.q) && Free(l.r) && StatusBlock(status) && Base64Text(enc) && w.decode(enc).Some?
    ensures ExtractEnvelope(Body(l, status, STATE_BEGIN + enc + STATE_END), w) == Success(w.decode(enc).value)
  {
    var state := STATE_BEGIN + enc + STATE_END;
    match l
    case StatusFirst(p, q, r) =>
      AbsentAround(p, status, q, STATE_BEGIN);
      assert Body(l, status, state) == (p + status + q) + state + r;
      ExtractFrom(p + status + q, enc, r, w);
    case StateFirst(p, q, r) =>
      AbsentAround(q, status, r, STATE_BEGIN);
      assert Body(l, status, state) == p + state + (q + status + r);
      ExtractFrom(p, enc, q + status + r, w);
  }

  // ---- Main results ----

  /** A record that can be embedded: it signs, its dictionary form is faithful, and the values the
      status table shows contain no marker text. */
  ghost predicate Embeddable(r: Record, key: string, p: Printer) {
    && Valid(r) && KeyOk(key)
    && r.binding.schemaVersion == 1 && PairsAscending(r.binding.packageHashes)
    && CleanStatus(r, p)
  }

  function SignedText(r: Record, key: string, w: Wire): string {
    w.encode(Envelope(ALGORITHM, ToDict(r), w.mac(key, w.json(ToDict(r)))))
  }

  function StateBlockOf(r: Record, key: string, w: Wire): string {
    STATE_BEGIN + SignedText(r, key, w) + STATE_END
  }

  lemma BlocksOf(r: Record, key: string, w: Wire, p: Printer)
    requires Lawful(w) && Embeddable(r, key, p)
    ensures StatusBlock(RenderStatus(r, p)) && StateBlock(StateBlockOf(r, key, w)) && Base64Text(SignedText(r, key, w))
  {
    InnerIsFree(r, p);
    StatusIsBlock(StatusInner(r, p));
    StateIsBlock(SignedText(r, key, w));
  }

  /** What `embed_record` returns: the free text survives up to trailing whitespace, around the two
      fresh blocks. */
  lemma EmbedResult(s: Shape, r: Record, key: string, w: Wire, p: Printer)
    requires Lawful(w) && WellShaped(s) && Embeddable(r, key, p)
    ensures Embed(TextOf(s), r, key, w, p)
         == Success(Body(Target(s), RenderStatus(r, p), StateBlockOf(r, key, w)))
  {
    BlocksOf(r, key, w, p);
    SpliceGivesTarget(s, RenderStatus(r, p), StateBlockOf(r, key, w));
  }

  /** The round trip: what is embedded in any well-shaped body is extracted again. */
  lemma EmbedExtractRoundTrip(s: Shape, r: Record, key: string, w: Wire, p: Printer)
    requires Lawful(w) && WellShaped(s) && Embeddable(r, key, p)
    ensures
      var e := Embed(TextOf(s), r, key, w, p);
      e.Success? && Extract(e.value, key, w) == Success(r)
  {
    EmbedResult(s, r, key, w, p);
    BlocksOf(r, key, w, p);
    TargetIsFree(s);
    ExtractBody(Target(s), RenderStatus(r, p), SignedText(r, key, w), w);
    DictRoundTrip(r);
  }

  /** Embedding over an earlier embedding gives exactly what embedding at once gives; in particular
      the later record is read back, and embedding twice equals embedding once. */
  lemma EmbedOverwrites(s: Shape, first: Record, second: Record, key: string, w: Wire, p: Printer)
    requires Lawful(w) && WellShaped(s) && Embeddable(first, key, p) && Embeddable(second, key, p)
    ensures
      var once := Embed(TextOf(s), first, key, w, p);
      && once.Success?
      && Embed(once.value, second, key, w, p) == Embed(TextOf(s), second, key, w, p)
      && Embed(once.value, second, key, w, p).Success?
      && Extract(Embed(once.value, second, key, w, p).value, key, w) == Success(second)
  {
    EmbedResult(s, first, key, w, p);
    EmbedResult(s, second, key, w, p);
    EmbedExtractRoundTrip(s, second, key, w, p);
    TargetIsFree(s);
    BlocksOf(first, key, w, p);
    var again := Both(Target(s), RenderStatus(first, p), StateBlockOf(first, key, w));
    EmbedResult(again, second, key, w, p);
  }

  // ---- What the conditions are for ----

  /** A body that reads back holds exactly one state marker: an issue with a second one is refused. */
  lemma ExtractedBlockIsUnique(body: string, w: Wire)
    requires ExtractEnvelope(body, w).Success?
    ensures OnlyAt(body, STATE_BEGIN, Find(body, STATE_BEGIN, 0))
  {
    var start := Find(body, STATE_BEGIN, 0);
    forall i | Occurs(body, STATE_BEGIN, i) ensures i == start {
      if start < i {
        NoOverlap(body, start, i);
      }
    }
  }

  /** What keeps a state block from being read: none, none complete, or a second one. */
  lemma RefusedBodies(body: string, w: Wire)
    ensures Absent(body, STATE_BEGIN) ==> ExtractEnvelope(body, w) == Failure(NoStateBlock)
    ensures !Absent(body, STATE_BEGIN) && Absent(body[Find(body, STATE_BEGIN, 0)..], STATE_END) ==>
              ExtractEnvelope(body, w) == Failure(IncompleteBlock)
    ensures !Absent(body, STATE_BEGIN) && !Absent(body[Find(body, STATE_BEGIN, 0)..], STATE_END)
            && !OnlyAt(body, STATE_BEGIN, Find(body, STATE_BEGIN, 0)) ==>
              ExtractEnvelope(body, w) == Failure(DuplicateStateBlock)
  {
    var start := Find(body, STATE_BEGIN, 0);
    if !Absent(body, STATE_BEGIN) {
      EndBehind(body, start);
      if i :| Occurs(body, STATE_BEGIN, i) && i != start {
        NoOverlap(body, start, i);
      }
    }
  }

  lemma EndBehind(body: string, start: nat)
    requires start <= |body|
    ensures Absent(body[start..], STATE_END) <==> Find(body, STATE_END, start) < 0
  {
    var end := Find(body, STATE_END, start);
    assert body[start..|body|] == body[start..];
    forall i ensures Occurs(body[start..], STATE_END, i) <==> 0 <= i && Occurs(body, STATE_END, start + i) {
      SliceOccurs(body, STATE_END, start, |body|, i);
    }
    if 0 <= end {
      assert Occurs(body[start..], STATE_END, end - start);
    }
  }

  lemma NoOverlap(body: string, start: nat, i: int)
    requires Occurs(body, STATE_BEGIN, start) && Occurs(body, STATE_BEGIN, i) && start < i
    ensures start + |STATE_BEGIN| <= i
  {
    StateMarkersAreSealed();
    if i < start + |STATE_BEGIN| {
      OccursAt(body, STATE_BEGIN, i, 0);
      OccursAt(body, STATE_BEGIN, start, i - start);
      assert false;
    }
  }
}
