/** Marker text hidden in the fields a status table shows: nothing checks for it
    (src/fgops/approval_state.py, lines 161-200 and 369-421).  When embedding in plain text still succeeds,
    when the record is still read back, and when a later embedding still overwrites. */
module HiddenMarkers {
  import opened Wrappers
  import opened Approval
  import opened Markers
  import opened Text
  import opened IssueCodec
  import opened IssueBody
  import R = Reconcile

  // ---- Searching a part of a text ----

  /** `m` occurs in `s` where it occurs in `t`, `d` further on. */
  ghost predicate Shifted(s: string, t: string, m: string, d: nat) {
    forall i :: Occurs(s, m, i) <==> Occurs(t, m, i - d)
  }

  /** Searching `s` from `start` is searching `t` from `from`. */
  predicate Matched(d: nat, start: nat, from: nat) {
    start == d + from || (start == 0 && from == 0)
  }

  lemma FindShift(s: string, t: string, m: string, d: nat, start: nat, from: nat)
    requires Shifted(s, t, m, d) && Matched(d, start, from)
    ensures Find(s, m, start) == if Find(t, m, from) < 0 then -1 else d + Find(t, m, from)
  {
    var f := Find(t, m, from);
    if 0 <= f {
      FoundShift(s, t, m, d, start, from, f);
    } else {
      NotFound(s, t, m, d, start, from);
    }
  }

  lemma FoundShift(s: string, t: string, m: string, d: nat, start: nat, from: nat, f: nat)
    requires Shifted(s, t, m, d) && Matched(d, start, from)
    requires from <= f && Occurs(t, m, f) && forall i | from <= i < f :: !Occurs(t, m, i)
    ensures Find(s, m, start) == d + f
  {
    assert Occurs(s, m, d + f) <==> Occurs(t, m, d + f - d);
    FindIs(s, m, start, d + f);
  }

  lemma NotFound(s: string, t: string, m: string, d: nat, start: nat, from: nat)
    requires Shifted(s, t, m, d) && Matched(d, start, from) && Find(t, m, from) == -1
    ensures Find(s, m, start) == -1
  {
    var r := Find(s, m, start);
    assert r != -1 ==> Occurs(t, m, r - d);
  }

  lemma MiddleOnly(pre: string, t: string, post: string, m: string)
    requires IsMarker(m) && Bracketed(t) && Absent(pre, m) && Absent(post, m)
    ensures Shifted(pre + t + post, t, m, |pre|)
  {
    forall i ensures Occurs(pre + t + post, m, i) <==> Occurs(t, m, i - |pre|) {
      BlockInText(pre, t, post, m, i);
    }
  }

  /** Searching a bracketed text between free text and the last newline. */
  lemma FindInBody(head: string, s: string, m: string, from: nat)
    requires IsMarker(m) && Free(head) && Bracketed(s)
    ensures Find(head + s + "\n", m, |head| + from) == if Find(s, m, from) < 0 then -1 else |head| + Find(s, m, from)
    ensures from == 0 ==> Find(head + s + "\n", m, 0) == Find(head + s + "\n", m, |head|)
  {
    ShortIsFree("\n");
    MiddleOnly(head, s, "\n", m);
    FindShift(head + s + "\n", s, m, |head|, |head| + from, from);
    if from == 0 {
      FindShift(head + s + "\n", s, m, |head|, 0, 0);
    }
  }

  /** The table has one end marker, at its end, exactly when no value in it contains another. */
  lemma OneStatusEndIs(r: Record, p: Printer)
    ensures OneStatusEnd(RenderStatus(r, p)) <==> !SomeValueContains(StatusRows(r, p), STATUS_END)
  {
    InnerContains(r, p, STATUS_END);
    OneEndIs(StatusInner(r, p));
  }

  lemma OneEndIs(inner: string)
    ensures OneStatusEnd(STATUS_BEGIN + inner + STATUS_END) <==> !Contains(inner, STATUS_END)
  {
    var s := STATUS_BEGIN + inner + STATUS_END;
    var f, last := Find(s, STATUS_END, 0), |STATUS_BEGIN| + |inner|;
    InnerOccurs(inner, STATUS_END, f);
    InnerOccurs(inner, STATUS_END, last);
    if i :| Occurs(inner, STATUS_END, i) {
      InnerOccurs(inner, STATUS_END, i + |STATUS_BEGIN|);
      EndIsNotBegin();
    }
  }

  lemma EndIsNotBegin()
    ensures STATUS_END != STATUS_BEGIN && STATUS_END != STATE_END
  {
    assert STATUS_END[27] != STATUS_BEGIN[27] && STATUS_END[0] != STATE_END[0];
  }

  // ---- Where the state block goes ----

  /** The table hides a state begin marker. */
  predicate Hides(s: string) {
    0 <= Find(s, STATE_BEGIN, 0)
  }

  function HiddenEnd(s: string): int
    requires Hides(s)
  {
    Find(s, STATE_END, Find(s, STATE_BEGIN, 0))
  }

  predicate Placeable(s: string) {
    Hides(s) ==> 0 <= HiddenEnd(s)
  }

  /** The table as it stands in the body: a hidden block is replaced by the state block. */
  function Table(s: string, state: string): string
    requires Placeable(s)
  {
    if Hides(s) then Exchanged(s, Find(s, STATE_BEGIN, 0), HiddenEnd(s) + |STATE_END|, state) else s
  }

  /** What follows the operator's text. */
  function Placed(s: string, state: string): string
    requires Placeable(s)
  {
    Table(s, state) + (if Hides(s) then "\n" else "\n\n" + state + "\n")
  }

  predicate Ended(x: string) {
    x != "" && x[|x| - 1] == '>'
  }

  lemma TrimNewline(x: string)
    requires Ended(x)
    ensures RStrip(x) == x && RStrip(x + "\n") == x
  {
    RStripNewline("");
    RStripAfter(x, "\n");
    RStripIs(x, x);
  }

  /** `s` with the part from `b` to `t` replaced. */
  function Exchanged(s: string, b: nat, t: nat, state: string): string
    requires b <= |s| && t <= |s|
  {
    s[..b] + state + s[t..]
  }

  lemma ExchangedEnds(s: string, b: nat, t: nat, state: string)
    requires b <= |s| && t <= |s| && Ended(s) && Bracketed(state)
    ensures Ended(Exchanged(s, b, t, state))
  {
    assert s[t..] != "" ==> s[t..][|s[t..]| - 1] == s[|s| - 1];
  }

  lemma PlaceMiss(head: string, s: string, state: string)
    requires Free(head) && Bracketed(s) && !Hides(s)
    ensures ReplaceBlock(head + s + "\n", STATE_BEGIN, STATE_END, state) == Success(head + s + "\n\n" + state + "\n")
  {
    FindInBody(head, s, STATE_BEGIN, 0);
    TrimNewline(head + s);
  }

  lemma TrimAppended(head: string, s: string, state: string)
    requires Bracketed(state)
    ensures RStrip(head + s + "\n\n" + state + "\n") + "\n" == head + (s + ("\n\n" + state + "\n"))
  {
    TrimNewline(head + s + "\n\n" + state);
    assert head + s + "\n\n" + state + "\n" == head + (s + ("\n\n" + state + "\n"));
  }

  lemma PlaceRefused(head: string, s: string, state: string)
    requires Free(head) && Bracketed(s) && !Placeable(s)
    ensures ReplaceBlock(head + s + "\n", STATE_BEGIN, STATE_END, state) == Failure(IncompleteBlock)
  {
    var b := Find(s, STATE_BEGIN, 0);
    FindInBody(head, s, STATE_BEGIN, 0);
    FindInBody(head, s, STATE_END, b);
    ReplaceAt(head + s + "\n", STATE_BEGIN, STATE_END, state, |head| + b, -1);
  }

  lemma ExchangeInside(head: string, s: string, b: nat, t: nat, state: string)
    requires b <= |s| && t <= |s|
    ensures
      var body := head + s + "\n";
      body[..|head| + b] + state + body[|head| + t..] == head + Exchanged(s, b, t, state) + "\n"
  {
    var body := head + s + "\n";
    assert body[..|head| + b] == head + s[..b];
    assert body[|head| + t..] == s[t..] + "\n";
  }

  lemma ReplaceInside(head: string, s: string, begin: string, end: string, text: string, b: nat, e: nat)
    requires b <= |s| && e + |end| <= |s|
    requires Find(head + s + "\n", begin, 0) == |head| + b && Find(head + s + "\n", end, |head| + b) == |head| + e
    ensures ReplaceBlock(head + s + "\n", begin, end, text) == Success(head + Exchanged(s, b, e + |end|, text) + "\n")
  {
    ReplaceAt(head + s + "\n", begin, end, text, |head| + b, |head| + e);
    ExchangeInside(head, s, b, e + |end|, text);
  }

  lemma PlaceHit(head: string, s: string, begin: string, end: string, text: string, b: nat, e: nat)
    requires IsMarker(begin) && IsMarker(end)
    requires Free(head) && Bracketed(s) && Find(s, begin, 0) == b && Find(s, end, b) == e
    ensures e + |end| <= |s|
    ensures ReplaceBlock(head + s + "\n", begin, end, text) == Success(head + Exchanged(s, b, e + |end|, text) + "\n")
  {
    FindInBody(head, s, begin, 0);
    FindInBody(head, s, end, b);
    ReplaceInside(head, s, begin, end, text, b, e);
  }

  lemma TrimTable(head: string, table: string)
    requires Ended(table)
    ensures RStrip(head + table + "\n") + "\n" == head + (table + "\n")
  {
    TrimNewline(head + table);
  }

  /** What an embedding in plain text returns, for any values in the status table. */
  lemma BareEmbed(f: string, r: Record, key: string, w: Wire, p: Printer)
    requires TrimFree(f) && Valid(r) && KeyOk(key)
    ensures
      var s := RenderStatus(r, p);
      Embed(f, r, key, w, p) == if Placeable(s) then Success((RStrip(f) + "\n\n") + Placed(s, StateBlockOf(r, key, w)))
                                else Failure(IncompleteBlock)
  {
    var s, state, head := RenderStatus(r, p), StateBlockOf(r, key, w), RStrip(f) + "\n\n";
    StatusIsBracketed(r, p);
    StateIsBracketed(r, key, w);
    TrimmedIsFree(f);
    ReplaceMiss(f, STATUS_BEGIN, STATUS_END, s);
    PlaceAnywhere(head, s, state);
    SpliceOn(f, head + s + "\n", s, state);
  }

  /** The second splice and the final trim. */
  function Finished(once: string, state: string): Result<string, CodecError> {
    match ReplaceBlock(once, STATE_BEGIN, STATE_END, state)
    case Failure(why) => Failure(why)
    case Success(twice) => Success(RStrip(twice) + "\n")
  }

  lemma SpliceOn(body: string, once: string, status: string, state: string)
    requires ReplaceBlock(body, STATUS_BEGIN, STATUS_END, status) == Success(once)
    ensures Splice(body, status, state) == Finished(once, state)
  {
  }

  lemma PlaceHidden(head: string, s: string, state: string, b: nat, e: nat)
    requires Free(head) && Bracketed(s) && Bracketed(state)
    requires Find(s, STATE_BEGIN, 0) == b && Find(s, STATE_END, b) == e
    ensures e + |STATE_END| <= |s|
    ensures Finished(head + s + "\n", state) == Success(head + (Exchanged(s, b, e + |STATE_END|, state) + "\n"))
  {
    PlaceHit(head, s, STATE_BEGIN, STATE_END, state, b, e);
    ExchangedEnds(s, b, e + |STATE_END|, state);
    TrimTable(head, Exchanged(s, b, e + |STATE_END|, state));
  }

  lemma PlaceAnywhere(head: string, s: string, state: string)
    requires Free(head) && Bracketed(s) && Bracketed(state)
    ensures Finished(head + s + "\n", state)
         == if Placeable(s) then Success(head + Placed(s, state)) else Failure(IncompleteBlock)
  {
    if !Hides(s) {
      PlaceMiss(head, s, state);
      TrimAppended(head, s, state);
    } else if Placeable(s) {
      PlaceHidden(head, s, state, Find(s, STATE_BEGIN, 0), HiddenEnd(s));
    } else {
      PlaceRefused(head, s, state);
    }
  }

  lemma StatusIsBracketed(r: Record, p: Printer)
    ensures Bracketed(RenderStatus(r, p))
  {
  }

  lemma StateIsBracketed(r: Record, key: string, w: Wire)
    ensures Bracketed(StateBlockOf(r, key, w))
  {
  }

  /** For every valid record: embedding in plain text succeeds exactly when the status table hides no state
      begin marker, or hides an end marker after it. */
  lemma HiddenMarkerStopsEmbedding(f: string, r: Record, key: string, w: Wire, p: Printer)
    requires TrimFree(f) && Valid(r) && KeyOk(key)
    ensures
      var s := RenderStatus(r, p);
      Embed(f, r, key, w, p).Success? <==>
        Find(s, STATE_BEGIN, 0) < 0 || 0 <= Find(s, STATE_END, Find(s, STATE_BEGIN, 0))
    ensures Embed(f, r, key, w, p).Failure? ==> Embed(f, r, key, w, p).error == IncompleteBlock
  {
    BareEmbed(f, r, key, w, p);
  }

  // ---- Reading back ----

  lemma SuffixOccurs(s: string, m: string, t: nat, i: int)
    requires IsMarker(m) && t <= |s| && Ended(s)
    ensures Occurs(s[t..] + "\n", m, i) <==> 0 <= i && Occurs(s, m, t + i)
  {
    var rest := s[t..|s|];
    ShortIsFree("\n");
    assert s[t..] == rest && (rest != "" ==> rest[|rest| - 1] == s[|s| - 1]);
    SeamOccurs(rest, "\n", m, i);
    SliceOccurs(s, m, t, |s|, i);
  }

  lemma AbsentSuffix(s: string, m: string, t: nat)
    requires IsMarker(m) && t <= |s| && Ended(s)
    ensures Absent(s[t..] + "\n", m) <==> Find(s, m, t) < 0
  {
    var f := Find(s, m, t);
    forall i ensures Occurs(s[t..] + "\n", m, i) <==> 0 <= i && Occurs(s, m, t + i) {
      SuffixOccurs(s, m, t, i);
    }
    if f < 0 {
      forall i ensures !Occurs(s[t..] + "\n", m, i) {
        assert 0 <= i ==> !Occurs(s, m, t + i);
      }
    } else {
      assert Occurs(s[t..] + "\n", m, f - t);
    }
  }

  lemma AbsentPrefix(head: string, s: string, m: string, b: nat)
    requires IsMarker(m) && Absent(head, m) && b <= |s| && s != "" && s[0] == '<'
    requires forall i | 0 <= i < b :: !Occurs(s, m, i)
    ensures Absent(head + s[..b], m)
  {
    MarkersAreSealed(m);
    forall i ensures !Occurs(head + s[..b], m, i) {
      SeamOccurs(head, s[..b], m, i);
      SliceOccurs(s, m, 0, b, i - |head|);
      assert s[0..b] == s[..b];
    }
  }

  lemma FirstState(pre: string, b: string, post: string)
    requires StateBlock(b) && Absent(pre, STATE_BEGIN)
    ensures Find(pre + b + post, STATE_BEGIN, 0) == |pre|
    ensures !Absent(post, STATE_BEGIN) ==> 0 <= Find(pre + b + post, STATE_BEGIN, |pre| + |STATE_BEGIN|)
  {
    var body := pre + b + post;
    forall i ensures Occurs(body, STATE_BEGIN, i) <==> i == |pre| || Occurs(post, STATE_BEGIN, i - |pre| - |b|) {
      BlockInText(pre, b, post, STATE_BEGIN, i);
    }
    FindIs(body, STATE_BEGIN, 0, |pre|);
    if i :| Occurs(post, STATE_BEGIN, i) {
      assert Occurs(body, STATE_BEGIN, |pre| + |b| + i);
    }
  }

  /** The first state block is decoded, unless a state begin marker follows it. */
  lemma ExtractFirst(pre: string, enc: string, post: string, w: Wire)
    requires Base64Text(enc) && Absent(pre, STATE_BEGIN) && w.decode(enc).Some?
    ensures ExtractEnvelope(pre + (STATE_BEGIN + enc + STATE_END) + post, w)
         == if Absent(post, STATE_BEGIN) then Success(w.decode(enc).value) else Failure(DuplicateStateBlock)
  {
    if Absent(post, STATE_BEGIN) {
      ExtractFrom(pre, enc, post, w);
    } else {
      StateIsBlock(enc);
      FirstState(pre, STATE_BEGIN + enc + STATE_END, post);
      FindStateEnd(pre, enc, post);
    }
  }

  /** The table lets the state block be the only one: it hides no state begin marker, or one hidden block
      with no begin marker after it. */
  predicate Readable(s: string) {
    Hides(s) ==> 0 <= HiddenEnd(s) && Find(s, STATE_BEGIN, HiddenEnd(s) + |STATE_END|) < 0
  }

  lemma ExtractExchanged(head: string, s: string, b: nat, t: nat, enc: string, w: Wire)
    requires Free(head) && Bracketed(s) && Base64Text(enc) && w.decode(enc).Some?
    requires Find(s, STATE_BEGIN, 0) == b <= |s| && t <= |s|
    ensures ExtractEnvelope(head + (Exchanged(s, b, t, STATE_BEGIN + enc + STATE_END) + "\n"), w)
         == if Find(s, STATE_BEGIN, t) < 0 then Success(w.decode(enc).value) else Failure(DuplicateStateBlock)
  {
    AbsentPrefix(head, s, STATE_BEGIN, b);
    AbsentSuffix(s, STATE_BEGIN, t);
    ExtractFirst(head + s[..b], enc, s[t..] + "\n", w);
    SplitExchanged(head, s, b, t, STATE_BEGIN + enc + STATE_END);
  }

  lemma ExtractAppended(head: string, s: string, enc: string, w: Wire)
    requires Free(head) && Bracketed(s) && Base64Text(enc) && w.decode(enc).Some? && !Hides(s)
    ensures ExtractEnvelope(head + (s + ("\n\n" + (STATE_BEGIN + enc + STATE_END) + "\n")), w) == Success(w.decode(enc).value)
  {
    ShortIsFree("\n\n");
    ShortIsFree("\n");
    AbsentAround(head, s, "\n\n", STATE_BEGIN);
    ExtractFirst(head + s + "\n\n", enc, "\n", w);
    SplitAppended(head, s, STATE_BEGIN + enc + STATE_END);
  }

  lemma SplitAppended(head: string, s: string, state: string)
    ensures head + (s + ("\n\n" + state + "\n")) == (head + s + "\n\n") + state + "\n"
  {
  }

  lemma ExtractPlaced(head: string, s: string, enc: string, w: Wire)
    requires Free(head) && Bracketed(s) && Base64Text(enc) && w.decode(enc).Some? && Placeable(s)
    ensures ExtractEnvelope(head + Placed(s, STATE_BEGIN + enc + STATE_END), w)
         == if Readable(s) then Success(w.decode(enc).value) else Failure(DuplicateStateBlock)
  {
    if Hides(s) {
      ExtractExchanged(head, s, Find(s, STATE_BEGIN, 0), HiddenEnd(s) + |STATE_END|, enc, w);
    } else {
      ExtractAppended(head, s, enc, w);
    }
  }

  lemma SplitExchanged(head: string, s: string, b: nat, t: nat, state: string)
    requires b <= |s| && t <= |s|
    ensures head + (Exchanged(s, b, t, state) + "\n") == (head + s[..b]) + state + (s[t..] + "\n")
  {
  }

  /** What reading back an embedding in plain text gives, for any values in the table. */
  lemma BareExtract(f: string, r: Record, key: string, w: Wire, p: Printer)
    requires Lawful(w) && TrimFree(f) && Valid(r) && KeyOk(key) && Placeable(RenderStatus(r, p))
    ensures Embed(f, r, key, w, p).Success?
    ensures Extract(Embed(f, r, key, w, p).value, key, w)
         == if Readable(RenderStatus(r, p)) then FromDict(Canonical(ToDict(r))) else Failure(DuplicateStateBlock)
  {
    BareEmbed(f, r, key, w, p);
    TrimmedIsFree(f);
    StatusIsBracketed(r, p);
    ExtractPlaced(RStrip(f) + "\n\n", RenderStatus(r, p), SignedText(r, key, w), w);
  }

  /** For every record at all: what is embedded in plain text is read back exactly when the record is a valid
      schema-1 record with sorted package hashes, the key is long enough, and the status table lets the
      state block be the only one. */
  lemma BareRoundTrip(f: string, r: Record, key: string, w: Wire, p: Printer)
    requires Lawful(w) && TrimFree(f)
    ensures
      var e := Embed(f, r, key, w, p);
      (e.Success? && Extract(e.value, key, w) == Success(r)) <==>
        && Valid(r) && KeyOk(key)
        && r.binding.schemaVersion == 1 && PairsAscending(r.binding.packageHashes)
        && Readable(RenderStatus(r, p))
  {
    if Valid(r) && KeyOk(key) {
      BareEmbed(f, r, key, w, p);
      if Placeable(RenderStatus(r, p)) {
        BareExtract(f, r, key, w, p);
        DictRoundTrip(r);
      }
    }
  }

  // ---- What a caller can see in the record ----

  lemma InnerOccurs(inner: string, m: string, i: int)
    requires IsMarker(m)
    ensures Occurs(STATUS_BEGIN + inner + STATUS_END, m, i) <==>
      (m == STATUS_BEGIN && i == 0) || Occurs(inner, m, i - |STATUS_BEGIN|)
      || (m == STATUS_END && i == |STATUS_BEGIN| + |inner|)
  {
    SeamOccurs(STATUS_BEGIN + inner, STATUS_END, m, i);
    SeamOccurs(STATUS_BEGIN, inner, m, i);
    StatusMarkersApart(m, i);
    StatusMarkersApart(m, i - |STATUS_BEGIN + inner|);
  }

  lemma HidesInner(inner: string)
    ensures Hides(STATUS_BEGIN + inner + STATUS_END) <==> Contains(inner, STATE_BEGIN)
  {
    var s := STATUS_BEGIN + inner + STATUS_END;
    InnerOccurs(inner, STATE_BEGIN, Find(s, STATE_BEGIN, 0));
    StateIsNotStatus();
    if i :| Occurs(inner, STATE_BEGIN, i) {
      InnerOccurs(inner, STATE_BEGIN, i + |STATUS_BEGIN|);
    }
  }

  lemma StateIsNotStatus()
    ensures STATE_BEGIN != STATUS_BEGIN && STATE_BEGIN != STATUS_END
  {
    assert STATE_BEGIN[24] != STATUS_BEGIN[24] && STATE_BEGIN[24] != STATUS_END[24];
  }

  /** The table hides a state begin marker exactly when some value in it contains one. */
  lemma HidesIs(r: Record, p: Printer)
    ensures Hides(RenderStatus(r, p)) <==> SomeValueContains(StatusRows(r, p), STATE_BEGIN)
  {
    InnerContains(r, p, STATE_BEGIN);
    HidesInner(StatusInner(r, p));
  }

  // ---- Overwriting ----

  predicate OneStatusEnd(t: string) {
    Find(t, STATUS_END, 0) == |t| - |STATUS_END|
  }

  lemma PrefixFind(s: string, rest: string, m: string, from: nat)
    requires IsMarker(m) && Ended(s) && 0 <= Find(s, m, from)
    ensures Find(s + rest, m, from) == Find(s, m, from)
  {
    var f := Find(s, m, from);
    forall i | from <= i <= f ensures Occurs(s + rest, m, i) <==> i == f {
      SeamOccurs(s, rest, m, i);
    }
    FindIs(s + rest, m, from, f);
  }

  lemma HiddenBounds(s: string, b: nat, e: nat)
    requires Find(s, STATE_BEGIN, 0) == b && Find(s, STATE_END, b) == e
    ensures Hides(s) && HiddenEnd(s) == e && Placeable(s) && b <= |s| && e + |STATE_END| <= |s|
  {
    assert Occurs(s, STATE_BEGIN, b) && Occurs(s, STATE_END, e);
  }

  lemma {:induction false} PlacedIs(s: string, state: string, b: nat, e: nat)
    requires Hides(s) && Placeable(s) && b <= |s| && e + |STATE_END| <= |s|
    requires Find(s, STATE_BEGIN, 0) == b && HiddenEnd(s) == e
    ensures Placed(s, state) == Exchanged(s, b, e + |STATE_END|, state) + "\n"
  {
    assert Table(s, state) == Exchanged(s, b, e + |STATE_END|, state);
  }

  lemma LongerByRest(x: string, rest: string)
    ensures (x + rest) + "\n" == x + "\n" <==> rest == ""
  {
    assert |(x + rest) + "\n"| == |x + "\n"| + |rest|;
    assert x + "" == x;
  }

  /** What follows a table that hides a block does not change what is found in it. */
  lemma {:induction false} HiddenInPrefix(s: string, rest: string) returns (b: nat, e: nat)
    requires Ended(s) && Hides(s) && Placeable(s)
    ensures b <= |s| && e + |STATE_END| <= |s|
    ensures Find(s, STATE_BEGIN, 0) == b && Find(s, STATE_END, b) == e
    ensures Find(s + rest, STATE_BEGIN, 0) == b && Find(s + rest, STATE_END, b) == e
  {
    b, e := Find(s, STATE_BEGIN, 0), HiddenEnd(s);
    HiddenBounds(s, b, e);
    PrefixFind(s, rest, STATE_BEGIN, 0);
    PrefixFind(s, rest, STATE_END, b);
  }

  /** A table that hides a block takes the state block into itself; what follows it stays. */
  lemma {:induction false} HidingTablesKeepRest(s: string, rest: string, state: string)
    requires Ended(s) && Hides(s) && Placeable(s)
    ensures Placeable(s + rest) && (Placed(s + rest, state) == Placed(s, state) <==> rest == "")
  {
    var b, e := HiddenInPrefix(s, rest);
    HiddenBounds(s + rest, b, e);
    PlacedIs(s, state, b, e);
    PlacedIs(s + rest, state, b, e);
    ExchangedRest(s, rest, b, e + |STATE_END|, state);
    LongerByRest(Exchanged(s, b, e + |STATE_END|, state), rest);
  }

  lemma ExchangedRest(s: string, rest: string, b: nat, t: nat, state: string)
    requires b <= |s| && t <= |s|
    ensures Exchanged(s + rest, b, t, state) == Exchanged(s, b, t, state) + rest
  {
    assert (s + rest)[..b] == s[..b] && (s + rest)[t..] == s[t..] + rest;
  }

  /** An old state block behind a table without hidden markers is replaced in its place. */
  lemma OldBlockIsReplaced(pre: string, enc: string, state: string)
    requires Base64Text(enc) && Absent(pre, STATE_BEGIN)
    ensures
      var m := pre + (STATE_BEGIN + enc + STATE_END);
      Placeable(m) && Placed(m, state) == pre + state + "\n"
  {
    var b := STATE_BEGIN + enc + STATE_END;
    StateIsBlock(enc);
    FirstState(pre, b, "");
    FindStateEnd(pre, enc, "");
    assert pre + b + "" == pre + b;
    ExchangedTail(pre, b, state);
  }

  lemma ExchangedTail(pre: string, b: string, state: string)
    ensures Exchanged(pre + b, |pre|, |pre + b|, state) == pre + state
  {
    assert (pre + b)[..|pre|] == pre && (pre + b)[|pre + b|..] == "";
  }

  lemma EndsBefore(x: string, m: string, e: int)
    requires IsMarker(m) && Occurs(x + STATUS_END, m, e)
    ensures e + |m| <= |x| || (m == STATUS_END && e == |x|)
  {
    SeamOccurs(x, STATUS_END, m, e);
    StatusMarkersApart(m, e - |x|);
  }

  lemma {:induction false} DebrisBounds(s: string, y: string, b: nat, e: nat)
    requires Ended(s) && Find(s, STATE_BEGIN, 0) < 0
    requires Occurs(s + (y + STATUS_END), STATE_BEGIN, b) && Occurs(s + (y + STATUS_END), STATE_END, e)
    ensures |s| <= b && e + |STATE_END| <= |s| + |y|
  {
    SeamOccurs(s, y + STATUS_END, STATE_BEGIN, b);
    assert s + (y + STATUS_END) == (s + y) + STATUS_END;
    EndsBefore(s + y, STATE_END, e);
    EndIsNotBegin();
  }

  lemma ExchangedLength(s: string, b: nat, t: nat, state: string)
    requires b <= |s| && t <= |s|
    ensures |Exchanged(s, b, t, state)| == b + |state| + |s| - t
  {
  }

  /** Debris that ends with an end marker makes the result longer, wherever the state block goes. */
  lemma DebrisShows(s: string, y: string, state: string)
    requires Ended(s) && !Hides(s)
    ensures
      var m := s + (y + STATUS_END);
      Placeable(m) ==> |Placed(m, state)| > |Placed(s, state)|
  {
    var m := s + (y + STATUS_END);
    StatusEndIsSealed();
    if Hides(m) && Placeable(m) {
      var b, e := Find(m, STATE_BEGIN, 0), HiddenEnd(m);
      DebrisBounds(s, y, b, e);
      PlacedIs(m, state, b, e);
      ExchangedLength(m, b, e + |STATE_END|, state);
    }
  }

  /** What the first cut leaves behind the new table: nothing, or debris up to the last end marker. */
  lemma LeftAfterCut(y: string, e: nat)
    requires Find(y + STATUS_END, STATUS_END, 0) == e
    ensures e + |STATUS_END| <= |y + STATUS_END|
    ensures
      var z := (y + STATUS_END)[e + |STATUS_END|..];
      if e == |y| then z == "" else e + |STATUS_END| <= |y| && z == y[e + |STATUS_END|..] + STATUS_END
  {
    EndsBefore(y, STATUS_END, e);
  }

  lemma AppendedLonger(s: string, z: string, state: string)
    ensures (s + z + "\n\n") + state + "\n" == s + ("\n\n" + state + "\n") <==> z == ""
  {
    var x, y := (s + z + "\n\n") + state + "\n", s + ("\n\n" + state + "\n");
    assert |x| == |y| + |z|;
    if z == "" {
      assert s + z == s;
      assert x == y;
    }
  }

  lemma PlainPlaced(s: string, state: string)
    requires !Hides(s)
    ensures Placeable(s) && Placed(s, state) == s + ("\n\n" + state + "\n")
  {
  }

  lemma OverPlainByPlain(s: string, z: string, enc: string, state: string)
    requires Bracketed(s) && !Hides(s) && Base64Text(enc) && (z == "" || Ended(z)) && Absent(z, STATE_BEGIN)
    ensures
      var m := (s + z + "\n\n") + (STATE_BEGIN + enc + STATE_END);
      Placeable(m) && (Placed(m, state) == Placed(s, state) <==> z == "")
  {
    PlainIsAbsent(s, z);
    OldBlockIsReplaced(s + z + "\n\n", enc, state);
    PlainPlaced(s, state);
    AppendedLonger(s, z, state);
  }

  lemma OverPlainByHiding(s: string, z: string, block: string, state: string)
    requires Bracketed(s) && Hides(s) && Placeable(s)
    ensures
      var m := (s + z + "\n\n") + block;
      Placeable(m) && Placed(m, state) != Placed(s, state)
  {
    assert (s + z + "\n\n") + block == s + (z + "\n\n" + block);
    HidingTablesKeepRest(s, z + "\n\n" + block, state);
  }

  /** A second record over a table that hides no state block. */
  lemma OverPlainTable(s: string, z: string, enc: string, state: string)
    requires Bracketed(s) && Placeable(s) && Base64Text(enc) && (z == "" || Ended(z)) && Absent(z, STATE_BEGIN)
    ensures
      var m := (s + z + "\n\n") + (STATE_BEGIN + enc + STATE_END);
      (Placeable(m) && Placed(m, state) == Placed(s, state)) <==> z == "" && !Hides(s)
  {
    if Hides(s) {
      OverPlainByHiding(s, z, STATE_BEGIN + enc + STATE_END, state);
    } else {
      OverPlainByPlain(s, z, enc, state);
    }
  }

  lemma PlainIsAbsent(s: string, z: string)
    requires Ended(s) && !Hides(s) && (z == "" || Ended(z)) && Absent(z, STATE_BEGIN)
    ensures Absent(s + z + "\n\n", STATE_BEGIN)
  {
    ShortIsFree("\n\n");
    forall i ensures !Occurs(s + z + "\n\n", STATE_BEGIN, i) {
      SeamOccurs(s + z, "\n\n", STATE_BEGIN, i);
      SeamOccurs(s, z, STATE_BEGIN, i);
    }
  }

  function Debris(rest: string, debris: bool): string {
    if debris then rest + STATUS_END else ""
  }

  /** A second record over a table that took the state block into itself. */
  lemma OverHidingTable(s: string, y: string, state: string, debris: bool)
    requires Bracketed(s) && Placeable(s)
    ensures
      var m := s + Debris(y, debris);
      (Placeable(m) && Placed(m, state) == Placed(s, state)) <==> !debris
  {
    StatusEndIsSealed();
    if Hides(s) {
      HidingTablesKeepRest(s, Debris(y, debris), state);
    } else if debris {
      DebrisShows(s, y, state);
    } else {
      assert s + "" == s;
    }
  }

  /** The table in the embedded body still starts and ends with its own markers. */
  lemma TableShape(inner: string, state: string) returns (mid: string)
    requires Placeable(STATUS_BEGIN + inner + STATUS_END)
    ensures Table(STATUS_BEGIN + inner + STATUS_END, state) == STATUS_BEGIN + mid + STATUS_END
  {
    var s := STATUS_BEGIN + inner + STATUS_END;
    mid := inner;
    if Hides(s) {
      var b, e := Find(s, STATE_BEGIN, 0), HiddenEnd(s);
      InnerOccurs(inner, STATE_BEGIN, b);
      InnerOccurs(inner, STATE_END, e);
      StateIsNotStatus();
      EndIsNotBegin();
      StateEndIsNotStatusBegin();
      mid := ShapeOfExchanged(inner, b - |STATUS_BEGIN|, e + |STATE_END| - |STATUS_BEGIN|, state);
    }
  }

  lemma StateEndIsNotStatusBegin()
    ensures STATE_END != STATUS_BEGIN
  {
    assert STATE_END[0] != STATUS_BEGIN[0];
  }

  lemma ShapeOfExchanged(inner: string, b: nat, t: nat, state: string) returns (mid: string)
    requires b <= |inner| && t <= |inner|
    ensures
      var s := STATUS_BEGIN + inner + STATUS_END;
      Exchanged(s, |STATUS_BEGIN| + b, |STATUS_BEGIN| + t, state) == STATUS_BEGIN + mid + STATUS_END
  {
    mid := inner[..b] + state + inner[t..];
    var s := STATUS_BEGIN + inner + STATUS_END;
    assert s[..|STATUS_BEGIN| + b] == STATUS_BEGIN + inner[..b];
    assert s[|STATUS_BEGIN| + t..] == inner[t..] + STATUS_END;
  }

  /** A second embedding: the old table up to its first end marker gives way to the new one, then the state
      block is placed again. */
  lemma EmbedAgain(head: string, mid: string, tail: string, s: string, state: string, e: nat)
    requires Free(head) && Bracketed(s) && Find(STATUS_BEGIN + mid + STATUS_END, STATUS_END, 0) == e
    ensures e + |STATUS_END| <= |STATUS_BEGIN + mid + STATUS_END|
    ensures
      var t := STATUS_BEGIN + mid + STATUS_END;
      Splice(head + t + tail, s, state) == Finished(head + s + (t[e + |STATUS_END|..] + tail), state)
  {
    var t := STATUS_BEGIN + mid + STATUS_END;
    InnerOccurs(mid, STATUS_BEGIN, 0);
    StatusTableEnds(mid);
    CutsAtFirstEnd(head, t, tail, STATUS_BEGIN, STATUS_END, s, e);
    SpliceOn(head + t + tail, head + s + (t[e + |STATUS_END|..] + tail), s, state);
  }

  lemma StatusTableEnds(mid: string)
    ensures Bracketed(STATUS_BEGIN + mid + STATUS_END)
  {
  }

  lemma SamePlacement(head: string, m: string, s: string, state: string)
    requires Free(head) && Bracketed(m) && Bracketed(s) && Bracketed(state) && Placeable(s)
    ensures Finished(head + m + "\n", state) == Success(head + Placed(s, state)) <==>
              Placeable(m) && Placed(m, state) == Placed(s, state)
  {
    PlaceAnywhere(head, m, state);
    if Placeable(m) {
      HeadCancels(head, Placed(m, state), Placed(s, state));
    }
  }

  lemma HeadCancels(head: string, x: string, y: string)
    ensures head + x == head + y <==> x == y
  {
    assert (head + x)[|head|..] == x && (head + y)[|head|..] == y;
  }

  /** The text after the first cut, and whether there is any. */
  lemma CutRest(y: string) returns (e: nat, rest: string, debris: bool)
    ensures Find(y + STATUS_END, STATUS_END, 0) == e && e + |STATUS_END| <= |y + STATUS_END|
    ensures (y + STATUS_END)[e + |STATUS_END|..] == Debris(rest, debris)
    ensures OneStatusEnd(y + STATUS_END) <==> !debris
  {
    e := FirstEndOf(y);
    LeftAfterCut(y, e);
    debris := e != |y|;
    rest := if debris then y[e + |STATUS_END|..] else "";
  }

  lemma FinishOverHiding(head: string, s: string, rest: string, debris: bool, state: string)
    requires Free(head) && Bracketed(s) && Placeable(s) && Bracketed(state)
    ensures Finished(head + s + (Debris(rest, debris) + "\n"), state) == Success(head + Placed(s, state)) <==> !debris
  {
    DebrisEnds(s, rest, debris);
    Reassociate(head, s, Debris(rest, debris), "\n");
    SamePlacement(head, s + Debris(rest, debris), s, state);
    OverHidingTable(s, rest, state, debris);
  }

  lemma Reassociate(a: string, b: string, c: string, d: string)
    ensures a + b + (c + d) == a + (b + c) + d
  {
  }

  /** The old table hid a state block. */
  lemma AgainOverHiding(head: string, mid: string, s: string, state: string)
    requires Free(head) && Bracketed(s) && Placeable(s) && Bracketed(state)
    ensures
      var t := STATUS_BEGIN + mid + STATUS_END;
      Splice(head + t + "\n", s, state) == Success(head + Placed(s, state)) <==> OneStatusEnd(t)
  {
    var e, rest, debris := CutRest(STATUS_BEGIN + mid);
    EmbedAgain(head, mid, "\n", s, state, e);
    FinishOverHiding(head, s, rest, debris, state);
  }

  lemma DebrisEnds(s: string, rest: string, debris: bool)
    requires Bracketed(s)
    ensures Bracketed(s + Debris(rest, debris))
  {
  }

  lemma FirstEndOf(y: string) returns (e: nat)
    ensures Find(y + STATUS_END, STATUS_END, 0) == e
  {
    assert Occurs(y + STATUS_END, STATUS_END, |y|);
    e := Find(y + STATUS_END, STATUS_END, 0);
  }

  lemma FinishOverPlain(head: string, s: string, z: string, enc: string, state: string)
    requires Free(head) && Bracketed(s) && Placeable(s) && Bracketed(state) && Base64Text(enc)
    requires (z == "" || Ended(z)) && Absent(z, STATE_BEGIN)
    ensures
      var body := head + s + (z + ("\n\n" + (STATE_BEGIN + enc + STATE_END) + "\n"));
      Finished(body, state) == Success(head + Placed(s, state)) <==> z == "" && !Hides(s)
  {
    var former := STATE_BEGIN + enc + STATE_END;
    RegroupPlain(head, s, z, former);
    AppendedIsBracketed(s, z, enc);
    SamePlacement(head, (s + z + "\n\n") + former, s, state);
    OverPlainTable(s, z, enc, state);
  }

  lemma RegroupPlain(head: string, s: string, z: string, former: string)
    ensures head + s + (z + ("\n\n" + former + "\n")) == head + ((s + z + "\n\n") + former) + "\n"
  {
  }

  lemma AppendedIsBracketed(s: string, z: string, enc: string)
    requires Bracketed(s)
    ensures Bracketed((s + z + "\n\n") + (STATE_BEGIN + enc + STATE_END))
  {
    StateMarkersAreSealed();
    assert STATE_END[|STATE_END| - 1] == '>';
  }

  /** The old table hid none, so the old state block stands behind it. */
  lemma AgainOverPlain(head: string, mid: string, enc: string, s: string, state: string)
    requires Free(head) && Bracketed(s) && Placeable(s) && Bracketed(state) && Base64Text(enc)
    requires !Hides(STATUS_BEGIN + mid + STATUS_END)
    ensures
      var t := STATUS_BEGIN + mid + STATUS_END;
      var body := head + t + ("\n\n" + (STATE_BEGIN + enc + STATE_END) + "\n");
      Splice(body, s, state) == Success(head + Placed(s, state)) <==> OneStatusEnd(t) && !Hides(s)
  {
    var t := STATUS_BEGIN + mid + STATUS_END;
    var e, rest, debris := CutRest(STATUS_BEGIN + mid);
    EmbedAgain(head, mid, "\n\n" + (STATE_BEGIN + enc + STATE_END) + "\n", s, state, e);
    StatusTableEnds(mid);
    RestIsPlain(t, e + |STATUS_END|);
    DebrisIsEmpty(rest, debris);
    FinishOverPlain(head, s, t[e + |STATUS_END|..], enc, state);
  }

  lemma DebrisIsEmpty(rest: string, debris: bool)
    ensures Debris(rest, debris) == "" <==> !debris
  {
    StatusEndIsSealed();
  }

  lemma RestIsPlain(t: string, k: nat)
    requires k <= |t| && !Hides(t) && Ended(t)
    ensures Absent(t[k..], STATE_BEGIN) && (t[k..] == "" || Ended(t[k..]))
  {
    assert t[k..] == t[k..|t|];
    forall i ensures !Occurs(t[k..], STATE_BEGIN, i) {
      SliceOccurs(t, STATE_BEGIN, k, |t|, i);
    }
  }

  lemma EmbedIsSplice(body: string, r: Record, key: string, w: Wire, p: Printer)
    ensures Embed(body, r, key, w, p).Success? ==> Valid(r) && KeyOk(key)
    ensures Valid(r) && KeyOk(key) ==>
              Embed(body, r, key, w, p) == Splice(body, RenderStatus(r, p), StateBlockOf(r, key, w))
  {
  }

  /** The first embedding, as the second one finds it. */
  lemma FirstEmbedding(f: string, r: Record, key: string, w: Wire, p: Printer) returns (mid: string)
    requires TrimFree(f) && Embed(f, r, key, w, p).Success?
    ensures Placeable(RenderStatus(r, p))
    ensures Table(RenderStatus(r, p), StateBlockOf(r, key, w)) == STATUS_BEGIN + mid + STATUS_END
    ensures Embed(f, r, key, w, p).value
         == (RStrip(f) + "\n\n") + (STATUS_BEGIN + mid + STATUS_END)
            + (if Hides(RenderStatus(r, p)) then "\n" else "\n\n" + StateBlockOf(r, key, w) + "\n")
  {
    EmbedIsSplice(f, r, key, w, p);
    BareEmbed(f, r, key, w, p);
    mid := TableShape(StatusInner(r, p), StateBlockOf(r, key, w));
    PlacedAfter(RStrip(f) + "\n\n", RenderStatus(r, p), StateBlockOf(r, key, w));
  }

  lemma PlacedAfter(head: string, s: string, state: string)
    requires Placeable(s)
    ensures head + Placed(s, state) == head + Table(s, state) + (if Hides(s) then "\n" else "\n\n" + state + "\n")
  {
  }

  /** For all records that can be embedded in plain text: embedding the second over the first gives what
      embedding it at once gives exactly when the old table, as it stands in the body, has only its last end
      marker, and the second table does not hide a state block while the first did not. */
  lemma BareOverwrites(f: string, first: Record, second: Record, key: string, w: Wire, p: Printer)
    requires Lawful(w) && TrimFree(f)
    requires Embed(f, first, key, w, p).Success? && Embed(f, second, key, w, p).Success?
    ensures Placeable(RenderStatus(first, p))
    ensures
      Embed(Embed(f, first, key, w, p).value, second, key, w, p) == Embed(f, second, key, w, p) <==>
        && OneStatusEnd(Table(RenderStatus(first, p), StateBlockOf(first, key, w)))
        && (Hides(RenderStatus(first, p)) || !Hides(RenderStatus(second, p)))
  {
    var mid := FirstEmbedding(f, first, key, w, p);
    EmbedIsSplice(f, second, key, w, p);
    EmbedIsSplice(Embed(f, first, key, w, p).value, second, key, w, p);
    BareEmbed(f, second, key, w, p);
    TrimmedIsFree(f);
    StatusIsBracketed(second, p);
    StateIsBracketed(second, key, w);
    var head, s, state := RStrip(f) + "\n\n", RenderStatus(second, p), StateBlockOf(second, key, w);
    if Hides(RenderStatus(first, p)) {
      AgainOverHiding(head, mid, s, state);
    } else {
      AgainOverPlain(head, mid, SignedText(first, key, w), s, state);
    }
  }

  /** In terms of the records: without a state begin marker in either table, a later embedding overwrites
      exactly when no value shown in the first contains the status end marker. */
  lemma PlainRecordsOverwrite(f: string, first: Record, second: Record, key: string, w: Wire, p: Printer)
    requires Lawful(w) && TrimFree(f) && KeyOk(key) && Valid(first) && Valid(second)
    requires !SomeValueContains(StatusRows(first, p), STATE_BEGIN)
    requires !SomeValueContains(StatusRows(second, p), STATE_BEGIN)
    ensures Embed(f, first, key, w, p).Success?
    ensures
      Embed(Embed(f, first, key, w, p).value, second, key, w, p) == Embed(f, second, key, w, p) <==>
        !SomeValueContains(StatusRows(first, p), STATUS_END)
  {
    HidesIs(first, p);
    HidesIs(second, p);
    OneStatusEndIs(first, p);
    BareEmbed(f, first, key, w, p);
    BareEmbed(f, second, key, w, p);
    BareOverwrites(f, first, second, key, w, p);
  }

  // ---- A comment that does it ----

  /** A record whose reason is the end marker is embedded and read back, but not overwritten. */
  lemma MarkedReasonLeavesDebris(f: string, q: Record, second: Record, key: string, w: Wire, p: Printer)
    requires Lawful(w) && TrimFree(f) && KeyOk(key) && Valid(q) && Valid(second)
    requires q.binding.schemaVersion == 1 && PairsAscending(q.binding.packageHashes)
    requires p.reason(q.reason) == STATUS_END
    requires !SomeValueContains(StatusRows(q, p), STATE_BEGIN) && !SomeValueContains(StatusRows(second, p), STATE_BEGIN)
    ensures
      var e := Embed(f, q, key, w, p);
      && e.Success? && Extract(e.value, key, w) == Success(q)
      && Embed(e.value, second, key, w, p) != Embed(f, second, key, w, p)
  {
    HidesIs(q, p);
    BareRoundTrip(f, q, key, w, p);
    ReasonIsShown(q, p);
    PlainRecordsOverwrite(f, q, second, key, w, p);
  }

  /** `/fg reject <!-- FGOPS_APPROVAL_STATUS_END -->` makes such a record: the argument becomes the reason. */
  lemma RejectCanHideTheEnd(r: Record, id: int, actor: string, at: int, now: int)
    requires now < r.binding.expiresAt
    requires ApplyCommand(r, Reject(Some(STATUS_END)), id, actor, at, now).Mutated?
    ensures
      var q := ApplyCommand(r, Reject(Some(STATUS_END)), id, actor, at, now).record;
      Valid(q) && q.binding == r.binding && q.reason == RejectedBecause(STATUS_END)
    ensures R.ParseCommand(R.Typed(R.VReject, R.Given(STATUS_END, None, None))) == Success(Reject(Some(STATUS_END)))
  {
    StatusEndIsSealed();
    MutatedIsValid(r, Reject(Some(STATUS_END)), id, actor, at, now);
  }

  lemma ReasonIsShown(q: Record, p: Printer)
    requires p.reason(q.reason) == STATUS_END
    ensures SomeValueContains(StatusRows(q, p), STATUS_END)
  {
    assert StatusRows(q, p)[14].value == STATUS_END;
    assert Occurs(STATUS_END, STATUS_END, 0);
  }
}
