/** Keeping the signed approval record in the body of an issue (src/fgops/approval_state.py):
    dictionary form, signed envelope, rendered status, and splicing both blocks into free text.

    Canonical JSON, HMAC and URL-safe base64 (section 5 of RFC 4648) are functions of a `Wire`
    with the laws in `Lawful`. */
module IssueCodec {
  import opened Wrappers
  import opened Approval
  import opened Markers
  import opened Text

  datatype CodecError =
    | NoStateBlock | IncompleteBlock | DuplicateStateBlock | MalformedEnvelope
    | WrongAlgorithm | BadSignature | WrongSchema | InvalidFields | ShortKey

  // ---- to_dict / from_dict ----

  function StateText(s: State): string {
    match s
    case AwaitingApproval => "AWAITING_APPROVAL"
    case Snoozed => "SNOOZED"
    case Scheduled => "SCHEDULED"
    case Approved => "APPROVED"
    case Rejected => "REJECTED"
    case Expired => "EXPIRED"
    case Cancelled => "CANCELLED"
  }

  function KindText(k: PackageKind): string {
    match k
    case AV => "AV" case IPS => "IPS" case APDB => "APDB" case FFDB => "FFDB" case MCDB => "MCDB"
    case MMDB => "MMDB" case ISDB => "ISDB" case BOTNET => "BOTNET" case IGNORED => "IGNORED" case UNKNOWN => "UNKNOWN"
  }

  /** `ApprovalState(text)` and `PackageKind(text)`: unknown texts raise. */
  function ParseState(text: string): Option<State> {
    if text == "AWAITING_APPROVAL" then Some(AwaitingApproval)
    else if text == "SNOOZED" then Some(Snoozed)
    else if text == "SCHEDULED" then Some(Scheduled)
    else if text == "APPROVED" then Some(Approved)
    else if text == "REJECTED" then Some(Rejected)
    else if text == "EXPIRED" then Some(Expired)
    else if text == "CANCELLED" then Some(Cancelled)
    else None
  }

  function ParseKind(text: string): Option<PackageKind> {
    if text == "AV" then Some(AV)
    else if text == "IPS" then Some(IPS)
    else if text == "APDB" then Some(APDB)
    else if text == "FFDB" then Some(FFDB)
    else if text == "MCDB" then Some(MCDB)
    else if text == "MMDB" then Some(MMDB)
    else if text == "ISDB" then Some(ISDB)
    else if text == "BOTNET" then Some(BOTNET)
    else if text == "IGNORED" then Some(IGNORED)
    else if text == "UNKNOWN" then Some(UNKNOWN)
    else None
  }

  function KindTexts(kinds: seq<PackageKind>): seq<string> {
    if kinds == [] then [] else [KindText(kinds[0])] + KindTexts(kinds[1..])
  }

  function ParseKinds(texts: seq<string>): Option<seq<PackageKind>> {
    if texts == [] then Some([])
    else if ParseKind(texts[0]).None? || ParseKinds(texts[1..]).None? then None
    else Some([ParseKind(texts[0]).value] + ParseKinds(texts[1..]).value)
  }

  function PutMember(members: seq<Pair>, p: Pair): seq<Pair> {
    if members == [] then [p]
    else if members[0].0 == p.0 then [p] + members[1..]
    else [members[0]] + PutMember(members[1..], p)
  }

  /** The object made of these pairs: a repeated name keeps its place and takes the later value. */
  function Object(ps: seq<Pair>): seq<Pair> {
    if ps == [] then [] else PutMember(Object(ps[..|ps| - 1]), ps[|ps| - 1])
  }

  /** The dictionary form: the state and the package kinds are texts, the package hashes an object; every
      other field is carried verbatim in `fields`. */
  datatype Payload = Payload(
    fields: Record,
    state: string,
    allowed: seq<string>,
    safe: seq<string>,
    approved: seq<string>,
    packageHashes: seq<Pair>)

  function Filled(r: Record, state: State, allowed: seq<PackageKind>, safe: seq<PackageKind>,
                  approved: seq<PackageKind>, hashes: seq<Pair>): Record {
    r.(binding := r.binding.(packageHashes := hashes, allowedPackages := allowed, safePackages := safe),
       decision := r.decision.(state := state, approvedPackages := approved))
  }

  function ToDict(r: Record): Payload {
    Payload(Filled(r, AwaitingApproval, [], [], [], []), StateText(r.decision.state), KindTexts(r.binding.allowedPackages),
            KindTexts(r.binding.safePackages), KindTexts(r.decision.approvedPackages), Object(r.binding.packageHashes))
  }

  function FromDict(p: Payload): Result<Record, CodecError> {
    if p.fields.binding.schemaVersion != 1 then Failure(WrongSchema)
    else
      var state, allowed := ParseState(p.state), ParseKinds(p.allowed);
      var safe, approved := ParseKinds(p.safe), ParseKinds(p.approved);
      if state.None? || allowed.None? || safe.None? || approved.None? then Failure(InvalidFields)
      else
        var r := Filled(p.fields, state.value, allowed.value, safe.value, approved.value, SortPairs(p.packageHashes));
        if Valid(r) then Success(r) else Failure(InvalidFields)
  }

  /** Canonical JSON writes object keys in order. */
  function Canonical(p: Payload): Payload {
    p.(packageHashes := SortPairs(p.packageHashes))
  }

  lemma SortedOnce(ps: seq<Pair>)
    ensures PairsAscending(ps) <==> SortPairs(ps) == ps
    ensures SortPairs(SortPairs(ps)) == SortPairs(ps)
  {
    SortPairsFacts(ps);
    SortPairsFacts(SortPairs(ps));
    AscendingIsUnique(SortPairs(SortPairs(ps)), SortPairs(ps));
    if PairsAscending(ps) {
      AscendingIsUnique(SortPairs(ps), ps);
    }
  }

  lemma {:induction false} PutNewMember(members: seq<Pair>, p: Pair)
    requires forall i | 0 <= i < |members| :: members[i].0 != p.0
    ensures PutMember(members, p) == members + [p]
  {
    if members != [] {
      PutNewMember(members[1..], p);
      assert members == [members[0]] + members[1..];
    }
  }

  lemma {:induction false} ObjectOfUnique(ps: seq<Pair>)
    requires UniqueNames(ps)
    ensures Object(ps) == ps
  {
    if ps != [] {
      var front, last := ps[..|ps| - 1], ps[|ps| - 1];
      ObjectOfUnique(front);
      PutNewMember(front, last);
      assert ps == front + [last];
    }
  }

  lemma StateTextParses(state: State)
    ensures ParseState(StateText(state)) == Some(state)
  {
  }

  lemma KindTextParses(kind: PackageKind)
    ensures ParseKind(KindText(kind)) == Some(kind)
  {
  }

  lemma {:induction false} KindTextsParse(kinds: seq<PackageKind>)
    ensures ParseKinds(KindTexts(kinds)) == Some(kinds)
  {
    if kinds != [] {
      KindTextParses(kinds[0]);
      KindTextsParse(kinds[1..]);
      assert kinds == [kinds[0]] + kinds[1..];
    }
  }

  /** Parsing the dictionary form of a record gives the record with its package hashes as a sorted object. */
  lemma DictParses(r: Record)
    ensures FromDict(ToDict(r)) == FromDict(Canonical(ToDict(r)))
    ensures
      var q := r.(binding := r.binding.(packageHashes := SortPairs(Object(r.binding.packageHashes))));
      FromDict(ToDict(r)) == if r.binding.schemaVersion != 1 then Failure(WrongSchema)
                             else if Valid(q) then Success(q) else Failure(InvalidFields)
  {
    SortedOnce(Object(r.binding.packageHashes));
    StateTextParses(r.decision.state);
    KindTextsParse(r.binding.allowedPackages);
    KindTextsParse(r.binding.safePackages);
    KindTextsParse(r.decision.approvedPackages);
  }

  /** The dictionary form gives the record back exactly when it is a valid schema-1 record whose
      package hashes are sorted. */
  lemma DictRoundTrip(r: Record)
    ensures FromDict(Canonical(ToDict(r))) == Success(r)
       <==> r.binding.schemaVersion == 1 && Valid(r) && PairsAscending(r.binding.packageHashes)
  {
    DictParses(r);
    SortedOnce(r.binding.packageHashes);
    if UniqueNames(r.binding.packageHashes) {
      ObjectOfUnique(r.binding.packageHashes);
    }
  }

  // ---- Signing ----

  datatype Envelope = Envelope(algorithm: string, payload: Payload, signature: string)

  datatype Wire = Wire(
    json: Payload -> string,
    mac: (string, string) -> string,
    encode: Envelope -> string,
    decode: string -> Option<Envelope>)

  const ALGORITHM := "HMAC-SHA256"

  /** The alphabet of URL-safe base64 with padding. */
  predicate Base64Char(c: char) {
    'A' <= c <= 'Z' || 'a' <= c <= 'z' || '0' <= c <= '9' || c == '-' || c == '_' || c == '='
  }

  ghost predicate Lawful(w: Wire) {
    && (forall p :: w.json(Canonical(p)) == w.json(p))
    && (forall e :: w.decode(w.encode(e)) == Some(e.(payload := Canonical(e.payload))))
    && (forall e, i | 0 <= i < |w.encode(e)| :: Base64Char(w.encode(e)[i]))
  }

  predicate KeyOk(key: string) {
    32 <= |key|
  }

  function Sign(r: Record, key: string, w: Wire): Result<Envelope, CodecError> {
    if !Valid(r) then Failure(InvalidFields)
    else if !KeyOk(key) then Failure(ShortKey)
    else Success(Envelope(ALGORITHM, ToDict(r), w.mac(key, w.json(ToDict(r)))))
  }

  function Verify(e: Envelope, key: string, w: Wire): Result<Record, CodecError> {
    if e.algorithm != ALGORITHM then Failure(WrongAlgorithm)
    else if !KeyOk(key) then Failure(ShortKey)
    else if e.signature != w.mac(key, w.json(e.payload)) then Failure(BadSignature)
    else FromDict(e.payload)
  }

  lemma CanonicalDecides(p: Payload, q: Payload)
    requires Canonical(p) == Canonical(q)
    ensures FromDict(p) == FromDict(q)
  {
    SortedOnce(p.packageHashes);
    SortedOnce(q.packageHashes);
  }

  /** With an ideal MAC and JSON text, a signature verifies for no other payload. */
  lemma TamperingIsRejected(r: Record, key: string, w: Wire, forged: Payload)
    requires Sign(r, key, w).Success?
    requires forall x, y :: w.mac(key, x) == w.mac(key, y) ==> x == y
    requires forall p, q :: w.json(p) == w.json(q) ==> Canonical(p) == Canonical(q)
    requires Canonical(forged) != Canonical(ToDict(r))
    ensures Verify(Sign(r, key, w).value.(payload := forged), key, w) == Failure(BadSignature)
  {
  }

  /** The key holder once issued this signature, for a schema-1 record with sorted package hashes. */
  predicate Issued(signature: string, r: Record, key: string, w: Wire) {
    && Sign(r, key, w).Success? && Sign(r, key, w).value.signature == signature
    && r.binding.schemaVersion == 1 && PairsAscending(r.binding.packageHashes)
  }

  /** Whatever envelope someone puts together from payloads and issued signatures: with an ideal MAC and JSON
      text, what verifies is a record that was signed. */
  lemma OnlySignedRecordsVerify(e: Envelope, key: string, w: Wire, signed: set<Record>)
    requires forall x, y :: w.mac(key, x) == w.mac(key, y) ==> x == y
    requires forall p, q :: w.json(p) == w.json(q) ==> Canonical(p) == Canonical(q)
    requires exists r :: r in signed && Issued(e.signature, r, key, w)
    requires Verify(e, key, w).Success?
    ensures Verify(e, key, w).value in signed
    ensures Issued(e.signature, Verify(e, key, w).value, key, w)
  {
    var r :| r in signed && Issued(e.signature, r, key, w);
    assert e == Sign(r, key, w).value.(payload := e.payload);
    if Canonical(e.payload) != Canonical(ToDict(r)) {
      TamperingIsRejected(r, key, w, e.payload);
    }
    CanonicalDecides(e.payload, ToDict(r));
    DictParses(r);
    DictRoundTrip(r);
  }

  // ---- Rendering the status table ----

  datatype Printer = Printer(instant: int -> string, number: int -> string, reason: Reason -> string)

  /** One table row: the value stands between `quote`s (a backtick, two asterisks, or nothing). */
  datatype Row = Row(title: string, quote: string, value: string)

  function RowText(row: Row): string {
    "|" + (" " + row.title + " ") + "|" + ((" " + row.quote) + row.value + (row.quote + " ")) + "|"
  }

  /** The rows on lines of their own, then the text that follows the last one. */
  function RowsText(rows: seq<Row>, tail: string): string {
    if rows == [] then tail
    else RowText(rows[0]) + (if |rows| == 1 then tail else "\n" + RowsText(rows[1..], tail))
  }

  function KindsText(kinds: seq<PackageKind>): string {
    if kinds == [] then ""
    else if |kinds| == 1 then KindText(kinds[0])
    else KindText(kinds[0]) + ", " + KindsText(kinds[1..])
  }

  const DASH: string := "\U{2014}"

  function OrDash(s: string): string {
    if s == "" then DASH else s
  }

  function InstantText(t: Option<int>, p: Printer): string {
    if t.Some? then OrDash(p.instant(t.value)) else DASH
  }

  function StatusRows(r: Record, p: Printer): seq<Row> {
    var b, d := r.binding, r.decision;
    [ Row("Approval ID", "`", b.approvalId),
      Row("State", "**", StateText(d.state)),
      Row("Device", "`", b.deviceName),
      Row("Expected model", "`", b.expectedModel),
      Row("Expected firmware", "`", b.expectedFirmware),
      Row("Manifest", "`", b.manifestId),
      Row("Allowed packages", "`", KindsText(b.allowedPackages)),
      Row("Approved packages", "`", OrDash(KindsText(d.approvedPackages))),
      Row("Execute at", "`", InstantText(d.executeAt, p)),
      Row("Snoozed until", "`", InstantText(d.snoozedUntil, p)),
      Row("Expires at", "`", p.instant(b.expiresAt)),
      Row("Revision", "`", p.number(r.revision)),
      Row("Reminders sent", "`", p.number(r.reminderCount)),
      Row("Last actor", "`", if r.actor.Some? then OrDash(r.actor.value) else DASH),
      Row("Reason", "", OrDash(p.reason(r.reason))) ]
  }

  /** Texts in backticks, separated by commas. */
  function Quoted(texts: seq<string>): string {
    if texts == [] then ""
    else "`" + texts[0] + "`" + (if |texts| == 1 then "" else ", " + Quoted(texts[1..]))
  }

  const HEAD: string := "\n## FGOps approval status\n\n"

  const TABLE_HEAD := Row("Field", "", "Value")

  const COMMANDS := ["/fg approve", "/fg reject <reason>", "/fg snooze <duration>", "/fg schedule <ISO-8601>",
                     "/fg apply-safe", "/fg status", "/fg cancel"]

  function CommandsText(): string {
    "\n\nCommands: " + Quoted(COMMANDS) + ".\n"
  }

  function StatusInner(r: Record, p: Printer): string {
    HEAD + (RowText(TABLE_HEAD) + ("\n|---|---|\n" + RowsText(StatusRows(r, p), CommandsText())))
  }

  function RenderStatus(r: Record, p: Printer): string {
    STATUS_BEGIN + StatusInner(r, p) + STATUS_END
  }

  // ---- Splicing ----

  function ReplaceBlock(body: string, begin: string, end: string, replacement: string): Result<string, CodecError> {
    var start := Find(body, begin, 0);
    if start < 0 then Success(RStrip(body) + "\n\n" + replacement + "\n")
    else
      var stop := Find(body, end, start);
      if stop < 0 then Failure(IncompleteBlock)
      else Success(body[..start] + replacement + body[stop + |end|..])
  }

  function StateBlockText(e: Envelope, w: Wire): string {
    STATE_BEGIN + w.encode(e) + STATE_END
  }

  /** Both splices, then the final trim. */
  function Splice(body: string, status: string, state: string): Result<string, CodecError> {
    match ReplaceBlock(body, STATUS_BEGIN, STATUS_END, status)
    case Failure(why) => Failure(why)
    case Success(once) =>
      match ReplaceBlock(once, STATE_BEGIN, STATE_END, state)
      case Failure(why) => Failure(why)
      case Success(twice) => Success(RStrip(twice) + "\n")
  }

  function Embed(body: string, r: Record, key: string, w: Wire, p: Printer): Result<string, CodecError> {
    match Sign(r, key, w)
    case Failure(why) => Failure(why)
    case Success(envelope) => Splice(body, RenderStatus(r, p), StateBlockText(envelope, w))
  }

  function ExtractEnvelope(body: string, w: Wire): Result<Envelope, CodecError> {
    var start := Find(body, STATE_BEGIN, 0);
    if start < 0 then Failure(NoStateBlock)
    else
      var end := Find(body, STATE_END, start);
      if end < 0 then Failure(IncompleteBlock)
      else if 0 <= Find(body, STATE_BEGIN, start + |STATE_BEGIN|) then Failure(DuplicateStateBlock)
      else
        // Overlapping markers leave nothing between them.
        var encoded := if start + |STATE_BEGIN| <= end then Strip(body[start + |STATE_BEGIN|..end]) else "";
        match w.decode(encoded)
        case None => Failure(MalformedEnvelope)
        case Some(e) => Success(e)
  }

  function Extract(body: string, key: string, w: Wire): Result<Record, CodecError> {
    match ExtractEnvelope(body, w)
    case Failure(why) => Failure(why)
    case Success(e) => Verify(e, key, w)
  }

  // ---- Rendered blocks are blocks ----

  predicate RowShape(row: Row) {
    |row.title| <= 20 && (row.quote == "`" || row.quote == "**" || row.quote == "")
  }

  /** A value between its quotes shows a marker exactly when it has one. */
  lemma ValueContains(row: Row, m: string)
    requires IsMarker(m) && RowShape(row)
    ensures Contains((" " + row.quote) + row.value + (row.quote + " "), m) <==> Contains(row.value, m)
  {
    if row.quote == "" {
      PaddedContains(row.value, m);
      assert (" " + "") + row.value + ("" + " ") == " " + row.value + " ";
    } else {
      ShortIsFree(" " + row.quote);
      ShortIsFree(row.quote + " ");
      ConcatContains(" " + row.quote, row.value, m);
      ConcatContains((" " + row.quote) + row.value, row.quote + " ", m);
    }
  }

  lemma RowContains(row: Row, m: string)
    requires IsMarker(m) && RowShape(row)
    ensures Contains(RowText(row), m) <==> Contains(row.value, m)
    ensures RowText(row) != "" && RowText(row)[0] == '|' && RowText(row)[|RowText(row)| - 1] == '|'
  {
    var title := " " + row.title + " ";
    var value := (" " + row.quote) + row.value + (row.quote + " ");
    ValueContains(row, m);
    ShortIsFree("|" + title + "|");
    ConcatContains("|" + title + "|", value, m);
    ShortIsFree("|");
    ConcatContains("|" + title + "|" + value, "|", m);
  }

  ghost predicate SomeValueContains(rows: seq<Row>, m: string) {
    exists k | 0 <= k < |rows| :: Contains(rows[k].value, m)
  }

  lemma {:induction false} RowsContain(rows: seq<Row>, tail: string, m: string)
    requires IsMarker(m) && rows != [] && forall k | 0 <= k < |rows| :: RowShape(rows[k])
    ensures Contains(RowsText(rows, tail), m) <==> SomeValueContains(rows, m) || Contains(tail, m)
    ensures RowsText(rows, tail) != "" && RowsText(rows, tail)[0] == '|'
  {
    RowContains(rows[0], m);
    if |rows| == 1 {
      ConcatContains(RowText(rows[0]), tail, m);
    } else {
      var rest := rows[1..];
      RowsContain(rest, tail, m);
      ShortIsFree("\n");
      ConcatContains("\n", RowsText(rest, tail), m);
      ConcatContains(RowText(rows[0]), "\n" + RowsText(rest, tail), m);
      SomeValueCons(rows, m);
    }
  }

  lemma SomeValueCons(rows: seq<Row>, m: string)
    requires rows != []
    ensures SomeValueContains(rows, m) <==> Contains(rows[0].value, m) || SomeValueContains(rows[1..], m)
  {
    if k :| 0 <= k < |rows[1..]| && Contains(rows[1..][k].value, m) {
      assert rows[k + 1] == rows[1..][k];
    }
    if k :| 0 < k < |rows| && Contains(rows[k].value, m) {
      assert rows[1..][k - 1] == rows[k];
    }
  }

  lemma {:induction false} QuotedIsFree(texts: seq<string>)
    requires texts != [] && forall i | 0 <= i < |texts| :: |texts[i]| < 25
    ensures
      var q := Quoted(texts);
      Free(q) && q != "" && q[0] == '`' && q[|q| - 1] == '`'
  {
    var first := "`" + texts[0] + "`";
    ShortIsFree(first);
    if |texts| == 1 {
      assert Quoted(texts) == first;
    } else {
      QuotedIsFree(texts[1..]);
      ShortIsFree(", ");
      FreeConcat(", ", Quoted(texts[1..]));
      FreeConcat(first, ", " + Quoted(texts[1..]));
    }
  }

  lemma CommandsAreFree()
    ensures Free(CommandsText())
  {
    QuotedIsFree(COMMANDS);
    ShortIsFree("\n\nCommands: ");
    ShortIsFree(".\n");
    FreeConcat("\n\nCommands: ", Quoted(COMMANDS));
    FreeConcat("\n\nCommands: " + Quoted(COMMANDS), ".\n");
  }

  /** The values the status table shows contain no marker text. */
  ghost predicate CleanStatus(r: Record, p: Printer) {
    forall i | 0 <= i < |StatusRows(r, p)| :: Free(StatusRows(r, p)[i].value)
  }

  lemma StatusRowsShape(r: Record, p: Printer)
    ensures forall k | 0 <= k < |StatusRows(r, p)| :: RowShape(StatusRows(r, p)[k])
  {
  }

  /** The status table shows a marker exactly when one of the values in it has one. */
  lemma InnerContains(r: Record, p: Printer, m: string)
    requires IsMarker(m)
    ensures Contains(StatusInner(r, p), m) <==> SomeValueContains(StatusRows(r, p), m)
  {
    StatusRowsShape(r, p);
    CommandsAreFree();
    RowsContain(StatusRows(r, p), CommandsText(), m);
    var rows := RowsText(StatusRows(r, p), CommandsText());
    ShortIsFree("\n|---|---|\n");
    ConcatContains("\n|---|---|\n", rows, m);
    ShortIsFree("Value");
    RowContains(TABLE_HEAD, m);
    ConcatContains(RowText(TABLE_HEAD), "\n|---|---|\n" + rows, m);
    ShortIsFree(HEAD);
    ConcatContains(HEAD, RowText(TABLE_HEAD) + ("\n|---|---|\n" + rows), m);
  }

  lemma InnerIsFree(r: Record, p: Printer)
    requires CleanStatus(r, p)
    ensures Free(StatusInner(r, p))
  {
    forall m, i | IsMarker(m) ensures !Occurs(StatusInner(r, p), m, i) {
      InnerContains(r, p, m);
    }
  }

  /** A marker occurs in itself at 0 and nowhere in another marker. */
  lemma StatusMarkersApart(m: string, i: int)
    requires IsMarker(m)
    ensures Occurs(STATUS_BEGIN, m, i) <==> m == STATUS_BEGIN && i == 0
    ensures Occurs(STATUS_END, m, i) <==> m == STATUS_END && i == 0
  {
    MarkersAreSealed(m);
    StatusBeginIsSealed();
    StatusEndIsSealed();
    if Occurs(STATUS_BEGIN, m, i) {
      OccursAt(STATUS_BEGIN, m, i, 0);
      OccursAt(STATUS_BEGIN, m, i, |m| - 1);
    }
    if Occurs(STATUS_END, m, i) {
      OccursAt(STATUS_END, m, i, 0);
      OccursAt(STATUS_END, m, i, |m| - 1);
    }
  }

  lemma StatusIsBlock(inner: string)
    requires Free(inner)
    ensures StatusBlock(STATUS_BEGIN + inner + STATUS_END)
  {
    var b := STATUS_BEGIN + inner + STATUS_END;
    StatusBeginIsSealed();
    StatusEndIsSealed();
    forall m, i | IsMarker(m)
      ensures Occurs(b, m, i) <==> (m == STATUS_BEGIN && i == 0) || (m == STATUS_END && i == |b| - |STATUS_END|)
    {
      SeamOccurs(STATUS_BEGIN + inner, STATUS_END, m, i);
      SeamOccurs(STATUS_BEGIN, inner, m, i);
      StatusMarkersApart(m, i);
      StatusMarkersApart(m, i - |STATUS_BEGIN + inner|);
    }
  }
}
