/** What the operator reads in the status table of an issue (`_render_status`, src/fgops/approval_state.py):
    which field of the record each titled row shows. */
module StatusTable {
  import opened Wrappers
  import opened Approval
  import opened Markers
  import opened IssueCodec

  // ---- Lists of package kinds ----

  /** `", ".join(kinds)`. */
  function Listing(kinds: seq<PackageKind>): string {
    if kinds == [] then ""
    else if |kinds| == 1 then KindText(kinds[0])
    else Listing(kinds[..|kinds| - 1]) + ", " + KindText(kinds[|kinds| - 1])
  }

  lemma KindsTextStep(kinds: seq<PackageKind>)
    requires 1 < |kinds|
    ensures KindsText(kinds) == KindText(kinds[0]) + ", " + KindsText(kinds[1..])
  {
  }

  lemma CommasRegroup(a: string, b: string, c: string)
    ensures a + ", " + (b + ", " + c) == (a + ", " + b) + ", " + c
  {
  }

  lemma {:induction false} KindsTextAppend(kinds: seq<PackageKind>, k: PackageKind)
    requires kinds != []
    ensures KindsText(kinds + [k]) == KindsText(kinds) + ", " + KindText(k)
  {
    assert (kinds + [k])[1..] == kinds[1..] + [k];
    KindsTextStep(kinds + [k]);
    if |kinds| > 1 {
      KindsTextAppend(kinds[1..], k);
      KindsTextStep(kinds);
      CommasRegroup(KindText(kinds[0]), KindsText(kinds[1..]), KindText(k));
    } else {
      assert kinds[1..] + [k] == [k];
    }
  }

  lemma ListingAppend(kinds: seq<PackageKind>, k: PackageKind)
    requires kinds != []
    ensures Listing(kinds + [k]) == Listing(kinds) + ", " + KindText(k)
  {
    assert (kinds + [k])[..|kinds|] == kinds;
  }

  lemma {:induction false} KindsTextIs(kinds: seq<PackageKind>)
    ensures KindsText(kinds) == Listing(kinds)
  {
    if |kinds| > 1 {
      var front, last := kinds[..|kinds| - 1], kinds[|kinds| - 1];
      KindsTextIs(front);
      KindsTextAppend(front, last);
      ListingAppend(front, last);
      assert kinds == front + [last];
    }
  }

  // ---- Rows in the table ----

  /** The table has this line: the title, then the cell. */
  ghost predicate Shows(table: string, title: string, cell: string) {
    Contains(table, "| " + title + " | " + cell + " |")
  }

  lemma RowsTextSplit(rows: seq<Row>, tail: string)
    requires 1 < |rows|
    ensures RowsText(rows, tail) == RowText(rows[0]) + ("\n" + RowsText(rows[1..], tail))
    ensures RowsText(rows, tail) == (RowText(rows[0]) + "\n") + RowsText(rows[1..], tail)
  {
  }

  lemma FirstRowStands(rows: seq<Row>, tail: string)
    requires rows != []
    ensures Contains(RowsText(rows, tail), RowText(rows[0]))
  {
    var rest := if |rows| == 1 then tail else "\n" + RowsText(rows[1..], tail);
    assert Occurs(RowText(rows[0]), RowText(rows[0]), 0);
    ContainsBefore(RowText(rows[0]), rest, RowText(rows[0]));
  }

  lemma {:induction false} RowStands(rows: seq<Row>, tail: string, k: nat)
    requires k < |rows|
    ensures Contains(RowsText(rows, tail), RowText(rows[k]))
    decreases k
  {
    if k == 0 {
      FirstRowStands(rows, tail);
    } else {
      RowStands(rows[1..], tail, k - 1);
      RowsTextSplit(rows, tail);
      ContainsBehind(RowText(rows[0]) + "\n", RowsText(rows[1..], tail), RowText(rows[k]));
    }
  }

  lemma ContainsBehind(pre: string, t: string, m: string)
    requires Contains(t, m)
    ensures Contains(pre + t, m)
  {
    var i :| Occurs(t, m, i);
    OccursInside(pre, t, "", m, i);
    assert pre + t + "" == pre + t;
  }

  lemma ContainsBefore(t: string, post: string, m: string)
    requires Contains(t, m)
    ensures Contains(t + post, m)
  {
    var i :| Occurs(t, m, i);
    OccursInside("", t, post, m, i);
    assert "" + t + post == t + post;
  }

  lemma RowIsShown(r: Record, p: Printer, k: nat)
    requires k < |StatusRows(r, p)|
    ensures
      var row := StatusRows(r, p)[k];
      Shows(RenderStatus(r, p), row.title, row.quote + row.value + row.quote)
  {
    var rows := StatusRows(r, p);
    var text := RowsText(rows, CommandsText());
    RowStands(rows, CommandsText(), k);
    ContainsBehind("\n|---|---|\n", text, RowText(rows[k]));
    ContainsBehind(RowText(TABLE_HEAD), "\n|---|---|\n" + text, RowText(rows[k]));
    ContainsBehind(HEAD, RowText(TABLE_HEAD) + ("\n|---|---|\n" + text), RowText(rows[k]));
    ContainsBehind(STATUS_BEGIN, StatusInner(r, p), RowText(rows[k]));
    ContainsBefore(STATUS_BEGIN + StatusInner(r, p), STATUS_END, RowText(rows[k]));
    RowLine(rows[k]);
  }

  lemma RowLine(row: Row)
    ensures RowText(row) == "| " + row.title + " | " + (row.quote + row.value + row.quote) + " |"
  {
  }

  /** All rows are lines of the table. */
  ghost predicate AllShown(rows: seq<Row>, table: string) {
    forall k | 0 <= k < |rows| :: Shows(table, rows[k].title, rows[k].quote + rows[k].value + rows[k].quote)
  }

  lemma RowsAreShown(r: Record, p: Printer)
    ensures AllShown(StatusRows(r, p), RenderStatus(r, p))
  {
    forall k | 0 <= k < |StatusRows(r, p)|
      ensures Shows(RenderStatus(r, p), StatusRows(r, p)[k].title,
                    StatusRows(r, p)[k].quote + StatusRows(r, p)[k].value + StatusRows(r, p)[k].quote)
    {
      RowIsShown(r, p, k);
    }
  }

  lemma RowShown(rows: seq<Row>, table: string, k: nat, title: string, quote: string, value: string, cell: string)
    requires AllShown(rows, table) && k < |rows| && rows[k] == Row(title, quote, value) && cell == quote + value + quote
    ensures Shows(table, title, cell)
  {
  }

  function Code(s: string): string {
    "`" + s + "`"
  }

  /** A missing value is shown as a dash. */
  function OrNone(s: string): string {
    if s == "" then "\U{2014}" else s
  }

  function TimeOrNone(t: Option<int>, p: Printer): string {
    if t.Some? then OrNone(p.instant(t.value)) else "\U{2014}"
  }

  lemma BindingRows(rows: seq<Row>, table: string, r: Record, p: Printer)
    requires rows == StatusRows(r, p) && AllShown(rows, table)
    ensures Shows(table, "Approval ID", Code(r.binding.approvalId))
    ensures Shows(table, "Device", Code(r.binding.deviceName))
    ensures Shows(table, "Expected model", Code(r.binding.expectedModel))
    ensures Shows(table, "Expected firmware", Code(r.binding.expectedFirmware))
  {
    var b := r.binding;
    RowShown(rows, table, 0, "Approval ID", "`", b.approvalId, Code(b.approvalId));
    RowShown(rows, table, 2, "Device", "`", b.deviceName, Code(b.deviceName));
    RowShown(rows, table, 3, "Expected model", "`", b.expectedModel, Code(b.expectedModel));
    RowShown(rows, table, 4, "Expected firmware", "`", b.expectedFirmware, Code(b.expectedFirmware));
  }

  /** Whom the approval is about, as bound. */
  lemma BindingIsShown(r: Record, p: Printer)
    ensures
      var table := RenderStatus(r, p);
      && Shows(table, "Approval ID", Code(r.binding.approvalId))
      && Shows(table, "Device", Code(r.binding.deviceName))
      && Shows(table, "Expected model", Code(r.binding.expectedModel))
      && Shows(table, "Expected firmware", Code(r.binding.expectedFirmware))
  {
    RowsAreShown(r, p);
    BindingRows(StatusRows(r, p), RenderStatus(r, p), r, p);
  }

  lemma PackageRows(rows: seq<Row>, table: string, r: Record, p: Printer)
    requires rows == StatusRows(r, p) && AllShown(rows, table)
    ensures Shows(table, "Manifest", Code(r.binding.manifestId))
    ensures Shows(table, "Allowed packages", Code(Listing(r.binding.allowedPackages)))
    ensures Shows(table, "Expires at", Code(p.instant(r.binding.expiresAt)))
  {
    var b := r.binding;
    var allowed, expires := Listing(b.allowedPackages), p.instant(b.expiresAt);
    KindsTextIs(b.allowedPackages);
    RowShown(rows, table, 5, "Manifest", "`", b.manifestId, Code(b.manifestId));
    RowShown(rows, table, 6, "Allowed packages", "`", allowed, Code(allowed));
    RowShown(rows, table, 10, "Expires at", "`", expires, Code(expires));
  }

  /** What it is about, and until when. */
  lemma PackagesAreShown(r: Record, p: Printer)
    ensures
      var table := RenderStatus(r, p);
      && Shows(table, "Manifest", Code(r.binding.manifestId))
      && Shows(table, "Allowed packages", Code(Listing(r.binding.allowedPackages)))
      && Shows(table, "Expires at", Code(p.instant(r.binding.expiresAt)))
  {
    RowsAreShown(r, p);
    PackageRows(StatusRows(r, p), RenderStatus(r, p), r, p);
  }

  lemma DecisionRows(rows: seq<Row>, table: string, r: Record, p: Printer)
    requires rows == StatusRows(r, p) && AllShown(rows, table)
    ensures Shows(table, "State", "**" + StateText(r.decision.state) + "**")
    ensures Shows(table, "Approved packages", Code(OrNone(Listing(r.decision.approvedPackages))))
    ensures Shows(table, "Execute at", Code(TimeOrNone(r.decision.executeAt, p)))
    ensures Shows(table, "Snoozed until", Code(TimeOrNone(r.decision.snoozedUntil, p)))
  {
    var d := r.decision;
    var state, approved := StateText(d.state), OrNone(Listing(d.approvedPackages));
    var execute, snoozed := TimeOrNone(d.executeAt, p), TimeOrNone(d.snoozedUntil, p);
    KindsTextIs(d.approvedPackages);
    RowShown(rows, table, 1, "State", "**", state, "**" + state + "**");
    RowShown(rows, table, 7, "Approved packages", "`", approved, Code(approved));
    RowShown(rows, table, 8, "Execute at", "`", execute, Code(execute));
    RowShown(rows, table, 9, "Snoozed until", "`", snoozed, Code(snoozed));
  }

  /** What has been decided. */
  lemma DecisionIsShown(r: Record, p: Printer)
    ensures
      var table := RenderStatus(r, p);
      && Shows(table, "State", "**" + StateText(r.decision.state) + "**")
      && Shows(table, "Approved packages", Code(OrNone(Listing(r.decision.approvedPackages))))
      && Shows(table, "Execute at", Code(TimeOrNone(r.decision.executeAt, p)))
      && Shows(table, "Snoozed until", Code(TimeOrNone(r.decision.snoozedUntil, p)))
  {
    RowsAreShown(r, p);
    DecisionRows(StatusRows(r, p), RenderStatus(r, p), r, p);
  }

  function ActorText(r: Record): string {
    if r.actor.Some? then OrNone(r.actor.value) else "\U{2014}"
  }

  lemma HistoryRows(rows: seq<Row>, table: string, r: Record, p: Printer)
    requires rows == StatusRows(r, p) && AllShown(rows, table)
    ensures Shows(table, "Revision", Code(p.number(r.revision)))
    ensures Shows(table, "Reminders sent", Code(p.number(r.reminderCount)))
    ensures Shows(table, "Last actor", Code(ActorText(r)))
    ensures Shows(table, "Reason", OrNone(p.reason(r.reason)))
  {
    var revision, count, actor, reason :=
      p.number(r.revision), p.number(r.reminderCount), ActorText(r), OrNone(p.reason(r.reason));
    RowShown(rows, table, 11, "Revision", "`", revision, Code(revision));
    RowShown(rows, table, 12, "Reminders sent", "`", count, Code(count));
    RowShown(rows, table, 13, "Last actor", "`", actor, Code(actor));
    assert "" + reason + "" == reason;
    RowShown(rows, table, 14, "Reason", "", reason, reason);
  }

  /** What has happened last, and how often. */
  lemma HistoryIsShown(r: Record, p: Printer)
    ensures
      var table := RenderStatus(r, p);
      && Shows(table, "Revision", Code(p.number(r.revision)))
      && Shows(table, "Reminders sent", Code(p.number(r.reminderCount)))
      && Shows(table, "Last actor", Code(ActorText(r)))
      && Shows(table, "Reason", OrNone(p.reason(r.reason)))
  {
    RowsAreShown(r, p);
    HistoryRows(StatusRows(r, p), RenderStatus(r, p), r, p);
  }
}
