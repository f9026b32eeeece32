/** Judging one package restore from the object versions before and after it
    (`classify_package_result`, src/fgops/controlled_apply.py) and the refinement that is installed
    at run time (`_classify_with_successful_no_change`, src/fgops/entrypoint.py). */
module Classifier {
  import opened Wrappers
  import V = Versions

  datatype UpdateStatus = SUCCESS | SUCCESS_WITH_WARNING | SKIPPED_NO_UPDATE | FAILED_UNCONFIRMED | FAILED

  /** Object name to the text of its `Version` field; objects without one are absent. */
  type Inventory = map<string, string>

  /** What the classifiers look for in the device's reply. */
  datatype Output = Output(
    returnCode: Option<int>,
    commandFail: bool,    // "command fail", any case
    noUpdates: bool,      // "no updates", any case
    transferOk: bool,     // an explicit "Get ... from tftp server OK." line
    blocked: bool)        // any of the blocking phrases

  datatype Delta = Delta(name: string, before: Option<string>, after: Option<string>)

  datatype PackageResult = PackageResult(
    kind: string, filename: string, status: UpdateStatus, returnCode: Option<int>, objects: seq<Delta>)

  predicate Failure(s: UpdateStatus) {
    s == FAILED || s == FAILED_UNCONFIRMED
  }

  function Lookup(versions: Inventory, name: string): Option<string> {
    if name in versions then Some(versions[name]) else None
  }

  function DeltaOf(before: Inventory, after: Inventory, name: string): Delta {
    Delta(name, Lookup(before, name), Lookup(after, name))
  }

  function Deltas(expected: seq<string>, before: Inventory, after: Inventory): seq<Delta> {
    seq(|expected|, i requires 0 <= i < |expected| => DeltaOf(before, after, expected[i]))
  }

  function Parsed(version: Option<string>): (r: Option<seq<nat>>)
    ensures r.Some? ==> r.value != []
  {
    match version
    case None => None
    case Some(text) => V.VersionTuple(text)
  }

  predicate Older(d: Delta) {
    Parsed(d.after).Some? && Parsed(d.before).Some? && V.Less(Parsed(d.after).value, Parsed(d.before).value)
  }

  /** Newly present, or strictly newer. */
  predicate Newer(d: Delta) {
    Parsed(d.after).Some?
    && (Parsed(d.before).None? || V.Less(Parsed(d.before).value, Parsed(d.after).value))
  }

  predicate AnyOlder(ds: seq<Delta>) {
    exists i | 0 <= i < |ds| :: Older(ds[i])
  }

  predicate AnyNewer(ds: seq<Delta>) {
    exists i | 0 <= i < |ds| :: Newer(ds[i])
  }

  predicate NoUpdateReply(o: Output) {
    o.noUpdates && (o.returnCode == None || o.returnCode == Some(-85))
  }

  predicate Warned(o: Output) {
    (o.returnCode != None && o.returnCode != Some(0)) || o.commandFail
  }

  function BaseStatus(ds: seq<Delta>, o: Output, preventDowngrade: bool): UpdateStatus {
    if AnyOlder(ds) && preventDowngrade then FAILED
    else if AnyNewer(ds) then (if Warned(o) then SUCCESS_WITH_WARNING else SUCCESS)
    else if NoUpdateReply(o) then SKIPPED_NO_UPDATE
    else FAILED_UNCONFIRMED
  }

  /** The flag-setting loop of the original classifier. */
  method ClassifyPackage(kind: string, filename: string, expected: seq<string>, before: Inventory, after: Inventory,
                         output: Output, preventDowngrade: bool)
    returns (r: PackageResult)
    ensures r == PackageResult(kind, filename, BaseStatus(Deltas(expected, before, after), output, preventDowngrade),
                               output.returnCode, Deltas(expected, before, after))
  {
    var deltas := Deltas(expected, before, after);
    var changed, decreased, missing := false, false, false;
    for i := 0 to |deltas|
      invariant changed <==> AnyNewer(deltas[..i])
      invariant decreased <==> AnyOlder(deltas[..i])
    {
      var beforeTuple, afterTuple := Parsed(deltas[i].before), Parsed(deltas[i].after);
      assert deltas[..i + 1] == deltas[..i] + [deltas[i]];
      AnyAppend(deltas[..i], deltas[i]);
      if afterTuple.None? {
        missing := true;
        continue;
      }
      if beforeTuple.Some? && V.Less(afterTuple.value, beforeTuple.value) {
        decreased := true;
        V.CompareLaws(afterTuple.value, beforeTuple.value, []);
      } else if beforeTuple.None? || V.Less(beforeTuple.value, afterTuple.value) {
        changed := true;
      }
    }
    assert deltas[..|deltas|] == deltas;
    var status;
    if decreased && preventDowngrade {
      status := FAILED;
    } else if changed {
      var warning := (output.returnCode != None && output.returnCode != Some(0)) || output.commandFail;
      status := if warning then SUCCESS_WITH_WARNING else SUCCESS;
    } else if output.noUpdates && (output.returnCode == None || output.returnCode == Some(-85)) {
      status := SKIPPED_NO_UPDATE;
    } else {
      // `missing` only selects between two reason texts.
      status := FAILED_UNCONFIRMED;
    }
    r := PackageResult(kind, filename, status, output.returnCode, deltas);
  }

  lemma AnyAppend(ds: seq<Delta>, d: Delta)
    ensures AnyNewer(ds + [d]) <==> AnyNewer(ds) || Newer(d)
    ensures AnyOlder(ds + [d]) <==> AnyOlder(ds) || Older(d)
  {
    var all := ds + [d];
    assert forall i | 0 <= i < |ds| :: all[i] == ds[i];
    assert all[|ds|] == d;
  }

  // ---- The installed classifier ----

  /** A successful transfer of a package whose objects all kept exactly the version they had. */
  predicate CleanNoOp(ds: seq<Delta>, o: Output) {
    && o.transferOk
    && (o.returnCode == None || o.returnCode == Some(0))
    && !o.blocked
    && ds != []
    && forall i | 0 <= i < |ds| :: ds[i].before.Some? && ds[i].before == ds[i].after
  }

  function InstalledStatus(ds: seq<Delta>, o: Output, preventDowngrade: bool): UpdateStatus {
    var base := BaseStatus(ds, o, preventDowngrade);
    if base != FAILED_UNCONFIRMED then base
    else if CleanNoOp(ds, o) then SKIPPED_NO_UPDATE
    else FAILED_UNCONFIRMED
  }

  function ClassifyInstalled(kind: string, filename: string, expected: seq<string>, before: Inventory, after: Inventory,
                             output: Output, preventDowngrade: bool): PackageResult {
    var ds := Deltas(expected, before, after);
    PackageResult(kind, filename, InstalledStatus(ds, output, preventDowngrade), output.returnCode, ds)
  }

  method ClassifyWithSuccessfulNoChange(kind: string, filename: string, expected: seq<string>, before: Inventory,
                                        after: Inventory, output: Output, preventDowngrade: bool)
    returns (r: PackageResult)
    ensures r == ClassifyInstalled(kind, filename, expected, before, after, output, preventDowngrade)
  {
    r := ClassifyPackage(kind, filename, expected, before, after, output, preventDowngrade);
    if r.status != FAILED_UNCONFIRMED {
      return;
    }
    if !output.transferOk || !(r.returnCode == None || r.returnCode == Some(0)) || output.blocked || r.objects == [] {
      return;
    }
    for i := 0 to |r.objects|
      invariant forall k | 0 <= k < i :: r.objects[k].before.Some? && r.objects[k].before == r.objects[k].after
    {
      var item := r.objects[i];
      if item.before.None? || item.after.None? || item.before != item.after {
        assert !CleanNoOp(r.objects, output);
        return;
      }
    }
    r := r.(status := SKIPPED_NO_UPDATE);
  }

  /** The evidence an accepted package carries. */
  predicate Evidence(ds: seq<Delta>, o: Output, preventDowngrade: bool) {
    && (preventDowngrade ==> !AnyOlder(ds))
    && (AnyNewer(ds) || NoUpdateReply(o) || CleanNoOp(ds, o))
  }

  /** A package is accepted exactly on evidence, FAILED means exactly a prevented downgrade and is never
      upgraded, and without any newer object acceptance means an explicit no-update or a clean no-op. */
  lemma AcceptedMeansEvidence(ds: seq<Delta>, o: Output, preventDowngrade: bool)
    ensures
      var s := InstalledStatus(ds, o, preventDowngrade);
      && (!Failure(s) <==> Evidence(ds, o, preventDowngrade))
      && (s == FAILED <==> AnyOlder(ds) && preventDowngrade)
      && (s == FAILED <==> BaseStatus(ds, o, preventDowngrade) == FAILED)
      && (s == SUCCESS || s == SUCCESS_WITH_WARNING ==> AnyNewer(ds))
      && (s == SKIPPED_NO_UPDATE ==> !AnyNewer(ds) && (NoUpdateReply(o) || CleanNoOp(ds, o)))
  {
  }

  /** The status in terms of the device's reply and the versions before and after. */
  lemma InstalledStatusIs(ds: seq<Delta>, o: Output, preventDowngrade: bool)
    ensures InstalledStatus(ds, o, preventDowngrade) ==
            if preventDowngrade && exists i | 0 <= i < |ds| :: Older(ds[i]) then FAILED
            else if exists i | 0 <= i < |ds| :: Newer(ds[i]) then
              if o.commandFail || o.returnCode !in {None, Some(0)} then SUCCESS_WITH_WARNING else SUCCESS
            else if o.noUpdates && o.returnCode in {None, Some(-85)} then SKIPPED_NO_UPDATE
            else if && o.transferOk && !o.blocked && o.returnCode in {None, Some(0)} && ds != []
                    && forall i | 0 <= i < |ds| :: ds[i].before.Some? && ds[i].after == ds[i].before
            then SKIPPED_NO_UPDATE
            else FAILED_UNCONFIRMED
  {
  }

  /** Each expected object is compared with itself, before and after. */
  lemma DeltasCompare(expected: seq<string>, before: Inventory, after: Inventory, i: nat)
    requires i < |expected|
    ensures |Deltas(expected, before, after)| == |expected|
    ensures
      var d, name := Deltas(expected, before, after)[i], expected[i];
      && d.name == name
      && (if name in before then d.before == Some(before[name]) else d.before == None)
      && (if name in after then d.after == Some(after[name]) else d.after == None)
  {
  }
}
