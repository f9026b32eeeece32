/** Flattening an archive into a directory (`safe_extract_packages`, src/fgops/inventory.py). */
module Inventory {
  import opened Wrappers
  import opened Text

  datatype Member = Member(filename: string, symlink: bool, bytes: string)

  datatype ExtractError = UnsafeMember | ConflictingMembers | ConflictingFile | NoPackages

  /** `digest` is SHA-256; `key` is what a file name means to the file system: itself, or its lower case;
      `fold` and `lower` are `str.casefold` and `str.lower`. */
  datatype Host = Host(digest: string -> string, key: string -> string, fold: string -> string, lower: string -> string)

  /** File names that mean the same file differ at most in case. */
  ghost predicate Sane(host: Host) {
    forall a, b :: host.key(a) == host.key(b) ==> host.fold(a) == host.fold(b)
  }

  // ---- Member names ----

  /** The components of a path, given the one being read. */
  function Components(path: string, part: string): seq<string> {
    if path == "" then [part]
    else if path[0] == '/' then [part] + Components(path[1..], "")
    else Components(path[1..], part + [path[0]])
  }

  predicate IsDirectory(m: Member) {
    m.filename != "" && m.filename[|m.filename| - 1] == '/'
  }

  /** `_validate_member`. */
  predicate SafeMember(m: Member) {
    && !(m.filename != "" && m.filename[0] == '/')
    && ".." !in Components(m.filename, "")
    && (m.symlink ==> IsDirectory(m))
  }

  predicate EndsWith(s: string, suffix: string) {
    |suffix| <= |s| && s[|s| - |suffix|..] == suffix
  }

  predicate IsPackage(m: Member, host: Host) {
    !IsDirectory(m) && EndsWith(host.lower(m.filename), ".pkg")
  }

  /** The name without its directories. */
  function Base(m: Member): string {
    var parts := Components(m.filename, "");
    if parts == [] then "" else parts[|parts| - 1]
  }

  /** What extraction looks at in a member: `fold` is the name without case, `target` the file it means. */
  datatype Entry = Entry(safe: bool, package: bool, name: string, fold: string, target: string, bytes: string)

  function EntryOf(m: Member, host: Host): Entry {
    Entry(SafeMember(m), IsPackage(m, host), Base(m), host.fold(Base(m)), host.key(Base(m)), m.bytes)
  }

  function Entries(ms: seq<Member>, host: Host): seq<Entry> {
    seq(|ms|, i requires 0 <= i < |ms| => EntryOf(ms[i], host))
  }

  // ---- What extraction is for ----

  /** The first package of its name, whatever the case. */
  predicate First(es: seq<Entry>, i: nat)
    requires i < |es|
  {
    es[i].package && forall j | 0 <= j < i && es[j].package :: es[j].fold != es[i].fold
  }

  predicate SameBytes(a: Entry, b: Entry, digest: string -> string) {
    a.package && b.package && a.fold == b.fold ==> digest(a.bytes) == digest(b.bytes)
  }

  predicate FitsFile(e: Entry, files: map<string, string>, digest: string -> string) {
    e.target in files ==> digest(files[e.target]) == digest(e.bytes)
  }

  /** Member `i` is safe, agrees with the earlier packages of its name, and the first of a name with the
      file that was there. */
  predicate Fits(es: seq<Entry>, i: nat, files: map<string, string>, digest: string -> string)
    requires i < |es|
  {
    && es[i].safe
    && (forall j | 0 <= j < i :: SameBytes(es[j], es[i], digest))
    && (First(es, i) ==> FitsFile(es[i], files, digest))
  }

  predicate NoConflict(es: seq<Entry>, n: nat, files: map<string, string>, digest: string -> string)
    requires n <= |es|
  {
    forall i | 0 <= i < n :: Fits(es, i, files, digest)
  }

  predicate Acceptable(es: seq<Entry>, files: map<string, string>, digest: string -> string) {
    NoConflict(es, |es|, files, digest) && exists i | 0 <= i < |es| :: es[i].package
  }

  /** The files after the first `n` members: those that were there, and each first package. */
  function Extracted(es: seq<Entry>, n: nat, files: map<string, string>): map<string, string>
    requires n <= |es|
  {
    if n == 0 then files
    else
      var before, e := Extracted(es, n - 1, files), es[n - 1];
      if First(es, n - 1) && e.target !in before then before[e.target := e.bytes] else before
  }

  function FirstNames(es: seq<Entry>, n: nat): seq<string>
    requires n <= |es|
  {
    if n == 0 then []
    else FirstNames(es, n - 1) + (if First(es, n - 1) then [es[n - 1].name] else [])
  }

  function InsertName(name: string, s: seq<string>, lower: string -> string): seq<string> {
    if s == [] || LexLeq(lower(name), lower(s[0])) then [name] + s else [s[0]] + InsertName(name, s[1..], lower)
  }

  /** Sorted by lower-case name. */
  function SortNames(s: seq<string>, lower: string -> string): seq<string> {
    if s == [] then [] else InsertName(s[0], SortNames(s[1..], lower), lower)
  }

  // ---- Facts about the specification ----

  /** Entries with the same file have the same name but for case. */
  predicate Coherent(es: seq<Entry>) {
    forall i, j | 0 <= i < |es| && 0 <= j < |es| && es[i].target == es[j].target :: es[i].fold == es[j].fold
  }

  lemma EntriesAreCoherent(ms: seq<Member>, host: Host)
    requires Sane(host)
    ensures Coherent(Entries(ms, host))
  {
  }

  /** The first package of the name of package `i`. */
  lemma {:induction false} Claimant(es: seq<Entry>, i: nat) returns (j: nat)
    requires i < |es| && es[i].package
    ensures j <= i && First(es, j) && es[j].fold == es[i].fold
    decreases i
  {
    j := i;
    if !First(es, i) {
      var k: nat :| k < i && es[k].package && es[k].fold == es[i].fold;
      j := Claimant(es, k);
    }
  }

  /** Which files exist after `n` members, and what they hold. */
  lemma {:induction false} ExtractedFacts(es: seq<Entry>, n: nat, files: map<string, string>, i: nat)
    requires n <= |es| && Coherent(es) && i < |es| && First(es, i)
    ensures
      var after, target := Extracted(es, n, files), es[i].target;
      && (forall f | f in files :: f in after && after[f] == files[f])
      && (target in after <==> target in files || i < n)
      && (target !in files && i < n ==> after[target] == es[i].bytes)
  {
    if n > 0 {
      ExtractedFacts(es, n - 1, files, i);
      if First(es, n - 1) && es[n - 1].target == es[i].target {
        assert es[n - 1].fold == es[i].fold;
      }
    }
  }

  lemma {:induction false} NothingIsOverwritten(es: seq<Entry>, n: nat, files: map<string, string>)
    requires n <= |es|
    ensures forall f | f in files :: f in Extracted(es, n, files) && Extracted(es, n, files)[f] == files[f]
  {
    if n > 0 {
      NothingIsOverwritten(es, n - 1, files);
    }
  }

  /** Nothing else is written. */
  lemma {:induction false} OnlyPackagesAreWritten(es: seq<Entry>, n: nat, files: map<string, string>, f: string)
    requires n <= |es| && f in Extracted(es, n, files) && f !in files
    ensures exists i | 0 <= i < n :: First(es, i) && es[i].target == f
  {
    if f in Extracted(es, n - 1, files) {
      OnlyPackagesAreWritten(es, n - 1, files, f);
    } else {
      assert First(es, n - 1) && es[n - 1].target == f;
    }
  }

  /** Extraction writes exactly one file for each package name, holding its first member. */
  lemma OneFilePerName(es: seq<Entry>, files: map<string, string>, digest: string -> string, i: nat)
    requires Coherent(es) && Acceptable(es, files, digest) && i < |es| && es[i].package
    ensures
      var after := Extracted(es, |es|, files);
      exists j | 0 <= j <= i ::
        && First(es, j) && es[j].fold == es[i].fold && es[j].target in after
        && digest(after[es[j].target]) == digest(es[i].bytes)
        && (es[j].target !in files ==> after[es[j].target] == es[j].bytes)
        && forall k | 0 <= k < |es| && First(es, k) && es[k].fold == es[i].fold :: k == j
  {
    var j := Claimant(es, i);
    ExtractedFacts(es, |es|, files, j);
    assert Fits(es, j, files, digest) && Fits(es, i, files, digest);
    assert j < i ==> SameBytes(es[j], es[i], digest);
  }

  /** Into an empty directory and with an ideal digest, exactly the archives succeed whose members are
      safe, that hold a package, and whose packages of one name have equal bytes. */
  lemma EmptyDirectory(es: seq<Entry>, digest: string -> string)
    requires forall x, y :: digest(x) == digest(y) ==> x == y
    ensures Acceptable(es, map[], digest) <==>
      && (forall i | 0 <= i < |es| :: es[i].safe)
      && (exists i | 0 <= i < |es| :: es[i].package)
      && forall i, j | 0 <= i < j < |es| && es[i].package && es[j].package && es[i].fold == es[j].fold ::
           es[i].bytes == es[j].bytes
  {
    if Acceptable(es, map[], digest) {
      forall i, j | 0 <= i < j < |es| && es[i].package && es[j].package && es[i].fold == es[j].fold
        ensures es[i].bytes == es[j].bytes
      {
        assert Fits(es, j, map[], digest) && SameBytes(es[i], es[j], digest);
      }
      assert forall i | 0 <= i < |es| :: Fits(es, i, map[], digest) ==> es[i].safe;
    }
  }

  predicate DistinctNames(s: seq<string>, fold: string -> string) {
    forall i, j | 0 <= i < j < |s| :: fold(s[i]) != fold(s[j])
  }

  /** The entries' `fold` is their name without case. */
  predicate Folded(es: seq<Entry>, fold: string -> string) {
    forall i | 0 <= i < |es| :: es[i].fold == fold(es[i].name)
  }

  /** One name for each package name, whatever the case. */
  lemma {:induction false} FirstNamesFacts(es: seq<Entry>, n: nat, fold: string -> string)
    requires n <= |es| && Folded(es, fold)
    ensures DistinctNames(FirstNames(es, n), fold)
    ensures forall name | name in FirstNames(es, n) :: exists i | 0 <= i < n :: First(es, i) && es[i].name == name
    ensures forall i | 0 <= i < n && First(es, i) :: es[i].name in FirstNames(es, n)
  {
    if n > 0 {
      FirstNamesFacts(es, n - 1, fold);
      var before := FirstNames(es, n - 1);
      if First(es, n - 1) {
        forall k | 0 <= k < |before| ensures fold(before[k]) != es[n - 1].fold {
          assert before[k] in before;
        }
        assert es[n - 1].name in FirstNames(es, n);
      }
    }
  }

  predicate NamesAscending(s: seq<string>, lower: string -> string) {
    forall i, j | 0 <= i < j < |s| :: LexLeq(lower(s[i]), lower(s[j]))
  }

  lemma {:induction false} InsertNameFacts(name: string, s: seq<string>, lower: string -> string)
    ensures multiset(InsertName(name, s, lower)) == multiset{name} + multiset(s)
    ensures NamesAscending(s, lower) ==> NamesAscending(InsertName(name, s, lower), lower)
  {
    if s == [] {
    } else if LexLeq(lower(name), lower(s[0])) {
      forall i | 0 <= i < |s| ensures NamesAscending(s, lower) ==> LexLeq(lower(name), lower(s[i])) {
        if NamesAscending(s, lower) && i > 0 {
          LexTransitive(lower(name), lower(s[0]), lower(s[i]));
        }
      }
    } else {
      LexTotal(lower(name), lower(s[0]));
      InsertNameFacts(name, s[1..], lower);
      assert s == [s[0]] + s[1..];
      var t := InsertName(name, s[1..], lower);
      forall x | x in t ensures NamesAscending(s, lower) ==> LexLeq(lower(s[0]), lower(x)) {
        assert x in multiset(t);
        if x != name {
          assert x in multiset(s[1..]);
          assert x in s[1..];
        }
      }
    }
  }

  lemma {:induction false} SortNamesFacts(s: seq<string>, lower: string -> string)
    ensures multiset(SortNames(s, lower)) == multiset(s)
    ensures NamesAscending(SortNames(s, lower), lower)
  {
    if s != [] {
      SortNamesFacts(s[1..], lower);
      InsertNameFacts(s[0], SortNames(s[1..], lower), lower);
      assert s == [s[0]] + s[1..];
    }
  }

  /** The list returned: the extracted names, sorted by lower case, each once. */
  lemma ReturnedNames(es: seq<Entry>, host: Host)
    requires Folded(es, host.fold)
    ensures
      var names := SortNames(FirstNames(es, |es|), host.lower);
      && NamesAscending(names, host.lower)
      && multiset(names) == multiset(FirstNames(es, |es|))
      && DistinctNames(FirstNames(es, |es|), host.fold)
      && forall i | 0 <= i < |es| && First(es, i) :: es[i].name in FirstNames(es, |es|)
  {
    FirstNamesFacts(es, |es|, host.fold);
    SortNamesFacts(FirstNames(es, |es|), host.lower);
  }

  // ---- Extraction ----

  /** The names claimed so far, with the files they were given. */
  ghost predicate ClaimedIs(claimed: map<string, string>, es: seq<Entry>, n: nat)
    requires n <= |es|
  {
    && (forall j | 0 <= j < n && First(es, j) :: es[j].fold in claimed && claimed[es[j].fold] == es[j].target)
    && (forall f | f in claimed :: exists j | 0 <= j < n :: First(es, j) && es[j].fold == f)
  }

  lemma {:induction false} SomeFirstName(es: seq<Entry>, n: nat)
    requires n <= |es|
    ensures FirstNames(es, n) != [] <==> exists i | 0 <= i < n :: es[i].package
  {
    if n > 0 {
      SomeFirstName(es, n - 1);
      if es[n - 1].package && !First(es, n - 1) {
        var j :| 0 <= j < n - 1 && es[j].package && es[j].fold == es[n - 1].fold;
      }
    }
  }

  lemma DuplicateFacts(claimed: map<string, string>, es: seq<Entry>, i: nat, files: map<string, string>,
                       digest: string -> string)
    returns (j: nat)
    requires i < |es| && Coherent(es) && es[i].package && ClaimedIs(claimed, es, i)
    requires NoConflict(es, i, files, digest) && es[i].fold in claimed
    ensures !First(es, i)
    ensures
      var now := Extracted(es, i, files);
      && j < i && First(es, j) && es[j].fold == es[i].fold
      && claimed[es[i].fold] in now
      && digest(now[claimed[es[i].fold]]) == digest(es[j].bytes)
  {
    j :| 0 <= j < i && First(es, j) && es[j].fold == es[i].fold;
    ExtractedFacts(es, i, files, j);
    assert Fits(es, j, files, digest);
  }

  lemma DuplicateFits(es: seq<Entry>, i: nat, j: nat, files: map<string, string>, digest: string -> string)
    requires i < |es| && NoConflict(es, i, files, digest) && es[i].safe && !First(es, i)
    requires j < i && es[j].package && es[j].fold == es[i].fold && digest(es[j].bytes) == digest(es[i].bytes)
    ensures Fits(es, i, files, digest)
  {
    forall k | 0 <= k < i ensures SameBytes(es[k], es[i], digest) {
      assert Fits(es, k, files, digest) && Fits(es, j, files, digest);
      assert k < j ==> SameBytes(es[k], es[j], digest);
      assert j < k ==> SameBytes(es[j], es[k], digest);
    }
  }

  /** A name not claimed before is new. */
  lemma UnclaimedIsFirst(claimed: map<string, string>, es: seq<Entry>, i: nat)
    requires i < |es| && es[i].package && ClaimedIs(claimed, es, i) && es[i].fold !in claimed
    ensures First(es, i)
    ensures ClaimedIs(claimed[es[i].fold := es[i].target], es, i + 1)
  {
    forall j: nat | j < i && es[j].package ensures es[j].fold != es[i].fold {
      var k := Claimant(es, j);
    }
  }

  lemma FirstFits(es: seq<Entry>, i: nat, files: map<string, string>, digest: string -> string)
    requires i < |es| && First(es, i) && es[i].safe
    ensures Fits(es, i, files, digest) <==> FitsFile(es[i], files, digest)
  {
  }

  /** The loop state after `n` members. */
  ghost predicate Progress(claimed: map<string, string>, extracted: seq<string>, es: seq<Entry>, n: nat,
                           files: map<string, string>, digest: string -> string)
    requires n <= |es|
  {
    extracted == FirstNames(es, n) && ClaimedIs(claimed, es, n) && NoConflict(es, n, files, digest)
  }

  lemma ProgressStep(claimed: map<string, string>, extracted: seq<string>, es: seq<Entry>, i: nat,
                     files: map<string, string>, digest: string -> string)
    requires i < |es| && Progress(claimed, extracted, es, i, files, digest)
    ensures !Fits(es, i, files, digest) ==> !Acceptable(es, files, digest)
    ensures Fits(es, i, files, digest) && !First(es, i) ==> Progress(claimed, extracted, es, i + 1, files, digest)
    ensures Fits(es, i, files, digest) && First(es, i) ==>
              Progress(claimed[es[i].fold := es[i].target], extracted + [es[i].name], es, i + 1, files, digest)
  {
  }

  /** What extraction needs to know of a name not claimed before. */
  lemma NewName(claimed: map<string, string>, es: seq<Entry>, i: nat, files: map<string, string>, digest: string -> string)
    requires i < |es| && Coherent(es) && es[i].safe && es[i].package
    requires ClaimedIs(claimed, es, i) && es[i].fold !in claimed
    ensures First(es, i) && ClaimedIs(claimed[es[i].fold := es[i].target], es, i + 1)
    ensures Fits(es, i, files, digest) <==> FitsFile(es[i], files, digest)
    ensures es[i].target in Extracted(es, i, files) <==> es[i].target in files
    ensures es[i].target in files ==> Extracted(es, i, files)[es[i].target] == files[es[i].target]
  {
    UnclaimedIsFirst(claimed, es, i);
    FirstFits(es, i, files, digest);
    ExtractedFacts(es, i, files, i);
  }

  class Directory {
    var files: map<string, string>

    method SafeExtractPackages(ms: seq<Member>, host: Host) returns (r: Result<seq<string>, ExtractError>)
      requires Sane(host)
      modifies this
      ensures r.Success? <==> Acceptable(Entries(ms, host), old(files), host.digest)
      ensures r.Success? ==> r.value == SortNames(FirstNames(Entries(ms, host), |ms|), host.lower)
      ensures r.Success? ==> files == Extracted(Entries(ms, host), |ms|, old(files))
      ensures forall f | f in old(files) :: f in files && files[f] == old(files)[f]
    {
      EntriesAreCoherent(ms, host);
      r := ExtractEntries(Entries(ms, host), host.digest, host.lower);
    }

    method ExtractEntries(es: seq<Entry>, digest: string -> string, lower: string -> string)
      returns (r: Result<seq<string>, ExtractError>)
      requires Coherent(es)
      modifies this
      ensures r.Success? <==> Acceptable(es, old(files), digest)
      ensures r.Success? ==> r.value == SortNames(FirstNames(es, |es|), lower)
      ensures r.Success? ==> files == Extracted(es, |es|, old(files))
      ensures forall f | f in old(files) :: f in files && files[f] == old(files)[f]
    {
      ghost var before := files;
      var extracted: seq<string> := [];
      var claimed: map<string, string> := map[];
      for i := 0 to |es|
        invariant files == Extracted(es, i, before)
        invariant Progress(claimed, extracted, es, i, before, digest)
      {
        NothingIsOverwritten(es, i, before);
        ProgressStep(claimed, extracted, es, i, before, digest);
        var error, isNew := ExtractMember(es, i, claimed, digest, before);
        if error.Some? {
          return Failure(error.value);
        }
        if isNew {
          claimed, extracted := claimed[es[i].fold := es[i].target], extracted + [es[i].name];
        }
      }
      NothingIsOverwritten(es, |es|, before);
      SomeFirstName(es, |es|);
      if extracted == [] {
        return Failure(NoPackages);
      }
      return Success(SortNames(extracted, lower));
    }

    /** One member: refused, skipped as no package or as a duplicate, or written unless its file is there. */
    method ExtractMember(es: seq<Entry>, i: nat, claimed: map<string, string>, digest: string -> string,
                         ghost before: map<string, string>)
      returns (error: Option<ExtractError>, isNew: bool)
      requires i < |es| && Coherent(es) && ClaimedIs(claimed, es, i)
      requires files == Extracted(es, i, before) && NoConflict(es, i, before, digest)
      modifies this
      ensures error.None? <==> Fits(es, i, before, digest)
      ensures error.None? ==> files == Extracted(es, i + 1, before) && isNew == First(es, i)
      ensures error.Some? ==> files == old(files)
    {
      error, isNew := None, false;
      var e := es[i];
      if !e.safe {
        error := Some(UnsafeMember);
      } else if !e.package {
      } else if e.fold in claimed {
        ghost var j := DuplicateFacts(claimed, es, i, before, digest);
        if digest(e.bytes) != digest(files[claimed[e.fold]]) {
          assert !SameBytes(es[j], es[i], digest);
          error := Some(ConflictingMembers);
        } else {
          DuplicateFits(es, i, j, before, digest);
        }
      } else {
        NewName(claimed, es, i, before, digest);
        if e.target !in files {
          files := files[e.target := e.bytes];
        } else if digest(e.bytes) != digest(files[e.target]) {
          error := Some(ConflictingFile);
        }
        isNew := true;
      }
    }
  }
}
