/** What extraction does, in terms of the paths in the archive (`safe_extract_packages`,
    src/fgops/inventory.py): which paths are refused, and under which names packages are written. */
module ArchivePaths {
  import opened Wrappers
  import opened Text
  import opened Inventory

  // ---- Components ----

  lemma {:induction false} ComponentsJoin(a: string, b: string, part: string)
    ensures Components(a + "/" + b, part) == Components(a, part) + Components(b, "")
    decreases |a|
  {
    if a == "" {
      assert ("" + "/" + b)[1..] == b;
    } else {
      assert (a + "/" + b)[1..] == a[1..] + "/" + b;
      if a[0] == '/' {
        ComponentsJoin(a[1..], b, "");
      } else {
        ComponentsJoin(a[1..], b, part + [a[0]]);
      }
    }
  }

  lemma {:induction false} NoSlashIsOnePart(name: string, part: string)
    requires '/' !in name
    ensures Components(name, part) == [part + name]
    decreases |name|
  {
    if name == "" {
      assert part + name == part;
    } else {
      NoSlashIsOnePart(name[1..], part + [name[0]]);
      assert name == [name[0]] + name[1..];
      assert part + [name[0]] + name[1..] == part + name;
    }
  }

  /** The name is what follows the last `/`. */
  predicate NameOf(path: string, name: string) {
    '/' !in name && |name| <= |path| && path[|path| - |name|..] == name
    && (|name| < |path| ==> path[|path| - |name| - 1] == '/')
  }

  lemma {:induction false} LastName(path: string) returns (name: string)
    ensures NameOf(path, name)
  {
    if path == "" || path[|path| - 1] == '/' {
      name := "";
    } else {
      var front := path[..|path| - 1];
      var rest := LastName(front);
      name := rest + [path[|path| - 1]];
      assert path == front + [path[|path| - 1]];
    }
  }

  lemma NameSplits(path: string, name: string)
    requires NameOf(path, name)
    ensures path == name || path == path[..|path| - |name| - 1] + "/" + name
  {
    if |name| < |path| {
      var k := |path| - |name| - 1;
      assert path == path[..k] + [path[k]] + path[k + 1..];
    }
  }

  lemma BaseOfPath(m: Member, name: string)
    requires NameOf(m.filename, name)
    ensures Base(m) == name
  {
    NameSplits(m.filename, name);
    NoSlashIsOnePart(name, "");
    if m.filename != name {
      ComponentsJoin(m.filename[..|m.filename| - |name| - 1], name, "");
    }
  }

  /** A package is written under the last component of its path. */
  lemma BaseIsLastName(m: Member, name: string)
    ensures Base(m) == name <==> NameOf(m.filename, name)
  {
    var last := LastName(m.filename);
    BaseOfPath(m, last);
    if NameOf(m.filename, name) {
      BaseOfPath(m, name);
    }
  }

  /** For instance, with or without directories before it. */
  lemma NameBehindDirectories(dir: string, name: string)
    requires '/' !in name
    ensures NameOf(name, name) && NameOf(dir + "/" + name, name)
  {
  }

  // ---- Refused paths ----

  /** `part` stands in the path behind `pre`, between slashes or the ends of the path. */
  predicate StandsIn(path: string, pre: string, part: string, post: string) {
    && path == pre + (part + post)
    && (pre == "" || pre[|pre| - 1] == '/') && (post == "" || post[0] == '/')
  }

  ghost predicate HasComponent(path: string, part: string) {
    exists pre, post :: StandsIn(path, pre, part, post)
  }

  lemma {:induction false} ComponentStands(path: string, word: string, part: string) returns (pre: string, post: string)
    requires part in Components(path, word) && '/' !in word
    ensures StandsIn(word + path, pre, part, post)
    decreases |path|
  {
    if path == "" {
      pre, post := "", "";
    } else if path[0] == '/' {
      if part == word {
        pre, post := "", path;
      } else {
        var p;
        p, post := ComponentStands(path[1..], "", part);
        pre := word + "/" + p;
        assert word + path == word + "/" + ("" + path[1..]);
      }
    } else {
      pre, post := ComponentStands(path[1..], word + [path[0]], part);
      assert word + [path[0]] + path[1..] == word + path;
    }
  }

  lemma SlashSplits(part: string, post: string)
    requires post != "" && post[0] == '/'
    ensures part + post == part + "/" + post[1..]
  {
    assert post == "/" + post[1..];
  }

  lemma {:induction false} PartBeforePost(part: string, post: string)
    requires '/' !in part && (post == "" || post[0] == '/')
    ensures part in Components(part + post, "")
  {
    NoSlashIsOnePart(part, "");
    assert "" + part == part;
    assert part in Components(part, "");
    if post == "" {
      assert part + post == part;
    } else {
      SlashSplits(part, post);
      ComponentsJoin(part, post[1..], "");
    }
  }

  lemma BehindDirectories(pre: string, tail: string, part: string)
    requires (pre == "" || pre[|pre| - 1] == '/') && part in Components(tail, "")
    ensures part in Components(pre + tail, "")
  {
    if pre == "" {
      assert pre + tail == tail;
    } else {
      var dir := pre[..|pre| - 1];
      ComponentsJoin(dir, tail, "");
      assert pre + tail == dir + "/" + tail;
    }
  }

  lemma ComponentIs(path: string, part: string)
    requires '/' !in part
    ensures part in Components(path, "") <==> HasComponent(path, part)
  {
    if part in Components(path, "") {
      var pre, post := ComponentStands(path, "", part);
      assert "" + path == path;
    }
    if HasComponent(path, part) {
      var pre, post :| StandsIn(path, pre, part, post);
      PartBeforePost(part, post);
      BehindDirectories(pre, part + post, part);
    }
  }

  /** Absolute, upwards, or a link that is no directory. */
  ghost predicate Refused(m: Member) {
    var path := m.filename;
    || (path != "" && path[0] == '/')
    || HasComponent(path, "..")
    || (m.symlink && (path == "" || path[|path| - 1] != '/'))
  }

  lemma RefusedIsUnsafe(m: Member)
    ensures SafeMember(m) <==> !Refused(m)
  {
    ComponentIs(m.filename, "..");
  }

  // ---- Packages ----

  /** A file whose path ends in `.pkg`, in any case, with this name. */
  ghost predicate Package(m: Member, host: Host, name: string) {
    && NameOf(m.filename, name)
    && (m.filename == "" || m.filename[|m.filename| - 1] != '/')
    && exists stem :: host.lower(m.filename) == stem + ".pkg"
  }

  lemma EndsWithIs(s: string, suffix: string)
    ensures EndsWith(s, suffix) <==> exists stem :: s == stem + suffix
  {
    if EndsWith(s, suffix) {
      assert s == s[..|s| - |suffix|] + suffix;
    }
    if stem :| s == stem + suffix {
      assert s[|s| - |suffix|..] == suffix;
    }
  }

  lemma PackageIs(m: Member, host: Host, name: string)
    ensures Package(m, host, name) <==> EntryOf(m, host).package && EntryOf(m, host).name == name
    ensures Package(m, host, name) ==>
              EntryOf(m, host).fold == host.fold(name) && EntryOf(m, host).target == host.key(name)
  {
    BaseIsLastName(m, name);
    EndsWithIs(host.lower(m.filename), ".pkg");
  }

  ghost predicate AnyPackage(m: Member, host: Host) {
    exists name :: Package(m, host, name)
  }

  lemma AnyPackageIs(m: Member, host: Host)
    ensures AnyPackage(m, host) <==> EntryOf(m, host).package
  {
    PackageIs(m, host, Base(m));
    if name :| Package(m, host, name) {
      PackageIs(m, host, name);
    }
  }

  // ---- Extraction ----

  /** Into an empty directory and with an ideal digest, extraction succeeds exactly when no path is refused,
      there is a package, and packages whose names differ at most in case have equal bytes. */
  lemma IntoEmptyDirectory(ms: seq<Member>, host: Host)
    requires forall x, y :: host.digest(x) == host.digest(y) ==> x == y
    ensures Acceptable(Entries(ms, host), map[], host.digest) <==>
      && (forall i | 0 <= i < |ms| :: !Refused(ms[i]))
      && (exists i | 0 <= i < |ms| :: AnyPackage(ms[i], host))
      && forall i, j, a, b | 0 <= i < j < |ms| && Package(ms[i], host, a) && Package(ms[j], host, b)
                             && host.fold(a) == host.fold(b) :: ms[i].bytes == ms[j].bytes
  {
    var es := Entries(ms, host);
    EmptyDirectory(es, host.digest);
    forall i | 0 <= i < |ms|
      ensures es[i].safe <==> !Refused(ms[i])
      ensures es[i].package <==> AnyPackage(ms[i], host)
      ensures es[i].package ==> Package(ms[i], host, es[i].name)
    {
      RefusedIsUnsafe(ms[i]);
      AnyPackageIs(ms[i], host);
      PackageIs(ms[i], host, es[i].name);
    }
    forall i, a | 0 <= i < |ms| && Package(ms[i], host, a) ensures es[i].package && es[i].fold == host.fold(a) {
      PackageIs(ms[i], host, a);
    }
    if Acceptable(es, map[], host.digest) {
      forall i, j, a, b | 0 <= i < j < |ms| && Package(ms[i], host, a) && Package(ms[j], host, b)
                          && host.fold(a) == host.fold(b)
        ensures ms[i].bytes == ms[j].bytes
      {
        assert es[i].fold == es[j].fold;
        assert es[i].bytes == ms[i].bytes && es[j].bytes == ms[j].bytes;
      }
    } else {
      BytesOfEntries(ms, host);
    }
  }

  lemma BytesOfEntries(ms: seq<Member>, host: Host)
    ensures forall i | 0 <= i < |ms| :: Entries(ms, host)[i].bytes == ms[i].bytes
    ensures forall i | 0 <= i < |ms| :: Entries(ms, host)[i] == EntryOf(ms[i], host)
  {
  }

  /** No earlier package of the archive has this name, whatever the case. */
  ghost predicate FirstPackage(ms: seq<Member>, host: Host, i: nat, name: string) {
    && i < |ms| && Package(ms[i], host, name)
    && forall j, other | 0 <= j < i && Package(ms[j], host, other) :: host.fold(other) != host.fold(name)
  }

  lemma FirstPackageIs(ms: seq<Member>, host: Host, i: nat, name: string)
    requires i < |ms| && Package(ms[i], host, name)
    ensures FirstPackage(ms, host, i, name) <==> First(Entries(ms, host), i)
  {
    var es := Entries(ms, host);
    PackageIs(ms[i], host, name);
    forall j | 0 <= j < i && es[j].package ensures Package(ms[j], host, es[j].name) && es[j].fold == host.fold(es[j].name) {
      PackageIs(ms[j], host, es[j].name);
    }
    forall j, other | 0 <= j < i && Package(ms[j], host, other) ensures es[j].package && es[j].fold == host.fold(other) {
      PackageIs(ms[j], host, other);
    }
  }

  /** After a successful extraction every package of the archive lies in the directory under the name of the
      first one so called, with the digest of its own bytes. */
  lemma PackagesAreThere(ms: seq<Member>, host: Host, files: map<string, string>, i: nat, name: string)
    requires Sane(host) && Acceptable(Entries(ms, host), files, host.digest)
    requires i < |ms| && Package(ms[i], host, name)
    ensures
      var after := Extracted(Entries(ms, host), |ms|, files);
      exists j: nat, first :: j <= i && FirstPackage(ms, host, j, first) && host.fold(first) == host.fold(name)
        && host.key(first) in after && host.digest(after[host.key(first)]) == host.digest(ms[i].bytes)
        && (host.key(first) !in files ==> after[host.key(first)] == ms[j].bytes)
  {
    var es := Entries(ms, host);
    EntriesAreCoherent(ms, host);
    PackageIs(ms[i], host, name);
    OneFilePerName(es, files, host.digest, i);
    var j: nat :| j <= i && First(es, j) && es[j].fold == es[i].fold && es[j].target in Extracted(es, |es|, files)
                  && host.digest(Extracted(es, |es|, files)[es[j].target]) == host.digest(es[i].bytes)
                  && (es[j].target !in files ==> Extracted(es, |es|, files)[es[j].target] == es[j].bytes);
    PackageIs(ms[j], host, es[j].name);
    FirstPackageIs(ms, host, j, es[j].name);
    assert FirstPackage(ms, host, j, es[j].name);
  }

  /** Every file that was not there before is a first package of the archive, under its name. */
  lemma OnlyNamedPackages(ms: seq<Member>, host: Host, files: map<string, string>, f: string)
    requires Sane(host) && f in Extracted(Entries(ms, host), |ms|, files) && f !in files
    ensures exists i: nat, name :: FirstPackage(ms, host, i, name) && host.key(name) == f
                                   && Extracted(Entries(ms, host), |ms|, files)[f] == ms[i].bytes
  {
    var es := Entries(ms, host);
    EntriesAreCoherent(ms, host);
    OnlyPackagesAreWritten(es, |es|, files, f);
    var i: nat :| i < |es| && First(es, i) && es[i].target == f;
    ExtractedFacts(es, |es|, files, i);
    PackageIs(ms[i], host, es[i].name);
    FirstPackageIs(ms, host, i, es[i].name);
    assert FirstPackage(ms, host, i, es[i].name);
  }

  lemma {:induction false} FirstNamesAre(es: seq<Entry>, n: nat, name: string)
    requires n <= |es|
    ensures name in FirstNames(es, n) <==> exists i | 0 <= i < n :: First(es, i) && es[i].name == name
  {
    if n > 0 {
      FirstNamesAre(es, n - 1, name);
    }
  }

  lemma SortedMembers(names: seq<string>, lower: string -> string, name: string)
    ensures name in SortNames(names, lower) <==> name in names
  {
    SortNamesFacts(names, lower);
    assert name in SortNames(names, lower) <==> name in multiset(SortNames(names, lower));
    assert name in names <==> name in multiset(names);
  }

  /** The returned list holds exactly the names of the first packages. */
  lemma ReturnedAreFirst(ms: seq<Member>, host: Host, name: string)
    ensures name in SortNames(FirstNames(Entries(ms, host), |ms|), host.lower) <==>
              exists i: nat :: FirstPackage(ms, host, i, name)
  {
    var es := Entries(ms, host);
    var names := FirstNames(es, |es|);
    SortedMembers(names, host.lower, name);
    FirstNamesAre(es, |es|, name);
    if i: nat :| i < |es| && First(es, i) && es[i].name == name {
      PackageIs(ms[i], host, name);
      FirstPackageIs(ms, host, i, name);
    }
    if i: nat :| FirstPackage(ms, host, i, name) {
      PackageIs(ms[i], host, name);
      FirstPackageIs(ms, host, i, name);
    }
  }
}
