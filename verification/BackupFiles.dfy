/** How the archives of RotationModel.dfy lie in a directory and in the working set of
  * a cleanup, and what one deletion or compression does to that picture. */
module BackupFiles {
  import opened ArchiveNames
  import opened Common
  import opened RotationModel
  import opened Platform
  import opened WorkingSet

  // ---- In the directory ----

  function FileName(base: string, a: Arch): string {
    ArchiveName(StemOf(base), ExtensionOf(base), a.day, a.index) + (if a.gz then ".gz" else "")
  }

  function FileFor(a: Arch): File {
    File(Bytes(a.data), if a.gz then 1 else 0)
  }

  function NamesOf(base: string, shelf: seq<Arch>): set<string> {
    set i | 0 <= i < |shelf| :: FileName(base, shelf[i])
  }

  function Backups(base: string, files: map<string, File>): set<string> {
    set n | n in files && IsBackup(base, n)
  }

  /** The backups in the directory are the archives of the shelf, byte for byte. */
  ghost predicate Holds(base: string, files: map<string, File>, shelf: seq<Arch>) {
    && Backups(base, files) == NamesOf(base, shelf)
    && forall i :: 0 <= i < |shelf| ==>
                     FileName(base, shelf[i]) in files && files[FileName(base, shelf[i])] == FileFor(shelf[i])
  }

  /** Whatever is not a backup of `base` is as before; the active file in particular. */
  ghost predicate SameExceptBackups(base: string, before: map<string, File>, after: map<string, File>) {
    forall n :: !IsBackup(base, n) ==>
                  (n in after <==> n in before) && (n in after ==> after[n] == before[n])
  }

  lemma SameTrans(base: string, a: map<string, File>, b: map<string, File>, c: map<string, File>)
    requires SameExceptBackups(base, a, b) && SameExceptBackups(base, b, c)
    ensures SameExceptBackups(base, a, c)
  {
  }

  predicate InRange(a: Arch) {
    ValidDay(a.day) && a.index < INDEX_SPAN
  }

  lemma NameIsBackup(base: string, a: Arch)
    requires ValidDay(a.day)
    ensures MatchArchive(FileName(base, a), StemOf(base) + ".", ExtensionOf(base)) == Some(a.gz)
  {
    hide MatchArchive, ArchiveName;
    var stem, ext := StemOf(base), ExtensionOf(base);
    MadeNamesMatch(stem, ext, a.day, a.index);
    var name := ArchiveName(stem, ext, a.day, a.index);
    assert name + "" == name;
  }

  lemma NameIsKeyed(base: string, a: Arch, fallback: int)
    requires ValidDay(a.day)
    ensures |StemOf(base) + "."| <= |FileName(base, a)|
    ensures OrderKey(FileName(base, a), StemOf(base) + ".", fallback) == Key(a)
  {
    hide OrderKey, ArchiveName;
    MadeNamesKey(StemOf(base), ExtensionOf(base), a.day, a.index, a.gz, fallback);
  }

  lemma NamesDiffer(base: string, a: Arch, b: Arch)
    requires InRange(a) && InRange(b) && FileName(base, a) == FileName(base, b)
    ensures Key(a) == Key(b) && a.gz == b.gz
  {
    hide FileName, Key, OrderKey, MatchArchive;
    NameIsBackup(base, a);
    NameIsBackup(base, b);
    NameIsKeyed(base, a, 0);
    NameIsKeyed(base, b, 0);
  }

  lemma NamesDistinct(base: string, shelf: seq<Arch>, i: nat, j: nat)
    requires Ascending(shelf) && i < |shelf| && j < |shelf| && i != j
    ensures FileName(base, shelf[i]) != FileName(base, shelf[j])
    ensures FileName(base, shelf[i].(gz := true)) != FileName(base, shelf[j])
  {
    hide FileName;
    assert Key(shelf[i].(gz := true)) == Key(shelf[i]);
    if FileName(base, shelf[i]) == FileName(base, shelf[j]) {
      NamesDiffer(base, shelf[i], shelf[j]);
    }
    if FileName(base, shelf[i].(gz := true)) == FileName(base, shelf[j]) {
      NamesDiffer(base, shelf[i].(gz := true), shelf[j]);
    }
  }

  lemma NamesOfInsert(base: string, done: seq<Arch>, a: Arch, rest: seq<Arch>)
    ensures NamesOf(base, done + [a] + rest) == NamesOf(base, done + rest) + {FileName(base, a)}
  {
    hide FileName;
    NamesOfConcat(base, done + [a], rest);
    NamesOfConcat(base, done, [a]);
    NamesOfConcat(base, done, rest);
    assert NamesOf(base, [a]) == {FileName(base, a)} by {
      assert [a][0] == a;
    }
  }

  lemma NamesOfConcat(base: string, s: seq<Arch>, t: seq<Arch>)
    ensures NamesOf(base, s + t) == NamesOf(base, s) + NamesOf(base, t)
  {
    hide FileName;
    forall i | 0 <= i < |s| ensures FileName(base, s[i]) in NamesOf(base, s + t) {
      assert (s + t)[i] == s[i];
    }
    forall i | 0 <= i < |t| ensures FileName(base, t[i]) in NamesOf(base, s + t) {
      assert (s + t)[|s| + i] == t[i];
    }
  }

  lemma NameNotAmongOthers(base: string, done: seq<Arch>, a: Arch, rest: seq<Arch>)
    requires Ascending(done + [a] + rest)
    ensures FileName(base, a) !in NamesOf(base, done + rest)
    ensures FileName(base, a.(gz := true)) !in NamesOf(base, done + rest)
  {
    hide FileName, Ascending;
    var s, t := done + [a] + rest, done + rest;
    assert s[|done|] == a;
    forall i | 0 <= i < |t| ensures FileName(base, t[i]) != FileName(base, a)
                                    && FileName(base, t[i]) != FileName(base, a.(gz := true)) {
      var k := if i < |done| then i else i + 1;
      assert s[k] == t[i];
      NamesDistinct(base, s, |done|, k);
    }
  }

  /** Deleting one archive's file. */
  lemma HoldsDrop(base: string, files: map<string, File>, done: seq<Arch>, a: Arch, rest: seq<Arch>)
    requires Holds(base, files, done + [a] + rest) && Ascending(done + [a] + rest)
    ensures FileName(base, a) in files
    ensures Holds(base, files - {FileName(base, a)}, done + rest)
  {
    hide FileName, FileFor, IsBackup, Ascending, NamesOf;
    var s, t := done + [a] + rest, done + rest;
    assert s[|done|] == a;
    NamesOfInsert(base, done, a, rest);
    NameNotAmongOthers(base, done, a, rest);
    var files' := files - {FileName(base, a)};
    assert Backups(base, files') == Backups(base, files) - {FileName(base, a)};
    forall i | 0 <= i < |t| ensures FileName(base, t[i]) in files' && files'[FileName(base, t[i])] == FileFor(t[i]) {
      NameListed(base, t, i);
      assert s[if i < |done| then i else i + 1] == t[i];
    }
  }

  lemma NameListed(base: string, shelf: seq<Arch>, i: nat)
    requires i < |shelf|
    ensures FileName(base, shelf[i]) in NamesOf(base, shelf)
  {
  }

  /** Adding one archive's file. */
  lemma HoldsAdd(base: string, files: map<string, File>, done: seq<Arch>, a: Arch, rest: seq<Arch>)
    requires Holds(base, files, done + rest) && ValidDay(a.day)
    requires FileName(base, a) !in NamesOf(base, done + rest)
    ensures Holds(base, files[FileName(base, a) := FileFor(a)], done + [a] + rest)
  {
    hide FileName, FileFor, MatchArchive, NamesOf;
    NameIsBackup(base, a);
    NamesOfInsert(base, done, a, rest);
    var s, t := done + [a] + rest, done + rest;
    var files' := files[FileName(base, a) := FileFor(a)];
    assert Backups(base, files') == Backups(base, files) + {FileName(base, a)};
    forall i | 0 <= i < |s| ensures FileName(base, s[i]) in files' && files'[FileName(base, s[i])] == FileFor(s[i]) {
      if i == |done| {
        assert s[i] == a;
      } else {
        var k := if i < |done| then i else i - 1;
        assert s[i] == t[k];
        NameListed(base, t, k);
      }
    }
  }

  /** Compressing one archive's file. */
  lemma HoldsZip(base: string, files: map<string, File>, done: seq<Arch>, a: Arch, rest: seq<Arch>)
    requires Holds(base, files, done + [a] + rest) && Ascending(done + [a] + rest) && !a.gz
    ensures FileName(base, a) in files && FileName(base, a.(gz := true)) == FileName(base, a) + ".gz"
    ensures files[FileName(base, a)] == FileFor(a)
    ensures Holds(base, files[FileName(base, a) + ".gz" := File(files[FileName(base, a)].data,
                                                                files[FileName(base, a)].zips + 1)]
                        - {FileName(base, a)}, done + [a.(gz := true)] + rest)
  {
    var name := FileName(base, a);
    var z := a.(gz := true);
    var s := done + [a] + rest;
    assert s[|done|] == a;
    GzName(base, a);
    HoldsDrop(base, files, done, a, rest);
    NameNotAmongOthers(base, done, a, rest);
    HoldsAdd(base, files - {name}, done, z, rest);
    assert (files - {name})[name + ".gz" := FileFor(z)] == files[name + ".gz" := FileFor(z)] - {name};
  }

  lemma GzName(base: string, a: Arch)
    requires !a.gz
    ensures FileName(base, a.(gz := true)) == FileName(base, a) + ".gz"
  {
    var name := ArchiveName(StemOf(base), ExtensionOf(base), a.day, a.index);
    assert name + "" == name;
  }
}
