/** Archives in the directory of one log file: what a rename does to them, how high their
  * indices get, and what an operator reads who puts them into the order of their keys. */
module Shelving {
  import opened ArchiveNames
  import opened BackupFiles
  import opened Common
  import opened Decimal
  import opened Platform
  import opened Retention
  import opened RotationModel

  // ---- What does not matter ----

  /** Nothing but the active file and its backups changes. */
  ghost predicate OthersSame(base: string, before: map<string, File>, after: map<string, File>) {
    forall n :: n != base && !IsBackup(base, n) ==>
                  (n in after <==> n in before) && (n in after ==> after[n] == before[n])
  }

  lemma OthersTrans(base: string, a: map<string, File>, b: map<string, File>, c: map<string, File>)
    requires OthersSame(base, a, b) && OthersSame(base, b, c)
    ensures OthersSame(base, a, c)
  {
  }

  lemma OthersRefl(base: string, files: map<string, File>)
    ensures OthersSame(base, files, files)
  {
  }

  // ---- Choosing a name ----

  /** Only the backups matter to what the shelf holds. */
  lemma HoldsSame(base: string, f: map<string, File>, g: map<string, File>, shelf: seq<Arch>)
    requires Holds(base, f, shelf)
    requires forall n :: IsBackup(base, n) ==> (n in g <==> n in f) && (n in g ==> g[n] == f[n])
    ensures Holds(base, g, shelf)
  {
    hide IsBackup, FileName, FileFor;
    assert Backups(base, f) == Backups(base, g);
    forall i | 0 <= i < |shelf|
      ensures FileName(base, shelf[i]) in g && g[FileName(base, shelf[i])] == FileFor(shelf[i])
    {
      assert FileName(base, shelf[i]) in NamesOf(base, shelf);
      assert FileName(base, shelf[i]) in Backups(base, f);
    }
  }

  lemma NameStarts(base: string, a: Arch)
    ensures StartsWith(FileName(base, a), Needle(StemOf(base), a.day))
  {
    hide DateTag, Dec;
    var tail := Dec(a.index) + Suffix(ExtensionOf(base)) + (if a.gz then ".gz" else "");
    assert FileName(base, a) == Needle(StemOf(base), a.day) + tail;
  }

  /** When the scan saw every name and there is room below 10^8, the index that it gives
    * is new. */
  lemma ScannedIndexIsNew(base: string, files: map<string, File>, listing: seq<string>,
                          shelf: seq<Arch>, d: Day, index: nat)
    requires Holds(base, files, shelf) && Ascending(shelf) && forall n :: n in files ==> n in listing
    requires forall k :: 0 <= k < |listing| ==> IndexIn(listing[k], Needle(StemOf(base), d)) < index
    requires index < INDEX_SPAN
    ensures IndexIsNew(shelf, d, index)
  {
    hide IndexIn, Needle, Key, IsBackup, FileFor, ArchiveName, StartsWith;
    forall i | 0 <= i < |shelf| && shelf[i].day == d ensures shelf[i].index < index {
      ScanReadsIndex(StemOf(base), ExtensionOf(base), d, shelf[i].index, shelf[i].gz);
      assert FileName(base, shelf[i]) in listing;
    }
  }

  // ---- How high an index can get ----

  lemma TagsDiffer(d: Day, e: Day)
    requires ValidDay(d) && ValidDay(e)
    ensures |DateTag(d)| == |DateTag(e)| == 10
    ensures DateTag(d) == DateTag(e) ==> d == e
  {
    hide Pad;
    DayPads(d);
    DayPads(e);
    var s, t := DateTag(d), DateTag(e);
    assert s[..4] == Pad(d.year, 4) && s[5..7] == Pad(d.month, 2) && s[8..] == Pad(d.mday, 2);
    assert t[..4] == Pad(e.year, 4) && t[5..7] == Pad(e.month, 2) && t[8..] == Pad(e.mday, 2);
  }

  /** The scan for one day passes over the archives of other days. */
  lemma OtherDaysIndex(base: string, a: Arch, d: Day)
    requires ValidDay(a.day) && ValidDay(d) && a.day != d
    ensures IndexIn(FileName(base, a), Needle(StemOf(base), d)) == 0
  {
    hide DateTag, Dec, Atoi;
    NameStarts(base, a);
    TagsDiffer(a.day, d);
    var name, stem := FileName(base, a), StemOf(base);
    var mine, other := Needle(stem, a.day), Needle(stem, d);
    assert mine[|stem| + 1..|stem| + 11] == DateTag(a.day) && other[|stem| + 1..|stem| + 11] == DateTag(d);
    assert |mine| == |other| && mine != other;
  }

  /** The scan passes over the active file. */
  lemma ActiveHasNoIndex(base: string, d: Day)
    requires ValidDay(d)
    ensures IndexIn(base, Needle(StemOf(base), d)) == 0
  {
    hide DateTag, Atoi;
    TagsDiffer(d, d);
    var stem, needle := StemOf(base), Needle(StemOf(base), d);
    assert needle[|needle| - 1] == '.' && |needle| == |stem| + 12;
    assert |needle| <= |base| ==> base[|stem| + 11] != '.';
  }

  /** All indices on the shelf, and all that a scan reads off a name that is no backup,
    * are below `top`. */
  ghost predicate Below(base: string, files: map<string, File>, shelf: seq<Arch>, top: nat) {
    && 0 < top && IndicesBelow(shelf, top)
    && forall n, d :: n in files && n != base && !IsBackup(base, n) && ValidDay(d) ==>
                        IndexIn(n, Needle(StemOf(base), d)) < top
  }

  /** Every directory has such a bound. */
  lemma {:induction false} TopExists(base: string, names: set<string>) returns (top: nat)
    ensures forall n, d :: n in names && ValidDay(d) ==> IndexIn(n, Needle(StemOf(base), d)) < top
    decreases |names|
  {
    hide Atoi, DateTag, StemOf;
    top := 1;
    if names != {} {
      var n :| n in names;
      var rest := TopExists(base, names - {n});
      var k := |StemOf(base)| + 12;
      var found := if k <= |n| then Atoi(n[k..]) else 0;
      top := rest + (if found > 0 then found + 1 else 1);
      forall m, d | m in names && ValidDay(d) ensures IndexIn(m, Needle(StemOf(base), d)) < top {
        if m == n {
          TagsDiffer(d, d);
          assert |Needle(StemOf(base), d)| == k;
        } else {
          assert m in names - {n};
        }
      }
    }
  }

  lemma BelowSame(base: string, f: map<string, File>, g: map<string, File>, shelf: seq<Arch>, top: nat)
    requires Below(base, f, shelf, top) && OthersSame(base, f, g)
    ensures Below(base, g, shelf, top)
  {
    hide IsBackup, IndexIn, Needle;
  }

  lemma BelowGrows(base: string, files: map<string, File>, shelf: seq<Arch>, a: Arch, top: nat)
    requires Below(base, files, shelf, top) && a.index <= top
    ensures Below(base, files, shelf + [a], top + 1) && Below(base, files, shelf, top + 1)
  {
    hide IsBackup, IndexIn, Needle;
  }

  predicate IndicesBelow(shelf: seq<Arch>, top: nat) {
    forall i :: 0 <= i < |shelf| ==> shelf[i].index < top
  }

  lemma {:induction false} CompressKeepsBelow(shelf: seq<Arch>, k: nat, top: nat)
    requires IndicesBelow(shelf, top)
    ensures IndicesBelow(Compress(shelf, k), top)
  {
    if k != 0 && shelf != [] {
      CompressKeepsBelow(shelf[1..], if shelf[0].gz then k else k - 1, top);
    }
  }

  lemma {:induction false} DropKeepsBelow(shelf: seq<Arch>, gz: bool, k: nat, top: nat)
    requires IndicesBelow(shelf, top)
    ensures IndicesBelow(DropOldest(shelf, gz, k), top)
  {
    if k != 0 && shelf != [] {
      DropKeepsBelow(shelf[1..], gz, if shelf[0].gz == gz then k - 1 else k, top);
    }
  }

  lemma BelowRetain(base: string, files: map<string, File>, cfg: Config, shelf: seq<Arch>, top: nat)
    requires Below(base, files, shelf, top)
    ensures Below(base, files, Retain(cfg, shelf), top)
  {
    hide IsBackup, IndexIn, Needle, Compress, DropOldest;
    var k := Excess(CountPlain(shelf), cfg.maxBackups);
    CompressKeepsBelow(shelf, k, top);
    DropKeepsBelow(shelf, false, k, top);
    var s := AfterCompression(cfg, shelf);
    DropKeepsBelow(s, true, Excess(CountGz(s), GzLimit(cfg)), top);
  }

  /** The scan's index exceeds what is there by one at most. */
  lemma ScanStaysBelow(base: string, files: map<string, File>, listing: seq<string>,
                       shelf: seq<Arch>, d: Day, index: nat, top: nat)
    requires Holds(base, files, shelf) && Ascending(shelf) && Below(base, files, shelf, top) && ValidDay(d)
    requires forall n :: n in listing ==> n in files
    requires index == 1 || exists k :: (0 <= k < |listing|
                && IndexIn(listing[k], Needle(StemOf(base), d)) == index - 1)
    ensures index <= top
  {
    hide IndexIn, Needle, Key, IsBackup, FileFor, ArchiveName;
    if index != 1 {
      var k :| 0 <= k < |listing| && IndexIn(listing[k], Needle(StemOf(base), d)) == index - 1;
      var n := listing[k];
      ActiveHasNoIndex(base, d);
      if n != base && IsBackup(base, n) {
        assert n in Backups(base, files);
        var i :| 0 <= i < |shelf| && FileName(base, shelf[i]) == n;
        if shelf[i].day == d {
          ScanReadsIndex(StemOf(base), ExtensionOf(base), d, shelf[i].index, shelf[i].gz);
        } else {
          OtherDaysIndex(base, shelf[i], d);
        }
      }
    }
  }

  /** A new index makes a new name. */
  lemma NewIndexNewName(base: string, files: map<string, File>, shelf: seq<Arch>, a: Arch)
    requires Holds(base, files, shelf) && Ascending(shelf) && ValidDay(a.day)
    requires IndexIsNew(shelf, a.day, a.index)
    ensures FileName(base, a) !in files
  {
    hide FileName, FileFor, IsBackup;
    if FileName(base, a) in files {
      NameIsBackup(base, a);
      BackupIsListed(base, files, a);
      var i :| 0 <= i < |shelf| && FileName(base, shelf[i]) == FileName(base, a);
      NamesDiffer(base, shelf[i], a);
      KeyOrder(shelf[i].day, shelf[i].index, a.day, a.index);
      KeyOrder(a.day, a.index, shelf[i].day, shelf[i].index);
    }
  }

  lemma BackupIsListed(base: string, files: map<string, File>, a: Arch)
    requires FileName(base, a) in files && ValidDay(a.day)
    ensures FileName(base, a) in Backups(base, files)
  {
    hide FileName, MatchArchive;
    NameIsBackup(base, a);
  }

  // ---- Renaming ----

  /** Renaming the active file adds the newest archive. */
  lemma RenameHolds(base: string, files: map<string, File>, shelf: seq<Arch>, a: Arch)
    requires Holds(base, files, shelf) && ValidDay(a.day) && !a.gz
    requires base in files && files[base] == FileFor(a) && FileName(base, a) !in files
    ensures Holds(base, files[FileName(base, a) := files[base]] - {base}, shelf + [a])
  {
    hide FileName, FileFor, IsBackup;
    ActiveIsNoBackup(base);
    HoldsSame(base, files, files - {base}, shelf);
    assert shelf + [] == shelf && shelf + [a] + [] == shelf + [a];
    assert NamesOf(base, shelf) == Backups(base, files);
    HoldsAdd(base, files - {base}, shelf, a, []);
    assert files[FileName(base, a) := files[base]] - {base} == (files - {base})[FileName(base, a) := FileFor(a)];
  }

  /** A rename onto a taken name replaces the archive there, and one onto a name with an
    * old index puts the newest archive before older ones. So a successful rename leaves a
    * directory that holds the old archives and the new one, in the order of their keys,
    * if and only if its index is new. */
  lemma RenameHoldsExactly(base: string, files: map<string, File>, shelf: seq<Arch>, a: Arch)
    requires Holds(base, files, shelf) && Ascending(shelf) && NotAfter(shelf, a.day)
    requires ValidDay(a.day) && !a.gz && base in files && files[base] == FileFor(a)
    ensures Holds(base, files[FileName(base, a) := files[base]] - {base}, shelf + [a]) && Ascending(shelf + [a])
            <==> IndexIsNew(shelf, a.day, a.index)
  {
    hide Holds, FileName, FileFor, IsBackup, KeyOf;
    if IndexIsNew(shelf, a.day, a.index) {
      NewIndexNewName(base, files, shelf, a);
      RenameHolds(base, files, shelf, a);
      forall i | 0 <= i < |shelf| ensures Key(shelf[i]) < Key(a) {
        NewestKey(shelf[i], a, a.day);
      }
    } else {
      var more := shelf + [a];
      assert more[|shelf|] == a;
      if a.index < INDEX_SPAN {
        var i :| 0 <= i < |shelf| && shelf[i].day == a.day && shelf[i].index >= a.index;
        KeyOrder(shelf[i].day, shelf[i].index, a.day, a.index);
        assert more[i] == shelf[i] && !(Key(more[i]) < Key(more[|shelf|]));
      }
    }
  }

  /** Every archive has a file of its own. */
  ghost predicate OwnFiles(base: string, shelf: seq<Arch>) {
    forall i, j :: 0 <= i < j < |shelf| ==> FileName(base, shelf[i]) != FileName(base, shelf[j])
  }

  /** No archive is lost in a rename if and only if the chosen name was free. */
  lemma RenameKeepsFilesExactly(base: string, files: map<string, File>, shelf: seq<Arch>, a: Arch)
    requires Holds(base, files, shelf) && OwnFiles(base, shelf) && ValidDay(a.day) && !a.gz
    requires base in files && files[base] == FileFor(a)
    ensures Holds(base, files[FileName(base, a) := files[base]] - {base}, shelf + [a])
            && OwnFiles(base, shelf + [a])
            <==> FileName(base, a) !in files
  {
    hide FileName, FileFor, IsBackup;
    if FileName(base, a) in files {
      BackupIsListed(base, files, a);
      var i :| 0 <= i < |shelf| && FileName(base, shelf[i]) == FileName(base, a);
      assert (shelf + [a])[i] == shelf[i] && (shelf + [a])[|shelf|] == a;
    } else {
      RenameHolds(base, files, shelf, a);
      forall i | 0 <= i < |shelf| ensures FileName(base, shelf[i]) != FileName(base, a) {
        assert FileName(base, shelf[i]) in files;
      }
    }
  }

  /** An unreadable directory looks empty to the scan, which then gives index 1: if the day
    * has a plain archive of that index, the name is taken and its contents are lost. */
  lemma BlindScanOverwrites(base: string, files: map<string, File>, shelf: seq<Arch>, k: nat, a: Arch)
    requires Holds(base, files, shelf) && OwnFiles(base, shelf) && ValidDay(a.day) && !a.gz
    requires base in files && files[base] == FileFor(a)
    requires k < |shelf| && !shelf[k].gz && shelf[k].day == a.day && shelf[k].index == 1 == a.index
    ensures var after := files[FileName(base, a) := files[base]] - {base};
            && !(Holds(base, after, shelf + [a]) && OwnFiles(base, shelf + [a]))
            && after[FileName(base, shelf[k])] == FileFor(a)
            && Backups(base, after) == NamesOf(base, shelf)
  {
    hide FileFor, IsBackup, ArchiveName;
    assert FileName(base, shelf[k]) == FileName(base, a);
    RenameKeepsFilesExactly(base, files, shelf, a);
    ActiveIsNoBackup(base);
    BackupIsListed(base, files, a);
    var after := files[FileName(base, a) := files[base]] - {base};
    assert Backups(base, after) == Backups(base, files);
  }

  // ---- What an operator finds in the directory ----

  /** The unpacked contents of the named files, one after the other. */
  function Contents(files: map<string, File>, names: seq<string>): string {
    if names == [] then "" else Contents(files, names[..|names| - 1]) + DataOf(files, names[|names| - 1])
  }

  /** Nothing when there is no such file. */
  function DataOf(files: map<string, File>, name: string): string {
    if name in files then files[name].data else ""
  }

  /** The key that the cleanup parses from the name of a backup of `base`. */
  function KeyInName(base: string, name: string): int {
    var prefix := StemOf(base) + ".";
    if |prefix| <= |name| then OrderKey(name, prefix, 0) else 0
  }

  function ShelfNames(base: string, shelf: seq<Arch>): (names: seq<string>)
    ensures |names| == |shelf|
    ensures forall i :: 0 <= i < |names| ==> names[i] == FileName(base, shelf[i])
  {
    seq(|shelf|, i requires 0 <= i < |shelf| => FileName(base, shelf[i]))
  }

  lemma {:induction false} ContentsOfShelf(base: string, files: map<string, File>, shelf: seq<Arch>)
    requires forall i :: 0 <= i < |shelf| ==>
                           FileName(base, shelf[i]) in files && files[FileName(base, shelf[i])] == FileFor(shelf[i])
    ensures Contents(files, ShelfNames(base, shelf)) == Bytes(Content(shelf))
  {
    hide FileName, Bytes;
    NoBytesAtAll();
    if shelf != [] {
      var k := |shelf| - 1;
      assert ShelfNames(base, shelf)[..k] == ShelfNames(base, shelf[..k]);
      ContentsOfShelf(base, files, shelf[..k]);
      BytesConcat(Content(shelf[..k]), shelf[k].data);
    }
  }

  lemma NoBytesAtAll()
    ensures Bytes([]) == ""
  {
  }

  /** The backups in the directory, in the order of the keys parsed from their names. */
  ghost predicate InOrder(base: string, files: map<string, File>, names: seq<string>) {
    && (forall n :: n in names <==> n in Backups(base, files))
    && (forall i, j :: 0 <= i < j < |names| ==> KeyInName(base, names[i]) < KeyInName(base, names[j]))
  }

  /** What is read: the backups, unpacked, and then the active file. */
  function Found(base: string, files: map<string, File>, names: seq<string>): string {
    Contents(files, names) + DataOf(files, base)
  }

  /** Reading puts the files one behind the other, the active one last. */
  lemma ReadingExactly(base: string, files: map<string, File>, a: seq<string>, b: seq<string>, n: string)
    ensures Found(base, files, a + b) == Contents(files, a) + Found(base, files, b)
    ensures Found(base, files, []) == if base in files then files[base].data else ""
    ensures n in files ==> Contents(files, [n]) == files[n].data
  {
    hide Contents;
    ContentsJoin(files, a, b);
    ContentsOfOne(files, n);
  }

  lemma ContentsOfOne(files: map<string, File>, n: string)
    ensures Contents(files, []) == ""
    ensures n in files ==> Contents(files, [n]) == files[n].data
  {
    hide IsBackup, FileName;
    assert [n][..0] == [];
  }

  lemma {:induction false} ContentsJoin(files: map<string, File>, a: seq<string>, b: seq<string>)
    ensures Contents(files, a + b) == Contents(files, a) + Contents(files, b)
    decreases |b|
  {
    if b == [] {
      assert a + b == a;
    } else {
      var m := |b| - 1;
      assert (a + b)[..|a| + m] == a + b[..m];
      ContentsJoin(files, a, b[..m]);
    }
  }

  // ---- Renames and cleanups that tear the stream ----

  /** The newest archive is read last, when it has the greatest key. */
  lemma NewestIsLast(base: string, files: map<string, File>, shelf: seq<Arch>, a: Arch, names: seq<string>)
    requires Ascending(shelf) && shelf != [] && InRange(a) && Key(a) < Key(shelf[|shelf| - 1])
    requires Backups(base, files) == NamesOf(base, shelf) + {FileName(base, a)}
    requires InOrder(base, files, names)
    ensures names != [] && names[|names| - 1] == FileName(base, shelf[|shelf| - 1])
  {
    hide FileName, Backups, KeyInName, Key;
    var y := shelf[|shelf| - 1];
    NameListed(base, shelf, |shelf| - 1);
    var j :| 0 <= j < |names| && names[j] == FileName(base, y);
    NameKey(base, y);
    var last := names[|names| - 1];
    assert last in Backups(base, files);
    if last == FileName(base, a) {
      NameKey(base, a);
    } else {
      var i :| 0 <= i < |shelf| && FileName(base, shelf[i]) == last;
      NameKey(base, shelf[i]);
    }
    assert KeyInName(base, last) <= KeyInName(base, names[j]);
  }

  lemma NameKey(base: string, a: Arch)
    requires ValidDay(a.day)
    ensures KeyInName(base, FileName(base, a)) == Key(a)
  {
    hide FileName, OrderKey, Key;
    NameIsKeyed(base, a, 0);
  }

  lemma LastOfContents(files: map<string, File>, names: seq<string>)
    requires names != [] && DataOf(files, names[|names| - 1]) != ""
    ensures var found, data := Contents(files, names), DataOf(files, names[|names| - 1]);
            found != "" && found[|found| - 1] == data[|data| - 1]
  {
  }

  /** A rename to an old index tears the stream: some archive of a greater key is then
    * read after the newest bytes, so what is found is no suffix of what was written,
    * unless that archive happens to end in the same byte. */
  lemma OldIndexTearsStream(base: string, files: map<string, File>, shelf: seq<Arch>, a: Arch,
                            names: seq<string>, stream: string)
    requires Holds(base, files, shelf) && Ascending(shelf) && shelf != [] && InRange(a) && !a.gz
    requires base in files && files[base] == FileFor(a) && Key(a) < Key(shelf[|shelf| - 1])
    requires IsSuffix(Bytes(a.data), stream)
    requires var old', new' := Bytes(shelf[|shelf| - 1].data), Bytes(a.data);
             old' != "" && new' != "" && old'[|old'| - 1] != new'[|new'| - 1]
    requires InOrder(base, files[FileName(base, a) := files[base]] - {base}, names)
    ensures !IsSuffix(Found(base, files[FileName(base, a) := files[base]] - {base}, names), stream)
  {
    hide FileName, KeyInName, Key, IsBackup, Contents, Bytes, InOrder, NamesOf;
    var y, after := shelf[|shelf| - 1], files[FileName(base, a) := files[base]] - {base};
    BackupsAfterRename(base, files, shelf, a);
    NewestIsLast(base, after, shelf, a, names);
    NameKey(base, y);
    NameKey(base, a);
    ActiveIsNoBackup(base);
    NameListed(base, shelf, |shelf| - 1);
    assert FileName(base, y) in Backups(base, files);
    assert after[FileName(base, y)] == files[FileName(base, y)] == FileFor(y);
    LastOfContents(after, names);
    var found := Found(base, after, names);
    assert found == Contents(after, names);
    assert stream != "" && stream[|stream| - 1] == Bytes(a.data)[|Bytes(a.data)| - 1];
    assert found[|found| - 1] != stream[|stream| - 1];
  }

  lemma BackupsAfterRename(base: string, files: map<string, File>, shelf: seq<Arch>, a: Arch)
    requires Holds(base, files, shelf) && ValidDay(a.day) && base in files
    ensures Backups(base, files[FileName(base, a) := files[base]] - {base})
            == NamesOf(base, shelf) + {FileName(base, a)}
  {
    hide FileName, FileFor, MatchArchive;
    NameIsBackup(base, a);
    ActiveIsNoBackup(base);
  }

  /** An unreadable directory makes this happen: the scan of an empty listing gives index
    * 1, while the day has an archive of a higher index. */
  lemma BlindScanTearsStream(base: string, files: map<string, File>, shelf: seq<Arch>, a: Arch,
                             names: seq<string>, stream: string)
    requires Holds(base, files, shelf) && Ascending(shelf) && shelf != [] && InRange(a) && !a.gz
    requires base in files && files[base] == FileFor(a)
    requires shelf[|shelf| - 1].day == a.day && shelf[|shelf| - 1].index > 1 == a.index
    requires IsSuffix(Bytes(a.data), stream)
    requires var old', new' := Bytes(shelf[|shelf| - 1].data), Bytes(a.data);
             old' != "" && new' != "" && old'[|old'| - 1] != new'[|new'| - 1]
    requires InOrder(base, files[FileName(base, a) := files[base]] - {base}, names)
    ensures !IndexIsNew(shelf, a.day, a.index)
    ensures !IsSuffix(Found(base, files[FileName(base, a) := files[base]] - {base}, names), stream)
  {
    hide FileName, Holds, FileFor, Bytes, InOrder, Found, KeyOf;
    var y := shelf[|shelf| - 1];
    KeyOrder(a.day, a.index, y.day, y.index);
    OldIndexTearsStream(base, files, shelf, a, names, stream);
  }

  /** A directory that holds a shelf, in order, is read as its contents. */
  lemma ShelfInOrder(base: string, files: map<string, File>, shelf: seq<Arch>)
    requires Holds(base, files, shelf) && Ascending(shelf)
    ensures InOrder(base, files, ShelfNames(base, shelf))
    ensures Contents(files, ShelfNames(base, shelf)) == Bytes(Content(shelf))
  {
    hide FileName, Bytes, IsBackup, KeyInName, Key, FileFor;
    var names := ShelfNames(base, shelf);
    forall i | 0 <= i < |names| ensures KeyInName(base, names[i]) == Key(shelf[i]) {
      NameKey(base, shelf[i]);
    }
    ContentsOfShelf(base, files, shelf);
    assert forall n :: n in names <==> n in NamesOf(base, shelf);
  }

  // ---- A cleanup that does not see everything ----

  lemma {:induction false} VisibleTail(base: string, x: Arch, rest: seq<Arch>)
    requires Ascending([x] + rest)
    ensures Visible(base, [x] + rest, {FileName(base, x)}) == rest
  {
    hide FileName, Ascending;
    var all, n := [x] + rest, |rest| - 1;
    if rest == [] {
      assert all[..0] == [];
    } else {
      assert all[..|all| - 1] == [x] + rest[..n] && all[|all| - 1] == rest[n];
      AscendingPrefix(all, |all| - 1);
      NamesDistinct(base, all, 0, |all| - 1);
      VisibleTail(base, x, rest[..n]);
    }
  }

  lemma AscendingPrefix(shelf: seq<Arch>, n: nat)
    requires Ascending(shelf) && n <= |shelf|
    ensures Ascending(shelf[..n])
  {
  }

  lemma RetainAfter(cfg: Config, x: Arch, rest: seq<Arch>)
    requires Ascending([x] + rest) && GzFirst(rest) && (!cfg.zlib ==> CountGz(rest) == 0)
    ensures Ascending([x] + Retain(cfg, rest))
  {
    hide Retain, CountGz, GzFirst, KeyOf;
    var all := [x] + rest;
    var lo, mid := RetainIsSuffix(cfg, rest);
    var kept := Retain(cfg, rest);
    assert forall i :: 0 <= i < |kept| ==> kept[i].day == rest[lo + i].day && kept[i].index == rest[lo + i].index;
    AscendingThinned(all, [x] + kept, lo);
  }

  /** An ascending shelf stays so without the archives behind the first. */
  lemma AscendingThinned(all: seq<Arch>, r: seq<Arch>, lo: nat)
    requires Ascending(all) && |all| == lo + |r| && |r| > 0 && r[0] == all[0]
    requires forall i :: 0 < i < |r| ==> r[i].day == all[lo + i].day && r[i].index == all[lo + i].index
    ensures Ascending(r)
  {
    hide KeyOf;
    forall i, j | 0 <= i < j < |r| ensures Key(r[i]) < Key(r[j]) {
      assert Key(all[if i == 0 then 0 else lo + i]) < Key(all[lo + j]);
    }
  }

  /** A cleanup that did not get to see the oldest archive deletes newer ones in its
    * place: when anything is deleted and the first byte does not occur again, what is
    * left is no suffix of what was written. */
  lemma PartialCleanupTearsStream(base: string, cfg: Config, before: map<string, File>, after: map<string, File>,
                                  mtimes: map<string, int>, maxDays: int, now: int, x: Arch, rest: seq<Arch>)
    returns (names: seq<string>)
    requires Holds(base, before, [x] + rest) && Ascending([x] + rest) && maxDays <= 0
    requires GzFirst(rest) && (!cfg.zlib ==> CountGz(rest) == 0)
    requires var hidden := {FileName(base, x)};
             && Holds(base, after - hidden, Cleaned(base, cfg, mtimes, maxDays, now, [x] + rest, hidden))
             && Untouched(View(hidden, before), after)
    requires Bytes(x.data) != "" && Bytes(Content(Retain(cfg, rest))) != Bytes(Content(rest))
    requires var written := Bytes(Content([x] + rest)) + DataOf(after, base);
             forall i :: 0 < i < |written| ==> written[i] != written[0]
    ensures InOrder(base, after, names)
    ensures !IsSuffix(Found(base, after, names), Bytes(Content([x] + rest)) + DataOf(after, base))
  {
    hide FileName, Holds, Ascending, GzFirst, CountGz, Retain, Content, Bytes, FileFor, InOrder, Contents, DataOf;
    var kept := Retain(cfg, rest);
    VisibleTail(base, x, rest);
    HiddenIsBack(base, before, after, x, rest, kept);
    RetainAfter(cfg, x, rest);
    names := ShelfNames(base, [x] + kept);
    ShelfInOrder(base, after, [x] + kept);
    ReadFront(x, rest);
    ReadFront(x, kept);
    RetainKeepsContent(cfg, rest);
    BytesSuffix(Content(kept), Content(rest));
    ProperlyShorter(Bytes(x.data), Bytes(Content(kept)), Bytes(Content(rest)), DataOf(after, base));
  }

  lemma ReadFront(x: Arch, rest: seq<Arch>)
    ensures Bytes(Content([x] + rest)) == Bytes(x.data) + Bytes(Content(rest))
  {
    hide Bytes, Content;
    ContentConcat([x], rest);
    ContentOne(x);
    BytesConcat(x.data, Content(rest));
  }

  lemma ProperlyShorter(x: string, kept: string, rest: string, active: string)
    requires x != "" && IsSuffix(kept, rest) && kept != rest
    requires var written := x + rest + active; forall i :: 0 < i < |written| ==> written[i] != written[0]
    ensures !IsSuffix(x + kept + active, x + rest + active)
  {
    var found, written := x + kept + active, x + rest + active;
    assert |kept| < |rest|;
    assert found[0] == x[0] == written[0];
    var k := |written| - |found|;
    assert written[k..][0] == written[k];
  }

  lemma HiddenIsBack(base: string, before: map<string, File>, after: map<string, File>, x: Arch, rest: seq<Arch>,
                     kept: seq<Arch>)
    requires Holds(base, before, [x] + rest) && Ascending([x] + rest)
    requires Holds(base, after - {FileName(base, x)}, kept)
    requires Untouched(View({FileName(base, x)}, before), after)
    ensures Holds(base, after, [x] + kept)
  {
    hide FileName, FileFor, IsBackup;
    var n, shown := FileName(base, x), after - {FileName(base, x)};
    assert ([x] + rest)[0] == x;
    NameListed(base, [x] + rest, 0);
    assert n in before && before[n] == FileFor(x);
    assert n in View({n}, before).hidden;
    assert n !in NamesOf(base, kept) by {
      assert NamesOf(base, kept) == Backups(base, shown);
    }
    assert [] + kept == kept && [] + [x] + kept == [x] + kept;
    HoldsAdd(base, shown, [], x, kept);
    assert shown[n := FileFor(x)] == after;
  }

  // ---- Inputs on which the stream is torn ----

  lemma OneByte(c: char, sec: int)
    ensures Bytes([Chunk([c], sec)]) == [c]
  {
    assert [Chunk([c], sec)][..0] == [];
  }

  lemma HoldsNone(base: string, files: map<string, File>)
    requires forall n :: n in files ==> n == base
    ensures Holds(base, files, [])
  {
    hide MatchArchive;
    ActiveIsNoBackup(base);
  }

  /** Put an archive of the least key into the directory. */
  lemma HoldsFront(base: string, files: map<string, File>, a: Arch, rest: seq<Arch>)
    requires Holds(base, files, rest) && Ascending([a] + rest)
    ensures Holds(base, files[FileName(base, a) := FileFor(a)], [a] + rest)
  {
    hide FileName, FileFor, IsBackup, NamesOf, Ascending, Holds;
    assert [] + [a] + rest == [a] + rest && [] + rest == rest;
    NameNotAmongOthers(base, [], a, rest);
    assert ([a] + rest)[0] == a;
    DaysAreValid([a] + rest, 0);
    HoldsAdd(base, files, [], a, rest);
  }

  /** One archive of index 3, an unreadable directory: the bytes "ab" become "ba". */
  lemma BlindScanExample(base: string, d: Day) returns (files: map<string, File>, names: seq<string>)
    requires ValidDay(d)
    ensures var x, a := Arch(d, 3, false, [Chunk("a", 1)]), Arch(d, 1, false, [Chunk("b", 2)]);
            && Holds(base, files, [x]) && base in files && files[base] == FileFor(a)
            && var after := files[FileName(base, a) := files[base]] - {base};
               InOrder(base, after, names) && !IsSuffix(Found(base, after, names), "ab")
  {
    hide FileName, MatchArchive, InOrder, Found, Bytes;
    var x, a := Arch(d, 3, false, [Chunk("a", 1)]), Arch(d, 1, false, [Chunk("b", 2)]);
    OneByte('a', 1);
    OneByte('b', 2);
    ActiveIsNoBackup(base);
    NameIsBackup(base, x);
    NameIsBackup(base, a);
    HoldsNone(base, map[base := FileFor(a)]);
    assert [x] + [] == [x];
    HoldsFront(base, map[base := FileFor(a)], x, []);
    files := map[base := FileFor(a)][FileName(base, x) := FileFor(x)];
    HoldsSame(base, files, files - {base}, [x]);
    assert [a] + [x] == [a, x];
    HoldsFront(base, files - {base}, a, [x]);
    var after := files[FileName(base, a) := files[base]] - {base};
    assert (files - {base})[FileName(base, a) := FileFor(a)] == after;
    ShelfInOrder(base, after, [a, x]);
    names := ShelfNames(base, [a, x]);
    BlindScanTearsStream(base, files, [x], a, names, "ab");
  }

  /** Three compressed archives of which one may stay, and the oldest hidden: "abc"
    * becomes "ac". */
  lemma PartialCleanupExample(base: string, cfg: Config, d: Day)
    returns (before: map<string, File>, after: map<string, File>, names: seq<string>)
    requires ValidDay(d) && cfg.zlib && cfg.maxBackups <= 0 && GzLimit(cfg) == 1
    ensures var x := Arch(d, 1, true, [Chunk("a", 1)]);
            var rest := [Arch(d, 2, true, [Chunk("b", 2)]), Arch(d, 3, true, [Chunk("c", 3)])];
            var hidden := {FileName(base, x)};
            && Holds(base, before, [x] + rest) && Untouched(View(hidden, before), after)
            && Holds(base, after - hidden, Cleaned(base, cfg, map[], 0, 0, [x] + rest, hidden))
            && InOrder(base, after, names) && !IsSuffix(Found(base, after, names), "abc")
  {
    hide FileName, FileFor, MatchArchive, InOrder, Found, Bytes, Retain, Content, Holds, Contents, Cleaned, Ascending,
         Untouched, GzFirst, CountGz, NamesOf, Backups;
    var x := Arch(d, 1, true, [Chunk("a", 1)]);
    var y, z := Arch(d, 2, true, [Chunk("b", 2)]), Arch(d, 3, true, [Chunk("c", 3)]);
    var rest := [y, z];
    assert [x] + rest == [x, y, z];
    SameDayAscends(x, y, z);
    before, after := ThreeArchives(base, x, y, z);
    OnlyNewestStays(cfg, y, z);
    CleanedButFirst(base, cfg, map[], 0, 0, x, rest);
    BytesOfThree(x, y, z);
    names := PartialCleanupTearsStream(base, cfg, before, after, map[], 0, 0, x, rest);
  }

  lemma SameDayAscends(x: Arch, y: Arch, z: Arch)
    requires ValidDay(x.day) && x.day == y.day == z.day && x.index < y.index < z.index < INDEX_SPAN
    ensures Ascending([x, y, z])
  {
  }

  lemma CleanedButFirst(base: string, cfg: Config, mtimes: map<string, int>, maxDays: int, now: int,
                        x: Arch, rest: seq<Arch>)
    requires Ascending([x] + rest) && maxDays <= 0
    ensures Cleaned(base, cfg, mtimes, maxDays, now, [x] + rest, {FileName(base, x)}) == Retain(cfg, rest)
  {
    hide FileName, Ascending, Retain, Visible;
    VisibleTail(base, x, rest);
  }

  lemma BytesOfThree(x: Arch, y: Arch, z: Arch)
    requires x.data == [Chunk("a", 1)] && y.data == [Chunk("b", 2)] && z.data == [Chunk("c", 3)]
    ensures Bytes(x.data) == "a" && Bytes(Content([z])) == "c" && Bytes(Content([y, z])) == "bc"
    ensures Bytes(Content([x] + [y, z])) == "abc"
  {
    hide Bytes, Content;
    OneByte('a', 1);
    OneByte('b', 2);
    OneByte('c', 3);
    ContentOne(z);
    assert [y] + [z] == [y, z];
    ReadFront(y, [z]);
    ReadFront(x, [y, z]);
  }

  /** A directory of three archives, and the same without the middle one. */
  lemma ThreeArchives(base: string, x: Arch, y: Arch, z: Arch)
    returns (before: map<string, File>, after: map<string, File>)
    requires Ascending([x, y, z])
    ensures Holds(base, before, [x, y, z]) && Untouched(View({FileName(base, x)}, before), after)
    ensures Holds(base, after - {FileName(base, x)}, [z]) && DataOf(after, base) == ""
  {
    hide FileName, FileFor, MatchArchive, Holds, DataOf, Key;
    HoldsNone(base, map[]);
    assert [z] + [] == [z] && [y] + [z] == [y, z] && [x] + [y, z] == [x, y, z] && [x] + [z] == [x, z];
    assert Ascending([z]) && Ascending([y, z]) && Ascending([x, z]) by {
      ThreeAscend(x, y, z);
    }
    HoldsFront(base, map[], z, []);
    var onlyZ := map[FileName(base, z) := FileFor(z)];
    assert map[][FileName(base, z) := FileFor(z)] == onlyZ;
    HoldsFront(base, onlyZ, y, [z]);
    var yz := onlyZ[FileName(base, y) := FileFor(y)];
    HoldsFront(base, yz, x, [y, z]);
    before := yz[FileName(base, x) := FileFor(x)];
    HoldsFront(base, onlyZ, x, [z]);
    after := onlyZ[FileName(base, x) := FileFor(x)];
    NamesDistinct(base, [x, z], 0, 1);
    assert after - {FileName(base, x)} == onlyZ;
    assert [x, z][0] == x && [x, z][1] == z;
    NothingActive(base, after, [x, z]);
  }

  lemma ThreeAscend(x: Arch, y: Arch, z: Arch)
    requires Ascending([x, y, z])
    ensures Ascending([z]) && Ascending([y, z]) && Ascending([x, z])
  {
    hide Key;
    var s := [x, y, z];
    assert s[0] == x && s[1] == y && s[2] == z;
    assert Key(s[0]) < Key(s[2]) && Key(s[1]) < Key(s[2]);
  }

  lemma OnlyNewestStays(cfg: Config, y: Arch, z: Arch)
    requires cfg.zlib && cfg.maxBackups <= 0 && GzLimit(cfg) == 1 && y.gz && z.gz
    ensures Retain(cfg, [y, z]) == [z] && GzFirst([y, z])
  {
    hide Retain;
    CountCons(y, [z]);
    CountCons(z, []);
    assert [y] + [z] == [y, z] && [z] + [] == [z];
    var lo, mid := ZlibRetain(cfg, [y, z]);
    assert [y, z][1..2] == [z] && z.(gz := true) == z;
  }

  lemma NothingActive(base: string, files: map<string, File>, shelf: seq<Arch>)
    requires Holds(base, files, shelf) && forall n :: n in files ==> n in NamesOf(base, shelf)
    ensures DataOf(files, base) == ""
  {
    hide FileName, FileFor, MatchArchive;
    ActiveIsNoBackup(base);
    assert base !in Backups(base, files);
  }
}
