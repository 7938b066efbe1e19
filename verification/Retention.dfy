/** `hx_rotate_cleanup` of src/hx_clog_rotate.c: collect the backups of one log file into
  * the working set, sort them, then delete by age, compress by count, and cap the
  * compressed ones. */
module Retention {
  import opened ArchiveNames
  import opened BackupFiles
  import opened Common
  import opened Platform
  import opened RotationModel
  import opened WorkingSet

  // ---- Entries and archives ----

  /** The file an entry stands for. */
  function OnDisk(e: Entry): string {
    if e.compressed == 2 then e.name + ".gz" else e.name
  }

  /** What `collect_cb` keeps of a listed name. */
  function EntryOf(base: string, mtimes: map<string, int>, fname: string): Option<Entry> {
    var found := MatchArchive(fname, StemOf(base) + ".", ExtensionOf(base));
    if fname == base || found.None? then None
    else
      var mtime := if fname in mtimes then mtimes[fname] else 0;
      Some(Entry(fname, mtime, OrderKey(fname, StemOf(base) + ".", mtime), if found.value then 1 else 0))
  }

  function Collected(base: string, mtimes: map<string, int>, listing: seq<string>): seq<Entry> {
    if listing == [] then []
    else
      var n := |listing| - 1;
      var e := EntryOf(base, mtimes, listing[n]);
      Collected(base, mtimes, listing[..n]) + (if e.Some? then [e.value] else [])
  }

  /** A live entry names a backup, with the right compressed flag. */
  predicate EntryOk(base: string, e: Entry) {
    e.name != "" ==>
      && (e.compressed == 0 || e.compressed == 1 || e.compressed == 2)
      && MatchArchive(e.name, StemOf(base) + ".", ExtensionOf(base)) == Some(e.compressed == 1)
  }

  predicate EntriesOk(base: string, es: seq<Entry>) {
    forall i :: 0 <= i < |es| ==> EntryOk(base, es[i])
  }

  predicate Depicts(base: string, e: Entry, a: Arch) {
    e.name != "" && (e.compressed != 0) == a.gz && OnDisk(e) == FileName(base, a)
  }

  /** The live entries are the archives of the shelf, in order. */
  ghost predicate Pictures(base: string, es: seq<Entry>, shelf: seq<Arch>) {
    && |Kept(es)| == |shelf|
    && forall i :: 0 <= i < |shelf| ==> Depicts(base, Kept(es)[i], shelf[i])
  }

  lemma OnDiskIsBackup(base: string, e: Entry)
    requires e.name != "" && EntryOk(base, e)
    ensures IsBackup(base, e.name) && IsBackup(base, OnDisk(e))
    ensures e.compressed == 0 ==> IsBackup(base, e.name + ".gz") && EntryOk(base, e.(compressed := 2))
  {
    hide MatchArchive;
    if e.compressed != 1 {
      GzOfBackup(e.name, StemOf(base) + ".", ExtensionOf(base));
    }
  }

  lemma {:induction false} KeptConcat(a: seq<Entry>, b: seq<Entry>)
    ensures Kept(a + b) == Kept(a) + Kept(b)
  {
    if b == [] {
      assert a + b == a;
    } else {
      var n := |b| - 1;
      assert (a + b)[..|a| + n] == a + b[..n];
      KeptConcat(a, b[..n]);
    }
  }

  lemma KeptSingle(e: Entry)
    ensures Kept([e]) == if e.name != "" then [e] else []
  {
    assert [e][..0] == [];
  }

  lemma {:induction false} KeptAll(es: seq<Entry>)
    requires forall i :: 0 <= i < |es| ==> es[i].name != ""
    ensures Kept(es) == es
  {
    if es != [] {
      KeptAll(es[..|es| - 1]);
    }
  }

  lemma PicturesConcat(base: string, es: seq<Entry>, es': seq<Entry>, s: seq<Arch>, s': seq<Arch>)
    requires Pictures(base, es, s) && Pictures(base, es', s')
    ensures Pictures(base, es + es', s + s')
  {
    hide Kept, Depicts;
    KeptConcat(es, es');
  }

  lemma PictureOfOne(base: string, e: Entry, a: Arch)
    ensures e.name == "" ==> Pictures(base, [e], [])
    ensures Depicts(base, e, a) ==> Pictures(base, [e], [a])
  {
    KeptSingle(e);
  }

  lemma PictureOfNone(base: string)
    ensures Pictures(base, [], [])
  {
  }

  /** The first entry of the remaining ones, and the archive it stands for. */
  lemma PictureHead(base: string, es: seq<Entry>, shelf: seq<Arch>)
    requires es != [] && Pictures(base, es, shelf)
    ensures es[0].name == "" ==> Pictures(base, es[1..], shelf)
    ensures es[0].name != "" ==> shelf != [] && Depicts(base, es[0], shelf[0])
                                 && Pictures(base, es[1..], shelf[1..])
  {
    hide Kept, Depicts;
    assert es == [es[0]] + es[1..];
    KeptConcat([es[0]], es[1..]);
    KeptSingle(es[0]);
    var k := Kept(es[1..]);
    if es[0].name == "" {
      assert [] + k == k;
    } else {
      assert forall i :: 0 <= i < |k| ==> k[i] == Kept(es)[i + 1];
    }
  }

  /** Number of live entries with this compressed flag. */
  function Flagged(es: seq<Entry>, gz: bool): nat {
    if es == [] then 0
    else
      var n := |es| - 1;
      Flagged(es[..n], gz) + (if es[n].name != "" && (es[n].compressed != 0) == gz then 1 else 0)
  }

  function CountFlag(shelf: seq<Arch>, gz: bool): nat {
    if gz then CountGz(shelf) else CountPlain(shelf)
  }

  lemma {:induction false} CountFlagSnoc(shelf: seq<Arch>, a: Arch, gz: bool)
    ensures CountFlag(shelf + [a], gz) == CountFlag(shelf, gz) + (if a.gz == gz then 1 else 0)
  {
    if shelf == [] {
      assert [] + [a] == [a];
    } else {
      assert (shelf + [a])[1..] == shelf[1..] + [a];
      CountFlagSnoc(shelf[1..], a, gz);
    }
  }

  lemma PictureLast(base: string, es: seq<Entry>, shelf: seq<Arch>)
    requires es != [] && Pictures(base, es, shelf)
    ensures var n := |es| - 1;
            && (es[n].name == "" ==> Pictures(base, es[..n], shelf))
            && (es[n].name != "" ==> shelf != [] && Depicts(base, es[n], shelf[|shelf| - 1])
                                     && Pictures(base, es[..n], shelf[..|shelf| - 1]))
  {
    hide Depicts;
  }

  lemma NoEntries(base: string, shelf: seq<Arch>)
    requires Pictures(base, [], shelf)
    ensures shelf == []
  {
    assert Kept([]) == [];
  }

  lemma {:induction false} FlaggedIsCount(base: string, es: seq<Entry>, shelf: seq<Arch>, gz: bool)
    requires Pictures(base, es, shelf)
    ensures Flagged(es, gz) == CountFlag(shelf, gz)
  {
    hide Pictures, CountFlag, FileName, OnDisk;
    if es == [] {
      NoEntries(base, shelf);
      CountNothing(gz);
    } else {
      var n := |es| - 1;
      PictureLast(base, es, shelf);
      if es[n].name == "" {
        FlaggedIsCount(base, es[..n], shelf, gz);
      } else {
        var m := |shelf| - 1;
        assert shelf == shelf[..m] + [shelf[m]];
        CountFlagSnoc(shelf[..m], shelf[m], gz);
        FlaggedIsCount(base, es[..n], shelf[..m], gz);
      }
    }
  }

  lemma CountNothing(gz: bool)
    ensures CountFlag([], gz) == 0
  {
  }

  // ---- Progress of a stage ----

  /** `done` holds the archives of the first `i` entries, `rest` those of the others. */
  ghost predicate Progress(base: string, files: map<string, File>, es: seq<Entry>, i: nat,
                           done: seq<Arch>, rest: seq<Arch>)
    requires i <= |es|
  {
    && Holds(base, files, done + rest) && Ascending(done + rest)
    && Pictures(base, es[..i], done) && Pictures(base, es[i..], rest)
  }

  lemma ProgressStart(base: string, files: map<string, File>, es: seq<Entry>, shelf: seq<Arch>)
    requires Holds(base, files, shelf) && Ascending(shelf) && Pictures(base, es, shelf)
    ensures Progress(base, files, es, 0, [], shelf)
  {
    assert [] + shelf == shelf && es[..0] == [] && es[0..] == es;
    PictureOfNone(base);
  }

  lemma ProgressEnd(base: string, files: map<string, File>, es: seq<Entry>, i: nat, done: seq<Arch>, rest: seq<Arch>)
    requires i <= |es| && Progress(base, files, es, i, done, rest)
    ensures Holds(base, files, done + rest) && Ascending(done + rest) && Pictures(base, es, done + rest)
    ensures i == |es| ==> rest == []
  {
    PicturesConcat(base, es[..i], es[i..], done, rest);
    assert es == es[..i] + es[i..];
    if i == |es| {
      assert es[i..] == [];
      assert Kept([]) == [];
    }
  }

  /** An entry that stays as it is. */
  lemma ProgressSkip(base: string, files: map<string, File>, es: seq<Entry>, i: nat, done: seq<Arch>, rest: seq<Arch>)
    returns (done': seq<Arch>, rest': seq<Arch>)
    requires i < |es| && Progress(base, files, es, i, done, rest)
    ensures Progress(base, files, es, i + 1, done', rest')
    ensures es[i].name == "" ==> done' == done && rest' == rest
    ensures es[i].name != "" ==> rest != [] && done' == done + [rest[0]] && rest' == rest[1..]
                                 && Depicts(base, es[i], rest[0])
  {
    hide Pictures, Holds, Ascending, Depicts;
    PictureHead(base, es[i..], rest);
    assert es[i..][1..] == es[i + 1..] && es[i..][0] == es[i];
    assert es[..i + 1] == es[..i] + [es[i]];
    if es[i].name == "" {
      done', rest' := done, rest;
      PictureOfOne(base, es[i], NO_ARCH);
      PicturesConcat(base, es[..i], [es[i]], done, []);
      assert done + [] == done;
    } else {
      done', rest' := done + [rest[0]], rest[1..];
      PictureOfOne(base, es[i], rest[0]);
      PicturesConcat(base, es[..i], [es[i]], done, [rest[0]]);
      assert done + rest == done + [rest[0]] + rest[1..];
    }
  }

  const NO_ARCH := Arch(Day(0, 0, 0), 0, false, [])

  /** An entry whose file was deleted. */
  lemma ProgressDrop(base: string, files: map<string, File>, es: seq<Entry>, i: nat, done: seq<Arch>, rest: seq<Arch>)
    requires i < |es| && Progress(base, files, es, i, done, rest) && es[i].name != ""
    ensures rest != [] && Depicts(base, es[i], rest[0]) && OnDisk(es[i]) in files
    ensures Progress(base, files - {OnDisk(es[i])}, es[i := es[i].(name := "")], i + 1, done, rest[1..])
  {
    hide Pictures, Holds, Ascending;
    PictureHead(base, es[i..], rest);
    assert es[i..][1..] == es[i + 1..] && es[i..][0] == es[i];
    assert done + rest == done + [rest[0]] + rest[1..];
    HoldsDrop(base, files, done, rest[0], rest[1..]);
    AscendingDrop(done, rest[0], rest[1..]);
    PicturesSkip(base, es, i, es[i].(name := ""), done);
  }

  /** A removed entry pictures nothing. */
  lemma PicturesSkip(base: string, es: seq<Entry>, i: nat, e: Entry, done: seq<Arch>)
    requires i < |es| && Pictures(base, es[..i], done) && e.name == ""
    ensures Pictures(base, es[i := e][..i + 1], done)
    ensures es[i := e][i + 1..] == es[i + 1..]
  {
    hide Pictures;
    PictureOfOne(base, e, NO_ARCH);
    PicturesConcat(base, es[..i], [e], done, []);
    assert done + [] == done;
    assert es[i := e][..i + 1] == es[..i] + [e];
  }

  lemma AscendingDrop(done: seq<Arch>, a: Arch, rest: seq<Arch>)
    requires Ascending(done + [a] + rest)
    ensures Ascending(done + rest)
  {
    var s, t := done + [a] + rest, done + rest;
    forall i, j | 0 <= i < j < |t| ensures Key(t[i]) < Key(t[j]) {
      assert Key(s[if i < |done| then i else i + 1]) < Key(s[if j < |done| then j else j + 1]);
    }
    forall i | 0 <= i < |t| ensures ValidDay(t[i].day) && t[i].index < INDEX_SPAN {
      assert t[i] == s[if i < |done| then i else i + 1];
    }
  }

  /** An entry whose file was compressed. */
  lemma ProgressZip(base: string, files: map<string, File>, es: seq<Entry>, i: nat, done: seq<Arch>, rest: seq<Arch>)
    requires i < |es| && Progress(base, files, es, i, done, rest) && es[i].name != "" && es[i].compressed == 0
    ensures rest != [] && !rest[0].gz && es[i].name in files
    ensures var name := es[i].name;
            Progress(base, files[name + ".gz" := File(files[name].data, files[name].zips + 1)] - {name},
                     es[i := es[i].(compressed := 2)], i + 1, done + [rest[0].(gz := true)], rest[1..])
  {
    hide Pictures, Holds, Ascending, FileName;
    PictureHead(base, es[i..], rest);
    assert es[i..][1..] == es[i + 1..] && es[i..][0] == es[i];
    var a, z := rest[0], rest[0].(gz := true);
    assert done + rest == done + [a] + rest[1..];
    HoldsZip(base, files, done, a, rest[1..]);
    AscendingZip(done, a, rest[1..]);
    var e := es[i].(compressed := 2);
    PictureOfOne(base, e, z);
    PicturesConcat(base, es[..i], [e], done, [z]);
    var es' := es[i := e];
    assert es'[..i + 1] == es[..i] + [e] && es'[i + 1..] == es[i + 1..];
  }

  lemma AscendingZip(done: seq<Arch>, a: Arch, rest: seq<Arch>)
    requires Ascending(done + [a] + rest)
    ensures Ascending(done + [a.(gz := true)] + rest)
  {
    var s, t := done + [a] + rest, done + [a.(gz := true)] + rest;
    assert forall i :: 0 <= i < |s| ==> t[i].day == s[i].day && t[i].index == s[i].index;
    assert forall i :: 0 <= i < |s| ==> Key(t[i]) == Key(s[i]);
  }

  // ---- What a cleanup does not see ----

  /** The names that a cleanup did not get to see, and the files it started with. */
  datatype View = View(hidden: set<string>, start: map<string, File>)

  ghost predicate Untouched(view: View, files: map<string, File>) {
    forall n :: n in view.hidden ==>
                  (n in files <==> n in view.start) && (n in files ==> files[n] == view.start[n])
  }

  /** Neither the file of an entry nor the one it would be compressed into is hidden. */
  predicate Seen(e: Entry, hidden: set<string>) {
    e.name != "" ==> OnDisk(e) !in hidden && (e.compressed != 1 ==> e.name + ".gz" !in hidden)
  }

  predicate AllSeen(es: seq<Entry>, hidden: set<string>) {
    forall i :: 0 <= i < |es| ==> Seen(es[i], hidden)
  }

  /** Between two stages: the backups in sight are `shelf`, and the live entries picture
    * it; what is hidden is as it was. */
  ghost predicate Ready(base: string, view: View, files: map<string, File>, es: seq<Entry>, shelf: seq<Arch>) {
    && Holds(base, files - view.hidden, shelf) && Ascending(shelf) && Pictures(base, es, shelf)
    && AllSeen(es, view.hidden) && Untouched(view, files)
  }

  /** In the middle of a stage. */
  ghost predicate Working(base: string, view: View, files: map<string, File>, es: seq<Entry>, i: nat,
                          done: seq<Arch>, rest: seq<Arch>)
    requires i <= |es|
  {
    && Progress(base, files - view.hidden, es, i, done, rest)
    && AllSeen(es, view.hidden) && Untouched(view, files)
  }

  lemma WorkingStart(base: string, view: View, files: map<string, File>, es: seq<Entry>, shelf: seq<Arch>)
    requires Ready(base, view, files, es, shelf)
    ensures Working(base, view, files, es, 0, [], shelf)
  {
    hide Progress, Holds, Pictures, Ascending, AllSeen, Untouched;
    ProgressStart(base, files - view.hidden, es, shelf);
  }

  lemma WorkingEnd(base: string, view: View, files: map<string, File>, es: seq<Entry>, i: nat,
                   done: seq<Arch>, rest: seq<Arch>)
    requires i <= |es| && Working(base, view, files, es, i, done, rest)
    ensures Ready(base, view, files, es, done + rest)
    ensures i == |es| ==> rest == []
  {
    hide Progress, Holds, Pictures, Ascending, AllSeen, Untouched;
    ProgressEnd(base, files - view.hidden, es, i, done, rest);
  }

  lemma WorkingSkip(base: string, view: View, files: map<string, File>, es: seq<Entry>, i: nat,
                    done: seq<Arch>, rest: seq<Arch>)
    returns (done': seq<Arch>, rest': seq<Arch>)
    requires i < |es| && Working(base, view, files, es, i, done, rest)
    ensures Working(base, view, files, es, i + 1, done', rest')
    ensures es[i].name == "" ==> done' == done && rest' == rest
    ensures es[i].name != "" ==> rest != [] && done' == done + [rest[0]] && rest' == rest[1..]
                                 && Depicts(base, es[i], rest[0])
  {
    hide Progress, AllSeen, Untouched, Depicts;
    done', rest' := ProgressSkip(base, files - view.hidden, es, i, done, rest);
  }

  lemma SeenUpdate(es: seq<Entry>, i: nat, e: Entry, hidden: set<string>)
    requires i < |es| && AllSeen(es, hidden) && Seen(e, hidden)
    ensures AllSeen(es[i := e], hidden)
  {
  }

  lemma WorkingDrop(base: string, view: View, files: map<string, File>, es: seq<Entry>, i: nat,
                    done: seq<Arch>, rest: seq<Arch>)
    requires i < |es| && Working(base, view, files, es, i, done, rest) && es[i].name != ""
    ensures rest != [] && Depicts(base, es[i], rest[0]) && OnDisk(es[i]) in files
    ensures Working(base, view, files - {OnDisk(es[i])}, es[i := es[i].(name := "")], i + 1, done, rest[1..])
  {
    hide Progress, Depicts, OnDisk;
    var n := OnDisk(es[i]);
    assert Seen(es[i], view.hidden);
    ProgressDrop(base, files - view.hidden, es, i, done, rest);
    SeenUpdate(es, i, es[i].(name := ""), view.hidden);
    assert (files - {n}) - view.hidden == (files - view.hidden) - {n};
  }

  lemma WorkingZip(base: string, view: View, files: map<string, File>, es: seq<Entry>, i: nat,
                   done: seq<Arch>, rest: seq<Arch>)
    requires i < |es| && Working(base, view, files, es, i, done, rest)
    requires es[i].name != "" && es[i].compressed == 0
    ensures rest != [] && !rest[0].gz && es[i].name in files
    ensures var name := es[i].name;
            Working(base, view, files[name + ".gz" := File(files[name].data, files[name].zips + 1)] - {name},
                    es[i := es[i].(compressed := 2)], i + 1, done + [rest[0].(gz := true)], rest[1..])
  {
    hide Progress;
    var name := es[i].name;
    assert Seen(es[i], view.hidden);
    ProgressZip(base, files - view.hidden, es, i, done, rest);
    SeenUpdate(es, i, es[i].(compressed := 2), view.hidden);
    var zipped := File(files[name].data, files[name].zips + 1);
    assert (files[name + ".gz" := zipped] - {name}) - view.hidden
        == (files - view.hidden)[name + ".gz" := zipped] - {name};
  }

  lemma ReadyCompacted(base: string, view: View, files: map<string, File>, es: seq<Entry>, shelf: seq<Arch>)
    requires EntriesOk(base, es) && Ready(base, view, files, es, shelf)
    ensures Ready(base, view, files, Kept(es), shelf)
  {
    hide Kept, Holds, Ascending, Pictures, EntriesOk, Seen, Untouched;
    CompactKeeps(base, es, shelf);
    KeptLength(es);
    forall i | 0 <= i < |Kept(es)| ensures Seen(Kept(es)[i], view.hidden) {
      assert Kept(es)[i] in es;
    }
  }

  // ---- What the stages compute on the shelf ----

  /** Compress, or without zlib delete, the `k` oldest plain archives. */
  function Squeeze(zlib: bool, shelf: seq<Arch>, k: nat): seq<Arch> {
    if zlib then Compress(shelf, k) else DropOldest(shelf, false, k)
  }

  lemma SqueezeStep(zlib: bool, done: seq<Arch>, rest: seq<Arch>, k: nat)
    requires rest != [] && k > 0
    ensures rest[0].gz ==> done + Squeeze(zlib, rest, k) == done + [rest[0]] + Squeeze(zlib, rest[1..], k)
    ensures !rest[0].gz && zlib ==>
              done + Squeeze(zlib, rest, k) == done + [rest[0].(gz := true)] + Squeeze(zlib, rest[1..], k - 1)
    ensures !rest[0].gz && !zlib ==> done + Squeeze(zlib, rest, k) == done + Squeeze(zlib, rest[1..], k - 1)
  {
  }

  lemma SqueezeEnd(zlib: bool, rest: seq<Arch>, k: nat)
    requires k == 0 || rest == []
    ensures Squeeze(zlib, rest, k) == rest
  {
  }

  lemma DropStep(done: seq<Arch>, rest: seq<Arch>, k: nat)
    requires rest != [] && k > 0
    ensures !rest[0].gz ==> done + DropOldest(rest, true, k) == done + [rest[0]] + DropOldest(rest[1..], true, k)
    ensures rest[0].gz ==> done + DropOldest(rest, true, k) == done + DropOldest(rest[1..], true, k - 1)
  {
  }

  lemma DropEnd(rest: seq<Arch>, k: nat)
    requires k == 0 || rest == []
    ensures DropOldest(rest, true, k) == rest
  {
  }

  function Positive(x: int): nat {
    if x > 0 then x else 0
  }

  // ---- The stages ----

  /** The counting loops: live entries with the given flag. */
  method CountEntries(w: Arrays, gz: bool) returns (count: nat)
    requires w.Valid()
    ensures count == Flagged(w.Entries(), gz)
  {
    count := 0;
    for i := 0 to w.count
      invariant count == Flagged(w.rows[..i], gz)
    {
      assert w.rows[..i + 1][..i] == w.rows[..i];
      if w.names[i] != "" && (w.compressed[i] != 0) == gz {
        count := count + 1;
      }
    }
  }

  /** `compress_or_delete_backup`. */
  method CompressOrDelete(dir: Directory, zlib: bool, name: string) returns (ok: bool)
    modifies dir
    ensures ok ==> name in old(dir.files)
                   && dir.files == if zlib
                                   then old(dir.files)[name + ".gz" := File(old(dir.files)[name].data,
                                                                       old(dir.files)[name].zips + 1)] - {name}
                                   else old(dir.files) - {name}
    ensures dir.reliable && name in old(dir.files) ==> ok
    ensures forall n :: n != name && n != name + ".gz" ==>
                          && (n in dir.files <==> n in old(dir.files))
                          && (n in dir.files ==> dir.files[n] == old(dir.files)[n])
  {
    if zlib {
      ok := dir.Gzip(name, name + ".gz");
    } else {
      ok := dir.Remove(name);
    }
  }

  lemma SameAfterOne(base: string, before: map<string, File>, after: map<string, File>, name: string)
    requires IsBackup(base, name) && IsBackup(base, name + ".gz")
    requires forall n :: n != name && n != name + ".gz" ==>
                           (n in after <==> n in before) && (n in after ==> after[n] == before[n])
    ensures SameExceptBackups(base, before, after)
  {
  }

  lemma EntriesOkUpdate(base: string, es: seq<Entry>, i: nat, e: Entry)
    requires i < |es| && EntriesOk(base, es) && EntryOk(base, e)
    ensures EntriesOk(base, es[i := e])
  {
  }

  lemma RemovedIsOk(base: string, e: Entry)
    ensures EntryOk(base, e.(name := ""))
  {
  }

  /** Stage 2: keep `max_backup_files` plain backups and compress, or without zlib
    * delete, the older ones. When nothing fails, the directory then holds what the
    * retention rule says. */
  method CompressStage(dir: Directory, w: Arrays, cfg: Config,
                       ghost exact: bool, ghost base: string, ghost view: View, ghost shelf: seq<Arch>)
    requires exact ==> dir.reliable
    requires w.Valid() && EntriesOk(base, w.Entries())
    requires forall i :: 0 <= i < w.count ==> w.Entries()[i].name != ""
    requires exact ==> Ready(base, view, dir.files, w.Entries(), shelf)
    modifies dir, w`rows, w.names, w.mtimes, w.keys, w.compressed
    ensures w.Valid() && EntriesOk(base, w.Entries())
    ensures SameExceptBackups(base, old(dir.files), dir.files)
    ensures w.count == 0 ==> dir.files == old(dir.files)
    ensures exact ==> Ready(base, view, dir.files, w.Entries(), AfterCompression(cfg, shelf))
  {
    hide Ready, Working, AfterCompression, EntryOk, EntriesOk, Squeeze, Flagged, CountPlain,
         SameExceptBackups, IsBackup, Depicts;
    SameRefl(base, dir.files);
    ghost var k := 0;
    if exact {
      CompressionIsSqueeze(cfg, shelf);
    }
    if cfg.maxBackups > 0 {
      var plain := CountEntries(w, false);
      var toCompress: int := plain - cfg.maxBackups;
      ghost var done, rest := [], shelf;
      if exact {
        ReadyCounts(base, view, dir.files, w.Entries(), shelf, false);
        WorkingStart(base, view, dir.files, w.Entries(), shelf);
        NothingBefore(Squeeze(cfg.zlib, shelf, Positive(toCompress)));
      }
      var i := 0;
      while i < w.count && toCompress > 0
        invariant 0 <= i <= w.count && w.Valid() && EntriesOk(base, w.Entries())
        invariant forall j :: i <= j < w.count ==> w.Entries()[j].name != ""
        invariant SameExceptBackups(base, old(dir.files), dir.files)
        invariant w.count == 0 ==> dir.files == old(dir.files)
        invariant exact ==>
                    && Working(base, view, dir.files, w.Entries(), i, done, rest)
                    && AfterCompression(cfg, shelf) == done + Squeeze(cfg.zlib, rest, Positive(toCompress))
        decreases w.count - i
      {
        ghost var before := dir.files;
        toCompress, done, rest := CompressOne(dir, w, cfg, i, toCompress, exact, base, view, done, rest);
        SameTrans(base, old(dir.files), before, dir.files);
        i := i + 1;
      }
      if exact {
        WorkingEnd(base, view, dir.files, w.Entries(), i, done, rest);
        SqueezeEnd(cfg.zlib, rest, Positive(toCompress));
      }
    }
  }

  lemma SameRefl(base: string, files: map<string, File>)
    ensures SameExceptBackups(base, files, files)
  {
  }

  lemma NothingBefore(s: seq<Arch>)
    ensures [] + s == s
  {
  }

  lemma ReadyCounts(base: string, view: View, files: map<string, File>, es: seq<Entry>, shelf: seq<Arch>, gz: bool)
    requires Ready(base, view, files, es, shelf)
    ensures Flagged(es, gz) == CountFlag(shelf, gz)
  {
    hide Holds, Pictures, Ascending, AllSeen, Untouched, Flagged, CountFlag;
    FlaggedIsCount(base, es, shelf, gz);
  }

  lemma CompressionIsSqueeze(cfg: Config, shelf: seq<Arch>)
    ensures cfg.maxBackups > 0 ==>
              AfterCompression(cfg, shelf)
              == Squeeze(cfg.zlib, shelf, Positive(CountFlag(shelf, false) - cfg.maxBackups))
    ensures cfg.maxBackups <= 0 ==> AfterCompression(cfg, shelf) == shelf
  {
  }

  /** One round of the loop of stage 2. */
  method CompressOne(dir: Directory, w: Arrays, cfg: Config, i: nat, toCompress: int,
                     ghost exact: bool, ghost base: string, ghost view: View,
                     ghost done: seq<Arch>, ghost rest: seq<Arch>)
    returns (toCompress': int, ghost done': seq<Arch>, ghost rest': seq<Arch>)
    requires exact ==> dir.reliable
    requires w.Valid() && EntriesOk(base, w.Entries()) && i < w.count && toCompress > 0
    requires forall j :: i <= j < w.count ==> w.Entries()[j].name != ""
    requires exact ==> Working(base, view, dir.files, w.Entries(), i, done, rest)
    modifies dir, w`rows, w.names, w.mtimes, w.keys, w.compressed
    ensures w.Valid() && EntriesOk(base, w.Entries())
    ensures forall j :: i < j < w.count ==> w.Entries()[j].name != ""
    ensures SameExceptBackups(base, old(dir.files), dir.files)
    ensures exact ==>
              && Working(base, view, dir.files, w.Entries(), i + 1, done', rest')
              && done' + Squeeze(cfg.zlib, rest', Positive(toCompress'))
                 == done + Squeeze(cfg.zlib, rest, Positive(toCompress))
  {
    hide Squeeze, EntriesOk, EntryOk, SameExceptBackups, IsBackup, Working, FileName, Depicts;
    toCompress', done', rest' := toCompress, done, rest;
    ghost var es := w.Entries();
    ghost var e := es[i];
    SameRefl(base, dir.files);
    EntryAt(base, es, i);
    if w.compressed[i] == 0 && w.names[i] != "" {
      OnDiskIsBackup(base, e);
      if exact {
        if cfg.zlib {
          WorkingZip(base, view, dir.files, es, i, done, rest);
        } else {
          WorkingDrop(base, view, dir.files, es, i, done, rest);
        }
        PlainHead(base, view, dir.files, es, i, done, rest);
        SqueezeStep(cfg.zlib, done, rest, toCompress);
      }
      var ok := CompressOrDelete(dir, cfg.zlib, w.names[i]);
      SameAfterOne(base, old(dir.files), dir.files, e.name);
      if ok {
        if cfg.zlib {
          w.Put(i, w.Row(i).(compressed := 2));
          EntriesOkUpdate(base, es, i, e.(compressed := 2));
          assert w.Entries() == es[i := e.(compressed := 2)];
          if exact {
            done' := done + [rest[0].(gz := true)];
          }
        } else {
          w.Put(i, w.Row(i).(name := ""));
          RemovedIsOk(base, e);
          EntriesOkUpdate(base, es, i, e.(name := ""));
          assert w.Entries() == es[i := e.(name := "")];
        }
        if exact {
          rest' := rest[1..];
        }
        toCompress' := toCompress - 1;
      }
    } else if exact {
      PlainHead(base, view, dir.files, es, i, done, rest);
      done', rest' := WorkingSkip(base, view, dir.files, es, i, done, rest);
      SqueezeStep(cfg.zlib, done, rest, toCompress);
    }
  }

  lemma EntryAt(base: string, es: seq<Entry>, i: nat)
    requires i < |es| && EntriesOk(base, es)
    ensures EntryOk(base, es[i])
  {
  }

  lemma PlainHead(base: string, view: View, files: map<string, File>, es: seq<Entry>, i: nat,
                  done: seq<Arch>, rest: seq<Arch>)
    requires i < |es| && Working(base, view, files, es, i, done, rest) && es[i].name != ""
    ensures rest != [] && rest[0].gz == (es[i].compressed != 0) && OnDisk(es[i]) == FileName(base, rest[0])
  {
    hide Pictures, Holds, Ascending, FileName, AllSeen, Untouched;
    PictureHead(base, es[i..], rest);
  }

  /** Delete the file an entry stands for. */
  method RemoveEntry(dir: Directory, w: Arrays, i: nat, ghost base: string) returns (ok: bool)
    requires w.Valid() && i < w.count && w.names[i] != "" && EntryOk(base, w.Entries()[i])
    modifies dir
    ensures ok ==> dir.files == old(dir.files) - {OnDisk(w.Entries()[i])}
    ensures dir.reliable && OnDisk(w.Entries()[i]) in old(dir.files) ==> ok
    ensures SameExceptBackups(base, old(dir.files), dir.files)
  {
    hide IsBackup, EntryOk;
    OnDiskIsBackup(base, w.Entries()[i]);
    if w.compressed[i] == 2 {
      ok := dir.Remove(w.names[i] + ".gz");
    } else {
      ok := dir.Remove(w.names[i]);
    }
  }

  /** One round of the loop of stage 3. */
  method CapOne(dir: Directory, w: Arrays, i: nat, excess: int,
                ghost exact: bool, ghost base: string, ghost view: View,
                ghost done: seq<Arch>, ghost rest: seq<Arch>)
    returns (excess': int, ghost done': seq<Arch>, ghost rest': seq<Arch>)
    requires exact ==> dir.reliable
    requires w.Valid() && EntriesOk(base, w.Entries()) && i < w.count && excess > 0
    requires exact ==> Working(base, view, dir.files, w.Entries(), i, done, rest)
    modifies dir, w`rows, w.names, w.mtimes, w.keys, w.compressed
    ensures w.Valid() && EntriesOk(base, w.Entries())
    ensures SameExceptBackups(base, old(dir.files), dir.files)
    ensures exact ==>
              && Working(base, view, dir.files, w.Entries(), i + 1, done', rest')
              && done' + DropOldest(rest', true, Positive(excess')) == done + DropOldest(rest, true, Positive(excess))
  {
    hide DropOldest, EntriesOk, EntryOk, SameExceptBackups, IsBackup, Working, FileName, Depicts, OnDisk;
    excess', done', rest' := excess, done, rest;
    ghost var es := w.Entries();
    SameRefl(base, dir.files);
    EntryAt(base, es, i);
    if w.names[i] != "" && w.compressed[i] != 0 {
      if exact {
        WorkingDrop(base, view, dir.files, es, i, done, rest);
        PlainHead(base, view, dir.files, es, i, done, rest);
        DropStep(done, rest, excess);
      }
      var ok := RemoveEntry(dir, w, i, base);
      if ok {
        w.Put(i, w.Row(i).(name := ""));
        RemovedIsOk(base, es[i]);
        EntriesOkUpdate(base, es, i, es[i].(name := ""));
        assert w.Entries() == es[i := es[i].(name := "")];
        if exact {
          rest' := rest[1..];
        }
        excess' := excess - 1;
      }
    } else if exact {
      done', rest' := WorkingSkip(base, view, dir.files, es, i, done, rest);
      if es[i].name != "" {
        PlainHead(base, view, dir.files, es, i, done, rest);
        DropStep(done, rest, excess);
      }
    }
  }

  function Capped(cfg: Config, shelf: seq<Arch>): seq<Arch> {
    DropOldest(shelf, true, Excess(CountGz(shelf), GzLimit(cfg)))
  }

  lemma CappedIsDrop(cfg: Config, shelf: seq<Arch>)
    ensures GzLimit(cfg) > 0 ==>
              Capped(cfg, shelf) == DropOldest(shelf, true, Positive(CountFlag(shelf, true) - GzLimit(cfg)))
    ensures GzLimit(cfg) <= 0 ==> Capped(cfg, shelf) == shelf
  {
  }

  /** Stage 3: delete the oldest compressed backups beyond the limit. */
  method CapStage(dir: Directory, w: Arrays, cfg: Config,
                  ghost exact: bool, ghost base: string, ghost view: View, ghost shelf: seq<Arch>)
    requires exact ==> dir.reliable
    requires w.Valid() && EntriesOk(base, w.Entries())
    requires exact ==> Ready(base, view, dir.files, w.Entries(), shelf)
    modifies dir, w`rows, w.names, w.mtimes, w.keys, w.compressed
    ensures w.Valid()
    ensures SameExceptBackups(base, old(dir.files), dir.files)
    ensures w.count == 0 ==> dir.files == old(dir.files)
    ensures exact ==> Ready(base, view, dir.files, w.Entries(), Capped(cfg, shelf))
  {
    hide Ready, Working, Capped, EntryOk, EntriesOk, DropOldest, Flagged, CountGz,
         SameExceptBackups, IsBackup, Depicts;
    SameRefl(base, dir.files);
    if exact {
      CappedIsDrop(cfg, shelf);
    }
    var gzCap := if cfg.maxGz < 0 then -1 else if cfg.maxGz > 0 then cfg.maxGz else cfg.maxBackups;
    if gzCap > 0 {
      var gzCount := CountEntries(w, true);
      var excess: int := gzCount - gzCap;
      ghost var done, rest := [], shelf;
      if exact {
        ReadyCounts(base, view, dir.files, w.Entries(), shelf, true);
        WorkingStart(base, view, dir.files, w.Entries(), shelf);
        NothingBefore(DropOldest(shelf, true, Positive(excess)));
      }
      var i := 0;
      while i < w.count && excess > 0
        invariant 0 <= i <= w.count && w.Valid() && EntriesOk(base, w.Entries())
        invariant SameExceptBackups(base, old(dir.files), dir.files)
        invariant w.count == 0 ==> dir.files == old(dir.files)
        invariant exact ==>
                    && Working(base, view, dir.files, w.Entries(), i, done, rest)
                    && Capped(cfg, shelf) == done + DropOldest(rest, true, Positive(excess))
        decreases w.count - i
      {
        ghost var before := dir.files;
        excess, done, rest := CapOne(dir, w, i, excess, exact, base, view, done, rest);
        SameTrans(base, old(dir.files), before, dir.files);
        i := i + 1;
      }
      if exact {
        WorkingEnd(base, view, dir.files, w.Entries(), i, done, rest);
        DropEnd(rest, Positive(excess));
      }
    }
  }

  // ---- Collecting and sorting ----

  /** Stem and extension are not cut off when they are split. */
  predicate NameFits(base: string) {
    |base| <= 228 && |ExtensionOf(base)| <= 63
  }

  /** `collect_cb` for every name of the listing; it stops when memory runs out. */
  method Collect(dir: Directory, w: Arrays, base: string, stem: string, ext: string, listing: seq<string>)
    returns (ghost seen: nat)
    requires w.Valid() && w.count == 0 && !w.oom
    requires stem == StemOf(base) && ext == ExtensionOf(base)
    modifies w, w.names, w.mtimes, w.keys, w.compressed
    ensures w.Valid() && seen <= |listing|
    ensures w.Entries() == Collected(base, dir.mtimes, listing[..seen])
    ensures w.oom || seen == |listing|
    ensures dir.roomy ==> seen == |listing|
    ensures w.names == old(w.names) || fresh(w.names)
    ensures w.mtimes == old(w.mtimes) || fresh(w.mtimes)
    ensures w.keys == old(w.keys) || fresh(w.keys)
    ensures w.compressed == old(w.compressed) || fresh(w.compressed)
  {
    hide MatchArchive, OrderKey;
    seen := 0;
    assert listing[..0] == [];
    for i := 0 to |listing|
      invariant w.Valid() && seen <= i && (w.oom || seen == i) && (dir.roomy ==> !w.oom)
      invariant w.Entries() == Collected(base, dir.mtimes, listing[..seen])
      invariant w.names == old(w.names) || fresh(w.names)
      invariant w.mtimes == old(w.mtimes) || fresh(w.mtimes)
      invariant w.keys == old(w.keys) || fresh(w.keys)
      invariant w.compressed == old(w.compressed) || fresh(w.compressed)
    {
      if !w.oom {
        var fname := listing[i];
        assert listing[..i + 1][..i] == listing[..i];
        var found := MatchArchive(fname, stem + ".", ext);
        if fname == base || found.None? {
          seen := i + 1;
        } else {
          MatchedPrefix(fname, stem + ".", ext);
          var mtime := dir.Mtime(fname);
          var key := OrderKey(fname, stem + ".", mtime);
          var memory := dir.HaveMemory();
          w.Append(Entry(fname, mtime, key, if found.value then 1 else 0), memory);
          if !w.oom {
            seen := i + 1;
          }
        }
      }
    }
    assert listing[..|listing|] == listing;
  }

  lemma MatchedPrefix(fname: string, prefix: string, ext: string)
    requires MatchArchive(fname, prefix, ext).Some?
    ensures |prefix| <= |fname|
  {
  }

  lemma EntryOfMember(base: string, mtimes: map<string, int>, fname: string)
    ensures var e := EntryOf(base, mtimes, fname);
            e.Some? ==> e.value.name == fname && fname != "" && EntryOk(base, e.value)
  {
    hide ScanStamp;
  }

  lemma {:induction false} CollectedMembers(base: string, mtimes: map<string, int>, listing: seq<string>)
    ensures forall e :: e in Collected(base, mtimes, listing) ==>
                          e.name in listing && EntryOf(base, mtimes, e.name) == Some(e)
    ensures forall n :: n in listing && EntryOf(base, mtimes, n).Some? ==>
                          EntryOf(base, mtimes, n).value in Collected(base, mtimes, listing)
  {
    hide EntryOf;
    if listing != [] {
      var n := |listing| - 1;
      CollectedMembers(base, mtimes, listing[..n]);
      EntryOfMember(base, mtimes, listing[n]);
    }
  }

  lemma {:induction false} CollectedDistinct(base: string, mtimes: map<string, int>, listing: seq<string>)
    requires NoDuplicates(listing)
    ensures NoDuplicates(Collected(base, mtimes, listing))
  {
    hide EntryOf;
    if listing != [] {
      var n := |listing| - 1;
      CollectedDistinct(base, mtimes, listing[..n]);
      CollectedMembers(base, mtimes, listing[..n]);
      EntryOfMember(base, mtimes, listing[n]);
    }
  }

  lemma {:induction false} CollectedOk(base: string, mtimes: map<string, int>, listing: seq<string>)
    ensures var es := Collected(base, mtimes, listing);
            EntriesOk(base, es) && forall i :: 0 <= i < |es| ==> es[i].name != ""
  {
    hide EntryOf, EntryOk;
    if listing != [] {
      CollectedOk(base, mtimes, listing[..|listing| - 1]);
      EntryOfMember(base, mtimes, listing[|listing| - 1]);
    }
  }

  /** The entry of an archive. */
  function EntryFor(base: string, mtimes: map<string, int>, a: Arch): Entry {
    var name := FileName(base, a);
    Entry(name, if name in mtimes then mtimes[name] else 0, Key(a), if a.gz then 1 else 0)
  }

  function Expected(base: string, mtimes: map<string, int>, shelf: seq<Arch>): (es: seq<Entry>)
    ensures |es| == |shelf|
    ensures forall i :: 0 <= i < |es| ==> es[i] == EntryFor(base, mtimes, shelf[i])
  {
    seq(|shelf|, i requires 0 <= i < |shelf| => EntryFor(base, mtimes, shelf[i]))
  }

  lemma EntryOfArchive(base: string, mtimes: map<string, int>, a: Arch)
    requires ValidDay(a.day)
    ensures EntryOf(base, mtimes, FileName(base, a)) == Some(EntryFor(base, mtimes, a))
  {
    hide FileName, MatchArchive, OrderKey, Key;
    var name := FileName(base, a);
    NameIsBackup(base, a);
    NameIsKeyed(base, a, if name in mtimes then mtimes[name] else 0);
    ActiveIsNoBackup(base);
  }

  lemma CollectedIsExpected(base: string, files: map<string, File>, mtimes: map<string, int>,
                            listing: seq<string>, shelf: seq<Arch>)
    requires Holds(base, files, shelf) && Ascending(shelf)
    requires forall n :: n in listing <==> n in files
    ensures forall e :: e in Collected(base, mtimes, listing) <==> e in Expected(base, mtimes, shelf)
  {
    hide EntryOf, FileName, IsBackup, Key;
    var c, x := Collected(base, mtimes, listing), Expected(base, mtimes, shelf);
    CollectedMembers(base, mtimes, listing);
    forall e | e in x ensures e in c {
      var i :| 0 <= i < |x| && x[i] == e;
      EntryOfArchive(base, mtimes, shelf[i]);
    }
    forall e | e in c ensures e in x {
      EntryOfBackup(base, mtimes, e.name);
      assert e.name in Backups(base, files);
      var i :| 0 <= i < |shelf| && FileName(base, shelf[i]) == e.name;
      EntryOfArchive(base, mtimes, shelf[i]);
      assert x[i] == e;
    }
  }

  lemma EntryOfBackup(base: string, mtimes: map<string, int>, fname: string)
    ensures EntryOf(base, mtimes, fname).Some? ==> IsBackup(base, fname)
  {
  }

  lemma {:induction false} CountOfDistinct<T>(s: seq<T>, x: T)
    requires NoDuplicates(s)
    ensures multiset(s)[x] == if x in s then 1 else 0
  {
    if s != [] {
      var n := |s| - 1;
      CountOfDistinct(s[..n], x);
      assert s == s[..n] + [s[n]];
    }
  }

  lemma SameMembers<T>(s: seq<T>, t: seq<T>)
    requires NoDuplicates(s) && NoDuplicates(t)
    requires forall x :: x in s <==> x in t
    ensures multiset(s) == multiset(t)
  {
    forall x: T ensures multiset(s)[x] == multiset(t)[x] {
      CountOfDistinct(s, x);
      CountOfDistinct(t, x);
    }
  }

  predicate StrictlySorted(es: seq<Entry>) {
    forall i, j :: 0 <= i < j < |es| ==> es[i].key < es[j].key
  }

  lemma LargestIsLast(a: seq<Entry>, b: seq<Entry>)
    requires Sorted(a) && StrictlySorted(b) && |a| == |b| > 0
    requires a[|a| - 1] in b && b[|b| - 1] in a
    ensures a[|a| - 1] == b[|b| - 1]
  {
    var n := |a| - 1;
    var j :| 0 <= j < |b| && b[j] == a[n];
    var i :| 0 <= i < |a| && a[i] == b[n];
    assert a[i].key <= a[n].key;
  }

  lemma FrontOfBag(s: seq<Entry>)
    requires s != []
    ensures multiset(s) == multiset(s[..|s| - 1]) + multiset{s[|s| - 1]}
  {
    assert s == s[..|s| - 1] + [s[|s| - 1]];
  }

  lemma SameFronts(a: seq<Entry>, b: seq<Entry>)
    requires a != [] && b != [] && multiset(a) == multiset(b) && a[|a| - 1] == b[|b| - 1]
    ensures multiset(a[..|a| - 1]) == multiset(b[..|b| - 1])
  {
    FrontOfBag(a);
    FrontOfBag(b);
    var x, y, e := multiset(a[..|a| - 1]), multiset(b[..|b| - 1]), multiset{a[|a| - 1]};
    assert (x + e) - e == x && (y + e) - e == y;
  }

  /** Keys without ties leave only one sorted order. */
  lemma {:induction false} SortedIsUnique(a: seq<Entry>, b: seq<Entry>)
    requires Sorted(a) && StrictlySorted(b) && multiset(a) == multiset(b)
    ensures a == b
  {
    hide Sorted, StrictlySorted;
    SameBagSameSize(a, b);
    if a != [] {
      var n := |a| - 1;
      assert a[n] in a && b[n] in b;
      LargestIsLast(a, b);
      SameFronts(a, b);
      SortedFronts(a, b);
      SortedIsUnique(a[..n], b[..n]);
      assert a == a[..n] + [a[n]] && b == b[..n] + [b[n]];
    }
  }

  lemma SameBagSameSize(a: seq<Entry>, b: seq<Entry>)
    requires multiset(a) == multiset(b)
    ensures |a| == |b| && (forall e :: e in a <==> e in b)
  {
    assert |multiset(a)| == |a| && |multiset(b)| == |b|;
    forall e ensures e in a <==> e in b {
      assert e in multiset(a) <==> e in a;
      assert e in multiset(b) <==> e in b;
    }
  }

  lemma SortedFronts(a: seq<Entry>, b: seq<Entry>)
    requires Sorted(a) && StrictlySorted(b) && |a| == |b| > 0
    ensures Sorted(a[..|a| - 1]) && StrictlySorted(b[..|b| - 1])
  {
  }

  lemma ExpectedPictures(base: string, mtimes: map<string, int>, shelf: seq<Arch>)
    requires Ascending(shelf)
    ensures var x := Expected(base, mtimes, shelf);
            StrictlySorted(x) && NoDuplicates(x) && Pictures(base, x, shelf)
  {
    hide FileName, Key, Kept;
    var x := Expected(base, mtimes, shelf);
    forall i | 0 <= i < |x| ensures x[i].name != "" {
      EntryOfArchive(base, mtimes, shelf[i]);
      EntryOfMember(base, mtimes, FileName(base, shelf[i]));
    }
    KeptAll(x);
  }

  /** Sorting by key puts the collected entries into the order of the shelf. */
  lemma SortedPictures(base: string, files: map<string, File>, mtimes: map<string, int>,
                       listing: seq<string>, shelf: seq<Arch>, es: seq<Entry>)
    requires Holds(base, files, shelf) && Ascending(shelf)
    requires NoDuplicates(listing) && forall n :: n in listing <==> n in files
    requires Sorted(es) && multiset(es) == multiset(Collected(base, mtimes, listing))
    ensures es == Expected(base, mtimes, shelf) && Pictures(base, es, shelf)
  {
    hide Holds, Ascending, Pictures, Sorted, StrictlySorted, Collected, Expected, EntryFor;
    CollectedIsExpected(base, files, mtimes, listing, shelf);
    CollectedDistinct(base, mtimes, listing);
    ExpectedPictures(base, mtimes, shelf);
    SameMembers(Collected(base, mtimes, listing), Expected(base, mtimes, shelf));
    SortedIsUnique(es, Expected(base, mtimes, shelf));
  }

  lemma PermutedOk(base: string, es: seq<Entry>, es': seq<Entry>)
    requires EntriesOk(base, es) && (forall i :: 0 <= i < |es| ==> es[i].name != "")
    requires multiset(es) == multiset(es')
    ensures EntriesOk(base, es') && (forall i :: 0 <= i < |es'| ==> es'[i].name != "")
  {
    hide EntryOk;
    forall i | 0 <= i < |es'| ensures EntryOk(base, es'[i]) && es'[i].name != "" {
      assert es'[i] in multiset(es);
    }
  }

  // ---- Deleting by age ----

  /** Not later than `cutoff`, as far as the time of its last change is known. */
  predicate TooOld(mtime: int, cutoff: int) {
    mtime > 0 && mtime < cutoff
  }

  /** The archives that are not too old, in order. */
  function Young(base: string, mtimes: map<string, int>, cutoff: int, shelf: seq<Arch>): seq<Arch> {
    if shelf == [] then []
    else if TooOld(EntryFor(base, mtimes, shelf[0]).mtime, cutoff) then Young(base, mtimes, cutoff, shelf[1..])
    else [shelf[0]] + Young(base, mtimes, cutoff, shelf[1..])
  }

  lemma YoungStep(base: string, mtimes: map<string, int>, cutoff: int, done: seq<Arch>, rest: seq<Arch>)
    requires rest != []
    ensures var tail := Young(base, mtimes, cutoff, rest[1..]);
            done + Young(base, mtimes, cutoff, rest)
            == if TooOld(EntryFor(base, mtimes, rest[0]).mtime, cutoff) then done + tail else done + [rest[0]] + tail
  {
    hide EntryFor, TooOld;
    var tail := Young(base, mtimes, cutoff, rest[1..]);
    assert done + ([rest[0]] + tail) == done + [rest[0]] + tail;
  }

  lemma YoungEnd(base: string, mtimes: map<string, int>, cutoff: int)
    ensures Young(base, mtimes, cutoff, []) == []
  {
  }

  /** Which archives stay: in order, those whose file has no known change time before the
    * cutoff. */
  lemma {:induction false} YoungExactly(base: string, mtimes: map<string, int>, cutoff: int, shelf: seq<Arch>)
    ensures forall a :: a in Young(base, mtimes, cutoff, shelf) <==>
                          a in shelf && !(FileName(base, a) in mtimes && 0 < mtimes[FileName(base, a)] < cutoff)
  {
    hide FileName;
    if shelf != [] {
      YoungExactly(base, mtimes, cutoff, shelf[1..]);
      assert shelf == [shelf[0]] + shelf[1..];
    }
  }

  lemma {:induction false} YoungInOrder(base: string, mtimes: map<string, int>, cutoff: int,
                                        s: seq<Arch>, t: seq<Arch>)
    ensures Young(base, mtimes, cutoff, s + t) == Young(base, mtimes, cutoff, s) + Young(base, mtimes, cutoff, t)
  {
    hide EntryFor, TooOld;
    if s == [] {
      assert s + t == t;
    } else {
      assert (s + t)[1..] == s[1..] + t;
      YoungInOrder(base, mtimes, cutoff, s[1..], t);
    }
  }

  /** Stage 1: delete what has not changed since `cutoff`, and mark the entries. */
  method DeleteByAge(dir: Directory, w: Arrays, cutoff: int, ghost exact: bool, ghost base: string,
                     ghost view: View, ghost mtimes: map<string, int>, ghost shelf: seq<Arch>)
    returns (ghost young: seq<Arch>)
    requires exact ==> dir.reliable
    requires w.Valid() && EntriesOk(base, w.Entries())
    requires forall i :: 0 <= i < w.count ==> w.Entries()[i].name != "" && w.Entries()[i].compressed != 2
    requires exact ==> Ready(base, view, dir.files, w.Entries(), shelf)
                       && w.Entries() == Expected(base, mtimes, shelf)
    modifies dir, w`rows, w.names, w.mtimes, w.keys, w.compressed
    ensures w.Valid() && EntriesOk(base, w.Entries())
    ensures SameExceptBackups(base, old(dir.files), dir.files)
    ensures w.count == 0 ==> dir.files == old(dir.files)
    ensures exact ==> young == Young(base, mtimes, cutoff, shelf)
                      && Ready(base, view, dir.files, w.Entries(), young)
  {
    hide Ready, Working, EntryOk, EntriesOk, SameExceptBackups, IsBackup, Depicts, EntryFor, Young, TooOld;
    SameRefl(base, dir.files);
    ghost var done, rest := [], shelf;
    if exact {
      WorkingStart(base, view, dir.files, w.Entries(), shelf);
      NothingBefore(Young(base, mtimes, cutoff, shelf));
    }
    var i := 0;
    while i < w.count
      invariant 0 <= i <= w.count && w.Valid() && EntriesOk(base, w.Entries())
      invariant forall j :: i <= j < w.count ==> w.Entries()[j].name != "" && w.Entries()[j].compressed != 2
      invariant SameExceptBackups(base, old(dir.files), dir.files)
      invariant w.count == 0 ==> dir.files == old(dir.files)
      invariant exact ==>
                  && Working(base, view, dir.files, w.Entries(), i, done, rest)
                  && |shelf| == w.count && rest == shelf[i..]
                  && (forall j :: i <= j < w.count ==> w.Entries()[j] == EntryFor(base, mtimes, shelf[j]))
                  && Young(base, mtimes, cutoff, shelf) == done + Young(base, mtimes, cutoff, rest)
    {
      ghost var before := dir.files;
      done, rest := AgeOne(dir, w, i, cutoff, exact, base, view, mtimes, done, rest);
      SameTrans(base, old(dir.files), before, dir.files);
      i := i + 1;
    }
    young := done;
    if exact {
      WorkingEnd(base, view, dir.files, w.Entries(), i, done, rest);
      YoungEnd(base, mtimes, cutoff);
      assert done + [] == done;
    }
  }

  /** One round of the loop of stage 1. */
  method AgeOne(dir: Directory, w: Arrays, i: nat, cutoff: int, ghost exact: bool, ghost base: string,
                ghost view: View, ghost mtimes: map<string, int>, ghost done: seq<Arch>, ghost rest: seq<Arch>)
    returns (ghost done': seq<Arch>, ghost rest': seq<Arch>)
    requires exact ==> dir.reliable
    requires w.Valid() && EntriesOk(base, w.Entries()) && i < w.count
    requires w.Entries()[i].name != "" && w.Entries()[i].compressed != 2
    requires exact ==> Working(base, view, dir.files, w.Entries(), i, done, rest)
                       && rest != [] && w.Entries()[i] == EntryFor(base, mtimes, rest[0])
    modifies dir, w`rows, w.names, w.mtimes, w.keys, w.compressed
    ensures w.Valid() && EntriesOk(base, w.Entries())
    ensures forall j :: i < j < w.count ==> w.Entries()[j] == old(w.Entries())[j]
    ensures SameExceptBackups(base, old(dir.files), dir.files)
    ensures exact ==>
              && Working(base, view, dir.files, w.Entries(), i + 1, done', rest') && rest' == rest[1..]
              && done' + Young(base, mtimes, cutoff, rest') == done + Young(base, mtimes, cutoff, rest)
  {
    hide EntriesOk, EntryOk, SameExceptBackups, IsBackup, Working, FileName, Depicts, EntryFor, Young;
    ghost var es := w.Entries();
    done', rest' := done, rest;
    SameRefl(base, dir.files);
    EntryAt(base, es, i);
    if exact {
      YoungStep(base, mtimes, cutoff, done, rest);
    }
    if w.mtimes[i] > 0 && w.mtimes[i] < cutoff {
      if exact {
        WorkingDrop(base, view, dir.files, es, i, done, rest);
      }
      var ok := RemoveEntry(dir, w, i, base);
      w.Put(i, w.Row(i).(name := ""));
      RemovedIsOk(base, es[i]);
      EntriesOkUpdate(base, es, i, es[i].(name := ""));
      assert w.Entries() == es[i := es[i].(name := "")];
      if exact {
        rest' := rest[1..];
      }
    } else if exact {
      done', rest' := WorkingSkip(base, view, dir.files, es, i, done, rest);
    }
  }

  // ---- hx_rotate_cleanup ----

  /** The archives that count: with `max_backup_days`, those that are not too old. */
  function Current(base: string, mtimes: map<string, int>, maxDays: int, now: int, shelf: seq<Arch>): seq<Arch> {
    if maxDays > 0 then Young(base, mtimes, now - maxDays * 86400, shelf) else shelf
  }

  /** The archives whose files are not hidden. */
  function Visible(base: string, shelf: seq<Arch>, hidden: set<string>): seq<Arch> {
    if shelf == [] then []
    else
      var n := |shelf| - 1;
      Visible(base, shelf[..n], hidden) + (if FileName(base, shelf[n]) in hidden then [] else [shelf[n]])
  }

  lemma {:induction false} VisibleMembers(base: string, shelf: seq<Arch>, hidden: set<string>)
    ensures forall a :: a in Visible(base, shelf, hidden) <==> a in shelf && FileName(base, a) !in hidden
  {
    hide FileName;
    if shelf != [] {
      VisibleMembers(base, shelf[..|shelf| - 1], hidden);
      assert shelf == shelf[..|shelf| - 1] + [shelf[|shelf| - 1]];
    }
  }

  lemma {:induction false} VisibleAscends(base: string, shelf: seq<Arch>, hidden: set<string>)
    requires Ascending(shelf)
    ensures Ascending(Visible(base, shelf, hidden))
  {
    hide FileName, Key;
    if shelf != [] {
      var n := |shelf| - 1;
      var front := Visible(base, shelf[..n], hidden);
      VisibleAscends(base, shelf[..n], hidden);
      VisibleMembers(base, shelf[..n], hidden);
      forall i | 0 <= i < |front| ensures Key(front[i]) < Key(shelf[n]) {
        assert front[i] in front;
        var k :| 0 <= k < n && shelf[..n][k] == front[i];
      }
    }
  }

  /** What is in sight of the directory is what is visible of the shelf. */
  lemma VisibleHolds(base: string, files: map<string, File>, shelf: seq<Arch>, hidden: set<string>)
    requires Holds(base, files, shelf)
    ensures Holds(base, files - hidden, Visible(base, shelf, hidden))
  {
    hide FileName, FileFor, IsBackup, Visible;
    var v := Visible(base, shelf, hidden);
    VisibleMembers(base, shelf, hidden);
    forall n | n in Backups(base, files - hidden) ensures n in NamesOf(base, v) {
      assert n in Backups(base, files);
      var i :| 0 <= i < |shelf| && FileName(base, shelf[i]) == n;
      assert shelf[i] in v;
    }
    forall i | 0 <= i < |v|
      ensures FileName(base, v[i]) in files - hidden && (files - hidden)[FileName(base, v[i])] == FileFor(v[i])
      ensures FileName(base, v[i]) in Backups(base, files - hidden)
    {
      assert v[i] in v;
      var k :| 0 <= k < |shelf| && shelf[k] == v[i];
      assert FileName(base, shelf[k]) in NamesOf(base, shelf);
    }
  }

  lemma {:induction false} VisibleAll(base: string, shelf: seq<Arch>, hidden: set<string>)
    requires forall i :: 0 <= i < |shelf| ==> FileName(base, shelf[i]) !in hidden
    ensures Visible(base, shelf, hidden) == shelf
  {
    hide FileName;
    if shelf != [] {
      VisibleAll(base, shelf[..|shelf| - 1], hidden);
    }
  }

  lemma {:induction false} VisibleNone(base: string, shelf: seq<Arch>, hidden: set<string>)
    requires forall i :: 0 <= i < |shelf| ==> FileName(base, shelf[i]) in hidden
    ensures Visible(base, shelf, hidden) == []
  {
    hide FileName;
    if shelf != [] {
      VisibleNone(base, shelf[..|shelf| - 1], hidden);
    }
  }

  /** No archive can be compressed into a file that is hidden: the archives have
    * different keys. */
  lemma ExpectedSeen(base: string, files: map<string, File>, mtimes: map<string, int>, shelf: seq<Arch>,
                     hidden: set<string>)
    requires Holds(base, files, shelf) && Ascending(shelf) && hidden <= files.Keys
    ensures AllSeen(Expected(base, mtimes, Visible(base, shelf, hidden)), hidden)
  {
    hide FileName, FileFor, MatchArchive, Visible, Ascending;
    var v := Visible(base, shelf, hidden);
    VisibleMembers(base, shelf, hidden);
    forall i | 0 <= i < |v| ensures Seen(EntryFor(base, mtimes, v[i]), hidden) {
      assert v[i] in v;
      var k :| 0 <= k < |shelf| && shelf[k] == v[i];
      if !v[i].gz && FileName(base, v[i]) + ".gz" in hidden {
        NoTwinFile(base, files, shelf, k);
      }
    }
  }

  lemma NoTwinFile(base: string, files: map<string, File>, shelf: seq<Arch>, k: nat)
    requires Holds(base, files, shelf) && Ascending(shelf) && k < |shelf| && !shelf[k].gz
    ensures FileName(base, shelf[k]) + ".gz" !in files
  {
    hide FileName, FileFor, MatchArchive, Ascending;
    var z := shelf[k].(gz := true);
    GzName(base, shelf[k]);
    if FileName(base, z) in files {
      DaysAreValid(shelf, k);
      NameIsBackup(base, z);
      assert FileName(base, z) in Backups(base, files);
      var j :| 0 <= j < |shelf| && FileName(base, shelf[j]) == FileName(base, z);
      if j != k {
        NamesDistinct(base, shelf, k, j);
      }
    }
  }

  lemma DaysAreValid(shelf: seq<Arch>, k: nat)
    requires Ascending(shelf) && k < |shelf|
    ensures ValidDay(shelf[k].day)
  {
  }

  lemma NothingRetained(base: string, cfg: Config, mtimes: map<string, int>, maxDays: int, now: int)
    ensures Retain(cfg, Current(base, mtimes, maxDays, now, [])) == [] && Holds(base, map[], [])
  {
  }

  /** What a cleanup makes of `shelf` when nothing fails but the listing. */
  function Cleaned(base: string, cfg: Config, mtimes: map<string, int>, maxDays: int, now: int,
                   shelf: seq<Arch>, hidden: set<string>): seq<Arch> {
    Retain(cfg, Current(base, mtimes, maxDays, now, Visible(base, shelf, hidden)))
  }

  /** `hx_rotate_cleanup`. `hidden` are the names it does not get to see: none when the
    * directory can be read and there is memory. Whatever fails, only names that look like
    * backups of `base` are touched, and `base` itself never is. When deleting and
    * compressing do not fail, the retention rule is applied to exactly the archives in
    * sight, and hidden files stay as they are. `known` says that the directory holds
    * `shelf` to begin with. */
  method Cleanup(dir: Directory, base: string, cfg: Config, maxDays: int, now: int,
                 ghost known: bool, ghost shelf: seq<Arch>)
    returns (ghost hidden: set<string>)
    requires NameFits(base)
    requires known ==> Holds(base, dir.files, shelf) && Ascending(shelf)
    modifies dir
    ensures SameExceptBackups(base, old(dir.files), dir.files)
    ensures base in dir.files <==> base in old(dir.files)
    ensures base in dir.files ==> dir.files[base] == old(dir.files)[base]
    ensures hidden <= old(dir.files).Keys && (dir.roomy && dir.readable ==> hidden == {})
    ensures Backups(base, old(dir.files)) <= hidden ==> dir.files == old(dir.files)
    ensures known && dir.reliable ==>
              && Holds(base, dir.files - hidden, Cleaned(base, cfg, old(dir.mtimes), maxDays, now, shelf, hidden))
              && Untouched(View(hidden, old(dir.files)), dir.files)
    ensures known && dir.reliable && cfg.maxBackups <= 0 && cfg.maxGz <= 0 ==>
              forall n :: n in old(dir.files) && IsBackup(base, n) && n !in hidden ==>
                            (n in dir.files <==> !(maxDays > 0 && n in old(dir.mtimes)
                                                   && 0 < old(dir.mtimes)[n] < now - maxDays * 86400))
  {
    hide Holds, Pictures, Ascending, EntryOk, EntriesOk, IsBackup, Sorted, Collected, Expected, Young,
         Retain, AfterCompression, Capped, Kept, Visible, Ready, Backups;
    ActiveIsNoBackup(base);
    hidden := dir.files.Keys;
    ghost var mtimes, start := dir.mtimes, dir.files;
    var memory := dir.HaveMemory();
    if !memory {
      BlindCleanup(base, cfg, mtimes, maxDays, now, start, known, shelf);
      return;
    }
    var w;
    ghost var shown;
    w, shown := CollectBackups(dir, base);
    hidden := set n | n in dir.files && n !in shown;
    ghost var exact, view := known && dir.reliable, View(hidden, start);
    NoneCollected(base, mtimes, shown, start, hidden);
    SortCollected(dir, w, base, shown, view, known, shelf);
    Thin(dir, w, base, cfg, maxDays, now, exact, view, mtimes, Visible(base, shelf, hidden));
    if exact && cfg.maxBackups <= 0 && cfg.maxGz <= 0 {
      AgeRule(base, cfg, mtimes, maxDays, now, start, dir.files, shelf, hidden);
    }
  }

  lemma NothingToDrop(cfg: Config, shelf: seq<Arch>)
    requires cfg.maxBackups <= 0 && cfg.maxGz <= 0
    ensures Retain(cfg, shelf) == shelf
  {
  }

  /** Without count limits a backup in sight stays unless it was last changed before the
    * limit of age. */
  lemma AgeRule(base: string, cfg: Config, mtimes: map<string, int>, maxDays: int, now: int,
                start: map<string, File>, files: map<string, File>, shelf: seq<Arch>, hidden: set<string>)
    requires Holds(base, start, shelf) && cfg.maxBackups <= 0 && cfg.maxGz <= 0
    requires Holds(base, files - hidden, Cleaned(base, cfg, mtimes, maxDays, now, shelf, hidden))
    ensures forall n :: n in start && IsBackup(base, n) && n !in hidden ==>
                          (n in files <==> !(maxDays > 0 && n in mtimes && 0 < mtimes[n] < now - maxDays * 86400))
  {
    hide FileName, FileFor, MatchArchive, Retain, Visible, Young;
    var left := Visible(base, shelf, hidden);
    VisibleMembers(base, shelf, hidden);
    NothingToDrop(cfg, Current(base, mtimes, maxDays, now, left));
    YoungExactly(base, mtimes, now - maxDays * 86400, left);
    var stay := Cleaned(base, cfg, mtimes, maxDays, now, shelf, hidden);
    forall n | n in start && IsBackup(base, n) && n !in hidden
      ensures n in files <==> !(maxDays > 0 && n in mtimes && 0 < mtimes[n] < now - maxDays * 86400)
    {
      assert n in Backups(base, start);
      var i :| 0 <= i < |shelf| && FileName(base, shelf[i]) == n;
      assert shelf[i] in left;
      if n in files {
        assert n in Backups(base, files - hidden);
        var k :| 0 <= k < |stay| && FileName(base, stay[k]) == n;
        assert stay[k] in stay;
      }
    }
  }

  /** Everything after the sort: the three stages. */
  method Thin(dir: Directory, w: Arrays, ghost base: string, cfg: Config, maxDays: int, now: int,
              ghost exact: bool, ghost view: View, ghost mtimes: map<string, int>, ghost shelf: seq<Arch>)
    requires w.Valid() && EntriesOk(base, w.Entries())
    requires forall i :: 0 <= i < w.count ==> w.Entries()[i].name != "" && w.Entries()[i].compressed != 2
    requires exact ==> dir.reliable && Ready(base, view, dir.files, w.Entries(), shelf)
                       && w.Entries() == Expected(base, mtimes, shelf)
    modifies dir, w, w.names, w.mtimes, w.keys, w.compressed
    ensures SameExceptBackups(base, old(dir.files), dir.files)
    ensures old(w.count) == 0 ==> dir.files == old(dir.files)
    ensures exact ==> Holds(base, dir.files - view.hidden, Retain(cfg, Current(base, mtimes, maxDays, now, shelf)))
                      && Untouched(view, dir.files)
  {
    hide Holds, Pictures, EntryOk, EntriesOk, IsBackup, Expected, Young, Retain, AfterCompression, Capped,
         Kept, Ready, Untouched, SameExceptBackups;
    SameRefl(base, dir.files);
    ghost var current, start := shelf, dir.files;
    if maxDays > 0 {
      current := DeleteByAge(dir, w, now - maxDays * 86400, exact, base, view, mtimes, shelf);
    }
    ghost var before := dir.files;
    CompactKeeps(base, w.Entries(), current);
    if exact {
      ReadyCompacted(base, view, dir.files, w.Entries(), current);
    }
    w.Compact();
    CompressStage(dir, w, cfg, exact, base, view, current);
    SameTrans(base, start, before, dir.files);
    ghost var squeezed := AfterCompression(cfg, current);
    RetainIsCapped(cfg, current);
    before := dir.files;
    CapStage(dir, w, cfg, exact, base, view, squeezed);
    SameTrans(base, start, before, dir.files);
    if exact {
      ReadyHolds(base, view, dir.files, w.Entries(), Capped(cfg, squeezed));
    }
  }

  lemma ReadyHolds(base: string, view: View, files: map<string, File>, es: seq<Entry>, shelf: seq<Arch>)
    requires Ready(base, view, files, es, shelf)
    ensures Holds(base, files - view.hidden, shelf) && Untouched(view, files)
  {
  }

  /** Without memory for the working set nothing is in sight. */
  lemma BlindCleanup(base: string, cfg: Config, mtimes: map<string, int>, maxDays: int, now: int,
                     files: map<string, File>, known: bool, shelf: seq<Arch>)
    requires known ==> Holds(base, files, shelf)
    ensures SameExceptBackups(base, files, files) && Untouched(View(files.Keys, files), files)
    ensures known ==> Holds(base, files - files.Keys, Cleaned(base, cfg, mtimes, maxDays, now, shelf, files.Keys))
  {
    hide FileName, FileFor, IsBackup, Retain, Current, Visible;
    assert files - files.Keys == map[];
    if known {
      VisibleNone(base, shelf, files.Keys);
      NothingRetained(base, cfg, mtimes, maxDays, now);
    }
  }

  /** When all backups are hidden, none was collected. */
  lemma NoneCollected(base: string, mtimes: map<string, int>, shown: seq<string>, files: map<string, File>,
                      hidden: set<string>)
    requires forall n :: n in shown ==> n in files && n !in hidden
    ensures Backups(base, files) <= hidden ==> Collected(base, mtimes, shown) == []
  {
    hide IsBackup, EntryOf;
    var es := Collected(base, mtimes, shown);
    CollectedMembers(base, mtimes, shown);
    if es != [] {
      assert es[0] in es;
      EntryOfBackup(base, mtimes, es[0].name);
      assert es[0].name in Backups(base, files) && es[0].name !in hidden;
    }
  }

  /** The sort puts what was collected into the order of the shelf. */
  method SortCollected(dir: Directory, w: Arrays, ghost base: string, ghost shown: seq<string>,
                       ghost view: View, ghost known: bool, ghost shelf: seq<Arch>)
    requires w.Valid() && w.Entries() == Collected(base, dir.mtimes, shown)
    requires NoDuplicates(shown) && view.start == dir.files
    requires view.hidden <= dir.files.Keys && forall n :: n in shown <==> n in dir.files - view.hidden
    requires known ==> Holds(base, dir.files, shelf) && Ascending(shelf)
    modifies w`rows, w.names, w.mtimes, w.keys, w.compressed
    ensures w.Valid() && EntriesOk(base, w.Entries()) && w.count == old(w.count)
    ensures forall i :: 0 <= i < w.count ==> w.Entries()[i].name != "" && w.Entries()[i].compressed != 2
    ensures known ==>
              var v := Visible(base, shelf, view.hidden);
              Ready(base, view, dir.files, w.Entries(), v) && w.Entries() == Expected(base, dir.mtimes, v)
  {
    hide Holds, Pictures, Ascending, EntryOk, EntriesOk, IsBackup, Sorted, Collected, Expected, Visible, AllSeen;
    CollectedOk(base, dir.mtimes, shown);
    ghost var collected := w.Entries();
    w.Sort();
    PermutedOk(base, collected, w.Entries());
    FreshlyCollected(base, dir.mtimes, shown, w.Entries());
    if known {
      VisibleHolds(base, dir.files, shelf, view.hidden);
      VisibleAscends(base, shelf, view.hidden);
      SortedPictures(base, dir.files - view.hidden, dir.mtimes, shown, Visible(base, shelf, view.hidden), w.Entries());
      ExpectedSeen(base, dir.files, dir.mtimes, shelf, view.hidden);
    }
  }

  lemma RetainIsCapped(cfg: Config, shelf: seq<Arch>)
    ensures Retain(cfg, shelf) == Capped(cfg, AfterCompression(cfg, shelf))
  {
  }

  lemma CompactKeeps(base: string, es: seq<Entry>, shelf: seq<Arch>)
    requires EntriesOk(base, es)
    ensures EntriesOk(base, Kept(es)) && forall i :: 0 <= i < |Kept(es)| ==> Kept(es)[i].name != ""
    ensures |Kept(es)| <= |es|
    ensures Pictures(base, es, shelf) ==> Pictures(base, Kept(es), shelf)
  {
    hide EntryOk, Kept;
    KeptLength(es);
    KeptAll(Kept(es));
    forall i | 0 <= i < |Kept(es)| ensures EntryOk(base, Kept(es)[i]) {
      assert Kept(es)[i] in es;
    }
  }

  lemma {:induction false} NotCompressedNow(base: string, mtimes: map<string, int>, listing: seq<string>)
    ensures forall e :: e in Collected(base, mtimes, listing) ==> e.compressed != 2
  {
    hide MatchArchive, OrderKey;
    if listing != [] {
      NotCompressedNow(base, mtimes, listing[..|listing| - 1]);
    }
  }

  lemma FreshlyCollected(base: string, mtimes: map<string, int>, listing: seq<string>, es: seq<Entry>)
    requires multiset(es) == multiset(Collected(base, mtimes, listing))
    ensures forall i :: 0 <= i < |es| ==> es[i].compressed != 2
  {
    hide Collected;
    NotCompressedNow(base, mtimes, listing);
    forall i | 0 <= i < |es| ensures es[i].compressed != 2 {
      assert es[i] in multiset(Collected(base, mtimes, listing));
    }
  }

  /** The working set with the backups found in the directory; `shown` are the names
    * that the scan got to see. */
  method CollectBackups(dir: Directory, base: string) returns (w: Arrays, ghost shown: seq<string>)
    requires NameFits(base)
    ensures fresh(w) && fresh(w.names) && fresh(w.mtimes) && fresh(w.keys) && fresh(w.compressed)
    ensures w.Valid() && w.Entries() == Collected(base, dir.mtimes, shown)
    ensures NoDuplicates(shown) && forall n :: n in shown ==> n in dir.files
    ensures dir.roomy && dir.readable ==> forall n :: n in dir.files ==> n in shown
  {
    hide Collected, StemOf, ExtensionOf;
    StemLength(base);
    var stem, ext := SplitName(base, 256, 64);
    w := new Arrays(512);
    var names := dir.List();
    ghost var seen := Collect(dir, w, base, stem, ext, names);
    shown := names[..seen];
  }

  lemma StemLength(base: string)
    ensures |StemOf(base)| <= |base|
  {
  }
}
