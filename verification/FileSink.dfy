/** The file sink: `struct hx_file_sink_impl` with the operations of src/hx_clog_file.c
  * and the rotation of src/hx_clog_rotate.c on it. As long as the sink is intact every
  * operation is one step of RotationModel.dfy, and the directory holds exactly that
  * model's archives. In a directory that can be read, with memory, and whose files can be
  * deleted and compressed, every operation keeps the sink intact.
  */
module FileSinks {
  import opened ArchiveNames
  import opened BackupFiles
  import opened Calendar
  import opened Common
  import opened Platform
  import opened Retention
  import opened RotationModel
  import opened Shelving

  // ---- Small facts about the model ----

  lemma EmptyFiles(active: seq<Chunk>, a: Arch)
    ensures Bytes([]) == ""
    ensures !a.gz ==> FileFor(a) == File(Bytes(a.data), 0)
  {
  }

  lemma StateOfRenamed(s: Log, a: Arch, now: int)
    ensures Renamed(s, a).shelf == s.shelf + [a] && Renamed(s, a).active == []
    ensures !Renamed(s, a).open && !RenameFailed(s, now).open
    ensures RenameFailed(s, now).active == s.active && RenameFailed(s, now).present == s.present
  {
  }

  lemma WholeIsSuffix(s: seq<Chunk>)
    ensures IsSuffix(s, s)
  {
  }

  lemma GoodShelf(cfg: Config, r: Run, tagSec: int)
    requires Good(cfg, r) && MonotoneCalendar(cfg) && r.log.present && r.log.openedSec <= tagSec
    ensures Ascending(r.log.shelf) && NotAfter(r.log.shelf, cfg.local(tagSec).day)
  {
    hide Ascending, NotAfter, IsSuffix, Content, GzFirst, CountGz;
    NotAfterLater(r.log.shelf, cfg.local(r.log.openedSec).day, cfg.local(tagSec).day);
  }

  lemma OpenMeansPresent(cfg: Config, r: Run)
    requires Good(cfg, r)
    ensures r.log.open ==> r.log.present
    ensures !r.log.present ==> r.log.active == []
  {
  }

  lemma NeverDue(cfg: Config, s: Log, incoming: nat, now: int)
    requires cfg.policy.RotateNone? && !cfg.daily
    ensures !RotationDue(cfg, s, incoming, now)
  {
  }

  lemma AcceptedIs(bytes: string, env: Env)
    requires env.accepted <= |bytes|
    ensures Accepted(bytes, env) == bytes[..env.accepted]
  {
    assert bytes[..|bytes|] == bytes;
  }

  lemma AcceptedIrrelevant(cfg: Config, s: Log, incoming: nat, now: int, env: Env, index: nat, n: nat)
    ensures RotationModel.RotateMaybe(cfg, s, incoming, now, env.(accepted := n), index)
         == RotationModel.RotateMaybe(cfg, s, incoming, now, env, index)
  {
  }

  /** A cleanup that sees everything leaves what the retention rule says. */
  lemma SeenAll(base: string, cfg: Config, mtimes: map<string, int>, maxDays: int, now: int,
                files: map<string, File>, shelf: seq<Arch>, hidden: set<string>)
    ensures hidden == {} && maxDays <= 0 ==>
              Cleaned(base, cfg, mtimes, maxDays, now, shelf, hidden) == Retain(cfg, shelf) && files - hidden == files
  {
    hide FileName, Retain, Visible;
    if hidden == {} && maxDays <= 0 {
      VisibleAll(base, shelf, hidden);
    }
  }

  lemma OthersRename(base: string, files: map<string, File>, name: string)
    requires IsBackup(base, name)
    ensures base in files ==> OthersSame(base, files, files[name := files[base]] - {base})
  {
    hide IsBackup;
  }

  lemma RenamedShelf(base: string, files: map<string, File>, shelf: seq<Arch>, a: Arch, top: nat)
    requires Holds(base, files, shelf) && Ascending(shelf) && NotAfter(shelf, a.day)
    requires ValidDay(a.day) && !a.gz && base in files && files[base] == FileFor(a)
    requires Below(base, files, shelf, top) && a.index <= top
    ensures var after := files[FileName(base, a) := files[base]] - {base};
            && (Holds(base, after, shelf + [a]) && Ascending(shelf + [a]) <==> IndexIsNew(shelf, a.day, a.index))
            && Below(base, after, shelf + [a], top + 1)
  {
    hide Holds, FileName, FileFor, IsBackup, IndexIsNew, Ascending, NotAfter, Below, OthersSame;
    var after := files[FileName(base, a) := files[base]] - {base};
    RenameHoldsExactly(base, files, shelf, a);
    BelowGrows(base, files, shelf, a, top);
    NamedBackup(base, a);
    OthersRename(base, files, FileName(base, a));
    BelowSame(base, files, after, shelf + [a], top + 1);
  }

  lemma NamedBackup(base: string, a: Arch)
    requires ValidDay(a.day)
    ensures IsBackup(base, FileName(base, a))
  {
    hide FileName, MatchArchive;
    NameIsBackup(base, a);
  }

  lemma LastOnDisk(base: string, files: map<string, File>, shelf: seq<Arch>)
    requires Holds(base, files, shelf) && shelf != []
    ensures var a := shelf[|shelf| - 1]; FileName(base, a) in files && files[FileName(base, a)] == FileFor(a)
  {
  }

  lemma NameIgnoresData(base: string, a: Arch, b: Arch)
    requires a.day == b.day && a.index == b.index && a.gz == b.gz
    ensures FileName(base, a) == FileName(base, b)
  {
  }

  lemma ShelfAscends(cfg: Config, r: Run)
    requires Good(cfg, r)
    ensures Ascending(r.log.shelf)
  {
  }

  class FileSink {
    const dir: Directory
    const base: string
    const cfg: Config
    const maxDays: int

    /** `fp != NULL`. */
    var isOpen: bool
    var currentSize: nat
    var curYear: int
    var curYday: int
    var openedSec: int
    var renameFailing: bool
    var rotateFailSec: int
    var writeFailing: bool

    /** Whether the directory still is what the model says. */
    ghost var intact: bool
    /** While the sink is intact, all indices in the directory are below this. */
    ghost var top: nat
    ghost var shelf: seq<Arch>
    ghost var active: seq<Chunk>
    ghost var clock: int
    ghost var stream: seq<Chunk>

    ghost function State(): Log
      reads this, dir
    {
      Log(shelf, active, base in dir.files, isOpen, currentSize, curYear, curYday, openedSec,
          renameFailing, rotateFailSec, writeFailing)
    }

    ghost function History(): Run
      reads this, dir
    {
      Run(State(), clock, stream)
    }

    /** The directory holds exactly the archives and the active file of the model. */
    ghost predicate OnDisk()
      reads this, dir
    {
      && Holds(base, dir.files, shelf) && Below(base, dir.files, shelf, top)
      && (base in dir.files ==> dir.files[base] == File(Bytes(active), 0))
    }

    /** Nothing fails that a rotation needs for keeping the model's archives. */
    ghost predicate Sound() {
      dir.Works() && maxDays <= 0
    }

    ghost predicate Setting() {
      NameFits(base) && MonotoneCalendar(cfg)
    }

    ghost predicate Valid()
      reads this, dir
    {
      Setting() && (isOpen ==> base in dir.files) && (intact ==> OnDisk() && Good(cfg, History()))
    }

    /** Before the first open at `now`. An intact directory may hold a log and archives of
      * an earlier process, none of them dated later. */
    ghost predicate Startable(now: int)
      reads this, dir
    {
      && Setting() && !isOpen
      && (intact ==>
            && OnDisk() && openedSec <= now && (base !in dir.files ==> active == [])
            && Ascending(shelf) && GzFirst(shelf) && (!cfg.zlib ==> CountGz(shelf) == 0)
            && NotAfter(shelf, cfg.local(now).day) && stream == Content(shelf) + active)
    }

    /** The zeroed struct of `hx_sink_file_create`, with the configuration copied in. */
    constructor (dir: Directory, base: string, cfg: Config, maxDays: int,
                 ghost intact: bool, ghost shelf: seq<Arch>, ghost active: seq<Chunk>, ghost top: nat)
      ensures this.dir == dir && this.base == base && this.cfg == cfg && this.maxDays == maxDays
      ensures this.shelf == shelf && this.active == active && stream == Content(shelf) + active
      ensures this.intact == intact && this.top == top && !isOpen && openedSec == 0 && currentSize == 0
      ensures !renameFailing && !writeFailing && rotateFailSec == 0
    {
      this.dir, this.base, this.cfg, this.maxDays := dir, base, cfg, maxDays;
      this.intact, this.shelf, this.active, this.top := intact, shelf, active, top;
      stream, clock := Content(shelf) + active, 0;
      isOpen, currentSize, curYear, curYday, openedSec := false, 0, 0, 0, 0;
      renameFailing, rotateFailSec, writeFailing := false, 0, false;
    }

    /** `hx_file_open_active`. */
    method OpenActive(now: int) returns (ok: bool)
      requires !isOpen && (intact ==> OnDisk() && (base !in dir.files ==> active == []))
      modifies dir, `isOpen, `currentSize, `curYear, `curYday, `openedSec
      ensures OthersSame(base, old(dir.files), dir.files) && (isOpen ==> base in dir.files) && isOpen == ok
      ensures dir.opens ==> ok
      ensures dir.files == if ok && base !in old(dir.files) then old(dir.files)[base := File("", 0)] else old(dir.files)
      ensures ok ==>
                && currentSize == |dir.files[base].data| && openedSec == now
                && curYear == cfg.local(now).year && curYday == cfg.local(now).yday
      ensures intact ==> OnDisk() && State() == RotationModel.OpenActive(cfg, old(State()), now, ok)
    {
      hide Holds, IsBackup, Bytes, Below;
      ghost var before := dir.files;
      ok := dir.OpenAppend(base);
      ActiveIsNoBackup(base);
      if intact {
        HoldsSame(base, before, dir.files, shelf);
        BelowSame(base, before, dir.files, shelf, top);
        EmptyFiles(active, NO_ARCH);
      }
      if !ok {
        return;
      }
      isOpen := true;
      currentSize := |dir.files[base].data|;
      curYear, curYday := cfg.local(now).year, cfg.local(now).yday;
      openedSec := now;
    }

    /** The name for an archive of the day of `tagSec`, with the index after the highest
      * one that the scan of the directory sees. When the directory can be read, that index
      * is new as long as there is room. */
    method NextName(tagSec: int) returns (name: string, index: nat)
      requires Setting()
      ensures ValidDay(cfg.local(tagSec).day) && name != base && IsBackup(base, name)
      ensures name == FileName(base, Arch(cfg.local(tagSec).day, index, false, active))
      ensures dir.readable ==> forall n :: n in dir.files ==>
                IndexIn(n, Needle(StemOf(base), cfg.local(tagSec).day)) < index
      ensures index == 1 || exists n :: (n in dir.files
                && IndexIn(n, Needle(StemOf(base), cfg.local(tagSec).day)) == index - 1)
      ensures OnDisk() && Ascending(shelf) ==> index <= top
      ensures OnDisk() && Ascending(shelf) && dir.readable && index < INDEX_SPAN
              ==> IndexIsNew(shelf, cfg.local(tagSec).day, index)
    {
      hide Holds, IndexIsNew, Ascending, ArchiveName, IndexIn, Needle, StemOf, ExtensionOf, MatchArchive, Bytes, Below;
      var day := cfg.local(tagSec).day;
      StemLength(base);
      var stem, ext := SplitName(base, 256, 64);
      var names := dir.List();
      index := NextIndex(names, stem, day);
      if OnDisk() && Ascending(shelf) {
        ScanStaysBelow(base, dir.files, names, shelf, day, index, top);
        if dir.readable && index < INDEX_SPAN {
          ScannedIndexIsNew(base, dir.files, names, shelf, day, index);
        }
      }
      name := ArchiveName(stem, ext, day, index);
      assert name + "" == name;
      NameIsBackup(base, Arch(day, index, false, active));
      ActiveIsNoBackup(base);
    }

    /** Close the active file and rename it. The sink stays intact when the directory then
      * holds the old archives and the new one in the order of their keys, which is so
      * exactly when the index is new. */
    method RenameActive(name: string, now: int, ghost arch: Arch) returns (ok: bool)
      requires Setting() && (intact ==> OnDisk() && Ascending(shelf) && arch.index <= top)
      requires intact && base in dir.files ==> NotAfter(shelf, arch.day)
      requires ValidDay(arch.day) && !arch.gz && arch.data == active
      requires name == FileName(base, arch) && name != base && IsBackup(base, name)
      modifies dir, `isOpen, `renameFailing, `rotateFailSec, `intact, `shelf, `active, `top
      ensures OthersSame(base, old(dir.files), dir.files) && !isOpen
      ensures ok ==> base in old(dir.files)
      ensures dir.renames && base in old(dir.files) ==> ok
      ensures dir.files == if ok then old(dir.files)[name := old(dir.files)[base]] - {base} else old(dir.files)
      ensures renameFailing == !ok && rotateFailSec == if ok then 0 else now
      ensures intact == (old(intact) && (ok ==> IndexIsNew(old(shelf), arch.day, arch.index)))
      ensures intact ==> OnDisk() && Ascending(shelf) && top == old(top) + (if ok then 1 else 0)
      ensures intact ==> State() == if ok then Renamed(old(State()), arch) else RenameFailed(old(State()), now)
    {
      hide Holds, FileName, Bytes, IsBackup, IndexIsNew, Ascending, NotAfter, Below, OthersSame;
      EmptyFiles(active, arch);
      OthersRefl(base, dir.files);
      OthersRename(base, dir.files, name);
      ghost var before, was := dir.files, intact;
      isOpen := false;
      ok := dir.Rename(base, name);
      if !ok {
        renameFailing, rotateFailSec := true, now;
      } else {
        renameFailing, rotateFailSec := false, 0;
        if was {
          RenamedShelf(base, before, shelf, arch, top);
        }
        shelf, active, top := shelf + [arch], [], top + 1;
        intact := was && Holds(base, dir.files, shelf) && Ascending(shelf);
      }
    }

    /** Reopen after the rename, and clean up. The sink stays intact when the directory
      * then holds what the retention rule leaves, or all that was there before; and that
      * is so whenever the cleanup sees everything and can do its work. */
    method OpenFresh(now: int) returns (ok: bool, ghost cleaned: bool)
      requires Setting() && !isOpen && (intact ==> OnDisk() && active == [] && Ascending(shelf))
      modifies dir, `isOpen, `currentSize, `curYear, `curYday, `openedSec, `intact, `shelf
      ensures OthersSame(base, old(dir.files), dir.files) && (isOpen ==> base in dir.files) && isOpen == ok
      ensures dir.opens ==> ok
      ensures intact ==> old(intact)
      ensures old(intact) && (ok ==> Sound()) ==> intact
      ensures ok ==> base in dir.files && currentSize == 0 && openedSec == now
      ensures ok && base !in old(dir.files) ==> dir.files[base] == File("", 0)
      ensures old(intact) && !intact ==>
                !Holds(base, dir.files, old(shelf)) && !Holds(base, dir.files, Retain(cfg, old(shelf)))
      ensures intact ==> OnDisk() && State() == RotationModel.OpenFresh(cfg, old(State()), now, ok, cleaned)
      ensures Sound() ==> cleaned
    {
      hide Holds, MonotoneCalendar, Ascending, Retain, Current, Bytes, IsBackup, Size, Below, Visible;
      cleaned := Sound();
      ok := OpenActive(now);
      if ok {
        currentSize := 0;
        ghost var mtimes, before := dir.mtimes, dir.files;
        ghost var hidden := Cleanup(dir, base, cfg, maxDays, now, intact, shelf);
        if intact {
          SeenAll(base, cfg, mtimes, maxDays, now, dir.files, shelf, hidden);
          BelowSame(base, before, dir.files, shelf, top);
          BelowRetain(base, dir.files, cfg, shelf, top);
          cleaned := Holds(base, dir.files, Retain(cfg, shelf));
          intact := cleaned || Holds(base, dir.files, shelf);
          if cleaned {
            shelf := Retain(cfg, shelf);
          }
        }
      }
    }

    /** The active file is new and empty. */
    ghost predicate StartedAfresh(now: int)
      reads this, dir
    {
      isOpen && currentSize == 0 && openedSec == now && base in dir.files && dir.files[base] == File("", 0)
    }

    /** There is a new plain backup for `day`, and it holds exactly what was in the active
      * file. */
    ghost predicate Archived(before: map<string, File>, day: Day, index: nat)
      reads dir
    {
      var name := FileName(base, Arch(day, index, false, []));
      base in before && name !in before && name in dir.files && dir.files[name] == before[base]
    }

    /** Open a file again after the rename succeeded or failed. */
    method OpenAgain(renamed: bool, now: int) returns (ok: bool, ghost cleaned: bool)
      requires Setting() && !isOpen && (intact ==> OnDisk() && Ascending(shelf))
      requires intact ==> if renamed then active == [] else base in dir.files || active == []
      modifies dir, `isOpen, `currentSize, `curYear, `curYday, `openedSec, `intact, `shelf
      ensures OthersSame(base, old(dir.files), dir.files) && (isOpen ==> base in dir.files) && isOpen == ok
      ensures dir.opens ==> ok
      ensures intact ==> old(intact)
      ensures old(intact) && (renamed && ok ==> Sound()) ==> intact
      ensures ok && renamed && base !in old(dir.files) ==> StartedAfresh(now)
      ensures !renamed && base in old(dir.files) ==> dir.files == old(dir.files)
      ensures Sound() ==> cleaned
      ensures intact ==>
                OnDisk() && State() == if renamed
                                       then RotationModel.OpenFresh(cfg, old(State()), now, ok, cleaned)
                                       else RotationModel.OpenActive(cfg, old(State()), now, ok)
    {
      hide Holds, MonotoneCalendar, Ascending, Bytes, Below, OthersSame, Retain, Sound,
           RotationModel.OpenActive, RotationModel.OpenFresh;
      if renamed {
        ok, cleaned := OpenFresh(now);
      } else {
        ok := OpenActive(now);
        cleaned := Sound();
      }
    }

    /** What a rotation under the day of `tagSec` guarantees: the sink stays intact when
      * the directory can be read, there is memory, deleting and compressing do not fail,
      * and there is room below 10^8; and a taken index ends it. */
    ghost predicate Survives(was: bool, oldTop: nat, oldShelf: seq<Arch>, day: Day, env: Env, index: nat)
      reads this
    {
      && (intact ==> was && top <= oldTop + 1)
      && (was && Sound() && oldTop < INDEX_SPAN ==> intact)
      && (was && env.renameOk && !IndexIsNew(oldShelf, day, index) ==> !intact)
      && (Sound() ==> env.cleaned)
    }

    /** Name the archive after the day of `tagSec`, rename, reopen, clean up. */
    method ShelveFiles(tagSec: int, now: int) returns (ghost env: Env, ghost index: nat)
      requires Valid() && (intact ==> clock <= now && openedSec <= tagSec <= now)
      modifies dir, this
      ensures Setting() && (isOpen ==> base in dir.files) && (intact ==> OnDisk())
      ensures clock == old(clock) && stream == old(stream)
      ensures OthersSame(base, old(dir.files), dir.files)
      ensures Survives(old(intact), old(top), old(shelf), cfg.local(tagSec).day, env, index)
      ensures Granted(old(base in dir.files), env) && isOpen == env.openOk
      ensures env.renameOk && env.openOk ==> StartedAfresh(now)
      ensures !env.renameOk ==> rotateFailSec == now && (base in old(dir.files) ==> dir.files == old(dir.files))
      ensures env.renameOk ==> base in old(dir.files)
      ensures intact ==> State() == RotationModel.Archive(cfg, old(State()), tagSec, now, env, index)
    {
      hide Good, MonotoneCalendar, Holds, IndexIsNew, Ascending, FileName, Bytes, IsBackup, NotAfter, Below, Sound,
           Needle, IndexIn, RotationModel.OpenActive, RotationModel.OpenFresh, Renamed, RenameFailed, OthersSame;
      ghost var start, before := History(), dir.files;
      if intact {
        if start.log.present {
          GoodShelf(cfg, start, tagSec);
        }
        ShelfAscends(cfg, start);
        OpenMeansPresent(cfg, start);
      }
      var name;
      name, index := NextName(tagSec);
      ghost var arch := Arch(cfg.local(tagSec).day, index, false, active);
      var renamed := RenameActive(name, now, arch);
      ghost var middle := dir.files;
      StateOfRenamed(start.log, arch, now);
      var ok;
      ghost var cleaned;
      ok, cleaned := OpenAgain(renamed, now);
      OthersTrans(base, before, middle, dir.files);
      env := Env(renamed, ok, cleaned, 0);
      NewWhenSound();
    }

    /** The calls that never fail in this directory did not. */
    ghost predicate Granted(present: bool, env: Env) {
      && (dir.renames && present ==> env.renameOk) && (dir.opens ==> env.openOk)
    }

    lemma NewWhenSound()
      ensures Sound() ==> dir.readable
    {
    }

    /** The common part of `hx_rotate_maybe` and `hx_rotate_force`. */
    method Shelve(tagSec: int, now: int) returns (ghost env: Env, ghost index: nat)
      requires Valid() && (intact ==> clock <= now && openedSec <= tagSec <= now)
      modifies dir, this
      ensures Valid() && clock == now && stream == old(stream)
      ensures OthersSame(base, old(dir.files), dir.files)
      ensures Survives(old(intact), old(top), old(shelf), cfg.local(tagSec).day, env, index)
      ensures Granted(old(base in dir.files), env) && isOpen == env.openOk
      ensures env.renameOk && env.openOk ==> StartedAfresh(now)
      ensures !env.renameOk ==> rotateFailSec == now && (base in old(dir.files) ==> dir.files == old(dir.files))
      ensures intact && env.renameOk ==> Archived(old(dir.files), cfg.local(tagSec).day, index)
      ensures intact ==> State() == RotationModel.Archive(cfg, old(State()), tagSec, now, env, index)
    {
      hide Good, MonotoneCalendar, Holds, Bytes, IndexIsNew, Below, Sound, RotationModel.Archive, OthersSame, Archived,
           FileFor;
      CalendarStep(cfg, tagSec, tagSec);
      ghost var start, before := History(), dir.files;
      EmptyFiles(active, Arch(cfg.local(tagSec).day, 0, false, active));
      env, index := ShelveFiles(tagSec, now);
      clock := now;
      if intact {
        ArchiveKeepsGood(cfg, start, tagSec, now, env, index);
        if env.renameOk {
          NewestOnDisk(start, before, tagSec, now, env, index);
        }
      }
    }

    /** The newest archive is in the directory, whatever retention did to the others. */
    lemma NewestOnDisk(start: Run, before: map<string, File>, tagSec: int, now: int, env: Env, index: nat)
      requires OnDisk() && Good(cfg, start) && start.log.present == (base in before) && env.renameOk
      requires ValidDay(cfg.local(tagSec).day) && base in before && before[base] == File(Bytes(start.log.active), 0)
      requires Holds(base, before, start.log.shelf) && IndexIsNew(start.log.shelf, cfg.local(tagSec).day, index)
      requires State() == RotationModel.Archive(cfg, start.log, tagSec, now, env, index)
      ensures Archived(before, cfg.local(tagSec).day, index)
    {
      hide Good, Holds, Bytes, IndexIsNew, Below, Retain, FileName, Ascending, FileFor;
      var day := cfg.local(tagSec).day;
      var arch := Arch(day, index, false, start.log.active);
      EmptyFiles([], arch);
      RetainKeepsNewest(cfg, start.log.shelf + [arch]);
      assert shelf != [] && shelf[|shelf| - 1] == arch;
      LastOnDisk(base, dir.files, shelf);
      ShelfAscends(cfg, start);
      NewIndexNewName(base, before, start.log.shelf, arch);
      NameIgnoresData(base, arch, Arch(day, index, false, []));
    }

    /** The end of `hx_sink_file_create`: open, and with `rotate_on_startup` archive a file
      * that is not empty. */
    method Start(onStartup: bool, now: int) returns (ok: bool, ghost env: Env, ghost index: nat)
      requires Startable(now)
      modifies dir, this
      ensures OthersSame(base, old(dir.files), dir.files)
      ensures dir.opens ==> ok && isOpen
      ensures ok ==> Valid() && clock == now && stream == old(stream)
      ensures ok && intact ==>
                var begun := Run(RotationModel.OpenActive(cfg, old(State()), now, true), now, old(stream));
                var rotate := DoForce(now, env, index);
                && Good(cfg, begun) && (onStartup ==> Legal(cfg, begun, rotate))
                && History() == if onStartup then Step(cfg, begun, rotate) else begun
      ensures intact ==> old(intact) && top <= old(top) + 1
      ensures ok && old(intact) && (onStartup ==> Sound() && old(top) < INDEX_SPAN) ==> intact
      ensures dir.opens && dir.renames && onStartup && base in old(dir.files) && old(dir.files)[base].data != "" ==>
                StartedAfresh(now) && (intact && now > 0 ==> Archived(old(dir.files), cfg.local(now).day, index))
      ensures !onStartup && base in old(dir.files) ==> dir.files == old(dir.files)
    {
      hide Holds, MonotoneCalendar, Ascending, GzFirst, NotAfter, IsSuffix, Content, CountGz, OthersSame, Bytes,
           Below, IndexIsNew, RotationModel.Archive, Size, StartedAfresh, Archived;
      ghost var files := dir.files;
      env, index := Env(true, true, true, 0), 0;
      ok := OpenActive(now);
      clock := now;
      if ok {
        WholeIsSuffix(stream);
        assert Valid();
        if onStartup && currentSize > 0 {
          ghost var middle := dir.files;
          env, index := RotateForce(now);
          OthersTrans(base, files, middle, dir.files);
        }
      }
    }

    /** The decision of `hx_rotate_maybe`. */
    method Due(incoming: nat, now: int) returns (due: bool, needTime: bool)
      ensures due == RotationDue(cfg, State(), incoming, now)
      ensures due ==> needTime == TimeDue(cfg, State(), now)
      ensures var byTime := cfg.policy == ByTime || cfg.policy == BySizeAndTime;
              var bySize := cfg.policy == BySize || cfg.policy == BySizeAndTime;
              var full := bySize && cfg.maxSize > 0 && currentSize > 0 && currentSize + incoming > cfg.maxSize;
              var newDay := (cfg.daily || byTime)
                            && !(cfg.local(now).year == curYear && cfg.local(now).yday == curYday);
              var over := byTime && cfg.interval > 0 && currentSize > 0
                          && if cfg.align then TruncDiv(now, cfg.interval) != TruncDiv(openedSec, cfg.interval)
                             else now - openedSec >= cfg.interval;
              && (due <==> !(rotateFailSec != 0 && now <= rotateFailSec) && (full || newDay || over))
              && (due ==> (needTime <==> newDay || over))
    {
      if rotateFailSec != 0 && now <= rotateFailSec {
        return false, false;
      }
      var needSize := false;
      needTime := false;
      if (cfg.policy.BySize? || cfg.policy.BySizeAndTime?) && cfg.maxSize > 0 {
        if currentSize + incoming > cfg.maxSize && currentSize > 0 {
          needSize := true;
        }
      }
      if cfg.daily || cfg.policy.ByTime? || cfg.policy.BySizeAndTime? {
        if cfg.local(now).yday != curYday || cfg.local(now).year != curYear {
          needTime := true;
        }
      }
      if (cfg.policy.ByTime? || cfg.policy.BySizeAndTime?) && cfg.interval > 0 && currentSize > 0 {
        if cfg.align {
          if TruncDiv(now, cfg.interval) != TruncDiv(openedSec, cfg.interval) {
            needTime := true;
          }
        } else if now >= openedSec + cfg.interval {
          needTime := true;
        }
      }
      due := needSize || needTime;
    }

    /** What an operation on `s` guarantees that rotates under `day` when `due`. */
    ghost predicate RotatedIf(due: bool, was: bool, oldTop: nat, s: Log, day: Day, env: Env, index: nat)
      reads this
    {
      && (if due then Survives(was, oldTop, s.shelf, day, env, index) && Granted(s.present, env)
                      && isOpen == env.openOk
          else intact == was && top == oldTop && env.renameOk && env.openOk)
      && (dir.opens && s.open ==> isOpen)
    }

    /** `hx_rotate_maybe`. */
    method RotateMaybe(incoming: nat, now: int) returns (ghost env: Env, ghost index: nat)
      requires Valid() && (intact ==> clock <= now)
      modifies dir, this
      ensures Valid() && clock == now && stream == old(stream)
      ensures OthersSame(base, old(dir.files), dir.files)
      ensures RotatedIf(RotationDue(cfg, old(State()), incoming, now), old(intact), old(top), old(State()),
                        cfg.local(TagSecond(cfg, old(State()), now)).day, env, index)
      ensures var due := RotationDue(cfg, old(State()), incoming, now);
              && (!due ==> dir.files == old(dir.files) && isOpen == old(isOpen) && currentSize == old(currentSize)
                           && openedSec == old(openedSec))
              && (due && env.renameOk && env.openOk ==> StartedAfresh(now))
              && (due && env.renameOk && intact ==>
                    Archived(old(dir.files), cfg.local(TagSecond(cfg, old(State()), now)).day, index))
      ensures intact ==> State() == RotationModel.RotateMaybe(cfg, old(State()), incoming, now, env, index)
    {
      hide Holds, MonotoneCalendar, Good, IndexIsNew, RotationDue, TimeDue, RotationModel.Archive, OthersSame,
           Below, Survives, Bytes, StartedAfresh, Archived;
      OthersRefl(base, dir.files);
      env, index := Env(true, true, true, 0), 0;
      if intact {
        Waiting(cfg, History(), now);
        TagIsPast(cfg, History(), now);
      }
      var due, needTime := Due(incoming, now);
      if due {
        var tagSec := if needTime && openedSec > 0 then openedSec else now;
        env, index := Shelve(tagSec, now);
      } else {
        clock := now;
      }
    }

    /** `hx_rotate_force`. */
    method RotateForce(now: int) returns (ghost env: Env, ghost index: nat)
      requires Valid() && (intact ==> clock <= now)
      modifies dir, this
      ensures Valid() && clock == now && stream == old(stream)
      ensures OthersSame(base, old(dir.files), dir.files)
      ensures RotatedIf(ForceDue(old(State())), old(intact), old(top), old(State()),
                        cfg.local(ForceSecond(old(State()), now)).day, env, index)
      ensures intact ==>
                && Legal(cfg, old(History()), DoForce(now, env, index))
                && History() == Step(cfg, old(History()), DoForce(now, env, index))
      ensures !old(isOpen) || old(currentSize) == 0 ==>
                dir.files == old(dir.files) && isOpen == old(isOpen) && currentSize == old(currentSize)
      ensures old(isOpen) && old(currentSize) > 0 && dir.renames && dir.opens ==> StartedAfresh(now)
      ensures old(isOpen) && old(currentSize) > 0 && dir.renames && intact ==>
                Archived(old(dir.files), cfg.local(if old(openedSec) > 0 then old(openedSec) else now).day, index)
      ensures old(isOpen) && old(currentSize) > 0 && old(intact) && Sound() && old(top) < INDEX_SPAN ==> intact
    {
      hide Holds, MonotoneCalendar, Good, IndexIsNew, RotationModel.Archive, OthersSame, Below, Bytes, Sound,
           StartedAfresh, Archived;
      OthersRefl(base, dir.files);
      env, index := Env(true, true, true, 0), 0;
      if intact {
        Waiting(cfg, History(), now);
        TagIsPast(cfg, History(), now);
      }
      if !isOpen || currentSize == 0 {
        clock := now;
        return;
      }
      var tagSec := if openedSec > 0 then openedSec else now;
      env, index := Shelve(tagSec, now);
    }

    /** `fwrite` and the new size. */
    method AppendBytes(bytes: string, now: int) returns (written: nat)
      requires base in dir.files && (intact ==> OnDisk())
      modifies dir, `currentSize, `active, `stream
      ensures written <= |bytes| && currentSize == old(currentSize) + written
      ensures dir.accepts ==> written == |bytes|
      ensures var was := old(dir.files)[base];
              dir.files == old(dir.files)[base := File(was.data + bytes[..written], was.zips)]
      ensures base in dir.files && OthersSame(base, old(dir.files), dir.files) && (intact ==> OnDisk())
      ensures active == old(active) + Written(bytes[..written], now)
      ensures stream == old(stream) + Written(bytes[..written], now)
    {
      hide Holds, Bytes, IsBackup, Written, Below;
      ghost var before := dir.files;
      written := dir.Append(base, bytes);
      currentSize := currentSize + written;
      ghost var w := Written(bytes[..written], now);
      if intact {
        ActiveIsNoBackup(base);
        HoldsSame(base, before, dir.files, shelf);
        BelowSame(base, before, dir.files, shelf, top);
        BytesConcat(active, w);
        WrittenBytes(bytes[..written], now);
      }
      active, stream := active + w, stream + w;
    }

    /** The second half of `file_write`. */
    method AppendLine(bytes: string, now: int) returns (written: nat)
      requires Valid() && clock == now && isOpen
      modifies dir, this
      ensures Valid() && clock == now && written <= |bytes| && (dir.accepts ==> written == |bytes|)
      ensures intact == old(intact) && top == old(top) && isOpen
      ensures currentSize == old(currentSize) + written && (writeFailing <==> written < |bytes|)
      ensures var was := old(dir.files)[base];
              dir.files == old(dir.files)[base := File(was.data + bytes[..written], was.zips)]
      ensures OthersSame(base, old(dir.files), dir.files)
      ensures stream == old(stream) + Written(bytes[..written], now)
      ensures intact ==>
                forall env: Env :: env.accepted == written ==> State() == WriteOpen(old(State()), bytes, now, env)
    {
      hide Holds, Bytes, MonotoneCalendar, Good, Written, OthersSame, Below;
      ghost var start := History();
      written := AppendBytes(bytes, now);
      if written != |bytes| {
        writeFailing := true;
      } else if writeFailing {
        writeFailing := false;
      }
      AcceptedIs(bytes, Env(true, true, true, written));
      if intact {
        WriteOpenKeepsGood(cfg, start, bytes, now, Env(true, true, true, written));
      }
    }

    /** The first half of `file_write`. */
    method RotateForWrite(bytes: string, now: int) returns (ghost env: Env, ghost index: nat)
      requires Valid() && (intact ==> clock <= now)
      modifies dir, this
      ensures Valid() && clock == now && stream == old(stream)
      ensures OthersSame(base, old(dir.files), dir.files)
      ensures RotatedIf(RotationDue(cfg, old(State()), |bytes|, now), old(intact), old(top), old(State()),
                        cfg.local(TagSecond(cfg, old(State()), now)).day, env, index)
      ensures var due := RotationDue(cfg, old(State()), |bytes|, now);
              && (!due ==> dir.files == old(dir.files) && isOpen == old(isOpen) && currentSize == old(currentSize)
                           && openedSec == old(openedSec))
              && (due && env.renameOk && env.openOk ==> StartedAfresh(now))
              && (due && env.renameOk && intact ==>
                    Archived(old(dir.files), cfg.local(TagSecond(cfg, old(State()), now)).day, index))
      ensures intact ==> Legal(cfg, old(History()), DoWrite(bytes, now, env, index))
      ensures intact ==>
                forall n: nat :: State() == RotationModel.RotateForWrite(cfg, old(State()), bytes, now,
                                                                         env.(accepted := n), index)
    {
      hide Holds, MonotoneCalendar, Good, IndexIsNew, RotationModel.RotateMaybe, RotationDue, OthersSame, Below,
           Bytes, Sound, StartedAfresh, Archived;
      OthersRefl(base, dir.files);
      env, index := Env(true, true, true, 0), 0;
      ghost var start := State();
      if !cfg.policy.RotateNone? || cfg.daily {
        env, index := RotateMaybe(|bytes|, now);
        forall n: nat {
          AcceptedIrrelevant(cfg, start, |bytes|, now, env, index, n);
        }
      } else {
        if intact {
          Waiting(cfg, History(), now);
        }
        NeverDue(cfg, start, |bytes|, now);
        clock := now;
      }
    }

    /** `file_write`. */
    method Write(bytes: string, now: int) returns (ok: bool, ghost env: Env, ghost index: nat)
      requires Valid() && (intact ==> clock <= now)
      modifies dir, this
      ensures Valid() && clock == now
      ensures OthersSame(base, old(dir.files), dir.files)
      ensures RotatedIf(RotationDue(cfg, old(State()), |bytes|, now), old(intact), old(top), old(State()),
                        cfg.local(TagSecond(cfg, old(State()), now)).day, env, index)
      ensures intact ==>
                && Legal(cfg, old(History()), DoWrite(bytes, now, env, index))
                && History() == Step(cfg, old(History()), DoWrite(bytes, now, env, index))
      ensures ok ==> stream == old(stream) + Written(bytes, now)
      ensures dir.opens && dir.accepts && old(isOpen) ==> ok && |bytes| <= env.accepted
      ensures ok ==> isOpen && base in dir.files
      ensures var due := RotationDue(cfg, old(State()), |bytes|, now);
              && (ok && !due ==>
                    old(isOpen) && var was := old(dir.files)[base];
                    dir.files == old(dir.files)[base := File(was.data + bytes, was.zips)])
              && (ok && due && env.renameOk ==> dir.files[base] == File(bytes, 0))
              && (due && env.renameOk && intact ==>
                    Archived(old(dir.files), cfg.local(TagSecond(cfg, old(State()), now)).day, index))
    {
      hide Holds, MonotoneCalendar, Good, IndexIsNew, RotationModel.RotateForWrite, Written, WriteOpen, Accepted,
           RotationDue, OthersSame, Below, Bytes;
      ghost var before := dir.files;
      env, index := RotateForWrite(bytes, now);
      if !isOpen {
        assert env.(accepted := env.accepted) == env;
        return false, env, index;
      }
      ghost var middle, rotated := dir.files, env;
      var written := AppendLine(bytes, now);
      OthersTrans(base, before, middle, dir.files);
      env := env.(accepted := written);
      AcceptedIs(bytes, env);
      assert bytes[..|bytes|] == bytes && "" + bytes == bytes;
      ok := written == |bytes|;
    }

    /** `hx_sink_file_reopen`. */
    method Reopen(now: int) returns (ok: bool)
      requires Valid() && (intact ==> clock <= now)
      modifies dir, this
      ensures Valid() && intact == old(intact) && top == old(top) && clock == now && stream == old(stream)
      ensures OthersSame(base, old(dir.files), dir.files)
      ensures dir.opens ==> ok
      ensures isOpen == ok
      ensures dir.files == if ok && base !in old(dir.files) then old(dir.files)[base := File("", 0)] else old(dir.files)
      ensures ok ==> base in dir.files && currentSize == |dir.files[base].data| && openedSec == now
                     && curYear == cfg.local(now).year && curYday == cfg.local(now).yday
      ensures intact ==> History() == Step(cfg, old(History()), DoReopen(now, ok))
    {
      hide Holds, MonotoneCalendar, Good, OthersSame, Below, Bytes;
      ghost var start := History();
      if intact {
        OpenMeansPresent(cfg, start);
      }
      isOpen := false;
      ok := OpenActive(now);
      clock := now;
      if intact {
        StepKeepsGood(cfg, start, DoReopen(now, ok));
      }
    }
  }

  /** The backups in the directory, put into the order of the keys parsed from their
    * names, unpacked and followed by the active file, are a suffix of everything
    * written to the sink, and all of it when no count limit deletes. */
  lemma {:induction false} DirectoryHoldsStream(sink: FileSink) returns (names: seq<string>)
    requires sink.Valid() && sink.intact
    ensures InOrder(sink.base, sink.dir.files, names)
    ensures var found := Found(sink.base, sink.dir.files, names);
            && IsSuffix(found, Bytes(sink.stream))
            && (Whole(sink.History()) ==> found == Bytes(sink.stream))
  {
    hide FileName, Bytes, IsBackup, MonotoneCalendar, Key, FileFor, InOrder, Contents, Below, Holds, Content;
    var base, shelf, files := sink.base, sink.shelf, sink.dir.files;
    names := ShelfNames(base, shelf);
    ShelfInOrder(base, files, shelf);
    NoBytesAtAll();
    BytesSuffix(Content(shelf) + sink.active, sink.stream);
    BytesConcat(Content(shelf), sink.active);
  }
}
