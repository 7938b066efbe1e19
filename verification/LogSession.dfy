/** A file sink in use: any sequence of lines, forced rotations and reopens, and what an
  * operator then finds in the directory. */
module LogSession {
  import opened ArchiveNames
  import opened BackupFiles
  import opened FileSinks
  import opened Platform
  import opened Retention
  import opened RotationModel
  import opened RotationShape
  import opened Shelving

  /** A call on the sink at second `now`. */
  datatype Call = Line(bytes: string, now: int) | Force(now: int) | Reopen(now: int)

  /** The action of the model that is this call, with whatever the environment did. */
  predicate Performs(a: Action, c: Call) {
    match c
    case Line(bytes, now) => a.DoWrite? && a.bytes == bytes && a.now == now
    case Force(now) => a.DoForce? && a.now == now
    case Reopen(now) => a.DoReopen? && a.now == now
  }

  predicate Traces(done: seq<Action>, calls: seq<Call>) {
    |done| <= |calls| && forall i :: 0 <= i < |done| ==> Performs(done[i], calls[i])
  }

  /** Nothing failed while lines were written. */
  predicate NoFailures(done: seq<Action>, calls: seq<Call>) {
    forall i :: 0 <= i < |done| && i < |calls| && calls[i].Line? ==> Quiet(done[i])
  }

  lemma OneMore(done: seq<Action>, calls: seq<Call>, a: Action)
    requires Traces(done, calls) && |done| < |calls| && Performs(a, calls[|done|])
    ensures Traces(done + [a], calls)
    ensures NoFailures(done, calls) && (calls[|done|].Line? ==> Quiet(a)) ==> NoFailures(done + [a], calls)
  {
    hide Performs, Quiet;
  }

  /** The clock does not go back. */
  predicate InTime(clock: int, calls: seq<Call>) {
    && (forall i :: 0 <= i < |calls| ==> clock <= calls[i].now)
    && (forall i, j :: 0 <= i < j < |calls| ==> calls[i].now <= calls[j].now)
  }

  /** The bytes of all lines. */
  function Lines(calls: seq<Call>): string {
    if calls == [] then ""
    else
      var n := |calls| - 1;
      Lines(calls[..n]) + (if calls[n].Line? then calls[n].bytes else "")
  }

  /** The lines of two sequences of calls follow each other, and a call's line is its bytes. */
  lemma LinesExactly(a: seq<Call>, b: seq<Call>, c: Call)
    ensures Lines(a + b) == Lines(a) + Lines(b)
    ensures Lines([c]) == if c.Line? then c.bytes else ""
  {
    hide Lines;
    LinesJoin(a, b);
    LinesOfLast([], c);
    assert [] + [c] == [c];
  }

  lemma {:induction false} LinesJoin(a: seq<Call>, b: seq<Call>)
    ensures Lines(a + b) == Lines(a) + Lines(b)
    decreases |b|
  {
    hide Lines;
    if b == [] {
      LinesOfLast([], Force(0));
      assert a + b == a;
    } else {
      var n := |b| - 1;
      LinesJoin(a, b[..n]);
      LinesOfLast(b[..n], b[n]);
      LinesOfLast(a + b[..n], b[n]);
      assert b == b[..n] + [b[n]] && a + b == a + b[..n] + [b[n]];
    }
  }

  lemma LinesOfLast(d: seq<Call>, c: Call)
    ensures Lines(d + [c]) == Lines(d) + (if c.Line? then c.bytes else "")
    ensures Lines([]) == ""
  {
    assert (d + [c])[..|d|] == d;
  }

  lemma LinesNext(calls: seq<Call>, k: nat)
    requires k < |calls|
    ensures Lines(calls[..k + 1]) == Lines(calls[..k]) + (if calls[k].Line? then calls[k].bytes else "")
  {
    assert calls[..k + 1][..k] == calls[..k];
  }

  lemma {:induction false} ExecSnoc(cfg: Config, r: Run, todo: seq<Action>, a: Action)
    ensures Exec(cfg, r, todo + [a]) == Step(cfg, Exec(cfg, r, todo), a)
    ensures LegalRun(cfg, r, todo + [a]) <==> LegalRun(cfg, r, todo) && Legal(cfg, Exec(cfg, r, todo), a)
    decreases |todo|
  {
    hide Step, Legal;
    if todo == [] {
      assert [] + [a] == [a] && [a][1..] == [];
    } else {
      assert (todo + [a])[1..] == todo[1..] + [a];
      ExecSnoc(cfg, Step(cfg, r, todo[0]), todo[1..], a);
    }
  }

  /** Neither renames nor opens nor writes fail. */
  predicate Flawless(dir: Directory) {
    dir.renames && dir.opens && dir.accepts
  }

  /** One call. In a directory that works the sink stays intact. */
  method Perform(sink: FileSink, c: Call) returns (ghost a: Action)
    requires sink.Valid() && sink.intact && sink.Sound() && sink.clock <= c.now && sink.top < INDEX_SPAN
    modifies sink, sink.dir
    ensures sink.Valid() && sink.intact && sink.clock == c.now && sink.top <= old(sink.top) + 1
    ensures OthersSame(sink.base, old(sink.dir.files), sink.dir.files)
    ensures Performs(a, c) && Legal(sink.cfg, old(sink.History()), a)
    ensures sink.History() == Step(sink.cfg, old(sink.History()), a)
    ensures sink.dir.opens && old(sink.isOpen) ==> sink.isOpen
    ensures sink.dir.opens && sink.dir.accepts && old(sink.isOpen) ==>
              Bytes(sink.stream) == Bytes(old(sink.stream)) + (if c.Line? then c.bytes else "")
    ensures Flawless(sink.dir) && old(sink.isOpen) && c.Line? ==> Quiet(a)
    ensures c.Force? && (!old(sink.isOpen) || old(sink.currentSize) == 0) ==> sink.dir.files == old(sink.dir.files)
    ensures c.Force? && old(sink.isOpen) && old(sink.currentSize) > 0 && sink.dir.renames && sink.dir.opens ==>
              && sink.StartedAfresh(c.now)
              && sink.Archived(old(sink.dir.files),
                               sink.cfg.local(if old(sink.openedSec) > 0 then old(sink.openedSec) else c.now).day,
                               a.index)
  {
    hide Good, Holds, Below, Bytes, OthersSame, IndexIsNew, MonotoneCalendar, RotationModel.Write, RotationModel.Reopen,
         RotationModel.RotateForce, RotationDue, ForceDue, Written;
    assert old(Bytes(sink.stream)) + "" == old(Bytes(sink.stream));
    match c
    case Line(bytes, now) =>
      var ok;
      ghost var env, index;
      ok, env, index := sink.Write(bytes, now);
      a := DoWrite(bytes, now, env, index);
      BytesConcat(old(sink.stream), Written(bytes, now));
      WrittenBytes(bytes, now);
    case Force(now) =>
      ghost var env, index := sink.RotateForce(now);
      a := DoForce(now, env, index);
    case Reopen(now) =>
      var ok := sink.Reopen(now);
      a := DoReopen(now, ok);
  }

  /** Any sequence of calls, with renames, opens and writes that may fail. In a directory
    * that can be read, with memory, where deleting and compressing do not fail and no
    * index reaches 10^8: the calls are a legal run of the model, and the backups in the
    * order of their keys, unpacked and followed by the active file, are a suffix of all
    * bytes written, or all of them when no count limit deletes and none were missing. */
  method Serve(sink: FileSink, calls: seq<Call>) returns (ghost done: seq<Action>, ghost names: seq<string>)
    requires sink.Valid() && sink.intact && sink.Sound()
    requires InTime(sink.clock, calls) && sink.top + |calls| <= INDEX_SPAN
    modifies sink, sink.dir
    ensures sink.Valid() && sink.intact
    ensures OthersSame(sink.base, old(sink.dir.files), sink.dir.files)
    ensures |done| == |calls| && Traces(done, calls)
    ensures LegalRun(sink.cfg, old(sink.History()), done)
    ensures sink.History() == Exec(sink.cfg, old(sink.History()), done)
    ensures InOrder(sink.base, sink.dir.files, names)
    ensures IsSuffix(Found(sink.base, sink.dir.files, names), Bytes(sink.stream))
    ensures KeepsAll(sink.cfg) && old(Whole(sink.History())) ==>
              Found(sink.base, sink.dir.files, names) == Bytes(sink.stream)
    ensures sink.dir.opens && sink.dir.accepts && old(sink.isOpen) ==>
              Bytes(sink.stream) == Bytes(old(sink.stream)) + Lines(calls)
    ensures Flawless(sink.dir) && old(sink.isOpen) ==> NoFailures(done, calls)
  {
    hide Good, Holds, Below, Bytes, OthersSame, Legal, Step, MonotoneCalendar, Lines, InOrder, Found, Whole, Performs,
         Exec, LegalRun, Quiet, Traces, NoFailures;
    done := [];
    OthersRefl(sink.base, sink.dir.files);
    NothingDone(sink.cfg, sink.History(), calls);
    NoLines(calls, Bytes(sink.stream));
    for k := 0 to |calls|
      invariant sink.Valid() && sink.intact && sink.top <= old(sink.top) + k
      invariant k < |calls| ==> sink.clock <= calls[k].now
      invariant OthersSame(sink.base, old(sink.dir.files), sink.dir.files)
      invariant |done| == k && Traces(done, calls)
      invariant LegalRun(sink.cfg, old(sink.History()), done)
      invariant sink.History() == Exec(sink.cfg, old(sink.History()), done)
      invariant sink.dir.opens && old(sink.isOpen) ==> sink.isOpen
      invariant sink.dir.opens && sink.dir.accepts && old(sink.isOpen) ==>
                  Bytes(sink.stream) == Bytes(old(sink.stream)) + Lines(calls[..k])
      invariant Flawless(sink.dir) && old(sink.isOpen) ==> NoFailures(done, calls)
    {
      ghost var before := sink.dir.files;
      ghost var a := Perform(sink, calls[k]);
      ExecSnoc(sink.cfg, old(sink.History()), done, a);
      OthersTrans(sink.base, old(sink.dir.files), before, sink.dir.files);
      LinesNext(calls, k);
      OneMore(done, calls, a);
      done := done + [a];
    }
    assert calls[..|calls|] == calls;
    RunKeepsGood(sink.cfg, old(sink.History()), done);
    names := DirectoryHoldsStream(sink);
  }

  lemma NothingDone(cfg: Config, r: Run, calls: seq<Call>)
    ensures LegalRun(cfg, r, []) && Exec(cfg, r, []) == r && Traces([], calls) && NoFailures([], calls)
  {
  }

  lemma NoLines(calls: seq<Call>, s: string)
    ensures s + Lines(calls[..0]) == s
  {
  }

  /** A new log in a directory without backups, where opens and writes do not fail either:
    * whatever renames do, the directory holds exactly the bytes of all lines, in order,
    * up to the oldest ones that the count limits deleted. */
  method LogFromScratch(dir: Directory, base: string, cfg: Config, maxDays: int, onStartup: bool,
                        start: nat, calls: seq<Call>, ghost top: nat)
    returns (sink: FileSink, ghost done: seq<Action>, ghost names: seq<string>)
    requires NameFits(base) && MonotoneCalendar(cfg) && maxDays <= 0
    requires dir.Works() && dir.opens && dir.accepts
    requires base !in dir.files && Backups(base, dir.files) == {}
    requires Below(base, dir.files, [], top) && top + |calls| < INDEX_SPAN && InTime(start, calls)
    modifies dir
    ensures OthersSame(base, old(dir.files), dir.files)
    ensures InOrder(base, dir.files, names)
    ensures IsSuffix(Found(base, dir.files, names), Lines(calls))
    ensures KeepsAll(cfg) ==> Found(base, dir.files, names) == Lines(calls)
    ensures (cfg.maxBackups <= 0 && cfg.maxGz <= 0) || (cfg.zlib && cfg.maxGz < 0) ==>
              Found(base, dir.files, names) == Lines(calls)
    ensures forall n :: n in names <==> n in dir.files && IsBackup(base, n)
    ensures forall n :: n in old(dir.files) && n != base && !IsBackup(base, n) ==>
              n in dir.files && dir.files[n] == old(dir.files)[n]
    ensures fresh(sink) && sink.dir == dir && sink.base == base && sink.cfg == cfg
    ensures sink.Valid() && sink.intact && sink.History() == Exec(cfg, Fresh(cfg, start), done)
    ensures LegalRun(cfg, Fresh(cfg, start), done)
    ensures |done| == |calls| && Traces(done, calls)
    ensures dir.renames ==> NoFailures(done, calls)
  {
    hide Holds, Below, Bytes, OthersSame, MonotoneCalendar, Lines, InOrder, Found, Exec, LegalRun, Legal, Performs,
         InTime, Archive, Quiet, Fresh, Good;
    FreshIsEmpty(cfg, start);
    sink := Begin(dir, base, cfg, maxDays, onStartup, start, top);
    ghost var before := dir.files;
    done, names := Serve(sink, calls);
    OthersTrans(base, old(dir.files), before, dir.files);
    assert "" + Lines(calls) == Lines(calls);
    NoLimits(cfg);
    Untouched(base, old(dir.files), dir.files, names);
  }

  /** Without limits on the numbers of archives nothing is deleted. */
  lemma NoLimits(cfg: Config)
    ensures KeepsAll(cfg) <==> (cfg.maxBackups <= 0 && cfg.maxGz <= 0) || (cfg.zlib && cfg.maxGz < 0)
  {
  }

  lemma Untouched(base: string, before: map<string, File>, after: map<string, File>, names: seq<string>)
    requires OthersSame(base, before, after) && InOrder(base, after, names)
    ensures forall n :: n in names <==> n in after && IsBackup(base, n)
    ensures forall n :: n in before && n != base && !IsBackup(base, n) ==> n in after && after[n] == before[n]
  {
  }

  lemma FreshIsEmpty(cfg: Config, start: int)
    ensures var r := Fresh(cfg, start); r.stream == [] && r.clock == start && r.log.open && Whole(r)
    ensures Bytes([]) == ""
  {
    assert Content([]) + [] == [];
  }

  /** Create the sink in a directory without backups. */
  method Begin(dir: Directory, base: string, cfg: Config, maxDays: int, onStartup: bool, start: nat, ghost top: nat)
    returns (sink: FileSink)
    requires NameFits(base) && MonotoneCalendar(cfg) && maxDays <= 0 && dir.Works() && dir.opens
    requires base !in dir.files && Backups(base, dir.files) == {}
    requires Below(base, dir.files, [], top) && top < INDEX_SPAN
    modifies dir
    ensures fresh(sink) && sink.dir == dir && sink.base == base && sink.cfg == cfg && sink.maxDays == maxDays
    ensures sink.Valid() && sink.intact && sink.History() == Fresh(cfg, start) && sink.top <= top + 1
    ensures OthersSame(base, old(dir.files), dir.files)
  {
    hide Holds, Below, Bytes, OthersSame, MonotoneCalendar, Good, Legal, Archive;
    sink := new FileSink(dir, base, cfg, maxDays, true, [], [], top);
    EmptyShelf(base, dir.files, cfg, start);
    var ok;
    ghost var env, index;
    ok, env, index := sink.Start(onStartup, start);
  }

  lemma EmptyShelf(base: string, files: map<string, File>, cfg: Config, now: int)
    requires Backups(base, files) == {}
    ensures Holds(base, files, []) && Ascending([]) && GzFirst([]) && CountGz([]) == 0
    ensures NotAfter([], cfg.local(now).day) && Content([]) + [] == [] && Bytes([]) == ""
  {
  }

  /** The backup holds the bytes of these chunks, plain or compressed. */
  predicate Contains(files: map<string, File>, name: string, data: seq<Chunk>) {
    name in files && files[name].data == Bytes(data) && files[name].zips <= 1
  }

  /** A new log that only takes lines, in a directory where nothing fails: the backups of
    * the directory, in the order of their keys, hold whole lines each, `parts[i]` those of
    * `names[i]`, within the limits on size, day and interval; and parts and active file
    * are a suffix of the calls. */
  method LogLines(dir: Directory, base: string, cfg: Config, maxDays: int, start: nat, calls: seq<Call>,
                  ghost top: nat)
    returns (ghost names: seq<string>, ghost parts: seq<Arch>, ghost last: seq<Chunk>)
    requires NameFits(base) && MonotoneCalendar(cfg) && maxDays <= 0 && start > 0
    requires dir.Works() && Flawless(dir)
    requires base !in dir.files && Backups(base, dir.files) == {}
    requires Below(base, dir.files, [], top) && top + |calls| < INDEX_SPAN && InTime(start, calls)
    requires forall i :: 0 <= i < |calls| ==> calls[i].Line?
    modifies dir
    ensures InOrder(base, dir.files, names) && |parts| == |names|
    ensures forall i :: 0 <= i < |names| ==>
              Contains(dir.files, names[i], parts[i].data) && WellShaped(cfg, parts[i].data, parts[i].day)
              && names[i] == FileName(base, parts[i])
    ensures base in dir.files ==> dir.files[base].data == Bytes(last)
    ensures IsSuffix(Content(parts) + last, Chunks(calls))
  {
    hide Below, Bytes, OthersSame, MonotoneCalendar, Lines, InOrder, Found, Exec, LegalRun, Quiet, Good,
         InTime, WellShaped, Content, FileName, IsBackup, Backups;
    var sink;
    ghost var done;
    sink, done, names := LogFromScratch(dir, base, cfg, maxDays, false, start, calls, top);
    ArchivesAreWellShaped(cfg, start, done);
    InputsAreChunks(done, calls);
    parts, last := sink.shelf, sink.active;
    GoodAscends(cfg, sink.History());
    names := ShelfNames(base, parts);
    ShelfInOrder(base, dir.files, parts);
    forall i | 0 <= i < |parts| ensures WellShaped(cfg, parts[i].data, parts[i].day) {
      ShapeOf(cfg, parts[i]);
    }
  }

  /** The lines of the calls, one chunk each. */
  function Chunks(calls: seq<Call>): seq<Chunk> {
    if calls == [] then []
    else
      var n := |calls| - 1;
      Chunks(calls[..n]) + (if calls[n].Line? then Written(calls[n].bytes, calls[n].now) else [])
  }

  lemma {:induction false} InputsAreChunks(done: seq<Action>, calls: seq<Call>)
    requires |done| == |calls| && Traces(done, calls)
    ensures Inputs(done) == Chunks(calls)
  {
    if calls != [] {
      InputsAreChunks(done[..|done| - 1], calls[..|calls| - 1]);
    }
  }

  lemma GoodAscends(cfg: Config, r: Run)
    requires Good(cfg, r)
    ensures Ascending(r.log.shelf)
  {
  }

  lemma ShapeOf(cfg: Config, a: Arch)
    requires LimitsSize(cfg) ==> Size(a.data) <= cfg.maxSize || |a.data| == 1
    requires DayOk(cfg, a.data, a.day) && BucketOk(cfg, a.data) && SpanOk(cfg, a.data)
    ensures WellShaped(cfg, a.data, a.day)
  {
  }
}
