/** What one archive looks like when nothing fails: size bound, one day, one interval,
  * whole writes. The triggers of `hx_rotate_maybe` in src/hx_clog_rotate.c and the
  * append of `file_write` in src/hx_clog_file.c, over the model of RotationModel.dfy.
  */
module RotationShape {
  import opened ArchiveNames
  import opened Calendar
  import opened RotationModel

  predicate LimitsSize(cfg: Config) {
    (cfg.policy.BySize? || cfg.policy.BySizeAndTime?) && cfg.maxSize > 0
  }

  predicate RotatesDaily(cfg: Config) {
    cfg.daily || cfg.policy.ByTime? || cfg.policy.BySizeAndTime?
  }

  predicate Aligned(cfg: Config) {
    (cfg.policy.ByTime? || cfg.policy.BySizeAndTime?) && cfg.interval > 0 && cfg.align
  }

  /** Within the size limit, unless it is a single oversized write. */
  predicate SizeOk(cfg: Config, data: seq<Chunk>) {
    LimitsSize(cfg) ==> Size(data) <= cfg.maxSize || |data| == 1
  }

  predicate DayOk(cfg: Config, data: seq<Chunk>, day: Day) {
    RotatesDaily(cfg) ==> forall i :: 0 <= i < |data| ==> cfg.local(data[i].sec).day == day
  }

  predicate BucketOk(cfg: Config, data: seq<Chunk>) {
    Aligned(cfg) ==> forall i, j :: 0 <= i < |data| && 0 <= j < |data| ==>
                                      Bucket(cfg, data[i].sec) == Bucket(cfg, data[j].sec)
  }

  predicate Spans(cfg: Config) {
    (cfg.policy.ByTime? || cfg.policy.BySizeAndTime?) && cfg.interval > 0 && !cfg.align
  }

  /** With intervals that are not aligned, less than one interval after the first write. */
  predicate SpanOk(cfg: Config, data: seq<Chunk>) {
    Spans(cfg) ==> forall i :: 0 <= i < |data| ==> data[i].sec - data[0].sec < cfg.interval
  }

  predicate WellShaped(cfg: Config, data: seq<Chunk>, day: Day) {
    SizeOk(cfg, data) && DayOk(cfg, data, day) && BucketOk(cfg, data) && SpanOk(cfg, data)
  }

  predicate ShelfOk(cfg: Config, shelf: seq<Arch>) {
    forall i :: 0 <= i < |shelf| ==> WellShaped(cfg, shelf[i].data, shelf[i].day)
  }

  /** The chunks of the active file are whole, and were written after it was opened. */
  predicate Recent(s: Log, clock: int) {
    forall i :: 0 <= i < |s.active| ==>
                  s.active[i].bytes != "" && s.openedSec <= s.active[i].sec <= clock
  }

  predicate Shaped(cfg: Config, r: Run) {
    var s := r.log;
    && Good(cfg, r) && s.open && s.failSec == 0 && s.openedSec > 0 && Recent(s, r.clock)
    && s.curYear == cfg.local(s.openedSec).year && s.curYday == cfg.local(s.openedSec).yday
    && ShelfOk(cfg, s.shelf) && WellShaped(cfg, s.active, cfg.local(s.openedSec).day)
  }

  /** The next write may go into the active file. */
  predicate Fits(cfg: Config, s: Log, incoming: nat, now: int) {
    && (LimitsSize(cfg) && s.size > 0 ==> s.size + incoming <= cfg.maxSize)
    && (RotatesDaily(cfg) ==> cfg.local(now).day == cfg.local(s.openedSec).day)
    && (Aligned(cfg) && s.size > 0 ==> Bucket(cfg, now) == Bucket(cfg, s.openedSec))
    && (Spans(cfg) && s.size > 0 ==> now < s.openedSec + cfg.interval)
  }

  /** A write during which the file system does not fail. */
  predicate Quiet(a: Action) {
    a.DoWrite? && a.env.renameOk && a.env.openOk && |a.bytes| <= a.env.accepted
  }

  /** Everything the callers handed over, one chunk a call. */
  function Inputs(todo: seq<Action>): seq<Chunk> {
    if todo == [] then []
    else Inputs(todo[..|todo| - 1])
         + (match todo[|todo| - 1]
            case DoWrite(bytes, now, _, _) => Written(bytes, now)
            case _ => [])
  }

  lemma RetainKeepsShape(cfg: Config, shelf: seq<Arch>)
    requires GzFirst(shelf) && (!cfg.zlib ==> CountGz(shelf) == 0)
    requires ShelfOk(cfg, shelf)
    ensures ShelfOk(cfg, Retain(cfg, shelf))
  {
    hide Retain, CountGz, WellShaped;
    var lo, mid := RetainIsSuffix(cfg, shelf);
    var r := Retain(cfg, shelf);
    forall i | 0 <= i < |r| ensures WellShaped(cfg, r[i].data, r[i].day) {
      assert r[i].data == shelf[lo + i].data && r[i].day == shelf[lo + i].day;
    }
  }

  /** A rotation that is due leaves an empty active file opened now. */
  lemma DueRotation(cfg: Config, r: Run, a: Action)
    requires MonotoneCalendar(cfg) && Shaped(cfg, r) && Legal(cfg, r, a) && Quiet(a)
    requires RotationDue(cfg, r.log, |a.bytes|, a.now)
    ensures var s := RotateMaybe(cfg, r.log, |a.bytes|, a.now, a.env, a.index);
            && ShelfOk(cfg, s.shelf) && s.active == [] && s.size == 0 && s.open
            && s.failSec == 0 && s.openedSec == a.now
            && s.curYear == cfg.local(a.now).year && s.curYday == cfg.local(a.now).yday
  {
    hide Retain, Content, CountGz, Ascending, IsSuffix, NotAfter, SizeDue, WellShaped, IndexIsNew, SizeOk,
         BucketOk, SpanOk, GzFirst;
    var s := r.log;
    var tag := TagSecond(cfg, s, a.now);
    TagDay(cfg, s, a.now);
    var arch := Arch(cfg.local(tag).day, a.index, false, s.active);
    assert WellShaped(cfg, s.active, arch.day) by { DayMoves(cfg, s.active, cfg.local(s.openedSec).day, arch.day); }
    TagIsPast(cfg, r, a.now);
    ShelvedIsGood(cfg, r, tag, a.index);
    RetainKeepsShape(cfg, s.shelf + [arch]);
  }

  lemma DayMoves(cfg: Config, data: seq<Chunk>, day: Day, day': Day)
    requires WellShaped(cfg, data, day) && (RotatesDaily(cfg) ==> day == day')
    ensures WellShaped(cfg, data, day')
  {
  }

  /** Under a daily policy the tag is the day on which the file was opened. */
  lemma TagDay(cfg: Config, s: Log, now: int)
    requires MonotoneCalendar(cfg) && s.openedSec > 0
    requires s.curYear == cfg.local(s.openedSec).year && s.curYday == cfg.local(s.openedSec).yday
    ensures RotatesDaily(cfg) ==> cfg.local(TagSecond(cfg, s, now)).day == cfg.local(s.openedSec).day
  {
  }

  lemma NothingDue(cfg: Config, s: Log, incoming: nat, now: int)
    requires MonotoneCalendar(cfg) && s.failSec == 0
    requires s.curYear == cfg.local(s.openedSec).year && s.curYday == cfg.local(s.openedSec).yday
    requires !RotationDue(cfg, s, incoming, now)
    ensures Fits(cfg, s, incoming, now)
  {
  }

  lemma SingleChunk(c: Chunk)
    ensures Bytes([c]) == c.bytes
  {
    assert [c][..0] == [];
  }

  lemma NoBytes(data: seq<Chunk>)
    requires Bytes(data) == "" && forall i :: 0 <= i < |data| ==> data[i].bytes != ""
    ensures data == []
  {
  }

  lemma BucketMonotone(cfg: Config, t: int, u: int)
    requires cfg.interval > 0 && t <= u
    ensures Bucket(cfg, t) <= Bucket(cfg, u)
  {
    DivMonotone(cfg.interval, t, u);
  }

  lemma DivMonotone(b: int, t: int, u: int)
    requires b > 0 && t <= u
    ensures TruncDiv(t, b) <= TruncDiv(u, b)
  {
    if t >= 0 {
      NatDivMonotone(b, t, u);
    } else if u < 0 {
      NatDivMonotone(b, -u, -t);
    } else {
      NatDivMonotone(b, 0, u);
      NatDivMonotone(b, 0, -t);
    }
  }

  lemma NatDivMonotone(b: int, t: nat, u: nat)
    requires b > 0 && t <= u
    ensures 0 <= t / b <= u / b
  {
    QuotientOrder(b, t / b, t % b, u / b, u % b);
  }

  lemma QuotientOrder(b: int, q: int, r: int, q': int, r': int)
    requires 0 <= r < b && 0 <= r' < b && b * q + r <= b * q' + r'
    ensures q <= q'
  {
    if q > q' {
      TimesMonotone(b, q' + 1, q);
    }
  }

  lemma TimesMonotone(b: int, x: int, y: int)
    requires b >= 0 && x <= y
    ensures b * x <= b * y
  {
    assert b * (y - x) >= 0;
  }

  /** The write that fits keeps the file well shaped. */
  lemma AppendKeepsShape(cfg: Config, s: Log, clock: int, c: Chunk)
    requires s.size == Size(s.active) && c.bytes != "" && Recent(s, clock)
    requires clock <= c.sec && s.openedSec <= c.sec
    requires WellShaped(cfg, s.active, cfg.local(s.openedSec).day)
    requires Fits(cfg, s, |c.bytes|, c.sec)
    ensures WellShaped(cfg, s.active + [c], cfg.local(s.openedSec).day)
  {
    hide Bytes, WellShaped;
    BytesConcat(s.active, [c]);
    SingleChunk(c);
    var data := s.active + [c];
    assert SizeOk(cfg, s.active) && DayOk(cfg, s.active, cfg.local(s.openedSec).day) by { ShapeParts(cfg, s); }
    if s.size == 0 {
      NoBytes(s.active);
      assert data == [c];
    }
    assert DayOk(cfg, data, cfg.local(s.openedSec).day);
    assert SizeOk(cfg, data);
    if Aligned(cfg) && s.size > 0 {
      forall i | 0 <= i < |data| ensures Bucket(cfg, data[i].sec) == Bucket(cfg, s.openedSec) {
        BucketMonotone(cfg, s.openedSec, data[i].sec);
        BucketMonotone(cfg, data[i].sec, c.sec);
      }
    }
    assert BucketOk(cfg, data);
    assert SpanOk(cfg, data);
    ShapeFrom(cfg, data, cfg.local(s.openedSec).day);
  }

  lemma ShapeParts(cfg: Config, s: Log)
    requires WellShaped(cfg, s.active, cfg.local(s.openedSec).day)
    ensures SizeOk(cfg, s.active) && DayOk(cfg, s.active, cfg.local(s.openedSec).day) && BucketOk(cfg, s.active)
  {
  }

  lemma ShapeFrom(cfg: Config, data: seq<Chunk>, day: Day)
    requires SizeOk(cfg, data) && DayOk(cfg, data, day) && BucketOk(cfg, data) && SpanOk(cfg, data)
    ensures WellShaped(cfg, data, day)
  {
  }

  lemma EmptyShape(cfg: Config, day: Day)
    ensures WellShaped(cfg, [], day)
  {
  }

  /** After the rotation step the active file is open, well shaped and has room. */
  lemma ReadyToWrite(cfg: Config, r: Run, a: Action)
    requires MonotoneCalendar(cfg) && Shaped(cfg, r) && Legal(cfg, r, a) && Quiet(a)
    ensures var s := RotateForWrite(cfg, r.log, a.bytes, a.now, a.env, a.index);
            && s.open && s.failSec == 0 && s.openedSec > 0 && Recent(s, a.now)
            && s.curYear == cfg.local(s.openedSec).year && s.curYday == cfg.local(s.openedSec).yday
            && ShelfOk(cfg, s.shelf) && WellShaped(cfg, s.active, cfg.local(s.openedSec).day)
            && Fits(cfg, s, |a.bytes|, a.now)
  {
    hide WellShaped, Retain, Content, CountGz, Ascending, IsSuffix, NotAfter, GzFirst, IndexIsNew,
         SizeDue, TimeDue, ShelfOk;
    var s := r.log;
    if !cfg.policy.RotateNone? || cfg.daily {
      if RotationDue(cfg, s, |a.bytes|, a.now) {
        hide RotateMaybe;
        DueRotation(cfg, r, a);
        EmptyShape(cfg, cfg.local(a.now).day);
      } else {
        NothingDue(cfg, s, |a.bytes|, a.now);
      }
    }
  }

  lemma StepKeepsShape(cfg: Config, r: Run, a: Action)
    requires MonotoneCalendar(cfg) && Shaped(cfg, r) && Legal(cfg, r, a) && Quiet(a)
    ensures Shaped(cfg, Step(cfg, r, a))
    ensures Step(cfg, r, a).stream == r.stream + Written(a.bytes, a.now)
  {
    hide WellShaped, Good, MonotoneCalendar, RotateForWrite, IndexIsNew, ShelfOk, Fits, Bytes;
    ReadyToWrite(cfg, r, a);
    StepKeepsGood(cfg, r, a);
    RotateForWriteKeepsGood(cfg, r, a.bytes, a.now, a.env, a.index);
    var s := RotateForWrite(cfg, r.log, a.bytes, a.now, a.env, a.index);
    assert Accepted(a.bytes, a.env) == a.bytes;
    SizeIsKept(cfg, Run(s, a.now, r.stream));
    if a.bytes != "" {
      AppendKeepsShape(cfg, s, a.now, Chunk(a.bytes, a.now));
    } else {
      assert s.active + [] == s.active;
    }
  }

  lemma SizeIsKept(cfg: Config, r: Run)
    requires Good(cfg, r) && r.log.open
    ensures r.log.size == Size(r.log.active) && r.log.openedSec <= r.clock
  {
  }

  lemma {:induction false} RunKeepsShape(cfg: Config, r: Run, todo: seq<Action>)
    requires MonotoneCalendar(cfg) && Shaped(cfg, r) && LegalRun(cfg, r, todo)
    requires forall i :: 0 <= i < |todo| ==> Quiet(todo[i])
    ensures Shaped(cfg, Exec(cfg, r, todo))
    ensures Exec(cfg, r, todo).stream == r.stream + Inputs(todo)
    decreases |todo|
  {
    hide Shaped, MonotoneCalendar, Step, Legal;
    if todo == [] {
      assert r.stream + [] == r.stream;
    } else {
      StepKeepsShape(cfg, r, todo[0]);
      RunKeepsShape(cfg, Step(cfg, r, todo[0]), todo[1..]);
      InputsCons(todo);
      assert r.stream + Written(todo[0].bytes, todo[0].now) + Inputs(todo[1..])
          == r.stream + (Written(todo[0].bytes, todo[0].now) + Inputs(todo[1..]));
    }
  }

  lemma {:induction false} InputsCons(todo: seq<Action>)
    requires todo != [] && todo[0].DoWrite?
    ensures Inputs(todo) == Written(todo[0].bytes, todo[0].now) + Inputs(todo[1..])
  {
    var n := |todo| - 1;
    if n == 0 {
      assert todo[..0] == [] && todo[1..] == [];
    } else {
      InputsCons(todo[..n]);
      assert todo[..n][1..] == todo[1..][..n - 1];
    }
  }

  lemma FreshIsShaped(cfg: Config, start: int)
    requires start > 0
    ensures Shaped(cfg, Fresh(cfg, start))
  {
    assert Content([]) + [] == [];
  }

  /** The shape theorem: while nothing fails, from an empty file opened after 1970,
    * every archive is within `max_file_size` or holds a single write; under a daily
    * policy all of it was written on the day in its name; under aligned intervals all
    * of it was written in one interval, and under other intervals less than one interval
    * after its first line; and files hold whole writes, a suffix of exactly the sequence
    * of calls. */
  lemma ArchivesAreWellShaped(cfg: Config, start: int, todo: seq<Action>)
    requires MonotoneCalendar(cfg) && start > 0 && LegalRun(cfg, Fresh(cfg, start), todo)
    requires forall i :: 0 <= i < |todo| ==> Quiet(todo[i])
    ensures var r := Exec(cfg, Fresh(cfg, start), todo);
            && (forall i :: 0 <= i < |r.log.shelf| ==>
                  && (LimitsSize(cfg) ==> Size(r.log.shelf[i].data) <= cfg.maxSize || |r.log.shelf[i].data| == 1)
                  && DayOk(cfg, r.log.shelf[i].data, r.log.shelf[i].day)
                  && BucketOk(cfg, r.log.shelf[i].data)
                  && SpanOk(cfg, r.log.shelf[i].data))
            && r.stream == Inputs(todo)
            && IsSuffix(Content(r.log.shelf) + r.log.active, Inputs(todo))
  {
    hide MonotoneCalendar, Exec, LegalRun, Quiet, Inputs, Content;
    FreshIsShaped(cfg, start);
    RunKeepsShape(cfg, Fresh(cfg, start), todo);
    assert [] + Inputs(todo) == Inputs(todo);
    RunsKeepTheStream(cfg, start, todo);
  }

  /** The start after 1970 is needed: when a file whose lines are all of the day on which
    * it was opened is rotated by time, its archive gets that day exactly when the recorded
    * open time is positive, or the file was opened on the day of the rotation. */
  lemma TagDayExactly(cfg: Config, s: Log, now: int)
    requires RotatesDaily(cfg) && TimeDue(cfg, s, now)
    requires s.active != [] && DayOk(cfg, s.active, cfg.local(s.openedSec).day)
    ensures DayOk(cfg, s.active, cfg.local(TagSecond(cfg, s, now)).day)
            <==> s.openedSec > 0 || cfg.local(now).day == cfg.local(s.openedSec).day
  {
    assert cfg.local(s.active[0].sec).day == cfg.local(s.openedSec).day;
  }

  /** Which day an archive is named after: that of the file when the day has changed or the
    * interval is over, and that of the rotation when the file is just full. */
  lemma TagSecondExactly(cfg: Config, s: Log, now: int)
    ensures var byTime := cfg.policy == ByTime || cfg.policy == BySizeAndTime;
            var newDay := (cfg.daily || byTime)
                          && !(cfg.local(now).year == s.curYear && cfg.local(now).yday == s.curYday);
            var over := byTime && cfg.interval > 0 && s.size > 0
                        && if cfg.align then TruncDiv(now, cfg.interval) != TruncDiv(s.openedSec, cfg.interval)
                           else now - s.openedSec >= cfg.interval;
            TagSecond(cfg, s, now) == if (newDay || over) && s.openedSec > 0 then s.openedSec else now
  {
  }

  /** A calendar with two days, and daily rotation without limits. */
  function TwoDays(t: int): LocalTime {
    if t < 86400 then LocalTime(Day(1970, 1, 1), 70, 0) else LocalTime(Day(1970, 1, 2), 70, 1)
  }

  const DAILY := Config(RotateNone, 0, -1, -1, true, 0, false, true, TwoDays)
  const FINE := Env(true, true, true, 1)

  /** The file opened at second 0: its line of the first day is archived under the second
    * day, although nothing fails. */
  lemma EpochFileIsMistagged()
    ensures MonotoneCalendar(DAILY)
    ensures var first, second := DoWrite("a", 0, FINE, 1), DoWrite("b", 86400, FINE, 1);
            var arch := Arch(Day(1970, 1, 2), 1, false, [Chunk("a", 0)]);
            && Quiet(first) && Quiet(second) && LegalRun(DAILY, Fresh(DAILY, 0), [first, second])
            && Exec(DAILY, Fresh(DAILY, 0), [first, second]).log.shelf == [arch]
            && !DayOk(DAILY, arch.data, arch.day)
  {
    var first, second := DoWrite("a", 0, FINE, 1), DoWrite("b", 86400, FINE, 1);
    var r0 := Fresh(DAILY, 0);
    var r1 := Step(DAILY, r0, first);
    assert r1.log.shelf == [] && r1.log.active == [Chunk("a", 0)] && r1.log.openedSec == 0;
    var r2 := Step(DAILY, r1, second);
    var arch := Arch(Day(1970, 1, 2), 1, false, [Chunk("a", 0)]);
    NothingToRetain(DAILY, [arch]);
    assert [] + [arch] == [arch];
    assert r2.log.shelf == [arch];
    assert [first, second][1..] == [second] && [second][1..] == [];
    assert Exec(DAILY, r2, []) == r2;
    assert Exec(DAILY, r1, [second]) == r2;
    TagDayExactly(DAILY, r1.log, 86400);
  }

  lemma NothingToRetain(cfg: Config, shelf: seq<Arch>)
    requires cfg.maxBackups <= 0 && GzLimit(cfg) <= 0
    ensures Retain(cfg, shelf) == shelf
  {
  }
}
