/** One log file with its archives, as values: what src/hx_clog_rotate.c and
  * src/hx_clog_file.c do to the stream of written bytes. FileSink.dfy shows that the
  * code on directories and arrays does exactly this.
  */
module RotationModel {
  import opened ArchiveNames
  import opened Calendar

  /** The bytes one call of `fwrite` put into a file, and when. */
  datatype Chunk = Chunk(bytes: string, sec: int)

  /** A rotated file: its name's date and index, whether it is compressed, and what it
    * unpacks to. */
  datatype Arch = Arch(day: Day, index: nat, gz: bool, data: seq<Chunk>)

  datatype RotatePolicy = RotateNone | BySize | ByTime | BySizeAndTime

  /** `hx_localtime`, with `year` and `yday` as the code compares them. */
  datatype LocalTime = LocalTime(day: Day, year: int, yday: int)

  datatype Config = Config(
    policy: RotatePolicy,
    maxSize: nat,
    maxBackups: int,
    maxGz: int,
    daily: bool,
    interval: nat,
    align: bool,
    zlib: bool,
    local: int -> LocalTime)

  /** `hx_file_sink_impl` together with the files it owns; `present` says whether the
    * active file exists. */
  datatype Log = Log(
    shelf: seq<Arch>,
    active: seq<Chunk>,
    present: bool,
    open: bool,
    size: nat,
    curYear: int,
    curYday: int,
    openedSec: int,
    renameFailing: bool,
    failSec: int,
    writeFailing: bool)

  /** What the environment does during one call; a cleanup that finds no memory for its
    * working set, or nothing to collect, is skipped. */
  datatype Env = Env(renameOk: bool, openOk: bool, cleaned: bool, accepted: nat)

  function Bytes(data: seq<Chunk>): string {
    if data == [] then "" else Bytes(data[..|data| - 1]) + data[|data| - 1].bytes
  }

  function Size(data: seq<Chunk>): nat {
    |Bytes(data)|
  }

  function Key(a: Arch): int {
    KeyOf(a.day.year, a.day.month, a.day.mday, a.index)
  }

  // ---- hx_file_open_active ----

  function OpenActive(cfg: Config, s: Log, now: int, ok: bool): Log {
    if !ok then s.(open := false)
    else s.(open := true, present := true, size := Size(s.active),
            curYear := cfg.local(now).year, curYday := cfg.local(now).yday, openedSec := now)
  }

  // ---- The three triggers ----

  predicate SizeDue(cfg: Config, s: Log, incoming: nat) {
    && (cfg.policy.BySize? || cfg.policy.BySizeAndTime?) && cfg.maxSize > 0
    && s.size + incoming > cfg.maxSize && s.size > 0
  }

  predicate DayDue(cfg: Config, s: Log, now: int) {
    && (cfg.daily || cfg.policy.ByTime? || cfg.policy.BySizeAndTime?)
    && (cfg.local(now).yday != s.curYday || cfg.local(now).year != s.curYear)
  }

  function Bucket(cfg: Config, sec: int): int
    requires cfg.interval > 0
  {
    TruncDiv(sec, cfg.interval)
  }

  predicate IntervalDue(cfg: Config, s: Log, now: int) {
    && (cfg.policy.ByTime? || cfg.policy.BySizeAndTime?) && cfg.interval > 0 && s.size > 0
    && (if cfg.align then Bucket(cfg, now) != Bucket(cfg, s.openedSec)
        else now >= s.openedSec + cfg.interval)
  }

  predicate TimeDue(cfg: Config, s: Log, now: int) {
    DayDue(cfg, s, now) || IntervalDue(cfg, s, now)
  }

  /** A failed rotation is not tried again within the same second. */
  predicate Deferred(s: Log, now: int) {
    s.failSec != 0 && now <= s.failSec
  }

  predicate RotationDue(cfg: Config, s: Log, incoming: nat, now: int) {
    !Deferred(s, now) && (SizeDue(cfg, s, incoming) || TimeDue(cfg, s, now))
  }

  /** The second whose day goes into the archive's name. */
  function TagSecond(cfg: Config, s: Log, now: int): int {
    if TimeDue(cfg, s, now) && s.openedSec > 0 then s.openedSec else now
  }

  // ---- hx_rotate_cleanup ----

  function CountPlain(shelf: seq<Arch>): nat {
    if shelf == [] then 0 else (if shelf[0].gz then 0 else 1) + CountPlain(shelf[1..])
  }

  function CountGz(shelf: seq<Arch>): nat {
    if shelf == [] then 0 else (if shelf[0].gz then 1 else 0) + CountGz(shelf[1..])
  }

  /** Compress the `k` oldest plain archives. */
  function Compress(shelf: seq<Arch>, k: nat): (r: seq<Arch>)
    ensures |r| == |shelf|
  {
    if k == 0 || shelf == [] then shelf
    else if shelf[0].gz then [shelf[0]] + Compress(shelf[1..], k)
    else [shelf[0].(gz := true)] + Compress(shelf[1..], k - 1)
  }

  /** Delete the `k` oldest archives whose compressed flag is `gz`. */
  function DropOldest(shelf: seq<Arch>, gz: bool, k: nat): seq<Arch> {
    if k == 0 || shelf == [] then shelf
    else if shelf[0].gz == gz then DropOldest(shelf[1..], gz, k - 1)
    else [shelf[0]] + DropOldest(shelf[1..], gz, k)
  }

  function Excess(have: nat, limit: int): nat {
    if limit > 0 && have > limit then have - limit else 0
  }

  /** `max_compressed_files`, where 0 stands for `max_backup_files`; no limit unless
    * the result is positive. */
  function GzLimit(cfg: Config): int {
    if cfg.maxGz < 0 then -1 else if cfg.maxGz > 0 then cfg.maxGz else cfg.maxBackups
  }

  function AfterCompression(cfg: Config, shelf: seq<Arch>): seq<Arch> {
    var k := Excess(CountPlain(shelf), cfg.maxBackups);
    if cfg.zlib then Compress(shelf, k) else DropOldest(shelf, false, k)
  }

  function Retain(cfg: Config, shelf: seq<Arch>): seq<Arch> {
    var shelf' := AfterCompression(cfg, shelf);
    DropOldest(shelf', true, Excess(CountGz(shelf'), GzLimit(cfg)))
  }

  // ---- hx_rotate_maybe, hx_rotate_force, file_write, hx_sink_file_reopen ----

  /** The rename failed: the active file stays and is not tried again this second. */
  function RenameFailed(s: Log, now: int): Log {
    s.(open := false, renameFailing := true, failSec := now)
  }

  /** The active file has become archive `a`. */
  function Renamed(s: Log, a: Arch): Log {
    s.(shelf := s.shelf + [a], active := [], present := false, open := false,
       renameFailing := false, failSec := 0)
  }

  /** Open a new active file and clean up. */
  function OpenFresh(cfg: Config, s: Log, now: int, ok: bool, cleaned: bool): Log {
    var s1 := OpenActive(cfg, s, now, ok);
    if !ok then s1
    else s1.(size := 0, shelf := if cleaned then Retain(cfg, s1.shelf) else s1.shelf)
  }

  /** Archive the active file under the day of `tagSec` and `index`. */
  function Archive(cfg: Config, s: Log, tagSec: int, now: int, env: Env, index: nat): Log {
    if env.renameOk && s.present
    then OpenFresh(cfg, Renamed(s, Arch(cfg.local(tagSec).day, index, false, s.active)), now, env.openOk, env.cleaned)
    else OpenActive(cfg, RenameFailed(s, now), now, env.openOk)
  }

  function RotateMaybe(cfg: Config, s: Log, incoming: nat, now: int, env: Env, index: nat): Log {
    if RotationDue(cfg, s, incoming, now)
    then Archive(cfg, s, TagSecond(cfg, s, now), now, env, index)
    else s
  }

  function ForceSecond(s: Log, now: int): int {
    if s.openedSec > 0 then s.openedSec else now
  }

  predicate ForceDue(s: Log) {
    s.open && s.size > 0
  }

  function RotateForce(cfg: Config, s: Log, now: int, env: Env, index: nat): Log {
    if ForceDue(s) then Archive(cfg, s, ForceSecond(s, now), now, env, index) else s
  }

  /** What `fwrite` accepts of the line. */
  function Accepted(bytes: string, env: Env): string {
    if env.accepted < |bytes| then bytes[..env.accepted] else bytes
  }

  function Written(bytes: string, now: int): seq<Chunk> {
    if bytes == "" then [] else [Chunk(bytes, now)]
  }

  function WriteOpen(s: Log, bytes: string, now: int, env: Env): Log {
    var w := Accepted(bytes, env);
    s.(active := s.active + Written(w, now), size := s.size + |w|, writeFailing := w != bytes)
  }

  function RotateForWrite(cfg: Config, s: Log, bytes: string, now: int, env: Env, index: nat): Log {
    if !cfg.policy.RotateNone? || cfg.daily then RotateMaybe(cfg, s, |bytes|, now, env, index) else s
  }

  function Write(cfg: Config, s: Log, bytes: string, now: int, env: Env, index: nat): Log {
    var s1 := RotateForWrite(cfg, s, bytes, now, env, index);
    if !s1.open then s1 else WriteOpen(s1, bytes, now, env)
  }

  function Reopen(cfg: Config, s: Log, now: int, ok: bool): Log {
    OpenActive(cfg, s.(open := false), now, ok)
  }

  // ---- Runs ----

  datatype Action =
    | DoWrite(bytes: string, now: int, env: Env, index: nat)
    | DoForce(now: int, env: Env, index: nat)
    | DoReopen(now: int, ok: bool)

  /** A run so far: the sink, the clock, and every chunk that any write accepted. */
  datatype Run = Run(log: Log, clock: int, stream: seq<Chunk>)

  /** The index is new for its day and below 10^8. */
  predicate IndexIsNew(shelf: seq<Arch>, day: Day, index: nat) {
    && index < INDEX_SPAN
    && forall i :: 0 <= i < |shelf| ==> shelf[i].day == day ==> shelf[i].index < index
  }

  /** The clock does not go back, and an archive gets an index that is new. */
  predicate Legal(cfg: Config, r: Run, a: Action) {
    && a.now >= r.clock
    && (a.DoWrite? && RotationDue(cfg, r.log, |a.bytes|, a.now) && a.env.renameOk
        ==> IndexIsNew(r.log.shelf, cfg.local(TagSecond(cfg, r.log, a.now)).day, a.index))
    && (a.DoForce? && ForceDue(r.log) && a.env.renameOk
        ==> IndexIsNew(r.log.shelf, cfg.local(ForceSecond(r.log, a.now)).day, a.index))
  }

  function Step(cfg: Config, r: Run, a: Action): Run {
    match a
    case DoWrite(bytes, now, env, index) =>
      var s1 := RotateForWrite(cfg, r.log, bytes, now, env, index);
      Run(Write(cfg, r.log, bytes, now, env, index), now,
          if s1.open then r.stream + Written(Accepted(bytes, env), now) else r.stream)
    case DoForce(now, env, index) => Run(RotateForce(cfg, r.log, now, env, index), now, r.stream)
    case DoReopen(now, ok) => Run(Reopen(cfg, r.log, now, ok), now, r.stream)
  }

  // ---- The stream ----

  function Content(shelf: seq<Arch>): seq<Chunk> {
    if shelf == [] then [] else Content(shelf[..|shelf| - 1]) + shelf[|shelf| - 1].data
  }

  predicate IsSuffix<T(==)>(a: seq<T>, b: seq<T>) {
    |a| <= |b| && b[|b| - |a|..] == a
  }

  /** The local calendar never runs backwards and gives valid days; the two numbers
    * the code compares tell days apart. */
  ghost predicate MonotoneCalendar(cfg: Config) {
    && (forall t :: ValidDay(cfg.local(t).day))
    && (forall t, u :: t <= u ==> !DayBefore(cfg.local(u).day, cfg.local(t).day))
    && (forall t, u :: cfg.local(t).year == cfg.local(u).year && cfg.local(t).yday == cfg.local(u).yday
                       <==> cfg.local(t).day == cfg.local(u).day)
  }

  predicate Ascending(shelf: seq<Arch>) {
    && (forall i :: 0 <= i < |shelf| ==> ValidDay(shelf[i].day) && shelf[i].index < INDEX_SPAN)
    && (forall i, j :: 0 <= i < j < |shelf| ==> Key(shelf[i]) < Key(shelf[j]))
  }

  /** Every plain archive is newer than every compressed one. */
  predicate GzFirst(shelf: seq<Arch>) {
    forall i, j :: 0 <= i < j < |shelf| ==> shelf[j].gz ==> shelf[i].gz
  }

  /** No archive carries a day after `day`. */
  predicate NotAfter(shelf: seq<Arch>, day: Day) {
    forall i :: 0 <= i < |shelf| ==> !DayBefore(day, shelf[i].day)
  }

  predicate Good(cfg: Config, r: Run) {
    var s := r.log;
    && IsSuffix(Content(s.shelf) + s.active, r.stream)
    && Ascending(s.shelf) && GzFirst(s.shelf)
    && (!cfg.zlib ==> CountGz(s.shelf) == 0)
    && NotAfter(s.shelf, cfg.local(if s.present then s.openedSec else r.clock).day)
    && s.openedSec <= r.clock
    && (s.open ==> s.present && s.size == Size(s.active))
    && (!s.present ==> s.active == [])
  }

  lemma {:induction false} ContentConcat(a: seq<Arch>, b: seq<Arch>)
    ensures Content(a + b) == Content(a) + Content(b)
  {
    if b == [] {
      assert a + b == a;
    } else {
      var n := |b| - 1;
      assert (a + b)[..|a| + n] == a + b[..n];
      ContentConcat(a, b[..n]);
    }
  }

  lemma ContentOne(a: Arch)
    ensures Content([a]) == a.data
  {
    assert Content([a][..0]) == [];
  }

  lemma SuffixTrans<T>(a: seq<T>, b: seq<T>, c: seq<T>)
    requires IsSuffix(a, b) && IsSuffix(b, c)
    ensures IsSuffix(a, c)
  {
    assert c[|c| - |b|..][|b| - |a|..] == c[|c| - |a|..];
  }

  lemma SuffixAppend<T>(a: seq<T>, b: seq<T>, c: seq<T>)
    requires IsSuffix(a, b)
    ensures IsSuffix(a + c, b + c)
  {
  }

  // ---- Retention ----

  /** The shelf with every archive compressed. */
  function Zipped(shelf: seq<Arch>): (r: seq<Arch>)
    ensures |r| == |shelf|
    ensures forall i :: 0 <= i < |r| ==> r[i] == shelf[i].(gz := true)
  {
    seq(|shelf|, i requires 0 <= i < |shelf| => shelf[i].(gz := true))
  }

  lemma GzFirstTail(shelf: seq<Arch>)
    requires GzFirst(shelf) && shelf != []
    ensures GzFirst(shelf[1..])
    ensures !shelf[0].gz ==> CountGz(shelf) == 0
  {
    forall i, j | 0 <= i < j < |shelf[1..]| ensures shelf[1..][j].gz ==> shelf[1..][i].gz {
      assert shelf[1..][j] == shelf[j + 1] && shelf[1..][i] == shelf[i + 1];
    }
    if !shelf[0].gz {
      NoGz(shelf);
    }
  }

  lemma {:induction false} NoGz(shelf: seq<Arch>)
    requires forall i :: 0 <= i < |shelf| ==> !shelf[i].gz
    ensures CountGz(shelf) == 0
  {
    if shelf != [] {
      NoGz(shelf[1..]);
    }
  }

  lemma {:induction false} CountsAddUp(shelf: seq<Arch>)
    ensures CountGz(shelf) + CountPlain(shelf) == |shelf|
  {
    if shelf != [] {
      CountsAddUp(shelf[1..]);
    }
  }

  lemma ZippedCons(shelf: seq<Arch>, n: nat)
    requires 0 < n <= |shelf|
    ensures [shelf[0].(gz := true)] + (Zipped(shelf[1..][..n - 1]) + shelf[1..][n - 1..])
            == Zipped(shelf[..n]) + shelf[n..]
  {
    assert Zipped(shelf[..n]) == [shelf[0].(gz := true)] + Zipped(shelf[1..][..n - 1]);
  }

  lemma CompressNone(shelf: seq<Arch>)
    requires GzFirst(shelf)
    ensures CountGz(shelf) <= |shelf| && Compress(shelf, 0) == shelf
    ensures Compress(shelf, 0) == Zipped(shelf[..CountGz(shelf)]) + shelf[CountGz(shelf)..]
  {
    hide CountGz, GzFirst;
    GzPrefix(shelf);
    ZippedAlready(shelf[..CountGz(shelf)]);
  }

  lemma ZippedAlready(shelf: seq<Arch>)
    requires forall i :: 0 <= i < |shelf| ==> shelf[i].gz
    ensures Zipped(shelf) == shelf
  {
    forall i | 0 <= i < |shelf| ensures Zipped(shelf)[i] == shelf[i] {
      assert shelf[i].(gz := true) == shelf[i];
    }
  }

  lemma CompressCons(shelf: seq<Arch>, k: nat)
    requires k > 0 && shelf != []
    ensures Compress(shelf, k)
            == [shelf[0].(gz := true)] + Compress(shelf[1..], if shelf[0].gz then k else k - 1)
  {
    assert shelf[0].gz ==> shelf[0].(gz := true) == shelf[0];
  }

  lemma CountCons(a: Arch, rest: seq<Arch>)
    ensures CountGz([a] + rest) == (if a.gz then 1 else 0) + CountGz(rest)
    ensures CountPlain([a] + rest) == (if a.gz then 0 else 1) + CountPlain(rest)
  {
    assert ([a] + rest)[1..] == rest;
  }

  /** When compressed archives come first, the compressed part grows by `k`. */
  lemma {:induction false} CompressPrefix(shelf: seq<Arch>, k: nat)
    requires GzFirst(shelf) && k <= CountPlain(shelf)
    ensures CountGz(shelf) + k <= |shelf|
    ensures Compress(shelf, k) == Zipped(shelf[..CountGz(shelf) + k]) + shelf[CountGz(shelf) + k..]
    ensures CountGz(Compress(shelf, k)) == CountGz(shelf) + k
  {
    hide Compress, Zipped, CountGz, CountPlain, GzFirst;
    if k == 0 {
      CompressNone(shelf);
    } else {
      NonEmpty(shelf);
      var a, rest := shelf[0], shelf[1..];
      assert shelf == [a] + rest;
      GzFirstTail(shelf);
      CountCons(a, rest);
      var k' := if a.gz then k else k - 1;
      CompressPrefix(rest, k');
      CompressCons(shelf, k);
      CountCons(a.(gz := true), Compress(rest, k'));
      ZippedCons(shelf, CountGz(shelf) + k);
    }
  }

  lemma NonEmpty(shelf: seq<Arch>)
    ensures CountPlain(shelf) > 0 ==> shelf != []
  {
  }

  /** With compressed archives first, they are exactly the first `CountGz` ones. */
  lemma {:induction false} GzPrefix(shelf: seq<Arch>)
    requires GzFirst(shelf)
    ensures CountGz(shelf) <= |shelf|
    ensures forall i :: 0 <= i < |shelf| ==> (shelf[i].gz <==> i < CountGz(shelf))
  {
    CountsAddUp(shelf);
    if shelf != [] {
      GzFirstTail(shelf);
      GzPrefix(shelf[1..]);
      forall i | 0 <= i < |shelf| ensures shelf[i].gz <==> i < CountGz(shelf) {
        if i > 0 {
          assert shelf[i] == shelf[1..][i - 1];
        }
      }
    }
  }

  lemma {:induction false} DropGzPrefix(shelf: seq<Arch>, k: nat)
    requires GzFirst(shelf) && k <= CountGz(shelf)
    ensures k <= |shelf| && DropOldest(shelf, true, k) == shelf[k..]
  {
    CountsAddUp(shelf);
    if k > 0 {
      GzFirstTail(shelf);
      DropGzPrefix(shelf[1..], k - 1);
    }
  }

  lemma {:induction false} DropPlainMiddle(shelf: seq<Arch>, k: nat)
    requires GzFirst(shelf) && k <= CountPlain(shelf)
    ensures var g := CountGz(shelf);
            g + k <= |shelf| && DropOldest(shelf, false, k) == shelf[..g] + shelf[g + k..]
  {
    hide GzFirst;
    CountsAddUp(shelf);
    if k > 0 {
      GzFirstTail(shelf);
      var tail, g := shelf[1..], CountGz(shelf);
      if shelf[0].gz {
        DropPlainMiddle(tail, k);
        assert shelf[..g] == [shelf[0]] + tail[..g - 1];
        assert tail[g - 1 + k..] == shelf[g + k..];
      } else {
        DropPlainMiddle(tail, k - 1);
        assert tail[..0] + tail[k - 1..] == shelf[..0] + shelf[k..];
      }
    }
  }

  lemma GzFirstSlice(shelf: seq<Arch>, lo: nat, mid: nat)
    requires GzFirst(shelf) && lo <= mid <= |shelf|
    ensures GzFirst(Zipped(shelf[lo..mid]) + shelf[mid..])
  {
  }

  /** What the two stages do in a zlib build, with positions. */
  lemma ZlibRetain(cfg: Config, shelf: seq<Arch>) returns (lo: nat, mid: nat)
    requires GzFirst(shelf) && cfg.zlib
    ensures mid == CountGz(shelf) + Excess(CountPlain(shelf), cfg.maxBackups)
    ensures lo == Excess(mid, GzLimit(cfg))
    ensures CountGz(shelf) + CountPlain(shelf) == |shelf|
    ensures lo <= mid <= |shelf|
    ensures Retain(cfg, shelf) == Zipped(shelf[lo..mid]) + shelf[mid..]
  {
    hide Compress, DropOldest, CountGz, CountPlain;
    var k := Excess(CountPlain(shelf), cfg.maxBackups);
    CountsAddUp(shelf);
    CompressPrefix(shelf, k);
    mid := CountGz(shelf) + k;
    GzFirstSlice(shelf, 0, mid);
    assert shelf[0..mid] == shelf[..mid];
    var shelf' := Compress(shelf, k);
    lo := Excess(CountGz(shelf'), GzLimit(cfg));
    DropGzPrefix(shelf', lo);
    ZippedSlice(shelf, lo, mid);
  }

  lemma ZippedSlice(shelf: seq<Arch>, lo: nat, mid: nat)
    requires lo <= mid <= |shelf|
    ensures (Zipped(shelf[..mid]) + shelf[mid..])[lo..] == Zipped(shelf[lo..mid]) + shelf[mid..]
  {
    assert Zipped(shelf[..mid])[lo..] == Zipped(shelf[lo..mid]);
  }

  /** The documented retention rule, for zlib builds: of the archives, oldest first
    * and compressed ones before plain ones, exactly the M newest plain ones stay
    * plain, the older plain ones become compressed, and exactly the G newest
    * compressed ones remain. */
  lemma {:induction false} RetentionRule(cfg: Config, shelf: seq<Arch>)
    requires GzFirst(shelf) && cfg.zlib && cfg.maxBackups > 0 && GzLimit(cfg) > 0
    ensures var m := if CountPlain(shelf) < cfg.maxBackups then CountPlain(shelf) else cfg.maxBackups;
            var mid := |shelf| - m;
            var lo := if mid < GzLimit(cfg) then 0 else mid - GzLimit(cfg);
            && 0 <= lo <= mid <= |shelf|
            && Retain(cfg, shelf) == Zipped(shelf[lo..mid]) + shelf[mid..]
            && GzFirst(Retain(cfg, shelf))
            && (forall i :: mid <= i < |shelf| ==> !shelf[i].gz)
  {
    hide Retain, CountGz, CountPlain, GzFirst, GzLimit, Zipped;
    var lo, mid := ZlibRetain(cfg, shelf);
    GzPrefix(shelf);
    GzFirstSlice(shelf, lo, mid);
    assert mid == |shelf| - CountPlain(shelf) + Excess(CountPlain(shelf), cfg.maxBackups);
  }

  /** In every build and for all limits: cleanup leaves the newest archives, in order
    * and with their contents; it keeps "compressed before plain". */
  lemma {:induction false} RetainIsSuffix(cfg: Config, shelf: seq<Arch>) returns (lo: nat, mid: nat)
    requires GzFirst(shelf) && (!cfg.zlib ==> CountGz(shelf) == 0)
    ensures lo <= mid <= |shelf|
    ensures Retain(cfg, shelf) == Zipped(shelf[lo..mid]) + shelf[mid..]
    ensures GzFirst(Retain(cfg, shelf))
    ensures !cfg.zlib ==> CountGz(Retain(cfg, shelf)) == 0
    ensures GzLimit(cfg) <= 0 && (cfg.zlib || cfg.maxBackups <= 0) ==> lo == 0
  {
    if cfg.zlib {
      hide Retain, CountGz, CountPlain;
      lo, mid := ZlibRetain(cfg, shelf);
    } else {
      lo := RetainPlain(cfg, shelf);
      mid := lo;
    }
    GzFirstSlice(shelf, lo, mid);
  }

  lemma RetainPlain(cfg: Config, shelf: seq<Arch>) returns (k: nat)
    requires GzFirst(shelf) && !cfg.zlib && CountGz(shelf) == 0
    ensures k <= |shelf| && Retain(cfg, shelf) == Zipped(shelf[k..k]) + shelf[k..]
    ensures CountGz(Retain(cfg, shelf)) == 0
    ensures k == Excess(CountPlain(shelf), cfg.maxBackups)
  {
    hide DropOldest, CountGz, CountPlain;
    k := Excess(CountPlain(shelf), cfg.maxBackups);
    CountsAddUp(shelf);
    GzPrefix(shelf);
    DropPlainMiddle(shelf, k);
    assert shelf[..0] + shelf[k..] == shelf[k..];
    NoGz(shelf[k..]);
    DropNothing(shelf[k..], true);
    assert Zipped(shelf[k..k]) + shelf[k..] == shelf[k..];
  }

  lemma {:induction false} CountsOfSplit(shelf: seq<Arch>, plain: nat)
    requires plain <= |shelf| && forall i :: 0 <= i < |shelf| ==> (shelf[i].gz <==> i < |shelf| - plain)
    ensures CountPlain(shelf) == plain && CountGz(shelf) == |shelf| - plain && GzFirst(shelf)
  {
    if shelf != [] {
      CountsOfSplit(shelf[1..], if shelf[0].gz then plain else plain - 1);
    }
  }

  /** What cleanup leaves, for every build and all limits, of compressed archives followed
    * by `plain` plain ones. Limits that are not positive do not count, and no limit for
    * compressed archives means that of the plain ones. Without zlib the oldest plain
    * archives go; with it they are compressed, and then the oldest compressed ones go. */
  lemma RetentionExactly(cfg: Config, shelf: seq<Arch>, plain: nat)
    requires plain <= |shelf| && forall i :: 0 <= i < |shelf| ==> (shelf[i].gz <==> i < |shelf| - plain)
    requires !cfg.zlib ==> plain == |shelf|
    ensures var stay := if 0 < cfg.maxBackups < plain then cfg.maxBackups else plain;
            var packed := |shelf| - stay;
            var limit := if cfg.maxGz == 0 then cfg.maxBackups else cfg.maxGz;
            var kept := if 0 < limit < packed then limit else packed;
            Retain(cfg, shelf) == if cfg.zlib then Zipped(shelf[packed - kept..packed]) + shelf[packed..]
                                  else shelf[packed..]
  {
    hide Retain, CountGz, CountPlain, GzFirst;
    CountsOfSplit(shelf, plain);
    if cfg.zlib {
      var lo, mid := ZlibRetain(cfg, shelf);
    } else {
      var k := RetainPlain(cfg, shelf);
      assert Zipped(shelf[k..k]) + shelf[k..] == shelf[k..];
    }
  }

  lemma {:induction false} CompressKeepsNewest(shelf: seq<Arch>, k: nat)
    requires shelf != [] && !shelf[|shelf| - 1].gz && k < CountPlain(shelf)
    ensures var r := Compress(shelf, k); r[|r| - 1] == shelf[|shelf| - 1]
  {
    if k > 0 {
      if |shelf| == 1 {
        assert shelf[1..] == [];
      } else {
        CompressKeepsNewest(shelf[1..], if shelf[0].gz then k else k - 1);
      }
    }
  }

  lemma {:induction false} DropKeepsNewest(shelf: seq<Arch>, gz: bool, k: nat)
    requires shelf != [] && !shelf[|shelf| - 1].gz && (gz || k < CountPlain(shelf))
    ensures var r := DropOldest(shelf, gz, k); r != [] && r[|r| - 1] == shelf[|shelf| - 1]
  {
    if k > 0 {
      if |shelf| == 1 {
        assert shelf[1..] == [];
      } else {
        DropKeepsNewest(shelf[1..], gz, if shelf[0].gz == gz then k - 1 else k);
      }
    }
  }

  lemma {:induction false} PlainIsCounted(shelf: seq<Arch>)
    requires shelf != [] && !shelf[|shelf| - 1].gz
    ensures CountPlain(shelf) > 0
  {
    if |shelf| > 1 {
      PlainIsCounted(shelf[1..]);
    }
  }

  /** Whatever the limits, the newest archive stays as it is. */
  lemma RetainKeepsNewest(cfg: Config, shelf: seq<Arch>)
    requires shelf != [] && !shelf[|shelf| - 1].gz
    ensures var r := Retain(cfg, shelf); r != [] && r[|r| - 1] == shelf[|shelf| - 1]
  {
    hide Compress, DropOldest, CountPlain, CountGz;
    var k := Excess(CountPlain(shelf), cfg.maxBackups);
    PlainIsCounted(shelf);
    CompressKeepsNewest(shelf, k);
    DropKeepsNewest(shelf, false, k);
    var s := AfterCompression(cfg, shelf);
    DropKeepsNewest(s, true, Excess(CountGz(s), GzLimit(cfg)));
  }

  lemma DropNothing(shelf: seq<Arch>, gz: bool)
    ensures DropOldest(shelf, gz, 0) == shelf
  {
  }

  lemma {:induction false} ContentZipped(shelf: seq<Arch>)
    ensures Content(Zipped(shelf)) == Content(shelf)
  {
    if shelf != [] {
      var n := |shelf| - 1;
      assert Zipped(shelf)[..n] == Zipped(shelf[..n]);
      ContentZipped(shelf[..n]);
    }
  }

  /** Cleanup drops a prefix of the stream and nothing else. */
  lemma RetainKeepsContent(cfg: Config, shelf: seq<Arch>)
    requires GzFirst(shelf) && (!cfg.zlib ==> CountGz(shelf) == 0)
    ensures IsSuffix(Content(Retain(cfg, shelf)), Content(shelf))
    ensures KeepsAll(cfg) ==> Content(Retain(cfg, shelf)) == Content(shelf)
  {
    hide Retain, Content, CountGz;
    var lo, mid := RetainIsSuffix(cfg, shelf);
    ContentZipped(shelf[lo..mid]);
    ContentConcat(Zipped(shelf[lo..mid]), shelf[mid..]);
    ContentConcat(shelf[lo..mid], shelf[mid..]);
    assert shelf[lo..] == shelf[lo..mid] + shelf[mid..];
    ContentConcat(shelf[..lo], shelf[lo..]);
    assert shelf == shelf[..lo] + shelf[lo..];
    if lo == 0 {
      assert shelf[0..] == shelf;
    }
  }

  lemma OrderOfTail(shelf: seq<Arch>, r: seq<Arch>, lo: nat, day: Day)
    requires |shelf| == lo + |r| && Ascending(shelf) && NotAfter(shelf, day)
    requires forall i :: 0 <= i < |r| ==> r[i].day == shelf[lo + i].day && r[i].index == shelf[lo + i].index
    ensures Ascending(r) && NotAfter(r, day)
  {
    forall i, j | 0 <= i < j < |r| ensures Key(r[i]) < Key(r[j]) {
      assert Key(shelf[lo + i]) < Key(shelf[lo + j]);
    }
  }

  lemma RetainKeepsOrder(cfg: Config, shelf: seq<Arch>, day: Day)
    requires GzFirst(shelf) && (!cfg.zlib ==> CountGz(shelf) == 0)
    requires Ascending(shelf) && NotAfter(shelf, day)
    ensures Ascending(Retain(cfg, shelf)) && NotAfter(Retain(cfg, shelf), day)
  {
    hide Retain, CountGz;
    var lo, mid := RetainIsSuffix(cfg, shelf);
    OrderOfTail(shelf, Retain(cfg, shelf), lo, day);
  }

  // ---- Every run keeps the stream ----

  /** No count limit deletes anything. */
  predicate KeepsAll(cfg: Config) {
    GzLimit(cfg) <= 0 && (cfg.zlib || cfg.maxBackups <= 0)
  }

  lemma ShelfGrows(cfg: Config, shelf: seq<Arch>, a: Arch, day: Day)
    requires Ascending(shelf) && GzFirst(shelf) && NotAfter(shelf, day)
    requires !DayBefore(a.day, day) && ValidDay(a.day) && ValidDay(day) && !a.gz
    requires IndexIsNew(shelf, a.day, a.index)
    ensures Ascending(shelf + [a]) && GzFirst(shelf + [a]) && NotAfter(shelf + [a], a.day)
    ensures Content(shelf + [a]) == Content(shelf) + a.data
    ensures CountGz(shelf + [a]) == CountGz(shelf)
  {
    hide Content, CountGz, Key;
    ContentConcat(shelf, [a]);
    ContentOne(a);
    CountGzSnoc(shelf, a);
    forall i | 0 <= i < |shelf| ensures Key(shelf[i]) < Key(a) && !DayBefore(a.day, shelf[i].day) {
      NewestKey(shelf[i], a, day);
    }
  }

  lemma NewestKey(b: Arch, a: Arch, day: Day)
    requires ValidDay(a.day) && ValidDay(b.day) && a.index < INDEX_SPAN && b.index < INDEX_SPAN
    requires !DayBefore(day, b.day) && !DayBefore(a.day, day) && (a.day == b.day ==> b.index < a.index)
    ensures Key(b) < Key(a) && !DayBefore(a.day, b.day)
  {
    KeyOrder(b.day, b.index, a.day, a.index);
  }

  lemma {:induction false} CountGzSnoc(shelf: seq<Arch>, a: Arch)
    requires !a.gz
    ensures CountGz(shelf + [a]) == CountGz(shelf)
  {
    if shelf != [] {
      assert (shelf + [a])[1..] == shelf[1..] + [a];
      CountGzSnoc(shelf[1..], a);
    } else {
      assert [a][1..] == [];
    }
  }

  /** Nothing written so far is missing. */
  predicate Whole(r: Run) {
    Content(r.log.shelf) + r.log.active == r.stream
  }

  lemma CalendarStep(cfg: Config, t: int, u: int)
    requires MonotoneCalendar(cfg) && t <= u
    ensures ValidDay(cfg.local(t).day) && ValidDay(cfg.local(u).day)
    ensures !DayBefore(cfg.local(u).day, cfg.local(t).day)
  {
  }

  lemma NotAfterLater(shelf: seq<Arch>, day: Day, later: Day)
    requires NotAfter(shelf, day) && !DayBefore(later, day)
    ensures NotAfter(shelf, later)
  {
  }

  lemma OpenActiveKeepsGood(cfg: Config, r: Run, now: int, ok: bool)
    requires MonotoneCalendar(cfg) && Good(cfg, r) && !r.log.open && r.clock <= now
    ensures Good(cfg, Run(OpenActive(cfg, r.log, now, ok), now, r.stream))
  {
    hide IsSuffix, Ascending, GzFirst, Content, CountGz, NotAfter, MonotoneCalendar;
    var s := r.log;
    var seen := if s.present then s.openedSec else r.clock;
    CalendarStep(cfg, seen, now);
    NotAfterLater(s.shelf, cfg.local(seen).day, cfg.local(now).day);
  }

  lemma ShelvedIsGood(cfg: Config, r: Run, tagSec: int, index: nat)
    requires MonotoneCalendar(cfg) && Good(cfg, r) && r.log.present
    requires r.log.openedSec <= tagSec
    requires IndexIsNew(r.log.shelf, cfg.local(tagSec).day, index)
    ensures var shelf' := r.log.shelf + [Arch(cfg.local(tagSec).day, index, false, r.log.active)];
            && Ascending(shelf') && GzFirst(shelf') && NotAfter(shelf', cfg.local(tagSec).day)
            && (!cfg.zlib ==> CountGz(shelf') == 0)
            && Content(shelf') == Content(r.log.shelf) + r.log.active
  {
    hide Ascending, GzFirst, Content, CountGz, NotAfter, MonotoneCalendar, IsSuffix, IndexIsNew;
    CalendarStep(cfg, r.log.openedSec, tagSec);
    ShelfGrows(cfg, r.log.shelf, Arch(cfg.local(tagSec).day, index, false, r.log.active),
               cfg.local(r.log.openedSec).day);
  }

  /** Whatever the file system does, archiving loses nothing but what retention drops. */
  lemma ArchiveKeepsGood(cfg: Config, r: Run, tagSec: int, now: int, env: Env, index: nat)
    requires MonotoneCalendar(cfg) && Good(cfg, r)
    requires r.clock <= now && r.log.openedSec <= tagSec <= now
    requires env.renameOk ==> IndexIsNew(r.log.shelf, cfg.local(tagSec).day, index)
    ensures Good(cfg, Run(Archive(cfg, r.log, tagSec, now, env, index), now, r.stream))
    ensures KeepsAll(cfg) && Whole(r) ==> Whole(Run(Archive(cfg, r.log, tagSec, now, env, index), now, r.stream))
  {
    hide Ascending, GzFirst, Content, CountGz, NotAfter, MonotoneCalendar, IsSuffix, IndexIsNew, Retain;
    var s := r.log;
    if !(env.renameOk && s.present) {
      OpenActiveKeepsGood(cfg, r.(log := RenameFailed(s, now)), now, env.openOk);
    } else {
      ShelvedIsGood(cfg, r, tagSec, index);
      var shelf := s.shelf + [Arch(cfg.local(tagSec).day, index, false, s.active)];
      CalendarStep(cfg, tagSec, now);
      NotAfterLater(shelf, cfg.local(tagSec).day, cfg.local(now).day);
      assert Content(shelf) + [] == Content(shelf);
      if env.openOk && env.cleaned {
        RetainKeepsContent(cfg, shelf);
        RetainKeepsOrder(cfg, shelf, cfg.local(now).day);
        ghost var lo, mid := RetainIsSuffix(cfg, shelf);
        SuffixTrans(Content(Retain(cfg, shelf)), Content(shelf), r.stream);
        assert Content(Retain(cfg, shelf)) + [] == Content(Retain(cfg, shelf));
      }
    }
  }

  lemma {:induction false} BytesConcat(a: seq<Chunk>, b: seq<Chunk>)
    ensures Bytes(a + b) == Bytes(a) + Bytes(b)
  {
    if b == [] {
      assert a + b == a;
    } else {
      hide Bytes;
      var n := |b| - 1;
      BytesConcat(a, b[..n]);
      BytesOfLast(b[..n], b[n]);
      BytesOfLast(a + b[..n], b[n]);
      assert b == b[..n] + [b[n]] && a + b == a + b[..n] + [b[n]];
    }
  }

  lemma BytesOfLast(d: seq<Chunk>, c: Chunk)
    ensures Bytes(d + [c]) == Bytes(d) + c.bytes
  {
    assert (d + [c])[..|d|] == d;
  }

  lemma WrittenBytes(w: string, now: int)
    ensures Bytes(Written(w, now)) == w
  {
    if w != "" {
      assert Written(w, now)[..0] == [];
    }
  }

  lemma WriteOpenKeepsGood(cfg: Config, r: Run, bytes: string, now: int, env: Env)
    requires Good(cfg, r) && r.log.open && r.clock == now
    ensures var r' := Run(WriteOpen(r.log, bytes, now, env), now,
                          r.stream + Written(Accepted(bytes, env), now));
            Good(cfg, r') && (Whole(r) ==> Whole(r'))
  {
    hide Ascending, GzFirst, Content, CountGz, NotAfter, IsSuffix, Bytes;
    var s := r.log;
    var w := Written(Accepted(bytes, env), now);
    SuffixAppend(Content(s.shelf) + s.active, r.stream, w);
    assert Content(s.shelf) + s.active + w == Content(s.shelf) + (s.active + w);
    BytesConcat(s.active, w);
    WrittenBytes(Accepted(bytes, env), now);
  }

  lemma Waiting(cfg: Config, r: Run, now: int)
    requires MonotoneCalendar(cfg) && Good(cfg, r) && r.clock <= now
    ensures Good(cfg, r.(clock := now))
  {
    hide Ascending, GzFirst, Content, CountGz, NotAfter, MonotoneCalendar, IsSuffix;
    CalendarStep(cfg, r.clock, now);
    if !r.log.present {
      NotAfterLater(r.log.shelf, cfg.local(r.clock).day, cfg.local(now).day);
    }
  }

  lemma RotateForWriteKeepsGood(cfg: Config, r: Run, bytes: string, now: int, env: Env, index: nat)
    requires MonotoneCalendar(cfg) && Good(cfg, r) && Legal(cfg, r, DoWrite(bytes, now, env, index))
    ensures var r' := Run(RotateForWrite(cfg, r.log, bytes, now, env, index), now, r.stream);
            Good(cfg, r') && (KeepsAll(cfg) && Whole(r) ==> Whole(r'))
  {
    hide Good, Whole, MonotoneCalendar, IndexIsNew, RotationDue, Archive, TimeDue;
    TagIsPast(cfg, r, now);
    Waiting(cfg, r, now);
    if RotationDue(cfg, r.log, |bytes|, now) {
      ArchiveKeepsGood(cfg, r, TagSecond(cfg, r.log, now), now, env, index);
    }
    WholeIgnoresClock(r, now);
  }

  lemma TagIsPast(cfg: Config, r: Run, now: int)
    requires Good(cfg, r) && r.clock <= now
    ensures r.log.openedSec <= TagSecond(cfg, r.log, now) <= now
    ensures r.log.openedSec <= ForceSecond(r.log, now) <= now
  {
  }

  lemma WholeIgnoresClock(r: Run, now: int)
    ensures Whole(r) == Whole(r.(clock := now))
  {
  }

  /** Every operation keeps the invariant, whatever fails. */
  lemma StepKeepsGood(cfg: Config, r: Run, a: Action)
    requires MonotoneCalendar(cfg) && Good(cfg, r) && Legal(cfg, r, a)
    ensures Good(cfg, Step(cfg, r, a))
    ensures KeepsAll(cfg) && Whole(r) ==> Whole(Step(cfg, r, a))
  {
    hide Whole, MonotoneCalendar, IndexIsNew, Archive, RotateForWrite, WriteOpen, OpenActive,
         Ascending, GzFirst, Content, CountGz, NotAfter, IsSuffix, Bytes, Written, Accepted;
    match a
    case DoWrite(bytes, now, env, index) =>
      RotateForWriteKeepsGood(cfg, r, bytes, now, env, index);
      var s1 := RotateForWrite(cfg, r.log, bytes, now, env, index);
      if s1.open {
        WriteOpenKeepsGood(cfg, Run(s1, now, r.stream), bytes, now, env);
      }
    case DoForce(now, env, index) =>
      TagIsPast(cfg, r, now);
      Waiting(cfg, r, now);
      WholeIgnoresClock(r, now);
      if ForceDue(r.log) {
        ArchiveKeepsGood(cfg, r, ForceSecond(r.log, now), now, env, index);
      }
    case DoReopen(now, ok) =>
      var shut := r.(log := r.log.(open := false));
      OpenActiveKeepsGood(cfg, shut, now, ok);
      ReopenIsWhole(cfg, r, now, ok);
  }

  lemma ReopenIsWhole(cfg: Config, r: Run, now: int, ok: bool)
    ensures Whole(r) == Whole(Step(cfg, r, DoReopen(now, ok)))
  {
  }

  // ---- Whole runs ----

  ghost predicate LegalRun(cfg: Config, r: Run, todo: seq<Action>)
    decreases |todo|
  {
    todo == [] || (Legal(cfg, r, todo[0]) && LegalRun(cfg, Step(cfg, r, todo[0]), todo[1..]))
  }

  function Exec(cfg: Config, r: Run, todo: seq<Action>): Run
    decreases |todo|
  {
    if todo == [] then r else Exec(cfg, Step(cfg, r, todo[0]), todo[1..])
  }

  lemma {:induction false} RunKeepsGood(cfg: Config, r: Run, todo: seq<Action>)
    requires MonotoneCalendar(cfg) && Good(cfg, r) && LegalRun(cfg, r, todo)
    ensures Good(cfg, Exec(cfg, r, todo))
    ensures KeepsAll(cfg) && Whole(r) ==> Whole(Exec(cfg, r, todo))
    decreases |todo|
  {
    hide Whole, Good, MonotoneCalendar, KeepsAll, Step, Legal;
    if todo != [] {
      StepKeepsGood(cfg, r, todo[0]);
      RunKeepsGood(cfg, Step(cfg, r, todo[0]), todo[1..]);
    }
  }

  /** A sink that has just created its file, in a directory without archives. */
  function Fresh(cfg: Config, now: int): Run {
    Run(OpenActive(cfg, Log([], [], false, false, 0, 0, 0, now, false, 0, false), now, true), now, [])
  }

  lemma {:induction false} BytesSuffix(a: seq<Chunk>, b: seq<Chunk>)
    requires IsSuffix(a, b)
    ensures IsSuffix(Bytes(a), Bytes(b))
  {
    var n := |b| - |a|;
    assert b == b[..n] + b[n..];
    BytesConcat(b[..n], a);
  }

  /** The main theorem. Over any run of writes, forced rotations and reopens on one
    * file sink, with failing renames, failing opens and short writes anywhere: the
    * surviving archives in key order and then the active file are a suffix of
    * everything that was written, and all of it when no count limit deletes; every
    * plain archive is newer than every compressed one. */
  lemma RunsKeepTheStream(cfg: Config, start: int, todo: seq<Action>)
    requires MonotoneCalendar(cfg) && LegalRun(cfg, Fresh(cfg, start), todo)
    ensures var r := Exec(cfg, Fresh(cfg, start), todo);
            && Ascending(r.log.shelf) && GzFirst(r.log.shelf)
            && IsSuffix(Content(r.log.shelf) + r.log.active, r.stream)
            && IsSuffix(Bytes(Content(r.log.shelf)) + Bytes(r.log.active), Bytes(r.stream))
            && (KeepsAll(cfg) ==> Content(r.log.shelf) + r.log.active == r.stream
                                  && Bytes(Content(r.log.shelf)) + Bytes(r.log.active) == Bytes(r.stream))
  {
    hide MonotoneCalendar, Exec, LegalRun;
    var r := Exec(cfg, Fresh(cfg, start), todo);
    RunKeepsGood(cfg, Fresh(cfg, start), todo);
    BytesSuffix(Content(r.log.shelf) + r.log.active, r.stream);
    BytesConcat(Content(r.log.shelf), r.log.active);
  }
}
