/** Producers, worker, flushers and the reconfiguring thread around the
  * asynchronous engine: src/hx_clog_async.c together with `core_dispatch_line`
  * and `hx_clog_reconfigure_locked` of src/hx_clog_core.c.
  *
  * Each action is atomic in the program: it runs between taking and releasing
  * `g_async_lock`, or it is one atomic load or store of the mode, or one call of
  * `hx_core_emit_to_sinks`. Actions of different threads interleave freely. The
  * state also carries the history of the run.
  */
module AsyncProtocol {
  import opened AsyncQueue
  import opened Common

  // ---- Threads ----

  /** A thread inside `core_dispatch_line`. */
  datatype Producer =
    | Resting
    | Called(line: Line)    // before the mode is read
    | SawAsync(line: Line)  // mode read ASYNC, before the lock
    | Waiting(line: Line, woken: bool)   // in the wait on g_async_not_full, signalled or not
    | Direct(line: Line)    // about to write synchronously

  datatype Worker =
    | Absent
    | Top                                  // about to lock
    | Batch(written: nat)                  // holds the lock, inside the batch loop
    | Emitting(line: Line, written: nat)   // lock released, line not yet handed over
    | Leaving                              // saw stop with an empty queue, unlocked
    | Exited

  datatype Flusher =
    | NotFlushing
    | FlushWaiting(epoch: nat, mark: nat)
    | FlushReturned(epoch: nat, mark: nat, cleared: bool)

  /** Progress of the thread inside `hx_clog_reconfigure_locked`. */
  datatype Controller =
    | Steady
    | Switched(cfg: Option<Config>)   // mode is SYNC, engine not yet stopped
    | Stopping(cfg: Option<Config>)   // stop is set, joining the worker
    | Swapping(cfg: Option<Config>)   // engine detached, sinks being exchanged
    | Launching                       // engine started, worker thread not created
    | Launched                        // worker created, mode not yet published

  datatype Fate = Passed | Lost

  /** What happened in the current engine epoch. `verdicts[i]` says whether the
    * engine let `attempted[i]` into the queue (it refuses lines under DROP_NEW and
    * for lack of memory), `fates[i]` what became of `accepted[i]` when it left. */
  datatype Ledger = Ledger(
    attempted: seq<Line>,
    verdicts: seq<Fate>,
    accepted: seq<Line>,
    fates: seq<Fate>,
    delivered: seq<Line>)   // handed to the sinks by the worker

  datatype State = State(
    asyncMode: bool,
    q: Queue,
    worker: Worker,
    ctl: Controller,
    producers: seq<Producer>,
    flushers: seq<Flusher>,
    epoch: nat,
    ledger: Ledger,
    dispatched: seq<Line>,  // every call of core_dispatch_line
    emitted: seq<Line>,     // every call of hx_core_emit_to_sinks
    lost: seq<Line>,        // every line the engine dropped
    lostBefore: nat)        // drops counted in earlier epochs

  datatype Action =
    | Dispatch(i: nat, line: Line)
    | ReadMode(i: nat)
    | EnterQueue(i: nat, stored: bool)
    | WakeProducer(i: nat, stored: bool)
    | WakeSpuriously(i: nat)
    | WriteDirect(i: nat)
    | WorkerLock
    | WorkerPop(copied: bool, sleeper: nat)
    | WorkerHandOver
    | WorkerBatchEnd
    | WorkerExit
    | StartFlush(f: nat)
    | WakeFlusher(f: nat)
    | SwitchToSync(cfg: Option<Config>)
    | SetStop
    | JoinAndDetach
    | Launch(haveMemory: bool)
    | CreateWorker
    | PublishAsync

  const EMPTY_LEDGER := Ledger([], [], [], [], [])

  function Init(producers: nat, flushers: nat): State {
    State(false, Queue([], 0, 0, Block, false, false, false, 0, 0), Absent, Steady,
          seq(producers, i => Resting), seq(flushers, i => NotFlushing),
          0, EMPTY_LEDGER, [], [], [], 0)
  }

  /** The worker keeps `g_async_lock` while it is inside the batch loop. */
  predicate LockFree(s: State) {
    !s.worker.Batch?
  }

  // ---- The condition variable g_async_not_full ----

  /** A producer whose wait no signal has ended. */
  predicate IsAsleep(ps: seq<Producer>, i: nat) {
    i < |ps| && ps[i].Waiting? && !ps[i].woken
  }

  /** A producer whose wait is over, but which has not got the lock back yet. */
  predicate IsWoken(ps: seq<Producer>, i: nat) {
    i < |ps| && ps[i].Waiting? && ps[i].woken
  }

  predicate NobodyAsleep(ps: seq<Producer>) {
    forall i :: 0 <= i < |ps| ==> !IsAsleep(ps, i)
  }

  /** `hx_cond_signal`: one sleeper is woken, and none when nobody sleeps. */
  function Signal(ps: seq<Producer>, i: nat): (r: seq<Producer>)
    ensures |r| == |ps|
  {
    if IsAsleep(ps, i) then ps[i := ps[i].(woken := true)] else ps
  }

  function Roused(p: Producer): Producer {
    if p.Waiting? then p.(woken := true) else p
  }

  /** `hx_cond_broadcast`. */
  function Broadcast(ps: seq<Producer>): (r: seq<Producer>)
    ensures |r| == |ps|
    ensures forall i :: 0 <= i < |ps| ==> r[i] == Roused(ps[i])
  {
    seq(|ps|, i requires 0 <= i < |ps| => Roused(ps[i]))
  }

  predicate Enabled(s: State, a: Action) {
    match a
    case Dispatch(i, _) => i < |s.producers| && s.producers[i].Resting?
    case ReadMode(i) => i < |s.producers| && s.producers[i].Called?
    case EnterQueue(i, _) => i < |s.producers| && s.producers[i].SawAsync? && LockFree(s)
    case WakeProducer(i, _) => IsWoken(s.producers, i) && LockFree(s)
    case WakeSpuriously(i) => IsAsleep(s.producers, i)
    case WriteDirect(i) => i < |s.producers| && s.producers[i].Direct?
    case WorkerLock => s.worker.Top?
    case WorkerPop(_, sleeper) => s.worker.Batch? && s.q.lines != [] && s.worker.written < s.q.batchSize
                                  && (NobodyAsleep(s.producers) || IsAsleep(s.producers, sleeper))
    case WorkerHandOver => s.worker.Emitting?
    case WorkerBatchEnd => s.worker.Batch? && !(s.q.lines != [] && s.worker.written < s.q.batchSize)
    case WorkerExit => s.worker.Leaving?
    case StartFlush(f) => f < |s.flushers| && !s.flushers[f].FlushWaiting? && LockFree(s)
    case WakeFlusher(f) => f < |s.flushers| && s.flushers[f].FlushWaiting? && LockFree(s)
    case SwitchToSync(_) => s.ctl.Steady?
    case SetStop => s.ctl.Switched? && LockFree(s)
    case JoinAndDetach => s.ctl.Stopping? && s.worker.Exited?
    case Launch(_) => s.ctl.Swapping? && LockFree(s)
    case CreateWorker => s.ctl.Launching?
    case PublishAsync => s.ctl.Launched?
  }

  // ---- Steps ----

  function Popped(s: State): nat {
    |s.ledger.fates|
  }

  /** Lines of this epoch that are delivered or dropped. */
  function Settled(s: State): int {
    Popped(s) - |InFlight(s.worker)|
  }

  function Accept(l: Ledger, line: Line): Ledger {
    l.(attempted := l.attempted + [line], verdicts := l.verdicts + [Passed],
       accepted := l.accepted + [line])
  }

  function Reject(l: Ledger, line: Line): Ledger {
    l.(attempted := l.attempted + [line], verdicts := l.verdicts + [Lost])
  }

  function Leave(l: Ledger, fate: Fate): Ledger {
    l.(fates := l.fates + [fate])
  }

  /** Bookkeeping for a decision `out` that the engine took on `line`; `evicted`
    * holds the line that made room for it, if any. */
  function Decide(s: State, line: Line, q': Queue, out: Outcome, evicted: seq<Line>): State {
    var s1 := if evicted == [] then s
              else s.(ledger := Leave(s.ledger, Lost), lost := s.lost + evicted);
    match out
    case Stored => s1.(q := q', ledger := Accept(s1.ledger, line))
    case QueueFull => s1.(q := q', ledger := Reject(s1.ledger, line), lost := s1.lost + [line])
    case OutOfMemory => s1.(q := q', ledger := Reject(s1.ledger, line), lost := s1.lost + [line])
    case _ => s1.(q := q')
  }

  /** Where `core_dispatch_line` goes after `hx_async_enqueue` came back (or slept). */
  function After(line: Line, out: Outcome): Producer {
    match out
    case NotInitialized => Direct(line)
    case MustWait => Waiting(line, false)
    case _ => Resting
  }

  predicate Evicts(q: Queue) {
    q.running && !q.stop && Full(q) && q.overflow == DropOld && q.lines != []
  }

  function StepEnter(s: State, i: nat, stored: bool): State
    requires Enabled(s, EnterQueue(i, stored))
  {
    var line := s.producers[i].line;
    var (q', out) := Enqueue(s.q, line, stored);
    var evicted := if Evicts(s.q) then [s.q.lines[0]] else [];
    Decide(s, line, q', out, evicted).(producers := s.producers[i := After(line, out)])
  }

  function StepWake(s: State, i: nat, stored: bool): State
    requires Enabled(s, WakeProducer(i, stored))
  {
    var line := s.producers[i].line;
    var (q', out) := Resume(s.q, line, stored);
    Decide(s, line, q', out, []).(producers := s.producers[i := After(line, out)])
  }

  function StepLock(s: State): State
    requires Enabled(s, WorkerLock)
  {
    if s.q.lines != [] then s.(worker := Batch(0))
    else s.(q := Idle(s.q), worker := if s.q.stop then Leaving else Top)
  }

  function StepPop(s: State, copied: bool, sleeper: nat): State
    requires Enabled(s, WorkerPop(copied, sleeper))
  {
    var (q', popped) := Pop(s.q, copied);
    var producers := Signal(s.producers, sleeper);
    match popped
    case Some(line) =>
      s.(q := q', producers := producers, worker := Emitting(line, s.worker.written), ledger := Leave(s.ledger, Passed))
    case None =>
      s.(q := q', producers := producers, worker := Batch(s.worker.written + 1), ledger := Leave(s.ledger, Lost),
         lost := s.lost + [s.q.lines[0]])
  }

  function StepHandOver(s: State): State
    requires Enabled(s, WorkerHandOver)
  {
    var line := s.worker.line;
    s.(worker := Batch(s.worker.written + 1), emitted := s.emitted + [line],
       ledger := s.ledger.(delivered := s.ledger.delivered + [line]))
  }

  function StepStartFlush(s: State, f: nat): State
    requires Enabled(s, StartFlush(f))
  {
    var (q', waits) := FlushBegin(s.q);
    var mark := |s.ledger.accepted|;
    s.(q := q', flushers := s.flushers[f := if waits then FlushWaiting(s.epoch, mark)
                                            else FlushReturned(s.epoch, mark, false)])
  }

  function StepWakeFlusher(s: State, f: nat): State
    requires Enabled(s, WakeFlusher(f))
  {
    var w := s.flushers[f];
    if FlushDone(s.q)
    then s.(flushers := s.flushers[f := FlushReturned(w.epoch, w.mark, s.q.lines != [] && !s.q.flushRequest)])
    else s
  }

  function StepLaunch(s: State, haveMemory: bool): State
    requires Enabled(s, Launch(haveMemory))
  {
    match s.ctl.cfg
    case None => s.(ctl := Steady)
    case Some(cfg) =>
      if !haveMemory then s.(ctl := Steady)
      else s.(q := Started(cfg), ctl := Launching, epoch := s.epoch + 1,
              ledger := EMPTY_LEDGER, lostBefore := s.lostBefore + s.q.dropped)
  }

  function Step(s: State, a: Action): State
    requires Enabled(s, a)
  {
    match a
    case Dispatch(i, line) =>
      s.(producers := s.producers[i := Called(line)], dispatched := s.dispatched + [line])
    case ReadMode(i) =>
      var line := s.producers[i].line;
      s.(producers := s.producers[i := if s.asyncMode then SawAsync(line) else Direct(line)])
    case EnterQueue(i, stored) => StepEnter(s, i, stored)
    case WakeProducer(i, stored) => StepWake(s, i, stored)
    case WriteDirect(i) =>
      s.(producers := s.producers[i := Resting], emitted := s.emitted + [s.producers[i].line])
    case WorkerLock => StepLock(s)
    case WakeSpuriously(i) => s.(producers := s.producers[i := Roused(s.producers[i])])
    case WorkerPop(copied, sleeper) => StepPop(s, copied, sleeper)
    case WorkerHandOver => StepHandOver(s)
    case WorkerBatchEnd => s.(q := BatchEnd(s.q), worker := Top)
    case WorkerExit => s.(worker := Exited)
    case StartFlush(f) => StepStartFlush(s, f)
    case WakeFlusher(f) => StepWakeFlusher(s, f)
    case SwitchToSync(cfg) =>
      if s.asyncMode then s.(asyncMode := false, ctl := Switched(cfg))
      else s.(ctl := Swapping(cfg))
    case SetStop =>
      s.(q := StopBegin(s.q), producers := Broadcast(s.producers), ctl := Stopping(s.ctl.cfg))
    case JoinAndDetach => s.(q := Detach(s.q), worker := Absent, ctl := Swapping(s.ctl.cfg))
    case Launch(haveMemory) => StepLaunch(s, haveMemory)
    case CreateWorker => s.(worker := Top, ctl := Launched)
    case PublishAsync => s.(asyncMode := true, ctl := Steady)
  }

  // ---- Runs ----

  /** The state a run leads to, or None when one of its actions is not enabled. */
  function Exec(s: State, run: seq<Action>): Option<State> {
    if run == [] then Some(s)
    else
      var before := Exec(s, run[..|run| - 1]);
      var a := run[|run| - 1];
      if before.Some? && Enabled(before.value, a) then Some(Step(before.value, a)) else None
  }

  // ---- What a state holds ----

  function InFlight(w: Worker): seq<Line> {
    if w.Emitting? then [w.line] else []
  }

  function HeldBy(p: Producer): seq<Line> {
    if p.Resting? then [] else [p.line]
  }

  /** How often `x` occurs in `lines`. */
  function Copies(x: Line, lines: seq<Line>): nat {
    if lines == [] then 0
    else Copies(x, lines[..|lines| - 1]) + (if lines[|lines| - 1] == x then 1 else 0)
  }

  /** How many producers carry `x`. */
  function Held(x: Line, ps: seq<Producer>): nat {
    if ps == [] then 0 else Held(x, ps[..|ps| - 1]) + Copies(x, HeldBy(ps[|ps| - 1]))
  }

  lemma CopiesSnoc(x: Line, lines: seq<Line>, line: Line)
    ensures Copies(x, lines + [line]) == Copies(x, lines) + (if line == x then 1 else 0)
  {
    assert (lines + [line])[..|lines|] == lines;
  }

  lemma CopiesNone(x: Line)
    ensures Copies(x, []) == 0
  {
  }

  lemma CopiesOne(x: Line, line: Line)
    ensures Copies(x, [line]) == if line == x then 1 else 0
  {
    CopiesSnoc(x, [], line);
    assert [] + [line] == [line];
  }

  lemma {:induction false} CopiesTail(x: Line, lines: seq<Line>)
    requires lines != []
    ensures Copies(x, lines) == Copies(x, lines[1..]) + (if lines[0] == x then 1 else 0)
  {
    var n := |lines| - 1;
    if n > 0 {
      CopiesTail(x, lines[..n]);
      assert lines[..n][1..] == lines[1..][..n - 1];
    }
  }

  lemma {:induction false} CopiesIsMultiset(x: Line, lines: seq<Line>)
    ensures Copies(x, lines) == multiset(lines)[x]
  {
    if lines != [] {
      var n := |lines| - 1;
      CopiesIsMultiset(x, lines[..n]);
      assert lines == lines[..n] + [lines[n]];
    }
  }

  lemma {:induction false} HeldUpdate(x: Line, ps: seq<Producer>, i: nat, p: Producer)
    requires i < |ps|
    ensures Held(x, ps[i := p]) + Copies(x, HeldBy(ps[i])) == Held(x, ps) + Copies(x, HeldBy(p))
  {
    hide HeldBy, Copies;
    var n := |ps| - 1;
    if i == n {
      assert ps[i := p][..n] == ps[..n];
    } else {
      assert ps[i := p][..n] == ps[..n][i := p];
      HeldUpdate(x, ps[..n], i, p);
    }
  }

  /** The lines of `lines` whose fate is `Passed`. */
  function Select(lines: seq<Line>, fates: seq<Fate>): seq<Line>
    requires |lines| == |fates|
  {
    if lines == [] then []
    else
      var n := |lines| - 1;
      Select(lines[..n], fates[..n]) + (if fates[n].Passed? then [lines[n]] else [])
  }

  function CountLost(fates: seq<Fate>): nat {
    if fates == [] then 0
    else CountLost(fates[..|fates| - 1]) + (if fates[|fates| - 1].Lost? then 1 else 0)
  }

  // ---- The invariant ----

  function Accounted(x: Line, s: State): nat {
    Copies(x, s.emitted) + Held(x, s.producers) + Copies(x, InFlight(s.worker))
    + Copies(x, s.q.lines) + Copies(x, s.lost)
  }

  /** No line is lost without being counted and none is duplicated: what was
    * dispatched is emitted, carried by a producer or the worker, queued or lost. */
  ghost predicate Conserved(s: State) {
    && (forall x: Line :: Copies(x, s.dispatched) == Accounted(x, s))
    && |s.lost| == s.lostBefore + s.q.dropped
  }

  /** The queue is the tail of the accepted lines; the rest left it in order. */
  predicate LedgerOk(q: Queue, l: Ledger, inFlight: seq<Line>) {
    var n := |l.fates|;
    && |l.verdicts| == |l.attempted|
    && l.accepted == Select(l.attempted, l.verdicts)
    && n <= |l.accepted|
    && q.lines == l.accepted[n..]
    && l.delivered + inFlight == Select(l.accepted[..n], l.fates)
    && q.dropped == CountLost(l.verdicts) + CountLost(l.fates)
    && |q.lines| <= q.highWatermark <= q.capacity
  }

  predicate Live(w: Worker) {
    w.Top? || w.Batch? || w.Emitting?
  }

  /** How mode, controller, worker and engine flags go together. */
  predicate Lifecycle(s: State) {
    && (s.q.running ==> s.q.capacity > 0 && s.q.batchSize > 0)
    && (!s.q.running ==> s.q.lines == [])
    && (s.worker.Leaving? || s.worker.Exited? ==> s.q.stop && s.q.lines == [])
    && (s.worker == Batch(0) ==> s.q.lines != [])
    && match s.ctl
       case Steady => if s.asyncMode then s.q.running && !s.q.stop && Live(s.worker)
                      else !s.q.running && s.worker.Absent?
       case Switched(_) => !s.asyncMode && s.q.running && !s.q.stop && Live(s.worker)
       case Stopping(_) => !s.asyncMode && s.q.running && s.q.stop && !s.worker.Absent?
       case Swapping(_) => !s.asyncMode && !s.q.running && s.worker.Absent?
       case Launching => !s.asyncMode && s.q.running && !s.q.stop && s.worker.Absent?
       case Launched => !s.asyncMode && s.q.running && !s.q.stop && Live(s.worker)
  }

  /** What a flush has achieved, as long as its engine was not stopped: everything
    * accepted before the call has left the queue, and if the worker cleared the
    * request it is also delivered or dropped. */
  predicate FlusherOk(s: State, f: Flusher) {
    match f
    case NotFlushing => true
    case FlushWaiting(epoch, mark) =>
      epoch <= s.epoch
      && (epoch == s.epoch ==> mark <= |s.ledger.accepted|)
      && (epoch == s.epoch && !s.q.flushRequest ==> mark <= Settled(s))
    case FlushReturned(epoch, mark, cleared) =>
      epoch <= s.epoch
      && (epoch == s.epoch ==> mark <= |s.ledger.accepted|)
      && (epoch == s.epoch && !s.q.stop ==>
            if cleared then mark <= Settled(s) else mark <= Popped(s))
  }

  predicate FlushOk(s: State) {
    forall f :: 0 <= f < |s.flushers| ==> FlusherOk(s, s.flushers[f])
  }

  /** A producer sleeps only while an engine is running that was not stopped; and
    * before the first engine nobody waits at all. */
  predicate NoneStranded(s: State) {
    && (!s.q.running || s.q.stop ==> NobodyAsleep(s.producers))
    && (!s.q.running && !s.q.stop ==> forall i :: 0 <= i < |s.producers| ==> !s.producers[i].Waiting?)
  }

  ghost predicate Inv(s: State) {
    && Conserved(s) && LedgerOk(s.q, s.ledger, InFlight(s.worker)) && Lifecycle(s) && FlushOk(s)
    && NoneStranded(s)
  }

  lemma {:induction false} HeldNothing(x: Line, n: nat)
    ensures Held(x, seq(n, i => Resting)) == 0
  {
    if n > 0 {
      assert seq(n, i => Resting)[..n - 1] == seq(n - 1, i => Resting);
      HeldNothing(x, n - 1);
    }
  }

  lemma InitInv(producers: nat, flushers: nat)
    ensures Inv(Init(producers, flushers))
  {
    var s := Init(producers, flushers);
    forall x: Line ensures Copies(x, s.dispatched) == Accounted(x, s) {
      HeldNothing(x, producers);
    }
  }

  // ---- Conservation ----

  /** A line enters while the oldest one is pushed out. */
  lemma EvictingConserved(s: State, i: nat, stored: bool, x: Line)
    requires Enabled(s, EnterQueue(i, stored)) && Evicts(s.q)
    requires Copies(x, s.dispatched) == Accounted(x, s)
    ensures var s' := StepEnter(s, i, stored); Copies(x, s'.dispatched) == Accounted(x, s')
  {
    hide Copies, Held;
    var line, first := s.producers[i].line, s.q.lines[0];
    HeldUpdate(x, s.producers, i, Resting);
    CopiesOne(x, line);
    CopiesNone(x);
    CopiesTail(x, s.q.lines);
    CopiesSnoc(x, s.lost, first);
    CopiesSnoc(x, s.q.lines[1..], line);
    CopiesSnoc(x, s.lost + [first], line);
  }

  /** A line enters, or is turned away, while all queued lines stay. */
  lemma StayingConserved(s: State, i: nat, stored: bool, x: Line)
    requires Enabled(s, EnterQueue(i, stored)) && !Evicts(s.q)
    requires Copies(x, s.dispatched) == Accounted(x, s)
    ensures var s' := StepEnter(s, i, stored); Copies(x, s'.dispatched) == Accounted(x, s')
  {
    hide Copies, Held;
    var line := s.producers[i].line;
    var (q', out) := Enqueue(s.q, line, stored);
    HeldUpdate(x, s.producers, i, After(line, out));
    CopiesOne(x, line);
    CopiesNone(x);
    CopiesSnoc(x, s.q.lines, line);
    CopiesSnoc(x, s.lost, line);
    assert q'.lines == if out.Stored? then s.q.lines + [line] else s.q.lines;
  }

  lemma EnterConserved(s: State, i: nat, stored: bool, x: Line)
    requires Enabled(s, EnterQueue(i, stored))
    requires Copies(x, s.dispatched) == Accounted(x, s)
    ensures var s' := StepEnter(s, i, stored); Copies(x, s'.dispatched) == Accounted(x, s')
  {
    hide StepEnter, Accounted, Copies;
    if Evicts(s.q) {
      EvictingConserved(s, i, stored, x);
    } else {
      StayingConserved(s, i, stored, x);
    }
  }

  lemma WakeConserved(s: State, i: nat, stored: bool, x: Line)
    requires Enabled(s, WakeProducer(i, stored))
    requires Copies(x, s.dispatched) == Accounted(x, s)
    ensures var s' := StepWake(s, i, stored); Copies(x, s'.dispatched) == Accounted(x, s')
  {
    hide Copies, Held;
    var line := s.producers[i].line;
    var (_, out) := Resume(s.q, line, stored);
    HeldUpdate(x, s.producers, i, After(line, out));
    CopiesOne(x, line);
    CopiesNone(x);
    CopiesSnoc(x, s.q.lines, line);
    CopiesSnoc(x, s.lost, line);
  }

  /** Waking a producer does not change what it carries. */
  lemma HeldRoused(x: Line, ps: seq<Producer>, i: nat)
    requires i < |ps|
    ensures Held(x, ps[i := Roused(ps[i])]) == Held(x, ps)
  {
    HeldUpdate(x, ps, i, Roused(ps[i]));
  }

  lemma {:induction false} HeldBroadcast(x: Line, ps: seq<Producer>)
    ensures Held(x, Broadcast(ps)) == Held(x, ps)
  {
    if ps != [] {
      var n := |ps| - 1;
      assert Broadcast(ps)[..n] == Broadcast(ps[..n]);
      HeldBroadcast(x, ps[..n]);
    }
  }

  lemma PopConserved(s: State, copied: bool, sleeper: nat, x: Line)
    requires Enabled(s, WorkerPop(copied, sleeper))
    requires Copies(x, s.dispatched) == Accounted(x, s)
    ensures var s' := StepPop(s, copied, sleeper); Copies(x, s'.dispatched) == Accounted(x, s')
  {
    hide Copies, Held;
    if sleeper < |s.producers| {
      HeldRoused(x, s.producers, sleeper);
    }
    CopiesTail(x, s.q.lines);
    CopiesOne(x, s.q.lines[0]);
    CopiesNone(x);
    CopiesSnoc(x, s.lost, s.q.lines[0]);
  }

  /** The remaining actions of producers: dispatch, mode read, direct write. */
  lemma ProducerConserved(s: State, a: Action, x: Line)
    requires a.Dispatch? || a.ReadMode? || a.WriteDirect?
    requires Enabled(s, a)
    requires Copies(x, s.dispatched) == Accounted(x, s)
    ensures var s' := Step(s, a); Copies(x, s'.dispatched) == Accounted(x, s')
  {
    hide Copies, Held, StepEnter, StepWake, StepPop, StepLock, StepHandOver, StepStartFlush,
         StepWakeFlusher, StepLaunch;
    var s' := Step(s, a);
    HeldUpdate(x, s.producers, a.i, s'.producers[a.i]);
    CopiesNone(x);
    match a
    case Dispatch(i, line) => CopiesOne(x, line); CopiesSnoc(x, s.dispatched, line);
    case ReadMode(i) =>
    case WriteDirect(i) =>
      CopiesOne(x, s.producers[i].line);
      CopiesSnoc(x, s.emitted, s.producers[i].line);
  }

  lemma HandOverConserved(s: State, x: Line)
    requires Enabled(s, WorkerHandOver)
    requires Copies(x, s.dispatched) == Accounted(x, s)
    ensures var s' := StepHandOver(s); Copies(x, s'.dispatched) == Accounted(x, s')
  {
    hide Copies, Held;
    CopiesNone(x);
    CopiesOne(x, s.worker.line);
    CopiesSnoc(x, s.emitted, s.worker.line);
  }

  lemma StepConserves(s: State, a: Action, x: Line)
    requires Lifecycle(s) && Enabled(s, a)
    requires Copies(x, s.dispatched) == Accounted(x, s)
    ensures var s' := Step(s, a); Copies(x, s'.dispatched) == Accounted(x, s')
  {
    hide Copies, Held, StepEnter, StepWake, StepPop, StepHandOver;
    match a
    case Dispatch(_, _) => ProducerConserved(s, a, x);
    case ReadMode(_) => ProducerConserved(s, a, x);
    case WriteDirect(_) => ProducerConserved(s, a, x);
    case EnterQueue(i, stored) => EnterConserved(s, i, stored, x);
    case WakeProducer(i, stored) => WakeConserved(s, i, stored, x);
    case WorkerPop(copied, sleeper) => PopConserved(s, copied, sleeper, x);
    case WakeSpuriously(i) => HeldRoused(x, s.producers, i);
    case SetStop => HeldBroadcast(x, s.producers);
    case WorkerHandOver => HandOverConserved(s, x);
    case _ =>
  }

  lemma EnterCountsDrops(s: State, i: nat, stored: bool)
    requires |s.lost| == s.lostBefore + s.q.dropped && Enabled(s, EnterQueue(i, stored))
    ensures var s' := StepEnter(s, i, stored); |s'.lost| == s'.lostBefore + s'.q.dropped
  {
  }

  lemma WakeCountsDrops(s: State, i: nat, stored: bool)
    requires |s.lost| == s.lostBefore + s.q.dropped && Enabled(s, WakeProducer(i, stored))
    ensures var s' := StepWake(s, i, stored); |s'.lost| == s'.lostBefore + s'.q.dropped
  {
  }

  /** Every drop is counted, once. */
  lemma StepCountsDrops(s: State, a: Action)
    requires |s.lost| == s.lostBefore + s.q.dropped && Enabled(s, a)
    ensures var s' := Step(s, a); |s'.lost| == s'.lostBefore + s'.q.dropped
  {
    hide StepEnter, StepWake;
    match a
    case EnterQueue(i, stored) => EnterCountsDrops(s, i, stored);
    case WakeProducer(i, stored) => WakeCountsDrops(s, i, stored);
    case _ =>
  }

  lemma StepConserved(s: State, a: Action)
    requires Conserved(s) && Lifecycle(s) && Enabled(s, a)
    ensures Conserved(Step(s, a))
  {
    hide Copies, Held, Accounted, Lifecycle, Enabled, Step;
    StepCountsDrops(s, a);
    var s' := Step(s, a);
    forall x: Line ensures Copies(x, s'.dispatched) == Accounted(x, s') {
      StepConserves(s, a, x);
    }
  }

  // ---- The ledger ----

  lemma SelectSnoc(lines: seq<Line>, fates: seq<Fate>, line: Line, fate: Fate)
    requires |lines| == |fates|
    ensures Select(lines + [line], fates + [fate])
            == Select(lines, fates) + (if fate.Passed? then [line] else [])
  {
    assert (lines + [line])[..|lines|] == lines;
    assert (fates + [fate])[..|fates|] == fates;
  }

  lemma CountLostSnoc(fates: seq<Fate>, fate: Fate)
    ensures CountLost(fates + [fate]) == CountLost(fates) + (if fate.Lost? then 1 else 0)
  {
    assert (fates + [fate])[..|fates|] == fates;
  }

  /** The oldest queued line leaves: it is handed to the worker or dropped. */
  lemma LeaveLedger(q: Queue, l: Ledger, inFlight: seq<Line>, handed: bool)
    requires LedgerOk(q, l, inFlight) && q.lines != [] && (handed ==> inFlight == [])
    ensures var q' := if handed then q.(lines := q.lines[1..]) else Evict(q);
            LedgerOk(q', Leave(l, if handed then Passed else Lost),
                     if handed then [q.lines[0]] else inFlight)
  {
    hide Select, CountLost;
    var n := |l.fates|;
    var fate := if handed then Passed else Lost;
    assert l.accepted[..n + 1] == l.accepted[..n] + [l.accepted[n]];
    SelectSnoc(l.accepted[..n], l.fates, l.accepted[n], fate);
    CountLostSnoc(l.fates, fate);
  }

  lemma AcceptLedger(q: Queue, l: Ledger, inFlight: seq<Line>, line: Line)
    requires LedgerOk(q, l, inFlight) && !Full(q)
    ensures LedgerOk(Push(q, line, true).0, Accept(l, line), inFlight)
  {
    hide Select, CountLost;
    var n := |l.fates|;
    assert (l.accepted + [line])[..n] == l.accepted[..n];
    assert (l.accepted + [line])[n..] == l.accepted[n..] + [line];
    SelectSnoc(l.attempted, l.verdicts, line, Passed);
    CountLostSnoc(l.verdicts, Passed);
  }

  lemma RejectLedger(q: Queue, l: Ledger, inFlight: seq<Line>, line: Line)
    requires LedgerOk(q, l, inFlight)
    ensures LedgerOk(q.(dropped := q.dropped + 1), Reject(l, line), inFlight)
  {
    hide Select, CountLost;
    SelectSnoc(l.attempted, l.verdicts, line, Lost);
    CountLostSnoc(l.verdicts, Lost);
  }

  lemma EvictedHasRoom(q: Queue, l: Ledger, inFlight: seq<Line>)
    requires LedgerOk(q, l, inFlight) && q.lines != []
    ensures !Full(Evict(q))
  {
  }

  /** What a producer does to queue and ledger when it pushes out the oldest line. */
  lemma EnterEvicting(s: State, i: nat, stored: bool)
    requires Enabled(s, EnterQueue(i, stored)) && Evicts(s.q)
    ensures var s' := StepEnter(s, i, stored); var line := s.producers[i].line;
            var q1, l1 := Evict(s.q), Leave(s.ledger, Lost);
            && s'.worker == s.worker
            && s'.q == (if stored then Push(q1, line, true).0 else q1.(dropped := q1.dropped + 1))
            && s'.ledger == if stored then Accept(l1, line) else Reject(l1, line)
  {
    hide Accept, Reject;
  }

  lemma EnterLedgerEvicting(s: State, i: nat, stored: bool)
    requires LedgerOk(s.q, s.ledger, InFlight(s.worker))
    requires Enabled(s, EnterQueue(i, stored)) && Evicts(s.q)
    ensures var s' := StepEnter(s, i, stored); LedgerOk(s'.q, s'.ledger, InFlight(s'.worker))
  {
    hide LedgerOk, Select, CountLost, StepEnter, Push, Accept, Reject;
    var line := s.producers[i].line;
    var w := InFlight(s.worker);
    LeaveLedger(s.q, s.ledger, w, false);
    var q1, l1 := Evict(s.q), Leave(s.ledger, Lost);
    EvictedHasRoom(s.q, s.ledger, w);
    EnterEvicting(s, i, stored);
    if stored {
      AcceptLedger(q1, l1, w, line);
    } else {
      RejectLedger(q1, l1, w, line);
    }
  }

  lemma EnterLedger(s: State, i: nat, stored: bool)
    requires LedgerOk(s.q, s.ledger, InFlight(s.worker)) && Lifecycle(s)
    requires Enabled(s, EnterQueue(i, stored))
    ensures var s' := StepEnter(s, i, stored); LedgerOk(s'.q, s'.ledger, InFlight(s'.worker))
  {
    hide LedgerOk, Select, CountLost;
    if Evicts(s.q) {
      EnterLedgerEvicting(s, i, stored);
    } else {
      var line := s.producers[i].line;
      if !Full(s.q) && stored {
        AcceptLedger(s.q, s.ledger, InFlight(s.worker), line);
      } else {
        RejectLedger(s.q, s.ledger, InFlight(s.worker), line);
      }
    }
  }

  lemma WakeLedger(s: State, i: nat, stored: bool)
    requires LedgerOk(s.q, s.ledger, InFlight(s.worker))
    requires Enabled(s, WakeProducer(i, stored))
    ensures var s' := StepWake(s, i, stored); LedgerOk(s'.q, s'.ledger, InFlight(s'.worker))
  {
    hide LedgerOk;
    var line := s.producers[i].line;
    if !Full(s.q) {
      AcceptLedger(s.q, s.ledger, InFlight(s.worker), line);
    }
    RejectLedger(s.q, s.ledger, InFlight(s.worker), line);
  }

  lemma StepLedger(s: State, a: Action)
    requires LedgerOk(s.q, s.ledger, InFlight(s.worker)) && Lifecycle(s) && Enabled(s, a)
    ensures var s' := Step(s, a); LedgerOk(s'.q, s'.ledger, InFlight(s'.worker))
  {
    hide StepEnter, StepWake, Select, CountLost;
    match a
    case EnterQueue(i, stored) => EnterLedger(s, i, stored);
    case WakeProducer(i, stored) => WakeLedger(s, i, stored);
    case WorkerPop(copied, _) => LeaveLedger(s.q, s.ledger, [], copied);
    case Launch(_) => assert Select([], []) == [] && CountLost([]) == 0 by { EmptySelect(); }
    case _ =>
  }

  lemma EmptySelect()
    ensures Select([], []) == [] && CountLost([]) == 0
  {
  }

  // ---- What queueing leaves alone ----

  lemma EnqueueControl(q: Queue, line: Line, stored: bool)
    ensures var (q', out) := Enqueue(q, line, stored);
            && SameControl(q, q')
            && (!q.running || q.stop ==> q' == q && out == NotInitialized)
  {
  }

  lemma ResumeControl(q: Queue, line: Line, stored: bool)
    ensures var (q', out) := Resume(q, line, stored);
            && SameControl(q, q')
            && (!q.running || q.stop ==> q' == q)
  {
  }

  /** A decision of the engine concerns the queue and the ledger, which only grows. */
  lemma DecideFrame(s: State, line: Line, q': Queue, out: Outcome, evicted: seq<Line>)
    ensures var d := Decide(s, line, q', out, evicted);
            && d.q == q' && d.worker == s.worker && d.ctl == s.ctl && d.asyncMode == s.asyncMode
            && d.epoch == s.epoch && d.flushers == s.flushers
            && |s.ledger.accepted| <= |d.ledger.accepted| && Popped(s) <= Popped(d)
  {
  }

  /** Entering and resuming change no flags of the engine and nothing of other
    * threads; before the first engine nobody starts to wait. */
  lemma QueueingControl(s: State, a: Action)
    requires Enabled(s, a) && (a.EnterQueue? || a.WakeProducer?)
    ensures var s' := Step(s, a);
            && SameControl(s.q, s'.q) && |s'.producers| == |s.producers|
            && s'.worker == s.worker && s'.ctl == s.ctl && s'.asyncMode == s.asyncMode
            && s'.epoch == s.epoch && s'.flushers == s.flushers
            && |s.ledger.accepted| <= |s'.ledger.accepted| && Popped(s) <= Popped(s')
            && (!s.q.running || s.q.stop ==> s'.q == s.q)
    ensures forall i :: 0 <= i < |s.producers| && i != a.i ==> Step(s, a).producers[i] == s.producers[i]
    ensures !s.q.running && a.EnterQueue? ==> !Step(s, a).producers[a.i].Waiting?
  {
    hide Enqueue, Resume, Decide, SameControl;
    var line := s.producers[a.i].line;
    if a.EnterQueue? {
      var (q', out) := Enqueue(s.q, line, a.stored);
      EnqueueControl(s.q, line, a.stored);
      var evicted := if Evicts(s.q) then [s.q.lines[0]] else [];
      DecideFrame(s, line, q', out, evicted);
    } else {
      var (q', out) := Resume(s.q, line, a.stored);
      ResumeControl(s.q, line, a.stored);
      DecideFrame(s, line, q', out, []);
    }
  }

  // ---- Flushers and the invariant as a whole ----

  /** Nothing a flusher relies on goes backwards from `s` to `s'`. */
  predicate Forward(s: State, s': State) {
    || s'.epoch == s.epoch + 1
    || (&& s'.epoch == s.epoch
        && |s.ledger.accepted| <= |s'.ledger.accepted|
        && Popped(s) <= Popped(s')
        && Settled(s) <= Settled(s')
        && (s.q.stop ==> s'.q.stop)
        && (s.q.flushRequest && !s'.q.flushRequest ==> Settled(s') == |s'.ledger.accepted|))
  }

  lemma FlusherForward(s: State, s': State, f: Flusher)
    requires Forward(s, s') && FlusherOk(s, f)
    ensures FlusherOk(s', f)
  {
  }

  lemma QueueingForward(s: State, a: Action)
    requires LedgerOk(s.q, s.ledger, InFlight(s.worker)) && Lifecycle(s)
    requires Enabled(s, a) && (a.EnterQueue? || a.WakeProducer?)
    ensures Forward(s, Step(s, a)) && Step(s, a).flushers == s.flushers
  {
    hide StepEnter, StepWake, LedgerOk, Lifecycle;
    QueueingControl(s, a);
  }

  lemma StepForward(s: State, a: Action)
    requires LedgerOk(s.q, s.ledger, InFlight(s.worker)) && Lifecycle(s) && Enabled(s, a)
    ensures Forward(s, Step(s, a))
    ensures !a.StartFlush? && !a.WakeFlusher? ==> Step(s, a).flushers == s.flushers
  {
    hide Select, CountLost, StepEnter, StepWake;
    match a
    case EnterQueue(_, _) => QueueingForward(s, a);
    case WakeProducer(_, _) => QueueingForward(s, a);
    case _ =>
  }

  lemma StepFlush(s: State, a: Action)
    requires LedgerOk(s.q, s.ledger, InFlight(s.worker)) && Lifecycle(s) && FlushOk(s)
    requires Enabled(s, a)
    ensures FlushOk(Step(s, a))
  {
    hide Select, CountLost, Lifecycle, Forward, StepEnter, StepWake, StepPop, StepLock,
         StepHandOver, StepLaunch;
    StepForward(s, a);
    var s' := Step(s, a);
    forall f | 0 <= f < |s'.flushers| ensures FlusherOk(s', s'.flushers[f]) {
      if s'.flushers == s.flushers || (f < |s.flushers| && s'.flushers[f] == s.flushers[f]) {
        FlusherForward(s, s', s.flushers[f]);
      } else {
        FlushersOwnStep(s, a, f);
      }
    }
  }

  /** A flusher's own steps: the flusher starts, returns at once, or leaves its loop. */
  lemma FlushersOwnStep(s: State, a: Action, f: nat)
    requires LedgerOk(s.q, s.ledger, InFlight(s.worker)) && Lifecycle(s) && FlushOk(s)
    requires Enabled(s, a) && (a.StartFlush? || a.WakeFlusher?) && a.f == f
    ensures var s' := Step(s, a); f < |s'.flushers| && FlusherOk(s', s'.flushers[f])
  {
    hide Select, CountLost;
    assert FlusherOk(s, s.flushers[f]);
  }

  lemma QueueingLifecycle(s: State, a: Action)
    requires Lifecycle(s) && Enabled(s, a) && (a.EnterQueue? || a.WakeProducer?)
    ensures Lifecycle(Step(s, a))
  {
    hide StepEnter, StepWake;
    QueueingControl(s, a);
  }

  lemma StepLifecycle(s: State, a: Action)
    requires Lifecycle(s) && Enabled(s, a)
    ensures Lifecycle(Step(s, a))
  {
    hide StepEnter, StepWake;
    match a
    case EnterQueue(_, _) => QueueingLifecycle(s, a);
    case WakeProducer(_, _) => QueueingLifecycle(s, a);
    case _ =>
  }

  /** A producer falls asleep only in front of a full queue that is not being stopped. */
  lemma FallsAsleep(s: State, a: Action, i: nat)
    requires Lifecycle(s) && NoneStranded(s) && Enabled(s, a)
    requires !IsAsleep(s.producers, i) && IsAsleep(Step(s, a).producers, i)
    ensures (a.EnterQueue? || a.WakeProducer?) && a.i == i
    ensures s.q.running && !s.q.stop && Full(s.q) && s.q.lines != [] && Step(s, a).q == s.q
  {
  }

  lemma StepNoneStranded(s: State, a: Action)
    requires Lifecycle(s) && NoneStranded(s) && Enabled(s, a)
    ensures NoneStranded(Step(s, a))
  {
    hide Lifecycle, StepPop, StepEnter, StepWake;
    var s' := Step(s, a);
    StepControl(s, a);
    if !s'.q.running || s'.q.stop {
      forall i | 0 <= i < |s'.producers| ensures !IsAsleep(s'.producers, i) {
        if IsAsleep(s'.producers, i) && !IsAsleep(s.producers, i) {
          FallsAsleep(s, a, i);
        }
      }
    }
    if !s'.q.running && !s'.q.stop {
      forall i | 0 <= i < |s'.producers| ensures !s'.producers[i].Waiting? {
        StepWaits(s, a, i);
      }
    }
  }

  /** Which steps change the flags of the engine. */
  lemma StepControl(s: State, a: Action)
    requires Lifecycle(s) && Enabled(s, a)
    ensures |Step(s, a).producers| == |s.producers|
    ensures var q, q' := s.q, Step(s, a).q;
            if a.SetStop? then q.running && Step(s, a).producers == Broadcast(s.producers)
            else if a.JoinAndDetach? then q.stop && q'.stop
            else if a.Launch? then
              (q' == q || (!q.running && q'.running && !q'.stop)) && Step(s, a).producers == s.producers
            else q'.running == q.running && q'.stop == q.stop
  {
    hide StepEnter, StepWake;
    if a.EnterQueue? || a.WakeProducer? {
      QueueingControl(s, a);
    }
  }

  lemma StepWaits(s: State, a: Action, i: nat)
    requires NoneStranded(s) && Lifecycle(s) && Enabled(s, a) && i < |s.producers|
    requires !Step(s, a).q.running && !Step(s, a).q.stop
    ensures !Step(s, a).producers[i].Waiting?
  {
    hide StepEnter, StepWake;
    if a.EnterQueue? || a.WakeProducer? {
      QueueingControl(s, a);
    }
  }

  lemma StepInv(s: State, a: Action)
    requires Inv(s) && Enabled(s, a)
    ensures Inv(Step(s, a))
  {
    hide Conserved, LedgerOk, Lifecycle, FlushOk, NoneStranded, Step;
    StepNoneStranded(s, a);
    StepConserved(s, a);
    StepLedger(s, a);
    StepLifecycle(s, a);
    StepFlush(s, a);
  }

  // ---- Whole runs ----

  lemma {:induction false} RunInv(producers: nat, flushers: nat, run: seq<Action>)
    requires Exec(Init(producers, flushers), run).Some?
    ensures Inv(Exec(Init(producers, flushers), run).value)
  {
    hide Inv, Enabled, Step;
    if run == [] {
      InitInv(producers, flushers);
    } else {
      var before := run[..|run| - 1];
      RunInv(producers, flushers, before);
      StepInv(Exec(Init(producers, flushers), before).value, run[|run| - 1]);
    }
  }

  /** Nobody is in the middle of anything. */
  predicate Quiet(s: State) {
    && (forall i :: 0 <= i < |s.producers| ==> s.producers[i].Resting?)
    && InFlight(s.worker) == [] && s.q.lines == []
  }

  lemma {:induction false} QuietHoldsNothing(x: Line, ps: seq<Producer>)
    requires forall i :: 0 <= i < |ps| ==> ps[i].Resting?
    ensures Held(x, ps) == 0
  {
    if ps != [] {
      QuietHoldsNothing(x, ps[..|ps| - 1]);
    }
  }

  /** All policies, any failures: every dispatched line is emitted once or was
    * dropped once, and every drop was counted by some epoch's counter. */
  lemma EveryLineIsAccountedFor(s: State)
    requires Inv(s) && Quiet(s)
    ensures multiset(s.dispatched) == multiset(s.emitted) + multiset(s.lost)
    ensures |s.lost| == s.lostBefore + s.q.dropped
  {
    hide Copies, Held, LedgerOk, Lifecycle, FlushOk;
    forall x: Line
      ensures multiset(s.dispatched)[x] == (multiset(s.emitted) + multiset(s.lost))[x]
    {
      assert Copies(x, s.dispatched) == Accounted(x, s);
      QuietHoldsNothing(x, s.producers);
      CopiesNone(x);
      CopiesIsMultiset(x, s.dispatched);
      CopiesIsMultiset(x, s.emitted);
      CopiesIsMultiset(x, s.lost);
    }
  }

  // ---- BLOCK never loses a line ----

  /** The policy is BLOCK in every configuration and no allocation fails. */
  predicate Lossless(a: Action) {
    match a
    case EnterQueue(_, stored) => stored
    case WakeProducer(_, stored) => stored
    case WorkerPop(copied, _) => copied
    case SwitchToSync(cfg) => cfg.Some? ==> cfg.value.overflow.Block?
    case _ => true
  }

  function PendingConfig(c: Controller): Option<Config> {
    match c
    case Switched(cfg) => cfg
    case Stopping(cfg) => cfg
    case Swapping(cfg) => cfg
    case _ => None
  }

  predicate NothingLost(s: State) {
    && s.lost == [] && s.q.dropped == 0 && s.lostBefore == 0
    && s.q.overflow.Block?
    && (PendingConfig(s.ctl).Some? ==> PendingConfig(s.ctl).value.overflow.Block?)
  }

  lemma {:induction false} BlockLosesNothing(producers: nat, flushers: nat, run: seq<Action>)
    requires Exec(Init(producers, flushers), run).Some?
    requires forall k :: 0 <= k < |run| ==> Lossless(run[k])
    ensures var s := Exec(Init(producers, flushers), run).value;
            NothingLost(s) && s.lost == [] && s.q.dropped == 0 && s.lostBefore == 0
  {
    if run != [] {
      var before := run[..|run| - 1];
      BlockLosesNothing(producers, flushers, before);
      BlockStep(Exec(Init(producers, flushers), before).value, run[|run| - 1]);
    }
  }

  lemma BlockStep(s: State, a: Action)
    requires NothingLost(s) && Enabled(s, a) && Lossless(a)
    ensures NothingLost(Step(s, a))
  {
    hide StepEnter, StepWake;
    match a
    case EnterQueue(i, _) => BlockEnters(s, i);
    case WakeProducer(i, _) => BlockWakes(s, i);
    case _ =>
  }

  lemma BlockEnters(s: State, i: nat)
    requires NothingLost(s) && Enabled(s, EnterQueue(i, true))
    ensures NothingLost(StepEnter(s, i, true))
  {
  }

  lemma BlockWakes(s: State, i: nat)
    requires NothingLost(s) && Enabled(s, WakeProducer(i, true))
    ensures NothingLost(StepWake(s, i, true))
  {
  }

  /** With BLOCK and enough memory, in every interleaving and across any number of
    * reconfigurations: what was dispatched is exactly what was emitted plus what is
    * still on its way; once everyone rests, each line was emitted exactly once. */
  lemma BlockIsExactlyOnce(producers: nat, flushers: nat, run: seq<Action>, x: Line)
    requires Exec(Init(producers, flushers), run).Some?
    requires forall k :: 0 <= k < |run| ==> Lossless(run[k])
    ensures var s := Exec(Init(producers, flushers), run).value;
            && Copies(x, s.dispatched) == Copies(x, s.emitted) + Held(x, s.producers)
                                          + Copies(x, InFlight(s.worker)) + Copies(x, s.q.lines)
            && (Quiet(s) ==> multiset(s.dispatched) == multiset(s.emitted))
  {
    hide Copies, Held, Enabled, Step, Lossless, LedgerOk, Lifecycle, FlushOk, Exec, Quiet;
    var s := Exec(Init(producers, flushers), run).value;
    RunInv(producers, flushers, run);
    BlockLosesNothing(producers, flushers, run);
    CopiesNone(x);
    if Quiet(s) {
      EveryLineIsAccountedFor(s);
    }
  }

  // ---- One engine epoch ----

  /** `a` can be obtained from `b` by leaving elements out. */
  predicate Subsequence(a: seq<Line>, b: seq<Line>) {
    a == [] || (b != [] && (Subsequence(a, b[..|b| - 1])
                            || (a[|a| - 1] == b[|b| - 1]
                                && Subsequence(a[..|a| - 1], b[..|b| - 1]))))
  }

  lemma SubsequenceSnoc(a: seq<Line>, b: seq<Line>, line: Line)
    requires Subsequence(a, b)
    ensures Subsequence(a, b + [line])
    ensures Subsequence(a + [line], b + [line])
  {
    assert (b + [line])[..|b|] == b;
    assert (a + [line])[..|a|] == a;
  }

  lemma {:induction false} SelectIsSubsequence(lines: seq<Line>, fates: seq<Fate>)
    requires |lines| == |fates|
    ensures Subsequence(Select(lines, fates), lines)
    ensures |lines| == |Select(lines, fates)| + CountLost(fates)
    ensures CountLost(fates) == 0 ==> Select(lines, fates) == lines
  {
    if lines != [] {
      hide Subsequence;
      var n := |lines| - 1;
      SelectIsSubsequence(lines[..n], fates[..n]);
      assert lines == lines[..n] + [lines[n]];
      SubsequenceSnoc(Select(lines[..n], fates[..n]), lines[..n], lines[n]);
      if fates[n].Lost? {
        assert Select(lines, fates) == Select(lines[..n], fates[..n]);
      }
    } else {
      assert Subsequence([], lines);
    }
  }

  /** `a` is found in `b` at rising positions. */
  ghost predicate Embeds(at: seq<nat>, a: seq<Line>, b: seq<Line>) {
    && |at| == |a|
    && (forall i :: 0 <= i < |at| ==> at[i] < |b| && b[at[i]] == a[i])
    && (forall i, j :: 0 <= i < j < |at| ==> at[i] < at[j])
  }

  /** What a subsequence is, by positions. */
  lemma {:induction false} SubsequenceIsEmbedding(a: seq<Line>, b: seq<Line>)
    ensures Subsequence(a, b) <==> exists at :: Embeds(at, a, b)
  {
    if Subsequence(a, b) {
      var at := Positions(a, b);
      assert Embeds(at, a, b);
    }
    if at :| Embeds(at, a, b) {
      EmbeddedIsSubsequence(at, a, b);
    }
  }

  lemma {:induction false} Positions(a: seq<Line>, b: seq<Line>) returns (at: seq<nat>)
    requires Subsequence(a, b)
    ensures Embeds(at, a, b)
  {
    if a == [] {
      at := [];
    } else if Subsequence(a, b[..|b| - 1]) {
      at := Positions(a, b[..|b| - 1]);
    } else {
      at := Positions(a[..|a| - 1], b[..|b| - 1]);
      at := at + [|b| - 1];
    }
  }

  lemma {:induction false} EmbeddedIsSubsequence(at: seq<nat>, a: seq<Line>, b: seq<Line>)
    requires Embeds(at, a, b)
    ensures Subsequence(a, b)
    decreases |b|
  {
    if a != [] {
      var n := |b| - 1;
      assert at[|at| - 1] <= n;
      if at[|at| - 1] == n {
        EmbeddedIsSubsequence(at[..|at| - 1], a[..|a| - 1], b[..n]);
      } else {
        assert forall i :: 0 <= i < |at| ==> at[i] < n;
        EmbeddedIsSubsequence(at, a, b[..n]);
      }
    }
  }

  /** The counters add up, the queue is the newest part of the accepted lines, and
    * the worker delivers in order. */
  lemma EpochAccounting(s: State)
    requires Inv(s)
    ensures var l := s.ledger; var out := l.delivered + InFlight(s.worker);
            && |l.attempted| == |l.delivered| + |InFlight(s.worker)| + s.q.dropped + |s.q.lines|
            && Subsequence(l.accepted, l.attempted)
            && |s.q.lines| <= |l.accepted|
            && s.q.lines == l.accepted[|l.accepted| - |s.q.lines|..]
            && Subsequence(out, l.accepted[..|l.accepted| - |s.q.lines|])
            && (s.q.dropped == 0 ==> out + s.q.lines == l.accepted == l.attempted)
            && |s.q.lines| <= s.q.highWatermark <= s.q.capacity
  {
    hide Conserved, Lifecycle, FlushOk;
    LedgerAccounting(s.q, s.ledger, InFlight(s.worker));
  }

  lemma SplitAt(a: seq<Line>, n: nat)
    requires n <= |a|
    ensures a[..n] + a[n..] == a
  {
  }

  lemma LedgerAccounting(q: Queue, l: Ledger, inFlight: seq<Line>)
    requires LedgerOk(q, l, inFlight)
    ensures |l.attempted| == |l.delivered| + |inFlight| + q.dropped + |q.lines|
    ensures Subsequence(l.accepted, l.attempted)
    ensures |q.lines| == |l.accepted| - |l.fates|
    ensures q.lines == l.accepted[|l.fates|..]
    ensures Subsequence(l.delivered + inFlight, l.accepted[..|l.fates|])
    ensures q.dropped == 0 ==> l.delivered + inFlight + q.lines == l.accepted == l.attempted
  {
    hide Select, CountLost, Subsequence;
    SelectIsSubsequence(l.attempted, l.verdicts);
    SelectIsSubsequence(l.accepted[..|l.fates|], l.fates);
    assert |l.delivered| + |inFlight| == |l.delivered + inFlight|;
    SplitAt(l.accepted, |l.fates|);
  }

  // ---- Whom the policies hit ----

  /** No allocation fails in this action. */
  predicate HasMemory(a: Action) {
    match a
    case EnterQueue(_, stored) => stored
    case WakeProducer(_, stored) => stored
    case WorkerPop(copied, _) => copied
    case _ => true
  }

  /** DROP_NEW never takes an accepted line back, DROP_OLD never refuses one. */
  predicate PolicyKept(s: State) {
    && (!s.q.overflow.DropOld? ==> CountLost(s.ledger.fates) == 0)
    && (!s.q.overflow.DropNew? ==> CountLost(s.ledger.verdicts) == 0)
  }

  lemma PolicyStep(s: State, a: Action)
    requires PolicyKept(s) && Enabled(s, a) && HasMemory(a)
    ensures PolicyKept(Step(s, a))
  {
    hide CountLost, Held, Copies, Select, StepEnter, StepWake;
    match a
    case EnterQueue(i, _) => PolicyEnters(s, i);
    case WakeProducer(i, _) => PolicyWakes(s, i);
    case WorkerPop(_, _) => CountLostSnoc(s.ledger.fates, Passed);
    case Launch(_) => EmptySelect();
    case _ =>
  }

  lemma PolicyEnters(s: State, i: nat)
    requires PolicyKept(s) && Enabled(s, EnterQueue(i, true))
    ensures PolicyKept(StepEnter(s, i, true))
  {
    hide CountLost;
    CountLostSnoc(s.ledger.fates, Lost);
    CountLostSnoc(s.ledger.verdicts, Passed);
    CountLostSnoc(s.ledger.verdicts, Lost);
  }

  lemma PolicyWakes(s: State, i: nat)
    requires PolicyKept(s) && Enabled(s, WakeProducer(i, true))
    ensures PolicyKept(StepWake(s, i, true))
  {
    hide CountLost;
    CountLostSnoc(s.ledger.verdicts, Passed);
    CountLostSnoc(s.ledger.verdicts, Lost);
  }

  lemma {:induction false} RunKeepsPolicy(producers: nat, flushers: nat, run: seq<Action>)
    requires Exec(Init(producers, flushers), run).Some?
    requires forall k :: 0 <= k < |run| ==> HasMemory(run[k])
    ensures PolicyKept(Exec(Init(producers, flushers), run).value)
  {
    if run != [] {
      hide PolicyKept, Step, Enabled, HasMemory;
      var before := run[..|run| - 1];
      RunKeepsPolicy(producers, flushers, before);
      PolicyStep(Exec(Init(producers, flushers), before).value, run[|run| - 1]);
    }
  }

  /** Without allocation failures the policy alone decides which lines of an epoch are
    * dropped: BLOCK drops none, DROP_NEW only lines it refuses, so that every accepted
    * line is delivered in order, and DROP_OLD only the oldest accepted ones, so that
    * every attempted line is accepted. */
  lemma PolicyDecidesDrops(producers: nat, flushers: nat, run: seq<Action>)
    requires Exec(Init(producers, flushers), run).Some?
    requires forall k :: 0 <= k < |run| ==> HasMemory(run[k])
    ensures var s := Exec(Init(producers, flushers), run).value; var l := s.ledger;
            var out := l.delivered + InFlight(s.worker);
            && (!s.q.overflow.DropOld? ==> out + s.q.lines == l.accepted)
            && (!s.q.overflow.DropNew? ==> l.accepted == l.attempted)
            && (s.q.overflow.Block? ==> s.q.dropped == 0)
  {
    hide Exec, Conserved, Lifecycle, FlushOk, Select, CountLost, Subsequence;
    var s := Exec(Init(producers, flushers), run).value;
    var l := s.ledger;
    RunInv(producers, flushers, run);
    RunKeepsPolicy(producers, flushers, run);
    SelectIsSubsequence(l.attempted, l.verdicts);
    SelectIsSubsequence(l.accepted[..|l.fates|], l.fates);
    SplitAt(l.accepted, |l.fates|);
  }

  // ---- Drain ----

  /** Progress of the worker towards its exit, the queue counted first. */
  function Remaining(s: State): nat {
    5 * |s.q.lines| + WorkerRank(s.worker)
  }

  function WorkerRank(w: Worker): nat {
    match w
    case Absent => 0
    case Exited => 0
    case Leaving => 1
    case Batch(written) => if written == 0 then 1 else 3
    case Top => 2
    case Emitting(_, _) => 4
  }

  predicate OfWorker(a: Action) {
    a.WorkerLock? || a.WorkerPop? || a.WorkerHandOver? || a.WorkerBatchEnd? || a.WorkerExit?
  }

  /** Once stop is set nobody can refill the queue, every step of the worker brings
    * it closer to its exit and no step of another thread takes it back. */
  lemma StopDrains(s: State, a: Action)
    requires Inv(s) && Enabled(s, a) && s.q.stop && !a.Launch?
    ensures var s' := Step(s, a);
            && s'.q.stop
            && |s'.q.lines| <= |s.q.lines|
            && (if OfWorker(a) then Remaining(s') < Remaining(s) else Remaining(s') <= Remaining(s))
  {
    hide Conserved, LedgerOk, FlushOk, Held, Copies, Select, CountLost;
  }

  /** The worker can always move until it has exited, and it exits only with an
    * empty queue; so `hx_async_stop` finds nothing to discard when it resets the
    * counters after the join. */
  lemma StopDiscardsNothing(s: State)
    requires Inv(s) && s.ctl.Stopping?
    ensures s.worker.Exited? ==> s.q.lines == [] && Detach(s.q) == s.q.(running := false)
                                 && Settled(s) == |s.ledger.accepted|
    ensures !s.worker.Exited? ==> exists a :: OfWorker(a) && Enabled(s, a)
  {
    hide Conserved, FlushOk, Held, Copies, Select, CountLost;
    match s.worker
    case Exited => assert s.ledger.accepted[Popped(s)..] == [];
    case Top => assert Enabled(s, WorkerLock) && OfWorker(WorkerLock);
    case Emitting(_, _) => assert Enabled(s, WorkerHandOver) && OfWorker(WorkerHandOver);
    case Leaving => assert Enabled(s, WorkerExit) && OfWorker(WorkerExit);
    case Batch(_) =>
      var sleeper := SomeSleeper(s.producers);
      assert (Enabled(s, WorkerPop(true, sleeper)) && OfWorker(WorkerPop(true, sleeper)))
             || (Enabled(s, WorkerBatchEnd) && OfWorker(WorkerBatchEnd));
  }

  /** Whom a signal can reach. */
  lemma SomeSleeper(ps: seq<Producer>) returns (i: nat)
    ensures NobodyAsleep(ps) || IsAsleep(ps, i)
  {
    i := 0;
    if !NobodyAsleep(ps) {
      i :| 0 <= i < |ps| && IsAsleep(ps, i);
    }
  }

  // ---- Flush ----

  /** Settled are the accepted lines that are neither queued nor in flight. */
  lemma SettledExactly(s: State)
    requires Inv(s)
    ensures Settled(s) == |s.ledger.accepted| - |s.q.lines| - |InFlight(s.worker)|
    ensures InFlight(s.worker) == if s.worker.Emitting? then [s.worker.line] else []
  {
    hide Conserved, Lifecycle, FlushOk, NoneStranded, Select, CountLost;
  }

  /** A flush that leaves its wait while its engine is still running without stop:
    * of the lines accepted before the call at most the one in flight is neither
    * delivered nor dropped, and none if the worker had cleared the request. */
  lemma FlushReturnsDrained(s: State, f: nat)
    requires Inv(s) && Enabled(s, WakeFlusher(f)) && FlushDone(s.q)
    requires s.flushers[f].epoch == s.epoch && !s.q.stop
    ensures var mark := s.flushers[f].mark;
            && Step(s, WakeFlusher(f)).flushers[f]
               == FlushReturned(s.epoch, mark, s.q.lines != [] && !s.q.flushRequest)
            && mark - Settled(s) <= 1
            && (mark - Settled(s) == 1 ==> |InFlight(s.worker)| == 1)
            && (!s.q.flushRequest ==> mark <= Settled(s))
            && |s.q.lines| <= |s.ledger.accepted| - mark
  {
    hide Conserved, Held, Copies, Select, CountLost;
    assert FlusherOk(s, s.flushers[f]);
  }
}
