/** The critical sections of the asynchronous engine, src/hx_clog_async.c, as
  * functions on the queue's abstract value.
  *
  * Everything a thread does between taking `g_async_lock` and giving it back (by
  * unlocking or by waiting on a condition variable) is one function here. The
  * ring buffer that implements the functions is in AsyncRing.dfy; the threads
  * that interleave them are in AsyncProtocol.dfy.
  */
module AsyncQueue {
  import opened Common

  datatype Policy = Block | DropNew | DropOld

  /** One formatted line on its way to the sinks. `target` 0 stands for every
    * sink without a format override. */
  datatype Line = Line(level: int, data: string, target: nat, countStats: bool)

  datatype Config = Config(queueSize: nat, batchSize: nat, flushIntervalMs: nat, overflow: Policy)

  /** `g_async` without its buffers: `lines` is the ring, oldest line first. */
  datatype Queue = Queue(
    lines: seq<Line>,
    capacity: nat,
    batchSize: nat,
    overflow: Policy,
    running: bool,
    stop: bool,
    flushRequest: bool,
    dropped: nat,
    highWatermark: nat)

  /** The return codes of `hx_async_enqueue`. `MustWait` is not a return code: the
    * caller has gone to sleep on `g_async_not_full`. */
  datatype Outcome = Stored | NotInitialized | QueueFull | OutOfMemory | MustWait

  function Started(cfg: Config): Queue {
    Queue([],
          if cfg.queueSize != 0 then cfg.queueSize else 8192,
          if cfg.batchSize != 0 then cfg.batchSize else 64,
          cfg.overflow, true, false, false, 0, 0)
  }

  // ---- Producers ----

  predicate Full(q: Queue) {
    |q.lines| >= q.capacity
  }

  /** Store a line at the tail, or count it as dropped when its buffer cannot grow. */
  function Push(q: Queue, line: Line, stored: bool): (Queue, Outcome) {
    if !stored then (q.(dropped := q.dropped + 1), OutOfMemory)
    else
      var n := |q.lines| + 1;
      (q.(lines := q.lines + [line],
          highWatermark := if n > q.highWatermark then n else q.highWatermark), Stored)
  }

  /** Discard the oldest line. A running engine has a positive capacity, so a full
    * queue is never empty. */
  function Evict(q: Queue): Queue {
    if q.lines == [] then q else q.(lines := q.lines[1..], dropped := q.dropped + 1)
  }

  /** A producer changes nothing but the contents and the counters. */
  predicate SameControl(q: Queue, q': Queue) {
    && q'.capacity == q.capacity && q'.batchSize == q.batchSize && q'.overflow == q.overflow
    && q'.running == q.running && q'.stop == q.stop && q'.flushRequest == q.flushRequest
  }

  /** `hx_async_enqueue` from its first lock to its unlock or its first wait. */
  function Enqueue(q: Queue, line: Line, stored: bool): (Queue, Outcome) {
    if !q.running || q.stop then (q, NotInitialized)
    else if !Full(q) then Push(q, line, stored)
    else match q.overflow
      case DropNew => (q.(dropped := q.dropped + 1), QueueFull)
      case DropOld => Push(Evict(q), line, stored)
      case Block => (q, MustWait)
  }

  /** A producer that slept on `g_async_not_full` holds the lock again. */
  function Resume(q: Queue, line: Line, stored: bool): (Queue, Outcome) {
    if Full(q) && !q.stop then (q, MustWait)
    else if q.stop || !q.running then (q, NotInitialized)
    else Push(q, line, stored)
  }

  // ---- Worker ----

  /** Take the oldest line; it is dropped when the scratch buffer cannot grow. */
  function Pop(q: Queue, copied: bool): (Queue, Option<Line>)
    requires q.lines != []
  {
    if copied then (q.(lines := q.lines[1..]), Some(q.lines[0]))
    else (Evict(q), None)
  }

  /** The worker found nothing to do and clears any flush request. */
  function Idle(q: Queue): Queue {
    q.(flushRequest := false)
  }

  /** The end of a batch answers a flush request once the queue is empty. */
  function BatchEnd(q: Queue): Queue {
    if q.flushRequest && q.lines == [] then q.(flushRequest := false) else q
  }

  // ---- Flush and stop ----

  /** Returns true when the caller starts to wait. */
  function FlushBegin(q: Queue): (Queue, bool) {
    if !q.running || q.lines == [] then (q, false)
    else (q.(flushRequest := true), !q.stop)
  }

  /** True when the woken flusher leaves its loop. */
  predicate FlushDone(q: Queue) {
    q.lines == [] || !q.flushRequest || !q.running || q.stop
  }

  function StopBegin(q: Queue): Queue {
    if q.running then q.(stop := true) else q
  }

  function Detach(q: Queue): Queue {
    q.(lines := [], running := false)
  }
}
