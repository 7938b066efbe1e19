/** The ring buffer behind the asynchronous engine: `async_engine_t` and the code
  * that runs under `g_async_lock` in src/hx_clog_async.c.
  *
  * Each method is one critical section and is proved against the function of the
  * same name in AsyncQueue.dfy.
  */
module AsyncRing {
  import opened AsyncQueue
  import opened Common

  const U32 := 0x1_0000_0000
  const KEEP_CAP := 64 * 1024
  const FIRST_CAP := 256

  /** `async_slot_t`: `cap` is the size of the allocated buffer, 0 while there is
    * none; the buffer's contents are the bytes of the line stored last. */
  datatype Slot = Slot(line: Line, cap: nat)

  const NO_LINE := Line(0, [], 0, false)

  // ---- Buffer sizes ----

  /** 256 times a power of two. */
  predicate IsSlotSize(c: nat) {
    c == FIRST_CAP || (c > FIRST_CAP && c % 2 == 0 && IsSlotSize(c / 2))
  }

  /** `newcap *= 2` on a 32-bit unsigned. */
  function Double(c: nat): (d: nat)
    ensures c < 0x8000_0000 ==> d == 2 * c
    ensures c == 0x8000_0000 ==> d == 0
  {
    (c * 2) % U32
  }

  function Doubled(c: nat, times: nat): nat {
    if times == 0 then c else Double(Doubled(c, times - 1))
  }

  /** Slot sizes are spread out: between two bounds that are slot sizes themselves
    * there is nothing but slot sizes reached by doubling. */
  lemma {:induction false} SlotSizeBelow(c: nat, bound: nat)
    requires IsSlotSize(c) && IsSlotSize(bound) && c < 2 * bound
    ensures c <= bound
  {
    if bound == FIRST_CAP {
      if c > FIRST_CAP {
        SlotSizeAtLeast(c / 2);
      }
    } else if c > FIRST_CAP {
      SlotSizeBelow(c / 2, bound / 2);
    }
  }

  lemma SlotSizeAtLeast(c: nat)
    requires IsSlotSize(c)
    ensures c >= FIRST_CAP
  {
  }

  lemma BigSlotSizes()
    ensures IsSlotSize(KEEP_CAP) && IsSlotSize(0x8000_0000) && IsSlotSize(0x4000_0000)
  {
    assert IsSlotSize(512) && IsSlotSize(1024) && IsSlotSize(2048) && IsSlotSize(4096);
    assert IsSlotSize(8192) && IsSlotSize(16384) && IsSlotSize(32768) && IsSlotSize(KEEP_CAP);
    assert IsSlotSize(0x2_0000) && IsSlotSize(0x4_0000) && IsSlotSize(0x8_0000);
    assert IsSlotSize(0x10_0000) && IsSlotSize(0x20_0000) && IsSlotSize(0x40_0000);
    assert IsSlotSize(0x80_0000) && IsSlotSize(0x100_0000) && IsSlotSize(0x200_0000);
    assert IsSlotSize(0x400_0000) && IsSlotSize(0x800_0000) && IsSlotSize(0x1000_0000);
    assert IsSlotSize(0x2000_0000) && IsSlotSize(0x4000_0000);
  }

  lemma DoubleSlotSize(c: nat)
    requires IsSlotSize(c) && c <= 0x8000_0000
    ensures FIRST_CAP <= c
    ensures if c == 0x8000_0000 then Double(c) == 0
            else Double(c) == 2 * c && IsSlotSize(2 * c) && 2 * c <= 0x8000_0000
  {
    hide Double;
    BigSlotSizes();
    if c < 0x8000_0000 {
      SlotSizeBelow(c, 0x4000_0000);
    }
  }

  /** Repeated doubling stays at slot sizes up to 2^31 and then sticks at 0. */
  lemma {:induction false} DoubledStaysBelow(c: nat, times: nat)
    requires IsSlotSize(c) && c <= 0x8000_0000
    ensures Doubled(c, times) == 0
            || (IsSlotSize(Doubled(c, times)) && Doubled(c, times) <= 0x8000_0000)
  {
    if times > 0 {
      DoubledStaysBelow(c, times - 1);
      var d := Doubled(c, times - 1);
      if d == 0 {
        assert Double(0) == 0;
      } else {
        hide IsSlotSize;
        DoubleSlotSize(d);
      }
    }
  }

  lemma {:induction false} DoubledReaches(c: nat, need: nat) returns (times: nat)
    requires IsSlotSize(c) && c <= 0x8000_0000 && need <= 0x8000_0000
    ensures Doubled(c, times) >= need
    decreases 0x8000_0000 - c
  {
    if c >= need {
      times := 0;
    } else {
      DoubleSlotSize(c);
      var t := DoubledReaches(2 * c, need);
      DoubledShift(c, t);
      times := t + 1;
    }
  }

  lemma {:induction false} DoubledShift(c: nat, times: nat)
    requires 2 * c < U32
    ensures Doubled(c, times + 1) == Doubled(2 * c, times)
  {
    if times > 0 {
      DoubledShift(c, times - 1);
    }
  }

  /** `size + 1` as the guards compute it, on 32-bit unsigneds. */
  function Need(size: nat): nat {
    (size + 1) % U32
  }

  /** `while (newcap < size + 1) newcap *= 2;` ends after `times` rounds. */
  ghost predicate LoopEnds(c: nat, size: nat, times: nat) {
    Doubled(c, times) >= Need(size) && forall t: nat :: t < times ==> Doubled(c, t) < Need(size)
  }

  lemma {:induction false} FirstRound(c: nat, size: nat, times: nat) returns (first: nat)
    requires Doubled(c, times) >= Need(size)
    ensures first <= times && LoopEnds(c, size, first)
  {
    if t: nat :| t < times && Doubled(c, t) >= Need(size) {
      first := FirstRound(c, size, t);
    } else {
      first := times;
    }
  }

  /** The growing loop ends if and only if the line with its terminator needs at most
    * 2^31 bytes, or the size is 2^32 - 1, where `size + 1` is 0 and the loop is not
    * entered. The buffer it ends with holds the line if and only if at most 2^31 bytes
    * are needed; in between the 32-bit capacity wraps to 0 and never gets there. */
  lemma DoublingEndsIff(c: nat, size: nat)
    requires IsSlotSize(c) && c <= 0x8000_0000 && size < U32
    ensures (exists times: nat :: LoopEnds(c, size, times)) <==> size + 1 <= 0x8000_0000 || size + 1 == U32
    ensures (exists times: nat :: LoopEnds(c, size, times) && Doubled(c, times) >= size + 1)
            <==> size + 1 <= 0x8000_0000
  {
    hide Doubled;
    if size + 1 <= 0x8000_0000 {
      var times := DoubledReaches(c, size + 1);
      var first := FirstRound(c, size, times);
      assert LoopEnds(c, size, first) && Doubled(c, first) >= size + 1;
    } else {
      forall times: nat ensures Doubled(c, times) <= 0x8000_0000 {
        DoubledStaysBelow(c, times);
      }
      if size + 1 == U32 {
        var first := FirstRound(c, size, 0);
        assert LoopEnds(c, size, first);
      }
    }
  }

  /** `while (newcap < size + 1) newcap *= 2;` */
  method Grow(start: nat, need: nat) returns (cap: nat)
    requires start == 0 || (IsSlotSize(start) && start <= 0x8000_0000)
    requires need <= 0x8000_0000
    ensures cap >= need && IsSlotSize(cap) && cap <= 0x8000_0000
    ensures cap == start || cap == FIRST_CAP || cap / 2 < need
  {
    cap := if start != 0 then start else FIRST_CAP;
    while cap < need
      invariant IsSlotSize(cap) && cap <= 0x8000_0000
      invariant cap == start || cap == FIRST_CAP || cap / 2 < need
      decreases 0x8000_0000 - cap
    {
      DoubleSlotSize(cap);
      cap := Double(cap);
    }
  }

  // ---- Ring positions ----

  /** `(i + 1) % n`. */
  function Next(i: nat, n: nat): (r: nat)
    requires i < n
    ensures r == if i + 1 == n then 0 else i + 1
  {
    (i + 1) % n
  }

  /** Position `offset` slots behind `head` on a ring of `n`. */
  function Wrap(head: nat, offset: nat, n: nat): (r: nat)
    requires head < n && offset <= n
    ensures r < n
  {
    if head + offset < n then head + offset else head + offset - n
  }

  lemma TimesIsMonotone(a: int, b: int, n: nat)
    ensures a >= b ==> a * n >= b * n
  {
  }

  /** The position of the tail in the program's own terms. */
  lemma WrapIsMod(head: nat, offset: nat, n: nat)
    requires head < n && offset <= n
    ensures Wrap(head, offset, n) == (head + offset) % n
  {
    var x := head + offset;
    var q, r := x / n, x % n;
    assert x == q * n + r;
    TimesIsMonotone(q, 2, n);
    TimesIsMonotone(0, q, n);
    assert q == 0 || q == 1;
  }

  lemma WrapNext(head: nat, offset: nat, n: nat)
    requires head < n && offset < n
    ensures Next(Wrap(head, offset, n), n) == Wrap(head, offset + 1, n)
  {
    hide Next;
  }

  lemma NextWrap(head: nat, offset: nat, n: nat)
    requires head < n && 0 < offset <= n
    ensures Wrap(Next(head, n), offset - 1, n) == Wrap(head, offset, n)
  {
    hide Next;
  }

  /** The `count` lines from position `head` on, oldest first. */
  function RingLines(slots: seq<Slot>, head: nat, count: nat): (lines: seq<Line>)
    requires head < |slots| && count <= |slots|
    ensures |lines| == count
    decreases count
  {
    if count == 0 then []
    else [slots[head].line] + RingLines(slots, Next(head, |slots|), count - 1)
  }

  lemma RingEmpty(slots: seq<Slot>, head: nat)
    requires head < |slots|
    ensures RingLines(slots, head, 0) == []
  {
  }

  lemma WrapZero(n: nat)
    requires n > 0
    ensures Wrap(0, 0, n) == 0
  {
  }

  lemma RingPop(slots: seq<Slot>, head: nat, count: nat)
    requires head < |slots| && 0 < count <= |slots|
    ensures var lines := RingLines(slots, head, count);
            lines[0] == slots[head].line
            && lines[1..] == RingLines(slots, Next(head, |slots|), count - 1)
  {
  }

  /** Writing the first free slot leaves the lines as they are. */
  lemma {:induction false} RingFrame(slots: seq<Slot>, head: nat, count: nat, free: nat, slot: Slot)
    requires head < |slots| && count <= free < |slots|
    ensures RingLines(slots[Wrap(head, free, |slots|) := slot], head, count)
            == RingLines(slots, head, count)
    decreases count
  {
    hide Next;
    if count > 0 {
      NextWrap(head, free, |slots|);
      RingFrame(slots, Next(head, |slots|), count - 1, free - 1, slot);
    }
  }

  /** Writing the slot behind the newest line appends to the lines. */
  lemma {:induction false} RingPush(slots: seq<Slot>, head: nat, count: nat, slot: Slot)
    requires head < |slots| && count < |slots|
    ensures RingLines(slots[Wrap(head, count, |slots|) := slot], head, count + 1)
            == RingLines(slots, head, count) + [slot.line]
    decreases count
  {
    hide Next;
    if count > 0 {
      NextWrap(head, count, |slots|);
      RingPush(slots, Next(head, |slots|), count - 1, slot);
    }
  }

  predicate SlotOk(s: Slot) {
    && |s.line.data| + 1 <= 0x8000_0000
    && (s.cap == 0 || (IsSlotSize(s.cap) && s.cap <= 0x8000_0000 && |s.line.data| + 1 <= s.cap))
  }

  /** Prepare a slot for a line of `size` bytes: give a ballooned buffer back, then
    * grow what is left. The slot keeps its old line. */
  method FitSlot(slot: Slot, size: nat, haveMemory: bool) returns (fitted: Slot, ok: bool)
    requires SlotOk(slot) && size + 1 <= 0x8000_0000
    ensures fitted.line == slot.line && (haveMemory ==> ok)
    ensures !ok ==> SlotOk(fitted)
    ensures ok ==> fitted.cap >= size + 1 && IsSlotSize(fitted.cap) && fitted.cap <= 0x8000_0000
    ensures ok && size + 1 <= KEEP_CAP ==> fitted.cap <= KEEP_CAP
    ensures size + 1 <= slot.cap <= KEEP_CAP ==> ok && fitted == slot
  {
    fitted, ok := slot, true;
    if fitted.cap > KEEP_CAP && size + 1 <= KEEP_CAP {
      fitted := fitted.(cap := 0);
    }
    if fitted.cap < size + 1 {
      var cap := Grow(fitted.cap, size + 1);
      if size + 1 <= KEEP_CAP {
        FitsKeep(fitted.cap, cap, size + 1);
      }
      if !haveMemory {
        return fitted, false;
      }
      fitted := fitted.(cap := cap);
    }
  }

  // ---- The engine ----

  class AsyncEngine {
    var slots: array?<Slot>
    var capacity: nat
    var head: nat
    var tail: nat
    var count: nat
    var batchSize: nat
    var flushIntervalMs: nat
    var overflow: Policy
    var running: bool
    var stop: bool
    var flushRequest: bool
    var scratchCap: nat
    var dropped: nat
    var highWatermark: nat

    ghost predicate Valid()
      reads this, slots
    {
      && (running ==> slots != null)
      && (scratchCap == 0 || (IsSlotSize(scratchCap) && scratchCap <= 0x8000_0000))
      && count <= highWatermark <= capacity
      && (slots == null ==> head == 0 && tail == 0 && count == 0)
      && (slots != null ==>
            && 0 < capacity == slots.Length < U32
            && head < capacity
            && tail == Wrap(head, count, capacity)
            && (forall i :: 0 <= i < capacity ==> SlotOk(slots[i])))
    }

    ghost function Value(): Queue
      reads this, slots
      requires Valid()
    {
      Queue(if slots == null then [] else RingLines(slots[..], head, count),
            capacity, batchSize, overflow, running, stop, flushRequest, dropped, highWatermark)
    }

    /** The static `g_async`, all zero. */
    constructor ()
      ensures Valid() && slots == null
      ensures Value() == Queue([], 0, 0, Block, false, false, false, 0, 0)
    {
      slots := null;
      capacity, head, tail, count := 0, 0, 0, 0;
      batchSize, flushIntervalMs, overflow := 0, 0, Block;
      running, stop, flushRequest := false, false, false;
      scratchCap, dropped, highWatermark := 0, 0, 0;
    }

    /** `memset(&g_async, 0, sizeof(g_async))`. */
    method Clear()
      modifies this
      ensures slots == null && capacity == head == tail == count == 0
      ensures scratchCap == dropped == highWatermark == 0
      ensures !running && !stop && !flushRequest
    {
      slots := null;
      capacity, head, tail, count := 0, 0, 0, 0;
      scratchCap, dropped, highWatermark := 0, 0, 0;
      running, stop, flushRequest := false, false, false;
    }

    /** The part of `hx_async_start` before the worker thread is created. */
    method Start(cfg: Config, haveMemory: bool) returns (ok: bool)
      requires Valid() && cfg.queueSize < U32
      modifies this
      ensures Valid() && ok == haveMemory
      ensures Value() == if ok then Started(cfg) else old(Value())
      ensures ok ==>
                && fresh(slots) && running && !stop && !flushRequest && overflow == cfg.overflow
                && capacity == (if cfg.queueSize == 0 then 8192 else cfg.queueSize)
                && batchSize == (if cfg.batchSize == 0 then 64 else cfg.batchSize)
                && flushIntervalMs == (if cfg.flushIntervalMs == 0 then 1000 else cfg.flushIntervalMs)
                && Value().lines == [] && dropped == highWatermark == 0
    {
      hide IsSlotSize, Next, Wrap, RingLines;
      var cap := if cfg.queueSize != 0 then cfg.queueSize else 8192;
      ok := haveMemory;
      if !haveMemory {
        return;
      }
      var empty := new Slot[cap](i => Slot(NO_LINE, 0));
      Clear();
      slots := empty;
      capacity := cap;
      batchSize := if cfg.batchSize != 0 then cfg.batchSize else 64;
      flushIntervalMs := if cfg.flushIntervalMs != 0 then cfg.flushIntervalMs else 1000;
      overflow := cfg.overflow;
      running := true;
      RingEmpty(empty[..], 0);
      WrapZero(cap);
    }

    method CountDrop()
      requires Valid()
      modifies this`dropped
      ensures Valid() && dropped == old(dropped) + 1
    {
      dropped := dropped + 1;
    }

    /** Advance `head` over the oldest line. */
    method DropOldest()
      requires Valid() && slots != null && count > 0
      modifies this`head, this`count, this`dropped
      ensures Valid() && Value() == Evict(old(Value()))
      ensures Value().lines == old(Value().lines)[1..] && dropped == old(dropped) + 1
    {
      hide Next, Wrap, IsSlotSize, RingLines;
      RingPop(slots[..], head, count);
      NextWrap(head, count, capacity);
      head := Next(head, capacity);
      count := count - 1;
      CountDrop();
    }

    /** Fill the tail slot with a prepared buffer and advance over it. */
    method StoreLine(slot: Slot)
      requires Valid() && slots != null && count < capacity
      requires SlotOk(slot)
      modifies this`tail, this`count, this`highWatermark, slots
      ensures Valid() && slots == old(slots)
      ensures Value() == Push(old(Value()), slot.line, true).0
      ensures slots[old(tail)] == slot
    {
      hide Next, Wrap, IsSlotSize, RingLines;
      ghost var before := slots[..];
      slots[tail] := slot;
      RingPush(before, head, count, slot);
      assert slots[..] == before[tail := slot];
      WrapNext(head, count, capacity);
      tail := Next(tail, capacity);
      count := count + 1;
      if count > highWatermark {
        highWatermark := count;
      }
    }

    /** Give up on the line; the tail slot keeps what is left of its buffer. */
    method RefuseLine(slot: Slot)
      requires Valid() && slots != null && count < capacity
      requires SlotOk(slot)
      modifies this`dropped, slots
      ensures Valid() && slots == old(slots)
      ensures Value() == old(Value()).(dropped := old(dropped) + 1)
    {
      hide Next, Wrap, IsSlotSize, RingLines;
      ghost var before := slots[..];
      slots[tail] := slot;
      RingFrame(before, head, count, count, slot);
      assert slots[..] == before[tail := slot];
      CountDrop();
    }

    /** The tail of `hx_async_enqueue`: make the slot's buffer fit and fill it. A
      * buffer that ballooned for one line is given back first. */
    method PushLine(line: Line, haveMemory: bool) returns (out: Outcome)
      requires Valid() && slots != null && count < capacity
      requires |line.data| + 1 <= 0x8000_0000
      modifies this, slots
      ensures Valid() && slots == old(slots)
      ensures out == Stored || (out == OutOfMemory && !haveMemory)
      ensures (Value(), out) == Push(old(Value()), line, out == Stored)
      ensures out == Stored ==> slots[old(tail)].cap >= |line.data| + 1
      ensures out == Stored && |line.data| + 1 <= KEEP_CAP ==> slots[old(tail)].cap <= KEEP_CAP
    {
      hide Next, Wrap, IsSlotSize, RingLines;
      var slot, ok := FitSlot(slots[tail], |line.data|, haveMemory);
      if ok {
        StoreLine(slot.(line := line));
        out := Stored;
      } else {
        RefuseLine(slot);
        out := OutOfMemory;
      }
    }

    /** `hx_async_enqueue` up to its first unlock or wait. */
    method Enqueue(line: Line, haveMemory: bool) returns (out: Outcome)
      requires Valid() && |line.data| + 1 <= 0x8000_0000
      modifies this, slots
      ensures Valid() && slots == old(slots)
      ensures haveMemory ==> out != OutOfMemory
      ensures (Value(), out) == AsyncQueue.Enqueue(old(Value()), line, out != OutOfMemory)
      ensures var full := old(count) == old(capacity);
              && (out == NotInitialized <==> !old(running) || old(stop))
              && (out == QueueFull <==> old(running) && !old(stop) && full && overflow == DropNew)
              && (out == MustWait <==> old(running) && !old(stop) && full && overflow == Block)
      ensures out == NotInitialized || out == MustWait || out == QueueFull ==> Value().lines == old(Value().lines)
      ensures out == Stored || out == OutOfMemory ==>
                var kept := if old(count) < old(capacity) then old(Value().lines) else old(Value().lines)[1..];
                Value().lines == if out == Stored then kept + [line] else kept
      ensures dropped == old(dropped) + (if out == QueueFull || out == OutOfMemory then 1 else 0)
                         + (if (out == Stored || out == OutOfMemory) && old(count) == old(capacity) then 1 else 0)
      ensures highWatermark == if out == Stored && count > old(highWatermark) then count else old(highWatermark)
    {
      if !running || stop {
        return NotInitialized;
      }
      if count >= capacity {
        match overflow {
          case DropNew =>
            CountDrop();
            return QueueFull;
          case DropOld =>
            DropOldest();
          case Block =>
            return MustWait;
        }
      }
      out := PushLine(line, haveMemory);
    }

    /** The waiting loop of BLOCK after a wake-up, and what follows it. */
    method Resume(line: Line, haveMemory: bool) returns (out: Outcome)
      requires Valid() && |line.data| + 1 <= 0x8000_0000
      modifies this, slots
      ensures Valid() && slots == old(slots)
      ensures haveMemory ==> out != OutOfMemory
      ensures (Value(), out) == AsyncQueue.Resume(old(Value()), line, out != OutOfMemory)
      ensures out == MustWait <==> old(count) >= old(capacity) && !old(stop)
      ensures out == NotInitialized <==> old(stop) || (!old(running) && old(count) < old(capacity))
      ensures Value().lines == if out == Stored then old(Value().lines) + [line] else old(Value().lines)
      ensures dropped == old(dropped) + (if out == OutOfMemory then 1 else 0)
      ensures highWatermark == if out == Stored && count > old(highWatermark) then count else old(highWatermark)
    {
      if count >= capacity && !stop {
        return MustWait;
      }
      if stop || !running {
        return NotInitialized;
      }
      out := PushLine(line, haveMemory);
    }

    /** One round of the worker's batch loop under the lock: copy the oldest line to
      * the scratch buffer and take it off the queue. */
    method PopLine(haveMemory: bool) returns (popped: Option<Line>)
      requires Valid() && count > 0
      modifies this
      ensures Valid() && slots == old(slots)
      ensures (Value(), popped) == Pop(old(Value()), popped.Some?)
      ensures Value().lines == old(Value().lines)[1..]
      ensures popped.Some? ==> popped.value == old(Value().lines)[0] && dropped == old(dropped)
      ensures popped.None? ==> dropped == old(dropped) + 1
      ensures haveMemory ==> popped.Some?
    {
      hide Next, Wrap, IsSlotSize, RingLines;
      RingPop(slots[..], head, count);
      var s := slots[head];
      if scratchCap < |s.line.data| + 1 {
        var nc := Grow(scratchCap, |s.line.data| + 1);
        if !haveMemory {
          DropOldest();
          return None;
        }
        scratchCap := nc;
      }
      popped := Some(s.line);
      NextWrap(head, count, capacity);
      head := Next(head, capacity);
      count := count - 1;
    }

    /** The worker woke up with an empty queue; returns whether it has to exit. */
    method IdleRound() returns (shouldExit: bool, doFlush: bool)
      requires Valid() && count == 0
      modifies this`flushRequest
      ensures Valid() && Value() == Idle(old(Value())) && !flushRequest
      ensures shouldExit == old(stop) && doFlush == old(flushRequest)
    {
      shouldExit := stop;
      doFlush := flushRequest;
      flushRequest := false;
    }

    method FinishBatch()
      requires Valid()
      modifies this`flushRequest
      ensures Valid() && Value() == BatchEnd(old(Value()))
      ensures flushRequest <==> old(flushRequest) && count > 0
    {
      if flushRequest && count == 0 {
        flushRequest := false;
      }
    }

    /** `hx_async_flush` up to its first wait; returns whether it waits. */
    method BeginFlush() returns (waits: bool)
      requires Valid()
      modifies this`flushRequest
      ensures Valid() && (Value(), waits) == FlushBegin(old(Value()))
      ensures flushRequest <==> old(flushRequest) || (running && count > 0)
      ensures waits <==> running && count > 0 && !stop
    {
      if !running || count == 0 {
        return false;
      }
      flushRequest := true;
      waits := flushRequest && running && !stop;
    }

    /** The flusher woke up; returns whether it is done. */
    method CheckFlush() returns (done: bool)
      requires Valid()
      ensures done == FlushDone(Value())
      ensures done <==> count == 0 || !flushRequest || !running || stop
    {
      if count == 0 {
        return true;
      }
      done := !(flushRequest && running && !stop);
    }

    /** `hx_async_stop` up to the join; returns whether there is a worker to join. */
    method BeginStop() returns (joins: bool)
      requires Valid()
      modifies this`stop
      ensures Valid() && Value() == StopBegin(old(Value())) && joins == old(running)
      ensures stop <==> old(stop) || running
    {
      if !running {
        return false;
      }
      stop := true;
      joins := true;
    }

    /** `hx_async_stop` after the join. */
    method DetachBuffers()
      requires Valid()
      modifies this
      ensures Valid() && slots == null && Value() == Detach(old(Value()))
      ensures !running && Value().lines == [] && dropped == old(dropped) && stop == old(stop)
    {
      slots := null;
      scratchCap := 0;
      count, head, tail := 0, 0, 0;
      running := false;
    }
  }

  /** A buffer that is not kept and grown for a line of at most 64 KB is at most 64 KB. */
  lemma FitsKeep(start: nat, cap: nat, need: nat)
    requires IsSlotSize(cap) && need <= KEEP_CAP && start <= KEEP_CAP
    requires cap == start || cap == FIRST_CAP || cap / 2 < need
    ensures cap <= KEEP_CAP
  {
    BigSlotSizes();
    if cap > FIRST_CAP && cap / 2 < need {
      SlotSizeBelow(cap, KEEP_CAP);
    }
  }
}
