/** What the steps of AsyncProtocol.dfy do, case by case: who gets into the queue, who loses
  * a line, what the worker takes, and in which order a reconfiguration proceeds.
  */
module AsyncSteps {
  import opened AsyncProtocol
  import opened AsyncQueue
  import opened Common

  /** A call that saw ASYNC goes to the queue, one that saw SYNC writes by itself. */
  lemma ModeDecides(s: State, i: nat)
    requires Enabled(s, ReadMode(i))
    ensures var p := Step(s, ReadMode(i)).producers[i];
            if s.asyncMode then p == SawAsync(s.producers[i].line) else p == Direct(s.producers[i].line)
  {
  }

  /** Entering the queue: a stopped engine sends the caller to a synchronous write; a queue
    * with room takes the line, and only a full one drops anything or puts the caller to
    * sleep. */
  lemma EntersExactly(s: State, i: nat, stored: bool)
    requires Enabled(s, EnterQueue(i, stored))
    ensures var s' := Step(s, EnterQueue(i, stored));
            var p, line, lines := s'.producers[i], s.producers[i].line, s.q.lines;
            if !s.q.running || s.q.stop then
              p == Direct(line) && s'.q == s.q && s'.lost == s.lost
            else if |lines| < s.q.capacity then
              && p == Resting
              && s'.q.lines == (if stored then lines + [line] else lines)
              && s'.lost == (if stored then s.lost else s.lost + [line])
            else match s.q.overflow
              case Block => p == Waiting(line, false) && s'.q == s.q && s'.lost == s.lost
              case DropNew => p == Resting && s'.q.lines == lines && s'.lost == s.lost + [line]
              case DropOld =>
                && p == Resting
                && (lines != [] && stored ==>
                      s'.q.lines == lines[1..] + [line] && s'.lost == s.lost + [lines[0]])
                && (lines != [] && !stored ==>
                      s'.q.lines == lines[1..] && s'.lost == s.lost + [lines[0]] + [line])
  {
    hide StepWake, StepPop, StepLock, StepHandOver, StepStartFlush, StepWakeFlusher, StepLaunch;
  }

  /** A woken producer: it writes by itself after a stop, sleeps again before a full queue,
    * and stores its line otherwise. */
  lemma WakesExactly(s: State, i: nat, stored: bool)
    requires Enabled(s, WakeProducer(i, stored))
    ensures var s' := Step(s, WakeProducer(i, stored));
            var p, line, lines := s'.producers[i], s.producers[i].line, s.q.lines;
            if s.q.stop then p == Direct(line) && s'.q == s.q && s'.lost == s.lost
            else if |lines| >= s.q.capacity then p == Waiting(line, false) && s'.q == s.q && s'.lost == s.lost
            else if !s.q.running then p == Direct(line) && s'.q == s.q && s'.lost == s.lost
            else
              && p == Resting
              && s'.q.lines == (if stored then lines + [line] else lines)
              && s'.lost == (if stored then s.lost else s.lost + [line])
  {
    hide StepEnter, StepPop, StepLock, StepHandOver, StepStartFlush, StepWakeFlusher, StepLaunch;
  }

  /** The worker takes the oldest line and hands it over with the lock released. */
  lemma WorkerTakesOldest(s: State, copied: bool, sleeper: nat)
    requires Enabled(s, WorkerPop(copied, sleeper))
    ensures var s' := Step(s, WorkerPop(copied, sleeper));
            && s'.q.lines == s.q.lines[1..]
            && (copied ==> s'.worker == Emitting(s.q.lines[0], s.worker.written) && s'.lost == s.lost)
            && (!copied ==> s'.lost == s.lost + [s.q.lines[0]])
            && (IsAsleep(s.producers, sleeper) ==> IsWoken(s'.producers, sleeper))
  {
  }

  /** The worker's rounds: a batch starts with lines queued; an empty queue answers any
    * flush, and with stop set is the worker's way out; the end of a batch answers a flush
    * only on an empty queue. */
  lemma WorkerRounds(s: State, a: Action)
    requires Enabled(s, a) && (a.WorkerLock? || a.WorkerBatchEnd? || a.WorkerExit?)
    ensures var s' := Step(s, a);
            && s'.q.lines == s.q.lines
            && (a.WorkerLock? && s.q.lines != [] ==> s'.worker == Batch(0) && s'.q == s.q)
            && (a.WorkerLock? && s.q.lines == [] ==>
                  !s'.q.flushRequest && s'.worker == if s.q.stop then Leaving else Top)
            && (a.WorkerBatchEnd? ==>
                  s'.worker == Top && (s'.q.flushRequest <==> s.q.flushRequest && s.q.lines != []))
            && (a.WorkerExit? ==> s'.worker == Exited)
  {
  }

  /** A flush asks for an answer and waits exactly when a running engine that is not being
    * stopped has lines queued. */
  lemma FlushStarts(s: State, f: nat)
    requires Enabled(s, StartFlush(f))
    ensures var s' := Step(s, StartFlush(f));
            && s'.q.lines == s.q.lines
            && (s'.q.flushRequest <==> s.q.flushRequest || (s.q.running && s.q.lines != []))
            && s'.flushers[f] == if s.q.running && !s.q.stop && s.q.lines != []
                                 then FlushWaiting(s.epoch, |s.ledger.accepted|)
                                 else FlushReturned(s.epoch, |s.ledger.accepted|, false)
  {
  }

  /** The steps of a reconfiguration: SYNC first, then stop with a broadcast, join, and for
    * a new engine its configured sizes and policy, its worker, and only then ASYNC. */
  lemma ReconfiguresInOrder(s: State, a: Action)
    requires Enabled(s, a)
    ensures var s' := Step(s, a);
            match a
            case SwitchToSync(cfg) => !s'.asyncMode && s'.ctl == if s.asyncMode then Switched(cfg) else Swapping(cfg)
            case SetStop =>
              && (s.q.running ==> s'.q.stop) && s'.ctl == Stopping(s.ctl.cfg)
              && forall i :: 0 <= i < |s.producers| ==> !IsAsleep(s'.producers, i)
            case JoinAndDetach => !s'.q.running && s'.worker.Absent? && s'.ctl == Swapping(s.ctl.cfg)
            case Launch(haveMemory) =>
              if s.ctl.cfg.Some? && haveMemory then
                var cfg := s.ctl.cfg.value;
                && s'.q.running && !s'.q.stop && s'.q.lines == [] && s'.q.overflow == cfg.overflow
                && s'.q.capacity == (if cfg.queueSize == 0 then 8192 else cfg.queueSize)
                && s'.q.batchSize == (if cfg.batchSize == 0 then 64 else cfg.batchSize)
                && s'.ctl.Launching? && s'.asyncMode == s.asyncMode
              else s'.q == s.q && s'.ctl.Steady?
            case CreateWorker => s'.worker.Top? && s'.ctl.Launched?
            case PublishAsync => s'.asyncMode && s'.ctl.Steady?
            case _ => s'.asyncMode == s.asyncMode && s'.ctl == s.ctl
  {
    hide StepPop, StepLock, StepHandOver, StepStartFlush, StepWakeFlusher, StepEnter, StepWake;
    if a.EnterQueue? || a.WakeProducer? {
      QueueingControl(s, a);
    } else if !Reconfigures(a) {
      OthersLeaveControl(s, a);
    }
  }

  predicate Reconfigures(a: Action) {
    || a.SwitchToSync? || a.SetStop? || a.JoinAndDetach?
    || a.Launch? || a.CreateWorker? || a.PublishAsync?
  }

  lemma OthersLeaveControl(s: State, a: Action)
    requires Enabled(s, a) && !Reconfigures(a) && !a.EnterQueue? && !a.WakeProducer?
    ensures Step(s, a).asyncMode == s.asyncMode && Step(s, a).ctl == s.ctl
  {
  }

  /** With memory a step loses a line only when it finds the queue full, and never under
    * BLOCK. */
  lemma LossNeedsFullQueue(s: State, a: Action)
    requires Enabled(s, a) && HasMemory(a)
    ensures Step(s, a).lost != s.lost ==>
              a.EnterQueue? && |s.q.lines| >= s.q.capacity && (s.q.overflow.DropNew? || s.q.overflow.DropOld?)
  {
    hide StepEnter, StepWake, StepPop;
    match a
    case EnterQueue(i, stored) => EntersExactly(s, i, stored);
    case WakeProducer(i, stored) => WakesExactly(s, i, stored);
    case WorkerPop(copied, sleeper) => WorkerTakesOldest(s, copied, sleeper);
    case _ =>
  }

  /** Every call that enters the queue in this run finds room. */
  predicate FindsRoom(s: State, run: seq<Action>) {
    if run == [] then true
    else
      var n := |run| - 1;
      var before := Exec(s, run[..n]);
      && FindsRoom(s, run[..n])
      && (run[n].EnterQueue? ==> before.Some? && |before.value.q.lines| < before.value.q.capacity)
  }

  /** So a run with memory in which no call finds the queue full loses nothing, whatever
    * the policy. */
  lemma {:induction false} RoomLosesNothing(producers: nat, flushers: nat, run: seq<Action>)
    requires Exec(Init(producers, flushers), run).Some?
    requires forall k :: 0 <= k < |run| ==> HasMemory(run[k])
    requires FindsRoom(Init(producers, flushers), run)
    ensures Exec(Init(producers, flushers), run).value.lost == []
  {
    if run != [] {
      hide Step, Enabled, HasMemory;
      var n := |run| - 1;
      var before := run[..n];
      RoomLosesNothing(producers, flushers, before);
      LossNeedsFullQueue(Exec(Init(producers, flushers), before).value, run[n]);
    }
  }

  /** The choices that the run leaves open: calls of the library start and a flush or a
    * reconfiguration begins whenever their thread is free, any allocation may fail, a wait
    * may end for no reason, and only the lock and the joined worker hold anybody up. */
  lemma EveryChoiceIsOpen(s: State, i: nat, f: nat, line: Line, cfg: Option<Config>, b: bool)
    ensures i < |s.producers| && s.producers[i].Resting? ==> Enabled(s, Dispatch(i, line))
    ensures i < |s.producers| && s.producers[i].Called? ==> Enabled(s, ReadMode(i))
    ensures i < |s.producers| && s.producers[i].Direct? ==> Enabled(s, WriteDirect(i))
    ensures i < |s.producers| && s.producers[i].Waiting? && !s.producers[i].woken ==> Enabled(s, WakeSpuriously(i))
    ensures !s.worker.Batch? ==>
              && (i < |s.producers| && s.producers[i].SawAsync? ==> Enabled(s, EnterQueue(i, b)))
              && (IsWoken(s.producers, i) ==> Enabled(s, WakeProducer(i, b)))
              && (f < |s.flushers| ==> Enabled(s, StartFlush(f)) || Enabled(s, WakeFlusher(f)))
              && (s.ctl.Switched? ==> Enabled(s, SetStop)) && (s.ctl.Swapping? ==> Enabled(s, Launch(b)))
    ensures s.ctl.Steady? ==> Enabled(s, SwitchToSync(cfg))
    ensures (s.worker.Batch? && s.q.lines != [] && s.worker.written < s.q.batchSize
             && (NobodyAsleep(s.producers) || IsAsleep(s.producers, i)))
            ==> Enabled(s, WorkerPop(b, i))
  {
  }
}
