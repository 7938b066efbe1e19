/** Progress of the asynchronous engine: which reachable states of AsyncProtocol.dfy can
  * be run to completion. A producer that sleeps on `g_async_not_full` goes on only after
  * a signal or the broadcast of a stop; the worker signals once for each line it takes.
  */
module AsyncProgress {
  import opened AsyncProtocol
  import opened AsyncQueue
  import opened Common

  // ---- What can still happen ----

  /** A step that needs no new call of the library and no spurious wake-up. */
  predicate Helps(a: Action) {
    !a.Dispatch? && !a.SwitchToSync? && !a.WakeSpuriously?
  }

  /** No slot buffer that a producer needs fails to grow. */
  predicate SlotsGrow(a: Action) {
    match a
    case EnterQueue(_, stored) => stored
    case WakeProducer(_, stored) => stored
    case _ => true
  }

  predicate Finished(s: State) {
    Quiet(s) && s.ctl.Steady?
  }

  /** The mode is ASYNC, or will be when the reconfiguration under way is over. */
  predicate AsyncAhead(s: State) {
    s.asyncMode || s.ctl.Launching? || s.ctl.Launched?
  }

  /** A producer that will put a line into the queue without being signalled first. */
  predicate Rescues(s: State, i: nat) {
    && i < |s.producers|
    && (IsWoken(s.producers, i) || s.producers[i].SawAsync? || (s.producers[i].Called? && AsyncAhead(s)))
  }

  /** Finished means: no call and no reconfiguration is under way, and no line is left. */
  lemma FinishedExactly(s: State)
    ensures Finished(s)
            <==> && (forall i :: 0 <= i < |s.producers| ==> s.producers[i].Resting?)
                 && !s.worker.Emitting? && s.q.lines == [] && s.ctl.Steady?
  {
  }

  /** Somebody sleeps, the queue is empty, and nobody is left who would fill it or stop
    * the engine: there will be no signal. */
  predicate Doomed(s: State) {
    && !NobodyAsleep(s.producers) && s.q.lines == [] && !s.ctl.Switched?
    && forall i :: 0 <= i < |s.producers| ==> !Rescues(s, i)
  }

  // ---- A measure of the work left ----

  function ProducerRank(p: Producer): nat {
    match p
    case Resting => 0
    case Direct(_) => 1
    case Waiting(_, woken) => if woken then 8 else 7
    case SawAsync(_) => 9
    case Called(_) => 10
  }

  function ProducersRank(ps: seq<Producer>): nat {
    if ps == [] then 0 else ProducersRank(ps[..|ps| - 1]) + ProducerRank(ps[|ps| - 1])
  }

  lemma {:induction false} RankUpdate(ps: seq<Producer>, i: nat, p: Producer)
    requires i < |ps|
    ensures ProducersRank(ps[i := p]) + ProducerRank(ps[i]) == ProducersRank(ps) + ProducerRank(p)
  {
    var n := |ps| - 1;
    if i == n {
      assert ps[i := p][..n] == ps[..n];
    } else {
      assert ps[i := p][..n] == ps[..n][i := p];
      RankUpdate(ps[..n], i, p);
    }
  }

  lemma {:induction false} RankBroadcast(ps: seq<Producer>)
    ensures ProducersRank(Broadcast(ps)) <= ProducersRank(ps) + |ps|
  {
    if ps != [] {
      var n := |ps| - 1;
      assert Broadcast(ps)[..n] == Broadcast(ps[..n]);
      RankBroadcast(ps[..n]);
    }
  }

  lemma RankSignal(ps: seq<Producer>, i: nat)
    ensures ProducersRank(Signal(ps, i)) <= ProducersRank(ps) + 1
  {
    if IsAsleep(ps, i) {
      RankUpdate(ps, i, ps[i].(woken := true));
    }
  }

  function ControllerRank(c: Controller): nat {
    match c
    case Steady => 0
    case Launched => 3
    case Launching => 6
    case Swapping(_) => 7
    case Stopping(_) => 8
    case Switched(_) => 9
  }

  /** Work left before everyone rests. Stopping an engine can wake every producer. */
  function Work(s: State): nat {
    ProducersRank(s.producers) + Remaining(s) + ControllerWork(s)
  }

  function ControllerWork(s: State): nat {
    ControllerRank(s.ctl) * (|s.producers| + 1)
  }

  lemma FewerStepsAhead(c: Controller, c': Controller, n: nat)
    requires ControllerRank(c') < ControllerRank(c)
    ensures ControllerRank(c') * (n + 1) + n + 1 <= ControllerRank(c) * (n + 1)
    ensures ControllerRank(c') + 3 <= ControllerRank(c) ==>
              ControllerRank(c') * (n + 1) + 3 <= ControllerRank(c) * (n + 1)
  {
    var d := ControllerRank(c) - ControllerRank(c');
    assert ControllerRank(c) * (n + 1) == ControllerRank(c') * (n + 1) + d * (n + 1);
    assert d * (n + 1) >= n + 1;
    if d >= 3 {
      assert d * (n + 1) >= 3 * (n + 1);
    }
  }

  // ---- Everybody's next move ----

  /** A move of a producer that is not asleep, in front of an empty queue. */
  lemma ProducerMove(s: State, i: nat) returns (a: Action)
    requires Inv(s) && !s.worker.Batch? && i < |s.producers| && !s.producers[i].Resting?
    requires s.q.lines == [] && !IsAsleep(s.producers, i)
    ensures Enabled(s, a) && Helps(a) && Lossless(a)
    ensures Work(Step(s, a)) < Work(s)
    ensures Step(s, a).ctl == s.ctl && Step(s, a).asyncMode == s.asyncMode
    ensures |Step(s, a).producers| == |s.producers|
    ensures forall k :: 0 <= k < |s.producers| && k != i ==> Step(s, a).producers[k] == s.producers[k]
    ensures !IsAsleep(Step(s, a).producers, i)
    ensures !NobodyAsleep(s.producers) && Rescues(s, i) && !AsyncSoon(s) ==>
              Step(s, a).q.lines != [] || Rescues(Step(s, a), i)
  {
    hide Conserved, LedgerOk, FlushOk, ProducersRank, ControllerWork, StepPop, StepLock, StepHandOver,
         StepStartFlush, StepWakeFlusher, StepLaunch;
    a := match s.producers[i]
      case Called(_) => ReadMode(i)
      case SawAsync(_) => EnterQueue(i, true)
      case Waiting(_, _) => WakeProducer(i, true)
      case Direct(_) => WriteDirect(i);
    RankUpdate(s.producers, i, Step(s, a).producers[i]);
    SameController(s, Step(s, a));
  }

  lemma SameController(s: State, s': State)
    requires s'.ctl == s.ctl && |s'.producers| == |s.producers|
    ensures ControllerWork(s') == ControllerWork(s)
  {
  }

  /** The mode is not ASYNC yet. */
  predicate AsyncSoon(s: State) {
    !s.asyncMode && (s.ctl.Launching? || s.ctl.Launched?)
  }

  /** A move of the worker, when it holds the lock, carries a line, is on its way out,
    * or has lines to take. */
  lemma WorkerMove(s: State) returns (a: Action)
    requires Inv(s)
    requires s.worker.Batch? || s.worker.Emitting? || s.worker.Leaving?
             || (s.worker.Top? && (s.q.lines != [] || s.q.stop))
    ensures Enabled(s, a) && Helps(a) && Lossless(a) && OfWorker(a)
    ensures Work(Step(s, a)) < Work(s)
  {
    hide Conserved, LedgerOk, FlushOk, ProducersRank, StepEnter, StepWake,
         StepStartFlush, StepWakeFlusher, StepLaunch;
    var sleeper := SomeSleeper(s.producers);
    RankSignal(s.producers, sleeper);
    a := match s.worker
      case Top => WorkerLock
      case Emitting(_, _) => WorkerHandOver
      case Leaving => WorkerExit
      case Batch(written) =>
        if s.q.lines != [] && written < s.q.batchSize then WorkerPop(true, sleeper) else WorkerBatchEnd;
  }

  lemma ControllerMove(s: State) returns (a: Action)
    requires Inv(s) && !s.ctl.Steady? && !s.worker.Batch?
    requires s.ctl.Stopping? ==> s.worker.Exited?
    ensures Enabled(s, a) && Helps(a) && Lossless(a) && OfController(a)
    ensures Work(Step(s, a)) < Work(s)
  {
    hide Conserved, LedgerOk, FlushOk, ProducersRank, StepEnter, StepWake, StepPop, StepLock,
         StepHandOver, StepStartFlush, StepWakeFlusher;
    RankBroadcast(s.producers);
    a := match s.ctl
      case Switched(_) => SetStop
      case Stopping(_) => JoinAndDetach
      case Swapping(_) => Launch(true)
      case Launching => CreateWorker
      case Launched => PublishAsync;
  }

  predicate OfController(a: Action) {
    a.SetStop? || a.JoinAndDetach? || a.Launch? || a.CreateWorker? || a.PublishAsync?
  }

  // ---- Staying out of doom ----

  /** The worker's signal reaches a sleeper whenever there is one. */
  lemma WorkerKeepsHope(s: State, a: Action)
    requires Inv(s) && Enabled(s, a) && OfWorker(a) && !Doomed(s)
    ensures !Doomed(Step(s, a))
  {
    hide Conserved, LedgerOk, FlushOk, StepEnter, StepWake, StepStartFlush, StepWakeFlusher, StepLaunch;
    var s' := Step(s, a);
    if a.WorkerPop? {
      if IsAsleep(s.producers, a.sleeper) {
        assert Rescues(s', a.sleeper);
      }
    } else {
      SameProducersSameDoom(s, s');
    }
  }

  lemma SameProducersSameDoom(s: State, s': State)
    requires s'.producers == s.producers && s'.q.lines == s.q.lines
    requires s'.ctl.Switched? == s.ctl.Switched? && AsyncAhead(s') == AsyncAhead(s)
    ensures Doomed(s') == Doomed(s)
  {
    assert forall i :: 0 <= i < |s.producers| ==> Rescues(s', i) == Rescues(s, i);
  }

  lemma ControllerKeepsHope(s: State, a: Action)
    requires Inv(s) && Enabled(s, a) && OfController(a) && !Doomed(s)
    ensures !Doomed(Step(s, a))
  {
    hide Conserved, LedgerOk, FlushOk, StepEnter, StepWake, StepPop, StepLock, StepHandOver,
         StepStartFlush, StepWakeFlusher;
    var s' := Step(s, a);
    if !a.SetStop? && !NobodyAsleep(s.producers) {
      assert a.CreateWorker? || a.PublishAsync?;
      SameProducersSameDoom(s, s');
    }
  }

  /** In every state that is neither finished nor doomed some thread can move, leave
    * less work, and not be doomed afterwards. */
  lemma SomeoneCanMove(s: State) returns (a: Action)
    requires Inv(s) && !Finished(s) && !Doomed(s)
    ensures Enabled(s, a) && Helps(a) && Lossless(a)
    ensures Work(Step(s, a)) < Work(s)
    ensures !Doomed(Step(s, a))
  {
    hide Conserved, LedgerOk, FlushOk, Work, Step, Enabled, Lossless, Doomed;
    if s.worker.Batch? || s.worker.Emitting? || s.worker.Leaving?
       || (s.worker.Top? && (s.q.lines != [] || s.q.stop)) {
      a := WorkerMove(s);
      WorkerKeepsHope(s, a);
    } else if !s.ctl.Steady? {
      a := ControllerMove(s);
      ControllerKeepsHope(s, a);
    } else {
      a := AwakeMove(s);
    }
  }

  /** The worker and the controller rest, the queue is empty: a producer moves, if
    * someone sleeps then one that will fill the queue. */
  lemma AwakeMove(s: State) returns (a: Action)
    requires Inv(s) && !Finished(s) && !Doomed(s) && s.ctl.Steady?
    requires s.q.lines == [] && !s.worker.Batch? && !s.worker.Emitting?
    ensures Enabled(s, a) && Helps(a) && Lossless(a)
    ensures Work(Step(s, a)) < Work(s)
    ensures !Doomed(Step(s, a))
  {
    hide Conserved, LedgerOk, FlushOk, Lifecycle, NoneStranded, Work, Step, Enabled, Lossless;
    if NobodyAsleep(s.producers) {
      var i :| 0 <= i < |s.producers| && !s.producers[i].Resting?;
      a := ProducerMove(s, i);
      var s' := Step(s, a);
      assert forall k :: 0 <= k < |s'.producers| ==> !IsAsleep(s'.producers, k) by {
        assert forall k :: 0 <= k < |s.producers| && k != i ==> IsAsleep(s'.producers, k) == IsAsleep(s.producers, k);
      }
    } else {
      var i :| 0 <= i < |s.producers| && Rescues(s, i);
      a := ProducerMove(s, i);
    }
  }

  // ---- Every step does some of the work ----

  /** The worker looks at an empty queue and goes back to sleep. */
  predicate IdleTick(s: State, a: Action) {
    a.WorkerLock? && s.q.lines == [] && !s.q.stop
  }

  /** A step of a call under way that is not just a timed wake-up: neither the worker's
    * idle tick nor a step of a flush. */
  predicate Busy(s: State, a: Action) {
    Helps(a) && !IdleTick(s, a) && !a.StartFlush? && !a.WakeFlusher?
  }

  lemma QueueingLowersWork(s: State, a: Action)
    requires Inv(s) && Enabled(s, a) && (a.EnterQueue? || a.WakeProducer?)
    ensures Work(Step(s, a)) < Work(s) && |Step(s, a).producers| == |s.producers|
  {
    hide Conserved, LedgerOk, FlushOk, Lifecycle, NoneStranded, ProducersRank, ControllerWork, StepPop, StepLock,
         StepHandOver, StepStartFlush, StepWakeFlusher, StepLaunch;
    RankUpdate(s.producers, a.i, Step(s, a).producers[a.i]);
    SameController(s, Step(s, a));
  }

  lemma ControllerLowersWork(s: State, a: Action)
    requires Inv(s) && Enabled(s, a) && OfController(a)
    ensures Work(Step(s, a)) < Work(s) && |Step(s, a).producers| == |s.producers|
  {
    hide Conserved, LedgerOk, FlushOk, NoneStranded, ProducersRank, StepEnter, StepWake, StepPop, StepLock,
         StepHandOver, StepStartFlush, StepWakeFlusher;
    RankBroadcast(s.producers);
    FewerStepsAhead(s.ctl, Step(s, a).ctl, |s.producers|);
  }

  lemma WorkerLowersWork(s: State, a: Action)
    requires Inv(s) && Enabled(s, a) && OfWorker(a) && !IdleTick(s, a)
    ensures Work(Step(s, a)) < Work(s) && |Step(s, a).producers| == |s.producers|
  {
    hide Conserved, LedgerOk, FlushOk, NoneStranded, ProducersRank, ControllerWork, StepEnter, StepWake,
         StepStartFlush, StepWakeFlusher, StepLaunch;
    if a.WorkerPop? {
      RankSignal(s.producers, a.sleeper);
    }
    SameController(s, Step(s, a));
  }

  /** Every busy step of any thread, with any failures, leaves less work; ticks and
    * flushes leave as much as there was. */
  lemma StepsLowerWork(s: State, a: Action)
    requires Inv(s) && Enabled(s, a) && Helps(a)
    ensures if Busy(s, a) then Work(Step(s, a)) < Work(s) else Work(Step(s, a)) == Work(s)
  {
    hide Inv, Work, Step, Enabled;
    if a.EnterQueue? || a.WakeProducer? {
      QueueingLowersWork(s, a);
    } else if OfController(a) {
      ControllerLowersWork(s, a);
    } else if OfWorker(a) && !IdleTick(s, a) {
      WorkerLowersWork(s, a);
    } else {
      OtherStepsWork(s, a);
    }
  }

  lemma OtherStepsWork(s: State, a: Action)
    requires Inv(s) && Enabled(s, a) && Helps(a) && !a.EnterQueue? && !a.WakeProducer? && !OfController(a)
    requires OfWorker(a) ==> IdleTick(s, a)
    ensures if Busy(s, a) then Work(Step(s, a)) < Work(s) else Work(Step(s, a)) == Work(s)
  {
    hide Conserved, LedgerOk, FlushOk, NoneStranded, Lifecycle, ProducersRank, ControllerWork, StepEnter, StepWake,
         StepPop, StepHandOver, StepLaunch;
    if a.ReadMode? || a.WriteDirect? {
      RankUpdate(s.producers, a.i, Step(s, a).producers[a.i]);
    }
    SameController(s, Step(s, a));
  }

  /** How many steps of `more`, taken from `s`, are busy. */
  function BusySteps(s: State, more: seq<Action>): nat {
    if more == [] then 0
    else
      var n := |more| - 1;
      var before := Exec(s, more[..n]);
      BusySteps(s, more[..n]) + (if before.Some? && Busy(before.value, more[n]) then 1 else 0)
  }

  /** Nobody can take a busy step. */
  ghost predicate Still(s: State) {
    forall a :: Enabled(s, a) ==> !Busy(s, a)
  }

  /** Standing still means that everyone is done, unless someone is stranded. */
  lemma StillIsFinished(s: State)
    requires Inv(s) && !Doomed(s) && Still(s)
    ensures Finished(s)
  {
    hide Inv, Doomed, Finished, Enabled, Step, Work, Busy;
    if !Finished(s) {
      var a := SomeoneCanMove(s);
      StepsLowerWork(s, a);
    }
  }

  // ---- Whole runs ----

  lemma {:induction false} ExecConcat(s: State, run: seq<Action>, more: seq<Action>)
    ensures Exec(s, run + more)
            == if Exec(s, run).Some? then Exec(Exec(s, run).value, more) else None
  {
    hide Step, Enabled;
    if more == [] {
      assert run + more == run;
    } else {
      var n := |more| - 1;
      assert (run + more)[..|run + more| - 1] == run + more[..n] && (run + more)[|run + more| - 1] == more[n];
      ExecConcat(s, run, more[..n]);
    }
  }

  /** Without new calls, the work that is left bounds the busy steps that any schedule can
    * take. */
  lemma {:induction false} BusyStepsAreBounded(producers: nat, flushers: nat, run: seq<Action>, more: seq<Action>)
    requires Exec(Init(producers, flushers), run + more).Some?
    requires forall k :: 0 <= k < |more| ==> Helps(more[k])
    ensures Exec(Init(producers, flushers), run).Some?
    ensures var s := Exec(Init(producers, flushers), run).value;
            BusySteps(s, more) + Work(Exec(Init(producers, flushers), run + more).value) <= Work(s)
  {
    hide Inv, Work, Step, Enabled, Helps, Busy;
    ExecConcat(Init(producers, flushers), run, more);
    if more == [] {
      assert run + more == run;
    } else {
      var n := |more| - 1;
      assert (run + more)[..|run + more| - 1] == run + more[..n] && (run + more)[|run + more| - 1] == more[n];
      BusyStepsAreBounded(producers, flushers, run, more[..n]);
      ExecConcat(Init(producers, flushers), run, more[..n]);
      RunInv(producers, flushers, run + more[..n]);
      StepsLowerWork(Exec(Init(producers, flushers), run + more[..n]).value, more[n]);
    }
  }

  lemma ExecSnoc(s: State, run: seq<Action>, a: Action)
    requires Exec(s, run).Some? && Enabled(Exec(s, run).value, a)
    ensures Exec(s, run + [a]) == Some(Step(Exec(s, run).value, a))
  {
    assert (run + [a])[..|run|] == run;
  }

  /** From every reachable state that is not doomed, everyone comes to rest without a new
    * call. With BLOCK and enough memory every line dispatched so far is then emitted
    * exactly once. */
  lemma {:induction false} RunsComplete(producers: nat, flushers: nat, run: seq<Action>)
    returns (more: seq<Action>)
    requires Exec(Init(producers, flushers), run).Some?
    requires !Doomed(Exec(Init(producers, flushers), run).value)
    ensures Exec(Init(producers, flushers), run + more).Some?
    ensures forall k :: 0 <= k < |more| ==> Helps(more[k]) && Lossless(more[k])
    ensures Finished(Exec(Init(producers, flushers), run + more).value)
    decreases Work(Exec(Init(producers, flushers), run).value)
  {
    hide Inv, Work, Step, Enabled, Lossless, Finished, Exec, Doomed, Helps;
    var s := Exec(Init(producers, flushers), run).value;
    RunInv(producers, flushers, run);
    if Finished(s) {
      more := [];
      assert run + more == run;
    } else {
      var a := SomeoneCanMove(s);
      ExecSnoc(Init(producers, flushers), run, a);
      var rest := RunsComplete(producers, flushers, run + [a]);
      more := [a] + rest;
      assert run + [a] + rest == run + more;
    }
  }

  // ---- Exactly which states complete ----

  lemma DoomedStays(s: State, a: Action)
    requires Inv(s) && Doomed(s) && Enabled(s, a) && Helps(a)
    ensures Doomed(Step(s, a))
  {
    hide Conserved, LedgerOk, FlushOk, StepEnter, StepWake;
    var s' := Step(s, a);
    assert s.q.running && !s.q.stop;
    if a.ReadMode? || a.WriteDirect? {
      assert !Rescues(s, a.i);
      DirectStays(s, s', a.i);
    } else {
      assert a.EnterQueue? || a.WakeProducer? ==> Rescues(s, a.i);
      SameProducersSameDoom(s, s');
    }
  }

  lemma DirectStays(s: State, s': State, i: nat)
    requires Doomed(s) && i < |s.producers| && !IsAsleep(s.producers, i)
    requires s' == s.(producers := s'.producers, emitted := s'.emitted) && |s'.producers| == |s.producers|
    requires s'.producers == s.producers[i := s'.producers[i]]
    requires s'.producers[i].Direct? || s'.producers[i].Resting?
    ensures Doomed(s')
  {
    var k :| 0 <= k < |s.producers| && IsAsleep(s.producers, k);
    assert IsAsleep(s'.producers, k);
    forall j | 0 <= j < |s'.producers| ensures !Rescues(s', j) {
      assert !Rescues(s, j);
    }
  }

  lemma {:induction false} DoomedForever(producers: nat, flushers: nat, run: seq<Action>, more: seq<Action>)
    requires Exec(Init(producers, flushers), run).Some? && Doomed(Exec(Init(producers, flushers), run).value)
    requires Exec(Init(producers, flushers), run + more).Some?
    requires forall k :: 0 <= k < |more| ==> Helps(more[k])
    ensures Doomed(Exec(Init(producers, flushers), run + more).value)
  {
    hide Doomed, Helps, Step, Enabled, Inv;
    if more == [] {
      assert run + more == run;
    } else {
      var n := |more| - 1;
      assert (run + more)[..|run| + n] == run + more[..n];
      DoomedForever(producers, flushers, run, more[..n]);
      RunInv(producers, flushers, run + more[..n]);
      DoomedStays(Exec(Init(producers, flushers), run + more[..n]).value, more[n]);
    }
  }

  /** After `more`, without a new call and without a spurious wake-up, everyone rests. */
  ghost predicate Completes(producers: nat, flushers: nat, run: seq<Action>, more: seq<Action>) {
    && Exec(Init(producers, flushers), run + more).Some?
    && (forall k :: 0 <= k < |more| ==> Helps(more[k]))
    && Finished(Exec(Init(producers, flushers), run + more).value)
  }

  /** A reachable state can be run to completion if and only if it is not doomed. */
  lemma CompletesExactly(producers: nat, flushers: nat, run: seq<Action>)
    requires Exec(Init(producers, flushers), run).Some?
    ensures (exists more :: Completes(producers, flushers, run, more))
            <==> !Doomed(Exec(Init(producers, flushers), run).value)
  {
    hide Exec, Doomed, Finished, Helps, Lossless;
    if Doomed(Exec(Init(producers, flushers), run).value) {
      forall more ensures !Completes(producers, flushers, run, more) {
        if Completes(producers, flushers, run, more) {
          DoomedForever(producers, flushers, run, more);
          FinishedIsNotDoomed(Exec(Init(producers, flushers), run + more).value);
        }
      }
    } else {
      var more := RunsComplete(producers, flushers, run);
      assert Completes(producers, flushers, run, more);
    }
  }

  lemma FinishedIsNotDoomed(s: State)
    ensures !(Finished(s) && Doomed(s))
  {
  }

  // ---- Doom comes only from a failed allocation ----

  /** Whoever sleeps has lines in front of it, or a woken producer that will put some. */
  predicate Served(s: State) {
    NobodyAsleep(s.producers) || s.q.lines != []
    || exists i :: 0 <= i < |s.producers| && IsWoken(s.producers, i)
  }

  lemma ServedIsNotDoomed(s: State)
    requires Served(s)
    ensures !Doomed(s)
  {
    if i :| 0 <= i < |s.producers| && IsWoken(s.producers, i) {
      assert Rescues(s, i);
    }
  }

  lemma QueueingServes(s: State, a: Action)
    requires Inv(s) && Served(s) && Enabled(s, a) && (a.EnterQueue? || a.WakeProducer?) && SlotsGrow(a)
    ensures Served(Step(s, a))
  {
    hide Conserved, LedgerOk, FlushOk, StepPop, StepLock, StepHandOver, StepStartFlush, StepWakeFlusher, StepLaunch;
    var s' := Step(s, a);
    if s'.q.lines == [] && !NobodyAsleep(s'.producers) {
      var i :| 0 <= i < |s'.producers| && IsAsleep(s'.producers, i);
      if !IsAsleep(s.producers, i) {
        FallsAsleep(s, a, i);
      }
    }
  }

  lemma StepServes(s: State, a: Action)
    requires Inv(s) && Served(s) && Enabled(s, a) && SlotsGrow(a)
    ensures Served(Step(s, a))
  {
    hide Conserved, LedgerOk, FlushOk, StepEnter, StepWake;
    var s' := Step(s, a);
    if a.EnterQueue? || a.WakeProducer? {
      QueueingServes(s, a);
    } else if a.WorkerPop? && IsAsleep(s.producers, a.sleeper) {
      assert IsWoken(s'.producers, a.sleeper);
    } else if !NobodyAsleep(s'.producers) && s'.q.lines == [] {
      var i :| 0 <= i < |s'.producers| && IsAsleep(s'.producers, i);
      assert IsAsleep(s.producers, i);
      assert s.q.lines == [];
      var k :| 0 <= k < |s.producers| && IsWoken(s.producers, k);
      assert IsWoken(s'.producers, k);
    }
  }

  lemma {:induction false} RunServes(producers: nat, flushers: nat, run: seq<Action>)
    requires Exec(Init(producers, flushers), run).Some?
    requires forall k :: 0 <= k < |run| ==> SlotsGrow(run[k])
    ensures Served(Exec(Init(producers, flushers), run).value)
  {
    hide Step, Enabled, Inv, SlotsGrow;
    if run != [] {
      hide Served;
      var before := run[..|run| - 1];
      RunServes(producers, flushers, before);
      RunInv(producers, flushers, before);
      StepServes(Exec(Init(producers, flushers), before).value, run[|run| - 1]);
    }
  }

  /** While the slot buffers of producers can grow, no signal is ever lost: every
    * interleaving of producers, worker, flushes and reconfigurations can be run to
    * completion. */
  lemma NoInterleavingGetsStuck(producers: nat, flushers: nat, run: seq<Action>)
    requires Exec(Init(producers, flushers), run).Some?
    requires forall k :: 0 <= k < |run| ==> SlotsGrow(run[k])
    ensures !Doomed(Exec(Init(producers, flushers), run).value)
    ensures exists more :: Completes(producers, flushers, run, more)
  {
    hide Exec, Completes;
    RunServes(producers, flushers, run);
    ServedIsNotDoomed(Exec(Init(producers, flushers), run).value);
    CompletesExactly(producers, flushers, run);
  }

  lemma FinishedIsQuiet(s: State)
    requires Finished(s)
    ensures Quiet(s)
  {
  }

  /** And every schedule does complete it: however the threads are interleaved, after at
    * most `Work` busy steps nobody can take another one, and then everyone is at rest. */
  lemma EveryScheduleCompletes(producers: nat, flushers: nat, run: seq<Action>, more: seq<Action>)
    requires Exec(Init(producers, flushers), run + more).Some?
    requires forall k :: 0 <= k < |run + more| ==> SlotsGrow((run + more)[k])
    requires forall k :: 0 <= k < |more| ==> Helps(more[k])
    ensures Exec(Init(producers, flushers), run).Some?
    ensures BusySteps(Exec(Init(producers, flushers), run).value, more)
            <= Work(Exec(Init(producers, flushers), run).value)
    ensures var s := Exec(Init(producers, flushers), run + more).value;
            Still(s) ==> Finished(s) && multiset(s.dispatched) == multiset(s.emitted) + multiset(s.lost)
                         && s.q.lines == [] && forall i :: 0 <= i < |s.producers| ==> s.producers[i].Resting?
  {
    hide Exec, Inv, Work, BusySteps, Finished, Still, Served, SlotsGrow, Helps;
    BusyStepsAreBounded(producers, flushers, run, more);
    RunServes(producers, flushers, run + more);
    RunInv(producers, flushers, run + more);
    var s := Exec(Init(producers, flushers), run + more).value;
    ServedIsNotDoomed(s);
    if Still(s) {
      StillIsFinished(s);
      FinishedExactly(s);
      FinishedIsQuiet(s);
      EveryLineIsAccountedFor(s);
    }
  }

  // ---- A failed allocation can strand a sleeper ----

  const SMALL := Config(1, 1, 1000, Block)

  function LineOfSize(n: nat): Line {
    Line(2, seq(n, i => 'x'), 0, true)
  }

  /** Three producers, a queue of one line and BLOCK: the second and the third sleep, the
    * worker takes the line and signals the second, whose slot cannot grow. */
  function StrandingRun(): seq<Action> {
    [SwitchToSync(Some(SMALL)), Launch(true), CreateWorker, PublishAsync]
    + [Dispatch(0, LineOfSize(10)), ReadMode(0), EnterQueue(0, true)]
    + [Dispatch(1, LineOfSize(300)), ReadMode(1), EnterQueue(1, true)]
    + [Dispatch(2, LineOfSize(20)), ReadMode(2), EnterQueue(2, true)]
    + [WorkerLock, WorkerPop(true, 1), WorkerHandOver, WorkerBatchEnd, WakeProducer(1, false)]
  }

  /** The state between two calls on an engine with room for one line. */
  predicate OneSlot(s: State, lines: seq<Line>, worker: Worker, producers: seq<Producer>) {
    && s.asyncMode && s.ctl.Steady? && s.q.running && !s.q.stop && s.q.overflow.Block?
    && s.q.capacity == 1 && s.q.batchSize == 1 && !s.q.flushRequest
    && s.q.lines == lines && s.worker == worker && s.producers == producers
  }

  lemma EngineLaunches()
    ensures var r := Exec(Init(3, 0), [SwitchToSync(Some(SMALL)), Launch(true)]);
            && r.Some? && r.value.ctl.Launching? && r.value.q == Started(SMALL)
            && r.value.producers == [Resting, Resting, Resting]
  {
    var s := Init(3, 0);
    assert s.producers == [Resting, Resting, Resting];
    var r0: seq<Action> := [];
    assert Exec(s, r0) == Some(s);
    hide Exec, StepEnter, StepWake, StepPop, StepLock, StepHandOver, StepStartFlush, StepWakeFlusher;
    var r1 := ThenDo(s, r0, SwitchToSync(Some(SMALL)));
    var r2 := ThenDo(s, r1, Launch(true));
    assert r2 == [SwitchToSync(Some(SMALL)), Launch(true)];
  }

  lemma EngineStarts()
    ensures var r := Exec(Init(3, 0), [SwitchToSync(Some(SMALL)), Launch(true), CreateWorker, PublishAsync]);
            r.Some? && OneSlot(r.value, [], Top, [Resting, Resting, Resting])
  {
    hide Exec, StepEnter, StepWake, StepPop, StepLock, StepHandOver, StepStartFlush, StepWakeFlusher, StepLaunch;
    EngineLaunches();
    var r2 := [SwitchToSync(Some(SMALL)), Launch(true)];
    var r3 := ThenDo(Init(3, 0), r2, CreateWorker);
    var r4 := ThenDo(Init(3, 0), r3, PublishAsync);
    assert r4 == [SwitchToSync(Some(SMALL)), Launch(true), CreateWorker, PublishAsync];
  }

  lemma ThenDo(s: State, run: seq<Action>, a: Action) returns (more: seq<Action>)
    requires Exec(s, run).Some? && Enabled(Exec(s, run).value, a)
    ensures more == run + [a] && Exec(s, more) == Some(Step(Exec(s, run).value, a))
  {
    more := run + [a];
    ExecSnoc(s, run, a);
  }

  /** A producer stores its line in the empty queue, or falls asleep before the full one. */
  lemma ProducerCalls(run: seq<Action>, i: nat, line: Line, lines: seq<Line>, ps: seq<Producer>)
    requires Exec(Init(3, 0), run).Some? && OneSlot(Exec(Init(3, 0), run).value, lines, Top, ps)
    requires i < |ps| && ps[i].Resting? && |lines| <= 1
    ensures var r := Exec(Init(3, 0), run + [Dispatch(i, line), ReadMode(i), EnterQueue(i, true)]);
            r.Some? && if lines == [] then OneSlot(r.value, [line], Top, ps)
                       else OneSlot(r.value, lines, Top, ps[i := Waiting(line, false)])
  {
    hide Exec;
    var s := Init(3, 0);
    var r1 := ThenDo(s, run, Dispatch(i, line));
    var r2 := ThenDo(s, r1, ReadMode(i));
    var r3 := ThenDo(s, r2, EnterQueue(i, true));
    assert r3 == run + [Dispatch(i, line), ReadMode(i), EnterQueue(i, true)];
    assert ps[i := Resting] == ps;
  }

  lemma WorkerTakesOne(run: seq<Action>, line: Line, ps: seq<Producer>, i: nat)
    requires Exec(Init(3, 0), run).Some? && OneSlot(Exec(Init(3, 0), run).value, [line], Top, ps)
    requires IsAsleep(ps, i)
    ensures var r := Exec(Init(3, 0), run + [WorkerLock, WorkerPop(true, i), WorkerHandOver, WorkerBatchEnd]);
            r.Some? && OneSlot(r.value, [], Top, ps[i := ps[i].(woken := true)])
  {
    hide Exec;
    var s := Init(3, 0);
    var r1 := ThenDo(s, run, WorkerLock);
    var r2 := ThenDo(s, r1, WorkerPop(true, i));
    var r3 := ThenDo(s, r2, WorkerHandOver);
    var r4 := ThenDo(s, r3, WorkerBatchEnd);
    assert r4 == run + [WorkerLock, WorkerPop(true, i), WorkerHandOver, WorkerBatchEnd];
  }

  lemma WakesWithoutMemory(run: seq<Action>, ps: seq<Producer>, i: nat)
    requires Exec(Init(3, 0), run).Some? && OneSlot(Exec(Init(3, 0), run).value, [], Top, ps)
    requires IsWoken(ps, i)
    ensures var r := Exec(Init(3, 0), run + [WakeProducer(i, false)]);
            r.Some? && OneSlot(r.value, [], Top, ps[i := Resting])
  {
    hide Exec;
    var r1 := ThenDo(Init(3, 0), run, WakeProducer(i, false));
  }

  /** One failed allocation is enough: afterwards the queue is empty, the engine runs, and
    * the third producer sleeps although nobody will signal it before the next call. */
  lemma SignalCanBeLost()
    ensures var run := StrandingRun(); var r := Exec(Init(3, 0), run);
            && (forall k :: 0 <= k < |run| ==> SlotsGrow(run[k]) || run[k] == WakeProducer(1, false))
            && r.Some? && r.value.producers == [Resting, Resting, Waiting(LineOfSize(20), false)]
            && r.value.q.lines == [] && r.value.q.running && !r.value.q.stop && r.value.worker.Top?
            && Doomed(r.value) && !exists more :: Completes(3, 0, run, more)
  {
    hide Exec, Completes;
    EngineStarts();
    var r1 := [SwitchToSync(Some(SMALL)), Launch(true), CreateWorker, PublishAsync];
    var p0 := [Resting, Resting, Resting];
    ProducerCalls(r1, 0, LineOfSize(10), [], p0);
    var r2 := r1 + [Dispatch(0, LineOfSize(10)), ReadMode(0), EnterQueue(0, true)];
    ProducerCalls(r2, 1, LineOfSize(300), [LineOfSize(10)], p0);
    var r3 := r2 + [Dispatch(1, LineOfSize(300)), ReadMode(1), EnterQueue(1, true)];
    var p1 := p0[1 := Waiting(LineOfSize(300), false)];
    ProducerCalls(r3, 2, LineOfSize(20), [LineOfSize(10)], p1);
    var r4 := r3 + [Dispatch(2, LineOfSize(20)), ReadMode(2), EnterQueue(2, true)];
    var p2 := p1[2 := Waiting(LineOfSize(20), false)];
    WorkerTakesOne(r4, LineOfSize(10), p2, 1);
    var r5 := r4 + [WorkerLock, WorkerPop(true, 1), WorkerHandOver, WorkerBatchEnd];
    WakesWithoutMemory(r5, p2[1 := p2[1].(woken := true)], 1);
    assert StrandingRun() == r5 + [WakeProducer(1, false)];
    var s := Exec(Init(3, 0), StrandingRun()).value;
    assert s.producers == [Resting, Resting, Waiting(LineOfSize(20), false)];
    assert IsAsleep(s.producers, 2);
    CompletesExactly(3, 0, StrandingRun());
  }
}
