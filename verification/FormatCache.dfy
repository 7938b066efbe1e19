/** The per-thread copy of the format settings in src/hx_clog_core.c.
  *
  * Any number of threads log and change settings. Every access to the settings, the
  * generation counter and a thread's copy is a step of its own, so that all
  * interleavings are covered: a setter writes field by field under `sink_lock`, and
  * `hx_clog_reconfigure` bumps the generation before it rewrites the logger name. The
  * generation is not wrapped.
  */
module FormatCache {
  import opened Common

  /** The settings a record is formatted with; a formatter is just identified. */
  datatype Settings = Settings(pattern: string, mode: FormatMode, formatter: int, name: string)

  datatype Write =
    | WritePattern(pattern: string)
    | WriteMode(mode: FormatMode)
    | WriteFormatter(formatter: int)
    | Bump
    | WriteName(name: string)

  // ---- What the setters write under the lock, in order ----

  function SetPattern(pattern: string): seq<Write> {
    [WritePattern(pattern), WriteMode(PatternMode), Bump]
  }

  function SetMode(mode: FormatMode): seq<Write> {
    [WriteMode(mode), Bump]
  }

  function SetFormatter(formatter: int): seq<Write> {
    [WriteFormatter(formatter), Bump]
  }

  function Reconfigure(s: Settings): seq<Write> {
    [WritePattern(s.pattern), WriteMode(s.mode), WriteFormatter(s.formatter), Bump, WriteName(s.name)]
  }

  ghost predicate IsSetter(job: seq<Write>) {
    || (exists p :: job == SetPattern(p))
    || (exists m :: job == SetMode(m))
    || (exists f :: job == SetFormatter(f))
    || (exists s :: job == Reconfigure(s))
  }

  /** Where a thread is. A log call starts in Enter; `fmt_cache_refresh` is run once or
    * more before the record is formatted in Ready. */
  datatype Pc =
    | Idle
    | Enter
    | WantRead
    | CopyPattern | CopyName | CopyMode | CopyFormatter | CopyGen | Unlock
    | Ready
    | WantWrite(job: seq<Write>)
    | Writing(todo: seq<Write>)

  /** A thread with its copy; `since` is the version that was current when its present
    * log call began. */
  datatype Thread = Thread(pc: Pc, gen: nat, copy: Settings, since: nat)

  /** A formatted record, with the versions current at the start and end of its call. */
  datatype Use = Use(settings: Settings, since: nat, until: nat)

  /** `history` lists what each writer left behind when it released the lock, the last
    * of which is current; `used` lists the formatted records. */
  datatype State = State(
    settings: Settings,
    gen: nat,
    holder: int,
    threads: seq<Thread>,
    history: seq<Settings>,
    used: seq<Use>)

  const FREE := -1

  datatype Action =
    | StartLog(t: nat)
    | StartSet(t: nat, job: seq<Write>)
    | Advance(t: nat)
    | RefreshAgain(t: nat)

  predicate Enabled(s: State, a: Action) {
    && a.t < |s.threads|
    && var pc := s.threads[a.t].pc;
       match a
       case StartLog(_) => pc.Idle?
       case StartSet(_, _) => pc.Idle?
       case RefreshAgain(_) => pc.Ready?
       case Advance(_) =>
         match pc
         case Idle => false
         case WantRead => s.holder == FREE
         case WantWrite(_) => s.holder == FREE
         case _ => true
  }

  function Put(s: State, t: nat, th: Thread): State
    requires t < |s.threads|
  {
    s.(threads := s.threads[t := th])
  }

  function Apply(settings: Settings, w: Write): Settings {
    match w
    case WritePattern(p) => settings.(pattern := p)
    case WriteMode(m) => settings.(mode := m)
    case WriteFormatter(f) => settings.(formatter := f)
    case WriteName(n) => settings.(name := n)
    case Bump => settings
  }

  /** One step of thread `t` on its own path. */
  function AdvanceThread(s: State, t: nat): State
    requires t < |s.threads| && Enabled(s, Advance(t)) && s.history != []
  {
    var th := s.threads[t];
    match th.pc
    case Enter => Put(s, t, th.(pc := if s.gen == th.gen then Ready else WantRead))
    case WantRead => Put(s, t, th.(pc := CopyPattern)).(holder := t)
    case CopyPattern => Put(s, t, th.(pc := CopyName, copy := th.copy.(pattern := s.settings.pattern)))
    case CopyName => Put(s, t, th.(pc := CopyMode, copy := th.copy.(name := s.settings.name)))
    case CopyMode => Put(s, t, th.(pc := CopyFormatter, copy := th.copy.(mode := s.settings.mode)))
    case CopyFormatter => Put(s, t, th.(pc := CopyGen, copy := th.copy.(formatter := s.settings.formatter)))
    case CopyGen => Put(s, t, th.(pc := Unlock, gen := s.gen))
    case Unlock => Put(s, t, th.(pc := Ready)).(holder := FREE)
    case Ready => Put(s, t, th.(pc := Idle)).(used := s.used + [Use(th.copy, th.since, |s.history| - 1)])
    case WantWrite(job) => Put(s, t, th.(pc := Writing(job))).(holder := t)
    case Writing(todo) =>
      if todo == [] then
        Put(s, t, th.(pc := Idle)).(holder := FREE, history := s.history + [s.settings])
      else
        Put(s, t, th.(pc := Writing(todo[1..])))
        .(settings := Apply(s.settings, todo[0]), gen := if todo[0].Bump? then s.gen + 1 else s.gen)
  }

  function Step(s: State, a: Action): State
    requires Enabled(s, a) && s.history != []
  {
    match a
    case StartLog(t) => Put(s, t, s.threads[t].(pc := Enter, since := |s.history| - 1))
    case StartSet(t, job) => Put(s, t, s.threads[t].(pc := WantWrite(job)))
    case Advance(t) => AdvanceThread(s, t)
    case RefreshAgain(t) => Put(s, t, s.threads[t].(pc := Enter))
  }

  ghost predicate Allowed(s: State, a: Action) {
    Enabled(s, a) && s.history != [] && (a.StartSet? ==> IsSetter(a.job))
  }

  // ---- Invariant ----

  predicate InCall(pc: Pc) {
    !pc.Idle? && !pc.WantWrite? && !pc.Writing?
  }

  predicate Copying(pc: Pc) {
    pc.CopyPattern? || pc.CopyName? || pc.CopyMode? || pc.CopyFormatter? || pc.CopyGen? || pc.Unlock?
  }

  predicate NeedsLock(pc: Pc) {
    Copying(pc) || pc.Writing?
  }

  predicate WriterHolds(s: State) {
    0 <= s.holder < |s.threads| && s.threads[s.holder].pc.Writing?
  }

  /** How far a copy has come. */
  predicate CopiedSoFar(th: Thread, now: Settings, gen: nat) {
    && (th.pc.CopyName? || th.pc.CopyMode? || th.pc.CopyFormatter? || th.pc.CopyGen? || th.pc.Unlock?
        ==> th.copy.pattern == now.pattern)
    && (th.pc.CopyMode? || th.pc.CopyFormatter? || th.pc.CopyGen? || th.pc.Unlock? ==> th.copy.name == now.name)
    && (th.pc.CopyFormatter? || th.pc.CopyGen? || th.pc.Unlock? ==> th.copy.mode == now.mode)
    && (th.pc.CopyGen? || th.pc.Unlock? ==> th.copy.formatter == now.formatter)
    && (th.pc.Unlock? ==> th.gen == gen)
  }

  /** Bumps still to come: a writer bumps exactly once. */
  function Bumps(todo: seq<Write>): nat {
    if todo == [] then 0 else (if todo[0].Bump? then 1 else 0) + Bumps(todo[1..])
  }

  /** Version `g` of the settings is what the `g`-th writer left behind. */
  predicate ThreadOk(s: State, t: nat)
    requires t < |s.threads| && s.history != []
  {
    var th := s.threads[t];
    var n := |s.history|;
    && (NeedsLock(th.pc) <==> s.holder == t)
    && th.gen <= n
    && (InCall(th.pc) ==> th.since < n)
    && (!Copying(th.pc) && th.gen > 0 ==> th.copy == s.history[th.gen - 1])
    && (Copying(th.pc) ==> CopiedSoFar(th, s.history[n - 1], n))
    && (Copying(th.pc) && !th.pc.Unlock? ==> th.gen < n)
    && (th.pc.WantRead? ==> th.gen < s.gen)
    && (th.pc.Ready? ==> th.since < th.gen)
    && (th.pc.WantWrite? ==> Bumps(th.pc.job) == 1)
    && (th.pc.Writing? ==> Bumps(th.pc.todo) <= 1 && s.gen == n + 1 - Bumps(th.pc.todo))
  }

  predicate UseOk(s: State, u: Use) {
    exists k :: u.since <= k <= u.until && u.until < |s.history| && u.settings == s.history[k]
  }

  predicate Inv(s: State) {
    && -1 <= s.holder < |s.threads| && s.history != []
    && (!WriterHolds(s) ==> s.settings == s.history[|s.history| - 1] && s.gen == |s.history|)
    && (forall t :: 0 <= t < |s.threads| ==> ThreadOk(s, t))
    && (forall i :: 0 <= i < |s.used| ==> UseOk(s, s.used[i]))
  }

  /** After `ensure_once`: generation 1, and copies that were never filled. */
  predicate Initial(s: State) {
    && s.holder == FREE && s.gen == 1 && s.history == [s.settings] && s.used == []
    && forall t :: 0 <= t < |s.threads| ==> s.threads[t].pc.Idle? && s.threads[t].gen == 0
  }

  lemma BumpsCons(w: Write, rest: seq<Write>)
    ensures Bumps([w] + rest) == (if w.Bump? then 1 else 0) + Bumps(rest)
  {
    assert ([w] + rest)[1..] == rest;
  }

  lemma SettersBumpOnce(job: seq<Write>)
    requires IsSetter(job)
    ensures Bumps(job) == 1
  {
    hide Bumps;
    BumpsOfNothing();
    BumpsCons(Bump, []);
    assert [Bump] + [] == [Bump];
    if p :| job == SetPattern(p) {
      BumpsCons(WriteMode(PatternMode), [Bump]);
      assert job == [WritePattern(p)] + ([WriteMode(PatternMode)] + [Bump]);
      BumpsCons(WritePattern(p), [WriteMode(PatternMode)] + [Bump]);
    } else if m :| job == SetMode(m) {
      assert job == [WriteMode(m)] + [Bump];
      BumpsCons(WriteMode(m), [Bump]);
    } else if f :| job == SetFormatter(f) {
      assert job == [WriteFormatter(f)] + [Bump];
      BumpsCons(WriteFormatter(f), [Bump]);
    } else {
      var s :| job == Reconfigure(s);
      var last := [Bump] + [WriteName(s.name)];
      BumpsCons(WriteName(s.name), []);
      assert [WriteName(s.name)] + [] == [WriteName(s.name)];
      BumpsCons(Bump, [WriteName(s.name)]);
      BumpsCons(WriteFormatter(s.formatter), last);
      BumpsCons(WriteMode(s.mode), [WriteFormatter(s.formatter)] + last);
      BumpsCons(WritePattern(s.pattern), [WriteMode(s.mode)] + ([WriteFormatter(s.formatter)] + last));
      assert job == [WritePattern(s.pattern)] + ([WriteMode(s.mode)] + ([WriteFormatter(s.formatter)] + last));
    }
  }

  lemma BumpsOfNothing()
    ensures Bumps([]) == 0
  {
  }

  /** Threads that neither move nor see anything new stay as they were. */
  lemma OthersStay(s: State, s': State, t: nat)
    requires Inv(s) && t < |s.threads| == |s'.threads| && s'.history != []
    requires s'.history == s.history
    requires forall u :: 0 <= u < |s.threads| && u != t ==> s'.threads[u] == s.threads[u]
    requires s'.holder == s.holder || ((s'.holder == t || s'.holder == FREE) && (s.holder == t || s.holder == FREE))
    requires s'.gen >= s.gen && (s'.gen != s.gen ==> s.holder == t)
    ensures forall u :: 0 <= u < |s.threads| && u != t ==> ThreadOk(s', u)
  {
    hide CopiedSoFar, Bumps;
    forall u | 0 <= u < |s.threads| && u != t ensures ThreadOk(s', u) {
      assert ThreadOk(s, u);
    }
  }

  lemma InvFrom(s': State, t: nat)
    requires t < |s'.threads| && -1 <= s'.holder < |s'.threads| && s'.history != []
    requires !WriterHolds(s') ==> s'.settings == s'.history[|s'.history| - 1] && s'.gen == |s'.history|
    requires forall u :: 0 <= u < |s'.threads| && u != t ==> ThreadOk(s', u)
    requires ThreadOk(s', t)
    requires forall i :: 0 <= i < |s'.used| ==> UseOk(s', s'.used[i])
    ensures Inv(s')
  {
  }

  /** The fast path: an unchanged generation means the copy is the current settings. */
  lemma EnterKeepsInv(s: State, t: nat)
    requires Inv(s) && Enabled(s, Advance(t)) && s.threads[t].pc.Enter?
    ensures Inv(Step(s, Advance(t)))
  {
    hide CopiedSoFar, Bumps;
    var s' := Step(s, Advance(t));
    assert ThreadOk(s, t);
    if WriterHolds(s) {
      assert ThreadOk(s, s.holder);
    }
    OthersStay(s, s', t);
    assert ThreadOk(s', t);
    assert WriterHolds(s') == WriterHolds(s);
    InvFrom(s', t);
  }

  lemma CopyKeepsInv(s: State, t: nat)
    requires Inv(s) && Enabled(s, Advance(t)) && (Copying(s.threads[t].pc) || s.threads[t].pc.WantRead?)
    ensures Inv(Step(s, Advance(t)))
  {
    hide Bumps;
    var s' := Step(s, Advance(t));
    assert ThreadOk(s, t);
    assert !WriterHolds(s);
    OthersStay(s, s', t);
    assert !WriterHolds(s');
    assert ThreadOk(s', t);
    InvFrom(s', t);
  }

  lemma UseKeepsInv(s: State, t: nat)
    requires Inv(s) && Enabled(s, Advance(t)) && s.threads[t].pc.Ready?
    ensures Inv(Step(s, Advance(t)))
  {
    hide CopiedSoFar, Bumps;
    var s' := Step(s, Advance(t));
    assert ThreadOk(s, t);
    OthersStay(s, s', t);
    assert ThreadOk(s', t);
    assert WriterHolds(s') == WriterHolds(s);
    var u := Use(s.threads[t].copy, s.threads[t].since, |s.history| - 1);
    assert UseOk(s', u) by {
      assert u.settings == s'.history[s.threads[t].gen - 1];
    }
    forall i | 0 <= i < |s'.used| ensures UseOk(s', s'.used[i]) {
      if i < |s.used| {
        assert UseOk(s, s.used[i]);
      }
    }
    InvFrom(s', t);
  }

  lemma WriteKeepsInv(s: State, t: nat)
    requires Inv(s) && Enabled(s, Advance(t))
    requires s.threads[t].pc.WantWrite? || (s.threads[t].pc.Writing? && s.threads[t].pc.todo != [])
    ensures Inv(Step(s, Advance(t)))
  {
    hide CopiedSoFar;
    var s' := Step(s, Advance(t));
    assert ThreadOk(s, t);
    OthersStay(s, s', t);
    assert ThreadOk(s', t);
    InvFrom(s', t);
  }

  /** The writer leaves: its settings become current, with a generation of their own. */
  lemma CommitKeepsInv(s: State, t: nat)
    requires Inv(s) && Enabled(s, Advance(t)) && s.threads[t].pc == Writing([])
    ensures Inv(Step(s, Advance(t)))
  {
    hide CopiedSoFar;
    var s' := Step(s, Advance(t));
    assert ThreadOk(s, t);
    assert s.gen == |s.history| + 1;
    forall i | 0 <= i < |s'.used| ensures UseOk(s', s'.used[i]) {
      assert UseOk(s, s.used[i]);
      var k :| s.used[i].since <= k <= s.used[i].until && s.used[i].settings == s.history[k];
      assert s'.history[k] == s.history[k];
    }
    forall u | 0 <= u < |s.threads| ensures ThreadOk(s', u) {
      assert ThreadOk(s, u);
    }
    assert !WriterHolds(s');
  }

  lemma StartKeepsInv(s: State, a: Action)
    requires Inv(s) && Allowed(s, a) && !a.Advance?
    ensures Inv(Step(s, a))
  {
    hide CopiedSoFar, Bumps, IsSetter;
    var s' := Step(s, a);
    assert ThreadOk(s, a.t);
    if a.StartSet? {
      SettersBumpOnce(a.job);
    }
    OthersStay(s, s', a.t);
    assert ThreadOk(s', a.t);
    assert WriterHolds(s') == WriterHolds(s);
    InvFrom(s', a.t);
  }

  lemma StepKeepsInv(s: State, a: Action)
    requires Inv(s) && Allowed(s, a)
    ensures Inv(Step(s, a))
  {
    hide Inv, Step, IsSetter;
    if !a.Advance? {
      StartKeepsInv(s, a);
    } else {
      match s.threads[a.t].pc
      case Enter => EnterKeepsInv(s, a.t);
      case Ready => UseKeepsInv(s, a.t);
      case Writing(todo) => if todo == [] { CommitKeepsInv(s, a.t); } else { WriteKeepsInv(s, a.t); }
      case WantWrite(_) => WriteKeepsInv(s, a.t);
      case _ => CopyKeepsInv(s, a.t);
    }
  }

  // ---- Runs ----

  ghost predicate LegalRun(s: State, run: seq<Action>)
    decreases |run|
  {
    run == [] || (Allowed(s, run[0]) && LegalRun(Step(s, run[0]), run[1..]))
  }

  ghost function Exec(s: State, run: seq<Action>): State
    requires LegalRun(s, run)
    decreases |run|
  {
    if run == [] then s else Exec(Step(s, run[0]), run[1..])
  }

  lemma {:induction false} RunKeepsInv(s: State, run: seq<Action>)
    requires Inv(s) && LegalRun(s, run)
    ensures Inv(Exec(s, run))
    decreases |run|
  {
    hide Inv, AdvanceThread;
    if run != [] {
      StepKeepsInv(s, run[0]);
      RunKeepsInv(Step(s, run[0]), run[1..]);
    }
  }

  lemma InitialInv(s: State)
    requires Initial(s)
    ensures Inv(s)
  {
  }

  /** In every interleaving: while no writer holds the lock, a copy with the present
    * generation is the present settings, also in the middle of a refresh. */
  lemma CopiesAreCurrent(s: State, run: seq<Action>, t: nat)
    requires Initial(s) && LegalRun(s, run)
    ensures var r := Exec(s, run);
            t < |r.threads| && !WriterHolds(r) && r.threads[t].gen == r.gen
            ==> r.threads[t].copy == r.settings
  {
    hide Step, LegalRun, Exec;
    InitialInv(s);
    RunKeepsInv(s, run);
    var r := Exec(s, run);
    if t < |r.threads| {
      assert ThreadOk(r, t);
    }
  }

  /** In every interleaving, each record is formatted with settings that one writer left
    * behind as a whole, and that were current at some moment between the start and
    * the end of that record's call. */
  lemma RecordsUseCurrentSettings(s: State, run: seq<Action>, i: nat) returns (k: nat)
    requires Initial(s) && LegalRun(s, run) && i < |Exec(s, run).used|
    ensures var r, u := Exec(s, run), Exec(s, run).used[i];
            u.since <= k <= u.until && u.until < |r.history| && u.settings == r.history[k]
  {
    hide Step, LegalRun, Exec;
    InitialInv(s);
    RunKeepsInv(s, run);
    var r, u := Exec(s, run), Exec(s, run).used[i];
    assert UseOk(r, u);
    k :| u.since <= k <= u.until && u.until < |r.history| && u.settings == r.history[k];
  }

  // ---- What the setters leave behind ----

  function ApplyAll(settings: Settings, job: seq<Write>): Settings
    decreases |job|
  {
    if job == [] then settings else ApplyAll(Apply(settings, job[0]), job[1..])
  }

  lemma ApplyCons(settings: Settings, w: Write, rest: seq<Write>)
    ensures ApplyAll(settings, [w] + rest) == ApplyAll(Apply(settings, w), rest)
  {
    assert ([w] + rest)[1..] == rest;
  }

  lemma ApplyNothing(settings: Settings)
    ensures ApplyAll(settings, []) == settings
  {
  }

  /** A pattern brings pattern mode with it, the mode and the formatter change alone, and a
    * reconfiguration replaces all four settings. */
  lemma SettersDo(s: Settings, p: string, m: FormatMode, f: int, t: Settings)
    ensures ApplyAll(s, SetPattern(p)) == Settings(p, PatternMode, s.formatter, s.name)
    ensures ApplyAll(s, SetMode(m)) == Settings(s.pattern, m, s.formatter, s.name)
    ensures ApplyAll(s, SetFormatter(f)) == Settings(s.pattern, s.mode, f, s.name)
    ensures ApplyAll(s, Reconfigure(t)) == t
  {
    hide ApplyAll;
    PatternDoes(s, p);
    ModeDoes(s, m);
    ReconfigureDoes(s, t);
    ApplyCons(s, WriteFormatter(f), [Bump]);
    BumpDoesNothing(s.(formatter := f));
    assert [WriteFormatter(f)] + [Bump] == SetFormatter(f);
  }

  lemma BumpDoesNothing(s: Settings)
    ensures ApplyAll(s, [Bump]) == s
  {
    ApplyCons(s, Bump, []);
    assert [Bump] + [] == [Bump];
  }

  lemma PatternDoes(s: Settings, p: string)
    ensures ApplyAll(s, SetPattern(p)) == s.(pattern := p, mode := PatternMode)
  {
    hide ApplyAll;
    var rest := [WriteMode(PatternMode)] + [Bump];
    ApplyCons(s, WritePattern(p), rest);
    ApplyCons(s.(pattern := p), WriteMode(PatternMode), [Bump]);
    BumpDoesNothing(s.(pattern := p, mode := PatternMode));
    assert [WritePattern(p)] + rest == SetPattern(p);
  }

  lemma ModeDoes(s: Settings, m: FormatMode)
    ensures ApplyAll(s, SetMode(m)) == s.(mode := m)
  {
    hide ApplyAll;
    ApplyCons(s, WriteMode(m), [Bump]);
    BumpDoesNothing(s.(mode := m));
    assert [WriteMode(m)] + [Bump] == SetMode(m);
  }

  lemma ReconfigureDoes(s: Settings, t: Settings)
    ensures ApplyAll(s, Reconfigure(t)) == t
  {
    hide ApplyAll;
    var name := [WriteName(t.name)];
    var bump := [Bump] + name;
    var formatter := [WriteFormatter(t.formatter)] + bump;
    var mode := [WriteMode(t.mode)] + formatter;
    var s1 := s.(pattern := t.pattern);
    var s2 := s1.(mode := t.mode);
    var s3 := s2.(formatter := t.formatter);
    ApplyCons(s, WritePattern(t.pattern), mode);
    ApplyCons(s1, WriteMode(t.mode), formatter);
    ApplyCons(s2, WriteFormatter(t.formatter), bump);
    ApplyCons(s3, Bump, name);
    ApplyCons(s3, WriteName(t.name), []);
    ApplyNothing(t);
    assert name + [] == name;
    assert [WritePattern(t.pattern)] + mode == Reconfigure(t);
  }

  /** How often thread `t` moves on its own path in a run. */
  function Advances(run: seq<Action>, t: nat): nat {
    if run == [] then 0 else (if run[0] == Advance(t) then 1 else 0) + Advances(run[1..], t)
  }

  /** Only the writer that holds the lock changes the settings and the history. */
  lemma WriterStep(s: State, a: Action, t: nat, todo: seq<Write>)
    requires Inv(s) && Allowed(s, a) && t < |s.threads| && s.threads[t].pc == Writing(todo)
    requires a == Advance(t) ==> todo != []
    ensures var s' := Step(s, a);
            var rest := if a == Advance(t) then todo[1..] else todo;
            && |s'.threads| == |s.threads| && s'.threads[t].pc == Writing(rest)
            && s'.history == s.history && ApplyAll(s'.settings, rest) == ApplyAll(s.settings, todo)
  {
    hide CopiedSoFar, Bumps, IsSetter;
    assert ThreadOk(s, t) && ThreadOk(s, a.t);
  }

  lemma {:induction false} WriterRuns(s: State, t: nat, todo: seq<Write>, run: seq<Action>)
    requires Inv(s) && LegalRun(s, run) && t < |s.threads| && s.threads[t].pc == Writing(todo)
    requires Advances(run, t) <= |todo|
    ensures var r := Exec(s, run);
            var rest := todo[Advances(run, t)..];
            && t < |r.threads| && r.threads[t].pc == Writing(rest) && r.history == s.history
            && ApplyAll(r.settings, rest) == ApplyAll(s.settings, todo)
    decreases |run|
  {
    hide Inv, ApplyAll, Step;
    if run == [] {
      assert todo[0..] == todo;
    } else {
      var rest := if run[0] == Advance(t) then todo[1..] else todo;
      WriterStep(s, run[0], t, todo);
      StepKeepsInv(s, run[0]);
      WriterRuns(Step(s, run[0]), t, rest, run[1..]);
      if run[0] == Advance(t) {
        assert todo[1..][Advances(run[1..], t)..] == todo[Advances(run, t)..];
      }
    }
  }

  /** A setter that has the lock leaves behind exactly what its writes make of the settings
    * it found, whatever the other threads do meanwhile: the step in which it lets go of the
    * lock adds these settings to the history, and nobody else adds anything before. */
  lemma WriterLeaves(s: State, t: nat, job: seq<Write>, run: seq<Action>)
    requires Inv(s) && Enabled(s, Advance(t)) && s.threads[t].pc == WantWrite(job)
    requires LegalRun(Step(s, Advance(t)), run) && Advances(run, t) == |job|
    ensures var r := Exec(Step(s, Advance(t)), run);
            && r.history == s.history && Enabled(r, Advance(t))
            && Step(r, Advance(t)).history == s.history + [ApplyAll(s.history[|s.history| - 1], job)]
  {
    hide Inv, ApplyAll, LegalRun, Exec, AdvanceThread, Bumps;
    TakesTheLock(s, t, job);
    var s1 := Step(s, Advance(t));
    var r := Exec(s1, run);
    StepKeepsInv(s, Advance(t));
    WriterRuns(s1, t, job, run);
    assert job[|job|..] == [];
    ApplyNothing(r.settings);
    LetsGo(r, t);
  }

  lemma TakesTheLock(s: State, t: nat, job: seq<Write>)
    requires Inv(s) && t < |s.threads| && s.threads[t].pc == WantWrite(job) && Enabled(s, Advance(t))
    ensures s.history != []
    ensures var s' := Step(s, Advance(t));
            && |s'.threads| == |s.threads| && s'.threads[t].pc == Writing(job) && s'.history == s.history
            && s'.settings == s.history[|s.history| - 1]
  {
  }

  lemma LetsGo(r: State, t: nat)
    requires t < |r.threads| && r.threads[t].pc == Writing([]) && r.history != []
    ensures Enabled(r, Advance(t)) && Step(r, Advance(t)).history == r.history + [r.settings]
  {
  }
}
