/** Duplicate suppression in src/hx_clog_core.c: a windowed run-length code of the
  * sequence of messages. Calls are sequential here. */
module DuplicateFold {
  import opened Common

  datatype Msg = Msg(level: int, line: int, logger: string, file: string, text: string)

  /** The part of a C string before its terminator. */
  function CPrefix(s: string): (r: string)
    ensures |r| <= |s| && r == s[..|r|]
    ensures NUL !in r
    ensures |r| == |s| || s[|r|] == NUL
  {
    if s == "" || s[0] == NUL then "" else [s[0]] + CPrefix(s[1..])
  }

  /** What duplicates have in common. The text counts up to its first NUL and 255 bytes,
    * and with its full length. */
  datatype Key = Key(level: int, line: int, length: nat, logger: string, file: string, text: string)

  function KeyOf(m: Msg): Key {
    Key(m.level, m.line, |m.text|, CPrefix(Take(m.logger, 127)), CPrefix(Take(m.file, 255)),
        CPrefix(Take(m.text, 255)))
  }

  /** The byte of a terminated string that a comparison sees. */
  function ByteAt(s: string, i: nat): char {
    if i < |s| then s[i] else NUL
  }

  /** `strncmp(a, b, n) == 0`: no difference in the first `n` bytes, up to the first NUL. */
  predicate SameString(a: string, b: string, n: nat) {
    forall i :: 0 <= i < n && (forall j :: 0 <= j < i ==> ByteAt(a, j) != NUL) ==> ByteAt(a, i) == ByteAt(b, i)
  }

  lemma PrefixBytes(s: string, n: nat)
    ensures var p := CPrefix(Take(s, n));
            && |p| <= n && (|p| < n ==> ByteAt(s, |p|) == NUL)
            && forall i :: 0 <= i < |p| ==> p[i] == ByteAt(s, i) && p[i] != NUL
  {
    var p := CPrefix(Take(s, n));
    forall i | 0 <= i < |p| ensures p[i] == ByteAt(s, i) && p[i] != NUL {
      assert p[i] in p;
    }
  }

  /** The bounded comparison is equality of the parts before the first NUL. */
  lemma SameStringIsPrefix(a: string, b: string, n: nat)
    ensures SameString(a, b, n) <==> CPrefix(Take(a, n)) == CPrefix(Take(b, n))
  {
    hide CPrefix, Take, ByteAt;
    PrefixBytes(a, n);
    PrefixBytes(b, n);
    var p, q := CPrefix(Take(a, n)), CPrefix(Take(b, n));
    if SameString(a, b, n) {
      SameUpTo(a, b, n);
    }
    if p == q {
      forall i | 0 <= i < n && (forall j :: 0 <= j < i ==> ByteAt(a, j) != NUL)
        ensures ByteAt(a, i) == ByteAt(b, i)
      {
        assert i <= |p|;
      }
    }
  }

  lemma SameUpTo(a: string, b: string, n: nat)
    requires SameString(a, b, n)
    ensures CPrefix(Take(a, n)) == CPrefix(Take(b, n))
  {
    hide CPrefix, Take, ByteAt;
    PrefixBytes(a, n);
    PrefixBytes(b, n);
    var p, q := CPrefix(Take(a, n)), CPrefix(Take(b, n));
    assert forall i :: 0 <= i < |p| ==> ByteAt(b, i) == p[i];
    assert |q| >= |p|;
    assert |p| < n ==> ByteAt(b, |p|) == NUL;
    assert |p| == |q|;
  }

  /** Duplicates agree in level, line, the length of the text, and the strings as far as
    * they are compared; the key holds exactly these fields. */
  lemma KeyOfExactly(m: Msg, n: Msg)
    ensures KeyOf(m) == KeyOf(n)
            <==> && m.level == n.level && m.line == n.line && |m.text| == |n.text|
                 && SameString(m.logger, n.logger, 127) && SameString(m.file, n.file, 255)
                 && SameString(m.text, n.text, 255)
    ensures KeyOf(m).level == m.level && KeyOf(m).line == m.line && KeyOf(m).length == |m.text|
    ensures KeyOf(m).logger == CPrefix(Take(m.logger, 127)) && KeyOf(m).file == CPrefix(Take(m.file, 255))
    ensures KeyOf(m).text == CPrefix(Take(m.text, 255))
  {
    hide CPrefix, Take, SameString;
    SameStringIsPrefix(m.logger, n.logger, 127);
    SameStringIsPrefix(m.file, n.file, 255);
    SameStringIsPrefix(m.text, n.text, 255);
  }

  /** What goes on to the sinks: a message, or "last message repeated `count` times". */
  datatype Out = Line(key: Key) | Summary(count: nat, level: int, logger: string)

  // ---- The fold as a function ----

  datatype Fold = Fold(enabled: bool, window: nat, haveLast: bool, last: Key, repeats: nat, lastMs: int)

  datatype Op = Log(msg: Msg, now: int) | Flush | SetSuppression(enable: bool, window: nat)

  predicate Repeats(f: Fold, key: Key, now: int) {
    f.haveLast && f.last == key && now - f.lastMs <= f.window
  }

  function SummaryOf(f: Fold): seq<Out> {
    if f.repeats > 0 then [Summary(f.repeats, f.last.level, f.last.logger)] else []
  }

  function Check(f: Fold, key: Key, now: int): (Fold, seq<Out>) {
    if !f.enabled then (f, [Line(key)])
    else if Repeats(f, key, now) then (f.(repeats := f.repeats + 1, lastMs := now), [])
    else (f.(repeats := 0, haveLast := true, last := key, lastMs := now), SummaryOf(f) + [Line(key)])
  }

  function FlushPending(f: Fold): (Fold, seq<Out>) {
    if f.repeats > 0 then (f.(repeats := 0, haveLast := false), SummaryOf(f)) else (f, [])
  }

  function Set(f: Fold, enable: bool, window: nat): (Fold, seq<Out>) {
    var (g, outs) := if enable then (f, []) else FlushPending(f);
    var h := g.(enabled := enable, window := if window > 0 then window else 1000);
    (if enable then h else h.(haveLast := false, repeats := 0), outs)
  }

  function Step(f: Fold, op: Op): (Fold, seq<Out>) {
    match op
    case Log(m, now) => Check(f, KeyOf(m), now)
    case Flush => FlushPending(f)
    case SetSuppression(enable, window) => Set(f, enable, window)
  }

  function Exec(f: Fold, ops: seq<Op>): (Fold, seq<Out>) {
    if ops == [] then (f, [])
    else
      var n := |ops| - 1;
      var (g, outs) := Exec(f, ops[..n]);
      var (h, more) := Step(g, ops[n]);
      (h, outs + more)
  }

  // ---- Decoding ----

  function Copies(key: Key, n: nat): (r: seq<Key>)
    ensures |r| == n
  {
    seq(n, i => key)
  }

  /** Replace each summary by copies of what precedes it. */
  function Expand(outs: seq<Out>): (keys: seq<Key>)
    ensures outs != [] && outs[|outs| - 1].Line? ==> keys != [] && keys[|keys| - 1] == outs[|outs| - 1].key
  {
    if outs == [] then []
    else
      var n := |outs| - 1;
      var front := Expand(outs[..n]);
      match outs[n]
      case Line(key) => front + [key]
      case Summary(count, _, _) => if front == [] then [] else front + Copies(front[|front| - 1], count)
  }

  function Inputs(ops: seq<Op>): seq<Key> {
    if ops == [] then []
    else
      var n := |ops| - 1;
      Inputs(ops[..n]) + (if ops[n].Log? then [KeyOf(ops[n].msg)] else [])
  }

  /** Each summary directly follows the line of its own run and carries that line's level
    * and logger. */
  predicate WellLabelled(outs: seq<Out>) {
    forall i :: 0 <= i < |outs| && outs[i].Summary? ==>
                  && outs[i].count > 0 && i > 0 && outs[i - 1].Line?
                  && outs[i].level == outs[i - 1].key.level && outs[i].logger == outs[i - 1].key.logger
  }

  /** An open run is the run of the last line that went out. */
  predicate Good(f: Fold, outs: seq<Out>) {
    && (!f.enabled ==> !f.haveLast)
    && (!f.haveLast ==> f.repeats == 0)
    && (f.haveLast ==> outs != [] && outs[|outs| - 1] == Line(f.last))
    && WellLabelled(outs)
  }

  /** Nothing pending: the module's start, or suppression switched off. */
  predicate Fresh(f: Fold) {
    !f.haveLast && f.repeats == 0
  }

  lemma {:induction false} ExpandSummary(outs: seq<Out>, f: Fold)
    requires outs != [] && outs[|outs| - 1] == Line(f.last)
    ensures Expand(outs + SummaryOf(f)) == Expand(outs) + Copies(f.last, f.repeats)
    ensures WellLabelled(outs) ==> WellLabelled(outs + SummaryOf(f))
  {
    if f.repeats > 0 {
      var more := outs + SummaryOf(f);
      assert more[..|outs|] == outs;
    } else {
      assert outs + [] == outs && Copies(f.last, 0) == [];
      assert Expand(outs) + [] == Expand(outs);
    }
  }

  lemma {:induction false} ExpandLine(outs: seq<Out>, key: Key)
    ensures Expand(outs + [Line(key)]) == Expand(outs) + [key]
    ensures WellLabelled(outs) ==> WellLabelled(outs + [Line(key)])
  {
    assert (outs + [Line(key)])[..|outs|] == outs;
  }

  lemma {:induction false} CopiesMore(key: Key, n: nat)
    ensures Copies(key, n) + [key] == Copies(key, n + 1)
    ensures Copies(key, 0) == []
  {
  }

  lemma {:induction false} FlushKeeps(f: Fold, outs: seq<Out>)
    requires Good(f, outs)
    ensures var (g, more) := FlushPending(f);
            && Good(g, outs + more)
            && Expand(outs + more) + Copies(g.last, g.repeats) == Expand(outs) + Copies(f.last, f.repeats)
  {
    hide Expand, Copies, WellLabelled;
    CopiesMore(f.last, 0);
    if f.repeats > 0 {
      ExpandSummary(outs, f);
    } else {
      assert outs + [] == outs;
    }
    assert Expand(outs + SummaryOf(f)) + [] == Expand(outs + SummaryOf(f));
  }

  lemma {:induction false} CheckKeeps(f: Fold, outs: seq<Out>, key: Key, now: int)
    requires Good(f, outs)
    ensures var (g, more) := Check(f, key, now);
            && Good(g, outs + more)
            && Expand(outs + more) + Copies(g.last, g.repeats) == Expand(outs) + Copies(f.last, f.repeats) + [key]
  {
    hide Expand, Copies, WellLabelled;
    CopiesMore(f.last, f.repeats);
    CopiesMore(f.last, 0);
    CopiesMore(key, 0);
    assert outs + [] == outs && Expand(outs) + [] == Expand(outs);
    if !f.enabled {
      ExpandLine(outs, key);
      assert Expand(outs) + [key] + [] == Expand(outs) + [key];
    } else if Repeats(f, key, now) {
      assert Expand(outs) + (Copies(f.last, f.repeats) + [key]) == Expand(outs) + Copies(f.last, f.repeats) + [key];
    } else {
      if f.haveLast {
        ExpandSummary(outs, f);
      }
      var flushed := outs + SummaryOf(f);
      ExpandLine(flushed, key);
      assert flushed + [Line(key)] == outs + (SummaryOf(f) + [Line(key)]);
      assert Expand(flushed) + [key] + [] == Expand(flushed) + [key];
    }
  }

  /** The code is lossless. Over any sequence of messages, flushes and switches of the
    * suppression: expanding the output and appending the pending repeats gives back the
    * keys of all messages, and every summary is labelled with its own run. */
  lemma {:induction false} FoldIsLossless(f: Fold, ops: seq<Op>)
    requires Fresh(f)
    ensures var (g, outs) := Exec(f, ops);
            && Expand(outs) + Copies(g.last, g.repeats) == Inputs(ops)
            && WellLabelled(outs) && Good(g, outs)
  {
    hide Expand, Copies, WellLabelled, Step, Good;
    if ops == [] {
      NothingYet(f);
    } else {
      var n := |ops| - 1;
      FoldIsLossless(f, ops[..n]);
      var (g, outs) := Exec(f, ops[..n]);
      StepKeeps(g, outs, ops[n]);
      GoodLabels(Step(g, ops[n]).0, outs + Step(g, ops[n]).1);
    }
  }

  lemma NothingYet(f: Fold)
    requires Fresh(f)
    ensures Good(f, []) && Expand([]) + Copies(f.last, f.repeats) == []
  {
    assert Copies(f.last, 0) == [];
  }

  lemma GoodLabels(f: Fold, outs: seq<Out>)
    requires Good(f, outs)
    ensures WellLabelled(outs)
  {
  }

  lemma {:induction false} StepKeeps(f: Fold, outs: seq<Out>, op: Op)
    requires Good(f, outs)
    ensures var (g, more) := Step(f, op);
            && Good(g, outs + more)
            && Expand(outs + more) + Copies(g.last, g.repeats)
               == Expand(outs) + Copies(f.last, f.repeats) + (if op.Log? then [KeyOf(op.msg)] else [])
  {
    hide Expand, Copies, WellLabelled, Good, Check, FlushPending, Set, KeyOf;
    var all := Expand(outs) + Copies(f.last, f.repeats);
    assert all + [] == all;
    match op
    case Log(m, now) => CheckKeeps(f, outs, KeyOf(m), now);
    case Flush => FlushKeeps(f, outs);
    case SetSuppression(enable, window) => SetKeeps(f, outs, enable, window);
  }

  lemma {:induction false} SetKeeps(f: Fold, outs: seq<Out>, enable: bool, window: nat)
    requires Good(f, outs)
    ensures var (g, more) := Set(f, enable, window);
            && Good(g, outs + more)
            && Expand(outs + more) + Copies(g.last, g.repeats) == Expand(outs) + Copies(f.last, f.repeats)
  {
    hide Expand, WellLabelled;
    FlushKeeps(f, outs);
    assert outs + [] == outs;
  }

  /** Which messages are dropped, without the state: while suppression stays on and
    * nothing is flushed, message `i` is dropped exactly when the message before it has
    * the same key and is at most `window` older. */
  lemma {:induction false} DroppedExactly(f: Fold, ops: seq<Op>, i: nat)
    requires Fresh(f) && f.enabled && 0 <= i < |ops|
    requires forall k :: 0 <= k <= i ==> ops[k].Log?
    ensures Step(Exec(f, ops[..i]).0, ops[i]).1 == []
            <==> i > 0 && ops[i].now - ops[i - 1].now <= f.window
                 && var m, n := ops[i].msg, ops[i - 1].msg;
                    && m.level == n.level && m.line == n.line && |m.text| == |n.text|
                    && SameString(m.logger, n.logger, 127) && SameString(m.file, n.file, 255)
                    && SameString(m.text, n.text, 255)
  {
    hide KeyOf, SameString;
    RemembersLast(f, ops[..i]);
    if i > 0 {
      KeyOfExactly(ops[i].msg, ops[i - 1].msg);
    }
  }

  /** After a flush nothing is pending, and what went out stands for all messages. */
  lemma {:induction false} FlushSettles(f: Fold, ops: seq<Op>)
    requires Fresh(f)
    ensures var (g, outs) := Exec(f, ops + [Flush]);
            g.repeats == 0 && Expand(outs) == Inputs(ops)
  {
    hide Expand, Copies, WellLabelled;
    var all := ops + [Flush];
    assert all[..|ops|] == ops;
    FoldIsLossless(f, all);
    CopiesMore(Exec(f, all).0.last, 0);
    assert Inputs(ops) + [] == Inputs(ops);
    var outs := Exec(f, all).1;
    assert Expand(outs) + [] == Expand(outs);
  }

  lemma {:induction false} RemembersLast(f: Fold, ops: seq<Op>)
    requires Fresh(f) && f.enabled
    requires forall k :: 0 <= k < |ops| ==> ops[k].Log?
    ensures var g := Exec(f, ops).0;
            && g.enabled && g.window == f.window && (g.haveLast <==> ops != [])
            && (ops != [] ==> g.last == KeyOf(ops[|ops| - 1].msg) && g.lastMs == ops[|ops| - 1].now)
  {
    if ops != [] {
      RemembersLast(f, ops[..|ops| - 1]);
    }
  }

  // ---- The code ----

  /** `strncmp(a, b, n) == 0` on terminated strings. */
  method StrnEqual(a: string, b: string, n: nat) returns (eq: bool)
    ensures eq <==> SameString(a, b, n)
  {
    hide SameString, CPrefix, Take;
    SameStringIsPrefix(a, b, n);
    eq := PrefixesEqual(a, b, n);
  }

  /** The loop of `strncmp`. */
  method PrefixesEqual(a: string, b: string, n: nat) returns (eq: bool)
    ensures eq <==> CPrefix(Take(a, n)) == CPrefix(Take(b, n))
  {
    var i := 0;
    while i < n
      invariant 0 <= i <= n && i <= |a| && i <= |b|
      invariant a[..i] == b[..i] && NUL !in a[..i]
    {
      var x := if i < |a| then a[i] else NUL;
      var y := if i < |b| then b[i] else NUL;
      StoppedAt(a, b, n, i);
      if x != y {
        return false;
      }
      if x == NUL {
        return true;
      }
      i := i + 1;
    }
    assert Take(a, n) == a[..n] && Take(b, n) == b[..n];
    return true;
  }

  lemma {:induction false} StoppedAt(a: string, b: string, n: nat, i: nat)
    requires i < n && i <= |a| && i <= |b| && a[..i] == b[..i] && NUL !in a[..i]
    ensures var x := if i < |a| then a[i] else NUL;
            var y := if i < |b| then b[i] else NUL;
            && (x != y ==> CPrefix(Take(a, n)) != CPrefix(Take(b, n)))
            && (x == y == NUL ==> CPrefix(Take(a, n)) == CPrefix(Take(b, n)))
  {
    CPrefixAt(a, n, i);
    CPrefixAt(b, n, i);
  }

  lemma {:induction false} CPrefixAt(a: string, n: nat, i: nat)
    requires i < n && i <= |a| && NUL !in a[..i]
    ensures var p := CPrefix(Take(a, n));
            && |p| >= i && p[..i] == a[..i]
            && (i == |a| || a[i] == NUL ==> p == a[..i])
            && (i < |a| && a[i] != NUL ==> |p| > i && p[i] == a[i])
  {
    var t := Take(a, n);
    var p := CPrefix(t);
    assert forall k :: 0 <= k < i ==> t[k] == a[..i][k];
  }

  lemma {:induction false} CPrefixWhole(s: string)
    requires NUL !in s
    ensures CPrefix(s) == s
  {
    if s != "" {
      CPrefixWhole(s[1..]);
    }
  }

  lemma TakeWhole(s: string, n: nat)
    requires |s| <= n
    ensures Take(s, n) == s
  {
  }

  /** What the comparisons with the stored fields decide: whether the key is the same. The
    * program compares only as many bytes of the text as are stored. */
  lemma StoredKey(level: int, line: int, logger: string, file: string, text: string, length: nat, m: Msg)
    requires |logger| <= 127 && |file| <= 255 && NUL !in logger && NUL !in file
    requires |text| == (if length < 255 then length else 255)
    ensures var klen := if |m.text| < 255 then |m.text| else 255;
            var fields := level == m.level && line == m.line && length == |m.text|
                          && SameString(logger, m.logger, 127) && SameString(file, m.file, 255);
            && (fields && SameString(text, m.text, 255) <==>
                Key(level, line, length, logger, file, CPrefix(text)) == KeyOf(m))
            && (length == |m.text| ==> (SameString(text, m.text, klen) <==> SameString(text, m.text, 255)))
  {
    hide CPrefix, Take, SameString;
    CPrefixWhole(logger);
    CPrefixWhole(file);
    TakeWhole(logger, 127);
    TakeWhole(file, 255);
    TakeWhole(text, 255);
    SameStringIsPrefix(logger, m.logger, 127);
    SameStringIsPrefix(file, m.file, 255);
    SameStringIsPrefix(text, m.text, 255);
    if length == |m.text| < 255 {
      TakeWhole(m.text, |m.text|);
      TakeWhole(m.text, 255);
      TakeWhole(text, |m.text|);
      SameStringIsPrefix(text, m.text, |m.text|);
    }
  }

  lemma Disabled(f: Fold, outs: seq<Out>)
    requires Good(f, outs)
    ensures !f.enabled ==> f.repeats == 0
  {
  }

  lemma TakenIsShort(s: string, n: nat)
    ensures |CPrefix(Take(s, n))| <= n && NUL !in CPrefix(Take(s, n))
    ensures |Take(s, n)| == if |s| < n then |s| else n
  {
  }

  class DupState {
    var enabled: bool
    var windowMs: nat
    var haveLast: bool
    var lastLevel: int
    var lastLine: int
    var lastLogger: string
    var lastFile: string
    var lastMsg: string
    var lastMsgLen: nat
    var repeats: nat
    var lastMs: int
    var out: seq<Out>

    ghost predicate Valid()
      reads this
    {
      && |lastLogger| <= 127 && |lastFile| <= 255
      && |lastMsg| == (if lastMsgLen < 255 then lastMsgLen else 255)
      && NUL !in lastLogger && NUL !in lastFile
      && Good(State(), out)
    }

    ghost function State(): Fold
      reads this
    {
      Fold(enabled, windowMs, haveLast,
           Key(lastLevel, lastLine, lastMsgLen, lastLogger, lastFile, CPrefix(lastMsg)),
           repeats, lastMs)
    }

    constructor ()
      ensures Valid() && Fresh(State()) && !enabled && out == []
    {
      enabled, windowMs, haveLast, repeats, lastMs := false, 0, false, 0, 0;
      lastLevel, lastLine, lastLogger, lastFile, lastMsg, lastMsgLen := 0, 0, "", "", "", 0;
      out := [];
    }

    /** `core_dispatch_record`, as far as it matters here: the record goes out, and a
      * FATAL one flushes. */
    method Dispatch(o: Out)
      requires repeats == 0
      modifies `out, `repeats, `haveLast
      ensures out == old(out) + [o] && repeats == 0 && haveLast == old(haveLast)
      decreases repeats, 1
    {
      out := out + [o];
      var level := if o.Line? then o.key.level else o.level;
      if level >= FATAL {
        FlushRepeats();
      }
    }

    /** `dup_flush_pending`. */
    method FlushRepeats()
      modifies `out, `repeats, `haveLast
      ensures State() == FlushPending(old(State())).0
      ensures out == old(out) + FlushPending(old(State())).1
      ensures old(Valid()) ==> Valid()
      ensures out == old(out) + (if old(repeats) > 0 then [Summary(old(repeats), lastLevel, lastLogger)] else [])
      ensures repeats == 0 && haveLast == (old(haveLast) && old(repeats) == 0)
      decreases repeats, 0
    {
      hide Good, CPrefix;
      if Good(State(), out) {
        FlushKeeps(State(), out);
      }
      if repeats > 0 {
        var count, level, logger := repeats, lastLevel, lastLogger;
        repeats, haveLast := 0, false;
        Dispatch(Summary(count, level, logger));
      }
    }

    /** Start a new run with `m`. */
    method Remember(m: Msg, now: int)
      modifies this
      ensures State() == old(State()).(repeats := 0, haveLast := true, last := KeyOf(m), lastMs := now)
      ensures out == old(out)
      ensures |lastLogger| <= 127 && |lastFile| <= 255 && NUL !in lastLogger && NUL !in lastFile
      ensures |lastMsg| == (if lastMsgLen < 255 then lastMsgLen else 255)
    {
      hide Take, CPrefix, Good;
      TakenIsShort(m.logger, 127);
      TakenIsShort(m.file, 255);
      TakenIsShort(m.text, 255);
      repeats, haveLast := 0, true;
      lastLevel, lastLine := m.level, m.line;
      lastLogger := CPrefix(Take(m.logger, 127));
      lastFile := CPrefix(Take(m.file, 255));
      lastMsg, lastMsgLen := Take(m.text, 255), |m.text|;
      lastMs := now;
    }

    /** `dup_check_and_update`. */
    method CheckAndUpdate(m: Msg, now: int) returns (suppressed: bool)
      requires Valid()
      modifies this
      ensures State() == Check(old(State()), KeyOf(m), now).0
      ensures suppressed <==> Check(old(State()), KeyOf(m), now).1 == []
      ensures if suppressed then out == old(out)
              else out + [Line(KeyOf(m))] == old(out) + Check(old(State()), KeyOf(m), now).1
      ensures |lastLogger| <= 127 && |lastFile| <= 255 && NUL !in lastLogger && NUL !in lastFile
      ensures |lastMsg| == (if lastMsgLen < 255 then lastMsgLen else 255)
      ensures !suppressed ==> repeats == 0
      ensures suppressed <==>
                && old(enabled && haveLast) && old(lastLevel) == m.level && old(lastLine) == m.line
                && old(lastMsgLen) == |m.text| && SameString(old(lastLogger), m.logger, 127)
                && SameString(old(lastFile), m.file, 255) && SameString(old(lastMsg), m.text, 255)
                && now - old(lastMs) <= windowMs
    {
      hide Take, CPrefix, Good, SameString, KeyOf;
      StoredKey(lastLevel, lastLine, lastLogger, lastFile, lastMsg, lastMsgLen, m);
      Disabled(State(), out);
      var klen := if |m.text| < 255 then |m.text| else 255;
      if !enabled {
        return false;
      }
      var sameLogger := StrnEqual(lastLogger, m.logger, 127);
      var sameFile := StrnEqual(lastFile, m.file, 255);
      var sameText := StrnEqual(lastMsg, m.text, klen);
      if haveLast && lastLevel == m.level && lastLine == m.line && lastMsgLen == |m.text|
         && sameLogger && sameFile && sameText && now - lastMs <= windowMs {
        repeats := repeats + 1;
        lastMs := now;
        return true;
      }
      var count, level, logger := repeats, lastLevel, lastLogger;
      Remember(m, now);
      if count > 0 {
        Dispatch(Summary(count, level, logger));
      }
      suppressed := false;
    }

    /** `core_writev` after the level filter: fold the message or send it on. */
    method Write(m: Msg, now: int)
      requires Valid()
      modifies this
      ensures Valid()
      ensures State() == Step(old(State()), Log(m, now)).0
      ensures out == old(out) + Step(old(State()), Log(m, now)).1
      ensures enabled == old(enabled) && windowMs == old(windowMs)
      ensures out == old(out) <==>
                && old(enabled && haveLast) && old(lastLevel) == m.level && old(lastLine) == m.line
                && old(lastMsgLen) == |m.text| && SameString(old(lastLogger), m.logger, 127)
                && SameString(old(lastFile), m.file, 255) && SameString(old(lastMsg), m.text, 255)
                && now - old(lastMs) <= windowMs
      ensures out == old(out) ==> repeats == old(repeats) + 1 && lastMs == now
      ensures out != old(out) ==>
                var pending := if old(enabled && repeats > 0)
                               then [Summary(old(repeats), old(lastLevel), old(lastLogger))]
                               else [];
                out == old(out) + pending + [Line(KeyOf(m))]
    {
      hide KeyOf, Good, SameString;
      CheckKeeps(State(), out, KeyOf(m), now);
      Disabled(State(), out);
      assert out + [] == out;
      if enabled {
        var suppressed := CheckAndUpdate(m, now);
        if suppressed {
          return;
        }
      }
      Dispatch(Line(KeyOf(m)));
    }

    /** `hx_clog_set_duplicate_suppression`. */
    method SetSuppression(enable: bool, window: nat)
      requires Valid()
      modifies this
      ensures Valid()
      ensures State() == Set(old(State()), enable, window).0
      ensures out == old(out) + Set(old(State()), enable, window).1
      ensures enabled == enable && windowMs == (if window > 0 then window else 1000)
      ensures enable ==> out == old(out) && haveLast == old(haveLast) && repeats == old(repeats)
      ensures !enable ==> !haveLast && repeats == 0
      ensures !enable && old(repeats) > 0 ==>
                out == old(out) + [Summary(old(repeats), old(lastLevel), old(lastLogger))]
    {
      hide Good, CPrefix, Take, KeyOf, SameString;
      SetKeeps(State(), out, enable, window);
      assert out + [] == out;
      if !enable {
        FlushRepeats();
      }
      enabled := enable;
      windowMs := if window > 0 then window else 1000;
      if !enable {
        haveLast := false;
        repeats := 0;
      }
    }
  }
}
