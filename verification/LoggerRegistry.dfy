/** The registry of named loggers in src/hx_clog_core.c: a linked list of loggers with
  * dotted names, whose levels are inherited on creation and set by prefix. */
module LoggerRegistry {
  import opened Common

  // ---- Dotted names ----

  /** The test of `hx_clog_set_level_for_prefix`: the logger itself, or "prefix.<...>". */
  predicate Under(prefix: string, name: string) {
    StartsWith(name, prefix) && (|name| == |prefix| || name[|prefix|] == '.')
  }

  /** What `logger_inherited_level_locked` tries in turn: cut at the last dot. */
  function Cuts(name: string): seq<string>
    decreases |name|
  {
    var dot := LastDot(name);
    if dot.None? then [] else [name[..dot.value]] + Cuts(name[..dot.value])
  }

  /** Both ways of walking the hierarchy agree: a name is under a prefix exactly when it
    * is the prefix or reaches it by cutting at last dots. */
  lemma {:induction false} UnderIsCut(prefix: string, name: string)
    ensures Under(prefix, name) <==> prefix == name || prefix in Cuts(name)
    decreases |name|
  {
    var dot := LastDot(name);
    if dot.Some? {
      var cut := name[..dot.value];
      UnderIsCut(prefix, cut);
      if Under(prefix, name) && prefix != name {
        assert |prefix| <= dot.value;
        assert cut[..|prefix|] == prefix;
      }
      if Under(prefix, cut) {
        assert name[..|prefix|] == cut[..|prefix|];
      }
    }
  }

  /** A logger is under a prefix when it is the prefix or continues it behind a dot. */
  lemma UnderExactly(prefix: string, name: string)
    ensures Under(prefix, name) <==> name == prefix || StartsWith(name, prefix + ".")
  {
    if Under(prefix, name) && name != prefix {
      assert name[..|prefix| + 1] == prefix + ".";
    }
    if StartsWith(name, prefix + ".") {
      assert name[..|prefix|] == (prefix + ".")[..|prefix|] && name[|prefix|] == (prefix + ".")[|prefix|];
    }
  }

  /** Two prefixes of one name lie on one path. */
  lemma UnderComparable(p: string, q: string, name: string)
    requires Under(p, name) && Under(q, name)
    ensures Under(p, q) || Under(q, p)
  {
    if |p| <= |q| {
      assert q[..|p|] == name[..|p|];
    } else {
      assert p[..|q|] == name[..|q|];
    }
  }

  // ---- The registry as a value, newest logger first ----

  datatype Entry = Entry(name: string, level: int)

  function Lookup(es: seq<Entry>, name: string): (r: Option<int>)
    ensures r.None? <==> forall i :: 0 <= i < |es| ==> es[i].name != name
  {
    if es == [] then None
    else if es[0].name == name then Some(es[0].level)
    else Lookup(es[1..], name)
  }

  /** The level of the nearest registered ancestor, else the global one. */
  function Inherited(es: seq<Entry>, global: int, name: string): int
    decreases |name|
  {
    var dot := LastDot(name);
    if dot.None? then global
    else
      var cut := name[..dot.value];
      if Lookup(es, cut).Some? then Lookup(es, cut).value else Inherited(es, global, cut)
  }

  /** Without a registered ancestor it is the global level, else that of the longest
    * registered prefix of the name. */
  lemma {:induction false} InheritedExactly(es: seq<Entry>, global: int, name: string, p: string)
    ensures (forall q :: Under(q, name) && q != name ==> Lookup(es, q).None?) ==> Inherited(es, global, name) == global
    ensures Under(p, name) && p != name && Lookup(es, p).Some?
            && (forall q :: Under(q, name) && q != name && |q| > |p| ==> Lookup(es, q).None?)
            ==> Inherited(es, global, name) == Lookup(es, p).value
    decreases |name|
  {
    hide Lookup;
    var dot := LastDot(name);
    if dot.Some? {
      var cut := name[..dot.value];
      forall q | Under(q, name) && q != name ensures Under(q, cut) {
        UnderIsCut(q, name);
        UnderIsCut(q, cut);
      }
      forall q | Under(q, cut) ensures Under(q, name) && q != name {
        UnderIsCut(q, name);
        UnderIsCut(q, cut);
      }
      assert Under(cut, cut);
      InheritedExactly(es, global, cut, p);
    } else if Under(p, name) {
      UnderIsCut(p, name);
    }
  }

  /** The first logger of a name is the one that is found. */
  lemma {:induction false} LookupAt(es: seq<Entry>, name: string, i: nat)
    requires i < |es| && es[i].name == name
    requires forall k :: 0 <= k < i ==> es[k].name != name
    ensures Lookup(es, name) == Some(es[i].level)
  {
    if i > 0 {
      LookupAt(es[1..], name, i - 1);
    }
  }

  function EffectiveName(name: string): string {
    if name == "" then "hx_clog" else name
  }

  /** The size of a logger's name buffer: a longer name is searched for in full but stored
    * and given a level cut off, so that it is never found and made anew each time. */
  const NAME_SIZE := 128

  function StoredName(name: string): string {
    Take(EffectiveName(name), NAME_SIZE - 1)
  }

  function Created(es: seq<Entry>, global: int, name: string, memory: bool): seq<Entry> {
    var n := StoredName(name);
    if Lookup(es, EffectiveName(name)).Some? || !memory then es else [Entry(n, Inherited(es, global, n))] + es
  }

  function Relevelled(es: seq<Entry>, prefix: string, level: int): (r: seq<Entry>)
    ensures |r| == |es|
    ensures forall i :: 0 <= i < |es| ==>
                          r[i] == if prefix == "" || Under(prefix, es[i].name) then es[i].(level := level) else es[i]
  {
    seq(|es|, i requires 0 <= i < |es| =>
        if prefix == "" || Under(prefix, es[i].name) then es[i].(level := level) else es[i])
  }

  predicate ValidLevel(level: int) {
    TRACE <= level <= OFF
  }

  /** The second half of `hx_clog_set_level_for_prefix`, which takes the lock again. */
  function LevelSet(es: seq<Entry>, prefix: string, level: int): seq<Entry> {
    if ValidLevel(level) then Relevelled(es, prefix, level) else es
  }

  function OneSet(es: seq<Entry>, at: nat, level: int): seq<Entry> {
    if at < |es| && ValidLevel(level) then es[at := es[at].(level := level)] else es
  }

  // ---- The hierarchy ----

  /** The prefix is registered and its whole subtree has this level. */
  predicate Uniform(es: seq<Entry>, prefix: string, level: int) {
    && Lookup(es, prefix).Some?
    && forall i :: 0 <= i < |es| && Under(prefix, es[i].name) ==> es[i].level == level
  }

  lemma {:induction false} LookupMember(es: seq<Entry>, name: string)
    requires Lookup(es, name).Some?
    ensures Entry(name, Lookup(es, name).value) in es
  {
    if es[0].name != name {
      LookupMember(es[1..], name);
    }
  }

  /** A logger created in a uniform subtree inherits the subtree's level. */
  lemma {:induction false} InheritsUniform(es: seq<Entry>, global: int, prefix: string, level: int, name: string)
    requires Uniform(es, prefix, level) && Under(prefix, name) && name != prefix
    ensures Inherited(es, global, name) == level
    decreases |name|
  {
    UnderIsCut(prefix, name);
    var dot := LastDot(name);
    var cut := name[..dot.value];
    UnderIsCut(prefix, cut);
    if Lookup(es, cut).Some? {
      LookupMember(es, cut);
    } else {
      InheritsUniform(es, global, prefix, level, cut);
    }
  }

  /** Setting a registered prefix gives its whole subtree the level. */
  lemma SetMakesUniform(es: seq<Entry>, prefix: string, level: int)
    requires Lookup(es, prefix).Some? && ValidLevel(level)
    ensures Uniform(LevelSet(es, prefix, level), prefix, level)
  {
    SameNamesFound(es, Relevelled(es, prefix, level), prefix);
  }

  /** What happens to the registry under one hold of its lock. Setting a prefix is two
    * such operations: `Get` of the prefix, and then `SetPrefix`. */
  datatype Op =
    | Get(name: string, memory: bool)
    | SetPrefix(prefix: string, level: int)
    | SetOne(at: nat, level: int)
    | SetGlobal(level: int)

  datatype State = State(es: seq<Entry>, global: int)

  function Step(s: State, op: Op): State {
    match op
    case Get(name, memory) => s.(es := Created(s.es, s.global, name, memory))
    case SetPrefix(prefix, level) => s.(es := LevelSet(s.es, prefix, level))
    case SetOne(at, level) => s.(es := OneSet(s.es, at, level))
    case SetGlobal(level) => s.(global := level)
  }

  /** The operation sets the level of a logger under `prefix`, or makes a second logger of
    * that name because a longer name is cut off to it. */
  predicate Touches(s: State, op: Op, prefix: string) {
    match op
    case Get(name, _) => |name| >= NAME_SIZE && StoredName(name) == prefix
    case SetPrefix(q, level) => ValidLevel(level) && (q == "" || Under(q, prefix) || Under(prefix, q))
    case SetOne(at, level) => ValidLevel(level) && at < |s.es| && Under(prefix, s.es[at].name)
    case SetGlobal(_) => false
  }

  predicate Untouched(s: State, ops: seq<Op>, prefix: string) {
    ops == [] || (Untouched(s, ops[..|ops| - 1], prefix)
                  && !Touches(Exec(s, ops[..|ops| - 1]), ops[|ops| - 1], prefix))
  }

  lemma CreationKeepsUniform(es: seq<Entry>, global: int, prefix: string, level: int, name: string, memory: bool)
    requires Uniform(es, prefix, level) && !(|name| >= NAME_SIZE && StoredName(name) == prefix)
    ensures Uniform(Created(es, global, name, memory), prefix, level)
  {
    var c := Created(es, global, name, memory);
    if c != es {
      var n := StoredName(name);
      assert c[1..] == es;
      if Under(prefix, n) {
        InheritsUniform(es, global, prefix, level, n);
      }
      forall i | 0 <= i < |c| && Under(prefix, c[i].name) ensures c[i].level == level {
        if i > 0 {
          assert c[i] == es[i - 1];
        }
      }
    }
  }

  lemma SameNamesFound(es: seq<Entry>, r: seq<Entry>, name: string)
    requires |r| == |es| && forall i :: 0 <= i < |es| ==> r[i].name == es[i].name
    ensures Lookup(r, name).Some? <==> Lookup(es, name).Some?
  {
    if Lookup(es, name).Some? {
      LookupMember(es, name);
    }
    if Lookup(r, name).Some? {
      LookupMember(r, name);
    }
  }

  lemma UntouchedStaysUniform(s: State, op: Op, prefix: string, level: int)
    requires Uniform(s.es, prefix, level) && !Touches(s, op, prefix)
    ensures Uniform(Step(s, op).es, prefix, level)
  {
    match op
    case Get(name, memory) => CreationKeepsUniform(s.es, s.global, prefix, level, name, memory);
    case SetPrefix(q, l) =>
      if ValidLevel(l) {
        var r := Relevelled(s.es, q, l);
        SameNamesFound(s.es, r, prefix);
        forall i | 0 <= i < |r| && Under(prefix, r[i].name) ensures r[i].level == level {
          if Under(q, s.es[i].name) {
            UnderComparable(q, prefix, s.es[i].name);
          }
        }
      }
    case SetOne(at, l) => SameNamesFound(s.es, OneSet(s.es, at, l), prefix);
    case SetGlobal(_) =>
  }

  function Exec(s: State, ops: seq<Op>): State {
    if ops == [] then s else Step(Exec(s, ops[..|ops| - 1]), ops[|ops| - 1])
  }

  lemma {:induction false} StaysRegistered(s: State, ops: seq<Op>, name: string)
    requires Lookup(s.es, name).Some?
    ensures Lookup(Exec(s, ops).es, name).Some?
  {
    if ops != [] {
      StaysRegistered(s, ops[..|ops| - 1], name);
      StepKeepsRegistered(Exec(s, ops[..|ops| - 1]), ops[|ops| - 1], name);
    }
  }

  lemma StepKeepsRegistered(s: State, op: Op, name: string)
    requires Lookup(s.es, name).Some?
    ensures Lookup(Step(s, op).es, name).Some?
  {
    match op
    case Get(n, memory) =>
      if Created(s.es, s.global, n, memory) != s.es {
        assert Created(s.es, s.global, n, memory)[1..] == s.es;
      }
    case SetPrefix(q, l) =>
      if ValidLevel(l) {
        SameNamesFound(s.es, Relevelled(s.es, q, l), name);
      }
    case SetOne(at, l) => SameNamesFound(s.es, OneSet(s.es, at, l), name);
    case SetGlobal(_) =>
  }

  lemma GetRegisters(s: State, name: string)
    requires 0 < |name| < NAME_SIZE
    ensures Lookup(Step(s, Get(name, true)).es, name).Some?
  {
  }

  /** Setting a prefix takes the lock twice, so that other threads may do anything in
    * between; still its subtree has the level afterwards, and has it for ever: under any
    * later creations and any settings elsewhere, until a setting touches the subtree. */
  lemma {:induction false} SubtreeStaysUniform(s: State, prefix: string, level: int,
                                               between: seq<Op>, later: seq<Op>)
    requires 0 < |prefix| < NAME_SIZE && ValidLevel(level)
    requires Untouched(Step(Exec(Step(s, Get(prefix, true)), between), SetPrefix(prefix, level)), later, prefix)
    ensures var ready := Exec(Step(s, Get(prefix, true)), between);
            Uniform(Exec(Step(ready, SetPrefix(prefix, level)), later).es, prefix, level)
    decreases |later|
  {
    hide Uniform, Step, Touches, Created, Lookup;
    var ready := Exec(Step(s, Get(prefix, true)), between);
    if later == [] {
      GetRegisters(s, prefix);
      StaysRegistered(Step(s, Get(prefix, true)), between, prefix);
      SetStep(ready, prefix, level);
    } else {
      var n := |later| - 1;
      SubtreeStaysUniform(s, prefix, level, between, later[..n]);
      UntouchedStaysUniform(Exec(Step(ready, SetPrefix(prefix, level)), later[..n]), later[n], prefix, level);
    }
  }

  lemma SetStep(s: State, prefix: string, level: int)
    requires Lookup(s.es, prefix).Some? && ValidLevel(level)
    ensures Uniform(Step(s, SetPrefix(prefix, level)).es, prefix, level)
  {
    SetMakesUniform(s.es, prefix, level);
  }

  /** The bound of `Touches` is exact for prefixes: setting a registered `q` above or below
    * `prefix` to another level breaks the subtree of `prefix`. */
  lemma TouchingChanges(s: State, prefix: string, level: int, q: string, l: int)
    requires Uniform(s.es, prefix, level) && Lookup(s.es, q).Some? && ValidLevel(l) && l != level
    requires Under(q, prefix) || Under(prefix, q)
    ensures !Uniform(Step(s, SetPrefix(q, l)).es, prefix, level)
  {
    var r := Step(s, SetPrefix(q, l)).es;
    SetStep(s, q, l);
    if Under(prefix, q) {
      LookupMember(r, q);
      var i :| 0 <= i < |r| && r[i] == Entry(q, Lookup(r, q).value);
      assert q[..|q|] == q && Under(q, r[i].name);
    } else if Lookup(r, prefix).Some? {
      LookupMember(r, prefix);
      var i :| 0 <= i < |r| && r[i] == Entry(prefix, Lookup(r, prefix).value);
      assert prefix[..|prefix|] == prefix && Under(prefix, r[i].name) && Under(q, r[i].name);
    }
  }

  // ---- The linked list ----

  class Logger {
    const name: string
    var level: int
    var next: Logger?

    constructor (name: string, level: int, next: Logger?)
      ensures this.name == name && this.level == level && this.next == next
    {
      this.name, this.level, this.next := name, level, next;
    }
  }

  /** `level` of the nodes of a list, with their names. */
  ghost function EntriesOf(spine: seq<Logger>): (es: seq<Entry>)
    reads spine
    ensures |es| == |spine|
    ensures forall i :: 0 <= i < |es| ==> es[i] == Entry(spine[i].name, spine[i].level)
  {
    seq(|spine|, i requires 0 <= i < |spine| reads spine => Entry(spine[i].name, spine[i].level))
  }

  /** Setting a prefix when nothing happens in between; an invalid level changes nothing. */
  function AfterSetting(s: State, prefix: string, level: int, memory: bool): State {
    if !ValidLevel(level) then s
    else Step(if prefix == "" then s else Step(s, Op.Get(prefix, memory)), SetPrefix(prefix, level))
  }

  /** The node at position `i` of a list, null after its end. */
  ghost function NodeAt(spine: seq<Logger>, i: nat): Logger? {
    if i < |spine| then spine[i] else null
  }

  ghost predicate Linked(spine: seq<Logger>)
    reads spine
  {
    forall i :: 0 <= i < |spine| ==> spine[i].next == NodeAt(spine, i + 1)
  }

  ghost predicate NamesFit(spine: seq<Logger>) {
    forall i :: 0 <= i < |spine| ==> 0 < |spine[i].name| < NAME_SIZE
  }

  lemma LinkedCons(lg: Logger, spine: seq<Logger>)
    requires Linked(spine) && lg.next == NodeAt(spine, 0)
    ensures Linked([lg] + spine)
  {
    var more := [lg] + spine;
    forall i | 0 <= i < |more| ensures more[i].next == NodeAt(more, i + 1) {
      if i > 0 {
        assert more[i] == spine[i - 1];
      }
    }
  }

  lemma NamesCons(lg: Logger, spine: seq<Logger>)
    requires NamesFit(spine) && 0 < |lg.name| < NAME_SIZE
    ensures NamesFit([lg] + spine)
  {
  }

  ghost predicate NoRepeats(spine: seq<Logger>) {
    forall i, j :: 0 <= i < j < |spine| ==> spine[i] != spine[j]
  }

  lemma OneOfAKind(spine: seq<Logger>, at: nat)
    requires NoRepeats(spine) && at < |spine|
    ensures forall i :: 0 <= i < |spine| && i != at ==> spine[i] != spine[at]
  {
  }

  lemma OneMore(lg: Logger, spine: seq<Logger>)
    requires NoRepeats(spine) && lg !in spine
    ensures NoRepeats([lg] + spine)
  {
    var more := [lg] + spine;
    assert forall i :: 1 <= i < |more| ==> more[i] == spine[i - 1];
  }

  lemma EntriesCons(lg: Logger, spine: seq<Logger>)
    ensures EntriesOf([lg] + spine) == [Entry(lg.name, lg.level)] + EntriesOf(spine)
  {
  }

  class Registry {
    var head: Logger?
    var count: nat
    var global: int
    ghost var spine: seq<Logger>

    ghost predicate Valid()
      reads this, spine
    {
      && head == NodeAt(spine, 0) && count == |spine| && Linked(spine)
      && NoRepeats(spine)
      && NamesFit(spine)
    }

    ghost function Model(): State
      reads this, spine
    {
      State(EntriesOf(spine), global)
    }

    constructor ()
      ensures Valid() && Model() == State([], 2) && spine == []
    {
      head, count, global, spine := null, 0, 2, [];
    }

    /** `logger_find_locked`. */
    method Find(name: string) returns (p: Logger?, ghost at: nat)
      requires Valid()
      ensures p == null ==> Lookup(EntriesOf(spine), name).None?
      ensures p != null ==> p in spine && p.name == name && Lookup(EntriesOf(spine), name) == Some(p.level)
      ensures p == NodeAt(spine, at) && forall k :: 0 <= k < |spine| && k < at ==> spine[k].name != name
    {
      hide Lookup, EntriesOf;
      p, at := head, 0;
      while p != null
        invariant at <= |spine| && p == NodeAt(spine, at)
        invariant forall k :: 0 <= k < at ==> spine[k].name != name
        decreases |spine| - at
      {
        if p.name == name {
          LookupAt(EntriesOf(spine), name, at);
          return;
        }
        p, at := p.next, at + 1;
      }
    }

    /** `logger_inherited_level_locked`. */
    method InheritedLevel(name: string) returns (level: int)
      requires Valid()
      ensures level == Inherited(EntriesOf(spine), global, name)
    {
      var buf := name;
      while true
        invariant Inherited(EntriesOf(spine), global, name) == Inherited(EntriesOf(spine), global, buf)
        decreases |buf|
      {
        var dot := LastDot(buf);
        if dot.None? {
          return global;
        }
        buf := buf[..dot.value];
        var anc, at := Find(buf);
        if anc != null {
          return anc.level;
        }
      }
    }

    /** A new node in front of the list. */
    method Prepend(name: string, level: int) returns (lg: Logger)
      requires Valid() && 0 < |name| < NAME_SIZE
      modifies this
      ensures Valid() && fresh(lg) && lg.name == name && spine == [lg] + old(spine) && global == old(global)
      ensures EntriesOf(spine) == [Entry(name, level)] + old(EntriesOf(spine))
    {
      hide NoRepeats, EntriesOf, Linked, NamesFit;
      lg := new Logger(name, level, head);
      OneMore(lg, spine);
      EntriesCons(lg, spine);
      LinkedCons(lg, spine);
      NamesCons(lg, spine);
      spine := [lg] + spine;
      head := lg;
      count := count + 1;
    }

    /** `hx_clog_logger_get`: find the logger or put a new one in front. */
    method Get(name: string, memory: bool) returns (lg: Logger?)
      requires Valid()
      modifies this
      ensures Valid() && Model() == Step(old(Model()), Op.Get(name, memory))
      ensures lg == null ==> !memory
      ensures lg != null ==> lg in spine && lg.name == StoredName(name)
      ensures forall i :: 0 <= i < |spine| ==> spine[i] in old(spine) || fresh(spine[i])
      ensures var wanted := if name == "" then "hx_clog" else name;
              if exists k :: 0 <= k < |old(spine)| && old(spine)[k].name == wanted then
                && spine == old(spine) && lg != null && lg.name == wanted
                && lg.level == old(Lookup(EntriesOf(spine), wanted)).value
              else if !memory then spine == old(spine) && lg == null
              else
                && spine != [] && lg == spine[0] && spine[1..] == old(spine) && fresh(lg)
                && lg.name == Take(wanted, 127)
                && lg.level == old(Inherited(EntriesOf(spine), global, Take(wanted, 127)))
      ensures global == old(global)
    {
      hide Inherited, Lookup;
      ghost var at;
      lg, at := Find(EffectiveName(name));
      if lg != null {
        ShortNames(lg);
      } else if memory {
        var n := StoredName(name);
        var level := InheritedLevel(n);
        lg := Prepend(n, level);
      }
    }

    lemma ShortNames(lg: Logger)
      requires Valid() && lg in spine
      ensures Take(lg.name, NAME_SIZE - 1) == lg.name
    {
    }

    /** The loop of `hx_clog_set_level_for_prefix`. */
    method Relevel(prefix: string, level: int)
      requires Valid()
      modifies spine
      ensures Valid() && EntriesOf(spine) == Relevelled(old(EntriesOf(spine)), prefix, level)
      ensures forall k :: 0 <= k < |spine| ==>
                spine[k].level == if prefix == "" || spine[k].name == prefix || StartsWith(spine[k].name, prefix + ".")
                                  then level
                                  else old(spine[k].level)
    {
      hide Relevelled, NoRepeats;
      var p := head;
      ghost var at := 0;
      while p != null
        invariant at <= |spine| && p == NodeAt(spine, at)
        invariant forall k :: 0 <= k < |spine| ==> spine[k].next == old(spine[k].next)
        invariant forall k :: at <= k < |spine| ==> spine[k].level == old(spine[k].level)
        invariant forall k :: 0 <= k < at ==>
                    spine[k].level == if prefix == "" || Under(prefix, spine[k].name)
                                      then level else old(spine[k].level)
        decreases |spine| - at
      {
        OneOfAKind(spine, at);
        if prefix == "" || (StartsWith(p.name, prefix) && (|p.name| == |prefix| || p.name[|prefix|] == '.')) {
          p.level := level;
        }
        p, at := p.next, at + 1;
      }
      assert EntriesOf(spine) == Relevelled(old(EntriesOf(spine)), prefix, level);
      forall name: string { UnderExactly(prefix, name); }
    }

    /** `hx_clog_set_level_for_prefix`. */
    method SetLevelForPrefix(prefix: string, level: int, memory: bool) returns (ok: bool)
      requires Valid()
      modifies this, spine
      ensures Valid() && Model() == AfterSetting(old(Model()), prefix, level, memory)
      ensures ok <==> TRACE <= level <= OFF
      ensures !ok ==> spine == old(spine) && forall lg :: lg in spine ==> lg.level == old(lg.level)
      ensures ok ==>
                forall lg :: lg in spine && (prefix == "" || lg.name == prefix || StartsWith(lg.name, prefix + "."))
                  ==> lg.level == level
      ensures forall lg :: lg in old(spine) && prefix != "" && lg.name != prefix && !StartsWith(lg.name, prefix + ".")
                       ==> lg.level == old(lg.level)
    {
      hide Created, Relevelled, EntriesOf, Valid, StartsWith, Lookup, Inherited;
      if level < TRACE || level > OFF {
        return false;
      }
      if prefix != "" {
        var made := Get(prefix, memory);
      }
      assert forall i :: 0 <= i < |spine| ==> spine[i] in old(spine) || fresh(spine[i]);
      Relevel(prefix, level);
      ok := true;
    }

    /** `hx_clog_logger_set_level` on a registered logger. */
    method SetLevel(lg: Logger, level: int) returns (ok: bool, ghost at: nat)
      requires Valid() && lg in spine
      modifies lg`level
      ensures at < |spine| && spine[at] == lg
      ensures Valid() && Model() == Step(old(Model()), SetOne(at, level))
      ensures ok <==> TRACE <= level <= OFF
      ensures lg.level == (if ok then level else old(lg.level)) && spine == old(spine)
    {
      hide NoRepeats;
      ghost var es := EntriesOf(spine);
      at :| 0 <= at < |spine| && spine[at] == lg;
      OneOfAKind(spine, at);
      ok := TRACE <= level <= OFF;
      if ok {
        lg.level := level;
        assert EntriesOf(spine) == es[at := Entry(lg.name, level)];
        LevelsDoNotMatter();
      }
    }

    /** `Valid` is about links and names only. */
    twostate lemma LevelsDoNotMatter()
      requires old(Valid())
      requires head == old(head) && count == old(count) && spine == old(spine)
      requires forall i :: 0 <= i < |spine| ==> spine[i].next == old(spine[i].next)
      ensures Valid()
    {
    }
  }
}
