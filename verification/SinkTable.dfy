/** The sink table of src/hx_clog_core.c and the synchronous dispatch of one record to
  * it. Each method runs under `sink_lock`; sinks are records in the table's array. */
module SinkTable {
  import opened Common

  const MAX_SINKS := 16
  const ID_SPAN := 0x1_0000_0000

  /** How a line is rendered; `formatter` 0 is none. */
  datatype Format = Format(pattern: string, mode: FormatMode, formatter: int)

  /** `got` is what was written to the sink. Sinks of another kind than callback are
    * replaced by a reconfigure. */
  datatype Sink = Sink(
    id: nat,
    minLevel: int,
    callback: bool,
    overrideSet: bool,
    overrideMode: FormatMode,
    overrideHasPattern: bool,
    overridePattern: string,
    got: seq<string>)

  const NO_SINK := Sink(0, TRACE, false, false, PatternMode, false, "", [])

  // ---- The table as a sequence ----

  predicate UniqueIds(ss: seq<Sink>) {
    && (forall i :: 0 <= i < |ss| ==> ss[i].id != 0)
    && (forall i, j :: 0 <= i < j < |ss| ==> ss[i].id != ss[j].id)
  }

  /** Unique nonzero ids, all given out already. */
  predicate IdsOk(ss: seq<Sink>, next: nat) {
    UniqueIds(ss) && forall i :: 0 <= i < |ss| ==> ss[i].id < next
  }

  predicate HasId(ss: seq<Sink>, id: nat) {
    exists i :: 0 <= i < |ss| && ss[i].id == id
  }

  function Overridden(ss: seq<Sink>): nat {
    if ss == [] then 0
    else Overridden(ss[..|ss| - 1]) + (if ss[|ss| - 1].overrideSet then 1 else 0)
  }

  function Without(ss: seq<Sink>, i: nat): (r: seq<Sink>)
    requires i < |ss|
  {
    ss[..i] + ss[i + 1..]
  }

  function Count(b: bool): nat {
    if b then 1 else 0
  }

  function Capped(n: nat): nat {
    if n < MAX_SINKS then n else MAX_SINKS
  }

  /** A sink that was just added: no callback, no override, nothing received. */
  predicate IsFresh(s: Sink) {
    !s.callback && !s.overrideSet && s.got == []
  }

  /** Fresh sinks were added behind `kept`. */
  ghost predicate Extends(kept: seq<Sink>, view: seq<Sink>) {
    kept <= view && forall i :: |kept| <= i < |view| ==> IsFresh(view[i])
  }

  lemma ExtendsRefl(kept: seq<Sink>)
    ensures Extends(kept, kept)
  {
  }

  lemma ExtendsTrans(a: seq<Sink>, b: seq<Sink>, c: seq<Sink>)
    requires Extends(a, b) && Extends(b, c)
    ensures Extends(a, c)
  {
  }

  lemma AddedAreFresh(kept: seq<Sink>, view: seq<Sink>)
    requires Extends(kept, view)
    ensures kept <= view
    ensures forall i :: |kept| <= i < |view| ==> !view[i].callback && !view[i].overrideSet && view[i].got == []
  {
  }

  function Callbacks(ss: seq<Sink>): seq<Sink> {
    if ss == [] then []
    else Callbacks(ss[..|ss| - 1]) + (if ss[|ss| - 1].callback then [ss[|ss| - 1]] else [])
  }

  predicate Admits(s: Sink, level: int) {
    level >= s.minLevel
  }

  /** A sink's own format. */
  function FormatOf(s: Sink, settings: Format): Format {
    if s.overrideSet
    then Format(if s.overrideHasPattern then s.overridePattern else settings.pattern, s.overrideMode, 0)
    else settings
  }

  /** The sink after one record: one line in its own format, if it admits the level. */
  function Reached(s: Sink, level: int, settings: Format, render: Format -> string): Sink {
    if Admits(s, level) then s.(got := s.got + [render(FormatOf(s, settings))]) else s
  }

  /** A sink misses exactly the records below its minimum level. A sink with an override has
    * its own mode and no custom formatter, and its own pattern if it has one. */
  lemma ReachedExactly(s: Sink, level: int, settings: Format, render: Format -> string)
    ensures var pattern := if s.overrideHasPattern then s.overridePattern else settings.pattern;
            var line := render(if s.overrideSet then Format(pattern, s.overrideMode, 0) else settings);
            && (level < s.minLevel ==> Reached(s, level, settings, render) == s)
            && (level >= s.minLevel ==> Reached(s, level, settings, render) == s.(got := s.got + [line]))
  {
  }

  /** Does `hx_core_emit_to_sinks` with this target write to the sink? */
  predicate Targets(target: nat, s: Sink) {
    if target == 0 then !s.overrideSet else s.id == target
  }

  function Emitted(s: Sink, level: int, line: string, target: nat): Sink {
    if Targets(target, s) && Admits(s, level) then s.(got := s.got + [line]) else s
  }

  /** Target 0 are the sinks without an override, any other target is one id. */
  lemma EmittedExactly(s: Sink, level: int, line: string, target: nat)
    ensures var meant := (target == 0 && !s.overrideSet) || (target != 0 && s.id == target);
            Emitted(s, level, line, target) == if meant && level >= s.minLevel then s.(got := s.got + [line]) else s
  {
  }

  lemma SameIds(ss: seq<Sink>, tt: seq<Sink>, next: nat)
    requires |ss| == |tt| && forall i :: 0 <= i < |ss| ==> ss[i].id == tt[i].id
    requires IdsOk(ss, next)
    ensures IdsOk(tt, next)
  {
  }

  lemma GapClosed(before: seq<Sink>, after: seq<Sink>, i: nat)
    requires i < |before| == |after| + 1
    requires forall k :: 0 <= k < i ==> after[k] == before[k]
    requires forall k :: i < k < |before| ==> after[k - 1] == before[k]
    ensures after == Without(before, i)
  {
  }

  /** `Callbacks` keeps the callbacks among any two parts of a table, in order. */
  lemma {:induction false} CallbacksSplit(a: seq<Sink>, b: seq<Sink>)
    ensures Callbacks(a + b) == Callbacks(a) + Callbacks(b)
  {
    if b == [] {
      assert a + b == a;
    } else {
      var n := |b| - 1;
      assert (a + b)[..|a| + n] == a + b[..n];
      CallbacksSplit(a, b[..n]);
    }
  }

  lemma CallbacksOfOne(s: Sink)
    ensures Callbacks([]) == [] && Callbacks([s]) == if s.callback then [s] else []
  {
    assert [s][..0] == [];
  }

  /** `Overridden` is the number of places with an override. */
  lemma {:induction false} OverriddenIsCount(ss: seq<Sink>)
    ensures Overridden(ss) == |set i | 0 <= i < |ss| && ss[i].overrideSet|
  {
    if ss != [] {
      var n := |ss| - 1;
      OverriddenIsCount(ss[..n]);
      var front := set i | 0 <= i < n && ss[..n][i].overrideSet;
      var all := set i | 0 <= i < |ss| && ss[i].overrideSet;
      assert all == if ss[n].overrideSet then front + {n} else front;
    }
  }

  lemma OverriddenMore(ss: seq<Sink>, s: Sink)
    ensures Overridden(ss + [s]) == Overridden(ss) + (if s.overrideSet then 1 else 0)
  {
    assert (ss + [s])[..|ss|] == ss;
  }

  lemma IdsAreUnique(ss: seq<Sink>, next: nat)
    requires IdsOk(ss, next)
    ensures UniqueIds(ss)
  {
  }

  lemma MoreIds(ss: seq<Sink>, s: Sink, next: nat)
    requires IdsOk(ss, next) && s.id == next > 0
    ensures IdsOk(ss + [s], next + 1) && !HasId(ss, s.id)
  {
  }

  lemma CallbackIds(ss: seq<Sink>, next: nat)
    requires IdsOk(ss, next)
    ensures IdsOk(Callbacks(ss), next)
  {
    CallbacksMembers(ss);
    var c := Callbacks(ss);
    forall i | 0 <= i < |c| ensures c[i].id < next {
      assert c[i] in ss;
    }
  }

  lemma WithoutIds(ss: seq<Sink>, i: nat, next: nat)
    requires IdsOk(ss, next) && i < |ss|
    ensures IdsOk(Without(ss, i), next) && !HasId(Without(ss, i), ss[i].id)
  {
    var r := Without(ss, i);
    assert forall k :: 0 <= k < |r| ==> r[k] == ss[if k < i then k else k + 1];
  }

  lemma {:induction false} CallbacksMembers(ss: seq<Sink>)
    ensures forall s :: s in Callbacks(ss) ==> s in ss && s.callback
    ensures UniqueIds(ss) ==> UniqueIds(Callbacks(ss))
  {
    if ss != [] {
      var front := ss[..|ss| - 1];
      CallbacksMembers(front);
      var c := Callbacks(front);
      forall i | 0 <= i < |c| && UniqueIds(ss) ensures c[i].id != ss[|ss| - 1].id {
        assert c[i] in front;
      }
    }
  }

  lemma {:induction false} OverriddenBound(ss: seq<Sink>)
    ensures Overridden(ss) <= |ss|
    ensures Overridden(ss) == 0 <==> forall i :: 0 <= i < |ss| ==> !ss[i].overrideSet
    ensures Overridden(ss) == |ss| <==> forall i :: 0 <= i < |ss| ==> ss[i].overrideSet
  {
    if ss != [] {
      OverriddenBound(ss[..|ss| - 1]);
      assert forall i :: 0 <= i < |ss| - 1 ==> ss[..|ss| - 1][i] == ss[i];
    }
  }

  /** An override as `core_dispatch_record` copies it. */
  datatype Snap = Snap(id: nat, format: Format)

  /** The overrides of a table, in order. */
  function Snaps(ss: seq<Sink>, settings: Format): (r: seq<Snap>)
    ensures |r| == Overridden(ss)
  {
    if ss == [] then []
    else
      var s := ss[|ss| - 1];
      Snaps(ss[..|ss| - 1], settings) + (if s.overrideSet then [Snap(s.id, FormatOf(s, settings))] else [])
  }

  /** The lines a sink gets for overrides `snaps`. */
  function LinesFor(s: Sink, level: int, snaps: seq<Snap>, render: Format -> string): seq<string> {
    if snaps == [] then []
    else
      var n := |snaps| - 1;
      LinesFor(s, level, snaps[..n], render)
      + (if Targets(snaps[n].id, s) && Admits(s, level) then [render(snaps[n].format)] else [])
  }

  lemma {:induction false} SnapIds(ss: seq<Sink>, settings: Format)
    ensures forall sn :: sn in Snaps(ss, settings) ==>
                           exists i :: 0 <= i < |ss| && ss[i].id == sn.id && ss[i].overrideSet
    ensures UniqueIds(ss) ==> forall sn :: sn in Snaps(ss, settings) ==> sn.id != 0
  {
    if ss != [] {
      var front := ss[..|ss| - 1];
      SnapIds(front, settings);
      forall sn | sn in Snaps(ss, settings)
        ensures exists i :: 0 <= i < |ss| && ss[i].id == sn.id && ss[i].overrideSet
      {
        if sn in Snaps(front, settings) {
          var i :| 0 <= i < |front| && front[i].id == sn.id && front[i].overrideSet;
          assert ss[i].id == sn.id;
        } else {
          assert ss[|ss| - 1].id == sn.id;
        }
      }
    }
  }

  lemma LinesForLast(s: Sink, level: int, snaps: seq<Snap>, last: Snap, render: Format -> string)
    ensures LinesFor(s, level, snaps + [last], render)
            == LinesFor(s, level, snaps, render)
               + (if Targets(last.id, s) && Admits(s, level) then [render(last.format)] else [])
  {
    assert (snaps + [last])[..|snaps|] == snaps;
  }

  /** What the table's last sink adds to the lines that `s` gets. */
  lemma {:induction false} LastSnap(ss: seq<Sink>, settings: Format, level: int, render: Format -> string, s: Sink)
    requires ss != []
    ensures var n := |ss| - 1;
            LinesFor(s, level, Snaps(ss, settings), render)
            == LinesFor(s, level, Snaps(ss[..n], settings), render)
               + (if ss[n].overrideSet && Targets(ss[n].id, s) && Admits(s, level)
                  then [render(FormatOf(ss[n], settings))]
                  else [])
  {
    hide FormatOf, Admits, Targets;
    hide LinesFor;
    var n := |ss| - 1;
    var front := Snaps(ss[..n], settings);
    if ss[n].overrideSet {
      var last := Snap(ss[n].id, FormatOf(ss[n], settings));
      assert Snaps(ss, settings) == front + [last];
      LinesForLast(s, level, front, last, render);
    } else {
      assert Snaps(ss, settings) == front;
    }
  }

  /** Unique nonzero ids: a sink gets the line of its own override, once. */
  lemma {:induction false} OwnLineOnce(
    ss: seq<Sink>, settings: Format, level: int, render: Format -> string, k: nat, s: Sink)
    requires UniqueIds(ss) && k < |ss| && s.id == ss[k].id
    requires s.overrideSet == ss[k].overrideSet && s.minLevel == ss[k].minLevel
    ensures LinesFor(s, level, Snaps(ss, settings), render)
            == if s.overrideSet && Admits(s, level) then [render(FormatOf(ss[k], settings))] else []
  {
    hide LinesFor, Snaps, FormatOf;
    var n := |ss| - 1;
    LastSnap(ss, settings, level, render, s);
    if k < n {
      OwnLineOnce(ss[..n], settings, level, render, k, s);
    } else {
      NoLineElsewhere(ss[..n], settings, level, render, s);
    }
  }

  lemma {:induction false} NoLineElsewhere(
    ss: seq<Sink>, settings: Format, level: int, render: Format -> string, s: Sink)
    requires forall i :: 0 <= i < |ss| ==> ss[i].id != 0 && ss[i].id != s.id
    ensures LinesFor(s, level, Snaps(ss, settings), render) == []
  {
    hide FormatOf;
    if ss != [] {
      LastSnap(ss, settings, level, render, s);
      NoLineElsewhere(ss[..|ss| - 1], settings, level, render, s);
    }
  }

  function Given(s: Sink, lines: seq<string>): Sink {
    s.(got := s.got + lines)
  }

  lemma NoLinesYet(level: int, render: Format -> string)
    ensures forall s: Sink, snaps: seq<Snap> :: LinesFor(s, level, snaps[..0], render) == []
    ensures forall s: Sink :: Given(s, []) == s
  {
    assert forall s: Sink :: s.got + [] == s.got;
  }

  lemma LinesForNext(s: Sink, level: int, snaps: seq<Snap>, k: nat, render: Format -> string)
    requires k < |snaps| && snaps[k].id != 0
    ensures var lines := LinesFor(s, level, snaps[..k], render);
            Given(s, LinesFor(s, level, snaps[..k + 1], render))
            == Emitted(Given(s, lines), level, render(snaps[k].format), snaps[k].id)
  {
    assert snaps[..k + 1][..k] == snaps[..k];
    var lines := LinesFor(s, level, snaps[..k], render);
    assert s.got + (lines + [render(snaps[k].format)]) == s.got + lines + [render(snaps[k].format)];
    assert s.got + (lines + []) == s.got + lines;
  }

  lemma NoSnaps(ss: seq<Sink>, settings: Format)
    ensures Overridden(ss) == 0 ==> Snaps(ss, settings) == []
  {
  }

  /** A sink is reached by the default line or by its own override's line, never both. */
  lemma OneOfTwo(s: Sink, m: Sink, level: int, settings: Format, render: Format -> string)
    requires m == Emitted(s, level, render(settings), 0) || (m == s && s.overrideSet)
    ensures Given(m, if s.overrideSet && Admits(s, level) then [render(FormatOf(s, settings))] else [])
            == Reached(s, level, settings, render)
  {
    assert m.got + [] == m.got;
  }

  /** The loop that closes sinks: `seen` of them are done, of which `i` stay. */
  ghost predicate Closing(start: seq<Sink>, view: seq<Sink>, i: nat, seen: nat) {
    && seen <= |start| && i == |Callbacks(start[..seen])|
    && view == Callbacks(start[..seen]) + start[seen..]
  }

  lemma ClosingStarts(start: seq<Sink>)
    ensures Closing(start, start, 0, 0)
  {
    assert start[..0] == [] && start[0..] == start;
  }

  lemma ClosingStep(start: seq<Sink>, view: seq<Sink>, i: nat, seen: nat)
    requires Closing(start, view, i, seen) && i < |view|
    ensures view[i].callback ==> Closing(start, view, i + 1, seen + 1)
    ensures !view[i].callback ==> Closing(start, Without(view, i), i, seen + 1)
  {
    assert start[..seen + 1][..seen] == start[..seen];
    assert start[seen..] == [start[seen]] + start[seen + 1..];
  }

  lemma ClosingEnds(start: seq<Sink>, view: seq<Sink>, i: nat, seen: nat)
    requires Closing(start, view, i, seen)
    ensures i <= |view|
    ensures i == |view| ==> view == Callbacks(start)
  {
    if i == |view| {
      assert start[seen..] == [] && start[..seen] == start;
    }
  }

  lemma {:induction false} OverriddenSame(ss: seq<Sink>, tt: seq<Sink>)
    requires |ss| == |tt| && forall i :: 0 <= i < |ss| ==> ss[i].overrideSet == tt[i].overrideSet
    ensures Overridden(ss) == Overridden(tt)
  {
    if ss != [] {
      OverriddenSame(ss[..|ss| - 1], tt[..|tt| - 1]);
    }
  }

  // ---- The table ----

  class Table {
    var sinks: array<Sink>
    var count: nat
    var nextId: nat
    var overrideCount: nat
    var written: nat

    ghost function View(): seq<Sink>
      reads this, sinks
      requires count <= sinks.Length
    {
      sinks[..count]
    }

    /** All but the cached number of overrides. */
    ghost predicate Consistent()
      reads this, sinks
    {
      && sinks.Length == MAX_SINKS && count <= MAX_SINKS
      && 0 < nextId < ID_SPAN && IdsOk(View(), nextId)
    }

    ghost predicate Valid()
      reads this, sinks
    {
      Consistent() && overrideCount == Overridden(View())
    }

    constructor ()
      ensures Valid() && count == 0 && nextId == 1 && written == 0 && fresh(sinks)
    {
      sinks := new Sink[MAX_SINKS](i => NO_SINK);
      count, nextId, overrideCount, written := 0, 1, 0, 0;
    }

    /** `recompute_override_count_locked`. */
    method Recompute()
      requires Consistent()
      modifies `overrideCount
      ensures Valid() && overrideCount == |set i | 0 <= i < count && View()[i].overrideSet|
    {
      OverriddenIsCount(View());
      var n := 0;
      for i := 0 to count
        invariant n == Overridden(View()[..i])
      {
        assert View()[..i + 1][..i] == View()[..i];
        if sinks[i].overrideSet {
          n := n + 1;
        }
      }
      assert View()[..count] == View();
      overrideCount := n;
    }

    /** Position of the sink with this id, or `count`. */
    method IndexOf(id: nat) returns (i: nat)
      requires Consistent()
      ensures i <= count
      ensures i < count ==> sinks[i].id == id
      ensures i == count <==> !HasId(View(), id)
    {
      i := 0;
      while i < count
        invariant i <= count && forall k :: 0 <= k < i ==> sinks[k].id != id
      {
        if sinks[i].id == id {
          assert View()[i].id == id;
          return;
        }
        i := i + 1;
      }
    }

    /** Close the gap at `i`. */
    method ShiftOut(i: nat)
      requires sinks.Length == MAX_SINKS && count <= MAX_SINKS && i < count
      modifies sinks, `count
      ensures count == old(count) - 1 && View() == Without(old(View()), i)
    {
      hide Without;
      ghost var before := View();
      var j := i;
      while j + 1 < count
        invariant i <= j < count == old(count)
        invariant forall k :: 0 <= k < i ==> sinks[k] == before[k]
        invariant forall k :: i < k <= j ==> sinks[k - 1] == before[k]
        invariant forall k :: j <= k < count ==> sinks[k] == before[k]
      {
        sinks[j] := sinks[j + 1];
        j := j + 1;
      }
      sinks[count - 1] := NO_SINK;
      count := count - 1;
      GapClosed(before, View(), i);
    }

    /** `add_sink_locked` with a sink that has no id yet. */
    method Add(callback: bool, minLevel: int) returns (id: nat)
      requires Consistent()
      modifies this, sinks
      ensures sinks == old(sinks) && count <= MAX_SINKS
      ensures old(nextId) + 1 < ID_SPAN ==> Consistent() && (old(Valid()) ==> Valid())
      ensures id == 0 <==> old(count) == MAX_SINKS
      ensures id == 0 ==> View() == old(View()) && nextId == old(nextId)
      ensures id != 0 ==>
                && !HasId(old(View()), id) && nextId == (if old(nextId) + 1 < ID_SPAN then old(nextId) + 1 else 1)
                && View() == old(View()) + [NO_SINK.(id := id, callback := callback,
                     minLevel := if minLevel < TRACE || minLevel > OFF then TRACE else minLevel)]
      ensures overrideCount == old(overrideCount) && written == old(written)
    {
      hide IdsOk, Overridden;
      if count >= MAX_SINKS {
        return 0;
      }
      id := nextId;
      nextId := (nextId + 1) % ID_SPAN;
      if nextId == 0 {
        nextId := 1;
      }
      var level := if minLevel < TRACE || minLevel > OFF then TRACE else minLevel;
      var s := NO_SINK.(id := id, callback := callback, minLevel := level);
      MoreIds(View(), s, id);
      OverriddenMore(View(), s);
      sinks[count] := s;
      count := count + 1;
      assert View() == old(View()) + [s];
    }

    /** `hx_clog_remove_sink`. */
    method Remove(id: nat) returns (ok: bool)
      requires Valid()
      modifies this, sinks
      ensures Valid() && sinks == old(sinks)
      ensures ok <==> HasId(old(View()), id)
      ensures !ok ==> View() == old(View())
      ensures ok ==> exists i :: 0 <= i < |old(View())| && old(View())[i].id == id
                                 && View() == old(View())[..i] + old(View())[i + 1..]
      ensures !HasId(View(), id)
      ensures written == old(written) && nextId == old(nextId)
    {
      hide IdsOk;
      var i := IndexOf(id);
      if i == count {
        return false;
      }
      WithoutIds(View(), i, nextId);
      ShiftOut(i);
      Recompute();
      ok := true;
    }

    /** Overwrite the sink at `i`, keeping its id. */
    method Replace(i: nat, s: Sink)
      requires Consistent() && i < count && s.id == sinks[i].id
      modifies sinks
      ensures Consistent() && View() == old(View())[i := s]
    {
      hide IdsOk;
      ghost var before := View();
      sinks[i] := s;
      assert View() == before[i := s];
      SameIds(before, View(), nextId);
    }

    /** `hx_clog_set_sink_level`. */
    method SetLevel(id: nat, level: int) returns (ok: bool)
      requires Valid()
      modifies this, sinks
      ensures Valid() && sinks == old(sinks) && count == old(count) && written == old(written)
      ensures ok <==> TRACE <= level <= OFF && HasId(old(View()), id)
      ensures forall i :: 0 <= i < count ==>
                View()[i] == if ok && old(View())[i].id == id
                             then old(View())[i].(minLevel := level)
                             else old(View())[i]
    {
      if level < TRACE || level > OFF {
        return false;
      }
      var i := IndexOf(id);
      if i == count {
        return false;
      }
      Replace(i, sinks[i].(minLevel := level));
      Recompute();
      ok := true;
    }

    /** `hx_clog_set_sink_pattern`: a pattern switches to pattern mode, none clears the
      * whole override (the mode stays recorded). */
    method SetPattern(id: nat, pattern: Option<string>) returns (ok: bool)
      requires Valid()
      modifies this, sinks
      ensures Valid() && sinks == old(sinks) && count == old(count) && written == old(written)
      ensures ok <==> HasId(old(View()), id)
      ensures forall i :: 0 <= i < count ==>
                var s := old(View())[i];
                View()[i] == if s.id != id then s
                             else if pattern.Some?
                             then s.(overridePattern := Take(pattern.value, 255), overrideHasPattern := true,
                                     overrideMode := PatternMode, overrideSet := true)
                             else s.(overrideSet := false, overrideHasPattern := false, overridePattern := "")
    {
      var i := IndexOf(id);
      if i == count {
        return false;
      }
      var s := sinks[i];
      if pattern.Some? {
        s := s.(overridePattern := Take(pattern.value, 255), overrideHasPattern := true,
                overrideMode := PatternMode, overrideSet := true);
      } else {
        s := s.(overrideSet := false, overrideHasPattern := false, overridePattern := "");
      }
      Replace(i, s);
      Recompute();
      ok := true;
    }

    /** `hx_clog_set_sink_format_mode`: the pattern override, if any, stays. */
    method SetFormatMode(id: nat, mode: FormatMode) returns (ok: bool)
      requires Valid()
      modifies this, sinks
      ensures Valid() && sinks == old(sinks) && count == old(count) && written == old(written)
      ensures ok <==> HasId(old(View()), id)
      ensures forall i :: 0 <= i < count ==>
                var s := old(View())[i];
                View()[i] == if s.id == id then s.(overrideMode := mode, overrideSet := true) else s
    {
      var i := IndexOf(id);
      if i == count {
        return false;
      }
      Replace(i, sinks[i].(overrideMode := mode, overrideSet := true));
      Recompute();
      ok := true;
    }

    /** `close_non_callback_sinks_locked`. */
    method CloseNonCallback()
      requires Consistent()
      modifies sinks, `count
      ensures Consistent() && View() == Callbacks(old(View()))
    {
      hide Callbacks, Without, IdsOk, Closing;
      ghost var start: seq<Sink>, seen: nat := View(), 0;
      ClosingStarts(start);
      CallbackIds(start, nextId);
      var i: nat := 0;
      while i < count
        invariant i <= count <= MAX_SINKS == sinks.Length && Closing(start, View(), i, seen)
        decreases count - i
      {
        i := CloseOne(i, start, seen);
        seen := seen + 1;
      }
      ClosingEnds(start, View(), i, seen);
    }

    /** One round of that loop: a callback stays, any other sink goes. */
    method CloseOne(i: nat, ghost start: seq<Sink>, ghost seen: nat) returns (next: nat)
      requires sinks.Length == MAX_SINKS && i < count <= MAX_SINKS && Closing(start, View(), i, seen)
      modifies sinks, `count
      ensures next <= count <= old(count) && count - next < old(count) - i
      ensures Closing(start, View(), next, seen + 1)
    {
      hide Without, Closing;
      ClosingStep(start, View(), i, seen);
      next := i;
      if !sinks[i].callback {
        ShiftOut(i);
      } else {
        next := i + 1;
      }
    }

    /** The sink part of `hx_clog_reconfigure_locked`: replace all sinks but callbacks by
      * those of the new configuration, and recompute the cache. The table closes a sink
      * that it refuses, and the program reopens the new file sink whether or not it was
      * refused: `reopensClosed` says that it was. */
    method Reconfigure(console: bool, file: bool, systems: nat) returns (reopensClosed: bool)
      requires Valid() && nextId + systems + 3 < ID_SPAN
      modifies this, sinks
      ensures Valid() && sinks == old(sinks) && written == old(written)
      ensures var kept := Callbacks(old(View()));
              var news := Count(console) + Count(file) + systems;
              Extends(kept, View()) && count == Capped(|kept| + news)
      ensures var kept := Callbacks(old(View()));
              var wanted := |kept| + (if console then 1 else 0) + (if file then 1 else 0) + systems;
              && kept <= View() && count == (if wanted < 16 then wanted else 16)
              && forall i :: |kept| <= i < count ==>
                   !View()[i].callback && !View()[i].overrideSet && View()[i].got == []
      ensures reopensClosed <==> file && |Callbacks(old(View()))| + Count(console) >= MAX_SINKS
    {
      hide Callbacks, IdsOk, Extends, Overridden;
      CloseNonCallback();
      ghost var kept := View();
      ExtendsRefl(kept);
      var refused := AddAll(Count(console));
      ExtendsTrans(kept, kept, View());
      ghost var before := View();
      reopensClosed := AddAll(Count(file));
      ExtendsTrans(kept, before, View());
      before := View();
      refused := AddAll(systems);
      ExtendsTrans(kept, before, View());
      AddedAreFresh(kept, View());
      Recompute();
    }

    /** New sinks, one after the other; returns whether one was refused. */
    method AddAll(newSinks: nat) returns (refused: bool)
      requires Consistent() && nextId + newSinks < ID_SPAN
      modifies this, sinks
      ensures Consistent() && sinks == old(sinks) && written == old(written)
      ensures Extends(old(View()), View()) && count == Capped(old(count) + newSinks)
      ensures nextId <= old(nextId) + newSinks
      ensures refused <==> old(count) + newSinks > MAX_SINKS
    {
      hide IdsOk;
      refused := false;
      ghost var kept := View();
      for n := 0 to newSinks
        invariant Consistent() && sinks == old(sinks) && written == old(written)
        invariant nextId <= old(nextId) + n && Extends(kept, View()) && count == Capped(|kept| + n)
        invariant refused <==> |kept| + n > MAX_SINKS
      {
        var id := Add(false, TRACE);
        refused := refused || id == 0;
      }
    }

    /** `hx_core_emit_to_sinks`. */
    method Emit(level: int, line: string, target: nat, countStats: bool)
      requires Consistent()
      modifies sinks, `written
      ensures count == old(count) && Consistent()
      ensures forall i :: 0 <= i < count ==> sinks[i] == Emitted(old(sinks[i]), level, line, target)
      ensures forall i :: 0 <= i < count ==>
                var s := old(sinks[i]);
                sinks[i] == if (if target == 0 then !s.overrideSet else s.id == target) && level >= s.minLevel
                            then s.(got := s.got + [line])
                            else s
      ensures written == old(written) + (if countStats then 1 else 0)
    {
      hide IdsOk;
      ghost var before := View();
      var i := 0;
      while i < count
        invariant i <= count == old(count) && written == old(written)
        invariant forall k :: 0 <= k < count ==>
                    sinks[k] == if k < i then Emitted(old(sinks[k]), level, line, target) else old(sinks[k])
      {
        if (if target == 0 then !sinks[i].overrideSet else sinks[i].id == target) {
          if level >= sinks[i].minLevel {
            sinks[i] := sinks[i].(got := sinks[i].got + [line]);
          }
        }
        i := i + 1;
      }
      SameIds(before, View(), nextId);
      if countStats {
        written := written + 1;
      }
    }

    /** The overrides, and how many sinks use the default format. */
    method Collect(settings: Format) returns (snaps: seq<Snap>, defaults: nat)
      requires Consistent()
      ensures snaps == Snaps(View(), settings) && defaults == count - |snaps|
    {
      snaps, defaults := [], 0;
      assert View()[..0] == [];
      for i := 0 to count
        invariant snaps == Snaps(View()[..i], settings) && defaults == i - |snaps|
      {
        assert View()[..i + 1][..i] == View()[..i];
        if sinks[i].overrideSet && |snaps| < MAX_SINKS {
          snaps := snaps + [Snap(sinks[i].id, FormatOf(sinks[i], settings))];
        } else if !sinks[i].overrideSet {
          defaults := defaults + 1;
        }
      }
      assert View()[..count] == View();
    }

    /** The override loop of `core_dispatch_record`: each variant goes to its own sink,
      * and the first one counts the record if nothing did before. */
    method EmitOverrides(level: int, snaps: seq<Snap>, render: Format -> string, counted: bool)
      requires Consistent() && forall k :: 0 <= k < |snaps| ==> snaps[k].id != 0
      modifies sinks, `written
      ensures count == old(count) && Consistent()
      ensures forall i :: 0 <= i < count ==>
                sinks[i] == Given(old(sinks[i]), LinesFor(old(sinks[i]), level, snaps, render))
      ensures written == old(written) + (if !counted && snaps != [] then 1 else 0)
    {
      var done := counted;
      NoLinesYet(level, render);
      for k := 0 to |snaps|
        invariant count == old(count) && Consistent()
        invariant forall i :: 0 <= i < count ==>
                    sinks[i] == Given(old(sinks[i]), LinesFor(old(sinks[i]), level, snaps[..k], render))
        invariant done == (counted || k > 0)
        invariant written == old(written) + (if !counted && k > 0 then 1 else 0)
      {
        ghost var before := View();
        Emit(level, render(snaps[k].format), snaps[k].id, !done);
        forall i | 0 <= i < count
          ensures sinks[i] == Given(old(sinks[i]), LinesFor(old(sinks[i]), level, snaps[..k + 1], render))
        {
          assert before[i] == Given(old(sinks[i]), LinesFor(old(sinks[i]), level, snaps[..k], render));
          LinesForNext(old(sinks[i]), level, snaps, k, render);
        }
        done := true;
      }
      assert snaps[..|snaps|] == snaps;
    }

    /** `core_dispatch_record` in synchronous mode: every sink that admits the level gets
      * the record once, in its own format; the record counts once. */
    method DispatchRecord(level: int, settings: Format, render: Format -> string)
      requires Valid()
      modifies sinks, `written
      ensures Valid() && count == old(count)
      ensures forall i :: 0 <= i < count ==> sinks[i] == Reached(old(sinks[i]), level, settings, render)
      ensures forall i :: 0 <= i < count ==>
                var s := old(sinks[i]);
                var pattern := if s.overrideHasPattern then s.overridePattern else settings.pattern;
                var line := render(if s.overrideSet then Format(pattern, s.overrideMode, 0) else settings);
                && (level < s.minLevel ==> sinks[i] == s)
                && (level >= s.minLevel ==> sinks[i] == s.(got := s.got + [line]))
      ensures written == old(written) + 1
    {
      hide IdsOk, UniqueIds, Overridden, Reached;
      ghost var start := View();
      Deliver(level, settings, render);
      forall i | 0 <= i < count
        ensures sinks[i] == Reached(start[i], level, settings, render)
      {
      }
      forall s: Sink { ReachedExactly(s, level, settings, render); }
    }

    /** The default line first, then the overrides. */
    method Deliver(level: int, settings: Format, render: Format -> string)
      requires Valid()
      modifies sinks, `written
      ensures Valid() && count == old(count)
      ensures forall i :: 0 <= i < count ==> sinks[i] == Reached(old(sinks[i]), level, settings, render)
      ensures written == old(written) + 1
    {
      hide IdsOk, UniqueIds, Overridden, Snaps, LinesFor, FormatOf;
      ghost var start := View();
      IdsAreUnique(start, nextId);
      OverriddenBound(start);
      var snaps: seq<Snap>, haveDefaults, counted := [], true, false;
      NoSnaps(start, settings);
      if overrideCount > 0 {
        var defaults;
        snaps, defaults := Collect(settings);
        haveDefaults := defaults > 0;
      }
      SnapIds(start, settings);
      if haveDefaults || |snaps| == 0 {
        Emit(level, render(settings), 0, true);
        counted := true;
      }
      ghost var middle := View();
      EmitOverrides(level, snaps, render, counted);
      forall i | 0 <= i < count ensures sinks[i] == Reached(start[i], level, settings, render) {
        OwnLineOnce(start, settings, level, render, i, middle[i]);
        OneOfTwo(start[i], middle[i], level, settings, render);
      }
      OverriddenSame(start, View());
    }
  }
}
