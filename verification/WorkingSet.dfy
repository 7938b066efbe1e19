/** The working set of `hx_rotate_cleanup` in src/hx_clog_rotate.c: four parallel
  * arrays that grow by doubling, are insertion-sorted by key and compacted, all in
  * place. */
module WorkingSet {

  /** `compressed`: 0 plain, 1 compressed on disk, 2 compressed just now (the name
    * still lacks its ".gz"). An empty name marks a removed entry. */
  datatype Entry = Entry(name: string, mtime: int, key: int, compressed: int)

  const NO_ENTRY := Entry("", 0, 0, 0)

  predicate Sorted(es: seq<Entry>) {
    forall i, j :: 0 <= i < j < |es| ==> es[i].key <= es[j].key
  }

  /** The entries that are not marked as removed. */
  function Kept(es: seq<Entry>): seq<Entry> {
    if es == [] then []
    else
      var n := |es| - 1;
      Kept(es[..n]) + (if es[n].name != "" then [es[n]] else [])
  }

  /** Take entry `i` out and put it back at position `at` in front of it. */
  function MoveBack(es: seq<Entry>, i: nat, at: nat): (r: seq<Entry>)
    requires at <= i < |es|
    ensures |r| == |es|
  {
    es[..at] + [es[i]] + es[at..i] + es[i + 1..]
  }

  lemma MoveBackPermutes(es: seq<Entry>, i: nat, at: nat)
    requires at <= i < |es|
    ensures multiset(MoveBack(es, i, at)) == multiset(es)
  {
    assert es == es[..at] + es[at..i] + [es[i]] + es[i + 1..];
  }

  lemma MoveBackTake(es: seq<Entry>, n: nat, i: nat, at: nat)
    requires at <= i < n <= |es|
    ensures MoveBack(es, i, at)[..n] == MoveBack(es[..n], i, at)
  {
    assert es[i + 1..][..n - i - 1] == es[..n][i + 1..];
  }

  lemma MoveBackSorts(es: seq<Entry>, i: nat, at: nat)
    requires at <= i < |es| && Sorted(es[..i])
    requires forall k :: 0 <= k < at ==> es[k].key <= es[i].key
    requires forall k :: at <= k < i ==> es[i].key < es[k].key
    ensures Sorted(MoveBack(es, i, at)[..i + 1])
  {
    var r := MoveBack(es, i, at)[..i + 1];
    assert r == es[..at] + [es[i]] + es[at..i];
    forall a, b | 0 <= a < b < |r| ensures r[a].key <= r[b].key {
      var x := if a < at then a else a - 1;
      var y := if b < at then b else b - 1;
      assert a != at ==> r[a] == es[..i][x];
      assert b != at ==> r[b] == es[..i][y];
    }
  }

  /** The shifting loop has moved the rows from `at` up to `i` one place up. */
  ghost predicate Gap(start: seq<Entry>, rows: seq<Entry>, i: nat, at: nat)
    requires i < |start|
  {
    && at <= i && |rows| == |start|
    && (forall k :: 0 <= k <= at ==> rows[k] == start[k])
    && (forall k :: at < k <= i ==> rows[k] == start[k - 1])
    && (forall k :: i < k < |start| ==> rows[k] == start[k])
  }

  lemma GapNone(start: seq<Entry>, i: nat)
    requires i < |start|
    ensures Gap(start, start, i, i)
  {
  }

  lemma GapStep(start: seq<Entry>, rows: seq<Entry>, i: nat, at: nat)
    requires i < |start| && 0 < at && Gap(start, rows, i, at)
    ensures rows[at - 1] == start[at - 1]
    ensures Gap(start, rows[at := rows[at - 1]], i, at - 1)
  {
  }

  lemma GapFilled(start: seq<Entry>, rows: seq<Entry>, i: nat, at: nat)
    requires i < |start| && Gap(start, rows, i, at)
    ensures at > 0 ==> rows[at - 1] == start[at - 1]
    ensures rows[at := start[i]] == MoveBack(start, i, at)
  {
  }

  lemma BelowStop(start: seq<Entry>, i: nat, at: nat)
    requires at <= i < |start| && Sorted(start[..i])
    requires at > 0 ==> start[at - 1].key <= start[i].key
    ensures forall k :: 0 <= k < at ==> start[k].key <= start[i].key
  {
    forall k | 0 <= k < at ensures start[k].key <= start[i].key {
      assert start[..i][k].key <= start[..i][at - 1].key;
    }
  }

  lemma KeptSnoc(es: seq<Entry>, n: nat)
    requires n < |es|
    ensures Kept(es[..n + 1]) == Kept(es[..n]) + (if es[n].name != "" then [es[n]] else [])
  {
    assert es[..n + 1][..n] == es[..n];
  }

  lemma {:induction false} KeptLength(es: seq<Entry>)
    ensures |Kept(es)| <= |es|
    ensures forall e :: e in Kept(es) ==> e in es && e.name != ""
  {
    if es != [] {
      KeptLength(es[..|es| - 1]);
    }
  }

  /** Dropping removed entries keeps a sorted list sorted. */
  lemma {:induction false} KeptSorted(es: seq<Entry>)
    requires Sorted(es)
    ensures Sorted(Kept(es))
  {
    if es != [] {
      KeptSorted(es[..|es| - 1]);
      KeptLength(es[..|es| - 1]);
      var front := Kept(es[..|es| - 1]);
      forall k | 0 <= k < |front| ensures front[k].key <= es[|es| - 1].key {
        assert front[k] in es[..|es| - 1];
      }
    }
  }

  /** `malloc` and `memcpy` of one of the arrays. */
  method Enlarged<T>(src: array<T>, size: nat, rest: T) returns (dst: array<T>)
    requires src.Length <= size
    ensures fresh(dst) && dst.Length == size
    ensures forall i :: 0 <= i < src.Length ==> dst[i] == src[i]
    ensures forall i :: src.Length <= i < size ==> dst[i] == rest
  {
    dst := new T[size](i => rest);
    forall i | 0 <= i < src.Length {
      dst[i] := src[i];
    }
  }

  class Arrays {
    var names: array<string>
    var mtimes: array<int>
    var keys: array<int>
    var compressed: array<int>
    var count: nat
    var cap: nat
    var oom: bool
    ghost var rows: seq<Entry>

    ghost predicate Valid()
      reads this, names, mtimes, keys, compressed
    {
      && 0 < cap && |rows| == cap && count <= cap
      && names.Length == mtimes.Length == keys.Length == compressed.Length == cap
      && mtimes != keys && mtimes != compressed && keys != compressed
      && (forall i :: 0 <= i < cap ==>
            rows[i] == Entry(names[i], mtimes[i], keys[i], compressed[i]))
    }

    /** The collected entries. */
    ghost function Entries(): (es: seq<Entry>)
      reads this
      requires count <= |rows|
      ensures |es| == count
    {
      rows[..count]
    }

    constructor (capacity: nat)
      requires capacity > 0
      ensures Valid() && count == 0 && cap == capacity && !oom
      ensures fresh(names) && fresh(mtimes) && fresh(keys) && fresh(compressed)
    {
      names := new string[capacity](i => "");
      mtimes := new int[capacity](i => 0);
      keys := new int[capacity](i => 0);
      compressed := new int[capacity](i => 0);
      count, cap, oom := 0, capacity, false;
      rows := seq(capacity, i => NO_ENTRY);
    }

    function Row(i: nat): Entry
      requires Valid() && i < cap
      reads this, names, mtimes, keys, compressed
    {
      Entry(names[i], mtimes[i], keys[i], compressed[i])
    }

    method Put(i: nat, e: Entry)
      requires Valid() && i < cap
      modifies this`rows, names, mtimes, keys, compressed
      ensures Valid() && rows == old(rows)[i := e]
    {
      names[i] := e.name;
      mtimes[i] := e.mtime;
      keys[i] := e.key;
      compressed[i] := e.compressed;
      rows := rows[i := e];
    }

    /** `collect_grow`: four larger arrays, the old contents copied; nothing changes
      * when an allocation fails, except that `oom` is set. */
    method Grow(haveMemory: bool)
      requires Valid()
      modifies this
      ensures Valid() && count == old(count) && Entries() == old(Entries())
      ensures if haveMemory
              then cap == 2 * old(cap) && oom == old(oom)
                   && fresh(names) && fresh(mtimes) && fresh(keys) && fresh(compressed)
              else cap == old(cap) && oom && names == old(names) && mtimes == old(mtimes)
                   && keys == old(keys) && compressed == old(compressed)
    {
      if haveMemory {
        Double();
      } else {
        oom := true;
      }
    }

    /** The allocations of `collect_grow` and what they hold. */
    method Double()
      requires Valid()
      modifies this`names, this`mtimes, this`keys, this`compressed, this`rows, this`cap
      ensures Valid() && Entries() == old(Entries()) && cap == 2 * old(cap)
      ensures fresh(names) && fresh(mtimes) && fresh(keys) && fresh(compressed)
    {
      names := Enlarged(names, cap * 2, "");
      mtimes := Enlarged(mtimes, cap * 2, 0);
      keys := Enlarged(keys, cap * 2, 0);
      compressed := Enlarged(compressed, cap * 2, 0);
      rows := rows + seq(cap, i => NO_ENTRY);
      cap := cap * 2;
    }

    /** The end of `collect_cb`: store one more entry, growing first when full. */
    method Append(e: Entry, haveMemory: bool)
      requires Valid() && !oom
      modifies this, names, mtimes, keys, compressed
      ensures Valid()
      ensures if oom then !haveMemory && Entries() == old(Entries())
              else Entries() == old(Entries()) + [e]
      ensures names == old(names) || fresh(names)
      ensures mtimes == old(mtimes) || fresh(mtimes)
      ensures keys == old(keys) || fresh(keys)
      ensures compressed == old(compressed) || fresh(compressed)
    {
      if count >= cap {
        Grow(haveMemory);
        if oom {
          return;
        }
      }
      Put(count, e);
      count := count + 1;
    }

    /** The inner loop of the sort: shift larger rows up and put row `i` below them. */
    method Sink(i: nat) returns (ghost at: nat)
      requires Valid() && i < count && Sorted(rows[..i])
      modifies this`rows, names, mtimes, keys, compressed
      ensures Valid() && at <= i && rows == MoveBack(old(rows), i, at)
      ensures Sorted(rows[..i + 1])
    {
      hide Gap, Sorted, MoveBack;
      ghost var start := rows;
      var e := Row(i);
      GapNone(start, i);
      var j: int := i - 1;
      while j >= 0 && keys[j] > e.key
        invariant -1 <= j < i && Valid()
        invariant Gap(start, rows, i, j + 1)
        invariant forall k :: j < k < i ==> e.key < start[k].key
      {
        GapStep(start, rows, i, j + 1);
        Put(j + 1, Row(j));
        j := j - 1;
      }
      at := j + 1;
      GapFilled(start, rows, i, at);
      Put(j + 1, e);
      BelowStop(start, i, at);
      MoveBackSorts(start, i, at);
    }

    /** The insertion sort, oldest entry first. */
    method Sort()
      requires Valid()
      modifies this`rows, names, mtimes, keys, compressed
      ensures Valid() && Sorted(Entries())
      ensures multiset(Entries()) == multiset(old(Entries()))
    {
      var i := 1;
      while i < count
        invariant 1 <= i && Valid()
        invariant Sorted(rows[..if i <= count then i else count])
        invariant multiset(rows[..count]) == multiset(old(rows)[..count])
      {
        ghost var before := rows;
        ghost var at := Sink(i);
        MoveBackTake(before, count, i, at);
        MoveBackPermutes(before[..count], i, at);
        i := i + 1;
      }
    }

    /** Close the gaps that removed entries left. */
    method Compact()
      requires Valid()
      modifies this`rows, this`count, names, mtimes, keys, compressed
      ensures Valid() && Entries() == Kept(old(Entries()))
    {
      hide Kept;
      ghost var start := rows[..count];
      KeptNone(start);
      var n := 0;
      for i := 0 to count
        invariant 0 <= n <= i && Valid() && count == |start|
        invariant rows[..n] == Kept(start[..i])
        invariant rows[i..count] == start[i..]
      {
        assert rows[i] == rows[i..count][0] == start[i];
        KeptSnoc(start, i);
        ghost var before := rows;
        if names[i] != "" {
          if n != i {
            Put(n, Row(i));
          }
          assert rows == before[n := start[i]];
          n := n + 1;
        }
        TailStays(before, rows, i, count);
      }
      assert start[..|start|] == start;
      count := n;
    }
  }

  lemma TailStays(before: seq<Entry>, after: seq<Entry>, i: nat, count: nat)
    requires i < count <= |before| == |after|
    requires forall k :: i < k < count ==> after[k] == before[k]
    ensures after[i + 1..count] == before[i..count][1..]
  {
  }

  lemma KeptNone(es: seq<Entry>)
    ensures Kept(es[..0]) == []
  {
  }
}
