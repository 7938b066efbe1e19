/** Names of rotated files: the naming scheme, its recogniser, the order key and the
  * index scan of src/hx_clog_rotate.c. */
module ArchiveNames {
  import opened Common
  import opened Decimal

  /** A calendar day as it appears in an archive name. */
  datatype Day = Day(year: nat, month: nat, mday: nat)

  predicate ValidDay(d: Day) {
    d.year <= 9999 && 1 <= d.month <= 12 && 1 <= d.mday <= 31
  }

  // ---- split_name ----

  /** The name splits at its last dot, unless that is its first character. */
  predicate HasExtension(name: string) {
    LastDot(name).Some? && LastDot(name).value > 0
  }

  function StemOf(name: string): string {
    if HasExtension(name) then name[..LastDot(name).value] else name
  }

  function ExtensionOf(name: string): string {
    if HasExtension(name) then name[LastDot(name).value + 1..] else ""
  }

  /** `for (p = from; p < to && i + 1 < cap; ++p) out[i++] = *p;` */
  method CopyBounded(src: string, from: nat, to: nat, cap: nat) returns (out: string)
    requires from <= to <= |src| && cap > 0
    ensures out == Take(src[from..to], cap - 1)
  {
    out := "";
    var p := from;
    while p < to && |out| + 1 < cap
      invariant from <= p <= to && out == src[from..p] && |out| <= cap - 1
    {
      out := out + [src[p]];
      p := p + 1;
    }
    assert src[from..p] == src[from..to][..p - from];
  }

  /** `split_name`. */
  method SplitName(name: string, stemCap: nat, extCap: nat) returns (stem: string, ext: string)
    requires stemCap > 0 && extCap > 0
    ensures stem == Take(StemOf(name), stemCap - 1)
    ensures ext == Take(ExtensionOf(name), extCap - 1)
  {
    var dot := -1;
    var p := 0;
    while p < |name|
      invariant 0 <= p <= |name|
      invariant dot == if LastDot(name[..p]).Some? then LastDot(name[..p]).value else -1
    {
      assert name[..p + 1][..p] == name[..p];
      if name[p] == '.' {
        dot := p;
      }
      p := p + 1;
    }
    assert name[..|name|] == name;
    if dot <= 0 {
      stem := CopyBounded(name, 0, |name|, stemCap);
      return stem, "";
    }
    stem := CopyBounded(name, 0, dot, stemCap);
    ext := CopyBounded(name, dot + 1, |name|, extCap);
  }

  /** Stem and extension are what is before and behind the last dot; a name without one,
    * or with one in front only, is all stem. */
  lemma SplitExactly(name: string)
    ensures forall k :: 0 < k < |name| && name[k] == '.' && (forall j :: k < j < |name| ==> name[j] != '.') ==>
                          StemOf(name) == name[..k] && ExtensionOf(name) == name[k + 1..]
    ensures (forall k :: 0 < k < |name| ==> name[k] != '.') ==> StemOf(name) == name && ExtensionOf(name) == ""
  {
  }

  // ---- make_archive_name ----

  /** `%04d-%02d-%02d`. */
  function DateTag(d: Day): string {
    Pad(d.year, 4) + "-" + Pad(d.month, 2) + "-" + Pad(d.mday, 2)
  }

  function Suffix(ext: string): string {
    if ext == "" then "" else "." + ext
  }

  function ArchiveName(stem: string, ext: string, d: Day, index: nat): string {
    stem + "." + DateTag(d) + "." + Dec(index) + Suffix(ext)
  }

  // ---- sscanf and atoi ----

  datatype Scan<+T> = NoMatch | Match(value: T, rest: string)

  predicate IsSpace(c: char) {
    c == ' ' || 9 <= c as int <= 13
  }

  function SkipSpaces(s: string): string {
    if s != "" && IsSpace(s[0]) then SkipSpaces(s[1..]) else s
  }

  function MinNat(a: nat, b: nat): nat {
    if a < b then a else b
  }

  /** `%<width>d`: white space, then at most `width` characters of sign and digits. */
  function ScanInt(s: string, width: nat): Scan<int> {
    var t := SkipSpaces(s);
    var signed := t != "" && width > 0 && (t[0] == '-' || t[0] == '+');
    var u := if signed then t[1..] else t;
    var n := MinNat(DigitRun(u), if signed then width - 1 else width);
    if n == 0 then NoMatch
    else
      PrefixOfDigits(u, n);
      Match((if signed && t[0] == '-' then -1 else 1) * ValueOf(u[..n]), u[n..])
  }

  lemma PrefixOfDigits(u: string, n: nat)
    requires n <= DigitRun(u)
    ensures n <= |u| && AllDigits(u[..n])
  {
    assert u[..n] == u[..DigitRun(u)][..n];
  }

  function ScanChar(s: string, c: char): Scan<()> {
    if s != "" && s[0] == c then Match((), s[1..]) else NoMatch
  }

  datatype Stamp = Stamp(year: int, month: int, mday: int, index: int)

  /** `"%4d-%2d-%2d.%d%n"`: all four numbers, and what follows them. */
  function ScanStamp(s: string): Scan<Stamp> {
    var y := ScanInt(s, 4);
    if y.NoMatch? || ScanChar(y.rest, '-').NoMatch? then NoMatch
    else
      var m := ScanInt(ScanChar(y.rest, '-').rest, 2);
      if m.NoMatch? || ScanChar(m.rest, '-').NoMatch? then NoMatch
      else
        var d := ScanInt(ScanChar(m.rest, '-').rest, 2);
        if d.NoMatch? || ScanChar(d.rest, '.').NoMatch? then NoMatch
        else
          var rest := ScanChar(d.rest, '.').rest;
          var i := ScanInt(rest, |rest|);
          if i.NoMatch? then NoMatch
          else Match(Stamp(y.value, m.value, d.value, i.value), i.rest)
  }

  function Atoi(s: string): int {
    var i := ScanInt(s, |s|);
    if i.Match? then i.value else 0
  }

  // ---- archive_name_match, archive_order_key, index_cb ----

  /** Is `fname` a backup? Some(true) for a compressed one. */
  function MatchArchive(fname: string, prefix: string, ext: string): Option<bool> {
    if !StartsWith(fname, prefix) then None
    else
      var stamp := ScanStamp(fname[|prefix|..]);
      if stamp.NoMatch? || stamp.value.index < 0
         || stamp.value.month < 1 || stamp.value.month > 12
         || stamp.value.mday < 1 || stamp.value.mday > 31 then None
      else if stamp.rest == Suffix(ext) then Some(false)
      else if stamp.rest == Suffix(ext) + ".gz" then Some(true)
      else None
  }

  const INDEX_SPAN := 100000000

  function KeyOf(year: int, month: int, mday: int, index: int): int {
    (year * 10000 + month * 100 + mday) * INDEX_SPAN + index
  }

  function OrderKey(fname: string, prefix: string, fallback: int): int
    requires |prefix| <= |fname|
  {
    var stamp := ScanStamp(fname[|prefix|..]);
    if stamp.Match? && stamp.value.index >= 0
    then KeyOf(stamp.value.year, stamp.value.month, stamp.value.mday, stamp.value.index)
    else fallback
  }

  /** The index that the scan for `needle` reads off a name. */
  function IndexIn(fname: string, needle: string): int {
    if StartsWith(fname, needle) then Atoi(fname[|needle|..]) else 0
  }

  function Needle(stem: string, d: Day): string {
    stem + "." + DateTag(d) + "."
  }

  /** The scan over a directory listing, `index_cb` called for every entry. */
  method NextIndex(listing: seq<string>, stem: string, d: Day) returns (index: int)
    ensures index >= 1
    ensures forall k :: 0 <= k < |listing| ==> IndexIn(listing[k], Needle(stem, d)) < index
    ensures index == 1 || exists k :: 0 <= k < |listing|
                                      && IndexIn(listing[k], Needle(stem, d)) == index - 1
  {
    hide Atoi, Needle;
    var needle := Needle(stem, d);
    var maxIndex := 0;
    for n := 0 to |listing|
      invariant maxIndex >= 0
      invariant forall k :: 0 <= k < n ==> IndexIn(listing[k], needle) <= maxIndex
      invariant maxIndex == 0 || exists k :: 0 <= k < n && IndexIn(listing[k], needle) == maxIndex
    {
      if StartsWith(listing[n], needle) {
        var idx := Atoi(listing[n][|needle|..]);
        if idx > maxIndex {
          maxIndex := idx;
        }
      }
    }
    index := maxIndex + 1;
  }

  // ---- Round trips ----

  /** A number written with exactly `width` digits, or before something that is not a
    * digit, is read back. */
  lemma ScanDigits(d: string, rest: string, width: nat)
    requires d != "" && AllDigits(d) && |d| <= width
    requires |d| == width || rest == "" || !IsDigit(rest[0])
    ensures ScanInt(d + rest, width) == Match(ValueOf(d), rest)
  {
    var s := d + rest;
    assert IsDigit(s[0]);
    assert SkipSpaces(s) == s;
    DigitRunAtLeast(d, rest);
    if |d| < width {
      DigitRunOf(d, rest);
    }
    assert s[..|d|] == d && s[|d|..] == rest;
  }

  lemma {:induction false} DigitRunAtLeast(d: string, rest: string)
    requires AllDigits(d)
    ensures DigitRun(d + rest) >= |d|
  {
    if d != "" {
      assert (d + rest)[1..] == d[1..] + rest;
      DigitRunAtLeast(d[1..], rest);
    }
  }

  lemma DayPads(d: Day)
    requires ValidDay(d)
    ensures |Pad(d.year, 4)| == 4 && |Pad(d.month, 2)| == 2 && |Pad(d.mday, 2)| == 2
    ensures ValueOf(Pad(d.year, 4)) == d.year && ValueOf(Pad(d.month, 2)) == d.month
    ensures ValueOf(Pad(d.mday, 2)) == d.mday
  {
    assert Pow10(2) == 100 && Pow10(4) == 10000;
    PadLength(d.year, 4);
    PadLength(d.month, 2);
    PadLength(d.mday, 2);
    ValueOfPad(d.year, 4);
    ValueOfPad(d.month, 2);
    ValueOfPad(d.mday, 2);
  }

  lemma ScanAfter(d: string, c: char, rest: string, width: nat)
    requires d != "" && AllDigits(d) && |d| == width
    ensures ScanInt(d + ([c] + rest), width) == Match(ValueOf(d), [c] + rest)
    ensures ScanChar([c] + rest, c) == Match((), rest)
  {
    hide ScanInt;
    ScanDigits(d, [c] + rest, width);
    assert ([c] + rest)[1..] == rest;
  }

  /** Scanning a stamp gives back its date and index. */
  lemma StampRoundTrip(d: Day, index: nat, tail: string)
    requires ValidDay(d) && (tail == "" || !IsDigit(tail[0]))
    ensures ScanStamp(DateTag(d) + "." + Dec(index) + tail)
            == Match(Stamp(d.year, d.month, d.mday, index), tail)
  {
    hide ScanInt, ScanChar, Pad, Dec;
    DayPads(d);
    var s3 := Dec(index) + tail;
    var s2 := Pad(d.mday, 2) + ("." + s3);
    var s1 := Pad(d.month, 2) + ("-" + s2);
    var s0 := Pad(d.year, 4) + ("-" + s1);
    assert DateTag(d) + "." + Dec(index) + tail == s0;
    ScanAfter(Pad(d.year, 4), '-', s1, 4);
    ScanAfter(Pad(d.month, 2), '-', s2, 2);
    ScanAfter(Pad(d.mday, 2), '.', s3, 2);
    ValueOfDec(index);
    ScanDigits(Dec(index), tail, |s3|);
  }

  lemma SuffixIsNoDigit(ext: string, tail: string)
    requires tail == Suffix(ext) || tail == Suffix(ext) + ".gz"
    ensures tail == "" || !IsDigit(tail[0])
  {
  }

  /** What is read off an archive name, compressed or not. */
  lemma ArchiveStamp(stem: string, ext: string, d: Day, index: nat, gz: bool)
    requires ValidDay(d)
    ensures var name := ArchiveName(stem, ext, d, index) + (if gz then ".gz" else "");
            var prefix := stem + ".";
            && StartsWith(name, prefix)
            && ScanStamp(name[|prefix|..])
               == Match(Stamp(d.year, d.month, d.mday, index), Suffix(ext) + (if gz then ".gz" else ""))
  {
    hide ScanStamp, Dec, DateTag;
    var tail := Suffix(ext) + (if gz then ".gz" else "");
    var name := ArchiveName(stem, ext, d, index) + (if gz then ".gz" else "");
    var prefix := stem + ".";
    var stamp := DateTag(d) + "." + Dec(index) + tail;
    assert name == prefix + stamp;
    assert name[|prefix|..] == stamp;
    assert Suffix(ext) + "" == Suffix(ext);
    SuffixIsNoDigit(ext, tail);
    StampRoundTrip(d, index, tail);
  }

  /** Every name the program makes is recognised, with the right compressed flag. */
  lemma MadeNamesMatch(stem: string, ext: string, d: Day, index: nat)
    requires ValidDay(d)
    ensures MatchArchive(ArchiveName(stem, ext, d, index), stem + ".", ext) == Some(false)
    ensures MatchArchive(ArchiveName(stem, ext, d, index) + ".gz", stem + ".", ext) == Some(true)
  {
    hide ScanStamp, ArchiveName;
    var name := ArchiveName(stem, ext, d, index);
    ArchiveStamp(stem, ext, d, index, false);
    ArchiveStamp(stem, ext, d, index, true);
    assert name + "" == name && Suffix(ext) + "" == Suffix(ext);
  }

  /** The key of a made name is its date and index. */
  lemma MadeNamesKey(stem: string, ext: string, d: Day, index: nat, gz: bool, fallback: int)
    requires ValidDay(d)
    ensures var name := ArchiveName(stem, ext, d, index) + (if gz then ".gz" else "");
            && |stem + "."| <= |name|
            && OrderKey(name, stem + ".", fallback) == KeyOf(d.year, d.month, d.mday, index)
  {
    hide ScanStamp, ArchiveName;
    ArchiveStamp(stem, ext, d, index, gz);
  }

  predicate DayBefore(a: Day, b: Day) {
    a.year < b.year
    || (a.year == b.year && (a.month < b.month || (a.month == b.month && a.mday < b.mday)))
  }

  /** Keys order names exactly by date and then by index, for indices below 10^8. */
  lemma KeyOrder(a: Day, i: nat, b: Day, j: nat)
    requires ValidDay(a) && ValidDay(b) && i < INDEX_SPAN && j < INDEX_SPAN
    ensures KeyOf(a.year, a.month, a.mday, i) < KeyOf(b.year, b.month, b.mday, j)
            <==> DayBefore(a, b) || (a == b && i < j)
  {
    var x := a.year * 10000 + a.month * 100 + a.mday;
    var y := b.year * 10000 + b.month * 100 + b.mday;
    assert x < y <==> DayBefore(a, b);
    assert x == y <==> a == b;
  }

  function KeyFor(d: Day, index: nat): int {
    KeyOf(d.year, d.month, d.mday, index)
  }

  /** Among indices below `n`, keys order names by date and then by index. */
  ghost predicate KeysOrderBelow(n: nat) {
    forall a, b, i: nat, j: nat :: ValidDay(a) && ValidDay(b) && i < n && j < n ==>
      (KeyFor(a, i) < KeyFor(b, j) <==> DayBefore(a, b) || (a == b && i < j))
  }

  /** 10^8 is the exact limit: the index 10^8 already runs into the next day. */
  lemma KeyOrderExactly(n: nat)
    ensures KeysOrderBelow(n) <==> n <= INDEX_SPAN
  {
    if n <= INDEX_SPAN {
      forall a, b, i: nat, j: nat | ValidDay(a) && ValidDay(b) && i < n && j < n
        ensures KeyFor(a, i) < KeyFor(b, j) <==> DayBefore(a, b) || (a == b && i < j)
      {
        KeyOrder(a, i, b, j);
      }
    } else {
      var a, b := Day(2026, 6, 7), Day(2026, 6, 8);
      assert DayBefore(a, b) && KeyFor(a, INDEX_SPAN) == KeyFor(b, 0);
    }
  }

  /** The index scan reads the index of a made name of the same day. */
  lemma {:induction false} ScanReadsIndex(stem: string, ext: string, d: Day, index: nat, gz: bool)
    requires ValidDay(d)
    ensures IndexIn(ArchiveName(stem, ext, d, index) + (if gz then ".gz" else ""), Needle(stem, d))
            == index
  {
    hide ScanInt, Dec, DateTag;
    var tail := Suffix(ext) + (if gz then ".gz" else "");
    var needle := Needle(stem, d);
    var name := ArchiveName(stem, ext, d, index) + (if gz then ".gz" else "");
    assert name == needle + (Dec(index) + tail);
    assert name[|needle|..] == Dec(index) + tail;
    assert Suffix(ext) + "" == Suffix(ext);
    SuffixIsNoDigit(ext, tail);
    ValueOfDec(index);
    ScanDigits(Dec(index), tail, |Dec(index) + tail|);
  }

  /** So the name made with the next index exists in no form yet. */
  lemma NextNameIsNew(listing: seq<string>, stem: string, ext: string, d: Day, index: nat)
    requires ValidDay(d)
    requires forall k :: 0 <= k < |listing| ==> IndexIn(listing[k], Needle(stem, d)) < index
    ensures ArchiveName(stem, ext, d, index) !in listing
    ensures ArchiveName(stem, ext, d, index) + ".gz" !in listing
  {
    hide IndexIn, ArchiveName, Needle;
    var name := ArchiveName(stem, ext, d, index);
    ScanReadsIndex(stem, ext, d, index, false);
    ScanReadsIndex(stem, ext, d, index, true);
    assert name + "" == name;
  }

  /** No archive name is the name of the active file. */
  lemma MadeNameIsNotActive(base: string, d: Day, index: nat, gz: bool)
    requires base != ""
    ensures ArchiveName(StemOf(base), ExtensionOf(base), d, index) + (if gz then ".gz" else "") != base
  {
    hide DateTag, Dec;
    assert |Dec(index)| > 0;
    assert |StemOf(base)| + |Suffix(ExtensionOf(base))| <= |base| <= |StemOf(base)| + |ExtensionOf(base)| + 1;
  }

  // ---- Backups of one active file ----

  /** Does `name` look like a backup of the log file `base`? */
  predicate IsBackup(base: string, name: string) {
    MatchArchive(name, StemOf(base) + ".", ExtensionOf(base)).Some?
  }

  lemma {:induction false} DigitRunAppend(u: string, t: string)
    requires t == "" || !IsDigit(t[0])
    ensures DigitRun(u + t) == DigitRun(u)
  {
    if u == "" {
      assert u + t == t;
    } else {
      assert (u + t)[1..] == u[1..] + t;
      DigitRunAppend(u[1..], t);
    }
  }

  lemma {:induction false} SkipSpacesAppend(s: string, t: string)
    requires SkipSpaces(s) != ""
    ensures SkipSpaces(s + t) == SkipSpaces(s) + t
  {
    if s != "" && IsSpace(s[0]) {
      assert (s + t)[1..] == s[1..] + t;
      SkipSpacesAppend(s[1..], t);
    }
  }

  lemma DigitsAppend(u: string, t: string, limit: nat, limit': nat)
    requires t == "" || !IsDigit(t[0])
    requires limit' == limit || |u| <= limit <= limit'
    ensures MinNat(DigitRun(u + t), limit') == MinNat(DigitRun(u), limit) <= |u|
    ensures var n := MinNat(DigitRun(u), limit);
            (u + t)[..n] == u[..n] && (u + t)[n..] == u[n..] + t
  {
    hide DigitRun;
    DigitRunAppend(u, t);
    DigitRunBound(u);
    SliceOfAppend(u, t, MinNat(DigitRun(u), limit));
  }

  lemma SliceOfAppend(u: string, t: string, n: nat)
    requires n <= |u|
    ensures (u + t)[..n] == u[..n] && (u + t)[n..] == u[n..] + t
  {
  }

  lemma MatchNeedsText(s: string, width: nat)
    requires ScanInt(s, width).Match?
    ensures SkipSpaces(s) != ""
  {
  }

  /** What follows a number does not change how it is read. */
  lemma ScanIntAppend(s: string, t: string, width: nat, width': nat)
    requires ScanInt(s, width).Match?
    requires t == "" || !IsDigit(t[0])
    requires width' == width || (width == |s| && width' >= width)
    ensures ScanInt(s + t, width') == Match(ScanInt(s, width).value, ScanInt(s, width).rest + t)
  {
    hide DigitRun, MinNat, SkipSpaces;
    var u := SkipSpaces(s);
    SkipShortens(s);
    MatchNeedsText(s, width);
    SkipSpacesAppend(s, t);
    if width > 0 && (u[0] == '-' || u[0] == '+') {
      assert (u + t)[1..] == u[1..] + t;
      DigitsAppend(u[1..], t, width - 1, width' - 1);
    } else {
      DigitsAppend(u, t, width, width');
    }
  }

  lemma SkipShortens(s: string)
    ensures |SkipSpaces(s)| <= |s|
  {
  }

  lemma DigitRunBound(u: string)
    ensures DigitRun(u) <= |u|
  {
  }

  lemma ScanCharAppend(s: string, t: string, c: char)
    requires ScanChar(s, c).Match?
    ensures ScanChar(s + t, c) == Match((), ScanChar(s, c).rest + t)
  {
    assert (s + t)[1..] == s[1..] + t;
  }

  lemma ScanStampAppend(s: string, t: string)
    requires ScanStamp(s).Match? && (t == "" || !IsDigit(t[0]))
    ensures ScanStamp(s + t) == Match(ScanStamp(s).value, ScanStamp(s).rest + t)
  {
    hide ScanInt, ScanChar;
    ScanIntAppend(s, t, 4, 4);
    var y := ScanInt(s, 4).rest;
    ScanCharAppend(y, t, '-');
    var s1 := ScanChar(y, '-').rest;
    ScanIntAppend(s1, t, 2, 2);
    var m := ScanInt(s1, 2).rest;
    ScanCharAppend(m, t, '-');
    var s2 := ScanChar(m, '-').rest;
    ScanIntAppend(s2, t, 2, 2);
    var d := ScanInt(s2, 2).rest;
    ScanCharAppend(d, t, '.');
    var s3 := ScanChar(d, '.').rest;
    ScanIntAppend(s3, t, |s3|, |s3 + t|);
  }

  lemma ScanIntRest(s: string, width: nat)
    ensures ScanInt(s, width).Match? ==> |ScanInt(s, width).rest| < |s|
  {
    SkipShortens(s);
  }

  lemma ScanStampRest(s: string)
    requires ScanStamp(s).Match?
    ensures |ScanStamp(s).rest| < |s|
  {
    hide ScanInt;
    ScanIntRest(s, 4);
    var s1 := ScanChar(ScanInt(s, 4).rest, '-').rest;
    ScanIntRest(s1, 2);
    var s2 := ScanChar(ScanInt(s1, 2).rest, '-').rest;
    ScanIntRest(s2, 2);
    var s3 := ScanChar(ScanInt(s2, 2).rest, '.').rest;
    ScanIntRest(s3, |s3|);
  }

  /** Compressing any recognised plain backup, however it came by its name, makes a
    * recognised compressed one. */
  lemma GzOfBackup(name: string, prefix: string, ext: string)
    requires MatchArchive(name, prefix, ext) == Some(false)
    ensures MatchArchive(name + ".gz", prefix, ext) == Some(true)
  {
    hide ScanStamp;
    assert (name + ".gz")[..|prefix|] == name[..|prefix|];
    assert (name + ".gz")[|prefix|..] == name[|prefix|..] + ".gz";
    ScanStampAppend(name[|prefix|..], ".gz");
  }

  /** The active file never looks like a backup of itself, whatever it is called. */
  lemma ActiveIsNoBackup(base: string)
    ensures !IsBackup(base, base)
  {
    hide ScanStamp;
    var prefix := StemOf(base) + ".";
    if IsBackup(base, base) {
      ScanStampRest(base[|prefix|..]);
    }
  }

  // ---- What is never taken for a backup ----

  /** Digits and what may stand between or before them in a stamp. */
  predicate StampText(s: string) {
    forall i :: 0 <= i < |s| ==> IsDigit(s[i]) || IsSpace(s[i]) || s[i] == '-' || s[i] == '+' || s[i] == '.'
  }

  /** `rest` is what is left of `s` behind some stamp text. */
  predicate Consumed(s: string, rest: string) {
    |rest| <= |s| && rest == s[|s| - |rest|..] && StampText(s[..|s| - |rest|])
  }

  lemma ConsumedNone(s: string)
    ensures Consumed(s, s)
  {
  }

  lemma ConsumedOne(s: string)
    requires s != "" && StampText(s[..1])
    ensures Consumed(s, s[1..])
  {
  }

  lemma ConsumedTrans(s: string, t: string, u: string)
    requires Consumed(s, t) && Consumed(t, u)
    ensures Consumed(s, u)
  {
    var n, m := |s| - |t|, |s| - |u|;
    forall i | 0 <= i < m
      ensures IsDigit(s[i]) || IsSpace(s[i]) || s[i] == '-' || s[i] == '+' || s[i] == '.'
    {
      if i < n {
        assert s[..n][i] == s[i];
      } else {
        assert t[..m - n][i - n] == s[i];
      }
    }
  }

  lemma {:induction false} SkipConsumes(s: string)
    ensures Consumed(s, SkipSpaces(s))
  {
    hide Consumed;
    if s != "" && IsSpace(s[0]) {
      SkipConsumes(s[1..]);
      ConsumedOne(s);
      ConsumedTrans(s, s[1..], SkipSpaces(s));
    } else {
      ConsumedNone(s);
    }
  }

  lemma DigitsConsume(u: string, limit: nat)
    ensures var k := MinNat(DigitRun(u), limit); k <= |u| && Consumed(u, u[k..])
  {
    DigitRunBound(u);
    PrefixOfDigits(u, MinNat(DigitRun(u), limit));
  }

  /** A scan consumes stamp text only. */
  lemma ScanIntConsumes(s: string, width: nat)
    requires ScanInt(s, width).Match?
    ensures Consumed(s, ScanInt(s, width).rest)
  {
    hide SkipSpaces, DigitRun, MinNat, Consumed;
    SkipConsumes(s);
    var u := SkipSpaces(s);
    if width > 0 && u != "" && (u[0] == '-' || u[0] == '+') {
      ConsumedOne(u);
      DigitsConsume(u[1..], width - 1);
      ConsumedTrans(s, u, u[1..]);
      ConsumedTrans(s, u[1..], ScanInt(s, width).rest);
    } else {
      DigitsConsume(u, width);
      ConsumedTrans(s, u, ScanInt(s, width).rest);
    }
  }

  lemma ScanCharConsumes(s: string, c: char)
    requires (c == '-' || c == '.') && ScanChar(s, c).Match?
    ensures Consumed(s, ScanChar(s, c).rest)
  {
    ConsumedOne(s);
  }

  lemma ScanStampConsumes(s: string)
    requires ScanStamp(s).Match?
    ensures Consumed(s, ScanStamp(s).rest)
  {
    hide ScanInt, ScanChar, Consumed;
    var y := ScanInt(s, 4).rest;
    var s1 := ScanChar(y, '-').rest;
    var m := ScanInt(s1, 2).rest;
    var s2 := ScanChar(m, '-').rest;
    var d := ScanInt(s2, 2).rest;
    var s3 := ScanChar(d, '.').rest;
    ScanIntConsumes(s, 4);
    ScanCharConsumes(y, '-');
    ConsumedTrans(s, y, s1);
    ScanIntConsumes(s1, 2);
    ConsumedTrans(s, s1, m);
    ScanCharConsumes(m, '-');
    ConsumedTrans(s, m, s2);
    ScanIntConsumes(s2, 2);
    ConsumedTrans(s, s2, d);
    ScanCharConsumes(d, '.');
    ConsumedTrans(s, d, s3);
    ScanIntConsumes(s3, |s3|);
    ConsumedTrans(s, s3, ScanInt(s3, |s3|).rest);
  }

  /** Whatever is taken for a backup has the prefix, nothing but a stamp behind it, and
    * then exactly the extension, with ".gz" if and only if it counts as compressed. So an
    * ordinary file with a letter in between is never touched. */
  lemma RecognisedShape(fname: string, prefix: string, ext: string)
    requires MatchArchive(fname, prefix, ext).Some?
    ensures var gz := MatchArchive(fname, prefix, ext).value;
            var tail := (if ext == "" then "" else "." + ext) + (if gz then ".gz" else "");
            && |prefix| + |tail| < |fname| && fname[..|prefix|] == prefix
            && fname[|fname| - |tail|..] == tail
            && StampText(fname[|prefix|..|fname| - |tail|])
  {
    hide ScanStamp, StampText;
    var s := fname[|prefix|..];
    ScanStampConsumes(s);
    ScanStampRest(s);
    assert Suffix(ext) + "" == Suffix(ext);
    MiddleOf(fname, |prefix|, ScanStamp(s).rest);
  }

  lemma MiddleOf(fname: string, n: nat, rest: string)
    requires n <= |fname| && Consumed(fname[n..], rest)
    ensures |rest| <= |fname| - n && fname[|fname| - |rest|..] == rest && StampText(fname[n..|fname| - |rest|])
  {
    hide StampText;
    var m := |fname| - |rest|;
    assert fname[n..][..m - n] == fname[n..m] && fname[n..][m - n..] == fname[m..];
  }

  lemma BackupHasStamp(base: string, name: string)
    requires IsBackup(base, name)
    ensures var n := |StemOf(base)| + 1; n < |name| && !('a' <= name[n] <= 'z')
  {
    hide ScanStamp;
    var prefix, ext := StemOf(base) + ".", ExtensionOf(base);
    RecognisedShape(name, prefix, ext);
    var tail := (if ext == "" then "" else "." + ext) + (if MatchArchive(name, prefix, ext).value then ".gz" else "");
    assert name[|prefix|..|name| - |tail|][0] == name[|prefix|];
  }

  /** So a file like "audit.notes.log" is no backup of "audit.log". */
  lemma OrdinaryFileIsNoBackup(base: string, name: string)
    requires var n := |StemOf(base)| + 1; n < |name| && 'a' <= name[n] <= 'z'
    ensures !IsBackup(base, name)
  {
    hide IsBackup;
    if IsBackup(base, name) {
      BackupHasStamp(base, name);
    }
  }
}
