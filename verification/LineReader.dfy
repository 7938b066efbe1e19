/** A reader for formatted lines: it takes a line apart along a template and gives back the
  * texts of the fields. With it, what each placeholder of src/hx_clog_format.c prints is
  * tied to the record, and the line of the default pattern is read back. */
module LineReader {
  import opened Common
  import opened Decimal
  import opened LinePattern
  import opened Json

  // ---- What the placeholders print ----

  /** The text is a decimal number of this value. */
  predicate Number(s: string, n: int) {
    s != "" && AllDigits(s) && ValueOf(s) == n
  }

  /** `struct tm` as `localtime` fills it. */
  predicate ValidTm(tm: Tm) {
    && -1900 <= tm.year < 0x8000_0000 && 0 <= tm.mon < 12 && 1 <= tm.mday <= 31
    && 0 <= tm.hour < 24 && 0 <= tm.min < 60 && 0 <= tm.sec <= 60
  }

  lemma PadIsNumber(v: nat, width: nat)
    requires v < 0x1_0000_0000_0000
    ensures Number(UintPad(v, width), v) && |UintPad(v, width)| >= width
    ensures width > 0 && v < Pow10(width) ==> |UintPad(v, width)| == width
  {
    hide Pad, UintPad, ValueOf;
    assert Pow10(4) == 10000 && Pow10(8) == 100000000 by {
      assert Pow10(2) == 100;
    }
    assert Pow10(12) == 1000000000000 && Pow10(16) == 10000000000000000 by {
      assert Pow10(8) == 100000000 && Pow10(9) == 1000000000 && Pow10(10) == 10000000000;
      assert Pow10(13) == 10000000000000 && Pow10(14) == 100000000000000;
    }
    UintPadIsPad(v, width);
    ValueOfPad(v, width);
    if width > 0 && v < Pow10(width) {
      PadLength(v, width);
    }
  }

  lemma DecIsNumber(v: nat)
    ensures Number(Dec(v), v)
  {
    ValueOfDec(v);
  }

  /** The numeric placeholders: each prints its own number, the parts of the date and the
    * time with their fixed widths. */
  lemma PlaceholderNumbers(rec: Record, tm: Tm)
    requires ValidRecord(rec) && ValidTm(tm) && 0 <= rec.line < ULONG
    ensures Number(Expand('Y', rec, tm), tm.year + 1900) && |Expand('Y', rec, tm)| >= 4
    ensures Number(Expand('m', rec, tm), tm.mon + 1) && |Expand('m', rec, tm)| == 2
    ensures Number(Expand('d', rec, tm), tm.mday) && |Expand('d', rec, tm)| == 2
    ensures Number(Expand('H', rec, tm), tm.hour) && |Expand('H', rec, tm)| == 2
    ensures Number(Expand('M', rec, tm), tm.min) && |Expand('M', rec, tm)| == 2
    ensures Number(Expand('S', rec, tm), tm.sec) && |Expand('S', rec, tm)| == 2
    ensures Number(Expand('e', rec, tm), rec.msec)
    ensures rec.msec < 1000 ==> |Expand('e', rec, tm)| == 3
    ensures Number(Expand('t', rec, tm), rec.tid) && Number(Expand('p', rec, tm), rec.pid)
    ensures Number(Expand('#', rec, tm), rec.line)
  {
    hide Number, UintPad, Dec;
    assert Pow10(2) == 100 && Pow10(3) == 1000;
    PadIsNumber(tm.year + 1900, 4);
    PadIsNumber(tm.mon + 1, 2);
    PadIsNumber(tm.mday, 2);
    PadIsNumber(tm.hour, 2);
    PadIsNumber(tm.min, 2);
    PadIsNumber(tm.sec, 2);
    PadIsNumber(rec.msec, 3);
    DecIsNumber(rec.tid);
    DecIsNumber(rec.pid);
    DecIsNumber(rec.line);
  }

  /** The names of the levels, padded to five characters. */
  lemma LevelTexts(rec: Record, tm: Tm)
    ensures var s := Expand('l', rec, tm);
            && |s| == 5
            && (rec.level == 0 <==> s == "TRACE") && (rec.level == 1 <==> s == "DEBUG")
            && (rec.level == 2 <==> s == "INFO ") && (rec.level == 3 <==> s == "WARN ")
            && (rec.level == 4 <==> s == "ERROR") && (rec.level == 5 <==> s == "FATAL")
            && (rec.level == 6 <==> s == "OFF  ") && (rec.level < 0 || rec.level > 6 <==> s == "?????")
  {
    var l := rec.level;
    assert "TRACE"[0] == 'T' && "DEBUG"[0] == 'D' && "INFO "[0] == 'I' && "WARN "[0] == 'W';
    assert "ERROR"[0] == 'E' && "FATAL"[0] == 'F' && "OFF  "[0] == 'O' && "?????"[0] == '?';
  }

  predicate IsSeparator(c: char) {
    c == '/' || c == '\\'
  }

  /** The base name is the end of the path behind its last separator. */
  lemma {:induction false} BasenameExactly(path: string)
    ensures var b := Basename(path); var n := |path| - |b|;
            && 0 <= n && path[n..] == b
            && (forall i :: 0 <= i < |b| ==> !IsSeparator(b[i]))
            && (n > 0 ==> IsSeparator(path[n - 1]))
  {
    if path != "" {
      BasenameExactly(path[..|path| - 1]);
    }
  }

  /** The other placeholders. */
  lemma PlaceholderTexts(rec: Record, tm: Tm)
    ensures Expand('c', rec, tm) == (if rec.logger.Some? then rec.logger.value else "")
    ensures Expand('F', rec, tm) == (if rec.file.Some? then rec.file.value else "")
    ensures Expand('s', rec, tm) == Basename(if rec.file.Some? then rec.file.value else "")
    ensures Expand('!', rec, tm) == (if rec.func.Some? then rec.func.value else "")
    ensures Expand('v', rec, tm) == rec.message
    ensures Expand('x', rec, tm) == (if rec.context.Some? then rec.context.value else "")
    ensures Expand('n', rec, tm) == "\n" && Expand('%', rec, tm) == "%"
  {
  }

  predicate Placeholder(c: char) {
    || c == 'Y' || c == 'm' || c == 'd' || c == 'H' || c == 'M' || c == 'S' || c == 'e' || c == 'l' || c == 'c'
    || c == 't' || c == 'p' || c == 's' || c == 'F' || c == '#' || c == '!' || c == 'v' || c == 'x' || c == 'n'
    || c == '%'
  }

  /** Any other letter is printed with its percent sign. */
  lemma UnknownLetters(c: char, rec: Record, tm: Tm)
    requires !Placeholder(c)
    ensures Expand(c, rec, tm) == ['%', c]
  {
  }

  /** Text without a percent sign is printed as it is. */
  lemma {:induction false} LiteralText(text: string, rest: string, rec: Record, tm: Tm)
    requires '%' !in text
    ensures Render(text + rest, rec, tm) == text + Render(rest, rec, tm)
  {
    if text == "" {
      assert text + rest == rest;
    } else {
      hide Expand;
      assert (text + rest)[1..] == text[1..] + rest;
      LiteralText(text[1..], rest, rec, tm);
    }
  }

  /** A placeholder, text behind it, and the rest of the pattern. */
  lemma Segment(c: char, text: string, rest: string, rec: Record, tm: Tm)
    requires '%' !in text
    ensures Render("%" + [c] + text + rest, rec, tm) == Expand(c, rec, tm) + text + Render(rest, rec, tm)
  {
    hide Expand;
    var p := "%" + [c] + text + rest;
    assert p[2..] == text + rest;
    LiteralText(text, rest, rec, tm);
  }

  // ---- Templates ----

  /** How the text of a field ends: with its digits, after a fixed length, before the first
    * character of what follows it, or at the end of the line. */
  datatype Kind = Digits | Exactly(n: nat) | Before | Everything

  /** A field and the text between it and the next one. */
  datatype Part = Part(kind: Kind, after: string)

  /** Length of the longest prefix without `c`. */
  function RunBefore(s: string, c: char): (n: nat)
    ensures n <= |s|
  {
    if s == "" || s[0] == c then 0 else 1 + RunBefore(s[1..], c)
  }

  function FieldLength(part: Part, s: string): nat {
    match part.kind
    case Digits => DigitRun(s)
    case Exactly(n) => n
    case Before => if part.after == "" then 0 else RunBefore(s, part.after[0])
    case Everything => if |part.after| <= |s| then |s| - |part.after| else 0
  }

  /** The texts of the fields, if the line has the form of the template. */
  function Read(parts: seq<Part>, s: string): Option<seq<string>>
    decreases |parts|
  {
    if parts == [] then (if s == "" then Some([]) else None)
    else
      var n := FieldLength(parts[0], s);
      if n <= |s| && StartsWith(s[n..], parts[0].after) then
        var more := Read(parts[1..], s[n + |parts[0].after|..]);
        if more.Some? then Some([s[..n]] + more.value) else None
      else None
  }

  function Print(parts: seq<Part>, texts: seq<string>): string
    requires |parts| == |texts|
  {
    if parts == [] then "" else texts[0] + parts[0].after + Print(parts[1..], texts[1..])
  }

  /** The field ends where its kind says. */
  predicate Fits(part: Part, text: string, last: bool) {
    match part.kind
    case Digits => AllDigits(text) && (if part.after == "" then last else !IsDigit(part.after[0]))
    case Exactly(n) => |text| == n
    case Before => part.after != "" && part.after[0] !in text
    case Everything => last
  }

  lemma {:induction false} RunBeforeOf(text: string, c: char, rest: string)
    requires c !in text && rest != "" && rest[0] == c
    ensures RunBefore(text + rest, c) == |text|
  {
    if text == "" {
      assert text + rest == rest;
    } else {
      assert (text + rest)[1..] == text[1..] + rest;
      RunBeforeOf(text[1..], c, rest);
    }
  }

  lemma FieldEnds(part: Part, text: string, rest: string, last: bool)
    requires Fits(part, text, last) && (last ==> rest == "")
    ensures FieldLength(part, text + (part.after + rest)) == |text|
  {
    var tail := part.after + rest;
    match part.kind
    case Digits => DigitRunOf(text, tail);
    case Exactly(_) =>
    case Before => RunBeforeOf(text, part.after[0], tail);
    case Everything =>
  }

  /** What is printed along a template is read back. */
  lemma {:induction false} ReadBack(parts: seq<Part>, texts: seq<string>)
    requires |parts| == |texts|
    requires forall i :: 0 <= i < |parts| ==> Fits(parts[i], texts[i], i == |parts| - 1)
    ensures Read(parts, Print(parts, texts)) == Some(texts)
    decreases |parts|
  {
    hide Fits, FieldLength;
    if parts != [] {
      var text, after, rest := texts[0], parts[0].after, Print(parts[1..], texts[1..]);
      var s := Print(parts, texts);
      assert s == text + (after + rest);
      assert |parts| == 1 ==> parts[1..] == [];
      FieldEnds(parts[0], text, rest, |parts| == 1);
      assert s[..|text|] == text && s[|text|..] == after + rest && s[|text| + |after|..] == rest;
      ReadBack(parts[1..], texts[1..]);
      assert texts == [text] + texts[1..];
    }
  }

  // ---- The default pattern ----

  /** A placeholder with the kind of its text and what is printed behind it. */
  datatype Seg = Seg(c: char, kind: Kind, after: string)

  function PatternFrom(segs: seq<Seg>): string {
    if segs == [] then ""
    else "%" + [segs[0].c] + (if segs[0].after == "\n" then "%n" else segs[0].after) + PatternFrom(segs[1..])
  }

  function PartsFrom(segs: seq<Seg>): (parts: seq<Part>)
    ensures |parts| == |segs|
    ensures forall i :: 0 <= i < |segs| ==> parts[i] == Part(segs[i].kind, segs[i].after)
  {
    seq(|segs|, i requires 0 <= i < |segs| => Part(segs[i].kind, segs[i].after))
  }

  function TextsFrom(segs: seq<Seg>, rec: Record, tm: Tm): (texts: seq<string>)
    ensures |texts| == |segs|
    ensures forall i :: 0 <= i < |segs| ==> texts[i] == Expand(segs[i].c, rec, tm)
  {
    seq(|segs|, i requires 0 <= i < |segs| => Expand(segs[i].c, rec, tm))
  }

  /** A pattern made of such segments renders as its template prints. */
  lemma {:induction false} RenderIsPrint(segs: seq<Seg>, rec: Record, tm: Tm)
    requires forall i :: 0 <= i < |segs| ==> '%' !in segs[i].after
    ensures Render(PatternFrom(segs), rec, tm) == Print(PartsFrom(segs), TextsFrom(segs, rec, tm))
  {
    hide Expand, Render;
    if segs == [] {
      NothingRenders(rec, tm);
    } else {
      var s, rest := segs[0], PatternFrom(segs[1..]);
      RenderIsPrint(segs[1..], rec, tm);
      assert PartsFrom(segs)[1..] == PartsFrom(segs[1..]);
      assert TextsFrom(segs, rec, tm)[1..] == TextsFrom(segs[1..], rec, tm);
      if s.after == "\n" {
        NewlineSegment(s.c, rest, rec, tm);
      } else {
        Segment(s.c, s.after, rest, rec, tm);
      }
    }
  }

  lemma NothingRenders(rec: Record, tm: Tm)
    ensures Render("", rec, tm) == ""
  {
  }

  lemma NewlineSegment(c: char, rest: string, rec: Record, tm: Tm)
    ensures Render("%" + [c] + "%n" + rest, rec, tm) == Expand(c, rec, tm) + "\n" + Render(rest, rec, tm)
  {
    hide Expand;
    var p := "%" + [c] + "%n" + rest;
    assert p[2..] == "%n" + rest && p[2..][2..] == rest;
    PlaceholderTexts(rec, tm);
  }

  /** The placeholders of the default pattern, in three groups. */
  function StampSegs(): seq<Seg> {
    [Seg('Y', Digits, "-"), Seg('m', Digits, "-"), Seg('d', Digits, " "), Seg('H', Digits, ":"),
     Seg('M', Digits, ":"), Seg('S', Digits, "."), Seg('e', Digits, " [")]
  }

  function OriginSegs(): seq<Seg> {
    [Seg('l', Exactly(5), "] [tid:"), Seg('t', Digits, "] "), Seg('s', Before, ":"), Seg('#', Digits, " ")]
  }

  function TextSegs(): seq<Seg> {
    [Seg('!', Before, "() - "), Seg('v', Everything, "\n")]
  }

  function DefaultSegs(): seq<Seg> {
    StampSegs() + OriginSegs() + TextSegs()
  }

  lemma {:induction false} PatternConcat(a: seq<Seg>, b: seq<Seg>)
    ensures PatternFrom(a + b) == PatternFrom(a) + PatternFrom(b)
  {
    if a == [] {
      assert a + b == b;
    } else {
      assert (a + b)[1..] == a[1..] + b;
      PatternConcat(a[1..], b);
    }
  }

  lemma PatternCons(s: Seg, rest: seq<Seg>)
    ensures PatternFrom([s] + rest)
            == "%" + [s.c] + (if s.after == "\n" then "%n" else s.after) + PatternFrom(rest)
  {
    assert ([s] + rest)[1..] == rest;
  }

  lemma DatePattern()
    ensures PatternFrom([Seg('Y', Digits, "-"), Seg('m', Digits, "-"), Seg('d', Digits, " ")]) == "%Y-%m-%d "
  {
    hide PatternFrom;
    var y, m, d := Seg('Y', Digits, "-"), Seg('m', Digits, "-"), Seg('d', Digits, " ");
    assert PatternFrom([]) == "" by { NoPattern(); }
    PatternCons(d, []);
    PatternCons(m, [d]);
    PatternCons(y, [m, d]);
    assert [d] + [] == [d] && [m] + [d] == [m, d] && [y] + [m, d] == [y, m, d];
  }

  lemma NoPattern()
    ensures PatternFrom([]) == ""
  {
  }

  lemma TimePattern()
    ensures PatternFrom([Seg('H', Digits, ":"), Seg('M', Digits, ":"), Seg('S', Digits, "."), Seg('e', Digits, " [")])
            == "%H:%M:%S.%e ["
  {
    hide PatternFrom;
    var h, m := Seg('H', Digits, ":"), Seg('M', Digits, ":");
    var s, e := Seg('S', Digits, "."), Seg('e', Digits, " [");
    NoPattern();
    PatternCons(e, []);
    PatternCons(s, [e]);
    PatternCons(m, [s, e]);
    PatternCons(h, [m, s, e]);
    assert [e] + [] == [e] && [s] + [e] == [s, e] && [m] + [s, e] == [m, s, e] && [h] + [m, s, e] == [h, m, s, e];
  }

  lemma OriginPattern()
    ensures PatternFrom(OriginSegs()) == "%l] [tid:%t] %s:%# "
  {
    hide PatternFrom;
    var l, t := Seg('l', Exactly(5), "] [tid:"), Seg('t', Digits, "] ");
    var s, n := Seg('s', Before, ":"), Seg('#', Digits, " ");
    NoPattern();
    PatternCons(n, []);
    PatternCons(s, [n]);
    PatternCons(t, [s, n]);
    PatternCons(l, [t, s, n]);
    assert [n] + [] == [n] && [s] + [n] == [s, n] && [t] + [s, n] == [t, s, n] && [l] + [t, s, n] == [l, t, s, n];
  }

  lemma TextPattern()
    ensures PatternFrom(TextSegs()) == "%!() - %v%n"
  {
    hide PatternFrom;
    var f, v := Seg('!', Before, "() - "), Seg('v', Everything, "\n");
    NoPattern();
    PatternCons(v, []);
    PatternCons(f, [v]);
    assert [v] + [] == [v] && [f] + [v] == [f, v];
  }

  lemma DefaultPatternIs()
    ensures PatternFrom(DefaultSegs()) == "%Y-%m-%d %H:%M:%S.%e [%l] [tid:%t] %s:%# %!() - %v%n"
  {
    hide PatternFrom, OriginSegs, TextSegs;
    DatePattern();
    TimePattern();
    OriginPattern();
    TextPattern();
    var date := [Seg('Y', Digits, "-"), Seg('m', Digits, "-"), Seg('d', Digits, " ")];
    var time := [Seg('H', Digits, ":"), Seg('M', Digits, ":"), Seg('S', Digits, "."), Seg('e', Digits, " [")];
    assert StampSegs() == date + time;
    PatternConcat(date, time);
    PatternConcat(StampSegs(), OriginSegs());
    PatternConcat(StampSegs() + OriginSegs(), TextSegs());
    assert "%Y-%m-%d " + "%H:%M:%S.%e [" == "%Y-%m-%d %H:%M:%S.%e [";
    JoinPattern();
  }

  lemma JoinPattern()
    ensures "%Y-%m-%d %H:%M:%S.%e [" + "%l] [tid:%t] %s:%# " + "%!() - %v%n"
            == "%Y-%m-%d %H:%M:%S.%e [%l] [tid:%t] %s:%# %!() - %v%n"
  {
  }

  // ---- Reading it ----

  /** Each segment's text ends where its kind says; only the last one may run to the end. */
  predicate SegsFit(segs: seq<Seg>, rec: Record, tm: Tm, end: bool) {
    forall i :: 0 <= i < |segs| ==>
      Fits(Part(segs[i].kind, segs[i].after), Expand(segs[i].c, rec, tm), end && i == |segs| - 1)
  }

  lemma FitsConcat(a: seq<Seg>, b: seq<Seg>, rec: Record, tm: Tm, end: bool)
    requires b != [] && SegsFit(a, rec, tm, false) && SegsFit(b, rec, tm, end)
    ensures SegsFit(a + b, rec, tm, end)
  {
    hide Fits, Expand;
    var c := a + b;
    forall i | 0 <= i < |c|
      ensures Fits(Part(c[i].kind, c[i].after), Expand(c[i].c, rec, tm), end && i == |c| - 1)
    {
      if i >= |a| {
        assert c[i] == b[i - |a|];
      }
    }
  }

  predicate NumberLetter(c: char) {
    c == 'Y' || c == 'm' || c == 'd' || c == 'H' || c == 'M' || c == 'S' || c == 'e' || c == 't' || c == '#'
  }

  lemma NumberFits(s: Seg, rec: Record, tm: Tm)
    requires ValidRecord(rec) && ValidTm(tm) && 0 <= rec.line < ULONG
    requires NumberLetter(s.c) && s.kind.Digits? && s.after != "" && !IsDigit(s.after[0])
    ensures Fits(Part(s.kind, s.after), Expand(s.c, rec, tm), false)
  {
    hide Expand;
    PlaceholderNumbers(rec, tm);
  }

  lemma StampFits(rec: Record, tm: Tm)
    requires ValidRecord(rec) && ValidTm(tm) && 0 <= rec.line < ULONG
    ensures SegsFit(StampSegs(), rec, tm, false)
  {
    hide Expand, Fits, ValidRecord, ValidTm;
    var segs := StampSegs();
    forall i | 0 <= i < |segs|
      ensures Fits(Part(segs[i].kind, segs[i].after), Expand(segs[i].c, rec, tm), false)
    {
      NumberFits(segs[i], rec, tm);
    }
  }

  lemma OriginFits(rec: Record, tm: Tm)
    requires ValidRecord(rec) && ValidTm(tm) && 0 <= rec.line < ULONG && ':' !in Basename(Text(rec.file))
    ensures SegsFit(OriginSegs(), rec, tm, false)
  {
    hide Expand, ValidRecord, ValidTm, Fits;
    var segs := OriginSegs();
    NumberFits(segs[1], rec, tm);
    NumberFits(segs[3], rec, tm);
    LevelFits(rec, tm);
    NameFits(rec, tm);
  }

  lemma LevelFits(rec: Record, tm: Tm)
    ensures Fits(Part(Exactly(5), "] [tid:"), Expand('l', rec, tm), false)
  {
  }

  lemma NameFits(rec: Record, tm: Tm)
    requires ':' !in Basename(Text(rec.file))
    ensures Fits(Part(Before, ":"), Expand('s', rec, tm), false)
  {
  }

  lemma TextFits(rec: Record, tm: Tm)
    requires '(' !in Text(rec.func)
    ensures SegsFit(TextSegs(), rec, tm, true)
  {
    hide Expand;
    PlaceholderTexts(rec, tm);
    var segs := TextSegs();
    assert Fits(Part(segs[0].kind, segs[0].after), Expand('!', rec, tm), false);
  }

  lemma NoPercent()
    ensures forall i :: 0 <= i < |DefaultSegs()| ==> '%' !in DefaultSegs()[i].after
  {
    assert forall i :: 0 <= i < |StampSegs()| ==> '%' !in StampSegs()[i].after;
    assert forall i :: 0 <= i < |OriginSegs()| ==> '%' !in OriginSegs()[i].after;
    assert forall i :: 0 <= i < |TextSegs()| ==> '%' !in TextSegs()[i].after;
  }

  /** What is rendered along segments is read back. */
  lemma SegsRoundTrip(segs: seq<Seg>, rec: Record, tm: Tm)
    requires SegsFit(segs, rec, tm, true)
    requires forall i :: 0 <= i < |segs| ==> '%' !in segs[i].after
    ensures Read(PartsFrom(segs), Render(PatternFrom(segs), rec, tm)) == Some(TextsFrom(segs, rec, tm))
  {
    hide Expand, Fits, Render, Read, Print, PatternFrom;
    RenderIsPrint(segs, rec, tm);
    var parts, texts := PartsFrom(segs), TextsFrom(segs, rec, tm);
    forall i | 0 <= i < |parts| ensures Fits(parts[i], texts[i], i == |parts| - 1) {
      assert parts[i] == Part(segs[i].kind, segs[i].after);
    }
    ReadBack(parts, texts);
  }

  /** The letters of the default pattern, in order. */
  lemma DefaultLetters()
    ensures |DefaultSegs()| == 13
    ensures DefaultSegs()[0].c == 'Y' && DefaultSegs()[1].c == 'm' && DefaultSegs()[2].c == 'd'
    ensures DefaultSegs()[3].c == 'H' && DefaultSegs()[4].c == 'M' && DefaultSegs()[5].c == 'S'
    ensures DefaultSegs()[6].c == 'e' && DefaultSegs()[7].c == 'l' && DefaultSegs()[8].c == 't'
    ensures DefaultSegs()[9].c == 's' && DefaultSegs()[10].c == '#' && DefaultSegs()[11].c == '!'
    ensures DefaultSegs()[12].c == 'v'
  {
  }

  /** The line of the default pattern is read back: the template gives 13 texts, of which
    * nine are the record's numbers, and level, base name, function and message follow.
    * A base name with a colon and a function name with a parenthesis cannot be told from
    * what follows them. */
  lemma DefaultRoundTrip(rec: Record, tm: Tm) returns (texts: seq<string>)
    requires ValidRecord(rec) && ValidTm(tm) && 0 <= rec.line < ULONG
    requires ':' !in Basename(Text(rec.file)) && '(' !in Text(rec.func)
    ensures |texts| == 13
    ensures Read(PartsFrom(DefaultSegs()), Render(PatternOf(None), rec, tm)) == Some(texts)
    ensures Number(texts[0], tm.year + 1900) && Number(texts[1], tm.mon + 1) && Number(texts[2], tm.mday)
    ensures Number(texts[3], tm.hour) && Number(texts[4], tm.min) && Number(texts[5], tm.sec)
    ensures Number(texts[6], rec.msec) && Number(texts[8], rec.tid) && Number(texts[10], rec.line)
    ensures |texts[7]| == 5 && (rec.level == 0 <==> texts[7] == "TRACE") && (rec.level == 1 <==> texts[7] == "DEBUG")
    ensures (rec.level == 2 <==> texts[7] == "INFO ") && (rec.level == 3 <==> texts[7] == "WARN ")
    ensures (rec.level == 4 <==> texts[7] == "ERROR") && (rec.level == 5 <==> texts[7] == "FATAL")
    ensures texts[9] == Basename(Text(rec.file)) && texts[11] == Text(rec.func) && texts[12] == rec.message
  {
    hide Expand, Render, Read, Print, Number, Fits, PatternFrom, SegsFit, Basename, ValidRecord, ValidTm;
    hide StampSegs, OriginSegs, TextSegs, DefaultSegs;
    var segs := DefaultSegs();
    texts := TextsFrom(segs, rec, tm);
    DefaultLetters();
    DefaultPatternIs();
    DefaultFits(rec, tm);
    NoPercent();
    SegsRoundTrip(segs, rec, tm);
    PlaceholderNumbers(rec, tm);
    PlaceholderTexts(rec, tm);
    LevelTexts(rec, tm);
  }

  lemma DefaultFits(rec: Record, tm: Tm)
    requires ValidRecord(rec) && ValidTm(tm) && 0 <= rec.line < ULONG
    requires ':' !in Basename(Text(rec.file)) && '(' !in Text(rec.func)
    ensures SegsFit(DefaultSegs(), rec, tm, true)
  {
    hide Expand, SegsFit, Basename, ValidRecord, ValidTm;
    StampFits(rec, tm);
    OriginFits(rec, tm);
    TextFits(rec, tm);
    FitsConcat(StampSegs(), OriginSegs(), rec, tm, false);
    FitsConcat(StampSegs() + OriginSegs(), TextSegs(), rec, tm, true);
  }

  // ---- The JSON line ----

  /** The placeholders whose texts make up the time stamp of the JSON line. */
  function DaySegs(): seq<Seg> {
    [Seg('Y', Digits, "-"), Seg('m', Digits, "-"), Seg('d', Digits, "T")]
  }

  function ClockSegs(): seq<Seg> {
    [Seg('H', Digits, ":"), Seg('M', Digits, ":"), Seg('S', Digits, "."), Seg('e', Digits, "")]
  }

  function PrintSegs(segs: seq<Seg>, rec: Record, tm: Tm): string {
    Print(PartsFrom(segs), TextsFrom(segs, rec, tm))
  }

  lemma PrintSegsCons(s: Seg, rest: seq<Seg>, rec: Record, tm: Tm)
    ensures PrintSegs([s] + rest, rec, tm) == Expand(s.c, rec, tm) + s.after + PrintSegs(rest, rec, tm)
  {
    hide Expand;
    var segs := [s] + rest;
    assert segs[0] == s && segs[1..] == rest;
    assert PartsFrom(segs)[1..] == PartsFrom(rest);
    assert TextsFrom(segs, rec, tm)[1..] == TextsFrom(rest, rec, tm);
  }

  lemma PrintNoSegs(rec: Record, tm: Tm)
    ensures PrintSegs([], rec, tm) == ""
  {
  }

  lemma ClockPrint(rec: Record, tm: Tm)
    ensures PrintSegs(ClockSegs(), rec, tm)
            == Expand('H', rec, tm) + ":" + (Expand('M', rec, tm) + ":"
               + (Expand('S', rec, tm) + "." + (Expand('e', rec, tm) + "" + "")))
  {
    hide Expand, PrintSegs;
    var h, m := Seg('H', Digits, ":"), Seg('M', Digits, ":");
    var s, e := Seg('S', Digits, "."), Seg('e', Digits, "");
    PrintNoSegs(rec, tm);
    PrintSegsCons(e, [], rec, tm);
    PrintSegsCons(s, [e], rec, tm);
    PrintSegsCons(m, [s, e], rec, tm);
    PrintSegsCons(h, [m, s, e], rec, tm);
    assert [e] + [] == [e] && [s] + [e] == [s, e] && [m] + [s, e] == [m, s, e] && [h] + [m, s, e] == [h, m, s, e];
  }

  lemma DayPrint(rest: seq<Seg>, rec: Record, tm: Tm)
    ensures PrintSegs(DaySegs() + rest, rec, tm)
            == Expand('Y', rec, tm) + "-" + (Expand('m', rec, tm) + "-"
               + (Expand('d', rec, tm) + "T" + PrintSegs(rest, rec, tm)))
  {
    hide Expand, PrintSegs;
    var y, m, d := Seg('Y', Digits, "-"), Seg('m', Digits, "-"), Seg('d', Digits, "T");
    PrintSegsCons(d, rest, rec, tm);
    PrintSegsCons(m, [d] + rest, rec, tm);
    PrintSegsCons(y, [m] + ([d] + rest), rec, tm);
    assert [y] + ([m] + ([d] + rest)) == DaySegs() + rest;
  }

  lemma DatePartIs(rec: Record, tm: Tm)
    ensures DatePart(tm) == Expand('Y', rec, tm) + "-" + Expand('m', rec, tm) + "-" + Expand('d', rec, tm) + "T"
  {
    hide UintPad, ULong;
  }

  lemma TimePartIs(rec: Record, tm: Tm)
    ensures TimePart(tm) == Expand('H', rec, tm) + ":" + Expand('M', rec, tm) + ":" + Expand('S', rec, tm) + "."
    ensures UintPad(rec.msec, 3) == Expand('e', rec, tm)
  {
    hide UintPad, ULong;
  }

  lemma Assoc(a: string, b: string, c: string, d: string, e: string, f: string, rest: string)
    ensures a + b + (c + d + (e + f + rest)) == a + b + c + d + e + f + rest
  {
  }

  lemma TimestampPrint(rec: Record, tm: Tm)
    ensures Timestamp(rec, tm) == PrintSegs(DaySegs() + ClockSegs(), rec, tm)
  {
    hide Expand, PrintSegs, DatePart, TimePart, DaySegs, ClockSegs, UintPad;
    DayPrint(ClockSegs(), rec, tm);
    ClockPrint(rec, tm);
    DatePartIs(rec, tm);
    TimePartIs(rec, tm);
    var clock := PrintSegs(ClockSegs(), rec, tm);
    Assoc(Expand('H', rec, tm), ":", Expand('M', rec, tm), ":", Expand('S', rec, tm), ".", Expand('e', rec, tm));
    assert Expand('e', rec, tm) + "" + "" == Expand('e', rec, tm);
    assert clock == TimePart(tm) + UintPad(rec.msec, 3);
    Assoc(Expand('Y', rec, tm), "-", Expand('m', rec, tm), "-", Expand('d', rec, tm), "T", clock);
    Joined(DatePart(tm), TimePart(tm), UintPad(rec.msec, 3));
  }

  lemma Joined(a: string, b: string, c: string)
    ensures a + b + c == a + (b + c)
  {
  }

  lemma TimestampFits(rec: Record, tm: Tm)
    requires ValidRecord(rec) && ValidTm(tm) && 0 <= rec.line < ULONG
    ensures SegsFit(DaySegs() + ClockSegs(), rec, tm, true)
  {
    hide Expand, Fits, ValidRecord, ValidTm;
    var day, clock := DaySegs(), ClockSegs();
    forall i | 0 <= i < |day| ensures Fits(Part(day[i].kind, day[i].after), Expand(day[i].c, rec, tm), false)
    {
      NumberFits(day[i], rec, tm);
    }
    forall i | 0 <= i < |clock| ensures Fits(Part(clock[i].kind, clock[i].after), Expand(clock[i].c, rec, tm), i == 3)
    {
      if i == 3 {
        LastFits(rec, tm);
      } else {
        NumberFits(clock[i], rec, tm);
      }
    }
    FitsConcat(day, clock, rec, tm, true);
  }

  lemma LastFits(rec: Record, tm: Tm)
    requires ValidRecord(rec) && ValidTm(tm) && 0 <= rec.line < ULONG
    ensures Fits(Part(Digits, ""), Expand('e', rec, tm), true)
  {
    hide Expand;
    PlaceholderNumbers(rec, tm);
  }

  /** The time stamp is read back as the seven numbers of the record's time. */
  lemma TimestampRoundTrip(rec: Record, tm: Tm) returns (texts: seq<string>)
    requires ValidRecord(rec) && ValidTm(tm) && 0 <= rec.line < ULONG
    ensures |texts| == 7
    ensures Read(PartsFrom(DaySegs() + ClockSegs()), Timestamp(rec, tm)) == Some(texts)
    ensures Number(texts[0], tm.year + 1900) && Number(texts[1], tm.mon + 1) && Number(texts[2], tm.mday)
    ensures Number(texts[3], tm.hour) && Number(texts[4], tm.min) && Number(texts[5], tm.sec)
    ensures Number(texts[6], rec.msec)
  {
    hide Expand, Read, Print, Number, Fits, SegsFit, ValidRecord, ValidTm, Timestamp;
    var segs := DaySegs() + ClockSegs();
    texts := TextsFrom(segs, rec, tm);
    TimestampPrint(rec, tm);
    TimestampFits(rec, tm);
    PlaceholderNumbers(rec, tm);
    FitsEach(segs, rec, tm);
    ReadBack(PartsFrom(segs), texts);
  }

  lemma FitsEach(segs: seq<Seg>, rec: Record, tm: Tm)
    requires SegsFit(segs, rec, tm, true)
    ensures forall i :: 0 <= i < |segs| ==>
              Fits(PartsFrom(segs)[i], TextsFrom(segs, rec, tm)[i], i == |segs| - 1)
  {
    hide Fits, Expand;
  }

  lemma MembersAre(rec: Record, tm: Tm)
    requires 0 <= rec.line < ULONG && 0 <= rec.sec && rec.sec * 1000 + rec.msec < ULONG
    ensures Members(rec, tm) == [
      Member("ts", Str(Timestamp(rec, tm))), Member("epoch_ms", Num(rec.sec * 1000 + rec.msec)),
      Member("level", Str(LevelName(rec.level))),
      Member("logger", Str(if rec.logger.Some? then rec.logger.value else "")),
      Member("pid", Num(rec.pid)), Member("tid", Num(rec.tid)),
      Member("file", Str(if rec.file.Some? then rec.file.value else "")), Member("line", Num(rec.line)),
      Member("func", Str(if rec.func.Some? then rec.func.value else "")), Member("message", Str(rec.message)),
      Member("context", Str(if rec.context.Some? then rec.context.value else ""))]
  {
    hide Timestamp, LevelName;
  }

  /** Reading the JSON line: eleven members under their names, each with the record's own
    * value, the time stamp with the numbers of the record's time. */
  lemma JsonFields(rec: Record, tm: Tm) returns (ts: string, texts: seq<string>, level: string)
    requires ValidRecord(rec) && ValidTm(tm) && 0 <= rec.line < ULONG
    requires 0 <= rec.sec && rec.sec * 1000 + rec.msec < ULONG
    ensures ReadLine(JsonLine(rec, tm)) == Some([
      Member("ts", Str(ts)), Member("epoch_ms", Num(rec.sec * 1000 + rec.msec)), Member("level", Str(level)),
      Member("logger", Str(if rec.logger.Some? then rec.logger.value else "")),
      Member("pid", Num(rec.pid)), Member("tid", Num(rec.tid)),
      Member("file", Str(if rec.file.Some? then rec.file.value else "")), Member("line", Num(rec.line)),
      Member("func", Str(if rec.func.Some? then rec.func.value else "")), Member("message", Str(rec.message)),
      Member("context", Str(if rec.context.Some? then rec.context.value else ""))])
    ensures Read(PartsFrom(DaySegs() + ClockSegs()), ts) == Some(texts) && |texts| == 7
    ensures Number(texts[0], tm.year + 1900) && Number(texts[1], tm.mon + 1) && Number(texts[2], tm.mday)
    ensures Number(texts[3], tm.hour) && Number(texts[4], tm.min) && Number(texts[5], tm.sec)
    ensures Number(texts[6], rec.msec)
    ensures (rec.level == 0 <==> level == "TRACE") && (rec.level == 1 <==> level == "DEBUG")
    ensures (rec.level == 2 <==> level == "INFO") && (rec.level == 3 <==> level == "WARN")
    ensures (rec.level == 4 <==> level == "ERROR") && (rec.level == 5 <==> level == "FATAL")
    ensures (rec.level == 6 <==> level == "OFF") && (rec.level < 0 || rec.level > 6 <==> level == "UNKNOWN")
  {
    hide JsonLine, Timestamp, LevelName, ReadLine, Read, Number, DaySegs, ClockSegs, Members;
    JsonRoundTrip(rec, tm);
    MembersAre(rec, tm);
    ts, level := Timestamp(rec, tm), LevelName(rec.level);
    texts := TimestampRoundTrip(rec, tm);
    LevelNames(rec.level);
  }

  lemma LevelNames(l: int)
    ensures (l == 0 <==> LevelName(l) == "TRACE") && (l == 1 <==> LevelName(l) == "DEBUG")
    ensures (l == 2 <==> LevelName(l) == "INFO") && (l == 3 <==> LevelName(l) == "WARN")
    ensures (l == 4 <==> LevelName(l) == "ERROR") && (l == 5 <==> LevelName(l) == "FATAL")
    ensures (l == 6 <==> LevelName(l) == "OFF") && (l < 0 || l > 6 <==> LevelName(l) == "UNKNOWN")
  {
    assert "TRACE"[0] == 'T' && "DEBUG"[0] == 'D' && "INFO"[0] == 'I' && "WARN"[0] == 'W';
    assert "ERROR"[0] == 'E' && "FATAL"[0] == 'F' && "OFF"[0] == 'O' && "UNKNOWN"[0] == 'U';
  }

  /** The escapes of section 7 of RFC 8259: two characters where a short form exists, six for
    * the other control characters, and nothing else is changed. */
  lemma EscapesAreStandard(c: char)
    ensures c == '"' || c == '\\' ==> EscapeChar(c) == ['\\', c]
    ensures c as int == 8 ==> EscapeChar(c) == "\\b"
    ensures c as int == 9 ==> EscapeChar(c) == "\\t"
    ensures c as int == 10 ==> EscapeChar(c) == "\\n"
    ensures c as int == 12 ==> EscapeChar(c) == "\\f"
    ensures c as int == 13 ==> EscapeChar(c) == "\\r"
    ensures c as int >= 32 && c != '"' && c != '\\' ==> EscapeChar(c) == [c]
    ensures var k := c as int;
            k < 32 && k != 8 && k != 9 && k != 10 && k != 12 && k != 13 ==>
              EscapeChar(c) == "\\u00" + [(if k < 16 then '0' else '1'), "0123456789abcdef"[k % 16]]
  {
    HexDigits(c as int % 16);
    if 16 <= c as int < 32 {
      HexDigits(1);
    }
  }

  lemma HexDigits(d: nat)
    requires d < 16
    ensures HexDigit(d) == "0123456789abcdef"[d]
    ensures HexDigit(0) == '0' && HexDigit(1) == '1'
  {
  }
}
