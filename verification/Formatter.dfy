/** The bounded formatters of src/hx_clog_format.c and the retry logic of
  * `format_with_retry` in src/hx_clog_core.c, proved against the unbounded
  * renderers of LinePattern.dfy and Json.dfy. */
module Formatter {
  import opened Common
  import opened Decimal
  import opened LinePattern
  import opened Json

  function Min(a: nat, b: nat): nat {
    if a < b then a else b
  }

  /** The first `cap - 1` bytes of a line. */
  function Cut(line: string, cap: nat): string
    requires cap > 0
  {
    line[..Min(|line|, cap - 1)]
  }

  /** `appender_t`. The ghost field `full` is what an unbounded appender would hold. */
  class Appender {
    const buf: array<char>
    const cap: nat
    var pos: nat
    var needed: nat
    ghost var full: string

    ghost predicate Valid()
      reads this, buf
    {
      && 0 < cap <= buf.Length
      && pos == Min(|full|, cap - 1)
      && buf[..pos] == full[..pos]
      && needed == Min(|full|, UINT_MAX)
    }

    constructor (buf: array<char>, cap: nat)
      requires 0 < cap <= buf.Length
      ensures Valid() && full == "" && this.buf == buf && this.cap == cap
    {
      this.buf := buf;
      this.cap := cap;
      pos, needed, full := 0, 0, "";
    }

    method Bump()
      modifies this`needed
      ensures needed == if old(needed) != UINT_MAX then old(needed) + 1 else old(needed)
    {
      if needed != UINT_MAX {
        needed := needed + 1;
      }
    }

    method Char(c: char)
      requires Valid()
      modifies this, buf
      ensures Valid() && full == old(full) + [c]
      ensures buf[cap - 1..] == old(buf[cap - 1..])
    {
      Bump();
      if pos + 1 < cap {
        buf[pos] := c;
        pos := pos + 1;
      }
      full := full + [c];
    }

    /** `ap_strn` on `n == |s|` bytes; also `ap_str` on a string before its NUL. */
    method Str(s: string)
      requires Valid()
      modifies this, buf
      ensures Valid() && full == old(full) + s
      ensures buf[cap - 1..] == old(buf[cap - 1..])
    {
      var i := 0;
      while i < |s|
        invariant 0 <= i <= |s| && Valid()
        invariant full == old(full) + s[..i]
        invariant buf[cap - 1..] == old(buf[cap - 1..])
      {
        Char(s[i]);
        assert s[..i + 1] == s[..i] + [s[i]];
        i := i + 1;
      }
      assert s[..|s|] == s;
    }

    /** `while (i > 0) ap_char(a, tmp[--i]);` */
    method Unwind(tmp: array<char>, count: nat)
      requires Valid() && count <= tmp.Length && tmp != buf
      modifies this, buf
      ensures Valid() && full == old(full) + Reversed(tmp[..count])
      ensures buf[cap - 1..] == old(buf[cap - 1..])
    {
      hide Reversed;
      ghost var d := tmp[..count];
      var i := count;
      assert d[..i] == d;
      while i > 0
        invariant 0 <= i <= count && Valid() && tmp[..count] == d
        invariant full + Reversed(d[..i]) == old(full) + Reversed(d)
        invariant buf[cap - 1..] == old(buf[cap - 1..])
      {
        i := i - 1;
        ReversedLast(d, i);
        Char(tmp[i]);
      }
      ReversedNone(d);
    }

    /** `ap_uint` and `ap_ull`. */
    method Uint(value: nat)
      requires Valid() && value < ULONG
      modifies this, buf
      ensures Valid() && full == old(full) + Dec(value)
      ensures buf[cap - 1..] == old(buf[cap - 1..])
    {
      hide Reversed, Digits;
      if value == 0 {
        Char('0');
        return;
      }
      var tmp, count, rest := DigitBuffer(value, 24);
      DigitsFit(value, rest, Reversed(tmp[..count]));
      Unwind(tmp, count);
    }

    /** `ap_uint_pad`: the local buffer holds 16 digits, so of a longer number only
      * the 16 lowest digits are printed. */
    method UintPadded(value: nat, width: nat)
      requires Valid() && value < ULONG
      modifies this, buf
      ensures Valid() && full == old(full) + UintPad(value, width)
      ensures buf[cap - 1..] == old(buf[cap - 1..])
    {
      hide Reversed, Digits, PadDigits;
      var tmp, count, rest := DigitBuffer(value, 16);
      if value == 0 {
        tmp[0] := '0';
        count := 1;
        assert tmp[..1] == "0";
        ReversedOne('0');
      }
      ghost var digits := Reversed(tmp[..count]);
      LowestDigits(value, rest, digits);
      ZeroFill(count, width);
      Unwind(tmp, count);
      assert full == old(full) + (Zeros(width - count) + digits);
    }

    /** `for (j = i; j < width; ++j) ap_char(a, '0');` */
    method ZeroFill(start: nat, width: nat)
      requires Valid()
      modifies this, buf
      ensures Valid() && full == old(full) + Zeros(width - start)
      ensures buf[cap - 1..] == old(buf[cap - 1..])
    {
      var j := start;
      while j < width
        invariant start <= j && Valid()
        invariant full + Zeros(width - j) == old(full) + Zeros(width - start)
        invariant buf[cap - 1..] == old(buf[cap - 1..])
      {
        assert Zeros(width - j) == ['0'] + Zeros(width - j - 1);
        Char('0');
        j := j + 1;
      }
    }

    /** The switch of `ap_json_escaped` for one byte. */
    method JsonByte(c: char)
      requires Valid()
      modifies this, buf
      ensures Valid() && full == old(full) + EscapeChar(c)
      ensures buf[cap - 1..] == old(buf[cap - 1..])
    {
      hide HexDigit;
      if c == '"' { Str("\\\""); }
      else if c == '\\' { Str("\\\\"); }
      else if c == 8 as char { Str("\\b"); }
      else if c == 12 as char { Str("\\f"); }
      else if c == '\n' { Str("\\n"); }
      else if c == '\r' { Str("\\r"); }
      else if c == '\t' { Str("\\t"); }
      else if c as int < 0x20 {
        Str("\\u00");
        Char(HexDigit(c as int / 16 % 16));
        Char(HexDigit(c as int % 16));
        assert full == old(full) + ("\\u00" + [HexDigit(c as int / 16), HexDigit(c as int % 16)]);
      } else {
        Char(c);
      }
    }

    /** `ap_json_escaped`. */
    method JsonEscaped(s: string)
      requires Valid()
      modifies this, buf
      ensures Valid() && full == old(full) + Escape(s)
      ensures buf[cap - 1..] == old(buf[cap - 1..])
    {
      hide EscapeChar;
      var i := 0;
      assert s[0..] == s;
      while i < |s|
        invariant 0 <= i <= |s| && Valid()
        invariant full + Escape(s[i..]) == old(full) + Escape(s)
        invariant buf[cap - 1..] == old(buf[cap - 1..])
      {
        JsonByte(s[i]);
        assert s[i..][1..] == s[i + 1..];
        i := i + 1;
      }
    }

    /** The terminating NUL that both formatters write at the end. */
    method Terminate()
      requires Valid()
      modifies buf
      ensures Valid() && buf[pos] == NUL && buf[..pos] == Cut(full, cap)
      ensures buf[cap..] == old(buf[cap..])
    {
      buf[pos] := NUL;
    }
  }

  function Reversed(s: string): (r: string)
    ensures |r| == |s|
  {
    if s == "" then "" else [s[|s| - 1]] + Reversed(s[..|s| - 1])
  }

  lemma ReversedLast(s: string, i: nat)
    requires i < |s|
    ensures Reversed(s[..i + 1]) == [s[i]] + Reversed(s[..i])
  {
    assert s[..i + 1][..i] == s[..i];
  }

  lemma ReversedNone(s: string)
    ensures Reversed(s[..0]) == ""
  {
  }

  lemma ReversedOne(c: char)
    ensures Reversed([c]) == [c]
  {
    assert [c][..0] == "";
  }

  /** Both digit loops: digits of `value`, lowest first, into a buffer of `room`
    * characters; `rest` is what did not fit. */
  method DigitBuffer(value: nat, room: nat) returns (tmp: array<char>, count: nat, rest: nat)
    requires room > 0
    ensures fresh(tmp) && tmp.Length == room && count <= room
    ensures Digits(value) == Digits(rest) + Reversed(tmp[..count])
    ensures rest > 0 ==> count == room
    ensures value == 0 ==> count == 0
  {
    tmp := new char[room];
    count, rest := 0, value;
    ReversedNone(tmp[..]);
    assert tmp[..0] == tmp[..][..0];
    while rest > 0 && count < room
      invariant 0 <= count <= room
      invariant Digits(value) == Digits(rest) + Reversed(tmp[..count])
      invariant value == 0 ==> rest == 0 && count == 0
      decreases room - count
    {
      hide Reversed, Digits;
      ghost var before := tmp[..count];
      tmp[count] := DigitChar(rest % 10);
      assert tmp[..count + 1] == before + [DigitChar(rest % 10)];
      DigitStep(value, rest, before);
      rest := rest / 10;
      count := count + 1;
    }
  }

  lemma ReversedSnoc(s: string, c: char)
    ensures Reversed(s + [c]) == [c] + Reversed(s)
  {
    assert (s + [c])[..|s|] == s;
  }

  lemma DigitsUnfold(n: nat)
    requires n > 0
    ensures Digits(n) == Digits(n / 10) + [DigitChar(n % 10)]
  {
  }

  lemma DigitStep(value: nat, rest: nat, before: string)
    requires rest > 0 && Digits(value) == Digits(rest) + Reversed(before)
    ensures Digits(value) == Digits(rest / 10) + Reversed(before + [DigitChar(rest % 10)])
  {
    hide Digits, Reversed, DigitChar;
    DigitsUnfold(rest);
    ReversedSnoc(before, DigitChar(rest % 10));
  }

  lemma DigitsFit(value: nat, rest: nat, low: string)
    requires 0 < value < ULONG
    requires Digits(value) == Digits(rest) + low
    requires rest > 0 ==> |low| == 24
    ensures low == Dec(value)
  {
    ULongDigits(value);
    assert rest == 0;
    assert Digits(0) == "";
  }

  /** What is left in the digit buffer when the loop stops is what `UintPad` prints. */
  lemma LowestDigits(value: nat, rest: nat, low: string)
    requires |low| <= 16
    requires value == 0 ==> low == "0"
    requires value > 0 ==> Digits(value) == Digits(rest) + low
    requires rest > 0 ==> |low| == 16
    ensures low == PadDigits(value)
  {
  }

  /** The contract of both formatters: `out` holds the line cut to `size` and
    * terminated, and `needed` is the length of the full line (saturating). */
  ghost predicate Rendered(out: array<char>, size: nat, line: string, needed: nat)
    requires 0 < size <= out.Length
    reads out
  {
    var written := if |line| < size then |line| else size - 1;
    && needed == (if |line| < UINT_MAX then |line| else UINT_MAX)
    && out[..written] == line[..written] && out[written] == NUL
  }

  /** The end of both formatters. */
  method Finish(a: Appender) returns (needed: nat)
    requires a.Valid()
    modifies a.buf
    ensures Rendered(a.buf, a.cap, a.full, needed)
    ensures a.buf[a.cap..] == old(a.buf[a.cap..])
  {
    a.Terminate();
    needed := a.needed;
  }

  lemma BasenameEnds(path: string)
    ensures Basename(path[..0]) == path[0..0] && path[..|path|] == path
  {
  }

  lemma BasenameNext(path: string, start: nat, i: nat)
    requires start <= i < |path| && Basename(path[..i]) == path[start..i]
    ensures Basename(path[..i + 1])
            == if path[i] == '/' || path[i] == '\\' then path[i + 1..i + 1] else path[start..i + 1]
  {
    assert path[..i + 1][..i] == path[..i];
    assert path[start..i + 1] == path[start..i] + [path[i]];
  }

  /** `basename_of`: one pass that remembers the position behind the last separator. */
  method BasenameOf(path: string) returns (base: string)
    ensures base == Basename(path)
    ensures |base| <= |path| && path[|path| - |base|..] == base && '/' !in base && '\\' !in base
    ensures |base| < |path| ==> path[|path| - |base| - 1] == '/' || path[|path| - |base| - 1] == '\\'
  {
    hide Basename;
    var start := 0;
    var i := 0;
    BasenameEnds(path);
    while i < |path|
      invariant 0 <= start <= i <= |path|
      invariant Basename(path[..i]) == path[start..i]
      invariant forall k :: start <= k < i ==> path[k] != '/' && path[k] != '\\'
      invariant start > 0 ==> path[start - 1] == '/' || path[start - 1] == '\\'
    {
      BasenameNext(path, start, i);
      if path[i] == '/' || path[i] == '\\' {
        start := i + 1;
      }
      i := i + 1;
    }
    assert path[start..|path|] == path[start..];
    base := path[start..];
  }

  /** The switch of `hx_format_record` behind a percent sign. */
  method Placeholder(a: Appender, c: char, rec: Record, tm: Tm)
    requires a.Valid() && ValidRecord(rec)
    modifies a, a.buf
    ensures a.Valid() && a.full == old(a.full) + Expand(c, rec, tm)
    ensures a.buf[a.cap - 1..] == old(a.buf[a.cap - 1..])
  {
    hide UintPad, Dec, ShortName, Basename, ULong;
    match c {
      case 'Y' => a.UintPadded(ULong(tm.year + 1900), 4);
      case 'm' => a.UintPadded(ULong(tm.mon + 1), 2);
      case 'd' => a.UintPadded(ULong(tm.mday), 2);
      case 'H' => a.UintPadded(ULong(tm.hour), 2);
      case 'M' => a.UintPadded(ULong(tm.min), 2);
      case 'S' => a.UintPadded(ULong(tm.sec), 2);
      case 'e' => a.UintPadded(rec.msec, 3);
      case 'l' => a.Str(ShortName(rec.level));
      case 'c' => a.Str(Text(rec.logger));
      case 't' => a.Uint(rec.tid);
      case 'p' => a.Uint(rec.pid);
      case 's' =>
        var base := BasenameOf(Text(rec.file));
        a.Str(base);
      case 'F' => a.Str(Text(rec.file));
      case '#' => a.Uint(ULong(rec.line));
      case '!' => a.Str(Text(rec.func));
      case 'v' => a.Str(rec.message);
      case 'x' => a.Str(Text(rec.context));
      case 'n' => a.Char('\n');
      case '%' => a.Char('%');
      case _ =>
        a.Char('%');
        a.Char(c);
    }
  }

  /** One round of the pattern loop; returns where the next round starts. */
  method PatternStep(a: Appender, p: string, i: nat, rec: Record, tm: Tm) returns (next: nat)
    requires a.Valid() && ValidRecord(rec) && i < |p|
    modifies a, a.buf
    ensures a.Valid() && i < next <= |p|
    ensures a.full + Render(p[next..], rec, tm) == old(a.full) + Render(p[i..], rec, tm)
    ensures a.buf[a.cap - 1..] == old(a.buf[a.cap - 1..])
  {
    hide Expand, Render;
    RenderUnfold(p, i, rec, tm);
    ghost var before := a.full;
    if p[i] != '%' {
      a.Char(p[i]);
      next := i + 1;
      Joined(before, [p[i]], Render(p[next..], rec, tm));
    } else if i + 1 == |p| {
      // trailing percent sign: printed as it is
      a.Char('%');
      next := i + 1;
      Joined(before, "%", Render(p[next..], rec, tm));
    } else {
      Placeholder(a, p[i + 1], rec, tm);
      next := i + 2;
      Joined(before, Expand(p[i + 1], rec, tm), Render(p[next..], rec, tm));
    }
  }

  /** `hx_format_record`: for every buffer size the written bytes are the full line
    * cut to the buffer, and the result is the full length. */
  method FormatRecord(pattern: Option<string>, rec: Record, tm: Tm, out: array<char>, size: nat)
    returns (needed: nat)
    requires ValidRecord(rec) && size <= out.Length
    modifies out
    ensures out[size..] == old(out[size..])
    ensures size == 0 ==> needed == 0
    ensures size > 0 ==> Rendered(out, size, Render(PatternOf(pattern), rec, tm), needed)
    ensures var line := Render(if pattern.Some? then pattern.value else DEFAULT_PATTERN, rec, tm);
            var written := if |line| < size then |line| else size - 1;
            size > 0 ==> out[..written] == line[..written] && out[written] == NUL
                         && needed == if |line| < UINT_MAX then |line| else UINT_MAX
  {
    if size == 0 {
      return 0;
    }
    needed := PrintPattern(PatternOf(pattern), rec, tm, out, size);
  }

  /** The same for a buffer that is not empty. */
  method PrintPattern(p: string, rec: Record, tm: Tm, out: array<char>, size: nat) returns (needed: nat)
    requires ValidRecord(rec) && 0 < size <= out.Length
    modifies out
    ensures out[size..] == old(out[size..])
    ensures Rendered(out, size, Render(p, rec, tm), needed)
  {
    hide Expand, Render, Rendered;
    var a := new Appender(out, size);
    var i := 0;
    RenderEnds(p, rec, tm);
    while i < |p|
      invariant 0 <= i <= |p| && a.Valid() && a.buf == out && a.cap == size
      invariant a.full + Render(p[i..], rec, tm) == Render(p, rec, tm)
      invariant out[size - 1..] == old(out[size - 1..])
    {
      i := PatternStep(a, p, i, rec, tm);
    }
    assert a.full == Render(p, rec, tm);
    TailOfTail(out[..], size);
    TailOfTail(old(out[..]), size);
    needed := Finish(a);
  }

  lemma Joined(a: string, b: string, c: string)
    ensures a + b + c == a + (b + c)
  {
  }

  lemma RenderUnfold(p: string, i: nat, rec: Record, tm: Tm)
    requires i < |p|
    ensures Render(p[i..], rec, tm)
            == if p[i] != '%' then [p[i]] + Render(p[i + 1..], rec, tm)
               else if i + 1 == |p| then "%" + Render(p[i + 1..], rec, tm)
               else Expand(p[i + 1], rec, tm) + Render(p[i + 2..], rec, tm)
  {
    assert p[i..][1..] == p[i + 1..];
    if i + 1 < |p| {
      assert p[i..][2..] == p[i + 2..];
    }
  }

  lemma RenderEnds(p: string, rec: Record, tm: Tm)
    ensures p[0..] == p && Render(p[|p|..], rec, tm) == ""
  {
  }

  // ---- JSON ----

  /** A zero-padded number followed by one character. */
  method PutField(a: Appender, value: nat, width: nat, c: char)
    requires a.Valid() && value < ULONG
    modifies a, a.buf
    ensures a.Valid() && a.full == old(a.full) + Field(value, width, c)
    ensures a.buf[a.cap - 1..] == old(a.buf[a.cap - 1..])
  {
    hide UintPad;
    a.UintPadded(value, width);
    a.Char(c);
  }

  method PutDate(a: Appender, tm: Tm)
    requires a.Valid()
    modifies a, a.buf
    ensures a.Valid() && a.full == old(a.full) + DatePart(tm)
    ensures a.buf[a.cap - 1..] == old(a.buf[a.cap - 1..])
  {
    hide Field, ULong;
    PutField(a, ULong(tm.year + 1900), 4, '-');
    PutField(a, ULong(tm.mon + 1), 2, '-');
    PutField(a, ULong(tm.mday), 2, 'T');
  }

  method PutTime(a: Appender, tm: Tm)
    requires a.Valid()
    modifies a, a.buf
    ensures a.Valid() && a.full == old(a.full) + TimePart(tm)
    ensures a.buf[a.cap - 1..] == old(a.buf[a.cap - 1..])
  {
    hide Field, ULong;
    PutField(a, ULong(tm.hour), 2, ':');
    PutField(a, ULong(tm.min), 2, ':');
    PutField(a, ULong(tm.sec), 2, '.');
  }

  method PutTimestamp(a: Appender, rec: Record, tm: Tm)
    requires a.Valid() && ValidRecord(rec)
    modifies a, a.buf
    ensures a.Valid() && a.full == old(a.full) + Timestamp(rec, tm)
    ensures a.buf[a.cap - 1..] == old(a.buf[a.cap - 1..])
  {
    hide DatePart, TimePart, UintPad;
    PutDate(a, tm);
    PutTime(a, tm);
    a.UintPadded(rec.msec, 3);
  }

  /** `{` up to the logger name. */
  method PutHead(a: Appender, rec: Record, tm: Tm)
    requires a.Valid() && ValidRecord(rec) && a.full == ""
    modifies a, a.buf
    ensures a.Valid() && a.full == JsonHead(rec, tm)
    ensures a.buf[a.cap - 1..] == old(a.buf[a.cap - 1..])
  {
    hide Timestamp, Dec, Escape, LevelName, EpochMs;
    a.Char('{');
    assert a.full == "{";
    a.Str("\"ts\":\"");
    PutTimestamp(a, rec, tm);
    a.Str("\",\"epoch_ms\":");
    a.Uint(EpochMs(rec));
    a.Str(",\"level\":\"");
    a.JsonEscaped(LevelName(rec.level));
    a.Str("\",\"logger\":\"");
    a.JsonEscaped(Text(rec.logger));
  }

  method PutMiddle(a: Appender, rec: Record)
    requires a.Valid() && ValidRecord(rec)
    modifies a, a.buf
    ensures a.Valid() && a.full == JsonMiddle(old(a.full), rec)
    ensures a.buf[a.cap - 1..] == old(a.buf[a.cap - 1..])
  {
    hide Dec, Escape, ULong;
    a.Str("\",\"pid\":");
    a.Uint(rec.pid);
    a.Str(",\"tid\":");
    a.Uint(rec.tid);
    a.Str(",\"file\":\"");
    a.JsonEscaped(Text(rec.file));
    a.Str("\",\"line\":");
    a.Uint(ULong(rec.line));
  }

  method PutTail(a: Appender, rec: Record)
    requires a.Valid()
    modifies a, a.buf
    ensures a.Valid() && a.full == JsonTail(old(a.full), rec)
    ensures a.buf[a.cap - 1..] == old(a.buf[a.cap - 1..])
  {
    hide Escape;
    a.Str(",\"func\":\"");
    a.JsonEscaped(Text(rec.func));
    a.Str("\",\"message\":\"");
    a.JsonEscaped(rec.message);
    a.Str("\",\"context\":\"");
    a.JsonEscaped(Text(rec.context));
    a.Str("\"}\n");
  }

  /** The whole object. */
  method PutLine(a: Appender, rec: Record, tm: Tm)
    requires a.Valid() && ValidRecord(rec) && a.full == ""
    modifies a, a.buf
    ensures a.Valid() && a.full == JsonLine(rec, tm)
    ensures a.buf[a.cap - 1..] == old(a.buf[a.cap - 1..])
  {
    hide JsonHead, JsonMiddle, JsonTail;
    PutHead(a, rec, tm);
    PutMiddle(a, rec);
    PutTail(a, rec);
  }

  /** `hx_format_json_record`, under the same contract as `FormatRecord`. */
  method FormatJsonRecord(rec: Record, tm: Tm, out: array<char>, size: nat) returns (needed: nat)
    requires ValidRecord(rec) && size <= out.Length
    modifies out
    ensures out[size..] == old(out[size..])
    ensures size == 0 ==> needed == 0
    ensures size > 0 ==> Rendered(out, size, JsonLine(rec, tm), needed)
    ensures var line := JsonLine(rec, tm);
            var written := if |line| < size then |line| else size - 1;
            size > 0 ==> out[..written] == line[..written] && out[written] == NUL
                         && needed == if |line| < UINT_MAX then |line| else UINT_MAX
  {
    hide JsonLine;
    if size == 0 {
      return 0;
    }
    needed := PrintRecord(rec, tm, out, size);
  }

  /** The same for a buffer that is not empty. */
  method PrintRecord(rec: Record, tm: Tm, out: array<char>, size: nat) returns (needed: nat)
    requires ValidRecord(rec) && 0 < size <= out.Length
    modifies out
    ensures out[size..] == old(out[size..])
    ensures Rendered(out, size, JsonLine(rec, tm), needed)
  {
    hide JsonLine, Rendered, ValidRecord;
    var a := new Appender(out, size);
    PutLine(a, rec, tm);
    TailOfTail(out[..], size);
    TailOfTail(old(out[..]), size);
    needed := Finish(a);
  }

  lemma TailOfTail(s: string, n: nat)
    requires 0 < n <= |s|
    ensures s[n..] == s[n - 1..][1..]
  {
  }

  // ---- The exact-size retry ----

  /** The format mode together with its pattern. */
  datatype Layout = ByPattern(pattern: Option<string>) | AsJson

  function FullLine(layout: Layout, rec: Record, tm: Tm): string {
    match layout
    case ByPattern(pattern) => Render(PatternOf(pattern), rec, tm)
    case AsJson => JsonLine(rec, tm)
  }

  /** Each mode has its own line, and a missing pattern is the default one. */
  lemma FullLineIs(layout: Layout, rec: Record, tm: Tm)
    ensures FullLine(layout, rec, tm)
            == if layout.AsJson? then JsonLine(rec, tm)
               else Render(if layout.pattern.Some? then layout.pattern.value else DEFAULT_PATTERN, rec, tm)
  {
  }

  /** `format_line` without a custom formatter. */
  method FormatLine(layout: Layout, rec: Record, tm: Tm, out: array<char>, size: nat)
    returns (needed: nat)
    requires ValidRecord(rec) && 0 < size <= out.Length
    modifies out
    ensures Rendered(out, size, FullLine(layout, rec, tm), needed)
  {
    match layout
    case ByPattern(pattern) => needed := FormatRecord(pattern, rec, tm, out, size);
    case AsJson => needed := FormatJsonRecord(rec, tm, out, size);
  }

  /** `hx_clamp_line`; None stands for a build without a line limit. */
  function ClampLine(need: nat, maxLine: Option<nat>): nat {
    if maxLine.Some? && need > maxLine.value then maxLine.value else need
  }

  /** What the caller gets: the full line, cut at the line limit, or at the stack
    * buffer when no heap memory is left. */
  function LineOf(full: string, stackSize: nat, maxLine: Option<nat>, haveMemory: bool): string
    requires stackSize > 0 && (maxLine.Some? ==> maxLine.value > 0)
  {
    if |full| + 1 <= stackSize then full
    else if haveMemory then Cut(full, ClampLine(|full| + 1, maxLine))
    else Cut(full, stackSize)
  }

  /** `needed + 1 <= stack_size` in 32-bit unsigned arithmetic. */
  predicate FitsTest(needed: nat, stackSize: nat) {
    (needed + 1) % (UINT_MAX + 1) <= stackSize
  }

  /** The stack test answers the real question exactly for lines below UINT_MAX. */
  lemma FitsTestIsRight(length: nat, stackSize: nat)
    requires 0 < stackSize <= UINT_MAX
    ensures (FitsTest(Min(length, UINT_MAX), stackSize) <==> length + 1 <= stackSize)
            <==> length < UINT_MAX
  {
    if length < UINT_MAX {
      assert (length + 1) % (UINT_MAX + 1) == length + 1;
    } else {
      assert (UINT_MAX + 1) % (UINT_MAX + 1) == 0;
    }
  }

  /** `format_with_retry`. The line handed back is `buf[..len]`. The 32-bit test is
    * right for every line shorter than UINT_MAX; a longer one saturates the counter
    * and is taken to fit the stack buffer. */
  method FormatWithRetry(layout: Layout, rec: Record, tm: Tm, stackbuf: array<char>,
                         maxLine: Option<nat>, haveMemory: bool)
    returns (buf: array<char>, len: nat)
    requires ValidRecord(rec) && 0 < stackbuf.Length <= UINT_MAX
    requires maxLine.Some? ==> 0 < maxLine.value <= UINT_MAX
    modifies stackbuf
    ensures var full := FullLine(layout, rec, tm);
            if |full| < UINT_MAX
            then len <= buf.Length
                 && buf[..len] == LineOf(full, stackbuf.Length, maxLine, haveMemory)
            else buf == stackbuf && len == UINT_MAX
    ensures var full := FullLine(layout, rec, tm);
            && (|full| < stackbuf.Length ==> len == |full|)
            && (stackbuf.Length <= |full| < UINT_MAX && !haveMemory ==> len == stackbuf.Length - 1)
            && (stackbuf.Length <= |full| < UINT_MAX && haveMemory ==>
                  len == if maxLine.Some? && |full| >= maxLine.value then maxLine.value - 1 else |full|)
            && (|full| < UINT_MAX ==> len <= |full| && buf[..len] == full[..len])
  {
    hide FullLine, FitsTest, Cut;
    var stackSize := stackbuf.Length;
    ghost var full := FullLine(layout, rec, tm);
    FitsTestIsRight(|full|, stackSize);
    CutLength(full, stackSize);
    var needed := FormatLine(layout, rec, tm, stackbuf, stackSize);
    if FitsTest(needed, stackSize) {
      CutWhole(full, stackSize);
      return stackbuf, needed;
    }
    if haveMemory {
      var want := if needed < UINT_MAX then needed + 1 else UINT_MAX;
      CutLength(full, ClampLine(want, maxLine));
      buf, len := HeapLine(layout, rec, tm, ClampLine(want, maxLine));
    } else {
      buf, len := stackbuf, stackSize - 1;
    }
  }

  /** The second rendering, into a heap buffer of `cap` bytes. */
  method HeapLine(layout: Layout, rec: Record, tm: Tm, cap: nat) returns (buf: array<char>, len: nat)
    requires ValidRecord(rec) && 0 < cap <= UINT_MAX
    ensures fresh(buf) && len <= buf.Length && buf[..len] == Cut(FullLine(layout, rec, tm), cap)
  {
    hide FullLine;
    buf := new char[cap];
    len := FormatLine(layout, rec, tm, buf, cap);
    if len > cap - 1 {
      len := cap - 1;
    }
  }

  lemma CutLength(line: string, cap: nat)
    requires cap > 0
    ensures var n := if |line| < cap then |line| else cap - 1;
            |Cut(line, cap)| == n && Cut(line, cap) == line[..n]
  {
  }

  lemma CutWhole(line: string, cap: nat)
    requires cap > 0
    ensures |line| + 1 <= cap ==> Cut(line, cap) == line
    ensures |Cut(line, cap)| == Min(|line|, cap - 1)
  {
  }

  /** With the library's limits the retry always works: the line is the full line
    * cut to `HX_CLOG_MAX_LINE - 1` bytes whenever memory is available and the limit
    * exceeds the stack buffer. */
  lemma RetryIsExact(layout: Layout, rec: Record, tm: Tm, stackSize: nat, maxLine: nat)
    requires ValidRecord(rec) && FieldsWithin(rec, 512 * 1024 - 1)
    requires layout.ByPattern? ==> |PatternOf(layout.pattern)| < 512
    requires 0 < stackSize < maxLine
    ensures var full := if layout.AsJson? then JsonLine(rec, tm) else Render(PatternOf(layout.pattern), rec, tm);
            && full == FullLine(layout, rec, tm) && |full| < UINT_MAX
            && LineOf(full, stackSize, Some(maxLine), true) == full[..if |full| < maxLine then |full| else maxLine - 1]
  {
    hide Render, JsonLine, Expand;
    match layout
    case ByPattern(pattern) => PatternLineFits(PatternOf(pattern), rec, tm);
    case AsJson => JsonLineFits(rec, tm);
  }
}
