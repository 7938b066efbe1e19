/** What a formatted line is: the pattern language of src/hx_clog_format.c without
  * buffers. Characters stand for bytes. */
module LinePattern {
  import opened Common
  import opened Decimal

  const ULONG := 0x1_0000_0000_0000_0000
  const UINT_MAX := 0xFFFF_FFFF

  /** `(unsigned long)x` for a 64-bit unsigned long. */
  function ULong(x: int): (u: nat)
    ensures u < ULONG
    ensures 0 <= x < ULONG ==> u == x
  {
    x % ULONG
  }

  /** `struct tm` with the C offsets, as `hx_localtime` fills it. */
  datatype Tm = Tm(year: int, mon: int, mday: int, hour: int, min: int, sec: int)

  /** `hx_clog_record_t`; a text field is None for a NULL pointer. `message` holds
    * the `message_len` bytes of the message. */
  datatype Record = Record(
    level: int,
    logger: Option<string>,
    file: Option<string>,
    line: int,
    func: Option<string>,
    pid: nat,
    tid: nat,
    sec: int,
    msec: nat,
    message: string,
    context: Option<string>)

  /** Fields that a 64-bit `unsigned long` and a 32-bit `unsigned` can hold. */
  predicate ValidRecord(rec: Record) {
    rec.pid < ULONG && rec.tid < ULONG && rec.msec <= UINT_MAX
  }

  function Text(s: Option<string>): string {
    if s.Some? then s.value else ""
  }

  function ShortName(level: int): (s: string)
    ensures |s| == 5
  {
    if level == 0 then "TRACE" else if level == 1 then "DEBUG" else if level == 2 then "INFO "
    else if level == 3 then "WARN " else if level == 4 then "ERROR" else if level == 5 then "FATAL"
    else if level == 6 then "OFF  " else "?????"
  }

  /** The part of a path behind its last separator. */
  function Basename(path: string): string {
    if path == "" then ""
    else
      var n := |path| - 1;
      if path[n] == '/' || path[n] == '\\' then "" else Basename(path[..n]) + [path[n]]
  }

  /** The digits `ap_uint_pad` keeps: its buffer holds the 16 lowest ones. */
  function PadDigits(v: nat): (s: string)
    ensures 0 < |s| <= 16 && AllDigits(s)
  {
    var d := Dec(v);
    if |d| <= 16 then d else d[|d| - 16..]
  }

  function UintPad(v: nat, width: nat): (s: string)
    ensures 0 < |s| <= (if width < 16 then 16 else width) && AllDigits(s)
  {
    Zeros(width - |PadDigits(v)|) + PadDigits(v)
  }

  /** For numbers of at most 16 digits this is ordinary zero padding. */
  lemma UintPadIsPad(v: nat, width: nat)
    requires v < Pow10(16)
    ensures UintPad(v, width) == Pad(v, width)
  {
    hide Pow10, Digits;
    DigitsLength(v, 16);
    assert |Dec(v)| <= 16;
  }

  /** What the placeholder `%c` stands for. */
  function Expand(c: char, rec: Record, tm: Tm): string {
    if c == 'Y' then UintPad(ULong(tm.year + 1900), 4)
    else if c == 'm' then UintPad(ULong(tm.mon + 1), 2)
    else if c == 'd' then UintPad(ULong(tm.mday), 2)
    else if c == 'H' then UintPad(ULong(tm.hour), 2)
    else if c == 'M' then UintPad(ULong(tm.min), 2)
    else if c == 'S' then UintPad(ULong(tm.sec), 2)
    else if c == 'e' then UintPad(rec.msec, 3)
    else if c == 'l' then ShortName(rec.level)
    else if c == 'c' then Text(rec.logger)
    else if c == 't' then Dec(rec.tid)
    else if c == 'p' then Dec(rec.pid)
    else if c == 's' then Basename(Text(rec.file))
    else if c == 'F' then Text(rec.file)
    else if c == '#' then Dec(ULong(rec.line))
    else if c == '!' then Text(rec.func)
    else if c == 'v' then rec.message
    else if c == 'x' then Text(rec.context)
    else if c == 'n' then "\n"
    else if c == '%' then "%"
    else ['%', c]
  }

  /** The full line of a pattern. */
  function Render(pattern: string, rec: Record, tm: Tm): string {
    if pattern == "" then ""
    else if pattern[0] != '%' then [pattern[0]] + Render(pattern[1..], rec, tm)
    else if |pattern| == 1 then "%"
    else Expand(pattern[1], rec, tm) + Render(pattern[2..], rec, tm)
  }

  const DEFAULT_PATTERN := "%Y-%m-%d %H:%M:%S.%e [%l] [tid:%t] %s:%# %!() - %v%n"

  function PatternOf(pattern: Option<string>): string {
    if pattern.Some? then pattern.value else DEFAULT_PATTERN
  }

  // ---- Concatenation ----

  /** The pattern ends in a percent sign that is waiting for its letter. */
  predicate Dangling(pattern: string) {
    if pattern == "" then false
    else if pattern[0] != '%' then Dangling(pattern[1..])
    else if |pattern| == 1 then true
    else Dangling(pattern[2..])
  }

  /** Rendering distributes over concatenation at any split that does not leave a
    * dangling percent sign. */
  lemma {:induction false} RenderConcat(p: string, q: string, rec: Record, tm: Tm)
    requires !Dangling(p)
    ensures Render(p + q, rec, tm) == Render(p, rec, tm) + Render(q, rec, tm)
  {
    if p == "" {
      assert p + q == q;
    } else if p[0] != '%' {
      assert (p + q)[1..] == p[1..] + q;
      RenderConcat(p[1..], q, rec, tm);
    } else {
      assert (p + q)[2..] == p[2..] + q;
      RenderConcat(p[2..], q, rec, tm);
    }
  }

  /** A dangling percent sign renders as itself at the end of a pattern but takes a
    * letter that follows it. */
  lemma {:induction false} DanglingTakesLetter(p: string, rec: Record, tm: Tm)
    requires Dangling(p)
    ensures |Render(p + "n", rec, tm)| == |Render(p, rec, tm)|
  {
    if p[0] != '%' {
      assert (p + "n")[1..] == p[1..] + "n";
      DanglingTakesLetter(p[1..], rec, tm);
    } else if |p| == 1 {
      assert (p + "n")[2..] == "";
    } else {
      assert (p + "n")[2..] == p[2..] + "n";
      DanglingTakesLetter(p[2..], rec, tm);
    }
  }

  /** So the split law holds exactly at the splits without a dangling percent sign. */
  lemma RenderConcatIff(p: string, rec: Record, tm: Tm)
    ensures (forall q: string ::
               Render(p + q, rec, tm) == Render(p, rec, tm) + Render(q, rec, tm))
            <==> !Dangling(p)
  {
    if Dangling(p) {
      DanglingTakesLetter(p, rec, tm);
      assert Render("n", rec, tm) == "n";
      assert Render(p + "n", rec, tm) != Render(p, rec, tm) + Render("n", rec, tm);
    } else {
      forall q: string
        ensures Render(p + q, rec, tm) == Render(p, rec, tm) + Render(q, rec, tm)
      {
        RenderConcat(p, q, rec, tm);
      }
    }
  }

  // ---- Size ----

  /** Every text field is at most `bound` bytes long. */
  predicate FieldsWithin(rec: Record, bound: nat) {
    && |Text(rec.logger)| <= bound && |Text(rec.file)| <= bound && |Text(rec.func)| <= bound
    && |rec.message| <= bound && |Text(rec.context)| <= bound
  }

  lemma {:induction false} BasenameLength(path: string)
    ensures |Basename(path)| <= |path|
  {
    if path != "" {
      BasenameLength(path[..|path| - 1]);
    }
  }

  lemma DecLength(n: nat)
    requires n < ULONG
    ensures |Dec(n)| <= 20
  {
    ULongDigits(n);
  }

  lemma ExpandLength(c: char, rec: Record, tm: Tm, bound: nat)
    requires ValidRecord(rec) && FieldsWithin(rec, bound) && bound >= 20
    ensures |Expand(c, rec, tm)| <= bound
  {
    BasenameLength(Text(rec.file));
    DecLength(rec.tid);
    DecLength(rec.pid);
    DecLength(ULong(rec.line));
  }

  lemma {:induction false} RenderLength(p: string, rec: Record, tm: Tm, bound: nat)
    requires ValidRecord(rec) && FieldsWithin(rec, bound) && bound >= 20
    ensures |Render(p, rec, tm)| <= |p| * bound
  {
    hide Expand, ValidRecord, FieldsWithin;
    if p == "" {
    } else if p[0] != '%' {
      RenderLength(p[1..], rec, tm, bound);
      TimesPlus(|p[1..]|, 1, bound);
    } else if |p| == 1 {
    } else {
      ExpandLength(p[1], rec, tm, bound);
      RenderLength(p[2..], rec, tm, bound);
      TimesPlus(|p[2..]|, 2, bound);
    }
  }

  lemma TimesPlus(a: nat, b: nat, c: nat)
    ensures (a + b) * c == a * c + b * c
  {
  }

  /** The library's own limits keep the 32-bit length counter away from saturation:
    * a pattern fits in 512 bytes and a text field in 512 KB. */
  lemma PatternLineFits(p: string, rec: Record, tm: Tm)
    requires |p| < 512 && ValidRecord(rec) && FieldsWithin(rec, 512 * 1024 - 1)
    ensures |Render(p, rec, tm)| < UINT_MAX
  {
    var bound := 512 * 1024 - 1;
    RenderLength(p, rec, tm, bound);
    assert |p| * bound <= 511 * bound by { TimesMonotone(|p|, 511, bound); }
  }

  lemma TimesMonotone(a: nat, b: nat, c: nat)
    requires a <= b
    ensures a * c <= b * c
  {
  }
}
