/** The JSON line of src/hx_clog_format.c and a reader for it.
  *
  * The reader follows the string grammar of section 7 of RFC 8259 at the level of
  * bytes, and the number grammar of its section 6 for non-negative integers; it
  * accepts no white space because the printer writes none.
  */
module Json {
  import opened Common
  import opened Decimal
  import opened LinePattern

  // ---- Printing ----

  function HexDigit(d: nat): (c: char)
    requires d < 16
  {
    if d < 10 then ('0' as int + d) as char else ('a' as int + d - 10) as char
  }

  function EscapeChar(c: char): (s: string)
    ensures 1 <= |s| <= 6
  {
    if c == '"' then "\\\""
    else if c == '\\' then "\\\\"
    else if c == 8 as char then "\\b"
    else if c == 12 as char then "\\f"
    else if c == '\n' then "\\n"
    else if c == '\r' then "\\r"
    else if c == '\t' then "\\t"
    else if c as int < 0x20 then "\\u00" + [HexDigit(c as int / 16), HexDigit(c as int % 16)]
    else [c]
  }

  function Escape(s: string): string {
    if s == "" then "" else EscapeChar(s[0]) + Escape(s[1..])
  }

  function LevelName(level: int): string {
    if level == 0 then "TRACE" else if level == 1 then "DEBUG" else if level == 2 then "INFO"
    else if level == 3 then "WARN" else if level == 4 then "ERROR" else if level == 5 then "FATAL"
    else if level == 6 then "OFF" else "UNKNOWN"
  }

  function Field(value: nat, width: nat, c: char): string {
    UintPad(value, width) + [c]
  }

  function DatePart(tm: Tm): string {
    Field(ULong(tm.year + 1900), 4, '-') + Field(ULong(tm.mon + 1), 2, '-')
    + Field(ULong(tm.mday), 2, 'T')
  }

  function TimePart(tm: Tm): string {
    Field(ULong(tm.hour), 2, ':') + Field(ULong(tm.min), 2, ':') + Field(ULong(tm.sec), 2, '.')
  }

  /** `YYYY-MM-DDTHH:MM:SS.mmm`. */
  function Timestamp(rec: Record, tm: Tm): string {
    DatePart(tm) + TimePart(tm) + UintPad(rec.msec, 3)
  }

  /** `timestamp_sec * 1000 + timestamp_msec` in unsigned 64-bit arithmetic. */
  function EpochMs(rec: Record): (ms: nat)
    ensures ms < ULONG
  {
    ULong(ULong(rec.sec) * 1000 + rec.msec)
  }

  /** The line, in the order in which the printer appends its pieces. */
  function JsonLine(rec: Record, tm: Tm): string {
    JsonTail(JsonMiddle(JsonHead(rec, tm), rec), rec)
  }

  function JsonHead(rec: Record, tm: Tm): string {
    "{" + "\"ts\":\"" + Timestamp(rec, tm) + "\",\"epoch_ms\":" + Dec(EpochMs(rec))
    + ",\"level\":\"" + Escape(LevelName(rec.level)) + "\",\"logger\":\"" + Escape(Text(rec.logger))
  }

  function JsonMiddle(head: string, rec: Record): string {
    head + "\",\"pid\":" + Dec(rec.pid) + ",\"tid\":" + Dec(rec.tid)
    + ",\"file\":\"" + Escape(Text(rec.file)) + "\",\"line\":" + Dec(ULong(rec.line))
  }

  function JsonTail(middle: string, rec: Record): string {
    middle + ",\"func\":\"" + Escape(Text(rec.func)) + "\",\"message\":\"" + Escape(rec.message)
    + "\",\"context\":\"" + Escape(Text(rec.context)) + "\"}\n"
  }

  // ---- Reading ----

  datatype Value = Str(s: string) | Num(n: nat)

  datatype Member = Member(name: string, value: Value)

  datatype Parsed<+T> = Bad | Good(value: T, rest: string)

  function HexValue(c: char): Option<nat> {
    if '0' <= c <= '9' then Some(c as int - '0' as int)
    else if 'a' <= c <= 'f' then Some(c as int - 'a' as int + 10)
    else if 'A' <= c <= 'F' then Some(c as int - 'A' as int + 10)
    else None
  }

  /** The byte that four hexadecimal digits name; a code above 7F would take several
    * bytes and is not read. */
  function HexByte(s: string): Option<char>
    requires |s| == 4
  {
    var a, b, c, d := HexValue(s[0]), HexValue(s[1]), HexValue(s[2]), HexValue(s[3]);
    if a == Some(0) && b == Some(0) && c.Some? && d.Some? && c.value < 8
    then Some((c.value * 16 + d.value) as char)
    else None
  }

  function ShortEscape(c: char): Option<char> {
    if c == '"' || c == '\\' || c == '/' then Some(c)
    else if c == 'b' then Some(8 as char)
    else if c == 'f' then Some(12 as char)
    else if c == 'n' then Some('\n')
    else if c == 'r' then Some('\r')
    else if c == 't' then Some('\t')
    else None
  }

  function Prepend(c: char, p: Parsed<string>): Parsed<string> {
    if p.Good? then Good([c] + p.value, p.rest) else Bad
  }

  /** The characters of a string up to and including its closing quote. */
  function ReadChars(s: string): Parsed<string>
    decreases |s|
  {
    if s == "" then Bad
    else if s[0] == '"' then Good("", s[1..])
    else if s[0] as int < 0x20 then Bad
    else if s[0] != '\\' then Prepend(s[0], ReadChars(s[1..]))
    else if |s| >= 2 && ShortEscape(s[1]).Some? then
      Prepend(ShortEscape(s[1]).value, ReadChars(s[2..]))
    else if |s| >= 6 && s[1] == 'u' && HexByte(s[2..6]).Some? then
      Prepend(HexByte(s[2..6]).value, ReadChars(s[6..]))
    else Bad
  }

  function ReadString(s: string): Parsed<string> {
    if s != "" && s[0] == '"' then ReadChars(s[1..]) else Bad
  }

  function ReadNumber(s: string): Parsed<nat> {
    var n := DigitRun(s);
    if n == 0 || (n > 1 && s[0] == '0') then Bad else Good(ValueOf(s[..n]), s[n..])
  }

  function ReadValue(s: string): Parsed<Value> {
    if s != "" && s[0] == '"' then
      var p := ReadString(s);
      if p.Good? then Good(Str(p.value), p.rest) else Bad
    else
      var p := ReadNumber(s);
      if p.Good? then Good(Num(p.value), p.rest) else Bad
  }

  function ReadMember(s: string): Parsed<Member> {
    var name := ReadString(s);
    if name.Good? && name.rest != "" && name.rest[0] == ':' then
      var value := ReadValue(name.rest[1..]);
      if value.Good? then Good(Member(name.value, value.value), value.rest) else Bad
    else Bad
  }

  /** Members separated by commas, up to the closing brace. */
  function ReadMembers(s: string): Parsed<seq<Member>>
    decreases |s|
  {
    var m := ReadMember(s);
    if m.Bad? || m.rest == "" then Bad
    else if m.rest[0] == '}' then Good([m.value], m.rest[1..])
    else if m.rest[0] == ',' && |m.rest| < |s| then
      var more := ReadMembers(m.rest[1..]);
      if more.Good? then Good([m.value] + more.value, more.rest) else Bad
    else Bad
  }

  /** One object, one newline and nothing else. */
  function ReadLine(line: string): Option<seq<Member>> {
    if line == "" || line[0] != '{' then None
    else
      var p := ReadMembers(line[1..]);
      if p.Good? && p.rest == "\n" then Some(p.value) else None
  }

  // ---- Strings survive ----

  /** A control character without a short form. */
  lemma ReadHexEscape(c: char, rest: string)
    requires c as int < 0x20 && |EscapeChar(c)| == 6
    ensures ReadChars(EscapeChar(c) + rest) == Prepend(c, ReadChars(rest))
  {
    var hi, lo := c as int / 16, c as int % 16;
    var s := EscapeChar(c) + rest;
    assert EscapeChar(c) == ['\\', 'u', '0', '0', HexDigit(hi), HexDigit(lo)];
    assert s[2..6] == ['0', '0', HexDigit(hi), HexDigit(lo)];
    assert s[6..] == rest;
    assert HexByte(s[2..6]) == Some(c);
    assert s[0] == '\\' && s[1] == 'u' && ShortEscape('u').None?;
  }

  lemma ReadEscapedChar(c: char, rest: string)
    ensures ReadChars(EscapeChar(c) + rest) == Prepend(c, ReadChars(rest))
  {
    var s := EscapeChar(c) + rest;
    if |EscapeChar(c)| == 1 {
      assert s[1..] == rest;
    } else if |EscapeChar(c)| == 2 {
      assert s[2..] == rest;
      assert s[0] == '\\' && s[1] == EscapeChar(c)[1] && ShortEscape(s[1]) == Some(c);
    } else {
      ReadHexEscape(c, rest);
    }
  }

  /** unescape(escape(s)) == s for every string of bytes, NUL included. */
  lemma {:induction false} StringRoundTrip(s: string, rest: string)
    ensures ReadChars(Escape(s) + "\"" + rest) == Good(s, rest)
  {
    if s == "" {
      var t := Escape(s) + "\"" + rest;
      assert t == "\"" + rest;
      assert t[1..] == rest;
    } else {
      hide EscapeChar, ReadChars;
      var tail := Escape(s[1..]) + "\"" + rest;
      StringRoundTrip(s[1..], rest);
      ReadEscapedChar(s[0], tail);
      assert Escape(s) + "\"" + rest == EscapeChar(s[0]) + tail;
      assert [s[0]] + s[1..] == s;
    }
  }

  // ---- Numbers survive ----

  lemma NumberRoundTrip(n: nat, rest: string)
    requires rest == "" || !IsDigit(rest[0])
    ensures ReadNumber(Dec(n) + rest) == Good(n, rest)
  {
    var s := Dec(n) + rest;
    DigitRunOf(Dec(n), rest);
    DecHasNoLeadingZero(n);
    ValueOfDec(n);
    assert s[..|Dec(n)|] == Dec(n) && s[|Dec(n)|..] == rest;
  }

  // ---- Objects survive ----

  function PrintValue(v: Value): string {
    match v
    case Str(s) => "\"" + Escape(s) + "\""
    case Num(n) => Dec(n)
  }

  function PrintMember(m: Member): string {
    "\"" + Escape(m.name) + "\":" + PrintValue(m.value)
  }

  function PrintMembers(ms: seq<Member>): string
    requires ms != []
  {
    if |ms| == 1 then PrintMember(ms[0]) + "}" else PrintMember(ms[0]) + "," + PrintMembers(ms[1..])
  }

  lemma ReadPrintedString(s: string, rest: string)
    ensures ReadString("\"" + Escape(s) + "\"" + rest) == Good(s, rest)
  {
    var t := "\"" + Escape(s) + "\"" + rest;
    assert t[1..] == Escape(s) + "\"" + rest;
    StringRoundTrip(s, rest);
  }

  lemma ReadPrintedValue(v: Value, rest: string)
    requires rest != "" && (rest[0] == ',' || rest[0] == '}')
    ensures ReadValue(PrintValue(v) + rest) == Good(v, rest)
  {
    match v
    case Str(s) => ReadPrintedString(s, rest);
    case Num(n) =>
      NumberRoundTrip(n, rest);
      assert IsDigit(Dec(n)[0]);
  }

  lemma ReadPrintedMember(m: Member, rest: string)
    requires rest != "" && (rest[0] == ',' || rest[0] == '}')
    ensures ReadMember(PrintMember(m) + rest) == Good(m, rest)
  {
    hide ReadChars, ReadValue, PrintValue, ReadString;
    var s := PrintMember(m) + rest;
    var after := ":" + (PrintValue(m.value) + rest);
    assert s == "\"" + Escape(m.name) + "\"" + after;
    ReadPrintedString(m.name, after);
    assert after[1..] == PrintValue(m.value) + rest;
    ReadPrintedValue(m.value, rest);
  }

  lemma {:induction false} ReadPrintedMembers(ms: seq<Member>, rest: string)
    requires ms != []
    ensures ReadMembers(PrintMembers(ms) + rest) == Good(ms, rest)
  {
    hide ReadMember, PrintMember;
    var s := PrintMembers(ms) + rest;
    if |ms| == 1 {
      var after := "}" + rest;
      assert s == PrintMember(ms[0]) + after;
      ReadPrintedMember(ms[0], after);
      assert after[1..] == rest && ms == [ms[0]];
    } else {
      var after := "," + (PrintMembers(ms[1..]) + rest);
      assert s == PrintMember(ms[0]) + after;
      ReadPrintedMember(ms[0], after);
      assert after[1..] == PrintMembers(ms[1..]) + rest;
      ReadPrintedMembers(ms[1..], rest);
      assert |PrintMember(ms[0])| > 0 by { PrintedMemberStarts(ms[0]); }
      assert ms == [ms[0]] + ms[1..];
    }
  }

  lemma PrintedMemberStarts(m: Member)
    ensures |PrintMember(m)| > 0
  {
  }

  // ---- The printed line is an object ----

  /** Characters that need no escape. */
  predicate Plain(s: string) {
    forall i :: 0 <= i < |s| ==> s[i] as int >= 0x20 && s[i] != '"' && s[i] != '\\'
  }

  lemma {:induction false} PlainEscape(s: string)
    requires Plain(s)
    ensures Escape(s) == s
  {
    if s != "" {
      PlainEscape(s[1..]);
    }
  }

  lemma DigitsArePlain(s: string)
    requires AllDigits(s)
    ensures Plain(s)
  {
  }

  /** The members with commas between them and without the closing brace. */
  function PrintOpen(ms: seq<Member>): string {
    if ms == [] then "{"
    else
      var n := |ms| - 1;
      PrintOpen(ms[..n]) + (if n == 0 then "" else ",") + PrintMember(ms[n])
  }

  lemma PrintOpenSnoc(ms: seq<Member>, m: Member)
    ensures PrintOpen(ms + [m]) == PrintOpen(ms) + (if ms == [] then "" else ",") + PrintMember(m)
  {
    assert (ms + [m])[..|ms|] == ms;
  }

  lemma {:induction false} PrintOpenCons(m: Member, ms: seq<Member>)
    requires ms != []
    ensures PrintOpen([m] + ms) == PrintOpen([m]) + "," + PrintOpen(ms)[1..]
    ensures |PrintOpen(ms)| > 1 && PrintOpen(ms)[0] == '{'
  {
    hide PrintMember;
    var n := |ms| - 1;
    PrintedMemberStarts(ms[n]);
    if n == 0 {
      PrintOpenSnoc([m], ms[0]);
      assert [m] + ms == [m] + [ms[0]];
      assert PrintOpen(ms[..0]) == "{";
    } else {
      PrintOpenCons(m, ms[..n]);
      PrintOpenSnoc([m] + ms[..n], ms[n]);
      assert [m] + ms == [m] + ms[..n] + [ms[n]];
      assert PrintOpen(ms)[1..] == PrintOpen(ms[..n])[1..] + "," + PrintMember(ms[n]);
    }
  }

  lemma PrintOpenOne(m: Member)
    ensures PrintOpen([m]) == "{" + PrintMember(m)
  {
    PrintOpenSnoc([], m);
    assert [] + [m] == [m];
  }

  lemma {:induction false} PrintOpenIsMembers(ms: seq<Member>)
    requires ms != []
    ensures PrintOpen(ms) + "}" == "{" + PrintMembers(ms)
    decreases |ms|
  {
    hide PrintMember;
    if |ms| == 1 {
      PrintOpenOne(ms[0]);
      assert ms == [ms[0]];
    } else {
      PrintOpenIsMembers(ms[1..]);
      assert ms == [ms[0]] + ms[1..];
      PrintOpenOne(ms[0]);
      var tail := PrintOpen(ms[1..]);
      PrintOpenCons(ms[0], ms[1..]);
      assert tail[1..] + "}" == (tail + "}")[1..] == PrintMembers(ms[1..]);
    }
  }

  /** What the line so far looks like after its last member: a string value still
    * lacks its closing quote. */
  predicate Upto(ms: seq<Member>, line: string)
    requires ms != []
  {
    PrintOpen(ms) == line + (if ms[|ms| - 1].value.Str? then "\"" else "")
  }

  lemma AppendStr(ms: seq<Member>, line: string, key: string, name: string, v: string)
    requires ms != [] && Upto(ms, line) && Plain(name)
    requires key == (if ms[|ms| - 1].value.Str? then "\"" else "") + ",\"" + name + "\":\""
    ensures Upto(ms + [Member(name, Str(v))], line + key + Escape(v))
  {
    hide Escape, PrintOpen;
    PlainEscape(name);
    PrintOpenSnoc(ms, Member(name, Str(v)));
    assert PrintMember(Member(name, Str(v))) == "\"" + name + "\":" + ("\"" + Escape(v) + "\"");
  }

  lemma AppendNum(ms: seq<Member>, line: string, key: string, name: string, n: nat)
    requires ms != [] && Upto(ms, line) && Plain(name)
    requires key == (if ms[|ms| - 1].value.Str? then "\"" else "") + ",\"" + name + "\":"
    ensures Upto(ms + [Member(name, Num(n))], line + key + Dec(n))
  {
    hide Escape, PrintOpen;
    PlainEscape(name);
    PrintOpenSnoc(ms, Member(name, Num(n)));
    assert PrintMember(Member(name, Num(n))) == "\"" + name + "\":" + Dec(n);
  }

  function HeadMembers(rec: Record, tm: Tm): seq<Member> {
    [Member("ts", Str(Timestamp(rec, tm))),
     Member("epoch_ms", Num(EpochMs(rec))),
     Member("level", Str(LevelName(rec.level))),
     Member("logger", Str(Text(rec.logger)))]
  }

  function MiddleMembers(rec: Record): seq<Member> {
    [Member("pid", Num(rec.pid)),
     Member("tid", Num(rec.tid)),
     Member("file", Str(Text(rec.file))),
     Member("line", Num(ULong(rec.line)))]
  }

  function TailMembers(rec: Record): seq<Member> {
    [Member("func", Str(Text(rec.func))),
     Member("message", Str(rec.message)),
     Member("context", Str(Text(rec.context)))]
  }

  /** The fields a reader is meant to find. */
  function Members(rec: Record, tm: Tm): seq<Member> {
    HeadMembers(rec, tm) + MiddleMembers(rec) + TailMembers(rec)
  }

  lemma TimestampIsPlain(rec: Record, tm: Tm)
    ensures Plain(Timestamp(rec, tm))
  {
    hide UintPad;
  }

  lemma OneByOne(ms: seq<Member>, a: Member, b: Member, c: Member, d: Member)
    ensures ms + [a] + [b] + [c] == ms + [a, b, c]
    ensures ms + [a] + [b] + [c] + [d] == ms + [a, b, c, d]
  {
  }

  lemma HeadStarts(ts: string, epoch: nat)
    requires Plain(ts)
    ensures Upto([Member("ts", Str(ts)), Member("epoch_ms", Num(epoch))],
                 "{" + "\"ts\":\"" + ts + "\",\"epoch_ms\":" + Dec(epoch))
  {
    hide Escape, PrintOpen, Upto, Dec;
    var m1, l1 := [Member("ts", Str(ts))], "{" + "\"ts\":\"" + ts;
    FirstMember("ts", ts, l1);
    AppendNum(m1, l1, "\",\"epoch_ms\":", "epoch_ms", epoch);
    assert m1 + [Member("epoch_ms", Num(epoch))] == [Member("ts", Str(ts)), Member("epoch_ms", Num(epoch))];
  }

  lemma HeadIsMembers(rec: Record, tm: Tm)
    ensures Upto(HeadMembers(rec, tm), JsonHead(rec, tm))
  {
    hide Timestamp, Escape, PrintOpen, Upto, EpochMs, LevelName, Dec;
    var ts, epoch, level := Timestamp(rec, tm), EpochMs(rec), LevelName(rec.level);
    TimestampIsPlain(rec, tm);
    HeadStarts(ts, epoch);
    var m2 := [Member("ts", Str(ts)), Member("epoch_ms", Num(epoch))];
    var l2 := "{" + "\"ts\":\"" + ts + "\",\"epoch_ms\":" + Dec(epoch);
    AppendStr(m2, l2, ",\"level\":\"", "level", level);
    var m3, l3 := m2 + [Member("level", Str(level))], l2 + ",\"level\":\"" + Escape(level);
    AppendStr(m3, l3, "\",\"logger\":\"", "logger", Text(rec.logger));
    assert m3 + [Member("logger", Str(Text(rec.logger)))] == HeadMembers(rec, tm);
  }

  lemma FirstMember(name: string, v: string, line: string)
    requires Plain(name) && Plain(v)
    requires line == "{" + ("\"" + name + "\":\"") + v
    ensures Upto([Member(name, Str(v))], line)
  {
    hide Escape;
    PlainEscape(name);
    PlainEscape(v);
    var m := Member(name, Str(v));
    assert PrintMember(m) == "\"" + name + "\":" + ("\"" + v + "\"");
    PrintOpenOne(m);
  }

  lemma MiddleIsMembers(ms: seq<Member>, line: string, rec: Record)
    requires ms != [] && ms[|ms| - 1].value.Str? && Upto(ms, line)
    ensures Upto(ms + MiddleMembers(rec), JsonMiddle(line, rec))
  {
    hide Escape, PrintOpen, Upto;
    var m1, l1 := ms + [Member("pid", Num(rec.pid))], line + "\",\"pid\":" + Dec(rec.pid);
    AppendNum(ms, line, "\",\"pid\":", "pid", rec.pid);
    var m2, l2 := m1 + [Member("tid", Num(rec.tid))], l1 + ",\"tid\":" + Dec(rec.tid);
    AppendNum(m1, l1, ",\"tid\":", "tid", rec.tid);
    var m3 := m2 + [Member("file", Str(Text(rec.file)))];
    var l3 := l2 + ",\"file\":\"" + Escape(Text(rec.file));
    AppendStr(m2, l2, ",\"file\":\"", "file", Text(rec.file));
    AppendNum(m3, l3, "\",\"line\":", "line", ULong(rec.line));
    var h := MiddleMembers(rec);
    OneByOne(ms, h[0], h[1], h[2], h[3]);
  }

  lemma CloseObject(ms: seq<Member>, line: string)
    requires ms != [] && ms[|ms| - 1].value.Str? && Upto(ms, line)
    ensures PrintOpen(ms) + "}" + "\n" == line + "\"}\n"
  {
    hide PrintOpen;
    assert "\"" + "}" + "\n" == "\"}\n";
  }

  lemma TailStarts(ms: seq<Member>, line: string, func: string, message: string)
    requires ms != [] && ms[|ms| - 1].value.Num? && Upto(ms, line)
    ensures Upto(ms + [Member("func", Str(func)), Member("message", Str(message))],
                 line + ",\"func\":\"" + Escape(func) + "\",\"message\":\"" + Escape(message))
  {
    hide Escape, PrintOpen, Upto;
    var m1, l1 := ms + [Member("func", Str(func))], line + ",\"func\":\"" + Escape(func);
    AppendStr(ms, line, ",\"func\":\"", "func", func);
    AppendStr(m1, l1, "\",\"message\":\"", "message", message);
    assert m1 + [Member("message", Str(message))] == ms + [Member("func", Str(func)), Member("message", Str(message))];
  }

  lemma TailIsMembers(ms: seq<Member>, line: string, rec: Record)
    requires ms != [] && ms[|ms| - 1].value.Num? && Upto(ms, line)
    ensures PrintOpen(ms + TailMembers(rec)) + "}" + "\n" == JsonTail(line, rec)
  {
    hide Escape, PrintOpen, Upto;
    var func, context := Text(rec.func), Text(rec.context);
    TailStarts(ms, line, func, rec.message);
    var m2 := ms + [Member("func", Str(func)), Member("message", Str(rec.message))];
    var l2 := line + ",\"func\":\"" + Escape(func) + "\",\"message\":\"" + Escape(rec.message);
    AppendStr(m2, l2, "\",\"context\":\"", "context", context);
    assert m2 + [Member("context", Str(context))] == ms + TailMembers(rec);
    CloseObject(ms + TailMembers(rec), l2 + "\",\"context\":\"" + Escape(context));
  }

  /** The line is one object holding exactly the record's fields. */
  lemma LineIsObject(rec: Record, tm: Tm)
    ensures JsonLine(rec, tm) == "{" + PrintMembers(Members(rec, tm)) + "\n"
  {
    hide Upto, PrintOpen, PrintMembers, JsonHead, JsonMiddle, JsonTail, Timestamp, EpochMs, LevelName;
    var head := HeadMembers(rec, tm);
    HeadIsMembers(rec, tm);
    MiddleIsMembers(head, JsonHead(rec, tm), rec);
    TailIsMembers(head + MiddleMembers(rec), JsonMiddle(JsonHead(rec, tm), rec), rec);
    PrintOpenIsMembers(Members(rec, tm));
  }

  /** Reading a complete JSON line gives back the record's fields. */
  lemma JsonRoundTrip(rec: Record, tm: Tm)
    requires 0 <= rec.line < ULONG
    ensures ReadLine(JsonLine(rec, tm)) == Some(Members(rec, tm))
    ensures Members(rec, tm)[7] == Member("line", Num(rec.line))
    ensures 0 <= rec.sec && rec.sec * 1000 + rec.msec < ULONG ==>
              Members(rec, tm)[1] == Member("epoch_ms", Num(rec.sec * 1000 + rec.msec))
  {
    hide JsonLine, Timestamp, PrintMembers, ReadMembers;
    var ms := Members(rec, tm);
    LineIsObject(rec, tm);
    ReadPrintedMembers(ms, "\n");
    var line := JsonLine(rec, tm);
    assert line[1..] == PrintMembers(ms) + "\n";
  }

  // ---- One line is one line ----

  predicate NoNewline(s: string) {
    forall i :: 0 <= i < |s| ==> s[i] != '\n'
  }

  lemma {:induction false} EscapeHasNoNewline(s: string)
    ensures NoNewline(Escape(s))
  {
    if s != "" {
      EscapeHasNoNewline(s[1..]);
    }
  }

  lemma PrintedMemberHasNoNewline(m: Member)
    ensures NoNewline(PrintMember(m))
  {
    hide Escape;
    EscapeHasNoNewline(m.name);
    match m.value
    case Str(s) => EscapeHasNoNewline(s);
    case Num(n) => DigitsArePlain(Dec(n));
  }

  lemma {:induction false} PrintedMembersHaveNoNewline(ms: seq<Member>)
    requires ms != []
    ensures NoNewline(PrintMembers(ms))
  {
    hide PrintMember;
    PrintedMemberHasNoNewline(ms[0]);
    if |ms| > 1 {
      PrintedMembersHaveNoNewline(ms[1..]);
    }
  }

  /** Whatever the fields contain, the only newline is the last byte of the line. */
  lemma OnlyLastNewline(rec: Record, tm: Tm)
    ensures var line := JsonLine(rec, tm);
            line != "" && line[|line| - 1] == '\n' && NoNewline(line[..|line| - 1])
  {
    hide JsonLine, PrintMembers, Timestamp;
    LineIsObject(rec, tm);
    PrintedMembersHaveNoNewline(Members(rec, tm));
    var line := JsonLine(rec, tm);
    assert line[..|line| - 1] == "{" + PrintMembers(Members(rec, tm));
  }

  // ---- Size ----

  lemma {:induction false} EscapeLength(s: string)
    ensures |Escape(s)| <= 6 * |s|
  {
    if s != "" {
      EscapeLength(s[1..]);
    }
  }

  /** With text fields under 512 KB the JSON line's length fits 32 bits. */
  lemma JsonLineFits(rec: Record, tm: Tm)
    requires ValidRecord(rec) && FieldsWithin(rec, 512 * 1024 - 1)
    ensures |JsonLine(rec, tm)| < UINT_MAX
  {
    hide Escape, UintPad, Timestamp, EpochMs;
    EscapeLength(Text(rec.logger));
    EscapeLength(Text(rec.file));
    EscapeLength(Text(rec.func));
    EscapeLength(rec.message);
    EscapeLength(Text(rec.context));
    EscapeLength(LevelName(rec.level));
    DecLength(rec.pid);
    DecLength(rec.tid);
    DecLength(ULong(rec.line));
    DecLength(EpochMs(rec));
    TimestampLength(rec, tm);
  }

  lemma TimestampLength(rec: Record, tm: Tm)
    ensures |Timestamp(rec, tm)| <= 7 * 16 + 6
  {
    hide UintPad;
  }
}
