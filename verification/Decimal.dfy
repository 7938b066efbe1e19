/** Decimal text of unsigned numbers, as the appender and `snprintf` write it and as
  * `sscanf` and `atoi` read it. */
module Decimal {

  predicate IsDigit(c: char) {
    '0' <= c <= '9'
  }

  predicate AllDigits(s: string) {
    forall i :: 0 <= i < |s| ==> IsDigit(s[i])
  }

  function DigitChar(d: nat): (c: char)
    requires d < 10
    ensures IsDigit(c) && DigitValue(c) == d
  {
    ('0' as int + d) as char
  }

  function DigitValue(c: char): nat
    requires IsDigit(c)
  {
    c as int - '0' as int
  }

  /** Decimal digits of `n`, none for 0. */
  function Digits(n: nat): (s: string)
    ensures AllDigits(s)
    ensures n > 0 ==> |s| > 0
  {
    if n == 0 then "" else Digits(n / 10) + [DigitChar(n % 10)]
  }

  /** Decimal text of `n`. */
  function Dec(n: nat): (s: string)
    ensures |s| > 0 && AllDigits(s)
  {
    if n == 0 then "0" else Digits(n)
  }

  function Zeros(n: int): (s: string)
    ensures |s| == if n < 0 then 0 else n
    ensures AllDigits(s)
  {
    if n <= 0 then "" else ['0'] + Zeros(n - 1)
  }

  /** `%0<width>d` of a non-negative number. */
  function Pad(n: nat, width: nat): (s: string)
    ensures |s| > 0 && |s| >= width && AllDigits(s)
  {
    Zeros(width - |Dec(n)|) + Dec(n)
  }

  /** The number a string of digits stands for. */
  function ValueOf(s: string): nat
    requires AllDigits(s)
  {
    if s == "" then 0 else ValueOf(s[..|s| - 1]) * 10 + DigitValue(s[|s| - 1])
  }

  lemma {:induction false} ValueOfDigits(n: nat)
    ensures ValueOf(Digits(n)) == n
  {
    if n > 0 {
      ValueOfDigits(n / 10);
      var s := Digits(n);
      assert s[..|s| - 1] == Digits(n / 10);
    }
  }

  lemma ValueOfDec(n: nat)
    ensures ValueOf(Dec(n)) == n
  {
    ValueOfDigits(n);
    if n == 0 {
      assert "0"[..0] == "";
    }
  }

  lemma {:induction false} ValueOfZeros(n: int, s: string)
    requires AllDigits(s)
    ensures ValueOf(Zeros(n) + s) == ValueOf(s)
    decreases |s|, if n < 0 then 0 else n
  {
    if |s| > 0 {
      var t := Zeros(n) + s;
      assert t[..|t| - 1] == Zeros(n) + s[..|s| - 1];
      ValueOfZeros(n, s[..|s| - 1]);
    } else if n > 0 {
      ZerosShift(n);
      ValueOfZeros(n - 1, "");
      assert Zeros(n - 1) + "" == Zeros(n - 1);
      var t := Zeros(n) + s;
      assert t == Zeros(n - 1) + ['0'];
      assert t[..|t| - 1] == Zeros(n - 1);
    } else {
      assert Zeros(n) + s == s;
    }
  }

  lemma {:induction false} ZerosShift(n: int)
    requires n > 0
    ensures Zeros(n) == Zeros(n - 1) + ['0']
  {
    if n > 1 {
      ZerosShift(n - 1);
    }
  }

  lemma ValueOfPad(n: nat, width: nat)
    ensures ValueOf(Pad(n, width)) == n
  {
    hide Zeros, Dec, ValueOf;
    ValueOfZeros(width - |Dec(n)|, Dec(n));
    ValueOfDec(n);
  }

  function Pow10(k: nat): (p: nat)
    ensures p >= 1
  {
    if k == 0 then 1 else 10 * Pow10(k - 1)
  }

  /** A number below 10^k has at most k digits. */
  lemma {:induction false} DigitsLength(n: nat, k: nat)
    requires n < Pow10(k)
    ensures |Digits(n)| <= k
  {
    if n > 0 {
      DigitsLength(n / 10, k - 1);
    }
  }

  /** Padding to `width` gives exactly `width` characters to a number that fits. */
  lemma PadLength(n: nat, width: nat)
    requires width > 0 && n < Pow10(width)
    ensures |Pad(n, width)| == width
  {
    DigitsLength(n, width);
  }

  lemma {:induction false} ULongDigits(n: nat)
    requires n < 0x1_0000_0000_0000_0000
    ensures |Digits(n)| <= 20
  {
    assert Pow10(5) == 100000;
    assert Pow10(10) == 10000000000;
    assert Pow10(15) == 1000000000000000;
    assert Pow10(20) == 100000000000000000000;
    DigitsLength(n, 20);
  }

  /** Decimal place value: what stands in front of `t` counts ten to the length of `t`. */
  lemma {:induction false} PlaceValue(s: string, t: string)
    requires AllDigits(s) && AllDigits(t)
    ensures AllDigits(s + t) && ValueOf(s + t) == ValueOf(s) * Pow10(|t|) + ValueOf(t)
  {
    if t == "" {
      assert s + t == s;
    } else {
      var n := |t| - 1;
      assert (s + t)[..|s + t| - 1] == s + t[..n];
      PlaceValue(s, t[..n]);
      TimesTen(ValueOf(s), Pow10(n), ValueOf(t[..n]));
    }
  }

  lemma TimesTen(a: nat, p: nat, b: nat)
    ensures (a * p + b) * 10 == a * (10 * p) + b * 10
  {
  }

  /** No leading zero, as JSON demands of its numbers. */
  lemma {:induction false} DecHasNoLeadingZero(n: nat)
    ensures Dec(n) == "0" || Dec(n)[0] != '0'
  {
    if n >= 10 {
      DecHasNoLeadingZero(n / 10);
    } else if n > 0 {
      assert Digits(n / 10) == "";
    }
  }

  /** Length of the longest prefix of digits. */
  function DigitRun(s: string): (n: nat)
    ensures n <= |s| && AllDigits(s[..n])
  {
    if s != "" && IsDigit(s[0]) then 1 + DigitRun(s[1..]) else 0
  }

  lemma {:induction false} DigitRunOf(d: string, rest: string)
    requires AllDigits(d) && (rest == "" || !IsDigit(rest[0]))
    ensures DigitRun(d + rest) == |d|
  {
    if d != "" {
      assert (d + rest)[1..] == d[1..] + rest;
      DigitRunOf(d[1..], rest);
    } else {
      assert d + rest == rest;
    }
  }
}
