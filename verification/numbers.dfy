/** Integer and decimal arithmetic as Python performs it on the values the program handles. */
module Numbers {

  /** Python's `int(x)` on a float: truncation toward zero (not floor). */
  function Trunc(x: real): (r: int)
    ensures 0.0 <= x ==> r as real <= x < r as real + 1.0
    ensures x < 0.0 ==> r as real - 1.0 < x <= r as real
  {
    if x >= 0.0 then x.Floor else -((-x).Floor)
  }

  /** `int(a / b)` for non-negative integers is integer division. */
  lemma TruncOfQuotient(a: nat, b: nat)
    requires b > 0
    ensures Trunc(a as real / b as real) == a / b
  {
    var q := a / b;
    var m := a % b;
    assert a == b * q + m;
    assert a as real == b as real * q as real + m as real;
    assert a as real / b as real == q as real + m as real / b as real;
    FractionBelowOne(m, b);
  }

  /** Number of elements of Python's `range(n)`. */
  function RangeLength(n: int): (r: nat)
    ensures n >= 0 ==> r == n
    ensures n < 0 ==> r == 0
  {
    if n < 0 then 0 else n
  }

  function Pow10(n: nat): (r: nat)
    ensures r >= 1
  {
    if n == 0 then 1 else 10 * Pow10(n - 1)
  }

  predicate IsDigit(c: char) {
    '0' <= c <= '9'
  }

  predicate AllDigits(s: string) {
    forall i :: 0 <= i < |s| ==> IsDigit(s[i])
  }

  function DigitValue(c: char): nat
    requires IsDigit(c)
  {
    (c as int - '0' as int) as nat
  }

  function DigitChar(d: nat): (c: char)
    requires d < 10
    ensures IsDigit(c) && DigitValue(c) == d
  {
    ('0' as int + d) as char
  }

  /** Python's `int(s)` on a string of decimal digits (leading zeros allowed). */
  function DigitsValue(s: string): (v: nat)
    requires AllDigits(s)
    ensures v < Pow10(|s|)
  {
    if |s| == 0 then 0 else DigitsValue(s[..|s| - 1]) * 10 + DigitValue(s[|s| - 1])
  }

  /** Python's `float(ip + "." + fp)`, computed exactly. */
  function DecimalValue(ip: string, fp: string): (v: real)
    requires AllDigits(ip) && AllDigits(fp)
    ensures DigitsValue(ip) as real <= v < DigitsValue(ip) as real + 1.0
  {
    FractionBelowOne(DigitsValue(fp), Pow10(|fp|));
    DigitsValue(ip) as real + DigitsValue(fp) as real / Pow10(|fp|) as real
  }

  lemma AllDigitsConcat(a: string, b: string)
    requires AllDigits(a) && AllDigits(b)
    ensures AllDigits(a + b)
  {
    forall i | 0 <= i < |a + b|
      ensures IsDigit((a + b)[i])
    {
      if i < |a| {
        assert (a + b)[i] == a[i];
      } else {
        assert (a + b)[i] == b[i - |a|];
      }
    }
  }

  /** Reading `a + b` as one number: the digits of `a` shifted left by `|b|` places, plus `b`. */
  lemma {:induction false} DigitsValueAppend(a: string, b: string)
    requires AllDigits(a) && AllDigits(b)
    ensures AllDigits(a + b)
    ensures DigitsValue(a + b) == DigitsValue(a) * Pow10(|b|) + DigitsValue(b)
  {
    AllDigitsConcat(a, b);
    if |b| == 0 {
      assert a + b == a;
    } else {
      var front := b[..|b| - 1];
      assert AllDigits(front);
      assert (a + b)[..|a + b| - 1] == a + front;
      assert (a + b)[|a + b| - 1] == b[|b| - 1];
      DigitsValueAppend(a, front);
      ShiftStep(DigitsValue(a), Pow10(|front|), DigitsValue(front), DigitValue(b[|b| - 1]));
    }
  }

  lemma ShiftStep(x: int, p: int, y: int, d: int)
    ensures (x * p + y) * 10 + d == x * (10 * p) + (y * 10 + d)
  {
  }

  /**
   * `float(ip + "." + fp)` is the integer the digits `ip + fp` spell, divided by `10^len(fp)`:
   * the value is exact, not only bounded.
   */
  lemma DecimalValueExact(ip: string, fp: string)
    requires AllDigits(ip) && AllDigits(fp)
    ensures AllDigits(ip + fp)
    ensures DecimalValue(ip, fp) == DigitsValue(ip + fp) as real / Pow10(|fp|) as real
  {
    DigitsValueAppend(ip, fp);
    ShiftedQuotient(DigitsValue(ip), DigitsValue(fp), Pow10(|fp|));
  }

  lemma CastShift(n: nat, x: nat, p: nat, y: nat)
    requires n == x * p + y
    ensures n as real == x as real * p as real + y as real
  {
  }

  /** `w + n / p` as one quotient. */
  lemma ShiftedQuotient(w: nat, n: nat, p: nat)
    requires p > 0
    ensures w as real + n as real / p as real == (w * p + n) as real / p as real
  {
    CastShift(w * p + n, w, p, n);
  }

  lemma FractionBelowOne(a: nat, b: nat)
    requires a < b
    ensures 0.0 <= a as real / b as real < 1.0
  {
    assert a as real < b as real;
  }

  /** Python's `str(n)` for a non-negative int: shortest decimal rendering. */
  function NatToString(n: nat): (s: string)
    ensures |s| >= 1 && AllDigits(s)
    ensures |s| > 1 ==> s[0] != '0'
  {
    if n < 10 then [DigitChar(n)] else NatToString(n / 10) + [DigitChar(n % 10)]
  }

  /** Python's `str(i)` for an int. */
  function IntToString(i: int): (s: string)
    ensures |s| >= 1
    ensures forall k :: 0 <= k < |s| ==> s[k] != ' ' && s[k] != '"'
  {
    if i < 0 then "-" + NatToString(-i) else NatToString(i)
  }

  /** Reading back the rendering of a natural number yields that number. */
  lemma {:induction false} NatToStringRoundTrip(n: nat)
    ensures DigitsValue(NatToString(n)) == n
  {
    if n >= 10 {
      var s := NatToString(n);
      assert s[..|s| - 1] == NatToString(n / 10);
      NatToStringRoundTrip(n / 10);
    }
  }

  /** Text Python's `int()` reads as an integer: decimal digits, optionally after a minus sign. */
  predicate IsIntText(s: string) {
    || (|s| > 0 && AllDigits(s))
    || (|s| > 1 && s[0] == '-' && AllDigits(s[1..]))
  }

  /** Python's `int(s)` on such text. */
  function IntValue(s: string): int
    requires IsIntText(s)
  {
    if |s| > 0 && AllDigits(s) then DigitsValue(s) as int else -(DigitsValue(s[1..]) as int)
  }

  /** `int(str(i)) == i` for every integer. */
  lemma IntToStringRoundTrip(i: int)
    ensures IsIntText(IntToString(i)) && IntValue(IntToString(i)) == i
  {
    if i < 0 {
      var s := IntToString(i);
      assert s[1..] == NatToString(-i);
      assert !IsDigit(s[0]);
      NatToStringRoundTrip(-i);
    } else {
      NatToStringRoundTrip(i);
    }
  }
}
