/** Numbers as the core sees them: an IEEE-754 double reduced to what the core
    observes of it, Rust's saturating `as i64` cast, and decimal printing of
    integers (`usize`/`i64` Display). Parsing and printing a double are
    collaborators (`NumberSyntax`), so the model is generic over them. A few
    lemmas assume facts about the chosen pair and state them as `requires`:
    the parser accepts every printed integer, the printer never writes a
    line break, and the printer writes plain CSV fields. */
module Numbers {
  import opened Wrappers

  /** A double: a finite value, an infinity, or NaN. */
  datatype F64 = Finite(r: real) | PosInf | NegInf | NaN

  /** `str::parse::<f64>` and `f64`'s Display, left abstract. */
  datatype NumberSyntax = NumberSyntax(parse: string -> Option<F64>, show: F64 -> string)

  /** "parses as f64". */
  predicate IsNum(ns: NumberSyntax, s: string)
  {
    ns.parse(s).Some?
  }

  const I64Min: int := -0x8000_0000_0000_0000
  const I64Max: int := 0x7FFF_FFFF_FFFF_FFFF

  /** Truncation toward zero. */
  function TruncateReal(x: real): (r: int)
    ensures 0.0 <= x ==> r as real <= x < r as real + 1.0
    ensures x < 0.0 ==> r as real - 1.0 < x <= r as real
  {
    if x >= 0.0 then x.Floor else -((-x).Floor)
  }

  /** `x as i64`: truncates toward zero, saturates at the bounds, NaN is 0. */
  function AsI64(x: F64): (r: int)
    ensures I64Min <= r <= I64Max
    ensures x.NaN? ==> r == 0
    ensures x.PosInf? ==> r == I64Max
    ensures x.NegInf? ==> r == I64Min
    ensures x.Finite? && I64Min as real <= x.r < (I64Max + 1) as real ==> r == TruncateReal(x.r)
    ensures x.Finite? && x.r >= (I64Max + 1) as real ==> r == I64Max
    ensures x.Finite? && x.r < I64Min as real ==> r == I64Min
  {
    match x
    case NaN => 0
    case PosInf => I64Max
    case NegInf => I64Min
    case Finite(v) =>
      var t := TruncateReal(v);
      if t < I64Min then I64Min else if t > I64Max then I64Max else t
  }

  function DigitChar(d: nat): (c: char)
    requires d < 10
  {
    "0123456789"[d]
  }

  predicate IsDigit(c: char)
  {
    '0' <= c <= '9'
  }

  function DigitValue(c: char): nat
    requires IsDigit(c)
  {
    (c as int - '0' as int) as nat
  }

  /** Decimal digits of `n`, most significant first, no leading zero. */
  function NatToDecimal(n: nat): (s: string)
    ensures s != []
    ensures forall i :: 0 <= i < |s| ==> IsDigit(s[i])
    ensures s[0] == '0' ==> n == 0
  {
    if n < 10 then [DigitChar(n)] else NatToDecimal(n / 10) + [DigitChar(n % 10)]
  }

  /** Display of a signed integer. */
  function IntToDecimal(i: int): (s: string)
    ensures s != [] && (s[0] == '-' <==> i < 0)
    ensures IsDigit(s[|s| - 1]) && ' ' !in s && '\n' !in s
  {
    if i < 0 then "-" + NatToDecimal(-i) else NatToDecimal(i)
  }

  /** Value of a string of digits. */
  function DigitsValue(s: string): nat
    requires forall i :: 0 <= i < |s| ==> IsDigit(s[i])
  {
    if s == [] then 0 else DigitsValue(s[..|s| - 1]) * 10 + DigitValue(s[|s| - 1])
  }

  /** An optionally signed decimal integer, as `str::parse::<i64>` reads one
      (a leading '-' or '+', then at least one digit), without the range
      check. */
  function ParseInt(s: string): Option<int>
  {
    if s != [] && (s[0] == '-' || s[0] == '+') then
      if |s| > 1 && forall i :: 1 <= i < |s| ==> IsDigit(s[i]) then
        var v := DigitsValue(s[1..]) as int;
        Some(if s[0] == '-' then -v else v)
      else None
    else if s != [] && forall i :: 0 <= i < |s| ==> IsDigit(s[i]) then Some(DigitsValue(s))
    else None
  }

  lemma {:induction false} DigitsOfNat(n: nat)
    ensures DigitsValue(NatToDecimal(n)) == n
  {
    if n >= 10 {
      DigitsOfNat(n / 10);
      var s := NatToDecimal(n);
      assert s[..|s| - 1] == NatToDecimal(n / 10);
    }
  }

  /** Printing an integer and reading it back gives the integer. */
  lemma IntDecimalRoundTrip(i: int)
    ensures ParseInt(IntToDecimal(i)) == Some(i)
  {
    if i < 0 {
      var d := NatToDecimal(-i);
      DigitsOfNat(-i);
      ParseNegative(d);
      assert IntToDecimal(i) == "-" + d;
    } else {
      var d := NatToDecimal(i);
      DigitsOfNat(i);
      ParseDigits(d);
      assert IntToDecimal(i) == d;
    }
  }

  /** A minus sign followed by digits reads as the negated digits. */
  lemma ParseNegative(d: string)
    requires d != [] && forall k :: 0 <= k < |d| ==> IsDigit(d[k])
    ensures ParseInt("-" + d) == Some(-(DigitsValue(d) as int))
  {
    var s := "-" + d;
    assert s[1..] == d;
    forall k | 1 <= k < |s|
      ensures IsDigit(s[k])
    {
      assert s[k] == d[k - 1];
    }
  }

  /** Digits alone read as their value. */
  lemma ParseDigits(d: string)
    requires d != [] && forall k :: 0 <= k < |d| ==> IsDigit(d[k])
    ensures ParseInt(d) == Some(DigitsValue(d))
  {
    assert IsDigit(d[0]);
  }

  /** Distinct integers print differently. */
  lemma IntDecimalInjective(i: int, j: int)
    requires IntToDecimal(i) == IntToDecimal(j)
    ensures i == j
  {
    IntDecimalRoundTrip(i);
    IntDecimalRoundTrip(j);
  }
}
