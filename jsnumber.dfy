/**
 * JavaScript number operations the core relies on, over exact reals:
 * `Math.round`, the two-decimal rounding `Math.round(x * 100) / 100`,
 * `Number(string)` and `parseInt(string, 10)`.
 */
module JsNumber {
  import opened Text
  import opened Wrappers

  /** The result of a conversion: a finite value, an infinity, or NaN. */
  datatype Num = Finite(value: real) | PosInfinity | NegInfinity | NaN

  /** `Math.round`: the nearest integer, halves rounded up. */
  function Round(x: real): (r: int)
    ensures x - 0.5 < r as real <= x + 0.5
  {
    (x + 0.5).Floor
  }

  lemma RoundShift(x: real, n: int)
    ensures Round(x + n as real) == Round(x) + n
  {
    assert x + n as real + 0.5 == (x + 0.5) + n as real;
  }

  lemma RoundMonotone(x: real, y: real)
    requires x <= y
    ensures Round(x) <= Round(y)
  {
  }

  /** `Math.round(x * 100) / 100`: `x` to the nearest hundredth. */
  function Round2(x: real): (r: real)
    ensures x - 0.005 < r <= x + 0.005
  {
    Round(x * 100.0) as real / 100.0
  }

  /** A value already on the hundredths grid is left unchanged by `Round2`. */
  lemma RoundOfInt(n: int)
    ensures Round(n as real) == n
  {
  }

  lemma Round2OfHundredths(n: int)
    ensures Round2(n as real / 100.0) == n as real / 100.0
  {
    var x := n as real / 100.0;
    assert x * 100.0 == n as real;
    RoundOfInt(n);
  }

  lemma Round2Idempotent(x: real)
    ensures Round2(Round2(x)) == Round2(x)
  {
    Round2OfHundredths(Round(x * 100.0));
  }

  /** Rounding commutes with subtracting a whole number of hours. */
  lemma Round2ShiftWhole(x: real, n: int)
    ensures Round2(x - n as real) == Round2(x) - n as real
  {
    assert (x - n as real) * 100.0 == x * 100.0 + (-100 * n) as real;
    RoundShift(x * 100.0, -100 * n);
  }

  lemma Round2Monotone(x: real, y: real)
    requires x <= y
    ensures Round2(x) <= Round2(y)
  {
    RoundMonotone(x * 100.0, y * 100.0);
  }

  function DigitValue(c: char): (d: nat)
    requires IsDigit(c)
    ensures d < 10
  {
    c as int - '0' as int
  }

  /** The value of a string of decimal digits (most significant first). */
  function DecimalValue(ds: string): nat
    requires AllDigits(ds)
  {
    if ds == [] then 0 else DecimalValue(ds[..|ds| - 1]) * 10 + DigitValue(ds[|ds| - 1])
  }

  function Pow10(n: nat): (p: nat)
    ensures p >= 1
  {
    if n == 0 then 1 else 10 * Pow10(n - 1)
  }

  function Pow10Int(e: int): (p: real)
    ensures p > 0.0
  {
    if e >= 0 then Pow10(e) as real else 1.0 / Pow10(-e) as real
  }

  /** The value of one radix digit (0-9, a-z, A-Z), or `radix` itself when `c` is not a digit of that radix. */
  function RadixDigit(c: char, radix: nat): (d: nat)
    requires 2 <= radix <= 36
    ensures d <= radix
  {
    var v :=
      if '0' <= c <= '9' then c as int - '0' as int
      else if 'a' <= c <= 'z' then c as int - 'a' as int + 10
      else if 'A' <= c <= 'Z' then c as int - 'A' as int + 10
      else radix;
    if v < radix then v else radix
  }

  predicate AllRadixDigits(ds: string, radix: nat)
    requires 2 <= radix <= 36
  {
    forall i :: 0 <= i < |ds| ==> RadixDigit(ds[i], radix) < radix
  }

  lemma NonNegativeProduct(a: nat, b: nat)
    ensures a * b >= 0
  {
  }

  function RadixValue(ds: string, radix: nat): nat
    requires 2 <= radix <= 36 && AllRadixDigits(ds, radix)
  {
    if ds == [] then 0
    else
      var init := ds[..|ds| - 1];
      assert forall i :: 0 <= i < |init| ==> init[i] == ds[i];
      var v := RadixValue(init, radix);
      assert v * radix >= 0 by { NonNegativeProduct(v, radix); }
      v * radix + RadixDigit(ds[|ds| - 1], radix)
  }

  /** A signed exponent field (after `e`/`E`): the exponent, or None when malformed. */
  function ExponentValue(x: string): Option<int>
  {
    if x != [] && (x[0] == '+' || x[0] == '-') then
      if x[1..] != [] && AllDigits(x[1..]) then
        Some(if x[0] == '-' then -(DecimalValue(x[1..]) as int) else DecimalValue(x[1..]))
      else None
    else if x != [] && AllDigits(x) then Some(DecimalValue(x))
    else None
  }

  /** StrUnsignedDecimalLiteral: `Infinity`, or digits with an optional fraction and exponent. */
  function UnsignedDecimal(t: string): Num
  {
    if t == "Infinity" then PosInfinity
    else
      var e := if IndexOf(t, 'e') < IndexOf(t, 'E') then IndexOf(t, 'e') else IndexOf(t, 'E');
      var mant := t[..e];
      var exp := if e < |t| then ExponentValue(t[e + 1..]) else Some(0);
      var d := IndexOf(mant, '.');
      var whole := mant[..d];
      var frac := if d < |mant| then mant[d + 1..] else [];
      if exp.Some? && AllDigits(whole) && AllDigits(frac) && |whole| + |frac| > 0 then
        var m := DecimalValue(whole) as real + DecimalValue(frac) as real / Pow10(|frac|) as real;
        Finite(m * Pow10Int(exp.value))
      else NaN
  }

  function RadixLiteral(ds: string, radix: nat): Num
    requires 2 <= radix <= 36
  {
    if ds != [] && AllRadixDigits(ds, radix) then Finite(RadixValue(ds, radix) as real) else NaN
  }

  function Negate(n: Num): Num {
    match n
    case Finite(v) => Finite(-v)
    case PosInfinity => NegInfinity
    case NegInfinity => PosInfinity
    case NaN => NaN
  }

  /**
   * `Number(s)` for a string `s` (StringToNumber): surrounding whitespace is
   * ignored, the empty string is 0, `0x`/`0o`/`0b` prefixes select a radix
   * (unsigned only), otherwise an optionally signed decimal literal; anything else is NaN.
   */
  function StringToNumber(s: string): Num
  {
    var t := Trim(s);
    if t == [] then Finite(0.0)
    else if |t| >= 2 && t[0] == '0' && (t[1] == 'x' || t[1] == 'X') then RadixLiteral(t[2..], 16)
    else if |t| >= 2 && t[0] == '0' && (t[1] == 'o' || t[1] == 'O') then RadixLiteral(t[2..], 8)
    else if |t| >= 2 && t[0] == '0' && (t[1] == 'b' || t[1] == 'B') then RadixLiteral(t[2..], 2)
    else if t[0] == '+' then UnsignedDecimal(t[1..])
    else if t[0] == '-' then Negate(UnsignedDecimal(t[1..]))
    else UnsignedDecimal(t)
  }

  /** The longest prefix of `s` made of decimal digits. */
  function DigitPrefix(s: string): (p: string)
    ensures |p| <= |s| && p == s[..|p|] && AllDigits(p)
    ensures |p| < |s| ==> !IsDigit(s[|p|])
  {
    if s == [] || !IsDigit(s[0]) then []
    else
      var p := DigitPrefix(s[1..]);
      assert [s[0]] + p == s[..|p| + 1];
      [s[0]] + p
  }

  /**
   * `parseInt(s, 10)`: leading whitespace skipped, an optional sign, then the
   * longest run of decimal digits; None (NaN) when that run is empty.
   */
  function ParseInt10(s: string): (r: Option<int>)
  {
    var t := TrimStart(s);
    var neg := t != [] && t[0] == '-';
    var body := if t != [] && (t[0] == '-' || t[0] == '+') then t[1..] else t;
    var ds := DigitPrefix(body);
    if ds == [] then None
    else Some(if neg then -(DecimalValue(ds) as int) else DecimalValue(ds))
  }

  /** The decimal numeral of `n`, as `String(n)` writes it. */
  function NatToString(n: nat): (s: string)
    ensures s != [] && AllDigits(s)
    ensures n > 0 ==> s[0] != '0'
  {
    if n < 10 then [('0' as int + n) as char]
    else NatToString(n / 10) + [('0' as int + n % 10) as char]
  }

  lemma {:induction false} DecimalValueOfNatToString(n: nat)
    ensures DecimalValue(NatToString(n)) == n
  {
    var s := NatToString(n);
    if n >= 10 {
      DecimalValueOfNatToString(n / 10);
      assert s[..|s| - 1] == NatToString(n / 10);
    }
  }

  /** `Number` reads back every numeral `String` writes for a natural number. */
  lemma StringToNumberOfNatToString(n: nat)
    ensures StringToNumber(NatToString(n)) == Finite(n as real)
  {
    DecimalValueOfNatToString(n);
    StringToNumberOfDigits(NatToString(n));
  }

  lemma StringToNumberOfDigits(s: string)
    requires s != [] && AllDigits(s)
    ensures StringToNumber(s) == Finite(DecimalValue(s) as real)
  {
    assert IsDigit(s[0]) && IsDigit(s[|s| - 1]);
    TrimOfTrimmed(s);
    DecimalBranch(s);
    UnsignedDecimalOfDigits(s);
  }

  /** A trimmed string starting with two digits takes the plain decimal branch of `Number`. */
  lemma DecimalBranch(s: string)
    requires s != [] && Trim(s) == s && IsDigit(s[0]) && (|s| >= 2 ==> IsDigit(s[1]))
    ensures StringToNumber(s) == UnsignedDecimal(s)
  {
    assert Trim(s) != [];
    assert s[0] != '+' && s[0] != '-';
    if |s| >= 2 {
      assert s[1] !in "xXoObB";
    }
  }

  /** A plain run of digits is read as its decimal value. */
  lemma UnsignedDecimalOfDigits(s: string)
    requires s != [] && AllDigits(s)
    ensures UnsignedDecimal(s) == Finite(DecimalValue(s) as real)
  {
    NoLetterInDigits(s, 'e');
    NoLetterInDigits(s, 'E');
    NoLetterInDigits(s, '.');
    assert s[..|s|] == s;
    assert Pow10Int(0) == 1.0;
  }

  lemma NoLetterInDigits(s: string, c: char)
    requires AllDigits(s) && !IsDigit(c)
    ensures IndexOf(s, c) == |s|
  {
  }

  /** `parseInt` reads back every numeral `String` writes for a natural number, and ignores what follows it. */
  lemma ParseInt10OfNatToString(n: nat, tail: string)
    requires tail == [] || !IsDigit(tail[0])
    ensures ParseInt10(NatToString(n) + tail) == Some(n)
  {
    var s := NatToString(n);
    assert !IsWhitespace(s[0]);
    assert TrimStart(s + tail) == s + tail;
    DigitPrefixOfDigits(s, tail);
    DecimalValueOfNatToString(n);
  }

  lemma {:induction false} DigitPrefixOfDigits(s: string, tail: string)
    requires AllDigits(s) && (tail == [] || !IsDigit(tail[0]))
    ensures DigitPrefix(s + tail) == s
  {
    if s != [] {
      assert (s + tail)[1..] == s[1..] + tail;
      DigitPrefixOfDigits(s[1..], tail);
    } else {
      assert s + tail == tail;
    }
  }

  /** The value of a two-digit numeral. */
  lemma DecimalValue2(ds: string)
    requires |ds| == 2 && AllDigits(ds)
    ensures DecimalValue(ds) == DigitValue(ds[0]) * 10 + DigitValue(ds[1])
  {
    assert ds[..1] == [ds[0]] && ds[..1][..0] == [];
    assert DecimalValue(ds[..1]) == DigitValue(ds[0]);
  }

  /** The value of a four-digit numeral. */
  lemma DecimalValue4(ds: string)
    requires |ds| == 4 && AllDigits(ds)
    ensures DecimalValue(ds) == DigitValue(ds[0]) * 1000 + DigitValue(ds[1]) * 100 + DigitValue(ds[2]) * 10 + DigitValue(ds[3])
  {
    var t := ds[..3];
    assert t[..2] == ds[..2];
    DecimalValue2(ds[..2]);
  }
}
