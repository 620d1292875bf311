/**
 * Deterministic number formatting for XML attribute values
 * (xml.serializer.format.ts): quantisation onto an eps grid, snapping of
 * near-zero values, the choice of the number of decimals and the trimming
 * of trailing zeros, stated over exact rationals.
 */
module XmlFormat {
  import opened Wrappers
  import opened JsRuntime

  /** IXmlSerializerNumberOptions; `perAttributeEps` is declared there but never read. */
  datatype NumberOptions = NumberOptions(
    eps: Double,
    maxDecimalsCap: Option<Double>,
    trimTrailingZeros: Option<bool>,
    fixedDecimals: Option<Double>,
    allowScientific: Option<bool>,
    snapNearZero: Option<bool>,
    zeroThreshold: Option<Double>)

  /** IXmlSerializerFormatOptions. */
  datatype FormatOptions = FormatOptions(number: Option<NumberOptions>)

  /** The eps a serializer uses when its caller gives no number options. */
  const DefaultEps: real := 0.000001

  // ---------------------------------------------------------------------
  // _ClampInt

  /** `_ClampInt(n, min, max)`: `min` for a non-finite n, otherwise trunc(n) clamped into [min, max]. */
  function ClampInt(n: Double, lo: int, hi: int): (r: int)
    requires lo <= hi
    ensures lo <= r <= hi
    ensures !n.Finite? ==> r == lo
    ensures n.Finite? && lo <= Trunc(n.v) <= hi ==> r == Trunc(n.v)
    ensures n.Finite? && Trunc(n.v) < lo ==> r == lo
    ensures n.Finite? && hi < Trunc(n.v) ==> r == hi
  {
    if !n.Finite? then lo
    else
      var t := Trunc(n.v);
      if t < lo then lo else if t > hi then hi else t
  }

  // ---------------------------------------------------------------------
  // The number of decimals

  /** 10^-k as a rational. */
  function Tenth(k: nat): (r: real)
    ensures r > 0.0
  {
    1.0 / Pow10(k) as real
  }

  /** The first k in [k0, cap] with 10^-k <= eps, or cap if there is none. */
  function EpsDecimalsFrom(eps: real, k: nat, cap: nat): (d: nat)
    requires eps > 0.0 && k <= cap
    ensures k <= d <= cap
    ensures d < cap ==> Tenth(d) <= eps
    ensures forall j :: k <= j < d ==> eps < Tenth(j)
    decreases cap - k
  {
    if k == cap || Tenth(k) <= eps then k else EpsDecimalsFrom(eps, k + 1, cap)
  }

  /**
   * `_ClampInt(Math.ceil(-Math.log10(eps)), 0, cap)` without logarithms:
   * ceil(-log10 eps) is the least integer k with 10^-k <= eps.
   */
  function EpsDecimals(eps: real, cap: nat): (d: nat)
    requires eps > 0.0
    ensures d <= cap
    ensures d < cap ==> Tenth(d) <= eps
    ensures d > 0 ==> eps < Tenth(d - 1)
  {
    EpsDecimalsFrom(eps, 0, cap)
  }

  // ---------------------------------------------------------------------
  // Number.prototype.toFixed and String(n) on exact values

  function Zeros(n: nat): (s: string)
    ensures |s| == n && AllDigits(s)
    ensures forall i :: 0 <= i < n ==> s[i] == '0'
  {
    if n == 0 then "" else "0" + Zeros(n - 1)
  }

  /** Decimal digits of n, left-padded with zeros to at least `width` digits. */
  function PaddedDigits(n: nat, width: nat): (s: string)
    ensures AllDigits(s) && |s| >= width && |s| >= 1
  {
    var m := NatToString(n);
    if |m| < width then Zeros(width - |m|) + m else m
  }

  /** The digits of a non-negative integer in exponent form ("1e+21", "1.5e+22"), as Number::toString writes values >= 1e21. */
  function ExponentText(n: nat): (s: string)
    ensures ContainsChar(s, 'e')
  {
    var m := NatToString(n);
    ExponentForm(m[0], TrimEnd0(m[1..]), |m| - 1)
  }

  /** A lead digit, the fraction digits (point omitted when there are none), then "e+" and the exponent. */
  function ExponentForm(lead: char, rest: string, e: nat): (s: string)
    ensures ContainsChar(s, 'e')
  {
    var s := [lead] + (if rest == "" then "" else "." + rest) + "e+" + NatToString(e);
    assert s[|s| - |NatToString(e)| - 2] == 'e';
    s
  }

  /** The string without its trailing '0' characters. */
  function TrimEnd0(s: string): (r: string)
    ensures |r| <= |s| && r == s[..|r|]
    ensures r == [] || r[|r| - 1] != '0'
    ensures forall i :: |r| <= i < |s| ==> s[i] == '0'
  {
    if s != [] && s[|s| - 1] == '0' then TrimEnd0(s[..|s| - 1]) else s
  }

  const Exp21: nat := Pow10(21)

  /** String(i) for an integral value i: plain digits below 1e21, exponent form from 1e21 on. */
  function IntegerText(i: int): string
    decreases if i < 0 then 1 else 0
  {
    if i < 0 then "-" + IntegerText(-i)
    else if i < Exp21 then NatToString(i)
    else ExponentText(i)
  }

  /** The integer toFixed(f) rounds |x| to: the nearer of two neighbours, the larger on a tie. */
  function FixedUnits(x: real, f: nat): nat
    requires x >= 0.0
  {
    (x * Pow10(f) as real + 0.5).Floor
  }

  /** The integer and fractional digits toFixed(f) writes for 0 <= x < 1e21. */
  function FixedParts(x: real, f: nat): (p: (string, string))
    requires f >= 1 && 0.0 <= x
    ensures |p.0| >= 1 && |p.1| == f && AllDigits(p.0) && AllDigits(p.1)
  {
    var m := PaddedDigits(FixedUnits(x, f), f + 1);
    (m[..|m| - f], m[|m| - f..])
  }

  /** `x.toFixed(f)` for f >= 1 on an exact value. */
  function FixedText(x: real, f: nat): (s: string)
    requires f >= 1
    decreases if x < 0.0 then 1 else 0
  {
    if x < 0.0 then "-" + FixedText(-x, f)
    else if x >= Exp21 as real then ExponentText(x.Floor)
    else
      var p := FixedParts(x, f);
      p.0 + "." + p.1
  }

  // ---------------------------------------------------------------------
  // The three trimming regular expressions

  function TrailingZeros(s: string): (z: nat)
    ensures z <= |s|
  {
    if s != [] && s[|s| - 1] == '0' then 1 + TrailingZeros(s[..|s| - 1]) else 0
  }

  /** The index of the last character that is not a decimal digit, or -1. */
  function LastNonDigit(s: string): (p: int)
    ensures -1 <= p < |s|
  {
    if s == [] then -1 else if !IsDigit(s[|s| - 1]) then |s| - 1 else LastNonDigit(s[..|s| - 1])
  }

  /** `s.replace(/(\.\d*?[1-9])0+$/, "$1")`: drops the zeros after the last non-zero fractional digit. */
  function DropZerosAfterNonZero(s: string): string {
    var z := TrailingZeros(s);
    var p := LastNonDigit(s);
    if z > 0 && p >= 0 && s[p] == '.' && p + 1 < |s| - z then s[..|s| - z] else s
  }

  /** `s.replace(/\.0+$/, "")`: drops a fraction made only of zeros, with its point. */
  function DropZeroFraction(s: string): string {
    var z := TrailingZeros(s);
    if z > 0 && z < |s| && s[|s| - z - 1] == '.' then s[..|s| - z - 1] else s
  }

  /** `s.replace(/\.$/, "")`. */
  function DropTrailingPoint(s: string): string {
    if s != [] && s[|s| - 1] == '.' then s[..|s| - 1] else s
  }

  function TrimFraction(s: string): string {
    DropTrailingPoint(DropZeroFraction(DropZerosAfterNonZero(s)))
  }

  predicate HasExponent(s: string) {
    ContainsChar(s, 'e') || ContainsChar(s, 'E')
  }

  // ---------------------------------------------------------------------
  // FormatNumberXml

  /** `Math.abs(q) <= t` where t may be any JavaScript number. */
  predicate AtMost(a: real, t: Double) {
    match t
    case Finite(v) => a <= v
    case PosInf => true
    case NegInf => false
    case NaN => false
  }

  function Abs(x: real): real { if x < 0.0 then -x else x }

  /** `Math.round(x * inv) / inv` with inv = 1 / eps. */
  function Quantize(x: real, eps: real): real
    requires eps > 0.0
  {
    var inv := 1.0 / eps;
    Round(x * inv) as real / inv
  }

  /** The value after quantisation and snapping. */
  function Snapped(x: real, o: NumberOptions): real
    requires o.eps.Finite? && o.eps.v > 0.0
  {
    var q := Quantize(x, o.eps.v);
    var threshold := o.zeroThreshold.GetOr(o.eps);
    if o.snapNearZero.GetOr(true) && AtMost(Abs(q), threshold) then 0.0 else q
  }

  /** The number of decimals: fixedDecimals clamped to [0, cap] when given, otherwise the decimals of eps. */
  function Decimals(o: NumberOptions): (d: nat)
    requires o.eps.Finite? && o.eps.v > 0.0
    ensures d <= 20
  {
    var cap := ClampInt(o.maxDecimalsCap.GetOr(Finite(15.0)), 0, 20);
    if o.fixedDecimals.Some? then ClampInt(o.fixedDecimals.value, 0, cap)
    else EpsDecimals(o.eps.v, cap)
  }

  /** The text of q with `Decimals(o)` decimals: String(trunc(q)) for none, toFixed otherwise, trimmed unless fixed decimals are asked for. */
  function Render(q: real, o: NumberOptions): string
    requires o.eps.Finite? && o.eps.v > 0.0
  {
    var decimals := Decimals(o);
    if decimals == 0 then IntegerText(Trunc(q))
    else
      var fixed := FixedText(q, decimals);
      if o.trimTrailingZeros.GetOr(true) && o.fixedDecimals.None? then TrimFraction(fixed) else fixed
  }

  /** FormatNumberXml exactly as written. */
  function FormatNumberXml(x: Double, o: NumberOptions): (r: Result<string>)
    ensures !x.Finite? ==> r.Err?
    ensures !(o.eps.Finite? && o.eps.v > 0.0) ==> r.Err?
    ensures r.Ok? && Decimals(o) > 0 ==> !HasExponent(r.value)
  {
    if !x.Finite? then Err("Cannot format non-finite number")
    else if !(o.eps.Finite? && o.eps.v > 0.0) then Err("opts.eps must be a finite, positive number")
    else
      var s := Render(Snapped(x.v, o), o);
      if Decimals(o) == 0 then Ok(s)
      else if HasExponent(s) then Err("Scientific notation not allowed in XML output") else Ok(s)
  }

  /** The value the intended formatter prints: the snapped value, or zero when it rounds to zero at the chosen decimals. */
  function IntendedValue(x: real, o: NumberOptions): real
    requires o.eps.Finite? && o.eps.v > 0.0
  {
    DropSubUnit(Snapped(x, o), Decimals(o))
  }

  /** Zero for a value that toFixed(d) rounds to zero, otherwise the value itself. */
  function DropSubUnit(q: real, d: nat): (r: real)
    ensures r == 0.0 || r == q
    ensures r != 0.0 ==> FixedUnits(Abs(r), d) >= 1
  {
    if FixedUnits(Abs(q), d) == 0 then 0.0 else q
  }

  /**
   * The formatter's evident intent: no exponent in any output (the guard now
   * also covers the zero-decimals path) and no negative zero ("-0", "-0.00")
   * for a value that rounds to zero at the chosen number of decimals.
   */
  function FormatNumberXmlIntended(x: Double, o: NumberOptions): (r: Result<string>)
    ensures !x.Finite? ==> r.Err?
    ensures !(o.eps.Finite? && o.eps.v > 0.0) ==> r.Err?
    ensures r.Ok? ==> !HasExponent(r.value)
  {
    if !x.Finite? then Err("Cannot format non-finite number")
    else if !(o.eps.Finite? && o.eps.v > 0.0) then Err("opts.eps must be a finite, positive number")
    else
      var s := Render(IntendedValue(x.v, o), o);
      if HasExponent(s) then Err("Scientific notation not allowed in XML output") else Ok(s)
  }

  /** The options a serializer resolves when its caller gives none: eps 1e-6 and every other field at its default. */
  const DefaultNumberOptions := NumberOptions(Finite(DefaultEps), None, None, None, None, None, None)

  /**
   * NumberFormatter.toString: the intended formatter under the resolved
   * options. Under the default options it is the formatter as written
   * (FormatNumberDefaults).
   */
  function FormatNumber(x: Double, f: FormatOptions): (r: Result<string>)
    ensures !x.Finite? ==> r.Err?
    ensures r.Ok? ==> !HasExponent(r.value)
  {
    FormatNumberXmlIntended(x, f.number.GetOr(DefaultNumberOptions))
  }

  /** A non-zero value on the eps grid is at least eps away from zero. */
  lemma QuantizedAtLeastEps(x: real, eps: real)
    requires eps > 0.0
    ensures Quantize(x, eps) != 0.0 ==> Abs(Quantize(x, eps)) >= eps
  {
    var n := Round(x * (1.0 / eps));
    assert Quantize(x, eps) == n as real * eps;
    if n > 0 {
      assert n as real * eps >= 1.0 * eps;
    } else if n < 0 {
      assert Abs(n as real * eps) == (-n) as real * eps >= 1.0 * eps;
    }
  }

  /** A value of at least 10^-d keeps at least one unit at d decimals. */
  lemma UnitAtLeast(a: real, d: nat)
    requires a >= Tenth(d)
    ensures FixedUnits(a, d) >= 1
  {
    var p := Pow10(d) as real;
    assert Tenth(d) * p == 1.0;
    assert a * p >= 1.0 by {
      assert (a - Tenth(d)) * p >= 0.0;
    }
    var y := a * p + 0.5;
    assert y >= 1.5;
  }

  /**
   * The two formatters agree whenever the decimals are at least one and
   * fine enough for the eps grid (10^-decimals <= eps, as the decimals of
   * eps are below the cap): then no value reaches the zero-decimals path
   * and no non-zero grid value rounds to zero.
   */
  lemma IntendedAgrees(x: Double, o: NumberOptions)
    requires o.eps.Finite? && o.eps.v > 0.0
    requires Decimals(o) >= 1 && Tenth(Decimals(o)) <= o.eps.v
    ensures FormatNumberXml(x, o) == FormatNumberXmlIntended(x, o)
  {
    if x.Finite? {
      var d := Decimals(o);
      var q := Snapped(x.v, o);
      if q != 0.0 {
        assert q == Quantize(x.v, o.eps.v);
        QuantizedAtLeastEps(x.v, o.eps.v);
        UnitAtLeast(Abs(q), d);
      }
      assert IntendedValue(x.v, o) == q;
    }
  }

  /** 10^-k is above 1e-6 up to k = 5 and at most 1e-6 from k = 6 on. */
  lemma TenthAgainstDefault(k: int)
    ensures 0 <= k <= 5 ==> Tenth(k) > DefaultEps
    ensures k >= 6 ==> Tenth(k) <= DefaultEps
  {
    assert Pow10(6) == 1000000;
    if 0 <= k <= 5 {
      Pow10Monotone(k, 5);
    }
    if k >= 6 {
      Pow10Monotone(6, k);
    }
  }

  /** The default options give six decimals, exactly the decimals of their eps. */
  lemma DefaultDecimals()
    ensures Decimals(DefaultNumberOptions) == 6 && Tenth(6) <= DefaultEps
  {
    var d := Decimals(DefaultNumberOptions);
    assert d == EpsDecimals(DefaultEps, 15);
    TenthAgainstDefault(d);
    TenthAgainstDefault(d - 1);
    TenthAgainstDefault(6);
  }

  /** Under the default options the serializer's matrix formatting is the formatter as written, so neither discrepancy reaches it. */
  lemma FormatNumberDefaults(x: Double)
    ensures FormatNumber(x, FormatOptions(None)) == FormatNumberXml(x, DefaultNumberOptions)
  {
    DefaultDecimals();
    IntendedAgrees(x, DefaultNumberOptions);
  }

  // ---------------------------------------------------------------------
  // What the text denotes

  /** Two runs of digits concatenate to a run of digits. */
  lemma AllDigitsAppend(a: string, b: string)
    requires AllDigits(a) && AllDigits(b)
    ensures AllDigits(a + b)
  {
    forall i | 0 <= i < |a + b| ensures IsDigit((a + b)[i]) {
      if i < |a| { assert (a + b)[i] == a[i]; } else { assert (a + b)[i] == b[i - |a|]; }
    }
  }

  lemma {:induction false} ParseDigitsAppend(a: string, b: string)
    requires AllDigits(a) && AllDigits(b)
    ensures AllDigits(a + b)
    ensures ParseDigits(a + b) == ParseDigits(a) * Pow10(|b|) + ParseDigits(b)
    decreases |b|
  {
    AllDigitsAppend(a, b);
    if b == [] {
      assert a + b == a;
    } else {
      var b' := b[..|b| - 1];
      var d := DigitValue(b[|b| - 1]);
      assert ParseDigits(a + b) == 10 * ParseDigits(a + b') + d by {
        assert (a + b)[..|a + b| - 1] == a + b';
        assert (a + b)[|a + b| - 1] == b[|b| - 1];
      }
      ParseDigitsAppend(a, b');
      ShiftDigit(ParseDigits(a), ParseDigits(b'), d, |b'|);
    }
  }

  /** Appending one digit shifts the value of the prefix by one more place. */
  lemma ShiftDigit(x: nat, y: nat, d: nat, k: nat)
    ensures 10 * (x * Pow10(k) + y) + d == x * Pow10(k + 1) + (10 * y + d)
  {
    assert Pow10(k + 1) == 10 * Pow10(k);
    assert 10 * (x * Pow10(k)) == x * (10 * Pow10(k));
  }

  lemma {:induction false} ParseZeros(n: nat)
    ensures ParseDigits(Zeros(n)) == 0
  {
    if n > 0 {
      assert Zeros(n) == Zeros(n - 1) + "0";
      ParseDigitsAppend(Zeros(n - 1), "0");
      ParseZeros(n - 1);
    }
  }

  lemma ParsePadded(n: nat, width: nat)
    ensures ParseDigits(PaddedDigits(n, width)) == n
  {
    var m := NatToString(n);
    ParseNatToString(n);
    if |m| < width {
      var z := Zeros(width - |m|);
      assert PaddedDigits(n, width) == z + m;
      ParseDigitsAppend(z, m);
      ParseZeros(width - |m|);
      assert ParseDigits(z) * Pow10(|m|) == 0;
    }
  }

  /** toFixed writes exactly the digits of the rounded value, the point f places from the right. */
  lemma FixedPartsValue(x: real, f: nat)
    requires f >= 1 && 0.0 <= x
    ensures var p := FixedParts(x, f);
      ParseDigits(p.0) * Pow10(f) + ParseDigits(p.1) == FixedUnits(x, f)
  {
    var m := PaddedDigits(FixedUnits(x, f), f + 1);
    var p := FixedParts(x, f);
    assert m == p.0 + p.1;
    ParsePadded(FixedUnits(x, f), f + 1);
    ParseDigitsAppend(p.0, p.1);
  }

  /** Rule 1 on "A.B": the zeros after the last non-zero digit of B go. */
  lemma DropZerosAfterNonZeroOf(p: string, b: string)
    requires |p| >= 1 && p[|p| - 1] == '.' && AllDigits(b)
    ensures var b' := TrimEnd0(b);
      DropZerosAfterNonZero(p + b) == if b' == "" then p + b else p + b'
  {
    var s := p + b;
    var b' := TrimEnd0(b);
    TrailingZerosOf(p, b);
    LastNonDigitOf(p, b);
    assert s[|p| - 1] == '.';
    if b' != "" {
      assert s[..|s| - (|b| - |b'|)] == p + b';
    }
  }

  /** Rule 2 on "A.": drops the point and the zeros that followed it. */
  lemma DropZeroFractionOf(p: string, b: string)
    requires |p| >= 1 && p[|p| - 1] == '.' && AllDigits(b)
    ensures TrimEnd0(b) == "" ==> DropZeroFraction(p + b) == (if b == "" then p + b else p[..|p| - 1])
    ensures TrimEnd0(b) != "" ==> DropZeroFraction(p + TrimEnd0(b)) == p + TrimEnd0(b)
  {
    var b' := TrimEnd0(b);
    TrailingZerosOf(p, b);
    if b' == "" && b != "" {
      assert (p + b)[|p + b| - |b| - 1] == '.';
      assert (p + b)[..|p + b| - |b| - 1] == p[..|p| - 1];
    }
    if b' != "" {
      TrailingZerosOf(p, b');
      assert TrimEnd0(b') == b';
    }
  }

  /** Trimming "I.B" keeps the integer part I and the fractional digits up to the last non-zero one. */
  lemma TrimFractionShape(i: string, b: string)
    requires |i| >= 1 && IsDigit(i[|i| - 1]) && |b| >= 1 && AllDigits(b)
    ensures TrimFraction(i + "." + b) == i + Fraction(b, true)
  {
    var b' := TrimEnd0(b);
    if b' == "" {
      TrimZeroFraction(i, b);
      assert Fraction(b, true) == "";
    } else {
      var p := i + ".";
      assert TrimFraction(p + b) == p + b' by {
        TrimNonZeroFraction(p, b);
      }
      assert Fraction(b, true) == "." + b';
      assert p + b' == i + ("." + b');
    }
  }

  /** A fraction of zeros goes with its point. */
  lemma TrimZeroFraction(i: string, b: string)
    requires |i| >= 1 && IsDigit(i[|i| - 1]) && |b| >= 1 && AllDigits(b) && TrimEnd0(b) == ""
    ensures TrimFraction(i + "." + b) == i
  {
    var p := i + ".";
    assert p[|p| - 1] == '.';
    assert DropZerosAfterNonZero(p + b) == p + b by {
      DropZerosAfterNonZeroOf(p, b);
    }
    assert DropZeroFraction(p + b) == i by {
      DropZeroFractionOf(p, b);
      assert p[..|p| - 1] == i;
    }
    assert DropTrailingPoint(i) == i;
  }

  /** A fraction with a non-zero digit keeps its point and its digits up to the last non-zero one. */
  lemma TrimNonZeroFraction(p: string, b: string)
    requires |p| >= 1 && p[|p| - 1] == '.' && AllDigits(b) && TrimEnd0(b) != ""
    ensures TrimFraction(p + b) == p + TrimEnd0(b)
  {
    var b' := TrimEnd0(b);
    var t := p + b';
    assert DropZerosAfterNonZero(p + b) == t by {
      DropZerosAfterNonZeroOf(p, b);
    }
    assert DropZeroFraction(t) == t by {
      DropZeroFractionOf(p, b);
    }
    assert DropTrailingPoint(t) == t by {
      assert t[|t| - 1] == b'[|b'| - 1];
    }
  }

  lemma {:induction false} TrailingZerosOf(p: string, b: string)
    requires |p| >= 1 && p[|p| - 1] == '.'
    ensures TrailingZeros(p + b) == |b| - |TrimEnd0(b)|
    decreases |b|
  {
    if b == [] {
      assert p + b == p;
    } else if b[|b| - 1] == '0' {
      assert (p + b)[..|p + b| - 1] == p + b[..|b| - 1];
      TrailingZerosOf(p, b[..|b| - 1]);
    }
  }

  lemma {:induction false} LastNonDigitOf(p: string, b: string)
    requires |p| >= 1 && p[|p| - 1] == '.' && AllDigits(b)
    ensures LastNonDigit(p + b) == |p| - 1
    decreases |b|
  {
    if b == [] {
      assert p + b == p;
    } else {
      assert (p + b)[..|p + b| - 1] == p + b[..|b| - 1];
      LastNonDigitOf(p, b[..|b| - 1]);
    }
  }

  /** Dropping trailing fractional zeros keeps the value: B == B' * 10^(|B| - |B'|), so B / 10^|B| == B' / 10^|B'|. */
  lemma TrimEnd0Value(b: string)
    requires AllDigits(b)
    ensures AllDigits(TrimEnd0(b))
    ensures ParseDigits(b) == ParseDigits(TrimEnd0(b)) * Pow10(|b| - |TrimEnd0(b)|)
  {
    var b' := TrimEnd0(b);
    var z := |b| - |b'|;
    assert b == b' + Zeros(z);
    ParseDigitsAppend(b', Zeros(z));
    ParseZeros(z);
  }

  // ---------------------------------------------------------------------
  // The shape and value of the text

  function SignOf(q: real): string { if q < 0.0 then "-" else "" }

  /** The fraction toFixed wrote, with its point, after optional trimming. */
  function Fraction(b: string, trim: bool): string {
    var b' := if trim then TrimEnd0(b) else b;
    if b' == "" then "" else "." + b'
  }

  /**
   * Below 1e21 and with at least one decimal the text is a sign, the integer
   * digits and the (trimmed) fractional digits of the value rounded to the
   * decimals; FixedPartsValue and TrimEnd0Value give the value they denote.
   */
  lemma RenderShape(q: real, o: NumberOptions)
    requires o.eps.Finite? && o.eps.v > 0.0
    requires Decimals(o) > 0 && Abs(q) < Exp21 as real
    ensures var p := FixedParts(Abs(q), Decimals(o));
      Render(q, o) == SignOf(q) + p.0 + Fraction(p.1, o.trimTrailingZeros.GetOr(true) && o.fixedDecimals.None?)
  {
    var trim := o.trimTrailingZeros.GetOr(true) && o.fixedDecimals.None?;
    assert Render(q, o) == if trim then TrimFraction(FixedText(q, Decimals(o))) else FixedText(q, Decimals(o));
    FixedShape(q, Decimals(o), trim);
  }

  /** toFixed(d) below 1e21, trimmed or not. */
  lemma FixedShape(q: real, d: nat, trim: bool)
    requires d >= 1 && Abs(q) < Exp21 as real
    ensures var p := FixedParts(Abs(q), d);
      (if trim then TrimFraction(FixedText(q, d)) else FixedText(q, d)) == SignOf(q) + p.0 + Fraction(p.1, trim)
  {
    if trim {
      TrimmedFixedShape(q, d);
    } else {
      UntrimmedFixedShape(q, d);
    }
  }

  lemma UntrimmedFixedShape(q: real, d: nat)
    requires d >= 1 && Abs(q) < Exp21 as real
    ensures var p := FixedParts(Abs(q), d);
      FixedText(q, d) == SignOf(q) + p.0 + Fraction(p.1, false)
  {
    var p := FixedParts(Abs(q), d);
    FixedTextShape(q, d);
    assert Fraction(p.1, false) == "." + p.1;
    assert SignOf(q) + p.0 + "." + p.1 == SignOf(q) + p.0 + ("." + p.1);
  }

  lemma TrimmedFixedShape(q: real, d: nat)
    requires d >= 1 && Abs(q) < Exp21 as real
    ensures var p := FixedParts(Abs(q), d);
      TrimFraction(FixedText(q, d)) == SignOf(q) + p.0 + Fraction(p.1, true)
  {
    var p := FixedParts(Abs(q), d);
    var i := SignOf(q) + p.0;
    FixedTextShape(q, d);
    assert i[|i| - 1] == p.0[|p.0| - 1];
    TrimFractionShape(i, p.1);
  }

  /** toFixed below 1e21: the sign, the integer digits, a point and exactly f fractional digits. */
  lemma FixedTextShape(q: real, f: nat)
    requires f >= 1 && Abs(q) < Exp21 as real
    ensures var p := FixedParts(Abs(q), f);
      FixedText(q, f) == SignOf(q) + p.0 + "." + p.1
  {
    if q < 0.0 {
      assert FixedText(q, f) == "-" + FixedText(-q, f);
      assert Abs(q) == -q;
    }
  }

  /** Below 1e21 and with decimals, only a negative value is written with a leading '-'. */
  lemma RenderSign(q: real, o: NumberOptions)
    requires o.eps.Finite? && o.eps.v > 0.0
    requires Decimals(o) > 0 && Abs(q) < Exp21 as real
    ensures var s := Render(q, o); s != [] && s[0] == '-' ==> q < 0.0
  {
    RenderShape(q, o);
    var p := FixedParts(Abs(q), Decimals(o));
    assert p.0[0] != '-';
  }

  /** With the intended formatter a leading '-' always comes with a non-zero rounded value. */
  lemma IntendedHasNoNegativeZero(x: real, o: NumberOptions)
    requires o.eps.Finite? && o.eps.v > 0.0
    requires Decimals(o) > 0 && Abs(IntendedValue(x, o)) < Exp21 as real
    ensures var r := FormatNumberXmlIntended(Finite(x), o);
      r.Ok? && r.value != [] && r.value[0] == '-' ==> FixedUnits(Abs(IntendedValue(x, o)), Decimals(o)) >= 1
  {
    var q := IntendedValue(x, o);
    var s := Render(q, o);
    assert FormatNumberXmlIntended(Finite(x), o) == (if HasExponent(s) then Err("Scientific notation not allowed in XML output") else Ok(s));
    RenderSign(q, o);
  }

  // ---------------------------------------------------------------------
  // Discrepancies of the formatter as written

  lemma {:induction false} Pow10Monotone(a: nat, b: nat)
    requires a <= b
    ensures Pow10(a) <= Pow10(b)
    decreases b
  {
    if a < b {
      Pow10Monotone(a, b - 1);
    }
  }

  /**
   * When the options give no decimals, the zero-decimals path prints every
   * power of ten from 1e21 on that survives snapping in exponent form: the
   * exponent guard does not cover that path.
   */
  lemma ExponentEscapesGuard(k: nat, o: NumberOptions)
    requires o.eps.Finite? && o.eps.v > 0.0
    requires k >= 21 && Decimals(o) == 0 && Snapped(Pow10(k) as real, o) == Pow10(k) as real
    ensures FormatNumberXml(Finite(Pow10(k) as real), o) == Ok("1e+" + NatToString(k))
    ensures HasExponent("1e+" + NatToString(k))
  {
    var e := Pow10(k);
    var text := "1e+" + NatToString(k);
    assert Render(e as real, o) == text by {
      assert Render(e as real, o) == IntegerText(Trunc(e as real));
      Pow10Monotone(21, k);
      assert Trunc(e as real) == e;
      assert IntegerText(e) == ExponentText(e);
      ExponentTextOfPow10(k);
    }
    assert FormatNumberXml(Finite(e as real), o) == Ok(Render(e as real, o));
    assert text[1] == 'e';
  }

  /** 10^k is written "1e+k". */
  lemma ExponentTextOfPow10(k: nat)
    ensures ExponentText(Pow10(k)) == "1e+" + NatToString(k)
  {
    NatPow10Text(k);
    OneZerosExponentForm(k);
  }

  /** The digits "1" followed by k zeros, in exponent form. */
  lemma OneZerosExponentForm(k: nat)
    ensures var m := "1" + Zeros(k);
      ExponentForm(m[0], TrimEnd0(m[1..]), |m| - 1) == "1e+" + NatToString(k)
  {
    var m := "1" + Zeros(k);
    assert m[1..] == Zeros(k);
    TrimEnd0Zeros(k);
    var h := ['1'] + "" + "e+";
    assert h == "1e+";
  }

  lemma {:induction false} TrimEnd0Zeros(k: nat)
    ensures TrimEnd0(Zeros(k)) == ""
  {
    if k > 0 {
      ZerosSnoc(k);
      assert Zeros(k)[..k - 1] == Zeros(k - 1);
      TrimEnd0Zeros(k - 1);
    }
  }

  lemma {:induction false} NatPow10Text(k: nat)
    ensures NatToString(Pow10(k)) == "1" + Zeros(k)
  {
    if k > 0 {
      NatPow10Text(k - 1);
      assert Pow10(k) / 10 == Pow10(k - 1) && Pow10(k) % 10 == 0;
      ZerosSnoc(k);
    }
  }

  lemma {:induction false} ZerosSnoc(k: nat)
    requires k >= 1
    ensures Zeros(k) == Zeros(k - 1) + "0"
  {
    if k > 1 { ZerosSnoc(k - 1); }
  }

  /** eps = 1 gives no decimals, and integers from 2 on pass quantisation and snapping unchanged. */
  lemma ExponentInputs(k: nat)
    requires k >= 21
    ensures var o := NumberOptions(Finite(1.0), None, None, None, None, None, None);
      Decimals(o) == 0 && Snapped(Pow10(k) as real, o) == Pow10(k) as real
  {
    var o := NumberOptions(Finite(1.0), None, None, None, None, None, None);
    var n := Pow10(k);
    assert Tenth(0) == 1.0;
    assert n >= 2 by {
      Pow10Monotone(1, k);
    }
    assert 1.0 / 1.0 == 1.0;
    assert n as real * 1.0 == n as real;
    assert Round(n as real) == n;
  }

  /** toFixed(d) of a value that rounds to zero: a zero integer part and d zeros. */
  lemma ZeroParts(x: real, d: nat)
    requires d >= 1 && 0.0 <= x && FixedUnits(x, d) == 0
    ensures FixedParts(x, d) == ("0", Zeros(d))
  {
    var m := PaddedDigits(0, d + 1);
    assert NatToString(0) == "0";
    ZerosSnoc(d + 1);
    assert m == Zeros(d + 1) == "0" + Zeros(d);
    assert m[..1] == "0" && m[1..] == Zeros(d);
  }

  /** A value toFixed(d) rounds to zero is below one half. */
  lemma RoundsToZeroIsSmall(a: real, d: nat)
    requires 0.0 <= a && FixedUnits(a, d) == 0
    ensures a < 0.5
  {
    var p := Pow10(d) as real;
    var y := a * p + 0.5;
    assert y.Floor == 0;
    assert y < 1.0;
    MulAtLeast(a, p);
  }

  lemma MulAtLeast(a: real, p: real)
    requires 0.0 <= a && 1.0 <= p
    ensures a <= a * p
  {
  }

  /** With trimming on, a value that rounds to zero at the chosen decimals is written as its sign and "0". */
  lemma ZeroRender(x: real, o: NumberOptions)
    requires o.eps.Finite? && o.eps.v > 0.0
    requires Decimals(o) >= 1 && o.trimTrailingZeros.GetOr(true) && o.fixedDecimals.None?
    requires FixedUnits(Abs(x), Decimals(o)) == 0
    ensures Render(x, o) == SignOf(x) + "0"
  {
    var d := Decimals(o);
    assert Abs(x) < Exp21 as real by {
      RoundsToZeroIsSmall(Abs(x), d);
    }
    var p := FixedParts(Abs(x), d);
    assert p == ("0", Zeros(d)) by {
      ZeroParts(Abs(x), d);
    }
    assert Fraction(p.1, true) == "" by {
      TrimEnd0Zeros(d);
    }
    assert Render(x, o) == SignOf(x) + p.0 + Fraction(p.1, true) by {
      RenderShape(x, o);
    }
    assert SignOf(x) + "0" + "" == SignOf(x) + "0";
  }

  /**
   * A negative value that survives snapping but rounds to zero at the
   * chosen decimals is written "-0".
   */
  lemma NegativeZeroText(x: real, o: NumberOptions)
    requires o.eps.Finite? && o.eps.v > 0.0
    requires Decimals(o) >= 1 && o.trimTrailingZeros.GetOr(true) && o.fixedDecimals.None?
    requires x < 0.0 && Snapped(x, o) == x && FixedUnits(-x, Decimals(o)) == 0
    ensures FormatNumberXml(Finite(x), o) == Ok("-0")
  {
    assert Render(x, o) == "-0" by {
      ZeroRender(x, o);
      assert SignOf(x) + "0" == "-0";
    }
    assert !HasExponent("-0") by {
      assert !ContainsChar("-0", 'e') && !ContainsChar("-0", 'E');
    }
  }

  /** The intended formatter writes the same inputs as "0". */
  lemma NegativeZeroTextIntended(x: real, o: NumberOptions)
    requires o.eps.Finite? && o.eps.v > 0.0
    requires Decimals(o) >= 1 && o.trimTrailingZeros.GetOr(true) && o.fixedDecimals.None?
    requires x < 0.0 && Snapped(x, o) == x && FixedUnits(-x, Decimals(o)) == 0
    ensures FormatNumberXmlIntended(Finite(x), o) == Ok("0")
  {
    assert IntendedValue(x, o) == 0.0;
    assert Render(0.0, o) == "0" by {
      assert FixedUnits(0.0, Decimals(o)) == 0;
      ZeroRender(0.0, o);
      assert SignOf(0.0) + "0" == "0";
    }
    assert !HasExponent("0") by {
      assert !ContainsChar("0", 'e') && !ContainsChar("0", 'E');
    }
  }

  /**
   * Such inputs exist: eps 0.001 with at most two decimals, and the values
   * -0.004 .. -0.002 of its grid.
   */
  lemma NegativeZeroInputs(j: int)
    requires -4 <= j <= -2
    ensures var o := NumberOptions(Finite(0.001), Some(Finite(2.0)), None, None, None, None, None);
      var x := j as real / 1000.0;
      Decimals(o) == 2 && x < 0.0 && Snapped(x, o) == x && FixedUnits(-x, 2) == 0
  {
    var o := NumberOptions(Finite(0.001), Some(Finite(2.0)), None, None, None, None, None);
    var x := j as real / 1000.0;
    assert Decimals(o) == 2 by {
      assert ClampInt(Finite(2.0), 0, 20) == 2;
      assert Tenth(0) == 1.0 && Tenth(1) == 0.1;
    }
    assert Snapped(x, o) == x by {
      assert 1.0 / 0.001 == 1000.0;
      assert x * 1000.0 == j as real;
      assert Round(j as real) == j;
      assert Abs(x) > 0.001;
    }
    assert FixedUnits(-x, 2) == 0 by {
      assert -x * Pow10(2) as real + 0.5 < 1.0;
    }
  }
}
