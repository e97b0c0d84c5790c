/** Exact decimal arithmetic as the application does it with Python's
    `Decimal`: values are coeff / 10^scale, money is a whole number of cents,
    and rounding to cents is ROUND_HALF_UP (ties away from zero). */
module Decimals {
  import opened Wrappers
  import opened Text

  /** A finite Decimal: the value coeff / 10^scale. */
  datatype Dec = Dec(coeff: int, scale: nat)

  /** The rate the application is configured with, 0.18. */
  const DefaultVatRate: Dec := Dec(18, 2)

  /** An amount of whole cents as the Decimal it is written as ("12.30"). */
  function Cents(c: int): Dec {
    Dec(c, 2)
  }

  /** r is the rational n/d rounded half-up to a whole number: the distance
      from n/d is at most one half, and a tie goes away from zero. */
  predicate RoundsTo(n: int, d: int, r: int)
    requires d > 0
  {
    if n >= 0 then -d <= 2 * n - 2 * d * r < d else -d < 2 * n - 2 * d * r <= d
  }

  function RoundHalfUp(n: int, d: int): (r: int)
    requires d > 0
    ensures RoundsTo(n, d, r)
    ensures n >= 0 ==> r >= 0
    ensures n <= 0 ==> r <= 0
  {
    if n >= 0 then
      var q := (2 * n + d) / (2 * d);
      assert 2 * n + d == 2 * d * q + (2 * n + d) % (2 * d);
      q
    else
      var q := (-2 * n + d) / (2 * d);
      assert -2 * n + d == 2 * d * q + (-2 * n + d) % (2 * d);
      -q
  }

  lemma MulAtLeast(d: int, k: int)
    requires d > 0 && k >= 1
    ensures d * k >= d
  {
  }

  /** At most one whole number is n/d rounded half-up. */
  lemma RoundsToUnique(n: int, d: int, r1: int, r2: int)
    requires d > 0 && RoundsTo(n, d, r1) && RoundsTo(n, d, r2)
    ensures r1 == r2
  {
    if r1 > r2 {
      MulAtLeast(d, r1 - r2);
    } else if r2 > r1 {
      MulAtLeast(d, r2 - r1);
    }
  }

  /** Rounding leaves a whole number unchanged. */
  lemma RoundExact(k: int, d: int)
    requires d > 0
    ensures RoundHalfUp(k * d, d) == k
  {
    assert 2 * (k * d) - 2 * d * k == 0;
    RoundsToUnique(k * d, d, k, RoundHalfUp(k * d, d));
  }

  /** Rounding is symmetric about zero: ties go away from zero on both sides. */
  lemma RoundNegate(n: int, d: int)
    requires d > 0
    ensures RoundHalfUp(-n, d) == -RoundHalfUp(n, d)
  {
    var r := RoundHalfUp(n, d);
    if n != 0 {
      assert RoundsTo(-n, d, -r);
      RoundsToUnique(-n, d, -r, RoundHalfUp(-n, d));
    }
  }

  /** A rounded value never passes a whole number that the exact value does
      not pass: if n/d <= k then round(n/d) <= k. */
  lemma RoundAtMost(n: int, d: int, k: int)
    requires d > 0 && n <= k * d
    ensures RoundHalfUp(n, d) <= k
  {
    var r := RoundHalfUp(n, d);
    if r > k {
      MulAtLeast(d, r - k);
    }
  }

  /** A rounded value is not below a whole number the exact value reaches. */
  lemma RoundAtLeast(n: int, d: int, k: int)
    requires d > 0 && k * d <= n
    ensures k <= RoundHalfUp(n, d)
  {
    var r := RoundHalfUp(n, d);
    if r < k {
      MulAtLeast(d, k - r);
    }
  }

  /** `quantize_decimal(d)`: d as a whole number of cents, rounded half-up. */
  function Quantize(d: Dec): (c: int)
    ensures RoundsTo(100 * d.coeff, Pow10(d.scale), c)
  {
    RoundHalfUp(100 * d.coeff, Pow10(d.scale))
  }

  /** `quantize_decimal` also accepts None (an absent amount), giving 0. */
  function QuantizeDecimal(d: Option<Dec>): (c: int)
    ensures d.None? ==> c == 0
    ensures d.Some? ==> RoundsTo(100 * d.value.coeff, Pow10(d.value.scale), c)
  {
    match d
    case None => 0
    case Some(v) => Quantize(v)
  }

  /** Quantizing is the identity on a value that already has at most two
      decimals. */
  lemma QuantizeCentPrecise(d: Dec)
    requires d.scale <= 2
    ensures Quantize(d) == d.coeff * Pow10(2 - d.scale)
  {
    Pow10Add(2 - d.scale, d.scale);
    assert 100 * d.coeff == (d.coeff * Pow10(2 - d.scale)) * Pow10(d.scale);
    RoundExact(d.coeff * Pow10(2 - d.scale), Pow10(d.scale));
  }

  lemma QuantizeCents(c: int)
    ensures Quantize(Cents(c)) == c
  {
    QuantizeCentPrecise(Cents(c));
  }

  /** Exact sum of two Decimals, at the larger of their scales. */
  function Add(a: Dec, b: Dec): (r: Dec)
    ensures r.scale == if a.scale <= b.scale then b.scale else a.scale
  {
    if a.scale <= b.scale then
      Dec(a.coeff * Pow10(b.scale - a.scale) + b.coeff, b.scale)
    else
      Dec(a.coeff + b.coeff * Pow10(a.scale - b.scale), a.scale)
  }

  function Negate(a: Dec): Dec {
    Dec(-a.coeff, a.scale)
  }

  function Sub(a: Dec, b: Dec): Dec {
    Add(a, Negate(b))
  }

  /** Adding whole cents to whole cents is exact. */
  lemma AddCents(a: int, b: int)
    ensures Add(Cents(a), Cents(b)) == Cents(a + b)
  {
  }

  /** `Decimal(s)` on plain decimal text: an optional sign, digits and at
      most one point, with at least one digit. The empty text and every
      other text give None (the application treats both as "no value"). */
  function ParseDecimal(s: string): Option<Dec> {
    if s == "" then None
    else if s[0] == '-' then
      match ParseUnsigned(s[1..])
      case Some(d) => Some(Negate(d))
      case None => None
    else if s[0] == '+' then ParseUnsigned(s[1..])
    else ParseUnsigned(s)
  }

  function ParseUnsigned(s: string): Option<Dec> {
    var k := IndexOf(s, '.');
    var whole := s[..k];
    var fraction := if k < |s| then s[k + 1..] else "";
    if |whole| + |fraction| > 0 && AllDigits(whole + fraction) then
      Some(Dec(DigitsValue(whole + fraction), |fraction|))
    else None
  }

  /** `f"{amount:.2f}"` for an amount of whole cents. */
  function FormatCents(c: int): (s: string)
    ensures |s| >= 4
  {
    var a := if c < 0 then -c else c;
    (if c < 0 then "-" else "") + NatToDigits(a / 100) + "." + Pad2(a % 100)
  }

  lemma ParseUnsignedDigits(n: nat, f: string)
    requires |f| == 2 && AllDigits(f)
    ensures ParseUnsigned(NatToDigits(n) + "." + f) == Some(Dec(n * 100 + DigitsValue(f), 2))
  {
    var w := NatToDigits(n);
    var s := w + "." + f;
    var k := IndexOf(s, '.');
    assert forall j :: 0 <= j < |w| ==> s[j] == w[j];
    assert s[|w|] == '.';
    assert k == |w|;
    assert s[..k] == w && s[k + 1..] == f;
    NatToDigitsRoundTrip(n);
    DigitsValueAppend(w, f);
  }

  lemma ParseDecimalUnsigned(body: string)
    requires body != [] && IsDigit(body[0])
    ensures ParseDecimal(body) == ParseUnsigned(body)
    ensures ParseDecimal("-" + body) == match ParseUnsigned(body)
      case Some(d) => Some(Negate(d))
      case None => None
  {
    assert ("-" + body)[1..] == body;
  }

  /** Reading back a formatted amount gives the same number of cents, at
      scale 2. */
  lemma ParseFormatCents(c: int)
    ensures ParseDecimal(FormatCents(c)) == Some(Cents(c))
  {
    var a := if c < 0 then -c else c;
    var body := NatToDigits(a / 100) + "." + Pad2(a % 100);
    assert ParseUnsigned(body) == Some(Dec(a, 2)) by {
      ParseUnsignedDigits(a / 100, Pad2(a % 100));
    }
    assert FormatCents(c) == (if c < 0 then "-" + body else body);
    ParseDecimalUnsigned(body);
  }

  /** A formatted amount, read back and quantized, is the amount. */
  lemma QuantizeFormatted(c: int)
    ensures QuantizeDecimal(ParseDecimal(FormatCents(c))) == c
  {
    ParseFormatCents(c);
    QuantizeCents(c);
  }
}
