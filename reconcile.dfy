/** The reconciliation engine: deriving two of {base, VAT, total} from the
    one the user edited, and validating the three before an entry is stored.
    Amounts that come out of a derivation are whole cents. */
module Reconcile {
  import opened Wrappers
  import opened Text
  import opened Decimals

  /** The text of the three amount fields of the entry form. */
  datatype AmountFields = AmountFields(base: string, vat: string, total: string)

  /** Three validated amounts, in cents. */
  datatype Amounts = Amounts(base: int, vat: int, total: int)

  datatype ValidationError =
    | NoAmount                                    // "Enter at least one amount"
    | Incomplete                                  // "Amounts invalid or incomplete"
    | Negative                                    // "Amounts cannot be negative"
    | Inconsistent(base: Dec, vat: Dec, total: Dec)  // "Amounts inconsistent (...)"

  // ---------------------------------------------------------------------
  // Derivations
  // ---------------------------------------------------------------------

  /** VAT derived from a base: base * rate rounded to cents. */
  function VatFromBase(base: Dec, rate: Dec): (vat: int)
    ensures RoundsTo(100 * (base.coeff * rate.coeff), Pow10(base.scale + rate.scale), vat)
    ensures base.coeff >= 0 && rate.coeff >= 0 ==> vat >= 0
  {
    Quantize(Dec(base.coeff * rate.coeff, base.scale + rate.scale))
  }

  /** Total derived from the base as typed and a VAT in cents: their sum
      rounded to cents. */
  function TotalFromBase(base: Dec, vat: int): int {
    Quantize(Add(base, Cents(vat)))
  }

  /** Base derived from a VAT: vat / rate rounded to cents (rate > 0). */
  function BaseFromVat(vat: Dec, rate: Dec): (base: int)
    requires rate.coeff > 0
    ensures RoundsTo(100 * vat.coeff * Pow10(rate.scale), rate.coeff * Pow10(vat.scale), base)
    ensures vat.coeff >= 0 ==> base >= 0
  {
    RoundHalfUp(100 * vat.coeff * Pow10(rate.scale), rate.coeff * Pow10(vat.scale))
  }

  /** Total derived from a base in cents and the VAT as typed. */
  function TotalFromVat(base: int, vat: Dec): int {
    Quantize(Add(Cents(base), vat))
  }

  /** The denominator 1 + rate of the derivation from a total, over 10^rate.scale. */
  function OnePlusRate(rate: Dec): int {
    Pow10(rate.scale) + rate.coeff
  }

  /** Base derived from a total: total / (1 + rate) rounded to cents. */
  function BaseFromTotal(total: Dec, rate: Dec): (base: int)
    requires OnePlusRate(rate) > 0
    ensures RoundsTo(100 * total.coeff * Pow10(rate.scale), Pow10(total.scale) * OnePlusRate(rate), base)
  {
    RoundHalfUp(100 * total.coeff * Pow10(rate.scale), Pow10(total.scale) * OnePlusRate(rate))
  }

  /** VAT derived from a total as the residual total - base, rounded to cents. */
  function VatFromTotal(total: Dec, base: int): int {
    Quantize(Sub(total, Cents(base)))
  }

  /** The value of a Decimal with at most two decimals, in cents. */
  function CentsOf(d: Dec): int
    requires d.scale <= 2
  {
    d.coeff * Pow10(2 - d.scale)
  }

  lemma MulDistrib(x: int, p: int, y: int, q: int)
    ensures (x * p + y) * q == x * (p * q) + y * q
  {
  }

  lemma CentsOfAdd(a: Dec, b: Dec)
    requires a.scale <= 2 && b.scale <= 2
    ensures Add(a, b).scale <= 2
    ensures CentsOf(Add(a, b)) == CentsOf(a) + CentsOf(b)
  {
    if a.scale <= b.scale {
      Pow10Add(b.scale - a.scale, 2 - b.scale);
      MulDistrib(a.coeff, Pow10(b.scale - a.scale), b.coeff, Pow10(2 - b.scale));
    } else {
      Pow10Add(a.scale - b.scale, 2 - a.scale);
      MulDistrib(b.coeff, Pow10(a.scale - b.scale), a.coeff, Pow10(2 - a.scale));
    }
  }


  /** From a base with at most two decimals, base + VAT is the derived total
      exactly. */
  lemma FromBaseSumsExactly(base: Dec, rate: Dec)
    requires base.scale <= 2
    ensures Quantize(base) + VatFromBase(base, rate) == TotalFromBase(base, VatFromBase(base, rate))
  {
    var vat := VatFromBase(base, rate);
    CentsOfAdd(base, Cents(vat));
    QuantizeCentPrecise(base);
    QuantizeCentPrecise(Add(base, Cents(vat)));
  }

  /** From a VAT with at most two decimals, base + VAT is the derived total
      exactly. */
  lemma FromVatSumsExactly(vat: Dec, rate: Dec)
    requires vat.scale <= 2 && rate.coeff > 0
    ensures BaseFromVat(vat, rate) + Quantize(vat) == TotalFromVat(BaseFromVat(vat, rate), vat)
  {
    var base := BaseFromVat(vat, rate);
    CentsOfAdd(Cents(base), vat);
    QuantizeCentPrecise(vat);
    QuantizeCentPrecise(Add(Cents(base), vat));
  }

  /** From a total with at most two decimals, the derived base and VAT add up
      to the total exactly: the VAT is taken as the residual. */
  lemma FromTotalSumsExactly(total: Dec, rate: Dec)
    requires total.scale <= 2 && OnePlusRate(rate) > 0
    ensures BaseFromTotal(total, rate) + VatFromTotal(total, BaseFromTotal(total, rate)) == Quantize(total)
  {
    var base := BaseFromTotal(total, rate);
    CentsOfAdd(total, Negate(Cents(base)));
    QuantizeCentPrecise(total);
    QuantizeCentPrecise(Sub(total, Cents(base)));
  }

  lemma ScaledTotalBound(c: int, p2: int, ps: int, q: int, rc: int)
    requires c >= 0 && rc >= 0 && p2 * ps == 100
    ensures 100 * c * q <= (c * p2) * (ps * (q + rc))
  {
    calc {
      (c * p2) * (ps * (q + rc));
      c * (p2 * ps) * (q + rc);
      100 * c * (q + rc);
      100 * c * q + 100 * c * rc;
    }
    assert 100 * c * rc >= 0;
  }

  /** With a non-negative rate, the base derived from a non-negative total
      with at most two decimals lies between 0 and the total, so the
      residual VAT is not negative either. */
  lemma FromTotalWithinTotal(total: Dec, rate: Dec)
    requires total.scale <= 2 && total.coeff >= 0 && rate.coeff >= 0
    ensures 0 <= BaseFromTotal(total, rate) <= Quantize(total)
    ensures VatFromTotal(total, BaseFromTotal(total, rate)) >= 0
    ensures BaseFromTotal(total, rate) + VatFromTotal(total, BaseFromTotal(total, rate)) == CentsOf(total)
  {
    var q := Pow10(rate.scale);
    var n := 100 * total.coeff * q;
    var d := Pow10(total.scale) * OnePlusRate(rate);
    var k := CentsOf(total);
    Pow10Add(2 - total.scale, total.scale);
    ScaledTotalBound(total.coeff, Pow10(2 - total.scale), Pow10(total.scale), q, rate.coeff);
    assert n <= k * d;
    RoundAtMost(n, d, k);
    assert n >= 0;
    QuantizeCentPrecise(total);
    FromTotalSumsExactly(total, rate);
  }

  lemma FromBaseExample()
    ensures VatFromBase(Dec(100, 0), DefaultVatRate) == 1800
    ensures TotalFromBase(Dec(100, 0), 1800) == 11800
  {
    RoundExact(1800, 100);
    RoundExact(11800, 1);
  }

  lemma FromTotalExample()
    ensures BaseFromTotal(Dec(11800, 2), DefaultVatRate) == 10000
    ensures VatFromTotal(Dec(11800, 2), 10000) == 1800
  {
    assert 100 * 11800 * Pow10(2) == 10000 * (Pow10(2) * OnePlusRate(DefaultVatRate));
    RoundExact(10000, Pow10(2) * OnePlusRate(DefaultVatRate));
    RoundExact(1800, 100);
  }

  // ---------------------------------------------------------------------
  // The fields after a handler has run (the re-entrancy guard is in App)
  // ---------------------------------------------------------------------

  /** `_calculate_from_base` on the fields: a non-negative base fills VAT and
      total; otherwise the two are cleared only when no widget has focus. */
  function AfterBaseEdit(f: AmountFields, rate: Dec, hasFocus: bool): (r: AmountFields)
    ensures r.base == f.base
    ensures var b := ParseDecimal(f.base);
      !(b.Some? && b.value.coeff >= 0) ==> r == (if hasFocus then f else f.(vat := "", total := ""))
  {
    var b := ParseDecimal(f.base);
    if b.Some? && b.value.coeff >= 0 then
      var vat := VatFromBase(b.value, rate);
      f.(vat := FormatCents(vat), total := FormatCents(TotalFromBase(b.value, vat)))
    else if hasFocus then f
    else f.(vat := "", total := "")
  }

  /** `_calculate_from_vat`: derives only from a non-negative VAT at a
      positive rate. */
  function AfterVatEdit(f: AmountFields, rate: Dec, hasFocus: bool): (r: AmountFields)
    ensures r.vat == f.vat
    ensures var v := ParseDecimal(f.vat);
      !(v.Some? && v.value.coeff >= 0) || rate.coeff <= 0 ==> r == (if hasFocus then f else f.(base := "", total := ""))
  {
    var v := ParseDecimal(f.vat);
    if v.Some? && v.value.coeff >= 0 && rate.coeff > 0 then
      var base := BaseFromVat(v.value, rate);
      f.(base := FormatCents(base), total := FormatCents(TotalFromVat(base, v.value)))
    else if hasFocus then f
    else f.(base := "", total := "")
  }

  /** `_calculate_from_total`: derives only from a non-negative total when
      1 + rate is positive. */
  function AfterTotalEdit(f: AmountFields, rate: Dec, hasFocus: bool): (r: AmountFields)
    ensures r.total == f.total
    ensures var t := ParseDecimal(f.total);
      !(t.Some? && t.value.coeff >= 0) || OnePlusRate(rate) <= 0 ==>
        r == (if hasFocus then f else f.(base := "", vat := ""))
  {
    var t := ParseDecimal(f.total);
    if t.Some? && t.value.coeff >= 0 && OnePlusRate(rate) > 0 then
      var base := BaseFromTotal(t.value, rate);
      f.(base := FormatCents(base), vat := FormatCents(VatFromTotal(t.value, base)))
    else if hasFocus then f
    else f.(base := "", vat := "")
  }

  // ---------------------------------------------------------------------
  // Validation
  // ---------------------------------------------------------------------

  /** |base + vat - total| > 0.01, computed exactly. */
  predicate OffByMoreThanACent(b: Dec, v: Dec, t: Dec) {
    var d := Sub(Add(b, v), t);
    100 * (if d.coeff < 0 then -d.coeff else d.coeff) > Pow10(d.scale)
  }

  /** `_validate_inputs` on already-read amounts: one error, by precedence;
      on success the three amounts rounded to cents. */
  function ValidateTriple(b: Option<Dec>, v: Option<Dec>, t: Option<Dec>): (r: Result<Amounts, ValidationError>)
    ensures r == Err(NoAmount) <==> b.None? && v.None? && t.None?
    ensures r == Err(Incomplete) <==> (b.None? || v.None? || t.None?) && !(b.None? && v.None? && t.None?)
    ensures r == Err(Negative) <==>
      b.Some? && v.Some? && t.Some? && (b.value.coeff < 0 || v.value.coeff < 0 || t.value.coeff < 0)
    ensures r.Err? && r.error.Inconsistent? <==>
      b.Some? && v.Some? && t.Some? && b.value.coeff >= 0 && v.value.coeff >= 0 && t.value.coeff >= 0 &&
      OffByMoreThanACent(b.value, v.value, t.value)
    ensures r.Err? && r.error.Inconsistent? ==> r.error == Inconsistent(b.value, v.value, t.value)
    ensures r.Ok? ==> (b.Some? && v.Some? && t.Some? &&
                       r.value == Amounts(Quantize(b.value), Quantize(v.value), Quantize(t.value)))
  {
    if b.None? && v.None? && t.None? then Err(NoAmount)
    else if b.None? || v.None? || t.None? then Err(Incomplete)
    else if b.value.coeff < 0 || v.value.coeff < 0 || t.value.coeff < 0 then Err(Negative)
    else if OffByMoreThanACent(b.value, v.value, t.value) then Err(Inconsistent(b.value, v.value, t.value))
    else Ok(Amounts(Quantize(b.value), Quantize(v.value), Quantize(t.value)))
  }

  /** `_validate_inputs` on the text of the fields. */
  function ValidateFields(f: AmountFields): Result<Amounts, ValidationError> {
    ValidateTriple(ParseDecimal(f.base), ParseDecimal(f.vat), ParseDecimal(f.total))
  }

  lemma CentsOfNegate(d: Dec)
    requires d.scale <= 2
    ensures CentsOf(Negate(d)) == -CentsOf(d)
  {
  }

  lemma CentBound(x: int, p: int, q: int)
    requires p > 0 && q > 0 && p * q == 100
    requires 100 * x <= q && -q <= 100 * x
    ensures -1 <= x * p <= 1
  {
    assert (x * p) * q == 100 * x;
  }

  /** Accepted amounts with at most two decimals are non-negative and their
      base + VAT is within one cent of the total. */
  lemma ValidatedWithinACent(b: Dec, v: Dec, t: Dec)
    requires b.scale <= 2 && v.scale <= 2 && t.scale <= 2
    requires ValidateTriple(Some(b), Some(v), Some(t)).Ok?
    ensures var a := ValidateTriple(Some(b), Some(v), Some(t)).value;
      a.base >= 0 && a.vat >= 0 && a.total >= 0 &&
      -1 <= a.base + a.vat - a.total <= 1
  {
    var a := ValidateTriple(Some(b), Some(v), Some(t)).value;
    assert a == Amounts(Quantize(b), Quantize(v), Quantize(t));
    assert !OffByMoreThanACent(b, v, t);
    QuantizeCentPrecise(b);
    QuantizeCentPrecise(v);
    QuantizeCentPrecise(t);
    var d := Sub(Add(b, v), t);
    assert a.base == CentsOf(b) && a.vat == CentsOf(v) && a.total == CentsOf(t);
    CentsOfAdd(b, v);
    CentsOfAdd(Add(b, v), Negate(t));
    CentsOfNegate(t);
    assert CentsOf(d) == CentsOf(Add(b, v)) + CentsOf(Negate(t));
    Pow10Add(2 - d.scale, d.scale);
    CentBound(d.coeff, Pow10(2 - d.scale), Pow10(d.scale));
    assert a.base >= 0 && a.vat >= 0 && a.total >= 0;
  }

  /** 10.00 + 2.00 against 13.00 is rejected; against 12.00, and at a
      difference of exactly 0.01, it is accepted. */
  lemma ValidateExamples()
    ensures ValidateTriple(Some(Dec(10, 0)), Some(Dec(2, 0)), Some(Dec(13, 0))).Err?
    ensures ValidateTriple(Some(Dec(10, 0)), Some(Dec(2, 0)), Some(Dec(12, 0))) == Ok(Amounts(1000, 200, 1200))
    ensures ValidateTriple(Some(Dec(1000, 2)), Some(Dec(200, 2)), Some(Dec(1201, 2))).Ok?
  {
    RoundExact(1000, 1);
    RoundExact(200, 1);
    RoundExact(1200, 1);
  }

  lemma ZeroProduct(x: int, p: int)
    requires p >= 1 && x * p == 0
    ensures x == 0
  {
  }

  /** Three amounts with at most two decimals, non-negative, whose base and
      VAT add up to the total exactly, are accepted as they are. */
  lemma ExactTripleValidates(b: Dec, v: Dec, t: Dec)
    requires b.scale <= 2 && v.scale <= 2 && t.scale <= 2
    requires b.coeff >= 0 && v.coeff >= 0 && t.coeff >= 0
    requires CentsOf(b) + CentsOf(v) == CentsOf(t)
    ensures ValidateTriple(Some(b), Some(v), Some(t)) == Ok(Amounts(CentsOf(b), CentsOf(v), CentsOf(t)))
  {
    var d := Sub(Add(b, v), t);
    CentsOfAdd(b, v);
    CentsOfAdd(Add(b, v), Negate(t));
    CentsOfNegate(t);
    assert CentsOf(d) == 0;
    ZeroProduct(d.coeff, Pow10(2 - d.scale));
    QuantizeCentPrecise(b);
    QuantizeCentPrecise(v);
    QuantizeCentPrecise(t);
  }

  /** After a base edit the derived fields read back as the cents computed. */
  lemma BaseEditReadBack(f: AmountFields, b: Dec, rate: Dec, hasFocus: bool)
    requires ParseDecimal(f.base) == Some(b) && b.coeff >= 0
    ensures AfterBaseEdit(f, rate, hasFocus).base == f.base
    ensures ParseDecimal(AfterBaseEdit(f, rate, hasFocus).vat) == Some(Cents(VatFromBase(b, rate)))
    ensures ParseDecimal(AfterBaseEdit(f, rate, hasFocus).total)
      == Some(Cents(TotalFromBase(b, VatFromBase(b, rate))))
  {
    ParseFormatCents(VatFromBase(b, rate));
    ParseFormatCents(TotalFromBase(b, VatFromBase(b, rate)));
  }

  /** After a VAT edit the derived fields read back as the cents computed. */
  lemma VatEditReadBack(f: AmountFields, v: Dec, rate: Dec, hasFocus: bool)
    requires ParseDecimal(f.vat) == Some(v) && v.coeff >= 0 && rate.coeff > 0
    ensures AfterVatEdit(f, rate, hasFocus).vat == f.vat
    ensures ParseDecimal(AfterVatEdit(f, rate, hasFocus).base) == Some(Cents(BaseFromVat(v, rate)))
    ensures ParseDecimal(AfterVatEdit(f, rate, hasFocus).total)
      == Some(Cents(TotalFromVat(BaseFromVat(v, rate), v)))
  {
    ParseFormatCents(BaseFromVat(v, rate));
    ParseFormatCents(TotalFromVat(BaseFromVat(v, rate), v));
  }

  /** After a total edit the derived fields read back as the cents computed. */
  lemma TotalEditReadBack(f: AmountFields, t: Dec, rate: Dec, hasFocus: bool)
    requires ParseDecimal(f.total) == Some(t) && t.coeff >= 0 && rate.coeff >= 0
    ensures AfterTotalEdit(f, rate, hasFocus).total == f.total
    ensures ParseDecimal(AfterTotalEdit(f, rate, hasFocus).base) == Some(Cents(BaseFromTotal(t, rate)))
    ensures ParseDecimal(AfterTotalEdit(f, rate, hasFocus).vat)
      == Some(Cents(VatFromTotal(t, BaseFromTotal(t, rate))))
  {
    ParseFormatCents(BaseFromTotal(t, rate));
    ParseFormatCents(VatFromTotal(t, BaseFromTotal(t, rate)));
  }

  /** When the edited amount is missing, unreadable or negative and no widget
      has focus, the other two fields are emptied and the form is rejected. */
  lemma ClearedFormIsRejected(f: AmountFields, rate: Dec)
    requires ParseDecimal(f.base).None? || ParseDecimal(f.base).value.coeff < 0
    ensures AfterBaseEdit(f, rate, false) == f.(vat := "", total := "")
    ensures ValidateFields(AfterBaseEdit(f, rate, false)).Err?
  {
  }

  /** The same for the VAT handler: a missing or negative VAT, or a rate that
      is not positive, with no widget focused, empties base and total, and
      the form is rejected. */
  lemma ClearedAfterVatIsRejected(f: AmountFields, rate: Dec)
    requires ParseDecimal(f.vat).None? || ParseDecimal(f.vat).value.coeff < 0 || rate.coeff <= 0
    ensures AfterVatEdit(f, rate, false) == f.(base := "", total := "")
    ensures ValidateFields(AfterVatEdit(f, rate, false)).Err?
  {
  }

  /** The same for the total handler. */
  lemma ClearedAfterTotalIsRejected(f: AmountFields, rate: Dec)
    requires ParseDecimal(f.total).None? || ParseDecimal(f.total).value.coeff < 0 || OnePlusRate(rate) <= 0
    ensures AfterTotalEdit(f, rate, false) == f.(base := "", vat := "")
    ensures ValidateFields(AfterTotalEdit(f, rate, false)).Err?
  {
  }
}
