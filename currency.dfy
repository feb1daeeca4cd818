/**
 * The currency codec of `gamba_bot/utils/currency.py`: a decimal amount of
 * credits becomes a whole number of cents (minor units) by fixed-point
 * rounding, and a number of cents is shown as text with two decimals.
 */
module Currency {
  import opened Wrappers
  import opened Text

  /** A decimal number `mantissa / 10^places`, the way Python's `Decimal` holds it. */
  datatype Decimal = Decimal(mantissa: int, places: nat)

  /** The `ValueError("Stake must be greater than zero.")` of the parser. */
  datatype CurrencyError = StakeNotPositive

  /** `a <= b` as numbers, whatever the number of places of each. */
  predicate AtMost(a: Decimal, b: Decimal) {
    a.mantissa * Pow10(b.places) <= b.mantissa * Pow10(a.places)
  }

  lemma MulLeft(k: int, x: int, y: int)
    requires k >= 0 && x <= y
    ensures k * x <= k * y
  {
  }

  lemma {:induction false} HalfUpBounds(m: nat, unit: nat)
    requires unit >= 1
    ensures var q := (2 * m + unit) / (2 * unit);
      q >= 0 && (2 * q - 1) * unit <= 2 * m < (2 * q + 1) * unit
  {
    var q := (2 * m + unit) / (2 * unit);
    var r := (2 * m + unit) % (2 * unit);
    assert 2 * m + unit == q * (2 * unit) + r && 0 <= r < 2 * unit;
    assert (2 * q - 1) * unit == q * (2 * unit) - unit;
    assert (2 * q + 1) * unit == q * (2 * unit) + unit;
  }

  /**
   * Python's ROUND_HALF_UP to a whole number: the nearest integer, with a
   * value exactly halfway between two integers going away from zero.
   */
  function RoundHalfUp(d: Decimal): (n: int)
    ensures d.mantissa >= 0 ==>
              n >= 0 && (2 * n - 1) * Pow10(d.places) <= 2 * d.mantissa < (2 * n + 1) * Pow10(d.places)
    ensures d.mantissa < 0 ==>
              n <= 0 && (2 * n - 1) * Pow10(d.places) < 2 * d.mantissa <= (2 * n + 1) * Pow10(d.places)
  {
    var unit := Pow10(d.places);
    if d.mantissa >= 0 then
      HalfUpBounds(d.mantissa, unit);
      (2 * d.mantissa + unit) / (2 * unit)
    else
      HalfUpBounds(-d.mantissa, unit);
      -((2 * -d.mantissa + unit) / (2 * unit))
  }

  /** `amount.quantize(Decimal("0.01"), rounding=ROUND_HALF_UP)`: the nearest hundredth. */
  function Quantize(amount: Decimal): (q: Decimal)
    ensures q.places == 2
    ensures amount.mantissa >= 0 ==>
              q.mantissa >= 0 &&
              (2 * q.mantissa - 1) * Pow10(amount.places) <= 200 * amount.mantissa < (2 * q.mantissa + 1) * Pow10(amount.places)
    ensures amount.mantissa < 0 ==>
              q.mantissa <= 0 &&
              (2 * q.mantissa - 1) * Pow10(amount.places) < 200 * amount.mantissa <= (2 * q.mantissa + 1) * Pow10(amount.places)
  {
    Decimal(RoundHalfUp(Decimal(100 * amount.mantissa, amount.places)), 2)
  }

  /** `int((value * 100).to_integral_value(rounding=ROUND_HALF_UP))`: the nearest whole number of hundredths. */
  function ScaleToCents(value: Decimal): (n: int)
    ensures value.mantissa >= 0 ==>
              n >= 0 && (2 * n - 1) * Pow10(value.places) <= 200 * value.mantissa < (2 * n + 1) * Pow10(value.places)
    ensures value.mantissa < 0 ==>
              n <= 0 && (2 * n - 1) * Pow10(value.places) < 200 * value.mantissa <= (2 * n + 1) * Pow10(value.places)
  {
    RoundHalfUp(Decimal(value.mantissa * 100, value.places))
  }

  /** Once the amount has been quantized to hundredths, scaling it by 100 needs no rounding. */
  lemma ScaleToCentsIsExact(value: Decimal)
    requires value.places == 2
    ensures ScaleToCents(value) == value.mantissa
  {
    assert Pow10(2) == 100;
    var n := ScaleToCents(value);
    if value.mantissa >= 0 {
      assert (2 * n - 1) * 100 <= 200 * value.mantissa < (2 * n + 1) * 100;
    } else {
      assert (2 * n - 1) * 100 < 200 * value.mantissa <= (2 * n + 1) * 100;
    }
  }

  /**
   * `parse_credits_to_cents`: the number of cents nearest to the amount
   * (half a cent rounds up), refused when that is not at least one cent.
   */
  function ParseCreditsToCents(amount: Decimal): (r: Result<int, CurrencyError>)
    ensures r.Success? ==> r.value >= 1
    ensures r.Success? ==>
      (2 * r.value - 1) * Pow10(amount.places) <= 200 * amount.mantissa < (2 * r.value + 1) * Pow10(amount.places)
    ensures r.Failure? <==> 200 * amount.mantissa < Pow10(amount.places)
  {
    var value := Quantize(amount);
    ScaleToCentsIsExact(value);
    QuantizedCents(amount);
    var cents := ScaleToCents(value);
    if cents <= 0 then Failure(StakeNotPositive) else Success(cents)
  }

  /** The quantized amount is a positive number of hundredths exactly when the amount is at least half a cent. */
  lemma QuantizedCents(amount: Decimal)
    ensures var c := Quantize(amount).mantissa;
      && (c >= 1 ==> (2 * c - 1) * Pow10(amount.places) <= 200 * amount.mantissa < (2 * c + 1) * Pow10(amount.places))
      && (c >= 1 <==> 200 * amount.mantissa >= Pow10(amount.places))
  {
    var c, unit := Quantize(amount).mantissa, Pow10(amount.places);
    if amount.mantissa >= 0 {
      if c >= 1 {
        MulLeft(unit, 1, 2 * c - 1);
        assert unit * (2 * c - 1) == (2 * c - 1) * unit;
      } else {
        assert c == 0;
        assert (2 * c + 1) * unit == unit;
      }
    }
  }

  /** Parsing never decreases when the amount grows. */
  lemma ParseCreditsToCentsMonotone(a: Decimal, b: Decimal)
    requires AtMost(a, b)
    requires ParseCreditsToCents(a).Success?
    ensures ParseCreditsToCents(b).Success?
    ensures ParseCreditsToCents(a).value <= ParseCreditsToCents(b).value
  {
    var ua, ub := Pow10(a.places), Pow10(b.places);
    var ca := ParseCreditsToCents(a).value;
    HalfCentScales(a.mantissa, ua, b.mantissa, ub);
    var cb := ParseCreditsToCents(b).value;
    NearestCentsOrdered(a.mantissa, ua, ca, b.mantissa, ub, cb);
  }

  lemma HalfCentScales(ma: int, ua: int, mb: int, ub: int)
    requires ua >= 1 && ub >= 1
    requires ma * ub <= mb * ua
    requires 200 * ma >= ua
    ensures 200 * mb >= ub
  {
    MulLeft(200, ma * ub, mb * ua);
    MulLeft(ub, ua, 200 * ma);
    if 200 * mb < ub {
      MulLeft(ua, 200 * mb + 1, ub);
      assert false;
    }
  }

  lemma NearestCentsOrdered(ma: int, ua: int, ca: int, mb: int, ub: int, cb: int)
    requires ua >= 1 && ub >= 1
    requires ma * ub <= mb * ua
    requires (2 * ca - 1) * ua <= 200 * ma
    requires 200 * mb < (2 * cb + 1) * ub
    ensures ca <= cb
  {
    if ca > cb {
      MulLeft(ua * ub, 2 * cb + 1, 2 * ca - 1);
      MulLeft(ub, (2 * ca - 1) * ua, 200 * ma);
      MulLeft(200, ma * ub, mb * ua);
      MulLeft(ua, 200 * mb + 1, (2 * cb + 1) * ub);
      assert false;
    }
  }

  /** `format_cents`: the amount in credits with exactly two decimals, `-` first when negative. */
  function FormatCents(cents: int): (s: string)
    ensures |s| >= 4 && s[|s| - 3] == '.' && AllDigits(s[|s| - 2..])
    ensures s[0] == '-' <==> cents < 0
    ensures AllDigits(if cents < 0 then s[1..|s| - 3] else s[..|s| - 3])
    ensures var m := if cents < 0 then s[1..] else s; |m| >= 4 && (m[0] == '0' ==> |m| == 4)
  {
    if cents < 0 then "-" + MagnitudeText(-cents) else MagnitudeText(cents)
  }

  /** A non-negative number of cents as `<whole credits>.<two digits>`. */
  function MagnitudeText(magnitude: nat): (s: string)
    ensures |s| >= 4 && s[|s| - 3] == '.' && AllDigits(s[|s| - 2..]) && AllDigits(s[..|s| - 3])
    ensures s[0] == '0' ==> |s| == 4
  {
    NatToText(magnitude / 100) + "." + [DigitChar(magnitude % 100 / 10), DigitChar(magnitude % 10)]
  }

  /** The unsigned fixed-point text `Decimal` reads: digits and at most one dot, with at least one digit. */
  predicate UnsignedText(s: string) {
    && (forall i :: 0 <= i < |s| ==> IsDigit(s[i]) || s[i] == '.')
    && (forall i, j :: 0 <= i < j < |s| && s[i] == '.' ==> s[j] != '.')
    && (exists i :: 0 <= i < |s| && IsDigit(s[i]))
  }

  /**
   * Python's `Decimal(text)` for fixed-point literals: an optional `-`, then
   * digits with at most one `.` among them and at least one digit. Any
   * other text (a `+`, an exponent, spaces, `inf`, `nan`) is refused here.
   */
  function ParseDecimal(s: string): (r: Option<Decimal>)
    ensures r.Some? <==> if |s| > 0 && s[0] == '-' then UnsignedText(s[1..]) else UnsignedText(s)
    ensures r.Some? ==> forall i :: 0 <= i < |s| ==> IsDigit(s[i]) || s[i] == '.' || (i == 0 && s[i] == '-')
    ensures r.Some? ==> |s| > 0
    ensures r.Some? && s[0] == '-' ==> r.value.mantissa <= 0
    ensures r.Some? && s[0] != '-' ==> r.value.mantissa >= 0
  {
    if |s| > 0 && s[0] == '-' then Negated(ParseUnsignedDecimal(s[1..])) else ParseUnsignedDecimal(s)
  }

  /** The leading `-`: the same digits and places with the opposite sign; refused text stays refused. */
  function Negated(o: Option<Decimal>): (r: Option<Decimal>)
    ensures r.Some? <==> o.Some?
    ensures o.Some? ==> r.value.places == o.value.places && r.value.mantissa + o.value.mantissa == 0
  {
    match o
    case Some(d) => Some(Decimal(-d.mantissa, d.places))
    case None => None
  }

  /**
   * The unsigned part: digits with at most one `.`, and at least one digit.
   * The value is the digits read without the dot, over as many places as
   * follow the dot.
   */
  function ParseUnsignedDecimal(s: string): (r: Option<Decimal>)
    ensures r.Some? <==> UnsignedText(s)
    ensures r.Some? ==> r.value.mantissa >= 0 && r.value.places < |s|
    ensures r.Some? ==> forall i :: 0 <= i < |s| ==> IsDigit(s[i]) || s[i] == '.'
    ensures r.Some? ==> forall i, j :: 0 <= i < j < |s| && s[i] == '.' ==> s[j] != '.'
    ensures AllDigits(s) && |s| > 0 ==> r == Some(Decimal(DigitsValue(s), 0))
  {
    var dot := IndexOf(s, '.');
    var whole := s[..dot];
    var fraction := if dot < |s| then s[dot + 1..] else "";
    if AllDigits(whole) && AllDigits(fraction) && |whole| + |fraction| > 0 then
      DigitsValueAppend(whole, fraction);
      UnsignedShape(s, dot, whole, fraction);
      Some(Decimal(DigitsValue(whole + fraction), |fraction|))
    else
      assert AllDigits(s) && |s| > 0 ==> dot == |s| && whole == s;
      UnsignedTextSplits(s, dot, whole, fraction);
      None
  }

  /** Text split at its first dot into two digit strings holds digits and that one dot only. */
  lemma UnsignedShape(s: string, dot: nat, whole: string, fraction: string)
    requires dot <= |s| && whole == s[..dot] && fraction == (if dot < |s| then s[dot + 1..] else "")
    requires dot < |s| ==> s[dot] == '.'
    requires AllDigits(whole) && AllDigits(fraction)
    ensures forall i :: 0 <= i < |s| ==> IsDigit(s[i]) || s[i] == '.'
    ensures forall i, j :: 0 <= i < j < |s| && s[i] == '.' ==> s[j] != '.'
    ensures |fraction| < |s| || |s| == 0
    ensures AllDigits(s) ==> dot == |s| && whole + fraction == s
    ensures |whole| + |fraction| > 0 ==> exists i :: 0 <= i < |s| && IsDigit(s[i])
  {
    assert forall i :: 0 <= i < dot ==> s[i] == whole[i];
    assert forall k :: dot < k < |s| ==> s[k] == fraction[k - dot - 1];
    if AllDigits(s) {
      assert whole + fraction == s;
    }
    if |whole| > 0 {
      assert IsDigit(s[0]);
    } else if |fraction| > 0 {
      assert IsDigit(s[dot + 1]);
    }
  }

  /** Text `Decimal` reads splits at its first dot into two digit strings, not both empty. */
  lemma UnsignedTextSplits(s: string, dot: nat, whole: string, fraction: string)
    requires dot == IndexOf(s, '.') && whole == s[..dot] && fraction == (if dot < |s| then s[dot + 1..] else "")
    ensures UnsignedText(s) ==> AllDigits(whole) && AllDigits(fraction) && |whole| + |fraction| > 0
  {
    if UnsignedText(s) {
      assert forall i :: 0 <= i < dot ==> s[i] == whole[i] && s[i] != '.';
      assert forall k :: dot < k < |s| ==> s[k] == fraction[k - dot - 1] && s[k] != '.';
      var i :| 0 <= i < |s| && IsDigit(s[i]);
      assert i < dot || dot < i;
    }
  }

  lemma TwoDigitsValue(magnitude: nat)
    ensures var fraction := [DigitChar(magnitude % 100 / 10), DigitChar(magnitude % 10)];
      AllDigits(fraction) && DigitsValue(fraction) == magnitude % 100
  {
    var fraction := [DigitChar(magnitude % 100 / 10), DigitChar(magnitude % 10)];
    var first := fraction[..1];
    assert first == [DigitChar(magnitude % 100 / 10)];
    assert first[..0] == [];
    assert DigitsValue(first) == magnitude % 100 / 10;
    assert fraction[..|fraction| - 1] == first;
  }

  lemma MagnitudeTextReadsBack(magnitude: nat)
    ensures ParseUnsignedDecimal(MagnitudeText(magnitude)) == Some(Decimal(magnitude, 2))
  {
    var whole := NatToText(magnitude / 100);
    var fraction := [DigitChar(magnitude % 100 / 10), DigitChar(magnitude % 10)];
    assert MagnitudeText(magnitude) == whole + "." + fraction;
    MagnitudeDigits(magnitude);
    DotSplits(whole, fraction);
  }

  /** The digits of the whole credits followed by the two decimals denote the number of cents. */
  lemma MagnitudeDigits(magnitude: nat)
    ensures var digits := NatToText(magnitude / 100) + [DigitChar(magnitude % 100 / 10), DigitChar(magnitude % 10)];
      AllDigits(digits) && DigitsValue(digits) == magnitude
  {
    var whole := NatToText(magnitude / 100);
    var fraction := [DigitChar(magnitude % 100 / 10), DigitChar(magnitude % 10)];
    TwoDigitsValue(magnitude);
    DigitsValueAppend(whole, fraction);
    NatToTextRoundTrip(magnitude / 100);
    assert Pow10(|fraction|) == 100;
  }

  /** Digits, a dot and digits read back as the two digit strings put together, scaled by the second's length. */
  lemma DotSplits(whole: string, fraction: string)
    requires AllDigits(whole) && AllDigits(fraction) && |whole| + |fraction| > 0
    ensures AllDigits(whole + fraction)
    ensures ParseUnsignedDecimal(whole + "." + fraction) == Some(Decimal(DigitsValue(whole + fraction), |fraction|))
  {
    var text := whole + "." + fraction;
    var dot := IndexOf(text, '.');
    assert text[|whole|] == '.';
    assert dot == |whole|;
    assert text[..dot] == whole;
    assert text[dot + 1..] == fraction;
    DigitsValueAppend(whole, fraction);
  }

  /** The text `format_cents` writes reads back as exactly that many hundredths. */
  lemma FormatCentsReadsBack(cents: int)
    ensures ParseDecimal(FormatCents(cents)) == Some(Decimal(cents, 2))
  {
    var magnitude: nat := if cents < 0 then -cents else cents;
    var text := MagnitudeText(magnitude);
    MagnitudeTextReadsBack(magnitude);
    if cents < 0 {
      SignedTextReadsBack(text);
    } else {
      assert text[0] != '-' by {
        assert IsDigit(text[..|text| - 3][0]);
      }
    }
  }

  /** A leading `-` negates what the rest of the text reads as. */
  lemma SignedTextReadsBack(text: string)
    ensures ParseDecimal("-" + text) == Negated(ParseUnsignedDecimal(text))
  {
    var signed := "-" + text;
    assert signed[1..] == text;
  }

  /** Round trip: for every positive number of cents, parsing its display text gives it back. */
  lemma ParseFormattedCents(cents: int)
    requires cents >= 1
    ensures ParseDecimal(FormatCents(cents)).Some?
    ensures ParseCreditsToCents(ParseDecimal(FormatCents(cents)).value) == Success(cents)
  {
    FormatCentsReadsBack(cents);
    ParseWholeCents(cents);
  }

  /** An amount already in whole cents parses to exactly that many cents. */
  lemma ParseWholeCents(cents: int)
    requires cents >= 1
    ensures ParseCreditsToCents(Decimal(cents, 2)) == Success(cents)
  {
    var value := Quantize(Decimal(cents, 2));
    assert value == Decimal(RoundHalfUp(Decimal(100 * cents, 2)), 2);
    ScaleToCentsIsExact(Decimal(cents, 2));
    assert ScaleToCents(Decimal(cents, 2)) == RoundHalfUp(Decimal(100 * cents, 2));
    ScaleToCentsIsExact(value);
  }
}
