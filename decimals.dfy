/**
 * Exact decimal numbers standing for the floats of `float(text)`, the parser from
 * text, the canonical text of a number (what `str()` gives back), and truncation
 * toward zero (what `int()` does to a float).
 */
module Decimals {
  import opened Wrappers
  import opened Text
  import opened Digits

  /** The number `mantissa / 10^scale`. */
  datatype Decimal = Decimal(mantissa: int, scale: nat)

  function Abs(x: int): nat {
    if x < 0 then -x else x
  }

  /** A character that can appear in a numeral `ParseDecimal` accepts. */
  predicate NumeralChar(s: string, k: int)
    requires 0 <= k < |s|
  {
    IsDigit(s[k]) || s[k] == '.' || (k == 0 && (s[k] == '+' || s[k] == '-'))
  }

  /** The shape of an unsigned numeral: only digits and points, at least one digit, and
      never a second point. */
  predicate PlainUnsigned(body: string) {
    (forall k :: 0 <= k < |body| ==> IsDigit(body[k]) || body[k] == '.')
    && (exists k :: 0 <= k < |body| && IsDigit(body[k]))
    && (forall i, j :: 0 <= i < j < |body| && body[i] == '.' ==> body[j] != '.')
  }

  /** The shape of a numeral: an optional `+` or `-`, then an unsigned numeral. */
  predicate PlainNumeral(s: string) {
    if s != [] && (s[0] == '+' || s[0] == '-') then PlainUnsigned(s[1..]) else PlainUnsigned(s)
  }

  /** The unsigned part of a numeral: digits with at most one decimal point and at
      least one digit; the digits after the point give the scale. */
  function ParseUnsigned(body: string): (r: Option<Decimal>)
    ensures r.Some? ==> r.value.mantissa >= 0
    ensures r.Some? ==> forall k :: 0 <= k < |body| ==> IsDigit(body[k]) || body[k] == '.'
    ensures r.Some? ==> exists k :: 0 <= k < |body| && IsDigit(body[k])
  {
    match FirstIndex(body, '.')
    case None =>
      if body != [] && AllDigits(body) then
        assert IsDigit(body[0]);
        Some(Decimal(ValueOf(body), 0))
      else None
    case Some(k) =>
      var whole, fraction := body[..k], body[k + 1..];
      if AllDigits(whole) && AllDigits(fraction) && |whole| + |fraction| > 0 then
        var digits := whole + fraction;
        assert AllDigits(digits);
        assert forall j :: 0 <= j < |body| && j != k ==> IsDigit(body[j]) by {
          forall j | 0 <= j < |body| && j != k ensures IsDigit(body[j]) {
            if j < k { assert body[j] == whole[j]; } else { assert body[j] == fraction[j - k - 1]; }
          }
        }
        assert IsDigit(body[if whole != [] then 0 else k + 1]);
        Some(Decimal(ValueOf(digits), |fraction|))
      else None
  }

  /** `ParseUnsigned` succeeds exactly on the unsigned numerals. */
  lemma ParseUnsignedShape(body: string)
    ensures ParseUnsigned(body).Some? <==> PlainUnsigned(body)
  {
    match FirstIndex(body, '.')
    case None =>
      if PlainUnsigned(body) {
        assert AllDigits(body);
      }
    case Some(k) =>
      if PlainUnsigned(body) {
        PointedShape(body, k);
      }
      if ParseUnsigned(body).Some? {
        assert AllDigits(body[..k]) && AllDigits(body[k + 1..]);
        PointedPlain(body, k);
      }
  }

  /** Digits around a single point at `k`, at least one of them, form a numeral. */
  lemma PointedPlain(body: string, k: nat)
    requires k < |body| && body[k] == '.' && |body| > 1
    requires AllDigits(body[..k]) && AllDigits(body[k + 1..])
    ensures PlainUnsigned(body)
  {
    forall j | 0 <= j < |body| && j != k ensures IsDigit(body[j]) {
      DigitBesidePoint(body, k, j);
    }
    assert IsDigit(body[if k > 0 then 0 else 1]);
  }

  /** When the digits before and after position `k` are all digits, so is every
      character other than the one at `k`. */
  lemma DigitBesidePoint(body: string, k: nat, j: nat)
    requires k < |body| && AllDigits(body[..k]) && AllDigits(body[k + 1..])
    requires j < |body| && j != k
    ensures IsDigit(body[j])
  {
    if j < k { assert body[j] == body[..k][j]; } else { assert body[j] == body[k + 1..][j - k - 1]; }
  }

  /** In a numeral with its point at `k`, every other character is a digit. */
  lemma PointedShape(body: string, k: nat)
    requires k < |body| && body[k] == '.' && PlainUnsigned(body)
    ensures AllDigits(body[..k]) && AllDigits(body[k + 1..]) && |body| > 1
  {
    forall j | 0 <= j < |body| && j != k ensures IsDigit(body[j]) {
      if j < k {
        assert body[j] != '.';
      } else {
        assert body[k] == '.';
      }
    }
    var m :| 0 <= m < |body| && IsDigit(body[m]);
    assert m != k;
  }

  /** `float(s)` on an already stripped string, for the plain decimal numerals: an optional
      `+` or `-`, then digits with at most one decimal point and at least one digit. Every
      other string (the empty one included) raises, which is `None` here. */
  function ParseDecimal(s: string): (r: Option<Decimal>)
    ensures r.Some? <==> PlainNumeral(s)
    ensures r.Some? ==> forall k :: 0 <= k < |s| ==> NumeralChar(s, k)
    ensures r.Some? ==> exists k :: 0 <= k < |s| && IsDigit(s[k])
  {
    if s != [] && (s[0] == '+' || s[0] == '-') then
      var body := s[1..];
      ParseUnsignedShape(body);
      assert forall k :: 0 <= k < |body| ==> body[k] == s[k + 1];
      match ParseUnsigned(body)
      case None => None
      case Some(u) => Some(Decimal(if s[0] == '-' then -u.mantissa else u.mantissa, u.scale))
    else
      ParseUnsignedShape(s);
      ParseUnsigned(s)
  }

  function Max(a: nat, b: nat): nat {
    if a < b then b else a
  }

  /** The canonical numeral of `n / 10^scale`: the integer digits without leading zeros
      (but at least one), then a point and exactly `scale` fraction digits if `scale > 0`. */
  function UnsignedText(n: nat, scale: nat): (s: string)
    ensures s != [] && IsDigit(s[0]) && IsDigit(s[|s| - 1])
  {
    var w := Max(scale + 1, NumDigits(n));
    var digits := Fixed(n, w);
    if scale == 0 then digits else digits[..w - scale] + "." + digits[w - scale..]
  }

  /** The canonical numeral of `d`: `-` for a negative mantissa, then the digits. */
  function DecimalText(d: Decimal): (s: string)
    ensures s != [] && !IsSpace(s[0]) && IsDigit(s[|s| - 1])
  {
    (if d.mantissa < 0 then "-" else "") + UnsignedText(Abs(d.mantissa), d.scale)
  }

  lemma ParseUnsignedText(n: nat, scale: nat)
    ensures ParseUnsigned(UnsignedText(n, scale)) == Some(Decimal(n, scale))
  {
    var w := Max(scale + 1, NumDigits(n));
    Pow10Monotone(NumDigits(n), w);
    FixedValue(n, w);
    if scale == 0 {
      ParseWholeText(n, w);
    } else {
      ParsePointedText(n, scale, w);
    }
  }

  lemma ParseWholeText(n: nat, w: nat)
    requires w == Max(1, NumDigits(n)) && ValueOf(Fixed(n, w)) == n
    ensures ParseUnsigned(UnsignedText(n, 0)) == Some(Decimal(n, 0))
  {
    ParseDigits(Fixed(n, w));
  }

  lemma ParsePointedText(n: nat, scale: nat, w: nat)
    requires scale > 0 && w == Max(scale + 1, NumDigits(n)) && ValueOf(Fixed(n, w)) == n
    ensures ParseUnsigned(UnsignedText(n, scale)) == Some(Decimal(n, scale))
  {
    ParsePointedAt(Fixed(n, w), w - scale);
  }

  /** Digits with a point inserted after the first `p` of them parse to their value,
      scaled by the number of digits after the point. */
  lemma ParsePointedAt(digits: string, p: nat)
    requires AllDigits(digits) && 0 < p <= |digits|
    ensures ParseUnsigned(digits[..p] + "." + digits[p..]) == Some(Decimal(ValueOf(digits), |digits| - p))
  {
    var whole, fraction := digits[..p], digits[p..];
    var body := whole + "." + fraction;
    DigitSlices(digits, p);
    assert '.' !in whole;
    FirstIndexAfter(whole, '.', fraction);
    assert body[..p] == whole && body[p + 1..] == fraction;
    ParseUnsignedAt(body, p);
  }

  /** The first point at `k` with digits on both sides, at least one of them. */
  lemma ParseUnsignedAt(body: string, k: nat)
    requires FirstIndex(body, '.') == Some(k) && |body| > 1
    requires AllDigits(body[..k]) && AllDigits(body[k + 1..])
    ensures ParseUnsigned(body) == Some(Decimal(ValueOf(body[..k] + body[k + 1..]), |body| - k - 1))
  {
  }

  lemma DigitSlices(digits: string, p: nat)
    requires AllDigits(digits) && p <= |digits|
    ensures AllDigits(digits[..p]) && AllDigits(digits[p..]) && digits[..p] + digits[p..] == digits
  {
  }

  lemma ParseDigits(digits: string)
    requires digits != [] && AllDigits(digits)
    ensures ParseUnsigned(digits) == Some(Decimal(ValueOf(digits), 0))
  {
    assert '.' !in digits;
  }

  /** Parsing the canonical numeral of a number gives the number back. */
  lemma ParseDecimalText(d: Decimal)
    ensures ParseDecimal(DecimalText(d)) == Some(d)
  {
    ParseUnsignedText(Abs(d.mantissa), d.scale);
    if d.mantissa < 0 {
      ParseNegativeText(d);
    } else {
      var body := UnsignedText(Abs(d.mantissa), d.scale);
      assert DecimalText(d) == body;
      ParseNonNegative(body);
    }
  }

  lemma ParseNegativeText(d: Decimal)
    requires d.mantissa < 0
    requires ParseUnsigned(UnsignedText(Abs(d.mantissa), d.scale)) == Some(Decimal(Abs(d.mantissa), d.scale))
    ensures ParseDecimal(DecimalText(d)) == Some(d)
  {
    var body := UnsignedText(Abs(d.mantissa), d.scale);
    assert DecimalText(d) == "-" + body;
    ParseNegative(body);
    assert -(Abs(d.mantissa) as int) == d.mantissa;
  }

  lemma ParseNegative(body: string)
    ensures ParseDecimal("-" + body) ==
      match ParseUnsigned(body)
      case None => None
      case Some(u) => Some(Decimal(-u.mantissa, u.scale))
  {
    assert ("-" + body)[1..] == body;
  }

  /** A leading `+` is accepted and changes nothing: "+1" is 1. */
  lemma ParsePositive(body: string)
    ensures ParseDecimal("+" + body) == ParseUnsigned(body)
  {
    assert ("+" + body)[1..] == body;
  }

  /** The integer part may be empty: ".5" is 5 / 10. */
  lemma ParseLeadingPoint(fraction: string)
    requires fraction != [] && AllDigits(fraction)
    ensures ParseDecimal("." + fraction) == Some(Decimal(ValueOf(fraction), |fraction|))
  {
    assert ("." + fraction)[0] == '.';
    ParseUnsignedLeadingPoint(fraction);
  }

  lemma ParseUnsignedLeadingPoint(fraction: string)
    requires fraction != [] && AllDigits(fraction)
    ensures ParseUnsigned("." + fraction) == Some(Decimal(ValueOf(fraction), |fraction|))
  {
    var s := "." + fraction;
    FirstIndexAfter([], '.', fraction);
    assert [] + ['.'] + fraction == s;
    assert s[..0] == [] && s[1..] == fraction;
    assert s[..0] + s[1..] == fraction;
    ParseUnsignedAt(s, 0);
  }

  /** A second decimal point makes the parse fail: "1.2.3" does not parse. */
  lemma ParseRejectsSecondPoint(s: string, i: nat, j: nat)
    requires i < j < |s| && s[i] == '.' && s[j] == '.'
    ensures ParseDecimal(s) == None
  {
    if s[0] == '+' || s[0] == '-' {
      var body := s[1..];
      assert body[i - 1] == '.' && body[j - 1] == '.';
    }
  }

  lemma ParseNonNegative(body: string)
    requires body != [] && IsDigit(body[0])
    ensures ParseDecimal(body) == ParseUnsigned(body)
  {
  }

  /** A string holding a character no numeral has (a letter, a slash, inner whitespace)
      does not parse. */
  lemma ParseRejectsForeign(s: string, k: nat)
    requires k < |s| && !NumeralChar(s, k)
    ensures ParseDecimal(s) == None
  {
  }

  /** `int()` of the number: truncation toward zero, so that the result times `10^scale`
      lies between zero and the mantissa, less than one unit away from it. */
  function Truncate(d: Decimal): (r: int)
    ensures var p := Pow10(d.scale);
      (d.mantissa >= 0 ==> 0 <= r * p <= d.mantissa < (r + 1) * p)
      && (d.mantissa < 0 ==> (r - 1) * p < d.mantissa <= r * p <= 0)
  {
    var p := Pow10(d.scale);
    var q := Abs(d.mantissa) / p;
    TruncateBounds(d.mantissa, p, q);
    if d.mantissa >= 0 then q else -q
  }

  /** The magnitude from which `float()` gives an infinity: 2^1024 - 2^970, halfway between
      the largest finite double and 2^1024, where rounding to nearest-even goes up. */
  const FloatOverflow: nat := 179769313486231580793728971405303415079934132710037826936173778980444968292764750946649017977587207096330286416692887910946555547851940402630657488671505820681908902000708383676273854845817711531764475730270069855571366959622842914819860834936475292719074168444365510704342711559699508093042880177904174497792

  /** `float()` of the number is finite, so `int()` of it does not raise `OverflowError`. */
  predicate InFloatRange(d: Decimal) {
    Abs(d.mantissa) < FloatOverflow * Pow10(d.scale)
  }

  /** Truncation is symmetric about zero: `int(-x) == -int(x)`. With "12.7" truncating
      to 12, "-12.7" truncates to -12. */
  lemma TruncateSymmetric(d: Decimal)
    ensures Truncate(Decimal(-d.mantissa, d.scale)) == -Truncate(d)
  {
    var p := Pow10(d.scale);
    assert Abs(-d.mantissa) == Abs(d.mantissa);
  }

  lemma TruncateBounds(m: int, p: int, q: int)
    requires p >= 1 && q == Abs(m) / p
    ensures m >= 0 ==> 0 <= q * p <= m < (q + 1) * p
    ensures m < 0 ==> (-q - 1) * p < m <= (-q) * p <= 0
  {
    var n := Abs(m);
    assert n == p * q + n % p;
    assert (q + 1) * p == q * p + p;
    assert (-q) * p == -(q * p);
    assert (-q - 1) * p == -((q + 1) * p);
  }
}
