/** Decimal digit strings: their value, and fixed-width rendering of a natural number. */
module Digits {

  predicate IsDigit(c: char) {
    '0' <= c <= '9'
  }

  predicate AllDigits(s: string) {
    forall k :: 0 <= k < |s| ==> IsDigit(s[k])
  }

  function DigitValue(c: char): (d: nat)
    requires IsDigit(c)
    ensures d < 10
  {
    c as int - '0' as int
  }

  function DigitChar(d: nat): (c: char)
    requires d < 10
    ensures IsDigit(c) && DigitValue(c) == d
  {
    ('0' as int + d) as char
  }

  function Pow10(n: nat): (p: nat)
    ensures p >= 1
  {
    if n == 0 then 1 else 10 * Pow10(n - 1)
  }

  /** The number a string of decimal digits denotes, most significant digit first. */
  function ValueOf(s: string): (v: nat)
    requires AllDigits(s)
    ensures v < Pow10(|s|)
  {
    if s == [] then 0 else 10 * ValueOf(s[..|s| - 1]) + DigitValue(s[|s| - 1])
  }

  /** The last `width` decimal digits of `n`, zero-padded on the left. */
  function Fixed(n: nat, width: nat): (s: string)
    ensures |s| == width && AllDigits(s)
    ensures ValueOf(s) == n % Pow10(width)
  {
    if width == 0 then []
    else
      var s := Fixed(n / 10, width - 1) + [DigitChar(n % 10)];
      assert s[..width - 1] == Fixed(n / 10, width - 1);
      LastDigits(n, Pow10(width - 1));
      s
  }

  /** Dropping the last digit of `n` and keeping the last `P` values of the rest, then
      putting the digit back, keeps the last `10 * P` values of `n`. */
  lemma LastDigits(n: nat, p: nat)
    requires p >= 1
    ensures 10 * ((n / 10) % p) + n % 10 == n % (10 * p)
  {
    var q := n / 10;
    var a, b := q / p, q % p;
    assert n == 10 * q + n % 10;
    assert q == p * a + b;
    assert n == (10 * p) * a + (10 * b + n % 10);
    ModUnique(n, 10 * p, a, 10 * b + n % 10);
  }

  lemma ModUnique(n: int, d: int, q: int, r: int)
    requires d > 0 && 0 <= r < d && n == d * q + r
    ensures n % d == r && n / d == q
  {
    var q', r' := n / d, n % d;
    assert n == d * q' + r';
    if q' > q {
      assert d * q' >= d * (q + 1) by { MulMono(d, q + 1, q'); }
    } else if q' < q {
      assert d * q >= d * (q' + 1) by { MulMono(d, q' + 1, q); }
    }
  }

  lemma MulMono(d: int, x: int, y: int)
    requires d > 0 && x <= y
    ensures d * x <= d * y
  {
    assert d * y == d * x + d * (y - x);
  }

  /** Rendering the value of a digit string at its own width gives the string back. */
  lemma {:induction false} FixedOfValue(s: string)
    requires AllDigits(s)
    ensures Fixed(ValueOf(s), |s|) == s
  {
    if s != [] {
      var t, c := s[..|s| - 1], s[|s| - 1];
      var v := ValueOf(t);
      var n := 10 * v + DigitValue(c);
      assert ValueOf(s) == n;
      ModUnique(n, 10, v, DigitValue(c));
      FixedOfValue(t);
      assert Fixed(n, |s|) == Fixed(v, |t|) + [DigitChar(DigitValue(c))];
      assert s == t + [c];
    }
  }

  /** The number of decimal digits of `n`, at least one. */
  function NumDigits(n: nat): (w: nat)
    ensures w >= 1 && n < Pow10(w)
  {
    if n < 10 then 1 else 1 + NumDigits(n / 10)
  }

  lemma Pow10Monotone(a: nat, b: nat)
    requires a <= b
    ensures Pow10(a) <= Pow10(b)
  {
    if a < b { Pow10Monotone(a, b - 1); }
  }

  /** A number below `10^width` is rendered at that width without loss. */
  lemma FixedValue(n: nat, width: nat)
    requires n < Pow10(width)
    ensures ValueOf(Fixed(n, width)) == n
  {
    ModUnique(n, Pow10(width), 0, n);
  }
}
