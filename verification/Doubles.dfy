/**
 * IEEE 754 binary64 numbers as bit patterns. `Value` reads a pattern by the rules of section 3.4
 * of IEEE 754-2019; everything after it relates that value to the order of the bits.
 */
module Doubles {

  const TWO_32: int := 0x1_0000_0000
  const SIGN: int := 0x8000_0000
  const HIDDEN: int := 0x10_0000_0000_0000  // 2^52, the weight of the implicit leading bit

  type Word = w: int | 0 <= w < TWO_32

  /** The pattern as a DataView shows it: two unsigned 32-bit words, the high one first. */
  datatype Double = Double(hi: Word, lo: Word) {
    predicate Negative() { hi >= SIGN }
    function Exponent(): int { hi % SIGN / 0x10_0000 }
    function Fraction(): int { hi % 0x10_0000 * TWO_32 + lo }
    predicate NaN() { Exponent() == 2047 && Fraction() != 0 }
    predicate Finite() { Exponent() < 2047 }
    predicate Zero() { Exponent() == 0 && Fraction() == 0 }
  }

  const SMALLEST_EXPONENT := -1074  // the smallest positive double is 2^-1074

  const PLUS_ZERO := Double(0, 0)

  /** The numbers JSON text can carry: finite, and one zero (`JSON.stringify(-0)` is `0`). */
  type JsonNumber = d: Double | d.Finite() && d != Double(SIGN, 0) witness PLUS_ZERO

  // --- the value of a pattern ------------------------------------------------------------------

  function Pow2(e: int): real
    decreases if e < 0 then -e else e
  {
    if e == 0 then 1.0 else if e > 0 then 2.0 * Pow2(e - 1) else Pow2(e + 1) / 2.0
  }

  datatype Extended = NegInfinity | Number(v: real) | PosInfinity

  /** A significand without and with the implicit leading bit, at the scale `p`. */
  function Subnormal(p: real, fraction: int): real { p * (fraction as real / HIDDEN as real) }
  function Normal(p: real, fraction: int): real { p * (1.0 + fraction as real / HIDDEN as real) }

  function Magnitude(d: Double): real
    requires d.Finite()
  {
    if d.Exponent() == 0 then Subnormal(Pow2(d.Exponent() - 1022), d.Fraction())
    else Normal(Pow2(d.Exponent() - 1023), d.Fraction())
  }

  function Value(d: Double): Extended
    requires !d.NaN()
  {
    if !d.Finite() then (if d.Negative() then NegInfinity else PosInfinity)
    else Number(if d.Negative() then -Magnitude(d) else Magnitude(d))
  }

  predicate Less(a: Extended, b: Extended) {
    match (a, b)
    case (Number(x), Number(y)) => x < y
    case (NegInfinity, _) => b != NegInfinity
    case (_, PosInfinity) => a != PosInfinity
    case _ => false
  }

  // --- magnitudes in units of 2^-1074 ----------------------------------------------------------

  function IntPow2(n: nat): (p: int)
    ensures p >= 1
  {
    if n == 0 then 1 else 2 * IntPow2(n - 1)
  }

  /** `s` times the unit `u` */
  function Units(s: int, u: real): real { s as real * u }

  function Scaled(e: nat, f: int): int {
    if e == 0 then f else (HIDDEN + f) * IntPow2(e - 1)
  }

  lemma {:induction false} Pow2Positive(e: int)
    ensures Pow2(e) > 0.0
    decreases if e < 0 then -e else e
  {
    if e > 0 { Pow2Positive(e - 1); } else if e < 0 { Pow2Positive(e + 1); }
  }

  /** 2^(n + e) is 2^n times 2^e, for any sign of e. */
  lemma {:induction false} Pow2Shift(n: nat, e: int)
    ensures Pow2(n + e) == IntPow2(n) as real * Pow2(e)
  {
    if n > 0 {
      Pow2Shift(n - 1, e);
      Pow2Step(n - 1 + e);
      assert IntPow2(n) as real == 2.0 * IntPow2(n - 1) as real;
      calc {
        Pow2(n + e);
        2.0 * Pow2(n - 1 + e);
        2.0 * (IntPow2(n - 1) as real * Pow2(e));
        (2.0 * IntPow2(n - 1) as real) * Pow2(e);
        IntPow2(n) as real * Pow2(e);
      }
    }
  }

  lemma Pow2Step(e: int)
    ensures Pow2(e + 1) == 2.0 * Pow2(e)
  {
  }

  lemma HiddenIsPow2()
    ensures IntPow2(52) == HIDDEN
  {
    assert IntPow2(8) == 256;
    assert IntPow2(16) == 65536;
    assert IntPow2(24) == 0x100_0000;
    assert IntPow2(32) == 0x1_0000_0000;
    assert IntPow2(40) == 0x100_0000_0000;
    assert IntPow2(48) == 0x1_0000_0000_0000;
  }

  lemma ScaledUnit(e: int)
    ensures Pow2(e) == HIDDEN as real * Pow2(e - 52)
  {
    HiddenIsPow2();
    Pow2Shift(52, e - 52);
  }

  lemma RatioLemma(p: real, q: real, h: real, f: real)
    requires h > 0.0 && p == h * q
    ensures p * (f / h) == f * q
    ensures p * (1.0 + f / h) == (h + f) * q
  {
    var r := f / h;
    assert r * h == f;
    calc { p * r; (h * q) * r; (r * h) * q; f * q; }
    assert p * (1.0 + r) == p + p * r;
    assert (h + f) * q == h * q + f * q;
  }

  lemma SubnormalIsScaled(f: int, p: real, u: real)
    requires p == HIDDEN as real * u
    ensures Subnormal(p, f) == Units(Scaled(0, f), u)
  {
    RatioLemma(p, u, HIDDEN as real, f as real);
  }

  lemma NormalIsScaled(e: nat, f: int, p: real, q: real, u: real)
    requires e > 0 && p == HIDDEN as real * q && q == IntPow2(e - 1) as real * u
    ensures Normal(p, f) == Units(Scaled(e, f), u)
  {
    RatioLemma(p, q, HIDDEN as real, f as real);
    RealProduct(HIDDEN + f, IntPow2(e - 1), u);
  }

  /** The formula of the standard is the scaled integer times the smallest positive double. */
  lemma MagnitudeIsScaled(d: Double)
    requires d.Finite()
    ensures Magnitude(d) == Units(Scaled(d.Exponent(), d.Fraction()), Pow2(SMALLEST_EXPONENT))
  {
    hide Pow2, IntPow2;
    var e, f := d.Exponent(), d.Fraction();
    if e == 0 {
      ScaledUnit(SMALLEST_EXPONENT + 52);
      SubnormalIsScaled(f, Pow2(SMALLEST_EXPONENT + 52), Pow2(SMALLEST_EXPONENT));
    } else {
      ScaledUnit(e - 1023);
      Pow2Shift(e - 1, SMALLEST_EXPONENT);
      NormalIsScaled(e, f, Pow2(e - 1023), Pow2(e - 1075), Pow2(SMALLEST_EXPONENT));
    }
  }

  lemma RealProduct(x: int, y: int, u: real)
    ensures x as real * (y as real * u) == (x * y) as real * u
  {
    assert x as real * y as real == (x * y) as real;
  }

  lemma UnitsOrder(s: int, s': int, u: real)
    requires u > 0.0
    ensures Units(s, u) < Units(s', u) <==> s < s'
    ensures Units(s, u) == 0.0 <==> s == 0
    ensures s >= 0 ==> Units(s, u) >= 0.0
  {
  }

  lemma {:induction false} IntPow2Monotone(m: nat, n: nat)
    requires m <= n
    ensures IntPow2(m) <= IntPow2(n)
    decreases n - m
  {
    if m < n { IntPow2Monotone(m, n - 1); }
  }

  lemma ScaledOrder(e: nat, f: int, e': nat, f': int)
    requires 0 <= f < HIDDEN && 0 <= f' < HIDDEN
    ensures Scaled(e, f) < Scaled(e', f') <==> e < e' || (e == e' && f < f')
  {
    if e < e' {
      ScaledStep(e, f, e', f');
    } else if e' < e {
      ScaledStep(e', f', e, f);
    } else if e > 0 {
      var p := IntPow2(e - 1);
      assert (HIDDEN + f) * p < (HIDDEN + f') * p <==> f < f';
    }
  }

  lemma ScaledStep(e: nat, f: int, e': nat, f': int)
    requires 0 <= f < HIDDEN && 0 <= f' < HIDDEN && e < e'
    ensures Scaled(e, f) < Scaled(e', f')
  {
    IntPow2Monotone(e, e' - 1);
    var q := IntPow2(e' - 1);
    assert HIDDEN * q <= (HIDDEN + f') * q;
    assert Scaled(e, f) < HIDDEN * IntPow2(e) by {
      if e > 0 {
        var p := IntPow2(e - 1);
        assert (HIDDEN + f) * p < (2 * HIDDEN) * p;
      }
    }
    assert HIDDEN * IntPow2(e) <= HIDDEN * q;
  }

  // --- the order of the patterns ---------------------------------------------------------------

  predicate PairLess(h: int, l: int, h': int, l': int) {
    h < h' || (h == h' && l < l')
  }

  /** The pattern without its sign, read as a number, grows with exponent, then fraction. */
  lemma PatternOrder(a: Double, b: Double)
    ensures PairLess(a.hi % SIGN, a.lo, b.hi % SIGN, b.lo)
        <==> a.Exponent() < b.Exponent() || (a.Exponent() == b.Exponent() && a.Fraction() < b.Fraction())
    ensures 0 <= a.Exponent() <= 2047 && 0 <= a.Fraction() < HIDDEN
    ensures a.Exponent() == b.Exponent() && a.Fraction() == b.Fraction()
        <==> a.hi % SIGN == b.hi % SIGN && a.lo == b.lo
  {
    HighWord(a);
    HighWord(b);
  }

  lemma HighWord(a: Double)
    ensures a.hi % SIGN == a.Exponent() * 0x10_0000 + a.hi % 0x10_0000
    ensures 0 <= a.Exponent() <= 2047
  {
    assert a.hi % SIGN % 0x10_0000 == a.hi % 0x10_0000;
  }

  lemma ScaledPatternOrder(a: Double, b: Double)
    requires a.Finite() && b.Finite()
    ensures Scaled(a.Exponent(), a.Fraction()) < Scaled(b.Exponent(), b.Fraction())
        <==> PairLess(a.hi % SIGN, a.lo, b.hi % SIGN, b.lo)
    ensures Scaled(a.Exponent(), a.Fraction()) >= 0
    ensures Scaled(a.Exponent(), a.Fraction()) == 0 <==> a.Zero()
  {
    PatternOrder(a, b);
    ScaledOrder(a.Exponent(), a.Fraction(), b.Exponent(), b.Fraction());
    ScaledOrder(0, 0, a.Exponent(), a.Fraction());
  }

  /** Among finite doubles, magnitudes compare as the patterns without sign do. */
  lemma MagnitudeOrder(a: Double, b: Double)
    requires a.Finite() && b.Finite()
    ensures Magnitude(a) < Magnitude(b) <==> PairLess(a.hi % SIGN, a.lo, b.hi % SIGN, b.lo)
    ensures Magnitude(a) >= 0.0
    ensures Magnitude(a) == 0.0 <==> a.Zero()
  {
    hide Pow2, Magnitude;
    MagnitudeIsScaled(a);
    MagnitudeIsScaled(b);
    Pow2Positive(SMALLEST_EXPONENT);
    ScaledPatternOrder(a, b);
    UnitsOrder(Scaled(a.Exponent(), a.Fraction()), Scaled(b.Exponent(), b.Fraction()), Pow2(SMALLEST_EXPONENT));
  }
}
