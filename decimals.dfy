/**
 * The part of java.math.BigDecimal the analytics use: exact addition, subtraction and
 * multiplication, division to a fixed scale with RoundingMode.HALF_UP, setScale, compareTo.
 * A decimal is unscaled × 10^(-scale) with a natural scale; a value that Java holds at a negative
 * scale (such as BigDecimal.valueOf(1.0E10)) is written here at scale 0, with the same value.
 */
module Decimals {
  import opened Results

  datatype Dec = Dec(unscaled: int, scale: nat)

  /** BigDecimal.ZERO */
  const Zero: Dec := Dec(0, 0)

  /** BigDecimal.valueOf(long): the integer at scale 0. */
  function FromLong(n: int): Dec {
    Dec(n, 0)
  }

  function Pow10(n: nat): (r: nat)
    ensures r >= 1
  {
    if n == 0 then 1 else 10 * Pow10(n - 1)
  }

  lemma {:induction false} Pow10Add(a: nat, b: nat)
    ensures Pow10(a + b) == Pow10(a) * Pow10(b)
  {
    if a > 0 {
      Pow10Add(a - 1, b);
      assert Pow10(a + b) == 10 * Pow10(a - 1 + b);
    }
  }

  function Max(a: nat, b: nat): nat {
    if a < b then b else a
  }

  function Sign(x: int): int {
    if x < 0 then -1 else if x == 0 then 0 else 1
  }

  /** The unscaled value of d written at the scale s (at least d's own scale); exact. */
  function Rescale(d: Dec, s: nat): int
    requires d.scale <= s
  {
    d.unscaled * Pow10(s - d.scale)
  }

  lemma RescaleCompose(d: Dec, s: nat, t: nat)
    requires d.scale <= s <= t
    ensures Rescale(d, t) == Rescale(d, s) * Pow10(t - s)
  {
    Pow10Add(s - d.scale, t - s);
    assert t - d.scale == (s - d.scale) + (t - s);
  }

  lemma MulPosSign(x: int, k: int)
    requires k > 0
    ensures Sign(x * k) == Sign(x)
  {
    if x > 0 {
      MulMono(1, x, k);
    } else if x < 0 {
      MulMono(x, -1, k);
    }
  }

  lemma MulMono(x: int, y: int, k: int)
    requires k >= 0 && x <= y
    ensures x * k <= y * k
  {
    assert y * k - x * k == (y - x) * k;
  }

  lemma MulStrict(x: int, y: int, k: int)
    requires k > 0 && x < y
    ensures x * k < y * k
  {
    assert y * k - x * k == (y - x) * k;
    MulMono(1, y - x, k);
  }

  /** Multiplying both sides by a positive factor neither creates nor destroys an inequality. */
  lemma MulCancel(x: int, y: int, k: int)
    requires k > 0
    ensures x <= y <==> x * k <= y * k
    ensures x < y <==> x * k < y * k
  {
    if x <= y { MulMono(x, y, k); } else { MulStrict(y, x, k); }
    if x < y { MulStrict(x, y, k); } else { MulMono(y, x, k); }
  }

  /** BigDecimal.add: exact, at the larger of the two scales. */
  function Add(a: Dec, b: Dec): Dec {
    var s := Max(a.scale, b.scale);
    Dec(Rescale(a, s) + Rescale(b, s), s)
  }

  /** BigDecimal.subtract: exact, at the larger of the two scales. */
  function Subtract(a: Dec, b: Dec): Dec {
    var s := Max(a.scale, b.scale);
    Dec(Rescale(a, s) - Rescale(b, s), s)
  }

  /** BigDecimal.multiply: exact, scales add up. */
  function Multiply(a: Dec, b: Dec): Dec {
    Dec(a.unscaled * b.unscaled, a.scale + b.scale)
  }

  /** Addition is exact: written at any common scale, the sum's digits are the sum of the digits. */
  lemma AddExact(a: Dec, b: Dec, t: nat)
    requires a.scale <= t && b.scale <= t
    ensures Add(a, b).scale <= t
    ensures Rescale(Add(a, b), t) == Rescale(a, t) + Rescale(b, t)
  {
    var s := Max(a.scale, b.scale);
    RescaleCompose(a, s, t);
    RescaleCompose(b, s, t);
    assert (Rescale(a, s) + Rescale(b, s)) * Pow10(t - s)
        == Rescale(a, s) * Pow10(t - s) + Rescale(b, s) * Pow10(t - s);
  }

  /** Subtraction is exact in the same sense. */
  lemma SubtractExact(a: Dec, b: Dec, t: nat)
    requires a.scale <= t && b.scale <= t
    ensures Subtract(a, b).scale <= t
    ensures Rescale(Subtract(a, b), t) == Rescale(a, t) - Rescale(b, t)
  {
    var s := Max(a.scale, b.scale);
    RescaleCompose(a, s, t);
    RescaleCompose(b, s, t);
    assert (Rescale(a, s) - Rescale(b, s)) * Pow10(t - s)
        == Rescale(a, s) * Pow10(t - s) - Rescale(b, s) * Pow10(t - s);
  }

  /** BigDecimal.compareTo: the sign of a - b, regardless of the scales. */
  function Compare(a: Dec, b: Dec): int {
    var s := Max(a.scale, b.scale);
    Sign(Rescale(a, s) - Rescale(b, s))
  }

  /** compareTo may be evaluated at any common scale. */
  lemma CompareAt(a: Dec, b: Dec, t: nat)
    requires a.scale <= t && b.scale <= t
    ensures Compare(a, b) == Sign(Rescale(a, t) - Rescale(b, t))
  {
    var s := Max(a.scale, b.scale);
    RescaleCompose(a, s, t);
    RescaleCompose(b, s, t);
    assert Rescale(a, t) - Rescale(b, t) == (Rescale(a, s) - Rescale(b, s)) * Pow10(t - s);
    MulPosSign(Rescale(a, s) - Rescale(b, s), Pow10(t - s));
  }

  /** compareTo is a total preorder: antisymmetric in sign and transitive. */
  lemma {:induction false} CompareOrder(a: Dec, b: Dec, c: Dec)
    ensures Compare(a, b) == -Compare(b, a)
    ensures Compare(a, a) == 0
    ensures Compare(a, b) >= 0 && Compare(b, c) >= 0 ==> Compare(a, c) >= 0
    ensures Compare(a, b) > 0 && Compare(b, c) >= 0 ==> Compare(a, c) > 0
    ensures Compare(a, b) >= 0 && Compare(b, c) > 0 ==> Compare(a, c) > 0
    ensures Compare(a, b) == 0 && Compare(b, c) == 0 ==> Compare(a, c) == 0
  {
    var t := Max(a.scale, Max(b.scale, c.scale));
    CompareAt(a, b, t);
    CompareAt(b, a, t);
    CompareAt(b, c, t);
    CompareAt(a, c, t);
  }

  /**
   * Reference definition of RoundingMode.HALF_UP for a positive divisor e: q is m / e rounded
   * to an integer with halves rounded away from zero, that is q - 1/2 <= m/e < q + 1/2 when
   * m >= 0 and q - 1/2 < m/e <= q + 1/2 when m < 0.
   */
  ghost predicate HalfUpPos(q: int, m: int, e: int)
    requires e > 0
  {
    if m >= 0 then (2 * q - 1) * e <= 2 * m < (2 * q + 1) * e
    else (2 * q - 1) * e < 2 * m <= (2 * q + 1) * e
  }

  /** q is n / d rounded HALF_UP, for a divisor of either sign. */
  ghost predicate IsHalfUp(q: int, n: int, d: int)
    requires d != 0
  {
    if d > 0 then HalfUpPos(q, n, d) else HalfUpPos(q, -n, -d)
  }

  /** m / e rounded HALF_UP for m >= 0: floor((2m + e) / 2e). */
  lemma RoundNonNegative(m: int, e: int)
    requires m >= 0 && e > 0
    ensures HalfUpPos((2 * m + e) / (2 * e), m, e)
  {
    var x := 2 * m + e;
    var q := x / (2 * e);
    var p := e * q;
    assert x == 2 * p + x % (2 * e);
    assert (2 * q - 1) * e == 2 * p - e;
    assert (2 * q + 1) * e == 2 * p + e;
  }

  /** The integer n / d rounded HALF_UP. */
  function RoundHalfUp(n: int, d: int): (q: int)
    requires d != 0
    ensures IsHalfUp(q, n, d)
  {
    var m := if d > 0 then n else -n;
    var e := if d > 0 then d else -d;
    if m >= 0 then
      RoundNonNegative(m, e);
      (2 * m + e) / (2 * e)
    else
      RoundNonNegative(-m, e);
      var q := (-2 * m + e) / (2 * e);
      assert (2 * -q - 1) * e == -((2 * q + 1) * e) && (2 * -q + 1) * e == -((2 * q - 1) * e);
      -q
  }

  /** HALF_UP rounding has exactly one result. */
  lemma HalfUpUnique(q1: int, q2: int, n: int, d: int)
    requires d != 0
    requires IsHalfUp(q1, n, d) && IsHalfUp(q2, n, d)
    ensures q1 == q2
  {
    var e := if d > 0 then d else -d;
    MulCancel(2 * q1 - 1, 2 * q2 + 1, e);
    MulCancel(2 * q2 - 1, 2 * q1 + 1, e);
  }

  /** An inequality between x·e and 2m carries over to x·e' and 2m' when m/e == m'/e'. */
  lemma ScaleInequality(x: int, m: int, e: int, m': int, e': int)
    requires e > 0 && e' > 0
    requires m * e' == m' * e
    ensures x * e <= 2 * m <==> x * e' <= 2 * m'
    ensures x * e < 2 * m <==> x * e' < 2 * m'
  {
    MulCancel(x * e, 2 * m, e');
    MulCancel(x * e', 2 * m', e);
    assert x * e * e' == x * e' * e;
    assert 2 * m * e' == 2 * m' * e;
  }

  lemma HalfUpPosCross(q: int, m: int, e: int, m': int, e': int)
    requires e > 0 && e' > 0
    requires m * e' == m' * e
    ensures HalfUpPos(q, m, e) <==> HalfUpPos(q, m', e')
  {
    assert m >= 0 <==> m' >= 0 by {
      if m >= 0 { MulMono(0, m, e'); } else { MulStrict(m, 0, e'); }
      if m' >= 0 { MulMono(0, m', e); } else { MulStrict(m', 0, e); }
    }
    ScaleInequality(2 * q - 1, m, e, m', e');
    ScaleInequality(2 * q + 1, m, e, m', e');
  }

  /** HALF_UP rounding depends only on the value of the quotient, not on how it is written. */
  lemma HalfUpCross(q: int, n: int, d: int, n': int, d': int)
    requires d != 0 && d' != 0
    requires n * d' == n' * d
    ensures IsHalfUp(q, n, d) <==> IsHalfUp(q, n', d')
  {
    var m := if d > 0 then n else -n;
    var e := if d > 0 then d else -d;
    var m' := if d' > 0 then n' else -n';
    var e' := if d' > 0 then d' else -d';
    assert m * e' == m' * e by {
      if d > 0 && d' < 0 {
        assert m * e' == -(n * d');
        assert m' * e == -(n' * d);
      } else if d < 0 && d' > 0 {
        assert m * e' == -(n * d');
        assert m' * e == -(n' * d);
      } else if d < 0 && d' < 0 {
        assert m * e' == n * d';
        assert m' * e == n' * d;
      }
    }
    HalfUpPosCross(q, m, e, m', e');
  }

  /**
   * BigDecimal.divide(divisor, s, HALF_UP): the quotient rounded to s decimals; an
   * ArithmeticException when the divisor is zero.
   */
  function Divide(a: Dec, b: Dec, s: nat): (r: Result<Dec>)
    ensures r.Err? <==> b.unscaled == 0
    ensures r.Err? ==> r.error == DivisionByZero
    ensures r.Ok? ==> r.value.scale == s
  {
    if b.unscaled == 0 then Err(DivisionByZero)
    else Ok(Dec(RoundHalfUp(a.unscaled * Pow10(b.scale + s), b.unscaled * Pow10(a.scale)), s))
  }

  lemma CrossProducts(A: int, B: int, Pa: int, Pb: int, Ps: int, Pta: int, Ptb: int, Pt: int)
    requires Pta * Pa == Pt && Ptb * Pb == Pt
    ensures (A * (Pb * Ps)) * (B * Ptb) == ((A * Pta) * Ps) * (B * Pa)
  {
    assert (A * (Pb * Ps)) * (B * Ptb) == (A * B * Ps) * (Ptb * Pb);
    assert ((A * Pta) * Ps) * (B * Pa) == (A * B * Ps) * (Pta * Pa);
  }

  /**
   * What Divide computes, stated at any common scale t of dividend and divisor: the digits
   * of the result are (a / b) × 10^s rounded HALF_UP.
   */
  lemma DivideAt(a: Dec, b: Dec, s: nat, t: nat)
    requires b.unscaled != 0
    requires a.scale <= t && b.scale <= t
    ensures Rescale(b, t) != 0
    ensures IsHalfUp(Divide(a, b, s).value.unscaled, Rescale(a, t) * Pow10(s), Rescale(b, t))
  {
    MulPosSign(b.unscaled, Pow10(t - b.scale));
    Pow10Add(b.scale, s);
    Pow10Add(t - b.scale, b.scale);
    Pow10Add(t - a.scale, a.scale);
    assert (t - b.scale) + b.scale == t && (t - a.scale) + a.scale == t;
    assert Pow10(t - a.scale) * Pow10(a.scale) == Pow10(t);
    assert Pow10(t - b.scale) * Pow10(b.scale) == Pow10(t);
    CrossProducts(a.unscaled, b.unscaled, Pow10(a.scale), Pow10(b.scale), Pow10(s),
                  Pow10(t - a.scale), Pow10(t - b.scale), Pow10(t));
    HalfUpCross(Divide(a, b, s).value.unscaled,
                a.unscaled * Pow10(b.scale + s), b.unscaled * Pow10(a.scale),
                Rescale(a, t) * Pow10(s), Rescale(b, t));
  }

  /** BigDecimal.setScale(s, HALF_UP): exact when widening, rounded when narrowing. */
  function SetScale(a: Dec, s: nat): (r: Dec)
    ensures r.scale == s
    ensures s >= a.scale ==> Compare(r, a) == 0
    ensures s < a.scale ==> IsHalfUp(r.unscaled, a.unscaled, Pow10(a.scale - s))
  {
    if s >= a.scale then
      var r := Dec(Rescale(a, s), s);
      CompareAt(r, a, s);
      r
    else Dec(RoundHalfUp(a.unscaled, Pow10(a.scale - s)), s)
  }
}
