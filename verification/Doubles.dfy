/**
 Rounding to IEEE 754 binary64: to the nearest number with 53 significant bits, ties to
 the even one, with gradual underflow.  Overflow is left out: nothing here comes near it.
 */
module Doubles {
  /** To the nearest integer; ties go to the even neighbour. */
  function Round(x: real): int {
    var f := x.Floor;
    if x - f as real < 0.5 then f
    else if x - f as real > 0.5 then f + 1
    else if f % 2 == 0 then f else f + 1
  }

  lemma RoundNear(x: real)
    ensures x - 0.5 <= Round(x) as real <= x + 0.5
  {
  }

  lemma RoundGrows(x: real, y: real)
    requires x <= y
    ensures Round(x) <= Round(y)
  {
  }

  lemma RoundOfInt(n: int)
    ensures Round(n as real) == n
  {
  }

  // ----- the spacing of doubles ----------------------------------------------------------------

  const HALF: int := 0x10_0000_0000_0000
  const FULL: int := 0x20_0000_0000_0000

  /** From 1 to 2. */
  const EPSILON: real := 1.0 / HALF as real

  /** At `x` from 1 up. */
  function UnitAbove(x: real): (u: real)
    requires x >= 1.0
    ensures EPSILON <= u && HALF as real * u <= x < FULL as real * u
    decreases x.Floor
  {
    if x < 2.0 then EPSILON else 2.0 * UnitAbove(x / 2.0)
  }

  /** Below 1 the spacing is halved at each power of two, `steps` times at most: 1022 times in binary64. */
  function Least(steps: nat): (u: real)
    ensures 0.0 < u <= EPSILON
  {
    if steps == 0 then EPSILON else Least(steps - 1) / 2.0
  }

  function UnitBelow(x: real, steps: nat): (u: real)
    requires 0.0 <= x < 1.0
    ensures Least(steps) <= u <= EPSILON && (steps > 0 ==> u <= EPSILON / 2.0)
    ensures x < FULL as real * u && (HALF as real * u <= x || u == Least(steps))
    decreases steps
  {
    if steps == 0 then EPSILON
    else if x >= 0.5 then EPSILON / 2.0
    else UnitBelow(2.0 * x, steps - 1) / 2.0
  }

  function Unit(x: real, steps: nat): (u: real)
    requires x >= 0.0
    ensures u >= Least(steps)
    ensures x < FULL as real * u && (HALF as real * u <= x || u == Least(steps))
  {
    if x >= 1.0 then UnitAbove(x) else UnitBelow(x, steps)
  }

  lemma {:induction false} UnitsAbove(x: real, y: real)
    requires 1.0 <= x <= y
    ensures UnitAbove(x) == UnitAbove(y) || 2.0 * UnitAbove(x) <= UnitAbove(y)
    decreases y.Floor
  {
    if x >= 2.0 {
      UnitsAbove(x / 2.0, y / 2.0);
    }
  }

  lemma {:induction false} UnitsBelow(x: real, y: real, steps: nat)
    requires 0.0 <= x <= y < 1.0
    ensures UnitBelow(x, steps) == UnitBelow(y, steps) || 2.0 * UnitBelow(x, steps) <= UnitBelow(y, steps)
    decreases steps
  {
    if y < 0.5 && steps > 0 {
      UnitsBelow(2.0 * x, 2.0 * y, steps - 1);
    }
  }

  /** The spacing stays or at least doubles. */
  lemma Units(x: real, y: real, steps: nat)
    requires 0.0 <= x <= y
    ensures Unit(x, steps) == Unit(y, steps) || 2.0 * Unit(x, steps) <= Unit(y, steps)
  {
    if x >= 1.0 {
      UnitsAbove(x, y);
    } else if y < 1.0 {
      UnitsBelow(x, y, steps);
    }
  }

  // ----- rounding ------------------------------------------------------------------------------

  function Product(a: real, b: real): real {
    a * b
  }

  /** The multiple of `u` nearest to `x`. */
  function Nearest(x: real, u: real): real
    requires u > 0.0
  {
    Product(Round(x / u) as real, u)
  }

  lemma ProductGrows(a: real, b: real, c: real)
    requires c > 0.0
    ensures a <= b <==> Product(a, c) <= Product(b, c)
  {
    if a < b {
      ProductRises(a, b, c);
    } else if b < a {
      ProductRises(b, a, c);
    }
  }

  lemma ProductRises(a: real, b: real, c: real)
    requires a < b && c > 0.0
    ensures Product(a, c) < Product(b, c)
  {
  }

  /** The quotient behind the nearest multiple. */
  lemma Quotient(x: real, u: real) returns (q: real)
    requires u > 0.0
    ensures Product(q, u) == x && Nearest(x, u) == Product(Round(q) as real, u)
  {
    q := x / u;
  }

  lemma HalfAway(q: real, u: real)
    ensures Product(q - 0.5, u) == Product(q, u) - u / 2.0 && Product(q + 0.5, u) == Product(q, u) + u / 2.0
  {
  }

  lemma NearestNear(x: real, u: real)
    requires u > 0.0
    ensures x - u / 2.0 <= Nearest(x, u) <= x + u / 2.0
  {
    var q := Quotient(x, u);
    RoundNear(q);
    HalfAway(q, u);
    hide *;
    ProductGrows(q - 0.5, Round(q) as real, u);
    ProductGrows(Round(q) as real, q + 0.5, u);
  }

  lemma NearestGrows(x: real, y: real, u: real)
    requires u > 0.0 && x <= y
    ensures Nearest(x, u) <= Nearest(y, u)
  {
    hide *;
    var q := Quotient(x, u);
    var r := Quotient(y, u);
    ProductGrows(q, r, u);
    RoundGrows(q, r);
    ProductGrows(Round(q) as real, Round(r) as real, u);
  }

  lemma NearestOfMultiple(n: int, u: real)
    requires u > 0.0
    ensures Nearest(n as real * u, u) == n as real * u
  {
    assert n as real * u == Product(n as real, u);
    hide *;
    var q := Quotient(n as real * u, u);
    ProductGrows(q, n as real, u);
    ProductGrows(n as real, q, u);
    RoundOfInt(n);
  }

  lemma NearestIs(x: real, u: real, n: int)
    requires u > 0.0 && Product(n as real - 0.5, u) < x < Product(n as real + 0.5, u)
    ensures Nearest(x, u) == Product(n as real, u)
  {
    hide Product, Nearest, Round;
    var q := Quotient(x, u);
    ProductGrows(q, n as real - 0.5, u);
    ProductGrows(n as real + 0.5, q, u);
    RoundIs(q, n);
  }

  lemma RoundIs(x: real, n: int)
    requires n as real - 0.5 < x < n as real + 0.5
    ensures Round(x) == n
  {
  }

  lemma NearestNotNegative(x: real, u: real)
    requires u > 0.0 && x >= 0.0
    ensures Nearest(x, u) >= 0.0
  {
    NearestOfMultiple(0, u);
    NearestGrows(0.0, x, u);
  }

  /** The double nearest to a number that is not negative. */
  function Double(x: real, steps: nat): (d: real)
    requires x >= 0.0
    ensures d >= 0.0
  {
    NearestNotNegative(x, Unit(x, steps));
    Nearest(x, Unit(x, steps))
  }

  /** At most half a spacing away. */
  lemma DoubleNear(x: real, steps: nat)
    requires x >= 0.0
    ensures x - Unit(x, steps) / 2.0 <= Double(x, steps) <= x + Unit(x, steps) / 2.0
  {
    hide Nearest, Unit;
    NearestNear(x, Unit(x, steps));
  }

  lemma DoubleError(x: real, steps: nat)
    requires x >= 0.0
    ensures x - EPSILON * (x + 1.0) <= Double(x, steps) <= x + EPSILON * (x + 1.0)
  {
    DoubleNear(x, steps);
    assert Unit(x, steps) <= EPSILON * (x + 1.0);
    hide Double, Unit;
  }

  /** Rounding keeps the order. */
  lemma DoubleGrows(x: real, y: real, steps: nat)
    requires 0.0 <= x <= y
    ensures Double(x, steps) <= Double(y, steps)
  {
    hide Nearest, Unit;
    Units(x, y, steps);
    var u, v := Unit(x, steps), Unit(y, steps);
    if u == v {
      NearestGrows(x, y, u);
    } else {
      NearestApart(x, y, u, v);
    }
  }

  /** Below and above a power of two. */
  lemma NearestApart(x: real, y: real, u: real, v: real)
    requires 0.0 < u && 2.0 * u <= v && x <= FULL as real * u && HALF as real * v <= y
    ensures Nearest(x, u) <= Nearest(y, v)
  {
    hide Nearest;
    NearestGrows(x, FULL as real * u, u);
    NearestOfMultiple(FULL, u);
    NearestGrows(HALF as real * v, y, v);
    NearestOfMultiple(HALF, v);
  }

  // ----- whole numbers -------------------------------------------------------------------------

  function Pow2(k: nat): (p: int)
    ensures p >= 1
  {
    if k == 0 then 1 else 2 * Pow2(k - 1)
  }

  lemma {:induction false} PowersMultiply(j: nat, k: nat)
    ensures Pow2(j + k) == Pow2(j) * Pow2(k)
    decreases j
  {
    if j > 0 {
      PowersMultiply(j - 1, k);
      assert Pow2(j + k) == 2 * Pow2(j - 1 + k);
      assert 2 * (Pow2(j - 1) * Pow2(k)) == (2 * Pow2(j - 1)) * Pow2(k);
    }
  }

  lemma Powers()
    ensures Pow2(52) == HALF && Pow2(53) == FULL
  {
    assert Pow2(13) == 8192;
    PowersMultiply(13, 13);
    PowersMultiply(26, 26);
    PowersMultiply(1, 52);
  }

  lemma PowersGrow(j: nat, k: nat)
    requires j <= k
    ensures Pow2(j) <= Pow2(k)
  {
    PowersMultiply(j, k - j);
    assert Pow2(j) * 1 <= Pow2(j) * Pow2(k - j);
  }

  /** The spacing is a power of two. */
  lemma {:induction false} UnitIsPower(x: real) returns (j: nat)
    requires x >= 1.0
    ensures UnitAbove(x) * HALF as real == Pow2(j) as real
    decreases x.Floor
  {
    if x < 2.0 {
      j := 0;
    } else {
      var k := UnitIsPower(x / 2.0);
      j := k + 1;
    }
  }

  /** Numbers up to `2^53` are doubles. */
  lemma WholeIsDouble(n: int, steps: nat)
    requires 0 <= n <= FULL
    ensures Double(n as real, steps) == n as real
  {
    var u := Unit(n as real, steps);
    if n == 0 {
      NearestOfMultiple(0, u);
    } else {
      var j := UnitIsPower(n as real);
      var m := UnitsIn(n, j);
      assert m as real * u == n as real by {
        Cancel(n, m, j, u);
      }
      NearestOfMultiple(m, u);
    }
  }

  lemma UnitsIn(n: int, j: nat) returns (m: int)
    requires 1 <= Pow2(j) <= n <= FULL
    ensures m * Pow2(j) == n * HALF
  {
    Powers();
    hide Pow2;
    if j <= 52 {
      PowersMultiply(52 - j, j);
      m := n * Pow2(52 - j);
      assert m * Pow2(j) == n * (Pow2(52 - j) * Pow2(j));
    } else {
      PowersGrow(53, j);
      m := HALF;
    }
  }

  lemma Cancel(n: int, m: int, j: nat, u: real)
    requires u * HALF as real == Pow2(j) as real && m * Pow2(j) == n * HALF
    ensures m as real * u == n as real
  {
    assert (m as real * u) * HALF as real == m as real * (u * HALF as real);
    assert m as real * Pow2(j) as real == (m * Pow2(j)) as real;
  }

  // ----- comparing 64-bit integers as doubles -------------------------------------------------

  /** A positive integer as a double; it is at least 1, so no spacing below 1 plays a part. */
  function DoubleOf(n: int): real {
    if n < 1 then n as real else Double(n as real, 0)
  }

  lemma DoubleOfGrows(n: int, m: int)
    requires n <= m
    ensures DoubleOf(n) <= DoubleOf(m)
  {
    if n >= 1 {
      DoubleGrows(n as real, m as real, 0);
    } else if m >= 1 {
      WholeIsDouble(1, 0);
      DoubleGrows(1.0, m as real, 0);
    }
  }

  lemma DoubleOfSmall(n: int)
    requires n <= FULL
    ensures DoubleOf(n) == n as real
  {
    if n >= 1 {
      WholeIsDouble(n, 0);
    }
  }

  /** The first integers that share a double. */
  lemma SharedDouble()
    ensures DoubleOf(FULL + 1) == DoubleOf(FULL)
  {
    var x := (FULL + 1) as real;
    var j := UnitIsPower(x);
    PowerIs(j);
    assert UnitAbove(x) == 2.0;
    NearestTie();
    DoubleOfSmall(FULL);
    hide UnitAbove, Nearest;
  }

  lemma PowerIs(j: nat)
    requires FULL < 2 * Pow2(j) <= 2 * FULL + 2
    requires Pow2(j) > HALF
    ensures Pow2(j) == FULL
  {
    Powers();
    PowersMultiply(1, 53);
    if j <= 52 {
      PowersGrow(j, 52);
    } else if j >= 54 {
      PowersGrow(54, j);
    }
  }

  lemma NearestTie()
    ensures Nearest((FULL + 1) as real, 2.0) == FULL as real
  {
    var q := (FULL + 1) as real / 2.0;
    assert q == HALF as real + 0.5 && HALF % 2 == 0;
  }
}
