/**
 The places of characters as `character_spans` in server/kindle/book_processor.py computes
 them: the quotient, the product and the sum each rounded to binary64.
 */
module FloatColumns {
  import opened Doubles
  import opened Columns

  /** No page is taller, and no chunk holds more characters. */
  const LIMIT := 0x1_0000_0000

  function ComputedStep(length: nat, count: int, steps: nat): (d: real)
    requires count >= 1
    ensures d >= 0.0
  {
    Double(StepOf(length, count), steps)
  }

  function Offset(k: nat, step: real): (r: real)
    requires step >= 0.0
    ensures r >= 0.0
  {
    k as real * step
  }

  /** `y0 + k * step`; subnormal numbers are those of binary64 when `steps` is 1022. */
  function ComputedPlace(c: Slice, n: int, k: nat, steps: nat): real
    requires 0 <= c.y0 <= c.y1 && n >= 1
  {
    Double(c.y0 as real + Double(Offset(k, ComputedStep(c.y1 - c.y0, n, steps)), steps), steps)
  }

  function Computed(steps: nat): Placing {
    (c: Slice, n: int, k: int) => if 0 <= c.y0 <= c.y1 && n >= 1 && k >= 0 then ComputedPlace(c, n, k, steps) else 0.0
  }

  /** Binary64 places characters. */
  lemma ComputedPlaces(chunk: Slice, count: int, steps: nat)
    requires 0 <= chunk.y0 <= chunk.y1 <= LIMIT && 1 <= count <= LIMIT
    ensures Places(Computed(steps), chunk, count)
  {
    hide ComputedPlace, Exact;
    var at := Computed(steps);
    ComputedStart(chunk, count, steps);
    forall j, k | 0 <= j <= k <= count ensures at(chunk, count, j) <= at(chunk, count, k) {
      ComputedGrows(chunk, count, j, k, steps);
    }
    forall k | 0 <= k <= count
      ensures Exact(chunk, count, k) - 1.0 < at(chunk, count, k) < Exact(chunk, count, k) + 1.0
    {
      ComputedNear(chunk, count, k, steps);
    }
  }

  /** So the spans computed in binary64 tile their chunk, but for a pixel at its end. */
  lemma ComputedSpansTile(chunk: Slice, count: nat, steps: nat)
    requires 0 <= chunk.y0 <= chunk.y1 <= LIMIT && 1 <= count <= LIMIT
    ensures var s := CharactersOf(Computed(steps), chunk, count);
      && |s| == count && s[0].y0 == chunk.y0
      && (forall k | 0 <= k < count - 1 :: s[k].y0 <= s[k].y1 == s[k + 1].y0)
      && s[count - 1].y0 <= s[count - 1].y1 <= chunk.y1
      && s[count - 1].y1 == if ComputedPlace(chunk, count, count, steps) >= chunk.y1 as real then chunk.y1 else chunk.y1 - 1
  {
    hide ComputedPlace, Exact, Places, CharactersOf;
    ComputedPlaces(chunk, count, steps);
    CharactersTileTheChunk(Computed(steps), chunk, count);
  }

  lemma ComputedStart(chunk: Slice, count: int, steps: nat)
    requires 0 <= chunk.y0 <= chunk.y1 <= LIMIT && count >= 1
    ensures ComputedPlace(chunk, count, 0, steps) == chunk.y0 as real
  {
    hide Double, ComputedStep;
    assert Offset(0, ComputedStep(chunk.y1 - chunk.y0, count, steps)) == 0.0;
    WholeIsDouble(0, steps);
    WholeIsDouble(chunk.y0, steps);
  }

  lemma OffsetGrows(j: nat, k: nat, step: real)
    requires step >= 0.0 && j <= k
    ensures Offset(j, step) <= Offset(k, step)
  {
    Scale(j as real, k as real, step);
  }

  lemma ComputedGrows(chunk: Slice, count: int, j: nat, k: nat, steps: nat)
    requires 0 <= chunk.y0 <= chunk.y1 && count >= 1 && j <= k
    ensures ComputedPlace(chunk, count, j, steps) <= ComputedPlace(chunk, count, k, steps)
  {
    hide Double, Offset, ComputedStep;
    var step := ComputedStep(chunk.y1 - chunk.y0, count, steps);
    OffsetGrows(j, k, step);
    DoubleGrows(Offset(j, step), Offset(k, step), steps);
    DoubleGrows(chunk.y0 as real + Double(Offset(j, step), steps), chunk.y0 as real + Double(Offset(k, step), steps), steps);
  }

  lemma StepIsEven(length: nat, count: int)
    requires count >= 1
    ensures var step := StepOf(length, count); step >= 0.0 && step * count as real == length as real
  {
  }

  lemma TimesWithin(length: nat, count: int, k: nat, step: real)
    requires k <= count && step >= 0.0 && step * count as real == length as real
    ensures 0.0 <= Times(k, step) <= length as real
  {
    Scale(k as real, count as real, step);
    Scale(0.0, k as real, step);
  }

  /** The quotient's error, `k` times over. */
  lemma OffsetNear(length: nat, count: int, k: nat, steps: nat)
    requires length <= LIMIT && 1 <= count <= LIMIT && k <= count
    ensures var exact := Times(k, StepOf(length, count));
      && 0.0 <= exact <= length as real
      && exact - 0.01 <= Offset(k, ComputedStep(length, count, steps)) <= exact + 0.01
  {
    hide Double, StepOf;
    StepIsEven(length, count);
    var step := StepOf(length, count);
    DoubleError(step, steps);
    var e := EPSILON * (step + 1.0);
    ErrorTimes(count, step, length);
    TimesWithin(length, count, k, step);
    Within(k, count, ComputedStep(length, count, steps), step, e);
  }

  lemma ErrorTimes(count: int, step: real, length: nat)
    requires 1 <= count <= LIMIT && length <= LIMIT && step * count as real == length as real
    ensures count as real * (EPSILON * (step + 1.0)) <= 0.01
  {
    assert count as real * (EPSILON * (step + 1.0)) == EPSILON * (step * count as real + count as real);
  }

  lemma Within(k: nat, count: int, d: real, step: real, e: real)
    requires k <= count && e >= 0.0 && step >= 0.0 && d >= 0.0 && step - e <= d <= step + e
    requires count as real * e <= 0.01
    ensures Times(k, step) - 0.01 <= Offset(k, d) <= Times(k, step) + 0.01
  {
    Scale(k as real, count as real, e);
    var x := d - step;
    Scale(x, e, k as real);
    Scale(-e, x, k as real);
    assert k as real * d == k as real * step + x * k as real;
  }

  lemma ComputedNear(chunk: Slice, count: int, k: nat, steps: nat)
    requires 0 <= chunk.y0 <= chunk.y1 <= LIMIT && 1 <= count <= LIMIT && k <= count
    ensures Exact(chunk, count, k) - 1.0 < ComputedPlace(chunk, count, k, steps) < Exact(chunk, count, k) + 1.0
  {
    hide Double, Offset, ComputedStep, StepOf, Times;
    var length := chunk.y1 - chunk.y0;
    OffsetNear(length, count, k, steps);
    var offset := Offset(k, ComputedStep(length, count, steps));
    DoubleError(offset, steps);
    DoubleError(chunk.y0 as real + Double(offset, steps), steps);
    var e := SmallError(length, offset);
    var f := SmallError(2 * LIMIT, chunk.y0 as real + Double(offset, steps));
  }

  /** Rounding a number the size of a page moves it by little. */
  lemma SmallError(length: nat, x: real) returns (e: real)
    requires length <= 2 * LIMIT && 0.0 <= x <= length as real + 0.1
    ensures e == EPSILON * (x + 1.0) && 0.0 <= e <= 0.01
  {
    e := EPSILON * (x + 1.0);
  }

  /**
   The last character's end does fall short on rows 50 to 205 with 19 characters: the
   quotient, the product and the sum round to 204.99999999999997.
   */
  lemma TheEndMayFallShort(steps: nat)
    ensures Places(Computed(steps), Slice(50, 205), 19)
    ensures CharactersOf(Computed(steps), Slice(50, 205), 19)[18].y1 == 204
  {
    var chunk := Slice(50, 205);
    ComputedPlaces(chunk, 19, steps);
    LastPlaceIs(steps);
    hide ComputedPlace, Places;
    var x := 7212796278210559.0 * (128.0 * EPSILON);
    assert Computed(steps)(chunk, 19, 19) == x && Trunc(x) == 204;
  }

  lemma LastPlaceIs(steps: nat)
    ensures ComputedPlace(Slice(50, 205), 19, 19, steps) == 7212796278210559.0 * (128.0 * EPSILON)
  {
    hide Double;
    QuotientIs(steps);
    ProductIs(steps);
    SumIs(steps);
  }

  lemma QuotientIs(steps: nat)
    ensures Double(155.0 / 19.0, steps) == 4592486462121229.0 * (8.0 * EPSILON)
  {
    var x := 155.0 / 19.0;
    UnitIs8(x);
    assert Product(4592486462121229.0 - 0.5, 8.0 * EPSILON) < x < Product(4592486462121229.0 + 0.5, 8.0 * EPSILON);
    hide UnitAbove, Nearest;
    NearestIs(x, 8.0 * EPSILON, 4592486462121229);
  }

  lemma ProductIs(steps: nat)
    ensures Double(19.0 * (4592486462121229.0 * (8.0 * EPSILON)), steps) == 5453577673768959.0 * (128.0 * EPSILON)
  {
    var x := 19.0 * (4592486462121229.0 * (8.0 * EPSILON));
    UnitIs128(x);
    assert Product(5453577673768959.0 - 0.5, 128.0 * EPSILON) < x < Product(5453577673768959.0 + 0.5, 128.0 * EPSILON);
    hide UnitAbove, Nearest;
    NearestIs(x, 128.0 * EPSILON, 5453577673768959);
  }

  lemma SumIs(steps: nat)
    ensures Double(50.0 + 5453577673768959.0 * (128.0 * EPSILON), steps) == 7212796278210559.0 * (128.0 * EPSILON)
  {
    var x := 50.0 + 5453577673768959.0 * (128.0 * EPSILON);
    UnitIs128(x);
    assert Product(7212796278210559.0 - 0.5, 128.0 * EPSILON) < x < Product(7212796278210559.0 + 0.5, 128.0 * EPSILON);
    hide UnitAbove, Nearest;
    NearestIs(x, 128.0 * EPSILON, 7212796278210559);
  }

  lemma UnitIs8(x: real)
    requires 8.0 <= x < 16.0
    ensures UnitAbove(x) == 8.0 * EPSILON
  {
    var y := x / 4.0;
    assert UnitAbove(x) == 2.0 * UnitAbove(x / 2.0) == 4.0 * UnitAbove(y);
    assert UnitAbove(y) == 2.0 * UnitAbove(y / 2.0);
  }

  lemma UnitIs128(x: real)
    requires 128.0 <= x < 256.0
    ensures UnitAbove(x) == 128.0 * EPSILON
  {
    var y := x / 4.0;
    assert UnitAbove(x) == 2.0 * UnitAbove(x / 2.0) == 4.0 * UnitAbove(y);
    var z := y / 4.0;
    assert UnitAbove(y) == 2.0 * UnitAbove(y / 2.0) == 4.0 * UnitAbove(z);
    UnitIs8(z);
  }
}
