/**
 The font searches of server/kindle/text_renderer.py (`_fit_vertical_chars`,
 `_fit_vertical_font_size`): fifteen halvings with no check that the bounds still hold
 a size, which go on after the bounds have crossed.
 */
module FontFit {
  import opened Basics

  const MIN_FONT := 10
  const MAX_FONT := 60

  /** A size that fits makes every smaller one fit. */
  ghost predicate Monotone(fits: int -> bool) {
    forall a, b | MIN_FONT - 1 <= a <= b && fits(b) :: fits(a)
  }

  predicate IsLargest(fits: int -> bool, top: int, size: int) {
    MIN_FONT <= size <= top && fits(size) && forall s | size < s <= top :: !fits(s)
  }

  /** How many sizes can be left between the bounds after so many halvings of at most 51. */
  function LeftAfter(rounds: nat): nat {
    if rounds == 0 then 51
    else if rounds == 1 then 25
    else if rounds == 2 then 12
    else if rounds == 3 then 6
    else if rounds == 4 then 3
    else if rounds == 5 then 1
    else 0
  }

  /** The bounds still hold sizes, or have crossed at the answer. */
  predicate Searching(fits: int -> bool, top: int, rounds: nat, lo: int, hi: int, best: int) {
    && MIN_FONT <= lo && hi <= top
    && (if lo == MIN_FONT then best == MIN_FONT else fits(lo - 1) && best == lo - 1)
    && (hi == top || !fits(hi + 1))
    && lo <= hi + 1 && hi - lo + 1 <= LeftAfter(rounds)
  }

  /** Not even the smallest size fits: the search probes one below it for ever. */
  predicate Below(fits: int -> bool, rounds: nat, lo: int, hi: int, best: int) {
    && lo == MIN_FONT && !fits(MIN_FONT)
    && (if fits(MIN_FONT - 1) then hi == MIN_FONT - 1 && best == MIN_FONT - 1
        else hi == MIN_FONT - 2 && best == MIN_FONT)
  }

  /** The loop of both searches. */
  method Search(fits: int -> bool, top: int) returns (best: int)
    ensures best == MIN_FONT || fits(best)
    ensures MIN_FONT <= top <= MAX_FONT && Monotone(fits) ==>
              if fits(MIN_FONT) then IsLargest(fits, top, best)
              else best == if fits(MIN_FONT - 1) then MIN_FONT - 1 else MIN_FONT
  {
    var lo, hi := MIN_FONT, top;
    best := lo;
    ghost var sane := MIN_FONT <= top <= MAX_FONT && Monotone(fits);
    for round := 0 to 15
      invariant best == MIN_FONT || fits(best)
      invariant sane ==> || (Searching(fits, top, round, lo, hi, best) && (round >= 7 ==> lo > MIN_FONT))
                         || Below(fits, round, lo, hi, best)
    {
      if sane {
      }
      var mid := (lo + hi) / 2;
      if fits(mid) {
        best := mid;
        lo := mid + 1;
      } else {
        hi := mid - 1;
      }
    }
  }

  /** The search answers with the largest fitting size exactly when some size in range fits. */
  lemma LargestOrNone(fits: int -> bool, top: int)
    requires MIN_FONT <= top && Monotone(fits)
    ensures fits(MIN_FONT) <==> exists size :: IsLargest(fits, top, size)
  {
    if fits(MIN_FONT) {
      var size := top;
      while !fits(size)
        invariant MIN_FONT <= size <= top && forall s | size < s <= top :: !fits(s)
        decreases size
      {
        size := size - 1;
      }
      assert IsLargest(fits, top, size);
    }
  }

  // ----- stacked characters ------------------------------------------------------------------

  /** `count` cells of 1.1 times the size, one above the other. */
  function StackFits(count: nat, width: int, height: int): int -> bool {
    size => count * (size * 11 / 10) <= height && size <= width
  }

  /** A cell takes a tenth more than the size, in whole pixels. */
  lemma StackFitsMeans(count: nat, width: int, height: int, size: int, cell: int)
    requires 10 * cell <= 11 * size < 10 * (cell + 1)
    ensures StackFits(count, width, height)(size) <==> count * cell <= height && size <= width
  {
    assert size * 11 / 10 == cell;
  }

  lemma TimesGrows(n: nat, a: int, b: int)
    requires a <= b
    ensures n * a <= n * b
  {
  }

  lemma StackIsMonotone(count: nat, width: int, height: int)
    ensures Monotone(StackFits(count, width, height))
  {
    forall a, b | MIN_FONT - 1 <= a <= b && StackFits(count, width, height)(b) ensures StackFits(count, width, height)(a) {
      TimesGrows(count, a * 11 / 10, b * 11 / 10);
    }
  }

  /** `_fit_vertical_chars`. */
  method FitVerticalChars(count: nat, width: int, height: int) returns (best: int)
    ensures var fits, top := StackFits(count, width, height), Min(MAX_FONT, Min(width, height));
            top >= MIN_FONT ==>
              if fits(MIN_FONT) then IsLargest(fits, top, best)
              else best == if fits(MIN_FONT - 1) then MIN_FONT - 1 else MIN_FONT
  {
    StackIsMonotone(count, width, height);
    best := Search(StackFits(count, width, height), Min(MAX_FONT, Min(width, height)));
  }

  /** A box in which no size in range fits, and for which the search answers below the smallest size. */
  method BelowTheSmallest() returns (best: int)
    ensures best == MIN_FONT - 1 && !StackFits(2, 12, 20)(MIN_FONT)
  {
    assert 10 * 11 / 10 == 11 && 9 * 11 / 10 == 9;
    best := FitVerticalChars(2, 12, 20);
  }

  // ----- columns of characters -------------------------------------------------------------------

  const READABLE_THRESHOLD := 18
  const READABLE_MIN := 12

  /** `_furigana_font_size`. */
  function FuriganaSize(size: int): int {
    if size >= READABLE_THRESHOLD then Max(READABLE_MIN, size / 2) else Max(MIN_FONT, size / 2)
  }

  /** `measured` is the font's own cell height. */
  function CellHeight(measured: int -> int, size: int): int {
    Max(size * 21 / 20, measured(size))
  }

  /** A cell is as high as the font's own and takes a twentieth more than the size, in whole pixels. */
  lemma CellHeightIsLeast(measured: int -> int, size: int, cell: int)
    ensures CellHeight(measured, size) <= cell <==> measured(size) <= cell && 21 * size < 20 * (cell + 1)
  {
  }

  function ColumnsNeeded(count: nat, height: int, cell: int): int
    requires cell > 0
  {
    var perColumn := Max(1, height / cell);
    (count + perColumn - 1) / perColumn
  }

  function ColumnWidth(size: int, furigana: bool): int {
    size + if furigana then FuriganaSize(size) + 2 else 0
  }

  function ColumnsFit(measured: int -> int, count: nat, furigana: bool, width: int, height: int): int -> bool {
    size =>
      var cell := CellHeight(measured, size);
      cell > 0 && ColumnsNeeded(count, height, cell) * ColumnWidth(size, furigana) <= width
  }

  /** Glyph metrics grow with the size. */
  ghost predicate MetricGrows(measured: int -> int) {
    forall a, b | MIN_FONT - 1 <= a <= b :: measured(a) <= measured(b)
  }

  lemma QuotientAtLeast(a: int, d: int, q: int)
    requires d > 0 && q * d <= a
    ensures a / d >= q
  {
    assert a < (a / d + 1) * d by {
      assert (a / d + 1) * d == a / d * d + d;
    }
  }

  lemma DivisionFalls(a: int, c: int, d: int)
    requires 0 < c <= d && a >= 0
    ensures a / d <= a / c
  {
    var q := a / d;
    assert q * d <= a && q >= 0;
    assert q * c <= q * d by {
      assert q * (d - c) == q * d - q * c;
    }
    QuotientAtLeast(a, c, q);
  }

  /** Fewer characters a column, more columns. */
  lemma CeilingGrows(n: nat, p: int, q: int)
    requires 0 < q <= p
    ensures (n + p - 1) / p <= (n + q - 1) / q
  {
    var c := (n + q - 1) / q;
    assert n + q - 1 == c * q + (n + q - 1) % q && 0 <= (n + q - 1) % q < q;
    assert c * q >= n;
    assert c >= 0;
    assert c * p >= c * q by {
      assert c * (p - q) == c * p - c * q;
    }
    assert n + p - 1 < (c + 1) * p by {
      assert (c + 1) * p == c * p + p;
    }
    QuotientBelow(n + p - 1, p, c + 1);
  }

  lemma QuotientBelow(a: int, d: int, q: int)
    requires d > 0 && a < q * d
    ensures a / d < q
  {
  }

  lemma ColumnsGrow(count: nat, height: int, c: int, d: int)
    requires 0 < c <= d && height >= 0
    ensures ColumnsNeeded(count, height, c) <= ColumnsNeeded(count, height, d)
    ensures ColumnsNeeded(count, height, c) >= 0
  {
    DivisionFalls(height, c, d);
    CeilingGrows(count, Max(1, height / c), Max(1, height / d));
  }

  lemma ProductGrows(a: int, b: int, x: int, y: int)
    requires 0 <= a <= b && 0 <= x <= y
    ensures a * x <= b * y
  {
    assert (b - a) * x == b * x - a * x && b * (y - x) == b * y - b * x;
  }

  /** More columns of wider cells: the product of the two grows with the size. */
  lemma ColumnsAreMonotone(measured: int -> int, count: nat, furigana: bool, width: int, height: int)
    requires MetricGrows(measured) && height >= 0
    ensures Monotone(ColumnsFit(measured, count, furigana, width, height))
  {
    var fits := ColumnsFit(measured, count, furigana, width, height);
    forall a, b | MIN_FONT - 1 <= a <= b && fits(b) ensures fits(a) {
      var c, d := CellHeight(measured, a), CellHeight(measured, b);
      assert 0 < c <= d;
      ColumnsGrow(count, height, c, d);
      hide ColumnsNeeded;
      assert 0 <= ColumnWidth(a, furigana) <= ColumnWidth(b, furigana);
      ProductGrows(ColumnsNeeded(count, height, c), ColumnsNeeded(count, height, d),
                   ColumnWidth(a, furigana), ColumnWidth(b, furigana));
    }
  }

  /** A size for the reading aid: half the glyph's at least, and large enough to read. */
  predicate Ruby(size: int, r: int) {
    r + r + 1 >= size && r >= MIN_FONT && (size >= READABLE_THRESHOLD ==> r >= READABLE_MIN)
  }

  /** The reading aid is set as small as that allows. */
  lemma FuriganaIsLeast(size: int, r: int)
    requires size >= 0
    ensures FuriganaSize(size) <= r <==> Ruby(size, r)
  {
  }

  /** So many columns of so many cells hold the characters, within the box. */
  predicate LaidOut(count: nat, size: int, furigana: bool, cell: int, width: int, height: int, columns: nat, rows: nat, r: int) {
    && rows >= 1 && (rows == 1 || rows * cell <= height)
    && columns * rows >= count
    && (furigana ==> Ruby(size, r))
    && columns * (size + if furigana then 2 + r else 0) <= width
  }

  /** A size passes the test exactly when the characters can be laid out in columns at that size. */
  lemma FitsWhenLaidOut(measured: int -> int, count: nat, furigana: bool, width: int, height: int, size: int)
    requires size >= MIN_FONT - 1 && height >= 0
    ensures ColumnsFit(measured, count, furigana, width, height)(size) <==>
              exists columns, rows, r :: LaidOut(count, size, furigana, CellHeight(measured, size), width, height, columns, rows, r)
  {
    var cell := CellHeight(measured, size);
    assert cell > 0;
    var rows := Max(1, height / cell);
    var columns := ColumnsNeeded(count, height, cell);
    NeededHolds(count, rows);
    if ColumnsFit(measured, count, furigana, width, height)(size) {
      RowsFit(height, cell);
      FuriganaIsLeast(size, FuriganaSize(size));
      assert LaidOut(count, size, furigana, cell, width, height, columns, rows, FuriganaSize(size));
    }
    if c: nat, p: nat, r :| LaidOut(count, size, furigana, cell, width, height, c, p, r) {
      AtMostRows(height, cell, p);
      AtLeastNeeded(count, rows, c, p);
      FuriganaIsLeast(size, r);
      var wide := size + if furigana then 2 + r else 0;
      assert 0 <= ColumnWidth(size, furigana) <= wide;
      ProductGrows(columns, c, ColumnWidth(size, furigana), wide);
    }
  }

  lemma NeededHolds(count: nat, rows: int)
    requires rows >= 1
    ensures var c := (count + rows - 1) / rows; c >= 0 && c * rows >= count
  {
    var c := (count + rows - 1) / rows;
    assert count + rows - 1 == c * rows + (count + rows - 1) % rows;
    QuotientAtLeast(count + rows - 1, rows, 0);
  }

  lemma RowsFit(height: int, cell: int)
    requires height >= 0 && cell > 0
    ensures height / cell * cell <= height
  {
  }

  lemma AtMostRows(height: int, cell: int, p: nat)
    requires height >= 0 && cell > 0 && p >= 1 && (p == 1 || p * cell <= height)
    ensures p <= Max(1, height / cell)
  {
    if p > 1 {
      QuotientAtLeast(height, cell, p);
    }
  }

  lemma AtLeastNeeded(count: nat, rows: int, c: nat, p: nat)
    requires 1 <= p <= rows && c * p >= count
    ensures c >= (count + rows - 1) / rows
  {
    assert c * (rows - p) == c * rows - c * p;
    assert (c + 1) * rows == c * rows + rows;
    QuotientBelow(count + rows - 1, rows, c + 1);
  }

  /** `_fit_vertical_font_size`. */
  method FitVerticalFontSize(measured: int -> int, count: nat, furigana: bool, width: int, height: int) returns (best: int)
    requires MetricGrows(measured) && height >= 0
    ensures var fits, top := ColumnsFit(measured, count, furigana, width, height), Min(MAX_FONT, height / 2);
            top >= MIN_FONT ==>
              if fits(MIN_FONT) then IsLargest(fits, top, best)
              else best == if fits(MIN_FONT - 1) then MIN_FONT - 1 else MIN_FONT
  {
    ColumnsAreMonotone(measured, count, furigana, width, height);
    best := Search(ColumnsFit(measured, count, furigana, width, height), Min(MAX_FONT, height / 2));
  }
}
