/**
 Vertical slices of a text column: `column_chunks` of server/kindle/book_layout.py, over
 exact real steps, and `character_spans` of server/kindle/book_processor.py, over steps
 that may be rounded.
 */
module Columns {
  import opened Basics
  import opened Doubles

  // ----- rounding ----------------------------------------------------------------------------

  /** Python's `int` of a float. */
  function Trunc(x: real): int {
    if x >= 0.0 then x.Floor else -((-x).Floor)
  }

  // ----- chunks of a run -----------------------------------------------------------------------

  datatype Slice = Slice(y0: int, y1: int)

  /** How many chunks a run of glyphs is cut into. */
  function CountOf(span: int, chunkSpan: int): (n: int)
    requires chunkSpan >= 1
    ensures n >= 1
  {
    Max(1, Round(span as real / chunkSpan as real))
  }

  function Times(i: int, step: real): real {
    i as real * step
  }

  /** `length` cut into `count` even steps. */
  function StepOf(length: int, count: int): real
    requires count >= 1
  {
    length as real / count as real
  }

  /** Where the i-th of `count` even steps along the run falls. */
  function Boundary(run: Slice, count: int, i: int): int
    requires count >= 1
  {
    run.y0 + Round(Times(i, StepOf(run.y1 - run.y0, count)))
  }

  function Chunk(run: Slice, count: int, i: int): Slice
    requires 0 <= i < count
  {
    Slice(Boundary(run, count, i), if i == count - 1 then run.y1 else Boundary(run, count, i + 1))
  }

  function ChunksOf(run: Slice, chunkSpan: int): (r: seq<Slice>)
    requires chunkSpan >= 1
  {
    if run.y1 - run.y0 <= 0 then []
    else
      var count := CountOf(run.y1 - run.y0, chunkSpan);
      seq(count, i requires 0 <= i < count => Chunk(run, count, i))
  }

  /** Consecutive, non-empty, and together exactly the run. */
  predicate Tiles(run: Slice, slices: seq<Slice>) {
    && slices != [] && slices[0].y0 == run.y0 && slices[|slices| - 1].y1 == run.y1
    && (forall i | 0 <= i < |slices| :: slices[i].y0 < slices[i].y1)
    && (forall i | 0 <= i < |slices| - 1 :: slices[i].y1 == slices[i + 1].y0)
  }

  lemma Scale(a: real, b: real, c: real)
    requires a <= b && c >= 0.0
    ensures a * c <= b * c
  {
  }

  /** No more chunks than pixels. */
  lemma CountAtMostSpan(span: int, chunkSpan: int)
    requires span >= 1 && chunkSpan >= 1
    ensures CountOf(span, chunkSpan) <= span
  {
    var x := span as real / chunkSpan as real;
    assert x * chunkSpan as real == span as real;
    if chunkSpan == 1 {
    } else {
      Scale(2.0, chunkSpan as real, x);
      RoundNear(x);
    }
  }

  lemma StepIs(span: int, count: int)
    requires 1 <= count <= span
    ensures StepOf(span, count) >= 1.0 && Times(count, StepOf(span, count)) == span as real
  {
    var step := StepOf(span, count);
    assert step * count as real == span as real;
    if step < 1.0 {
      StrictScale(step, 1.0, count as real);
    }
  }

  lemma NoSteps(step: real)
    ensures Times(0, step) == 0.0
  {
  }

  lemma OneStepOn(i: int, step: real)
    ensures Times(i + 1, step) == Times(i, step) + step
    ensures step == 1.0 ==> Times(i, step) == i as real
  {
  }

  /** One boundary lies before the next. */
  lemma BoundariesRise(run: Slice, count: int, i: int)
    requires 1 <= count <= run.y1 - run.y0
    ensures Boundary(run, count, i) < Boundary(run, count, i + 1)
  {
    var step := StepOf(run.y1 - run.y0, count);
    StepIs(run.y1 - run.y0, count);
    OneStepOn(i, step);
    OneStepOn(i + 1, step);
    hide Round, Times, StepOf;
    if step == 1.0 {
    } else {
    }
  }

  lemma LastBoundary(run: Slice, count: int)
    requires 1 <= count <= run.y1 - run.y0
    ensures Boundary(run, count, count - 1) < run.y1
  {
    var span := run.y1 - run.y0;
    var step := StepOf(span, count);
    StepIs(span, count);
    OneStepOn(count - 1, step);
    hide Round, Times, StepOf;
  }

  /** The chunks of a run tile it exactly, without an empty one. */
  lemma ChunksTileTheRun(run: Slice, chunkSpan: int)
    requires chunkSpan >= 1 && run.y0 < run.y1
    ensures Tiles(run, ChunksOf(run, chunkSpan))
  {
    var span := run.y1 - run.y0;
    var count := CountOf(span, chunkSpan);
    var r := ChunksOf(run, chunkSpan);
    CountAtMostSpan(span, chunkSpan);
    hide Boundary, CountOf;
    LastBoundary(run, count);
    forall i | 0 <= i < count - 1 ensures r[i].y0 < r[i].y1 && r[i].y1 == r[i + 1].y0 {
      BoundariesRise(run, count, i);
    }
  }

  /** A chunk is never much longer than asked for, nor, when a run is cut at all, much shorter. */
  lemma StepIsNearTheTarget(span: int, chunkSpan: int)
    requires span >= 1 && chunkSpan >= 1
    ensures var count := CountOf(span, chunkSpan);
      && 2.0 * (span as real / count as real) <= 3.0 * chunkSpan as real
      && (count > 1 ==> 4.0 * (span as real / count as real) >= 3.0 * chunkSpan as real)
  {
    var c, n := chunkSpan as real, CountOf(span, chunkSpan) as real;
    var x := span as real / c;
    assert x * c == span as real;
    RoundBounds(x);
    assert 2.0 * x <= 3.0 * n && (n > 1.0 ==> 4.0 * x >= 3.0 * n);
    hide CountOf;
    var step := span as real / n;
    assert step * n == x * c;
    Quotient(step, n, x, c);
  }

  lemma RoundBounds(x: real)
    requires x > 0.0
    ensures var n := Max(1, Round(x)) as real;
      2.0 * x <= 3.0 * n && (n > 1.0 ==> 4.0 * x >= 3.0 * n)
  {
  }

  lemma Quotient(step: real, n: real, x: real, c: real)
    requires n >= 1.0 && c >= 1.0 && x > 0.0 && step * n == x * c && 2.0 * x <= 3.0 * n
    ensures 2.0 * step <= 3.0 * c && (4.0 * x >= 3.0 * n ==> 4.0 * step >= 3.0 * c)
  {
    Scale(2.0 * x, 3.0 * n, c);
    assert 2.0 * step * n == 2.0 * x * c && 3.0 * n * c == 3.0 * c * n;
    if 4.0 * x >= 3.0 * n {
      Scale(3.0 * n, 4.0 * x, c);
      assert 4.0 * step * n == 4.0 * x * c;
    }
  }

  lemma StrictScale(a: real, b: real, n: real)
    requires a < b && n > 0.0
    ensures a * n < b * n
  {
  }

  // ----- the methods ------------------------------------------------------------------------------

  function AllChunks(runs: seq<Slice>, chunkSpan: int): seq<Slice>
    requires chunkSpan >= 1
  {
    if runs == [] then [] else ChunksOf(runs[0], chunkSpan) + AllChunks(runs[1..], chunkSpan)
  }

  method RunChunks(run: Slice, chunkSpan: int) returns (chunks: seq<Slice>)
    requires chunkSpan >= 1
    ensures chunks == ChunksOf(run, chunkSpan)
  {
    chunks := [];
    var span := run.y1 - run.y0;
    if span > 0 {
      var count := CountOf(span, chunkSpan);
      hide Chunk;
      for i := 0 to count
        invariant |chunks| == i && forall j | 0 <= j < i :: chunks[j] == Chunk(run, count, j)
      {
        chunks := chunks + [Chunk(run, count, i)];
      }
    }
  }

  /** `column_chunks`: a column without runs is one run. */
  method ColumnChunks(column: Slice, runs: seq<Slice>, pitch: int, glyphsPerChunk: int) returns (chunks: seq<Slice>)
    ensures chunks == AllChunks(if runs == [] then [column] else runs, Max(1, pitch * glyphsPerChunk))
  {
    var all := if runs == [] then [column] else runs;
    var chunkSpan := Max(1, pitch * glyphsPerChunk);
    chunks := [];
    assert all[0..] == all;
    hide ChunksOf, AllChunks;
    for i := 0 to |all|
      invariant chunks + AllChunks(all[i..], chunkSpan) == AllChunks(all, chunkSpan)
    {
      NextRun(all, i, chunkSpan);
      var slices := RunChunks(all[i], chunkSpan);
      chunks := chunks + slices;
    }
    NoRunLeft(all, chunkSpan);
  }

  lemma NextRun(runs: seq<Slice>, i: nat, chunkSpan: int)
    requires i < |runs| && chunkSpan >= 1
    ensures AllChunks(runs[i..], chunkSpan) == ChunksOf(runs[i], chunkSpan) + AllChunks(runs[i + 1..], chunkSpan)
  {
    assert runs[i..][1..] == runs[i + 1..];
  }

  lemma NoRunLeft(runs: seq<Slice>, chunkSpan: int)
    requires chunkSpan >= 1
    ensures AllChunks(runs[|runs|..], chunkSpan) == []
  {
  }

  /**
   The machine's value for the start of the k-th of `count` characters of a chunk,
   `y0 + k * step`: a division, a product and a sum, each rounded to binary64.
   */
  type Placing = (Slice, int, int) -> real

  /** The same without rounding. */
  function Exact(chunk: Slice, count: int, k: int): real
    requires count >= 1
  {
    chunk.y0 as real + Times(k, StepOf(chunk.y1 - chunk.y0, count))
  }

  /** What rounding leaves: it starts exactly, keeps the order, and errs by less than a pixel. */
  ghost predicate Places(at: Placing, chunk: Slice, count: int)
    requires count >= 1
  {
    && at(chunk, count, 0) == chunk.y0 as real
    && (forall j, k | 0 <= j <= k <= count :: at(chunk, count, j) <= at(chunk, count, k))
    && (forall k | 0 <= k <= count :: Exact(chunk, count, k) - 1.0 < at(chunk, count, k) < Exact(chunk, count, k) + 1.0)
  }

  function Character(at: Placing, chunk: Slice, count: int, k: int): Slice {
    Slice(Trunc(at(chunk, count, k)), Trunc(at(chunk, count, k + 1)))
  }

  function CharactersOf(at: Placing, chunk: Slice, count: nat): seq<Slice> {
    seq(count, k => Character(at, chunk, count, k))
  }

  datatype Text = Text(slice: Slice, characters: nat)

  function AllCharacters(at: Placing, chunks: seq<Text>): seq<Slice> {
    if chunks == [] then []
    else CharactersOf(at, chunks[0].slice, chunks[0].characters) + AllCharacters(at, chunks[1..])
  }

  method ChunkCharacters(at: Placing, chunk: Slice, count: nat) returns (spans: seq<Slice>)
    ensures spans == CharactersOf(at, chunk, count)
  {
    spans := [];
    hide Character;
    for k := 0 to count
      invariant |spans| == k && forall j | 0 <= j < k :: spans[j] == Character(at, chunk, count, j)
    {
      spans := spans + [Character(at, chunk, count, k)];
    }
  }

  /** `character_spans`. */
  method CharacterSpans(at: Placing, chunks: seq<Text>) returns (spans: seq<Slice>)
    ensures spans == AllCharacters(at, chunks)
  {
    spans := [];
    assert chunks[0..] == chunks;
    hide CharactersOf;
    for i := 0 to |chunks|
      invariant spans + AllCharacters(at, chunks[i..]) == AllCharacters(at, chunks)
    {
      assert chunks[i..][0] == chunks[i] && chunks[i..][1..] == chunks[i + 1..];
      var more := ChunkCharacters(at, chunks[i].slice, chunks[i].characters);
      spans := spans + more;
    }
  }

  lemma LastPlace(chunk: Slice, count: int)
    requires count >= 1
    ensures Exact(chunk, count, count) == chunk.y1 as real
  {
    assert StepOf(chunk.y1 - chunk.y0, count) * count as real == (chunk.y1 - chunk.y0) as real;
  }

  lemma TruncWithin(x: real, lo: int, hi: int)
    requires 0 <= lo && lo as real <= x < hi as real + 1.0
    ensures lo <= Trunc(x) <= hi && x - 1.0 < Trunc(x) as real <= x
    ensures Trunc(x) == hi <==> x >= hi as real
  {
  }

  /**
   Characters follow one another without a gap from the chunk's top, never leave it, and
   start within two pixels of even places.  The last one ends at the chunk's bottom
   exactly when the computed end does not fall short of it, and a pixel above otherwise.
   */
  lemma CharactersTileTheChunk(at: Placing, chunk: Slice, count: nat)
    requires 0 <= chunk.y0 <= chunk.y1 && count > 0 && Places(at, chunk, count)
    ensures var s := CharactersOf(at, chunk, count);
      && |s| == count && s[0].y0 == chunk.y0
      && (forall k | 0 <= k < count :: chunk.y0 <= s[k].y0 <= s[k].y1 <= chunk.y1)
      && (forall k | 0 <= k < count - 1 :: s[k].y1 == s[k + 1].y0)
      && (forall k | 0 <= k < count :: Exact(chunk, count, k) - 2.0 < s[k].y0 as real < Exact(chunk, count, k) + 1.0)
      && s[count - 1].y1 == if at(chunk, count, count) >= chunk.y1 as real then chunk.y1 else chunk.y1 - 1
  {
    LastPlace(chunk, count);
    hide Trunc, Exact;
    var place := k => at(chunk, count, k);
    forall k | 0 <= k <= count
      ensures chunk.y0 <= Trunc(place(k)) <= chunk.y1 && place(k) - 1.0 < Trunc(place(k)) as real <= place(k)
    {
      TruncWithin(place(k), chunk.y0, chunk.y1);
    }
    forall j, k | 0 <= j <= k <= count ensures Trunc(place(j)) <= Trunc(place(k)) {
      TruncGrows(place(j), place(k));
    }
    TruncWithin(place(0), chunk.y0, chunk.y0);
    TruncWithin(place(count), chunk.y0, chunk.y1);
  }

  lemma TruncGrows(x: real, y: real)
    requires x <= y
    ensures Trunc(x) <= Trunc(y)
  {
  }

  /** Exact arithmetic is one way to place characters; binary64, in FloatColumns, is another. */
  lemma ExactPlaces(chunk: Slice, count: int)
    requires chunk.y0 <= chunk.y1 && count >= 1
    ensures Places((c, n, k) => if n >= 1 then Exact(c, n, k) else 0.0, chunk, count)
  {
    var step := StepOf(chunk.y1 - chunk.y0, count);
    assert step >= 0.0;
    forall j, k | 0 <= j <= k <= count ensures Times(j, step) <= Times(k, step) {
      Scale(j as real, k as real, step);
    }
    NoSteps(step);
    hide Times, StepOf;
  }
}
