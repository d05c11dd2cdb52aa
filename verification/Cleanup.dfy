/**
 Masked cleanup and its frame: the tiles of server/pipeline/cleanup.py, cleanup_bubble of
 server/webtoon/inpainter.py, and what server/worker/job.py later checks about the page.
 */
module Cleanup {
  import opened Basics
  import opened Sorting

  type Point = (int, int)

  type Mask = set<Point>

  datatype Rgb = Rgb(r: int, g: int, b: int)

  /** Left and top inclusive, right and bottom exclusive. */
  datatype Area = Area(x1: int, y1: int, x2: int, y2: int)

  predicate Inside(p: Point, a: Area) {
    a.x1 <= p.0 < a.x2 && a.y1 <= p.1 < a.y2
  }

  // ----- tiles ------------------------------------------------------------------------------

  datatype Policy = Policy(contextPx: nat, maxTiles: nat, maxTileWidth: nat, maxTileHeight: nat, maxTilePixels: nat)

  /** Boxes of connected components: within the page, every mask pixel in one of them. */
  predicate AreComponents(mask: Mask, boxes: seq<Area>, width: int, height: int) {
    && (forall i | 0 <= i < |boxes| ::
          0 <= boxes[i].x1 < boxes[i].x2 <= width && 0 <= boxes[i].y1 < boxes[i].y2 <= height)
    && forall p | p in mask :: exists i | 0 <= i < |boxes| :: Inside(p, boxes[i])
  }

  function Tile(box: Area, policy: Policy, width: int, height: int): Area {
    Area(Max(0, box.x1 - policy.contextPx), Max(0, box.y1 - policy.contextPx),
         Min(width, box.x2 + policy.contextPx), Min(height, box.y2 + policy.contextPx))
  }

  predicate WithinBudget(t: Area, policy: Policy) {
    && t.x2 - t.x1 <= policy.maxTileWidth && t.y2 - t.y1 <= policy.maxTileHeight
    && (t.x2 - t.x1) * (t.y2 - t.y1) <= policy.maxTilePixels
  }

  function TileKey(t: Area): Key {
    [N(t.y1 as real), N(t.x1 as real), N(t.y2 as real), N(t.x2 as real)]
  }

  predicate Covered(mask: Mask, tiles: seq<Area>) {
    forall p | p in mask :: exists i | 0 <= i < |tiles| :: Inside(p, tiles[i])
  }

  /** `_tiles`; `None` is an exceeded budget. */
  method Tiles(ghost mask: Mask, boxes: seq<Area>, policy: Policy, width: int, height: int) returns (r: Option<seq<Area>>)
    requires AreComponents(mask, boxes, width, height)
    ensures r.None? <==> |boxes| > policy.maxTiles
                         || exists i | 0 <= i < |boxes| :: !WithinBudget(Tile(boxes[i], policy, width, height), policy)
    ensures r.Some? ==>
              && Covered(mask, r.value) && |r.value| == |boxes| && InOrder(TileKey, r.value)
              && forall i | 0 <= i < |r.value| :: WithinBudget(r.value[i], policy) && IsOnPage(r.value[i], width, height)
  {
    var tiles: seq<Area> := [];
    hide WithinBudget;
    for i := 0 to |boxes|
      invariant |tiles| == i
      invariant forall k | 0 <= k < i :: tiles[k] == Tile(boxes[k], policy, width, height) && WithinBudget(tiles[k], policy)
    {
      var tile := Tile(boxes[i], policy, width, height);
      if !WithinBudget(tile, policy) {
        return None;
      }
      tiles := tiles + [tile];
    }
    var sorted := Sort(TileKey, tiles);
    SortInOrder(TileKey, tiles);
    MultisetMembers(sorted, tiles);
    assert |sorted| == |multiset(sorted)| == |multiset(tiles)| == |tiles|;
    if |sorted| > policy.maxTiles {
      return None;
    }
    TilesCover(mask, boxes, policy, width, height, tiles, sorted);
    return Some(sorted);
  }

  predicate IsOnPage(t: Area, width: int, height: int) {
    0 <= t.x1 < t.x2 <= width && 0 <= t.y1 < t.y2 <= height
  }

  lemma TilesCover(mask: Mask, boxes: seq<Area>, policy: Policy, width: int, height: int, tiles: seq<Area>, sorted: seq<Area>)
    requires AreComponents(mask, boxes, width, height) && |tiles| == |boxes|
    requires forall k | 0 <= k < |tiles| :: tiles[k] == Tile(boxes[k], policy, width, height) && WithinBudget(tiles[k], policy)
    requires forall t :: t in sorted <==> t in tiles
    ensures Covered(mask, sorted)
    ensures forall i | 0 <= i < |sorted| :: WithinBudget(sorted[i], policy) && IsOnPage(sorted[i], width, height)
  {
    hide WithinBudget;
    forall p | p in mask ensures exists i | 0 <= i < |sorted| :: Inside(p, sorted[i]) {
      var k :| 0 <= k < |boxes| && Inside(p, boxes[k]);
      assert tiles[k] in tiles;
      assert Inside(p, tiles[k]);
    }
    forall i | 0 <= i < |sorted| ensures WithinBudget(sorted[i], policy) && IsOnPage(sorted[i], width, height) {
      assert sorted[i] in sorted;
      var k :| 0 <= k < |tiles| && tiles[k] == sorted[i];
    }
  }

  /** Within so many pixels of the component, in both directions. */
  ghost predicate Near(p: Point, box: Area, distance: nat) {
    exists q: Point :: Inside(q, box) && Abs(p.0 - q.0) <= distance && Abs(p.1 - q.1) <= distance
  }

  function Abs(x: int): nat {
    if x < 0 then -x else x
  }

  /** A tile is its component with the context around it, as far as the page goes. */
  lemma TileHoldsTheContext(box: Area, policy: Policy, width: int, height: int, p: Point)
    requires box.x1 < box.x2 && box.y1 < box.y2
    ensures Inside(p, Tile(box, policy, width, height)) <==>
              0 <= p.0 < width && 0 <= p.1 < height && Near(p, box, policy.contextPx)
  {
    var q: Point := (Max(box.x1, Min(p.0, box.x2 - 1)), Max(box.y1, Min(p.1, box.y2 - 1)));
    assert Inside(q, box);
    if Inside(p, Tile(box, policy, width, height)) {
      assert Abs(p.0 - q.0) <= policy.contextPx && Abs(p.1 - q.1) <= policy.contextPx;
    }
  }

  /** Tiles are pasted from the top, and from the left where they start level. */
  lemma TilesFromTheTop(tiles: seq<Area>, i: nat, j: nat)
    requires InOrder(TileKey, tiles) && i < j < |tiles|
    ensures var a, b := tiles[i], tiles[j];
      a.y1 < b.y1 || (a.y1 == b.y1 && (a.x1 < b.x1 || (a.x1 == b.x1 && (a.y2 < b.y2 || (a.y2 == b.y2 && a.x2 <= b.x2)))))
  {
    var a, b := TileKey(tiles[i]), TileKey(tiles[j]);
    assert KeyAtMost(a, b);
    var a1, b1 := a[1..], b[1..];
    var a2, b2 := a1[1..], b1[1..];
    var a3, b3 := a2[1..], b2[1..];
    assert KeyAtMost(a, b) <==> if a[0] == b[0] then KeyAtMost(a1, b1) else PartAtMost(a[0], b[0]);
    assert KeyAtMost(a1, b1) <==> if a1[0] == b1[0] then KeyAtMost(a2, b2) else PartAtMost(a1[0], b1[0]);
    assert KeyAtMost(a2, b2) <==> if a2[0] == b2[0] then KeyAtMost(a3, b3) else PartAtMost(a2[0], b2[0]);
  }

  // ----- painting -----------------------------------------------------------------------------

  /** The page's pixels, row by row. */
  type Image = array2<Rgb>

  /** A result crop: its pixel at an offset from the tile's corner. */
  type Crop = (int, int) -> Rgb

  /** `_fill_masked`: exactly the mask's pixels get the colour. */
  method FillMasked(dest: Image, mask: Mask, color: Rgb)
    modifies dest
    ensures forall x, y | 0 <= x < dest.Length1 && 0 <= y < dest.Length0 ::
              dest[y, x] == if (x, y) in mask then color else old(dest[y, x])
  {
    for y := 0 to dest.Length0
      invariant forall x, v | 0 <= x < dest.Length1 && 0 <= v < dest.Length0 ::
        dest[v, x] == if v < y && (x, v) in mask then color else old(dest[v, x])
    {
      for x := 0 to dest.Length1
        invariant forall u, v | 0 <= u < dest.Length1 && 0 <= v < dest.Length0 ::
          dest[v, u] == if (v < y || (v == y && u < x)) && (u, v) in mask then color else old(dest[v, u])
      {
        if (x, y) in mask {
          dest[y, x] := color;
        }
      }
    }
  }

  function Composite(tile: Area, crop: Crop, mask: Mask, p: Point, before: Rgb): Rgb {
    if Inside(p, tile) && p in mask then crop(p.0 - tile.x1, p.1 - tile.y1) else before
  }

  /** One tile's composite: the result inside the mask, the target outside it. */
  method PasteTile(dest: Image, tile: Area, crop: Crop, mask: Mask)
    requires IsOnPage(tile, dest.Length1, dest.Length0)
    modifies dest
    ensures forall x, y | 0 <= x < dest.Length1 && 0 <= y < dest.Length0 ::
              dest[y, x] == Composite(tile, crop, mask, (x, y), old(dest[y, x]))
  {
    for y := tile.y1 to tile.y2
      invariant forall x, v | 0 <= x < dest.Length1 && 0 <= v < dest.Length0 ::
        dest[v, x] == if v < y then Composite(tile, crop, mask, (x, v), old(dest[v, x])) else old(dest[v, x])
    {
      for x := tile.x1 to tile.x2
        invariant forall u, v | 0 <= u < dest.Length1 && 0 <= v < dest.Length0 ::
          dest[v, u] == if v < y || (v == y && u < x) then Composite(tile, crop, mask, (u, v), old(dest[v, u]))
                        else old(dest[v, u])
      {
        if (x, y) in mask {
          dest[y, x] := crop(x - tile.x1, y - tile.y1);
        }
      }
    }
  }

  /** After some tiles: the last of them around a mask pixel decides it. */
  function Painted(tiles: seq<Area>, crops: seq<Crop>, mask: Mask, p: Point, before: Rgb): Rgb
    requires |crops| == |tiles|
  {
    if tiles == [] then before
    else
      var n := |tiles| - 1;
      Composite(tiles[n], crops[n], mask, p, Painted(tiles[..n], crops[..n], mask, p, before))
  }

  /** The last tile around a point. */
  predicate Decides(tiles: seq<Area>, p: Point, i: int) {
    0 <= i < |tiles| && Inside(p, tiles[i]) && forall k | i < k < |tiles| :: !Inside(p, tiles[k])
  }

  predicate Around(tiles: seq<Area>, p: Point) {
    exists i | 0 <= i < |tiles| :: Inside(p, tiles[i])
  }

  predicate ShowsTile(tiles: seq<Area>, crops: seq<Crop>, p: Point, color: Rgb, i: int) {
    Decides(tiles, p, i) && i < |crops| && color == crops[i](p.0 - tiles[i].x1, p.1 - tiles[i].y1)
  }

  /** Outside the mask nothing is painted; a mask pixel some tile holds shows the last such tile's result. */
  lemma {:induction false} PaintedBy(tiles: seq<Area>, crops: seq<Crop>, mask: Mask, p: Point, before: Rgb)
    requires |crops| == |tiles|
    ensures p !in mask ==> Painted(tiles, crops, mask, p, before) == before
    ensures p in mask && Around(tiles, p) ==>
              exists i :: ShowsTile(tiles, crops, p, Painted(tiles, crops, mask, p, before), i)
    decreases |tiles|
  {
    if tiles != [] {
      var n := |tiles| - 1;
      PaintedBy(tiles[..n], crops[..n], mask, p, before);
      if p in mask && Around(tiles, p) {
        var color := Painted(tiles, crops, mask, p, before);
        if Inside(p, tiles[n]) {
          assert ShowsTile(tiles, crops, p, color, n);
        } else {
          hide Painted, Inside;
          var i :| ShowsTile(tiles[..n], crops[..n], p, color, i);
          assert ShowsTile(tiles, crops, p, color, i);
        }
      }
    }
  }

  /** Tile after tile. */
  method PasteTiles(dest: Image, tiles: seq<Area>, crops: seq<Crop>, mask: Mask)
    requires |crops| == |tiles| && forall i | 0 <= i < |tiles| :: IsOnPage(tiles[i], dest.Length1, dest.Length0)
    modifies dest
    ensures forall x, y | 0 <= x < dest.Length1 && 0 <= y < dest.Length0 ::
              dest[y, x] == Painted(tiles, crops, mask, (x, y), old(dest[y, x]))
  {
    hide Composite;
    for i := 0 to |tiles|
      invariant forall x, y | 0 <= x < dest.Length1 && 0 <= y < dest.Length0 ::
        dest[y, x] == Painted(tiles[..i], crops[..i], mask, (x, y), old(dest[y, x]))
    {
      PasteTile(dest, tiles[i], crops[i], mask);
      PaintedNext(tiles, crops, mask, i);
    }
    assert tiles[..|tiles|] == tiles && crops[..|tiles|] == crops;
  }

  lemma PaintedNext(tiles: seq<Area>, crops: seq<Crop>, mask: Mask, i: nat)
    requires i < |tiles| == |crops|
    ensures forall p, before ::
      Painted(tiles[..i + 1], crops[..i + 1], mask, p, before)
      == Composite(tiles[i], crops[i], mask, p, Painted(tiles[..i], crops[..i], mask, p, before))
  {
    assert tiles[..i + 1][..i] == tiles[..i] && crops[..i + 1][..i] == crops[..i];
    hide Composite;
  }

  // ----- one bubble ------------------------------------------------------------------------------

  /** The removal mask of a bubble: over budget, empty, or its pixels and their components. */
  datatype Build = OverBudget | EmptyMask | Built(mask: Mask, boxes: seq<Area>)

  /** What cleanup meets on its way. */
  datatype Circumstances = Circumstances(
    enabled: bool,
    build: Build,
    policy: Policy,
    uniform: Option<Rgb>,
    background: Rgb,
    hostMemory: bool,
    gpuMemory: bool,
    results: Option<seq<Crop>>)

  datatype Method = Disabled | Nothing | UniformFill | LamaTiles

  datatype Outcome = Outcome(applied: bool, how: Method, degraded: bool, mask: Option<Mask>)

  /** The components are components, and the backend answers a request for each tile. */
  predicate Possible(c: Circumstances, width: int, height: int) {
    c.build.Built? ==>
      && AreComponents(c.build.mask, c.build.boxes, width, height)
      && (c.results.Some? ==> |c.results.value| == |c.build.boxes|)
  }

  predicate TilesOverBudget(boxes: seq<Area>, policy: Policy, width: int, height: int) {
    |boxes| > policy.maxTiles || exists i | 0 <= i < |boxes| :: !WithinBudget(Tile(boxes[i], policy, width, height), policy)
  }

  /** Which way cleanup goes. */
  function Decision(c: Circumstances, width: int, height: int): Outcome {
    if !c.enabled then Outcome(false, Disabled, false, None)
    else if !c.build.Built? then Outcome(false, Nothing, true, None)
    else
      var mask := Some(c.build.mask);
      if TilesOverBudget(c.build.boxes, c.policy, width, height) then Outcome(true, UniformFill, true, mask)
      else if c.uniform.Some? then Outcome(true, UniformFill, false, mask)
      else if !c.hostMemory || !c.gpuMemory || c.results == None then Outcome(true, UniformFill, true, mask)
      else Outcome(true, LamaTiles, false, mask)
  }

  /** Inpainting happens only where nothing speaks against it, and whatever does is told. */
  lemma WhenInpainted(c: Circumstances, width: int, height: int)
    ensures var r := Decision(c, width, height);
      var wanted := c.enabled && c.build.Built?;
      var small := wanted && |c.build.boxes| <= c.policy.maxTiles
                   && forall b | b in c.build.boxes :: WithinBudget(Tile(b, c.policy, width, height), c.policy);
      && (r.applied <==> wanted) && (r.mask == if wanted then Some(c.build.mask) else None)
      && (r.how == LamaTiles <==> small && c.uniform == None && c.hostMemory && c.gpuMemory && c.results.Some?)
      && (r.how == UniformFill && !r.degraded <==> small && c.uniform.Some?)
      && (r.degraded <==> c.enabled && (!c.build.Built? || r.how == UniformFill) && !(small && c.uniform.Some?))
  {
    hide Tile, WithinBudget;
    if c.build.Built? {
      assert forall b :: b in c.build.boxes <==> exists i | 0 <= i < |c.build.boxes| :: c.build.boxes[i] == b;
    }
  }

  function MaskOf(outcome: Outcome): Mask {
    if outcome.mask == None then {} else outcome.mask.value
  }

  /** What a pixel becomes. */
  ghost predicate Becomes(c: Circumstances, outcome: Outcome, tiles: seq<Area>, p: Point, before: Rgb, after: Rgb) {
    if p !in MaskOf(outcome) then after == before
    else if outcome.how == LamaTiles then c.results.Some? && exists i :: ShowsTile(tiles, c.results.value, p, after, i)
    else if outcome.degraded then after == c.background
    else c.uniform == Some(after)
  }

  /**
   `cleanup_bubble`: the mask it reports is exactly the set of pixels it may change, and
   each of them is replaced, by the fill colour or by the last tile around it.
   */
  method CleanupBubble(dest: Image, c: Circumstances) returns (outcome: Outcome, ghost tiles: seq<Area>)
    requires Possible(c, dest.Length1, dest.Length0)
    modifies dest
    ensures outcome == Decision(c, dest.Length1, dest.Length0)
    ensures forall x, y | 0 <= x < dest.Length1 && 0 <= y < dest.Length0 ::
              Becomes(c, outcome, tiles, (x, y), old(dest[y, x]), dest[y, x])
    ensures outcome.how == LamaTiles ==> Covered(MaskOf(outcome), tiles) && InOrder(TileKey, tiles)
  {
    tiles := [];
    hide Tile, WithinBudget, AreComponents, Covered, InOrder;
    if !c.enabled {
      return Outcome(false, Disabled, false, None), [];
    }
    if !c.build.Built? {
      return Outcome(false, Nothing, true, None), [];
    }
    var mask := c.build.mask;
    var plan := Tiles(mask, c.build.boxes, c.policy, dest.Length1, dest.Length0);
    if plan == None {
      FillMasked(dest, mask, c.background);
      return Outcome(true, UniformFill, true, Some(mask)), [];
    }
    if c.uniform.Some? {
      FillMasked(dest, mask, c.uniform.value);
      return Outcome(true, UniformFill, false, Some(mask)), [];
    }
    if !c.hostMemory || !c.gpuMemory || c.results == None {
      FillMasked(dest, mask, c.background);
      return Outcome(true, UniformFill, true, Some(mask)), [];
    }
    tiles := plan.value;
    PasteTiles(dest, plan.value, c.results.value, mask);
    forall x, y | 0 <= x < dest.Length1 && 0 <= y < dest.Length0
      ensures Becomes(c, Outcome(true, LamaTiles, false, Some(mask)), tiles, (x, y), old(dest[y, x]), dest[y, x])
    {
      PaintedBy(tiles, c.results.value, mask, (x, y), old(dest[y, x]));
      CoveredIsAround(mask, tiles, (x, y));
    }
    return Outcome(true, LamaTiles, false, Some(mask)), tiles;
  }

  lemma CoveredIsAround(mask: Mask, tiles: seq<Area>, p: Point)
    requires Covered(mask, tiles)
    ensures p in mask ==> Around(tiles, p)
  {
  }

  // ----- a page of bubbles -----------------------------------------------------------------------

  function Union(outcomes: seq<Outcome>): Mask {
    if outcomes == [] then {} else Union(outcomes[..|outcomes| - 1]) + MaskOf(outcomes[|outcomes| - 1])
  }

  /** Whatever happens at each bubble, only pixels of reported masks change. */
  method CleanPage(dest: Image, bubbles: seq<Circumstances>) returns (outcomes: seq<Outcome>)
    requires forall i | 0 <= i < |bubbles| :: Possible(bubbles[i], dest.Length1, dest.Length0)
    modifies dest
    ensures |outcomes| == |bubbles|
    ensures forall i | 0 <= i < |bubbles| :: outcomes[i] == Decision(bubbles[i], dest.Length1, dest.Length0)
    ensures forall x, y | 0 <= x < dest.Length1 && 0 <= y < dest.Length0 ::
              (x, y) !in Union(outcomes) ==> dest[y, x] == old(dest[y, x])
  {
    outcomes := [];
    hide Possible, Decision, ShowsTile;
    for i := 0 to |bubbles|
      invariant |outcomes| == i && forall k | 0 <= k < i :: outcomes[k] == Decision(bubbles[k], dest.Length1, dest.Length0)
      invariant forall x, y | 0 <= x < dest.Length1 && 0 <= y < dest.Length0 ::
        (x, y) !in Union(outcomes) ==> dest[y, x] == old(dest[y, x])
    {
      var outcome, tiles := CleanupBubble(dest, bubbles[i]);
      assert (outcomes + [outcome])[..i] == outcomes;
      outcomes := outcomes + [outcome];
    }
  }

  // ----- what is checked later -----------------------------------------------------------------------

  function Least(s: set<int>): (m: int)
    requires s != {}
    ensures m in s && forall n | n in s :: m <= n
  {
    LeastExists(s);
    var m :| m in s && forall n | n in s :: m <= n;
    m
  }

  function Greatest(s: set<int>): (m: int)
    requires s != {}
    ensures m in s && forall n | n in s :: n <= m
  {
    GreatestExists(s);
    var m :| m in s && forall n | n in s :: n <= m;
    m
  }

  lemma Member<T>(s: set<T>) returns (x: T)
    requires s != {}
    ensures x in s
  {
    if y :| y in s {
      x := y;
    } else {
      assert false;
    }
  }

  lemma {:induction false} LeastExists(s: set<int>)
    requires s != {}
    ensures exists m :: m in s && forall n | n in s :: m <= n
    decreases |s|
  {
    var x := Member(s);
    var rest := s - {x};
    if rest == {} {
      assert s == {x};
    } else {
      LeastExists(rest);
      var m :| m in rest && forall n | n in rest :: m <= n;
      assert forall n | n in s :: n == x || n in rest;
      assert x in s && m in s;
    }
  }

  lemma {:induction false} GreatestExists(s: set<int>)
    requires s != {}
    ensures exists m :: m in s && forall n | n in s :: n <= m
    decreases |s|
  {
    var x := Member(s);
    var rest := s - {x};
    if rest == {} {
      assert s == {x};
    } else {
      GreatestExists(rest);
      var m :| m in rest && forall n | n in rest :: n <= m;
      assert forall n | n in s :: n == x || n in rest;
      assert x in s && m in s;
    }
  }

  lemma Projections(mask: Mask)
    requires mask != {}
    ensures var xs, ys := set p | p in mask :: p.0, set p | p in mask :: p.1;
      xs != {} && ys != {} && forall q | q in mask :: q.0 in xs && q.1 in ys
  {
    var p := Member(mask);
    var xs, ys := set p | p in mask :: p.0, set p | p in mask :: p.1;
    assert p.0 in xs && p.1 in ys;
  }

  /** The box just around a mask. */
  function TightBox(mask: Mask): (a: Area)
    requires mask != {}
    ensures forall p | p in mask :: Inside(p, a)
  {
    var xs, ys := set p | p in mask :: p.0, set p | p in mask :: p.1;
    Projections(mask);
    Area(Least(xs), Least(ys), Greatest(xs) + 1, Greatest(ys) + 1)
  }

  function Hull(a: Area, b: Area): Area {
    Area(Min(a.x1, b.x1), Min(a.y1, b.y1), Max(a.x2, b.x2), Max(a.y2, b.y2))
  }

  lemma InsideHull(p: Point, a: Area, b: Area)
    requires Inside(p, a) || Inside(p, b)
    ensures Inside(p, Hull(a, b))
  {
  }

  lemma HullHolds(boxes: seq<Area>, rest: Area)
    requires boxes != [] && forall i, p | 0 <= i < |boxes| - 1 && Inside(p, boxes[1..][i]) :: Inside(p, rest)
    ensures forall i, p | 0 <= i < |boxes| && Inside(p, boxes[i]) :: Inside(p, Hull(boxes[0], rest))
  {
    forall i, p | 0 <= i < |boxes| && Inside(p, boxes[i]) ensures Inside(p, Hull(boxes[0], rest)) {
      hide Hull, Inside;
      if i > 0 {
        assert Inside(p, boxes[1..][i - 1]);
      }
      InsideHull(p, boxes[0], rest);
    }
  }

  function HullOf(boxes: seq<Area>): (h: Area)
    requires boxes != []
    ensures forall i, p | 0 <= i < |boxes| && Inside(p, boxes[i]) :: Inside(p, h)
  {
    if |boxes| == 1 then boxes[0]
    else
      HullHolds(boxes, HullOf(boxes[1..]));
      Hull(boxes[0], HullOf(boxes[1..]))
  }

  function MaskBoxes(masks: seq<Option<Mask>>): seq<Area> {
    if masks == [] then []
    else
      var rest := MaskBoxes(masks[1..]);
      if masks[0] == None || masks[0].value == {} then rest else [TightBox(masks[0].value)] + rest
  }

  /** `_enclosing_region_bbox`. */
  function Enclosing(bbox: Area, width: int, height: int, semantic: Option<Area>, masks: seq<Option<Mask>>): Area {
    var h := HullOf([bbox] + ((if semantic == None then [] else [semantic.value]) + MaskBoxes(masks)));
    Area(Max(0, h.x1), Max(0, h.y1), Min(width, h.x2), Min(height, h.y2))
  }

  lemma {:induction false} MaskHasBox(masks: seq<Option<Mask>>, i: nat, p: Point)
    requires i < |masks| && masks[i].Some? && p in masks[i].value
    ensures exists k :: 0 <= k < |MaskBoxes(masks)| && Inside(p, MaskBoxes(masks)[k])
    decreases |masks|
  {
    hide TightBox;
    var boxes := MaskBoxes(masks);
    if i == 0 {
      assert Inside(p, boxes[0]);
    } else {
      MaskHasBox(masks[1..], i - 1, p);
      var rest := MaskBoxes(masks[1..]);
      var k :| 0 <= k < |rest| && Inside(p, rest[k]);
      assert boxes[|boxes| - |rest| + k] == rest[k];
    }
  }

  predicate OnPage(p: Point, width: int, height: int) {
    0 <= p.0 < width && 0 <= p.1 < height
  }

  /** The region's box holds every pixel of the masks stored with it. */
  lemma EnclosingHoldsMasks(bbox: Area, width: int, height: int, semantic: Option<Area>, masks: seq<Option<Mask>>, i: nat, p: Point)
    requires i < |masks| && masks[i].Some? && p in masks[i].value && OnPage(p, width, height)
    ensures Inside(p, Enclosing(bbox, width, height, semantic, masks))
  {
    MaskHasBox(masks, i, p);
    hide MaskBoxes, HullOf;
    var rest := MaskBoxes(masks);
    var k :| 0 <= k < |rest| && Inside(p, rest[k]);
    var front := if semantic == None then [] else [semantic.value];
    var boxes := [bbox] + (front + rest);
    assert boxes[1 + |front| + k] == rest[k];
    var h := HullOf(boxes);
    assert Inside(p, h);
    assert Enclosing(bbox, width, height, semantic, masks) == Area(Max(0, h.x1), Max(0, h.y1), Min(width, h.x2), Min(height, h.y2));
  }

  predicate HoldsBox(h: Area, a: Area) {
    h.x1 <= a.x1 && h.y1 <= a.y1 && a.x2 <= h.x2 && a.y2 <= h.y2
  }

  lemma TightBoxIsLeast(mask: Mask, h: Area)
    requires mask != {} && forall p | p in mask :: Inside(p, h)
    ensures HoldsBox(h, TightBox(mask))
  {
    var xs, ys := set p | p in mask :: p.0, set p | p in mask :: p.1;
    Projections(mask);
    assert Least(xs) in xs && Greatest(xs) in xs && Least(ys) in ys && Greatest(ys) in ys;
  }

  lemma {:induction false} HullIsLeast(boxes: seq<Area>, h: Area)
    requires boxes != [] && forall i | 0 <= i < |boxes| :: HoldsBox(h, boxes[i])
    ensures HoldsBox(h, HullOf(boxes))
    decreases |boxes|
  {
    if |boxes| > 1 {
      HullIsLeast(boxes[1..], h);
    }
  }

  lemma {:induction false} MaskBoxesWithin(masks: seq<Option<Mask>>, h: Area)
    requires forall i, p | 0 <= i < |masks| && masks[i].Some? && p in masks[i].value :: Inside(p, h)
    ensures forall k | 0 <= k < |MaskBoxes(masks)| :: HoldsBox(h, MaskBoxes(masks)[k])
    decreases |masks|
  {
    hide TightBox;
    if masks != [] {
      forall i, p | 0 <= i < |masks| - 1 && masks[1..][i].Some? && p in masks[1..][i].value ensures Inside(p, h) {
        assert masks[1..][i] == masks[i + 1];
      }
      MaskBoxesWithin(masks[1..], h);
      if masks[0].Some? && masks[0].value != {} {
        TightBoxIsLeast(masks[0].value, h);
      }
    }
  }

  /** Nothing smaller holds the region, its semantic box and the masks: a box that holds them holds it, on the page. */
  lemma EnclosingIsLeast(bbox: Area, width: int, height: int, semantic: Option<Area>, masks: seq<Option<Mask>>, h: Area)
    requires HoldsBox(h, bbox) && (semantic.Some? ==> HoldsBox(h, semantic.value))
    requires forall i, p | 0 <= i < |masks| && masks[i].Some? && p in masks[i].value :: Inside(p, h)
    ensures var e := Enclosing(bbox, width, height, semantic, masks);
      Max(0, h.x1) <= e.x1 && Max(0, h.y1) <= e.y1 && e.x2 <= Min(width, h.x2) && e.y2 <= Min(height, h.y2)
  {
    MaskBoxesWithin(masks, h);
    hide MaskBoxes, HullOf;
    var front := if semantic == None then [] else [semantic.value];
    var boxes := [bbox] + (front + MaskBoxes(masks));
    HullIsLeast(boxes, h);
    var hull := HullOf(boxes);
    assert Enclosing(bbox, width, height, semantic, masks)
        == Area(Max(0, hull.x1), Max(0, hull.y1), Min(width, hull.x2), Min(height, hull.y2));
  }

  datatype Region = Region(bbox: Area, mask: Option<Mask>, cleanup: Option<Mask>)

  predicate Bounded(mask: Option<Mask>, bbox: Area) {
    mask.Some? ==> forall p | p in mask.value :: Inside(p, bbox)
  }

  function CleanupUnion(regions: seq<Region>): Mask {
    if regions == [] then {}
    else
      var last := regions[|regions| - 1].cleanup;
      CleanupUnion(regions[..|regions| - 1]) + if last == None then {} else last.value
  }

  predicate SameSize(source: Image, base: Image, width: int, height: int) {
    source.Length1 == base.Length1 == width && source.Length0 == base.Length0 == height
  }

  /** The two images differ at most inside the mask. */
  predicate SameOutside(source: Image, base: Image, mask: Mask, width: int, height: int)
    requires SameSize(source, base, width, height)
    reads source, base
  {
    forall x, y | 0 <= x < width && 0 <= y < height && (x, y) !in mask :: base[y, x] == source[y, x]
  }

  predicate AllBounded(regions: seq<Region>) {
    forall i | 0 <= i < |regions| :: Bounded(regions[i].mask, regions[i].bbox) && Bounded(regions[i].cleanup, regions[i].bbox)
  }

  /** What the check asks of a page, its source and the cleaned base. */
  predicate RenderValid(source: Image, base: Image, width: int, height: int, regions: seq<Region>)
    reads source, base
  {
    && SameSize(source, base, width, height) && AllBounded(regions)
    && SameOutside(source, base, CleanupUnion(regions), width, height)
  }

  /** `_validate_render_artifacts`: false stands for its exceptions. */
  method ValidateRenderArtifacts(source: Image, base: Image, width: int, height: int, regions: seq<Region>) returns (ok: bool)
    ensures ok <==> RenderValid(source, base, width, height, regions)
  {
    if source.Length1 != width || source.Length0 != height || base.Length1 != width || base.Length0 != height {
      return false;
    }
    hide Bounded;
    var union: Mask := {};
    for i := 0 to |regions|
      invariant union == CleanupUnion(regions[..i])
      invariant forall k | 0 <= k < i :: Bounded(regions[k].mask, regions[k].bbox) && Bounded(regions[k].cleanup, regions[k].bbox)
    {
      if !Bounded(regions[i].mask, regions[i].bbox) || !Bounded(regions[i].cleanup, regions[i].bbox) {
        return false;
      }
      assert regions[..i + 1][..i] == regions[..i];
      if regions[i].cleanup.Some? {
        union := union + regions[i].cleanup.value;
      }
    }
    assert regions[..|regions|] == regions;
    for y := 0 to height
      invariant forall x, v | 0 <= x < width && 0 <= v < y && (x, v) !in union :: base[v, x] == source[v, x]
    {
      for x := 0 to width
        invariant forall u | 0 <= u < x && (u, y) !in union :: base[y, u] == source[y, u]
      {
        if base[y, x] != source[y, x] && (x, y) !in union {
          return false;
        }
      }
    }
    return true;
  }

  /** What is known of a bubble besides its cleanup. */
  datatype Bubble = Bubble(bbox: Area, semantic: Option<Area>, mask: Option<Mask>)

  /** The region stored for a cleaned bubble; a bubble without a mask gets an empty one. */
  function RegionOf(b: Bubble, outcome: Outcome, width: int, height: int): Region {
    Region(Enclosing(b.bbox, width, height, b.semantic, [outcome.mask, b.mask]), b.mask, Some(MaskOf(outcome)))
  }

  datatype Cleaned = Cleaned(bubble: Bubble, outcome: Outcome)

  function RegionsOf(page: seq<Cleaned>, width: int, height: int): (r: seq<Region>)
    ensures |r| == |page| && forall i | 0 <= i < |r| :: r[i] == RegionOf(page[i].bubble, page[i].outcome, width, height)
  {
    seq(|page|, i requires 0 <= i < |page| => RegionOf(page[i].bubble, page[i].outcome, width, height))
  }

  function OutcomesOf(page: seq<Cleaned>): (r: seq<Outcome>)
    ensures |r| == |page| && forall i | 0 <= i < |r| :: r[i] == page[i].outcome
  {
    seq(|page|, i requires 0 <= i < |page| => page[i].outcome)
  }

  predicate AllOnPage(mask: Mask, width: int, height: int) {
    forall p | p in mask :: OnPage(p, width, height)
  }

  /** Both masks lie on the page. */
  predicate MasksOnPage(c: Cleaned, width: int, height: int) {
    AllOnPage(MaskOf(c.outcome), width, height) && (c.bubble.mask.Some? ==> AllOnPage(c.bubble.mask.value, width, height))
  }

  lemma RegionIsBounded(c: Cleaned, width: int, height: int)
    requires MasksOnPage(c, width, height)
    ensures var r := RegionOf(c.bubble, c.outcome, width, height); Bounded(r.mask, r.bbox) && Bounded(r.cleanup, r.bbox)
  {
    hide Enclosing, Inside;
    var b, outcome := c.bubble, c.outcome;
    var masks := [outcome.mask, b.mask];
    forall p | p in MaskOf(outcome) ensures Inside(p, Enclosing(b.bbox, width, height, b.semantic, masks)) {
      EnclosingHoldsMasks(b.bbox, width, height, b.semantic, masks, 0, p);
    }
    if b.mask.Some? {
      forall p | p in b.mask.value ensures Inside(p, Enclosing(b.bbox, width, height, b.semantic, masks)) {
        EnclosingHoldsMasks(b.bbox, width, height, b.semantic, masks, 1, p);
      }
    }
  }

  lemma {:induction false} UnionOfRegions(page: seq<Cleaned>, width: int, height: int)
    ensures CleanupUnion(RegionsOf(page, width, height)) == Union(OutcomesOf(page))
    decreases |page|
  {
    hide Enclosing;
    if page != [] {
      var n := |page| - 1;
      UnionOfRegions(page[..n], width, height);
      assert RegionsOf(page, width, height)[..n] == RegionsOf(page[..n], width, height);
      assert OutcomesOf(page)[..n] == OutcomesOf(page[..n]);
    }
  }

  lemma {:induction false} RegionsAreBounded(page: seq<Cleaned>, width: int, height: int)
    requires forall i | 0 <= i < |page| :: MasksOnPage(page[i], width, height)
    ensures AllBounded(RegionsOf(page, width, height))
  {
    var regions := RegionsOf(page, width, height);
    hide Bounded, RegionOf, MasksOnPage;
    forall i | 0 <= i < |regions|
      ensures Bounded(regions[i].mask, regions[i].bbox) && Bounded(regions[i].cleanup, regions[i].bbox)
    {
      RegionIsBounded(page[i], width, height);
    }
  }

  /** A page whose base differs from its source only where cleanup reported passes the later check. */
  lemma {:induction false} CleanedPageIsValid(source: Image, base: Image, width: int, height: int, page: seq<Cleaned>)
    requires SameSize(source, base, width, height)
    requires forall i | 0 <= i < |page| :: MasksOnPage(page[i], width, height)
    requires SameOutside(source, base, Union(OutcomesOf(page)), width, height)
    ensures RenderValid(source, base, width, height, RegionsOf(page, width, height))
  {
    UnionOfRegions(page, width, height);
    RegionsAreBounded(page, width, height);
    hide SameOutside, AllBounded, CleanupUnion, Union, RegionsOf;
  }

  /** A component lies on the page, and so does a mask made of components. */
  lemma ReportedMaskIsOnPage(c: Circumstances, width: int, height: int)
    requires Possible(c, width, height)
    ensures AllOnPage(MaskOf(Decision(c, width, height)), width, height)
  {
    hide TilesOverBudget;
    var mask := MaskOf(Decision(c, width, height));
    forall p | p in mask ensures OnPage(p, width, height) {
      var i :| 0 <= i < |c.build.boxes| && Inside(p, c.build.boxes[i]);
    }
  }

  /** The detected bubbles with what cleanup reported for each. */
  function Page(bubbles: seq<Bubble>, outcomes: seq<Outcome>): (page: seq<Cleaned>)
    requires |bubbles| == |outcomes|
    ensures OutcomesOf(page) == outcomes
  {
    seq(|bubbles|, i requires 0 <= i < |bubbles| => Cleaned(bubbles[i], outcomes[i]))
  }

  lemma MasksOfPage(bubbles: seq<Bubble>, circumstances: seq<Circumstances>, outcomes: seq<Outcome>, width: int, height: int)
    requires |bubbles| == |circumstances| == |outcomes|
    requires forall i | 0 <= i < |bubbles| ::
               && Possible(circumstances[i], width, height) && outcomes[i] == Decision(circumstances[i], width, height)
               && (bubbles[i].mask.Some? ==> AllOnPage(bubbles[i].mask.value, width, height))
    ensures forall i | 0 <= i < |bubbles| :: MasksOnPage(Page(bubbles, outcomes)[i], width, height)
  {
    hide Possible, Decision, AllOnPage;
    forall i | 0 <= i < |bubbles| ensures MasksOnPage(Page(bubbles, outcomes)[i], width, height) {
      ReportedMaskIsOnPage(circumstances[i], width, height);
    }
  }

  /**
   From the copy of a page through its cleanup and the regions stored for it to the check
   made before it is rendered again: however each bubble went, the check passes.
   */
  method CleanAndRecheck(source: Image, base: Image, bubbles: seq<Bubble>, circumstances: seq<Circumstances>)
    returns (regions: seq<Region>, ok: bool)
    requires source != base && SameSize(source, base, base.Length1, base.Length0)
    requires SameOutside(source, base, {}, base.Length1, base.Length0)
    requires |bubbles| == |circumstances|
    requires forall i | 0 <= i < |bubbles| ::
               && Possible(circumstances[i], base.Length1, base.Length0)
               && (bubbles[i].mask.Some? ==> AllOnPage(bubbles[i].mask.value, base.Length1, base.Length0))
    modifies base
    ensures ok && |regions| == |bubbles|
    ensures forall i | 0 <= i < |bubbles| ::
              regions[i] == RegionOf(bubbles[i], Decision(circumstances[i], base.Length1, base.Length0), base.Length1, base.Length0)
  {
    hide Possible, Decision, AllOnPage, RegionOf, Union, MasksOnPage, RenderValid, AllBounded;
    var outcomes := CleanPage(base, circumstances);
    ghost var width, height := base.Length1, base.Length0;
    MasksOfPage(bubbles, circumstances, outcomes, width, height);
    regions := RegionsOf(Page(bubbles, outcomes), base.Length1, base.Length0);
    CleanedPageIsValid(source, base, width, height, Page(bubbles, outcomes));
    ok := ValidateRenderArtifacts(source, base, base.Length1, base.Length0, regions);
  }
}
