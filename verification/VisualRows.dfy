/**
 `_order_visual_rows` of server/pipeline/detection.py: rows are the connected components
 of "beside each other", read top to bottom, and within a row from right to left.
 */
module VisualRows {
  import opened Basics
  import opened JsonTree
  import opened Sorting
  import opened Detection

  predicate SameRow(a: Box, b: Box) {
    || Min(a.y2, b.y2) - Max(a.y1, b.y1) > 0
    || Max(a.y1, b.y1) - Min(a.y2, b.y2) <= Max(4, Min(a.Height(), b.Height()) / 4)
  }

  predicate Crosses(y: int, b: Box) {
    b.y1 <= y < b.y2
  }

  /** Some line crosses both, or the gap between them is at most four lines or a quarter of the lower box. */
  lemma SameRowIs(a: Box, b: Box)
    ensures SameRow(a, b) <==>
              || (exists y :: Crosses(y, a) && Crosses(y, b))
              || (var gap := if a.y2 <= b.y1 then b.y1 - a.y2 else a.y1 - b.y2;
                  gap <= 4 || (4 * gap <= a.y2 - a.y1 && 4 * gap <= b.y2 - b.y1))
  {
    var y := Max(a.y1, b.y1);
    assert Min(a.y2, b.y2) - y > 0 ==> Crosses(y, a) && Crosses(y, b);
  }

  predicate Beside(x: Item, y: Item) {
    SameRow(x.det.box, y.det.box)
  }

  lemma BesideIsSymmetric(x: Item, y: Item)
    ensures Beside(x, y) <==> Beside(y, x)
  {
  }

  ghost predicate DistinctItems(s: set<Item>) {
    forall x, y | x in s && y in s && x.det.id == y.det.id :: x == y
  }

  // ----- components -----------------------------------------------------------------------

  ghost predicate Path(s: set<Item>, p: seq<Item>) {
    p != [] && Elems(p) <= s && forall i | 0 <= i < |p| - 1 :: Beside(p[i], p[i + 1])
  }

  ghost predicate Joins(s: set<Item>, p: seq<Item>, x: Item, y: Item) {
    Path(s, p) && p[0] == x && p[|p| - 1] == y
  }

  /** A chain of neighbours within `s` leads from one to the other. */
  ghost predicate Joined(s: set<Item>, x: Item, y: Item) {
    exists p :: Joins(s, p, x, y)
  }

  /** The component of an item. */
  ghost function Row(s: set<Item>, x: Item): set<Item> {
    set y | y in s && Joined(s, x, y)
  }

  ghost function Rows(s: set<Item>): set<set<Item>> {
    set x | x in s :: Row(s, x)
  }

  lemma JoinedToItself(s: set<Item>, x: Item)
    requires x in s
    ensures Joined(s, x, x) && x in Row(s, x)
  {
    assert Joins(s, [x], x, x);
  }

  lemma JoinedOn(s: set<Item>, x: Item, y: Item, z: Item)
    requires Joined(s, x, y) && z in s && Beside(y, z)
    ensures Joined(s, x, z)
  {
    var p :| Joins(s, p, x, y);
    hide Beside;
    assert Elems(p + [z]) <= s;
    assert Joins(s, p + [z], x, z);
  }

  lemma {:induction false} JoinedAlong(s: set<Item>, x: Item, p: seq<Item>)
    requires Path(s, p) && Joined(s, x, p[0])
    ensures Joined(s, x, p[|p| - 1])
    decreases |p|
  {
    if |p| > 1 {
      JoinedOn(s, x, p[0], p[1]);
      JoinedAlong(s, x, p[1..]);
    }
  }

  lemma {:induction false} JoinedBack(s: set<Item>, p: seq<Item>)
    requires Path(s, p)
    ensures Joined(s, p[|p| - 1], p[0])
    decreases |p|
  {
    assert p[0] in Elems(p);
    if |p| == 1 {
      JoinedToItself(s, p[0]);
    } else {
      JoinedBack(s, p[1..]);
      BesideIsSymmetric(p[0], p[1]);
      JoinedOn(s, p[|p| - 1], p[1], p[0]);
    }
  }

  lemma JoinedIsSymmetric(s: set<Item>, x: Item, y: Item)
    requires Joined(s, x, y)
    ensures Joined(s, y, x)
  {
    var p :| Joins(s, p, x, y);
    JoinedBack(s, p);
  }

  lemma JoinedIsTransitive(s: set<Item>, x: Item, y: Item, z: Item)
    requires Joined(s, x, y) && Joined(s, y, z)
    ensures Joined(s, x, z)
  {
    var p :| Joins(s, p, y, z);
    JoinedAlong(s, x, p);
  }

  /** Two rows that meet are the same row. */
  lemma RowsMeet(s: set<Item>, x: Item, y: Item, z: Item)
    requires x in s && y in s && z in Row(s, x) && z in Row(s, y)
    ensures Row(s, x) == Row(s, y)
  {
    hide Joined;
    JoinedIsSymmetric(s, y, z);
    JoinedIsTransitive(s, x, z, y);
    JoinedIsSymmetric(s, x, y);
    forall w | w in s ensures w in Row(s, x) <==> w in Row(s, y) {
      if w in Row(s, x) {
        JoinedIsTransitive(s, y, x, w);
      }
      if w in Row(s, y) {
        JoinedIsTransitive(s, x, y, w);
      }
    }
  }

  /** Nothing outside is beside anything inside. */
  ghost predicate Closed(s: set<Item>, row: set<Item>) {
    forall x, y | x in row && y in s && Beside(x, y) :: y in row
  }

  lemma {:induction false} PathStays(s: set<Item>, row: set<Item>, p: seq<Item>)
    requires Path(s, p) && Closed(s, row) && p[0] in row
    ensures p[|p| - 1] in row
    decreases |p|
  {
    if |p| > 1 {
      PathStays(s, row, p[1..]);
    }
  }

  lemma ClosedIsRow(s: set<Item>, x: Item, row: set<Item>)
    requires x in row && row <= Row(s, x) && Closed(s, row)
    ensures row == Row(s, x)
  {
    forall y | y in Row(s, x) ensures y in row {
      var p :| Joins(s, p, x, y);
      PathStays(s, row, p);
    }
  }

  lemma RowIsClosed(s: set<Item>, x: Item)
    ensures Closed(s, Row(s, x))
  {
    forall y, z | y in Row(s, x) && z in s && Beside(y, z) ensures z in Row(s, x) {
      JoinedOn(s, x, y, z);
    }
  }

  /** Taking a whole row out leaves the other rows as they were. */
  lemma RowAfterRemoval(s: set<Item>, x: Item, y: Item)
    requires x in s && y in s && y !in Row(s, x)
    ensures Row(s - Row(s, x), y) == Row(s, y)
  {
    hide Beside, Joined;
    var t := s - Row(s, x);
    forall z | z in Row(t, y) ensures z in Row(s, y) {
      JoinedInMore(t, s, y, z);
    }
    JoinedToItself(t, y);
    var row := Row(t, y);
    forall a, b | a in row && b in s && Beside(a, b) ensures b in row {
      RowIsClosed(s, x);
      BesideIsSymmetric(a, b);
      assert b in t;
      JoinedOn(t, y, a, b);
    }
    ClosedIsRow(s, y, row);
  }

  lemma JoinedInMore(t: set<Item>, s: set<Item>, x: Item, y: Item)
    requires t <= s && Joined(t, x, y)
    ensures Joined(s, x, y)
  {
    var p :| Joins(t, p, x, y);
    assert Joins(s, p, x, y);
  }

  lemma RowsSplit(s: set<Item>, x: Item)
    requires x in s
    ensures Rows(s) == {Row(s, x)} + Rows(s - Row(s, x))
    ensures Row(s, x) !in Rows(s - Row(s, x))
  {
    hide Joined;
    var t := s - Row(s, x);
    forall y | y in t ensures Row(t, y) == Row(s, y) && Row(t, y) != Row(s, x) {
      RowAfterRemoval(s, x, y);
      JoinedToItself(s, y);
    }
    forall y | y in Row(s, x) ensures Row(s, y) == Row(s, x) {
      JoinedToItself(s, y);
      RowsMeet(s, x, y, y);
    }
    hide Row;
    assert forall y | y in s :: y in t || y in Row(s, x);
    forall r ensures r in Rows(s) <==> r == Row(s, x) || r in Rows(t) {
      if r in Rows(s) {
        var y :| y in s && r == Row(s, y);
        assert y in t ==> r == Row(t, y);
      }
      if r in Rows(t) {
        var y :| y in t && r == Row(t, y);
        assert r == Row(s, y);
      }
    }
  }

  // ----- keys ----------------------------------------------------------------------------------

  function KindName(k: Kind): string {
    match k case Text => "text" case Sfx => "sfx" case Balloon => "balloon" case Panel => "panel"
  }

  function IdKey(x: Item): Key {
    [T(x.det.id)]
  }

  function SeedKey(x: Item): Key {
    [N(x.det.box.y1 as real), N(-(x.det.box.x2 as real)), T(x.det.id)]
  }

  /** Right to left, then top to bottom. */
  function LineKey(x: Item): Key {
    [N(-(x.det.box.x2 as real)), N(x.det.box.y1 as real), T(KindName(x.det.kind)), T(x.det.id)]
  }

  function LeastTop(row: seq<Item>): (m: int)
    requires row != []
    ensures (forall x | x in row :: m <= x.det.box.y1) && exists x :: x in row && x.det.box.y1 == m
  {
    var first := row[0].det.box.y1;
    if |row| == 1 then first
    else
      var rest := LeastTop(row[1..]);
      assert row == [row[0]] + row[1..];
      Min(first, rest)
  }

  function LeastBottom(row: seq<Item>): (m: int)
    requires row != []
    ensures (forall x | x in row :: m <= x.det.box.y2) && exists x :: x in row && x.det.box.y2 == m
  {
    var first := row[0].det.box.y2;
    if |row| == 1 then first
    else
      var rest := LeastBottom(row[1..]);
      assert row == [row[0]] + row[1..];
      Min(first, rest)
  }

  function LeastId(row: seq<Item>): (m: string)
    requires row != []
    ensures (forall x | x in row :: AtMost(m, x.det.id)) && exists x :: x in row && x.det.id == m
  {
    var first := row[0].det.id;
    AtMostTotal(first, first);
    if |row| == 1 then first
    else
      var rest := LeastId(row[1..]);
      assert row == [row[0]] + row[1..];
      AtMostTotal(first, rest);
      SmallerOfBoth(first, rest, row);
      if AtMost(first, rest) then first else rest
  }

  lemma SmallerOfBoth(first: string, rest: string, row: seq<Item>)
    requires row != [] && row[0].det.id == first && forall x | x in row[1..] :: AtMost(rest, x.det.id)
    ensures AtMost(first, rest) ==> forall x | x in row :: AtMost(first, x.det.id)
  {
    AtMostTotal(first, first);
    if AtMost(first, rest) {
      forall x | x in row ensures AtMost(first, x.det.id) {
        if x in row[1..] {
          AtMostTransitive(first, rest, x.det.id);
        }
      }
    }
  }

  function RowKey(row: seq<Item>): Key {
    if row == [] then []
    else [N(LeastTop(row) as real), N(LeastBottom(row) as real), T(LeastId(row))]
  }

  /** A row's key does not depend on how it is arranged. */
  lemma RowKeyForgetsOrder(a: seq<Item>, b: seq<Item>)
    requires a != [] && b != [] && Elems(a) == Elems(b)
    ensures RowKey(a) == RowKey(b)
  {
    forall x ensures x in a <==> x in b {
      assert x in Elems(a) <==> x in Elems(b);
    }
    hide Elems;
    TopsAgree(a, b);
    BottomsAgree(a, b);
    IdsAgree(a, b);
  }

  lemma TopsAgree(a: seq<Item>, b: seq<Item>)
    requires a != [] && b != [] && forall x :: x in a <==> x in b
    ensures LeastTop(a) == LeastTop(b)
  {
    hide LeastTop;
  }

  lemma BottomsAgree(a: seq<Item>, b: seq<Item>)
    requires a != [] && b != [] && forall x :: x in a <==> x in b
    ensures LeastBottom(a) == LeastBottom(b)
  {
    hide LeastBottom;
  }

  lemma IdsAgree(a: seq<Item>, b: seq<Item>)
    requires a != [] && b != [] && forall x :: x in a <==> x in b
    ensures LeastId(a) == LeastId(b)
  {
    hide LeastId, AtMost;
    AtMostTotal(LeastId(a), LeastId(b));
  }

  // ----- the order ------------------------------------------------------------------------------

  function Flatten(rows: seq<seq<Item>>): seq<Item> {
    if rows == [] then [] else rows[0] + Flatten(rows[1..])
  }

  ghost function Line(row: set<Item>): seq<Item> {
    Ordering(LineKey, row)
  }

  ghost function Lines(s: set<Item>): set<seq<Item>> {
    set row | row in Rows(s) :: Line(row)
  }

  /** The rows from top to bottom, each from right to left. */
  ghost function VisualOrder(s: set<Item>): seq<Item> {
    Flatten(Ordering(RowKey, Lines(s)))
  }

  lemma RowNonempty(s: set<Item>, row: set<Item>)
    requires row in Rows(s)
    ensures row != {} && row <= s && forall x | x in row :: Row(s, x) == row
  {
    hide Joined;
    var x :| x in s && row == Row(s, x);
    JoinedToItself(s, x);
    forall y | y in row ensures Row(s, y) == row {
      JoinedToItself(s, y);
      RowsMeet(s, x, y, y);
    }
  }

  /** Lines of different rows have different keys. */
  lemma RowKeysDiffer(s: set<Item>)
    requires DistinctItems(s)
    ensures Injective(RowKey, Lines(s))
  {
    forall a, b | a in Lines(s) && b in Lines(s) && RowKey(a) == RowKey(b) ensures a == b {
      var p :| p in Rows(s) && a == Line(p);
      var q :| q in Rows(s) && b == Line(q);
      RowNonempty(s, p);
      RowNonempty(s, q);
      hide Row, Rows, Ordering, RowKey;
      assert |a| == |p| && |b| == |q|;
      var x, y := SharedId(s, a, b);
      assert p == Row(s, x) == Row(s, y) == q;
    }
  }

  lemma SharedId(s: set<Item>, a: seq<Item>, b: seq<Item>) returns (x: Item, y: Item)
    requires DistinctItems(s) && Elems(a) <= s && Elems(b) <= s && a != [] && b != [] && RowKey(a) == RowKey(b)
    ensures x in Elems(a) && y in Elems(b) && x == y
  {
    hide LeastTop, LeastBottom, LeastId, AtMost;
    assert RowKey(a)[2] == RowKey(b)[2];
    x :| x in a && x.det.id == LeastId(a);
    y :| y in b && y.det.id == LeastId(b);
    assert x in Elems(a) && y in Elems(b);
  }

  // ----- the method --------------------------------------------------------------------------------

  predicate Touches(item: Item, row: set<Item>) {
    exists m | m in row :: Beside(item, m)
  }

  /** One row grows from its seed until a whole pass adds nothing. */
  method GrowRow(remaining: seq<Item>, seed: Item) returns (row: set<Item>)
    requires seed in remaining
    ensures row == Row(Elems(remaining), seed)
  {
    ghost var s := Elems(remaining);
    JoinedToItself(s, seed);
    row := {seed};
    var changed := true;
    assert forall i | 0 <= i < |remaining| :: remaining[i] in s;
    hide Beside, Row, Touches, Elems;
    while changed
      invariant seed in row && row <= Row(s, seed) && row <= s
      invariant !changed ==> forall i | 0 <= i < |remaining| :: remaining[i] in row || !Touches(remaining[i], row)
      decreases |s - row|, changed
    {
      changed := false;
      ghost var start := row;
      for i := 0 to |remaining|
        invariant start <= row && row <= Row(s, seed) && row <= s
        invariant changed <==> row != start
        invariant !changed ==> forall k | 0 <= k < i :: remaining[k] in row || !Touches(remaining[k], row)
      {
        var item := remaining[i];
        if item !in row && Touches(item, row) {
          TouchedIsJoined(s, seed, row, item);
          row := row + {item};
          changed := true;
        }
      }
      if changed {
        Shrinks(s, start, row);
      }
    }
    PassIsClosed(remaining, row);
    ClosedIsRow(s, seed, row);
  }

  /** A pass that adds nothing leaves nothing to add. */
  lemma PassIsClosed(remaining: seq<Item>, row: set<Item>)
    requires row <= Elems(remaining)
    requires forall i | 0 <= i < |remaining| :: remaining[i] in row || !Touches(remaining[i], row)
    ensures Closed(Elems(remaining), row)
  {
    forall x, y | x in row && y in Elems(remaining) && Beside(x, y) ensures y in row {
      BesideIsSymmetric(x, y);
      var i :| 0 <= i < |remaining| && remaining[i] == y;
      assert Beside(remaining[i], x);
    }
  }

  lemma Shrinks(s: set<Item>, a: set<Item>, b: set<Item>)
    requires a < b <= s
    ensures |s - b| < |s - a|
  {
    var x :| x in b && x !in a;
    assert s - b <= (s - a) - {x};
    SubsetIsNoBigger(s - b, (s - a) - {x});
  }

  lemma FewerIn(a: set<Item>, b: set<Item>, x: Item)
    requires a <= b && x in b && x !in a
    ensures |a| < |b|
  {
    SubsetIsNoBigger(a, b - {x});
  }

  lemma {:induction false} SubsetIsNoBigger(a: set<Item>, b: set<Item>)
    requires a <= b
    ensures |a| <= |b|
    decreases |a|
  {
    if a != {} {
      var x :| x in a;
      SubsetIsNoBigger(a - {x}, b - {x});
    }
  }

  lemma TouchedIsJoined(s: set<Item>, seed: Item, row: set<Item>, item: Item)
    requires row <= Row(s, seed) && item in s && Touches(item, row)
    ensures item in Row(s, seed)
  {
    var m :| m in row && Beside(item, m);
    BesideIsSymmetric(item, m);
    JoinedOn(s, seed, m, item);
  }

  function Select(items: seq<Item>, row: set<Item>, inside: bool): (r: seq<Item>)
    ensures forall x :: x in r <==> x in items && (x in row) == inside
    ensures NoRepeats(items) ==> NoRepeats(r)
  {
    if items == [] then []
    else
      var rest := Select(items[1..], row, inside);
      assert items == [items[0]] + items[1..];
      if (items[0] in row) == inside then [items[0]] + rest else rest
  }

  /** Some element of smallest key. */
  method Smallest(items: seq<Item>) returns (x: Item)
    requires items != []
    ensures x in items && forall y | y in items :: KeyAtMost(SeedKey(x), SeedKey(y))
  {
    hide SeedKey, KeyAtMost;
    x := items[0];
    KeyTotal(SeedKey(x), SeedKey(x));
    for i := 1 to |items|
      invariant x in items && forall k | 0 <= k < i :: KeyAtMost(SeedKey(x), SeedKey(items[k]))
    {
      KeyTotal(SeedKey(x), SeedKey(items[i]));
      KeyTotal(SeedKey(items[i]), SeedKey(items[i]));
      if !KeyAtMost(SeedKey(x), SeedKey(items[i])) {
        forall k | 0 <= k < i ensures KeyAtMost(SeedKey(items[i]), SeedKey(items[k])) {
          KeyTransitive(SeedKey(items[i]), SeedKey(x), SeedKey(items[k]));
        }
        x := items[i];
      }
    }
  }

  /** The rows found so far, and what is still to be put in rows. */
  ghost predicate Partition(s: set<Item>, rows: seq<seq<Item>>, remaining: set<Item>) {
    && remaining <= s
    && (forall i | 0 <= i < |rows| :: NoRepeats(rows[i]))
    && NoRepeats(Sets(rows))
    && Elems(Sets(rows)) + Rows(remaining) == Rows(s)
    && Elems(Sets(rows)) !! Rows(remaining)
  }

  function Sets(rows: seq<seq<Item>>): (r: seq<set<Item>>)
    ensures |r| == |rows| && forall i | 0 <= i < |rows| :: r[i] == Elems(rows[i])
  {
    seq(|rows|, i requires 0 <= i < |rows| => Elems(rows[i]))
  }

  lemma PartitionStep(s: set<Item>, rows: seq<seq<Item>>, remaining: set<Item>, seed: Item, row: seq<Item>)
    requires Partition(s, rows, remaining) && seed in remaining
    requires NoRepeats(row) && Elems(row) == Row(remaining, seed)
    ensures Partition(s, rows + [row], remaining - Elems(row))
  {
    RowsSplit(remaining, seed);
    hide Row, Rows;
    assert Sets(rows + [row]) == Sets(rows) + [Elems(row)];
    hide Sets;
    var before, r := Sets(rows), Elems(row);
    assert Elems(before + [r]) == Elems(before) + {r};
    assert r !in Elems(before);
    assert NoRepeats(before + [r]) by {
      assert forall i | 0 <= i < |before| :: before[i] in Elems(before);
    }
  }

  /** Each row sorted, in the order of the sorted rows. */
  function SortEach(rows: seq<seq<Item>>): (r: seq<seq<Item>>)
    ensures |r| == |rows| && forall i | 0 <= i < |rows| :: r[i] == Sort(LineKey, rows[i])
  {
    if rows == [] then [] else [Sort(LineKey, rows[0])] + SortEach(rows[1..])
  }

  /** Row after row, the topmost item left over as the seed. */
  method FindRows(items: seq<Item>) returns (rows: seq<seq<Item>>)
    requires NoRepeats(items)
    ensures ListsRows(Elems(items), rows)
  {
    ghost var s := Elems(items);
    var remaining := items;
    rows := [];
    assert Partition(s, rows, s);
    while remaining != []
      invariant Partition(s, rows, Elems(remaining)) && NoRepeats(remaining)
      decreases |remaining|
    {
      hide *;
      var seed := Smallest(remaining);
      var row := GrowRow(remaining, seed);
      var list := Sort(IdKey, Select(remaining, row, true));
      RowTaken(remaining, seed, row, list);
      PartitionStep(s, rows, Elems(remaining), seed, list);
      rows := rows + [list];
      remaining := Select(remaining, row, false);
    }
    assert Elems(remaining) == {};
  }

  /** `_order_visual_rows`. */
  method OrderVisualRows(items: seq<Item>) returns (ordered: seq<Item>)
    requires NoRepeats(items) && DistinctItems(Elems(items))
    ensures ordered == VisualOrder(Elems(items))
  {
    if |items| <= 1 {
      FewItems(items);
      return items;
    }
    var rows := FindRows(items);
    SortedRowsAreLines(Elems(items), rows);
    ordered := ReadRows(Sort(RowKey, rows));
  }

  /** Each row from right to left, one after the other. */
  method ReadRows(rows: seq<seq<Item>>) returns (ordered: seq<Item>)
    ensures ordered == Flatten(SortEach(rows))
  {
    ordered := [];
    ghost var lines := SortEach(rows);
    assert lines[0..] == lines;
    hide Sort, SortEach;
    for i := 0 to |rows|
      invariant ordered + Flatten(lines[i..]) == Flatten(lines)
    {
      Concat(ordered, lines[i], Flatten(lines[i + 1..]));
      ordered := ordered + Sort(LineKey, rows[i]);
    }
    assert Flatten(lines[|rows|..]) == [];
  }

  lemma Concat(a: seq<Item>, b: seq<Item>, c: seq<Item>)
    ensures (a + b) + c == a + (b + c)
  {
  }

  /** The row leaves, as a list without repeats; what stays is smaller. */
  lemma RowTaken(remaining: seq<Item>, seed: Item, row: set<Item>, list: seq<Item>)
    requires NoRepeats(remaining) && seed in remaining && row == Row(Elems(remaining), seed)
    requires list == Sort(IdKey, Select(remaining, row, true))
    ensures NoRepeats(list) && Elems(list) == row
    ensures var rest := Select(remaining, row, false);
      NoRepeats(rest) && Elems(rest) == Elems(remaining) - Elems(list) && |rest| < |remaining|
  {
    JoinedToItself(Elems(remaining), seed);
    var inside, rest := Select(remaining, row, true), Select(remaining, row, false);
    hide Row, Select, Sort;
    assert Elems(inside) == row;
    SameMultiset(inside, list);
    NoRepeatsMultiset(remaining);
    NoRepeatsMultiset(rest);
    assert |rest| == |multiset(rest)| == |Elems(rest)| && |remaining| == |multiset(remaining)| == |Elems(remaining)|;
    assert seed in Elems(remaining) && seed !in Elems(rest);
    FewerIn(Elems(rest), Elems(remaining), seed);
  }

  lemma FewItems(items: seq<Item>)
    requires |items| <= 1
    ensures items == VisualOrder(Elems(items))
  {
    var s := Elems(items);
    if items == [] {
      assert Rows(s) == {};
      assert Lines(s) == {};
    } else {
      var x := items[0];
      assert s == {x};
      JoinedToItself(s, x);
      assert Row(s, x) == {x};
      OneLine(s, x);
    }
  }

  lemma OneLine(s: set<Item>, x: Item)
    requires s == {x} && Row(s, x) == {x}
    ensures VisualOrder(s) == [x]
  {
    hide Row;
    assert Rows(s) == {{x}};
    assert Line({x}) == [x] by {
    }
    hide Line, Rows;
    assert Lines(s) == {[x]};
    assert Flatten([[x]]) == [x] + Flatten([]);
  }

  /** The lists are the rows of the set, once each. */
  ghost predicate ListsRows(s: set<Item>, rows: seq<seq<Item>>) {
    && NoRepeats(rows)
    && (forall r | r in rows :: NoRepeats(r) && Elems(r) in Rows(s))
    && (forall a, b | a in rows && b in rows && Elems(a) == Elems(b) :: a == b)
    && (forall row | row in Rows(s) :: exists r :: r in rows && Elems(r) == row)
  }

  lemma SortedListsRows(s: set<Item>, rows: seq<seq<Item>>)
    requires ListsRows(s, rows)
    ensures ListsRows(s, Sort(RowKey, rows))
  {
    hide Rows, Row, RowKey, Sort;
    var r := Sort(RowKey, rows);
    SameMultiset(rows, r);
    forall x ensures x in r <==> x in rows {
      assert x in Elems(r) <==> x in Elems(rows);
    }
    hide NoRepeats, Elems;
  }

  /** Sorting the rows and then each row gives the lines in their order. */
  lemma SortedRowsAreLines(s: set<Item>, rows: seq<seq<Item>>)
    requires ListsRows(s, rows) && DistinctItems(s)
    ensures SortEach(Sort(RowKey, rows)) == Ordering(RowKey, Lines(s))
  {
    SortedListsRows(s, rows);
    SortInOrder(RowKey, rows);
    var r := Sort(RowKey, rows);
    EachIsLine(s, r);
    hide Rows, Row, RowKey, Sort, SortEach;
    var lines := SortEach(r);
    EachKeepsKeys(s, r);
    assert InOrder(RowKey, lines);
    LinesOf(s, r, lines);
    RowKeysDiffer(s);
    OrderingIsUnique(RowKey, lines);
  }

  lemma {:induction false} EachIsLine(s: set<Item>, rows: seq<seq<Item>>)
    requires ListsRows(s, rows) && DistinctItems(s)
    ensures forall i | 0 <= i < |rows| :: SortEach(rows)[i] == Line(Elems(rows[i])) && rows[i] != []
  {
    hide SortEach, Row, Rows;
    forall i | 0 <= i < |rows| ensures SortEach(rows)[i] == Line(Elems(rows[i])) && rows[i] != [] {
      assert rows[i] in rows;
      RowNonempty(s, Elems(rows[i]));
      SortIsOrdering(LineKey, rows[i]);
    }
  }

  lemma EachKeepsKeys(s: set<Item>, rows: seq<seq<Item>>)
    requires forall i | 0 <= i < |rows| :: SortEach(rows)[i] == Line(Elems(rows[i])) && rows[i] != []
    ensures forall i | 0 <= i < |rows| :: RowKey(SortEach(rows)[i]) == RowKey(rows[i])
  {
    hide SortEach, RowKey, Ordering;
    forall i | 0 <= i < |rows| ensures RowKey(SortEach(rows)[i]) == RowKey(rows[i]) {
      var line := SortEach(rows)[i];
      assert Elems(line) == Elems(rows[i]);
      assert rows[i][0] in Elems(line);
      RowKeyForgetsOrder(line, rows[i]);
    }
  }

  lemma LinesOf(s: set<Item>, rows: seq<seq<Item>>, lines: seq<seq<Item>>)
    requires ListsRows(s, rows) && |lines| == |rows|
    requires forall i | 0 <= i < |rows| :: lines[i] == Line(Elems(rows[i]))
    ensures NoRepeats(lines) && Elems(lines) == Lines(s)
  {
    hide Rows, Row, Ordering;
    forall i | 0 <= i < |rows| ensures Elems(lines[i]) == Elems(rows[i]) && Elems(rows[i]) in Rows(s) {
      assert rows[i] in rows;
    }
    forall i, j | 0 <= i < j < |rows| ensures lines[i] != lines[j] {
      assert rows[i] in rows && rows[j] in rows && rows[i] != rows[j];
    }
    forall line ensures line in Elems(lines) <==> line in Lines(s) {
      if line in Lines(s) {
        var row :| row in Rows(s) && line == Line(row);
        var r :| r in rows && Elems(r) == row;
        var i :| 0 <= i < |rows| && rows[i] == r;
        assert lines[i] == line;
      }
    }
  }

  // ----- what the order is ----------------------------------------------------------------------

  ghost function LinesInOrder(s: set<Item>): seq<seq<Item>> {
    Ordering(RowKey, Lines(s))
  }

  /** The lines are exactly the components, each read right to left, themselves in row order. */
  lemma VisualOrderIsRows(s: set<Item>)
    requires DistinctItems(s)
    ensures var lines := LinesInOrder(s);
      && VisualOrder(s) == Flatten(lines)
      && InOrder(RowKey, lines) && NoRepeats(lines)
      && (forall line | line in lines :: line == Line(Elems(line)))
      && (forall line | line in lines :: line != [] && NoRepeats(line) && InOrder(LineKey, line))
      && (forall line, x | line in lines && x in line :: Elems(line) == Row(s, x))
      && (forall x | x in s :: exists line :: line in lines && x in line)
  {
    OrderingInOrder(RowKey, Lines(s));
    var lines := LinesInOrder(s);
    hide Row, RowKey;
    forall line | line in lines
      ensures line != [] && NoRepeats(line) && InOrder(LineKey, line) && line == Line(Elems(line))
      ensures forall x | x in line :: Elems(line) == Row(s, x)
    {
      assert line in Elems(lines);
      var row :| row in Rows(s) && line == Line(row);
      RowNonempty(s, row);
      hide Rows;
      OrderingInOrder(LineKey, row);
      assert |line| == |row|;
      assert forall x | x in line :: x in Elems(line);
    }
    forall x | x in s ensures exists line :: line in lines && x in line {
      JoinedToItself(s, x);
      assert Row(s, x) in Rows(s);
      var line := Line(Row(s, x));
      assert line in Lines(s);
      assert x in Elems(line) && line in Elems(lines);
    }
  }

  lemma {:induction false} FlattenHasAll(lines: seq<seq<Item>>)
    requires forall k | 0 <= k < |lines| :: NoRepeats(lines[k])
    requires forall k, l | 0 <= k < l < |lines| :: Elems(lines[k]) !! Elems(lines[l])
    ensures NoRepeats(Flatten(lines))
    ensures forall x :: x in Flatten(lines) <==> exists k :: 0 <= k < |lines| && x in Elems(lines[k])
    decreases |lines|
  {
    if lines != [] {
      var rest := lines[1..];
      FlattenHasAll(rest);
      forall x ensures x in Flatten(lines) <==> exists k :: 0 <= k < |lines| && x in Elems(lines[k]) {
        if k :| 0 <= k < |lines| && x in Elems(lines[k]) {
          assert k > 0 ==> rest[k - 1] == lines[k];
        }
        if x in Flatten(rest) {
          var k :| 0 <= k < |rest| && x in Elems(rest[k]);
          assert lines[k + 1] == rest[k];
        }
      }
      forall x, y | x in lines[0] && y in Flatten(rest) ensures x != y {
        var k :| 0 <= k < |rest| && y in Elems(rest[k]);
        assert lines[k + 1] == rest[k];
        assert x in Elems(lines[0]);
      }
      hide Elems, Flatten;
      JoinNoRepeats(lines[0], Flatten(rest));
      assert Flatten(lines) == lines[0] + Flatten(rest) by {
        assert lines[0..] == lines;
      }
    }
  }

  lemma JoinNoRepeats(a: seq<Item>, b: seq<Item>)
    requires NoRepeats(a) && NoRepeats(b) && forall x, y | x in a && y in b :: x != y
    ensures NoRepeats(a + b)
  {
    var c := a + b;
    forall i, j | 0 <= i < j < |c| ensures c[i] != c[j] {
      if i < |a| <= j {
        assert c[i] in a && c[j] in b;
      }
    }
  }

  /** The order is an arrangement of its items: nothing lost, nothing twice. */
  lemma VisualOrderHasAll(s: set<Item>)
    requires DistinctItems(s)
    ensures NoRepeats(VisualOrder(s)) && Elems(VisualOrder(s)) == s
  {
    VisualOrderIsRows(s);
    forall x ensures Row(s, x) <= s {
    }
    hide *;
    LinesHaveAll(s, LinesInOrder(s));
  }

  lemma {:induction false} LinesHaveAll(s: set<Item>, lines: seq<seq<Item>>)
    requires NoRepeats(lines)
    requires forall line | line in lines :: line == Line(Elems(line)) && NoRepeats(line)
    requires forall line, x | line in lines && x in line :: Elems(line) == Row(s, x)
    requires forall x :: Row(s, x) <= s
    requires forall x | x in s :: exists line :: line in lines && x in line
    ensures NoRepeats(Flatten(lines)) && Elems(Flatten(lines)) == s
  {
    hide Row, Line, Flatten;
    forall k, l | 0 <= k < l < |lines| ensures Elems(lines[k]) !! Elems(lines[l]) {
      assert lines[k] in lines && lines[l] in lines && lines[k] != lines[l];
      assert Elems(lines[k]) != Elems(lines[l]);
      forall x | x in Elems(lines[k]) ensures x !in Elems(lines[l]) {
        assert Elems(lines[k]) == Row(s, x);
      }
    }
    FlattenHasAll(lines);
    forall x ensures x in Flatten(lines) <==> x in s {
      if x in Flatten(lines) {
        var k :| 0 <= k < |lines| && x in Elems(lines[k]);
        assert lines[k] in lines && x in lines[k];
        assert Elems(lines[k]) == Row(s, x) && Row(s, x) <= s;
      }
      if x in s {
        var line :| line in lines && x in line;
        var k :| 0 <= k < |lines| && lines[k] == line;
        assert x in Elems(lines[k]);
      }
    }
  }
}
