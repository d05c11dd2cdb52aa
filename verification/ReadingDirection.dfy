/**
 The reading order of server/pipeline/detection.py in terms of where things are on the
 page: of two items, which one is read first.
 */
module ReadingDirection {
  import opened JsonTree
  import opened Sorting
  import opened Detection
  import opened VisualRows
  import opened ReadingOrder

  // ----- one before the other ------------------------------------------------------------------

  ghost predicate Precedes(ordered: seq<Item>, x: Item, y: Item) {
    exists i, j :: 0 <= i < j < |ordered| && ordered[i] == x && ordered[j] == y
  }

  lemma OneIsFirst(ordered: seq<Item>, x: Item, y: Item)
    requires NoRepeats(ordered) && x in ordered && y in ordered && x != y
    ensures Precedes(ordered, x, y) <==> !Precedes(ordered, y, x)
  {
    var i :| 0 <= i < |ordered| && ordered[i] == x;
    var j :| 0 <= j < |ordered| && ordered[j] == y;
    assert i < j ==> Precedes(ordered, x, y);
    assert j < i ==> Precedes(ordered, y, x);
  }

  lemma PrecedesWithin(before: seq<Item>, ordered: seq<Item>, after: seq<Item>, x: Item, y: Item)
    requires Precedes(ordered, x, y)
    ensures Precedes(before + (ordered + after), x, y)
  {
    var i, j :| 0 <= i < j < |ordered| && ordered[i] == x && ordered[j] == y;
    var all := before + (ordered + after);
    assert all[|before| + i] == x && all[|before| + j] == y;
  }

  lemma PrecedesAcross(a: seq<Item>, b: seq<Item>, x: Item, y: Item)
    requires x in a && y in b
    ensures Precedes(a + b, x, y)
  {
    var i :| 0 <= i < |a| && a[i] == x;
    var j :| 0 <= j < |b| && b[j] == y;
    assert (a + b)[i] == x && (a + b)[|a| + j] == y;
  }

  lemma {:induction false} InFlatten(lines: seq<seq<Item>>, k: nat, x: Item)
    requires k < |lines| && x in lines[k]
    ensures x in Flatten(lines)
    decreases |lines|
  {
    if k > 0 {
      InFlatten(lines[1..], k - 1, x);
    }
  }

  /** Two items of one line. */
  lemma {:induction false} WithinLine(lines: seq<seq<Item>>, k: nat, x: Item, y: Item)
    requires k < |lines| && Precedes(lines[k], x, y)
    ensures Precedes(Flatten(lines), x, y)
    decreases |lines|
  {
    hide Precedes;
    var none: seq<Item> := [];
    if k == 0 {
      PrecedesWithin(none, lines[0], Flatten(lines[1..]), x, y);
      assert none + (lines[0] + Flatten(lines[1..])) == Flatten(lines);
    } else {
      WithinLine(lines[1..], k - 1, x, y);
      PrecedesWithin(lines[0], Flatten(lines[1..]), none, x, y);
      assert lines[0] + (Flatten(lines[1..]) + none) == Flatten(lines);
    }
  }

  /** An item of one line and an item of a later one. */
  lemma {:induction false} AcrossLines(lines: seq<seq<Item>>, k: nat, l: nat, x: Item, y: Item)
    requires k < l < |lines| && x in lines[k] && y in lines[l]
    ensures Precedes(Flatten(lines), x, y)
    decreases |lines|
  {
    hide Precedes;
    if k == 0 {
      InFlatten(lines[1..], l - 1, y);
      PrecedesAcross(lines[0], Flatten(lines[1..]), x, y);
    } else {
      AcrossLines(lines[1..], k - 1, l - 1, x, y);
      var none: seq<Item> := [];
      PrecedesWithin(lines[0], Flatten(lines[1..]), none, x, y);
      assert lines[0] + (Flatten(lines[1..]) + none) == Flatten(lines);
    }
  }

  // ----- within a row --------------------------------------------------------------------------

  /** The one whose right edge is further right; then the higher one; then by kind and id. */
  predicate RightFirst(x: Item, y: Item) {
    var a, b := x.det.box, y.det.box;
    || a.x2 > b.x2
    || (a.x2 == b.x2
        && (a.y1 < b.y1
            || (a.y1 == b.y1
                && (if x.det.kind != y.det.kind then KindBefore(x.det.kind, y.det.kind) else IdBefore(x.det.id, y.det.id)))))
  }

  /** By their names. */
  predicate KindBefore(k: Kind, l: Kind) {
    match k
    case Balloon => true
    case Panel => l != Balloon
    case Sfx => l == Text
    case Text => false
  }

  predicate IdBefore(a: string, b: string) {
    a != b && AtMost(a, b)
  }

  lemma KindNames(k: Kind, l: Kind)
    requires k != l
    ensures KindName(k) != KindName(l) && (AtMost(KindName(k), KindName(l)) <==> KindBefore(k, l))
  {
  }

  /** How two tuples of numbers and names compare. */
  lemma TupleOfFour(a: Key, b: Key)
    requires |a| == |b| == 4
    ensures KeyAtMost(a, b) <==>
              if a[0] != b[0] then PartAtMost(a[0], b[0])
              else if a[1] != b[1] then PartAtMost(a[1], b[1])
              else if a[2] != b[2] then PartAtMost(a[2], b[2])
              else PartAtMost(a[3], b[3]) || a[3] == b[3]
  {
    hide PartAtMost;
    var a1, b1 := a[1..], b[1..];
    var a2, b2 := a1[1..], b1[1..];
    var a3, b3 := a2[1..], b2[1..];
    assert a1[0] == a[1] && b1[0] == b[1] && a2[0] == a[2] && b2[0] == b[2] && a3[0] == a[3] && b3[0] == b[3];
    assert KeyAtMost(a2, b2) <==> if a2[0] == b2[0] then KeyAtMost(a3, b3) else PartAtMost(a2[0], b2[0]);
    assert a3[1..] == [] && b3[1..] == [];
    assert KeyAtMost([], []);
    assert KeyAtMost(a3, b3) <==> if a3[0] == b3[0] then true else PartAtMost(a3[0], b3[0]);
  }

  lemma LineKeyIs(x: Item, y: Item)
    requires x.det.id != y.det.id
    ensures KeyAtMost(LineKey(x), LineKey(y)) <==> RightFirst(x, y)
  {
    TupleOfFour(LineKey(x), LineKey(y));
    if x.det.kind != y.det.kind {
      KindNames(x.det.kind, y.det.kind);
    }
    hide KeyAtMost, KindName, KindBefore, AtMost;
  }

  // ----- rows ----------------------------------------------------------------------------------

  /** Some item of `a` starts above all of `b`. */
  ghost predicate TopAbove(a: set<Item>, b: set<Item>) {
    exists p | p in a :: forall q | q in b :: p.det.box.y1 < q.det.box.y1
  }

  /** Some item of `a` ends above all of `b`. */
  ghost predicate BottomAbove(a: set<Item>, b: set<Item>) {
    exists p | p in a :: forall q | q in b :: p.det.box.y2 < q.det.box.y2
  }

  ghost predicate SomeIdBefore(a: set<Item>, b: set<Item>) {
    exists p | p in a :: forall q | q in b :: IdBefore(p.det.id, q.det.id)
  }

  /** The row that starts higher; then the one whose first item ends higher; then by id. */
  ghost predicate RowFirst(a: set<Item>, b: set<Item>) {
    || TopAbove(a, b)
    || (!TopAbove(b, a)
        && (BottomAbove(a, b) || (!BottomAbove(b, a) && SomeIdBefore(a, b))))
  }

  lemma TopsAre(a: seq<Item>, b: seq<Item>)
    requires a != [] && b != []
    ensures LeastTop(a) < LeastTop(b) <==> TopAbove(Elems(a), Elems(b))
  {
    if LeastTop(a) < LeastTop(b) {
      var p :| p in a && p.det.box.y1 == LeastTop(a);
      assert p in Elems(a);
    }
    if TopAbove(Elems(a), Elems(b)) {
      var q :| q in b && q.det.box.y1 == LeastTop(b);
      assert q in Elems(b);
    }
  }

  lemma BottomsAre(a: seq<Item>, b: seq<Item>)
    requires a != [] && b != []
    ensures LeastBottom(a) < LeastBottom(b) <==> BottomAbove(Elems(a), Elems(b))
  {
    if LeastBottom(a) < LeastBottom(b) {
      var p :| p in a && p.det.box.y2 == LeastBottom(a);
      assert p in Elems(a);
    }
    if BottomAbove(Elems(a), Elems(b)) {
      var q :| q in b && q.det.box.y2 == LeastBottom(b);
      assert q in Elems(b);
    }
  }

  lemma IdsAre(a: seq<Item>, b: seq<Item>)
    requires a != [] && b != [] && forall p, q | p in a && q in b :: p.det.id != q.det.id
    ensures LeastId(a) != LeastId(b)
    ensures AtMost(LeastId(a), LeastId(b)) <==> SomeIdBefore(Elems(a), Elems(b))
  {
    hide LeastId, AtMost;
    var m, n := LeastId(a), LeastId(b);
    var p :| p in a && p.det.id == m;
    var q :| q in b && q.det.id == n;
    assert p in Elems(a) && q in Elems(b);
    if AtMost(LeastId(a), LeastId(b)) {
      forall r | r in Elems(b) ensures IdBefore(p.det.id, r.det.id) {
        AtMostTransitive(p.det.id, q.det.id, r.det.id);
      }
    }
    if SomeIdBefore(Elems(a), Elems(b)) {
      var r :| r in Elems(a) && forall t | t in Elems(b) :: IdBefore(r.det.id, t.det.id);
      AtMostTransitive(LeastId(a), r.det.id, q.det.id);
    }
  }

  lemma TupleOfThree(a: Key, b: Key)
    requires |a| == |b| == 3
    ensures KeyAtMost(a, b) <==>
              if a[0] != b[0] then PartAtMost(a[0], b[0])
              else if a[1] != b[1] then PartAtMost(a[1], b[1])
              else PartAtMost(a[2], b[2]) || a[2] == b[2]
  {
    hide PartAtMost;
    var a1, b1 := a[1..], b[1..];
    var a2, b2 := a1[1..], b1[1..];
    assert a1[0] == a[1] && b1[0] == b[1] && a2[0] == a[2] && b2[0] == b[2];
    assert a2[1..] == [] && b2[1..] == [];
    assert KeyAtMost([], []);
    assert KeyAtMost(a2, b2) <==> if a2[0] == b2[0] then true else PartAtMost(a2[0], b2[0]);
  }

  lemma RowKeysCompare(a: seq<Item>, b: seq<Item>)
    requires a != [] && b != []
    ensures KeyAtMost(RowKey(a), RowKey(b)) <==>
              || LeastTop(a) < LeastTop(b)
              || (LeastTop(a) == LeastTop(b)
                  && (LeastBottom(a) < LeastBottom(b)
                      || (LeastBottom(a) == LeastBottom(b) && (AtMost(LeastId(a), LeastId(b)) || LeastId(a) == LeastId(b)))))
  {
    hide LeastTop, LeastBottom, LeastId, AtMost, KeyAtMost;
    TupleOfThree(RowKey(a), RowKey(b));
  }

  lemma RowKeyIs(a: seq<Item>, b: seq<Item>)
    requires a != [] && b != [] && forall p, q | p in a && q in b :: p.det.id != q.det.id
    ensures KeyAtMost(RowKey(a), RowKey(b)) <==> RowFirst(Elems(a), Elems(b))
    ensures RowKey(a) != RowKey(b)
  {
    hide LeastTop, LeastBottom, LeastId, RowKey, KeyAtMost, AtMost, TopAbove, BottomAbove, SomeIdBefore, Elems;
    RowKeysCompare(a, b);
    TopsAre(a, b);
    TopsAre(b, a);
    BottomsAre(a, b);
    BottomsAre(b, a);
    IdsAre(a, b);
    if RowKey(a) == RowKey(b) {
      SameRowKey(a, b);
    }
  }

  lemma SameRowKey(a: seq<Item>, b: seq<Item>)
    requires a != [] && b != [] && RowKey(a) == RowKey(b)
    ensures LeastId(a) == LeastId(b)
  {
    assert RowKey(a)[2] == RowKey(b)[2];
  }

  // ----- rows of a page ------------------------------------------------------------------------

  /** In a row from right to left, and row after row from the top. */
  ghost predicate VisualFirst(s: set<Item>, x: Item, y: Item) {
    if y in Row(s, x) then RightFirst(x, y) else RowFirst(Row(s, x), Row(s, y))
  }

  lemma LineOf(s: set<Item>, x: Item) returns (k: nat)
    requires DistinctItems(s) && x in s
    ensures var lines := LinesInOrder(s);
      k < |lines| && x in lines[k] && Elems(lines[k]) == Row(s, x)
  {
    VisualOrderIsRows(s);
    hide Row, LinesInOrder, VisualOrder, InOrder, Line;
    var lines := LinesInOrder(s);
    var line :| line in lines && x in line;
    k :| 0 <= k < |lines| && lines[k] == line;
  }

  lemma LineReads(line: seq<Item>, x: Item, y: Item)
    requires InOrder(LineKey, line) && x in line && y in line
    requires x.det.id != y.det.id && RightFirst(x, y)
    ensures Precedes(line, x, y)
  {
    hide RightFirst, LineKey, KeyAtMost;
    LineKeyIs(x, y);
    KeyTotal(LineKey(x), LineKey(y));
    assert LineKey(x) != LineKey(y) by {
      if LineKey(x) == LineKey(y) {
        SameLineKey(x, y);
      }
    }
    var i :| 0 <= i < |line| && line[i] == x;
    var j :| 0 <= j < |line| && line[j] == y;
    assert i < j;
  }

  lemma SameLineKey(x: Item, y: Item)
    requires LineKey(x) == LineKey(y)
    ensures x.det.id == y.det.id
  {
    assert LineKey(x)[3] == LineKey(y)[3];
  }

  lemma RowsRead(lines: seq<seq<Item>>, k: nat, l: nat)
    requires InOrder(RowKey, lines) && k < |lines| && l < |lines| && k != l && lines[k] != [] && lines[l] != []
    requires RowFirst(Elems(lines[k]), Elems(lines[l]))
    requires forall p, q | p in lines[k] && q in lines[l] :: p.det.id != q.det.id
    ensures k < l
  {
    hide RowFirst, RowKey, KeyAtMost, Elems;
    RowKeyIs(lines[k], lines[l]);
    KeyTotal(RowKey(lines[k]), RowKey(lines[l]));
  }

  lemma RowsApart(s: set<Item>, x: Item, y: Item)
    requires DistinctItems(s) && x in s && y in s && y !in Row(s, x)
    ensures forall p, q | p in Row(s, x) && q in Row(s, y) :: p.det.id != q.det.id
    ensures x !in Row(s, y)
  {
    JoinedToItself(s, x);
    JoinedToItself(s, y);
    forall p, q | p in Row(s, x) && q in Row(s, y) ensures p.det.id != q.det.id {
      if p == q {
        RowsMeet(s, x, y, p);
      }
    }
    if x in Row(s, y) {
      RowsMeet(s, x, y, x);
    }
  }

  lemma Reads(s: set<Item>, x: Item, y: Item)
    requires DistinctItems(s) && x in s && y in s && x != y && VisualFirst(s, x, y)
    ensures Precedes(VisualOrder(s), x, y)
  {
    if y in Row(s, x) {
      hide Row, VisualOrder, RightFirst, Precedes;
      ReadsInRow(s, x, y);
    } else {
      hide Row, VisualOrder, RowFirst, Precedes;
      ReadsRows(s, x, y);
    }
  }

  lemma ReadsInRow(s: set<Item>, x: Item, y: Item)
    requires DistinctItems(s) && x in s && y in s && x != y && y in Row(s, x) && RightFirst(x, y)
    ensures Precedes(VisualOrder(s), x, y)
  {
    hide Row, Line, LinesInOrder, VisualOrder, RightFirst, Precedes, InOrder;
    var k := LineOf(s, x);
    VisualOrderIsRows(s);
    assert y in Elems(LinesInOrder(s)[k]);
    assert LinesInOrder(s)[k] in LinesInOrder(s);
    LineReads(LinesInOrder(s)[k], x, y);
    WithinLine(LinesInOrder(s), k, x, y);
  }

  lemma ReadsRows(s: set<Item>, x: Item, y: Item)
    requires DistinctItems(s) && x in s && y in s && y !in Row(s, x) && RowFirst(Row(s, x), Row(s, y))
    ensures Precedes(VisualOrder(s), x, y)
  {
    hide Row, Line, LinesInOrder, VisualOrder, RowFirst, Precedes, InOrder;
    var k := LineOf(s, x);
    var l := LineOf(s, y);
    VisualOrderIsRows(s);
    RowsApart(s, x, y);
    RowsAreApart(LinesInOrder(s), k, l, x, y);
    RowsRead(LinesInOrder(s), k, l);
    AcrossLines(LinesInOrder(s), k, l, x, y);
  }

  lemma RowsAreApart(lines: seq<seq<Item>>, k: nat, l: nat, x: Item, y: Item)
    requires k < |lines| && l < |lines| && x in lines[k] && y in lines[l]
    requires forall p, q | p in Elems(lines[k]) && q in Elems(lines[l]) :: p.det.id != q.det.id
    ensures k != l
    ensures forall p, q | p in lines[k] && q in lines[l] :: p.det.id != q.det.id
  {
    forall p, q | p in lines[k] && q in lines[l] ensures p.det.id != q.det.id {
      assert p in Elems(lines[k]) && q in Elems(lines[l]);
    }
  }

  /** One of two items is first by where they are, and not both. */
  lemma OneIsVisualFirst(s: set<Item>, x: Item, y: Item)
    requires DistinctItems(s) && x in s && y in s && x != y
    ensures VisualFirst(s, x, y) || VisualFirst(s, y, x)
  {
    JoinedToItself(s, x);
    JoinedToItself(s, y);
    if y in Row(s, x) {
      RowsMeet(s, x, y, y);
      AtMostTotal(x.det.id, y.det.id);
    } else {
      RowsApart(s, x, y);
      hide Row;
      SomeRowIsFirst(Row(s, x), Row(s, y));
    }
  }

  lemma SomeRowIsFirst(a: set<Item>, b: set<Item>)
    requires a != {} && b != {} && forall p, q | p in a && q in b :: p.det.id != q.det.id
    ensures RowFirst(a, b) || RowFirst(b, a)
  {
    var x := ListOf(a);
    var y := ListOf(b);
    forall p, q | p in x && q in y ensures p.det.id != q.det.id {
      assert p in Elems(x) && q in Elems(y);
    }
    RowKeyIs(x, y);
    RowKeyIs(y, x);
    KeyTotal(RowKey(x), RowKey(y));
  }

  lemma ListOf(a: set<Item>) returns (x: seq<Item>)
    requires a != {}
    ensures Elems(x) == a && x != []
  {
    x := Ordering(IdKey, a);
  }

  /** Which of two items the page is read first, from nothing but their boxes, kinds and ids. */
  lemma VisualOrderReads(s: set<Item>, x: Item, y: Item)
    requires DistinctItems(s) && x in s && y in s && x != y
    ensures Precedes(VisualOrder(s), x, y) <==> VisualFirst(s, x, y)
  {
    hide VisualOrder, VisualFirst, Precedes;
    VisualOrderHasAll(s);
    assert x in VisualOrder(s) && y in VisualOrder(s) by {
      assert x in Elems(VisualOrder(s)) && y in Elems(VisualOrder(s));
    }
    OneIsFirst(VisualOrder(s), x, y);
    OneIsVisualFirst(s, x, y);
    if VisualFirst(s, x, y) {
      Reads(s, x, y);
    }
    if VisualFirst(s, y, x) {
      Reads(s, y, x);
    }
  }

  // ----- panels and what they hold -------------------------------------------------------------

  /** The panels around the centre with the least area, and of these the one with the first id. */
  predicate Smaller(p: Item, q: Item) {
    var a, b := p.det.box, q.det.box;
    var m, n := (a.x2 - a.x1) * (a.y2 - a.y1), (b.x2 - b.x1) * (b.y2 - b.y1);
    m < n || (m == n && AtMost(p.det.id, q.det.id))
  }

  lemma HomeKeyIs(p: Item, q: Item)
    ensures KeyAtMost(HomeKey(p), HomeKey(q)) <==> Smaller(p, q)
  {
    hide AtMost;
    var a, b := HomeKey(p), HomeKey(q);
    assert a[1..][0] == T(p.det.id) && b[1..][0] == T(q.det.id) && a[1..][1..] == [] && b[1..][1..] == [];
    assert KeyAtMost([], []);
    assert KeyAtMost(a[1..], b[1..]) <==> p.det.id == q.det.id || AtMost(p.det.id, q.det.id);
    AtMostTotal(p.det.id, q.det.id);
  }

  /** An item belongs to the smallest panel around its centre. */
  lemma HomeIsSmallest(s: set<Item>, x: Item, p: Item)
    ensures IsHome(s, x, p) <==>
              p in Panels(s) && Holds(p, x) && forall q | q in Panels(s) && Holds(q, x) :: Smaller(p, q)
  {
    hide Holds, KeyAtMost, HomeKey, Smaller;
    forall q ensures KeyAtMost(HomeKey(p), HomeKey(q)) <==> Smaller(p, q) {
      HomeKeyIs(p, q);
    }
  }

  /** Each panel with its items behind it, and the loose items. */
  ghost function Groups(s: set<Item>, panels: seq<Item>): (groups: seq<seq<Item>>)
    ensures |groups| == |panels| + 1
    ensures forall k | 0 <= k < |panels| :: groups[k] == [panels[k]] + VisualOrder(Members(s, panels[k]))
    ensures groups[|panels|] == VisualOrder(Loose(s))
    decreases |panels|
  {
    if panels == [] then [VisualOrder(Loose(s))]
    else [[panels[0]] + VisualOrder(Members(s, panels[0]))] + Groups(s, panels[1..])
  }

  lemma {:induction false} GroupsFlatten(s: set<Item>, panels: seq<Item>)
    ensures Flatten(Groups(s, panels)) == Grouped(s, panels)
    decreases |panels|
  {
    hide VisualOrder, Members, Loose;
    if panels == [] {
      assert Groups(s, panels)[1..] == [];
      assert Flatten([]) == [];
    } else {
      GroupsFlatten(s, panels[1..]);
      assert Groups(s, panels)[1..] == Groups(s, panels[1..]);
    }
  }

  /** The panels themselves are read like any other items. */
  lemma PanelsRead(s: set<Item>, p: Item, q: Item)
    requires DistinctItems(s) && p in Panels(s) && q in Panels(s) && p != q
    ensures Precedes(MangaOrder(s), p, q) <==> VisualFirst(Panels(s), p, q)
  {
    PanelsDistinct(s);
    assert p in s && q in s;
    hide Panels, VisualFirst, MangaOrder;
    VisualOrderReads(Panels(s), p, q);
    VisualOrderReads(Panels(s), q, p);
    OneIsFirstOfBoth(Panels(s), VisualOrder(Panels(s)), p, q);
    MangaIsOrdered(s, p, q);
    if VisualFirst(Panels(s), p, q) {
      PanelsKeepOrder(s, p, q);
    } else {
      PanelsKeepOrder(s, q, p);
    }
  }

  lemma OneIsFirstOfBoth(t: set<Item>, ordered: seq<Item>, x: Item, y: Item)
    requires DistinctItems(t) && ordered == VisualOrder(t) && x in t && y in t && x != y
    ensures Precedes(ordered, x, y) <==> !Precedes(ordered, y, x)
  {
    hide VisualOrder, Precedes;
    VisualOrderHasAll(t);
    assert x in Elems(ordered) && y in Elems(ordered);
    OneIsFirst(ordered, x, y);
  }

  lemma MangaIsOrdered(s: set<Item>, x: Item, y: Item)
    requires DistinctItems(s) && x in s && y in s && x != y
    ensures Precedes(MangaOrder(s), x, y) <==> !Precedes(MangaOrder(s), y, x)
  {
    hide MangaOrder, Precedes;
    MangaOrderHasAll(s);
    assert x in Elems(MangaOrder(s)) && y in Elems(MangaOrder(s));
    OneIsFirst(MangaOrder(s), x, y);
  }

  lemma PanelsKeepOrder(s: set<Item>, p: Item, q: Item)
    requires Precedes(VisualOrder(Panels(s)), p, q)
    ensures Precedes(MangaOrder(s), p, q)
  {
    var panels := VisualOrder(Panels(s));
    var i, j :| 0 <= i < j < |panels| && panels[i] == p && panels[j] == q;
    GroupsFlatten(s, panels);
    hide VisualOrder, Precedes, Panels, Members, Loose, Grouped;
    var groups := Groups(s, panels);
    assert groups[i][0] == p && groups[j][0] == q;
    AcrossLines(groups, i, j, p, q);
  }

  /** Where a panel and an item at home in it are. */
  lemma GroupOf(s: set<Item>, p: Item) returns (k: nat)
    requires DistinctItems(s) && p in Panels(s)
    ensures var panels := VisualOrder(Panels(s));
      && k < |panels| && panels[k] == p && MangaOrder(s) == Flatten(Groups(s, panels))
      && Groups(s, panels)[k] == [p] + VisualOrder(Members(s, p))
  {
    PanelsDistinct(s);
    hide VisualOrder, Panels, Members, Loose, Grouped;
    VisualOrderHasAll(Panels(s));
    var panels := VisualOrder(Panels(s));
    GroupsFlatten(s, panels);
    assert p in Elems(panels);
    k :| 0 <= k < |panels| && panels[k] == p;
  }

  lemma InsideKeepOrder(s: set<Item>, p: Item, x: Item, y: Item)
    requires DistinctItems(s) && p in Panels(s) && Precedes(VisualOrder(Members(s, p)), x, y)
    ensures Precedes(MangaOrder(s), x, y)
  {
    hide VisualOrder, Precedes, Panels, Members, Loose, Grouped, MangaOrder;
    var k := GroupOf(s, p);
    var none: seq<Item> := [];
    PrecedesWithin([p], VisualOrder(Members(s, p)), none, x, y);
    assert [p] + (VisualOrder(Members(s, p)) + none) == [p] + VisualOrder(Members(s, p));
    WithinLine(Groups(s, VisualOrder(Panels(s))), k, x, y);
  }

  /** So are the items of one panel. */
  lemma ItemsOfAPanelRead(s: set<Item>, p: Item, x: Item, y: Item)
    requires DistinctItems(s) && x in Members(s, p) && y in Members(s, p) && x != y
    ensures Precedes(MangaOrder(s), x, y) <==> VisualFirst(Members(s, p), x, y)
  {
    assert p in Panels(s) && x in s && y in s && DistinctItems(Members(s, p));
    hide Panels, Members, VisualFirst, MangaOrder, Precedes;
    VisualOrderReads(Members(s, p), x, y);
    OneIsFirstOfBoth(Members(s, p), VisualOrder(Members(s, p)), x, y);
    MangaIsOrdered(s, x, y);
    if VisualFirst(Members(s, p), x, y) {
      InsideKeepOrder(s, p, x, y);
    } else {
      InsideKeepOrder(s, p, y, x);
    }
  }

  /** All of a panel's items come before those of a later one. */
  lemma PanelAfterPanel(s: set<Item>, p: Item, q: Item, x: Item, y: Item)
    requires DistinctItems(s) && x in Members(s, p) && y in Members(s, q) && p != q && VisualFirst(Panels(s), p, q)
    ensures Precedes(MangaOrder(s), x, y)
  {
    assert p in Panels(s) && q in Panels(s) && DistinctItems(Members(s, p)) && DistinctItems(Members(s, q));
    PanelsDistinct(s);
    hide VisualOrder, Panels, Members, Loose, Grouped, MangaOrder, VisualFirst;
    VisualOrderReads(Panels(s), p, q);
    VisualOrderHasAll(Members(s, p));
    VisualOrderHasAll(Members(s, q));
    var panels := VisualOrder(Panels(s));
    var k := GroupOf(s, p);
    var l := GroupOf(s, q);
    VisualOrderHasAll(Panels(s));
    LaterPanel(panels, k, l);
    var groups := Groups(s, panels);
    InGroup(VisualOrder(Members(s, p)), p, x);
    InGroup(VisualOrder(Members(s, q)), q, y);
    hide Precedes, Elems;
    AcrossLines(groups, k, l, x, y);
  }

  lemma InGroup(members: seq<Item>, p: Item, x: Item)
    requires x in Elems(members)
    ensures x in [p] + members
  {
  }

  lemma LaterPanel(panels: seq<Item>, k: nat, l: nat)
    requires NoRepeats(panels) && k < |panels| && l < |panels| && Precedes(panels, panels[k], panels[l])
    ensures k < l
  {
    var i, j :| 0 <= i < j < |panels| && panels[i] == panels[k] && panels[j] == panels[l];
  }

  /** What no panel holds comes last, and is read like a page of its own. */
  lemma LooseItemsRead(s: set<Item>, x: Item, y: Item)
    requires DistinctItems(s) && x in Loose(s) && y in s && x != y
    ensures Precedes(MangaOrder(s), x, y) <==> y in Loose(s) && VisualFirst(Loose(s), x, y)
  {
    assert x in s && DistinctItems(Loose(s));
    MangaIsOrdered(s, x, y);
    if y in Loose(s) {
      hide Loose, VisualFirst, MangaOrder, Precedes, VisualOrder;
      VisualOrderReads(Loose(s), x, y);
      OneIsFirstOfBoth(Loose(s), VisualOrder(Loose(s)), x, y);
      if VisualFirst(Loose(s), x, y) {
        LooseKeepOrder(s, x, y);
      } else {
        LooseKeepOrder(s, y, x);
      }
    } else {
      LooseIsLast(s, y, x);
    }
  }

  lemma LooseKeepOrder(s: set<Item>, x: Item, y: Item)
    requires Precedes(VisualOrder(Loose(s)), x, y)
    ensures Precedes(MangaOrder(s), x, y)
  {
    var panels := VisualOrder(Panels(s));
    GroupsFlatten(s, panels);
    hide VisualOrder, Precedes, Panels, Members, Loose, Grouped;
    WithinLine(Groups(s, panels), |panels|, x, y);
  }

  lemma LooseIsLast(s: set<Item>, y: Item, x: Item)
    requires DistinctItems(s) && x in Loose(s) && y in s && y !in Loose(s)
    ensures Precedes(MangaOrder(s), y, x)
  {
    assert DistinctItems(Loose(s));
    var p := if y in Panels(s) then y else HomeOf(s, y);
    assert y == p || (y in Members(s, p) && DistinctItems(Members(s, p)));
    assert p in Panels(s);
    hide VisualOrder, Panels, Members, Loose, Grouped, MangaOrder, Precedes;
    VisualOrderHasAll(Loose(s));
    var k := GroupOf(s, p);
    var panels := VisualOrder(Panels(s));
    if y != p {
      VisualOrderHasAll(Members(s, p));
      InGroup(VisualOrder(Members(s, p)), p, y);
    }
    assert x in Elems(VisualOrder(Loose(s)));
    AcrossLines(Groups(s, panels), k, |panels|, y, x);
  }

  ghost function HomeOf(s: set<Item>, y: Item): (p: Item)
    requires y in Content(s) && y !in Loose(s)
    ensures IsHome(s, y, p)
  {
    HomeExists(s, y);
    var p :| IsHome(s, y, p);
    p
  }
}
