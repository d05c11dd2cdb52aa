/**
 The finished collection, after server/pipeline/detection.py: finalize_detections and what
 validate_detection_collection accepts.
 */
module PageDetections {
  import opened Sorting
  import opened Detection
  import opened VisualRows
  import opened ReadingOrder
  import opened ReadingDirection
  import opened JsonTree

  datatype Direction = Manga | Vertical

  /** A detection with its parent and its place in the reading order. */
  datatype Placed = Placed(item: Item, order: nat)

  function KindOrder(k: Kind): nat {
    match k case Panel => 0 case Balloon => 1 case Text => 2 case Sfx => 3
  }

  function VerticalKey(x: Item): Key {
    [N(x.det.box.y1 as real), N(x.det.box.x1 as real), N(KindOrder(x.det.kind) as real), T(x.det.id)]
  }

  ghost function Linked(s: set<Det>): set<Item> {
    set d | d in s :: Item(d, ParentId(s, d))
  }

  ghost function Ordered(direction: Direction, s: set<Item>): seq<Item> {
    match direction case Manga => MangaOrder(s) case Vertical => Ordering(VerticalKey, s)
  }

  function Number(items: seq<Item>): (r: seq<Placed>)
    ensures |r| == |items| && forall i | 0 <= i < |r| :: r[i] == Placed(items[i], i)
  {
    seq(|items|, i requires 0 <= i < |items| => Placed(items[i], i))
  }

  /** The finished page, a function of the set of detections. */
  ghost function Finalized(threshold: real, direction: Direction, s: set<Det>): seq<Placed> {
    Number(Ordered(direction, Linked(Elems(Kept(threshold, s)))))
  }

  /** The bare detections of a page, without parents and places. */
  function Unlinked(page: seq<Placed>): (r: seq<Det>)
    ensures |r| == |page| && forall i | 0 <= i < |r| :: r[i] == page[i].item.det
  {
    seq(|page|, i requires 0 <= i < |page| => page[i].item.det)
  }

  predicate DistinctDets(dets: seq<Det>) {
    forall i, j | 0 <= i < j < |dets| :: dets[i].id != dets[j].id
  }

  lemma DistinctDetsAre(dets: seq<Det>)
    requires DistinctDets(dets)
    ensures NoRepeats(dets) && DistinctIds(Elems(dets))
  {
  }

  lemma LinkedItems(dets: seq<Det>, linked: seq<Item>)
    requires NoRepeats(dets) && DistinctIds(Elems(dets)) && |linked| == |dets|
    requires forall i | 0 <= i < |dets| :: linked[i] == Item(dets[i], ParentId(Elems(dets), dets[i]))
    ensures NoRepeats(linked) && Elems(linked) == Linked(Elems(dets)) && DistinctItems(Elems(linked))
  {
    hide ParentId;
    var s := Elems(dets);
    forall x ensures x in Elems(linked) <==> x in Linked(s) {
      if x in Linked(s) {
        var i :| 0 <= i < |dets| && dets[i] == x.det;
        assert linked[i] == x;
      }
    }
  }

  /** `finalize_detections`: earlier parents and places of the input do not matter. */
  method FinalizeDetections(page: seq<Placed>, threshold: real, direction: Direction) returns (r: seq<Placed>)
    requires DistinctDets(Unlinked(page))
    ensures r == Finalized(threshold, direction, Elems(Unlinked(page)))
  {
    var unlinked := Unlinked(page);
    DistinctDetsAre(unlinked);
    KeptIsKernel(threshold, Elems(unlinked));
    KeptAndDropped(threshold, Elems(unlinked));
    hide Kept, Unlinked, IsKernel, Conflict, ParentId, InOrder;
    var kept := DeduplicateByClass(unlinked, threshold);
    assert DistinctIds(Elems(kept));
    var linked := LinkTextToBalloons(kept);
    LinkedItems(kept, linked);
    hide Linked;
    r := Arrange(linked, direction);
  }

  method Arrange(linked: seq<Item>, direction: Direction) returns (r: seq<Placed>)
    requires NoRepeats(linked) && DistinctItems(Elems(linked))
    ensures r == Number(Ordered(direction, Elems(linked)))
  {
    if direction.Manga? {
      var ordered := OrderMangaDetections(linked);
      r := Number(ordered);
    } else {
      SortIsOrdering(VerticalKey, linked);
      r := Number(Sort(VerticalKey, linked));
    }
  }

  // ----- what validation accepts ----------------------------------------------------------------

  /** `validate_detection_collection` returns without raising. */
  predicate Accepted(page: seq<Placed>) {
    && (forall i, j | 0 <= i < j < |page| :: page[i].item.det.id != page[j].item.det.id)
    && (forall i, j | 0 <= i < j < |page| :: page[i].order != page[j].order)
    && forall i | 0 <= i < |page| && page[i].item.parent.Some? ::
         && page[i].item.det.kind == Text
         && exists j | 0 <= j < |page| :: page[j].item.det.id == page[i].item.parent.value && page[j].item.det.kind == Balloon
  }

  lemma OrderedHasAll(direction: Direction, s: set<Item>)
    requires DistinctItems(s)
    ensures NoRepeats(Ordered(direction, s)) && Elems(Ordered(direction, s)) == s
  {
    if direction.Manga? {
      MangaOrderHasAll(s);
    }
  }

  /** What a finished page holds: exactly the kept detections, each once, linked, in places 0, 1, 2, ... */
  lemma FinalizedHolds(threshold: real, direction: Direction, s: set<Det>)
    requires DistinctIds(s)
    ensures var page, kept := Finalized(threshold, direction, s), Elems(Kept(threshold, s));
      && |page| == |kept| && DistinctIds(kept) && Elems(Unlinked(page)) == kept
      && DistinctDets(Unlinked(page))
      && forall i | 0 <= i < |page| :: page[i].order == i && page[i].item.parent == ParentId(kept, page[i].item.det)
  {
    KeptAndDropped(threshold, s);
    var kept := Elems(Kept(threshold, s));
    assert DistinctIds(kept);
    hide Kept, Conflict, ParentId;
    OrderedHasAll(direction, Linked(kept));
    var ordered := Ordered(direction, Linked(kept));
    hide Ordered;
    PlacesHold(kept, ordered);
  }

  lemma PlacesHold(kept: set<Det>, ordered: seq<Item>)
    requires DistinctIds(kept) && NoRepeats(ordered) && Elems(ordered) == Linked(kept)
    ensures var page := Number(ordered);
      && |page| == |kept| && Elems(Unlinked(page)) == kept && DistinctDets(Unlinked(page))
      && forall i | 0 <= i < |page| :: page[i].order == i && page[i].item.parent == ParentId(kept, page[i].item.det)
  {
    hide ParentId;
    var page := Number(ordered);
    var dets := Unlinked(page);
    forall i | 0 <= i < |ordered| ensures ordered[i].det in kept && ordered[i] == Item(ordered[i].det, ParentId(kept, ordered[i].det)) {
      assert ordered[i] in Elems(ordered);
    }
    forall i, j | 0 <= i < j < |dets| ensures dets[i].id != dets[j].id {
      assert ordered[i] != ordered[j];
    }
    forall d ensures d in Elems(dets) <==> d in kept {
      if d in kept {
        assert Item(d, ParentId(kept, d)) in Elems(ordered);
        var i :| 0 <= i < |ordered| && ordered[i] == Item(d, ParentId(kept, d));
        assert dets[i] == d;
      }
    }
    assert Elems(dets) == kept;
    DistinctDetsAre(dets);
    NoRepeatsMultiset(dets);
    assert |dets| == |multiset(dets)| == |multiset(kept)| == |kept|;
  }

  /** A finished page always passes validation. */
  lemma FinalizedIsAccepted(threshold: real, direction: Direction, s: set<Det>)
    requires DistinctIds(s)
    ensures Accepted(Finalized(threshold, direction, s))
  {
    FinalizedHolds(threshold, direction, s);
    var page, kept := Finalized(threshold, direction, s), Elems(Kept(threshold, s));
    hide *;
    forall d ensures ParentWithin(kept, d) {
    }
    LinkedIsAccepted(kept, page);
  }

  /** A detection's parent is a balloon of the set, and only a text has one. */
  ghost predicate ParentWithin(s: set<Det>, d: Det) {
    ParentId(s, d).Some? ==> d.kind == Text && exists b :: b in s && b.id == ParentId(s, d).value && b.kind == Balloon
  }

  lemma LinkedIsAccepted(kept: set<Det>, page: seq<Placed>)
    requires Elems(Unlinked(page)) == kept && DistinctDets(Unlinked(page))
    requires forall i | 0 <= i < |page| :: page[i].order == i && page[i].item.parent == ParentId(kept, page[i].item.det)
    requires forall d :: ParentWithin(kept, d)
    ensures Accepted(page)
  {
    hide ParentId;
    var dets := Unlinked(page);
    hide Unlinked;
    forall i | 0 <= i < |page| && page[i].item.parent.Some?
      ensures page[i].item.det.kind == Text
      ensures exists j | 0 <= j < |page| :: page[j].item.det.id == page[i].item.parent.value && page[j].item.det.kind == Balloon
    {
      assert ParentWithin(kept, page[i].item.det);
      var b :| b in kept && b.id == page[i].item.parent.value && b.kind == Balloon;
      assert b in Elems(dets);
      var j :| 0 <= j < |dets| && dets[j] == b;
      assert page[j].item.det == b;
    }
    forall i, j | 0 <= i < j < |page| ensures page[i].item.det.id != page[j].item.det.id {
      assert dets[i].id != dets[j].id;
    }
  }

  /** Finishing a finished page changes nothing. */
  lemma FinalizedIsIdempotent(threshold: real, direction: Direction, s: set<Det>)
    requires DistinctIds(s)
    ensures var page := Finalized(threshold, direction, s);
      Finalized(threshold, direction, Elems(Unlinked(page))) == page
  {
    FinalizedHolds(threshold, direction, s);
    KeptIsIdempotent(threshold, s);
  }

  // ----- places ----------------------------------------------------------------------------------

  /** From the top, then from the left; then panels, balloons, texts and effects; then by id. */
  predicate HigherFirst(x: Item, y: Item) {
    var a, b := x.det.box, y.det.box;
    if a.y1 != b.y1 then a.y1 < b.y1
    else if a.x1 != b.x1 then a.x1 < b.x1
    else if x.det.kind != y.det.kind then
      x.det.kind == Panel || y.det.kind == Sfx || (x.det.kind == Balloon && y.det.kind == Text)
    else IdBefore(x.det.id, y.det.id)
  }

  lemma VerticalKeyIs(x: Item, y: Item)
    requires x.det.id != y.det.id
    ensures KeyAtMost(VerticalKey(x), VerticalKey(y)) <==> HigherFirst(x, y)
    ensures VerticalKey(x) != VerticalKey(y)
  {
    TupleOfFour(VerticalKey(x), VerticalKey(y));
    assert VerticalKey(x)[3] != VerticalKey(y)[3];
    hide KeyAtMost, AtMost;
  }

  /** Which of two items a webtoon page is read first. */
  lemma VerticalReads(s: set<Item>, x: Item, y: Item)
    requires DistinctItems(s) && x in s && y in s && x != y
    ensures Precedes(Ordered(Vertical, s), x, y) <==> HigherFirst(x, y)
  {
    var ordered := Ordering(VerticalKey, s);
    OrderingInOrder(VerticalKey, s);
    hide Ordering, VerticalKey, HigherFirst, KeyAtMost;
    VerticalKeyIs(x, y);
    VerticalKeyIs(y, x);
    KeyTotal(VerticalKey(x), VerticalKey(y));
    assert x in Elems(ordered) && y in Elems(ordered);
    OneIsFirst(ordered, x, y);
  }

  /** The places of a finished page say which of two of its items is read first. */
  lemma PlacesSayTheOrder(threshold: real, direction: Direction, s: set<Det>, i: nat, j: nat)
    requires DistinctIds(s)
    requires i < |Finalized(threshold, direction, s)| && j < |Finalized(threshold, direction, s)| && i != j
    ensures var page := Finalized(threshold, direction, s);
      page[i].order < page[j].order
      <==> Precedes(Ordered(direction, Linked(Elems(Kept(threshold, s)))), page[i].item, page[j].item)
  {
    KeptAndDropped(threshold, s);
    var kept := Elems(Kept(threshold, s));
    assert DistinctItems(Linked(kept)) by {
      hide ParentId, Kept;
      assert DistinctIds(kept);
    }
    hide Kept, Linked, Ordered;
    OrderedHasAll(direction, Linked(kept));
    PlaceIs(Ordered(direction, Linked(kept)), i, j);
  }

  lemma PlaceIs(ordered: seq<Item>, i: nat, j: nat)
    requires NoRepeats(ordered) && i < |ordered| && j < |ordered| && i != j
    ensures Number(ordered)[i].order < Number(ordered)[j].order <==> Precedes(ordered, ordered[i], ordered[j])
  {
  }
}
