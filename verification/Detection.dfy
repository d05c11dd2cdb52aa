/**
 Deterministic post-processing of page detections, after server/pipeline/detection.py:
 greedy suppression within a kind and the link from a text to its balloon. Both are
 functions of the set of detections, whatever order a backend lists them in.
 */
module Detection {
  import opened Basics
  import opened JsonTree
  import opened Sorting

  // ----- geometry ---------------------------------------------------------------------------

  datatype Rect = Rect(x1: int, y1: int, x2: int, y2: int) {
    predicate Valid() {
      0 <= x1 < x2 && 0 <= y1 < y2
    }

    function Width(): int {
      x2 - x1
    }

    function Height(): int {
      y2 - y1
    }

    function Area(): int {
      Width() * Height()
    }
  }

  type Box = b: Rect | b.Valid() witness Rect(0, 0, 1, 1)

  datatype Kind = Text | Sfx | Balloon | Panel

  function Intersection(a: Box, b: Box): int {
    Max(0, Min(a.x2, b.x2) - Max(a.x1, b.x1)) * Max(0, Min(a.y2, b.y2) - Max(a.y1, b.y1))
  }

  /** The part of `a` that `b` covers. */
  function Overlap(a: Box, b: Box): real {
    Intersection(a, b) as real / a.Area() as real
  }

  predicate ContainsCenter(container: Box, item: Box) {
    && container.x1 as real <= (item.x1 + item.x2) as real / 2.0 < container.x2 as real
    && container.y1 as real <= (item.y1 + item.y2) as real / 2.0 < container.y2 as real
  }

  // ----- what the overlap measures ------------------------------------------------------------

  /** The unit cells of a rectangle. */
  function Cells(b: Rect): set<(int, int)> {
    set x, y | b.x1 <= x < b.x2 && b.y1 <= y < b.y2 :: (x, y)
  }

  function Meet(a: Rect, b: Rect): Rect {
    Rect(Max(a.x1, b.x1), Max(a.y1, b.y1), Min(a.x2, b.x2), Min(a.y2, b.y2))
  }

  lemma {:induction false} ColumnCells(x: int, y1: int, y2: int)
    requires y1 <= y2
    ensures |Cells(Rect(x, y1, x + 1, y2))| == y2 - y1
    decreases y2 - y1
  {
    if y1 < y2 {
      ColumnCells(x, y1, y2 - 1);
      assert Cells(Rect(x, y1, x + 1, y2)) == Cells(Rect(x, y1, x + 1, y2 - 1)) + {(x, y2 - 1)};
    } else {
      assert Cells(Rect(x, y1, x + 1, y2)) == {};
    }
  }

  lemma CellsSplit(b: Rect)
    requires b.x1 < b.x2 && b.y1 <= b.y2
    ensures |Cells(b)| == |Cells(b.(x2 := b.x2 - 1))| + (b.y2 - b.y1)
  {
    var less, column := b.(x2 := b.x2 - 1), Rect(b.x2 - 1, b.y1, (b.x2 - 1) + 1, b.y2);
    ColumnCells(b.x2 - 1, b.y1, b.y2);
    assert Cells(b) == Cells(less) + Cells(column) && Cells(less) !! Cells(column);
  }

  lemma OneMore(w: int, h: int)
    ensures (w - 1) * h + h == w * h && 0 * h == 0
  {
  }

  lemma {:induction false} CountCells(b: Rect)
    requires b.x1 <= b.x2 && b.y1 <= b.y2
    ensures |Cells(b)| == (b.x2 - b.x1) * (b.y2 - b.y1)
    decreases b.x2 - b.x1
  {
    OneMore(b.x2 - b.x1, b.y2 - b.y1);
    if b.x1 < b.x2 {
      CountCells(b.(x2 := b.x2 - 1));
      CellsSplit(b);
      hide Cells;
    } else {
      assert Cells(b) == {};
    }
  }

  lemma MeetCells(a: Rect, b: Rect)
    ensures Cells(a) * Cells(b) == Cells(Meet(a, b))
    ensures var m := Meet(a, b); m.x1 >= m.x2 || m.y1 >= m.y2 ==> Cells(m) == {}
  {
  }

  lemma IntersectionIs(a: Box, b: Box)
    ensures |Cells(Meet(a, b))| == Intersection(a, b)
  {
    MeetCells(a, b);
    hide Cells;
    var m := Meet(a, b);
    if m.x1 < m.x2 && m.y1 < m.y2 {
      CountCells(m);
    } else {
      OneMore(1, m.y2 - m.y1);
      OneMore(1, m.x2 - m.x1);
    }
  }

  /** The overlap is the share of a box's cells that lie in the other. */
  lemma OverlapIsTheShare(a: Box, b: Box)
    ensures |Cells(a)| > 0 && Overlap(a, b) == |Cells(a) * Cells(b)| as real / |Cells(a)| as real
  {
    CountCells(a);
    MeetCells(a, b);
    IntersectionIs(a, b);
    hide Cells, Intersection, Meet;
    Positive(a.Width(), a.Height());
  }

  lemma Positive(w: int, h: int)
    requires w > 0 && h > 0
    ensures w * h > 0
  {
  }

  // ----- detections -------------------------------------------------------------------------

  datatype Det = Det(id: string, kind: Kind, box: Box, confidence: real, rawLabel: string)

  ghost predicate DistinctIds(s: set<Det>) {
    forall d, e | d in s && e in s && d.id == e.id :: d == e
  }

  function ConfidenceKey(d: Det): Key {
    [N(-d.confidence), T(d.id)]
  }

  /** The same kind, and either covers more than the threshold of the other. */
  predicate Conflict(threshold: real, a: Det, b: Det) {
    a.kind == b.kind && (Overlap(a.box, b.box) > threshold || Overlap(b.box, a.box) > threshold)
  }

  predicate ConflictsWith(threshold: real, d: Det, kept: seq<Det>) {
    exists i | 0 <= i < |kept| :: Conflict(threshold, d, kept[i])
  }

  /** Greedy suppression of a queue, after `kept`. */
  function Greedy(threshold: real, kept: seq<Det>, queue: seq<Det>): seq<Det>
    decreases |queue|
  {
    if queue == [] then kept
    else if ConflictsWith(threshold, queue[0], kept) then Greedy(threshold, kept, queue[1..])
    else Greedy(threshold, kept + [queue[0]], queue[1..])
  }

  /** What suppression keeps of a set, most confident first. */
  ghost function Kept(threshold: real, s: set<Det>): seq<Det> {
    Greedy(threshold, [], Ordering(ConfidenceKey, s))
  }

  /** `_deduplicate_by_class`. */
  method DeduplicateByClass(dets: seq<Det>, threshold: real) returns (kept: seq<Det>)
    requires NoRepeats(dets) && DistinctIds(Elems(dets))
    ensures kept == Kept(threshold, Elems(dets))
  {
    SortIsOrdering(ConfidenceKey, dets);
    var queue := Sort(ConfidenceKey, dets);
    kept := [];
    assert queue[0..] == queue && Greedy(threshold, kept, queue) == Kept(threshold, Elems(dets));
    hide *;
    for i := 0 to |queue|
      invariant Greedy(threshold, kept, queue[i..]) == Kept(threshold, Elems(dets))
    {
      GreedyStep(threshold, kept, queue[i..]);
      assert queue[i..][0] == queue[i] && queue[i..][1..] == queue[i + 1..];
      if !ConflictsWith(threshold, queue[i], kept) {
        kept := kept + [queue[i]];
      }
    }
    assert queue[|queue|..] == [];
  }

  // ----- what suppression keeps ----------------------------------------------------------------

  predicate Earlier(d: Det, e: Det) {
    KeyAtMost(ConfidenceKey(d), ConfidenceKey(e)) && d != e
  }

  /**
   A choice of detections in which each is chosen exactly when no earlier chosen one
   conflicts with it.
   */
  ghost predicate IsKernel(threshold: real, s: set<Det>, chosen: set<Det>) {
    && chosen <= s
    && forall d | d in s :: d in chosen <==> !exists e :: e in chosen && Earlier(e, d) && Conflict(threshold, d, e)
  }

  /** The state of the loop: what is kept of the part already seen. */
  ghost predicate Partial(threshold: real, seen: seq<Det>, kept: seq<Det>) {
    && NoRepeats(kept) && InOrder(ConfidenceKey, kept) && Elems(kept) <= Elems(seen)
    && IsKernel(threshold, Elems(seen), Elems(kept))
  }

  lemma {:induction false} GreedyIsKernel(threshold: real, seen: seq<Det>, kept: seq<Det>, queue: seq<Det>)
    requires NoRepeats(seen + queue) && InOrder(ConfidenceKey, seen + queue) && DistinctIds(Elems(seen + queue))
    requires Partial(threshold, seen, kept)
    ensures Partial(threshold, seen + queue, Greedy(threshold, kept, queue))
    decreases |queue|
  {
    if queue == [] {
      assert seen + queue == seen;
    } else {
      var next := if ConflictsWith(threshold, queue[0], kept) then kept else kept + [queue[0]];
      KernelStep(threshold, seen, kept, queue);
      assert (seen + [queue[0]]) + queue[1..] == seen + queue;
      hide *;
      GreedyIsKernel(threshold, seen + [queue[0]], next, queue[1..]);
      GreedyStep(threshold, kept, queue);
    }
  }

  lemma GreedyStep(threshold: real, kept: seq<Det>, queue: seq<Det>)
    requires queue != []
    ensures Greedy(threshold, kept, queue)
         == Greedy(threshold, if ConflictsWith(threshold, queue[0], kept) then kept else kept + [queue[0]], queue[1..])
  {
  }

  lemma KernelStep(threshold: real, seen: seq<Det>, kept: seq<Det>, queue: seq<Det>)
    requires queue != []
    requires NoRepeats(seen + queue) && InOrder(ConfidenceKey, seen + queue) && DistinctIds(Elems(seen + queue))
    requires Partial(threshold, seen, kept)
    ensures Partial(threshold, seen + [queue[0]], if ConflictsWith(threshold, queue[0], kept) then kept else kept + [queue[0]])
  {
    var d := queue[0];
    NextIsLast(seen, queue);
    assert Elems(seen + [d]) == Elems(seen) + {d};
    assert d !in Elems(seen) && d !in Elems(kept);
    assert Elems(kept + [d]) == Elems(kept) + {d};
    forall i | 0 <= i < |kept| ensures kept[i] in seen && Earlier(kept[i], d) {
      assert kept[i] in Elems(kept);
      assert kept[i] in Elems(seen);
    }
    hide Conflict, ConflictsWith, ConfidenceKey, KeyAtMost, Elems;
    KernelGrows(threshold, Elems(seen), Elems(kept), d, !ConflictsWith(threshold, d, kept));
  }

  /** One more detection, after all those seen, keeps the kernel one. */
  lemma KernelGrows(threshold: real, s: set<Det>, chosen: set<Det>, d: Det, taken: bool)
    requires IsKernel(threshold, s, chosen) && d !in s
    requires forall e | e in s :: Earlier(e, d) && !Earlier(d, e)
    requires taken <==> !exists f :: f in chosen && Earlier(f, d) && Conflict(threshold, d, f)
    ensures IsKernel(threshold, s + {d}, if taken then chosen + {d} else chosen)
  {
    hide Conflict, KeyAtMost, ConfidenceKey;
    var next := if taken then chosen + {d} else chosen;
    forall e | e in s + {d}
      ensures e in next <==> !exists f :: f in next && Earlier(f, e) && Conflict(threshold, e, f)
    {
      if e == d {
        assert !Earlier(d, d);
      }
    }
  }

  /** Everything seen comes before the next of the queue, and never after it. */
  lemma NextIsLast(seen: seq<Det>, queue: seq<Det>)
    requires queue != []
    requires NoRepeats(seen + queue) && InOrder(ConfidenceKey, seen + queue) && DistinctIds(Elems(seen + queue))
    ensures queue[0] !in seen
    ensures forall e | e in seen :: Earlier(e, queue[0]) && !Earlier(queue[0], e)
  {
    var all := seen + queue;
    forall e | e in seen ensures e != queue[0] && Earlier(e, queue[0]) && !Earlier(queue[0], e) {
      var i :| 0 <= i < |seen| && seen[i] == e;
      assert all[i] == e && all[|seen|] == queue[0];
      assert e in Elems(all) && queue[0] in Elems(all);
      KeyTotal(ConfidenceKey(e), ConfidenceKey(queue[0]));
    }
  }

  lemma NothingIsKept(threshold: real)
    ensures Partial(threshold, [], [])
  {
    assert Elems<Det>([]) == {};
  }

  /**
   Suppression keeps a detection exactly when nothing kept and earlier conflicts with
   it, in order of confidence.
   */
  lemma KeptIsKernel(threshold: real, s: set<Det>)
    requires DistinctIds(s)
    ensures var kept := Kept(threshold, s);
      NoRepeats(kept) && InOrder(ConfidenceKey, kept) && IsKernel(threshold, s, Elems(kept))
  {
    var queue := Ordering(ConfidenceKey, s);
    OrderingInOrder(ConfidenceKey, s);
    assert [] + queue == queue;
    assert Partial(threshold, [], []) by {
      NothingIsKept(threshold);
    }
    hide Ordering, InOrder, Greedy, IsKernel, DistinctIds, Elems, ConfidenceKey, NoRepeats;
    GreedyIsKernel(threshold, [], [], queue);
  }

  /** No two kept detections conflict, and each dropped one conflicts with a kept one at least as confident. */
  lemma KeptAndDropped(threshold: real, s: set<Det>)
    requires DistinctIds(s)
    ensures var kept := Elems(Kept(threshold, s));
      && kept <= s
      && (forall d, e | d in kept && e in kept && d != e :: !Conflict(threshold, d, e))
      && forall d | d in s - kept :: exists e :: e in kept && Conflict(threshold, d, e) && e.confidence >= d.confidence
  {
    KeptIsKernel(threshold, s);
    var kept := Elems(Kept(threshold, s));
    hide Kept, Overlap;
    forall d, e | d in kept && e in kept && d != e ensures !Conflict(threshold, d, e) {
      KeyTotal(ConfidenceKey(d), ConfidenceKey(e));
      assert Earlier(d, e) || Earlier(e, d);
      assert Conflict(threshold, d, e) <==> Conflict(threshold, e, d);
    }
    forall d | d in s - kept ensures exists e :: e in kept && Conflict(threshold, d, e) && e.confidence >= d.confidence {
      var e :| e in kept && Earlier(e, d) && Conflict(threshold, d, e);
    }
  }

  /** Earlier is more confident, or as confident with a smaller id. */
  lemma EarlierIs(d: Det, e: Det)
    requires d.id != e.id
    ensures Earlier(d, e) <==> d.confidence > e.confidence || (d.confidence == e.confidence && AtMost(d.id, e.id))
  {
    hide AtMost;
    var a, b := ConfidenceKey(d), ConfidenceKey(e);
    assert a[1..][0] == T(d.id) && b[1..][0] == T(e.id) && a[1..][1..] == [] && b[1..][1..] == [];
    assert KeyAtMost(a[1..], b[1..]) <==> AtMost(d.id, e.id);
  }

  /** The kept ones are listed from the most to the least confident, equal ones by id. */
  lemma KeptByConfidence(threshold: real, s: set<Det>, i: nat, j: nat)
    requires DistinctIds(s) && i < j < |Kept(threshold, s)|
    ensures var d, e := Kept(threshold, s)[i], Kept(threshold, s)[j];
      d.confidence > e.confidence || (d.confidence == e.confidence && AtMost(d.id, e.id))
  {
    KeptIsKernel(threshold, s);
    var d, e := Kept(threshold, s)[i], Kept(threshold, s)[j];
    hide Kept, ConfidenceKey, KeyAtMost, Conflict;
    assert d in Elems(Kept(threshold, s)) && e in Elems(Kept(threshold, s));
    EarlierIs(d, e);
  }

  /** There is only one such choice. */
  lemma KernelIsUnique(threshold: real, s: set<Det>, a: set<Det>, b: set<Det>)
    requires DistinctIds(s) && IsKernel(threshold, s, a) && IsKernel(threshold, s, b)
    ensures a == b
  {
    assert a <= s && b <= s;
    hide IsKernel, Earlier, KeyAtMost, ConfidenceKey, IsFirst;
    var odd := set d | d in s && (d in a) != (d in b);
    if odd != {} {
      FirstExists(ConfidenceKey, odd);
      var d :| IsFirst(ConfidenceKey, odd, d);
      forall e | e in s && Earlier(e, d) ensures e in a <==> e in b {
        NoneEarlier(s, odd, d, e);
      }
      FirstIsIn(odd, d);
      KernelDecides(threshold, s, a, b, d);
      assert false;
    }
    forall d ensures d in a <==> d in b {
      assert d !in odd;
    }
  }

  lemma KernelDecides(threshold: real, s: set<Det>, a: set<Det>, b: set<Det>, d: Det)
    requires IsKernel(threshold, s, a) && IsKernel(threshold, s, b) && d in s
    requires forall e | e in s && Earlier(e, d) :: e in a <==> e in b
    ensures d in a <==> d in b
  {
    hide Conflict, Earlier;
    if d !in a {
      var e :| e in a && Earlier(e, d) && Conflict(threshold, d, e);
      assert e in b;
    }
    if d !in b {
      var e :| e in b && Earlier(e, d) && Conflict(threshold, d, e);
      assert e in a;
    }
  }

  lemma FirstIsIn(s: set<Det>, d: Det)
    requires IsFirst(ConfidenceKey, s, d)
    ensures d in s
  {
  }

  lemma NoneEarlier(s: set<Det>, odd: set<Det>, d: Det, e: Det)
    requires DistinctIds(s) && odd <= s && IsFirst(ConfidenceKey, odd, d) && e in s && Earlier(e, d)
    ensures e !in odd
  {
    KeyTotal(ConfidenceKey(d), ConfidenceKey(e));
  }

  /** Suppressing again changes nothing. */
  lemma KeptIsIdempotent(threshold: real, s: set<Det>)
    requires DistinctIds(s)
    ensures Kept(threshold, Elems(Kept(threshold, s))) == Kept(threshold, s)
  {
    var kept := Kept(threshold, s);
    KeptIsKernel(threshold, s);
    KeptAndDropped(threshold, s);
    var t := Elems(kept);
    KeptIsKernel(threshold, t);
    KernelOfKernel(threshold, s, t);
    KernelIsUnique(threshold, t, Elems(Kept(threshold, t)), t);
    hide Kept;
    OrderingIsUnique(ConfidenceKey, kept);
    OrderingIsUnique(ConfidenceKey, Kept(threshold, t));
  }

  lemma KernelOfKernel(threshold: real, s: set<Det>, t: set<Det>)
    requires IsKernel(threshold, s, t) && forall d, e | d in t && e in t && d != e :: !Conflict(threshold, d, e)
    ensures IsKernel(threshold, t, t)
  {
    hide Conflict, ConfidenceKey, KeyAtMost;
  }

  // ----- linking texts to balloons --------------------------------------------------------------

  datatype Item = Item(det: Det, parent: Option<string>)

  predicate Eligible(text: Det, balloon: Det) {
    && text.kind == Text && balloon.kind == Balloon
    && (ContainsCenter(balloon.box, text.box) || Overlap(text.box, balloon.box) >= 0.5)
  }

  function Score(text: Det, balloon: Det): real {
    Overlap(text.box, balloon.box) + if ContainsCenter(balloon.box, text.box) then 1.0 else 0.0
  }

  function LinkKey(text: Det, balloon: Det): Key {
    [N(-Score(text, balloon)), N(balloon.box.Area() as real), T(balloon.id)]
  }

  /** An eligible balloon of the smallest key. */
  ghost predicate IsBest(s: set<Det>, text: Det, b: Det) {
    b in s && Eligible(text, b) && forall c | c in s && Eligible(text, c) :: KeyAtMost(LinkKey(text, b), LinkKey(text, c))
  }

  ghost function ParentId(s: set<Det>, d: Det): Option<string> {
    if b :| IsBest(s, d, b) then Some(b.id) else None
  }

  lemma BestIsUnique(s: set<Det>, text: Det, a: Det, b: Det)
    requires DistinctIds(s) && IsBest(s, text, a) && IsBest(s, text, b)
    ensures a == b
  {
    KeyTotal(LinkKey(text, a), LinkKey(text, b));
    assert LinkKey(text, a)[2] == LinkKey(text, b)[2];
  }

  /** `link_text_to_balloons`. */
  method LinkTextToBalloons(dets: seq<Det>) returns (linked: seq<Item>)
    requires DistinctIds(Elems(dets))
    ensures |linked| == |dets|
    ensures forall i | 0 <= i < |dets| :: linked[i] == Item(dets[i], ParentId(Elems(dets), dets[i]))
  {
    hide Eligible, LinkKey, KeyAtMost;
    linked := [];
    for i := 0 to |dets|
      invariant |linked| == i
      invariant forall k | 0 <= k < i :: linked[k] == Item(dets[k], ParentId(Elems(dets), dets[k]))
    {
      var parent: Option<Det> := None;
      for k := 0 to |dets|
        invariant parent.None? ==> forall j | 0 <= j < k :: !Eligible(dets[i], dets[j])
        invariant parent.Some? ==>
          && parent.value in dets[..k] && Eligible(dets[i], parent.value)
          && forall j | 0 <= j < k && Eligible(dets[i], dets[j]) ::
               KeyAtMost(LinkKey(dets[i], parent.value), LinkKey(dets[i], dets[j]))
      {
        if Eligible(dets[i], dets[k]) {
          KeyTotal(LinkKey(dets[i], dets[k]), LinkKey(dets[i], dets[k]));
          if parent.None? {
            parent := Some(dets[k]);
          } else {
            KeyTotal(LinkKey(dets[i], parent.value), LinkKey(dets[i], dets[k]));
            if !KeyAtMost(LinkKey(dets[i], parent.value), LinkKey(dets[i], dets[k])) {
              forall j | 0 <= j < k && Eligible(dets[i], dets[j])
                ensures KeyAtMost(LinkKey(dets[i], dets[k]), LinkKey(dets[i], dets[j]))
              {
                KeyTransitive(LinkKey(dets[i], dets[k]), LinkKey(dets[i], parent.value), LinkKey(dets[i], dets[j]));
              }
              parent := Some(dets[k]);
            }
          }
        }
      }
      if parent.Some? {
        BestIs(dets, dets[i], parent.value);
        linked := linked + [Item(dets[i], Some(parent.value.id))];
      } else {
        assert forall b :: !IsBest(Elems(dets), dets[i], b);
        linked := linked + [Item(dets[i], None)];
      }
    }
  }

  lemma BestIs(dets: seq<Det>, text: Det, b: Det)
    requires DistinctIds(Elems(dets)) && b in dets && Eligible(text, b)
    requires forall j | 0 <= j < |dets| && Eligible(text, dets[j]) :: KeyAtMost(LinkKey(text, b), LinkKey(text, dets[j]))
    ensures ParentId(Elems(dets), text) == Some(b.id)
  {
    assert IsBest(Elems(dets), text, b);
    var c :| IsBest(Elems(dets), text, c) && ParentId(Elems(dets), text) == Some(c.id);
    BestIsUnique(Elems(dets), text, b, c);
  }

  /** Higher score first, then the smaller balloon, then the smaller id. */
  predicate Preferred(text: Det, b: Det, c: Det) {
    || Score(text, b) > Score(text, c)
    || (Score(text, b) == Score(text, c)
        && (b.box.Area() < c.box.Area() || (b.box.Area() == c.box.Area() && AtMost(b.id, c.id))))
  }

  /** A text is linked exactly when some balloon is eligible, and then to the preferred one. */
  lemma ParentIsPreferred(s: set<Det>, d: Det)
    requires DistinctIds(s)
    ensures ParentId(s, d) == None <==> forall b | b in s :: !Eligible(d, b)
    ensures ParentId(s, d).Some? ==>
              exists b :: b in s && b.id == ParentId(s, d).value && Eligible(d, b)
                          && forall c | c in s && Eligible(d, c) :: Preferred(d, b, c)
  {
    hide Eligible, Score;
    var eligible := set b | b in s && Eligible(d, b);
    if eligible != {} {
      var key := b => LinkKey(d, b);
      FirstExists(key, eligible);
      var b :| IsFirst(key, eligible, b);
      forall c | c in s && Eligible(d, c) ensures KeyAtMost(LinkKey(d, b), LinkKey(d, c)) {
        assert c in eligible && KeyAtMost(key(b), key(c));
      }
      assert IsBest(s, d, b);
      forall c | c in s && Eligible(d, c) ensures Preferred(d, b, c) {
        PreferredIsKey(d, b, c);
      }
      var e :| IsBest(s, d, e) && ParentId(s, d) == Some(e.id);
      BestIsUnique(s, d, b, e);
    } else {
      assert forall b | b in s :: b !in eligible;
    }
  }

  lemma PreferredIsKey(d: Det, b: Det, c: Det)
    requires KeyAtMost(LinkKey(d, b), LinkKey(d, c))
    ensures Preferred(d, b, c)
  {
    hide Score;
    var x, y := LinkKey(d, b), LinkKey(d, c);
    assert x[1..] == [N(b.box.Area() as real), T(b.id)] && y[1..] == [N(c.box.Area() as real), T(c.id)];
    assert x[1..][1..] == [T(b.id)] && y[1..][1..] == [T(c.id)];
    AtMostTotal(b.id, c.id);
    if x[0] == y[0] {
      assert KeyAtMost(x[1..], y[1..]);
      if x[1] == y[1] {
        assert KeyAtMost([T(b.id)], [T(c.id)]);
      }
    }
  }
}