/**
 `_order_manga_detections` of server/pipeline/detection.py: panels in their visual order,
 each followed by the items whose smallest panel it is, and loose items at the end.
 */
module ReadingOrder {
  import opened Sorting
  import opened Detection
  import opened VisualRows

  // ----- panels ---------------------------------------------------------------------------

  ghost function Panels(s: set<Item>): set<Item> {
    set x | x in s && x.det.kind == Panel
  }

  ghost function Content(s: set<Item>): set<Item> {
    set x | x in s && x.det.kind != Panel
  }

  function HomeKey(p: Item): Key {
    [N(p.det.box.Area() as real), T(p.det.id)]
  }

  predicate Holds(p: Item, x: Item) {
    ContainsCenter(p.det.box, x.det.box)
  }

  /** The smallest panel around the item's centre, then the smallest id. */
  ghost predicate IsHome(s: set<Item>, x: Item, p: Item) {
    p in Panels(s) && Holds(p, x) && forall q | q in Panels(s) && Holds(q, x) :: KeyAtMost(HomeKey(p), HomeKey(q))
  }

  ghost function Members(s: set<Item>, p: Item): set<Item> {
    set x | x in Content(s) && IsHome(s, x, p)
  }

  /** Content in no panel at all. */
  ghost function Loose(s: set<Item>): set<Item> {
    set x | x in Content(s) && forall p | p in Panels(s) :: !Holds(p, x)
  }

  ghost function Grouped(s: set<Item>, panels: seq<Item>): seq<Item> {
    if panels == [] then VisualOrder(Loose(s))
    else ([panels[0]] + VisualOrder(Members(s, panels[0]))) + Grouped(s, panels[1..])
  }

  /** Each panel in row order, its own items after it, and what no panel holds at the end. */
  ghost function MangaOrder(s: set<Item>): seq<Item> {
    Grouped(s, VisualOrder(Panels(s)))
  }

  lemma HomeKeysDiffer(s: set<Item>, x: Item, p: Item, q: Item)
    requires DistinctItems(s) && IsHome(s, x, p) && IsHome(s, x, q)
    ensures p == q
  {
    KeyTotal(HomeKey(p), HomeKey(q));
    assert HomeKey(p)[1] == HomeKey(q)[1];
  }

  /** An item some panel holds has a home. */
  lemma HomeExists(s: set<Item>, x: Item)
    requires x in Content(s) && x !in Loose(s)
    ensures exists p :: IsHome(s, x, p)
  {
    var around := set p | p in Panels(s) && Holds(p, x);
    var some :| some in Panels(s) && Holds(some, x);
    assert some in around;
    FirstExists(HomeKey, around);
    var p :| IsFirst(HomeKey, around, p);
    hide Holds, HomeKey, KeyAtMost;
    forall q | q in Panels(s) && Holds(q, x) ensures KeyAtMost(HomeKey(p), HomeKey(q)) {
      assert q in around;
    }
    assert IsHome(s, x, p);
  }

  // ----- the method ----------------------------------------------------------------------------

  function OfKind(items: seq<Item>, panel: bool): (r: seq<Item>)
    ensures forall x :: x in r <==> x in items && (x.det.kind == Panel) == panel
    ensures NoRepeats(items) ==> NoRepeats(r)
  {
    if items == [] then []
    else
      var rest := OfKind(items[1..], panel);
      assert items == [items[0]] + items[1..];
      if (items[0].det.kind == Panel) == panel then [items[0]] + rest else rest
  }

  /** `min(..., key=(area, id))` over the panels around the centre. */
  predicate SmallestAround(panels: seq<Item>, x: Item, p: Item) {
    p in panels && Holds(p, x) && forall q | q in panels && Holds(q, x) :: KeyAtMost(HomeKey(p), HomeKey(q))
  }

  function MembersOf(content: seq<Item>, panels: seq<Item>, taken: set<string>, panel: Item): (r: seq<Item>)
    ensures forall x :: x in r <==> x in content && x.det.id !in taken && SmallestAround(panels, x, panel)
    ensures NoRepeats(content) ==> NoRepeats(r)
  {
    if content == [] then []
    else
      var rest := MembersOf(content[1..], panels, taken, panel);
      assert content == [content[0]] + content[1..];
      if content[0].det.id !in taken && SmallestAround(panels, content[0], panel) then [content[0]] + rest else rest
  }

  function Unassigned(content: seq<Item>, taken: set<string>): (r: seq<Item>)
    ensures forall x :: x in r <==> x in content && x.det.id !in taken
    ensures NoRepeats(content) ==> NoRepeats(r)
  {
    if content == [] then []
    else
      var rest := Unassigned(content[1..], taken);
      assert content == [content[0]] + content[1..];
      if content[0].det.id !in taken then [content[0]] + rest else rest
  }

  function Ids(items: seq<Item>): set<string> {
    set x | x in items :: x.det.id
  }

  /** After some panels: exactly the items at home in one of them are taken. */
  ghost predicate AssignedTo(s: set<Item>, done: seq<Item>, taken: set<string>) {
    forall x | x in Content(s) :: x.det.id in taken <==> exists p :: p in done && IsHome(s, x, p)
  }

  lemma OfKindSplits(items: seq<Item>)
    ensures Elems(OfKind(items, true)) == Panels(Elems(items)) && Elems(OfKind(items, false)) == Content(Elems(items))
  {
  }

  /** `_order_manga_detections`. */
  method OrderMangaDetections(items: seq<Item>) returns (ordered: seq<Item>)
    requires NoRepeats(items) && DistinctItems(Elems(items))
    ensures ordered == MangaOrder(Elems(items))
  {
    var panels := OfKind(items, true);
    var content := OfKind(items, false);
    OfKindSplits(items);
    hide OfKind, MangaOrder, VisualOrder;
    if panels == [] {
      NoPanels(Elems(items));
      ordered := OrderVisualRows(content);
    } else {
      ordered := OrderGroups(Elems(items), panels, content);
    }
  }

  /** Panel after panel, and then the rest. */
  method OrderGroups(ghost s: set<Item>, panels: seq<Item>, content: seq<Item>) returns (ordered: seq<Item>)
    requires DistinctItems(s)
    requires NoRepeats(panels) && Elems(panels) == Panels(s) && NoRepeats(content) && Elems(content) == Content(s)
    ensures ordered == MangaOrder(s)
  {
    PanelsDistinct(s);
    hide *;
    var order := OrderVisualRows(panels);
    VisualOrderHasAll(Panels(s));
    ordered := [];
    var taken: set<string> := {};
    GroupedStart(s, order);
    for i := 0 to |order|
      invariant ordered + Grouped(s, order[i..]) == MangaOrder(s)
      invariant AssignedTo(s, order[..i], taken)
    {
      var group, ids := OrderGroup(s, order, i, panels, content, taken);
      GroupedStep(s, order, i);
      Concat(ordered, [order[i]] + group, Grouped(s, order[i + 1..]));
      Concat(ordered, [order[i]], group);
      ordered := ordered + [order[i]];
      ordered := ordered + group;
      taken := taken + ids;
    }
    var rest := Unassigned(content, taken);
    LooseIs(s, order, content, taken, rest);
    var last := OrderVisualRows(rest);
    ordered := ordered + last;
  }

  /** The items of one panel, and their ids. */
  method OrderGroup(ghost s: set<Item>, order: seq<Item>, i: nat, panels: seq<Item>, content: seq<Item>, taken: set<string>)
    returns (group: seq<Item>, ids: set<string>)
    requires DistinctItems(s) && i < |order| && NoRepeats(order) && Elems(order) == Panels(s)
    requires NoRepeats(content) && Elems(content) == Content(s) && Elems(panels) == Panels(s)
    requires AssignedTo(s, order[..i], taken)
    ensures group == VisualOrder(Members(s, order[i]))
    ensures AssignedTo(s, order[..i + 1], taken + ids)
  {
    hide *;
    var members := MembersOf(content, panels, taken, order[i]);
    MembersAre(s, order, i, content, panels, taken, members);
    AssignedNext(s, order, i, taken, members);
    group := OrderVisualRows(members);
    ids := Ids(members);
  }

  lemma PanelsDistinct(s: set<Item>)
    requires DistinctItems(s)
    ensures DistinctItems(Panels(s))
  {
  }

  lemma GroupedStart(s: set<Item>, order: seq<Item>)
    requires order == VisualOrder(Panels(s))
    ensures [] + Grouped(s, order[0..]) == MangaOrder(s)
    ensures AssignedTo(s, order[..0], {})
  {
    assert order[0..] == order;
  }

  lemma NoPanels(s: set<Item>)
    requires Panels(s) == {}
    ensures MangaOrder(s) == VisualOrder(Content(s))
  {
    assert Loose(s) == Content(s);
    var none: seq<Item> := [];
    assert Elems(none) == {};
    FewItems(none);
  }

  lemma GroupedStep(s: set<Item>, order: seq<Item>, i: nat)
    requires i < |order|
    ensures Grouped(s, order[i..]) == ([order[i]] + VisualOrder(Members(s, order[i]))) + Grouped(s, order[i + 1..])
  {
    assert order[i..][1..] == order[i + 1..];
  }

  lemma {:induction false} MembersAre(s: set<Item>, order: seq<Item>, i: nat, content: seq<Item>, panels: seq<Item>,
                   taken: set<string>, members: seq<Item>)
    requires DistinctItems(s) && i < |order| && NoRepeats(order) && Elems(order) == Panels(s)
    requires NoRepeats(content) && Elems(content) == Content(s) && Elems(panels) == Panels(s)
    requires AssignedTo(s, order[..i], taken)
    requires members == MembersOf(content, panels, taken, order[i])
    ensures NoRepeats(members) && Elems(members) == Members(s, order[i]) && DistinctItems(Elems(members))
  {
    hide Holds, HomeKey, KeyAtMost;
    forall x ensures x in members <==> x in Members(s, order[i]) {
      assert x in content <==> x in Elems(content);
      assert forall p :: p in panels <==> p in Elems(panels);
      assert SmallestAround(panels, x, order[i]) <==> IsHome(s, x, order[i]);
      if x in Members(s, order[i]) && x.det.id in taken {
        var p :| p in order[..i] && IsHome(s, x, p);
        HomeKeysDiffer(s, x, p, order[i]);
        assert false;
      }
    }
  }

  lemma AssignedNext(s: set<Item>, order: seq<Item>, i: nat, taken: set<string>, members: seq<Item>)
    requires DistinctItems(s) && i < |order| && Elems(members) == Members(s, order[i])
    requires AssignedTo(s, order[..i], taken)
    ensures AssignedTo(s, order[..i + 1], taken + Ids(members))
  {
    hide IsHome;
    assert order[..i + 1] == order[..i] + [order[i]];
    forall x | x in Content(s)
      ensures x.det.id in taken + Ids(members) <==> exists p :: p in order[..i + 1] && IsHome(s, x, p)
    {
      assert x.det.id in Ids(members) <==> x in Elems(members) by {
        if x.det.id in Ids(members) {
          var y :| y in members && y.det.id == x.det.id;
          assert y in Elems(members);
        }
      }
    }
  }

  lemma LooseIs(s: set<Item>, order: seq<Item>, content: seq<Item>, taken: set<string>, rest: seq<Item>)
    requires DistinctItems(s) && Elems(order) == Panels(s) && AssignedTo(s, order, taken)
    requires NoRepeats(content) && Elems(content) == Content(s) && rest == Unassigned(content, taken)
    ensures NoRepeats(rest) && Elems(rest) == Loose(s) && DistinctItems(Elems(rest))
  {
    hide Holds, HomeKey, KeyAtMost;
    forall x ensures x in rest <==> x in Loose(s) {
      assert x in content <==> x in Elems(content);
      if x in Content(s) {
        if x !in Loose(s) {
          HomeExists(s, x);
          var p :| IsHome(s, x, p);
          assert p in Elems(order);
        }
      }
    }
  }

  // ----- what the order is -------------------------------------------------------------------

  /** The content grouped under these panels, and the loose items. */
  ghost predicate Under(s: set<Item>, panels: seq<Item>, x: Item) {
    x in panels || x in Loose(s) || exists p :: p in panels && x in Members(s, p)
  }

  lemma {:induction false} GroupedHasAll(s: set<Item>, panels: seq<Item>)
    requires DistinctItems(s) && NoRepeats(panels) && Elems(panels) <= Panels(s)
    ensures NoRepeats(Grouped(s, panels))
    ensures forall x :: x in Grouped(s, panels) <==> Under(s, panels, x)
    decreases |panels|
  {
    if panels == [] {
      VisualOrderHasAll(Loose(s));
      hide VisualOrder;
      forall x ensures x in Grouped(s, panels) <==> Under(s, panels, x) {
        assert x in VisualOrder(Loose(s)) <==> x in Elems(VisualOrder(Loose(s)));
      }
    } else {
      hide VisualOrder, IsHome, Grouped, Members, Loose, Panels;
      var p, group, rest := panels[0], VisualOrder(Members(s, panels[0])), Grouped(s, panels[1..]);
      assert forall i | 0 <= i < |panels| - 1 :: panels[1..][i] == panels[i + 1] && panels[i + 1] in Elems(panels);
      GroupedHasAll(s, panels[1..]);
      GroupHasMembers(s, p);
      UnderMore(s, panels, group, rest);
      GroupIsApart(s, panels, group, rest);
      GroupedStep(s, panels, 0);
      assert panels[0..] == panels;
    }
  }

  lemma GroupHasMembers(s: set<Item>, p: Item)
    requires DistinctItems(s)
    ensures var group := VisualOrder(Members(s, p)); NoRepeats(group) && forall x :: x in group <==> x in Members(s, p)
  {
    assert DistinctItems(Members(s, p));
    VisualOrderHasAll(Members(s, p));
    hide VisualOrder, Members;
    forall x ensures x in VisualOrder(Members(s, p)) <==> x in Members(s, p) {
      assert x in VisualOrder(Members(s, p)) <==> x in Elems(VisualOrder(Members(s, p)));
    }
  }

  lemma UnderMore(s: set<Item>, panels: seq<Item>, group: seq<Item>, rest: seq<Item>)
    requires panels != []
    requires forall x :: x in group <==> x in Members(s, panels[0])
    requires forall x :: x in rest <==> Under(s, panels[1..], x)
    ensures forall x :: x in ([panels[0]] + group) + rest <==> Under(s, panels, x)
  {
    hide Members, Loose;
    assert panels == [panels[0]] + panels[1..];
  }

  /** A panel's group shares nothing with what follows it. */
  lemma GroupIsApart(s: set<Item>, panels: seq<Item>, group: seq<Item>, rest: seq<Item>)
    requires DistinctItems(s) && panels != [] && NoRepeats(panels) && Elems(panels) <= Panels(s)
    requires NoRepeats(group) && NoRepeats(rest)
    requires forall x :: x in group <==> x in Members(s, panels[0])
    requires forall x :: x in rest <==> Under(s, panels[1..], x)
    ensures NoRepeats(([panels[0]] + group) + rest)
  {
    var p := panels[0];
    assert p in Elems(panels);
    forall x, y | x in [p] + group && y in rest ensures x != y {
      if x == y {
        Apart(s, panels, x);
        assert false;
      }
    }
    hide Under, Members, Panels, IsHome;
    assert p !in group by {
    }
    JoinNoRepeats([p], group);
    JoinNoRepeats([p] + group, rest);
  }

  lemma Apart(s: set<Item>, panels: seq<Item>, x: Item)
    requires DistinctItems(s) && panels != [] && NoRepeats(panels) && Elems(panels) <= Panels(s)
    requires x == panels[0] || x in Members(s, panels[0])
    ensures !Under(s, panels[1..], x)
  {
    hide Holds, HomeKey, KeyAtMost;
    assert forall q | q in panels :: q in Elems(panels);
    assert forall q | q in panels[1..] :: q in panels && q != panels[0];
    if x in Members(s, panels[0]) {
      forall q | q in panels[1..] ensures x !in Members(s, q) {
        if x in Members(s, q) {
          HomeKeysDiffer(s, x, q, panels[0]);
        }
      }
    }
  }

  /** Manga order is an arrangement of its items. */
  lemma MangaOrderHasAll(s: set<Item>)
    requires DistinctItems(s)
    ensures NoRepeats(MangaOrder(s)) && Elems(MangaOrder(s)) == s
  {
    PanelsDistinct(s);
    VisualOrderHasAll(Panels(s));
    var order := VisualOrder(Panels(s));
    hide VisualOrder, Grouped;
    GroupedHasAll(s, order);
    forall x ensures x in Grouped(s, order) <==> x in s {
      if x in Content(s) && x !in Loose(s) {
        HomeExists(s, x);
        var p :| IsHome(s, x, p);
        assert p in Elems(order);
        assert x in Members(s, p);
      }
      assert x in Panels(s) ==> x in Elems(order);
      assert x in order ==> x in Elems(order);
    }
  }

  ghost predicate FollowsAt(ordered: seq<Item>, i: int, j: int, p: Item, x: Item) {
    && 0 <= i < j < |ordered| && ordered[i] == p && ordered[j] == x
    && forall k | i < k <= j :: ordered[k].det.kind != Panel
  }

  /** `p` comes before `x`, with no other panel in between. */
  ghost predicate Follows(ordered: seq<Item>, p: Item, x: Item) {
    exists i, j :: FollowsAt(ordered, i, j, p, x)
  }

  lemma FollowsInLonger(before: seq<Item>, ordered: seq<Item>, after: seq<Item>, p: Item, x: Item)
    requires Follows(ordered, p, x)
    ensures Follows((before + ordered) + after, p, x)
  {
    var i, j :| FollowsAt(ordered, i, j, p, x);
    var longer, n := (before + ordered) + after, |before|;
    forall k | n + i <= k <= n + j ensures longer[k] == ordered[k - n] {
    }
    assert FollowsAt(longer, n + i, n + j, p, x);
  }

  lemma {:induction false} GroupedFollows(s: set<Item>, panels: seq<Item>, p: Item, x: Item)
    requires DistinctItems(s) && p in panels && x in Members(s, p)
    ensures Follows(Grouped(s, panels), p, x)
    decreases |panels|
  {
    GroupedStep(s, panels, 0);
    assert panels[0..] == panels;
    var group, rest := VisualOrder(Members(s, panels[0])), Grouped(s, panels[1..]);
    hide Grouped;
    if p == panels[0] {
      HeadsItsGroup(s, p, x);
      var none: seq<Item> := [];
      FollowsInLonger(none, [p] + group, rest, p, x);
      assert none + ([p] + group) == [p] + group;
    } else {
      assert p in panels[1..];
      GroupedFollows(s, panels[1..], p, x);
      var none: seq<Item> := [];
      FollowsInLonger([panels[0]] + group, rest, none, p, x);
      assert (([panels[0]] + group) + rest) + none == ([panels[0]] + group) + rest;
    }
  }

  lemma HeadsItsGroup(s: set<Item>, p: Item, x: Item)
    requires DistinctItems(s) && x in Members(s, p)
    ensures Follows([p] + VisualOrder(Members(s, p)), p, x)
  {
    assert DistinctItems(Members(s, p));
    VisualOrderHasAll(Members(s, p));
    var group := VisualOrder(Members(s, p));
    hide VisualOrder, IsHome;
    assert x in Elems(group);
    assert forall y | y in group :: y.det.kind != Panel by {
      assert forall y | y in group :: y in Elems(group);
    }
    hide *;
    HeadOf(p, group, x);
  }

  lemma HeadOf(p: Item, group: seq<Item>, x: Item)
    requires x in group && forall y | y in group :: y.det.kind != Panel
    ensures Follows([p] + group, p, x)
  {
    var j :| 0 <= j < |group| && group[j] == x;
    var ordered := [p] + group;
    assert forall k | 0 < k <= j + 1 :: ordered[k] == group[k - 1];
    assert FollowsAt(ordered, 0, j + 1, p, x);
  }

  /** Every item some panel holds follows the smallest panel around its centre. */
  lemma ItemsFollowTheirPanel(s: set<Item>, x: Item, p: Item)
    requires DistinctItems(s) && x in Content(s) && IsHome(s, x, p)
    ensures Follows(MangaOrder(s), p, x)
  {
    PanelsDistinct(s);
    VisualOrderHasAll(Panels(s));
    var order := VisualOrder(Panels(s));
    hide VisualOrder;
    assert p in Elems(order);
    GroupedFollows(s, order, p, x);
  }
}
