/**
 Python's `sorted(..., key=...)`: keys are tuples of numbers and strings, compared part
 by part. A set whose elements have different keys has one ordering, which every
 arrangement of it sorts to.
 */
module Sorting {
  import opened JsonTree

  datatype Part = N(n: real) | T(t: string)

  type Key = seq<Part>

  predicate PartAtMost(a: Part, b: Part) {
    match (a, b)
    case (N(x), N(y)) => x <= y
    case (T(x), T(y)) => AtMost(x, y)
    case (N(_), T(_)) => true
    case (T(_), N(_)) => false
  }

  predicate KeyAtMost(a: Key, b: Key) {
    a == [] || (b != [] && if a[0] == b[0] then KeyAtMost(a[1..], b[1..]) else PartAtMost(a[0], b[0]))
  }

  lemma PartTotal(a: Part, b: Part)
    ensures PartAtMost(a, b) || PartAtMost(b, a)
    ensures PartAtMost(a, b) && PartAtMost(b, a) ==> a == b
  {
    if a.T? && b.T? {
      AtMostTotal(a.t, b.t);
    }
  }

  lemma PartTransitive(a: Part, b: Part, c: Part)
    requires PartAtMost(a, b) && PartAtMost(b, c)
    ensures PartAtMost(a, c)
  {
    if a.T? && b.T? && c.T? {
      AtMostTransitive(a.t, b.t, c.t);
    }
  }

  lemma {:induction false} KeyTotal(a: Key, b: Key)
    ensures KeyAtMost(a, b) || KeyAtMost(b, a)
    ensures KeyAtMost(a, b) && KeyAtMost(b, a) ==> a == b
  {
    if a != [] && b != [] {
      PartTotal(a[0], b[0]);
      if a[0] == b[0] {
        KeyTotal(a[1..], b[1..]);
        assert a == [a[0]] + a[1..] && b == [b[0]] + b[1..];
      }
    }
  }

  lemma {:induction false} KeyTransitive(a: Key, b: Key, c: Key)
    requires KeyAtMost(a, b) && KeyAtMost(b, c)
    ensures KeyAtMost(a, c)
  {
    if a != [] {
      PartTotal(a[0], b[0]);
      PartTotal(b[0], c[0]);
      PartTotal(a[0], c[0]);
      if a[0] == b[0] && b[0] == c[0] {
        KeyTransitive(a[1..], b[1..], c[1..]);
      } else {
        if a[0] != b[0] && b[0] != c[0] {
          PartTransitive(a[0], b[0], c[0]);
        }
      }
    }
  }

  // ----- sorting a list ------------------------------------------------------------------

  function Place<X(!new)>(key: X -> Key, x: X, s: seq<X>): (r: seq<X>)
    ensures multiset(r) == multiset(s) + multiset{x}
  {
    if s == [] then [x]
    else if KeyAtMost(key(x), key(s[0])) then [x] + s
    else
      assert s == [s[0]] + s[1..];
      [s[0]] + Place(key, x, s[1..])
  }

  function Sort<X(!new)>(key: X -> Key, s: seq<X>): (r: seq<X>)
    ensures multiset(r) == multiset(s)
  {
    if s == [] then []
    else
      assert s == [s[0]] + s[1..];
      Place(key, s[0], Sort(key, s[1..]))
  }

  predicate InOrder<X>(key: X -> Key, s: seq<X>) {
    forall i, j | 0 <= i < j < |s| :: KeyAtMost(key(s[i]), key(s[j]))
  }

  lemma {:induction false} PlaceInOrder<X(!new)>(key: X -> Key, x: X, s: seq<X>)
    requires InOrder(key, s)
    ensures InOrder(key, Place(key, x, s))
  {
    if s != [] {
      KeyTotal(key(x), key(s[0]));
      if KeyAtMost(key(x), key(s[0])) {
        forall i | 0 <= i < |s| ensures KeyAtMost(key(x), key(s[i])) {
          if i > 0 {
            KeyTransitive(key(x), key(s[0]), key(s[i]));
          }
        }
      } else {
        PlaceInOrder(key, x, s[1..]);
        var r := Place(key, x, s[1..]);
        forall i | 0 <= i < |r| ensures KeyAtMost(key(s[0]), key(r[i])) {
          assert r[i] in multiset(r);
          assert r[i] == x || r[i] in s[1..];
        }
      }
    }
  }

  lemma {:induction false} SortInOrder<X(!new)>(key: X -> Key, s: seq<X>)
    ensures InOrder(key, Sort(key, s))
  {
    if s != [] {
      SortInOrder(key, s[1..]);
      PlaceInOrder(key, s[0], Sort(key, s[1..]));
    }
  }

  /** Different elements have different keys. */
  ghost predicate Injective<X(!new)>(key: X -> Key, s: set<X>) {
    forall x, y | x in s && y in s && key(x) == key(y) :: x == y
  }

  function Elems<X>(s: seq<X>): set<X> {
    set x | x in s
  }

  predicate NoRepeats<X(==)>(s: seq<X>) {
    forall i, j | 0 <= i < j < |s| :: s[i] != s[j]
  }

  /** Two ordered arrangements of the same elements are the same. */
  lemma {:induction false} InOrderIsUnique<X(!new)>(key: X -> Key, s: seq<X>, t: seq<X>)
    requires InOrder(key, s) && InOrder(key, t) && multiset(s) == multiset(t)
    requires forall x, y | x in s && y in s && key(x) == key(y) :: x == y
    ensures s == t
    decreases |s|
  {
    assert |s| == |multiset(s)| == |multiset(t)| == |t|;
    if s != [] {
      FirstsAgree(key, s, t);
      TailMultiset(s);
      TailMultiset(t);
      assert s == [s[0]] + s[1..] && t == [t[0]] + t[1..];
      InOrderIsUnique(key, s[1..], t[1..]);
    }
  }

  lemma TailMultiset<X(!new)>(s: seq<X>)
    requires s != []
    ensures multiset(s[1..]) == multiset(s) - multiset{s[0]}
  {
    assert s == [s[0]] + s[1..];
  }

  lemma FirstsAgree<X(!new)>(key: X -> Key, s: seq<X>, t: seq<X>)
    requires InOrder(key, s) && InOrder(key, t) && multiset(s) == multiset(t) && s != [] && t != []
    requires forall x, y | x in s && y in s && key(x) == key(y) :: x == y
    ensures s[0] == t[0]
  {
    assert s[0] in multiset(t) && t[0] in multiset(s);
    assert s[0] in t && t[0] in s;
    InOrderFirst(key, s, t[0]);
    InOrderFirst(key, t, s[0]);
    KeyTotal(key(s[0]), key(t[0]));
  }

  lemma InOrderFirst<X(!new)>(key: X -> Key, s: seq<X>, x: X)
    requires InOrder(key, s) && x in s
    ensures KeyAtMost(key(s[0]), key(x))
  {
    KeyTotal(key(x), key(x));
  }

  /** Sorting forgets the order of the list. */
  lemma SortForgetsOrder<X(!new)>(key: X -> Key, s: seq<X>, t: seq<X>)
    requires multiset(s) == multiset(t)
    requires forall x, y | x in s && y in s && key(x) == key(y) :: x == y
    ensures Sort(key, s) == Sort(key, t)
  {
    SortInOrder(key, s);
    SortInOrder(key, t);
    forall x | x in Sort(key, s) ensures x in s {
      assert x in multiset(Sort(key, s));
    }
    InOrderIsUnique(key, Sort(key, s), Sort(key, t));
  }

  lemma MultisetMembers<X(!new)>(s: seq<X>, t: seq<X>)
    requires multiset(s) == multiset(t)
    ensures forall x :: x in s <==> x in t
  {
    forall x ensures x in s <==> x in t {
      assert x in multiset(s) <==> x in multiset(t);
    }
  }

  // ----- the ordering of a set --------------------------------------------------------------

  ghost predicate IsFirst<X(!new)>(key: X -> Key, s: set<X>, x: X) {
    x in s && forall y | y in s :: KeyAtMost(key(x), key(y))
  }

  lemma {:induction false} FirstExists<X(!new)>(key: X -> Key, s: set<X>)
    requires s != {}
    ensures exists x :: IsFirst(key, s, x)
    decreases |s|
  {
    var x :| x in s;
    KeyTotal(key(x), key(x));
    if s == {x} {
      assert IsFirst(key, s, x);
    } else {
      assert s - {x} != {};
      FirstExists(key, s - {x});
      var y :| IsFirst(key, s - {x}, y);
      KeyTotal(key(x), key(y));
      if KeyAtMost(key(y), key(x)) {
        assert IsFirst(key, s, y);
      } else {
        forall z | z in s ensures KeyAtMost(key(x), key(z)) {
          if z != x {
            KeyTransitive(key(x), key(y), key(z));
          }
        }
        assert IsFirst(key, s, x);
      }
    }
  }

  /** The elements of a set, smallest key first. */
  ghost function Ordering<X(!new)>(key: X -> Key, s: set<X>): (r: seq<X>)
    ensures |r| == |s| && NoRepeats(r) && Elems(r) == s
    decreases |s|
  {
    if s == {} then []
    else
      FirstExists(key, s);
      var x :| IsFirst(key, s, x);
      Front(x, Ordering(key, s - {x}));
      [x] + Ordering(key, s - {x})
  }

  lemma Front<X(!new)>(x: X, rest: seq<X>)
    requires NoRepeats(rest) && x !in Elems(rest)
    ensures NoRepeats([x] + rest) && Elems([x] + rest) == {x} + Elems(rest)
  {
    assert forall i | 0 <= i < |rest| :: rest[i] in Elems(rest);
  }

  lemma {:induction false} OrderingInOrder<X(!new)>(key: X -> Key, s: set<X>)
    ensures InOrder(key, Ordering(key, s))
    decreases |s|
  {
    if s != {} {
      var x := Ordering(key, s)[0];
      assert IsFirst(key, s, x) && Ordering(key, s) == [x] + Ordering(key, s - {x});
      OrderingInOrder(key, s - {x});
      hide Ordering;
    }
  }

  lemma {:induction false} NoRepeatsMultiset<X(!new)>(s: seq<X>)
    requires NoRepeats(s)
    ensures multiset(s) == multiset(Elems(s))
  {
    if s != [] {
      NoRepeatsMultiset(s[1..]);
      assert s == [s[0]] + s[1..];
      assert s[0] !in s[1..];
      assert Elems(s) == {s[0]} + Elems(s[1..]);
    }
  }

  /** An ordered arrangement of a set is its ordering. */
  lemma OrderingIsUnique<X(!new)>(key: X -> Key, s: seq<X>)
    requires NoRepeats(s) && InOrder(key, s) && Injective(key, Elems(s))
    ensures s == Ordering(key, Elems(s))
  {
    OrderingInOrder(key, Elems(s));
    NoRepeatsMultiset(s);
    NoRepeatsMultiset(Ordering(key, Elems(s)));
    hide Ordering;
    assert forall x | x in s :: x in Elems(s);
    InOrderIsUnique(key, s, Ordering(key, Elems(s)));
  }

  /** Sorting any arrangement gives the ordering. */
  lemma SortIsOrdering<X(!new)>(key: X -> Key, s: seq<X>)
    requires NoRepeats(s) && Injective(key, Elems(s))
    ensures Sort(key, s) == Ordering(key, Elems(s))
  {
    var r := Sort(key, s);
    SortInOrder(key, s);
    SameMultiset(s, r);
    OrderingIsUnique(key, r);
  }

  lemma SameMultiset<X(!new)>(s: seq<X>, r: seq<X>)
    requires multiset(s) == multiset(r) && NoRepeats(s)
    ensures NoRepeats(r) && Elems(r) == Elems(s)
  {
    forall x ensures x in r <==> x in s {
      assert x in multiset(r) <==> x in multiset(s);
    }
    NoRepeatsMultiset(s);
    CountsOnce(r);
  }

  lemma CountsOnce<X(!new)>(r: seq<X>)
    requires multiset(r) == multiset(Elems(r))
    ensures NoRepeats(r)
  {
    forall i, j | 0 <= i < j < |r| && r[i] == r[j] ensures multiset(r)[r[i]] >= 2 {
      CountsTwice(r, i, j);
    }
    assert forall x | x in r :: multiset(Elems(r))[x] == 1;
  }

  lemma CountsTwice<X(!new)>(r: seq<X>, i: nat, j: nat)
    requires i < j < |r| && r[i] == r[j]
    ensures multiset(r)[r[i]] >= 2
  {
    assert r == r[..j] + r[j..];
    assert r[..j][i] == r[i] && r[j..][0] == r[i];
    assert r[i] in multiset(r[..j]) && r[i] in multiset(r[j..]);
  }
}
