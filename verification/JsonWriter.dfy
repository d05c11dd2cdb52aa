/**
 The text writeCanonicalJSON in server/cache.go gives a tree: the byte order its keys are
 sorted in, and when it is the text Python writes.
 */
module JsonWriter {
  import opened JsonString
  import opened JsonTree

  // ----- the two runtimes' texts ----------------------------------------------------------

  /** Some key or string in the tree spells out a separator's escape. */
  predicate SpellsWithin(v: Json)
    decreases v
  {
    match v
    case Str(s) => HoldsSpelling(s)
    case Arr(items) => exists i | 0 <= i < |items| :: SpellsWithin(items[i])
    case Obj(members) => exists i | 0 <= i < |members| :: HoldsSpelling(members[i].key) || SpellsWithin(members[i].value)
    case _ => false
  }

  /** Shorter when something is spelled out, the same when nothing is. */
  ghost predicate Shrinks(go: string, python: string, spelled: bool) {
    if spelled then |go| < |python| else go == python
  }

  lemma LiteralShrinks(s: string)
    ensures Shrinks(Literal(Go, s), Literal(Python, s), HoldsSpelling(s))
  {
    hide PutBack, EscapeAll, Restored, HoldsSpelling;
    NothingRestored(s);
    PutBackOne(s, '8');
    PutBackOne(s, '9');
    RestoredAgainstEscaped(s);
  }

  lemma {:induction false} TextShrinks(v: Json)
    ensures Shrinks(Print(Go, v), Print(Python, v), SpellsWithin(v))
    decreases v
  {
    match v {
      case Str(s) => LiteralShrinks(s);
      case Arr(items) => ItemsShrink(items);
      case Obj(members) => MembersShrink(members);
      case _ =>
    }
  }

  lemma {:induction false} ItemsShrink(items: seq<Json>)
    ensures Shrinks(JoinItems(PrintItems(Go, items)), JoinItems(PrintItems(Python, items)),
                    exists i | 0 <= i < |items| :: SpellsWithin(items[i]))
    decreases items
  {
    hide Print, SpellsWithin;
    if items != [] {
      TextShrinks(items[0]);
      ItemsShrink(items[1..]);
      SomeOrFirst(items);
      if |items| == 1 {
        assert PrintItems(Go, items) == [Print(Go, items[0])];
        assert PrintItems(Python, items) == [Print(Python, items[0])];
      }
    }
  }

  lemma SomeOrFirst(items: seq<Json>)
    requires items != []
    ensures (exists i | 0 <= i < |items| :: SpellsWithin(items[i]))
       <==> SpellsWithin(items[0]) || exists i | 0 <= i < |items| - 1 :: SpellsWithin(items[1..][i])
  {
    hide SpellsWithin;
    forall i | 0 <= i < |items| - 1 ensures items[1..][i] == items[i + 1] {
    }
    if i :| 0 < i < |items| && SpellsWithin(items[i]) {
      assert items[1..][i - 1] == items[i];
    }
  }

  /** The characters of the fields, without the commas. */
  function Weight(rt: Runtime, fields: seq<Field<string>>): nat {
    if fields == [] then 0 else |FieldText(rt, fields[0])| + Weight(rt, fields[1..])
  }

  lemma {:induction false} JoinWeighs(rt: Runtime, fields: seq<Field<string>>)
    ensures |JoinFields(rt, fields)| == Weight(rt, fields) + (if fields == [] then 0 else |fields| - 1)
  {
    hide FieldText;
    if |fields| > 1 {
      JoinWeighs(rt, fields[1..]);
    } else if |fields| == 1 {
      assert fields[1..] == [];
    }
  }

  lemma {:induction false} InsertWeighs(rt: Runtime, f: Field<string>, s: seq<Field<string>>)
    ensures Weight(rt, Insert(f, s)) == |FieldText(rt, f)| + Weight(rt, s)
  {
    hide FieldText;
    if s == [] {
    } else if AtMost(f.key, s[0].key) {
      assert ([f] + s)[1..] == s;
    } else {
      InsertWeighs(rt, f, s[1..]);
      assert ([s[0]] + Insert(f, s[1..]))[1..] == Insert(f, s[1..]);
    }
  }

  lemma {:induction false} SortedWeighs(rt: Runtime, s: seq<Field<string>>)
    ensures Weight(rt, Sorted(s)) == Weight(rt, s)
  {
    hide FieldText;
    if s != [] {
      SortedWeighs(rt, s[1..]);
      InsertWeighs(rt, s[0], Sorted(s[1..]));
    }
  }

  predicate SpellsInMembers(members: seq<Field<Json>>) {
    exists i | 0 <= i < |members| :: HoldsSpelling(members[i].key) || SpellsWithin(members[i].value)
  }

  lemma {:induction false} MembersWeigh(members: seq<Field<Json>>)
    ensures var go, python := PrintMembers(Go, members), PrintMembers(Python, members);
      if SpellsInMembers(members) then Weight(Go, go) < Weight(Python, python)
      else go == python && Weight(Go, go) == Weight(Python, python)
           && forall i | 0 <= i < |go| :: !HoldsSpelling(go[i].key)
    decreases members, 0
  {
    hide Print, SpellsWithin, HoldsSpelling, Literal;
    if members != [] {
      TextShrinks(members[0].value);
      LiteralShrinks(members[0].key);
      MembersWeigh(members[1..]);
      var m := members[0];
      assert SpellsInMembers(members) <==> HoldsSpelling(m.key) || SpellsWithin(m.value) || SpellsInMembers(members[1..]) by {
        if i :| 0 < i < |members| && (HoldsSpelling(members[i].key) || SpellsWithin(members[i].value)) {
          assert members[1..][i - 1] == members[i];
        }
        if i :| 0 <= i < |members| - 1 && (HoldsSpelling(members[1..][i].key) || SpellsWithin(members[1..][i].value)) {
          assert members[i + 1] == members[1..][i];
        }
      }
      assert PrintMembers(Go, members)[1..] == PrintMembers(Go, members[1..]);
      assert PrintMembers(Python, members)[1..] == PrintMembers(Python, members[1..]);
    }
  }

  lemma {:induction false} PlainKeysJoin(fields: seq<Field<string>>)
    requires forall i | 0 <= i < |fields| :: !HoldsSpelling(fields[i].key)
    ensures JoinFields(Go, fields) == JoinFields(Python, fields)
  {
    hide Literal, HoldsSpelling;
    if fields != [] {
      LiteralShrinks(fields[0].key);
      PlainKeysJoin(fields[1..]);
    }
  }

  lemma MembersShrink(members: seq<Field<Json>>)
    ensures Shrinks(JoinFields(Go, Sorted(PrintMembers(Go, members))),
                    JoinFields(Python, Sorted(PrintMembers(Python, members))), SpellsInMembers(members))
    decreases members, 1
  {
    MembersWeigh(members);
    hide Weight, JoinFields, SpellsInMembers, Sorted, HoldsSpelling;
    var go, python := PrintMembers(Go, members), PrintMembers(Python, members);
    SortedWeighs(Go, go);
    SortedWeighs(Python, python);
    JoinWeighs(Go, Sorted(go));
    JoinWeighs(Python, Sorted(python));
    if !SpellsInMembers(members) {
      var fs := Sorted(go);
      forall i | 0 <= i < |fs| ensures !HoldsSpelling(fs[i].key) {
        assert fs[i] in go;
      }
      PlainKeysJoin(fs);
    }
  }

  /** The runtimes write the same bytes for exactly the trees in which nothing is spelled out. */
  lemma RuntimesAgree(v: Json)
    ensures Print(Go, v) == Print(Python, v) <==> !SpellsWithin(v)
  {
    hide Print, SpellsWithin;
    TextShrinks(v);
  }

  // ----- byte order and code point order ------------------------------------------------------

  /** How many bytes UTF-8 takes for a character. */
  function Width(n: nat): nat {
    if n < 0x80 then 1 else if n < 0x800 then 2 else if n < 0x10000 then 3 else 4
  }

  /** UTF-8 (RFC 3629, section 3). */
  function Bytes(c: char): (r: seq<nat>)
    ensures |r| == Width(c as int)
  {
    var n := c as int;
    var n6 := n / 0x40;
    var n12 := n6 / 0x40;
    var n18 := n12 / 0x40;
    if n < 0x80 then [n]
    else if n < 0x800 then [0xC0 + n6, 0x80 + n % 0x40]
    else if n < 0x10000 then [0xE0 + n12, 0x80 + n6 % 0x40, 0x80 + n % 0x40]
    else [0xF0 + n18, 0x80 + n12 % 0x40, 0x80 + n6 % 0x40, 0x80 + n % 0x40]
  }

  function Encoded(s: string): seq<nat> {
    if s == "" then [] else Bytes(s[0]) + Encoded(s[1..])
  }

  /** How Go compares strings. */
  predicate BytesAtMost(x: seq<nat>, y: seq<nat>) {
    x == [] || (y != [] && (x[0] < y[0] || (x[0] == y[0] && BytesAtMost(x[1..], y[1..]))))
  }

  /** The first difference decides. */
  lemma {:induction false} FirstDifference(x: seq<nat>, y: seq<nat>, k: nat)
    requires k < |x| && k < |y| && x[..k] == y[..k] && x[k] < y[k]
    ensures BytesAtMost(x, y) && !BytesAtMost(y, x)
  {
    if k > 0 {
      assert x[0] == x[..k][0] && y[0] == y[..k][0];
      assert x[1..][..k - 1] == x[..k][1..] && y[1..][..k - 1] == y[..k][1..];
      FirstDifference(x[1..], y[1..], k - 1);
    }
  }

  lemma BytesDiffer(c: char, d: char) returns (k: nat)
    requires c < d
    ensures k < |Bytes(c)| && k < |Bytes(d)| && Bytes(c)[..k] == Bytes(d)[..k] && Bytes(c)[k] < Bytes(d)[k]
  {
    var n, m := c as int, d as int;
    if Width(n) != Width(m) {
      hide Bytes;
      k := 0;
    } else if Width(n) == 1 {
      k := 0;
    } else {
      k := if n / 0x40 == m / 0x40 then Width(n) - 1
           else if n / 0x40 / 0x40 == m / 0x40 / 0x40 then Width(n) - 2
           else if n / 0x40 / 0x40 / 0x40 == m / 0x40 / 0x40 / 0x40 then Width(n) - 3
           else 0;
    }
  }

  lemma CharsDecide(c: char, u: seq<nat>, d: char, v: seq<nat>)
    requires c < d
    ensures BytesAtMost(Bytes(c) + u, Bytes(d) + v) && !BytesAtMost(Bytes(d) + v, Bytes(c) + u)
  {
    var k := BytesDiffer(c, d);
    hide Bytes;
    assert (Bytes(c) + u)[..k] == Bytes(c)[..k] && (Bytes(d) + v)[..k] == Bytes(d)[..k];
    FirstDifference(Bytes(c) + u, Bytes(d) + v, k);
  }

  lemma {:induction false} CommonFront(x: seq<nat>, u: seq<nat>, v: seq<nat>)
    ensures BytesAtMost(x + u, x + v) <==> BytesAtMost(u, v)
  {
    if x == [] {
      assert x + u == u && x + v == v;
    } else {
      assert (x + u)[1..] == x[1..] + u && (x + v)[1..] == x[1..] + v;
      CommonFront(x[1..], u, v);
    }
  }

  /** Sorting the UTF-8 bytes and sorting the code points is the same. */
  lemma {:induction false} ByteOrderIsCodePointOrder(a: string, b: string)
    ensures BytesAtMost(Encoded(a), Encoded(b)) <==> AtMost(a, b)
  {
    hide Bytes;
    if a != "" && b != "" {
      if a[0] == b[0] {
        CommonFront(Bytes(a[0]), Encoded(a[1..]), Encoded(b[1..]));
        ByteOrderIsCodePointOrder(a[1..], b[1..]);
      } else if a[0] < b[0] {
        CharsDecide(a[0], Encoded(a[1..]), b[0], Encoded(b[1..]));
      } else {
        CharsDecide(b[0], Encoded(b[1..]), a[0], Encoded(a[1..]));
      }
    }
  }
}
