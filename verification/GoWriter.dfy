/**
 The imperative side of writeCanonicalJSON in server/cache.go: a buffer that nested
 values append to, comma by comma, with an object's keys collected and sorted first.
 */
module GoWriter {
  import opened Basics
  import opened Numeral
  import opened NumberForm
  import opened NumberRender
  import opened JsonString
  import opened JsonTree
  import opened GoNumber
  import opened Rounding

  /** What is still to be written from item `k` on. */
  function ItemsFrom(texts: seq<string>, k: nat): string
    requires k <= |texts|
  {
    if k == |texts| then "" else (if k == 0 then "" else ",") + JoinItems(texts[k..])
  }

  function FieldsFrom(fields: seq<Field<string>>, k: nat): (r: string)
    requires k <= |fields|
    ensures k == |fields| ==> r == ""
  {
    if k == |fields| then "" else (if k == 0 then "" else ",") + JoinFields(Go, fields[k..])
  }

  lemma FieldsStep(fields: seq<Field<string>>, k: nat)
    requires k < |fields|
    ensures FieldsFrom(fields, k) == (if k == 0 then "" else ",") + (FieldText(Go, fields[k]) + FieldsFrom(fields, k + 1))
  {
    hide FieldText;
    assert fields[k..][1..] == fields[k + 1..];
  }

  /** The keys alone. */
  function Keys<V(!new)>(fields: seq<Field<V>>): (r: seq<Field<()>>)
    ensures |r| == |fields| && forall i | 0 <= i < |r| :: r[i].key == fields[i].key
  {
    seq(|fields|, i requires 0 <= i < |fields| => Field(fields[i].key, ()))
  }

  lemma KeysCons<V(!new)>(fields: seq<Field<V>>)
    requires fields != []
    ensures Keys(fields) == [Field(fields[0].key, ())] + Keys(fields[1..])
  {
  }

  lemma {:induction false} KeysInserted(f: Field<string>, s: seq<Field<string>>)
    ensures Keys(Insert(f, s)) == Insert(Field(f.key, ()), Keys(s))
    decreases |s|
  {
    hide Keys;
    KeysCons(Insert(f, s));
    if s == [] {
      assert Keys(s) == [];
    } else {
      KeysCons(s);
      if AtMost(f.key, s[0].key) {
        assert ([f] + s)[1..] == s;
      } else {
        KeysInserted(f, s[1..]);
        assert ([s[0]] + Insert(f, s[1..]))[1..] == Insert(f, s[1..]);
        assert Keys(s)[1..] == Keys(s[1..]);
      }
    }
  }

  /** Sorting the keys and taking the keys of the sorted fields is the same. */
  lemma {:induction false} KeysSorted(s: seq<Field<string>>)
    ensures Keys(Sorted(s)) == Sorted(Keys(s))
    decreases |s|
  {
    if s != [] {
      KeysSorted(s[1..]);
      KeysInserted(s[0], Sorted(s[1..]));
      KeysCons(s);
      hide Keys;
      assert Keys(s)[1..] == Keys(s[1..]);
    }
  }

  /** The value of a key in a Go map. */
  function Lookup(members: seq<Field<Json>>, key: string): (i: nat)
    requires exists m :: m in members && m.key == key
    ensures i < |members| && members[i].key == key
  {
    if members[0].key == key then 0
    else
      assert members == [members[0]] + members[1..];
      1 + Lookup(members[1..], key)
  }

  lemma {:induction false} PrintMembersAt(members: seq<Field<Json>>, i: nat)
    requires i < |members|
    ensures PrintMembers(Go, members)[i] == Field(members[i].key, Print(Go, members[i].value))
    decreases |members|
  {
    hide Print;
    if i > 0 {
      PrintMembersAt(members[1..], i - 1);
    }
  }

  lemma {:induction false} PrintItemsAt(items: seq<Json>, i: nat)
    requires i < |items|
    ensures PrintItems(Go, items)[i] == Print(Go, items[i])
    decreases |items|
  {
    hide Print;
    if i > 0 {
      PrintItemsAt(items[1..], i - 1);
    }
  }

  /** A sorted field is the printed member with its key. */
  lemma SortedFieldIs(members: seq<Field<Json>>, k: nat, key: string)
    requires Distinct(members) && k < |members|
    requires Sorted(PrintMembers(Go, members))[k].key == key
    ensures exists m :: m in members && m.key == key
    ensures Sorted(PrintMembers(Go, members))[k].value == Print(Go, members[Lookup(members, key)].value)
  {
    hide Sorted, Print, PrintMembers;
    var fs := PrintMembers(Go, members);
    var f := Sorted(fs)[k];
    assert f in Sorted(fs);
    assert f in fs;
    var i :| 0 <= i < |fs| && fs[i] == f;
    PrintMembersAt(members, i);
    assert members[i] in members;
    assert Lookup(members, key) == i;
  }

  /** The same where the values have been rounded and the keys have not. */
  lemma RoundedFieldIs(members: seq<Field<Json>>, left: seq<Field<Json>>, k: nat, key: string)
    requires Distinct(members) && k < |left| == |members|
    requires forall i | 0 <= i < |left| :: left[i].key == members[i].key
    requires Sorted(PrintMembers(Go, left))[k].key == key
    ensures exists m :: m in members && m.key == key
    ensures Sorted(PrintMembers(Go, left))[k] == Field(key, Print(Go, left[Lookup(members, key)].value))
  {
    hide Sorted, Print, PrintMembers;
    SortedFieldIs(left, k, key);
    var i := Lookup(left, key);
    assert members[i] in members;
    assert Lookup(members, key) == i;
  }

  lemma AllItems(texts: seq<string>)
    ensures ItemsFrom(texts, 0) == JoinItems(texts)
  {
    assert texts[0..] == texts;
  }

  lemma PrintArr(items: seq<Json>)
    ensures Print(Go, Arr(items)) == "[" + (ItemsFrom(PrintItems(Go, items), 0) + "]")
  {
    AllItems(PrintItems(Go, items));
    hide PrintItems, JoinItems, ItemsFrom;
  }

  lemma AllFields(fields: seq<Field<string>>)
    ensures FieldsFrom(fields, 0) == JoinFields(Go, fields)
  {
    assert fields[0..] == fields;
  }

  lemma PrintObj(members: seq<Field<Json>>)
    ensures Print(Go, Obj(members)) == "{" + (FieldsFrom(Sorted(PrintMembers(Go, members)), 0) + "}")
  {
    AllFields(Sorted(PrintMembers(Go, members)));
    hide PrintMembers, JoinFields, FieldsFrom, Sorted;
  }

  lemma KeysOfPrinted(members: seq<Field<Json>>)
    ensures Keys(PrintMembers(Go, members)) == Keys(members)
  {
    hide Print, PrintMembers;
    forall i | 0 <= i < |members| ensures PrintMembers(Go, members)[i].key == members[i].key {
      PrintMembersAt(members, i);
    }
  }

  /** The loop over the keys has come past this one. */
  predicate Visited(keys: seq<Field<()>>, n: nat, key: string): (b: bool)
    requires n <= |keys|
    ensures n == 0 ==> !b
  {
    exists k | 0 <= k < n :: keys[k].key == key
  }

  lemma VisitedNext(keys: seq<Field<()>>, n: nat, key: string)
    requires n < |keys|
    ensures Visited(keys, n + 1, key) <==> Visited(keys, n, key) || keys[n].key == key
  {
  }

  /** Going through the sorted keys goes through every member. */
  lemma {:induction false} EveryMemberIsVisited(members: seq<Field<Json>>, i: nat)
    requires i < |members|
    ensures Visited(Keys(Sorted(PrintMembers(Go, members))), |members|, members[i].key)
  {
    hide Sorted, Print, PrintMembers;
    var fs := PrintMembers(Go, members);
    PrintMembersAt(members, i);
    assert fs[i] in fs;
    assert fs[i] in Sorted(fs);
    var k :| 0 <= k < |fs| && Sorted(fs)[k] == fs[i];
    assert Keys(Sorted(fs))[k].key == members[i].key;
  }

  /** This is the rounded and printed member of this key. */
  predicate IsEntry(f: Binary64, members: seq<Field<Json>>, key: string, field: Field<string>) {
    && (exists m :: m in members && m.key == key)
    && field == Field(key, Print(Go, Rounded(f, members[Lookup(members, key)].value)))
  }

  lemma SortedKeys(members: seq<Field<Json>>, left: seq<Field<Json>>)
    requires |left| == |members| && forall i | 0 <= i < |left| :: left[i].key == members[i].key
    ensures Sorted(Keys(members)) == Keys(Sorted(PrintMembers(Go, left)))
  {
    hide Sorted, Print, PrintMembers;
    assert Keys(left) == Keys(members);
    KeysOfPrinted(left);
    KeysSorted(PrintMembers(Go, left));
  }

  /** The values of the keys the loop has come past are all accepted. */
  predicate AcceptedSoFar(f: Binary64, members: seq<Field<Json>>, keys: seq<Field<()>>, n: nat)
    requires n <= |keys|
  {
    forall i | 0 <= i < |members| && Visited(keys, n, members[i].key) :: Accepted(f, members[i].value)
  }

  lemma NoneVisited(f: Binary64, members: seq<Field<Json>>, keys: seq<Field<()>>)
    ensures AcceptedSoFar(f, members, keys, 0)
  {
    hide Accepted;
  }

  lemma AcceptedNext(f: Binary64, members: seq<Field<Json>>, keys: seq<Field<()>>, n: nat, i: nat)
    requires n < |keys| && i < |members| && members[i].key == keys[n].key && Distinct(members)
    requires AcceptedSoFar(f, members, keys, n) && Accepted(f, members[i].value)
    ensures AcceptedSoFar(f, members, keys, n + 1)
  {
    hide Accepted, Visited;
    forall j | 0 <= j < |members| && Visited(keys, n + 1, members[j].key) ensures Accepted(f, members[j].value) {
      VisitedNext(keys, n, members[j].key);
      assert members[j].key == members[i].key ==> j == i;
    }
  }

  lemma AllAccepted(f: Binary64, members: seq<Field<Json>>, left: seq<Field<Json>>)
    requires |left| == |members| && forall i | 0 <= i < |left| :: left[i].key == members[i].key
    requires var keys := Keys(Sorted(PrintMembers(Go, left))); AcceptedSoFar(f, members, keys, |keys|)
    ensures Accepted(f, Obj(members))
  {
    hide Sorted, Print, PrintMembers, Visited;
    forall i | 0 <= i < |members| ensures Accepted(f, members[i].value) {
      EveryMemberIsVisited(left, i);
    }
  }

  lemma RefusedAt(f: Binary64, members: seq<Field<Json>>, i: nat)
    requires i < |members| && !Accepted(f, members[i].value)
    ensures !Accepted(f, Obj(members))
  {
  }

  class Buffer {
    var text: string

    /** ParseFloat, then FormatFloat. */
    const round: Binary64

    constructor (round: Binary64)
      requires Moderate(round)
      ensures text == "" && this.round == round
    {
      text := "";
      this.round := round;
    }

    ghost predicate Writable(v: Json)
    {
      Moderate(round) && WellFormed(v) && Storable(v)
    }

    method WriteString(s: string)
      modifies this
      ensures text == old(text) + s
    {
      text := text + s;
    }

    /** A value is appended whole, its numbers rounded, or a number out of range is reported. */
    method WriteCanonicalJSON(v: Json) returns (ok: bool)
      requires Writable(v)
      modifies this
      ensures ok == Accepted(round, v)
      ensures ok ==> text == old(text) + Print(Go, Rounded(round, v))
      decreases v, 1
    {
      ok := true;
      if v.Null? {
        WriteString("null");
      } else if v.Bool? {
        if v.b {
          WriteString("true");
        } else {
          WriteString("false");
        }
      } else if v.Str? {
        WriteString(GoQuoted(v.s));
      } else if v.Num? {
        ok := WriteNumber(v.lexeme);
      } else if v.Arr? {
        ok := WriteArray(v.items);
      } else {
        ok := WriteObject(v.members);
      }
    }

    method WriteNumber(l: ValidLexeme) returns (ok: bool)
      requires Moderate(round) && |l.whole| <= MAX_INT
      modifies this
      ensures ok == NumberAccepted(round, l)
      ensures ok ==> text == old(text) + Render(NormOf(RoundNumber(round, l)))
    {
      var raw := l;
      if !Whole(l) {
        var parsed := round(l);
        if parsed == None {
          return false;
        }
        raw := parsed.value;
      }
      RoundedInRange(round, l);
      hide GoNormalized, Render, NormOf, Spell;
      var normalized := NormalizeJSONNumber(Spell(raw));
      WriteString(normalized.value);
      return true;
    }

    method WriteArray(items: seq<Json>) returns (ok: bool)
      requires forall i | 0 <= i < |items| :: Writable(items[i])
      modifies this
      ensures ok == Accepted(round, Arr(items))
      ensures ok ==> text == old(text) + Print(Go, Rounded(round, Arr(items)))
      decreases items
    {
      ghost var left := RoundedArr(round, items);
      PrintArr(left);
      hide Print, Writable, Rounded;
      ghost var texts := PrintItems(Go, left);
      ghost var before := text;
      WriteString("[");
      var index := 0;
      while index < |items|
        invariant 0 <= index <= |items|
        invariant forall i | 0 <= i < index :: Accepted(round, items[i])
        invariant text + (ItemsFrom(texts, index) + "]") == before + Print(Go, Arr(left))
      {
        PrintItemsAt(left, index);
        hide *;
        label Start: ghost var start := text;
        if index > 0 {
          WriteString(",");
        }
        var written := WriteCanonicalJSON(items[index]);
        if !written {
          return false;
        }
        Appended(start, if index == 0 then "" else ",", texts[index], ItemsFrom(texts, index + 1), "]");
        index := index + 1;
      }
      assert ItemsFrom(texts, index) == "";
      WriteString("]");
      return true;
    }

    method WriteObject(members: seq<Field<Json>>) returns (ok: bool)
      requires Distinct(members) && forall i | 0 <= i < |members| :: Writable(members[i].value)
      modifies this
      ensures ok == Accepted(round, Obj(members))
      ensures ok ==> text == old(text) + Print(Go, Rounded(round, Obj(members)))
      decreases members, 1
    {
      ghost var left := RoundedObj(round, members);
      ghost var fields := Sorted(PrintMembers(Go, left));
      var keys := CollectKeys(members);
      keys := Sorted(keys);
      SortedKeys(members, left);
      PrintObj(left);
      forall k | 0 <= k < |keys| ensures IsEntry(round, members, keys[k].key, fields[k]) {
        assert Keys(fields)[k].key == fields[k].key;
        RoundedFieldIs(members, left, k, keys[k].key);
      }
      hide *;
      ghost var before := text;
      WriteString("{");
      ok := WriteEntries(members, keys, fields);
      if ok {
        AllAccepted(round, members, left);
        WriteString("}");
        Regroup(before + "{", FieldsFrom(fields, 0), "}");
        Regroup(before, "{", FieldsFrom(fields, 0) + "}");
      }
    }

    /** The loop over the sorted keys. */
    method WriteEntries(members: seq<Field<Json>>, keys: seq<Field<()>>, ghost fields: seq<Field<string>>) returns (ok: bool)
      requires Distinct(members) && |fields| == |keys|
      requires forall i | 0 <= i < |members| :: Writable(members[i].value)
      requires forall k | 0 <= k < |keys| :: IsEntry(round, members, keys[k].key, fields[k])
      modifies this
      ensures ok ==> AcceptedSoFar(round, members, keys, |keys|)
      ensures !ok ==> !Accepted(round, Obj(members))
      ensures ok ==> text == old(text) + FieldsFrom(fields, 0)
      decreases members, 0
    {
      NoneVisited(round, members, keys);
      hide AcceptedSoFar, FieldsFrom, Visited, Distinct, Writable;
      ghost var all := text + FieldsFrom(fields, 0);
      var index := 0;
      while index < |keys|
        invariant 0 <= index <= |keys|
        invariant AcceptedSoFar(round, members, keys, index)
        invariant text + FieldsFrom(fields, index) == all
      {
        var key := keys[index].key;
        assert IsEntry(round, members, key, fields[index]);
        var i := Lookup(members, key);
        ghost var start := text;
        hide *;
        var written := WriteEntry(index == 0, key, members[i].value);
        if !written {
          RefusedAt(round, members, i);
          return false;
        }
        FieldsStep(fields, index);
        NextText(start, if index == 0 then "" else ",", FieldText(Go, fields[index]), FieldsFrom(fields, index + 1));
        AcceptedNext(round, members, keys, index, i);
        index := index + 1;
      }
      assert FieldsFrom(fields, index) == "";
      return true;
    }

    /** A comma where one is due, and the member. */
    method WriteEntry(first: bool, key: string, value: Json) returns (ok: bool)
      requires Writable(value)
      modifies this
      ensures ok == Accepted(round, value)
      ensures ok ==>
        text == (old(text) + (if first then "" else ",")) + FieldText(Go, Field(key, Print(Go, Rounded(round, value))))
      decreases value, 3
    {
      hide *;
      assert text + "" == text;
      if !first {
        WriteString(",");
      }
      ok := WriteMember(key, value);
    }

    method WriteMember(key: string, value: Json) returns (ok: bool)
      requires Writable(value)
      modifies this
      ensures ok == Accepted(round, value)
      ensures ok ==> text == old(text) + FieldText(Go, Field(key, Print(Go, Rounded(round, value))))
      decreases value, 2
    {
      hide Print, Writable, Accepted, Rounded, GoQuoted;
      ghost var start := text;
      WriteString(GoQuoted(key));
      WriteString(":");
      ok := WriteCanonicalJSON(value);
      if ok {
        var written := Print(Go, Rounded(round, value));
        Regroup(start + GoQuoted(key), ":", written);
        Regroup(start, GoQuoted(key), ":" + written);
      }
    }
  }

  /** The keys of a map, in whatever order it gives them. */
  method CollectKeys(members: seq<Field<Json>>) returns (keys: seq<Field<()>>)
    ensures keys == Keys(members)
  {
    keys := [];
    for i := 0 to |members|
      invariant |keys| == i && forall k | 0 <= k < i :: keys[k] == Field(members[k].key, ())
    {
      keys := keys + [Field(members[i].key, ())];
    }
    assert forall k | 0 <= k < |members| :: Keys(members)[k] == Field(members[k].key, ());
  }

  lemma NextText(start: string, mark: string, entry: string, later: string)
    ensures ((start + mark) + entry) + later == start + (mark + (entry + later))
  {
  }

  /** A mark and a text taken from the front of what is to come. */
  lemma Appended(start: string, mark: string, t: string, later: string, end: string)
    ensures ((start + mark) + t) + (later + end) == start + ((mark + (t + later)) + end)
    ensures start + "" == start
  {
  }
}
