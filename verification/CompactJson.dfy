/**
 What else is canonical about the text of canonical_json in server/pipeline/document.py:
 its keys are in order, and there is no white space but what strings hold.
 */
module CompactJson {
  import opened Numeral
  import opened NumberForm
  import opened NumberRender
  import opened JsonString
  import opened JsonTree

  predicate Compact(s: string) {
    forall i | 0 <= i < |s| :: !IsSpace(s[i])
  }

  predicate NoBlank(s: string) {
    ' ' !in s
  }

  /** No string or key has a space in it. */
  predicate Blankless(v: Json)
    decreases v
  {
    match v
    case Str(s) => NoBlank(s)
    case Arr(items) => forall i | 0 <= i < |items| :: Blankless(items[i])
    case Obj(members) => forall i | 0 <= i < |members| :: NoBlank(members[i].key) && Blankless(members[i].value)
    case _ => true
  }

  lemma CompactJoin(a: string, b: string)
    requires Compact(a) && Compact(b)
    ensures Compact(a + b)
  {
  }

  lemma {:induction false} EscapedIsCompact(s: string)
    requires NoBlank(s)
    ensures Compact(EscapeAll(s))
    decreases |s|
  {
    if s != "" {
      EscapedIsCompact(s[1..]);
      assert s[0] != ' ';
      assert Compact(Escape(s[0]));
      hide Escape, Compact;
      CompactJoin(Escape(s[0]), EscapeAll(s[1..]));
    }
  }

  lemma LiteralIsCompact(s: string)
    requires NoBlank(s)
    ensures Compact(Literal(Python, s))
  {
    EscapedIsCompact(s);
    hide EscapeAll;
  }

  lemma DigitsAreCompact(s: string)
    requires AllDigits(s)
    ensures Compact(s)
  {
  }

  lemma NumberIsCompact(n: Norm)
    requires n.Valid()
    ensures Compact(Render(n))
  {
    hide LexemeOf, Render, Compact;
    RenderSpells(n);
    SpellIsCompact(LexemeOf(n));
  }

  lemma SpellIsCompact(l: Lexeme)
    requires Valid(l)
    ensures Compact(Spell(l))
  {
    DigitsAreCompact(l.whole);
    DigitsAreCompact(l.frac);
    if l.exp.Some? {
      DigitsAreCompact(l.exp.value.digits);
    }
    assert Compact(SpellNeg(l.neg)) && Compact(SpellFrac(l.frac)) && Compact(SpellExp(l.exp));
    hide Compact, SpellNeg, SpellFrac, SpellExp, AllDigits;
    CompactJoin(SpellFrac(l.frac), SpellExp(l.exp));
    CompactJoin(l.whole, SpellFrac(l.frac) + SpellExp(l.exp));
    CompactJoin(SpellNeg(l.neg), l.whole + (SpellFrac(l.frac) + SpellExp(l.exp)));
  }

  lemma {:induction false} ItemsAreCompact(texts: seq<string>)
    requires forall i | 0 <= i < |texts| :: Compact(texts[i])
    ensures Compact(JoinItems(texts))
    decreases |texts|
  {
    hide Compact;
    assert Compact("") && Compact(",") by {
      MarksAreCompact();
    }
    if |texts| > 1 {
      ItemsAreCompact(texts[1..]);
      CompactJoin(",", JoinItems(texts[1..]));
      CompactJoin(texts[0], "," + JoinItems(texts[1..]));
    }
  }

  lemma MarksAreCompact()
    ensures Compact("") && Compact(",") && Compact(":") && Compact("[") && Compact("]") && Compact("{") && Compact("}")
    ensures Compact("null") && Compact("true") && Compact("false")
  {
  }

  predicate FieldsCompact(fields: seq<Field<string>>) {
    forall i | 0 <= i < |fields| :: NoBlank(fields[i].key) && Compact(fields[i].value)
  }

  lemma FieldIsCompact(f: Field<string>)
    requires NoBlank(f.key) && Compact(f.value)
    ensures Compact(FieldText(Python, f))
  {
    MarksAreCompact();
    LiteralIsCompact(f.key);
    hide Compact, Literal;
    CompactJoin(":", f.value);
    CompactJoin(Literal(Python, f.key), ":" + f.value);
  }

  lemma {:induction false} FieldsJoinCompact(fields: seq<Field<string>>)
    requires FieldsCompact(fields)
    ensures Compact(JoinFields(Python, fields))
    decreases |fields|
  {
    hide Compact, FieldText, NoBlank;
    MarksAreCompact();
    if fields != [] {
      FieldIsCompact(fields[0]);
    }
    if |fields| > 1 {
      FieldsJoinCompact(fields[1..]);
      CompactJoin(",", JoinFields(Python, fields[1..]));
      CompactJoin(FieldText(Python, fields[0]), "," + JoinFields(Python, fields[1..]));
    }
  }

  lemma SortedStaysCompact(fields: seq<Field<string>>)
    requires FieldsCompact(fields)
    ensures FieldsCompact(Sorted(fields))
  {
    hide Compact, NoBlank, Sorted;
    var s := Sorted(fields);
    forall i | 0 <= i < |s| ensures NoBlank(s[i].key) && Compact(s[i].value) {
      assert s[i] in s;
      assert s[i] in fields;
    }
  }

  lemma Bracketed(open: string, body: string, close: string)
    requires Compact(open) && Compact(body) && Compact(close)
    ensures Compact(open + (body + close))
  {
    hide Compact;
    CompactJoin(body, close);
    CompactJoin(open, body + close);
  }

  /** No white space is written outside of strings. */
  lemma {:induction false} PrintIsCompact(v: Json)
    requires Blankless(v)
    ensures Compact(Print(Python, v))
    decreases v, 0
  {
    MarksAreCompact();
    hide Compact, NoBlank;
    match v {
      case Num(l) => NumberIsCompact(NormOf(l));
      case Str(s) => LiteralIsCompact(s);
      case Arr(items) =>
        ItemsPrintCompact(items);
        ItemsAreCompact(PrintItems(Python, items));
        Bracketed("[", JoinItems(PrintItems(Python, items)), "]");
      case Obj(members) =>
        MembersPrintCompact(members);
        SortedStaysCompact(PrintMembers(Python, members));
        FieldsJoinCompact(Sorted(PrintMembers(Python, members)));
        Bracketed("{", JoinFields(Python, Sorted(PrintMembers(Python, members))), "}");
      case _ =>
    }
  }

  lemma {:induction false} ItemsPrintCompact(items: seq<Json>)
    requires forall i | 0 <= i < |items| :: Blankless(items[i])
    ensures forall i | 0 <= i < |items| :: Compact(PrintItems(Python, items)[i])
    decreases items, 1
  {
    hide Compact, Print, Blankless;
    if items != [] {
      PrintIsCompact(items[0]);
      ItemsPrintCompact(items[1..]);
    }
  }

  lemma {:induction false} MembersPrintCompact(members: seq<Field<Json>>)
    requires forall i | 0 <= i < |members| :: NoBlank(members[i].key) && Blankless(members[i].value)
    ensures FieldsCompact(PrintMembers(Python, members))
    decreases members, 1
  {
    hide Compact, Print, Blankless, NoBlank;
    if members != [] {
      PrintIsCompact(members[0].value);
      MembersPrintCompact(members[1..]);
    }
  }

  lemma {:induction false} PrintMembersAre(members: seq<Field<Json>>)
    ensures forall i | 0 <= i < |members| ::
      PrintMembers(Python, members)[i] == Field(members[i].key, Print(Python, members[i].value))
    decreases |members|
  {
    hide Print;
    if members != [] {
      PrintMembersAre(members[1..]);
    }
  }

  /** An object's members are written in ascending order of their keys, each with its own value. */
  lemma MembersAreInOrder(members: seq<Field<Json>>)
    requires Distinct(members)
    ensures var fields := Sorted(PrintMembers(Python, members));
      && Print(Python, Obj(members)) == "{" + (JoinFields(Python, fields) + "}")
      && |fields| == |members| && Ascending(fields)
      && forall i | 0 <= i < |members| :: Field(members[i].key, Print(Python, members[i].value)) in fields
  {
    PrintMembersAre(members);
    var printed := PrintMembers(Python, members);
    hide Print, PrintMembers, Sorted, Ascending;
    forall i, j | 0 <= i < j < |printed| ensures printed[i].key != printed[j].key {
    }
    SortedAscends(printed);
    forall i | 0 <= i < |members| ensures Field(members[i].key, Print(Python, members[i].value)) in Sorted(printed) {
      assert printed[i] in printed;
    }
    PrintOfObj(members);
  }

  lemma PrintOfObj(members: seq<Field<Json>>)
    ensures Print(Python, Obj(members)) == "{" + (JoinFields(Python, Sorted(PrintMembers(Python, members))) + "}")
  {
  }
}
