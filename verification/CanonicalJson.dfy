/**
 What canonical_json in server/pipeline/document.py promises: its text reads back as the
 same value, and two trees get the same text exactly when they are equal up to number
 spelling and member order.
 */
module CanonicalJson {
  import opened Basics
  import opened Numeral
  import opened NumberForm
  import opened NumberRender
  import opened JsonString
  import opened JsonTree

  // ----- the canonical tree -------------------------------------------------------------

  /** Numbers in their normal spelling, members in key order. */
  function Canon(v: Json): Json
    decreases v
  {
    match v
    case Num(l) => Num(LexemeOf(NormOf(l)))
    case Arr(items) => Arr(CanonItems(items))
    case Obj(members) => Obj(Sorted(CanonMembers(members)))
    case _ => v
  }

  function CanonItems(items: seq<Json>): (r: seq<Json>)
    ensures |r| == |items|
    ensures forall i | 0 <= i < |items| :: r[i] == Canon(items[i])
    decreases items
  {
    if items == [] then [] else [Canon(items[0])] + CanonItems(items[1..])
  }

  function CanonMembers(members: seq<Field<Json>>): (r: seq<Field<Json>>)
    ensures |r| == |members|
    ensures forall i | 0 <= i < |members| :: r[i] == Field(members[i].key, Canon(members[i].value))
    decreases members
  {
    if members == [] then []
    else [Field(members[0].key, Canon(members[0].value))] + CanonMembers(members[1..])
  }

  /** The text of a tree as it stands. */
  function Write(v: Json): string
    decreases v
  {
    match v
    case Null => "null"
    case Bool(b) => if b then "true" else "false"
    case Num(l) => Spell(l)
    case Str(s) => Quoted(s)
    case Arr(items) => "[" + (JoinItems(WriteItems(items)) + "]")
    case Obj(members) => "{" + (JoinFields(Python, WriteMembers(members)) + "}")
  }

  function WriteItems(items: seq<Json>): (r: seq<string>)
    ensures |r| == |items|
    decreases items
  {
    if items == [] then [] else [Write(items[0])] + WriteItems(items[1..])
  }

  function WriteMembers(members: seq<Field<Json>>): (r: seq<Field<string>>)
    ensures |r| == |members|
    decreases members
  {
    if members == [] then [] else [Field(members[0].key, Write(members[0].value))] + WriteMembers(members[1..])
  }

  // ----- printing writes the canonical tree -------------------------------------------------

  lemma {:induction false} PrintWritesCanon(v: Json)
    ensures Print(Python, v) == Write(Canon(v))
    decreases v
  {
    match v {
      case Num(l) =>
        RenderSpells(NormOf(l));
      case Arr(items) =>
        PrintItemsWrite(items);
      case Obj(members) =>
        PrintMembersWrite(members);
        WriteSorted(CanonMembers(members));
      case _ =>
    }
  }

  lemma {:induction false} PrintItemsWrite(items: seq<Json>)
    ensures PrintItems(Python, items) == WriteItems(CanonItems(items))
    decreases items
  {
    if items != [] {
      PrintWritesCanon(items[0]);
      PrintItemsWrite(items[1..]);
    }
  }

  lemma {:induction false} PrintMembersWrite(members: seq<Field<Json>>)
    ensures PrintMembers(Python, members) == WriteMembers(CanonMembers(members))
    decreases members
  {
    if members != [] {
      PrintWritesCanon(members[0].value);
      PrintMembersWrite(members[1..]);
    }
  }

  /** Sorting members and writing them commute. */
  lemma {:induction false} WriteSorted(members: seq<Field<Json>>)
    ensures Sorted(WriteMembers(members)) == WriteMembers(Sorted(members))
    decreases |members|
  {
    if members != [] {
      WriteSorted(members[1..]);
      WriteInserted(members[0], Sorted(members[1..]));
    }
  }

  lemma {:induction false} WriteInserted(f: Field<Json>, s: seq<Field<Json>>)
    ensures Insert(Field(f.key, Write(f.value)), WriteMembers(s)) == WriteMembers(Insert(f, s))
    decreases |s|
  {
    if s == [] {
    } else if AtMost(f.key, s[0].key) {
      assert ([f] + s)[1..] == s;
    } else {
      WriteInserted(f, s[1..]);
      assert ([s[0]] + Insert(f, s[1..]))[1..] == Insert(f, s[1..]);
    }
  }

  // ----- reading what was written --------------------------------------------------------------

  /** The characters a value's text can start with. */
  predicate StartsValue(c: char) {
    IsDigit(c) || c in "-\"[{ntf"
  }

  lemma WriteStarts(v: Json)
    ensures Write(v) != "" && StartsValue(Write(v)[0])
  {
    if v.Num? {
      assert v.lexeme.whole != "" && IsDigit(v.lexeme.whole[0]);
    }
  }

  lemma NumberStarts(l: ValidLexeme)
    ensures Spell(l) != "" && (IsDigit(Spell(l)[0]) || Spell(l)[0] == '-')
  {
  }

  lemma SkipNothing(s: string)
    requires s != "" && !IsSpace(s[0])
    ensures Skip(s) == s
  {
  }

  lemma WordAt(word: string, rest: string)
    ensures StartsWith(word + rest, word) && (word + rest)[|word|..] == rest
  {
  }

  lemma NotWord(s: string, word: string)
    requires s != "" && word != "" && s[0] != word[0]
    ensures !StartsWith(s, word)
  {
    Uncons(s, word);
  }

  /** Reading a written value, with anything behind it that does not continue a number. */
  lemma {:induction false} ParseWrite(v: Json, rest: string)
    requires Ends(rest)
    ensures ParseValue(Write(v) + rest) == Some((v, rest))
    decreases v, 1
  {
    WriteStarts(v);
    SkipNothing(Write(v) + rest);
    match v {
      case Null => WordAt("null", rest);
      case Bool(b) => ParseWord(b, rest);
      case Num(l) => ParseSpelled(l, rest);
      case Str(s) => ParseQuoted(s, rest);
      case Arr(items) => ParseArr(items, rest);
      case Obj(members) => ParseObj(members, rest);
    }
  }

  lemma ParseWord(b: bool, rest: string)
    ensures ParseValue(Write(Bool(b)) + rest) == Some((Bool(b), rest))
  {
    var s := Write(Bool(b)) + rest;
    SkipNothing(s);
    NotWord(s, "null");
    WordAt(Write(Bool(b)), rest);
    if !b {
      NotWord(s, "true");
    }
  }

  /** The three words start with letters no other value starts with. */
  lemma NoWord(s: string)
    requires s != "" && s[0] !in "ntf"
    ensures !StartsWith(s, "null") && !StartsWith(s, "true") && !StartsWith(s, "false")
  {
    NotWord(s, "null");
    NotWord(s, "true");
    NotWord(s, "false");
  }

  lemma ParseSpelled(l: ValidLexeme, rest: string)
    requires Ends(rest)
    ensures ParseValue(Spell(l) + rest) == Some((Num(l), rest))
  {
    hide Spell, Scan, StartsWith;
    var s := Spell(l) + rest;
    NumberStarts(l);
    SkipNothing(s);
    NoWord(s);
    ScanOfSpell(l, rest);
  }

  lemma ParseQuoted(t: string, rest: string)
    ensures ParseValue(Quoted(t) + rest) == Some((Str(t), rest))
  {
    hide StartsWith, ReadChars, EscapeAll;
    var s := Quoted(t) + rest;
    QuotedText(t, rest);
    SkipNothing(s);
    NoWord(s);
    ReadCharsOfEscape(t, rest);
  }

  lemma QuotedText(t: string, rest: string)
    ensures Quoted(t) + rest == "\"" + (EscapeAll(t) + ("\"" + rest))
    ensures (Quoted(t) + rest)[1..] == EscapeAll(t) + ("\"" + rest)
  {
    Regroup("\"", EscapeAll(t) + "\"", rest);
    Regroup(EscapeAll(t), "\"", rest);
  }

  lemma {:induction false} ParseArr(items: seq<Json>, rest: string)
    ensures ParseValue(Write(Arr(items)) + rest) == Some((Arr(items), rest))
    decreases items, 2
  {
    var body := JoinItems(WriteItems(items)) + ("]" + rest);
    var s := Write(Arr(items)) + rest;
    assert s == "[" + body by {
      Regroup("[", JoinItems(WriteItems(items)) + "]", rest);
      Regroup(JoinItems(WriteItems(items)), "]", rest);
    }
    assert s[1..] == body;
    if items == [] {
      assert body == "]" + rest;
      OpenArray(s, "]" + rest);
      assert body[1..] == rest;
    } else {
      ParseItemsWrite(items, rest);
      ItemsStart(items, "]" + rest);
      OpenArray(s, body);
    }
  }

  lemma OpenArray(s: string, body: string)
    requires s == "[" + body && body != "" && !IsSpace(body[0])
    ensures ParseValue(s)
         == if body[0] == ']' then Some((Arr([]), body[1..]))
            else if ParseItems(body).None? then None
            else Some((Arr(ParseItems(body).value.0), ParseItems(body).value.1))
  {
    hide StartsWith, ParseItems;
    assert s[0] == '[' && s[1..] == body;
    SkipNothing(s);
    SkipNothing(body);
    NoWord(s);
  }

  lemma OpenObject(s: string, body: string)
    requires s == "{" + body && body != "" && !IsSpace(body[0])
    ensures ParseValue(s)
         == if body[0] == '}' then Some((Obj([]), body[1..]))
            else if ParseMembers(body).None? then None
            else Some((Obj(ParseMembers(body).value.0), ParseMembers(body).value.1))
  {
    hide StartsWith, ParseMembers;
    assert s[0] == '{' && s[1..] == body;
    SkipNothing(s);
    SkipNothing(body);
    NoWord(s);
  }

  lemma ItemsStart(items: seq<Json>, rest: string)
    requires items != []
    ensures var s := JoinItems(WriteItems(items)) + rest; s != "" && StartsValue(s[0]) 
  {
    WriteStarts(items[0]);
    hide Write;
  }

  lemma {:induction false} ParseItemsWrite(items: seq<Json>, rest: string)
    requires items != []
    ensures ParseItems(JoinItems(WriteItems(items)) + ("]" + rest)) == Some((items, rest))
    decreases items, 1
  {
    hide ParseValue, Write;
    var first := Write(items[0]);
    if |items| == 1 {
      assert WriteItems(items) == [first] && items == [items[0]];
      ParseWrite(items[0], "]" + rest);
      AfterValue("]", rest);
    } else {
      var others := JoinItems(WriteItems(items[1..])) + ("]" + rest);
      assert JoinItems(WriteItems(items)) == first + ("," + JoinItems(WriteItems(items[1..])));
      Regroup(first, "," + JoinItems(WriteItems(items[1..])), "]" + rest);
      Regroup(",", JoinItems(WriteItems(items[1..])), "]" + rest);
      ParseWrite(items[0], "," + others);
      AfterValue(",", others);
      ParseItemsWrite(items[1..], rest);
      assert items == [items[0]] + items[1..];
    }
  }

  lemma AfterValue(mark: string, rest: string)
    requires mark in [",", "]", "}", ":"]
    ensures Ends(mark + rest) && Skip(mark + rest) == mark + rest && (mark + rest)[0] == mark[0] && (mark + rest)[1..] == rest
  {
    SkipNothing(mark + rest);
  }

  lemma {:induction false} ParseObj(members: seq<Field<Json>>, rest: string)
    ensures ParseValue(Write(Obj(members)) + rest) == Some((Obj(members), rest))
    decreases members, 2
  {
    var body := JoinFields(Python, WriteMembers(members)) + ("}" + rest);
    var s := Write(Obj(members)) + rest;
    assert s == "{" + body by {
      Regroup("{", JoinFields(Python, WriteMembers(members)) + "}", rest);
      Regroup(JoinFields(Python, WriteMembers(members)), "}", rest);
    }
    if members == [] {
      assert body == "}" + rest;
      OpenObject(s, "}" + rest);
      assert body[1..] == rest;
    } else {
      ParseMembersWrite(members, rest);
      MembersStart(members, "}" + rest);
      OpenObject(s, body);
    }
  }

  lemma MembersStart(members: seq<Field<Json>>, rest: string)
    requires members != []
    ensures var s := JoinFields(Python, WriteMembers(members)) + rest; s != "" && s[0] == '"'
  {
    hide Write, EscapeAll;
  }

  lemma {:induction false} ParseMembersWrite(members: seq<Field<Json>>, rest: string)
    requires members != []
    ensures ParseMembers(JoinFields(Python, WriteMembers(members)) + ("}" + rest)) == Some((members, rest))
    decreases members, 1
  {
    hide ParseMember, Write, FieldText;
    var first := FieldText(Python, Field(members[0].key, Write(members[0].value)));
    if |members| == 1 {
      assert WriteMembers(members) == [Field(members[0].key, Write(members[0].value))] && members == [members[0]];
      ParseMemberWrite(members[0], "}" + rest);
      AfterValue("}", rest);
    } else {
      var others := JoinFields(Python, WriteMembers(members[1..])) + ("}" + rest);
      assert JoinFields(Python, WriteMembers(members)) == first + ("," + JoinFields(Python, WriteMembers(members[1..])));
      Regroup(first, "," + JoinFields(Python, WriteMembers(members[1..])), "}" + rest);
      Regroup(",", JoinFields(Python, WriteMembers(members[1..])), "}" + rest);
      ParseMemberWrite(members[0], "," + others);
      AfterValue(",", others);
      ParseMembersWrite(members[1..], rest);
      assert members == [members[0]] + members[1..];
    }
  }

  lemma {:induction false} ParseMemberWrite(m: Field<Json>, rest: string)
    requires Ends(rest)
    ensures ParseMember(FieldText(Python, Field(m.key, Write(m.value))) + rest) == Some((m, rest))
    decreases m, 2
  {
    hide ParseValue, Write, ReadChars, EscapeAll;
    var after := Write(m.value) + rest;
    var s := FieldText(Python, Field(m.key, Write(m.value))) + rest;
    Regroup(Quoted(m.key), ":" + Write(m.value), rest);
    Regroup(":", Write(m.value), rest);
    QuotedText(m.key, ":" + after);
    SkipNothing(s);
    ReadCharsOfEscape(m.key, ":" + after);
    AfterValue(":", after);
    ParseWrite(m.value, rest);
  }

  /** Reading canonical text gives the value back, in its canonical spelling and order. */
  lemma RoundTrip(v: Json)
    ensures Parse(Print(Python, v)) == Some(Canon(v))
  {
    PrintWritesCanon(v);
    ParseWrite(Canon(v), "");
    assert Write(Canon(v)) + "" == Write(Canon(v));
  }

  // ----- equal text is equality --------------------------------------------------------------

  /** Equality of values: numbers by value, objects by their members in any order. */
  ghost predicate Same(a: Json, b: Json)
    decreases a
  {
    match (a, b)
    case (Num(l), Num(m)) => SameValue(ValueOf(l), ValueOf(m))
    case (Arr(items), Arr(others)) =>
      && |items| == |others|
      && forall i | 0 <= i < |items| :: Same(items[i], others[i])
    case (Obj(members), Obj(others)) =>
      && |members| == |others|
      && forall i | 0 <= i < |members| :: exists j :: 0 <= j < |others| && SameField(members[i], others[j])
    case _ => a == b
  }

  /** The same key with the same value. */
  ghost predicate SameField(f: Field<Json>, g: Field<Json>)
    decreases f
  {
    f.key == g.key && Same(f.value, g.value)
  }

  lemma {:induction false} SameIsCanon(a: Json, b: Json)
    requires WellFormed(a) && WellFormed(b)
    ensures Same(a, b) <==> Canon(a) == Canon(b)
    decreases a
  {
    if a.Num? && b.Num? {
      NumbersAgree(a.lexeme, b.lexeme);
    } else if a.Arr? && b.Arr? {
      if |a.items| == |b.items| {
        forall i | 0 <= i < |a.items| ensures Same(a.items[i], b.items[i]) <==> Canon(a.items[i]) == Canon(b.items[i]) {
          SameIsCanon(a.items[i], b.items[i]);
        }
      }
    } else if a.Obj? && b.Obj? {
      forall i, j | 0 <= i < |a.members| && 0 <= j < |b.members|
        ensures SameField(a.members[i], b.members[j]) <==> CanonField(a.members[i]) == CanonField(b.members[j])
      {
        SameIsCanon(a.members[i].value, b.members[j].value);
      }
      MembersAgree(a.members, b.members);
    }
  }

  lemma NumbersAgree(l: ValidLexeme, m: ValidLexeme)
    ensures SameValue(ValueOf(l), ValueOf(m)) <==> LexemeOf(NormOf(l)) == LexemeOf(NormOf(m))
  {
    NormDecidesValue(l, m);
    LexemeOfIsNormal(NormOf(l));
    LexemeOfIsNormal(NormOf(m));
  }

  function CanonField(f: Field<Json>): Field<Json> {
    Field(f.key, Canon(f.value))
  }

  ghost predicate Within(members: seq<Field<Json>>, others: seq<Field<Json>>) {
    forall i | 0 <= i < |members| :: exists j :: 0 <= j < |others| && CanonField(members[i]) == CanonField(others[j])
  }

  lemma {:induction false} MembersAgree(members: seq<Field<Json>>, others: seq<Field<Json>>)
    requires Distinct(members) && Distinct(others)
    ensures Sorted(CanonMembers(members)) == Sorted(CanonMembers(others))
       <==> |members| == |others| && Within(members, others)
  {
    assert Distinct(CanonMembers(members)) && Distinct(CanonMembers(others));
    hide *;
    SortedAgree(CanonMembers(members), CanonMembers(others));
    WithinIsContained(members, others);
  }

  lemma WithinIsContained(members: seq<Field<Json>>, others: seq<Field<Json>>)
    ensures Within(members, others) <==> forall f :: f in CanonMembers(members) ==> f in CanonMembers(others)
  {
    hide Canon;
    var fs := CanonMembers(members);
    var gs := CanonMembers(others);
    assert forall i | 0 <= i < |members| :: fs[i] == CanonField(members[i]);
    assert forall j | 0 <= j < |others| :: gs[j] == CanonField(others[j]);
    hide CanonMembers, CanonField;
    if Within(members, others) {
      forall f | f in fs ensures f in gs {
        var i :| 0 <= i < |fs| && fs[i] == f;
        var j :| 0 <= j < |others| && CanonField(members[i]) == CanonField(others[j]);
        assert gs[j] == f;
      }
    }
    if forall f :: f in fs ==> f in gs {
      forall i | 0 <= i < |members|
        ensures exists j :: 0 <= j < |others| && CanonField(members[i]) == CanonField(others[j])
      {
        assert fs[i] in gs;
        var j :| 0 <= j < |gs| && gs[j] == fs[i];
        assert CanonField(members[i]) == CanonField(others[j]);
      }
    }
  }

  /** Sorting forgets exactly the order. */
  lemma {:induction false} SortedAgree(fs: seq<Field<Json>>, gs: seq<Field<Json>>)
    requires Distinct(fs) && Distinct(gs)
    ensures Sorted(fs) == Sorted(gs) <==> |fs| == |gs| && forall f :: f in fs ==> f in gs
  {
    hide Sorted;
    SortedAscends(fs);
    SortedAscends(gs);
    hide Distinct, Ascending;
    if |fs| == |gs| && forall f :: f in fs ==> f in gs {
      SameElements(fs, gs);
      AscendingIsUnique(Sorted(fs), Sorted(gs));
    }
    if Sorted(fs) == Sorted(gs) {
      assert |Sorted(fs)| == |fs| && |Sorted(gs)| == |gs|;
      forall f | f in fs ensures f in gs {
        assert f in Sorted(fs);
      }
    }
  }

  /** Two equally long lists of fields with distinct keys, one within the other, have the same elements. */
  lemma SameElements(fs: seq<Field<Json>>, gs: seq<Field<Json>>)
    requires Distinct(fs) && |fs| == |gs| && forall f :: f in fs ==> f in gs
    ensures forall f :: f in fs <==> f in gs
  {
    var s := set f | f in fs;
    var t := set g | g in gs;
    CountOfDistinct(fs);
    CountAtMost(gs);
    SubsetOfSameSize(s, t);
    forall f ensures f in fs <==> f in gs {
      assert f in s <==> f in t;
    }
  }

  lemma SubsetOfSameSize<T>(s: set<T>, t: set<T>)
    requires s <= t && |s| >= |t|
    ensures s == t
  {
    assert |t - s| == |t| - |s|;
  }

  lemma {:induction false} CountOfDistinct(fs: seq<Field<Json>>)
    requires Distinct(fs)
    ensures |set f | f in fs| == |fs|
  {
    if fs != [] {
      CountOfDistinct(fs[1..]);
      FirstAndRest(fs);
      forall i | 0 <= i < |fs| - 1 ensures fs[1..][i] != fs[0] {
        assert fs[1..][i] == fs[i + 1];
      }
    }
  }

  lemma FirstAndRest(fs: seq<Field<Json>>)
    requires fs != []
    ensures (set f | f in fs) == {fs[0]} + (set f | f in fs[1..])
  {
    assert fs == [fs[0]] + fs[1..];
  }

  lemma {:induction false} CountAtMost(fs: seq<Field<Json>>)
    ensures |set f | f in fs| <= |fs|
  {
    if fs != [] {
      CountAtMost(fs[1..]);
      FirstAndRest(fs);
    }
  }

  /** Two trees get the same text exactly when they are the same value. */
  lemma SameTextIsSameValue(a: Json, b: Json)
    requires WellFormed(a) && WellFormed(b)
    ensures Print(Python, a) == Print(Python, b) <==> Same(a, b)
  {
    hide Print, Canon, Same, Parse;
    SameIsCanon(a, b);
    RoundTrip(a);
    RoundTrip(b);
    if Canon(a) == Canon(b) {
      PrintWritesCanon(a);
      PrintWritesCanon(b);
    }
  }

  /** What is read back is the same value, and prints as itself. */
  lemma CanonIsSame(v: Json)
    requires WellFormed(v)
    ensures WellFormed(Canon(v)) && Same(v, Canon(v)) && Print(Python, Canon(v)) == Print(Python, v)
  {
    CanonIsWellFormed(v);
    CanonIsIdempotent(v);
    SameIsCanon(v, Canon(v));
    SameTextIsSameValue(v, Canon(v));
  }

  lemma {:induction false} CanonIsWellFormed(v: Json)
    requires WellFormed(v)
    ensures WellFormed(Canon(v))
    decreases v
  {
    if v.Arr? {
      forall i | 0 <= i < |v.items| ensures WellFormed(CanonItems(v.items)[i]) {
        CanonIsWellFormed(v.items[i]);
      }
    } else if v.Obj? {
      var fs := CanonMembers(v.members);
      forall i | 0 <= i < |fs| ensures WellFormed(fs[i].value) {
        CanonIsWellFormed(v.members[i].value);
      }
      SortedAscends(fs);
      hide Canon, Sorted;
      var gs := Sorted(fs);
      forall i | 0 <= i < |gs| ensures WellFormed(gs[i].value) {
        assert gs[i] in fs;
        var j :| 0 <= j < |fs| && fs[j] == gs[i];
      }
      assert Distinct(gs);
    }
  }

  lemma {:induction false} CanonIsIdempotent(v: Json)
    requires WellFormed(v)
    ensures Canon(Canon(v)) == Canon(v)
    decreases v
  {
    match v {
      case Num(l) => LexemeOfIsNormal(NormOf(l));
      case Arr(items) =>
        var cs := CanonItems(items);
        forall i | 0 <= i < |items| ensures CanonItems(cs)[i] == cs[i] {
          CanonIsIdempotent(items[i]);
        }
        assert CanonItems(cs) == cs;
      case Obj(members) =>
        forall i | 0 <= i < |members| ensures Canon(Canon(members[i].value)) == Canon(members[i].value) {
          CanonIsIdempotent(members[i].value);
        }
        SortedIsCanon(members);
      case _ =>
    }
  }

  lemma {:induction false} SortedIsCanon(members: seq<Field<Json>>)
    requires Distinct(members)
    requires forall i | 0 <= i < |members| :: Canon(Canon(members[i].value)) == Canon(members[i].value)
    ensures Sorted(CanonMembers(Sorted(CanonMembers(members)))) == Sorted(CanonMembers(members))
  {
    hide Canon, Sorted;
    var fs := CanonMembers(members);
    var gs := Sorted(fs);
    forall i | 0 <= i < |fs| ensures Canon(fs[i].value) == fs[i].value {
      assert fs[i].value == Canon(members[i].value);
    }
    SortedAscends(fs);
    hide CanonMembers, Distinct, Ascending;
    forall i | 0 <= i < |gs| ensures Canon(gs[i].value) == gs[i].value {
      assert gs[i] in gs;
      assert gs[i] in fs;
    }
    CanonFixes(gs);
    SortedFixes(gs);
  }

  lemma CanonFixes(gs: seq<Field<Json>>)
    requires forall i | 0 <= i < |gs| :: Canon(gs[i].value) == gs[i].value
    ensures CanonMembers(gs) == gs
  {
    hide Canon;
  }

  lemma SortedFixes(gs: seq<Field<Json>>)
    requires Ascending(gs)
    ensures Sorted(gs) == gs
  {
    assert Distinct(gs);
    SortedAscends(gs);
    hide Sorted;
    AscendingIsUnique(Sorted(gs), gs);
  }
}
