/**
 Reading back what writeCanonicalJSON in server/cache.go wrote: it is JSON exactly when no
 string in the tree spells a separator's escape out.
 */
module GoReader {
  import opened Basics
  import opened Numeral
  import opened NumberForm
  import opened NumberRender
  import opened JsonString
  import opened JsonTree
  import opened CanonicalJson
  import opened JsonWriter

  // ----- reading what Go wrote ------------------------------------------------------------

  lemma LiteralText(s: string, rest: string)
    ensures GoQuoted(s) + rest != "" && (GoQuoted(s) + rest)[0] == '"'
    ensures (GoQuoted(s) + rest)[1..] == Restored(s, true, true) + ("\"" + rest)
  {
    hide PutBack, Restored, GoEscapeAll;
    NothingRestored(s);
    PutBackOne(s, '8');
    PutBackOne(s, '9');
    Regroup("\"", Restored(s, true, true) + "\"", rest);
    Regroup(Restored(s, true, true), "\"", rest);
  }

  lemma LiteralFails(s: string, rest: string)
    requires HoldsSpelling(s)
    ensures (GoQuoted(s) + rest) != "" && (GoQuoted(s) + rest)[0] == '"'
    ensures ReadChars((GoQuoted(s) + rest)[1..]) == None
  {
    hide GoQuoted, HoldsSpelling, Restored, ReadChars;
    LiteralText(s, rest);
    SpellingIsCorrupted(s, "\"" + rest);
  }

  lemma StringFails(s: string, rest: string)
    requires HoldsSpelling(s)
    ensures ParseValue(GoQuoted(s) + rest) == None
  {
    hide GoQuoted, HoldsSpelling, ReadChars, StartsWith;
    LiteralFails(s, rest);
    SkipNothing(GoQuoted(s) + rest);
    NoWord(GoQuoted(s) + rest);
  }

  lemma PrintStarts(v: Json)
    ensures Print(Go, v) != "" && StartsValue(Print(Go, v)[0])
  {
    match v {
      case Num(l) =>
        RenderSpells(NormOf(l));
        NumberStarts(LexemeOf(NormOf(l)));
      case Str(s) => LiteralText(s, "");
      case _ =>
    }
  }

  predicate SpellsInMember(m: Field<Json>) {
    HoldsSpelling(m.key) || SpellsWithin(m.value)
  }

  /** Text with a separator spelled out somewhere is no JSON, whatever follows it. */
  lemma {:induction false} SpelledTextFails(v: Json, rest: string)
    requires SpellsWithin(v)
    ensures ParseValue(Print(Go, v) + rest) == None
    decreases v, 1
  {
    match v {
      case Str(s) => StringFails(s, rest);
      case Arr(items) => ArrayFails(items, rest);
      case Obj(members) => ObjectFails(members, rest);
    }
  }

  lemma {:induction false} ArrayFails(items: seq<Json>, rest: string)
    requires exists i | 0 <= i < |items| :: SpellsWithin(items[i])
    ensures ParseValue(Print(Go, Arr(items)) + rest) == None
    decreases items, 1
  {
    hide ParseValue, ParseItems, Print, SpellsWithin;
    ItemsFail(items, rest);
    ArrayText(items, rest);
    OpenArray(Print(Go, Arr(items)) + rest, JoinItems(PrintItems(Go, items)) + ("]" + rest));
  }

  lemma {:induction false} ObjectFails(members: seq<Field<Json>>, rest: string)
    requires exists i | 0 <= i < |members| :: SpellsInMember(members[i])
    ensures ParseValue(Print(Go, Obj(members)) + rest) == None
    decreases members, 1
  {
    hide ParseValue, ParseMembers, Print, Sorted, SpellsInMember;
    var fs := Sorted(members);
    var i :| 0 <= i < |members| && SpellsInMember(members[i]);
    assert members[i] in members;
    assert members[i] in fs;
    MembersFail(members, fs, rest);
    ObjectText(members, rest);
    OpenObject(Print(Go, Obj(members)) + rest, JoinFields(Go, PrintMembers(Go, fs)) + ("}" + rest));
  }

  lemma ArrayText(items: seq<Json>, rest: string)
    requires items != []
    ensures var body := JoinItems(PrintItems(Go, items)) + ("]" + rest);
      && Print(Go, Arr(items)) + rest == "[" + body
      && body != "" && StartsValue(body[0])
  {
    var joined := JoinItems(PrintItems(Go, items));
    Regroup("[", joined + "]", rest);
    Regroup(joined, "]", rest);
    PrintStarts(items[0]);
    hide Print;
  }

  lemma ObjectText(members: seq<Field<Json>>, rest: string)
    requires members != []
    ensures var body := JoinFields(Go, PrintMembers(Go, Sorted(members))) + ("}" + rest);
      && Print(Go, Obj(members)) + rest == "{" + body
      && body != "" && body[0] == '"'
  {
    PrintSorted(members);
    var joined := JoinFields(Go, PrintMembers(Go, Sorted(members)));
    assert Print(Go, Obj(members)) == "{" + (joined + "}");
    hide Print, GoQuoted, Sorted;
    Regroup("{", joined + "}", rest);
    Regroup(joined, "}", rest);
    LiteralText(Sorted(members)[0].key, "");
  }

  lemma {:induction false} ItemsFail(items: seq<Json>, rest: string)
    requires exists i | 0 <= i < |items| :: SpellsWithin(items[i])
    ensures ParseItems(JoinItems(PrintItems(Go, items)) + ("]" + rest)) == None
    decreases items, 0
  {
    hide ParseValue, Print, SpellsWithin;
    var first := Print(Go, items[0]);
    SomeOrFirst(items);
    if |items| == 1 {
      assert PrintItems(Go, items) == [first];
      SpelledTextFails(items[0], "]" + rest);
    } else {
      var others := JoinItems(PrintItems(Go, items[1..])) + ("]" + rest);
      assert JoinItems(PrintItems(Go, items)) == first + ("," + JoinItems(PrintItems(Go, items[1..])));
      Regroup(first, "," + JoinItems(PrintItems(Go, items[1..])), "]" + rest);
      Regroup(",", JoinItems(PrintItems(Go, items[1..])), "]" + rest);
      AfterValue(",", others);
      if SpellsWithin(items[0]) {
        SpelledTextFails(items[0], "," + others);
      } else {
        PlainTextIsRead(items[0], "," + others);
        ItemsFail(items[1..], rest);
      }
    }
  }

  lemma {:induction false} MembersFail(members: seq<Field<Json>>, fs: seq<Field<Json>>, rest: string)
    requires forall f :: f in fs ==> f in members
    requires exists i | 0 <= i < |fs| :: SpellsInMember(fs[i])
    ensures ParseMembers(JoinFields(Go, PrintMembers(Go, fs)) + ("}" + rest)) == None
    decreases members, 0, |fs|
  {
    hide ParseMember, Print, FieldText, SpellsInMember;
    var m := fs[0];
    var first := FieldText(Go, Field(m.key, Print(Go, m.value)));
    assert m in members;
    assert PrintMembers(Go, fs)[0] == Field(m.key, Print(Go, m.value));
    if |fs| == 1 {
      assert JoinFields(Go, PrintMembers(Go, fs)) == first;
      MemberFails(m, "}" + rest);
    } else {
      var tail := JoinFields(Go, PrintMembers(Go, fs[1..]));
      var others := tail + ("}" + rest);
      assert PrintMembers(Go, fs)[1..] == PrintMembers(Go, fs[1..]);
      assert JoinFields(Go, PrintMembers(Go, fs)) == first + ("," + tail);
      Regroup(first, "," + tail, "}" + rest);
      Regroup(",", tail, "}" + rest);
      AfterValue(",", others);
      if SpellsInMember(m) {
        MemberFails(m, "," + others);
      } else {
        PlainMemberIsRead(m, "," + others);
        var i :| 0 <= i < |fs| && SpellsInMember(fs[i]);
        assert fs[1..][i - 1] == fs[i];
        MembersFail(members, fs[1..], rest);
      }
    }
  }

  lemma {:induction false} MemberFails(m: Field<Json>, rest: string)
    requires SpellsInMember(m)
    ensures ParseMember(FieldText(Go, Field(m.key, Print(Go, m.value))) + rest) == None
    decreases m, 2
  {
    hide ParseValue, Print, ReadChars, GoQuoted, HoldsSpelling, SpellsWithin, EscapeAll;
    var after := Print(Go, m.value) + rest;
    var s := FieldText(Go, Field(m.key, Print(Go, m.value))) + rest;
    Regroup(GoQuoted(m.key), ":" + Print(Go, m.value), rest);
    Regroup(":", Print(Go, m.value), rest);
    assert s == GoQuoted(m.key) + (":" + after);
    SkipNothing(s) by { LiteralText(m.key, ":" + after); }
    if HoldsSpelling(m.key) {
      LiteralFails(m.key, ":" + after);
    } else {
      WritersAgree(m.key);
      QuotedText(m.key, ":" + after);
      ReadCharsOfEscape(m.key, ":" + after);
      AfterValue(":", after);
      SpelledTextFails(m.value, rest);
    }
  }

  lemma PlainTextIsRead(v: Json, rest: string)
    requires !SpellsWithin(v) && Ends(rest)
    ensures ParseValue(Print(Go, v) + rest) == Some((Canon(v), rest))
  {
    hide Print, SpellsWithin, ParseValue, Canon;
    RuntimesAgree(v);
    PrintWritesCanon(v);
    ParseWrite(Canon(v), rest);
  }

  lemma PlainMemberIsRead(m: Field<Json>, rest: string)
    requires !SpellsInMember(m) && Ends(rest)
    ensures ParseMember(FieldText(Go, Field(m.key, Print(Go, m.value))) + rest) == Some((CanonField(m), rest))
  {
    assert !HoldsSpelling(m.key) && !SpellsWithin(m.value);
    hide Print, SpellsWithin, ParseMember, Canon, Write, GoQuoted, Quoted, HoldsSpelling;
    RuntimesAgree(m.value);
    WritersAgree(m.key);
    PrintWritesCanon(m.value);
    ParseMemberWrite(CanonField(m), rest);
  }

  /** Sorting members and printing them commute. */
  lemma {:induction false} PrintSorted(members: seq<Field<Json>>)
    ensures Sorted(PrintMembers(Go, members)) == PrintMembers(Go, Sorted(members))
    decreases |members|
  {
    hide Print;
    if members != [] {
      PrintSorted(members[1..]);
      PrintInserted(members[0], Sorted(members[1..]));
    }
  }

  lemma {:induction false} PrintInserted(f: Field<Json>, s: seq<Field<Json>>)
    ensures Insert(Field(f.key, Print(Go, f.value)), PrintMembers(Go, s)) == PrintMembers(Go, Insert(f, s))
    decreases |s|
  {
    hide Print;
    if s == [] {
    } else if AtMost(f.key, s[0].key) {
      assert ([f] + s)[1..] == s;
    } else {
      PrintInserted(f, s[1..]);
      assert ([s[0]] + Insert(f, s[1..]))[1..] == Insert(f, s[1..]);
    }
  }

  /** What Go wrote can be read back exactly when nothing is spelled out, and is the value then. */
  lemma GoTextIsRead(v: Json)
    ensures Parse(Print(Go, v)) == if SpellsWithin(v) then None else Some(Canon(v))
  {
    hide Print, SpellsWithin, ParseValue, Canon;
    assert Print(Go, v) + "" == Print(Go, v);
    if SpellsWithin(v) {
      SpelledTextFails(v, "");
    } else {
      PlainTextIsRead(v, "");
    }
  }
}
