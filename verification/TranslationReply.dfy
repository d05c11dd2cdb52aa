/**
 The page translation contract of server/pipeline/translation.py: requests, and the one
 reply a batch accepts (parse_page_response).
 */
module TranslationReply {
  import opened Basics
  import opened Numeral
  import opened JsonTree
  import opened ArtifactRefs
  import opened PyText

  const MAX_PAGE_ITEMS := 512
  const MAX_CONTEXT_ITEMS := 4
  const MAX_CONTEXT_CHARS := 4000
  const MAX_TERMS := 64
  const MAX_STYLE_RULES := 16
  const MAX_FIELD_CHARS := 2000
  const MAX_RESPONSE_CHARS := 256000

  datatype Item = Item(id: string, order: int, kind: string, text: string) {
    predicate Valid() {
      && 0 < |id| <= 256 && order >= 0 && 0 < |kind| <= 64
      && Strip(text) != "" && |text| <= MAX_FIELD_CHARS
    }
  }

  datatype Request = Request(
    source: string,
    target: string,
    items: seq<Item>,
    context: seq<string>,
    terms: seq<(string, string)>,
    style: seq<string>)
  {
    predicate Valid() {
      && (source == "ja" || source == "ko") && (target == "en" || target == "pt-br")
      && 0 < |items| <= MAX_PAGE_ITEMS && InOrder(items)
      && (forall i | 0 <= i < |items| :: items[i].Valid())
      && ValidFrame()
    }

    /** What a change of items leaves alone. */
    predicate ValidFrame() {
      && |context| <= MAX_CONTEXT_ITEMS && TotalChars(context) <= MAX_CONTEXT_CHARS
      && |terms| <= MAX_TERMS && |style| <= MAX_STYLE_RULES
      && (forall i | 0 <= i < |terms| :: terms[i].0 != "" && terms[i].1 != "")
      && (forall i, j | 0 <= i < j < |terms| :: terms[i].0 != terms[j].0)
      && (forall i | 0 <= i < |context| :: |context[i]| <= MAX_FIELD_CHARS)
      && (forall i | 0 <= i < |terms| :: |terms[i].0| <= MAX_FIELD_CHARS && |terms[i].1| <= MAX_FIELD_CHARS)
      && (forall i | 0 <= i < |style| :: |style[i]| <= MAX_FIELD_CHARS)
    }

    function WithItems(others: seq<Item>): Request {
      this.(items := others)
    }
  }

  function TotalChars(texts: seq<string>): nat {
    if texts == [] then 0 else |texts[0]| + TotalChars(texts[1..])
  }

  /** Ids do not repeat and the reading order never falls. */
  predicate InOrder(items: seq<Item>) {
    forall i, j | 0 <= i < j < |items| :: items[i].id != items[j].id && items[i].order <= items[j].order
  }

  function Ids(items: seq<Item>): set<string> {
    set item | item in items :: item.id
  }

  // ----- replies ---------------------------------------------------------------------------

  const VERSION: Json := Num(Lexeme(false, "1", "", None))

  /** The translations of an envelope of just the two members, version 1. */
  function Envelope(v: Json): Option<seq<Field<Json>>> {
    if !v.Obj? || |v.members| != 2 then None
    else
      var t := Get(v.members, "translations");
      if Get(v.members, "schema_version") == Some(VERSION) && t.Some? && t.value.Obj? then Some(t.value.members)
      else None
  }

  /** Every member names a submitted id and holds some text. */
  predicate Answers(members: seq<Field<Json>>, ids: set<string>) {
    forall i | 0 <= i < |members| ::
      members[i].key in ids && members[i].value.Str? && Strip(members[i].value.s) != ""
  }

  function Texts(members: seq<Field<Json>>): map<string, string>
    requires forall i | 0 <= i < |members| :: members[i].value.Str?
  {
    if members == [] then map[]
    else Texts(members[1..])[members[0].key := Strip(members[0].value.s)]
  }

  /** `parse_page_response`; `None` is a contract error. Ids may be missing. */
  function ParseReply(raw: string, ids: set<string>): Option<map<string, string>> {
    if |raw| > MAX_RESPONSE_CHARS then None
    else
      var v := Parse(raw);
      if v == None || !WellFormed(v.value) || Envelope(v.value) == None then None
      else
        var members := Envelope(v.value).value;
        if Answers(members, ids) then Some(Texts(members)) else None
  }

  predicate Maps(texts: map<string, string>, id: string, text: string) {
    id in texts && texts[id] == text
  }

  predicate HoldsAt(ts: seq<Field<Json>>, i: int, id: string, text: string) {
    0 <= i < |ts| && ts[i].key == id && ts[i].value.Str? && Strip(ts[i].value.s) == text
  }

  ghost predicate HoldsText(ts: seq<Field<Json>>, id: string, text: string) {
    exists i :: HoldsAt(ts, i, id, text)
  }

  /** Every member is a string, and the map is these strings, stripped. */
  ghost predicate SpellsTexts(ts: seq<Field<Json>>, texts: map<string, string>) {
    && (forall i | 0 <= i < |ts| :: ts[i].value.Str?)
    && forall id, text :: Maps(texts, id, text) <==> HoldsText(ts, id, text)
  }

  lemma {:induction false} TextsAre(ts: seq<Field<Json>>)
    requires Distinct(ts) && forall i | 0 <= i < |ts| :: ts[i].value.Str?
    ensures SpellsTexts(ts, Texts(ts))
    decreases |ts|
  {
    hide Strip;
    if ts != [] {
      var rest := ts[1..];
      TextsAre(rest);
      forall id, text ensures Maps(Texts(ts), id, text) <==> HoldsText(ts, id, text) {
        HoldsFirst(ts, id, text);
        assert Maps(Texts(rest), id, text) <==> HoldsText(rest, id, text);
        assert HoldsText(rest, id, text) ==> id != ts[0].key;
      }
    } else {
      forall id, text ensures !HoldsText(ts, id, text) {
      }
    }
  }

  lemma HoldsFirst(ts: seq<Field<Json>>, id: string, text: string)
    requires ts != [] && ts[0].value.Str?
    ensures HoldsText(ts, id, text) <==> (ts[0].key == id && Strip(ts[0].value.s) == text) || HoldsText(ts[1..], id, text)
  {
    hide Strip;
    if i :| HoldsAt(ts, i, id, text) && i > 0 {
      assert HoldsAt(ts[1..], i - 1, id, text);
    }
    if i :| HoldsAt(ts[1..], i, id, text) {
      assert HoldsAt(ts, i + 1, id, text);
    }
    if ts[0].key == id && Strip(ts[0].value.s) == text {
      assert HoldsAt(ts, 0, id, text);
    }
  }

  lemma SpelledOnce(ts: seq<Field<Json>>, a: map<string, string>, b: map<string, string>)
    requires SpellsTexts(ts, a) && SpellsTexts(ts, b)
    ensures a == b
  {
    hide HoldsText;
    forall id ensures id in a <==> id in b {
      assert id in a ==> Maps(a, id, a[id]);
      assert id in b ==> Maps(b, id, b[id]);
    }
    forall id | id in a ensures a[id] == b[id] {
      assert Maps(a, id, a[id]);
    }
  }

  /** The document an accepted reply spells out, apart from its layout. */
  ghost predicate Spells(v: Json, texts: map<string, string>) {
    && v.Obj? && |v.members| == 2 && Field("schema_version", VERSION) in v.members
    && exists ts :: Field("translations", Obj(ts)) in v.members && Distinct(ts) && SpellsTexts(ts, texts)
  }

  /**
   A reply is accepted exactly when it is one JSON text, no object repeats a key, and it
   spells the envelope with non-empty texts for submitted ids; those texts are the result.
   */
  lemma AcceptedReply(raw: string, ids: set<string>, texts: map<string, string>)
    ensures ParseReply(raw, ids) == Some(texts) ==>
              && texts.Keys <= ids && (forall id | id in texts :: texts[id] != "" && Trimmed(texts[id]))
              && Parse(raw).Some? && WellFormed(Parse(raw).value) && Spells(Parse(raw).value, texts)
    ensures |raw| <= MAX_RESPONSE_CHARS && Parse(raw).Some? && WellFormed(Parse(raw).value)
            && Spells(Parse(raw).value, texts) && texts.Keys <= ids && (forall id | id in texts :: texts[id] != "") ==>
              ParseReply(raw, ids) == Some(texts)
  {
    hide Parse, Strip, Blank;
    if Parse(raw).Some? && WellFormed(Parse(raw).value) && Parse(raw).value.Obj? {
      var members := Parse(raw).value.members;
      GetIs(members, "schema_version");
      GetIs(members, "translations");
      hide Get;
      if ParseReply(raw, ids) == Some(texts) {
        AcceptedSpells(members, ids, texts);
      }
      if Spells(Parse(raw).value, texts) && texts.Keys <= ids && forall id | id in texts :: texts[id] != "" {
        SpelledIsAccepted(members, ids, texts);
      }
    }
  }

  lemma AcceptedSpells(members: seq<Field<Json>>, ids: set<string>, texts: map<string, string>)
    requires WellFormed(Obj(members)) && Envelope(Obj(members)).Some?
    requires Answers(Envelope(Obj(members)).value, ids) && texts == Texts(Envelope(Obj(members)).value)
    ensures texts.Keys <= ids && (forall id | id in texts :: texts[id] != "" && Trimmed(texts[id]))
    ensures Spells(Obj(members), texts)
  {
    hide Strip, Blank;
    GetIs(members, "schema_version");
    GetIs(members, "translations");
    var ts := Envelope(Obj(members)).value;
    assert Field("translations", Obj(ts)) in members;
    TextsAre(ts);
    hide Texts, Get;
    assert SpellsTexts(ts, texts);
    forall id | id in texts ensures id in ids && texts[id] != "" && Trimmed(texts[id]) {
      assert Maps(texts, id, texts[id]);
      var i :| HoldsAt(ts, i, id, texts[id]);
      StripIsTrimmed(ts[i].value.s);
    }
  }

  lemma SpelledIsAccepted(members: seq<Field<Json>>, ids: set<string>, texts: map<string, string>)
    requires WellFormed(Obj(members)) && Spells(Obj(members), texts)
    requires texts.Keys <= ids && forall id | id in texts :: texts[id] != ""
    ensures Envelope(Obj(members)).Some? && Answers(Envelope(Obj(members)).value, ids)
    ensures Texts(Envelope(Obj(members)).value) == texts
  {
    hide Strip, Blank;
    GetIs(members, "schema_version");
    GetIs(members, "translations");
    var ts: seq<Field<Json>> :| Field("translations", Obj(ts)) in members && Distinct(ts) && SpellsTexts(ts, texts);
    TextsAre(ts);
    hide Texts, Get;
    assert Envelope(Obj(members)) == Some(ts);
    forall i | 0 <= i < |ts| ensures ts[i].key in ids && ts[i].value.Str? && Strip(ts[i].value.s) != "" {
      assert HoldsAt(ts, i, ts[i].key, Strip(ts[i].value.s));
      assert Maps(texts, ts[i].key, Strip(ts[i].value.s));
    }
    SpelledOnce(ts, Texts(ts), texts);
  }
}
