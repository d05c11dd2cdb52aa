/**
 JSON trees, their canonical text (canonical_json in server/pipeline/document.py and
 writeCanonicalJSON in server/cache.go) and a reader for RFC 8259 texts.
 */
module JsonTree {
  import opened Basics
  import opened Numeral
  import opened NumberForm
  import opened NumberRender
  import opened JsonString

  type ValidLexeme = l: Lexeme | Valid(l) witness Lexeme(false, "0", "", None)

  datatype Field<V> = Field(key: string, value: V)

  /** An object's members are in the order they were inserted or read. */
  datatype Json =
    | Null
    | Bool(b: bool)
    | Num(lexeme: ValidLexeme)
    | Str(s: string)
    | Arr(items: seq<Json>)
    | Obj(members: seq<Field<Json>>)

  predicate Distinct<V>(fields: seq<Field<V>>) {
    forall i, j | 0 <= i < j < |fields| :: fields[i].key != fields[j].key
  }

  /** Keys do not repeat, as in a dict or a Go map. */
  predicate WellFormed(v: Json) {
    match v
    case Arr(items) => forall i | 0 <= i < |items| :: WellFormed(items[i])
    case Obj(members) => Distinct(members) && forall i | 0 <= i < |members| :: WellFormed(members[i].value)
    case _ => true
  }

  // ----- ordering keys ----------------------------------------------------------------

  /** By code point, as Python compares strings. */
  predicate AtMost(a: string, b: string) {
    a == "" || (b != "" && (a[0] < b[0] || (a[0] == b[0] && AtMost(a[1..], b[1..]))))
  }

  lemma {:induction false} AtMostTotal(a: string, b: string)
    ensures AtMost(a, b) || AtMost(b, a)
    ensures AtMost(a, b) && AtMost(b, a) ==> a == b
  {
    if a != "" && b != "" && a[0] == b[0] {
      AtMostTotal(a[1..], b[1..]);
      assert a == [a[0]] + a[1..] && b == [b[0]] + b[1..];
    }
  }

  lemma {:induction false} AtMostTransitive(a: string, b: string, c: string)
    requires AtMost(a, b) && AtMost(b, c)
    ensures AtMost(a, c)
  {
    if a != "" && a[0] == b[0] && b[0] == c[0] {
      AtMostTransitive(a[1..], b[1..], c[1..]);
    }
  }

  function Insert<V(!new)>(f: Field<V>, s: seq<Field<V>>): (r: seq<Field<V>>)
    ensures |r| == |s| + 1
    ensures forall g :: g in r <==> g == f || g in s
  {
    if s == [] then [f]
    else if AtMost(f.key, s[0].key) then [f] + s
    else
      var r := Insert(f, s[1..]);
      assert s == [s[0]] + s[1..];
      [s[0]] + r
  }

  /** The members in ascending order of their keys. */
  function Sorted<V(!new)>(s: seq<Field<V>>): (r: seq<Field<V>>)
    ensures |r| == |s|
    ensures forall g :: g in r <==> g in s
  {
    if s == [] then []
    else
      assert s == [s[0]] + s[1..];
      Insert(s[0], Sorted(s[1..]))
  }

  predicate Ascending<V>(s: seq<Field<V>>) {
    forall i, j | 0 <= i < j < |s| :: AtMost(s[i].key, s[j].key) && s[i].key != s[j].key
  }

  lemma {:induction false} InsertAscends<V(!new)>(f: Field<V>, s: seq<Field<V>>)
    requires Ascending(s) && forall i | 0 <= i < |s| :: s[i].key != f.key
    ensures Ascending(Insert(f, s))
  {
    if s != [] {
      AtMostTotal(f.key, s[0].key);
      if AtMost(f.key, s[0].key) {
        forall i | 0 <= i < |s| ensures AtMost(f.key, s[i].key) {
          if i > 0 {
            AtMostTransitive(f.key, s[0].key, s[i].key);
          }
        }
      } else {
        InsertAscends(f, s[1..]);
        var r := Insert(f, s[1..]);
        forall i | 0 <= i < |r| ensures AtMost(s[0].key, r[i].key) && s[0].key != r[i].key {
          assert r[i] in r;
          if r[i] != f {
            var k :| 0 <= k < |s| - 1 && s[1..][k] == r[i];
            assert r[i] == s[k + 1];
          }
        }
      }
    }
  }

  lemma {:induction false} SortedAscends<V(!new)>(s: seq<Field<V>>)
    requires Distinct(s)
    ensures Ascending(Sorted(s))
  {
    if s != [] {
      SortedAscends(s[1..]);
      var r := Sorted(s[1..]);
      forall i | 0 <= i < |r| ensures r[i].key != s[0].key {
        assert r[i] in r;
        var k :| 0 <= k < |s| - 1 && s[1..][k] == r[i];
        assert r[i] == s[k + 1];
      }
      InsertAscends(s[0], r);
    }
  }

  /** An ascending sequence is known by its elements. */
  lemma {:induction false} AscendingIsUnique<V(!new)>(s: seq<Field<V>>, t: seq<Field<V>>)
    requires Ascending(s) && Ascending(t) && |s| == |t|
    requires forall f :: f in s <==> f in t
    ensures s == t
    decreases |s|
  {
    if s != [] {
      FirstsAgree(s, t);
      assert s == [s[0]] + s[1..] && t == [t[0]] + t[1..];
      forall f ensures f in s[1..] <==> f in t[1..] {
        TailElements(s, f);
        TailElements(t, f);
      }
      AscendingIsUnique(s[1..], t[1..]);
    }
  }

  lemma FirstsAgree<V(!new)>(s: seq<Field<V>>, t: seq<Field<V>>)
    requires Ascending(s) && Ascending(t) && s != [] && t != []
    requires forall f :: f in s <==> f in t
    ensures s[0] == t[0]
  {
    assert s[0] in t && t[0] in s;
    var i :| 0 <= i < |t| && t[i] == s[0];
    var j :| 0 <= j < |s| && s[j] == t[0];
    if i != 0 && j != 0 {
      AtMostTotal(s[0].key, t[0].key);
      assert false;
    }
  }

  lemma TailElements<V(!new)>(s: seq<Field<V>>, f: Field<V>)
    requires Ascending(s) && s != []
    ensures f in s[1..] <==> f in s && f != s[0]
  {
    if f in s && f != s[0] {
      var i :| 0 <= i < |s| && s[i] == f;
      assert s[1..][i - 1] == f;
    }
  }

  // ----- the canonical text -----------------------------------------------------------

  datatype Runtime = Python | Go

  function Literal(rt: Runtime, s: string): string {
    match rt case Python => Quoted(s) case Go => GoQuoted(s)
  }

  function Print(rt: Runtime, v: Json): string
    decreases v
  {
    match v
    case Null => "null"
    case Bool(b) => if b then "true" else "false"
    case Num(l) => Render(NormOf(l))
    case Str(s) => Literal(rt, s)
    case Arr(items) => "[" + (JoinItems(PrintItems(rt, items)) + "]")
    case Obj(members) => "{" + (JoinFields(rt, Sorted(PrintMembers(rt, members))) + "}")
  }

  function PrintItems(rt: Runtime, items: seq<Json>): (r: seq<string>)
    ensures |r| == |items|
    decreases items
  {
    if items == [] then [] else [Print(rt, items[0])] + PrintItems(rt, items[1..])
  }

  function PrintMembers(rt: Runtime, members: seq<Field<Json>>): (r: seq<Field<string>>)
    ensures |r| == |members|
    decreases members
  {
    if members == [] then []
    else [Field(members[0].key, Print(rt, members[0].value))] + PrintMembers(rt, members[1..])
  }

  function JoinItems(texts: seq<string>): string {
    if texts == [] then ""
    else if |texts| == 1 then texts[0]
    else texts[0] + ("," + JoinItems(texts[1..]))
  }

  function FieldText(rt: Runtime, f: Field<string>): string {
    Literal(rt, f.key) + (":" + f.value)
  }

  function JoinFields(rt: Runtime, fields: seq<Field<string>>): string {
    if fields == [] then ""
    else if |fields| == 1 then FieldText(rt, fields[0])
    else FieldText(rt, fields[0]) + ("," + JoinFields(rt, fields[1..]))
  }

  // ----- reading ----------------------------------------------------------------------

  predicate IsSpace(c: char) {
    c == ' ' || c == '\t' || c == '\n' || c == '\r'
  }

  function Skip(s: string): (r: string)
    ensures |r| <= |s|
  {
    if s != "" && IsSpace(s[0]) then Skip(s[1..]) else s
  }

  predicate At(s: string, c: char) {
    s != "" && s[0] == c
  }

  function ParseValue(text: string): (r: Option<(Json, string)>)
    ensures r.Some? ==> |r.value.1| < |text|
    decreases |text|, 0
  {
    var s := Skip(text);
    if StartsWith(s, "null") then Some((Null, s[4..]))
    else if StartsWith(s, "true") then Some((Bool(true), s[4..]))
    else if StartsWith(s, "false") then Some((Bool(false), s[5..]))
    else if At(s, '"') then
      var r := ReadChars(s[1..]);
      if r.None? then None else Some((Str(r.value.0), r.value.1))
    else if At(s, '[') then
      if At(Skip(s[1..]), ']') then Some((Arr([]), Skip(s[1..])[1..]))
      else
        var r := ParseItems(s[1..]);
        if r.None? then None else Some((Arr(r.value.0), r.value.1))
    else if At(s, '{') then
      if At(Skip(s[1..]), '}') then Some((Obj([]), Skip(s[1..])[1..]))
      else
        var r := ParseMembers(s[1..]);
        if r.None? then None else Some((Obj(r.value.0), r.value.1))
    else ParseNumber(s)
  }

  function ParseNumber(s: string): (r: Option<(Json, string)>)
    ensures r.Some? ==> |r.value.1| < |s|
  {
    var r := Scan(s);
    if r.None? then None else ScanSpells(s); Some((Num(r.value.0), r.value.1))
  }

  /** Values separated by commas, up to the closing bracket. */
  function ParseItems(text: string): (r: Option<(seq<Json>, string)>)
    ensures r.Some? ==> |r.value.1| < |text|
    decreases |text|, 1
  {
    var first := ParseValue(text);
    if first.None? then None
    else
      var s := Skip(first.value.1);
      if At(s, ']') then Some(([first.value.0], s[1..]))
      else if At(s, ',') then
        var others := ParseItems(s[1..]);
        if others.None? then None else Some(([first.value.0] + others.value.0, others.value.1))
      else None
  }

  /** A key, its colon and its value. */
  function ParseMember(text: string): (r: Option<(Field<Json>, string)>)
    ensures r.Some? ==> |r.value.1| < |text|
    decreases |text|, 1
  {
    var s := Skip(text);
    if !At(s, '"') then None
    else
      var key := ReadChars(s[1..]);
      if key.None? || !At(Skip(key.value.1), ':') then None
      else
        var v := ParseValue(Skip(key.value.1)[1..]);
        if v.None? then None else Some((Field(key.value.0, v.value.0), v.value.1))
  }

  /** Members separated by commas, up to the closing brace. */
  function ParseMembers(text: string): (r: Option<(seq<Field<Json>>, string)>)
    ensures r.Some? ==> |r.value.1| < |text|
    decreases |text|, 2
  {
    var first := ParseMember(text);
    if first.None? then None
    else
      var s := Skip(first.value.1);
      if At(s, '}') then Some(([first.value.0], s[1..]))
      else if At(s, ',') then
        var others := ParseMembers(s[1..]);
        if others.None? then None else Some(([first.value.0] + others.value.0, others.value.1))
      else None
  }

  /** A whole text. */
  function Parse(text: string): Option<Json> {
    var r := ParseValue(text);
    if r.Some? && Skip(r.value.1) == "" then Some(r.value.0) else None
  }
}
