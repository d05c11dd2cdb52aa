/**
 The binary64 step in front of the number writers.  A numeral with a fraction or an
 exponent is parsed as a float and spelled again (ParseFloat and FormatFloat in
 server/cache.go, float and repr in server/pipeline/document.py); any other is kept as
 it is.  Which numeral is left, and which are refused, is a parameter.
 */
module Rounding {
  import opened Basics
  import opened Numeral
  import opened NumberForm
  import opened NumberRender
  import opened GoNumber
  import opened JsonTree

  /** None where the runtime refuses the number. */
  type Binary64 = ValidLexeme -> Option<ValidLexeme>

  predicate Whole(l: Lexeme) {
    l.frac == "" && l.exp == None
  }

  predicate NumberAccepted(f: Binary64, l: ValidLexeme) {
    Whole(l) || f(l).Some?
  }

  /** The numeral that reaches the writer. */
  function RoundNumber(f: Binary64, l: ValidLexeme): ValidLexeme {
    if Whole(l) || f(l) == None then l else f(l).value
  }

  predicate Accepted(f: Binary64, v: Json)
    decreases v
  {
    match v
    case Num(l) => NumberAccepted(f, l)
    case Arr(items) => forall i | 0 <= i < |items| :: Accepted(f, items[i])
    case Obj(members) => forall i | 0 <= i < |members| :: Accepted(f, members[i].value)
    case _ => true
  }

  /** The tree with every number rounded. */
  function Rounded(f: Binary64, v: Json): Json
    decreases v
  {
    match v
    case Num(l) => Num(RoundNumber(f, l))
    case Arr(items) => Arr(seq(|items|, i requires 0 <= i < |items| => Rounded(f, items[i])))
    case Obj(members) =>
      Obj(seq(|members|, i requires 0 <= i < |members| => Field(members[i].key, Rounded(f, members[i].value))))
    case _ => v
  }

  /** An array's items, rounded one by one. */
  lemma RoundedArr(f: Binary64, items: seq<Json>) returns (left: seq<Json>)
    ensures Rounded(f, Arr(items)) == Arr(left) && |left| == |items|
    ensures forall i | 0 <= i < |items| :: left[i] == Rounded(f, items[i])
  {
    left := Rounded(f, Arr(items)).items;
  }

  /** An object's members, their values rounded and their keys as they were. */
  lemma RoundedObj(f: Binary64, members: seq<Field<Json>>) returns (left: seq<Field<Json>>)
    ensures Rounded(f, Obj(members)) == Obj(left) && |left| == |members|
    ensures forall i | 0 <= i < |members| :: left[i] == Field(members[i].key, Rounded(f, members[i].value))
  {
    left := Rounded(f, Obj(members)).members;
  }

  /** Floats have short exponents, so none of those left wraps in 64 bits. */
  ghost predicate Moderate(f: Binary64) {
    forall l: ValidLexeme | f(l).Some? :: InRange(f(l).value)
  }

  predicate InRange(l: ValidLexeme) {
    FitsInt(l.exp) && (NormOf(l).Scientific? ==> IsInt64(ScientificExponent(NormOf(l))))
  }

  /** No text is longer than a 64-bit length. */
  predicate Storable(v: Json)
    decreases v
  {
    match v
    case Num(l) => |l.whole| <= MAX_INT
    case Arr(items) => forall i | 0 <= i < |items| :: Storable(items[i])
    case Obj(members) => forall i | 0 <= i < |members| :: Storable(members[i].value)
    case _ => true
  }

  lemma RoundedInRange(f: Binary64, l: ValidLexeme)
    requires Moderate(f) && NumberAccepted(f, l) && |l.whole| <= MAX_INT
    ensures InRange(RoundNumber(f, l))
    ensures GoNormalized(Spell(RoundNumber(f, l))) == Some(Render(NormOf(RoundNumber(f, l))))
  {
    var m := RoundNumber(f, l);
    if Whole(l) {
      WholeInRange(l);
    }
    hide NormOf, Render, Normalized, Spell, GoNormalized, ScientificExponent, IsInt64, FitsInt;
    if NormOf(m).Scientific? {
      RightUnlessWrapped(m);
    } else {
      ZeroIsRight(m);
    }
    NormalizedIs(m);
  }

  lemma NormalizedIs(l: ValidLexeme)
    ensures Normalized(Spell(l)) == Some(Render(NormOf(l)))
  {
    hide Read, Spell, NormOf;
    ReadIsTheGrammar(Spell(l), l);
  }

  lemma WholeInRange(l: ValidLexeme)
    requires Whole(l) && |l.whole| <= MAX_INT
    ensures InRange(l)
  {
    assert l.whole + l.frac == l.whole;
    assert TrimLeft(l.whole) == if l.whole == "0" then "" else l.whole;
  }
}
