/**
 The texts of writeCanonicalJSON in server/cache.go and canonical_json in
 server/pipeline/document.py once each has put the numbers through its own binary64 step,
 and when they are the same bytes.
 */
module Runtimes {
  import opened Basics
  import opened Numeral
  import opened NumberForm
  import opened NumberRender
  import opened JsonTree
  import opened CanonicalJson
  import opened JsonWriter
  import opened GoReader
  import opened Rounding
  import Doubles

  // ----- with the binary64 steps ----------------------------------------------------------

  /** What a runtime with this binary64 step writes; None when it refuses a number. */
  function Text(rt: Runtime, f: Binary64, v: Json): Option<string> {
    if Accepted(f, v) then Some(Print(rt, Rounded(f, v))) else None
  }

  lemma {:induction false} RoundedWellFormed(f: Binary64, v: Json)
    requires WellFormed(v)
    ensures WellFormed(Rounded(f, v))
    decreases v
  {
    match v {
      case Arr(items) =>
        var left := RoundedArr(f, items);
        forall i | 0 <= i < |left| ensures WellFormed(left[i]) {
          RoundedWellFormed(f, items[i]);
        }
      case Obj(members) =>
        var left := RoundedObj(f, members);
        forall i | 0 <= i < |left| ensures WellFormed(left[i].value) {
          RoundedWellFormed(f, members[i].value);
        }
        assert Distinct(left);
      case _ =>
    }
  }

  /** Rounding leaves every string as it is. */
  lemma {:induction false} RoundedSpells(f: Binary64, v: Json)
    ensures SpellsWithin(Rounded(f, v)) <==> SpellsWithin(v)
    decreases v
  {
    match v {
      case Arr(items) =>
        var left := RoundedArr(f, items);
        forall i | 0 <= i < |items| ensures SpellsWithin(left[i]) <==> SpellsWithin(items[i]) {
          RoundedSpells(f, items[i]);
        }
      case Obj(members) =>
        var left := RoundedObj(f, members);
        forall i | 0 <= i < |members| ensures SpellsWithin(left[i].value) <==> SpellsWithin(members[i].value) {
          RoundedSpells(f, members[i].value);
        }
      case _ =>
    }
  }

  /**
   A Go server and a Python worker write the same bytes for a tree exactly when both accept
   its numbers, no string spells a separator out, and the two rounded trees are one value.
   */
  lemma TextsAgree(f: Binary64, g: Binary64, v: Json)
    requires WellFormed(v)
    ensures Text(Go, f, v).Some? && Text(Go, f, v) == Text(Python, g, v)
       <==> Accepted(f, v) && Accepted(g, v) && !SpellsWithin(v) && Same(Rounded(f, v), Rounded(g, v))
  {
    hide Print, SpellsWithin, Canon, Same, Parse, Accepted, Rounded;
    var a, b := Rounded(f, v), Rounded(g, v);
    RoundedWellFormed(f, v);
    RoundedWellFormed(g, v);
    RoundedSpells(f, v);
    RuntimesAgree(a);
    GoTextIsRead(a);
    RoundTrip(b);
    SameTextIsSameValue(a, b);
  }

  /** What a Python worker wrote reads back as the rounded tree. */
  lemma PythonTextIsRead(g: Binary64, v: Json)
    requires Accepted(g, v)
    ensures Parse(Text(Python, g, v).value) == Some(Canon(Rounded(g, v)))
  {
    hide Print, Parse, Canon, Rounded;
    RoundTrip(Rounded(g, v));
  }

  /** Two trees a Python worker accepts get one text exactly when they round to one value. */
  lemma PythonTextsAgree(g: Binary64, a: Json, b: Json)
    requires WellFormed(a) && WellFormed(b) && Accepted(g, a) && Accepted(g, b)
    ensures Text(Python, g, a) == Text(Python, g, b) <==> Same(Rounded(g, a), Rounded(g, b))
  {
    hide Print, Same, Rounded;
    RoundedWellFormed(g, a);
    RoundedWellFormed(g, b);
    SameTextIsSameValue(Rounded(g, a), Rounded(g, b));
  }

  // ----- the two steps -----------------------------------------------------------------------

  /** coefficient * 10^exponent without its sign. */
  function Magnitude(l: ValidLexeme): (x: real)
    ensures x >= 0.0
  {
    var d := ValueOf(l);
    if d.exponent >= 0 then (Abs(d.coefficient) * Pow10(d.exponent)) as real
    else Abs(d.coefficient) as real / Pow10(-d.exponent) as real
  }

  const STEPS: nat := 1022

  function NearestDouble(l: ValidLexeme): real {
    Doubles.Double(Magnitude(l), STEPS)
  }

  /** From 2^1024 on there are no doubles. */
  ghost predicate Overflows(l: ValidLexeme) {
    NearestDouble(l) >= Doubles.Pow2(1024) as real
  }

  /** Not zero, but nearer to zero than to any other double. */
  ghost predicate Vanishes(l: ValidLexeme) {
    NormOf(l) != Zero && NearestDouble(l) == 0.0
  }

  /** ParseFloat refuses what overflows; FormatFloat spells zero for what rounds to it, and only then. */
  ghost predicate ServerStep(f: Binary64) {
    forall l: ValidLexeme | !Whole(l) ::
      && (f(l) == None <==> Overflows(l))
      && (f(l).Some? ==> (NormOf(f(l).value) == Zero <==> NearestDouble(l) == 0.0))
  }

  /**
   float refuses the same and _canonical_number also what vanishes; repr and FormatFloat
   both spell the shortest numeral of a double.
   */
  ghost predicate WorkerStep(f: Binary64, g: Binary64) {
    forall l: ValidLexeme | !Whole(l) ::
      && (g(l) == None <==> f(l) == None || Vanishes(l))
      && (f(l).Some? && g(l).Some? ==> NormOf(f(l).value) == NormOf(g(l).value))
  }

  /** Every number in the tree is an integer or rounds to a finite double, and to zero only if it is zero. */
  ghost predicate Kept(v: Json)
    decreases v
  {
    match v
    case Num(l) => Whole(l) || !(Overflows(l) || Vanishes(l))
    case Arr(items) => forall i | 0 <= i < |items| :: Kept(items[i])
    case Obj(members) => forall i | 0 <= i < |members| :: Kept(members[i].value)
    case _ => true
  }

  lemma {:induction false} KeptIsAccepted(f: Binary64, g: Binary64, v: Json)
    requires ServerStep(f) && WorkerStep(f, g)
    ensures Accepted(g, v) <==> Kept(v)
    ensures Kept(v) ==> Accepted(f, v) && Canon(Rounded(f, v)) == Canon(Rounded(g, v))
    decreases v
  {
    hide Overflows, Vanishes, NormOf, LexemeOf;
    match v {
      case Arr(items) =>
        var left := RoundedArr(f, items);
        var right := RoundedArr(g, items);
        forall i | 0 <= i < |items|
          ensures Accepted(g, items[i]) <==> Kept(items[i])
          ensures Kept(items[i]) ==> Accepted(f, items[i]) && Canon(left[i]) == Canon(right[i])
        {
          KeptIsAccepted(f, g, items[i]);
        }
        if Kept(v) {
          assert CanonItems(left) == CanonItems(right);
        }
      case Obj(members) =>
        var left := RoundedObj(f, members);
        var right := RoundedObj(g, members);
        forall i | 0 <= i < |members|
          ensures Accepted(g, members[i].value) <==> Kept(members[i].value)
          ensures Kept(members[i].value) ==>
            Accepted(f, members[i].value) && Canon(left[i].value) == Canon(right[i].value)
        {
          KeptIsAccepted(f, g, members[i].value);
        }
        if Kept(v) {
          assert CanonMembers(left) == CanonMembers(right);
        }
      case _ =>
    }
  }

  /**
   The server and a worker write the same bytes for exactly the trees that spell no separator
   out and hold no number that overflows or vanishes.
   */
  lemma ServerAndWorkerAgree(f: Binary64, g: Binary64, v: Json)
    requires WellFormed(v) && ServerStep(f) && WorkerStep(f, g)
    ensures Text(Go, f, v).Some? && Text(Go, f, v) == Text(Python, g, v) <==> !SpellsWithin(v) && Kept(v)
  {
    hide Print, SpellsWithin, Canon, Same, Accepted, Rounded, Kept, ServerStep, WorkerStep;
    TextsAgree(f, g, v);
    KeptIsAccepted(f, g, v);
    RoundedWellFormed(f, v);
    RoundedWellFormed(g, v);
    SameIsCanon(Rounded(f, v), Rounded(g, v));
  }

  // ----- what vanishes -------------------------------------------------------------------------

  /** What rounds to zero is at most half the least double. */
  lemma RoundsToZero(x: real, steps: nat)
    requires x >= 0.0
    ensures Doubles.Double(x, steps) == 0.0 <==> x <= Doubles.Least(steps) / 2.0
  {
    hide Doubles.UnitAbove, Doubles.UnitBelow, Doubles.Unit, Doubles.Least;
    var u := Doubles.Unit(x, steps);
    assert Doubles.HALF as real * u > u / 2.0;
    var q := Doubles.Quotient(x, u);
    Doubles.ProductGrows(q, 0.5, u);
    Doubles.ProductGrows(0.0, q, u);
    if Doubles.Round(q) != 0 {
      Doubles.ProductGrows(Doubles.Round(q) as real, 0.0, u);
      Doubles.ProductGrows(0.0, Doubles.Round(q) as real, u);
    }
  }

  /** The least double is 2^-1074. */
  lemma {:induction false} LeastIs(steps: nat)
    ensures Doubles.Least(steps) * Doubles.Pow2(52 + steps) as real == 1.0
  {
    if steps == 0 {
      Doubles.Powers();
    } else {
      LeastIs(steps - 1);
      assert Doubles.Pow2(52 + steps) == 2 * Doubles.Pow2(52 + (steps - 1));
    }
  }

  lemma {:induction false} TensExceedEights(k: nat)
    ensures Doubles.Pow2(3 * k) <= Pow10(k)
  {
    if k > 0 {
      TensExceedEights(k - 1);
      assert Doubles.Pow2(3 * k) == 2 * Doubles.Pow2(3 * k - 1) == 4 * Doubles.Pow2(3 * k - 2) == 8 * Doubles.Pow2(3 * (k - 1));
    }
  }

  const TINY := Lexeme(false, "1", "", Some(Exponent(false, Minus, "400")))

  lemma TinyVanishes()
    ensures Valid(TINY) && !Whole(TINY) && Vanishes(TINY) && !Overflows(TINY)
  {
    hide Magnitude, NormOf, NearestDouble, Doubles.Pow2, Pow10, Vanishes, Overflows;
    TinyIs();
    TensExceedEights(400);
    Doubles.PowersGrow(1075, 1200);
    Ratio(Doubles.Pow2(1075), Pow10(400));
    VanishesWhen(TINY);
    VanishingIsFinite(TINY);
  }

  lemma VanishingIsFinite(l: ValidLexeme)
    requires Vanishes(l)
    ensures !Overflows(l)
  {
    hide Doubles.Double, Magnitude, Doubles.Pow2;
  }

  lemma Ratio(p: int, q: nat)
    requires 0 < p <= q
    ensures (1.0 / q as real) * p as real <= 1.0
  {
    assert (1.0 / q as real) * q as real == 1.0;
  }

  lemma TinyIs()
    ensures Valid(TINY) && NormOf(TINY) != Zero && Magnitude(TINY) == 1.0 / Pow10(400) as real
  {
    assert "1" + "" == "1";
    assert Nat("1") == 1 by { assert "1"[..0] == ""; }
    assert Nat("400") == 400 by { assert "400"[..2] == "40" && "40"[..1] == "4" && "4"[..0] == ""; }
    assert TrimLeft("1") == "1";
    hide Pow10;
  }

  /** Exactly the numbers up to 2^-1075 that are not zero. */
  lemma VanishesWhen(l: ValidLexeme)
    ensures Vanishes(l) <==> NormOf(l) != Zero && Magnitude(l) * Doubles.Pow2(1075) as real <= 1.0
  {
    hide Magnitude, NormOf, Doubles.Pow2, Doubles.Double;
    NearestIsZero(Magnitude(l));
  }

  lemma NearestIsZero(x: real)
    requires x >= 0.0
    ensures Doubles.Double(x, STEPS) == 0.0 <==> x * Doubles.Pow2(1075) as real <= 1.0
  {
    hide Doubles.Double, Doubles.Least, Doubles.Pow2;
    RoundsToZero(x, STEPS);
    LeastIs(STEPS);
    Doubled(1074);
    HalfOfLeast(x, Doubles.Least(STEPS), Doubles.Pow2(1074) as real);
  }

  lemma Doubled(k: nat)
    ensures Doubles.Pow2(k + 1) == 2 * Doubles.Pow2(k)
  {
  }

  lemma HalfOfLeast(x: real, least: real, p: real)
    requires least * p == 1.0 && p > 0.0
    ensures x <= least / 2.0 <==> x * (2.0 * p) <= 1.0
  {
    assert (least / 2.0) * (2.0 * p) == 1.0;
    if x <= least / 2.0 {
      assert x * (2.0 * p) <= (least / 2.0) * (2.0 * p);
    } else {
      assert x * (2.0 * p) > (least / 2.0) * (2.0 * p);
    }
  }

  /** For a number that vanishes, such as 1e-400, the server writes 0 and a worker refuses. */
  lemma TheServerWritesZero(f: Binary64, g: Binary64, l: ValidLexeme)
    requires ServerStep(f) && WorkerStep(f, g) && !Whole(l) && Vanishes(l)
    ensures Text(Go, f, Num(l)) == Some("0") && Text(Python, g, Num(l)) == None
  {
    hide NormOf, NearestDouble;
    VanishingIsFinite(l);
  }

  // ----- such steps exist ----------------------------------------------------------------------

  lemma ZeroIsNearest(l: ValidLexeme)
    requires NormOf(l) == Zero
    ensures NearestDouble(l) == 0.0
  {
    hide NormOf, Magnitude, Doubles.Pow2, Doubles.Double;
    ZeroHasNoMagnitude(l);
    NearestIsZero(0.0);
  }

  lemma ZeroHasNoMagnitude(l: ValidLexeme)
    requires NormOf(l) == Zero
    ensures Magnitude(l) == 0.0
  {
    hide NormOf, ValueOf, Pow10;
    NormKeepsValue(l);
  }

  ghost function ServerSpelling(l: ValidLexeme): Option<ValidLexeme> {
    if Overflows(l) then None
    else if NearestDouble(l) == 0.0 then Some(Lexeme(false, "0", "", None))
    else Some(l)
  }

  /** A pair of steps to which all this applies. */
  lemma StepsExist() returns (f: Binary64, g: Binary64)
    ensures ServerStep(f) && WorkerStep(f, g)
  {
    f := l => ServerSpelling(l);
    g := l => if Vanishes(l) then None else ServerSpelling(l);
    hide NearestDouble, Overflows, Vanishes;
    forall l: ValidLexeme | NormOf(l) == Zero ensures NearestDouble(l) == 0.0 {
      ZeroIsNearest(l);
    }
    assert NormOf(Lexeme(false, "0", "", None)) == Zero by {
      assert "0" + "" == "0";
      assert TrimLeft("0") == TrimLeft("");
    }
  }

  // ----- the whole of _canonical_number --------------------------------------------------------

  /** _canonical_number, the float step included. */
  method CanonicalNumberOf(l: ValidLexeme, g: Binary64) returns (r: Option<string>)
    ensures r == Text(Python, g, Num(l))
  {
    var raw := l;
    if !Whole(l) {
      var binary := g(l);
      if binary == None {
        return None;
      }
      raw := binary.value;
    }
    r := CanonicalNumber(Spell(raw));
    NormalizedIs(raw);
  }
}
