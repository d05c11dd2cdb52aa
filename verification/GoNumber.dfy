/**
 normalizeJSONNumber of server/cache.go, whose exponent is a 64-bit int: it is parsed
 with strconv.Atoi, and every later sum wraps around.
 */
module GoNumber {
  import opened Basics
  import opened Numeral
  import opened NumberForm
  import opened NumberRender

  const MAX_INT := 0x7FFF_FFFF_FFFF_FFFF
  const MIN_INT := -MAX_INT - 1

  predicate IsInt64(x: int) {
    MIN_INT <= x <= MAX_INT
  }

  /** Where a sum lands in 64 bits. */
  function Wrap(x: int): (r: int)
    ensures IsInt64(r) && (IsInt64(x) ==> r == x)
  {
    (x - MIN_INT) % 0x1_0000_0000_0000_0000 + MIN_INT
  }

  lemma WrapSum(x: int, y: int)
    ensures Wrap(Wrap(x) + y) == Wrap(x + y)
  {
  }

  /** strconv.Atoi refuses what a 64-bit int cannot hold. */
  predicate FitsInt(exp: Option<Exponent>)
    requires exp.Some? ==> ValidExponent(exp.value)
  {
    IsInt64(ExponentValue(exp))
  }

  /** The exponent a normal form has in scientific notation. */
  function ScientificExponent(n: Norm): int
    requires n.Scientific?
  {
    |n.digits| + n.exponent - 1
  }

  /** The normal form the 64-bit sums arrive at. */
  function Wrapped(n: Norm): (w: Norm)
    requires n.Valid()
    ensures w.Valid()
  {
    match n
    case Zero => Zero
    case Scientific(neg, digits, _) => Scientific(neg, digits, Wrap(ScientificExponent(n)) + 1 - |digits|)
  }

  /** What the Go server makes of a numeral. */
  function GoNormalized(raw: string): Option<string> {
    if Read(raw).None? then None
    else
      ReadIsTheGrammar(raw, Read(raw).value);
      var l := Read(raw).value;
      if NormOf(l) != Zero && !FitsInt(l.exp) then None else Some(Render(Wrapped(NormOf(l))))
  }

  /** The loop, its exponent kept in 64 bits; `exact` is what it would be without. */
  method StripZerosInt64(neg: bool, all: string, ghost start: int, kept: int)
    returns (digits: string, exponent: int, ghost exact: int)
    requires AllDigits(all) && all != "" && all[0] != '0' && kept == Wrap(start)
    ensures Normal(neg, all, start) == Scientific(neg, digits, exact) && exponent == Wrap(exact)
  {
    hide Nat, Wrap;
    digits, exponent, exact := all, kept, start;
    while digits[|digits| - 1] == '0'
      invariant AllDigits(digits) && digits != "" && digits[0] != '0'
      invariant Normal(neg, digits, exact) == Normal(neg, all, start) && exponent == Wrap(exact)
      decreases |digits|
    {
      TrimmedNonempty(digits);
      assert TrimRight(digits) == TrimRight(digits[..|digits| - 1]);
      WrapSum(exact, 1);
      digits, exponent, exact := digits[..|digits| - 1], Wrap(exponent + 1), exact + 1;
    }
  }

  /** The switch on the wrapped point picks what the wrapped exponent asks for. */
  lemma PointOf(e: int)
    ensures Wrap(Wrap(e + 1) - 1) == Wrap(e)
    ensures Wrap(e + 1) == Wrap(e) + 1 || (Wrap(e + 1) == MIN_INT && Wrap(e) == MAX_INT)
  {
  }

  /** normalizeJSONNumber. */
  method NormalizeJSONNumber(raw: string) returns (r: Option<string>)
    ensures r == GoNormalized(raw)
  {
    hide Read, Nat, AllDigits, ExponentValue, Wrap, Itoa;
    var parts := Read(raw);
    if parts.None? {
      return None;
    }
    var l := parts.value;
    ReadIsTheGrammar(raw, l);
    DigitsConcat(l.whole, l.frac);
    var digits := TrimLeft(l.whole + l.frac);
    if digits == "" {
      return Some("0");
    }
    if !FitsInt(l.exp) {
      return None;
    }
    hide RenderDigits, Wrapped, Normal;
    var written := WriteDigits(l.neg, digits, ExponentValue(l.exp) - |l.frac|, Wrap(ExponentValue(l.exp) - |l.frac|));
    return Some(written);
  }

  /** From the digits and the exponent of a non-zero numeral on. */
  method WriteDigits(neg: bool, all: string, ghost start: int, kept: int) returns (written: string)
    requires AllDigits(all) && all != "" && all[0] != '0' && kept == Wrap(start)
    ensures written == Render(Wrapped(Normal(neg, all, start)))
  {
    hide Wrap, RenderDigits, Normal;
    var digits, exponent, exact := StripZerosInt64(neg, all, start, kept);
    WrapSum(exact, |digits|);
    PointOf(|digits| + exact - 1);
    var rendered := RenderInt64(digits, Wrap(|digits| + exponent));
    written := (if neg then "-" else "") + rendered;
  }

  /** The switch; the exponent it writes is one less than the point, in 64 bits. */
  method RenderInt64(digits: string, point: int) returns (rendered: string)
    requires digits != "" && IsInt64(point)
    ensures rendered == RenderDigits(digits, Wrap(point - 1) + 1)
  {
    hide Itoa;
    if point > 21 || point <= -6 {
      var coefficient := digits[..1];
      var rest := "";
      if |digits| > 1 {
        rest := "." + digits[1..];
      }
      var written := Wrap(point - 1);
      rendered := coefficient + (rest + ("e" + ((if written < 0 then "-" else "") + Itoa(Abs(written)))));
    } else if point <= 0 {
      rendered := "0" + ("." + (Zeros(-point) + digits));
    } else if point >= |digits| {
      rendered := digits + Zeros(point - |digits|);
    } else {
      rendered := digits[..point] + ("." + digits[point..]);
    }
  }

  // ----- when it is right ---------------------------------------------------------------------

  /**
   A non-zero numeral the server accepts gets its normal spelling, and keeps its value,
   exactly when its exponent in scientific notation is a 64-bit int.
   */
  lemma RightUnlessWrapped(l: Lexeme)
    requires Valid(l) && NormOf(l).Scientific? && FitsInt(l.exp)
    ensures GoNormalized(Spell(l)).Some?
    ensures var out := Read(GoNormalized(Spell(l)).value);
      && (GoNormalized(Spell(l)) == Normalized(Spell(l)) <==> IsInt64(ScientificExponent(NormOf(l))))
      && out.Some? && Valid(out.value)
      && (SameValue(ValueOf(out.value), ValueOf(l)) <==> IsInt64(ScientificExponent(NormOf(l))))
  {
    hide Read, Spell, Render, NormOf, LexemeOf, SameValue, ValueOf;
    var n := NormOf(l);
    ReadIsTheGrammar(Spell(l), l);
    ReadOfRender(n);
    ReadOfRender(Wrapped(n));
    NormDecidesValue(LexemeOf(Wrapped(n)), l);
    assert Wrapped(n) == n <==> IsInt64(ScientificExponent(n));
  }

  /** Zero is always written as "0". */
  lemma ZeroIsRight(l: Lexeme)
    requires Valid(l) && NormOf(l) == Zero
    ensures GoNormalized(Spell(l)) == Normalized(Spell(l)) == Some("0")
  {
    hide Read, Spell, NormOf;
    ReadIsTheGrammar(Spell(l), l);
  }

  /** Ten times ten to the largest exponent is written as the numeral with the least one. */
  lemma WrappingCollides() returns (l: Lexeme, m: Lexeme)
    ensures l == Lexeme(false, "10", "", Some(Exponent(false, Bare, Itoa(MAX_INT))))
    ensures m == Lexeme(false, "1", "", Some(Exponent(false, Minus, Itoa(-MIN_INT))))
    ensures Valid(l) && Valid(m) && !SameValue(ValueOf(l), ValueOf(m))
    ensures GoNormalized(Spell(l)).Some? && GoNormalized(Spell(l)) == GoNormalized(Spell(m))
  {
    l := Lexeme(false, "10", "", Some(Exponent(false, Bare, Itoa(MAX_INT))));
    m := Lexeme(false, "1", "", Some(Exponent(false, Minus, Itoa(-MIN_INT))));
    hide *;
    PowerOfTen(l, 1, MAX_INT);
    PowerOfTen(m, 0, MIN_INT);
    OverflowCollides(l, m);
  }

  lemma OverflowCollides(l: Lexeme, m: Lexeme)
    requires Valid(l) && Valid(m) && FitsInt(l.exp) && FitsInt(m.exp)
    requires NormOf(l) == Scientific(false, "1", MAX_INT + 1) && NormOf(m) == Scientific(false, "1", MIN_INT)
    ensures !SameValue(ValueOf(l), ValueOf(m))
    ensures GoNormalized(Spell(l)).Some? && GoNormalized(Spell(l)) == GoNormalized(Spell(m))
  {
    assert Wrapped(NormOf(l)) == Wrapped(NormOf(m));
    hide Read, Spell, Render, NormOf, Wrapped, SameValue, ValueOf, ExponentValue;
    ReadIsTheGrammar(Spell(l), l);
    ReadIsTheGrammar(Spell(m), m);
    NormDecidesValue(l, m);
  }

  lemma PowerOfTen(l: Lexeme, zeros: nat, e: int)
    requires !l.neg && l.frac == "" && IsInt64(e)
    requires (l.whole == "1" && zeros == 0) || (l.whole == "10" && zeros == 1)
    requires l.exp == Some(Exponent(false, if e < 0 then Minus else Bare, Itoa(Abs(e))))
    ensures Valid(l) && FitsInt(l.exp) && NormOf(l) == Scientific(false, "1", e + zeros)
  {
    hide Itoa;
    assert l.whole + "" == l.whole;
    assert "10"[..1] == "1";
    assert TrimRight("10") == TrimRight("1") == "1";
    assert TrimLeft(l.whole) == l.whole;
  }
}
