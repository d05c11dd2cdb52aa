/**
 Writing a normal form: below 10^-6 and from 10^21 on with an exponent, otherwise
 in plain digits.  Reading what was written gives the normal form back, which
 makes the normalisation value-preserving, idempotent, and decisive for equality.
 */
module NumberRender {
  import opened Basics
  import opened Numeral
  import opened NumberForm

  // ----- integers in decimal -----------------------------------------------------------

  function Digit(n: nat): (c: char)
    requires n < 10
    ensures IsDigit(c) && DigitValue(c) == n
  {
    ('0' as int + n) as char
  }

  function Itoa(n: nat): (s: string)
    ensures AllDigits(s) && s != "" && Nat(s) == n
  {
    if n < 10 then
      var s := [Digit(n)];
      assert s[..0] == "";
      s
    else
      var s := Itoa(n / 10) + [Digit(n % 10)];
      assert s[..|s| - 1] == Itoa(n / 10);
      s
  }

  function Abs(x: int): nat {
    if x < 0 then -x else x
  }

  function Zeros(n: nat): (s: string)
    ensures |s| == n && AllZeros(s) && AllDigits(s)
  {
    seq(n, _ => '0')
  }

  // ----- rendering ------------------------------------------------------------------------

  /** The digits of a positive normal form, with their point `point` places in. */
  function RenderDigits(d: string, point: int): string
    requires d != ""
  {
    if point > 21 || point <= -6 then
      d[..1] + ((if |d| > 1 then "." + d[1..] else "") + ("e" + ((if point - 1 < 0 then "-" else "") + Itoa(Abs(point - 1)))))
    else if point <= 0 then "0" + ("." + (Zeros(-point) + d))
    else if point >= |d| then d + Zeros(point - |d|)
    else d[..point] + ("." + d[point..])
  }

  function Render(n: Norm): string
    requires n.Valid()
  {
    match n
    case Zero => "0"
    case Scientific(neg, d, e) => (if neg then "-" else "") + RenderDigits(d, |d| + e)
  }

  /** The numeral a rendering spells. */
  function RenderedLexeme(neg: bool, d: string, point: int): Lexeme
    requires d != ""
  {
    if point > 21 || point <= -6 then
      Lexeme(neg, d[..1], d[1..], Some(Exponent(false, if point - 1 < 0 then Minus else Bare, Itoa(Abs(point - 1)))))
    else if point <= 0 then Lexeme(neg, "0", Zeros(-point) + d, None)
    else if point >= |d| then Lexeme(neg, d + Zeros(point - |d|), "", None)
    else Lexeme(neg, d[..point], d[point..], None)
  }

  function LexemeOf(n: Norm): (l: Lexeme)
    requires n.Valid()
    ensures Valid(l)
  {
    match n
    case Zero => Lexeme(false, "0", "", None)
    case Scientific(neg, d, e) => RenderDigitsSpells(neg, d, |d| + e); RenderedLexeme(neg, d, |d| + e)
  }

  lemma RenderSpells(n: Norm)
    requires n.Valid()
    ensures Render(n) == Spell(LexemeOf(n))
  {
    if n.Scientific? {
      hide Itoa, Zeros;
      RenderDigitsSpells(n.neg, n.digits, |n.digits| + n.exponent);
    }
  }

  lemma RenderedIsValid(neg: bool, d: string, point: int)
    requires AllDigits(d) && d != "" && d[0] != '0'
    ensures Valid(RenderedLexeme(neg, d, point))
  {
    hide Itoa, Nat;
  }

  lemma RenderDigitsSpells(neg: bool, d: string, point: int)
    requires AllDigits(d) && d != "" && d[0] != '0'
    ensures Valid(RenderedLexeme(neg, d, point))
    ensures Spell(RenderedLexeme(neg, d, point)) == SpellNeg(neg) + RenderDigits(d, point)
  {
    RenderedIsValid(neg, d, point);
    hide SpellNeg, Valid, AllDigits, Zeros, Itoa, Nat;
    var l := RenderedLexeme(neg, d, point);
    if point > 21 || point <= -6 {
      assert SpellFrac(l.frac) == if |d| > 1 then "." + d[1..] else "";
      assert SpellExp(l.exp) == "e" + ((if point - 1 < 0 then "-" else "") + Itoa(Abs(point - 1)));
    }
  }

  // ----- and reading back -------------------------------------------------------------------

  lemma {:induction false} TrimLeftZeros(n: nat, d: string)
    requires AllDigits(d) && d != "" && d[0] != '0'
    ensures AllDigits(Zeros(n) + d) && TrimLeft(Zeros(n) + d) == d
    decreases n
  {
    if n > 0 {
      TrimLeftZeros(n - 1, d);
      assert (Zeros(n) + d)[1..] == Zeros(n - 1) + d;
    } else {
      assert Zeros(0) + d == d;
    }
  }

  lemma {:induction false} TrimRightZeros(d: string, n: nat)
    requires AllDigits(d) && d != "" && d[|d| - 1] != '0'
    ensures AllDigits(d + Zeros(n)) && TrimRight(d + Zeros(n)) == d
    decreases n
  {
    var s := d + Zeros(n);
    if n > 0 {
      TrimRightZeros(d, n - 1);
      assert s[..|s| - 1] == d + Zeros(n - 1);
    } else {
      assert s == d;
    }
  }

  /** The whole and fractional digits of a rendering, together, strip to its digits. */
  lemma RenderedDigits(neg: bool, d: string, point: int)
    requires AllDigits(d) && d != "" && d[0] != '0' && d[|d| - 1] != '0'
    ensures var l := RenderedLexeme(neg, d, point);
      && AllDigits(l.whole + l.frac)
      && TrimLeft(l.whole + l.frac) == d + Zeros(if 0 < point <= 21 && point >= |d| then point - |d| else 0)
  {
    var l := RenderedLexeme(neg, d, point);
    if point > 21 || point <= -6 {
      assert l.whole + l.frac == d;
    } else if point <= 0 {
      assert l.whole + l.frac == Zeros(1 - point) + d;
      TrimLeftZeros(1 - point, d);
    } else if point >= |d| {
      assert l.whole + l.frac == d + Zeros(point - |d|);
    } else {
      assert l.whole + l.frac == d;
    }
    assert d + Zeros(0) == d;
  }

  lemma LexemeOfIsNormal(n: Norm)
    requires n.Valid()
    ensures NormOf(LexemeOf(n)) == n
  {
    if n.Zero? {
      assert "0" + "" == "0";
      assert TrimLeft("0") == TrimLeft("");
    } else {
      RenderedIsNormal(n);
    }
  }

  lemma RenderedIsNormal(n: Norm)
    requires n.Valid() && n.Scientific?
    ensures Valid(RenderedLexeme(n.neg, n.digits, |n.digits| + n.exponent))
    ensures NormOf(RenderedLexeme(n.neg, n.digits, |n.digits| + n.exponent)) == n
  {
    hide RenderedLexeme, ExponentValue, Nat, Zeros, TrimLeft, Normal;
    var point := |n.digits| + n.exponent;
    var pad := if 0 < point <= 21 && point >= |n.digits| then point - |n.digits| else 0;
    RenderedExponent(n.neg, n.digits, point);
    RenderedDigits(n.neg, n.digits, point);
    PaddedNormal(n, pad);
  }

  lemma PaddedNormal(n: Norm, pad: nat)
    requires n.Valid() && n.Scientific?
    ensures AllDigits(n.digits + Zeros(pad)) && (n.digits + Zeros(pad))[0] != '0'
    ensures Normal(n.neg, n.digits + Zeros(pad), n.exponent - pad) == n
  {
    TrimRightZeros(n.digits, pad);
  }

  lemma RenderedExponent(neg: bool, d: string, point: int)
    requires AllDigits(d) && d != "" && d[0] != '0'
    ensures var l := RenderedLexeme(neg, d, point);
      && Valid(l) && l.neg == neg
      && ExponentValue(l.exp) - |l.frac|
           == point - |d| - (if 0 < point <= 21 && point >= |d| then point - |d| else 0)
  {
    RenderDigitsSpells(neg, d, point);
  }

  // ----- which notation ---------------------------------------------------------------------

  /** Smaller than 10^k, whatever its sign: both as integers at the finer of the two scales. */
  ghost predicate Under(d: Decimal, k: int) {
    var m := if d.exponent <= k then d.exponent else k;
    Abs(d.coefficient) * Pow10(d.exponent - m) < Pow10(k - m)
  }

  lemma {:induction false} NatBounds(s: string)
    requires AllDigits(s) && s != "" && s[0] != '0'
    ensures Pow10(|s| - 1) <= Nat(s) < Pow10(|s|)
    decreases |s|
  {
    var n := |s| - 1;
    if n > 0 {
      NatBounds(s[..n]);
      assert Pow10(n) == 10 * Pow10(n - 1) && Pow10(n + 1) == 10 * Pow10(n);
    } else {
      assert s[..0] == "" && Nat(s) == DigitValue(s[0]) && Pow10(0) == 1 && Pow10(1) == 10;
    }
  }

  lemma Pow10Grows(a: nat, b: nat)
    requires a <= b
    ensures Pow10(a) <= Pow10(b)
  {
    Pow10Sum(a, b - a);
    assert Pow10(a) * 1 <= Pow10(a) * Pow10(b - a);
  }

  lemma ScaledBounds(c: nat, lo: nat, hi: nat, p: nat)
    requires lo <= c < hi && p > 0
    ensures lo * p <= c * p < hi * p
  {
  }

  lemma UnderIs(n: Norm, k: int)
    requires n.Valid() && n.Scientific?
    ensures Under(NormValue(n), k) <==> |n.digits| + n.exponent <= k
  {
    var c, e, size := Nat(n.digits), n.exponent, |n.digits|;
    NatBounds(n.digits);
    var m := if e <= k then e else k;
    hide Pow10, Nat;
    ScaledBounds(c, Pow10(size - 1), Pow10(size), Pow10(e - m));
    Pow10Sum(size - 1, e - m);
    Pow10Sum(size, e - m);
    if size + e <= k {
      Pow10Grows(size + (e - m), k - m);
    } else {
      Pow10Grows(k - m, size - 1 + (e - m));
    }
  }

  /** An exponent is written exactly below 10^-6 and from 10^21 on. */
  lemma NotationBySize(n: Norm)
    requires n.Valid() && n.Scientific?
    ensures Render(n) == Spell(LexemeOf(n))
    ensures LexemeOf(n).exp.Some? <==> Under(NormValue(n), -6) || !Under(NormValue(n), 21)
  {
    hide Under;
    RenderSpells(n);
    UnderIs(n, -6);
    UnderIs(n, 21);
  }

  lemma {:induction false} ItoaStarts(n: nat)
    requires n > 0
    ensures Itoa(n)[0] != '0'
  {
    if n >= 10 {
      ItoaStarts(n / 10);
      assert Itoa(n)[0] == Itoa(n / 10)[0];
    }
  }

  /**
   Nothing is written that need not be: no zero at the end of a fraction, a fraction only
   where there is one, and with an exponent one digit in front of the point and an
   exponent without plus sign or leading zeros.
   */
  lemma NothingSpare(n: Norm)
    requires n.Valid() && n.Scientific?
    ensures var l := LexemeOf(n);
      && (l.frac != "" ==> l.frac[|l.frac| - 1] != '0')
      && (l.exp.None? ==> (l.frac == "" <==> n.exponent >= 0))
      && (l.exp.Some? ==>
            && |l.whole| == 1 && !l.exp.value.capital && l.exp.value.sign != Plus
            && (l.exp.value.digits[0] != '0'))
  {
    var point := |n.digits| + n.exponent;
    if point > 21 || point <= -6 {
      ItoaStarts(Abs(point - 1));
    }
    hide Itoa, Nat;
  }

  // ----- the normalisation of a spelling ------------------------------------------------------

  /** What both runtimes write for a spelled number; None when it is not a numeral. */
  function Normalized(raw: string): Option<string> {
    match Read(raw)
    case None => None
    case Some(l) => ReadIsTheGrammar(raw, l); Some(Render(NormOf(l)))
  }

  lemma ReadOfRender(n: Norm)
    requires n.Valid()
    ensures Read(Render(n)) == Some(LexemeOf(n)) && NormOf(LexemeOf(n)) == n
  {
    RenderSpells(n);
    LexemeOfIsNormal(n);
    ReadIsTheGrammar(Render(n), LexemeOf(n));
  }

  /** The spelling that comes out is a numeral with the value of the one that went in. */
  lemma NormalizedKeepsValue(raw: string, l: Lexeme)
    requires Valid(l) && raw == Spell(l)
    ensures Normalized(raw).Some?
    ensures var out := Read(Normalized(raw).value);
      out.Some? && Valid(out.value) && SameValue(ValueOf(l), ValueOf(out.value))
  {
    hide Read, Render, NormOf, LexemeOf, SameValue, ValueOf;
    ReadIsTheGrammar(raw, l);
    ReadOfRender(NormOf(l));
    LexemeOfIsNormal(NormOf(l));
    NormDecidesValue(l, LexemeOf(NormOf(l)));
  }

  lemma NormalizedIsIdempotent(raw: string)
    requires Normalized(raw).Some?
    ensures Normalized(Normalized(raw).value) == Normalized(raw)
  {
    hide Render, NormOf, LexemeOf;
    var l := Read(raw).value;
    ReadIsTheGrammar(raw, l);
    ReadOfRender(NormOf(l));
    LexemeOfIsNormal(NormOf(l));
  }

  /** Two numerals get the same bytes exactly when their values are equal. */
  lemma NormalizedDecidesEquality(a: Lexeme, b: Lexeme)
    requires Valid(a) && Valid(b)
    ensures Normalized(Spell(a)) == Normalized(Spell(b)) <==> SameValue(ValueOf(a), ValueOf(b))
  {
    hide Read, Spell, Render, NormOf, LexemeOf, SameValue, ValueOf;
    ReadIsTheGrammar(Spell(a), a);
    ReadIsTheGrammar(Spell(b), b);
    NormDecidesValue(a, b);
    ReadOfRender(NormOf(a));
    ReadOfRender(NormOf(b));
  }

  // ----- the Python implementation -----------------------------------------------------------------

  /** One trailing zero after another moves into the exponent. */
  method StripZeros(neg: bool, all: string, start: int) returns (digits: string, exponent: int)
    requires AllDigits(all) && all != "" && all[0] != '0'
    ensures Normal(neg, all, start) == Scientific(neg, digits, exponent)
  {
    hide Nat;
    digits, exponent := all, start;
    while digits[|digits| - 1] == '0'
      invariant AllDigits(digits) && digits != "" && digits[0] != '0'
      invariant Normal(neg, digits, exponent) == Normal(neg, all, start)
      decreases |digits|
    {
      TrimmedNonempty(digits);
      assert TrimRight(digits) == TrimRight(digits[..|digits| - 1]);
      digits := digits[..|digits| - 1];
      exponent := exponent + 1;
    }
  }

  /** _canonical_number of server/pipeline/document.py, from the spelling `repr` or `str` gives it. */
  method CanonicalNumber(raw: string) returns (r: Option<string>)
    ensures r == Normalized(raw)
  {
    hide Read, Nat, AllDigits, ExponentValue, RenderDigits;
    var found := Read(raw);
    if found.None? {
      return None;
    }
    var l := found.value;
    ReadIsTheGrammar(raw, l);
    DigitsConcat(l.whole, l.frac);
    var digits := TrimLeft(l.whole + l.frac);
    if digits == "" {
      return Some("0");
    }
    var exponent := ExponentValue(l.exp) - |l.frac|;
    digits, exponent := StripZeros(l.neg, digits, exponent);
    var rendered := RenderDigits(digits, |digits| + exponent);
    return Some((if l.neg then "-" else "") + rendered);
  }
}
