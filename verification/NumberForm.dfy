/**
 The normal form of JSON numbers behind normalizeJSONNumber in server/cache.go and
 _canonical_number in server/pipeline/document.py: it keeps the decimal value, and one
 value has one form.
 */
module NumberForm {
  import opened Basics
  import opened Numeral

  // ----- decimal values -------------------------------------------------------------

  function DigitValue(c: char): nat
    requires IsDigit(c)
  {
    c as int - '0' as int
  }

  function Nat(s: string): nat
    requires AllDigits(s)
  {
    if s == "" then 0 else 10 * Nat(s[..|s| - 1]) + DigitValue(s[|s| - 1])
  }

  function Pow10(n: nat): (p: nat)
    ensures p > 0
  {
    if n == 0 then 1 else 10 * Pow10(n - 1)
  }

  /** coefficient * 10^exponent. */
  datatype Decimal = Decimal(coefficient: int, exponent: int)

  /** Both as integers at the finer of the two scales. */
  ghost predicate SameValue(a: Decimal, b: Decimal) {
    var m := if a.exponent <= b.exponent then a.exponent else b.exponent;
    a.coefficient * Pow10(a.exponent - m) == b.coefficient * Pow10(b.exponent - m)
  }

  function ExponentValue(exp: Option<Exponent>): int
    requires exp.Some? ==> ValidExponent(exp.value)
  {
    match exp
    case None => 0
    case Some(e) => if e.sign == Minus then -(Nat(e.digits) as int) else Nat(e.digits)
  }

  function Signed(neg: bool, n: nat): int {
    if neg then -(n as int) else n
  }

  lemma DigitsConcat(a: string, b: string)
    requires AllDigits(a) && AllDigits(b)
    ensures AllDigits(a + b)
  {
  }

  function ValueOf(l: Lexeme): Decimal
    requires Valid(l)
  {
    DigitsConcat(l.whole, l.frac);
    Decimal(Signed(l.neg, Nat(l.whole + l.frac)), ExponentValue(l.exp) - |l.frac|)
  }

  // ----- comparing values -------------------------------------------------------------

  lemma {:induction false} Pow10Sum(a: nat, b: nat)
    ensures Pow10(a + b) == Pow10(a) * Pow10(b)
    decreases a
  {
    if a > 0 {
      Pow10Sum(a - 1, b);
      assert Pow10(a + b) == 10 * Pow10(a - 1 + b);
      assert 10 * (Pow10(a - 1) * Pow10(b)) == (10 * Pow10(a - 1)) * Pow10(b);
    }
  }

  lemma Cancel(x: int, y: int, p: nat)
    requires p > 0
    ensures x * p == y * p <==> x == y
  {
    if x * p == y * p {
      assert (x - y) * p == 0;
    }
  }

  /** At any scale fine enough for both, the integers agree exactly when the values do. */
  lemma SameAtScale(a: Decimal, b: Decimal, m: int)
    requires m <= a.exponent && m <= b.exponent
    ensures SameValue(a, b) <==> a.coefficient * Pow10(a.exponent - m) == b.coefficient * Pow10(b.exponent - m)
  {
    var k := if a.exponent <= b.exponent then a.exponent else b.exponent;
    Pow10Sum(a.exponent - k, k - m);
    Pow10Sum(b.exponent - k, k - m);
    var x, y, p := a.coefficient * Pow10(a.exponent - k), b.coefficient * Pow10(b.exponent - k), Pow10(k - m);
    Cancel(x, y, p);
    Reassociate(a.coefficient, Pow10(a.exponent - k), p);
    Reassociate(b.coefficient, Pow10(b.exponent - k), p);
  }

  lemma Reassociate(x: int, y: int, z: int)
    ensures x * (y * z) == (x * y) * z
  {
  }

  lemma SameValueTransitive(a: Decimal, b: Decimal, c: Decimal)
    requires SameValue(a, b) && SameValue(b, c)
    ensures SameValue(a, c)
  {
    var m := if a.exponent <= b.exponent then a.exponent else b.exponent;
    var k := if m <= c.exponent then m else c.exponent;
    SameAtScale(a, b, k);
    SameAtScale(b, c, k);
    SameAtScale(a, c, k);
  }

  // ----- stripping zeros ---------------------------------------------------------------

  function TrimLeft(s: string): (t: string)
    requires AllDigits(s)
    ensures AllDigits(t) && (t != "" ==> t[0] != '0')
  {
    if s == "" || s[0] != '0' then s else TrimLeft(s[1..])
  }

  function TrimRight(s: string): (t: string)
    requires AllDigits(s)
    ensures t <= s && AllDigits(t) && (t != "" ==> t[|t| - 1] != '0')
  {
    if s == "" || s[|s| - 1] != '0' then s else TrimRight(s[..|s| - 1])
  }

  lemma {:induction false} NatOfConcat(a: string, b: string)
    requires AllDigits(a) && AllDigits(b)
    ensures AllDigits(a + b) && Nat(a + b) == Nat(a) * Pow10(|b|) + Nat(b)
    decreases |b|
  {
    if b == "" {
      assert a + b == a;
    } else {
      var c := b[..|b| - 1];
      NatOfConcat(a, c);
      assert (a + b)[..|a + b| - 1] == a + c;
      assert Nat(a) * (10 * Pow10(|c|)) == 10 * (Nat(a) * Pow10(|c|));
    }
  }

  lemma {:induction false} NatTrimLeft(s: string)
    requires AllDigits(s)
    ensures Nat(TrimLeft(s)) == Nat(s)
    decreases |s|
  {
    if s != "" && s[0] == '0' {
      NatTrimLeft(s[1..]);
      NatOfConcat(s[..1], s[1..]);
      assert s[..1] + s[1..] == s;
      assert Nat(s[..1]) == 0 by { assert s[..1][..0] == ""; }
    }
  }

  lemma {:induction false} NatTrimRight(s: string)
    requires AllDigits(s)
    ensures Nat(s) == Nat(TrimRight(s)) * Pow10(|s| - |TrimRight(s)|)
    decreases |s|
  {
    if s != "" && s[|s| - 1] == '0' {
      var c := s[..|s| - 1];
      NatTrimRight(c);
      var p := Pow10(|c| - |TrimRight(c)|);
      assert Nat(TrimRight(c)) * (10 * p) == 10 * (Nat(TrimRight(c)) * p);
    }
  }

  lemma {:induction false} NatPositive(s: string)
    requires AllDigits(s) && s != "" && s[0] != '0'
    ensures Nat(s) > 0
    decreases |s|
  {
    if |s| > 1 {
      NatPositive(s[..|s| - 1]);
    }
  }

  // ----- the normal form ----------------------------------------------------------------

  datatype Norm = Zero | Scientific(neg: bool, digits: string, exponent: int)
  {
    /** No zero at either end of the digits. */
    predicate Valid() {
      Scientific? ==> AllDigits(digits) && digits != "" && digits[0] != '0' && digits[|digits| - 1] != '0'
    }
  }

  function NormValue(n: Norm): Decimal
    requires n.Valid()
  {
    match n case Zero => Decimal(0, 0) case Scientific(neg, digits, e) => Decimal(Signed(neg, Nat(digits)), e)
  }

  function NormOf(l: Lexeme): (n: Norm)
    requires Valid(l)
    ensures n.Valid()
  {
    DigitsConcat(l.whole, l.frac);
    Normal(l.neg, TrimLeft(l.whole + l.frac), ExponentValue(l.exp) - |l.frac|)
  }

  /** Takes trailing zeros into the exponent. */
  function Normal(neg: bool, digits: string, exponent: int): (n: Norm)
    requires AllDigits(digits) && (digits != "" ==> digits[0] != '0')
    ensures n.Valid()
  {
    var t := TrimRight(digits);
    if digits == "" then Zero
    else TrimmedNonempty(digits); Scientific(neg, t, exponent + (|digits| - |t|))
  }

  lemma {:induction false} TrimmedNonempty(s: string)
    requires AllDigits(s) && s != "" && s[0] != '0'
    ensures TrimRight(s) != ""
    decreases |s|
  {
    if s[|s| - 1] == '0' {
      TrimmedNonempty(s[..|s| - 1]);
    }
  }

  lemma SignedProduct(neg: bool, n: nat, p: nat)
    ensures Signed(neg, n * p) == Signed(neg, n) * p
  {
  }

  lemma NormKeepsValue(l: Lexeme)
    requires Valid(l)
    ensures SameValue(ValueOf(l), NormValue(NormOf(l)))
  {
    DigitsConcat(l.whole, l.frac);
    var s := l.whole + l.frac;
    var d := TrimLeft(s);
    NatTrimLeft(s);
    hide Nat, ExponentValue, AllDigits;
    if d != "" {
      NatTrimRight(d);
      TrimmedNonempty(d);
      ShiftKeepsValue(l.neg, Nat(TrimRight(d)), ExponentValue(l.exp) - |l.frac|, |d| - |TrimRight(d)|);
    }
  }

  /** Moving a power of ten from the coefficient into the exponent. */
  lemma {:induction false} ShiftKeepsValue(neg: bool, n: nat, e: int, k: nat)
    ensures SameValue(Decimal(Signed(neg, n * Pow10(k)), e), Decimal(Signed(neg, n), e + k))
  {
    SignedProduct(neg, n, Pow10(k));
    assert Pow10(0) == 1;
  }

  lemma {:induction false} NatInjective(a: string, b: string)
    requires AllDigits(a) && AllDigits(b) && Nat(a) == Nat(b)
    requires a != "" ==> a[0] != '0'
    requires b != "" ==> b[0] != '0'
    ensures a == b
    decreases |a|
  {
    if a == "" {
      if b != "" {
        NatPositive(b);
      }
    } else if b == "" {
      NatPositive(a);
    } else {
      var c, d := a[..|a| - 1], b[..|b| - 1];
      assert Nat(c) == Nat(d) && DigitValue(a[|a| - 1]) == DigitValue(b[|b| - 1]);
      NatInjective(c, d);
      assert a == c + [a[|a| - 1]] && b == d + [b[|b| - 1]];
    }
  }

  /** A number ending in a nonzero digit is not a multiple of ten. */
  lemma LastDigit(s: string, x: int)
    requires AllDigits(s) && s != "" && s[|s| - 1] != '0'
    ensures Nat(s) != 10 * x
  {
  }

  /** Different normal forms have different values. */
  lemma NormIsUnique(a: Norm, b: Norm)
    requires a.Valid() && b.Valid() && SameValue(NormValue(a), NormValue(b))
    ensures a == b
  {
    if a.Zero? || b.Zero? {
    } else {
      NatPositive(a.digits);
      NatPositive(b.digits);
      if a.exponent <= b.exponent {
        ScaledIsUnique(a, b);
      } else {
        ScaledIsUnique(b, a);
      }
    }
  }

  lemma ScaledIsUnique(a: Norm, b: Norm)
    requires a.Valid() && b.Valid() && a.Scientific? && b.Scientific? && a.exponent <= b.exponent
    requires SameValue(NormValue(a), NormValue(b)) || SameValue(NormValue(b), NormValue(a))
    ensures a == b
  {
    var k := b.exponent - a.exponent;
    NatPositive(a.digits);
    NatPositive(b.digits);
    hide Nat, AllDigits;
    SignedProduct(b.neg, Nat(b.digits), Pow10(k));
    assert Pow10(0) == 1;
    assert Signed(a.neg, Nat(a.digits)) == Signed(b.neg, Nat(b.digits) * Pow10(k));
    ScaledDigits(a.digits, b.digits, k);
  }

  lemma ScaledDigits(a: string, b: string, k: nat)
    requires AllDigits(a) && a != "" && a[0] != '0' && a[|a| - 1] != '0'
    requires AllDigits(b) && b != "" && b[0] != '0'
    requires Nat(a) == Nat(b) * Pow10(k)
    ensures k == 0 && a == b
  {
    hide Nat;
    if k > 0 {
      LastDigit(a, Nat(b) * Pow10(k - 1));
    }
    assert Pow10(0) == 1;
    NatInjective(a, b);
  }

  lemma NormDecidesValue(a: Lexeme, b: Lexeme)
    requires Valid(a) && Valid(b)
    ensures SameValue(ValueOf(a), ValueOf(b)) <==> NormOf(a) == NormOf(b)
  {
    hide NormOf, ValueOf, SameValue, NormValue;
    NormKeepsValue(a);
    NormKeepsValue(b);
    SameValueSymmetric(ValueOf(a), NormValue(NormOf(a)));
    SameValueSymmetric(ValueOf(b), NormValue(NormOf(b)));
    if SameValue(ValueOf(a), ValueOf(b)) {
      SameValueTransitive(NormValue(NormOf(a)), ValueOf(a), ValueOf(b));
      SameValueTransitive(NormValue(NormOf(a)), ValueOf(b), NormValue(NormOf(b)));
      NormIsUnique(NormOf(a), NormOf(b));
    }
    if NormOf(a) == NormOf(b) {
      SameValueTransitive(ValueOf(a), NormValue(NormOf(a)), ValueOf(b));
    }
  }

  lemma SameValueSymmetric(a: Decimal, b: Decimal)
    ensures SameValue(a, b) <==> SameValue(b, a)
  {
  }
}
