/**
 JSON numerals (RFC 8259, section 6) and their one normal spelling, shared by
 normalizeJSONNumber in server/cache.go and _canonical_number in
 server/pipeline/document.py.
 */
module Numeral {
  import opened Basics

  // ----- the grammar -------------------------------------------------------------

  predicate IsDigit(c: char) {
    '0' <= c <= '9'
  }

  predicate AllDigits(s: string) {
    forall i | 0 <= i < |s| :: IsDigit(s[i])
  }

  predicate AllZeros(s: string) {
    forall i | 0 <= i < |s| :: s[i] == '0'
  }

  datatype Sign = Bare | Plus | Minus

  /** The mark is `e` or `E`. */
  datatype Exponent = Exponent(capital: bool, sign: Sign, digits: string)

  /** int [ frac ] [ exp ], with an optional minus. */
  datatype Lexeme = Lexeme(neg: bool, whole: string, frac: string, exp: Option<Exponent>)

  predicate ValidWhole(s: string) {
    AllDigits(s) && s != "" && (s[0] == '0' ==> |s| == 1)
  }

  predicate ValidExponent(e: Exponent) {
    AllDigits(e.digits) && e.digits != ""
  }

  predicate Valid(l: Lexeme) {
    ValidWhole(l.whole) && AllDigits(l.frac) && (l.exp.Some? ==> ValidExponent(l.exp.value))
  }

  function SpellFrac(frac: string): string {
    if frac == "" then "" else "." + frac
  }

  function SpellSign(sign: Sign): string {
    match sign case Bare => "" case Plus => "+" case Minus => "-"
  }

  function SpellExp(exp: Option<Exponent>): string {
    match exp
    case None => ""
    case Some(e) => [if e.capital then 'E' else 'e'] + (SpellSign(e.sign) + e.digits)
  }

  function Spell(l: Lexeme): string {
    SpellNeg(l.neg) + (l.whole + (SpellFrac(l.frac) + SpellExp(l.exp)))
  }

  function SpellNeg(neg: bool): string {
    if neg then "-" else ""
  }

  // ----- scanning ----------------------------------------------------------------

  /** Length of the longest digit prefix. */
  function DigitRun(s: string): (n: nat)
    ensures n <= |s| && AllDigits(s[..n]) && (n < |s| ==> !IsDigit(s[n]))
  {
    if s == "" || !IsDigit(s[0]) then 0 else 1 + DigitRun(s[1..])
  }

  function ScanFrac(s: string): (r: Option<(string, string)>)
    ensures r.Some? ==> |r.value.1| <= |s|
  {
    if s == "" || s[0] != '.' then Some(("", s))
    else
      var n := DigitRun(s[1..]);
      if n == 0 then None else Some((s[1..][..n], s[1..][n..]))
  }

  function ScanSign(s: string): (r: (Sign, string))
    ensures SpellSign(r.0) + r.1 == s
  {
    if s != "" && s[0] == '+' then (Plus, s[1..])
    else if s != "" && s[0] == '-' then (Minus, s[1..])
    else (Bare, s)
  }

  /** An exponent's digits, after its mark and sign. */
  function ScanExpDigits(capital: bool, sign: Sign, s: string): (r: Option<(Option<Exponent>, string)>)
    ensures r.Some? ==> |r.value.1| <= |s|
  {
    var n := DigitRun(s);
    if n == 0 then None else Some((Some(Exponent(capital, sign, s[..n])), s[n..]))
  }

  function ScanExp(s: string): (r: Option<(Option<Exponent>, string)>)
    ensures r.Some? ==> |r.value.1| <= |s|
  {
    if s == "" || (s[0] != 'e' && s[0] != 'E') then Some((None, s))
    else
      var signed := ScanSign(s[1..]);
      ScanExpDigits(s[0] == 'E', signed.0, signed.1)
  }

  /** The part of a scan after the minus sign. */
  function ScanUnsigned(neg: bool, s: string): (r: Option<(Lexeme, string)>)
    ensures r.Some? ==> |r.value.1| < |s|
  {
    var n := DigitRun(s);
    if n == 0 || (s[0] == '0' && n > 1) then None
    else
      var f := ScanFrac(s[n..]);
      if f.None? then None
      else
        var e := ScanExp(f.value.1);
        if e.None? then None
        else Some((Lexeme(neg, s[..n], f.value.0, e.value.0), e.value.1))
  }

  /** Reads the longest numeral in front of `s`, and what follows it. */
  function Scan(s: string): (r: Option<(Lexeme, string)>)
    ensures r.Some? ==> |r.value.1| < |s|
  {
    var neg := s != "" && s[0] == '-';
    ScanUnsigned(neg, if neg then s[1..] else s)
  }

  /** A whole string as a numeral: the regular expression both runtimes match. */
  function Read(s: string): Option<Lexeme> {
    match Scan(s) case Some((l, "")) => Some(l) case _ => None
  }

  /** Nothing that would continue a numeral. */
  predicate Ends(rest: string) {
    rest == "" || !(IsDigit(rest[0]) || rest[0] == '.' || rest[0] == 'e' || rest[0] == 'E')
  }

  lemma Regroup(a: string, b: string, c: string)
    ensures (a + b) + c == a + (b + c)
  {
  }

  lemma Split(a: string, b: string)
    ensures (a + b)[..|a|] == a && (a + b)[|a|..] == b
  {
  }

  lemma {:induction false} DigitRunOf(a: string, rest: string)
    requires AllDigits(a) && (rest == "" || !IsDigit(rest[0]))
    ensures DigitRun(a + rest) == |a|
    decreases |a|
  {
    if a == "" {
      assert a + rest == rest;
    } else {
      assert (a + rest)[1..] == a[1..] + rest;
      DigitRunOf(a[1..], rest);
    }
  }

  lemma ScanSignOf(sign: Sign, digits: string, rest: string)
    requires AllDigits(digits) && digits != ""
    ensures ScanSign(SpellSign(sign) + (digits + rest)) == (sign, digits + rest)
  {
    var s := SpellSign(sign) + (digits + rest);
    assert sign != Bare ==> s[1..] == digits + rest;
    assert sign == Bare ==> s == digits + rest && IsDigit(s[0]);
  }

  lemma ScanExpOf(e: Option<Exponent>, rest: string)
    requires e.Some? ==> ValidExponent(e.value)
    requires rest == "" || !IsDigit(rest[0])
    requires e.None? ==> rest == "" || (rest[0] != 'e' && rest[0] != 'E')
    ensures ScanExp(SpellExp(e) + rest) == Some((e, rest))
  {
    if e.Some? {
      ScanExpDigitsOf(e.value, rest);
    } else {
      assert SpellExp(e) + rest == rest;
    }
  }

  lemma ScanExpDigitsOf(x: Exponent, rest: string)
    requires ValidExponent(x) && (rest == "" || !IsDigit(rest[0]))
    ensures ScanExp(SpellExp(Some(x)) + rest) == Some((Some(x), rest))
  {
    hide SpellSign, ScanSign, ScanExpDigits, AllDigits;
    var mark := if x.capital then "E" else "e";
    var s := SpellExp(Some(x)) + rest;
    Regroup(SpellSign(x.sign), x.digits, rest);
    Regroup(mark, SpellSign(x.sign) + x.digits, rest);
    Split(mark, SpellSign(x.sign) + (x.digits + rest));
    assert s == mark + (SpellSign(x.sign) + (x.digits + rest));
    ScanSignOf(x.sign, x.digits, rest);
    ScanDigitsOf(x, rest);
  }

  lemma ScanDigitsOf(x: Exponent, rest: string)
    requires ValidExponent(x) && (rest == "" || !IsDigit(rest[0]))
    ensures ScanExpDigits(x.capital, x.sign, x.digits + rest) == Some((Some(x), rest))
  {
    DigitRunOf(x.digits, rest);
    Split(x.digits, rest);
  }

  lemma ScanFracOf(frac: string, rest: string)
    requires AllDigits(frac) && (rest == "" || (!IsDigit(rest[0]) && rest[0] != '.'))
    ensures ScanFrac(SpellFrac(frac) + rest) == Some((frac, rest))
  {
    if frac == "" {
      assert SpellFrac(frac) + rest == rest;
    } else {
      assert (SpellFrac(frac) + rest)[1..] == frac + rest;
      DigitRunOf(frac, rest);
      Split(frac, rest);
    }
  }

  lemma ScanUnsignedOf(l: Lexeme, rest: string)
    requires Valid(l) && Ends(rest)
    ensures ScanUnsigned(l.neg, l.whole + (SpellFrac(l.frac) + (SpellExp(l.exp) + rest))) == Some((l, rest))
  {
    var tail := SpellExp(l.exp) + rest;
    var s := l.whole + (SpellFrac(l.frac) + tail);
    DigitRunOf(l.whole, SpellFrac(l.frac) + tail);
    Split(l.whole, SpellFrac(l.frac) + tail);
    ScanFracOf(l.frac, tail);
    ScanExpOf(l.exp, rest);
    assert s[0] == l.whole[0];
  }

  /** Scanning a spelled numeral finds exactly it. */
  lemma ScanOfSpell(l: Lexeme, rest: string)
    requires Valid(l) && Ends(rest)
    ensures Scan(Spell(l) + rest) == Some((l, rest))
  {
    hide SpellFrac, SpellExp, ScanUnsigned;
    var s := l.whole + (SpellFrac(l.frac) + (SpellExp(l.exp) + rest));
    Regroup(SpellFrac(l.frac), SpellExp(l.exp), rest);
    Regroup(l.whole, SpellFrac(l.frac) + SpellExp(l.exp), rest);
    Regroup(SpellNeg(l.neg), l.whole + (SpellFrac(l.frac) + SpellExp(l.exp)), rest);
    assert Spell(l) + rest == SpellNeg(l.neg) + s;
    ScanUnsignedOf(l, rest);
    DropNeg(l.neg, s);
  }

  /** A minus sign in front is taken off; a digit in front is left alone. */
  lemma DropNeg(neg: bool, s: string)
    requires s != "" && IsDigit(s[0])
    ensures Scan(SpellNeg(neg) + s) == ScanUnsigned(neg, s)
  {
    hide ScanUnsigned;
    var t := SpellNeg(neg) + s;
    assert neg ==> t[1..] == s;
    assert !neg ==> t == s;
  }

  lemma ScanFracSpells(s: string)
    requires ScanFrac(s).Some?
    ensures var f := ScanFrac(s).value; AllDigits(f.0) && s == SpellFrac(f.0) + f.1
  {
  }

  lemma ScanExpSpells(s: string)
    requires ScanExp(s).Some?
    ensures var e := ScanExp(s).value; (e.0.Some? ==> ValidExponent(e.0.value)) && s == SpellExp(e.0) + e.1
  {
    var e := ScanExp(s).value;
    if e.0.Some? {
      var signed := ScanSign(s[1..]);
      ScanDigitsSpell(s[0] == 'E', signed.0, signed.1);
      hide ScanSign, ScanExpDigits, SpellSign;
      assert s == [s[0]] + s[1..];
      Regroup(SpellSign(signed.0), e.0.value.digits, e.1);
      Regroup([s[0]], SpellSign(signed.0) + e.0.value.digits, e.1);
    }
  }

  lemma ScanDigitsSpell(capital: bool, sign: Sign, s: string)
    requires ScanExpDigits(capital, sign, s).Some?
    ensures var (e, rest) := ScanExpDigits(capital, sign, s).value;
      && e.Some? && e.value.capital == capital && e.value.sign == sign
      && ValidExponent(e.value) && s == e.value.digits + rest
  {
  }

  lemma ScanSpells(s: string)
    requires Scan(s).Some?
    ensures Valid(Scan(s).value.0) && s == Spell(Scan(s).value.0) + Scan(s).value.1
  {
    hide ScanUnsigned;
    var neg := s != "" && s[0] == '-';
    var u := if neg then s[1..] else s;
    assert s == SpellNeg(neg) + u;
    ScanUnsignedSpells(neg, u);
    var (l, rest) := Scan(s).value;
    hide SpellNeg;
    Regroup(SpellNeg(neg), l.whole + (SpellFrac(l.frac) + SpellExp(l.exp)), rest);
  }

  lemma ScanUnsignedSpells(neg: bool, u: string)
    requires ScanUnsigned(neg, u).Some?
    ensures var (l, rest) := ScanUnsigned(neg, u).value;
      && l.neg == neg && Valid(l)
      && u == (l.whole + (SpellFrac(l.frac) + SpellExp(l.exp))) + rest
  {
    var n := DigitRun(u);
    var f := ScanFrac(u[n..]).value;
    var e := ScanExp(f.1).value;
    ScanFracSpells(u[n..]);
    ScanExpSpells(f.1);
    hide ScanFrac, ScanExp, SpellFrac, SpellExp;
    assert u == u[..n] + u[n..];
    Regroup(SpellFrac(f.0), SpellExp(e.0), e.1);
    Regroup(u[..n], SpellFrac(f.0) + SpellExp(e.0), e.1);
  }

  /** The strings read are exactly the spellings of valid numerals. */
  lemma ReadIsTheGrammar(s: string, l: Lexeme)
    ensures Read(s) == Some(l) <==> Valid(l) && s == Spell(l)
  {
    hide Scan, Spell, Valid;
    if Valid(l) && s == Spell(l) {
      ScanOfSpell(l, "");
      assert s + "" == s;
    }
    if Read(s) == Some(l) {
      ScanSpells(s);
      assert Spell(l) + "" == Spell(l);
    }
  }
}
