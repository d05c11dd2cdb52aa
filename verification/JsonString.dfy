/**
 JSON string literals (RFC 8259, section 7): the escapes canonical_json writes in
 server/pipeline/document.py, a reader for any literal, and the writer of
 server/cache.go, which agrees exactly on the strings that do not spell out a
 backslash in front of `u2028` or `u2029`.
 */
module JsonString {
  import opened Basics
  import opened Numeral

  // ----- writing -----------------------------------------------------------------

  function HexDigit(n: nat): char
    requires n < 16
  {
    if n < 10 then ('0' as int + n) as char else ('a' as int + (n - 10)) as char
  }

  const LINE_SEPARATOR := '\U{2028}'
  const PARAGRAPH_SEPARATOR := '\U{2029}'

  function Escape(c: char): string {
    if c == '"' then ['\\', '"']
    else if c == '\\' then ['\\', '\\']
    else if c == '\n' then ['\\', 'n']
    else if c == '\r' then ['\\', 'r']
    else if c == '\t' then ['\\', 't']
    else if c == '\U{8}' then ['\\', 'b']
    else if c == '\U{C}' then ['\\', 'f']
    else if c < ' ' then ['\\', 'u', '0', '0', HexDigit(c as int / 16), HexDigit(c as int % 16)]
    else [c]
  }

  function EscapeAll(s: string): string {
    if s == "" then "" else Escape(s[0]) + EscapeAll(s[1..])
  }

  /** json.dumps(value, ensure_ascii=False). */
  function Quoted(s: string): string {
    "\"" + (EscapeAll(s) + "\"")
  }

  // ----- reading -----------------------------------------------------------------

  function HexValue(c: char): Option<nat> {
    if '0' <= c <= '9' then Some(c as int - '0' as int)
    else if 'a' <= c <= 'f' then Some(c as int - 'a' as int + 10)
    else if 'A' <= c <= 'F' then Some(c as int - 'A' as int + 10)
    else None
  }

  function Hex4(s: string): (r: Option<nat>)
    ensures r.Some? ==> |s| >= 4 && r.value < 0x10000
  {
    if |s| < 4 then None
    else
      match (HexValue(s[0]), HexValue(s[1]), HexValue(s[2]), HexValue(s[3]))
      case (Some(a), Some(b), Some(c), Some(d)) =>
        if a < 16 && b < 16 && c < 16 && d < 16 then Some(((a * 16 + b) * 16 + c) * 16 + d) else None
      case _ => None
  }

  /** What follows `\u`: one code unit, or a surrogate pair. */
  function ReadUnicode(s: string): (r: Option<(char, string)>)
    ensures r.Some? ==> |r.value.1| < |s|
  {
    var unit := Hex4(s);
    if unit.None? then None
    else if unit.value < 0xD800 || unit.value >= 0xE000 then Some((unit.value as char, s[4..]))
    else if unit.value >= 0xDC00 || |s| < 6 || s[4] != '\\' || s[5] != 'u' then None
    else
      var low := Hex4(s[6..]);
      if low.None? || low.value < 0xDC00 || low.value >= 0xE000 then None
      else Some(((0x10000 + (unit.value - 0xD800) * 0x400 + (low.value - 0xDC00)) as char, s[10..]))
  }

  /** What follows a backslash. */
  function ReadEscape(s: string): (r: Option<(char, string)>)
    ensures r.Some? ==> |r.value.1| < |s|
  {
    if s == "" then None
    else if s[0] == '"' || s[0] == '\\' || s[0] == '/' then Some((s[0], s[1..]))
    else if s[0] == 'b' then Some(('\U{8}', s[1..]))
    else if s[0] == 'f' then Some(('\U{C}', s[1..]))
    else if s[0] == 'n' then Some(('\n', s[1..]))
    else if s[0] == 'r' then Some(('\r', s[1..]))
    else if s[0] == 't' then Some(('\t', s[1..]))
    else if s[0] == 'u' then ReadUnicode(s[1..])
    else None
  }

  /** One character of a literal; control characters must be escaped. */
  function ReadChar(s: string): (r: Option<(char, string)>)
    ensures r.Some? ==> |r.value.1| < |s|
  {
    if s == "" || s[0] < ' ' || s[0] == '"' then None
    else if s[0] == '\\' then ReadEscape(s[1..])
    else Some((s[0], s[1..]))
  }

  /** The rest of a literal after its opening quote. */
  function ReadChars(s: string): (r: Option<(string, string)>)
    ensures r.Some? ==> |r.value.1| < |s|
    decreases |s|
  {
    if s != "" && s[0] == '"' then Some(("", s[1..]))
    else
      var first := ReadChar(s);
      if first.None? then None
      else
        var others := ReadChars(first.value.1);
        if others.None? then None else Some(([first.value.0] + others.value.0, others.value.1))
  }

  lemma ReadCharOfEscape(c: char, rest: string)
    ensures ReadChar(Escape(c) + rest) == Some((c, rest))
    ensures Escape(c) != "" && Escape(c)[0] != '"'
  {
    var s := Escape(c) + rest;
    if |Escape(c)| == 6 {
      assert s[1..][1..] == [ '0', '0', HexDigit(c as int / 16), HexDigit(c as int % 16)] + rest;
      assert s[1..][1..][4..] == rest;
    } else if |Escape(c)| == 2 {
      assert s[1..][1..] == rest;
    } else {
      assert s[1..] == rest;
    }
  }

  /** No other way to write a character is shorter. */
  lemma EscapeIsShortest(c: char, t: string, rest: string)
    requires ReadChar(t + rest) == Some((c, rest))
    ensures |Escape(c)| <= |t|
  {
    var s := t + rest;
    assert t != "";
    assert s[0] == t[0];
    if t[0] != '\\' {
      assert c == t[0];
    } else {
      assert |s[1..]| > |rest|;
      assert |t| >= 2 && s[1..][0] == t[1];
      if t[1] == 'u' {
        assert |Escape(c)| <= 6;
        LongEscape(t, rest, c);
      }
    }
  }

  lemma LongEscape(t: string, rest: string, c: char)
    requires |t| >= 2 && t[0] == '\\' && t[1] == 'u' && ReadChar(t + rest) == Some((c, rest))
    ensures |t| >= 6
  {
    var s := t + rest;
    assert s[1..][0] == 'u';
    assert ReadUnicode(s[1..][1..]) == Some((c, rest));
    assert |s[1..][1..]| == |t| - 2 + |rest|;
  }

  /** Reading a written literal gives the string back. */
  lemma {:induction false} ReadCharsOfEscape(s: string, rest: string)
    ensures ReadChars(EscapeAll(s) + ("\"" + rest)) == Some((s, rest))
    decreases |s|
  {
    if s == "" {
      assert EscapeAll(s) + ("\"" + rest) == "\"" + rest;
    } else {
      hide Escape, ReadChar;
      ReadCharOfEscape(s[0], EscapeAll(s[1..]) + ("\"" + rest));
      Regroup(Escape(s[0]), EscapeAll(s[1..]), "\"" + rest);
      ReadCharsOfEscape(s[1..], rest);
      assert s == [s[0]] + s[1..];
    }
  }

  // ----- the Go writer --------------------------------------------------------------

  /** encoding/json also escapes the two separators. */
  function GoEscape(c: char): string {
    if c == LINE_SEPARATOR then ['\\', 'u', '2', '0', '2', '8']
    else if c == PARAGRAPH_SEPARATOR then ['\\', 'u', '2', '0', '2', '9']
    else Escape(c)
  }

  function GoEscapeAll(s: string): string {
    if s == "" then "" else GoEscape(s[0]) + GoEscapeAll(s[1..])
  }

  predicate StartsWith(s: string, p: string) {
    |p| <= |s| && s[..|p|] == p
  }

  /** bytes.ReplaceAll: leftmost matches that do not overlap. */
  function ReplaceAll(s: string, p: string, put: string): string
    requires p != ""
    decreases |s|
  {
    if s == "" then ""
    else if StartsWith(s, p) then put + ReplaceAll(s[|p|..], p, put)
    else [s[0]] + ReplaceAll(s[1..], p, put)
  }

  /** The six characters of an escaped separator. */
  function Spelled(last: char): string {
    ['\\'] + Tail(last)
  }

  function Tail(last: char): string {
    ['u', '2', '0', '2', last]
  }

  /** writeCanonicalJSONString: escape, then put the separators back. */
  function GoQuoted(s: string): string {
    "\"" + (PutBack(PutBack(GoEscapeAll(s), '8'), '9') + "\"")
  }

  function PutBack(text: string, last: char): string {
    ReplaceAll(text, Spelled(last), [if last == '8' then LINE_SEPARATOR else PARAGRAPH_SEPARATOR])
  }

  /** The string itself holds a backslash and the rest of a separator's escape. */
  predicate Spells(s: string, last: char): (b: bool)
    ensures b ==> |s| >= 6
  {
    s != "" && s[0] == '\\' && StartsWith(s[1..], Tail(last))
  }

  predicate HoldsSpelling(s: string) {
    exists i | 0 <= i < |s| :: Spells(s[i..], '8') || Spells(s[i..], '9')
  }

  /** The text once the separators ending in `8`, then those ending in `9`, are put back. */
  function Restored(s: string, eight: bool, nine: bool): string
    decreases |s|
  {
    if s == "" then ""
    else if eight && Spells(s, '8') then ['\\', LINE_SEPARATOR] + Restored(s[6..], eight, nine)
    else if nine && Spells(s, '9') then ['\\', PARAGRAPH_SEPARATOR] + Restored(s[6..], eight, nine)
    else Piece(s[0], eight, nine) + Restored(s[1..], eight, nine)
  }

  function Piece(c: char, eight: bool, nine: bool): string {
    if (eight && c == LINE_SEPARATOR) || (nine && c == PARAGRAPH_SEPARATOR) then [c] else GoEscape(c)
  }

  lemma {:induction false} NothingRestored(s: string)
    ensures Restored(s, false, false) == GoEscapeAll(s)
    decreases |s|
  {
    if s != "" {
      NothingRestored(s[1..]);
    }
  }

  /** A piece in which no match starts is copied. */
  lemma {:induction false} Copied(piece: string, rest: string, p: string, put: string)
    requires p != "" && forall i | 0 <= i < |piece| :: !StartsWith(piece[i..] + rest, p)
    ensures ReplaceAll(piece + rest, p, put) == piece + ReplaceAll(rest, p, put)
    decreases |piece|
  {
    if piece == "" {
      assert piece + rest == rest;
    } else {
      assert piece[0..] + rest == piece + rest;
      assert (piece + rest)[1..] == piece[1..] + rest;
      forall i | 0 <= i < |piece| - 1 ensures !StartsWith(piece[1..][i..] + rest, p) {
        assert piece[1..][i..] == piece[i + 1..];
      }
      Copied(piece[1..], rest, p, put);
      Regroup([piece[0]], piece[1..], ReplaceAll(rest, p, put));
    }
  }

  predicate Plain(c: char) {
    c == 'u' || c == '0' || c == '2' || c == '8' || c == '9'
  }

  /** Plain characters are neither made nor lost by the escapes. */
  lemma {:induction false} PlainPrefix(s: string, w: string, eight: bool, nine: bool)
    requires forall i | 0 <= i < |w| :: Plain(w[i])
    ensures StartsWith(Restored(s, eight, nine), w) <==> StartsWith(s, w)
    decreases |w|
  {
    if w != "" && s != "" {
      var r := Restored(s, eight, nine);
      Uncons(r, w);
      Uncons(s, w);
      if Plain(s[0]) {
        PlainPrefix(s[1..], w[1..], eight, nine);
        assert r == [s[0]] + Restored(s[1..], eight, nine);
      } else {
        assert Plain(w[0]) && r[0] in ['\\', s[0]];
      }
    }
  }

  lemma Uncons(s: string, w: string)
    requires s != "" && w != ""
    ensures StartsWith(s, w) <==> s[0] == w[0] && StartsWith(s[1..], w[1..])
  {
    if s[0] == w[0] && StartsWith(s[1..], w[1..]) {
      assert s[..|w|] == [s[0]] + s[1..][..|w| - 1];
    }
    if StartsWith(s, w) {
      assert s[1..][..|w| - 1] == s[..|w|][1..];
    }
  }

  /** A backslash starts a match exactly when the tail follows. */
  lemma MatchAt(t: string, last: char)
    ensures StartsWith(t, Spelled(last)) <==> t != "" && t[0] == '\\' && StartsWith(t[1..], Tail(last))
  {
    if t != "" {
      Uncons(t, Spelled(last));
      assert Spelled(last)[1..] == Tail(last);
    }
  }

  lemma PlainFirst(s: string, eight: bool, nine: bool)
    requires s != "" && Plain(s[0])
    ensures Restored(s, eight, nine) == [s[0]] + Restored(s[1..], eight, nine)
  {
    assert Piece(s[0], eight, nine) == [s[0]];
  }

  lemma {:induction false} PlainRun(w: string, rest: string, eight: bool, nine: bool)
    requires forall i | 0 <= i < |w| :: Plain(w[i])
    ensures Restored(w + rest, eight, nine) == w + Restored(rest, eight, nine)
    decreases |w|
  {
    hide Restored;
    if w == "" {
      assert w + rest == rest;
      assert w + Restored(rest, eight, nine) == Restored(rest, eight, nine);
    } else {
      assert (w + rest)[1..] == w[1..] + rest && (w + rest)[0] == w[0];
      PlainFirst(w + rest, eight, nine);
      PlainRun(w[1..], rest, eight, nine);
      assert w == [w[0]] + w[1..];
      Regroup([w[0]], w[1..], Restored(rest, eight, nine));
    }
  }

  /** An escape other than that of this separator, in front of no tail, holds no match. */
  lemma NoMatchInPiece(c: char, rest: string, last: char, nine: bool)
    requires last == '8' || last == '9'
    requires c == '\\' ==> !StartsWith(rest, Tail(last))
    requires c != (if last == '8' then LINE_SEPARATOR else PARAGRAPH_SEPARATOR)
    ensures forall i | 0 <= i < |Piece(c, nine, false)| :: !StartsWith(Piece(c, nine, false)[i..] + rest, Spelled(last))
  {
    var piece := Piece(c, nine, false);
    forall i | 0 <= i < |piece| ensures !StartsWith(piece[i..] + rest, Spelled(last)) {
      var t := piece[i..] + rest;
      MatchAt(t, last);
      assert t[0] == piece[i];
      if piece[i] == '\\' {
        if i + 1 < |piece| {
          assert t[1] == piece[i + 1];
          if |piece| == 6 {
            assert t[2] == piece[2] && t[5] == piece[5];
          }
        } else {
          assert t[1..] == rest;
        }
      }
    }
  }

  /** One replacement puts back one separator, and eats every spelled tail. */
  lemma {:induction false} PutBackOne(s: string, last: char)
    requires last == '8' || last == '9'
    ensures PutBack(Restored(s, last == '9', false), last) == Restored(s, true, last == '9')
    decreases |s|
  {
    hide PutBack, Piece, StartsWith;
    var nine := last == '9';
    if s == "" {
      PutBackNothing(last);
    } else if nine && Spells(s, '8') {
      PutBackOne(s[6..], last);
      PutBackPast8(Restored(s[6..], true, false));
    } else if Spells(s, last) {
      PutBackOne(s[6..], last);
      PutBackSpelled(s, last);
    } else {
      PutBackOne(s[1..], last);
      PutBackPiece(s, last);
    }
  }

  lemma PutBackNothing(last: char)
    ensures PutBack("", last) == ""
  {
  }

  lemma PutBackPiece(s: string, last: char)
    requires last == '8' || last == '9'
    requires s != "" && !Spells(s, last)
    ensures var rest := Restored(s[1..], last == '9', false);
      PutBack(Piece(s[0], last == '9', false) + rest, last) == Piece(s[0], true, last == '9') + PutBack(rest, last)
  {
    hide Restored, ReplaceAll;
    var nine := last == '9';
    var rest := Restored(s[1..], nine, false);
    var put := [if nine then PARAGRAPH_SEPARATOR else LINE_SEPARATOR];
    if [s[0]] == put {
      assert put[0] == s[0];
      assert Piece(s[0], nine, false) == Spelled(last) && Piece(s[0], true, nine) == put;
      PutBackHere(rest, last);
    } else {
      PlainPrefix(s[1..], Tail(last), nine, false);
      NoMatchInPiece(s[0], rest, last, nine);
      Copied(Piece(s[0], nine, false), rest, Spelled(last), put);
    }
  }

  lemma PutBackPast8(rest: string)
    ensures PutBack(['\\', LINE_SEPARATOR] + rest, '9') == ['\\', LINE_SEPARATOR] + PutBack(rest, '9')
  {
    var piece := ['\\', LINE_SEPARATOR];
    forall i | 0 <= i < |piece| ensures !StartsWith(piece[i..] + rest, Spelled('9')) {
      var t := piece[i..] + rest;
      MatchAt(t, '9');
    }
    Copied(piece, rest, Spelled('9'), [PARAGRAPH_SEPARATOR]);
  }

  /** A match in front is replaced. */
  lemma PutBackHere(rest: string, last: char)
    ensures PutBack(Spelled(last) + rest, last)
         == [if last == '8' then LINE_SEPARATOR else PARAGRAPH_SEPARATOR] + PutBack(rest, last)
  {
    Split(Spelled(last), rest);
  }

  /** An escaped backslash and a tail: the match starts at the second backslash. */
  lemma PutBackSpelled(s: string, last: char)
    requires last == '8' || last == '9'
    requires Spells(s, last) && !(last == '9' && Spells(s, '8'))
    ensures PutBack(Restored(s, last == '9', false), last)
         == ['\\', if last == '9' then PARAGRAPH_SEPARATOR else LINE_SEPARATOR]
            + PutBack(Restored(s[6..], last == '9', false), last)
  {
    SpelledEscapes(s, last);
    BackslashThenMatch(Restored(s[6..], last == '9', false), last);
    hide *;
  }

  lemma BackslashThenMatch(rest: string, last: char)
    requires last == '8' || last == '9'
    ensures PutBack(['\\'] + (Spelled(last) + rest), last)
         == ['\\', if last == '9' then PARAGRAPH_SEPARATOR else LINE_SEPARATOR] + PutBack(rest, last)
  {
    var put := [if last == '9' then PARAGRAPH_SEPARATOR else LINE_SEPARATOR];
    assert (Spelled(last) + rest)[0] == '\\';
    assert ['\\'] + put == ['\\', if last == '9' then PARAGRAPH_SEPARATOR else LINE_SEPARATOR];
    BackslashCopied(Spelled(last) + rest, last);
    PutBackHere(rest, last);
    hide *;
    Regroup(['\\'], put, PutBack(rest, last));
  }

  lemma SpelledEscapes(s: string, last: char)
    requires last == '8' || last == '9'
    requires Spells(s, last) && !(last == '9' && Spells(s, '8'))
    ensures Restored(s, last == '9', false) == ['\\'] + (Spelled(last) + Restored(s[6..], last == '9', false))
  {
    var nine := last == '9';
    assert s[1..] == Tail(last) + s[6..];
    PlainRun(Tail(last), s[6..], nine, false);
    assert Restored(s, nine, false) == ['\\', '\\'] + Restored(s[1..], nine, false);
    assert ['\\', '\\'] == ['\\'] + ['\\'];
    Regroup(['\\'], ['\\'], Tail(last) + Restored(s[6..], nine, false));
    Regroup(['\\'], Tail(last), Restored(s[6..], nine, false));
  }

  lemma BackslashCopied(rest: string, last: char)
    requires rest != "" && rest[0] == '\\'
    ensures PutBack(['\\'] + rest, last) == ['\\'] + PutBack(rest, last)
  {
    var t := ['\\'] + rest;
    assert t[1..] == rest;
    MatchAt(t, last);
  }

  /** Putting back is exact where the string spells no separator, and shortens it where it does. */
  lemma {:induction false} RestoredAgainstEscaped(s: string)
    ensures |Restored(s, true, true)| <= |EscapeAll(s)|
    ensures HoldsSpelling(s) ==> |Restored(s, true, true)| < |EscapeAll(s)|
    ensures !HoldsSpelling(s) ==> Restored(s, true, true) == EscapeAll(s)
    decreases |s|
  {
    if s != "" {
      if Spells(s, '8') || Spells(s, '9') {
        RestoredAgainstEscaped(s[6..]);
        EscapedIsNoShorter(s, 6);
        assert EscapeAll(s) == Escape(s[0]) + EscapeAll(s[1..]);
        EscapedIsNoShorter(s[1..], 5);
        assert s[1..][5..] == s[6..];
        assert s[0..] == s;
      } else {
        RestoredAgainstEscaped(s[1..]);
        assert Piece(s[0], true, true) == Escape(s[0]);
        if HoldsSpelling(s) {
          var i :| 0 <= i < |s| && (Spells(s[i..], '8') || Spells(s[i..], '9'));
          assert s[0..] == s;
          assert s[1..][i - 1..] == s[i..];
        } else {
          forall i | 0 <= i < |s| - 1 ensures !Spells(s[1..][i..], '8') && !Spells(s[1..][i..], '9') {
            assert s[1..][i..] == s[i + 1..];
          }
        }
      }
    }
  }

  lemma {:induction false} EscapedIsNoShorter(s: string, n: nat)
    requires n <= |s|
    ensures |EscapeAll(s)| >= n + |EscapeAll(s[n..])|
    decreases n
  {
    if n > 0 {
      EscapedIsNoShorter(s[1..], n - 1);
      assert s[1..][n - 1..] == s[n..];
    }
  }

  /** The two runtimes write the same literal for exactly the strings that hold no spelled separator. */
  lemma WritersAgree(s: string)
    ensures GoQuoted(s) == Quoted(s) <==> !HoldsSpelling(s)
  {
    hide PutBack, EscapeAll, Restored, HoldsSpelling;
    NothingRestored(s);
    PutBackOne(s, '8');
    PutBackOne(s, '9');
    RestoredAgainstEscaped(s);
    assert |GoQuoted(s)| == |Restored(s, true, true)| + 2;
  }

  /** What the Go writer makes of the other strings is no JSON literal at all. */
  lemma {:induction false} SpellingIsCorrupted(s: string, rest: string)
    requires HoldsSpelling(s)
    ensures ReadChars(Restored(s, true, true) + rest) == None
    decreases |s|
  {
    var text := Restored(s, true, true) + rest;
    if Spells(s, '8') || Spells(s, '9') {
      assert text[0] == '\\' && text[1..][0] in [LINE_SEPARATOR, PARAGRAPH_SEPARATOR];
    } else {
      var i :| 0 <= i < |s| && (Spells(s[i..], '8') || Spells(s[i..], '9'));
      assert s[0..] == s;
      assert s[1..][i - 1..] == s[i..];
      SpellingIsCorrupted(s[1..], rest);
      RestoredStep(s);
      hide Restored, Escape, ReadChar, StartsWith;
      Regroup(Escape(s[0]), Restored(s[1..], true, true), rest);
      ReadCharOfEscape(s[0], Restored(s[1..], true, true) + rest);
    }
  }

  lemma RestoredStep(s: string)
    requires s != "" && !Spells(s, '8') && !Spells(s, '9')
    ensures Restored(s, true, true) == Escape(s[0]) + Restored(s[1..], true, true)
  {
  }

  /** A Go literal can be read back exactly when the string holds no spelled separator. */
  lemma GoLiteralIsReadable(s: string)
    ensures ReadChars(GoQuoted(s)[1..]) == (if HoldsSpelling(s) then None else Some((s, "")))
  {
    hide PutBack, EscapeAll, Restored, HoldsSpelling, ReadChars;
    NothingRestored(s);
    PutBackOne(s, '8');
    PutBackOne(s, '9');
    assert GoQuoted(s)[1..] == Restored(s, true, true) + "\"";
    if HoldsSpelling(s) {
      SpellingIsCorrupted(s, "\"");
    } else {
      RestoredAgainstEscaped(s);
      ReadCharsOfEscape(s, "");
      assert "\"" + "" == "\"";
    }
  }
}
