/** Python's str.strip. */
module PyText {
  /** The white space strip takes off. */
  predicate Blank(c: char) {
    var n := c as int;
    9 <= n <= 13 || 0x1C <= n <= 0x20 || n == 0x85 || n == 0xA0 || n == 0x1680 || 0x2000 <= n <= 0x200A
    || n == 0x2028 || n == 0x2029 || n == 0x202F || n == 0x205F || n == 0x3000
  }

  function TrimFront(s: string): string {
    if s != "" && Blank(s[0]) then TrimFront(s[1..]) else s
  }

  function TrimBack(s: string): string {
    if s != "" && Blank(s[|s| - 1]) then TrimBack(s[..|s| - 1]) else s
  }

  function Strip(s: string): string {
    TrimBack(TrimFront(s))
  }

  predicate Trimmed(s: string) {
    s == "" || (!Blank(s[0]) && !Blank(s[|s| - 1]))
  }

  lemma {:induction false} TrimFrontEnds(s: string)
    ensures TrimFront(s) == "" || !Blank(TrimFront(s)[0])
    decreases |s|
  {
    if s != "" && Blank(s[0]) {
      TrimFrontEnds(s[1..]);
    }
  }

  lemma {:induction false} TrimBackEnds(s: string)
    requires s == "" || !Blank(s[0])
    ensures Trimmed(TrimBack(s))
    decreases |s|
  {
    if s != "" && Blank(s[|s| - 1]) {
      TrimBackEnds(s[..|s| - 1]);
    }
  }

  lemma StripIsTrimmed(s: string)
    ensures Trimmed(Strip(s)) && Strip(Strip(s)) == Strip(s)
  {
    TrimFrontEnds(s);
    TrimBackEnds(TrimFront(s));
  }
}
