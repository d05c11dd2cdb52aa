/**
 `_word_wrap` and `_break_word_to_fit` of server/kindle/text_renderer.py: for any way of
 measuring text, the lines spell the words in order and fit, or are one forced character.
 */
module WordWrap {
  // ----- what lines spell ------------------------------------------------------------------

  /** A word or a part of one; `ends` marks the part that ends its word. */
  datatype Bit = Bit(text: string, ends: bool)

  /** The words that consecutive bits make up, after the open part of a word. */
  function WordsOf(open: string, bits: seq<Bit>): seq<string>
    decreases |bits|
  {
    if bits == [] then (if open == "" then [] else [open])
    else if bits[0].ends then [open + bits[0].text] + WordsOf("", bits[1..])
    else WordsOf(open + bits[0].text, bits[1..])
  }

  function Joined(bits: seq<Bit>): string {
    if bits == [] then ""
    else if |bits| == 1 then bits[0].text
    else Joined(bits[..|bits| - 1]) + " " + bits[|bits| - 1].text
  }

  /** Words side by side; only the last bit may be part of a word that goes on, then with a hyphen or alone. */
  predicate Spells(line: string, bits: seq<Bit>) {
    && bits != [] && (forall i | 0 <= i < |bits| - 1 :: bits[i].ends)
    && (line == Joined(bits) || (line == Joined(bits) + "-" && !bits[|bits| - 1].ends))
  }

  function Flat(layout: seq<seq<Bit>>): seq<Bit> {
    if layout == [] then [] else Flat(layout[..|layout| - 1]) + layout[|layout| - 1]
  }

  type Measure = string -> int

  predicate Fits(width: Measure, max: int, line: string) {
    width(line) <= max
  }

  /** A line fits, or is a single character. */
  predicate FitsOrForced(width: Measure, max: int, line: string) {
    Fits(width, max, line) || |line| == 1
  }

  predicate Closed(bits: seq<Bit>) {
    bits == [] || bits[|bits| - 1].ends
  }

  lemma {:induction false} WordsAppend(open: string, a: seq<Bit>, b: seq<Bit>)
    requires Closed(a) && (a == [] ==> open == "")
    ensures WordsOf(open, a + b) == WordsOf(open, a) + WordsOf("", b)
    decreases |a|
  {
    if a == [] {
      assert a + b == b;
    } else {
      assert (a + b)[1..] == a[1..] + b;
      WordsAppend(if a[0].ends then "" else open + a[0].text, a[1..], b);
    }
  }

  lemma WordsOfWord(word: string)
    requires word != ""
    ensures WordsOf("", [Bit(word, true)]) == [word]
  {
    assert "" + word == word;
  }

  lemma FlatGrows(layout: seq<seq<Bit>>, bits: seq<Bit>)
    ensures Flat(layout + [bits]) == Flat(layout) + bits
  {
    assert (layout + [bits])[..|layout|] == layout;
  }

  // ----- breaking one word ------------------------------------------------------------------

  function Display(remaining: string, end: nat): string
    requires end <= |remaining|
  {
    if end < |remaining| then remaining[..end] + "-" else remaining
  }

  /** The longest prefix that fits as it would be shown, or 0. */
  method LongestFit(remaining: string, width: Measure, max: int) returns (end: nat)
    ensures end <= |remaining|
    ensures end > 0 ==> Fits(width, max, Display(remaining, end))
    ensures forall k | end < k <= |remaining| :: !Fits(width, max, Display(remaining, k))
  {
    end := |remaining|;
    while end > 0
      invariant end <= |remaining|
      invariant forall k | end < k <= |remaining| :: !Fits(width, max, Display(remaining, k))
    {
      if Fits(width, max, Display(remaining, end)) {
        return;
      }
      end := end - 1;
    }
  }

  /** The fragments show consecutive parts of the word, the last one ending it. */
  ghost predicate Breaks(word: string, fragments: seq<string>, bits: seq<Bit>) {
    && |fragments| == |bits| > 0
    && (forall i | 0 <= i < |bits| :: bits[i].text != "" && (bits[i].ends <==> i == |bits| - 1) && Spells(fragments[i], [bits[i]]))
    && WordsOf("", bits) == [word]
  }

  function TextOf(bits: seq<Bit>): string {
    if bits == [] then "" else bits[0].text + TextOf(bits[1..])
  }

  /** Open parts and then an end make one word. */
  lemma {:induction false} OneWord(open: string, bits: seq<Bit>, last: Bit)
    requires (forall i | 0 <= i < |bits| :: !bits[i].ends) && last.ends
    ensures WordsOf(open, bits + [last]) == [open + TextOf(bits + [last])]
    decreases |bits|
  {
    if bits == [] {
      assert [] + [last] == [last];
      assert [last][1..] == [];
      assert TextOf([last]) == last.text + TextOf([]);
      assert last.text + "" == last.text;
    } else {
      assert (bits + [last])[1..] == bits[1..] + [last];
      OneWord(open + bits[0].text, bits[1..], last);
      assert open + TextOf(bits + [last]) == (open + bits[0].text) + TextOf(bits[1..] + [last]);
    }
  }

  lemma {:induction false} TextGrows(bits: seq<Bit>, b: Bit)
    ensures TextOf(bits + [b]) == TextOf(bits) + b.text
    decreases |bits|
  {
    if bits == [] {
      assert [] + [b] == [b] && [b][1..] == [];
      assert TextOf([b]) == b.text + TextOf([]);
    } else {
      assert (bits + [b])[1..] == bits[1..] + [b];
      TextGrows(bits[1..], b);
    }
  }

  /** What is broken off so far, and what remains. */
  ghost predicate Broken(word: string, fragments: seq<string>, bits: seq<Bit>, remaining: string) {
    && |fragments| == |bits|
    && (forall i | 0 <= i < |bits| :: bits[i].text != "" && Spells(fragments[i], [bits[i]]))
    && (forall i | 0 <= i < |bits| :: bits[i].ends <==> (i == |bits| - 1 && remaining == ""))
    && TextOf(bits) + remaining == word
    && (remaining == "" ==> bits != [] && WordsOf("", bits) == [word])
  }

  lemma PartSpells(remaining: string, end: nat, shown: string)
    requires 0 < end <= |remaining| && (shown == Display(remaining, end) || shown == remaining[..end])
    ensures Spells(shown, [Bit(remaining[..end], end == |remaining|)])
  {
    assert Joined([Bit(remaining[..end], end == |remaining|)]) == remaining[..end];
  }

  lemma BreakOn(word: string, fragments: seq<string>, bits: seq<Bit>, remaining: string, end: nat, shown: string)
    requires Broken(word, fragments, bits, remaining) && 0 < end <= |remaining|
    requires shown == Display(remaining, end) || shown == remaining[..end]
    ensures Broken(word, fragments + [shown], bits + [Bit(remaining[..end], end == |remaining|)], remaining[end..])
  {
    var b := Bit(remaining[..end], end == |remaining|);
    PartSpells(remaining, end, shown);
    hide TextOf, WordsOf, Spells, Display;
    TextGrows(bits, b);
    assert (TextOf(bits) + b.text) + remaining[end..] == TextOf(bits) + remaining;
    if b.ends {
      OneWord("", bits, b);
      assert remaining[end..] == "" && "" + TextOf(bits + [b]) == TextOf(bits + [b]) + "";
    }
  }

  /** The fragment shows the longest part of the rest that fits as it is shown, or one character where none does. */
  ghost predicate Longest(width: Measure, max: int, rest: string, fragment: string, text: string) {
    && 0 < |text| <= |rest| && text == rest[..|text|]
    && (forall k | |text| < k <= |rest| :: !Fits(width, max, Display(rest, k)))
    && if Fits(width, max, Display(rest, |text|)) then fragment == Display(rest, |text|)
       else |text| == 1 && fragment == text
  }

  /** What is left of a word from its `i`-th fragment on. */
  function Rest(word: string, bits: seq<Bit>, i: nat): string
    requires i <= |bits|
  {
    var n := |TextOf(bits[..i])|;
    if n <= |word| then word[n..] else ""
  }

  ghost predicate AllLongest(width: Measure, max: int, word: string, fragments: seq<string>, bits: seq<Bit>)
    requires |fragments| == |bits|
  {
    forall i | 0 <= i < |bits| :: Longest(width, max, Rest(word, bits, i), fragments[i], bits[i].text)
  }

  lemma NextIsLongest(width: Measure, max: int, word: string, fragments: seq<string>, bits: seq<Bit>, remaining: string,
                      end: nat, shown: string)
    requires Broken(word, fragments, bits, remaining) && 0 < end <= |remaining|
    requires AllLongest(width, max, word, fragments, bits) && Longest(width, max, remaining, shown, remaining[..end])
    ensures AllLongest(width, max, word, fragments + [shown], bits + [Bit(remaining[..end], end == |remaining|)])
  {
    var b := Bit(remaining[..end], end == |remaining|);
    var more, longer := fragments + [shown], bits + [b];
    assert word[|TextOf(bits)|..] == remaining;
    hide TextOf, Longest;
    forall i | 0 <= i < |longer| ensures Longest(width, max, Rest(word, longer, i), more[i], longer[i].text) {
      if i < |bits| {
        assert longer[..i] == bits[..i];
      } else {
        assert longer[..i] == bits;
      }
    }
  }

  /** `_break_word_to_fit`. */
  method BreakWordToFit(word: string, width: Measure, max: int) returns (fragments: seq<string>, ghost bits: seq<Bit>)
    requires word != ""
    ensures Breaks(word, fragments, bits)
    ensures forall i | 0 <= i < |fragments| :: FitsOrForced(width, max, fragments[i])
    ensures AllLongest(width, max, word, fragments, bits)
  {
    fragments := [];
    bits := [];
    var remaining := word;
    assert TextOf([]) + word == word;
    hide TextOf, WordsOf, Spells, FitsOrForced, Fits, AllLongest;
    assert AllLongest(width, max, word, fragments, bits) by {
      NothingIsLongest(width, max, word);
    }
    while remaining != ""
      invariant Broken(word, fragments, bits, remaining)
      invariant forall i | 0 <= i < |fragments| :: FitsOrForced(width, max, fragments[i])
      invariant |fragments| == |bits| && AllLongest(width, max, word, fragments, bits)
      decreases |remaining|
    {
      var end := LongestFit(remaining, width, max);
      var shown := remaining[..1];
      if end > 0 {
        shown := Display(remaining, end);
      } else {
        end := 1;
      }
      BreakOn(word, fragments, bits, remaining, end, shown);
      assert Longest(width, max, remaining, shown, remaining[..end]);
      NextIsLongest(width, max, word, fragments, bits, remaining, end, shown);
      fragments := fragments + [shown];
      bits := bits + [Bit(remaining[..end], end == |remaining|)];
      remaining := remaining[end..];
    }
  }

  lemma NothingIsLongest(width: Measure, max: int, word: string)
    ensures AllLongest(width, max, word, [], [])
  {
  }

  // ----- wrapping -----------------------------------------------------------------------------

  /** The finished lines and the current one spell the words so far. */
  ghost predicate Wrapped(words: seq<string>, lines: seq<string>, layout: seq<seq<Bit>>, current: string, bits: seq<Bit>) {
    && |layout| == |lines| && (forall i | 0 <= i < |lines| :: Spells(lines[i], layout[i]))
    && (current == "" <==> bits == []) && current == Joined(bits)
    && (forall i | 0 <= i < |bits| :: bits[i].ends && bits[i].text != "")
    && WordsOf("", Flat(layout) + bits) == words
    && (bits == [] ==> Closed(Flat(layout)))
  }

  lemma AddWord(words: seq<string>, lines: seq<string>, layout: seq<seq<Bit>>, current: string, bits: seq<Bit>, word: string)
    requires Wrapped(words, lines, layout, current, bits) && word != ""
    ensures Wrapped(words + [word], lines, layout, if bits == [] then word else current + " " + word, bits + [Bit(word, true)])
  {
    var b := Bit(word, true);
    assert (bits + [b])[..|bits|] == bits;
    assert (Flat(layout) + bits) + [b] == Flat(layout) + (bits + [b]);
    assert Closed(Flat(layout) + bits);
    WordsAppend("", Flat(layout) + bits, [b]);
    WordsOfWord(word);
  }

  lemma PushLine(words: seq<string>, lines: seq<string>, layout: seq<seq<Bit>>, current: string, bits: seq<Bit>)
    requires Wrapped(words, lines, layout, current, bits) && bits != []
    ensures Wrapped(words, lines + [current], layout + [bits], "", [])
  {
    hide WordsOf, Flat, Joined, Spells;
    NothingJoined();
    FlatGrows(layout, bits);
    WholeLineSpells(current, bits);
    assert Flat(layout + [bits]) + [] == Flat(layout) + bits;
  }

  lemma WholeLineSpells(line: string, bits: seq<Bit>)
    requires bits != [] && line == Joined(bits) && forall i | 0 <= i < |bits| :: bits[i].ends
    ensures Spells(line, bits)
  {
    hide Joined;
  }

  lemma NothingJoined()
    ensures Joined([]) == ""
  {
  }

  /** Each bit on a line of its own. */
  function Singles(bits: seq<Bit>): (r: seq<seq<Bit>>)
    ensures |r| == |bits| && forall i | 0 <= i < |bits| :: r[i] == [bits[i]]
  {
    seq(|bits|, i requires 0 <= i < |bits| => [bits[i]])
  }

  lemma {:induction false} FlatSingles(layout: seq<seq<Bit>>, bits: seq<Bit>)
    ensures Flat(layout + Singles(bits)) == Flat(layout) + bits
    decreases |bits|
  {
    hide Flat;
    if bits == [] {
      assert layout + Singles(bits) == layout;
      assert Flat(layout) + bits == Flat(layout);
    } else {
      var n := |bits| - 1;
      var a, b := bits[..n], [bits[n]];
      assert bits == a + b;
      FlatSingles(layout, a);
      SinglesGrow(layout, a, bits[n]);
      hide Singles;
      FlatGrows(layout + Singles(a), b);
      assert Flat(layout) + (a + b) == (Flat(layout) + a) + b;
    }
  }

  lemma SinglesGrow(layout: seq<seq<Bit>>, a: seq<Bit>, b: Bit)
    ensures layout + Singles(a + [b]) == (layout + Singles(a)) + [[b]]
  {
  }

  lemma AddFragments(words: seq<string>, lines: seq<string>, layout: seq<seq<Bit>>,
                     word: string, fragments: seq<string>, bits: seq<Bit>)
    requires Wrapped(words, lines, layout, "", []) && Breaks(word, fragments, bits)
    ensures var n := |bits| - 1;
      Wrapped(words + [word], lines + fragments[..n], layout + Singles(bits[..n]), fragments[n], [bits[n]])
  {
    var n := |bits| - 1;
    var open, last := bits[..n], bits[n];
    assert bits == open + [last];
    assert Joined([last]) == last.text;
    LastIsWhole(fragments[n], last);
    hide WordsOf, Flat, Joined, Spells, Singles;
    FlatSingles(layout, open);
    assert (Flat(layout) + open) + [last] == Flat(layout) + bits;
    assert Flat(layout) + [] == Flat(layout);
    WordsAppend("", Flat(layout), bits);
    FragmentLines(lines, layout, fragments, open);
  }

  lemma FragmentLines(lines: seq<string>, layout: seq<seq<Bit>>, fragments: seq<string>, open: seq<Bit>)
    requires |layout| == |lines| && forall i | 0 <= i < |lines| :: Spells(lines[i], layout[i])
    requires |open| <= |fragments| && forall i | 0 <= i < |open| :: Spells(fragments[i], [open[i]])
    ensures var a, b := lines + fragments[..|open|], layout + Singles(open);
      |a| == |b| && forall i | 0 <= i < |a| :: Spells(a[i], b[i])
  {
    hide Spells, Singles;
    var a, b := lines + fragments[..|open|], layout + Singles(open);
    forall i | 0 <= i < |a| ensures Spells(a[i], b[i]) {
      if i >= |lines| {
        assert b[i] == [open[i - |lines|]];
      }
    }
  }

  lemma LastIsWhole(line: string, b: Bit)
    requires Spells(line, [b]) && b.ends
    ensures line == b.text
  {
    assert Joined([b]) == b.text;
  }

  predicate AllFit(width: Measure, max: int, lines: seq<string>) {
    forall i | 0 <= i < |lines| :: FitsOrForced(width, max, lines[i])
  }

  /**
   The last of these lines is full: the word that comes next would not fit behind it; or,
   where it shows a part of a word, that word is too wide for a line and the part is the
   longest that fits.
   */
  ghost predicate Full(width: Measure, max: int, words: seq<string>, line: string, layout: seq<seq<Bit>>) {
    && layout != [] && layout[|layout| - 1] != []
    && var done, bits := WordsOf("", Flat(layout)), layout[|layout| - 1];
       if bits[|bits| - 1].ends then
         && |done| < |words| && done == words[..|done|]
         && !Fits(width, max, line + " " + words[|done|])
       else
         && |bits| == 1 && 0 < |done| <= |words|
         && var m := |done| - 1; var word, begun, part := words[m], done[m], bits[0].text;
            && done[..m] == words[..m] && !Fits(width, max, word)
            && |part| <= |begun| <= |word| && begun == word[..|begun|]
            && Longest(width, max, word[|begun| - |part|..], line, part)
  }

  ghost predicate AllFull(width: Measure, max: int, words: seq<string>, lines: seq<string>, layout: seq<seq<Bit>>, n: nat)
    requires n <= |lines| == |layout|
  {
    forall k | 0 <= k < n :: Full(width, max, words, lines[k], layout[..k + 1])
  }

  lemma FullStays(width: Measure, max: int, words: seq<string>, lines: seq<string>, layout: seq<seq<Bit>>,
                  more: seq<string>, moreLayout: seq<seq<Bit>>)
    requires |lines| == |layout| && |more| == |moreLayout| && AllFull(width, max, words, lines, layout, |lines|)
    requires forall j | 0 <= j < |more| ::
               Full(width, max, words, more[j], layout + moreLayout[..j + 1])
    ensures AllFull(width, max, words, lines + more, layout + moreLayout, |lines + more|)
  {
    hide Full;
    var a, b := lines + more, layout + moreLayout;
    forall k | 0 <= k < |a| ensures Full(width, max, words, a[k], b[..k + 1]) {
      if k < |lines| {
        assert b[..k + 1] == layout[..k + 1];
      } else {
        assert b[..k + 1] == layout + moreLayout[..k - |lines| + 1];
      }
    }
  }

  /** A line that has to end before a word that does not fit behind it. */
  lemma PushedIsFull(width: Measure, max: int, words: seq<string>, i: nat, lines: seq<string>, layout: seq<seq<Bit>>,
                     current: string, bits: seq<Bit>)
    requires i < |words| && Wrapped(words[..i], lines, layout, current, bits) && bits != []
    requires !Fits(width, max, current + " " + words[i])
    ensures Full(width, max, words, current, layout + [bits])
  {
    FlatGrows(layout, bits);
    hide WordsOf, Flat, Joined, Spells, Fits;
    assert (layout + [bits])[|layout|] == bits;
  }

  /** The parts of a word that is too wide for a line. */
  lemma {:induction false} PartsAreFull(width: Measure, max: int, words: seq<string>, i: nat, layout: seq<seq<Bit>>,
                       fragments: seq<string>, bits: seq<Bit>, j: nat)
    requires i < |words| && WordsOf("", Flat(layout)) == words[..i] && Closed(Flat(layout))
    requires !Fits(width, max, words[i]) && Breaks(words[i], fragments, bits) && TextOf(bits) == words[i]
    requires AllLongest(width, max, words[i], fragments, bits) && j < |bits| - 1
    ensures Full(width, max, words, fragments[j], layout + Singles(bits[..|bits| - 1])[..j + 1])
  {
    hide WordsOf, Flat, TextOf, Fits, Longest, Spells, Closed, Rest;
    var open := bits[..j + 1];
    BegunWords(words[..i], layout, open);
    BegunIsPrefix(bits, j + 1);
    TextGrows(bits[..j], bits[j]);
    assert bits[..j] + [bits[j]] == open;
    var all := layout + Singles(open);
    assert Singles(bits[..|bits| - 1])[..j + 1] == Singles(open);
    assert all[|all| - 1] == [bits[j]];
    assert Longest(width, max, Rest(words[i], bits, j), fragments[j], bits[j].text);
    PartIsFull(width, max, words, i, all, fragments[j], bits, j);
  }

  lemma BegunWords(before: seq<string>, layout: seq<seq<Bit>>, open: seq<Bit>)
    requires WordsOf("", Flat(layout)) == before && Closed(Flat(layout))
    requires open != [] && forall k | 0 <= k < |open| :: !open[k].ends && open[k].text != ""
    ensures WordsOf("", Flat(layout + Singles(open))) == before + [TextOf(open)]
  {
    hide WordsOf, Flat, Singles, TextOf;
    FlatSingles(layout, open);
    WordsAppend("", Flat(layout), open);
    OpenWord("", open);
    assert "" + TextOf(open) == TextOf(open);
  }

  lemma PartIsFull(width: Measure, max: int, words: seq<string>, i: nat, all: seq<seq<Bit>>, line: string, bits: seq<Bit>, j: nat)
    requires i < |words| && j < |bits| - 1 && all != [] && all[|all| - 1] == [bits[j]] && !bits[j].ends
    requires !Fits(width, max, words[i]) && Longest(width, max, Rest(words[i], bits, j), line, bits[j].text)
    requires WordsOf("", Flat(all)) == words[..i] + [TextOf(bits[..j + 1])]
    requires TextOf(bits[..j + 1]) == TextOf(bits[..j]) + bits[j].text
    requires |TextOf(bits[..j + 1])| <= |words[i]| && TextOf(bits[..j + 1]) == words[i][..|TextOf(bits[..j + 1])|]
    ensures Full(width, max, words, line, all)
  {
    hide WordsOf, Flat, Fits, Longest, TextOf;
    var done := WordsOf("", Flat(all));
    assert |done| - 1 == i && done[..i] == words[..i];
  }

  /** Parts that go on are the beginning of one word. */
  lemma {:induction false} OpenWord(open: string, bits: seq<Bit>)
    requires bits != [] && forall k | 0 <= k < |bits| :: !bits[k].ends && bits[k].text != ""
    ensures WordsOf(open, bits) == [open + TextOf(bits)]
    decreases |bits|
  {
    if |bits| == 1 {
      assert bits[1..] == [];
      assert TextOf(bits) == bits[0].text + TextOf(bits[1..]) == bits[0].text;
    } else {
      OpenWord(open + bits[0].text, bits[1..]);
      assert open + TextOf(bits) == (open + bits[0].text) + TextOf(bits[1..]);
    }
  }

  lemma {:induction false} BegunIsPrefix(bits: seq<Bit>, n: nat)
    requires n <= |bits|
    ensures |TextOf(bits[..n])| <= |TextOf(bits)| && TextOf(bits[..n]) == TextOf(bits)[..|TextOf(bits[..n])|]
    decreases |bits|
  {
    if n > 0 {
      BegunIsPrefix(bits[1..], n - 1);
      assert bits[..n][1..] == bits[1..][..n - 1];
    }
  }

  lemma WholeWord(word: string, fragments: seq<string>, bits: seq<Bit>)
    requires Breaks(word, fragments, bits)
    ensures TextOf(bits) == word
  {
    var n := |bits| - 1;
    OneWord("", bits[..n], bits[n]);
    assert bits[..n] + [bits[n]] == bits;
    assert "" + TextOf(bits) == TextOf(bits);
  }

  /** `_word_wrap`: the words in order, on lines that fit and are full. */
  method Wrap(words: seq<string>, width: Measure, max: int) returns (lines: seq<string>, ghost layout: seq<seq<Bit>>)
    requires forall i | 0 <= i < |words| :: words[i] != ""
    ensures |layout| == |lines| && forall i | 0 <= i < |lines| :: Spells(lines[i], layout[i])
    ensures WordsOf("", Flat(layout)) == words
    ensures AllFit(width, max, lines)
    ensures AllFull(width, max, words, lines, layout, if lines == [] then 0 else |lines| - 1)
  {
    lines := [];
    layout := [];
    var current := "";
    ghost var bits: seq<Bit> := [];
    NothingWrapped(words, width, max);
    hide Wrapped, WordsOf, Flat, FitsOrForced, AllFull, AllFit, Spells, Fits;
    for i := 0 to |words|
      invariant Wrapped(words[..i], lines, layout, current, bits)
      invariant AllFit(width, max, lines) && (current != "" ==> FitsOrForced(width, max, current))
      invariant |lines| == |layout| && AllFull(width, max, words, lines, layout, |lines|)
    {
      var word := words[i];
      assert words[..i + 1] == words[..i] + [word];
      CurrentIs(words[..i], lines, layout, current, bits);
      var test := if current == "" then word else current + " " + word;
      if Fits(width, max, test) {
        AddWord(words[..i], lines, layout, current, bits, word);
        FitsIsEnough(width, max, test);
        current := test;
        bits := bits + [Bit(word, true)];
      } else {
        if current != "" {
          PushLine(words[..i], lines, layout, current, bits);
          PushFull(width, max, words, i, lines, layout, current, bits);
          PushFits(width, max, lines, current);
          lines := lines + [current];
          layout := layout + [bits];
          current := "";
          bits := [];
        }
        lines, layout, current, bits := StartLine(words, i, lines, layout, width, max);
      }
    }
    assert words[..|words|] == words;
    CurrentIs(words, lines, layout, current, bits);
    if current != "" {
      PushLine(words, lines, layout, current, bits);
      LastNeedNotBeFull(width, max, words, lines, layout, current, bits);
      PushFits(width, max, lines, current);
      lines := lines + [current];
      layout := layout + [bits];
    } else if lines != [] {
      FewerAreFull(width, max, words, lines, layout);
    }
    AllWrapped(words, lines, layout);
  }

  lemma NothingWrapped(words: seq<string>, width: Measure, max: int)
    ensures Wrapped(words[..0], [], [], "", []) && AllFit(width, max, []) && AllFull(width, max, words, [], [], 0)
  {
    assert words[..0] == [];
    assert Flat([]) + [] == [];
  }

  lemma CurrentIs(words: seq<string>, lines: seq<string>, layout: seq<seq<Bit>>, current: string, bits: seq<Bit>)
    requires Wrapped(words, lines, layout, current, bits)
    ensures (current == "" <==> bits == []) && |layout| == |lines|
    ensures current == "" ==> Wrapped(words, lines, layout, "", [])
  {
  }

  lemma AllWrapped(words: seq<string>, lines: seq<string>, layout: seq<seq<Bit>>)
    requires Wrapped(words, lines, layout, "", [])
    ensures WordsOf("", Flat(layout)) == words && |layout| == |lines|
    ensures forall i | 0 <= i < |lines| :: Spells(lines[i], layout[i])
  {
    assert Flat(layout) + [] == Flat(layout);
  }

  lemma FitsIsEnough(width: Measure, max: int, line: string)
    requires Fits(width, max, line)
    ensures FitsOrForced(width, max, line)
  {
  }

  lemma PushFits(width: Measure, max: int, lines: seq<string>, line: string)
    requires AllFit(width, max, lines) && FitsOrForced(width, max, line)
    ensures AllFit(width, max, lines + [line])
  {
  }

  lemma FewerAreFull(width: Measure, max: int, words: seq<string>, lines: seq<string>, layout: seq<seq<Bit>>)
    requires lines != [] && |lines| == |layout| && AllFull(width, max, words, lines, layout, |lines|)
    ensures AllFull(width, max, words, lines, layout, |lines| - 1)
  {
    hide Full;
  }

  lemma PushFull(width: Measure, max: int, words: seq<string>, i: nat, lines: seq<string>, layout: seq<seq<Bit>>,
                 current: string, bits: seq<Bit>)
    requires i < |words| && Wrapped(words[..i], lines, layout, current, bits) && bits != []
    requires !Fits(width, max, current + " " + words[i])
    requires |lines| == |layout| && AllFull(width, max, words, lines, layout, |lines|)
    ensures AllFull(width, max, words, lines + [current], layout + [bits], |lines| + 1)
  {
    hide Full, Wrapped, AllFull, Fits;
    PushedIsFull(width, max, words, i, lines, layout, current, bits);
    assert [bits][..1] == [bits];
    FullStays(width, max, words, lines, layout, [current], [bits]);
  }

  lemma LastNeedNotBeFull(width: Measure, max: int, words: seq<string>, lines: seq<string>, layout: seq<seq<Bit>>,
                          current: string, bits: seq<Bit>)
    requires |lines| == |layout| && AllFull(width, max, words, lines, layout, |lines|)
    ensures AllFull(width, max, words, lines + [current], layout + [bits], |lines|)
  {
    hide Full;
    forall k | 0 <= k < |lines| ensures Full(width, max, words, (lines + [current])[k], (layout + [bits])[..k + 1]) {
      assert (layout + [bits])[..k + 1] == layout[..k + 1];
    }
  }

  /** A new line with one word, broken when it is too wide by itself. */
  method StartLine(words: seq<string>, i: nat, lines: seq<string>, ghost layout: seq<seq<Bit>>,
                   width: Measure, max: int)
    returns (next: seq<string>, ghost nextLayout: seq<seq<Bit>>, current: string, ghost bits: seq<Bit>)
    requires i < |words| && words[i] != ""
    requires Wrapped(words[..i], lines, layout, "", []) && AllFit(width, max, lines)
    requires AllFull(width, max, words, lines, layout, |lines|)
    ensures Wrapped(words[..i + 1], next, nextLayout, current, bits)
    ensures AllFit(width, max, next) && FitsOrForced(width, max, current)
    ensures |next| == |nextLayout| && AllFull(width, max, words, next, nextLayout, |next|)
  {
    CurrentIs(words[..i], lines, layout, "", []);
    hide Wrapped, Breaks, AllFull, AllLongest;
    var word := words[i];
    assert words[..i + 1] == words[..i] + [word];
    if Fits(width, max, word) {
      AddWord(words[..i], lines, layout, "", [], word);
      assert [] + [Bit(word, true)] == [Bit(word, true)];
      return lines, layout, word, [Bit(word, true)];
    }
    var fragments;
    fragments, bits := BreakWordToFit(word, width, max);
    BreaksCount(word, fragments, bits);
    AddFragments(words[..i], lines, layout, word, fragments, bits);
    AllPartsAreFull(width, max, words, i, lines, layout, fragments, bits);
    var n := |fragments| - 1;
    return lines + fragments[..n], layout + Singles(bits[..n]), fragments[n], [bits[n]];
  }

  lemma AllPartsAreFull(width: Measure, max: int, words: seq<string>, i: nat, lines: seq<string>, layout: seq<seq<Bit>>,
                        fragments: seq<string>, bits: seq<Bit>)
    requires i < |words| && Wrapped(words[..i], lines, layout, "", []) && AllFull(width, max, words, lines, layout, |lines|)
    requires !Fits(width, max, words[i]) && Breaks(words[i], fragments, bits)
    requires |fragments| == |bits| && AllLongest(width, max, words[i], fragments, bits)
    ensures var n := |bits| - 1;
      AllFull(width, max, words, lines + fragments[..n], layout + Singles(bits[..n]), |lines| + n)
  {
    var n := |bits| - 1;
    WholeWord(words[i], fragments, bits);
    assert Flat(layout) + [] == Flat(layout);
    hide WordsOf, Flat, Joined, Spells, Full, Fits, TextOf, AllLongest, Breaks, Singles;
    forall j | 0 <= j < n ensures Full(width, max, words, fragments[..n][j], layout + Singles(bits[..n])[..j + 1]) {
      PartsAreFull(width, max, words, i, layout, fragments, bits, j);
    }
    FullStays(width, max, words, lines, layout, fragments[..n], Singles(bits[..n]));
  }

  lemma BreaksCount(word: string, fragments: seq<string>, bits: seq<Bit>)
    requires Breaks(word, fragments, bits)
    ensures |fragments| == |bits| > 0
  {
  }
}
