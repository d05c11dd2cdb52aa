/**
 edit_distance of evaluation/koharu_baseline/scripts/common.py: two rows of a table, with
 the longer text always on the left, give the length of the shortest edit script.
 */
module EditDistance {
  import opened Basics

  // ----- edit scripts ----------------------------------------------------------------------

  /** One step along both texts; the last step of a script works on their last characters. */
  datatype Edit = Keep | Substitute(c: char) | Insert(c: char) | Delete

  function Last<T>(s: seq<T>): T
    requires s != []
  {
    s[|s| - 1]
  }

  function Init<T>(s: seq<T>): seq<T>
    requires s != []
  {
    s[..|s| - 1]
  }

  /** What a script makes of a text. */
  function Run(script: seq<Edit>, s: string): Option<string>
    decreases |script|
  {
    if script == [] then (if s == "" then Some("") else None)
    else
      match Last(script)
      case Insert(c) => Append(Run(Init(script), s), [c])
      case Keep => if s == "" then None else Append(Run(Init(script), Init(s)), [Last(s)])
      case Substitute(c) => if s == "" then None else Append(Run(Init(script), Init(s)), [c])
      case Delete => if s == "" then None else Run(Init(script), Init(s))
  }

  function Append(s: Option<string>, t: string): Option<string> {
    if s == None then None else Some(s.value + t)
  }

  function Cost(script: seq<Edit>): nat
    decreases |script|
  {
    if script == [] then 0 else Cost(Init(script)) + if Last(script).Keep? then 0 else 1
  }

  // ----- the recurrence -----------------------------------------------------------------------

  function Min3(a: nat, b: nat, c: nat): nat {
    if a <= b && a <= c then a else if b <= c then b else c
  }

  function Differ(c: char, d: char): nat {
    if c == d then 0 else 1
  }

  function Distance(a: string, b: string): nat
    decreases |a| + |b|
  {
    if a == "" then |b|
    else if b == "" then |a|
    else Min3(Distance(a, Init(b)) + 1, Distance(Init(a), b) + 1, Distance(Init(a), Init(b)) + Differ(Last(a), Last(b)))
  }

  lemma RunOn(script: seq<Edit>, e: Edit, s: string)
    ensures Cost(script + [e]) == Cost(script) + if e.Keep? then 0 else 1
    ensures e.Insert? ==> Run(script + [e], s) == Append(Run(script, s), [e.c])
    ensures !e.Insert? && s == "" ==> Run(script + [e], s) == None
    ensures e.Keep? && s != "" ==> Run(script + [e], s) == Append(Run(script, Init(s)), [Last(s)])
    ensures e.Substitute? && s != "" ==> Run(script + [e], s) == Append(Run(script, Init(s)), [e.c])
    ensures e.Delete? && s != "" ==> Run(script + [e], s) == Run(script, Init(s))
  {
    assert Init(script + [e]) == script && Last(script + [e]) == e;
  }

  lemma InitLast(s: string)
    requires s != ""
    ensures Init(s) + [Last(s)] == s
  {
  }

  /** Some script costs exactly the distance. */
  lemma {:induction false} DistanceIsReached(a: string, b: string) returns (script: seq<Edit>)
    ensures Run(script, a) == Some(b) && Cost(script) == Distance(a, b)
    decreases |a| + |b|
  {
    if a == "" && b == "" {
      script := [];
    } else if a == "" || (b != "" && Distance(a, b) == Distance(a, Init(b)) + 1) {
      script := DistanceIsReached(a, Init(b));
      RunOn(script, Insert(Last(b)), a);
      script := script + [Insert(Last(b))];
      InitLast(b);
    } else if b == "" || Distance(a, b) == Distance(Init(a), b) + 1 {
      script := DistanceIsReached(Init(a), b);
      RunOn(script, Delete, a);
      script := script + [Delete];
    } else {
      script := DistanceIsReached(Init(a), Init(b));
      var e := if Last(a) == Last(b) then Keep else Substitute(Last(b));
      RunOn(script, e, a);
      script := script + [e];
      InitLast(b);
    }
  }

  /** No script costs less. */
  lemma {:induction false} DistanceIsLeast(script: seq<Edit>, a: string, b: string)
    requires Run(script, a) == Some(b)
    ensures Cost(script) >= Distance(a, b)
    decreases |script|
  {
    if script != [] {
      var e := Last(script);
      hide Distance, Run;
      DistanceIsLeast(Init(script), if e.Insert? then a else Init(a), if e.Delete? then b else Init(b));
    }
  }

  // ----- a distance -----------------------------------------------------------------------------

  lemma {:induction false} DistanceIsSymmetric(a: string, b: string)
    ensures Distance(a, b) == Distance(b, a)
    decreases |a| + |b|
  {
    if a != "" && b != "" {
      DistanceIsSymmetric(a, Init(b));
      DistanceIsSymmetric(Init(a), b);
      DistanceIsSymmetric(Init(a), Init(b));
    }
  }

  /** Only equal texts are at distance zero. */
  lemma {:induction false} DistanceZero(a: string, b: string)
    ensures Distance(a, b) == 0 <==> a == b
    decreases |a| + |b|
  {
    if a != "" && b != "" {
      DistanceZero(Init(a), Init(b));
      InitLast(a);
      InitLast(b);
    }
  }

  /** One script after another, as one script that costs no more. */
  lemma {:induction false} Compose(s: seq<Edit>, t: seq<Edit>, a: string, b: string, c: string) returns (u: seq<Edit>)
    requires Run(s, a) == Some(b) && Run(t, b) == Some(c)
    ensures Run(u, a) == Some(c) && Cost(u) <= Cost(s) + Cost(t)
    decreases |s| + |t|
  {
    if s != [] && Last(s).Delete? {
      u := Compose(Init(s), t, Init(a), b, c);
      RunOn(u, Delete, a);
      u := u + [Delete];
    } else if t != [] && Last(t).Insert? {
      u := Compose(s, Init(t), a, b, Init(c));
      RunOn(u, Last(t), a);
      u := u + [Last(t)];
      InitLast(c);
    } else if s == [] || t == [] {
      u := [];
    } else {
      u := ComposeLast(s, t, a, b, c);
    }
  }

  /** Both last steps meet at the last character of the text in between. */
  lemma {:induction false} ComposeLast(s: seq<Edit>, t: seq<Edit>, a: string, b: string, c: string) returns (u: seq<Edit>)
    requires Run(s, a) == Some(b) && Run(t, b) == Some(c)
    requires s != [] && t != [] && !Last(s).Delete? && !Last(t).Insert?
    ensures Run(u, a) == Some(c) && Cost(u) <= Cost(s) + Cost(t)
    decreases |s| + |t|, 0
  {
    var a', c' := if Last(s).Insert? then a else Init(a), if Last(t).Delete? then c else Init(c);
    assert Run(Init(s), a') == Some(Init(b));
    assert Run(Init(t), Init(b)) == Some(c');
    u := Compose(Init(s), Init(t), a', Init(b), c');
    if c != "" {
      InitLast(c);
    }
    if Last(t).Delete? {
      if !Last(s).Insert? {
        RunOn(u, Delete, a);
        u := u + [Delete];
      }
    } else {
      var e := if Last(s).Insert? then Insert(Last(c))
               else if Last(s).Keep? && Last(t).Keep? then Keep
               else Substitute(Last(c));
      RunOn(u, e, a);
      u := u + [e];
    }
  }

  lemma {:induction false} TriangleInequality(a: string, b: string, c: string)
    ensures Distance(a, c) <= Distance(a, b) + Distance(b, c)
  {
    var s := DistanceIsReached(a, b);
    var t := DistanceIsReached(b, c);
    var u := Compose(s, t, a, b, c);
    DistanceIsLeast(u, a, c);
  }

  // ----- the method -----------------------------------------------------------------------------

  /** A row of the table: the distances from one prefix to the prefixes of the other text. */
  ghost predicate IsRow(row: seq<nat>, a: string, b: string, n: nat)
    requires n <= |b|
  {
    |row| == n + 1 && forall k | 0 <= k <= n :: row[k] == Distance(a, b[..k])
  }

  /** `edit_distance`: the length of the shortest script from one text to the other. */
  method Levenshtein(first: string, second: string) returns (d: nat)
    ensures d == Distance(first, second)
    ensures exists script :: Run(script, first) == Some(second) && Cost(script) == d
    ensures forall script | Run(script, first) == Some(second) :: Cost(script) >= d
  {
    var left, right := first, second;
    if |left| < |right| {
      left, right := right, left;
    }
    var previous: seq<nat> := [];
    for i := 0 to |right| + 1
      invariant |previous| == i && forall k | 0 <= k < i :: previous[k] == k
    {
      previous := previous + [i];
    }
    var n := |right|;
    hide IsRow, Distance;
    for row := 1 to |left| + 1
      invariant IsRow(previous, left[..row - 1], right, n)
    {
      previous := NextRow(previous, left, row, right);
    }
    LastCell(previous, left, right);
    d := previous[|previous| - 1];
    DistanceIsSymmetric(first, second);
    ghost var best := DistanceIsReached(first, second);
    forall script | Run(script, first) == Some(second) ensures Cost(script) >= d {
      DistanceIsLeast(script, first, second);
    }
  }

  lemma {:induction false} LastCell(row: seq<nat>, left: string, right: string)
    requires IsRow(row, left[..|left|], right, |right|)
    ensures row != [] && row[|row| - 1] == Distance(left, right)
  {
    assert left[..|left|] == left && right[..|right|] == right;
  }

  lemma Cell(left: string, row: nat, right: string, column: nat)
    requires 1 <= row <= |left| && 1 <= column <= |right|
    ensures Distance(left[..row], right[..column])
         == Min3(Distance(left[..row], right[..column - 1]) + 1, Distance(left[..row - 1], right[..column]) + 1,
                 Distance(left[..row - 1], right[..column - 1]) + Differ(left[row - 1], right[column - 1]))
  {
    assert Init(left[..row]) == left[..row - 1] && Last(left[..row]) == left[row - 1];
    assert Init(right[..column]) == right[..column - 1] && Last(right[..column]) == right[column - 1];
  }

  lemma RowAt(row: seq<nat>, a: string, b: string, n: nat, k: nat)
    requires k <= n <= |b| && IsRow(row, a, b, n)
    ensures |row| == n + 1 && row[k] == Distance(a, b[..k])
  {
  }

  lemma StartRow(a: string, b: string)
    ensures IsRow([|a|], a, b, 0)
  {
  }

  lemma RowGrows(row: seq<nat>, a: string, b: string, n: nat, x: nat)
    requires n < |b| && IsRow(row, a, b, n) && x == Distance(a, b[..n + 1])
    ensures IsRow(row + [x], a, b, n + 1)
  {
    hide Distance;
  }

  method NextRow(previous: seq<nat>, left: string, row: nat, right: string) returns (current: seq<nat>)
    requires 1 <= row <= |left| && IsRow(previous, left[..row - 1], right, |right|)
    ensures IsRow(current, left[..row], right, |right|)
  {
    hide *;
    current := [row];
    StartRow(left[..row], right);
    for column := 1 to |right| + 1
      invariant IsRow(current, left[..row], right, column - 1)
    {
      Cell(left, row, right, column);
      RowAt(current, left[..row], right, column - 1, column - 1);
      RowAt(previous, left[..row - 1], right, |right|, column);
      RowAt(previous, left[..row - 1], right, |right|, column - 1);
      var cell := Min3(current[|current| - 1] + 1, previous[column] + 1,
                       previous[column - 1] + Differ(left[row - 1], right[column - 1]));
      RowGrows(current, left[..row], right, column - 1, cell);
      current := current + [cell];
    }
  }
}
