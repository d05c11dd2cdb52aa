/**
 The policy of translate_with_recovery in server/pipeline/translation.py: whatever the
 provider answers, the recursion ends, what it sends stays within the request, and when
 it returns every item has one text.
 */
module TranslationRecovery {
  import opened Basics
  import opened PyText
  import opened TranslationReply

  /** A provider call returns text, fails in a way recovery handles, or raises anything else. */
  datatype Reply = Raw(text: string) | Recoverable | Fatal

  /** How the n-th provider call and the n-th single translation behave; `None` raises. */
  datatype Setting = Setting(
    provider: (nat, Request) -> Reply,
    single: (nat, Item, string) -> Option<string>,
    maxAttempts: nat)

  /** `sent` remembers the batches. */
  datatype State = State(attempts: nat, translated: map<string, string>, fallbackIds: seq<string>, sent: seq<seq<Item>>)

  datatype Outcome = Done(state: State) | Failed(state: State)

  // ----- the recovery policy ---------------------------------------------------------------

  function Single(e: Setting, target: string, call: nat, item: Item): Option<string> {
    var text := e.single(call, item, target);
    if text == None || Strip(text.value) == "" then None else Some(Strip(text.value))
  }

  function Fallback(e: Setting, target: string, items: seq<Item>, s: State): (r: Outcome)
    ensures r.state.attempts == s.attempts && r.state.sent == s.sent
    decreases |items|
  {
    if items == [] then Done(s)
    else
      var text := Single(e, target, |s.fallbackIds|, items[0]);
      if text == None then Failed(s)
      else
        Fallback(e, target, items[1..],
                 s.(translated := s.translated[items[0].id := text.value], fallbackIds := s.fallbackIds + [items[0].id]))
  }

  datatype Answer = Raised | Refused | Parsed(texts: map<string, string>)

  function Ask(e: Setting, req: Request, call: nat, items: seq<Item>): (r: Answer)
  {
    match e.provider(call, req.WithItems(items))
    case Fatal => Raised
    case Recoverable => Refused
    case Raw(text) =>
      var texts := ParseReply(text, Ids(items));
      if texts == None then Refused else Parsed(texts.value)
  }

  function Missing(items: seq<Item>, texts: map<string, string>): seq<Item> {
    if items == [] then []
    else if items[0].id in texts then Missing(items[1..], texts)
    else [items[0]] + Missing(items[1..], texts)
  }

  function Left(e: Setting, s: State): nat {
    if s.attempts < e.maxAttempts then e.maxAttempts - s.attempts else 0
  }

  /** Every nested call has spent an attempt, whatever the reply. */
  function Resolve(e: Setting, req: Request, items: seq<Item>, s: State): (r: Outcome)
    ensures s.attempts <= r.state.attempts
    decreases Left(e, s)
  {
    if items == [] then Done(s)
    else if s.attempts >= e.maxAttempts then Fallback(e, req.target, items, s)
    else
      var next := s.(attempts := s.attempts + 1, sent := s.sent + [items]);
      match Ask(e, req, s.attempts, items)
      case Raised => Failed(next)
      case Refused =>
        if |items| == 1 then Fallback(e, req.target, items, next)
        else
          var first := Resolve(e, req, items[..|items| / 2], next);
          if first.Failed? then first else Resolve(e, req, items[|items| / 2..], first.state)
      case Parsed(texts) =>
        Resolve(e, req, Missing(items, texts), next.(translated := next.translated + texts))
  }

  // ----- what resolving keeps ----------------------------------------------------------------

  /** A batch whose reply was accepted gave this text. */
  predicate BatchGives(e: Setting, req: Request, call: nat, batch: seq<Item>, id: string, text: string) {
    var a := Ask(e, req, call, batch);
    a.Parsed? && Maps(a.texts, id, text)
  }

  predicate FromBatch(e: Setting, req: Request, s: State, id: string, text: string) {
    exists k | 0 <= k < |s.sent| :: BatchGives(e, req, k, s.sent[k], id, text)
  }

  predicate SingleGives(e: Setting, req: Request, items: seq<Item>, call: nat, id: string, text: string) {
    exists item | item in items :: item.id == id && Single(e, req.target, call, item) == Some(text)
  }

  predicate FromSingle(e: Setting, req: Request, items: seq<Item>, s: State, id: string, text: string) {
    exists k | 0 <= k < |s.fallbackIds| :: s.fallbackIds[k] == id && SingleGives(e, req, items, k, id, text)
  }

  /** Where a text came from: an accepted reply, or the item's one single translation. */
  predicate Origin(e: Setting, req: Request, items: seq<Item>, s: State, id: string, text: string) {
    FromBatch(e, req, s, id, text) || FromSingle(e, req, items, s, id, text)
  }

  predicate IsText(text: string) {
    text != "" && Trimmed(text)
  }

  predicate Within(batch: seq<Item>, items: seq<Item>) {
    batch != [] && InOrder(batch) && |batch| <= |items| && forall item | item in batch :: item in items
  }

  /** The calls made: attempts counted, batches drawn from `items`, one single call for each new fallback id. */
  ghost predicate Calls(items: seq<Item>, s: State, t: State) {
    && s.sent <= t.sent && t.attempts - s.attempts == |t.sent| - |s.sent|
    && (forall k | |s.sent| <= k < |t.sent| :: Within(t.sent[k], items))
    && s.fallbackIds <= t.fallbackIds
    && (forall k | |s.fallbackIds| <= k < |t.fallbackIds| :: t.fallbackIds[k] in Ids(items))
    && (forall j, k | |s.fallbackIds| <= j < k < |t.fallbackIds| :: t.fallbackIds[j] != t.fallbackIds[k])
  }

  /** Exactly the items have got texts. */
  ghost predicate Fills(e: Setting, req: Request, items: seq<Item>, s: State, t: State) {
    && t.translated.Keys == s.translated.Keys + Ids(items)
    && (forall id | id in s.translated && id !in Ids(items) :: t.translated[id] == s.translated[id])
    && forall id | id in Ids(items) :: IsText(t.translated[id]) && Origin(e, req, items, t, id, t.translated[id])
  }

  ghost predicate Progress(e: Setting, req: Request, items: seq<Item>, s: State, t: State) {
    Calls(items, s, t) && Fills(e, req, items, s, t)
  }

  /** First some of the items, then the others. */
  lemma Both(e: Setting, req: Request, a: seq<Item>, b: seq<Item>, items: seq<Item>, s: State, t: State, u: State)
    requires Progress(e, req, a, s, t) && Progress(e, req, b, t, u)
    requires Ids(a) !! Ids(b) && Ids(items) == Ids(a) + Ids(b) && |a| <= |items| && |b| <= |items|
    requires forall item | item in a || item in b :: item in items
    ensures Progress(e, req, items, s, u)
  {
    BothCalls(a, b, items, s, t, u);
    hide Origin, IsText, Within, InOrder;
    forall id | id in Ids(items) ensures IsText(u.translated[id]) && Origin(e, req, items, u, id, u.translated[id]) {
      if id in Ids(a) {
        assert u.translated[id] == t.translated[id];
      } else {
      }
    }
  }

  lemma BothCalls(a: seq<Item>, b: seq<Item>, items: seq<Item>, s: State, t: State, u: State)
    requires Calls(a, s, t) && Calls(b, t, u)
    requires Ids(a) !! Ids(b) && Ids(items) == Ids(a) + Ids(b) && |a| <= |items| && |b| <= |items|
    requires forall item | item in a || item in b :: item in items
    ensures Calls(items, s, u)
  {
    hide InOrder;
    forall k | |s.sent| <= k < |u.sent| ensures Within(u.sent[k], items) {
      if k < |t.sent| {
        assert u.sent[k] == t.sent[k];
      }
    }
    forall k | |s.fallbackIds| <= k < |u.fallbackIds| ensures u.fallbackIds[k] in Ids(items) {
      if k < |t.fallbackIds| {
        assert u.fallbackIds[k] == t.fallbackIds[k];
      }
    }
    forall j, k | |s.fallbackIds| <= j < k < |u.fallbackIds| ensures u.fallbackIds[j] != u.fallbackIds[k] {
      if j < |t.fallbackIds| {
        assert u.fallbackIds[j] == t.fallbackIds[j];
        if k < |t.fallbackIds| {
          assert u.fallbackIds[k] == t.fallbackIds[k];
        } else {
          assert u.fallbackIds[j] in Ids(a) && u.fallbackIds[k] in Ids(b);
        }
      }
    }
  }

  lemma {:induction false} FallbackFills(e: Setting, req: Request, items: seq<Item>, s: State)
    requires InOrder(items) && Fallback(e, req.target, items, s).Done?
    ensures Progress(e, req, items, s, Fallback(e, req.target, items, s).state)
    decreases |items|
  {
    if items == [] {
      assert Ids(items) == {};
    } else {
      var item := items[0];
      var text := Single(e, req.target, |s.fallbackIds|, item).value;
      var t := s.(translated := s.translated[item.id := text], fallbackIds := s.fallbackIds + [item.id]);
      FallbackFills(e, req, items[1..], t);
      OneSingle(e, req, item, s, text);
      hide Progress, Fallback, InOrder;
      var u := Fallback(e, req.target, items[1..], t).state;
      Both(e, req, [item], items[1..], items, s, t, u);
      assert Fallback(e, req.target, items, s) == Fallback(e, req.target, items[1..], t) by {
      }
    }
  }

  lemma OneSingle(e: Setting, req: Request, item: Item, s: State, text: string)
    requires Single(e, req.target, |s.fallbackIds|, item) == Some(text)
    ensures Progress(e, req, [item], s, s.(translated := s.translated[item.id := text], fallbackIds := s.fallbackIds + [item.id]))
  {
    var t := s.(translated := s.translated[item.id := text], fallbackIds := s.fallbackIds + [item.id]);
    StripIsTrimmed(e.single(|s.fallbackIds|, item, req.target).value);
    assert IsText(text);
    hide Single, IsText, Ask;
    assert Ids([item]) == {item.id};
    assert item in [item];
    assert t.fallbackIds[|s.fallbackIds|] == item.id && SingleGives(e, req, [item], |s.fallbackIds|, item.id, text);
    assert FromSingle(e, req, [item], t, item.id, text);
  }

  lemma {:induction false} MissingAre(items: seq<Item>, texts: map<string, string>)
    ensures forall item :: item in Missing(items, texts) <==> item in items && item.id !in texts
    ensures |Missing(items, texts)| <= |items|
    decreases |items|
  {
    if items != [] {
      MissingAre(items[1..], texts);
      assert items == [items[0]] + items[1..];
    }
  }

  lemma {:induction false} MissingInOrder(items: seq<Item>, texts: map<string, string>)
    requires InOrder(items)
    ensures InOrder(Missing(items, texts))
    decreases |items|
  {
    if items != [] {
      var rest := Missing(items[1..], texts);
      MissingInOrder(items[1..], texts);
      MissingAre(items[1..], texts);
      hide Missing;
      forall i | 0 <= i < |rest| ensures items[0].id != rest[i].id && items[0].order <= rest[i].order {
        assert rest[i] in rest;
        var k :| 0 <= k < |items| - 1 && items[1..][k] == rest[i];
        assert items[k + 1] == rest[i];
      }
      assert InOrder([items[0]] + rest);
    }
  }

  /** After the call, whatever fills the items from there fills them from before it. */
  lemma AfterSending(e: Setting, req: Request, items: seq<Item>, s: State, u: State)
    requires items != [] && InOrder(items)
    requires Progress(e, req, items, s.(attempts := s.attempts + 1, sent := s.sent + [items]), u)
    ensures Progress(e, req, items, s, u)
  {
    hide Origin, IsText, InOrder;
    var t := s.(attempts := s.attempts + 1, sent := s.sent + [items]);
    assert Within(items, items);
    forall k | |s.sent| <= k < |u.sent| ensures Within(u.sent[k], items) {
      if k == |s.sent| {
        assert u.sent[k] == t.sent[k];
      }
    }
  }

  /** The part of the items an accepted reply answers. */
  function Answered(items: seq<Item>, texts: map<string, string>): seq<Item> {
    if items == [] then []
    else if items[0].id in texts then [items[0]] + Answered(items[1..], texts)
    else Answered(items[1..], texts)
  }

  lemma {:induction false} AnsweredAre(items: seq<Item>, texts: map<string, string>)
    ensures forall item :: item in Answered(items, texts) <==> item in items && item.id in texts
    ensures |Answered(items, texts)| <= |items|
    decreases |items|
  {
    if items != [] {
      AnsweredAre(items[1..], texts);
      assert items == [items[0]] + items[1..];
    }
  }

  lemma ReplyFills(e: Setting, req: Request, items: seq<Item>, s: State, texts: map<string, string>)
    requires items != [] && InOrder(items) && Ask(e, req, s.attempts, items) == Parsed(texts) && s.attempts == |s.sent|
    ensures texts.Keys <= Ids(items)
    ensures var t := s.(attempts := s.attempts + 1, sent := s.sent + [items], translated := s.translated + texts);
      Progress(e, req, Answered(items, texts), s.(attempts := s.attempts + 1, sent := s.sent + [items]), t)
  {
    AcceptedReply(e.provider(s.attempts, req.WithItems(items)).text, Ids(items), texts);
    hide ParseReply;
    assert texts.Keys <= Ids(items) && forall id | id in texts :: IsText(texts[id]);
    var t := s.(attempts := s.attempts + 1, sent := s.sent + [items], translated := s.translated + texts);
    AnsweredIds(items, texts);
    hide *;
    TextsFill(e, req, items, Answered(items, texts), s, texts);
  }

  lemma AnsweredIds(items: seq<Item>, texts: map<string, string>)
    requires texts.Keys <= Ids(items)
    ensures Ids(Answered(items, texts)) == texts.Keys
  {
    AnsweredAre(items, texts);
    hide Answered;
    forall id ensures id in Ids(Answered(items, texts)) <==> id in texts {
      if id in texts {
        var item :| item in items && item.id == id;
        assert item in Answered(items, texts);
      }
    }
  }

  lemma TextsFill(e: Setting, req: Request, items: seq<Item>, answered: seq<Item>, s: State, texts: map<string, string>)
    requires Ask(e, req, s.attempts, items) == Parsed(texts) && s.attempts == |s.sent|
    requires Ids(answered) == texts.Keys && forall id | id in texts :: IsText(texts[id])
    ensures var t := s.(attempts := s.attempts + 1, sent := s.sent + [items], translated := s.translated + texts);
      Progress(e, req, answered, s.(attempts := s.attempts + 1, sent := s.sent + [items]), t)
  {
    hide Ask, Ids, IsText, Within;
    var t := s.(attempts := s.attempts + 1, sent := s.sent + [items], translated := s.translated + texts);
    forall id | id in texts ensures Origin(e, req, answered, t, id, texts[id]) {
      assert t.sent[|s.sent|] == items && BatchGives(e, req, |s.sent|, items, id, texts[id]);
      assert FromBatch(e, req, t, id, texts[id]);
    }
  }

  /** Resolving fills exactly the items, with at most the attempts allowed. */
  lemma {:induction false} ResolveFills(e: Setting, req: Request, items: seq<Item>, s: State)
    requires InOrder(items) && s.attempts == |s.sent| && Resolve(e, req, items, s).Done?
    ensures Progress(e, req, items, s, Resolve(e, req, items, s).state)
    ensures s.attempts <= e.maxAttempts ==> Resolve(e, req, items, s).state.attempts <= e.maxAttempts
    decreases Left(e, s), 0
  {
    hide Progress, InOrder, Ask, Fallback;
    if items == [] {
      NothingToFill(e, req, s);
    } else if s.attempts >= e.maxAttempts {
      FallbackFills(e, req, items, s);
    } else {
      var next := s.(attempts := s.attempts + 1, sent := s.sent + [items]);
      var u := Resolve(e, req, items, s).state;
      match Ask(e, req, s.attempts, items) {
        case Refused =>
          if |items| == 1 {
            FallbackFills(e, req, items, next);
          } else {
            ResolveHalves(e, req, items, next);
          }
          AfterSending(e, req, items, s, u);
        case Parsed(texts) =>
          ResolveMissing(e, req, items, s, texts);
          AfterSending(e, req, items, s, u);
        case Raised =>
      }
    }
  }

  lemma NothingToFill(e: Setting, req: Request, s: State)
    ensures Progress(e, req, [], s, s)
  {
    assert Ids([]) == {};
  }

  lemma {:induction false} ResolveHalves(e: Setting, req: Request, items: seq<Item>, next: State)
    requires InOrder(items) && |items| > 1 && next.attempts == |next.sent|
    requires Resolve(e, req, items[..|items| / 2], next).Done?
    requires Resolve(e, req, items[|items| / 2..], Resolve(e, req, items[..|items| / 2], next).state).Done?
    ensures var mid := Resolve(e, req, items[..|items| / 2], next).state;
      var u := Resolve(e, req, items[|items| / 2..], mid).state;
      Progress(e, req, items, next, u) && (next.attempts <= e.maxAttempts ==> u.attempts <= e.maxAttempts)
    decreases Left(e, next), 1
  {
    var m := |items| / 2;
    hide Resolve, InOrder, Ids, Left;
    var mid := Resolve(e, req, items[..m], next).state;
    ResolveFills(e, req, items[..m], next);
    assert mid.attempts == |mid.sent| by {
    }
    hide Progress;
    ResolveFills(e, req, items[m..], mid);
    Both(e, req, items[..m], items[m..], items, next, mid, Resolve(e, req, items[m..], mid).state);
  }

  lemma {:induction false} ResolveMissing(e: Setting, req: Request, items: seq<Item>, s: State, texts: map<string, string>)
    requires items != [] && InOrder(items) && s.attempts == |s.sent| && s.attempts < e.maxAttempts
    requires Ask(e, req, s.attempts, items) == Parsed(texts)
    requires var t := s.(attempts := s.attempts + 1, sent := s.sent + [items], translated := s.translated + texts);
      Resolve(e, req, Missing(items, texts), t).Done?
    ensures var next := s.(attempts := s.attempts + 1, sent := s.sent + [items]);
      var u := Resolve(e, req, Missing(items, texts), next.(translated := s.translated + texts)).state;
      Progress(e, req, items, next, u) && u.attempts <= e.maxAttempts
    decreases Left(e, s.(attempts := s.attempts + 1)), 1
  {
    var next := s.(attempts := s.attempts + 1, sent := s.sent + [items]);
    var t := next.(translated := s.translated + texts);
    ReplyFills(e, req, items, s, texts);
    MissingAre(items, texts);
    MissingInOrder(items, texts);
    AnsweredAre(items, texts);
    ResolveFills(e, req, Missing(items, texts), t);
    assert Ids(Answered(items, texts)) !! Ids(Missing(items, texts));
    assert Ids(items) == Ids(Answered(items, texts)) + Ids(Missing(items, texts));
    hide Resolve, Progress, InOrder, Ask, Missing, Answered, Ids;
    Both(e, req, Answered(items, texts), Missing(items, texts), items, next, t, Resolve(e, req, Missing(items, texts), t).state);
  }

  // ----- what is sent, also by a run that raises -------------------------------------------------

  ghost predicate Sends(e: Setting, items: seq<Item>, s: State, t: State) {
    && s.sent <= t.sent && t.attempts - s.attempts == |t.sent| - |s.sent|
    && (forall k | |s.sent| <= k < |t.sent| :: Within(t.sent[k], items))
    && (s.attempts <= e.maxAttempts ==> t.attempts <= e.maxAttempts)
  }

  lemma SendsOfSome(e: Setting, some: seq<Item>, items: seq<Item>, s: State, t: State, u: State)
    requires Sends(e, items, s, t) && Sends(e, some, t, u)
    requires |some| <= |items| && forall item | item in some :: item in items
    ensures Sends(e, items, s, u)
  {
    hide InOrder;
    forall k | |s.sent| <= k < |u.sent| ensures Within(u.sent[k], items) {
      if k < |t.sent| {
        assert u.sent[k] == t.sent[k];
      }
    }
  }

  /** However it ends, resolving sends batches drawn from the items, counts them, and stays within the attempts. */
  lemma {:induction false} ResolveSends(e: Setting, req: Request, items: seq<Item>, s: State)
    requires InOrder(items)
    ensures Sends(e, items, s, Resolve(e, req, items, s).state)
    decreases Left(e, s), 0
  {
    hide InOrder, Ask, Fallback;
    if items != [] && s.attempts < e.maxAttempts {
      var next := s.(attempts := s.attempts + 1, sent := s.sent + [items]);
      assert Sends(e, items, s, next);
      match Ask(e, req, s.attempts, items) {
        case Refused =>
          if |items| > 1 {
            SendsHalves(e, req, items, s, next);
          }
        case Parsed(texts) =>
          var left := Missing(items, texts);
          var answered := next.(translated := next.translated + texts);
          MissingInOrder(items, texts);
          MissingAre(items, texts);
          ResolveSends(e, req, left, answered);
          hide Resolve, Missing, Within;
          SendsOfSome(e, left, items, s, answered, Resolve(e, req, left, answered).state);
        case Raised =>
      }
    }
  }

  lemma {:induction false} SendsHalves(e: Setting, req: Request, items: seq<Item>, s: State, next: State)
    requires InOrder(items) && |items| > 1 && Sends(e, items, s, next) && Left(e, next) < Left(e, s)
    ensures var first := Resolve(e, req, items[..|items| / 2], next);
      Sends(e, items, s, if first.Failed? then first.state else Resolve(e, req, items[|items| / 2..], first.state).state)
    decreases Left(e, next), 1
  {
    var m := |items| / 2;
    HalvesInOrder(items, m);
    hide Resolve, InOrder, Within;
    var first := Resolve(e, req, items[..m], next);
    ResolveSends(e, req, items[..m], next);
    SendsOfSome(e, items[..m], items, s, next, first.state);
    if !first.Failed? {
      ResolveSends(e, req, items[m..], first.state);
      SendsOfSome(e, items[m..], items, s, first.state, Resolve(e, req, items[m..], first.state).state);
    }
  }

  lemma HalvesInOrder(items: seq<Item>, m: nat)
    requires InOrder(items) && m <= |items|
    ensures InOrder(items[..m]) && InOrder(items[m..])
  {
  }
}
