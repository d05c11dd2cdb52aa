/**
 What translate_with_recovery in server/pipeline/translation.py does with the replies it
 gets: an accepted text is used, a refused batch is halved, what a reply leaves out is asked
 for again, and an item is translated by itself only when nothing else is left.
 */
module TranslationUse {
  import opened Basics
  import opened TranslationReply
  import opened TranslationRecovery

  // ----- accepted texts are used ---------------------------------------------------------------

  /** Every text of the accepted reply to this batch is in `t`, and none of its items was translated by itself since `s`. */
  ghost predicate Honoured(e: Setting, req: Request, k: nat, batch: seq<Item>, s: State, t: State) {
    var a := Ask(e, req, k, batch);
    a.Parsed? ==> forall id | id in a.texts ::
      && id in t.translated && t.translated[id] == a.texts[id]
      && forall j | |s.fallbackIds| <= j < |t.fallbackIds| :: t.fallbackIds[j] != id
  }

  ghost predicate Honours(e: Setting, req: Request, s: State, t: State) {
    forall k | |s.sent| <= k < |t.sent| :: Honoured(e, req, k, t.sent[k], s, t)
  }

  lemma RepliesAreWithin(e: Setting, req: Request, k: nat, batch: seq<Item>, items: seq<Item>)
    requires Within(batch, items)
    ensures var a := Ask(e, req, k, batch); a.Parsed? ==> forall id | id in a.texts :: id in Ids(items)
  {
    var a := Ask(e, req, k, batch);
    if a.Parsed? {
      AcceptedReply(e.provider(k, req.WithItems(batch)).text, Ids(batch), a.texts);
      assert a.texts.Keys <= Ids(batch);
      hide *;
      IdsWithin(batch, items);
    }
  }

  lemma IdsWithin(batch: seq<Item>, items: seq<Item>)
    requires Within(batch, items)
    ensures Ids(batch) <= Ids(items)
  {
    hide InOrder;
  }

  /** First some of the items, then others. */
  lemma HonoursBoth(e: Setting, req: Request, a: seq<Item>, b: seq<Item>, s: State, t: State, u: State)
    requires Progress(e, req, a, s, t) && Progress(e, req, b, t, u) && Ids(a) !! Ids(b)
    requires Honours(e, req, s, t) && Honours(e, req, t, u)
    ensures Honours(e, req, s, u)
  {
    hide Ask, Ids, IsText, Origin, Within, Honoured;
    forall k | |s.sent| <= k < |u.sent| ensures Honoured(e, req, k, u.sent[k], s, u) {
      if k < |t.sent| {
        assert u.sent[k] == t.sent[k];
        RepliesAreWithin(e, req, k, t.sent[k], a);
        StaysHonoured(e, req, k, t.sent[k], a, b, s, t, u);
      } else {
        RepliesAreWithin(e, req, k, u.sent[k], b);
        BecomesHonoured(e, req, k, u.sent[k], a, b, s, t, u);
      }
    }
  }

  lemma StaysHonoured(e: Setting, req: Request, k: nat, batch: seq<Item>, a: seq<Item>, b: seq<Item>, s: State, t: State, u: State)
    requires Progress(e, req, a, s, t) && Progress(e, req, b, t, u) && Ids(a) !! Ids(b)
    requires Honoured(e, req, k, batch, s, t)
    requires var r := Ask(e, req, k, batch); r.Parsed? ==> forall id | id in r.texts :: id in Ids(a)
    ensures Honoured(e, req, k, batch, s, u)
  {
    hide Ask, Ids, IsText, Origin, Within;
  }

  lemma BecomesHonoured(e: Setting, req: Request, k: nat, batch: seq<Item>, a: seq<Item>, b: seq<Item>, s: State, t: State, u: State)
    requires Progress(e, req, a, s, t) && Progress(e, req, b, t, u) && Ids(a) !! Ids(b)
    requires Honoured(e, req, k, batch, t, u)
    requires var r := Ask(e, req, k, batch); r.Parsed? ==> forall id | id in r.texts :: id in Ids(b)
    ensures Honoured(e, req, k, batch, s, u)
  {
    hide Ask, Ids, IsText, Origin, Within;
  }

  lemma {:induction false} FallbackSendsNothing(e: Setting, req: Request, items: seq<Item>, s: State)
    ensures Honours(e, req, s, Fallback(e, req.target, items, s).state)
  {
    hide Fallback, Honoured;
  }

  lemma {:induction false} ResolveHonours(e: Setting, req: Request, items: seq<Item>, s: State)
    requires InOrder(items) && s.attempts == |s.sent| && Resolve(e, req, items, s).Done?
    ensures Honours(e, req, s, Resolve(e, req, items, s).state)
    decreases Left(e, s), 0
  {
    hide Honoured, InOrder, Ask, Fallback, Honours;
    if items == [] {
      FallbackSendsNothing(e, req, [], s);
      EmptyFallback(e, req, s);
    } else if s.attempts >= e.maxAttempts {
      FallbackSendsNothing(e, req, items, s);
    } else {
      var next := s.(attempts := s.attempts + 1, sent := s.sent + [items]);
      match Ask(e, req, s.attempts, items) {
        case Refused =>
          if |items| == 1 {
            FallbackSendsNothing(e, req, items, next);
          } else {
            HalvesHonour(e, req, items, next);
          }
          FromNext(e, req, items, s, Resolve(e, req, items, s).state);
        case Parsed(texts) => MissingHonours(e, req, items, s, texts);
        case Raised =>
      }
    }
  }

  lemma EmptyFallback(e: Setting, req: Request, s: State)
    ensures Fallback(e, req.target, [], s) == Done(s)
  {
  }

  /** A batch that was not answered asks nothing of the outcome. */
  lemma FromNext(e: Setting, req: Request, items: seq<Item>, s: State, u: State)
    requires !Ask(e, req, s.attempts, items).Parsed? && s.attempts == |s.sent| && s.sent + [items] <= u.sent
    requires Honours(e, req, s.(attempts := s.attempts + 1, sent := s.sent + [items]), u)
    ensures Honours(e, req, s, u)
  {
    hide Ask;
    forall k | |s.sent| <= k < |u.sent| ensures Honoured(e, req, k, u.sent[k], s, u) {
      if k == |s.sent| {
        assert u.sent[k] == items;
      }
    }
  }

  lemma {:induction false} HalvesHonour(e: Setting, req: Request, items: seq<Item>, next: State)
    requires InOrder(items) && |items| > 1 && next.attempts == |next.sent|
    requires Resolve(e, req, items[..|items| / 2], next).Done?
    requires Resolve(e, req, items[|items| / 2..], Resolve(e, req, items[..|items| / 2], next).state).Done?
    ensures var mid := Resolve(e, req, items[..|items| / 2], next).state;
      var u := Resolve(e, req, items[|items| / 2..], mid).state;
      Honours(e, req, next, u) && next.sent <= u.sent
    decreases Left(e, next), 1
  {
    var m := |items| / 2;
    HalvesInOrder(items, m);
    HalvesApart(items, m);
    hide Resolve, InOrder, Ids, Left, Honours;
    var mid := Resolve(e, req, items[..m], next).state;
    ResolveFills(e, req, items[..m], next);
    ResolveHonours(e, req, items[..m], next);
    ResolveFills(e, req, items[m..], mid);
    ResolveHonours(e, req, items[m..], mid);
    HonoursBoth(e, req, items[..m], items[m..], next, mid, Resolve(e, req, items[m..], mid).state);
  }

  lemma HalvesApart(items: seq<Item>, m: nat)
    requires InOrder(items) && m <= |items|
    ensures Ids(items[..m]) !! Ids(items[m..])
  {
    forall x, y | x in items[..m] && y in items[m..] ensures x.id != y.id {
      var i :| 0 <= i < m && items[i] == x;
      var j :| 0 <= j < |items| - m && items[m..][j] == y;
      assert items[m + j] == y;
    }
  }

  lemma {:induction false} MissingHonours(e: Setting, req: Request, items: seq<Item>, s: State, texts: map<string, string>)
    requires items != [] && InOrder(items) && s.attempts == |s.sent| && s.attempts < e.maxAttempts
    requires Ask(e, req, s.attempts, items) == Parsed(texts)
    requires var t := s.(attempts := s.attempts + 1, sent := s.sent + [items], translated := s.translated + texts);
      Resolve(e, req, Missing(items, texts), t).Done?
    ensures var t := s.(attempts := s.attempts + 1, sent := s.sent + [items], translated := s.translated + texts);
      Honours(e, req, s, Resolve(e, req, Missing(items, texts), t).state)
    decreases Left(e, s.(attempts := s.attempts + 1)), 1
  {
    var t := s.(attempts := s.attempts + 1, sent := s.sent + [items], translated := s.translated + texts);
    MissingInOrder(items, texts);
    MissingAre(items, texts);
    hide Resolve, InOrder, Missing, Ask;
    var u := Resolve(e, req, Missing(items, texts), t).state;
    ResolveFills(e, req, Missing(items, texts), t);
    ResolveHonours(e, req, Missing(items, texts), t);
    hide IsText, Origin, Within;
    assert u.sent[|s.sent|] == items;
    forall k | |s.sent| <= k < |u.sent| ensures Honoured(e, req, k, u.sent[k], s, u) {
      if k > |s.sent| {
        assert Honoured(e, req, k, u.sent[k], t, u);
      }
    }
  }

  // ----- a single translation is the last resort -----------------------------------------------

  /** A batch of just this item was refused. */
  ghost predicate RefusedAlone(e: Setting, req: Request, t: State, id: string) {
    exists k | 0 <= k < |t.sent| :: |t.sent[k]| == 1 && t.sent[k][0].id == id && Ask(e, req, k, t.sent[k]) == Refused
  }

  ghost predicate LastResort(e: Setting, req: Request, s: State, t: State) {
    forall j | |s.fallbackIds| <= j < |t.fallbackIds| ::
      t.attempts >= e.maxAttempts || RefusedAlone(e, req, t, t.fallbackIds[j])
  }

  lemma RefusedAloneStays(e: Setting, req: Request, t: State, u: State, id: string)
    requires RefusedAlone(e, req, t, id) && t.sent <= u.sent
    ensures RefusedAlone(e, req, u, id)
  {
    var k :| 0 <= k < |t.sent| && |t.sent[k]| == 1 && t.sent[k][0].id == id && Ask(e, req, k, t.sent[k]) == Refused;
    hide Ask;
    assert u.sent[k] == t.sent[k];
  }

  lemma LastResortBoth(e: Setting, req: Request, s: State, t: State, u: State)
    requires LastResort(e, req, s, t) && LastResort(e, req, t, u)
    requires t.sent <= u.sent && t.attempts <= u.attempts && t.fallbackIds <= u.fallbackIds
    ensures LastResort(e, req, s, u)
  {
    hide RefusedAlone;
    forall j | |s.fallbackIds| <= j < |u.fallbackIds| && u.attempts < e.maxAttempts
      ensures RefusedAlone(e, req, u, u.fallbackIds[j])
    {
      if j < |t.fallbackIds| {
        assert u.fallbackIds[j] == t.fallbackIds[j];
        RefusedAloneStays(e, req, t, u, t.fallbackIds[j]);
      }
    }
  }

  lemma {:induction false} FallbackAdds(e: Setting, req: Request, items: seq<Item>, s: State)
    ensures var t := Fallback(e, req.target, items, s).state;
      && s.fallbackIds <= t.fallbackIds && t.sent == s.sent
      && forall j | |s.fallbackIds| <= j < |t.fallbackIds| :: exists item | item in items :: item.id == t.fallbackIds[j]
    decreases |items|
  {
    if items != [] {
      var text := Single(e, req.target, |s.fallbackIds|, items[0]);
      if text != None {
        var next := s.(translated := s.translated[items[0].id := text.value], fallbackIds := s.fallbackIds + [items[0].id]);
        FallbackAdds(e, req, items[1..], next);
        hide Single;
        var t := Fallback(e, req.target, items[1..], next).state;
        forall j | |s.fallbackIds| <= j < |t.fallbackIds| ensures exists item | item in items :: item.id == t.fallbackIds[j] {
          if j == |s.fallbackIds| {
            assert items[0] in items && items[0].id == t.fallbackIds[j];
          } else {
            var item :| item in items[1..] && item.id == t.fallbackIds[j];
            assert item in items;
          }
        }
      }
    }
  }

  lemma RefusedAloneNow(e: Setting, req: Request, items: seq<Item>, s: State)
    requires |items| == 1 && s.attempts == |s.sent| && Ask(e, req, s.attempts, items) == Refused
    ensures var next := s.(attempts := s.attempts + 1, sent := s.sent + [items]);
      LastResort(e, req, s, Fallback(e, req.target, items, next).state)
  {
    var next := s.(attempts := s.attempts + 1, sent := s.sent + [items]);
    FallbackAdds(e, req, items, next);
    hide Fallback, Ask;
    var t := Fallback(e, req.target, items, next).state;
    forall j | |s.fallbackIds| <= j < |t.fallbackIds| ensures RefusedAlone(e, req, t, t.fallbackIds[j]) {
      assert t.sent[|s.sent|] == items;
    }
  }

  /** What grows while resolving, however it ends. */
  ghost predicate Later(s: State, t: State) {
    s.sent <= t.sent && s.attempts <= t.attempts && s.fallbackIds <= t.fallbackIds && t.attempts - s.attempts == |t.sent| - |s.sent|
  }

  lemma {:induction false} ResolveIsLastResort(e: Setting, req: Request, items: seq<Item>, s: State)
    requires s.attempts == |s.sent|
    ensures var t := Resolve(e, req, items, s).state; LastResort(e, req, s, t) && Later(s, t)
    decreases Left(e, s)
  {
    hide Ask, Fallback, RefusedAlone;
    if items == [] {
    } else if s.attempts >= e.maxAttempts {
      FallbackAdds(e, req, items, s);
    } else {
      var next := s.(attempts := s.attempts + 1, sent := s.sent + [items]);
      match Ask(e, req, s.attempts, items) {
        case Refused =>
          if |items| == 1 {
            RefusedAloneNow(e, req, items, s);
            FallbackAdds(e, req, items, next);
          } else {
            var first := Resolve(e, req, items[..|items| / 2], next);
            ResolveIsLastResort(e, req, items[..|items| / 2], next);
            if !first.Failed? {
              ResolveIsLastResort(e, req, items[|items| / 2..], first.state);
              var u := Resolve(e, req, items[|items| / 2..], first.state).state;
              hide Resolve;
              LastResortBoth(e, req, next, first.state, u);
            }
          }
        case Parsed(texts) =>
          ResolveIsLastResort(e, req, Missing(items, texts), next.(translated := next.translated + texts));
        case Raised =>
      }
    }
  }

  // ----- what is asked next --------------------------------------------------------------------

  ghost predicate AskedNext(t: State, k: nat, batch: seq<Item>) {
    k + 1 < |t.sent| && t.sent[k + 1] == batch
  }

  ghost predicate AskedLater(t: State, k: nat, batch: seq<Item>) {
    exists j | k < j < |t.sent| :: t.sent[j] == batch
  }

  /** A refused batch is halved, and what an accepted reply left out is asked for again, while attempts last. */
  ghost predicate FollowedUp(e: Setting, req: Request, k: nat, t: State)
    requires k < |t.sent|
  {
    var batch := t.sent[k];
    t.attempts < e.maxAttempts ==>
      match Ask(e, req, k, batch)
      case Refused =>
        |batch| > 1 ==> AskedNext(t, k, batch[..|batch| / 2]) && AskedLater(t, k, batch[|batch| / 2..])
      case Parsed(texts) => LeftOut(batch, texts) != [] ==> AskedNext(t, k, LeftOut(batch, texts))
      case Raised => true
  }

  /** The items without a text, in their order. */
  function LeftOut(items: seq<Item>, texts: map<string, string>): seq<Item> {
    if items == [] then []
    else
      var n := |items| - 1;
      LeftOut(items[..n], texts) + (if items[n].id in texts then [] else [items[n]])
  }

  lemma {:induction false} MissingAppends(a: seq<Item>, b: seq<Item>, texts: map<string, string>)
    ensures Missing(a + b, texts) == Missing(a, texts) + Missing(b, texts)
    decreases |a|
  {
    if a == [] {
      assert a + b == b;
    } else {
      assert (a + b)[1..] == a[1..] + b;
      MissingAppends(a[1..], b, texts);
    }
  }

  lemma {:induction false} MissingIsLeftOut(items: seq<Item>, texts: map<string, string>)
    ensures Missing(items, texts) == LeftOut(items, texts)
    decreases |items|
  {
    if items != [] {
      var n := |items| - 1;
      MissingIsLeftOut(items[..n], texts);
      MissingAppends(items[..n], [items[n]], texts);
      assert items == items[..n] + [items[n]];
      assert [items[n]][1..] == [];
    }
  }

  ghost predicate FollowsUp(e: Setting, req: Request, s: State, t: State) {
    forall k | |s.sent| <= k < |t.sent| :: FollowedUp(e, req, k, t)
  }

  lemma FollowedUpStays(e: Setting, req: Request, k: nat, t: State, u: State)
    requires k < |t.sent| && FollowedUp(e, req, k, t) && Later(t, u)
    ensures FollowedUp(e, req, k, u)
  {
    hide Ask, LeftOut;
    var batch := t.sent[k];
    assert u.sent[k] == batch;
    forall j | 0 <= j < |t.sent| ensures u.sent[j] == t.sent[j] {
    }
  }

  lemma FollowsUpBoth(e: Setting, req: Request, s: State, t: State, u: State)
    requires FollowsUp(e, req, s, t) && FollowsUp(e, req, t, u) && Later(t, u)
    ensures FollowsUp(e, req, s, u)
  {
    hide FollowedUp;
    forall k | |s.sent| <= k < |u.sent| ensures FollowedUp(e, req, k, u) {
      if k < |t.sent| {
        FollowedUpStays(e, req, k, t, u);
      }
    }
  }

  /** While attempts last, what is to be resolved is asked for at once. */
  lemma AsksAtOnce(e: Setting, req: Request, items: seq<Item>, s: State)
    requires s.attempts == |s.sent| && items != []
    ensures var t := Resolve(e, req, items, s).state;
      t.attempts < e.maxAttempts ==> |s.sent| < |t.sent| && t.sent[|s.sent|] == items
  {
    ResolveIsLastResort(e, req, items, s);
    var t := Resolve(e, req, items, s).state;
    if t.attempts < e.maxAttempts {
      FirstIsSent(e, req, items, s);
    }
  }

  lemma FirstIsSent(e: Setting, req: Request, items: seq<Item>, s: State)
    requires s.attempts == |s.sent| && items != [] && s.attempts < e.maxAttempts
    ensures s.sent + [items] <= Resolve(e, req, items, s).state.sent
  {
    hide Ask, Fallback, LastResort;
    var next := s.(attempts := s.attempts + 1, sent := s.sent + [items]);
    match Ask(e, req, s.attempts, items) {
      case Refused =>
        if |items| > 1 {
          var first := Resolve(e, req, items[..|items| / 2], next);
          ResolveIsLastResort(e, req, items[..|items| / 2], next);
          if !first.Failed? {
            ResolveIsLastResort(e, req, items[|items| / 2..], first.state);
          }
        }
      case Parsed(texts) =>
        ResolveIsLastResort(e, req, Missing(items, texts), next.(translated := next.translated + texts));
      case Raised =>
    }
  }

  lemma {:induction false} ResolveFollowsUp(e: Setting, req: Request, items: seq<Item>, s: State)
    requires s.attempts == |s.sent| && Resolve(e, req, items, s).Done?
    ensures FollowsUp(e, req, s, Resolve(e, req, items, s).state)
    decreases Left(e, s), 0
  {
    hide Ask, Fallback, FollowedUp;
    if items != [] && s.attempts < e.maxAttempts {
      var next := s.(attempts := s.attempts + 1, sent := s.sent + [items]);
      var u := Resolve(e, req, items, s).state;
      match Ask(e, req, s.attempts, items) {
        case Refused =>
          if |items| == 1 {
            OneFollowedUp(e, req, items, s, u);
          } else {
            HalvesFollowUp(e, req, items, s);
          }
        case Parsed(texts) => MissingFollowsUp(e, req, items, s, texts);
        case Raised =>
      }
    }
  }

  lemma OneFollowedUp(e: Setting, req: Request, items: seq<Item>, s: State, u: State)
    requires |items| == 1 && s.attempts == |s.sent| && Ask(e, req, s.attempts, items) == Refused && u.sent == s.sent + [items]
    ensures FollowsUp(e, req, s, u)
  {
    hide Ask;
    assert u.sent[|s.sent|] == items;
  }

  lemma {:induction false} HalvesFollowUp(e: Setting, req: Request, items: seq<Item>, s: State)
    requires |items| > 1 && s.attempts == |s.sent| && s.attempts < e.maxAttempts
    requires Ask(e, req, s.attempts, items) == Refused && Resolve(e, req, items, s).Done?
    ensures FollowsUp(e, req, s, Resolve(e, req, items, s).state)
    decreases Left(e, s.(attempts := s.attempts + 1)), 1
  {
    var m := |items| / 2;
    var next := s.(attempts := s.attempts + 1, sent := s.sent + [items]);
    var mid := Resolve(e, req, items[..m], next).state;
    var u := Resolve(e, req, items[m..], mid).state;
    assert Resolve(e, req, items, s).state == u;
    hide Resolve, FollowedUp, LastResort, FollowsUp, Ask, Left;
    ResolveIsLastResort(e, req, items[..m], next);
    ResolveIsLastResort(e, req, items[m..], mid);
    ResolveFollowsUp(e, req, items[..m], next);
    ResolveFollowsUp(e, req, items[m..], mid);
    FollowsUpBoth(e, req, next, mid, u);
    AsksAtOnce(e, req, items[..m], next);
    AsksAtOnce(e, req, items[m..], mid);
    HalvedIs(e, req, items, s, mid, u);
    FirstFollowedUp(e, req, s, next, u);
  }

  lemma FirstFollowedUp(e: Setting, req: Request, s: State, next: State, u: State)
    requires |next.sent| == |s.sent| + 1 && |s.sent| < |u.sent|
    requires FollowedUp(e, req, |s.sent|, u) && FollowsUp(e, req, next, u)
    ensures FollowsUp(e, req, s, u)
  {
    hide FollowedUp;
  }

  lemma HalvedIs(e: Setting, req: Request, items: seq<Item>, s: State, mid: State, u: State)
    requires |items| > 1 && Ask(e, req, |s.sent|, items) == Refused
    requires s.sent + [items] <= mid.sent && Later(mid, u)
    requires mid.attempts < e.maxAttempts ==> |s.sent| + 1 < |mid.sent| && mid.sent[|s.sent| + 1] == items[..|items| / 2]
    requires u.attempts < e.maxAttempts ==> |mid.sent| < |u.sent| && u.sent[|mid.sent|] == items[|items| / 2..]
    ensures FollowedUp(e, req, |s.sent|, u)
  {
    hide Ask;
    assert u.sent[|s.sent|] == mid.sent[|s.sent|] == items;
  }

  lemma {:induction false} MissingFollowsUp(e: Setting, req: Request, items: seq<Item>, s: State, texts: map<string, string>)
    requires items != [] && s.attempts == |s.sent| && s.attempts < e.maxAttempts
    requires Ask(e, req, s.attempts, items) == Parsed(texts) && Resolve(e, req, items, s).Done?
    ensures FollowsUp(e, req, s, Resolve(e, req, items, s).state)
    decreases Left(e, s.(attempts := s.attempts + 1)), 1
  {
    var next := s.(attempts := s.attempts + 1, sent := s.sent + [items], translated := s.translated + texts);
    var u := Resolve(e, req, Missing(items, texts), next).state;
    assert Resolve(e, req, items, s).state == u;
    hide Resolve, LastResort, FollowsUp, Left;
    MissingIsLeftOut(items, texts);
    ResolveIsLastResort(e, req, Missing(items, texts), next);
    ResolveFollowsUp(e, req, Missing(items, texts), next);
    if Missing(items, texts) != [] {
      AsksAtOnce(e, req, Missing(items, texts), next);
    }
    assert u.sent[|s.sent|] == items;
    assert FollowedUp(e, req, |s.sent|, u) by {
      hide Missing, LeftOut;
    }
    FirstFollowedUp(e, req, s, next, u);
  }
}
