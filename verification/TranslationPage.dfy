/**
 The imperative side of translate_with_recovery (server/pipeline/translation.py), which
 fills its table through nested calls, and the batches of translate_page
 (server/kindle/translator.py).
 */
module TranslationPage {
  import opened Basics
  import opened PyText
  import opened TranslationReply
  import opened TranslationRecovery
  import opened TranslationUse
  import Policy = TranslationRecovery

  datatype Result = Result(values: seq<(string, string)>, attempts: nat, fallbackIds: seq<string>)

  /** PageTranslationResult does not raise. */
  predicate Accepted(r: Result) {
    && (forall i, j | 0 <= i < j < |r.values| :: r.values[i].0 != r.values[j].0)
    && (forall i | 0 <= i < |r.values| :: Strip(r.values[i].1) != "")
  }

  const EMPTY: State := State(0, map[], [], [])

  function ValuesOf(items: seq<Item>, translated: map<string, string>): (r: seq<(string, string)>)
    requires forall item | item in items :: item.id in translated
    ensures |r| == |items| && forall i | 0 <= i < |items| :: r[i] == (items[i].id, translated[items[i].id])
  {
    seq(|items|, i requires 0 <= i < |items| => (items[i].id, translated[items[i].id]))
  }

  /** What a request is translated to; `None` is an exception. */
  function Translated(e: Setting, req: Request): Option<Result>
    requires InOrder(req.items)
  {
    if e.maxAttempts < 1 then None
    else
      var r := Policy.Resolve(e, req, req.items, EMPTY);
      if r.Failed? then None
      else
        ResolveFills(e, req, req.items, EMPTY);
        Some(Result(ValuesOf(req.items, r.state.translated), r.state.attempts, r.state.fallbackIds))
  }

  class Recovery {
    const e: Setting
    const request: Request
    var attempts: nat
    var translated: map<string, string>
    var fallbackIds: seq<string>
    ghost var sent: seq<seq<Item>>

    ghost function Now(): State
      reads this
    {
      State(attempts, translated, fallbackIds, sent)
    }

    constructor (e: Setting, request: Request)
      ensures this.e == e && this.request == request && Now() == EMPTY
    {
      this.e := e;
      this.request := request;
      attempts := 0;
      translated := map[];
      fallbackIds := [];
      sent := [];
    }

    /** One single translation for each item. */
    method Fallback(items: seq<Item>) returns (ok: bool)
      modifies this
      ensures match Policy.Fallback(e, request.target, items, old(Now()))
              case Done(s) => ok && Now() == s
              case Failed(s) => !ok && Now() == s
    {
      ghost var start := Now();
      hide Single;
      for i := 0 to |items|
        invariant attempts == old(attempts) && sent == old(sent)
        invariant Policy.Fallback(e, request.target, items[i..], Now()) == Policy.Fallback(e, request.target, items, start)
      {
        assert items[i..][1..] == items[i + 1..];
        var text := Single(e, request.target, |fallbackIds|, items[i]);
        if text == None {
          return false;
        }
        translated := translated[items[i].id := text.value];
        fallbackIds := fallbackIds + [items[i].id];
      }
      return true;
    }

    /** Ask for a batch, split it when refused, ask again for what is missing. */
    method Resolve(items: seq<Item>) returns (ok: bool)
      modifies this
      ensures match Policy.Resolve(e, request, items, old(Now()))
              case Done(s) => ok && Now() == s
              case Failed(s) => !ok && Now() == s
      decreases if attempts < e.maxAttempts then e.maxAttempts - attempts else 0
    {
      hide Ask, Missing, Policy.Fallback;
      if |items| == 0 {
        return true;
      }
      if attempts >= e.maxAttempts {
        ok := Fallback(items);
        return;
      }
      var answer := Ask(e, request, attempts, items);
      attempts := attempts + 1;
      sent := sent + [items];
      if answer.Raised? {
        return false;
      }
      if answer.Refused? {
        if |items| == 1 {
          ok := Fallback(items);
          return;
        }
        var midpoint := |items| / 2;
        ok := Resolve(items[..midpoint]);
        if ok {
          ok := Resolve(items[midpoint..]);
        }
        return;
      }
      translated := translated + answer.texts;
      ok := Resolve(Missing(items, answer.texts));
    }
  }

  /** `translate_with_recovery`. */
  method TranslateWithRecovery(request: Request, e: Setting) returns (r: Option<Result>)
    requires InOrder(request.items)
    ensures r == Translated(e, request)
  {
    hide Policy.Resolve;
    if e.maxAttempts < 1 {
      return None;
    }
    var run := new Recovery(e, request);
    var ok := run.Resolve(request.items);
    if !ok {
      return None;
    }
    ResolveFills(e, request, request.items, EMPTY);
    return Some(Result(ValuesOf(request.items, run.translated), run.attempts, run.fallbackIds));
  }

  // ----- what a translation is ---------------------------------------------------------------

  /** One trimmed, non-empty text for each item, in the order of the request. */
  predicate Covers(items: seq<Item>, values: seq<(string, string)>) {
    |values| == |items| && forall i | 0 <= i < |items| :: values[i].0 == items[i].id && IsText(values[i].1)
  }

  predicate FallbackOf(ids: seq<string>, items: seq<Item>) {
    && (forall k | 0 <= k < |ids| :: ids[k] in Ids(items))
    && forall j, k | 0 <= j < k < |ids| :: ids[j] != ids[k]
  }

  /** Whatever the provider does, a result covers the request within the attempts allowed. */
  lemma TranslationIsComplete(e: Setting, req: Request)
    requires InOrder(req.items) && Translated(e, req).Some?
    ensures var r := Translated(e, req).value;
      && Covers(req.items, r.values) && Accepted(r)
      && r.attempts <= e.maxAttempts && FallbackOf(r.fallbackIds, req.items)
  {
    ResolveFills(e, req, req.items, EMPTY);
    hide Policy.Resolve, Origin;
    var r := Translated(e, req).value;
    forall i | 0 <= i < |req.items| ensures IsText(r.values[i].1) {
      assert req.items[i].id in Ids(req.items);
    }
  }

  /** Each text comes from an accepted reply to a batch that held the item, or from its single translation. */
  lemma TextsHaveAnOrigin(e: Setting, req: Request, i: nat)
    requires InOrder(req.items) && Translated(e, req).Some? && i < |req.items|
    ensures var s := Policy.Resolve(e, req, req.items, EMPTY).state;
      Origin(e, req, req.items, s, req.items[i].id, Translated(e, req).value.values[i].1)
  {
    ResolveFills(e, req, req.items, EMPTY);
    hide Policy.Resolve, Origin;
    assert req.items[i].id in Ids(req.items);
  }

  /** An accepted text is the item's text, and nothing else translates the item. */
  lemma RepliesAreUsed(e: Setting, req: Request, k: nat, i: nat)
    requires InOrder(req.items) && Translated(e, req).Some? && i < |req.items|
    ensures var s := Policy.Resolve(e, req, req.items, EMPTY).state; var r := Translated(e, req).value; var id := req.items[i].id;
      k < |s.sent| && Ask(e, req, k, s.sent[k]).Parsed? && id in Ask(e, req, k, s.sent[k]).texts ==>
        r.values[i].1 == Ask(e, req, k, s.sent[k]).texts[id] && id !in r.fallbackIds
  {
    ResolveHonours(e, req, req.items, EMPTY);
    ResolveFills(e, req, req.items, EMPTY);
    hide Policy.Resolve, Ask, Progress, InOrder;
    var s := Policy.Resolve(e, req, req.items, EMPTY).state;
    assert k < |s.sent| ==> Honoured(e, req, k, s.sent[k], EMPTY, s);
  }

  /** An item is translated by itself only if a batch of it alone was refused, or all attempts were used. */
  lemma FallbackIsTheLastResort(e: Setting, req: Request, id: string)
    requires InOrder(req.items) && Translated(e, req).Some? && id in Translated(e, req).value.fallbackIds
    ensures var s := Policy.Resolve(e, req, req.items, EMPTY).state;
      s.attempts == e.maxAttempts || RefusedAlone(e, req, s, id)
  {
    ResolveIsLastResort(e, req, req.items, EMPTY);
    ResolveFills(e, req, req.items, EMPTY);
    hide Policy.Resolve, RefusedAlone, Progress, InOrder;
    var s := Policy.Resolve(e, req, req.items, EMPTY).state;
    var j :| 0 <= j < |s.fallbackIds| && s.fallbackIds[j] == id;
  }

  /**
   The whole request is asked for first; while attempts last, a refused batch is halved and
   what an accepted reply left out is asked for next.
   */
  lemma BatchesFollowUp(e: Setting, req: Request, k: nat)
    requires req.items != [] && InOrder(req.items) && Translated(e, req).Some?
    ensures var s := Policy.Resolve(e, req, req.items, EMPTY).state;
      s.sent != [] && s.sent[0] == req.items && (k < |s.sent| ==> FollowedUp(e, req, k, s))
  {
    FirstIsSent(e, req, req.items, EMPTY);
    ResolveFollowsUp(e, req, req.items, EMPTY);
    hide Policy.Resolve, FollowedUp, InOrder;
    assert (EMPTY.sent + [req.items])[0] == req.items;
  }

  /**
   Every batch sent to the provider, also by a call that ends in an exception, is itself
   a request its constructor accepts, and no more are sent than attempts are allowed.
   */
  lemma BatchesAreValid(e: Setting, req: Request, k: nat)
    requires req.Valid()
    ensures var s := Policy.Resolve(e, req, req.items, EMPTY).state;
      && |s.sent| == s.attempts <= e.maxAttempts
      && (k < |s.sent| ==> req.WithItems(s.sent[k]).Valid())
  {
    ResolveSends(e, req, req.items, EMPTY);
    hide Policy.Resolve, InOrder, Within;
    var s := Policy.Resolve(e, req, req.items, EMPTY).state;
    if k < |s.sent| {
      WithinIsValid(req, s.sent[k]);
    }
  }

  lemma WithinIsValid(req: Request, batch: seq<Item>)
    requires req.Valid() && Within(batch, req.items)
    ensures req.WithItems(batch).Valid()
  {
    hide InOrder;
    forall i | 0 <= i < |batch| ensures batch[i].Valid() {
      assert batch[i] in batch;
      var j :| 0 <= j < |req.items| && req.items[j] == batch[i];
    }
  }

  // ----- pages -----------------------------------------------------------------------------------

  const BATCH := 64

  function Chunk(items: seq<Item>, start: nat): seq<Item>
    requires start < |items|
  {
    if start + BATCH < |items| then items[start..start + BATCH] else items[start..]
  }

  lemma ChunkIsWithin(items: seq<Item>, start: nat)
    requires InOrder(items) && start < |items|
    ensures Within(Chunk(items, start), items) && |Chunk(items, start)| <= BATCH
  {
    var c := Chunk(items, start);
    forall i, j | 0 <= i < j < |c| ensures c[i].id != c[j].id && c[i].order <= c[j].order {
      assert c[i] == items[start + i] && c[j] == items[start + j];
    }
  }

  /** The calls made for batch `b`. */
  function ChunkRun(request: Request, settings: nat -> Setting, b: nat): State
    requires b * BATCH < |request.items|
  {
    var c := Chunk(request.items, b * BATCH);
    Policy.Resolve(settings(b), request.WithItems(c), c, EMPTY).state
  }

  /** The page names item `i` as translated by itself exactly when its batch does. */
  predicate PageFallback(request: Request, settings: nat -> Setting, i: nat, ids: seq<string>)
    requires i < |request.items|
  {
    var b := i / BATCH;
    var c := Chunk(request.items, b * BATCH);
    && InOrder(c) && Translated(settings(b), request.WithItems(c)).Some?
    && (request.items[i].id in ids <==> request.items[i].id in Translated(settings(b), request.WithItems(c)).value.fallbackIds)
  }

  /** Item `i` got the text its batch was translated to. */
  predicate PageOrigin(request: Request, settings: nat -> Setting, i: nat, text: string)
    requires i < |request.items|
  {
    var b := i / BATCH;
    var c := Chunk(request.items, b * BATCH);
    && InOrder(c) && Translated(settings(b), request.WithItems(c)).Some? && i - b * BATCH < |c|
    && text == Translated(settings(b), request.WithItems(c)).value.values[i - b * BATCH].1
    && Origin(settings(b), request.WithItems(c), c, ChunkRun(request, settings, b), request.items[i].id, text)
  }

  /**
   Every batch any page sends, also one whose translation raises, is itself a request its
   constructor accepts, holds items of the page and no more than 64 of them.
   */
  lemma PageBatchesAreValid(request: Request, settings: nat -> Setting, b: nat, k: nat)
    requires request.Valid() && b * BATCH < |request.items| && k < |ChunkRun(request, settings, b).sent|
    ensures var batch := ChunkRun(request, settings, b).sent[k];
      request.WithItems(batch).Valid() && Within(batch, request.items) && |batch| <= BATCH
  {
    var c := Chunk(request.items, b * BATCH);
    hide Policy.Resolve, InOrder;
    ChunkIsWithin(request.items, b * BATCH);
    ResolveSends(settings(b), request.WithItems(c), c, EMPTY);
    var batch := ChunkRun(request, settings, b).sent[k];
    assert Within(batch, c);
    WithinIsValid(request, batch);
  }

  lemma ChunkOrigins(request: Request, settings: nat -> Setting, b: nat, i: nat)
    requires InOrder(request.items) && i < |request.items| && b == i / BATCH
    requires var c := Chunk(request.items, b * BATCH); InOrder(c) && Translated(settings(b), request.WithItems(c)).Some?
    ensures var c := Chunk(request.items, b * BATCH);
      && i - b * BATCH < |c|
      && PageOrigin(request, settings, i, Translated(settings(b), request.WithItems(c)).value.values[i - b * BATCH].1)
  {
    var c := Chunk(request.items, b * BATCH);
    assert c[i - b * BATCH] == request.items[i];
    TextsHaveAnOrigin(settings(b), request.WithItems(c), i - b * BATCH);
    hide Policy.Resolve, Origin, Translated, InOrder, Chunk;
  }

  /** The batch's own translation raises. */
  predicate ChunkFails(request: Request, settings: nat -> Setting, b: nat) {
    && b * BATCH < |request.items| && InOrder(Chunk(request.items, b * BATCH))
    && Translated(settings(b), request.WithItems(Chunk(request.items, b * BATCH))) == None
  }

  /** `translate_page`: batches of 64, one after the other; `settings(b)` is how the calls of batch `b` behave. */
  method TranslatePage(request: Request, settings: nat -> Setting) returns (r: Option<Result>)
    requires InOrder(request.items) && forall b :: settings(b).maxAttempts == 8
    ensures r.Some? ==>
              && Covers(request.items, r.value.values) && Accepted(r.value)
              && r.value.attempts <= 8 * ((|request.items| + BATCH - 1) / BATCH)
              && FallbackOf(r.value.fallbackIds, request.items)
    ensures r.Some? ==> forall i | 0 <= i < |request.items| :: PageOrigin(request, settings, i, r.value.values[i].1)
    ensures r.Some? ==> forall i | 0 <= i < |request.items| :: PageFallback(request, settings, i, r.value.fallbackIds)
    ensures r.None? ==> exists b :: ChunkFails(request, settings, b)
  {
    var values: seq<(string, string)> := [];
    var fallbackIds: seq<string> := [];
    var attempts: nat := 0;
    var b: nat := 0;
    NothingYet(request, settings);
    hide Translated, SoFar;
    while b * BATCH < |request.items|
      invariant b <= (|request.items| + BATCH - 1) / BATCH
      invariant SoFar(request, settings, b, Result(values, attempts, fallbackIds))
      decreases |request.items| - b * BATCH
    {
      var chunk := Chunk(request.items, b * BATCH);
      ChunkIsWithin(request.items, b * BATCH);
      var result := TranslateWithRecovery(request.WithItems(chunk), settings(b));
      if result == None {
        assert ChunkFails(request, settings, b);
        return None;
      }
      NextBatch(request, settings, b, Result(values, attempts, fallbackIds));
      values := values + result.value.values;
      fallbackIds := fallbackIds + result.value.fallbackIds;
      attempts := attempts + result.value.attempts;
      b := b + 1;
    }
    r := Some(Result(values, attempts, fallbackIds));
    AllBatches(request, settings, b, r.value);
  }

  /** The items of the batches before `b`. */
  function Seen(items: seq<Item>, b: nat): seq<Item> {
    if b * BATCH < |items| then items[..b * BATCH] else items
  }

  /** What the batches before `b` have given. */
  predicate SoFar(request: Request, settings: nat -> Setting, b: nat, r: Result) {
    && Covers(Seen(request.items, b), r.values) && FallbackOf(r.fallbackIds, Seen(request.items, b))
    && r.attempts <= 8 * b
    && (forall i | 0 <= i < |Seen(request.items, b)| :: PageOrigin(request, settings, i, r.values[i].1))
    && forall i | 0 <= i < |Seen(request.items, b)| :: PageFallback(request, settings, i, r.fallbackIds)
  }

  lemma NothingYet(request: Request, settings: nat -> Setting)
    ensures SoFar(request, settings, 0, Result([], 0, []))
  {
    hide PageOrigin, PageFallback, IsText;
  }

  lemma NextBatch(request: Request, settings: nat -> Setting, b: nat, r: Result)
    requires InOrder(request.items) && b * BATCH < |request.items| && settings(b).maxAttempts == 8
    requires SoFar(request, settings, b, r)
    requires var c := Chunk(request.items, b * BATCH); InOrder(c) && Translated(settings(b), request.WithItems(c)).Some?
    ensures var m := Translated(settings(b), request.WithItems(Chunk(request.items, b * BATCH))).value;
      SoFar(request, settings, b + 1, Result(r.values + m.values, r.attempts + m.attempts, r.fallbackIds + m.fallbackIds))
  {
    var items, start := request.items, b * BATCH;
    var c := Chunk(items, start);
    TranslationIsComplete(settings(b), request.WithItems(c));
    var m := Translated(settings(b), request.WithItems(c)).value;
    SeenNext(items, b);
    hide Translated, IsText, PageOrigin, PageFallback, InOrder, Accepted, Seen, Chunk;
    NextChunk(items, start, r.values, m.values, r.fallbackIds, m.fallbackIds);
    NextOrigins(request, settings, b, r.values, m.values);
    NextFallbacks(request, settings, b, r.fallbackIds, m.fallbackIds);
  }

  lemma NextFallbacks(request: Request, settings: nat -> Setting, b: nat, ids: seq<string>, more: seq<string>)
    requires InOrder(request.items) && b * BATCH < |request.items|
    requires FallbackOf(ids, request.items[..b * BATCH])
    requires forall i | 0 <= i < b * BATCH :: PageFallback(request, settings, i, ids)
    requires var c := Chunk(request.items, b * BATCH);
      && InOrder(c) && Translated(settings(b), request.WithItems(c)).Some?
      && more == Translated(settings(b), request.WithItems(c)).value.fallbackIds && FallbackOf(more, c)
    ensures var end := b * BATCH + |Chunk(request.items, b * BATCH)|;
      end <= |request.items| && forall i | 0 <= i < end :: PageFallback(request, settings, i, ids + more)
  {
    var items, start := request.items, b * BATCH;
    var c := Chunk(items, start);
    SeenNext(items, b);
    assert items[..start + |c|] == items[..start] + c;
    ChunksApart(items, items[..start], c);
    hide Translated, InOrder, Chunk, Seen, PageFallback, FallbackOf;
    forall i | 0 <= i < start + |c| ensures PageFallback(request, settings, i, ids + more) {
      if i < start {
        assert items[i] in items[..start];
        NotAmong(items[i].id, more, c);
        OldFallback(request, settings, i, ids, more);
      } else {
        assert (items[..start] + c)[i] == c[i - start];
        assert items[i] in c;
        NotAmong(items[i].id, ids, items[..start]);
        InBatch(b, i);
        NewFallback(request, settings, b, i, ids, more);
      }
    }
  }

  lemma InBatch(b: nat, i: nat)
    requires b * BATCH <= i < b * BATCH + BATCH
    ensures i / BATCH == b
  {
  }

  lemma OldFallback(request: Request, settings: nat -> Setting, i: nat, ids: seq<string>, more: seq<string>)
    requires i < |request.items| && PageFallback(request, settings, i, ids) && request.items[i].id !in more
    ensures PageFallback(request, settings, i, ids + more)
  {
    hide Translated, InOrder, Chunk;
  }

  lemma NewFallback(request: Request, settings: nat -> Setting, b: nat, i: nat, ids: seq<string>, more: seq<string>)
    requires i < |request.items| && i / BATCH == b && request.items[i].id !in ids
    requires var c := Chunk(request.items, b * BATCH);
      && InOrder(c) && Translated(settings(b), request.WithItems(c)).Some?
      && more == Translated(settings(b), request.WithItems(c)).value.fallbackIds
    ensures PageFallback(request, settings, i, ids + more)
  {
    hide Translated, InOrder, Chunk;
  }

  lemma NotAmong(id: string, ids: seq<string>, items: seq<Item>)
    requires FallbackOf(ids, items) && id !in Ids(items)
    ensures id !in ids
  {
  }

  lemma NextOrigins(request: Request, settings: nat -> Setting, b: nat, values: seq<(string, string)>, more: seq<(string, string)>)
    requires InOrder(request.items) && b * BATCH < |request.items| && |values| == b * BATCH
    requires forall i | 0 <= i < |values| :: PageOrigin(request, settings, i, values[i].1)
    requires var c := Chunk(request.items, b * BATCH);
      && InOrder(c) && Translated(settings(b), request.WithItems(c)).Some?
      && |more| == |c| && |values| + |c| <= |request.items|
      && more == Translated(settings(b), request.WithItems(c)).value.values
    ensures forall i | 0 <= i < |values| + |more| :: PageOrigin(request, settings, i, (values + more)[i].1)
  {
    SeenNext(request.items, b);
    hide Translated, PageOrigin, InOrder, Chunk, Seen;
    forall i | 0 <= i < |values| + |more| ensures PageOrigin(request, settings, i, (values + more)[i].1) {
      if i >= |values| {
        InBatch(b, i);
        ChunkOrigins(request, settings, b, i);
      }
    }
  }

  lemma SeenNext(items: seq<Item>, b: nat)
    requires b * BATCH < |items|
    ensures Seen(items, b) == items[..b * BATCH]
    ensures var end := b * BATCH + |Chunk(items, b * BATCH)|;
      end <= |items| && end <= b * BATCH + BATCH && Seen(items, b + 1) == items[..end]
  {
    assert items[..|items|] == items;
  }

  lemma AllBatches(request: Request, settings: nat -> Setting, b: nat, r: Result)
    requires InOrder(request.items) && b * BATCH >= |request.items| && SoFar(request, settings, b, r)
    ensures Covers(request.items, r.values) && FallbackOf(r.fallbackIds, request.items) && Accepted(r)
    ensures r.attempts <= 8 * b
    ensures forall i | 0 <= i < |request.items| :: PageOrigin(request, settings, i, r.values[i].1)
    ensures forall i | 0 <= i < |request.items| :: PageFallback(request, settings, i, r.fallbackIds)
  {
    hide PageOrigin, PageFallback;
  }

  lemma NextChunk(items: seq<Item>, start: nat, values: seq<(string, string)>, more: seq<(string, string)>,
                  ids: seq<string>, moreIds: seq<string>)
    requires InOrder(items) && start < |items|
    requires Covers(items[..start], values) && Covers(Chunk(items, start), more)
    requires FallbackOf(ids, items[..start]) && FallbackOf(moreIds, Chunk(items, start))
    ensures var end := start + |Chunk(items, start)|;
      && end <= |items| && Covers(items[..end], values + more) && FallbackOf(ids + moreIds, items[..end])
  {
    hide IsText;
    var end := start + |Chunk(items, start)|;
    var a, c := items[..start], Chunk(items, start);
    assert items[..end] == a + c;
    ChunksApart(items, a, c);
    hide Chunk;
  }

  lemma ChunksApart(items: seq<Item>, a: seq<Item>, c: seq<Item>)
    requires InOrder(items) && a + c <= items
    ensures Ids(a) !! Ids(c)
  {
    forall x, y | x in a && y in c ensures x.id != y.id {
      var i :| 0 <= i < |a| && a[i] == x;
      var j :| 0 <= j < |c| && c[j] == y;
      assert items[i] == (a + c)[i] && items[|a| + j] == (a + c)[|a| + j];
    }
  }
}
