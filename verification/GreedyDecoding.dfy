/**
 Batched greedy generation with the key/value cache, the num_beams == 1 path of
 HayaiModel.generate in server/kindle/hayai_model.py.
 */
module GreedyDecoding {
  import opened Basics
  import opened Decoder
  import opened TokenStream
  import opened ReferenceDecoder

  datatype Config = Config(bos: Token, stops: Stops, maxNewTokens: nat, penalty: real)
  {
    /** A zero penalty would divide by zero. */
    predicate Valid() {
      penalty != 0.0
    }
  }

  // ----- the reference: recompute the whole prefix for every token --------------------

  function Penalised(cfg: Config, logits: Vec, seen: seq<Token>): Vec
    requires cfg.Valid()
  {
    if cfg.penalty == 1.0
    then logits
    else seq(|logits|, i requires 0 <= i < |logits| =>
           if i !in seen then logits[i]
           else if logits[i] < 0.0 then logits[i] * cfg.penalty
           else logits[i] / cfg.penalty)
  }

  /** The next token from a full forward pass over the whole prefix of one row. */
  function FromScratch(model: Model, cfg: Config, row: Row, tokens: seq<Token>): Token
    requires cfg.Valid()
  {
    if tokens == [] then cfg.bos else model.argmax(Penalised(cfg, LastLogits(model, row, tokens), tokens))
  }

  function Recomputed(model: Model, cfg: Config, row: Row): seq<Token> -> Token
    requires cfg.Valid()
  {
    (tokens: seq<Token>) => FromScratch(model, cfg, row, tokens)
  }

  /** What the batch writes for a row. */
  function RowTokens(model: Model, cfg: Config, row: Row, n: nat): (tokens: seq<Token>)
    requires cfg.Valid()
    ensures |tokens| == n + 1
  {
    Padded(Recomputed(model, cfg, row), cfg.stops, cfg.bos, n)
  }

  lemma PenaltyIs(cfg: Config, logits: Vec, seen: seq<Token>)
    requires cfg.Valid()
    ensures Penalised(cfg, logits, seen) == Discouraged(cfg.penalty, logits, seen)
  {
  }

  lemma ScratchIsReference(model: Model, cfg: Config, row: Row, tokens: seq<Token>)
    requires cfg.Valid() && AllGrouped(model) && tokens != []
    ensures FromScratch(model, cfg, row, tokens) == NextToken(model, cfg.penalty, row, tokens)
  {
    hide LastLogits, Penalised, Discouraged, State, AllGrouped;
    LogitsAre(model, row, tokens);
    PenaltyIs(cfg, LastLogits(model, row, tokens), tokens);
  }

  /** What recomputing gives, up to the first stop, is a decoding in the sense of the formulas. */
  lemma RecomputedIsDecoding(model: Model, cfg: Config, row: Row)
    requires cfg.Valid() && AllGrouped(model)
    ensures IsDecoding(model, cfg.penalty, cfg.stops, cfg.bos, cfg.maxNewTokens, row,
                       UpToStop(cfg.stops, Greedy(Recomputed(model, cfg, row), cfg.bos, cfg.maxNewTokens)[1..]))
  {
    hide FromScratch, NextToken, Greedy, UpToStop, AllGrouped;
    UpToStopIsStream(Recomputed(model, cfg, row), cfg.stops, cfg.bos, cfg.maxNewTokens);
    forall tokens: seq<Token> | tokens != []
      ensures Recomputed(model, cfg, row)(tokens) == NextToken(model, cfg.penalty, row, tokens)
    {
      ScratchIsReference(model, cfg, row, tokens);
    }
  }

  // ----- the cache and the layers --------------------------------------------------------

  function Joined(a: Kv, b: Kv): (kv: Kv)
    requires a.Valid() && b.Valid()
    ensures kv.Valid()
  {
    Kv(a.ks + b.ks, a.vs + b.vs)
  }

  function Prior(layers: map<nat, seq<Kv>>, idx: nat, r: nat): Kv {
    if idx in layers && r < |layers[idx]| then layers[idx][r] else Kv([], [])
  }

  /** The kv_cache dictionary: per layer, the keys and values of every row. */
  class KvCache {
    var layers: map<nat, seq<Kv>>

    constructor ()
      ensures layers == map[]
    {
      layers := map[];
    }
  }

  ghost predicate Sized(layers: map<nat, seq<Kv>>, rows: nat) {
    forall idx | idx in layers :: |layers[idx]| == rows && forall r | 0 <= r < rows :: layers[idx][r].Valid()
  }

  /** The mask covers `count` positions over `total` visible ones; no mask shows everything. */
  predicate Covers(masks: Option<seq<seq<bool>>>, count: nat, total: nat) {
    masks.Some? ==> |masks.value| == count && forall i | 0 <= i < count :: |masks.value[i]| == total
  }

  function MaskRow(masks: Option<seq<seq<bool>>>, i: nat, count: nat, total: nat): (mask: seq<bool>)
    requires i < count && Covers(masks, count, total)
    ensures |mask| == total
  {
    if masks.Some? then masks.value[i] else AllVisible(total)
  }

  /** One row through one layer: its new cache entry and its outputs. */
  function RowForward(layer: Layer, before: Kv, xs: seq<Vec>, rots: seq<Rot>, masks: Option<seq<seq<bool>>>): (out: (Kv, seq<Vec>))
    requires before.Valid() && |xs| == |rots| && Covers(masks, |xs|, |before.ks| + |xs|)
    ensures out.0.Valid() && |out.1| == |xs|
  {
    var kv := Joined(before, KvOf(layer, xs, rots));
    (kv, seq(|xs|, i requires 0 <= i < |xs| => Position(layer, xs[i], rots[i], kv, MaskRow(masks, i, |xs|, |kv.ks|))))
  }

  /** DecoderLayer.forward with a cache: concatenate, store, attend. */
  method ForwardLayer(layer: Layer, idx: nat, xs: seq<seq<Vec>>, rots: seq<seq<Rot>>,
                      masks: Option<seq<seq<bool>>>, cache: KvCache)
    returns (ys: seq<seq<Vec>>)
    requires |xs| == |rots| && forall r | 0 <= r < |xs| :: |xs[r]| == |rots[r]|
    requires Sized(cache.layers, |xs|)
    requires forall r | 0 <= r < |xs| :: Covers(masks, |xs[r]|, |Prior(cache.layers, idx, r).ks| + |xs[r]|)
    modifies cache
    ensures Sized(cache.layers, |xs|)
    ensures cache.layers == old(cache.layers)[idx := if idx in cache.layers then cache.layers[idx] else []]
    ensures idx in cache.layers && |ys| == |xs|
    ensures forall r | 0 <= r < |xs| ::
      && Prior(old(cache.layers), idx, r).Valid()
      && (cache.layers[idx][r], ys[r]) == RowForward(layer, Prior(old(cache.layers), idx, r), xs[r], rots[r], masks)
  {
    ys := [];
    var grown: seq<Kv> := [];
    for r := 0 to |xs|
      invariant |ys| == |grown| == r
      invariant forall q | 0 <= q < r ::
        && Prior(cache.layers, idx, q).Valid()
        && (grown[q], ys[q]) == RowForward(layer, Prior(cache.layers, idx, q), xs[q], rots[q], masks)
    {
      var (kv, y) := RowForward(layer, Prior(cache.layers, idx, r), xs[r], rots[r], masks);
      grown := grown + [kv];
      ys := ys + [y];
    }
    cache.layers := cache.layers[idx := grown];
  }

  // ----- prefill ------------------------------------------------------------------------

  lemma PrefillRow(model: Model, row: Row, tokens: seq<Token>, l: nat)
    requires l < |model.layers|
    ensures var mask := Some(BlockCausalMask(|row.features|, |tokens|));
      RowForward(model.layers[l], Kv([], []), Hidden(model, row, tokens, l), Rotations(model, row, |tokens|), mask)
        == (FullKv(model, row, tokens, l), Hidden(model, row, tokens, l + 1))
  {
    var layer, xs, rots := model.layers[l], Hidden(model, row, tokens, l), Rotations(model, row, |tokens|);
    var mask := BlockCausalMask(|row.features|, |tokens|);
    assert Joined(Kv([], []), KvOf(layer, xs, rots)) == KvOf(layer, xs, rots);
    assert RowForward(layer, Kv([], []), xs, rots, Some(mask)).1 == FullLayer(layer, xs, rots, mask);
  }

  /** The caches of the layers `[from, to)` hold what full passes over `tokens` compute. */
  ghost predicate Caught(model: Model, rows: seq<Row>, tokens: seq<seq<Token>>, layers: map<nat, seq<Kv>>, from: nat, to: nat)
    requires |rows| == |tokens| && to <= |model.layers|
  {
    forall l | from <= l < to ::
      l in layers && |layers[l]| == |rows|
      && forall r | 0 <= r < |rows| :: layers[l][r] == FullKv(model, rows[r], tokens[r], l)
  }

  /** A layer that has just caught up joins those before it, and the later ones wait unchanged. */
  lemma CaughtMoves(model: Model, rows: seq<Row>, tokens: seq<seq<Token>>, was: map<nat, seq<Kv>>, now: map<nat, seq<Kv>>, l: nat)
    requires |rows| == |tokens| && l < |model.layers|
    requires forall k | k in was && k != l :: k in now && now[k] == was[k]
    ensures Caught(model, rows, tokens, was, 0, l) && Caught(model, rows, tokens, now, l, l + 1) ==>
              Caught(model, rows, tokens, now, 0, l + 1)
    ensures Caught(model, rows, tokens, was, l, |model.layers|) ==> Caught(model, rows, tokens, now, l + 1, |model.layers|)
    ensures Caught(model, rows, tokens, was, l, |model.layers|) ==> Caught(model, rows, tokens, was, l, l + 1)
  {
    hide FullKv;
  }

  /** Every row begins with BOS. */
  function Started(count: nat, bos: Token): (tokens: seq<seq<Token>>)
    ensures |tokens| == count && forall r | 0 <= r < count :: tokens[r] == [bos]
  {
    seq(count, _ => [bos])
  }

  ghost predicate Entering(model: Model, rows: seq<Row>, tokens: seq<seq<Token>>, xs: seq<seq<Vec>>, l: nat)
    requires l <= |model.layers| && |rows| == |tokens|
  {
    |xs| == |rows| && forall r | 0 <= r < |rows| :: xs[r] == Hidden(model, rows[r], tokens[r], l)
  }

  method PrefillLayer(model: Model, rows: seq<Row>, m: nat, bos: Token, l: nat, xs: seq<seq<Vec>>, cache: KvCache)
    returns (ys: seq<seq<Vec>>)
    requires l < |model.layers| && (forall r | 0 <= r < |rows| :: |rows[r].features| == m)
    requires Sized(cache.layers, |rows|) && l !in cache.layers
    requires Entering(model, rows, Started(|rows|, bos), xs, l)
    modifies cache
    ensures Sized(cache.layers, |rows|) && cache.layers.Keys == old(cache.layers).Keys + {l}
    ensures forall k | k in old(cache.layers) :: cache.layers[k] == old(cache.layers)[k]
    ensures Caught(model, rows, Started(|rows|, bos), cache.layers, l, l + 1)
    ensures Entering(model, rows, Started(|rows|, bos), ys, l + 1)
  {
    hide FullKv, RowForward, Hidden;
    var rots := seq(|rows|, r requires 0 <= r < |rows| => Rotations(model, rows[r], 1));
    ys := ForwardLayer(model.layers[l], l, xs, rots, Some(BlockCausalMask(m, 1)), cache);
    forall r | 0 <= r < |rows|
      ensures (cache.layers[l][r], ys[r]) == (FullKv(model, rows[r], [bos], l), Hidden(model, rows[r], [bos], l + 1))
    {
      PrefillRow(model, rows[r], [bos], l);
    }
  }

  lemma NothingCaught(model: Model, rows: seq<Row>, tokens: seq<seq<Token>>, layers: map<nat, seq<Kv>>)
    requires |rows| == |tokens|
    ensures Caught(model, rows, tokens, layers, 0, 0)
    ensures layers == map[] ==> Sized(layers, |rows|)
  {
  }

  method FirstInputs(model: Model, rows: seq<Row>, bos: Token) returns (xs: seq<seq<Vec>>)
    ensures Entering(model, rows, Started(|rows|, bos), xs, 0)
  {
    xs := seq(|rows|, r requires 0 <= r < |rows| => Inputs(model, rows[r], [bos]));
  }

  /** The prefill pass over the visual features and BOS. */
  method Prefill(model: Model, rows: seq<Row>, m: nat, bos: Token, cache: KvCache) returns (xs: seq<seq<Vec>>)
    requires forall r | 0 <= r < |rows| :: |rows[r].features| == m
    requires cache.layers == map[]
    modifies cache
    ensures Sized(cache.layers, |rows|)
    ensures Caught(model, rows, Started(|rows|, bos), cache.layers, 0, |model.layers|)
    ensures Entering(model, rows, Started(|rows|, bos), xs, |model.layers|)
  {
    hide *;
    xs := FirstInputs(model, rows, bos);
    NothingCaught(model, rows, Started(|rows|, bos), cache.layers);
    for l := 0 to |model.layers|
      invariant Sized(cache.layers, |rows|) && forall k | k in cache.layers :: k < l
      invariant Caught(model, rows, Started(|rows|, bos), cache.layers, 0, l)
      invariant Entering(model, rows, Started(|rows|, bos), xs, l)
    {
      ghost var was := cache.layers;
      xs := PrefillLayer(model, rows, m, bos, l, xs, cache);
      CaughtMoves(model, rows, Started(|rows|, bos), was, cache.layers, l);
    }
  }

  // ----- one decoding step -----------------------------------------------------------------

  /** A single position without a mask grows the cache by itself and sees all of it. */
  lemma OnePosition(layer: Layer, before: Kv, x: Vec, rot: Rot)
    requires before.Valid()
    ensures RowForward(layer, before, [x], [rot], None) == (Grown(layer, before, x, rot), [StepLayer(layer, before, x, rot)])
  {
    var kv := Joined(before, KvOf(layer, [x], [rot]));
    assert kv == Grown(layer, before, x, rot);
    SinglePosition(layer, kv, [x], [rot], |before.ks| + 1);
  }

  lemma SinglePosition(layer: Layer, kv: Kv, xs: seq<Vec>, rots: seq<Rot>, n: nat)
    requires kv.Valid() && |kv.ks| == n && |xs| == |rots| == 1
    ensures seq(1, i requires 0 <= i < 1 => Position(layer, xs[i], rots[i], kv, MaskRow(None, i, 1, n)))
         == [Position(layer, xs[0], rots[0], kv, AllVisible(n))]
  {
    hide Position;
  }

  lemma StepRow(model: Model, row: Row, tokens: seq<Token>, t: Token, l: nat)
    requires l < |model.layers|
    ensures RowForward(model.layers[l], FullKv(model, row, tokens, l), [StepHidden(model, row, tokens, t, l)],
                       [model.textRot(|tokens|)], None)
         == (FullKv(model, row, tokens + [t], l), [StepHidden(model, row, tokens, t, l + 1)])
  {
    hide RowForward, FullKv, StepLayer, Grown;
    OnePosition(model.layers[l], FullKv(model, row, tokens, l), StepHidden(model, row, tokens, t, l), model.textRot(|tokens|));
    CacheIsFullKv(model, row, tokens, t, l);
  }

  /** The position being decoded, on its way through the layers. */
  ghost predicate Stepping(model: Model, rows: seq<Row>, tokens: seq<seq<Token>>, next: seq<Token>, xs: seq<seq<Vec>>, l: nat)
    requires l <= |model.layers| && |rows| == |tokens| == |next|
  {
    |xs| == |rows| && forall r | 0 <= r < |rows| :: xs[r] == [StepHidden(model, rows[r], tokens[r], next[r], l)]
  }

  function Appended(tokens: seq<seq<Token>>, next: seq<Token>): (more: seq<seq<Token>>)
    requires |tokens| == |next|
    ensures |more| == |tokens| && forall r | 0 <= r < |tokens| :: more[r] == tokens[r] + [next[r]]
  {
    seq(|tokens|, r requires 0 <= r < |tokens| => tokens[r] + [next[r]])
  }

  method StepThroughLayer(model: Model, rows: seq<Row>, l: nat, rot: Rot, xs: seq<seq<Vec>>, cache: KvCache,
                          ghost tokens: seq<seq<Token>>, ghost next: seq<Token>)
    returns (ys: seq<seq<Vec>>)
    requires l < |model.layers| && |rows| == |tokens| == |next|
    requires Sized(cache.layers, |rows|) && Caught(model, rows, tokens, cache.layers, l, l + 1)
    requires forall r | 0 <= r < |rows| :: rot == model.textRot(|tokens[r]|)
    requires Stepping(model, rows, tokens, next, xs, l)
    modifies cache
    ensures Sized(cache.layers, |rows|)
    ensures forall k | k in old(cache.layers) && k != l :: k in cache.layers && cache.layers[k] == old(cache.layers)[k]
    ensures Caught(model, rows, Appended(tokens, next), cache.layers, l, l + 1)
    ensures Stepping(model, rows, tokens, next, ys, l + 1)
  {
    hide FullKv, RowForward, StepHidden;
    ys := ForwardLayer(model.layers[l], l, xs, seq(|rows|, _ => [rot]), None, cache);
    forall r | 0 <= r < |rows|
      ensures cache.layers[l][r] == FullKv(model, rows[r], tokens[r] + [next[r]], l)
      ensures ys[r] == [StepHidden(model, rows[r], tokens[r], next[r], l + 1)]
    {
      StepRow(model, rows[r], tokens[r], next[r], l);
    }
  }

  method FirstSteps(model: Model, rows: seq<Row>, next: seq<Token>, ghost tokens: seq<seq<Token>>) returns (xs: seq<seq<Vec>>)
    requires |rows| == |next| == |tokens|
    ensures Stepping(model, rows, tokens, next, xs, 0)
  {
    xs := seq(|rows|, r requires 0 <= r < |rows| => [model.embed(next[r])]);
  }

  /** The newest token of every row through all layers; the caches catch up with it. */
  method StepForward(model: Model, rows: seq<Row>, next: seq<Token>, rot: Rot, cache: KvCache, ghost tokens: seq<seq<Token>>)
    returns (xs: seq<seq<Vec>>)
    requires |rows| == |next| == |tokens| && Sized(cache.layers, |rows|)
    requires Caught(model, rows, tokens, cache.layers, 0, |model.layers|)
    requires forall r | 0 <= r < |rows| :: rot == model.textRot(|tokens[r]|)
    modifies cache
    ensures Sized(cache.layers, |rows|)
    ensures Caught(model, rows, Appended(tokens, next), cache.layers, 0, |model.layers|)
    ensures Stepping(model, rows, tokens, next, xs, |model.layers|)
  {
    hide *;
    xs := FirstSteps(model, rows, next, tokens);
    NothingCaught(model, rows, Appended(tokens, next), cache.layers);
    for l := 0 to |model.layers|
      invariant Sized(cache.layers, |rows|)
      invariant Caught(model, rows, Appended(tokens, next), cache.layers, 0, l)
      invariant Caught(model, rows, tokens, cache.layers, l, |model.layers|)
      invariant Stepping(model, rows, tokens, next, xs, l)
    {
      ghost var was := cache.layers;
      CaughtMoves(model, rows, tokens, was, was, l);
      xs := StepThroughLayer(model, rows, l, rot, xs, cache, tokens, next);
      CaughtMoves(model, rows, tokens, was, cache.layers, l);
      CaughtMoves(model, rows, Appended(tokens, next), was, cache.layers, l);
    }
  }

  lemma {:induction false} StepLogits(model: Model, row: Row, tokens: seq<Token>, t: Token)
    ensures model.head(model.finalNorm(StepHidden(model, row, tokens, t, |model.layers|)))
         == LastLogits(model, row, tokens + [t])
  {
    CachedStepIsFullPass(model, row, tokens, t, |model.layers|);
    assert StepAgrees(model, row, tokens, t, |model.layers|);
    assert |Hidden(model, row, tokens, |model.layers|)| == |row.features| + |tokens|;
  }

  // ----- the generation loop -----------------------------------------------------------------

  /** generated_tokens, columns `0..step` written and padding after them. */
  ghost predicate Written(model: Model, cfg: Config, rows: seq<Row>, generated: array2<Token>, step: nat)
    requires cfg.Valid()
    reads generated
  {
    && generated.Length0 == |rows| && generated.Length1 == cfg.maxNewTokens + 1 && step <= cfg.maxNewTokens
    && (forall r, j | 0 <= r < |rows| && 0 <= j <= step :: generated[r, j] == RowTokens(model, cfg, rows[r], step)[j])
    && (forall r, j | 0 <= r < |rows| && step < j <= cfg.maxNewTokens :: generated[r, j] == cfg.stops.pad)
  }

  ghost function Prefixes(model: Model, cfg: Config, rows: seq<Row>, n: nat): (ps: seq<seq<Token>>)
    requires cfg.Valid()
    ensures |ps| == |rows|
  {
    seq(|rows|, r requires 0 <= r < |rows| => RowTokens(model, cfg, rows[r], n))
  }

  ghost predicate Unfinished(model: Model, cfg: Config, rows: seq<Row>, unfinished: seq<bool>, step: nat)
    requires cfg.Valid()
  {
    && |unfinished| == |rows|
    && forall r | 0 <= r < |rows| :: unfinished[r] <==> !HasStop(cfg.stops, RowTokens(model, cfg, rows[r], step)[1..])
  }

  method RowSoFar(generated: array2<Token>, r: nat, step: nat) returns (seen: seq<Token>)
    requires r < generated.Length0 && step < generated.Length1
    ensures |seen| == step + 1 && forall j | 0 <= j <= step :: seen[j] == generated[r, j]
  {
    seen := [];
    for j := 0 to step + 1
      invariant |seen| == j && forall k | 0 <= k < j :: seen[k] == generated[r, k]
    {
      seen := seen + [generated[r, j]];
    }
  }

  lemma ChoiceIsFromScratch(model: Model, cfg: Config, row: Row, seen: seq<Token>, last: Vec)
    requires cfg.Valid() && seen != []
    requires model.head(model.finalNorm(last)) == LastLogits(model, row, seen)
    ensures model.argmax(Penalised(cfg, model.head(model.finalNorm(last)), seen)) == Recomputed(model, cfg, row)(seen)
  {
  }

  /** `t` is the token the row has at `step + 1`, and `on` says whether the row goes on. */
  ghost predicate Chosen(model: Model, cfg: Config, row: Row, step: nat, t: Token, on: bool)
    requires cfg.Valid()
  {
    && RowTokens(model, cfg, row, step + 1) == RowTokens(model, cfg, row, step) + [t]
    && (on <==> !HasStop(cfg.stops, RowTokens(model, cfg, row, step + 1)[1..]))
  }

  /** Chooses the next token of every row from the logits, and pads the finished ones. */
  method ChooseTokens(model: Model, cfg: Config, rows: seq<Row>, last: seq<Vec>, generated: array2<Token>,
                      unfinished: seq<bool>, step: nat)
    returns (next: seq<Token>, still: seq<bool>)
    requires cfg.Valid() && step < cfg.maxNewTokens && Written(model, cfg, rows, generated, step)
    requires Unfinished(model, cfg, rows, unfinished, step)
    requires |last| == |rows|
    requires forall r | 0 <= r < |rows| ::
               model.head(model.finalNorm(last[r])) == LastLogits(model, rows[r], RowTokens(model, cfg, rows[r], step))
    ensures |next| == |still| == |rows|
    ensures forall r | 0 <= r < |rows| :: Chosen(model, cfg, rows[r], step, next[r], still[r])
  {
    hide LastLogits, FromScratch, Recomputed;
    next, still := [], [];
    for r := 0 to |rows|
      invariant |next| == |still| == r
      invariant forall q | 0 <= q < r :: Chosen(model, cfg, rows[q], step, next[q], still[q])
    {
      var seen := RowSoFar(generated, r, step);
      assert seen == RowTokens(model, cfg, rows[r], step);
      var logits := model.head(model.finalNorm(last[r]));
      var t := if unfinished[r] then model.argmax(Penalised(cfg, logits, seen)) else cfg.stops.pad;
      ChoiceIsFromScratch(model, cfg, rows[r], seen, last[r]);
      PaddedStep(Recomputed(model, cfg, rows[r]), cfg.stops, cfg.bos, step);
      next := next + [t];
      still := still + [unfinished[r] && !Stop(cfg.stops, t)];
    }
  }

  /** One decision for every row, written to its column of generated_tokens. */
  method ChooseNext(model: Model, cfg: Config, rows: seq<Row>, last: seq<Vec>, generated: array2<Token>,
                    unfinished: seq<bool>, step: nat)
    returns (next: seq<Token>, still: seq<bool>)
    requires cfg.Valid() && step < cfg.maxNewTokens && Written(model, cfg, rows, generated, step)
    requires Unfinished(model, cfg, rows, unfinished, step)
    requires |last| == |rows|
    requires forall r | 0 <= r < |rows| ::
               model.head(model.finalNorm(last[r])) == LastLogits(model, rows[r], RowTokens(model, cfg, rows[r], step))
    modifies generated
    ensures Written(model, cfg, rows, generated, step + 1)
    ensures Unfinished(model, cfg, rows, still, step + 1)
    ensures |next| == |rows|
    ensures Prefixes(model, cfg, rows, step + 1) == Appended(Prefixes(model, cfg, rows, step), next)
  {
    hide LastLogits, FromScratch, Recomputed, RowTokens;
    next, still := ChooseTokens(model, cfg, rows, last, generated, unfinished, step);
    var column := step + 1;
    forall r | 0 <= r < |rows| {
      generated[r, column] := next[r];
    }
    assert forall r | 0 <= r < |rows| :: Chosen(model, cfg, rows[r], step, next[r], still[r]);
  }

  /** generated_tokens before the first choice: BOS in front, padding behind. */
  method NewTable(model: Model, cfg: Config, rows: seq<Row>) returns (generated: array2<Token>)
    requires cfg.Valid()
    ensures fresh(generated) && Written(model, cfg, rows, generated, 0)
    ensures Unfinished(model, cfg, rows, seq(|rows|, _ => true), 0)
    ensures Prefixes(model, cfg, rows, 0) == Started(|rows|, cfg.bos)
  {
    generated := new Token[|rows|, cfg.maxNewTokens + 1];
    forall r, j | 0 <= r < |rows| && 0 <= j <= cfg.maxNewTokens {
      generated[r, j] := if j == 0 then cfg.bos else cfg.stops.pad;
    }
  }

  /** The BOS position of every row after prefill. */
  method LastPositions(model: Model, cfg: Config, rows: seq<Row>, xs: seq<seq<Vec>>) returns (last: seq<Vec>)
    requires cfg.Valid() && Entering(model, rows, Started(|rows|, cfg.bos), xs, |model.layers|)
    ensures |last| == |rows|
    ensures forall r | 0 <= r < |rows| ::
              model.head(model.finalNorm(last[r])) == LastLogits(model, rows[r], RowTokens(model, cfg, rows[r], 0))
  {
    last := seq(|rows|, r requires 0 <= r < |rows| => xs[r][|xs[r]| - 1]);
  }

  /** One iteration of the loop: the newest tokens through the model, and the choice after them. */
  method Advance(model: Model, cfg: Config, rows: seq<Row>, newest: seq<Token>, step: nat, cache: KvCache,
                 generated: array2<Token>, unfinished: seq<bool>)
    returns (next: seq<Token>, still: seq<bool>)
    requires cfg.Valid() && 1 <= step < cfg.maxNewTokens
    requires Sized(cache.layers, |rows|)
    requires Caught(model, rows, Prefixes(model, cfg, rows, step - 1), cache.layers, 0, |model.layers|)
    requires Written(model, cfg, rows, generated, step) && Unfinished(model, cfg, rows, unfinished, step)
    requires |newest| == |rows|
    requires Prefixes(model, cfg, rows, step) == Appended(Prefixes(model, cfg, rows, step - 1), newest)
    modifies cache, generated
    ensures Sized(cache.layers, |rows|)
    ensures Caught(model, rows, Prefixes(model, cfg, rows, step), cache.layers, 0, |model.layers|)
    ensures Written(model, cfg, rows, generated, step + 1) && Unfinished(model, cfg, rows, still, step + 1)
    ensures |next| == |rows|
    ensures Prefixes(model, cfg, rows, step + 1) == Appended(Prefixes(model, cfg, rows, step), next)
  {
    hide LastLogits, FromScratch, Recomputed, Padded, FullKv, Sized;
    ghost var before := Prefixes(model, cfg, rows, step - 1);
    var xs := StepForward(model, rows, newest, model.textRot(step), cache, before);
    var last := seq(|rows|, r requires 0 <= r < |rows| => xs[r][0]);
    forall r | 0 <= r < |rows|
      ensures model.head(model.finalNorm(last[r])) == LastLogits(model, rows[r], RowTokens(model, cfg, rows[r], step))
    {
      StepLogits(model, rows[r], before[r], newest[r]);
      assert Prefixes(model, cfg, rows, step)[r] == before[r] + [newest[r]];
    }
    next, still := ChooseNext(model, cfg, rows, last, generated, unfinished, step);
  }

  /**
   Each row of the batch comes back as it would alone: the tokens chosen by
   recomputing the full block-causal forward pass over the whole prefix at every
   step, up to its own first EOS or padding token.  Where query heads come in groups,
   these are the tokens the formulas give, one after another.
   */
  method Generate(model: Model, cfg: Config, rows: seq<Row>, m: nat) returns (results: seq<seq<Token>>)
    requires cfg.Valid() && cfg.maxNewTokens >= 1
    requires forall r | 0 <= r < |rows| :: |rows[r].features| == m
    ensures |results| == |rows|
    ensures forall r | 0 <= r < |rows| ::
              results[r] == UpToStop(cfg.stops, Greedy(Recomputed(model, cfg, rows[r]), cfg.bos, cfg.maxNewTokens)[1..])
    ensures AllGrouped(model) ==> forall r | 0 <= r < |rows| ::
              IsDecoding(model, cfg.penalty, cfg.stops, cfg.bos, cfg.maxNewTokens, rows[r], results[r])
  {
    hide LastLogits, FromScratch, Recomputed, RowTokens, FullKv, Sized, Greedy, UpToStop, IsDecoding, AllGrouped;
    var cache := new KvCache();
    var xs := Prefill(model, rows, m, cfg.bos, cache);
    var generated := NewTable(model, cfg, rows);
    var last := LastPositions(model, cfg, rows, xs);
    var next, unfinished := ChooseNext(model, cfg, rows, last, generated, seq(|rows|, _ => true), 0);
    var step := 1;
    while step < cfg.maxNewTokens && true in unfinished
      invariant 1 <= step <= cfg.maxNewTokens
      invariant Sized(cache.layers, |rows|)
      invariant Caught(model, rows, Prefixes(model, cfg, rows, step - 1), cache.layers, 0, |model.layers|)
      invariant fresh(cache) && fresh(generated)
      invariant Written(model, cfg, rows, generated, step)
      invariant Unfinished(model, cfg, rows, unfinished, step)
      invariant |next| == |rows|
      invariant Prefixes(model, cfg, rows, step) == Appended(Prefixes(model, cfg, rows, step - 1), next)
    {
      next, unfinished := Advance(model, cfg, rows, next, step, cache, generated, unfinished);
      step := step + 1;
    }
    results := Collect(model, cfg, rows, generated, unfinished, step);
    if AllGrouped(model) {
      forall r | 0 <= r < |rows|
        ensures IsDecoding(model, cfg.penalty, cfg.stops, cfg.bos, cfg.maxNewTokens, rows[r], results[r])
      {
        RecomputedIsDecoding(model, cfg, rows[r]);
      }
    }
  }

  /** Drops BOS and every EOS or padding token of each row. */
  method Collect(model: Model, cfg: Config, rows: seq<Row>, generated: array2<Token>, unfinished: seq<bool>, step: nat)
    returns (results: seq<seq<Token>>)
    requires cfg.Valid() && Written(model, cfg, rows, generated, step) && Unfinished(model, cfg, rows, unfinished, step)
    requires step == cfg.maxNewTokens || true !in unfinished
    ensures |results| == |rows|
    ensures forall r | 0 <= r < |rows| ::
              results[r] == UpToStop(cfg.stops, Greedy(Recomputed(model, cfg, rows[r]), cfg.bos, cfg.maxNewTokens)[1..])
  {
    hide LastLogits, FromScratch, Recomputed;
    results := [];
    for r := 0 to |rows|
      invariant |results| == r
      invariant forall q | 0 <= q < r ::
        results[q] == UpToStop(cfg.stops, Greedy(Recomputed(model, cfg, rows[q]), cfg.bos, cfg.maxNewTokens)[1..])
    {
      var whole := RowSoFar(generated, r, cfg.maxNewTokens);
      var choose := Recomputed(model, cfg, rows[r]);
      PaddedPrefix(choose, cfg.stops, cfg.bos, step, cfg.maxNewTokens);
      assert whole == RowTokens(model, cfg, rows[r], cfg.maxNewTokens);
      PaddedRowIsGreedyToTheStop(choose, cfg.stops, cfg.bos, cfg.maxNewTokens);
      var clean := CleanRow(cfg.stops, whole[1..]);
      results := results + [clean];
    }
  }

  method CleanRow(stops: Stops, tokens: seq<Token>) returns (clean: seq<Token>)
    ensures clean == Cleaned(stops, tokens)
  {
    clean := [];
    for j := 0 to |tokens|
      invariant clean == Cleaned(stops, tokens[..j])
    {
      assert tokens[..j + 1][..j] == tokens[..j];
      if !Stop(stops, tokens[j]) {
        clean := clean + [tokens[j]];
      }
    }
    assert tokens[..|tokens|] == tokens;
  }
}
