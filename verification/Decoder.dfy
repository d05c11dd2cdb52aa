/**
 The visual causal OCR decoder of server/kindle/hayai_model.py in exact
 arithmetic: attention as a masked weighted average, the block-causal mask, and
 the full forward pass over a row of visual features and text tokens.  Linear
 maps, norms, the rotation and the exponential of a score stay arbitrary.
 */
module Decoder {
  type Vec = seq<real>
  type Token = nat
  type Rot = (Vec, Vec)

  /** The maps of one DecoderLayer; query and key include their norms. */
  datatype Layer = Layer(
    attnNorm: Vec -> Vec,
    query: Vec -> Vec, key: Vec -> Vec, value: Vec -> Vec,
    rotate: (Vec, Rot) -> Vec,
    queryHead: (Vec, nat) -> Vec, keyHead: (Vec, nat) -> Vec,
    weight: (Vec, Vec) -> real,
    heads: nat, keyHeads: nat, headSize: nat,
    output: seq<Vec> -> Vec,
    attnResidual: (Vec, Vec) -> Vec,
    feedForward: Vec -> Vec)

  datatype Model = Model(
    layers: seq<Layer>,
    project: Vec -> Vec, embed: Token -> Vec,
    visualRot: (nat, nat, nat) -> Rot, plainRot: Rot, textRot: nat -> Rot,
    finalNorm: Vec -> Vec, head: Vec -> Vec,
    argmax: Vec -> Token)

  /** One batch row: its visual features and its spatial shape. */
  datatype Row = Row(features: seq<Vec>, height: nat, width: nat)

  // ----- attention ---------------------------------------------------------------

  /** acc + w * v. */
  function Axpy(acc: Vec, w: real, v: Vec): Vec {
    seq(|acc|, i requires 0 <= i < |acc| => acc[i] + w * (if i < |v| then v[i] else 0.0))
  }

  function Divided(num: Vec, den: real): Vec {
    if den == 0.0 then num else seq(|num|, i requires 0 <= i < |num| => num[i] / den)
  }

  /** A masked position enters the softmax with the exponential of minus infinity. */
  function Weight(layer: Layer, q: Vec, k: Vec, visible: bool): real {
    if visible then layer.weight(q, k) else 0.0
  }

  datatype Kv = Kv(ks: seq<Vec>, vs: seq<Vec>)
  {
    predicate Valid() {
      |ks| == |vs|
    }
  }

  function Numerator(layer: Layer, h: nat, q: Vec, kv: Kv, mask: seq<bool>, zero: Vec): Vec
    requires kv.Valid() && |mask| == |kv.ks|
    decreases |mask|
  {
    if mask == [] then zero
    else
      var n := |mask| - 1;
      Axpy(Numerator(layer, h, q, Kv(kv.ks[..n], kv.vs[..n]), mask[..n], zero),
           Weight(layer, q, layer.keyHead(kv.ks[n], h), mask[n]), layer.keyHead(kv.vs[n], h))
  }

  function Denominator(layer: Layer, h: nat, q: Vec, ks: seq<Vec>, mask: seq<bool>): real
    requires |mask| == |ks|
    decreases |mask|
  {
    if mask == [] then 0.0
    else
      var n := |mask| - 1;
      Denominator(layer, h, q, ks[..n], mask[..n]) + Weight(layer, q, layer.keyHead(ks[n], h), mask[n])
  }

  /** Which key head a query head shares: repeat_interleave of each key head. */
  function SharedHead(layer: Layer, h: nat): nat {
    var group := if layer.keyHeads == 0 then 0 else layer.heads / layer.keyHeads;
    if layer.heads == layer.keyHeads || group == 0 then h else h / group
  }

  /** scaled_dot_product_attention for one query head. */
  function HeadContext(layer: Layer, h: nat, q: Vec, kv: Kv, mask: seq<bool>): Vec
    requires kv.Valid() && |mask| == |kv.ks|
  {
    var zero := seq(layer.headSize, _ => 0.0);
    var g := SharedHead(layer, h);
    var qh := layer.queryHead(q, h);
    Divided(Numerator(layer, g, qh, kv, mask, zero), Denominator(layer, g, qh, kv.ks, mask))
  }

  function Attend(layer: Layer, q: Vec, kv: Kv, mask: seq<bool>): Vec
    requires kv.Valid() && |mask| == |kv.ks|
  {
    layer.output(seq(layer.heads, h requires 0 <= h < layer.heads => HeadContext(layer, h, q, kv, mask)))
  }

  function AllVisible(n: nat): (mask: seq<bool>)
    ensures |mask| == n && forall i | 0 <= i < n :: mask[i]
  {
    seq(n, _ => true)
  }

  function Take(kv: Kv, n: nat): Kv
    requires kv.Valid() && n <= |kv.ks|
  {
    Kv(kv.ks[..n], kv.vs[..n])
  }

  /** Positions masked from `n` on add nothing to either sum. */
  lemma {:induction false} MaskedTailAddsNothing(layer: Layer, h: nat, q: Vec, kv: Kv, mask: seq<bool>, n: nat, zero: Vec)
    requires kv.Valid() && |mask| == |kv.ks| && n <= |mask|
    requires forall j | n <= j < |mask| :: !mask[j]
    ensures Numerator(layer, h, q, kv, mask, zero) == Numerator(layer, h, q, Take(kv, n), mask[..n], zero)
    ensures Denominator(layer, h, q, kv.ks, mask) == Denominator(layer, h, q, kv.ks[..n], mask[..n])
    decreases |mask|
  {
    var last := |mask| - 1;
    if n == |mask| {
      assert mask[..n] == mask && Take(kv, n) == kv;
    } else {
      MaskedTailAddsNothing(layer, h, q, Take(kv, last), mask[..last], n, zero);
      assert Take(Take(kv, last), n) == Take(kv, n) && mask[..last][..n] == mask[..n];
    }
  }

  /** Attending under a mask that hides everything from `n` on is attending to the first `n`. */
  lemma MaskedTailIsInvisible(layer: Layer, q: Vec, kv: Kv, mask: seq<bool>, n: nat)
    requires kv.Valid() && |mask| == |kv.ks| && n <= |mask|
    requires forall j | n <= j < |mask| :: !mask[j]
    ensures Attend(layer, q, kv, mask) == Attend(layer, q, Take(kv, n), mask[..n])
  {
    forall h | 0 <= h < layer.heads
      ensures HeadContext(layer, h, q, kv, mask) == HeadContext(layer, h, q, Take(kv, n), mask[..n])
    {
      MaskedTailAddsNothing(layer, SharedHead(layer, h), layer.queryHead(q, h), kv, mask, n, seq(layer.headSize, _ => 0.0));
    }
    assert seq(layer.heads, h requires 0 <= h < layer.heads => HeadContext(layer, h, q, kv, mask))
        == seq(layer.heads, h requires 0 <= h < layer.heads => HeadContext(layer, h, q, Take(kv, n), mask[..n]));
  }

  // ----- one layer ---------------------------------------------------------------

  function KeyOf(layer: Layer, x: Vec, rot: Rot): Vec {
    layer.rotate(layer.key(layer.attnNorm(x)), rot)
  }

  function ValueOf(layer: Layer, x: Vec): Vec {
    layer.value(layer.attnNorm(x))
  }

  function KvOf(layer: Layer, xs: seq<Vec>, rots: seq<Rot>): (kv: Kv)
    requires |xs| == |rots|
    ensures kv.Valid() && |kv.ks| == |xs|
  {
    Kv(seq(|xs|, i requires 0 <= i < |xs| => KeyOf(layer, xs[i], rots[i])),
       seq(|xs|, i requires 0 <= i < |xs| => ValueOf(layer, xs[i])))
  }

  /** DecoderLayer.forward at one position, given everything it may look at. */
  function Position(layer: Layer, x: Vec, rot: Rot, kv: Kv, mask: seq<bool>): Vec
    requires kv.Valid() && |mask| == |kv.ks|
  {
    var q := layer.rotate(layer.query(layer.attnNorm(x)), rot);
    layer.feedForward(layer.attnResidual(x, Attend(layer, q, kv, mask)))
  }

  // ----- the full forward pass -----------------------------------------------------

  /** generate_block_causal_mask: visual rows see no text, text rows see text up to themselves. */
  function BlockCausalMask(m: nat, n: nat): (mask: seq<seq<bool>>)
    ensures |mask| == m + n && forall i | 0 <= i < m + n :: |mask[i]| == m + n
    ensures forall i, j | 0 <= i < m + n && 0 <= j < m + n :: mask[i][j] <==> j < m || m <= j <= i
  {
    seq(m + n, i requires 0 <= i < m + n =>
      seq(m + n, j requires 0 <= j < m + n => if j < m then true else if i < m then false else j - m <= i - m))
  }

  /** compute_batch_2d_mrope_freqs for one row. */
  function Rotations(model: Model, row: Row, n: nat): (rots: seq<Rot>)
    ensures |rots| == |row.features| + n
  {
    var m := |row.features|;
    seq(m + n, i requires 0 <= i < m + n =>
      if i >= m then model.textRot(i - m)
      else if i < row.height * row.width then model.visualRot(row.height, row.width, i)
      else model.plainRot)
  }

  function Inputs(model: Model, row: Row, tokens: seq<Token>): (xs: seq<Vec>)
    ensures |xs| == |row.features| + |tokens|
  {
    seq(|row.features|, i requires 0 <= i < |row.features| => model.project(row.features[i]))
    + seq(|tokens|, i requires 0 <= i < |tokens| => model.embed(tokens[i]))
  }

  function FullLayer(layer: Layer, xs: seq<Vec>, rots: seq<Rot>, mask: seq<seq<bool>>): (ys: seq<Vec>)
    requires |xs| == |rots| == |mask|
    requires forall i | 0 <= i < |mask| :: |mask[i]| == |xs|
    ensures |ys| == |xs|
  {
    var kv := KvOf(layer, xs, rots);
    seq(|xs|, i requires 0 <= i < |xs| => Position(layer, xs[i], rots[i], kv, mask[i]))
  }

  /** What enters layer `l`; `l == |layers|` is what leaves the last one. */
  function Hidden(model: Model, row: Row, tokens: seq<Token>, l: nat): (xs: seq<Vec>)
    requires l <= |model.layers|
    ensures |xs| == |row.features| + |tokens|
  {
    if l == 0 then Inputs(model, row, tokens)
    else FullLayer(model.layers[l - 1], Hidden(model, row, tokens, l - 1),
                   Rotations(model, row, |tokens|), BlockCausalMask(|row.features|, |tokens|))
  }

  /** The keys and values layer `l` computes in a full pass. */
  function FullKv(model: Model, row: Row, tokens: seq<Token>, l: nat): (kv: Kv)
    requires l < |model.layers|
    ensures kv.Valid() && |kv.ks| == |row.features| + |tokens|
  {
    KvOf(model.layers[l], Hidden(model, row, tokens, l), Rotations(model, row, |tokens|))
  }

  /** The logits of the last text position of VisualCausalOCRDecoder.forward. */
  function LastLogits(model: Model, row: Row, tokens: seq<Token>): Vec
    requires tokens != []
  {
    model.head(model.finalNorm(Hidden(model, row, tokens, |model.layers|)[|row.features| + |tokens| - 1]))
  }

  // ----- one cached step --------------------------------------------------------------

  /** The cache entry of a layer after torch.cat of one new position. */
  function Grown(layer: Layer, kv: Kv, x: Vec, rot: Rot): (more: Kv)
    requires kv.Valid()
    ensures more.Valid() && |more.ks| == |kv.ks| + 1
  {
    Kv(kv.ks + [KeyOf(layer, x, rot)], kv.vs + [ValueOf(layer, x)])
  }

  /** One new position through one layer, with everything cached visible (mask=None). */
  function StepLayer(layer: Layer, kv: Kv, x: Vec, rot: Rot): Vec
    requires kv.Valid()
  {
    Position(layer, x, rot, Grown(layer, kv, x, rot), AllVisible(|kv.ks| + 1))
  }

  /** The new position entering layer `l`, when the caches hold the full pass over `tokens`. */
  function StepHidden(model: Model, row: Row, tokens: seq<Token>, t: Token, l: nat): Vec
    requires l <= |model.layers|
  {
    if l == 0 then model.embed(t)
    else StepLayer(model.layers[l - 1], FullKv(model, row, tokens, l - 1),
                   StepHidden(model, row, tokens, t, l - 1), model.textRot(|tokens|))
  }

  lemma KvOfGrows(layer: Layer, xs: seq<Vec>, rots: seq<Rot>, x: Vec, rot: Rot)
    requires |xs| == |rots|
    ensures KvOf(layer, xs + [x], rots + [rot]) == Grown(layer, KvOf(layer, xs, rots), x, rot)
  {
  }

  /** A new last position that the others do not see leaves their outputs alone. */
  lemma FullLayerGrows(layer: Layer, xs: seq<Vec>, rots: seq<Rot>, mask: seq<seq<bool>>, x: Vec, rot: Rot, wider: seq<seq<bool>>)
    requires |xs| == |rots| == |mask| && |wider| == |mask| + 1
    requires forall i | 0 <= i < |mask| :: |mask[i]| == |xs| && wider[i] == mask[i] + [false]
    requires wider[|mask|] == AllVisible(|xs| + 1)
    ensures FullLayer(layer, xs + [x], rots + [rot], wider)
         == FullLayer(layer, xs, rots, mask) + [StepLayer(layer, KvOf(layer, xs, rots), x, rot)]
  {
    KvOfGrows(layer, xs, rots, x, rot);
    var n := |xs|;
    var kv := KvOf(layer, xs, rots);
    var wide := Grown(layer, kv, x, rot);
    assert Take(wide, n) == kv;
    forall i | 0 <= i < n
      ensures Position(layer, xs[i], rots[i], wide, wider[i]) == Position(layer, xs[i], rots[i], kv, mask[i])
    {
      MaskedTailIsInvisible(layer, layer.rotate(layer.query(layer.attnNorm(xs[i])), rots[i]), wide, wider[i], n);
      assert wider[i][..n] == mask[i];
    }
  }

  lemma MaskGrows(m: nat, n: nat)
    ensures var mask, wider := BlockCausalMask(m, n), BlockCausalMask(m, n + 1);
      && (forall i | 0 <= i < m + n :: wider[i] == mask[i] + [false])
      && wider[m + n] == AllVisible(m + n + 1)
  {
  }

  lemma RotationsGrow(model: Model, row: Row, n: nat)
    ensures Rotations(model, row, n + 1) == Rotations(model, row, n) + [model.textRot(n)]
  {
  }

  lemma InputsGrow(model: Model, row: Row, tokens: seq<Token>, t: Token)
    ensures Inputs(model, row, tokens + [t]) == Inputs(model, row, tokens) + [model.embed(t)]
  {
    var a, b := Inputs(model, row, tokens + [t]), Inputs(model, row, tokens) + [model.embed(t)];
    var m := |row.features|;
    assert |a| == |b|;
    forall i | 0 <= i < |a|
      ensures a[i] == b[i]
    {
      if m <= i < m + |tokens| {
        assert (tokens + [t])[i - m] == tokens[i - m];
      }
    }
  }

  ghost predicate StepAgrees(model: Model, row: Row, tokens: seq<Token>, t: Token, l: nat)
    requires l <= |model.layers|
  {
    Hidden(model, row, tokens + [t], l) == Hidden(model, row, tokens, l) + [StepHidden(model, row, tokens, t, l)]
  }

  /**
   The cached step is the full pass: recomputing everything with one more token
   gives what was there before, followed by what the cached step computes.
   */
  lemma {:induction false} CachedStepIsFullPass(model: Model, row: Row, tokens: seq<Token>, t: Token, l: nat)
    requires l <= |model.layers|
    ensures StepAgrees(model, row, tokens, t, l)
    decreases l
  {
    hide StepAgrees;
    if l == 0 {
      FirstLayerStep(model, row, tokens, t);
    } else {
      CachedStepIsFullPass(model, row, tokens, t, l - 1);
      NextLayerStep(model, row, tokens, t, l);
    }
  }

  lemma FirstLayerStep(model: Model, row: Row, tokens: seq<Token>, t: Token)
    ensures StepAgrees(model, row, tokens, t, 0)
  {
    InputsGrow(model, row, tokens, t);
  }

  lemma NextLayerStep(model: Model, row: Row, tokens: seq<Token>, t: Token, l: nat)
    requires 0 < l <= |model.layers|
    requires StepAgrees(model, row, tokens, t, l - 1)
    ensures StepAgrees(model, row, tokens, t, l)
  {
    hide FullLayer, StepLayer, BlockCausalMask, Rotations, KvOf, AllVisible;
    var m, n, layer := |row.features|, |tokens|, model.layers[l - 1];
    var xs, x := Hidden(model, row, tokens, l - 1), StepHidden(model, row, tokens, t, l - 1);
    var rots, mask := Rotations(model, row, n), BlockCausalMask(m, n);
    MaskGrows(m, n);
    FullLayerGrows(layer, xs, rots, mask, x, model.textRot(n), BlockCausalMask(m, n + 1));
    calc {
      Hidden(model, row, tokens + [t], l);
      FullLayer(layer, xs + [x], Rotations(model, row, n + 1), BlockCausalMask(m, n + 1));
      { RotationsGrow(model, row, n); }
      FullLayer(layer, xs + [x], rots + [model.textRot(n)], BlockCausalMask(m, n + 1));
      FullLayer(layer, xs, rots, mask) + [StepLayer(layer, KvOf(layer, xs, rots), x, model.textRot(n))];
      Hidden(model, row, tokens, l) + [StepHidden(model, row, tokens, t, l)];
    }
  }

  /** After any number of steps each layer's cache equals the recomputed keys and values. */
  lemma CacheIsFullKv(model: Model, row: Row, tokens: seq<Token>, t: Token, l: nat)
    requires l < |model.layers|
    ensures Grown(model.layers[l], FullKv(model, row, tokens, l), StepHidden(model, row, tokens, t, l), model.textRot(|tokens|))
         == FullKv(model, row, tokens + [t], l)
  {
    CachedStepIsFullPass(model, row, tokens, t, l);
    RotationsGrow(model, row, |tokens|);
    KvOfGrows(model.layers[l], Hidden(model, row, tokens, l), Rotations(model, row, |tokens|),
              StepHidden(model, row, tokens, t, l), model.textRot(|tokens|));
  }
}
