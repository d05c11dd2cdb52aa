/**
 The decoder of server/kindle/hayai_model.py once more, straight from the formulas: no
 cache, no mask, no batch.  A position sees a prefix; each query head takes the softmax
 average of the key and value head of its group; a token is the best after all before it.
 */
module ReferenceDecoder {
  import opened Decoder
  import opened TokenStream

  // ----- attention ---------------------------------------------------------------------------

  function Total(terms: seq<real>): real {
    if terms == [] then 0.0 else Total(terms[..|terms| - 1]) + terms[|terms| - 1]
  }

  function Component(v: Vec, i: nat): real {
    if i < |v| then v[i] else 0.0
  }

  /** Query heads come in groups of equal size, one for each key and value head. */
  predicate Grouped(layer: Layer) {
    layer.keyHeads > 0 && layer.heads == GroupSize(layer) * layer.keyHeads
  }

  function GroupSize(layer: Layer): nat
    requires layer.keyHeads > 0
  {
    layer.heads / layer.keyHeads
  }

  /** repeat_interleave of `0, .., n - 1`. */
  function Interleaved(n: nat, times: nat): (s: seq<nat>)
    ensures |s| == n * times
  {
    if n == 0 then [] else Interleaved(n - 1, times) + seq(times, _ => n - 1)
  }

  /** The key and value head behind query head `h`. */
  function GroupOf(layer: Layer, h: nat): nat
    requires Grouped(layer) && h < layer.heads
  {
    Interleaved(layer.keyHeads, GroupSize(layer))[h]
  }

  /** The softmax weights, before they are divided by their sum. */
  function Scores(layer: Layer, k: nat, qh: Vec, ks: seq<Vec>): (s: seq<real>)
    ensures |s| == |ks|
  {
    seq(|ks|, j requires 0 <= j < |ks| => layer.weight(qh, layer.keyHead(ks[j], k)))
  }

  function Contributions(layer: Layer, k: nat, qh: Vec, kv: Kv, i: nat): (s: seq<real>)
    requires kv.Valid()
    ensures |s| == |kv.ks|
  {
    seq(|kv.ks|, j requires 0 <= j < |kv.ks| =>
      Product(layer.weight(qh, layer.keyHead(kv.ks[j], k)), Component(layer.keyHead(kv.vs[j], k), i)))
  }

  function Product(a: real, b: real): real {
    a * b
  }

  /** The weighted average of component `i` of the values of head `k`. */
  function Average(layer: Layer, k: nat, qh: Vec, kv: Kv, i: nat): real
    requires kv.Valid()
  {
    var sum := Total(Scores(layer, k, qh, kv.ks));
    Total(Contributions(layer, k, qh, kv, i)) / (if sum == 0.0 then 1.0 else sum)
  }

  function Context(layer: Layer, h: nat, q: Vec, kv: Kv): Vec
    requires kv.Valid() && Grouped(layer) && h < layer.heads
  {
    seq(layer.headSize, i requires 0 <= i < layer.headSize =>
      Average(layer, GroupOf(layer, h), layer.queryHead(q, h), kv, i))
  }

  lemma {:induction false} InterleavedAt(n: nat, times: nat, k: nat, h: nat)
    requires k < n && k * times <= h < (k + 1) * times
    ensures h < n * times && Interleaved(n, times)[h] == k
    decreases n
  {
    if k < n - 1 {
      InterleavedAt(n - 1, times, k, h);
      assert n * times == (n - 1) * times + times;
    } else {
      assert |Interleaved(n - 1, times)| == k * times;
    }
  }

  lemma SharesItsGroup(layer: Layer, h: nat, g: nat, k: nat)
    requires layer.heads == g * layer.keyHeads && k * g <= h < (k + 1) * g && k < layer.keyHeads
    ensures Grouped(layer) && h < layer.heads && GroupOf(layer, h) == k
  {
    GroupSizeIs(g, layer.keyHeads);
    InterleavedAt(layer.keyHeads, g, k, h);
  }

  lemma GroupSizeIs(g: nat, n: nat)
    requires n > 0
    ensures g * n / n == g
  {
    var q, r := (g * n) / n, (g * n) % n;
    assert g * n == n * q + r;
    NoMultipleBetween(g - q, n, r);
  }

  lemma NoMultipleBetween(d: int, n: nat, r: nat)
    requires d * n == r < n
    ensures d == 0
  {
    if d >= 1 {
      Scale(1, d, n);
    }
  }

  lemma SharedIsGroup(layer: Layer, h: nat)
    requires Grouped(layer) && h < layer.heads
    ensures SharedHead(layer, h) == GroupOf(layer, h)
  {
    var g, n := GroupSize(layer), layer.keyHeads;
    var k := GroupAround(h, g, n);
    hide Interleaved;
    SharesItsGroup(layer, h, g, k);
    if layer.heads == n {
      OneEach(g, n, h);
    }
  }

  lemma OneEach(g: nat, n: nat, h: nat)
    requires n > 0 && g * n == n
    ensures g == 1 && h / g == h
  {
    NoMultipleBetween(g - 1, n, 0);
  }

  lemma GroupAround(h: nat, g: nat, n: nat) returns (k: nat)
    requires h < g * n
    ensures g > 0 && k < n && k == h / g && k * g <= h < (k + 1) * g
  {
    assert g > 0;
    k := h / g;
    var r := h % g;
    assert h == g * k + r;
    if k >= n {
      Scale(n, k, g);
    }
  }

  lemma Scale(a: int, b: int, c: nat)
    requires a <= b
    ensures a * c <= b * c
  {
  }

  lemma {:induction false} DenominatorIs(layer: Layer, k: nat, qh: Vec, ks: seq<Vec>)
    ensures Denominator(layer, k, qh, ks, AllVisible(|ks|)) == Total(Scores(layer, k, qh, ks))
    decreases |ks|
  {
    if ks != [] {
      var n := |ks| - 1;
      DenominatorIs(layer, k, qh, ks[..n]);
      assert AllVisible(|ks|)[..n] == AllVisible(n);
      assert Scores(layer, k, qh, ks)[..n] == Scores(layer, k, qh, ks[..n]);
    }
  }

  lemma AddedTerm(acc: Vec, w: real, v: Vec)
    ensures |Axpy(acc, w, v)| == |acc|
    ensures forall i | 0 <= i < |acc| :: Axpy(acc, w, v)[i] == acc[i] + Product(w, Component(v, i))
  {
  }

  lemma LastContribution(layer: Layer, k: nat, qh: Vec, kv: Kv, i: nat)
    requires kv.Valid() && kv.ks != []
    ensures var n := |kv.ks| - 1;
      Total(Contributions(layer, k, qh, kv, i))
        == Total(Contributions(layer, k, qh, Take(kv, n), i))
           + Product(layer.weight(qh, layer.keyHead(kv.ks[n], k)), Component(layer.keyHead(kv.vs[n], k), i))
  {
    hide Product, Component;
    assert Contributions(layer, k, qh, kv, i)[..|kv.ks| - 1] == Contributions(layer, k, qh, Take(kv, |kv.ks| - 1), i);
  }

  lemma {:induction false} NumeratorIs(layer: Layer, k: nat, qh: Vec, kv: Kv, zero: Vec)
    requires kv.Valid() && forall i | 0 <= i < |zero| :: zero[i] == 0.0
    ensures var n := Numerator(layer, k, qh, kv, AllVisible(|kv.ks|), zero);
      |n| == |zero| && forall i | 0 <= i < |zero| :: n[i] == Total(Contributions(layer, k, qh, kv, i))
    decreases |kv.ks|
  {
    hide Contributions, Product, Component, Axpy;
    if kv.ks == [] {
      forall i | 0 <= i < |zero| ensures Contributions(layer, k, qh, kv, i) == [] {
      }
    } else {
      var n := |kv.ks| - 1;
      var less := Take(kv, n);
      NumeratorIs(layer, k, qh, less, zero);
      assert AllVisible(|kv.ks|)[..n] == AllVisible(n);
      AddedTerm(Numerator(layer, k, qh, less, AllVisible(n), zero), layer.weight(qh, layer.keyHead(kv.ks[n], k)),
                layer.keyHead(kv.vs[n], k));
      hide Total;
      forall i | 0 <= i < |zero|
        ensures Numerator(layer, k, qh, kv, AllVisible(|kv.ks|), zero)[i] == Total(Contributions(layer, k, qh, kv, i))
      {
        LastContribution(layer, k, qh, kv, i);
      }
    }
  }

  /** The context of a head under no mask. */
  lemma ContextIs(layer: Layer, h: nat, q: Vec, kv: Kv)
    requires kv.Valid() && Grouped(layer) && h < layer.heads
    ensures HeadContext(layer, h, q, kv, AllVisible(|kv.ks|)) == Context(layer, h, q, kv)
  {
    SharedIsGroup(layer, h);
    hide SharedHead, GroupOf, Numerator, Denominator, Contributions, Scores, Total;
    var k, qh := GroupOf(layer, h), layer.queryHead(q, h);
    DenominatorIs(layer, k, qh, kv.ks);
    NumeratorIs(layer, k, qh, kv, seq(layer.headSize, _ => 0.0));
  }

  function Attention(layer: Layer, q: Vec, kv: Kv): Vec
    requires kv.Valid() && Grouped(layer)
  {
    layer.output(seq(layer.heads, h requires 0 <= h < layer.heads => Context(layer, h, q, kv)))
  }

  lemma AttentionIs(layer: Layer, q: Vec, kv: Kv)
    requires kv.Valid() && Grouped(layer)
    ensures Attend(layer, q, kv, AllVisible(|kv.ks|)) == Attention(layer, q, kv)
  {
    hide Context, HeadContext;
    forall h | 0 <= h < layer.heads
      ensures HeadContext(layer, h, q, kv, AllVisible(|kv.ks|)) == Context(layer, h, q, kv)
    {
      ContextIs(layer, h, q, kv);
    }
    assert seq(layer.heads, h requires 0 <= h < layer.heads => HeadContext(layer, h, q, kv, AllVisible(|kv.ks|)))
        == seq(layer.heads, h requires 0 <= h < layer.heads => Context(layer, h, q, kv));
  }

  // ----- what a head looks at ----------------------------------------------------------------

  /** Two sets of keys and values look the same to key head `k`. */
  predicate AlikeAt(layer: Layer, k: nat, a: Kv, b: Kv)
    requires a.Valid() && b.Valid()
  {
    && |a.ks| == |b.ks|
    && forall j | 0 <= j < |a.ks| ::
         layer.keyHead(a.ks[j], k) == layer.keyHead(b.ks[j], k) && layer.keyHead(a.vs[j], k) == layer.keyHead(b.vs[j], k)
  }

  /** The query heads from `k * g` up to the next group look at key and value head `k` alone. */
  lemma OtherHeadsDoNotMatter(layer: Layer, g: nat, k: nat, h: nat, q: Vec, a: Kv, b: Kv)
    requires layer.heads == g * layer.keyHeads && k < layer.keyHeads && k * g <= h < (k + 1) * g
    requires a.Valid() && b.Valid() && AlikeAt(layer, k, a, b)
    ensures HeadContext(layer, h, q, a, AllVisible(|a.ks|)) == HeadContext(layer, h, q, b, AllVisible(|b.ks|))
  {
    hide Grouped, GroupOf, HeadContext, Total, Product;
    SharesItsGroup(layer, h, g, k);
    ContextIs(layer, h, q, a);
    ContextIs(layer, h, q, b);
    forall i | 0 <= i < layer.headSize
      ensures Average(layer, k, layer.queryHead(q, h), a, i) == Average(layer, k, layer.queryHead(q, h), b, i)
    {
      assert Contributions(layer, k, layer.queryHead(q, h), a, i) == Contributions(layer, k, layer.queryHead(q, h), b, i);
      assert Scores(layer, k, layer.queryHead(q, h), a.ks) == Scores(layer, k, layer.queryHead(q, h), b.ks);
    }
  }

  /** Where all values of that head are one vector, it is the context. */
  lemma ConstantValuesAreTheContext(layer: Layer, g: nat, k: nat, h: nat, q: Vec, kv: Kv, v: Vec)
    requires layer.heads == g * layer.keyHeads && k < layer.keyHeads && k * g <= h < (k + 1) * g
    requires kv.Valid() && |v| == layer.headSize
    requires forall j | 0 <= j < |kv.vs| :: layer.keyHead(kv.vs[j], k) == v
    requires Total(Scores(layer, k, layer.queryHead(q, h), kv.ks)) != 0.0
    ensures HeadContext(layer, h, q, kv, AllVisible(|kv.ks|)) == v
  {
    hide Grouped, GroupOf, HeadContext, Total, Scores, Contributions;
    SharesItsGroup(layer, h, g, k);
    ContextIs(layer, h, q, kv);
    forall i | 0 <= i < layer.headSize ensures Average(layer, k, layer.queryHead(q, h), kv, i) == v[i] {
      ConstantAverage(layer, k, layer.queryHead(q, h), kv, v, i);
    }
  }

  lemma ConstantAverage(layer: Layer, k: nat, qh: Vec, kv: Kv, v: Vec, i: nat)
    requires kv.Valid() && i < |v| && forall j | 0 <= j < |kv.vs| :: layer.keyHead(kv.vs[j], k) == v
    requires Total(Scores(layer, k, qh, kv.ks)) != 0.0
    ensures Average(layer, k, qh, kv, i) == v[i]
  {
    hide Total, Product;
    var scores := Scores(layer, k, qh, kv.ks);
    assert Contributions(layer, k, qh, kv, i) == Scaled(scores, v[i]);
    TotalScales(scores, v[i]);
    Undone(Total(scores), v[i]);
  }

  lemma Undone(a: real, b: real)
    requires a != 0.0
    ensures Product(a, b) / a == b
  {
  }

  lemma Distributes(a: real, b: real, c: real)
    ensures Product(a + b, c) == Product(a, c) + Product(b, c) && Product(0.0, c) == 0.0
  {
  }

  function Scaled(terms: seq<real>, c: real): (s: seq<real>)
    ensures |s| == |terms|
  {
    seq(|terms|, j requires 0 <= j < |terms| => Product(terms[j], c))
  }

  lemma {:induction false} TotalScales(terms: seq<real>, c: real)
    ensures Total(Scaled(terms, c)) == Product(Total(terms), c)
    decreases |terms|
  {
    hide Product;
    if terms == [] {
      Distributes(0.0, 0.0, c);
    } else {
      var n := |terms| - 1;
      TotalScales(terms[..n], c);
      Distributes(Total(terms[..n]), terms[n], c);
      assert Scaled(terms, c)[..n] == Scaled(terms[..n], c);
    }
  }

  // ----- one position after another ------------------------------------------------------------

  predicate AllGrouped(model: Model) {
    forall l | 0 <= l < |model.layers| :: Grouped(model.layers[l])
  }

  /** Text counts from zero behind the visual features, which lie row by row on their grid. */
  function Rotation(model: Model, row: Row, p: nat): Rot {
    var m := |row.features|;
    if m <= p then model.textRot(p - m)
    else if row.height * row.width <= p then model.plainRot
    else model.visualRot(row.height, row.width, p)
  }

  /** Visual features see each other, text sees them and itself so far. */
  function Sees(m: nat, p: nat): nat {
    if p < m then m else p + 1
  }

  /** What position `p` brings to layer `l`. */
  function State(model: Model, row: Row, tokens: seq<Token>, l: nat, p: nat): Vec
    requires AllGrouped(model) && l <= |model.layers| && p < |row.features| + |tokens|
    decreases l, 1
  {
    var m := |row.features|;
    if l == 0 then (if p < m then model.project(row.features[p]) else model.embed(tokens[p - m]))
    else
      var layer, x := model.layers[l - 1], State(model, row, tokens, l - 1, p);
      var q := layer.rotate(layer.query(layer.attnNorm(x)), Rotation(model, row, p));
      layer.feedForward(layer.attnResidual(x, Attention(layer, q, Seen(model, row, tokens, l - 1, Sees(m, p)))))
  }

  /** The keys and values of the first `n` positions in layer `l`. */
  function Seen(model: Model, row: Row, tokens: seq<Token>, l: nat, n: nat): (kv: Kv)
    requires AllGrouped(model) && l < |model.layers| && n <= |row.features| + |tokens|
    ensures kv.Valid() && |kv.ks| == n
    decreases l, 2
  {
    var layer := model.layers[l];
    Kv(seq(n, j requires 0 <= j < n =>
         layer.rotate(layer.key(layer.attnNorm(State(model, row, tokens, l, j))), Rotation(model, row, j))),
       seq(n, j requires 0 <= j < n => layer.value(layer.attnNorm(State(model, row, tokens, l, j)))))
  }

  ghost predicate StatesAgree(model: Model, row: Row, tokens: seq<Token>, l: nat)
    requires AllGrouped(model) && l <= |model.layers|
  {
    forall p | 0 <= p < |row.features| + |tokens| :: Hidden(model, row, tokens, l)[p] == State(model, row, tokens, l, p)
  }

  /** The masked pass over all positions at once computes these states. */
  lemma {:induction false} HiddenIsState(model: Model, row: Row, tokens: seq<Token>, l: nat)
    requires AllGrouped(model) && l <= |model.layers|
    ensures StatesAgree(model, row, tokens, l)
    decreases l
  {
    if l > 0 {
      HiddenIsState(model, row, tokens, l - 1);
      hide StatesAgree;
      forall p | 0 <= p < |row.features| + |tokens|
        ensures Hidden(model, row, tokens, l)[p] == State(model, row, tokens, l, p)
      {
        LayerIsState(model, row, tokens, l, p);
      }
      assert StatesAgree(model, row, tokens, l) by {
        AgreeEverywhere(model, row, tokens, l);
      }
    }
  }

  lemma AgreeEverywhere(model: Model, row: Row, tokens: seq<Token>, l: nat)
    requires AllGrouped(model) && l <= |model.layers|
    requires forall p | 0 <= p < |row.features| + |tokens| :: Hidden(model, row, tokens, l)[p] == State(model, row, tokens, l, p)
    ensures StatesAgree(model, row, tokens, l)
  {
  }

  lemma SeenIs(model: Model, row: Row, tokens: seq<Token>, l: nat, n: nat)
    requires AllGrouped(model) && l < |model.layers| && n <= |row.features| + |tokens|
    requires StatesAgree(model, row, tokens, l)
    ensures Take(FullKv(model, row, tokens, l), n) == Seen(model, row, tokens, l, n)
  {
    hide State, Hidden, AllGrouped;
  }

  /** A row of the mask shows exactly what its position sees. */
  lemma MaskShowsPrefix(layer: Layer, q: Vec, kv: Kv, m: nat, n: nat, p: nat)
    requires Grouped(layer) && kv.Valid() && |kv.ks| == m + n && p < m + n
    ensures Attend(layer, q, kv, BlockCausalMask(m, n)[p]) == Attention(layer, q, Take(kv, Sees(m, p)))
  {
    var mask := BlockCausalMask(m, n)[p];
    assert mask[..Sees(m, p)] == AllVisible(Sees(m, p));
    hide Attend, Attention, BlockCausalMask;
    MaskedTailIsInvisible(layer, q, kv, mask, Sees(m, p));
    AttentionIs(layer, q, Take(kv, Sees(m, p)));
  }

  lemma RotationIs(model: Model, row: Row, n: nat, p: nat)
    requires p < |row.features| + n
    ensures Rotations(model, row, n)[p] == Rotation(model, row, p)
  {
  }

  lemma LayerIsState(model: Model, row: Row, tokens: seq<Token>, l: nat, p: nat)
    requires AllGrouped(model) && 0 < l <= |model.layers| && p < |row.features| + |tokens|
    requires StatesAgree(model, row, tokens, l - 1)
    ensures Hidden(model, row, tokens, l)[p] == State(model, row, tokens, l, p)
  {
    hide Attend, Attention, Seen, BlockCausalMask, Rotations, Rotation, KvOf, Take;
    var m, n, layer := |row.features|, |tokens|, model.layers[l - 1];
    var x := Hidden(model, row, tokens, l - 1)[p];
    var q := layer.rotate(layer.query(layer.attnNorm(x)), Rotation(model, row, p));
    RotationIs(model, row, n, p);
    MaskShowsPrefix(layer, q, FullKv(model, row, tokens, l - 1), m, n, p);
    SeenIs(model, row, tokens, l - 1, Sees(m, p));
  }

  // ----- tokens --------------------------------------------------------------------------------

  /** A token that was written before is made less likely: towards minus infinity for a penalty above one. */
  function Discouraged(penalty: real, logits: Vec, seen: seq<Token>): Vec
    requires penalty != 0.0
  {
    seq(|logits|, i requires 0 <= i < |logits| =>
      if i in seen then (if logits[i] >= 0.0 then logits[i] / penalty else logits[i] * penalty) else logits[i])
  }

  function NextToken(model: Model, penalty: real, row: Row, tokens: seq<Token>): Token
    requires AllGrouped(model) && penalty != 0.0 && tokens != []
  {
    var last := State(model, row, tokens, |model.layers|, |row.features| + |tokens| - 1);
    model.argmax(Discouraged(penalty, model.head(model.finalNorm(last)), tokens))
  }

  /**
   Every token of `out` is the best after all before it and none is a stop; and it ends
   only at the limit or where the best is a stop.
   */
  ghost predicate IsDecoding(model: Model, penalty: real, stops: Stops, bos: Token, limit: nat, row: Row, out: seq<Token>)
    requires AllGrouped(model) && penalty != 0.0
  {
    && |out| <= limit
    && (forall i | 0 <= i < |out| ::
          out[i] == NextToken(model, penalty, row, [bos] + out[..i]) && out[i] != stops.eos && out[i] != stops.pad)
    && (|out| < limit ==> NextToken(model, penalty, row, [bos] + out) in {stops.eos, stops.pad})
  }

  lemma LogitsAre(model: Model, row: Row, tokens: seq<Token>)
    requires AllGrouped(model) && tokens != []
    ensures LastLogits(model, row, tokens)
         == model.head(model.finalNorm(State(model, row, tokens, |model.layers|, |row.features| + |tokens| - 1)))
  {
    hide State, Hidden, AllGrouped;
    HiddenIsState(model, row, tokens, |model.layers|);
  }

  /** Token by token, greedy decoding up to its first stop. */
  lemma {:induction false} GreedyAt(next: seq<Token> -> Token, bos: Token, n: nat, i: nat)
    requires i < n
    ensures Greedy(next, bos, n)[0] == bos
    ensures Greedy(next, bos, n)[i + 1] == next(Greedy(next, bos, n)[..i + 1])
    decreases n
  {
    var before := Greedy(next, bos, n - 1);
    if i < n - 1 {
      GreedyAt(next, bos, n - 1, i);
      assert Greedy(next, bos, n)[..i + 1] == before[..i + 1];
    } else {
      GreedyStarts(next, bos, n);
      assert Greedy(next, bos, n)[..n] == before;
    }
  }

  lemma {:induction false} GreedyStarts(next: seq<Token> -> Token, bos: Token, n: nat)
    ensures Greedy(next, bos, n)[0] == bos
    decreases n
  {
    if n > 0 {
      GreedyStarts(next, bos, n - 1);
    }
  }

  ghost predicate IsStream(next: seq<Token> -> Token, stops: Stops, bos: Token, limit: nat, out: seq<Token>) {
    && |out| <= limit
    && (forall i | 0 <= i < |out| :: out[i] == next([bos] + out[..i]) && out[i] != stops.eos && out[i] != stops.pad)
    && (|out| < limit ==> next([bos] + out) in {stops.eos, stops.pad})
  }

  lemma UpToStopIsStream(next: seq<Token> -> Token, stops: Stops, bos: Token, limit: nat)
    ensures IsStream(next, stops, bos, limit, UpToStop(stops, Greedy(next, bos, limit)[1..]))
  {
    var whole := Greedy(next, bos, limit);
    var out := UpToStop(stops, whole[1..]);
    GreedyStarts(next, bos, limit);
    hide Greedy, UpToStop;
    forall i: nat | i <= |out| && i < limit ensures whole[1..][i] == next([bos] + out[..i]) {
      GreedyAt(next, bos, limit, i);
      assert out[..i] == whole[1..][..i];
      assert [bos] + out[..i] == whole[..i + 1];
    }
    forall i | 0 <= i < |out| ensures out[i] == next([bos] + out[..i]) && !Stop(stops, out[i]) {
      assert out[i] == whole[1..][i];
    }
    assert out[..|out|] == out;
  }
}
