/**
 Hashes that send different texts to different digests: for any texts a run may write
 there is one with digests of the usual form, so what is proved where no two texts
 collide is proved of runs that exist.
 */
module Digests {
  import opened JsonTree
  import opened ArtifactRefs
  import opened CacheMachine
  import opened PageCache
  import opened PyText

  const HEX := "0123456789abcdef"

  function Pow16(k: nat): nat {
    if k == 0 then 1 else 16 * Pow16(k - 1)
  }

  /** `n` in `k` hexadecimal digits. */
  function Hex(n: nat, k: nat): (s: string)
    ensures |s| == k && forall i | 0 <= i < k :: s[i] in HEX
  {
    if k == 0 then "" else Hex(n / 16, k - 1) + [HEX[n % 16]]
  }

  lemma {:induction false} HexDiffers(n: nat, m: nat, k: nat)
    requires n < Pow16(k) && m < Pow16(k) && Hex(n, k) == Hex(m, k)
    ensures n == m
    decreases k
  {
    if k > 0 {
      var a, b := Hex(n / 16, k - 1), Hex(m / 16, k - 1);
      assert a == Hex(n, k)[..k - 1] && b == Hex(m, k)[..k - 1];
      assert HEX[n % 16] == Hex(n, k)[k - 1] && HEX[m % 16] == Hex(m, k)[k - 1];
      hide Hex, HEX;
      HexDiffers(n / 16, m / 16, k - 1);
      DigitsDiffer(n % 16, m % 16);
    }
  }

  lemma DigitsDiffer(i: nat, j: nat)
    requires i < 16 && j < 16 && HEX[i] == HEX[j]
    ensures i == j
  {
    assert forall i, j | 0 <= i < j < 16 :: HEX[i] != HEX[j];
  }

  /** How many of `order` come before `text`. */
  function Position(order: seq<string>, text: string): (n: nat)
    ensures n <= |order| && (n < |order| ==> order[n] == text)
    ensures text in order ==> n < |order|
  {
    if order == [] || order[0] == text then 0 else 1 + Position(order[1..], text)
  }

  lemma {:induction false} Listed(texts: set<string>) returns (order: seq<string>)
    ensures |order| == |texts| && forall t :: t in order <==> t in texts
    decreases texts
  {
    if texts == {} {
      order := [];
    } else {
      var t :| t in texts;
      var rest := Listed(texts - {t});
      order := [t] + rest;
    }
  }

  /** Any texts, short of more than there are digests, are separated by some hash. */
  lemma SomeHashSeparates(texts: set<string>) returns (h: Hash)
    requires |texts| < Pow16(64)
    ensures IsHash(h) && Separates(h, texts)
  {
    var order := Listed(texts);
    h := text => Hex(Position(order, text), 64);
    assert IsHash(h) by {
      HexIsSha(order);
    }
    hide Hex, Pow16, IsSha;
    forall s, t | s in texts && t in texts && h(s) == h(t) ensures s == t {
      HexDiffers(Position(order, s), Position(order, t), 64);
    }
  }

  lemma HexIsSha(order: seq<string>)
    ensures forall text :: IsSha(Hex(Position(order, text), 64))
  {
    hide Pow16;
  }

  lemma {:induction false} PowerGrows(k: nat)
    ensures Pow16(k) > k
  {
    if k > 0 {
      PowerGrows(k - 1);
    }
  }

  /** A run of one store_page call without a collision: its manifest is fresh, and names the object that holds its image. */
  lemma AnImageIsStored() returns (h: Hash, w: World, key: Key)
    ensures IsHash(h) && Reachable(h, w) && Separates(h, w.written)
    ensures key in w.manifests && !w.manifests[key].stale && w.rotted == {}
    ensures var sha := w.manifests[key].image; sha in w.objects && w.objects[sha] == "image" && h("image") == sha
  {
    hide *;
    var text := EmptyDocument();
    PowerGrows(64);
    h := SomeHashSeparates({"source", "image", text});
    var c := PageOf(h, text);
    key := c.key;
    w := OneCall(h, c);
    assert w.written == {"source", "image", text} && w.manifests[key] == Fresh(h, c);
    Apart(h, w.written, "image", text);
    FreshNames(h, c);
  }

  lemma Apart(h: Hash, texts: set<string>, s: string, t: string)
    requires Separates(h, texts) && s in texts && t in texts && s != t
    ensures h(s) != h(t)
  {
  }

  lemma FreshNames(h: Hash, c: Call)
    ensures !Fresh(h, c).stale && Fresh(h, c).image == h(c.rendered)
  {
  }

  lemma EmptyDocument() returns (text: string)
    ensures Readable(text) && RefsOf(text) == {} && text != "image"
  {
    text := Print(Python, Obj([]));
    assert text[0] == '{';
    PrintedIsReadable(Obj([]));
    hide Readable, RefsOf, Print;
  }

  lemma PageOf(h: Hash, text: string) returns (c: Call)
    requires IsHash(h) && Readable(text)
    ensures CanBegin(h, c) && TextsOf(c) == {"source", "image", text} && c.text == text && c.rendered == "image"
  {
    var sha := h("source");
    assert IsSha(sha);
    hide IsHash, IsSha, Readable;
    assert Strip("manga") == "manga";
    c := Call(Key("manga", sha), "manga", "1", "source", "image", text);
  }

  /** store_page, undisturbed. */
  lemma OneCall(h: Hash, c: Call) returns (w: World)
    requires CanBegin(h, c) && RefsOf(c.text) == {}
    ensures Reachable(h, w) && w.written == TextsOf(c) && w.rotted == {}
    ensures w.manifests == map[c.key := Fresh(h, c)]
    ensures w.objects == map[h(c.source) := c.source][h(c.rendered) := c.rendered][h(c.text) := c.text]
  {
    hide CanBegin, CanEdit, RefsOf, Reachable, Fresh;
    assert Readable(c.text) by {
      NeedsReadable(h, c);
    }
    hide Readable;
    EmptyReachable(h);
    w := Step(h, Empty(), Join(0));
    w := Step(h, w, Begin(0, c));
    w := Step(h, w, Put(0, c.source));
    w := Step(h, w, Put(0, c.rendered));
    w := Step(h, w, Put(0, c.text));
    w := Step(h, w, Store(0));
  }

  lemma NeedsReadable(h: Hash, c: Call)
    requires CanBegin(h, c)
    ensures Readable(c.text)
  {
  }

  lemma Step(h: Hash, w: World, a: Action) returns (v: World)
    requires Reachable(h, w) && Enabled(h, w, a)
    ensures Reachable(h, v) && v == Apply(h, w, a)
  {
    v := Apply(h, w, a);
    ReachableStep(h, w, a);
  }
}
