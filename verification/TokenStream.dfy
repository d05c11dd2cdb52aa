/**
 Greedy token streams over an arbitrary next-token choice: what one row writes on
 its own, and what it writes inside a batch that pads finished rows.
 */
module TokenStream {
  type Token = nat

  datatype Stops = Stops(eos: Token, pad: Token)

  predicate Stop(cfg: Stops, t: Token) {
    t == cfg.eos || t == cfg.pad
  }

  predicate HasStop(cfg: Stops, s: seq<Token>) {
    exists i :: 0 <= i < |s| && Stop(cfg, s[i])
  }

  /** BOS and `n` tokens, each chosen from all before it. */
  function Greedy(next: seq<Token> -> Token, bos: Token, n: nat): (tokens: seq<Token>)
    ensures |tokens| == n + 1
  {
    if n == 0 then [bos]
    else
      var before := Greedy(next, bos, n - 1);
      before + [next(before)]
  }

  function UpToStop(cfg: Stops, s: seq<Token>): (prefix: seq<Token>)
    ensures prefix <= s && !HasStop(cfg, prefix)
    ensures |prefix| < |s| ==> Stop(cfg, s[|prefix|])
  {
    if s == [] || Stop(cfg, s[0]) then [] else [s[0]] + UpToStop(cfg, s[1..])
  }

  /** A row goes on with padding once it has produced EOS or padding itself. */
  function Padded(next: seq<Token> -> Token, cfg: Stops, bos: Token, n: nat): (tokens: seq<Token>)
    ensures |tokens| == n + 1
  {
    if n == 0 then [bos]
    else
      var before := Padded(next, cfg, bos, n - 1);
      before + [if HasStop(cfg, before[1..]) then cfg.pad else next(before)]
  }

  /** The tokens handed to the tokenizer. */
  function Cleaned(cfg: Stops, s: seq<Token>): seq<Token> {
    if s == [] then []
    else Cleaned(cfg, s[..|s| - 1]) + (if Stop(cfg, s[|s| - 1]) then [] else [s[|s| - 1]])
  }

  lemma {:induction false} CleanedWithoutStops(cfg: Stops, s: seq<Token>)
    requires !HasStop(cfg, s)
    ensures Cleaned(cfg, s) == s
    decreases |s|
  {
    if s != [] {
      assert !HasStop(cfg, s[..|s| - 1]) by {
        assert forall i | 0 <= i < |s| - 1 :: s[..|s| - 1][i] == s[i];
      }
      CleanedWithoutStops(cfg, s[..|s| - 1]);
      assert s == s[..|s| - 1] + [s[|s| - 1]];
    }
  }

  lemma {:induction false} UpToStopGrows(cfg: Stops, s: seq<Token>, t: Token)
    ensures UpToStop(cfg, s + [t]) ==
            if HasStop(cfg, s) then UpToStop(cfg, s) else if Stop(cfg, t) then s else s + [t]
    decreases |s|
  {
    if s == [] {
      assert s + [t] == [t];
    } else {
      assert (s + [t])[1..] == s[1..] + [t];
      UpToStopGrows(cfg, s[1..], t);
      if !Stop(cfg, s[0]) {
        assert HasStop(cfg, s) <==> HasStop(cfg, s[1..]) by {
          if HasStop(cfg, s) {
            var i :| 0 <= i < |s| && Stop(cfg, s[i]);
            assert s[1..][i - 1] == s[i];
          }
        }
      } else {
        assert Stop(cfg, s[0]);
      }
    }
  }

  lemma HasStopGrows(cfg: Stops, s: seq<Token>, t: Token)
    ensures HasStop(cfg, s + [t]) <==> HasStop(cfg, s) || Stop(cfg, t)
  {
    if i :| 0 <= i < |s| && Stop(cfg, s[i]) {
      assert (s + [t])[i] == s[i];
    }
    assert (s + [t])[|s|] == t;
  }

  /** `p` is `g` up to the first stop, and cleaning `p` leaves exactly that. */
  ghost predicate Follows(cfg: Stops, p: seq<Token>, g: seq<Token>) {
    && Cleaned(cfg, p) == UpToStop(cfg, g)
    && (HasStop(cfg, p) <==> HasStop(cfg, g))
    && (!HasStop(cfg, p) ==> p == g)
  }

  lemma FollowsGrows(cfg: Stops, p: seq<Token>, g: seq<Token>, x: Token, y: Token)
    requires Follows(cfg, p, g)
    requires x == if HasStop(cfg, p) then cfg.pad else y
    ensures Follows(cfg, p + [x], g + [y])
  {
    assert (p + [x])[..|p|] == p;
    HasStopGrows(cfg, p, x);
    HasStopGrows(cfg, g, y);
    UpToStopGrows(cfg, g, y);
    if !HasStop(cfg, p) {
      CleanedWithoutStops(cfg, p);
    }
  }

  /** Up to its first EOS or padding a batch row is the reference; afterwards cleaning removes everything. */
  lemma {:induction false} PaddedRowIsGreedyToTheStop(next: seq<Token> -> Token, cfg: Stops, bos: Token, n: nat)
    ensures Follows(cfg, Padded(next, cfg, bos, n)[1..], Greedy(next, bos, n)[1..])
    ensures !HasStop(cfg, Padded(next, cfg, bos, n)[1..]) ==> Padded(next, cfg, bos, n) == Greedy(next, bos, n)
    decreases n
  {
    if n > 0 {
      PaddedRowIsGreedyToTheStop(next, cfg, bos, n - 1);
      var p, g := Padded(next, cfg, bos, n - 1), Greedy(next, bos, n - 1);
      var x, y := Padded(next, cfg, bos, n)[n], next(g);
      assert Padded(next, cfg, bos, n)[1..] == p[1..] + [x];
      assert Greedy(next, bos, n)[1..] == g[1..] + [y];
      FollowsGrows(cfg, p[1..], g[1..], x, y);
      HasStopGrows(cfg, p[1..], x);
    }
  }

  lemma PaddedStep(next: seq<Token> -> Token, cfg: Stops, bos: Token, n: nat)
    ensures var p := Padded(next, cfg, bos, n);
      var t := if HasStop(cfg, p[1..]) then cfg.pad else next(p);
      && Padded(next, cfg, bos, n + 1) == p + [t]
      && (HasStop(cfg, Padded(next, cfg, bos, n + 1)[1..]) <==> HasStop(cfg, p[1..]) || Stop(cfg, t))
  {
    var p := Padded(next, cfg, bos, n);
    var t := if HasStop(cfg, p[1..]) then cfg.pad else next(p);
    assert (p + [t])[1..] == p[1..] + [t];
    HasStopGrows(cfg, p[1..], t);
  }

  lemma {:induction false} PaddedPrefix(next: seq<Token> -> Token, cfg: Stops, bos: Token, k: nat, n: nat)
    requires k <= n
    ensures Padded(next, cfg, bos, n)[..k + 1] == Padded(next, cfg, bos, k)
    ensures HasStop(cfg, Padded(next, cfg, bos, k)[1..]) ==>
              && HasStop(cfg, Padded(next, cfg, bos, n)[1..])
              && forall j | k < j <= n :: Padded(next, cfg, bos, n)[j] == cfg.pad
    decreases n
  {
    if k < n {
      PaddedPrefix(next, cfg, bos, k, n - 1);
      PaddedStep(next, cfg, bos, n - 1);
    }
  }
}
