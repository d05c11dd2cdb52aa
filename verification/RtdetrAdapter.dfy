/**
 `adapt_rtdetr_detections` of server/pipeline/detection.py: raw model output becomes a
 page of semantic detections, the same page for every order of the raw boxes.
 */
module RtdetrAdapter {
  import opened Basics
  import opened NumberForm
  import opened NumberRender
  import opened Sorting
  import opened Detection
  import opened VisualRows
  import opened PageDetections

  /** One box of the model; `None` is a box that is missing or not four integers. */
  datatype Raw = Raw(rawLabel: string, score: real, bbox: Option<Rect>)

  datatype Thresholds = Thresholds(text: real, sfx: real, balloon: real, panel: real, duplicate: real)

  datatype Candidate = Candidate(kind: Kind, box: Box, confidence: real, rawLabel: string)

  /** Sixteen hexadecimal digits of a hash of kind, box and label. */
  type Digest = (Kind, Rect, string) -> string

  ghost predicate IsDigest(digest: Digest) {
    forall k, b, l :: |digest(k, b, l)| == 16
  }

  function KindOf(rawLabel: string): Option<Kind> {
    if rawLabel == "bubble" then Some(Balloon)
    else if rawLabel == "text_bubble" then Some(Text)
    else if rawLabel == "text_free" then Some(Sfx)
    else if rawLabel == "panel" || rawLabel == "frame" then Some(Panel)
    else None
  }

  function ThresholdFor(th: Thresholds, kind: Kind): real {
    match kind case Text => th.text case Sfx => th.sfx case Balloon => th.balloon case Panel => th.panel
  }

  predicate Survives(th: Thresholds, raw: Raw) {
    KindOf(raw.rawLabel).Some? && raw.score >= ThresholdFor(th, KindOf(raw.rawLabel).value)
  }

  predicate Boxed(raw: Raw) {
    raw.bbox.Some? && raw.bbox.value.Valid()
  }

  /** The surviving boxes, in the order given. */
  function Candidates(th: Thresholds, raws: seq<Raw>): seq<Candidate> {
    if raws == [] then []
    else
      var rest := Candidates(th, raws[1..]);
      var raw := raws[0];
      if Survives(th, raw) && Boxed(raw) then
        [Candidate(KindOf(raw.rawLabel).value, raw.bbox.value, raw.score, raw.rawLabel)] + rest
      else rest
  }

  function CandidateKey(c: Candidate): Key {
    [T(KindName(c.kind)), N(c.box.x1 as real), N(c.box.y1 as real), N(c.box.x2 as real), N(c.box.y2 as real),
     T(c.rawLabel), N(-c.confidence)]
  }

  function Base(digest: Digest, kind: Kind, box: Rect, rawLabel: string): string {
    "d_" + digest(kind, box, rawLabel)
  }

  function IdOf(base: string, occurrence: nat): string {
    if occurrence == 1 then base else base + ("-" + Itoa(occurrence))
  }

  function Count(seen: map<string, nat>, base: string): nat {
    if base in seen then seen[base] else 0
  }

  /** Ids in sorted order; equal bases are told apart by their occurrence. */
  function Named(digest: Digest, cs: seq<Candidate>, seen: map<string, nat>): (r: seq<Det>)
    ensures |r| == |cs|
    decreases |cs|
  {
    if cs == [] then []
    else
      var c := cs[0];
      var base := Base(digest, c.kind, c.box, c.rawLabel);
      var n := Count(seen, base) + 1;
      [Det(IdOf(base, n), c.kind, c.box, c.confidence, c.rawLabel)] + Named(digest, cs[1..], seen[base := n])
  }

  /** Some surviving box is malformed, or some confidence is out of range: the code raises. */
  predicate Raises(th: Thresholds, raws: seq<Raw>) {
    || (exists raw | raw in raws :: Survives(th, raw) && !Boxed(raw))
    || (exists c | c in Candidates(th, raws) :: !(0.0 <= c.confidence <= 1.0))
  }

  ghost function Adapted(th: Thresholds, digest: Digest, direction: Direction, raws: seq<Raw>): Option<seq<Placed>> {
    if Raises(th, raws) then None
    else Some(Finalized(th.duplicate, direction, Elems(Named(digest, Sort(CandidateKey, Candidates(th, raws)), map[]))))
  }

  // ----- ids ----------------------------------------------------------------------------------

  lemma IdsDiffer(b: string, n: nat, c: string, m: nat)
    requires |b| == |c| && n >= 1 && m >= 1 && IdOf(b, n) == IdOf(c, m)
    ensures b == c && n == m
  {
    assert IdOf(b, n)[..|b|] == b && IdOf(c, m)[..|c|] == c;
    assert IdOf(b, n)[|b|..] == if n == 1 then "" else "-" + Itoa(n);
    assert IdOf(c, m)[|c|..] == if m == 1 then "" else "-" + Itoa(m);
    if n != 1 && m != 1 {
      assert ("-" + Itoa(n))[1..] == Itoa(n) && ("-" + Itoa(m))[1..] == Itoa(m);
      assert Nat(Itoa(n)) == n && Nat(Itoa(m)) == m;
    }
  }

  function BaseOf(digest: Digest, d: Det): string {
    Base(digest, d.kind, d.box, d.rawLabel)
  }

  /** The detection's id is its own base with an occurrence not yet used. */
  ghost predicate NamedAfter(digest: Digest, seen: map<string, nat>, d: Det) {
    exists n: nat :: n > Count(seen, BaseOf(digest, d)) && d.id == IdOf(BaseOf(digest, d), n)
  }

  lemma {:induction false} NamesDiffer(digest: Digest, cs: seq<Candidate>, seen: map<string, nat>)
    requires IsDigest(digest)
    ensures DistinctDets(Named(digest, cs, seen))
    ensures forall i | 0 <= i < |cs| :: NamedAfter(digest, seen, Named(digest, cs, seen)[i])
    decreases |cs|
  {
    if cs != [] {
      var r := Named(digest, cs, seen);
      var base := BaseOf(digest, r[0]);
      var n := Count(seen, base) + 1;
      NamesDiffer(digest, cs[1..], seen[base := n]);
      assert r[1..] == Named(digest, cs[1..], seen[base := n]);
      assert r[0].id == IdOf(base, n);
      hide Named, IdOf;
      forall i | 0 < i < |r| ensures r[i].id != r[0].id && NamedAfter(digest, seen, r[i]) {
        assert r[i] == r[1..][i - 1];
        LaterDiffers(digest, seen, base, n, r[i]);
      }
      forall i, j | 0 <= i < j < |r| ensures r[i].id != r[j].id {
        if i > 0 {
          assert r[i] == r[1..][i - 1] && r[j] == r[1..][j - 1];
        }
      }
    }
  }

  lemma LaterDiffers(digest: Digest, seen: map<string, nat>, base: string, n: nat, d: Det)
    requires IsDigest(digest) && |base| == 18 && n == Count(seen, base) + 1 && NamedAfter(digest, seen[base := n], d)
    ensures d.id != IdOf(base, n) && NamedAfter(digest, seen, d)
  {
    var b := BaseOf(digest, d);
    var m: nat :| m > Count(seen[base := n], b) && d.id == IdOf(b, m);
    if IdOf(b, m) == IdOf(base, n) {
      IdsDiffer(b, m, base, n);
    }
  }

  // ----- the method -----------------------------------------------------------------------------

  method Collect(raws: seq<Raw>, th: Thresholds) returns (r: Option<seq<Candidate>>)
    ensures r.None? <==> exists raw | raw in raws :: Survives(th, raw) && !Boxed(raw)
    ensures r.Some? ==> r.value == Candidates(th, raws)
  {
    var candidates: seq<Candidate> := [];
    assert raws[0..] == raws;
    for i := 0 to |raws|
      invariant forall k | 0 <= k < i :: !(Survives(th, raws[k]) && !Boxed(raws[k]))
      invariant candidates + Candidates(th, raws[i..]) == Candidates(th, raws)
    {
      assert raws[i..][1..] == raws[i + 1..];
      var raw := raws[i];
      if Survives(th, raw) {
        if !Boxed(raw) {
          return None;
        }
        candidates := candidates + [Candidate(KindOf(raw.rawLabel).value, raw.bbox.value, raw.score, raw.rawLabel)];
      }
    }
    return Some(candidates);
  }

  /** Ids are given, and confidences checked, one candidate after another. */
  method NameAll(cs: seq<Candidate>, digest: Digest) returns (r: Option<seq<Placed>>)
    ensures r.None? <==> exists c | c in cs :: !(0.0 <= c.confidence <= 1.0)
    ensures r.Some? ==> Unlinked(r.value) == Named(digest, cs, map[])
  {
    var page: seq<Placed> := [];
    var collisions: map<string, nat> := map[];
    assert cs[0..] == cs && Unlinked(page) == [];
    hide *;
    for i := 0 to |cs|
      invariant forall k | 0 <= k < i :: 0.0 <= cs[k].confidence <= 1.0
      invariant Unlinked(page) + Named(digest, cs[i..], collisions) == Named(digest, cs, map[])
    {
      var c := cs[i];
      var base := Base(digest, c.kind, c.box, c.rawLabel);
      var occurrence := Count(collisions, base) + 1;
      var det := Det(IdOf(base, occurrence), c.kind, c.box, c.confidence, c.rawLabel);
      if !(0.0 <= c.confidence <= 1.0) {
        return None;
      }
      NameOne(digest, cs, i, collisions, page);
      collisions := collisions[base := occurrence];
      page := page + [Placed(Item(det, None), 0)];
    }
    NamedEnd(digest, cs, collisions);
    return Some(page);
  }

  lemma NamedStep(digest: Digest, cs: seq<Candidate>, i: nat, seen: map<string, nat>)
    requires i < |cs|
    ensures var c := cs[i];
      var base := Base(digest, c.kind, c.box, c.rawLabel);
      var n := Count(seen, base) + 1;
      Named(digest, cs[i..], seen)
      == [Det(IdOf(base, n), c.kind, c.box, c.confidence, c.rawLabel)] + Named(digest, cs[i + 1..], seen[base := n])
  {
    assert cs[i..][1..] == cs[i + 1..];
  }

  lemma NamedEnd(digest: Digest, cs: seq<Candidate>, seen: map<string, nat>)
    ensures Named(digest, cs[|cs|..], seen) == []
  {
  }

  /** One candidate from the front becomes the last detection of the page. */
  lemma NameOne(digest: Digest, cs: seq<Candidate>, i: nat, seen: map<string, nat>, page: seq<Placed>)
    requires i < |cs|
    ensures var c := cs[i];
      var base := Base(digest, c.kind, c.box, c.rawLabel);
      var n := Count(seen, base) + 1;
      var det := Det(IdOf(base, n), c.kind, c.box, c.confidence, c.rawLabel);
      Unlinked(page + [Placed(Item(det, None), 0)]) + Named(digest, cs[i + 1..], seen[base := n])
      == Unlinked(page) + Named(digest, cs[i..], seen)
  {
    hide Base, IdOf, Count, Named, Unlinked;
    NamedStep(digest, cs, i, seen);
    var c := cs[i];
    var base := Base(digest, c.kind, c.box, c.rawLabel);
    UnlinkedStep(page, Det(IdOf(base, Count(seen, base) + 1), c.kind, c.box, c.confidence, c.rawLabel));
  }

  lemma UnlinkedStep(page: seq<Placed>, det: Det)
    ensures Unlinked(page + [Placed(Item(det, None), 0)]) == Unlinked(page) + [det]
  {
  }

  /** `adapt_rtdetr_detections`. */
  method AdaptRtdetrDetections(raws: seq<Raw>, digest: Digest, th: Thresholds, direction: Direction)
    returns (r: Option<seq<Placed>>)
    requires IsDigest(digest)
    ensures r == Adapted(th, digest, direction, raws)
  {
    hide Finalized, Survives, Boxed, Candidates, Sort, Named;
    var collected := Collect(raws, th);
    if collected.None? {
      return None;
    }
    var candidates := Sort(CandidateKey, collected.value);
    MultisetMembers(candidates, collected.value);
    var page := NameAll(candidates, digest);
    if page.None? {
      return None;
    }
    NamesDiffer(digest, candidates, map[]);
    var finished := FinalizeDetections(page.value, th.duplicate, direction);
    return Some(finished);
  }

  // ----- the order of the raw boxes does not matter -----------------------------------------------

  lemma {:induction false} CandidatesOfConcat(th: Thresholds, a: seq<Raw>, b: seq<Raw>)
    ensures Candidates(th, a + b) == Candidates(th, a) + Candidates(th, b)
    decreases |a|
  {
    hide Survives, Boxed;
    if a == [] {
      assert a + b == b;
    } else {
      assert (a + b)[1..] == a[1..] + b;
      CandidatesOfConcat(th, a[1..], b);
    }
  }

  lemma {:induction false} CandidatesForgetOrder(th: Thresholds, a: seq<Raw>, b: seq<Raw>)
    requires multiset(a) == multiset(b)
    ensures multiset(Candidates(th, a)) == multiset(Candidates(th, b))
    decreases |a|
  {
    hide Candidates;
    assert |a| == |multiset(a)| == |multiset(b)| == |b|;
    if a == [] {
      assert b == [];
    } else {
      assert a[0] in multiset(b);
      var i :| 0 <= i < |b| && b[i] == a[0];
      TakeOut(a, b, i);
      CandidatesForgetOrder(th, a[1..], b[..i] + b[i + 1..]);
      CandidatesOfConcat(th, [a[0]], a[1..]);
      CandidatesOfConcat(th, b[..i], b[i + 1..]);
      CandidatesOfConcat(th, b[..i] + [b[i]], b[i + 1..]);
      CandidatesOfConcat(th, b[..i], [b[i]]);
    }
  }

  lemma TakeOut(a: seq<Raw>, b: seq<Raw>, i: nat)
    requires multiset(a) == multiset(b) && a != [] && i < |b| && b[i] == a[0]
    ensures a == [a[0]] + a[1..] && b == (b[..i] + [b[i]]) + b[i + 1..]
    ensures multiset(a[1..]) == multiset(b[..i] + b[i + 1..])
  {
    assert a == [a[0]] + a[1..] && b == (b[..i] + [b[i]]) + b[i + 1..];
    assert multiset(a) == multiset{a[0]} + multiset(a[1..]);
    assert multiset(b) == multiset(b[..i]) + multiset{b[i]} + multiset(b[i + 1..]);
    assert multiset(a[1..]) == multiset(a) - multiset{a[0]};
    assert multiset(b[..i] + b[i + 1..]) == multiset(b[..i]) + multiset(b[i + 1..]) == multiset(b) - multiset{b[i]};
  }

  lemma CandidateKeysDiffer(c: Candidate, d: Candidate)
    requires CandidateKey(c) == CandidateKey(d)
    ensures c == d
  {
    var x, y := CandidateKey(c), CandidateKey(d);
    assert x[0] == y[0] && x[1] == y[1] && x[2] == y[2] && x[3] == y[3] && x[4] == y[4] && x[5] == y[5] && x[6] == y[6];
  }

  /** The same boxes in another order make the same page, or fail alike. */
  lemma AdaptedForgetsOrder(th: Thresholds, digest: Digest, direction: Direction, a: seq<Raw>, b: seq<Raw>)
    requires multiset(a) == multiset(b)
    ensures Adapted(th, digest, direction, a) == Adapted(th, digest, direction, b)
  {
    hide Candidates, Survives, Boxed, CandidateKey, Sort, Finalized, Named;
    CandidatesForgetOrder(th, a, b);
    var cs, ds := Candidates(th, a), Candidates(th, b);
    forall c, d | c in cs && d in cs && CandidateKey(c) == CandidateKey(d) ensures c == d {
      CandidateKeysDiffer(c, d);
    }
    SortForgetsOrder(CandidateKey, cs, ds);
    MultisetMembers(a, b);
    MultisetMembers(cs, ds);
  }

  /** Whatever the model lists, the page it becomes passes validation. */
  lemma AdaptedIsAccepted(th: Thresholds, digest: Digest, direction: Direction, raws: seq<Raw>)
    requires IsDigest(digest) && Adapted(th, digest, direction, raws).Some?
    ensures Accepted(Adapted(th, digest, direction, raws).value)
  {
    var cs := Sort(CandidateKey, Candidates(th, raws));
    NamesDiffer(digest, cs, map[]);
    DistinctDetsAre(Named(digest, cs, map[]));
    FinalizedIsAccepted(th.duplicate, direction, Elems(Named(digest, cs, map[])));
  }

  // ----- what the page shows ---------------------------------------------------------------------

  /** The detection is this raw box: its box, score and label, the kind of that label, and enough of a score for it. */
  predicate Depicts(th: Thresholds, raw: Raw, d: Det) {
    && raw.bbox == Some(d.box) && raw.score == d.confidence && raw.rawLabel == d.rawLabel
    && KindOf(raw.rawLabel) == Some(d.kind) && d.confidence >= ThresholdFor(th, d.kind)
  }

  predicate IsDepicted(th: Thresholds, raws: seq<Raw>, d: Det) {
    exists raw | raw in raws :: Depicts(th, raw, d)
  }

  lemma {:induction false} CandidatesAre(th: Thresholds, raws: seq<Raw>)
    ensures forall c :: c in Candidates(th, raws) <==>
              exists raw | raw in raws ::
                Survives(th, raw) && Boxed(raw)
                && c == Candidate(KindOf(raw.rawLabel).value, raw.bbox.value, raw.score, raw.rawLabel)
    decreases |raws|
  {
    hide KindOf, ThresholdFor;
    if raws != [] {
      CandidatesAre(th, raws[1..]);
      assert raws == [raws[0]] + raws[1..];
    }
  }

  lemma {:induction false} NamedAre(digest: Digest, cs: seq<Candidate>, seen: map<string, nat>)
    ensures forall i | 0 <= i < |cs| ::
      var d := Named(digest, cs, seen)[i];
      d.kind == cs[i].kind && d.box == cs[i].box && d.confidence == cs[i].confidence && d.rawLabel == cs[i].rawLabel
    decreases |cs|
  {
    if cs != [] {
      var base := Base(digest, cs[0].kind, cs[0].box, cs[0].rawLabel);
      NamedAre(digest, cs[1..], seen[base := Count(seen, base) + 1]);
    }
  }

  lemma NamedFromRaws(th: Thresholds, digest: Digest, raws: seq<Raw>)
    ensures var dets := Named(digest, Sort(CandidateKey, Candidates(th, raws)), map[]);
      && (forall d | d in dets :: IsDepicted(th, raws, d))
      && forall raw | raw in raws && Survives(th, raw) && Boxed(raw) :: exists d | d in dets :: Depicts(th, raw, d)
  {
    var cs := Sort(CandidateKey, Candidates(th, raws));
    MultisetMembers(cs, Candidates(th, raws));
    CandidatesAre(th, raws);
    NamedAre(digest, cs, map[]);
    hide Sort, Candidates, Named, CandidateKey;
    var dets := Named(digest, cs, map[]);
    forall d | d in dets ensures IsDepicted(th, raws, d) {
      var i :| 0 <= i < |dets| && dets[i] == d;
      assert cs[i] in cs;
    }
    forall raw | raw in raws && Survives(th, raw) && Boxed(raw) ensures exists d | d in dets :: Depicts(th, raw, d) {
      var c := Candidate(KindOf(raw.rawLabel).value, raw.bbox.value, raw.score, raw.rawLabel);
      assert c in cs;
      var i :| 0 <= i < |cs| && cs[i] == c;
      assert Depicts(th, raw, dets[i]);
    }
  }

  ghost predicate Shown(d: Det, page: seq<Placed>) {
    exists i :: 0 <= i < |page| && page[i].item.det == d
  }

  /**
   Every detection of the page is one of the raw boxes that reach their threshold; and each
   such box is on the page, or one at least as confident that overlaps it too far is.
   */
  lemma PageShowsTheBoxes(th: Thresholds, digest: Digest, direction: Direction, raws: seq<Raw>)
    requires IsDigest(digest) && Adapted(th, digest, direction, raws).Some?
    ensures var page := Adapted(th, digest, direction, raws).value;
      && (forall i | 0 <= i < |page| :: IsDepicted(th, raws, page[i].item.det))
      && forall raw | raw in raws && Survives(th, raw) && Boxed(raw) ::
           exists d, e :: Depicts(th, raw, d) && Shown(e, page)
                          && (e == d || (Conflict(th.duplicate, d, e) && e.confidence >= raw.score))
  {
    hide *;
    var dets, kept := PageOf(th, digest, direction, raws);
    var page := Adapted(th, digest, direction, raws).value;
    forall i | 0 <= i < |page| ensures IsDepicted(th, raws, page[i].item.det) {
      assert page[i].item.det in dets;
    }
    forall raw | raw in raws && Survives(th, raw) && Boxed(raw)
      ensures exists d, e :: Depicts(th, raw, d) && Shown(e, page)
                             && (e == d || (Conflict(th.duplicate, d, e) && e.confidence >= raw.score))
    {
      var d :| d in dets && Depicts(th, raw, d);
      DepictsScore(th, raw, d);
      if d in kept {
        assert Shown(d, page);
      } else {
        var e :| e in kept && Conflict(th.duplicate, d, e) && e.confidence >= d.confidence;
        assert Shown(e, page);
      }
    }
  }

  /** The named detections, and those of them that are kept, which are the ones shown. */
  lemma PageOf(th: Thresholds, digest: Digest, direction: Direction, raws: seq<Raw>)
    returns (dets: seq<Det>, kept: set<Det>)
    requires IsDigest(digest) && Adapted(th, digest, direction, raws).Some?
    ensures (forall d | d in dets :: IsDepicted(th, raws, d))
         && forall raw | raw in raws && Survives(th, raw) && Boxed(raw) :: exists d | d in dets :: Depicts(th, raw, d)
    ensures forall d | d in kept :: d in dets
    ensures forall d | d in dets && d !in kept ::
              exists e :: e in kept && Conflict(th.duplicate, d, e) && e.confidence >= d.confidence
    ensures var page := Adapted(th, digest, direction, raws).value;
      (forall d :: Shown(d, page) <==> d in kept) && forall i | 0 <= i < |page| :: page[i].item.det in kept
  {
    hide Finalized, Kept, Named, Sort, Candidates, Survives, Boxed, Depicts, Conflict, Unlinked, ParentId, Raises;
    dets := Named(digest, Sort(CandidateKey, Candidates(th, raws)), map[]);
    kept := Elems(Kept(th.duplicate, Elems(dets)));
    NamedFromRaws(th, digest, raws);
    NamesDiffer(digest, Sort(CandidateKey, Candidates(th, raws)), map[]);
    DistinctDetsAre(dets);
    FinalizedHolds(th.duplicate, direction, Elems(dets));
    KeptAndDropped(th.duplicate, Elems(dets));
    ShownAreKept(Adapted(th, digest, direction, raws).value, kept);
    assert forall d :: d in dets <==> d in Elems(dets);
  }

  lemma DepictsScore(th: Thresholds, raw: Raw, d: Det)
    requires Depicts(th, raw, d)
    ensures d.confidence == raw.score
  {
  }

  lemma ShownAreKept(page: seq<Placed>, kept: set<Det>)
    requires Elems(Unlinked(page)) == kept
    ensures forall d :: Shown(d, page) <==> d in kept
    ensures forall i | 0 <= i < |page| :: page[i].item.det in kept
  {
    var dets := Unlinked(page);
    forall i | 0 <= i < |page| ensures dets[i] == page[i].item.det && page[i].item.det in kept {
      assert dets[i] in Elems(dets);
    }
    forall d ensures Shown(d, page) <==> d in kept {
      if d in kept {
        var i :| 0 <= i < |dets| && dets[i] == d;
        assert page[i].item.det == d;
      }
    }
  }
}
