/**
 The artifact digests a metadata document refers to: _referenced_object_hashes in
 server/worker/page_cache.py and referencedArtifactHashes in server/cache.go.
 */
module ArtifactRefs {
  import opened Basics
  import opened JsonString
  import opened JsonTree
  import opened CanonicalJson

  predicate IsSha(s: string) {
    |s| == 64 && forall i | 0 <= i < 64 :: '0' <= s[i] <= '9' || 'a' <= s[i] <= 'f'
  }

  const OBJECTS := "objects/"

  /** A dictionary's value for a key. */
  function Get(members: seq<Field<Json>>, key: string): Option<Json> {
    if members == [] then None
    else if members[0].key == key then Some(members[0].value)
    else Get(members[1..], key)
  }

  /** The object itself names an artifact. */
  predicate Refers(members: seq<Field<Json>>) {
    var r := Get(members, "reference");
    r.Some? && r.value.Str? && StartsWith(r.value.s, OBJECTS)
  }

  /** Its digest is the one its reference spells. */
  predicate RefersWell(members: seq<Field<Json>>) {
    var d := Get(members, "sha256");
    && d.Some? && d.value.Str? && IsSha(d.value.s)
    && Get(members, "reference") == Some(Str(OBJECTS + d.value.s))
  }

  function Own(members: seq<Field<Json>>): set<string> {
    if Refers(members) && RefersWell(members) then {Get(members, "sha256").value.s} else {}
  }

  /** No reference is malformed; the code raises on one. */
  predicate RefsValid(v: Json)
    decreases v
  {
    match v
    case Arr(items) => forall i | 0 <= i < |items| :: RefsValid(items[i])
    case Obj(members) =>
      && (Refers(members) ==> RefersWell(members))
      && forall i | 0 <= i < |members| :: RefsValid(members[i].value)
    case _ => true
  }

  function Refs(v: Json): set<string>
    decreases v
  {
    match v
    case Arr(items) => set i, d | 0 <= i < |items| && d in Refs(items[i]) :: d
    case Obj(members) => Own(members) + set i, d | 0 <= i < |members| && d in Refs(members[i].value) :: d
    case _ => {}
  }

  // ----- what is collected -----------------------------------------------------------------

  /** The node a path of positions leads to. */
  function NodeAt(v: Json, path: seq<nat>): Option<Json>
    decreases |path|
  {
    if path == [] then Some(v)
    else if v.Arr? && path[0] < |v.items| then NodeAt(v.items[path[0]], path[1..])
    else if v.Obj? && path[0] < |v.members| then NodeAt(v.members[path[0]].value, path[1..])
    else None
  }

  predicate Names(v: Json, digest: string) {
    v.Obj? && digest in Own(v.members)
  }

  /** Exactly the digests named by some object, at any depth. */
  lemma {:induction false} RefsAreNamed(v: Json, digest: string)
    ensures digest in Refs(v) <==> exists path :: NodeAt(v, path).Some? && Names(NodeAt(v, path).value, digest)
    decreases v
  {
    if digest in Refs(v) {
      NamedSomewhere(v, digest);
    }
    if path :| NodeAt(v, path).Some? && Names(NodeAt(v, path).value, digest) {
      NamedIsCollected(v, path, digest);
    }
  }

  lemma {:induction false} NamedSomewhere(v: Json, digest: string)
    requires digest in Refs(v)
    ensures exists path :: NodeAt(v, path).Some? && Names(NodeAt(v, path).value, digest)
    decreases v
  {
    if Names(v, digest) {
      assert NodeAt(v, []) == Some(v);
    } else if v.Arr? {
      var i :| 0 <= i < |v.items| && digest in Refs(v.items[i]);
      NamedSomewhere(v.items[i], digest);
      var path :| NodeAt(v.items[i], path).Some? && Names(NodeAt(v.items[i], path).value, digest);
      assert ([i] + path)[1..] == path;
      assert NodeAt(v, [i] + path) == NodeAt(v.items[i], path);
    } else {
      var i :| 0 <= i < |v.members| && digest in Refs(v.members[i].value);
      NamedSomewhere(v.members[i].value, digest);
      var path :| NodeAt(v.members[i].value, path).Some? && Names(NodeAt(v.members[i].value, path).value, digest);
      assert ([i] + path)[1..] == path;
      assert NodeAt(v, [i] + path) == NodeAt(v.members[i].value, path);
    }
  }

  lemma {:induction false} NamedIsCollected(v: Json, path: seq<nat>, digest: string)
    requires NodeAt(v, path).Some? && Names(NodeAt(v, path).value, digest)
    ensures digest in Refs(v)
    decreases |path|
  {
    if path != [] {
      if v.Arr? {
        NamedIsCollected(v.items[path[0]], path[1..], digest);
      } else {
        NamedIsCollected(v.members[path[0]].value, path[1..], digest);
      }
    }
  }

  // ----- and survives serialization -----------------------------------------------------------

  lemma {:induction false} GetIs(members: seq<Field<Json>>, key: string)
    requires Distinct(members)
    ensures forall v :: Get(members, key) == Some(v) <==> Field(key, v) in members
  {
    if members != [] {
      GetIs(members[1..], key);
      assert members == [members[0]] + members[1..];
    }
  }

  /** Sorting does not change what a key maps to. */
  lemma GetSorted(members: seq<Field<Json>>, key: string)
    requires Distinct(members)
    ensures Get(Sorted(members), key) == Get(members, key)
  {
    SortedAscends(members);
    hide Sorted, Get;
    GetIs(members, key);
    GetIs(Sorted(members), key);
    var a, b := Get(members, key), Get(Sorted(members), key);
    if a.Some? {
      assert Field(key, a.value) in Sorted(members);
    }
    if b.Some? {
      assert Field(key, b.value) in members;
    }
  }

  lemma {:induction false} GetCanon(members: seq<Field<Json>>, key: string)
    ensures Get(CanonMembers(members), key)
         == if Get(members, key).None? then None else Some(Canon(Get(members, key).value))
    decreases |members|
  {
    hide Canon;
    if members != [] {
      GetCanon(members[1..], key);
    }
  }

  lemma CanonKeepsStrings(v: Json)
    ensures Canon(v).Str? == v.Str? && (v.Str? ==> Canon(v) == v)
  {
  }

  lemma OwnOfCanon(members: seq<Field<Json>>)
    requires Distinct(members)
    ensures var cs := Sorted(CanonMembers(members));
      && (Refers(cs) <==> Refers(members)) && (RefersWell(cs) <==> RefersWell(members)) && Own(cs) == Own(members)
  {
    hide Canon, Sorted, Get, CanonMembers, StartsWith, IsSha;
    var cs := Sorted(CanonMembers(members));
    forall key ensures Get(cs, key) == if Get(members, key).None? then None else Some(Canon(Get(members, key).value)) {
      GetCanon(members, key);
      GetSorted(CanonMembers(members), key);
    }
    var r, d := Get(members, "reference"), Get(members, "sha256");
    if r.Some? {
      CanonKeepsStrings(r.value);
    }
    if d.Some? {
      CanonKeepsStrings(d.value);
    }
  }

  /** Reading a stored document back finds the references of the document that was stored. */
  lemma {:induction false} CanonKeepsRefs(v: Json)
    requires WellFormed(v)
    ensures Refs(Canon(v)) == Refs(v) && (RefsValid(Canon(v)) <==> RefsValid(v))
    decreases v
  {
    if v.Arr? {
      forall i | 0 <= i < |v.items|
        ensures Refs(Canon(v.items[i])) == Refs(v.items[i]) && (RefsValid(Canon(v.items[i])) <==> RefsValid(v.items[i]))
      {
        CanonKeepsRefs(v.items[i]);
      }
    } else if v.Obj? {
      var fs := CanonMembers(v.members);
      forall i | 0 <= i < |v.members|
        ensures Refs(fs[i].value) == Refs(v.members[i].value)
        ensures RefsValid(fs[i].value) <==> RefsValid(v.members[i].value)
      {
        CanonKeepsRefs(v.members[i].value);
      }
      OwnOfCanon(v.members);
      MembersKeepRefs(v.members, fs);
    }
  }

  lemma {:induction false} MembersKeepRefs(members: seq<Field<Json>>, fs: seq<Field<Json>>)
    requires |fs| == |members|
    requires forall i | 0 <= i < |fs| ::
      Refs(fs[i].value) == Refs(members[i].value) && (RefsValid(fs[i].value) <==> RefsValid(members[i].value))
    requires Refers(Sorted(fs)) <==> Refers(members)
    requires RefersWell(Sorted(fs)) <==> RefersWell(members)
    requires Own(Sorted(fs)) == Own(members)
    ensures Refs(Obj(Sorted(fs))) == Refs(Obj(members))
    ensures RefsValid(Obj(Sorted(fs))) <==> RefsValid(Obj(members))
  {
    hide *;
    forall d ensures d in Refs(Obj(Sorted(fs))) <==> d in Refs(Obj(members)) {
      SortedRefs(members, fs, d);
    }
    SortedRefsValid(members, fs);
  }

  lemma SortedRefsValid(members: seq<Field<Json>>, fs: seq<Field<Json>>)
    requires |fs| == |members| && forall i | 0 <= i < |fs| :: RefsValid(fs[i].value) <==> RefsValid(members[i].value)
    requires Refers(Sorted(fs)) <==> Refers(members)
    requires RefersWell(Sorted(fs)) <==> RefersWell(members)
    ensures RefsValid(Obj(Sorted(fs))) <==> RefsValid(Obj(members))
  {
    hide Sorted, Refers, RefersWell;
    var cs := Sorted(fs);
    if RefsValid(Obj(cs)) {
      forall j | 0 <= j < |members| ensures RefsValid(members[j].value) {
        assert fs[j] in fs;
        assert fs[j] in cs;
        var i :| 0 <= i < |cs| && cs[i] == fs[j];
        assert RefsValid(cs[i].value);
      }
    }
    if RefsValid(Obj(members)) {
      forall i | 0 <= i < |cs| ensures RefsValid(cs[i].value) {
        assert cs[i] in cs;
        assert cs[i] in fs;
        var j :| 0 <= j < |fs| && fs[j] == cs[i];
        assert RefsValid(members[j].value);
      }
    }
  }

  lemma {:induction false} SortedRefs(members: seq<Field<Json>>, fs: seq<Field<Json>>, d: string)
    requires |fs| == |members| && forall i | 0 <= i < |fs| :: Refs(fs[i].value) == Refs(members[i].value)
    requires Own(Sorted(fs)) == Own(members)
    ensures d in Refs(Obj(Sorted(fs))) <==> d in Refs(Obj(members))
  {
    hide Own, Sorted;
    var cs := Sorted(fs);
    if i :| 0 <= i < |cs| && d in Refs(cs[i].value) {
      assert cs[i] in cs;
      assert cs[i] in fs;
      var j :| 0 <= j < |fs| && fs[j] == cs[i];
      assert d in Refs(members[j].value);
    }
    if j :| 0 <= j < |members| && d in Refs(members[j].value) {
      assert fs[j] in fs;
      assert fs[j] in cs;
      var i :| 0 <= i < |cs| && cs[i] == fs[j];
      assert d in Refs(cs[i].value);
    }
  }
}
