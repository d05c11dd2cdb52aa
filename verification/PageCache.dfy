/**
 The page cache over the shared disk: store_page, update_metadata_by_hash and
 load_output_image_by_hash of server/worker/page_cache.py, and
 UpdateMetadataBySourceHash of server/cache.go, one file operation at a time.
 */
module PageCache {
  import opened Basics
  import opened JsonTree
  import opened CanonicalJson
  import opened ArtifactRefs
  import opened CacheMachine
  import opened PyText

  datatype Error =
    | MissingPipeline
    | SourceMismatch
    | InvalidKey
    | InvalidMetadata
    | InvalidReference
    | ArtifactMismatch
    | MissingArtifact
    | NotFound
    | Conflict
    | UnknownArtifact
    | Unavailable
    | Corrupted

  datatype Result<T> = Ok(value: T) | Err(error: Error)

  /** _normalize_metadata and its Go counterpart: pipeline, source hash and payload. */
  type Normalizer = (string, string, Json) -> Option<Json>

  ghost predicate IsNormalizer(f: Normalizer) {
    forall p, s, v :: f(p, s, v).Some? ==> WellFormed(f(p, s, v).value)
  }

  ghost predicate NoCommit(w: World, v: World, me: Pid) {
    forall i | |w.log| <= i < |v.log| :: v.log[i].pid != me
  }

  /** This process has replaced the manifest once, with `m`. */
  ghost predicate CommitsOnce(w: World, v: World, me: Pid, key: Key, m: Manifest) {
    exists i: nat ::
      && |w.log| <= i < |v.log| && v.log[i] == Commit(me, key, m)
      && forall j | |w.log| <= j < |v.log| && v.log[j].pid == me :: j == i
  }

  /** Others have acted; `me` has written no manifest and forgotten nothing. */
  ghost predicate Still(w: World, v: World, me: Pid) {
    && Grows(w, v) && NoCommit(w, v, me)
    && me in w.locals && me in v.locals
    && w.locals[me].seen <= v.locals[me].seen
    && v.locals[me].call == w.locals[me].call
  }

  // ----- the manifest that lies at a key ----------------------------------------------------

  /** The last one written there. */
  function Latest(log: seq<Commit>, key: Key): Option<Manifest> {
    if log == [] then None
    else if log[|log| - 1].key == key then Some(log[|log| - 1].manifest)
    else Latest(log[..|log| - 1], key)
  }

  function AtKey(w: World, key: Key): Option<Manifest> {
    if key in w.manifests then Some(w.manifests[key]) else None
  }

  lemma StepKeepsLatest(h: Hash, w: World, a: Action, key: Key)
    requires Enabled(h, w, a) && AtKey(w, key) == Latest(w.log, key)
    ensures AtKey(Apply(h, w, a), key) == Latest(Apply(h, w, a).log, key)
  {
    hide CanBegin, CanStore, CanEdit, Intact, Fresh, Edited;
    if a.Store? || a.Edit? {
      var log := Apply(h, w, a).log;
      assert log[..|log| - 1] == w.log;
    }
  }

  lemma {:induction false} RunKeepsLatest(h: Hash, w: World, run: seq<Action>, key: Key)
    requires IsRun(h, w, run) && AtKey(w, key) == Latest(w.log, key)
    ensures AtKey(Exec(h, w, run), key) == Latest(Exec(h, w, run).log, key)
    decreases |run|
  {
    hide Apply, Enabled;
    if run != [] {
      StepKeepsLatest(h, w, run[0], key);
      RunKeepsLatest(h, Apply(h, w, run[0]), run[1..], key);
    }
  }

  /** Manifests are replaced and never removed: what lies at a key is the last one written there. */
  lemma ManifestIsTheLatest(h: Hash, w: World, key: Key)
    requires Reachable(h, w)
    ensures AtKey(w, key) == Latest(w.log, key)
  {
    var run :| Reaches(h, run, w);
    RunKeepsLatest(h, Empty(), run, key);
  }

  /** The manifest lay there when the call began, or was written since. */
  predicate Lay(w: World, v: World, key: Key, m: Manifest) {
    AtKey(w, key) == Some(m) || exists i | |w.log| <= i < |v.log| :: v.log[i].key == key && v.log[i].manifest == m
  }

  lemma {:induction false} LatestIsNew(w: World, log: seq<Commit>, key: Key)
    requires w.log <= log
    ensures Latest(log, key) == Latest(w.log, key)
         || exists i | |w.log| <= i < |log| :: log[i].key == key && Latest(log, key) == Some(log[i].manifest)
    ensures Latest(w.log, key).Some? ==> Latest(log, key).Some?
    decreases |log|
  {
    if |log| > |w.log| {
      LatestIsNew(w, log[..|log| - 1], key);
      assert log[|log| - 1].key == key ==> Latest(log, key) == Some(log[|log| - 1].manifest);
    } else {
      assert log == w.log;
    }
  }

  lemma PresentLay(h: Hash, w: World, v: World, key: Key)
    requires Reachable(h, w) && Reachable(h, v) && w.log <= v.log
    ensures key in w.manifests ==> key in v.manifests
    ensures key in v.manifests ==> Lay(w, v, key, v.manifests[key])
  {
    hide Reachable;
    ManifestIsTheLatest(h, w, key);
    ManifestIsTheLatest(h, v, key);
    LatestIsNew(w, v.log, key);
  }

  lemma LayStays(u: World, w: World, v: World, key: Key, m: Manifest)
    requires w.log <= v.log && Lay(u, w, key, m)
    ensures Lay(u, v, key, m)
  {
    if i :| |u.log| <= i < |w.log| && w.log[i].key == key && w.log[i].manifest == m {
      assert v.log[i] == w.log[i];
    }
  }

  /** Joining or leaving changes neither. */
  predicate SameFiles(w: World, v: World) {
    v.manifests == w.manifests && v.log == w.log && v.objects == w.objects && v.rotted == w.rotted && v.written == w.written
  }

  // ----- the bytes behind a digest ------------------------------------------------------------

  /** The object is there, and holds this text unless it rotted or two texts of the run collide. */
  ghost predicate Holds(h: Hash, w: World, sha: string, text: string) {
    && sha == h(text) && Kept(h, w, sha)
    && (sha !in w.rotted && Separates(h, w.written) ==> w.objects[sha] == text)
  }

  lemma PresentHolds(h: Hash, w: World, text: string)
    requires Reachable(h, w) && h(text) in w.objects && text in w.written
    ensures Holds(h, w, h(text), text)
  {
    ReachableIsSound(h, w);
    hide Reachable, Logged, Sound, LocalInv;
  }

  lemma SameHolds(h: Hash, w: World, v: World, sha: string, text: string)
    requires SameFiles(w, v) && Holds(h, w, sha, text)
    ensures Holds(h, v, sha, text)
  {
  }

  /** What a process has stored or verified is there. */
  lemma SeenIsPresent(h: Hash, w: World, me: Pid, text: string)
    requires Reachable(h, w) && me in w.locals && h(text) in w.locals[me].seen && text in w.written
    ensures Holds(h, w, h(text), text)
  {
    ReachableIsSound(h, w);
    assert LocalInv(h, w, w.locals[me]);
    PresentHolds(h, w, text);
    hide *;
  }

  /** The manifest names the three objects that hold what the call was given. */
  ghost predicate HoldsCall(h: Hash, w: World, m: Manifest, c: Call) {
    Holds(h, w, m.source, c.source) && Holds(h, w, m.image, c.rendered) && Holds(h, w, m.metadata, c.text)
  }

  lemma FreshHolds(h: Hash, w: World, me: Pid, c: Call)
    requires Reachable(h, w) && me in w.locals && w.locals[me].call == Some(c)
    requires {h(c.source), h(c.rendered), h(c.text)} <= w.locals[me].seen
    ensures HoldsCall(h, w, Fresh(h, c), c)
  {
    ReachableIsSound(h, w);
    assert LocalInv(h, w, w.locals[me]);
    hide Holds, Reachable, Inv, LocalInv, CanBegin;
    SeenIsPresent(h, w, me, c.source);
    SeenIsPresent(h, w, me, c.rendered);
    SeenIsPresent(h, w, me, c.text);
  }

  predicate ByOther(a: Action, me: Pid) {
    match a
    case Rot(_, _) => true
    case Join(pid) => pid != me
    case Begin(pid, _) => pid != me
    case Put(pid, _) => pid != me
    case Verify(pid, _) => pid != me
    case Fetch(pid, _) => pid != me
    case Store(pid) => pid != me
    case Edit(pid, _, _) => pid != me
    case Stop(pid) => pid != me
  }

  class Disk {
    const h: Hash
    var world: World

    ghost predicate Valid()
      reads this
    {
      IsHash(h) && Reachable(h, world)
    }

    constructor (h: Hash)
      requires IsHash(h)
      ensures Valid() && this.h == h && world == Empty()
    {
      this.h := h;
      world := Empty();
      EmptyReachable(h);
    }

    /** One file operation, taken atomically. */
    method Do(a: Action)
      requires Valid() && Enabled(h, world, a)
      modifies this
      ensures Valid() && world == Apply(h, old(world), a)
    {
      ReachableStep(h, world, a);
      world := Apply(h, world, a);
    }

    /** Any number of operations of other processes, and any rot. */
    method Yield(me: Pid)
      requires Valid() && me in world.locals
      modifies this
      ensures Valid() && Still(old(world), world, me) && world.locals[me] == old(world).locals[me]
    {
      var others: seq<Action> := *;
      for i := 0 to |others|
        invariant Valid() && Still(old(world), world, me) && world.locals[me] == old(world).locals[me]
      {
        if Enabled(h, world, others[i]) && ByOther(others[i], me) {
          hide Enabled, Apply;
          Do(others[i]);
        }
      }
    }
  }

  // ----- what is refused ------------------------------------------------------------------

  const LEGACY_REVISION := "legacy-v1"

  /** The checks of load_manifest_by_hash. */
  predicate Loads(m: Manifest, pipeline: string, sourceHash: string, revision: string) {
    && (m.schema == 2 || m.schema == 3 || m.schema == SCHEMA)
    && m.pipeline == pipeline && m.sourceHash == sourceHash
    && if m.schema == 2 then m.revision == None && revision == LEGACY_REVISION else m.revision == Some(revision)
  }

  /** A manifest is loaded under one pipeline, source and revision only, and one without a revision as the legacy one. */
  lemma LoadsUnderOneRevision(m: Manifest, p: string, s: string, r: string, q: string, t: string, u: string)
    requires Loads(m, p, s, r)
    ensures Loads(m, q, t, u) <==> q == p && t == s && u == r
    ensures p == m.pipeline && s == m.sourceHash && r == if m.revision.Some? then m.revision.value else LEGACY_REVISION
  {
  }

  predicate Supplies(supplied: seq<Field<string>>, digest: string) {
    exists i | 0 <= i < |supplied| :: supplied[i].key == digest
  }

  datatype Page = Page(
    pipeline: string,
    sourceHash: string,
    source: string,
    rendered: string,
    payload: Json,
    artifacts: seq<Field<string>>,
    documentPipeline: string)

  function DocumentPipeline(documentPipeline: string, pipeline: string): string {
    if documentPipeline == "" then pipeline else documentPipeline
  }

  function Normal(f: Normalizer, p: Page): Option<Json> {
    f(DocumentPipeline(p.documentPipeline, p.pipeline), p.sourceHash, p.payload)
  }

  predicate ArtifactsMatch(h: Hash, artifacts: seq<Field<string>>) {
    forall i | 0 <= i < |artifacts| :: IsSha(artifacts[i].key) && h(artifacts[i].value) == artifacts[i].key
  }

  predicate Covers(artifacts: seq<Field<string>>, refs: set<string>) {
    forall d | d in refs :: Supplies(artifacts, d)
  }

  /** Why store_page refuses a page, in the order it looks. */
  function PageCheck(h: Hash, f: Normalizer, p: Page): Option<Error> {
    if p.pipeline == "" then Some(MissingPipeline)
    else if h(p.source) != p.sourceHash then Some(SourceMismatch)
    else if PathOf(p.pipeline, p.sourceHash) == None then Some(InvalidKey)
    else if Normal(f, p) == None then Some(InvalidMetadata)
    else if !RefsValid(Normal(f, p).value) then Some(InvalidReference)
    else if !ArtifactsMatch(h, p.artifacts) then Some(ArtifactMismatch)
    else if !Covers(p.artifacts, Refs(Normal(f, p).value)) then Some(MissingArtifact)
    else None
  }

  /** The call a page makes once it has a path and normal metadata. */
  function CallOf(f: Normalizer, p: Page, revision: string): Call
    requires PathOf(p.pipeline, p.sourceHash).Some? && Normal(f, p).Some?
  {
    Call(PathOf(p.pipeline, p.sourceHash).value, p.pipeline, revision, p.source, p.rendered,
         Print(Python, Normal(f, p).value))
  }

  /** What Python writes can be read, and refers to what the document refers to. */
  lemma PrintedIsReadable(v: Json)
    requires WellFormed(v)
    ensures Readable(Print(Python, v)) <==> RefsValid(v)
    ensures RefsValid(v) ==> RefsOf(Print(Python, v)) == Refs(v)
  {
    hide Parse, Print, Canon, Refs, RefsValid;
    RoundTrip(v);
    CanonKeepsRefs(v);
  }

  /** Why a metadata update refuses a document, given the manifest it read. */
  function EditCheck(base: Manifest, baseHash: string, text: Option<string>): Option<Error> {
    if baseHash != "" && baseHash != base.contentHash then Some(Conflict)
    else if text == None then Some(InvalidMetadata)
    else if !Readable(text.value) then Some(InvalidReference)
    else if !(RefsOf(text.value) <= base.artifacts) then Some(UnknownArtifact)
    else None
  }

  /** The document can be read and brings no new artifact, and nobody else has edited the page since it was read. */
  ghost predicate EditIsSafe(base: Manifest, baseHash: string, text: Option<string>) {
    && (baseHash == "" || baseHash == base.contentHash)
    && text.Some? && Readable(text.value)
    && forall d | d in RefsOf(text.value) :: d in base.artifacts
  }

  lemma CheckedEditIsSafe(base: Manifest, baseHash: string, text: Option<string>)
    ensures EditCheck(base, baseHash, text) == None <==> EditIsSafe(base, baseHash, text)
  {
    hide Readable, RefsOf;
  }

  /** The page is what its hash says, has a path, and brings every artifact its document refers to, each under its digest. */
  ghost predicate PageIsWhole(h: Hash, f: Normalizer, p: Page) {
    && p.pipeline != "" && h(p.source) == p.sourceHash && PathOf(p.pipeline, p.sourceHash).Some?
    && Normal(f, p).Some?
    && (forall i | 0 <= i < |p.artifacts| :: h(p.artifacts[i].value) == p.artifacts[i].key)
    && forall d | d in Refs(Normal(f, p).value) :: exists i :: 0 <= i < |p.artifacts| && p.artifacts[i].key == d
  }

  lemma CheckedPageIsWhole(h: Hash, f: Normalizer, p: Page)
    requires IsHash(h)
    ensures PageCheck(h, f, p) == None <==> PageIsWhole(h, f, p) && RefsValid(Normal(f, p).value)
  {
    hide Refs, RefsValid, PathOf;
    if PageIsWhole(h, f, p) {
      forall i | 0 <= i < |p.artifacts| ensures IsSha(p.artifacts[i].key) {
        assert IsSha(h(p.artifacts[i].value));
      }
      forall d | d in Refs(Normal(f, p).value) ensures Supplies(p.artifacts, d) {
      }
    }
    if PageCheck(h, f, p) == None {
      forall d | d in Refs(Normal(f, p).value) ensures exists i :: 0 <= i < |p.artifacts| && p.artifacts[i].key == d {
        assert Supplies(p.artifacts, d);
      }
    }
  }

  /** A path leads nowhere but into a directory of its own, named after the pipeline. */
  lemma PathsStayInside(pipeline: string, sourceHash: string)
    ensures var key := PathOf(pipeline, sourceHash);
      key.Some? ==>
        && key.value.sourceHash == sourceHash && IsSha(sourceHash)
        && key.value.pipeline == Strip(pipeline)
        && key.value.pipeline !in {"", ".", ".."} && '/' !in key.value.pipeline && '\\' !in key.value.pipeline
  {
    hide Strip, IsSha;
    var v := Strip(pipeline);
    assert (forall i | 0 <= i < |v| :: PathChar(v[i])) ==> '/' !in v && '\\' !in v;
  }

  /**
   What a refusal means.  A rotten artifact is one the document refers to and may refer
   to; the Go server may meet it before an unknown one, as it checks both in one loop.
   */
  ghost predicate EditFault(h: Hash, rt: Runtime, v: World, base: Manifest, baseHash: string, text: Option<string>, e: Error) {
    var check := EditCheck(base, baseHash, text);
    if e == Corrupted then check == None && h(text.value) in v.rotted
    else if e == Unavailable then
      && (check == None || (rt == Go && check == Some(UnknownArtifact)))
      && exists d :: d in v.rotted && d in RefsOf(text.value) && d in base.artifacts
    else check == Some(e)
  }

  lemma SameFault(h: Hash, rt: Runtime, w: World, v: World, base: Manifest, baseHash: string, text: Option<string>)
    requires SameFiles(w, v)
    ensures forall e :: EditFault(h, rt, w, base, baseHash, text, e) ==> EditFault(h, rt, v, base, baseHash, text, e)
  {
    hide EditCheck;
  }

  /** A document that may be stored, but for the artifacts it refers to. */
  predicate FitButForArtifacts(base: Manifest, baseHash: string, text: Option<string>) {
    EditCheck(base, baseHash, text) in {None, Some(UnknownArtifact)}
  }

  lemma StoreFault(h: Hash, rt: Runtime, v: World, base: Manifest, baseHash: string, text: Option<string>, e: Error)
    requires FitButForArtifacts(base, baseHash, text) && (rt == Python ==> EditCheck(base, baseHash, text) == None)
    requires e == UnknownArtifact ==> !(RefsOf(text.value) <= base.artifacts)
    requires e == Unavailable ==> exists d :: d in v.rotted && d in RefsOf(text.value) && d in base.artifacts
    requires e == Corrupted ==> RefsOf(text.value) <= base.artifacts && h(text.value) in v.rotted
    requires e in {UnknownArtifact, Unavailable, Corrupted}
    ensures EditFault(h, rt, v, base, baseHash, text, e)
  {
    hide Readable, RefsOf;
  }

  lemma PermittedIsFit(base: Manifest, baseHash: string, text: Option<string>)
    requires FitButForArtifacts(base, baseHash, text)
    ensures Readable(text.value)
    ensures RefsOf(text.value) <= base.artifacts ==> EditCheck(base, baseHash, text) == None
  {
    hide Readable, RefsOf;
  }

  function TextOf(rt: Runtime, v: Option<Json>): Option<string> {
    if v == None then None else Some(Print(rt, v.value))
  }

  // ----- the cache -------------------------------------------------------------------------

  class PageCache {
    const disk: Disk
    const me: Pid
    const revision: string
    const normalize: Normalizer

    ghost predicate Idle()
      reads this, disk
    {
      disk.Valid() && IsNormalizer(normalize) && me !in disk.world.locals
    }

    ghost predicate Busy()
      reads this, disk
    {
      disk.Valid() && IsNormalizer(normalize) && me in disk.world.locals
    }

    /** The page's own manifest, written once, with the bytes given behind its digests. */
    ghost predicate Stored(w: World, v: World, p: Page, m: Manifest)
    {
      && PageCheck(disk.h, normalize, p) == None && PageIsWhole(disk.h, normalize, p)
      && Holds(disk.h, v, m.source, p.source) && Holds(disk.h, v, m.image, p.rendered)
      && Holds(disk.h, v, m.metadata, Print(Python, Normal(normalize, p).value))
      && m == Fresh(disk.h, CallOf(normalize, p, revision))
      && CommitsOnce(w, v, me, CallOf(normalize, p, revision).key, m)
    }

    /** An object the page would share has rotted. */
    ghost predicate MeetsRot(v: World, p: Page)
    {
      || (exists i :: 0 <= i < |p.artifacts| && p.artifacts[i].key in v.rotted)
      || disk.h(p.source) in v.rotted || disk.h(p.rendered) in v.rotted
      || (Normal(normalize, p).Some? && disk.h(Print(Python, Normal(normalize, p).value)) in v.rotted)
    }

    /** No manifest written: an object of the page has rotted, or the page is at fault in just this way. */
    ghost predicate Refused(w: World, v: World, p: Page, e: Error)
    {
      && NoCommit(w, v, me)
      && if e == Corrupted then MeetsRot(v, p) else PageCheck(disk.h, normalize, p) == Some(e)
    }

    constructor (disk: Disk, me: Pid, revision: string, normalize: Normalizer)
      requires disk.Valid() && IsNormalizer(normalize) && me !in disk.world.locals
      ensures Idle() && this.disk == disk && this.me == me && this.revision == revision && this.normalize == normalize
    {
      this.disk := disk;
      this.me := me;
      this.revision := revision;
      this.normalize := normalize;
    }

    /** One step of this process that writes no manifest. */
    method Act(a: Action)
      requires Busy() && Enabled(disk.h, disk.world, a)
      requires (a.Put? || a.Verify? || a.Fetch?) && a.pid == me
      modifies disk
      ensures Busy() && Still(old(disk.world), disk.world, me)
      ensures disk.world == Apply(disk.h, old(disk.world), a)
    {
      disk.Do(a);
    }

    /** _store_object: an existing file is checked, a missing one written. */
    method StoreObject(data: string) returns (r: Option<string>)
      requires Busy()
      modifies disk
      ensures Busy() && Still(old(disk.world), disk.world, me)
      ensures disk.world.locals[me].base == old(disk.world).locals[me].base
      ensures r.Some? ==> r.value == disk.h(data) && disk.h(data) in disk.world.locals[me].seen
      ensures r.None? ==> disk.h(data) in disk.world.rotted
    {
      hide CanBegin, CanStore, CanEdit, Fresh, Edited, Reachable;
      disk.Yield(me);
      var sha := disk.h(data);
      if sha in disk.world.objects {
        if disk.h(disk.world.objects[sha]) != sha {
          ReachableIsSound(disk.h, disk.world);
          return None;
        }
        Act(Verify(me, sha));
      } else {
        disk.Yield(me);
        Act(Put(me, data));
      }
      return Some(sha);
    }

    /** _read_object_verified. */
    method ReadVerified(sha: string) returns (r: Option<string>)
      requires Busy()
      modifies disk
      ensures Busy() && Still(old(disk.world), disk.world, me)
      ensures disk.world.locals[me].base == old(disk.world).locals[me].base
      ensures r.Some? ==> disk.h(r.value) == sha && sha in disk.world.locals[me].seen && r.value in disk.world.written
      ensures r.None? && sha in old(disk.world).objects ==> sha in disk.world.rotted
    {
      hide CanBegin, CanStore, CanEdit, Fresh, Edited, Reachable;
      disk.Yield(me);
      if sha !in disk.world.objects {
        return None;
      }
      var data := disk.world.objects[sha];
      if disk.h(data) != sha {
        ReachableIsSound(disk.h, disk.world);
        return None;
      }
      ReachableIsSound(disk.h, disk.world);
      Act(Verify(me, sha));
      return Some(data);
    }

    /** A manifest that lay at the path when it was read passes the checks. */
    predicate Found(w: World, v: World, pipeline: string, sourceHash: string, key: Key, m: Manifest)
    {
      PathOf(pipeline, sourceHash) == Some(key) && Lay(w, v, key, m) && Loads(m, pipeline, sourceHash, revision)
    }

    /** There is no such path, or nothing lay there when the call began, or what lay there fails the checks. */
    ghost predicate Missed(w: World, v: World, pipeline: string, sourceHash: string)
    {
      var path := PathOf(pipeline, sourceHash);
      || path == None
      || path.value !in w.manifests
      || exists m :: Lay(w, v, path.value, m) && !Loads(m, pipeline, sourceHash, revision)
    }

    lemma SameBounds(u: World, w: World, v: World, x: World, pipeline: string, sourceHash: string, key: Key, m: Manifest)
      requires SameFiles(u, w) && SameFiles(v, x)
      ensures Found(w, v, pipeline, sourceHash, key, m) ==> Found(u, x, pipeline, sourceHash, key, m)
      ensures Missed(w, v, pipeline, sourceHash) ==> Missed(u, x, pipeline, sourceHash)
    {
      hide PathOf, Loads;
      if Missed(w, v, pipeline, sourceHash) && PathOf(pipeline, sourceHash).Some? {
        var key := PathOf(pipeline, sourceHash).value;
        if n :| Lay(w, v, key, n) && !Loads(n, pipeline, sourceHash, revision) {
          assert Lay(u, x, key, n);
        }
      }
    }

    /**
     load_manifest_by_hash: what it returns is sound, lay at the path and passes the
     checks, and a miss has its reason.
     */
    method LoadManifest(pipeline: string, sourceHash: string) returns (r: Option<(Key, Manifest)>)
      requires Busy()
      modifies disk
      ensures Busy() && Still(old(disk.world), disk.world, me)
      ensures r.None? ==> Missed(old(disk.world), disk.world, pipeline, sourceHash)
      ensures r.Some? ==>
                && Found(old(disk.world), disk.world, pipeline, sourceHash, r.value.0, r.value.1)
                && Logged(disk.world, r.value.0, r.value.1)
                && Sound(disk.h, disk.world, r.value.0, r.value.1)
                && disk.world.locals[me].base == r
    {
      hide CanBegin, CanStore, CanEdit, Fresh, Edited, Reachable, PathOf, Sound, Logged, Readable, Lay, Loads;
      var path := PathOf(pipeline, sourceHash);
      if path == None {
        return None;
      }
      disk.Yield(me);
      var key := path.value;
      PresentLay(disk.h, old(disk.world), disk.world, key);
      if key !in disk.world.manifests {
        return None;
      }
      var m := disk.world.manifests[key];
      ghost var read := disk.world;
      Act(Fetch(me, key));
      LayStays(old(disk.world), read, disk.world, key, m);
      if !Loads(m, pipeline, sourceHash, revision) {
        return None;
      }
      ReachableIsSound(disk.h, disk.world);
      LoggedIsSound(disk.h, disk.world, key, m);
      return Some((key, m));
    }

    /** The supplied artifacts, one by one; the ones before a refused one stay stored. */
    method StoreArtifacts(artifacts: seq<Field<string>>) returns (error: Option<Error>)
      requires Busy()
      modifies disk
      ensures Busy() && Still(old(disk.world), disk.world, me)
      ensures error == None ==>
                && ArtifactsMatch(disk.h, artifacts)
                && forall i | 0 <= i < |artifacts| :: artifacts[i].key in disk.world.locals[me].seen
      ensures error == Some(Corrupted) || error == None || (error == Some(ArtifactMismatch) && !ArtifactsMatch(disk.h, artifacts))
      ensures error == Some(Corrupted) ==> exists i :: 0 <= i < |artifacts| && artifacts[i].key in disk.world.rotted
    {
      hide Reachable, IsSha;
      for i := 0 to |artifacts|
        invariant Busy() && Still(old(disk.world), disk.world, me)
        invariant forall k | 0 <= k < i ::
          && IsSha(artifacts[k].key) && disk.h(artifacts[k].value) == artifacts[k].key
          && artifacts[k].key in disk.world.locals[me].seen
      {
        if !IsSha(artifacts[i].key) || disk.h(artifacts[i].value) != artifacts[i].key {
          return Some(ArtifactMismatch);
        }
        var stored := StoreObject(artifacts[i].value);
        if stored == None {
          return Some(Corrupted);
        }
      }
      return None;
    }

    /** store_page. */
    method StorePage(p: Page) returns (r: Result<Manifest>)
      requires Idle()
      modifies disk
      ensures Idle() && Grows(old(disk.world), disk.world)
      ensures match r
              case Ok(m) => Stored(old(disk.world), disk.world, p, m)
              case Err(e) => Refused(old(disk.world), disk.world, p, e)
    {
      hide Stored, Refused, Reachable;
      disk.Do(Join(me));
      ghost var joined := disk.world;
      r := StoreJoined(p);
      ghost var done := disk.world;
      disk.Do(Stop(me));
      if r.Ok? {
        SameStored(old(disk.world), joined, done, disk.world, p, r.value);
      } else {
        SameRefused(old(disk.world), joined, done, disk.world, p, r.error);
      }
    }

    lemma SameStored(u: World, w: World, v: World, x: World, p: Page, m: Manifest)
      requires SameFiles(u, w) && SameFiles(v, x) && Stored(w, v, p, m)
      ensures Stored(u, x, p, m)
    {
      hide Holds, PathOf, RefsValid, Refs, Covers, ArtifactsMatch;
      SameHolds(disk.h, v, x, m.source, p.source);
      SameHolds(disk.h, v, x, m.image, p.rendered);
      SameHolds(disk.h, v, x, m.metadata, Print(Python, Normal(normalize, p).value));
    }

    lemma SameRefused(u: World, w: World, v: World, x: World, p: Page, e: Error)
      requires SameFiles(u, w) && SameFiles(v, x) && Refused(w, v, p, e)
      ensures Refused(u, x, p, e)
    {
      hide PageCheck;
    }

    method StoreJoined(p: Page) returns (r: Result<Manifest>)
      requires Busy()
      modifies disk
      ensures Busy() && Grows(old(disk.world), disk.world)
      ensures match r
              case Ok(m) => Stored(old(disk.world), disk.world, p, m)
              case Err(e) => Refused(old(disk.world), disk.world, p, e)
    {
      hide PathOf, Readable, RefsOf, Refs, RefsValid, Print, Reachable;
      if p.pipeline == "" {
        return Err(MissingPipeline);
      }
      if disk.h(p.source) != p.sourceHash {
        return Err(SourceMismatch);
      }
      var path := PathOf(p.pipeline, p.sourceHash);
      if path == None {
        return Err(InvalidKey);
      }
      var normal := Normal(normalize, p);
      if normal == None {
        return Err(InvalidMetadata);
      }
      var call := CallOf(normalize, p, revision);
      PrintedIsReadable(normal.value);
      if !RefsValid(normal.value) {
        return Err(InvalidReference);
      }
      KeyOfPath(p.pipeline, p.sourceHash);
      disk.Do(CacheMachine.Begin(me, call));
      assert NoCommit(old(disk.world), disk.world, me);
      var error := StoreArtifacts(p.artifacts);
      if error != None {
        return Err(error.value);
      }
      if !Covers(p.artifacts, Refs(normal.value)) {
        return Err(MissingArtifact);
      }
      CheckedPageIsWhole(disk.h, normalize, p);
      r := Publish(call);
    }

    /** The three objects, then the manifest. */
    method Publish(call: Call) returns (r: Result<Manifest>)
      requires Busy() && disk.world.locals[me].call == Some(call) && Readable(call.text)
      requires RefsOf(call.text) <= disk.world.locals[me].seen
      modifies disk
      ensures Busy() && Grows(old(disk.world), disk.world)
      ensures r.Ok? ==> r.value == Fresh(disk.h, call) && CommitsOnce(old(disk.world), disk.world, me, call.key, r.value)
      ensures r.Ok? ==> HoldsCall(disk.h, disk.world, r.value, call)
      ensures r.Err? ==> r.error == Corrupted && NoCommit(old(disk.world), disk.world, me)
      ensures r.Err? ==> exists text :: text in TextsOf(call) && disk.h(text) in disk.world.rotted
    {
      hide Readable, RefsOf, Reachable, Fresh, CanBegin, CanEdit, Edited, HoldsCall;
      var source := StoreObject(call.source);
      if source == None {
        return Err(Corrupted);
      }
      var image := StoreObject(call.rendered);
      if image == None {
        return Err(Corrupted);
      }
      var metadata := StoreObject(call.text);
      if metadata == None {
        return Err(Corrupted);
      }
      disk.Yield(me);
      ghost var before := disk.world;
      disk.Do(Store(me));
      CommitIsOnce(old(disk.world), before, me, call.key, Fresh(disk.h, call));
      FreshHolds(disk.h, disk.world, me, call);
      return Ok(Fresh(disk.h, call));
    }

    /** The normal text of an edited document, as one of the two runtimes writes it. */
    function EditText(rt: Runtime, pipeline: string, sourceHash: string, payload: Json): Option<string>
      reads this
    {
      TextOf(rt, normalize(pipeline, sourceHash, payload))
    }

    /** `m` is the manifest that was read, with the new metadata and its image marked stale. */
    ghost predicate EditedFrom(w: World, v: World, key: Key, base: Manifest, baseHash: string, text: Option<string>, m: Manifest)
    {
      && EditCheck(base, baseHash, text) == None && EditIsSafe(base, baseHash, text)
      && m == Edited(disk.h, base, revision, text.value)
      && Holds(disk.h, v, m.metadata, text.value)
      && CommitsOnce(w, v, me, key, m)
    }

    /** No manifest written: none was there, the edit is at fault, or a file it needs has rotted. */
    ghost predicate EditRefused(rt: Runtime, w: World, v: World, base: Manifest, baseHash: string,
                                text: Option<string>, e: Error)
    {
      NoCommit(w, v, me) && (e != NotFound ==> EditFault(disk.h, rt, v, base, baseHash, text, e))
    }

    /**
     update_metadata_by_hash (`Python`) and UpdateMetadataBySourceHash (`Go`): the
     Go server checks the references of the text it has written, read back.
     */
    method UpdateMetadata(rt: Runtime, pipeline: string, sourceHash: string, payload: Json, baseHash: string,
                          documentPipeline: string)
      returns (r: Result<Manifest>, ghost key: Key, ghost base: Manifest)
      requires Idle()
      modifies disk
      ensures Idle() && Grows(old(disk.world), disk.world)
      ensures var text := EditText(rt, DocumentPipeline(documentPipeline, pipeline), sourceHash, payload);
              match r
              case Ok(m) => EditedFrom(old(disk.world), disk.world, key, base, baseHash, text, m)
              case Err(e) => EditRefused(rt, old(disk.world), disk.world, base, baseHash, text, e)
      ensures if r == Err(NotFound) then Missed(old(disk.world), disk.world, pipeline, sourceHash)
              else Found(old(disk.world), disk.world, pipeline, sourceHash, key, base)
    {
      hide PathOf, Readable, RefsOf, Print, Reachable, Edited, Sound, Logged, Loads, Lay, EditFault, Holds, Missed, Found;
      disk.Do(Join(me));
      ghost var joined := disk.world;
      var text := EditText(rt, DocumentPipeline(documentPipeline, pipeline), sourceHash, payload);
      r, key, base := UpdateJoined(rt, pipeline, sourceHash, text, baseHash);
      ghost var done := disk.world;
      disk.Do(Stop(me));
      SameBounds(old(disk.world), joined, done, disk.world, pipeline, sourceHash, key, base);
      if r.Ok? {
        SameHolds(disk.h, done, disk.world, r.value.metadata, text.value);
      }
      SameFault(disk.h, rt, done, disk.world, base, baseHash, text);
    }

    method UpdateJoined(rt: Runtime, pipeline: string, sourceHash: string, text: Option<string>, baseHash: string)
      returns (r: Result<Manifest>, ghost key: Key, ghost base: Manifest)
      requires Busy()
      modifies disk
      ensures Busy() && Grows(old(disk.world), disk.world)
      ensures match r
              case Ok(m) => EditedFrom(old(disk.world), disk.world, key, base, baseHash, text, m)
              case Err(e) => EditRefused(rt, old(disk.world), disk.world, base, baseHash, text, e)
      ensures if r == Err(NotFound) then Missed(old(disk.world), disk.world, pipeline, sourceHash)
              else Found(old(disk.world), disk.world, pipeline, sourceHash, key, base)
    {
      hide PathOf, Readable, RefsOf, Print, Reachable, Edited, Sound, Logged, Loads, Lay, EditFault, Holds, Missed;
      key, base := *, *;
      var loaded := LoadManifest(pipeline, sourceHash);
      if loaded == None {
        return Err(NotFound), key, base;
      }
      key, base := loaded.value.0, loaded.value.1;
      ghost var before := disk.world;
      r := Patch(rt, loaded.value.0, loaded.value.1, baseHash, text);
      LayStays(old(disk.world), before, disk.world, key, base);
    }

    method Patch(rt: Runtime, key: Key, base: Manifest, baseHash: string, text: Option<string>) returns (r: Result<Manifest>)
      requires Busy() && disk.world.locals[me].base == Some((key, base))
      requires Sound(disk.h, disk.world, key, base)
      modifies disk
      ensures Busy() && Grows(old(disk.world), disk.world)
      ensures r.Ok? ==>
                && EditCheck(base, baseHash, text) == None && EditIsSafe(base, baseHash, text)
                && r.value == Edited(disk.h, base, revision, text.value)
                && CommitsOnce(old(disk.world), disk.world, me, key, r.value)
                && Holds(disk.h, disk.world, r.value.metadata, text.value)
      ensures r.Err? ==>
                && NoCommit(old(disk.world), disk.world, me) && r.error != NotFound
                && EditFault(disk.h, rt, disk.world, base, baseHash, text, r.error)
    {
      assert base.artifacts <= disk.world.objects.Keys;
      hide Readable, RefsOf, Reachable, Edited, Sound, CommitsOnce, Holds;
      var error := EditCheck(base, baseHash, text);
      if error != None && error != Some(UnknownArtifact) {
        return Err(error.value);
      }
      if rt == Python && error != None {
        return Err(UnknownArtifact);
      }
      hide EditCheck, EditFault, EditIsSafe;
      error := StoreEdit(text.value, RefsOf(text.value), base.artifacts);
      if error != None {
        StoreFault(disk.h, rt, disk.world, base, baseHash, text, error.value);
        return Err(error.value);
      }
      PermittedIsFit(base, baseHash, text);
      CheckedEditIsSafe(base, baseHash, text);
      var m := CommitEdit(key, base, text.value);
      return Ok(m);
    }

    /** The artifacts are checked before the document is stored. */
    method StoreEdit(text: string, refs: set<string>, permitted: set<string>) returns (error: Option<Error>)
      requires Busy() && permitted <= disk.world.objects.Keys
      modifies disk
      ensures Busy() && Still(old(disk.world), disk.world, me)
      ensures disk.world.locals[me].base == old(disk.world).locals[me].base
      ensures error == None ==> refs <= permitted && refs + {disk.h(text)} <= disk.world.locals[me].seen
      ensures error == Some(UnknownArtifact) ==> !(refs <= permitted)
      ensures error == Some(Unavailable) ==> exists d :: d in disk.world.rotted && d in refs && d in permitted
      ensures error == Some(Corrupted) ==> refs <= permitted && disk.h(text) in disk.world.rotted
      ensures error in {None, Some(UnknownArtifact), Some(Unavailable), Some(Corrupted)}
    {
      hide Reachable;
      error := VerifyArtifacts(refs, permitted);
      if error == None {
        var metadata := StoreObject(text);
        if metadata == None {
          error := Some(Corrupted);
        }
      }
    }

    /** Every referenced artifact is looked up among the permitted ones, read and checked, in no particular order. */
    method VerifyArtifacts(digests: set<string>, permitted: set<string>) returns (error: Option<Error>)
      requires Busy() && permitted <= disk.world.objects.Keys
      modifies disk
      ensures Busy() && Still(old(disk.world), disk.world, me)
      ensures disk.world.locals[me].base == old(disk.world).locals[me].base
      ensures error == None ==> digests <= permitted && digests <= disk.world.locals[me].seen
      ensures error == Some(UnknownArtifact) ==> !(digests <= permitted)
      ensures error == Some(Unavailable) ==> exists d :: d in disk.world.rotted && d in digests && d in permitted
      ensures error in {None, Some(UnknownArtifact), Some(Unavailable)}
    {
      hide Reachable;
      var todo := digests;
      while todo != {}
        invariant Busy() && Still(old(disk.world), disk.world, me) && todo <= digests
        invariant disk.world.locals[me].base == old(disk.world).locals[me].base
        invariant digests - todo <= permitted && digests - todo <= disk.world.locals[me].seen
        decreases |todo|
      {
        var digest :| digest in todo;
        if digest !in permitted {
          return Some(UnknownArtifact);
        }
        var data := ReadVerified(digest);
        if data == None {
          return Some(Unavailable);
        }
        todo := todo - {digest};
      }
      return None;
    }

    method CommitEdit(key: Key, base: Manifest, text: string) returns (m: Manifest)
      requires Busy() && disk.world.locals[me].base == Some((key, base))
      requires Readable(text) && RefsOf(text) <= base.artifacts
      requires RefsOf(text) + {disk.h(text)} <= disk.world.locals[me].seen
      modifies disk
      ensures Busy() && Grows(old(disk.world), disk.world)
      ensures m == Edited(disk.h, base, revision, text) && CommitsOnce(old(disk.world), disk.world, me, key, m)
      ensures Holds(disk.h, disk.world, m.metadata, text)
    {
      hide Readable, RefsOf, Reachable, Holds;
      disk.Yield(me);
      ghost var before := disk.world;
      disk.Do(Edit(me, revision, text));
      m := Edited(disk.h, base, revision, text);
      SeenIsPresent(disk.h, disk.world, me, text);
      assert m.metadata == disk.h(text);
      hide Edited;
      CommitIsOnce(old(disk.world), before, me, key, m);
    }

    /** Why no image is served: no manifest, or one marked stale, or its image has rotted. */
    ghost predicate NoImage(w: World, v: World, pipeline: string, sourceHash: string)
    {
      Missed(w, v, pipeline, sourceHash)
      || exists key, m :: Found(w, v, pipeline, sourceHash, key, m) && (m.stale || m.image in v.rotted)
    }

    /** An image that some store_page call rendered, under this revision, for the manifest that was read. */
    ghost predicate Serves(w: World, v: World, pipeline: string, sourceHash: string, image: string)
    {
      && (exists key, m :: Found(w, v, pipeline, sourceHash, key, m) && !m.stale && disk.h(image) == m.image)
      && exists c :: c in v.calls && Rendered(v, c, pipeline, sourceHash, image)
    }

    /** load_output_image_by_hash. */
    method LoadOutputImage(pipeline: string, sourceHash: string) returns (r: Option<string>)
      requires Idle()
      modifies disk
      ensures Idle() && Grows(old(disk.world), disk.world) && NoCommit(old(disk.world), disk.world, me)
      ensures match r
              case Some(image) => Serves(old(disk.world), disk.world, pipeline, sourceHash, image)
              case None => NoImage(old(disk.world), disk.world, pipeline, sourceHash)
    {
      hide Found, Missed, Rendered, Reachable;
      disk.Do(Join(me));
      ghost var joined := disk.world;
      r := LoadJoined(pipeline, sourceHash);
      ghost var done := disk.world;
      disk.Do(Stop(me));
      if r == None {
        if key, m :| Found(joined, done, pipeline, sourceHash, key, m) && (m.stale || m.image in done.rotted) {
          SameBounds(old(disk.world), joined, done, disk.world, pipeline, sourceHash, key, m);
        } else {
          ghost var key, m := *, *;
          SameBounds(old(disk.world), joined, done, disk.world, pipeline, sourceHash, key, m);
        }
      } else {
        ghost var key, m :| Found(joined, done, pipeline, sourceHash, key, m) && !m.stale && disk.h(r.value) == m.image;
        SameBounds(old(disk.world), joined, done, disk.world, pipeline, sourceHash, key, m);
        ghost var c :| c in done.calls && Rendered(done, c, pipeline, sourceHash, r.value);
        SameRendered(done, disk.world, c, pipeline, sourceHash, r.value);
      }
    }

    method LoadJoined(pipeline: string, sourceHash: string) returns (r: Option<string>)
      requires Busy()
      modifies disk
      ensures Busy() && Still(old(disk.world), disk.world, me)
      ensures match r
              case Some(image) => Serves(old(disk.world), disk.world, pipeline, sourceHash, image)
              case None => NoImage(old(disk.world), disk.world, pipeline, sourceHash)
    {
      hide PathOf, Readable, RefsOf, Reachable, Logged, Missed, Lay, Loads;
      var loaded := LoadManifest(pipeline, sourceHash);
      if loaded == None {
        return None;
      }
      var (key, m) := loaded.value;
      if m.stale {
        return None;
      }
      ghost var before := disk.world;
      ghost var c :| c in disk.world.calls && PairedBy(disk.h, key, m, c);
      r := ReadVerified(m.image);
      LayStays(old(disk.world), before, disk.world, key, m);
      assert Found(old(disk.world), disk.world, pipeline, sourceHash, key, m);
      if r != None {
        ReachableIsSound(disk.h, disk.world);
        assert TextsOf(c) <= disk.world.written;
        assert Rendered(disk.world, c, pipeline, sourceHash, r.value) by {
          LoadsItsOwn(key, m, pipeline, sourceHash, c);
        }
      }
    }

    /** The manifest of a page passes the checks of loading, and so does that of an edit of it. */
    lemma OwnManifestsLoad(p: Page, base: Manifest, text: string)
      requires PageCheck(disk.h, normalize, p) == None
      ensures Loads(Fresh(disk.h, CallOf(normalize, p, revision)), p.pipeline, p.sourceHash, revision)
      ensures Loads(base, p.pipeline, p.sourceHash, revision) ==>
                var m := Edited(disk.h, base, revision, text);
                && Loads(m, p.pipeline, p.sourceHash, revision)
                && m.stale && m.source == base.source && m.image == base.image && m.artifacts == base.artifacts
    {
      hide Normal, Covers, ArtifactsMatch, RefsValid, Refs, Print;
      KeyOfPath(p.pipeline, p.sourceHash);
    }

    /**
     While a page's manifest is the last one written at its key, no load of it misses, and
     its image is served unless it rotted: the bytes passed as rendered, or others of
     their digest.
     */
    lemma StoredPageIsServed(w: World, v: World, p: Page, image: string)
      requires PageCheck(disk.h, normalize, p) == None
      requires var call := CallOf(normalize, p, revision);
        && AtKey(w, call.key) == Some(Fresh(disk.h, call))
        && forall i | |w.log| <= i < |v.log| :: v.log[i].key != call.key
      ensures !Missed(w, v, p.pipeline, p.sourceHash)
      ensures disk.h(p.rendered) !in v.rotted ==> !NoImage(w, v, p.pipeline, p.sourceHash)
      ensures Serves(w, v, p.pipeline, p.sourceHash, image) ==> disk.h(image) == disk.h(p.rendered)
    {
      var call := CallOf(normalize, p, revision);
      var m := Fresh(disk.h, call);
      OwnManifestsLoad(p, m, "");
      assert call.key == PathOf(p.pipeline, p.sourceHash).value && !m.stale && m.image == disk.h(p.rendered);
      hide Fresh, CallOf, PathOf, Loads, PageCheck, Rendered;
      assert forall n :: Lay(w, v, call.key, n) ==> n == m;
    }

    lemma LoadsItsOwn(key: Key, m: Manifest, pipeline: string, sourceHash: string, c: Call)
      requires Loads(m, pipeline, sourceHash, revision) && PairedBy(disk.h, key, m, c)
      ensures c.pipeline == pipeline && c.revision == revision
    {
    }

    lemma SameRendered(w: World, v: World, c: Call, pipeline: string, sourceHash: string, image: string)
      requires SameFiles(w, v) && Rendered(w, c, pipeline, sourceHash, image)
      ensures Rendered(v, c, pipeline, sourceHash, image)
    {
    }

    /**
     This call rendered an image of this digest for this page, under the cache's own
     revision: this very image, or a pair of texts of the run has collided.
     */
    ghost predicate Rendered(w: World, c: Call, pipeline: string, sourceHash: string, image: string)
    {
      && PathOf(pipeline, sourceHash) == Some(c.key) && c.pipeline == pipeline && c.revision == revision
      && disk.h(c.rendered) == disk.h(image)
      && (Separates(disk.h, w.written) ==> c.rendered == image)
    }
  }

  lemma KeyOfPath(pipeline: string, sourceHash: string)
    requires PathOf(pipeline, sourceHash).Some?
    ensures PathOf(pipeline, sourceHash).value.sourceHash == sourceHash
  {
  }

  lemma CommitIsOnce(w: World, v: World, me: Pid, key: Key, m: Manifest)
    requires w.log <= v.log && NoCommit(w, v, me)
    ensures CommitsOnce(w, Commits(v, me, key, m), me, key, m)
  {
    var u := Commits(v, me, key, m);
    assert u.log[|v.log|] == Commit(me, key, m);
    forall j | |w.log| <= j < |u.log| && u.log[j].pid == me ensures j == |v.log| {
    }
  }
}
