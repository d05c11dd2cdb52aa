/**
 The files of the page cache (server/worker/page_cache.py and the metadata path of
 server/cache.go) as a machine of atomic steps: any number of processes put objects,
 read manifests and replace manifests, each may stop between any two steps, and any
 object may rot on disk.
 */
module CacheMachine {
  import opened Basics
  import opened JsonTree
  import opened ArtifactRefs
  import opened PyText

  type Pid = nat

  /** The directory of a manifest. */
  datatype Key = Key(pipeline: string, sourceHash: string)

  datatype Manifest = Manifest(
    schema: int,
    pipeline: string,
    revision: Option<string>,
    sourceHash: string,
    source: string,
    image: string,
    metadata: string,
    artifacts: set<string>,
    contentHash: string,
    renderHash: string,
    stale: bool)

  /** One call of store_page, its metadata already in canonical text. */
  datatype Call = Call(
    key: Key,
    pipeline: string,
    revision: string,
    source: string,
    rendered: string,
    text: string)

  /** What a process knows: digests it has stored or verified, a manifest it has read, its own call. */
  datatype Local = Local(seen: set<string>, base: Option<(Key, Manifest)>, call: Option<Call>)

  datatype Commit = Commit(pid: Pid, key: Key, manifest: Manifest)

  /** `log`, `calls`, `rotted` and `written` only remember what happened; the last is every text some file held or was to hold. */
  datatype World = World(
    objects: map<string, string>,
    manifests: map<Key, Manifest>,
    locals: map<Pid, Local>,
    log: seq<Commit>,
    calls: set<Call>,
    rotted: set<string>,
    written: set<string>)

  /** SHA-256 of a file's bytes; every text is one file. */
  type Hash = string -> string

  ghost predicate IsHash(h: Hash) {
    forall s :: IsSha(h(s))
  }

  /** No two of these texts collide. */
  ghost predicate Separates(h: Hash, texts: set<string>) {
    forall s, t | s in texts && t in texts && h(s) == h(t) :: s == t
  }

  // ----- manifests ------------------------------------------------------------------------

  const SCHEMA := 4

  function RenderHash(h: Hash, content: string, image: string): string {
    h("v2|" + content + "|" + image)
  }

  /** A metadata file a reader can parse, every reference in it well formed. */
  predicate Readable(text: string) {
    Parse(text).Some? && RefsValid(Parse(text).value)
  }

  function RefsOf(text: string): set<string> {
    if Readable(text) then Refs(Parse(text).value) else {}
  }

  predicate PathChar(c: char) {
    'A' <= c <= 'Z' || 'a' <= c <= 'z' || '0' <= c <= '9' || c == '.' || c == '_' || c == '-'
  }

  /** _safe_component, with "" for a refused name. */
  function SafeComponent(value: string): string {
    var v := Strip(value);
    if v == "" || v == "." || v == ".." then ""
    else if forall i | 0 <= i < |v| :: PathChar(v[i]) then v
    else ""
  }

  function PathOf(pipeline: string, sourceHash: string): Option<Key> {
    var p := SafeComponent(pipeline);
    if p == "" || !IsSha(sourceHash) then None else Some(Key(p, sourceHash))
  }

  /** The manifest store_page writes. */
  function Fresh(h: Hash, c: Call): Manifest {
    Manifest(SCHEMA, c.pipeline, Some(c.revision), c.key.sourceHash, h(c.source), h(c.rendered), h(c.text),
             RefsOf(c.text), h(c.text), RenderHash(h, h(c.text), h(c.rendered)), false)
  }

  /** The manifest a metadata update writes. */
  function Edited(h: Hash, m: Manifest, revision: string, text: string): Manifest {
    m.(schema := SCHEMA, revision := Some(revision), metadata := h(text), contentHash := h(text),
       renderHash := RenderHash(h, h(text), m.image), stale := true)
  }

  // ----- steps ------------------------------------------------------------------------------

  datatype Action =
    | Join(pid: Pid)
    | Begin(pid: Pid, call: Call)
    | Put(pid: Pid, data: string)
    | Verify(pid: Pid, sha: string)
    | Fetch(pid: Pid, key: Key)
    | Store(pid: Pid)
    | Edit(pid: Pid, revision: string, text: string)
    | Stop(pid: Pid)
    | Rot(sha: string, data: string)

  predicate CanBegin(h: Hash, c: Call) {
    && PathOf(c.pipeline, c.key.sourceHash) == Some(c.key)
    && h(c.source) == c.key.sourceHash
    && Readable(c.text)
  }

  predicate Intact(h: Hash, w: World, sha: string) {
    sha in w.objects && h(w.objects[sha]) == sha
  }

  predicate CanStore(h: Hash, k: Local) {
    && k.call.Some? && Readable(k.call.value.text)
    && var c := k.call.value;
       RefsOf(c.text) + {h(c.source), h(c.rendered), h(c.text)} <= k.seen
  }

  predicate CanEdit(h: Hash, k: Local, text: string) {
    && k.base.Some? && Readable(text)
    && RefsOf(text) <= k.base.value.1.artifacts
    && RefsOf(text) + {h(text)} <= k.seen
  }

  predicate Enabled(h: Hash, w: World, a: Action) {
    if a.Rot? then a.sha in w.objects
    else if a.Join? then a.pid !in w.locals
    else
      && a.pid in w.locals
      && var k := w.locals[a.pid];
         match a
         case Begin(_, c) => CanBegin(h, c)
         case Verify(_, sha) => Intact(h, w, sha)
         case Fetch(_, key) => key in w.manifests
         case Store(_) => CanStore(h, k)
         case Edit(_, _, text) => CanEdit(h, k, text)
         case _ => true
  }

  function Commits(w: World, pid: Pid, key: Key, m: Manifest): World {
    w.(manifests := w.manifests[key := m], log := w.log + [Commit(pid, key, m)])
  }

  function Learn(w: World, pid: Pid, sha: string): World
    requires pid in w.locals
  {
    w.(locals := w.locals[pid := w.locals[pid].(seen := w.locals[pid].seen + {sha})])
  }

  function TextsOf(c: Call): set<string> {
    {c.source, c.rendered, c.text}
  }

  function Apply(h: Hash, w: World, a: Action): World
    requires Enabled(h, w, a)
  {
    match a
    case Join(pid) => w.(locals := w.locals[pid := Local({}, None, None)])
    case Begin(pid, c) =>
      w.(locals := w.locals[pid := w.locals[pid].(call := Some(c))], calls := w.calls + {c},
         written := w.written + TextsOf(c))
    case Put(pid, data) =>
      Learn(w.(objects := w.objects[h(data) := data], written := w.written + {data}), pid, h(data))
    case Verify(pid, sha) => Learn(w, pid, sha)
    case Fetch(pid, key) =>
      w.(locals := w.locals[pid := w.locals[pid].(base := Some((key, w.manifests[key])))])
    case Store(pid) =>
      var c := w.locals[pid].call.value;
      Commits(w, pid, c.key, Fresh(h, c))
    case Edit(pid, revision, text) =>
      var (key, m) := w.locals[pid].base.value;
      Commits(w.(written := w.written + {text}), pid, key, Edited(h, m, revision, text))
    case Stop(pid) => w.(locals := w.locals - {pid})
    case Rot(sha, data) =>
      w.(objects := w.objects[sha := data], rotted := w.rotted + {sha}, written := w.written + {data})
  }

  // ----- runs -------------------------------------------------------------------------------

  function Empty(): World {
    World(map[], map[], map[], [], {}, {}, {})
  }

  predicate IsRun(h: Hash, w: World, run: seq<Action>)
    decreases |run|
  {
    run == [] || (Enabled(h, w, run[0]) && IsRun(h, Apply(h, w, run[0]), run[1..]))
  }

  function Exec(h: Hash, w: World, run: seq<Action>): World
    requires IsRun(h, w, run)
    decreases |run|
  {
    if run == [] then w else Exec(h, Apply(h, w, run[0]), run[1..])
  }

  ghost predicate Reaches(h: Hash, run: seq<Action>, w: World) {
    IsRun(h, Empty(), run) && Exec(h, Empty(), run) == w
  }

  /** Some run, of any length and any interleaving, leads here. */
  ghost predicate Reachable(h: Hash, w: World) {
    exists run :: Reaches(h, run, w)
  }

  lemma {:induction false} RunExtends(h: Hash, w: World, run: seq<Action>, a: Action)
    requires IsRun(h, w, run) && Enabled(h, Exec(h, w, run), a)
    ensures IsRun(h, w, run + [a]) && Exec(h, w, run + [a]) == Apply(h, Exec(h, w, run), a)
    decreases |run|
  {
    hide Enabled, Apply;
    if run == [] {
      assert IsRun(h, Apply(h, w, a), []);
    } else {
      RunExtends(h, Apply(h, w, run[0]), run[1..], a);
      assert (run + [a])[1..] == run[1..] + [a];
    }
  }

  lemma ReachableStep(h: Hash, w: World, a: Action)
    requires Reachable(h, w) && Enabled(h, w, a)
    ensures Reachable(h, Apply(h, w, a))
  {
    var run :| Reaches(h, run, w);
    RunExtends(h, Empty(), run, a);
    assert Reaches(h, run + [a], Apply(h, w, a));
  }

  lemma EmptyReachable(h: Hash)
    ensures Reachable(h, Empty())
  {
    assert Reaches(h, [], Empty());
  }

  // ----- the invariant ------------------------------------------------------------------------

  /** The call this manifest's image and metadata both come from. */
  predicate PairedBy(h: Hash, key: Key, m: Manifest, c: Call) {
    && c.key == key && c.pipeline == m.pipeline && m.revision == Some(c.revision)
    && h(c.source) == m.source && h(c.rendered) == m.image && h(c.text) == m.metadata
  }

  predicate Describes(h: Hash, m: Manifest, text: string) {
    h(text) == m.metadata && Readable(text) && RefsOf(text) <= m.artifacts
  }

  ghost predicate Sound(h: Hash, w: World, key: Key, m: Manifest) {
    && PathOf(m.pipeline, m.sourceHash) == Some(key)
    && m.source == m.sourceHash
    && m.artifacts + {m.source, m.image, m.metadata} <= w.objects.Keys
    && m.contentHash == m.metadata
    && m.renderHash == RenderHash(h, m.contentHash, m.image)
    && (exists text :: text in w.written && Describes(h, m, text))
    && (!m.stale ==> exists c :: c in w.calls && PairedBy(h, key, m, c))
  }

  predicate Logged(w: World, key: Key, m: Manifest) {
    exists i | 0 <= i < |w.log| :: w.log[i].key == key && w.log[i].manifest == m
  }

  ghost predicate LocalInv(h: Hash, w: World, k: Local) {
    && k.seen <= w.objects.Keys
    && (k.base.Some? ==> Logged(w, k.base.value.0, k.base.value.1))
    && (k.call.Some? ==> CanBegin(h, k.call.value) && k.call.value in w.calls && TextsOf(k.call.value) <= w.written)
  }

  ghost predicate Inv(h: Hash, w: World) {
    && (forall sha | sha in w.objects :: (sha in w.rotted || h(w.objects[sha]) == sha) && w.objects[sha] in w.written)
    && (forall c | c in w.calls :: TextsOf(c) <= w.written)
    && (forall key | key in w.manifests :: Logged(w, key, w.manifests[key]))
    && (forall i | 0 <= i < |w.log| :: Sound(h, w, w.log[i].key, w.log[i].manifest))
    && (forall pid | pid in w.locals :: LocalInv(h, w, w.locals[pid]))
  }

  /** Nothing that was there goes away. */
  ghost predicate Grows(w: World, v: World) {
    && w.objects.Keys <= v.objects.Keys
    && w.log <= v.log
    && w.calls <= v.calls
    && w.rotted <= v.rotted
    && w.written <= v.written
  }

  lemma GrowsKeepsSound(h: Hash, w: World, v: World, key: Key, m: Manifest)
    requires Grows(w, v) && Sound(h, w, key, m)
    ensures Sound(h, v, key, m)
  {
    hide PathOf, Readable, RefsOf, Describes, PairedBy;
  }

  lemma GrowsKeepsLogged(w: World, v: World, key: Key, m: Manifest)
    requires w.log <= v.log && Logged(w, key, m)
    ensures Logged(v, key, m)
  {
    var i :| 0 <= i < |w.log| && w.log[i].key == key && w.log[i].manifest == m;
    assert v.log[i] == w.log[i];
  }

  lemma GrowsKeepsLocal(h: Hash, w: World, v: World, k: Local)
    requires Grows(w, v) && LocalInv(h, w, k)
    ensures LocalInv(h, v, k)
  {
    hide CanBegin, Logged;
    if k.base.Some? {
      GrowsKeepsLogged(w, v, k.base.value.0, k.base.value.1);
    }
  }

  lemma LoggedIsSound(h: Hash, w: World, key: Key, m: Manifest)
    requires Inv(h, w) && Logged(w, key, m)
    ensures Sound(h, w, key, m)
  {
    hide Sound, LocalInv;
  }

  lemma FreshIsSound(h: Hash, w: World, k: Local)
    requires LocalInv(h, w, k) && CanStore(h, k)
    ensures Sound(h, w, k.call.value.key, Fresh(h, k.call.value))
  {
    var c := k.call.value;
    hide PathOf, Readable, RefsOf;
    assert Describes(h, Fresh(h, c), c.text);
    assert PairedBy(h, c.key, Fresh(h, c), c);
  }

  lemma EditedIsSound(h: Hash, w: World, k: Local, revision: string, text: string)
    requires LocalInv(h, w, k) && CanEdit(h, k, text) && text in w.written
    requires Sound(h, w, k.base.value.0, k.base.value.1)
    ensures Sound(h, w, k.base.value.0, Edited(h, k.base.value.1, revision, text))
  {
    hide PathOf, Readable, RefsOf, Logged;
    assert Describes(h, Edited(h, k.base.value.1, revision, text), text);
  }

  lemma CommitKeepsInv(h: Hash, w: World, pid: Pid, key: Key, m: Manifest)
    requires Inv(h, w) && Sound(h, w, key, m)
    ensures Inv(h, Commits(w, pid, key, m))
  {
    var v := Commits(w, pid, key, m);
    hide Sound, LocalInv, Logged;
    forall i | 0 <= i < |v.log| ensures Sound(h, v, v.log[i].key, v.log[i].manifest) {
      if i < |w.log| {
        GrowsKeepsSound(h, w, v, w.log[i].key, w.log[i].manifest);
      } else {
        GrowsKeepsSound(h, w, v, key, m);
      }
    }
    forall other | other in v.manifests ensures Logged(v, other, v.manifests[other]) {
      if other == key {
        LastIsLogged(w, pid, key, m);
      } else {
        GrowsKeepsLogged(w, v, other, w.manifests[other]);
      }
    }
    forall p | p in v.locals ensures LocalInv(h, v, v.locals[p]) {
      GrowsKeepsLocal(h, w, v, w.locals[p]);
    }
  }

  lemma LastIsLogged(w: World, pid: Pid, key: Key, m: Manifest)
    ensures Logged(Commits(w, pid, key, m), key, m)
  {
    assert Commits(w, pid, key, m).log[|w.log|] == Commit(pid, key, m);
  }

  /** Steps that write no manifest keep the invariant when they keep it for the object and the process they touch. */
  lemma QuietKeepsInv(h: Hash, w: World, v: World)
    requires Inv(h, w) && Grows(w, v) && v.log == w.log && v.manifests == w.manifests
    requires forall sha | sha in v.objects ::
               (sha in v.rotted || h(v.objects[sha]) == sha) && v.objects[sha] in v.written
    requires forall c | c in v.calls :: TextsOf(c) <= v.written
    requires forall pid | pid in v.locals :: LocalInv(h, v, v.locals[pid])
    ensures Inv(h, v)
  {
    hide Sound, LocalInv, Logged;
    forall i | 0 <= i < |v.log| ensures Sound(h, v, v.log[i].key, v.log[i].manifest) {
      GrowsKeepsSound(h, w, v, w.log[i].key, w.log[i].manifest);
    }
    forall key | key in v.manifests ensures Logged(v, key, v.manifests[key]) {
      GrowsKeepsLogged(w, v, key, w.manifests[key]);
    }
  }

  lemma WrittenKeepsInv(h: Hash, w: World, text: string)
    requires Inv(h, w)
    ensures Inv(h, w.(written := w.written + {text}))
  {
    var v := w.(written := w.written + {text});
    forall pid | pid in v.locals ensures LocalInv(h, v, v.locals[pid]) {
      GrowsKeepsLocal(h, w, v, w.locals[pid]);
    }
    hide Sound, LocalInv, Logged;
    QuietKeepsInv(h, w, v);
  }

  lemma StepKeepsInv(h: Hash, w: World, a: Action)
    requires Inv(h, w) && Enabled(h, w, a)
    ensures Inv(h, Apply(h, w, a))
  {
    if a.Store? {
      FreshIsSound(h, w, w.locals[a.pid]);
      hide Inv, Sound, LocalInv, CanStore, Fresh;
      CommitKeepsInv(h, w, a.pid, w.locals[a.pid].call.value.key, Fresh(h, w.locals[a.pid].call.value));
    } else if a.Edit? {
      var (key, m) := w.locals[a.pid].base.value;
      var u := w.(written := w.written + {a.text});
      WrittenKeepsInv(h, w, a.text);
      LoggedIsSound(h, u, key, m);
      EditedIsSound(h, u, u.locals[a.pid], a.revision, a.text);
      hide Inv, Sound, LocalInv, CanEdit, Edited;
      CommitKeepsInv(h, u, a.pid, key, Edited(h, m, a.revision, a.text));
    } else {
      QuietStepKeepsInv(h, w, a);
    }
  }

  lemma QuietStepKeepsInv(h: Hash, w: World, a: Action)
    requires Inv(h, w) && Enabled(h, w, a) && !a.Store? && !a.Edit?
    ensures Inv(h, Apply(h, w, a))
  {
    var v := Apply(h, w, a);
    QuietFiles(h, w, a);
    QuietLocals(h, w, a);
    QuietGrows(h, w, a);
    hide *;
    QuietKeepsInv(h, w, v);
  }

  lemma QuietGrows(h: Hash, w: World, a: Action)
    requires Enabled(h, w, a) && !a.Store? && !a.Edit?
    ensures var v := Apply(h, w, a); Grows(w, v) && v.log == w.log && v.manifests == w.manifests
  {
  }

  lemma QuietFiles(h: Hash, w: World, a: Action)
    requires Inv(h, w) && Enabled(h, w, a) && !a.Store? && !a.Edit?
    ensures var v := Apply(h, w, a);
      && (forall sha | sha in v.objects :: (sha in v.rotted || h(v.objects[sha]) == sha) && v.objects[sha] in v.written)
      && (forall c | c in v.calls :: TextsOf(c) <= v.written)
  {
    hide Sound, LocalInv, CanBegin, Logged;
  }

  lemma QuietLocals(h: Hash, w: World, a: Action)
    requires Inv(h, w) && Enabled(h, w, a) && !a.Store? && !a.Edit?
    ensures var v := Apply(h, w, a); forall pid | pid in v.locals :: LocalInv(h, v, v.locals[pid])
  {
    hide Sound, CanBegin, CanStore, CanEdit;
    var v := Apply(h, w, a);
    forall pid | pid in v.locals ensures LocalInv(h, v, v.locals[pid]) {
      if pid in w.locals {
        QuietGrows(h, w, a);
        GrowsKeepsLocal(h, w, v, w.locals[pid]);
      }
    }
  }

  lemma {:induction false} RunKeepsInv(h: Hash, w: World, run: seq<Action>)
    requires Inv(h, w) && IsRun(h, w, run)
    ensures Inv(h, Exec(h, w, run))
    decreases |run|
  {
    hide Inv, Apply, Enabled;
    if run != [] {
      StepKeepsInv(h, w, run[0]);
      RunKeepsInv(h, Apply(h, w, run[0]), run[1..]);
    }
  }

  /** In every reachable state every manifest ever written is sound. */
  lemma ReachableIsSound(h: Hash, w: World)
    requires Reachable(h, w)
    ensures Inv(h, w)
  {
    var run :| Reaches(h, run, w);
    RunKeepsInv(h, Empty(), run);
  }

  // ----- what a reader finds --------------------------------------------------------------------

  ghost predicate Kept(h: Hash, w: World, sha: string) {
    sha in w.objects && (sha in w.rotted || h(w.objects[sha]) == sha)
  }

  /**
   In every run, for any hash: a manifest names only objects that are there and, unless
   they rotted, have the digest named; its own hashes match them; and an image not marked
   stale has the digest of what one store_page call rendered, its metadata the digest of
   what the same call wrote.
   */
  lemma ManifestsAreClosed(h: Hash, w: World, key: Key)
    requires Reachable(h, w) && key in w.manifests
    ensures var m := w.manifests[key];
      && m.source == key.sourceHash
      && Kept(h, w, m.source) && Kept(h, w, m.image) && Kept(h, w, m.metadata)
      && (forall d | d in m.artifacts :: Kept(h, w, d))
      && m.contentHash == m.metadata && m.renderHash == h("v2|" + m.contentHash + "|" + m.image)
      && (!m.stale ==> exists c :: c in w.calls && PairedBy(h, key, m, c))
  {
    ReachableIsSound(h, w);
    LoggedIsSound(h, w, key, w.manifests[key]);
    hide Readable, RefsOf, LocalInv, Logged, Describes, PairedBy;
  }

  /**
   Where no two texts of the run collide, digests speak for the bytes: metadata that has
   not rotted parses and refers only to the manifest's artifacts, and an image not marked
   stale is served from the very call that wrote the metadata.
   */
  lemma BytesAreServed(h: Hash, w: World, key: Key)
    requires Reachable(h, w) && key in w.manifests && Separates(h, w.written)
    ensures var m := w.manifests[key];
      && m.image in w.objects && m.metadata in w.objects
      && (m.metadata !in w.rotted ==>
            Readable(w.objects[m.metadata]) && RefsOf(w.objects[m.metadata]) <= m.artifacts)
      && (!m.stale ==> exists c :: c in w.calls && ServedBy(w, key, m, c))
  {
    ReachableIsSound(h, w);
    var m := w.manifests[key];
    LoggedIsSound(h, w, key, m);
    hide PathOf, Readable, RefsOf, LocalInv, Logged;
    var text :| text in w.written && Describes(h, m, text);
    if m.metadata !in w.rotted {
      assert h(w.objects[m.metadata]) == h(text);
    }
    if !m.stale {
      var c :| c in w.calls && PairedBy(h, key, m, c);
      assert TextsOf(c) <= w.written;
      assert m.image !in w.rotted ==> h(w.objects[m.image]) == h(c.rendered);
      assert m.metadata !in w.rotted ==> h(w.objects[m.metadata]) == h(c.text);
      assert ServedBy(w, key, m, c);
    }
  }

  /** Unless they rotted, the files behind the manifest are the ones this call was given. */
  predicate ServedBy(w: World, key: Key, m: Manifest, c: Call)
    requires m.image in w.objects && m.metadata in w.objects
  {
    && c.key == key
    && (m.image !in w.rotted ==> w.objects[m.image] == c.rendered)
    && (m.metadata !in w.rotted ==> w.objects[m.metadata] == c.text)
  }
}
