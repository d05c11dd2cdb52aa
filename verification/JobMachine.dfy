/**
 The job protocol between the Go submitters and the Python workers, as a state
 machine over the Redis keys they share.  One action is one Redis command (or
 one MULTI/EXEC transaction), so a run may interleave any number of submit
 calls and workers and may stop any of them between two commands.
 Sources: server/queue.go and server/worker/consumer.py.
 */
module JobMachine {
  import opened Basics
  import opened Doubles

  type JobId = nat
  type WorkerId = nat

  /** What latestMarkerFor hands out for an interactive Kindle page. */
  datatype Latest = Latest(key: string, token: string, seqNo: int)

  datatype Priority = High | Low

  /** One call of SubmitJob: `forced` is RerenderFromMetadata or ForceReprocess. */
  datatype Request = Request(
    field: string, imageHash: string, revision: string,
    priority: Priority, forced: bool, latest: Option<Latest>)
  {
    /** latestMarkerFor answers only for high-priority pages with a positive sequence. */
    predicate Valid() {
      latest.Some? ==> priority == High && latest.value.seqNo > 0
    }

    predicate ForceNew() {
      forced || latest.Some?
    }
  }

  /** A stream entry; `copied` is the deferred_from_high mark. */
  datatype Entry = Entry(
    job: JobId, imageHash: string, revision: string, latest: Option<Latest>, copied: bool)

  datatype Mark = Mark(seqNo: int, token: string)

  /** A stream with its one consumer group: entry ids are positions. */
  datatype Stream = Stream(entries: seq<Entry>, delivered: nat, pending: map<nat, WorkerId>)

  /** What a result says: what rendering came to, or why it was not tried. */
  datatype Status = Rendered(ok: bool) | OtherRevision | NoImage | NoMetadata

  datatype Db = Db(
    dedup: map<string, JobId>,
    markers: map<string, Mark>,
    images: set<string>,
    high: Stream,
    low: Stream,
    results: map<JobId, Status>)

  /** A stream position. */
  datatype Ref = Ref(stream: Priority, id: nat)

  datatype SubmitPc =
    | Looking
    | Evicting
    | Reserving
    | Rereading
    | Touching
    | StoringImage
    | Enqueuing
    | Releasing
    | Returned(job: JobId, hit: bool)
    | Errored

  datatype Submit = Submit(req: Request, pc: SubmitPc)

  datatype WorkerPc =
    | Idle
    | Deciding(at: Ref)
    | Deferring(at: Ref)
    | Working(at: Ref)
    | Storing(at: Ref, status: Status)
    | Notifying(at: Ref)
    | AckingResult(at: Ref)
    | AckingCopy(at: Ref, copy: nat)

  datatype Worker = Worker(revision: string, pc: WorkerPc, backlog: seq<Ref>)

  /**
   What happened so far, kept only to state properties: the position each job
   was first queued at, the results stored, the jobs whose result was announced or
   has been dropped since, the marks submitted to each key since it last expired,
   the jobs whose mark is one of those, and what went wrong.
   */
  datatype History = History(
    queued: map<JobId, Ref>,
    stored: set<(JobId, Status)>,
    announced: set<JobId>,
    dropped: set<JobId>,
    marks: map<string, seq<Mark>>,
    recorded: set<(JobId, Latest)>,
    lapsed: set<string>,
    faulted: set<string>)

  datatype World = World(
    db: Db, submits: map<JobId, Submit>, workers: map<WorkerId, Worker>, hist: History)

  function Init(): World {
    var empty := Stream([], 0, map[]);
    World(Db(map[], map[], {}, empty, empty, map[]), map[], map[],
          History(map[], {}, {}, {}, map[], {}, {}, {}))
  }

  /** The commands of one SubmitJob call, in program order, and its failures. */
  datatype SubmitCommand =
    | Begin(req: Request)
    | Lookup(stale: bool)
    | Evict(lost: bool)
    | Reserve
    | Reread
    | Touch
    | StoreImage
    | Enqueue
    | Release(lost: bool)
    | Fault(applied: bool)

  /** The commands of one worker. */
  datatype WorkerCommand =
    | Join(revision: string)
    | Read(stream: Priority)
    | Claim(stream: Priority, ids: seq<nat>)
    | Next
    | Decide
    | CopyLow
    | Process(ready: bool, ok: bool)
    | StoreResult
    | Announce
    | Ack
    | Abandon

  /** Keys that expire by themselves, and CancelJob. */
  datatype Lapse = ExpireDedup | ExpireMarker(key: string) | DropResult(job: JobId)

  datatype Action =
    | BySubmitter(job: JobId, submit: SubmitCommand)
    | ByWorker(worker: WorkerId, work: WorkerCommand)
    | ByRedis(lapse: Lapse)

  // ----- streams -------------------------------------------------------------

  function StreamOf(db: Db, which: Priority): Stream {
    if which == High then db.high else db.low
  }

  function WithStream(db: Db, which: Priority, s: Stream): Db {
    if which == High then db.(high := s) else db.(low := s)
  }

  predicate IsEntry(db: Db, at: Ref) {
    at.id < |StreamOf(db, at.stream).entries|
  }

  function EntryAt(db: Db, at: Ref): Entry
    requires IsEntry(db, at)
  {
    StreamOf(db, at.stream).entries[at.id]
  }

  function Add(db: Db, which: Priority, e: Entry): Db {
    var s := StreamOf(db, which);
    WithStream(db, which, s.(entries := s.entries + [e]))
  }

  // ----- submitters ----------------------------------------------------------

  predicate At(w: World, job: JobId, pc: SubmitPc) {
    job in w.submits && w.submits[job].pc == pc
  }

  function Goto(w: World, job: JobId, pc: SubmitPc): World
    requires job in w.submits
  {
    w.(submits := w.submits[job := w.submits[job].(pc := pc)])
  }

  /** The commands that can fail with an error the call reports. */
  predicate CanFault(pc: SubmitPc) {
    pc in {Looking, Reserving, Rereading, Touching, StoringImage, Enqueuing}
  }

  function EntryOf(job: JobId, req: Request): Entry {
    Entry(job, req.imageHash, req.revision, req.latest, false)
  }

  /** latestMarkerUpdateLua: sequences are compared as Lua numbers, which are doubles, and stored as they came. */
  function UpdateMarker(markers: map<string, Mark>, l: Latest): map<string, Mark> {
    if l.key in markers && DoubleOf(markers[l.key].seqNo) > DoubleOf(l.seqNo)
    then markers
    else markers[l.key := Mark(l.seqNo, l.token)]
  }

  function MarksOf(h: History, key: string): seq<Mark> {
    if key in h.marks then h.marks[key] else []
  }

  /** The enqueue transaction: XADD, with the marker update in front of it. */
  function EnqueueEffect(w: World, job: JobId): World
    requires job in w.submits
  {
    var req := w.submits[job].req;
    var at := Ref(req.priority, |StreamOf(w.db, req.priority).entries|);
    var w1 := w.(db := Add(w.db, req.priority, EntryOf(job, req)),
                 hist := w.hist.(queued := w.hist.queued[job := at]));
    match req.latest
    case None => w1
    case Some(l) =>
      w1.(db := w1.db.(markers := UpdateMarker(w1.db.markers, l)),
          hist := w1.hist.(marks := w1.hist.marks[l.key := MarksOf(w1.hist, l.key) + [Mark(l.seqNo, l.token)]],
                           recorded := w1.hist.recorded + {(job, l)}))
  }

  function ReserveEffect(w: World, job: JobId): World
    requires job in w.submits
  {
    var field := w.submits[job].req.field;
    if field in w.db.dedup then w else w.(db := w.db.(dedup := w.db.dedup[field := job]))
  }

  /** releaseDedupReservationLua: delete only while the field still names this job. */
  function ReleaseEffect(w: World, job: JobId): World
    requires job in w.submits
  {
    var field := w.submits[job].req.field;
    if field in w.db.dedup && w.db.dedup[field] == job
    then w.(db := w.db.(dedup := w.db.dedup - {field}))
    else w
  }

  /** The unconditional HDEL of a stale hit. */
  function EvictEffect(w: World, job: JobId): World
    requires job in w.submits
  {
    var field := w.submits[job].req.field;
    w.(db := w.db.(dedup := w.db.dedup - {field}), hist := w.hist.(lapsed := w.hist.lapsed + {field}))
  }

  /** What the command at `pc` does to the shared state. */
  function Effect(w: World, job: JobId): World
    requires job in w.submits
  {
    match w.submits[job].pc
    case Reserving => ReserveEffect(w, job)
    case StoringImage => w.(db := w.db.(images := w.db.images + {w.submits[job].req.imageHash}))
    case Enqueuing => EnqueueEffect(w, job)
    case _ => w
  }

  /** What no submit command touches, and what only the enqueue does. */
  lemma EffectFrame(w: World, job: JobId)
    requires job in w.submits
    ensures var v := Effect(w, job);
      && v.submits == w.submits && v.workers == w.workers && w.db.images <= v.db.images && v.db.results == w.db.results
      && v.hist == w.hist.(queued := v.hist.queued, marks := v.hist.marks, recorded := v.hist.recorded)
      && (w.submits[job].pc != Enqueuing ==>
            && v.hist == w.hist
            && v.db.high == w.db.high && v.db.low == w.db.low && v.db.markers == w.db.markers)
      && (w.submits[job].pc == Enqueuing ==>
            && v == EnqueueEffect(w, job)
            && v.db.high == StreamOf(Add(w.db, w.submits[job].req.priority, EntryOf(job, w.submits[job].req)), High)
            && v.db.low == StreamOf(Add(w.db, w.submits[job].req.priority, EntryOf(job, w.submits[job].req)), Low))
  {
  }

  function AfterFault(w: World, job: JobId): SubmitPc
    requires job in w.submits
  {
    var s := w.submits[job];
    match s.pc
    case Looking => Reserving
    case Touching => Releasing
    case StoringImage => if s.req.ForceNew() then Errored else Releasing
    case Enqueuing => if s.req.ForceNew() then Errored else Releasing
    case _ => Errored
  }

  function NoteFault(w: World, job: JobId): World
    requires job in w.submits
  {
    w.(hist := w.hist.(faulted := w.hist.faulted + {w.submits[job].req.field}))
  }

  // ----- workers -------------------------------------------------------------

  function SetPc(w: World, worker: WorkerId, pc: WorkerPc): World
    requires worker in w.workers
  {
    w.(workers := w.workers[worker := w.workers[worker].(pc := pc)])
  }

  /** The marker check of _defer_stale_interactive_job. */
  predicate IsStale(db: Db, at: Ref)
    requires IsEntry(db, at)
  {
    var latest := EntryAt(db, at).latest;
    && at.stream == High
    && latest.Some?
    && latest.value.token != ""
    && latest.value.key != ""
    && latest.value.key in db.markers
    && db.markers[latest.value.key].token != latest.value.token
  }

  /** The first thing _process_message settles about a message. */
  function Verdict(w: World, worker: WorkerId, at: Ref): WorkerPc
    requires worker in w.workers && IsEntry(w.db, at)
  {
    if EntryAt(w.db, at).revision != w.workers[worker].revision then Storing(at, OtherRevision)
    else if IsStale(w.db, at) then Deferring(at)
    else Working(at)
  }

  function Deliver(s: Stream, worker: WorkerId): Stream {
    Stream(s.entries, s.delivered + 1, s.pending[s.delivered := worker])
  }

  function Refs(which: Priority, ids: seq<nat>): seq<Ref> {
    seq(|ids|, i requires 0 <= i < |ids| => Ref(which, ids[i]))
  }

  function Owned(pending: map<nat, WorkerId>, ids: seq<nat>, worker: WorkerId): map<nat, WorkerId> {
    map id | id in pending :: if id in ids then worker else pending[id]
  }

  const CLAIM_COUNT := 10

  // ----- the machine ---------------------------------------------------------

  predicate CanSubmit(w: World, job: JobId, c: SubmitCommand) {
    match c
    case Begin(req) => job !in w.submits && req.Valid()
    case Lookup(stale) => At(w, job, Looking) && (stale ==> w.submits[job].req.field in w.db.dedup)
    case Evict(lost) => At(w, job, Evicting)
    case Reserve => At(w, job, Reserving)
    case Reread => At(w, job, Rereading)
    case Touch => At(w, job, Touching)
    case StoreImage => At(w, job, StoringImage)
    case Enqueue => At(w, job, Enqueuing)
    case Release(lost) => At(w, job, Releasing)
    case Fault(applied) => job in w.submits && CanFault(w.submits[job].pc)
  }

  function Submitted(w: World, job: JobId, c: SubmitCommand): World
    requires CanSubmit(w, job, c)
  {
    match c
    case Begin(req) =>
      w.(submits := w.submits[job := Submit(req, if req.ForceNew() then StoringImage else Looking)])
    case Lookup(stale) =>
      var field := w.submits[job].req.field;
      Goto(w, job, if field !in w.db.dedup then Reserving
                   else if stale then Evicting
                   else Returned(w.db.dedup[field], true))
    case Evict(lost) => Goto(if lost then w else EvictEffect(w, job), job, Reserving)
    case Reserve =>
      Goto(Effect(w, job), job, if w.submits[job].req.field in w.db.dedup then Rereading else Touching)
    case Reread =>
      var field := w.submits[job].req.field;
      Goto(w, job, if field in w.db.dedup then Returned(w.db.dedup[field], true) else Errored)
    case Touch => Goto(w, job, StoringImage)
    case StoreImage => Goto(Effect(w, job), job, Enqueuing)
    case Enqueue => Goto(Effect(w, job), job, Returned(job, false))
    case Release(lost) => Goto(if lost then w else ReleaseEffect(w, job), job, Errored)
    case Fault(applied) =>
      NoteFault(Goto(if applied then Effect(w, job) else w, job, AfterFault(w, job)), job)
  }

  /** The command takes effect as an enqueue. */
  predicate Queues(w: World, job: JobId, c: SubmitCommand)
    requires CanSubmit(w, job, c)
  {
    c == Enqueue || (c.Fault? && c.applied && w.submits[job].pc == Enqueuing)
  }

  /** No other command of a call touches a stream, a marker or the record of either. */
  lemma QuietSubmit(w: World, job: JobId, c: SubmitCommand)
    requires CanSubmit(w, job, c) && !Queues(w, job, c)
    ensures var v := Submitted(w, job, c);
      && v.db.high == w.db.high && v.db.low == w.db.low && v.db.markers == w.db.markers && v.workers == w.workers
      && v.hist.queued == w.hist.queued && v.hist.marks == w.hist.marks && v.hist.recorded == w.hist.recorded
      && forall j | j in w.submits :: j in v.submits && v.submits[j].req == w.submits[j].req
  {
    hide Effect;
    if job in w.submits {
      EffectFrame(w, job);
    }
  }

  predicate CanWork(w: World, worker: WorkerId, c: WorkerCommand) {
    if c.Join? then worker !in w.workers else
    && worker in w.workers
    && var k := w.workers[worker];
       match c
       case Read(which) =>
         k.pc == Idle && k.backlog == [] && StreamOf(w.db, which).delivered < |StreamOf(w.db, which).entries|
       case Claim(which, ids) =>
         && k.pc == Idle && k.backlog == [] && |ids| <= CLAIM_COUNT
         && forall i | 0 <= i < |ids| :: ids[i] in StreamOf(w.db, which).pending
       case Next => k.pc == Idle && k.backlog != []
       case Decide => k.pc.Deciding? && IsEntry(w.db, k.pc.at)
       case CopyLow => k.pc.Deferring? && IsEntry(w.db, k.pc.at)
       case Process(_, _) => k.pc.Working? && IsEntry(w.db, k.pc.at)
       case StoreResult => k.pc.Storing? && IsEntry(w.db, k.pc.at)
       case Announce => k.pc.Notifying? && IsEntry(w.db, k.pc.at)
       case Ack => k.pc.AckingResult? || k.pc.AckingCopy?
       case Abandon => true
  }

  function Worked(w: World, worker: WorkerId, c: WorkerCommand): World
    requires CanWork(w, worker, c)
  {
    if c.Join? then w.(workers := w.workers[worker := Worker(c.revision, Idle, [])]) else
    var k := w.workers[worker];
    match c
    case Read(which) =>
      var s := StreamOf(w.db, which);
      SetPc(w.(db := WithStream(w.db, which, Deliver(s, worker))), worker, Deciding(Ref(which, s.delivered)))
    case Claim(which, ids) =>
      var s := StreamOf(w.db, which);
      w.(db := WithStream(w.db, which, s.(pending := Owned(s.pending, ids, worker))),
         workers := w.workers[worker := k.(backlog := Refs(which, ids))])
    case Next =>
      w.(workers := w.workers[worker := k.(pc := Deciding(k.backlog[0]), backlog := k.backlog[1..])])
    case Decide => SetPc(w, worker, Verdict(w, worker, k.pc.at))
    case CopyLow =>
      SetPc(w.(db := Add(w.db, Low, EntryAt(w.db, k.pc.at).(copied := true))), worker,
            AckingCopy(k.pc.at, |w.db.low.entries|))
    case Process(ready, ok) =>
      var found := EntryAt(w.db, k.pc.at).imageHash in w.db.images;
      SetPc(w, worker, Storing(k.pc.at, if !found then NoImage else if !ready then NoMetadata else Rendered(ok)))
    case StoreResult =>
      var job := EntryAt(w.db, k.pc.at).job;
      SetPc(w.(db := w.db.(results := w.db.results[job := k.pc.status]),
               hist := w.hist.(stored := w.hist.stored + {(job, k.pc.status)}, dropped := w.hist.dropped - {job})),
            worker, Notifying(k.pc.at))
    case Announce =>
      var job := EntryAt(w.db, k.pc.at).job;
      SetPc(w.(hist := w.hist.(announced := w.hist.announced + {job})), worker, AckingResult(k.pc.at))
    case Ack =>
      var s := StreamOf(w.db, k.pc.at.stream);
      SetPc(w.(db := WithStream(w.db, k.pc.at.stream, s.(pending := s.pending - {k.pc.at.id}))), worker, Idle)
    case Abandon => w.(workers := w.workers[worker := k.(pc := Idle, backlog := [])])
  }

  function Lapsed(w: World, c: Lapse): World {
    match c
    case ExpireDedup =>
      w.(db := w.db.(dedup := map[]), hist := w.hist.(lapsed := w.hist.lapsed + w.db.dedup.Keys))
    case ExpireMarker(key) =>
      w.(db := w.db.(markers := w.db.markers - {key}),
         hist := w.hist.(marks := w.hist.marks - {key}, recorded := set r | r in w.hist.recorded && r.1.key != key))
    case DropResult(job) =>
      if job !in w.db.results then w
      else w.(db := w.db.(results := w.db.results - {job}), hist := w.hist.(dropped := w.hist.dropped + {job}))
  }

  predicate Enabled(w: World, a: Action) {
    match a
    case BySubmitter(job, c) => CanSubmit(w, job, c)
    case ByWorker(worker, c) => CanWork(w, worker, c)
    case ByRedis(c) => true
  }

  function Apply(w: World, a: Action): World
    requires Enabled(w, a)
  {
    match a
    case BySubmitter(job, c) => Submitted(w, job, c)
    case ByWorker(worker, c) => Worked(w, worker, c)
    case ByRedis(c) => Lapsed(w, c)
  }

  // ----- runs ----------------------------------------------------------------

  /** Every action of the run is enabled where it is taken. */
  predicate IsRun(w: World, run: seq<Action>)
    decreases |run|
  {
    run == [] || (Enabled(w, run[0]) && IsRun(Apply(w, run[0]), run[1..]))
  }

  function Exec(w: World, run: seq<Action>): World
    requires IsRun(w, run)
    decreases |run|
  {
    if run == [] then w else Exec(Apply(w, run[0]), run[1..])
  }

  lemma {:induction false} RunExtends(w: World, run: seq<Action>, a: Action)
    requires IsRun(w, run) && Enabled(Exec(w, run), a)
    ensures IsRun(w, run + [a]) && Exec(w, run + [a]) == Apply(Exec(w, run), a)
    decreases |run|
  {
    if run == [] {
      assert IsRun(Apply(w, a), []);
    } else {
      RunExtends(Apply(w, run[0]), run[1..], a);
      assert (run + [a])[1..] == run[1..] + [a];
    }
  }

  ghost predicate Reaches(run: seq<Action>, w: World) {
    IsRun(Init(), run) && Exec(Init(), run) == w
  }

  /** Some run, of any length and any interleaving, leads here. */
  ghost predicate Reachable(w: World) {
    exists run :: Reaches(run, w)
  }

  lemma ReachableStep(w: World, a: Action)
    requires Reachable(w) && Enabled(w, a)
    ensures Reachable(Apply(w, a))
  {
    var run :| Reaches(run, w);
    RunExtends(Init(), run, a);
    assert Reaches(run + [a], Apply(w, a));
  }

  lemma InitReachable()
    ensures Reachable(Init())
  {
    assert Reaches([], Init());
  }
}
