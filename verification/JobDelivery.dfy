/**
 No job is lost: whatever the interleaving of submitters and workers and
 wherever any of them stops, a queued job is still to be delivered, pending in
 the consumer group, answered, or carried by a copy on the low stream for which
 the same holds.  Nothing here bounds the run or the number of processes.
 */
module JobDelivery {
  import opened JobMachine

  // ----- what every reachable world looks like ---------------------------------

  ghost predicate StreamOk(s: Stream) {
    && s.delivered <= |s.entries|
    && forall id | id in s.pending :: id < s.delivered
  }

  ghost predicate RefOk(db: Db, at: Ref) {
    at.id < StreamOf(db, at.stream).delivered
  }

  /** Position `k` of the low stream carries a deferred copy of `e`. */
  ghost predicate IsCopy(db: Db, k: nat, e: Entry) {
    k < |db.low.entries| && db.low.entries[k] == e.(copied := true)
  }

  /** The jobs with a result, or with one that was dropped since it was last stored. */
  function Results(w: World): set<JobId> {
    w.db.results.Keys + w.hist.dropped
  }

  ghost predicate PcOk(w: World, pc: WorkerPc) {
    match pc
    case Idle => true
    case Deciding(at) => RefOk(w.db, at)
    case Deferring(at) => RefOk(w.db, at) && at.stream == High
    case Working(at) => RefOk(w.db, at)
    case Storing(at, _) => RefOk(w.db, at)
    case Notifying(at) => RefOk(w.db, at) && IsEntry(w.db, at) && EntryAt(w.db, at).job in Results(w)
    case AckingResult(at) =>
      && RefOk(w.db, at) && IsEntry(w.db, at)
      && EntryAt(w.db, at).job in Results(w)
      && EntryAt(w.db, at).job in w.hist.announced
    case AckingCopy(at, k) =>
      RefOk(w.db, at) && IsEntry(w.db, at) && at.stream == High && IsCopy(w.db, k, EntryAt(w.db, at))
  }

  ghost predicate WorkerOk(w: World, k: Worker) {
    && PcOk(w, k.pc)
    && forall i | 0 <= i < |k.backlog| :: RefOk(w.db, k.backlog[i])
  }

  /** The entry is not finished with: nobody has taken it, or a worker still owns it. */
  ghost predicate Open(s: Stream, i: nat) {
    i >= s.delivered || i in s.pending
  }

  /** The job's result is there, unless it was dropped since, and its subscribers were told. */
  ghost predicate Answered(w: World, job: JobId) {
    job in Results(w) && job in w.hist.announced
  }

  ghost predicate LowKept(w: World, i: nat)
    requires i < |w.db.low.entries|
  {
    Open(w.db.low, i) || Answered(w, w.db.low.entries[i].job)
  }

  ghost predicate HighKept(w: World, i: nat)
    requires i < |w.db.high.entries|
  {
    || Open(w.db.high, i)
    || Answered(w, w.db.high.entries[i].job)
    || exists k :: IsCopy(w.db, k, w.db.high.entries[i])
  }

  ghost predicate Delivery(w: World) {
    && StreamOk(w.db.high) && StreamOk(w.db.low)
    && (forall k | k in w.workers :: WorkerOk(w, w.workers[k]))
    && (forall i: nat | i < |w.db.low.entries| :: LowKept(w, i))
    && (forall i: nat | i < |w.db.high.entries| :: HighKept(w, i))
  }

  /** A queued job's recorded position holds the entry its submit call built. */
  ghost predicate Recorded(w: World, j: JobId)
    requires j in w.hist.queued
  {
    && j in w.submits
    && w.hist.queued[j].stream == w.submits[j].req.priority
    && IsEntry(w.db, w.hist.queued[j])
    && EntryAt(w.db, w.hist.queued[j]) == EntryOf(j, w.submits[j].req)
  }

  /** An original entry sits at its job's recorded position, a copy repeats a high one. */
  ghost predicate Traced(w: World, at: Ref)
    requires IsEntry(w.db, at)
  {
    var e := EntryAt(w.db, at);
    && e.job in w.hist.queued
    && var first := w.hist.queued[e.job];
       if !e.copied then first == at
       else at.stream == Low && first.stream == High && IsEntry(w.db, first)
            && EntryAt(w.db, first) == e.(copied := false)
  }

  ghost predicate Ledger(w: World) {
    && (forall j | j in w.hist.queued :: Recorded(w, j))
    && (forall at: Ref | IsEntry(w.db, at) :: Traced(w, at))
    && (forall j | j in w.submits && Unqueued(w.submits[j].pc) :: j !in w.hist.queued)
    && (forall k | k in w.workers && w.workers[k].pc.Deferring? :: w.workers[k].pc.at.stream == High)
  }

  /** A call that has not reached its enqueue, or will not. */
  ghost predicate Unqueued(pc: SubmitPc) {
    || pc in {Looking, Evicting, Reserving, Rereading, Touching, StoringImage, Enqueuing}
    || (pc.Returned? && pc.hit)
  }

  // ----- every step keeps it ---------------------------------------------------

  /** Streams only grow and answers are never taken back, so what was kept stays kept. */
  ghost predicate Grows(w: World, v: World) {
    && w.db.high.entries <= v.db.high.entries
    && w.db.low.entries <= v.db.low.entries
    && w.db.high.delivered <= v.db.high.delivered
    && w.db.low.delivered <= v.db.low.delivered
    && Results(w) <= Results(v) && w.hist.stored <= v.hist.stored
    && w.hist.announced <= v.hist.announced
    && w.db.images <= v.db.images
  }

  /** A submit call leaves the workers alone and at most appends its own entry. */
  lemma SubmitFrame(w: World, job: JobId, c: SubmitCommand)
    requires CanSubmit(w, job, c)
    ensures var v := Submitted(w, job, c);
      && v.workers == w.workers
      && v.db.results == w.db.results && v.hist.stored == w.hist.stored && v.hist.dropped == w.hist.dropped
      && v.hist.announced == w.hist.announced
      && w.db.images <= v.db.images
      && (v.db.high == w.db.high
          || v.db.high == w.db.high.(entries := w.db.high.entries + [EntryOf(job, w.submits[job].req)]))
      && (v.db.low == w.db.low
          || v.db.low == w.db.low.(entries := w.db.low.entries + [EntryOf(job, w.submits[job].req)]))
  {
    hide Effect;
    if job in w.submits {
      EffectFrame(w, job);
    }
  }

  lemma WorkGrows(w: World, worker: WorkerId, c: WorkerCommand)
    requires CanWork(w, worker, c)
    ensures Grows(w, Worked(w, worker, c))
  {
  }

  lemma StepGrows(w: World, a: Action)
    requires Enabled(w, a)
    ensures Grows(w, Apply(w, a))
  {
    match a
    case BySubmitter(job, c) =>
      SubmitFrame(w, job, c);
      hide Submitted;
    case ByWorker(worker, c) => WorkGrows(w, worker, c);
    case ByRedis(c) =>
  }

  lemma PcStays(w: World, v: World, pc: WorkerPc)
    requires Grows(w, v) && PcOk(w, pc)
    ensures PcOk(v, pc)
  {
  }

  /** All workers but the acting one keep what they know. */
  lemma OthersStay(w: World, v: World, acting: set<WorkerId>)
    requires Delivery(w) && Grows(w, v)
    requires forall k | k in v.workers && k !in acting :: k in w.workers && v.workers[k] == w.workers[k]
    ensures forall k | k in v.workers && k !in acting :: WorkerOk(v, v.workers[k])
  {
    forall k | k in v.workers && k !in acting
      ensures WorkerOk(v, v.workers[k])
    {
      PcStays(w, v, w.workers[k].pc);
    }
  }

  lemma WorkKeepsWorkers(w: World, worker: WorkerId, c: WorkerCommand)
    requires Delivery(w) && CanWork(w, worker, c)
    ensures var v := Worked(w, worker, c);
      && StreamOk(v.db.high) && StreamOk(v.db.low)
      && forall k | k in v.workers :: WorkerOk(v, v.workers[k])
  {
    var v := Worked(w, worker, c);
    WorkGrows(w, worker, c);
    StreamsStay(w, worker, c);
    OwnStays(w, worker, c);
    OthersUntouched(w, worker, c);
    hide Worked, CanWork, Grows, WorkerOk, Delivery;
    OthersStay(w, v, {worker});
  }

  lemma StreamsStay(w: World, worker: WorkerId, c: WorkerCommand)
    requires Delivery(w) && CanWork(w, worker, c)
    ensures var v := Worked(w, worker, c); StreamOk(v.db.high) && StreamOk(v.db.low)
  {
  }

  lemma OwnStays(w: World, worker: WorkerId, c: WorkerCommand)
    requires Delivery(w) && CanWork(w, worker, c)
    ensures var v := Worked(w, worker, c); worker in v.workers && WorkerOk(v, v.workers[worker])
  {
    assert worker in w.workers ==> WorkerOk(w, w.workers[worker]);
  }

  lemma OthersUntouched(w: World, worker: WorkerId, c: WorkerCommand)
    requires CanWork(w, worker, c)
    ensures var v := Worked(w, worker, c);
      forall k | k in v.workers && k != worker :: k in w.workers && v.workers[k] == w.workers[k]
  {
  }

  lemma WorkKeepsEntries(w: World, worker: WorkerId, c: WorkerCommand)
    requires Delivery(w) && CanWork(w, worker, c)
    ensures var v := Worked(w, worker, c);
      && (forall i: nat | i < |v.db.low.entries| :: LowKept(v, i))
      && (forall i: nat | i < |v.db.high.entries| :: HighKept(v, i))
  {
    WorkKeepsLow(w, worker, c);
    WorkKeepsHigh(w, worker, c);
  }

  lemma WorkKeepsLow(w: World, worker: WorkerId, c: WorkerCommand)
    requires Delivery(w) && CanWork(w, worker, c)
    ensures var v := Worked(w, worker, c); forall i: nat | i < |v.db.low.entries| :: LowKept(v, i)
  {
    var v := Worked(w, worker, c);
    WorkGrows(w, worker, c);
    if c.Ack? {
      assert WorkerOk(w, w.workers[worker]);
    }
    forall i: nat | i < |v.db.low.entries|
      ensures LowKept(v, i)
    {
      if i < |w.db.low.entries| && Open(w.db.low, i) {
      } else if i < |w.db.low.entries| {
        assert LowKept(w, i);
      }
    }
  }

  lemma WorkKeepsHigh(w: World, worker: WorkerId, c: WorkerCommand)
    requires Delivery(w) && CanWork(w, worker, c)
    ensures var v := Worked(w, worker, c); forall i: nat | i < |v.db.high.entries| :: HighKept(v, i)
  {
    var v := Worked(w, worker, c);
    WorkGrows(w, worker, c);
    if c.Ack? {
      assert WorkerOk(w, w.workers[worker]);
    }
    forall i: nat | i < |v.db.high.entries|
      ensures HighKept(v, i)
    {
      var e := w.db.high.entries[i];
      if Open(w.db.high, i) {
        if c.Ack? && w.workers[worker].pc.AckingCopy? {
          assert w.workers[worker].pc.at == Ref(High, i) ==> IsCopy(v.db, w.workers[worker].pc.copy, e);
        }
      } else {
        assert HighKept(w, i);
        if k :| IsCopy(w.db, k, e) {
          assert IsCopy(v.db, k, e);
        }
      }
    }
  }

  lemma SubmitKeepsDelivery(w: World, job: JobId, c: SubmitCommand)
    requires Delivery(w) && CanSubmit(w, job, c)
    ensures Delivery(Submitted(w, job, c))
  {
    var v := Submitted(w, job, c);
    SubmitFrame(w, job, c);
    StepGrows(w, BySubmitter(job, c));
    OthersStay(w, v, {});
    forall i: nat | i < |v.db.low.entries|
      ensures LowKept(v, i)
    {
      assert i < |w.db.low.entries| ==> LowKept(w, i);
    }
    forall i: nat | i < |v.db.high.entries|
      ensures HighKept(v, i)
    {
      if i < |w.db.high.entries| {
        assert HighKept(w, i);
        if k :| IsCopy(w.db, k, w.db.high.entries[i]) {
          assert IsCopy(v.db, k, w.db.high.entries[i]);
        }
      }
    }
  }

  lemma StepKeepsDelivery(w: World, a: Action)
    requires Delivery(w) && Enabled(w, a)
    ensures Delivery(Apply(w, a))
  {
    match a
    case BySubmitter(job, c) => SubmitKeepsDelivery(w, job, c);
    case ByWorker(worker, c) =>
      WorkKeepsWorkers(w, worker, c);
      WorkKeepsEntries(w, worker, c);
    case ByRedis(c) =>
      var v := Lapsed(w, c);
      OthersStay(w, v, {});
      forall i: nat | i < |v.db.low.entries| ensures LowKept(v, i) { assert LowKept(w, i); }
      forall i: nat | i < |v.db.high.entries| ensures HighKept(v, i) {
        assert HighKept(w, i);
        if k :| IsCopy(w.db, k, w.db.high.entries[i]) {
          assert IsCopy(v.db, k, w.db.high.entries[i]);
        }
      }
  }

  // ----- the ledger ------------------------------------------------------------

  lemma AppendKeepsLedger(w: World, v: World, e: Entry, which: Priority)
    requires Ledger(w)
    requires v.db == Add(w.db, which, e).(images := v.db.images, markers := v.db.markers)
    requires v.workers == w.workers
    requires forall j | j in w.submits :: j in v.submits && v.submits[j].req == w.submits[j].req
    requires e.job in v.submits && e == EntryOf(e.job, v.submits[e.job].req) && v.submits[e.job].req.priority == which
    requires e.job !in w.hist.queued
    requires v.hist.queued == w.hist.queued[e.job := Ref(which, |StreamOf(w.db, which).entries|)]
    requires forall j | j in v.submits && Unqueued(v.submits[j].pc) :: j !in v.hist.queued
    ensures Ledger(v)
  {
    forall at: Ref | IsEntry(v.db, at)
      ensures Traced(v, at)
    {
      if IsEntry(w.db, at) {
        assert Traced(w, at);
      }
    }
    forall j | j in v.hist.queued
      ensures Recorded(v, j)
    {
      assert j in w.hist.queued ==> Recorded(w, j);
    }
  }

  lemma SubmitKeepsLedger(w: World, job: JobId, c: SubmitCommand)
    requires Ledger(w) && CanSubmit(w, job, c)
    ensures Ledger(Submitted(w, job, c))
  {
    var v := Submitted(w, job, c);
    if Queues(w, job, c) {
      hide Effect;
      EffectFrame(w, job);
      AppendKeepsLedger(w, v, EntryOf(job, w.submits[job].req), w.submits[job].req.priority);
    } else {
      hide Submitted;
      QuietSubmit(w, job, c);
      StaysQueued(w, job, c);
      SameLedger(w, v);
    }
  }

  lemma StaysQueued(w: World, job: JobId, c: SubmitCommand)
    requires CanSubmit(w, job, c) && !Queues(w, job, c)
    ensures var v := Submitted(w, job, c);
      forall j | j in v.submits && Unqueued(v.submits[j].pc) && j in w.hist.queued :: j in w.submits ==> Unqueued(w.submits[j].pc)
  {
    hide Effect;
    if job in w.submits {
      EffectFrame(w, job);
    }
  }

  lemma SameLedger(w: World, v: World)
    requires Ledger(w)
    requires v.db.high.entries == w.db.high.entries && v.db.low.entries == w.db.low.entries
    requires v.hist.queued == w.hist.queued
    requires forall j | j in w.submits :: j in v.submits && v.submits[j].req == w.submits[j].req
    requires forall j | j in v.submits && Unqueued(v.submits[j].pc) && j in w.hist.queued ::
               j in w.submits ==> Unqueued(w.submits[j].pc)
    requires forall k | k in v.workers && v.workers[k].pc.Deferring? :: v.workers[k].pc.at.stream == High
    ensures Ledger(v)
  {
    forall j | j in v.hist.queued
      ensures Recorded(v, j)
    {
      assert Recorded(w, j);
    }
    forall at: Ref | IsEntry(v.db, at)
      ensures Traced(v, at)
    {
      assert Traced(w, at);
    }
  }

  lemma WorkKeepsLedger(w: World, worker: WorkerId, c: WorkerCommand)
    requires Ledger(w) && CanWork(w, worker, c)
    ensures Ledger(Worked(w, worker, c))
  {
    if c == CopyLow {
      CopyKeepsLedger(w, worker);
    } else {
      SameLedger(w, Worked(w, worker, c));
    }
  }

  lemma CopyKeepsLedger(w: World, worker: WorkerId)
    requires Ledger(w) && CanWork(w, worker, CopyLow)
    ensures Ledger(Worked(w, worker, CopyLow))
  {
    var v := Worked(w, worker, CopyLow);
    var at := w.workers[worker].pc.at;
    assert Traced(w, at);
    forall r: Ref | IsEntry(v.db, r)
      ensures Traced(v, r)
    {
      if IsEntry(w.db, r) {
        assert Traced(w, r);
      }
    }
    forall j | j in v.hist.queued
      ensures Recorded(v, j)
    {
      assert Recorded(w, j);
    }
  }

  lemma StepKeepsLedger(w: World, a: Action)
    requires Ledger(w) && Enabled(w, a)
    ensures Ledger(Apply(w, a))
  {
    hide Ledger, Submitted, Worked, Lapsed, CanSubmit, CanWork;
    match a
    case BySubmitter(job, c) => SubmitKeepsLedger(w, job, c);
    case ByWorker(worker, c) => WorkKeepsLedger(w, worker, c);
    case ByRedis(c) => LapseKeepsLedger(w, c);
  }

  lemma LapseKeepsLedger(w: World, c: Lapse)
    requires Ledger(w)
    ensures Ledger(Lapsed(w, c))
  {
    SameLedger(w, Lapsed(w, c));
  }

  // ----- whole runs ------------------------------------------------------------

  lemma {:induction false} RunsKeepDelivery(w: World, run: seq<Action>)
    requires IsRun(w, run) && Delivery(w) && Ledger(w)
    ensures Delivery(Exec(w, run)) && Ledger(Exec(w, run))
    decreases |run|
  {
    if run != [] {
      StepKeepsDelivery(w, run[0]);
      StepKeepsLedger(w, run[0]);
      RunsKeepDelivery(Apply(w, run[0]), run[1..]);
    }
  }

  lemma ReachableDelivery(w: World)
    requires Reachable(w)
    ensures Delivery(w) && Ledger(w)
  {
    var run :| Reaches(run, w);
    RunsKeepDelivery(Init(), run);
  }

  /** The entry at `at` is still open, or its job was answered. */
  ghost predicate Carried(w: World, at: Ref)
    requires IsEntry(w.db, at)
  {
    Open(StreamOf(w.db, at.stream), at.id) || Answered(w, EntryAt(w.db, at).job)
  }

  /**
   No job is lost.  In every world of every run, a queued job is open or
   answered where it was first queued, or a low-stream copy of that very entry is.
   */
  lemma NoJobIsLost(w: World, job: JobId)
    requires Reachable(w) && job in w.hist.queued
    ensures var first := w.hist.queued[job];
      && IsEntry(w.db, first) && EntryAt(w.db, first).job == job
      && (Carried(w, first)
          || exists k :: IsCopy(w.db, k, EntryAt(w.db, first)) && Carried(w, Ref(Low, k)))
  {
    ReachableDelivery(w);
    var first := w.hist.queued[job];
    assert Recorded(w, job);
    if first.stream == High {
      assert HighKept(w, first.id);
      if k :| IsCopy(w.db, k, EntryAt(w.db, first)) {
        assert LowKept(w, k);
        assert Carried(w, Ref(Low, k));
      }
    } else {
      assert LowKept(w, first.id);
    }
  }

  /** Once both streams are delivered and nothing is pending, every queued job was answered. */
  lemma DrainedStreamsAnswerEveryJob(w: World)
    requires Reachable(w)
    requires w.db.high.delivered == |w.db.high.entries| && w.db.high.pending == map[]
    requires w.db.low.delivered == |w.db.low.entries| && w.db.low.pending == map[]
    ensures forall job | job in w.hist.queued :: Answered(w, job)
  {
    forall job | job in w.hist.queued
      ensures Answered(w, job)
    {
      NoJobIsLost(w, job);
    }
  }

  /** A job has one original entry, and it holds what its submit call was given. */
  lemma OriginalsAreUnique(w: World, a: Ref, b: Ref)
    requires Reachable(w) && IsEntry(w.db, a) && IsEntry(w.db, b)
    requires !EntryAt(w.db, a).copied
    requires EntryAt(w.db, a).job == EntryAt(w.db, b).job
    ensures EntryAt(w.db, b).copied || a == b
    ensures EntryAt(w.db, b) == EntryAt(w.db, a).(copied := EntryAt(w.db, b).copied)
    ensures EntryAt(w.db, a).job in w.submits
    ensures var job := EntryAt(w.db, a).job; var req := w.submits[job].req;
      EntryAt(w.db, a) == Entry(job, req.imageHash, req.revision, req.latest, false)
  {
    ReachableDelivery(w);
    assert Traced(w, a) && Traced(w, b) && Recorded(w, EntryAt(w.db, a).job);
  }

  /** A job placed on low is never deferred again: every copy on low repeats a high original. */
  lemma LowJobsAreNotDeferred(w: World, k: nat, worker: WorkerId)
    requires Reachable(w)
    requires k < |w.db.low.entries|
    ensures CanWork(w, worker, Decide) && w.workers[worker].pc.at == Ref(Low, k) ==>
              !Worked(w, worker, Decide).workers[worker].pc.Deferring?
    ensures w.db.low.entries[k].copied ==>
              exists i :: 0 <= i < |w.db.high.entries| && w.db.low.entries[k] == w.db.high.entries[i].(copied := true)
  {
    ReachableDelivery(w);
    assert Traced(w, Ref(Low, k));
    if w.db.low.entries[k].copied {
      var first := w.hist.queued[w.db.low.entries[k].job];
      assert w.db.low.entries[k] == w.db.high.entries[first.id].(copied := true);
    }
  }
}
