/**
 Deduplication over whole runs: in every interleaving of unforced submits for
 one dedup field exactly one call queues the job and all others return its id,
 as long as the field's reservation never lapsed (stale eviction or expiry) and
 no command of these calls failed.  Failures alone never let two calls hold the
 reservation at once.  What holds without these conditions is in JobEpochs.
 */
module JobDedup {
  import opened Basics
  import opened JobMachine

  /** The call owns the reservation of its field. */
  ghost predicate Holds(pc: SubmitPc) {
    || pc in {Touching, StoringImage, Enqueuing, Releasing}
    || (pc.Returned? && !pc.hit)
  }

  ghost predicate Unforced(w: World, j: JobId) {
    j in w.submits && !w.submits[j].req.ForceNew()
  }

  function FieldOf(w: World, j: JobId): string
    requires j in w.submits
  {
    w.submits[j].req.field
  }

  ghost predicate Steady(w: World, field: string) {
    field !in w.hist.lapsed && field !in w.hist.faulted
  }

  ghost predicate OwnerOk(w: World, j: JobId)
    requires Unforced(w, j)
  {
    var pc := w.submits[j].pc;
    && (pc.Returned? && !pc.hit ==> pc.job == j && j in w.hist.queued)
    && (FieldOf(w, j) !in w.hist.lapsed && Holds(pc) ==>
          FieldOf(w, j) in w.db.dedup && w.db.dedup[FieldOf(w, j)] == j)
  }

  ghost predicate SteadyOk(w: World, j: JobId)
    requires Unforced(w, j)
  {
    var pc := w.submits[j].pc;
    && pc != Releasing && pc != Errored
    && (pc == Rereading ==> FieldOf(w, j) in w.db.dedup)
    && (pc.Returned? && pc.hit ==> FieldOf(w, j) in w.db.dedup && w.db.dedup[FieldOf(w, j)] == pc.job)
    && (j in w.hist.queued <==> pc == Returned(j, false))
  }

  ghost predicate ReservationOk(w: World, field: string)
    requires field in w.db.dedup
  {
    var j := w.db.dedup[field];
    Unforced(w, j) && FieldOf(w, j) == field && Holds(w.submits[j].pc)
  }

  ghost predicate Dedup(w: World) {
    && (forall j | Unforced(w, j) :: OwnerOk(w, j))
    && (forall j | Unforced(w, j) && Steady(w, FieldOf(w, j)) :: SteadyOk(w, j))
    && (forall f | f in w.db.dedup && Steady(w, f) :: ReservationOk(w, f))
    && (forall j | j in w.hist.queued :: j in w.submits)
    && (forall j | j in w.submits && w.submits[j].req.ForceNew() ::
          w.submits[j].pc in {StoringImage, Enqueuing, Errored} || w.submits[j].pc.Returned?)
  }

  /** What the command at hand does: it reserves, it queues, or it concerns neither. */
  lemma EffectMoves(w: World, job: JobId)
    requires job in w.submits
    ensures var v := Effect(w, job); var pc := w.submits[job].pc; var f := FieldOf(w, job);
      && v.submits == w.submits
      && v.hist.lapsed == w.hist.lapsed && v.hist.faulted == w.hist.faulted
      && v.hist.queued.Keys == w.hist.queued.Keys + (if pc == Enqueuing then {job} else {})
      && v.db.dedup == if pc == Reserving && f !in w.db.dedup then w.db.dedup[f := job] else w.db.dedup
  {
  }

  /** How one submit command moves the call itself and the ledger. */
  lemma SubmitMoves(w: World, job: JobId, c: SubmitCommand)
    requires CanSubmit(w, job, c)
    ensures var v := Submitted(w, job, c);
      && v.submits.Keys == w.submits.Keys + {job}
      && (forall j | j in w.submits && j != job :: v.submits[j] == w.submits[j])
      && (job in w.submits ==> v.submits[job].req == w.submits[job].req)
      && w.hist.lapsed <= v.hist.lapsed && w.hist.faulted <= v.hist.faulted
      && w.hist.queued.Keys <= v.hist.queued.Keys <= w.hist.queued.Keys + {job}
      && (job !in w.submits ==> v.db == w.db && v.hist == w.hist)
  {
    hide Effect;
    if job in w.submits {
      EffectMoves(w, job);
    }
  }

  /** A command touches only its own field: it reserves a free one, releases its own, or evicts it and says so. */
  lemma SubmitReserves(w: World, job: JobId, c: SubmitCommand)
    requires CanSubmit(w, job, c) && job in w.submits
    ensures var v := Submitted(w, job, c); var f := FieldOf(w, job);
      || v.db.dedup == w.db.dedup
      || (w.submits[job].pc == Reserving && f !in w.db.dedup && v.db.dedup == w.db.dedup[f := job])
      || (w.submits[job].pc == Releasing && f in w.db.dedup && w.db.dedup[f] == job && v.db.dedup == w.db.dedup - {f})
      || (f in v.hist.lapsed && v.db.dedup == w.db.dedup - {f})
  {
    hide Effect;
    EffectMoves(w, job);
  }

  lemma SubmitKeepsOthers(w: World, job: JobId, c: SubmitCommand, j: JobId)
    requires Dedup(w) && CanSubmit(w, job, c) && j != job && Unforced(Submitted(w, job, c), j)
    ensures var v := Submitted(w, job, c);
      OwnerOk(v, j) && (Steady(v, FieldOf(v, j)) ==> SteadyOk(v, j))
  {
    hide Submitted;
    SubmitMoves(w, job, c);
    assert OwnerOk(w, j);
    assert Steady(w, FieldOf(w, j)) ==> SteadyOk(w, j);
    if job in w.submits {
      SubmitReserves(w, job, c);
      if FieldOf(w, job) == FieldOf(w, j) && Steady(w, FieldOf(w, j)) && Unforced(w, job) {
        assert SteadyOk(w, job);
      }
    }
  }

  lemma SubmitKeepsOwn(w: World, job: JobId, c: SubmitCommand)
    requires Dedup(w) && CanSubmit(w, job, c) && Unforced(Submitted(w, job, c), job)
    ensures var v := Submitted(w, job, c);
      OwnerOk(v, job) && (Steady(v, FieldOf(v, job)) ==> SteadyOk(v, job))
  {
    hide Effect;
    if job in w.submits {
      EffectMoves(w, job);
      assert OwnerOk(w, job);
      assert Steady(w, FieldOf(w, job)) ==> SteadyOk(w, job);
    }
  }

  lemma SubmitKeepsReservation(w: World, job: JobId, c: SubmitCommand, f: string)
    requires Dedup(w) && CanSubmit(w, job, c)
    requires f in Submitted(w, job, c).db.dedup && Steady(Submitted(w, job, c), f)
    ensures ReservationOk(Submitted(w, job, c), f)
  {
    SubmitMoves(w, job, c);
    if f in w.db.dedup {
      assert ReservationOk(w, f);
    }
    if job in w.submits {
      SubmitReserves(w, job, c);
      if Unforced(w, job) {
        SubmitKeepsOwn(w, job, c);
      }
    }
  }

  lemma SubmitKeepsDedup(w: World, job: JobId, c: SubmitCommand)
    requires Dedup(w) && CanSubmit(w, job, c)
    ensures Dedup(Submitted(w, job, c))
  {
    var v := Submitted(w, job, c);
    SubmitMoves(w, job, c);
    forall j | Unforced(v, j)
      ensures OwnerOk(v, j)
      ensures Steady(v, FieldOf(v, j)) ==> SteadyOk(v, j)
    {
      if j == job {
        SubmitKeepsOwn(w, job, c);
      } else {
        SubmitKeepsOthers(w, job, c, j);
      }
    }
    forall f | f in v.db.dedup && Steady(v, f)
      ensures ReservationOk(v, f)
    {
      SubmitKeepsReservation(w, job, c, f);
    }
  }

  lemma StepKeepsDedup(w: World, a: Action)
    requires Dedup(w) && Enabled(w, a)
    ensures Dedup(Apply(w, a))
  {
    match a
    case BySubmitter(job, c) => SubmitKeepsDedup(w, job, c);
    case ByWorker(worker, c) => WorkFrame(w, worker, c); SameDedup(w, Worked(w, worker, c));
    case ByRedis(ExpireDedup) =>
      var v := Lapsed(w, ExpireDedup);
      forall j | Unforced(v, j)
        ensures OwnerOk(v, j)
        ensures Steady(v, FieldOf(v, j)) ==> SteadyOk(v, j)
      {
        assert OwnerOk(w, j);
        assert Steady(w, FieldOf(w, j)) ==> SteadyOk(w, j);
      }
    case ByRedis(ExpireMarker(_)) => SameDedup(w, Apply(w, a));
    case ByRedis(DropResult(_)) => SameDedup(w, Apply(w, a));
  }

  lemma WorkFrame(w: World, worker: WorkerId, c: WorkerCommand)
    requires CanWork(w, worker, c)
    ensures var v := Worked(w, worker, c);
      && v.db.dedup == w.db.dedup && v.db.markers == w.db.markers && v.submits == w.submits
      && v.hist == w.hist.(stored := v.hist.stored, announced := v.hist.announced, dropped := v.hist.dropped)
  {
  }

  lemma SameDedup(w: World, v: World)
    requires Dedup(w) && v.db.dedup == w.db.dedup && v.submits == w.submits
    requires v.hist.queued == w.hist.queued && v.hist.lapsed == w.hist.lapsed && v.hist.faulted == w.hist.faulted
    ensures Dedup(v)
  {
    forall j | Unforced(v, j)
      ensures OwnerOk(v, j)
      ensures Steady(v, FieldOf(v, j)) ==> SteadyOk(v, j)
    {
      assert OwnerOk(w, j);
      assert Steady(w, FieldOf(w, j)) ==> SteadyOk(w, j);
    }
    forall f | f in v.db.dedup && Steady(v, f)
      ensures ReservationOk(v, f)
    {
      assert ReservationOk(w, f);
    }
  }

  lemma {:induction false} RunsKeepDedup(w: World, run: seq<Action>)
    requires IsRun(w, run) && Dedup(w)
    ensures Dedup(Exec(w, run))
    decreases |run|
  {
    if run != [] {
      StepKeepsDedup(w, run[0]);
      RunsKeepDedup(Apply(w, run[0]), run[1..]);
    }
  }

  // ----- the claims ------------------------------------------------------------

  /** The unforced calls that named `field`. */
  ghost function Calls(w: World, field: string): set<JobId> {
    set j | j in w.submits && !w.submits[j].req.ForceNew() && w.submits[j].req.field == field
  }

  lemma ReachableDedup(w: World)
    requires Reachable(w)
    ensures Dedup(w)
  {
    var run :| Reaches(run, w);
    RunsKeepDedup(Init(), run);
  }

  /**
   Exactly one.  When every unforced call for a steady field has come back, one
   of them queued its own job, no other queued anything, and every other
   returned that job as a dedup hit.
   */
  lemma ExactlyOneCallQueues(w: World, field: string) returns (owner: JobId)
    requires Reachable(w) && Steady(w, field)
    requires Calls(w, field) != {}
    requires forall j | j in Calls(w, field) :: w.submits[j].pc.Returned? || w.submits[j].pc == Errored
    ensures owner in Calls(w, field) && owner in w.hist.queued
    ensures w.submits[owner].pc == Returned(owner, false)
    ensures forall j | j in Calls(w, field) && j != owner ::
              j !in w.hist.queued && w.submits[j].pc == Returned(owner, true)
  {
    ReachableDedup(w);
    var some :| some in Calls(w, field);
    assert Unforced(w, some) && OwnerOk(w, some) && SteadyOk(w, some);
    assert ReservationOk(w, field);
    owner := w.db.dedup[field];
    assert OwnerOk(w, owner) && SteadyOk(w, owner);
    forall j | j in Calls(w, field) && j != owner
      ensures j !in w.hist.queued && w.submits[j].pc == Returned(owner, true)
    {
      assert Unforced(w, j) && OwnerOk(w, j) && SteadyOk(w, j);
    }
  }

  /** Also while calls are still under way: all answers for a steady field agree, and at most one call queued. */
  lemma HitsNameTheOwner(w: World, a: JobId, b: JobId)
    requires Reachable(w)
    requires Unforced(w, a) && Unforced(w, b) && FieldOf(w, a) == FieldOf(w, b) && Steady(w, FieldOf(w, a))
    ensures w.submits[a].pc.Returned? && w.submits[b].pc.Returned? ==> w.submits[a].pc.job == w.submits[b].pc.job
    ensures a in w.hist.queued && b in w.hist.queued ==> a == b
  {
    ReachableDedup(w);
    assert OwnerOk(w, a) && OwnerOk(w, b) && SteadyOk(w, a) && SteadyOk(w, b);
  }

  /**
   With failures, but no lapse: two calls never hold one reservation together,
   and whoever holds it is the one Redis names.
   */
  lemma OneHolderDespiteFailures(w: World, a: JobId, b: JobId)
    requires Reachable(w)
    requires Unforced(w, a) && Unforced(w, b) && FieldOf(w, a) == FieldOf(w, b)
    requires FieldOf(w, a) !in w.hist.lapsed
    requires Holds(w.submits[a].pc) && Holds(w.submits[b].pc)
    ensures a == b && FieldOf(w, a) in w.db.dedup && w.db.dedup[FieldOf(w, a)] == a
  {
    ReachableDedup(w);
    assert OwnerOk(w, a) && OwnerOk(w, b);
  }

  /**
   A release frees a field exactly when it is the releasing call's own, still names that
   call and the command gets through.
   */
  lemma ReleaseRemovesOnlyItsOwn(w: World, job: JobId, lost: bool)
    requires CanSubmit(w, job, Release(lost))
    ensures var d := Submitted(w, job, Release(lost)).db.dedup;
      && d.Keys <= w.db.dedup.Keys
      && forall field | field in w.db.dedup ::
           (field in d && d[field] == w.db.dedup[field]) <==> !(w.db.dedup[field] == job && FieldOf(w, job) == field && !lost)
  {
  }

  /** So whoever else holds a field that never lapsed goes on holding it. */
  lemma ReleaseSparesOtherHolders(w: World, job: JobId, lost: bool, other: JobId)
    requires Reachable(w) && CanSubmit(w, job, Release(lost))
    requires other != job && Unforced(w, other) && Holds(w.submits[other].pc)
    requires FieldOf(w, other) !in w.hist.lapsed
    ensures var d := Submitted(w, job, Release(lost)).db.dedup;
      FieldOf(w, other) in d && d[FieldOf(w, other)] == other
  {
    OneHolderDespiteFailures(w, other, other);
    ReleaseRemovesOnlyItsOwn(w, job, lost);
  }

  // ----- both conditions are needed --------------------------------------------

  function Plain(field: string): Request {
    Request(field, "image", "rev", High, false, None)
  }

  /** Two stale hits in flight together: both evict, and both queue a job. */
  lemma StaleEvictionCanQueueTwice() returns (w: World)
    ensures Reachable(w) && "f" !in w.hist.faulted
    ensures At(w, 1, Returned(1, false)) && At(w, 2, Returned(2, false))
    ensures Calls(w, "f") == {0, 1, 2} && {1, 2} <= w.hist.queued.Keys
  {
    w := OneQueued();
    w := StaleHit(w, 1);
    w := StaleHit(w, 2);
    w := EvictAndQueue(w, 1);
    w := EvictAndQueue(w, 2);
    assert w.submits.Keys == {0, 1, 2};
  }

  lemma EvictAndQueue(w: World, job: JobId) returns (v: World)
    requires Reachable(w) && At(w, job, Evicting) && w.submits[job].req == Plain("f")
    ensures Reachable(v)
    ensures v.submits == w.submits[job := Submit(Plain("f"), Returned(job, false))]
    ensures v.hist.queued.Keys == w.hist.queued.Keys + {job} && v.hist.faulted == w.hist.faulted
  {
    v := Take(w, job, Evict(false));
    v := RunAlone(v, job);
  }

  lemma StaleHit(w: World, job: JobId) returns (v: World)
    requires Reachable(w) && "f" in w.db.dedup && job !in w.submits
    ensures Reachable(v) && v == w.(submits := w.submits[job := Submit(Plain("f"), Evicting)])
  {
    v := Take(w, job, Begin(Plain("f")));
    v := Take(v, job, Lookup(true));
  }

  lemma OneQueued() returns (w: World)
    ensures Reachable(w) && "f" !in w.hist.faulted && w.db.dedup == map["f" := 0]
    ensures w.submits == map[0 := Submit(Plain("f"), Returned(0, false))]
  {
    InitReachable();
    w := Take(Init(), 0, Begin(Plain("f")));
    w := Take(w, 0, Lookup(false));
    w := RunAlone(w, 0);
  }

  /** A hit can return the id of a job that is never queued: its owner failed after the hit. */
  lemma FailureCanStrandAHit() returns (w: World)
    ensures Reachable(w) && "f" !in w.hist.lapsed
    ensures At(w, 1, Returned(0, true)) && At(w, 0, Errored) && w.hist.queued == map[]
  {
    InitReachable();
    w := Take(Init(), 0, Begin(Plain("f")));
    w := Take(w, 0, Lookup(false));
    w := Take(w, 0, Reserve);
    w := Take(w, 1, Begin(Plain("f")));
    w := Take(w, 1, Lookup(false));
    w := Take(w, 0, Fault(false));
    w := Take(w, 0, Release(false));
  }

  lemma Take(w: World, job: JobId, c: SubmitCommand) returns (v: World)
    requires Reachable(w) && CanSubmit(w, job, c)
    ensures Reachable(v) && v == Submitted(w, job, c)
  {
    ReachableStep(w, BySubmitter(job, c));
    v := Submitted(w, job, c);
  }

  /** From here the call runs alone to its enqueue. */
  lemma RunAlone(w: World, job: JobId) returns (v: World)
    requires Reachable(w)
    requires At(w, job, Reserving) && w.submits[job].req == Plain("f") && "f" !in w.db.dedup
    ensures Reachable(v)
    ensures v.submits == w.submits[job := Submit(Plain("f"), Returned(job, false))]
    ensures v.hist.queued.Keys == w.hist.queued.Keys + {job} && v.hist.faulted == w.hist.faulted
    ensures v.db.dedup == w.db.dedup["f" := job]
  {
    v := Advance(w, job, Reserve, Touching);
    v := Advance(v, job, Touch, StoringImage);
    v := Advance(v, job, StoreImage, Enqueuing);
    v := Advance(v, job, Enqueue, Returned(job, false));
  }

  lemma Advance(w: World, job: JobId, c: SubmitCommand, to: SubmitPc) returns (v: World)
    requires Reachable(w) && job in w.submits && w.submits[job].req == Plain("f")
    requires CanSubmit(w, job, c) && c in {Reserve, Touch, StoreImage, Enqueue}
    requires to == match c case Reserve => Touching case Touch => StoringImage case StoreImage => Enqueuing case _ => Returned(job, false)
    requires c == Reserve ==> "f" !in w.db.dedup
    ensures Reachable(v) && v.submits == w.submits[job := Submit(Plain("f"), to)]
    ensures v.hist.queued.Keys == w.hist.queued.Keys + (if c == Enqueue then {job} else {})
    ensures v.hist.faulted == w.hist.faulted
    ensures v.db.dedup == if c == Reserve then w.db.dedup["f" := job] else w.db.dedup
  {
    hide Effect, Reachable;
    EffectMoves(w, job);
    v := Take(w, job, c);
  }
}
