/**
 Whom a reservation names: in every run, with any failures, only a call that has won the
 field itself and has not come back with somebody else's job.
 */
module JobRelease {
  import opened JobMachine
  import opened JobDedup

  /** A call past its own reservation, or one that has failed. */
  predicate PastReserve(pc: SubmitPc) {
    pc in {Touching, StoringImage, Enqueuing, Releasing, Errored} || (pc.Returned? && !pc.hit)
  }

  predicate MayBeNamed(w: World, f: string, j: JobId) {
    j in w.submits && !w.submits[j].req.ForceNew() && w.submits[j].req.field == f && PastReserve(w.submits[j].pc)
  }

  ghost predicate Naming(w: World) {
    forall f | f in w.db.dedup :: MayBeNamed(w, f, w.db.dedup[f])
  }

  predicate Names(w: World, f: string, j: JobId) {
    f in w.db.dedup && w.db.dedup[f] == j
  }

  lemma SubmitAdvances(w: World, job: JobId, c: SubmitCommand)
    requires CanSubmit(w, job, c) && job in w.submits && PastReserve(w.submits[job].pc)
    ensures PastReserve(Submitted(w, job, c).submits[job].pc)
  {
    hide Effect;
    EffectMoves(w, job);
  }

  lemma WinnerIsPast(w: World, job: JobId, c: SubmitCommand)
    requires CanSubmit(w, job, c) && job in w.submits && w.submits[job].pc == Reserving
    requires w.submits[job].req.field !in w.db.dedup && w.submits[job].req.field in Submitted(w, job, c).db.dedup
    ensures PastReserve(Submitted(w, job, c).submits[job].pc)
  {
    hide Effect;
    EffectMoves(w, job);
  }

  lemma SubmitKeepsNaming(w: World, job: JobId, c: SubmitCommand)
    requires Naming(w) && Forcing(w) && CanSubmit(w, job, c)
    ensures Naming(Submitted(w, job, c))
  {
    var v := Submitted(w, job, c);
    SubmitMoves(w, job, c);
    if job in w.submits {
      SubmitReserves(w, job, c);
      if w.submits[job].pc == Reserving && FieldOf(w, job) !in w.db.dedup && FieldOf(w, job) in v.db.dedup {
        WinnerIsPast(w, job, c);
      }
      if PastReserve(w.submits[job].pc) {
        SubmitAdvances(w, job, c);
      }
    }
    hide Submitted, CanSubmit;
    forall f | f in v.db.dedup ensures MayBeNamed(v, f, v.db.dedup[f]) {
      assert f in w.db.dedup ==> MayBeNamed(w, f, w.db.dedup[f]);
    }
  }

  /** A forced call never comes to the reservation. */
  ghost predicate Forcing(w: World) {
    forall j | j in w.submits && w.submits[j].req.ForceNew() ::
      w.submits[j].pc in {StoringImage, Enqueuing, Errored} || w.submits[j].pc.Returned?
  }

  lemma ForcedCallsDoNotReserve(w: World)
    requires Reachable(w)
    ensures Forcing(w)
  {
    ReachableDedup(w);
  }

  lemma StepKeepsNaming(w: World, a: Action)
    requires Naming(w) && Forcing(w) && Enabled(w, a)
    ensures Naming(Apply(w, a))
  {
    match a
    case BySubmitter(job, c) => SubmitKeepsNaming(w, job, c);
    case ByWorker(worker, c) => WorkFrame(w, worker, c); SameNaming(w, Worked(w, worker, c));
    case ByRedis(c) => FewerNamed(w, Lapsed(w, c));
  }

  lemma SameNaming(w: World, v: World)
    requires Naming(w) && v.db.dedup == w.db.dedup && v.submits == w.submits
    ensures Naming(v)
  {
  }

  lemma FewerNamed(w: World, v: World)
    requires Naming(w) && v.submits == w.submits && forall f | f in v.db.dedup :: f in w.db.dedup && v.db.dedup[f] == w.db.dedup[f]
    ensures Naming(v)
  {
  }

  lemma {:induction false} RunsKeepNaming(w: World, run: seq<Action>)
    requires Reachable(w) && IsRun(w, run) && Naming(w)
    ensures Naming(Exec(w, run))
    decreases |run|
  {
    hide Naming, Forcing, Reachable, Apply, Enabled;
    if run != [] {
      ForcedCallsDoNotReserve(w);
      StepKeepsNaming(w, run[0]);
      ReachableStep(w, run[0]);
      RunsKeepNaming(Apply(w, run[0]), run[1..]);
    }
  }

  /** In every reachable world a field names only an unforced call for it that is past its own reservation. */
  lemma OnlyWinnersAreNamed(w: World, f: string, j: JobId)
    requires Reachable(w) && Names(w, f, j)
    ensures MayBeNamed(w, f, j)
  {
    var run :| Reaches(run, w);
    InitReachable();
    RunsKeepNaming(Init(), run);
  }
}
