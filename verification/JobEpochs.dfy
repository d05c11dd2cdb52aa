/**
 Deduplication without conditions.  Each time a call wins the reservation of a dedup
 field a new epoch begins, which ends when the field is removed, by whatever step.
 However many evictions, expiries and failures a run meets, an epoch has one owner,
 only owners queue, and every hit names an owner.
 */
module JobEpochs {
  import opened JobMachine
  import opened JobDedup

  /** This step wins the reservation of `f`. */
  predicate Wins(w: World, a: Action, f: string)
    requires Enabled(w, a)
  {
    f !in w.db.dedup && f in Apply(w, a).db.dedup
  }

  /** This step removes it. */
  predicate Ends(w: World, a: Action, f: string)
    requires Enabled(w, a)
  {
    f in w.db.dedup && f !in Apply(w, a).db.dedup
  }

  /** The winners of `f` in a run, in order. */
  function Owners(w: World, run: seq<Action>, f: string): seq<JobId>
    requires IsRun(w, run)
    decreases |run|
  {
    if run == [] then []
    else
      var v := Apply(w, run[0]);
      (if Wins(w, run[0], f) then [v.db.dedup[f]] else []) + Owners(v, run[1..], f)
  }

  /** How often a run removes `f`. */
  function Removals(w: World, run: seq<Action>, f: string): nat
    requires IsRun(w, run)
    decreases |run|
  {
    if run == [] then 0
    else (if Ends(w, run[0], f) then 1 else 0) + Removals(Apply(w, run[0]), run[1..], f)
  }

  predicate NoRepeats(s: seq<JobId>) {
    forall i, j | 0 <= i < j < |s| :: s[i] != s[j]
  }

  /** A call that has won its field at some time. */
  predicate HasWon(pc: SubmitPc) {
    pc !in {Looking, Evicting, Reserving, Rereading} && !(pc.Returned? && pc.hit)
  }

  /** What `owners` and `ends` have to do with the calls for `f`. */
  ghost predicate Epochs(w: World, f: string, owners: seq<JobId>, ends: nat) {
    && NoRepeats(owners)
    && |owners| == ends + (if f in w.db.dedup then 1 else 0)
    && (f in w.db.dedup ==> owners[|owners| - 1] == w.db.dedup[f])
    && (forall o | o in owners :: Unforced(w, o) && FieldOf(w, o) == f && HasWon(w.submits[o].pc))
    && (forall j | Unforced(w, j) && FieldOf(w, j) == f :: CallOk(w, j, owners))
  }

  ghost predicate CallOk(w: World, j: JobId, owners: seq<JobId>)
    requires j in w.submits
  {
    var pc := w.submits[j].pc;
    && (Holds(pc) || j in w.hist.queued ==> j in owners)
    && (pc.Returned? && pc.hit ==> pc.job in owners)
  }

  function Later(w: World, a: Action, f: string, owners: seq<JobId>): seq<JobId>
    requires Enabled(w, a)
  {
    owners + if Wins(w, a, f) then [Apply(w, a).db.dedup[f]] else []
  }

  lemma StepKeepsEpochs(w: World, a: Action, f: string, owners: seq<JobId>, ends: nat)
    requires Enabled(w, a) && Dedup(w) && Epochs(w, f, owners, ends)
    ensures Epochs(Apply(w, a), f, Later(w, a, f, owners), ends + if Ends(w, a, f) then 1 else 0)
  {
    if a.BySubmitter? {
      forall j | Unforced(Apply(w, a), j) && FieldOf(Apply(w, a), j) == f
        ensures CallOk(Apply(w, a), j, Later(w, a, f, owners))
      {
        SubmitKeepsCall(w, a.job, a.submit, f, owners, ends, j);
      }
      SubmitKeepsOwners(w, a.job, a.submit, f, owners, ends);
    } else {
      OthersKeepEpochs(w, a, f, owners, ends);
    }
  }

  /** Workers and Redis itself win nothing. */
  lemma OthersKeepEpochs(w: World, a: Action, f: string, owners: seq<JobId>, ends: nat)
    requires Enabled(w, a) && Dedup(w) && Epochs(w, f, owners, ends) && !a.BySubmitter?
    ensures Epochs(Apply(w, a), f, Later(w, a, f, owners), ends + if Ends(w, a, f) then 1 else 0)
  {
    if a.ByWorker? {
      WorkFrame(w, a.worker, a.work);
    }
    forall j | Unforced(Apply(w, a), j) && FieldOf(Apply(w, a), j) == f
      ensures CallOk(Apply(w, a), j, Later(w, a, f, owners))
    {
      assert CallOk(w, j, owners);
    }
  }

  lemma SubmitKeepsOwners(w: World, job: JobId, c: SubmitCommand, f: string, owners: seq<JobId>, ends: nat)
    requires CanSubmit(w, job, c) && Dedup(w) && Epochs(w, f, owners, ends)
    requires var a := BySubmitter(job, c);
      forall j | Unforced(Apply(w, a), j) && FieldOf(Apply(w, a), j) == f :: CallOk(Apply(w, a), j, Later(w, a, f, owners))
    ensures var a := BySubmitter(job, c);
      Epochs(Apply(w, a), f, Later(w, a, f, owners), ends + if Ends(w, a, f) then 1 else 0)
  {
    var v := Submitted(w, job, c);
    forall o | o in owners ensures Unforced(v, o) && FieldOf(v, o) == f && HasWon(v.submits[o].pc) {
      WonStays(w, job, c, o);
    }
    if Wins(w, BySubmitter(job, c), f) {
      WinnerIsNew(w, job, c, f);
    } else {
      NobodyWins(w, job, c, f);
    }
    hide CallOk, Submitted, Dedup, HasWon, Unforced, FieldOf;
  }

  lemma WonStays(w: World, job: JobId, c: SubmitCommand, o: JobId)
    requires CanSubmit(w, job, c) && Unforced(w, o) && HasWon(w.submits[o].pc)
    ensures var v := Submitted(w, job, c); Unforced(v, o) && FieldOf(v, o) == FieldOf(w, o) && HasWon(v.submits[o].pc)
  {
    hide Effect;
    SubmitMoves(w, job, c);
    if job in w.submits {
      EffectMoves(w, job);
    }
  }

  lemma WinnerIsNew(w: World, job: JobId, c: SubmitCommand, f: string)
    requires CanSubmit(w, job, c) && Dedup(w) && Wins(w, BySubmitter(job, c), f)
    ensures job in w.submits && !HasWon(w.submits[job].pc)
    ensures var v := Submitted(w, job, c);
      v.db.dedup[f] == job && Unforced(v, job) && FieldOf(v, job) == f && HasWon(v.submits[job].pc)
  {
    hide Effect;
    SubmitMoves(w, job, c);
    if job in w.submits {
      SubmitReserves(w, job, c);
      EffectMoves(w, job);
    }
  }

  lemma NobodyWins(w: World, job: JobId, c: SubmitCommand, f: string)
    requires CanSubmit(w, job, c) && !Wins(w, BySubmitter(job, c), f)
    ensures var d := Submitted(w, job, c).db.dedup; f in d ==> f in w.db.dedup && d[f] == w.db.dedup[f]
  {
    SubmitMoves(w, job, c);
    if job in w.submits {
      SubmitReserves(w, job, c);
    }
    hide Effect, Submitted;
  }

  lemma SubmitKeepsCall(w: World, job: JobId, c: SubmitCommand, f: string, owners: seq<JobId>, ends: nat, j: JobId)
    requires CanSubmit(w, job, c) && Dedup(w) && Epochs(w, f, owners, ends)
    requires Unforced(Submitted(w, job, c), j) && FieldOf(Submitted(w, job, c), j) == f
    ensures CallOk(Submitted(w, job, c), j, Later(w, BySubmitter(job, c), f, owners))
  {
    if j == job {
      SubmitKeepsOwnCall(w, job, c, f, owners, ends);
    } else {
      SubmitMoves(w, job, c);
      hide Submitted, Wins, Dedup;
      assert CallOk(w, j, owners);
    }
  }

  lemma SubmitKeepsOwnCall(w: World, job: JobId, c: SubmitCommand, f: string, owners: seq<JobId>, ends: nat)
    requires CanSubmit(w, job, c) && Dedup(w) && Epochs(w, f, owners, ends)
    requires Unforced(Submitted(w, job, c), job) && FieldOf(Submitted(w, job, c), job) == f
    ensures CallOk(Submitted(w, job, c), job, Later(w, BySubmitter(job, c), f, owners))
  {
    hide Effect, NoRepeats, HasWon;
    SubmitMoves(w, job, c);
    if job in w.submits {
      assert CallOk(w, job, owners);
      SubmitReserves(w, job, c);
      EffectMoves(w, job);
    }
  }

  lemma {:induction false} RunKeepsEpochs(w: World, run: seq<Action>, f: string, owners: seq<JobId>, ends: nat)
    requires IsRun(w, run) && Dedup(w) && Epochs(w, f, owners, ends)
    ensures Epochs(Exec(w, run), f, owners + Owners(w, run, f), ends + Removals(w, run, f))
    decreases |run|
  {
    hide Epochs, Apply, Enabled, Dedup;
    if run == [] {
      assert owners + Owners(w, run, f) == owners;
    } else {
      var next := Later(w, run[0], f, owners);
      StepKeepsEpochs(w, run[0], f, owners, ends);
      StepKeepsDedup(w, run[0]);
      RunKeepsEpochs(Apply(w, run[0]), run[1..], f, next, ends + if Ends(w, run[0], f) then 1 else 0);
      assert next + Owners(Apply(w, run[0]), run[1..], f) == owners + Owners(w, run, f);
    }
  }

  /**
   In every run, with no condition at all: the owners of a field are different calls for
   it, one for each epoch, and there is one epoch more than removals at most; every
   unforced call that queued a job owned an epoch; and every dedup hit names an owner.
   */
  lemma OnlyOwnersQueue(run: seq<Action>, w: World, f: string)
    requires Reaches(run, w)
    ensures var owners := Owners(Init(), run, f);
      && NoRepeats(owners)
      && |owners| == Removals(Init(), run, f) + (if f in w.db.dedup then 1 else 0)
      && (forall o | o in owners :: o in Calls(w, f))
      && (forall j | j in Calls(w, f) && j in w.hist.queued :: j in owners)
      && (forall j | j in Calls(w, f) && w.submits[j].pc.Returned? :: w.submits[j].pc.job in owners)
  {
    RunKeepsEpochs(Init(), run, f, [], 0);
    assert [] + Owners(Init(), run, f) == Owners(Init(), run, f);
    ReachableDedup(w);
    forall j | j in Calls(w, f) ensures CallOk(w, j, Owners(Init(), run, f)) && OwnerOk(w, j) {
    }
  }

  /** The unforced calls for `f` that queued their job. */
  ghost function Queued(w: World, f: string): set<JobId> {
    set j | j in Calls(w, f) && j in w.hist.queued
  }

  /** However often a field is freed, its unforced calls queue at most one job more than that. */
  lemma AtMostOneJobPerEpoch(run: seq<Action>, w: World, f: string)
    requires Reaches(run, w)
    ensures |Queued(w, f)| <= Removals(Init(), run, f) + 1
  {
    OnlyOwnersQueue(run, w, f);
    NoMoreThanListed(Queued(w, f), Owners(Init(), run, f));
  }

  lemma {:induction false} NoMoreThanListed(s: set<JobId>, list: seq<JobId>)
    requires forall j | j in s :: j in list
    ensures |s| <= |list|
    decreases |list|
  {
    if list == [] {
      assert s == {};
    } else {
      var rest := s - {list[0]};
      NoMoreThanListed(rest, list[1..]);
      assert s <= rest + {list[0]};
    }
  }
}
