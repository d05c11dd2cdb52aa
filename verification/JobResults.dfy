/**
 What a stored result is worth, read off the run that led to it: it is the last one a
 worker stored and nobody dropped, and it says what that worker met.
 */
module JobResults {
  import opened JobMachine
  import opened JobDelivery

  // ----- the worlds along a run ----------------------------------------------------------------

  lemma {:induction false} PrefixRuns(w: World, run: seq<Action>, i: nat)
    requires IsRun(w, run) && i <= |run|
    ensures IsRun(w, run[..i])
    ensures i < |run| ==> Enabled(Exec(w, run[..i]), run[i])
    ensures i == |run| ==> Exec(w, run[..i]) == Exec(w, run)
    decreases i
  {
    if i > 0 {
      PrefixRuns(Apply(w, run[0]), run[1..], i - 1);
      assert run[..i][1..] == run[1..][..i - 1];
      assert i < |run| ==> run[1..][i - 1] == run[i];
    } else {
      assert run[..0] == [];
    }
  }

  /** Before step `i`. */
  function Before(run: seq<Action>, i: nat): World
    requires IsRun(Init(), run) && i <= |run|
  {
    PrefixRuns(Init(), run, i);
    Exec(Init(), run[..i])
  }

  lemma LastStep(run: seq<Action>)
    requires IsRun(Init(), run) && run != []
    ensures var n := |run| - 1;
      && IsRun(Init(), run[..n]) && Enabled(Before(run, n), run[n])
      && Exec(Init(), run) == Apply(Before(run, n), run[n]) && Before(run, n) == Exec(Init(), run[..n])
      && forall i | 0 <= i <= n :: Before(run, i) == Before(run[..n], i)
  {
    var n := |run| - 1;
    hide IsRun, Exec, Enabled, Apply;
    PrefixRuns(Init(), run, n);
    assert run[..n] + [run[n]] == run;
    RunExtends(Init(), run[..n], run[n]);
    assert run[..n][..n] == run[..n];
    forall i | 0 <= i <= n ensures Before(run, i) == Before(run[..n], i) {
      assert run[..n][..i] == run[..i];
    }
  }

  // ----- storing and dropping ------------------------------------------------------------------

  /** The step writes this result of this job. */
  predicate Stores(w: World, a: Action, job: JobId, s: Status) {
    && a.ByWorker? && a.work == StoreResult && CanWork(w, a.worker, StoreResult)
    && w.workers[a.worker].pc.status == s && EntryAt(w.db, w.workers[a.worker].pc.at).job == job
  }

  predicate StoresSome(w: World, a: Action, job: JobId) {
    && a.ByWorker? && a.work == StoreResult && CanWork(w, a.worker, StoreResult)
    && EntryAt(w.db, w.workers[a.worker].pc.at).job == job
  }

  predicate Has(w: World, job: JobId, s: Status) {
    job in w.db.results && w.db.results[job] == s
  }

  lemma SubmitKeepsResults(w: World, job: JobId, c: SubmitCommand)
    requires CanSubmit(w, job, c)
    ensures var v := Submitted(w, job, c);
      v.db.results == w.db.results && v.hist.stored == w.hist.stored && v.hist.dropped == w.hist.dropped
  {
    hide Submitted;
    SubmitFrame(w, job, c);
  }

  lemma WorkStores(w: World, worker: WorkerId, c: WorkerCommand, job: JobId, s: Status)
    requires CanWork(w, worker, c)
    ensures var v, a := Worked(w, worker, c), ByWorker(worker, c);
      && (Has(v, job, s) <==> Stores(w, a, job, s) || (Has(w, job, s) && !StoresSome(w, a, job)))
      && ((job, s) in v.hist.stored <==> Stores(w, a, job, s) || (job, s) in w.hist.stored)
  {
    if c != StoreResult {
      QuietWork(w, worker, c);
      hide Worked, CanWork;
    }
  }

  lemma QuietWork(w: World, worker: WorkerId, c: WorkerCommand)
    requires CanWork(w, worker, c) && c != StoreResult
    ensures var v := Worked(w, worker, c);
      v.db.results == w.db.results && v.hist.stored == w.hist.stored && v.hist.dropped == w.hist.dropped
  {
  }

  lemma ResultStep(w: World, a: Action, job: JobId, s: Status)
    requires Enabled(w, a)
    ensures Has(Apply(w, a), job, s) <==>
              Stores(w, a, job, s) || (Has(w, job, s) && !StoresSome(w, a, job) && a != ByRedis(DropResult(job)))
    ensures (job, s) in Apply(w, a).hist.stored <==> Stores(w, a, job, s) || (job, s) in w.hist.stored
  {
    hide CanWork, Worked, CanSubmit, Submitted;
    match a
    case BySubmitter(j, c) => SubmitKeepsResults(w, j, c);
    case ByWorker(k, c) => WorkStores(w, k, c, job, s);
    case ByRedis(c) =>
  }

  /** Step `i` stored `s`, and no later one stored or dropped a result of the job. */
  ghost predicate StandsSince(run: seq<Action>, i: nat, job: JobId, s: Status)
    requires IsRun(Init(), run)
  {
    && i < |run| && Stores(Before(run, i), run[i], job, s)
    && forall j | i < j < |run| :: !StoresSome(Before(run, j), run[j], job) && run[j] != ByRedis(DropResult(job))
  }

  /** A job has a result exactly when a step stored it that no later one overwrote or dropped. */
  lemma {:induction false} ResultIsTheLastStored(run: seq<Action>, job: JobId, s: Status)
    requires IsRun(Init(), run)
    ensures Has(Exec(Init(), run), job, s) <==> exists i :: StandsSince(run, i, job, s)
    decreases |run|
  {
    if run != [] {
      hide Stores, StoresSome, Has, Before, Apply, Enabled;
      var n := |run| - 1;
      LastStep(run);
      ResultIsTheLastStored(run[..n], job, s);
      ResultStep(Before(run, n), run[n], job, s);
      forall i: nat ensures StandsSince(run, i, job, s) <==> StandsAfter(run, i, job, s) {
        StandsOn(run, i, job, s);
      }
      if Stores(Before(run, n), run[n], job, s) {
        assert StandsAfter(run, n, job, s);
      }
      if i: nat :| StandsSince(run[..n], i, job, s) {
        assert Undisturbed(run, job) ==> StandsAfter(run, i, job, s);
      }
    }
  }

  /** The last step neither stored nor dropped a result of the job. */
  ghost predicate Undisturbed(run: seq<Action>, job: JobId)
    requires IsRun(Init(), run) && run != []
  {
    var n := |run| - 1;
    !StoresSome(Before(run, n), run[n], job) && run[n] != ByRedis(DropResult(job))
  }

  ghost predicate StandsAfter(run: seq<Action>, i: nat, job: JobId, s: Status)
    requires IsRun(Init(), run) && run != [] && IsRun(Init(), run[..|run| - 1])
  {
    var n := |run| - 1;
    (i == n && Stores(Before(run, n), run[n], job, s)) || (StandsSince(run[..n], i, job, s) && Undisturbed(run, job))
  }

  lemma StandsOn(run: seq<Action>, i: nat, job: JobId, s: Status)
    requires IsRun(Init(), run) && run != [] && IsRun(Init(), run[..|run| - 1])
    ensures StandsSince(run, i, job, s) <==> StandsAfter(run, i, job, s)
  {
    hide Stores, StoresSome, Before, IsRun;
    LastStep(run);
    var n := |run| - 1;
    if StandsSince(run, i, job, s) && i < n {
      forall j | i < j < n
        ensures !StoresSome(Before(run[..n], j), run[..n][j], job) && run[..n][j] != ByRedis(DropResult(job))
      {
        assert run[..n][j] == run[j];
      }
    }
    if StandsSince(run[..n], i, job, s) && Undisturbed(run, job) {
      forall j | i < j < |run| ensures !StoresSome(Before(run, j), run[j], job) && run[j] != ByRedis(DropResult(job)) {
        if j < n {
          assert run[..n][j] == run[j];
        }
      }
    }
  }

  /** The record of stored results is what the run stored. */
  lemma {:induction false} StoredIsRecorded(run: seq<Action>, job: JobId, s: Status)
    requires IsRun(Init(), run)
    ensures (job, s) in Exec(Init(), run).hist.stored <==> exists i :: 0 <= i < |run| && Stores(Before(run, i), run[i], job, s)
    decreases |run|
  {
    if run != [] {
      hide Stores, Before, Apply, Enabled;
      var n := |run| - 1;
      LastStep(run);
      StoredIsRecorded(run[..n], job, s);
      ResultStep(Before(run, n), run[n], job, s);
      if i :| 0 <= i < n && Stores(Before(run[..n], i), run[..n][i], job, s) {
        assert Stores(Before(run, i), run[i], job, s);
      }
      if i :| 0 <= i < |run| && Stores(Before(run, i), run[i], job, s) {
        assert i < n ==> Stores(Before(run[..n], i), run[..n][i], job, s);
      }
    }
  }

  /** Step `i` stored `s`, and it is still there, or was dropped later and not stored again. */
  ghost predicate StoredOnce(run: seq<Action>, i: nat, job: JobId, s: Status)
    requires IsRun(Init(), run)
  {
    && i < |run| && Stores(Before(run, i), run[i], job, s)
    && (forall j | i < j < |run| :: !StoresSome(Before(run, j), run[j], job))
    && (Has(Exec(Init(), run), job, s) || exists j :: i < j < |run| && run[j] == ByRedis(DropResult(job)))
  }

  lemma DropStep(w: World, a: Action, job: JobId)
    requires Enabled(w, a)
    ensures StoresSome(w, a, job) <==> exists s :: Stores(w, a, job, s)
    ensures job in Results(Apply(w, a)) ==> StoresSome(w, a, job) || job in Results(w)
  {
    if a.BySubmitter? {
      SubmitKeepsResults(w, a.job, a.submit);
    }
    if StoresSome(w, a, job) {
      assert Stores(w, a, job, w.workers[a.worker].pc.status);
    }
  }

  lemma StoredOnceStays(run: seq<Action>, i: nat, job: JobId, s: Status)
    requires IsRun(Init(), run) && run != [] && IsRun(Init(), run[..|run| - 1]) && Enabled(Before(run, |run| - 1), run[|run| - 1])
    requires StoredOnce(run[..|run| - 1], i, job, s) && !StoresSome(Before(run, |run| - 1), run[|run| - 1], job)
    ensures StoredOnce(run, i, job, s)
  {
    hide Stores, StoresSome, Has, Before, Apply, Enabled, IsRun;
    var n := |run| - 1;
    LastStep(run);
    ResultStep(Before(run, n), run[n], job, s);
    forall j | 0 <= j < n ensures run[..n][j] == run[j] && Before(run[..n], j) == Before(run, j) {
    }
    if !Has(Exec(Init(), run), job, s) && run[n] != ByRedis(DropResult(job)) {
      var j :| i < j < n && run[..n][j] == ByRedis(DropResult(job));
      assert run[j] == ByRedis(DropResult(job));
    }
  }

  /** So it is with every job that counts as answered. */
  lemma {:induction false} ResultsWereStored(run: seq<Action>, job: JobId)
    requires IsRun(Init(), run) && job in Results(Exec(Init(), run))
    ensures exists i, s :: StoredOnce(run, i, job, s)
    decreases |run|
  {
    if run != [] {
      hide Stores, StoresSome, Has, Before, Apply, Enabled, Results, StoredOnce;
      var n := |run| - 1;
      LastStep(run);
      DropStep(Before(run, n), run[n], job);
      if StoresSome(Before(run, n), run[n], job) {
        var s :| Stores(Before(run, n), run[n], job, s);
        JustStored(run, job, s);
      } else {
        ResultsWereStored(run[..n], job);
        var i: nat, s :| StoredOnce(run[..n], i, job, s);
        StoredOnceStays(run, i, job, s);
      }
    }
  }

  lemma JustStored(run: seq<Action>, job: JobId, s: Status)
    requires IsRun(Init(), run) && run != [] && Stores(Before(run, |run| - 1), run[|run| - 1], job, s)
    ensures StoredOnce(run, |run| - 1, job, s)
  {
    hide Stores, StoresSome, Has, Before, Apply, Enabled;
    LastStep(run);
    ResultStep(Before(run, |run| - 1), run[|run| - 1], job, s);
  }

  /**
   An answered job was announced, and the last result stored for it is the one there is,
   unless its key expired or the job was cancelled afterwards.
   */
  lemma AnsweredJobsHaveResults(run: seq<Action>, w: World, job: JobId)
    requires Reaches(run, w) && Answered(w, job)
    ensures job in w.hist.announced && exists i, s :: StoredOnce(run, i, job, s)
    ensures (forall i | 0 <= i < |run| :: run[i] != ByRedis(DropResult(job))) ==> job in w.db.results
  {
    ResultsWereStored(run, job);
    var i, s :| StoredOnce(run, i, job, s);
  }

  // ----- what a status is worth ----------------------------------------------------------------

  /** A worker's step that meets what `s` says of an entry of the job. */
  ghost predicate Meets(w: World, a: Action, job: JobId, s: Status) {
    && a.ByWorker? && a.worker in w.workers && CanWork(w, a.worker, a.work)
    && var k := w.workers[a.worker];
       && (k.pc.Deciding? || k.pc.Working?) && IsEntry(w.db, k.pc.at)
       && var e := EntryAt(w.db, k.pc.at);
          && e.job == job
          && match s
             case OtherRevision => a.work == Decide && e.revision != k.revision
             case NoImage => a.work.Process? && e.revision == k.revision && e.imageHash !in w.db.images
             case NoMetadata =>
               a.work.Process? && e.revision == k.revision && e.imageHash in w.db.images && !a.work.ready
             case Rendered(ok) => a.work == Process(true, ok) && e.revision == k.revision && e.imageHash in w.db.images
  }

  ghost predicate Met(run: seq<Action>, n: nat, job: JobId, s: Status)
    requires IsRun(Init(), run) && n <= |run|
  {
    exists i :: 0 <= i < n && Meets(Before(run, i), run[i], job, s)
  }

  /** A worker works only on entries of its revision, and stores only what it met. */
  ghost predicate HonestWorker(run: seq<Action>, w: World, k: Worker)
    requires IsRun(Init(), run)
  {
    && (k.pc.Working? ==> IsEntry(w.db, k.pc.at) && EntryAt(w.db, k.pc.at).revision == k.revision)
    && (k.pc.Storing? ==> IsEntry(w.db, k.pc.at) && Met(run, |run|, EntryAt(w.db, k.pc.at).job, k.pc.status))
  }

  ghost predicate Honest(run: seq<Action>)
    requires IsRun(Init(), run)
  {
    var w := Exec(Init(), run);
    forall k | k in w.workers :: HonestWorker(run, w, w.workers[k])
  }

  lemma MetStays(run: seq<Action>, job: JobId, s: Status)
    requires IsRun(Init(), run) && run != [] && IsRun(Init(), run[..|run| - 1])
    ensures Met(run[..|run| - 1], |run| - 1, job, s) ==> Met(run, |run|, job, s)
    ensures Meets(Before(run, |run| - 1), run[|run| - 1], job, s) ==> Met(run, |run|, job, s)
  {
    hide Meets, Before, Enabled, Apply;
    LastStep(run);
    var n := |run| - 1;
    if i :| 0 <= i < n && Meets(Before(run[..n], i), run[..n][i], job, s) {
      assert Meets(Before(run, i), run[i], job, s);
    }
  }

  ghost predicate KeepsPlace(w: World, v: World, k: WorkerId) {
    k in w.workers && k in v.workers && v.workers[k].pc == w.workers[k].pc && v.workers[k].revision == w.workers[k].revision
  }

  /** The worker has just decided to work, or to store what it met. */
  ghost predicate Decides(w: World, a: Action, v: World, k: WorkerId) {
    && a.ByWorker? && a.worker == k && k in w.workers && k in v.workers
    && v.workers[k].revision == w.workers[k].revision
    && (w.workers[k].pc.Deciding? || w.workers[k].pc.Working?)
    && var pc := v.workers[k].pc;
       && (pc.Working? || pc.Storing?) && pc.at == w.workers[k].pc.at && IsEntry(w.db, pc.at)
       && (pc.Working? ==> EntryAt(w.db, pc.at).revision == w.workers[k].revision)
       && (pc.Storing? && (w.workers[k].pc.Working? ==> EntryAt(w.db, pc.at).revision == w.workers[k].revision) ==>
             Meets(w, a, EntryAt(w.db, pc.at).job, pc.status))
  }

  /** What a step makes a worker work on or store, it has just met. */
  lemma WorkMeets(w: World, k: WorkerId, c: WorkerCommand)
    requires CanWork(w, k, c)
    ensures var v := Worked(w, k, c); var pc := v.workers[k].pc;
      pc.Working? || pc.Storing? ==> KeepsPlace(w, v, k) || Decides(w, ByWorker(k, c), v, k)
  {
    if c != Decide && !c.Process? {
      KeepsOrLeaves(w, k, c);
      hide Worked, CanWork;
    }
  }

  lemma KeepsOrLeaves(w: World, k: WorkerId, c: WorkerCommand)
    requires CanWork(w, k, c) && c != Decide && !c.Process?
    ensures var v := Worked(w, k, c);
      KeepsPlace(w, v, k) || (k in v.workers && !v.workers[k].pc.Working? && !v.workers[k].pc.Storing?)
  {
  }

  lemma OthersKeepPlace(w: World, worker: WorkerId, c: WorkerCommand, k: WorkerId)
    requires CanWork(w, worker, c) && k != worker && k in Worked(w, worker, c).workers
    ensures KeepsPlace(w, Worked(w, worker, c), k)
  {
  }

  lemma StepMeets(w: World, a: Action, k: WorkerId)
    requires Enabled(w, a) && k in Apply(w, a).workers
    ensures var v := Apply(w, a); var pc := v.workers[k].pc;
      pc.Working? || pc.Storing? ==> KeepsPlace(w, v, k) || Decides(w, a, v, k)
  {
    hide Submitted, CanSubmit, Worked, CanWork, Decides;
    match a
    case BySubmitter(j, c) => SubmitFrame(w, j, c);
    case ByWorker(worker, c) =>
      if worker == k {
        WorkMeets(w, k, c);
      } else {
        OthersKeepPlace(w, worker, c, k);
      }
    case ByRedis(c) =>
  }

  lemma {:induction false} RunsAreHonest(run: seq<Action>)
    requires IsRun(Init(), run)
    ensures Honest(run)
    decreases |run|
  {
    if run != [] {
      hide Before, Meets, Met, Apply, Enabled;
      var n := |run| - 1;
      LastStep(run);
      RunsAreHonest(run[..n]);
      var w, v := Before(run, n), Exec(Init(), run);
      StepGrows(w, run[n]);
      assert Honest(run[..n]);
      forall k | k in v.workers ensures HonestWorker(run, v, v.workers[k]) {
        StepMeets(w, run[n], k);
        if v.workers[k].pc.Storing? {
          MetStays(run, EntryAt(v.db, v.workers[k].pc.at).job, v.workers[k].pc.status);
        }
      }
    }
  }

  /** Every stored status was met by a worker, earlier in the run, with an entry of that job. */
  lemma StatusIsEarned(run: seq<Action>, i: nat, job: JobId, s: Status)
    requires IsRun(Init(), run) && i < |run| && Stores(Before(run, i), run[i], job, s)
    ensures Met(run, i, job, s)
  {
    PrefixRuns(Init(), run, i);
    RunsAreHonest(run[..i]);
    var w := Before(run, i);
    assert HonestWorker(run[..i], w, w.workers[run[i].worker]);
    var j :| 0 <= j < i && Meets(Before(run[..i], j), run[..i][j], job, s);
    assert run[..i][..j] == run[..j];
    assert Meets(Before(run, j), run[j], job, s);
  }

  /** So is the status of every result that is there. */
  lemma ResultsAreEarned(run: seq<Action>, w: World, job: JobId)
    requires Reaches(run, w) && job in w.db.results
    ensures Met(run, |run|, job, w.db.results[job])
  {
    hide Met, IsRun;
    var s := w.db.results[job];
    ResultIsTheLastStored(run, job, s);
    var i: nat :| StandsSince(run, i, job, s);
    StatusIsEarned(run, i, job, s);
    MetEarlier(run, i, job, s);
  }

  lemma MetEarlier(run: seq<Action>, n: nat, job: JobId, s: Status)
    requires IsRun(Init(), run) && n <= |run| && Met(run, n, job, s)
    ensures Met(run, |run|, job, s)
  {
  }
}
