/**
 The shared Redis instance as the submitters and workers see it: it holds the
 world of the job protocol, takes one command at a time, and lets every other
 process act between two commands of the caller.
 */
module SharedRedis {
  import opened JobMachine
  import opened JobDelivery

  datatype Process = Caller(job: JobId) | Daemon(worker: WorkerId)

  predicate ActsFor(a: Action, me: Process) {
    match me
    case Caller(job) => a.BySubmitter? && a.job == job
    case Daemon(worker) => a.ByWorker? && a.worker == worker
  }

  /** `me` stands in `v` where it stood in `w`. */
  ghost predicate Same(w: World, v: World, me: Process) {
    match me
    case Caller(job) => (job in w.submits <==> job in v.submits) && (job in w.submits ==> v.submits[job] == w.submits[job])
    case Daemon(worker) => (worker in w.workers <==> worker in v.workers) && (worker in w.workers ==> v.workers[worker] == w.workers[worker])
  }

  lemma OthersLeaveMeAlone(w: World, a: Action, me: Process)
    requires Enabled(w, a) && !ActsFor(a, me)
    ensures Same(w, Apply(w, a), me)
  {
    match a
    case BySubmitter(job, c) => SubmitLeaves(w, job, c, me);
    case ByWorker(worker, c) =>
    case ByRedis(c) =>
  }

  lemma SubmitLeaves(w: World, job: JobId, c: SubmitCommand, me: Process)
    requires CanSubmit(w, job, c) && me != Caller(job)
    ensures Same(w, Submitted(w, job, c), me)
  {
    SubmitFrame(w, job, c);
  }

  class Redis {
    var world: World

    ghost predicate Valid()
      reads this
    {
      Reachable(world)
    }

    constructor ()
      ensures Valid() && world == Init()
    {
      world := Init();
      InitReachable();
    }

    /** One command, taken atomically. */
    method Do(a: Action)
      requires Valid() && Enabled(world, a)
      modifies this
      ensures Valid() && world == Apply(old(world), a)
    {
      ReachableStep(world, a);
      world := Apply(world, a);
    }

    /** Any number of commands of any other processes, and any expiry. */
    method Yield(me: Process)
      requires Valid()
      modifies this
      ensures Valid() && Same(old(world), world, me) && Grows(old(world), world)
    {
      var others: seq<Action> := *;
      for i := 0 to |others|
        invariant Valid() && Same(old(world), world, me) && Grows(old(world), world)
      {
        if Enabled(world, others[i]) && !ActsFor(others[i], me) {
          StepGrows(world, others[i]);
          OthersLeaveMeAlone(world, others[i], me);
          Do(others[i]);
        }
      }
    }
  }
}
