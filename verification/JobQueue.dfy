/**
 SubmitJob of server/queue.go against the shared Redis instance: every command
 may fail, and other calls, workers and expiries come between any two of them.
 */
module JobQueue {
  import opened Basics
  import opened JobMachine
  import opened JobDedup
  import opened JobDelivery
  import opened JobRelease
  import opened SharedRedis

  datatype Answer = Accepted(job: JobId) | Duplicate(job: JobId) | Failed

  class Queue {
    const redis: Redis

    constructor (redis: Redis)
      ensures this.redis == redis
    {
      this.redis := redis;
    }

    /**
     Whatever happens meanwhile, an accepted call has queued exactly its own
     entry; a duplicate answer comes only from an unforced call, and for a steady
     field it names the job that holds the reservation; and a failed call leaves no
     reservation behind, unless its release is `lost` or the reply to its reservation was,
     `unsettled`.
     */
    method SubmitJob(job: JobId, req: Request, lost: bool) returns (answer: Answer, ghost unsettled: bool)
      requires redis.Valid() && job !in redis.world.submits && req.Valid()
      modifies redis
      ensures redis.Valid() && job in redis.world.submits && redis.world.submits[job].req == req
      ensures answer.Accepted? ==>
                && answer.job == job
                && job in redis.world.hist.queued
                && redis.world.hist.queued[job].stream == req.priority
                && IsEntry(redis.world.db, redis.world.hist.queued[job])
                && EntryAt(redis.world.db, redis.world.hist.queued[job])
                   == Entry(job, req.imageHash, req.revision, req.latest, false)
                && req.imageHash in redis.world.db.images
      ensures answer.Duplicate? ==>
                && !req.ForceNew()
                && job !in redis.world.hist.queued
                && (Steady(redis.world, req.field) ==>
                      req.field in redis.world.db.dedup && redis.world.db.dedup[req.field] == answer.job)
      ensures answer.Failed? ==> redis.world.submits[job].pc == Errored
      ensures answer.Failed? && !lost && !unsettled ==> !Names(redis.world, req.field, job)
      ensures unsettled ==> answer.Failed? && req.field in redis.world.hist.faulted
    {
      unsettled := false;
      Step(job, Begin(req));
      if !req.ForceNew() {
        var broken: bool, stale: bool, gone: bool := *, *, *;
        var found := LookUp(job, broken, stale, gone);
        if found.Some? {
          Conclude(job);
          return Duplicate(found.value), false;
        }
        answer, unsettled := ReserveField(job, lost);
        if answer.Failed? || answer.Duplicate? {
          Conclude(job);
          return;
        }
      }
      answer := StoreAndEnqueue(job, lost);
      Conclude(job);
    }

    /** The facts every reachable world has about this call. */
    ghost method Conclude(job: JobId)
      requires redis.Valid() && job in redis.world.submits
      ensures Dedup(redis.world) && Ledger(redis.world)
      ensures job in redis.world.hist.queued ==> Recorded(redis.world, job)
      ensures Unforced(redis.world, job) ==> OwnerOk(redis.world, job)
      ensures Unforced(redis.world, job) && Steady(redis.world, FieldOf(redis.world, job)) ==> SteadyOk(redis.world, job)
    {
      ReachableDedup(redis.world);
      ReachableDelivery(redis.world);
    }

    /** One command of this call. */
    method Step(job: JobId, c: SubmitCommand)
      requires redis.Valid() && CanSubmit(redis.world, job, c)
      modifies redis
      ensures redis.Valid() && redis.world == Submitted(old(redis.world), job, c)
    {
      redis.Do(BySubmitter(job, c));
    }

    /**
     HGET, which may be broken, and the HDEL of a hit the clock calls stale, which may
     get lost.
     */
    method LookUp(job: JobId, broken: bool, stale: bool, lost: bool) returns (found: Option<JobId>)
      requires redis.Valid() && At(redis.world, job, Looking)
      modifies redis
      ensures redis.Valid() && job in redis.world.submits
      ensures redis.world.submits[job].req == old(redis.world.submits[job].req)
      ensures redis.world.submits[job].pc == if found.Some? then Returned(found.value, true) else Reserving
      ensures found.Some? ==> !broken && !stale && redis.world.submits[job].req.field in redis.world.db.dedup
      ensures found.Some? ==> redis.world.db.dedup[redis.world.submits[job].req.field] == found.value
      ensures !broken && !found.Some? && !lost ==> redis.world.submits[job].req.field !in redis.world.db.dedup
    {
      redis.Yield(Caller(job));
      if broken {
        Step(job, Fault(false));
        return None;
      }
      var field := redis.world.submits[job].req.field;
      if field !in redis.world.db.dedup {
        Step(job, Lookup(false));
        return None;
      }
      var existing := redis.world.db.dedup[field];
      Step(job, Lookup(stale));
      if !stale {
        return Some(existing);
      }
      redis.Yield(Caller(job));
      Step(job, Evict(lost));
      return None;
    }

    /** HSETNX, then either the reread of the winner or the expiry of our own reservation. */
    method ReserveField(job: JobId, lost: bool) returns (answer: Answer, ghost unsettled: bool)
      requires redis.Valid() && At(redis.world, job, Reserving)
      modifies redis
      ensures redis.Valid() && job in redis.world.submits
      ensures redis.world.submits[job].req == old(redis.world.submits[job].req)
      ensures redis.world.submits[job].pc ==
              match answer case Accepted(_) => StoringImage case Duplicate(j) => Returned(j, true) case Failed => Errored
      ensures answer.Failed? && !lost && !unsettled ==> !Names(redis.world, redis.world.submits[job].req.field, job)
      ensures unsettled ==> answer.Failed? && redis.world.submits[job].req.field in redis.world.hist.faulted
    {
      unsettled := false;
      var field := redis.world.submits[job].req.field;
      redis.Yield(Caller(job));
      var broken: bool := *;
      if broken {
        var applied: bool := *;
        Unnamed(job);
        Step(job, Fault(applied));
        return Failed, applied;
      }
      var taken := field in redis.world.db.dedup;
      Step(job, Reserve);
      redis.Yield(Caller(job));
      broken := *;
      if broken {
        if taken {
          Unnamed(job);
        }
        Step(job, Fault(false));
        if !taken {
          GiveUp(job, lost);
        }
        return Failed, false;
      }
      if taken {
        if field in redis.world.db.dedup {
          answer := Duplicate(redis.world.db.dedup[field]);
        } else {
          answer := Failed;
        }
        Unnamed(job);
        Step(job, Reread);
      } else {
        Step(job, Touch);
        answer := Accepted(job);
      }
    }

    /** SET of the image, then the enqueue; a failure gives the reservation back. */
    method StoreAndEnqueue(job: JobId, lost: bool) returns (answer: Answer)
      requires redis.Valid() && At(redis.world, job, StoringImage)
      modifies redis
      ensures redis.Valid() && job in redis.world.submits
      ensures redis.world.submits[job].req == old(redis.world.submits[job].req)
      ensures answer == Accepted(job) || answer == Failed
      ensures redis.world.submits[job].pc == if answer.Accepted? then Returned(job, false) else Errored
      ensures answer.Accepted? ==>
                job in redis.world.hist.queued && redis.world.submits[job].req.imageHash in redis.world.db.images
      ensures answer.Failed? && !lost ==> !Names(redis.world, redis.world.submits[job].req.field, job)
    {
      var done := Attempt(job, StoreImage, lost);
      if done {
        done := Attempt(job, Enqueue, lost);
      }
      answer := if done then Accepted(job) else Failed;
    }

    /** One of the last two commands; when it fails, a call that holds the reservation gives it back. */
    method Attempt(job: JobId, c: SubmitCommand, lost: bool) returns (done: bool)
      requires c == StoreImage || c == Enqueue
      requires redis.Valid() && At(redis.world, job, if c == StoreImage then StoringImage else Enqueuing)
      modifies redis
      ensures redis.Valid() && job in redis.world.submits
      ensures redis.world.submits[job].req == old(redis.world.submits[job].req)
      ensures redis.world.submits[job].pc ==
              if !done then Errored else if c == StoreImage then Enqueuing else Returned(job, false)
      ensures done && c == StoreImage ==> redis.world.submits[job].req.imageHash in redis.world.db.images
      ensures !done && !lost ==> !Names(redis.world, redis.world.submits[job].req.field, job)
      ensures done && c == Enqueue ==> job in redis.world.hist.queued && old(redis.world.db.images) <= redis.world.db.images
    {
      var forced := redis.world.submits[job].req.ForceNew();
      redis.Yield(Caller(job));
      var broken: bool := *;
      if broken {
        var applied: bool := *;
        Step(job, Fault(applied));
        if forced {
          Unnamed(job);
        } else {
          GiveUp(job, lost);
        }
        return false;
      }
      Step(job, c);
      return true;
    }

    /** A call before its reservation, or a forced one, is not what its field names. */
    ghost method Unnamed(job: JobId)
      requires redis.Valid() && job in redis.world.submits
      requires redis.world.submits[job].req.ForceNew() || !PastReserve(redis.world.submits[job].pc)
      ensures !Names(redis.world, redis.world.submits[job].req.field, job)
    {
      if Names(redis.world, redis.world.submits[job].req.field, job) {
        OnlyWinnersAreNamed(redis.world, redis.world.submits[job].req.field, job);
      }
    }

    /** releaseDedupReservation, which may itself get lost. */
    method GiveUp(job: JobId, lost: bool)
      requires redis.Valid() && At(redis.world, job, Releasing)
      modifies redis
      ensures redis.Valid() && At(redis.world, job, Errored)
      ensures redis.world.submits[job].req == old(redis.world.submits[job].req)
      ensures !lost ==> !Names(redis.world, redis.world.submits[job].req.field, job)
    {
      redis.Yield(Caller(job));
      Step(job, Release(lost));
    }
  }
}
