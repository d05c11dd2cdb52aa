/**
 The worker loop of server/worker/consumer.py: weighted reads of the two streams,
 recovery of orphaned entries, and the processing of one message, any part of
 which may stop on an exception.
 */
module JobConsumer {
  import opened Basics
  import opened JobMachine
  import opened JobDelivery
  import opened JobSchedule
  import opened SharedRedis

  /** The job at `at` was answered, or a low-stream copy carries it; this worker's delivery is off the books. */
  ghost predicate Settled(w: World, at: Ref) {
    && IsEntry(w.db, at)
    && (Answered(w, EntryAt(w.db, at).job) || exists k :: IsCopy(w.db, k, EntryAt(w.db, at)))
  }

  lemma SettledStays(w: World, v: World, at: Ref)
    requires Settled(w, at) && Grows(w, v)
    ensures Settled(v, at)
  {
    if k :| IsCopy(w.db, k, EntryAt(w.db, at)) {
      assert IsCopy(v.db, k, EntryAt(v.db, at));
    }
  }

  /** A result with this status was stored for the job of the entry. */
  ghost predicate Said(w: World, at: Ref, s: Status) {
    IsEntry(w.db, at) && (EntryAt(w.db, at).job, s) in w.hist.stored
  }

  /** Settled, or still on some worker's books. */
  ghost predicate Owed(w: World, at: Ref) {
    Settled(w, at) || at.id in StreamOf(w.db, at.stream).pending
  }

  lemma DeliveredIsOwed(w: World, at: Ref)
    requires Reachable(w) && RefOk(w.db, at)
    ensures Owed(w, at)
  {
    ReachableDelivery(w);
    hide Reachable;
    if at.stream == High {
      assert HighKept(w, at.id);
    } else {
      assert LowKept(w, at.id);
    }
  }

  /** The commands that answer, each at its own place. */
  predicate Answers(w: World, worker: WorkerId, c: WorkerCommand) {
    && worker in w.workers
    && var pc := w.workers[worker].pc;
       (c == StoreResult && pc.Storing?) || (c == Announce && pc.Notifying?) || (c == Ack && pc.AckingResult?)
  }

  function AfterAnswer(pc: WorkerPc): WorkerPc {
    match pc
    case Storing(at, _) => Notifying(at)
    case Notifying(at) => AckingResult(at)
    case _ => Idle
  }

  /** The entry's job was answered, and nobody owes it any more. */
  ghost predicate Closed(w: World, at: Ref) {
    && IsEntry(w.db, at) && Answered(w, EntryAt(w.db, at).job)
    && at.id !in StreamOf(w.db, at.stream).pending
  }

  lemma SaidStays(u: World, v: World, w: World, at: Ref, s: Status)
    requires Grows(u, v) && Grows(v, w)
    ensures Grows(u, w) && (Said(v, at, s) ==> Said(w, at, s))
  {
  }

  /** What the command at `pc` has brought about. */
  ghost predicate AnswerDone(pc: WorkerPc, w: World) {
    match pc
    case Storing(at, s) => Said(w, at, s)
    case AckingResult(at) => Closed(w, at)
    case _ => true
  }

  lemma ActDoes(w: World, worker: WorkerId, c: WorkerCommand)
    requires Answers(w, worker, c) && WorkerOk(w, w.workers[worker]) && StreamOk(w.db.high) && StreamOk(w.db.low)
    ensures CanWork(w, worker, c)
    ensures var v := Worked(w, worker, c);
      && worker in v.workers
      && v.workers[worker].pc == AfterAnswer(w.workers[worker].pc)
      && v.workers[worker].backlog == w.workers[worker].backlog
      && AnswerDone(w.workers[worker].pc, v)
  {
  }

  lemma RefStays(w: World, v: World, at: Ref)
    requires RefOk(w.db, at) && Grows(w, v)
    ensures RefOk(v.db, at)
  {
  }

  class Consumer {
    const redis: Redis
    const name: WorkerId
    const highBurstBeforeLow: int
    var highStreak: int

    /** How many messages of the high stream it has processed. */
    ghost var highDone: nat

    ghost predicate Valid()
      reads this, redis
    {
      redis.Valid() && name in redis.world.workers
    }

    ghost predicate Resting()
      reads this, redis
    {
      Valid() && redis.world.workers[name].pc == Idle && redis.world.workers[name].backlog == []
    }

    constructor (redis: Redis, name: WorkerId, revision: string, burst: int)
      requires redis.Valid() && name !in redis.world.workers
      modifies redis
      ensures Resting() && highStreak == 0 && highDone == 0 && this.redis == redis && this.name == name && highBurstBeforeLow == burst
    {
      this.redis := redis;
      this.name := name;
      this.highBurstBeforeLow := burst;
      this.highStreak := 0;
      this.highDone := 0;
      new;
      redis.Do(ByWorker(name, Join(revision)));
    }

    /** One command of this worker. */
    method Step(c: WorkerCommand)
      requires Valid() && !c.Join? && CanWork(redis.world, name, c)
      modifies redis
      ensures Valid() && redis.world == Worked(old(redis.world), name, c) && Grows(old(redis.world), redis.world)
    {
      WorkGrows(redis.world, name, c);
      redis.Do(ByWorker(name, c));
    }

    /** The others' turn, after which this worker may find itself stopped by an exception. */
    method Pause() returns (stopped: bool)
      requires Valid()
      modifies redis
      ensures Valid() && Grows(old(redis.world), redis.world)
      ensures if stopped then Resting() else redis.world.workers[name] == old(redis.world.workers[name])
    {
      redis.Yield(Daemon(name));
      stopped := *;
      if stopped {
        Step(Abandon);
      }
    }

    /** XREADGROUP of one new entry. */
    method ReadOne(which: Priority) returns (found: bool)
      requires Resting()
      modifies redis
      ensures Valid() && Grows(old(redis.world), redis.world)
      ensures found <==> old(StreamOf(redis.world.db, which).delivered < |StreamOf(redis.world.db, which).entries|)
      ensures if found
              then redis.world.workers[name].pc.Deciding? && redis.world.workers[name].pc.at.stream == which
                   && redis.world.workers[name].backlog == []
              else Resting()
    {
      var s := StreamOf(redis.world.db, which);
      found := s.delivered < |s.entries|;
      if found {
        Step(Read(which));
      }
    }

    /**
     Unless it stops on the way, the message ends acknowledged, and only after
     its job was answered or copied to the low stream.
     */
    method ProcessMessage() returns (outcome: Outcome)
      requires Valid() && redis.world.workers[name].pc.Deciding?
      modifies redis, this`highDone
      ensures Valid() && Grows(old(redis.world), redis.world)
      ensures redis.world.workers[name].pc == Idle
      ensures redis.world.workers[name].backlog == if outcome == Raised then [] else old(redis.world.workers[name].backlog)
      ensures outcome != Raised ==>
        && Settled(redis.world, old(redis.world.workers[name].pc.at))
        && old(redis.world.workers[name].pc.at).id !in
             StreamOf(redis.world.db, old(redis.world.workers[name].pc.at).stream).pending
      ensures outcome == Deferred ==>
        && old(redis.world.workers[name].pc.at).stream == High
        && exists k :: IsCopy(redis.world.db, k, EntryAt(redis.world.db, old(redis.world.workers[name].pc.at)))
      ensures outcome in {Processed, Skipped} ==>
        && Answered(redis.world, EntryAt(redis.world.db, old(redis.world.workers[name].pc.at)).job)
        && exists s :: Said(redis.world, old(redis.world.workers[name].pc.at), s) && (outcome == Processed <==> s.Rendered?)
      ensures highDone == old(highDone)
                + if outcome == Processed && old(redis.world.workers[name].pc.at).stream == High then 1 else 0
    {
      var at := redis.world.workers[name].pc.at;
      var stopped := Pause();
      if stopped {
        return Raised;
      }
      Known();
      Step(Decide);
      var verdict := redis.world.workers[name].pc;
      if verdict.Deferring? {
        outcome := Defer(at);
      } else if verdict.Storing? {
        stopped := Answer(at);
        outcome := if stopped then Raised else Skipped;
        assert !stopped ==> Said(redis.world, at, OtherRevision);
      } else {
        outcome := Work(at);
        if outcome == Processed && at.stream == High {
          highDone := highDone + 1;
        }
      }
    }

    /** Fetches the image, renders, and answers; without an image, or without a rerender's metadata, it answers only. */
    method Work(at: Ref) returns (outcome: Outcome)
      requires Valid() && redis.world.workers[name].pc == Working(at)
      modifies redis
      ensures Valid() && Grows(old(redis.world), redis.world)
      ensures redis.world.workers[name].pc == Idle
      ensures redis.world.workers[name].backlog == if outcome == Raised then [] else old(redis.world.workers[name].backlog)
      ensures outcome != Deferred
      ensures outcome != Raised ==>
        && IsEntry(redis.world.db, at)
        && Answered(redis.world, EntryAt(redis.world.db, at).job)
        && at.id !in StreamOf(redis.world.db, at.stream).pending
      ensures outcome != Raised ==> exists s :: Said(redis.world, at, s) && (outcome == Processed <==> s.Rendered?)
    {
      var stopped := Pause();
      if stopped {
        return Raised;
      }
      Known();
      var ready: bool, ok: bool := *, *;
      Step(Process(ready, ok));
      var status := redis.world.workers[name].pc.status;
      stopped := Answer(at);
      outcome := if stopped then Raised else if status.Rendered? then Processed else Skipped;
      assert !stopped ==> Said(redis.world, at, status);
    }

    /** What every reachable world says about this worker's position. */
    ghost method Known()
      requires Valid()
      ensures WorkerOk(redis.world, redis.world.workers[name])
      ensures StreamOk(redis.world.db.high) && StreamOk(redis.world.db.low)
    {
      ReachableDelivery(redis.world);
    }

    /** _defer_stale_interactive_job once the marker check has spoken: copy, then acknowledge. */
    method Defer(at: Ref) returns (outcome: Outcome)
      requires Valid() && redis.world.workers[name].pc == Deferring(at)
      modifies redis
      ensures Valid() && Grows(old(redis.world), redis.world)
      ensures redis.world.workers[name].pc == Idle
      ensures redis.world.workers[name].backlog == if outcome == Raised then [] else old(redis.world.workers[name].backlog)
      ensures outcome == Deferred || outcome == Raised
      ensures outcome == Deferred ==>
        && IsEntry(redis.world.db, at) && at.stream == High
        && at.id !in redis.world.db.high.pending
        && exists k :: IsCopy(redis.world.db, k, EntryAt(redis.world.db, at))
    {
      var stopped := Pause();
      if stopped {
        return Raised;
      }
      Known();
      Step(CopyLow);
      stopped := Pause();
      if stopped {
        return Raised;
      }
      Known();
      ghost var copy := redis.world.workers[name].pc.copy;
      Step(Ack);
      assert IsCopy(redis.world.db, copy, EntryAt(redis.world.db, at));
      return Deferred;
    }

    /** _store_result, the notification, and the acknowledgement. */
    method Answer(at: Ref) returns (stopped: bool)
      requires Valid() && redis.world.workers[name].pc.Storing? && redis.world.workers[name].pc.at == at
      modifies redis
      ensures Valid() && Grows(old(redis.world), redis.world)
      ensures redis.world.workers[name].pc == Idle
      ensures redis.world.workers[name].backlog == if stopped then [] else old(redis.world.workers[name].backlog)
      ensures !stopped ==> Closed(redis.world, at) && Said(redis.world, at, old(redis.world.workers[name].pc.status))
    {
      ghost var first, status := redis.world, redis.world.workers[name].pc.status;
      hide Grows, Closed, Said;
      stopped := Act(StoreResult);
      if stopped {
        return;
      }
      ghost var stored := redis.world;
      stopped := Act(Announce);
      SaidStays(first, stored, redis.world, at, status);
      if stopped {
        return;
      }
      ghost var announced := redis.world;
      stopped := Act(Ack);
      SaidStays(first, announced, redis.world, at, status);
      SaidStays(stored, announced, redis.world, at, status);
    }

    /** One step of the three, unless an exception comes first. */
    method Act(c: WorkerCommand) returns (stopped: bool)
      requires Valid() && Answers(redis.world, name, c)
      modifies redis
      ensures Valid() && Grows(old(redis.world), redis.world)
      ensures if stopped then Resting() else redis.world.workers[name].pc == AfterAnswer(old(redis.world.workers[name].pc))
      ensures !stopped ==>
        && redis.world.workers[name].backlog == old(redis.world.workers[name].backlog)
        && AnswerDone(old(redis.world.workers[name].pc), redis.world)
    {
      stopped := Pause();
      if stopped {
        return;
      }
      Known();
      ActDoes(redis.world, name, c);
      hide Worked, CanWork, WorkerOk, AnswerDone;
      Step(c);
    }

    /** One read of each stream at most, in the order the streak asks for. */
    method ReadNext() returns (read: Option<Priority>, lowWaiting: bool, highWaiting: bool)
      requires Resting()
      modifies redis
      ensures Valid() && Grows(old(redis.world), redis.world)
      ensures read.None? ==> Resting()
      ensures read.Some? ==>
                && redis.world.workers[name].pc.Deciding? && redis.world.workers[name].pc.at.stream == read.value
                && redis.world.workers[name].backlog == []
      ensures lowWaiting && highStreak >= highBurstBeforeLow ==> read == Some(Low)
      ensures highWaiting && highStreak < highBurstBeforeLow ==> read == Some(High)
      ensures lowWaiting <==> old(redis.world.db.low.delivered < |redis.world.db.low.entries|)
      ensures highWaiting <==> old(redis.world.db.high.delivered < |redis.world.db.high.entries|)
    {
      highWaiting := redis.world.db.high.delivered < |redis.world.db.high.entries|;
      lowWaiting := redis.world.db.low.delivered < |redis.world.db.low.entries|;
      var first, second := High, Low;
      if highStreak >= highBurstBeforeLow {
        first, second := Low, High;
      }
      var found := ReadOne(first);
      if found {
        return Some(first), lowWaiting, highWaiting;
      }
      redis.Yield(Daemon(name));
      found := ReadOne(second);
      read := if found then Some(second) else None;
    }

    /**
     _tick.  After a burst of processed high jobs the low stream is probed first,
     so it is read whenever it has something to read.
     */
    method DoTick() returns (t: Tick)
      requires Resting()
      modifies redis, this`highStreak, this`highDone
      ensures Resting()
      ensures highStreak == NextStreak(old(highStreak), t)
      ensures t.lowWaiting <==> old(redis.world.db.low.delivered < |redis.world.db.low.entries|)
      ensures t.highWaiting <==> old(redis.world.db.high.delivered < |redis.world.db.high.entries|)
      ensures InSchedule(t, old(highStreak), highBurstBeforeLow)
      ensures highDone == old(highDone) + HighBy(t) + t.rescued
    {
      t := ReadAndProcess();
      var due: bool := *;
      if due && t.outcome != Raised {
        var rescued := ClaimBoth();
        t := t.(rescued := rescued);
      }
      redis.Yield(Daemon(name));
    }

    /** The reading half of a tick. */
    method ReadAndProcess() returns (t: Tick)
      requires Resting()
      modifies redis, this`highStreak, this`highDone
      ensures Resting()
      ensures highStreak == NextStreak(old(highStreak), t)
      ensures t.lowWaiting <==> old(redis.world.db.low.delivered < |redis.world.db.low.entries|)
      ensures t.highWaiting <==> old(redis.world.db.high.delivered < |redis.world.db.high.entries|)
      ensures InSchedule(t, old(highStreak), highBurstBeforeLow) && t.rescued == 0
      ensures highDone == old(highDone) + HighBy(t)
    {
      var read, lowWaiting, highWaiting := ReadNext();
      var outcome := Skipped;
      if read.Some? {
        outcome := ProcessMessage();
        if read.value == High && outcome == Processed {
          highStreak := highStreak + 1;
        } else if read.value == Low && outcome != Raised {
          highStreak := 0;
        }
      }
      t := Tick(read, outcome, lowWaiting, highWaiting, 0);
    }

    /** _claim_pending; `rescued` is the number of high jobs processed. */
    method ClaimBoth() returns (rescued: nat)
      requires Resting()
      modifies redis, this`highDone
      ensures Resting() && rescued <= CLAIM_COUNT && highDone == old(highDone) + rescued
    {
      var claimed, done, processed := ClaimPending(High);
      rescued := processed;
      claimed, done, processed := ClaimPending(Low);
    }

    /** _claim_pending on one stream: up to ten orphans, each processed in turn until one raises. */
    method ClaimPending(which: Priority) returns (claimed: seq<nat>, done: nat, processed: nat)
      requires Resting()
      modifies redis, this`highDone
      ensures Resting()
      ensures processed <= done <= |claimed| <= CLAIM_COUNT
      ensures highDone == old(highDone) + if which == High then processed else 0
      ensures forall i | 0 <= i < done :: Settled(redis.world, Ref(which, claimed[i]))
      ensures forall i | done <= i < |claimed| :: Owed(redis.world, Ref(which, claimed[i]))
    {
      redis.Yield(Daemon(name));
      claimed := *;
      if |claimed| > CLAIM_COUNT || exists i :: 0 <= i < |claimed| && claimed[i] !in StreamOf(redis.world.db, which).pending {
        claimed := [];
      }
      Step(Claim(which, claimed));
      ghost var refs := Refs(which, claimed);
      assert redis.world.workers[name].backlog == refs;
      done, processed := ProcessBacklog(which);
      assert forall i | 0 <= i < |claimed| :: Owed(redis.world, refs[i]) && refs[i] == Ref(which, claimed[i]);
      assert forall i | 0 <= i < done :: Settled(redis.world, refs[i]);
    }

    method ProcessBacklog(ghost which: Priority) returns (done: nat, processed: nat)
      requires Valid() && redis.world.workers[name].pc == Idle
      requires forall r | r in redis.world.workers[name].backlog :: r.stream == which
      modifies redis, this`highDone
      ensures Resting()
      ensures processed <= done <= |old(redis.world.workers[name].backlog)|
      ensures highDone == old(highDone) + if which == High then processed else 0
      ensures forall i | 0 <= i < done :: Settled(redis.world, old(redis.world.workers[name].backlog)[i])
      ensures forall r | r in old(redis.world.workers[name].backlog) :: Owed(redis.world, r)
    {
      ghost var claimed := redis.world.workers[name].backlog;
      ReachableDelivery(redis.world);
      assert forall r | r in claimed :: RefOk(redis.world.db, r);
      hide HighKept, LowKept, Settled, Ledger, RefOk, Grows, Owed, Reachable, Delivery;
      done, processed := 0, 0;
      while redis.world.workers[name].backlog != []
        invariant Valid() && redis.world.workers[name].pc == Idle
        invariant forall r | r in claimed :: RefOk(redis.world.db, r)
        invariant processed <= done <= |claimed|
        invariant highDone == old(highDone) + if which == High then processed else 0
        invariant redis.world.workers[name].backlog == claimed[done..]
        invariant forall i | 0 <= i < done :: Settled(redis.world, claimed[i])
        decreases |redis.world.workers[name].backlog|
      {
        ghost var before := redis.world;
        assert claimed[done..][0] == claimed[done] && claimed[done] in claimed;
        var outcome := ProcessNext();
        forall i | 0 <= i < done
          ensures Settled(redis.world, claimed[i])
        {
          SettledStays(before, redis.world, claimed[i]);
        }
        forall r | r in claimed ensures RefOk(redis.world.db, r) {
          RefStays(before, redis.world, r);
        }
        if outcome == Raised {
          break;
        }
        if outcome == Processed {
          processed := processed + 1;
        }
        done := done + 1;
      }
      forall r | r in claimed ensures Owed(redis.world, r) {
        DeliveredIsOwed(redis.world, r);
      }
    }

    method ProcessNext() returns (outcome: Outcome)
      requires Valid() && redis.world.workers[name].pc == Idle && redis.world.workers[name].backlog != []
      modifies redis, this`highDone
      ensures Valid() && Grows(old(redis.world), redis.world)
      ensures redis.world.workers[name].pc == Idle
      ensures redis.world.workers[name].backlog == if outcome == Raised then [] else old(redis.world.workers[name].backlog)[1..]
      ensures highDone == old(highDone)
                + if outcome == Processed && old(redis.world.workers[name].backlog)[0].stream == High then 1 else 0
      ensures outcome != Raised ==> Settled(redis.world, old(redis.world.workers[name].backlog)[0])
    {
      Step(Next);
      outcome := ProcessMessage();
    }

    /** `run`, for as many iterations as the process lives; `first` counts the high jobs of the first claim. */
    method Run(lifetime: nat) returns (first: nat, ticks: seq<Tick>)
      requires Resting()
      modifies redis, this`highStreak, this`highDone
      ensures Resting() && |ticks| == lifetime && first <= CLAIM_COUNT
      ensures Scheduled(ticks, old(highStreak), highBurstBeforeLow)
      ensures highDone == old(highDone) + first + HighJobs(ticks)
    {
      first := ClaimBoth();
      ticks := [];
      for n := 0 to lifetime
        invariant Resting() && |ticks| == n
        invariant Scheduled(ticks, old(highStreak), highBurstBeforeLow)
        invariant highDone == old(highDone) + first + HighJobs(ticks)
        invariant highStreak == StreakAfter(ticks, old(highStreak))
      {
        var t := DoTick();
        ScheduleExtends(ticks, old(highStreak), highBurstBeforeLow, t);
        StreakExtends(ticks, old(highStreak), t);
        HighExtends(ticks, t);
        ticks := ticks + [t];
      }
    }
  }
}
