/**
 The weighted schedule of `_tick` in server/worker/consumer.py: after a burst of processed
 high jobs the low stream is read first.  What a worker takes over from others does not
 count towards the burst, so the burst bounds the jobs it reads, and all it processes
 exactly when it takes nothing over.
 */
module JobSchedule {
  import opened Basics
  import opened JobMachine
  import opened JobDelivery

  datatype Outcome = Processed | Skipped | Deferred | Raised

  /**
   One iteration of the loop: what it read, whether either stream had something to read
   when it began, and how many high jobs it then processed that other workers had left
   behind.
   */
  datatype Tick = Tick(read: Option<Priority>, outcome: Outcome, lowWaiting: bool, highWaiting: bool, rescued: nat)

  function NextStreak(streak: int, t: Tick): int {
    match t.read
    case Some(High) => if t.outcome == Processed then streak + 1 else streak
    case Some(Low) => if t.outcome == Raised then streak else 0
    case None => streak
  }

  /** Whether the tick processed a high job it read. */
  function HighBy(t: Tick): nat {
    if t.read == Some(High) && t.outcome == Processed then 1 else 0
  }

  function StreakAfter(ticks: seq<Tick>, streak: int): int
    decreases |ticks|
  {
    if ticks == [] then streak else StreakAfter(ticks[1..], NextStreak(streak, ticks[0]))
  }

  /**
   Past the burst it reads low if low was waiting, before that high if high was; and it
   never takes over more than one claim's worth.
   */
  predicate InSchedule(t: Tick, streak: int, burst: int) {
    && (t.lowWaiting && streak >= burst ==> t.read == Some(Low))
    && (t.highWaiting && streak < burst ==> t.read == Some(High))
    && t.rescued <= CLAIM_COUNT
  }

  ghost predicate Scheduled(ticks: seq<Tick>, streak: int, burst: int)
    decreases |ticks|
  {
    ticks == [] || (InSchedule(ticks[0], streak, burst) && Scheduled(ticks[1..], NextStreak(streak, ticks[0]), burst))
  }

  lemma {:induction false} ScheduleExtends(ticks: seq<Tick>, streak: int, burst: int, t: Tick)
    requires Scheduled(ticks, streak, burst) && InSchedule(t, StreakAfter(ticks, streak), burst)
    ensures Scheduled(ticks + [t], streak, burst)
    decreases |ticks|
  {
    if ticks == [] {
      assert Scheduled([], NextStreak(streak, t), burst);
      assert ([t])[1..] == [];
    } else {
      ScheduleExtends(ticks[1..], NextStreak(streak, ticks[0]), burst, t);
      assert (ticks + [t])[1..] == ticks[1..] + [t];
    }
  }

  /** The high jobs read and processed. */
  function HighRead(ticks: seq<Tick>): nat
    decreases |ticks|
  {
    if ticks == [] then 0 else HighBy(ticks[0]) + HighRead(ticks[1..])
  }

  /** The high jobs taken over and processed. */
  function HighRescued(ticks: seq<Tick>): nat
    decreases |ticks|
  {
    if ticks == [] then 0 else ticks[0].rescued + HighRescued(ticks[1..])
  }

  function HighJobs(ticks: seq<Tick>): nat {
    HighRead(ticks) + HighRescued(ticks)
  }

  lemma {:induction false} HighExtends(ticks: seq<Tick>, t: Tick)
    ensures HighRead(ticks + [t]) == HighRead(ticks) + HighBy(t)
    ensures HighRescued(ticks + [t]) == HighRescued(ticks) + t.rescued
    decreases |ticks|
  {
    if ticks == [] {
      assert ticks + [t] == [t] && [t][1..] == [];
      assert HighRead([]) == 0 && HighRescued([]) == 0;
    } else {
      HighExtends(ticks[1..], t);
      assert (ticks + [t])[1..] == ticks[1..] + [t];
    }
  }

  // ----- passing a waiting low stream ----------------------------------------------------------

  /** Low is waiting at every tick, and never read. */
  predicate Passing(ticks: seq<Tick>) {
    forall i | 0 <= i < |ticks| :: ticks[i].lowWaiting && ticks[i].read != Some(Low)
  }

  /**
   While low is waiting and not read, the high jobs read and processed are at most what is
   left of the burst, and there is no such tick once the burst is used up.
   */
  lemma {:induction false} LowIsNotStarved(ticks: seq<Tick>, streak: int, burst: int)
    requires Scheduled(ticks, streak, burst) && Passing(ticks)
    ensures streak < burst ==> HighRead(ticks) <= Min(|ticks|, burst - streak)
    ensures streak >= burst ==> ticks == []
    decreases |ticks|
  {
    if ticks != [] {
      LowIsNotStarved(ticks[1..], NextStreak(streak, ticks[0]), burst);
    }
  }

  /** A waiting high stream is passed over only once the burst is used up. */
  lemma {:induction false} LowWaitsForTheBurst(ticks: seq<Tick>, streak: int, burst: int, i: nat)
    requires Scheduled(ticks, streak, burst) && streak >= 0 && i < |ticks|
    requires ticks[i].highWaiting && ticks[i].read != Some(High)
    ensures streak + HighRead(ticks[..i]) >= burst
    decreases |ticks|
  {
    if i > 0 {
      LowWaitsForTheBurst(ticks[1..], NextStreak(streak, ticks[0]), burst, i - 1);
      assert ticks[..i][1..] == ticks[1..][..i - 1];
    }
  }

  lemma {:induction false} ScheduledWindow(ticks: seq<Tick>, streak: int, burst: int, i: nat, j: nat)
    requires Scheduled(ticks, streak, burst) && streak >= 0 && i <= j <= |ticks|
    ensures StreakAfter(ticks[..i], streak) >= 0
    ensures Scheduled(ticks[i..j], StreakAfter(ticks[..i], streak), burst)
    decreases |ticks|, i
  {
    if i > 0 {
      ScheduledWindow(ticks[1..], NextStreak(streak, ticks[0]), burst, i - 1, j - 1);
      assert ticks[..i][1..] == ticks[1..][..i - 1];
      assert ticks[1..][i - 1..j - 1] == ticks[i..j];
    } else if j > 0 {
      ScheduledWindow(ticks[1..], NextStreak(streak, ticks[0]), burst, 0, j - 1);
      assert ticks[1..][..0] == [] && ticks[..0] == [];
      assert ticks[0..j][1..] == ticks[1..][0..j - 1];
    }
  }

  /**
   Any stretch of a worker's life without a low read, low waiting throughout, processes at
   most one burst of the high jobs it reads, besides those it takes over.
   */
  lemma NoStretchStarvesLow(ticks: seq<Tick>, burst: int, i: nat, j: nat)
    requires Scheduled(ticks, 0, burst) && i <= j <= |ticks| && Passing(ticks[i..j])
    ensures HighRead(ticks[i..j]) <= Max(burst, 0)
    ensures HighJobs(ticks[i..j]) <= Max(burst, 0) + HighRescued(ticks[i..j])
  {
    ScheduledWindow(ticks, 0, burst, i, j);
    LowIsNotStarved(ticks[i..j], StreakAfter(ticks[..i], 0), burst);
  }

  /** After a low job, a waiting high stream is passed over only when a burst of its jobs was processed. */
  lemma BurstAfterLow(ticks: seq<Tick>, burst: int, i: nat, j: nat)
    requires Scheduled(ticks, 0, burst) && i < j < |ticks|
    requires ticks[i].read == Some(Low) && ticks[i].outcome != Raised
    requires ticks[j].highWaiting && ticks[j].read != Some(High)
    ensures HighRead(ticks[i + 1..j]) >= burst
  {
    var later := ticks[i + 1..];
    ScheduledWindow(ticks, 0, burst, i + 1, |ticks|);
    assert ticks[i + 1..|ticks|] == later;
    StreakExtends(ticks[..i], 0, ticks[i]);
    assert ticks[..i + 1] == ticks[..i] + [ticks[i]];
    LowWaitsForTheBurst(later, 0, burst, j - i - 1);
    assert later[..j - i - 1] == ticks[i + 1..j];
  }

  lemma {:induction false} StreakExtends(ticks: seq<Tick>, streak: int, t: Tick)
    ensures StreakAfter(ticks + [t], streak) == NextStreak(StreakAfter(ticks, streak), t)
    decreases |ticks|
  {
    if ticks == [] {
      assert ([t])[1..] == [];
    } else {
      StreakExtends(ticks[1..], NextStreak(streak, ticks[0]), t);
      assert (ticks + [t])[1..] == ticks[1..] + [t];
    }
  }

  // ----- when the burst bounds all jobs --------------------------------------------------------

  function Sum(counts: seq<nat>): nat {
    if counts == [] then 0 else counts[0] + Sum(counts[1..])
  }

  /** These ticks, in schedule from the start, pass a waiting low stream, and take over that many jobs each. */
  ghost predicate PassesWith(ticks: seq<Tick>, streak: int, burst: int, rescues: seq<nat>) {
    && Scheduled(ticks, streak, burst) && Passing(ticks)
    && |ticks| == |rescues| && forall i | 0 <= i < |ticks| :: ticks[i].rescued == rescues[i]
  }

  lemma {:induction false} RescuedIsSum(ticks: seq<Tick>, rescues: seq<nat>)
    requires |ticks| == |rescues| && forall i | 0 <= i < |ticks| :: ticks[i].rescued == rescues[i]
    ensures HighRescued(ticks) == Sum(rescues)
    decreases |ticks|
  {
    if ticks != [] {
      RescuedIsSum(ticks[1..], rescues[1..]);
    }
  }

  /** Whatever is taken over, a schedule may read and process as many high jobs as it has ticks and burst for. */
  lemma {:induction false} MostIsReached(rescues: seq<nat>, streak: int, burst: int) returns (ticks: seq<Tick>)
    requires 0 <= streak <= burst && (streak == burst ==> rescues == [])
    requires forall i | 0 <= i < |rescues| :: rescues[i] <= CLAIM_COUNT
    ensures PassesWith(ticks, streak, burst, rescues) && HighRead(ticks) == Min(|rescues|, burst - streak)
    decreases |rescues|
  {
    if rescues == [] {
      ticks := [];
    } else {
      var processed := |rescues| <= burst - streak;
      var t := Tick(Some(High), if processed then Processed else Skipped, true, true, rescues[0]);
      var later := MostIsReached(rescues[1..], if processed then streak + 1 else streak, burst);
      ticks := [t] + later;
      assert ticks[1..] == later;
    }
  }

  /**
   The most high jobs that can pass a waiting low stream in as many ticks, given what each
   takes over: the burst bounds them all exactly when that most is within it, and for
   stretches of at least a burst's length exactly when nothing is taken over.
   */
  lemma BurstBoundsUnlessRescued(rescues: seq<nat>, burst: int)
    requires burst > 0 && forall i | 0 <= i < |rescues| :: rescues[i] <= CLAIM_COUNT
    ensures (forall ticks | PassesWith(ticks, 0, burst, rescues) :: HighJobs(ticks) <= burst)
            <==> Min(|rescues|, burst) + Sum(rescues) <= burst
    ensures |rescues| >= burst ==>
              ((forall ticks | PassesWith(ticks, 0, burst, rescues) :: HighJobs(ticks) <= burst) <==> Sum(rescues) == 0)
  {
    var most := MostIsReached(rescues, 0, burst);
    RescuedIsSum(most, rescues);
    assert HighJobs(most) == Min(|rescues|, burst) + Sum(rescues);
    forall ticks | PassesWith(ticks, 0, burst, rescues)
      ensures HighJobs(ticks) <= Min(|rescues|, burst) + Sum(rescues)
    {
      LowIsNotStarved(ticks, 0, burst);
      RescuedIsSum(ticks, rescues);
    }
  }

  // ----- one such tick -------------------------------------------------------------------------

  function Job(priority: Priority): Request {
    Request("f", "image", "rev", priority, true, None)
  }

  /** This worker alone goes from `w` to `v`. */
  ghost predicate Leads(w: World, run: seq<Action>, v: World, worker: WorkerId) {
    IsRun(w, run) && Exec(w, run) == v && forall a | a in run :: a.ByWorker? && a.worker == worker
  }

  lemma Step(w: World, a: Action) returns (v: World)
    requires Reachable(w) && Enabled(w, a)
    ensures Reachable(v) && v == Apply(w, a)
  {
    v := Apply(w, a);
    ReachableStep(w, a);
  }

  lemma Goes(w: World, run: seq<Action>, v: World, worker: WorkerId, c: WorkerCommand) returns (u: World, longer: seq<Action>)
    requires Leads(w, run, v, worker) && CanWork(v, worker, c)
    ensures u == Worked(v, worker, c) && Leads(w, longer, u, worker)
  {
    var a := ByWorker(worker, c);
    hide CanWork, Worked;
    RunExtends(w, run, a);
    longer := run + [a];
    u := Worked(v, worker, c);
  }

  lemma Submits(w: World, job: JobId, priority: Priority) returns (v: World)
    requires Reachable(w) && job !in w.submits
    ensures Reachable(v) && v.submits.Keys == w.submits.Keys + {job} && v.workers == w.workers
    ensures v.db.images == w.db.images + {"image"}
    ensures v.db.high == StreamOf(Add(w.db, priority, EntryOf(job, Job(priority))), High)
    ensures v.db.low == StreamOf(Add(w.db, priority, EntryOf(job, Job(priority))), Low)
    ensures Results(v) == Results(w) && v.hist.announced == w.hist.announced
  {
    hide Reachable;
    v := Step(w, BySubmitter(job, Begin(Job(priority))));
    v := Step(v, BySubmitter(job, StoreImage));
    v := Step(v, BySubmitter(job, Enqueue));
  }

  lemma Queued() returns (w: World)
    ensures Reachable(w) && w.workers == map[]
    ensures w.db.high == Stream([EntryOf(0, Job(High)), EntryOf(1, Job(High))], 0, map[])
    ensures w.db.low == Stream([EntryOf(2, Job(Low))], 0, map[])
    ensures "image" in w.db.images && Results(w) == {}
  {
    InitReachable();
    hide EntryOf, Job, Reachable;
    w := Submits(Init(), 0, High);
    w := Submits(w, 1, High);
    w := Submits(w, 2, Low);
  }

  /** One orphaned and one undelivered high entry, a waiting low one, and an idle worker. */
  lemma Waiting() returns (w: World)
    ensures Reachable(w) && 0 in w.workers && w.workers[0] == Worker("rev", Idle, [])
    ensures w.db.high == Stream([EntryOf(0, Job(High)), EntryOf(1, Job(High))], 1, map[0 := 1])
    ensures w.db.low == Stream([EntryOf(2, Job(Low))], 0, map[])
    ensures "image" in w.db.images && Results(w) == {}
  {
    w := Queued();
    hide EntryOf, Job, Reachable;
    w := Step(w, ByWorker(1, Join("rev")));
    w := Step(w, ByWorker(1, Read(High)));
    w := Step(w, ByWorker(1, Abandon));
    w := Step(w, ByWorker(0, Join("rev")));
  }

  /** The worker renders the page it has, stores and announces the result, and acknowledges. */
  lemma Serves(start: World, run: seq<Action>, w: World, id: nat, job: JobId) returns (v: World, longer: seq<Action>)
    requires Leads(start, run, w, 0) && 0 in w.workers && w.workers[0] == Worker("rev", Deciding(Ref(High, id)), [])
    requires id < |w.db.high.entries| && w.db.high.entries[id] == EntryOf(job, Job(High)) && "image" in w.db.images
    ensures Leads(start, longer, v, 0) && 0 in v.workers && v.workers[0] == Worker("rev", Idle, [])
    ensures v.db.high == w.db.high.(pending := w.db.high.pending - {id})
    ensures v.db.low == w.db.low && v.db.images == w.db.images
    ensures Results(v) == Results(w) + {job} && v.hist.announced == w.hist.announced + {job}
  {
    hide Leads;
    v, longer := Goes(start, run, w, 0, Decide);
    v, longer := Goes(start, longer, v, 0, Process(true, true));
    v, longer := Goes(start, longer, v, 0, StoreResult);
    v, longer := Goes(start, longer, v, 0, Announce);
    v, longer := Goes(start, longer, v, 0, Ack);
  }

  /**
   With a burst of one, a single tick of one worker may process two high jobs past a
   waiting low stream: it reads and answers one, then takes over and answers another.
   */
  lemma OneTickMayExceedTheBurst() returns (w: World, run: seq<Action>, v: World, t: Tick)
    ensures Reachable(w) && Leads(w, run, v, 0)
    ensures w.db.low.delivered < |w.db.low.entries| && v.db.low == w.db.low
    ensures !Answered(w, 0) && !Answered(w, 1) && Answered(v, 0) && Answered(v, 1)
    ensures v.db.high.pending == map[] && v.db.high.delivered == |v.db.high.entries|
    ensures t == Tick(Some(High), Processed, true, true, 1) && Scheduled([t], 0, 1) && HighJobs([t]) == 2
  {
    w := Waiting();
    hide Leads, Reachable;
    assert Leads(w, [], w, 0) by {
      NothingLeads(w, 0);
    }
    v, run := Goes(w, [], w, 0, Read(High));
    v, run := Serves(w, run, v, 1, 1);
    assert v.db.high.pending == map[0 := 1];
    v, run := Goes(w, run, v, 0, Claim(High, [0]));
    v, run := Goes(w, run, v, 0, Next);
    v, run := Serves(w, run, v, 0, 0);
    t := Tick(Some(High), Processed, true, true, 1);
    assert [t][1..] == [] && Scheduled([], 1, 1) && HighRead([]) == 0 && HighRescued([]) == 0;
  }

  lemma NothingLeads(w: World, worker: WorkerId)
    ensures Leads(w, [], w, worker)
  {
  }
}
