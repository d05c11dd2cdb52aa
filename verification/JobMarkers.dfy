/**
 Interactive latest-page markers over whole runs.  Between two expiries of a key the
 stored mark is the newest of the largest sequence numbers submitted, all of them read as
 doubles; so a page is deferred only for another page at least as recent, unless the two
 sequence numbers are one double.
 */
module JobMarkers {
  import opened Basics
  import opened Doubles
  import opened JobMachine

  /** `log[i]` has the largest sequence number as a double, and is the last to have it. */
  ghost predicate NewestAt(log: seq<Mark>, i: nat) {
    && i < |log|
    && (forall n | 0 <= n < i :: DoubleOf(log[n].seqNo) <= DoubleOf(log[i].seqNo))
    && (forall n | i < n < |log| :: DoubleOf(log[n].seqNo) < DoubleOf(log[i].seqNo))
  }

  /** The same of the sequence numbers themselves. */
  ghost predicate LargestAt(log: seq<Mark>, i: nat) {
    && i < |log|
    && (forall n | 0 <= n < i :: log[n].seqNo <= log[i].seqNo)
    && (forall n | i < n < |log| :: log[n].seqNo < log[i].seqNo)
  }

  /** A later mark reads as the same number. */
  ghost predicate Shadowed(log: seq<Mark>, i: nat)
    requires i < |log|
  {
    exists n :: i < n < |log| && DoubleOf(log[n].seqNo) == DoubleOf(log[i].seqNo)
  }

  /** The largest mark is the newest one exactly when no later mark shares its double. */
  lemma NewestIsLargest(log: seq<Mark>, i: nat, m: nat)
    requires NewestAt(log, i) && LargestAt(log, m)
    ensures i == m <==> !Shadowed(log, m)
    ensures i >= m && DoubleOf(log[i].seqNo) == DoubleOf(log[m].seqNo)
  {
    hide DoubleOf;
    DoubleOfGrows(log[i].seqNo, log[m].seqNo);
    if i > m {
      assert Shadowed(log, m);
    }
  }

  ghost predicate Stored(w: World, key: string) {
    && (key in w.db.markers <==> key in w.hist.marks)
    && (key in w.db.markers ==> exists i: nat :: NewestAt(w.hist.marks[key], i) && w.hist.marks[key][i] == w.db.markers[key])
  }

  /** Until its key expires, the mark of a queued page is among those submitted. */
  ghost predicate MarkKept(h: History, e: Entry) {
    e.latest.Some? && (e.job, e.latest.value) in h.recorded ==>
      Mark(e.latest.value.seqNo, e.latest.value.token) in MarksOf(h, e.latest.value.key)
  }

  ghost predicate Markers(w: World) {
    && (forall key :: Stored(w, key))
    && (forall e | e in w.db.high.entries :: MarkKept(w.hist, e))
    && (forall e | e in w.db.low.entries :: MarkKept(w.hist, e))
  }

  lemma UpdateKeepsNewest(markers: map<string, Mark>, log: seq<Mark>, l: Latest, i: nat)
    requires l.key in markers ==> NewestAt(log, i) && log[i] == markers[l.key]
    requires l.key !in markers ==> log == []
    ensures exists k: nat :: NewestAt(log + [Mark(l.seqNo, l.token)], k)
              && (log + [Mark(l.seqNo, l.token)])[k] == UpdateMarker(markers, l)[l.key]
  {
    var longer := log + [Mark(l.seqNo, l.token)];
    if l.key in markers && DoubleOf(markers[l.key].seqNo) > DoubleOf(l.seqNo) {
      assert NewestAt(longer, i);
    } else {
      assert NewestAt(longer, |log|);
    }
  }

  lemma EnqueueStores(w: World, job: JobId, key: string)
    requires Markers(w) && job in w.submits
    ensures Stored(EnqueueEffect(w, job), key)
  {
    var req := w.submits[job].req;
    assert Stored(w, key);
    if req.latest.Some? && req.latest.value.key == key {
      var i: nat := 0;
      if key in w.db.markers {
        i :| NewestAt(w.hist.marks[key], i) && w.hist.marks[key][i] == w.db.markers[key];
      }
      UpdateKeepsNewest(w.db.markers, MarksOf(w.hist, key), req.latest.value, i);
    }
  }

  lemma EnqueueKeepsMarkers(w: World, job: JobId)
    requires Markers(w) && job in w.submits
    ensures Markers(EnqueueEffect(w, job))
  {
    var v := EnqueueEffect(w, job);
    var added := EntryOf(job, w.submits[job].req);
    forall key ensures Stored(v, key) { EnqueueStores(w, job, key); }
    forall e | MarkKept(w.hist, e) || e == added
      ensures MarkKept(v.hist, e)
    {
    }
    assert forall e | e in v.db.high.entries :: e in w.db.high.entries || e == added;
    assert forall e | e in v.db.low.entries :: e in w.db.low.entries || e == added;
  }

  lemma SameMarkers(w: World, v: World)
    requires Markers(w)
    requires forall e | e in v.db.high.entries :: e in w.db.high.entries
    requires forall e | e in v.db.low.entries :: MarkKept(w.hist, e)
    requires v.db.markers == w.db.markers && v.hist.marks == w.hist.marks && v.hist.recorded == w.hist.recorded
    ensures Markers(v)
  {
    forall key ensures Stored(v, key) { assert Stored(w, key); }
    assert forall e | e in v.db.high.entries :: MarkKept(w.hist, e);
  }

  lemma WorkQueues(w: World, worker: WorkerId, c: WorkerCommand)
    requires CanWork(w, worker, c) && Markers(w)
    ensures var v := Worked(w, worker, c);
      && v.db.high.entries == w.db.high.entries
      && v.db.markers == w.db.markers && v.hist.marks == w.hist.marks && v.hist.recorded == w.hist.recorded
      && forall e | e in v.db.low.entries :: MarkKept(w.hist, e)
  {
    if c == CopyLow {
      var at := w.workers[worker].pc.at;
      assert EntryAt(w.db, at) in StreamOf(w.db, at.stream).entries;
      assert MarkKept(w.hist, EntryAt(w.db, at).(copied := true));
    }
  }

  lemma StepKeepsMarkers(w: World, a: Action)
    requires Markers(w) && Enabled(w, a)
    ensures Markers(Apply(w, a))
  {
    var v := Apply(w, a);
    match a
    case BySubmitter(job, c) =>
      if Queues(w, job, c) {
        EnqueueKeepsMarkers(w, job);
        SameMarkers(EnqueueEffect(w, job), v);
      } else {
        QuietSubmit(w, job, c);
        SameMarkers(w, v);
      }
    case ByWorker(worker, c) =>
      WorkQueues(w, worker, c);
      SameMarkers(w, v);
    case ByRedis(ExpireMarker(key)) =>
      forall k ensures Stored(v, k) { assert Stored(w, k); }
      forall e | MarkKept(w.hist, e) ensures MarkKept(v.hist, e) {}
      assert forall e | e in v.db.high.entries :: MarkKept(w.hist, e);
      assert forall e | e in v.db.low.entries :: MarkKept(w.hist, e);
    case ByRedis(ExpireDedup) => SameMarkers(w, v);
    case ByRedis(DropResult(_)) => SameMarkers(w, v);
  }

  lemma {:induction false} RunsKeepMarkers(w: World, run: seq<Action>)
    requires IsRun(w, run) && Markers(w)
    ensures Markers(Exec(w, run))
    decreases |run|
  {
    if run != [] {
      StepKeepsMarkers(w, run[0]);
      RunsKeepMarkers(Apply(w, run[0]), run[1..]);
    }
  }

  /** The stored mark of a key is the newest of the largest, as doubles, since the key last expired. */
  lemma StoredMarkIsNewest(w: World, key: string) returns (i: nat)
    requires Reachable(w) && key in w.db.markers
    ensures key in w.hist.marks && NewestAt(w.hist.marks[key], i)
    ensures w.db.markers[key] == w.hist.marks[key][i]
  {
    var run :| Reaches(run, w);
    RunsKeepMarkers(Init(), run);
    assert Stored(w, key);
    i :| NewestAt(w.hist.marks[key], i) && w.hist.marks[key][i] == w.db.markers[key];
  }

  /**
   It has the largest sequence number exactly when no mark submitted after that one reads
   as the same double.
   */
  lemma StoredMarkIsLargest(w: World, key: string, m: nat)
    requires Reachable(w) && key in w.db.markers
    requires key in w.hist.marks && LargestAt(w.hist.marks[key], m)
    ensures w.db.markers[key] == w.hist.marks[key][m] <==> !Shadowed(w.hist.marks[key], m)
  {
    hide DoubleOf;
    var log := w.hist.marks[key];
    var i := StoredMarkIsNewest(w, key);
    NewestIsLargest(log, i, m);
    if i > m {
      assert log[i].seqNo < log[m].seqNo;
    }
  }

  /** So it has whenever the sequence numbers are at most `2^53`. */
  lemma SmallSequencesAreOrdered(w: World, key: string, m: nat)
    requires Reachable(w) && key in w.db.markers
    requires key in w.hist.marks && LargestAt(w.hist.marks[key], m)
    requires forall n | 0 <= n < |w.hist.marks[key]| :: w.hist.marks[key][n].seqNo <= FULL
    ensures w.db.markers[key] == w.hist.marks[key][m]
  {
    hide DoubleOf;
    var log := w.hist.marks[key];
    StoredMarkIsLargest(w, key, m);
    forall n | 0 <= n < |log| ensures DoubleOf(log[n].seqNo) == log[n].seqNo as real {
      DoubleOfSmall(log[n].seqNo);
    }
  }

  /**
   A page's mark counts from the moment its job is queued, and for as long as its key
   does not expire.
   */
  lemma RecordedUntilExpiry(w: World, a: Action, job: JobId, l: Latest)
    requires Enabled(w, a)
    ensures (job, l) in w.hist.recorded && a != ByRedis(ExpireMarker(l.key)) ==> (job, l) in Apply(w, a).hist.recorded
    ensures a == BySubmitter(job, Enqueue) && w.submits[job].req.latest == Some(l) ==> (job, l) in Apply(w, a).hist.recorded
  {
    if a.BySubmitter? && a.job in w.submits {
      EffectFrame(w, a.job);
    }
  }

  /**
   A page is deferred only by a worker of its revision and for another page: the newest mark of its key has another
   token, and, if the key has not expired since this job was queued, a sequence number
   at least as large, or a smaller one that is the same double.
   */
  lemma DeferredOnlyForANewerPage(w: World, worker: WorkerId) returns (i: nat)
    requires Reachable(w) && CanWork(w, worker, Decide)
    requires Worked(w, worker, Decide).workers[worker].pc.Deferring?
    ensures var at := w.workers[worker].pc.at; var e := EntryAt(w.db, at);
      && at.stream == High && e.revision == w.workers[worker].revision && e.latest.Some?
      && var l := e.latest.value;
         && l.key in w.hist.marks
         && NewestAt(w.hist.marks[l.key], i)
         && w.hist.marks[l.key][i].token != l.token
         && ((e.job, l) in w.hist.recorded ==>
               w.hist.marks[l.key][i].seqNo >= l.seqNo
               || DoubleOf(w.hist.marks[l.key][i].seqNo) == DoubleOf(l.seqNo))
  {
    hide DoubleOf;
    var at := w.workers[worker].pc.at;
    var l := EntryAt(w.db, at).latest.value;
    i := StoredMarkIsNewest(w, l.key);
    var run :| Reaches(run, w);
    RunsKeepMarkers(Init(), run);
    assert EntryAt(w.db, at) in w.db.high.entries;
    if w.hist.marks[l.key][i].seqNo < l.seqNo {
      DoubleOfGrows(w.hist.marks[l.key][i].seqNo, l.seqNo);
    }
  }

  /** The page whose mark is the newest of its key is never deferred. */
  lemma NewestPageIsNotDeferred(w: World, worker: WorkerId, i: nat)
    requires Reachable(w) && CanWork(w, worker, Decide)
    requires EntryAt(w.db, w.workers[worker].pc.at).latest.Some?
    requires var l := EntryAt(w.db, w.workers[worker].pc.at).latest.value;
      l.key in w.hist.marks && NewestAt(w.hist.marks[l.key], i) && w.hist.marks[l.key][i].token == l.token
    ensures !Worked(w, worker, Decide).workers[worker].pc.Deferring?
  {
    hide DoubleOf;
    var l := EntryAt(w.db, w.workers[worker].pc.at).latest.value;
    if l.key in w.db.markers {
      var k := StoredMarkIsNewest(w, l.key);
      assert k == i;
    }
  }

  /** What the worker reads is an interactive page of its own revision, read from the high stream. */
  predicate Interactive(w: World, worker: WorkerId)
    requires CanWork(w, worker, Decide)
  {
    var at := w.workers[worker].pc.at; var e := EntryAt(w.db, at);
    && at.stream == High && e.revision == w.workers[worker].revision
    && e.latest.Some? && e.latest.value.token != "" && e.latest.value.key != ""
  }

  /**
   The page with the largest sequence number is deferred only when a later mark, with a
   smaller sequence number, is the same double; and it is then, if those later marks are
   other pages'.
   */
  lemma LargestPageIsDeferredWhenShadowed(w: World, worker: WorkerId, m: nat)
    requires Reachable(w) && CanWork(w, worker, Decide) && Interactive(w, worker)
    requires var l := EntryAt(w.db, w.workers[worker].pc.at).latest.value;
      l.key in w.hist.marks && LargestAt(w.hist.marks[l.key], m) && w.hist.marks[l.key][m].token == l.token
    ensures var l := EntryAt(w.db, w.workers[worker].pc.at).latest.value; var log := w.hist.marks[l.key];
      var deferred := Worked(w, worker, Decide).workers[worker].pc.Deferring?;
      && (deferred ==> Shadowed(log, m))
      && ((forall n | m < n < |log| :: log[n].token != l.token) ==> (deferred <==> Shadowed(log, m)))
  {
    hide DoubleOf;
    var l := EntryAt(w.db, w.workers[worker].pc.at).latest.value;
    var run :| Reaches(run, w);
    RunsKeepMarkers(Init(), run);
    assert Stored(w, l.key);
    var i := StoredMarkIsNewest(w, l.key);
    NewestIsLargest(w.hist.marks[l.key], i, m);
  }

  // ----- two sequence numbers, one double ------------------------------------------------------

  function Page(seqNo: int, token: string): Request {
    Request("f", "image", "rev", High, false, Some(Latest("k", token, seqNo)))
  }

  /** One call for a page, from beginning to end. */
  lemma Submits(w: World, job: JobId, seqNo: int, token: string) returns (v: World)
    requires Reachable(w) && job !in w.submits && seqNo > 0
    ensures Reachable(v) && job in v.submits && v.submits.Keys == w.submits.Keys + {job} && v.workers == w.workers
    ensures v.db.high == w.db.high.(entries := w.db.high.entries + [EntryOf(job, Page(seqNo, token))])
    ensures v.db.markers == UpdateMarker(w.db.markers, Latest("k", token, seqNo))
  {
    hide DoubleOf, UpdateMarker, Reachable;
    v := Step(w, BySubmitter(job, Begin(Page(seqNo, token))));
    v := Step(v, BySubmitter(job, StoreImage));
    v := Step(v, BySubmitter(job, Enqueue));
  }

  lemma Step(w: World, a: Action) returns (v: World)
    requires Reachable(w) && Enabled(w, a)
    ensures Reachable(v) && v == Apply(w, a)
  {
    v := Apply(w, a);
    ReachableStep(w, a);
  }

  /**
   The page with sequence number `2^53 + 1`, submitted before the one with `2^53`, loses its
   marker to it, and a worker that reads it defers it.
   */
  lemma SharedDoubleDefersTheLarger() returns (w: World)
    ensures Reachable(w) && w.db.markers == map["k" := Mark(FULL, "B")]
    ensures CanWork(w, 0, Decide) && Worked(w, 0, Decide).workers[0].pc.Deferring?
    ensures EntryAt(w.db, w.workers[0].pc.at).latest == Some(Latest("k", "A", FULL + 1))
  {
    hide DoubleOf, Reachable;
    InitReachable();
    w := Submits(Init(), 0, FULL + 1, "A");
    w := Submits(w, 1, FULL, "B");
    SharedDouble();
    assert w.db.high.entries[0] == EntryOf(0, Page(FULL + 1, "A"));
    w := Step(w, ByWorker(0, Join("rev")));
    w := Step(w, ByWorker(0, Read(High)));
    assert w.workers[0].pc == Deciding(Ref(High, 0));
  }
}
