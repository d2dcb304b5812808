/**
  What every run of debug commands keeps: no stop that was waited for is lost, and a suspended thread stays
  stopped until it has been resumed as often as it was suspended.  Both are stated for one thread at a time, so that
  what goes wrong with one thread says nothing about the others.
 */
module DebugSafety {
  import opened ThreadList
  import opened DebugProtocol

  /** The event is on its way to the client: current, queued, or held back by a suspension. */
  ghost predicate InFlight(s: State, t: Thread, e: Event) {
    s.current == e || e in s.queue || (t.suspendCount > 0 && t.suspended == e)
  }

  /** A suspended thread is marked paused and holds back an event of its own. */
  predicate RecordOk(t: Thread) {
    t.tid != 0 && t.suspendCount >= 0 && (t.suspendCount > 0 ==> t.isPaused && t.suspended.tid == t.tid)
  }

  ghost predicate ThreadOk(s: State, t: Thread) {
    && RecordOk(t)
    // a thread marked paused is stopped, and the event of that very stop is in flight
    && (t.isPaused ==> IsStopped(s.kernel, t.tid) && InFlight(s, t, StopEvent(s.kernel, t.tid)))
    // a thread whose stop was waited for is marked paused
    && (t.tid in s.kernel && s.kernel[t.tid].Reaped? ==> t.isPaused)
  }

  ghost predicate EventsBelow(queue: seq<Event>, n: int) {
    forall e | e in queue :: e.stop < n
  }

  ghost predicate ThreadsBelow(threads: seq<Thread>, n: int) {
    forall i | 0 <= i < |threads| :: threads[i].suspended.stop < n
  }

  ghost predicate StopsBelow(kernel: map<int, Stop>, n: int) {
    forall tid | tid in kernel && kernel[tid] != Running :: kernel[tid].sig > 0 && 0 <= kernel[tid].stop < n
  }

  /** Stops have real signals, and no stop or event has a number that is yet to be given out. */
  ghost predicate Numbered(s: State) {
    && s.current.stop < s.stops && EventsBelow(s.queue, s.stops)
    && ThreadsBelow(s.threads, s.stops) && StopsBelow(s.kernel, s.stops)
  }

  lemma RemoveEventBelow(queue: seq<Event>, tid: int, n: int)
    requires EventsBelow(queue, n)
    ensures EventsBelow(RemoveEvent(queue, tid), n)
  {
    forall e | e in RemoveEvent(queue, tid) ensures e.stop < n {
      assert e in queue;
    }
  }

  lemma SetPausedBelow(threads: seq<Thread>, tid: int, paused: bool, n: int)
    requires ThreadsBelow(threads, n)
    ensures ThreadsBelow(SetPaused(threads, tid, paused), n)
  {
  }

  /** What every reachable state is like, whatever happened. */
  ghost predicate Sane(s: State) {
    Distinct(s.threads) && (forall i | 0 <= i < |s.threads| :: RecordOk(s.threads[i])) && Numbered(s)
  }

  /** The server has not lost track of a thread. */
  ghost predicate Tracks(s: State, tid: int) {
    var i := Find(s.threads, tid);
    i >= 0 ==> ThreadOk(s, s.threads[i])
  }

  /** Nor of any other. */
  ghost predicate Inv(s: State) {
    Sane(s) && forall i | 0 <= i < |s.threads| :: ThreadOk(s, s.threads[i])
  }

  lemma InvTracks(s: State, tid: int)
    requires Inv(s)
    ensures Tracks(s, tid)
  {
  }

  /** An event in flight is the event of one stop only: a stop that begins now has no event yet. */
  lemma NewStopIsNew(s: State, e: Event, t: Thread)
    requires Sane(s) && CanReap(s, e) && s.kernel[e.tid] == Running && t in s.threads
    ensures !InFlight(s, t, e)
  {
  }

  /** The one way to lose track: a wait for a running thread ends because an old event of that thread was still queued,
      while the thread has not stopped yet. */
  predicate StaleWake(s: State, c: Command) {
    (c.SuspendThread? || c.PauseFor?) && c.wake.Dequeued? &&
    var i := Find(s.threads, c.tid);
    i >= 0 && !s.threads[i].isPaused && !IsStopped(s.kernel, c.tid)
  }

  /** The record of the thread is read without a check that there is one. */
  predicate UnknownThread(s: State, c: Command) {
    c.PauseFor? && c.purpose == RemoveBreakpoint && Find(s.threads, c.tid) < 0
  }

  // ---------------------------------------------------------------------------------------------
  // What a command leaves alone.

  /** A step that concerns one thread leaves the records and stops of the others as they are. */
  ghost predicate OthersSame(s: State, s': State, tid: int) {
    && (forall other | other != tid :: (other in s'.kernel <==> other in s.kernel) &&
                                       (other in s.kernel ==> s'.kernel[other] == s.kernel[other]))
    && |s'.threads| == |s.threads|
    && (forall i | 0 <= i < |s.threads| :: s'.threads[i].tid == s.threads[i].tid &&
                                           (s.threads[i].tid != tid ==> s'.threads[i] == s.threads[i]))
  }

  /** It also leaves their events in flight. */
  ghost predicate OnlyAbout(s: State, s': State, tid: int) {
    && s'.current == s.current
    && (forall e | e in s.queue && e.tid != tid :: e in s'.queue)
    && OthersSame(s, s', tid)
  }

  lemma OtherOk(s: State, s': State, tid: int, t: Thread)
    requires OnlyAbout(s, s', tid) && ThreadOk(s, t) && t.tid != tid
    ensures ThreadOk(s', t)
  {
  }

  lemma RemoveEventKeeps(queue: seq<Event>, tid: int, e: Event)
    requires e in queue
    ensures e in RemoveEvent(queue, tid) || (FindEvent(queue, tid) >= 0 && e == queue[FindEvent(queue, tid)])
  {
    var k := FindEvent(queue, tid);
    if k >= 0 {
      assert queue == queue[..k] + [queue[k]] + queue[k + 1..];
    }
  }

  lemma RemoveEventOthers(queue: seq<Event>, tid: int)
    ensures forall e | e in queue && e.tid != tid :: e in RemoveEvent(queue, tid)
  {
    forall e | e in queue && e.tid != tid
      ensures e in RemoveEvent(queue, tid)
    {
      RemoveEventKeeps(queue, tid, e);
    }
  }

  lemma OnlyAboutTwice(s: State, w: State, s': State, tid: int)
    requires OnlyAbout(s, w, tid) && OnlyAbout(w, s', tid)
    ensures OnlyAbout(s, s', tid)
  {
    forall i | 0 <= i < |s.threads| && s.threads[i].tid != tid ensures s'.threads[i] == s.threads[i] {
      assert w.threads[i] == s.threads[i];
    }
  }

  lemma ReapOnlyAbout(s: State, e: Event)
    requires Distinct(s.threads)
    ensures OnlyAbout(s, Reap(s, e), e.tid)
  {
  }

  lemma WaitForOnlyAbout(s: State, tid: int, wake: Wake)
    requires Distinct(s.threads)
    ensures OnlyAbout(s, WaitFor(s, tid, wake).0, tid) && WaitFor(s, tid, wake).1.tid == tid
  {
    RemoveEventOthers(s.queue, tid);
  }

  lemma ReleaseOnlyAbout(s: State, e: Event)
    requires Distinct(s.threads)
    ensures OnlyAbout(s, Release(s, e), e.tid)
  {
  }

  lemma SuspendOnlyAbout(s: State, tid: int, wake: Wake)
    requires Sane(s) && DoSuspend(s, tid, wake).Ok?
    ensures OnlyAbout(s, DoSuspend(s, tid, wake).state, tid)
  {
    var i := Find(s.threads, tid);
    if i >= 0 {
      TheThread(s, i);
      if s.threads[i].isPaused {
        RemoveEventOthers(s.queue, tid);
      } else {
        WaitForOnlyAbout(s, tid, wake);
        RecordOnlyAbout(s, WaitFor(s, tid, wake).0, DoSuspend(s, tid, wake).state, tid, i);
      }
    }
  }

  lemma RecordOnlyAbout(s: State, w: State, s': State, tid: int, i: nat)
    requires OnlyAbout(s, w, tid) && i < |s.threads| && s.threads[i].tid == tid
    requires s' == w.(threads := s'.threads) && |s'.threads| == |w.threads|
    requires s'.threads[i].tid == tid && forall j | 0 <= j < |w.threads| && j != i :: s'.threads[j] == w.threads[j]
    ensures OnlyAbout(s, s', tid)
  {
  }

  lemma ResumeOnlyAbout(s: State, tid: int)
    requires Sane(s)
    ensures OnlyAbout(s, DoResume(s, tid), tid)
  {
    var i := Find(s.threads, tid);
    assert i >= 0 ==> RecordOk(s.threads[i]);
  }

  lemma PauseOnlyAbout(s: State, purpose: Purpose, tid: int, wake: Wake)
    requires Sane(s) && DoPause(s, purpose, tid, wake).Ok?
    ensures OnlyAbout(s, DoPause(s, purpose, tid, wake).state, tid)
  {
    var i := Find(s.threads, tid);
    if i >= 0 && !s.threads[i].isPaused {
      var (w, e) := WaitFor(s, tid, wake);
      WaitForOnlyAbout(s, tid, wake);
      SameDistinct(s, w, tid);
      ReleaseOnlyAbout(w, e);
      OnlyAboutTwice(s, w, Release(w, e), tid);
    }
  }

  lemma SameDistinct(s: State, s': State, tid: int)
    requires Distinct(s.threads) && OthersSame(s, s', tid)
    ensures Distinct(s'.threads)
  {
  }

  lemma AccessOnlyAbout(s: State, stop: Event)
    requires Sane(s)
    ensures OnlyAbout(s, DoAccess(s, stop), stop.tid)
  {
    if !SomePaused(s.threads) {
      var w := Reap(s, stop);
      ReapOnlyAbout(s, stop);
      SameDistinct(s, w, stop.tid);
      ReleaseOnlyAbout(w, stop);
      OnlyAboutTwice(s, w, Release(w, stop), stop.tid);
    }
  }

  /** The commands that leave the current event alone, and the thread they are about. */
  predicate IsAbout(c: Command, tid: int) {
    match c
    case SuspendThread(t, _) => t == tid
    case ResumeThread(t) => t == tid
    case PauseFor(_, t, _) => t == tid
    case AccessMemory(stop) => stop.tid == tid
    case ThreadStops(t, _) => t == tid
    case WaitForDebugEvent(_) => false
    case ContinueFromDebugEvent(_, _) => false
  }

  lemma StepOnlyAbout(s: State, c: Command, tid: int)
    requires Sane(s) && IsAbout(c, tid) && Step(s, c).Ok?
    ensures OnlyAbout(s, Step(s, c).state, tid)
  {
    match c
    case SuspendThread(_, wake) => SuspendOnlyAbout(s, tid, wake);
    case ResumeThread(_) => ResumeOnlyAbout(s, tid);
    case PauseFor(purpose, _, wake) => PauseOnlyAbout(s, purpose, tid, wake);
    case AccessMemory(stop) => AccessOnlyAbout(s, stop);
    case ThreadStops(_, _) =>
  }

  lemma OtherTracked(s: State, s': State, other: int, tid: int)
    requires OnlyAbout(s, s', other) && other != tid && Tracks(s, tid)
    ensures Tracks(s', tid)
  {
    FindSame(s.threads, s'.threads, tid);
    var i := Find(s.threads, tid);
    if i >= 0 {
      OtherOk(s, s', other, s.threads[i]);
    }
  }

  // ---------------------------------------------------------------------------------------------
  // Every reachable state is sane.

  /** After a command about one thread it is enough to look at its record. */
  lemma SaneAbout(s: State, s': State, tid: int)
    requires Sane(s) && OnlyAbout(s, s', tid) && Numbered(s')
    requires forall i | 0 <= i < |s.threads| && s.threads[i].tid == tid :: RecordOk(s'.threads[i])
    ensures Sane(s')
  {
    SameDistinct(s, s', tid);
    forall i | 0 <= i < |s'.threads| ensures RecordOk(s'.threads[i]) {
      assert RecordOk(s.threads[i]);
    }
  }

  lemma TheThread(s: State, i: nat)
    requires Distinct(s.threads) && i < |s.threads|
    ensures forall j | 0 <= j < |s.threads| && s.threads[j].tid == s.threads[i].tid :: j == i
  {
  }

  lemma ReapSane(s: State, e: Event)
    requires Sane(s) && CanReap(s, e)
    ensures Sane(Reap(s, e)) && e.stop < Reap(s, e).stops
  {
    var s' := Reap(s, e);
    SetPausedBelow(s.threads, e.tid, true, s'.stops);
    ReapOnlyAbout(s, e);
    forall i | 0 <= i < |s.threads| ensures RecordOk(s'.threads[i]) {
      assert RecordOk(s.threads[i]);
    }
  }

  /** A wait, stale or not: the record of the thread is marked paused, and its event has a number in use. */
  lemma WaitForSane(s: State, tid: int, wake: Wake)
    requires Sane(s) && Find(s.threads, tid) >= 0 && !s.threads[Find(s.threads, tid)].isPaused && WakeFits(s, tid, wake)
    ensures Sane(WaitFor(s, tid, wake).0) && WaitFor(s, tid, wake).1.stop < WaitFor(s, tid, wake).0.stops
  {
    match wake
    case Waited(sig) => ReapSane(s, Event(tid, sig, StopNumber(s, tid)));
    case Dequeued =>
      var w := WaitFor(s, tid, wake).0;
      RemoveEventBelow(s.queue, tid, s.stops);
      SetPausedBelow(s.threads, tid, true, s.stops);
      WaitForOnlyAbout(s, tid, wake);
      forall i | 0 <= i < |s.threads| ensures RecordOk(w.threads[i]) {
        assert RecordOk(s.threads[i]);
      }
  }

  lemma ReleaseSane(s: State, e: Event)
    requires Sane(s) && e.stop < s.stops
    requires var i := Find(s.threads, e.tid); i >= 0 ==> s.threads[i].suspendCount == 0
    ensures Sane(Release(s, e))
  {
    var s' := Release(s, e);
    SetPausedBelow(s.threads, e.tid, true, s.stops);
    SetPausedBelow(s.threads, e.tid, false, s.stops);
    ReleaseOnlyAbout(s, e);
    forall i | 0 <= i < |s.threads| ensures RecordOk(s'.threads[i]) {
      assert RecordOk(s.threads[i]);
    }
  }

  lemma PauseSane(s: State, purpose: Purpose, tid: int, wake: Wake)
    requires Sane(s) && WakeFits(s, tid, wake) && DoPause(s, purpose, tid, wake).Ok?
    ensures Sane(DoPause(s, purpose, tid, wake).state)
  {
    var i := Find(s.threads, tid);
    if i >= 0 && !s.threads[i].isPaused {
      var (w, e) := WaitFor(s, tid, wake);
      WaitForSane(s, tid, wake);
      FindSame(s.threads, w.threads, tid);
      assert RecordOk(s.threads[i]);
      ReleaseSane(w, e);
    }
  }

  lemma AccessSane(s: State, stop: Event)
    requires Sane(s) && Enabled(s, AccessMemory(stop))
    ensures Sane(DoAccess(s, stop))
  {
    if !SomePaused(s.threads) {
      var i := Find(s.threads, stop.tid);
      assert i >= 0 ==> RecordOk(s.threads[i]) && !s.threads[i].isPaused;
      ReapSane(s, stop);
      FindSame(s.threads, Reap(s, stop).threads, stop.tid);
      ReleaseSane(Reap(s, stop), stop);
    }
  }

  lemma SuspendSane(s: State, tid: int, wake: Wake)
    requires Sane(s) && WakeFits(s, tid, wake) && DoSuspend(s, tid, wake).Ok?
    ensures Sane(DoSuspend(s, tid, wake).state)
  {
    var i := Find(s.threads, tid);
    if i >= 0 {
      if s.threads[i].isPaused {
        SuspendPausedSane(s, tid, wake, i);
      } else {
        SuspendRunningSane(s, tid, wake, i);
      }
    }
  }

  lemma SuspendPausedSane(s: State, tid: int, wake: Wake, i: nat)
    requires Sane(s) && i == Find(s.threads, tid) && s.threads[i].isPaused && DoSuspend(s, tid, wake).Ok?
    ensures Sane(DoSuspend(s, tid, wake).state)
  {
    SuspendOnlyAbout(s, tid, wake);
    TheThread(s, i);
    assert RecordOk(s.threads[i]);
    RemoveEventBelow(s.queue, tid, s.stops);
    SaneAbout(s, DoSuspend(s, tid, wake).state, tid);
  }

  lemma SuspendRunningSane(s: State, tid: int, wake: Wake, i: nat)
    requires Sane(s) && i == Find(s.threads, tid) && !s.threads[i].isPaused && WakeFits(s, tid, wake)
    ensures DoSuspend(s, tid, wake).Ok? && Sane(DoSuspend(s, tid, wake).state)
  {
    SuspendOnlyAbout(s, tid, wake);
    TheThread(s, i);
    assert RecordOk(s.threads[i]);
    WaitForSane(s, tid, wake);
    SaneAbout(s, DoSuspend(s, tid, wake).state, tid);
  }

  lemma ResumeSane(s: State, tid: int)
    requires Sane(s)
    ensures Sane(DoResume(s, tid))
  {
    var i := Find(s.threads, tid);
    if i >= 0 {
      ResumeOnlyAbout(s, tid);
      TheThread(s, i);
      assert RecordOk(s.threads[i]);
      SaneAbout(s, DoResume(s, tid), tid);
    }
  }

  lemma ContinueSane(s: State, tid: int, alive: bool)
    requires Sane(s)
    ensures Sane(DoContinue(s, tid, alive))
  {
    var s' := DoContinue(s, tid, alive);
    if |s'.threads| != |s.threads| {
      RemoveSane(s, tid, s');
    } else {
      SetPausedBelow(s.threads, tid, false, s.stops);
      forall i | 0 <= i < |s'.threads| ensures RecordOk(s'.threads[i]) {
        assert RecordOk(s.threads[i]);
      }
    }
  }

  lemma RemoveSane(s: State, tid: int, s': State)
    requires Sane(s) && s'.threads == Remove(s.threads, tid) && s'.queue == s.queue && s'.stops == s.stops
    requires s'.current == s.current.(tid := 0) && s'.kernel == s.kernel - {tid}
    ensures Sane(s')
  {
    RemoveDistinct(s.threads, tid);
    forall i | 0 <= i < |s'.threads|
      ensures RecordOk(s'.threads[i]) && s'.threads[i].suspended.stop < s.stops
    {
      RemoveAt(s.threads, tid, i);
    }
  }

  lemma WaitSane(s: State, stops: seq<Event>)
    requires Sane(s) && Enabled(s, WaitForDebugEvent(stops))
    ensures Sane(DoWait(s, stops))
  {
    if stops != [] {
      ReapSane(s, stops[0]);
    }
  }

  /** Stale or not, every command keeps the records in order. */
  lemma StepKeepsSane(s: State, c: Command)
    requires Sane(s) && Enabled(s, c) && Step(s, c).Ok?
    ensures Sane(Step(s, c).state)
  {
    match c
    case WaitForDebugEvent(stops) => WaitSane(s, stops);
    case ContinueFromDebugEvent(tid, alive) => ContinueSane(s, tid, alive);
    case SuspendThread(tid, wake) => SuspendSane(s, tid, wake);
    case ResumeThread(tid) => ResumeSane(s, tid);
    case PauseFor(purpose, tid, wake) => PauseSane(s, purpose, tid, wake);
    case AccessMemory(stop) => AccessSane(s, stop);
    case ThreadStops(_, _) =>
  }

  // ---------------------------------------------------------------------------------------------
  // One thread at a time.

  lemma WaitTracked(s: State, stops: seq<Event>, tid: int)
    requires Sane(s) && Enabled(s, WaitForDebugEvent(stops)) && Tracks(s, tid)
    ensures Tracks(DoWait(s, stops), tid)
  {
    var s' := DoWait(s, stops);
    if s.current.tid == 0 {
      if s.queue != [] {
        assert s.queue == [s.queue[0]] + s.queue[1..];
      } else if stops != [] {
        ReapTracked(s, stops[0], s', tid);
      }
    }
  }

  /** A reaped stop whose event goes into flight. */
  lemma ReapTracked(s: State, e: Event, s': State, tid: int)
    requires Sane(s) && CanReap(s, e) && Tracks(s, tid)
    requires s'.threads == Reap(s, e).threads && s'.kernel == Reap(s, e).kernel
    requires (forall x | x in s.queue :: x in s'.queue) && s.current.tid == 0 && s'.current == e
    ensures Tracks(s', tid)
  {
    FindSame(s.threads, s'.threads, tid);
    var i := Find(s.threads, tid);
    if i >= 0 {
      assert RecordOk(s.threads[i]);
    }
  }

  /** Continuing a thread, or dropping one that cannot be continued. */
  lemma ContinueTracked(s: State, other: int, alive: bool, tid: int)
    requires Sane(s) && Enabled(s, ContinueFromDebugEvent(other, alive)) && Tracks(s, tid)
    ensures Tracks(DoContinue(s, other, alive), tid)
  {
    var s' := DoContinue(s, other, alive);
    if |s'.threads| != |s.threads| {
      RemoveTracked(s, s', other, tid);
    } else {
      FindSame(s.threads, s'.threads, tid);
    }
  }

  lemma RemoveTracked(s: State, s': State, other: int, tid: int)
    requires Sane(s) && s.current.tid == other && Tracks(s, tid)
    requires s'.threads == Remove(s.threads, other) && s'.queue == s.queue && s'.kernel == s.kernel - {other}
    ensures Tracks(s', tid)
  {
    if other == tid {
      RemovedNotFound(s.threads, other);
    } else {
      OtherFound(s.threads, other, tid);
    }
  }

  lemma ResumeTracked(s: State, tid: int)
    requires Sane(s) && Tracks(s, tid)
    ensures Tracks(DoResume(s, tid), tid)
  {
    FindSame(s.threads, DoResume(s, tid).threads, tid);
  }

  /** The queue lookup of SuspendThread finds an event for every thread the server has not lost track of. */
  lemma SuspendFindsEvent(s: State, tid: int, wake: Wake)
    requires Tracks(s, tid)
    ensures DoSuspend(s, tid, wake).Ok?
  {
    var i := Find(s.threads, tid);
    if i >= 0 && s.threads[i].isPaused && s.threads[i].suspendCount == 0 && s.current.tid != tid {
      assert StopEvent(s.kernel, tid) in s.queue;
    }
  }

  lemma SuspendPausedTracked(s: State, tid: int, wake: Wake)
    requires Sane(s) && Tracks(s, tid) && Find(s.threads, tid) >= 0 && s.threads[Find(s.threads, tid)].isPaused
    requires DoSuspend(s, tid, wake).Ok?
    ensures Tracks(DoSuspend(s, tid, wake).state, tid)
  {
    FindSame(s.threads, DoSuspend(s, tid, wake).state.threads, tid);
    var e := StopEvent(s.kernel, tid);
    if e in s.queue {
      RemoveEventKeeps(s.queue, tid, e);
    }
  }

  lemma SuspendRunningTracked(s: State, tid: int, wake: Wake)
    requires Sane(s) && Tracks(s, tid) && WakeFits(s, tid, wake)
    requires Find(s.threads, tid) >= 0 && !s.threads[Find(s.threads, tid)].isPaused
    ensures DoSuspend(s, tid, wake).Ok?
    ensures Tracks(DoSuspend(s, tid, wake).state, tid) <==> !StaleWake(s, SuspendThread(tid, wake))
  {
    FindSame(s.threads, DoSuspend(s, tid, wake).state.threads, tid);
  }

  /** The end of a temporary pause: the thread runs again, or its event is queued. */
  lemma ReleaseTracked(w: State, e: Event)
    requires var i := Find(w.threads, e.tid); i >= 0 ==> RecordOk(w.threads[i]) && w.threads[i].suspendCount == 0
    requires Find(w.threads, e.tid) >= 0 && w.threads[Find(w.threads, e.tid)].isPaused
    requires e == StopEvent(w.kernel, e.tid)
    ensures Tracks(Release(w, e), e.tid) <==> IsStopped(w.kernel, e.tid)
  {
    FindSame(w.threads, Release(w, e).threads, e.tid);
  }

  lemma PauseTracked(s: State, purpose: Purpose, tid: int, wake: Wake)
    requires Sane(s) && Tracks(s, tid) && WakeFits(s, tid, wake) && DoPause(s, purpose, tid, wake).Ok?
    ensures Tracks(DoPause(s, purpose, tid, wake).state, tid) <==> !StaleWake(s, PauseFor(purpose, tid, wake))
  {
    var i := Find(s.threads, tid);
    if i >= 0 && !s.threads[i].isPaused {
      var (w, e) := WaitFor(s, tid, wake);
      FindSame(s.threads, w.threads, tid);
      assert RecordOk(s.threads[i]);
      ReleaseTracked(w, e);
    }
  }

  lemma AccessTracked(s: State, stop: Event)
    requires Sane(s) && Tracks(s, stop.tid) && Enabled(s, AccessMemory(stop))
    ensures Tracks(DoAccess(s, stop), stop.tid)
  {
    var i := Find(s.threads, stop.tid);
    if !SomePaused(s.threads) {
      var w := Reap(s, stop);
      FindSame(s.threads, w.threads, stop.tid);
      FindSame(w.threads, Release(w, stop).threads, stop.tid);
      if i >= 0 {
        assert RecordOk(s.threads[i]) && !s.threads[i].isPaused;
        ReleaseTracked(w, stop);
      }
    }
  }

  /** The server loses track of a thread exactly when a wait for that thread is ended by a stale event: no command about
      another thread, stale or not, matters. */
  lemma StepKeepsTrack(s: State, c: Command, tid: int)
    requires Sane(s) && Enabled(s, c) && Step(s, c).Ok? && Tracks(s, tid)
    ensures Tracks(Step(s, c).state, tid) <==> !(StaleWake(s, c) && c.tid == tid)
  {
    match c
    case WaitForDebugEvent(stops) => WaitTracked(s, stops, tid);
    case ContinueFromDebugEvent(other, alive) => ContinueTracked(s, other, alive, tid);
    case SuspendThread(other, wake) =>
      if other != tid {
        OtherCommandTracked(s, c, other, tid);
      } else if Find(s.threads, tid) >= 0 {
        if s.threads[Find(s.threads, tid)].isPaused {
          SuspendPausedTracked(s, tid, wake);
        } else {
          SuspendRunningTracked(s, tid, wake);
        }
      }
    case ResumeThread(other) =>
      if other != tid {
        OtherCommandTracked(s, c, other, tid);
      } else {
        ResumeTracked(s, tid);
      }
    case PauseFor(purpose, other, wake) =>
      if other != tid {
        OtherCommandTracked(s, c, other, tid);
      } else {
        PauseTracked(s, purpose, tid, wake);
      }
    case AccessMemory(stop) =>
      if stop.tid != tid {
        OtherCommandTracked(s, c, stop.tid, tid);
      } else {
        AccessTracked(s, stop);
      }
    case ThreadStops(other, sig) =>
      if other != tid {
        OtherCommandTracked(s, c, other, tid);
      }
  }

  lemma OtherCommandTracked(s: State, c: Command, other: int, tid: int)
    requires Sane(s) && IsAbout(c, other) && other != tid && Step(s, c).Ok? && Tracks(s, tid)
    ensures Tracks(Step(s, c).state, tid)
  {
    StepOnlyAbout(s, c, other);
    OtherTracked(s, Step(s, c).state, other, tid);
  }

  /** One command from a state in which the server tracks every thread crashes it exactly when it removes a breakpoint
      from a thread the server does not know, and keeps track of all threads exactly when it is not woken by a stale
      event. */
  lemma StepKeepsInv(s: State, c: Command)
    requires Inv(s) && Enabled(s, c)
    ensures Step(s, c).Ok? <==> !UnknownThread(s, c)
    ensures Step(s, c).Ok? ==> (Inv(Step(s, c).state) <==> !StaleWake(s, c))
  {
    if c.SuspendThread? {
      InvTracks(s, c.tid);
      SuspendFindsEvent(s, c.tid, c.wake);
    }
    if Step(s, c).Ok? {
      var s' := Step(s, c).state;
      StepKeepsSane(s, c);
      if StaleWake(s, c) {
        InvTracks(s, c.tid);
        StepKeepsTrack(s, c, c.tid);
        assert !Tracks(s', c.tid);
      } else {
        forall i | 0 <= i < |s'.threads| ensures ThreadOk(s', s'.threads[i]) {
          var tid := s'.threads[i].tid;
          InvTracks(s, tid);
          StepKeepsTrack(s, c, tid);
          FindIs(s'.threads, i);
        }
      }
    }
  }

  // ---------------------------------------------------------------------------------------------
  // Runs.

  function Run(s: State, commands: seq<Command>): Outcome
    decreases commands
  {
    if commands == [] then Ok(s)
    else
      match Step(s, commands[0])
      case Crash => Crash
      case Ok(s') => Run(s', commands[1..])
  }

  /** Every command is one the environment may issue where it is issued. */
  predicate Possible(s: State, commands: seq<Command>)
    decreases commands
  {
    commands == [] ||
    (Enabled(s, commands[0]) &&
     (Step(s, commands[0]).Ok? ==> Possible(Step(s, commands[0]).state, commands[1..])))
  }

  /** No wait for this thread is ended by a stale event. */
  predicate NeverStaleFor(s: State, commands: seq<Command>, tid: int)
    decreases commands
  {
    commands == [] ||
    (!(StaleWake(s, commands[0]) && commands[0].tid == tid) &&
     (Step(s, commands[0]).Ok? ==> NeverStaleFor(Step(s, commands[0]).state, commands[1..], tid)))
  }

  /** No wait of the run is ended by a stale event. */
  predicate NeverStale(s: State, commands: seq<Command>)
    decreases commands
  {
    commands == [] ||
    (!StaleWake(s, commands[0]) &&
     (Step(s, commands[0]).Ok? ==> NeverStale(Step(s, commands[0]).state, commands[1..])))
  }

  /** Breakpoints are removed only from threads the server knows at that point. */
  predicate KnownThreads(s: State, commands: seq<Command>)
    decreases commands
  {
    commands == [] ||
    (!UnknownThread(s, commands[0]) &&
     (Step(s, commands[0]).Ok? ==> KnownThreads(Step(s, commands[0]).state, commands[1..])))
  }

  /** The process as StartDebug leaves it: attached threads, and made-up events in the queue. */
  ghost predicate Attached(s: State) {
    && Distinct(s.threads) && s.current.tid == 0
    && (forall i | 0 <= i < |s.threads| ::
          s.threads[i].tid != 0 && !s.threads[i].isPaused && s.threads[i].suspendCount == 0)
    && (forall i | 0 <= i < |s.queue| :: s.queue[i].sig < 0)
    && (forall tid | tid in s.kernel :: !s.kernel[tid].Reaped?)
    && Numbered(s)
  }

  lemma AttachedInv(s: State)
    requires Attached(s)
    ensures Inv(s)
  {
  }

  /** Over every run that has not crashed and in which no wait for this thread was ended by a stale event, whatever
      happened to other threads: the stop of the thread is not lost, and suspending it finds its event. */
  lemma {:induction false} NoStopIsLost(s: State, commands: seq<Command>, tid: int, wake: Wake)
    requires Sane(s) && Tracks(s, tid) && Possible(s, commands) && NeverStaleFor(s, commands, tid)
    requires Run(s, commands).Ok?
    ensures Sane(Run(s, commands).state) && Tracks(Run(s, commands).state, tid)
    ensures DoSuspend(Run(s, commands).state, tid, wake).Ok?
    decreases commands
  {
    if commands == [] {
      SuspendFindsEvent(s, tid, wake);
    } else {
      StepKeepsSane(s, commands[0]);
      StepKeepsTrack(s, commands[0], tid);
      NoStopIsLost(Step(s, commands[0]).state, commands[1..], tid, wake);
    }
  }

  /** Over every run without any stale wake the server crashes exactly when it is told to remove a breakpoint from an
      unknown thread. */
  lemma {:induction false} OnlyUnknownCrashes(s: State, commands: seq<Command>)
    requires Inv(s) && Possible(s, commands) && NeverStale(s, commands)
    ensures Run(s, commands).Ok? <==> KnownThreads(s, commands)
    ensures Run(s, commands).Ok? ==> Inv(Run(s, commands).state)
    decreases commands
  {
    if commands != [] {
      StepKeepsInv(s, commands[0]);
      if Step(s, commands[0]).Ok? {
        OnlyUnknownCrashes(Step(s, commands[0]).state, commands[1..]);
      }
    }
  }

  /** For instance in a process that was just attached to, whose only thread is another one. */
  lemma UnknownThreadCrashes(tid: int, other: int)
    requires tid != 0 && other != tid
    ensures var s := State([Thread(tid, false, 0, NO_EVENT)], [], NO_EVENT, map[tid := Running], 0);
            var commands := [PauseFor(RemoveBreakpoint, other, Dequeued)];
            Attached(s) && Possible(s, commands) && NeverStale(s, commands) && Run(s, commands) == Crash
  {
  }

  /** The condition is needed: a context read while the thread's create event is still queued, two client commands to
      consume the event it leaves behind, and the next suspend dereferences a null pointer. */
  lemma StaleWakeCrashes(tid: int)
    requires tid != 0
    ensures var s := State([Thread(tid, false, 0, NO_EVENT)], [Event(tid, -1, -1)], NO_EVENT, map[tid := Running], 0);
            var commands := [PauseFor(GetThreadContext, tid, Dequeued), WaitForDebugEvent([]),
                             ContinueFromDebugEvent(tid, true), SuspendThread(tid, Waited(SIGSTOP))];
            Attached(s) && Possible(s, commands) && Run(s, commands) == Crash
  {
    var t := Thread(tid, false, 0, NO_EVENT);
    var s := State([t], [Event(tid, -1, -1)], NO_EVENT, map[tid := Running], 0);
    var pause, wait := PauseFor(GetThreadContext, tid, Dequeued), WaitForDebugEvent([]);
    var cont, suspend := ContinueFromDebugEvent(tid, true), SuspendThread(tid, Waited(SIGSTOP));
    var s1, s2, s3 := StaleSteps(tid, s);
    RunFirst(s3, suspend, []);
    RunFirst(s2, cont, [suspend]);
    RunFirst(s1, wait, [cont, suspend]);
    RunFirst(s, pause, [wait, cont, suspend]);
    assert [suspend] + [] == [suspend] && [cont] + [suspend] == [cont, suspend];
    assert [wait] + [cont, suspend] == [wait, cont, suspend];
    assert [pause] + [wait, cont, suspend] == [pause, wait, cont, suspend];
  }

  lemma StaleSteps(tid: int, s: State) returns (s1: State, s2: State, s3: State)
    requires tid != 0
    requires s == State([Thread(tid, false, 0, NO_EVENT)], [Event(tid, -1, -1)], NO_EVENT, map[tid := Running], 0)
    ensures var pause, wait := PauseFor(GetThreadContext, tid, Dequeued), WaitForDebugEvent([]);
            var cont, suspend := ContinueFromDebugEvent(tid, true), SuspendThread(tid, Waited(SIGSTOP));
            && Enabled(s, pause) && Step(s, pause) == Ok(s1)
            && Enabled(s1, wait) && Step(s1, wait) == Ok(s2)
            && Enabled(s2, cont) && Step(s2, cont) == Ok(s3)
            && Enabled(s3, suspend) && Step(s3, suspend) == Crash
  {
    var paused := [s.threads[0].(isPaused := true)];
    s1 := s.(threads := paused);
    s2 := s1.(queue := [], current := Event(tid, -1, -1));
    s3 := s2.(current := NO_EVENT);
    assert RemoveEvent(s.queue, tid) == [];
    assert SetPaused(s.threads, tid, true) == paused && SetPaused(paused, tid, true) == paused;
  }

  lemma RunFirst(s: State, c: Command, rest: seq<Command>)
    ensures Run(s, [c] + rest) == if Step(s, c).Ok? then Run(Step(s, c).state, rest) else Crash
    ensures Possible(s, [c] + rest) <==> Enabled(s, c) && (Step(s, c).Ok? ==> Possible(Step(s, c).state, rest))
  {
    assert ([c] + rest)[1..] == rest;
  }

  // ---------------------------------------------------------------------------------------------
  // Suspension.

  function SuspendCount(s: State, tid: int): int {
    var i := Find(s.threads, tid);
    if i < 0 then 0 else s.threads[i].suspendCount
  }

  function Delta(c: Command, tid: int): int {
    if c.SuspendThread? && c.tid == tid then 1
    else if c.ResumeThread? && c.tid == tid then -1
    else 0
  }

  /** Suspends minus resumes of a thread. */
  function Balance(commands: seq<Command>, tid: int): int {
    if commands == [] then 0 else Delta(commands[0], tid) + Balance(commands[1..], tid)
  }

  lemma BalanceFirst(c: Command, rest: seq<Command>)
    ensures forall tid :: Balance([c] + rest, tid) == Delta(c, tid) + Balance(rest, tid)
  {
    assert ([c] + rest)[1..] == rest;
  }

  /** Known, marked paused, and stopped in the kernel. */
  predicate Frozen(s: State, tid: int) {
    && Find(s.threads, tid) >= 0
    && s.threads[Find(s.threads, tid)].isPaused
    && IsStopped(s.kernel, tid)
  }

  /** Suspended, and really stopped. */
  predicate Suspended(s: State, tid: int) {
    SuspendCount(s, tid) > 0 && Frozen(s, tid)
  }

  /** A thread the server has not lost track of is stopped if it is suspended. */
  lemma SuspendedIsFrozen(s: State, tid: int)
    requires Tracks(s, tid) && SuspendCount(s, tid) > 0
    ensures Suspended(s, tid)
  {
  }

  /** A first suspend really stops the thread exactly when its own wait is not ended by a stale event. */
  lemma SuspendFreezes(s: State, tid: int, wake: Wake)
    requires Sane(s) && Tracks(s, tid) && Enabled(s, SuspendThread(tid, wake))
    requires Find(s.threads, tid) >= 0 && SuspendCount(s, tid) == 0
    ensures DoSuspend(s, tid, wake).Ok?
    ensures var s' := DoSuspend(s, tid, wake).state;
            SuspendCount(s', tid) == 1 && (Suspended(s', tid) <==> !StaleWake(s, SuspendThread(tid, wake)))
  {
    SuspendFindsEvent(s, tid, wake);
    FindSame(s.threads, DoSuspend(s, tid, wake).state.threads, tid);
  }

  /** The step left the record of the thread and its stop alone. */
  predicate Untouched(s: State, s': State, tid: int) {
    var i, i' := Find(s.threads, tid), Find(s'.threads, tid);
    && i >= 0 && i' >= 0 && s'.threads[i'] == s.threads[i]
    && StopEvent(s'.kernel, tid) == StopEvent(s.kernel, tid)
  }

  lemma UntouchedByOther(s: State, s': State, other: int, tid: int)
    requires OthersSame(s, s', other) && other != tid && Find(s.threads, tid) >= 0
    ensures Untouched(s, s', tid)
  {
    FindSame(s.threads, s'.threads, tid);
  }

  lemma OtherCommandUntouched(s: State, c: Command, other: int, tid: int)
    requires Sane(s) && IsAbout(c, other) && other != tid && Step(s, c).Ok? && Find(s.threads, tid) >= 0
    ensures Untouched(s, Step(s, c).state, tid)
  {
    StepOnlyAbout(s, c, other);
    UntouchedByOther(s, Step(s, c).state, other, tid);
  }

  lemma WaitUntouched(s: State, stops: seq<Event>, tid: int)
    requires Sane(s) && Enabled(s, WaitForDebugEvent(stops)) && Suspended(s, tid)
    ensures Untouched(s, DoWait(s, stops), tid)
  {
    if stops != [] && stops[0].tid != tid {
      ReapOnlyAbout(s, stops[0]);
      UntouchedByOther(s, Reap(s, stops[0]), stops[0].tid, tid);
    } else if stops != [] {
      FindSame(s.threads, Reap(s, stops[0]).threads, tid);
    }
  }

  lemma ContinueUntouched(s: State, other: int, alive: bool, tid: int)
    requires Sane(s) && Suspended(s, tid)
    ensures Untouched(s, DoContinue(s, other, alive), tid)
  {
    var s' := DoContinue(s, other, alive);
    if |s'.threads| != |s.threads| {
      RemovedUntouched(s, s', other, tid);
    } else if other != tid {
      UntouchedByOther(s, s', other, tid);
    }
  }

  lemma RemovedUntouched(s: State, s': State, other: int, tid: int)
    requires Distinct(s.threads) && Find(s.threads, tid) >= 0 && other != tid
    requires s'.threads == Remove(s.threads, other) && s'.kernel == s.kernel - {other}
    ensures Untouched(s, s', tid)
  {
    OtherFound(s.threads, other, tid);
  }

  /** Its own suspend and resume change the count by one. */
  lemma OwnSuspend(s: State, wake: Wake, tid: int)
    requires Suspended(s, tid)
    ensures DoSuspend(s, tid, wake).Ok?
    ensures var s' := DoSuspend(s, tid, wake).state;
            SuspendCount(s', tid) == SuspendCount(s, tid) + 1 && s'.kernel == s.kernel && Frozen(s', tid)
  {
    FindSame(s.threads, DoSuspend(s, tid, wake).state.threads, tid);
  }

  lemma OwnResume(s: State, tid: int)
    requires Suspended(s, tid)
    ensures var s' := DoResume(s, tid);
            && SuspendCount(s', tid) == SuspendCount(s, tid) - 1
            && (SuspendCount(s', tid) > 0 ==> s'.kernel == s.kernel && Frozen(s', tid))
  {
    FindSame(s.threads, DoResume(s, tid).threads, tid);
  }

  lemma OwnPause(s: State, purpose: Purpose, wake: Wake, tid: int)
    requires Suspended(s, tid)
    ensures DoPause(s, purpose, tid, wake) == Ok(s)
  {
  }

  /** No command but its own suspend and resume touches a suspended thread. */
  lemma StepKeepsSuspended(s: State, c: Command, tid: int)
    requires Sane(s) && Enabled(s, c) && Step(s, c).Ok? && Suspended(s, tid)
    ensures SuspendCount(Step(s, c).state, tid) == SuspendCount(s, tid) + Delta(c, tid)
    ensures SuspendCount(s, tid) + Delta(c, tid) > 0 ==>
              Frozen(Step(s, c).state, tid) && StopEvent(Step(s, c).state.kernel, tid) == StopEvent(s.kernel, tid)
  {
    match c
    case WaitForDebugEvent(stops) => WaitUntouched(s, stops, tid);
    case ContinueFromDebugEvent(other, alive) => ContinueUntouched(s, other, alive, tid);
    case SuspendThread(other, wake) =>
      if other != tid {
        OtherCommandUntouched(s, c, other, tid);
      } else {
        OwnSuspend(s, wake, tid);
      }
    case ResumeThread(other) =>
      if other != tid {
        OtherCommandUntouched(s, c, other, tid);
      } else {
        OwnResume(s, tid);
      }
    case PauseFor(purpose, other, wake) =>
      if other != tid {
        OtherCommandUntouched(s, c, other, tid);
      } else {
        OwnPause(s, purpose, wake, tid);
      }
    case AccessMemory(stop) => assert SomePaused(s.threads);
    case ThreadStops(other, sig) => OtherCommandUntouched(s, c, other, tid);
  }

  /**
    Over every run that does not crash, whatever happens to other threads: as long as resumes have not caught up with
    the suspends, the count is exactly the balance, the thread is marked paused, and it has stayed in the very same
    stop.
   */
  lemma {:induction false} SuspendedStaysStopped(s: State, commands: seq<Command>, tid: int)
    requires Sane(s) && Suspended(s, tid) && Possible(s, commands) && Run(s, commands).Ok?
    requires forall k | 0 <= k <= |commands| :: SuspendCount(s, tid) + Balance(commands[..k], tid) > 0
    ensures var s' := Run(s, commands).state;
            && SuspendCount(s', tid) == SuspendCount(s, tid) + Balance(commands, tid) > 0
            && Frozen(s', tid)
            && StopEvent(s'.kernel, tid) == StopEvent(s.kernel, tid)
    decreases commands
  {
    assert commands[..|commands|] == commands;
    if commands != [] {
      var c, rest := commands[0], commands[1..];
      BalanceFirst(c, []);
      assert commands[..1] == [c] + [];
      assert SuspendCount(s, tid) + Balance(commands[..1], tid) > 0;
      StepKeepsSane(s, c);
      StepKeepsSuspended(s, c, tid);
      forall k | 0 <= k <= |rest|
        ensures SuspendCount(Step(s, c).state, tid) + Balance(rest[..k], tid) > 0
      {
        BalanceFirst(c, rest[..k]);
        assert commands[..k + 1] == [c] + rest[..k];
        assert SuspendCount(s, tid) + Balance(commands[..k + 1], tid) > 0;
      }
      SuspendedStaysStopped(Step(s, c).state, rest, tid);
    }
  }
}
