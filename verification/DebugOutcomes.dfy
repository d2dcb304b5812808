/**
  What each debug command does for the thread it is about: which stop it is in afterwards, whether it runs again, and
  where its event is.  DebugSafety says what the commands keep; this is what they achieve.
 */
module DebugOutcomes {
  import opened ThreadList
  import opened DebugProtocol
  import opened DebugSafety

  /** The thread runs and is known to run. */
  predicate Runs(s: State, tid: int) {
    var i := Find(s.threads, tid);
    tid in s.kernel && s.kernel[tid] == Running && (i >= 0 ==> !s.threads[i].isPaused)
  }

  /** The thread is in the stop of this event, and marked so if it is known. */
  predicate StoppedIn(s: State, e: Event) {
    var i := Find(s.threads, e.tid);
    IsStopped(s.kernel, e.tid) && StopEvent(s.kernel, e.tid) == e && (i >= 0 ==> s.threads[i].isPaused)
  }

  predicate Paused(s: State, tid: int) {
    Find(s.threads, tid) >= 0 && s.threads[Find(s.threads, tid)].isPaused
  }

  // ---------------------------------------------------------------------------------------------
  // Temporary pauses.

  /** A breakpoint edit or a context read of a running thread: if its own SIGSTOP (19) stopped the thread the thread
      runs again and nothing is queued; any other stop is kept, and its event goes to the end of the queue. */
  lemma PauseOutcome(s: State, purpose: Purpose, tid: int, sig: int)
    requires Sane(s) && Enabled(s, PauseFor(purpose, tid, Waited(sig)))
    requires Find(s.threads, tid) >= 0 && !Paused(s, tid)
    ensures Step(s, PauseFor(purpose, tid, Waited(sig))).Ok?
    ensures var s' := Step(s, PauseFor(purpose, tid, Waited(sig))).state;
            var e := Event(tid, sig, StopNumber(s, tid));
            && s'.current == s.current
            && (sig == 19 ==> Runs(s', tid) && s'.queue == s.queue)
            && (sig != 19 ==> StoppedIn(s', e) && s'.queue == s.queue + [e])
  {
    var w := WaitFor(s, tid, Waited(sig)).0;
    FindSame(s.threads, w.threads, tid);
    FindSame(w.threads, Step(s, PauseFor(purpose, tid, Waited(sig))).state.threads, tid);
  }

  /** If the wait was ended by a queued event that event is gone; the stop the thread is in is treated the same. */
  lemma PauseDequeuedOutcome(s: State, purpose: Purpose, tid: int)
    requires Sane(s) && Enabled(s, PauseFor(purpose, tid, Dequeued))
    requires Find(s.threads, tid) >= 0 && !Paused(s, tid) && IsStopped(s.kernel, tid)
    ensures Step(s, PauseFor(purpose, tid, Dequeued)).Ok?
    ensures var s' := Step(s, PauseFor(purpose, tid, Dequeued)).state;
            var e := StopEvent(s.kernel, tid);
            && s'.current == s.current
            && (e.sig == 19 ==> Runs(s', tid) && s'.queue == RemoveEvent(s.queue, tid))
            && (e.sig != 19 ==> StoppedIn(s', e) && s'.queue == RemoveEvent(s.queue, tid) + [e])
  {
    var w := WaitFor(s, tid, Dequeued).0;
    FindSame(s.threads, w.threads, tid);
    FindSame(w.threads, Step(s, PauseFor(purpose, tid, Dequeued)).state.threads, tid);
  }

  /** A paused thread needs no pause. */
  lemma PauseOfPaused(s: State, purpose: Purpose, tid: int, wake: Wake)
    requires Paused(s, tid)
    ensures Step(s, PauseFor(purpose, tid, wake)) == Ok(s)
  {
  }

  /** Memory access stops some thread if none is paused, and then treats it like a pause. */
  lemma AccessOutcome(s: State, stop: Event)
    requires Sane(s) && CanReap(s, stop) && forall i | 0 <= i < |s.threads| :: !s.threads[i].isPaused
    ensures var s' := Step(s, AccessMemory(stop)).state;
            && s'.current == s.current
            && (stop.sig == 19 ==> Runs(s', stop.tid) && s'.queue == s.queue)
            && (stop.sig != 19 ==> StoppedIn(s', stop) && s'.queue == s.queue + [stop])
  {
    var w := Reap(s, stop);
    FindSame(s.threads, w.threads, stop.tid);
    FindSame(w.threads, Step(s, AccessMemory(stop)).state.threads, stop.tid);
  }

  /** With a paused thread at hand nothing has to be stopped. */
  lemma AccessWithPaused(s: State, stop: Event, tid: int)
    requires Paused(s, tid)
    ensures Step(s, AccessMemory(stop)) == Ok(s)
  {
  }

  // ---------------------------------------------------------------------------------------------
  // Waiting and continuing.

  /** Events reach the client in the order of the queue; with an empty queue the client gets the new stop. */
  lemma WaitOutcome(s: State, stops: seq<Event>)
    requires Sane(s) && Enabled(s, WaitForDebugEvent(stops))
    ensures var s' := Step(s, WaitForDebugEvent(stops)).state;
            && (s.current.tid != 0 || (s.queue == [] && stops == []) ==> s' == s)
            && (s.current.tid == 0 && s.queue != [] ==>
                  [s'.current] + s'.queue == s.queue && s'.threads == s.threads && s'.kernel == s.kernel)
            && (s.current.tid == 0 && s.queue == [] && stops != [] ==>
                  s'.current == stops[0] && StoppedIn(s', stops[0]) && s'.queue == [])
  {
    if stops != [] {
      FindSame(s.threads, Reap(s, stops[0]).threads, stops[0].tid);
    }
  }

  /** A signal that stops a thread while nothing is outstanding reaches the client as that thread's next event, and the
      kernel can report no other stop of the thread instead. */
  lemma StopIsReported(s: State, tid: int, sig: int, stop: Event)
    requires Sane(s) && Enabled(s, ThreadStops(tid, sig)) && s.current.tid == 0 && s.queue == []
    ensures var s1 := Step(s, ThreadStops(tid, sig)).state;
            var e := Event(tid, sig, s.stops);
            && Enabled(s1, WaitForDebugEvent([e]))
            && (stop.tid == tid && Enabled(s1, WaitForDebugEvent([stop])) ==> stop == e)
            && var s2 := Step(s1, WaitForDebugEvent([e])).state;
               s2.current == e && StoppedIn(s2, e) && s2.queue == []
  {
    var s1 := Step(s, ThreadStops(tid, sig)).state;
    var e := Event(tid, sig, s.stops);
    if Enabled(s1, WaitForDebugEvent([stop])) {
      assert CanReap(s1, [stop][0]);
    }
    FindSame(s1.threads, Reap(s1, e).threads, tid);
  }

  /** Continuing the thread of the current event makes it run and uses the event up; a thread that cannot be continued
      is forgotten. */
  lemma ContinueOutcome(s: State, tid: int, alive: bool)
    requires Sane(s) && Enabled(s, ContinueFromDebugEvent(tid, alive)) && s.current.sig >= 0
    requires Find(s.threads, tid) >= 0 && SuspendCount(s, tid) == 0 && IsStopped(s.kernel, tid)
    ensures var s' := Step(s, ContinueFromDebugEvent(tid, alive)).state;
            && s'.queue == s.queue && s'.current.tid == 0
            && (alive ==> Runs(s', tid) && Find(s'.threads, tid) >= 0)
            && (!alive ==> tid !in s'.kernel && Find(s'.threads, tid) < 0)
  {
    if alive {
      FindSame(s.threads, Step(s, ContinueFromDebugEvent(tid, alive)).state.threads, tid);
    } else {
      RemovedNotFound(s.threads, tid);
    }
  }

  /** Otherwise no thread is touched: a made-up event and that of an unknown thread are only used up, a suspended thread
      and one that is not stopped keep theirs. */
  lemma ContinueWithoutEffect(s: State, tid: int, alive: bool)
    requires Sane(s) && Enabled(s, ContinueFromDebugEvent(tid, alive))
    requires s.current.sig < 0 || Find(s.threads, tid) < 0 || SuspendCount(s, tid) > 0 || !IsStopped(s.kernel, tid)
    ensures var s' := Step(s, ContinueFromDebugEvent(tid, alive)).state;
            && s'.threads == s.threads && s'.kernel == s.kernel && s'.queue == s.queue
            && (s.current.sig < 0 || Find(s.threads, tid) < 0 <==> s'.current.tid == 0)
            && (s'.current.tid != 0 ==> s'.current == s.current)
  {
  }

  // ---------------------------------------------------------------------------------------------
  // Suspending and resuming.

  function Held(s: State, tid: int): Event {
    if Find(s.threads, tid) >= 0 then s.threads[Find(s.threads, tid)].suspended else NO_EVENT
  }

  /** The first suspend of a paused thread takes its event out of the queue, or copies it if it is the current one. */
  lemma SuspendPausedOutcome(s: State, tid: int, wake: Wake)
    requires Sane(s) && Tracks(s, tid) && Paused(s, tid) && SuspendCount(s, tid) == 0
    ensures Step(s, SuspendThread(tid, wake)).Ok?
    ensures var s' := Step(s, SuspendThread(tid, wake)).state;
            && s'.current == s.current && s'.kernel == s.kernel && SuspendCount(s', tid) == 1 && Paused(s', tid)
            && Held(s', tid).tid == tid
            && (s.current.tid == tid ==> Held(s', tid) == s.current && s'.queue == s.queue)
            && (s.current.tid != tid ==> multiset(s'.queue) + multiset{Held(s', tid)} == multiset(s.queue))
  {
    SuspendFindsEvent(s, tid, wake);
    var s' := Step(s, SuspendThread(tid, wake)).state;
    FindSame(s.threads, s'.threads, tid);
    if s.current.tid != tid {
      var k := FindEvent(s.queue, tid);
      assert s.queue == s.queue[..k] + [s.queue[k]] + s.queue[k + 1..];
    }
  }

  /** The first suspend of a running thread stops it and holds the event of that stop. */
  lemma SuspendRunningOutcome(s: State, tid: int, sig: int)
    requires Sane(s) && Enabled(s, SuspendThread(tid, Waited(sig))) && Find(s.threads, tid) >= 0 && !Paused(s, tid)
    ensures Step(s, SuspendThread(tid, Waited(sig))).Ok?
    ensures var s' := Step(s, SuspendThread(tid, Waited(sig))).state;
            var e := Event(tid, sig, StopNumber(s, tid));
            && s'.current == s.current && s'.queue == s.queue && SuspendCount(s', tid) == 1
            && StoppedIn(s', e) && Held(s', tid) == e
  {
    var s' := Step(s, SuspendThread(tid, Waited(sig))).state;
    assert RecordOk(s.threads[Find(s.threads, tid)]);
    FindSame(s.threads, s'.threads, tid);
  }

  /** The last resume lets a thread run whose held event is a SIGSTOP (19); otherwise the thread stays in its stop and
      the held event goes to the end of the queue.  Any earlier resume only counts down. */
  lemma ResumeOutcome(s: State, tid: int)
    requires Sane(s) && Suspended(s, tid)
    ensures var s' := Step(s, ResumeThread(tid)).state;
            && s'.current == s.current && SuspendCount(s', tid) == SuspendCount(s, tid) - 1
            && (SuspendCount(s, tid) > 1 ==> s'.queue == s.queue && s'.kernel == s.kernel && Paused(s', tid))
            && (SuspendCount(s, tid) == 1 && Held(s, tid).sig == 19 ==> Runs(s', tid) && s'.queue == s.queue)
            && (SuspendCount(s, tid) == 1 && Held(s, tid).sig != 19 ==>
                  StoppedIn(s', StopEvent(s.kernel, tid)) && s'.queue == s.queue + [Held(s, tid)])
  {
    var s' := Step(s, ResumeThread(tid)).state;
    assert RecordOk(s.threads[Find(s.threads, tid)]);
    FindSame(s.threads, s'.threads, tid);
  }

  // ---------------------------------------------------------------------------------------------
  // What ends a stop.

  /** The command ends the stop the thread is in: the client continues it, its last resume holds a SIGSTOP, or a command
      that pauses threads for its own purposes finds it stopped by SIGSTOP. */
  predicate Ends(s: State, c: Command, tid: int) {
    var i := Find(s.threads, tid);
    match c
    case ContinueFromDebugEvent(t, _) => t == tid && i >= 0 && s.current.sig >= 0 && s.threads[i].suspendCount == 0
    case ResumeThread(t) =>
      t == tid && i >= 0 && s.threads[i].isPaused && s.threads[i].suspendCount == 1 && s.threads[i].suspended.sig == 19
    case PauseFor(_, t, _) => t == tid && i >= 0 && !s.threads[i].isPaused && StopEvent(s.kernel, tid).sig == 19
    case AccessMemory(stop) =>
      stop.tid == tid && stop.sig == 19 && forall j | 0 <= j < |s.threads| :: !s.threads[j].isPaused
    case WaitForDebugEvent(_) => false
    case SuspendThread(_, _) => false
    case ThreadStops(_, _) => false
  }

  lemma OtherStopKept(s: State, c: Command, other: int, tid: int)
    requires Sane(s) && IsAbout(c, other) && other != tid && Step(s, c).Ok?
    ensures StopEvent(Step(s, c).state.kernel, tid) == StopEvent(s.kernel, tid)
  {
    StepOnlyAbout(s, c, other);
  }

  lemma ContinueEnds(s: State, t: int, alive: bool, tid: int)
    requires Sane(s) && Enabled(s, ContinueFromDebugEvent(t, alive)) && IsStopped(s.kernel, tid)
    ensures StopEvent(DoContinue(s, t, alive).kernel, tid) != StopEvent(s.kernel, tid) <==>
            Ends(s, ContinueFromDebugEvent(t, alive), tid)
  {
    var i := Find(s.threads, t);
    assert i >= 0 ==> RecordOk(s.threads[i]);
  }

  lemma ResumeEnds(s: State, tid: int)
    requires Sane(s) && IsStopped(s.kernel, tid)
    ensures StopEvent(DoResume(s, tid).kernel, tid) != StopEvent(s.kernel, tid) <==> Ends(s, ResumeThread(tid), tid)
  {
    var i := Find(s.threads, tid);
    assert i >= 0 ==> RecordOk(s.threads[i]);
  }

  lemma PauseEnds(s: State, purpose: Purpose, tid: int, wake: Wake)
    requires Sane(s) && Enabled(s, PauseFor(purpose, tid, wake)) && IsStopped(s.kernel, tid)
    requires DoPause(s, purpose, tid, wake).Ok?
    ensures StopEvent(DoPause(s, purpose, tid, wake).state.kernel, tid) != StopEvent(s.kernel, tid) <==>
            Ends(s, PauseFor(purpose, tid, wake), tid)
  {
  }

  lemma AccessEnds(s: State, stop: Event)
    requires Sane(s) && Enabled(s, AccessMemory(stop)) && IsStopped(s.kernel, stop.tid)
    ensures StopEvent(DoAccess(s, stop).kernel, stop.tid) != StopEvent(s.kernel, stop.tid) <==>
            Ends(s, AccessMemory(stop), stop.tid)
  {
  }

  lemma SuspendNeverEnds(s: State, tid: int, wake: Wake)
    requires Sane(s) && Enabled(s, SuspendThread(tid, wake)) && IsStopped(s.kernel, tid) && DoSuspend(s, tid, wake).Ok?
    ensures StopEvent(DoSuspend(s, tid, wake).state.kernel, tid) == StopEvent(s.kernel, tid)
  {
  }

  /** Exactly these commands end a stop. */
  lemma StopEnds(s: State, c: Command, tid: int)
    requires Sane(s) && Enabled(s, c) && Step(s, c).Ok? && IsStopped(s.kernel, tid)
    ensures StopEvent(Step(s, c).state.kernel, tid) != StopEvent(s.kernel, tid) <==> Ends(s, c, tid)
  {
    match c
    case WaitForDebugEvent(_) =>
    case ContinueFromDebugEvent(t, alive) => ContinueEnds(s, t, alive, tid);
    case SuspendThread(t, wake) =>
      if t == tid {
        SuspendNeverEnds(s, tid, wake);
      } else {
        OtherStopKept(s, c, t, tid);
      }
    case ResumeThread(t) =>
      if t == tid {
        ResumeEnds(s, tid);
      } else {
        OtherStopKept(s, c, t, tid);
      }
    case PauseFor(purpose, t, wake) =>
      if t == tid {
        PauseEnds(s, purpose, tid, wake);
      } else {
        OtherStopKept(s, c, t, tid);
      }
    case AccessMemory(stop) =>
      if stop.tid == tid {
        AccessEnds(s, stop);
      } else {
        OtherStopKept(s, c, stop.tid, tid);
      }
    case ThreadStops(t, _) => OtherStopKept(s, c, t, tid);
  }

  /** Neither a continue of the thread nor a last resume that holds a SIGSTOP. */
  predicate LeavesBreakpoint(s: State, commands: seq<Command>, tid: int)
    decreases commands
  {
    commands == [] ||
    (!((commands[0].ContinueFromDebugEvent? || commands[0].ResumeThread?) && Ends(s, commands[0], tid)) &&
     (Step(s, commands[0]).Ok? ==> LeavesBreakpoint(Step(s, commands[0]).state, commands[1..], tid)))
  }

  /** Over every run: a thread that stopped for anything but SIGSTOP stays in that stop until the client continues it or
      its last resume holds a SIGSTOP. */
  lemma {:induction false} BreakpointStopKept(s: State, commands: seq<Command>, tid: int)
    requires Sane(s) && Possible(s, commands) && Run(s, commands).Ok?
    requires IsStopped(s.kernel, tid) && StopEvent(s.kernel, tid).sig != 19 && LeavesBreakpoint(s, commands, tid)
    ensures IsStopped(Run(s, commands).state.kernel, tid)
    ensures StopEvent(Run(s, commands).state.kernel, tid) == StopEvent(s.kernel, tid)
    decreases commands
  {
    if commands != [] {
      var c := commands[0];
      StepKeepsSane(s, c);
      StopEnds(s, c, tid);
      BreakpointNotEnded(s, c, tid);
      BreakpointStopKept(Step(s, c).state, commands[1..], tid);
    }
  }

  lemma BreakpointNotEnded(s: State, c: Command, tid: int)
    requires Sane(s) && Enabled(s, c) && Step(s, c).Ok?
    requires IsStopped(s.kernel, tid) && StopEvent(s.kernel, tid).sig != 19
    requires !((c.ContinueFromDebugEvent? || c.ResumeThread?) && Ends(s, c, tid))
    ensures !Ends(s, c, tid)
    ensures StopEvent(Step(s, c).state.kernel, tid) == StopEvent(s.kernel, tid) ==>
              IsStopped(Step(s, c).state.kernel, tid)
  {
    assert s.kernel[tid].sig > 0;
  }

  /** The second exception is real: a SIGSTOP event that stays current after a resume is held again by a later suspend,
      and the next resume continues the thread out of a breakpoint that nobody has seen. */
  lemma ResumeEndsBreakpoint(tid: int)
    requires tid != 0
    ensures var s := State([Thread(tid, false, 0, NO_EVENT)], [], NO_EVENT, map[tid := Running], 0);
            var first := [WaitForDebugEvent([Event(tid, 19, 0)]), SuspendThread(tid, Dequeued), ResumeThread(tid)];
            var more := [PauseFor(GetThreadContext, tid, Waited(5)), SuspendThread(tid, Dequeued), ResumeThread(tid)];
            && Attached(s) && Possible(s, first) && Run(s, first).Ok?
            && Possible(Run(s, first).state, more) && Run(Run(s, first).state, more).Ok?
            && var s' := Run(Run(s, first).state, more).state;
               Runs(s', tid) && s'.queue == [Event(tid, 5, 1)] && s'.current == Event(tid, 19, 0)
  {
    var t := Thread(tid, false, 0, NO_EVENT);
    var s := State([t], [], NO_EVENT, map[tid := Running], 0);
    var wait := WaitForDebugEvent([Event(tid, 19, 0)]);
    var suspend, resume := SuspendThread(tid, Dequeued), ResumeThread(tid);
    var pause := PauseFor(GetThreadContext, tid, Waited(5));
    var s3 := FirstHalf(tid, s);
    var s6 := SecondHalf(tid, s3);
    RunThree(s, wait, suspend, resume);
    RunThree(s3, pause, suspend, resume);
  }

  lemma RunThree(s: State, a: Command, b: Command, c: Command)
    requires Enabled(s, a) && Step(s, a).Ok?
    requires Enabled(Step(s, a).state, b) && Step(Step(s, a).state, b).Ok?
    requires var s2 := Step(Step(s, a).state, b).state; Enabled(s2, c) && Step(s2, c).Ok?
    ensures Possible(s, [a, b, c]) && Run(s, [a, b, c]) == Step(Step(Step(s, a).state, b).state, c)
  {
    var s1 := Step(s, a).state;
    var s2 := Step(s1, b).state;
    RunFirst(s, a, [b, c]);
    RunFirst(s1, b, [c]);
    RunFirst(s2, c, []);
    assert [a] + [b, c] == [a, b, c] && [b] + [c] == [b, c] && [c] + [] == [c];
  }

  lemma FirstHalf(tid: int, s: State) returns (s3: State)
    requires tid != 0 && s == State([Thread(tid, false, 0, NO_EVENT)], [], NO_EVENT, map[tid := Running], 0)
    ensures var a, b, c := WaitForDebugEvent([Event(tid, 19, 0)]), SuspendThread(tid, Dequeued), ResumeThread(tid);
            && Enabled(s, a) && Step(s, a).Ok? && Enabled(Step(s, a).state, b) && Step(Step(s, a).state, b).Ok?
            && var s2 := Step(Step(s, a).state, b).state; Enabled(s2, c) && Step(s2, c) == Ok(s3)
    ensures s3 == State([Thread(tid, false, 0, Event(tid, 19, 0))], [], Event(tid, 19, 0), map[tid := Running], 1)
  {
    var e := Event(tid, 19, 0);
    var s1 := State([Thread(tid, true, 0, NO_EVENT)], [], e, map[tid := Reaped(19, 0)], 1);
    var s2 := s1.(threads := [Thread(tid, true, 1, e)]);
    s3 := State([Thread(tid, false, 0, e)], [], e, map[tid := Running], 1);
    assert Step(s, WaitForDebugEvent([e])) == Ok(s1);
    assert Step(s1, SuspendThread(tid, Dequeued)) == Ok(s2);
    assert Step(s2, ResumeThread(tid)) == Ok(s3);
  }

  lemma SecondHalf(tid: int, s3: State) returns (s6: State)
    requires tid != 0
    requires s3 == State([Thread(tid, false, 0, Event(tid, 19, 0))], [], Event(tid, 19, 0), map[tid := Running], 1)
    ensures var a, b, c := PauseFor(GetThreadContext, tid, Waited(5)), SuspendThread(tid, Dequeued), ResumeThread(tid);
            && Enabled(s3, a) && Step(s3, a).Ok? && Enabled(Step(s3, a).state, b) && Step(Step(s3, a).state, b).Ok?
            && var s5 := Step(Step(s3, a).state, b).state; Enabled(s5, c) && Step(s5, c) == Ok(s6)
    ensures Runs(s6, tid) && s6.queue == [Event(tid, 5, 1)] && s6.current == Event(tid, 19, 0)
  {
    var e, hit := Event(tid, 19, 0), Event(tid, 5, 1);
    var s4 := State([Thread(tid, true, 0, e)], [hit], e, map[tid := Reaped(5, 1)], 2);
    var s5 := s4.(threads := [Thread(tid, true, 1, e)]);
    s6 := State([Thread(tid, false, 0, e)], [hit], e, map[tid := Running], 2);
    assert Step(s3, PauseFor(GetThreadContext, tid, Waited(5))) == Ok(s4);
    assert Step(s4, SuspendThread(tid, Dequeued)) == Ok(s5);
    assert Step(s5, ResumeThread(tid)) == Ok(s6);
  }
}
