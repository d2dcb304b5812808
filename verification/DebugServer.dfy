/**
  The server's process record and the commands that update it in place, each proved to take the step that
  DebugProtocol gives it.  `kernel` stands for the traced threads; waits take what the kernel returns as an argument.
 */
module DebugServer {
  import opened ThreadList
  import opened DebugProtocol

  class ProcessData {
    const threads: ThreadTable
    var debugEventQueue: seq<Event>
    var debuggedThreadEvent: Event
    var kernel: map<int, Stop>
    var nextStop: nat

    ghost predicate Valid()
      reads this, threads
    {
      threads.Valid()
    }

    constructor (threads: ThreadTable, queue: seq<Event>, current: Event, kernel: map<int, Stop>, nextStop: nat)
      requires threads.Valid()
      ensures Valid() && Snapshot() == State(threads.Contents(), queue, current, kernel, nextStop)
    {
      this.threads := threads;
      debugEventQueue, debuggedThreadEvent := queue, current;
      this.kernel, this.nextStop := kernel, nextStop;
    }

    ghost function Snapshot(): State
      requires Valid()
      reads this, threads, threads.threadlist
    {
      State(threads.Contents(), debugEventQueue, debuggedThreadEvent, kernel, nextStop)
    }

    method FindPausedThread() returns (tid: int)
      requires Valid()
      ensures var list := threads.Contents();
              && (SomePaused(list) <==> exists i :: 0 <= i < |list| && list[i].isPaused && list[i].tid == tid)
              && (!SomePaused(list) ==> tid == 0)
    {
      var i := 0;
      while i < threads.threadlistpos
        invariant 0 <= i <= threads.threadlistpos
        invariant forall j | 0 <= j < i :: !threads.Contents()[j].isPaused
      {
        if threads.threadlist[i].isPaused {
          assert threads.Contents()[i].isPaused;
          return threads.threadlist[i].tid;
        }
        i := i + 1;
      }
      return 0;
    }

    method FindThreadDebugEventInQueue(tid: int) returns (index: int)
      ensures index == FindEvent(debugEventQueue, tid)
    {
      index := 0;
      while index < |debugEventQueue|
        invariant 0 <= index <= |debugEventQueue|
        invariant forall j | 0 <= j < index :: debugEventQueue[j].tid != tid
      {
        if debugEventQueue[index].tid == tid {
          return;
        }
        index := index + 1;
      }
      index := -1;
    }

    method RemoveThreadDebugEventFromQueue(tid: int) returns (found: bool)
      modifies this`debugEventQueue
      ensures debugEventQueue == RemoveEvent(old(debugEventQueue), tid)
      ensures found == (FindEvent(old(debugEventQueue), tid) >= 0)
    {
      var i := FindThreadDebugEventInQueue(tid);
      found := i >= 0;
      if found {
        debugEventQueue := debugEventQueue[..i] + debugEventQueue[i + 1..];
      }
    }

    method AddDebugEventToQueue(e: Event)
      modifies this`debugEventQueue
      ensures debugEventQueue == old(debugEventQueue) + [e]
    {
      debugEventQueue := debugEventQueue + [e];
    }

    method MarkPaused(tid: int, paused: bool)
      requires Valid()
      modifies threads.threadlist
      ensures threads.Contents() == SetPaused(old(threads.Contents()), tid, paused)
    {
      var td := threads.GetThreadData(tid);
      if td >= 0 {
        threads.Update(td, threads.threadlist[td].(isPaused := paused));
      }
    }

    /** PTRACE_CONT. */
    method PtraceCont(tid: int)
      modifies this`kernel
      ensures kernel == Cont(old(kernel), tid)
    {
      if tid in kernel && kernel[tid] != Running {
        kernel := kernel[tid := Running];
      }
    }

    /** WaitForDebugEventNative when waitpid returns `e`. */
    method WaitNative(e: Event)
      requires Valid()
      modifies this`kernel, this`nextStop, threads.threadlist
      ensures Valid() && Snapshot() == Reap(old(Snapshot()), e)
    {
      kernel := kernel[e.tid := Reaped(e.sig, e.stop)];
      nextStop := if e.stop < nextStop then nextStop else nextStop + 1;
      MarkPaused(e.tid, true);
    }

    /** WaitForDebugEventNative for one thread. */
    method WaitForThread(tid: int, wake: Wake) returns (devent: Event)
      requires Valid()
      modifies this, threads.threadlist
      ensures Valid() && (Snapshot(), devent) == WaitFor(old(Snapshot()), tid, wake)
    {
      match wake {
        case Waited(sig) =>
          devent := Event(tid, sig, if IsStopped(kernel, tid) then kernel[tid].stop else nextStop);
          WaitNative(devent);
        case Dequeued =>
          var r := RemoveThreadDebugEventFromQueue(tid);
          devent := StopEvent(kernel, tid);
          MarkPaused(tid, true);
      }
    }

    method ReleaseThread(e: Event)
      requires Valid()
      modifies this, threads.threadlist
      ensures Valid() && Snapshot() == Release(old(Snapshot()), e)
    {
      if e.sig != SIGSTOP {
        AddDebugEventToQueue(e);
        MarkPaused(e.tid, true);
      } else {
        PtraceCont(e.tid);
        MarkPaused(e.tid, false);
      }
    }

    method WaitForDebugEvent(stops: seq<Event>) returns (r: bool, devent: Event)
      requires Valid()
      modifies this, threads.threadlist
      ensures Valid() && Snapshot() == DoWait(old(Snapshot()), stops)
      ensures r ==> devent == debuggedThreadEvent
      ensures r <==> old(debuggedThreadEvent.tid) != 0 || old(debugEventQueue) != [] || stops != []
    {
      if debuggedThreadEvent.tid == 0 {
        if debugEventQueue != [] {
          devent := debugEventQueue[0];
          debugEventQueue := debugEventQueue[1..];
          r := true;
        } else if stops != [] {
          devent := stops[0];
          WaitNative(devent);
          r := true;
        } else {
          return false, debuggedThreadEvent;
        }
        debuggedThreadEvent := devent;
      } else {
        return true, debuggedThreadEvent;
      }
    }

    method ContinueFromDebugEvent(tid: int, alive: bool) returns (r: bool)
      requires Valid()
      modifies this, threads, threads.threadlist
      ensures Valid() && Snapshot() == DoContinue(old(Snapshot()), tid, alive)
      ensures var i := Find(old(threads.Contents()), tid);
              r <==> || old(debuggedThreadEvent.sig) < 0
                     || (i >= 0 && old(threads.Contents())[i].suspendCount > 0)
                     || (i >= 0 && IsStopped(old(kernel), tid) && alive)
    {
      var td := threads.GetThreadData(tid);
      if debuggedThreadEvent.sig < 0 {
        debuggedThreadEvent := debuggedThreadEvent.(tid := 0, sig := 0);
        return true;
      }
      if td < 0 {
        debuggedThreadEvent := debuggedThreadEvent.(tid := 0);
        return false;
      }
      if threads.threadlist[td].suspendCount > 0 {
        return true;
      }
      if !IsStopped(kernel, tid) {
        return false;
      }
      if alive {
        PtraceCont(tid);
        MarkPaused(tid, false);
      } else {
        kernel := kernel - {tid};
        var _ := threads.RemoveThreadFromProcess(tid);
      }
      debuggedThreadEvent := debuggedThreadEvent.(tid := 0);
      return alive;
    }

    /** The event of a paused thread: the current one is copied, a queued one is taken out. */
    method TakeEvent(tid: int) returns (found: bool, e: Event)
      modifies this`debugEventQueue
      ensures var k := FindEvent(old(debugEventQueue), tid);
              if debuggedThreadEvent.tid == tid then
                found && e == debuggedThreadEvent && debugEventQueue == old(debugEventQueue)
              else
                && found == (k >= 0)
                && debugEventQueue == RemoveEvent(old(debugEventQueue), tid)
                && (found ==> e == old(debugEventQueue)[k])
    {
      if debuggedThreadEvent.tid == tid {
        return true, debuggedThreadEvent;
      }
      var k := FindThreadDebugEventInQueue(tid);
      if k < 0 {
        return false, debuggedThreadEvent;
      }
      e := debugEventQueue[k];
      found := RemoveThreadDebugEventFromQueue(tid);
    }

    /** `crashed` stands for the null pointer that FindThreadDebugEventInQueue may return being dereferenced. */
    method SuspendThread(tid: int, wake: Wake) returns (count: int, crashed: bool)
      requires Valid()
      modifies this, threads.threadlist
      ensures Valid() && (DoSuspend(old(Snapshot()), tid, wake) == if crashed then Crash else Ok(Snapshot()))
      ensures !crashed ==>
                var i := Find(old(threads.Contents()), tid);
                count == if i < 0 then -1 else old(threads.Contents())[i].suspendCount + 1
    {
      var t := threads.GetThreadData(tid);
      if t < 0 {
        return -1, false;
      }
      if threads.threadlist[t].isPaused {
        count, crashed := SuspendPaused(t, tid, wake);
      } else {
        count := SuspendRunning(t, tid, wake);
        crashed := false;
      }
    }

    method SuspendPaused(t: nat, tid: int, ghost wake: Wake) returns (count: int, crashed: bool)
      requires Valid() && t == Find(threads.Contents(), tid) && threads.Contents()[t].isPaused
      modifies this`debugEventQueue, threads.threadlist
      ensures Valid() && (DoSuspend(old(Snapshot()), tid, wake) == if crashed then Crash else Ok(Snapshot()))
      ensures !crashed ==> count == old(threads.Contents())[t].suspendCount + 1
    {
      var td := threads.threadlist[t];
      count := td.suspendCount + 1;
      if td.suspendCount == 0 {
        var found, e := TakeEvent(tid);
        if !found {
          return 0, true;
        }
        td := td.(suspended := e);
      }
      threads.Update(t, td.(suspendCount := count));
      crashed := false;
    }

    method SuspendRunning(t: nat, tid: int, wake: Wake) returns (count: int)
      requires Valid() && t == Find(threads.Contents(), tid) && !threads.Contents()[t].isPaused
      modifies this, threads.threadlist
      ensures Valid() && DoSuspend(old(Snapshot()), tid, wake) == Ok(Snapshot())
      ensures count == old(threads.Contents())[t].suspendCount + 1
    {
      var td := threads.threadlist[t];
      var e := WaitForThread(tid, wake);
      count := td.suspendCount + 1;
      threads.Update(t, td.(isPaused := true, suspendCount := count, suspended := e));
    }

    /** The returned count is meaningless (uninitialised in the source) for a thread that is not suspended. */
    method ResumeThread(tid: int) returns (count: int)
      requires Valid()
      modifies this, threads.threadlist
      ensures Valid() && Snapshot() == DoResume(old(Snapshot()), tid)
      ensures var i := Find(old(threads.Contents()), tid);
              && (i < 0 ==> count == -1)
              && (i >= 0 && old(threads.Contents())[i].isPaused && old(threads.Contents())[i].suspendCount > 0 ==>
                    count == old(threads.Contents())[i].suspendCount - 1)
    {
      var t := threads.GetThreadData(tid);
      if t < 0 {
        return -1;
      }
      count := 0;
      var td := threads.threadlist[t];
      if td.isPaused && td.suspendCount > 0 {
        count := td.suspendCount - 1;
        threads.Update(t, td.(suspendCount := count));
        if td.suspendCount == 1 {
          if td.suspended.sig == SIGSTOP {
            PtraceCont(td.suspended.tid);
            MarkPaused(tid, false);
          } else {
            MarkPaused(tid, true);
            AddDebugEventToQueue(td.suspended);
          }
        }
      }
    }

    /** The pausing frame of SetBreakpoint, RemoveBreakpoint and GetThreadContext. */
    method PauseFor(purpose: Purpose, tid: int, wake: Wake) returns (crashed: bool)
      requires Valid()
      modifies this, threads.threadlist
      ensures Valid() && (DoPause(old(Snapshot()), purpose, tid, wake) == if crashed then Crash else Ok(Snapshot()))
    {
      var td := threads.GetThreadData(tid);
      if td < 0 {
        return purpose == RemoveBreakpoint;
      }
      if !threads.threadlist[td].isPaused {
        var de := WaitForThread(tid, wake);
        ReleaseThread(de);
      }
      return false;
    }

    /** The pausing frame of ReadProcessMemoryDebug and WriteProcessMemoryDebug. */
    method AccessMemory(stop: Event)
      requires Valid() && forall i | 0 <= i < threads.threadlistpos :: threads.Contents()[i].tid != 0
      modifies this, threads.threadlist
      ensures Valid() && Snapshot() == DoAccess(old(Snapshot()), stop)
    {
      var isdebugged := FindPausedThread();
      if isdebugged == 0 {
        WaitNative(stop);
        ReleaseThread(stop);
      }
    }
  }
}
