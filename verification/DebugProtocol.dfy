/**
  The debug-event protocol of the server: the commands a client can send, as atomic steps over the thread list, the
  event queue, the current event and the traced threads as the kernel sees them.
 */
module DebugProtocol {
  import opened ThreadList

  const SIGSTOP: int := 19

  /** A traced thread in the kernel: running, stopped but not yet waited for, or stopped and waited for.  Every stop has
      a number of its own. */
  datatype Stop = Running | Pending(sig: int, stop: int) | Reaped(sig: int, stop: int)

  /** `stops` is the number the next stop will get. */
  datatype State = State(threads: seq<Thread>, queue: seq<Event>, current: Event, kernel: map<int, Stop>, stops: nat)

  /** How a wait for one thread succeeds: waitpid returned its stop, or the server was woken while an event of the
      thread was still queued and took that one. */
  datatype Wake = Waited(sig: int) | Dequeued

  /** The commands that pause a running thread for their own purposes. */
  datatype Purpose = SetBreakpoint | RemoveBreakpoint | GetThreadContext

  datatype Command =
    | WaitForDebugEvent(stops: seq<Event>)     // at most one stop, when waitpid returns one
    | ContinueFromDebugEvent(tid: int, alive: bool)
    | SuspendThread(tid: int, wake: Wake)
    | ResumeThread(tid: int)
    | PauseFor(purpose: Purpose, tid: int, wake: Wake)
    | AccessMemory(stop: Event)                // ReadProcessMemoryDebug, WriteProcessMemoryDebug
    | ThreadStops(tid: int, sig: int)          // the target

  /** A step ends in a state, or the server dereferences a null pointer. */
  datatype Outcome = Ok(state: State) | Crash

  // ---------------------------------------------------------------------------------------------
  // The kernel.

  predicate IsStopped(kernel: map<int, Stop>, tid: int) {
    tid in kernel && kernel[tid] != Running
  }

  /** The event of the stop a thread is in.  Its signal is what PTRACE_GETSIGINFO returns: -1 for a thread that is not
      stopped. */
  function StopEvent(kernel: map<int, Stop>, tid: int): Event {
    if IsStopped(kernel, tid) then Event(tid, kernel[tid].sig, kernel[tid].stop) else Event(tid, -1, -1)
  }

  /** The number of the stop that a wait for the thread will return. */
  function StopNumber(s: State, tid: int): int {
    if IsStopped(s.kernel, tid) then s.kernel[tid].stop else s.stops
  }

  /** PTRACE_CONT. */
  function Cont(kernel: map<int, Stop>, tid: int): map<int, Stop> {
    if IsStopped(kernel, tid) then kernel[tid := Running] else kernel
  }

  /** waitpid can return this stop: the thread has stopped with it, or does so now. */
  predicate CanReap(s: State, e: Event) {
    && e.sig > 0 && e.tid in s.kernel && e.stop == StopNumber(s, e.tid)
    && (s.kernel[e.tid] == Running || s.kernel[e.tid] == Pending(e.sig, e.stop))
  }

  // ---------------------------------------------------------------------------------------------
  // The queue.

  function FindEvent(queue: seq<Event>, tid: int): (i: int)
    ensures -1 <= i < |queue|
    ensures i >= 0 ==> queue[i].tid == tid
    ensures forall j | 0 <= j < (if i < 0 then |queue| else i) :: queue[j].tid != tid
  {
    FindFirst(queue, (e: Event) => e.tid, tid)
  }

  function RemoveEvent(queue: seq<Event>, tid: int): seq<Event> {
    var i := FindEvent(queue, tid);
    if i < 0 then queue else queue[..i] + queue[i + 1..]
  }

  // ---------------------------------------------------------------------------------------------
  // The commands.

  function SetPaused(threads: seq<Thread>, tid: int, paused: bool): (r: seq<Thread>)
    ensures |r| == |threads|
  {
    var i := Find(threads, tid);
    if i < 0 then threads else threads[i := threads[i].(isPaused := paused)]
  }

  /** waitpid returned a stop: the thread is marked paused. */
  function Reap(s: State, e: Event): State {
    s.(threads := SetPaused(s.threads, e.tid, true), kernel := s.kernel[e.tid := Reaped(e.sig, e.stop)],
       stops := if e.stop < s.stops then s.stops else s.stops + 1)
  }

  /** WaitForDebugEventNative for one thread. */
  function WaitFor(s: State, tid: int, wake: Wake): (State, Event) {
    match wake
    case Waited(sig) =>
      var e := Event(tid, sig, StopNumber(s, tid));
      (Reap(s, e), e)
    case Dequeued =>
      (s.(threads := SetPaused(s.threads, tid, true), queue := RemoveEvent(s.queue, tid)),
       StopEvent(s.kernel, tid))
  }

  /** After a pause of its own making: continue the thread if SIGSTOP stopped it, otherwise queue the event. */
  function Release(s: State, e: Event): State {
    if e.sig == SIGSTOP then
      s.(kernel := Cont(s.kernel, e.tid), threads := SetPaused(s.threads, e.tid, false))
    else
      s.(queue := s.queue + [e], threads := SetPaused(s.threads, e.tid, true))
  }

  function DoWait(s: State, stop: seq<Event>): State {
    if s.current.tid != 0 then s
    else if s.queue != [] then s.(current := s.queue[0], queue := s.queue[1..])
    else if stop == [] then s
    else Reap(s, stop[0]).(current := stop[0])
  }

  function DoContinue(s: State, tid: int, alive: bool): State {
    var i := Find(s.threads, tid);
    if s.current.sig < 0 then s.(current := s.current.(tid := 0, sig := 0))
    else if i < 0 then s.(current := s.current.(tid := 0))
    else if s.threads[i].suspendCount > 0 then s
    else if !IsStopped(s.kernel, tid) then s
    else if alive then
      s.(kernel := Cont(s.kernel, tid), threads := SetPaused(s.threads, tid, false), current := s.current.(tid := 0))
    else
      s.(kernel := s.kernel - {tid}, threads := Remove(s.threads, tid), current := s.current.(tid := 0))
  }

  function DoSuspend(s: State, tid: int, wake: Wake): Outcome {
    var i := Find(s.threads, tid);
    if i < 0 then Ok(s)
    else
      var t := s.threads[i];
      if t.isPaused then
        if t.suspendCount != 0 then
          Ok(s.(threads := s.threads[i := t.(suspendCount := t.suspendCount + 1)]))
        else if s.current.tid == tid then
          Ok(s.(threads := s.threads[i := t.(suspendCount := t.suspendCount + 1, suspended := s.current)]))
        else
          var k := FindEvent(s.queue, tid);
          if k < 0 then Crash
          else Ok(s.(threads := s.threads[i := t.(suspendCount := t.suspendCount + 1, suspended := s.queue[k])],
                     queue := RemoveEvent(s.queue, tid)))
      else
        var (s', e) := WaitFor(s, tid, wake);
        Ok(s'.(threads := s'.threads[i := t.(isPaused := true, suspendCount := t.suspendCount + 1, suspended := e)]))
  }

  function DoResume(s: State, tid: int): State {
    var i := Find(s.threads, tid);
    if i < 0 then s
    else
      var t := s.threads[i];
      if !t.isPaused || t.suspendCount <= 0 then s
      else
        var s' := s.(threads := s.threads[i := t.(suspendCount := t.suspendCount - 1)]);
        if t.suspendCount > 1 then s'
        else if t.suspended.sig == SIGSTOP then
          s'.(kernel := Cont(s.kernel, t.suspended.tid), threads := SetPaused(s'.threads, tid, false))
        else
          s'.(queue := s.queue + [t.suspended], threads := SetPaused(s'.threads, tid, true))
  }

  function DoPause(s: State, purpose: Purpose, tid: int, wake: Wake): Outcome {
    var i := Find(s.threads, tid);
    if i < 0 then (if purpose == RemoveBreakpoint then Crash else Ok(s))
    else if s.threads[i].isPaused then Ok(s)
    else
      var (s', e) := WaitFor(s, tid, wake);
      Ok(Release(s', e))
  }

  predicate SomePaused(threads: seq<Thread>) {
    exists i :: 0 <= i < |threads| && threads[i].isPaused
  }

  function DoAccess(s: State, stop: Event): State {
    if SomePaused(s.threads) then s else Release(Reap(s, stop), stop)
  }

  function Step(s: State, c: Command): Outcome {
    match c
    case WaitForDebugEvent(stop) => Ok(DoWait(s, stop))
    case ContinueFromDebugEvent(tid, alive) => Ok(DoContinue(s, tid, alive))
    case SuspendThread(tid, wake) => DoSuspend(s, tid, wake)
    case ResumeThread(tid) => Ok(DoResume(s, tid))
    case PauseFor(purpose, tid, wake) => DoPause(s, purpose, tid, wake)
    case AccessMemory(stop) => Ok(DoAccess(s, stop))
    case ThreadStops(tid, sig) => Ok(s.(kernel := s.kernel[tid := Pending(sig, s.stops)], stops := s.stops + 1))
  }

  /** The command waits for a running thread, and the wait can end the way the command says. */
  predicate WakeFits(s: State, tid: int, wake: Wake) {
    var i := Find(s.threads, tid);
    i >= 0 && !s.threads[i].isPaused ==>
      match wake
      case Waited(sig) => CanReap(s, Event(tid, sig, StopNumber(s, tid)))
      case Dequeued => FindEvent(s.queue, tid) >= 0
  }

  /** What the environment may do: the kernel returns real stops, and clients continue the thread whose event they were
      given. */
  predicate Enabled(s: State, c: Command) {
    match c
    case WaitForDebugEvent(stop) => |stop| <= 1 && (stop != [] ==> CanReap(s, stop[0]))
    case ContinueFromDebugEvent(tid, _) => tid == s.current.tid != 0
    case SuspendThread(tid, wake) => WakeFits(s, tid, wake)
    case ResumeThread(_) => true
    case PauseFor(_, tid, wake) => WakeFits(s, tid, wake)
    case AccessMemory(stop) => SomePaused(s.threads) || CanReap(s, stop)
    case ThreadStops(tid, sig) => sig > 0 && tid in s.kernel && s.kernel[tid] == Running
  }
}
