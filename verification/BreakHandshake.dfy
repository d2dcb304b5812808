/**
  The handshake between the threads that hit a kernel breakpoint and the one debugger that handles them, over three
  auto-reset events. Every wait, every store and every event signal is a step of its own, in any interleaving.
 */
module BreakHandshake {
  import opened Wrappers

  /** One hit: the thread, its interrupt frame, its debug registers, its branch records and its FPU state. */
  datatype Break = Break(thread: nat, frame: int, debugRegs: int, lbr: int, fx: int)

  /** breakpointHandler_kernel, statement by statement. */
  datatype Pc =
    | Running
    | WaitTurn(b: Break)                 // wait for CanBreak
    | StoreStack(b: Break)               // LastStackPointer = stackpointer
    | StoreDebugRegs(b: Break)           // LastRealDebugRegisters
    | StoreLbr(b: Break)                 // LastLBRStack
    | StoreThread(b: Break)              // LastThreadID
    | SaveFx(b: Break)                   // fxsave
    | Notify(b: Break)                   // set WaitForDebugEvent
    | WaitContinue(b: Break)             // wait for WaitForContinue
    | ReadHandled(b: Break)              // handled = handledlastevent
    | ClearStack(b: Break, h: bool)      // LastStackPointer = NULL
    | LetNext(b: Break, h: bool)         // set CanBreak, return handled

  datatype DebuggerPc =
    | Waiting                            // debugger_waitForDebugEvent
    | Handling                           // it returned success
    | Continuing                         // handledlastevent stored, event not yet set

  /** What the debugger can see when its wait returns. */
  datatype Report = NoFrame | Report(stackOf: nat, thread: nat, frame: int, debugRegs: int, lbr: int, fx: int)

  /** The debugger's answer: the handled flag, and the frame as the debugger left it. */
  datatype Answer = Answer(handled: bool, frame: int)

  datatype Return = Return(b: Break, handled: bool, frame: int)

  datatype Events = Events(canBreak: bool, debugEvent: bool, continueEvent: bool)

  /** The part of DebuggerState that the handler and the debugger share. */
  datatype Shared = Shared(lastStack: Option<nat>, lastDebugRegs: int, lastLbr: int, lastThread: nat, fxstate: int,
                           handledLast: bool)

  /** Per thread the hits it made; the hits that got their turn; what was reported, answered and returned for them. */
  datatype Log = Log(started: seq<seq<Break>>, entered: seq<Break>, reported: seq<Report>, answers: seq<Answer>,
                     returned: seq<Return>)

  /** `frames[i]` is the interrupt frame on the stack of thread i. */
  datatype State = State(ev: Events, saved: Shared, frames: seq<int>, pcs: seq<Pc>, debugger: DebuggerPc, log: Log)

  datatype Action =
    | Begin(b: Break)                    // a running thread hits a breakpoint
    | Advance(i: nat)                    // a thread inside the handler takes one step
    | Wait                               // the debugger's wait
    | Edit(frame: int)                   // debugger_setDebuggerState
    | Continue(handled: bool)            // debugger_continueDebugEvent, the store
    | Signal                             // debugger_continueDebugEvent, KeSetEvent

  predicate WellFormed(s: State) {
    |s.frames| == |s.pcs| == |s.log.started|
  }

  function Initial(n: nat): State {
    State(Events(true, false, false), Shared(None, 0, 0, 0, 0, false), seq(n, _ => 0), seq(n, _ => Running), Waiting,
          Log(seq(n, _ => []), [], [], [], []))
  }

  function Goto(s: State, i: nat, pc: Pc): State
    requires i < |s.pcs|
  {
    s.(pcs := s.pcs[i := pc])
  }

  function Snapshot(s: State): Report {
    if s.saved.lastStack.Some? && s.saved.lastStack.value < |s.frames|
    then Report(s.saved.lastStack.value, s.saved.lastThread, s.frames[s.saved.lastStack.value],
                s.saved.lastDebugRegs, s.saved.lastLbr, s.saved.fxstate)
    else NoFrame
  }

  /** One step of thread i inside the handler; a wait on an event that is not set leaves the state alone. */
  function ThreadStep(s: State, i: nat): (s': State)
    requires WellFormed(s) && i < |s.pcs|
    ensures WellFormed(s') && |s'.pcs| == |s.pcs|
  {
    match s.pcs[i]
    case Running => s
    case WaitTurn(b) =>
      if s.ev.canBreak then
        Goto(s.(ev := s.ev.(canBreak := false), log := s.log.(entered := s.log.entered + [b])), i, StoreStack(b))
      else s
    case StoreStack(b) => Goto(s.(saved := s.saved.(lastStack := Some(i))), i, StoreDebugRegs(b))
    case StoreDebugRegs(b) => Goto(s.(saved := s.saved.(lastDebugRegs := b.debugRegs)), i, StoreLbr(b))
    case StoreLbr(b) => Goto(s.(saved := s.saved.(lastLbr := b.lbr)), i, StoreThread(b))
    case StoreThread(b) => Goto(s.(saved := s.saved.(lastThread := i)), i, SaveFx(b))
    case SaveFx(b) => Goto(s.(saved := s.saved.(fxstate := b.fx)), i, Notify(b))
    case Notify(b) => Goto(s.(ev := s.ev.(debugEvent := true)), i, WaitContinue(b))
    case WaitContinue(b) =>
      if s.ev.continueEvent then Goto(s.(ev := s.ev.(continueEvent := false)), i, ReadHandled(b)) else s
    case ReadHandled(b) => Goto(s, i, ClearStack(b, s.saved.handledLast))
    case ClearStack(b, h) => Goto(s.(saved := s.saved.(lastStack := None)), i, LetNext(b, h))
    case LetNext(b, h) =>
      var log := s.log.(returned := s.log.returned + [Return(b, h, s.frames[i])]);
      Goto(s.(ev := s.ev.(canBreak := true), log := log), i, Running)
  }

  /** An action that is not possible in a state leaves it alone. */
  function Step(s: State, a: Action): (s': State)
    requires WellFormed(s)
    ensures WellFormed(s') && |s'.pcs| == |s.pcs|
  {
    match a
    case Begin(b) =>
      if b.thread < |s.pcs| && s.pcs[b.thread] == Running
      then
        var log := s.log.(started := s.log.started[b.thread := s.log.started[b.thread] + [b]]);
        Goto(s.(frames := s.frames[b.thread := b.frame], log := log), b.thread, WaitTurn(b))
      else s
    case Advance(i) => if i < |s.pcs| then ThreadStep(s, i) else s
    case Wait =>
      if s.debugger == Waiting && s.ev.debugEvent
      then s.(ev := s.ev.(debugEvent := false), debugger := Handling,
              log := s.log.(reported := s.log.reported + [Snapshot(s)]))
      else s
    case Edit(frame) =>
      if s.debugger == Handling && s.saved.lastStack.Some? && s.saved.lastStack.value < |s.frames|
      then s.(frames := s.frames[s.saved.lastStack.value := frame])
      else s
    case Continue(handled) =>
      if s.debugger == Handling
      then
        var left := Answer(handled, if Snapshot(s).Report? then Snapshot(s).frame else 0);
        s.(saved := s.saved.(handledLast := handled), debugger := Continuing,
           log := s.log.(answers := s.log.answers + [left]))
      else s
    case Signal =>
      if s.debugger == Continuing then s.(ev := s.ev.(continueEvent := true), debugger := Waiting) else s
  }

  function Run(s: State, actions: seq<Action>): (s': State)
    requires WellFormed(s)
    ensures WellFormed(s') && |s'.pcs| == |s.pcs|
  {
    if actions == [] then s else Step(Run(s, actions[..|actions| - 1]), actions[|actions| - 1])
  }

  predicate InSection(pc: Pc) {
    !pc.Running? && !pc.WaitTurn?
  }

  /** The hits of thread i in a log. */
  function Of(log: seq<Break>, i: nat): seq<Break> {
    if log == [] then []
    else Of(log[..|log| - 1], i) + (if log[|log| - 1].thread == i then [log[|log| - 1]] else [])
  }

  /** The hit a thread still waits to have its turn for. */
  function Queued(pc: Pc): seq<Break> {
    if pc.WaitTurn? then [pc.b] else []
  }

  function ReportOf(b: Break): Report {
    Report(b.thread, b.thread, b.frame, b.debugRegs, b.lbr, b.fx)
  }

  /** The histories agree as far as they go: hit k was reported as it was, and returned what the debugger answered. */
  ghost predicate Matching(s: State) {
    && |s.log.returned| <= |s.log.answers| <= |s.log.reported| <= |s.log.entered| <= |s.log.returned| + 1
    && (forall k | 0 <= k < |s.log.reported| :: s.log.reported[k] == ReportOf(s.log.entered[k]))
    && (forall k | 0 <= k < |s.log.returned| ::
          s.log.returned[k] == Return(s.log.entered[k], s.log.answers[k].handled, s.log.answers[k].frame))
  }

  /** Nothing is on its way between the debugger and a thread. */
  predicate Silent(s: State) {
    !s.ev.debugEvent && !s.ev.continueEvent && s.debugger == Waiting
  }

  /** How far the saved state has got while thread i with hit b executes the stores. */
  predicate Saved(s: State, i: nat, b: Break, stores: nat) {
    && (stores >= 1 ==> s.saved.lastStack == Some(i))
    && (stores >= 2 ==> s.saved.lastDebugRegs == b.debugRegs)
    && (stores >= 3 ==> s.saved.lastLbr == b.lbr)
    && (stores >= 4 ==> s.saved.lastThread == i)
    && (stores >= 5 ==> s.saved.fxstate == b.fx)
  }

  /** Thread i is the one in the section: what that means for everything else. */
  ghost predicate Section(s: State, i: nat)
    requires WellFormed(s)
  {
    && i < |s.pcs|
    && InSection(s.pcs[i])
    && !s.ev.canBreak
    && var b := s.pcs[i].b;
    && var n := |s.log.returned|;
    && b.thread == i
    && |s.log.entered| == n + 1 && s.log.entered[n] == b
    && match s.pcs[i]
       case StoreStack(_) => Before(s, i, b, 0)
       case StoreDebugRegs(_) => Before(s, i, b, 1)
       case StoreLbr(_) => Before(s, i, b, 2)
       case StoreThread(_) => Before(s, i, b, 3)
       case SaveFx(_) => Before(s, i, b, 4)
       case Notify(_) => Before(s, i, b, 5)
       case WaitContinue(_) => Blocked(s, i, b)
       case ReadHandled(_) => After(s, i) && s.log.answers[n].handled == s.saved.handledLast
       case ClearStack(_, h) => After(s, i) && s.log.answers[n].handled == h
       case LetNext(_, h) => After(s, i) && s.log.answers[n].handled == h
       case Running => false
       case WaitTurn(_) => false
  }

  ghost predicate Before(s: State, i: nat, b: Break, stores: nat)
    requires i < |s.frames|
  {
    && Silent(s) && Saved(s, i, b, stores) && s.frames[i] == b.frame
    && |s.log.reported| == |s.log.answers| == |s.log.returned|
  }

  ghost predicate Blocked(s: State, i: nat, b: Break)
    requires i < |s.frames|
  {
    && Saved(s, i, b, 5)
    && var n := |s.log.returned|;
    && match s.debugger
       case Waiting =>
         if s.ev.debugEvent then
           !s.ev.continueEvent && s.frames[i] == b.frame && |s.log.reported| == |s.log.answers| == n
         else
           && s.ev.continueEvent && |s.log.answers| == n + 1 == |s.log.reported|
           && s.log.answers[n] == Answer(s.saved.handledLast, s.frames[i])
       case Handling => !s.ev.debugEvent && !s.ev.continueEvent && |s.log.reported| == n + 1 && |s.log.answers| == n
       case Continuing =>
         && !s.ev.debugEvent && !s.ev.continueEvent && |s.log.reported| == |s.log.answers| == n + 1
         && s.log.answers[n] == Answer(s.saved.handledLast, s.frames[i])
  }

  ghost predicate After(s: State, i: nat)
    requires i < |s.frames|
  {
    && Silent(s)
    && |s.log.answers| == |s.log.reported| == |s.log.returned| + 1
    && s.log.answers[|s.log.returned|].frame == s.frames[i]
  }

  ghost predicate Outside(s: State, i: nat)
    requires WellFormed(s) && i < |s.pcs|
  {
    && !InSection(s.pcs[i])
    && (s.pcs[i].WaitTurn? ==> s.pcs[i].b.thread == i && s.frames[i] == s.pcs[i].b.frame)
  }

  /** The invariant; `o` is the thread in the section, or minus one. */
  ghost predicate Inv(s: State, o: int) {
    && WellFormed(s)
    && Matching(s)
    && (forall i | 0 <= i < |s.pcs| && i != o :: Outside(s, i))
    && (forall i | 0 <= i < |s.pcs| :: s.log.started[i] == Of(s.log.entered, i) + Queued(s.pcs[i]))
    && (if o >= 0 then Section(s, o) else s.ev.canBreak && Silent(s) && |s.log.entered| == |s.log.returned|)
  }

  lemma OfExtended(log: seq<Break>, b: Break, i: nat)
    ensures Of(log + [b], i) == Of(log, i) + if b.thread == i then [b] else []
  {
    assert (log + [b])[..|log|] == log;
  }

  lemma BeginKeepsInv(s: State, o: int, b: Break)
    requires Inv(s, o)
    ensures Inv(Step(s, Begin(b)), o)
  {
    var s' := Step(s, Begin(b));
    if s' != s {
      assert b.thread != o;
      forall i | 0 <= i < |s.pcs| && i != o ensures Outside(s', i) {
        assert Outside(s, i);
      }
    }
  }

  /** A thread takes a free turn. */
  lemma TurnKeepsInv(s: State, o: int, i: nat)
    requires Inv(s, o) && i < |s.pcs| && i != o && s.pcs[i].WaitTurn? && s.ev.canBreak
    ensures Inv(Step(s, Advance(i)), i)
  {
    var b := s.pcs[i].b;
    var s' := ThreadStep(s, i);
    assert o < 0;
    assert Outside(s, i);
    TurnSection(s, i);
    forall j | 0 <= j < |s.pcs|
      ensures s'.log.started[j] == Of(s'.log.entered, j) + Queued(s'.pcs[j])
      ensures j != i ==> Outside(s', j)
    {
      OfExtended(s.log.entered, b, j);
      assert Outside(s, j);
    }
  }

  lemma TurnSection(s: State, i: nat)
    requires WellFormed(s) && i < |s.pcs| && Outside(s, i) && Matching(s)
    requires s.pcs[i].WaitTurn? && s.ev.canBreak && Silent(s) && |s.log.entered| == |s.log.returned|
    ensures Section(ThreadStep(s, i), i) && Matching(ThreadStep(s, i))
  {
  }

  lemma OutsiderStays(s: State, o: int, i: nat)
    requires Inv(s, o) && i < |s.pcs| && i != o && !(s.pcs[i].WaitTurn? && s.ev.canBreak)
    ensures Step(s, Advance(i)) == s
  {
    assert Outside(s, i);
  }

  predicate SameElsewhere(s: State, s': State, o: nat) {
    && WellFormed(s) && WellFormed(s')
    && |s'.pcs| == |s.pcs| && s'.log.entered == s.log.entered && s'.log.started == s.log.started
    && (forall i | 0 <= i < |s.pcs| && i != o :: s'.pcs[i] == s.pcs[i] && s'.frames[i] == s.frames[i])
  }

  lemma OthersKept(s: State, s': State, o: nat, o': int)
    requires Inv(s, o) && SameElsewhere(s, s', o)
    requires InSection(s'.pcs[o]) || s'.pcs[o].Running?
    requires o' == o || (o' == -1 && s'.pcs[o].Running?)
    ensures forall i | 0 <= i < |s'.pcs| && i != o' :: Outside(s', i)
    ensures forall i | 0 <= i < |s'.pcs| :: s'.log.started[i] == Of(s'.log.entered, i) + Queued(s'.pcs[i])
  {
    forall i | 0 <= i < |s.pcs|
      ensures i != o' ==> Outside(s', i)
      ensures s'.log.started[i] == Of(s'.log.entered, i) + Queued(s'.pcs[i])
    {
      if i != o {
        assert Outside(s, i);
      }
    }
  }

  lemma OwnerSection(s: State, o: nat)
    requires WellFormed(s) && Section(s, o)
    ensures var s' := ThreadStep(s, o);
            if s.pcs[o].LetNext? then s'.ev.canBreak && Silent(s') && |s'.log.entered| == |s'.log.returned|
            else Section(s', o)
    ensures SameElsewhere(s, ThreadStep(s, o), o)
  {
  }

  lemma OwnerMatching(s: State, o: nat)
    requires WellFormed(s) && Section(s, o) && Matching(s)
    ensures Matching(ThreadStep(s, o))
  {
  }

  lemma OwnerKeepsInv(s: State, o: nat)
    requires Inv(s, o)
    ensures Inv(Step(s, Advance(o)), if s.pcs[o].LetNext? then -1 else o)
  {
    OwnerSection(s, o);
    OwnerMatching(s, o);
    OthersKept(s, ThreadStep(s, o), o, if s.pcs[o].LetNext? then -1 else o);
  }

  /** The debugger, which acts only on a reported event, deals with the thread that is blocked in the section. */
  lemma DebuggerKeepsInv(s: State, o: int, a: Action)
    requires Inv(s, o) && (a.Wait? || a.Edit? || a.Continue? || a.Signal?)
    ensures Inv(Step(s, a), o)
    ensures Step(s, a) != s ==> o >= 0 && s.pcs[o].WaitContinue?
  {
    var s' := Step(s, a);
    if s' != s {
      assert o >= 0 && s.pcs[o].WaitContinue? && Blocked(s, o, s.pcs[o].b);
      OthersKept(s, s', o, o);
    }
  }

  lemma StepKeepsInv(s: State, o: int, a: Action) returns (o': int)
    requires Inv(s, o)
    ensures Inv(Step(s, a), o')
  {
    o' := o;
    match a
    case Begin(b) => BeginKeepsInv(s, o, b);
    case Advance(i) =>
      if i == o {
        OwnerKeepsInv(s, i);
        o' := if s.pcs[i].LetNext? then -1 else o;
      } else if i < |s.pcs| {
        if s.pcs[i].WaitTurn? && s.ev.canBreak {
          TurnKeepsInv(s, o, i);
          o' := i;
        } else {
          OutsiderStays(s, o, i);
        }
      }
    case Wait => DebuggerKeepsInv(s, o, a);
    case Edit(_) => DebuggerKeepsInv(s, o, a);
    case Continue(_) => DebuggerKeepsInv(s, o, a);
    case Signal => DebuggerKeepsInv(s, o, a);
  }

  lemma {:induction false} RunKeepsInv(n: nat, actions: seq<Action>) returns (o: int)
    ensures Inv(Run(Initial(n), actions), o)
    decreases |actions|
  {
    if actions == [] {
      o := -1;
    } else {
      var k := |actions| - 1;
      o := RunKeepsInv(n, actions[..k]);
      o := StepKeepsInv(Run(Initial(n), actions[..k]), o, actions[k]);
    }
  }

  /** In every run of any number of threads: at most one thread is in the break section. */
  lemma OneInSection(n: nat, actions: seq<Action>)
    ensures var s := Run(Initial(n), actions);
            forall i, j | 0 <= i < j < n :: !(InSection(s.pcs[i]) && InSection(s.pcs[j]))
  {
    var o := RunKeepsInv(n, actions);
    var s := Run(Initial(n), actions);
    forall i | 0 <= i < n && i != o ensures !InSection(s.pcs[i]) {
      assert Outside(s, i);
    }
  }

  /** The saved state is complete and belongs to a thread that is blocked on the continue event. */
  ghost predicate SavedForBlocked(s: State) {
    && var t := s.saved.lastThread;
    && t < |s.pcs| && s.saved.lastStack == Some(t) && s.pcs[t].WaitContinue?
    && var b := s.pcs[t].b;
    && b.thread == t && b.debugRegs == s.saved.lastDebugRegs && b.lbr == s.saved.lastLbr && b.fx == s.saved.fxstate
    && s.log.reported != [] && s.log.reported[|s.log.reported| - 1] == ReportOf(b)
  }

  lemma HandlingIsBlocked(s: State, o: int)
    requires Inv(s, o) && s.debugger != Waiting
    ensures SavedForBlocked(s)
  {
    assert o >= 0 && s.pcs[o].WaitContinue? && Blocked(s, o, s.pcs[o].b);
  }

  /** From the moment a wait reports an event until the continue is signalled, the saved stack pointer, registers,
      branch records, FPU state and thread id are all those of one thread, and that thread is blocked on the
      continue. */
  lemma SavedStateBelongsToBlocked(n: nat, actions: seq<Action>)
    ensures Run(Initial(n), actions).debugger != Waiting ==> SavedForBlocked(Run(Initial(n), actions))
  {
    var o := RunKeepsInv(n, actions);
    if Run(Initial(n), actions).debugger != Waiting {
      HandlingIsBlocked(Run(Initial(n), actions), o);
    }
  }

  /** Every hit that got its turn is reported once, in order and as it was, and returns exactly the answer and the frame
      the debugger gave for it; at most the latest hit is still under way. */
  lemma EachBreakHandledOnce(n: nat, actions: seq<Action>)
    ensures var s := Run(Initial(n), actions); Matching(s)
    ensures var s := Run(Initial(n), actions);
            forall i | 0 <= i < n :: s.log.started[i] == Of(s.log.entered, i) + Queued(s.pcs[i])
    ensures var s := Run(Initial(n), actions);
            (forall i | 0 <= i < n :: s.pcs[i].Running?) ==>
              |s.log.entered| == |s.log.reported| == |s.log.answers| == |s.log.returned|
  {
    var o := RunKeepsInv(n, actions);
  }

  // ----- what the handshake achieves -----

  /** What the debugger writes into the frame goes to the thread that is blocked, and nowhere else. */
  lemma EditReaches(n: nat, actions: seq<Action>, frame: int)
    requires Run(Initial(n), actions).debugger == Handling
    ensures var s := Run(Initial(n), actions);
            s.saved.lastThread < n && Step(s, Edit(frame)) == s.(frames := s.frames[s.saved.lastThread := frame])
  {
    SavedStateBelongsToBlocked(n, actions);
  }

  function Advances(s: State, i: nat, n: nat): (s': State)
    requires WellFormed(s)
    ensures WellFormed(s') && |s'.pcs| == |s.pcs|
    decreases n
  {
    if n == 0 then s else Advances(Step(s, Advance(i)), i, n - 1)
  }

  /** Nobody is in the section and nothing is on its way. */
  predicate Quiet(s: State) {
    s.ev == Events(true, false, false) && s.debugger == Waiting
  }

  /** Between hits the handshake is quiet. */
  lemma QuietBetweenHits(n: nat, actions: seq<Action>)
    ensures var s := Run(Initial(n), actions);
            (forall i | 0 <= i < n :: !InSection(s.pcs[i])) ==> Quiet(s)
  {
    var o := RunKeepsInv(n, actions);
  }

  /** The thread has stored everything and waits to be continued; the debugger has not noticed yet. */
  predicate Announced(s: State, b: Break) {
    && WellFormed(s) && b.thread < |s.pcs|
    && s.pcs[b.thread] == WaitContinue(b) && s.ev == Events(false, true, false) && s.debugger == Waiting
    && s.saved.lastStack == Some(b.thread) && s.saved.lastThread == b.thread
    && s.saved.lastDebugRegs == b.debugRegs && s.saved.lastLbr == b.lbr && s.saved.fxstate == b.fx
    && s.frames[b.thread] == b.frame
  }

  lemma HitAnnounced(s: State, b: Break)
    requires WellFormed(s) && Quiet(s) && b.thread < |s.pcs| && s.pcs[b.thread] == Running
    ensures var s' := Advances(Step(s, Begin(b)), b.thread, 7);
            Announced(s', b) && s'.log.returned == s.log.returned && s'.log.reported == s.log.reported
  {
    var i := b.thread;
    var s0 := Step(s, Begin(b));
    assert s0.pcs[i] == WaitTurn(b);
    var s1 := TakesTurn(s0, b, 6);
    var s3 := StoresFirst(s1, b, 4);
    var s5 := StoresNext(s3, b, 2);
    StoresLast(s5, b);
  }

  /** Inside the section, with so many of the five stores done and nothing signalled. */
  predicate Storing(s: State, b: Break, pc: Pc, stores: nat) {
    && WellFormed(s) && b.thread < |s.pcs| && s.pcs[b.thread] == pc
    && s.ev == Events(false, false, false) && s.debugger == Waiting && Saved(s, b.thread, b, stores)
    && s.frames[b.thread] == b.frame
  }

  predicate SameLog(s: State, s': State) {
    s'.log.returned == s.log.returned && s'.log.reported == s.log.reported
  }

  lemma TakesTurn(s: State, b: Break, n: nat) returns (s': State)
    requires WellFormed(s) && Quiet(s) && b.thread < |s.pcs| && s.pcs[b.thread] == WaitTurn(b)
    requires s.frames[b.thread] == b.frame
    ensures WellFormed(s') && Advances(s, b.thread, n + 1) == Advances(s', b.thread, n)
    ensures Storing(s', b, StoreStack(b), 0) && SameLog(s, s')
  {
    s' := ThreadStep(s, b.thread);
  }

  lemma StoresFirst(s: State, b: Break, n: nat) returns (s': State)
    requires Storing(s, b, StoreStack(b), 0)
    ensures WellFormed(s') && Advances(s, b.thread, n + 2) == Advances(s', b.thread, n)
    ensures Storing(s', b, StoreLbr(b), 2) && SameLog(s, s')
  {
    var s1 := ThreadStep(s, b.thread);
    assert Storing(s1, b, StoreDebugRegs(b), 1);
    s' := ThreadStep(s1, b.thread);
  }

  lemma StoresNext(s: State, b: Break, n: nat) returns (s': State)
    requires Storing(s, b, StoreLbr(b), 2)
    ensures WellFormed(s') && Advances(s, b.thread, n + 2) == Advances(s', b.thread, n)
    ensures Storing(s', b, SaveFx(b), 4) && SameLog(s, s')
  {
    var s1 := ThreadStep(s, b.thread);
    assert Storing(s1, b, StoreThread(b), 3);
    s' := ThreadStep(s1, b.thread);
  }

  lemma StoresLast(s: State, b: Break)
    requires Storing(s, b, SaveFx(b), 4)
    ensures Announced(Advances(s, b.thread, 2), b) && SameLog(s, Advances(s, b.thread, 2))
  {
    var s1 := ThreadStep(s, b.thread);
    assert Storing(s1, b, Notify(b), 5);
    assert Advances(s, b.thread, 2) == ThreadStep(s1, b.thread);
  }

  /** The debugger's part: it sees the hit, changes the frame, and answers. */
  lemma HitAnswered(s: State, b: Break, frame: int, handled: bool)
    requires Announced(s, b)
    ensures var s' := Step(Step(Step(Step(s, Wait), Edit(frame)), Continue(handled)), Signal);
            && s'.pcs == s.pcs && s'.frames == s.frames[b.thread := frame] && s'.ev == Events(false, false, true)
            && s'.debugger == Waiting && s'.saved == s.saved.(handledLast := handled)
            && s'.log.returned == s.log.returned && s'.log.reported == s.log.reported + [ReportOf(b)]
  {
    var s1 := Step(s, Wait);
    var s2 := Step(s1, Edit(frame));
    var s3 := Step(s2, Continue(handled));
    assert s1.debugger == Handling && s2.debugger == Handling && s3.debugger == Continuing;
  }

  /** The thread goes on with the debugger's answer and frame, and the next one may break. */
  lemma HitReturns(s: State, b: Break)
    requires WellFormed(s) && b.thread < |s.pcs| && s.pcs[b.thread] == WaitContinue(b)
    requires s.ev == Events(false, false, true) && s.debugger == Waiting
    ensures var s' := Advances(s, b.thread, 4);
            && s'.pcs[b.thread] == Running && Quiet(s') && s'.saved.lastStack == None
            && s'.log.returned == s.log.returned + [Return(b, s.saved.handledLast, s.frames[b.thread])]
  {
    var s2 := ReadsAnswer(s, b);
    LeavesSection(s2, b, s.saved.handledLast);
  }

  lemma ReadsAnswer(s: State, b: Break) returns (s': State)
    requires WellFormed(s) && b.thread < |s.pcs| && s.pcs[b.thread] == WaitContinue(b)
    requires s.ev == Events(false, false, true) && s.debugger == Waiting
    ensures WellFormed(s') && Advances(s, b.thread, 4) == Advances(s', b.thread, 2)
    ensures |s'.pcs| == |s.pcs| && s'.pcs[b.thread] == ClearStack(b, s.saved.handledLast)
    ensures s'.ev == Events(false, false, false) && s'.debugger == Waiting && s'.frames == s.frames && s'.log == s.log
  {
    var s1 := ThreadStep(s, b.thread);
    assert s1.pcs[b.thread] == ReadHandled(b);
    s' := ThreadStep(s1, b.thread);
  }

  lemma LeavesSection(s: State, b: Break, h: bool)
    requires WellFormed(s) && b.thread < |s.pcs| && s.pcs[b.thread] == ClearStack(b, h)
    requires s.ev == Events(false, false, false) && s.debugger == Waiting
    ensures var s' := Advances(s, b.thread, 2);
            && s'.pcs[b.thread] == Running && Quiet(s') && s'.saved.lastStack == None
            && s'.log.returned == s.log.returned + [Return(b, h, s.frames[b.thread])]
  {
    var s1 := ThreadStep(s, b.thread);
    assert s1.pcs[b.thread] == LetNext(b, h);
    assert Advances(s, b.thread, 2) == ThreadStep(s1, b.thread);
  }

  /** A whole hit from a quiet state: the debugger gets a report of the hit as it was, and the thread returns what the
      debugger answered with the frame the debugger wrote. */
  lemma HitIsHandled(s: State, b: Break, frame: int, handled: bool)
    requires WellFormed(s) && Quiet(s) && b.thread < |s.pcs| && s.pcs[b.thread] == Running
    ensures var s1 := Advances(Step(s, Begin(b)), b.thread, 7);
            var s2 := Step(Step(Step(Step(s1, Wait), Edit(frame)), Continue(handled)), Signal);
            var s3 := Advances(s2, b.thread, 4);
            && s3.pcs[b.thread] == Running && Quiet(s3)
            && s3.log.returned == s.log.returned + [Return(b, handled, frame)]
            && s2.log.reported == s.log.reported + [ReportOf(b)]
  {
    HitAnnounced(s, b);
    var s1 := Advances(Step(s, Begin(b)), b.thread, 7);
    HitAnswered(s1, b, frame, handled);
    HitReturns(Step(Step(Step(Step(s1, Wait), Edit(frame)), Continue(handled)), Signal), b);
  }
}
