/**
  The re-entrant spin lock: csEnter and csLeave as sequences of single reads and writes of the three lock fields, run by
  any number of CPUs in any interleaving. Memory is sequentially consistent.
 */
module SpinLock {

  /** Where a CPU is. `Idle` is outside both routines. `was` is the CPU's depth when it called csLeave. */
  datatype Pc =
    | Idle
    // csEnter
    | EnterLocked                // read CS->locked
    | EnterOwner                 // it was set: read CS->apicid
    | AgainRead                  // it is this CPU: lockcount++
    | AgainWrite(count: int)
    | SpinTest                   // spinlock: cmp [lock], 0
    | SpinSwap                   // spinlock: xchg
    | GotLock                    // lockcount = 1
    | GotCount                   // apicid = own id
    // csLeave
    | LeaveLocked(was: nat)      // read CS->locked
    | LeaveOwner(was: nat)       // read CS->apicid
    | LeaveRead                  // lockcount--
    | LeaveWrite(count: int)
    | LeaveTest                  // if lockcount == 0
    | DropOwner                  // apicid = -1
    | DropLock                   // locked = 0

  /** `depth` counts the enters that returned minus the leaves that were called, never going below zero: what the
      caller believes about how often it holds the lock. The lock itself never looks at it. */
  datatype Cpu = Cpu(pc: Pc, depth: nat)

  datatype State = State(locked: int, apicid: int, lockcount: int, cpus: seq<Cpu>)

  /** getAPICID() + 1 of each CPU. */
  predicate DistinctIds(ids: seq<int>) {
    && (forall i | 0 <= i < |ids| :: ids[i] >= 2)
    && (forall i, j | 0 <= i < j < |ids| :: ids[i] != ids[j])
  }

  /** A zero-initialised critical section that nobody uses. */
  function Initial(ids: seq<int>): State {
    State(0, 0, 0, seq(|ids|, _ => Cpu(Idle, 0)))
  }

  datatype Call = Enter | Leave

  /** One instruction of CPU `i`; an idle CPU starts `call`. */
  function Step(ids: seq<int>, s: State, i: nat, call: Call): (s': State)
    requires i < |s.cpus| == |ids|
  {
    var me := ids[i];
    var c := s.cpus[i];
    match c.pc
    case Idle =>
      if call == Enter then At(s, i, EnterLocked, c.depth)
      else At(s, i, LeaveLocked(c.depth), if c.depth == 0 then 0 else c.depth - 1)
    case EnterLocked => At(s, i, if s.locked != 0 then EnterOwner else SpinTest, c.depth)
    case EnterOwner => At(s, i, if s.apicid == me then AgainRead else SpinTest, c.depth)
    case AgainRead => At(s, i, AgainWrite(s.lockcount), c.depth)
    case AgainWrite(count) => At(s.(lockcount := count + 1), i, Idle, c.depth + 1)
    case SpinTest => At(s, i, if s.locked == 0 then SpinSwap else SpinTest, c.depth)
    case SpinSwap => At(s.(locked := 1), i, if s.locked == 0 then GotLock else SpinTest, c.depth)
    case GotLock => At(s.(lockcount := 1), i, GotCount, c.depth)
    case GotCount => At(s.(apicid := me), i, Idle, c.depth + 1)
    case LeaveLocked(was) => At(s, i, if s.locked != 0 then LeaveOwner(was) else Idle, c.depth)
    case LeaveOwner(was) => At(s, i, if s.apicid == me then LeaveRead else Idle, c.depth)
    case LeaveRead => At(s, i, LeaveWrite(s.lockcount), c.depth)
    case LeaveWrite(count) => At(s.(lockcount := count - 1), i, LeaveTest, c.depth)
    case LeaveTest => At(s, i, if s.lockcount == 0 then DropOwner else Idle, c.depth)
    case DropOwner => At(s.(apicid := -1), i, DropLock, c.depth)
    case DropLock => At(s.(locked := 0), i, Idle, c.depth)
  }

  function At(s: State, i: nat, pc: Pc, depth: nat): State
    requires i < |s.cpus|
  {
    s.(cpus := s.cpus[i := Cpu(pc, depth)])
  }

  type Schedule = seq<(nat, Call)>

  predicate Fits(schedule: Schedule, n: nat) {
    forall k | 0 <= k < |schedule| :: schedule[k].0 < n
  }

  function Run(ids: seq<int>, s: State, schedule: Schedule): (s': State)
    requires |s.cpus| == |ids| && Fits(schedule, |ids|)
    ensures |s'.cpus| == |ids|
    decreases |schedule|
  {
    if schedule == [] then s
    else
      var last := schedule[|schedule| - 1];
      Step(ids, Run(ids, s, schedule[..|schedule| - 1]), last.0, last.1)
  }

  /** The CPU is between taking the lock word and clearing it. */
  predicate Owns(c: Cpu) {
    match c.pc
    case Idle => c.depth > 0
    case EnterLocked => c.depth > 0
    case EnterOwner => c.depth > 0
    case LeaveLocked(was) => was > 0
    case LeaveOwner(was) => was > 0
    case SpinTest => false
    case SpinSwap => false
    case AgainRead => true
    case AgainWrite(_) => true
    case GotLock => true
    case GotCount => true
    case LeaveRead => true
    case LeaveWrite(_) => true
    case LeaveTest => true
    case DropOwner => true
    case DropLock => true
  }

  /** What the lock fields are while CPU `c` with identifier `me` owns the lock. */
  predicate OwnerFields(s: State, me: int, c: Cpu) {
    && s.locked == 1
    && match c.pc
       case GotLock => s.apicid <= 0 && c.depth == 0
       case GotCount => s.apicid <= 0 && c.depth == 0 && s.lockcount == 1
       case DropLock => s.apicid == -1 && c.depth == 0
       case DropOwner => s.apicid == me && c.depth == 0
       case AgainWrite(count) => s.apicid == me && c.depth > 0 && count == c.depth
       case AgainRead => s.apicid == me && c.depth > 0 && s.lockcount == c.depth
       case LeaveWrite(count) => s.apicid == me && count == c.depth + 1
       case LeaveRead => s.apicid == me && s.lockcount == c.depth + 1
       case LeaveLocked(was) => s.apicid == me && s.lockcount == c.depth + 1 == was
       case LeaveOwner(was) => s.apicid == me && s.lockcount == c.depth + 1 == was
       case Idle => s.apicid == me && s.lockcount == c.depth
       case EnterLocked => s.apicid == me && s.lockcount == c.depth
       case EnterOwner => s.apicid == me && s.lockcount == c.depth
       case LeaveTest => s.apicid == me && s.lockcount == c.depth
       case SpinTest => false
       case SpinSwap => false
  }

  ghost predicate Inv(ids: seq<int>, s: State) {
    && |s.cpus| == |ids|
    && (s.locked == 0 || s.locked == 1)
    && (forall i | 0 <= i < |ids| ::
          if Owns(s.cpus[i]) then OwnerFields(s, ids[i], s.cpus[i]) else s.cpus[i].depth == 0)
    && (forall i, j | 0 <= i < j < |ids| :: !(Owns(s.cpus[i]) && Owns(s.cpus[j])))
    && ((forall i | 0 <= i < |ids| :: !Owns(s.cpus[i])) ==> s.locked == 0 && s.apicid <= 0)
  }

  /** A CPU that does not own the lock can change its fields only by taking a free lock, and never passes the
      "already mine" test. */
  lemma StrangerStep(ids: seq<int>, s: State, i: nat, call: Call)
    requires DistinctIds(ids) && Inv(ids, s) && i < |ids| && !Owns(s.cpus[i])
    ensures s.locked == 1 ==> s.apicid != ids[i]
    ensures var s' := Step(ids, s, i, call);
            if s.locked == 0 && s.cpus[i].pc == SpinSwap
            then s' == State(1, s.apicid, s.lockcount, s.cpus[i := Cpu(GotLock, 0)])
            else s' == s.(cpus := s'.cpus) && !Owns(s'.cpus[i]) && s'.cpus[i].depth == 0
  {
    if s.locked == 1 {
      var j :| 0 <= j < |ids| && Owns(s.cpus[j]);
      assert OwnerFields(s, ids[j], s.cpus[j]);
    }
  }

  /** The owner keeps the fields in order or, with its enters and leaves balanced, frees the lock. */
  lemma OwnerStep(ids: seq<int>, s: State, i: nat, call: Call)
    requires i < |ids| == |s.cpus| && ids[i] >= 2 && Owns(s.cpus[i]) && OwnerFields(s, ids[i], s.cpus[i])
    ensures var s' := Step(ids, s, i, call);
            if s.cpus[i].pc == DropLock
            then s'.locked == 0 && s'.apicid <= 0 && s'.cpus[i] == Cpu(Idle, 0)
            else Owns(s'.cpus[i]) && OwnerFields(s', ids[i], s'.cpus[i])
  {
  }

  lemma StepIsLocal(ids: seq<int>, s: State, i: nat, call: Call)
    requires i < |s.cpus| == |ids|
    ensures var s' := Step(ids, s, i, call);
            |s'.cpus| == |ids| && forall j | 0 <= j < |ids| && j != i :: s'.cpus[j] == s.cpus[j]
  {
  }

  /** One owner, or none and a free lock: the invariant seen from CPU `i`. */
  lemma InvFrom(ids: seq<int>, s: State, i: nat)
    requires |s.cpus| == |ids| && i < |ids|
    requires forall j | 0 <= j < |ids| && j != i :: !Owns(s.cpus[j]) && s.cpus[j].depth == 0
    requires if Owns(s.cpus[i]) then OwnerFields(s, ids[i], s.cpus[i])
             else s.cpus[i].depth == 0 && s.locked == 0 && s.apicid <= 0
    ensures Inv(ids, s)
  {
  }

  lemma StepKeepsInv(ids: seq<int>, s: State, i: nat, call: Call)
    requires DistinctIds(ids) && Inv(ids, s) && i < |ids|
    ensures Inv(ids, Step(ids, s, i, call))
  {
    var s' := Step(ids, s, i, call);
    StepIsLocal(ids, s, i, call);
    if Owns(s.cpus[i]) {
      OwnerStep(ids, s, i, call);
      InvFrom(ids, s', i);
    } else {
      StrangerStep(ids, s, i, call);
      if s.locked == 1 {
        var j :| 0 <= j < |ids| && Owns(s.cpus[j]);
        assert OwnerFields(s', ids[j], s'.cpus[j]);
        InvFrom(ids, s', j);
      } else {
        NobodyOwns(ids, s);
        InvFrom(ids, s', i);
      }
    }
  }

  lemma NobodyOwns(ids: seq<int>, s: State)
    requires Inv(ids, s) && s.locked == 0
    ensures forall j | 0 <= j < |ids| :: !Owns(s.cpus[j]) && s.cpus[j].depth == 0
    ensures s.apicid <= 0
  {
    forall j | 0 <= j < |ids| ensures !Owns(s.cpus[j]) {}
  }

  lemma {:induction false} RunKeepsInv(ids: seq<int>, s: State, schedule: Schedule)
    requires DistinctIds(ids) && Inv(ids, s) && Fits(schedule, |ids|)
    ensures Inv(ids, Run(ids, s, schedule))
    decreases |schedule|
  {
    if schedule != [] {
      var last := schedule[|schedule| - 1];
      RunKeepsInv(ids, s, schedule[..|schedule| - 1]);
      StepKeepsInv(ids, Run(ids, s, schedule[..|schedule| - 1]), last.0, last.1);
    }
  }

  /** In every interleaving, from a fresh critical section:
      at most one CPU is inside its section;
      the "already mine" test succeeds for CPUs inside their section and for no other, so nobody enters over another
      CPU's head and nobody waits for itself;
      and the lock word is cleared only by a CPU whose enters and leaves balance. */
  lemma MutualExclusion(ids: seq<int>, schedule: Schedule)
    requires DistinctIds(ids) && Fits(schedule, |ids|)
    ensures var s := Run(ids, Initial(ids), schedule);
            && (forall i, j | 0 <= i < j < |ids| :: !(s.cpus[i].depth > 0 && s.cpus[j].depth > 0))
            && (forall i | 0 <= i < |ids| && s.cpus[i].pc in {EnterLocked, EnterOwner} ::
                  (s.locked != 0 && s.apicid == ids[i]) <==> s.cpus[i].depth > 0)
            && (forall i | 0 <= i < |ids| && s.cpus[i].pc in {SpinTest, SpinSwap, DropOwner, DropLock} ::
                  s.cpus[i].depth == 0)
  {
    assert Inv(ids, Initial(ids));
    RunKeepsInv(ids, Initial(ids), schedule);
    var s := Run(ids, Initial(ids), schedule);
    forall i | 0 <= i < |ids|
      ensures s.cpus[i].depth > 0 ==> Owns(s.cpus[i])
      ensures s.cpus[i].pc in {EnterLocked, EnterOwner} ==>
                ((s.locked != 0 && s.apicid == ids[i]) <==> s.cpus[i].depth > 0)
    {
      if Owns(s.cpus[i]) {
        assert OwnerFields(s, ids[i], s.cpus[i]);
      } else {
        StrangerStep(ids, s, i, Enter);
      }
    }
  }

  /** Whenever no CPU is inside csEnter or csLeave, the lock is held exactly if some CPU's enters outnumber its leaves,
      and then the lock records that CPU and its depth. */
  lemma QuietLock(ids: seq<int>, schedule: Schedule)
    requires DistinctIds(ids) && Fits(schedule, |ids|)
    requires forall i | 0 <= i < |ids| :: Run(ids, Initial(ids), schedule).cpus[i].pc == Idle
    ensures var s := Run(ids, Initial(ids), schedule);
            && (s.locked == 0 <==> forall i | 0 <= i < |ids| :: s.cpus[i].depth == 0)
            && (forall i | 0 <= i < |ids| :: s.cpus[i].depth > 0 <==> s.locked == 1 && s.apicid == ids[i])
            && (forall i | 0 <= i < |ids| && s.cpus[i].depth > 0 :: s.lockcount == s.cpus[i].depth)
  {
    assert Inv(ids, Initial(ids));
    RunKeepsInv(ids, Initial(ids), schedule);
    var s := Run(ids, Initial(ids), schedule);
    forall i | 0 <= i < |ids|
      ensures s.cpus[i].depth > 0 <==> s.locked == 1 && s.apicid == ids[i]
      ensures s.cpus[i].depth > 0 ==> s.lockcount == s.cpus[i].depth
    {
      if Owns(s.cpus[i]) {
        assert OwnerFields(s, ids[i], s.cpus[i]);
      } else {
        StrangerStep(ids, s, i, Enter);
      }
    }
  }

  // ----- one CPU on its own -----

  /** The next n instructions of CPU i, with no other CPU in between. */
  function Alone(ids: seq<int>, s: State, i: nat, call: Call, n: nat): (s': State)
    requires i < |s.cpus| == |ids|
    ensures |s'.cpus| == |ids|
  {
    if n == 0 then s else Step(ids, Alone(ids, s, i, call, n - 1), i, call)
  }

  /** A CPU that finds the lock free gets it, six instructions later. */
  lemma EntersFreeLock(ids: seq<int>, s: State, i: nat)
    requires i < |s.cpus| == |ids| && s.locked == 0 && s.cpus[i] == Cpu(Idle, 0)
    ensures Alone(ids, s, i, Enter, 6) == State(1, ids[i], 1, s.cpus[i := Cpu(Idle, 1)])
  {
    var s1, s2, s3 := At(s, i, EnterLocked, 0), At(s, i, SpinTest, 0), At(s, i, SpinSwap, 0);
    var s4 := At(s.(locked := 1), i, GotLock, 0);
    var s5 := At(s.(locked := 1, lockcount := 1), i, GotCount, 0);
    assert Alone(ids, s, i, Enter, 0) == s;
    assert Alone(ids, s, i, Enter, 1) == s1;
    assert Alone(ids, s, i, Enter, 2) == s2;
    assert Alone(ids, s, i, Enter, 3) == s3;
    assert Alone(ids, s, i, Enter, 4) == s4;
    assert Alone(ids, s, i, Enter, 5) == s5;
  }

  /** A CPU that has the lock enters again without waiting, in five instructions. */
  lemma EntersAgain(ids: seq<int>, s: State, i: nat)
    requires Inv(ids, s) && i < |ids| && s.cpus[i].pc == Idle && s.cpus[i].depth > 0
    ensures var d := s.cpus[i].depth;
            Alone(ids, s, i, Enter, 5) == s.(lockcount := d + 1, cpus := s.cpus[i := Cpu(Idle, d + 1)])
  {
    var d := s.cpus[i].depth;
    assert OwnerFields(s, ids[i], s.cpus[i]);
    assert Alone(ids, s, i, Enter, 0) == s;
    assert Alone(ids, s, i, Enter, 1) == At(s, i, EnterLocked, d);
    assert Alone(ids, s, i, Enter, 2) == At(s, i, EnterOwner, d);
    assert Alone(ids, s, i, Enter, 3) == At(s, i, AgainRead, d);
    assert Alone(ids, s, i, Enter, 4) == At(s, i, AgainWrite(d), d);
  }

  /** A leave that is not the last keeps the lock. */
  lemma LeavesInner(ids: seq<int>, s: State, i: nat)
    requires Inv(ids, s) && i < |ids| && s.cpus[i].pc == Idle && s.cpus[i].depth > 1
    ensures var d := s.cpus[i].depth;
            Alone(ids, s, i, Leave, 6) == s.(lockcount := d - 1, cpus := s.cpus[i := Cpu(Idle, d - 1)])
  {
    var d := s.cpus[i].depth;
    LeaveStarts(ids, s, i);
    assert Alone(ids, s, i, Leave, 6) == Step(ids, Alone(ids, s, i, Leave, 5), i, Leave);
  }

  lemma LeaveStarts(ids: seq<int>, s: State, i: nat)
    requires Inv(ids, s) && i < |ids| && s.cpus[i].pc == Idle && s.cpus[i].depth > 0
    ensures var d := s.cpus[i].depth;
            Alone(ids, s, i, Leave, 5) == At(s.(lockcount := d - 1), i, LeaveTest, d - 1)
  {
    assert OwnerFields(s, ids[i], s.cpus[i]);
    LeaveTests(ids, s, i);
    LeaveCounts(ids, s, i);
  }

  lemma LeaveTests(ids: seq<int>, s: State, i: nat)
    requires i < |s.cpus| == |ids| && s.cpus[i].pc == Idle && s.cpus[i].depth > 0 && s.locked == 1 && s.apicid == ids[i]
    ensures Alone(ids, s, i, Leave, 3) == At(s, i, LeaveRead, s.cpus[i].depth - 1)
  {
    var d := s.cpus[i].depth;
    assert Alone(ids, s, i, Leave, 0) == s;
    assert Alone(ids, s, i, Leave, 1) == At(s, i, LeaveLocked(d), d - 1);
    assert Alone(ids, s, i, Leave, 2) == At(s, i, LeaveOwner(d), d - 1);
  }

  lemma LeaveCounts(ids: seq<int>, s: State, i: nat)
    requires i < |s.cpus| == |ids| && s.cpus[i].depth > 0 && s.lockcount == s.cpus[i].depth
    requires Alone(ids, s, i, Leave, 3) == At(s, i, LeaveRead, s.cpus[i].depth - 1)
    ensures var d := s.cpus[i].depth;
            Alone(ids, s, i, Leave, 5) == At(s.(lockcount := d - 1), i, LeaveTest, d - 1)
  {
    var d := s.cpus[i].depth;
    assert Alone(ids, s, i, Leave, 4) == At(s, i, LeaveWrite(d), d - 1);
  }

  /** The last leave frees it, in eight instructions. */
  lemma LeavesLast(ids: seq<int>, s: State, i: nat)
    requires Inv(ids, s) && i < |ids| && s.cpus[i] == Cpu(Idle, 1)
    ensures Alone(ids, s, i, Leave, 8) == State(0, -1, 0, s.cpus[i := Cpu(Idle, 0)])
  {
    LeaveStarts(ids, s, i);
    assert Alone(ids, s, i, Leave, 6) == At(s.(lockcount := 0), i, DropOwner, 0);
    assert Alone(ids, s, i, Leave, 7) == At(s.(lockcount := 0, apicid := -1), i, DropLock, 0);
  }
}
