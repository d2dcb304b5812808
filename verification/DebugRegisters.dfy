/**
  Virtual debug registers of one CPU. The guest's DR0 to DR3 and DR7 are kept aside; the hardware gets the guest's
  values with the debugger's breakpoints laid over the slots the guest does not use. Guest accesses fault and
  are emulated.
 */
module DebugRegisters {

  const SLOTS: nat := 4
  const GPRS: nat := 16
  const RSP: nat := 4

  /** The part of DR7 that belongs to one slot. */
  datatype Slot = Slot(local: bool, global: bool, rw: nat, len: nat)

  datatype Breakpoint = Breakpoint(active: bool, address: int, breakType: nat, breakLength: nat)

  /** Four debug addresses and the control of each. */
  datatype Registers = Registers(address: seq<int>, control: seq<Slot>)

  predicate Complete(r: Registers) {
    |r.address| == |r.control| == SLOTS
  }

  /** Neither the local nor the global enable bit is set. */
  predicate Free(s: Slot) {
    !s.local && !s.global
  }

  /** The free slots below n, ascending. */
  function FreeSlots(control: seq<Slot>, n: nat): seq<nat>
    requires n <= |control|
  {
    if n == 0 then [] else FreeSlots(control, n - 1) + if Free(control[n - 1]) then [n - 1] else []
  }

  /** The active breakpoints below n, ascending. */
  function Active(bps: seq<Breakpoint>, n: nat): seq<nat>
    requires n <= |bps|
  {
    if n == 0 then [] else Active(bps, n - 1) + if bps[n - 1].active then [n - 1] else []
  }

  lemma {:induction false} FreeSlotsAre(control: seq<Slot>, n: nat)
    requires n <= |control|
    ensures var r := FreeSlots(control, n);
            && |r| <= n
            && (forall k | 0 <= k < |r| :: r[k] < n && Free(control[r[k]]))
            && (forall j, k | 0 <= j < k < |r| :: r[j] < r[k])
            && (forall i | 0 <= i < n && Free(control[i]) :: i in r)
  {
    if n > 0 {
      FreeSlotsAre(control, n - 1);
    }
  }

  lemma {:induction false} ActiveAre(bps: seq<Breakpoint>, n: nat)
    requires n <= |bps|
    ensures var r := Active(bps, n);
            && |r| <= n
            && (forall k | 0 <= k < |r| :: r[k] < n && bps[r[k]].active)
            && (forall j, k | 0 <= j < k < |r| :: r[j] < r[k])
            && (forall b | 0 <= b < n && bps[b].active :: b in r)
  {
    if n > 0 {
      ActiveAre(bps, n - 1);
    }
  }

  function Control(bp: Breakpoint): Slot {
    Slot(true, false, bp.breakType, bp.breakLength)
  }

  /** Slot i of the hardware is as the guest left it. */
  predicate Untouched(guest: Registers, hw: Registers, i: nat)
    requires Complete(guest) && Complete(hw) && i < SLOTS
  {
    hw.address[i] == guest.address[i] && hw.control[i] == guest.control[i]
  }

  /** Slot d of the hardware belongs to breakpoint bp. */
  predicate Arms(hw: Registers, d: nat, bp: Breakpoint)
    requires Complete(hw) && d < SLOTS
  {
    hw.address[d] == bp.address && hw.control[d] == Control(bp)
  }

  /** The breakpoints `active[k]` are in the slots `free[k]`; all other slots are the guest's. */
  ghost predicate Overlaid(guest: Registers, bps: seq<Breakpoint>, hw: Registers, free: seq<nat>, active: seq<nat>)
    requires Complete(guest) && Complete(hw)
  {
    && |free| == |active|
    && (forall k | 0 <= k < |free| :: free[k] < SLOTS && active[k] < |bps| && Arms(hw, free[k], bps[active[k]]))
    && (forall i | 0 <= i < SLOTS && i !in free :: Untouched(guest, hw, i))
  }

  function Min(a: nat, b: nat): nat {
    if a < b then a else b
  }

  /** What the hardware must hold: the k-th active breakpoint in the k-th free slot, as many as there are of both. */
  ghost predicate Placed(guest: Registers, bps: seq<Breakpoint>, hw: Registers)
    requires Complete(guest) && Complete(hw)
  {
    var free, active := FreeSlots(guest.control, |guest.control|), Active(bps, |bps|);
    var n := Min(|free|, |active|);
    Overlaid(guest, bps, hw, free[..n], active[..n])
  }

  class Cpu {
    var guest: Registers
    var hw: Registers
    var breakpoint: seq<Breakpoint>
    // The interrupted instruction stream's registers, as saved on the stack.
    var gp: seq<int>
    var eip: int

    predicate Valid()
      reads this
    {
      Complete(guest) && Complete(hw) && |breakpoint| == SLOTS && |gp| == GPRS
    }

    function View(): State
      reads this
    {
      State(guest, breakpoint, hw)
    }

    /** debugger_setInitialFakeState: the guest's registers are those found in the hardware; no breakpoints yet. */
    constructor (found: Registers, gp: seq<int>, eip: int)
      requires Complete(found) && |gp| == GPRS
      ensures Valid() && guest == hw == found && this.gp == gp && this.eip == eip
      ensures forall b | 0 <= b < SLOTS :: !breakpoint[b].active
    {
      guest, hw := found, found;
      this.gp, this.eip := gp, eip;
      breakpoint := seq(SLOTS, _ => Breakpoint(false, 0, 0, 0));
    }

    method SetGDBreakpoint(breakpointnr: nat, address: int, bt: nat, bl: nat)
      requires Valid() && breakpointnr < SLOTS
      modifies this`breakpoint
      ensures Valid() && breakpoint == old(breakpoint)[breakpointnr := Breakpoint(true, address, bt, bl)]
      ensures Steps(old(View()), Edit(breakpointnr, breakpoint[breakpointnr]), View())
    {
      breakpoint := breakpoint[breakpointnr := Breakpoint(true, address, bt, bl)];
    }

    method UnsetGDBreakpoint(breakpointnr: nat) returns (was: bool)
      requires Valid() && breakpointnr < SLOTS
      modifies this`breakpoint
      ensures Valid() && was == old(breakpoint)[breakpointnr].active
      ensures breakpoint == old(breakpoint)[breakpointnr := old(breakpoint)[breakpointnr].(active := false)]
      ensures Steps(old(View()), Edit(breakpointnr, breakpoint[breakpointnr]), View())
    {
      was := breakpoint[breakpointnr].active;
      breakpoint := breakpoint[breakpointnr := breakpoint[breakpointnr].(active := false)];
    }

    /** interrupt1_handler for a guest access to a debug register, then the epilogue.  A write takes its value from one
        of the sixteen registers, and from RSP only in user mode: otherwise the source uses an uninitialised value. */
    method HandleAccess(instruction: seq<bv8>, ghost userMode: bool, ghost ip: nat)
      requires Valid() && ip + 2 < |instruction| && FirstOpcode(instruction, ip)
      requires DecodedDr(instruction, ip) < SLOTS
      requires instruction[ip + 1] == 0x23 ==> DecodedGpr(instruction, ip) < GPRS
      requires instruction[ip + 1] == 0x23 && DecodedGpr(instruction, ip) == RSP ==> userMode
      modifies this`guest, this`hw, this`gp, this`eip
      ensures Valid() && eip == old(eip) + ip + 3 && breakpoint == old(breakpoint)
      ensures |instruction| == ip + 3 ==> eip == old(eip) + |instruction|
      ensures var dr, gpr := DecodedDr(instruction, ip), DecodedGpr(instruction, ip);
              && (instruction[ip + 1] == 0x21 ==>
                    && Steps(old(View()), Read(dr, old(guest.address[dr])), View())
                    && gp == if gpr < GPRS then old(gp)[gpr := old(guest.address[dr])] else old(gp))
              && (instruction[ip + 1] == 0x23 ==> Steps(old(View()), Write(dr, old(gp[gpr])), View()) && gp == old(gp))
              && (instruction[ip + 1] !in {0x21, 0x23} ==>
                    guest == old(guest) && gp == old(gp) && Placed(guest, breakpoint, hw))
    {
      var start, dr, gpr := Decode(instruction, ip);
      if instruction[start + 1] == 0x21 {
        if gpr < GPRS {
          gp := gp[gpr := guest.address[dr]];
        }
      } else if instruction[start + 1] == 0x23 {
        hw := hw.(address := hw.address[dr := gp[gpr]]);
        guest := guest.(address := guest.address[dr := hw.address[dr]]);
      }
      eip := eip + start + 3;
      Epilogue();
    }

    /** The end of interrupt1_centry under global debugging. */
    method Epilogue()
      requires Valid()
      modifies this`hw
      ensures Valid() && Placed(guest, breakpoint, hw)
    {
      var debugregister: nat, b: nat := 0, 0;
      hw := guest;
      while b < SLOTS
        invariant Valid() && b <= SLOTS && debugregister <= SLOTS
        invariant Progress(guest, breakpoint, hw, debugregister, b)
      {
        if breakpoint[b].active {
          debugregister := PlaceOne(debugregister, b);
        } else {
          Skips(guest, breakpoint, hw, debugregister, b);
        }
        b := b + 1;
      }
      Finish(guest, breakpoint, hw, debugregister);
    }

    /** The inner loop: looks for a free slot from `start` on and puts breakpoint b there. */
    method PlaceOne(start: nat, b: nat) returns (debugregister: nat)
      requires Valid() && start <= SLOTS && b < SLOTS && breakpoint[b].active
      requires Progress(guest, breakpoint, hw, start, b)
      modifies this`hw
      ensures Valid() && debugregister <= SLOTS
      ensures Progress(guest, breakpoint, hw, debugregister, b + 1)
    {
      debugregister := start;
      var foundone := false;
      while debugregister < SLOTS && !foundone
        invariant Valid() && debugregister <= SLOTS
        invariant Progress(guest, breakpoint, hw, debugregister, if foundone then b + 1 else b)
      {
        if Free(guest.control[debugregister]) {
          foundone := true;
          Claims(guest, breakpoint, hw, debugregister, b);
          hw := Armed(hw, debugregister, breakpoint[b]);
        } else {
          Passes(guest, breakpoint, hw, debugregister, b);
        }
        debugregister := debugregister + 1;
      }
      if !foundone {
        SlotsRanOut(guest, breakpoint, hw, b);
      }
    }
  }

  /** Slots below `d` and breakpoints below `b` are dealt with; the slots ran out if not all breakpoints have one. */
  ghost predicate Progress(guest: Registers, bps: seq<Breakpoint>, hw: Registers, d: nat, b: nat)
    requires Complete(guest) && Complete(hw) && d <= SLOTS && b <= |bps|
  {
    var free, active := FreeSlots(guest.control, d), Active(bps, b);
    && |free| <= |active| && (|free| < |active| ==> d == SLOTS)
    && Overlaid(guest, bps, hw, free, active[..|free|])
  }

  function Armed(hw: Registers, d: nat, bp: Breakpoint): (r: Registers)
    requires Complete(hw) && d < SLOTS
    ensures Complete(r)
  {
    Registers(hw.address[d := bp.address], hw.control[d := Control(bp)])
  }

  lemma OverlaidMore(guest: Registers, bps: seq<Breakpoint>, hw: Registers, free: seq<nat>, active: seq<nat>,
                     d: nat, b: nat)
    requires Complete(guest) && Complete(hw) && Overlaid(guest, bps, hw, free, active)
    requires d < SLOTS && d !in free && b < |bps|
    ensures Overlaid(guest, bps, Armed(hw, d, bps[b]), free + [d], active + [b])
  {
    var hw' := Armed(hw, d, bps[b]);
    forall k | 0 <= k < |free| ensures Arms(hw', free[k], bps[active[k]]) {
      assert free[k] != d;
    }
    forall i | 0 <= i < SLOTS && i !in free + [d] ensures Untouched(guest, hw', i) {
      assert i !in free && (free + [d])[|free|] == d;
    }
  }

  /** Breakpoint b gets the free slot d. */
  lemma Claims(guest: Registers, bps: seq<Breakpoint>, hw: Registers, d: nat, b: nat)
    requires Complete(guest) && Complete(hw) && d < SLOTS && b < |bps|
    requires Free(guest.control[d]) && bps[b].active && Progress(guest, bps, hw, d, b)
    ensures Progress(guest, bps, Armed(hw, d, bps[b]), d + 1, b + 1)
  {
    var free, active := FreeSlots(guest.control, d), Active(bps, b);
    FreeSlotsAre(guest.control, d);
    OverlaidMore(guest, bps, hw, free, active[..|free|], d, b);
    assert active[..|free|] == active;
    assert (active + [b])[..|free| + 1] == active + [b];
  }

  /** Slot d is the guest's. */
  lemma Passes(guest: Registers, bps: seq<Breakpoint>, hw: Registers, d: nat, b: nat)
    requires Complete(guest) && Complete(hw) && d < SLOTS && b < |bps|
    requires !Free(guest.control[d]) && Progress(guest, bps, hw, d, b)
    ensures Progress(guest, bps, hw, d + 1, b)
  {
    assert FreeSlots(guest.control, d + 1) == FreeSlots(guest.control, d);
  }

  /** Breakpoint b is not active. */
  lemma Skips(guest: Registers, bps: seq<Breakpoint>, hw: Registers, d: nat, b: nat)
    requires Complete(guest) && Complete(hw) && d <= SLOTS && b < |bps|
    requires !bps[b].active && Progress(guest, bps, hw, d, b)
    ensures Progress(guest, bps, hw, d, b + 1)
  {
    assert Active(bps, b + 1) == Active(bps, b);
  }

  /** Breakpoint b finds no slot. */
  lemma SlotsRanOut(guest: Registers, bps: seq<Breakpoint>, hw: Registers, b: nat)
    requires Complete(guest) && Complete(hw) && b < |bps| && bps[b].active && Progress(guest, bps, hw, SLOTS, b)
    ensures Progress(guest, bps, hw, SLOTS, b + 1)
  {
    var n := |FreeSlots(guest.control, SLOTS)|;
    assert Active(bps, b + 1) == Active(bps, b) + [b];
    assert Active(bps, b + 1)[..n] == Active(bps, b)[..n];
  }

  lemma {:induction false} FreePrefix(control: seq<Slot>, d: nat, n: nat)
    requires d <= n <= |control|
    ensures FreeSlots(control, d) <= FreeSlots(control, n)
  {
    if d < n {
      FreePrefix(control, d, n - 1);
    }
  }

  lemma Finish(guest: Registers, bps: seq<Breakpoint>, hw: Registers, d: nat)
    requires Complete(guest) && Complete(hw) && d <= SLOTS && Progress(guest, bps, hw, d, |bps|)
    ensures Placed(guest, bps, hw)
  {
    FreePrefix(guest.control, d, |guest.control|);
    var n := |FreeSlots(guest.control, d)|;
    assert FreeSlots(guest.control, |guest.control|)[..n] == FreeSlots(guest.control, d);
  }

  // ----- decoding the access -----

  /** The first 0x0f of the instruction is at ip: what is before it are prefixes. */
  predicate FirstOpcode(instruction: seq<bv8>, ip: nat) {
    ip < |instruction| && instruction[ip] == 0x0f && forall i | 0 <= i < ip :: instruction[i] != 0x0f
  }

  /** The test for a REX.B prefix. */
  predicate LooksLikeRexB(prefix: bv8) {
    prefix & 0x41 == 0x41
  }

  function RexBs(prefixes: seq<bv8>): nat {
    if prefixes == [] then 0
    else RexBs(prefixes[..|prefixes| - 1]) + if LooksLikeRexB(prefixes[|prefixes| - 1]) then 1 else 0
  }

  function DecodedDr(instruction: seq<bv8>, ip: nat): nat
    requires ip + 2 < |instruction|
  {
    ((instruction[ip + 2] >> 3) & 7) as nat
  }

  function DecodedGpr(instruction: seq<bv8>, ip: nat): nat
    requires ip + 2 < |instruction|
  {
    (instruction[ip + 2] & 7) as nat + 8 * RexBs(instruction[..ip])
  }

  /** Finds the opcode and the two registers. */
  method Decode(instruction: seq<bv8>, ghost ip: nat) returns (start: nat, dr: nat, gpr: nat)
    requires ip + 2 < |instruction| && FirstOpcode(instruction, ip)
    ensures start == ip && dr == DecodedDr(instruction, ip) && gpr == DecodedGpr(instruction, ip)
  {
    start := 0;
    while instruction[start] != 0x0f
      invariant start <= ip
      decreases ip - start
    {
      start := start + 1;
    }
    dr := ((instruction[start + 2] >> 3) & 7) as nat;
    gpr := (instruction[start + 2] & 7) as nat;
    var prefixpointer := 0;
    while prefixpointer < start
      invariant prefixpointer <= start
      invariant gpr == (instruction[start + 2] & 7) as nat + 8 * RexBs(instruction[..prefixpointer])
    {
      assert instruction[..prefixpointer + 1][..prefixpointer] == instruction[..prefixpointer];
      if instruction[prefixpointer] & 0x41 == 0x41 {
        gpr := gpr + 8;
      }
      prefixpointer := prefixpointer + 1;
    }
  }

  /** The prefixes that may come before an instruction, other than REX. */
  predicate IsLegacyPrefix(p: bv8) {
    p in {0x66, 0x67, 0xf0, 0xf2, 0xf3, 0x26, 0x2e, 0x36, 0x3e, 0x64, 0x65}
  }

  /** The architecture's view: MOV between general register `gpr` and debug register `dr`, with any legacy prefixes and,
      if `rex` is set, a REX prefix with W and X as given, all before 0F 21 or 0F 23 and a register-form ModRM byte. */
  function Encode(legacy: seq<bv8>, rex: bool, wx: bv8, opcode: bv8, dr: bv8, gpr: bv8): seq<bv8>
    requires dr < 8 && gpr < 16 && (gpr >= 8 ==> rex)
  {
    legacy + (if rex then [0x40 | (wx & 0x0a) | (gpr >> 3)] else []) + [0x0f, opcode, 0xc0 | (dr << 3) | (gpr & 7)]
  }

  lemma ModRmFields(dr: bv8, gpr: bv8)
    requires dr < 8 && gpr < 16
    ensures ((0xc0 | (dr << 3) | (gpr & 7)) >> 3) & 7 == dr
    ensures (0xc0 | (dr << 3) | (gpr & 7)) & 7 == gpr & 7
  {
  }

  lemma RexFields(wx: bv8, gpr: bv8)
    requires gpr < 16
    ensures LooksLikeRexB(0x40 | (wx & 0x0a) | (gpr >> 3)) <==> gpr >= 8
    ensures 0x40 | (wx & 0x0a) | (gpr >> 3) != 0x0f
  {
  }

  lemma GprParts(gpr: bv8)
    requires gpr < 16
    ensures gpr as nat == (gpr & 7) as nat + if gpr >= 8 then 8 else 0
  {
    assert gpr >= 8 ==> gpr == (gpr & 7) + 8;
    assert gpr < 8 ==> gpr == gpr & 7;
  }

  lemma {:induction false} LegacyRexBs(legacy: seq<bv8>)
    requires forall i | 0 <= i < |legacy| :: IsLegacyPrefix(legacy[i])
    ensures RexBs(legacy) == 0 <==> forall i | 0 <= i < |legacy| :: legacy[i] !in {0x65, 0x67, 0xf3}
  {
    if legacy != [] {
      var k := |legacy| - 1;
      LegacyRexBs(legacy[..k]);
      assert LooksLikeRexB(legacy[k]) <==> legacy[k] in {0x65, 0x67, 0xf3};
    }
  }

  /** Decoding gives back the debug register and the length always, and the general register exactly if none of the
      legacy prefixes is 0x65, 0x67 or 0xf3, which pass the test for REX.B. */
  lemma DecodeEncode(legacy: seq<bv8>, rex: bool, wx: bv8, opcode: bv8, dr: bv8, gpr: bv8)
    requires dr < 8 && gpr < 16 && (gpr >= 8 ==> rex)
    requires forall i | 0 <= i < |legacy| :: IsLegacyPrefix(legacy[i])
    ensures var code := Encode(legacy, rex, wx, opcode, dr, gpr);
            var ip := |code| - 3;
            && FirstOpcode(code, ip) && code[ip + 1] == opcode
            && DecodedDr(code, ip) == dr as nat
            && (DecodedGpr(code, ip) == gpr as nat <==>
                forall i | 0 <= i < |legacy| :: legacy[i] !in {0x65, 0x67, 0xf3})
  {
    var rexes := if rex then [0x40 | (wx & 0x0a) | (gpr >> 3)] else [];
    ModRmFields(dr, gpr);
    RexFields(wx, gpr);
    LegacyRexBs(legacy);
    GprParts(gpr);
    CodeParts(legacy, rexes, opcode, 0xc0 | (dr << 3) | (gpr & 7));
  }

  lemma CodeParts(legacy: seq<bv8>, rexes: seq<bv8>, opcode: bv8, modrm: bv8)
    requires |rexes| <= 1 && (rexes != [] ==> rexes[0] != 0x0f)
    requires forall i | 0 <= i < |legacy| :: IsLegacyPrefix(legacy[i])
    ensures var code := legacy + rexes + [0x0f, opcode, modrm];
            var ip := |code| - 3;
            && FirstOpcode(code, ip) && code[ip + 1] == opcode && code[ip + 2] == modrm
            && RexBs(code[..ip]) == RexBs(legacy) + if rexes != [] && LooksLikeRexB(rexes[0]) then 1 else 0
  {
    var prefixes := legacy + rexes;
    var code := prefixes + [0x0f, opcode, modrm];
    assert code[..|code| - 3] == prefixes;
    if rexes == [] {
      assert prefixes == legacy;
    } else {
      assert prefixes[..|legacy|] == legacy;
    }
  }

  /** For instance `gs mov rax, dr0` is taken for an access to r8. */
  lemma SegmentPrefixMisread()
    ensures var code := Encode([0x65], false, 0, 0x21, 0, 0);
            && code == [0x65, 0x0f, 0x21, 0xc0] && FirstOpcode(code, 1)
            && DecodedDr(code, 1) == 0 && DecodedGpr(code, 1) == 8
  {
    var code := Encode([0x65], false, 0, 0x21, 0, 0);
    assert code == [0x65, 0x0f, 0x21, 0xc0];
    assert code[..1] == [0x65] && [0x65][..0] == [];
    assert LooksLikeRexB(0x65);
  }

  // ----- whole runs -----

  datatype State = State(guest: Registers, bps: seq<Breakpoint>, hw: Registers)

  datatype Op =
    | Write(i: nat, value: int)          // the guest writes debug register i
    | Read(i: nat, value: int)           // the guest reads it and gets this value
    | Edit(b: nat, bp: Breakpoint)       // the debugger sets or clears a breakpoint

  predicate ValidState(s: State) {
    Complete(s.guest) && Complete(s.hw) && |s.bps| == SLOTS
  }

  /** One operation: what it does to the guest's registers and the breakpoints; after a guest access the hardware holds
      the overlay, after an edit the hardware is as before. */
  ghost predicate Steps(s: State, op: Op, s': State) {
    && ValidState(s) && ValidState(s')
    && match op
       case Write(i, value) =>
         && i < SLOTS && s'.guest == s.guest.(address := s.guest.address[i := value])
         && s'.bps == s.bps && Placed(s'.guest, s'.bps, s'.hw)
       case Read(i, value) =>
         && i < SLOTS && value == s.guest.address[i] && s'.guest == s.guest
         && s'.bps == s.bps && Placed(s'.guest, s'.bps, s'.hw)
       case Edit(b, bp) =>
         b < SLOTS && s'.guest == s.guest && s'.bps == s.bps[b := bp] && s'.hw == s.hw
  }

  ghost predicate IsRun(states: seq<State>, ops: seq<Op>) {
    && |states| == |ops| + 1
    && ValidState(states[0]) && states[0].guest == states[0].hw
    && forall k | 0 <= k < |ops| :: Steps(states[k], ops[k], states[k + 1])
  }

  function LastWritten(ops: seq<Op>, i: nat, initial: int): int {
    if ops == [] then initial
    else
      var op := ops[|ops| - 1];
      if op.Write? && op.i == i then op.value else LastWritten(ops[..|ops| - 1], i, initial)
  }

  /** The slots that the debugger uses in hardware although the guest has them disabled. */
  function DebuggerSlots(guest: Registers, hw: Registers): set<nat>
    requires Complete(guest) && Complete(hw)
  {
    set i: nat | i < SLOTS && !guest.control[i].local && !guest.control[i].global &&
                 (hw.control[i].local || hw.control[i].global)
  }

  /** Enabled slots of the guest are untouched. */
  lemma GuestSlotsUntouched(guest: Registers, bps: seq<Breakpoint>, hw: Registers)
    requires Complete(guest) && Complete(hw) && Placed(guest, bps, hw)
    ensures forall i | 0 <= i < SLOTS && (guest.control[i].local || guest.control[i].global) ::
              hw.address[i] == guest.address[i] && hw.control[i] == guest.control[i]
  {
    FreeSlotsAre(guest.control, |guest.control|);
    forall i | 0 <= i < SLOTS && (guest.control[i].local || guest.control[i].global)
      ensures hw.address[i] == guest.address[i] && hw.control[i] == guest.control[i]
    {
      assert i !in FreeSlots(guest.control, |guest.control|);
      assert Untouched(guest, hw, i);
    }
  }

  /** The slots the debugger uses are the first free ones. */
  lemma UsedSlots(guest: Registers, bps: seq<Breakpoint>, hw: Registers)
    requires Complete(guest) && Complete(hw) && Placed(guest, bps, hw)
    ensures var free, active := FreeSlots(guest.control, |guest.control|), Active(bps, |bps|);
            DebuggerSlots(guest, hw) == Elements(free[..Min(|free|, |active|)])
  {
    var free, active := FreeSlots(guest.control, |guest.control|), Active(bps, |bps|);
    var n := Min(|free|, |active|);
    var used, armed := free[..n], active[..n];
    FreeSlotsAre(guest.control, |guest.control|);
    forall i | 0 <= i < SLOTS
      ensures i in DebuggerSlots(guest, hw) <==> i in used
    {
      if i in used {
        var k :| 0 <= k < n && used[k] == i;
        assert Arms(hw, used[k], bps[armed[k]]);
      } else {
        assert Untouched(guest, hw, i);
      }
    }
  }

  /** As many breakpoints are armed as there are active ones and free slots. */
  lemma ArmedCount(guest: Registers, bps: seq<Breakpoint>, hw: Registers)
    requires Complete(guest) && Complete(hw) && Placed(guest, bps, hw)
    ensures |DebuggerSlots(guest, hw)| == Min(|FreeSet(guest)|, |ActiveSet(bps)|)
  {
    var free, active := FreeSlots(guest.control, |guest.control|), Active(bps, |bps|);
    FreeSlotsAre(guest.control, |guest.control|);
    UsedSlots(guest, bps, hw);
    Distinct(free[..Min(|free|, |active|)]);
    SetSizes(guest, bps);
  }

  /** Slot i watches what the breakpoint asks for: its address, locally enabled, with its type and length. */
  predicate Watches(hw: Registers, i: nat, bp: Breakpoint)
    requires Complete(hw) && i < SLOTS
  {
    && hw.address[i] == bp.address
    && hw.control[i].local && !hw.control[i].global
    && hw.control[i].rw == bp.breakType && hw.control[i].len == bp.breakLength
  }

  /** If the guest leaves enough slots free, every active breakpoint is watched by one of them. */
  lemma AllArmed(guest: Registers, bps: seq<Breakpoint>, hw: Registers, b: nat)
    requires Complete(guest) && Complete(hw) && Placed(guest, bps, hw) && b < |bps| && bps[b].active
    requires |ActiveSet(bps)| <= |FreeSet(guest)|
    ensures exists i :: 0 <= i < SLOTS && !guest.control[i].local && !guest.control[i].global && Watches(hw, i, bps[b])
  {
    var free, active := FreeSlots(guest.control, |guest.control|), Active(bps, |bps|);
    FreeSlotsAre(guest.control, |guest.control|);
    ActiveAre(bps, |bps|);
    SetSizes(guest, bps);
    var n := |active|;
    var k :| 0 <= k < n && active[k] == b;
    assert Arms(hw, free[..n][k], bps[active[..n][k]]);
  }

  /** The slots the guest leaves free, and the breakpoints that are set. */
  function FreeSet(guest: Registers): set<nat>
    requires Complete(guest)
  {
    set i: nat | i < SLOTS && !guest.control[i].local && !guest.control[i].global
  }

  function ActiveSet(bps: seq<Breakpoint>): set<nat> {
    set b: nat | b < |bps| && bps[b].active
  }

  lemma SetSizes(guest: Registers, bps: seq<Breakpoint>)
    requires Complete(guest)
    ensures |FreeSlots(guest.control, |guest.control|)| == |FreeSet(guest)|
    ensures |Active(bps, |bps|)| == |ActiveSet(bps)|
  {
    var free, active := FreeSlots(guest.control, |guest.control|), Active(bps, |bps|);
    FreeSlotsAre(guest.control, |guest.control|);
    ActiveAre(bps, |bps|);
    Distinct(free);
    Distinct(active);
    assert Elements(free) == FreeSet(guest);
    assert Elements(active) == ActiveSet(bps);
  }

  /** Every slot the debugger uses watches an active breakpoint, and different slots watch different ones. */
  lemma UsedSlotsWatch(guest: Registers, bps: seq<Breakpoint>, hw: Registers, i: nat, j: nat) returns (b: nat, b': nat)
    requires Complete(guest) && Complete(hw) && Placed(guest, bps, hw)
    requires i in DebuggerSlots(guest, hw) && j in DebuggerSlots(guest, hw) && i != j
    ensures b < |bps| && b' < |bps| && b != b' && bps[b].active && bps[b'].active
    ensures Watches(hw, i, bps[b]) && Watches(hw, j, bps[b'])
  {
    var k := SlotRank(guest, bps, hw, i);
    var k' := SlotRank(guest, bps, hw, j);
    ActiveAre(bps, |bps|);
    b, b' := Active(bps, |bps|)[k], Active(bps, |bps|)[k'];
  }

  lemma SlotRank(guest: Registers, bps: seq<Breakpoint>, hw: Registers, i: nat) returns (k: nat)
    requires Complete(guest) && Complete(hw) && Placed(guest, bps, hw) && i in DebuggerSlots(guest, hw)
    ensures var free, active := FreeSlots(guest.control, |guest.control|), Active(bps, |bps|);
            k < |free| && k < |active| && free[k] == i && active[k] < |bps| && Watches(hw, i, bps[active[k]])
  {
    var free, active := FreeSlots(guest.control, |guest.control|), Active(bps, |bps|);
    var n := Min(|free|, |active|);
    UsedSlots(guest, bps, hw);
    assert i in free[..n];
    k :| 0 <= k < n && free[..n][k] == i;
    assert Arms(hw, free[..n][k], bps[active[..n][k]]);
  }

  function Elements(s: seq<nat>): set<nat> {
    set i | i in s
  }

  lemma {:induction false} Distinct(s: seq<nat>)
    requires forall j, k | 0 <= j < k < |s| :: s[j] < s[k]
    ensures |Elements(s)| == |s|
  {
    if s != [] {
      var k := |s| - 1;
      var front := s[..k];
      Distinct(front);
      assert s == front + [s[k]];
      assert s[k] !in front;
      assert Elements(s) == Elements(front) + {s[k]};
    }
  }

  /** Over every sequence of guest accesses and breakpoint edits: the guest reads what it last wrote, and the slots
      it has enabled keep its own address and control in hardware at every moment. */
  lemma {:induction false} GuestSeesItsOwn(states: seq<State>, ops: seq<Op>, k: nat)
    requires IsRun(states, ops) && k <= |ops|
    ensures var s := states[k];
            && ValidState(s)
            && s.guest.control == states[0].guest.control
            && (forall i | 0 <= i < SLOTS :: s.guest.address[i] == LastWritten(ops[..k], i, states[0].guest.address[i]))
            && (forall i | 0 <= i < SLOTS && (s.guest.control[i].local || s.guest.control[i].global) ::
                  s.hw.address[i] == s.guest.address[i] && s.hw.control[i] == s.guest.control[i])
            && (k < |ops| && ops[k].Read? ==>
                  && ops[k].i < SLOTS
                  && ops[k].value == LastWritten(ops[..k], ops[k].i, states[0].guest.address[ops[k].i]))
  {
    if k > 0 {
      GuestSeesItsOwn(states, ops, k - 1);
      assert Steps(states[k - 1], ops[k - 1], states[k]);
      assert ops[..k][..k - 1] == ops[..k - 1];
      if !ops[k - 1].Edit? {
        GuestSlotsUntouched(states[k].guest, states[k].bps, states[k].hw);
      }
    }
    if k < |ops| {
      assert Steps(states[k], ops[k], states[k + 1]);
    }
  }
}
