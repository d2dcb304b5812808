/**
  The double buffer of one CPU's trace: the hardware fills one set of buffer, MDL, header and lookup table while the
  writer thread saves the other; a swapper queues the DPC that exchanges the two sets. Every store and every event
  operation is a step of its own, and hardware, DPC, writer and swapper interleave freely.  The headers and lookup
  tables are those of TopaTable: the hardware finds its output pages through the chain, and the writer computes the
  size from the table and the mask that the DPC read.
 */
module TopaSwap {
  import opened TopaTable
  import Arithmetic

  type Byte = int

  /** The two sets that setupToPA made. */
  datatype Id = A | B

  function Other(x: Id): Id {
    if x == A then B else A
  }

  /** A pointer pair of ProcessorInfo: the one in use and the one marked 2. */
  datatype Pair = Pair(one: Id, two: Id)

  function Swapped(p: Pair): Pair {
    Pair(p.two, p.one)
  }

  /** SwitchToPABuffer. `ctl` is the control register as it was read on entry. */
  datatype Dpc =
    | NotQueued
    | Begin                              // decide whether to flush
    | Disable(ctl: bool)                 // RTIT_CTL = 0
    | ClearReady(ctl: bool)
    | SwapBuffer(ctl: bool)
    | SwapMdl(ctl: bool)
    | SwapHeader(ctl: bool)
    | SwapLookup(ctl: bool)
    | ReadBase(ctl: bool)                // CurrentSaveOutputBase
    | ReadMask(ctl: bool)                // CurrentSaveOutputMask
    | SetInitiate(ctl: bool)
    | WriteBase(ctl: bool)               // OUTPUT_BASE = header
    | WriteMask(ctl: bool)               // OUTPUT_MASK_PTRS = 0
    | Restart(ctl: bool)                 // RTIT_CTL = ctl

  /** WriteThreadForSpecificCPU. */
  datatype Writer =
    | WaitInitiate
    | LookUp
    | Save(from: Id, size: nat, done: nat)
    | SetReady

  /** WaitForWriteToFinishAndSwapWriteBuffers for this CPU. */
  datatype Swapper =
    | Idle
    | WaitReady
    | Flush                              // DPC queued: KeFlushQueuedDpcs

  /** The four pairs that have to move together. */
  datatype Sets = Sets(buffer: Pair, mdl: Pair, header: Pair, lookup: Pair)

  /** The contents of the two output buffers. */
  datatype Memory = Memory(a: seq<Byte>, b: seq<Byte>)

  function Get(m: Memory, x: Id): seq<Byte> {
    if x == A then m.a else m.b
  }

  function Set(m: Memory, x: Id, bytes: seq<Byte>): (m': Memory)
    ensures Get(m', x) == bytes && Get(m', Other(x)) == Get(m, Other(x))
  {
    if x == A then m.(a := bytes) else m.(b := bytes)
  }

  /** A header and its lookup table, for a buffer of so many pages. */
  datatype Chain = Chain(r: seq<Entry>, lookup: map<Address, nat>, pages: nat)

  datatype Chains = Chains(a: Chain, b: Chain)

  function ChainOf(cs: Chains, x: Id): Chain {
    if x == A then cs.a else cs.b
  }

  /** As SetupToPA leaves it. */
  ghost predicate Built(c: Chain) {
    c.pages > 0 && Layout(c.r, c.pages) && IndexOfTables(c.lookup, LastIndex(c.pages) / TABLE)
  }

  /** The trace hardware: whether it runs, which header it started at and how many bytes it has put out since. */
  datatype Hardware = Hardware(enabled: bool, base: Id, position: nat)

  /** The output page the hardware is in; in a full buffer it stays at the end of the last one. */
  function PageAt(c: Chain, position: nat): nat {
    if position / PAGE < c.pages || c.pages == 0 then position / PAGE else c.pages - 1
  }

  function OffsetAt(c: Chain, position: nat): int {
    position - PAGE * PageAt(c, position)
  }

  /** IA32_RTIT_OUTPUT_BASE: the table the hardware is in. */
  function OutputBase(c: Chain, position: nat): Address {
    Table(SlotOf(c.r, PageAt(c, position)).table)
  }

  /** IA32_RTIT_OUTPUT_MASK_PTRS. */
  function OutputMask(c: Chain, position: nat): nat {
    if OffsetAt(c, position) >= 0 then MaskPtrs(SlotOf(c.r, PageAt(c, position)).entry, OffsetAt(c, position)) else 0
  }

  datatype Registers = Registers(base: Address, mask: nat)

  function ReadRegisters(c: Chain, position: nat): Registers {
    Registers(OutputBase(c, position), OutputMask(c, position))
  }

  /** Where in the output buffer the next byte goes: the page the entry names, at the offset. */
  function Target(c: Chain, position: nat): int {
    var p := SlotOf(c.r, PageAt(c, position));
    var j := TABLE * p.table + p.entry;
    if j < |c.r| && c.r[j].address.OutputPage? then PAGE * c.r[j].address.k + OffsetAt(c, position) else -1
  }

  lemma PositionParts(c: Chain, position: nat)
    requires c.pages > 0 && position <= PAGE * c.pages
    ensures PageAt(c, position) < c.pages && 0 <= OffsetAt(c, position) <= PAGE
    ensures PAGE * PageAt(c, position) + OffsetAt(c, position) == position
  {
  }

  /** The entry the hardware is at when it fills page k names that page. */
  predicate NamesPage(c: Chain, k: nat) {
    var p := SlotOf(c.r, k);
    var j := TABLE * p.table + p.entry;
    j < |c.r| && c.r[j].address == OutputPage(k)
  }

  lemma ChainNamesPage(c: Chain, k: nat)
    requires Built(c) && k < c.pages
    ensures NamesPage(c, k)
  {
    ChainVisitsPages(c.r, c.pages, k);
  }

  lemma TargetInPage(c: Chain, position: nat)
    requires c.pages > 0 && position <= PAGE * c.pages && NamesPage(c, PageAt(c, position))
    ensures Target(c, position) == position
  {
    PositionParts(c, position);
  }

  /** The hardware's byte lands at its flat position. */
  lemma TargetIsPosition(c: Chain, position: nat)
    requires Built(c) && position <= PAGE * c.pages
    ensures Target(c, position) == position
  {
    PositionParts(c, position);
    ChainNamesPage(c, PageAt(c, position));
    TargetInPage(c, position);
  }

  /** The hardware stays inside the buffer if and only if its size is a multiple of the page size: otherwise the last
      entry also covers what lies behind the buffer. */
  lemma OutputInsideBuffer(c: Chain, bufferSize: nat)
    requires Built(c) && c.pages == PageCount(bufferSize)
    ensures (forall position: nat | position < PAGE * c.pages :: Target(c, position) < bufferSize) <==>
            bufferSize % PAGE == 0
  {
    PagesCover(bufferSize);
    forall position: nat | position < PAGE * c.pages ensures Target(c, position) == position {
      TargetIsPosition(c, position);
    }
    if bufferSize % PAGE != 0 {
      assert Target(c, bufferSize) == bufferSize;
    }
  }

  lemma PagesCover(bufferSize: nat)
    ensures PAGE * PageCount(bufferSize) >= bufferSize
    ensures PAGE * PageCount(bufferSize) == bufferSize <==> bufferSize % PAGE == 0
  {
    var q, r := bufferSize / PAGE, bufferSize % PAGE;
    if r == 0 {
      Arithmetic.DivUnique(bufferSize + PAGE - 1, PAGE, q, PAGE - 1);
    } else {
      Arithmetic.DivUnique(bufferSize + PAGE - 1, PAGE, q + 1, r - 1);
    }
  }

  /** The writer's size expression on what the registers held is the flat position. */
  lemma RegistersGiveSize(c: Chain, position: nat)
    requires Built(c) && position <= PAGE * c.pages
    ensures SizeIs(c, OutputBase(c, position), OutputMask(c, position), position)
  {
    PositionParts(c, position);
    SavedSizeIsFlatOffset(c.r, c.lookup, c.pages, PageAt(c, position), OffsetAt(c, position));
  }

  predicate SizeIs(c: Chain, table: Address, mask: nat, bytes: nat) {
    SavedSize(c.lookup, table, mask) == Known(bytes)
  }

  /** CurrentSaveOutputBase, which is the address of a table of one of the sets, and CurrentSaveOutputMask.  `bytes` is
      the position at the time, which no step uses. */
  datatype Record = Record(base: Id, table: Address, mask: nat, bytes: nat)

  /** `trace` is every byte the hardware ever put out and `saved` what the writer put in the file. */
  datatype State = State(
    sets: Sets, memory: Memory, hw: Hardware, record: Record, ready: bool, initiate: bool,
    dpc: Dpc, writer: Writer, swapper: Swapper,
    trace: seq<Byte>, saved: seq<Byte>, notFound: bool)

  datatype Action =
    | Emit(b: Byte)                      // the hardware writes a byte
    | Toggle                             // tracing of this CPU is paused or resumed
    | DpcStep(flush: bool)
    | WriterStep
    | SwapperStep

  function Initial(garbage: Memory): State {
    var p := Pair(A, B);
    State(Sets(p, p, p, p), garbage, Hardware(true, A, 0), Record(A, Table(0), 0, 0), true, false,
          NotQueued, WaitInitiate, Idle, [], [], false)
  }

  function Put(m: seq<Byte>, i: nat, b: Byte): seq<Byte> {
    if i < |m| then m[i := b] else m + [b]
  }

  /** A byte, while the hardware runs and the buffer is not full. */
  function EmitNext(cs: Chains, s: State, b: Byte): State {
    var c := ChainOf(cs, s.hw.base);
    var i := Target(c, s.hw.position);
    if s.hw.enabled && s.hw.position < PAGE * c.pages && i >= 0
    then
      s.(memory := Set(s.memory, s.hw.base, Put(Get(s.memory, s.hw.base), i, b)),
         hw := s.hw.(position := s.hw.position + 1),
         trace := s.trace + [b])
    else s
  }

  function DpcNext(s: State, flush: bool, regs: Registers): State {
    match s.dpc
    case NotQueued => s
    case Begin => s.(dpc := if flush then Disable(s.hw.enabled) else NotQueued)
    case Disable(ctl) => s.(hw := s.hw.(enabled := false), dpc := ClearReady(ctl))
    case ClearReady(ctl) => s.(ready := false, dpc := SwapBuffer(ctl))
    case SwapBuffer(ctl) => s.(sets := s.sets.(buffer := Swapped(s.sets.buffer)), dpc := SwapMdl(ctl))
    case SwapMdl(ctl) => s.(sets := s.sets.(mdl := Swapped(s.sets.mdl)), dpc := SwapHeader(ctl))
    case SwapHeader(ctl) => s.(sets := s.sets.(header := Swapped(s.sets.header)), dpc := SwapLookup(ctl))
    case SwapLookup(ctl) => s.(sets := s.sets.(lookup := Swapped(s.sets.lookup)), dpc := ReadBase(ctl))
    case ReadBase(ctl) =>
      s.(record := s.record.(base := s.hw.base, table := regs.base), dpc := ReadMask(ctl))
    case ReadMask(ctl) =>
      s.(record := s.record.(mask := regs.mask, bytes := s.hw.position), dpc := SetInitiate(ctl))
    case SetInitiate(ctl) => s.(initiate := true, dpc := WriteBase(ctl))
    case WriteBase(ctl) => s.(hw := s.hw.(base := s.sets.header.one), dpc := WriteMask(ctl))
    case WriteMask(ctl) => s.(hw := s.hw.(position := 0), dpc := Restart(ctl))
    case Restart(ctl) => s.(hw := s.hw.(enabled := ctl), dpc := NotQueued)
  }

  /** The lookup in the table of the set that is now marked 2: the other set's tables are not in it. */
  function SizeToSave(cs: Chains, s: State): Size {
    if s.sets.lookup.two == s.record.base
    then SavedSize(ChainOf(cs, s.record.base).lookup, s.record.table, s.record.mask)
    else Unknown
  }

  function WriterNext(cs: Chains, s: State): State {
    match s.writer
    case WaitInitiate => if s.initiate then s.(initiate := false, writer := LookUp) else s
    case LookUp =>
      (match SizeToSave(cs, s)
       case Unknown => s.(notFound := true, writer := SetReady)
       case Known(size) => s.(writer := if size > 0 then Save(s.sets.buffer.two, size, 0) else SetReady))
    case Save(from, size, done) =>
      if done < size && done < |Get(s.memory, from)|
      then s.(saved := s.saved + [Get(s.memory, from)[done]], writer := Save(from, size, done + 1))
      else s.(writer := SetReady)
    case SetReady => s.(ready := true, writer := WaitInitiate)
  }

  function SwapperNext(s: State): State {
    match s.swapper
    case Idle => s.(swapper := WaitReady)
    case WaitReady => if s.ready && s.dpc == NotQueued then s.(dpc := Begin, swapper := Flush) else s
    case Flush => if s.dpc == NotQueued then s.(swapper := Idle) else s
  }

  function ToggleNext(s: State): State {
    if s.dpc == NotQueued then s.(hw := s.hw.(enabled := !s.hw.enabled)) else s
  }

  function Step(cs: Chains, s: State, a: Action): State {
    match a
    case Emit(b) => EmitNext(cs, s, b)
    case Toggle => ToggleNext(s)
    case DpcStep(flush) => DpcNext(s, flush, ReadRegisters(ChainOf(cs, s.hw.base), s.hw.position))
    case WriterStep => WriterNext(cs, s)
    case SwapperStep => SwapperNext(s)
  }

  function Run(cs: Chains, s: State, actions: seq<Action>): State {
    if actions == [] then s else Step(cs, Run(cs, s, actions[..|actions| - 1]), actions[|actions| - 1])
  }

  // ----- the invariant -----

  /** Both orders of the two sets. */
  function Straight(x: Id): Pair {
    Pair(x, Other(x))
  }

  function Crossed(x: Id): Pair {
    Pair(Other(x), x)
  }

  /** How the four pairs stand while the hardware uses set x: straight, except for those that this DPC has exchanged. */
  function SetsDuring(d: Dpc, x: Id): Sets {
    var p, q := Straight(x), Crossed(x);
    match d
    case SwapMdl(_) => Sets(q, p, p, p)
    case SwapHeader(_) => Sets(q, q, p, p)
    case SwapLookup(_) => Sets(q, q, q, p)
    case ReadBase(_) => Sets(q, q, q, q)
    case ReadMask(_) => Sets(q, q, q, q)
    case SetInitiate(_) => Sets(q, q, q, q)
    case WriteBase(_) => Sets(q, q, q, q)
    case NotQueued => Sets(p, p, p, p)
    case Begin => Sets(p, p, p, p)
    case Disable(_) => Sets(p, p, p, p)
    case ClearReady(_) => Sets(p, p, p, p)
    case SwapBuffer(_) => Sets(p, p, p, p)
    case WriteMask(_) => Sets(p, p, p, p)
    case Restart(_) => Sets(p, p, p, p)
  }

  /** The four pairs move together. */
  predicate Together(s: State) {
    s.sets == SetsDuring(s.dpc, s.hw.base)
  }

  /** The writer has a set to save, or is about to be told so. */
  predicate Saving(s: State) {
    s.initiate || s.writer != WaitInitiate
  }

  /** The save has been started and the hardware has not been moved on yet. */
  predicate Turning(d: Dpc) {
    d.WriteBase? || d.WriteMask?
  }

  /** From clearing the ready event until telling the writer. */
  predicate InExchange(d: Dpc) {
    d.SwapBuffer? || d.SwapMdl? || d.SwapHeader? || d.SwapLookup? || d.ReadBase? || d.ReadMask? || d.SetInitiate?
  }

  predicate BeforeExchange(d: Dpc) {
    d.Begin? || d.Disable? || d.ClearReady?
  }

  predicate EventsOk(s: State) {
    && (s.ready ==> !Saving(s))
    && (s.initiate ==> s.writer == WaitInitiate)
    && (!s.ready ==> Saving(s) || InExchange(s.dpc))
    && (InExchange(s.dpc) ==> !s.ready && !Saving(s))
    && (BeforeExchange(s.dpc) ==> s.ready)
    && (s.dpc != NotQueued ==> s.swapper == Flush)
    && (!s.dpc.NotQueued? && !s.dpc.Begin? && !s.dpc.Disable? ==> !s.hw.enabled)
  }

  /** The set to be saved: the one recorded, which until the hardware is moved is still the hardware's base. */
  predicate RecordOk(cs: Chains, s: State) {
    var c := ChainOf(cs, s.hw.base);
    && !s.notFound
    && (s.dpc.ReadMask? ==> s.record.base == s.hw.base && s.record.table == OutputBase(c, s.hw.position))
    && (s.dpc.SetInitiate? ==> s.record.base == s.hw.base && s.record.bytes == s.hw.position)
    && (s.dpc.SetInitiate? || Saving(s) ==>
          SizeIs(ChainOf(cs, s.record.base), s.record.table, s.record.mask, s.record.bytes))
    && (Saving(s) ==> s.record.base == (if s.dpc.WriteBase? then s.hw.base else Other(s.hw.base)))
  }

  predicate BoundsOk(cs: Chains, s: State) {
    && (!Turning(s.dpc) ==>
          s.hw.position <= |Get(s.memory, s.hw.base)| && s.hw.position <= PAGE * ChainOf(cs, s.hw.base).pages)
    && (Saving(s) ==> s.record.bytes <= |Get(s.memory, s.record.base)|)
    && (s.writer.Save? ==>
          s.writer.from == s.record.base && s.writer.size == s.record.bytes && s.writer.done <= s.record.bytes)
  }

  function Slice(m: seq<Byte>, from: nat, to: nat): seq<Byte> {
    if from <= to <= |m| then m[from..to] else []
  }

  /** Bytes handed to the writer and not saved yet. */
  function Pending(s: State): seq<Byte> {
    if s.initiate || s.writer == LookUp then Slice(Get(s.memory, s.record.base), 0, s.record.bytes)
    else if s.writer.Save? then Slice(Get(s.memory, s.record.base), s.writer.done, s.writer.size)
    else []
  }

  /** Bytes in the buffer being filled; none between starting a save and rewinding the hardware. */
  function Filling(s: State): seq<Byte> {
    if Turning(s.dpc) then [] else Slice(Get(s.memory, s.hw.base), 0, s.hw.position)
  }

  /** Nothing is lost, doubled or out of order. */
  predicate Accounted(s: State) {
    s.trace == s.saved + Pending(s) + Filling(s)
  }

  ghost predicate Inv(cs: Chains, s: State) {
    && Built(cs.a) && Built(cs.b)
    && Together(s) && EventsOk(s) && RecordOk(cs, s) && BoundsOk(cs, s) && Accounted(s)
  }

  lemma EmitKeepsInv(cs: Chains, s: State, b: Byte)
    requires Inv(cs, s)
    ensures Inv(cs, EmitNext(cs, s, b))
  {
    if s.hw.enabled && s.hw.position < PAGE * ChainOf(cs, s.hw.base).pages {
      TargetIsPosition(ChainOf(cs, s.hw.base), s.hw.position);
      EmitAppends(cs, s, b);
    }
  }

  lemma EmitAppends(cs: Chains, s: State, b: Byte)
    requires Together(s) && EventsOk(s) && RecordOk(cs, s) && BoundsOk(cs, s) && Accounted(s)
    requires s.hw.enabled && s.hw.position < PAGE * ChainOf(cs, s.hw.base).pages
    requires Target(ChainOf(cs, s.hw.base), s.hw.position) == s.hw.position
    ensures var s' := EmitNext(cs, s, b);
            Together(s') && EventsOk(s') && RecordOk(cs, s') && BoundsOk(cs, s') && Accounted(s')
  {
    var s' := EmitNext(cs, s, b);
    assert Filling(s') == Filling(s) + [b];
    assert Pending(s') == Pending(s);
    assert s.saved + Pending(s) + (Filling(s) + [b]) == s.saved + Pending(s) + Filling(s) + [b];
  }

  lemma DpcKeepsTogether(s: State, flush: bool, regs: Registers)
    requires Together(s)
    ensures Together(DpcNext(s, flush, regs))
  {
    if s.dpc.SwapBuffer? || s.dpc.SwapMdl? || s.dpc.SwapHeader? || s.dpc.SwapLookup? {
      SwapKeepsTogether(s, flush, regs);
    } else if s.dpc.NotQueued? || BeforeExchange(s.dpc) {
      EntryKeepsTogether(s, flush, regs);
    } else {
      HandOverKeepsTogether(s, flush, regs);
    }
  }

  lemma EntryKeepsTogether(s: State, flush: bool, regs: Registers)
    requires Together(s) && (s.dpc.NotQueued? || BeforeExchange(s.dpc))
    ensures Together(DpcNext(s, flush, regs))
  {
    match s.dpc
    case NotQueued =>
    case Begin =>
    case Disable(_) =>
    case ClearReady(_) =>
  }

  lemma SwapKeepsTogether(s: State, flush: bool, regs: Registers)
    requires Together(s) && (s.dpc.SwapBuffer? || s.dpc.SwapMdl? || s.dpc.SwapHeader? || s.dpc.SwapLookup?)
    ensures Together(DpcNext(s, flush, regs))
  {
    match s.dpc
    case SwapBuffer(_) =>
    case SwapMdl(_) =>
    case SwapHeader(_) =>
    case SwapLookup(_) =>
  }

  /** Writing the hardware's base makes crossed pairs straight. */
  lemma HandOverKeepsTogether(s: State, flush: bool, regs: Registers)
    requires Together(s)
    requires s.dpc.ReadBase? || s.dpc.ReadMask? || s.dpc.SetInitiate? ||
             s.dpc.WriteBase? || s.dpc.WriteMask? || s.dpc.Restart?
    ensures Together(DpcNext(s, flush, regs))
  {
    match s.dpc
    case ReadBase(_) =>
    case ReadMask(_) =>
    case SetInitiate(_) =>
    case WriteBase(_) =>
    case WriteMask(_) =>
    case Restart(_) =>
  }

  lemma DpcKeepsEvents(s: State, flush: bool, regs: Registers)
    requires EventsOk(s)
    ensures EventsOk(DpcNext(s, flush, regs))
  {
  }

  lemma DpcKeepsBounds(cs: Chains, s: State, flush: bool, regs: Registers)
    requires Together(s) && EventsOk(s) && RecordOk(cs, s) && BoundsOk(cs, s)
    ensures BoundsOk(cs, DpcNext(s, flush, regs))
  {
  }

  /** What the DPC reads from the registers is what the writer needs. */
  lemma DpcKeepsRecord(cs: Chains, s: State, flush: bool, regs: Registers)
    requires Together(s) && EventsOk(s) && RecordOk(cs, s)
    requires s.dpc.ReadBase? ==> regs == ReadRegisters(ChainOf(cs, s.hw.base), s.hw.position)
    requires s.dpc.ReadMask? ==> SizeIs(ChainOf(cs, s.hw.base), s.record.table, regs.mask, s.hw.position)
    ensures RecordOk(cs, DpcNext(s, flush, regs))
  {
  }

  /** Telling the writer moves the filled bytes to the pending ones; no other step of the DPC moves bytes. */
  lemma DpcKeepsBytes(cs: Chains, s: State, flush: bool, regs: Registers)
    requires Together(s) && EventsOk(s) && RecordOk(cs, s) && BoundsOk(cs, s) && Accounted(s)
    ensures Accounted(DpcNext(s, flush, regs))
  {
    var s' := DpcNext(s, flush, regs);
    if s.dpc.SetInitiate? {
      assert Pending(s) == [] && Pending(s') == Filling(s) && Filling(s') == [];
    } else {
      assert Pending(s') == Pending(s) && Filling(s') == Filling(s);
    }
  }

  lemma DpcKeepsInv(cs: Chains, s: State, flush: bool, regs: Registers)
    requires Inv(cs, s) && regs == ReadRegisters(ChainOf(cs, s.hw.base), s.hw.position)
    ensures Inv(cs, DpcNext(s, flush, regs))
  {
    DpcKeepsTogether(s, flush, regs);
    DpcKeepsEvents(s, flush, regs);
    DpcKeepsBounds(cs, s, flush, regs);
    DpcKeepsBytes(cs, s, flush, regs);
    if s.dpc.ReadMask? {
      RegistersGiveSize(ChainOf(cs, s.hw.base), s.hw.position);
    }
    DpcKeepsRecord(cs, s, flush, regs);
  }

  /** The lookup finds the recorded table, and the size is the number of bytes the hardware had put out. */
  lemma LookUpFinds(cs: Chains, s: State)
    requires Inv(cs, s) && s.writer == LookUp
    ensures SizeToSave(cs, s) == Known(s.record.bytes) && s.sets.buffer.two == s.record.base
  {
  }

  lemma LookUpKeepsInv(cs: Chains, s: State)
    requires Inv(cs, s) && s.writer == LookUp
    ensures Inv(cs, WriterNext(cs, s))
  {
    LookUpFinds(cs, s);
    var s' := WriterNext(cs, s);
    assert Pending(s') == Pending(s) && Filling(s') == Filling(s);
  }

  lemma SaveKeepsInv(cs: Chains, s: State)
    requires Inv(cs, s) && s.writer.Save?
    ensures Inv(cs, WriterNext(cs, s))
  {
    var s' := WriterNext(cs, s);
    assert Filling(s') == Filling(s);
    if s'.writer.Save? {
      assert Pending(s) == [Get(s.memory, s.record.base)[s.writer.done]] + Pending(s');
      assert s'.saved + Pending(s') == s.saved + Pending(s);
    } else {
      assert Pending(s') == Pending(s);
    }
  }

  lemma SignalKeepsInv(cs: Chains, s: State)
    requires Inv(cs, s) && (s.writer == WaitInitiate || s.writer == SetReady)
    ensures Inv(cs, WriterNext(cs, s))
  {
    var s' := WriterNext(cs, s);
    assert Pending(s') == Pending(s) && Filling(s') == Filling(s);
  }

  lemma WriterKeepsInv(cs: Chains, s: State)
    requires Inv(cs, s)
    ensures Inv(cs, WriterNext(cs, s))
  {
    match s.writer
    case WaitInitiate => SignalKeepsInv(cs, s);
    case LookUp => LookUpKeepsInv(cs, s);
    case Save(_, _, _) => SaveKeepsInv(cs, s);
    case SetReady => SignalKeepsInv(cs, s);
  }

  lemma SwapperKeepsInv(cs: Chains, s: State)
    requires Inv(cs, s)
    ensures Inv(cs, SwapperNext(s)) && Inv(cs, ToggleNext(s))
  {
  }

  lemma StepKeepsInv(cs: Chains, s: State, a: Action)
    requires Inv(cs, s)
    ensures Inv(cs, Step(cs, s, a))
  {
    match a
    case Emit(b) => EmitKeepsInv(cs, s, b);
    case DpcStep(flush) => DpcKeepsInv(cs, s, flush, ReadRegisters(ChainOf(cs, s.hw.base), s.hw.position));
    case WriterStep => WriterKeepsInv(cs, s);
    case Toggle => SwapperKeepsInv(cs, s);
    case SwapperStep => SwapperKeepsInv(cs, s);
  }

  lemma {:induction false} RunKeepsInv(cs: Chains, garbage: Memory, actions: seq<Action>)
    requires Built(cs.a) && Built(cs.b)
    ensures Inv(cs, Run(cs, Initial(garbage), actions))
    decreases |actions|
  {
    if actions != [] {
      var k := |actions| - 1;
      RunKeepsInv(cs, garbage, actions[..k]);
      StepKeepsInv(cs, Run(cs, Initial(garbage), actions[..k]), actions[k]);
    }
  }

  /** In every run: while the writer works the hardware, if it runs, fills the other buffer; outside a DPC the four
      fields name one set for the hardware and the other for the writer; and the recorded base is always found. */
  lemma BuffersDiffer(cs: Chains, garbage: Memory, actions: seq<Action>)
    requires Built(cs.a) && Built(cs.b)
    ensures var s := Run(cs, Initial(garbage), actions);
            && (s.hw.enabled && Saving(s) ==> s.hw.base != s.record.base)
            && (s.writer.Save? && s.hw.enabled ==> s.hw.base != s.writer.from)
            && (s.writer == LookUp ==>
                  && s.sets.lookup.two == s.record.base == s.sets.buffer.two == s.sets.header.two == s.sets.mdl.two
                  && SizeToSave(cs, s) == Known(s.record.bytes))
            && (s.dpc == NotQueued ==>
                  s.sets.buffer == s.sets.mdl == s.sets.header == s.sets.lookup == Pair(s.hw.base, Other(s.hw.base)))
            && !s.notFound
  {
    RunKeepsInv(cs, garbage, actions);
    var s := Run(cs, Initial(garbage), actions);
    if s.writer == LookUp {
      LookUpFinds(cs, s);
    }
  }

  lemma AccountedBytes(cs: Chains, s: State)
    requires Inv(cs, s)
    ensures s.saved <= s.trace
    ensures s.ready && s.dpc == NotQueued && s.hw.position == 0 ==> s.saved == s.trace
  {
    assert s.trace == s.saved + (Pending(s) + Filling(s));
    if s.ready && s.dpc == NotQueued && s.hw.position == 0 {
      assert Pending(s) == [] && Filling(s) == [];
    }
  }

  /** In every run the saved bytes are the beginning of the trace; what is missing is in the buffer being saved and,
      after it, in the buffer being filled. Once the writer rests and the hardware has been rewound, all is saved. */
  lemma SavedIsTrace(cs: Chains, garbage: Memory, actions: seq<Action>)
    requires Built(cs.a) && Built(cs.b)
    ensures var s := Run(cs, Initial(garbage), actions);
            && s.trace == s.saved + Pending(s) + Filling(s)
            && s.saved <= s.trace
            && (s.ready && s.dpc == NotQueued && s.hw.position == 0 ==> s.saved == s.trace)
  {
    RunKeepsInv(cs, garbage, actions);
    AccountedBytes(cs, Run(cs, Initial(garbage), actions));
  }

  // ----- tracing goes on -----

  /** Whether this CPU is traced: the control register, or what the DPC remembers of it while it has tracing off. */
  predicate Tracing(s: State) {
    match s.dpc
    case NotQueued => s.hw.enabled
    case Begin => s.hw.enabled
    case Disable(ctl) => ctl
    case ClearReady(ctl) => ctl
    case SwapBuffer(ctl) => ctl
    case SwapMdl(ctl) => ctl
    case SwapHeader(ctl) => ctl
    case SwapLookup(ctl) => ctl
    case ReadBase(ctl) => ctl
    case ReadMask(ctl) => ctl
    case SetInitiate(ctl) => ctl
    case WriteBase(ctl) => ctl
    case WriteMask(ctl) => ctl
    case Restart(ctl) => ctl
  }

  /** A swap leaves tracing as it found it; only pausing and resuming change it. */
  lemma StepKeepsTracing(cs: Chains, s: State, a: Action)
    ensures Tracing(Step(cs, s, a)) == if a.Toggle? && s.dpc == NotQueued then !Tracing(s) else Tracing(s)
  {
    match a
    case Emit(b) =>
    case Toggle =>
    case DpcStep(flush) => DpcKeepsTracing(s, flush, ReadRegisters(ChainOf(cs, s.hw.base), s.hw.position));
    case WriterStep => WriterKeepsTracing(cs, s);
    case SwapperStep =>
  }

  lemma DpcKeepsTracing(s: State, flush: bool, regs: Registers)
    ensures Tracing(DpcNext(s, flush, regs)) == Tracing(s)
  {
  }

  lemma WriterKeepsTracing(cs: Chains, s: State)
    ensures WriterNext(cs, s).hw == s.hw && WriterNext(cs, s).dpc == s.dpc
  {
  }

  /** How often tracing was paused or resumed. */
  function Toggles(cs: Chains, s: State, actions: seq<Action>): nat {
    if actions == [] then 0
    else
      var k := |actions| - 1;
      Toggles(cs, s, actions[..k]) + if actions[k].Toggle? && Run(cs, s, actions[..k]).dpc == NotQueued then 1 else 0
  }

  /** Over every run: this CPU is traced if and only if tracing was toggled an even number of times; outside a DPC
      that is the control register itself. */
  lemma TracingIsToggles(cs: Chains, garbage: Memory, actions: seq<Action>)
    ensures var s := Run(cs, Initial(garbage), actions);
            && (Tracing(s) <==> Toggles(cs, Initial(garbage), actions) % 2 == 0)
            && (s.dpc == NotQueued ==> (Tracing(s) <==> s.hw.enabled))
  {
    TracingAfter(cs, Initial(garbage), actions);
  }

  lemma {:induction false} TracingAfter(cs: Chains, s: State, actions: seq<Action>)
    ensures Tracing(Run(cs, s, actions)) == Even(Tracing(s), Toggles(cs, s, actions))
    decreases |actions|
  {
    if actions != [] {
      var before, a, t := LastAction(cs, s, actions);
      TracingAfter(cs, s, actions[..|actions| - 1]);
      TracingNext(cs, before, a, Run(cs, s, actions), Tracing(s), t, Toggles(cs, s, actions));
    }
  }

  lemma LastAction(cs: Chains, s: State, actions: seq<Action>) returns (before: State, a: Action, t: nat)
    requires actions != []
    ensures before == Run(cs, s, actions[..|actions| - 1]) && t == Toggles(cs, s, actions[..|actions| - 1])
    ensures Run(cs, s, actions) == Step(cs, before, a)
    ensures Toggles(cs, s, actions) == t + if a.Toggle? && before.dpc == NotQueued then 1 else 0
  {
    var k := |actions| - 1;
    before, a, t := Run(cs, s, actions[..k]), actions[k], Toggles(cs, s, actions[..k]);
  }

  lemma TracingNext(cs: Chains, s: State, a: Action, s': State, on: bool, t: nat, t': nat)
    requires s' == Step(cs, s, a) && Tracing(s) == Even(on, t)
    requires t' == t + if a.Toggle? && s.dpc == NotQueued then 1 else 0
    ensures Tracing(s') == Even(on, t')
  {
    StepKeepsTracing(cs, s, a);
    EvenNext(on, t);
  }

  /** A switch in position `on` after n toggles. */
  predicate Even(on: bool, n: nat) {
    on == (n % 2 == 0)
  }

  lemma EvenNext(on: bool, n: nat)
    ensures Even(on, n + 1) == !Even(on, n)
  {
  }

  /** While this CPU is traced and its buffer is not full, every byte of the hardware becomes part of the trace. */
  lemma EmitRecords(cs: Chains, s: State, b: Byte)
    requires Inv(cs, s) && s.hw.enabled && s.hw.position < PAGE * ChainOf(cs, s.hw.base).pages
    ensures Step(cs, s, Emit(b)).trace == s.trace + [b] && Step(cs, s, Emit(b)).hw.position == s.hw.position + 1
  {
    TargetIsPosition(ChainOf(cs, s.hw.base), s.hw.position);
  }

  // ----- a flush saves everything -----

  /** The steps the DPC still has to take. */
  function DpcSteps(d: Dpc): nat {
    match d
    case NotQueued => 0
    case Begin => 13
    case Disable(_) => 12
    case ClearReady(_) => 11
    case SwapBuffer(_) => 10
    case SwapMdl(_) => 9
    case SwapHeader(_) => 8
    case SwapLookup(_) => 7
    case ReadBase(_) => 6
    case ReadMask(_) => 5
    case SetInitiate(_) => 4
    case WriteBase(_) => 3
    case WriteMask(_) => 2
    case Restart(_) => 1
  }

  /** The DPC on its own until it ends, flushing. */
  function DpcRuns(cs: Chains, s: State, n: nat): State
    decreases n
  {
    if n == 0 then s else DpcRuns(cs, Step(cs, s, DpcStep(true)), n - 1)
  }

  function WriterRuns(cs: Chains, s: State, n: nat): State
    decreases n
  {
    if n == 0 then s else WriterRuns(cs, Step(cs, s, WriterStep), n - 1)
  }

  lemma DpcAdvances(s: State, regs: Registers)
    requires s.dpc != NotQueued
    ensures var s' := DpcNext(s, true, regs);
            && DpcSteps(s'.dpc) == DpcSteps(s.dpc) - 1
            && s'.trace == s.trace && s'.swapper == s.swapper
            && (s'.dpc.Restart? ==> s'.hw.position == 0)
            && (s'.dpc == NotQueued ==> s.dpc.Restart? && s'.hw.position == s.hw.position)
  {
  }

  lemma {:induction false} DpcFinishes(cs: Chains, s: State, n: nat)
    requires Inv(cs, s) && n == DpcSteps(s.dpc) && n > 0 && (s.dpc.Restart? ==> s.hw.position == 0)
    ensures var s' := DpcRuns(cs, s, n);
            && Inv(cs, s') && s'.dpc == NotQueued && s'.hw.position == 0
            && s'.trace == s.trace && s'.swapper == s.swapper && Tracing(s') == Tracing(s)
    decreases n
  {
    var s1 := DpcOne(cs, s);
    if n > 1 {
      DpcFinishes(cs, s1, n - 1);
    } else {
      assert DpcRuns(cs, s1, 0) == s1;
    }
  }

  lemma DpcOne(cs: Chains, s: State) returns (s': State)
    requires Inv(cs, s) && s.dpc != NotQueued && (s.dpc.Restart? ==> s.hw.position == 0)
    ensures s' == Step(cs, s, DpcStep(true)) && Inv(cs, s') && DpcSteps(s'.dpc) == DpcSteps(s.dpc) - 1
    ensures s'.trace == s.trace && s'.swapper == s.swapper && Tracing(s') == Tracing(s)
    ensures s'.dpc.Restart? || s'.dpc == NotQueued ==> s'.hw.position == 0
  {
    s' := Step(cs, s, DpcStep(true));
    StepKeepsInv(cs, s, DpcStep(true));
    StepKeepsTracing(cs, s, DpcStep(true));
    DpcAdvances(s, ReadRegisters(ChainOf(cs, s.hw.base), s.hw.position));
  }

  lemma WriterAdvances(cs: Chains, s: State)
    ensures var s' := WriterNext(cs, s);
            s'.trace == s.trace && s'.swapper == s.swapper && s'.dpc == s.dpc && s'.hw == s.hw
  {
  }

  /** The steps the writer still has to take, given what it was told to save. */
  function WriterSteps(s: State): nat {
    if s.initiate then s.record.bytes + 5
    else
      match s.writer
      case WaitInitiate => 0
      case LookUp => s.record.bytes + 4
      case Save(_, size, done) => if done <= size then size - done + 2 else 1
      case SetReady => 1
  }

  lemma WriterProgress(cs: Chains, s: State)
    requires Inv(cs, s) && Saving(s)
    ensures WriterSteps(WriterNext(cs, s)) < WriterSteps(s)
  {
    if s.writer == LookUp {
      LookUpFinds(cs, s);
    }
  }

  lemma {:induction false} WriterFinishes(cs: Chains, s: State) returns (n: nat)
    requires Inv(cs, s) && s.dpc == NotQueued
    ensures var s' := WriterRuns(cs, s, n);
            && Inv(cs, s') && s'.ready && !Saving(s')
            && s'.trace == s.trace && s'.swapper == s.swapper && s'.dpc == s.dpc && s'.hw == s.hw
    decreases WriterSteps(s)
  {
    if Saving(s) {
      StepKeepsInv(cs, s, WriterStep);
      WriterAdvances(cs, s);
      WriterProgress(cs, s);
      var m := WriterFinishes(cs, Step(cs, s, WriterStep));
      n := m + 1;
    } else {
      n := 0;
    }
  }

  /** One round of the swapper on a CPU whose last buffer is saved: afterwards every byte of the trace is in the file,
      the hardware starts at the beginning of the other buffer, tracing is as before and the swapper may start again. */
  lemma FlushSavesAll(cs: Chains, s: State) returns (n: nat)
    requires Inv(cs, s) && s.dpc == NotQueued && s.ready && s.swapper == WaitReady
    ensures var s1 := Step(cs, s, SwapperStep);
            var s2 := DpcRuns(cs, s1, 13);
            var s3 := WriterRuns(cs, s2, n);
            && s3.saved == s3.trace == s.trace && s3.ready && s3.dpc == NotQueued
            && s3.hw.position == 0 && s3.hw.enabled == s.hw.enabled
            && Step(cs, Step(cs, s3, SwapperStep), SwapperStep).swapper == WaitReady
  {
    var s1 := Step(cs, s, SwapperStep);
    StepKeepsInv(cs, s, SwapperStep);
    DpcFinishes(cs, s1, 13);
    var s2 := DpcRuns(cs, s1, 13);
    n := WriterFinishes(cs, s2);
    AccountedBytes(cs, WriterRuns(cs, s2, n));
  }
}
