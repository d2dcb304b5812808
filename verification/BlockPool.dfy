/**
  The pool of data blocks between the CPUs that produce trace buffers and the workers that consume them: a counting
  semaphore, a mutex, an `Available` flag and an auto-reset ready event per block. Every access to shared memory and
  every wait or signal is a step of its own; any number of producers and consumers interleave freely.
 */
module BlockPool {

  /** A copied trace buffer: DataBlock.Data and DataBlock.DataSize. */
  datatype Item = Item(data: int, size: int)

  /** What a block is being used for, there to state the invariant: the steps bring it up to date, and what they do to
      everything else does not depend on it. */
  datatype Stage =
    | Free
    | Filling(item: Item)
    | Full(item: Item)
    | Taken(item: Item, c: nat)          // a consumer's wait returned this block
    | Delivered(item: Item, c: nat)      // handed to user mode, not yet continued
    | Lost(item: Item)                   // mapping it for user mode failed

  datatype Block = Block(available: bool, data: int, size: int, ready: bool, stage: Stage)

  /** perfmon_interrupt_centry after it copied the buffer. */
  datatype Producer =
    | Away
    | WaitSemaphore(item: Item)
    | WantMutex(item: Item)
    | Scan(item: Item, i: nat)           // if (DataBlock[i].Available)
    | Claim(item: Item, i: nat)          // DataBlock[i].Available = FALSE
    | PutData(item: Item, i: nat)
    | PutSize(item: Item, i: nat)
    | SetReady(i: nat)
    | DropMutex

  /** ultimap_waitForData, then ultimap_continue. */
  datatype Consumer =
    | Waiting
    | WantBlock(b: nat)                  // event b was taken; next the mutex
    | GetData(b: nat)
    | GetSize(b: nat, data: int)
    | Return(b: nat, item: Item)         // mapped, mutex still held
    | Handle(b: nat, item: Item)         // user mode works on the item
    | Post                               // available again; the semaphore is next

  datatype Owner = Nobody | ByProducer(p: nat) | ByConsumer(c: nat)

  datatype State = State(
    blocks: seq<Block>, semaphore: nat, mutex: Owner, producers: seq<Producer>, consumers: seq<Consumer>,
    produced: multiset<Item>, received: multiset<Item>,
    noBlockFound: bool,                  // a scan reached the end: currentblock stayed -1
    limitExceeded: bool)                 // KeReleaseSemaphore beyond the limit

  datatype Action =
    | Produce(p: nat, item: Item)
    | StepProducer(p: nat)
    | Wake(c: nat, b: nat)               // the wait of consumer c is satisfied by event b
    | StepConsumer(c: nat)
    | FailMap(c: nat)                    // no MDL or no mapping: the wait returns an error

  function Initial(n: nat, producers: nat, consumers: nat): State {
    State(seq(n, _ => Block(true, 0, 0, false, Free)), n, Nobody,
          seq(producers, _ => Away), seq(consumers, _ => Waiting), multiset{}, multiset{}, false, false)
  }

  function PutBlock(s: State, i: nat, b: Block): State
    requires i < |s.blocks|
  {
    s.(blocks := s.blocks[i := b])
  }

  function PGoto(s: State, p: nat, pc: Producer): State
    requires p < |s.producers|
  {
    s.(producers := s.producers[p := pc])
  }

  function CGoto(s: State, c: nat, pc: Consumer): State
    requires c < |s.consumers|
  {
    s.(consumers := s.consumers[c := pc])
  }

  function ProduceStep(s: State, p: nat, item: Item): (s': State)
    requires p < |s.producers|
    ensures |s'.blocks| == |s.blocks|
  {
    if s.producers[p] == Away then PGoto(s.(produced := s.produced + multiset{item}), p, WaitSemaphore(item)) else s
  }

  function ProducerStep(s: State, p: nat): (s': State)
    requires p < |s.producers|
    ensures |s'.blocks| == |s.blocks|
  {
    match s.producers[p]
    case Away => s
    case WaitSemaphore(item) =>
      if s.semaphore > 0 then PGoto(s.(semaphore := s.semaphore - 1), p, WantMutex(item)) else s
    case WantMutex(item) => if s.mutex == Nobody then PGoto(s.(mutex := ByProducer(p)), p, Scan(item, 0)) else s
    case Scan(item, i) =>
      if i >= |s.blocks| then PGoto(s.(noBlockFound := true), p, DropMutex)
      else PGoto(s, p, if s.blocks[i].available then Claim(item, i) else Scan(item, i + 1))
    case Claim(item, i) =>
      if i >= |s.blocks| then s
      else PGoto(PutBlock(s, i, s.blocks[i].(available := false, stage := Filling(item))), p, PutData(item, i))
    case PutData(item, i) =>
      if i >= |s.blocks| then s else PGoto(PutBlock(s, i, s.blocks[i].(data := item.data)), p, PutSize(item, i))
    case PutSize(item, i) =>
      if i >= |s.blocks| then s else PGoto(PutBlock(s, i, s.blocks[i].(size := item.size)), p, SetReady(i))
    case SetReady(i) =>
      if i >= |s.blocks| then s
      else
        var b := s.blocks[i];
        PGoto(PutBlock(s, i, b.(ready := true, stage := Full(Item(b.data, b.size)))), p, DropMutex)
    case DropMutex => PGoto(s.(mutex := Nobody), p, Away)
  }

  function ConsumerStep(s: State, c: nat): (s': State)
    requires c < |s.consumers|
    ensures |s'.blocks| == |s.blocks|
  {
    match s.consumers[c]
    case Waiting => s
    case WantBlock(b) => if s.mutex == Nobody then CGoto(s.(mutex := ByConsumer(c)), c, GetData(b)) else s
    case GetData(b) => if b >= |s.blocks| then s else CGoto(s, c, GetSize(b, s.blocks[b].data))
    case GetSize(b, data) => if b >= |s.blocks| then s else CGoto(s, c, Return(b, Item(data, s.blocks[b].size)))
    case Return(b, item) =>
      if b >= |s.blocks| then s
      else
        var stage := if s.blocks[b].stage.Taken? then Delivered(s.blocks[b].stage.item, c) else s.blocks[b].stage;
        CGoto(PutBlock(s, b, s.blocks[b].(stage := stage)).(mutex := Nobody, received := s.received + multiset{item}),
              c, Handle(b, item))
    case Handle(b, item) =>
      if b >= |s.blocks| then s else CGoto(PutBlock(s, b, s.blocks[b].(available := true, stage := Free)), c, Post)
    case Post =>
      if s.semaphore >= |s.blocks| then CGoto(s.(limitExceeded := true), c, Waiting)
      else CGoto(s.(semaphore := s.semaphore + 1), c, Waiting)
  }

  /** A failed mapping releases the mutex and reports an error; nobody will continue this block. */
  function FailMapStep(s: State, c: nat): (s': State)
    requires c < |s.consumers|
    ensures |s'.blocks| == |s.blocks|
  {
    match s.consumers[c]
    case Return(b, _) =>
      if b >= |s.blocks| then s
      else
        var stage := if s.blocks[b].stage.Taken? then Lost(s.blocks[b].stage.item) else s.blocks[b].stage;
        CGoto(PutBlock(s, b, s.blocks[b].(stage := stage)).(mutex := Nobody), c, Waiting)
    case Waiting => s
    case WantBlock(_) => s
    case GetData(_) => s
    case GetSize(_, _) => s
    case Handle(_, _) => s
    case Post => s
  }

  function WakeStep(s: State, c: nat, b: nat): (s': State)
    requires c < |s.consumers| && b < |s.blocks|
    ensures |s'.blocks| == |s.blocks|
  {
    if s.consumers[c] != Waiting || !s.blocks[b].ready then s
    else
      var stage := if s.blocks[b].stage.Full? then Taken(s.blocks[b].stage.item, c) else s.blocks[b].stage;
      CGoto(PutBlock(s, b, s.blocks[b].(ready := false, stage := stage)), c, WantBlock(b))
  }

  /** An action that is not possible in a state leaves it alone. */
  function Step(s: State, a: Action): (s': State)
    ensures |s'.blocks| == |s.blocks|
  {
    match a
    case Produce(p, item) =>
      if p < |s.producers| then ProduceStep(s, p, item) else s
    case StepProducer(p) => if p < |s.producers| then ProducerStep(s, p) else s
    case Wake(c, b) => if c < |s.consumers| && b < |s.blocks| then WakeStep(s, c, b) else s
    case StepConsumer(c) => if c < |s.consumers| then ConsumerStep(s, c) else s
    case FailMap(c) => if c < |s.consumers| then FailMapStep(s, c) else s
  }

  function Run(s: State, actions: seq<Action>): State {
    if actions == [] then s else Step(Run(s, actions[..|actions| - 1]), actions[|actions| - 1])
  }

  // ----- counting -----

  function Count<T>(s: seq<T>, f: T -> bool): nat {
    if s == [] then 0 else Count(s[..|s| - 1], f) + if f(s[|s| - 1]) then 1 else 0
  }

  lemma {:induction false} CountUpdate<T>(s: seq<T>, i: nat, x: T, f: T -> bool)
    requires i < |s|
    ensures Count(s[i := x], f) == Count(s, f) - (if f(s[i]) then 1 else 0) + if f(x) then 1 else 0
  {
    var k := |s| - 1;
    if i == k {
      assert s[i := x][..k] == s[..k];
    } else {
      CountUpdate(s[..k], i, x, f);
      assert s[i := x][..k] == s[..k][i := x];
    }
  }

  lemma {:induction false} CountPositive<T>(s: seq<T>, f: T -> bool) returns (j: nat)
    requires Count(s, f) > 0
    ensures j < |s| && f(s[j])
  {
    var k := |s| - 1;
    if f(s[k]) {
      j := k;
    } else {
      j := CountPositive(s[..k], f);
    }
  }

  lemma {:induction false} CountBounds<T>(s: seq<T>, f: T -> bool, i: nat)
    requires i <= |s|
    ensures Count(s, f) <= |s|
    ensures i < |s| && f(s[i]) ==> Count(s, f) > 0
    ensures i < |s| && !f(s[i]) ==> Count(s, f) < |s|
  {
    if s != [] {
      var k := |s| - 1;
      CountBounds(s[..k], f, if i < k then i else k);
    }
  }

  /** The items of all parts together. */
  function Total<T>(s: seq<T>, f: T -> multiset<Item>): multiset<Item> {
    if s == [] then multiset{} else Total(s[..|s| - 1], f) + f(s[|s| - 1])
  }

  lemma {:induction false} TotalUpdate<T>(s: seq<T>, i: nat, x: T, f: T -> multiset<Item>)
    requires i < |s|
    ensures Total(s[i := x], f) + f(s[i]) == Total(s, f) + f(x)
  {
    var k := |s| - 1;
    if i == k {
      assert s[i := x][..k] == s[..k];
    } else {
      TotalUpdate(s[..k], i, x, f);
      assert s[i := x][..k] == s[..k][i := x];
      Alongside(Total(s[..k], f), Total(s[..k][i := x], f), f(s[i]), f(x), f(s[k]));
    }
  }

  lemma Alongside(a: multiset<Item>, a': multiset<Item>, x: multiset<Item>, y: multiset<Item>, more: multiset<Item>)
    requires a' + x == a + y
    ensures (a' + more) + x == (a + more) + y
  {
    assert (a' + more) + x == (a' + x) + more == (a + y) + more == (a + more) + y;
  }

  /** If what leaves one side arrives at the other, the sum stays. */
  lemma Regroup(a: multiset<Item>, a0: multiset<Item>, a1: multiset<Item>,
                b: multiset<Item>, b0: multiset<Item>, b1: multiset<Item>, a': multiset<Item>, b': multiset<Item>)
    requires a' + a0 == a + a1 && b' + b0 == b + b1 && a1 + b1 == a0 + b0
    ensures a' + b' == a + b
  {
    assert (a' + b') + (a0 + b0) == (a' + a0) + (b' + b0) == (a + a1) + (b + b1) == (a + b) + (a0 + b0);
    Cancel(a' + b', a + b, a0 + b0);
  }

  lemma Grouped(a: multiset<Item>, b: multiset<Item>, c: multiset<Item>, b': multiset<Item>, c': multiset<Item>)
    requires b + c == b' + c'
    ensures a + b + c == a + b' + c'
  {
    assert a + b + c == a + (b + c) && a + b' + c' == a + (b' + c');
  }

  lemma Arrives(a: multiset<Item>, a': multiset<Item>, x: multiset<Item>, b: multiset<Item>, c: multiset<Item>)
    requires a' + multiset{} == a + x
    ensures a + b + c + x == a' + b + c
  {
    assert a' == a + x;
  }

  lemma Cancel(a: multiset<Item>, b: multiset<Item>, c: multiset<Item>)
    requires a + c == b + c
    ensures a == b
  {
    assert a == (a + c) - c && b == (b + c) - c;
  }

  // ----- the invariant -----

  predicate IsAvailable(b: Block) {
    b.available
  }

  /** Past the semaphore, no block claimed yet. */
  predicate Picking(p: Producer) {
    p.WantMutex? || p.Scan? || p.Claim?
  }

  predicate Posting(c: Consumer) {
    c.Post?
  }

  /** The item a producer carries that is not in a block yet. */
  function Carried(p: Producer): multiset<Item> {
    if p.WaitSemaphore? || p.WantMutex? || p.Scan? || p.Claim? then multiset{p.item} else multiset{}
  }

  /** The item in a block that nobody received yet. */
  function Stored(b: Block): multiset<Item> {
    if b.stage.Free? || b.stage.Delivered? then multiset{} else multiset{b.stage.item}
  }

  predicate BlockOk(b: Block) {
    && (b.available <==> b.stage.Free?)
    && (b.ready <==> b.stage.Full?)
    && (!b.stage.Free? && !b.stage.Filling? ==> b.stage.item == Item(b.data, b.size))
  }

  predicate ProducerInside(p: Producer) {
    p.Scan? || p.Claim? || p.PutData? || p.PutSize? || p.SetReady? || p.DropMutex?
  }

  predicate ConsumerInside(c: Consumer) {
    c.GetData? || c.GetSize? || c.Return?
  }

  ghost predicate ProducerOk(blocks: seq<Block>, pc: Producer) {
    match pc
    case Scan(_, i) => exists j | i <= j < |blocks| :: blocks[j].available
    case Claim(_, i) => i < |blocks| && blocks[i].available
    case PutData(item, i) => i < |blocks| && blocks[i].stage == Filling(item)
    case PutSize(item, i) => i < |blocks| && blocks[i].stage == Filling(item) && blocks[i].data == item.data
    case SetReady(i) => i < |blocks| && blocks[i].stage == Filling(Item(blocks[i].data, blocks[i].size))
    case DropMutex => true
    case Away => true
    case WaitSemaphore(_) => true
    case WantMutex(_) => true
  }

  ghost predicate ConsumerOk(blocks: seq<Block>, c: nat, pc: Consumer) {
    match pc
    case WantBlock(b) => b < |blocks| && blocks[b].stage.Taken? && blocks[b].stage.c == c
    case GetData(b) => b < |blocks| && blocks[b].stage.Taken? && blocks[b].stage.c == c
    case GetSize(b, data) => b < |blocks| && blocks[b].stage.Taken? && blocks[b].stage.c == c && data == blocks[b].data
    case Return(b, item) => b < |blocks| && blocks[b].stage == Taken(item, c)
    case Handle(b, item) => b < |blocks| && blocks[b].stage == Delivered(item, c)
    case Post => true
    case Waiting => true
  }

  ghost predicate MutexOk(s: State) {
    && (forall p | 0 <= p < |s.producers| && ProducerInside(s.producers[p]) :: s.mutex == ByProducer(p))
    && (forall c | 0 <= c < |s.consumers| && ConsumerInside(s.consumers[c]) :: s.mutex == ByConsumer(c))
  }

  ghost predicate Balanced(s: State) {
    Count(s.blocks, IsAvailable) == s.semaphore + Count(s.producers, Picking) + Count(s.consumers, Posting)
  }

  ghost predicate Conserved(s: State) {
    s.produced == Total(s.producers, Carried) + Total(s.blocks, Stored) + s.received
  }

  ghost predicate Orderly(s: State) {
    && (forall b | 0 <= b < |s.blocks| :: BlockOk(s.blocks[b]))
    && (forall p | 0 <= p < |s.producers| :: ProducerOk(s.blocks, s.producers[p]))
    && (forall c | 0 <= c < |s.consumers| :: ConsumerOk(s.blocks, c, s.consumers[c]))
    && MutexOk(s)
    && !s.noBlockFound && !s.limitExceeded
  }

  ghost predicate Inv(s: State) {
    Orderly(s) && Balanced(s) && Conserved(s)
  }

  // ----- every step keeps it -----

  function Bit(b: bool): nat {
    if b then 1 else 0
  }

  /** Only a producer inside the mutex depends on blocks, and not on those that are handed over or given back. */
  lemma ProducerOkStable(blocks: seq<Block>, b: nat, x: Block, pc: Producer)
    requires b < |blocks| && ProducerOk(blocks, pc)
    requires !ProducerInside(pc) || (!blocks[b].stage.Filling? && (blocks[b].available ==> x.available))
    ensures ProducerOk(blocks[b := x], pc)
  {
    if pc.Scan? {
      var j :| pc.i <= j < |blocks| && blocks[j].available;
      assert blocks[b := x][j].available;
    }
  }

  /** A consumer depends only on the block it has. */
  lemma ConsumerOkStable(blocks: seq<Block>, b: nat, x: Block, c: nat, pc: Consumer)
    requires b < |blocks| && ConsumerOk(blocks, c, pc)
    requires (blocks[b].stage.Taken? || blocks[b].stage.Delivered?) ==> blocks[b].stage.c != c
    ensures ConsumerOk(blocks[b := x], c, pc)
  {
  }

  /** Producer p moves on without touching a block. */
  lemma ProducerMoves(s: State, p: nat, pc: Producer, semaphore: nat, mutex: Owner)
    requires Inv(s) && p < |s.producers| && ProducerOk(s.blocks, pc)
    requires Carried(pc) == Carried(s.producers[p])
    requires semaphore + Bit(Picking(pc)) == s.semaphore + Bit(Picking(s.producers[p]))
    requires mutex == s.mutex || s.mutex == Nobody || s.mutex == ByProducer(p)
    requires ProducerInside(pc) ==> mutex == ByProducer(p)
    ensures Inv(PGoto(s.(semaphore := semaphore, mutex := mutex), p, pc))
  {
    var s' := PGoto(s.(semaphore := semaphore, mutex := mutex), p, pc);
    assert Balanced(s') by {
      CountUpdate(s.producers, p, pc, Picking);
    }
    assert Conserved(s') by {
      TotalUpdate(s.producers, p, pc, Carried);
      Cancel(Total(s'.producers, Carried), Total(s.producers, Carried), Carried(pc));
    }
  }

  lemma FillKeepsSums(s: State, p: nat, pc: Producer, b: nat, x: Block)
    requires Balanced(s) && Conserved(s) && p < |s.producers| && b < |s.blocks|
    requires Carried(pc) + Stored(x) == Carried(s.producers[p]) + Stored(s.blocks[b])
    requires Bit(x.available) + Bit(Picking(s.producers[p])) == Bit(s.blocks[b].available) + Bit(Picking(pc))
    ensures Balanced(PGoto(PutBlock(s, b, x), p, pc)) && Conserved(PGoto(PutBlock(s, b, x), p, pc))
  {
    var s' := PGoto(PutBlock(s, b, x), p, pc);
    assert Balanced(s') by {
      CountUpdate(s.producers, p, pc, Picking);
      CountUpdate(s.blocks, b, x, IsAvailable);
    }
    assert Conserved(s') by {
      TotalUpdate(s.producers, p, pc, Carried);
      TotalUpdate(s.blocks, b, x, Stored);
      Regroup(Total(s.producers, Carried), Carried(s.producers[p]), Carried(pc),
              Total(s.blocks, Stored), Stored(s.blocks[b]), Stored(x),
              Total(s'.producers, Carried), Total(s'.blocks, Stored));
    }
  }

  /** Producer p, inside the mutex, changes block b. */
  lemma ProducerFills(s: State, p: nat, pc: Producer, b: nat, x: Block)
    requires Inv(s) && p < |s.producers| && b < |s.blocks|
    requires ProducerInside(s.producers[p]) && ProducerOk(s.blocks[b := x], pc) && BlockOk(x)
    requires s.blocks[b].stage.Free? || s.blocks[b].stage.Filling?
    requires Carried(pc) + Stored(x) == Carried(s.producers[p]) + Stored(s.blocks[b])
    requires Bit(x.available) + Bit(Picking(s.producers[p])) == Bit(s.blocks[b].available) + Bit(Picking(pc))
    ensures Inv(PGoto(PutBlock(s, b, x), p, pc))
  {
    var s' := PGoto(PutBlock(s, b, x), p, pc);
    FillKeepsSums(s, p, pc, b, x);
    forall q | 0 <= q < |s'.producers| ensures ProducerOk(s'.blocks, s'.producers[q]) {
      if q != p {
        ProducerOkStable(s.blocks, b, x, s.producers[q]);
      }
    }
    forall c | 0 <= c < |s'.consumers| ensures ConsumerOk(s'.blocks, c, s'.consumers[c]) {
      ConsumerOkStable(s.blocks, b, x, c, s.consumers[c]);
    }
  }

  /** Consumer c moves on without touching a block. */
  lemma ConsumerMoves(s: State, c: nat, pc: Consumer, semaphore: nat, mutex: Owner)
    requires Inv(s) && c < |s.consumers| && ConsumerOk(s.blocks, c, pc)
    requires semaphore + Bit(Posting(pc)) == s.semaphore + Bit(Posting(s.consumers[c]))
    requires mutex == s.mutex || s.mutex == Nobody || s.mutex == ByConsumer(c)
    requires ConsumerInside(pc) ==> mutex == ByConsumer(c)
    ensures Inv(CGoto(s.(semaphore := semaphore, mutex := mutex), c, pc))
  {
    CountUpdate(s.consumers, c, pc, Posting);
  }

  lemma ChangeKeepsSums(s: State, s': State, c: nat, pc: Consumer, b: nat, x: Block, got: multiset<Item>)
    requires Balanced(s) && Conserved(s) && c < |s.consumers| && b < |s.blocks|
    requires Stored(x) + got == Stored(s.blocks[b])
    requires Bit(x.available) + Bit(Posting(s.consumers[c])) == Bit(s.blocks[b].available) + Bit(Posting(pc))
    requires s' == CGoto(PutBlock(s, b, x).(mutex := s'.mutex, received := s.received + got), c, pc)
    ensures Balanced(s') && Conserved(s')
  {
    assert Balanced(s') by {
      CountUpdate(s.consumers, c, pc, Posting);
      CountUpdate(s.blocks, b, x, IsAvailable);
    }
    assert Conserved(s') by {
      TotalUpdate(s.blocks, b, x, Stored);
      Regroup(Total(s.blocks, Stored), Stored(s.blocks[b]), Stored(x), s.received, multiset{}, got,
              Total(s'.blocks, Stored), s'.received);
      Grouped(Total(s.producers, Carried), Total(s.blocks, Stored), s.received, Total(s'.blocks, Stored), s'.received);
    }
  }

  /** Consumer c changes block b: takes it, hands it over, loses it or gives it back. */
  lemma ConsumerChanges(s: State, c: nat, pc: Consumer, b: nat, x: Block, mutex: Owner, got: multiset<Item>)
    requires Inv(s) && c < |s.consumers| && b < |s.blocks|
    requires ConsumerOk(s.blocks[b := x], c, pc) && BlockOk(x)
    requires var st := s.blocks[b].stage; st.Full? || ((st.Taken? || st.Delivered?) && st.c == c)
    requires Stored(x) + got == Stored(s.blocks[b])
    requires x.available == Posting(pc) && !Posting(s.consumers[c]) && !ConsumerInside(pc)
    requires if ConsumerInside(s.consumers[c]) then mutex == Nobody else mutex == s.mutex
    ensures Inv(CGoto(PutBlock(s, b, x).(mutex := mutex, received := s.received + got), c, pc))
  {
    var s' := CGoto(PutBlock(s, b, x).(mutex := mutex, received := s.received + got), c, pc);
    ChangeKeepsSums(s, s', c, pc, b, x, got);
    OthersUnaffected(s, c, b, x);
    ChangeKeepsOrder(s, s', c, pc, b, x);
  }

  lemma ChangeKeepsOrder(s: State, s': State, c: nat, pc: Consumer, b: nat, x: Block)
    requires Orderly(s) && c < |s.consumers| && b < |s.blocks| && BlockOk(x) && ConsumerOk(s.blocks[b := x], c, pc)
    requires forall q | 0 <= q < |s.producers| :: ProducerOk(s.blocks[b := x], s.producers[q])
    requires forall d | 0 <= d < |s.consumers| && d != c :: ConsumerOk(s.blocks[b := x], d, s.consumers[d])
    requires !ConsumerInside(pc)
    requires if ConsumerInside(s.consumers[c]) then s'.mutex == Nobody else s'.mutex == s.mutex
    requires s'.blocks == s.blocks[b := x] && s'.producers == s.producers && s'.consumers == s.consumers[c := pc]
    requires !s'.noBlockFound && !s'.limitExceeded
    ensures Orderly(s')
  {
  }

  lemma OthersUnaffected(s: State, c: nat, b: nat, x: Block)
    requires Orderly(s) && c < |s.consumers| && b < |s.blocks|
    requires var st := s.blocks[b].stage; st.Full? || ((st.Taken? || st.Delivered?) && st.c == c)
    ensures forall q | 0 <= q < |s.producers| :: ProducerOk(s.blocks[b := x], s.producers[q])
    ensures forall d | 0 <= d < |s.consumers| && d != c :: ConsumerOk(s.blocks[b := x], d, s.consumers[d])
  {
    assert BlockOk(s.blocks[b]);
    forall q | 0 <= q < |s.producers| ensures ProducerOk(s.blocks[b := x], s.producers[q]) {
      ProducerOkStable(s.blocks, b, x, s.producers[q]);
    }
    forall d | 0 <= d < |s.consumers| && d != c ensures ConsumerOk(s.blocks[b := x], d, s.consumers[d]) {
      ConsumerOkStable(s.blocks, b, x, d, s.consumers[d]);
    }
  }

  /** A producer past the semaphore finds an available block, because it is itself counted among those picking. */
  lemma PickingFinds(s: State, p: nat)
    requires Balanced(s) && p < |s.producers| && Picking(s.producers[p])
    ensures exists j | 0 <= j < |s.blocks| :: s.blocks[j].available
  {
    CountBounds(s.producers, Picking, p);
    var j := CountPositive(s.blocks, IsAvailable);
  }

  lemma QueueKeepsInv(s: State, p: nat)
    requires Inv(s) && p < |s.producers| && (s.producers[p].WaitSemaphore? || s.producers[p].WantMutex?)
    ensures Inv(ProducerStep(s, p))
  {
    var item := s.producers[p].item;
    if s.producers[p].WaitSemaphore? {
      if s.semaphore > 0 {
        ProducerMoves(s, p, WantMutex(item), s.semaphore - 1, s.mutex);
      }
    } else if s.mutex == Nobody {
      PickingFinds(s, p);
      ProducerMoves(s, p, Scan(item, 0), s.semaphore, ByProducer(p));
    }
  }

  /** The scan never runs past the end: an available block is still ahead. */
  lemma ScanKeepsInv(s: State, p: nat)
    requires Inv(s) && p < |s.producers| && s.producers[p].Scan?
    ensures s.producers[p].i < |s.blocks|
    ensures Inv(ProducerStep(s, p))
  {
    var item, i := s.producers[p].item, s.producers[p].i;
    assert ProducerOk(s.blocks, s.producers[p]);
    var pc := if s.blocks[i].available then Claim(item, i) else Scan(item, i + 1);
    assert ProducerOk(s.blocks, pc);
    ProducerMoves(s, p, pc, s.semaphore, s.mutex);
  }

  lemma ClaimKeepsInv(s: State, p: nat, item: Item, i: nat)
    requires Inv(s) && p < |s.producers| && s.producers[p] == Claim(item, i)
    ensures Inv(ProducerStep(s, p))
  {
    assert ProducerOk(s.blocks, s.producers[p]);
    assert BlockOk(s.blocks[i]);
    ProducerFills(s, p, PutData(item, i), i, s.blocks[i].(available := false, stage := Filling(item)));
  }

  lemma PutDataKeepsInv(s: State, p: nat, item: Item, i: nat)
    requires Inv(s) && p < |s.producers| && s.producers[p] == PutData(item, i)
    ensures Inv(ProducerStep(s, p))
  {
    assert ProducerOk(s.blocks, s.producers[p]);
    assert BlockOk(s.blocks[i]);
    ProducerFills(s, p, PutSize(item, i), i, s.blocks[i].(data := item.data));
  }

  lemma PutSizeKeepsInv(s: State, p: nat, item: Item, i: nat)
    requires Inv(s) && p < |s.producers| && s.producers[p] == PutSize(item, i)
    ensures Inv(ProducerStep(s, p))
  {
    assert ProducerOk(s.blocks, s.producers[p]);
    assert BlockOk(s.blocks[i]);
    ProducerFills(s, p, SetReady(i), i, s.blocks[i].(size := item.size));
  }

  lemma ReadyKeepsInv(s: State, p: nat, i: nat)
    requires Inv(s) && p < |s.producers| && s.producers[p] == SetReady(i)
    ensures Inv(ProducerStep(s, p))
  {
    assert ProducerOk(s.blocks, s.producers[p]);
    var b := s.blocks[i];
    assert BlockOk(b);
    ProducerFills(s, p, DropMutex, i, b.(ready := true, stage := Full(Item(b.data, b.size))));
  }

  lemma ProducerKeepsInv(s: State, p: nat)
    requires Inv(s) && p < |s.producers|
    ensures Inv(ProducerStep(s, p))
  {
    match s.producers[p]
    case Away =>
    case WaitSemaphore(_) => QueueKeepsInv(s, p);
    case WantMutex(_) => QueueKeepsInv(s, p);
    case Scan(_, _) => ScanKeepsInv(s, p);
    case Claim(item, i) => ClaimKeepsInv(s, p, item, i);
    case PutData(item, i) => PutDataKeepsInv(s, p, item, i);
    case PutSize(item, i) => PutSizeKeepsInv(s, p, item, i);
    case SetReady(i) => ReadyKeepsInv(s, p, i);
    case DropMutex => ProducerMoves(s, p, Away, s.semaphore, Nobody);
  }

  /** The semaphore has room for every block that is being given back. */
  lemma PostingFits(s: State, c: nat)
    requires Balanced(s) && c < |s.consumers| && s.consumers[c].Post?
    ensures s.semaphore < |s.blocks|
  {
    CountBounds(s.consumers, Posting, c);
    CountBounds(s.blocks, IsAvailable, |s.blocks|);
  }

  lemma ReadKeepsInv(s: State, c: nat)
    requires Inv(s) && c < |s.consumers|
    requires var pc := s.consumers[c]; pc.WantBlock? || pc.GetData? || pc.GetSize?
    ensures Inv(ConsumerStep(s, c))
  {
    assert ConsumerOk(s.blocks, c, s.consumers[c]);
    match s.consumers[c]
    case WantBlock(b) =>
      if s.mutex == Nobody {
        ConsumerMoves(s, c, GetData(b), s.semaphore, ByConsumer(c));
      }
    case GetData(b) => ConsumerMoves(s, c, GetSize(b, s.blocks[b].data), s.semaphore, s.mutex);
    case GetSize(b, data) =>
      assert BlockOk(s.blocks[b]);
      ConsumerMoves(s, c, Return(b, Item(data, s.blocks[b].size)), s.semaphore, s.mutex);
  }

  lemma ReturnKeepsInv(s: State, c: nat)
    requires Inv(s) && c < |s.consumers| && s.consumers[c].Return?
    ensures Inv(ConsumerStep(s, c))
  {
    var b, item := s.consumers[c].b, s.consumers[c].item;
    assert ConsumerOk(s.blocks, c, s.consumers[c]);
    ConsumerChanges(s, c, Handle(b, item), b, s.blocks[b].(stage := Delivered(item, c)), Nobody, multiset{item});
  }

  lemma FailKeepsInv(s: State, c: nat, b: nat, item: Item)
    requires Inv(s) && c < |s.consumers| && s.consumers[c] == Return(b, item)
    ensures Inv(FailMapStep(s, c))
  {
    assert ConsumerOk(s.blocks, c, s.consumers[c]);
    var x := s.blocks[b].(stage := Lost(item));
    ConsumerChanges(s, c, Waiting, b, x, Nobody, multiset{});
    assert s.received + multiset{} == s.received;
  }

  lemma GiveBackKeepsInv(s: State, c: nat, b: nat, item: Item)
    requires Inv(s) && c < |s.consumers| && s.consumers[c] == Handle(b, item)
    ensures Inv(ConsumerStep(s, c))
  {
    assert ConsumerOk(s.blocks, c, s.consumers[c]);
    assert BlockOk(s.blocks[b]);
    ConsumerChanges(s, c, Post, b, s.blocks[b].(available := true, stage := Free), s.mutex, multiset{});
    assert s.received + multiset{} == s.received;
  }

  lemma WakeKeepsInv(s: State, c: nat, b: nat)
    requires Inv(s) && c < |s.consumers| && b < |s.blocks| && s.consumers[c] == Waiting && s.blocks[b].ready
    ensures Inv(WakeStep(s, c, b))
  {
    assert BlockOk(s.blocks[b]);
    var x := s.blocks[b].(ready := false, stage := Taken(s.blocks[b].stage.item, c));
    ConsumerChanges(s, c, WantBlock(b), b, x, s.mutex, multiset{});
    assert s.received + multiset{} == s.received;
  }

  lemma ConsumerKeepsInv(s: State, c: nat)
    requires Inv(s) && c < |s.consumers|
    ensures Inv(ConsumerStep(s, c))
  {
    match s.consumers[c]
    case Waiting =>
    case WantBlock(_) => ReadKeepsInv(s, c);
    case GetData(_) => ReadKeepsInv(s, c);
    case GetSize(_, _) => ReadKeepsInv(s, c);
    case Return(_, _) => ReturnKeepsInv(s, c);
    case Handle(b, item) => GiveBackKeepsInv(s, c, b, item);
    case Post =>
      PostingFits(s, c);
      ConsumerMoves(s, c, Waiting, s.semaphore + 1, s.mutex);
  }

  lemma ProduceKeepsSums(s: State, p: nat, item: Item)
    requires Balanced(s) && Conserved(s) && p < |s.producers| && s.producers[p] == Away
    ensures Balanced(ProduceStep(s, p, item)) && Conserved(ProduceStep(s, p, item))
  {
    var s' := ProduceStep(s, p, item);
    CountUpdate(s.producers, p, WaitSemaphore(item), Picking);
    TotalUpdate(s.producers, p, WaitSemaphore(item), Carried);
    Arrives(Total(s.producers, Carried), Total(s'.producers, Carried), multiset{item},
            Total(s.blocks, Stored), s.received);
  }

  lemma ProduceKeepsInv(s: State, p: nat, item: Item)
    requires Inv(s) && p < |s.producers|
    ensures Inv(ProduceStep(s, p, item))
  {
    if s.producers[p] == Away {
      ProduceKeepsSums(s, p, item);
    }
  }

  lemma FailMapKeepsInv(s: State, c: nat)
    requires Inv(s) && c < |s.consumers|
    ensures Inv(FailMapStep(s, c))
  {
    match s.consumers[c]
    case Return(b, item) => FailKeepsInv(s, c, b, item);
    case Waiting =>
    case WantBlock(_) =>
    case GetData(_) =>
    case GetSize(_, _) =>
    case Handle(_, _) =>
    case Post =>
  }

  lemma WaitKeepsInv(s: State, c: nat, b: nat)
    requires Inv(s) && c < |s.consumers| && b < |s.blocks|
    ensures Inv(WakeStep(s, c, b))
  {
    if s.consumers[c] == Waiting && s.blocks[b].ready {
      WakeKeepsInv(s, c, b);
    }
  }

  lemma ProduceActionKeepsInv(s: State, p: nat, item: Item)
    requires Inv(s)
    ensures Inv(Step(s, Produce(p, item)))
  {
    if p < |s.producers| {
      ProduceKeepsInv(s, p, item);
    }
  }

  lemma ProducerActionKeepsInv(s: State, p: nat)
    requires Inv(s)
    ensures Inv(Step(s, StepProducer(p)))
  {
    if p < |s.producers| {
      ProducerKeepsInv(s, p);
    }
  }

  lemma WakeActionKeepsInv(s: State, c: nat, b: nat)
    requires Inv(s)
    ensures Inv(Step(s, Wake(c, b)))
  {
    if c < |s.consumers| && b < |s.blocks| {
      WaitKeepsInv(s, c, b);
    }
  }

  lemma FailActionKeepsInv(s: State, c: nat)
    requires Inv(s)
    ensures Inv(Step(s, FailMap(c)))
  {
    if c < |s.consumers| {
      FailMapKeepsInv(s, c);
    }
  }

  lemma ConsumerActionKeepsInv(s: State, c: nat)
    requires Inv(s)
    ensures Inv(Step(s, StepConsumer(c)))
  {
    if c < |s.consumers| {
      ConsumerKeepsInv(s, c);
    }
  }

  lemma StepKeepsInv(s: State, a: Action)
    requires Inv(s)
    ensures Inv(Step(s, a))
  {
    match a
    case Produce(p, item) => ProduceActionKeepsInv(s, p, item);
    case StepProducer(p) => ProducerActionKeepsInv(s, p);
    case Wake(c, b) => WakeActionKeepsInv(s, c, b);
    case StepConsumer(c) => ConsumerActionKeepsInv(s, c);
    case FailMap(c) => FailActionKeepsInv(s, c);
  }

  lemma {:induction false} InitialSums(n: nat, producers: nat, consumers: nat)
    ensures Count(seq(n, _ => Block(true, 0, 0, false, Free)), IsAvailable) == n
    ensures Total(seq(n, _ => Block(true, 0, 0, false, Free)), Stored) == multiset{}
    ensures Count(seq(producers, _ => Away), Picking) == 0
    ensures Total(seq(producers, _ => Away), Carried) == multiset{}
    ensures Count(seq(consumers, _ => Waiting), Posting) == 0
  {
    AllSame(seq(n, _ => Block(true, 0, 0, false, Free)), Block(true, 0, 0, false, Free), IsAvailable, Stored);
    AllSame(seq(producers, _ => Away), Away, Picking, Carried);
    AllSame(seq(consumers, _ => Waiting), Waiting, Posting, _ => multiset{});
  }

  lemma {:induction false} AllSame<T>(s: seq<T>, x: T, f: T -> bool, g: T -> multiset<Item>)
    requires forall i | 0 <= i < |s| :: s[i] == x
    requires g(x) == multiset{}
    ensures Count(s, f) == if f(x) then |s| else 0
    ensures Total(s, g) == multiset{}
  {
    if s != [] {
      AllSame(s[..|s| - 1], x, f, g);
    }
  }

  lemma {:induction false} RunKeepsInv(n: nat, producers: nat, consumers: nat, actions: seq<Action>)
    ensures var s := Run(Initial(n, producers, consumers), actions);
            Inv(s) && |s.blocks| == n
    decreases |actions|
  {
    if actions == [] {
      InitialSums(n, producers, consumers);
    } else {
      var k := |actions| - 1;
      RunKeepsInv(n, producers, consumers, actions[..k]);
      StepKeepsInv(Run(Initial(n, producers, consumers), actions[..k]), actions[k]);
    }
  }

  /** In every interleaving the available blocks are exactly the free semaphore slots plus the producers still picking
      plus the consumers about to post; no producer that passed the semaphore fails to find a block; and the semaphore
      never exceeds its limit. */
  lemma PoolSafety(n: nat, producers: nat, consumers: nat, actions: seq<Action>)
    ensures var s := Run(Initial(n, producers, consumers), actions);
            && Count(s.blocks, IsAvailable) == s.semaphore + Count(s.producers, Picking) + Count(s.consumers, Posting)
            && s.semaphore <= n
            && !s.noBlockFound && !s.limitExceeded
  {
    RunKeepsInv(n, producers, consumers, actions);
    CountBounds(Run(Initial(n, producers, consumers), actions).blocks, IsAvailable, n);
  }

  /** While user mode works on a block the block still holds the item that was handed over, nobody else may claim it,
      and no other consumer has it. */
  lemma HandedOverStays(n: nat, producers: nat, consumers: nat, actions: seq<Action>, c: nat)
    requires var s := Run(Initial(n, producers, consumers), actions);
             c < |s.consumers| && s.consumers[c].Handle?
    ensures var s := Run(Initial(n, producers, consumers), actions);
            var b := s.consumers[c].b;
            && |s.blocks| == n && b < n && !s.blocks[b].available && !s.blocks[b].ready
            && Item(s.blocks[b].data, s.blocks[b].size) == s.consumers[c].item
            && forall d | 0 <= d < |s.consumers| && d != c && s.consumers[d].Handle? :: s.consumers[d].b != b
  {
    RunKeepsInv(n, producers, consumers, actions);
    var s := Run(Initial(n, producers, consumers), actions);
    assert ConsumerOk(s.blocks, c, s.consumers[c]);
    assert BlockOk(s.blocks[s.consumers[c].b]);
    forall d | 0 <= d < |s.consumers| && d != c && s.consumers[d].Handle? ensures s.consumers[d].b != s.consumers[c].b {
      assert ConsumerOk(s.blocks, d, s.consumers[d]);
    }
  }

  predicate AtRest(s: State) {
    && (forall p | 0 <= p < |s.producers| :: s.producers[p] == Away)
    && (forall b | 0 <= b < |s.blocks| :: s.blocks[b].available)
  }

  /** Nothing is lost, duplicated or mixed up: the items received, in blocks and on their way are those produced; once
      all producers are away and all blocks are available again, received is produced. */
  lemma ItemsConserved(n: nat, producers: nat, consumers: nat, actions: seq<Action>)
    ensures var s := Run(Initial(n, producers, consumers), actions);
            && s.produced == Total(s.producers, Carried) + Total(s.blocks, Stored) + s.received
            && (AtRest(s) ==> s.received == s.produced)
  {
    RunKeepsInv(n, producers, consumers, actions);
    var s := Run(Initial(n, producers, consumers), actions);
    if AtRest(s) {
      forall b | 0 <= b < n ensures Stored(s.blocks[b]) == multiset{} {
        assert BlockOk(s.blocks[b]);
      }
      NothingIn(s.producers, Carried);
      NothingIn(s.blocks, Stored);
    }
  }

  lemma {:induction false} NothingIn<T>(s: seq<T>, f: T -> multiset<Item>)
    requires forall i | 0 <= i < |s| :: f(s[i]) == multiset{}
    ensures Total(s, f) == multiset{}
  {
    if s != [] {
      NothingIn(s[..|s| - 1], f);
    }
  }

  // ----- a filled block is left alone -----

  predicate Has(c: Consumer, b: nat) {
    (c.WantBlock? || c.GetData? || c.GetSize? || c.Return? || c.Handle?) && c.b == b
  }

  /** From the setting of its event until its continue: the event is set, or a consumer has the block. */
  ghost predicate InUse(s: State, b: nat)
    requires b < |s.blocks|
  {
    s.blocks[b].ready || exists c :: 0 <= c < |s.consumers| && Has(s.consumers[c], b)
  }

  /** The step by which a consumer lets go of the block: its continue, or a mapping that failed. */
  predicate LetsGo(s: State, a: Action, b: nat) {
    && (a.StepConsumer? || a.FailMap?) && a.c < |s.consumers| && Has(s.consumers[a.c], b)
    && (if a.StepConsumer? then s.consumers[a.c].Handle? else s.consumers[a.c].Return?)
  }

  lemma InUseStage(s: State, b: nat)
    requires Orderly(s) && b < |s.blocks| && InUse(s, b)
    ensures var st := s.blocks[b].stage; st.Full? || st.Taken? || st.Delivered?
    ensures !s.blocks[b].available && s.blocks[b].stage.item == Item(s.blocks[b].data, s.blocks[b].size)
  {
    assert BlockOk(s.blocks[b]);
    if !s.blocks[b].ready {
      var c :| 0 <= c < |s.consumers| && Has(s.consumers[c], b);
      assert ConsumerOk(s.blocks, c, s.consumers[c]);
    }
  }

  lemma ProducerLeavesAlone(s: State, p: nat, b: nat)
    requires Orderly(s) && p < |s.producers| && b < |s.blocks|
    requires !s.blocks[b].available && !s.blocks[b].stage.Filling?
    ensures ProducerStep(s, p).blocks[b] == s.blocks[b] && ProducerStep(s, p).consumers == s.consumers
  {
    assert ProducerOk(s.blocks, s.producers[p]);
  }

  predicate SameData(x: Block, x': Block) {
    x'.data == x.data && x'.size == x.size && x'.ready == x.ready
  }

  lemma ConsumerKeepsData(s: State, c: nat, b: nat)
    requires c < |s.consumers| && b < |s.blocks|
    ensures SameData(s.blocks[b], ConsumerStep(s, c).blocks[b])
  {
    match s.consumers[c]
    case Waiting =>
    case WantBlock(_) =>
    case GetData(_) =>
    case GetSize(_, _) =>
    case Return(_, _) =>
    case Handle(_, _) =>
    case Post =>
  }

  lemma FailKeepsData(s: State, c: nat, b: nat)
    requires c < |s.consumers| && b < |s.blocks|
    ensures SameData(s.blocks[b], FailMapStep(s, c).blocks[b])
  {
  }

  /** A consumer that does not let go keeps what it has. */
  lemma ConsumerKeepsBlock(s: State, c: nat, d: nat, b: nat)
    requires c < |s.consumers| && d < |s.consumers| && b < |s.blocks| && Has(s.consumers[d], b)
    requires !LetsGo(s, StepConsumer(c), b)
    ensures Has(ConsumerStep(s, c).consumers[d], b)
  {
    match s.consumers[c]
    case Waiting =>
    case WantBlock(_) =>
    case GetData(_) =>
    case GetSize(_, _) =>
    case Return(_, _) =>
    case Handle(_, _) =>
    case Post =>
  }

  lemma FailKeepsBlock(s: State, c: nat, d: nat, b: nat)
    requires c < |s.consumers| && d < |s.consumers| && b < |s.blocks| && Has(s.consumers[d], b)
    requires !LetsGo(s, FailMap(c), b)
    ensures Has(FailMapStep(s, c).consumers[d], b)
  {
  }

  lemma StillHas(s: State, s': State, b: nat, d: nat)
    requires b < |s'.blocks| && d < |s'.consumers| && Has(s'.consumers[d], b)
    ensures InUse(s', b)
  {
  }

  lemma StepKeepsBlock(s: State, c: nat, b: nat)
    requires b < |s.blocks| && InUse(s, b)
    ensures var s' := Step(s, StepConsumer(c));
            SameData(s.blocks[b], s'.blocks[b]) && (InUse(s', b) || LetsGo(s, StepConsumer(c), b))
  {
    if c < |s.consumers| {
      ConsumerKeepsData(s, c, b);
      if !s.blocks[b].ready && !LetsGo(s, StepConsumer(c), b) {
        var d :| 0 <= d < |s.consumers| && Has(s.consumers[d], b);
        ConsumerKeepsBlock(s, c, d, b);
        StillHas(s, ConsumerStep(s, c), b, d);
      }
    }
  }

  lemma FailMapKeepsBlock(s: State, c: nat, b: nat)
    requires b < |s.blocks| && InUse(s, b)
    ensures var s' := Step(s, FailMap(c));
            SameData(s.blocks[b], s'.blocks[b]) && (InUse(s', b) || LetsGo(s, FailMap(c), b))
  {
    if c < |s.consumers| {
      FailKeepsData(s, c, b);
      if !s.blocks[b].ready && !LetsGo(s, FailMap(c), b) {
        var d :| 0 <= d < |s.consumers| && Has(s.consumers[d], b);
        FailKeepsBlock(s, c, d, b);
        StillHas(s, FailMapStep(s, c), b, d);
      }
    }
  }

  lemma WakeKeepsBlock(s: State, c: nat, w: nat, b: nat)
    requires b < |s.blocks| && InUse(s, b)
    ensures var s' := Step(s, Wake(c, w));
            s'.blocks[b].data == s.blocks[b].data && s'.blocks[b].size == s.blocks[b].size && InUse(s', b)
  {
    var s' := Step(s, Wake(c, w));
    if s' != s {
      if w == b {
        StillHas(s, s', b, c);
      } else if !s.blocks[b].ready {
        var d :| 0 <= d < |s.consumers| && Has(s.consumers[d], b);
        StillHas(s, s', b, d);
      }
    }
  }

  /** In every interleaving, from the moment its event is set until its continue a block is unavailable and keeps its
      data and its size, whatever step comes next. */
  lemma FilledBlockKept(n: nat, producers: nat, consumers: nat, actions: seq<Action>, a: Action, b: nat)
    requires b < |Run(Initial(n, producers, consumers), actions).blocks|
    requires InUse(Run(Initial(n, producers, consumers), actions), b)
    ensures var s := Run(Initial(n, producers, consumers), actions);
            var s' := Step(s, a);
            && !s.blocks[b].available
            && s'.blocks[b].data == s.blocks[b].data && s'.blocks[b].size == s.blocks[b].size
            && (InUse(s', b) || LetsGo(s, a, b))
  {
    RunKeepsInv(n, producers, consumers, actions);
    var s := Run(Initial(n, producers, consumers), actions);
    InUseStage(s, b);
    match a
    case Produce(p, item) =>
    case StepProducer(p) =>
      if p < |s.producers| {
        ProducerLeavesAlone(s, p, b);
      }
    case Wake(c, w) => WakeKeepsBlock(s, c, w, b);
    case StepConsumer(c) => StepKeepsBlock(s, c, b);
    case FailMap(c) => FailMapKeepsBlock(s, c, b);
  }

  // ----- items get through -----

  /** The next n steps of producer p, with nobody in between. */
  function ProducerAlone(s: State, p: nat, n: nat): (s': State)
    requires p < |s.producers|
    ensures |s'.blocks| == |s.blocks| && |s'.producers| == |s.producers|
    decreases n
  {
    if n == 0 then s else ProducerAlone(ProducerStep(s, p), p, n - 1)
  }

  /** Block b holds the item and waits for a consumer. */
  predicate Offers(s: State, b: nat, item: Item) {
    b < |s.blocks| && s.blocks[b].ready && s.blocks[b].data == item.data && s.blocks[b].size == item.size
  }

  /** Producer p is done, its item is offered, and the mutex is free; no consumer has moved. */
  predicate IsOffered(s: State, s': State, p: nat, b: nat, item: Item) {
    && p < |s'.producers| && s'.producers[p] == Away && s'.mutex == Nobody && s'.consumers == s.consumers
    && Offers(s', b, item)
  }

  lemma DropOffers(s: State, p: nat, item: Item, i: nat)
    requires p < |s.producers| && s.producers[p] == DropMutex && Offers(s, i, item)
    ensures IsOffered(s, ProducerAlone(s, p, 1), p, i, item)
  {
    assert ProducerAlone(s, p, 1) == ProducerAlone(ProducerStep(s, p), p, 0);
  }

  lemma ReadyOffers(s: State, p: nat, item: Item, i: nat)
    requires p < |s.producers| && s.producers[p] == SetReady(i) && i < |s.blocks|
    requires s.blocks[i].data == item.data && s.blocks[i].size == item.size
    ensures IsOffered(s, ProducerAlone(s, p, 2), p, i, item)
  {
    var s1 := ProducerStep(s, p);
    assert s1.producers[p] == DropMutex && Offers(s1, i, item) && s1.consumers == s.consumers;
    DropOffers(s1, p, item, i);
  }

  lemma PutOffers(s: State, p: nat, item: Item, i: nat)
    requires p < |s.producers| && s.producers[p] == PutData(item, i) && i < |s.blocks|
    ensures IsOffered(s, ProducerAlone(s, p, 4), p, i, item)
  {
    var s1 := ProducerStep(s, p);
    assert s1.producers[p] == PutSize(item, i) && s1.blocks[i].data == item.data && s1.consumers == s.consumers;
    var s2 := ProducerStep(s1, p);
    assert s2.producers[p] == SetReady(i) && s2.blocks[i].data == item.data && s2.blocks[i].size == item.size;
    ReadyOffers(s2, p, item, i);
    assert ProducerAlone(s, p, 4) == ProducerAlone(s1, p, 3) == ProducerAlone(s2, p, 2);
  }

  lemma ClaimOffers(s: State, p: nat, item: Item, i: nat)
    requires p < |s.producers| && s.producers[p] == Claim(item, i) && i < |s.blocks|
    ensures IsOffered(s, ProducerAlone(s, p, 5), p, i, item)
  {
    var s1 := ProducerStep(s, p);
    assert s1.producers[p] == PutData(item, i) && s1.consumers == s.consumers;
    PutOffers(s1, p, item, i);
  }

  lemma {:induction false} ScanOffers(s: State, p: nat, item: Item, i: nat, j: nat) returns (n: nat, b: nat)
    requires p < |s.producers| && s.producers[p] == Scan(item, i) && i <= j < |s.blocks| && s.blocks[j].available
    ensures IsOffered(s, ProducerAlone(s, p, n), p, b, item)
    decreases j - i
  {
    var s1 := ProducerStep(s, p);
    var m;
    if s.blocks[i].available {
      assert s1.producers[p] == Claim(item, i) && s1.consumers == s.consumers;
      ClaimOffers(s1, p, item, i);
      m, b := 5, i;
    } else {
      assert s1.producers[p] == Scan(item, i + 1) && s1.blocks == s.blocks && s1.consumers == s.consumers;
      m, b := ScanOffers(s1, p, item, i + 1, j);
    }
    n := m + 1;
  }

  lemma SomeAvailable(s: State) returns (j: nat)
    requires Balanced(s) && s.semaphore > 0
    ensures j < |s.blocks| && s.blocks[j].available
  {
    j := CountPositive(s.blocks, IsAvailable);
  }

  lemma QueueOffers(s: State, p: nat, item: Item, j: nat) returns (n: nat, b: nat)
    requires p < |s.producers| && s.producers[p] == WaitSemaphore(item) && s.semaphore > 0 && s.mutex == Nobody
    requires j < |s.blocks| && s.blocks[j].available
    ensures IsOffered(s, ProducerAlone(s, p, n), p, b, item)
  {
    var s1 := ProducerStep(s, p);
    assert s1.producers[p] == WantMutex(item) && s1.mutex == Nobody;
    assert s1.blocks == s.blocks && s1.consumers == s.consumers;
    var s2 := ProducerStep(s1, p);
    assert s2.producers[p] == Scan(item, 0) && s2.blocks == s.blocks && s2.consumers == s.consumers;
    var m;
    m, b := ScanOffers(s2, p, item, 0, j);
    n := m + 2;
    assert ProducerAlone(s, p, n) == ProducerAlone(s1, p, m + 1) == ProducerAlone(s2, p, m);
  }

  /** A producer that finds the semaphore up and the mutex free puts its item in a block and offers it. */
  lemma ProducerOffers(s: State, p: nat, item: Item) returns (n: nat, b: nat)
    requires Inv(s) && p < |s.producers| && s.producers[p] == WaitSemaphore(item)
    requires s.semaphore > 0 && s.mutex == Nobody
    ensures IsOffered(s, ProducerAlone(s, p, n), p, b, item)
  {
    var j := SomeAvailable(s);
    n, b := QueueOffers(s, p, item, j);
  }

  function ConsumerAlone(s: State, c: nat, n: nat): (s': State)
    requires c < |s.consumers|
    ensures |s'.blocks| == |s.blocks| && |s'.consumers| == |s.consumers|
    decreases n
  {
    if n == 0 then s else ConsumerAlone(ConsumerStep(s, c), c, n - 1)
  }

  lemma ReadsBlock(s: State, c: nat, b: nat, item: Item)
    requires c < |s.consumers| && s.consumers[c] == WantBlock(b) && s.mutex == Nobody && b < |s.blocks|
    requires s.blocks[b].data == item.data && s.blocks[b].size == item.size
    ensures var s' := ConsumerAlone(s, c, 3);
            s'.consumers[c] == Return(b, item) && s'.received == s.received && s'.semaphore == s.semaphore
  {
    var s1 := ConsumerStep(s, c);
    assert s1.consumers[c] == GetData(b) && s1.blocks == s.blocks && s1.received == s.received;
    var s2 := ConsumerStep(s1, c);
    assert s2.consumers[c] == GetSize(b, item.data) && s2.blocks == s.blocks && s2.received == s.received;
    var s3 := ConsumerStep(s2, c);
    assert s3.consumers[c] == Return(b, item);
    assert ConsumerAlone(s, c, 3) == ConsumerAlone(s1, c, 2) == ConsumerAlone(s2, c, 1) == ConsumerAlone(s3, c, 0);
  }

  /** A waiting consumer gets the item that is offered. */
  lemma ConsumerGets(s: State, c: nat, b: nat, item: Item)
    requires c < |s.consumers| && s.consumers[c] == Waiting && s.mutex == Nobody && Offers(s, b, item)
    ensures var s' := ConsumerStep(ConsumerAlone(WakeStep(s, c, b), c, 3), c);
            s'.consumers[c] == Handle(b, item) && s'.received == s.received + multiset{item} && s'.mutex == Nobody
  {
    var s0 := WakeStep(s, c, b);
    assert s0.consumers[c] == WantBlock(b) && s0.mutex == Nobody && SameItem(s.blocks[b], s0.blocks[b]);
    assert s0.received == s.received;
    ReadsBlock(s0, c, b, item);
  }

  predicate SameItem(x: Block, x': Block) {
    x'.data == x.data && x'.size == x.size
  }

  /** Two steps after it has been handled the block can be claimed again and the semaphore is up by one. */
  lemma GivesBack(s: State, c: nat, b: nat, item: Item)
    requires Inv(s) && c < |s.consumers| && s.consumers[c] == Handle(b, item)
    ensures var s' := ConsumerAlone(s, c, 2);
            s'.consumers[c] == Waiting && b < |s'.blocks| && s'.blocks[b].available && s'.semaphore == s.semaphore + 1
  {
    assert ConsumerOk(s.blocks, c, s.consumers[c]);
    var s1 := ConsumerStep(s, c);
    ConsumerKeepsInv(s, c);
    assert s1.consumers[c] == Post && s1.blocks[b].available && s1.semaphore == s.semaphore;
    Posts(s1, c, b);
    assert ConsumerAlone(s, c, 2) == ConsumerAlone(s1, c, 1) == ConsumerAlone(ConsumerStep(s1, c), c, 0);
  }

  lemma Posts(s: State, c: nat, b: nat)
    requires Balanced(s) && c < |s.consumers| && s.consumers[c] == Post && b < |s.blocks| && s.blocks[b].available
    ensures var s' := ConsumerStep(s, c);
            s'.consumers[c] == Waiting && s'.blocks == s.blocks && s'.semaphore == s.semaphore + 1
  {
    PostingFits(s, c);
  }
}
