/**
  The linked tables of physical addresses (ToPA) that tell the trace hardware where its output goes: how setupToPA lays
  them out, how the hardware follows them, and how a saved position is turned back into a byte count.
 */
module TopaTable {
  import Arithmetic

  const PAGE: nat := 4096

  /** Entries per table; the last one of a full table is a link. */
  const TABLE: nat := 512
  const DATA: nat := 511

  /** Physical addresses, by what is there: page k of the output buffer, or table t of the header. */
  datatype Address = OutputPage(k: nat) | Table(t: nat)

  datatype Entry = Entry(address: Address, end: bool, interrupt: bool, stop: bool)

  function GetToPAHeaderCount(bufferSize: nat): nat {
    1 + bufferSize / PAGE / DATA
  }

  /** The number of 4096-byte pages needed for the buffer. */
  function PageCount(bufferSize: nat): nat {
    (bufferSize + PAGE - 1) / PAGE
  }

  predicate IsLink(j: nat) {
    (j + 1) % TABLE == 0
  }

  /** The entry that describes the last of n pages. */
  function LastIndex(n: nat): nat
    requires n > 0
  {
    (n - 1) / DATA * TABLE + (n - 1) % DATA
  }

  /** Where the interrupts start: near 90%, not on the last entry if that can be helped, and not on a link. */
  function FirstInterrupt(last: nat): (first: nat)
    ensures first <= last && (last > 0 ==> first < last)
    ensures !IsLink(first)
    ensures last * 90 / 100 - 1 <= first <= last * 90 / 100
  {
    var i := last * 90 / 100;
    var i := if i == last && i > 0 then i - 1 else i;
    if i > 0 && IsLink(i) then i - 1 else i
  }

  /** The first interrupt, then every second entry that is not a link. */
  predicate InterruptFrom(first: nat, last: nat, j: nat) {
    j == first || (first <= j < last - 1 && (j - first) % 2 == 0 && !IsLink(j))
  }

  predicate HasInterrupt(last: nat, j: nat) {
    InterruptFrom(FirstInterrupt(last), last, j)
  }

  /** What entry j points at: the last entry of a table links to the next table, the others are the pages in order. */
  function AddressAt(j: nat): Address {
    if IsLink(j) then Table((j + 1) / TABLE) else OutputPage(j - j / TABLE)
  }

  ghost predicate Filled(r: seq<Entry>, upto: nat) {
    upto <= |r| && forall j | 0 <= j < upto :: r[j].address == AddressAt(j) && r[j].end == IsLink(j)
  }

  /** The finished header for n pages. */
  ghost predicate Layout(r: seq<Entry>, n: nat)
    requires n > 0
  {
    && Filled(r, LastIndex(n) + 1)
    && (forall j | 0 <= j <= LastIndex(n) ::
          r[j].stop == (j == LastIndex(n)) && r[j].interrupt == HasInterrupt(LastIndex(n), j))
  }

  /** The lookup table knows exactly the tables up to the last one, each by its position in the chain. */
  ghost predicate IndexOfTables(lookup: map<Address, nat>, lastTable: nat) {
    && (forall t: nat :: Table(t) in lookup <==> t <= lastTable)
    && (forall t: nat | t <= lastTable :: lookup[Table(t)] == t)
    && (forall k: nat :: OutputPage(k) !in lookup)
  }

  lemma LinkAt(t: nat, e: nat)
    requires e < TABLE
    ensures IsLink(TABLE * t + e) == (e == DATA)
    ensures (TABLE * t + e) / TABLE == t && (TABLE * t + e) % TABLE == e
  {
    Arithmetic.DivUnique(TABLE * t + e, TABLE, t, e);
    if e == DATA {
      Arithmetic.DivUnique(TABLE * t + e + 1, TABLE, t + 1, 0);
    } else {
      Arithmetic.DivUnique(TABLE * t + e + 1, TABLE, t, e + 1);
    }
  }

  /** Every entry the loop writes lies in the allocated header. */
  lemma EntryFits(bufferSize: nat, t: nat, e: nat)
    requires e <= DATA && PAGE * (DATA * t + e) < bufferSize
    ensures TABLE * t + e < TABLE * GetToPAHeaderCount(bufferSize)
    ensures t < GetToPAHeaderCount(bufferSize)
    ensures e == DATA ==> t + 1 < GetToPAHeaderCount(bufferSize)
  {
    var m := bufferSize / PAGE;
    assert DATA * t + e <= m;
    assert (if e == DATA then t + 1 else t) <= m / DATA;
  }

  /** The two quotients agree: after a chain of t full tables and e > 0 more entries all n pages are described. */
  lemma ExitPosition(bufferSize: nat, t: nat, e: nat)
    requires 0 < e <= DATA && PAGE * (DATA * t + e - 1) < bufferSize <= PAGE * (DATA * t + e)
    ensures PageCount(bufferSize) == DATA * t + e
    ensures LastIndex(PageCount(bufferSize)) == TABLE * t + e - 1
  {
    var k := DATA * t + e;
    Arithmetic.DivUnique(bufferSize + PAGE - 1, PAGE, k, bufferSize + PAGE - 1 - PAGE * k);
    Arithmetic.DivUnique(k - 1, DATA, t, e - 1);
  }

  predicate Unmarked(e: Entry) {
    !e.stop && !e.interrupt
  }

  /** The loop that points the entries at the pages and the tables at each other. */
  method FillEntries(r: array<Entry>, bufferSize: nat) returns (lookup: map<Address, nat>, last: nat)
    requires 0 < bufferSize < 0x1_0000_0000
    requires r.Length == TABLE * GetToPAHeaderCount(bufferSize)
    modifies r
    ensures last == LastIndex(PageCount(bufferSize)) < r.Length && !IsLink(last)
    ensures Filled(r[..], last + 1)
    ensures forall j | 0 <= j <= last :: Unmarked(r[j])
    ensures IndexOfTables(lookup, last / TABLE)
  {
    var index := 0;
    lookup := map[Table(0) := index];
    var output, toPAIndex := 0, 0;
    ghost var e := 0;
    while output < bufferSize
      invariant 0 <= index && 0 <= e <= DATA
      invariant toPAIndex == TABLE * index + e <= r.Length && output == PAGE * (DATA * index + e)
      invariant if e == 0 then output < bufferSize else PAGE * (DATA * index + e - 1) < bufferSize
      invariant Filled(r[..], toPAIndex)
      invariant forall j | 0 <= j < toPAIndex :: Unmarked(r[j])
      invariant IndexOfTables(lookup, index)
      decreases bufferSize - output, e
    {
      EntryFits(bufferSize, index, e);
      LinkAt(index, e);
      if (toPAIndex + 1) % TABLE == 0 {
        lookup, index := LinkEntry(r, toPAIndex, lookup, index);
        e := 0;
      } else {
        DataEntry(r, toPAIndex, index, output, e);
        output := output + PAGE;
        e := e + 1;
      }
      toPAIndex := toPAIndex + 1;
    }
    last := toPAIndex - 1;
    ExitPosition(bufferSize, index, e);
    LinkAt(index, e - 1);
  }

  method LinkEntry(r: array<Entry>, toPAIndex: nat, lookup: map<Address, nat>, index: nat)
    returns (lookup': map<Address, nat>, index': nat)
    requires toPAIndex == TABLE * index + DATA < r.Length && Filled(r[..], toPAIndex) && IndexOfTables(lookup, index)
    requires forall j | 0 <= j < toPAIndex :: Unmarked(r[j])
    modifies r
    ensures Filled(r[..], toPAIndex + 1)
    ensures forall j | 0 <= j <= toPAIndex :: Unmarked(r[j])
    ensures index' == index + 1 && IndexOfTables(lookup', index')
  {
    LinkAt(index, DATA);
    LinkAt(index + 1, 0);
    r[toPAIndex] := Entry(Table((toPAIndex + 1) / TABLE), true, false, false);
    index' := index + 1;
    lookup' := lookup[Table((toPAIndex + 1) / TABLE) := index'];
  }

  method DataEntry(r: array<Entry>, toPAIndex: nat, index: nat, output: nat, ghost e: nat)
    requires e < DATA && toPAIndex == TABLE * index + e < r.Length && output == PAGE * (DATA * index + e)
    requires Filled(r[..], toPAIndex)
    requires forall j | 0 <= j < toPAIndex :: Unmarked(r[j])
    modifies r
    ensures Filled(r[..], toPAIndex + 1)
    ensures forall j | 0 <= j <= toPAIndex :: Unmarked(r[j])
  {
    LinkAt(index, e);
    Arithmetic.DivUnique(output, PAGE, DATA * index + e, 0);
    r[toPAIndex] := Entry(OutputPage(output / PAGE), false, false, false);
  }

  predicate SameTarget(e: Entry, e': Entry) {
    e.address == e'.address && e.end == e'.end
  }

  /** Sets the interrupts from entry `i` on; the last entry is already marked. */
  method SetInterrupts(r: array<Entry>, last: nat, first: nat)
    requires first <= last < r.Length
    requires forall j | 0 <= j <= last :: !r[j].interrupt && r[j].stop == (j == last)
    modifies r
    ensures forall j | 0 <= j < r.Length :: SameTarget(r[j], old(r[j]))
    ensures forall j | 0 <= j <= last :: r[j].stop == (j == last) && r[j].interrupt == InterruptFrom(first, last, j)
  {
    var i := first;
    r[i] := r[i].(interrupt := true);
    if last > 0 {
      while i < last - 1
        invariant first <= i <= last && (i - first) % 2 == 0
        invariant forall j | 0 <= j < r.Length :: SameTarget(r[j], old(r[j]))
        invariant forall j | 0 <= j <= last ::
                    && r[j].stop == (j == last)
                    && r[j].interrupt == (j == first || (j < i && InterruptFrom(first, last, j)))
      {
        if (i + 1) % TABLE != 0 {
          r[i] := r[i].(interrupt := true);
        }
        i := i + 2;
      }
    }
  }

  /** setupToPA for hardware that supports several entries. `junk` is what the allocated header held before. */
  method SetupToPA(bufferSize: nat, junk: nat -> Entry) returns (r: array<Entry>, lookup: map<Address, nat>)
    requires 0 < bufferSize < 0x1_0000_0000
    ensures r.Length == TABLE * GetToPAHeaderCount(bufferSize)
    ensures LastIndex(PageCount(bufferSize)) < r.Length && Layout(r[..], PageCount(bufferSize))
    ensures IndexOfTables(lookup, LastIndex(PageCount(bufferSize)) / TABLE)
  {
    r := new Entry[TABLE * GetToPAHeaderCount(bufferSize)](junk);
    var last;
    lookup, last := FillEntries(r, bufferSize);
    ghost var before := r[..];
    r[last] := r[last].(stop := true);
    var i := FirstInterrupt(last);
    SetInterrupts(r, last, i);
    FilledByAddress(before, r[..], last + 1);
  }

  lemma FilledByAddress(r: seq<Entry>, r': seq<Entry>, upto: nat)
    requires Filled(r, upto) && |r'| == |r|
    requires forall j | 0 <= j < |r| :: SameTarget(r'[j], r[j])
    ensures Filled(r', upto)
  {
  }

  // ----- what the hardware does with it -----

  /** A table of the chain and an entry in it. */
  datatype Position = Position(table: nat, entry: nat)

  /** If the entry is a link the hardware goes on at the table it points to. */
  function Settle(r: seq<Entry>, p: Position): Position {
    var j := TABLE * p.table + p.entry;
    if j < |r| && r[j].end && r[j].address.Table? then Position(r[j].address.t, 0) else p
  }

  /** Where the hardware puts output page k: it starts at the first entry and moves on entry by entry. */
  function SlotOf(r: seq<Entry>, k: nat): Position {
    if k == 0 then Settle(r, Position(0, 0))
    else var p := SlotOf(r, k - 1); Settle(r, Position(p.table, p.entry + 1))
  }

  /** Later pages have later entries. */
  lemma SlotOrder(n: nat, t: nat, e: nat)
    requires e < DATA && DATA * t + e < n
    ensures TABLE * t + e <= LastIndex(n)
    ensures TABLE * t + e == LastIndex(n) <==> DATA * t + e == n - 1
  {
    var t', e' := (n - 1) / DATA, (n - 1) % DATA;
    assert DATA * t + e <= DATA * t' + e' == n - 1;
    assert t <= t';
  }

  /** Entry j describes page k, and stops the hardware if that is the last page. */
  predicate IsPage(r: seq<Entry>, n: nat, j: nat, k: nat) {
    n > 0 && j <= LastIndex(n) < |r| && r[j].address == OutputPage(k) && !r[j].end && (r[j].stop <==> k == n - 1)
  }

  /** The entry of page DATA * t + e, and of the link before it if it is the first of its table. */
  lemma EntryOfPage(r: seq<Entry>, n: nat, t: nat, e: nat)
    requires n > 0 && Layout(r, n) && e < DATA && DATA * t + e < n
    ensures IsPage(r, n, TABLE * t + e, DATA * t + e)
    ensures t > 0 ==> var j := TABLE * (t - 1) + DATA;
                      j <= LastIndex(n) && r[j].end && r[j].address == Table(t)
  {
    SlotOrder(n, t, e);
    LinkAt(t, e);
    if t > 0 {
      LinkAt(t - 1, DATA);
      LinkAt(t, 0);
    }
  }

  lemma SettleAt(r: seq<Entry>, n: nat, t: nat, e: nat)
    requires n > 0 && Layout(r, n) && e < DATA && DATA * t + e < n
    ensures Settle(r, Position(t, e)) == Position(t, e)
    ensures t > 0 ==> Settle(r, Position(t - 1, DATA)) == Position(t, 0)
  {
    EntryOfPage(r, n, t, e);
  }

  predicate Stays(r: seq<Entry>, t: nat, e: nat) {
    Settle(r, Position(t, e)) == Position(t, e)
  }

  predicate LeadsOn(r: seq<Entry>, t: nat) {
    Settle(r, Position(t, DATA)) == Position(t + 1, 0)
  }

  /** The hardware's moves: it stays on a page's entry, and the link after a full table leads to the next one. */
  ghost predicate Chained(r: seq<Entry>, n: nat) {
    && (forall t: nat, e: nat | e < DATA && DATA * t + e < n :: Stays(r, t, e))
    && (forall t: nat | DATA * t + DATA < n :: LeadsOn(r, t))
  }

  lemma LayoutChains(r: seq<Entry>, n: nat)
    requires n > 0 && Layout(r, n)
    ensures Chained(r, n)
  {
    forall t: nat, e: nat | e < DATA && DATA * t + e < n ensures Stays(r, t, e) {
      SettleAt(r, n, t, e);
    }
    forall t: nat | DATA * t + DATA < n ensures LeadsOn(r, t) {
      SettleAt(r, n, t + 1, 0);
    }
  }

  lemma {:induction false} SlotAt(r: seq<Entry>, n: nat, k: nat, t: nat, e: nat)
    requires Chained(r, n) && e < DATA && k == DATA * t + e < n
    ensures SlotOf(r, k) == Position(t, e)
    decreases k
  {
    assert Stays(r, t, e);
    if e > 0 {
      SlotAt(r, n, k - 1, t, e - 1);
    } else if t > 0 {
      SlotAt(r, n, k - 1, t - 1, DATA - 1);
      assert LeadsOn(r, t - 1);
    }
  }

  /** Following the links visits the output pages once each and in order, and stops after the last one. */
  lemma {:induction false} ChainVisitsPages(r: seq<Entry>, n: nat, k: nat)
    requires n > 0 && Layout(r, n) && k < n
    ensures SlotOf(r, k) == Position(k / DATA, k % DATA)
    ensures IsPage(r, n, TABLE * (k / DATA) + k % DATA, k)
  {
    var t, e := k / DATA, k % DATA;
    assert IsPage(r, n, TABLE * t + e, k) by {
      EntryOfPage(r, n, t, e);
    }
    assert SlotOf(r, k) == Position(t, e) by {
      LayoutChains(r, n);
      SlotAt(r, n, k, t, e);
    }
  }

  /** Stop and interrupt bits are on data entries only; there is an interrupt, and it comes before the stop if there is
      more than one entry. */
  lemma {:induction false} MarksOnPages(r: seq<Entry>, n: nat)
    requires n > 0 && Layout(r, n)
    ensures r[LastIndex(n)].stop && r[LastIndex(n)].address == OutputPage(n - 1)
    ensures forall j | 0 <= j <= LastIndex(n) && (r[j].stop || r[j].interrupt) :: r[j].address.OutputPage? && !r[j].end
    ensures var first := FirstInterrupt(LastIndex(n));
            && first <= LastIndex(n) && (LastIndex(n) > 0 ==> first < LastIndex(n))
            && r[first].interrupt
            && forall j | 0 <= j < first :: !r[j].interrupt
  {
    ChainVisitsPages(r, n, n - 1);
  }

  /** From the first interrupt on, of two neighbouring pages one interrupts and one does not, also across a link; the
      last two entries do not. */
  lemma InterruptsAlternate(r: seq<Entry>, n: nat, j: nat)
    requires n > 0 && Layout(r, n) && FirstInterrupt(LastIndex(n)) <= j <= LastIndex(n)
    ensures var last := LastIndex(n);
            && (j + 2 < last && !r[j].end && !r[j + 1].end ==> r[j].interrupt != r[j + 1].interrupt)
            && (j + 3 < last && r[j + 1].end ==> r[j + 2].interrupt == r[j].interrupt)
            && (j + 1 >= last && j > FirstInterrupt(last) ==> !r[j].interrupt)
  {
    var last := LastIndex(n);
    AlternateAt(FirstInterrupt(last), last, j);
  }

  lemma AlternateAt(first: nat, last: nat, j: nat)
    requires first <= j <= last && !IsLink(first)
    ensures j + 2 < last && !IsLink(j) && !IsLink(j + 1) ==>
              InterruptFrom(first, last, j) != InterruptFrom(first, last, j + 1)
    ensures j + 3 < last && IsLink(j + 1) ==> InterruptFrom(first, last, j + 2) == InterruptFrom(first, last, j)
    ensures j + 1 >= last && j > first ==> !InterruptFrom(first, last, j)
  {
    if IsLink(j + 1) {
      LinkIsLone(j + 1);
    }
  }

  lemma LinkIsLone(j: nat)
    requires j > 0 && IsLink(j)
    ensures !IsLink(j - 1) && !IsLink(j + 1)
  {
  }

  /** No more than one table is allocated beyond those the chain uses. */
  lemma HeaderTight(bufferSize: nat)
    requires bufferSize > 0
    ensures LastIndex(PageCount(bufferSize)) / TABLE + 1 <= GetToPAHeaderCount(bufferSize) <=
            LastIndex(PageCount(bufferSize)) / TABLE + 2
  {
    var n, m := PageCount(bufferSize), bufferSize / PAGE;
    assert n - 1 <= m <= n;
    LinkAt((n - 1) / DATA, (n - 1) % DATA);
  }

  /** IA32_RTIT_OUTPUT_MASK_PTRS: the entry in bits 7 to 31, the offset in the page in the high half. */
  function MaskPtrs(entry: nat, offset: nat): nat {
    offset * 0x1_0000_0000 + entry * 128 + 127
  }

  /** The writer's size expression; None if the table is unknown. */
  datatype Size = Unknown | Known(bytes: nat)

  function SavedSize(lookup: map<Address, nat>, base: Address, mask: nat): Size {
    if base in lookup
    then Known((lookup[base] * 511 + mask % 0x1_0000_0000 / 128) * 4096 + mask / 0x1_0000_0000)
    else Unknown
  }

  lemma MaskFields(entry: nat, offset: nat)
    requires entry < TABLE
    ensures MaskPtrs(entry, offset) % 0x1_0000_0000 / 128 == entry
    ensures MaskPtrs(entry, offset) / 0x1_0000_0000 == offset
  {
    Arithmetic.DivUnique(MaskPtrs(entry, offset), 0x1_0000_0000, offset, entry * 128 + 127);
    Arithmetic.DivUnique(entry * 128 + 127, 128, entry, 127);
  }

  /** When the hardware is at byte `offset` of output page k, the writer computes the number of bytes in the pages
      before it plus the offset. */
  lemma {:induction false} SavedSizeIsFlatOffset(r: seq<Entry>, lookup: map<Address, nat>, n: nat, k: nat, offset: nat)
    requires n > 0 && Layout(r, n) && IndexOfTables(lookup, LastIndex(n) / TABLE) && k < n && offset <= PAGE
    ensures var p := SlotOf(r, k);
            SavedSize(lookup, Table(p.table), MaskPtrs(p.entry, offset)) == Known(PAGE * k + offset)
  {
    ChainVisitsPages(r, n, k);
    var t, e := k / DATA, k % DATA;
    MaskFields(e, offset);
    LinkAt((n - 1) / DATA, (n - 1) % DATA);
    assert t <= LastIndex(n) / TABLE;
    assert t * 511 + e == k;
  }

  /** The same for a hardware that rests on the link entry after filling the last page of a table. */
  lemma SavedSizeAtLink(lookup: map<Address, nat>, lastTable: nat, t: nat)
    requires IndexOfTables(lookup, lastTable) && t < lastTable
    ensures SavedSize(lookup, Table(t), MaskPtrs(DATA, 0)) == SavedSize(lookup, Table(t + 1), MaskPtrs(0, 0))
  {
    MaskFields(DATA, 0);
    MaskFields(0, 0);
  }
}
