/**
  The skipping page-table walk of the memory scanner and its two callbacks: collecting accessed ranges, and
  clearing the accessed bits.  `Leaves` is the slow form, one look at every page; the walk is proved to
  call back exactly as that does.
 */
module PageWalk {
  import opened Arithmetic
  import opened Paging

  /** One callback: the byte range of a present page and the entry that maps it. */
  datatype Leaf = Leaf(start: Word, end: Word, entry: Location)

  datatype Range = Range(start: Word, end: Word)

  datatype Callback = StoreAccessedRanges | MarkPageAsNotAccessed

  /** Everything a callback can change. */
  datatype State = State(mem: PhysicalMemory, list: seq<Range>, size: int)

  /** The limit enumAllAccessedPages and markAllPagesAsNeverAccessed use. */
  const USER_LIMIT: Word := 0x800_0000_0000

  const RANGE_BYTES: nat := 16

  /** The pages of the whole 64-bit space. */
  const PAGES_64BIT: nat := 0x10_0000_0000_0000

  // ---------------------------------------------------------------------------------------------
  // The slow form.

  /** The leaf that starts at a page of the 64-bit space, given how the walk of that page ends. */
  function LeafOf(w: Walk, page: nat): seq<Leaf>
    requires page < PAGES_64BIT
  {
    var start := page * SIZE_4K;
    match w
    case Small(entry) => [Leaf(start, start + 0xfff, entry)]
    case Large(entry) => if page % PAGES_2M == 0 then [Leaf(start, start + SIZE_2M - 1, entry)] else []
    case _ => []
  }

  function LeafAt(m: PhysicalMemory, root: nat, page: nat): seq<Leaf>
    requires page < PAGES_64BIT
  {
    LeafOf(WalkTables(m, root, page % PAGES_48BIT), page)
  }

  function Leaves(m: PhysicalMemory, root: nat, pages: nat): seq<Leaf>
    requires pages <= PAGES_64BIT
  {
    if pages == 0 then [] else Leaves(m, root, pages - 1) + LeafAt(m, root, pages - 1)
  }

  /** The pages that start below a limit. */
  function PagesBelow(limit: Word): nat {
    (limit + SIZE_4K - 1) / SIZE_4K
  }

  function SetAccessed(m: PhysicalMemory, entry: Location, value: bool): PhysicalMemory {
    (l: Location) => if l == entry then m(l).(a := value) else m(l)
  }

  function OnPresentPage(callback: Callback, s: State, leaf: Leaf): State {
    match callback
    case StoreAccessedRanges =>
      if !s.mem(leaf.entry).a then s
      else if s.list != [] && s.list[0].end == (leaf.start - 1) % TWO_64 then
        s.(list := [s.list[0].(end := leaf.end)] + s.list[1..])
      else
        s.(list := [Range(leaf.start, leaf.end)] + s.list, size := s.size + 1)
    case MarkPageAsNotAccessed =>
      s.(mem := SetAccessed(s.mem, leaf.entry, false))
  }

  function Replay(callback: Callback, s: State, leaves: seq<Leaf>): State {
    if leaves == [] then s
    else OnPresentPage(callback, Replay(callback, s, leaves[..|leaves| - 1]), leaves[|leaves| - 1])
  }

  /** The tables agree on everything but accessed bits. */
  ghost predicate SameTables(m: PhysicalMemory, m': PhysicalMemory) {
    forall l: Location :: m'(l).(a := m(l).a) == m(l)
  }

  lemma SameWalk(m: PhysicalMemory, m': PhysicalMemory, root: nat, n: Vpn)
    requires SameTables(m, m')
    ensures Pdpte(m', root, n) == Pdpte(m, root, n)
    ensures Pde(m', root, n) == Pde(m, root, n) && Pte(m', root, n) == Pte(m, root, n)
    ensures WalkTables(m', root, n) == WalkTables(m, root, n)
  {
    assert m'(Pml4e(root, n)).(a := m(Pml4e(root, n)).a) == m(Pml4e(root, n));
    assert m'(Pdpte(m, root, n)).(a := m(Pdpte(m, root, n)).a) == m(Pdpte(m, root, n));
    assert m'(Pde(m, root, n)).(a := m(Pde(m, root, n)).a) == m(Pde(m, root, n));
    assert m'(Pte(m, root, n)).(a := m(Pte(m, root, n)).a) == m(Pte(m, root, n));
  }

  lemma SameSelfMap(m: PhysicalMemory, m': PhysicalMemory, root: nat, base: Word)
    requires SameTables(m, m') && SelfMapped(m, root, base)
    ensures SelfMapped(m', root, base)
  {
    var self := Location(root, SelfIndex(base));
    assert m'(self).(a := m(self).a) == m(self);
  }

  lemma SameNotHuge(m: PhysicalMemory, m': PhysicalMemory, root: nat, n: Vpn)
    requires SameTables(m, m') && NotHuge(m, root, n)
    ensures NotHuge(m', root, n)
  {
    SameWalk(m, m', root, n);
    assert m'(Pml4e(root, n)).(a := m(Pml4e(root, n)).a) == m(Pml4e(root, n));
    assert m'(Pdpte(m, root, n)).(a := m(Pdpte(m, root, n)).a) == m(Pdpte(m, root, n));
  }

  predicate NotHugeAt(m: PhysicalMemory, root: nat, page: nat) {
    NotHuge(m, root, page % PAGES_48BIT)
  }

  /** No page that starts below the limit is part of a 1GB page. */
  ghost predicate NoHugeBelow(m: PhysicalMemory, root: nat, limit: Word) {
    forall page | 0 <= page < PagesBelow(limit) :: NotHugeAt(m, root, page)
  }

  lemma {:induction false} SkipEmpty(m: PhysicalMemory, root: nat, from: nat, to: nat)
    requires from <= to <= PAGES_64BIT
    requires forall p | from <= p < to :: LeafAt(m, root, p) == []
    ensures Leaves(m, root, to) == Leaves(m, root, from)
  {
    if from < to {
      SkipEmpty(m, root, from, to - 1);
    }
  }

  /** The pages the walk may jump over after looking at one page. */
  function SkipPages(w: Walk): (pages: nat)
    ensures pages > 0
  {
    match w
    case NoPml4e => PAGES_512G
    case NoPdpte => PAGES_1G
    case NoPde | Large(_) => PAGES_2M
    case _ => 1
  }

  /** The first page of the span a page lies in. */
  function SpanStart(w: Walk, page: nat): nat {
    match w
    case NoPml4e => page - page % PAGES_512G
    case NoPdpte => page - page % PAGES_1G
    case NoPde | Large(_) => page - page % PAGES_2M
    case _ => page
  }

  /** The page the walk goes to after a page. */
  function SuccessorOf(w: Walk, page: nat): nat {
    SpanStart(w, page) + SkipPages(w)
  }

  function Successor(m: PhysicalMemory, root: nat, page: nat): nat {
    SuccessorOf(WalkTables(m, root, page % PAGES_48BIT), page)
  }

  /** Every page of the same aligned span walks to the same missing entry, or the same large page. */
  lemma SpanUniform(m: PhysicalMemory, root: nat, n: Vpn, n': Vpn)
    requires SpanStart(WalkTables(m, root, n), n') == SpanStart(WalkTables(m, root, n), n)
    ensures WalkTables(m, root, n') == WalkTables(m, root, n)
  {
    SameIndices(n, n');
  }

  lemma SameIndices(n: Vpn, n': Vpn)
    ensures n - n % PAGES_512G == n' - n' % PAGES_512G ==> Pml4Index(n') == Pml4Index(n)
    ensures n - n % PAGES_1G == n' - n' % PAGES_1G ==>
              Pml4Index(n') == Pml4Index(n) && PdptIndex(n') == PdptIndex(n)
    ensures n - n % PAGES_2M == n' - n' % PAGES_2M ==>
              Pml4Index(n') == Pml4Index(n) && PdptIndex(n') == PdptIndex(n) && PdIndex(n') == PdIndex(n)
  {
    DivDiv(n, PAGES_2M, 512, PAGES_1G);
    DivDiv(n, PAGES_1G, 512, PAGES_512G);
    DivDiv(n', PAGES_2M, 512, PAGES_1G);
    DivDiv(n', PAGES_1G, 512, PAGES_512G);
    RoundDown(n, PAGES_512G);
    RoundDown(n', PAGES_512G);
    RoundDown(n, PAGES_1G);
    RoundDown(n', PAGES_1G);
    RoundDown(n, PAGES_2M);
    RoundDown(n', PAGES_2M);
  }

  lemma SameSpan(w: Walk, page: nat, p: nat)
    requires page < p < SpanStart(w, page) + SkipPages(w)
    ensures SpanStart(w, page % PAGES_48BIT) == SpanStart(w, p % PAGES_48BIT)
    ensures w.Large? ==> p % PAGES_2M != 0
    ensures !w.Small?
  {
    match w
    case NoPml4e => SameBlock(page, p, PAGES_512G, 512, PAGES_48BIT);
    case NoPdpte => SameBlock(page, p, PAGES_1G, 512 * 512, PAGES_48BIT);
    case NoPde => SameBlock(page, p, PAGES_2M, PAGES_512G, PAGES_48BIT);
    case Large(_) => SameBlock(page, p, PAGES_2M, PAGES_512G, PAGES_48BIT);
    case _ =>
  }

  lemma SuccessorBound(w: Walk, page: nat)
    requires page < PAGES_64BIT
    ensures page < SuccessorOf(w, page) <= PAGES_64BIT
    ensures page == 0 ==> SuccessorOf(w, page) < PAGES_64BIT
  {
  }

  lemma LandsAligned(w: Walk, page: nat)
    requires SkipPages(w) != 1
    ensures (SpanStart(w, page) + SkipPages(w)) % PAGES_2M == 0
  {
    match w
    case NoPml4e =>
      DivUnique(page - page % PAGES_512G + PAGES_512G, PAGES_2M, PAGES_1G * (page / PAGES_512G + 1), 0);
    case NoPdpte =>
      DivUnique(page - page % PAGES_1G + PAGES_1G, PAGES_2M, 512 * (page / PAGES_1G + 1), 0);
    case NoPde =>
      DivUnique(page - page % PAGES_2M + PAGES_2M, PAGES_2M, page / PAGES_2M + 1, 0);
    case Large(_) =>
      DivUnique(page - page % PAGES_2M + PAGES_2M, PAGES_2M, page / PAGES_2M + 1, 0);
    case _ =>
  }

  lemma NextInBlock(page: nat)
    requires (page + 1) % PAGES_2M != 0
    ensures (page + 1) % PAGES_2M == page % PAGES_2M + 1
    ensures page % PAGES_48BIT - page % PAGES_48BIT % PAGES_2M ==
            (page + 1) % PAGES_48BIT - (page + 1) % PAGES_48BIT % PAGES_2M
  {
    if page % PAGES_2M == 511 {
      DivUnique(page + 1, PAGES_2M, page / PAGES_2M + 1, 0);
    }
    SameBlock(page, page + 1, PAGES_2M, PAGES_512G, PAGES_48BIT);
  }

  ghost predicate NotInsideLarge(m: PhysicalMemory, root: nat, page: nat) {
    page % PAGES_2M != 0 ==> !WalkTables(m, root, page % PAGES_48BIT).Large?
  }

  lemma NeverLandsInsideLarge(m: PhysicalMemory, root: nat, page: nat)
    requires NotInsideLarge(m, root, page)
    ensures NotInsideLarge(m, root, Successor(m, root, page))
  {
    var w := WalkTables(m, root, page % PAGES_48BIT);
    if SkipPages(w) != 1 {
      LandsAligned(w, page);
    } else if (page + 1) % PAGES_2M != 0 && WalkTables(m, root, (page + 1) % PAGES_48BIT).Large? {
      NextInBlock(page);
      SpanUniform(m, root, (page + 1) % PAGES_48BIT, page % PAGES_48BIT);
      assert false;
    }
  }

  /** One jump passes over no leaf but the one at its start. */
  lemma SuccessorSkips(m: PhysicalMemory, root: nat, page: nat, next: nat)
    requires page < PAGES_64BIT
    requires next == Successor(m, root, page)
    ensures page < next <= PAGES_64BIT
    ensures forall p | page < p < next :: LeafAt(m, root, p) == []
    ensures Leaves(m, root, next) == Leaves(m, root, page) + LeafAt(m, root, page)
  {
    SuccessorBound(WalkTables(m, root, page % PAGES_48BIT), page);
    forall p | page < p < next
      ensures LeafAt(m, root, p) == []
    {
      SkippedIsEmpty(m, root, page, p);
    }
    SkipEmpty(m, root, page + 1, next);
  }

  lemma SkippedIsEmpty(m: PhysicalMemory, root: nat, page: nat, p: nat)
    requires page < p < PAGES_64BIT && p < Successor(m, root, page)
    ensures LeafAt(m, root, p) == []
  {
    var n, n' := page % PAGES_48BIT, p % PAGES_48BIT;
    SameSpan(WalkTables(m, root, n), page, p);
    SpanUniform(m, root, n, n');
  }

  // ---------------------------------------------------------------------------------------------
  // The walk itself.

  class Scanner {
    const root: nat
    const base: Word
    var mem: PhysicalMemory
    var accessedList: seq<Range>
    var accessedListSize: int

    constructor (root: nat, base: Word, mem: PhysicalMemory)
      ensures this.root == root && this.base == base && this.mem == mem
      ensures accessedList == [] && accessedListSize == 0
    {
      this.root, this.base, this.mem := root, base, mem;
      accessedList, accessedListSize := [], 0;
    }

    function Snapshot(): State
      reads this
    {
      State(mem, accessedList, accessedListSize)
    }

    ghost predicate Valid()
      reads this
    {
      SelfMapped(mem, root, base)
    }

    method Call(callback: Callback, start: Word, end: Word, pageEntry: Location)
      modifies this
      ensures Snapshot() == OnPresentPage(callback, old(Snapshot()), Leaf(start, end, pageEntry))
    {
      match callback {
        case StoreAccessedRanges =>
          if mem(pageEntry).a {
            if accessedList != [] && accessedList[0].end == (start - 1) % TWO_64 {
              accessedList := [accessedList[0].(end := end)] + accessedList[1..];
            } else {
              accessedList := [Range(start, end)] + accessedList;
              accessedListSize := accessedListSize + 1;
            }
          }
        case MarkPageAsNotAccessed =>
          mem := SetAccessed(mem, pageEntry, false);
      }
    }

    /** One turn of the walk: call back on a leaf, and move the cursor. */
    method Visit(w: Walk, currentAddress: Word, callback: Callback, ghost page: nat) returns (next: Word)
      requires page < PAGES_64BIT && currentAddress == page * SIZE_4K && !w.Huge?
      requires w.Large? ==> page % PAGES_2M == 0
      modifies this
      ensures Snapshot() == Replay(callback, old(Snapshot()), LeafOf(w, page))
      ensures SuccessorOf(w, page) <= PAGES_64BIT && next == Cursor(SuccessorOf(w, page))
    {
      CallOnLeaf(w, currentAddress, callback, page);
      next := NextAddress(w, currentAddress, page);
    }

    method CallOnLeaf(w: Walk, currentAddress: Word, callback: Callback, ghost page: nat)
      requires page < PAGES_64BIT && currentAddress == page * SIZE_4K && !w.Huge?
      requires w.Large? ==> page % PAGES_2M == 0
      modifies this
      ensures Snapshot() == Replay(callback, old(Snapshot()), LeafOf(w, page))
    {
      CursorPage(page);
      if w.Large? {
        Call(callback, currentAddress, currentAddress + SIZE_2M - 1, w.entry);
        ReplaySingle(callback, old(Snapshot()), LeafOf(w, page));
      } else if w.Small? {
        Call(callback, currentAddress, currentAddress + 0xfff, w.entry);
        ReplaySingle(callback, old(Snapshot()), LeafOf(w, page));
      }
    }

    method WalkPagingLayout(maxAddress: Word, callback: Callback)
      requires Valid() && NoHugeBelow(mem, root, maxAddress)
      modifies this
      ensures Valid() && SameTables(old(mem), mem)
      ensures Snapshot() == Replay(callback, old(Snapshot()), Leaves(old(mem), root, PagesBelow(maxAddress)))
    {
      ghost var m, s := mem, Snapshot();
      var currentAddress: Word, lastAddress: Word := 0, 0;
      ghost var reach := 0;  // the page under the cursor, before the cursor wraps around
      while currentAddress < maxAddress && lastAddress <= currentAddress
        invariant 0 <= reach <= PAGES_64BIT && currentAddress == Cursor(reach)
        invariant if reach == PAGES_64BIT then lastAddress > currentAddress else lastAddress <= currentAddress
        invariant NotInsideLarge(m, root, reach)
        invariant SameTables(m, mem) && SelfMapped(mem, root, base)
        invariant Snapshot() == Replay(callback, s, Leaves(m, root, reach))
        invariant forall p | PagesBelow(maxAddress) <= p < reach :: LeafAt(m, root, p) == []
        decreases PAGES_64BIT - reach
      {
        lastAddress := currentAddress;
        CursorPage(reach);
        CursorBelow(reach, maxAddress);
        assert NotHugeAt(m, root, reach);
        SameNotHuge(m, mem, root, reach % PAGES_48BIT);
        SameWalk(m, mem, root, reach % PAGES_48BIT);
        var w := LookUp(mem, root, base, EntryPointer(base, currentAddress), currentAddress);
        currentAddress := Visit(w, currentAddress, callback, reach);
        ReplayMore(callback, s, Leaves(m, root, reach), LeafAt(m, root, reach));
        ReplayKeepsTables(callback, s, Leaves(m, root, reach) + LeafAt(m, root, reach));
        SameSelfMap(m, mem, root, base);
        ghost var next := Successor(m, root, reach);
        SuccessorSkips(m, root, reach, next);
        SuccessorBound(w, reach);
        NeverLandsInsideLarge(m, root, reach);
        reach := next;
      }
      SkipEmpty(m, root, PagesBelow(maxAddress), reach);
    }

    method CleanAccessedList()
      modifies this`accessedList, this`accessedListSize
      ensures accessedList == [] && accessedListSize == 0
    {
      accessedList, accessedListSize := [], 0;
    }

    method EnumAllAccessedPages() returns (bytes: int)
      requires Valid() && NoHugeBelow(mem, root, USER_LIMIT)
      modifies this
      ensures Valid()
      ensures Snapshot() == Replay(StoreAccessedRanges, State(old(mem), [], 0),
                                   Leaves(old(mem), root, PagesBelow(USER_LIMIT)))
      ensures bytes == accessedListSize * 16
    {
      CleanAccessedList();
      WalkPagingLayout(USER_LIMIT, StoreAccessedRanges);
      return accessedListSize * RANGE_BYTES;
    }

    method MarkAllPagesAsNeverAccessed()
      requires Valid() && NoHugeBelow(mem, root, USER_LIMIT)
      modifies this
      ensures Valid()
      ensures Snapshot() == Replay(MarkPageAsNotAccessed, old(Snapshot()),
                                   Leaves(old(mem), root, PagesBelow(USER_LIMIT)))
    {
      WalkPagingLayout(USER_LIMIT, MarkPageAsNotAccessed);
    }

    /** Copies the list out, as far as it fits, and frees it.  A buffer of the size EnumAllAccessedPages
        returned receives all of it. */
    method GetAccessedPageList(buffer: array<Range>, listSizeInBytes: nat) returns (bytes: int)
      requires listSizeInBytes / 16 <= buffer.Length
      modifies buffer, this`accessedList, this`accessedListSize
      ensures accessedList == [] && accessedListSize == 0
      ensures var list := old(accessedList);
              var k := if |list| * 16 <= listSizeInBytes then |list| else listSizeInBytes / 16;
              && k <= |list| && k <= buffer.Length && bytes == k * 16
              && (forall i | 0 <= i < k :: buffer[i] == list[i])
              && (forall i | k <= i < buffer.Length :: buffer[i] == old(buffer[i]))
    {
      var e := accessedList;
      var maxcount := listSizeInBytes / RANGE_BYTES;
      var i := 0;
      while i < |e|
        invariant 0 <= i <= |e| && i <= maxcount
        invariant forall j | 0 <= j < i :: buffer[j] == e[j]
        invariant forall j | i <= j < buffer.Length :: buffer[j] == old(buffer[j])
        invariant accessedList == old(accessedList)
      {
        if i >= maxcount {
          break;
        }
        buffer[i] := e[i];
        i := i + 1;
      }
      CleanAccessedList();
      return i * RANGE_BYTES;
    }
  }

  /** Where the cursor goes: past the span of what was found. */
  method NextAddress(w: Walk, currentAddress: Word, ghost page: nat) returns (next: Word)
    requires page < PAGES_64BIT && currentAddress == page * SIZE_4K && !w.Huge?
    requires w.Large? ==> page % PAGES_2M == 0
    ensures SuccessorOf(w, page) <= PAGES_64BIT && next == Cursor(SuccessorOf(w, page))
  {
    CursorJump(page, w);
    SuccessorBound(w, page);
    CursorWraps(SuccessorOf(w, page));
    var jump: int;
    match w {
      case NoPml4e => jump := currentAddress - currentAddress % SIZE_512G + SIZE_512G;
      case NoPdpte => jump := currentAddress - currentAddress % SIZE_1G + SIZE_1G;
      case NoPde => jump := currentAddress - currentAddress % SIZE_2M + SIZE_2M;
      case Large(_) =>
        LargeAligned(page);
        jump := currentAddress + SIZE_2M;
      case NoPte =>
        PageAligned(page);
        jump := currentAddress - currentAddress % SIZE_4K + SIZE_4K;
      case Small(_) => jump := currentAddress + SIZE_4K;
    }
    next := jump % TWO_64;
  }

  lemma LargeAligned(page: nat)
    requires page % PAGES_2M == 0
    ensures page * SIZE_4K % SIZE_2M == 0
  {
    DivUnique(page * SIZE_4K, SIZE_2M, page / PAGES_2M, 0);
  }

  lemma PageAligned(page: nat)
    ensures page * SIZE_4K % SIZE_4K == 0
  {
    DivUnique(page * SIZE_4K, SIZE_4K, page, 0);
  }

  /**
    The reads of the driver, from the PML4E down, each through the self-map.  Every read is of a mapped table
    (`Load` cannot fault), and together they see what the processor sees.
   */
  method LookUp(m: PhysicalMemory, root: nat, base: Word, ppte: Word, ghost address: Word) returns (w: Walk)
    requires SelfMapped(m, root, base) && NotHuge(m, root, VpnOf(address))
    requires ppte == EntryPointer(base, address)
    ensures w == WalkTables(m, root, VpnOf(address))
  {
    var ppde := EntryPointer(base, ppte);
    var ppdpe := EntryPointer(base, ppde);
    var ppml4e := EntryPointer(base, ppdpe);
    Unroll(base, address);
    SelfMapReads(m, root, base, address);
    if !Load(m, root, ppml4e).p {
      return NoPml4e;
    }
    if !Load(m, root, ppdpe).p {
      return NoPdpte;
    }
    if !Load(m, root, ppde).p {
      return NoPde;
    }
    if Load(m, root, ppde).ps {
      return Large(Translate(m, root, ppde).value);
    }
    if !Load(m, root, ppte).p {
      return NoPte;
    }
    return Small(Translate(m, root, ppte).value);
  }

  /** A read of a table entry; an unmapped pointer would fault. */
  function Load(m: PhysicalMemory, root: nat, p: Word): Entry
    requires Translate(m, root, p).Some?
  {
    m(Translate(m, root, p).value)
  }

  lemma ReplaySingle(callback: Callback, s: State, leaves: seq<Leaf>)
    requires |leaves| == 1
    ensures Replay(callback, s, leaves) == OnPresentPage(callback, s, leaves[0])
  {
    assert leaves[..0] == [];
  }

  lemma ReplayMore(callback: Callback, s: State, first: seq<Leaf>, more: seq<Leaf>)
    requires |more| <= 1
    ensures Replay(callback, s, first + more) == Replay(callback, Replay(callback, s, first), more)
  {
    if more == [] {
      assert first + more == first;
    } else {
      assert (first + more)[..|first|] == first;
      assert more[..0] == [];
    }
  }

  lemma {:induction false} ReplayKeepsTables(callback: Callback, s: State, leaves: seq<Leaf>)
    ensures SameTables(s.mem, Replay(callback, s, leaves).mem)
  {
    if leaves != [] {
      ReplayKeepsTables(callback, s, leaves[..|leaves| - 1]);
    }
  }

  /** The cursor at a page; past the last page of the 64-bit space it wraps to zero. */
  function Cursor(page: nat): Word
    requires page <= PAGES_64BIT
  {
    if page == PAGES_64BIT then 0 else page * SIZE_4K
  }

  lemma CursorWraps(page: nat)
    requires page <= PAGES_64BIT
    ensures page * SIZE_4K % TWO_64 == Cursor(page)
  {
  }

  lemma CursorBelow(page: nat, limit: Word)
    requires page * SIZE_4K < limit
    ensures page < PagesBelow(limit)
  {
    assert page * SIZE_4K + SIZE_4K <= limit + SIZE_4K - 1;
  }

  lemma CursorPage(page: nat)
    requires page < PAGES_64BIT
    ensures VpnOf(page * SIZE_4K) == page % PAGES_48BIT
    ensures page % PAGES_2M == 0 ==> page * SIZE_4K + SIZE_2M - 1 < TWO_64
  {
    DivUnique(page * SIZE_4K, TWO_48, page / PAGES_48BIT, page % PAGES_48BIT * SIZE_4K);
    DivUnique(page % PAGES_48BIT * SIZE_4K, SIZE_4K, page % PAGES_48BIT, 0);
  }

  lemma CursorJump(page: nat, w: Walk)
    ensures var a := page * SIZE_4K;
            (SpanStart(w, page) + SkipPages(w)) * SIZE_4K ==
              match w
              case NoPml4e => a - a % SIZE_512G + SIZE_512G
              case NoPdpte => a - a % SIZE_1G + SIZE_1G
              case NoPde => a - a % SIZE_2M + SIZE_2M
              case Large(_) => a - a % SIZE_2M + SIZE_2M
              case _ => a + SIZE_4K
  {
    DivUnique(page * SIZE_4K, SIZE_512G, page / PAGES_512G, page % PAGES_512G * SIZE_4K);
    DivUnique(page * SIZE_4K, SIZE_1G, page / PAGES_1G, page % PAGES_1G * SIZE_4K);
    DivUnique(page * SIZE_4K, SIZE_2M, page / PAGES_2M, page % PAGES_2M * SIZE_4K);
  }
}
