/**
  The region query: from the page of an address, grow a region by moving up and down the self-map until a page of
  another kind or the last page table entry.
 */
module RegionQuery {
  import opened Arithmetic
  import opened Paging
  import opened PageWalk

  /** The protections the query distinguishes; Unset is the initial zero. */
  datatype Protection = Unset | NoAccess | ExecuteRead | ExecuteReadWrite

  /** The protection the query gives a page, from how its walk ends. */
  function ProtectionOf(m: PhysicalMemory, w: Walk): Protection {
    match w
    case Small(entry) => if m(entry).rw then ExecuteReadWrite else ExecuteRead
    case Large(entry) => if m(entry).rw then ExecuteReadWrite else ExecuteRead
    case _ => NoAccess
  }

  function PageProtection(m: PhysicalMemory, root: nat, n: Vpn): Protection {
    ProtectionOf(m, WalkTables(m, root, n))
  }

  predicate Canonical(a: Word) {
    a < TWO_47 || a >= TWO_64 - TWO_47
  }

  /** Writable if a leaf with RW set maps the page, readable if one without, and no access if none does. */
  predicate TypeMeans(m: PhysicalMemory, w: Walk, regionType: Protection) {
    && (regionType == ExecuteReadWrite <==> (w.Small? || w.Large?) && m(w.entry).rw)
    && (regionType == ExecuteRead <==> (w.Small? || w.Large?) && !m(w.entry).rw)
    && (regionType == NoAccess <==> !w.Small? && !w.Large?)
  }

  /** The pointers to the four entries of a page. */
  datatype Pointers = Pointers(pte: Word, pde: Word, pdpe: Word, pml4e: Word)

  function PointersFrom(base: Word, ppte: Word): Pointers {
    var ppde := EntryPointer(base, ppte);
    var ppdpe := EntryPointer(base, ppde);
    Pointers(ppte, ppde, ppdpe, EntryPointer(base, ppdpe))
  }

  /** The pointers are those of page `n`. */
  ghost predicate PointTo(p: Pointers, base: Word, n: Vpn) {
    && p.pte == base + 8 * n
    && p.pde == base + 8 * IterTablePage(base, 1, n)
    && p.pdpe == base + 8 * IterTablePage(base, 2, n)
    && p.pml4e == base + 8 * IterTablePage(base, 3, n)
  }

  /** One level down from a pointer into the table pages. */
  lemma DownOne(base: Word, y: nat)
    requires SelfMapBase(base) && SelfIndex(base) * PAGES_512G + y < PAGES_48BIT
    ensures base + 8 * (SelfIndex(base) * PAGES_512G + y) < TWO_64 && base + 8 * (512 * y) < TWO_64
    ensures PageOfEntry(base, base + 8 * (SelfIndex(base) * PAGES_512G + y)) == base + 8 * (512 * y)
  {
    BaseShape(base);
    PageOfEntryShape(base, SelfIndex(base) * PAGES_512G + y);
  }

  /** In the last slot the self-map itself is the top of the address space, and it is present there. */
  lemma TopSlotPresent(m: PhysicalMemory, root: nat, base: Word, n: Vpn)
    requires SelfMapped(m, root, base) && NotHuge(m, root, n) && SelfIndex(base) == 511
    requires SuccessorOf(WalkTables(m, root, n), n) == PAGES_48BIT
    ensures n == PAGES_48BIT - 1
  {
  }

  lemma VpnOfAddress(n: Vpn)
    ensures VpnOf(AddressOf(n)) == n && Canonical(AddressOf(n))
  {
    var a := n * SIZE_4K;
    if a < TWO_47 {
      DivUnique(a, TWO_48, 0, a);
    } else {
      DivUnique(AddressOf(n), TWO_48, 0xFFFF, a);
    }
    DivUnique(a, SIZE_4K, n, 0);
  }

  lemma PointersShape(base: Word, n: Vpn, ppte: Word)
    requires SelfMapBase(base) && ppte == base + 8 * n
    ensures ppte == EntryPointer(base, AddressOf(n))
    ensures PointTo(PointersFrom(base, ppte), base, n)
  {
    var a := AddressOf(n);
    VpnOfAddress(n);
    assert IterTablePage(base, 0, n) == n;
    IterEntryPointerShape(base, a, 1);
    IterEntryPointerShape(base, a, 2);
    IterEntryPointerShape(base, a, 3);
    IterEntryPointerShape(base, a, 4);
    Unroll(base, a);
  }

  /** Level by level: the round trip through the level-k pointer of a page. */
  lemma LevelBase(base: Word, n: Vpn, k: nat, pointer: Word)
    requires SelfMapBase(base) && 1 <= k <= 4
    requires pointer == base + 8 * IterTablePage(base, k - 1, n)
    ensures n - n % LevelSpan(k) >= 0
    ensures IterPageOfEntry(k, base, pointer) == AddressOf(n - n % LevelSpan(k))
  {
    VpnOfAddress(n);
    RoundDown(n, LevelSpan(k));
    IterEntryPointerShape(base, AddressOf(n), k);
    SelfMapRoundTrip(base, AddressOf(n), k);
  }

  /** The address at which the span of the entry that decided the walk starts: the inverse pointer formula,
      once per level. */
  method SpanBase(base: Word, p: Pointers, w: Walk, ghost n: Vpn) returns (address: Word)
    requires SelfMapBase(base) && PointTo(p, base, n)
    ensures SpanStart(w, n) <= n && address == AddressOf(SpanStart(w, n))
  {
    assert IterTablePage(base, 0, n) == n;
    match w {
      case NoPml4e =>
        LevelBase(base, n, 4, p.pml4e);
        address := IterPageOfEntry(4, base, p.pml4e);
      case NoPdpte =>
        LevelBase(base, n, 3, p.pdpe);
        address := IterPageOfEntry(3, base, p.pdpe);
      case NoPde =>
        LevelBase(base, n, 2, p.pde);
        address := IterPageOfEntry(2, base, p.pde);
      case Large(_) =>
        LevelBase(base, n, 2, p.pde);
        address := IterPageOfEntry(2, base, p.pde);
      case _ =>
        LevelBase(base, n, 1, p.pte);
        address := IterPageOfEntry(1, base, p.pte);
    }
  }

  /** The next PDE pointer, brought down once. */
  lemma NextTable(base: Word, i: nat, p: int)
    requires SelfMapBase(base) && SelfIndex(base) * PAGES_512G + i < PAGES_48BIT
    requires p == base + 8 * (SelfIndex(base) * PAGES_512G + i)
    ensures 0 <= p < TWO_64 && p % TWO_64 == p && base + 8 * (PAGES_2M * i) < TWO_64
    ensures IterPageOfEntry(1, base, p) == base + 8 * (PAGES_2M * i)
  {
    BaseShape(base);
    DownOne(base, i);
    DivUnique(p, TWO_64, 0, p);
    Down3(base, p);
  }

  /** The next PDPTE pointer, brought down twice. */
  lemma NextDirectory(base: Word, i: nat, p: int)
    requires SelfMapBase(base) && i <= PAGES_1G && (i < PAGES_1G || SelfIndex(base) < 511)
    requires p == base + 8 * (SelfIndex(base) * (PAGES_512G + PAGES_1G) + i)
    ensures 0 <= p < TWO_64 && p % TWO_64 == p && base + 8 * (PAGES_1G * i) < TWO_64
    ensures IterPageOfEntry(2, base, p) == base + 8 * (PAGES_1G * i)
  {
    var s := SelfIndex(base);
    BaseShape(base);
    DownOne(base, s * PAGES_1G + i);
    NextTable(base, 512 * i, base + 8 * (s * PAGES_512G + 512 * i));
    DivUnique(p, TWO_64, 0, p);
    Down3(base, p);
    Down3(base, PageOfEntry(base, p));
  }

  /** The next PML4E pointer, brought down three times. */
  lemma NextPml4(base: Word, i: nat, p: int)
    requires SelfMapBase(base) && i <= 512 && (i < 512 || SelfIndex(base) < 511)
    requires p == base + 8 * (SelfIndex(base) * (PAGES_512G + PAGES_1G + PAGES_2M) + i)
    ensures 0 <= p < TWO_64 && p % TWO_64 == p && base + 8 * (PAGES_512G * i) < TWO_64
    ensures IterPageOfEntry(3, base, p) == base + 8 * (PAGES_512G * i)
  {
    var s := SelfIndex(base);
    BaseShape(base);
    DownOne(base, s * (PAGES_1G + PAGES_2M) + i);
    NextDirectory(base, 512 * i, base + 8 * (s * (PAGES_512G + PAGES_1G) + 512 * i));
    DivUnique(p, TWO_64, 0, p);
    Down3(base, p);
    Down3(base, PageOfEntry(base, p));
  }

  lemma SuccessorShape(w: Walk, n: nat)
    ensures SuccessorOf(w, n) ==
            match w
            case NoPml4e => PAGES_512G * (n / PAGES_512G + 1)
            case NoPdpte => PAGES_1G * (n / PAGES_1G + 1)
            case NoPde => PAGES_2M * (n / PAGES_2M + 1)
            case Large(_) => PAGES_2M * (n / PAGES_2M + 1)
            case _ => n + 1
  {
  }

  /** The page table entry pointer after a whole page table. */
  method AfterPde(base: Word, ppde: Word, ghost n: Vpn, ghost next: nat) returns (ppte: Word)
    requires SelfMapBase(base) && next == PAGES_2M * (n / PAGES_2M + 1)
    requires next < PAGES_48BIT || (next == PAGES_48BIT && SelfIndex(base) < 511)
    requires ppde == base + 8 * IterTablePage(base, 1, n)
    ensures ppte == base + 8 * next
  {
    IterTablePageShape(base, n);
    NextTable(base, n / PAGES_2M + 1, ppde + 8);
    ppte := IterPageOfEntry(1, base, (ppde + 8) % TWO_64);
  }

  /** The page table entry pointer after a whole page directory. */
  method AfterPdpte(base: Word, ppdpe: Word, ghost n: Vpn, ghost next: nat) returns (ppte: Word)
    requires SelfMapBase(base) && next == PAGES_1G * (n / PAGES_1G + 1)
    requires next < PAGES_48BIT || (next == PAGES_48BIT && SelfIndex(base) < 511)
    requires ppdpe == base + 8 * IterTablePage(base, 2, n)
    ensures ppte == base + 8 * next
  {
    IterTablePageShape(base, n);
    NextDirectory(base, n / PAGES_1G + 1, ppdpe + 8);
    ppte := IterPageOfEntry(2, base, (ppdpe + 8) % TWO_64);
  }

  /** The page table entry pointer after a whole page directory pointer table. */
  method AfterPml4e(base: Word, ppml4e: Word, ghost n: Vpn, ghost next: nat) returns (ppte: Word)
    requires SelfMapBase(base) && next == PAGES_512G * (n / PAGES_512G + 1)
    requires next < PAGES_48BIT || (next == PAGES_48BIT && SelfIndex(base) < 511)
    requires ppml4e == base + 8 * IterTablePage(base, 3, n)
    ensures ppte == base + 8 * next
  {
    IterTablePageShape(base, n);
    NextPml4(base, n / PAGES_512G + 1, ppml4e + 8);
    ppte := IterPageOfEntry(3, base, (ppml4e + 8) % TWO_64);
  }

  /** The entry pointer after the span: the deciding entry's pointer plus eight, brought back down, is the
      pointer to the entry of the page after the span. */
  method NextPte(base: Word, p: Pointers, w: Walk, ghost n: Vpn) returns (ppte: Word)
    requires SelfMapBase(base) && PointTo(p, base, n)
    requires SuccessorOf(w, n) < PAGES_48BIT || (SuccessorOf(w, n) == PAGES_48BIT && SelfIndex(base) < 511)
    ensures ppte == base + 8 * SuccessorOf(w, n)
  {
    SuccessorShape(w, n);
    ghost var next := SuccessorOf(w, n);
    match w {
      case NoPml4e =>
        ppte := AfterPml4e(base, p.pml4e, n, next);
      case NoPdpte =>
        ppte := AfterPdpte(base, p.pdpe, n, next);
      case NoPde =>
        ppte := AfterPde(base, p.pde, n, next);
      case Large(_) =>
        ppte := AfterPde(base, p.pde, n, next);
      case _ =>
        BaseShape(base);
        DivUnique(p.pte + 8, TWO_64, 0, p.pte + 8);
        ppte := (p.pte + 8) % TWO_64;
    }
  }

  lemma Down3(base: Word, p: Word)
    ensures IterPageOfEntry(1, base, p) == PageOfEntry(base, p)
    ensures IterPageOfEntry(2, base, p) == PageOfEntry(base, PageOfEntry(base, p))
    ensures IterPageOfEntry(3, base, p) == PageOfEntry(base, PageOfEntry(base, PageOfEntry(base, p)))
  {
    assert IterPageOfEntry(0, base, p) == p;
    assert IterPageOfEntry(1, base, p) == PageOfEntry(base, p);
    assert IterPageOfEntry(2, base, p) == PageOfEntry(base, IterPageOfEntry(1, base, p));
  }

  // ---------------------------------------------------------------------------------------------
  // Runs of pages with one protection.

  ghost predicate Uniform(m: PhysicalMemory, root: nat, lo: nat, hi: nat, protection: Protection) {
    hi <= PAGES_48BIT && forall p | lo <= p < hi :: PageProtection(m, root, p) == protection
  }

  predicate StartsLarge(m: PhysicalMemory, root: nat, n: Vpn) {
    n % PAGES_2M == 0 && WalkTables(m, root, n).Large?
  }

  /** How many large pages start in a range of pages. */
  function LargePages(m: PhysicalMemory, root: nat, lo: nat, hi: nat): nat
    requires hi <= PAGES_48BIT
  {
    if hi <= lo then 0
    else LargePages(m, root, lo, hi - 1) + if StartsLarge(m, root, hi - 1) then 1 else 0
  }

  lemma {:induction false} NoLargePages(m: PhysicalMemory, root: nat, lo: nat, mid: nat, hi: nat)
    requires lo <= mid <= hi <= PAGES_48BIT
    requires forall p | mid <= p < hi :: !StartsLarge(m, root, p)
    ensures LargePages(m, root, lo, hi) == LargePages(m, root, lo, mid)
  {
    if mid < hi {
      NoLargePages(m, root, lo, mid, hi - 1);
    }
  }

  lemma {:induction false} SomeLargePage(m: PhysicalMemory, root: nat, lo: nat, hi: nat, p: nat)
    requires lo <= p < hi <= PAGES_48BIT && StartsLarge(m, root, p)
    ensures LargePages(m, root, lo, hi) > 0
  {
    if p < hi - 1 {
      SomeLargePage(m, root, lo, hi - 1, p);
    }
  }

  lemma SuccessorWithin(w: Walk, n: Vpn)
    ensures SpanStart(w, n) <= n < SuccessorOf(w, n) <= PAGES_48BIT
    ensures SuccessorOf(w, n) == SpanStart(w, n) + SkipPages(w)
  {
    SuccessorShape(w, n);
  }

  lemma InSpan(w: Walk, n: nat, p: nat)
    requires SpanStart(w, n) <= p < SuccessorOf(w, n)
    ensures SpanStart(w, p) == SpanStart(w, n)
    ensures w.Large? && p != SpanStart(w, n) ==> p % PAGES_2M != 0
  {
    match w
    case NoPml4e => DivUnique(p, PAGES_512G, n / PAGES_512G, p - SpanStart(w, n));
    case NoPdpte => DivUnique(p, PAGES_1G, n / PAGES_1G, p - SpanStart(w, n));
    case NoPde => DivUnique(p, PAGES_2M, n / PAGES_2M, p - SpanStart(w, n));
    case Large(_) => DivUnique(p, PAGES_2M, n / PAGES_2M, p - SpanStart(w, n));
    case _ =>
  }

  /** All pages of a span have the protection of the page that was looked at. */
  lemma SpanProtection(m: PhysicalMemory, root: nat, n: Vpn, w: Walk)
    requires w == WalkTables(m, root, n)
    ensures SuccessorOf(w, n) <= PAGES_48BIT
    ensures forall p: Vpn | SpanStart(w, n) <= p < SuccessorOf(w, n) :: WalkTables(m, root, p) == w
    ensures Uniform(m, root, SpanStart(w, n), SuccessorOf(w, n), ProtectionOf(m, w))
  {
    SuccessorWithin(w, n);
    forall p: Vpn | SpanStart(w, n) <= p < SuccessorOf(w, n)
      ensures WalkTables(m, root, p) == w
    {
      InSpan(w, n, p);
      SpanUniform(m, root, n, p);
    }
  }

  /** After a span, the next page starts its own span. */
  lemma NextStartsSpan(m: PhysicalMemory, root: nat, n: Vpn, next: nat)
    requires next == SuccessorOf(WalkTables(m, root, n), n) && next < PAGES_48BIT
    ensures SpanStart(WalkTables(m, root, next), next) == next
  {
    var w, w' := WalkTables(m, root, n), WalkTables(m, root, next);
    SuccessorWithin(w, n);
    SuccessorWithin(w', next);
    if SpanStart(w', next) != next {
      SpanProtection(m, root, n, w);
      SpanProtection(m, root, next, w');
      assert WalkTables(m, root, next - 1) == w && WalkTables(m, root, next - 1) == w';
      InSpan(w, n, next - 1);
      InSpan(w', next, next - 1);
      assert false;
    }
  }

  /** A span adds one to the count of large pages when it is one. */
  lemma SpanCounts(m: PhysicalMemory, root: nat, lo: nat, n: Vpn, w: Walk)
    requires w == WalkTables(m, root, n) && SpanStart(w, n) == n && lo <= n
    ensures SuccessorOf(w, n) <= PAGES_48BIT
    ensures LargePages(m, root, lo, SuccessorOf(w, n)) == LargePages(m, root, lo, n) + if w.Large? then 1 else 0
  {
    SuccessorWithin(w, n);
    SpanProtection(m, root, n, w);
    forall p | n < p < SuccessorOf(w, n)
      ensures !StartsLarge(m, root, p)
    {
      InSpan(w, n, p);
    }
    NoLargePages(m, root, lo, n + 1, SuccessorOf(w, n));
  }

  /** The offset of an address in the span that contains it does not depend on the sign extension. */
  lemma CanonicalOffset(a: Word, w: Walk)
    requires Canonical(a)
    ensures SpanStart(w, VpnOf(a)) < PAGES_48BIT
    ensures a - AddressOf(SpanStart(w, VpnOf(a))) == a % TWO_48 - SpanStart(w, VpnOf(a)) * SIZE_4K
    ensures 0 <= a % TWO_48 - VpnOf(a) * SIZE_4K < SIZE_4K
  {
    var n := VpnOf(a);
    SuccessorWithin(w, n);
    if a < TWO_47 {
      DivUnique(a, TWO_48, 0, a);
    } else {
      DivUnique(a, TWO_48, 0xFFFF, a - (TWO_64 - TWO_48));
    }
    UpperHalf(w, n);
  }

  lemma UpperHalf(w: Walk, n: Vpn)
    ensures n * SIZE_4K < TWO_47 <==> SpanStart(w, n) * SIZE_4K < TWO_47
  {
    RoundDown(n, PAGES_512G);
    RoundDown(n, PAGES_1G);
    RoundDown(n, PAGES_2M);
  }

  // ---------------------------------------------------------------------------------------------
  // The query.

  /** Pages [SpanStart, end) around page `n` all have the protection of `n`, and the run cannot be extended: the
      page at `end` differs, or the last page table entry has been reached. */
  ghost predicate IsRun(m: PhysicalMemory, root: nat, n: Vpn, end: nat, protection: Protection) {
    && n < end <= PAGES_48BIT
    && protection == PageProtection(m, root, n)
    && Uniform(m, root, SpanStart(WalkTables(m, root, n), n), end, protection)
    && (end >= PAGES_48BIT - 1 || PageProtection(m, root, end) != protection)
  }

  /** The size reported for a run: each large page after the first span is counted as 4096 bytes. */
  ghost predicate SizeOfRun(m: PhysicalMemory, root: nat, a: Word, end: nat, size: int)
    requires end <= PAGES_48BIT
  {
    size + LargePages(m, root, SuccessorOf(WalkTables(m, root, VpnOf(a)), VpnOf(a)), end) * (SIZE_2M - SIZE_4K)
      == end * SIZE_4K - a % TWO_48
  }

  /** The first span: base address and size, measured from the queried address. */
  method FirstSpan(base: Word, mempointer: Word, p: Pointers, w: Walk) returns (baseAddress: Word, memorySize: Word)
    requires SelfMapBase(base) && PointTo(p, base, VpnOf(mempointer))
    ensures var n := VpnOf(mempointer);
            && SpanStart(w, n) <= n && baseAddress == AddressOf(SpanStart(w, n))
            && (Canonical(mempointer) ==> memorySize == SuccessorOf(w, n) * SIZE_4K - mempointer % TWO_48)
  {
    ghost var n := VpnOf(mempointer);
    baseAddress := SpanBase(base, p, w, n);
    var size := SkipPages(w) * SIZE_4K - (mempointer - baseAddress);
    memorySize := size % TWO_64;
    SuccessorWithin(w, n);
    if Canonical(mempointer) {
      CanonicalOffset(mempointer, w);
      DivUnique(size, TWO_64, 0, size);
    }
  }

  /** The bytes a later span adds to the size: 4096 even for a large page. */
  function Contribution(w: Walk): nat {
    if w.Large? then SIZE_4K else SkipPages(w) * SIZE_4K
  }

  /** A later span of the same protection extends the run. */
  lemma RunGrows(m: PhysicalMemory, root: nat, a: Word, n: Vpn, w: Walk, size: Word, protection: Protection)
    requires w == WalkTables(m, root, n) && SpanStart(w, n) == n
    requires var first := VpnOf(a);
             && SuccessorOf(WalkTables(m, root, first), first) <= n
             && Uniform(m, root, SpanStart(WalkTables(m, root, first), first), n, protection)
    requires protection == ProtectionOf(m, w)
    ensures var next := SuccessorOf(w, n);
            && n < next <= PAGES_48BIT
            && Uniform(m, root, SpanStart(WalkTables(m, root, VpnOf(a)), VpnOf(a)), next, protection)
            && (SizeOfRun(m, root, a, n, size) ==>
                  size + Contribution(w) < TWO_64 && SizeOfRun(m, root, a, next, size + Contribution(w)))
  {
    var first := VpnOf(a);
    SuccessorWithin(w, n);
    SpanProtection(m, root, n, w);
    SpanCounts(m, root, SuccessorOf(WalkTables(m, root, first), first), n, w);
  }

  /** What the outputs mean when the cursor is at page `n`. */
  ghost predicate GrownTo(m: PhysicalMemory, root: nat, a: Word, n: nat, regionType: Protection, size: int,
                          baseAddress: Word) {
    var first := VpnOf(a);
    var w := WalkTables(m, root, first);
    if regionType == Unset then
      n == first && size == 0
    else
      && SpanStart(w, first) <= first && SuccessorOf(w, first) <= n <= PAGES_48BIT
      && (n < PAGES_48BIT ==> SpanStart(WalkTables(m, root, n), n) == n)
      && regionType == ProtectionOf(m, w)
      && Uniform(m, root, SpanStart(w, first), n, regionType)
      && baseAddress == AddressOf(SpanStart(w, first))
      && (Canonical(a) ==> SizeOfRun(m, root, a, n, size))
  }

  lemma FirstGrown(m: PhysicalMemory, root: nat, a: Word, size: int, baseAddress: Word)
    requires var n := VpnOf(a);
             var w := WalkTables(m, root, n);
             && SpanStart(w, n) <= n && baseAddress == AddressOf(SpanStart(w, n))
             && (Canonical(a) ==> size == SuccessorOf(w, n) * SIZE_4K - a % TWO_48)
    ensures var w := WalkTables(m, root, VpnOf(a));
            GrownTo(m, root, a, SuccessorOf(w, VpnOf(a)), ProtectionOf(m, w), size, baseAddress)
  {
    var n := VpnOf(a);
    var w := WalkTables(m, root, n);
    var next := SuccessorOf(w, n);
    SuccessorWithin(w, n);
    if next < PAGES_48BIT {
      NextStartsSpan(m, root, n, next);
    }
    SpanProtection(m, root, n, w);
    assert LargePages(m, root, next, next) == 0;
  }

  lemma MoreGrown(m: PhysicalMemory, root: nat, a: Word, n: Vpn, w: Walk, protection: Protection, size: Word,
                  baseAddress: Word, added: Word)
    requires GrownTo(m, root, a, n, protection, size, baseAddress)
    requires w == WalkTables(m, root, n) && protection == ProtectionOf(m, w) && protection != Unset
    requires added == (size + Contribution(w)) % TWO_64
    ensures GrownTo(m, root, a, SuccessorOf(w, n), protection, added, baseAddress)
  {
    var next := SuccessorOf(w, n);
    RunGrows(m, root, a, n, w, size, protection);
    if Canonical(a) {
      DivUnique(size + Contribution(w), TWO_64, 0, size + Contribution(w));
    }
    if next < PAGES_48BIT {
      NextStartsSpan(m, root, n, next);
    }
  }

  /** No page from the first one on is part of a 1GB page. */
  ghost predicate NoHugeFrom(m: PhysicalMemory, root: nat, first: Vpn) {
    forall n: Vpn | first <= n :: NotHuge(m, root, n)
  }

  method LookUpAt(m: PhysicalMemory, root: nat, base: Word, ppte: Word, ghost n: Vpn) returns (w: Walk, p: Pointers)
    requires SelfMapped(m, root, base) && NotHuge(m, root, n) && ppte == base + 8 * n
    ensures w == WalkTables(m, root, n) && PointTo(p, base, n)
  {
    PointersShape(base, n, ppte);
    VpnOfAddress(n);
    w := LookUp(m, root, base, ppte, AddressOf(n));
    p := PointersFrom(base, ppte);
  }

  /** Takes one span into the region, or finds that it does not belong. */
  method Absorb(m: PhysicalMemory, root: nat, base: Word, mempointer: Word, p: Pointers, w: Walk, ghost n: Vpn,
                type0: Protection, size0: Word, base0: Word)
    returns (stop: bool, regionType: Protection, memorySize: Word, baseAddress: Word)
    requires SelfMapBase(base) && PointTo(p, base, n) && w == WalkTables(m, root, n)
    requires GrownTo(m, root, mempointer, n, type0, size0, base0)
    ensures stop ==> (regionType, memorySize, baseAddress) == (type0, size0, base0) &&
                     type0 != Unset && ProtectionOf(m, w) != type0
    ensures !stop ==>
              && regionType != Unset
              && GrownTo(m, root, mempointer, SuccessorOf(w, n), regionType, memorySize, baseAddress)
  {
    stop, regionType, memorySize, baseAddress := false, type0, size0, base0;
    if type0 == Unset {
      baseAddress, memorySize := FirstSpan(base, mempointer, p, w);
      regionType := ProtectionOf(m, w);
      FirstGrown(m, root, mempointer, memorySize, baseAddress);
    } else if type0 != ProtectionOf(m, w) {
      stop := true;
    } else {
      memorySize := (size0 + Contribution(w)) % TWO_64;
      MoreGrown(m, root, mempointer, n, w, type0, size0, base0, memorySize);
    }
  }

  /**
    GetMemoryRegionData.  For every address but those of the last page the region is a maximal run of one
    protection around the address, the base is where the first span starts, and the size is exact except
    that every large page after the first span counts 4096 bytes.
   */
  method GetMemoryRegionData(m: PhysicalMemory, root: nat, base: Word, mempointer: Word)
    returns (regionType: Protection, memorySize: Word, baseAddress: Word, ghost end: nat)
    requires SelfMapped(m, root, base) && NoHugeFrom(m, root, VpnOf(mempointer))
    ensures VpnOf(mempointer) == PAGES_48BIT - 1 ==> regionType == Unset && memorySize == 0
    ensures VpnOf(mempointer) < PAGES_48BIT - 1 ==>
              && IsRun(m, root, VpnOf(mempointer), end, regionType)
              && TypeMeans(m, WalkTables(m, root, VpnOf(mempointer)), regionType)
              && SpanStart(WalkTables(m, root, VpnOf(mempointer)), VpnOf(mempointer)) <= VpnOf(mempointer)
              && baseAddress == AddressOf(SpanStart(WalkTables(m, root, VpnOf(mempointer)), VpnOf(mempointer)))
              && (Canonical(mempointer) ==> SizeOfRun(m, root, mempointer, end, memorySize))
  {
    baseAddress := mempointer - mempointer % SIZE_4K;
    memorySize, regionType := 0, Unset;
    RoundedVpn(mempointer);
    EntryPointerShape(base, baseAddress);
    BaseShape(base);
    var ppte := EntryPointer(base, baseAddress);
    var maxPtePos := base + 0x7F_FFFF_FFF8;
    end := VpnOf(mempointer);
    ghost var first := end;
    SuccessorWithin(WalkTables(m, root, first), first);
    var stop := false;
    while ppte < maxPtePos
      invariant first <= end <= PAGES_48BIT && ppte == base + 8 * end
      invariant first == PAGES_48BIT - 1 ==> end == first
      invariant GrownTo(m, root, mempointer, end, regionType, memorySize, baseAddress)
      decreases PAGES_48BIT - end
    {
      assert NotHuge(m, root, end);
      var w, p := LookUpAt(m, root, base, ppte, end);
      stop, regionType, memorySize, baseAddress :=
        Absorb(m, root, base, mempointer, p, w, end, regionType, memorySize, baseAddress);
      if stop {
        return;
      }
      SuccessorWithin(w, end);
      if SuccessorOf(w, end) == PAGES_48BIT && SelfIndex(base) == 511 {
        TopSlotPresent(m, root, base, end);
      }
      ppte := NextPte(base, p, w, end);
      end := SuccessorOf(w, end);
    }
  }

  /** Every page of the region, not only the one asked about, is mapped as the reported type says. */
  lemma RegionTypeMeans(m: PhysicalMemory, root: nat, n: Vpn, end: nat, regionType: Protection, p: Vpn)
    requires IsRun(m, root, n, end, regionType) && SpanStart(WalkTables(m, root, n), n) <= p < end
    ensures TypeMeans(m, WalkTables(m, root, p), regionType)
  {
    assert PageProtection(m, root, p) == regionType;
  }

  lemma RoundedVpn(a: Word)
    ensures VpnOf(a - a % SIZE_4K) == VpnOf(a)
  {
    DivDiv(a, SIZE_4K, PAGES_48BIT, TWO_48);
    DivDiv(a - a % SIZE_4K, SIZE_4K, PAGES_48BIT, TWO_48);
    RoundDown(a, SIZE_4K);
  }

  /** The reported size is the exact run from the address exactly when no large page follows the first span. */
  lemma SizeIsExact(m: PhysicalMemory, root: nat, a: Word, end: nat, size: int)
    requires VpnOf(a) < end <= PAGES_48BIT && SizeOfRun(m, root, a, end, size)
    ensures size <= end * SIZE_4K - a % TWO_48
    ensures size == end * SIZE_4K - a % TWO_48 <==>
              forall p | SuccessorOf(WalkTables(m, root, VpnOf(a)), VpnOf(a)) <= p < end :: !StartsLarge(m, root, p)
  {
    var lo := SuccessorOf(WalkTables(m, root, VpnOf(a)), VpnOf(a));
    if p :| lo <= p < end && StartsLarge(m, root, p) {
      SomeLargePage(m, root, lo, end, p);
    } else if lo <= end {
      NoLargePages(m, root, lo, lo, end);
    }
  }

  // ---------------------------------------------------------------------------------------------
  // A region whose size comes out wrong.

  const SELF_MAP: Word := 0xFFFF_F680_0000_0000

  /** Tables in frames 0 to 2 that map two neighbouring large pages at address zero, and the self-map. */
  function TwoLargePages(data: nat): PhysicalMemory {
    (l: Location) =>
      if l.frame == 0 then Entry(l.index == 0 || l.index == 493, true, false, false, if l.index == 0 then 1 else 0)
      else if l.frame == 1 then Entry(l.index == 0, true, false, false, 2)
      else if l.frame == 2 then Entry(l.index < 2, true, true, false, data)
      else Entry(false, false, false, false, 0)
  }

  lemma TwoLargePagesSetup(data: nat)
    ensures SelfMapped(TwoLargePages(data), 0, SELF_MAP) && NoHugeFrom(TwoLargePages(data), 0, 0)
  {
    var m := TwoLargePages(data);
    DivUnique(SELF_MAP, SIZE_512G, 0x1FF_FFED, 0);
    DivUnique(0x1FF_FFED, 512, 0xFFFF, 493);
    forall n: Vpn ensures NotHuge(m, 0, n) {
      assert m(Pml4e(0, n)).p ==> m(Pml4e(0, n)).frame <= 1;
    }
  }

  lemma TwoLargePagesWalk(data: nat, p: nat)
    requires p < 3 * PAGES_2M
    ensures WalkTables(TwoLargePages(data), 0, p) ==
              if p < 2 * PAGES_2M then Large(Location(2, p / PAGES_2M)) else NoPde
  {
    DivUnique(p, PAGES_512G, 0, p);
    DivUnique(p, PAGES_1G, 0, p);
    DivUnique(p / PAGES_2M, 512, 0, p / PAGES_2M);
  }

  lemma TwoLargePagesRun(data: nat, end: nat)
    requires end == 2 * PAGES_2M
    ensures IsRun(TwoLargePages(data), 0, 0, end, ExecuteReadWrite)
  {
    var m := TwoLargePages(data);
    TwoLargePagesWalk(data, 0);
    TwoLargePagesWalk(data, end);
    forall p | 0 <= p < end ensures PageProtection(m, 0, p) == ExecuteReadWrite {
      TwoLargePagesWalk(data, p);
    }
  }

  lemma TwoLargePagesCount(data: nat, lo: nat, end: nat)
    requires lo == PAGES_2M && end == 2 * PAGES_2M
    ensures LargePages(TwoLargePages(data), 0, lo, end) == 1
  {
    var m := TwoLargePages(data);
    TwoLargePagesSetup(data);
    TwoLargePagesWalk(data, lo);
    SpanCounts(m, 0, lo, lo, WalkTables(m, 0, lo));
  }

  /** The region at address zero is four megabytes of one protection; the query counts 2MB + 4096. */
  lemma LaterLargePageMiscounted(data: nat)
    ensures var m := TwoLargePages(data);
            && SelfMapped(m, 0, SELF_MAP) && NoHugeFrom(m, 0, VpnOf(0))
            && IsRun(m, 0, VpnOf(0), 2 * PAGES_2M, ExecuteReadWrite)
            && SizeOfRun(m, 0, 0, 2 * PAGES_2M, SIZE_2M + SIZE_4K)
            && 2 * PAGES_2M * SIZE_4K == 2 * SIZE_2M
  {
    TwoLargePagesSetup(data);
    TwoLargePagesRun(data, 2 * PAGES_2M);
    TwoLargePagesWalk(data, 0);
    TwoLargePagesCount(data, PAGES_2M, 2 * PAGES_2M);
  }
}
