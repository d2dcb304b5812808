/**
  Four-level paging as the processor defines it (section 4.5 of the Intel SDM, Volume 3A) and the
  recursive self-map that the driver reads the tables through.

  A page table entry lives at a physical location (frame, index).  `Translate` is what the processor
  does with a virtual address; `EntryPointer` and `PageOfEntry` are the driver's pointer formulas.
  `SelfMapReads` ties the two together.
 */
module Paging {
  import opened Arithmetic
  import opened Wrappers

  const PAGES_2M: nat := 0x200
  const PAGES_1G: nat := 0x4_0000
  const PAGES_512G: nat := 0x800_0000
  const PAGES_48BIT: nat := 0x10_0000_0000
  const SIZE_4K: nat := 0x1000
  const SIZE_2M: nat := 0x20_0000
  const SIZE_1G: nat := 0x4000_0000
  const SIZE_512G: nat := 0x80_0000_0000
  const TWO_47: nat := 0x8000_0000_0000
  const TWO_48: nat := 0x1_0000_0000_0000
  const TWO_64: nat := 0x1_0000_0000_0000_0000

  /** A 64-bit unsigned value, the driver's UINT_PTR. */
  type Word = x: int | 0 <= x < TWO_64

  /** A virtual page number: bits 12 to 47 of an address. */
  type Vpn = n: int | 0 <= n < PAGES_48BIT

  type Index = i: int | 0 <= i < 512

  datatype Entry = Entry(p: bool, rw: bool, ps: bool, a: bool, frame: nat)

  datatype Location = Location(frame: nat, index: Index)

  type PhysicalMemory = Location -> Entry

  // ---------------------------------------------------------------------------------------------
  // What the processor does.

  function VpnOf(a: Word): Vpn {
    (a % TWO_48) / SIZE_4K
  }

  function Pml4Index(n: Vpn): Index { n / PAGES_512G }

  function PdptIndex(n: Vpn): Index { n / PAGES_1G % 512 }

  function PdIndex(n: Vpn): Index { n / PAGES_2M % 512 }

  function PtIndex(n: Vpn): Index { n % 512 }

  function Pml4e(root: nat, n: Vpn): Location {
    Location(root, Pml4Index(n))
  }

  function Pdpte(m: PhysicalMemory, root: nat, n: Vpn): Location {
    Location(m(Pml4e(root, n)).frame, PdptIndex(n))
  }

  function Pde(m: PhysicalMemory, root: nat, n: Vpn): Location {
    Location(m(Pdpte(m, root, n)).frame, PdIndex(n))
  }

  function Pte(m: PhysicalMemory, root: nat, n: Vpn): Location {
    Location(m(Pde(m, root, n)).frame, PtIndex(n))
  }

  /** Where the processor's walk of a page ends. */
  datatype Walk =
    | NoPml4e
    | NoPdpte
    | Huge(entry: Location)      // a 1GB page
    | NoPde
    | Large(entry: Location)     // a 2MB page
    | NoPte
    | Small(entry: Location)     // a 4KB page

  function WalkTables(m: PhysicalMemory, root: nat, n: Vpn): Walk {
    if !m(Pml4e(root, n)).p then NoPml4e
    else if !m(Pdpte(m, root, n)).p then NoPdpte
    else if m(Pdpte(m, root, n)).ps then Huge(Pdpte(m, root, n))
    else if !m(Pde(m, root, n)).p then NoPde
    else if m(Pde(m, root, n)).ps then Large(Pde(m, root, n))
    else if !m(Pte(m, root, n)).p then NoPte
    else Small(Pte(m, root, n))
  }

  /** The entry an eight-byte read at `a` returns, when `a` is mapped by a 4KB page; None is a page fault
      (or a read that does not land in a table at all). */
  function Translate(m: PhysicalMemory, root: nat, a: Word): Option<Location> {
    match WalkTables(m, root, VpnOf(a))
    case Small(entry) => Some(Location(m(entry).frame, a % SIZE_4K / 8))
    case _ => None
  }

  /** The driver never tests PS in a PDPTE, so it relies on a page not being part of a 1GB page; PS is reserved in a
      present PML4E.  Entries that are not present may hold anything. */
  predicate NotHuge(m: PhysicalMemory, root: nat, n: Vpn) {
    m(Pml4e(root, n)).p ==> !m(Pml4e(root, n)).ps && (m(Pdpte(m, root, n)).p ==> !m(Pdpte(m, root, n)).ps)
  }

  // ---------------------------------------------------------------------------------------------
  // The driver's pointer arithmetic.

  /** A self-map base: any 512GB slot of the upper half of the address space. */
  predicate SelfMapBase(base: Word) {
    0xFFFF_8000_0000_0000 <= base && base % SIZE_512G == 0
  }

  function SelfIndex(base: Word): Index {
    base / SIZE_512G % 512
  }

  /** PML4 entry `SelfIndex(base)` points back at the PML4 itself. */
  ghost predicate SelfMapped(m: PhysicalMemory, root: nat, base: Word) {
    && SelfMapBase(base)
    && var e := m(Location(root, SelfIndex(base)));
       e.p && !e.ps && e.frame == root
  }

  /** ((a & 0xFFFFFFFFFFFF) >> 12) * 8 + pagebase */
  function EntryPointer(base: Word, a: Word): Word {
    ((a % TWO_48) / SIZE_4K * 8 + base) % TWO_64
  }

  function SignExtend(a: Word): Word {
    if a / TWO_47 == 1 then a + (TWO_64 - TWO_48) else a
  }

  /** SignExtend(((p - pagebase) / 8) << 12) */
  function PageOfEntry(base: Word, p: Word): Word {
    SignExtend((p - base) % TWO_64 / 8 * SIZE_4K % TWO_64)
  }

  function IterEntryPointer(k: nat, base: Word, a: Word): Word {
    if k == 0 then a else EntryPointer(base, IterEntryPointer(k - 1, base, a))
  }

  function IterPageOfEntry(k: nat, base: Word, p: Word): Word {
    if k == 0 then p else PageOfEntry(base, IterPageOfEntry(k - 1, base, p))
  }

  lemma Unroll(base: Word, a: Word)
    ensures var p1 := EntryPointer(base, a);
            var p2 := EntryPointer(base, p1);
            var p3 := EntryPointer(base, p2);
            && IterEntryPointer(1, base, a) == p1
            && IterEntryPointer(2, base, a) == p2
            && IterEntryPointer(3, base, a) == p3
            && IterEntryPointer(4, base, a) == EntryPointer(base, p3)
  {
    assert IterEntryPointer(0, base, a) == a;
    assert IterEntryPointer(1, base, a) == EntryPointer(base, IterEntryPointer(0, base, a));
    assert IterEntryPointer(2, base, a) == EntryPointer(base, IterEntryPointer(1, base, a));
    assert IterEntryPointer(3, base, a) == EntryPointer(base, IterEntryPointer(2, base, a));
  }

  /** The sign-extended address of a virtual page. */
  function AddressOf(n: Vpn): Word {
    if n * SIZE_4K < TWO_47 then n * SIZE_4K else n * SIZE_4K + (TWO_64 - TWO_48)
  }

  /** The number of the page that holds the level-1 table entry of page `n`, seen through the self-map. */
  function TablePage(base: Word, n: Vpn): Vpn {
    SelfIndex(base) * PAGES_512G + n / 512
  }

  lemma BaseShape(base: Word)
    requires SelfMapBase(base)
    ensures base == (TWO_64 - TWO_48) + SelfIndex(base) * SIZE_512G
    ensures SelfIndex(base) >= 256
  {
    var q := base / SIZE_512G;
    assert base == SIZE_512G * q;
    DivUnique(q, 512, 0xFFFF, q - 512 * 0xFFFF);
  }

  /** One application of the pointer formula: where it points, and which page and slot that is. */
  lemma EntryPointerShape(base: Word, a: Word)
    requires SelfMapBase(base)
    ensures EntryPointer(base, a) == base + 8 * VpnOf(a)
    ensures VpnOf(EntryPointer(base, a)) == TablePage(base, VpnOf(a))
    ensures EntryPointer(base, a) % SIZE_4K / 8 == VpnOf(a) % 512
  {
    BaseShape(base);
    PointerShape(SelfIndex(base), VpnOf(a), base + 8 * (VpnOf(a) as int));
  }

  lemma PointerShape(s: Index, n: Vpn, p: int)
    requires p == (TWO_64 - TWO_48) + s * SIZE_512G + 8 * n
    ensures 0 <= p < TWO_64
    ensures p % TWO_64 == p
    ensures (p % TWO_48) / SIZE_4K == s * PAGES_512G + n / 512
    ensures p % SIZE_4K / 8 == n % 512
  {
    var q, t := n / 512, n % 512;
    var low := s * SIZE_512G + 8 * n;
    DivUnique(p, TWO_64, 0, p);
    DivUnique(p, TWO_48, 0xFFFF, low);
    DivUnique(low, SIZE_4K, s * PAGES_512G + q, 8 * t);
    DivUnique(p, SIZE_4K, 0xFFFF * PAGES_48BIT + s * PAGES_512G + q, 8 * t);
    DivUnique(8 * t, 8, t, 0);
  }

  /** A page of the self-map is reached through the self entry, then through the indices of the page it describes. */
  lemma TablePageIndices(base: Word, n: Vpn)
    ensures var t := TablePage(base, n);
            && Pml4Index(t) == SelfIndex(base)
            && PdptIndex(t) == Pml4Index(n)
            && PdIndex(t) == PdptIndex(n)
            && PtIndex(t) == PdIndex(n)
  {
    var s := SelfIndex(base);
    var q := n / PAGES_2M;
    DivUnique(s * PAGES_512G + q, PAGES_512G, s, q);
    // the PDPT index
    DivDiv(n, PAGES_2M, PAGES_1G, PAGES_512G);
    AddMultiple(q, PAGES_1G, s * 512);
    DivUnique(s * 512 + n / PAGES_512G, 512, s, n / PAGES_512G);
    // the PD index
    DivDiv(n, PAGES_2M, 512, PAGES_1G);
    AddMultiple(q, PAGES_2M, s * PAGES_1G);
    AddMultiple(n / PAGES_1G, 512, s * 512);
    // the PT index
    AddMultiple(q, 512, s * PAGES_1G);
  }

  /** Seen through the self entry, every table stands one level lower. */
  lemma TablesShift(m: PhysicalMemory, root: nat, base: Word, n: Vpn)
    requires SelfMapped(m, root, base)
    ensures var t := TablePage(base, n);
            && Pml4e(root, t) == Location(root, SelfIndex(base))
            && Pdpte(m, root, t) == Pml4e(root, n)
            && Pde(m, root, t) == Pdpte(m, root, n)
            && Pte(m, root, t) == Pde(m, root, n)
            && (NotHuge(m, root, n) ==> NotHuge(m, root, t))
  {
    TablePageIndices(base, n);
  }

  /** One application of the pointer formula reads the PTE, if there is a table to read it from. */
  lemma PointerReads(m: PhysicalMemory, root: nat, base: Word, a: Word)
    requires SelfMapped(m, root, base) && NotHuge(m, root, VpnOf(a))
    ensures var n := VpnOf(a);
            Translate(m, root, EntryPointer(base, a)) ==
              if m(Pml4e(root, n)).p && m(Pdpte(m, root, n)).p && m(Pde(m, root, n)).p
              then Some(Pte(m, root, n)) else None
  {
    EntryPointerShape(base, a);
    TablesShift(m, root, base, VpnOf(a));
  }

  /**
    The self-map law.  The pointer formula applied one, two, three and four times to an address reads the
    PTE, PDE, PDPTE and PML4E of that address, and the read faults exactly when a level above is missing.
   */
  lemma SelfMapReads(m: PhysicalMemory, root: nat, base: Word, a: Word)
    requires SelfMapped(m, root, base) && NotHuge(m, root, VpnOf(a))
    ensures var n := VpnOf(a);
            var top, third, second, first :=
              IterEntryPointer(4, base, a), IterEntryPointer(3, base, a),
              IterEntryPointer(2, base, a), IterEntryPointer(1, base, a);
            && Translate(m, root, top) == Some(Pml4e(root, n))
            && Translate(m, root, third) ==
               (if m(Pml4e(root, n)).p then Some(Pdpte(m, root, n)) else None)
            && Translate(m, root, second) ==
               (if m(Pml4e(root, n)).p && m(Pdpte(m, root, n)).p then Some(Pde(m, root, n)) else None)
            && Translate(m, root, first) ==
               (if m(Pml4e(root, n)).p && m(Pdpte(m, root, n)).p && m(Pde(m, root, n)).p
                then Some(Pte(m, root, n)) else None)
  {
    var n := VpnOf(a);
    Unroll(base, a);
    var p1 := EntryPointer(base, a);
    var p2 := EntryPointer(base, p1);
    var p3 := EntryPointer(base, p2);
    EntryPointerShape(base, a);
    EntryPointerShape(base, p1);
    EntryPointerShape(base, p2);
    TablesShift(m, root, base, n);
    TablesShift(m, root, base, VpnOf(p1));
    TablesShift(m, root, base, VpnOf(p2));
    PointerReads(m, root, base, a);
    PointerReads(m, root, base, p1);
    PointerReads(m, root, base, p2);
    PointerReads(m, root, base, p3);
  }

  /** One application of the inverse formula. */
  lemma PageOfEntryShape(base: Word, k: Vpn)
    requires SelfMapBase(base)
    ensures base + 8 * k < TWO_64
    ensures PageOfEntry(base, base + 8 * k) == AddressOf(k)
  {
    BaseShape(base);
    DivUnique(8 * k, TWO_64, 0, 8 * k);
    DivUnique(8 * k, 8, k, 0);
    var a: Word := k * SIZE_4K;
    DivUnique(a, TWO_64, 0, a);
    if a < TWO_47 {
      DivUnique(a, TWO_47, 0, a);
    } else {
      DivUnique(a, TWO_47, 1, a - TWO_47);
    }
  }

  /** A table page starts at the entry of the first page it describes. */
  lemma TablePageAddress(base: Word, n: Vpn)
    requires SelfMapBase(base)
    ensures AddressOf(TablePage(base, n)) == base + 8 * (n - n % 512)
  {
    BaseShape(base);
    RoundDown(n, 512);
  }

  /** The pages one entry of level k (1 for a PTE, 4 for a PML4E) describes. */
  function LevelSpan(k: nat): (pages: nat)
    requires 1 <= k <= 4
    ensures pages > 0
  {
    if k == 1 then 1 else if k == 2 then PAGES_2M else if k == 3 then PAGES_1G else PAGES_512G
  }

  function IterTablePage(base: Word, k: nat, n: Vpn): Vpn {
    if k == 0 then n else TablePage(base, IterTablePage(base, k - 1, n))
  }

  lemma {:induction false} IterEntryPointerShape(base: Word, a: Word, k: nat)
    requires SelfMapBase(base) && 1 <= k
    ensures IterEntryPointer(k, base, a) == base + 8 * IterTablePage(base, k - 1, VpnOf(a))
    ensures VpnOf(IterEntryPointer(k, base, a)) == IterTablePage(base, k, VpnOf(a))
  {
    if k == 1 {
      assert IterEntryPointer(0, base, a) == a;
      EntryPointerShape(base, a);
    } else {
      IterEntryPointerShape(base, a, k - 1);
      EntryPointerShape(base, IterEntryPointer(k - 1, base, a));
    }
  }

  lemma IterTablePageShape(base: Word, n: Vpn)
    ensures var s := SelfIndex(base);
            && IterTablePage(base, 0, n) == n
            && IterTablePage(base, 1, n) == s * PAGES_512G + n / PAGES_2M
            && IterTablePage(base, 2, n) == s * (PAGES_512G + PAGES_1G) + n / PAGES_1G
            && IterTablePage(base, 3, n) == s * (PAGES_512G + PAGES_1G + PAGES_2M) + n / PAGES_512G
  {
    var s := SelfIndex(base);
    var one := TablePage(base, n);
    var two := TablePage(base, one);
    assert IterTablePage(base, 0, n) == n;
    assert IterTablePage(base, 1, n) == one;
    assert IterTablePage(base, 2, n) == two;
    assert IterTablePage(base, 3, n) == TablePage(base, two);
    AddMultiple(n / PAGES_2M, 512, s * PAGES_1G);
    DivDiv(n, PAGES_2M, 512, PAGES_1G);
    AddMultiple(n / PAGES_1G, 512, s * (PAGES_1G + PAGES_2M));
    DivDiv(n, PAGES_1G, 512, PAGES_512G);
  }

  /** Level-k entries do not see the low bits of the page number, and stay aligned on the way up. */
  lemma IterTablePageRounds(base: Word, n: Vpn, k: nat, r: Vpn)
    requires 1 <= k <= 4 && r == n - n % LevelSpan(k)
    ensures IterTablePage(base, k - 1, n) == IterTablePage(base, k - 1, r)
    ensures forall j | 0 <= j < k - 1 :: IterTablePage(base, j, r) % 512 == 0
  {
    var s := SelfIndex(base);
    IterTablePageShape(base, n);
    IterTablePageShape(base, r);
    RoundDown(n, LevelSpan(k));
    var q := n / LevelSpan(k);
    if k == 2 {
      DivUnique(r, 512, q, 0);
    } else if k == 3 {
      DivUnique(r, 512, 512 * q, 0);
      DivUnique(s * PAGES_512G + 512 * q, 512, s * PAGES_1G + q, 0);
    } else if k == 4 {
      DivUnique(r, 512, PAGES_1G * q, 0);
      DivUnique(s * PAGES_512G + PAGES_1G * q, 512, s * PAGES_1G + 512 * q, 0);
      DivUnique(r, PAGES_1G, 512 * q, 0);
      DivUnique(s * (PAGES_512G + PAGES_1G) + 512 * q, 512, s * (PAGES_1G + 512) + q, 0);
    }
  }

  /** Coming back down one level. */
  lemma DescendOne(base: Word, x: Vpn)
    requires SelfMapBase(base) && x % 512 == 0
    ensures PageOfEntry(base, AddressOf(TablePage(base, x))) == AddressOf(x)
  {
    TablePageAddress(base, x);
    PageOfEntryShape(base, x);
  }

  lemma {:induction false} Descend(base: Word, r: Vpn, k: nat, d: nat, p: Word)
    requires SelfMapBase(base) && 1 <= k && 1 <= d <= k
    requires p == base + 8 * IterTablePage(base, k - 1, r)
    requires forall j | 0 <= j < k - 1 :: IterTablePage(base, j, r) % 512 == 0
    ensures IterPageOfEntry(d, base, p) == AddressOf(IterTablePage(base, k - d, r))
  {
    if d == 1 {
      PageOfEntryShape(base, IterTablePage(base, k - 1, r));
      assert IterPageOfEntry(0, base, p) == p;
    } else {
      Descend(base, r, k, d - 1, p);
      DescendOne(base, IterTablePage(base, k - d, r));
    }
  }

  /** Walking down again: the inverse formula applied k times to the level-k entry pointer returns the address
      rounded down to the span that one entry of level k covers. */
  lemma SelfMapRoundTrip(base: Word, a: Word, k: nat)
    requires SelfMapBase(base) && 1 <= k <= 4
    ensures IterPageOfEntry(k, base, IterEntryPointer(k, base, a)) == AddressOf(VpnOf(a) - VpnOf(a) % LevelSpan(k))
  {
    var r: Vpn := VpnOf(a) - VpnOf(a) % LevelSpan(k);
    IterEntryPointerShape(base, a, k);
    IterTablePageRounds(base, VpnOf(a), k, r);
    Descend(base, r, k, k, IterEntryPointer(k, base, a));
    assert IterTablePage(base, 0, r) == r;
  }
}
