/**
  What the accessed-page list holds after an enumeration, and what clearing the accessed bits first means
  for a later enumeration.
 */
module AccessedPages {
  import opened Arithmetic
  import opened Wrappers
  import opened Paging
  import opened PageWalk

  /** The entry of the 4KB or 2MB page that maps an address, if there is one. */
  function LeafEntry(m: PhysicalMemory, root: nat, x: Word): Option<Location> {
    match WalkTables(m, root, VpnOf(x))
    case Small(entry) => Some(entry)
    case Large(entry) => Some(entry)
    case _ => None
  }

  /** The translation of an address ends in an entry whose accessed bit is set. */
  predicate Accessed(m: PhysicalMemory, root: nat, x: Word) {
    LeafEntry(m, root, x).Some? && m(LeafEntry(m, root, x).value).a
  }

  predicate Holds(r: Range, x: Word) {
    r.start <= x <= r.end
  }

  ghost predicate Covered(list: seq<Range>, x: Word) {
    exists i :: 0 <= i < |list| && Holds(list[i], x)
  }

  /** Highest range first, with a gap of at least one byte between neighbours. */
  predicate Canonical(list: seq<Range>) {
    && (forall i | 0 <= i < |list| :: list[i].start <= list[i].end)
    && (forall i, j | 0 <= i < j < |list| :: list[j].end + 1 < list[i].start)
  }

  /** A canonical list is determined by the addresses it covers. */
  lemma {:induction false} CanonicalUnique(l: seq<Range>, l': seq<Range>)
    requires Canonical(l) && Canonical(l')
    requires forall x: Word :: Covered(l, x) <==> Covered(l', x)
    ensures l == l'
    decreases |l|
  {
    if l == [] || l' == [] {
      if l != [] {
        assert Holds(l[0], l[0].end) && Covered(l, l[0].end);
      } else if l' != [] {
        assert Holds(l'[0], l'[0].end) && Covered(l', l'[0].end);
      }
    } else {
      HeadBounds(l, l');
      HeadBounds(l', l);
      forall x: Word
        ensures Covered(l[1..], x) <==> Covered(l'[1..], x)
      {
        TailCovers(l, x);
        TailCovers(l', x);
      }
      CanonicalUnique(l[1..], l'[1..]);
      assert l == [l[0]] + l[1..] && l' == [l'[0]] + l'[1..];
    }
  }

  lemma HeadBounds(l: seq<Range>, l': seq<Range>)
    requires Canonical(l) && Canonical(l') && l != [] && l' != []
    requires forall x: Word :: Covered(l, x) <==> Covered(l', x)
    ensures l[0].end <= l'[0].end && (l[0].end == l'[0].end ==> l'[0].start <= l[0].start)
  {
    var e := l[0].end;
    assert Holds(l[0], e) && Covered(l, e);
    var i :| 0 <= i < |l'| && Holds(l'[i], e);
    if l'[0].start > 0 {
      var x: Word := l'[0].start - 1;
      assert !Covered(l', x);
      assert !Holds(l[0], x);
    }
  }

  lemma TailCovers(l: seq<Range>, x: Word)
    requires Canonical(l) && l != []
    ensures Covered(l[1..], x) <==> Covered(l, x) && x + 1 < l[0].start
  {
    if Covered(l, x) && x + 1 < l[0].start {
      var i :| 0 <= i < |l| && Holds(l[i], x);
      assert Holds(l[1..][i - 1], x);
    }
    if Covered(l[1..], x) {
      var i :| 0 <= i < |l[1..]| && Holds(l[1..][i], x);
      assert Holds(l[i + 1], x);
    }
  }

  // ---------------------------------------------------------------------------------------------
  // One page at a time.

  /** The pages whose addresses have been decided once the first `pages` pages have been looked at: a large
      page is decided as a whole when its first page is. */
  function Frontier(m: PhysicalMemory, root: nat, pages: nat): nat
    requires pages <= PAGES_64BIT
  {
    if pages == 0 then 0
    else if WalkTables(m, root, (pages - 1) % PAGES_48BIT).Large?
      then pages - 1 - (pages - 1) % PAGES_2M + PAGES_2M
    else pages
  }

  /** A page at which a leaf starts, or whose walk ends in nothing, lies exactly at the frontier. */
  lemma FrontierMeets(m: PhysicalMemory, root: nat, page: nat)
    requires page < PAGES_64BIT
    ensures var w := WalkTables(m, root, page % PAGES_48BIT);
            if w.Large? && page % PAGES_2M != 0
            then Frontier(m, root, page + 1) == Frontier(m, root, page)
            else Frontier(m, root, page) == page < Frontier(m, root, page + 1)
  {
    if page != 0 {
      if page % PAGES_2M == 0 {
        PreviousBlock(page);
      } else {
        NextInBlock(page - 1);
        var n, n' := (page - 1) % PAGES_48BIT, page % PAGES_48BIT;
        if WalkTables(m, root, n).Large? {
          SpanUniform(m, root, n, n');
        }
        if WalkTables(m, root, n').Large? {
          SpanUniform(m, root, n', n);
        }
      }
    }
  }

  lemma PreviousBlock(page: nat)
    requires page > 0 && page % PAGES_2M == 0
    ensures page - 1 - (page - 1) % PAGES_2M + PAGES_2M == page
  {
    DivUnique(page - 1, PAGES_2M, page / PAGES_2M - 1, PAGES_2M - 1);
  }

  ghost predicate Ascending(leaves: seq<Leaf>, bound: int) {
    && (forall i | 0 <= i < |leaves| :: leaves[i].start <= leaves[i].end < bound)
    && (forall i, j | 0 <= i < j < |leaves| :: leaves[i].end < leaves[j].start)
  }

  lemma AscendingMore(leaves: seq<Leaf>, leaf: Leaf)
    requires Ascending(leaves, leaf.start) && leaf.start <= leaf.end
    ensures Ascending(leaves + [leaf], leaf.end + 1)
  {
  }

  /** The slow form reports the leaves in ascending order, each once, none overlapping another. */
  lemma {:induction false} LeavesAscend(m: PhysicalMemory, root: nat, pages: nat)
    requires pages <= PAGES_64BIT
    ensures Ascending(Leaves(m, root, pages), Frontier(m, root, pages) * SIZE_4K)
  {
    if pages > 0 {
      LeavesAscend(m, root, pages - 1);
      AscendStep(m, root, pages - 1, Leaves(m, root, pages - 1));
    }
  }

  lemma AscendStep(m: PhysicalMemory, root: nat, page: nat, front: seq<Leaf>)
    requires page < PAGES_64BIT
    requires Ascending(front, Frontier(m, root, page) * SIZE_4K)
    ensures Ascending(front + LeafAt(m, root, page), Frontier(m, root, page + 1) * SIZE_4K)
  {
    var more := LeafAt(m, root, page);
    FrontierMeets(m, root, page);
    if more == [] {
      assert front + more == front;
    } else {
      LeafIsFrontier(m, root, page);
      AscendingMore(front, more[0]);
      assert front + more == front + [more[0]];
    }
  }

  /** What the list means after some pages: canonical, counted, and covering exactly the accessed addresses
      below the frontier. */
  ghost predicate Represents(s: State, m: PhysicalMemory, root: nat, frontier: nat) {
    && s.mem == m
    && s.size == |s.list|
    && Canonical(s.list)
    && (forall i | 0 <= i < |s.list| :: s.list[i].end < frontier * SIZE_4K)
    && (forall x: Word :: Covered(s.list, x) <==> x / SIZE_4K < frontier && Accessed(m, root, x))
  }

  lemma ConsCovers(r: Range, tail: seq<Range>, x: Word)
    ensures Covered([r] + tail, x) <==> Holds(r, x) || Covered(tail, x)
  {
    var list := [r] + tail;
    if Holds(r, x) {
      assert Holds(list[0], x);
    }
    if Covered(tail, x) {
      var i :| 0 <= i < |tail| && Holds(tail[i], x);
      assert Holds(list[i + 1], x);
    }
    if Covered(list, x) {
      var i :| 0 <= i < |list| && Holds(list[i], x);
      assert Holds(r, x) || Holds(tail[i - 1], x);
    }
  }

  /** Storing a range above everything stored so far keeps the list canonical and adds exactly that range. */
  lemma StoreAdds(s: State, leaf: Leaf, s': State)
    requires Canonical(s.list) && leaf.start <= leaf.end && s.mem(leaf.entry).a
    requires forall i | 0 <= i < |s.list| :: s.list[i].end < leaf.start
    requires s' == OnPresentPage(StoreAccessedRanges, s, leaf)
    ensures s'.mem == s.mem && s'.size - s.size == |s'.list| - |s.list|
    ensures Canonical(s'.list)
    ensures forall i | 0 <= i < |s'.list| :: s'.list[i].end <= leaf.end
    ensures forall x: Word :: Covered(s'.list, x) <==> Covered(s.list, x) || leaf.start <= x <= leaf.end
  {
    if s.list != [] && s.list[0].end == leaf.start - 1 {
      assert s'.list == [s.list[0].(end := leaf.end)] + s.list[1..];
      ExtendsHead(s.list, leaf.start, leaf.end);
    } else {
      assert s'.list == [Range(leaf.start, leaf.end)] + s.list;
      InsertsHead(s.list, leaf.start, leaf.end);
    }
  }

  lemma InsertsHead(list: seq<Range>, start: Word, end: Word)
    requires Canonical(list) && start <= end && forall i | 0 <= i < |list| :: list[i].end + 1 < start
    ensures var list' := [Range(start, end)] + list;
            && Canonical(list') && (forall i | 0 <= i < |list'| :: list'[i].end <= end)
            && (forall x: Word :: Covered(list', x) <==> Covered(list, x) || start <= x <= end)
  {
    forall x: Word ensures Covered([Range(start, end)] + list, x) <==> Covered(list, x) || start <= x <= end {
      ConsCovers(Range(start, end), list, x);
    }
  }

  lemma ExtendsHead(list: seq<Range>, start: Word, end: Word)
    requires Canonical(list) && list != [] && list[0].end == start - 1 && start <= end
    ensures var list' := [list[0].(end := end)] + list[1..];
            && Canonical(list') && (forall i | 0 <= i < |list'| :: list'[i].end <= end)
            && (forall x: Word :: Covered(list', x) <==> Covered(list, x) || start <= x <= end)
  {
    var head, tail := list[0], list[1..];
    assert list == [head] + tail;
    forall x: Word ensures Covered([head.(end := end)] + tail, x) <==> Covered(list, x) || start <= x <= end {
      ConsCovers(head, tail, x);
      ConsCovers(head.(end := end), tail, x);
    }
  }

  lemma PageOfAddress(x: Word)
    ensures x / SIZE_4K < PAGES_64BIT && VpnOf(x) == x / SIZE_4K % PAGES_48BIT
  {
    DivDiv(x, SIZE_4K, PAGES_48BIT, TWO_48);
  }

  /** Within the leaf that starts at a page, every address is mapped by the leaf's entry. */
  lemma LeafEntryWithin(m: PhysicalMemory, root: nat, page: nat, x: Word)
    requires page < PAGES_64BIT && |LeafAt(m, root, page)| == 1
    requires LeafAt(m, root, page)[0].start <= x <= LeafAt(m, root, page)[0].end
    ensures LeafEntry(m, root, x) == Some(LeafAt(m, root, page)[0].entry)
  {
    var w := WalkTables(m, root, page % PAGES_48BIT);
    var p := x / SIZE_4K;
    PageOfAddress(x);
    if p != page {
      assert w.Large?;
      assert page < p < page + PAGES_2M;
      SameSpan(w, page, p);
      SpanUniform(m, root, page % PAGES_48BIT, p % PAGES_48BIT);
    }
  }

  lemma NoLeafNotMapped(m: PhysicalMemory, root: nat, page: nat, x: Word)
    requires page == x / SIZE_4K && page < PAGES_64BIT
    requires LeafAt(m, root, page) == [] && !WalkTables(m, root, page % PAGES_48BIT).Large?
    ensures LeafEntry(m, root, x).None?
  {
    PageOfAddress(x);
  }

  /** The list after the first pages. */
  function Collected(m: PhysicalMemory, root: nat, pages: nat): State
    requires pages <= PAGES_64BIT
  {
    Replay(StoreAccessedRanges, State(m, [], 0), Leaves(m, root, pages))
  }

  lemma CollectedNext(m: PhysicalMemory, root: nat, pages: nat)
    requires 0 < pages <= PAGES_64BIT
    ensures Collected(m, root, pages) ==
            Replay(StoreAccessedRanges, Collected(m, root, pages - 1), LeafAt(m, root, pages - 1))
  {
    ReplayMore(StoreAccessedRanges, State(m, [], 0), Leaves(m, root, pages - 1), LeafAt(m, root, pages - 1));
  }

  lemma {:induction false} CollectedUpTo(m: PhysicalMemory, root: nat, pages: nat)
    requires pages <= PAGES_64BIT
    ensures Represents(Collected(m, root, pages), m, root, Frontier(m, root, pages))
  {
    if pages > 0 {
      CollectedUpTo(m, root, pages - 1);
      CollectedNext(m, root, pages);
      CollectedStep(Collected(m, root, pages - 1), m, root, pages, Collected(m, root, pages));
    }
  }

  lemma CollectedStep(s: State, m: PhysicalMemory, root: nat, pages: nat, s': State)
    requires 0 < pages <= PAGES_64BIT
    requires Represents(s, m, root, Frontier(m, root, pages - 1))
    requires s' == Replay(StoreAccessedRanges, s, LeafAt(m, root, pages - 1))
    ensures Represents(s', m, root, Frontier(m, root, pages))
  {
    var page := pages - 1;
    FrontierMeets(m, root, page);
    var w := WalkTables(m, root, page % PAGES_48BIT);
    var leaves := LeafAt(m, root, page);
    if leaves == [] {
      if !w.Large? {
        forall x: Word | x / SIZE_4K == page
          ensures !Accessed(m, root, x)
        {
          NoLeafNotMapped(m, root, page, x);
        }
      }
    } else {
      ReplaySingle(StoreAccessedRanges, s, leaves);
      var leaf := leaves[0];
      forall x: Word | leaf.start <= x <= leaf.end
        ensures Accessed(m, root, x) <==> m(leaf.entry).a
      {
        LeafEntryWithin(m, root, page, x);
      }
      LeafIsFrontier(m, root, page);
      if m(leaf.entry).a {
        StoreAdds(s, leaf, OnPresentPage(StoreAccessedRanges, s, leaf));
      }
    }
  }

  lemma LeafIsFrontier(m: PhysicalMemory, root: nat, page: nat)
    requires page < PAGES_64BIT && |LeafAt(m, root, page)| == 1
    ensures var leaf := LeafAt(m, root, page)[0];
            && leaf.start == page * SIZE_4K && leaf.start <= leaf.end
            && leaf.end == Frontier(m, root, page + 1) * SIZE_4K - 1
            && forall x: Word :: leaf.start <= x <= leaf.end <==> page <= x / SIZE_4K < Frontier(m, root, page + 1)
  {
  }

  // ---------------------------------------------------------------------------------------------
  // The main results.

  /**
    After an enumeration of the pages below a 2MB-aligned limit the list is canonical, its counter is its length,
    and it covers exactly the addresses below the limit whose translation ends in an accessed entry; so it is
    the only canonical list that does.
   */
  lemma EnumerationIsExact(m: PhysicalMemory, root: nat, limit: Word) returns (s: State)
    requires limit % SIZE_2M == 0
    ensures s == Replay(StoreAccessedRanges, State(m, [], 0), Leaves(m, root, PagesBelow(limit)))
    ensures s.mem == m && Canonical(s.list) && s.size == |s.list|
    ensures forall x: Word :: Covered(s.list, x) <==> x < limit && Accessed(m, root, x)
    ensures forall l: seq<Range> ::
              Canonical(l) && (forall x: Word :: Covered(l, x) <==> x < limit && Accessed(m, root, x)) ==> l == s.list
  {
    var pages := PagesBelow(limit);
    s := Replay(StoreAccessedRanges, State(m, [], 0), Leaves(m, root, pages));
    AlignedLimit(limit);
    CollectedUpTo(m, root, pages);
    if pages > 0 {
      PreviousBlock(pages);
    }
    assert Frontier(m, root, pages) == pages;
    forall l: seq<Range> | Canonical(l) && (forall x: Word :: Covered(l, x) <==> x < limit && Accessed(m, root, x))
      ensures l == s.list
    {
      CanonicalUnique(l, s.list);
    }
  }

  /** The walk's callbacks below a 2MB-aligned limit: the leaf containing an address is called back on exactly
      when the address is mapped and below the limit, with the whole page and the entry the processor uses. */
  lemma CallbacksAreTheLeaves(m: PhysicalMemory, root: nat, limit: Word, x: Word)
    requires limit % SIZE_2M == 0
    ensures var leaves := Leaves(m, root, PagesBelow(limit));
            && Ascending(leaves, limit)
            && Locates(leaves, x, x < limit && LeafEntry(m, root, x).Some?, LeafEntry(m, root, x))
  {
    var pages := PagesBelow(limit);
    AlignedLimit(limit);
    LeavesAscend(m, root, pages);
    LeavesLocate(m, root, pages, x);
    if pages > 0 {
      PreviousBlock(pages);
    }
  }

  /** Among some leaves, exactly one with the entry that maps the address contains it, or none does. */
  ghost predicate Locates(leaves: seq<Leaf>, x: Word, found: bool, entry: Option<Location>) {
    && ((exists i :: 0 <= i < |leaves| && leaves[i].start <= x <= leaves[i].end) <==> found)
    && (forall i | 0 <= i < |leaves| && leaves[i].start <= x <= leaves[i].end :: entry == Some(leaves[i].entry))
  }

  lemma LocatesMore(leaves: seq<Leaf>, leaf: Leaf, x: Word, found: bool, entry: Option<Location>)
    requires Locates(leaves, x, found, entry)
    requires leaf.start <= x <= leaf.end ==> entry == Some(leaf.entry)
    ensures Locates(leaves + [leaf], x, found || leaf.start <= x <= leaf.end, entry)
  {
    var more := leaves + [leaf];
    assert more[|leaves|] == leaf;
    if found {
      var i :| 0 <= i < |leaves| && leaves[i].start <= x <= leaves[i].end;
      assert more[i].start <= x <= more[i].end;
    }
  }

  /** Which of the leaves of the first pages contains an address. */
  lemma {:induction false} LeavesLocate(m: PhysicalMemory, root: nat, pages: nat, x: Word)
    requires pages <= PAGES_64BIT
    ensures Locates(Leaves(m, root, pages), x,
                    x / SIZE_4K < Frontier(m, root, pages) && LeafEntry(m, root, x).Some?, LeafEntry(m, root, x))
  {
    if pages > 0 {
      var page := pages - 1;
      var front, more := Leaves(m, root, page), LeafAt(m, root, page);
      var entry := LeafEntry(m, root, x);
      LeavesLocate(m, root, page, x);
      FrontierMeets(m, root, page);
      PageOfAddress(x);
      if more == [] {
        assert front + more == front;
        if !WalkTables(m, root, page % PAGES_48BIT).Large? && x / SIZE_4K == page {
          NoLeafNotMapped(m, root, page, x);
        }
      } else {
        LeafIsFrontier(m, root, page);
        if more[0].start <= x <= more[0].end {
          LeafEntryWithin(m, root, page, x);
        }
        LocatesMore(front, more[0], x, x / SIZE_4K < page && entry.Some?, entry);
        assert front + more == front + [more[0]];
      }
    }
  }

  lemma AlignedLimit(limit: Word)
    requires limit % SIZE_2M == 0
    ensures PagesBelow(limit) % PAGES_2M == 0 && PagesBelow(limit) * SIZE_4K == limit
    ensures PagesBelow(limit) <= PAGES_64BIT
    ensures forall x: Word :: x < limit <==> x / SIZE_4K < PagesBelow(limit)
  {
    var q := limit / SIZE_2M;
    assert limit == SIZE_2M * q;
    DivUnique(limit + SIZE_4K - 1, SIZE_4K, PAGES_2M * q, SIZE_4K - 1);
    DivUnique(PAGES_2M * q, PAGES_2M, q, 0);
    forall x: Word ensures x < limit <==> x / SIZE_4K < PAGES_2M * q {
      BelowPages(x, PAGES_2M * q);
    }
  }

  lemma BelowPages(x: Word, pages: nat)
    ensures x < pages * SIZE_4K <==> x / SIZE_4K < pages
  {
    assert x == SIZE_4K * (x / SIZE_4K) + x % SIZE_4K;
  }

  ghost predicate IsEntryOf(leaves: seq<Leaf>, l: Location) {
    exists i :: 0 <= i < |leaves| && leaves[i].entry == l
  }

  /** Clearing: every leaf entry that was called back on loses its accessed bit, and nothing else changes. */
  lemma {:induction false} MarkClears(s: State, leaves: seq<Leaf>, l: Location)
    ensures var s' := Replay(MarkPageAsNotAccessed, s, leaves);
            && s'.list == s.list && s'.size == s.size
            && s'.mem(l) == if IsEntryOf(leaves, l) then s.mem(l).(a := false) else s.mem(l)
  {
    if leaves != [] {
      var front := leaves[..|leaves| - 1];
      MarkClears(s, front, l);
      if IsEntryOf(front, l) {
        var i :| 0 <= i < |front| && front[i].entry == l;
        assert leaves[i].entry == l;
      }
      if IsEntryOf(leaves, l) {
        var i :| 0 <= i < |leaves| && leaves[i].entry == l;
        assert i == |leaves| - 1 || front[i].entry == l;
      }
      assert leaves[|leaves| - 1].entry == l ==> IsEntryOf(leaves, l);
    }
  }

  /** What the processor does to the entries it goes through between two scans. */
  function Touch(m: PhysicalMemory, touched: set<Location>): PhysicalMemory {
    (l: Location) => if l in touched then m(l).(a := true) else m(l)
  }

  lemma {:induction false} LeavesHold(m: PhysicalMemory, root: nat, pages: nat, page: nat)
    requires page < pages <= PAGES_64BIT && |LeafAt(m, root, page)| == 1
    ensures IsEntryOf(Leaves(m, root, pages), LeafAt(m, root, page)[0].entry)
  {
    var leaves := Leaves(m, root, pages);
    var front := Leaves(m, root, pages - 1);
    if page == pages - 1 {
      assert leaves[|front|].entry == LeafAt(m, root, page)[0].entry;
    } else {
      LeavesHold(m, root, pages - 1, page);
      var i :| 0 <= i < |front| && front[i].entry == LeafAt(m, root, page)[0].entry;
      assert leaves[i].entry == LeafAt(m, root, page)[0].entry;
    }
  }

  /** Every mapped address below the limit has its leaf entry called back on. */
  lemma EntryIsVisited(m: PhysicalMemory, root: nat, limit: Word, x: Word)
    requires limit % SIZE_2M == 0 && x < limit && LeafEntry(m, root, x).Some?
    ensures IsEntryOf(Leaves(m, root, PagesBelow(limit)), LeafEntry(m, root, x).value)
  {
    AlignedLimit(limit);
    PageOfAddress(x);
    var page := x / SIZE_4K;
    var w := WalkTables(m, root, page % PAGES_48BIT);
    var first := SpanStart(w, page);
    if first != page {
      RoundDown(page, PAGES_2M);
      assert w.Large? && first % PAGES_2M == 0;
      SameSpan(w, first, page);
      SpanUniform(m, root, page % PAGES_48BIT, first % PAGES_48BIT);
    }
    LeavesHold(m, root, PagesBelow(limit), first);
  }

  /**
    Mark, let the target run, enumerate: the list then covers exactly the addresses below the limit whose leaf
    entry the processor touched in between.
   */
  lemma MarkThenEnumerate(m: PhysicalMemory, root: nat, limit: Word, before: State, touched: set<Location>)
    returns (after: State)
    requires limit % SIZE_2M == 0 && before.mem == m
    ensures var marked := Replay(MarkPageAsNotAccessed, before, Leaves(m, root, PagesBelow(limit))).mem;
            var now := Touch(marked, touched);
            after == Replay(StoreAccessedRanges, State(now, [], 0), Leaves(now, root, PagesBelow(limit)))
    ensures Canonical(after.list)
    ensures forall x: Word :: Covered(after.list, x) <==>
              x < limit && LeafEntry(m, root, x).Some? && LeafEntry(m, root, x).value in touched
  {
    var leaves := Leaves(m, root, PagesBelow(limit));
    var marked := Replay(MarkPageAsNotAccessed, before, leaves).mem;
    var now := Touch(marked, touched);
    ReplayKeepsTables(MarkPageAsNotAccessed, before, leaves);
    assert SameTables(m, now);
    after := EnumerationIsExact(now, root, limit);
    forall x: Word | x < limit
      ensures Accessed(now, root, x) <==> LeafEntry(m, root, x).Some? && LeafEntry(m, root, x).value in touched
    {
      SameWalk(m, now, root, VpnOf(x));
      if LeafEntry(m, root, x).Some? {
        EntryIsVisited(m, root, limit, x);
        MarkClears(before, leaves, LeafEntry(m, root, x).value);
      }
    }
  }

  /** The enumeration the driver offers covers the accessed addresses of the lower 8TB. */
  lemma UserEnumeration(m: PhysicalMemory, root: nat) returns (s: State)
    ensures s == Replay(StoreAccessedRanges, State(m, [], 0), Leaves(m, root, PagesBelow(USER_LIMIT)))
    ensures Canonical(s.list) && s.size == |s.list|
    ensures forall x: Word :: Covered(s.list, x) <==> x < 0x800_0000_0000 && Accessed(m, root, x)
  {
    s := EnumerationIsExact(m, root, USER_LIMIT);
  }
}
