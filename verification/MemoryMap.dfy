/**
  The loader takes memory for the virtual machine monitor from the top of one region of the BIOS memory map
  (INT 15H, E820H) and rewrites the map so that nobody else uses it. Fields are 32 bits wide and wrap.
 */
module MemoryMap {

  const U32: int := 0x1_0000_0000
  const U64: int := 0x1_0000_0000_0000_0000
  const MB4: int := 0x40_0000
  const MB8: int := 0x80_0000

  const USABLE: int := 1
  const RESERVED: int := 2
  const END_OF_LIST: int := 255

  type Word = x: int | 0 <= x < 0x1_0000_0000

  function Add32(a: Word, b: Word): Word {
    if a + b < U32 then a + b else a + b - U32
  }

  function Sub32(a: Word, b: Word): Word {
    if a >= b then a - b else a - b + U32
  }

  function Add64(a: int, b: int): int {
    if a + b < U64 then a + b else a + b - U64
  }

  /** An address range descriptor. */
  datatype Ard = Ard(baseLow: Word, baseHigh: Word, lengthLow: Word, lengthHigh: Word, kind: Word)

  function Base(a: Ard): int {
    a.baseHigh * U32 + a.baseLow
  }

  function Length(a: Ard): int {
    a.lengthHigh * U32 + a.lengthLow
  }

  /** Base plus length as the loader computes it. */
  function End(a: Ard): int {
    Add64(Base(a), Length(a))
  }

  predicate Contains(a: Ard, x: int) {
    Base(a) <= x < Base(a) + Length(a)
  }

  /** The descriptor is a range of 64-bit addresses. */
  predicate IsRange(a: Ard) {
    Base(a) + Length(a) <= U64
  }

  // ----- choosing a region -----

  predicate Candidate(a: Ard) {
    End(a) < U32 && Length(a) >= MB8 && a.kind == USABLE && End(a) > 0
  }

  /** The first of the candidates that end highest, or -1 if there is no candidate. */
  ghost predicate IsChoice(s: seq<Ard>, chosen: int, max: int) {
    if chosen == -1 then max == 0 && forall i | 0 <= i < |s| :: !Candidate(s[i])
    else
      && 0 <= chosen < |s| && Candidate(s[chosen]) && max == End(s[chosen])
      && (forall i | 0 <= i < |s| && Candidate(s[i]) :: End(s[i]) <= max)
      && (forall i | 0 <= i < chosen && Candidate(s[i]) :: End(s[i]) < max)
  }

  method ChooseRegion(p: seq<Ard>) returns (chosenregion: int, maxAvailableAddress: int)
    ensures IsChoice(p, chosenregion, maxAvailableAddress)
  {
    chosenregion, maxAvailableAddress := -1, 0;
    var i := 0;
    while i < |p|
      invariant 0 <= i <= |p|
      invariant IsChoice(p[..i], chosenregion, maxAvailableAddress)
    {
      var tempbase, templength := Base(p[i]), Length(p[i]);
      assert p[..i + 1] == p[..i] + [p[i]];
      if Add64(tempbase, templength) < U32 && templength >= MB8 && p[i].kind == USABLE
         && Add64(tempbase, templength) > maxAvailableAddress {
        maxAvailableAddress := Add64(tempbase, templength);
        chosenregion := i;
      }
      i := i + 1;
    }
    assert p[..|p|] == p;
  }

  /** The choice in plain terms: a usable region (type 1) of at least 8MB, and no such region that ends below 4GB ends
      higher; none is chosen only if there is none. */
  lemma ChoiceIsHighest(s: seq<Ard>, chosen: int, max: int)
    requires IsChoice(s, chosen, max)
    ensures chosen != -1 ==> 0 <= chosen < |s| && s[chosen].kind == 1 && Length(s[chosen]) >= 0x80_0000
    ensures forall i | 0 <= i < |s| ::
              s[i].kind == 1 && Length(s[i]) >= 0x80_0000 && Base(s[i]) + Length(s[i]) < 0x1_0000_0000 ==>
              chosen != -1 && Base(s[i]) + Length(s[i]) <= max
    ensures chosen != -1 && IsRange(s[chosen]) ==> max == Base(s[chosen]) + Length(s[chosen]) < 0x1_0000_0000
    ensures forall i | 0 <= i < chosen ::
              s[i].kind == 1 && Length(s[i]) >= 0x80_0000 && Base(s[i]) + Length(s[i]) < 0x1_0000_0000 ==>
              Base(s[i]) + Length(s[i]) < max
  {
    forall i | 0 <= i < |s| && s[i].kind == 1 && Length(s[i]) >= 0x80_0000 && Base(s[i]) + Length(s[i]) < 0x1_0000_0000
      ensures chosen != -1 && Base(s[i]) + Length(s[i]) <= max
    {
      assert Candidate(s[i]);
    }
    forall i | 0 <= i < chosen && s[i].kind == 1 && Length(s[i]) >= 0x80_0000 &&
               Base(s[i]) + Length(s[i]) < 0x1_0000_0000
      ensures Base(s[i]) + Length(s[i]) < max
    {
      assert Candidate(s[i]);
    }
  }

  // ----- carving -----

  /** The start of the carved area: four megabytes below the end, rounded down to four megabytes. */
  function Start(max: Word): Word {
    var start := Sub32(max, MB4);
    start - start % MB4
  }

  /** The chosen region without what is carved from it. */
  function Shortened(a: Ard, start: Word): Ard {
    a.(lengthLow := Sub32(start, a.baseLow))
  }

  /** The reserved region after it, extended down to the carved area. */
  function Extended(a: Ard, start: Word): Ard {
    a.(baseLow := start, lengthLow := Sub32(Add32(a.baseLow, a.lengthLow), start))
  }

  function Reserved(start: Word, oldend: Word): Ard {
    Ard(start, 0, Sub32(oldend, start), 0, RESERVED)
  }

  predicate Merges(s: seq<Ard>, c: nat) {
    c + 1 < |s| && s[c + 1].kind == RESERVED
  }

  /** The new map: the carved area joins the reserved region that follows, or becomes an entry of its own. */
  function Rewritten(s: seq<Ard>, c: nat, start: Word): seq<Ard>
    requires c < |s|
  {
    if Merges(s, c) then s[c := Shortened(s[c], start)][c + 1 := Extended(s[c + 1], start)]
    else
      s[..c] + [Shortened(s[c], start), Reserved(start, Add32(s[c].baseLow, s[c].lengthLow))] + s[c + 1..]
  }

  const END_MARK := Ard(0, 0, 0, 0, END_OF_LIST)

  /** The whole memory of the list afterwards: a merge leaves the end mark behind the list, an insertion takes its
      place. */
  function Rewrite(memory: seq<Ard>, count: nat, c: nat, start: Word): (r: seq<Ard>)
    requires c < count < |memory|
    ensures |r| == |memory|
  {
    var s := memory[..count];
    Rewritten(s, c, start) + (if Merges(s, c) then [END_MARK] else []) + memory[count + 1..]
  }

  /** The rewriting of the list in place. The list has room for the end mark. */
  method AdjustMap(p: array<Ard>, count: nat, chosenregion: nat, maxAvailableAddress: Word)
    returns (start: Word, count': nat)
    requires chosenregion < count < p.Length
    modifies p
    ensures start == Start(maxAvailableAddress)
    ensures var s := old(p[..count]);
            && count' == (if Merges(s, chosenregion) then count else count + 1) <= p.Length
            && p[..count'] == Rewritten(s, chosenregion, start)
    ensures p[..] == Rewrite(old(p[..]), count, chosenregion, start)
  {
    ghost var s := p[..count];
    ghost var memory := p[..];
    p[count] := END_MARK;
    start := Sub32(maxAvailableAddress, MB4);
    start := start - start % MB4;
    var oldend := Add32(p[chosenregion].baseLow, p[chosenregion].lengthLow);
    p[chosenregion] := Shortened(p[chosenregion], start);
    count' := count;
    if p[chosenregion + 1].kind == RESERVED {
      p[chosenregion + 1] := Extended(p[chosenregion + 1], start);
      assert p[..count'] == Rewritten(s, chosenregion, start);
      assert p[..] == p[..count'] + [END_MARK] + memory[count + 1..];
    } else {
      ShiftUp(p, count, chosenregion);
      p[chosenregion + 1] := Reserved(start, oldend);
      count' := count + 1;
      assert p[..count'] == Rewritten(s, chosenregion, start);
      assert p[..] == p[..count'] + [] + memory[count + 1..];
    }
  }

  method ShiftUp(p: array<Ard>, count: nat, chosenregion: nat)
    requires chosenregion < count < p.Length
    modifies p
    ensures forall k | chosenregion < k <= count :: p[k] == old(p[k - 1])
    ensures forall k | 0 <= k < p.Length && !(chosenregion < k <= count) :: p[k] == old(p[k])
  {
    var i := count;
    while i > chosenregion
      invariant chosenregion <= i <= count
      invariant forall k | i < k <= count :: p[k] == old(p[k - 1])
      invariant forall k | 0 <= k < p.Length && !(i < k <= count) :: p[k] == old(p[k])
    {
      p[i] := p[i - 1];
      i := i - 1;
    }
  }

  // ----- what the new map means -----

  /** The carved area is four-megabyte aligned and lies in the chosen region, with more than four and at most eight
      megabytes up to the region's end and something left below it. */
  lemma CarvedInside(a: Ard)
    requires Candidate(a) && IsRange(a)
    ensures a.baseHigh == 0 && a.lengthHigh == 0 && End(a) == Base(a) + Length(a) == Add32(a.baseLow, a.lengthLow)
    ensures var start := Start(End(a));
            start % MB4 == 0 && Base(a) < start && start + MB4 <= End(a) < start + MB8
  {
    assert a.baseHigh > 0 ==> Base(a) >= U32;
    assert a.lengthHigh > 0 ==> Length(a) >= U32;
  }

  predicate UsableBy(a: Ard, x: int) {
    a.kind == USABLE && Contains(a, x)
  }

  ghost predicate UsableAt(s: seq<Ard>, x: int) {
    exists i :: 0 <= i < |s| && UsableBy(s[i], x)
  }

  /** An address is usable by an entry other than the chosen one. */
  ghost predicate UsableElsewhere(s: seq<Ard>, c: nat, x: int) {
    exists i :: 0 <= i < |s| && i != c && UsableBy(s[i], x)
  }

  predicate Carved(a: Ard, x: int)
    requires Candidate(a)
  {
    Start(End(a)) <= x < End(a)
  }

  lemma ShortenedRange(a: Ard, x: int)
    requires Candidate(a) && IsRange(a)
    ensures UsableBy(Shortened(a, Start(End(a))), x) <==> UsableBy(a, x) && !Carved(a, x)
  {
    CarvedInside(a);
  }

  /** Where the entries of the old map are in the new one; the new entry, if any, is at c + 1. */
  function NewIndex(s: seq<Ard>, c: nat, i: nat): nat {
    if i <= c || Merges(s, c) then i else i + 1
  }

  /** All entries but the chosen region and an extended one are kept, in their order, and nothing else is usable. */
  lemma OthersKept(s: seq<Ard>, c: nat, start: Word)
    requires c < |s|
    ensures var r := Rewritten(s, c, start);
            && |r| == NewIndex(s, c, |s|)
            && r[c] == Shortened(s[c], start)
            && (forall i | 0 <= i < |s| && i != c && !(Merges(s, c) && i == c + 1) :: r[NewIndex(s, c, i)] == s[i])
            && r[c + 1].kind == (if c + 1 < |s| && Merges(s, c) then s[c + 1].kind else RESERVED)
            && (forall i | 0 <= i < |s| && i != c && UsableKind(s[i]) :: r[NewIndex(s, c, i)] == s[i])
            && (forall k | 0 <= k < |r| && k != c && UsableKind(r[k]) ::
                  exists i :: 0 <= i < |s| && i != c && NewIndex(s, c, i) == k && s[i] == r[k])
  {
    var r := Rewritten(s, c, start);
    forall k | 0 <= k < |r| && k != c && UsableKind(r[k])
      ensures exists i :: 0 <= i < |s| && i != c && NewIndex(s, c, i) == k && s[i] == r[k]
    {
      var i := if k < c || Merges(s, c) then k else k - 1;
      assert NewIndex(s, c, i) == k && s[i] == r[k];
    }
  }

  predicate UsableKind(a: Ard) {
    a.kind == USABLE
  }

  /** What is usable afterwards: what is left of the chosen region, and what other entries say. */
  lemma UsableRewritten(s: seq<Ard>, c: nat, x: int)
    requires c < |s| && Candidate(s[c]) && IsRange(s[c])
    ensures UsableAt(Rewritten(s, c, Start(End(s[c]))), x) <==>
            (UsableBy(s[c], x) && !Carved(s[c], x)) || UsableElsewhere(s, c, x)
  {
    var start := Start(End(s[c]));
    var r := Rewritten(s, c, start);
    OthersKept(s, c, start);
    ShortenedRange(s[c], x);
    if UsableAt(r, x) {
      var k :| 0 <= k < |r| && UsableBy(r[k], x);
      if k != c {
        assert UsableKind(r[k]);
        var i :| 0 <= i < |s| && i != c && NewIndex(s, c, i) == k && s[i] == r[k];
        assert UsableBy(s[i], x);
      }
    }
    if UsableElsewhere(s, c, x) {
      var i :| 0 <= i < |s| && i != c && UsableBy(s[i], x);
      assert UsableKind(s[i]);
      assert UsableBy(r[NewIndex(s, c, i)], x);
    }
    if UsableBy(s[c], x) && !Carved(s[c], x) {
      assert UsableBy(r[c], x);
    }
  }

  /** Usable memory afterwards is the old usable memory without the carved area, at every address where, and only where,
      no other usable entry meets the carved area; so at all addresses if the usable regions are disjoint. */
  lemma UsableAfter(s: seq<Ard>, c: nat, x: int)
    requires c < |s| && Candidate(s[c]) && IsRange(s[c])
    ensures var r := Rewritten(s, c, Start(End(s[c])));
            (UsableAt(r, x) <==> UsableAt(s, x) && !Carved(s[c], x)) <==>
            !(Carved(s[c], x) && UsableElsewhere(s, c, x))
  {
    UsableRewritten(s, c, x);
    UsableSplit(s, c, x);
    CarvedInside(s[c]);
  }

  lemma UsableSplit(s: seq<Ard>, c: nat, x: int)
    requires c < |s|
    ensures UsableAt(s, x) <==> UsableBy(s[c], x) || UsableElsewhere(s, c, x)
  {
    if UsableBy(s[c], x) {
      assert UsableAt(s, x);
    }
  }

  /** An inserted entry reserves exactly the carved area. */
  lemma InsertedReserves(a: Ard, x: int)
    requires Candidate(a) && IsRange(a)
    ensures Contains(Reserved(Start(End(a)), Add32(a.baseLow, a.lengthLow)), x) <==> Carved(a, x)
  {
    CarvedInside(a);
  }

  /** The extended entry is exactly the range from the carved start to its old end if and only if its base
      has no high half and its low parts sum to between start and start + 4GB. */
  lemma ExtendedExactly(n: Ard, start: Word)
    ensures var e := Extended(n, start);
            Base(e) == start && Base(e) + Length(e) == Base(n) + Length(n) <==>
            n.baseHigh == 0 && start <= n.baseLow + n.lengthLow < start + U32
  {
  }

  /** In particular for a reserved region below four gigabytes at or above the end of the chosen one; the carved
      area and all of the old reserved region are then reserved. */
  lemma ExtendedReserves(a: Ard, n: Ard, x: int)
    requires Candidate(a) && IsRange(a) && End(a) <= Base(n) < U32 && Base(n) + Length(n) <= U32
    ensures Contains(Extended(n, Start(End(a))), x) <==> Start(End(a)) <= x < Base(n) + Length(n)
    ensures Carved(a, x) || Contains(n, x) ==> Contains(Extended(n, Start(End(a))), x)
  {
    CarvedInside(a);
    assert n.baseHigh == 0 && n.lengthHigh == 0 by {
      assert n.baseHigh > 0 ==> Base(n) >= U32;
      assert n.lengthHigh > 0 ==> Length(n) >= U32;
    }
    ExtendedExactly(n, Start(End(a)));
  }

  /** The carved area is reserved (type 2) in the new map, provided that a reserved entry that follows the chosen one
      lies below 4GB at or above its end. */
  lemma CarvedIsReserved(s: seq<Ard>, c: nat, x: int)
    requires c < |s| && Candidate(s[c]) && IsRange(s[c]) && Carved(s[c], x)
    requires c + 1 < |s| && s[c + 1].kind == 2 ==>
               End(s[c]) <= Base(s[c + 1]) < 0x1_0000_0000 && Base(s[c + 1]) + Length(s[c + 1]) <= 0x1_0000_0000
    ensures var r := Rewritten(s, c, Start(End(s[c])));
            exists k :: 0 <= k < |r| && r[k].kind == 2 && Contains(r[k], x)
  {
    var start := Start(End(s[c]));
    var r := Rewritten(s, c, start);
    CarvedInside(s[c]);
    if c + 1 < |s| && s[c + 1].kind == 2 {
      ExtendedReserves(s[c], s[c + 1], x);
      assert r[c + 1] == Extended(s[c + 1], start);
    } else {
      InsertedReserves(s[c], x);
      assert r[c + 1] == Reserved(start, Add32(s[c].baseLow, s[c].lengthLow));
    }
    assert r[c + 1].kind == 2 && Contains(r[c + 1], x);
  }

  /** No other entry changes its type or its range: what was reserved, reclaimable or of any other type stays so. */
  lemma OtherTypesKept(s: seq<Ard>, c: nat, i: nat)
    requires c < |s| && Candidate(s[c]) && IsRange(s[c]) && i < |s| && i != c && !(i == c + 1 && s[i].kind == 2)
    ensures var r := Rewritten(s, c, Start(End(s[c])));
            var k := if i < c || (c + 1 < |s| && s[c + 1].kind == 2) then i else i + 1;
            k < |r| && r[k] == s[i]
  {
    OthersKept(s, c, Start(End(s[c])));
  }

  /** A reserved region above four gigabytes that follows the chosen one is moved, and the carved area is not
      reserved. */
  lemma HighNeighbourIsMoved()
    ensures var a := Ard(0x10_0000, 0, 0x7ff0_0000, 0, USABLE);
            var n := Ard(0, 1, 0x1000, 0, RESERVED);
            && Candidate(a) && Start(End(a)) == 0x7fc0_0000
            && Base(Extended(n, Start(End(a)))) == 0x1_7fc0_0000
            && Carved(a, 0x7fc0_0000) && !Contains(Extended(n, Start(End(a))), 0x7fc0_0000)
  {
  }

  /** The new list ends with an end mark if and only if the carved area was merged, or the memory behind the old end
      mark happened to hold one. */
  lemma EndMarkKept(memory: seq<Ard>, count: nat, c: nat, start: Word)
    requires c < count && count + 1 < |memory|
    ensures var n := |Rewritten(memory[..count], c, start)|;
            && n < |memory| && Rewrite(memory, count, c, start)[..n] == Rewritten(memory[..count], c, start)
            && (Merges(memory[..count], c) ==> Rewrite(memory, count, c, start)[n] == Ard(0, 0, 0, 0, 255))
            && (Rewrite(memory, count, c, start)[n].kind == END_OF_LIST <==>
                Merges(memory[..count], c) || memory[count + 1].kind == END_OF_LIST)
  {
  }

  /** For instance in a map with one usable region and zeros behind it. */
  lemma EndMarkLost()
    ensures var a, zero := Ard(0x10_0000, 0, 0x7ff0_0000, 0, USABLE), Ard(0, 0, 0, 0, 0);
            var r := Rewrite([a, zero, zero], 1, 0, Start(End(a)));
            && Candidate(a) && r == [Shortened(a, 0x7fc0_0000), Reserved(0x7fc0_0000, 0x8000_0000), zero]
            && forall i | 0 <= i < |r| :: r[i].kind != END_OF_LIST
  {
  }

  /** Choice and rewrite. */
  method LoadMap(p: array<Ard>, count: nat) returns (chosenregion: int, start: Word, count': nat)
    requires count < p.Length
    modifies p
    ensures chosenregion == -1 <==> forall i | 0 <= i < count :: !Candidate(old(p[i]))
    ensures chosenregion == -1 ==> p[..] == old(p[..])
    ensures chosenregion != -1 ==>
              var s := old(p[..count]);
              && IsChoice(s, chosenregion, if 0 <= chosenregion < count then End(s[chosenregion]) else 0)
              && start == Start(End(s[chosenregion]))
              && count' == |Rewritten(s, chosenregion, start)| <= p.Length
              && p[..count'] == Rewritten(s, chosenregion, start)
              && p[..] == Rewrite(old(p[..]), count, chosenregion, start)
  {
    start, count' := 0, count;
    var max;
    chosenregion, max := ChooseRegion(p[..count]);
    if chosenregion == -1 {
      return;
    }
    start, count' := AdjustMap(p, count, chosenregion, max);
  }
}
