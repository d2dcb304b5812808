/**
  Writing a byte buffer into a stopped process one machine word at a time: whole words first, then one
  read-modify-write for what is left.
 */
module WordPoke {

  const WORD: nat := 8

  type Byte = b: int | 0 <= b < 256

  /** The bytes of the target that are mapped. */
  type Memory = map<int, Byte>

  predicate Mapped(mem: Memory, address: int, n: nat) {
    forall a | address <= a < address + n :: a in mem
  }

  /** The word of the write that holds buffer position `i` is mapped. */
  predicate Reaches(mem: Memory, address: int, i: nat) {
    Mapped(mem, address + i / WORD * WORD, WORD)
  }

  /** The memory after the first `n` bytes of the buffer have been dealt with: the bytes in mapped words have been
      replaced, and nothing else has changed. */
  function Overlay(mem: Memory, address: int, buffer: seq<Byte>, n: nat): (r: Memory)
    requires n <= |buffer|
    ensures r.Keys == mem.Keys
  {
    map a | a in mem ::
      if address <= a < address + n && Reaches(mem, address, a - address) then buffer[a - address] else mem[a]
  }

  /** The memory after a poke: unchanged unless the whole word is mapped. */
  function Poked(mem: Memory, address: int, word: seq<Byte>): Memory
    requires |word| == WORD
  {
    if Mapped(mem, address, WORD)
    then map a | a in mem :: if address <= a < address + WORD then word[a - address] else mem[a]
    else mem
  }

  /** How many of the first `n` bytes went into mapped words. */
  function Stored(mem: Memory, address: int, n: nat): nat {
    if n == 0 then 0 else Stored(mem, address, n - 1) + if Reaches(mem, address, n - 1) then 1 else 0
  }

  class Target {
    var mem: Memory

    constructor (mem: Memory)
      ensures this.mem == mem
    {
      this.mem := mem;
    }

    /** PTRACE_PEEKDATA; on an unmapped word the result is minus one. */
    method Peek(address: int) returns (word: seq<Byte>)
      ensures |word| == WORD
      ensures Mapped(mem, address, WORD) ==> forall i | 0 <= i < WORD :: word[i] == mem[address + i]
    {
      if forall a | address <= a < address + WORD :: a in mem {
        word := seq(WORD, i requires 0 <= i < WORD && Mapped(mem, address, WORD) reads this => mem[address + i]);
      } else {
        word := seq(WORD, _ => 255);
      }
    }

    /** PTRACE_POKEDATA. */
    method Poke(address: int, word: seq<Byte>) returns (ok: bool)
      requires |word| == WORD
      modifies this
      ensures ok == Mapped(old(mem), address, WORD)
      ensures mem == Poked(old(mem), address, word)
    {
      ok := forall a | address <= a < address + WORD :: a in mem;
      mem := Poked(mem, address, word);
    }

    /** One poke of the write: the word at buffer position `offset`, of which the first `n` bytes come from the
        buffer and the others are what was there. */
    method PokeWord(lpAddress: int, buffer: seq<Byte>, offset: nat, n: nat, word: seq<Byte>, ghost m: Memory)
      returns (ok: bool)
      requires offset % WORD == 0 && 0 < n <= WORD && offset + n <= |buffer|
      requires mem == Overlay(m, lpAddress, buffer, offset)
      requires WordFor(mem, lpAddress + offset, buffer, offset, n, word)
      modifies this
      ensures mem == Overlay(m, lpAddress, buffer, offset + n)
      ensures ok == Mapped(m, lpAddress + offset, WORD)
    {
      OverlayWord(m, lpAddress, buffer, offset, n, word, mem);
      ok := Poke(lpAddress + offset, word);
    }

    /** What is left after the whole words: between one byte and a word. */
    method PokeRest(lpAddress: int, buffer: seq<Byte>, offset: nat, ghost m: Memory) returns (ok: bool)
      requires offset % WORD == 0 && offset < |buffer| <= offset + WORD
      requires mem == Overlay(m, lpAddress, buffer, offset)
      modifies this
      ensures mem == Overlay(m, lpAddress, buffer, |buffer|)
      ensures ok == Mapped(m, lpAddress + offset, WORD)
    {
      var oldvalue := Peek(lpAddress + offset);
      var i := 0;
      while i < |buffer| - offset
        invariant 0 <= i <= |buffer| - offset && |oldvalue| == WORD
        invariant forall j | 0 <= j < i :: oldvalue[j] == buffer[offset + j]
        invariant Mapped(mem, lpAddress + offset, WORD) ==>
                    forall j | i <= j < WORD :: oldvalue[j] == mem[lpAddress + offset + j]
      {
        oldvalue := oldvalue[i := buffer[offset + i]];
        i := i + 1;
      }
      ok := PokeWord(lpAddress, buffer, offset, i, oldvalue, m);
    }

    method WriteProcessMemory(lpAddress: int, buffer: seq<Byte>) returns (written: nat)
      modifies this
      ensures mem == Overlay(old(mem), lpAddress, buffer, |buffer|)
      ensures written == Reported(old(mem), lpAddress, |buffer|)
    {
      ghost var m := mem;
      var size := |buffer|;
      written := 0;
      var offset := 0;
      var max := size - WORD;
      OverlayNothing(m, lpAddress, buffer);
      while offset < max
        invariant 0 <= offset <= size && (offset < size || size == 0) && offset % WORD == 0
        invariant written == offset
        invariant mem == Overlay(m, lpAddress, buffer, offset)
      {
        var _ := PokeWord(lpAddress, buffer, offset, WORD, buffer[offset..offset + WORD], m);
        offset := offset + WORD;
        written := written + WORD;
      }
      if offset < size {
        var ok := PokeRest(lpAddress, buffer, offset, m);
        LastWord(size, offset);
        if ok {
          written := written + (size - offset);
        }
      }
    }
  }

  /** Where the final read-modify-write starts, for a write of n > 0 bytes. */
  function LastStart(n: nat): (r: nat)
    requires n > 0
    ensures r < n <= r + WORD
  {
    (n - 1) / WORD * WORD
  }

  /** The returned count: every whole word counts whether its poke succeeded or not; the last word only if it did. */
  function Reported(mem: Memory, address: int, n: nat): nat {
    if n == 0 then 0 else if Reaches(mem, address, n - 1) then n else LastStart(n)
  }

  lemma WordOf(start: nat, i: nat)
    requires start % WORD == 0 && start <= i < start + WORD
    ensures i / WORD * WORD == start
  {
  }

  lemma LastWord(n: nat, offset: nat)
    requires offset % WORD == 0 && offset < n <= offset + WORD
    ensures LastStart(n) == offset
  {
  }

  lemma OverlayNothing(m: Memory, address: int, buffer: seq<Byte>)
    ensures Overlay(m, address, buffer, 0) == m
  {
  }

  /** A word whose first n bytes come from the buffer and whose others are what is in memory. */
  ghost predicate WordFor(mem: Memory, base: int, buffer: seq<Byte>, offset: nat, n: nat, word: seq<Byte>) {
    && |word| == WORD && n <= WORD && offset + n <= |buffer|
    && (forall i | 0 <= i < n :: word[i] == buffer[offset + i])
    && (Mapped(mem, base, WORD) ==> forall i | n <= i < WORD :: word[i] == mem[base + i])
  }

  /** One poke extends the overlay by one word, or by the rest of the buffer. */
  lemma OverlayWord(m: Memory, address: int, buffer: seq<Byte>, offset: nat, n: nat, word: seq<Byte>, before: Memory)
    requires offset % WORD == 0 && 0 < n <= WORD && offset + n <= |buffer|
    requires before == Overlay(m, address, buffer, offset)
    requires WordFor(before, address + offset, buffer, offset, n, word)
    ensures Mapped(before, address + offset, WORD) == Mapped(m, address + offset, WORD)
    ensures Poked(before, address + offset, word) == Overlay(m, address, buffer, offset + n)
  {
    var after := Poked(before, address + offset, word);
    forall a | a in m ensures after[a] == Overlay(m, address, buffer, offset + n)[a] {
      OverlayByte(m, address, buffer, offset, n, word, before, a);
    }
  }

  lemma OverlayByte(m: Memory, address: int, buffer: seq<Byte>, offset: nat, n: nat, word: seq<Byte>,
                    before: Memory, a: int)
    requires offset % WORD == 0 && 0 < n <= WORD && offset + n <= |buffer|
    requires before == Overlay(m, address, buffer, offset) && a in m
    requires WordFor(before, address + offset, buffer, offset, n, word)
    ensures Poked(before, address + offset, word)[a] == Overlay(m, address, buffer, offset + n)[a]
  {
    var base := address + offset;
    if base <= a < base + n {
      WordOf(offset, a - address);
      assert word[a - base] == buffer[offset + (a - base)];
    } else if Mapped(before, base, WORD) && base + n <= a < base + WORD {
      assert word[a - base] == before[base + (a - base)];
    }
  }

  /** If every poke succeeds the write replaces exactly the requested bytes and reports all of them. */
  lemma WholeWrite(mem: Memory, address: int, buffer: seq<Byte>)
    requires forall i | 0 <= i < |buffer| :: Reaches(mem, address, i)
    ensures Mapped(mem, address, |buffer|)
    ensures forall a | address <= a < address + |buffer| ::
              Overlay(mem, address, buffer, |buffer|)[a] == buffer[a - address]
    ensures forall a | a in mem && !(address <= a < address + |buffer|) ::
              Overlay(mem, address, buffer, |buffer|)[a] == mem[a]
    ensures Reported(mem, address, |buffer|) == |buffer|
  {
    if buffer != [] {
      assert Reaches(mem, address, |buffer| - 1);
    }
    forall a | address <= a < address + |buffer|
      ensures a in mem && Overlay(mem, address, buffer, |buffer|)[a] == buffer[a - address]
    {
      var i := a - address;
      assert Reaches(mem, address, i);
      assert address + i / WORD * WORD <= a < address + i / WORD * WORD + WORD;
    }
  }

  /** What is stored: the bytes of the buffer that lie in mapped words, and no others. */
  lemma PartialWrite(mem: Memory, address: int, buffer: seq<Byte>, i: nat)
    requires i < |buffer| && address + i in mem
    ensures Overlay(mem, address, buffer, |buffer|)[address + i] ==
              if forall a | address + i / 8 * 8 <= a < address + i / 8 * 8 + 8 :: a in mem
              then buffer[i] else mem[address + i]
  {
  }

  /** The returned count is the number of bytes stored exactly when every whole word before the last one is mapped:
      a poke that fails in the loop is counted all the same. */
  lemma ReportedIsStored(mem: Memory, address: int, n: nat)
    requires n > 0
    ensures Reported(mem, address, n) == Stored(mem, address, n) <==>
            forall i | 0 <= i < LastStart(n) :: Reaches(mem, address, i)
  {
    var start := LastStart(n);
    assert start % WORD == 0;
    WordOf(start, n - 1);
    StoredWord(mem, address, start, n);
    if forall i | 0 <= i < start :: Reaches(mem, address, i) {
      StoredAll(mem, address, start);
    } else {
      StoredSome(mem, address, start);
    }
  }

  /** A write of nine bytes over an unmapped first word reports nine bytes and stores one. */
  lemma FailedWordIsCounted()
    ensures var mem := map[8 := 0, 9 := 0, 10 := 0, 11 := 0, 12 := 0, 13 := 0, 14 := 0, 15 := 0];
            Reported(mem, 0, 9) == 9 && Stored(mem, 0, 9) == 1
  {
    var mem: Memory := map[8 := 0, 9 := 0, 10 := 0, 11 := 0, 12 := 0, 13 := 0, 14 := 0, 15 := 0];
    WordOf(8, 8);
    StoredWord(mem, 0, 8, 9);
    assert 0 !in mem;
    StoredWord(mem, 0, 0, 8);
    assert !Mapped(mem, 0, WORD);
  }

  lemma {:induction false} StoredWord(mem: Memory, address: int, start: nat, n: nat)
    requires start % WORD == 0 && start <= n <= start + WORD
    ensures Stored(mem, address, n) ==
            Stored(mem, address, start) + if Mapped(mem, address + start, WORD) then n - start else 0
  {
    if n > start {
      StoredWord(mem, address, start, n - 1);
      WordOf(start, n - 1);
    }
  }

  lemma {:induction false} StoredAll(mem: Memory, address: int, n: nat)
    requires forall i | 0 <= i < n :: Reaches(mem, address, i)
    ensures Stored(mem, address, n) == n
  {
    if n > 0 {
      StoredAll(mem, address, n - 1);
    }
  }

  lemma {:induction false} StoredSome(mem: Memory, address: int, n: nat)
    ensures Stored(mem, address, n) <= n
    ensures (exists i :: 0 <= i < n && !Reaches(mem, address, i)) ==> Stored(mem, address, n) < n
  {
    if n > 0 {
      StoredSome(mem, address, n - 1);
    }
  }
}
