/**
  Printing and parsing numbers without a C library: itoa, appendzero, power and atoi on NUL-terminated buffers.
  Unsigned 64-bit arithmetic wraps.
 */
module Numbers {
  import Arithmetic

  const NUL: char := '\0'
  const U32: nat := 0x1_0000_0000
  const U64: nat := 0x1_0000_0000_0000_0000

  // ----- strings -----

  /** The buffer holds the string t. */
  ghost predicate Holds(buffer: seq<char>, t: string) {
    |t| < |buffer| && buffer[|t|] == NUL && forall i | 0 <= i < |t| :: buffer[i] == t[i] != NUL
  }

  method StrLen(buffer: seq<char>, ghost t: string) returns (length: nat)
    requires Holds(buffer, t)
    ensures length == |t|
  {
    length := 0;
    while buffer[length] != NUL
      invariant length <= |t|
      decreases |t| - length
    {
      length := length + 1;
    }
  }

  /** Copies the string `src` to position `at` of `dest`, with its terminator: the loop of strcat and strcpy. */
  method CopyString(dest: array<char>, at: nat, src: string)
    requires at + |src| < dest.Length
    modifies dest
    ensures forall k | 0 <= k < |src| :: dest[at + k] == src[k]
    ensures dest[at + |src|] == NUL
    ensures forall k | 0 <= k < dest.Length && !(at <= k <= at + |src|) :: dest[k] == old(dest[k])
  {
    var j := 0;
    while j < |src|
      invariant j <= |src|
      invariant forall k | 0 <= k < j :: dest[at + k] == src[k]
      invariant forall k | 0 <= k < dest.Length && !(at <= k < at + j) :: dest[k] == old(dest[k])
    {
      dest[at + j] := src[j];
      j := j + 1;
    }
    dest[at + |src|] := NUL;
  }

  // ----- digits and values -----

  function DigitChar(d: nat): char
    requires d < 36
  {
    if d <= 9 then ('0' as int + d) as char else ('a' as int + d - 10) as char
  }

  /** The value of a digit in the largest base; 36 for every other character. */
  function CharValue(c: char): (d: nat)
    ensures d <= 36
  {
    if '0' <= c <= '9' then c as int - '0' as int
    else if 'a' <= c <= 'z' then 10 + c as int - 'a' as int
    else if 'A' <= c <= 'Z' then 10 + c as int - 'A' as int
    else 36
  }

  function Pow(x: nat, y: nat): nat {
    if y == 0 then 1 else Pow(x, y - 1) * x
  }

  /** The digits of v in the given base, most significant first. */
  function Digits(v: nat, base: nat): (t: string)
    requires 2 <= base <= 36
    ensures |t| > 0
    decreases v
  {
    if v < base then [DigitChar(v)] else Shrinks(v, base); Digits(v / base, base) + [DigitChar(v % base)]
  }

  lemma Shrinks(v: nat, base: nat)
    requires 2 <= base <= v
    ensures 0 < v / base < v && 0 <= v % base < base
  {
    var q, r := v / base, v % base;
    assert v == base * q + r;
    assert base * q >= 2 * q;
    assert q > 0;
  }

  /** What a string of digits stands for. */
  function Value(t: string, base: nat): nat {
    if t == [] then 0 else Value(t[..|t| - 1], base) * base + CharValue(t[|t| - 1])
  }

  lemma DigitCharValue(d: nat)
    requires d < 36
    ensures CharValue(DigitChar(d)) == d && DigitChar(d) != NUL && DigitChar(d) != '-' && DigitChar(d) != '$'
    ensures DigitChar(d) == 'x' <==> d == 33
    ensures DigitChar(d) == '0' <==> d == 0
  {
  }

  lemma Regroup(c: nat, p: nat, u: nat, base: nat, d: nat, x: nat)
    requires x == c * p + u
    ensures x * base + d == c * (p * base) + (u * base + d)
  {
  }

  /** The same value, seen from the first digit. */
  lemma {:induction false} ValueFront(c: char, t: string, base: nat)
    ensures Value([c] + t, base) == CharValue(c) * Pow(base, |t|) + Value(t, base)
  {
    if t == [] {
      ValueSnoc([], c, base);
      assert [c] + t == [] + [c];
    } else {
      var k := |t| - 1;
      var u, d := t[..k], t[k];
      ValueFront(c, u, base);
      ValueSnoc([c] + u, d, base);
      ValueSnoc(u, d, base);
      assert [c] + t == [c] + u + [d] && t == u + [d];
      Regroup(CharValue(c), Pow(base, k), Value(u, base), base, CharValue(d), Value([c] + u, base));
    }
  }

  lemma {:induction false} ValueZeros(t: string, n: nat, base: nat)
    ensures Value(Zeros(n) + t, base) == Value(t, base)
  {
    if n > 0 {
      ValueZeros(t, n - 1, base);
      ValueFront('0', Zeros(n - 1) + t, base);
      assert Zeros(n) + t == ['0'] + (Zeros(n - 1) + t);
    } else {
      assert Zeros(n) + t == t;
    }
  }

  function Zeros(n: nat): string {
    seq(n, _ => '0')
  }

  /** Printing and reading back is the identity on the digits alone. */
  lemma {:induction false} ValueDigits(v: nat, base: nat)
    requires 2 <= base <= 36
    ensures Value(Digits(v, base), base) == v
    decreases v
  {
    if v < base {
      DigitCharValue(v);
      ValueSnoc([], DigitChar(v), base);
      assert [] + [DigitChar(v)] == [DigitChar(v)];
    } else {
      var q, r := LastDigit(v, base);
      ValueDigits(q, base);
      DigitCharValue(r);
      ValueSnoc(Digits(q, base), DigitChar(r), base);
    }
  }

  lemma LastDigit(v: nat, base: nat) returns (q: nat, r: nat)
    requires 2 <= base <= v
    ensures q == v / base && r == v % base && r < base && 0 < q < v && q * base + r == v
  {
    Shrinks(v, base);
    q, r := v / base, v % base;
    Commute(q, base);
  }

  lemma Commute(a: int, b: int)
    ensures a * b == b * a
  {
  }

  lemma ValueSnoc(t: string, c: char, base: nat)
    ensures Value(t + [c], base) == Value(t, base) * base + CharValue(c)
  {
    assert (t + [c])[..|t|] == t;
  }

  predicate IsDigit(c: char, base: nat) {
    CharValue(c) < base
  }

  /** Every digit is one of the base, and a number other than zero does not start with a zero. */
  lemma {:induction false} DigitsAre(v: nat, base: nat)
    requires 2 <= base <= 36
    ensures var t := Digits(v, base);
            && (forall i | 0 <= i < |t| :: IsDigit(t[i], base) && t[i] !in {NUL, '-', '$'})
            && (t[0] == '0' ==> |t| == 1)
    ensures base <= 33 ==> 'x' !in Digits(v, base)
    decreases v
  {
    if v < base {
      DigitCharValue(v);
    } else {
      var q, r := LastDigit(v, base);
      DigitsAre(q, base);
      DigitCharValue(r);
      NotZero(q, base);
    }
  }

  lemma NotZero(v: nat, base: nat)
    requires 2 <= base <= 36 && v > 0
    ensures Digits(v, base) != "0"
  {
    ValueDigits(v, base);
    assert Value("0", base) == 0 by {
      assert "0"[..0] == [];
    }
  }

  lemma {:induction false} DigitsLength(v: nat, base: nat, n: nat)
    requires 2 <= base <= 36 && v < Pow(base, n) && n > 0
    ensures |Digits(v, base)| <= n
  {
    if v >= base {
      var q, _ := LastDigit(v, base);
      assert Pow(base, 1) == Pow(base, 0) * base;
      DivBound(v, base, Pow(base, n - 1));
      DigitsLength(q, base, n - 1);
    }
  }

  lemma DivBound(v: nat, b: nat, p: nat)
    requires b > 0 && v < p * b
    ensures v / b < p
  {
    var q := v / b;
    assert q >= p ==> q * b >= p * b;
  }

  // ----- printing -----

  /** The first loop of itoa: digits from the least significant on, until the number or the room runs out. */
  method ReversedDigits(value: nat, base: nat, maxsize: nat) returns (tempbuf: string)
    requires 0 < value && 2 <= base <= 36
    ensures |tempbuf| == if |Digits(value, base)| <= maxsize then |Digits(value, base)| else maxsize
    ensures forall k | 0 <= k < |tempbuf| :: tempbuf[k] == Digits(value, base)[|Digits(value, base)| - 1 - k]
  {
    ghost var d := Digits(value, base);
    var v := value;
    tempbuf := [];
    ghost var tail: string := [];
    while v > 0 && |tempbuf| < maxsize
      invariant |tempbuf| == |tail| <= maxsize && forall k | 0 <= k < |tail| :: tempbuf[k] == tail[|tail| - 1 - k]
      invariant d == (if v > 0 then Digits(v, base) else []) + tail
      decreases v
    {
      DigitStep(v, base, tail);
      var t := v % base;
      tempbuf := tempbuf + [DigitChar(t)];
      tail := [DigitChar(t)] + tail;
      v := v / base;
    }
    assert d[|d| - |tail|..] == tail;
  }

  lemma DigitStep(v: nat, base: nat, tail: string)
    requires 0 < v && 2 <= base <= 36
    ensures 0 <= v % base < base && 0 <= v / base < v
    ensures Digits(v, base) + tail ==
            (if v / base > 0 then Digits(v / base, base) else []) + ([DigitChar(v % base)] + tail)
  {
    if v >= base {
      var q, r := LastDigit(v, base);
      assert Digits(v, base) == Digits(q, base) + [DigitChar(r)];
    } else {
      SmallDigit(v, base);
    }
  }

  lemma SmallDigit(v: nat, base: nat)
    requires v < base
    ensures v % base == v && v / base == 0
  {
    Arithmetic.DivUnique(v, base, 0, v);
  }

  /** What itoa leaves in a buffer of this size: all digits if there is room for them and the terminator; otherwise the
      last ones that fit, the very last overwritten by the terminator. */
  function Printed(value: nat, base: nat, maxsize: nat): string
    requires 2 <= base <= 36 && maxsize > 0
  {
    Fit(Digits(value, base), maxsize)
  }

  function Fit(d: string, maxsize: nat): string
    requires maxsize > 0
  {
    if |d| < maxsize then d else d[|d| - maxsize..|d| - 1]
  }

  method Itoa(value: nat, base: int, output: array<char>, maxsize: nat) returns (r: int)
    requires value < U32 && 0 < maxsize <= output.Length
    modifies output
    ensures base < 2 || base > 36 ==> r == -1 && output[..] == old(output[..])
    ensures 2 <= base <= 36 ==>
              && Holds(output[..], Printed(value, base, maxsize))
              && r == (if value == 0 then (if maxsize > 1 then 2 else 0)
                       else if |Digits(value, base)| < maxsize then |Digits(value, base)| else maxsize)
    ensures forall k | maxsize <= k < output.Length :: output[k] == old(output[k])
  {
    if base < 2 || base > 36 {
      return -1;
    }
    if value == 0 {
      r := PrintZero(base, output, maxsize);
      return;
    }
    var tempbuf := ReversedDigits(value, base, maxsize);
    r := |tempbuf|;
    CopyReversed(tempbuf, output);
    if r < maxsize {
      output[r] := NUL;
    } else {
      output[maxsize - 1] := NUL;
    }
    DigitsNotNul(value, base);
    FitHeld(Digits(value, base), maxsize, tempbuf, output[..]);
  }

  method PrintZero(base: nat, output: array<char>, maxsize: nat) returns (r: int)
    requires 2 <= base <= 36 && 0 < maxsize <= output.Length
    modifies output
    ensures Holds(output[..], Printed(0, base, maxsize)) && r == if maxsize > 1 then 2 else 0
    ensures forall k | maxsize <= k < output.Length :: output[k] == old(output[k])
  {
    if maxsize > 1 {
      output[0] := '0';
      output[1] := NUL;
      return 2;
    }
    // Neither loop runs.
    output[0] := NUL;
    return 0;
  }

  /** The second loop of itoa. */
  method CopyReversed(tempbuf: string, output: array<char>)
    requires |tempbuf| <= output.Length
    modifies output
    ensures forall k | 0 <= k < |tempbuf| :: output[k] == tempbuf[|tempbuf| - 1 - k]
    ensures forall k | |tempbuf| <= k < output.Length :: output[k] == old(output[k])
  {
    var j, t := 0, |tempbuf| - 1;
    while t >= 0
      invariant 0 <= j <= |tempbuf| && t == |tempbuf| - 1 - j
      invariant forall k | 0 <= k < j :: output[k] == tempbuf[|tempbuf| - 1 - k]
      invariant forall k | j <= k < output.Length :: output[k] == old(output[k])
    {
      output[j] := tempbuf[t];
      j, t := j + 1, t - 1;
    }
  }

  /** The reversed digits, reversed again and terminated, are what itoa prints. */
  lemma {:induction false} FitHeld(d: string, maxsize: nat, tempbuf: string, output: seq<char>)
    requires NUL !in d && 0 < maxsize <= |output|
    requires |tempbuf| == if |d| <= maxsize then |d| else maxsize
    requires forall k | 0 <= k < |tempbuf| :: tempbuf[k] == d[|d| - 1 - k]
    requires var end := if |tempbuf| < maxsize then |tempbuf| else maxsize - 1;
             output[end] == NUL && forall k | 0 <= k < end :: output[k] == tempbuf[|tempbuf| - 1 - k]
    ensures Holds(output, Fit(d, maxsize))
  {
    var t := Fit(d, maxsize);
    forall k | 0 <= k < |t| ensures output[k] == t[k] != NUL {
      assert tempbuf[|tempbuf| - 1 - k] == d[|d| - |tempbuf| + k] == t[k];
      assert t[k] in d;
    }
  }

  lemma {:induction false} DigitsNotNul(value: nat, base: nat)
    requires 2 <= base <= 36
    ensures NUL !in Digits(value, base)
  {
    DigitsAre(value, base);
  }

  /** Pads with zeros on the left. A wanted size that does not fit the buffer changes nothing. */
  method AppendZero(buffer: array<char>, wantedsize: nat, maxstringsize: nat, ghost t: string)
    requires Holds(buffer[..], t) && 0 < maxstringsize <= buffer.Length
    requires |t| <= wantedsize || wantedsize >= maxstringsize
    modifies buffer
    ensures wantedsize >= maxstringsize ==> buffer[..] == old(buffer[..])
    ensures wantedsize < maxstringsize ==> Holds(buffer[..], Zeros(wantedsize - |t|) + t)
  {
    var length := StrLen(buffer[..], t);
    var zerostoadd := wantedsize - length;
    if zerostoadd + length >= maxstringsize {
      return;
    }
    var newstring := new char[wantedsize + 1];
    PadInto(newstring, buffer[..], length, t);
    // strcpy(string, newstring)
    ghost var padded := Zeros(zerostoadd) + t;
    var n := StrLen(newstring[..], padded);
    CopyString(buffer, 0, newstring[..n]);
    assert Holds(buffer[..], padded);
    buffer[maxstringsize - 1] := NUL;
  }

  /** The zeros, then strcat(newstring, string). */
  method PadInto(newstring: array<char>, text: seq<char>, length: nat, ghost t: string)
    requires Holds(text, t) && length == |t| < newstring.Length
    modifies newstring
    ensures Holds(newstring[..], Zeros(newstring.Length - 1 - length) + t)
  {
    var zerostoadd := newstring.Length - 1 - length;
    var i := 0;
    while i < zerostoadd
      invariant 0 <= i <= zerostoadd
      invariant forall k | 0 <= k < i :: newstring[k] == '0'
    {
      newstring[i] := '0';
      i := i + 1;
    }
    newstring[zerostoadd] := NUL;
    newstring[newstring.Length - 1] := NUL;
    assert Holds(newstring[..], Zeros(zerostoadd));
    var at := StrLen(newstring[..], Zeros(zerostoadd));
    CopyString(newstring, at, text[..length]);
    ghost var padded := Zeros(zerostoadd) + t;
    forall k | 0 <= k < |padded| ensures newstring[..][k] == padded[k] != NUL {
      if k >= at {
        assert newstring[at + (k - at)] == text[k - at];
      }
    }
  }

  // ----- parsing -----

  lemma ModMul(a: nat, x: nat)
    ensures (a % U64 * x) % U64 == (a * x) % U64
  {
    var q, r := a / U64, a % U64;
    assert a * x == U64 * (q * x) + r * x by {
      assert a == U64 * q + r;
    }
    Arithmetic.AddMultiple(r * x, U64, q * x);
  }

  lemma ModAdd(a: nat, b: nat)
    ensures (a % U64 + b % U64) % U64 == (a + b) % U64
  {
    Arithmetic.AddMultiple(a % U64 + b % U64, U64, a / U64 + b / U64);
  }

  method Power(x: nat, y: nat) returns (result: nat)
    ensures result == Pow(x, y) % U64
  {
    result := 1;
    var i := 0;
    while i < y
      invariant 0 <= i <= y && result == Pow(x, i) % U64
    {
      ModMul(Pow(x, i), x);
      result := result * x % U64;
      i := i + 1;
    }
  }

  lemma AddCongruent(a: nat, x: nat, y: nat)
    requires x % U64 == y % U64
    ensures (a % U64 + x) % U64 == (y + a) % U64
  {
    ModAdd(a % U64, x);
    ModAdd(a, y);
    Arithmetic.DivUnique(a % U64, U64, 0, a % U64);
  }

  /** result + c * power(base, j), in 64 bits. */
  lemma ModStep(a: nat, c: nat, p: nat)
    ensures (a % U64 + c * (p % U64)) % U64 == (c * p + a) % U64
  {
    ModMul(p, c);
    Commute(p, c);
    Commute(p % U64, c);
    AddCongruent(a, c * (p % U64), c * p);
  }

  datatype Lead = Lead(start: nat, base: nat, negative: bool)

  /** Signs and base marks at the front. */
  function ReadLead(t: string, lead: Lead): (r: Lead)
    requires lead.start <= |t|
    ensures lead.start <= r.start <= |t|
    ensures r.base == lead.base || r.base == 16
    decreases |t| - lead.start
  {
    if lead.start == |t| then lead
    else if t[lead.start] == '-' then ReadLead(t, Lead(lead.start + 1, lead.base, !lead.negative))
    else if t[lead.start] == '$' then ReadLead(t, Lead(lead.start + 1, 16, lead.negative))
    else if t[lead.start] == '0' && lead.start + 1 < |t| && t[lead.start + 1] == 'x'
    then ReadLead(t, Lead(lead.start + 2, 16, lead.negative))
    else lead
  }

  /** The last position in t[start..n] that is not a digit of the base, or start - 1. */
  function LastBad(t: string, start: nat, n: nat, base: nat): (i: int)
    requires n <= |t| && start <= |t|
    ensures start - 1 <= i < |t|
    ensures start <= i ==> !IsDigit(t[i], base)
    ensures i < n || n < start
    ensures forall k | i < k < n :: start <= k ==> IsDigit(t[k], base)
  {
    if n <= start then start - 1
    else if IsDigit(t[n - 1], base) then LastBad(t, start, n - 1, base)
    else n - 1
  }

  datatype Outcome = Outcome(value: nat, err: int)

  /** (int)(-result), widened again. */
  function Negated(x: nat): nat {
    var low := (U32 - x % U32) % U32;
    if low < 0x8000_0000 then low else low + (U64 - U32)
  }

  /** What the loop makes of digits after a minus sign: the sign is applied once per digit. */
  function MinusValue(u: string, base: nat): nat {
    if u == [] then 0
    else Negated((MinusValue(u[1..], base) + CharValue(u[0]) * (Pow(base, |u| - 1) % U64)) % U64)
  }

  function ReadDigits(u: string, base: nat, negative: bool): nat {
    if negative then MinusValue(u, base) else Value(u, base) % U64
  }

  /** What atoi returns. */
  function Parse(t: string, base: nat): Outcome {
    var lead := ReadLead(t, Lead(0, base, false));
    var bad := LastBad(t, lead.start, |t|, lead.base);
    Outcome(ReadDigits(t[bad + 1..], lead.base, lead.negative), if bad < lead.start then 0 else bad)
  }

  method ReadLeadLoop(input: seq<char>, base: nat, ghost t: string) returns (start: nat, base': nat, negative: bool)
    requires Holds(input, t)
    ensures Lead(start, base', negative) == ReadLead(t, Lead(0, base, false))
  {
    start, base', negative := 0, base, false;
    while input[start] != NUL
      invariant start <= |t|
      invariant ReadLead(t, Lead(start, base', negative)) == ReadLead(t, Lead(0, base, false))
      decreases |t| - start
    {
      if input[start] == '-' {
        negative := !negative;
        start := start + 1;
      } else if input[start] == '$' {
        base' := 16;
        start := start + 1;
      } else if input[start] == '0' && input[start + 1] == 'x' {
        base' := 16;
        start := start + 2;
      } else {
        break;
      }
    }
  }

  lemma FrontValue(t: string, i: nat, base: nat)
    requires i < |t|
    ensures Value(t[i..], base) == CharValue(t[i]) * Pow(base, |t| - 1 - i) + Value(t[i + 1..], base)
  {
    ValueFront(t[i], t[i + 1..], base);
    assert [t[i]] + t[i + 1..] == t[i..];
  }

  lemma StepEquals(a: nat, c: nat, p: nat, w: nat)
    requires w == c * p + a
    ensures (a % U64 + c * (p % U64)) % U64 == w % U64
  {
    ModStep(a, c, p);
  }

  lemma NextValue(t: string, i: nat, base: nat)
    requires i < |t|
    ensures (Value(t[i + 1..], base) % U64 + CharValue(t[i]) * (Pow(base, |t| - 1 - i) % U64)) % U64 ==
            Value(t[i..], base) % U64
  {
    FrontValue(t, i, base);
    StepEquals(Value(t[i + 1..], base), CharValue(t[i]), Pow(base, |t| - 1 - i), Value(t[i..], base));
  }

  /** One digit of the number, with the sign applied as the loop does. */
  method AddDigit(ghost t: string, ghost i: nat, base: nat, c: nat, j: nat, sum: nat, negative: bool)
    returns (result: nat)
    requires i < |t| && c == CharValue(t[i]) && j == |t| - 1 - i
    requires sum == ReadDigits(t[i + 1..], base, negative)
    ensures result == ReadDigits(t[i..], base, negative)
  {
    var p := Power(base, j);
    if !negative {
      NextValue(t, i, base);
    }
    assert t[i..][1..] == t[i + 1..];
    result := (sum + c * p) % U64;
    if negative {
      result := Negated(result);
    }
  }

  /** The number behind signs and marks, read from the last digit on; `err` is the position of the last character
      that is not a digit, and 0 if there is none. What follows that position is still returned. */
  method Atoi(input: seq<char>, base: int, ghost t: string) returns (result: nat, err: int)
    requires Holds(input, t)
    ensures base < 2 || base > 36 ==> result == 0 && err == -1
    ensures 2 <= base <= 36 ==> Outcome(result, err) == Parse(t, base)
  {
    if base < 2 || base > 36 {
      return 0, -1;
    }
    var start, base', negative := ReadLeadLoop(input, base, t);
    result, err := DigitLoop(input, start, base', negative, t);
  }

  method DigitLoop(input: seq<char>, start: nat, base: nat, negative: bool, ghost t: string)
    returns (result: nat, err: int)
    requires Holds(input, t) && start <= |t| && base <= 36
    ensures var bad := LastBad(t, start, |t|, base);
            && err == (if bad < start then 0 else bad)
            && result == ReadDigits(t[bad + 1..], base, negative)
  {
    var length := StrLen(input, t);
    result := 0;
    var i: int, j: nat := length, 0;
    i := i - 1;
    while i >= start
      invariant start - 1 <= i < |t| && j == |t| - 1 - i
      invariant LastBad(t, start, i + 1, base) == LastBad(t, start, |t|, base)
      invariant result == ReadDigits(t[i + 1..], base, negative)
    {
      var c := CharValue(input[i]);
      if c >= base {
        return result, i;
      }
      result := AddDigit(t, i, base, c, j, result, negative);
      i, j := i - 1, j + 1;
    }
    err := 0;
  }

  // ----- the round trip -----

  /** A string that starts with a digit and has no base mark has nothing in front of the number. */
  lemma NoLead(t: string, base: nat)
    requires t != [] ==> t[0] !in {'-', '$'}
    requires |t| > 1 && t[0] == '0' ==> t[1] != 'x'
    ensures ReadLead(t, Lead(0, base, false)) == Lead(0, base, false)
  {
  }

  /** Digits only, without a base mark: the value and no error. */
  lemma {:induction false} ParseDigits(t: string, base: nat, v: nat)
    requires forall i | 0 <= i < |t| :: IsDigit(t[i], base) && t[i] !in {'-', '$'}
    requires |t| > 1 && t[0] == '0' ==> t[1] != 'x'
    requires Value(t, base) == v < U64
    ensures ReadLead(t, Lead(0, base, false)) == Lead(0, base, false)
    ensures Parse(t, base) == Outcome(v, 0)
  {
    NoLead(t, base);
    assert LastBad(t, 0, |t|, base) == -1;
    assert t[0..] == t;
  }

  lemma {:induction false} PowGrows(x: nat, n: nat, m: nat)
    requires x >= 1 && n <= m
    ensures 1 <= Pow(x, n) <= Pow(x, m)
    decreases m
  {
    if n < m {
      PowGrows(x, n, m - 1);
      assert Pow(x, m - 1) * x >= Pow(x, m - 1);
    } else if n > 0 {
      PowGrows(x, n - 1, n - 1);
      assert Pow(x, n - 1) * x >= 1;
    }
  }

  lemma {:induction false} PowBase(x: nat, y: nat, n: nat)
    requires x <= y
    ensures Pow(x, n) <= Pow(y, n)
  {
    if n > 0 {
      PowBase(x, y, n - 1);
      Products(Pow(x, n - 1), Pow(y, n - 1), x, y);
    }
  }

  lemma Products(a: nat, b: nat, x: nat, y: nat)
    requires a <= b && x <= y
    ensures a * x <= b * y
  {
    assert a * x <= b * x <= b * y;
  }

  predicate AllDigits(t: string, base: nat) {
    forall i | 0 <= i < |t| :: IsDigit(t[i], base)
  }

  lemma {:induction false} ValueBound(t: string, base: nat)
    requires AllDigits(t, base)
    ensures Value(t, base) < Pow(base, |t|)
  {
    if t != [] {
      var k := |t| - 1;
      ValueBound(t[..k], base);
      Carry(Value(t[..k], base), Pow(base, k), base, CharValue(t[k]));
    }
  }

  lemma Carry(v: nat, p: nat, base: nat, d: nat)
    requires v < p && d < base
    ensures v * base + d < p * base
  {
    Products(v + 1, p, base, base);
    assert (v + 1) * base == v * base + base;
  }

  lemma {:induction false} DigitsNeeded(v: nat, base: nat)
    requires 2 <= base <= 36 && v > 0
    ensures v >= Pow(base, |Digits(v, base)| - 1)
    decreases v
  {
    if v >= base {
      var q, r := LastDigit(v, base);
      DigitsNeeded(q, base);
      Products(Pow(base, |Digits(q, base)| - 1), q, base, base);
    }
  }

  /** Whatever is read from a short string of digits is small. */
  lemma {:induction false} ParseBound(t: string, base: nat, n: nat, limit: nat)
    requires 2 <= base <= 36 && |t| - ReadLead(t, Lead(0, base, false)).start <= n && Pow(base, n) <= limit
    requires forall i | 0 <= i < |t| :: IsDigit(t[i], base) && t[i] !in {'-', '$'}
    ensures Parse(t, base).value < limit
  {
    var lead := ReadLead(t, Lead(0, base, false));
    var bad := LastBad(t, lead.start, |t|, lead.base);
    LeadBase(t, Lead(0, base, false), base);
    NeverNegative(t, Lead(0, base, false));
    SuffixDigits(t, lead.start, lead.base, bad);
    ReadBound(t[bad + 1..], lead.base, base, n, limit);
  }

  lemma {:induction false} SuffixDigits(t: string, start: nat, base: nat, bad: int)
    requires start <= |t| && bad == LastBad(t, start, |t|, base)
    ensures AllDigits(t[bad + 1..], base)
  {
  }

  lemma {:induction false} ReadBound(u: string, base: nat, above: nat, n: nat, limit: nat)
    requires AllDigits(u, base)
    requires base <= above && 1 <= above && |u| <= n && Pow(above, n) <= limit
    ensures Value(u, base) % U64 < limit
  {
    ValueBound(u, base);
    PowBase(base, above, |u|);
    PowGrows(above, |u|, n);
    Arithmetic.RoundDown(Value(u, base), U64);
  }

  /** A base mark can only be read in a string of digits if its letter is a digit: then the base is above 16 anyway. */
  lemma {:induction false} LeadBase(t: string, lead: Lead, base: nat)
    requires lead.start <= |t| && lead.base <= base
    requires forall i | 0 <= i < |t| :: IsDigit(t[i], base) && t[i] !in {'-', '$'}
    ensures ReadLead(t, lead).base <= base
    decreases |t| - lead.start
  {
    if lead.start + 1 < |t| && t[lead.start] == '0' && t[lead.start + 1] == 'x' {
      assert IsDigit(t[lead.start + 1], base);
      LeadBase(t, Lead(lead.start + 2, 16, lead.negative), base);
    }
  }

  lemma PrintedWhole(value: nat, base: nat)
    requires value < U32 && 2 <= base <= 36
    ensures Parse(Digits(value, base), base) == Outcome(value, 0)
  {
    DigitsAre(value, base);
    ValueDigits(value, base);
    ParseDigits(Digits(value, base), base, value);
  }

  lemma {:induction false} FitDigits(d: string, base: nat, maxsize: nat)
    requires 0 < maxsize <= |d| && forall i | 0 <= i < |d| :: IsDigit(d[i], base) && d[i] !in {'-', '$'}
    ensures var t := Fit(d, maxsize);
            |t| == maxsize - 1 && forall i | 0 <= i < |t| :: IsDigit(t[i], base) && t[i] !in {'-', '$'}
  {
  }

  lemma {:induction false} PrintedInPart(value: nat, base: nat, maxsize: nat, d: string)
    requires 0 < value && 2 <= base <= 36 && d == Digits(value, base) && 0 < maxsize <= |d|
    ensures Parse(Fit(d, maxsize), base).value < value
  {
    DigitsNeeded(value, base);
    PowGrows(base, maxsize - 1, |d| - 1);
    DigitsAre(value, base);
    FitDigits(d, base, maxsize);
    ParseBound(Fit(d, maxsize), base, maxsize - 1, value);
  }

  /** Reading what was printed gives the number back without an error if and only if there was room for all its digits
      and the terminator; zero survives even a buffer of one byte. */
  lemma {:induction false} AtoiItoa(value: nat, base: nat, maxsize: nat)
    requires value < U32 && 2 <= base <= 36 && maxsize > 0
    ensures Parse(Printed(value, base, maxsize), base) == Outcome(value, 0) <==>
            |Digits(value, base)| < maxsize || value == 0
  {
    var d := Digits(value, base);
    if |d| < maxsize {
      PrintedWhole(value, base);
    } else if value == 0 {
      PrintedNothing(base, maxsize);
    } else {
      PrintedInPart(value, base, maxsize, d);
    }
  }

  lemma {:induction false} PrintedNothing(base: nat, maxsize: nat)
    requires 2 <= base <= 36 && 0 < maxsize <= |Digits(0, base)|
    ensures Parse(Printed(0, base, maxsize), base) == Outcome(0, 0)
  {
    assert Printed(0, base, maxsize) == "";
    ParseDigits("", base, 0);
  }

  /** No minus sign is read in it either. */
  lemma PrintedNotNegative(value: nat, base: nat, maxsize: nat)
    requires 2 <= base <= 36 && maxsize > 0
    ensures !ReadLead(Printed(value, base, maxsize), Lead(0, base, false)).negative
  {
    DigitsAre(value, base);
    NeverNegative(Printed(value, base, maxsize), Lead(0, base, false));
  }

  lemma {:induction false} NeverNegative(t: string, lead: Lead)
    requires lead.start <= |t| && forall i | 0 <= i < |t| :: t[i] != '-'
    ensures ReadLead(t, lead).negative == lead.negative
    decreases |t| - lead.start
  {
    if lead.start < |t| {
      if t[lead.start] == '$' {
        NeverNegative(t, Lead(lead.start + 1, 16, lead.negative));
      } else if t[lead.start] == '0' && lead.start + 1 < |t| && t[lead.start + 1] == 'x' {
        NeverNegative(t, Lead(lead.start + 2, 16, lead.negative));
      }
    }
  }

  /** Eight hexadecimal digits are enough for 32 bits. */
  lemma HexWidth(value: nat)
    requires value < U32
    ensures |Digits(value, 16)| <= 8
  {
    assert Pow(16, 2) == 256 by {
      assert Pow(16, 1) == 16;
    }
    assert Pow(16, 4) == 0x1_0000 by {
      assert Pow(16, 3) == 256 * 16;
    }
    assert Pow(16, 6) == 0x100_0000 by {
      assert Pow(16, 5) == 0x1_0000 * 16;
    }
    assert Pow(16, 8) == U32 by {
      assert Pow(16, 7) == 0x100_0000 * 16;
    }
    DigitsLength(value, 16, 8);
  }

  /** Padding the hexadecimal output to eight places gives exactly eight places and the same number. */
  lemma PaddedHex(value: nat)
    requires value < U32
    ensures |Digits(value, 16)| <= 8
    ensures var t := Zeros(8 - |Digits(value, 16)|) + Digits(value, 16);
            && |t| == 8
            && ReadLead(t, Lead(0, 16, false)) == Lead(0, 16, false)
            && Parse(t, 16) == Outcome(value, 0)
  {
    HexWidth(value);
    NoHexMark(value);
    PaddedUnmarked(value, 16, 8 - |Digits(value, 16)|);
  }

  lemma NoHexMark(value: nat)
    ensures Digits(value, 16)[0] != 'x'
  {
    DigitsAre(value, 16);
  }

  lemma {:induction false} PaddedDigits(value: nat, base: nat, zeros: nat)
    requires 2 <= base <= 36
    ensures var t := Zeros(zeros) + Digits(value, base);
            forall i | 0 <= i < |t| :: IsDigit(t[i], base) && t[i] !in {NUL, '-', '$'}
  {
    var d := Digits(value, base);
    var t := Zeros(zeros) + d;
    DigitsAre(value, base);
    forall i | 0 <= i < |t| ensures IsDigit(t[i], base) && t[i] !in {NUL, '-', '$'} {
      if i >= zeros {
        assert t[i] == d[i - zeros];
      }
    }
  }

  /** Zeros in front leave the value unchanged if and only if they do not make the number look like it had a base mark,
      that is unless a single zero stands before a digit x. */
  lemma {:induction false} PaddedParses(value: nat, base: nat, zeros: nat)
    requires value < U32 && 2 <= base <= 36
    ensures Parse(Zeros(zeros) + Digits(value, base), base) == Outcome(value, 0) <==>
            !(zeros == 1 && Digits(value, base)[0] == 'x')
  {
    if zeros == 1 && Digits(value, base)[0] == 'x' {
      PaddedMarkMisread(value, base);
    } else {
      PaddedUnmarked(value, base, zeros);
    }
  }

  lemma {:induction false} PaddedUnmarked(value: nat, base: nat, zeros: nat)
    requires value < U32 && 2 <= base <= 36 && !(zeros == 1 && Digits(value, base)[0] == 'x')
    ensures var t := Zeros(zeros) + Digits(value, base);
            ReadLead(t, Lead(0, base, false)) == Lead(0, base, false) && Parse(t, base) == Outcome(value, 0)
  {
    var d := Digits(value, base);
    var t := Zeros(zeros) + d;
    ValueDigits(value, base);
    ValueZeros(d, zeros, base);
    PaddedDigits(value, base, zeros);
    NoMark(value, base, zeros);
    ParseDigits(t, base, value);
  }

  lemma {:induction false} NoMark(value: nat, base: nat, zeros: nat)
    requires 2 <= base <= 36 && !(zeros == 1 && Digits(value, base)[0] == 'x')
    ensures var t := Zeros(zeros) + Digits(value, base); |t| > 1 && t[0] == '0' ==> t[1] != 'x'
  {
    DigitsAre(value, base);
    assert zeros > 1 ==> (Zeros(zeros) + Digits(value, base))[1] == '0';
  }

  /** With the first digit taken for a part of the mark, what is left is too short. */
  lemma {:induction false} PaddedMarkMisread(value: nat, base: nat)
    requires 2 <= base <= 36 && Digits(value, base)[0] == 'x'
    ensures Parse(Zeros(1) + Digits(value, base), base).value < value
  {
    var d := Digits(value, base);
    var t := Zeros(1) + d;
    MarkRead(t, base);
    PaddedDigits(value, base, 1);
    StartsWithX(value, base);
    DigitsNeeded(value, base);
    ParseBound(t, base, |d| - 1, value);
  }

  lemma MarkRead(t: string, base: nat)
    requires |t| > 1 && t[0] == '0' && t[1] == 'x'
    ensures ReadLead(t, Lead(0, base, false)).start >= 2
  {
  }

  lemma StartsWithX(value: nat, base: nat)
    requires 2 <= base <= 36 && Digits(value, base)[0] == 'x'
    ensures value > 0
  {
    assert Digits(0, base) == "0";
  }

  /** For instance 33 in base 34 is printed as "x", padded to "0x" and read back as zero. */
  lemma PaddedMarkExample()
    ensures Digits(33, 34) == "x" && Parse("0x", 34) == Outcome(0, 0)
  {
    var lead := Lead(0, 34, false);
    assert ReadLead("0x", lead) == ReadLead("0x", Lead(2, 16, false)) == Lead(2, 16, false);
    assert LastBad("0x", 2, 2, 16) == 1;
    assert "0x"[2..] == [];
  }

  // ----- marks and digits -----

  /** In character codes: digits are printed as 0 to 9 and then a to z, and both cases of a letter are read alike. */
  lemma DigitCodes(d: nat)
    requires d < 36
    ensures DigitChar(d) as int == if d < 10 then 48 + d else 87 + d
    ensures d < 10 ==> CharValue((48 + d) as char) == d
    ensures d >= 10 ==> CharValue((87 + d) as char) == CharValue((55 + d) as char) == d
  {
  }

  predicate HexDigits(d: string) {
    d != [] && forall i | 0 <= i < |d| :: IsDigit(d[i], 16)
  }

  lemma HexLead(t: string, start: nat, negative: bool)
    requires start <= |t| && HexDigits(t[start..])
    ensures ReadLead(t, Lead(start, 16, negative)) == Lead(start, 16, negative)
  {
    assert t[start] == t[start..][0];
    if start + 1 < |t| {
      assert t[start + 1] == t[start..][1];
    }
  }

  /** "0x" and "$" in front of hexadecimal digits give their value, whatever base was asked for. */
  lemma {:induction false} MarkedHex(d: string, base: nat)
    requires HexDigits(d) && 2 <= base <= 36
    ensures Parse("0x" + d, base) == Outcome(Value(d, 16) % U64, 0)
    ensures Parse("$" + d, base) == Outcome(Value(d, 16) % U64, 0)
  {
    MarkedFrom("0x" + d, d, base, 2);
    MarkedFrom("$" + d, d, base, 1);
  }

  lemma {:induction false} MarkedFrom(t: string, d: string, base: nat, start: nat)
    requires HexDigits(d) && start <= |t| && t[start..] == d
    requires (start == 2 && t[..2] == "0x") || (start == 1 && t[..1] == "$")
    ensures Parse(t, base) == Outcome(Value(d, 16) % U64, 0)
  {
    assert t[0] == t[..start][0] && (start == 2 ==> t[1] == t[..start][1]);
    HexLead(t, start, false);
    assert ReadLead(t, Lead(0, base, false)) == Lead(start, 16, false);
    assert forall i | start <= i < |t| :: t[i] == d[i - start];
    assert LastBad(t, start, |t|, 16) == start - 1;
  }

  // ----- minus signs -----

  const I31: int := 0x8000_0000

  /** The result as a signed number. */
  function Signed(x: nat): int {
    if x < U64 / 2 then x else x - U64
  }

  lemma NegatedSigned(x: nat)
    requires x < U64 && -I31 < Signed(x) < I31
    ensures Negated(x) < U64 && Signed(Negated(x)) == -Signed(x)
  {
    if x < I31 {
      Arithmetic.DivUnique(x, U32, 0, x);
    } else {
      var y := U64 - x;
      Arithmetic.DivUnique(x, U32, U32 - 1, U32 - y);
    }
  }

  lemma AddSigned(x: nat, d: nat)
    requires x < U64 && -I31 < Signed(x) && Signed(x) + d < I31
    ensures Signed((x + d) % U64) == Signed(x) + d
  {
    if x < U64 / 2 || x + d < U64 {
      Arithmetic.DivUnique(x + d, U64, 0, x + d);
    } else {
      Arithmetic.DivUnique(x + d, U64, 1, x + d - U64);
    }
  }

  /** What the first digit contributes. */
  function Weight(u: string, base: nat): nat
    requires u != []
  {
    CharValue(u[0]) * Pow(base, |u| - 1)
  }

  lemma ValueWeight(u: string, base: nat)
    requires u != []
    ensures Value(u, base) == Weight(u, base) + Value(u[1..], base)
  {
    FrontValue(u, 0, base);
    assert u[0..] == u;
  }

  /** The digits with alternating signs, the first one negative. */
  function Alternating(u: string, base: nat): int {
    if u == [] then 0 else -(Weight(u, base) + Alternating(u[1..], base))
  }

  lemma {:induction false} AlternatingBound(u: string, base: nat)
    ensures -(Value(u, base) as int) <= Alternating(u, base) <= Value(u, base)
  {
    if u != [] {
      AlternatingBound(u[1..], base);
      ValueWeight(u, base);
    }
  }

  lemma SmallProduct(c: nat, p: nat, v: nat)
    requires c * p <= v < U64
    ensures c * (p % U64) == c * p
  {
    if c > 0 {
      assert p <= c * p;
      Arithmetic.DivUnique(p, U64, 0, p);
    }
  }

  /** One step of the loop. */
  lemma MinusStep(x: nat, w: nat, a: int)
    requires x < U64 && Signed(x) == a && -I31 < a && a + w < I31
    ensures var r := Negated((x + w) % U64); r < U64 && Signed(r) == -(w + a)
  {
    AddSigned(x, w);
    NegatedSigned((x + w) % U64);
  }

  lemma MinusValueStep(u: string, base: nat)
    requires u != [] && Weight(u, base) < U64
    ensures MinusValue(u, base) == Negated((MinusValue(u[1..], base) + Weight(u, base)) % U64)
  {
    SmallProduct(CharValue(u[0]), Pow(base, |u| - 1), Weight(u, base));
  }

  lemma {:induction false} MinusIsAlternating(u: string, base: nat)
    requires Value(u, base) < I31
    ensures MinusValue(u, base) < U64 && Signed(MinusValue(u, base)) == Alternating(u, base)
  {
    if u != [] {
      var rest := u[1..];
      ValueWeight(u, base);
      MinusIsAlternating(rest, base);
      AlternatingBound(rest, base);
      MinusStep(MinusValue(rest, base), Weight(u, base), Alternating(rest, base));
      MinusValueStep(u, base);
    }
  }

  /** The second, fourth, ... digit is zero. */
  predicate EverySecondZero(u: string) {
    forall i | 0 <= i < |u| && i % 2 == 1 :: CharValue(u[i]) == 0
  }

  lemma {:induction false} AlternatingIsMinus(u: string, base: nat)
    requires base > 0
    ensures Alternating(u, base) == -(Value(u, base) as int) <==> EverySecondZero(u)
    decreases |u|
  {
    if |u| == 1 {
      ValueWeight(u, base);
    } else if |u| > 1 {
      var rest := u[2..];
      ValueWeight(u, base);
      ValueWeight(u[1..], base);
      assert u[1..][1..] == rest;
      AlternatingIsMinus(rest, base);
      AlternatingBound(rest, base);
      PowGrows(base, 0, |u| - 2);
      PositiveProduct(CharValue(u[1]), Pow(base, |u| - 2));
      SecondZeros(u);
    }
  }

  lemma PositiveProduct(c: nat, p: nat)
    requires p > 0
    ensures c * p >= 0 && (c * p == 0 <==> c == 0)
  {
  }

  lemma SecondZeros(u: string)
    requires |u| > 1
    ensures EverySecondZero(u) <==> CharValue(u[1]) == 0 && EverySecondZero(u[2..])
  {
    if EverySecondZero(u) {
      forall i | 0 <= i < |u[2..]| && i % 2 == 1 ensures CharValue(u[2..][i]) == 0 {
        assert u[2..][i] == u[i + 2];
      }
    }
    if CharValue(u[1]) == 0 && EverySecondZero(u[2..]) {
      forall i | 0 <= i < |u| && i % 2 == 1 ensures CharValue(u[i]) == 0 {
        assert i > 1 ==> u[i] == u[2..][i - 2];
      }
    }
  }

  /** A minus sign in front of a printed number below 2 to the 31 is read right if and only if every second digit of the
      number is zero. */
  lemma MinusParses(value: nat, base: nat)
    requires value < I31 && 2 <= base <= 36
    ensures var r := Parse(['-'] + Digits(value, base), base);
            r.err == 0 && (Signed(r.value) == -(value as int) <==> EverySecondZero(Digits(value, base)))
  {
    var d := Digits(value, base);
    MinusLead(value, base);
    ValueDigits(value, base);
    MinusIsAlternating(d, base);
    AlternatingIsMinus(d, base);
  }

  lemma {:induction false} MinusLead(value: nat, base: nat)
    requires 2 <= base <= 36
    ensures Parse(['-'] + Digits(value, base), base) == Outcome(MinusValue(Digits(value, base), base), 0)
  {
    var d := Digits(value, base);
    var t := ['-'] + d;
    DigitsAre(value, base);
    assert t[1..] == d;
    assert forall i | 1 <= i < |t| :: t[i] == d[i - 1];
    assert ReadLead(t, Lead(0, base, false)) == ReadLead(t, Lead(1, base, true)) == Lead(1, base, true);
    assert LastBad(t, 1, |t|, base) == 0;
  }

  /** For instance minus twelve is read as minus eight. */
  lemma MinusTwelve()
    ensures Digits(12, 10) == "12" && Signed(Parse("-12", 10).value) == -8
  {
    MinusLead(12, 10);
    ValueDigits(12, 10);
    assert Digits(12, 10) == "12" && ['-'] + "12" == "-12";
    MinusIsAlternating("12", 10);
    assert "12"[1..] == "2" && "2"[1..] == [];
    assert Weight("2", 10) == 2 && Weight("12", 10) == 10;
  }

  /** An error at position zero cannot be told from success: it is reported as 0, which happens exactly when nothing
      stands in front of the number, the first character is bad and all others are digits. */
  lemma ErrorAtZero(t: string, base: nat)
    requires 2 <= base <= 36
    ensures var lead := ReadLead(t, Lead(0, base, false));
            (Parse(t, base).err == 0 && exists i :: lead.start <= i < |t| && !IsDigit(t[i], lead.base)) <==>
            (lead.start == 0 && t != [] && !IsDigit(t[0], lead.base) &&
             forall i | 1 <= i < |t| :: IsDigit(t[i], lead.base))
  {
  }

  /** For instance "!" is read as 0 without an error, as is every other single character that is not a digit. */
  lemma ErrorAtZeroExample(c: char, base: nat)
    requires 2 <= base <= 36 && !IsDigit(c, base) && c !in {'-', '$'}
    ensures Parse([c], base) == Outcome(0, 0)
  {
    NoLead([c], base);
    assert LastBad([c], 0, 1, base) == 0;
    assert [c][1..] == [];
  }
}
