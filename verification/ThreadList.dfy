/**
  The thread table under the debug protocol: what finding, adding and removing a thread mean on a sequence, and the
  growing array that implements it.
 */
module ThreadList {

  /** A debug event: the stop signal of a thread, or a negative number for an event the server made up. `stop` numbers
      the stop the event is about, and is negative for a made-up event; no command ever looks at it. */
  datatype Event = Event(tid: int, sig: int, stop: int)

  const NO_EVENT := Event(0, 0, -1)

  datatype Thread = Thread(tid: int, isPaused: bool, suspendCount: int, suspended: Event)

  /** The index of the first entry with an id, or -1. */
  function FindFirst<T>(s: seq<T>, id: T -> int, wanted: int): (i: int)
    ensures -1 <= i < |s|
    ensures i >= 0 ==> id(s[i]) == wanted
    ensures forall j | 0 <= j < (if i < 0 then |s| else i) :: id(s[j]) != wanted
  {
    if s == [] then -1
    else if id(s[0]) == wanted then 0
    else
      var i := FindFirst(s[1..], id, wanted);
      if i < 0 then -1 else i + 1
  }

  /** The index of the first thread with an id, or -1. */
  function Find(threads: seq<Thread>, tid: int): (i: int)
    ensures -1 <= i < |threads|
    ensures i >= 0 ==> threads[i].tid == tid
    ensures forall j | 0 <= j < (if i < 0 then |threads| else i) :: threads[j].tid != tid
  {
    FindFirst(threads, (t: Thread) => t.tid, tid)
  }

  function Remove(threads: seq<Thread>, tid: int): seq<Thread> {
    var i := Find(threads, tid);
    if i < 0 then threads else threads[..i] + threads[i + 1..]
  }

  predicate Distinct(threads: seq<Thread>) {
    forall i, j | 0 <= i < j < |threads| :: threads[i].tid != threads[j].tid
  }

  lemma {:induction false} FindIs(threads: seq<Thread>, i: nat)
    requires i < |threads| && Distinct(threads)
    ensures Find(threads, threads[i].tid) == i
  {
  }

  lemma {:induction false} FindSame(a: seq<Thread>, b: seq<Thread>, tid: int)
    requires |a| == |b| && forall i | 0 <= i < |a| :: a[i].tid == b[i].tid
    ensures Find(a, tid) == Find(b, tid)
  {
  }

  /** Removing one thread keeps the others, in order, and nothing else is found differently. */
  lemma {:induction false} RemoveKeepsOthers(threads: seq<Thread>, tid: int, other: int)
    requires Distinct(threads)
    ensures Distinct(Remove(threads, tid)) && Find(Remove(threads, tid), tid) < 0
    ensures other != tid ==>
              var before, after := Find(threads, other), Find(Remove(threads, tid), other);
              (before < 0 <==> after < 0) && (before >= 0 ==> Remove(threads, tid)[after] == threads[before])
  {
    RemoveDistinct(threads, tid);
    RemovedNotFound(threads, tid);
    if other != tid {
      OtherFound(threads, tid, other);
    }
  }

  /** Where the entries of the shorter list come from. */
  lemma {:induction false} RemoveAt(threads: seq<Thread>, tid: int, k: nat)
    requires k < |Remove(threads, tid)|
    ensures var i := Find(threads, tid);
            var j := if i < 0 || k < i then k else k + 1;
            j < |threads| && j != i && Remove(threads, tid)[k] == threads[j]
  {
  }

  lemma {:induction false} RemoveDistinct(threads: seq<Thread>, tid: int)
    requires Distinct(threads)
    ensures Distinct(Remove(threads, tid))
  {
    var rest := Remove(threads, tid);
    forall j, k | 0 <= j < k < |rest| ensures rest[j].tid != rest[k].tid {
      RemoveAt(threads, tid, j);
      RemoveAt(threads, tid, k);
    }
  }

  lemma {:induction false} RemovedNotFound(threads: seq<Thread>, tid: int)
    requires Distinct(threads)
    ensures Find(Remove(threads, tid), tid) < 0
  {
    var k := Find(Remove(threads, tid), tid);
    if k >= 0 {
      RemoveAt(threads, tid, k);
    }
  }

  lemma {:induction false} OtherFound(threads: seq<Thread>, tid: int, other: int)
    requires Distinct(threads) && other != tid
    ensures var before, after := Find(threads, other), Find(Remove(threads, tid), other);
            (before < 0 <==> after < 0) && (before >= 0 ==> Remove(threads, tid)[after] == threads[before])
  {
    var i, k := Find(threads, tid), Find(threads, other);
    var rest := Remove(threads, tid);
    if k >= 0 {
      var k' := if i < 0 || k < i then k else k - 1;
      assert rest[k'] == threads[k];
      RemoveDistinct(threads, tid);
      FindIs(rest, k');
    } else {
      var k' := Find(rest, other);
      if k' >= 0 {
        RemoveAt(threads, tid, k');
      }
    }
  }

  class ThreadTable {
    var threadlist: array<Thread>
    var threadlistpos: nat

    ghost predicate Valid()
      reads this
    {
      threadlistpos <= threadlist.Length && threadlist.Length > 0
    }

    ghost function Contents(): seq<Thread>
      reads this, threadlist
      requires Valid()
    {
      threadlist[..threadlistpos]
    }

    constructor ()
      ensures Valid() && fresh(threadlist) && Contents() == []
    {
      var unused := Thread(0, false, 0, NO_EVENT);
      threadlist := new Thread[64](_ => unused);
      threadlistpos := 0;
    }

    method AddThreadToProcess(threaddata: Thread)
      requires Valid()
      modifies this, threadlist
      ensures Valid() && (threadlist == old(threadlist) || fresh(threadlist))
      ensures Contents() == old(Contents()) + [threaddata]
    {
      if threadlistpos == threadlist.Length {
        var bigger := new Thread[threadlist.Length * 2](_ => threaddata);
        forall i | 0 <= i < threadlistpos {
          bigger[i] := threadlist[i];
        }
        threadlist := bigger;
      }
      threadlist[threadlistpos] := threaddata;
      threadlistpos := threadlistpos + 1;
    }

    /** A write through the pointer that GetThreadData returns. */
    method Update(index: nat, threaddata: Thread)
      requires Valid() && index < threadlistpos
      modifies threadlist
      ensures Contents() == old(Contents())[index := threaddata]
    {
      threadlist[index] := threaddata;
    }

    method GetThreadData(tid: int) returns (index: int)
      requires Valid()
      ensures index == Find(Contents(), tid)
    {
      ghost var threads := Contents();
      index := 0;
      while index < threadlistpos
        invariant 0 <= index <= threadlistpos
        invariant forall j | 0 <= j < index :: threads[j].tid != tid
      {
        if threadlist[index].tid == tid {
          return;
        }
        index := index + 1;
      }
      index := -1;
    }

    method RemoveThreadFromProcess(tid: int) returns (found: bool)
      requires Valid()
      modifies this`threadlistpos, threadlist
      ensures Valid() && found == (Find(old(Contents()), tid) >= 0)
      ensures Contents() == Remove(old(Contents()), tid)
    {
      ghost var threads := Contents();
      var i := GetThreadData(tid);
      if i < 0 {
        return false;
      }
      CloseGap(threadlist, i, threadlistpos);
      GapClosed(threads, i, threadlist[..threadlistpos - 1]);
      threadlistpos := threadlistpos - 1;
      return true;
    }
  }

  lemma GapClosed(threads: seq<Thread>, i: nat, rest: seq<Thread>)
    requires i < |threads| && |rest| == |threads| - 1
    requires forall k | 0 <= k < i :: rest[k] == threads[k]
    requires forall k | i <= k < |rest| :: rest[k] == threads[k + 1]
    ensures rest == threads[..i] + threads[i + 1..]
  {
  }

  /** Moves the entries after position i of the first n one place down. */
  method CloseGap(a: array<Thread>, i: nat, n: nat)
    requires i < n <= a.Length
    modifies a
    ensures forall k | 0 <= k < i :: a[k] == old(a[k])
    ensures forall k | i <= k < n - 1 :: a[k] == old(a[k + 1])
  {
    var j := i;
    while j < n - 1
      invariant i <= j <= n - 1
      invariant forall k | 0 <= k < i || j <= k < n :: a[k] == old(a[k])
      invariant forall k | i <= k < j :: a[k] == old(a[k + 1])
    {
      a[j] := a[j + 1];
      j := j + 1;
    }
  }
}
