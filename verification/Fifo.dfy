/** The ring buffer behind the serial ports. */
module Fifos {
  /** Pointers, flags and memory. The memory holds 2^addrw elements, so that addrw-bit pointers wrap
      around at its length. */
  datatype State<T> = State(regs: seq<T>, wPtr: nat, rPtr: nat, full: bool, empty: bool)

  datatype Request<T> = Request(rd: bool, wr: bool, wdata: T)

  function Power(n: nat): nat {
    if n == 0 then 1 else 2 * Power(n - 1)
  }

  /** 2 to the n: as many elements as n bits have values. */
  lemma {:induction false} PowerOfTwo(m: nat, n: nat)
    ensures Power(1) == 2 && Power(m + n) == Power(m) * Power(n)
    decreases m
  {
    if m > 0 {
      PowerOfTwo(m - 1, n);
      assert Power(m + n) == 2 * Power(m - 1 + n);
    }
  }

  function Inc(p: nat, size: nat): nat
    requires size > 0
  {
    (p + 1) % size
  }

  predicate InRange<T>(s: State<T>) {
    s.wPtr < |s.regs| && s.rPtr < |s.regs|
  }

  /** One clock. */
  function Next<T>(s: State<T>, q: Request<T>): (t: State<T>)
    requires InRange(s)
    ensures InRange(t) && |t.regs| == |s.regs|
    ensures Valid(s) ==> Valid(t)
  {
    NextInc(s);
    var n := |s.regs|;
    var c :=
      if q.rd && !q.wr && !s.empty then
        s.(rPtr := Inc(s.rPtr, n), full := false, empty := s.empty || Inc(s.rPtr, n) == s.wPtr)
      else if q.wr && !q.rd && !s.full then
        s.(wPtr := Inc(s.wPtr, n), empty := false, full := s.full || Inc(s.wPtr, n) == s.rPtr)
      else if q.wr && q.rd then
        s.(wPtr := Inc(s.wPtr, n), rPtr := Inc(s.rPtr, n))
      else s;
    if q.wr && !s.full then c.(regs := s.regs[s.wPtr := q.wdata]) else c
  }

  /* ---- The queue it stands for ---- */

  /** The pointers meet exactly when the buffer is full or empty, and it is never both. */
  ghost predicate Valid<T>(s: State<T>) {
    InRange(s) && !(s.full && s.empty) && (s.wPtr == s.rPtr <==> s.full || s.empty)
  }

  ghost function Size<T>(s: State<T>): nat
    requires Valid(s)
  {
    if s.full then |s.regs| else if s.wPtr >= s.rPtr then s.wPtr - s.rPtr else s.wPtr + |s.regs| - s.rPtr
  }

  /** The cell k places behind the front. */
  ghost function Slot<T>(s: State<T>, k: nat): nat
    requires InRange(s) && k <= |s.regs|
  {
    if s.rPtr + k < |s.regs| then s.rPtr + k else s.rPtr + k - |s.regs|
  }

  ghost function Contents<T>(s: State<T>): (q: seq<T>)
    requires Valid(s)
    ensures |q| == Size(s) <= |s.regs|
  {
    seq(Size(s), k requires 0 <= k < Size(s) => s.regs[Slot(s, k)])
  }

  /** A bounded queue. A read takes the front if there is one, then a write goes in if there is room. */
  ghost function QueueNext<T>(q: seq<T>, capacity: nat, r: Request<T>): seq<T> {
    var taken := if r.rd && |q| > 0 then q[1..] else q;
    if r.wr && |taken| < capacity then taken + [r.wdata] else taken
  }

  lemma NextInc<T>(s: State<T>)
    requires InRange(s)
    ensures Inc(s.rPtr, |s.regs|) == if s.rPtr + 1 < |s.regs| then s.rPtr + 1 else 0
    ensures Inc(s.wPtr, |s.regs|) == if s.wPtr + 1 < |s.regs| then s.wPtr + 1 else 0
  {
  }

  /** What the buffer really becomes, whatever is asked of it: reading and writing at once does
      nothing to an empty buffer, and puts the front of a full one back at its end. */
  lemma NextContents<T>(s: State<T>, r: Request<T>)
    requires Valid(s)
    ensures Contents(Next(s, r)) ==
            if r.rd && r.wr && s.empty then []
            else if r.rd && r.wr && s.full then Contents(s)[1..] + [Contents(s)[0]]
            else QueueNext(Contents(s), |s.regs|, r)
  {
    NextInc(s);
    hide Inc;
    var t, q := Next(s, r), Contents(s);
    if r.rd && r.wr {
      BothContents(s, r);
    } else if r.rd && !s.empty {
      assert Contents(t) == q[1..];
    } else if r.wr && !s.full {
      WriteContents(s, r);
    } else {
      assert t == s;
    }
  }

  lemma WriteContents<T>(s: State<T>, r: Request<T>)
    requires Valid(s) && r.wr && !r.rd && !s.full
    ensures Contents(Next(s, r)) == Contents(s) + [r.wdata]
  {
    NextInc(s);
    hide Inc;
    assert Contents(Next(s, r)) == Contents(s) + [r.wdata];
  }

  lemma BothContents<T>(s: State<T>, r: Request<T>)
    requires Valid(s) && r.wr && r.rd
    ensures Contents(Next(s, r)) ==
            if s.empty then [] else Contents(s)[1..] + [if s.full then Contents(s)[0] else r.wdata]
  {
    NextInc(s);
    hide Inc;
    var t, q := Next(s, r), Contents(s);
    if !s.empty {
      assert Contents(t) == q[1..] + [if s.full then q[0] else r.wdata];
    }
  }

  /** The clock refines the queue exactly when it is not asked to read and write at once while empty,
      or while full with anything but its own front. */
  lemma RefinesQueue<T>(s: State<T>, r: Request<T>)
    requires Valid(s)
    ensures Contents(Next(s, r)) == QueueNext(Contents(s), |s.regs|, r)
            <==> !(r.rd && r.wr && (s.empty || (s.full && r.wdata != Contents(s)[0])))
  {
    hide Contents, Next;
    NextContents(s, r);
    var q := Contents(s);
    if r.rd && r.wr && s.full {
      assert (q[1..] + [q[0]])[|q| - 1] == q[0];
      assert (q[1..] + [r.wdata])[|q| - 1] == r.wdata;
    }
  }

  lemma Flags<T>(s: State<T>)
    requires Valid(s)
    ensures s.empty <==> Contents(s) == []
    ensures s.full <==> |Contents(s)| == |s.regs|
    ensures !s.empty ==> s.regs[s.rPtr] == Contents(s)[0]
  {
  }

  /* ---- Runs ---- */

  function After<T>(s: State<T>, rs: seq<Request<T>>): State<T>
    requires InRange(s)
    ensures InRange(After(s, rs))
  {
    if |rs| == 0 then s else Next(After(s, rs[..|rs| - 1]), rs[|rs| - 1])
  }

  ghost function QueueAfter<T>(q: seq<T>, capacity: nat, rs: seq<Request<T>>): seq<T> {
    if |rs| == 0 then q else QueueNext(QueueAfter(q, capacity, rs[..|rs| - 1]), capacity, rs[|rs| - 1])
  }

  /** Nowhere in the run are a read and a write asked for at once while the buffer is empty or full. */
  ghost predicate Gentle<T>(s: State<T>, rs: seq<Request<T>>)
    requires InRange(s)
  {
    |rs| == 0
    || (var t, r := After(s, rs[..|rs| - 1]), rs[|rs| - 1];
        Gentle(s, rs[..|rs| - 1]) && (r.rd && r.wr ==> !t.empty && !t.full))
  }

  function Reset<T>(regs: seq<T>): State<T> {
    State(regs, 0, 0, false, true)
  }

  /** On every run the pointers meet exactly when the buffer is full or empty; on every gentle run from
      reset the buffer is a bounded queue of the size of its memory, flags included. */
  lemma {:induction false} RunRefinesQueue<T>(regs: seq<T>, rs: seq<Request<T>>)
    requires |regs| > 0
    ensures var t := After(Reset(regs), rs); Valid(t) && |t.regs| == |regs|
    ensures Gentle(Reset(regs), rs) ==>
              var t := After(Reset(regs), rs);
              Contents(t) == QueueAfter([], |regs|, rs)
              && (t.empty <==> QueueAfter([], |regs|, rs) == [])
              && (t.full <==> |QueueAfter([], |regs|, rs)| == |regs|)
  {
    hide Contents, QueueNext, Next;
    var s := Reset(regs);
    if |rs| == 0 {
      Flags(s);
    } else {
      var n := |rs| - 1;
      RunRefinesQueue(regs, rs[..n]);
      NextContents(After(s, rs[..n]), rs[n]);
      RefinesQueue(After(s, rs[..n]), rs[n]);
      Flags(After(s, rs));
    }
  }

  /* ---- The module ---- */

  class Fifo<T> {
    var regs: array<T>
    var wPtr: nat
    var rPtr: nat
    var full: bool
    var empty: bool

    function Now(): State<T>
      reads this, regs
    {
      State(regs[..], wPtr, rPtr, full, empty)
    }

    constructor (addrw: nat, x: T)
      requires addrw >= 1
      ensures fresh(regs) && regs.Length == Power(addrw) && regs.Length > 0
      ensures Now() == Reset(regs[..]) && Valid(Now())
    {
      PowerPositive(addrw);
      regs := new T[Power(addrw)](_ => x);
      wPtr, rPtr, full, empty := 0, 0, false, true;
    }

    /** The element at the read pointer. */
    function Rdata(): T
      requires InRange(Now())
      reads this, regs
    {
      regs[rPtr]
    }

    method Clock(rd: bool, wr: bool, wdata: T)
      requires Valid(Now())
      modifies this`wPtr, this`rPtr, this`full, this`empty, regs
      ensures Valid(Now()) && Now() == Next(old(Now()), Request(rd, wr, wdata))
    {
      hide Inc, Valid;
      ghost var s := Now();
      ValidParts(s);
      var size, waddr, wen := regs.Length, wPtr, wr && !full;
      if rd && !wr {
        if !empty {
          if Inc(rPtr, size) == wPtr { empty := true; }
          rPtr := Inc(rPtr, size);
          full := false;
        }
      } else if wr && !rd {
        if !full {
          if Inc(wPtr, size) == rPtr { full := true; }
          wPtr := Inc(wPtr, size);
          empty := false;
        }
      } else if wr && rd {
        wPtr := Inc(wPtr, size);
        rPtr := Inc(rPtr, size);
      }
      if wen { regs[waddr] := wdata; }
      assert regs[..] == if wen then s.regs[waddr := wdata] else s.regs;
      assert Now() == Next(s, Request(rd, wr, wdata));
    }
  }

  lemma ValidParts<T>(s: State<T>)
    requires Valid(s)
    ensures InRange(s)
  {
  }

  lemma PowerPositive(n: nat)
    ensures Power(n) > 0
  {
  }
}
