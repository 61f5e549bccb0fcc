/** The serial block at work: what it puts on the line, when, and what another block makes of it. */
module Delivery {
  import opened Serial
  import opened UartBlocks
  import Drift
  import Fifos
  import Reports

  /** The block after the first n clocks of a run. */
  ghost function Now(u: State, ps: seq<Pins>, n: nat): (w: State)
    requires InRange(u) && n <= |ps|
    ensures InRange(w)
  {
    After(u, ps[..n])
  }

  lemma OneClock(u: State, ps: seq<Pins>, n: nat)
    requires InRange(u) && n < |ps|
    ensures Now(u, ps, n + 1) == Next(Now(u, ps, n), ps[n]) && Now(u, ps, 0) == u
  {
    hide Next;
    assert ps[..n + 1][..n] == ps[..n];
  }

  ghost function History(u: State, ps: seq<Pins>, n: nat): Sending
    requires InRange(u) && n <= |ps|
  {
    SendingAfter(u, ps[..n])
  }

  lemma OneClockOfHistory(u: State, ps: seq<Pins>, n: nat)
    requires InRange(u) && n < |ps|
    ensures History(u, ps, n + 1) == SendingNext(History(u, ps, n), Now(u, ps, n), ps[n])
    ensures History(u, ps, 0) == Sending([], [], u.tx.data)
  {
    hide SendingNext, Next;
    assert ps[..n + 1][..n] == ps[..n];
  }

  /** The divisor stays the same, and the counter is inside its period. */
  ghost predicate Fixed(u: State, ps: seq<Pins>, d: Divisor) {
    1 <= d && u.baud <= d && forall i :: 0 <= i < |ps| ==> ps[i].dvsr == d
  }

  lemma {:induction false} BaudRuns(u: State, ps: seq<Pins>, d: Divisor, n: nat)
    requires InRange(u) && Fixed(u, ps, d) && n <= |ps|
    ensures Now(u, ps, n).baud <= d
  {
    hide Now, TxNext, RxNext, Fifos.Next;
    if n > 0 {
      BaudRuns(u, ps, d, n - 1);
      OneClock(u, ps, n - 1);
      WaitStep(Now(u, ps, n - 1).baud, d);
    } else if |ps| > 0 {
      OneClock(u, ps, 0);
    } else {
      assert Now(u, ps, 0) == u by { Unclocked(u, ps); }
    }
  }

  lemma Unclocked(u: State, ps: seq<Pins>)
    requires InRange(u)
    ensures Now(u, ps, 0) == u
  {
  }

  /* ---- The frame a transmitter sends ---- */

  /** What the transmitter is offered at a clock; only an idle one looks. */
  function OfferOf(w: State): Offer
    requires InRange(w)
  {
    Offer(w.tx.state.Idle? && !w.txFifo.empty, Front(w.txFifo))
  }

  ghost function OfferAt(u: State, ps: seq<Pins>, m: nat): Offer
    requires InRange(u)
  {
    if m + 1 < |ps| then OfferOf(Now(u, ps, m + 1)) else Offer(false, u.tx.data)
  }

  /** The frame that starts with the byte loaded at the first clock, on a line to some receiver. */
  ghost function FrameOf(u: State, ps: seq<Pins>, d: Divisor, rxDvsr: Divisor, rxCount: Divisor, rx: RxState): Frame
    requires InRange(u) && |ps| > 0
  {
    Frame(d, rxDvsr, Link(Now(u, ps, 1).baud, Now(u, ps, 1).tx, rxCount, rx), (m: nat) => OfferAt(u, ps, m))
  }

  lemma TxLooksWhenIdle(w: State)
    requires InRange(w)
    ensures TxNext(w.tx, Tick(w.baud), !w.txFifo.empty, Front(w.txFifo))
            == TxNext(w.tx, Tick(w.baud), OfferOf(w).start, OfferOf(w).bits)
  {
  }

  /** The block's transmitter is the transmitter of that frame. */
  lemma {:induction false} TxRuns(u: State, ps: seq<Pins>, d: Divisor, f: Frame, n: nat)
    requires InRange(u) && Fixed(u, ps, d) && n < |ps|
    requires f == FrameOf(u, ps, d, f.rxDvsr, f.first.rxCount, f.first.rx)
    ensures At(f, n).tx == Now(u, ps, n + 1).tx && At(f, n).txCount == Now(u, ps, n + 1).baud
  {
    hide Now, TxNext, RxNext, BaudNext, Fifos.Next, OfferOf;
    if n > 0 {
      TxRuns(u, ps, d, f, n - 1);
      OneClock(u, ps, n);
      TxLooksWhenIdle(Now(u, ps, n));
      assert f.offers(n - 1) == OfferOf(Now(u, ps, n));
    }
  }

  /** An idle transmitter with a byte waiting loads it. */
  ghost predicate Loads(u: State, ps: seq<Pins>, d: Divisor) {
    InRange(u) && Fixed(u, ps, d) && |ps| > 0 && u.tx.state.Idle? && !u.txFifo.empty
  }

  lemma LoadsFront(u: State, ps: seq<Pins>, d: Divisor)
    requires Loads(u, ps, d)
    ensures var w := Now(u, ps, 1);
            w.tx.state.Start? && w.tx.tickC == 0 && w.tx.line && w.tx.data == Front(u.txFifo) && w.baud <= d
    ensures Now(u, ps, 1).rx == RxNext(u.rx, Tick(u.baud), ps[0].serial)
  {
    hide Now, RxNext, Fifos.Next;
    OneClock(u, ps, 0);
    BaudRuns(u, ps, d, 1);
  }

  /** Clocks from the load to the last tick of the frame. */
  ghost function FrameTime(u: State, ps: seq<Pins>, d: Divisor): int
    requires Loads(u, ps, d)
  {
    Wait(Now(u, ps, 1).baud, d) + Times(159, d + 1)
  }

  /** From a clock at which the transmitter is idle and a byte is waiting, the byte goes out: its levels
      are on the line tick by tick, and it is done at the last tick and not before. */
  lemma FrameOnLine(u: State, ps: seq<Pins>, d: Divisor, n: nat)
    requires Loads(u, ps, d) && n <= FrameTime(u, ps, d) && n < |ps|
    ensures Sent(Now(u, ps, n + 1)) <==> n == FrameTime(u, ps, d)
    ensures !Now(u, ps, n + 1).tx.state.Idle?
    ensures n > 0 ==> Now(u, ps, n + 1).tx.line == Level(Front(u.txFifo), Ticks(Now(u, ps, 1).baud, d, n - 1))
  {
    hide Now, Times, TxDone, Level, Ticks, Wait, OfferAt;
    LoadsFront(u, ps, d);
    var f := FrameOf(u, ps, d, 1, 0, RxState(Idle, u.tx.data, 0, 0));
    TxRuns(u, ps, d, f, n);
    TxEnds(f, n);
    TicksBetween(f.first.txCount, d, n, 159);
    TxTrajectory(f, n);
    BusyInFrame(At(f, n).tx, f.first.tx.data, Ticks(f.first.txCount, d, n));
  }

  lemma BusyInFrame(s: TxState, byte: Byte, j: nat)
    requires j < 160 && TxIs(s, byte, Least(j, 160))
    ensures !s.state.Idle?
  {
  }

  lemma {:induction false} Underway(u: State, ps: seq<Pins>, d: Divisor, n: nat)
    requires Loads(u, ps, d) && n <= FrameTime(u, ps, d) && n < |ps|
    ensures History(u, ps, n + 1).completed == [] && History(u, ps, n + 1).loaded == Front(u.txFifo)
  {
    hide Now, History, Times, Wait;
    OneClockOfHistory(u, ps, n);
    if n > 0 {
      Underway(u, ps, d, n - 1);
      FrameOnLine(u, ps, d, n - 1);
    } else {
      OneClock(u, ps, 0);
    }
  }

  /** ... and with that the transmitter is idle again, with this byte completed and no other. */
  lemma FrameSent(u: State, ps: seq<Pins>, d: Divisor)
    requires Loads(u, ps, d) && FrameTime(u, ps, d) + 2 <= |ps|
    ensures FrameTime(u, ps, d) >= 0
    ensures var n := FrameTime(u, ps, d) + 2;
            History(u, ps, n).completed == [Front(u.txFifo)] && Now(u, ps, n).tx.state.Idle?
  {
    hide Now, History, TxNext, RxNext, Fifos.Next, BaudNext;
    BaudRuns(u, ps, d, 1);
    var n: nat := FrameTime(u, ps, d);
    FrameOnLine(u, ps, d, n);
    Underway(u, ps, d, n);
    OneClock(u, ps, n + 1);
    OneClockOfHistory(u, ps, n + 1);
    IdleAfterSent(Now(u, ps, n + 1), ps[n + 1]);
  }

  lemma IdleAfterSent(w: State, p: Pins)
    requires InRange(w) && Sent(w)
    ensures Next(w, p).tx.state.Idle?
  {
    hide Fifos.Next, RxNext, BaudNext;
  }

  /* ---- Every byte written leaves ---- */

  /** Clocks a busy transmitter still needs, not counting the one that reports the byte sent. */
  function Left(w: State, d: Divisor): int {
    Wait(w.baud, d) + Times(159 - Progress(w.tx), d + 1)
  }

  lemma LeftStep(w: State, p: Pins, d: Divisor)
    requires InRange(w) && !w.tx.state.Idle? && 1 <= d && w.baud <= d && p.dvsr == d
    ensures Left(w, d) >= 0 && (Sent(w) <==> Left(w, d) == 0)
    ensures if Sent(w) then Next(w, p).tx.state.Idle?
            else !Next(w, p).tx.state.Idle? && Left(Next(w, p), d) == Left(w, d) - 1
  {
    hide Times, Wait, Fifos.Next, RxNext;
    var j := Progress(w.tx);
    WaitStep(w.baud, d);
    TimesStep(0, d + 1);
    TimesOrder(0, 159 - j, d + 1);
    if j < 159 { TimesStep(158 - j, d + 1); }
  }

  /** No frame takes longer, its load included. */
  function Longest(d: Divisor): int {
    Times(160, d + 1) + 1
  }

  lemma LeftAtMost(w: State, d: Divisor)
    requires InRange(w) && !w.tx.state.Idle? && 1 <= d && w.baud <= d
    ensures 0 <= Left(w, d) <= Longest(d) - 2
  {
    hide Times, Wait;
    LeftStep(w, Pins(d, false, false, w.tx.data, true), d);
    WaitStep(w.baud, d);
    TimesStep(159, d + 1);
    TimesOrder(159 - Progress(w.tx), 159, d + 1);
  }

  /** A byte on its way out gets there. */
  lemma {:induction false} Completes(u: State, ps: seq<Pins>, d: Divisor, t: nat) returns (m: nat)
    requires InRange(u) && Fixed(u, ps, d) && t <= |ps| && !Now(u, ps, t).tx.state.Idle?
    requires t + Left(Now(u, ps, t), d) + 1 <= |ps|
    ensures m == t + Left(Now(u, ps, t), d) + 1 && m > t && Now(u, ps, m).tx.state.Idle?
    ensures |History(u, ps, m).completed| == |History(u, ps, t).completed| + 1
    decreases |ps| - t
  {
    hide Now, History, Left, Next, Sent, Fixed;
    var w := Now(u, ps, t);
    InPeriod(u, ps, d, t);
    LeftAtMost(w, d);
    LeftStep(w, ps[t], d) by { FixedAt(u, ps, d, t); }
    OneClock(u, ps, t);
    OneClockOfHistory(u, ps, t);
    if Sent(w) {
      m := t + 1;
    } else {
      m := Completes(u, ps, d, t + 1);
    }
  }

  lemma InPeriod(u: State, ps: seq<Pins>, d: Divisor, t: nat)
    requires InRange(u) && Fixed(u, ps, d) && t <= |ps|
    ensures 1 <= d && Now(u, ps, t).baud <= d
  {
    BaudRuns(u, ps, d, t);
  }

  lemma FixedAt(u: State, ps: seq<Pins>, d: Divisor, t: nat)
    requires Fixed(u, ps, d) && t < |ps|
    ensures ps[t].dvsr == d
  {
  }

  lemma LoadedNow(w: State, p: Pins)
    requires InRange(w) && w.tx.state.Idle? && !w.txFifo.empty
    ensures !Next(w, p).tx.state.Idle? && !Sent(w)
  {
    hide Fifos.Next, RxNext, BaudNext;
  }

  /** A byte waiting or on its way is completed within the time of one frame. */
  lemma NextCompletes(u: State, ps: seq<Pins>, d: Divisor, t: nat) returns (m: nat)
    requires InRange(u) && Fixed(u, ps, d) && t + Longest(d) <= |ps| && t <= |ps|
    requires Now(u, ps, t).tx.state.Idle? ==> !Now(u, ps, t).txFifo.empty
    ensures t < m <= t + Longest(d) && Now(u, ps, m).tx.state.Idle?
    ensures |History(u, ps, m).completed| == |History(u, ps, t).completed| + 1
  {
    hide Now, History, Left, Next, Sent, Fixed, Times;
    var w := Now(u, ps, t);
    TimesStep(0, d + 1);
    InPeriod(u, ps, d, t);
    TimesOrder(0, 160, d + 1);
    if w.tx.state.Idle? {
      OneClock(u, ps, t);
      OneClockOfHistory(u, ps, t);
      LoadedNow(w, ps[t]);
      InPeriod(u, ps, d, t + 1);
      LeftAtMost(Now(u, ps, t + 1), d);
      m := Completes(u, ps, d, t + 1);
    } else {
      LeftAtMost(w, d);
      m := Completes(u, ps, d, t);
    }
  }

  /** From reset, with writes only while there is room. */
  ghost predicate Orderly(u: State, ps: seq<Pins>)
    requires InRange(u)
  {
    u.tx.state.Idle? && u.txFifo == Fifos.Reset(u.txFifo.regs) && WritesWithRoom(u, ps)
  }

  lemma {:induction false} OrderlySoFar(u: State, ps: seq<Pins>, n: nat)
    requires InRange(u) && Orderly(u, ps) && n <= |ps|
    ensures Orderly(u, ps[..n])
    decreases |ps|
  {
    hide After;
    if n < |ps| {
      OrderlySoFar(u, ps[..|ps| - 1], n);
      assert ps[..|ps| - 1][..n] == ps[..n];
    } else {
      assert ps[..n] == ps;
    }
  }

  lemma InOrderAt(u: State, ps: seq<Pins>, n: nat)
    requires InRange(u) && Orderly(u, ps) && n <= |ps|
    ensures InOrder(History(u, ps, n), Now(u, ps, n))
  {
    hide InOrder;
    OrderlySoFar(u, ps, n);
    TransmitOrder(u, ps[..n]);
  }

  lemma {:induction false} WrittenGrows(u: State, ps: seq<Pins>, t: nat, n: nat)
    requires InRange(u) && t <= n <= |ps|
    ensures History(u, ps, t).written <= History(u, ps, n).written
    decreases n - t
  {
    hide Now, History;
    if t < n {
      WrittenGrows(u, ps, t, n - 1);
      OneClockOfHistory(u, ps, n - 1);
    }
  }

  lemma StillWaiting(h: Sending, w: State, k: nat)
    requires InRange(w) && InOrder(h, w) && |h.completed| < k <= |h.written|
    ensures !w.txFifo.empty
  {
    Fifos.Flags(w.txFifo);
  }

  /** Every byte written is sent, in order and in time: the first k bytes written by clock t have all been
      completed when each of those still missing has had the time of one frame. */
  lemma {:induction false} EveryByteLeaves(u: State, ps: seq<Pins>, d: Divisor, t: nat, k: nat) returns (m: nat)
    requires InRange(u) && Orderly(u, ps) && Fixed(u, ps, d) && t <= |ps| && k <= |History(u, ps, t).written|
    requires var missing := k - |History(u, ps, t).completed|;
             missing > 0 ==> t + Times(missing, Longest(d)) <= |ps|
    ensures t <= m <= |ps|
    ensures var missing := k - |History(u, ps, t).completed|;
            if missing > 0 then m <= t + Times(missing, Longest(d)) else m == t
    ensures |History(u, ps, m).completed| >= k
    ensures History(u, ps, m).completed[..k] == History(u, ps, t).written[..k]
    decreases k - |History(u, ps, t).completed|
  {
    hide Now, History, Orderly, Fixed, InOrder, Times, Longest;
    InOrderAt(u, ps, t);
    var h := History(u, ps, t);
    var missing := k - |h.completed|;
    if missing <= 0 {
      m := t;
      CompletedFirst(h, Now(u, ps, t), k);
    } else {
      StillWaiting(h, Now(u, ps, t), k);
      LongestAtLeast(d);
      TimesStep(missing - 1, Longest(d));
      TimesStep(0, Longest(d));
      TimesOrder(1, missing, Longest(d));
      TimesOrder(0, missing - 1, Longest(d));
      var n := NextCompletes(u, ps, d, t);
      WrittenGrows(u, ps, t, n);
      m := EveryByteLeaves(u, ps, d, n, k);
      assert h.written[..k] == History(u, ps, n).written[..k];
    }
  }

  lemma LongestAtLeast(d: Divisor)
    ensures Longest(d) >= 161
  {
  }

  lemma CompletedFirst(h: Sending, w: State, k: nat)
    requires InRange(w) && InOrder(h, w) && k <= |h.completed|
    ensures k <= |h.written| && h.completed[..k] == h.written[..k]
  {
  }

  /* ---- Two blocks on a line ---- */

  /** The line of the first block is the serial input of the second. */
  ghost predicate Wired(u: State, ps: seq<Pins>, qs: seq<Pins>)
    requires InRange(u) && |ps| == |qs|
  {
    forall i :: 0 <= i < |ps| ==> qs[i].serial == Now(u, ps, i).tx.line
  }

  /** The sender is about to load a byte, with the line high; the receiver is idle. */
  ghost predicate Connected(u: State, ps: seq<Pins>, du: Divisor, v: State, qs: seq<Pins>, dv: Divisor) {
    Loads(u, ps, du) && u.tx.line && InRange(v) && Fixed(v, qs, dv) && v.rx.state.Idle?
    && |ps| == |qs| && Wired(u, ps, qs)
  }

  /** The frame between them. */
  ghost function FrameBetween(u: State, ps: seq<Pins>, du: Divisor, v: State, qs: seq<Pins>, dv: Divisor): Frame
    requires Connected(u, ps, du, v, qs, dv)
  {
    FrameOf(u, ps, du, dv, Now(v, qs, 1).baud, Now(v, qs, 1).rx)
  }

  lemma FreshBetween(u: State, ps: seq<Pins>, du: Divisor, v: State, qs: seq<Pins>, dv: Divisor)
    requires Connected(u, ps, du, v, qs, dv)
    ensures var f := FrameBetween(u, ps, du, v, qs, dv);
            Fresh(f) && f.first.tx.data == Front(u.txFifo) && f.first.rx == v.rx
  {
    hide Now, TxNext, Fifos.Next, OfferAt;
    LoadsFront(u, ps, du);
    OneClock(v, qs, 0);
    OneClock(u, ps, 0);
    BaudRuns(v, qs, dv, 1);
  }

  /** The two blocks are the two ends of that frame. */
  lemma {:induction false} RunBetween(u: State, ps: seq<Pins>, du: Divisor, v: State, qs: seq<Pins>, dv: Divisor,
      n: nat)
    requires Connected(u, ps, du, v, qs, dv) && n < |ps|
    ensures var s, r := Now(u, ps, n + 1), Now(v, qs, n + 1);
            At(FrameBetween(u, ps, du, v, qs, dv), n) == Link(s.baud, s.tx, r.baud, r.rx)
  {
    hide Now, TxNext, RxNext, BaudNext, Fifos.Next, OfferAt;
    TxRuns(u, ps, du, FrameBetween(u, ps, du, v, qs, dv), n);
    if n > 0 {
      RunBetween(u, ps, du, v, qs, dv, n - 1);
      OneClock(v, qs, n);
    }
  }

  ghost function Reported(v: State, qs: seq<Pins>, n: nat): seq<Byte>
    requires InRange(v) && n <= |qs|
  {
    ReceivingAfter(v, qs[..n]).reported
  }

  lemma OneClockOfReports(v: State, qs: seq<Pins>, n: nat)
    requires InRange(v) && n < |qs|
    ensures Reported(v, qs, n + 1) ==
            if Received(Now(v, qs, n)) then Reported(v, qs, n) + [Now(v, qs, n).rx.data] else Reported(v, qs, n)
    ensures Reported(v, qs, 0) == []
  {
    hide Next;
    assert qs[..n + 1][..n] == qs[..n];
  }

  /** What the second block reports is what is reported of that frame. */
  lemma {:induction false} ReportedBetween(u: State, ps: seq<Pins>, du: Divisor, v: State, qs: seq<Pins>, dv: Divisor,
      n: nat)
    requires Connected(u, ps, du, v, qs, dv) && n < |ps|
    ensures Reported(v, qs, n + 1) == Reports.Reported(FrameBetween(u, ps, du, v, qs, dv), n)
  {
    hide Now, Reported, TxNext, RxNext, BaudNext, Fifos.Next, OfferAt, FrameBetween, At;
    OneClockOfReports(v, qs, n);
    if n > 0 {
      ReportedBetween(u, ps, du, v, qs, dv, n - 1);
      RunBetween(u, ps, du, v, qs, dv, n - 1);
    } else {
      OneClock(v, qs, 0);
    }
  }

  /* ---- One byte, from FIFO to FIFO ---- */

  /** One byte in the FIFO, and nothing more is written. */
  ghost predicate OneByte(u: State, ps: seq<Pins>, b: Byte) {
    Fifos.Valid(u.txFifo) && Fifos.Contents(u.txFifo) == [b] && forall i :: 0 <= i < |ps| ==> !ps[i].wr
  }

  /** It stays in the FIFO as long as it is on its way. */
  ghost predicate OnItsWay(w: State, b: Byte) {
    Fifos.Valid(w.txFifo) && Fifos.Contents(w.txFifo) == if w.tx.state.Idle? then [] else [b]
  }

  lemma OneByteLoaded(u: State, p: Pins, b: Byte)
    requires InRange(u) && u.tx.state.Idle? && OneByte(u, [p], b)
    ensures OnItsWay(Next(u, p), b) && Front(u.txFifo) == b && !u.txFifo.empty
  {
    hide Fifos.Next, RxNext, BaudNext;
    Fifos.Flags(u.txFifo);
    assert ![p][0].wr;
    FifoStep(u.txFifo, Fifos.Request(false, p.wr, p.bits));
  }

  lemma OneByteStep(w: State, p: Pins, b: Byte)
    requires InRange(w) && OnItsWay(w, b) && !p.wr
    ensures OnItsWay(Next(w, p), b) && (w.tx.state.Idle? ==> w.txFifo.empty)
  {
    hide Fifos.Next, Fifos.Contents, RxNext, BaudNext;
    Fifos.Flags(w.txFifo);
    FifoStep(w.txFifo, Fifos.Request(Sent(w), p.wr, p.bits));
  }

  lemma {:induction false} StaysOneByte(u: State, ps: seq<Pins>, d: Divisor, b: Byte, n: nat)
    requires Loads(u, ps, d) && OneByte(u, ps, b) && 1 <= n <= |ps|
    ensures OnItsWay(Now(u, ps, n), b)
  {
    hide Now, OnItsWay, Next;
    OneClock(u, ps, n - 1);
    if n == 1 {
      OneByteLoaded(u, ps[0], b);
    } else {
      StaysOneByte(u, ps, d, b, n - 1);
      OneByteStep(Now(u, ps, n - 1), ps[n - 1], b);
    }
  }

  lemma NothingElseOffered(u: State, ps: seq<Pins>, d: Divisor, b: Byte, f: Frame, n: nat)
    requires Loads(u, ps, d) && OneByte(u, ps, b) && n < |ps|
    requires f == FrameOf(u, ps, d, f.rxDvsr, f.first.rxCount, f.first.rx)
    ensures Reports.QuietUntil(f, n)
  {
    hide Now, OnItsWay, Next;
    forall m: nat | m < n ensures !f.offers(m).start {
      StaysOneByte(u, ps, d, b, m + 1);
      OneByteStep(Now(u, ps, m + 1), ps[m + 1], b);
    }
  }

  /** Both blocks at rest. */
  ghost predicate AtRest(s: State, r: State) {
    s.tx.state.Idle? && s.tx.line && r.rx.state.Idle?
  }

  lemma FrameAtRest(u: State, ps: seq<Pins>, du: Divisor, v: State, qs: seq<Pins>, dv: Divisor, b: Byte, n: nat)
    requires Connected(u, ps, du, v, qs, dv) && OneByte(u, ps, b)
    requires n < |ps| && AtRest(Now(u, ps, n + 1), Now(v, qs, n + 1))
    ensures var f := FrameBetween(u, ps, du, v, qs, dv);
            Fresh(f) && f.first.tx.data == b && f.first.rx == v.rx && Reports.QuietUntil(f, n) && Reports.AtRest(f, n)
            && Reported(v, qs, n + 1) == Reports.Reported(f, n)
            && f.txDvsr == du && f.rxDvsr == dv && InRange(v) && |qs| == |ps|
  {
    hide Now, Fresh, Reports.QuietUntil, Reported, Fixed, Wired, Fifos.Contents;
    var f := FrameBetween(u, ps, du, v, qs, dv);
    FreshBetween(u, ps, du, v, qs, dv);
    FrontOfOne(u, ps, b);
    NothingElseOffered(u, ps, du, b, f, n);
    RunBetween(u, ps, du, v, qs, dv, n);
    ReportedBetween(u, ps, du, v, qs, dv, n);
  }

  lemma FrontOfOne(u: State, ps: seq<Pins>, b: Byte)
    requires InRange(u) && OneByte(u, ps, b)
    ensures Front(u.txFifo) == b
  {
    Fifos.Flags(u.txFifo);
  }

  /** A byte waiting in one block ends in the FIFO of another whose receiver has been reset with the line
      high, once and as it was written, within the tolerance. */
  lemma ByteArrives(u: State, ps: seq<Pins>, du: Divisor, v: State, qs: seq<Pins>, dv: Divisor, b: Byte, n: nat)
    requires Connected(u, ps, du, v, qs, dv) && OneByte(u, ps, b)
    requires v.rx.dataC == 0 && v.rxFifo == Fifos.Reset(v.rxFifo.regs)
    requires Reports.Tolerant(du + 1, dv + 1)
    requires n < |ps| && AtRest(Now(u, ps, n + 1), Now(v, qs, n + 1)) && ReadsInTime(v, qs[..n + 1])
    ensures Fifos.Valid(Now(v, qs, n + 1).rxFifo)
    ensures ReceivingAfter(v, qs[..n + 1]).taken + Fifos.Contents(Now(v, qs, n + 1).rxFifo) == [b]
  {
    hide Fresh, Reports.QuietUntil, Reports.AtRest, Reports.Reported, Reports.Tolerant, AtRest, Connected, OneByte,
      FrameBetween, After, ReadsInTime, ReceivingAfter;
    FrameAtRest(u, ps, du, v, qs, dv, b, n);
    Reports.FirstFrameOnce(FrameBetween(u, ps, du, v, qs, dv), n);
    ReceiveOrder(v, qs[..n + 1]);
  }

  /** To any receiver that has been used before the byte arrives so only if it is 0xff and the byte before
      was that or 0xfe. */
  lemma LaterByteArrives(u: State, ps: seq<Pins>, du: Divisor, v: State, qs: seq<Pins>, dv: Divisor, b: Byte, n: nat)
    requires Connected(u, ps, du, v, qs, dv) && OneByte(u, ps, b)
    requires v.rx.dataC == WIDTH - 1 && v.rxFifo == Fifos.Reset(v.rxFifo.regs)
    requires Reports.Tolerant(du + 1, dv + 1)
    requires n < |ps| && AtRest(Now(u, ps, n + 1), Now(v, qs, n + 1)) && ReadsInTime(v, qs[..n + 1])
    ensures Fifos.Valid(Now(v, qs, n + 1).rxFifo)
    ensures ReceivingAfter(v, qs[..n + 1]).taken + Fifos.Contents(Now(v, qs, n + 1).rxFifo) == [b]
            <==> b == Reports.ONES && v.rx.data[1..] == Reports.ONES[1..]
  {
    hide Fresh, Reports.QuietUntil, Reports.AtRest, Reports.Reported, Reports.Tolerant, AtRest, Connected, OneByte,
      FrameBetween, After, ReadsInTime, ReceivingAfter;
    FrameAtRest(u, ps, du, v, qs, dv, b, n);
    Reports.LaterFrame(FrameBetween(u, ps, du, v, qs, dv), n);
    ReceiveOrder(v, qs[..n + 1]);
  }
}
