/** Everything a receiver reports of a frame, from the load of the byte until both ends are at rest. */
module Reports {
  import opened Serial
  import opened Drift

  predicate Done(f: Frame, n: nat) {
    RxDone(At(f, n).rx, Tick(At(f, n).rxCount))
  }

  /** The bytes reported in the first n clocks. */
  function Reported(f: Frame, n: nat): seq<Byte> {
    if n == 0 then [] else Reported(f, n - 1) + (if Done(f, n - 1) then [At(f, n - 1).rx.data] else [])
  }

  /** Nothing more is sent before clock n. */
  ghost predicate QuietUntil(f: Frame, n: nat) {
    forall m: nat :: m < n ==> !f.offers(m).start
  }

  /** The frame is over: the transmitter idle, the line high, the receiver idle. */
  predicate AtRest(f: Frame, n: nat) {
    At(f, n).tx.state.Idle? && At(f, n).tx.line && At(f, n).rx.state.Idle?
  }

  /* ---- Counting reports ---- */

  lemma {:induction false} NothingReported(f: Frame, t: nat, n: nat)
    requires t <= n && forall m: nat :: t <= m < n ==> !Done(f, m)
    ensures Reported(f, n) == Reported(f, t)
  {
    hide Done;
    if t < n { NothingReported(f, t, n - 1); }
  }

  lemma {:induction false} ReportsGrow(f: Frame, t: nat, n: nat)
    requires t <= n
    ensures |Reported(f, t)| <= |Reported(f, n)|
  {
    hide Done;
    if t < n { ReportsGrow(f, t, n - 1); }
  }

  /** A receiver that was busy and is idle has reported a byte in between. */
  lemma {:induction false} LeavesByReport(f: Frame, u: nat, n: nat) returns (m: nat)
    requires u <= n && !At(f, u).rx.state.Idle? && At(f, n).rx.state.Idle?
    ensures u <= m < n && Done(f, m)
  {
    hide TxNext, BaudNext;
    if At(f, n - 1).rx.state.Idle? {
      m := LeavesByReport(f, u, n - 1);
    } else {
      m := n - 1;
    }
  }

  /** An idle receiver that sees a high line stays as it is. */
  lemma {:induction false} StaysIdle(f: Frame, t: nat, n: nat)
    requires t <= n && At(f, t).rx.state.Idle? && forall u: nat :: t <= u < n ==> At(f, u).tx.line
    ensures At(f, n).rx == At(f, t).rx && forall m: nat :: t <= m <= n ==> !Done(f, m)
  {
    hide TxNext, BaudNext;
    if t < n { StaysIdle(f, t, n - 1); }
  }

  /* ---- The transmitter's clock ---- */

  function TxTicks(f: Frame, n: nat): nat {
    Ticks(f.first.txCount, f.txDvsr, n)
  }

  lemma {:induction false} TicksGrow(f: Frame, t: nat, n: nat)
    requires t <= n
    ensures TxTicks(f, t) <= TxTicks(f, n) <= TxTicks(f, t) + (n - t)
  {
    if t < n { TicksGrow(f, t, n - 1); }
  }

  /** Every count of ticks between two is that of some clock between. */
  lemma {:induction false} TicksHit(f: Frame, t: nat, n: nat, j: nat) returns (m: nat)
    requires t <= n && TxTicks(f, t) <= j < TxTicks(f, n)
    ensures t <= m < n && TxTicks(f, m) == j
  {
    if TxTicks(f, n - 1) <= j {
      m := n - 1;
    } else {
      m := TicksHit(f, t, n - 1, j);
    }
  }

  /** A frame at rest is over. */
  lemma RestIsLate(f: Frame, n: nat)
    requires Fresh(f) && QuietUntil(f, n) && AtRest(f, n)
    ensures TxTicks(f, n) >= 160 && n >= 160
  {
    TxTrajectory(f, n);
    TicksGrow(f, 0, n);
  }

  /* ---- What is reported ---- */

  /** From the first report on, the line stays high. */
  ghost predicate HighFrom(f: Frame, j: nat) {
    forall i :: j <= i < 160 ==> Level(f.first.tx.data, i)
  }

  lemma LineAfter(f: Frame, t: nat, n: nat)
    requires Fresh(f) && QuietUntil(f, n) && HighFrom(f, TxTicks(f, t))
    ensures forall u: nat :: t < u < n ==> At(f, u).tx.line
  {
    hide Level;
    forall u: nat | t < u < n ensures At(f, u).tx.line {
      LineAt(f, u);
      TicksGrow(f, t, u - 1);
      HighAtEnd(f.first.tx.data, TxTicks(f, u - 1));
    }
  }

  lemma HighAtEnd(byte: Byte, j: nat)
    ensures j >= 160 ==> Level(byte, j)
  {
  }

  lemma FirstIsReported(f: Frame, n: nat)
    requires Fresh(f) && QuietUntil(f, n) && AtRest(f, n)
    ensures 2 <= DoneTime(f) < n && Done(f, DoneTime(f)) && Reported(f, DoneTime(f) + 1) == [At(f, DoneTime(f)).rx.data]
    ensures At(f, DoneTime(f) + 1).rx.state.Idle?
  {
    hide DoneTime, RxDone;
    RestIsLate(f, n);
    RxStarts(f);
    var m := LeavesByReport(f, 2, n);
    AfterFrame(f);
    NothingReported(f, 0, DoneTime(f));
  }

  /** A low level still to come once the first byte has been reported starts the receiver again. */
  lemma ReportsMore(f: Frame, n: nat, i: nat)
    requires Fresh(f) && QuietUntil(f, n) && AtRest(f, n)
    requires DoneTime(f) >= 2 && TxTicks(f, DoneTime(f)) <= i < 160 && !Level(f.first.tx.data, i)
    ensures |Reported(f, n)| >= 2
  {
    hide DoneTime, Level, At, Done, Reported, Ticks, Fresh;
    FirstIsReported(f, n);
    RestIsLate(f, n);
    var t: nat := DoneTime(f);
    var c := TicksHit(f, t, n, i);
    LineAt(f, c + 1);
    if At(f, c + 1).rx.state.Idle? {
      LowStarts(f, c + 1);
      ReportsAgain(f, t + 1, c + 2, n);
    } else {
      ReportsAgain(f, t + 1, c + 1, n);
    }
  }

  lemma LowStarts(f: Frame, u: nat)
    requires At(f, u).rx.state.Idle? && !At(f, u).tx.line
    ensures !At(f, u + 1).rx.state.Idle?
  {
    hide TxNext;
  }

  lemma ReportsAgain(f: Frame, t: nat, u: nat, n: nat)
    requires t <= u <= n && !At(f, u).rx.state.Idle? && At(f, n).rx.state.Idle?
    ensures |Reported(f, n)| > |Reported(f, t)|
  {
    hide At, Done;
    var m := LeavesByReport(f, u, n);
    ReportsGrow(f, t, m);
    ReportsGrow(f, m + 1, n);
  }

  /** All that is reported of a frame: one byte, made of the samples, if the line stays high after it,
      and more than one otherwise. */
  lemma AllReports(f: Frame, n: nat)
    requires Fresh(f) && QuietUntil(f, n) && AtRest(f, n)
    ensures 2 <= DoneTime(f) < n
    ensures HighFrom(f, TxTicks(f, DoneTime(f))) ==>
              Reported(f, n) == [Shifting(f.first.rx.data, Samples(f, 8 - f.first.rx.dataC))]
    ensures !HighFrom(f, TxTicks(f, DoneTime(f))) ==> |Reported(f, n)| >= 2
  {
    hide DoneTime, Level, TxNext, RxDone, Samples;
    FirstIsReported(f, n);
    FrameEnds(f);
    var t: nat := DoneTime(f);
    if HighFrom(f, TxTicks(f, t)) {
      LineAfter(f, t, n);
      StaysIdle(f, t + 1, n);
      NothingReported(f, t + 1, n);
    } else {
      var i: nat :| TxTicks(f, t) <= i < 160 && !Level(f.first.tx.data, i);
      ReportsMore(f, n, i);
    }
  }

  /* ---- Coming to rest ---- */

  /** Ticks until a busy receiver reports. */
  function RxLeft(s: RxState): nat {
    match s.state
    case Idle => 0
    case Start => (if s.tickC <= 7 then 8 - s.tickC else 24 - s.tickC) + 16 * (8 - s.dataC) + 16
    case Data => 16 - s.tickC + 16 * (7 - s.dataC) + 16
    case Stop => 16 - s.tickC
  }

  lemma RxLeftStep(s: RxState, tick: bool, serial: bool)
    requires !s.state.Idle? && !RxDone(s, tick)
    ensures var t := RxNext(s, tick, serial);
            !t.state.Idle? && RxLeft(t) == if tick then RxLeft(s) - 1 else RxLeft(s)
  {
  }

  /** Both ends have a divisor, and their counters are inside their periods. */
  predicate Counting(f: Frame) {
    1 <= f.txDvsr && f.first.txCount <= f.txDvsr && 1 <= f.rxDvsr && f.first.rxCount <= f.rxDvsr
  }

  lemma Finishes(f: Frame, n: nat) returns (m: nat)
    requires Counting(f) && !At(f, n).rx.state.Idle?
    ensures m >= n && Done(f, m) && At(f, m + 1).rx.state.Idle?
    decreases RxLeft(At(f, n).rx), Wait(Count(f.first.rxCount, f.rxDvsr, n), f.rxDvsr)
  {
    Counters(f, n);
    TickTimes(f.first.rxCount, f.rxDvsr, n);
    if Done(f, n) {
      m := n;
    } else {
      WaitStep(At(f, n).rxCount, f.rxDvsr);
      RxLeftStep(At(f, n).rx, Tick(At(f, n).rxCount), At(f, n).tx.line);
      m := Finishes(f, n + 1);
    }
  }

  /** Every frame after which nothing is sent comes to rest. */
  lemma ComesToRest(f: Frame) returns (n: nat)
    requires Fresh(f) && forall m: nat :: !f.offers(m).start
    ensures QuietUntil(f, n) && AtRest(f, n)
  {
    hide Times;
    TickTimes(f.first.txCount, f.txDvsr, 0);
    TimesStep(0, f.txDvsr + 1);
    TimesOrder(0, 160, f.txDvsr + 1);
    n := Wait(f.first.txCount, f.txDvsr) + Times(160, f.txDvsr + 1) + 2;
    TicksBetween(f.first.txCount, f.txDvsr, n - 1, 160);
    OverAfter(f, n);
    if !At(f, n).rx.state.Idle? {
      var m := Finishes(f, n);
      TicksGrow(f, n - 1, m);
      OverAfter(f, m + 1);
      n := m + 1;
    }
  }

  lemma OverAfter(f: Frame, n: nat)
    requires Fresh(f) && n > 0 && TxTicks(f, n - 1) >= 160 && forall m: nat :: !f.offers(m).start
    ensures At(f, n).tx.state.Idle? && At(f, n).tx.line
  {
    TicksGrow(f, n - 1, n);
    TxTrajectory(f, n);
  }

  /* ---- The first frame ---- */

  /** The mismatch of tick periods under which a whole frame, its end included, is received. */
  predicate Tolerant(txPeriod: int, rxPeriod: int) {
    144 * txPeriod <= 151 * rxPeriod + 2 && 136 * rxPeriod <= 143 * txPeriod
  }

  lemma TolerantOfBits(txPeriod: int, rxPeriod: int, k: nat)
    requires Tolerant(txPeriod, rxPeriod) && txPeriod >= 2 && rxPeriod >= 2 && k <= 7
    ensures Tolerates(txPeriod, rxPeriod, k)
  {
    LastBitDecides(txPeriod, rxPeriod, k, 7) by {
      assert Tolerates(txPeriod, rxPeriod, 7);
    }
  }

  /** The transmitter is past its last bit when the receiver reports all eight. */
  lemma PastLastBit(f: Frame)
    requires Fresh(f) && f.first.rx.dataC == 0 && 144 * (f.txDvsr + 1) <= 151 * (f.rxDvsr + 1) + 2
    ensures DoneTime(f) >= 2 && TxTicks(f, DoneTime(f)) >= 144
  {
    FrameEnds(f);
    TickTimes(f.first.rxCount, f.rxDvsr, 2);
    WaitStep(f.first.txCount, f.txDvsr);
    WaitStep(RxPhase(f), f.rxDvsr);
    TicksBetween(f.first.txCount, f.txDvsr, DoneTime(f), 143);
  }

  lemma HighPast(f: Frame, j: nat)
    requires j >= 144
    ensures HighFrom(f, j)
  {
  }

  lemma SamplesInTime(f: Frame)
    requires Fresh(f) && Tolerant(f.txDvsr + 1, f.rxDvsr + 1)
    ensures Samples(f, 8 - f.first.rx.dataC) == f.first.tx.data[..8 - f.first.rx.dataC]
  {
    hide Samples, Sample, Tolerant, Tolerates;
    forall k: nat | k < 8 ensures Sample(f, k) == f.first.tx.data[k] {
      TolerantOfBits(f.txDvsr + 1, f.rxDvsr + 1, k);
      SampleIsBit(f, k);
    }
    SamplesAreBits(f, 8 - f.first.rx.dataC);
  }

  /** Within the tolerance the first frame is reported as sent, once. */
  lemma FirstFrameOnce(f: Frame, n: nat)
    requires Fresh(f) && f.first.rx.dataC == 0 && Tolerant(f.txDvsr + 1, f.rxDvsr + 1)
    requires QuietUntil(f, n) && AtRest(f, n)
    ensures Reported(f, n) == [f.first.tx.data]
  {
    hide Samples, Reported, AtRest, DoneTime, HighFrom, TxTicks;
    AllReports(f, n);
    PastLastBit(f);
    HighPast(f, TxTicks(f, DoneTime(f)));
    SamplesInTime(f);
    WholeByte(f.first.rx.data, f.first.tx.data);
  }

  /** A last bit of 0, sent as late and sampled as early as can be, is still on the line. */
  lemma StartsAgain(txDvsr: Divisor, rxDvsr: Divisor) returns (f: Frame, n: nat)
    requires 1 <= txDvsr && 1 <= rxDvsr && 144 * (txDvsr + 1) > 151 * (rxDvsr + 1) + 2
    ensures FrameAt(f, txDvsr, rxDvsr, 0) && QuietUntil(f, n) && AtRest(f, n) && |Reported(f, n)| >= 2
  {
    f := LatestTx(txDvsr, rxDvsr, 0, BitsAfter(8));
    n := ComesToRest(f);
    FrameEnds(f);
    TicksBetween(f.first.txCount, txDvsr, DoneTime(f), 143);
    ReportsMore(f, n, TxTicks(f, DoneTime(f)));
  }

  lemma WrongBit(txDvsr: Divisor, rxDvsr: Divisor) returns (f: Frame, n: nat)
    requires 1 <= txDvsr && 1 <= rxDvsr && 136 * (rxDvsr + 1) > 143 * (txDvsr + 1)
    ensures FrameAt(f, txDvsr, rxDvsr, 0) && QuietUntil(f, n) && AtRest(f, n) && Reported(f, n) != [f.first.tx.data]
  {
    hide Sample, Samples, AtRest, Reported, DoneTime, HighFrom, TxTicks;
    f := LatestRx(txDvsr, rxDvsr, 0);
    n := ComesToRest(f);
    AllReports(f, n);
    SamplesAt(f, 8, 7);
    assert Shifting(f.first.rx.data, Samples(f, 8))[7] == Samples(f, 8)[7];
  }

  /** The first frame to a receiver that has been reset with the line high is received as sent and nothing
      else is reported of it, for every byte and every phase, if and only if 144 tick periods of the sender
      are at most 151 of the receiver and two clocks, and 136 of the receiver at most 143 of the sender. */
  lemma FirstFrame(txDvsr: Divisor, rxDvsr: Divisor)
    requires 1 <= txDvsr && 1 <= rxDvsr
    ensures (forall f, n: nat :: FrameAt(f, txDvsr, rxDvsr, 0) && QuietUntil(f, n) && AtRest(f, n) ==>
                Reported(f, n) == [f.first.tx.data])
            <==> Tolerant(txDvsr + 1, rxDvsr + 1)
  {
    hide Reported, AtRest, QuietUntil, Fresh;
    if Tolerant(txDvsr + 1, rxDvsr + 1) {
      forall f, n: nat | FrameAt(f, txDvsr, rxDvsr, 0) && QuietUntil(f, n) && AtRest(f, n)
        ensures Reported(f, n) == [f.first.tx.data]
      {
        FirstFrameOnce(f, n);
      }
    } else if 144 * (txDvsr + 1) > 151 * (rxDvsr + 1) + 2 {
      var f, n := StartsAgain(txDvsr, rxDvsr);
    } else {
      var f, n := WrongBit(txDvsr, rxDvsr);
    }
  }

  /** One divisor at both ends is tolerant. */
  lemma SharedIsTolerant(dvsr: Divisor)
    ensures Tolerant(dvsr + 1, dvsr + 1)
  {
  }

  /* ---- Later frames ---- */

  /** The frame whose byte is loaded at clock n. */
  function Following(f: Frame, n: nat): Frame {
    Frame(f.txDvsr, f.rxDvsr, At(f, n + 1), (m: nat) => f.offers(n + 1 + m))
  }

  lemma {:induction false} FollowingAt(f: Frame, n: nat, m: nat)
    ensures At(Following(f, n), m) == At(f, n + 1 + m)
  {
    hide LinkNext;
    if m > 0 { FollowingAt(f, n, m - 1); }
  }

  /** The bit count, once at 7, stays there, and the register of an idle receiver holds what it
      reported last. */
  lemma {:induction false} KeepsLast(f: Frame, t: nat, n: nat)
    requires t <= n && At(f, t).rx.dataC == WIDTH - 1
    requires At(f, t).rx.state.Idle? && |Reported(f, t)| > 0 && At(f, t).rx.data == Reported(f, t)[|Reported(f, t)| - 1]
    ensures At(f, n).rx.dataC == WIDTH - 1 && |Reported(f, n)| > 0
    ensures At(f, n).rx.state.Idle? ==> At(f, n).rx.data == Reported(f, n)[|Reported(f, n)| - 1]
  {
    hide TxNext, BaudNext;
    if t < n { KeepsLast(f, t, n - 1); }
  }

  /** A byte offered at rest starts a frame. */
  lemma RestIsFresh(f: Frame, n: nat)
    requires Counting(f) && AtRest(f, n) && f.offers(n).start
    ensures var g := Following(f, n);
            Fresh(g) && g.first.tx.data == f.offers(n).bits && g.first.rx == At(f, n).rx
  {
    hide TxNext, BaudNext, Wait, Count, Tick;
    assert At(f, n + 1) == LinkNext(At(f, n), f.txDvsr, f.rxDvsr, f.offers(n));
    hide At;
    LoadIsFresh(At(f, n).tx, Tick(At(f, n).txCount), f.offers(n).bits);
    Counters(f, n + 1);
    TickTimes(f.first.txCount, f.txDvsr, n + 1);
    TickTimes(f.first.rxCount, f.rxDvsr, n + 1);
  }

  /** A byte offered when a frame is over starts another, fresh but for the receiver: its bit count stands
      at 7 and its register holds the last byte it reported. */
  lemma NextFrame(f: Frame, n: nat)
    requires Fresh(f) && QuietUntil(f, n) && AtRest(f, n) && f.offers(n).start
    ensures var g := Following(f, n);
            Fresh(g) && g.first.tx.data == f.offers(n).bits && g.first.rx.dataC == WIDTH - 1
            && |Reported(f, n)| > 0 && g.first.rx.data == Reported(f, n)[|Reported(f, n)| - 1]
  {
    hide RxDone, DoneTime, TxNext, Reported;
    FirstIsReported(f, n);
    AfterFrame(f);
    KeepsLast(f, DoneTime(f) + 1, n);
    RestIsFresh(f, n);
  }

  const ONES: Byte := [true, true, true, true, true, true, true, true]

  /** A receiver that takes one bit reports it while the second is on the line. */
  lemma DuringSecondBit(f: Frame)
    requires Fresh(f) && f.first.rx.dataC == WIDTH - 1 && Tolerant(f.txDvsr + 1, f.rxDvsr + 1)
    ensures DoneTime(f) >= 2 && 32 <= TxTicks(f, DoneTime(f)) < 48
  {
    hide Times, Tolerant, Wait, Ticks, Count, Samples, RxDone, BaudNext, Tick;
    FrameEnds(f);
    TickTimes(f.first.rxCount, f.rxDvsr, 2);
    WaitStep(f.first.txCount, f.txDvsr);
    WaitStep(RxPhase(f), f.rxDvsr);
    SecondBitTimes(Wait(f.first.txCount, f.txDvsr), f.txDvsr + 1, Wait(RxPhase(f), f.rxDvsr), f.rxDvsr + 1);
    TicksBetween(f.first.txCount, f.txDvsr, DoneTime(f), 31);
    TicksBetween(f.first.txCount, f.txDvsr, DoneTime(f), 47);
  }

  lemma SecondBitTimes(txWait: int, txPeriod: int, rxWait: int, rxPeriod: int)
    requires 0 <= txWait < txPeriod && 0 <= rxWait < rxPeriod && Tolerant(txPeriod, rxPeriod)
    ensures txWait + Times(31, txPeriod) < 2 + rxWait + Times(39, rxPeriod) <= txWait + Times(47, txPeriod)
  {
  }

  lemma HighAfterFirstBit(f: Frame, j: nat)
    requires 32 <= j < 48
    ensures HighFrom(f, j) <==> forall k :: 1 <= k < 8 ==> f.first.tx.data[k]
  {
    if HighFrom(f, j) {
      forall k | 1 <= k < 8 ensures f.first.tx.data[k] {
        assert Level(f.first.tx.data, if k == 1 then j else 16 + 16 * k);
      }
    }
  }

  /** All that is reported of a later frame: its first bit above the previous byte moved down, and nothing
      more exactly when all its other bits are ones; each low bit among them starts the receiver again. */
  lemma LaterReports(f: Frame, n: nat)
    requires Fresh(f) && f.first.rx.dataC == WIDTH - 1 && Tolerant(f.txDvsr + 1, f.rxDvsr + 1)
    requires QuietUntil(f, n) && AtRest(f, n)
    ensures (forall k :: 1 <= k < 8 ==> f.first.tx.data[k]) ==>
              Reported(f, n) == [f.first.rx.data[1..] + [f.first.tx.data[0]]]
    ensures !(forall k :: 1 <= k < 8 ==> f.first.tx.data[k]) ==> |Reported(f, n)| >= 2
  {
    hide Samples, Reported, AtRest, DoneTime, HighFrom, TxTicks, Fresh, Tolerant, QuietUntil;
    AllReports(f, n);
    DuringSecondBit(f);
    HighAfterFirstBit(f, TxTicks(f, DoneTime(f)));
    SamplesInTime(f);
    assert f.first.tx.data[..1] == [f.first.tx.data[0]];
  }

  /** Only a reset clears the receiver's bit count. A later frame is therefore received as sent, and nothing
      else reported of it, if and only if it is all ones and so was the byte before, but for its first
      bit. */
  lemma LaterFrame(f: Frame, n: nat)
    requires Fresh(f) && f.first.rx.dataC == WIDTH - 1 && Tolerant(f.txDvsr + 1, f.rxDvsr + 1)
    requires QuietUntil(f, n) && AtRest(f, n)
    ensures Reported(f, n) == [f.first.tx.data] <==> f.first.tx.data == ONES && f.first.rx.data[1..] == ONES[1..]
  {
    hide Reported, AtRest, Fresh, Tolerant, QuietUntil;
    LaterReports(f, n);
    var sent, before := f.first.tx.data, f.first.rx.data;
    OnesOnly(sent, before);
  }

  lemma OnesOnly(sent: Byte, before: Byte)
    ensures (forall k :: 1 <= k < 8 ==> sent[k]) && before[1..] + [sent[0]] == sent
            <==> sent == ONES && before[1..] == ONES[1..]
  {
    if (forall k :: 1 <= k < 8 ==> sent[k]) && before[1..] + [sent[0]] == sent {
      assert sent[7] == (before[1..] + [sent[0]])[7];
      assert forall k :: 0 <= k < 7 ==> before[1..][k] == sent[k];
    }
  }

  /** Two bytes sent one after the other to such a receiver: the first arrives as sent, the second only if it
      is 0xff behind 0xfe or 0xff. */
  lemma SecondFrame(f: Frame, n: nat, m: nat)
    requires Fresh(f) && f.first.rx.dataC == 0 && Tolerant(f.txDvsr + 1, f.rxDvsr + 1)
    requires QuietUntil(f, n) && AtRest(f, n) && f.offers(n).start
    requires QuietUntil(Following(f, n), m) && AtRest(Following(f, n), m)
    ensures Reported(f, n) == [f.first.tx.data]
    ensures Reported(Following(f, n), m) == [f.offers(n).bits]
            <==> f.offers(n).bits == ONES && f.first.tx.data[1..] == ONES[1..]
  {
    hide Reported, AtRest, QuietUntil, Fresh, Tolerant;
    FirstFrameOnce(f, n);
    NextFrame(f, n);
    LaterFrame(Following(f, n), m);
  }

  /** A failing case at every divisor: 0x00 behind 0x00. The first report is right, and others follow. */
  lemma ZeroAfterZero(dvsr: Divisor) returns (f: Frame, n: nat)
    requires 1 <= dvsr
    ensures FrameAt(f, dvsr, dvsr, WIDTH - 1) && f.first.tx.data == f.first.rx.data == BitsAfter(8)
    ensures QuietUntil(f, n) && AtRest(f, n) && |Reported(f, n)| >= 2
    ensures DoneTime(f) >= 2 && Completes(f, DoneTime(f)) && At(f, DoneTime(f)).rx.data == f.first.tx.data
  {
    hide Reported, AtRest, QuietUntil;
    f := LatestTx(dvsr, dvsr, WIDTH - 1, BitsAfter(8));
    n := ComesToRest(f);
    SharedIsTolerant(dvsr);
    LaterReports(f, n);
    FrameEnds(f);
    SamplesInTime(f);
    assert f.first.tx.data[..1] == [f.first.tx.data[0]];
    assert Shifting(f.first.rx.data, [f.first.tx.data[0]]) == f.first.tx.data;
  }

  /* ---- Both ends reset together ---- */

  /** Both ends have been reset at once. The line register starts low, and the receiver starts on it; it
      waits there as long as the divisor is still 0. */
  ghost predicate ResetTogether(f: Frame) {
    Counting(f) && f.first.tx.state.Idle? && f.first.rx.dataC == 0
    && if f.first.tx.line then f.first.rx.state.Start? else f.first.rx.state.Idle?
  }

  /** The receiver takes a byte of ones from the line at rest. */
  ghost predicate TakesOnes(f: Frame, n: nat) {
    var rx := At(f, n).rx;
    match rx.state
    case Idle => rx.dataC == WIDTH - 1 && rx.data == ONES && Reported(f, n) == [ONES]
    case Start => rx.dataC == 0 && Reported(f, n) == []
    case Data => Reported(f, n) == [] && forall k :: WIDTH - rx.dataC <= k < WIDTH ==> rx.data[k]
    case Stop => Reported(f, n) == [] && rx.dataC == WIDTH - 1 && rx.data == ONES
  }

  lemma {:induction false} StartsOnReset(f: Frame, n: nat)
    requires ResetTogether(f) && QuietUntil(f, n) && n > 0
    ensures At(f, n).tx.state.Idle? && At(f, n).tx.line && TakesOnes(f, n)
  {
    hide BaudNext;
    assert At(f, 0) == f.first && Reported(f, 0) == [];
    assert !f.offers(n - 1).start;
    if n > 1 { StartsOnReset(f, n - 1); }
    assert At(f, n) == LinkNext(At(f, n - 1), f.txDvsr, f.rxDvsr, f.offers(n - 1));
  }

  lemma ResetComesToRest(f: Frame) returns (n: nat)
    requires ResetTogether(f) && forall m: nat :: !f.offers(m).start
    ensures QuietUntil(f, n) && AtRest(f, n)
  {
    hide BaudNext;
    StartsOnReset(f, 1);
    assert At(f, 1) == LinkNext(f.first, f.txDvsr, f.rxDvsr, f.offers(0));
    var m := Finishes(f, 1);
    n := m + 1;
    StartsOnReset(f, n);
  }

  /** Two ends that were reset at once: before anything is sent the receiver reports a byte of ones, so
      that even the first byte sent is received as sent, and alone, only if it is 0xff. */
  lemma FirstAfterReset(f: Frame, n: nat, m: nat)
    requires ResetTogether(f) && Tolerant(f.txDvsr + 1, f.rxDvsr + 1)
    requires QuietUntil(f, n) && AtRest(f, n) && f.offers(n).start
    requires QuietUntil(Following(f, n), m) && AtRest(Following(f, n), m)
    ensures Reported(f, n) == [ONES]
    ensures Reported(Following(f, n), m) == [f.offers(n).bits] <==> f.offers(n).bits == ONES
  {
    hide Reported, QuietUntil, Fresh, Tolerant;
    StartsOnReset(f, n);
    RestIsFresh(f, n);
    LaterFrame(Following(f, n), m);
  }
}
