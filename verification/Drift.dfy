/** How far apart the two ends' clocks may be: exactly when every frame gets through. */
module Drift {
  import opened Serial

  /** The bits the receiver takes, which are the first ones sent, have been shifted in when it first
      reports a byte. It takes all 8 only when its bit count starts at 0. */
  ghost predicate Delivered(f: Frame) {
    exists n: nat ::
      Completes(f, n) && At(f, n).rx.data == Shifting(f.first.rx.data, f.first.tx.data[..8 - f.first.rx.dataC])
  }

  /** With these tick periods bit k is on the line when it is sampled, wherever in their periods the
      two counters stand. */
  predicate Tolerates(txPeriod: int, rxPeriod: int, k: int) {
    (16 * k + 16) * txPeriod <= (16 * k + 23) * rxPeriod + 1
    && (16 * k + 24) * rxPeriod <= (16 * k + 31) * txPeriod
  }

  ghost predicate FrameAt(f: Frame, txDvsr: Divisor, rxDvsr: Divisor, d: BitCount) {
    Fresh(f) && f.txDvsr == txDvsr && f.rxDvsr == rxDvsr && f.first.rx.dataC == d
  }

  /** Every frame, of every byte, at every phase, gets through. */
  ghost predicate Reliable(txDvsr: Divisor, rxDvsr: Divisor, d: BitCount) {
    forall f :: FrameAt(f, txDvsr, rxDvsr, d) ==> Delivered(f)
  }

  /* ---- Sampling inside the window ---- */

  /** The level a sample sees: the one the transmitter's state called for one clock before. */
  lemma LineAt(f: Frame, t: nat)
    requires Fresh(f) && t >= 1
    requires Ticks(f.first.txCount, f.txDvsr, t - 1) < 160 || forall m: nat :: m < t ==> !f.offers(m).start
    ensures At(f, t).tx.line == Level(f.first.tx.data, Ticks(f.first.txCount, f.txDvsr, t - 1))
  {
    hide TxIs, Level, TxNext;
    var j := Ticks(f.first.txCount, f.txDvsr, t - 1);
    TxTrajectory(f, t - 1);
    TxStep(At(f, t - 1).tx, f.first.tx.data, Least(j, 160), Tick(At(f, t - 1).txCount), f.offers(t - 1));
    LevelStays(f.first.tx.data, j);
  }

  lemma Window(first: int, txPeriod: int, wait: int, rxPeriod: int, ticks: int, m: int, k: nat)
    requires 0 <= first < txPeriod && 0 <= wait < rxPeriod && Tolerates(txPeriod, rxPeriod, k)
    requires m == 1 + wait + Times(16 * k + 23, rxPeriod) && 0 <= first + Times(ticks, txPeriod) - m < txPeriod
    ensures 16 * k + 16 <= ticks < 16 * k + 32
  {
    TimesStep(16 * k + 15, txPeriod);
    TimesStep(16 * k + 31, txPeriod);
    TimesStep(16 * k + 23, rxPeriod);
    ToleratesTimes(txPeriod, rxPeriod, k);
    hide Times, Tolerates;
    TimesOrder(ticks, 16 * k + 15, txPeriod);
    TimesOrder(16 * k + 32, ticks, txPeriod);
  }

  lemma ToleratesTimes(txPeriod: int, rxPeriod: int, k: int)
    ensures Tolerates(txPeriod, rxPeriod, k)
            <==> Times(16 * k + 16, txPeriod) <= Times(16 * k + 23, rxPeriod) + 1
                 && Times(16 * k + 24, rxPeriod) <= Times(16 * k + 31, txPeriod)
  {
  }

  /** Errors add up over the frame, so the last bit is the hardest. */
  lemma LastBitDecides(txPeriod: int, rxPeriod: int, k: nat, last: nat)
    requires txPeriod > 0 && rxPeriod > 0 && k <= last && Tolerates(txPeriod, rxPeriod, last)
    ensures Tolerates(txPeriod, rxPeriod, k)
  {
    var gap, n := txPeriod - rxPeriod, last - k;
    assert (16 * k + 16) * txPeriod == (16 * k + 16) * rxPeriod + (16 * k + 16) * gap;
    assert (16 * last + 16) * gap == (16 * k + 16) * gap + 16 * (n * gap);
    assert (16 * k + 24) * rxPeriod == (16 * k + 24) * txPeriod - (16 * k + 24) * gap;
    assert (16 * last + 24) * gap == (16 * k + 24) * gap + 16 * (n * gap);
    assert (16 * last + 16) * txPeriod == (16 * last + 16) * rxPeriod + (16 * last + 16) * gap;
    assert (16 * last + 24) * rxPeriod == (16 * last + 24) * txPeriod - (16 * last + 24) * gap;
    if gap >= 0 {
      assert n * gap >= 0 && (16 * k + 24) * gap >= 0;
    } else {
      assert n * gap <= 0 && (16 * k + 16) * gap <= 0;
    }
  }

  /** A sampled bit is the bit sent. */
  lemma SampleIsBit(f: Frame, k: nat)
    requires Fresh(f) && k < 8 && Tolerates(f.txDvsr + 1, f.rxDvsr + 1, k)
    ensures Sample(f, k) == f.first.tx.data[k]
  {
    hide Times, Tolerates, Fresh, Ticks, RxTickTime;
    SampleTime(f, k);
    SampleInWindow(f, k);
    LineAt(f, RxTickTime(f, 16 * k + 23));
  }

  lemma SampleInWindow(f: Frame, k: nat)
    requires Fresh(f) && k < 8 && Tolerates(f.txDvsr + 1, f.rxDvsr + 1, k)
    requires RxTickTime(f, 16 * k + 23) >= 2
    ensures 16 * k + 16 <= Ticks(f.first.txCount, f.txDvsr, RxTickTime(f, 16 * k + 23) - 1) < 16 * k + 32
  {
    hide Times, Tolerates, Ticks, Wait, BaudNext, Tick;
    var t := RxTickTime(f, 16 * k + 23);
    TickTimes(f.first.rxCount, f.rxDvsr, 2);
    WaitStep(f.first.txCount, f.txDvsr);
    TickTimes(f.first.txCount, f.txDvsr, t - 1);
    WaitStep(RxPhase(f), f.rxDvsr);
    var j := Ticks(f.first.txCount, f.txDvsr, t - 1);
    Window(Wait(f.first.txCount, f.txDvsr), f.txDvsr + 1, Wait(RxPhase(f), f.rxDvsr), f.rxDvsr + 1, j, t - 1, k);
  }

  lemma SampleTime(f: Frame, k: nat)
    requires Fresh(f)
    ensures RxTickTime(f, 16 * k + 23) >= 2
  {
    hide Times;
    TickTimes(f.first.rxCount, f.rxDvsr, 2);
    TimesStep(0, f.rxDvsr + 1);
    TimesOrder(0, 16 * k + 23, f.rxDvsr + 1);
    WaitStep(RxPhase(f), f.rxDvsr);
  }

  lemma {:induction false} SamplesAreBits(f: Frame, n: nat)
    requires Fresh(f) && n <= 8 && forall k :: 0 <= k < n ==> Sample(f, k) == f.first.tx.data[k]
    ensures Samples(f, n) == f.first.tx.data[..n]
  {
    hide Sample;
    if n > 0 { SamplesAreBits(f, n - 1); }
  }

  lemma InTimeIsDelivered(f: Frame)
    requires Fresh(f) && Tolerates(f.txDvsr + 1, f.rxDvsr + 1, 7 - f.first.rx.dataC)
    ensures Delivered(f)
  {
    hide Tolerates, Sample, Samples, Completes, Shifting, DoneTime;
    var n: nat := 8 - f.first.rx.dataC;
    forall k | 0 <= k < n ensures Sample(f, k) == f.first.tx.data[k] {
      LastBitDecides(f.txDvsr + 1, f.rxDvsr + 1, k, n - 1);
      SampleIsBit(f, k);
    }
    SamplesAreBits(f, n);
    FrameEnds(f);
  }

  /* ---- Sampling outside the window ---- */

  function OnlyBit(k: nat): Byte {
    seq(8, i => i == k)
  }

  function BitsAfter(k: nat): Byte {
    seq(8, i => i > k)
  }

  /** A frame of a byte, with counters at given places and nothing sent after it. */
  function Witness(txDvsr: Divisor, rxDvsr: Divisor, d: BitCount, byte: Byte, txCount: Divisor,
      rxCount: Divisor): Frame {
    Frame(txDvsr, rxDvsr,
          Link(txCount, TxState(Start, byte, 0, 0, true), rxCount, RxState(Idle, BitsAfter(8), 0, d)),
          _ => Offer(false, BitsAfter(8)))
  }

  lemma {:induction false} SamplesAt(f: Frame, n: nat, k: nat)
    requires k < n
    ensures Samples(f, n)[k] == Sample(f, k)
  {
    hide Sample;
    if k < n - 1 { SamplesAt(f, n - 1, k); }
  }

  /** One wrong sample and the byte is not delivered. */
  lemma WrongSample(f: Frame, k: nat)
    requires Fresh(f) && k < 8 - f.first.rx.dataC && Sample(f, k) != f.first.tx.data[k]
    ensures !Delivered(f)
  {
    hide Sample, Samples, DoneTime;
    var t, n: nat := DoneTime(f), 8 - f.first.rx.dataC;
    FrameEnds(f);
    SamplesAt(f, n, k);
    forall m: nat | Completes(f, m)
      ensures At(f, m).rx.data != Shifting(f.first.rx.data, f.first.tx.data[..n])
    {
      assert m == t;
      assert At(f, m).rx.data[n..] == At(f, m).rx.data[n..];
      assert At(f, m).rx.data[8 - n + k] == Samples(f, n)[k];
      assert Shifting(f.first.rx.data, f.first.tx.data[..n])[8 - n + k] == f.first.tx.data[k];
    }
  }

  /** The latest transmitter and the earliest receiver. */
  lemma LatestTx(txDvsr: Divisor, rxDvsr: Divisor, d: BitCount, byte: Byte) returns (f: Frame)
    requires 1 <= txDvsr && 1 <= rxDvsr
    ensures FrameAt(f, txDvsr, rxDvsr, d) && f.first.tx.data == byte && forall m: nat :: !f.offers(m).start
    ensures Wait(f.first.txCount, txDvsr) == txDvsr && Wait(RxPhase(f), rxDvsr) == 0
    ensures f.first.rx.data == BitsAfter(8)
  {
    f := Witness(txDvsr, rxDvsr, d, byte, if txDvsr == 1 then 0 else 2, if rxDvsr == 1 then 1 else rxDvsr);
    assert RxPhase(f) == 1 by {
      assert Count(f.first.rxCount, rxDvsr, 2) == BaudNext(Count(f.first.rxCount, rxDvsr, 1), rxDvsr);
      assert Count(f.first.rxCount, rxDvsr, 1) == BaudNext(f.first.rxCount, rxDvsr);
    }
    assert Wait(f.first.txCount, txDvsr) == txDvsr && Wait(RxPhase(f), rxDvsr) == 0;
  }

  /** Bit k is sampled before it is sent. */
  lemma SampledEarly(txDvsr: Divisor, rxDvsr: Divisor, d: BitCount)
    requires 1 <= txDvsr && 1 <= rxDvsr
    requires var k := 7 - d; (16 * k + 16) * (txDvsr + 1) > (16 * k + 23) * (rxDvsr + 1) + 1
    ensures !Reliable(txDvsr, rxDvsr, d)
  {
    var k: nat := 7 - d;
    var f := LatestTx(txDvsr, rxDvsr, d, OnlyBit(k));
    EarlySample(f, k);
    WrongSample(f, k);
  }

  lemma EarlySample(f: Frame, k: nat)
    requires Fresh(f) && k < 8 && f.first.tx.data == OnlyBit(k) && forall m: nat :: !f.offers(m).start
    requires Wait(f.first.txCount, f.txDvsr) == f.txDvsr && Wait(RxPhase(f), f.rxDvsr) == 0
    requires (16 * k + 16) * (f.txDvsr + 1) > (16 * k + 23) * (f.rxDvsr + 1) + 1
    ensures !Sample(f, k)
  {
    var t := RxTickTime(f, 16 * k + 23);
    assert Times(16 * k + 16, f.txDvsr + 1) > Times(16 * k + 23, f.rxDvsr + 1) + 1;
    hide Times;
    SampleTime(f, k);
    TimesStep(16 * k + 15, f.txDvsr + 1);
    TicksBetween(f.first.txCount, f.txDvsr, t - 1, 16 * k + 15);
    LineAt(f, t);
  }

  /** The earliest transmitter and the latest receiver: bit k is sampled after it is gone. */
  lemma LatestRx(txDvsr: Divisor, rxDvsr: Divisor, d: BitCount) returns (f: Frame)
    requires 1 <= txDvsr && 1 <= rxDvsr
    requires var k := 7 - d; (16 * k + 24) * (rxDvsr + 1) > (16 * k + 31) * (txDvsr + 1)
    ensures FrameAt(f, txDvsr, rxDvsr, d) && Sample(f, 7 - d) != f.first.tx.data[7 - d]
    ensures forall m: nat :: !f.offers(m).start
  {
    var k: nat := 7 - d;
    f := Witness(txDvsr, rxDvsr, d, BitsAfter(k), 1, 0);
    assert Wait(RxPhase(f), rxDvsr) == rxDvsr by {
      assert Count(0, rxDvsr, 2) == BaudNext(Count(0, rxDvsr, 1), rxDvsr);
      assert Count(0, rxDvsr, 1) == BaudNext(0, rxDvsr);
    }
    LateSample(f, k);
  }

  lemma SampledLate(txDvsr: Divisor, rxDvsr: Divisor, d: BitCount)
    requires 1 <= txDvsr && 1 <= rxDvsr
    requires var k := 7 - d; (16 * k + 24) * (rxDvsr + 1) > (16 * k + 31) * (txDvsr + 1)
    ensures !Reliable(txDvsr, rxDvsr, d)
  {
    var f := LatestRx(txDvsr, rxDvsr, d);
    WrongSample(f, 7 - d);
  }

  lemma LateSample(f: Frame, k: nat)
    requires Fresh(f) && k < 8 && f.first.tx.data == BitsAfter(k) && forall m: nat :: !f.offers(m).start
    requires Wait(f.first.txCount, f.txDvsr) == 0 && Wait(RxPhase(f), f.rxDvsr) == f.rxDvsr
    requires (16 * k + 24) * (f.rxDvsr + 1) > (16 * k + 31) * (f.txDvsr + 1)
    ensures Sample(f, k)
  {
    var t := RxTickTime(f, 16 * k + 23);
    assert Times(16 * k + 24, f.rxDvsr + 1) > Times(16 * k + 31, f.txDvsr + 1);
    hide Times;
    SampleTime(f, k);
    TimesStep(16 * k + 23, f.rxDvsr + 1);
    TicksBetween(f.first.txCount, f.txDvsr, t - 1, 16 * k + 31);
    LineAt(f, t);
  }

  /* ---- The theorems ---- */

  /** A receiver whose bit count starts at d gets the 8 - d bits it takes, from every frame at every
      phase, exactly when the two tick periods tolerate the last of them. */
  lemma DriftBound(txDvsr: Divisor, rxDvsr: Divisor, d: BitCount)
    requires 1 <= txDvsr && 1 <= rxDvsr
    ensures Reliable(txDvsr, rxDvsr, d) <==> Tolerates(txDvsr + 1, rxDvsr + 1, 7 - d)
  {
    hide Delivered;
    if Tolerates(txDvsr + 1, rxDvsr + 1, 7 - d) {
      forall f | FrameAt(f, txDvsr, rxDvsr, d) ensures Delivered(f) {
        InTimeIsDelivered(f);
      }
    } else if (16 * (7 - d) + 16) * (txDvsr + 1) > (16 * (7 - d) + 23) * (rxDvsr + 1) + 1 {
      SampledEarly(txDvsr, rxDvsr, d);
    } else {
      SampledLate(txDvsr, rxDvsr, d);
    }
  }

  /** The first byte reported by a receiver whose bit count is still 0 is the one sent if and only if, in
      tick periods, sender over receiver is at most 135/128 (one clock over) and at least 136/143. */
  lemma FirstReport(txDvsr: Divisor, rxDvsr: Divisor)
    requires 1 <= txDvsr && 1 <= rxDvsr
    ensures (forall f :: FrameAt(f, txDvsr, rxDvsr, 0) ==>
                exists n: nat :: Completes(f, n) && At(f, n).rx.data == f.first.tx.data)
            <==> 128 * (txDvsr + 1) <= 135 * (rxDvsr + 1) + 1 && 136 * (rxDvsr + 1) <= 143 * (txDvsr + 1)
  {
    hide Completes, Fresh, At;
    DriftBound(txDvsr, rxDvsr, 0);
    forall f | FrameAt(f, txDvsr, rxDvsr, 0)
      ensures Delivered(f) <==> exists n: nat :: Completes(f, n) && At(f, n).rx.data == f.first.tx.data
    {
      WholeByte(f.first.rx.data, f.first.tx.data);
    }
  }

  lemma WholeByte(before: Byte, sent: Byte)
    ensures Shifting(before, sent[..8]) == sent
  {
  }

  /** With one divisor at both ends the bits a receiver takes are those sent. */
  lemma SharedDivisor(f: Frame)
    requires Fresh(f) && f.txDvsr == f.rxDvsr
    ensures Delivered(f)
  {
    InTimeIsDelivered(f);
  }

  /** After any frame the receiver is idle again with its bit count at 7. */
  lemma AfterFrame(f: Frame)
    requires Fresh(f)
    ensures DoneTime(f) >= 2 && Completes(f, DoneTime(f))
    ensures At(f, DoneTime(f) + 1).rx.state.Idle? && At(f, DoneTime(f) + 1).rx.dataC == WIDTH - 1
    ensures At(f, DoneTime(f) + 1).rx.data == At(f, DoneTime(f)).rx.data
  {
    hide DoneTime;
    FrameEnds(f);
  }
}
