/** The serial line: baud ticks, the transmitter and the receiver, one clock at a time, as the Uart
    instantiates them: 8 data bits, 16 ticks to a bit, an 11-bit divisor. */
module Serial {
  const OVERSAMPLE := 16
  const WIDTH := 8
  const DIVISORS := 2048

  type TickCount = n: nat | n < OVERSAMPLE
  type BitCount = n: nat | n < WIDTH
  type Divisor = n: nat | n < DIVISORS

  /** A data register, bit 0 first. */
  type Byte = s: seq<bool> | |s| == WIDTH witness [false, false, false, false, false, false, false, false]

  datatype Phase = Idle | Start | Data | Stop

  /* ---- Baud ---- */

  function BaudNext(count: Divisor, dvsr: Divisor): Divisor {
    if count == dvsr then 0 else (count + 1) % DIVISORS
  }

  predicate Tick(count: Divisor) {
    count == 1
  }

  /* ---- Transmitter ---- */

  /** `line` is the output register; it shows each state one clock late. */
  datatype TxState = TxState(state: Phase, data: Byte, tickC: TickCount, dataC: BitCount, line: bool)

  predicate TxDone(s: TxState, tick: bool) {
    s.state.Stop? && tick && s.tickC == OVERSAMPLE - 1
  }

  function TxNext(s: TxState, tick: bool, start: bool, bits: Byte): TxState {
    var last := s.tickC == OVERSAMPLE - 1;
    match s.state
    case Idle =>
      if start then TxState(Start, bits, 0, s.dataC, true) else s.(line := true)
    case Start =>
      if !tick then s.(line := false)
      else if last then s.(state := Data, tickC := 0, dataC := 0, line := false)
      else s.(tickC := s.tickC + 1, line := false)
    case Data =>
      if !tick then s.(line := s.data[0])
      else if last then
        TxState(if s.dataC == WIDTH - 1 then Stop else Data, s.data[1..] + [false], 0,
                if s.dataC == WIDTH - 1 then s.dataC else s.dataC + 1, s.data[0])
      else s.(tickC := s.tickC + 1, line := s.data[0])
    case Stop =>
      if !tick then s.(line := true)
      else if last then s.(state := Idle, line := true)
      else s.(tickC := s.tickC + 1, line := true)
  }

  /* ---- Receiver ---- */

  datatype RxState = RxState(state: Phase, data: Byte, tickC: TickCount, dataC: BitCount)

  predicate RxDone(s: RxState, tick: bool) {
    s.state.Stop? && tick && s.tickC == OVERSAMPLE - 1
  }

  function RxNext(s: RxState, tick: bool, serial: bool): RxState {
    match s.state
    case Idle =>
      if !serial then s.(state := Start, tickC := 0) else s
    case Start =>
      if !tick then s
      else if s.tickC == OVERSAMPLE / 2 - 1 then s.(state := Data, tickC := 0)
      else s.(tickC := (s.tickC + 1) % OVERSAMPLE)
    case Data =>
      if !tick then s
      else if s.tickC == OVERSAMPLE - 1 then
        RxState(if s.dataC == WIDTH - 1 then Stop else Data, s.data[1..] + [serial], 0,
                if s.dataC == WIDTH - 1 then s.dataC else s.dataC + 1)
      else s.(tickC := s.tickC + 1)
    case Stop =>
      if !tick then s
      else if s.tickC == OVERSAMPLE - 1 then s.(state := Idle)
      else s.(tickC := s.tickC + 1)
  }

  /* ---- When ticks come ---- */

  /** The counter after n clocks. */
  function Count(c: Divisor, d: Divisor, n: nat): Divisor {
    if n == 0 then c else BaudNext(Count(c, d, n - 1), d)
  }

  /** The ticks in the first n clocks. */
  function Ticks(c: Divisor, d: Divisor, n: nat): nat {
    if n == 0 then 0 else Ticks(c, d, n - 1) + (if Tick(Count(c, d, n - 1)) then 1 else 0)
  }

  /** Clocks until the counter next ticks. */
  function Wait(c: Divisor, d: Divisor): int {
    if c <= 1 then 1 - c else d + 2 - c
  }

  function Times(j: int, period: int): int {
    j * period
  }

  lemma TimesStep(j: int, period: int)
    ensures Times(j + 1, period) == Times(j, period) + period
    ensures Times(0, period) == 0
  {
  }

  lemma TimesOrder(i: int, j: int, period: int)
    requires period > 0
    ensures Times(i, period) + period <= Times(j, period) <==> i < j
    ensures Times(i, period) <= Times(j, period) <==> i <= j
  {
    hide Times;
    if i < j {
      TimesGap(i, j, period);
    } else if j < i {
      TimesGap(j, i, period);
    }
  }

  lemma TimesGap(i: int, j: int, period: int)
    requires i < j && period > 0
    ensures Times(i, period) + period <= Times(j, period)
  {
    var n := j - i - 1;
    assert n * period >= 0;
    assert j * period == i * period + n * period + period;
  }

  lemma WaitStep(c: Divisor, d: Divisor)
    requires 1 <= d && c <= d
    ensures BaudNext(c, d) <= d && 0 <= Wait(c, d) <= d && (Tick(c) <==> Wait(c, d) == 0)
    ensures Wait(BaudNext(c, d), d) == if Tick(c) then d else Wait(c, d) - 1
  {
  }

  /** Ticks are exactly a period of d + 1 clocks apart: at every clock the wait for the next one is
      what is left of the periods counted so far. */
  lemma {:induction false} TickTimes(c: Divisor, d: Divisor, n: nat)
    requires 1 <= d && c <= d
    ensures Count(c, d, n) <= d && 0 <= Wait(Count(c, d, n), d) <= d
    ensures Wait(Count(c, d, n), d) == Wait(c, d) + Times(Ticks(c, d, n), d + 1) - n
    ensures Tick(Count(c, d, n)) <==> Wait(Count(c, d, n), d) == 0
  {
    hide Times, BaudNext, Wait, Tick;
    TimesStep(0, d + 1);
    WaitStep(Count(c, d, n), d) by {
      if n > 0 { TickTimes(c, d, n - 1); WaitStep(Count(c, d, n - 1), d); }
    }
    if n > 0 {
      TickTimes(c, d, n - 1);
      WaitStep(Count(c, d, n - 1), d);
      TimesStep(Ticks(c, d, n - 1), d + 1);
    }
  }

  /** The count of ticks, read off the clock. */
  lemma TicksBetween(c: Divisor, d: Divisor, n: nat, j: nat)
    requires 1 <= d && c <= d
    ensures Ticks(c, d, n) > j <==> Wait(c, d) + Times(j, d + 1) < n
  {
    TickTimes(c, d, n);
    hide Times;
    var t := Ticks(c, d, n);
    TimesOrder(j, t, d + 1);
    TimesOrder(t, j, d + 1);
  }

  lemma TickAt(c: Divisor, d: Divisor, n: nat, j: nat)
    requires 1 <= d && c <= d && n == Wait(c, d) + Times(j, d + 1)
    ensures Ticks(c, d, n) == j && Tick(Count(c, d, n))
  {
    hide Times;
    TicksBetween(c, d, n, j);
    if j > 0 {
      TimesOrder(j - 1, j, d + 1);
      TicksBetween(c, d, n, j - 1);
    }
    TickTimes(c, d, n);
  }

  /* ---- A transmitter and a receiver joined by a wire ---- */

  datatype Link = Link(txCount: Divisor, tx: TxState, rxCount: Divisor, rx: RxState)

  /** What the transmitter's user offers at a clock. */
  datatype Offer = Offer(start: bool, bits: Byte)

  /** Two ends with their own divisors, from a first state on. */
  datatype Frame = Frame(txDvsr: Divisor, rxDvsr: Divisor, first: Link, offers: nat -> Offer)

  function LinkNext(l: Link, txDvsr: Divisor, rxDvsr: Divisor, offer: Offer): Link {
    Link(BaudNext(l.txCount, txDvsr), TxNext(l.tx, Tick(l.txCount), offer.start, offer.bits),
         BaudNext(l.rxCount, rxDvsr), RxNext(l.rx, Tick(l.rxCount), l.tx.line))
  }

  function At(f: Frame, n: nat): Link {
    if n == 0 then f.first else LinkNext(At(f, n - 1), f.txDvsr, f.rxDvsr, f.offers(n - 1))
  }

  /** The transmitter has just loaded a byte, with the line still high, and the receiver is idle. The
      counters may stand anywhere in their periods. */
  ghost predicate Fresh(f: Frame) {
    1 <= f.txDvsr && f.first.txCount <= f.txDvsr && 1 <= f.rxDvsr && f.first.rxCount <= f.rxDvsr
    && f.first.tx.state.Start? && f.first.tx.tickC == 0 && f.first.tx.line && f.first.rx.state.Idle?
  }

  /** Loading a byte always leads there. */
  lemma LoadIsFresh(s: TxState, tick: bool, bits: Byte)
    requires s.state.Idle?
    ensures var t := TxNext(s, tick, true, bits); t.state.Start? && t.tickC == 0 && t.line && t.data == bits
  {
  }

  lemma {:induction false} Counters(f: Frame, n: nat)
    ensures At(f, n).txCount == Count(f.first.txCount, f.txDvsr, n)
    ensures At(f, n).rxCount == Count(f.first.rxCount, f.rxDvsr, n)
  {
    if n > 0 { Counters(f, n - 1); }
  }

  /* ---- The transmitter's side ---- */

  /** The level a transmitter of this byte puts out after j ticks. */
  function Level(byte: Byte, j: nat): bool {
    if j < 16 then false else if j < 144 then byte[(j - 16) / 16] else true
  }

  function Shifted(byte: Byte, k: nat): Byte
    requires k <= WIDTH
  {
    byte[k..] + seq(k, _ => false)
  }

  /** The transmitter's state after j ticks of a frame. */
  ghost predicate TxIs(s: TxState, byte: Byte, j: nat) {
    if j < 16 then s.state.Start? && s.tickC == j && s.data == byte
    else if j < 144 then
      s.state.Data? && s.tickC == (j - 16) % 16 && s.dataC == (j - 16) / 16 && s.data == Shifted(byte, s.dataC)
    else if j < 160 then s.state.Stop? && s.tickC == j - 144
    else s.state.Idle?
  }

  lemma ShiftedOnce(byte: Byte, k: nat)
    requires k < WIDTH
    ensures Shifted(byte, k)[1..] + [false] == Shifted(byte, k + 1) && Shifted(byte, k)[0] == byte[k]
    ensures Shifted(byte, 0) == byte
  {
  }

  lemma TxStep(s: TxState, byte: Byte, j: nat, tick: bool, offer: Offer)
    requires TxIs(s, byte, j) && (j < 160 || !offer.start)
    ensures TxIs(TxNext(s, tick, offer.start, offer.bits), byte, if tick && j < 160 then j + 1 else j)
    ensures TxNext(s, tick, offer.start, offer.bits).line == Level(byte, j)
  {
    hide Shifted;
    if 16 <= j < 144 { ShiftedOnce(byte, s.dataC); }
    ShiftedOnce(byte, 0);
  }

  function Least(a: nat, b: nat): nat {
    if a < b then a else b
  }

  /** The transmitter's state at a clock depends on the count of ticks alone, for as long as the frame
      lasts and after that until the next one is started. */
  lemma {:induction false} TxTrajectory(f: Frame, n: nat)
    requires Fresh(f)
    requires Ticks(f.first.txCount, f.txDvsr, n) < 160 || forall m: nat :: m < n ==> !f.offers(m).start
    ensures TxIs(At(f, n).tx, f.first.tx.data, Least(Ticks(f.first.txCount, f.txDvsr, n), 160))
    ensures n > 0 ==> At(f, n).tx.line == Level(f.first.tx.data, Ticks(f.first.txCount, f.txDvsr, n - 1))
  {
    hide TxIs, Level, TxNext, RxNext, BaudNext, Count;
    if n == 0 {
      TxStarts(f.first.tx);
    } else {
      var j := Ticks(f.first.txCount, f.txDvsr, n - 1);
      TxTrajectory(f, n - 1);
      Counters(f, n - 1);
      TxStep(At(f, n - 1).tx, f.first.tx.data, Least(j, 160), Tick(At(f, n - 1).txCount), f.offers(n - 1));
      LevelStays(f.first.tx.data, j);
    }
  }

  lemma TxStarts(s: TxState)
    requires s.state.Start? && s.tickC == 0
    ensures TxIs(s, s.data, 0)
  {
  }

  lemma LevelStays(byte: Byte, j: nat)
    ensures Level(byte, j) == Level(byte, Least(j, 160))
  {
  }

  /** A frame takes 160 ticks from the clock after it was loaded, and the transmitter reports it done
      at the last of them and not before. */
  lemma TxEnds(f: Frame, n: nat)
    requires Fresh(f) && n <= Wait(f.first.txCount, f.txDvsr) + Times(159, f.txDvsr + 1)
    ensures TxDone(At(f, n).tx, Tick(At(f, n).txCount))
            <==> n == Wait(f.first.txCount, f.txDvsr) + Times(159, f.txDvsr + 1)
  {
    hide Times;
    TicksBetween(f.first.txCount, f.txDvsr, n, 159);
    TickTimes(f.first.txCount, f.txDvsr, n);
    TxTrajectory(f, n);
    Counters(f, n);
    if n == Wait(f.first.txCount, f.txDvsr) + Times(159, f.txDvsr + 1) {
      TickAt(f.first.txCount, f.txDvsr, n, 159);
    }
  }

  /* ---- The receiver's side ---- */

  /** The receiver's counter when it leaves the idle state, two clocks after the frame was loaded. */
  function RxPhase(f: Frame): Divisor {
    Count(f.first.rxCount, f.rxDvsr, 2)
  }

  /** The clock of the receiver's tick number i, counting from 0. */
  function RxTickTime(f: Frame, i: nat): int {
    2 + Wait(RxPhase(f), f.rxDvsr) + Times(i, f.rxDvsr + 1)
  }

  function Sample(f: Frame, k: nat): bool {
    var t := RxTickTime(f, 16 * k + 23);
    t >= 0 && At(f, t).tx.line
  }

  function Samples(f: Frame, k: nat): (r: seq<bool>)
    ensures |r| == k
  {
    if k == 0 then [] else Samples(f, k - 1) + [Sample(f, k - 1)]
  }

  /** A register after k more bits have been shifted in. */
  function Shifting(data: Byte, bits: seq<bool>): Byte
    requires |bits| <= WIDTH
  {
    data[|bits|..] + bits
  }

  lemma ShiftingOnce(data: Byte, bits: seq<bool>, bit: bool)
    requires |bits| < WIDTH
    ensures Shifting(data, bits)[1..] + [bit] == Shifting(data, bits + [bit])
  {
  }

  /** The receiver's state after i ticks of a frame it started with dataC == d: it takes 8 - d bits. */
  ghost predicate RxIs(s: RxState, f: Frame, d: BitCount, i: nat) {
    if i < 8 then s.state.Start? && s.tickC == i && s.dataC == d && s.data == f.first.rx.data
    else if i < 136 - 16 * d then
      s.state.Data? && s.tickC == (i - 8) % 16 && s.dataC == d + (i - 8) / 16
      && s.data == Shifting(f.first.rx.data, Samples(f, (i - 8) / 16))
    else if i < 152 - 16 * d then
      s.state.Stop? && s.tickC == i - (136 - 16 * d) && s.dataC == WIDTH - 1
      && s.data == Shifting(f.first.rx.data, Samples(f, 8 - d))
    else false
  }

  lemma RxStep(s: RxState, f: Frame, d: BitCount, i: nat, tick: bool, serial: bool)
    requires RxIs(s, f, d, i) && i < 152 - 16 * d && !RxDone(s, tick)
    requires tick && 8 <= i < 136 - 16 * d && (i - 8) % 16 == 15 ==> serial == Sample(f, (i - 8) / 16)
    ensures RxIs(RxNext(s, tick, serial), f, d, if tick then i + 1 else i)
  {
    hide Shifting, Sample;
    if 8 <= i < 136 - 16 * d {
      ShiftingOnce(f.first.rx.data, Samples(f, (i - 8) / 16), serial);
    }
    if i < 8 { NothingShifted(f.first.rx.data); }
  }

  lemma NothingShifted(data: Byte)
    ensures Shifting(data, []) == data
  {
  }

  /** The receiver waits out the clock at which the line is still high and leaves the idle state at
      the next one. */
  lemma RxStarts(f: Frame)
    requires Fresh(f)
    ensures RxIs(At(f, 2).rx, f, f.first.rx.dataC, 0)
    ensures At(f, 0).rx.state.Idle? && At(f, 1).rx.state.Idle?
  {
    assert At(f, 0) == f.first;
    var l1 := At(f, 1);
    assert l1 == LinkNext(f.first, f.txDvsr, f.rxDvsr, f.offers(0));
    assert At(f, 2) == LinkNext(l1, f.txDvsr, f.rxDvsr, f.offers(1));
    assert l1.rx == f.first.rx && !l1.tx.line;
  }

  /** A counter observed from a later clock on. */
  lemma {:induction false} CountFrom(c: Divisor, d: Divisor, m: nat, n: nat)
    ensures Count(c, d, m + n) == Count(Count(c, d, m), d, n)
  {
    if n > 0 { CountFrom(c, d, m, n - 1); }
  }

  function RxTicks(f: Frame, n: nat): nat
    requires n >= 2
  {
    Ticks(RxPhase(f), f.rxDvsr, n - 2)
  }

  /** At its i-th tick the receiver stands at the clock RxTickTime gives. */
  lemma RxClock(f: Frame, n: nat)
    requires Fresh(f) && n >= 2
    ensures Tick(At(f, n).rxCount) ==> n == RxTickTime(f, RxTicks(f, n))
    ensures RxTicks(f, n + 1) == RxTicks(f, n) + (if Tick(At(f, n).rxCount) then 1 else 0)
  {
    hide Times, BaudNext, Wait, Tick, Count;
    TickTimes(f.first.rxCount, f.rxDvsr, 2);
    TickTimes(RxPhase(f), f.rxDvsr, n - 2);
    CountFrom(f.first.rxCount, f.rxDvsr, 2, n - 2);
    Counters(f, n);
  }

  /** The receiver's state at a clock, until it has finished the frame. */
  lemma {:induction false} RxTrajectory(f: Frame, n: nat)
    requires Fresh(f) && n >= 2 && RxTicks(f, n) < 152 - 16 * f.first.rx.dataC
    ensures RxIs(At(f, n).rx, f, f.first.rx.dataC, RxTicks(f, n))
  {
    hide RxIs, Sample, RxTickTime;
    var d := f.first.rx.dataC;
    if n == 2 {
      RxStarts(f);
    } else {
      RxClock(f, n - 1);
      RxTrajectory(f, n - 1);
      var i, l := RxTicks(f, n - 1), At(f, n - 1);
      DoneIsLast(l.rx, f, d, i, Tick(l.rxCount));
      if Tick(l.rxCount) && 8 <= i && (i - 8) % 16 == 15 {
        SampleNow(f, n - 1, (i - 8) / 16);
      }
      RxStep(l.rx, f, d, i, Tick(l.rxCount), l.tx.line);
    }
  }

  lemma SampleNow(f: Frame, n: nat, k: nat)
    requires n == RxTickTime(f, 16 * k + 23)
    ensures Sample(f, k) == At(f, n).tx.line
  {
    hide RxTickTime;
  }

  lemma DoneIsLast(s: RxState, f: Frame, d: BitCount, i: nat, tick: bool)
    requires RxIs(s, f, d, i)
    ensures RxDone(s, tick) <==> tick && i == 151 - 16 * d
    ensures i >= 136 - 16 * d ==> s.data == Shifting(f.first.rx.data, Samples(f, 8 - d)) && s.dataC == WIDTH - 1
  {
    hide Shifting, Sample;
  }

  /* ---- What is received ---- */

  /** The receiver first reports a byte at clock n. */
  ghost predicate Completes(f: Frame, n: nat) {
    RxDone(At(f, n).rx, Tick(At(f, n).rxCount))
    && forall m :: 0 <= m < n ==> !RxDone(At(f, m).rx, Tick(At(f, m).rxCount))
  }

  function DoneTime(f: Frame): int {
    RxTickTime(f, 151 - 16 * f.first.rx.dataC)
  }

  lemma NotDoneBefore(f: Frame, m: nat)
    requires Fresh(f) && m < DoneTime(f)
    ensures !RxDone(At(f, m).rx, Tick(At(f, m).rxCount))
  {
    hide RxIs, Times;
    if m < 2 {
      RxStarts(f);
    } else {
      var d: int := f.first.rx.dataC;
      TickTimes(f.first.rxCount, f.rxDvsr, 2);
      TicksBetween(RxPhase(f), f.rxDvsr, m - 2, 151 - 16 * d);
      RxTrajectory(f, m);
      RxClock(f, m);
      DoneIsLast(At(f, m).rx, f, d, RxTicks(f, m), Tick(At(f, m).rxCount));
    }
  }

  /** Whatever the line does, the receiver finishes, at a clock fixed by its own ticks, with the bits
      that were on the line at its sampling ticks shifted into its register. */
  lemma FrameEnds(f: Frame)
    requires Fresh(f)
    ensures DoneTime(f) >= 2 && Completes(f, DoneTime(f))
    ensures At(f, DoneTime(f)).rx.data == Shifting(f.first.rx.data, Samples(f, 8 - f.first.rx.dataC))
    ensures At(f, DoneTime(f)).rx.dataC == WIDTH - 1
  {
    hide RxIs, Times;
    var d: int, t: int := f.first.rx.dataC, DoneTime(f);
    TickTimes(f.first.rxCount, f.rxDvsr, 2);
    TimesStep(0, f.rxDvsr + 1);
    TimesOrder(0, 151 - 16 * d, f.rxDvsr + 1);
    TickAt(RxPhase(f), f.rxDvsr, t - 2, 151 - 16 * d);
    RxTrajectory(f, t);
    CountFrom(f.first.rxCount, f.rxDvsr, 2, t - 2);
    Counters(f, t);
    DoneIsLast(At(f, t).rx, f, d, RxTicks(f, t), true);
    forall m | 0 <= m < t ensures !RxDone(At(f, m).rx, Tick(At(f, m).rxCount)) {
      NotDoneBefore(f, m);
    }
  }
}
