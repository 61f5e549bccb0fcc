/** The serial port: a baud generator, a transmitter and a receiver between two FIFOs. */
module UartBlocks {
  import opened Serial
  import Fifos

  datatype State = State(baud: Divisor, tx: TxState, txFifo: Fifos.State<Byte>, rx: RxState, rxFifo: Fifos.State<Byte>)

  /** The inputs of one clock. */
  datatype Pins = Pins(dvsr: Divisor, rd: bool, wr: bool, bits: Byte, serial: bool)

  predicate InRange(u: State) {
    Fifos.InRange(u.txFifo) && Fifos.InRange(u.rxFifo)
  }

  function Front(f: Fifos.State<Byte>): Byte
    requires Fifos.InRange(f)
  {
    f.regs[f.rPtr]
  }

  predicate Sent(u: State) {
    TxDone(u.tx, Tick(u.baud))
  }

  predicate Received(u: State) {
    RxDone(u.rx, Tick(u.baud))
  }

  /** One clock. */
  function Next(u: State, p: Pins): (v: State)
    requires InRange(u)
    ensures InRange(v)
  {
    State(BaudNext(u.baud, p.dvsr),
          TxNext(u.tx, Tick(u.baud), !u.txFifo.empty, Front(u.txFifo)),
          Fifos.Next(u.txFifo, Fifos.Request(Sent(u), p.wr, p.bits)),
          RxNext(u.rx, Tick(u.baud), p.serial),
          Fifos.Next(u.rxFifo, Fifos.Request(p.rd, Received(u), u.rx.data)))
  }

  /* ---- Runs and their history ---- */

  ghost function After(u: State, ps: seq<Pins>): (v: State)
    requires InRange(u)
    ensures InRange(v)
  {
    if |ps| == 0 then u else Next(After(u, ps[..|ps| - 1]), ps[|ps| - 1])
  }

  /** The bytes written into the transmit FIFO, those whose frames the transmitter has completed, and
      the one it loaded last. */
  datatype Sending = Sending(written: seq<Byte>, completed: seq<Byte>, loaded: Byte)

  ghost function SendingNext(h: Sending, u: State, p: Pins): Sending
    requires InRange(u)
  {
    Sending(if p.wr then h.written + [p.bits] else h.written,
            if Sent(u) then h.completed + [h.loaded] else h.completed,
            if u.tx.state.Idle? && !u.txFifo.empty then Front(u.txFifo) else h.loaded)
  }

  ghost function SendingAfter(u: State, ps: seq<Pins>): Sending
    requires InRange(u)
  {
    if |ps| == 0 then Sending([], [], u.tx.data)
    else SendingNext(SendingAfter(u, ps[..|ps| - 1]), After(u, ps[..|ps| - 1]), ps[|ps| - 1])
  }

  /** The user writes only while tx_full is low, as uart_tx does. */
  ghost predicate WritesWithRoom(u: State, ps: seq<Pins>)
    requires InRange(u)
  {
    |ps| == 0 || (WritesWithRoom(u, ps[..|ps| - 1])
                  && (ps[|ps| - 1].wr ==> !After(u, ps[..|ps| - 1]).txFifo.full))
  }

  /** How many ticks into its frame the transmitter is. */
  function Progress(s: TxState): nat {
    match s.state
    case Idle => 160
    case Start => s.tickC
    case Data => 16 + 16 * s.dataC + s.tickC
    case Stop => 144 + s.tickC
  }

  /** Nothing is lost, repeated or reordered; the byte on the line is the front of the FIFO. */
  ghost predicate InOrder(h: Sending, u: State) {
    Fifos.Valid(u.txFifo)
    && h.written == h.completed + Fifos.Contents(u.txFifo)
    && TxIs(u.tx, h.loaded, Progress(u.tx))
    && (!u.tx.state.Idle? ==> !u.txFifo.empty && Fifos.Contents(u.txFifo)[0] == h.loaded)
  }

  lemma ProgressStep(s: TxState, byte: Byte, tick: bool, start: bool, bits: Byte)
    requires TxIs(s, byte, Progress(s))
    ensures var t := TxNext(s, tick, start, bits);
            TxIs(t, if s.state.Idle? && start then bits else byte, Progress(t))
            && (t.state.Idle? <==> TxDone(s, tick) || (s.state.Idle? && !start))
  {
    hide Shifted;
    if s.state.Data? || s.state.Start? {
      ShiftedOnce(byte, s.dataC);
      ShiftedOnce(byte, 0);
    }
  }

  lemma FifoStep(f: Fifos.State<Byte>, r: Fifos.Request<Byte>)
    requires Fifos.Valid(f) && (r.rd ==> !f.empty) && (r.wr ==> !f.full)
    ensures Fifos.Valid(Fifos.Next(f, r))
    ensures (if r.rd then [Front(f)] else []) + Fifos.Contents(Fifos.Next(f, r))
            == Fifos.Contents(f) + (if r.wr then [r.wdata] else [])
    ensures !f.empty && !r.rd ==> !Fifos.Next(f, r).empty && Fifos.Contents(Fifos.Next(f, r))[0] == Fifos.Contents(f)[0]
  {
    hide Fifos.Contents, Fifos.Next;
    Fifos.NextContents(f, r);
    Fifos.Flags(f);
    Fifos.Flags(Fifos.Next(f, r));
    var q := Fifos.Contents(f);
    assert |q| > 0 ==> q == [q[0]] + q[1..];
  }

  lemma StepInOrder(h: Sending, u: State, p: Pins)
    requires InRange(u) && InOrder(h, u) && (p.wr ==> !u.txFifo.full)
    ensures InOrder(SendingNext(h, u, p), Next(u, p))
    ensures Sent(u) ==> !u.txFifo.empty && Front(u.txFifo) == h.loaded
  {
    hide TxIs, Progress, Fifos.Contents, Fifos.Next, TxNext;
    var g, v := SendingNext(h, u, p), Next(u, p);
    Fifos.Flags(u.txFifo);
    ProgressStep(u.tx, h.loaded, Tick(u.baud), !u.txFifo.empty, Front(u.txFifo));
    FifoStep(u.txFifo, Fifos.Request(Sent(u), p.wr, p.bits));
    Histories(h.written, h.completed, Fifos.Contents(u.txFifo), Fifos.Contents(v.txFifo),
              if p.wr then [p.bits] else [], if Sent(u) then [h.loaded] else []);
    assert g.written == h.written + (if p.wr then [p.bits] else []);
    assert g.completed == h.completed + (if Sent(u) then [h.loaded] else []);
  }

  lemma Histories<T>(all: seq<T>, out: seq<T>, q: seq<T>, q': seq<T>, more: seq<T>, gone: seq<T>)
    requires all == out + q && gone + q' == q + more
    ensures all + more == (out + gone) + q'
  {
    assert all + more == out + (q + more) && (out + gone) + q' == out + (gone + q');
  }

  /** On every run, from reset, of writes made only while tx_full is low: the bytes written are the
      bytes completed and then those in the FIFO; and whenever the transmitter is busy the FIFO is not
      empty and its front is the byte being shifted out, so a completed frame never pops an empty FIFO
      or a byte other than its own. */
  lemma {:induction false} TransmitOrder(u: State, ps: seq<Pins>)
    requires InRange(u) && u.tx.state.Idle? && u.txFifo == Fifos.Reset(u.txFifo.regs) && WritesWithRoom(u, ps)
    ensures InOrder(SendingAfter(u, ps), After(u, ps))
    ensures Sent(After(u, ps)) ==>
              !After(u, ps).txFifo.empty && Front(After(u, ps).txFifo) == SendingAfter(u, ps).loaded
  {
    hide InOrder, Next, SendingNext;
    if |ps| == 0 {
      Begins(u);
    } else {
      var n := |ps| - 1;
      TransmitOrder(u, ps[..n]);
      StepInOrder(SendingAfter(u, ps[..n]), After(u, ps[..n]), ps[n]);
    }
    SentFront(SendingAfter(u, ps), After(u, ps));
  }

  lemma Begins(u: State)
    requires InRange(u) && u.tx.state.Idle? && u.txFifo == Fifos.Reset(u.txFifo.regs)
    ensures InOrder(Sending([], [], u.tx.data), u)
  {
    Fifos.Flags(u.txFifo);
  }

  lemma SentFront(h: Sending, u: State)
    requires InRange(u) && InOrder(h, u)
    ensures Sent(u) ==> !u.txFifo.empty && Front(u.txFifo) == h.loaded
  {
    hide TxIs, Fifos.Contents;
    Fifos.Flags(u.txFifo);
  }

  /* ---- Receiving ---- */

  /** The bytes the receiver has reported and those the user has taken. */
  datatype Receiving = Receiving(reported: seq<Byte>, taken: seq<Byte>)

  ghost function ReceivingAfter(u: State, ps: seq<Pins>): Receiving
    requires InRange(u)
  {
    if |ps| == 0 then Receiving([], [])
    else
      var h, v, p := ReceivingAfter(u, ps[..|ps| - 1]), After(u, ps[..|ps| - 1]), ps[|ps| - 1];
      Receiving(if Received(v) then h.reported + [v.rx.data] else h.reported,
                if p.rd then h.taken + [Front(v.rxFifo)] else h.taken)
  }

  /** The user reads only while rx_empty is low, as uart_rx does, and no byte is reported while the
      FIFO is full. */
  ghost predicate ReadsInTime(u: State, ps: seq<Pins>)
    requires InRange(u)
  {
    |ps| == 0
    || (var v := After(u, ps[..|ps| - 1]);
        ReadsInTime(u, ps[..|ps| - 1]) && (ps[|ps| - 1].rd ==> !v.rxFifo.empty) && (Received(v) ==> !v.rxFifo.full))
  }

  /** On every such run the bytes reported are the bytes taken and then those in the FIFO. */
  lemma {:induction false} ReceiveOrder(u: State, ps: seq<Pins>)
    requires InRange(u) && u.rxFifo == Fifos.Reset(u.rxFifo.regs) && ReadsInTime(u, ps)
    ensures Fifos.Valid(After(u, ps).rxFifo)
    ensures var h := ReceivingAfter(u, ps); h.reported == h.taken + Fifos.Contents(After(u, ps).rxFifo)
  {
    hide Fifos.Contents, Fifos.Next, RxNext, TxNext;
    if |ps| == 0 {
      Fifos.Flags(u.rxFifo);
    } else {
      var n := |ps| - 1;
      var h, v, p := ReceivingAfter(u, ps[..n]), After(u, ps[..n]), ps[n];
      ReceiveOrder(u, ps[..n]);
      Fifos.Flags(v.rxFifo);
      FifoStep(v.rxFifo, Fifos.Request(p.rd, Received(v), v.rx.data));
      Histories(h.reported, h.taken, Fifos.Contents(v.rxFifo), Fifos.Contents(Next(v, p).rxFifo),
                if Received(v) then [v.rx.data] else [], if p.rd then [Front(v.rxFifo)] else []);
      assert ReceivingAfter(u, ps).reported == h.reported + (if Received(v) then [v.rx.data] else []);
      assert ReceivingAfter(u, ps).taken == h.taken + (if p.rd then [Front(v.rxFifo)] else []);
    }
  }

  /* ---- The modules ---- */

  const ZERO: Byte := [false, false, false, false, false, false, false, false]

  class Baud {
    var count: Divisor

    constructor ()
      ensures count == 0
    {
      count := 0;
    }

    method Clock(dvsr: Divisor) returns (tick: bool)
      modifies this
      ensures tick == Tick(old(count)) && count == BaudNext(old(count), dvsr)
    {
      tick := count == 1;
      if count == dvsr { count := 0; } else { count := (count + 1) % DIVISORS; }
    }
  }

  class Tx {
    var state: Phase
    var data: Byte
    var tickC: TickCount
    var dataC: BitCount
    var tx: bool

    function Now(): TxState
      reads this
    {
      TxState(state, data, tickC, dataC, tx)
    }

    constructor ()
      ensures Now() == TxState(Idle, ZERO, 0, 0, false)
    {
      state, data, tickC, dataC, tx := Idle, ZERO, 0, 0, false;
    }

    method Clock(start: bool, tick: bool, bits: Byte) returns (done: bool)
      modifies this
      ensures done == TxDone(old(Now()), tick) && Now() == TxNext(old(Now()), tick, start, bits)
    {
      done := false;
      match state
      case Idle =>
        tx := true;
        if start {
          state, tickC, data := Start, 0, bits;
        }
      case Start =>
        tx := false;
        if tick {
          if tickC == OVERSAMPLE - 1 {
            state, tickC, dataC := Data, 0, 0;
          } else {
            tickC := tickC + 1;
          }
        }
      case Data =>
        tx := data[0];
        if tick {
          if tickC == OVERSAMPLE - 1 {
            tickC, data := 0, data[1..] + [false];
            if dataC == WIDTH - 1 { state := Stop; } else { dataC := dataC + 1; }
          } else {
            tickC := tickC + 1;
          }
        }
      case Stop =>
        tx := true;
        if tick {
          if tickC == OVERSAMPLE - 1 {
            state := Idle;
            done := true;
          } else {
            tickC := tickC + 1;
          }
        }
    }
  }

  class Rx {
    var state: Phase
    var data: Byte
    var tickC: TickCount
    var dataC: BitCount

    function Now(): RxState
      reads this
    {
      RxState(state, data, tickC, dataC)
    }

    constructor ()
      ensures Now() == RxState(Idle, ZERO, 0, 0)
    {
      state, data, tickC, dataC := Idle, ZERO, 0, 0;
    }

    method Clock(tick: bool, serial: bool) returns (done: bool)
      modifies this
      ensures done == RxDone(old(Now()), tick) && Now() == RxNext(old(Now()), tick, serial)
    {
      done := false;
      match state
      case Idle =>
        if !serial {
          state, tickC := Start, 0;
        }
      case Start =>
        if tick {
          if tickC == OVERSAMPLE / 2 - 1 {
            tickC, state := 0, Data;
          } else {
            tickC := (tickC + 1) % OVERSAMPLE;
          }
        }
      case Data =>
        if tick {
          if tickC == OVERSAMPLE - 1 {
            tickC, data := 0, data[1..] + [serial];
            if dataC == WIDTH - 1 { state := Stop; } else { dataC := dataC + 1; }
          } else {
            tickC := tickC + 1;
          }
        }
      case Stop =>
        if tick {
          if tickC == OVERSAMPLE - 1 {
            state := Idle;
            done := true;
          } else {
            tickC := tickC + 1;
          }
        }
    }
  }

  class UartBlock {
    const baud: Baud
    const txer: Tx
    const rxer: Rx
    const txFifo: Fifos.Fifo<Byte>
    const rxFifo: Fifos.Fifo<Byte>

    ghost function Parts(): set<object>
      reads this, txFifo, rxFifo
    {
      {baud, txer, rxer, txFifo, txFifo.regs, rxFifo, rxFifo.regs}
    }

    function Now(): State
      reads this, Parts()
    {
      State(baud.count, txer.Now(), txFifo.Now(), rxer.Now(), rxFifo.Now())
    }

    ghost predicate Valid()
      reads this, Parts()
    {
      txFifo != rxFifo && txFifo.regs != rxFifo.regs
      && Fifos.Valid(txFifo.Now()) && Fifos.Valid(rxFifo.Now())
    }

    constructor (fifow: nat)
      requires fifow >= 1
      ensures Valid() && fresh(Parts())
      ensures var u := Now();
              u.baud == 0 && u.tx == TxState(Idle, ZERO, 0, 0, false) && u.rx == RxState(Idle, ZERO, 0, 0)
              && u.txFifo == Fifos.Reset(u.txFifo.regs) && u.rxFifo == Fifos.Reset(u.rxFifo.regs)
    {
      var b := new Baud();
      var t := new Tx();
      var r := new Rx();
      var tf := new Fifos.Fifo<Byte>(fifow, ZERO);
      var rf := new Fifos.Fifo<Byte>(fifow, ZERO);
      baud, txer, rxer, txFifo, rxFifo := b, t, r, tf, rf;
    }

    /** One clock of every part, on the wires as they stood before it. */
    method Clock(p: Pins)
      requires Valid()
      modifies Parts()
      ensures Valid() && txFifo.regs == old(txFifo.regs) && rxFifo.regs == old(rxFifo.regs)
      ensures Now() == Next(old(Now()), p)
    {
      hide Fifos.Next, Fifos.Valid, TxNext, RxNext, BaudNext, TxDone, RxDone, Tick;
      Fifos.ValidParts(txFifo.Now());
      Fifos.ValidParts(rxFifo.Now());
      var start, bits, data := !txFifo.empty, txFifo.Rdata(), rxer.data;
      var tick := baud.Clock(p.dvsr);
      var sent := txer.Clock(start, tick, bits);
      var received := rxer.Clock(tick, p.serial);
      txFifo.Clock(sent, p.wr, p.bits);
      rxFifo.Clock(p.rd, received, data);
    }
  }
}
