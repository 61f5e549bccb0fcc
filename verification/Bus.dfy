/** The bus: hosts in order of priority, devices by address, responses one clock later. */
module Bus {
  type Address = bv32

  datatype Request = Request(req: bool, addr: Address, we: bool, be: bv4, wdata: bv32)
  datatype Response = Response(rvalid: bool, err: bool, rdata: bv32)
  datatype Window = Window(base: Address, mask: Address)

  const QUIET := Response(false, false, 0)
  const ERROR := Response(true, true, 0)
  const IDLE := Request(false, 0, false, 0, 0)

  /* ---- Selection ---- */

  predicate Matches(w: Window, addr: Address) {
    addr & !w.mask == w.base
  }

  /** The host selected: from the last to the first, each one that requests takes over. */
  function HostSel(hosts: seq<Request>, from: nat := 0): (h: nat)
    requires from <= |hosts|
    ensures from <= h <= |hosts| && (h < |hosts| ==> hosts[h].req)
    ensures forall i :: from <= i < h ==> !hosts[i].req
    decreases |hosts| - from
  {
    if from == |hosts| then |hosts|
    else if hosts[from].req then from
    else HostSel(hosts, from + 1)
  }

  /** The device selected: from the first to the last, each one whose window matches takes over. */
  function DevSel(devs: seq<Window>, addr: Address, upTo: nat): (d: nat)
    requires upTo <= |devs|
    ensures d < upTo || d == |devs|
    ensures d < upTo ==> Matches(devs[d], addr) && forall i :: d < i < upTo ==> !Matches(devs[i], addr)
    ensures d == |devs| ==> forall i :: 0 <= i < upTo ==> !Matches(devs[i], addr)
  {
    if upTo == 0 then |devs|
    else if Matches(devs[upTo - 1], addr) then upTo - 1
    else DevSel(devs, addr, upTo - 1)
  }

  /** No address lies in two windows. */
  ghost predicate Apart(devs: seq<Window>) {
    forall i, j, a: Address ::
      0 <= i < |devs| && 0 <= j < |devs| && Matches(devs[i], a) && Matches(devs[j], a) ==> i == j
  }

  /* ---- One clock ---- */

  /** The inputs of one clock. `spare` is the host an out-of-range selection reads, when none requests. */
  datatype Wires = Wires(hosts: seq<Request>, devs: seq<Response>, spare: nat)

  ghost predicate Plugged(windows: seq<Window>, w: Wires) {
    w.spare < |w.hosts| && |w.devs| == |windows|
  }

  function Selected(w: Wires): Request
    requires w.spare < |w.hosts|
  {
    var h := HostSel(w.hosts);
    if h < |w.hosts| then w.hosts[h] else w.hosts[w.spare]
  }

  function Target(windows: seq<Window>, w: Wires): (d: nat)
    requires w.spare < |w.hosts|
    ensures d <= |windows|
  {
    DevSel(windows, Selected(w).addr, |windows|)
  }

  predicate Granted(w: Wires, h: nat) {
    h < |w.hosts| && h == HostSel(w.hosts) && w.hosts[h].req
  }

  /** What device d is asked. */
  function DevRequest(windows: seq<Window>, w: Wires, d: nat): Request
    requires w.spare < |w.hosts| && d < |windows|
  {
    if d == Target(windows, w) then Selected(w) else IDLE
  }

  /** What host h is answered. */
  function HostResponse(hostSelResp: nat, devSelResp: nat, w: Wires, h: nat): Response {
    if h != hostSelResp then QUIET
    else if devSelResp < |w.devs| then w.devs[devSelResp]
    else ERROR
  }

  /** At most one host is granted, the first that requests, and some host is if any requests. */
  lemma OneGrant(w: Wires)
    ensures forall h: nat :: Granted(w, h) <==>
              h < |w.hosts| && w.hosts[h].req && forall i :: 0 <= i < h ==> !w.hosts[i].req
    ensures (exists h: nat :: Granted(w, h)) <==> exists i: nat :: i < |w.hosts| && w.hosts[i].req
  {
    var s := HostSel(w.hosts);
    if s < |w.hosts| { assert Granted(w, s); }
  }

  /** A granted request reaches the device whose window holds its address, unchanged, and no other. */
  lemma Routed(windows: seq<Window>, w: Wires, h: nat, d: nat)
    requires Plugged(windows, w) && Apart(windows) && Granted(w, h) && d < |windows|
    ensures DevRequest(windows, w, d)
            == if Matches(windows[d], w.hosts[h].addr) then w.hosts[h] else Request(false, 0, false, 0, 0)
    ensures Target(windows, w) == d <==> Matches(windows[d], w.hosts[h].addr)
  {
  }

  /** Without a grant no device is asked anything. */
  lemma NothingRouted(windows: seq<Window>, w: Wires, d: nat)
    requires Plugged(windows, w) && d < |windows| && forall h: nat :: !Granted(w, h)
    ensures !DevRequest(windows, w, d).req
  {
    var s := HostSel(w.hosts);
    if s < |w.hosts| { assert Granted(w, s); }
  }

  /* ---- The module ---- */

  class SimpleBus {
    const windows: seq<Window>
    var hostSelResp: nat
    var devSelResp: nat

    constructor (windows: seq<Window>)
      ensures this.windows == windows && hostSelResp == 0 && devSelResp == 0
    {
      this.windows, hostSelResp, devSelResp := windows, 0, 0;
    }

    /** Answers the hosts for the clock before, grants one of them and passes its request on. */
    method Clock(w: Wires) returns (grants: seq<bool>, asked: seq<Request>, answers: seq<Response>)
      requires Plugged(windows, w)
      modifies this
      ensures hostSelResp == HostSel(w.hosts) && devSelResp == Target(windows, w)
      ensures |grants| == |w.hosts| && forall h :: 0 <= h < |grants| ==> grants[h] == Granted(w, h)
      ensures |asked| == |windows| && forall d :: 0 <= d < |asked| ==> asked[d] == DevRequest(windows, w, d)
      ensures |answers| == |w.hosts|
      ensures forall h :: 0 <= h < |answers| ==> answers[h] == HostResponse(old(hostSelResp), old(devSelResp), w, h)
    {
      var hostSelReq := HostSel(w.hosts);
      var request := Selected(w);
      var devSelReq := DevSel(windows, request.addr, |windows|);
      grants, asked, answers := [], [], [];
      for d := 0 to |windows|
        invariant |asked| == d && forall i :: 0 <= i < d ==> asked[i] == DevRequest(windows, w, i)
      {
        asked := asked + [if d == devSelReq then request else IDLE];
      }
      for h := 0 to |w.hosts|
        invariant |answers| == |grants| == h && forall i :: 0 <= i < h ==> grants[i] == Granted(w, i)
        invariant forall i :: 0 <= i < h ==> answers[i] == HostResponse(hostSelResp, devSelResp, w, i)
      {
        var answer := QUIET;
        if h == hostSelResp {
          if devSelResp >= |windows| { answer := ERROR; } else { answer := w.devs[devSelResp]; }
        }
        answers := answers + [answer];
        grants := grants + [h == hostSelReq && request.req];
      }
      hostSelResp, devSelResp := hostSelReq, devSelReq;
    }
  }

  /* ---- Runs ---- */

  /** The clock after w: the registers hold w's selections. */
  function Answer(windows: seq<Window>, w: Wires, next: Wires, h: nat): Response
    requires w.spare < |w.hosts|
  {
    HostResponse(HostSel(w.hosts), Target(windows, w), next, h)
  }

  /** Every device answers in the clock after it was asked, and only then. */
  ghost predicate Prompt(windows: seq<Window>, w: Wires, next: Wires)
    requires w.spare < |w.hosts|
  {
    |next.devs| == |windows|
    && forall d :: 0 <= d < |windows| ==> (next.devs[d].rvalid <==> DevRequest(windows, w, d).req)
  }

  ghost predicate Run(windows: seq<Window>, ws: seq<Wires>) {
    (forall t :: 0 <= t < |ws| ==> Plugged(windows, ws[t]))
    && forall t :: 0 < t < |ws| ==> Prompt(windows, ws[t - 1], ws[t])
  }

  /** A host is answered exactly when it was granted one clock before: by the device its request went
      to, or with an error when its address lies in no window. */
  lemma AnsweredNextClock(windows: seq<Window>, w: Wires, next: Wires, h: nat)
    requires Plugged(windows, w) && Prompt(windows, w, next) && Apart(windows) && h < |w.hosts|
    ensures Answer(windows, w, next, h).rvalid <==> Granted(w, h)
    ensures Granted(w, h) && (forall d :: 0 <= d < |windows| ==> !Matches(windows[d], w.hosts[h].addr)) ==>
              Answer(windows, w, next, h) == Response(true, true, 0)
    ensures !Granted(w, h) ==> Answer(windows, w, next, h) == Response(false, false, 0)
    ensures forall d :: Granted(w, h) && 0 <= d < |windows| && Matches(windows[d], w.hosts[h].addr) ==>
              Answer(windows, w, next, h) == next.devs[d]
  {
    var d := Target(windows, w);
    if d < |windows| { assert next.devs[d].rvalid <==> DevRequest(windows, w, d).req; }
  }

  ghost function Grants(ws: seq<Wires>, h: nat): nat {
    if |ws| == 0 then 0
    else Grants(ws[..|ws| - 1], h) + if Granted(ws[|ws| - 1], h) then 1 else 0
  }

  /** The responses a host sees after the first clock of a run. */
  ghost function Answers(windows: seq<Window>, ws: seq<Wires>, h: nat): nat
    requires Run(windows, ws)
  {
    if |ws| < 2 then 0
    else
      var n := |ws| - 1;
      Answers(windows, ws[..n], h) + if Answer(windows, ws[n - 1], ws[n], h).rvalid then 1 else 0
  }

  /** On every run each grant is answered exactly once: the responses a host has seen are the grants it
      had been given a clock ago. */
  lemma {:induction false} EveryGrantIsAnswered(windows: seq<Window>, ws: seq<Wires>, h: nat)
    requires Run(windows, ws) && Apart(windows) && |ws| > 0 && forall t :: 0 <= t < |ws| ==> h < |ws[t].hosts|
    ensures Answers(windows, ws, h) == Grants(ws[..|ws| - 1], h)
    decreases |ws|
  {
    hide Granted, Answer, Prompt;
    var n := |ws| - 1;
    if n > 0 {
      EveryGrantIsAnswered(windows, ws[..n], h);
      assert ws[..n][..n - 1] == ws[..n - 1];
      assert Prompt(windows, ws[n - 1], ws[n]);
      AnsweredNextClock(windows, ws[n - 1], ws[n], h);
    }
  }

  /* ---- The system's own windows ---- */

  const RAM := Window(0x100000, 0x7fff)
  const TIMER := Window(0x10000, 0x3ff)
  const GPIO := Window(0x20000, 0x3ff)
  const UART := Window(0x30000, 0x3ff)

  lemma RamInterval(a: Address)
    ensures Matches(RAM, a) <==> 0x100000 <= a < 0x108000
  {
    assert !RAM.mask == 0xffff8000;
  }

  lemma TimerInterval(a: Address)
    ensures Matches(TIMER, a) <==> 0x10000 <= a < 0x10400
  {
    assert !TIMER.mask == 0xfffffc00;
  }

  lemma GpioInterval(a: Address)
    ensures Matches(GPIO, a) <==> 0x20000 <= a < 0x20400
  {
    assert !GPIO.mask == 0xfffffc00;
  }

  lemma UartInterval(a: Address)
    ensures Matches(UART, a) <==> 0x30000 <= a < 0x30400
  {
    assert !UART.mask == 0xfffffc00;
  }

  /** The four devices' windows are the intervals they are meant to be, and apart. */
  lemma SocWindows()
    ensures Apart([RAM, TIMER, GPIO, UART])
    ensures forall a: Address :: Matches(RAM, a) <==> 0x100000 <= a < 0x108000
    ensures forall a: Address :: Matches(TIMER, a) <==> 0x10000 <= a < 0x10400
    ensures forall a: Address :: Matches(GPIO, a) <==> 0x20000 <= a < 0x20400
    ensures forall a: Address :: Matches(UART, a) <==> 0x30000 <= a < 0x30400
  {
    hide Matches;
    forall a: Address
      ensures Matches(RAM, a) <==> 0x100000 <= a < 0x108000
      ensures Matches(TIMER, a) <==> 0x10000 <= a < 0x10400
      ensures Matches(GPIO, a) <==> 0x20000 <= a < 0x20400
      ensures Matches(UART, a) <==> 0x30000 <= a < 0x30400
    {
      RamInterval(a);
      TimerInterval(a);
      GpioInterval(a);
      UartInterval(a);
    }
  }
}
