/** The 16-bit CRC: the byte loop, its polynomial step over single bits, and the error bursts it
    is bound to detect. */
module Crc {
  const POLY: bv16 := 0xa001

  function Odd(x: bv16): (r: bool) {
    x & 1 != 0
  }

  function Half(x: bv16): (r: bv16) {
    x >> 1
  }

  function Xor(x: bv16, y: bv16): (r: bv16) {
    x ^ y
  }

  function Feedback(on: bool): (r: bv16) {
    if on then POLY else 0
  }

  /** One bit into the right-shifting register: the bit leaving the register and the message bit
      decide whether the polynomial is fed back. */
  function Step(crc: bv16, bit: bool): (r: bv16) {
    Xor(Half(crc), Feedback(Odd(crc) != bit))
  }

  function Steps(crc: bv16, bits: seq<bool>): (r: bv16)
    decreases |bits|
  {
    if |bits| == 0 then crc else Steps(Step(crc, bits[0]), bits[1..])
  }

  /** The byte after i right shifts. */
  function Shifted(data: bv8, i: nat): (r: bv8)
    decreases i
  {
    if i == 0 then data else Shifted(data, i - 1) >> 1
  }

  function LowBit(data: bv8): (r: bool) {
    data & 1 != 0
  }

  /** The bits of a byte, least significant first. */
  function ByteBits(data: bv8): (r: seq<bool>)
    ensures |r| == 8
    ensures forall i :: 0 <= i < 8 ==> r[i] == LowBit(Shifted(data, i))
  {
    seq(8, i requires 0 <= i < 8 => LowBit(Shifted(data, i)))
  }

  /** The order in which a message of bytes is processed. */
  function MessageBits(message: seq<bv8>): (r: seq<bool>)
    decreases |message|
  {
    if |message| == 0 then [] else ByteBits(message[0]) + MessageBits(message[1..])
  }

  function Crc8(data: bv8, crc: bv16): (r: bv16) {
    Steps(crc, ByteBits(data))
  }

  function Low(v: bv16): bv8 { (v & 0xff) as bv8 }
  function High(v: bv16): bv8 { (v >> 8) as bv8 }

  lemma LowAndHigh(v: bv16)
    ensures v == 256 * (High(v) as bv16) + Low(v) as bv16
  {
  }

  /** Half words go low byte first. */
  function Crc16(v: bv16, crc: bv16): (r: bv16) {
    Crc8(High(v), Crc8(Low(v), crc))
  }

  /** Words go low half first. */
  function Crc32(v: bv32, crc: bv16): (r: bv16) {
    Crc16(HighHalf(v), Crc16(LowHalf(v), crc))
  }

  lemma FedBack(crc: bv16)
    ensures ((crc ^ 0x4002) >> 1) | 0x8000 == Xor(Half(crc), POLY)
  {
  }

  lemma NotFedBack(crc: bv16)
    ensures (crc >> 1) & 0x7fff == Xor(Half(crc), 0)
  {
  }

  lemma FeedbackBit(crc: bv16, d: bv8)
    ensures (d & 1) ^ ((crc & 0xff) as bv8 & 1) == 1 <==> Odd(crc) != (d & 1 != 0)
  {
  }

  /** The loop body of the byte routine: the carry is put back by hand after the shift. */
  method StepByHand(data: bv8, crc: bv16) returns (r: bv16)
    ensures r == Step(crc, LowBit(data))
  {
    hide Xor, Half, Odd;
    FedBack(crc);
    NotFedBack(crc);
    FeedbackBit(crc, data);
    var x16 := (data & 1) ^ ((crc & 0xff) as bv8 & 1);
    if x16 == 1 {
      r := ((crc ^ 0x4002) >> 1) | 0x8000;
    } else {
      r := (crc >> 1) & 0x7fff;
    }
  }

  method CrcU8(data: bv8, crc: bv16) returns (r: bv16)
    ensures r == Crc8(data, crc)
  {
    hide Step, LowBit;
    var d := data;
    r := crc;
    var i := 0;
    while i < 8
      invariant 0 <= i <= 8
      invariant d == Shifted(data, i)
      invariant Steps(r, ByteBits(data)[i..]) == Steps(crc, ByteBits(data))
    {
      r := StepByHand(d, r);
      d := d >> 1;
      i := i + 1;
    }
  }

  method CrcU16(v: bv16, crc: bv16) returns (r: bv16)
    ensures r == Crc16(v, crc)
  {
    r := CrcU8((v & 0xff) as bv8, crc);
    r := CrcU8((v >> 8) as bv8, r);
  }

  method CrcU32(v: bv32, crc: bv16) returns (r: bv16)
    ensures r == Crc32(v, crc)
  {
    hide Crc16;
    r := CrcU16((v & 0xffff) as bv16, crc);
    r := CrcU16((v >> 16) as bv16, r);
  }

  /* ---- Messages ---- */

  lemma {:induction false} StepsConcat(crc: bv16, a: seq<bool>, b: seq<bool>)
    ensures Steps(crc, a + b) == Steps(Steps(crc, a), b)
    decreases |a|
  {
    hide Step;
    if |a| == 0 {
      assert a + b == b;
    } else {
      assert (a + b)[1..] == a[1..] + b;
      StepsConcat(Step(crc, a[0]), a[1..], b);
    }
  }

  /** Chained calls process one message: the low byte of a half word, then the high byte. */
  lemma Crc16IsMessage(v: bv16, crc: bv16)
    ensures Crc16(v, crc) == Steps(crc, MessageBits([Low(v), High(v)]))
  {
    hide Steps, ByteBits;
    StepsConcat(crc, ByteBits(Low(v)), ByteBits(High(v)));
    assert [Low(v), High(v)][1..] == [High(v)];
    assert MessageBits([High(v)]) == ByteBits(High(v)) + MessageBits([High(v)][1..]);
    assert ByteBits(High(v)) + [] == ByteBits(High(v));
  }

  lemma {:induction false} MessageConcat(a: seq<bv8>, b: seq<bv8>)
    ensures MessageBits(a + b) == MessageBits(a) + MessageBits(b)
    decreases |a|
  {
    hide ByteBits;
    if |a| == 0 {
      assert a + b == b;
    } else {
      assert (a + b)[1..] == a[1..] + b;
      MessageConcat(a[1..], b);
    }
  }

  /** The bytes of a half word and of a word, in the order they are processed. */
  function HalfBytes(v: bv16): seq<bv8> {
    [Low(v), High(v)]
  }

  function LowHalf(v: bv32): bv16 { (v & 0xffff) as bv16 }
  function HighHalf(v: bv32): bv16 { (v >> 16) as bv16 }

  lemma WordHalves(v: bv32)
    ensures v == 0x1_0000 * (HighHalf(v) as bv32) + LowHalf(v) as bv32
  {
  }

  function WordBytes(v: bv32): seq<bv8> {
    HalfBytes(LowHalf(v)) + HalfBytes(HighHalf(v))
  }

  /** A word is a message of its four bytes, least significant first. */
  lemma Crc32IsMessage(v: bv32, crc: bv16)
    ensures Crc32(v, crc) == Steps(crc, MessageBits(WordBytes(v)))
  {
    hide Steps, MessageBits, Low, High, LowHalf, HighHalf, Crc16;
    var low, high := HalfBytes(LowHalf(v)), HalfBytes(HighHalf(v));
    Crc16IsMessage(LowHalf(v), crc);
    Crc16IsMessage(HighHalf(v), Crc16(LowHalf(v), crc));
    MessageConcat(low, high);
    StepsConcat(crc, MessageBits(low), MessageBits(high));
  }

  /** Words fed one after another are one message. */
  lemma WordsAreMessage(v: bv32, w: bv32, crc: bv16)
    ensures Crc32(w, Crc32(v, crc)) == Steps(crc, MessageBits(WordBytes(v) + WordBytes(w)))
  {
    hide Steps, MessageBits, WordBytes, Crc32;
    Crc32IsMessage(v, crc);
    Crc32IsMessage(w, Crc32(v, crc));
    MessageConcat(WordBytes(v), WordBytes(w));
    StepsConcat(crc, MessageBits(WordBytes(v)), MessageBits(WordBytes(w)));
  }

  /* ---- The step is a bijection ---- */

  /** Since the polynomial's top bit is set, the top bit of the result says whether it was fed back. */
  function Unstep(crc: bv16, bit: bool): (r: bv16) {
    var fed := crc & 0x8000 != 0;
    Double(Xor(crc, Feedback(fed)), fed != bit)
  }

  function Double(x: bv16, low: bool): (r: bv16) {
    (x << 1) | (if low then 1 else 0)
  }

  lemma DoubleHalf(x: bv16)
    ensures Double(Half(x), Odd(x)) == x
  {
  }

  lemma HalfDouble(x: bv16, low: bool)
    requires x & 0x8000 == 0
    ensures Half(Double(x, low)) == x && (Odd(Double(x, low)) <==> low)
  {
  }

  lemma TopBitFed(x: bv16)
    ensures ((x >> 1) ^ POLY) & 0x8000 != 0 && ((x >> 1) ^ POLY) ^ POLY == x >> 1
  {
  }

  lemma TopBitIdle(x: bv16)
    ensures ((x >> 1) ^ 0) & 0x8000 == 0 && ((x >> 1) ^ 0) ^ 0 == x >> 1
  {
  }

  lemma TopBit(x: bv16, on: bool)
    ensures Xor(Half(x), Feedback(on)) & 0x8000 != 0 <==> on
    ensures Xor(Xor(Half(x), Feedback(on)), Feedback(on)) == Half(x)
  {
    if on { TopBitFed(x); } else { TopBitIdle(x); }
  }

  lemma UnstepStep(crc: bv16, bit: bool)
    ensures Unstep(Step(crc, bit), bit) == crc
  {
    hide Xor, Half, Odd, Double, Feedback;
    TopBit(crc, Odd(crc) != bit);
    DoubleHalf(crc);
  }

  lemma ClearTop(crc: bv16)
    ensures Xor(crc, Feedback(crc & 0x8000 != 0)) & 0x8000 == 0
    ensures Xor(Xor(crc, Feedback(crc & 0x8000 != 0)), Feedback(crc & 0x8000 != 0)) == crc
  {
  }

  lemma StepUnstep(crc: bv16, bit: bool)
    ensures Step(Unstep(crc, bit), bit) == crc
  {
    hide Xor, Half, Odd, Double, Feedback;
    var fed := crc & 0x8000 != 0;
    ClearTop(crc);
    HalfDouble(Xor(crc, Feedback(fed)), fed != bit);
  }

  lemma {:induction false} StepsInjective(x: bv16, y: bv16, bits: seq<bool>)
    requires Steps(x, bits) == Steps(y, bits)
    ensures x == y
    decreases |bits|
  {
    hide Step, Unstep;
    if |bits| > 0 {
      StepsInjective(Step(x, bits[0]), Step(y, bits[0]), bits[1..]);
      UnstepStep(x, bits[0]);
      UnstepStep(y, bits[0]);
    }
  }

  /* ---- The step is linear ---- */

  function Differences(a: seq<bool>, b: seq<bool>): (r: seq<bool>)
    requires |a| == |b|
    ensures |r| == |a|
    decreases |a|
  {
    if |a| == 0 then [] else [a[0] != b[0]] + Differences(a[1..], b[1..])
  }

  lemma XorAssociates(a: bv16, b: bv16, c: bv16)
    ensures Xor(Xor(a, b), c) == Xor(a, Xor(b, c))
  {
  }

  lemma XorCommutes(a: bv16, b: bv16)
    ensures Xor(a, b) == Xor(b, a)
  {
  }

  lemma XorSwap(a: bv16, b: bv16, c: bv16, d: bv16)
    ensures Xor(Xor(a, b), Xor(c, d)) == Xor(Xor(a, c), Xor(b, d))
  {
    hide Xor;
    XorAssociates(a, b, Xor(c, d));
    XorAssociates(b, c, d);
    XorCommutes(b, c);
    XorAssociates(c, b, d);
    XorAssociates(a, c, Xor(b, d));
  }

  lemma HalfLinear(x: bv16, y: bv16)
    ensures Half(Xor(x, y)) == Xor(Half(x), Half(y))
  {
  }

  lemma OddLinear(x: bv16, y: bv16)
    ensures Odd(Xor(x, y)) <==> Odd(x) != Odd(y)
  {
  }

  lemma FeedbackLinear(a: bool, b: bool)
    ensures Xor(Feedback(a), Feedback(b)) == Feedback(a != b)
  {
  }

  lemma StepLinear(x: bv16, y: bv16, a: bool, b: bool)
    ensures Xor(Step(x, a), Step(y, b)) == Step(Xor(x, y), a != b)
  {
    hide Xor, Half, Odd, Feedback;
    XorSwap(Half(x), Feedback(Odd(x) != a), Half(y), Feedback(Odd(y) != b));
    HalfLinear(x, y);
    OddLinear(x, y);
    FeedbackLinear(Odd(x) != a, Odd(y) != b);
  }

  /** The CRC of the difference is the difference of the CRCs. */
  lemma {:induction false} StepsLinear(x: bv16, y: bv16, a: seq<bool>, b: seq<bool>)
    requires |a| == |b|
    ensures Xor(Steps(x, a), Steps(y, b)) == Steps(Xor(x, y), Differences(a, b))
    decreases |a|
  {
    hide Step, Xor;
    if |a| > 0 {
      StepLinear(x, y, a[0], b[0]);
      StepsLinear(Step(x, a[0]), Step(y, b[0]), a[1..], b[1..]);
      assert ([a[0] != b[0]] + Differences(a[1..], b[1..]))[1..] == Differences(a[1..], b[1..]);
    }
  }

  /* ---- Bursts ---- */

  function Halves(x: bv16, n: nat): (r: bv16)
    decreases n
  {
    if n == 0 then x else Halves(Half(x), n - 1)
  }

  lemma {:induction false} HalvesAdd(x: bv16, n: nat, k: nat)
    ensures Halves(x, n + k) == Halves(Halves(x, n), k)
    decreases n
  {
    hide Half;
    if n > 0 { HalvesAdd(Half(x), n - 1, k); }
  }

  lemma {:induction false} HalvesZero(n: nat)
    ensures Halves(0, n) == 0
    decreases n
  {
    if n > 0 { HalvesZero(n - 1); }
  }

  lemma FiveHalves(x: bv16)
    ensures Halves(x, 5) == x >> 5
  {
    assert Halves(x, 5) == Half(Half(Half(Half(Half(x)))));
  }

  /** A register emptied by fewer than sixteen halvings has its top bit clear. */
  lemma TopClear(x: bv16, n: nat)
    requires n <= 15 && Halves(x, n) == 0
    ensures x & 0x8000 == 0
  {
    hide Halves, Half;
    HalvesAdd(x, n, 15 - n);
    HalvesZero(15 - n);
    HalvesAdd(x, 10, 5);
    HalvesAdd(x, 5, 5);
    FiveHalves(x);
    FiveHalves(x >> 5);
    FiveHalves((x >> 5) >> 5);
  }

  /** Undoing a step that leaves the top bit clear only doubles the register. */
  lemma UndoClear(x: bv16, bit: bool)
    requires Step(x, bit) & 0x8000 == 0
    ensures Half(x) == Step(x, bit)
  {
    hide Half, Xor, Feedback;
    TopBit(x, Odd(x) != bit);
    NoFeedback(Half(x));
  }

  lemma NoFeedback(x: bv16)
    ensures Xor(x, Feedback(false)) == x
  {
  }

  /** To be emptied by at most fifteen message bits the register must be small to begin with. */
  lemma {:induction false} EmptiedIsSmall(x: bv16, bits: seq<bool>)
    requires |bits| <= 15 && Steps(x, bits) == 0
    ensures Halves(x, |bits|) == 0
    decreases |bits|
  {
    hide Half, Step;
    if |bits| > 0 {
      var y := Step(x, bits[0]);
      EmptiedIsSmall(y, bits[1..]);
      TopClear(y, |bits| - 1);
      UndoClear(x, bits[0]);
    }
  }

  lemma FirstStep()
    ensures Step(0, true) == POLY && Step(0, false) == 0
  {
  }

  /** A burst of at most sixteen bits that is not all zero leaves a register that is not empty. */
  lemma {:induction false} BurstLeavesTrace(bits: seq<bool>, k: nat)
    requires k < |bits| <= 16 && bits[k]
    ensures Steps(0, bits) != 0
    decreases |bits|
  {
    hide Step;
    FirstStep();
    if bits[0] {
      if Steps(POLY, bits[1..]) == 0 {
        EmptiedIsSmall(POLY, bits[1..]);
        TopClear(POLY, |bits| - 1);
      }
    } else {
      BurstLeavesTrace(bits[1..], k - 1);
    }
  }

  lemma {:induction false} DifferenceAt(a: seq<bool>, b: seq<bool>, k: nat)
    requires |a| == |b| && k < |a|
    ensures Differences(a, b)[k] == (a[k] != b[k])
    decreases |a|
  {
    if k > 0 { DifferenceAt(a[1..], b[1..], k - 1); }
  }

  lemma XorZero(x: bv16, y: bv16)
    ensures Xor(x, x) == 0
    ensures Xor(x, y) == 0 ==> x == y
  {
  }

  lemma WindowDiffers(a: seq<bool>, b: seq<bool>, i: nat, j: nat)
    requires |a| == |b| && i <= j <= |a| && a[..i] == b[..i] && a[j..] == b[j..] && a != b
    ensures a[i..j] != b[i..j]
  {
    assert a == a[..i] + a[i..j] + a[j..];
    assert b == b[..i] + b[i..j] + b[j..];
  }

  lemma SplitSteps(crc: bv16, a: seq<bool>, i: nat, j: nat)
    requires i <= j <= |a|
    ensures Steps(crc, a) == Steps(Steps(Steps(crc, a[..i]), a[i..j]), a[j..])
  {
    hide Steps;
    assert a == (a[..i] + a[i..j]) + a[j..];
    StepsConcat(crc, a[..i] + a[i..j], a[j..]);
    StepsConcat(crc, a[..i], a[i..j]);
  }

  /** Error detection: two bit strings of the same length, any length, that differ only inside
      sixteen consecutive bits leave different registers, whatever the register held before. */
  lemma BurstDetected(crc: bv16, a: seq<bool>, b: seq<bool>, i: nat, j: nat)
    requires |a| == |b| && i <= j <= |a| && j - i <= 16
    requires a[..i] == b[..i] && a[j..] == b[j..] && a != b
    ensures Steps(crc, a) != Steps(crc, b)
  {
    hide Step, Steps, Xor;
    var s, p, q := Steps(crc, a[..i]), a[i..j], b[i..j];
    WindowDiffers(a, b, i, j);
    var k :| 0 <= k < |p| && p[k] != q[k];
    DifferenceAt(p, q, k);
    BurstLeavesTrace(Differences(p, q), k);
    StepsLinear(s, s, p, q);
    XorZero(s, s);
    XorZero(Steps(s, p), Steps(s, q));
    SplitSteps(crc, a, i, j);
    SplitSteps(crc, b, i, j);
    if Steps(crc, a) == Steps(crc, b) {
      StepsInjective(Steps(s, p), Steps(s, q), a[j..]);
    }
  }

  lemma SameHalves(x: bv8, y: bv8)
    requires x >> 1 == y >> 1 && LowBit(x) == LowBit(y)
    ensures x == y
  {
  }

  lemma {:induction false} ShiftedAdd(x: bv8, i: nat, k: nat)
    ensures Shifted(x, i + k) == Shifted(Shifted(x, i), k)
    decreases k
  {
    if k > 0 { ShiftedAdd(x, i, k - 1); }
  }

  lemma FourShifts(x: bv8)
    ensures Shifted(x, 4) == x >> 4
  {
    assert Shifted(x, 4) == (((x >> 1) >> 1) >> 1) >> 1;
  }

  lemma EightShifts(x: bv8)
    ensures Shifted(x, 8) == 0
  {
    hide Shifted;
    ShiftedAdd(x, 4, 4);
    FourShifts(x);
    FourShifts(x >> 4);
  }

  lemma {:induction false} SameFrom(x: bv8, y: bv8, i: nat)
    requires i <= 8 && ByteBits(x) == ByteBits(y)
    ensures Shifted(x, i) == Shifted(y, i)
    decreases 8 - i
  {
    hide LowBit;
    if i == 8 {
      EightShifts(x);
      EightShifts(y);
    } else {
      SameFrom(x, y, i + 1);
      assert ByteBits(x)[i] == ByteBits(y)[i];
      SameHalves(Shifted(x, i), Shifted(y, i));
    }
  }

  lemma ByteFromBits(x: bv8, y: bv8)
    requires ByteBits(x) == ByteBits(y)
    ensures x == y
  {
    SameFrom(x, y, 0);
  }

  lemma FirstByte(x: seq<bv8>)
    requires |x| > 0
    ensures |MessageBits(x)| >= 8 && MessageBits(x)[..8] == ByteBits(x[0]) && MessageBits(x)[8..] == MessageBits(x[1..])
  {
    hide ByteBits;
  }

  lemma {:induction false} MessageFromBits(x: seq<bv8>, y: seq<bv8>)
    requires |x| == |y| && MessageBits(x) == MessageBits(y)
    ensures x == y
    decreases |x|
  {
    hide ByteBits;
    if |x| > 0 {
      FirstByte(x);
      FirstByte(y);
      ByteFromBits(x[0], y[0]);
      MessageFromBits(x[1..], y[1..]);
    }
  }

  /** The same for messages of bytes in the order the byte and half-word routines take them. */
  lemma MessageBurstDetected(crc: bv16, x: seq<bv8>, y: seq<bv8>, i: nat, j: nat)
    requires |x| == |y| && x != y
    requires |MessageBits(x)| == |MessageBits(y)| && i <= j <= |MessageBits(x)| && j - i <= 16
    requires MessageBits(x)[..i] == MessageBits(y)[..i] && MessageBits(x)[j..] == MessageBits(y)[j..]
    ensures Steps(crc, MessageBits(x)) != Steps(crc, MessageBits(y))
  {
    hide MessageBits, Steps;
    if MessageBits(x) == MessageBits(y) {
      MessageFromBits(x, y);
    }
    BurstDetected(crc, MessageBits(x), MessageBits(y), i, j);
  }

  lemma HalfBytesDiffer(v: bv16, w: bv16)
    requires HalfBytes(v) == HalfBytes(w)
    ensures v == w
  {
    hide Low, High;
    LowAndHigh(v);
    LowAndHigh(w);
    assert Low(v) == HalfBytes(v)[0] && High(v) == HalfBytes(v)[1];
    assert Low(w) == HalfBytes(w)[0] && High(w) == HalfBytes(w)[1];
  }

  /** Different half words leave different registers, whatever the register held before. */
  lemma HalfWordDetected(v: bv16, w: bv16, crc: bv16)
    requires v != w
    ensures Crc16(v, crc) != Crc16(w, crc)
  {
    hide Steps, MessageBits, Low, High, Crc16;
    Crc16IsMessage(v, crc);
    Crc16IsMessage(w, crc);
    if HalfBytes(v) == HalfBytes(w) { HalfBytesDiffer(v, w); }
    SixteenBits(HalfBytes(v));
    SixteenBits(HalfBytes(w));
    MessageBurstDetected(crc, HalfBytes(v), HalfBytes(w), 0, 16);
  }

  lemma SixteenBits(x: seq<bv8>)
    requires |x| == 2
    ensures |MessageBits(x)| == 16
  {
    hide ByteBits;
    FirstByte(x);
    FirstByte(x[1..]);
    assert MessageBits(x[1..][1..]) == [];
  }
}
