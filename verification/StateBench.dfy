/** The state benchmark: its input, its corruption and what two runs of the machine leave behind. */
module StateBench {
  import opened TokenMachine
  import opened TokenScan
  import Crc

  /* ---- The input ---- */

  function IntPattern(i: nat): (t: seq<bv8>)
    requires i < 4
    ensures |t| == 4 && NUL !in t && COMMA !in t
  {
    if i == 0 then [0x35, 0x30, 0x31, 0x32]  // 5012
    else if i == 1 then [0x31, 0x32, 0x33, 0x34]  // 1234
    else if i == 2 then [0x2d, 0x38, 0x37, 0x34]  // -874
    else [0x2b, 0x31, 0x32, 0x32]  // +122
  }

  function FloatPattern(i: nat): (t: seq<bv8>)
    requires i < 4
    ensures |t| == 8 && NUL !in t && COMMA !in t
  {
    if i == 0 then [0x33, 0x35, 0x2e, 0x35, 0x34, 0x34, 0x30, 0x30]  // 35.54400
    else if i == 1 then [0x2e, 0x31, 0x32, 0x33, 0x34, 0x35, 0x30, 0x30]  // .1234500
    else if i == 2 then [0x2d, 0x31, 0x31, 0x30, 0x2e, 0x37, 0x30, 0x30]  // -110.700
    else [0x2b, 0x30, 0x2e, 0x36, 0x34, 0x34, 0x30, 0x30]  // +0.64400
  }

  function SciPattern(i: nat): (t: seq<bv8>)
    requires i < 4
    ensures |t| == 8 && NUL !in t && COMMA !in t
  {
    if i == 0 then [0x35, 0x2e, 0x35, 0x30, 0x30, 0x65, 0x2b, 0x33]  // 5.500e+3
    else if i == 1 then [0x2d, 0x2e, 0x31, 0x32, 0x33, 0x65, 0x2d, 0x32]  // -.123e-2
    else if i == 2 then [0x2d, 0x38, 0x37, 0x65, 0x2b, 0x38, 0x33, 0x32]  // -87e+832
    else [0x2b, 0x30, 0x2e, 0x36, 0x65, 0x2d, 0x31, 0x32]  // +0.6e-12
  }

  function ErrPattern(i: nat): (t: seq<bv8>)
    requires i < 4
    ensures |t| == 8 && NUL !in t && COMMA !in t
  {
    if i == 0 then [0x54, 0x30, 0x2e, 0x33, 0x65, 0x2d, 0x31, 0x46]  // T0.3e-1F
    else if i == 1 then [0x2d, 0x54, 0x2e, 0x54, 0x2b, 0x2b, 0x54, 0x71]  // -T.T++Tq
    else if i == 2 then [0x31, 0x54, 0x33, 0x2e, 0x34, 0x65, 0x34, 0x7a]  // 1T3.4e4z
    else [0x33, 0x34, 0x2e, 0x30, 0x65, 0x2d, 0x54, 0x5e]  // 34.0e-T^
  }

  predicate Spells(t: seq<bv8>, s: string) {
    |t| == |s| && forall i :: 0 <= i < |t| ==> t[i] as int == s[i] as int
  }

  const INTS := ["5012", "1234", "-874", "+122"]
  const FLOATS := ["35.54400", ".1234500", "-110.700", "+0.64400"]
  const SCIS := ["5.500e+3", "-.123e-2", "-87e+832", "+0.6e-12"]
  const ERRS := ["T0.3e-1F", "-T.T++Tq", "1T3.4e4z", "34.0e-T^"]

  lemma IntTexts(i: nat)
    requires i < 4
    ensures Spells(IntPattern(i), INTS[i])
  {
    if i == 0 {
    } else if i == 1 {
    } else if i == 2 {
    } else {
    }
  }

  lemma FloatTexts(i: nat)
    requires i < 4
    ensures Spells(FloatPattern(i), FLOATS[i])
  {
    if i == 0 {
    } else if i == 1 {
    } else if i == 2 {
    } else {
    }
  }

  lemma SciTexts(i: nat)
    requires i < 4
    ensures Spells(SciPattern(i), SCIS[i])
  {
    if i == 0 {
    } else if i == 1 {
    } else if i == 2 {
    } else {
    }
  }

  lemma ErrTexts(i: nat)
    requires i < 4
    ensures Spells(ErrPattern(i), ERRS[i])
  {
    if i == 0 {
    } else if i == 1 {
    } else if i == 2 {
    } else {
    }
  }

  /** The patterns in characters. */
  lemma PatternTexts(i: nat)
    requires i < 4
    ensures Spells(IntPattern(i), INTS[i]) && Spells(FloatPattern(i), FLOATS[i])
    ensures Spells(SciPattern(i), SCIS[i]) && Spells(ErrPattern(i), ERRS[i])
  {
    hide *;
    IntTexts(i);
    FloatTexts(i);
    SciTexts(i);
    ErrTexts(i);
  }

  lemma IntKind(i: nat)
    requires i < 4
    ensures Moves(START, IntPattern(i)) == INT
  {
    Unrolled(IntPattern(i));
  }

  lemma FloatKind(i: nat)
    requires i < 4
    ensures Moves(START, FloatPattern(i)) == FLOAT
  {
    Unrolled(FloatPattern(i));
  }

  lemma SciKind(i: nat)
    requires i < 4
    ensures Moves(START, SciPattern(i)) == if i == 2 then INVALID else SCIENTIFIC
  {
    Unrolled(SciPattern(i));
  }

  lemma ErrKind(i: nat)
    requires i < 4
    ensures Moves(START, ErrPattern(i)) == INVALID
  {
    Unrolled(ErrPattern(i));
  }

  /** The patterns are of the kinds they are listed under, but for one: without a point before the E
      "-87e+832" is no number to the machine. */
  lemma PatternKinds(i: nat)
    requires i < 4
    ensures Moves(START, IntPattern(i)) == INT
    ensures Moves(START, FloatPattern(i)) == FLOAT
    ensures Moves(START, SciPattern(i)) == if i == 2 then INVALID else SCIENTIFIC
    ensures Moves(START, ErrPattern(i)) == INVALID
  {
    hide *;
    IntKind(i);
    FloatKind(i);
    SciKind(i);
    ErrKind(i);
  }

  lemma Unrolled(t: seq<bv8>)
    requires |t| == 4 || |t| == 8
    ensures var h := Move(Move(Move(Move(START, t[0]), t[1]), t[2]), t[3]);
            Moves(START, t) == if |t| == 4 then h else Move(Move(Move(Move(h, t[4]), t[5]), t[6]), t[7])
  {
    hide Move;
    UnrolledFrom(START, t[..4]);
    if |t| == 4 {
      assert t[..4] == t;
    } else {
      assert t[..4] + t[4..] == t;
      MovesConcat(START, t[..4], t[4..]);
      UnrolledFrom(Moves(START, t[..4]), t[4..]);
    }
  }

  lemma UnrolledFrom(s: State, t: seq<bv8>)
    requires |t| == 4
    ensures Moves(s, t) == Move(Move(Move(Move(s, t[0]), t[1]), t[2]), t[3])
  {
    hide Move;
    assert t[..3][..2] == t[..2] && t[..2][..1] == t[..1] && t[..1][..0] == [];
    assert Moves(s, t[..1]) == Move(s, t[0]);
    assert Moves(s, t[..2]) == Move(Moves(s, t[..1]), t[1]);
    assert Moves(s, t[..3]) == Move(Moves(s, t[..2]), t[2]);
  }

  /** The low bits of the seed pick a pattern. */
  function Pattern(seed: bv16): (t: seq<bv8>)
    ensures (|t| == 4 || |t| == 8) && NUL !in t && COMMA !in t
  {
    var i := Choice(seed);
    var kind := seed & 0x7;
    if kind <= 2 then IntPattern(i)
    else if kind <= 4 then FloatPattern(i)
    else if kind <= 6 then SciPattern(i)
    else ErrPattern(i)
  }

  function Choice(seed: bv16): (i: nat)
    ensures i < 4
  {
    var j := (seed >> 3) & 0x3;
    if j == 0 then 0 else if j == 1 then 1 else if j == 2 then 2 else 3
  }

  /** Of eight seeds in a row three pick an integer, two a decimal, two a number with an exponent and one
      an error; which of the four there are is up to the next two bits. */
  lemma PatternPicked(seed: bv16)
    ensures seed % 8 <= 2 ==> Pattern(seed) == IntPattern(Choice(seed))
    ensures 3 <= seed % 8 <= 4 ==> Pattern(seed) == FloatPattern(Choice(seed))
    ensures 5 <= seed % 8 <= 6 ==> Pattern(seed) == SciPattern(Choice(seed))
    ensures seed % 8 == 7 ==> Pattern(seed) == ErrPattern(Choice(seed))
    ensures Choice(seed) as bv16 == seed / 8 % 4
  {
    hide IntPattern, FloatPattern, SciPattern, ErrPattern;
  }

  /** The first n patterns after a seed, each with its comma. */
  function Input(seed: bv16, n: nat): seq<bv8> {
    if n == 0 then [] else Input(seed, n - 1) + Pattern(Later(seed, n)) + [COMMA]
  }

  /** The seed after n 16-bit increments. */
  function Later(seed: bv16, n: nat): bv16 {
    if n == 0 then seed else Later(seed, n - 1) + 1
  }

  /** core_init_state: as many patterns as leave two bytes over, and NULs behind them. */
  method CoreInitState(size: nat, seed0: bv16, p: array<bv8>) returns (ghost n: nat)
    requires 1 <= size <= p.Length
    modifies p
    ensures var text := Input(seed0, n);
            (text == [] || |text| + 2 <= size) && p[..|text|] == text
            && (forall i :: |text| <= i < size ==> p[i] == NUL) && p[size..] == old(p[size..])
    ensures |Input(seed0, n)| + |Pattern(Later(seed0, n + 1))| + 2 >= size
  {
    hide Pattern, Input, Later;
    NoInput(seed0);
    var seed, total, next := seed0, 0, 0;
    var buf: seq<bv8> := [];
    ghost var rest := p[size..];
    ghost var m := 0;
    while total + next + 1 < size - 1
      invariant total <= size && seed == Later(seed0, m)
      invariant m == 0 ==> total == 0 && next == 0
      invariant m > 0 ==> buf == Pattern(seed) && next == |buf| && total == |Input(seed0, m - 1)|
      invariant m > 0 ==> p[..total] == Input(seed0, m - 1)
      invariant total == 0 || total + 2 <= size
      invariant p[size..] == rest
      decreases size - total, if m == 0 then 1 else 0
    {
      if next > 0 {
        AppendInput(p, total, buf, size, seed0, m);
        total := total + next + 1;
      }
      NextSeed(seed0, m);
      seed := seed + 1;
      m := m + 1;
      buf := Pattern(seed);
      next := |buf|;
    }
    n := if m == 0 then 0 else m - 1;
    Clear(p, total, size);
  }

  lemma NoInput(seed: bv16)
    ensures Input(seed, 0) == [] && Later(seed, 0) == seed
  {
  }

  lemma InputMore(seed: bv16, m: nat)
    requires m > 0
    ensures Input(seed, m) == Input(seed, m - 1) + Pattern(Later(seed, m)) + [COMMA]
  {
  }

  lemma NextSeed(seed: bv16, m: nat)
    ensures Later(seed, m + 1) == Later(seed, m) + 1
  {
  }

  /** Copies a pattern and a comma to place `at`. */
  method Append(p: array<bv8>, at: nat, buf: seq<bv8>)
    requires at + |buf| < p.Length
    modifies p
    ensures p[..at] == old(p[..at]) && p[at..at + |buf| + 1] == buf + [COMMA]
    ensures p[at + |buf| + 1..] == old(p[at + |buf| + 1..])
  {
    var i := 0;
    while i < |buf|
      invariant 0 <= i <= |buf| && p[..at] == old(p[..at]) && p[at..at + i] == buf[..i]
      invariant p[at + i..] == old(p[at + i..])
    {
      p[at + i] := buf[i];
      i := i + 1;
    }
    p[at + i] := COMMA;
  }

  method AppendInput(p: array<bv8>, at: nat, buf: seq<bv8>, ghost size: nat, ghost seed: bv16, ghost m: nat)
    requires at + |buf| < size <= p.Length && m > 0
    requires p[..at] == Input(seed, m - 1) && buf == Pattern(Later(seed, m))
    modifies p
    ensures p[..at + |buf| + 1] == Input(seed, m) && p[size..] == old(p[size..])
  {
    hide Pattern, Input, Later;
    ghost var rest, k := p[size..], at + |buf| + 1;
    assert rest == p[k..][size - k..];
    Append(p, at, buf);
    assert p[size..] == p[k..][size - k..];
    assert p[..k] == p[..at] + p[at..k];
    InputMore(seed, m);
  }

  method Clear(p: array<bv8>, from: nat, size: nat)
    requires from <= size <= p.Length
    modifies p
    ensures p[..from] == old(p[..from]) && p[size..] == old(p[size..])
    ensures forall i :: from <= i < size ==> p[i] == NUL
  {
    var total := from;
    while total < size
      invariant from <= total <= size && p[..from] == old(p[..from]) && p[size..] == old(p[size..])
      invariant forall i :: from <= i < total ==> p[i] == NUL
    {
      p[total] := NUL;
      total := total + 1;
    }
  }

  /* ---- Corruption ---- */

  function Xor(c: bv8, seed: bv8): bv8 {
    c ^ seed
  }

  function Flip(c: bv8, seed: bv8): bv8 {
    if c != COMMA then Xor(c, seed) else c
  }

  /** Every step-th byte of the block, starting with the first, other than a comma is flipped. */
  ghost function Corrupted(b: seq<bv8>, blksize: nat, step: nat, seed: bv8): (r: seq<bv8>)
    requires step >= 1
    ensures |r| == |b|
    ensures forall i :: 0 <= i < |b| ==> r[i] == if Touched(i, blksize, step) then Flip(b[i], seed) else b[i]
  {
    seq(|b|, i requires 0 <= i < |b| => if Touched(i, blksize, step) then Flip(b[i], seed) else b[i])
  }

  predicate Touched(i: nat, blksize: nat, step: nat)
    requires step >= 1
  {
    i < blksize && WholeSteps(i, step)
  }

  /** i is a whole number of steps. */
  predicate WholeSteps(i: nat, step: nat)
    requires step >= 1
    decreases i
  {
    i == 0 || (i >= step && WholeSteps(i - step, step))
  }

  lemma NextTouched(p: nat, step: nat)
    requires step >= 1 && WholeSteps(p, step)
    ensures WholeSteps(p + step, step)
    ensures forall i :: p < i < p + step ==> !WholeSteps(i, step)
  {
    forall i | p < i < p + step ensures !WholeSteps(i, step) {
      NotBetween(p, i, step);
    }
  }

  lemma {:induction false} NotBetween(p: nat, i: nat, step: nat)
    requires step >= 1 && WholeSteps(p, step) && p < i < p + step
    ensures !WholeSteps(i, step)
    decreases p
  {
    if p > 0 { NotBetween(p - step, i - step, step); }
  }

  /** One pass of corruption, in place. */
  method Corrupt(b: array<bv8>, blksize: nat, step: nat, seed: bv8)
    requires blksize <= b.Length && step >= 1
    modifies b
    ensures b[..] == Corrupted(old(b[..]), blksize, step, seed)
  {
    var p := 0;
    while p < blksize
      invariant WholeSteps(p, step)
      invariant forall i :: 0 <= i < b.Length ==>
                  b[i] == if i < p && Touched(i, blksize, step) then Flip(old(b[i]), seed) else old(b[i])
      decreases blksize - p
    {
      if b[p] != COMMA { b[p] := Xor(b[p], seed); }
      NextTouched(p, step);
      p := p + step;
    }
  }

  lemma FlipTwice(c: bv8, s: bv8, t: bv8)
    ensures Flip(Flip(c, s), t) == c <==> c == COMMA || (s == t && Xor(c, s) != COMMA)
  {
    hide Xor;
    if c != COMMA && Xor(c, s) != COMMA { XorTwice(c, s, t); }
  }

  lemma XorTwice(c: bv8, s: bv8, t: bv8)
    ensures Xor(Xor(c, s), t) == c <==> s == t
  {
    hide Xor;
    XorBack(c, s);
    XorBack(Xor(c, s), t);
  }

  lemma XorBack(x: bv8, s: bv8)
    ensures Xor(Xor(x, s), s) == x
    ensures Xor(Xor(x, s), x) == s
    ensures Xor(x, Xor(x, s)) == s
  {
  }

  /** Two passes put the buffer back if and only if every byte they touch that is not a comma was
      flipped by one and the same seed, and not into a comma. */
  lemma RestoredExactlyWhen(b: seq<bv8>, blksize: nat, step: nat, seed1: bv8, seed2: bv8)
    requires step >= 1
    ensures Corrupted(Corrupted(b, blksize, step, seed1), blksize, step, seed2) == b
            <==> forall i :: 0 <= i < |b| && Touched(i, blksize, step) && b[i] != COMMA ==>
                   seed1 == seed2 && Xor(b[i], seed1) != COMMA
  {
    hide Flip, Touched;
    var r := Corrupted(Corrupted(b, blksize, step, seed1), blksize, step, seed2);
    forall i | 0 <= i < |b|
      ensures r[i] == b[i]
              <==> (Touched(i, blksize, step) && b[i] != COMMA ==> seed1 == seed2 && Xor(b[i], seed1) != COMMA)
    {
      FlipTwice(b[i], seed1, seed2);
    }
    if forall i :: 0 <= i < |b| ==> r[i] == b[i] { assert r == b; }
  }

  /** With a step of at least two, of two NULs side by side one is left alone: the second scan ends
      inside a buffer that ends in two NULs. */
  lemma StillEnds(b: seq<bv8>, blksize: nat, step: nat, seed: bv8, i: nat) returns (z: nat)
    requires step >= 2 && i + 1 < |b| && b[i] == NUL && b[i + 1] == NUL
    ensures z < |b| && Corrupted(b, blksize, step, seed)[z] == NUL
  {
    if WholeSteps(i, step) {
      NextTouched(i, step);
      z := i + 1;
    } else {
      z := i;
    }
  }

  /** So over a buffer filled by core_init_state both scans end inside it, for every step of two or
      more; the benchmark is never called with less than 0x22. */
  lemma BothScansEnd(b: seq<bv8>, text: seq<bv8>, size: nat, step: nat, seed: bv8) returns (z: nat, y: nat)
    requires 2 <= size <= |b| && step >= 2 && (text == [] || |text| + 2 <= size)
    requires forall i :: |text| <= i < size ==> b[i] == NUL
    ensures z < size && b[z] == NUL
    ensures y < |b| && Corrupted(b, size, step, seed)[y] == NUL
  {
    z := size - 2;
    y := StillEnds(b, size, step, seed, z);
  }

  /* ---- The benchmark ---- */

  /** The counters, verdict and moves in turn, fed to the CRC. */
  function CrcOfCounts(final: seq<Count>, track: seq<Count>, crc: bv16): bv16
    requires |final| == |track|
  {
    if |final| == 0 then crc
    else
      var n := |final| - 1;
      Crc.Crc32(Wide(track[n]), Crc.Crc32(Wide(final[n]), CrcOfCounts(final[..n], track[..n], crc)))
  }

  function Wide(n: Count): bv32 {
    n as bv32
  }

  method FeedCounts(final: array<Count>, track: array<Count>, crc0: bv16) returns (crc: bv16)
    requires final.Length == track.Length == STATES
    ensures crc == CrcOfCounts(final[..], track[..], crc0)
  {
    hide Crc.Crc32, Wide;
    crc := crc0;
    var i := 0;
    while i < STATES
      invariant 0 <= i <= STATES && crc == CrcOfCounts(final[..i], track[..i], crc0)
    {
      crc := Crc.CrcU32(Wide(final[i]), crc);
      crc := Crc.CrcU32(Wide(track[i]), crc);
      i := i + 1;
      assert final[..i][..i - 1] == final[..i - 1] && track[..i][..i - 1] == track[..i - 1];
    }
    assert final[..i] == final[..] && track[..i] == track[..];
  }

  /** core_bench_state: scans the buffer, corrupts it, scans it again and flips it once more. The
      result is the CRC of the verdicts and moves of both scans. */
  method CoreBenchState(blksize: nat, b: array<bv8>, seed1: bv16, seed2: bv16, step: nat, crc: bv16, ghost z: nat,
      ghost y: nat)
    returns (r: bv16, ghost first: seq<Token>, ghost second: seq<Token>, ghost final: seq<Count>,
        ghost track: seq<Count>)
    requires blksize <= b.Length && step >= 1
    requires z < b.Length && b[z] == NUL
    requires y < b.Length && Corrupted(b[..], blksize, step, Crc.Low(seed1))[y] == NUL
    modifies b
    ensures b[..] == Corrupted(Corrupted(old(b[..]), blksize, step, Crc.Low(seed1)), blksize, step, Crc.Low(seed2))
    ensures Tokens(old(b[..]), first) && Tokens(Corrupted(old(b[..]), blksize, step, Crc.Low(seed1)), second)
    ensures Holds(final, Verdicts(first) + Verdicts(second)) && Holds(track, Moved(first) + Moved(second))
    ensures r == CrcOfCounts(final, track, crc)
  {
    hide Holds, Tokens, Verdicts, Moved, Corrupted, Crc.Low, CrcOfCounts;
    var finalCounts := new Count[STATES](_ => 0);
    var trackCounts := new Count[STATES](_ => 0);
    ZeroHolds(finalCounts[..]);
    ZeroHolds(trackCounts[..]);
    first := ScanAll(b, trackCounts, finalCounts, z, multiset{}, multiset{});
    Corrupt(b, blksize, step, Crc.Low(seed1));
    second := ScanAll(b, trackCounts, finalCounts, y, multiset{} + Moved(first), multiset{} + Verdicts(first));
    Corrupt(b, blksize, step, Crc.Low(seed2));
    final, track := finalCounts[..], trackCounts[..];
    assert multiset{} + Moved(first) + Moved(second) == Moved(first) + Moved(second);
    assert multiset{} + Verdicts(first) + Verdicts(second) == Verdicts(first) + Verdicts(second);
    HoldsLength(final, Verdicts(first) + Verdicts(second));
    r := FeedCounts(finalCounts, trackCounts, crc);
  }

  lemma ZeroHolds(counts: seq<Count>)
    requires |counts| == STATES && forall i :: 0 <= i < STATES ==> counts[i] == 0
    ensures Holds(counts, multiset{})
  {
  }

  lemma HoldsLength(counts: seq<Count>, tally: multiset<State>)
    requires Holds(counts, tally)
    ensures |counts| == STATES
  {
  }
}
