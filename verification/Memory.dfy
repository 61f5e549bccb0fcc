/** The word RAM with byte enables and the register file. */
module Memory {
  import opened Bits
  import opened Rv32i
  import opened Control
  import X = Execute

  const RAM_BASE: Word := 0x10_0000
  const RAM_MASK: Word := 0x7fff

  /** The bus window that selects the RAM. */
  predicate InRam(a: Word) {
    a & !RAM_MASK == RAM_BASE
  }

  /** The RAM array has 2^15 words; an address selects a word by its low index bits. */
  datatype Slot = Slot(index: bv15)
  type Words = m: imap<Slot, Word> | forall k: Slot :: k in m
    ghost witness imap k: Slot :: 0

  function Index(a: Word): (r: Slot) {
    Slot(((a >> 2) & 0x7fff) as bv15)
  }

  /** Only the enabled byte lanes take the write data. */
  function Merge(prior: Word, wdata: Word, be: bv4): (r: Word) {
    var w3 := if be & 8 != 0 then TakeBits(prior, wdata, 0xff00_0000) else prior;
    var w2 := if be & 4 != 0 then TakeBits(w3, wdata, 0xff_0000) else w3;
    var w1 := if be & 2 != 0 then TakeBits(w2, wdata, 0xff00) else w2;
    if be & 1 != 0 then TakeBits(w1, wdata, 0xff) else w1
  }

  function WriteWord(m: Words, a: Word, wdata: Word, be: bv4): Words {
    m[Index(a) := Merge(m[Index(a)], wdata, be)]
  }

  /* ---- The RAM as byte-addressed memory ---- */

  function Lane(a: Word): (r: bv2) {
    (a & 3) as bv2
  }

  /** The RAM seen a byte at a time, little-endian inside each word. */
  ghost function BytesOf(m: Words): Bytes {
    a => ByteOf(m[Index(a)], Lane(a))
  }

  /** Two memories hold the same byte at every address of the RAM window. */
  ghost predicate SameBytes(m0: Bytes, m1: Bytes) {
    forall a: Word :: InRam(a) ==> m0(a) == m1(a)
  }

  lemma WindowIsMemory(a: Word)
    ensures InRam(a) <==> Present(a)
  {
  }

  lemma SameWord(a: Word, b: Word)
    requires InRam(a) && InRam(b) && Index(a) == Index(b)
    ensures a & !3 == b & !3
  {
  }

  lemma IndexOfWord(a: Word)
    ensures Index(a & !3) == Index(a)
  {
  }

  /** The width of a store, as the control signals name it. */
  function StType(w: Width): Control.StType {
    match w case Byte => StSb case Half => StSh case Full => StSw
  }

  function LdType(w: Width, unsigned: bool): Control.LdType {
    match w
    case Byte => if unsigned then LdLbu else LdLb
    case Half => if unsigned then LdLhu else LdLh
    case Full => LdLw
  }

  /** Whether a store of width w at a covers lane k of the addressed word, and with which byte. */
  predicate Covers(a: Word, w: Width, k: bv2) {
    Lane(a) <= k && (k - Lane(a)) as Word < ByteCount(w)
  }

  predicate Enabled(be: bv4, k: bv2) {
    match k case 0 => be & 1 != 0 case 1 => be & 2 != 0 case 2 => be & 4 != 0 case 3 => be & 8 != 0
  }

  lemma Taken0(x: Word, v: Word, mask: Word)
    ensures mask & 0xff == 0xff ==> ByteOf(TakeBits(x, v, mask), 0) == ByteOf(v, 0)
    ensures mask & 0xff == 0 ==> ByteOf(TakeBits(x, v, mask), 0) == ByteOf(x, 0)
  {
  }

  lemma Taken1(x: Word, v: Word, mask: Word)
    ensures mask & 0xff00 == 0xff00 ==> ByteOf(TakeBits(x, v, mask), 1) == ByteOf(v, 1)
    ensures mask & 0xff00 == 0 ==> ByteOf(TakeBits(x, v, mask), 1) == ByteOf(x, 1)
  {
  }

  lemma Taken2(x: Word, v: Word, mask: Word)
    ensures mask & 0xff_0000 == 0xff_0000 ==> ByteOf(TakeBits(x, v, mask), 2) == ByteOf(v, 2)
    ensures mask & 0xff_0000 == 0 ==> ByteOf(TakeBits(x, v, mask), 2) == ByteOf(x, 2)
  {
  }

  lemma Taken3(x: Word, v: Word, mask: Word)
    ensures mask & 0xff00_0000 == 0xff00_0000 ==> ByteOf(TakeBits(x, v, mask), 3) == ByteOf(v, 3)
    ensures mask & 0xff00_0000 == 0 ==> ByteOf(TakeBits(x, v, mask), 3) == ByteOf(x, 3)
  {
  }

  /** Taking one lane leaves the others. */
  lemma TakenLanes(x: Word, v: Word, k: bv2)
    ensures ByteOf(TakeBits(x, v, 0xff), k) == ByteOf(if k == 0 then v else x, k)
    ensures ByteOf(TakeBits(x, v, 0xff00), k) == ByteOf(if k == 1 then v else x, k)
    ensures ByteOf(TakeBits(x, v, 0xff_0000), k) == ByteOf(if k == 2 then v else x, k)
    ensures ByteOf(TakeBits(x, v, 0xff00_0000), k) == ByteOf(if k == 3 then v else x, k)
  {
    hide TakeBits, ByteOf;
    match k
    case 0 => Taken0(x, v, 0xff); Taken0(x, v, 0xff00); Taken0(x, v, 0xff_0000); Taken0(x, v, 0xff00_0000);
    case 1 => Taken1(x, v, 0xff); Taken1(x, v, 0xff00); Taken1(x, v, 0xff_0000); Taken1(x, v, 0xff00_0000);
    case 2 => Taken2(x, v, 0xff); Taken2(x, v, 0xff00); Taken2(x, v, 0xff_0000); Taken2(x, v, 0xff00_0000);
    case 3 => Taken3(x, v, 0xff); Taken3(x, v, 0xff00); Taken3(x, v, 0xff_0000); Taken3(x, v, 0xff00_0000);
  }

  lemma MergedLane(prior: Word, v: Word, be: bv4, k: bv2)
    ensures ByteOf(Merge(prior, v, be), k) == if Enabled(be, k) then ByteOf(v, k) else ByteOf(prior, k)
  {
    hide TakeBits, ByteOf;
    var w3 := if be & 8 != 0 then TakeBits(prior, v, 0xff00_0000) else prior;
    var w2 := if be & 4 != 0 then TakeBits(w3, v, 0xff_0000) else w3;
    var w1 := if be & 2 != 0 then TakeBits(w2, v, 0xff00) else w2;
    TakenLanes(prior, v, k);
    TakenLanes(w3, v, k);
    TakenLanes(w2, v, k);
    TakenLanes(w1, v, k);
  }

  function BitsOfLanes(lane: bv2): bv5 {
    (lane as bv5) << 3
  }

  /** Shifting by lanes moves bytes by lanes. */
  lemma ShiftedLane(v: Word, lane: bv2, k: bv2)
    requires lane <= k
    ensures ByteOf(ShiftLeft(v, BitsOfLanes(lane)), k) == ByteOf(v, k - lane)
  {
    if lane == 0 { ShiftedBy0(v, k); }
    else if lane == 1 { ShiftedBy1(v, k); }
    else if lane == 2 { ShiftedBy2(v, k); }
    else { ShiftedBy3(v); }
  }

  lemma ShiftedBy0(v: Word, k: bv2)
    ensures ByteOf(v << 0, k) == ByteOf(v, k)
  {
  }

  lemma ShiftedBy1(v: Word, k: bv2)
    requires k >= 1
    ensures ByteOf(v << 8, k) == ByteOf(v, k - 1)
  {
  }

  lemma ShiftedBy2(v: Word, k: bv2)
    requires k >= 2
    ensures ByteOf(v << 16, k) == ByteOf(v, k - 2)
  {
  }

  lemma ShiftedBy3(v: Word)
    ensures ByteOf(v << 24, 3) == ByteOf(v, 0)
  {
  }

  /** The enabled lanes are the covered ones. */
  lemma EnabledIsCovered(a: Word, w: Width, k: bv2)
    requires InOneWord(a, w)
    ensures Enabled(X.ByteEnables(StType(w), a), k) <==> Covers(a, w, k)
  {
  }

  lemma CoversAbove(a: Word, w: Width, k: bv2)
    requires Covers(a, w, k)
    ensures Lane(a) <= k
  {
    hide Lane;
  }

  lemma StoredLane(v: Word, a: Word, k: bv2)
    requires Lane(a) <= k
    ensures ByteOf(X.StoreLanes(v, a), k) == ByteOf(v, k - Lane(a))
  {
    hide *;
    StoreLanesIs(v, a);
    ShiftedLane(v, Lane(a), k);
  }

  lemma StoreLanesIs(v: Word, a: Word)
    ensures X.StoreLanes(v, a) == ShiftLeft(v, BitsOfLanes(Lane(a)))
  {
    hide X.LaneShift, Lane, ShiftLeft, BitsOfLanes;
    LaneShiftIsLane(a);
  }

  lemma MergeLane(prior: Word, v: Word, a: Word, w: Width, k: bv2)
    requires InOneWord(a, w)
    ensures var merged := Merge(prior, X.StoreLanes(v, a), X.ByteEnables(StType(w), a));
            ByteOf(merged, k) == if Covers(a, w, k) then ByteOf(v, k - Lane(a)) else ByteOf(prior, k)
  {
    hide *;
    MergedLane(prior, X.StoreLanes(v, a), X.ByteEnables(StType(w), a), k);
    EnabledIsCovered(a, w, k);
    if Covers(a, w, k) {
      CoversAbove(a, w, k);
      StoredLane(v, a, k);
    }
  }

  lemma SplitAddress(a: Word)
    ensures a == (a & !3) + (a & 3)
    ensures a & 3 == 0 || a & 3 == 1 || a & 3 == 2 || a & 3 == 3
  {
  }

  lemma AddToWord(base: Word, k: Word)
    requires base & 3 == 0 && k < 4
    ensures (base + k) & !3 == base && (base + k) & 3 == k
  {
    assert base + k == base | k;
  }

  lemma DifferenceInWord(a: Word, b: Word)
    requires a & !3 == b & !3
    ensures Distance(a, b) == (b & 3) - (a & 3)
  {
    SplitAddress(a);
    SplitAddress(b);
  }

  lemma CoversLow(a: Word, w: Width, b: Word, d: Word)
    requires InOneWord(a, w) && d == (b & 3) - (a & 3)
    ensures Covers(a, w, Lane(b)) <==> d < ByteCount(w)
  {
  }

  lemma LaneDifference(a: Word, b: Word, d: Word)
    requires d == (b & 3) - (a & 3)
    ensures Lane(b) - Lane(a) == (d & 3) as bv2
  {
  }

  lemma Associate(x: Word, y: Word, z: Word)
    ensures (x + y) + z == x + (y + z)
  {
  }

  lemma RoomInWord(a: Word, w: Width, d: Word)
    requires InOneWord(a, w) && d < ByteCount(w)
    ensures d < 4 && (a & 3) + d < 4
  {
  }

  lemma DifferenceAdds(a: Word, b: Word)
    ensures a + (b - a) == b
  {
  }

  lemma PlusStaysInWord(a: Word, d: Word)
    requires d < 4 && (a & 3) + d < 4
    ensures (a + d) & !3 == a & !3
  {
    SplitAddress(a);
    Associate(a & !3, a & 3, d);
    AddToWord(a & !3, (a & 3) + d);
  }

  lemma OffsetStaysInWord(a: Word, w: Width, b: Word)
    requires InOneWord(a, w) && b - a < ByteCount(w)
    ensures a & !3 == b & !3
  {
    hide *;
    RoomInWord(a, w, b - a);
    DifferenceAdds(a, b);
    PlusStaysInWord(a, b - a);
  }

  /** Inside the addressed word, a lane is covered just when it is one of the stored bytes. */
  lemma MergedByte(prior: Word, a: Word, w: Width, v: Word, b: Word, d: Word)
    requires InOneWord(a, w) && d == (b & 3) - (a & 3)
    ensures ByteOf(Merge(prior, X.StoreLanes(v, a), X.ByteEnables(StType(w), a)), Lane(b))
            == StoredByte(ByteOf(prior, Lane(b)), d, w, v)
  {
    CoversLow(a, w, b, d);
    LaneDifference(a, b, d);
    MergeLane(prior, v, a, w, Lane(b));
  }

  lemma OtherByte(a: Word, w: Width, v: Word, b: Word, byte: bv8)
    requires InOneWord(a, w) && a & !3 != b & !3
    ensures StoredByte(byte, Distance(a, b), w, v) == byte
  {
    if b - a < ByteCount(w) { OffsetStaysInWord(a, w, b); }
  }

  lemma WrittenByte(m: Words, a: Word, wdata: Word, be: bv4, b: Word)
    ensures BytesOf(WriteWord(m, a, wdata, be))(b)
            == ByteOf(if Index(a) == Index(b) then Merge(m[Index(b)], wdata, be) else m[Index(b)], Lane(b))
  {
  }

  lemma StoreRefinesHere(m: Words, a: Word, w: Width, v: Word, wdata: Word, be: bv4, b: Word, before: bv8)
    requires before == ByteOf(m[Index(b)], Lane(b))
    requires InOneWord(a, w) && a & !3 == b & !3
    requires wdata == X.StoreLanes(v, a) && be == X.ByteEnables(StType(w), a)
    ensures BytesOf(WriteWord(m, WordAddress(a), wdata, be))(b) == StoredByte(before, Distance(a, b), w, v)
  {
    assert WordAddress(a) == a & !3;
    hide *;
    IndexOfWord(a);
    SameWordIndex(a, b);
    WrittenByte(m, a & !3, wdata, be, b);
    DifferenceInWord(a, b);
    MergedByte(m[Index(b)], a, w, v, b, Distance(a, b));
  }

  lemma StoreRefinesElsewhere(m: Words, a: Word, w: Width, v: Word, wdata: Word, be: bv4, b: Word, before: bv8)
    requires before == ByteOf(m[Index(b)], Lane(b))
    requires InRam(a) && InRam(b) && InOneWord(a, w) && a & !3 != b & !3
    ensures BytesOf(WriteWord(m, WordAddress(a), wdata, be))(b) == StoredByte(before, Distance(a, b), w, v)
  {
    assert WordAddress(a) == a & !3;
    hide *;
    IndexOfWord(a);
    if Index(a) == Index(b) { SameWord(a, b); }
    WrittenByte(m, a & !3, wdata, be, b);
    OtherByte(a, w, v, b, before);
  }

  lemma StoreValueAt(mem: Bytes, a: Word, w: Width, v: Word, b: Word)
    ensures StoreValue(mem, a, w, v)(b) == StoredByte(mem(b), Distance(a, b), w, v)
  {
    hide StoredByte, Distance;
  }

  lemma BytesOfAt(m: Words, b: Word)
    ensures BytesOf(m)(b) == ByteOf(m[Index(b)], Lane(b))
  {
    hide ByteOf, Index, Lane;
  }

  /** One byte of the RAM after a store, against the same byte of the stored-to memory. */
  lemma StoreRefinesByte(m: Words, mem: Bytes, a: Word, w: Width, v: Word, wdata: Word, be: bv4, b: Word)
    requires BytesOf(m)(b) == mem(b)
    requires InRam(a) && InRam(b) && InOneWord(a, w)
    requires wdata == X.StoreLanes(v, a) && be == X.ByteEnables(StType(w), a)
    ensures BytesOf(WriteWord(m, WordAddress(a), wdata, be))(b) == StoreValue(mem, a, w, v)(b)
  {
    hide *;
    StoreValueAt(mem, a, w, v, b);
    BytesOfAt(m, b);
    if a & !3 == b & !3 {
      StoreRefinesHere(m, a, w, v, wdata, be, b, mem(b));
    } else {
      StoreRefinesElsewhere(m, a, w, v, wdata, be, b, mem(b));
    }
  }

  /** The shifted data, the byte enables and the word RAM together perform a little-endian store. */
  lemma StoreRefines(m: Words, mem: Bytes, a: Word, w: Width, v: Word, wdata: Word, be: bv4)
    requires SameBytes(BytesOf(m), mem)
    requires Accessible(a, w)
    requires wdata == X.StoreLanes(v, a) && be == X.ByteEnables(StType(w), a)
    ensures SameBytes(BytesOf(WriteWord(m, WordAddress(a), wdata, be)), StoreValue(mem, a, w, v))
  {
    WindowIsMemory(a);
    hide X.LaneShift, X.ByteEnables, BytesOf, StoreValue, WriteWord, InRam, InOneWord, Present;
    forall b | InRam(b)
      ensures BytesOf(WriteWord(m, WordAddress(a), wdata, be))(b) == StoreValue(mem, a, w, v)(b)
    {
      StoreRefinesByte(m, mem, a, w, v, wdata, be, b);
    }
  }

  lemma LaneShiftIsLane(a: Word)
    ensures X.LaneShift(a) == BitsOfLanes(Lane(a))
  {
  }

  lemma TwoBytes(word: Word, k: bv2)
    requires k <= 2
    ensures (word >> ((k as bv5) << 3)) & 0xffff == HalfOf(ByteOf(word, k), ByteOf(word, k + 1))
  {
  }

  lemma FourBytes(word: Word)
    ensures word == FullOf(ByteOf(word, 0), ByteOf(word, 1), ByteOf(word, 2), ByteOf(word, 3))
  {
  }

  lemma LowBits(a: Word, d: Word)
    requires (a & 3) + d < 4 && d < 4
    ensures (a + d) & !3 == a & !3 && (a + d) & 3 == (a & 3) + d
  {
    SplitAddress(a);
    Associate(a & !3, a & 3, d);
    AddToWord(a & !3, (a & 3) + d);
  }

  lemma WindowOfWord(a: Word)
    ensures InRam(a & !3) <==> InRam(a)
  {
  }

  lemma SameWordIndex(a: Word, b: Word)
    requires a & !3 == b & !3
    ensures Index(a) == Index(b)
  {
    IndexOfWord(a);
    IndexOfWord(b);
  }

  lemma SameWordWindow(a: Word, b: Word)
    requires a & !3 == b & !3
    ensures InRam(a) ==> InRam(b)
  {
    WindowOfWord(a);
    WindowOfWord(b);
  }

  lemma LaneOfSum(a: Word, b: Word, d: Word)
    requires b & 3 == (a & 3) + d && d < 4
    ensures Lane(b) == Lane(a) + (d as bv2)
  {
  }

  lemma ByteInWord(m: Words, mem: Bytes, a: Word, b: Word, k: bv2)
    requires SameBytes(BytesOf(m), mem) && InRam(a)
    requires a & !3 == b & !3 && Lane(b) == k
    ensures mem(b) == ByteOf(m[Index(a)], k)
  {
    SameWordIndex(a, b);
    SameWordWindow(a, b);
    assert BytesOf(m)(b) == mem(b);
  }

  lemma LanePlus(a: Word, d: Word)
    requires d < 4 && (a & 3) + d < 4
    ensures Lane(a + d) == Lane(a) + (d as bv2)
  {
    LowBits(a, d);
    LaneOfSum(a, a + d, d);
  }

  lemma WordPlus(a: Word, d: Word)
    requires d < 4 && (a & 3) + d < 4
    ensures a & !3 == (a + d) & !3
  {
    LowBits(a, d);
  }

  /** Byte d of an access is lane Lane(a) + d of the addressed word. */
  lemma ByteAt(m: Words, mem: Bytes, a: Word, d: Word)
    requires SameBytes(BytesOf(m), mem) && InRam(a)
    requires d < 4 && (a & 3) + d < 4
    ensures mem(a + d) == ByteOf(m[Index(a)], Lane(a) + (d as bv2))
  {
    LanePlus(a, d);
    WordPlus(a, d);
    ByteInWord(m, mem, a, a + d, Lane(a) + (d as bv2));
  }

  lemma AlignedByte0(m: Words, mem: Bytes, a: Word)
    requires SameBytes(BytesOf(m), mem) && InRam(a) && WordAligned(a)
    ensures mem(a) == ByteOf(m[Index(a)], 0)
  {
    ByteAt(m, mem, a, 0);
  }

  lemma AlignedByte1(m: Words, mem: Bytes, a: Word)
    requires SameBytes(BytesOf(m), mem) && InRam(a) && WordAligned(a)
    ensures mem(a + 1) == ByteOf(m[Index(a)], 1)
  {
    ByteAt(m, mem, a, 1);
  }

  lemma AlignedByte2(m: Words, mem: Bytes, a: Word)
    requires SameBytes(BytesOf(m), mem) && InRam(a) && WordAligned(a)
    ensures mem(a + 2) == ByteOf(m[Index(a)], 2)
  {
    ByteAt(m, mem, a, 2);
  }

  lemma AlignedByte3(m: Words, mem: Bytes, a: Word)
    requires SameBytes(BytesOf(m), mem) && InRam(a) && WordAligned(a)
    ensures mem(a + 3) == ByteOf(m[Index(a)], 3)
  {
    ByteAt(m, mem, a, 3);
  }

  lemma LoadByteLane(word: Word, a: Word, unsigned: bool, b: bv8)
    requires b == ByteOf(word, Lane(a))
    ensures X.LoadLanes(LdType(Byte, unsigned), a, word)
            == if unsigned then b as Word else SignExtend(b as Word, 0x80)
  {
    LaneShiftIsLane(a);
  }

  lemma LoadHalfLane(word: Word, a: Word, unsigned: bool, h: Word)
    requires InOneWord(a, Half)
    requires h == HalfOf(ByteOf(word, Lane(a)), ByteOf(word, Lane(a) + 1))
    ensures X.LoadLanes(LdType(Half, unsigned), a, word) == if unsigned then h else SignExtend(h, 0x8000)
  {
    LaneShiftIsLane(a);
    TwoBytes(word, Lane(a));
  }

  lemma ReadTwo(m: Words, mem: Bytes, a: Word)
    requires SameBytes(BytesOf(m), mem)
    requires InRam(a) && InOneWord(a, Half)
    ensures ReadHalf(mem, a) == HalfOf(ByteOf(m[Index(a)], Lane(a)), ByteOf(m[Index(a)], Lane(a) + 1))
  {
    assert (a & 3) + 1 < 4;
    hide Index, InRam, SameBytes, BytesOf, ByteOf, HalfOf, InOneWord;
    ByteAt(m, mem, a, 0);
    ByteAt(m, mem, a, 1);
  }

  lemma ReadFour(mem: Bytes, a: Word, b0: bv8, b1: bv8, b2: bv8, b3: bv8)
    requires mem(a) == b0 && mem(a + 1) == b1 && mem(a + 2) == b2 && mem(a + 3) == b3
    ensures ReadFull(mem, a) == FullOf(b0, b1, b2, b3)
  {
    hide FullOf;
  }

  /** A word read at an aligned address is the word the RAM holds there. */
  lemma ReadWord(m: Words, mem: Bytes, a: Word)
    requires SameBytes(BytesOf(m), mem)
    requires InRam(a) && WordAligned(a)
    ensures ReadFull(mem, a) == m[Index(a)]
  {
    hide *;
    var word := m[Index(a)];
    AlignedByte0(m, mem, a);
    AlignedByte1(m, mem, a);
    AlignedByte2(m, mem, a);
    AlignedByte3(m, mem, a);
    ReadFour(mem, a, ByteOf(word, 0), ByteOf(word, 1), ByteOf(word, 2), ByteOf(word, 3));
    FourBytes(word);
  }

  lemma LoadHalfRefines(m: Words, mem: Bytes, a: Word, unsigned: bool)
    requires SameBytes(BytesOf(m), mem)
    requires InRam(a) && InOneWord(a, Half)
    ensures X.LoadLanes(LdType(Half, unsigned), a, m[Index(a)]) == LoadValue(mem, a, Half, unsigned)
  {
    hide Index, Lane, InRam, SameBytes, ByteOf, ReadHalf, SignExtend, X.LoadLanes, LdType;
    ReadTwo(m, mem, a);
    LoadHalfLane(m[Index(a)], a, unsigned, ReadHalf(mem, a));
  }

  lemma LoadByteRefines(m: Words, mem: Bytes, a: Word, unsigned: bool)
    requires SameBytes(BytesOf(m), mem)
    requires InRam(a)
    ensures X.LoadLanes(LdType(Byte, unsigned), a, m[Index(a)]) == LoadValue(mem, a, Byte, unsigned)
  {
    ByteAt(m, mem, a, 0);
    LoadByteLane(m[Index(a)], a, unsigned, mem(a));
  }

  /** The load shifter extracts what a little-endian load reads. */
  lemma LoadRefines(m: Words, mem: Bytes, a: Word, w: Width, unsigned: bool)
    requires SameBytes(BytesOf(m), mem)
    requires Accessible(a, w)
    ensures X.LoadLanes(LdType(w, unsigned), a, m[Index(WordAddress(a))]) == LoadValue(mem, a, w, unsigned)
  {
    IndexOfWord(a);
    WindowIsMemory(a);
    match w
    case Byte => LoadByteRefines(m, mem, a, unsigned);
    case Half => LoadHalfRefines(m, mem, a, unsigned);
    case Full => ReadWord(m, mem, a);
  }

  /** Memory gives back the word it was given. */
  lemma StoreThenRead(mem: Bytes, b: Word, v: Word)
    ensures ReadFull(StoreValue(mem, b, Full, v), b) == v
  {
    hide StoreValue, FullOf, StoredByte, ByteOf;
    StoreValueAt(mem, b, Full, v, b);
    StoreValueAt(mem, b, Full, v, b + 1);
    StoreValueAt(mem, b, Full, v, b + 2);
    StoreValueAt(mem, b, Full, v, b + 3);
    StoredAt(mem(b), mem(b + 1), mem(b + 2), mem(b + 3), b, v);
    FourBytes(v);
  }

  lemma StoredAt(m0: bv8, m1: bv8, m2: bv8, m3: bv8, b: Word, v: Word)
    ensures StoredByte(m0, Distance(b, b), Full, v) == ByteOf(v, 0)
    ensures StoredByte(m1, Distance(b, b + 1), Full, v) == ByteOf(v, 1)
    ensures StoredByte(m2, Distance(b, b + 2), Full, v) == ByteOf(v, 2)
    ensures StoredByte(m3, Distance(b, b + 3), Full, v) == ByteOf(v, 3)
  {
  }
}
