/** The benchmark's linked list: the comparators with their side effects and the in-place merge sort. */
module CoreList {
  import opened ListOrder
  import Crc

  /** A data item: idx is a signed 16-bit value; data16 holds a backup byte over a working byte. */
  class ListData {
    var data16: bv16
    var idx: int
  }

  class ListHead {
    var next: ListHead?
    var info: ListData
    constructor (info: ListData)
      ensures this.info == info && next == null
    {
      this.info, next := info, null;
    }
  }

  /** The part of the benchmark results the list code touches. `computed` lists the items whose value
      was computed rather than found cached, `asked` what each of them asked for. */
  class Results {
    var crc: bv16
    var crcstate: bv16
    var crcmatrix: bv16
    ghost var computed: seq<ListData>
    ghost var asked: seq<Ask>
  }

  /* ---- Data items ---- */

  /** Bit 7 of the working byte. */
  predicate Cached(data: bv16) {
    data & 0x80 != 0
  }

  function Value(data: bv16): bv16 {
    data & 0x7f
  }

  function Backup(data: bv16): bv16 {
    data & 0xff00
  }

  /** The working byte restored from the backup byte. */
  function Regen(data: bv16): bv16 {
    (data & 0xff00) | (0xff & (data >> 8))
  }

  /** The value found cached in the item it was computed for. */
  function WithValue(data: bv16, value: bv16): bv16 {
    (data & 0xff00) | 0x80 | value
  }

  /** The parts of an item's data, in numbers: backup byte, cache bit and value. */
  function ValueOf(data: bv16): (n: nat) {
    data as nat % 128
  }

  lemma LowSeven(data: bv16) returns (n: nat)
    ensures data as nat == 128 * n + (data & 0x7f) as nat && (data & 0x7f) as nat < 128
  {
    n := (data >> 7) as nat;
  }

  lemma RemainderOf128(x: nat, n: nat, r: nat)
    requires x == 128 * n + r && r < 128
    ensures x % 128 == r
  {
  }

  lemma LowSevenIs(data: bv16)
    ensures (data & 0x7f) as nat == ValueOf(data)
  {
    var n := LowSeven(data);
    RemainderOf128(data as nat, n, (data & 0x7f) as nat);
  }

  lemma ValueIs(data: bv16)
    ensures Value(data) as nat == ValueOf(data)
  {
    hide ValueOf;
    LowSevenIs(data);
  }

  lemma ValueIsRemainder(data: bv16)
    ensures Value(data) == data % 128
  {
  }

  lemma CachedIs(data: bv16)
    ensures Cached(data) <==> data % 256 >= 128
  {
  }

  lemma BytesAre(data: bv16)
    ensures Backup(data) == data - data % 256
    ensures Regen(data) == 257 * (data / 256)
  {
  }

  lemma ArgumentIs(data: bv16)
    ensures Argument(data) == 17 * (data / 8 % 16)
  {
  }

  /** An item's data in numbers: the backup byte, the cache bit, the value, the regenerated word, and the
      argument handed to another benchmark. */
  lemma ItemParts(data: bv16)
    ensures Backup(data) == data - data % 256 && (Cached(data) <==> data % 256 >= 128) && Value(data) == data % 128
    ensures Regen(data) == 257 * (data / 256) && Argument(data) == 17 * (data / 8 % 16)
  {
    hide Backup, Cached, Value, Regen, Argument;
    BytesAre(data);
    CachedIs(data);
    ValueIsRemainder(data);
    ArgumentIs(data);
  }

  /** What becomes of an item for which this was computed. */
  lemma WithValueCaches(data: bv16, raw: bv16)
    ensures Cached(WithValue(data, Value(raw))) && Value(WithValue(data, Value(raw))) == Value(raw)
    ensures Backup(WithValue(data, Value(raw))) == Backup(data)
  {
  }

  lemma RegenKeepsBackup(data: bv16)
    ensures Backup(Regen(data)) == Backup(data)
    ensures Regen(Regen(data)) == Regen(data)
  {
  }

  /** The operation argument: bits 3 to 6 twice over. */
  function Argument(data: bv16): bv16 {
    var d := (data >> 3) & 0xf;
    d | (d << 4)
  }

  /** An item's data after its value was asked for, if that takes no other benchmark. */
  ghost predicate Evaluated(before: bv16, after: bv16) {
    Cached(after) && (before % 8 > 1 ==> after % 128 == before % 128)
  }

  /** What an item asks of one of the other benchmarks. */
  datatype Ask = OfState(step: bv16, crc: bv16) | OfMatrix(seed: bv16, crc: bv16) | Nothing

  /** The low three bits of an item say what its value is computed from. */
  ghost function Asked(data: bv16, crc: bv16): Ask {
    if data % 8 == 0 then OfState(if Argument(data) < 0x22 then 0x22 else Argument(data), crc)
    else if data % 8 == 1 then OfMatrix(Argument(data), crc)
    else Nothing
  }

  lemma FlagIs(data: bv16)
    ensures data & 0x7 == data % 8
  {
  }

  /** The value of an item: the seven bits cached in it, or those of `raw`, which are then cached: what
      another benchmark returned, any 16-bit number here, or the item's own data. */
  method CalcFunc(item: ListData, res: Results) returns (retval: bv16, ghost raw: bv16)
    modifies item`data16, res
    ensures Cached(item.data16) && Backup(item.data16) == Backup(old(item.data16))
    ensures retval as nat == ValueOf(item.data16) && Evaluated(old(item.data16), item.data16)
    ensures old(Cached(item.data16)) ==> item.data16 == old(item.data16) && unchanged(res)
    ensures !old(Cached(item.data16)) ==>
              retval as nat == ValueOf(raw) && res.crc == Crc.Crc16(raw, old(res.crc))
              && res.computed == old(res.computed) + [item]
              && res.asked == old(res.asked) + [Asked(old(item.data16), old(res.crc))]
              && (old(item.data16) % 8 > 1 ==> raw == old(item.data16))
    ensures !old(Cached(item.data16)) ==>
              res.crcstate == (if old(item.data16) % 8 == 0 && old(res.crcstate) == 0 then raw else old(res.crcstate))
              && res.crcmatrix ==
                 if old(item.data16) % 8 == 1 && old(res.crcmatrix) == 0 then raw else old(res.crcmatrix)
  {
    hide Crc.Crc16, WithValue, Value, Backup, Cached, Argument, ValueOf;
    var data := item.data16;
    raw := data;
    if Cached(data) {
      retval := Value(data);
      ValueIs(data);
    } else {
      var flag := data & 0x7;
      FlagIs(data);
      var dtype := Argument(data);
      ghost var ask := Nothing;
      if flag == 0 {
        if dtype < 0x22 { dtype := 0x22; }
        retval, ask := BenchState(dtype, res.crc);
        if res.crcstate == 0 { res.crcstate := retval; }
      } else if flag == 1 {
        retval, ask := BenchMatrix(dtype, res.crc);
        if res.crcmatrix == 0 { res.crcmatrix := retval; }
      } else {
        retval := data;
      }
      raw := retval;
      res.crc := Crc.CrcU16(retval, res.crc);
      WithValueCaches(data, raw);
      ValueIs(raw);
      ValueIs(WithValue(data, Value(raw)));
      ValueIsRemainder(raw);
      ValueIsRemainder(WithValue(data, Value(raw)));
      retval := Value(retval);
      item.data16 := WithValue(data, retval);
      res.computed, res.asked := res.computed + [item], res.asked + [ask];
    }
  }

  /** Stand-ins for the benchmarks whose results an item may ask for. */
  method BenchState(step: bv16, crc: bv16) returns (r: bv16, ghost ask: Ask)
    ensures ask == OfState(step, crc)
  {
    r, ask := *, OfState(step, crc);
  }

  method BenchMatrix(seed: bv16, crc: bv16) returns (r: bv16, ghost ask: Ask)
    ensures ask == OfMatrix(seed, crc)
  {
    r, ask := *, OfMatrix(seed, crc);
  }

  /* ---- Comparators ---- */

  /** cmp_idx, with or without results to pass, and cmp_complex. */
  datatype Cmp = ByIndex(res: Results?) | ByValue(results: Results)

  /** The order a comparator imposes ... */
  ghost function KeyOf(cmp: Cmp, data: bv16, idx: int): int {
    if cmp.ByIndex? then idx else ValueOf(data)
  }

  ghost function Key(cmp: Cmp, item: ListData): int
    reads item
  {
    KeyOf(cmp, item.data16, item.idx)
  }

  /** ... and the state in which it leaves an item it has seen. */
  ghost predicate Settled(cmp: Cmp, data: bv16) {
    if cmp.ByIndex? then cmp.res == null ==> data == Regen(data) else Cached(data)
  }

  /** What a sort may do to an item's data: nothing once it is settled, never to the backup byte, and
      only the regeneration or the evaluation its comparator performs. */
  ghost predicate Evolves(cmp: Cmp, before: bv16, after: bv16) {
    Backup(after) == Backup(before)
    && (Settled(cmp, before) ==> after == before)
    && (after == before || if cmp.ByIndex? then cmp.res == null && after == Regen(before) else Evaluated(before, after))
  }

  lemma EvolvesReflexive(cmp: Cmp, x: bv16)
    ensures Evolves(cmp, x, x)
  {
  }

  lemma EvolvesKeepsSettled(cmp: Cmp, x: bv16, y: bv16)
    requires Evolves(cmp, x, y) && Settled(cmp, x)
    ensures y == x
  {
  }

  lemma EvolvesTransitive(cmp: Cmp, x: bv16, y: bv16, z: bv16)
    requires Evolves(cmp, x, y) && Evolves(cmp, y, z)
    ensures Evolves(cmp, x, z)
  {
    hide Backup, Regen, Cached, ValueOf;
    RegenKeepsBackup(x);
  }

  /** What a comparator may write besides the two items. */
  ghost function Scratch(cmp: Cmp): set<object> {
    if cmp.ByValue? then {cmp.results} else {}
  }

  ghost function Log(cmp: Cmp): seq<ListData>
    reads Scratch(cmp)
  {
    if cmp.ByValue? then cmp.results.computed else []
  }

  method CompareByValue(cmp: Cmp, a: ListData, b: ListData) returns (r: int)
    requires cmp.ByValue?
    modifies a`data16, b`data16, Scratch(cmp)
    ensures Settled(cmp, a.data16) && Settled(cmp, b.data16)
    ensures Evolves(cmp, old(a.data16), a.data16) && Evolves(cmp, old(b.data16), b.data16)
    ensures r == Key(cmp, a) - Key(cmp, b)
    ensures Log(cmp) == old(Log(cmp)) + (if old(Settled(cmp, a.data16)) then [] else [a])
                        + (if old(Settled(cmp, b.data16)) || a == b then [] else [b])
  {
    hide Cached, Backup, ValueOf, Evaluated, Asked, Crc.Crc16;
    var val1, _ := CalcFunc(a, cmp.results);
    var val2, _ := CalcFunc(b, cmp.results);
    r := val1 as int - val2 as int;
  }

  method CompareByIndex(cmp: Cmp, a: ListData, b: ListData) returns (r: int)
    requires cmp.ByIndex?
    modifies a`data16, b`data16
    ensures Settled(cmp, a.data16) && Settled(cmp, b.data16)
    ensures Evolves(cmp, old(a.data16), a.data16) && Evolves(cmp, old(b.data16), b.data16)
    ensures r == Key(cmp, a) - Key(cmp, b)
  {
    hide Regen, Backup;
    if cmp.res == null {
      RegenKeepsBackup(a.data16);
      RegenKeepsBackup(b.data16);
      a.data16 := Regen(a.data16);
      b.data16 := Regen(b.data16);
    }
    r := a.idx - b.idx;
  }
}
