/** The list benchmark: search, reversal, relinking, sorting and removal, all undone at the end. */
module ListBench {
  import opened ListOrder
  import opened CoreList
  import opened MergeSort
  import Crc

  ghost function Position(cells: seq<ListHead>, c: ListHead): (i: nat)
    requires c in cells
    ensures i < |cells| && cells[i] == c
  {
    var i :| 0 <= i < |cells| && cells[i] == c;
    i
  }

  ghost function Items(cells: seq<ListHead>): set<ListData>
    reads cells`info
  {
    set c | c in cells :: c.info
  }

  /** What a sort starts from, read off the heap. */
  ghost function StartOf(cmp: Cmp, cells: seq<ListHead>): Start
    reads cells`info, Items(cells), Scratch(cmp)
  {
    Start(cmp, cells, map c | c in cells :: Position(cells, c), map c | c in cells :: c.info,
          map x | x in Items(cells) :: x.data16, map x | x in Items(cells) :: x.idx, Log(cmp))
  }

  lemma StartIsRanked(cmp: Cmp, cells: seq<ListHead>)
    requires NoDuplicates(cells)
    ensures WellFormed(StartOf(cmp, cells))
  {
    hide Log, Scratch;
    var z := StartOf(cmp, cells);
    forall i | 0 <= i < |cells| ensures cells[i] in z.rank && z.rank[cells[i]] == i {
      assert cells[i] in cells;
      assert cells[Position(cells, cells[i])] == cells[i];
    }
  }

  lemma StartIsKept(cmp: Cmp, cells: seq<ListHead>)
    ensures ItemsKept(StartOf(cmp, cells))
  {
    hide Evolves, Settled, Log, Position;
    var z := StartOf(cmp, cells);
    forall x | x in z.data ensures Evolves(cmp, z.data[x], x.data16) {
      EvolvesReflexive(cmp, x.data16);
    }
  }

  lemma StartIsOnce(cmp: Cmp, cells: seq<ListHead>)
    ensures ComputedOnce(StartOf(cmp, cells))
  {
    hide Settled, Log, Position;
    assert Log(cmp)[|Log(cmp)|..] == [];
  }

  lemma StartIsWellFormed(cmp: Cmp, cells: seq<ListHead>)
    requires NoDuplicates(cells)
    ensures WellFormed(StartOf(cmp, cells)) && ItemsKept(StartOf(cmp, cells)) && ComputedOnce(StartOf(cmp, cells))
  {
    hide *;
    StartIsRanked(cmp, cells);
    StartIsKept(cmp, cells);
    StartIsOnce(cmp, cells);
  }

  /** Sorted by key; cells with equal keys keep their order. */
  ghost predicate SortedStably(cmp: Cmp, out: seq<ListHead>, cells: seq<ListHead>)
    reads out`info, Items(out)
  {
    forall i, j :: 0 <= i < j < |out| ==>
      out[i] in cells && out[j] in cells
      && (Key(cmp, out[i].info) < Key(cmp, out[j].info)
          || (Key(cmp, out[i].info) == Key(cmp, out[j].info) && Position(cells, out[i]) < Position(cells, out[j])))
  }

  lemma RunIsStable(z: Start, out: seq<ListHead>, key: map<ListHead, int>)
    requires Run(out, key, z.rank) && Knows(z, key) && ItemsKept(z) && WellFormed(z)
    requires z.rank.Keys == (set c | c in z.cells) && forall c :: c in z.cells ==> z.rank[c] == Position(z.cells, c)
    ensures SortedStably(z.cmp, out, z.cells)
  {
    hide Evolves, Settled, KeyOf, Position;
    forall i, j | 0 <= i < j < |out|
      ensures out[i] in z.cells && out[j] in z.cells
      ensures Key(z.cmp, out[i].info) < Key(z.cmp, out[j].info)
              || (Key(z.cmp, out[i].info) == Key(z.cmp, out[j].info)
                  && Position(z.cells, out[i]) < Position(z.cells, out[j]))
    {
      assert Before(key, z.rank, out[i], out[j]);
      assert z.rank[out[i]] == Position(z.cells, out[i]) && z.rank[out[j]] == Position(z.cells, out[j]);
    }
  }

  lemma RunIsSettled(z: Start, out: seq<ListHead>, key: map<ListHead, int>)
    requires Run(out, key, z.rank) && Knows(z, key) && ItemsKept(z) && WellFormed(z) && |out| >= 2
    ensures forall i :: 0 <= i < |out| ==> Settled(z.cmp, out[i].info.data16)
  {
    hide Evolves, Settled, KeyOf;
    forall i | 0 <= i < |out| ensures Settled(z.cmp, out[i].info.data16) {
      if i == 0 { assert Before(key, z.rank, out[0], out[1]); } else { assert Before(key, z.rank, out[0], out[i]); }
    }
  }

  lemma RunIsSorted(z: Start, out: seq<ListHead>, key: map<ListHead, int>)
    requires Run(out, key, z.rank) && Knows(z, key) && ItemsKept(z) && WellFormed(z)
    requires z.rank.Keys == (set c | c in z.cells) && forall c :: c in z.cells ==> z.rank[c] == Position(z.cells, c)
    ensures SortedStably(z.cmp, out, z.cells)
    ensures |out| >= 2 ==> forall i :: 0 <= i < |out| ==> Settled(z.cmp, out[i].info.data16)
  {
    hide *;
    RunIsStable(z, out, key);
    if |out| >= 2 { RunIsSettled(z, out, key); }
  }

  /** core_list_mergesort on a non-empty list: the same cells, in place, stably sorted. Only `next`
      pointers and item data change, data only as a comparator changes it; with two or more cells
      every item takes part in a comparison. */
  method CoreListMergesort(list: ListHead, cmp: Cmp, ghost cells: seq<ListHead>)
      returns (r: ListHead, ghost out: seq<ListHead>)
    requires |cells| > 0 && list == cells[0] && IsList(cells) && NoDuplicates(cells)
    modifies cells`next, Items(cells)`data16, Scratch(cmp)
    ensures |out| == |cells| && r == out[0] && IsList(out) && NoDuplicates(out) && multiset(out) == multiset(cells)
    ensures SortedStably(cmp, out, cells)
    ensures forall x :: x in Items(cells) ==> Evolves(cmp, old(x.data16), x.data16)
    ensures |cells| >= 2 ==> forall i :: 0 <= i < |out| ==> Settled(cmp, out[i].info.data16)
    ensures cmp.ByValue? ==> ComputedOnce(old(StartOf(cmp, cells)))
  {
    hide Evolves, Settled, KeyOf, Key, Run, Before, WellFormed, ItemsKept, ComputedOnce, Knows, SortedStably, StartOf,
      IsList,
      NoDuplicates;
    ghost var z := StartOf(cmp, cells);
    ghost var key;
    StartIsWellFormed(cmp, cells);
    StartParts(cmp, cells);
    r, out, key := Sort(z, cmp, list);
    RunIsSorted(z, out, key);
    KeptParts(z);
  }

  lemma StartParts(cmp: Cmp, cells: seq<ListHead>)
    ensures var z := StartOf(cmp, cells);
            z.cmp == cmp && z.cells == cells && z.rank.Keys == (set c | c in cells) && z.data.Keys == Items(cells)
            && (forall c :: c in cells ==> z.rank[c] == Position(cells, c))
            && (forall x :: x in Items(cells) ==> z.data[x] == x.data16)
  {
  }

  lemma KeptParts(z: Start)
    requires ItemsKept(z) && WellFormed(z)
    ensures forall x :: x in z.data ==> Evolves(z.cmp, z.data[x], x.data16)
  {
    hide Evolves;
  }

  /* ---- Searching, reversing, removing ---- */

  /** What core_list_find sees of an item. */
  datatype Entry = Entry(idx: int, data16: bv16)

  ghost function Entries(s: seq<ListHead>): (r: seq<Entry>)
    reads s`info, Items(s)
    ensures |r| == |s| && forall i :: 0 <= i < |s| ==> r[i] == Entry(s[i].info.idx, s[i].info.data16)
  {
    if |s| == 0 then [] else [Entry(s[0].info.idx, s[0].info.data16)] + Entries(s[1..])
  }

  /** What it looks for: the index unless that is negative, then the working byte. */
  ghost predicate Matches(e: Entry, idx: int, data16: bv16) {
    if idx >= 0 then e.idx == idx else e.data16 & 0xff == data16
  }

  /** The position of the first match, or the length of the list if there is none. */
  ghost function FirstMatch(s: seq<Entry>, idx: int, data16: bv16): (k: nat)
    ensures k <= |s| && (k < |s| ==> Matches(s[k], idx, data16))
    ensures forall i :: 0 <= i < k ==> !Matches(s[i], idx, data16)
  {
    if |s| == 0 || Matches(s[0], idx, data16) then 0 else 1 + FirstMatch(s[1..], idx, data16)
  }

  lemma FirstMatchIs(s: seq<Entry>, idx: int, data16: bv16, k: nat)
    requires k <= |s| && (k < |s| ==> Matches(s[k], idx, data16))
    requires forall i :: 0 <= i < k ==> !Matches(s[i], idx, data16)
    ensures FirstMatch(s, idx, data16) == k
  {
    hide Matches;
  }

  /** core_list_find: the first match, or null. */
  method CoreListFind(list: ListHead?, idx: int, data16: bv16, ghost cells: seq<ListHead>, ghost entries: seq<Entry>)
    returns (r: ListHead?)
    requires IsList(cells) && list == First(cells) && entries == Entries(cells)
    ensures r == First(cells[FirstMatch(entries, idx, data16)..])
  {
    hide IsList, Entries, FirstMatch;
    r := list;
    ghost var k := 0;
    if idx >= 0 {
      while r != null && r.info.idx != idx
        invariant k <= |cells| && r == First(cells[k..])
        invariant forall i :: 0 <= i < k ==> !Matches(entries[i], idx, data16)
        decreases |cells| - k
      {
        r, k := NextCell(r, k, cells);
      }
    } else {
      while r != null && r.info.data16 & 0xff != data16
        invariant k <= |cells| && r == First(cells[k..])
        invariant forall i :: 0 <= i < k ==> !Matches(entries[i], idx, data16)
        decreases |cells| - k
      {
        r, k := NextCell(r, k, cells);
      }
    }
    FirstMatchIs(entries, idx, data16, k);
  }

  method NextCell(c: ListHead, ghost k: nat, ghost cells: seq<ListHead>) returns (r: ListHead?, ghost k': nat)
    requires IsList(cells) && k < |cells| && c == First(cells[k..])
    ensures k' == k + 1 && r == First(cells[k'..])
  {
    assert k < |cells| - 1 ==> cells[k].next == cells[k + 1];
    r, k' := c.next, k + 1;
  }

  function Reversed<T>(s: seq<T>): (r: seq<T>)
    ensures |r| == |s| && forall i :: 0 <= i < |s| ==> r[i] == s[|s| - 1 - i]
  {
    if |s| == 0 then [] else Reversed(s[1..]) + [s[0]]
  }

  /** The cell before and the cell after position i, if any. */
  ghost function Left(s: seq<ListHead>, i: nat): ListHead?
    requires i <= |s|
  {
    if i > 0 then s[i - 1] else null
  }

  ghost function Right(s: seq<ListHead>, i: nat): ListHead?
    requires i < |s|
  {
    if i + 1 < |s| then s[i + 1] else null
  }

  ghost predicate LinkedLeft(s: seq<ListHead>, i: nat)
    requires i < |s|
    reads s`next
  {
    s[i].next == Left(s, i)
  }

  ghost predicate LinkedRight(s: seq<ListHead>, i: nat)
    requires i < |s|
    reads s`next
  {
    s[i].next == Right(s, i)
  }

  lemma ListByRight(s: seq<ListHead>)
    ensures IsList(s) <==> forall i :: 0 <= i < |s| ==> LinkedRight(s, i)
  {
    if IsList(s) {
      forall i | 0 <= i < |s| ensures LinkedRight(s, i) {
        assert i < |s| - 1 ==> s[i].next == s[i + 1];
      }
    }
    if forall i :: 0 <= i < |s| ==> LinkedRight(s, i) {
      forall i | 0 <= i < |s| - 1 ensures s[i].next == s[i + 1] {
        assert LinkedRight(s, i);
      }
      assert |s| > 0 ==> LinkedRight(s, |s| - 1);
    }
  }

  method CoreListReverse(list0: ListHead, ghost cells: seq<ListHead>) returns (r: ListHead)
    requires |cells| > 0 && list0 == cells[0] && IsList(cells) && NoDuplicates(cells)
    modifies cells`next
    ensures IsList(Reversed(cells)) && r == Reversed(cells)[0]
  {
    hide IsList, Reversed;
    var next: ListHead?, list: ListHead? := null, list0;
    ghost var k := 0;
    ListByRight(cells);
    while list != null
      invariant k <= |cells| && list == First(cells[k..]) && next == Left(cells, k)
      invariant forall i :: 0 <= i < k ==> LinkedLeft(cells, i)
      invariant forall i :: k <= i < |cells| ==> LinkedRight(cells, i)
      decreases |cells| - k
    {
      assert LinkedRight(cells, k);
      var tmp := list.next;
      label Here:
      list.next := next;
      forall i | 0 <= i <= k ensures LinkedLeft(cells, i) {
        assert i < k ==> old@Here(LinkedLeft(cells, i));
      }
      forall i | k < i < |cells| ensures LinkedRight(cells, i) {
        assert old@Here(LinkedRight(cells, i));
      }
      next := list;
      list := tmp;
      k := k + 1;
    }
    r := next;
    LeftwardIsReversed(cells);
  }

  lemma LeftwardIsReversed(cells: seq<ListHead>)
    requires forall i :: 0 <= i < |cells| ==> LinkedLeft(cells, i)
    ensures IsList(Reversed(cells))
  {
    hide IsList, Reversed;
    var t := Reversed(cells);
    forall i | 0 <= i < |t| ensures LinkedRight(t, i) {
      assert LinkedLeft(cells, |t| - 1 - i);
    }
    ListByRight(t);
  }

  lemma {:induction false} ReversedCells<T>(s: seq<T>)
    ensures multiset(Reversed(s)) == multiset(s)
    decreases |s|
  {
    if |s| > 0 {
      ReversedCells(s[1..]);
      assert s == [s[0]] + s[1..];
    }
  }

  lemma ReversedDistinct<T>(s: seq<T>)
    requires NoDuplicates(s)
    ensures NoDuplicates(Reversed(s))
  {
    var t := Reversed(s);
    forall i, j | 0 <= i < j < |t| ensures t[i] != t[j] {
      assert s[|s| - 1 - j] != s[|s| - 1 - i];
    }
  }

  /** The cells of `cells`, relinked into the list cur. */
  ghost predicate Relinked(cur: seq<ListHead>, cells: seq<ListHead>)
    reads cur`next
  {
    IsList(cur) && NoDuplicates(cur) && multiset(cur) == multiset(cells) && |cur| == |cells|
  }

  /** The cell behind position j moved to position 1. */
  function MovedUp<T>(s: seq<T>, j: nat): seq<T>
    requires j + 1 < |s|
  {
    [s[0], s[j + 1]] + s[1..j + 1] + s[j + 2..]
  }

  lemma MovedUpAt<T>(s: seq<T>, j: nat, i: nat)
    requires j + 1 < |s| && i < |s|
    ensures |MovedUp(s, j)| == |s|
    ensures MovedUp(s, j)[i] ==
            if i == 0 then s[0] else if i == 1 then s[j + 1] else if i <= j + 1 then s[i - 1] else s[i]
  {
  }

  lemma MovedUpCells<T>(s: seq<T>, j: nat)
    requires j + 1 < |s|
    ensures multiset(MovedUp(s, j)) == multiset(s)
  {
    assert s == [s[0]] + s[1..j + 1] + [s[j + 1]] + s[j + 2..];
  }

  lemma SameCellsDistinct(s: seq<ListHead>, t: seq<ListHead>)
    requires NoDuplicates(s) && multiset(t) == multiset(s)
    ensures NoDuplicates(t)
  {
    forall i, j | 0 <= i < j < |t| ensures t[i] != t[j] {
      if t[i] == t[j] {
        Twice(t, i, j);
        Once(s, t[i]);
      }
    }
  }

  lemma Twice(t: seq<ListHead>, i: nat, j: nat)
    requires i < j < |t| && t[i] == t[j]
    ensures multiset(t)[t[i]] >= 2
  {
    assert t == t[..i] + [t[i]] + t[i + 1..j] + [t[j]] + t[j + 1..];
  }

  lemma {:induction false} Once(s: seq<ListHead>, c: ListHead)
    requires NoDuplicates(s)
    ensures multiset(s)[c] <= 1
    decreases |s|
  {
    if |s| > 0 {
      assert s == [s[0]] + s[1..];
      Once(s[1..], c);
      if s[0] == c {
        assert c !in s[1..];
      }
    }
  }

  /** The cell behind position j, if there is one, moved up behind the head. */
  function CachedNext<T>(s: seq<T>, j: nat): (r: seq<T>)
    requires j < |s|
    ensures |r| == |s|
  {
    if j + 1 < |s| then MovedUp(s, j) else s
  }

  /** Moves the cell behind `found` up behind the head. */
  method CacheNext(list: ListHead, found: ListHead, ghost cells: seq<ListHead>, ghost j: nat)
    requires IsList(cells) && NoDuplicates(cells) && j < |cells| && list == cells[0] && found == cells[j]
    modifies cells`next
    ensures IsList(CachedNext(cells, j))
  {
    ListByRight(cells);
    if found.next != null {
      ghost var out := MovedUp(cells, j);
      var finder := found.next;
      found.next := finder.next;
      finder.next := list.next;
      list.next := finder;
      forall i | 0 <= i < |out| ensures LinkedRight(out, i) {
        MovedUpAt(cells, j, i);
        if i + 1 < |out| { MovedUpAt(cells, j, i + 1); }
      }
      ListByRight(out);
    }
  }

  /** The order of the cells after a search that stopped at position k of s. */
  function Searched<T>(s: seq<T>, k: nat): (r: seq<T>)
    requires k <= |s|
    ensures |r| == |s|
  {
    if k == |s| then Reversed(s) else CachedNext(Reversed(s), |s| - 1 - k)
  }

  lemma CachedCells(s: seq<ListHead>, j: nat)
    requires j < |s|
    ensures multiset(CachedNext(s, j)) == multiset(s) && CachedNext(s, j)[0] == s[0]
  {
    hide MovedUp;
    if j + 1 < |s| {
      MovedUpCells(s, j);
      MovedUpAt(s, j, 0);
    }
  }

  lemma SearchedCells(s: seq<ListHead>, k: nat)
    requires k <= |s| && NoDuplicates(s)
    ensures multiset(Searched(s, k)) == multiset(s) && |Searched(s, k)| == |s| && NoDuplicates(Searched(s, k))
    ensures |s| > 0 ==> Searched(s, k)[0] == s[|s| - 1]
  {
    hide MovedUp, Reversed, CachedNext, NoDuplicates;
    ReversedCells(s);
    if k < |s| { CachedCells(Reversed(s), |s| - 1 - k); }
    SameCellsDistinct(s, Searched(s, k));
  }

  /** A signed 16-bit increment. */
  function NextIndex(idx: int): int {
    if idx == 0x7fff then -0x8000 else idx + 1
  }

  lemma FoundIn(s: seq<ListHead>, k: nat, c: ListHead?)
    requires k <= |s| && c == First(s[k..])
    ensures c != null ==> k < |s| && c == s[k]
  {
  }

  lemma StillThere(s: seq<ListHead>, t: seq<ListHead>, k: nat) returns (j: nat)
    requires multiset(s) == multiset(t) && k < |s|
    ensures j < |t| && t[j] == s[k]
  {
    assert s[k] in multiset(s);
    assert s[k] in t;
    j :| 0 <= j < |t| && t[j] == s[k];
  }

  function OddPart(x: bv16): nat {
    if x & 1 != 0 then 1 else 0
  }

  lemma BitsOf(x: bv16)
    ensures x & 0x1 != 0 <==> x % 2 == 1
    ensures OddPart(x >> 8) == (if x / 256 % 2 == 1 then 1 else 0)
    ensures OddPart(x >> 9) == (if x / 512 % 2 == 1 then 1 else 0)
  {
  }

  /** What a search of s that stopped at position k adds to the result: bit 9 of an odd item found, or
      bit 8 of the last item but one. */
  ghost function SearchBit(s: seq<Entry>, k: nat): nat
    requires |s| >= 2 && k <= |s|
  {
    if k == |s| then (if s[|s| - 2].data16 / 256 % 2 == 1 then 1 else 0)
    else if s[k].data16 % 2 == 1 && s[k].data16 / 512 % 2 == 1 then 1
    else 0
  }

  /** One search: find, reverse, and cache the cell behind the one found. */
  method FindOnce(list0: ListHead, idx: int, data16: bv16, ghost s: seq<ListHead>)
    returns (list: ListHead, found: bool, bit: nat, ghost k: nat)
    requires |s| >= 2 && IsList(s) && NoDuplicates(s) && list0 == s[0]
    modifies s`next
    ensures k == FirstMatch(old(Entries(s)), idx, data16) <= |s| && (found <==> k < |s|)
    ensures IsList(Searched(s, k)) && list == s[|s| - 1]
    ensures bit == SearchBit(old(Entries(s)), k)
  {
    hide IsList, NoDuplicates, Searched, FirstMatch, CachedNext, OddPart, Entries, Reversed;
    ghost var entries := Entries(s);
    var thisFind;
    thisFind := CoreListFind(list0, idx, data16, s, entries);
    k := FirstMatch(entries, idx, data16);
    FoundIn(s, k, thisFind);
    list := CoreListReverse(list0, s);
    SearchedParts(s, k);
    bit := 0;
    if thisFind == null {
      found := false;
      bit := MissedBit(list, s);
    } else {
      found := true;
      BitsOf(thisFind.info.data16);
      if thisFind.info.data16 & 0x1 != 0 {
        bit := OddPart(thisFind.info.data16 >> 9);
      }
      CacheNext(list, thisFind, Reversed(s), |s| - 1 - k);
    }
  }

  method MissedBit(list: ListHead, ghost s: seq<ListHead>) returns (bit: nat)
    requires |s| >= 2 && IsList(Reversed(s)) && list == s[|s| - 1]
    ensures bit == if s[|s| - 2].info.data16 / 256 % 2 == 1 then 1 else 0
  {
    hide OddPart;
    assert Reversed(s)[0].next == Reversed(s)[1];
    BitsOf(list.next.info.data16);
    bit := OddPart(list.next.info.data16 >> 8);
  }

  lemma SearchedParts(s: seq<ListHead>, k: nat)
    requires k <= |s| && NoDuplicates(s)
    ensures NoDuplicates(Reversed(s)) && forall c :: c in Reversed(s) ==> c in s
    ensures k == |s| ==> Searched(s, k) == Reversed(s)
    ensures k < |s| ==> Searched(s, k) == CachedNext(Reversed(s), |s| - 1 - k) && Reversed(s)[|s| - 1 - k] == s[k]
  {
    ReversedDistinct(s);
    ReversedMembers(s);
  }

  lemma ReversedMembers(s: seq<ListHead>)
    ensures forall c :: c in Reversed(s) ==> c in s
  {
  }

  lemma SameMembers(s: seq<ListHead>, t: seq<ListHead>)
    requires multiset(s) == multiset(t)
    ensures forall i :: 0 <= i < |s| ==> s[i] in t
    ensures (set c | c in s) == (set c | c in t)
  {
    forall c ensures c in s <==> c in t {
      assert c in s <==> c in multiset(s);
      assert c in t <==> c in multiset(t);
    }
  }

  lemma RelinkedParts(cur: seq<ListHead>, cells: seq<ListHead>)
    requires Relinked(cur, cells)
    ensures IsList(cur) && NoDuplicates(cur) && |cur| == |cells|
  {
  }

  /* ---- All the searches ---- */

  /** Where the item at position i stood before a search that stopped at position k of n. */
  function Source(n: nat, k: nat, i: nat): (j: nat)
    requires k <= n && i < n
    ensures j < n
  {
    if k == n || k == 0 || i == 0 || i > n - k then n - 1 - i
    else if i == 1 then k - 1
    else n - i
  }

  lemma SearchedAt<T>(s: seq<T>, k: nat, i: nat)
    requires k <= |s| && i < |s|
    ensures Searched(s, k)[i] == s[Source(|s|, k, i)]
  {
    hide MovedUp, Reversed;
    if 0 < k < |s| { MovedUpAt(Reversed(s), |s| - 1 - k, i); }
  }

  lemma EntriesSearched(s: seq<ListHead>, k: nat)
    requires k <= |s|
    ensures Entries(Searched(s, k)) == Searched(Entries(s), k)
  {
    hide *;
    forall i | 0 <= i < |s| ensures Entries(Searched(s, k))[i] == Searched(Entries(s), k)[i] {
      SearchedAt(s, k, i);
      SearchedAt(Entries(s), k, i);
    }
  }

  /** Where n searches lead: the order of the items, the index looked for next, how many have found
      something and how many have not, and the bits they add. */
  datatype Search = Search(order: seq<Entry>, idx: int, found: nat, missed: nat, bits: nat)

  ghost function Searches(s: seq<Entry>, idx: int, n: nat): (f: Search)
    requires |s| >= 2
    ensures |f.order| == |s| && f.found + f.missed == n && f.bits <= n
    decreases n
  {
    if n == 0 then Search(s, idx, 0, 0, 0)
    else
      var f := Searches(s, idx, n - 1);
      var k := FirstMatch(f.order, f.idx, Sought(n));
      Search(Searched(f.order, k), if f.idx >= 0 then NextIndex(f.idx) else f.idx,
             if k < |s| then f.found + 1 else f.found, if k < |s| then f.missed else f.missed + 1,
             f.bits + SearchBit(f.order, k))
  }

  /** The byte search number n, counted from 1, looks for if not for an index. */
  function Sought(n: nat): bv16 {
    if n == 0 then 0 else ((n - 1) % 256) as bv16
  }

  /** The index sought goes up by one a search, until the next one would not fit 16 bits; from then on, as
      for a negative index from the start, bytes are sought. */
  lemma {:induction false} IndexSought(s: seq<Entry>, idx: int, n: nat)
    requires |s| >= 2 && -0x8000 <= idx < 0x8000
    ensures Searches(s, idx, n).idx == if idx < 0 then idx else if idx + n < 0x8000 then idx + n else -0x8000
    decreases n
  {
    hide FirstMatch, Searched, SearchBit, Sought;
    if n > 0 { IndexSought(s, idx, n - 1); }
  }

  const NUMBERS: nat := 0x1_0000

  /** The result after the searches, cut to 16 bits. */
  ghost function Tally(f: Search): (r: nat)
    ensures r < NUMBERS
  {
    (f.bits + 4 * f.found - f.missed) % NUMBERS
  }

  function AtLeastNone(n: int): nat {
    if n > 0 then n else 0
  }

  lemma WrapsOnce(a: int, b: int)
    ensures (a % NUMBERS + b) % NUMBERS == (a + b) % NUMBERS
  {
  }

  lemma TallyWraps(bits: nat, found: nat, missed: nat)
    ensures (bits % NUMBERS + (found % NUMBERS * 4 - missed % NUMBERS)) % NUMBERS
            == (bits + 4 * found - missed) % NUMBERS
  {
    WrapsOnce(bits, 4 * found - missed);
    var p, q := found / NUMBERS, missed / NUMBERS;
    assert found == NUMBERS * p + found % NUMBERS && missed == NUMBERS * q + missed % NUMBERS;
    WholeWraps(bits % NUMBERS + (found % NUMBERS * 4 - missed % NUMBERS), 4 * p - q);
  }

  lemma WholeWraps(a: int, k: int)
    ensures (a + NUMBERS * k) % NUMBERS == a % NUMBERS
  {
  }

  /** The loop's variables in the middle of the searches. */
  ghost predicate Midst(f: Search, order: seq<Entry>, idx: int, retval: nat, found: nat, missed: nat) {
    order == f.order && idx == f.idx
    && retval == f.bits % NUMBERS && found == f.found % NUMBERS && missed == f.missed % NUMBERS
  }

  lemma NoneYet(s: seq<Entry>, idx: int)
    requires |s| >= 2
    ensures Midst(Searches(s, idx, 0), s, idx, 0, 0, 0)
  {
  }

  lemma NextSearch(s: seq<Entry>, idx: int, n: nat)
    requires |s| >= 2
    ensures var f, g := Searches(s, idx, n), Searches(s, idx, n + 1);
            var k := FirstMatch(f.order, f.idx, Sought(n + 1));
            g.order == Searched(f.order, k) && g.idx == (if f.idx >= 0 then NextIndex(f.idx) else f.idx)
            && g.found == (if k < |s| then f.found + 1 else f.found)
            && g.missed == (if k < |s| then f.missed else f.missed + 1)
            && g.bits == f.bits + SearchBit(f.order, k)
  {
    hide FirstMatch, Searched, SearchBit, Sought, NextIndex;
  }

  lemma OneMore(s: seq<Entry>, idx0: int, n: nat, order: seq<Entry>, idx: int, retval: nat, found: nat, missed: nat)
    requires |s| >= 2 && Midst(Searches(s, idx0, n), order, idx, retval, found, missed)
    ensures |order| == |s|
    ensures var k := FirstMatch(order, idx, Sought(n + 1));
            Midst(Searches(s, idx0, n + 1), Searched(order, k), if idx >= 0 then NextIndex(idx) else idx,
                  (retval + SearchBit(order, k)) % NUMBERS,
                  if k < |order| then (found + 1) % NUMBERS else found,
                  if k < |order| then missed else (missed + 1) % NUMBERS)
  {
    hide FirstMatch, Searched, SearchBit, Sought, Searches, NextIndex;
    var f := Searches(s, idx0, n);
    NextSearch(s, idx0, n);
    WrapsOnce(f.found, 1);
    WrapsOnce(f.missed, 1);
    WrapsOnce(f.bits, SearchBit(order, FirstMatch(order, idx, Sought(n + 1))));
  }

  /** One search of a relinked list. */
  method SearchOnce(list0: ListHead, idx: int, data16: bv16, ghost cells: seq<ListHead>, ghost cur0: seq<ListHead>)
    returns (list: ListHead, hit: bool, bit: nat, ghost cur: seq<ListHead>)
    requires |cells| >= 2 && Relinked(cur0, cells) && list0 == cur0[0]
    modifies cells`next
    ensures Relinked(cur, cells) && |cur| == |cells| && list == cur[0]
    ensures var e := old(Entries(cur0));
            var k := FirstMatch(e, idx, data16);
            Entries(cur) == Searched(e, k) && (hit <==> k < |e|) && bit == SearchBit(e, k)
  {
    hide IsList, NoDuplicates, FirstMatch, Searched, SearchBit, Entries;
    ghost var k;
    ghost var e := Entries(cur0);
    SameMembers(cur0, cells);
    RelinkedParts(cur0, cells);
    list, hit, bit, k := FindOnce(list0, idx, data16, cur0);
    assert forall i :: 0 <= i < |e| ==> Entries(cur0)[i] == e[i];
    assert Entries(cur0) == e;
    EntriesSearched(cur0, k);
    SearchedCells(cur0, k);
    cur := Searched(cur0, k);
  }

  /** All the searches. */
  method FindAll(list0: ListHead, findNum: int, finderIdx: int, ghost cells: seq<ListHead>)
    returns (list: ListHead, idx: int, data16: bv16, retval: nat, ghost cur: seq<ListHead>)
    requires |cells| >= 2 && IsList(cells) && NoDuplicates(cells) && list0 == cells[0]
    modifies cells`next
    ensures Relinked(cur, cells) && list == cur[0]
    ensures var f := Searches(old(Entries(cells)), finderIdx, AtLeastNone(findNum));
            Entries(cur) == f.order && idx == f.idx && retval == Tally(f)
    ensures data16 == Sought(AtLeastNone(findNum))
  {
    hide IsList, NoDuplicates, FirstMatch, Searched, SearchBit, Entries, Searches, Relinked, Midst, Sought, Tally,
      NextIndex, AtLeastNone, Reversed;
    list, cur, idx, data16, retval := list0, cells, finderIdx, 0, 0;
    NotRelinked(cells);
    ghost var before := Entries(cells);
    var found: nat, missed: nat := 0, 0;
    NoneYet(before, finderIdx);
    var i := 0;
    NextSought(0);
    while i < findNum
      invariant Relinked(cur, cells) && |cur| == |cells| && list == cur[0]
      invariant i == 0 || 0 < i <= findNum
      invariant Midst(Searches(before, finderIdx, i), Entries(cur), idx, retval, found, missed) && data16 == Sought(i)
    {
      data16 := (i % 256) as bv16;
      NextSought(i);
      OneMore(before, finderIdx, i, Entries(cur), idx, retval, found, missed);
      var hit, bit;
      list, hit, bit, cur := SearchOnce(list, idx, data16, cells, cur);
      if hit { found := (found + 1) % NUMBERS; } else { missed := (missed + 1) % NUMBERS; }
      retval := (retval + bit) % NUMBERS;
      if idx >= 0 { idx := NextIndex(idx); }
      i := i + 1;
    }
    AllDone(findNum, i);
    AllTallied(Searches(before, finderIdx, i), Entries(cur), idx, retval, found, missed);
    retval := (retval + (found * 4 - missed)) % NUMBERS;
  }

  lemma NotRelinked(cells: seq<ListHead>)
    requires IsList(cells) && NoDuplicates(cells)
    ensures Relinked(cells, cells)
  {
  }

  lemma AllDone(findNum: int, i: int)
    requires i >= findNum && (i == 0 || 0 < i <= findNum)
    ensures i == AtLeastNone(findNum)
  {
  }

  lemma NextSought(i: nat)
    ensures Sought(i + 1) == (i % 256) as bv16 && Sought(0) == 0
  {
  }

  lemma AllTallied(f: Search, order: seq<Entry>, idx: int, retval: nat, found: nat, missed: nat)
    requires Midst(f, order, idx, retval, found, missed)
    ensures order == f.order && idx == f.idx && (retval + (found * 4 - missed)) % NUMBERS == Tally(f)
  {
    TallyWraps(f.bits, f.found, f.missed);
  }

  /** core_list_remove: the cell behind item goes, taking item's data with it. */
  method CoreListRemove(item: ListHead, ghost cells: seq<ListHead>) returns (ret: ListHead)
    requires |cells| >= 3 && IsList(cells) && NoDuplicates(cells) && item == cells[1]
    modifies cells[1], cells[2]
    ensures ret == cells[2] && ret.next == null && IsList(cells[..2] + cells[3..])
    ensures cells[1].info == old(cells[2].info) && cells[2].info == old(cells[1].info)
  {
    ListByRight(cells);
    ret := item.next;
    var tmp := item.info;
    item.info := ret.info;
    ret.info := tmp;
    item.next := item.next.next;
    ret.next := null;
    ghost var out := cells[..2] + cells[3..];
    forall i | 0 <= i < |out| ensures LinkedRight(out, i) {
      assert out[i] == if i < 2 then cells[i] else cells[i + 1];
    }
    ListByRight(out);
  }

  /** core_list_undo_remove. */
  method CoreListUndoRemove(removed: ListHead, modified: ListHead, ghost cells: seq<ListHead>)
    requires |cells| >= 3 && IsList(cells[..2] + cells[3..]) && NoDuplicates(cells)
    requires removed == cells[2] && modified == cells[1]
    modifies cells[1], cells[2]
    ensures IsList(cells)
    ensures cells[1].info == old(cells[2].info) && cells[2].info == old(cells[1].info)
  {
    ghost var out := cells[..2] + cells[3..];
    ListByRight(out);
    assert forall i :: 0 <= i < |out| ==> out[i] == if i < 2 then cells[i] else cells[i + 1];
    assert LinkedRight(out, 1);
    var tmp := removed.info;
    removed.info := modified.info;
    modified.info := tmp;
    removed.next := modified.next;
    modified.next := removed;
    forall i | 0 <= i < |cells| ensures LinkedRight(cells, i) {
      if i > 2 { assert cells[i] == out[i - 1]; }
    }
    ListByRight(cells);
  }

  /** The CRC after n more copies of a number. */
  function CrcOfCopies(x: bv16, n: nat, crc: bv16): bv16
    decreases n
  {
    if n == 0 then crc else CrcOfCopies(x, n - 1, Crc.Crc16(x, crc))
  }

  /** Walks to the end of a list, feeding the head's data to the CRC once per cell passed. */
  method CrcWalk(list: ListHead, finder0: ListHead?, retval0: bv16, ghost cells: seq<ListHead>, ghost k0: nat)
      returns (retval: bv16)
    requires IsList(cells) && k0 <= |cells| && finder0 == First(cells[k0..])
    ensures retval == CrcOfCopies(list.info.data16, |cells| - k0, retval0)
  {
    hide IsList, Crc.Crc16;
    retval := retval0;
    var finder := finder0;
    ghost var k := k0;
    while finder != null
      invariant k <= |cells| && finder == First(cells[k..])
      invariant CrcOfCopies(list.info.data16, |cells| - k, retval)
                == CrcOfCopies(list.info.data16, |cells| - k0, retval0)
      decreases |cells| - k
    {
      retval := Crc.CrcU16(list.info.data16, retval);
      finder, k := NextCell(finder, k, cells);
    }
  }

  method SecondCell(list: ListHead, ghost cells: seq<ListHead>) returns (next: ListHead)
    requires |cells| >= 2 && IsList(cells) && list == cells[0]
    ensures next == cells[1] && next == First(cells[1..])
  {
    assert cells[0].next == cells[1];
    next := list.next;
  }

  /* ---- The benchmark ---- */

  /** In strictly increasing order of idx, as core_list_init leaves the list. */
  ghost predicate IndexSorted(s: seq<ListHead>)
    reads s`info, Items(s)
  {
    forall i, j :: 0 <= i < j < |s| ==> s[i].info.idx < s[j].info.idx
  }

  lemma SameLeast(a: seq<ListHead>, b: seq<ListHead>)
    requires multiset(a) == multiset(b) && |a| == |b| > 0 && IndexSorted(a) && IndexSorted(b)
    ensures a[0] == b[0]
  {
    var k := StillThere(a, b, 0);
    var l := StillThere(b, a, 0);
  }

  lemma IndexSortedTail(s: seq<ListHead>)
    requires |s| > 0 && IndexSorted(s)
    ensures IndexSorted(s[1..])
  {
  }

  lemma TailCells(s: seq<ListHead>)
    requires |s| > 0
    ensures multiset(s[1..]) == multiset(s) - multiset{s[0]} && s == [s[0]] + s[1..]
  {
    assert s == [s[0]] + s[1..];
  }

  lemma {:induction false} IndexOrderIsUnique(a: seq<ListHead>, b: seq<ListHead>)
    requires multiset(a) == multiset(b) && |a| == |b| && IndexSorted(a) && IndexSorted(b)
    ensures a == b
    decreases |a|
  {
    hide IndexSorted;
    if |a| > 0 {
      SameLeast(a, b);
      IndexSortedTail(a);
      IndexSortedTail(b);
      TailCells(a);
      TailCells(b);
      IndexOrderIsUnique(a[1..], b[1..]);
    }
  }

  /** With distinct indices a stable sort by index is strictly increasing. */
  lemma StrictByIndex(out: seq<ListHead>, cells: seq<ListHead>, z: seq<ListHead>)
    requires SortedStably(ByIndex(null), out, cells) && NoDuplicates(out)
    requires multiset(out) == multiset(z) && IndexSorted(z)
    ensures IndexSorted(out)
  {
    hide Position;
    forall i, j | 0 <= i < j < |out| ensures out[i].info.idx < out[j].info.idx {
      assert Key(ByIndex(null), out[i].info) <= Key(ByIndex(null), out[j].info);
      var k := StillThere(out, z, i);
      var l := StillThere(out, z, j);
      assert out[i] != out[j];
    }
  }

  lemma RegenFromBackup(x: bv16, y: bv16)
    requires Backup(x) == Backup(y)
    ensures Regen(x) == Regen(y)
  {
    assert Regen(x) == Regen(Backup(x)) && Regen(y) == Regen(Backup(y));
  }

  lemma FinalData(before: bv16, middle: bv16, after: bv16)
    requires Backup(middle) == Backup(before)
    requires Evolves(ByIndex(null), middle, after) && Settled(ByIndex(null), after)
    ensures after == Regen(before)
  {
    hide Backup, Regen;
    RegenFromBackup(after, before);
  }

  /** The CRC over the items left when the second one is gone: one copy of the head's data for each item
      from the match on, or from the second on if there is none. */
  ghost function RemovalCrc(order: seq<Entry>, idx: int, data16: bv16, crc: bv16): bv16
    requires |order| >= 3
  {
    var rest := order[..1] + order[2..];
    var k := FirstMatch(rest, idx, data16);
    CrcOfCopies(order[0].data16, |rest| - (if k < |rest| then k else 1), crc)
  }

  /** Removes the cell behind the second one, walks the rest and puts it back. */
  method RemoveAndUndo(list: ListHead, idx: int, data16: bv16, retval0: bv16, ghost cur: seq<ListHead>)
      returns (retval: bv16)
    requires |cur| >= 3 && IsList(cur) && NoDuplicates(cur) && list == cur[0]
    modifies cur
    ensures IsList(cur)
    ensures forall c :: c in cur ==> c.info == old(c.info)
    ensures retval == RemovalCrc(old(Entries(cur)), idx, data16, retval0)
  {
    hide FirstMatch, CrcOfCopies, Entries, IsList;
    ghost var order := Entries(cur);
    ghost var out := cur[..2] + cur[3..];
    var second := SecondCell(list, cur);
    var remover := CoreListRemove(second, cur);
    ghost var rest := order[..1] + order[2..];
    assert Entries(out) == rest;
    retval := WalkFromMatch(list, idx, data16, retval0, out, rest);
    second := SecondCell(list, out);
    CoreListUndoRemove(remover, second, cur);
  }

  /** Walks the list from the match on, or from the second cell on if there is none. */
  method WalkFromMatch(list: ListHead, idx: int, data16: bv16, retval0: bv16, ghost cells: seq<ListHead>,
      ghost entries: seq<Entry>)
    returns (retval: bv16)
    requires |cells| >= 2 && IsList(cells) && list == cells[0] && entries == Entries(cells)
    ensures var k := FirstMatch(entries, idx, data16);
            retval == CrcOfCopies(entries[0].data16, |cells| - (if k < |cells| then k else 1), retval0)
  {
    hide FirstMatch, CrcOfCopies, Entries, IsList;
    var finder := CoreListFind(list, idx, data16, cells, entries);
    ghost var k := FirstMatch(entries, idx, data16);
    if finder == null {
      finder := SecondCell(list, cells);
      k := 1;
    }
    retval := CrcWalk(list, finder, retval0, cells, k);
  }

  /** `after` is `before` with every value computed, in ascending order of value, equal values in the order
      they had; from[i] is where item i stood. */
  ghost predicate ValueOrder(after: seq<Entry>, before: seq<Entry>, from: seq<nat>) {
    |after| == |before| == |from| && NoDuplicates(from)
    && (forall i :: 0 <= i < |from| ==> from[i] < |before| && Computed(before[from[i]], after[i]))
    && (forall i, j :: 0 <= i < j < |from| ==>
          ValueOf(after[i].data16) < ValueOf(after[j].data16)
          || (ValueOf(after[i].data16) == ValueOf(after[j].data16) && from[i] < from[j]))
  }

  /** Item y is x with its value computed: as it was if that had been done before, and else with its own
      low seven bits unless another benchmark supplied them. */
  ghost predicate Computed(x: Entry, y: Entry) {
    y.idx == x.idx && Backup(y.data16) == Backup(x.data16) && Evaluated(x.data16, y.data16)
    && (Cached(x.data16) ==> y == x)
  }

  lemma EvolvesComputes(res: Results, x: Entry, y: Entry)
    requires y.idx == x.idx && Evolves(ByValue(res), x.data16, y.data16) && Settled(ByValue(res), y.data16)
    ensures Computed(x, y)
  {
    hide Backup, Cached, ValueOf;
  }

  ghost function Places(out: seq<ListHead>, cells: seq<ListHead>): (from: seq<nat>)
    requires forall i :: 0 <= i < |out| ==> out[i] in cells
    ensures |from| == |out| && forall i :: 0 <= i < |out| ==> from[i] == Position(cells, out[i])
  {
    seq(|out|, i requires 0 <= i < |out| => Position(cells, out[i]))
  }

  lemma PlacesDistinct(out: seq<ListHead>, cells: seq<ListHead>)
    requires NoDuplicates(out) && forall i :: 0 <= i < |out| ==> out[i] in cells
    ensures NoDuplicates(Places(out, cells))
  {
    hide Position;
  }

  /** Each item of out is what a sort by value may have made of the one it was before. */
  ghost predicate Evaluates(res: Results, out: seq<ListHead>, cells: seq<ListHead>, before: seq<Entry>)
    requires |cells| == |before| && forall i :: 0 <= i < |out| ==> out[i] in cells
    reads out`info, Items(out)
  {
    forall i :: 0 <= i < |out| ==>
      var x, y := before[Position(cells, out[i])], out[i].info;
      x.idx == y.idx && Evolves(ByValue(res), x.data16, y.data16) && Settled(ByValue(res), y.data16)
  }

  lemma SortedIsValueOrder(res: Results, out: seq<ListHead>, cells: seq<ListHead>, before: seq<Entry>)
    requires |out| == |cells| == |before| && NoDuplicates(out) && SortedStably(ByValue(res), out, cells)
    requires forall i :: 0 <= i < |out| ==> out[i] in cells
    requires Evaluates(res, out, cells, before)
    ensures ValueOrder(Entries(out), before, Places(out, cells))
  {
    hide Evaluates, ValueOf, Position, NoDuplicates, Computed, SortedStably, Entries, Places;
    PlacesDistinct(out, cells);
    PlacesSorted(res, out, cells);
    PlacesComputed(res, out, cells, before);
  }

  lemma PlacesComputed(res: Results, out: seq<ListHead>, cells: seq<ListHead>, before: seq<Entry>)
    requires |out| == |cells| == |before| && forall i :: 0 <= i < |out| ==> out[i] in cells
    requires Evaluates(res, out, cells, before)
    ensures var after, from := Entries(out), Places(out, cells);
            forall i :: 0 <= i < |from| ==> from[i] < |before| && Computed(before[from[i]], after[i])
  {
    hide Evolves, Settled, Position, Computed, Entries, Places;
    var after, from := Entries(out), Places(out, cells);
    forall i | 0 <= i < |from| ensures from[i] < |before| && Computed(before[from[i]], after[i]) {
      EvolvesComputes(res, before[from[i]], after[i]);
    }
  }

  lemma PlacesSorted(res: Results, out: seq<ListHead>, cells: seq<ListHead>)
    requires SortedStably(ByValue(res), out, cells) && forall i :: 0 <= i < |out| ==> out[i] in cells
    ensures var after, from := Entries(out), Places(out, cells);
            forall i, j :: 0 <= i < j < |out| ==>
              ValueOf(after[i].data16) < ValueOf(after[j].data16)
              || (ValueOf(after[i].data16) == ValueOf(after[j].data16) && from[i] < from[j])
  {
    hide ValueOf, Position, Entries, Places;
  }

  /** The sort by computed value. */
  method ValueSort(res: Results, list0: ListHead, ghost cells: seq<ListHead>)
    returns (list: ListHead, ghost out: seq<ListHead>, ghost from: seq<nat>)
    requires |cells| >= 2 && IsList(cells) && NoDuplicates(cells) && list0 == cells[0]
    modifies cells`next, Items(cells)`data16, res
    ensures Relinked(out, cells) && list == out[0]
    ensures forall x :: x in Items(cells) ==> Evolves(ByValue(res), old(x.data16), x.data16)
    ensures ValueOrder(Entries(out), old(Entries(cells)), from)
  {
    hide IsList, NoDuplicates, SortedStably, ComputedOnce, Settled, StartOf, ValueOrder, Evolves, Entries, Position,
      Items, Places;
    ghost var before := Entries(cells);
    InfoIsItem(cells);
    list, out := CoreListMergesort(list0, ByValue(res), cells);
    SameMembers(out, cells);
    InfoIsItem(cells);
    forall i | 0 <= i < |out|
      ensures before[Position(cells, out[i])].idx == out[i].info.idx
      ensures before[Position(cells, out[i])].data16 == old(out[i].info.data16) && out[i].info in Items(cells)
    {
    }
    SortedIsValueOrder(res, out, cells, before);
    from := Places(out, cells);
  }

  lemma InfoIsItem(cells: seq<ListHead>)
    ensures forall c :: c in cells ==> c.info in Items(cells)
  {
  }

  lemma EvolvesKeepsBackup(cmp: Cmp, x: bv16, y: bv16)
    requires Evolves(cmp, x, y)
    ensures Backup(y) == Backup(x)
  {
  }

  /** The optional sort by computed value. */
  method SortByValue(res: Results, list0: ListHead, finderIdx: int, ghost cells: seq<ListHead>,
      ghost cur0: seq<ListHead>)
    returns (list: ListHead, ghost cur: seq<ListHead>, ghost from: seq<nat>)
    requires |cells| >= 2 && Relinked(cur0, cells) && list0 == cur0[0]
    modifies cells`next, Items(cells)`data16, res
    ensures Relinked(cur, cells) && list == cur[0]
    ensures forall x :: x in Items(cells) ==> Backup(x.data16) == Backup(old(x.data16))
    ensures finderIdx <= 0 ==> Entries(cur) == old(Entries(cur0))
    ensures finderIdx > 0 ==> ValueOrder(Entries(cur), old(Entries(cur0)), from)
  {
    hide Backup, IsList, NoDuplicates, Evolves, ValueOrder, Entries;
    list, cur, from := list0, cur0, [];
    if finderIdx > 0 {
      SameMembers(cur0, cells);
      SameItems(cur0, cells);
      list, cur, from := ValueSort(res, list, cur0);
      forall x | x in Items(cells) ensures Backup(x.data16) == Backup(old(x.data16)) {
        EvolvesKeepsBackup(ByValue(res), old(x.data16), x.data16);
      }
    }
  }

  lemma SameItems(s: seq<ListHead>, t: seq<ListHead>)
    requires multiset(s) == multiset(t)
    ensures Items(s) == Items(t)
  {
    forall c ensures c in s <==> c in t {
      assert c in s <==> c in multiset(s);
      assert c in t <==> c in multiset(t);
    }
  }

  /** The final sort by index regenerates every item and puts every cell back. */
  method SortByIndex(list0: ListHead, ghost cells: seq<ListHead>, ghost cur: seq<ListHead>) returns (list: ListHead)
    requires |cells| >= 2 && Relinked(cur, cells) && list0 == cur[0] && IndexSorted(cells)
    modifies cells`next, Items(cells)`data16
    ensures IsList(cells) && list == cells[0]
    ensures forall x :: x in Items(cells) ==>
              Evolves(ByIndex(null), old(x.data16), x.data16) && Settled(ByIndex(null), x.data16)
  {
    hide Evolves, Settled, IsList, NoDuplicates, SortedStably, StartOf, ComputedOnce, Position;
    SameMembers(cur, cells);
    SameItems(cur, cells);
    ghost var out;
    list, out := CoreListMergesort(list0, ByIndex(null), cur);
    SameMembers(cells, out);
    StrictByIndex(out, cur, cells);
    IndexOrderIsUnique(out, cells);
  }

  /** The order of the items when the second one is removed: as the searches left it, or that sorted by
      value. */
  ghost predicate Reordered(order: seq<Entry>, f: Search, finderIdx: int, from: seq<nat>) {
    if finderIdx <= 0 then order == f.order else ValueOrder(order, f.order, from)
  }

  /** The result before the last sort, once the order is known. */
  ghost function Midway(f: Search, order: seq<Entry>, findNum: int): bv16
    requires |order| >= 3
  {
    RemovalCrc(order, f.idx, Sought(AtLeastNone(findNum)), Tally(f) as bv16)
  }

  /** The searches and the sort by value. */
  method Reorder(res: Results, list0: ListHead, findNum: int, finderIdx: int, ghost cells: seq<ListHead>)
    returns (list: ListHead, idx: int, data16: bv16, tally: nat, ghost cur: seq<ListHead>, ghost from: seq<nat>)
    requires |cells| >= 2 && IsList(cells) && NoDuplicates(cells) && list0 == cells[0]
    modifies cells`next, Items(cells)`data16, res
    ensures Relinked(cur, cells) && list == cur[0]
    ensures forall x :: x in Items(cells) ==> Backup(x.data16) == Backup(old(x.data16))
    ensures var f := Searches(old(Entries(cells)), finderIdx, AtLeastNone(findNum));
            Reordered(Entries(cur), f, finderIdx, from) && idx == f.idx && tally == Tally(f)
    ensures data16 == Sought(AtLeastNone(findNum))
  {
    hide Backup, IsList, NoDuplicates, ValueOrder, Searches, Tally, Entries, Sought, AtLeastNone, Relinked;
    list, idx, data16, tally, cur := FindAll(list0, findNum, finderIdx, cells);
    list, cur, from := SortByValue(res, list, finderIdx, cells, cur);
  }

  /** Everything the benchmark does before its last sort leaves the cells relinked, with their items. */
  method Disturb(res: Results, list0: ListHead, findNum: int, finderIdx: int, ghost cells: seq<ListHead>)
    returns (list: ListHead, retval: bv16, ghost cur: seq<ListHead>, ghost order: seq<Entry>, ghost from: seq<nat>)
    requires |cells| >= 3 && IsList(cells) && NoDuplicates(cells) && list0 == cells[0]
    modifies cells, Items(cells)`data16, res
    ensures Relinked(cur, cells) && list == cur[0]
    ensures forall c :: c in cells ==> c.info == old(c.info)
    ensures forall x :: x in old(Items(cells)) ==> Backup(x.data16) == Backup(old(x.data16))
    ensures var f := Searches(old(Entries(cells)), finderIdx, AtLeastNone(findNum));
            Reordered(order, f, finderIdx, from) && |order| == |cells| && retval == Midway(f, order, findNum)
  {
    hide Backup, IsList, NoDuplicates, Reordered, Searches, RemovalCrc, Tally, Entries, Sought, AtLeastNone;
    var idx, data16, tally;
    list, idx, data16, tally, cur, from := Reorder(res, list0, findNum, finderIdx, cells);
    assert Items(cells) == old(Items(cells));
    SameMembers(cur, cells);
    order := Entries(cur);
    retval := RemoveAndUndo(list, idx, data16, tally as bv16, cur);
  }

  /** What core_bench_list returns, once the order left by the sort by value is known. */
  ghost function Returned(before: seq<Entry>, findNum: int, finderIdx: int, order: seq<Entry>): bv16
    requires |before| >= 3 && |order| >= 3
  {
    var f := Searches(before, finderIdx, AtLeastNone(findNum));
    CrcOfCopies(Regen(before[0].data16), |before| - 1, Midway(f, order, findNum))
  }

  /** core_bench_list: whatever is searched for, sorted, removed and put back, the list ends as it
      began: the same cells in the same order with the same items, indices and backup bytes, each
      working byte restored from its backup. What is returned depends on the items, the arguments and
      the order the sort by value left alone. */
  method CoreBenchList(res: Results, list0: ListHead, findNum: int, finderIdx: int, ghost cells: seq<ListHead>)
    returns (retval: bv16, ghost order: seq<Entry>, ghost from: seq<nat>)
    requires |cells| >= 3 && IsList(cells) && NoDuplicates(cells) && list0 == cells[0] && IndexSorted(cells)
    modifies cells, Items(cells)`data16, res
    ensures IsList(cells)
    ensures forall c :: c in cells ==> c.info == old(c.info)
    ensures forall x :: x in Items(cells) ==> x.data16 == Regen(old(x.data16))
    ensures Reordered(order, Searches(old(Entries(cells)), finderIdx, AtLeastNone(findNum)), finderIdx, from)
    ensures |order| == |cells| && retval == Returned(old(Entries(cells)), findNum, finderIdx, order)
  {
    hide Evolves, Settled, Regen, Backup, IsList, NoDuplicates, Relinked, Searches, Midway, Reordered, Entries,
      CrcOfCopies, IndexSorted;
    ghost var before := Entries(cells);
    EntriesSorted(cells);
    var list;
    ghost var cur;
    list, retval, cur, order, from := Disturb(res, list0, findNum, finderIdx, cells);
    assert Items(cells) == old(Items(cells));
    StillIndexSorted(cells, before);
    ghost var middle := map x | x in Items(cells) :: x.data16;
    list, retval := PutBack(list, retval, cells, cur);
    forall x | x in Items(cells) ensures x.data16 == Regen(old(x.data16)) {
      FinalData(old(x.data16), middle[x], x.data16);
    }
    assert cells[0].info in Items(cells);
  }

  lemma EntriesSorted(cells: seq<ListHead>)
    requires IndexSorted(cells)
    ensures forall i, j :: 0 <= i < j < |cells| ==> Entries(cells)[i].idx < Entries(cells)[j].idx
  {
  }

  lemma StillIndexSorted(cells: seq<ListHead>, before: seq<Entry>)
    requires |before| == |cells| && forall i :: 0 <= i < |cells| ==> before[i].idx == cells[i].info.idx
    requires forall i, j :: 0 <= i < j < |before| ==> before[i].idx < before[j].idx
    ensures IndexSorted(cells)
  {
  }

  /** The last sort and the walk over the list it leaves. */
  method PutBack(list0: ListHead, retval0: bv16, ghost cells: seq<ListHead>, ghost cur: seq<ListHead>)
    returns (list: ListHead, retval: bv16)
    requires |cells| >= 2 && Relinked(cur, cells) && list0 == cur[0] && IndexSorted(cells)
    modifies cells`next, Items(cells)`data16
    ensures IsList(cells) && list == cells[0]
    ensures forall x :: x in Items(cells) ==>
              Evolves(ByIndex(null), old(x.data16), x.data16) && Settled(ByIndex(null), x.data16)
    ensures retval == CrcOfCopies(cells[0].info.data16, |cells| - 1, retval0)
  {
    hide Evolves, Settled, IsList, Relinked, IndexSorted, CrcOfCopies;
    list := SortByIndex(list0, cells, cur);
    var next := SecondCell(list, cells);
    retval := CrcWalk(list, next, retval0, cells, 1);
  }

  /** When the working bytes start equal to their backups nothing at all has changed. */
  lemma RegenRestores(x: bv16)
    ensures Regen(x) == x <==> x & 0xff == x >> 8
  {
  }

  /* ---- What determines the number returned ---- */

  /** The item's value is in its own data. */
  ghost predicate SelfContained(x: Entry) {
    Cached(x.data16) || x.data16 % 8 > 1
  }

  lemma SameData(x: bv16, y: bv16)
    requires Backup(x) == Backup(y) && Cached(x) && Cached(y) && x % 128 == y % 128
    ensures x == y
  {
  }

  lemma ComputedIsUnique(x: Entry, y: Entry, z: Entry)
    requires SelfContained(x) && Computed(x, y) && Computed(x, z)
    ensures y == z
  {
    hide Backup, Cached, ValueOf;
    if !Cached(x.data16) { SameData(y.data16, z.data16); }
  }

  lemma {:induction false} DistinctBelow(s: seq<nat>, n: nat)
    requires NoDuplicates(s) && forall i :: 0 <= i < |s| ==> s[i] < n
    ensures |s| <= n
    decreases n
  {
    assert |s| > 0 ==> s[0] < n;
    if n == 0 {
    } else if n - 1 in s {
      var k :| 0 <= k < |s| && s[k] == n - 1;
      var t := s[..k] + s[k + 1..];
      assert forall i :: 0 <= i < |t| ==> t[i] == if i < k then s[i] else s[i + 1];
      DistinctBelow(t, n - 1);
    } else {
      DistinctBelow(s, n - 1);
    }
  }

  /** n distinct numbers below n are all of them. */
  lemma AllPlaces(s: seq<nat>, v: nat)
    requires NoDuplicates(s) && v < |s| && forall i :: 0 <= i < |s| ==> s[i] < |s|
    ensures v in s
  {
    if v !in s {
      var t := s + [v];
      DistinctBelow(t, |s|);
    }
  }

  lemma {:induction false} SamePlaces(before: seq<Entry>, a: seq<Entry>, p: seq<nat>, b: seq<Entry>, q: seq<nat>,
      k: nat)
    requires ValueOrder(a, before, p) && ValueOrder(b, before, q) && k <= |p| == |q|
    requires forall i :: 0 <= i < |before| ==> SelfContained(before[i])
    ensures p[..k] == q[..k]
    decreases k
  {
    hide SelfContained, Computed, ValueOf;
    if k > 0 {
      SamePlaces(before, a, p, b, q, k - 1);
      assert forall i :: 0 <= i < k - 1 ==> p[..k - 1][i] == p[i] && q[..k - 1][i] == q[i];
      AllPlaces(q, p[k - 1]);
      AllPlaces(p, q[k - 1]);
      var m :| 0 <= m < |q| && q[m] == p[k - 1];
      var l :| 0 <= l < |p| && p[l] == q[k - 1];
      ComputedIsUnique(before[p[k - 1]], a[k - 1], b[m]);
      ComputedIsUnique(before[q[k - 1]], a[l], b[k - 1]);
    }
  }

  /** If every item's value is in its own data there is one order by value. */
  lemma ValueOrderIsUnique(before: seq<Entry>, a: seq<Entry>, p: seq<nat>, b: seq<Entry>, q: seq<nat>)
    requires ValueOrder(a, before, p) && ValueOrder(b, before, q)
    requires forall i :: 0 <= i < |before| ==> SelfContained(before[i])
    ensures a == b && p == q
  {
    hide SelfContained, Computed, ValueOf, NoDuplicates;
    SamePlaces(before, a, p, b, q, |p|);
    assert p[..|p|] == p && q[..|p|] == q;
    forall i | 0 <= i < |a| ensures a[i] == b[i] {
      ComputedIsUnique(before[p[i]], a[i], b[i]);
    }
  }

  /** The searches only move items about. */
  lemma {:induction false} SearchesKeep(s: seq<Entry>, idx: int, n: nat, i: nat) returns (j: nat)
    requires |s| >= 2 && i < |s|
    ensures j < |s| && Searches(s, idx, n).order[i] == s[j]
    decreases n
  {
    hide FirstMatch, Searched, SearchBit, Sought;
    if n == 0 {
      j := i;
    } else {
      var f := Searches(s, idx, n - 1);
      var k := FirstMatch(f.order, f.idx, Sought(n));
      SearchedAt(f.order, k, i);
      j := SearchesKeep(s, idx, n - 1, Source(|s|, k, i));
    }
  }

  /** The number core_bench_list returns is a function of the items and the arguments alone when nothing is
      sorted by value, or when no item needs another benchmark for its value. */
  lemma ReturnedIsDetermined(before: seq<Entry>, findNum: int, finderIdx: int, a: seq<Entry>, p: seq<nat>,
      b: seq<Entry>, q: seq<nat>)
    requires |before| >= 3
    requires var f := Searches(before, finderIdx, AtLeastNone(findNum));
             Reordered(a, f, finderIdx, p) && Reordered(b, f, finderIdx, q)
    requires finderIdx <= 0 || forall i :: 0 <= i < |before| ==> SelfContained(before[i])
    ensures |a| == |b| == |before| && Returned(before, findNum, finderIdx, a) == Returned(before, findNum, finderIdx, b)
  {
    hide SelfContained, Searches, CrcOfCopies, Midway;
    var f := Searches(before, finderIdx, AtLeastNone(findNum));
    if finderIdx > 0 {
      forall i | 0 <= i < |f.order| ensures SelfContained(f.order[i]) {
        var j := SearchesKeep(before, finderIdx, AtLeastNone(findNum), i);
      }
      ValueOrderIsUnique(f.order, a, p, b, q);
    }
  }
}
