/** The bottom-up merge sort of the list, in place. */
module MergeSort {
  import opened ListOrder
  import opened CoreList

  method Compare(cmp: Cmp, a: ListData, b: ListData) returns (r: int)
    modifies a`data16, b`data16, Scratch(cmp)
    ensures Settled(cmp, a.data16) && Settled(cmp, b.data16)
    ensures Evolves(cmp, old(a.data16), a.data16) && Evolves(cmp, old(b.data16), b.data16)
    ensures r == Key(cmp, a) - Key(cmp, b)
    ensures cmp.ByValue? ==>
              Log(cmp) == old(Log(cmp)) + (if old(Settled(cmp, a.data16)) then [] else [a])
                          + (if old(Settled(cmp, b.data16)) || a == b then [] else [b])
  {
    hide Settled, Evolves, Key;
    if cmp.ByIndex? {
      r := CompareByIndex(cmp, a, b);
    } else {
      r := CompareByValue(cmp, a, b);
    }
  }

  /* ---- What a sort starts from ---- */

  /** The cells being sorted, in their starting order, with what they and their items held. */
  datatype Start = Start(
    cmp: Cmp, cells: seq<ListHead>, rank: map<ListHead, nat>, info: map<ListHead, ListData>,
    data: map<ListData, bv16>, index: map<ListData, int>, log: seq<ListData>)

  ghost predicate WellFormed(z: Start) {
    (forall i :: 0 <= i < |z.cells| ==> z.cells[i] in z.rank && z.rank[z.cells[i]] == i)
    && (forall c :: c in z.rank ==> c in z.info && z.info[c] in z.data)
    && (forall x :: x in z.data ==> x in z.index)
  }

  /** No cell has lost its item; every item has its index, and data a comparator may have left. */
  ghost predicate ItemsKept(z: Start)
    reads z.rank.Keys`info, z.data.Keys
  {
    (forall c :: c in z.rank && c in z.info ==> c.info == z.info[c])
    && (forall x :: x in z.data && x in z.index ==> x.idx == z.index[x] && Evolves(z.cmp, z.data[x], x.data16))
  }

  /** The items whose values have been computed since the start: each once, and exactly those that
      were not cached then and are now. */
  ghost predicate ComputedOnce(z: Start)
    reads z.data.Keys, Scratch(z.cmp)
  {
    z.cmp.ByValue? ==>
      var log := Log(z.cmp);
      z.log <= log && NoDuplicates(log[|z.log|..])
      && forall x :: x in z.data ==>
           (x in log[|z.log|..] <==> !Settled(z.cmp, z.data[x]) && Settled(z.cmp, x.data16))
  }

  /** The keys known are those of settled cells. */
  ghost predicate Knows(z: Start, key: map<ListHead, int>)
    reads z.data.Keys
  {
    forall c :: c in key ==>
      c in z.rank && c in z.info && z.info[c] in z.data
      && Settled(z.cmp, z.info[c].data16) && key[c] == Key(z.cmp, z.info[c])
  }

  lemma LogGrows(log: seq<ListData>, base: seq<ListData>, x: ListData)
    requires base <= log && NoDuplicates(log[|base|..]) && x !in log[|base|..]
    ensures base <= log + [x] && NoDuplicates((log + [x])[|base|..])
    ensures forall y :: y in (log + [x])[|base|..] <==> y in log[|base|..] || y == x
  {
    assert (log + [x])[|base|..] == log[|base|..] + [x];
  }

  /** A snapshot of the items' data. */
  ghost function Snapshot(z: Start): map<ListData, bv16>
    reads z.data.Keys
  {
    map x | x in z.data :: x.data16
  }

  lemma StillKept(z: Start, before: map<ListData, bv16>)
    requires before.Keys == z.data.Keys
    requires forall x :: x in z.data ==> Evolves(z.cmp, z.data[x], before[x]) && Evolves(z.cmp, before[x], x.data16)
    requires forall x :: x in z.data && x in z.index ==> x.idx == z.index[x]
    requires forall c :: c in z.rank && c in z.info ==> c.info == z.info[c]
    ensures ItemsKept(z)
  {
    hide Evolves;
    forall x | x in z.data ensures Evolves(z.cmp, z.data[x], x.data16) {
      EvolvesTransitive(z.cmp, z.data[x], before[x], x.data16);
    }
  }

  lemma StillKnows(z: Start, before: map<ListData, bv16>, key: map<ListHead, int>)
    requires before.Keys == z.data.Keys
    requires forall x :: x in z.data ==> Evolves(z.cmp, before[x], x.data16)
    requires forall c :: c in key ==> c in z.rank && c in z.info && z.info[c] in z.data
                                      && Settled(z.cmp, before[z.info[c]])
                                      && key[c] == KeyOf(z.cmp, before[z.info[c]], z.info[c].idx)
    ensures Knows(z, key)
  {
    hide Evolves, Settled, KeyOf;
    forall c | c in key ensures z.info[c].data16 == before[z.info[c]] {
      EvolvesKeepsSettled(z.cmp, before[z.info[c]], z.info[c].data16);
    }
  }

  /** What was computed before the comparison stays computed, and the unsettled ones join. */
  lemma StillOnce(z: Start, before: map<ListData, bv16>, log: seq<ListData>, a: ListData, b: ListData)
    requires z.cmp.ByValue? && before.Keys == z.data.Keys && a in z.data && b in z.data
    requires forall x :: x in z.data ==> Evolves(z.cmp, z.data[x], before[x]) && Evolves(z.cmp, before[x], x.data16)
    requires forall x :: x in z.data && x != a && x != b ==> x.data16 == before[x]
    requires Settled(z.cmp, a.data16) && Settled(z.cmp, b.data16)
    requires z.log <= log && NoDuplicates(log[|z.log|..])
    requires forall x :: x in z.data ==>
               (x in log[|z.log|..] <==> !Settled(z.cmp, z.data[x]) && Settled(z.cmp, before[x]))
    requires Log(z.cmp) == log + (if Settled(z.cmp, before[a]) then [] else [a])
                           + (if Settled(z.cmp, before[b]) || a == b then [] else [b])
    ensures ComputedOnce(z)
  {
    hide Evolves, Settled, NoDuplicates;
    forall x | x in z.data
      ensures Settled(z.cmp, z.data[x]) ==> before[x] == z.data[x]
      ensures Settled(z.cmp, before[x]) ==> x.data16 == before[x]
    {
      if Settled(z.cmp, z.data[x]) { EvolvesKeepsSettled(z.cmp, z.data[x], before[x]); }
      if Settled(z.cmp, before[x]) { EvolvesKeepsSettled(z.cmp, before[x], x.data16); }
    }
    var log1 := if Settled(z.cmp, before[a]) then log else log + [a];
    assert log1 == log + (if Settled(z.cmp, before[a]) then [] else [a]);
    if !Settled(z.cmp, before[a]) { LogGrows(log, z.log, a); }
    if Settled(z.cmp, before[b]) || a == b {
      assert Log(z.cmp) == log1;
    } else {
      LogGrows(log1, z.log, b);
    }
  }

  lemma KnowsMore(z: Start, key: map<ListHead, int>, p: ListHead, q: ListHead)
    requires WellFormed(z) && Knows(z, key) && p in z.rank && q in z.rank
    requires Settled(z.cmp, z.info[p].data16) && Settled(z.cmp, z.info[q].data16)
    ensures var key' := key[p := Key(z.cmp, z.info[p])][q := Key(z.cmp, z.info[q])];
            Knows(z, key') && Extends(key, key')
  {
    hide Settled, KeyOf;
  }

  lemma KeptBefore(z: Start, before: map<ListData, bv16>)
    requires ItemsKept(z) && WellFormed(z) && before == Snapshot(z)
    ensures before.Keys == z.data.Keys && forall x :: x in z.data ==> before[x] == x.data16
    ensures forall x :: x in z.data ==> Evolves(z.cmp, z.data[x], before[x])
    ensures forall x :: x in z.data && x in z.index ==> x.idx == z.index[x]
    ensures forall c :: c in z.rank && c in z.info ==> c.info == z.info[c]
  {
    hide Evolves;
  }

  lemma OnceBefore(z: Start, before: map<ListData, bv16>, log: seq<ListData>)
    requires ComputedOnce(z) && before == Snapshot(z) && log == Log(z.cmp)
    ensures z.cmp.ByValue? ==>
              z.log <= log && NoDuplicates(log[|z.log|..])
              && forall x :: x in z.data ==>
                   (x in log[|z.log|..] <==> !Settled(z.cmp, z.data[x]) && Settled(z.cmp, before[x]))
  {
    hide Settled, NoDuplicates;
  }

  method CompareItems(ghost z: Start, cmp: Cmp, a: ListData, b: ListData, ghost before: map<ListData, bv16>)
    returns (r: int)
    requires cmp == z.cmp && ItemsKept(z) && ComputedOnce(z) && WellFormed(z)
    requires a in z.data && b in z.data && before == Snapshot(z)
    modifies z.data.Keys`data16, Scratch(cmp)
    ensures ItemsKept(z) && ComputedOnce(z)
    ensures forall x :: x in z.data ==> Evolves(cmp, before[x], x.data16)
    ensures Settled(cmp, a.data16) && Settled(cmp, b.data16) && r == Key(cmp, a) - Key(cmp, b)
  {
    hide Settled, Evolves, KeyOf, NoDuplicates, ItemsKept, ComputedOnce, WellFormed, Snapshot;
    ghost var log := Log(cmp);
    OnceBefore(z, before, log);
    KeptBefore(z, before);
    r := Compare(cmp, a, b);
    forall x | x in z.data ensures Evolves(cmp, before[x], x.data16) {
      if x != a && x != b { EvolvesReflexive(cmp, x.data16); }
    }
    StillKept(z, before);
    if cmp.ByValue? { StillOnce(z, before, log, a, b); } else { NotCounted(z); }
  }

  lemma NotCounted(z: Start)
    requires !z.cmp.ByValue?
    ensures ComputedOnce(z)
  {
  }

  /** Comparing two cells settles both and disturbs nothing else. */
  method CompareCells(ghost z: Start, cmp: Cmp, p: ListHead, q: ListHead, ghost key: map<ListHead, int>)
    returns (r: int, ghost key': map<ListHead, int>)
    requires cmp == z.cmp && WellFormed(z) && ItemsKept(z) && ComputedOnce(z) && Knows(z, key)
    requires p in z.rank && q in z.rank
    modifies z.data.Keys`data16, Scratch(cmp)
    ensures ItemsKept(z) && ComputedOnce(z) && Knows(z, key') && Extends(key, key')
    ensures p in key' && q in key' && r == key'[p] - key'[q]
  {
    hide Settled, Evolves, KeyOf, ComputedOnce;
    ghost var before := Snapshot(z);
    r := CompareItems(z, cmp, p.info, q.info, before);
    StillKnows(z, before, key);
    KnowsMore(z, key, p, q);
    key' := key[p := Key(z.cmp, p.info)][q := Key(z.cmp, q.info)];
  }

  /* ---- Chains of cells ---- */

  /** Each cell points to the next one; where the last one points is left open. */
  ghost predicate Chain(s: seq<ListHead>)
    reads s`next
  {
    forall i :: 0 <= i < |s| - 1 ==> s[i].next == s[i + 1]
  }

  /** A complete list. */
  ghost predicate IsList(s: seq<ListHead>)
    reads s`next
  {
    Chain(s) && (|s| > 0 ==> s[|s| - 1].next == null)
  }

  ghost function First(s: seq<ListHead>): ListHead? {
    if |s| == 0 then null else s[0]
  }

  ghost function LastOf(s: seq<ListHead>): ListHead? {
    if |s| == 0 then null else s[|s| - 1]
  }

  ghost predicate Within(s: seq<ListHead>, cells: set<ListHead>) {
    forall i :: 0 <= i < |s| ==> s[i] in cells
  }

  /** The pointers of a merge in progress. */
  ghost predicate Linked(g: Merge<ListHead>, list: ListHead?, tail: ListHead?, p: ListHead?, q: ListHead?,
                         psize: int, qsize: int)
    reads g.Out()`next, g.p`next, g.Ahead()`next
  {
    Chain(g.Out()) && list == First(g.Out()) && tail == LastOf(g.Out())
    && Chain(g.p) && psize == |g.p| && (|g.p| > 0 ==> p == g.p[0])
    && IsList(g.Ahead()) && q == First(g.Ahead())
    && |g.q| <= qsize && (|g.q| < qsize ==> |g.rest| == 0)
  }

  /** Puts e behind the output. */
  method Emit(list: ListHead?, tail: ListHead?, e: ListHead, ghost out: seq<ListHead>) returns (list': ListHead)
    requires Chain(out) && NoDuplicates(out + [e])
    requires list == First(out) && tail == LastOf(out)
    modifies (if tail == null then {} else {tail})`next
    ensures Chain(out + [e]) && list' == First(out + [e])
  {
    if tail != null {
      assert forall i :: 0 <= i < |out| - 1 ==> (out + [e])[i] != (out + [e])[|out| - 1];
      tail.next := e;
      list' := list;
    } else {
      list' := e;
    }
  }

  /** The next cell of the output comes from p. */
  method EmitP(list: ListHead?, tail: ListHead?, p: ListHead, ghost q: ListHead?, ghost psize: int, ghost qsize: int,
               ghost g: Merge<ListHead>)
    returns (list': ListHead, p': ListHead?)
    requires Linked(g, list, tail, p, q, psize, qsize) && g.Apart() && |g.p| > 0
    modifies (if tail == null then {} else {tail})`next
    ensures Linked(g.TakeP(), list', p, p', q, psize - 1, qsize)
  {
    TakePStaysApart(g);
    p' := p.next;
    list' := Emit(list, tail, p, g.Out());
  }

  /** The next cell of the output comes from q. */
  method EmitQ(list: ListHead?, tail: ListHead?, ghost p: ListHead?, q: ListHead, ghost psize: int, ghost qsize: int,
               ghost g: Merge<ListHead>)
    returns (list': ListHead, q': ListHead?)
    requires Linked(g, list, tail, p, q, psize, qsize) && g.Apart() && |g.q| > 0
    modifies (if tail == null then {} else {tail})`next
    ensures Linked(g.TakeQ(), list', q, p, q', psize, qsize - 1)
  {
    TakeQStaysApart(g);
    AheadAfterQ(g);
    q' := q.next;
    list' := Emit(list, tail, q, g.Out());
  }

  lemma AheadAfterQ(g: Merge<ListHead>)
    requires |g.q| > 0 && IsList(g.Ahead())
    ensures forall i :: 0 <= i < |g.TakeQ().Ahead()| ==> g.TakeQ().Ahead()[i] == g.Ahead()[i + 1]
    ensures |g.TakeQ().Ahead()| == |g.Ahead()| - 1
    ensures IsList(g.TakeQ().Ahead()) && g.q[0].next == First(g.TakeQ().Ahead())
  {
    var a, t := g.Ahead(), g.TakeQ().Ahead();
    assert |t| == |a| - 1 && forall i :: 0 <= i < |t| ==> t[i] == a[i + 1];
    assert |a| > 1 ==> a[0].next == a[1];
  }

  /** Which of two cells the merge takes: p's on a tie. */
  lemma ChoiceIsBefore(key: map<ListHead, int>, rank: map<ListHead, nat>, p: ListHead, q: ListHead, r: int)
    requires p in key && q in key && p in rank && q in rank && rank[p] < rank[q]
    requires r == key[p] - key[q]
    ensures if r <= 0 then Before(key, rank, p, q) else Before(key, rank, q, p)
  {
  }

  lemma HeadOfAhead(g: Merge<ListHead>)
    ensures |g.q| > 0 ==> First(g.Ahead()) == g.q[0]
    ensures |g.q| == 0 ==> g.Ahead() == g.rest
  {
  }

  /** The pointers, counters and order of a merge in progress. */
  ghost predicate Merging(z: Start, key: map<ListHead, int>, g: Merge<ListHead>, list: ListHead?, tail: ListHead?,
                          p: ListHead?, q: ListHead?, psize: int, qsize: int, lo: nat, mid: nat, hi: nat)
    reads g.Out()`next, g.p`next, g.Ahead()`next
  {
    Linked(g, list, tail, p, q, psize, qsize) && g.Apart()
    && g.Ordered(key, z.rank, lo, mid, hi) && Within(g.Out(), z.rank.Keys)
  }

  lemma TailWithin(z: Start, g: Merge<ListHead>, tail: ListHead?)
    requires Within(g.Out(), z.rank.Keys) && tail == LastOf(g.Out())
    ensures tail != null ==> tail in z.rank.Keys
  {
  }

  lemma StillWithin(z: Start, out: seq<ListHead>, e: ListHead)
    requires Within(out, z.rank.Keys) && e in z.rank
    ensures Within(out + [e], z.rank.Keys)
  {
  }

  /** Moves the head of p to the output. */
  method StepP(ghost z: Start, list: ListHead?, tail: ListHead?, p: ListHead, ghost q: ListHead?, ghost psize: int,
               ghost qsize: int, ghost g: Merge<ListHead>, ghost key: map<ListHead, int>,
               ghost lo: nat, ghost mid: nat, ghost hi: nat)
    returns (list': ListHead, p': ListHead?)
    requires Merging(z, key, g, list, tail, p, q, psize, qsize, lo, mid, hi)
    requires |g.p| > 0 && (|g.q| > 0 ==> Before(key, z.rank, g.p[0], g.q[0]))
    modifies z.rank.Keys`next
    ensures Merging(z, key, g.TakeP(), list', p, p', q, psize - 1, qsize, lo, mid, hi)
  {
    hide Run, Before;
    TakePStaysApart(g);
    TakePStaysOrdered(g, key, z.rank, lo, mid, hi);
    TailWithin(z, g, tail);
    StillWithin(z, g.Out(), g.p[0]);
    list', p' := EmitP(list, tail, p, q, psize, qsize, g);
  }

  /** Moves the head of q to the output. */
  method StepQ(ghost z: Start, list: ListHead?, tail: ListHead?, ghost p: ListHead?, q: ListHead, ghost psize: int,
               ghost qsize: int, ghost g: Merge<ListHead>, ghost key: map<ListHead, int>,
               ghost lo: nat, ghost mid: nat, ghost hi: nat)
    returns (list': ListHead, q': ListHead?)
    requires Merging(z, key, g, list, tail, p, q, psize, qsize, lo, mid, hi)
    requires |g.q| > 0 && (|g.p| > 0 ==> Before(key, z.rank, g.q[0], g.p[0]))
    modifies z.rank.Keys`next
    ensures Merging(z, key, g.TakeQ(), list', q, p, q', psize, qsize - 1, lo, mid, hi)
  {
    hide Run, Before;
    TakeQStaysApart(g);
    TakeQStaysOrdered(g, key, z.rank, lo, mid, hi);
    TailWithin(z, g, tail);
    StillWithin(z, g.Out(), g.q[0]);
    list', q' := EmitQ(list, tail, p, q, psize, qsize, g);
  }

  /** Decides which run the next cell comes from, comparing only when both have one. */
  method Choose(ghost z: Start, cmp: Cmp, p: ListHead?, q: ListHead?, psize: int, qsize: int,
                ghost list: ListHead?, ghost tail: ListHead?, ghost g: Merge<ListHead>,
                ghost key: map<ListHead, int>, ghost lo: nat, ghost mid: nat, ghost hi: nat)
    returns (fromP: bool, ghost key': map<ListHead, int>)
    requires cmp == z.cmp && WellFormed(z) && ItemsKept(z) && ComputedOnce(z) && Knows(z, key)
    requires Merging(z, key, g, list, tail, p, q, psize, qsize, lo, mid, hi)
    requires psize > 0 || (qsize > 0 && q != null)
    modifies z.data.Keys`data16, Scratch(cmp)
    ensures ItemsKept(z) && ComputedOnce(z) && Knows(z, key') && Extends(key, key')
    ensures Merging(z, key', g, list, tail, p, q, psize, qsize, lo, mid, hi)
    ensures fromP ==> p != null && |g.p| > 0 && (|g.q| > 0 ==> Before(key', z.rank, g.p[0], g.q[0]))
    ensures !fromP ==> q != null && |g.q| > 0 && (|g.p| > 0 ==> Before(key', z.rank, g.q[0], g.p[0]))
  {
    hide WellFormed, ItemsKept, ComputedOnce, Knows, Run, Before, Chain, IsList, NoDuplicates, Disjoint, Within;
    key' := key;
    HeadOfAhead(g);
    if psize == 0 {
      fromP := false;
    } else if qsize == 0 || q == null {
      fromP := true;
    } else {
      var r;
      r, key' := CompareCells(z, cmp, p, q, key);
      ChoiceIsBefore(key', z.rank, p, q, r);
      OrderedExtends(g, key, key', z.rank, lo, mid, hi);
      fromP := r <= 0;
    }
  }

  /** One round of the merge: choose, then move. */
  method MergeStep(ghost z: Start, cmp: Cmp, list: ListHead?, tail: ListHead?, p: ListHead?, q: ListHead?,
                   psize: int, qsize: int, ghost g: Merge<ListHead>, ghost key: map<ListHead, int>,
                   ghost lo: nat, ghost mid: nat, ghost hi: nat)
    returns (list': ListHead, tail': ListHead, p': ListHead?, q': ListHead?, psize': int, qsize': int,
             ghost g': Merge<ListHead>, ghost key': map<ListHead, int>)
    requires cmp == z.cmp && WellFormed(z) && ItemsKept(z) && ComputedOnce(z) && Knows(z, key)
    requires Merging(z, key, g, list, tail, p, q, psize, qsize, lo, mid, hi)
    requires psize > 0 || (qsize > 0 && q != null)
    modifies z.rank.Keys`next, z.data.Keys`data16, Scratch(cmp)
    ensures ItemsKept(z) && ComputedOnce(z) && Knows(z, key') && Extends(key, key')
    ensures Merging(z, key', g', list', tail', p', q', psize', qsize', lo, mid, hi)
    ensures g'.done == g.done && g'.rest == g.rest && g'.Cells() == g.Cells()
    ensures |g'.p| + |g'.q| < |g.p| + |g.q|
  {
    hide WellFormed, ItemsKept, ComputedOnce, Knows, Merging, Before, Extends;
    var fromP;
    fromP, key' := Choose(z, cmp, p, q, psize, qsize, list, tail, g, key, lo, mid, hi);
    if fromP {
      TakePKeepsCells(g);
      list', p' := StepP(z, list, tail, p, q, psize, qsize, g, key', lo, mid, hi);
      tail', q', psize', qsize', g' := p, q, psize - 1, qsize, g.TakeP();
    } else {
      TakeQKeepsCells(g);
      list', q' := StepQ(z, list, tail, p, q, psize, qsize, g, key', lo, mid, hi);
      tail', p', psize', qsize', g' := q, p, psize, qsize - 1, g.TakeQ();
    }
  }

  /** A finished merge. */
  lemma MergeDone(z: Start, key: map<ListHead, int>, g: Merge<ListHead>, list: ListHead?, tail: ListHead?,
                  p: ListHead?, q: ListHead?, psize: int, qsize: int, lo: nat, mid: nat, hi: nat)
    requires Merging(z, key, g, list, tail, p, q, psize, qsize, lo, mid, hi)
    requires !(psize > 0 || (qsize > 0 && q != null))
    ensures Chain(g.Out()) && list == First(g.Out()) && tail == LastOf(g.Out())
    ensures IsList(g.rest) && q == First(g.rest) && Within(g.Out(), z.rank.Keys)
    ensures NoDuplicates(g.Out()) && NoDuplicates(g.rest) && Disjoint(g.Out(), g.rest)
    ensures Run(g.m, key, z.rank) && Ranked(g.m, z.rank, lo, hi) && |g.m| == hi - lo && g.Cells() == multiset(g.m)
  {
    hide Run;
    HeadOfAhead(g);
    assert |g.p| == 0 && |g.q| == 0;
    assert g.m + g.p == g.m;
  }

  lemma ExtendsTransitive(a: map<ListHead, int>, b: map<ListHead, int>, c: map<ListHead, int>)
    requires Extends(a, b) && Extends(b, c)
    ensures Extends(a, c)
  {
  }

  /** Merges the two runs at p and q behind what has been output. */
  method MergeRuns(ghost z: Start, cmp: Cmp, list0: ListHead?, tail0: ListHead?, p0: ListHead, q0: ListHead?,
                   psize0: int, qsize0: int, ghost g0: Merge<ListHead>, ghost key0: map<ListHead, int>,
                   ghost lo: nat, ghost mid: nat, ghost hi: nat)
    returns (list: ListHead?, tail: ListHead?, q: ListHead?, ghost m: seq<ListHead>, ghost key: map<ListHead, int>)
    requires cmp == z.cmp && WellFormed(z) && ItemsKept(z) && ComputedOnce(z) && Knows(z, key0)
    requires Merging(z, key0, g0, list0, tail0, p0, q0, psize0, qsize0, lo, mid, hi) && |g0.m| == 0
    modifies z.rank.Keys`next, z.data.Keys`data16, Scratch(cmp)
    ensures ItemsKept(z) && ComputedOnce(z) && Knows(z, key) && Extends(key0, key)
    ensures Chain(g0.done + m) && list == First(g0.done + m) && tail == LastOf(g0.done + m)
    ensures IsList(g0.rest) && q == First(g0.rest) && Within(g0.done + m, z.rank.Keys)
    ensures NoDuplicates(g0.done + m) && NoDuplicates(g0.rest) && Disjoint(g0.done + m, g0.rest)
    ensures Run(m, key, z.rank) && Ranked(m, z.rank, lo, hi) && |m| == hi - lo
    ensures multiset(m) == multiset(g0.p) + multiset(g0.q)
  {
    hide WellFormed, ItemsKept, ComputedOnce, Knows, Merging, Run, Ranked, Extends, Chain, IsList, NoDuplicates,
      Disjoint, Within;
    list, tail, q, key := list0, tail0, q0, key0;
    var p: ListHead? := p0;
    var psize, qsize := psize0, qsize0;
    ghost var g := g0;
    ExtendsReflexive(key0);
    while psize > 0 || (qsize > 0 && q != null)
      invariant ItemsKept(z) && ComputedOnce(z) && Knows(z, key) && Extends(key0, key)
      invariant Merging(z, key, g, list, tail, p, q, psize, qsize, lo, mid, hi)
      invariant g.done == g0.done && g.rest == g0.rest && g.Cells() == g0.Cells()
      decreases |g.p| + |g.q|
    {
      ghost var was := key;
      list, tail, p, q, psize, qsize, g, key := MergeStep(z, cmp, list, tail, p, q, psize, qsize, g, key, lo, mid, hi);
      ExtendsTransitive(key0, was, key);
    }
    MergeDone(z, key, g, list, tail, p, q, psize, qsize, lo, mid, hi);
    m := g.m;
  }

  lemma ExtendsReflexive(a: map<ListHead, int>)
    ensures Extends(a, a)
  {
  }

  /* ---- One pass over the list ---- */

  ghost function Min(a: nat, b: nat): nat {
    if a < b then a else b
  }

  /** Steps at most insize places along from p. */
  method Advance(p: ListHead, insize: int, ghost rest: seq<ListHead>) returns (q: ListHead?, psize: int)
    requires IsList(rest) && |rest| > 0 && p == rest[0] && insize >= 1
    ensures psize == Min(insize, |rest|) && q == First(rest[psize..])
  {
    q, psize := p, 0;
    var i := 0;
    while i < insize
      invariant 0 <= i <= insize && psize == i && i < |rest| && q == rest[i] && q != null
    {
      assert i < |rest| - 1 ==> rest[i].next == rest[i + 1];
      psize := psize + 1;
      q := q.next;
      if q == null {
        assert rest[psize..] == [];
        return;
      }
      i := i + 1;
    }
  }

  /** A pass in progress: whole pairs of runs have been merged into done. */
  ghost predicate Passing(z: Start, key: map<ListHead, int>, k: nat, done: seq<ListHead>, rest: seq<ListHead>)
    reads done`next, rest`next
  {
    Chain(done) && IsList(rest)
    && NoDuplicates(done) && NoDuplicates(rest) && Disjoint(done, rest)
    && Within(done, z.rank.Keys) && Blocks(done, 2 * k, 0, key, z.rank) && Blocks(rest, k, |done|, key, z.rank)
    && (|rest| > 0 ==> Multiple(|done|, 2 * k))
  }

  /** The next pair of runs, as a merge about to start. */
  ghost function PairAt(done: seq<ListHead>, rest: seq<ListHead>, h: nat, n: nat): Merge<ListHead>
    requires h + n <= |rest|
  {
    Merge(done, [], rest[..h], rest[h..][..n], rest[h..][n..])
  }

  lemma SplitRest(rest: seq<ListHead>, h: nat, n: nat)
    requires h + n <= |rest|
    ensures rest[h..][..n] + rest[h..][n..] == rest[h..] && rest[..h] + rest[h..] == rest
    ensures multiset(rest) == multiset(rest[..h]) + multiset(rest[h..][..n]) + multiset(rest[h..][n..])
  {
    assert rest == rest[..h] + (rest[h..][..n] + rest[h..][n..]);
  }

  lemma SuffixIsList(s: seq<ListHead>, h: nat)
    requires IsList(s) && h <= |s|
    ensures IsList(s[h..])
  {
    assert forall i :: 0 <= i < |s[h..]| ==> s[h..][i] == s[i + h];
  }

  lemma PrefixIsChain(s: seq<ListHead>, h: nat)
    requires Chain(s) && h <= |s|
    ensures Chain(s[..h])
  {
  }

  lemma StartMergePointers(done: seq<ListHead>, rest: seq<ListHead>, k: nat, h: nat, n: nat,
                           list: ListHead?, tail: ListHead?, p: ListHead, q: ListHead?)
    requires Chain(done) && IsList(rest) && |rest| > 0 && p == rest[0]
    requires list == First(done) && tail == LastOf(done) && k > 0
    requires h == Min(k, |rest|) && n == Min(k, |rest| - h) && q == First(rest[h..])
    ensures Linked(PairAt(done, rest, h, n), list, tail, p, q, h, k)
  {
    var g := PairAt(done, rest, h, n);
    hide Chain, IsList;
    SplitRest(rest, h, n);
    SuffixIsList(rest, h);
    PrefixIsChain(rest, h);
    assert g.Out() == done && g.Ahead() == rest[h..];
  }

  lemma StartMergeApart(done: seq<ListHead>, rest: seq<ListHead>, h: nat, n: nat)
    requires NoDuplicates(done) && NoDuplicates(rest) && Disjoint(done, rest) && h + n <= |rest|
    ensures PairAt(done, rest, h, n).Apart()
  {
    var g := PairAt(done, rest, h, n);
    SplitRest(rest, h, n);
    assert g.Out() == done && g.Ahead() == rest[h..];
    assert forall i :: 0 <= i < |rest[h..]| ==> rest[h..][i] == rest[i + h];
  }

  lemma StartMergeOrdered(z: Start, key: map<ListHead, int>, done: seq<ListHead>, rest: seq<ListHead>, k: nat, h: nat,
      n: nat)
    requires Blocks(rest, k, |done|, key, z.rank) && |rest| > 0
    requires h == Min(k, |rest|) && n == Min(k, |rest| - h)
    ensures PairAt(done, rest, h, n).Ordered(key, z.rank, |done|, |done| + h, |done| + h + n)
    ensures Blocks(rest[h..][n..], k, |done| + h + n, key, z.rank)
  {
    hide Run, Ranked, Blocks;
    var g := PairAt(done, rest, h, n);
    SplitPair(rest, k, |done|, key, z.rank, h, n);
    assert g.m + g.p == rest[..h] && g.m + g.q == rest[h..][..n];
    EmptyRanked(z.rank, |done|, |done| + h + n);
  }

  lemma EmptyRanked(rank: map<ListHead, nat>, lo: nat, hi: nat)
    ensures Ranked([], rank, lo, hi)
  {
  }

  lemma StartMerge(z: Start, key: map<ListHead, int>, k: nat, done: seq<ListHead>, rest: seq<ListHead>, h: nat, n: nat,
                   list: ListHead?, tail: ListHead?, p: ListHead, q: ListHead?)
    requires Passing(z, key, k, done, rest) && |rest| > 0 && p == rest[0] && k > 0
    requires list == First(done) && tail == LastOf(done)
    requires h == Min(k, |rest|) && n == Min(k, |rest| - h) && q == First(rest[h..])
    ensures Merging(z, key, PairAt(done, rest, h, n), list, tail, p, q, h, k, |done|, |done| + h, |done| + h + n)
    ensures Blocks(rest[h..][n..], k, |done| + h + n, key, z.rank)
  {
    hide Run, Ranked, Blocks, Chain, IsList, NoDuplicates, Disjoint, Linked, Multiple, Within;
    StartMergePointers(done, rest, k, h, n, list, tail, p, q);
    StartMergeApart(done, rest, h, n);
    StartMergeOrdered(z, key, done, rest, k, h, n);
    assert PairAt(done, rest, h, n).Out() == done;
  }

  lemma FinishMerge(z: Start, key0: map<ListHead, int>, key: map<ListHead, int>, k: nat, done: seq<ListHead>,
                    m: seq<ListHead>, rest: seq<ListHead>)
    requires Chain(done + m) && IsList(rest) && Within(done + m, z.rank.Keys)
    requires NoDuplicates(done + m) && NoDuplicates(rest) && Disjoint(done + m, rest)
    requires Blocks(done, 2 * k, 0, key0, z.rank) && Multiple(|done|, 2 * k)
    requires Blocks(rest, k, |done| + |m|, key0, z.rank) && Extends(key0, key)
    requires Run(m, key, z.rank) && Ranked(m, z.rank, |done|, |done| + |m|)
    requires |m| <= 2 * k && (|rest| > 0 ==> |m| == 2 * k)
    ensures Passing(z, key, k, done + m, rest)
  {
    hide Run, Ranked, Blocks, Chain, IsList, NoDuplicates, Disjoint, Multiple, Within, Extends;
    FinishBlocks(z, key0, key, k, done, m, rest);
    assert |done + m| == |done| + |m|;
  }

  lemma FinishBlocks(z: Start, key0: map<ListHead, int>, key: map<ListHead, int>, k: nat, done: seq<ListHead>,
                     m: seq<ListHead>, rest: seq<ListHead>)
    requires Blocks(done, 2 * k, 0, key0, z.rank) && Multiple(|done|, 2 * k)
    requires Blocks(rest, k, |done| + |m|, key0, z.rank) && Extends(key0, key)
    requires Run(m, key, z.rank) && Ranked(m, z.rank, |done|, |done| + |m|) && |m| <= 2 * k
    ensures Blocks(done + m, 2 * k, 0, key, z.rank) && Blocks(rest, k, |done| + |m|, key, z.rank)
    ensures |m| == 2 * k ==> Multiple(|done + m|, 2 * k)
  {
    hide Run, Ranked, Blocks, Multiple, Extends;
    BlocksExtend(done, 2 * k, 0, key0, key, z.rank);
    BlocksExtend(rest, k, |done| + |m|, key0, key, z.rank);
    AppendBlock(done, m, 2 * k, 0, key, z.rank);
  }

  lemma PassingParts(z: Start, key: map<ListHead, int>, k: nat, done: seq<ListHead>, rest: seq<ListHead>)
    requires Passing(z, key, k, done, rest)
    ensures IsList(rest) && Blocks(done, 2 * k, 0, key, z.rank)
    ensures |rest| > 0 ==> Multiple(|done|, 2 * k)
  {
    hide Blocks, Chain, IsList, NoDuplicates, Disjoint, Multiple, Within;
  }

  /** Merges the run of psize cells at p and the run at q. */
  method MergeAt(ghost z: Start, cmp: Cmp, list0: ListHead?, tail0: ListHead?, p: ListHead, q0: ListHead?,
                 psize: nat, insize: nat, ghost done: seq<ListHead>, ghost rest: seq<ListHead>, ghost n: nat,
                 ghost key0: map<ListHead, int>)
    returns (list: ListHead?, tail: ListHead?, q: ListHead?, ghost m: seq<ListHead>, ghost key: map<ListHead, int>)
    requires cmp == z.cmp && WellFormed(z) && ItemsKept(z) && ComputedOnce(z) && Knows(z, key0)
    requires insize > 0 && |rest| > 0 && p == rest[0] && Passing(z, key0, insize, done, rest)
    requires list0 == First(done) && tail0 == LastOf(done)
    requires psize == Min(insize, |rest|) && n == Min(insize, |rest| - psize) && q0 == First(rest[psize..])
    modifies z.rank.Keys`next, z.data.Keys`data16, Scratch(cmp)
    ensures ItemsKept(z) && ComputedOnce(z) && Knows(z, key)
    ensures Passing(z, key, insize, done + m, rest[psize..][n..])
    ensures list == First(done + m) && tail == LastOf(done + m) && q == First(rest[psize..][n..])
    ensures |m| == psize + n && multiset(m) == multiset(rest[..psize]) + multiset(rest[psize..][..n])
  {
    hide WellFormed, ItemsKept, ComputedOnce, Knows, Run, Ranked, Blocks, Extends, Chain, IsList, NoDuplicates,
      Disjoint, Within, Multiple, Passing, Merging, First, LastOf;
    ghost var g, lo := PairAt(done, rest, psize, n), |done|;
    PassingParts(z, key0, insize, done, rest);
    StartMerge(z, key0, insize, done, rest, psize, n, list0, tail0, p, q0);
    list, tail, q, m, key := MergeRuns(z, cmp, list0, tail0, p, q0, psize, insize, g, key0, lo, lo + psize,
        lo + psize + n);
    FinishMerge(z, key0, key, insize, done, m, g.rest);
  }

  /** Merges the next two runs of a pass. */
  method MergePair(ghost z: Start, cmp: Cmp, list0: ListHead?, tail0: ListHead?, p: ListHead, insize: nat,
                   ghost done: seq<ListHead>, ghost rest: seq<ListHead>, ghost key0: map<ListHead, int>)
    returns (list: ListHead?, tail: ListHead?, q: ListHead?, ghost m: seq<ListHead>, ghost rest': seq<ListHead>,
             ghost key: map<ListHead, int>)
    requires cmp == z.cmp && WellFormed(z) && ItemsKept(z) && ComputedOnce(z) && Knows(z, key0)
    requires insize > 0 && |rest| > 0 && p == rest[0] && Passing(z, key0, insize, done, rest)
    requires list0 == First(done) && tail0 == LastOf(done)
    modifies z.rank.Keys`next, z.data.Keys`data16, Scratch(cmp)
    ensures ItemsKept(z) && ComputedOnce(z) && Knows(z, key)
    ensures Passing(z, key, insize, done + m, rest')
    ensures list == First(done + m) && tail == LastOf(done + m) && q == First(rest')
    ensures 0 < |m| <= 2 * insize && (|rest'| > 0 ==> |m| == 2 * insize) && |rest| == |m| + |rest'|
    ensures multiset(rest) == multiset(m) + multiset(rest')
  {
    hide WellFormed, ItemsKept, ComputedOnce, Knows, Passing, First, LastOf;
    var psize;
    PassingParts(z, key0, insize, done, rest);
    q, psize := Advance(p, insize, rest);
    ghost var n := Min(insize, |rest| - psize);
    SplitRest(rest, psize, n);
    rest' := rest[psize..][n..];
    list, tail, q, m, key := MergeAt(z, cmp, list0, tail0, p, q, psize, insize, done, rest, n, key0);
  }

  /** So many merges have put out so many cells. */
  ghost predicate Tallied(nmerges: nat, insize: nat, out: nat, rest: nat) {
    (rest > 0 ==> out == nmerges * (2 * insize)) && (nmerges == 0 <==> out == 0)
    && (nmerges <= 1 <==> out <= 2 * insize)
  }

  lemma NoMerges(insize: nat, rest: nat)
    ensures Tallied(0, insize, 0, rest)
  {
  }

  lemma OneMoreMerge(nmerges: nat, insize: nat, out: nat, m: nat, rest: nat)
    requires Tallied(nmerges, insize, out, m + rest)
    requires insize > 0 && 0 < m <= 2 * insize && (rest > 0 ==> m == 2 * insize)
    ensures Tallied(nmerges + 1, insize, out + m, rest)
  {
  }

  lemma MergesTallied(nmerges: nat, insize: nat, out: nat)
    requires Tallied(nmerges, insize, out, 0)
    ensures nmerges <= 1 <==> out <= 2 * insize
  {
  }

  /** One pass over the list: runs of insize cells become runs of twice that. */
  method MergePass(ghost z: Start, cmp: Cmp, head: ListHead, insize: nat, ghost s: seq<ListHead>,
                   ghost key0: map<ListHead, int>)
    returns (list: ListHead, nmerges: nat, ghost out: seq<ListHead>, ghost key: map<ListHead, int>)
    requires cmp == z.cmp && WellFormed(z) && ItemsKept(z) && ComputedOnce(z) && Knows(z, key0)
    requires insize > 0 && |s| > 0 && head == s[0] && Passing(z, key0, insize, [], s) && Within(s, z.rank.Keys)
    modifies z.rank.Keys`next, z.data.Keys`data16, Scratch(cmp)
    ensures ItemsKept(z) && ComputedOnce(z) && Knows(z, key)
    ensures |out| == |s| && list == out[0] && IsList(out) && multiset(out) == multiset(s)
    ensures NoDuplicates(out) && Within(out, z.rank.Keys) && Blocks(out, 2 * insize, 0, key, z.rank)
    ensures nmerges <= 1 <==> |out| <= 2 * insize
  {
    hide WellFormed, ItemsKept, ComputedOnce, Knows, Passing, Chain, IsList, NoDuplicates, Within, Blocks, Tallied;
    NoMerges(insize, |s|);
    var p: ListHead? := head;
    var first: ListHead?, tail: ListHead? := null, null;
    nmerges, key := 0, key0;
    ghost var done: seq<ListHead>, rest := [], s;
    while p != null
      invariant ItemsKept(z) && ComputedOnce(z) && Knows(z, key)
      invariant Passing(z, key, insize, done, rest)
      invariant first == First(done) && tail == LastOf(done) && p == First(rest)
      invariant multiset(done) + multiset(rest) == multiset(s) && |done| + |rest| == |s|
      invariant Tallied(nmerges, insize, |done|, |rest|)
      decreases |rest|
    {
      ghost var m, rest';
      nmerges := nmerges + 1;
      first, tail, p, m, rest', key := MergePair(z, cmp, first, tail, p, insize, done, rest, key);
      OneMoreMerge(nmerges - 1, insize, |done|, |m|, |rest'|);
      done, rest := done + m, rest';
    }
    out := done;
    MergesTallied(nmerges, insize, |done|);
    EndOfPass(z, key, insize, done, rest);
    Terminate(tail, done);
    list := first;
  }

  lemma EndOfPass(z: Start, key: map<ListHead, int>, k: nat, done: seq<ListHead>, rest: seq<ListHead>)
    requires Passing(z, key, k, done, rest)
    ensures Chain(done) && NoDuplicates(done) && Within(done, z.rank.Keys) && Blocks(done, 2 * k, 0, key, z.rank)
    ensures |done| > 0 ==> LastOf(done) in z.rank.Keys
  {
    hide Blocks, Chain, IsList, NoDuplicates, Disjoint, Multiple;
  }

  /** Closes the list behind its last cell. */
  method Terminate(tail: ListHead, ghost out: seq<ListHead>)
    requires |out| > 0 && tail == LastOf(out) && Chain(out) && NoDuplicates(out)
    modifies {tail}`next
    ensures IsList(out)
  {
    assert forall i :: 0 <= i < |out| - 1 ==> out[i] != out[|out| - 1];
    tail.next := null;
  }

  lemma StartOfPass(z: Start, key: map<ListHead, int>, k: nat, s: seq<ListHead>)
    requires IsList(s) && NoDuplicates(s) && Within(s, z.rank.Keys) && Blocks(s, k, 0, key, z.rank) && k > 0
    ensures Passing(z, key, k, [], s)
  {
    hide Run, Ranked;
  }

  lemma FirstPass(z: Start, s: seq<ListHead>)
    requires WellFormed(z) && s == z.cells
    ensures Blocks(s, 1, 0, map[], z.rank) && Within(s, z.rank.Keys) && NoDuplicates(s)
    ensures Knows(z, map[])
  {
    Singles(s, 0, map[], z.rank);
    forall i, j | 0 <= i < j < |s| ensures s[i] != s[j] {
      assert z.rank[s[i]] == i && z.rank[s[j]] == j;
    }
  }

  /** core_list_mergesort: sorts the list starting at head, in place. */
  method Sort(ghost z: Start, cmp: Cmp, head: ListHead)
      returns (list: ListHead, ghost out: seq<ListHead>, ghost key: map<ListHead, int>)
    requires cmp == z.cmp && WellFormed(z) && ItemsKept(z) && ComputedOnce(z)
    requires |z.cells| > 0 && head == z.cells[0] && IsList(z.cells)
    modifies z.rank.Keys`next, z.data.Keys`data16, Scratch(cmp)
    ensures ItemsKept(z) && ComputedOnce(z) && Knows(z, key)
    ensures |out| == |z.cells| && list == out[0] && IsList(out)
    ensures multiset(out) == multiset(z.cells) && NoDuplicates(out)
    ensures Run(out, key, z.rank)
  {
    hide WellFormed, ItemsKept, ComputedOnce, Knows, Passing, IsList, NoDuplicates, Within, Blocks, Run;
    list, out, key := head, z.cells, map[];
    FirstPass(z, out);
    var insize := 1;
    while true
      invariant ItemsKept(z) && ComputedOnce(z) && Knows(z, key)
      invariant insize > 0 && |out| == |z.cells| && list == out[0] && IsList(out)
      invariant multiset(out) == multiset(z.cells) && NoDuplicates(out)
      invariant Within(out, z.rank.Keys) && Blocks(out, insize, 0, key, z.rank)
      decreases |out| - insize
    {
      StartOfPass(z, key, insize, out);
      var nmerges;
      list, nmerges, out, key := MergePass(z, cmp, list, insize, out, key);
      if nmerges <= 1 {
        OneBlock(out, 2 * insize, key, z.rank);
        return;
      }
      insize := insize * 2;
    }
  }
}
