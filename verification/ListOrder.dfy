/** Orders of list cells: runs, blocks of runs and merging, on sequences alone. A key map knows the
    keys of the cells that have been compared so far; a rank map knows where each cell started. */
module ListOrder {
  /** x goes before y: by key, then by starting rank. */
  ghost predicate Before<T>(key: map<T, int>, rank: map<T, nat>, x: T, y: T) {
    x in key && y in key && x in rank && y in rank
    && (key[x] < key[y] || (key[x] == key[y] && rank[x] < rank[y]))
  }

  /** A run is in order. One cell is a run before its key is known; two cells are not. */
  ghost predicate Run<T>(s: seq<T>, key: map<T, int>, rank: map<T, nat>) {
    |s| <= 1 || forall i, j :: 0 <= i < j < |s| ==> Before(key, rank, s[i], s[j])
  }

  /** Every cell of s started at a rank in [lo, hi). */
  ghost predicate Ranked<T>(s: seq<T>, rank: map<T, nat>, lo: nat, hi: nat) {
    forall i :: 0 <= i < |s| ==> s[i] in rank && lo <= rank[s[i]] < hi
  }

  /** s is cut into runs of k cells, the last possibly shorter; each run holds exactly the ranks of
      the stretch it covers, the first of which is lo. */
  ghost predicate Blocks<T>(s: seq<T>, k: nat, lo: nat, key: map<T, int>, rank: map<T, nat>)
    decreases |s|
  {
    k > 0 && (|s| == 0 ||
      var h := if k < |s| then k else |s|;
      Run(s[..h], key, rank) && Ranked(s[..h], rank, lo, lo + h) && Blocks(s[h..], k, lo + h, key, rank))
  }

  /** n is a whole number of stretches of k. */
  ghost predicate Multiple(n: nat, k: nat)
    decreases n
  {
    k > 0 && (n == 0 || (n >= k && Multiple(n - k, k)))
  }

  /** key' knows what key knows. */
  ghost predicate Extends<T>(key: map<T, int>, key': map<T, int>) {
    forall x :: x in key ==> x in key' && key'[x] == key[x]
  }

  /* ---- Knowing more keys ---- */

  lemma RunExtends<T>(s: seq<T>, key: map<T, int>, key': map<T, int>, rank: map<T, nat>)
    requires Run(s, key, rank) && Extends(key, key')
    ensures Run(s, key', rank)
  {
    if |s| > 1 {
      forall i, j | 0 <= i < j < |s| ensures Before(key', rank, s[i], s[j]) {
        assert Before(key, rank, s[i], s[j]);
      }
    }
  }

  lemma {:induction false} BlocksExtend<T>(s: seq<T>, k: nat, lo: nat, key: map<T, int>, key': map<T, int>,
      rank: map<T, nat>)
    requires Blocks(s, k, lo, key, rank) && Extends(key, key')
    ensures Blocks(s, k, lo, key', rank)
    decreases |s|
  {
    if |s| > 0 {
      var h := if k < |s| then k else |s|;
      RunExtends(s[..h], key, key', rank);
      BlocksExtend(s[h..], k, lo + h, key, key', rank);
    }
  }

  /* ---- Merging ---- */

  lemma Transitive<T>(key: map<T, int>, rank: map<T, nat>, x: T, y: T, z: T)
    requires Before(key, rank, x, y) && Before(key, rank, y, z)
    ensures Before(key, rank, x, z)
  {
  }

  lemma RunPrefix<T>(s: seq<T>, t: seq<T>, key: map<T, int>, rank: map<T, nat>)
    requires Run(s + t, key, rank)
    ensures Run(s, key, rank)
  {
    if |s| > 1 {
      forall i, j | 0 <= i < j < |s| ensures Before(key, rank, s[i], s[j]) {
        assert Before(key, rank, (s + t)[i], (s + t)[j]);
      }
    }
  }

  /** The heart of the merge: m is the output so far, e the head of one input and other the rest of
      the other input. If e goes before the other head, the output extended by e is still in order in
      front of both inputs. */
  lemma TakeHead<T>(m: seq<T>, e: T, rest: seq<T>, other: seq<T>, key: map<T, int>, rank: map<T, nat>)
    requires Run(m + ([e] + rest), key, rank)
    requires Run(m + other, key, rank)
    requires |other| > 0 ==> Before(key, rank, e, other[0])
    ensures Run((m + [e]) + rest, key, rank)
    ensures Run((m + [e]) + other, key, rank)
  {
    assert (m + [e]) + rest == m + ([e] + rest);
    if |other| == 0 {
      assert (m + [e]) + rest == m + ([e] + rest);
      assert (m + [e]) + other == m + [e];
      RunPrefix(m + [e], rest, key, rank);
    } else {
      var s := (m + [e]) + other;
      forall i, j | 0 <= i < j < |s| ensures Before(key, rank, s[i], s[j]) {
        InOrder(m, e, rest, other, key, rank, i, j);
      }
    }
  }

  lemma InOrder<T>(m: seq<T>, e: T, rest: seq<T>, other: seq<T>, key: map<T, int>, rank: map<T, nat>, i: nat, j: nat)
    requires Run(m + ([e] + rest), key, rank) && Run(m + other, key, rank)
    requires |other| > 0 && Before(key, rank, e, other[0])
    requires i < j < |m| + 1 + |other|
    ensures Before(key, rank, ((m + [e]) + other)[i], ((m + [e]) + other)[j])
  {
    var p, q, n := m + ([e] + rest), m + other, |m|;
    if j <= n {
      assert Before(key, rank, p[i], p[j]);
    } else if i < n {
      assert Before(key, rank, q[i], q[j - 1]);
    } else if i == n {
      if j > n + 1 {
        assert Before(key, rank, q[n], q[j - 1]);
        Transitive(key, rank, e, other[0], other[j - n - 1]);
      }
    } else {
      assert Before(key, rank, q[i - 1], q[j - 1]);
    }
  }

  /* ---- Blocks ---- */

  /** The first two runs and what follows them. */
  lemma SplitPair<T>(s: seq<T>, k: nat, lo: nat, key: map<T, int>, rank: map<T, nat>, h: nat, g: nat)
    requires Blocks(s, k, lo, key, rank) && |s| > 0
    requires h == (if k < |s| then k else |s|) && g == (if k < |s| - h then k else |s| - h)
    ensures Run(s[..h], key, rank) && Ranked(s[..h], rank, lo, lo + h)
    ensures Run(s[h..][..g], key, rank) && Ranked(s[h..][..g], rank, lo + h, lo + h + g)
    ensures Blocks(s[h..][g..], k, lo + h + g, key, rank)
  {
    var t := s[h..];
    if |t| == 0 {
      assert t[..g] == [] && t[g..] == [];
    }
  }

  lemma {:induction false} AppendBlock<T>(s: seq<T>, m: seq<T>, k: nat, lo: nat, key: map<T, int>, rank: map<T, nat>)
    requires Blocks(s, k, lo, key, rank) && Multiple(|s|, k)
    requires |m| <= k && Run(m, key, rank) && Ranked(m, rank, lo + |s|, lo + |s| + |m|)
    ensures Blocks(s + m, k, lo, key, rank)
    ensures |m| == k ==> Multiple(|s + m|, k)
    decreases |s|
  {
    hide Run, Ranked;
    if |s| == 0 {
      assert s + m == m;
      assert m[..|m|] == m;
      if |m| == k { assert Multiple(0, k); }
    } else {
      assert (s + m)[..k] == s[..k];
      assert (s + m)[k..] == s[k..] + m;
      AppendBlock(s[k..], m, k, lo + k, key, rank);
    }
  }

  /** A single block is one run. */
  lemma OneBlock<T>(s: seq<T>, k: nat, key: map<T, int>, rank: map<T, nat>)
    requires Blocks(s, k, 0, key, rank) && |s| <= k
    ensures Run(s, key, rank)
  {
    if |s| > 0 { assert s[..|s|] == s; }
  }

  /** Cells ranked by position, taken one at a time, are runs of one. */
  lemma {:induction false} Singles<T>(s: seq<T>, lo: nat, key: map<T, int>, rank: map<T, nat>)
    requires forall i :: 0 <= i < |s| ==> s[i] in rank && rank[s[i]] == lo + i
    ensures Blocks(s, 1, lo, key, rank)
    decreases |s|
  {
    if |s| > 0 {
      assert s[0] in rank;
      forall i | 0 <= i < |s[1..]| ensures s[1..][i] in rank && rank[s[1..][i]] == lo + 1 + i {
        assert s[1..][i] == s[i + 1];
      }
      Singles(s[1..], lo + 1, key, rank);
    }
  }

  /* ---- One merge in progress ---- */

  ghost predicate NoDuplicates<T>(s: seq<T>) {
    forall i, j :: 0 <= i < j < |s| ==> s[i] != s[j]
  }

  ghost predicate Disjoint<T>(s: seq<T>, t: seq<T>) {
    forall i, j :: 0 <= i < |s| && 0 <= j < |t| ==> s[i] != t[j]
  }

  /** done ++ m has been output; p and q are what is left of the two runs being merged and rest is
      the remainder of the list. */
  datatype Merge<T> = Merge(done: seq<T>, m: seq<T>, p: seq<T>, q: seq<T>, rest: seq<T>)
  {
    ghost function Out(): seq<T> { done + m }
    ghost function Ahead(): seq<T> { q + rest }
    ghost function TakeP(): Merge<T>
      requires |p| > 0
    {
      Merge(done, m + [p[0]], p[1..], q, rest)
    }
    ghost function TakeQ(): Merge<T>
      requires |q| > 0
    {
      Merge(done, m + [q[0]], p, q[1..], rest)
    }
    ghost function Cells(): multiset<T> {
      multiset(m) + multiset(p) + multiset(q)
    }
    ghost predicate Apart() {
      NoDuplicates(Out()) && NoDuplicates(p) && NoDuplicates(Ahead())
      && Disjoint(Out(), p) && Disjoint(Out(), Ahead()) && Disjoint(p, Ahead())
    }
    /** The two runs cover ranks [lo, mid) and [mid, hi), and the output is in order in front of both. */
    ghost predicate Ordered(key: map<T, int>, rank: map<T, nat>, lo: nat, mid: nat, hi: nat) {
      lo <= mid <= hi
      && Run(m + p, key, rank) && Run(m + q, key, rank)
      && Ranked(p, rank, lo, mid) && Ranked(q, rank, mid, hi) && Ranked(m, rank, lo, hi)
      && |m| + |p| + |q| == hi - lo
    }
  }

  lemma HeadAndTail<T>(s: seq<T>)
    requires |s| > 0
    ensures s == [s[0]] + s[1..] && multiset(s) == multiset([s[0]]) + multiset(s[1..])
  {
    assert s == [s[0]] + s[1..];
  }

  lemma TakePKeepsCells<T>(g: Merge<T>)
    requires |g.p| > 0
    ensures g.TakeP().Cells() == g.Cells()
  {
    HeadAndTail(g.p);
  }

  lemma TakeQKeepsCells<T>(g: Merge<T>)
    requires |g.q| > 0
    ensures g.TakeQ().Cells() == g.Cells()
  {
    HeadAndTail(g.q);
  }

  lemma TakePStaysApart<T>(g: Merge<T>)
    requires |g.p| > 0 && g.Apart()
    ensures g.TakeP().Apart() && g.TakeP().Out() == g.Out() + [g.p[0]]
  {
    assert g.TakeP().Out() == g.Out() + [g.p[0]];
  }

  lemma TakeQStaysApart<T>(g: Merge<T>)
    requires |g.q| > 0 && g.Apart()
    ensures g.TakeQ().Apart() && g.TakeQ().Out() == g.Out() + [g.q[0]]
    ensures g.Ahead() == [g.q[0]] + g.TakeQ().Ahead()
  {
    assert g.TakeQ().Out() == g.Out() + [g.q[0]];
    assert g.Ahead() == [g.q[0]] + g.TakeQ().Ahead();
    assert forall i :: 0 <= i < |g.TakeQ().Ahead()| ==> g.TakeQ().Ahead()[i] == g.Ahead()[i + 1];
    assert g.Ahead()[0] == g.q[0];
  }

  lemma TakePStaysOrdered<T>(g: Merge<T>, key: map<T, int>, rank: map<T, nat>, lo: nat, mid: nat, hi: nat)
    requires |g.p| > 0 && g.Ordered(key, rank, lo, mid, hi)
    requires |g.q| > 0 ==> Before(key, rank, g.p[0], g.q[0])
    ensures g.TakeP().Ordered(key, rank, lo, mid, hi)
  {
    HeadAndTail(g.p);
    TakeHead(g.m, g.p[0], g.p[1..], g.q, key, rank);
  }

  lemma TakeQStaysOrdered<T>(g: Merge<T>, key: map<T, int>, rank: map<T, nat>, lo: nat, mid: nat, hi: nat)
    requires |g.q| > 0 && g.Ordered(key, rank, lo, mid, hi)
    requires |g.p| > 0 ==> Before(key, rank, g.q[0], g.p[0])
    ensures g.TakeQ().Ordered(key, rank, lo, mid, hi)
  {
    HeadAndTail(g.q);
    TakeHead(g.m, g.q[0], g.q[1..], g.p, key, rank);
  }

  lemma OrderedExtends<T>(g: Merge<T>, key: map<T, int>, key': map<T, int>, rank: map<T, nat>, lo: nat, mid: nat,
      hi: nat)
    requires g.Ordered(key, rank, lo, mid, hi) && Extends(key, key')
    ensures g.Ordered(key', rank, lo, mid, hi)
  {
    RunExtends(g.m + g.p, key, key', rank);
    RunExtends(g.m + g.q, key, key', rank);
  }
}
