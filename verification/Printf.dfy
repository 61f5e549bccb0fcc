/** Numbers out and in again: the digit loops of the small printf, its fields and its bounded output. */
module Printf {
  const WORD := 0x1_0000_0000
  const LIMIT := 0x1_0000_0000_0000_0000

  /** An unsigned int, and an unsigned long long. */
  type Unsigned = n: nat | n < WORD
  type Wide = n: nat | n < LIMIT

  type Base = n: nat | n == 8 || n == 10 || n == 16 witness 10

  const NUL: char := '\0'

  /* ---- Numerals ---- */

  /** The number a row of digits stands for. */
  function Value(ds: seq<nat>, base: nat): nat {
    if |ds| == 0 then 0 else Value(ds[..|ds| - 1], base) * base + ds[|ds| - 1]
  }

  /** Digits below the base, at least one, and no leading zero but in 0 itself. */
  ghost predicate Canonical(ds: seq<nat>, base: nat) {
    |ds| > 0 && (forall i :: 0 <= i < |ds| ==> ds[i] < base) && (|ds| > 1 ==> ds[0] != 0)
  }

  lemma ValueMore(ds: seq<nat>, base: nat, d: nat)
    ensures Value(ds + [d], base) == Value(ds, base) * base + d
  {
    assert (ds + [d])[..|ds|] == ds;
  }

  lemma LastDigit(q: nat, r: nat, q': nat, r': nat, base: nat)
    requires r < base && r' < base && q * base + r == q' * base + r'
    ensures q == q' && r == r'
  {
    if q < q' { ProductGap(q, q', base); } else if q' < q { ProductGap(q', q, base); }
  }

  lemma ProductGap(q: nat, q': nat, base: nat)
    requires q < q'
    ensures q * base + base <= q' * base
  {
    var n := q' - q - 1;
    assert n * base >= 0;
    assert q' * base == q * base + n * base + base;
  }

  lemma {:induction false} LeadingDigit(ds: seq<nat>, base: nat)
    requires Canonical(ds, base) && base > 1 && |ds| > 1
    ensures Value(ds, base) >= base
    decreases |ds|
  {
    hide Value;
    var n := |ds| - 1;
    var v := Value(ds[..n], base);
    assert ds == ds[..n] + [ds[n]];
    ValueMore(ds[..n], base, ds[n]);
    if n == 1 {
      assert ds[..1] == [] + [ds[0]];
      ValueMore([], base, ds[0]);
    } else {
      LeadingDigit(ds[..n], base);
    }
    if v > 0 { ProductGap(0, v, base); }
  }

  /** A number has one canonical numeral. */
  lemma {:induction false} NumeralIsUnique(ds: seq<nat>, es: seq<nat>, base: nat)
    requires base > 1 && Canonical(ds, base) && Canonical(es, base) && Value(ds, base) == Value(es, base)
    ensures ds == es
    decreases |ds| + |es|
  {
    OneDigit(ds, base);
    OneDigit(es, base);
    if |ds| > 1 && |es| > 1 {
      var m, n := |ds| - 1, |es| - 1;
      LastDigit(Value(ds[..m], base), ds[m], Value(es[..n], base), es[n], base);
      NumeralIsUnique(ds[..m], es[..n], base);
      assert ds == ds[..m] + [ds[m]] && es == es[..n] + [es[n]];
    }
  }

  lemma OneDigit(ds: seq<nat>, base: nat)
    requires base > 1 && Canonical(ds, base)
    ensures |ds| == 1 ==> Value(ds, base) == ds[0] && ds == [ds[0]]
    ensures |ds| == 1 <==> Value(ds, base) < base
  {
    if |ds| == 1 {
      assert ds == [] + [ds[0]];
      ValueMore([], base, ds[0]);
    } else {
      LeadingDigit(ds, base);
    }
  }

  function Div(n: nat, d: nat): nat
    requires d > 0
  {
    n / d
  }

  function Rest(n: nat, d: nat): nat
    requires d > 0
  {
    n % d
  }

  lemma DivRest(num: nat, d: nat)
    requires d > 0
    ensures num == Div(num, d) * d + Rest(num, d) && Rest(num, d) < d
  {
  }

  lemma DivDown(d: nat, base: nat)
    requires d > 0 && base > 1
    ensures Div(d, base) < d
  {
    DivRest(d, base);
    AtLeastTwice(Div(d, base), base);
    hide Div, Rest;
  }

  lemma AtLeastTwice(q: nat, base: nat)
    requires base > 1
    ensures q * base >= q + q
  {
    assert (base - 2) * q >= 0;
    assert q * base == (base - 2) * q + q + q;
  }

  function Numeral(n: nat, base: Base): (ds: seq<nat>)
    ensures Canonical(ds, base)
    decreases n
  {
    if n < base then [n]
    else
      DivDown(n, base);
      Numeral(Div(n, base), base) + [Rest(n, base)]
  }

  lemma {:induction false} NumeralIsValue(n: nat, base: Base)
    ensures Value(Numeral(n, base), base) == n
    decreases n
  {
    hide Value;
    if n < base {
      OneDigit([n], base);
      ValueMore([], base, n);
      assert [] + [n] == [n];
      NoDigits(base);
    } else {
      DivDown(n, base);
      DivRest(n, base);
      NumeralIsValue(Div(n, base), base);
      ValueMore(Numeral(Div(n, base), base), base, Rest(n, base));
    }
  }

  lemma NoDigits(base: nat)
    ensures Value([], base) == 0
  {
  }

  /* ---- Powers of the base ---- */

  ghost function Power(base: nat, k: nat): nat {
    if k == 0 then 1 else Power(base, k - 1) * base
  }

  lemma PowerOver(base: nat, k: nat)
    requires base > 1
    ensures Power(base, k) > 0
    ensures k > 0 ==> Div(Power(base, k), base) == Power(base, k - 1)
    ensures k == 0 ==> Div(Power(base, k), base) == 0
  {
    if k > 0 {
      PowerOver(base, k - 1);
      Quotient(Power(base, k - 1), 0, base);
    }
  }

  lemma Quotient(q: nat, r: nat, b: nat)
    requires r < b
    ensures (q * b + r) / b == q && (q * b + r) % b == r
  {
    var n := q * b + r;
    assert (n / b) * b + n % b == q * b + r;
    LastDigit(n / b, n % b, q, r, b);
  }

  /** 22 digits are enough for 64 bits in base 8 or more. */
  lemma {:induction false} PowerGrows(base: nat, k: nat)
    requires base >= 8
    ensures Power(base, k) >= Power(8, k)
  {
    if k > 0 {
      PowerGrows(base, k - 1);
      assert Power(base, k - 1) * base >= Power(8, k - 1) * 8;
    }
  }

  lemma FitsBuffer(base: nat, k: nat)
    requires base >= 8 && Power(base, k) < LIMIT
    ensures k <= 21
  {
    if k > 21 {
      PowerGrows(base, k);
      PowerIsMonotone(k);
      Power22();
    }
  }

  lemma Power22()
    ensures Power(8, 22) == 0x4_0000_0000_0000_0000
  {
    assert Power(8, 11) == 0x2_0000_0000;
    PowerSplits(11);
  }

  lemma PowerIsMonotone(k: nat)
    requires k >= 22
    ensures Power(8, k) >= Power(8, 22)
  {
    if k > 22 { PowerIsMonotone(k - 1); }
  }

  lemma PowerSplits(k: nat)
    ensures Power(8, k + 11) == Power(8, k) * Power(8, 11)
  {
    if k > 0 {
      PowerSplits(k - 1);
    }
  }

  /* ---- Digits out ---- */

  function DigitChar(d: nat, uc: bool): (c: char)
    requires d < 16
    ensures c != NUL
  {
    if d < 10 then '0' + d as char else if uc then 'A' + (d - 10) as char else 'a' + (d - 10) as char
  }

  lemma DigitCharIs(d: nat, uc: bool)
    requires d < 16
    ensures DigitChar(d, uc) == if uc then "0123456789ABCDEF"[d] else "0123456789abcdef"[d]
  {
  }

  function Chars(ds: seq<nat>, uc: bool): (s: string)
    requires forall i :: 0 <= i < |ds| ==> ds[i] < 16
    ensures |s| == |ds| && forall i :: 0 <= i < |s| ==> s[i] == DigitChar(ds[i], uc)
  {
    seq(|ds|, i requires 0 <= i < |ds| => DigitChar(ds[i], uc))
  }

  /** bf holds a string of n characters. */
  ghost predicate HoldsString(bf: seq<char>, s: string) {
    |s| < |bf| && bf[..|s|] == s && bf[|s|] == NUL
  }

  /** The largest power of the base not above the number, or 1. It never overflows on the way. */
  method Divisor(num: Wide, base: Base) returns (d: Wide, ghost k: nat)
    ensures d == Power(base, k) && (d <= num || d == 1) && num < d * base
  {
    d, k := 1, 0;
    while num / d >= base
      invariant d == Power(base, k) > 0 && (d <= num || d == 1)
      decreases num - d
    {
      Room(num, d, base);
      d := d * base;
      k := k + 1;
    }
    NoRoom(num, d, base);
  }

  lemma Room(num: nat, d: nat, base: nat)
    requires d > 0 && num / d >= base && base > 1
    ensures d < d * base <= num
  {
    assert num == (num / d) * d + num % d;
    assert (num / d - base) * d >= 0;
    assert d * (base - 1) >= d;
  }

  lemma NoRoom(num: nat, d: nat, base: nat)
    requires d > 0 && num / d < base
    ensures num < d * base
  {
    assert num == (num / d) * d + num % d;
    assert (base - 1 - num / d) * d >= 0;
    assert d * base == (base - 1) * d + d;
  }

  /** The digits written so far and the rest of the number, in steps of the divisor. */
  ghost predicate Peeling(ds: seq<nat>, num: nat, d: nat, k: nat, base: nat, num0: nat) {
    (forall i :: 0 <= i < |ds| ==> ds[i] < base)
    && (if d == 0 then |ds| > 0 && Value(ds, base) == num0
        else d == Power(base, k) && num < d * base && Value(ds, base) * (d * base) + num == num0
             && (|ds| == 0 ==> d <= num || d == 1))
    && (|ds| > 0 && !(|ds| == 1 && d == 0) ==> ds[0] != 0)
  }

  lemma StartPeeling(num: nat, d: nat, k: nat, base: nat)
    requires d == Power(base, k) && d > 0 && (d <= num || d == 1) && num < d * base
    ensures Peeling([], num, d, k, base, num)
  {
  }

  lemma PeelStep(ds: seq<nat>, num: nat, d: nat, k: nat, base: nat, num0: nat)
    requires Peeling(ds, num, d, k, base, num0) && d > 0 && base > 1
    ensures Div(num, d) < base && Div(d, base) < d && (Div(d, base) == 0 <==> k == 0)
    ensures |ds| > 0 || Div(num, d) > 0 || Div(d, base) == 0
    ensures Peeling(ds + [Div(num, d)], Rest(num, d), Div(d, base), if k > 0 then k - 1 else 0, base, num0)
  {
    PeelFacts(ds, num, d, k, base, num0);
    Peel(Value(ds, base), num, d, base, num0);
    ValueMore(ds, base, Div(num, d));
    PowerOver(base, k);
    if k > 0 { PowerOver(base, k - 1); }
    hide Value, Div, Rest, Power;
  }

  lemma PeelFacts(ds: seq<nat>, num: nat, d: nat, k: nat, base: nat, num0: nat)
    requires Peeling(ds, num, d, k, base, num0) && d > 0 && base > 1
    ensures d == Power(base, k) && num < d * base && Value(ds, base) * (d * base) + num == num0
  {
  }

  /** ui2a, uli2a and ulli2a: the canonical numeral, inside the 23-byte buffer. */
  method Ulli2a(num0: Wide, base: Base, uc: bool, bf: array<char>) returns (ghost ds: seq<nat>)
    requires bf.Length == 23
    modifies bf
    ensures Canonical(ds, base) && Value(ds, base) == num0
    ensures HoldsString(bf[..], Chars(ds, uc))
  {
    hide Value, Power, Peeling;
    var num: nat, n: nat, d: nat := num0, 0, 1;
    ghost var k: nat;
    d, k := Divisor(num, base);
    PowerBound(num, base, d, k);
    PowerOver(base, k);
    ds := [];
    StartPeeling(num, d, k, base);
    ghost var room := k + 1;
    while d != 0
      invariant n == |ds| && room <= 22 && n + (if d != 0 then k + 1 else 0) == room
      invariant Peeling(ds, num, d, k, base, num0)
      invariant forall i :: 0 <= i < n ==> ds[i] < base
      invariant bf[..n] == Chars(ds, uc)
      decreases d
    {
      var dgt := num / d;
      PeelStep(ds, num, d, k, base, num0);
      num := num % d;
      d := d / base;
      if n > 0 || dgt > 0 || d == 0 {
        bf[n] := DigitChar(dgt, uc);
        n := n + 1;
        ds := ds + [dgt];
      }
      if k > 0 { k := k - 1; }
    }
    bf[n] := NUL;
    Peeled(ds, num, k, base, num0);
  }

  lemma Peeled(ds: seq<nat>, num: nat, k: nat, base: nat, num0: nat)
    requires Peeling(ds, num, 0, k, base, num0)
    ensures Canonical(ds, base) && Value(ds, base) == num0
  {
  }

  lemma PowerBound(num: Wide, base: Base, d: Wide, k: nat)
    requires d == Power(base, k) && (d <= num || d == 1)
    ensures k <= 21
  {
    FitsBuffer(base, k);
  }

  /** One digit leaves the number for the numeral. */
  lemma Peel(v: nat, num: nat, d: nat, base: nat, total: nat)
    requires d > 0 && base > 1 && v * (d * base) + num == total && num < d * base
    ensures Div(num, d) < base && (v * base + Div(num, d)) * d + Rest(num, d) == total && Rest(num, d) < d
    ensures d <= num ==> Div(num, d) > 0
    ensures Div(d, base) < d
    ensures d == 1 ==> v * base + Div(num, d) == total
  {
    DivRest(num, d);
    if num / d >= base { Room(num, d, base); }
    DivDown(d, base);
    Regroup(v, d, base, Div(num, d), Rest(num, d));
    if d <= num && Div(num, d) == 0 { NoRoom(num, d, 1); }
    hide Div, Rest;
  }

  lemma Regroup(v: nat, d: nat, base: nat, q: nat, r: nat)
    ensures (v * base + q) * d + r == v * (d * base) + (q * d + r)
  {
    assert (v * base + q) * d == (v * base) * d + q * d;
    assert (v * base) * d == v * (d * base);
  }

  /* ---- Digits in ---- */

  function A2d(ch: char): int {
    if '0' <= ch <= '9' then ch as int - '0' as int
    else if 'a' <= ch <= 'f' then ch as int - 'a' as int + 10
    else if 'A' <= ch <= 'F' then ch as int - 'A' as int + 10
    else -1
  }

  lemma A2dReadsDigitChar(d: nat, uc: bool)
    requires d < 16
    ensures A2d(DigitChar(d, uc)) == d
  {
  }

  /** What the reader takes for a digit: one too many, the base itself. */
  predicate Readable(ch: char, base: nat) {
    0 <= A2d(ch) <= base
  }

  function DigitOf(ch: char): nat {
    if A2d(ch) >= 0 then A2d(ch) else 0
  }

  function Read(ds: string, base: nat): nat {
    if |ds| == 0 then 0 else Read(ds[..|ds| - 1], base) * base + DigitOf(ds[|ds| - 1])
  }

  /** a2u: ch0 has been read already and src is the place behind it. Reads as long as characters are
      readable, and returns the first that is not, the place behind it and the value modulo 2^32. */
  method A2u(s: string, ch0: char, src0: nat, base: nat, ghost stop: nat) returns (ch: char, src: nat, num: Unsigned)
    requires 0 < src0 <= stop + 1 <= |s| && ch0 == s[src0 - 1] && base > 0
    requires !Readable(s[stop], base) && forall i :: src0 - 1 <= i < stop ==> Readable(s[i], base)
    ensures ch == s[stop] && src == stop + 1
    ensures num == Read(s[src0 - 1..stop], base) % WORD
  {
    ch, src, num := ch0, src0, 0;
    while A2d(ch) >= 0
      invariant src0 <= src <= stop + 1 && ch == s[src - 1]
      invariant num == Read(s[src0 - 1..src - 1], base) % WORD
      decreases |s| - src
    {
      var digit := A2d(ch);
      assert digit == DigitOf(ch);
      if digit > base { break; }
      ghost var t := s[src0 - 1..src];
      assert t[..|t| - 1] == s[src0 - 1..src - 1];
      Wraps(Read(s[src0 - 1..src - 1], base), base, digit);
      num := (num * base + digit) % WORD;
      ch := s[src];
      src := src + 1;
    }
  }

  lemma Wraps(v: nat, base: nat, d: nat)
    ensures ((v % WORD) * base + d) % WORD == (v * base + d) % WORD
  {
    var q, r := v / WORD, v % WORD;
    assert v == q * WORD + r;
    var m := r * base + d;
    assert v * base + d == (q * base) * WORD + m;
    Quotient(q * base + m / WORD, m % WORD, WORD);
  }

  lemma {:induction false} ReadIsValue(ds: seq<nat>, base: nat, uc: bool)
    requires 1 < base <= 16 && forall i :: 0 <= i < |ds| ==> ds[i] < base
    ensures forall i :: 0 <= i < |ds| ==> Readable(Chars(ds, uc)[i], base)
    ensures Read(Chars(ds, uc), base) == Value(ds, base)
    decreases |ds|
  {
    forall i | 0 <= i < |ds| ensures Readable(Chars(ds, uc)[i], base) {
      A2dReadsDigitChar(ds[i], uc);
    }
    if |ds| > 0 {
      var n := |ds| - 1;
      ReadIsValue(ds[..n], base, uc);
      A2dReadsDigitChar(ds[n], uc);
      assert Chars(ds, uc)[..n] == Chars(ds[..n], uc);
    }
  }

  /** A digit below the base. */
  predicate ProperDigit(ch: char, base: nat) {
    0 <= A2d(ch) < base
  }

  /** The first character from i on that the reader does not take ... */
  function ReadEnd(s: string, i: nat, base: nat): (e: nat)
    requires i < |s| && !Readable(s[|s| - 1], base)
    ensures i <= e < |s| && !Readable(s[e], base) && forall j :: i <= j < e ==> Readable(s[j], base)
    decreases |s| - i
  {
    if Readable(s[i], base) then ReadEnd(s, i + 1, base) else i
  }

  /** ... and the first that is no digit below the base. */
  function ProperEnd(s: string, i: nat, base: nat): (e: nat)
    requires i < |s| && !Readable(s[|s| - 1], base)
    ensures i <= e < |s| && !ProperDigit(s[e], base) && forall j :: i <= j < e ==> ProperDigit(s[j], base)
    decreases |s| - i
  {
    if ProperDigit(s[i], base) then ProperEnd(s, i + 1, base) else i
  }

  lemma ReadMore(t: string, ch: char, base: nat)
    requires base >= 1
    ensures Read(t + [ch], base) == Read(t, base) * base + DigitOf(ch)
    ensures Read(t + [ch], base) >= Read(t, base) + DigitOf(ch)
  {
    assert (t + [ch])[..|t|] == t;
    assert Read(t, base) * (base - 1) >= 0;
    assert Read(t, base) * base == Read(t, base) * (base - 1) + Read(t, base);
  }

  lemma {:induction false} ReadGrows(s: string, i: nat, j: nat, k: nat, base: nat)
    requires i <= j <= k <= |s| && base >= 1
    ensures Read(s[i..k], base) >= Read(s[i..j], base)
    decreases k
  {
    hide Read, A2d;
    if j < k {
      ReadGrows(s, i, j, k - 1, base);
      ReadMore(s[i..k - 1], s[k - 1], base);
      assert s[i..k] == s[i..k - 1] + [s[k - 1]];
    }
  }

  /** Exactly when the extra digit matters: the place where reading stops and the value read are those of
      a reader of proper digits if and only if the character that stops the latter is not worth the base;
      and so is the value modulo 2^32 when there is no wrap-around. */
  lemma ReadsProperlyExactlyWhen(s: string, i: nat, base: nat)
    requires i < |s| && !Readable(s[|s| - 1], base) && base >= 1
    ensures var e, p := ReadEnd(s, i, base), ProperEnd(s, i, base);
            p <= e && (e == p <==> A2d(s[p]) != base)
            && (Read(s[i..e], base) == Read(s[i..p], base) <==> A2d(s[p]) != base)
            && (Read(s[i..e], base) < WORD ==>
                  (Read(s[i..e], base) % WORD == Read(s[i..p], base) % WORD <==> A2d(s[p]) != base))
  {
    hide Read, A2d;
    var e, p := ReadEnd(s, i, base), ProperEnd(s, i, base);
    ReadGrows(s, i, p, e, base);
    if A2d(s[p]) == base {
      ReadMore(s[i..p], s[p], base);
      assert s[i..p + 1] == s[i..p] + [s[p]];
      DigitOfReadable(s[p], base);
      ReadGrows(s, i, p + 1, e, base);
    }
  }

  lemma DigitOfReadable(ch: char, base: nat)
    requires Readable(ch, base)
    ensures DigitOf(ch) == A2d(ch)
  {
  }

  /** So in "%1ad" the letter, ten and not below ten, counts as a digit: the width is twenty. */
  lemma BaseIsReadable()
    ensures Readable('a', 10) && !ProperDigit('a', 10) && !Readable('b', 10) && Read("1a", 10) == 20
  {
    assert "1a"[..1] == "1" && "1"[..0] == "";
    assert Read("1", 10) == 1;
  }

  /** Modulo 2^32 the value alone can hide it: one number read with such a digit behind it wraps around to
      itself. */
  lemma WrapCanHideIt(t: string)
    requires Read(t, 10) == 3340530118
    ensures Read(t + "a", 10) % WORD == Read(t, 10)
  {
    ReadMore(t, 'a', 10);
  }

  /** A number written in any of the bases is read back, and the reader stops at the character behind
      it, whatever unreadable one that is. */
  method WriteThenRead(num0: Unsigned, base: Base, uc: bool, end: char) returns (num: Unsigned, ch: char)
    requires !Readable(end, base)
    ensures num == num0 && ch == end
  {
    hide Value, Read, Readable, Canonical, Chars, A2d, HoldsString;
    var bf := new char[23];
    ghost var ds := Ulli2a(num0, base, uc, bf);
    CanonicalParts(ds, base);
    CharsAreNotNul(ds, uc);
    var n := Length(bf, Chars(ds, uc));
    num, ch := ReadNumeral(bf[..n] + [end], n, ds, base, uc);
  }

  /** Reads a canonical numeral with something unreadable behind it. */
  method ReadNumeral(text: string, n: nat, ghost ds: seq<nat>, base: Base, ghost uc: bool)
    returns (num: Unsigned, ch: char)
    requires n > 0 && |text| == n + 1 && |ds| == n && forall i :: 0 <= i < n ==> ds[i] < base
    requires text[..n] == Chars(ds, uc) && !Readable(text[n], base)
    ensures num == Value(ds, base) % WORD && ch == text[n]
  {
    hide Value, Read, Readable, Chars, A2d;
    TextReads(text, n, ds, base, uc);
    var src;
    ch, src, num := A2u(text, text[0], 1, base, n);
  }

  /** A numeral with something unreadable behind it. */
  lemma TextReads(text: string, n: nat, ds: seq<nat>, base: nat, uc: bool)
    requires 1 < base <= 16 && |text| == n + 1 && |ds| == n && forall i :: 0 <= i < n ==> ds[i] < base
    requires text[..n] == Chars(ds, uc)
    ensures forall i :: 0 <= i < n ==> Readable(text[i], base)
    ensures Read(text[0..n], base) == Value(ds, base)
  {
    hide Value, Read, Readable, Chars, A2d;
    ReadIsValue(ds, base, uc);
    forall i | 0 <= i < n ensures Readable(text[i], base) {
      assert text[i] == text[..n][i];
    }
    assert text[0..n] == text[..n];
  }

  lemma CharsAreNotNul(ds: seq<nat>, uc: bool)
    requires forall i :: 0 <= i < |ds| ==> ds[i] < 16
    ensures NUL !in Chars(ds, uc)
  {
  }

  lemma CanonicalParts(ds: seq<nat>, base: nat)
    requires Canonical(ds, base)
    ensures |ds| > 0 && forall i :: 0 <= i < |ds| ==> ds[i] < base
  {
  }

  /** The length of the string a buffer holds. */
  method Length(bf: array<char>, ghost s: string) returns (n: nat)
    requires HoldsString(bf[..], s) && NUL !in s
    ensures n == |s| && n < bf.Length && bf[..n] == s
  {
    n := 0;
    while bf[n] != NUL
      invariant 0 <= n <= |s|
      decreases |s| - n
    {
      assert bf[..|s|][n] == s[n];
      n := n + 1;
    }
  }

  /* ---- Fields ---- */

  /** A conversion about to be printed: its text is a numeral or a string argument. A sign of NUL is none. */
  datatype Param = Param(lz: bool, alt: bool, uc: bool, alignLeft: bool, width: Unsigned, sign: char, base: nat,
      text: string)

  function Repeat(c: char, n: int): (s: string)
    ensures |s| == if n > 0 then n else 0
  {
    seq(if n > 0 then n else 0, _ => c)
  }

  function Sign(p: Param): string {
    if p.sign != NUL then [p.sign] else []
  }

  function Prefix(p: Param): string {
    if p.alt && p.base == 16 then ['0', if p.uc then 'X' else 'x'] else if p.alt && p.base == 8 then ['0'] else []
  }

  /** The width as the int it is copied to. */
  function SignedWidth(p: Param): int {
    if p.width < 0x8000_0000 then p.width else p.width - WORD
  }

  function Padding(p: Param): int {
    SignedWidth(p) - |p.text| - |Sign(p)| - |Prefix(p)|
  }

  function Head(p: Param): string {
    (if !p.lz && !p.alignLeft then Repeat(' ', Padding(p)) else []) + Sign(p) + Prefix(p)
  }

  /** What a field prints: zeros go between prefix and digits, and win over left alignment. */
  function Field(p: Param): string {
    Head(p)
    + (if p.lz then Repeat('0', Padding(p)) else [])
    + p.text
    + (if !p.lz && p.alignLeft then Repeat(' ', Padding(p)) else [])
  }

  /** What a field looks like: spaces in front, sign, prefix, zeros, text and spaces behind, where all the
      padding is in one of the three places: the zeros if they are asked for, else behind if the field is
      left-aligned, else in front. */
  lemma FieldLayout(p: Param)
    ensures var n := Padding(p);
            Field(p) == (if p.lz || p.alignLeft then "" else Repeat(' ', n)) + Sign(p) + Prefix(p)
                        + (if p.lz then Repeat('0', n) else "") + p.text
                        + (if p.lz || !p.alignLeft then "" else Repeat(' ', n))
  {
    hide Repeat, Sign, Prefix, Padding;
  }

  function Max(a: int, b: int): int {
    if a > b then a else b
  }

  /** A field is as long as its width or its contents, whichever is longer, as long as the width fits an
      int; a wider one is not padded at all. */
  lemma FieldLength(p: Param)
    ensures |Field(p)| ==
            Max(if p.width < 0x8000_0000 then p.width else 0, |Sign(p)| + |Prefix(p)| + |p.text|)
  {
  }

  /* ---- Where the characters go ---- */

  /** The state behind the output callbacks: a bounded one counts but drops what does not fit. */
  class Sink {
    const dest: array<char>
    const bounded: bool
    const capacity: nat
    var numChars: nat
    /** What the destination held at first, and all that has been put since. */
    ghost const initial: string
    ghost var log: string

    constructor (dest: array<char>, bounded: bool, capacity: nat)
      requires if bounded then capacity < dest.Length else capacity == dest.Length
      ensures this.dest == dest && this.bounded == bounded && this.capacity == capacity
      ensures initial == dest[..] && log == [] && Valid()
    {
      this.dest, this.bounded, this.capacity, numChars, log := dest, bounded, capacity, 0, [];
      initial := dest[..];
    }

    ghost function Stored(): nat
      reads this
    {
      if |log| <= capacity then |log| else capacity
    }

    /** The destination holds what was put, as far as there is room, over what it held before. */
    ghost predicate Valid()
      reads this, dest
    {
      capacity <= dest.Length == |initial|
      && (if bounded then capacity < dest.Length else |log| <= capacity == dest.Length)
      && numChars == |log| && dest[..] == log[..Stored()] + initial[Stored()..]
    }

    /** Room for n more characters, where room is needed. */
    ghost predicate Room(n: nat)
      reads this
    {
      !bounded ==> |log| + n < capacity
    }

    method Put(c: char)
      requires Valid() && Room(1)
      modifies this`numChars, this`log, dest
      ensures Valid() && log == old(log) + [c]
    {
      ghost var was := dest[..];
      if bounded {
        if numChars < capacity { dest[numChars] := c; }
      } else {
        dest[numChars] := c;
      }
      numChars := numChars + 1;
      log := log + [c];
      assert dest[..] == if |log| <= capacity then was[|log| - 1 := c] else was;
    }

    method PutRepeated(c: char, n0: int)
      requires Valid() && Room(|Repeat(c, n0)|)
      modifies this`numChars, this`log, dest
      ensures Valid() && log == old(log) + Repeat(c, n0)
    {
      var n := n0;
      ghost var i := 0;
      while n > 0
        invariant i <= |Repeat(c, n0)| && n == n0 - i && Valid()
        invariant log == old(log) + Repeat(c, i)
        decreases n
      {
        n := n - 1;
        Put(c);
        i := i + 1;
        assert Repeat(c, i) == Repeat(c, i - 1) + [c];
      }
      assert Repeat(c, i) == Repeat(c, n0);
    }

    method PutText(text: string)
      requires Valid() && Room(|text|)
      modifies this`numChars, this`log, dest
      ensures Valid() && log == old(log) + text
    {
      var i := 0;
      while i < |text|
        invariant 0 <= i <= |text| && Valid() && log == old(log) + text[..i]
      {
        Put(text[i]);
        i := i + 1;
        assert text[..i] == text[..i - 1] + [text[i - 1]];
      }
    }
  }

  /** What is left of the width once the text, the sign and the prefix are taken off. */
  method FillCount(p: Param) returns (n: int)
    ensures Repeat(' ', n) == Repeat(' ', Padding(p)) && Repeat('0', n) == Repeat('0', Padding(p))
  {
    n := SignedWidth(p);
    var i := 0;
    while i < |p.text| && n > 0
      invariant 0 <= i <= |p.text| && n == (if SignedWidth(p) > 0 then SignedWidth(p) - i else SignedWidth(p))
      invariant SignedWidth(p) > 0 ==> n >= 0
    {
      i := i + 1;
      n := n - 1;
    }
    if p.sign != NUL { n := n - 1; }
    if p.alt && p.base == 16 { n := n - 2; } else if p.alt && p.base == 8 { n := n - 1; }
  }

  lemma RoomLeft(out: Sink, all: string, next: string)
    requires out.log + next <= all && (!out.bounded ==> |all| < out.capacity)
    ensures out.Room(|next|)
  {
  }

  lemma RoomMeans(out: Sink, n: nat)
    requires out.Room(n)
    ensures !out.bounded ==> |out.log| + n < out.capacity
  {
  }

  /** Padding on the left, sign and prefix. */
  method PutHead(out: Sink, p: Param, n: int)
    requires Repeat(' ', n) == Repeat(' ', Padding(p))
    requires out.Valid() && out.Room(|Head(p)|)
    modifies out`numChars, out`log, out.dest
    ensures out.Valid() && out.log == old(out.log) + Head(p)
  {
    hide Padding, Repeat, Prefix, out.Valid;
    ghost var log0 := out.log;
    if !p.lz && !p.alignLeft { out.PutRepeated(' ', n); }
    if p.sign != NUL { out.Put(p.sign); }
    PutPrefix(out, p);
    assert out.log == log0 + Head(p);
  }

  /** The alternate form's prefix. */
  method PutPrefix(out: Sink, p: Param)
    requires out.Valid() && out.Room(|Prefix(p)|)
    modifies out`numChars, out`log, out.dest
    ensures out.Valid() && out.log == old(out.log) + Prefix(p)
  {
    hide out.Valid;
    if p.alt && p.base == 16 {
      out.Put('0');
      out.Put(if p.uc then 'X' else 'x');
    } else if p.alt && p.base == 8 {
      out.Put('0');
    }
  }

  /** putchw. */
  method Putchw(out: Sink, p: Param)
    requires out.Valid() && out.Room(|Field(p)|)
    modifies out`numChars, out`log, out.dest
    ensures out.Valid() && out.log == old(out.log) + Field(p)
  {
    hide Padding, Repeat, Head, out.Valid, out.Room;
    ghost var log0 := out.log;
    ghost var all := log0 + Field(p);
    RoomMeans(out, |Field(p)|);
    RoomLeft(out, all, Head(p));
    var n := FillCount(p);
    PutHead(out, p, n);
    if p.lz {
      RoomLeft(out, all, Repeat('0', n));
      out.PutRepeated('0', n);
    }
    RoomLeft(out, all, p.text);
    out.PutText(p.text);
    if !p.lz && p.alignLeft {
      RoomLeft(out, all, Repeat(' ', n));
      out.PutRepeated(' ', n);
    }
    assert out.log == all;
  }
}
