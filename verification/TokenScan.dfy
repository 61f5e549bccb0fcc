/** Reading tokens out of a buffer and counting what the machine did. */
module TokenScan {
  import opened TokenMachine

  /** An unsigned 32-bit counter. */
  type Count = n: nat | n < 0x1_0000_0000

  function Up(n: Count): Count {
    (n + 1) % 0x1_0000_0000
  }

  /* ---- What the counters count ---- */

  /** A move from s to t is counted once for leaving s, except that leaving SCIENTIFIC counts for
      INVALID instead, and a text that fails at its first byte counts for INVALID as well. */
  ghost function Counted(s: State, t: State): multiset<State> {
    (if s != t && s != SCIENTIFIC then multiset{s} else multiset{})
    + (if t == INVALID && (s == START || s == SCIENTIFIC) then multiset{INVALID} else multiset{})
  }

  ghost function CountedIn(body: seq<bv8>): multiset<State> {
    if |body| == 0 then multiset{}
    else
      var u := body[..|body| - 1];
      CountedIn(u) + Counted(Moves(START, u), Moves(START, body))
  }

  /** Counters hold the numbers of a tally, modulo 2^32. */
  ghost predicate Holds(counts: seq<Count>, tally: multiset<State>) {
    |counts| == STATES && forall s: State :: counts[Index(s)] == tally[s] % 0x1_0000_0000
  }

  lemma IndexApart(s: State, t: State)
    ensures Index(s) == Index(t) <==> s == t
  {
  }

  lemma UpHolds(counts: seq<Count>, tally: multiset<State>, s: State)
    requires Holds(counts, tally)
    ensures Holds(counts[Index(s) := Up(counts[Index(s)])], tally + multiset{s})
  {
    forall t: State { IndexApart(s, t); }
  }

  method CountUp(counts: array<Count>, s: State, ghost tally: multiset<State>)
    requires Holds(counts[..], tally)
    modifies counts
    ensures Holds(counts[..], tally + multiset{s})
  {
    UpHolds(counts[..], tally, s);
    var i := Index(s);
    ghost var was := counts[..];
    counts[i] := Up(counts[i]);
    assert counts[..] == was[i := Up(was[i])];
  }

  /** One byte through the machine, with its counters. */
  method Step(state: State, c: bv8, counts: array<Count>, ghost tally: multiset<State>) returns (next: State)
    requires Holds(counts[..], tally) && state != INVALID
    modifies counts
    ensures next == Move(state, c) && Holds(counts[..], tally + Counted(state, next))
  {
    Apart(c);
    hide Holds, IsDigit, IsSign, IsDot, IsE;
    assert tally + multiset{} == tally;
    next := state;
    match state
    case START =>
      if IsDigit(c) { next := INT; }
      else if IsSign(c) { next := S1; }
      else if IsDot(c) { next := FLOAT; }
      else {
        next := INVALID;
        CountUp(counts, INVALID, tally);
      }
      CountUp(counts, START, if next == INVALID then tally + multiset{INVALID} else tally);
      assert tally + Counted(START, next)
             == (if next == INVALID then tally + multiset{INVALID} else tally) + multiset{START};
    case S1 =>
      if IsDigit(c) { next := INT; } else if IsDot(c) { next := FLOAT; } else { next := INVALID; }
      CountUp(counts, S1, tally);
      assert tally + Counted(S1, next) == tally + multiset{S1};
    case INT =>
      if IsDot(c) {
        next := FLOAT;
        CountUp(counts, INT, tally);
      } else if !IsDigit(c) {
        next := INVALID;
        CountUp(counts, INT, tally);
      }
      assert tally + Counted(INT, next) == if next == INT then tally else tally + multiset{INT};
    case FLOAT =>
      if IsE(c) {
        next := S2;
        CountUp(counts, FLOAT, tally);
      } else if !IsDigit(c) {
        next := INVALID;
        CountUp(counts, FLOAT, tally);
      }
      assert tally + Counted(FLOAT, next) == if next == FLOAT then tally else tally + multiset{FLOAT};
    case S2 =>
      if IsSign(c) { next := EXPONENT; } else { next := INVALID; }
      CountUp(counts, S2, tally);
      assert tally + Counted(S2, next) == tally + multiset{S2};
    case EXPONENT =>
      if IsDigit(c) { next := SCIENTIFIC; } else { next := INVALID; }
      CountUp(counts, EXPONENT, tally);
      assert tally + Counted(EXPONENT, next) == tally + multiset{EXPONENT};
    case SCIENTIFIC =>
      if !IsDigit(c) {
        next := INVALID;
        CountUp(counts, INVALID, tally);
      }
      assert tally + Counted(state, next) == if next == INVALID then tally + multiset{INVALID} else tally;
  }

  /* ---- One token ---- */

  /** A token: the bytes the machine was fed, the comma that ended it if one did, and the verdict. */
  datatype Token = Token(body: seq<bv8>, comma: bool, state: State)

  ghost function Text(k: Token): seq<bv8> {
    k.body + (if k.comma then [COMMA] else [])
  }

  ghost predicate Clean(t: seq<bv8>) {
    forall i :: 0 <= i < |t| ==> t[i] != NUL && t[i] != COMMA
  }

  /** k is the token read at position i of b: it stops behind the first comma, at the first NUL or
      behind the first byte that makes it INVALID, whichever comes first. */
  ghost predicate IsToken(b: seq<bv8>, i: nat, k: Token) {
    i + |Text(k)| <= |b| && b[i..i + |Text(k)|] == Text(k)
    && Clean(k.body) && k.state == Moves(START, k.body)
    && (forall n :: 0 <= n < |k.body| ==> Moves(START, k.body[..n]) != INVALID)
    && (k.state == INVALID ==> !k.comma)
    && (k.state != INVALID && !k.comma ==> i + |k.body| < |b| && b[i + |k.body|] == NUL)
  }

  /** So an INVALID token ends with the first byte after which no number is possible, and any other
      token belongs to the language of its state. */
  lemma TokenMeaning(b: seq<bv8>, i: nat, k: Token)
    requires IsToken(b, i, k)
    ensures k.state != INVALID ==> Language(k.state, k.body)
    ensures k.state == INVALID ==>
              |k.body| > 0 && Language(INVALID, k.body) && !Language(INVALID, k.body[..|k.body| - 1])
  {
    hide Moves, IsNumber;
    StateIsLanguage(k.body, k.state);
    if k.state == INVALID {
      if |k.body| == 0 {
        StateIsLanguage(k.body, START);
      } else {
        StateIsLanguage(k.body[..|k.body| - 1], INVALID);
      }
    }
  }

  lemma GrowToken(b: seq<bv8>, start: nat, p: nat, body: seq<bv8>, c: bv8)
    requires start <= p < |b| && body == b[start..p] && c == b[p]
    requires Clean(body) && c != NUL && c != COMMA && Moves(START, body) != INVALID
    requires forall n :: 0 <= n < |body| ==> Moves(START, body[..n]) != INVALID
    ensures body + [c] == b[start..p + 1] && Clean(body + [c])
    ensures Moves(START, body + [c]) == Move(Moves(START, body), c)
    ensures forall n :: 0 <= n < |body + [c]| ==> Moves(START, (body + [c])[..n]) != INVALID
    ensures CountedIn(body + [c]) == CountedIn(body) + Counted(Moves(START, body), Move(Moves(START, body), c))
  {
    hide Move, Counted;
    var more := body + [c];
    assert more[..|more| - 1] == body;
    forall n | 0 <= n < |more| ensures Moves(START, more[..n]) != INVALID {
      assert more[..n] == body[..n];
      assert n == |body| ==> body[..n] == body;
    }
  }

  /** The buffer and the counters do not overlap. */
  ghost predicate Separate(b: array<bv8>, counts: array<Count>) {
    var x: object, y: object := b, counts;
    x != y
  }

  /** core_state_transition: reads the token at `start` and counts its moves. The buffer holds a NUL at
      some later place z. */
  method CoreStateTransition(b: array<bv8>, start: nat, counts: array<Count>, ghost z: nat,
      ghost tally: multiset<State>)
    returns (end: nat, state: State, ghost k: Token)
    requires start <= z < b.Length && b[z] == NUL && Holds(counts[..], tally) && Separate(b, counts)
    modifies counts
    ensures IsToken(b[..], start, k) && k.state == state && end == start + |Text(k)| <= z
    ensures Holds(counts[..], tally + CountedIn(k.body))
  {
    hide Moves, Holds, CountedIn, Counted, Move;
    state, end := START, start;
    ghost var body: seq<bv8> := [];
    NoMoves(START);
    assert tally + CountedIn(body) == tally;
    while b[end] != NUL && state != INVALID
      invariant start <= end <= z && body == b[start..end] && Clean(body) && state == Moves(START, body)
      invariant forall n :: 0 <= n < |body| ==> Moves(START, body[..n]) != INVALID
      invariant Holds(counts[..], tally + CountedIn(body))
      decreases z - end
    {
      var c := b[end];
      if c == COMMA {
        end := end + 1;
        k := Token(body, true, state);
        return;
      }
      GrowToken(b[..], start, end, body, c);
      assert tally + CountedIn(body) + Counted(state, Move(state, c)) == tally + CountedIn(body + [c]);
      state := Step(state, c, counts, tally + CountedIn(body));
      body := body + [c];
      end := end + 1;
    }
    k := Token(body, false, state);
  }

  lemma NoMoves(s: State)
    ensures Moves(s, []) == s && CountedIn([]) == multiset{}
  {
  }

  /* ---- All the tokens of a buffer ---- */

  ghost function Flat(ks: seq<Token>): seq<bv8> {
    if |ks| == 0 then [] else Flat(ks[..|ks| - 1]) + Text(ks[|ks| - 1])
  }

  /** ks are the first tokens of b, each read where the one before it ended. */
  ghost predicate Scanned(b: seq<bv8>, ks: seq<Token>) {
    |ks| == 0
    || (var i := |Flat(ks[..|ks| - 1])|;
        Scanned(b, ks[..|ks| - 1]) && i < |b| && b[i] != NUL && IsToken(b, i, ks[|ks| - 1]))
  }

  /** ks are all the tokens of b, up to the first NUL. */
  ghost predicate Tokens(b: seq<bv8>, ks: seq<Token>) {
    Scanned(b, ks) && |Flat(ks)| < |b| && b[|Flat(ks)|] == NUL
  }

  ghost function Verdicts(ks: seq<Token>): multiset<State> {
    if |ks| == 0 then multiset{} else Verdicts(ks[..|ks| - 1]) + multiset{ks[|ks| - 1].state}
  }

  ghost function Moved(ks: seq<Token>): multiset<State> {
    if |ks| == 0 then multiset{} else Moved(ks[..|ks| - 1]) + CountedIn(ks[|ks| - 1].body)
  }

  lemma TokenIsNotEmpty(b: seq<bv8>, i: nat, k: Token)
    requires IsToken(b, i, k) && i < |b| && b[i] != NUL
    ensures |Text(k)| > 0 && NUL !in Text(k)
  {
    if |k.body| == 0 { NoMoves(START); }
  }

  /** The tokens hold every byte before the first NUL exactly once, in order. */
  lemma {:induction false} TokensCover(b: seq<bv8>, ks: seq<Token>)
    requires Scanned(b, ks)
    ensures |Flat(ks)| <= |b| && Flat(ks) == b[..|Flat(ks)|] && NUL !in Flat(ks) && |Flat(ks)| >= |ks|
    decreases |ks|
  {
    if |ks| > 0 {
      var js, k := ks[..|ks| - 1], ks[|ks| - 1];
      TokensCover(b, js);
      TokenIsNotEmpty(b, |Flat(js)|, k);
      assert b[..|Flat(ks)|] == b[..|Flat(js)|] + b[|Flat(js)|..|Flat(ks)|];
    }
  }

  lemma TokenIsUnique(b: seq<bv8>, i: nat, k: Token, l: Token)
    requires IsToken(b, i, k) && IsToken(b, i, l)
    ensures k == l
  {
    hide Moves;
    NotShorter(b, i, k, l);
    NotShorter(b, i, l, k);
    TokenStops(b, i, k);
    TokenStops(b, i, l);
  }

  lemma NotShorter(b: seq<bv8>, i: nat, k: Token, l: Token)
    requires IsToken(b, i, k) && IsToken(b, i, l)
    ensures |k.body| >= |l.body|
  {
    TokenStops(b, i, k);
    TokenStops(b, i, l);
    hide Moves;
    if |k.body| < |l.body| { InsideBody(b, i, k.body, l); }
  }

  /** Where a token's body lies and what stopped it. */
  lemma TokenStops(b: seq<bv8>, i: nat, k: Token)
    requires IsToken(b, i, k)
    ensures i + |k.body| <= |b| && k.body == b[i..i + |k.body|]
    ensures k.state != INVALID ==> i + |k.body| < |b| && b[i + |k.body|] == if k.comma then COMMA else NUL
  {
    hide Moves;
    assert k.body == Text(k)[..|k.body|];
    if k.comma {
      assert Text(k)[|k.body|] == b[i..i + |Text(k)|][|k.body|];
    }
  }

  lemma InsideBody(b: seq<bv8>, i: nat, t: seq<bv8>, l: Token)
    requires IsToken(b, i, l) && |t| < |l.body| && t == b[i..i + |t|]
    ensures Moves(START, t) != INVALID && b[i + |t|] != NUL && b[i + |t|] != COMMA
  {
    TokenStops(b, i, l);
    hide Moves;
    assert l.body[..|t|] == t && l.body[|t|] == b[i + |t|];
  }

  lemma {:induction false} ScannedAgree(b: seq<bv8>, ks: seq<Token>, ls: seq<Token>)
    requires Scanned(b, ks) && Scanned(b, ls) && |ks| <= |ls|
    ensures ls[..|ks|] == ks && Scanned(b, ls[..|ks|])
    decreases |ls|
  {
    hide IsToken;
    if |ks| < |ls| {
      ScannedAgree(b, ks, ls[..|ls| - 1]);
      assert ls[..|ls| - 1][..|ks|] == ls[..|ks|];
    } else if |ks| > 0 {
      var n := |ks| - 1;
      ScannedAgree(b, ks[..n], ls[..n]);
      assert ls[..n] == ks[..n];
      TokenIsUnique(b, |Flat(ks[..n])|, ks[n], ls[n]);
      assert ls[..|ks|] == ls;
    }
  }

  /** A buffer has one list of tokens. */
  lemma TokensAreUnique(b: seq<bv8>, ks: seq<Token>, ls: seq<Token>)
    requires Tokens(b, ks) && Tokens(b, ls)
    ensures ks == ls
  {
    hide IsToken;
    var short, long := if |ks| <= |ls| then ks else ls, if |ks| <= |ls| then ls else ks;
    ScannedAgree(b, short, long);
    if |short| < |long| {
      ScannedAt(b, long, |short|);
    } else {
      assert long[..|short|] == long;
    }
  }

  lemma {:induction false} ScannedAt(b: seq<bv8>, ks: seq<Token>, n: nat)
    requires Scanned(b, ks) && n < |ks|
    ensures |Flat(ks[..n])| < |b| && b[|Flat(ks[..n])|] != NUL
    decreases |ks|
  {
    hide IsToken;
    if n < |ks| - 1 {
      ScannedAt(b, ks[..|ks| - 1], n);
      assert ks[..|ks| - 1][..n] == ks[..n];
    }
  }

  lemma ScannedMore(b: seq<bv8>, ks: seq<Token>, k: Token)
    requires Scanned(b, ks) && |Flat(ks)| < |b| && b[|Flat(ks)|] != NUL && IsToken(b, |Flat(ks)|, k)
    ensures Scanned(b, ks + [k]) && Flat(ks + [k]) == Flat(ks) + Text(k)
    ensures Verdicts(ks + [k]) == Verdicts(ks) + multiset{k.state}
    ensures Moved(ks + [k]) == Moved(ks) + CountedIn(k.body)
  {
    hide IsToken, CountedIn;
    assert (ks + [k])[..|ks|] == ks;
  }

  lemma NothingScanned(b: seq<bv8>)
    ensures Scanned(b, []) && Flat([]) == [] && Verdicts([]) == multiset{} && Moved([]) == multiset{}
  {
  }

  /** Runs the machine over the buffer, counting verdicts and moves. */
  method ScanAll(b: array<bv8>, track: array<Count>, final: array<Count>, ghost z: nat,
                 ghost moves: multiset<State>, ghost verdicts: multiset<State>)
    returns (ghost ks: seq<Token>)
    requires z < b.Length && b[z] == NUL && Holds(track[..], moves) && Holds(final[..], verdicts)
    requires track != final && Separate(b, track) && Separate(b, final)
    modifies track, final
    ensures Tokens(b[..], ks)
    ensures Holds(track[..], moves + Moved(ks)) && Holds(final[..], verdicts + Verdicts(ks))
  {
    hide Holds, Scanned, IsToken, Flat, Verdicts, Moved, CountedIn;
    var p := 0;
    ks := [];
    ghost var text := b[..];
    NothingScanned(text);
    assert moves + Moved(ks) == moves && verdicts + Verdicts(ks) == verdicts;
    while b[p] != NUL
      invariant p <= z && p == |Flat(ks)| && Scanned(text, ks) && text == b[..]
      invariant Holds(track[..], moves + Moved(ks)) && Holds(final[..], verdicts + Verdicts(ks))
      decreases z - p
    {
      var fstate;
      ghost var k;
      ghost var start := p;
      p, fstate, k := CoreStateTransition(b, p, track, z, moves + Moved(ks));
      CountUp(final, fstate, verdicts + Verdicts(ks));
      TokenIsNotEmpty(text, start, k);
      ScannedMore(text, ks, k);
      assert moves + Moved(ks) + CountedIn(k.body) == moves + Moved(ks + [k]);
      assert verdicts + Verdicts(ks) + multiset{k.state} == verdicts + Verdicts(ks + [k]);
      ks := ks + [k];
    }
  }
}
