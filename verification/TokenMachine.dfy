/** The number recogniser: a machine that reads one token at a time out of a NUL-terminated buffer. */
module TokenMachine {
  datatype State = START | INVALID | S1 | S2 | INT | FLOAT | EXPONENT | SCIENTIFIC

  const STATES := 8

  function Index(s: State): (i: nat)
    ensures i < STATES
  {
    match s
    case START => 0
    case INVALID => 1
    case S1 => 2
    case S2 => 3
    case INT => 4
    case FLOAT => 5
    case EXPONENT => 6
    case SCIENTIFIC => 7
  }

  /** The states in the order they are counted. */
  lemma StateOrder(s: State)
    ensures [START, INVALID, S1, S2, INT, FLOAT, EXPONENT, SCIENTIFIC][Index(s)] == s
  {
  }

  /* ---- Bytes ---- */

  const NUL: bv8 := 0
  const COMMA: bv8 := 0x2c

  predicate IsDigit(c: bv8) {
    0x30 <= c <= 0x39
  }

  predicate IsSign(c: bv8) {
    c == 0x2b || c == 0x2d
  }

  predicate IsDot(c: bv8) {
    c == 0x2e
  }

  predicate IsE(c: bv8) {
    c == 0x45 || c == 0x65
  }

  /** The characters of C that these are. */
  lemma Characters(c: bv8)
    ensures NUL == 0 && COMMA == ',' as int as bv8
    ensures IsDigit(c) <==> c - ('0' as int as bv8) < 10
    ensures IsSign(c) <==> c == '+' as int as bv8 || c == '-' as int as bv8
    ensures IsDot(c) <==> c == '.' as int as bv8
    ensures IsE(c) <==> c == 'E' as int as bv8 || c == 'e' as int as bv8
  {
  }

  lemma Apart(c: bv8)
    ensures IsDigit(c) ==> !IsSign(c) && !IsDot(c) && !IsE(c)
    ensures IsSign(c) ==> !IsDot(c) && !IsE(c)
    ensures IsDot(c) ==> !IsE(c)
    ensures IsDigit(c) || IsSign(c) || IsDot(c) || IsE(c) ==> c != NUL && c != COMMA
  {
  }

  /* ---- The machine ---- */

  function Move(s: State, c: bv8): State {
    match s
    case START =>
      if IsDigit(c) then INT else if IsSign(c) then S1 else if IsDot(c) then FLOAT else INVALID
    case S1 => if IsDigit(c) then INT else if IsDot(c) then FLOAT else INVALID
    case INT => if IsDot(c) then FLOAT else if IsDigit(c) then INT else INVALID
    case FLOAT => if IsE(c) then S2 else if IsDigit(c) then FLOAT else INVALID
    case S2 => if IsSign(c) then EXPONENT else INVALID
    case EXPONENT => if IsDigit(c) then SCIENTIFIC else INVALID
    case SCIENTIFIC => if IsDigit(c) then SCIENTIFIC else INVALID
    case INVALID => INVALID
  }

  /** The state after a text, from a given state. */
  function Moves(s: State, t: seq<bv8>): State {
    if |t| == 0 then s else Move(Moves(s, t[..|t| - 1]), t[|t| - 1])
  }

  lemma {:induction false} MovesConcat(s: State, t: seq<bv8>, u: seq<bv8>)
    ensures Moves(s, t + u) == Moves(Moves(s, t), u)
    decreases |u|
  {
    hide Move;
    if |u| == 0 {
      assert t + u == t;
    } else {
      assert (t + u)[..|t + u| - 1] == t + u[..|u| - 1];
      MovesConcat(s, t, u[..|u| - 1]);
    }
  }

  lemma OneMove(s: State, c: bv8)
    ensures Moves(s, [c]) == Move(s, c)
  {
    hide Move;
    assert [c][..0] == [];
  }

  /* ---- The languages ---- */

  ghost predicate Digits(t: seq<bv8>) {
    forall i :: 0 <= i < |t| ==> IsDigit(t[i])
  }

  ghost predicate Signed(t: seq<bv8>) {
    |t| == 0 || (|t| == 1 && IsSign(t[0]))
  }

  /** An optional sign and at least one digit. */
  ghost predicate IsInt(t: seq<bv8>) {
    exists s, d :: t == s + d && Signed(s) && Digits(d) && |d| > 0
  }

  /** An optional sign and digits, of which there may be none, around one point. */
  ghost predicate IsFloat(t: seq<bv8>) {
    exists s, a, p, b :: FloatOf(t, s, a, p, b)
  }

  ghost predicate FloatOf(t: seq<bv8>, s: seq<bv8>, a: seq<bv8>, p: bv8, b: seq<bv8>) {
    t == s + a + [p] + b && Signed(s) && Digits(a) && IsDot(p) && Digits(b)
  }

  /** A float and the letter E. */
  ghost predicate IsFloatE(t: seq<bv8>) {
    |t| > 0 && IsFloat(t[..|t| - 1]) && IsE(t[|t| - 1])
  }

  /** A float, the letter E and a sign. */
  ghost predicate IsFloatESign(t: seq<bv8>) {
    |t| > 0 && IsFloatE(t[..|t| - 1]) && IsSign(t[|t| - 1])
  }

  /** A float, the letter E, a sign, which is not optional, and at least one digit. */
  ghost predicate IsScientific(t: seq<bv8>) {
    exists h, d :: t == h + d && IsFloatESign(h) && Digits(d) && |d| > 0
  }

  ghost predicate IsNumber(t: seq<bv8>) {
    IsInt(t) || IsFloat(t) || IsScientific(t)
  }

  /** The language each state stands for. */
  ghost predicate Language(s: State, t: seq<bv8>) {
    match s
    case START => |t| == 0
    case S1 => |t| == 1 && IsSign(t[0])
    case INT => IsInt(t)
    case FLOAT => IsFloat(t)
    case S2 => IsFloatE(t)
    case EXPONENT => IsFloatESign(t)
    case SCIENTIFIC => IsScientific(t)
    case INVALID => !exists u :: IsNumber(t + u)
  }

  /* ---- Each state is reached only by its language ---- */

  lemma IntMore(t: seq<bv8>, c: bv8)
    requires IsInt(t) && IsDigit(c)
    ensures IsInt(t + [c])
  {
    hide IsDigit, IsSign;
    var s, d :| t == s + d && Signed(s) && Digits(d) && |d| > 0;
    assert t + [c] == s + (d + [c]);
  }

  lemma IntPoint(t: seq<bv8>, c: bv8)
    requires (Signed(t) || IsInt(t)) && IsDot(c)
    ensures IsFloat(t + [c])
  {
    hide IsDigit, IsSign, IsDot;
    if Signed(t) {
      assert t + [c] == t + [] + [c] + [];
      assert FloatOf(t + [c], t, [], c, []);
    } else {
      var s, d :| t == s + d && Signed(s) && Digits(d) && |d| > 0;
      assert t + [c] == s + d + [c] + [];
      assert FloatOf(t + [c], s, d, c, []);
    }
  }

  lemma FloatMore(t: seq<bv8>, c: bv8)
    requires IsFloat(t) && IsDigit(c)
    ensures IsFloat(t + [c])
  {
    hide IsDigit, IsSign, IsDot;
    var s, a, p, b :| FloatOf(t, s, a, p, b);
    assert t + [c] == s + a + [p] + (b + [c]);
    assert FloatOf(t + [c], s, a, p, b + [c]);
  }

  lemma ScientificMore(t: seq<bv8>, c: bv8)
    requires (IsFloatESign(t) || IsScientific(t)) && IsDigit(c)
    ensures IsScientific(t + [c])
  {
    hide IsDigit, IsFloatESign;
    if IsFloatESign(t) {
      assert Digits([c]);
    } else {
      var h, d :| t == h + d && IsFloatESign(h) && Digits(d) && |d| > 0;
      assert t + [c] == h + (d + [c]);
    }
  }

  lemma StateImpliesLanguageStep(s: State, t: seq<bv8>, c: bv8)
    requires s != INVALID && Language(s, t) && Move(s, c) != INVALID
    ensures Language(Move(s, c), t + [c])
  {
    hide IsDigit, IsSign, IsDot, IsE, IsInt, IsFloat, IsScientific;
    assert (t + [c])[..|t|] == t && (t + [c])[|t|] == c;
    match s
    case START => assert t + [c] == [c]; if IsDigit(c) { OneDigit([], c); } else if !IsSign(c) { IntPoint(t, c); }
    case S1 => if IsDigit(c) { OneDigit(t, c); } else { IntPoint(t, c); }
    case INT => if IsDot(c) { IntPoint(t, c); } else { IntMore(t, c); }
    case FLOAT => if !IsE(c) { FloatMore(t, c); }
    case S2 =>
    case EXPONENT => ScientificMore(t, c);
    case SCIENTIFIC => ScientificMore(t, c);
  }

  lemma OneDigit(t: seq<bv8>, c: bv8)
    requires Signed(t) && IsDigit(c)
    ensures IsInt(t + [c])
  {
    hide IsDigit, IsSign;
    assert Digits([c]);
  }

  lemma {:induction false} StateImpliesLanguage(t: seq<bv8>)
    requires Moves(START, t) != INVALID
    ensures Language(Moves(START, t), t)
    decreases |t|
  {
    if |t| > 0 {
      var u, c := t[..|t| - 1], t[|t| - 1];
      assert t == u + [c];
      StateImpliesLanguage(u);
      StateImpliesLanguageStep(Moves(START, u), u, c);
    }
  }

  /* ---- ... and by all of it ---- */

  lemma {:induction false} DigitsStay(s: State, d: seq<bv8>)
    requires (s.INT? || s.FLOAT? || s.SCIENTIFIC?) && Digits(d)
    ensures Moves(s, d) == s
    decreases |d|
  {
    if |d| > 0 {
      DigitsStay(s, d[..|d| - 1]);
      Apart(d[|d| - 1]);
    }
  }

  lemma DigitsEnter(s: State, d: seq<bv8>)
    requires (s.START? || s.S1? || s.EXPONENT?) && Digits(d) && |d| > 0
    ensures Moves(s, d) == if s.EXPONENT? then SCIENTIFIC else INT
  {
    assert d == [d[0]] + d[1..];
    OneMove(s, d[0]);
    MovesConcat(s, [d[0]], d[1..]);
    DigitsStay(Move(s, d[0]), d[1..]);
  }

  lemma SignedMoves(s: seq<bv8>)
    requires Signed(s)
    ensures Moves(START, s) == if |s| == 0 then START else S1
  {
    if |s| == 1 {
      assert s == [s[0]];
      OneMove(START, s[0]);
      Apart(s[0]);
    }
  }

  lemma IntMoves(t: seq<bv8>)
    requires IsInt(t)
    ensures Moves(START, t) == INT
  {
    hide Move, Moves, Digits;
    var s, d :| t == s + d && Signed(s) && Digits(d) && |d| > 0;
    MovesConcat(START, s, d);
    SignedMoves(s);
    DigitsEnter(Moves(START, s), d);
  }

  lemma FloatMoves(t: seq<bv8>)
    requires IsFloat(t)
    ensures Moves(START, t) == FLOAT
  {
    hide Moves, Digits, IsDigit, IsSign, IsDot, IsE;
    var s, a, p, b :| FloatOf(t, s, a, p, b);
    MovesConcat(START, s, a);
    MovesConcat(START, s + a, [p]);
    MovesConcat(START, s + a + [p], b);
    SignedMoves(s);
    if |a| > 0 {
      DigitsEnter(Moves(START, s), a);
    } else {
      assert s + a == s;
    }
    Apart(p);
    OneMove(Moves(START, s + a), p);
    DigitsStay(FLOAT, b);
  }

  lemma ScientificMoves(t: seq<bv8>)
    requires IsScientific(t)
    ensures Moves(START, t) == SCIENTIFIC
  {
    hide Move, Moves, Digits, IsFloatESign;
    var h, d :| t == h + d && IsFloatESign(h) && Digits(d) && |d| > 0;
    MovesConcat(START, h, d);
    FloatESignMoves(h);
    DigitsEnter(EXPONENT, d);
  }

  lemma FloatEMoves(t: seq<bv8>)
    requires IsFloatE(t)
    ensures Moves(START, t) == S2
  {
    hide IsFloat;
    FloatMoves(t[..|t| - 1]);
  }

  lemma FloatESignMoves(t: seq<bv8>)
    requires IsFloatESign(t)
    ensures Moves(START, t) == EXPONENT
  {
    hide IsFloatE;
    FloatEMoves(t[..|t| - 1]);
  }

  /** What completes an unfinished number. */
  function Completion(s: State): seq<bv8> {
    match s
    case START => [0x31]
    case S1 => [0x31]
    case S2 => [0x2b, 0x31]
    case EXPONENT => [0x31]
    case _ => []
  }

  lemma Completes(s: State)
    requires s != INVALID
    ensures Moves(s, Completion(s)) in {INT, FLOAT, SCIENTIFIC}
  {
    var t := Completion(s);
    if |t| == 1 {
      OneMove(s, t[0]);
      assert t == [t[0]];
    } else if |t| == 2 {
      assert t == [t[0]] + [t[1]];
      MovesConcat(s, [t[0]], [t[1]]);
      OneMove(s, t[0]);
      OneMove(EXPONENT, t[1]);
    }
  }

  lemma {:induction false} InvalidStays(u: seq<bv8>)
    ensures Moves(INVALID, u) == INVALID
    decreases |u|
  {
    if |u| > 0 { InvalidStays(u[..|u| - 1]); }
  }

  lemma NumberMoves(t: seq<bv8>)
    requires IsNumber(t)
    ensures Moves(START, t) in {INT, FLOAT, SCIENTIFIC}
  {
    hide Moves;
    if IsInt(t) { IntMoves(t); } else if IsFloat(t) { FloatMoves(t); } else { ScientificMoves(t); }
  }

  /** INVALID is the state of exactly the texts that no continuation turns into a number. */
  lemma InvalidLanguage(t: seq<bv8>)
    ensures Moves(START, t) == INVALID <==> Language(INVALID, t)
  {
    hide Moves, IsInt, IsFloat, IsScientific;
    var s := Moves(START, t);
    if s == INVALID {
      forall u ensures !IsNumber(t + u) {
        MovesConcat(START, t, u);
        InvalidStays(u);
        if IsNumber(t + u) { NumberMoves(t + u); }
      }
    } else {
      var u := Completion(s);
      MovesConcat(START, t, u);
      Completes(s);
      StateImpliesLanguage(t + u);
      assert IsNumber(t + u);
    }
  }

  /** The state after a text says exactly which language the text belongs to. */
  lemma StateIsLanguage(t: seq<bv8>, s: State)
    ensures Moves(START, t) == s <==> Language(s, t)
  {
    hide Moves, IsInt, IsFloat, IsScientific, IsFloatE, IsFloatESign, IsSign;
    if s == INVALID {
      InvalidLanguage(t);
    } else if Moves(START, t) == s {
      StateImpliesLanguage(t);
    } else if Language(s, t) {
      match s
      case START => assert t == []; SignedMoves(t);
      case S1 => SignedMoves(t);
      case INT => IntMoves(t);
      case FLOAT => FloatMoves(t);
      case S2 => FloatEMoves(t);
      case EXPONENT => FloatESignMoves(t);
      case SCIENTIFIC => ScientificMoves(t);
    }
  }
}
