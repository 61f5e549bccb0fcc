/** Formats of any number of directives: each prints its own argument, in turn. */
module Directives {
  import opened Printf
  import opened Format

  /** Text without a percent sign and a directive behind it. */
  datatype Segment = Segment(text: string, flags: Flags, width: Unsigned, lng: nat, ch: char)

  predicate Valid(s: Segment) {
    '%' !in s.text && NUL !in s.text && s.lng <= 2 && IsConversion(s.ch)
  }

  /** A format as it is written, ended by its own text and a NUL. */
  function Written(segments: seq<Segment>, tail: string): string {
    if |segments| == 0 then tail + [NUL]
    else
      var s := segments[0];
      s.text + ("%" + Render(s.flags, s.width, s.lng, s.ch)) + Written(segments[1..], tail)
  }

  /** Every directive but %% takes one argument. */
  function Taken(s: Segment): nat {
    if s.ch == '%' then 0 else 1
  }

  function AllTaken(segments: seq<Segment>): nat {
    if |segments| == 0 then 0 else Taken(segments[0]) + AllTaken(segments[1..])
  }

  /** The base and case a directive leaves for the next. */
  function Leaves(ch: char, carry: Carry): Carry {
    match ch
    case 'u' => carry.(base := 10)
    case 'd' => carry.(base := 10)
    case 'i' => carry.(base := 10)
    case 'o' => carry.(base := 8)
    case 'x' => Carry(16, false)
    case 'p' => Carry(16, false)
    case 'X' => Carry(16, true)
    case _ => carry
  }

  function Field(s: Segment, args: seq<Arg>, carry: Carry): string {
    Output(Convert(Directive(s.flags, s.width, s.lng, 0), s.ch, args, carry).items)
  }

  /** What the segments print. */
  function Shown(segments: seq<Segment>, args: seq<Arg>, carry: Carry): string
    requires AllTaken(segments) <= |args|
  {
    if |segments| == 0 then []
    else
      var s := segments[0];
      s.text + Field(s, args, carry) + Shown(segments[1..], args[Taken(s)..], Leaves(s.ch, carry))
  }

  lemma OneStep(d: Directive, ch: char, args: seq<Arg>, carry: Carry)
    requires IsConversion(ch) && (ch != '%' ==> |args| > 0)
    ensures var step := Convert(d, ch, args, carry);
            step.args == (if ch == '%' then args else args[1..]) && step.carry == Leaves(ch, carry)
            && step.items == Convert(d.(at := 0), ch, args, carry).items
  {
    hide Magnitude, IsNegative, Numeral, Chars;
  }

  lemma {:induction false} WrittenIsString(segments: seq<Segment>, tail: string)
    requires NUL !in tail && forall k :: 0 <= k < |segments| ==> Valid(segments[k])
    ensures CString(Written(segments, tail))
    decreases |segments|
  {
    hide Render, IsConversion;
    if |segments| > 0 {
      var s := segments[0];
      NoNulInside(s.flags, s.width, s.lng, s.ch);
      WrittenIsString(segments[1..], tail);
    }
  }

  lemma {:induction false} PrintsFrom(fmt: string, i: nat, segments: seq<Segment>, tail: string, args: seq<Arg>,
      carry: Carry)
    requires CString(fmt) && i < |fmt| && fmt[i..] == Written(segments, tail)
    requires '%' !in tail && NUL !in tail && forall k :: 0 <= k < |segments| ==> Valid(segments[k])
    requires AllTaken(segments) <= |args|
    ensures Output(Items(fmt, i, args, carry)) == Shown(segments, args, carry) + tail
    decreases |segments|
  {
    hide Convert, Output, Render, Parse, IsConversion, CString, Items, Written, StandsAt;
    if |segments| == 0 {
      TailPrints(fmt, i, tail, args, carry);
    } else {
      var s := segments[0];
      var r := Render(s.flags, s.width, s.lng, s.ch);
      var m := i + |s.text|;
      Placed(fmt, i, segments, tail);
      TextPrintsItself(fmt, i, m, args, carry);
      ParsesBack(fmt, m + 1, s.flags, s.width, s.lng, s.ch);
      DirectivePrints(fmt, m, args, carry);
      ConversionIsNotNul(s.ch);
      OneStep(Directive(s.flags, s.width, s.lng, m + |r|), s.ch, args, carry);
      PrintsFrom(fmt, m + 1 + |r|, segments[1..], tail, args[Taken(s)..], Leaves(s.ch, carry));
    }
  }

  /** Where the parts of the first segment stand. */
  lemma Placed(fmt: string, i: nat, segments: seq<Segment>, tail: string)
    requires |segments| > 0 && i < |fmt| && fmt[i..] == Written(segments, tail) && Valid(segments[0])
    ensures var s := segments[0];
            var r, m := Render(s.flags, s.width, s.lng, s.ch), i + |s.text|;
            |r| > 0 && m + 1 + |r| < |fmt| && fmt[i..m] == s.text && fmt[m] == '%' && StandsAt(fmt, m + 1, r)
            && fmt[m + 1 + |r|..] == Written(segments[1..], tail) && forall k :: i <= k < m ==> fmt[k] != '%'
  {
    hide Render, IsConversion;
    var s := segments[0];
    var r, m := Render(s.flags, s.width, s.lng, s.ch), i + |s.text|;
    NoNulInside(s.flags, s.width, s.lng, s.ch);
    var w, t := fmt[i..], Written(segments[1..], tail);
    EndsInNul(segments[1..], tail);
    Parts(w, s.text, r, t);
    Behind(fmt, i, 0, |s.text|);
    Behind(fmt, i, |s.text| + 1, |s.text| + 1 + |r|);
    assert fmt[m] == w[|s.text|];
    assert fmt[m + 1 + |r|..] == w[|s.text| + 1 + |r|..];
    forall k | i <= k < m ensures fmt[k] != '%' {
      assert fmt[k] == s.text[k - i];
    }
  }

  lemma Parts(w: string, text: string, r: string, t: string)
    requires w == text + ("%" + r) + t
    ensures |w| == |text| + 1 + |r| + |t| && w[..|text|] == text && w[|text|] == '%'
    ensures w[|text| + 1..|text| + 1 + |r|] == r && w[|text| + 1 + |r|..] == t
  {
  }

  lemma Behind(fmt: string, i: nat, a: nat, b: nat)
    requires a <= b && i + b <= |fmt|
    ensures fmt[i + a..i + b] == fmt[i..][a..b]
  {
  }

  lemma EndsInNul(segments: seq<Segment>, tail: string)
    ensures |Written(segments, tail)| > 0
  {
  }

  lemma TailPrints(fmt: string, i: nat, tail: string, args: seq<Arg>, carry: Carry)
    requires CString(fmt) && i < |fmt| && fmt[i..] == Written([], tail) && '%' !in tail
    ensures Output(Items(fmt, i, args, carry)) == tail
  {
    hide Convert, Output, Parse;
    var n := i + |tail|;
    assert fmt[i..] == tail + [NUL];
    assert forall k :: i <= k < n ==> fmt[k] == fmt[i..][k - i];
    assert fmt[n] == fmt[i..][|tail|] && fmt[i..n] == tail;
    TextPrintsItself(fmt, i, n, args, carry);
    NoOutput();
  }

  /** A format of any number of directives with text between them prints the text and, for each directive,
      the field of its own argument: the arguments are taken in turn, one each. */
  lemma WrittenPrints(segments: seq<Segment>, tail: string, args: seq<Arg>, carry: Carry)
    requires '%' !in tail && NUL !in tail && forall k :: 0 <= k < |segments| ==> Valid(segments[k])
    requires AllTaken(segments) <= |args|
    ensures CString(Written(segments, tail))
    ensures Formatted(Written(segments, tail), args, carry) == Shown(segments, args, carry) + tail
  {
    hide Convert, Output, Render, Parse, IsConversion, CString, Items, Written, Shown;
    WrittenIsString(segments, tail);
    EndsInNul(segments, tail);
    var fmt := Written(segments, tail);
    assert fmt[0..] == fmt;
    PrintsFrom(fmt, 0, segments, tail, args, carry);
  }

  /* ---- What each conversion takes from its argument ---- */

  /** The field's flags and width are the directive's. */
  predicate Shaped(p: Param, s: Segment) {
    p.lz == s.flags.lz && p.alignLeft == s.flags.alignLeft && p.width == s.width
  }

  /** %d and %i print the number an argument of their size stands for: a minus if it is negative, and the
      decimal numeral of its magnitude. */
  lemma SignedShown(s: Segment, v: int, args: seq<Arg>, carry: Carry)
    requires (s.ch == 'd' || s.ch == 'i') && |args| > 0
    requires if s.lng == 2 then -LIMIT / 2 <= v < LIMIT / 2 && args[0] == LongLong(if v < 0 then v + LIMIT else v)
             else -0x8000_0000 <= v < 0x8000_0000 && args[0] == Int(TwosComplement(v))
    ensures exists p ::
              Field(s, args, carry) == Printf.Field(p) && Shaped(p, s) && p.alt == s.flags.alt && p.base == 10
              && Sign(p) == (if v < 0 then "-" else "")
              && p.text == Chars(Numeral(if v < 0 then -v else v, 10), carry.uc)
  {
    hide Numeral, Chars, Output;
    var n: nat := if v < 0 then -v else v;
    var p := Param(s.flags.lz, s.flags.alt, carry.uc, s.flags.alignLeft, s.width, if v < 0 then '-' else NUL, 10,
                   Chars(Numeral(n, 10), carry.uc));
    OneOutput(Conversion(p));
    assert Convert(Directive(s.flags, s.width, s.lng, 0), s.ch, args, carry).items == [Conversion(p)];
  }

  /** %u, %x and %X print the unsigned number their argument holds, %o and %p that of an int. */
  lemma UnsignedShown(s: Segment, n: Wide, args: seq<Arg>, carry: Carry)
    requires s.ch in "uxXop" && |args| > 0
    requires if s.lng == 2 && s.ch in "uxX" then args[0] == LongLong(n) else n < WORD && args[0] == Int(n)
    ensures exists p ::
              Field(s, args, carry) == Printf.Field(p) && Shaped(p, s) && Sign(p) == ""
              && p.alt == (s.flags.alt || s.ch == 'p')
              && p.base == (if s.ch == 'u' then 10 else if s.ch == 'o' then 8 else 16)
              && p.uc == (if s.ch == 'u' || s.ch == 'o' then carry.uc else s.ch == 'X')
              && p.text == Chars(Numeral(n, p.base), p.uc)
  {
    hide Numeral, Chars, Output;
    var base: Base := if s.ch == 'u' then 10 else if s.ch == 'o' then 8 else 16;
    var uc := if s.ch == 'u' || s.ch == 'o' then carry.uc else s.ch == 'X';
    var p := Param(s.flags.lz, s.flags.alt || s.ch == 'p', uc, s.flags.alignLeft, s.width, NUL, base,
                   Chars(Numeral(n, base), uc));
    OneOutput(Conversion(p));
    assert Convert(Directive(s.flags, s.width, s.lng, 0), s.ch, args, carry).items == [Conversion(p)];
  }

  /** %c prints one character and %% a percent sign, whatever the flags and width; %s prints its string. */
  lemma CharactersShown(s: Segment, args: seq<Arg>, carry: Carry)
    ensures s.ch == '%' ==> Field(s, args, carry) == "%"
    ensures s.ch == 'c' && |args| > 0 && args[0].Int? ==> Field(s, args, carry) == [(args[0].bits % 256) as char]
    ensures s.ch == 's' && |args| > 0 && args[0].Text? ==>
              exists p :: Field(s, args, carry) == Printf.Field(p) && Shaped(p, s) && Sign(p) == ""
                          && p.text == args[0].s
  {
    hide Numeral, Chars, Output;
    var d := Directive(s.flags, s.width, s.lng, 0);
    if s.ch == '%' {
      OneOutput(Literal('%'));
    } else if s.ch == 'c' && |args| > 0 && args[0].Int? {
      OneOutput(Literal((args[0].bits % 256) as char));
    } else if s.ch == 's' && |args| > 0 && args[0].Text? {
      var p := Param(s.flags.lz, s.flags.alt, carry.uc, s.flags.alignLeft, s.width, NUL, carry.base, args[0].s);
      OneOutput(Conversion(p));
      assert Convert(d, 's', args, carry).items == [Conversion(p)];
    }
  }
}
