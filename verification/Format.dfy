/** The printf engine: directives read from a format, arguments taken in turn, characters handed to an
    output callback that may or may not have room for them. */
module Format {
  import opened Printf

  /** A variable argument. On this 32-bit machine long and size_t are as wide as int. One that is missing
      or of the wrong kind reads as 0 or as nothing here; C leaves it undefined. */
  datatype Arg = Int(bits: Unsigned) | LongLong(wide: Wide) | Text(s: string)

  predicate CString(s: string) {
    |s| > 0 && s[|s| - 1] == NUL && forall i :: 0 <= i < |s| - 1 ==> s[i] != NUL
  }

  /** What a format and its arguments come to. */
  datatype Item = Literal(c: char) | Conversion(p: Param)

  function ItemText(item: Item): string {
    if item.Literal? then [item.c] else Field(item.p)
  }

  function Output(items: seq<Item>): string {
    if |items| == 0 then [] else ItemText(items[0]) + Output(items[1..])
  }

  lemma {:induction false} OutputConcat(a: seq<Item>, b: seq<Item>)
    ensures Output(a + b) == Output(a) + Output(b)
    decreases |a|
  {
    hide ItemText;
    if |a| == 0 {
      assert a + b == b;
    } else {
      assert (a + b)[1..] == a[1..] + b;
      OutputConcat(a[1..], b);
    }
  }

  /* ---- Directives ---- */

  datatype Flags = Flags(lz: bool, alt: bool, alignLeft: bool)

  /** A directive up to its conversion character, which stands at `at`. */
  datatype Directive = Directive(flags: Flags, width: Unsigned, lng: nat, at: nat)

  predicate IsDecimal(c: char) {
    '0' <= c <= '9'
  }

  function ParseFlags(fmt: string, i: nat, f: Flags): (r: (Flags, nat))
    requires CString(fmt) && i < |fmt|
    ensures i <= r.1 < |fmt|
    decreases |fmt| - i
  {
    if fmt[i] == '-' then ParseFlags(fmt, i + 1, f.(alignLeft := true))
    else if fmt[i] == '0' then ParseFlags(fmt, i + 1, f.(lz := true))
    else if fmt[i] == '#' then ParseFlags(fmt, i + 1, f.(alt := true))
    else (f, i)
  }

  /** The first character from i on that is no decimal digit. */
  function DecimalEnd(fmt: string, i: nat): (e: nat)
    requires CString(fmt) && i < |fmt|
    ensures i <= e < |fmt| && !IsDecimal(fmt[e])
    decreases |fmt| - i
  {
    if IsDecimal(fmt[i]) then DecimalEnd(fmt, i + 1) else i
  }

  function ParseWidth(fmt: string, i: nat): (r: (Unsigned, nat))
    requires CString(fmt) && i < |fmt|
    ensures i <= r.1 < |fmt|
  {
    if IsDecimal(fmt[i]) then (Read(fmt[i..ReadEnd(fmt, i, 10)], 10) % WORD, ReadEnd(fmt, i, 10)) else (0, i)
  }

  function ParseLength(fmt: string, i: nat): (r: (nat, nat))
    requires CString(fmt) && i < |fmt|
    ensures i <= r.1 < |fmt|
  {
    if fmt[i] == 'z' then (1, i + 1)
    else if fmt[i] == 'l' && fmt[i + 1] == 'l' then (2, i + 2)
    else if fmt[i] == 'l' then (1, i + 1)
    else (0, i)
  }

  /** The directive whose first character behind the percent sign stands at i. A precision is skipped
      and turns on zero padding. */
  function Parse(fmt: string, i: nat): (d: Directive)
    requires CString(fmt) && i < |fmt|
    ensures i <= d.at < |fmt|
  {
    var (flags, j) := ParseFlags(fmt, i, Flags(false, false, false));
    var (width, k) := ParseWidth(fmt, j);
    var dot := fmt[k] == '.';
    var l := if dot then DecimalEnd(fmt, k + 1) else k;
    var (lng, at) := ParseLength(fmt, l);
    Directive(if dot then flags.(lz := true) else flags, width, lng, at)
  }

  method ReadFlags(fmt: string, i: nat) returns (f: Flags, ch: char, src: nat)
    requires CString(fmt) && i < |fmt|
    ensures var r := ParseFlags(fmt, i, Flags(false, false, false));
            f == r.0 && src == r.1 + 1 && ch == fmt[r.1]
  {
    f, src := Flags(false, false, false), i;
    ch := fmt[src];
    src := src + 1;
    while ch == '-' || ch == '0' || ch == '#'
      invariant i < src <= |fmt| && ch == fmt[src - 1]
      invariant ParseFlags(fmt, src - 1, f) == ParseFlags(fmt, i, Flags(false, false, false))
      decreases |fmt| - src
    {
      if ch == '-' { f := f.(alignLeft := true); }
      else if ch == '0' { f := f.(lz := true); }
      else { f := f.(alt := true); }
      ch := fmt[src];
      src := src + 1;
    }
  }

  method SkipPrecision(fmt: string, i: nat) returns (ch: char, src: nat)
    requires CString(fmt) && i < |fmt|
    ensures src == DecimalEnd(fmt, i) + 1 && ch == fmt[src - 1]
  {
    ch, src := fmt[i], i + 1;
    while IsDecimal(ch)
      invariant i < src <= |fmt| && ch == fmt[src - 1] && DecimalEnd(fmt, src - 1) == DecimalEnd(fmt, i)
      decreases |fmt| - src
    {
      ch := fmt[src];
      src := src + 1;
    }
  }

  /** The length letters, of which the first stands at i, and the character behind them. */
  method ReadLength(fmt: string, i: nat) returns (lng: nat, ch: char, src: nat)
    requires CString(fmt) && i < |fmt|
    ensures (lng, src - 1) == ParseLength(fmt, i) && 0 < src <= |fmt| && ch == fmt[src - 1]
  {
    hide CString;
    lng, ch, src := 0, fmt[i], i + 1;
    if ch == 'z' {
      NotLast(fmt, i);
      lng, ch, src := 1, fmt[src], src + 1;
    } else if ch == 'l' {
      NotLast(fmt, i);
      lng, ch, src := 1, fmt[src], src + 1;
      if ch == 'l' {
        NotLast(fmt, src - 1);
        lng, ch, src := 2, fmt[src], src + 1;
      }
    }
  }

  lemma EndIsNotReadable(fmt: string)
    requires CString(fmt)
    ensures |fmt| > 0 && !Readable(fmt[|fmt| - 1], 10)
  {
  }

  method ReadDirective(fmt: string, i: nat) returns (d: Directive, ch: char, src: nat)
    requires CString(fmt) && i < |fmt|
    ensures d == Parse(fmt, i) && ch == fmt[d.at] && src == d.at + 1
  {
    hide ParseFlags, ParseLength, CString, Readable, Read;
    EndIsNotReadable(fmt);
    var flags;
    flags, ch, src := ReadFlags(fmt, i);
    var width: Unsigned := 0;
    if IsDecimal(ch) {
      ch, src, width := A2u(fmt, ch, src, 10, ReadEnd(fmt, src - 1, 10));
    }
    if ch == '.' {
      NotLast(fmt, src - 1);
      flags := flags.(lz := true);
      ch, src := SkipPrecision(fmt, src);
    }
    var lng;
    lng, ch, src := ReadLength(fmt, src - 1);
    d := Directive(flags, width, lng, src - 1);
  }

  lemma NotLast(fmt: string, i: nat)
    requires CString(fmt) && i < |fmt| && fmt[i] != NUL
    ensures i + 1 < |fmt|
  {
  }

  /* ---- Conversions ---- */

  /** The parameter block fields a directive does not reset: the base and the case of the last
      conversion that set them, and before any whatever memory held. */
  datatype Carry = Carry(base: nat, uc: bool)

  function IntOf(args: seq<Arg>): Unsigned {
    if |args| > 0 && args[0].Int? then args[0].bits else 0
  }

  function WideOf(args: seq<Arg>): Wide {
    if |args| > 0 && args[0].LongLong? then args[0].wide else 0
  }

  function TextOf(args: seq<Arg>): string {
    if |args| > 0 && args[0].Text? then args[0].s else []
  }

  function NextArgs(args: seq<Arg>): seq<Arg> {
    if |args| > 0 then args[1..] else []
  }

  /** The number an argument holds, and its sign and size as two's complement of its width. */
  function Number(lng: nat, args: seq<Arg>): Wide {
    if lng == 2 then WideOf(args) else IntOf(args)
  }

  function Limit(lng: nat): nat {
    if lng == 2 then LIMIT else WORD
  }

  predicate IsNegative(lng: nat, n: Wide) {
    n >= Limit(lng) / 2
  }

  function Magnitude(lng: nat, n: Wide): Wide
    requires n < Limit(lng)
  {
    if IsNegative(lng, n) then Limit(lng) - n else n
  }

  function NumberItem(d: Directive, alt: bool, sign: char, n: Wide, base: Base, uc: bool): Item {
    Conversion(Param(d.flags.lz, alt, uc, d.flags.alignLeft, d.width, sign, base, Chars(Numeral(n, base), uc)))
  }

  datatype Step = Step(items: seq<Item>, args: seq<Arg>, carry: Carry)

  /** What a directive prints, and what it leaves for the next one. */
  function Convert(d: Directive, ch: char, args: seq<Arg>, carry: Carry): Step {
    var alt := d.flags.alt;
    if ch == 'u' then
      Step([NumberItem(d, alt, NUL, Number(d.lng, args), 10, carry.uc)], NextArgs(args), carry.(base := 10))
    else if ch == 'd' || ch == 'i' then
      var n := Number(d.lng, args);
      Step([NumberItem(d, alt, if IsNegative(d.lng, n) then '-' else NUL, Magnitude(d.lng, n), 10, carry.uc)],
           NextArgs(args), carry.(base := 10))
    else if ch == 'p' then
      Step([NumberItem(d, true, NUL, IntOf(args), 16, false)], NextArgs(args), Carry(16, false))
    else if ch == 'x' || ch == 'X' then
      Step([NumberItem(d, alt, NUL, Number(d.lng, args), 16, ch == 'X')], NextArgs(args), Carry(16, ch == 'X'))
    else if ch == 'o' then
      Step([NumberItem(d, alt, NUL, IntOf(args), 8, carry.uc)], NextArgs(args), carry.(base := 8))
    else if ch == 'c' then
      Step([Literal((IntOf(args) % 256) as char)], NextArgs(args), carry)
    else if ch == 's' then
      Step([Conversion(Param(d.flags.lz, alt, carry.uc, d.flags.alignLeft, d.width, NUL, carry.base, TextOf(args)))],
           NextArgs(args), carry)
    else if ch == '%' then Step([Literal('%')], args, carry)
    else Step([], args, carry)
  }

  /** Everything a format prints from place i on. A directive cut short by the end ends it. */
  function Items(fmt: string, i: nat, args: seq<Arg>, carry: Carry): seq<Item>
    requires CString(fmt) && i < |fmt|
    decreases |fmt| - i
  {
    if fmt[i] == NUL then []
    else if fmt[i] != '%' then [Literal(fmt[i])] + Items(fmt, i + 1, args, carry)
    else
      var d := Parse(fmt, i + 1);
      if fmt[d.at] == NUL then []
      else
        var step := Convert(d, fmt[d.at], args, carry);
        step.items + Items(fmt, d.at + 1, step.args, step.carry)
  }

  /** What a whole format prints. */
  function Formatted(fmt: string, args: seq<Arg>, carry: Carry): string
    requires CString(fmt)
  {
    Output(Items(fmt, 0, args, carry))
  }

  /** A number's text, by way of the conversion buffer. */
  method NumberText(n: Wide, base: Base, uc: bool) returns (text: string)
    ensures text == Chars(Numeral(n, base), uc)
  {
    hide Numeral, Value;
    var bf := new char[23];
    ghost var ds := Ulli2a(n, base, uc, bf);
    NumeralIsValue(n, base);
    NumeralIsUnique(ds, Numeral(n, base), base);
    var k := Length(bf, Chars(ds, uc));
    text := bf[..k];
  }

  lemma RoomFor(out: Sink, all: string, next: string)
    requires out.log + next <= all && (!out.bounded ==> |all| < out.capacity)
    ensures out.Room(|next|)
  {
  }

  /** The digits of a number conversion, with the block they are printed from. */
  method NumberParam(d: Directive, alt: bool, sign: char, n: Wide, base: Base, uc: bool) returns (p: Param)
    ensures Conversion(p) == NumberItem(d, alt, sign, n, base, uc)
  {
    hide Chars, Numeral;
    var text := NumberText(n, base, uc);
    p := Param(d.flags.lz, alt, uc, d.flags.alignLeft, d.width, sign, base, text);
  }

  lemma OneOutput(item: Item)
    ensures Output([item]) == ItemText(item)
  {
    hide ItemText;
    assert [item][1..] == [];
    assert Output([item][1..]) == [];
  }

  /** The block for a conversion that has one. */
  method ParamOf(d: Directive, ch: char, args: seq<Arg>, carry: Carry) returns (p: Param)
    requires ch in "udipxXos"
    ensures Convert(d, ch, args, carry).items == [Conversion(p)]
  {
    hide NumberItem, Magnitude, IsNegative;
    if ch == 'u' {
      p := NumberParam(d, d.flags.alt, NUL, Number(d.lng, args), 10, carry.uc);
    } else if ch == 'd' || ch == 'i' {
      var n := Number(d.lng, args);
      p := NumberParam(d, d.flags.alt, if IsNegative(d.lng, n) then '-' else NUL, Magnitude(d.lng, n), 10, carry.uc);
    } else if ch == 'p' {
      p := NumberParam(d, true, NUL, IntOf(args), 16, false);
    } else if ch == 'x' || ch == 'X' {
      p := NumberParam(d, d.flags.alt, NUL, Number(d.lng, args), 16, ch == 'X');
    } else if ch == 'o' {
      p := NumberParam(d, d.flags.alt, NUL, IntOf(args), 8, carry.uc);
    } else {
      p := Param(d.flags.lz, d.flags.alt, carry.uc, d.flags.alignLeft, d.width, NUL, carry.base, TextOf(args));
    }
  }

  lemma ConvertsToOne(d: Directive, ch: char, args: seq<Arg>, carry: Carry)
    ensures ch !in "udipxXos" ==>
              Convert(d, ch, args, carry).items
              == if ch == 'c' then [Literal((IntOf(args) % 256) as char)] else if ch == '%' then [Literal('%')] else []
  {
    hide NumberItem, Magnitude, IsNegative;
  }

  method PutDirective(out: Sink, d: Directive, ch: char, args: seq<Arg>, carry: Carry)
    requires out.Valid() && out.Room(|Output(Convert(d, ch, args, carry).items)|)
    modifies out`numChars, out`log, out.dest
    ensures out.Valid() && out.log == old(out.log) + Output(Convert(d, ch, args, carry).items)
  {
    hide Convert, out.Valid, out.Room, Field;
    ConvertsToOne(d, ch, args, carry);
    if ch in "udipxXos" {
      var p := ParamOf(d, ch, args, carry);
      OneOutput(Conversion(p));
      Putchw(out, p);
    } else if ch == 'c' {
      OneOutput(Literal((IntOf(args) % 256) as char));
      out.Put((IntOf(args) % 256) as char);
    } else if ch == '%' {
      OneOutput(Literal('%'));
      out.Put('%');
    }
  }

  /** tfp_format. */
  method TfpFormat(out: Sink, fmt: string, args0: seq<Arg>, carry0: Carry)
    requires CString(fmt)
    requires out.Valid() && out.log == [] && out.Room(|Formatted(fmt, args0, carry0)|)
    modifies out`numChars, out`log, out.dest
    ensures out.Valid() && out.log == Formatted(fmt, args0, carry0)
  {
    hide out.Valid, out.Room, Parse, Convert, Output;
    var args, carry, i := args0, carry0, 0;
    ghost var all := Formatted(fmt, args0, carry0);
    RoomMeans(out, |all|);
    NoOutput();
    while fmt[i] != NUL
      invariant 0 <= i < |fmt| && out.Valid()
      invariant out.log + Output(Items(fmt, i, args, carry)) == all
      decreases |fmt| - i
    {
      if fmt[i] != '%' {
        OutputConcat([Literal(fmt[i])], Items(fmt, i + 1, args, carry));
        OneOutput(Literal(fmt[i]));
        RoomFor(out, all, [fmt[i]]);
        out.Put(fmt[i]);
        i := i + 1;
      } else {
        var d, ch;
        d, ch, i := ReadDirective(fmt, i + 1);
        if ch == NUL { return; }
        ghost var step := Convert(d, ch, args, carry);
        OutputConcat(step.items, Items(fmt, i, step.args, step.carry));
        RoomFor(out, all, Output(step.items));
        PutDirective(out, d, ch, args, carry);
        args, carry := Convert(d, ch, args, carry).args, Convert(d, ch, args, carry).carry;
      }
    }
  }

  lemma LiteralText(c: char)
    ensures ItemText(Literal(c)) == [c]
  {
  }

  lemma NoOutput()
    ensures Output([]) == []
  {
  }

  /* ---- What formats print ---- */

  /** Text without a percent sign prints as it is, in front of whatever the rest prints. */
  lemma {:induction false} TextPrintsItself(fmt: string, i: nat, n: nat, args: seq<Arg>, carry: Carry)
    requires CString(fmt) && i <= n < |fmt| && forall k :: i <= k < n ==> fmt[k] != '%'
    ensures Output(Items(fmt, i, args, carry)) == fmt[i..n] + Output(Items(fmt, n, args, carry))
    decreases n - i
  {
    hide Parse, Convert, ItemText, Output;
    if i < n {
      TextPrintsItself(fmt, i + 1, n, args, carry);
      OutputConcat([Literal(fmt[i])], Items(fmt, i + 1, args, carry));
      OneOutput(Literal(fmt[i]));
      LiteralText(fmt[i]);
      assert fmt[i..n] == [fmt[i]] + fmt[i + 1..n];
    }
  }

  /** Every directive prints its own items and then what the rest of the format prints. */
  lemma DirectivePrints(fmt: string, i: nat, args: seq<Arg>, carry: Carry)
    requires CString(fmt) && i < |fmt| && fmt[i] == '%'
    ensures var d := Parse(fmt, i + 1);
            Output(Items(fmt, i, args, carry)) ==
            if fmt[d.at] == NUL then []
            else
              var step := Convert(d, fmt[d.at], args, carry);
              Output(step.items) + Output(Items(fmt, d.at + 1, step.args, step.carry))
  {
    var d := Parse(fmt, i + 1);
    if fmt[d.at] != NUL {
      var step := Convert(d, fmt[d.at], args, carry);
      OutputConcat(step.items, Items(fmt, d.at + 1, step.args, step.carry));
    }
  }

  function TwosComplement(v: int): Unsigned
    requires -0x8000_0000 <= v < 0x8000_0000
  {
    if v < 0 then v + WORD else v
  }

  function Decimal(v: int): string
    requires -0x8000_0000 <= v < 0x8000_0000
  {
    (if v < 0 then "-" else "") + Chars(Numeral(if v < 0 then -v else v, 10), false)
  }

  lemma NoCase(n: nat, base: Base, uc: bool)
    requires base <= 10
    ensures Chars(Numeral(n, base), uc) == Chars(Numeral(n, base), false)
  {
    hide Numeral;
  }

  const PLAIN := Directive(Flags(false, false, false), 0, 0, 1)

  /** A format of one directive without flags, width or length. */
  lemma OneDirective(fmt: string, ch: char, args: seq<Arg>, carry: Carry)
    requires fmt == ['%', ch, NUL] && ch in "duxXo"
    ensures CString(fmt) && Formatted(fmt, args, carry) == Output(Convert(PLAIN, ch, args, carry).items)
  {
    hide Convert, Output;
    assert Parse(fmt, 1) == PLAIN;
    var step := Convert(PLAIN, ch, args, carry);
    DirectivePrints(fmt, 0, args, carry);
    assert Items(fmt, 2, step.args, step.carry) == [];
    NoOutput();
  }

  lemma PlainField(sign: char, n: Wide, base: Base, uc: bool)
    ensures Output([NumberItem(PLAIN, false, sign, n, base, uc)])
            == (if sign != NUL then [sign] else []) + Chars(Numeral(n, base), uc)
  {
    hide Numeral, Chars, Output;
    OneOutput(NumberItem(PLAIN, false, sign, n, base, uc));
  }

  /** "%d" prints a signed number in decimal, the most negative one included. */
  lemma SignedPrints(v: int, more: seq<Arg>, carry: Carry)
    requires -0x8000_0000 <= v < 0x8000_0000
    ensures CString("%d\0") && Formatted("%d\0", [Int(TwosComplement(v))] + more, carry) == Decimal(v)
  {
    hide Formatted, Numeral, Chars, Output, CString;
    var args := [Int(TwosComplement(v))] + more;
    var n: nat := if v < 0 then -v else v;
    OneDirective("%d\0", 'd', args, carry);
    PlainField(if v < 0 then '-' else NUL, n, 10, carry.uc);
    NoCase(n, 10, carry.uc);
  }

  /** "%u", "%o", "%x" and "%X" print the unsigned number as its canonical numeral in their base. */
  lemma UnsignedPrints(n: Unsigned, more: seq<Arg>, carry: Carry)
    ensures CString("%u\0") && Formatted("%u\0", [Int(n)] + more, carry) == Chars(Numeral(n, 10), false)
    ensures CString("%o\0") && Formatted("%o\0", [Int(n)] + more, carry) == Chars(Numeral(n, 8), false)
    ensures CString("%x\0") && Formatted("%x\0", [Int(n)] + more, carry) == Chars(Numeral(n, 16), false)
    ensures CString("%X\0") && Formatted("%X\0", [Int(n)] + more, carry) == Chars(Numeral(n, 16), true)
  {
    hide Formatted, Numeral, Chars, Output, CString;
    var args := [Int(n)] + more;
    OneDirective("%u\0", 'u', args, carry);
    PlainField(NUL, n, 10, carry.uc);
    NoCase(n, 10, carry.uc);
    OneDirective("%o\0", 'o', args, carry);
    PlainField(NUL, n, 8, carry.uc);
    NoCase(n, 8, carry.uc);
    OneDirective("%x\0", 'x', args, carry);
    PlainField(NUL, n, 16, false);
    OneDirective("%X\0", 'X', args, carry);
    PlainField(NUL, n, 16, true);
  }

  /* ---- The prefix that is not reset ---- */

  /** A string in its field. */
  function PaddedText(p: Param): string {
    var n := SignedWidth(p) - |p.text|;
    if p.lz then Repeat('0', n) + p.text
    else if p.alignLeft then p.text + Repeat(' ', n)
    else Repeat(' ', n) + p.text
  }

  /** The block "%s" prints from. */
  function StringParam(d: Directive, args: seq<Arg>, carry: Carry): Param {
    Param(d.flags.lz, d.flags.alt, carry.uc, d.flags.alignLeft, d.width, NUL, carry.base, TextOf(args))
  }

  /** A text moved up by a prefix without blanks is not the text followed by blanks. */
  lemma {:induction false} NoBlanks(pre: string, text: string, blanks: string, k: nat)
    requires pre + text == text + blanks && k < |text| && |pre| > 0 && ' ' !in pre
    ensures text[k] != ' '
    decreases k
  {
    assert text[k] == (pre + text)[k] == (text + blanks)[k];
    if k >= |pre| { NoBlanks(pre, text, blanks, k - |pre|); }
  }

  lemma MovedText(pre: string, text: string, blanks: string)
    requires |pre| == |blanks| > 0 && ' ' !in pre && forall c :: c in blanks ==> c == ' '
    ensures pre + text != text + blanks
  {
    var last := |text| + |pre| - 1;
    assert blanks[|blanks| - 1] in blanks;
    assert (text + blanks)[last] == ' ';
    assert |text| > 0 ==> (pre + text)[last] == text[|text| - 1];
    assert |text| == 0 ==> (pre + text)[last] == pre[|pre| - 1];
    if pre + text == text + blanks {
      if |text| > 0 { NoBlanks(pre, text, blanks, |text| - 1); }
    }
  }

  lemma LeftText(pre: string, text: string, n: int)
    requires |pre| > 0 && ' ' !in pre
    ensures pre + text + Repeat(' ', n - |pre|) != text + Repeat(' ', n)
  {
    var x, y := pre + text + Repeat(' ', n - |pre|), text + Repeat(' ', n);
    if n >= |pre| {
      var m := |text| + |pre|;
      assert x[..m] == pre + text;
      assert y[..m] == text + Repeat(' ', |pre|);
      MovedText(pre, text, Repeat(' ', |pre|));
    }
  }

  lemma RightText(pre: string, text: string, n: int)
    requires |pre| > 0 && pre[0] != ' '
    ensures Repeat(' ', n - |pre|) + pre + text != Repeat(' ', n) + text
  {
    var x, y := Repeat(' ', n - |pre|) + pre + text, Repeat(' ', n) + text;
    if n >= |pre| { assert x[n - |pre|] == pre[0] && y[n - |pre|] == ' '; }
  }

  lemma ZeroText(pre: string, text: string, n: int)
    requires pre == "0" || pre == "0x" || pre == "0X"
    ensures pre + Repeat('0', n - |pre|) + text == Repeat('0', n) + text <==> pre == "0" && n > 0
  {
    var x, y := pre + Repeat('0', n - |pre|) + text, Repeat('0', n) + text;
    if pre == "0" && n > 0 {
      assert Repeat('0', n) == "0" + Repeat('0', n - 1);
    } else if |pre| == 2 && n >= 2 {
      assert x[1] == pre[1] && y[1] == '0';
    }
  }

  /** The base and case of the last number printed live on, so "%#s" may print its prefix in front of a
      string. It prints the string in its field and nothing else if and only if the form is not alternate
      or that base has no prefix, or the prefix is the 0 of an octal number and passes for padding. */
  lemma StringPrintsPlainly(d: Directive, args: seq<Arg>, carry: Carry)
    ensures var p := StringParam(d, args, carry);
            Convert(d, 's', args, carry).items == [Conversion(p)]
            && (Field(p) == PaddedText(p)
                <==> !d.flags.alt || (carry.base != 8 && carry.base != 16)
                     || (carry.base == 8 && d.flags.lz && SignedWidth(p) > |p.text|))
  {
    var p := StringParam(d, args, carry);
    hide Repeat, SignedWidth;
    var pre, n := Prefix(p), SignedWidth(p) - |p.text|;
    if pre == [] {
      PlainParts(p);
    } else if p.lz {
      ZeroText(pre, p.text, n);
      ZeroParts(p);
    } else if p.alignLeft {
      LeftText(pre, p.text, n);
      LeftParts(p);
    } else {
      RightText(pre, p.text, n);
      RightParts(p);
    }
  }

  lemma PlainParts(p: Param)
    requires p.sign == NUL && Prefix(p) == []
    ensures Field(p) == PaddedText(p)
  {
    hide Repeat, SignedWidth;
  }

  lemma ZeroParts(p: Param)
    requires p.sign == NUL && p.lz
    ensures Field(p) == Prefix(p) + Repeat('0', SignedWidth(p) - |p.text| - |Prefix(p)|) + p.text
  {
    hide Repeat, SignedWidth, Prefix;
  }

  lemma LeftParts(p: Param)
    requires p.sign == NUL && !p.lz && p.alignLeft
    ensures Field(p) == Prefix(p) + p.text + Repeat(' ', SignedWidth(p) - |p.text| - |Prefix(p)|)
  {
    hide Repeat, SignedWidth, Prefix;
  }

  lemma RightParts(p: Param)
    requires p.sign == NUL && !p.lz && !p.alignLeft
    ensures Field(p) == Repeat(' ', SignedWidth(p) - |p.text| - |Prefix(p)|) + Prefix(p) + p.text
  {
    hide Repeat, SignedWidth, Prefix;
  }

  /* ---- Directives as they are written ---- */

  function RenderFlags(f: Flags): string {
    (if f.alignLeft then "-" else "") + (if f.lz then "0" else "") + (if f.alt then "#" else "")
  }

  function RenderWidth(w: Unsigned): string {
    if w == 0 then "" else Chars(Numeral(w, 10), false)
  }

  function RenderLength(lng: nat): string {
    if lng == 0 then "" else if lng == 1 then "l" else "ll"
  }

  /** A directive behind its percent sign. */
  function Render(f: Flags, w: Unsigned, lng: nat, ch: char): string {
    RenderFlags(f) + RenderWidth(w) + RenderLength(lng) + [ch]
  }

  predicate IsConversion(ch: char) {
    ch in "udipxXocs%"
  }

  /** r stands in fmt at i. */
  predicate StandsAt(fmt: string, i: nat, r: string) {
    i + |r| <= |fmt| && fmt[i..i + |r|] == r
  }

  lemma StandsParts(fmt: string, i: nat, r: string, t: string)
    requires StandsAt(fmt, i, r + t)
    ensures StandsAt(fmt, i, r) && StandsAt(fmt, i + |r|, t)
  {
    var m, n := i + |r|, i + |r + t|;
    assert r == (r + t)[..|r|] && t == (r + t)[|r|..];
    assert fmt[i..m] == fmt[i..n][..|r|] && fmt[m..n] == fmt[i..n][|r|..];
  }

  predicate IsFlag(ch: char) {
    ch == '-' || ch == '0' || ch == '#'
  }

  lemma OneFlag(fmt: string, i: nat, ch: char, f: Flags)
    requires CString(fmt) && i + 1 < |fmt| && fmt[i] == ch && IsFlag(ch)
    ensures ParseFlags(fmt, i, f)
            == ParseFlags(fmt, i + 1, if ch == '-' then f.(alignLeft := true) else if ch == '0' then f.(lz := true)
                                      else f.(alt := true))
  {
  }

  lemma FlagsParse(fmt: string, i: nat, f: Flags)
    requires CString(fmt) && StandsAt(fmt, i, RenderFlags(f)) && i + |RenderFlags(f)| < |fmt|
    requires !IsFlag(fmt[i + |RenderFlags(f)|])
    ensures ParseFlags(fmt, i, Flags(false, false, false)) == (f, i + |RenderFlags(f)|)
  {
    hide CString, ParseFlags;
    var r := RenderFlags(f);
    assert forall k :: 0 <= k < |r| ==> fmt[i + k] == r[k];
    var none := Flags(false, false, false);
    var a := none.(alignLeft := f.alignLeft);
    var b := a.(lz := f.lz);
    var j := i + if f.alignLeft then 1 else 0;
    var k := j + if f.lz then 1 else 0;
    if f.alignLeft { OneFlag(fmt, i, '-', none); }
    if f.lz { OneFlag(fmt, j, '0', a); }
    if f.alt { OneFlag(fmt, k, '#', b); }
    FlagsEnd(fmt, i + |r|, f);
  }

  lemma FlagsEnd(fmt: string, i: nat, f: Flags)
    requires CString(fmt) && i < |fmt| && !IsFlag(fmt[i])
    ensures ParseFlags(fmt, i, f) == (f, i)
  {
  }

  lemma ReadEndIs(s: string, i: nat, e: nat, base: nat)
    requires i <= e < |s| && !Readable(s[|s| - 1], base) && !Readable(s[e], base)
    requires forall j :: i <= j < e ==> Readable(s[j], base)
    ensures ReadEnd(s, i, base) == e
  {
    hide Readable;
  }

  lemma SomeWidth(fmt: string, i: nat, w: Unsigned)
    requires CString(fmt) && w > 0 && StandsAt(fmt, i, Chars(Numeral(w, 10), false))
    requires i + |Numeral(w, 10)| < |fmt| && !Readable(fmt[i + |Numeral(w, 10)|], 10)
    ensures ParseWidth(fmt, i) == (w, i + |Numeral(w, 10)|) && !IsFlag(fmt[i])
  {
    hide Numeral, Readable, Read, CString, Chars, IsFlag, IsDecimal, A2d;
    var r := Chars(Numeral(w, 10), false);
    NumeralIsValue(w, 10);
    ReadIsValue(Numeral(w, 10), 10, false);
    EndIsNotReadable(fmt);
    FirstDigit(w);
    forall j | i <= j < i + |r| ensures Readable(fmt[j], 10) {
      assert fmt[j] == fmt[i..i + |r|][j - i];
    }
    assert fmt[i] == r[0];
    ReadEndIs(fmt, i, i + |r|, 10);
  }

  lemma WidthParse(fmt: string, i: nat, w: Unsigned)
    requires CString(fmt) && StandsAt(fmt, i, RenderWidth(w)) && i + |RenderWidth(w)| < |fmt|
    requires !Readable(fmt[i + |RenderWidth(w)|], 10)
    ensures ParseWidth(fmt, i) == (w, i + |RenderWidth(w)|)
    ensures w > 0 ==> !IsFlag(fmt[i])
  {
    hide Numeral, Readable, Read, CString, Chars, IsFlag, IsDecimal, StandsAt;
    if w > 0 {
      SomeWidth(fmt, i, w);
    } else {
      NotDecimal(fmt[i]);
      EndIsNotReadable(fmt);
    }
  }

  lemma NotDecimal(ch: char)
    requires !Readable(ch, 10)
    ensures !IsDecimal(ch)
  {
  }

  lemma FirstDigit(w: nat)
    requires w > 0
    ensures var c := Chars(Numeral(w, 10), false)[0]; IsDecimal(c) && !IsFlag(c)
  {
    hide Numeral;
    NumeralIsValue(w, 10);
    OneDigit(Numeral(w, 10), 10);
  }

  lemma AfterWidth(ch: char)
    requires IsConversion(ch) || ch == 'l'
    ensures !Readable(ch, 10) && !IsFlag(ch) && ch != '.' && ch != 'z' && ch != NUL && !IsDecimal(ch)
    ensures IsConversion(ch) ==> ch != 'l'
  {
  }

  lemma LengthParse(fmt: string, i: nat, lng: nat, ch: char)
    requires CString(fmt) && lng <= 2 && IsConversion(ch)
    requires StandsAt(fmt, i, RenderLength(lng) + [ch]) && i + lng + 1 < |fmt|
    ensures ParseLength(fmt, i) == (lng, i + lng) && fmt[i + lng] == ch
    ensures fmt[i] == ch || fmt[i] == 'l'
  {
    AfterWidth(ch);
    hide IsConversion, CString;
    var r := RenderLength(lng) + [ch];
    assert forall k :: 0 <= k < |r| ==> fmt[i + k] == r[k];
    assert fmt[i] == r[0];
    if lng >= 1 { assert fmt[i + 1] == r[1]; }
    if lng == 2 { assert fmt[i + 2] == r[2]; }
  }

  lemma RenderParts(fmt: string, i: nat, f: Flags, w: Unsigned, lng: nat, ch: char)
    requires lng <= 2 && StandsAt(fmt, i, Render(f, w, lng, ch))
    ensures var a, b := |RenderFlags(f)|, |RenderWidth(w)|;
            StandsAt(fmt, i, RenderFlags(f)) && StandsAt(fmt, i + a, RenderWidth(w))
            && StandsAt(fmt, i + a + b, RenderLength(lng) + [ch]) && |Render(f, w, lng, ch)| == a + b + lng + 1
  {
    hide RenderFlags, RenderWidth, RenderLength, StandsAt;
    var a, b, c := RenderFlags(f), RenderWidth(w), RenderLength(lng) + [ch];
    assert Render(f, w, lng, ch) == a + (b + c);
    StandsParts(fmt, i, a, b + c);
    StandsParts(fmt, i + |a|, b, c);
    LengthSize(lng);
  }

  /** Every directive parses back to the flags, width, length and conversion it was written from. */
  lemma ParsesBack(fmt: string, i: nat, f: Flags, w: Unsigned, lng: nat, ch: char)
    requires CString(fmt) && lng <= 2 && IsConversion(ch)
    requires StandsAt(fmt, i, Render(f, w, lng, ch)) && i + |Render(f, w, lng, ch)| < |fmt|
    ensures var d := Parse(fmt, i);
            d == Directive(f, w, lng, i + |Render(f, w, lng, ch)| - 1) && fmt[d.at] == ch
  {
    hide CString, Render, RenderFlags, RenderWidth, RenderLength, StandsAt, ParseFlags, ParseWidth, ParseLength,
      IsConversion, IsFlag, Readable, IsDecimal;
    RenderParts(fmt, i, f, w, lng, ch);
    var j := i + |RenderFlags(f)|;
    var k := j + |RenderWidth(w)|;
    LengthParse(fmt, k, lng, ch);
    AfterWidth(fmt[k]);
    WidthParse(fmt, j, w);
    WidthSize(w);
    FlagsParse(fmt, i, f);
  }

  /** A directive with a precision, behind its percent sign. */
  function RenderPrecise(f: Flags, w: Unsigned, digits: seq<nat>, lng: nat, ch: char): string
    requires forall k :: 0 <= k < |digits| ==> digits[k] < 10
  {
    RenderFlags(f) + (RenderWidth(w) + ("." + (Chars(digits, false) + (RenderLength(lng) + [ch]))))
  }

  lemma DecimalsEnd(fmt: string, i: nat, digits: seq<nat>)
    requires CString(fmt) && i + |digits| < |fmt| && forall k :: 0 <= k < |digits| ==> digits[k] < 10
    requires StandsAt(fmt, i, Chars(digits, false)) && !IsDecimal(fmt[i + |digits|])
    ensures DecimalEnd(fmt, i) == i + |digits|
    decreases |digits|
  {
    if |digits| > 0 {
      assert fmt[i] == fmt[i..i + |digits|][0];
      assert fmt[i + 1..i + |digits|] == fmt[i..i + |digits|][1..];
      assert Chars(digits, false)[1..] == Chars(digits[1..], false);
      DecimalsEnd(fmt, i + 1, digits[1..]);
    }
  }

  lemma PreciseParts(fmt: string, i: nat, f: Flags, w: Unsigned, digits: seq<nat>, lng: nat, ch: char)
    requires lng <= 2 && forall k :: 0 <= k < |digits| ==> digits[k] < 10
    requires StandsAt(fmt, i, RenderPrecise(f, w, digits, lng, ch))
    ensures var j := i + |RenderFlags(f)|;
            var k := j + |RenderWidth(w)|;
            StandsAt(fmt, i, RenderFlags(f)) && StandsAt(fmt, j, RenderWidth(w)) && k < |fmt| && fmt[k] == '.'
            && StandsAt(fmt, k + 1, Chars(digits, false))
            && StandsAt(fmt, k + 1 + |digits|, RenderLength(lng) + [ch])
            && i + |RenderPrecise(f, w, digits, lng, ch)| == k + 1 + |digits| + lng + 1
  {
    hide RenderFlags, RenderWidth, RenderLength, StandsAt, Chars;
    var c, l := Chars(digits, false), RenderLength(lng) + [ch];
    var j := i + |RenderFlags(f)|;
    var k := j + |RenderWidth(w)|;
    StandsParts(fmt, i, RenderFlags(f), RenderWidth(w) + ("." + (c + l)));
    StandsParts(fmt, j, RenderWidth(w), "." + (c + l));
    StandsParts(fmt, k, ".", c + l);
    StandsParts(fmt, k + 1, c, l);
    DotStands(fmt, k);
    LengthSize(lng);
  }

  /** A precision of any digits is read over, and all it does is turn zero padding on. */
  lemma PrecisionPads(fmt: string, i: nat, f: Flags, w: Unsigned, digits: seq<nat>, lng: nat, ch: char)
    requires CString(fmt) && lng <= 2 && IsConversion(ch) && forall k :: 0 <= k < |digits| ==> digits[k] < 10
    requires StandsAt(fmt, i, RenderPrecise(f, w, digits, lng, ch))
    requires i + |RenderPrecise(f, w, digits, lng, ch)| < |fmt|
    ensures var d := Parse(fmt, i);
            d == Directive(f.(lz := true), w, lng, i + |RenderPrecise(f, w, digits, lng, ch)| - 1) && fmt[d.at] == ch
  {
    hide CString, RenderFlags, RenderWidth, RenderLength, StandsAt, ParseFlags, ParseWidth, ParseLength, IsConversion,
      IsFlag, Readable, IsDecimal, Chars, DecimalEnd, RenderPrecise;
    PreciseParts(fmt, i, f, w, digits, lng, ch);
    var j := i + |RenderFlags(f)|;
    var k := j + |RenderWidth(w)|;
    DotIsNothing();
    LengthParse(fmt, k + 1 + |digits|, lng, ch);
    AfterWidth(fmt[k + 1 + |digits|]);
    DecimalsEnd(fmt, k + 1, digits);
    WidthParse(fmt, j, w);
    WidthSize(w);
    FlagsParse(fmt, i, f);
  }

  lemma DotStands(fmt: string, k: nat)
    requires StandsAt(fmt, k, ".")
    ensures fmt[k] == '.'
  {
    assert fmt[k..k + 1][0] == fmt[k];
  }

  lemma DotIsNothing()
    ensures !Readable('.', 10) && !IsFlag('.')
  {
  }

  lemma LengthSize(lng: nat)
    requires lng <= 2
    ensures |RenderLength(lng)| == lng
  {
  }

  lemma WidthSize(w: Unsigned)
    ensures w == 0 <==> |RenderWidth(w)| == 0
  {
    hide Numeral;
  }

  /** The format of one directive. */
  function Single(f: Flags, w: Unsigned, lng: nat, ch: char): string {
    ['%'] + Render(f, w, lng, ch) + [NUL]
  }

  lemma NoNulInside(f: Flags, w: Unsigned, lng: nat, ch: char)
    requires lng <= 2 && IsConversion(ch)
    ensures NUL !in Render(f, w, lng, ch) && |Render(f, w, lng, ch)| > 0
  {
    hide Numeral;
    if w > 0 { NumeralIsValue(w, 10); }
  }

  /** A format of one directive, however it is written, prints that directive's field and nothing else. */
  lemma RenderedPrints(f: Flags, w: Unsigned, lng: nat, ch: char, args: seq<Arg>, carry: Carry)
    requires lng <= 2 && IsConversion(ch)
    ensures CString(Single(f, w, lng, ch))
    ensures Formatted(Single(f, w, lng, ch), args, carry)
            == Output(Convert(Directive(f, w, lng, |Render(f, w, lng, ch)|), ch, args, carry).items)
  {
    hide Convert, Output, Render, Parse, IsConversion;
    var fmt, r := Single(f, w, lng, ch), Render(f, w, lng, ch);
    NoNulInside(f, w, lng, ch);
    assert forall i :: 1 <= i <= |r| ==> fmt[i] == r[i - 1];
    assert fmt[1..1 + |r|] == r;
    ParsesBack(fmt, 1, f, w, lng, ch);
    ConversionIsNotNul(ch);
    var d := Directive(f, w, lng, |r|);
    var step := Convert(d, ch, args, carry);
    DirectivePrints(fmt, 0, args, carry);
    assert Items(fmt, |r| + 1, step.args, step.carry) == [];
    NoOutput();
  }

  lemma ConversionIsNotNul(ch: char)
    requires IsConversion(ch)
    ensures ch != NUL
  {
  }

  /** What a number conversion prints is as long as its width or its sign, prefix and digits. */
  lemma NumberLength(d: Directive, alt: bool, sign: char, n: Wide, base: Base, uc: bool)
    ensures var p := NumberItem(d, alt, sign, n, base, uc).p;
            |Output([NumberItem(d, alt, sign, n, base, uc)])|
            == Max(if d.width < 0x8000_0000 then d.width else 0, |Sign(p)| + |Prefix(p)| + |Numeral(n, base)|)
  {
    hide Numeral, Output;
    OneOutput(NumberItem(d, alt, sign, n, base, uc));
    FieldLength(NumberItem(d, alt, sign, n, base, uc).p);
  }

  /* ---- Into a buffer ---- */

  /** tfp_vsprintf: everything, and a NUL. */
  method Vsprintf(str: array<char>, fmt: string, args: seq<Arg>, carry: Carry) returns (n: nat)
    requires CString(fmt) && |Formatted(fmt, args, carry)| < str.Length
    modifies str
    ensures n == |Formatted(fmt, args, carry)| && str[..n] == Formatted(fmt, args, carry) && str[n] == NUL
    ensures str[n + 1..] == old(str[..])[n + 1..]
  {
    hide Formatted;
    var out := new Sink(str, false, str.Length);
    TfpFormat(out, fmt, args, carry);
    n := out.numChars;
    str[n] := NUL;
  }

  /** tfp_vsnprintf: the prefix of the same that fits, a NUL in any case, nothing behind it, and the
      length the whole would have had. */
  method Vsnprintf(str: array<char>, size: nat, fmt: string, args: seq<Arg>, carry: Carry) returns (n: nat)
    requires CString(fmt) && size <= str.Length
    modifies str
    ensures size == 0 ==> n == 0 && str[..] == old(str[..])
    ensures size > 0 ==>
              n == |Formatted(fmt, args, carry)|
              && var m := if n < size - 1 then n else size - 1;
                 str[..m] == Formatted(fmt, args, carry)[..m] && str[m] == NUL && str[m + 1..] == old(str[..])[m + 1..]
  {
    hide Formatted;
    if size < 1 { return 0; }
    var out := new Sink(str, true, size - 1);
    TfpFormat(out, fmt, args, carry);
    n := out.numChars;
    if n < size - 1 { str[n] := NUL; } else { str[size - 1] := NUL; }
  }
}
