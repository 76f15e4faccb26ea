/**
 printf: the one-pass state machine with its jump, against a recursive reading of the
 format.
 */
module Printf {
  import opened Bytes
  import opened Terminal
  import opened Numbers

  const PERCENT: byte := 0x25
  const LETTER_C: byte := 0x63
  const LETTER_H: byte := 0x68
  const LETTER_L: byte := 0x6C
  const LETTER_S: byte := 0x73
  const NUMERIC: set<byte> := {0x64, 0x69, 0x75, 0x58, 0x78, 0x70, 0x6F}

  /** One variable argument, with the two readings printf can make of it: its low byte
      as a character, and the string it points to. */
  datatype Slot = Slot(value: byte, text: seq<byte>)

  // ---------- the grammar ----------

  datatype Directive = Literal(c: byte) | Conversion(c: byte)

  /** What is left of a conversion after its length modifier: h, hh, l, ll or none. */
  function AfterLength(s: seq<byte>): (r: seq<byte>)
    ensures |r| <= |s|
  {
    if |s| >= 2 && s[0] in {LETTER_H, LETTER_L} && s[1] == s[0] then s[2..]
    else if |s| >= 1 && s[0] in {LETTER_H, LETTER_L} then s[1..]
    else s
  }

  /** A format is literal characters and conversions; an unfinished one at the end is
      nothing. */
  function Parse(fmt: seq<byte>): seq<Directive>
    decreases |fmt|, 0
  {
    if fmt == [] then []
    else if fmt[0] != PERCENT then [Literal(fmt[0])] + Parse(fmt[1..])
    else ParseSpec(AfterLength(fmt[1..]))
  }

  function ParseSpec(s: seq<byte>): seq<Directive>
    decreases |s|, 1
  {
    if s == [] then [] else [Conversion(s[0])] + Parse(s[1..])
  }

  predicate TakesSlot(d: Directive) {
    d.Conversion? && d.c in {LETTER_C, LETTER_S}
  }

  /** How many arguments a format uses. */
  function Slots(ds: seq<Directive>): nat {
    if ds == [] then 0 else (if TakesSlot(ds[0]) then 1 else 0) + Slots(ds[1..])
  }

  /** A number conversion prints the address of the argument, as a signed number: decimal
      digits when positive, nothing when negative. */
  function AddressText(address: dword): seq<byte> {
    if address < 0x8000_0000 then Text(address, 10, LOWER_A) else []
  }

  /** What one directive prints, given the arguments not yet used. */
  function Shown(d: Directive, slots: seq<Slot>, address: dword): seq<byte>
    requires TakesSlot(d) ==> slots != []
  {
    match d
    case Literal(c) => [c]
    case Conversion(c) =>
      if c == LETTER_C then [slots[0].value]
      else if c == LETTER_S then slots[0].text
      else if c == PERCENT then [PERCENT]
      else if c in NUMERIC then AddressText(address)
      else []
  }

  /** What a format prints; the arguments lie four bytes apart from address on. */
  function Render(ds: seq<Directive>, slots: seq<Slot>, address: nat): seq<byte>
    requires Slots(ds) <= |slots| && address + 4 * |slots| < 0x1_0000_0000
  {
    if ds == [] then []
    else
      var used := if TakesSlot(ds[0]) then 1 else 0;
      Shown(ds[0], slots, address) + Render(ds[1..], slots[used..], address + 4 * used)
  }

  // ---------- the state machine ----------

  datatype State = Normal | Length | LengthShort | LengthLong | Spec

  /** What the machine still has to do, from the middle of a format. */
  ghost function Rest(state: State, s: seq<byte>): seq<Directive> {
    match state
    case Normal => Parse(s)
    case Length => ParseSpec(AfterLength(s))
    case LengthShort => ParseSpec(if |s| > 0 && s[0] == LETTER_H then s[1..] else s)
    case LengthLong => ParseSpec(if |s| > 0 && s[0] == LETTER_L then s[1..] else s)
    case Spec => ParseSpec(s)
  }

  /** The states in which the next character is the conversion itself. */
  predicate Converts(state: State, c: byte) {
    match state
    case Normal => false
    case Length => c !in {LETTER_H, LETTER_L}
    case LengthShort => c != LETTER_H
    case LengthLong => c != LETTER_L
    case Spec => true
  }

  function NextState(state: State, c: byte): State
    requires !Converts(state, c)
  {
    match state
    case Normal => if c == PERCENT then Length else Normal
    case Length => if c == LETTER_H then LengthShort else LengthLong
    case _ => Spec
  }

  /** One character of the format, as the machine and as the grammar take it. */
  lemma OneCharacter(state: State, s: seq<byte>)
    requires s != []
    ensures
      if Converts(state, s[0]) then Rest(state, s) == [Conversion(s[0])] + Rest(Normal, s[1..])
      else if state.Normal? && s[0] != PERCENT then Rest(state, s) == [Literal(s[0])] + Rest(Normal, s[1..])
      else Rest(state, s) == Rest(NextState(state, s[0]), s[1..])
  {
    if state.Length? && |s| >= 2 {
      assert s[1..][1..] == s[2..];
    }
  }

  lemma {:induction false} RenderStep(d: Directive, ds: seq<Directive>, slots: seq<Slot>, address: nat)
    requires Slots([d] + ds) <= |slots| && address + 4 * |slots| < 0x1_0000_0000
    ensures TakesSlot(d) ==> slots != []
    ensures var used := if TakesSlot(d) then 1 else 0;
      && Slots([d] + ds) == used + Slots(ds)
      && Render([d] + ds, slots, address) == Shown(d, slots, address) + Render(ds, slots[used..], address + 4 * used)
  {
    assert ([d] + ds)[1..] == ds;
  }

  /** What the loop keeps: the output so far and what is still to come make up the whole,
      and so do the arguments. */
  ghost predicate Progress(
    ds: seq<Directive>, slots: seq<Slot>, address: nat, rest: seq<Directive>, used: nat, out: seq<byte>)
    requires Slots(ds) <= |slots| && address + 4 * |slots| < 0x1_0000_0000
  {
    && used + Slots(rest) == Slots(ds)
    && Render(ds, slots, address) == out + Render(rest, slots[used..], address + 4 * used)
  }

  lemma {:induction false} ProgressStarts(fmt: seq<byte>, slots: seq<Slot>, address: nat)
    requires Slots(Parse(fmt)) <= |slots| && address + 4 * |slots| < 0x1_0000_0000
    ensures Progress(Parse(fmt), slots, address, Rest(Normal, fmt[0..]), 0, [])
  {
    assert fmt[0..] == fmt && slots[0..] == slots;
    var all := Render(Parse(fmt), slots, address);
    assert [] + all == all;
  }

  lemma {:induction false} ProgressEnds(
      ds: seq<Directive>, slots: seq<Slot>, address: nat, state: State, used: nat, out: seq<byte>)
    requires Slots(ds) <= |slots| && address + 4 * |slots| < 0x1_0000_0000
    requires Progress(ds, slots, address, Rest(state, []), used, out)
    ensures used == Slots(ds) && Render(ds, slots, address) == out
  {
    assert Rest(state, []) == [];
    assert out + [] == out;
  }

  lemma {:induction false} ProgressShows(
    ds: seq<Directive>, slots: seq<Slot>, address: nat, d: Directive, rest: seq<Directive>, used: nat, out: seq<byte>)
    requires Slots(ds) <= |slots| && address + 4 * |slots| < 0x1_0000_0000
    requires Progress(ds, slots, address, [d] + rest, used, out)
    ensures used <= |slots| && (TakesSlot(d) ==> used < |slots|)
    ensures var next := used + if TakesSlot(d) then 1 else 0;
      Progress(ds, slots, address, rest, next, out + Shown(d, slots[used..], address + 4 * used))
  {
    hide Render, Slots, Shown;
    var one := if TakesSlot(d) then 1 else 0;
    RenderStep(d, rest, slots[used..], address + 4 * used);
    SkipSlots(slots, used, one);
    Regroup(out, Shown(d, slots[used..], address + 4 * used),
      Render(rest, slots[used + one..], address + 4 * (used + one)));
  }

  lemma SkipSlots(slots: seq<Slot>, used: nat, one: nat)
    requires used + one <= |slots|
    ensures slots[used..][one..] == slots[used + one..]
  {
  }

  lemma Regroup(a: seq<byte>, b: seq<byte>, c: seq<byte>)
    ensures a + (b + c) == a + b + c
  {
  }

  /** The conversion part of the loop body: prints and advances past the argument. */
  method Convert(screen: Screen, c: byte, slots: seq<Slot>, used: nat, address: nat) returns (next: nat)
    requires screen.Valid() && used <= |slots|
    requires 0 < address && address + 4 * |slots| < 0x1_0000_0000
    requires TakesSlot(Conversion(c)) ==> used < |slots|
    modifies screen, screen.buffer
    ensures screen.Valid() && screen.color == old(screen.color) && screen.base == old(screen.base)
    ensures screen.log == old(screen.log)
      + Colored(Shown(Conversion(c), slots[used..], address + 4 * used), screen.color)
    ensures next == used + if TakesSlot(Conversion(c)) then 1 else 0
  {
    hide Layout, Window;
    next := used;
    if c == LETTER_C {
      screen.PutChar(slots[used].value);
      next := used + 1;
    } else if c == LETTER_S {
      screen.Write(slots[used].text);
      next := used + 1;
    } else if c == PERCENT {
      screen.PutChar(PERCENT);
    } else if c in NUMERIC {
      PrintNumber(screen, address + 4 * used);
    } else {
      assert Colored([], screen.color) == [];
    }
  }

  /** Formats the address it is given, not the number stored there. */
  method PrintNumber(screen: Screen, argp: dword)
    requires screen.Valid() && argp > 0
    modifies screen, screen.buffer
    ensures screen.Valid() && screen.color == old(screen.color) && screen.base == old(screen.base)
    ensures screen.log == old(screen.log) + Colored(AddressText(argp), screen.color)
  {
    hide Layout, Window, Text;
    var buffer := new byte[12];
    DecimalFits(argp);
    ghost var garbage := buffer[..];
    IntToStr(if argp < 0x8000_0000 then argp else argp - 0x1_0000_0000, buffer);
    NumeralEnds(AddressText(argp), garbage, argp);
    screen.Write(CString(buffer[..]));
  }

  lemma NumeralEnds(text: seq<byte>, garbage: seq<byte>, argp: dword)
    requires text == AddressText(argp) && |text| < |garbage|
    ensures var b := Overwrite(garbage, 0, text + [0]); HasString(b) && CString(b) == text
  {
    var b := Overwrite(garbage, 0, text + [0]);
    NoZeroByte(argp, 10, LOWER_A);
    assert b == text + [0] + garbage[|text| + 1..];
    CStringOfTerminated(text, garbage[|text| + 1..]);
  }

  lemma {:induction false} NoZeroByte(n: nat, base: nat, ten: byte)
    requires 2 <= base <= 16 && ten in {LOWER_A, UPPER_A}
    ensures 0 !in Text(n, base, ten)
    decreases n
  {
    TextStep(n, base, ten);
    if n < base {
      DigitRoundTrip(n, ten);
    } else {
      DigitRoundTrip(n % base, ten);
      NoZeroByte(n / base, base, ten);
    }
  }

  /** printf on a screen. Returns how many arguments it has gone through. */
  method Print(screen: Screen, fmt: seq<byte>, slots: seq<Slot>, address: nat) returns (used: nat)
    requires screen.Valid()
    requires Slots(Parse(fmt)) <= |slots| && 0 < address && address + 4 * |slots| < 0x1_0000_0000
    modifies screen, screen.buffer
    ensures screen.Valid() && screen.color == old(screen.color) && screen.base == old(screen.base)
    ensures screen.log == old(screen.log) + Colored(Render(Parse(fmt), slots, address), screen.color)
    ensures used == Slots(Parse(fmt))
  {
    hide Rest, Render, Slots, Parse, Shown, Layout, Window, Colored, Progress;
    ghost var ds, log, out: seq<byte> := Parse(fmt), screen.log, [];
    var state, i := Normal, 0;
    used := 0;
    ProgressStarts(fmt, slots, address);
    NothingColored(log, screen.color);
    while i < |fmt|
      invariant 0 <= i <= |fmt|
      invariant screen.Valid() && screen.color == old(screen.color) && screen.base == old(screen.base)
      invariant screen.log == log + Colored(out, screen.color)
      invariant Progress(ds, slots, address, Rest(state, fmt[i..]), used, out)
    {
      var c := fmt[i];
      OneCharacter(state, fmt[i..]);
      assert fmt[i..][1..] == fmt[i + 1..];
      var convert := false;
      match state {
        case Normal =>
          if c == PERCENT {
            state := Length;
          } else {
            ProgressShows(ds, slots, address, Literal(c), Rest(Normal, fmt[i + 1..]), used, out);
            LiteralShown(c, slots[used..], address + 4 * used, screen.color);
            ColoredAppends(log, out, [c], screen.color);
            screen.PutChar(c);
            out := out + [c];
          }
        case Length =>
          if c == LETTER_H {
            state := LengthShort;
          } else if c == LETTER_L {
            state := LengthLong;
          } else {
            convert := true;
          }
        case LengthShort =>
          if c == LETTER_H {
            state := Spec;
          } else {
            convert := true;
          }
        case LengthLong =>
          if c == LETTER_L {
            state := Spec;
          } else {
            convert := true;
          }
        case Spec =>
          convert := true;
      }
      if convert {
        ProgressShows(ds, slots, address, Conversion(c), Rest(Normal, fmt[i + 1..]), used, out);
        ghost var shown := Shown(Conversion(c), slots[used..], address + 4 * used);
        ColoredAppends(log, out, shown, screen.color);
        used := Convert(screen, c, slots, used, address);
        out := out + shown;
        state := Normal;
      }
      i := i + 1;
    }
    assert fmt[|fmt|..] == [];
    ProgressEnds(ds, slots, address, state, used, out);
  }

  lemma NothingColored(log: seq<Glyph>, color: byte)
    ensures log == log + Colored([], color)
  {
  }

  lemma LiteralShown(c: byte, slots: seq<Slot>, address: dword, color: byte)
    ensures Shown(Literal(c), slots, address) == [c] && Colored([c], color) == [Glyph(c, color)]
  {
  }

  lemma ColoredAppends(log: seq<Glyph>, out: seq<byte>, more: seq<byte>, color: byte)
    ensures log + Colored(out, color) + Colored(more, color) == log + Colored(out + more, color)
  {
  }

  // ---------- the grammar in bytes ----------

  /** A percent sign (37), a length modifier (h is 104, l is 108) or none, and one more byte
      make a conversion; any other byte stands for itself. */
  lemma {:induction false} FormatsAre(c: byte, rest: seq<byte>)
    ensures c != 37 ==> Parse([c] + rest) == [Literal(c)] + Parse(rest)
    ensures c != 104 && c != 108 ==> Parse([37, c] + rest) == [Conversion(c)] + Parse(rest)
    ensures c != 104 ==> Parse([37, 104, c] + rest) == [Conversion(c)] + Parse(rest)
    ensures c != 108 ==> Parse([37, 108, c] + rest) == [Conversion(c)] + Parse(rest)
    ensures Parse([37, 104, 104, c] + rest) == [Conversion(c)] + Parse(rest)
    ensures Parse([37, 108, 108, c] + rest) == [Conversion(c)] + Parse(rest)
  {
    hide *;
    PlainByte(c, rest);
    SpecIs([], c, rest);
    SpecIs([104], c, rest);
    SpecIs([108], c, rest);
    SpecIs([104, 104], c, rest);
    SpecIs([108, 108], c, rest);
    Spelled(c, rest);
  }

  lemma {:induction false} PlainByte(c: byte, rest: seq<byte>)
    ensures c != 37 ==> Parse([c] + rest) == [Literal(c)] + Parse(rest)
  {
    assert ([c] + rest)[1..] == rest;
  }

  lemma Spelled(c: byte, rest: seq<byte>)
    ensures [37] + [] + [c] + rest == [37, c] + rest
    ensures [37] + [104] + [c] + rest == [37, 104, c] + rest
    ensures [37] + [108] + [c] + rest == [37, 108, c] + rest
    ensures [37] + [104, 104] + [c] + rest == [37, 104, 104, c] + rest
    ensures [37] + [108, 108] + [c] + rest == [37, 108, 108, c] + rest
  {
  }

  lemma {:induction false} SpecIs(modifier: seq<byte>, c: byte, rest: seq<byte>)
    requires modifier in {[], [104], [108], [104, 104], [108, 108]}
    ensures (|modifier| == 2 || (modifier == [] && c != 104 && c != 108) || (modifier != [] && modifier[0] != c)) ==>
      Parse([37] + modifier + [c] + rest) == [Conversion(c)] + Parse(rest)
  {
    var fmt := [37] + modifier + [c] + rest;
    var s := fmt[1..];
    SpecParts(modifier, c, rest);
    assert Parse(fmt) == ParseSpec(AfterLength(s));
    hide Parse;
  }

  lemma SpecParts(modifier: seq<byte>, c: byte, rest: seq<byte>)
    requires |modifier| <= 2
    ensures var s := ([37] + modifier + [c] + rest)[1..];
      && s == modifier + [c] + rest && s[|modifier|..] == [c] + rest && s[|modifier|..][1..] == rest
      && s[0..] == s
  {
  }

  /** What conversions print: c (99) the character, s (115) the string, and the percent sign
      itself; the number conversions d, i, u, X, x, p and o the address of their argument;
      all others nothing. Only c and s use an argument. */
  lemma ConversionsAre(c: byte, slots: seq<Slot>, address: dword)
    requires slots != []
    ensures TakesSlot(Conversion(c)) <==> c == 99 || c == 115
    ensures !TakesSlot(Literal(c)) && Shown(Literal(c), slots, address) == [c]
    ensures Shown(Conversion(c), slots, address) ==
      if c == 99 then [slots[0].value]
      else if c == 115 then slots[0].text
      else if c == 37 then [37]
      else if c == 100 || c == 105 || c == 117 || c == 88 || c == 120 || c == 112 || c == 111 then AddressText(address)
      else []
  {
    hide AddressText;
  }

  /** The text of an address: its decimal numeral below 2^31, and nothing from there on. */
  lemma AddressReads(address: dword)
    ensures address < 2_147_483_648 ==> IsNumeral(AddressText(address), 10, 97)
    ensures address < 2_147_483_648 ==> Value(AddressText(address), 10, 97) == address
    ensures address >= 2_147_483_648 ==> AddressText(address) == []
  {
    if address < 0x8000_0000 {
      TextRoundTrip(address, 10, LOWER_A);
    }
    hide Text, Value, IsNumeral;
  }

  // ---------- laws of the grammar ----------

  /** A text with each percent sign written twice. */
  function Doubled(s: seq<byte>): seq<byte> {
    if s == [] then [] else (if s[0] == PERCENT then [PERCENT, PERCENT] else [s[0]]) + Doubled(s[1..])
  }

  /** Printing a text with each percent sign doubled prints the text. */
  lemma {:induction false} DoubledPrintsItself(s: seq<byte>, slots: seq<Slot>, address: nat)
    requires address + 4 * |slots| < 0x1_0000_0000
    ensures Slots(Parse(Doubled(s))) == 0
    ensures Render(Parse(Doubled(s)), slots, address) == s
    decreases |s|
  {
    if s == [] {
      EmptyFormat(slots, address);
    } else {
      hide *;
      DoubledPrintsItself(s[1..], slots, address);
      var rest := Doubled(s[1..]);
      DoubledStep(s);
      FormatsAre(s[0], rest);
      FormatsAre(37, rest);
      ByteShown(s[0], Parse(rest), slots, address);
      FirstAndRest(s);
    }
  }

  lemma EmptyFormat(slots: seq<Slot>, address: nat)
    requires address + 4 * |slots| < 0x1_0000_0000
    ensures Doubled([]) == [] && Slots(Parse([])) == 0 && Render(Parse([]), slots, address) == []
  {
  }

  lemma DoubledStep(s: seq<byte>)
    requires s != []
    ensures Doubled(s) == (if s[0] == 37 then [37, 37] else [s[0]]) + Doubled(s[1..])
  {
  }

  lemma FirstAndRest(s: seq<byte>)
    requires s != []
    ensures [s[0]] + s[1..] == s
  {
  }

  /** A byte in front of a format that uses no argument. */
  lemma ByteShown(c: byte, ds: seq<Directive>, slots: seq<Slot>, address: nat)
    requires Slots(ds) == 0 && address + 4 * |slots| < 0x1_0000_0000
    ensures var d := if c == 37 then Conversion(37) else Literal(c);
      Slots([d] + ds) == 0 && Render([d] + ds, slots, address) == [c] + Render(ds, slots, address)
  {
    var d := if c == 37 then Conversion(37) else Literal(c);
    assert Slots([d] + ds) == 0 by {
      assert ([d] + ds)[1..] == ds;
    }
    hide Render, Slots;
    RenderStep(d, ds, slots, address);
    assert slots[0..] == slots;
  }
}
