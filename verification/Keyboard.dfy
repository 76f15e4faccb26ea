/** The keyboard: scan codes to characters, one at a time. */
module Keyboard {
  import opened Bytes

  const CAPS_LOCK: byte := 0x3A
  const ENTER: byte := 0x1C
  const TAB: byte := 0x0F
  const LEFT_SHIFT: byte := 0x2A
  const RELEASED: byte := 0x80

  /** The character of each key, by scan code; 0 for keys without one. */
  const SCAN_CODE_CHARS: seq<byte> := KEYS_00 + KEYS_10 + KEYS_20 + KEYS_30 + KEYS_40 + Zeros(48)

  const KEYS_00: seq<byte> := [0, 27, 49, 50, 51, 52, 53, 54, 55, 56, 57, 48, 45, 61, 8, 9]
  const KEYS_10: seq<byte> := [113, 119, 101, 114, 116, 121, 117, 105, 111, 112, 91, 93, 10, 0, 97, 115]
  const KEYS_20: seq<byte> := [100, 102, 103, 104, 106, 107, 108, 59, 39, 96, 0, 92, 122, 120, 99, 118]
  const KEYS_30: seq<byte> := [98, 110, 109, 44, 46, 47, 0, 42, 0, 32, 0, 0, 0, 0, 0, 0]
  const KEYS_40: seq<byte> := [0, 0, 0, 0, 0, 0, 0, 0, 0, 0, 45, 0, 0, 0, 43, 0]

  function ScanChar(code: byte): byte
    requires code < RELEASED
  {
    SCAN_CODE_CHARS[code]
  }

  predicate IsAlpha(c: byte) {
    ('A' as int <= c <= 'Z' as int) || ('a' as int <= c <= 'z' as int)
  }

  function Upper(c: byte): byte {
    if 'a' as int <= c <= 'z' as int then c - 32 else c
  }

  /** The character above another on its key. */
  function AlternateChar(c: byte): byte {
    if c == '`' as int then '~' as int
    else if c == '1' as int then '!' as int
    else if c == '2' as int then '@' as int
    else if c == '3' as int then '#' as int
    else if c == '4' as int then '$' as int
    else if c == '5' as int then '%' as int
    else if c == '6' as int then '^' as int
    else if c == '7' as int then '&' as int
    else if c == '8' as int then '*' as int
    else if c == '9' as int then '(' as int
    else if c == '0' as int then ')' as int
    else if c == '-' as int then '_' as int
    else if c == '=' as int then '+' as int
    else if c == '[' as int then '{' as int
    else if c == ']' as int then '}' as int
    else if c == '\\' as int then '|' as int
    else if c == ';' as int then ':' as int
    else if c == '\'' as int then '\"' as int
    else if c == ',' as int then '<' as int
    else if c == '.' as int then '>' as int
    else if c == '/' as int then '?' as int
    else c
  }

  /** What shift makes of a key's character. */
  function ShiftedChar(c: byte): byte {
    if IsAlpha(c) then Upper(c) else AlternateChar(c)
  }

  // ---------- the decoder ----------

  datatype KeyState = KeyState(capsLock: bool, shiftPressed: bool)

  /** Keys that the decoder handles through the table. */
  predicate IsPlainKey(code: byte) {
    code < RELEASED && code !in {CAPS_LOCK, ENTER, TAB, LEFT_SHIFT}
  }

  /** The state after a scan code, and the character it leaves, 0 for none. */
  function Handle(s: KeyState, code: byte): (KeyState, byte) {
    if code >= RELEASED then (s, 0)
    else if code == CAPS_LOCK then (s.(capsLock := !s.capsLock), 0)
    else if code == ENTER then (s, 0x0A)
    else if code == TAB then (s, 0x09)
    else if code == LEFT_SHIFT then (s.(shiftPressed := true), 0)
    else
      var c := ScanChar(code);
      if s.capsLock then (s, if s.shiftPressed then AlternateChar(c) else Upper(c))
      else (s.(shiftPressed := false), if s.shiftPressed then ShiftedChar(c) else c)
  }

  /** The state after a run of scan codes. */
  function After(s: KeyState, codes: seq<byte>): KeyState
    decreases |codes|
  {
    if codes == [] then s else After(Handle(s, codes[0]).0, codes[1..])
  }

  /** The text a reader gets that takes each character before the next scan code. */
  function Typed(s: KeyState, codes: seq<byte>): seq<byte>
    decreases |codes|
  {
    if codes == [] then []
    else
      var (t, c) := Handle(s, codes[0]);
      (if c > 0 then [c] else []) + Typed(t, codes[1..])
  }

  class Driver {
    var capsLock: bool
    var shiftPressed: bool
    var ch: byte
    var scanCode: byte

    ghost function State(): KeyState
      reads this
    {
      KeyState(capsLock, shiftPressed)
    }

    constructor ()
      ensures State() == KeyState(false, false) && ch == 0 && scanCode == 0
    {
      capsLock, shiftPressed, ch, scanCode := false, false, 0, 0;
    }

    /** The interrupt handler, given the scan code read from the port. */
    method KeyboardHandler(code: byte)
      modifies this
      ensures (State(), ch) == Handle(old(State()), code)
      ensures scanCode == code
    {
      ch := 0;
      scanCode := code;
      if code >= RELEASED {
        // key release
      } else if code == CAPS_LOCK {
        capsLock := !capsLock;
      } else if code == ENTER {
        ch := 0x0A;
      } else if code == TAB {
        ch := 0x09;
      } else if code == LEFT_SHIFT {
        shiftPressed := true;
      } else {
        ch := SCAN_CODE_CHARS[code];
        if capsLock {
          if shiftPressed {
            ch := AlternateChar(ch);
          } else {
            ch := Upper(ch);
          }
        } else {
          if shiftPressed {
            if IsAlpha(ch) {
              ch := Upper(ch);
            } else {
              ch := AlternateChar(ch);
            }
          } else {
            ch := SCAN_CODE_CHARS[code];
          }
          shiftPressed := false;
        }
      }
    }

    /** Takes the waiting character; the wait for one is over. */
    method GetChar() returns (c: byte)
      requires ch > 0
      modifies `ch, `scanCode
      ensures c == old(ch) && ch == 0 && scanCode == 0 && State() == old(State())
    {
      c := ch;
      ch := 0;
      scanCode := 0;
    }

    /** Interrupts and a reader that keeps up with them. */
    method Type(codes: seq<byte>) returns (text: seq<byte>)
      modifies this
      ensures text == Typed(old(State()), codes) && State() == After(old(State()), codes)
    {
      text := [];
      ghost var s0 := State();
      var i := 0;
      hide Handle, Typed, After;
      assert codes[0..] == codes;
      while i < |codes|
        invariant 0 <= i <= |codes|
        invariant Typed(s0, codes) == text + Typed(State(), codes[i..])
        invariant After(s0, codes) == After(State(), codes[i..])
      {
        OneCode(State(), codes, i, text);
        KeyboardHandler(codes[i]);
        if ch > 0 {
          var c := GetChar();
          text := text + [c];
        }
        i := i + 1;
      }
      NoMoreCodes(State(), codes, text);
    }
  }

  lemma {:induction false} OneCode(s: KeyState, codes: seq<byte>, i: nat, text: seq<byte>)
    requires i < |codes|
    ensures var (t, c) := Handle(s, codes[i]);
      && After(s, codes[i..]) == After(t, codes[i + 1..])
      && text + Typed(s, codes[i..]) == (if c > 0 then text + [c] else text) + Typed(t, codes[i + 1..])
  {
    hide Handle;
    assert codes[i..][1..] == codes[i + 1..];
    var (t, c) := Handle(s, codes[i]);
    var more := Typed(t, codes[i + 1..]);
    assert text + ([c] + more) == text + [c] + more;
    assert text + ([] + more) == text + more;
  }

  lemma {:induction false} NoMoreCodes(s: KeyState, codes: seq<byte>, text: seq<byte>)
    ensures codes[|codes|..] == [] && After(s, []) == s && text + Typed(s, []) == text
  {
    assert text + [] == text;
  }

  // ---------- typing ----------

  /** The key presses among scan codes. */
  function Pressed(codes: seq<byte>): seq<byte> {
    if codes == [] then [] else (if codes[0] < RELEASED then [codes[0]] else []) + Pressed(codes[1..])
  }

  /** Releases, wherever they come, do not matter. */
  lemma {:induction false} ReleasesDoNotMatter(s: KeyState, codes: seq<byte>)
    ensures Typed(s, codes) == Typed(s, Pressed(codes)) && After(s, codes) == After(s, Pressed(codes))
    decreases |codes|
  {
    if codes != [] {
      ReleasesDoNotMatter(Handle(s, codes[0]).0, codes[1..]);
      if codes[0] < RELEASED {
        assert Pressed(codes)[1..] == Pressed(codes[1..]);
      } else {
        assert [] + Pressed(codes[1..]) == Pressed(codes[1..]);
        assert [] + Typed(s, codes[1..]) == Typed(s, codes[1..]);
      }
      hide ScanChar, AlternateChar, ShiftedChar;
    }
  }

  /** A key that gives the character, with or without shift. */
  datatype Stroke = Stroke(shift: bool, code: byte)

  predicate Gives(k: Stroke, c: byte) {
    && c > 0
    && if k.code == ENTER then !k.shift && c == 0x0A
       else if k.code == TAB then !k.shift && c == 0x09
       else IsPlainKey(k.code) && c == if k.shift then ShiftedChar(ScanChar(k.code)) else ScanChar(k.code)
  }

  function Presses(k: Stroke): seq<byte> {
    (if k.shift then [LEFT_SHIFT] else []) + [k.code]
  }

  function AllPresses(strokes: seq<Stroke>): seq<byte> {
    if strokes == [] then [] else Presses(strokes[0]) + AllPresses(strokes[1..])
  }

  ghost predicate AllGive(strokes: seq<Stroke>, text: seq<byte>) {
    |strokes| == |text| && forall i :: 0 <= i < |text| ==> Gives(strokes[i], text[i])
  }

  /** With caps lock off, the strokes for a text type exactly that text, whatever key
      releases come in between: one shift press serves exactly one key. */
  lemma {:induction false} TypingRoundTrip(codes: seq<byte>, strokes: seq<Stroke>, text: seq<byte>)
    requires AllGive(strokes, text) && Pressed(codes) == AllPresses(strokes)
    ensures Typed(KeyState(false, false), codes) == text
    ensures After(KeyState(false, false), codes) == KeyState(false, false)
  {
    ReleasesDoNotMatter(KeyState(false, false), codes);
    StrokesType(strokes, text);
  }

  lemma {:induction false} StrokesType(strokes: seq<Stroke>, text: seq<byte>)
    requires AllGive(strokes, text)
    ensures var s := KeyState(false, false);
      Typed(s, AllPresses(strokes)) == text && After(s, AllPresses(strokes)) == s
    decreases |text|
  {
    if strokes != [] {
      assert Gives(strokes[0], text[0]);
      assert AllGive(strokes[1..], text[1..]);
      StrokesType(strokes[1..], text[1..]);
      StrokeTypes(strokes[0], text[0], AllPresses(strokes[1..]));
      assert text == [text[0]] + text[1..];
    }
  }

  lemma {:induction false} StrokeTypes(k: Stroke, c: byte, more: seq<byte>)
    requires Gives(k, c)
    ensures var s := KeyState(false, false);
      Typed(s, Presses(k) + more) == [c] + Typed(s, more) && After(s, Presses(k) + more) == After(s, more)
  {
    hide ScanChar, ShiftedChar;
    var s := KeyState(false, false);
    if k.shift {
      var t, rest := KeyState(false, true), [k.code] + more;
      assert Presses(k) + more == [LEFT_SHIFT] + rest;
      assert Typed(s, [LEFT_SHIFT] + rest) == [] + Typed(t, rest) == Typed(t, rest) by {
        assert ([LEFT_SHIFT] + rest)[1..] == rest;
      }
      assert rest[1..] == more;
    } else {
      assert Presses(k) + more == [k.code] + more;
      assert ([k.code] + more)[1..] == more;
    }
  }

  /** The stroke behind a character that the decoder gives with caps lock off. */
  lemma StrokeBehind(s: KeyState, code: byte) returns (k: Stroke)
    requires !s.capsLock && Handle(s, code).1 > 0
    ensures Gives(k, Handle(s, code).1)
  {
    hide ScanChar, ShiftedChar;
    k := Stroke(s.shiftPressed && code != ENTER && code != TAB, code);
  }

  lemma {:induction false} StrokesBehind(s: KeyState, codes: seq<byte>) returns (strokes: seq<Stroke>)
    requires !s.capsLock && CAPS_LOCK !in codes
    ensures AllGive(strokes, Typed(s, codes))
    decreases |codes|
  {
    strokes := [];
    if codes != [] {
      var t, c := Handle(s, codes[0]).0, Handle(s, codes[0]).1;
      strokes := StrokesBehind(t, codes[1..]);
      if c > 0 {
        var k := StrokeBehind(s, codes[0]);
        strokes := [k] + strokes;
      }
      hide Handle, Gives;
    }
  }

  lemma {:induction false} NoCapsLock(strokes: seq<Stroke>, text: seq<byte>)
    requires AllGive(strokes, text)
    ensures CAPS_LOCK !in AllPresses(strokes)
    decreases |text|
  {
    if strokes != [] {
      assert Gives(strokes[0], text[0]);
      assert AllGive(strokes[1..], text[1..]);
      NoCapsLock(strokes[1..], text[1..]);
      hide ScanChar, ShiftedChar;
    }
  }

  /** Without caps lock, the texts that any scan codes at all can type are exactly those
      made of characters that single strokes give. */
  lemma TypeableTexts(text: seq<byte>)
    ensures (exists codes: seq<byte> :: CAPS_LOCK !in codes && Typed(KeyState(false, false), codes) == text)
       <==> (exists strokes: seq<Stroke> :: AllGive(strokes, text))
  {
    if codes: seq<byte> :| CAPS_LOCK !in codes && Typed(KeyState(false, false), codes) == text {
      var strokes := StrokesBehind(KeyState(false, false), codes);
    }
    if strokes: seq<Stroke> :| AllGive(strokes, text) {
      NoCapsLock(strokes, text);
      StrokesType(strokes, text);
    }
  }

  // ---------- caps lock ----------

  /** Lower-case letters raised, in byte arithmetic; every other byte as it is. */
  function Raised(text: seq<byte>): (t: seq<byte>)
    ensures |t| == |text|
  {
    seq(|text|, i requires 0 <= i < |text| =>
      if 0x61 <= text[i] <= 0x7A then text[i] as int - 0x20 else text[i] as int)
  }

  /** One press of caps lock in front raises the letters of what plain keys type; two presses
      change nothing. */
  lemma {:induction false} CapsLockRaises(codes: seq<byte>)
    requires 0x2A !in codes && 0x3A !in codes
    ensures var start := KeyState(false, false);
      && Typed(start, [0x3A] + codes) == Raised(Typed(start, codes))
      && Typed(start, [0x3A, 0x3A] + codes) == Typed(start, codes)
  {
    var start, caps := KeyState(false, false), KeyState(true, false);
    assert ([0x3A] + codes)[1..] == codes && ([0x3A, 0x3A] + codes)[1..] == [0x3A] + codes;
    assert ([0x3A] + codes)[0] == ([0x3A, 0x3A] + codes)[0] == CAPS_LOCK;
    RaisedUnderCapsLock(codes);
    hide Raised, ScanChar, AlternateChar, ShiftedChar;
    assert Typed(start, [0x3A] + codes) == [] + Typed(caps, codes);
    assert Typed(caps, [0x3A] + codes) == [] + Typed(start, codes);
    assert Typed(start, [0x3A, 0x3A] + codes) == [] + Typed(caps, [0x3A] + codes);
  }

  lemma {:induction false} RaisedUnderCapsLock(codes: seq<byte>)
    requires 0x2A !in codes && 0x3A !in codes
    ensures Typed(KeyState(true, false), codes) == Raised(Typed(KeyState(false, false), codes))
    decreases |codes|
  {
    if codes != [] {
      var start, caps := KeyState(false, false), KeyState(true, false);
      assert codes[0] != LEFT_SHIFT && codes[0] != CAPS_LOCK;
      RaisedUnderCapsLock(codes[1..]);
      CapsLockKey(codes[0]);
      var c, u := Handle(start, codes[0]).1, Handle(caps, codes[0]).1;
      hide Handle;
      RaisedJoin(if c > 0 then [c] else [], Typed(start, codes[1..]));
    }
  }

  lemma CapsLockKey(code: byte)
    requires code != LEFT_SHIFT && code != CAPS_LOCK
    ensures var (s, c) := Handle(KeyState(false, false), code);
      var (t, u) := Handle(KeyState(true, false), code);
      && s == KeyState(false, false) && t == KeyState(true, false)
      && (u > 0 <==> c > 0) && [u] == Raised([c])
  {
    hide ScanChar;
  }

  lemma RaisedJoin(a: seq<byte>, b: seq<byte>)
    ensures Raised(a + b) == Raised(a) + Raised(b) && Raised([]) == []
  {
  }

  // ---------- the layout ----------

  /** One key: alone, after shift, after caps lock, and after both. Caps lock raises letters
      only, and with it shift stays pending and raises all but letters. */
  ghost predicate KeyIs(code: byte, plain: char, shifted: char) {
    var start := KeyState(false, false);
    && Typed(start, [code]) == [plain as int]
    && Typed(start, [0x2A, code]) == [shifted as int]
    && Typed(start, [0x3A, code]) == [if 'a' <= plain <= 'z' then shifted as int else plain as int]
    && Typed(start, [0x3A, 0x2A, code]) == [if 'a' <= plain <= 'z' then plain as int else shifted as int]
    && After(start, [0x2A, code]) == start
    && After(start, [0x3A, 0x2A, code]) == KeyState(true, true)
  }

  /** The parts of the table. */
  lemma KeyBytes()
    ensures forall code: byte :: code < 0x10 ==> ScanChar(code) == KEYS_00[code]
    ensures forall code: byte :: 0x10 <= code < 0x20 ==> ScanChar(code) == KEYS_10[code - 0x10]
    ensures forall code: byte :: 0x20 <= code < 0x30 ==> ScanChar(code) == KEYS_20[code - 0x20]
    ensures forall code: byte :: 0x30 <= code < 0x40 ==> ScanChar(code) == KEYS_30[code - 0x30]
    ensures forall code: byte :: 0x40 <= code < 0x50 ==> ScanChar(code) == KEYS_40[code - 0x40]
    ensures forall code: byte :: 0x50 <= code < 0x80 ==> ScanChar(code) == 0
  {
    RowSizes();
    hide KEYS_00, KEYS_10, KEYS_20, KEYS_30, KEYS_40;
  }

  lemma RowSizes()
    ensures |KEYS_00| == |KEYS_10| == |KEYS_20| == |KEYS_30| == |KEYS_40| == 16
  {
  }

  /** The keys from 1 to the equals sign. */
  lemma NumberKeys()
    ensures KeyIs(0x02, '1', '!') && KeyIs(0x03, '2', '@') && KeyIs(0x04, '3', '#')
    ensures KeyIs(0x05, '4', '$') && KeyIs(0x06, '5', '%') && KeyIs(0x07, '6', '^')
    ensures KeyIs(0x08, '7', '&') && KeyIs(0x09, '8', '*') && KeyIs(0x0A, '9', '(')
    ensures KeyIs(0x0B, '0', ')') && KeyIs(0x0C, '-', '_') && KeyIs(0x0D, '=', '+')
  {
    hide KeyIs;
    LeftNumberKeys();
    RightNumberKeys();
  }

  lemma LeftNumberKeys()
    ensures KeyIs(0x02, '1', '!') && KeyIs(0x03, '2', '@') && KeyIs(0x04, '3', '#')
    ensures KeyIs(0x05, '4', '$') && KeyIs(0x06, '5', '%') && KeyIs(0x07, '6', '^')
  {
    KeyBytes();
    hide KeyIs, SCAN_CODE_CHARS, ScanChar;
    KeyGives(0x02, '1', '!');
    KeyGives(0x03, '2', '@');
    KeyGives(0x04, '3', '#');
    KeyGives(0x05, '4', '$');
    KeyGives(0x06, '5', '%');
    KeyGives(0x07, '6', '^');
  }

  lemma RightNumberKeys()
    ensures KeyIs(0x08, '7', '&') && KeyIs(0x09, '8', '*') && KeyIs(0x0A, '9', '(')
    ensures KeyIs(0x0B, '0', ')') && KeyIs(0x0C, '-', '_') && KeyIs(0x0D, '=', '+')
  {
    KeyBytes();
    hide KeyIs, SCAN_CODE_CHARS, ScanChar;
    KeyGives(0x08, '7', '&');
    KeyGives(0x09, '8', '*');
    KeyGives(0x0A, '9', '(');
    KeyGives(0x0B, '0', ')');
    KeyGives(0x0C, '-', '_');
    KeyGives(0x0D, '=', '+');
  }

  /** The row from Q on. */
  lemma UpperKeys()
    ensures KeyIs(0x10, 'q', 'Q') && KeyIs(0x11, 'w', 'W') && KeyIs(0x12, 'e', 'E')
    ensures KeyIs(0x13, 'r', 'R') && KeyIs(0x14, 't', 'T') && KeyIs(0x15, 'y', 'Y')
    ensures KeyIs(0x16, 'u', 'U') && KeyIs(0x17, 'i', 'I') && KeyIs(0x18, 'o', 'O')
    ensures KeyIs(0x19, 'p', 'P') && KeyIs(0x1A, '[', '{') && KeyIs(0x1B, ']', '}')
  {
    hide KeyIs;
    LeftUpperKeys();
    RightUpperKeys();
  }

  lemma LeftUpperKeys()
    ensures KeyIs(0x10, 'q', 'Q') && KeyIs(0x11, 'w', 'W') && KeyIs(0x12, 'e', 'E')
    ensures KeyIs(0x13, 'r', 'R') && KeyIs(0x14, 't', 'T') && KeyIs(0x15, 'y', 'Y')
  {
    KeyBytes();
    hide KeyIs, SCAN_CODE_CHARS, ScanChar;
    KeyGives(0x10, 'q', 'Q');
    KeyGives(0x11, 'w', 'W');
    KeyGives(0x12, 'e', 'E');
    KeyGives(0x13, 'r', 'R');
    KeyGives(0x14, 't', 'T');
    KeyGives(0x15, 'y', 'Y');
  }

  lemma RightUpperKeys()
    ensures KeyIs(0x16, 'u', 'U') && KeyIs(0x17, 'i', 'I') && KeyIs(0x18, 'o', 'O')
    ensures KeyIs(0x19, 'p', 'P') && KeyIs(0x1A, '[', '{') && KeyIs(0x1B, ']', '}')
  {
    KeyBytes();
    hide KeyIs, SCAN_CODE_CHARS, ScanChar;
    KeyGives(0x16, 'u', 'U');
    KeyGives(0x17, 'i', 'I');
    KeyGives(0x18, 'o', 'O');
    KeyGives(0x19, 'p', 'P');
    KeyGives(0x1A, '[', '{');
    KeyGives(0x1B, ']', '}');
  }

  /** The row from A on. */
  lemma MiddleKeys()
    ensures KeyIs(0x1E, 'a', 'A') && KeyIs(0x1F, 's', 'S') && KeyIs(0x20, 'd', 'D')
    ensures KeyIs(0x21, 'f', 'F') && KeyIs(0x22, 'g', 'G') && KeyIs(0x23, 'h', 'H')
    ensures KeyIs(0x24, 'j', 'J') && KeyIs(0x25, 'k', 'K') && KeyIs(0x26, 'l', 'L')
    ensures KeyIs(0x27, ';', ':') && KeyIs(0x28, '\'', '\"') && KeyIs(0x29, '`', '~')
  {
    hide KeyIs;
    LeftMiddleKeys();
    RightMiddleKeys();
  }

  lemma LeftMiddleKeys()
    ensures KeyIs(0x1E, 'a', 'A') && KeyIs(0x1F, 's', 'S') && KeyIs(0x20, 'd', 'D')
    ensures KeyIs(0x21, 'f', 'F') && KeyIs(0x22, 'g', 'G') && KeyIs(0x23, 'h', 'H')
  {
    KeyBytes();
    hide KeyIs, SCAN_CODE_CHARS, ScanChar;
    KeyGives(0x1E, 'a', 'A');
    KeyGives(0x1F, 's', 'S');
    KeyGives(0x20, 'd', 'D');
    KeyGives(0x21, 'f', 'F');
    KeyGives(0x22, 'g', 'G');
    KeyGives(0x23, 'h', 'H');
  }

  lemma RightMiddleKeys()
    ensures KeyIs(0x24, 'j', 'J') && KeyIs(0x25, 'k', 'K') && KeyIs(0x26, 'l', 'L')
    ensures KeyIs(0x27, ';', ':') && KeyIs(0x28, '\'', '\"') && KeyIs(0x29, '`', '~')
  {
    KeyBytes();
    hide KeyIs, SCAN_CODE_CHARS, ScanChar;
    KeyGives(0x24, 'j', 'J');
    KeyGives(0x25, 'k', 'K');
    KeyGives(0x26, 'l', 'L');
    KeyGives(0x27, ';', ':');
    KeyGives(0x28, '\'', '\"');
    KeyGives(0x29, '`', '~');
  }

  /** The row from the backslash and Z on. */
  lemma LowerKeys()
    ensures KeyIs(0x2B, '\\', '|') && KeyIs(0x2C, 'z', 'Z') && KeyIs(0x2D, 'x', 'X')
    ensures KeyIs(0x2E, 'c', 'C') && KeyIs(0x2F, 'v', 'V') && KeyIs(0x30, 'b', 'B')
    ensures KeyIs(0x31, 'n', 'N') && KeyIs(0x32, 'm', 'M') && KeyIs(0x33, ',', '<')
    ensures KeyIs(0x34, '.', '>') && KeyIs(0x35, '/', '?')
  {
    hide KeyIs;
    LeftLowerKeys();
    RightLowerKeys();
  }

  lemma LeftLowerKeys()
    ensures KeyIs(0x2B, '\\', '|') && KeyIs(0x2C, 'z', 'Z') && KeyIs(0x2D, 'x', 'X')
    ensures KeyIs(0x2E, 'c', 'C') && KeyIs(0x2F, 'v', 'V') && KeyIs(0x30, 'b', 'B')
  {
    KeyBytes();
    hide KeyIs, SCAN_CODE_CHARS, ScanChar;
    KeyGives(0x2B, '\\', '|');
    KeyGives(0x2C, 'z', 'Z');
    KeyGives(0x2D, 'x', 'X');
    KeyGives(0x2E, 'c', 'C');
    KeyGives(0x2F, 'v', 'V');
    KeyGives(0x30, 'b', 'B');
  }

  lemma RightLowerKeys()
    ensures KeyIs(0x31, 'n', 'N') && KeyIs(0x32, 'm', 'M') && KeyIs(0x33, ',', '<')
    ensures KeyIs(0x34, '.', '>') && KeyIs(0x35, '/', '?')
  {
    KeyBytes();
    hide KeyIs, SCAN_CODE_CHARS, ScanChar;
    KeyGives(0x31, 'n', 'N');
    KeyGives(0x32, 'm', 'M');
    KeyGives(0x33, ',', '<');
    KeyGives(0x34, '.', '>');
    KeyGives(0x35, '/', '?');
  }

  /** The other keys with a character: escape, backspace, tab, enter, space and the keypad's
      signs. */
  lemma OtherKeys()
    ensures var start := KeyState(false, false);
      && Typed(start, [0x01]) == [27] && Typed(start, [0x0E]) == [8] && Typed(start, [0x0F]) == [9]
      && Typed(start, [0x1C]) == [10] && Typed(start, [0x39]) == [32]
      && Typed(start, [0x37]) == [42] && Typed(start, [0x4A]) == [45] && Typed(start, [0x4E]) == [43]
  {
    var start := KeyState(false, false);
    OtherPlaces();
    hide SCAN_CODE_CHARS, ScanChar;
    OneKey(start, 0x01);
    OneKey(start, 0x0E);
    OneKey(start, 0x39);
    OneKey(start, 0x37);
    OneKey(start, 0x4A);
    OneKey(start, 0x4E);
    OneKey(start, 0x0F);
    OneKey(start, 0x1C);
    PlainKeyHandled(0x01);
    PlainKeyHandled(0x0E);
    PlainKeyHandled(0x39);
    PlainKeyHandled(0x37);
    PlainKeyHandled(0x4A);
    PlainKeyHandled(0x4E);
    ControlKeys();
    hide Handle;
  }

  lemma ControlKeys()
    ensures Handle(KeyState(false, false), 0x0F).1 == 9 && Handle(KeyState(false, false), 0x1C).1 == 10
  {
    hide ScanChar;
  }

  lemma OtherPlaces()
    ensures ScanChar(0x01) == 27 && ScanChar(0x0E) == 8 && ScanChar(0x39) == 32
    ensures ScanChar(0x37) == 42 && ScanChar(0x4A) == 45 && ScanChar(0x4E) == 43
  {
    KeyBytes();
    hide SCAN_CODE_CHARS, ScanChar;
  }

  /** Every other key, and every key release, types nothing. */
  lemma SilentKeys(code: byte)
    requires code !in {0x01, 0x0E, 0x0F, 0x1C, 0x37, 0x39, 0x4A, 0x4E}
    requires !(0x02 <= code <= 0x0D) && !(0x10 <= code <= 0x1B) && !(0x1E <= code <= 0x29) && !(0x2B <= code <= 0x35)
    ensures Typed(KeyState(false, false), [code]) == []
  {
    KeyBytes();
    SilentPlaces();
    hide SCAN_CODE_CHARS, ScanChar, KEYS_00, KEYS_10, KEYS_20, KEYS_30, KEYS_40;
    OneKey(KeyState(false, false), code);
  }

  lemma SilentPlaces()
    ensures KEYS_00[0x0] == KEYS_10[0xD] == KEYS_20[0xA] == KEYS_30[0x6] == KEYS_30[0x8] == 0
    ensures forall i :: 0xA <= i < 0x10 ==> KEYS_30[i] == 0
    ensures forall i :: 0x0 <= i < 0x10 && i != 0xA && i != 0xE ==> KEYS_40[i] == 0
  {
  }

  lemma KeyGives(code: byte, plain: char, shifted: char)
    requires IsPlainKey(code) && 0 < plain as int < 0x80 && 0 < shifted as int < 0x80
    requires ScanChar(code) == plain as int && ShiftedChar(plain as int) == shifted as int
    requires !('A' <= plain <= 'Z')
    ensures KeyIs(code, plain, shifted)
  {
    var start := KeyState(false, false);
    PlainKeyHandled(code);
    CharsOf(plain as int);
    OneKey(start, code);
    TwoKeys(start, LEFT_SHIFT, code);
    TwoKeys(start, CAPS_LOCK, code);
    ThreeKeys(start, CAPS_LOCK, LEFT_SHIFT, code);
    hide Handle, ScanChar, Upper, AlternateChar, ShiftedChar;
  }

  lemma PlainKeyHandled(code: byte)
    requires IsPlainKey(code)
    ensures var c := ScanChar(code);
      && Handle(KeyState(false, false), code) == (KeyState(false, false), c)
      && Handle(KeyState(false, true), code) == (KeyState(false, false), ShiftedChar(c))
      && Handle(KeyState(true, false), code) == (KeyState(true, false), Upper(c))
      && Handle(KeyState(true, true), code) == (KeyState(true, true), AlternateChar(c))
    ensures Handle(KeyState(false, false), 0x2A) == (KeyState(false, true), 0)
    ensures Handle(KeyState(false, false), 0x3A) == (KeyState(true, false), 0)
    ensures Handle(KeyState(true, false), 0x2A) == (KeyState(true, true), 0)
  {
    hide ScanChar, AlternateChar, ShiftedChar, Upper;
  }

  lemma CharsOf(c: byte)
    requires !(0x41 <= c <= 0x5A)
    ensures if 0x61 <= c <= 0x7A then Upper(c) == ShiftedChar(c) && AlternateChar(c) == c
      else Upper(c) == c && AlternateChar(c) == ShiftedChar(c)
  {
  }

  function Shown(c: byte): seq<byte> {
    if c > 0 then [c] else []
  }

  lemma {:induction false} OneKey(s: KeyState, a: byte)
    ensures Typed(s, [a]) == Shown(Handle(s, a).1) && After(s, [a]) == Handle(s, a).0
  {
    assert [a][1..] == [];
    hide Handle;
  }

  lemma {:induction false} TwoKeys(s: KeyState, a: byte, b: byte)
    ensures var (t, c) := Handle(s, a);
      && Typed(s, [a, b]) == Shown(c) + Shown(Handle(t, b).1)
      && After(s, [a, b]) == Handle(t, b).0
  {
    assert [a, b][1..] == [b];
    OneKey(Handle(s, a).0, b);
    hide Handle;
  }

  lemma {:induction false} ThreeKeys(s: KeyState, a: byte, b: byte, d: byte)
    ensures var (t, c) := Handle(s, a);
      var (u, e) := Handle(t, b);
      && Typed(s, [a, b, d]) == Shown(c) + (Shown(e) + Shown(Handle(u, d).1))
      && After(s, [a, b, d]) == Handle(u, d).0
  {
    assert [a, b, d][1..] == [b, d];
    TwoKeys(Handle(s, a).0, b, d);
    hide Handle;
  }

  // ---------- any run ----------

  /** With caps lock off throughout, shift is pending after a run exactly when some shift
      press has had no plain key after it. */
  lemma {:induction false} ShiftPending(codes: seq<byte>)
    requires CAPS_LOCK !in codes
    ensures var s := After(KeyState(false, false), codes);
      && !s.capsLock
      && (s.shiftPressed <==>
            exists j :: 0 <= j < |codes| && codes[j] == LEFT_SHIFT && NoPlainKey(codes[j + 1..]))
    decreases |codes|
  {
    var start := KeyState(false, false);
    if codes != [] {
      var n := |codes| - 1;
      ShiftPending(codes[..n]);
      AfterPush(start, codes[..n], codes[n]);
      assert codes == codes[..n] + [codes[n]];
      forall k | 0 < k <= n
        ensures NoPlainKey(codes[k..]) <==> NoPlainKey(codes[..n][k..]) && !IsPlainKey(codes[n])
      {
        assert codes[k..] == codes[..n][k..] + [codes[n]];
      }
      assert NoPlainKey(codes[n + 1..]);
      hide ScanChar, ShiftedChar, NoPlainKey;
      var before, after := After(start, codes[..n]), After(start, codes);
      if j :| 0 <= j < n && codes[..n][j] == LEFT_SHIFT && NoPlainKey(codes[..n][j + 1..]) {
        assert codes[j] == LEFT_SHIFT;
      }
      if j :| 0 <= j < |codes| && codes[j] == LEFT_SHIFT && NoPlainKey(codes[j + 1..]) {
        assert j < n ==> codes[..n][j] == LEFT_SHIFT;
      }
    }
  }

  ghost predicate NoPlainKey(codes: seq<byte>) {
    forall i :: 0 <= i < |codes| ==> !IsPlainKey(codes[i])
  }

  lemma {:induction false} AfterPush(s: KeyState, codes: seq<byte>, code: byte)
    ensures After(s, codes + [code]) == Handle(After(s, codes), code).0
    decreases |codes|
  {
    hide Handle;
    if codes == [] {
      assert [] + [code] == [code] && [code][1..] == [];
    } else {
      assert (codes + [code])[1..] == codes[1..] + [code];
      AfterPush(Handle(s, codes[0]).0, codes[1..], code);
    }
  }
}
