/** What the main routine prints: every message through printf, on the screen. */
module Messages {
  import opened Bytes
  import opened Terminal
  import opened Printf
  import Shell

  type Event = Shell.Event

  /** The startup messages. */
  datatype Notice = Found(name: seq<byte>) | NotFound(name: seq<byte>) | Shows(text: seq<byte>)

  /** Where the variable arguments of a call lie; no message prints an address. */
  const FRAME := 0x10_0000

  function Ascii(s: string): (b: seq<byte>)
    ensures |b| == |s| && forall i :: 0 <= i < |s| ==> b[i] == s[i] as int % 0x100
  {
    seq(|s|, i requires 0 <= i < |s| => s[i] as int % 0x100)
  }

  // ---------- the messages ----------

  const GREETING := "\nHi there!\n"
  const COMMANDS := "\nList of commands:\n"
  const COMMAND_HELLO := "\nhello - Simply prints Hi There!.\n"
  const COMMAND_ECHO := "echo X - Repeats X.\n"
  const COMMAND_READ := "read X - Reads file X and " + "prints it's contents.\n"
  const ASK_ARGUMENT := "\nFirst argument: "
  const OVERFLOW := "\nBuffer overflow. Command too long.\n"
  const UNRECOGNIZED := "\nUnrecognized command: "
  const CONTENTS := "\nContents: "
  const FOUND := "\nFile found: "
  const NOT_FOUND := "\nFile not found: "
  const PROMPT := "> "
  const LINE_BREAK := "\n"

  function EventText(e: Event): seq<byte> {
    match e
    case Typed(c) => [c]
    case Overflow => Ascii(OVERFLOW)
    case Argument(line) => Ascii(LINE_BREAK) + line + Ascii(LINE_BREAK)
    case Contents(text) => Ascii(CONTENTS) + text + Ascii(LINE_BREAK)
    case Greeting => Ascii(GREETING)
    case Commands => Ascii(COMMANDS) + Ascii(COMMAND_HELLO) + Ascii(COMMAND_ECHO) + Ascii(COMMAND_READ)
    case AskArgument => Ascii(ASK_ARGUMENT)
    case Unrecognized(line) => Ascii(UNRECOGNIZED) + line + Ascii(LINE_BREAK)
    case Prompt => Ascii(PROMPT)
  }

  function EventsText(events: seq<Event>): seq<byte> {
    if events == [] then [] else EventsText(events[..|events| - 1]) + EventText(events[|events| - 1])
  }

  function NoticeText(n: Notice): seq<byte> {
    match n
    case Found(name) => Ascii(FOUND) + name + Ascii(LINE_BREAK)
    case NotFound(name) => Ascii(NOT_FOUND) + name + Ascii(LINE_BREAK)
    case Shows(text) => Ascii(CONTENTS) + text + Ascii(LINE_BREAK)
  }

  function NoticesText(notices: seq<Notice>): seq<byte> {
    if notices == [] then [] else NoticesText(notices[..|notices| - 1]) + NoticeText(notices[|notices| - 1])
  }

  predicate IsPlain(s: string) {
    forall i :: 0 <= i < |s| ==> s[i] as int < 0x100 && s[i] as int != PERCENT
  }

  lemma PlainMessages()
    ensures IsPlain(GREETING) && IsPlain(ASK_ARGUMENT) && IsPlain(OVERFLOW) && IsPlain(UNRECOGNIZED)
    ensures IsPlain(CONTENTS) && IsPlain(FOUND) && IsPlain(NOT_FOUND) && IsPlain(PROMPT) && IsPlain(LINE_BREAK)
  {
    hide IsPlain;
    PlainAnswers();
    PlainOverflow();
    PlainUnrecognized();
    PlainFiles();
  }

  lemma PlainAnswers()
    ensures IsPlain(GREETING) && IsPlain(ASK_ARGUMENT) && IsPlain(PROMPT) && IsPlain(LINE_BREAK)
  {
  }

  lemma PlainOverflow()
    ensures IsPlain(OVERFLOW)
  {
  }

  lemma PlainUnrecognized()
    ensures IsPlain(UNRECOGNIZED)
  {
  }

  lemma PlainFiles()
    ensures IsPlain(CONTENTS) && IsPlain(FOUND) && IsPlain(NOT_FOUND)
  {
  }

  lemma PlainCommands()
    ensures IsPlain(COMMANDS) && IsPlain(COMMAND_HELLO) && IsPlain(COMMAND_ECHO) && IsPlain(COMMAND_READ)
  {
    hide IsPlain;
    PlainCommandLines();
    PlainRead();
  }

  lemma PlainCommandLines()
    ensures IsPlain(COMMANDS) && IsPlain(COMMAND_HELLO) && IsPlain(COMMAND_ECHO)
  {
  }

  lemma PlainRead()
    ensures IsPlain(COMMAND_READ)
  {
    ReadHalves();
    hide IsPlain;
    PlainJoin("read X - Reads file X and ", "prints it's contents.\n");
  }

  lemma ReadHalves()
    ensures IsPlain("read X - Reads file X and ") && IsPlain("prints it's contents.\n")
  {
  }

  lemma PlainJoin(s: string, t: string)
    requires IsPlain(s) && IsPlain(t)
    ensures IsPlain(s + t)
  {
  }

  lemma AsciiIsPlain(s: string)
    requires IsPlain(s)
    ensures PERCENT !in Ascii(s)
  {
  }

  /** The wording of every message. */
  lemma Wording(line: seq<byte>)
    ensures EventText(Shell.Greeting) == Ascii("\nHi there!\n")
    ensures EventText(Shell.AskArgument) == Ascii("\nFirst argument: ") && EventText(Shell.Prompt) == Ascii("> ")
    ensures EventText(Shell.Overflow) == Ascii("\nBuffer overflow. Command too long.\n")
    ensures EventText(Shell.Argument(line)) == [10] + line + [10]
    ensures EventText(Shell.Contents(line)) == Ascii("\nContents: ") + line + [10]
    ensures EventText(Shell.Unrecognized(line)) == Ascii("\nUnrecognized command: ") + line + [10]
    ensures NoticeText(Found(line)) == Ascii("\nFile found: ") + line + [10]
    ensures NoticeText(NotFound(line)) == Ascii("\nFile not found: ") + line + [10]
    ensures NoticeText(Shows(line)) == Ascii("\nContents: ") + line + [10]
  {
    assert Ascii(LINE_BREAK) == [10];
    hide Ascii;
  }

  lemma CommandsWording()
    ensures EventText(Shell.Commands) ==
      Ascii("\nList of commands:\n") + Ascii("\nhello - Simply prints Hi There!.\n")
      + Ascii("echo X - Repeats X.\n") + Ascii("read X - Reads file X and " + "prints it's contents.\n")
  {
    hide Ascii;
  }

  /** A line that fits a row of the screen, echoed, is a row of its own on the page, with
      nothing behind it. */
  lemma {:induction false} EchoedLineIsRow(log: seq<Glyph>, base: byte, line: seq<byte>, color: byte)
    requires |line| < 80 && 10 !in line
    ensures var page := Layout(log, base);
      var now := Layout(log + Colored(EventText(Shell.Argument(line)), color), base);
      && |now| == |page| + 2 && now[..|page|] == page
      && LowBytes(now[|page|].cells) == line && now[|page| + 1].cells == []
  {
    var page, shown := Layout(log, base), Colored(line, color);
    var mark := Glyph(10, color);
    hide *;
    Wording(line);
    RowOpened(log, base, color);
    LineOnRow(log + [mark], base, page, line, color);
    RowClosed(log + [mark] + shown, base, page, Row(Cells(shown), color), color);
    EchoedText(log, line, color);
    CellsRead(line, color);
  }

  /** A newline opens a row. */
  lemma {:induction false} RowOpened(log: seq<Glyph>, base: byte, color: byte)
    ensures Layout(log + [Glyph(10, color)], base) == Layout(log, base) + [Row([], color)]
  {
    LayoutAppends(log, base, Glyph(10, color));
    PageIsNotEmpty(log, base);
    hide Layout;
  }

  lemma {:induction false} RowClosed(log: seq<Glyph>, base: byte, page: seq<Row>, row: Row, color: byte)
    requires Layout(log, base) == page + [row]
    ensures var now := Layout(log + [Glyph(10, color)], base);
      |now| == |page| + 2 && now[..|page|] == page && now[|page|] == row && now[|page| + 1] == Row([], color)
  {
    RowOpened(log, base, color);
    hide Layout;
  }

  lemma EchoedText(log: seq<Glyph>, line: seq<byte>, color: byte)
    ensures log + [Glyph(10, color)] + Colored(line, color) + [Glyph(10, color)]
         == log + Colored([10] + line + [10], color)
  {
  }

  /** A line typed on an open row fills it. */
  lemma {:induction false} LineOnRow(text: seq<Glyph>, base: byte, page: seq<Row>, line: seq<byte>, color: byte)
    requires |line| < 80 && 10 !in line && Layout(text, base) == page + [Row([], color)]
    ensures Layout(text + Colored(line, color), base) == page + [Row(Cells(Colored(line, color)), color)]
    decreases |line|
  {
    if line == [] {
      assert text + Colored(line, color) == text && Cells(Colored(line, color)) == [];
    } else {
      hide *;
      var init, c := line[..|line| - 1], line[|line| - 1];
      LastByte(line);
      LineOnRow(text, base, page, init, color);
      ByteOnRow(text, base, page, init, c, color);
    }
  }

  lemma LastByte(line: seq<byte>)
    requires line != [] && 10 !in line
    ensures line == line[..|line| - 1] + [line[|line| - 1]] && 10 !in line[..|line| - 1] && line[|line| - 1] != 10
  {
  }

  lemma {:induction false} ByteOnRow(
      text: seq<Glyph>, base: byte, page: seq<Row>, init: seq<byte>, c: byte, color: byte)
    requires |init| < 79 && c != 10
    requires Layout(text + Colored(init, color), base) == page + [Row(Cells(Colored(init, color)), color)]
    ensures Layout(text + Colored(init + [c], color), base) == page + [Row(Cells(Colored(init + [c], color)), color)]
  {
    LayoutAppends(text + Colored(init, color), base, Glyph(c, color));
    OneMoreGlyph(text, init, c, color);
    var shown := Cells(Colored(init, color));
    assert |shown| == |init|;
    hide Layout, Cells, Colored, VgaEntry;
    assert (page + [Row(shown, color)])[..|page|] == page;
    assert page + [Row(shown + [VgaEntry(c, color)], color)] + [] == page + [Row(shown + [VgaEntry(c, color)], color)];
  }

  lemma OneMoreGlyph(text: seq<Glyph>, init: seq<byte>, c: byte, color: byte)
    ensures text + Colored(init, color) + [Glyph(c, color)] == text + Colored(init + [c], color)
    ensures Cells(Colored(init + [c], color)) == Cells(Colored(init, color)) + [VgaEntry(c, color)]
  {
    hide VgaEntry;
  }

  lemma CellsRead(line: seq<byte>, color: byte)
    ensures LowBytes(Cells(Colored(line, color))) == line
  {
    forall i | 0 <= i < |line|
      ensures LowBytes(Cells(Colored(line, color)))[i] == line[i]
    {
      CellBytes(line[i], color);
    }
  }

  // ---------- formats with at most one conversion ----------

  /** A text without percent signs prints as it is. */
  lemma {:induction false} PlainPrintsItself(s: seq<byte>, slots: seq<Slot>, address: nat)
    requires PERCENT !in s && address + 4 * |slots| < 0x1_0000_0000
    ensures Slots(Parse(s)) == 0 && Render(Parse(s), slots, address) == s
    decreases |s|
  {
    if s != [] {
      PlainPrintsItself(s[1..], slots, address);
      LiteralFirst(s, slots, address);
      assert s == [s[0]] + s[1..];
    }
  }

  lemma {:induction false} LiteralFirst(s: seq<byte>, slots: seq<Slot>, address: nat)
    requires s != [] && s[0] != PERCENT && address + 4 * |slots| < 0x1_0000_0000
    requires Slots(Parse(s[1..])) <= |slots|
    ensures Slots(Parse(s)) == Slots(Parse(s[1..]))
    ensures Render(Parse(s), slots, address) == [s[0]] + Render(Parse(s[1..]), slots, address)
  {
    var d, rest := Literal(s[0]), Parse(s[1..]);
    assert Parse(s) == [d] + rest;
    hide Parse;
    SlotsPush(d, rest);
    RenderStep(d, rest, slots, address);
    assert slots[0..] == slots;
  }

  lemma {:induction false} SlotsPush(d: Directive, rest: seq<Directive>)
    ensures Slots([d] + rest) == (if TakesSlot(d) then 1 else 0) + Slots(rest)
  {
    assert ([d] + rest)[1..] == rest;
  }

  /** One conversion between two plain texts prints its argument between them. */
  lemma {:induction false} AroundArgument(before: seq<byte>, c: byte, after: seq<byte>, slot: Slot, address: nat)
    requires PERCENT !in before && PERCENT !in after && c in {LETTER_C, LETTER_S} && address + 4 < 0x1_0000_0000
    ensures var fmt := before + [PERCENT, c] + after;
      && Slots(Parse(fmt)) == 1
      && Render(Parse(fmt), [slot], address) == before + Shown(Conversion(c), [slot], address) + after
    decreases |before|
  {
    if before == [] {
      ConversionFirst(c, after, slot, address);
      assert before + [PERCENT, c] + after == [PERCENT, c] + after;
      hide Parse, Render, Slots, Shown;
      assert before + Shown(Conversion(c), [slot], address) + after == Shown(Conversion(c), [slot], address) + after;
    } else {
      assert PERCENT !in before[1..];
      hide *;
      AroundArgument(before[1..], c, after, slot, address);
      AroundStep(before, c, after, slot, address);
    }
  }

  lemma {:induction false} AroundStep(before: seq<byte>, c: byte, after: seq<byte>, slot: Slot, address: nat)
    requires before != [] && PERCENT !in before && c in {LETTER_C, LETTER_S} && address + 4 < 0x1_0000_0000
    requires var fmt := before[1..] + [PERCENT, c] + after;
      && Slots(Parse(fmt)) == 1
      && Render(Parse(fmt), [slot], address) == before[1..] + Shown(Conversion(c), [slot], address) + after
    ensures var fmt := before + [PERCENT, c] + after;
      && Slots(Parse(fmt)) == 1
      && Render(Parse(fmt), [slot], address) == before + Shown(Conversion(c), [slot], address) + after
  {
    var fmt, shown := before + [PERCENT, c] + after, Shown(Conversion(c), [slot], address);
    hide *;
    FirstOfFour(before, [PERCENT, c], after);
    FirstOfFour(before, shown, after);
    LiteralFirst(fmt, [slot], address);
  }

  lemma FirstOfFour(a: seq<byte>, b: seq<byte>, c: seq<byte>)
    requires a != []
    ensures (a + b + c)[0] == a[0] && (a + b + c)[1..] == a[1..] + b + c
    ensures [a[0]] + (a[1..] + b + c) == a + b + c
  {
  }

  lemma {:induction false} ConversionFirst(c: byte, after: seq<byte>, slot: Slot, address: nat)
    requires PERCENT !in after && c in {LETTER_C, LETTER_S} && address + 4 < 0x1_0000_0000
    ensures var fmt := [PERCENT, c] + after;
      && Slots(Parse(fmt)) == 1
      && Render(Parse(fmt), [slot], address) == Shown(Conversion(c), [slot], address) + after
  {
    var fmt, d := [PERCENT, c] + after, Conversion(c);
    assert fmt[1..] == [c] + after && AfterLength(fmt[1..]) == fmt[1..] && fmt[1..][1..] == after;
    assert Parse(fmt) == [d] + Parse(after);
    PlainPrintsItself(after, [], address + 4);
    hide Parse;
    SlotsPush(d, Parse(after));
    RenderStep(d, Parse(after), [slot], address);
    assert [slot][1..] == [];
  }

  // ---------- printing them ----------

  method PrintPlain(screen: Screen, text: string)
    requires screen.Valid() && IsPlain(text)
    modifies screen, screen.buffer
    ensures screen.Valid() && screen.color == old(screen.color) && screen.base == old(screen.base)
    ensures screen.log == old(screen.log) + Colored(Ascii(text), screen.color)
  {
    AsciiIsPlain(text);
    PlainPrintsItself(Ascii(text), [], FRAME);
    hide *;
    var used := Print(screen, Ascii(text), [], FRAME);
  }

  /** A message with a string between two plain texts: the string appears as it is,
      whatever percent signs it has. */
  method PrintAround(screen: Screen, before: string, arg: seq<byte>, after: string)
    requires screen.Valid() && IsPlain(before) && IsPlain(after)
    modifies screen, screen.buffer
    ensures screen.Valid() && screen.color == old(screen.color) && screen.base == old(screen.base)
    ensures screen.log == old(screen.log) + Colored(Ascii(before) + arg + Ascii(after), screen.color)
  {
    AsciiIsPlain(before);
    AsciiIsPlain(after);
    AroundArgument(Ascii(before), LETTER_S, Ascii(after), Slot(0, arg), FRAME);
    assert Shown(Conversion(LETTER_S), [Slot(0, arg)], FRAME) == arg;
    hide Layout, Window, Ascii, Parse, Render, Slots, Colored, Shown;
    var used := Print(screen, Ascii(before) + [PERCENT, LETTER_S] + Ascii(after), [Slot(0, arg)], FRAME);
  }

  method PrintChar(screen: Screen, c: byte)
    requires screen.Valid()
    modifies screen, screen.buffer
    ensures screen.Valid() && screen.color == old(screen.color) && screen.base == old(screen.base)
    ensures screen.log == old(screen.log) + Colored([c], screen.color)
  {
    AroundArgument([], LETTER_C, [], Slot(c, []), FRAME);
    assert Shown(Conversion(LETTER_C), [Slot(c, [])], FRAME) == [c];
    assert [] + [PERCENT, LETTER_C] + [] == [PERCENT, LETTER_C] && [] + [c] + [] == [c];
    hide Layout, Window, Parse, Render, Slots, Colored, Shown;
    var used := Print(screen, [PERCENT, LETTER_C], [Slot(c, [])], FRAME);
  }

  method ShowEvent(screen: Screen, e: Event)
    requires screen.Valid()
    modifies screen, screen.buffer
    ensures screen.Valid() && screen.color == old(screen.color) && screen.base == old(screen.base)
    ensures screen.log == old(screen.log) + Colored(EventText(e), screen.color)
  {
    PlainMessages();
    hide Layout, Window, Ascii, IsPlain, Colored;
    match e {
      case Typed(c) => PrintChar(screen, c);
      case Overflow => PrintPlain(screen, OVERFLOW);
      case Argument(line) => PrintAround(screen, LINE_BREAK, line, LINE_BREAK);
      case Contents(text) => PrintAround(screen, CONTENTS, text, LINE_BREAK);
      case Greeting => PrintPlain(screen, GREETING);
      case Commands => ShowCommands(screen);
      case AskArgument => PrintPlain(screen, ASK_ARGUMENT);
      case Unrecognized(line) => PrintAround(screen, UNRECOGNIZED, line, LINE_BREAK);
      case Prompt => PrintPlain(screen, PROMPT);
    }
  }

  method ShowCommands(screen: Screen)
    requires screen.Valid()
    modifies screen, screen.buffer
    ensures screen.Valid() && screen.color == old(screen.color) && screen.base == old(screen.base)
    ensures screen.log == old(screen.log) + Colored(EventText(Shell.Commands), screen.color)
  {
    PlainCommands();
    hide Layout, Window, Ascii, IsPlain, Colored;
    ghost var log, color := screen.log, screen.color;
    PrintPlain(screen, COMMANDS);
    PrintPlain(screen, COMMAND_HELLO);
    ColoredAppends(log, Ascii(COMMANDS), Ascii(COMMAND_HELLO), color);
    PrintPlain(screen, COMMAND_ECHO);
    ColoredAppends(log, Ascii(COMMANDS) + Ascii(COMMAND_HELLO), Ascii(COMMAND_ECHO), color);
    PrintPlain(screen, COMMAND_READ);
    ColoredAppends(log, Ascii(COMMANDS) + Ascii(COMMAND_HELLO) + Ascii(COMMAND_ECHO), Ascii(COMMAND_READ), color);
  }

  method ShowEvents(screen: Screen, events: seq<Event>)
    requires screen.Valid()
    modifies screen, screen.buffer
    ensures screen.Valid() && screen.color == old(screen.color) && screen.base == old(screen.base)
    ensures screen.log == old(screen.log) + Colored(EventsText(events), screen.color)
  {
    hide Layout, Window, Colored, EventText;
    ghost var log, color := screen.log, screen.color;
    NothingColored(log, color);
    assert events[..0] == [];
    var i := 0;
    while i < |events|
      invariant 0 <= i <= |events|
      invariant screen.Valid() && screen.color == color && screen.base == old(screen.base)
      invariant screen.log == log + Colored(EventsText(events[..i]), color)
    {
      ShowEvent(screen, events[i]);
      ColoredAppends(log, EventsText(events[..i]), EventText(events[i]), color);
      assert events[..i + 1][..i] == events[..i];
      i := i + 1;
    }
    assert events[..|events|] == events;
  }

  method ShowNotice(screen: Screen, n: Notice)
    requires screen.Valid()
    modifies screen, screen.buffer
    ensures screen.Valid() && screen.color == old(screen.color) && screen.base == old(screen.base)
    ensures screen.log == old(screen.log) + Colored(NoticeText(n), screen.color)
  {
    PlainMessages();
    hide Layout, Window, Ascii, IsPlain, Colored;
    match n {
      case Found(name) => PrintAround(screen, FOUND, name, LINE_BREAK);
      case NotFound(name) => PrintAround(screen, NOT_FOUND, name, LINE_BREAK);
      case Shows(text) => PrintAround(screen, CONTENTS, text, LINE_BREAK);
    }
  }

  method ShowNotices(screen: Screen, notices: seq<Notice>)
    requires screen.Valid()
    modifies screen, screen.buffer
    ensures screen.Valid() && screen.color == old(screen.color) && screen.base == old(screen.base)
    ensures screen.log == old(screen.log) + Colored(NoticesText(notices), screen.color)
  {
    hide Layout, Window, Colored, NoticeText;
    ghost var log, color := screen.log, screen.color;
    NothingColored(log, color);
    assert notices[..0] == [];
    var i := 0;
    while i < |notices|
      invariant 0 <= i <= |notices|
      invariant screen.Valid() && screen.color == color && screen.base == old(screen.base)
      invariant screen.log == log + Colored(NoticesText(notices[..i]), color)
    {
      ShowNotice(screen, notices[i]);
      ColoredAppends(log, NoticesText(notices[..i]), NoticeText(notices[i]), color);
      assert notices[..i + 1][..i] == notices[..i];
      i := i + 1;
    }
    assert notices[..|notices|] == notices;
  }

  /** Texts shown one after the other. */
  lemma {:induction false} EventsTextJoin(a: seq<Event>, b: seq<Event>)
    ensures EventsText(a + b) == EventsText(a) + EventsText(b)
    decreases |b|
  {
    if b == [] {
      assert a + b == a && EventsText(a) + [] == EventsText(a);
    } else {
      hide *;
      var init, e := b[..|b| - 1], b[|b| - 1];
      LastEvent(a, b);
      EventsTextJoin(a, init);
      EventsTextPush(init, e);
      EventsTextPush(a + init, e);
      Associate(EventsText(a), EventsText(init), EventText(e));
    }
  }

  lemma LastEvent(a: seq<Event>, b: seq<Event>)
    requires b != []
    ensures var init, e := b[..|b| - 1], b[|b| - 1]; b == init + [e] && a + b == a + init + [e]
  {
  }

  lemma Associate(a: seq<byte>, b: seq<byte>, c: seq<byte>)
    ensures a + (b + c) == a + b + c
  {
  }

  lemma {:induction false} EventsTextPush(events: seq<Event>, e: Event)
    ensures EventsText(events + [e]) == EventsText(events) + EventText(e)
  {
    hide EventText;
    assert (events + [e])[..|events|] == events;
  }
}
