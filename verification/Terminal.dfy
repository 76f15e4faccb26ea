/**
 The text terminal: an 80 by 25 array that scrolls in place, and the unbounded page it
 is a window on.
 */
module Terminal {
  import opened Bytes

  const WIDTH := 80
  const HEIGHT := 25
  const CELLS := 2000
  const NEWLINE: byte := 0x0A
  const SPACE: byte := 0x20
  const BLACK := 0
  const BLUE := 1
  const LIGHT_GREY := 7
  const WHITE := 15
  const LIGHT_GREY_ON_BLACK: byte := VgaEntryColor(LIGHT_GREY, BLACK)
  const WHITE_ON_BLUE: byte := VgaEntryColor(WHITE, BLUE)

  /** A colour: the character's in the low four bits, the background's above them. */
  function VgaEntryColor(fg: nat, bg: nat): byte
    requires fg < 16 && bg < 16
  {
    fg + 0x10 * bg
  }

  function VgaEntry(c: byte, color: byte): word {
    c as int + 0x100 * color as int
  }

  function Blank(color: byte): word {
    VgaEntry(SPACE, color)
  }

  function BlankRow(color: byte): (cells: seq<word>)
    ensures |cells| == WIDTH && forall x :: 0 <= x < WIDTH ==> cells[x] == Blank(color)
  {
    seq(WIDTH, _ => Blank(color))
  }

  // ---------- the page ----------

  /** A character as it was put, with the colour set at the time. */
  datatype Glyph = Glyph(c: byte, color: byte)

  /** A row: its cells so far, and the colour current when it was opened. */
  datatype Row = Row(cells: seq<word>, color: byte)

  function Cells(text: seq<Glyph>): (cells: seq<word>)
    ensures |cells| == |text|
  {
    seq(|text|, i requires 0 <= i < |text| => VgaEntry(text[i].c, text[i].color))
  }

  /** How many characters the first row takes: up to a newline or the width. */
  function RowLength(text: seq<Glyph>, room: nat): (k: nat)
    ensures k <= room && k <= |text|
    ensures forall i :: 0 <= i < k ==> text[i].c != NEWLINE
    ensures k < room && k < |text| ==> text[k].c == NEWLINE
  {
    if room == 0 || text == [] || text[0].c == NEWLINE then 0 else 1 + RowLength(text[1..], room - 1)
  }

  /** The page of a text: broken at newlines, and wrapped as soon as a row is full. */
  function Layout(text: seq<Glyph>, color: byte): (page: seq<Row>)
    ensures |page| > 0 && |page[|page| - 1].cells| < WIDTH
    ensures forall r :: 0 <= r < |page| ==> |page[r].cells| <= WIDTH
    decreases |text|
  {
    var k := RowLength(text, WIDTH);
    var row := Row(Cells(text[..k]), color);
    if k == WIDTH then [row] + Layout(text[k..], text[k - 1].color)
    else if k == |text| then [row]
    else [row] + Layout(text[k + 1..], text[k].color)
  }

  /** What one more character does to a page. */
  function Append(page: seq<Row>, g: Glyph): seq<Row>
    requires |page| > 0
  {
    var n := |page| - 1;
    if g.c == NEWLINE then page + [Row([], g.color)]
    else
      var row := Row(page[n].cells + [VgaEntry(g.c, g.color)], page[n].color);
      page[..n] + [row] + if |row.cells| == WIDTH then [Row([], g.color)] else []
  }

  lemma {:induction false} LayoutAppends(text: seq<Glyph>, color: byte, g: Glyph)
    ensures Layout(text + [g], color) == Append(Layout(text, color), g)
    decreases |text|
  {
    hide *;
    RowLengthFits(text);
    var k := RowLength(text, WIDTH);
    RowLengthAppend(text, WIDTH, g);
    if k < |text| || k == WIDTH {
      var skip := if k == WIDTH then k else k + 1;
      SlicesAppend(text, g, k, skip);
      LayoutStep(text, color);
      LayoutStep(text + [g], color);
      LayoutAppends(text[skip..], text[skip - 1].color, g);
      AppendBehind(Row(Cells(text[..k]), color), Layout(text[skip..], text[skip - 1].color), g);
    } else {
      LastRowAppends(text, color, g);
    }
  }

  lemma {:induction false} RowLengthFits(text: seq<Glyph>)
    ensures 0 < WIDTH && RowLength(text, WIDTH) <= WIDTH && RowLength(text, WIDTH) <= |text|
  {
  }

  lemma SlicesAppend(text: seq<Glyph>, g: Glyph, k: nat, skip: nat)
    requires k <= skip <= |text|
    ensures (text + [g])[..k] == text[..k] && (text + [g])[skip..] == text[skip..] + [g]
  {
  }

  /** The first row and what follows it. */
  lemma LayoutStep(text: seq<Glyph>, color: byte)
    requires RowLength(text, WIDTH) == WIDTH || RowLength(text, WIDTH) < |text|
    ensures var k := RowLength(text, WIDTH);
      var skip := if k == WIDTH then k else k + 1;
      Layout(text, color) == [Row(Cells(text[..k]), color)] + Layout(text[skip..], text[skip - 1].color)
  {
  }

  lemma AppendBehind(row: Row, page: seq<Row>, g: Glyph)
    requires |page| > 0
    ensures Append([row] + page, g) == [row] + Append(page, g)
  {
  }

  lemma {:induction false} RowLengthAppend(text: seq<Glyph>, room: nat, g: Glyph)
    ensures var k := RowLength(text, room);
      RowLength(text + [g], room) == if k == |text| && k < room && g.c != NEWLINE then k + 1 else k
  {
    if room > 0 && text != [] {
      assert (text + [g])[1..] == text[1..] + [g];
      RowLengthAppend(text[1..], room - 1, g);
    }
  }

  /** The case of a text that is one row. */
  lemma {:induction false} LastRowAppends(text: seq<Glyph>, color: byte, g: Glyph)
    requires RowLength(text, WIDTH) == |text| < WIDTH
    ensures Layout(text + [g], color) == Append(Layout(text, color), g)
  {
    RowLengthAppend(text, WIDTH, g);
    var all, n := text + [g], |text|;
    assert text[..n] == text && all[..n] == text && all[..n + 1] == all && all[n + 1..] == [];
    assert Cells(all) == Cells(text) + [VgaEntry(g.c, g.color)];
    assert Layout([], g.color) == [Row([], g.color)];
    assert Layout(text, color) == [Row(Cells(text), color)];
  }

  // ---------- nothing is lost ----------

  function Printed(text: seq<Glyph>): seq<word> {
    if text == [] then []
    else
      var g := text[|text| - 1];
      Printed(text[..|text| - 1]) + (if g.c == NEWLINE then [] else [VgaEntry(g.c, g.color)])
  }

  function AllCells(page: seq<Row>): seq<word> {
    if page == [] then [] else AllCells(page[..|page| - 1]) + page[|page| - 1].cells
  }

  /** Read in order, the rows of the page are the printing characters of the text. */
  lemma {:induction false} PageKeepsText(text: seq<Glyph>, color: byte)
    ensures AllCells(Layout(text, color)) == Printed(text)
  {
    if text == [] {
      assert Layout([], color) == [Row([], color)];
      assert AllCells([Row([], color)]) == AllCells([]) + [];
    } else {
      hide *;
      var init, g := text[..|text| - 1], text[|text| - 1];
      PageKeepsText(init, color);
      LayoutAppends(init, color, g);
      LastGlyph(text);
      PageIsNotEmpty(init, color);
      AppendedCells(Layout(init, color), g);
    }
  }

  lemma {:induction false} PageIsNotEmpty(text: seq<Glyph>, color: byte)
    ensures |Layout(text, color)| > 0
  {
  }

  lemma LastGlyph(text: seq<Glyph>)
    requires text != []
    ensures var init, g := text[..|text| - 1], text[|text| - 1];
      && text == init + [g]
      && Printed(text) == Printed(init) + if g.c == NEWLINE then [] else [VgaEntry(g.c, g.color)]
  {
  }

  lemma {:induction false} AllCellsPush(page: seq<Row>, row: Row)
    ensures AllCells(page + [row]) == AllCells(page) + row.cells
  {
    assert (page + [row])[..|page|] == page;
  }

  lemma {:induction false} AppendedCells(page: seq<Row>, g: Glyph)
    requires |page| > 0
    ensures AllCells(Append(page, g)) == AllCells(page) + if g.c == NEWLINE then [] else [VgaEntry(g.c, g.color)]
  {
    var newRow := Row([], g.color);
    if g.c == NEWLINE {
      AllCellsPush(page, newRow);
    } else {
      var init, last, cell := page[..|page| - 1], page[|page| - 1], VgaEntry(g.c, g.color);
      var row := Row(last.cells + [cell], last.color);
      LastRow(page);
      hide AllCells;
      AllCellsPush(init, last);
      AllCellsPush(init, row);
      JoinCells(AllCells(init), last.cells, cell);
      if |row.cells| == WIDTH {
        AllCellsPush(init + [row], newRow);
        assert AllCells(init + [row]) + [] == AllCells(init + [row]);
      } else {
        assert init + [row] + [] == init + [row];
      }
    }
  }

  lemma LastRow(page: seq<Row>)
    requires |page| > 0
    ensures page == page[..|page| - 1] + [page[|page| - 1]]
  {
  }

  lemma JoinCells(a: seq<word>, b: seq<word>, cell: word)
    ensures a + (b + [cell]) == a + b + [cell]
  {
  }

  /** What the cells of a row are made of: the characters' codes and their colours. */
  function LowBytes(cells: seq<word>): (b: seq<byte>)
    ensures |b| == |cells|
  {
    seq(|cells|, i requires 0 <= i < |cells| => cells[i] as int % 256)
  }

  function HighBytes(cells: seq<word>): (b: seq<byte>)
    ensures |b| == |cells|
  {
    seq(|cells|, i requires 0 <= i < |cells| => cells[i] as int / 256)
  }

  /** The characters of a text that print: all but the newlines. */
  function Visible(text: seq<Glyph>): seq<Glyph> {
    if text == [] then []
    else Visible(text[..|text| - 1]) + (if text[|text| - 1].c == 10 then [] else [text[|text| - 1]])
  }

  /** Over the whole page: the low bytes of the cells, in order, are the characters of the
      text that print, and the high bytes the colours set when they were put. */
  lemma {:induction false} PageShowsText(text: seq<Glyph>, color: byte)
    ensures var cells, shown := AllCells(Layout(text, color)), Visible(text);
      && |cells| == |shown|
      && forall i :: 0 <= i < |cells| ==>
           LowBytes(cells)[i] == shown[i].c && HighBytes(cells)[i] == shown[i].color
  {
    hide *;
    PageKeepsText(text, color);
    PrintedIsVisible(text);
  }

  lemma {:induction false} PrintedIsVisible(text: seq<Glyph>)
    ensures var cells, shown := Printed(text), Visible(text);
      && |cells| == |shown|
      && forall i :: 0 <= i < |cells| ==>
           LowBytes(cells)[i] == shown[i].c && HighBytes(cells)[i] == shown[i].color
  {
    if text != [] {
      PrintedIsVisible(text[..|text| - 1]);
      CellBytes(text[|text| - 1].c, text[|text| - 1].color);
      hide VgaEntry;
    }
  }

  lemma CellBytes(c: byte, color: byte)
    ensures VgaEntry(c, color) as int % 256 == c && VgaEntry(c, color) as int / 256 == color
  {
  }

  // ---------- the window ----------

  /** The first page row that is still visible. */
  function Top(page: seq<Row>): nat {
    if |page| > HEIGHT then |page| - HEIGHT else 0
  }

  /** Cell x of page row r: its character, or a blank. A blank is in the colour the
      screen was cleared with, except in rows that came in by scrolling, where it is in
      the colour of the character that opened the row. */
  function CellAt(page: seq<Row>, base: byte, r: nat, x: nat): word {
    if r < |page| && x < |page[r].cells| then page[r].cells[x]
    else if HEIGHT <= r < |page| then Blank(page[r].color)
    else Blank(base)
  }

  /** The last 25 rows of the page, blank-padded. */
  function Window(page: seq<Row>, base: byte): (w: seq<word>)
    ensures |w| == CELLS
    ensures forall k :: 0 <= k < CELLS ==> w[k] == CellAt(page, base, Top(page) + k / WIDTH, k % WIDTH)
  {
    seq(CELLS, k requires 0 <= k < CELLS => CellAt(page, base, Top(page) + k / WIDTH, k % WIDTH))
  }

  function CursorRow(page: seq<Row>): nat
    requires |page| > 0
  {
    |page| - 1 - Top(page)
  }

  lemma CursorOnScreen(page: seq<Row>)
    requires |page| > 0
    ensures CursorRow(page) < HEIGHT
  {
  }

  lemma SameCursor(page: seq<Row>, other: seq<Row>)
    requires |page| == |other| > 0
    ensures CursorRow(page) == CursorRow(other)
  {
  }

  /** Opening a row below the screen scrolls the window; otherwise it shows nothing. */
  lemma WindowOfNewRow(page: seq<Row>, base: byte, color: byte)
    requires |page| > 0
    ensures var w, v := Window(page, base), Window(page + [Row([], color)], base);
      if |page| < HEIGHT then v == w
      else v == w[WIDTH..] + BlankRow(color)
  {
    var longer := page + [Row([], color)];
    var w, v := Window(page, base), Window(longer, base);
    if |page| < HEIGHT {
      forall k | 0 <= k < CELLS
        ensures v[k] == w[k]
      {
        assert CellAt(longer, base, k / WIDTH, k % WIDTH) == CellAt(page, base, k / WIDTH, k % WIDTH);
      }
    } else {
      forall k | 0 <= k < CELLS - WIDTH
        ensures v[k] == w[k + WIDTH]
      {
        assert (k + WIDTH) / WIDTH == k / WIDTH + 1 && (k + WIDTH) % WIDTH == k % WIDTH;
      }
      forall k | CELLS - WIDTH <= k < CELLS
        ensures v[k] == Blank(color)
      {
        assert k / WIDTH == HEIGHT - 1;
      }
    }
  }

  /** A character in the last row is one cell of the window. */
  lemma WindowOfCharacter(page: seq<Row>, base: byte, cell: word)
    requires |page| > 0 && |page[|page| - 1].cells| < WIDTH
    ensures var n := |page| - 1;
      var x := |page[n].cells|;
      Window(page[..n] + [Row(page[n].cells + [cell], page[n].color)], base)
        == Window(page, base)[CursorRow(page) * WIDTH + x := cell]
  {
    var n := |page| - 1;
    var x, cursor := |page[n].cells|, CursorRow(page);
    var longer := page[..n] + [Row(page[n].cells + [cell], page[n].color)];
    var w, v := Window(page, base), Window(longer, base);
    forall k | 0 <= k < CELLS
      ensures v[k] == w[cursor * WIDTH + x := cell][k]
    {
      assert k == k / WIDTH * WIDTH + k % WIDTH;
      assert k == cursor * WIDTH + x <==> k / WIDTH == cursor && k % WIDTH == x;
    }
  }

  // ---------- the terminal ----------

  class Screen {
    var row: nat
    var column: nat
    var color: byte
    const buffer: array<word>

    ghost var log: seq<Glyph>
    ghost var base: byte

    ghost predicate Valid()
      reads this, buffer
    {
      var page := Layout(log, base);
      && buffer.Length == CELLS
      && buffer[..] == Window(page, base)
      && row == CursorRow(page) < HEIGHT && column == |page[|page| - 1].cells| < WIDTH
    }

    constructor ()
      ensures Valid() && fresh(buffer) && log == [] && color == LIGHT_GREY_ON_BLACK
    {
      buffer := new word[CELLS];
      new;
      Initialize();
    }

    method Clear(newColor: byte)
      requires buffer.Length == CELLS
      modifies this, buffer
      ensures Valid() && log == [] && base == color == newColor && row == column == 0
      ensures forall k :: 0 <= k < CELLS ==> buffer[k] == Blank(newColor)
    {
      row := 0;
      column := 0;
      color := newColor;
      var y := 0;
      while y < HEIGHT
        invariant 0 <= y <= HEIGHT && row == column == 0 && color == newColor
        invariant forall k :: 0 <= k < y * WIDTH ==> buffer[k] == Blank(color)
      {
        var x := 0;
        while x < WIDTH
          invariant 0 <= x <= WIDTH && row == column == 0 && color == newColor
          invariant forall k :: 0 <= k < y * WIDTH + x ==> buffer[k] == Blank(color)
        {
          buffer[y * WIDTH + x] := Blank(color);
          x := x + 1;
        }
        y := y + 1;
      }
      log, base := [], newColor;
      assert Layout([], newColor) == [Row([], newColor)];
    }

    method Initialize()
      requires buffer.Length == CELLS
      modifies this, buffer
      ensures Valid() && log == [] && base == color == LIGHT_GREY_ON_BLACK && row == column == 0
      ensures forall k :: 0 <= k < 2000 ==> buffer[k] == 0x0720
    {
      Clear(LIGHT_GREY_ON_BLACK);
    }

    method BsodInitialize()
      requires buffer.Length == CELLS
      modifies this, buffer
      ensures Valid() && log == [] && base == color == WHITE_ON_BLUE && row == column == 0
      ensures forall k :: 0 <= k < 2000 ==> buffer[k] == 0x1F20
    {
      Clear(WHITE_ON_BLUE);
    }

    method SetColor(newColor: byte)
      requires Valid()
      modifies `color
      ensures Valid() && color == newColor
    {
      color := newColor;
    }

    method PutEntryAt(c: byte, entryColor: byte, x: nat, y: nat)
      requires buffer.Length == CELLS && x < WIDTH && y < HEIGHT
      modifies buffer
      ensures buffer[..] == old(buffer[..])[y * WIDTH + x := VgaEntry(c, entryColor)]
    {
      var index := y * WIDTH + x;
      buffer[index] := VgaEntry(c, entryColor);
    }

    /** Moves every row up by one, in place, and blanks the last. */
    method Scroll()
      requires buffer.Length == CELLS
      modifies buffer
      ensures buffer[..] == old(buffer[..])[WIDTH..] + BlankRow(color)
      ensures forall k :: 1920 <= k < 2000 ==> buffer[k] as int % 256 == 32 && buffer[k] as int / 256 == color
    {
      CellBytes(SPACE, color);
      ghost var before := buffer[..];
      var y := 0;
      while y < HEIGHT - 1
        invariant 0 <= y <= HEIGHT - 1
        invariant forall k :: 0 <= k < y * WIDTH ==> buffer[k] == before[k + WIDTH]
        invariant forall k :: y * WIDTH <= k < CELLS ==> buffer[k] == before[k]
      {
        var x := 0;
        while x < WIDTH
          invariant 0 <= x <= WIDTH
          invariant forall k :: 0 <= k < y * WIDTH + x ==> buffer[k] == before[k + WIDTH]
          invariant forall k :: y * WIDTH + x <= k < CELLS ==> buffer[k] == before[k]
        {
          buffer[y * WIDTH + x] := buffer[(y + 1) * WIDTH + x];
          x := x + 1;
        }
        y := y + 1;
      }
      var lastRow := HEIGHT - 1;
      var x := 0;
      while x < WIDTH
        invariant 0 <= x <= WIDTH
        invariant forall k :: 0 <= k < lastRow * WIDTH ==> buffer[k] == before[k + WIDTH]
        invariant forall k :: lastRow * WIDTH <= k < lastRow * WIDTH + x ==> buffer[k] == Blank(color)
      {
        buffer[lastRow * WIDTH + x] := Blank(color);
        x := x + 1;
      }
      assert buffer[..] == before[WIDTH..] + BlankRow(color);
    }

    /** Moves the cursor to the start of the next row, scrolling at the bottom. */
    method NextRow(ghost page: seq<Row>)
      requires buffer.Length == CELLS && |page| > 0
      requires buffer[..] == Window(page, base) && row == CursorRow(page)
      modifies `row, `column, buffer
      ensures buffer[..] == Window(page + [Row([], color)], base)
      ensures row == CursorRow(page + [Row([], color)]) && column == 0
      ensures row == if old(row) < 24 then old(row) + 1 else 24
    {
      WindowOfNewRow(page, base, color);
      hide Window;
      column := 0;
      row := row + 1;
      if row >= HEIGHT {
        row := HEIGHT - 1;
        Scroll();
      }
    }

    /** Puts one character; the window follows the page. */
    method PutChar(c: byte)
      requires Valid()
      modifies this, buffer
      ensures Valid() && color == old(color) && base == old(base)
      ensures log == old(log) + [Glyph(c, color)]
      ensures c != 10 && old(column) < 79 ==>
        && row == old(row) && column == old(column) + 1
        && buffer[old(row) * 80 + old(column)] as int % 256 == c
        && buffer[old(row) * 80 + old(column)] as int / 256 == color
      ensures c == 10 || old(column) == 79 ==> column == 0 && row == if old(row) < 24 then old(row) + 1 else 24
    {
      ghost var page, g := Layout(log, base), Glyph(c, color);
      ghost var n := |page| - 1;
      LayoutAppends(log, base, g);
      hide Layout, Window, CursorRow;
      CursorOnScreen(page);
      if c == NEWLINE {
        NextRow(page);
        CursorOnScreen(page + [Row([], color)]);
      } else {
        ghost var longer := page[..n] + [Row(page[n].cells + [VgaEntry(c, color)], page[n].color)];
        WindowOfCharacter(page, base, VgaEntry(c, color));
        SameCursor(page, longer);
        CellBytes(c, color);
        PutEntryAt(c, color, column, row);
        column := column + 1;
        if column == WIDTH {
          NextRow(longer);
          CursorOnScreen(longer + [Row([], color)]);
        } else {
          assert longer + [] == longer;
        }
      }
      log := log + [g];
    }

    /** Puts each byte of a string. */
    method Write(data: seq<byte>)
      requires Valid()
      modifies this, buffer
      ensures Valid() && color == old(color) && base == old(base)
      ensures log == old(log) + Colored(data, color)
    {
      var i := 0;
      while i < |data|
        invariant 0 <= i <= |data|
        invariant Valid() && color == old(color) && base == old(base)
        invariant log == old(log) + Colored(data[..i], color)
      {
        assert Colored(data[..i + 1], color) == Colored(data[..i], color) + [Glyph(data[i], color)];
        PutChar(data[i]);
        i := i + 1;
      }
      assert data[..|data|] == data;
    }
  }

  function Colored(data: seq<byte>, color: byte): (text: seq<Glyph>)
    ensures |text| == |data|
  {
    seq(|data|, i requires 0 <= i < |data| => Glyph(data[i], color))
  }
}
