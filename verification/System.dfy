/** The kernel's main routine: the files it makes at startup, and then the keyboard, the
    command loop, the file system and the drive together. */
module System {
  import opened Bytes
  import opened Strings
  import opened AtaDevice
  import opened VdSpec
  import opened VdFs
  import opened AtaDriver
  import opened AtaSectors
  import opened DriveTable
  import opened Terminal
  import opened Messages
  import Printf
  import Keyboard
  import Shell

  const TEST_NAME: seq<byte> := [0x54, 0x45, 0x53, 0x54, 0x2E, 0x54, 0x58, 0x54]
  const LOL_NAME: seq<byte> := [0x4C, 0x4F, 0x4C, 0x2E, 0x54, 0x58, 0x54]
  const TEST_TEXT: seq<byte> :=
    ['H' as int, 'e' as int, 'l' as int, 'l' as int, 'o' as int, ' ' as int, 'w' as int, 'o' as int, 'r' as int,
     'l' as int, 'd' as int, ' ' as int, 'f' as int, 'r' as int, 'o' as int, 'm' as int, ' ' as int, 'a' as int,
     ' ' as int, 'f' as int, 'i' as int, 'l' as int, 'e' as int, '!' as int, '!' as int, '!' as int, '!' as int,
     '!' as int]
  const LOL_TEXT: seq<byte> :=
    ['A' as int, 'n' as int, 'o' as int, 't' as int, 'h' as int, 'e' as int, 'r' as int, ' ' as int, 't' as int,
     'e' as int, 'x' as int, 't' as int, ' ' as int, 'f' as int, 'i' as int, 'l' as int, 'e' as int, '!' as int,
     '!' as int, '!' as int, '!' as int, '!' as int, '!' as int, '!' as int, '!' as int, '!' as int, '!' as int,
     '!' as int, '!' as int]

  /** The two files, with whatever the name field holds behind the terminator. */
  ghost predicate StartupFiles(files: seq<Entry>) {
    && |files| == 2 && ValidEntry(files[0]) && ValidEntry(files[1])
    && Name(files[0]) == TEST_NAME && Name(files[1]) == LOL_NAME
    && files[0].firstSector == 1 && files[1].firstSector == 3
    && files[0].position == 0 && files[1].position == 1
    && files[0].attributes == files[1].attributes == files[0].isDirectory == files[1].isDirectory == 0
  }

  const STARTUP: seq<Op> := [Create(0), Create(1), Store(0, TEST_TEXT), Store(1, LOL_TEXT)]

  lemma Texts()
    ensures 0 !in TEST_NAME && 0 !in LOL_NAME && 0 !in TEST_TEXT && 0 !in LOL_TEXT
    ensures TEST_NAME != LOL_NAME && TEST_NAME != [] && LOL_NAME != [] && NULL_NAME != LOL_NAME
    ensures |TEST_NAME| == 8 && |LOL_NAME| == 7 && |TEST_TEXT| < |LOL_TEXT| < SECTOR_SIZE
  {
  }

  lemma StartupIsAdmissible(files: seq<Entry>, disk: Media)
    requires StartupFiles(files) && {1, 2, 3, 4} <= disk.Keys
    ensures Separate(files, disk)
    ensures forall n :: 0 <= n <= |STARTUP| ==> Admissible(files, STARTUP[..n])
  {
    Texts();
    hide HasString, CString;
  }

  ghost predicate RunnableOn(files: seq<Entry>, s: State) {
    StartupFiles(files) && Blank(s)
  }

  /** No entries yet, and a drive that has the sectors used. */
  ghost predicate Blank(s: State) {
    s.entries == seq(TABLE_SIZE, _ => EMPTY) && {1, 2, 3, 4} <= s.disk.Keys
  }

  /** The state after the first n of the four writes. */
  ghost function Stage(files: seq<Entry>, s: State, n: nat): (t: State)
    requires RunnableOn(files, s) && n <= 4
    ensures ValidTable(t.entries)
  {
    EmptyHasNoName();
    StartupIsAdmissible(files, s.disk);
    Run(files, s, STARTUP[..n])
  }

  lemma StageStep(files: seq<Entry>, s: State)
    requires RunnableOn(files, s)
    ensures Stage(files, s, 0) == s
    ensures Stage(files, s, 1) == WriteEntry(s, files[0])
    ensures Stage(files, s, 2) == WriteEntry(Stage(files, s, 1), files[1])
    ensures Stage(files, s, 3) == WriteText(Stage(files, s, 2), TEST_TEXT, files[0])
    ensures Stage(files, s, 4) == WriteText(Stage(files, s, 3), LOL_TEXT, files[1])
  {
    hide Stage, WriteEntry, WriteText, TEST_TEXT, LOL_TEXT;
    StageNext(files, s, 1);
    StageNext(files, s, 2);
    StageNext(files, s, 3);
    StageNext(files, s, 4);
    StageStart(files, s);
  }

  lemma StageStart(files: seq<Entry>, s: State)
    requires RunnableOn(files, s)
    ensures Stage(files, s, 0) == s
  {
  }

  lemma StageNext(files: seq<Entry>, s: State, n: nat)
    requires RunnableOn(files, s) && 0 < n <= 4
    ensures |files| == 2 && STARTUP[n - 1].file < 2
    ensures match STARTUP[n - 1] {
        case Create(j) => ValidEntry(files[j]) && Stage(files, s, n) == WriteEntry(Stage(files, s, n - 1), files[j])
        case Store(j, text) =>
          |text| < SECTOR_SIZE && Stage(files, s, n) == WriteText(Stage(files, s, n - 1), text, files[j])
      }
  {
    StartupIsAdmissible(files, s.disk);
    EmptyHasNoName();
    Texts();
    assert STARTUP[..n][..n - 1] == STARTUP[..n - 1] && STARTUP[..n][n - 1] == STARTUP[n - 1];
    hide WriteEntry, WriteText, Separate, TEST_TEXT, LOL_TEXT, HasString, CString;
  }

  const FIRST_TWO: seq<nat> := [0, 1]

  lemma StartupHistory()
    ensures forall n :: 2 <= n <= 4 ==> Created(STARTUP[..n]) == FIRST_TWO
    ensures LastText(STARTUP[..3], 0) == LastText(STARTUP[..4], 0) == Some(TEST_TEXT)
    ensures LastText(STARTUP[..4], 1) == Some(LOL_TEXT)
  {
    hide Created, LastText;
    HistoryStep(0);
    HistoryStep(1);
    HistoryStep(2);
    HistoryStep(3);
    HistoryStep(4);
    assert [] + [0 as nat] == [0 as nat] && [0 as nat] + [1 as nat] == [0, 1] && [0 as nat, 1] + [] == [0, 1];
  }

  lemma HistoryStep(n: nat)
    requires n <= |STARTUP|
    ensures n == 0 ==> Created(STARTUP[..n]) == []
    ensures n > 0 ==> var op := STARTUP[n - 1];
      && Created(STARTUP[..n]) == Created(STARTUP[..n - 1]) + (if op.Create? then [op.file] else [])
      && (forall j :: LastText(STARTUP[..n], j)
            == if op.Store? && op.file == j then Some(op.text) else LastText(STARTUP[..n - 1], j))
  {
    assert n > 0 ==> STARTUP[..n][..n - 1] == STARTUP[..n - 1];
  }

  /** From the second write on both files are found under their names. */
  lemma FilesAreFound(files: seq<Entry>, s: State, n: nat, j: nat)
    requires RunnableOn(files, s) && 2 <= n <= 4 && j < 2
    ensures var t := Stage(files, s, n);
      var i := Slot(t.entries, Name(files[j])); i < TABLE_SIZE && t.entries[i] == files[j]
  {
    StartupIsAdmissible(files, s.disk);
    StartupHistory();
    RunsAgree(files, s, STARTUP[..n]);
    hide Separate, Agrees, LastText, Created, Run, Slot;
    assert j in FIRST_TWO[..Min(2, TABLE_SIZE)] by { assert FIRST_TWO[..2][j] == j; }
    LookupFindsCreated(files, s.disk, Stage(files, s, n), STARTUP[..n], j);
  }

  /** And once written, their texts. */
  lemma TextsAreRead(files: seq<Entry>, s: State, n: nat, j: nat)
    requires RunnableOn(files, s) && 3 <= n <= 4 && j < n - 2
    ensures var d := DataSector(Stage(files, s, n), Name(files[j]));
      HasString(d) && CString(d) == if j == 0 then TEST_TEXT else LOL_TEXT
  {
    StartupIsAdmissible(files, s.disk);
    StartupHistory();
    hide Separate, Agrees, LastText, Created, Run, Slot, DataSector;
    assert j in FIRST_TWO[..Min(2, TABLE_SIZE)] by { assert FIRST_TWO[..2][j] == j; }
    RunsRefineMap(files, s, STARTUP[..n], j);
  }

  /** Makes the two files, opens them, writes them and reads them back. */
  method Startup(fs: FileSystem) returns (shown: seq<Notice>, ghost files: seq<Entry>)
    requires fs.Valid() && Blank(fs.Abstract())
    modifies fs.ide, fs.entries
    ensures fs.Valid() && RunnableOn(files, old(fs.Abstract())) && fs.Abstract() == Stage(files, old(fs.Abstract()), 4)
    ensures shown == [Found(TEST_NAME), Shows(TEST_TEXT), Found(LOL_NAME), Shows(LOL_TEXT)]
  {
    ghost var s := fs.Abstract();
    hide *;
    files := MakeFiles(fs);
    shown := UseFiles(fs, files, s);
  }

  method UseFiles(fs: FileSystem, ghost files: seq<Entry>, ghost s: State) returns (shown: seq<Notice>)
    requires fs.Valid() && RunnableOn(files, s) && fs.Abstract() == Stage(files, s, 2)
    modifies fs.ide
    ensures fs.Valid() && fs.Abstract() == Stage(files, s, 4)
    ensures shown == [Found(TEST_NAME), Shows(TEST_TEXT), Found(LOL_NAME), Shows(LOL_TEXT)]
  {
    hide *;
    var bofre := ZeroedBuffer();
    var bofreA := ZeroedBuffer();
    var first := UseTest(fs, files, s, bofre, bofreA);
    var second := UseLol(fs, files, s, bofre, bofreA);
    shown := first + second;
  }

  method UseTest(fs: FileSystem, ghost files: seq<Entry>, ghost s: State, bofre: array<byte>, bofreA: array<byte>)
    returns (shown: seq<Notice>)
    requires fs.Valid() && RunnableOn(files, s) && fs.Abstract() == Stage(files, s, 2)
    requires bofre.Length == bofreA.Length == SECTOR_SIZE
    modifies fs.ide, bofre, bofreA
    ensures fs.Valid() && fs.Abstract() == Stage(files, s, 3)
    ensures shown == [Found(TEST_NAME), Shows(TEST_TEXT)]
  {
    hide *;
    Texts();
    FilesAreNamed(files, s);
    StageStep(files, s);
    FilesAreFound(files, s, 2, 0);
    TextsAreRead(files, s, 3, 0);
    Terminated(TEST_NAME);
    var testE := OpenFile(fs, TEST_NAME, files[0]);
    var text := WriteAndRead(fs, testE, TEST_NAME, TEST_TEXT, bofre, bofreA);
    shown := [Found(CString(testE.name)), Shows(text)];
  }

  method UseLol(fs: FileSystem, ghost files: seq<Entry>, ghost s: State, bofre: array<byte>, bofreA: array<byte>)
    returns (shown: seq<Notice>)
    requires fs.Valid() && RunnableOn(files, s) && fs.Abstract() == Stage(files, s, 3)
    requires bofre.Length == bofreA.Length == SECTOR_SIZE
    modifies fs.ide, bofre, bofreA
    ensures fs.Valid() && fs.Abstract() == Stage(files, s, 4)
    ensures shown == [Found(LOL_NAME), Shows(LOL_TEXT)]
  {
    hide *;
    Texts();
    FilesAreNamed(files, s);
    StageStep(files, s);
    FilesAreFound(files, s, 3, 1);
    TextsAreRead(files, s, 4, 1);
    NullText();
    Terminated(LOL_NAME);
    var testE := OpenFile(fs, LOL_NAME, files[1]);
    var isNull := StrCmp(NULL_NAME + [0], testE.name);
    var text := WriteAndRead(fs, testE, LOL_NAME, LOL_TEXT, bofre, bofreA);
    var found := if isNull == 0 && testE.position == NONE then NotFound(LOL_NAME) else Found(CString(testE.name));
    shown := [found, Shows(text)];
  }

  method OpenFile(fs: FileSystem, name: seq<byte>, ghost expected: Entry) returns (e: Entry)
    requires fs.Valid() && 0 !in name
    requires ValidTable(fs.Abstract().entries)
    requires var i := Slot(fs.Abstract().entries, name); i < TABLE_SIZE && fs.Abstract().entries[i] == expected
    ensures e == expected
  {
    Terminated(name);
    hide Slot, CString, HasString, GoodChoice, Chosen, DiskOf, Named;
    e := fs.VdOpen(name + [0]);
  }

  method MakeFiles(fs: FileSystem) returns (ghost files: seq<Entry>)
    requires fs.Valid() && Blank(fs.Abstract())
    modifies fs.ide, fs.entries
    ensures fs.Valid() && RunnableOn(files, old(fs.Abstract())) && fs.Abstract() == Stage(files, old(fs.Abstract()), 2)
  {
    ghost var s := fs.Abstract();
    Texts();
    hide *;
    var name := new byte[VdSpec.NAME_SIZE];
    SetName(name, TEST_NAME);
    var testE := Entry(name[..], 0, 0, 0, 1);
    ghost var test := testE;
    NamedEntry(testE, TEST_NAME);
    var ok := fs.VdWrite(testE);
    SetName(name, LOL_NAME);
    testE := testE.(name := name[..], firstSector := 3, position := 1);
    NamedEntry(testE, LOL_NAME);
    ok := fs.VdWrite(testE);
    files := [test, testE];
    Runnable(files, s);
    StageStep(files, s);
  }

  method SetName(name: array<byte>, text: seq<byte>)
    requires 0 !in text && |text| < name.Length
    modifies name
    ensures HasString(name[..]) && CString(name[..]) == text
  {
    Terminated(text);
    ghost var before := name[..];
    var n := StrCpy(name, text + [0]);
    StringCopied(text, before, name[..]);
  }

  lemma NamedEntry(e: Entry, text: seq<byte>)
    requires |e.name| == VdSpec.NAME_SIZE && HasString(e.name) && CString(e.name) == text
    ensures ValidEntry(e) && Name(e) == text
  {
  }

  lemma Runnable(files: seq<Entry>, s: State)
    requires |files| == 2 && ValidEntry(files[0]) && ValidEntry(files[1])
    requires Name(files[0]) == TEST_NAME && Name(files[1]) == LOL_NAME
    requires files[0].firstSector == 1 && files[1].firstSector == 3
    requires files[0].position == 0 && files[1].position == 1
    requires files[0].attributes == files[1].attributes == files[0].isDirectory == files[1].isDirectory == 0
    requires Blank(s)
    ensures RunnableOn(files, s)
  {
  }

  /** Writes a text to an open file and reads it back by name. */
  method WriteAndRead(
    fs: FileSystem, e: Entry, name: seq<byte>, text: seq<byte>, bofre: array<byte>, bofreA: array<byte>)
    returns (shown: seq<byte>)
    requires fs.Valid() && 0 !in name && 0 !in text && |text| < SECTOR_SIZE
    requires bofre.Length == bofreA.Length == SECTOR_SIZE
    requires var d := DataSector(WriteText(fs.Abstract(), text, e), name); HasString(d) && CString(d) == text
    modifies fs.ide, bofre, bofreA
    ensures fs.Valid() && fs.Abstract() == WriteText(old(fs.Abstract()), text, e)
    ensures shown == text
  {
    hide *;
    Terminated(text);
    Terminated(name);
    var n := StrCpy(bofre, text + [0]);
    StringCopied(text, old(bofre[..]), bofre[..]);
    var ok := fs.VdWriteData(bofre[..], e);
    ghost var before := bofreA[..];
    fs.VdReadData(name + [0], bofreA);
    StringCopied(text, before, bofreA[..]);
    shown := CString(bofreA[..]);
  }

  lemma FilesAreNamed(files: seq<Entry>, s: State)
    requires RunnableOn(files, s)
    ensures |files| == 2 && forall j :: 0 <= j < 2 ==> ValidEntry(files[j]) && HasString(files[j].name)
    ensures files[0].firstSector == 1 && files[1].firstSector == 3
    ensures ValidTable(s.entries) && {1, 2, 3, 4} <= s.disk.Keys
    ensures Name(files[0]) == TEST_NAME == CString(files[0].name)
    ensures Name(files[1]) == LOL_NAME == CString(files[1].name)
  {
    EmptyHasNoName();
  }

  lemma {:induction false} StringCopied(text: seq<byte>, before: seq<byte>, now: seq<byte>)
    requires 0 !in text && |text| < |before| && now == Overwrite(before, 0, text + [0])
    ensures |now| == |before| && HasString(now) && CString(now) == text
  {
    assert now == text + [0] + before[|text| + 1..];
    CStringOfTerminated(text, before[|text| + 1..]);
  }

  // ---------- the session ----------

  /** After startup every name leads to a string, if sector 0 holds one: a name without a
      file reads that sector. */
  lemma StartupIsReadable(files: seq<Entry>, s: State)
    requires RunnableOn(files, s) && HasString(Get(s.disk, 0))
    ensures Shell.Readable(Stage(files, s, 4))
  {
    var t := Stage(files, s, 4);
    StartupTable(files, s);
    TextsAreRead(files, s, 4, 0);
    TextsAreRead(files, s, 4, 1);
    OtherSectors(files, s);
    hide Stage, HasString, CString, EntrySector, Slot, DataSector;
    forall name
      ensures HasString(DataSector(t, name))
    {
      EveryNameIsReadable(files, t, name);
    }
  }

  lemma EveryNameIsReadable(files: seq<Entry>, t: State, name: seq<byte>)
    requires StartupFiles(files) && ValidTable(t.entries)
    requires t.entries == files + seq(TABLE_SIZE - 2, _ => EMPTY)
    requires HasString(DataSector(t, Name(files[0]))) && HasString(DataSector(t, Name(files[1])))
    requires HasString(Get(t.disk, 0)) && HasString(Get(t.disk, 1))
    ensures HasString(DataSector(t, name))
  {
    EmptyHasNoName();
    var i := Slot(t.entries, name);
    hide HasString, CString, EntrySector, Slot, Get;
    if i < 2 {
      assert t.entries[i] == files[i] && Name(files[i]) == name;
    } else if i < TABLE_SIZE {
      assert t.entries[i] == EMPTY;
    }
  }

  lemma StartupTable(files: seq<Entry>, s: State)
    requires RunnableOn(files, s)
    ensures Stage(files, s, 4).entries == files + seq(TABLE_SIZE - 2, _ => EMPTY)
  {
    StartupIsAdmissible(files, s.disk);
    StartupHistory();
    RunsAgree(files, s, STARTUP[..4]);
    hide Separate, Created, Run, FileAgrees;
  }

  /** What startup leaves on the drive: the entries in sectors 1 and 3, each text behind its
      entry, and every other sector as it was. */
  lemma StartupSectors(files: seq<Entry>, s: State)
    requires RunnableOn(files, s)
    ensures var d := Stage(files, s, 4).disk;
      && d.Keys == s.disk.Keys && |TEST_TEXT| < SECTOR_SIZE && |LOL_TEXT| < SECTOR_SIZE
      && Get(d, 1) == EntrySector(files[0]) && Get(d, 2) == TextSector(TEST_TEXT)
      && Get(d, 3) == EntrySector(files[1]) && Get(d, 4) == TextSector(LOL_TEXT)
      && (forall k :: k != 1 && k != 2 && k != 3 && k != 4 ==> Get(d, k) == Get(s.disk, k))
  {
    hide *;
    Texts();
    FilesAreNamed(files, s);
    StageStep(files, s);
    EntryPut(s, files[0]);
    EntryPut(Stage(files, s, 1), files[1]);
    TextPut(Stage(files, s, 2), TEST_TEXT, files[0]);
    TextPut(Stage(files, s, 3), LOL_TEXT, files[1]);
    FourPuts(s.disk, EntrySector(files[0]), EntrySector(files[1]), TextSector(TEST_TEXT), TextSector(LOL_TEXT));
  }

  lemma OtherSectors(files: seq<Entry>, s: State)
    requires RunnableOn(files, s)
    ensures var d := Stage(files, s, 4).disk;
      Get(d, 0) == Get(s.disk, 0) && Get(d, 1) == EntrySector(files[0]) && HasString(Get(d, 1))
  {
    hide *;
    FilesAreNamed(files, s);
    EntryHasZero(files[0]);
    StartupSectors(files, s);
  }

  lemma EntryPut(t: State, e: Entry)
    requires ValidTable(t.entries) && ValidEntry(e)
    ensures WriteEntry(t, e).disk == Put(t.disk, e.firstSector, EntrySector(e))
  {
  }

  lemma TextPut(t: State, text: seq<byte>, e: Entry)
    requires |text| < SECTOR_SIZE && e.firstSector < 4
    ensures WriteText(t, text, e).disk == Put(t.disk, e.firstSector + 1, TextSector(text))
  {
  }

  lemma FourPuts(d: Media, a: Sector, b: Sector, c: Sector, e: Sector)
    requires {1, 2, 3, 4} <= d.Keys
    ensures var t := Put(Put(Put(Put(d, 1, a), 3, b), 2, c), 4, e);
      && t.Keys == d.Keys
      && Get(t, 1) == a && Get(t, 2) == c && Get(t, 3) == b && Get(t, 4) == e
      && forall k :: k != 1 && k != 2 && k != 3 && k != 4 ==> Get(t, k) == Get(d, k)
  {
  }

  lemma EntryHasZero(e: Entry)
    requires ValidEntry(e)
    ensures HasString(EntrySector(e))
  {
    assert EntrySector(e)[SECTOR_SIZE - 1] == 0;
  }

  /** The screen shows the events after what it showed before. */
  ghost predicate ShowsEvents(log: seq<Glyph>, before: seq<Glyph>, events: seq<Event>, color: byte) {
    log == before + Colored(EventsText(events), color)
  }

  /** Interrupts, the decoder and the loop, which takes each character before the next
      interrupt and prints what it has to say. */
  method Interact(
    keyboard: Keyboard.Driver, shell: Shell.Loop, screen: Screen, codes: seq<byte>, ghost before: seq<Glyph>)
    requires shell.Valid() && screen.Valid() && ShowsEvents(screen.log, before, shell.events, screen.color)
    modifies keyboard, shell, shell.buffer, shell.argument, shell.fileText, shell.fs.ide, screen, screen.buffer
    ensures shell.Valid() && shell.files == old(shell.files)
    ensures shell.log == old(shell.log) + Keyboard.Typed(old(keyboard.State()), codes)
    ensures keyboard.State() == Keyboard.After(old(keyboard.State()), codes)
    ensures screen.Valid() && screen.color == old(screen.color) && screen.base == old(screen.base)
    ensures ShowsEvents(screen.log, before, shell.events, screen.color)
  {
    ghost var k := keyboard.State();
    var i := 0;
    hide Shell.Loop.Valid, Keyboard.Handle, Keyboard.Typed, Keyboard.After, Screen.Valid, ShowsEvents;
    assert codes[0..] == codes;
    while i < |codes|
      invariant 0 <= i <= |codes| && shell.Valid() && shell.files == old(shell.files)
      invariant old(shell.log) + Keyboard.Typed(k, codes)
             == shell.log + Keyboard.Typed(keyboard.State(), codes[i..])
      invariant Keyboard.After(k, codes) == Keyboard.After(keyboard.State(), codes[i..])
      invariant screen.Valid() && screen.color == old(screen.color) && screen.base == old(screen.base)
      invariant ShowsEvents(screen.log, before, shell.events, screen.color)
    {
      Keyboard.OneCode(keyboard.State(), codes, i, shell.log);
      OneInterrupt(keyboard, shell, screen, codes[i], before);
      i := i + 1;
    }
    Keyboard.NoMoreCodes(keyboard.State(), codes, shell.log);
  }

  method OneInterrupt(
    keyboard: Keyboard.Driver, shell: Shell.Loop, screen: Screen, code: byte, ghost before: seq<Glyph>)
    requires shell.Valid() && screen.Valid() && ShowsEvents(screen.log, before, shell.events, screen.color)
    modifies keyboard, shell, shell.buffer, shell.argument, shell.fileText, shell.fs.ide, screen, screen.buffer
    ensures shell.Valid() && shell.files == old(shell.files)
    ensures var (k, c) := Keyboard.Handle(old(keyboard.State()), code);
      keyboard.State() == k && shell.log == if c > 0 then old(shell.log) + [c] else old(shell.log)
    ensures screen.Valid() && screen.color == old(screen.color) && screen.base == old(screen.base)
    ensures ShowsEvents(screen.log, before, shell.events, screen.color)
  {
    hide *;
    keyboard.KeyboardHandler(code);
    if keyboard.ch > 0 {
      var c := keyboard.GetChar();
      TypeAndShow(shell, screen, c, before);
    }
  }

  method TypeAndShow(shell: Shell.Loop, screen: Screen, c: byte, ghost before: seq<Glyph>)
    requires shell.Valid() && screen.Valid() && ShowsEvents(screen.log, before, shell.events, screen.color) && c > 0
    modifies shell, shell.buffer, shell.argument, shell.fileText, shell.fs.ide, screen, screen.buffer
    ensures shell.Valid() && shell.files == old(shell.files) && shell.log == old(shell.log) + [c]
    ensures screen.Valid() && screen.color == old(screen.color) && screen.base == old(screen.base)
    ensures ShowsEvents(screen.log, before, shell.events, screen.color)
  {
    hide *;
    EventsAre(shell);
    EventsGrow(shell.files, shell.log, c);
    var shown := shell.events;
    shell.HandleChar(c);
    EventsAre(shell);
    var news := shell.events[|shown|..];
    assert shell.events == shown + news;
    ShowMore(screen.log, before, shown, news, screen.color);
    ShowEvents(screen, news);
  }

  lemma EventsAre(shell: Shell.Loop)
    requires shell.Valid()
    ensures Shell.Readable(shell.files) && shell.events == Shell.Transcript(shell.files, [], shell.log)
  {
    hide Shell.Transcript, Shell.Readable;
  }

  lemma {:induction false} EventsGrow(files: State, log: seq<byte>, c: byte)
    requires Shell.Readable(files)
    ensures Shell.Transcript(files, [], log) <= Shell.Transcript(files, [], log + [c])
  {
    hide *;
    Shell.TranscriptAppends(files, [], log, c);
  }

  lemma {:induction false} ShowMore(
      log: seq<Glyph>, before: seq<Glyph>, shown: seq<Event>, news: seq<Event>, color: byte)
    requires ShowsEvents(log, before, shown, color)
    ensures ShowsEvents(log + Colored(EventsText(news), color), before, shown + news, color)
  {
    EventsTextJoin(shown, news);
    hide EventsText, Colored;
    Printf.ColoredAppends(before, EventsText(shown), EventsText(news), color);
  }

  // ---------- power-on ----------

  /** A machine whose first drive with the model is sound, has the sectors used, and holds
      a string in sector 0. */
  ghost predicate BootsFrom(ports: seq<Channel>, responses: seq<Response>, i: nat) {
    && Wired(ports, [ChannelInfo(0x1F0, 0x3F6, 0), ChannelInfo(0x170, 0x376, 0)])
    && ports[0].transfer.Idle? && ports[1].transfer.Idle?
    && |responses| == 4 && IsFirst(responses, i)
    && var info := Record(responses[i], i / 2, i % 2);
       && Sound(ports, info) && {1, 2, 3, 4} <= Drive(ports, info).Keys && HasString(Get(Drive(ports, info), 0))
  }

  /** Driver and file system come up on that drive. */
  method Boot(ports: seq<Channel>, responses: seq<Response>, ghost i: nat) returns (fs: FileSystem)
    requires BootsFrom(ports, responses, i)
    ensures fresh(fs) && fresh(fs.ide) && fresh(fs.entries) && fs.Valid()
    ensures Blank(fs.Abstract()) && HasString(Get(fs.Abstract().disk, 0))
    ensures fs.Abstract().disk == Drive(ports, Record(responses[i], i / 2, i % 2))
  {
    hide Wired, Sound, Detected, Record, Drive, IsTable, HasString;
    var ide, count := IdeInit(0x1F0, 0x3F6, 0x170, 0x376, ports, responses);
    BootDrive(ide.devices, responses, i);
    hide Chosen;
    fs := new FileSystem(ide);
  }

  lemma BootDrive(devices: seq<DeviceInfo>, responses: seq<Response>, i: nat)
    requires IsTable(devices, responses) && IsFirst(responses, i)
    requires forall d :: 0 <= d < |devices| ==> HasString(devices[d].model)
    ensures Named(devices) && Chosen(devices) == Some(Record(responses[i], i / 2, i % 2))
  {
    assert |devices| == MAXIMUM_DEVICES;
    hide HasString, IsTable, Record, Chosen, HasModel;
    ChosenIsFirst(devices, responses);
    if Chosen(devices).Some? {
      var k: nat :| IsFirst(responses, k) && Chosen(devices).value == Record(responses[k], k / 2, k % 2);
      assert k == i;
    }
  }

  /** The whole routine, from power-on: with the strokes of any text typed and any key
      releases in between, what is printed is the startup messages, the prompt and the
      transcript of that text over the two files, and the screen is the window on it. */
  method Session(
    ports: seq<Channel>, responses: seq<Response>, keyboard: Keyboard.Driver, screen: Screen, codes: seq<byte>,
    ghost i: nat, ghost strokes: seq<Keyboard.Stroke>, ghost text: seq<byte>)
    returns (fs: FileSystem, events: seq<Event>)
    requires BootsFrom(ports, responses, i)
    requires keyboard.State() == Keyboard.KeyState(false, false) && screen.Valid()
    requires Keyboard.AllGive(strokes, text) && Keyboard.Pressed(codes) == Keyboard.AllPresses(strokes)
    modifies keyboard, screen, screen.buffer
    ensures fresh(fs) && fs.Valid() && Shell.Readable(fs.Abstract())
    ensures events == Shell.Transcript(fs.Abstract(), [], text)
    ensures Shell.FileText(fs.Abstract(), TEST_NAME) == TEST_TEXT
    ensures Shell.FileText(fs.Abstract(), LOL_NAME) == LOL_TEXT
    ensures screen.Valid() && screen.color == old(screen.color) && screen.base == old(screen.base)
    ensures screen.log == old(screen.log)
      + Colored(NoticesText([Found(TEST_NAME), Shows(TEST_TEXT), Found(LOL_NAME), Shows(LOL_TEXT)]), screen.color)
      + Colored(Ascii(PROMPT), screen.color)
      + Colored(EventsText(events), screen.color)
    ensures screen.buffer[..] == Window(Layout(screen.log, screen.base), screen.base)
  {
    hide *;
    var notices: seq<Notice>;
    fs, notices := MakeReady(ports, responses, i);
    Greet(screen, notices);
    events := RunLoop(fs, keyboard, screen, codes, strokes, text);
    WindowShown(screen);
  }

  /** Power-on and the two files. */
  method MakeReady(ports: seq<Channel>, responses: seq<Response>, ghost i: nat)
    returns (fs: FileSystem, notices: seq<Notice>)
    requires BootsFrom(ports, responses, i)
    ensures fresh(fs) && fresh(fs.ide) && fresh(fs.entries) && fs.Valid() && Shell.Readable(fs.Abstract())
    ensures notices == [Found(TEST_NAME), Shows(TEST_TEXT), Found(LOL_NAME), Shows(LOL_TEXT)]
    ensures Shell.FileText(fs.Abstract(), TEST_NAME) == TEST_TEXT
    ensures Shell.FileText(fs.Abstract(), LOL_NAME) == LOL_TEXT
  {
    hide *;
    fs := Boot(ports, responses, i);
    ghost var s := fs.Abstract();
    ghost var files;
    notices, files := Startup(fs);
    FilesShow(fs, files, s);
  }

  /** The startup messages and the first prompt. */
  method Greet(screen: Screen, notices: seq<Notice>)
    requires screen.Valid()
    modifies screen, screen.buffer
    ensures screen.Valid() && screen.color == old(screen.color) && screen.base == old(screen.base)
    ensures screen.log
      == old(screen.log) + Colored(NoticesText(notices), screen.color) + Colored(Ascii(PROMPT), screen.color)
  {
    PlainMessages();
    hide *;
    ShowNotices(screen, notices);
    PrintPlain(screen, PROMPT);
  }

  /** The loop on the scan codes. */
  method RunLoop(
    fs: FileSystem, keyboard: Keyboard.Driver, screen: Screen, codes: seq<byte>,
    ghost strokes: seq<Keyboard.Stroke>, ghost text: seq<byte>)
    returns (events: seq<Event>)
    requires fs.Valid() && Shell.Readable(fs.Abstract())
    requires keyboard.State() == Keyboard.KeyState(false, false) && screen.Valid()
    requires Keyboard.AllGive(strokes, text) && Keyboard.Pressed(codes) == Keyboard.AllPresses(strokes)
    modifies fs.ide, keyboard, screen, screen.buffer
    ensures fs.Valid() && fs.Abstract() == old(fs.Abstract())
    ensures events == Shell.Transcript(fs.Abstract(), [], text)
    ensures screen.Valid() && screen.color == old(screen.color) && screen.base == old(screen.base)
    ensures screen.log == old(screen.log) + Colored(EventsText(events), screen.color)
  {
    hide *;
    Keyboard.TypingRoundTrip(codes, strokes, text);
    var shell := new Shell.Loop(fs);
    EventsAre(shell);
    NothingShown(screen.log, shell.events, shell.files, screen.color);
    Interact(keyboard, shell, screen, codes, screen.log);
    SessionState(shell, text);
    events := shell.events;
    ShowsMeans(screen.log, old(screen.log), events, screen.color);
  }

  lemma {:induction false} ShowsMeans(log: seq<Glyph>, before: seq<Glyph>, events: seq<Event>, color: byte)
    requires ShowsEvents(log, before, events, color)
    ensures log == before + Colored(EventsText(events), color)
  {
  }

  lemma FilesShow(fs: FileSystem, files: seq<Entry>, s: State)
    requires fs.Valid() && RunnableOn(files, s) && fs.Abstract() == Stage(files, s, 4) && HasString(Get(s.disk, 0))
    ensures Shell.Readable(fs.Abstract())
    ensures Shell.FileText(fs.Abstract(), TEST_NAME) == TEST_TEXT
    ensures Shell.FileText(fs.Abstract(), LOL_NAME) == LOL_TEXT
  {
    hide *;
    StartupIsReadable(files, s);
    TextsAreRead(files, s, 4, 0);
    TextsAreRead(files, s, 4, 1);
    FilesAreNamed(files, s);
    TextIs(Stage(files, s, 4), TEST_NAME);
    TextIs(Stage(files, s, 4), LOL_NAME);
  }

  lemma {:induction false} NothingShown(log: seq<Glyph>, events: seq<Event>, files: State, color: byte)
    requires Shell.Readable(files) && events == Shell.Transcript(files, [], [])
    ensures ShowsEvents(log, log, events, color)
  {
    assert events == [];
    hide Shell.Transcript;
  }

  lemma {:induction false} SessionState(shell: Shell.Loop, text: seq<byte>)
    requires shell.Valid() && shell.log == [] + text
    ensures shell.fs.Valid() && shell.fs.Abstract() == shell.files && Shell.Readable(shell.files)
    ensures shell.events == Shell.Transcript(shell.files, [], text)
  {
    hide Shell.Transcript, Shell.Readable;
    assert [] + text == text;
  }

  lemma TextIs(t: State, name: seq<byte>)
    requires Shell.Readable(t)
    ensures ValidTable(t.entries) && HasString(DataSector(t, name))
    ensures Shell.FileText(t, name) == CString(DataSector(t, name))
  {
    assert HasString(DataSector(t, name));
  }

  lemma WindowShown(screen: Screen)
    requires screen.Valid()
    ensures screen.buffer[..] == Window(Layout(screen.log, screen.base), screen.base)
  {
  }

  // ---------- an instance ----------

  function PaddedModel(): (s: seq<byte>)
    ensures |s| == IDENT_MODEL_SIZE
  {
    MODEL + seq(27, _ => 0x20)
  }

  /** The 40 bytes in which a drive sends its model: padded with spaces, pairs exchanged. */
  function SentModel(): (s: seq<byte>)
    ensures |s| == IDENT_MODEL_SIZE
  {
    Swapped(PaddedModel())
  }

  /** A drive of 16 sectors with LBA. */
  function SmallDrive(): (ident: Identity) {
    Zeros(54) + SentModel() + Zeros(4) + [0, 2] + Zeros(20) + [16, 0, 0, 0] + Zeros(388)
  }

  ghost function SmallDisk(): (disk: Media)
    ensures forall k: nat :: k in disk <==> k < 16
    ensures forall k: nat :: k < 16 ==> disk[k] == Zeros(SECTOR_SIZE)
  {
    var sector: Sector := Zeros(SECTOR_SIZE);
    map k | k in Below(16) :: sector
  }

  lemma SmallDriveFields()
    ensures var d := SmallDrive();
      && U16(d, IDENT_CAPABILITIES) == LBA_FEATURE && DriveSize(d) == 16
      && d[IDENT_MODEL..IDENT_MODEL + IDENT_MODEL_SIZE] == SentModel()
  {
    var d := SmallDrive();
    assert d[98] == 0 && d[99] == 2 && d[120] == 16 && d[121] == d[122] == d[123] == 0;
    assert d[164] == d[165] == d[166] == d[167] == 0;
  }

  lemma SwappedTwice(s: seq<byte>)
    requires |s| % 2 == 0
    ensures Swapped(Swapped(s)) == s
  {
  }

  lemma ModelTrimmed()
    ensures PaddedModel()[..TrimmedLength(PaddedModel())] == MODEL
  {
    var s := PaddedModel();
    var n := TrimmedLength(s);
    assert |MODEL| == 13 && s[12] == MODEL[12] != 0x20;
    assert forall k :: 13 <= k < 40 ==> s[k] == 0x20;
    assert s[..13] == MODEL;
    hide TrimmedLength, PaddedModel, MODEL;
    assert n == 13;
  }

  lemma SmallDriveHasModel()
    ensures HasModel(Identified(SmallDrive()))
  {
    SmallDriveFields();
    hide *;
    SentModelIsRead(SmallDrive());
  }

  lemma SentModelIsRead(ident: Identity)
    requires ident[IDENT_MODEL..IDENT_MODEL + IDENT_MODEL_SIZE] == SentModel()
    ensures HasModel(Identified(ident))
  {
    SwappedTwice(PaddedModel());
    ModelTrimmed();
    TextOfModel(ident);
    FieldReadsAsModel(ident);
    hide TrimmedLength, PaddedModel, ModelField, Swapped, CString, HasModel, ModelText;
    assert Swapped(SentModel()) == PaddedModel();
  }

  lemma TextOfModel(ident: Identity)
    requires ident[IDENT_MODEL..IDENT_MODEL + IDENT_MODEL_SIZE] == SentModel()
    ensures Swapped(SentModel()) == PaddedModel() ==>
      ModelText(ident) == PaddedModel()[..TrimmedLength(PaddedModel())]
    ensures CString(ModelField(ident)) == MODEL ==> HasModel(Identified(ident))
  {
    hide TrimmedLength, PaddedModel, ModelField;
  }

  /** A machine that boots. */
  lemma InstanceBoots()
    ensures BootsFrom(PowerOn(SmallDisk(), []), [Identified(SmallDrive()), Absent, Absent, Absent], 0)
  {
    var ports, responses := PowerOn(SmallDisk(), []), [Identified(SmallDrive()), Absent, Absent, Absent];
    hide *;
    PowerOnIsWired(SmallDisk(), []);
    SmallDriveHasModel();
    SmallDriveFields();
    SmallMachine(SmallDrive(), SmallDisk());
  }

  lemma SmallMachine(ident: Identity, disk: Media)
    requires HasModel(Identified(ident)) && U16(ident, IDENT_CAPABILITIES) == LBA_FEATURE && DriveSize(ident) == 16
    requires forall k: nat :: k in disk <==> k < 16
    requires forall k: nat :: k < 16 ==> disk[k] == Zeros(SECTOR_SIZE)
    requires Wired(PowerOn(disk, []), [ChannelInfo(0x1F0, 0x3F6, 0), ChannelInfo(0x170, 0x376, 0)])
    ensures BootsFrom(PowerOn(disk, []), [Identified(ident), Absent, Absent, Absent], 0)
  {
    var ports, responses := PowerOn(disk, []), [Identified(ident), Absent, Absent, Absent];
    hide Wired, HasModel, ModelField, DriveSize, U16;
    var info := Record(responses[0], 0, 0);
    assert Drive(ports, info) == disk && Plan(ports, info) == [];
    assert Sound(ports, info);
    assert Get(disk, 0)[0] == 0;
  }
}
