/**
 The VD file system on a plain map of sectors: the on-disk entry format, the table,
 the operations as functions of the state, and what whole runs mean.
 */
module VdSpec {
  import opened Bytes
  import opened AtaDevice

  const NAME_SIZE := 11
  const TABLE_SIZE := 12
  const ENTRY_BYTES := 24
  const NONE: dword := 0xFFFF_FFFF

  datatype Entry = Entry(name: seq<byte>, attributes: byte, isDirectory: byte, position: dword, firstSector: dword)

  predicate ValidEntry(e: Entry) {
    |e.name| == NAME_SIZE && HasString(e.name)
  }

  const EMPTY: Entry := Entry(Zeros(NAME_SIZE), 0, 0, 0, 0)

  function Name(e: Entry): seq<byte>
    requires ValidEntry(e)
  {
    CString(e.name)
  }

  // ---------- the on-disk format ----------

  /** The structure as it lies in memory, padding included. */
  function Serialize(e: Entry): (b: seq<byte>)
    requires ValidEntry(e)
    ensures |b| == ENTRY_BYTES
  {
    e.name + [e.attributes, e.isDirectory] + Zeros(3) + Bytes32(e.position) + Bytes32(e.firstSector)
  }

  function Deserialize(b: seq<byte>): Entry
    requires |b| >= ENTRY_BYTES
  {
    Entry(b[..NAME_SIZE], b[11], b[12], U32(b, 16), U32(b, 20))
  }

  function EntrySector(e: Entry): Sector
    requires ValidEntry(e)
  {
    Serialize(e) + Zeros(SECTOR_SIZE - ENTRY_BYTES)
  }

  function TextSector(text: seq<byte>): Sector
    requires |text| < SECTOR_SIZE
  {
    text + Zeros(SECTOR_SIZE - |text|)
  }

  lemma EntryRoundTrip(e: Entry)
    requires ValidEntry(e)
    ensures Deserialize(EntrySector(e)) == e
  {
    var s, p, f := EntrySector(e), Bytes32(e.position), Bytes32(e.firstSector);
    assert s[..NAME_SIZE] == e.name;
    assert s[16] == p[0] && s[17] == p[1] && s[18] == p[2] && s[19] == p[3];
    assert s[20] == f[0] && s[21] == f[1] && s[22] == f[2] && s[23] == f[3];
  }

  /** Where the fields lie in an entry's sector: the name, the attributes at 11, the directory
      flag at 12, the position at 16 and the first sector at 20, low byte first. */
  lemma EntryLayout(e: Entry)
    requires ValidEntry(e)
    ensures var s := EntrySector(e);
      && s[..11] == e.name && s[11] == e.attributes && s[12] == e.isDirectory
      && e.position as int == s[16] as int + 256 * s[17] as int + 65536 * s[18] as int + 16777216 * s[19] as int
      && e.firstSector as int == s[20] as int + 256 * s[21] as int + 65536 * s[22] as int + 16777216 * s[23] as int
      && forall k :: 24 <= k < 512 ==> s[k] == 0
  {
    var s, p, f := EntrySector(e), Bytes32(e.position), Bytes32(e.firstSector);
    assert s[..11] == e.name;
    assert s[16] == p[0] && s[17] == p[1] && s[18] == p[2] && s[19] == p[3];
    assert s[20] == f[0] && s[21] == f[1] && s[22] == f[2] && s[23] == f[3];
    LittleEndian(p, 0);
    LittleEndian(f, 0);
    hide Bytes32, U32;
  }

  /** A text's sector: the text from the first byte on, then zeros. */
  lemma TextLayout(text: seq<byte>)
    requires |text| < SECTOR_SIZE
    ensures var s := TextSector(text);
      |s| == 512 && forall k :: 0 <= k < 512 ==> s[k] == if k < |text| then text[k] else 0
  {
  }

  lemma TextRoundTrip(text: seq<byte>)
    requires |text| < SECTOR_SIZE && 0 !in text
    ensures HasString(TextSector(text)) && CString(TextSector(text)) == text
  {
    assert TextSector(text) == text + [0] + Zeros(SECTOR_SIZE - |text| - 1);
    CStringOfTerminated(text, Zeros(SECTOR_SIZE - |text| - 1));
  }

  // ---------- state and operations ----------

  datatype State = State(entries: seq<Entry>, disk: Media)

  ghost predicate ValidTable(entries: seq<Entry>) {
    |entries| == TABLE_SIZE && forall i :: 0 <= i < TABLE_SIZE ==> ValidEntry(entries[i])
  }

  /** Sectors outside the drive swallow writes and read as the zeroed buffer. */
  function Put(disk: Media, lba: nat, s: Sector): Media {
    if lba in disk then disk[lba := s] else disk
  }

  function Get(disk: Media, lba: nat): Sector {
    if lba in disk then disk[lba] else Zeros(SECTOR_SIZE)
  }

  /** The first slot with a name, or the table's size. */
  function Slot(entries: seq<Entry>, name: seq<byte>): (i: nat)
    requires forall k :: 0 <= k < |entries| ==> ValidEntry(entries[k])
    ensures i <= |entries|
    ensures i < |entries| ==> Name(entries[i]) == name
    ensures forall k :: 0 <= k < i ==> Name(entries[k]) != name
  {
    if entries == [] then 0
    else if Name(entries[0]) == name then 0
    else 1 + Slot(entries[1..], name)
  }

  /** Writes an entry's sector and takes the first free slot, if there is one. */
  function WriteEntry(s: State, e: Entry): (t: State)
    requires ValidTable(s.entries) && ValidEntry(e)
    ensures ValidTable(t.entries)
  {
    var i := Slot(s.entries, []);
    State(if i < TABLE_SIZE then s.entries[i := e] else s.entries, Put(s.disk, e.firstSector, EntrySector(e)))
  }

  function WriteText(s: State, text: seq<byte>, e: Entry): State
    requires |text| < SECTOR_SIZE
  {
    State(s.entries, Put(s.disk, Wrap32(e.firstSector + 1), TextSector(text)))
  }

  /** The sector VD_ReadData reads: behind the entry found, or, when there is none,
      behind sector -1, which is sector 0. */
  function DataSector(s: State, name: seq<byte>): Sector
    requires ValidTable(s.entries)
  {
    var i := Slot(s.entries, name);
    Get(s.disk, if i < TABLE_SIZE then Wrap32(s.entries[i].firstSector + 1) else 0)
  }

  // ---------- whole runs ----------

  /** Files with distinct non-empty names, their sectors at least two apart and on the
      drive. */
  ghost predicate Separate(files: seq<Entry>, disk: Media) {
    && (forall j :: 0 <= j < |files| ==>
         && ValidEntry(files[j]) && Name(files[j]) != []
         && files[j].firstSector as nat in disk && files[j].firstSector as nat + 1 in disk
         && files[j].firstSector < NONE)
    && (forall j, k :: 0 <= j < |files| && 0 <= k < |files| && j != k ==> Distant(files[j], files[k]))
  }

  ghost predicate Distant(e: Entry, f: Entry) {
    && ValidEntry(e) && ValidEntry(f) && Name(e) != Name(f)
    && (e.firstSector + 2 <= f.firstSector || f.firstSector + 2 <= e.firstSector)
  }

  datatype Op = Create(file: nat) | Store(file: nat, text: seq<byte>)

  ghost predicate Admissible(files: seq<Entry>, ops: seq<Op>) {
    forall i :: 0 <= i < |ops| ==>
      ops[i].file < |files| && (ops[i].Store? ==> |ops[i].text| < SECTOR_SIZE && 0 !in ops[i].text)
  }

  function Run(files: seq<Entry>, s: State, ops: seq<Op>): (t: State)
    requires Admissible(files, ops) && ValidTable(s.entries)
    requires forall j :: 0 <= j < |files| ==> ValidEntry(files[j])
    ensures ValidTable(t.entries)
  {
    if ops == [] then s
    else
      var n := |ops| - 1;
      assert ops[n].file < |files|;
      var t := Run(files, s, ops[..n]);
      match ops[n]
      case Create(j) => WriteEntry(t, files[j])
      case Store(j, text) => WriteText(t, text, files[j])
  }

  /** The files created, in order. */
  function Created(ops: seq<Op>): seq<nat> {
    if ops == [] then []
    else
      var n := |ops| - 1;
      Created(ops[..n]) + if ops[n].Create? then [ops[n].file] else []
  }

  /** The text stored last to a file. */
  function LastText(ops: seq<Op>, j: nat): Option<seq<byte>> {
    if ops == [] then None
    else
      var n := |ops| - 1;
      if ops[n].Store? && ops[n].file == j then Some(ops[n].text) else LastText(ops[..n], j)
  }

  /** The occupied slots are the first files created, in order, and form a prefix. */
  ghost predicate TableAgrees(files: seq<Entry>, ops: seq<Op>, entries: seq<Entry>) {
    && |entries| == TABLE_SIZE
    && (forall i :: 0 <= i < |Created(ops)| ==> Created(ops)[i] < |files|)
    && (forall i :: 0 <= i < TABLE_SIZE ==>
         entries[i] == if i < |Created(ops)| then files[Created(ops)[i]] else EMPTY)
  }

  /** One file's two sectors: the entry once created, the last text once stored. */
  ghost predicate FileAgrees(e: Entry, j: nat, ops: seq<Op>, before: Media, disk: Media)
    requires ValidEntry(e)
  {
    && e.firstSector as nat in disk && e.firstSector as nat + 1 in disk
    && (j in Created(ops) ==> disk[e.firstSector as nat] == EntrySector(e))
    && (match LastText(ops, j)
        case Some(text) =>
          |text| < SECTOR_SIZE && 0 !in text && disk[e.firstSector as nat + 1] == TextSector(text)
        case None =>
          e.firstSector as nat + 1 in before && disk[e.firstSector as nat + 1] == before[e.firstSector as nat + 1])
  }

  ghost predicate Agrees(files: seq<Entry>, ops: seq<Op>, before: Media, s: State)
    requires forall j :: 0 <= j < |files| ==> ValidEntry(files[j])
  {
    && TableAgrees(files, ops, s.entries)
    && (forall j :: 0 <= j < |files| ==> FileAgrees(files[j], j, ops, before, s.disk))
    && s.disk.Keys == before.Keys
  }

  lemma EmptyHasNoName()
    ensures ValidEntry(EMPTY) && Name(EMPTY) == []
  {
    assert EMPTY.name[0] == 0;
  }

  /** In every reachable state the table agrees with the disk, and each file's data
      sector holds the text stored last; no operation on one file shows in another. */
  lemma {:induction false} RunsAgree(files: seq<Entry>, s: State, ops: seq<Op>)
    requires Separate(files, s.disk) && Admissible(files, ops)
    requires s.entries == seq(TABLE_SIZE, _ => EMPTY)
    ensures ValidTable(s.entries) && Agrees(files, ops, s.disk, Run(files, s, ops))
  {
    EmptyHasNoName();
    if ops == [] {
    } else {
      var n := |ops| - 1;
      RunsAgree(files, s, ops[..n]);
      var t := Run(files, s, ops[..n]);
      assert ops[n].file < |files| && (ops[n].Store? ==> |ops[n].text| < SECTOR_SIZE && 0 !in ops[n].text);
      if ops[n].Create? {
        CreateAgrees(files, s.disk, t, ops);
      } else {
        StoreAgrees(files, s.disk, t, ops);
      }
    }
  }

  /** The free slot is the first one past the files created. */
  lemma {:induction false} FreeSlot(files: seq<Entry>, ops: seq<Op>, entries: seq<Entry>)
    requires ValidTable(entries) && TableAgrees(files, ops, entries)
    requires forall j :: 0 <= j < |files| ==> ValidEntry(files[j]) && Name(files[j]) != []
    ensures Slot(entries, []) == Min(|Created(ops)|, TABLE_SIZE)
  {
    EmptyHasNoName();
    var n := Min(|Created(ops)|, TABLE_SIZE);
    forall i | 0 <= i < n
      ensures Name(entries[i]) != []
    {
      assert entries[i] == files[Created(ops)[i]];
    }
    assert n < TABLE_SIZE ==> Name(entries[n]) == [];
  }

  /** A put outside a file's two sectors does not show in it. */
  lemma PutElsewhere(e: Entry, j: nat, ops: seq<Op>, before: Media, disk: Media, lba: nat, s: Sector)
    requires |ops| > 0 && ValidEntry(e) && FileAgrees(e, j, ops[..|ops| - 1], before, disk)
    requires ops[|ops| - 1].file != j && lba != e.firstSector as nat && lba != e.firstSector as nat + 1
    ensures FileAgrees(e, j, ops, before, Put(disk, lba, s))
  {
    hide EntrySector, TextSector;
  }

  lemma CreateShows(e: Entry, j: nat, ops: seq<Op>, before: Media, disk: Media)
    requires |ops| > 0 && ValidEntry(e) && FileAgrees(e, j, ops[..|ops| - 1], before, disk)
    requires ops[|ops| - 1] == Create(j)
    ensures FileAgrees(e, j, ops, before, Put(disk, e.firstSector, EntrySector(e)))
  {
    hide EntrySector, TextSector;
  }

  lemma StoreShows(e: Entry, j: nat, ops: seq<Op>, before: Media, disk: Media)
    requires |ops| > 0 && ValidEntry(e) && FileAgrees(e, j, ops[..|ops| - 1], before, disk)
    requires var op := ops[|ops| - 1]; op.Store? && op.file == j && |op.text| < SECTOR_SIZE && 0 !in op.text
    ensures FileAgrees(e, j, ops, before, Put(disk, e.firstSector as nat + 1, TextSector(ops[|ops| - 1].text)))
  {
    hide EntrySector, TextSector;
  }

  lemma CreatedInTable(files: seq<Entry>, t: State, ops: seq<Op>)
    requires |ops| > 0 && ops[|ops| - 1].Create? && ops[|ops| - 1].file < |files|
    requires forall j :: 0 <= j < |files| ==> ValidEntry(files[j]) && Name(files[j]) != []
    requires ValidTable(t.entries) && TableAgrees(files, ops[..|ops| - 1], t.entries)
    ensures TableAgrees(files, ops, WriteEntry(t, files[ops[|ops| - 1].file]).entries)
  {
    var init, c := ops[..|ops| - 1], ops[|ops| - 1].file;
    FreeSlot(files, init, t.entries);
    assert Created(ops) == Created(init) + [c];
    hide Slot, EntrySector, Created, HasString, CString, Put;
  }

  lemma CreateAgrees(files: seq<Entry>, before: Media, t: State, ops: seq<Op>)
    requires |ops| > 0 && ops[|ops| - 1].Create? && ops[|ops| - 1].file < |files|
    requires ValidTable(t.entries) && Separate(files, before) && Agrees(files, ops[..|ops| - 1], before, t)
    ensures Agrees(files, ops, before, WriteEntry(t, files[ops[|ops| - 1].file]))
  {
    var init, c := ops[..|ops| - 1], ops[|ops| - 1].file;
    hide *;
    AgreesParts(files, init, before, t);
    AllNamed(files, before);
    CreatedInTable(files, t, ops);
    forall j | 0 <= j < |files|
      ensures FileAgrees(files[j], j, ops, before, WriteEntry(t, files[c]).disk)
    {
      TwoFiles(files, before, j, c);
      CreateShowsOnce(files[j], files[c], j, ops, before, t);
    }
    SameKeys(t, files[c]);
    AgreesParts(files, ops, before, WriteEntry(t, files[c]));
  }

  lemma AgreesParts(files: seq<Entry>, ops: seq<Op>, before: Media, s: State)
    requires forall j :: 0 <= j < |files| ==> ValidEntry(files[j])
    ensures Agrees(files, ops, before, s) <==>
      && TableAgrees(files, ops, s.entries)
      && (forall j :: 0 <= j < |files| ==> FileAgrees(files[j], j, ops, before, s.disk))
      && s.disk.Keys == before.Keys
  {
    hide FileAgrees, TableAgrees, ValidEntry;
  }

  lemma AllNamed(files: seq<Entry>, disk: Media)
    requires Separate(files, disk)
    ensures forall j :: 0 <= j < |files| ==> ValidEntry(files[j]) && Name(files[j]) != []
  {
  }

  lemma SameKeys(t: State, e: Entry)
    requires ValidTable(t.entries) && ValidEntry(e)
    ensures WriteEntry(t, e).disk.Keys == t.disk.Keys
  {
  }

  lemma TwoFiles(files: seq<Entry>, disk: Media, j: nat, k: nat)
    requires Separate(files, disk) && j < |files| && k < |files|
    ensures ValidEntry(files[j]) && ValidEntry(files[k]) && (j == k || Distant(files[j], files[k]))
    ensures files[k].firstSector < NONE
  {
  }

  lemma CreateShowsOnce(f: Entry, e: Entry, j: nat, ops: seq<Op>, before: Media, t: State)
    requires |ops| > 0 && ops[|ops| - 1].Create? && ValidTable(t.entries) && ValidEntry(e) && ValidEntry(f)
    requires FileAgrees(f, j, ops[..|ops| - 1], before, t.disk)
    requires if j == ops[|ops| - 1].file then f == e else Distant(f, e)
    ensures FileAgrees(f, j, ops, before, WriteEntry(t, e).disk)
  {
    hide Slot, EntrySector, Created, FileAgrees, HasString, CString, Put;
    if j == ops[|ops| - 1].file {
      CreateShows(e, j, ops, before, t.disk);
    } else {
      PutElsewhere(f, j, ops, before, t.disk, e.firstSector, EntrySector(e));
    }
  }

  lemma StoreAgrees(files: seq<Entry>, before: Media, t: State, ops: seq<Op>)
    requires |ops| > 0 && ops[|ops| - 1].Store? && ops[|ops| - 1].file < |files|
    requires |ops[|ops| - 1].text| < SECTOR_SIZE && 0 !in ops[|ops| - 1].text
    requires ValidTable(t.entries) && Separate(files, before) && Agrees(files, ops[..|ops| - 1], before, t)
    ensures Agrees(files, ops, before, WriteText(t, ops[|ops| - 1].text, files[ops[|ops| - 1].file]))
  {
    var init, op := ops[..|ops| - 1], ops[|ops| - 1];
    hide *;
    AgreesParts(files, init, before, t);
    AllNamed(files, before);
    StoredInTable(files, t, ops);
    forall j | 0 <= j < |files|
      ensures FileAgrees(files[j], j, ops, before, WriteText(t, op.text, files[op.file]).disk)
    {
      TwoFiles(files, before, j, op.file);
      StoreShowsOnce(files[j], files[op.file], j, ops, before, t);
    }
    AgreesParts(files, ops, before, WriteText(t, op.text, files[op.file]));
  }

  lemma StoredInTable(files: seq<Entry>, t: State, ops: seq<Op>)
    requires |ops| > 0 && ops[|ops| - 1].Store? && ops[|ops| - 1].file < |files|
    requires |ops[|ops| - 1].text| < SECTOR_SIZE
    requires TableAgrees(files, ops[..|ops| - 1], t.entries)
    ensures var op := ops[|ops| - 1];
      var u := WriteText(t, op.text, files[op.file]);
      TableAgrees(files, ops, u.entries) && u.disk.Keys == t.disk.Keys
  {
    assert Created(ops) == Created(ops[..|ops| - 1]);
    hide Created, TextSector;
  }

  lemma StoreShowsOnce(f: Entry, e: Entry, j: nat, ops: seq<Op>, before: Media, t: State)
    requires |ops| > 0 && ops[|ops| - 1].Store? && ValidEntry(e) && ValidEntry(f) && e.firstSector < NONE
    requires |ops[|ops| - 1].text| < SECTOR_SIZE && 0 !in ops[|ops| - 1].text
    requires FileAgrees(f, j, ops[..|ops| - 1], before, t.disk)
    requires if j == ops[|ops| - 1].file then f == e else Distant(f, e)
    ensures FileAgrees(f, j, ops, before, WriteText(t, ops[|ops| - 1].text, e).disk)
  {
    var op := ops[|ops| - 1];
    hide TextSector, Created, FileAgrees, HasString, CString, Put;
    if j == op.file {
      StoreShows(e, j, ops, before, t.disk);
    } else {
      PutElsewhere(f, j, ops, before, t.disk, e.firstSector as nat + 1, TextSector(op.text));
    }
  }

  /** Looking up a file finds it exactly when it was among the first twelve created. */
  lemma {:induction false} LookupFindsCreated(files: seq<Entry>, before: Media, s: State, ops: seq<Op>, j: nat)
    requires ValidTable(s.entries) && Separate(files, before) && Agrees(files, ops, before, s) && j < |files|
    ensures var i := Slot(s.entries, Name(files[j]));
      && (i < TABLE_SIZE <==> j in Created(ops)[..Min(|Created(ops)|, TABLE_SIZE)])
      && (i < TABLE_SIZE ==> s.entries[i] == files[j] && Deserialize(Get(s.disk, s.entries[i].firstSector)) == files[j])
  {
    var created := Created(ops)[..Min(|Created(ops)|, TABLE_SIZE)];
    var i := Slot(s.entries, Name(files[j]));
    hide *;
    AgreesOn(files, before, s, ops, j);
    AgreesParts(files, ops, before, s) by {
      AllNamed(files, before);
    }
    CreatedInSlots(files, before, s, ops, j);
    if i < TABLE_SIZE {
      FoundOnDisk(files[j], j, ops, before, s);
    }
  }

  /** The table's side of the lookup. */
  lemma {:induction false} CreatedInSlots(files: seq<Entry>, before: Media, s: State, ops: seq<Op>, j: nat)
    requires ValidTable(s.entries) && Separate(files, before) && TableAgrees(files, ops, s.entries) && j < |files|
    ensures ValidEntry(files[j])
    ensures var i := Slot(s.entries, Name(files[j]));
      && (i < TABLE_SIZE <==> j in Created(ops)[..Min(|Created(ops)|, TABLE_SIZE)])
      && (i < TABLE_SIZE ==> s.entries[i] == files[j] && j in Created(ops))
  {
    EmptyHasNoName();
    var created := Created(ops)[..Min(|Created(ops)|, TABLE_SIZE)];
    var i := Slot(s.entries, Name(files[j]));
    hide Created, EntrySector, CString, HasString;
    forall k | 0 <= k < |created|
      ensures s.entries[k] == files[created[k]] && (Name(s.entries[k]) == Name(files[j]) <==> created[k] == j)
    {
      NamesDiffer(files, before, j, Created(ops)[k]);
    }
    assert forall k :: |created| <= k < TABLE_SIZE ==> Name(s.entries[k]) == [];
    hide Separate;
    if i < TABLE_SIZE {
      assert i < |created| && created[i] == j && Created(ops)[i] == j;
    }
    if j in created {
      var k :| 0 <= k < |created| && created[k] == j;
    }
  }

  lemma NamesDiffer(files: seq<Entry>, disk: Media, j: nat, k: nat)
    requires Separate(files, disk) && j < |files| && k < |files|
    ensures ValidEntry(files[j]) && ValidEntry(files[k]) && Name(files[j]) != []
    ensures Name(files[j]) == Name(files[k]) <==> j == k
  {
    hide CString, HasString;
    assert j != k ==> Distant(files[j], files[k]);
  }

  lemma {:induction false} FoundOnDisk(e: Entry, j: nat, ops: seq<Op>, before: Media, s: State)
    requires ValidEntry(e) && FileAgrees(e, j, ops, before, s.disk) && j in Created(ops)
    ensures Deserialize(Get(s.disk, e.firstSector)) == e
  {
    EntryRoundTrip(e);
    hide Created, EntrySector, LastText;
  }

  /** Reading a file by name gives the text stored last to it, whatever else happened in
      between, for every file the table has. */
  lemma {:induction false} ReadReturnsLastText(files: seq<Entry>, before: Media, s: State, ops: seq<Op>, j: nat)
    requires ValidTable(s.entries) && Separate(files, before) && Agrees(files, ops, before, s) && j < |files|
    requires j in Created(ops)[..Min(|Created(ops)|, TABLE_SIZE)] && LastText(ops, j).Some?
    ensures HasString(DataSector(s, Name(files[j])))
    ensures CString(DataSector(s, Name(files[j]))) == LastText(ops, j).value
  {
    hide *;
    AgreesOn(files, before, s, ops, j);
    LookupFindsCreated(files, before, s, ops, j);
    LastTextIsRead(s, files[j], j, ops, before);
  }

  lemma AgreesOn(files: seq<Entry>, before: Media, s: State, ops: seq<Op>, j: nat)
    requires ValidTable(s.entries) && Separate(files, before) && Agrees(files, ops, before, s) && j < |files|
    ensures ValidEntry(files[j]) && Name(files[j]) != [] && files[j].firstSector < NONE
    ensures FileAgrees(files[j], j, ops, before, s.disk)
  {
    hide FileAgrees;
  }

  lemma {:induction false} LastTextIsRead(s: State, e: Entry, j: nat, ops: seq<Op>, before: Media)
    requires ValidTable(s.entries) && ValidEntry(e) && e.firstSector < NONE
    requires FileAgrees(e, j, ops, before, s.disk) && LastText(ops, j).Some?
    requires var i := Slot(s.entries, Name(e)); i < TABLE_SIZE && s.entries[i] == e
    ensures HasString(DataSector(s, Name(e))) && CString(DataSector(s, Name(e))) == LastText(ops, j).value
  {
    hide EntrySector, TextSector, Slot, CString, LastText, Created;
    TextRoundTrip(LastText(ops, j).value);
  }

  /** Over any run from an empty table, a map from name to text: reading one of the first
      twelve files created gives the text stored last to it. */
  lemma {:induction false} RunsRefineMap(files: seq<Entry>, s: State, ops: seq<Op>, j: nat)
    requires Separate(files, s.disk) && Admissible(files, ops) && j < |files|
    requires s.entries == seq(TABLE_SIZE, _ => EMPTY)
    requires j in Created(ops)[..Min(|Created(ops)|, TABLE_SIZE)] && LastText(ops, j).Some?
    ensures ValidTable(s.entries)
    ensures var t := Run(files, s, ops);
      && HasString(DataSector(t, Name(files[j])))
      && CString(DataSector(t, Name(files[j]))) == LastText(ops, j).value
  {
    RunsAgree(files, s, ops);
    hide *;
    ReadReturnsLastText(files, s.disk, Run(files, s, ops), ops, j);
  }

  /** A full table stays as it is. */
  lemma {:induction false} FullTableStays(files: seq<Entry>, before: Media, s: State, ops: seq<Op>, e: Entry)
    requires ValidTable(s.entries) && Separate(files, before) && Agrees(files, ops, before, s) && ValidEntry(e)
    ensures WriteEntry(s, e).entries == s.entries <==> |Created(ops)| >= TABLE_SIZE || e == EMPTY
  {
    FreeSlot(files, ops, s.entries);
  }

  /** The sector read for a name: the one behind the first entry with it, counted in 32 bits;
      for a name that no entry has, sector 0. */
  lemma SectorRead(s: State, name: seq<byte>)
    requires ValidTable(s.entries)
    ensures (forall i :: 0 <= i < 12 ==> Name(s.entries[i]) != name) ==>
      DataSector(s, name) == if 0 in s.disk then s.disk[0] else Zeros(512)
    ensures forall i :: 0 <= i < 12 && IsFirstNamed(s.entries, name, i) ==>
      var lba := (s.entries[i].firstSector as nat + 1) % 0x1_0000_0000;
      DataSector(s, name) == if lba in s.disk then s.disk[lba] else Zeros(512)
  {
    hide HasString, CString;
    var n := Slot(s.entries, name);
  }

  ghost predicate IsFirstNamed(entries: seq<Entry>, name: seq<byte>, i: nat)
    requires ValidTable(entries) && i < 12
  {
    Name(entries[i]) == name && forall k :: 0 <= k < i ==> Name(entries[k]) != name
  }

  /** One create call per file, in order. */
  function CreateAll(n: nat): (ops: seq<Op>)
    ensures |ops| == n && forall i :: 0 <= i < n ==> ops[i] == Create(i)
  {
    seq(n, i requires 0 <= i => Create(i))
  }

  lemma {:induction false} AllCreated(n: nat)
    ensures |Created(CreateAll(n))| == n
    ensures forall i :: 0 <= i < n ==> Created(CreateAll(n))[i] == i
  {
    if n > 0 {
      AllCreated(n - 1);
      assert CreateAll(n)[..n - 1] == CreateAll(n - 1);
    }
  }

  /** Of any thirteen files created in order, all but the last are found. */
  lemma {:induction false} ThirteenthIsLost(files: seq<Entry>, s: State, j: nat)
    requires |files| == 13 && Separate(files, s.disk) && j < 13
    requires s.entries == seq(TABLE_SIZE, _ => EMPTY)
    ensures ValidTable(s.entries) && Admissible(files, CreateAll(13)) && ValidEntry(files[j])
    ensures Slot(Run(files, s, CreateAll(13)).entries, Name(files[j])) < TABLE_SIZE <==> j < TABLE_SIZE
  {
    hide *;
    EmptyTableIsValid(s.entries);
    CreatingIsAdmissible(files, s.disk);
    FirstTwelve(j);
    RunsAgree(files, s, CreateAll(13));
    LookupFindsCreated(files, s.disk, Run(files, s, CreateAll(13)), CreateAll(13), j);
  }

  lemma EmptyTableIsValid(entries: seq<Entry>)
    requires entries == seq(TABLE_SIZE, _ => EMPTY)
    ensures ValidTable(entries)
  {
    EmptyHasNoName();
  }

  lemma CreatingIsAdmissible(files: seq<Entry>, disk: Media)
    requires |files| == 13 && Separate(files, disk)
    ensures Admissible(files, CreateAll(13))
    ensures forall j :: 0 <= j < |files| ==> ValidEntry(files[j])
  {
    hide CreateAll;
  }

  lemma FirstTwelve(j: nat)
    ensures j in Created(CreateAll(13))[..Min(|Created(CreateAll(13))|, TABLE_SIZE)] <==> j < TABLE_SIZE
  {
    AllCreated(13);
    var created := Created(CreateAll(13))[..TABLE_SIZE];
    hide Created, CreateAll;
    assert j < TABLE_SIZE ==> created[j] == j;
    assert forall i :: 0 <= i < |created| ==> created[i] == i;
  }

  /** Thirteen such files: one-letter names, two sectors each. */
  function LetterFiles(): (files: seq<Entry>)
    ensures |files| == 13 && forall j :: 0 <= j < 13 ==> files[j] == LetterFile(j)
  {
    seq(13, j requires 0 <= j < 13 => LetterFile(j))
  }

  lemma ThirteenFiles() returns (s: State)
    ensures Separate(LetterFiles(), s.disk) && s.entries == seq(TABLE_SIZE, _ => EMPTY)
  {
    var sector: Sector := Zeros(SECTOR_SIZE);
    var disk: Media := map k | k in Below(26) :: sector;
    s := State(seq(TABLE_SIZE, _ => EMPTY), disk);
    hide LetterFiles, LetterFile, Zeros, Separate;
    LettersAreSeparate(disk);
  }

  lemma LettersAreSeparate(disk: Media)
    requires forall k: nat :: k < 26 ==> k in disk
    ensures Separate(LetterFiles(), disk)
  {
    var files := LetterFiles();
    hide LetterFiles, LetterFile, Distant, HasString, CString;
    forall j, k | 0 <= j < |files| && 0 <= k < |files| && j != k
      ensures Distant(files[j], files[k])
    {
      LettersAreDistant(j, k);
    }
    assert forall j :: 0 <= j < |files| ==> files[j] == LetterFile(j);
  }

  lemma LettersAreDistant(j: nat, k: nat)
    requires j < 13 && k < 13 && j != k
    ensures Distant(LetterFile(j), LetterFile(k))
  {
    assert Name(LetterFile(j))[0] != Name(LetterFile(k))[0];
    hide LetterFile, HasString, CString;
  }

  function LetterFile(j: nat): (e: Entry)
    requires j < 13
    ensures ValidEntry(e) && Name(e) == [0x41 + j] && e.firstSector == 2 * j
  {
    var e := Entry([0x41 + j] + Zeros(NAME_SIZE - 1), 0, 0, j, 2 * j);
    assert e.name == [0x41 + j] + [0] + Zeros(NAME_SIZE - 2);
    CStringOfTerminated([0x41 + j], Zeros(NAME_SIZE - 2));
    e
  }
}
