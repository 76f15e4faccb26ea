/** The VD file system as the kernel runs it: the entry table in memory and the ATA
    driver below. */
module VdFs {
  import opened Bytes
  import opened Strings
  import opened AtaDevice
  import opened AtaDriver
  import opened AtaSectors
  import opened DriveTable
  import opened VdSpec

  const MODEL: seq<byte> :=
    ['Q' as int, 'E' as int, 'M' as int, 'U' as int, ' ' as int, 'H' as int, 'A' as int, 'R' as int, 'D' as int,
     'D' as int, 'I' as int, 'S' as int, 'K' as int]
  const NULL_NAME: seq<byte> := ['N' as int, 'U' as int, 'L' as int, 'L' as int]

  /** A plain ATA drive that works without faults and whose sectors the driver can all
      address. */
  ghost predicate Sound(ports: seq<Channel>, info: DeviceInfo) {
    && HasDrive(ports, info) && Healthy(Plan(ports, info)) && info.kind == IDE_ATA
    && (forall s: nat :: s in Drive(ports, info) <==> s < info.size)
    && (info.size <= CHS_LIMIT || info.features as int / LBA_FEATURE % 2 == 1)
  }

  lemma SoundAddress(ports: seq<Channel>, info: DeviceInfo, lba: dword)
    requires Sound(ports, info) && Wrap32(lba + 1) <= info.size
    ensures AddressSent(info.features, lba) == lba
    ensures Addressable(Drive(ports, info), ModeFor(info.features, lba), lba) <==> lba as nat in Drive(ports, info)
  {
    if lba < info.size {
      assert lba as nat in Drive(ports, info);
    } else {
      assert lba as nat !in Drive(ports, info);
      assert lba == NONE;
    }
  }

  /** One sector written through the driver, within the size it checks. */
  lemma SectorWritten(before: seq<Channel>, after: seq<Channel>, info: DeviceInfo, lba: dword, b: seq<byte>)
    requires Sound(before, info) && Wrap32(lba + 1) <= info.size && |after| == 2 && |b| == SECTOR_SIZE
    requires IsWrittenBy(before, after, info, lba, b, 1)
    ensures Sound(after, info) && Drive(after, info) == Put(Drive(before, info), lba, b)
  {
    SoundAddress(before, info, lba);
    SuffixIsHealthy(Plan(after, info), Plan(before, info));
    var m, mode, plan := Drive(before, info), ModeFor(info.features, lba), Plan(before, info);
    OneSlice(b);
    if lba as nat in m {
      HealthyRuns(m, mode, lba, 1, plan);
      WriteRunRefinesMap(m, mode, lba, [b], plan);
      UpdateOne(m, lba, b);
      hide WriteRun, WriteCount, IsSuffix, Update, Healthy;
    } else {
      NotAddressed(m, mode, lba, [b], plan);
    }
  }

  lemma UpdateOne(m: Media, lba: nat, s: Sector)
    requires lba in m
    ensures Update(m, lba, [s][..1]) == m[lba := s]
  {
  }

  lemma {:induction false} NotAddressed(m: Media, mode: Addressing, lba: nat, data: seq<Sector>, plan: seq<Phase>)
    requires !Addressable(m, mode, lba)
    ensures WriteRun(m, mode, lba, data, plan) == m
    ensures ReadRun(m, mode, lba, 1, plan).0 == []
  {
    FailedIsRefused();
  }

  /** One sector read through the driver, within the size it checks. */
  lemma SectorRead(
    before: seq<Channel>, after: seq<Channel>, info: DeviceInfo, lba: dword, b: seq<byte>, now: seq<byte>, err: nat)
    requires Sound(before, info) && Wrap32(lba + 1) <= info.size && |after| == 2
    requires b == Zeros(SECTOR_SIZE) && IsReadBy(before, after, info, lba, 1, b, now, err)
    ensures Sound(after, info) && Drive(after, info) == Drive(before, info)
    ensures now == Get(Drive(before, info), lba)
  {
    SoundAddress(before, info, lba);
    SuffixIsHealthy(Plan(after, info), Plan(before, info));
    var m, mode, plan := Drive(before, info), ModeFor(info.features, lba), Plan(before, info);
    var r := ReadRun(m, mode, lba, 1, plan);
    FlattenSmall(b, r.0);
    if lba as nat in m {
      HealthyRuns(m, mode, lba, 1, plan);
      ReadRunRefinesMap(m, mode, lba, 1, plan);
      assert r.0 == [m[lba as nat]];
    } else {
      NotAddressed(m, mode, lba, [], plan);
    }
  }

  lemma OneSlice(b: seq<byte>)
    requires |b| == SECTOR_SIZE
    ensures Slices(b, 1) == [b]
  {
    var slices := Slices(b, 1);
    assert slices[0] == b[0..SECTOR_SIZE] == b;
  }

  lemma {:induction false} FlattenSmall(b: seq<byte>, sectors: seq<Sector>)
    requires |b| == SECTOR_SIZE && |sectors| <= 1
    ensures |sectors| == 0 ==> Overwrite(b, 0, Flatten(sectors)) == b
    ensures |sectors| == 1 ==> |Flatten(sectors)| == SECTOR_SIZE && Overwrite(b, 0, Flatten(sectors)) == sectors[0]
  {
    if |sectors| == 1 {
      assert Flatten(sectors) == Flatten(sectors[..0]) + sectors[0];
      assert sectors[..0] == [];
    }
  }

  // ---------- the drive every operation looks up ----------

  ghost predicate Named(devices: seq<DeviceInfo>) {
    |devices| == MAXIMUM_DEVICES && forall d :: 0 <= d < |devices| ==> HasString(devices[d].model)
  }

  /** The present drive with the model looked for. */
  ghost function Chosen(devices: seq<DeviceInfo>): Option<DeviceInfo>
    requires Named(devices)
  {
    var d := DriveByModel(devices, MODEL);
    if d >= 0 && devices[d].present then Some(devices[d]) else None
  }

  ghost predicate GoodChoice(ports: seq<Channel>, chosen: Option<DeviceInfo>) {
    chosen.Some? ==> Sound(ports, chosen.value)
  }

  /** The drive's sectors; a drive that is not there has none. */
  ghost function DiskOf(ports: seq<Channel>, chosen: Option<DeviceInfo>): Media
    requires GoodChoice(ports, chosen)
  {
    if chosen.Some? then Drive(ports, chosen.value) else map[]
  }

  /** How the driver treats one sector of the drive looked up. */
  function RefusalFor(chosen: Option<DeviceInfo>, lba: dword): int {
    if chosen.None? then -1 else if Wrap32(lba + 1) > chosen.value.size then -2 else 0
  }

  lemma {:induction false} ChosenIsUsable(devices: seq<DeviceInfo>, lba: dword)
    requires Named(devices) && (Chosen(devices).Some? ==> Chosen(devices).value.kind == IDE_ATA)
    ensures var d: byte := DriveByModel(devices, MODEL) % 0x100;
      && IsUsable(devices, d) && Refusal(devices, d, 1, lba) == RefusalFor(Chosen(devices), lba)
      && (Chosen(devices).Some? ==> d < MAXIMUM_DEVICES && Chosen(devices).value == devices[d])
  {
    hide DriveByModel;
  }

  lemma DiskWritten(before: seq<Channel>, after: seq<Channel>, chosen: Option<DeviceInfo>, lba: dword, b: seq<byte>)
    requires GoodChoice(before, chosen) && |after| == 2 && |b| == SECTOR_SIZE
    requires if RefusalFor(chosen, lba) != 0 then after == before
      else HasDrive(before, chosen.value) && IsWrittenBy(before, after, chosen.value, lba, b, 1)
    ensures GoodChoice(after, chosen) && DiskOf(after, chosen) == Put(DiskOf(before, chosen), lba, b)
  {
    hide Sound, IsWrittenBy;
    if chosen.Some? {
      if Wrap32(lba + 1) > chosen.value.size {
        BeyondDrive(before, chosen.value, lba);
      } else {
        SectorWritten(before, after, chosen.value, lba, b);
      }
    }
  }

  lemma DiskRead(
    before: seq<Channel>, after: seq<Channel>, chosen: Option<DeviceInfo>, lba: dword, b: seq<byte>, now: seq<byte>,
      err: nat)
    requires GoodChoice(before, chosen) && |after| == 2 && b == Zeros(SECTOR_SIZE)
    requires if RefusalFor(chosen, lba) != 0 then after == before && now == b
      else HasDrive(before, chosen.value) && IsReadBy(before, after, chosen.value, lba, 1, b, now, err)
    ensures GoodChoice(after, chosen) && DiskOf(after, chosen) == DiskOf(before, chosen)
    ensures now == Get(DiskOf(before, chosen), lba)
  {
    hide Sound, IsReadBy;
    if chosen.Some? {
      if Wrap32(lba + 1) > chosen.value.size {
        BeyondDrive(before, chosen.value, lba);
      } else {
        SectorRead(before, after, chosen.value, lba, b, now, err);
      }
    }
  }

  // ---------- the drive that answers to the model ----------

  /** A drive answers, and its model field reads as the model looked for. */
  predicate HasModel(r: Response) {
    Kind(r).Some? && CString(ModelField(IdentityOf(r))) == MODEL
  }

  /** The first response with the model, as a table entry. */
  ghost predicate IsFirst(responses: seq<Response>, i: nat) {
    i < |responses| && HasModel(responses[i]) && forall k :: 0 <= k < i ==> !HasModel(responses[k])
  }

  /** The field reads as the model exactly when the swapped and trimmed text is the model,
      or goes on behind it with a zero byte. */
  lemma FieldReadsAsModel(ident: Identity)
    ensures CString(ModelField(ident)) == MODEL <==> ModelText(ident) == MODEL || MODEL + [0] <= ModelText(ident)
  {
    var text, field := ModelText(ident), ModelField(ident);
    assert field == text + Zeros(MODEL_SIZE - |text|) && |text| < MODEL_SIZE;
    NoZeroInModel();
    hide ModelText, ModelField;
    ReadsAs(field, MODEL);
    PaddedPrefix(text, MODEL, MODEL_SIZE - |text|);
  }

  lemma NoZeroInModel()
    ensures 0 !in MODEL && |MODEL| == 13
    ensures forall i :: 0 <= i < 13 ==> MODEL[i] == "QEMU HARDDISK"[i] as int
  {
  }

  lemma {:induction false} ReadsAs(s: seq<byte>, m: seq<byte>)
    requires HasString(s) && 0 !in m
    ensures CString(s) == m <==> m + [0] <= s
  {
    if m + [0] <= s {
      assert s == m + [0] + s[|m| + 1..];
      CStringOfTerminated(m, s[|m| + 1..]);
    } else {
      StartsWithString(s);
    }
  }

  lemma PaddedPrefix(text: seq<byte>, m: seq<byte>, n: nat)
    requires 0 !in m && n > 0
    ensures m + [0] <= text + Zeros(n) <==> text == m || (m + [0] <= text)
  {
    var padded := text + Zeros(n);
    if text == m {
      assert padded[..|m| + 1] == m + [0];
    } else if |text| > |m| {
      assert padded[..|m| + 1] == text[..|m| + 1];
    } else {
      assert padded[|text|] == 0;
      assert |text| < |m| ==> (m + [0])[|text|] != 0;
      assert |text| == |m| ==> padded[..|m|] == text;
    }
  }

  lemma {:induction false} StartsWithString(s: seq<byte>)
    requires HasString(s)
    ensures CString(s) + [0] <= s
  {
    BeforeEnd(s, |CString(s)|);
    assert s[..|CString(s)|] == CString(s);
  }

  /** The kernel works on the first drive that answers and has the model, if there is one. */
  lemma ChosenIsFirst(devices: seq<DeviceInfo>, responses: seq<Response>)
    requires IsTable(devices, responses) && Named(devices)
    ensures match Chosen(devices) {
        case Some(d) => exists i: nat :: IsFirst(responses, i) && d == Record(responses[i], i / 2, i % 2)
        case None => forall k :: 0 <= k < |responses| ==> !HasModel(responses[k])
      }
  {
    hide *;
    DetectedAreResponders(responses);
    var d := FoundFirst(devices, responses);
    ChosenIs(devices, d);
  }

  lemma FoundFirst(devices: seq<DeviceInfo>, responses: seq<Response>) returns (d: int)
    requires IsTable(devices, responses) && Named(devices)
    requires AllRespond(Detected(responses), responses) && InOrder(Detected(responses))
    requires AllListed(Detected(responses), responses)
    ensures forall k :: 0 <= k < |devices| ==> HasString(devices[k].model)
    ensures d == DriveByModel(devices, MODEL) && d < |devices|
    ensures d < 0 ==> forall k :: 0 <= k < |responses| ==> !HasModel(responses[k])
    ensures d >= 0 ==>
      && devices[d].present
      && exists i: nat :: IsFirst(responses, i) && devices[d] == Record(responses[i], i / 2, i % 2)
  {
    d := DriveByModel(devices, MODEL);
    hide DriveByModel, Detected, ModelField, CString, HasString, Record, AllListed, InOrder, AllRespond, IsTable,
      HasModel;
    FoundIsResponder(devices, responses, d);
    forall k | 0 <= k < |responses| && HasModel(responses[k])
      ensures d >= 0 && 2 * devices[d].channel + devices[d].drive <= k
    {
      ListedBefore(devices, responses, d, k);
    }
    if d >= 0 {
      var i := 2 * devices[d].channel + devices[d].drive;
      assert IsFirst(responses, i) && devices[d] == Record(responses[i], i / 2, i % 2);
    }
  }

  lemma {:induction false} ChosenIs(devices: seq<DeviceInfo>, d: int)
    requires Named(devices) && d == DriveByModel(devices, MODEL)
    requires d >= 0 ==> d < |devices| && devices[d].present
    ensures Chosen(devices) == if d >= 0 then Some(devices[d]) else None
  {
    hide DriveByModel;
  }

  /** The entry found is a responder with the model. */
  lemma {:induction false} FoundIsResponder(devices: seq<DeviceInfo>, responses: seq<Response>, d: int)
    requires IsTable(devices, responses) && Named(devices) && d == DriveByModel(devices, MODEL)
    requires AllRespond(Detected(responses), responses)
    ensures |devices| == MAXIMUM_DEVICES && d < MAXIMUM_DEVICES
    ensures d >= 0 ==>
      var i := 2 * devices[d].channel + devices[d].drive;
      && d < |Detected(responses)| && devices[d] == Detected(responses)[d] && devices[d].present
      && devices[d].drive < 2 && i < |responses| && HasModel(responses[i])
      && devices[d] == Record(responses[i], i / 2, i % 2)
  {
    var table := Detected(responses);
    EmptyModel();
    hide DriveByModel, Detected, ModelField, CString, HasString;
    if d >= 0 {
      assert d < |table| && devices[d] == devices[..|table|][d] == table[d];
      assert IsResponder(table[d], responses);
    }
  }

  lemma EmptyModel()
    ensures HasString(UNUSED.model) && CString(UNUSED.model) == [] != MODEL
  {
    assert UNUSED.model[0] == 0;
    assert UNUSED.model == [] + [0] + UNUSED.model[1..];
    CStringOfTerminated([], UNUSED.model[1..]);
  }

  /** A response with the model is in the table, not before the entry found. */
  lemma {:induction false} ListedBefore(devices: seq<DeviceInfo>, responses: seq<Response>, d: int, k: nat)
    requires IsTable(devices, responses) && Named(devices) && k < |responses| && HasModel(responses[k])
    requires AllListed(Detected(responses), responses) && InOrder(Detected(responses))
    requires d == DriveByModel(devices, MODEL)
    ensures 0 <= d < |Detected(responses)|
    ensures 2 * Detected(responses)[d].channel + Detected(responses)[d].drive <= k
  {
    var table := Detected(responses);
    hide Detected, DriveByModel, CString, HasString, ModelField, Record, InOrder, IsTable, Named;
    assert Record(responses[k], k / 2, k % 2) in table;
    var e :| 0 <= e < |table| && table[e] == Record(responses[k], k / 2, k % 2);
    RecordHasModel(responses[k], k);
    FoundNotBehind(devices, responses, d, e);
  }

  lemma RecordHasModel(r: Response, k: nat)
    requires HasModel(r)
    ensures var entry := Record(r, k / 2, k % 2);
      HasString(entry.model) && CString(entry.model) == MODEL && 2 * entry.channel + entry.drive == k
  {
    hide ModelField, CString;
  }

  lemma {:induction false} FoundNotBehind(devices: seq<DeviceInfo>, responses: seq<Response>, d: int, e: nat)
    requires IsTable(devices, responses) && Named(devices) && InOrder(Detected(responses))
    requires d == DriveByModel(devices, MODEL) && e < |Detected(responses)|
    requires HasString(Detected(responses)[e].model) && CString(Detected(responses)[e].model) == MODEL
    ensures 0 <= d < |Detected(responses)|
    ensures var table := Detected(responses);
      2 * table[d].channel + table[d].drive <= 2 * table[e].channel + table[e].drive
  {
    var table := Detected(responses);
    hide Detected, DriveByModel, CString, HasString;
    assert devices[e] == devices[..|table|][e] == table[e];
    assert d < e ==> Before(table[d], table[e]);
  }

  class FileSystem {
    const ide: IdeDriver
    const entries: array<Entry>

    ghost predicate Valid()
      reads this, ide, entries
    {
      && ide.Valid() && Named(ide.devices) && GoodChoice(ide.ports, Chosen(ide.devices))
      && entries.Length == TABLE_SIZE && ValidTable(entries[..])
    }

    ghost function Disk(): Media
      reads this, ide, entries
      requires Valid()
    {
      DiskOf(ide.ports, Chosen(ide.devices))
    }

    ghost function Abstract(): State
      reads this, ide, entries
      requires Valid()
    {
      State(entries[..], Disk())
    }

    constructor (ide: IdeDriver)
      requires ide.Valid() && Named(ide.devices) && GoodChoice(ide.ports, Chosen(ide.devices))
      ensures Valid() && this.ide == ide && fresh(entries)
      ensures entries[..] == seq(TABLE_SIZE, _ => EMPTY)
    {
      hide GoodChoice, Named, Chosen;
      this.ide := ide;
      entries := new Entry[TABLE_SIZE](_ => EMPTY);
      new;
      EmptyHasNoName();
      assert entries[..] == seq(TABLE_SIZE, _ => EMPTY);
    }

    /** One sector to the drive; every failure goes unnoticed. */
    method WriteSector(lba: dword, buf: array<byte>)
      requires Valid() && buf.Length == SECTOR_SIZE
      modifies ide, buf
      ensures Valid() && ide.devices == old(ide.devices) && entries[..] == old(entries[..])
      ensures buf[..] == old(buf[..])
      ensures Disk() == Put(old(Disk()), lba, buf[..])
    {
      hide DriveByModel, IsWrittenBy, ValidTable, DiskOf, IsUsable, Refusal, Put, Wired, IsSuffix, Chosen,
        GoodChoice, HasDrive;
      ModelString();
      LookedUp(ide, lba);
      ghost var chosen := Chosen(ide.devices);
      var drive := ide.GetDriveByModel(MODEL + [0]);
      ghost var before := ide.ports;
      var code := ide.WriteSectors(drive % 0x100, 1, lba, buf);
      LookedUp(ide, lba);
      DiskWritten(before, ide.ports, chosen, lba, buf[..]);
    }

    /** One sector from the drive into a zeroed buffer. */
    method ReadSector(lba: dword, buf: array<byte>)
      requires Valid() && buf.Length == SECTOR_SIZE && buf[..] == Zeros(SECTOR_SIZE)
      modifies ide, buf
      ensures Valid() && ide.devices == old(ide.devices) && entries[..] == old(entries[..])
      ensures Disk() == old(Disk()) && buf[..] == Get(Disk(), lba)
    {
      hide DriveByModel, IsReadBy, ValidTable, DiskOf, IsUsable, Refusal, Get, Wired, IsSuffix, Chosen, GoodChoice,
        HasDrive;
      ModelString();
      LookedUp(ide, lba);
      ghost var chosen := Chosen(ide.devices);
      var drive := ide.GetDriveByModel(MODEL + [0]);
      ghost var before, b := ide.ports, buf[..];
      var code, err, k := ide.ReadSectors(drive % 0x100, 1, lba, buf);
      LookedUp(ide, lba);
      DiskRead(before, ide.ports, chosen, lba, b, buf[..], err);
    }

    // ---------- the operations ----------

    /** The entry stored in a sector. */
    method VdRead(sector: dword) returns (e: Entry)
      requires Valid()
      modifies ide
      ensures Valid() && Abstract() == old(Abstract())
      ensures e == Deserialize(Get(Disk(), sector))
    {
      var buf := ZeroedBuffer();
      ReadSector(sector, buf);
      e := Deserialize(buf[..]);
    }

    /** The earliest entry with this name, or the null entry when there is none. */
    method VdOpen(path: seq<byte>) returns (e: Entry)
      requires Valid() && HasString(path)
      ensures ValidEntry(e)
      ensures var i := Slot(entries[..], CString(path));
        if i < TABLE_SIZE then e == entries[i] else IsNull(e)
    {
      hide HasString, CString, GoodChoice, Chosen, Overwrite;
      var i := 0;
      while i < TABLE_SIZE
        invariant 0 <= i <= TABLE_SIZE
        invariant forall k :: 0 <= k < i ==> Name(entries[k]) != CString(path)
      {
        var r := StrCmp(entries[i].name, path);
        if r == 0 {
          return entries[i];
        }
        i := i + 1;
      }
      var name := new byte[VdSpec.NAME_SIZE];
      NullText();
      ghost var garbage := name[..];
      var _ := StrCpy(name, NULL_NAME + [0]);
      NullName(name[..], garbage);
      e := Entry(name[..], 0, 0, NONE, NONE);
    }

    /** Copies the text behind the entry with this name to out. */
    method VdReadData(path: seq<byte>, out: array<byte>)
      requires Valid() && HasString(path)
      requires var s := DataSector(Abstract(), CString(path)); HasString(s) && |CString(s)| < out.Length
      modifies ide, out
      ensures Valid() && Abstract() == old(Abstract())
      ensures out[..] == Overwrite(old(out[..]), 0, CString(DataSector(Abstract(), CString(path))) + [0])
    {
      hide Slot, CString, HasString;
      ghost var before := Abstract();
      var e := VdOpen(path);
      var buf := ZeroedBuffer();
      ReadSector(Wrap32(e.firstSector + 1), buf);
      assert buf[..] == DataSector(before, CString(path));
      var _ := StrCpy(out, buf[..]);
    }

    /** Writes the entry's sector and adds the entry to the table. */
    method VdWrite(file: Entry) returns (ok: bool)
      requires Valid() && ValidEntry(file)
      modifies ide, entries
      ensures Valid() && ide.devices == old(ide.devices) && ok
      ensures Abstract() == WriteEntry(old(Abstract()), file)
    {
      hide GoodChoice, DiskOf, Chosen, Named, EntrySector, Slot, HasString;
      WriteEntrySector(file);
      AddToTable(file);
      ok := true;
    }

    method WriteEntrySector(file: Entry)
      requires Valid() && ValidEntry(file)
      modifies ide
      ensures Valid() && ide.devices == old(ide.devices) && entries[..] == old(entries[..])
      ensures Disk() == Put(old(Disk()), file.firstSector, EntrySector(file))
    {
      EntryInBuffer(file);
      hide GoodChoice, DiskOf, Chosen, Named, Serialize, EntrySector, Overwrite, HasString, Zeros, ValidTable;
      var buf := ZeroedBuffer();
      MemCpy(buf, 0, Serialize(file), ENTRY_BYTES);
      WriteSector(file.firstSector, buf);
    }

    /** The first slot without a name takes the entry. */
    method AddToTable(file: Entry)
      requires entries.Length == TABLE_SIZE && ValidTable(entries[..]) && ValidEntry(file)
      modifies entries
      ensures var i := Slot(old(entries[..]), []);
        entries[..] == if i < TABLE_SIZE then old(entries[..])[i := file] else old(entries[..])
    {
      TerminatorOnly();
      hide HasString, CString;
      var i := 0;
      while i < TABLE_SIZE
        invariant 0 <= i <= TABLE_SIZE && entries[..] == old(entries[..])
        invariant forall k :: 0 <= k < i ==> Name(entries[k]) != []
      {
        var r := StrCmp(entries[i].name, [0]);
        if r == 0 {
          entries[i] := file;
          break;
        }
        i := i + 1;
      }
    }

    /** Writes a text to the sector behind the entry's. */
    method VdWriteData(data: seq<byte>, file: Entry) returns (ok: bool)
      requires Valid() && HasString(data) && |CString(data)| < SECTOR_SIZE
      modifies ide
      ensures Valid() && ide.devices == old(ide.devices) && ok
      ensures Abstract() == WriteText(old(Abstract()), CString(data), file)
    {
      hide GoodChoice, DiskOf, Chosen, Named;
      var buf := ZeroedBuffer();
      var n := StrCpy(buf, data);
      assert buf[..] == TextSector(CString(data));
      WriteSector(Wrap32(file.firstSector + 1), buf);
      ok := true;
    }

    /** Any sequence of the two write calls, down to the drive: the table and the disk
        go through the run of the specification. */
    method Perform(files: seq<Entry>, ops: seq<Op>)
      requires Valid() && Admissible(files, ops)
      requires forall j :: 0 <= j < |files| ==> ValidEntry(files[j])
      modifies ide, entries
      ensures Valid() && Abstract() == Run(files, old(Abstract()), ops)
    {
      hide WriteEntry, WriteText, HasString, CString, GoodChoice, Chosen, DiskOf, Named;
      ghost var start := Abstract();
      var i := 0;
      while i < |ops|
        invariant 0 <= i <= |ops|
        invariant Valid() && Admissible(files, ops[..i]) && Abstract() == Run(files, start, ops[..i])
      {
        var op := ops[i];
        assert ops[..i + 1][..i] == ops[..i];
        assert op.file < |files| && (op.Store? ==> |op.text| < SECTOR_SIZE && 0 !in op.text);
        if op.Create? {
          var _ := VdWrite(files[op.file]);
        } else {
          Terminated(op.text);
          var _ := VdWriteData(op.text + [0], files[op.file]);
        }
        i := i + 1;
      }
      assert ops[..|ops|] == ops;
    }

    /** Through the driver, reading one of the first twelve files created gives the text
        stored last to it. */
    method PerformAndRead(files: seq<Entry>, ops: seq<Op>, j: nat, out: array<byte>)
      requires Valid() && entries[..] == seq(TABLE_SIZE, _ => EMPTY)
      requires Separate(files, Disk()) && Admissible(files, ops) && j < |files|
      requires j in Created(ops)[..Min(|Created(ops)|, TABLE_SIZE)] && LastText(ops, j).Some?
      requires |LastText(ops, j).value| < out.Length
      modifies ide, entries, out
      ensures Valid() && Abstract() == Run(files, old(Abstract()), ops)
      ensures HasString(out[..]) && CString(out[..]) == LastText(ops, j).value
    {
      ghost var s, text, before := Abstract(), LastText(ops, j).value, out[..];
      assert s.entries == entries[..] && s.disk == Disk();
      hide *;
      AllNamed(files, s.disk);
      RunsRefineMap(files, s, ops, j);
      NameOf(files[j]);
      Perform(files, ops);
      VdReadData(files[j].name, out);
      CopiedOver(DataSector(Run(files, s, ops), Name(files[j])), before, out[..]);
    }
  }

  lemma {:induction false} Terminated(text: seq<byte>)
    requires 0 !in text
    ensures HasString(text + [0]) && CString(text + [0]) == text
  {
    assert text + [0] == text + [0] + [];
    CStringOfTerminated(text, []);
  }

  lemma NameOf(e: Entry)
    requires ValidEntry(e)
    ensures HasString(e.name) && CString(e.name) == Name(e)
  {
  }

  /** A C string copied over the front of a buffer reads as itself. */
  lemma {:induction false} CopiedOver(s: seq<byte>, before: seq<byte>, now: seq<byte>)
    requires HasString(s) && |CString(s)| < |before| && now == Overwrite(before, 0, CString(s) + [0])
    ensures HasString(now) && CString(now) == CString(s)
  {
    var text := CString(s);
    assert now == text + [0] + before[|text| + 1..];
    CStringOfTerminated(text, before[|text| + 1..]);
  }

  lemma TerminatorOnly()
    ensures HasString([0]) && CString([0]) == []
  {
    CStringOfTerminated([], []);
    assert [] + [0] + [] == [0 as byte];
  }

  /** The made-up entry's name reads NULL whatever follows its terminator. */
  lemma {:induction false} NullName(name: seq<byte>, rest: seq<byte>)
    requires |rest| == VdSpec.NAME_SIZE
    requires name == Overwrite(rest, 0, NULL_NAME + [0])
    ensures HasString(name) && CString(name) == NULL_NAME
  {
    CStringOfTerminated(NULL_NAME, rest[5..]);
    assert name == NULL_NAME + [0] + rest[5..];
  }

  lemma NullText()
    ensures HasString(NULL_NAME + [0]) && CString(NULL_NAME + [0]) == NULL_NAME
  {
    Terminated(NULL_NAME);
  }

  lemma EntryInBuffer(e: Entry)
    requires ValidEntry(e)
    ensures Overwrite(Zeros(SECTOR_SIZE), 0, Serialize(e)[..ENTRY_BYTES]) == EntrySector(e)
  {
    assert Serialize(e)[..ENTRY_BYTES] == Serialize(e);
  }

  method ZeroedBuffer() returns (buf: array<byte>)
    ensures fresh(buf) && buf.Length == SECTOR_SIZE && buf[..] == Zeros(SECTOR_SIZE)
  {
    buf := new byte[SECTOR_SIZE](_ => 0);
  }

  /** The entry VD_Open makes up: only its name's first five bytes are defined. */
  ghost predicate IsNull(e: Entry) {
    && ValidEntry(e) && Name(e) == ['N' as int, 'U' as int, 'L' as int, 'L' as int]
    && e.attributes == 0 && e.isDirectory == 0 && e.position == e.firstSector == 0xFFFF_FFFF
  }

  lemma LookedUp(ide: IdeDriver, lba: dword)
    requires ide.Valid() && Named(ide.devices)
    ensures |ide.ports| == 2 && forall d :: 0 <= d < |ide.devices| ==> HasDrive(ide.ports, ide.devices[d])
    ensures GoodChoice(ide.ports, Chosen(ide.devices)) ==>
      var d: byte := DriveByModel(ide.devices, MODEL) % 0x100;
      && IsUsable(ide.devices, d) && Refusal(ide.devices, d, 1, lba) == RefusalFor(Chosen(ide.devices), lba)
      && (Chosen(ide.devices).Some? ==>
            d < MAXIMUM_DEVICES && Chosen(ide.devices).value == ide.devices[d] && HasDrive(ide.ports, ide.devices[d]))
  {
    hide DriveByModel, Refusal, IsUsable, RefusalFor, Chosen;
    if GoodChoice(ide.ports, Chosen(ide.devices)) {
      ChosenIsUsable(ide.devices, lba);
    }
  }

  lemma ModelString()
    ensures HasString(MODEL + [0]) && CString(MODEL + [0]) == MODEL
  {
    Terminated(MODEL);
  }

  lemma BeyondDrive(ports: seq<Channel>, info: DeviceInfo, lba: dword)
    requires Sound(ports, info) && Wrap32(lba + 1) > info.size
    ensures lba as nat !in Drive(ports, info)
  {
  }
}
