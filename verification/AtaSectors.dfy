/** What the sector calls mean for the plain maps of sectors behind them. */
module AtaSectors {
  import opened Bytes
  import opened AtaDevice
  import opened AtaDriver

  function SliceAt(b: seq<byte>, i: nat): seq<byte>
    requires i * SECTOR_SIZE + SECTOR_SIZE <= |b|
  {
    b[i * SECTOR_SIZE..i * SECTOR_SIZE + SECTOR_SIZE]
  }

  /** The drive a device record stands for. */
  ghost function Drive(ports: seq<Channel>, info: DeviceInfo): Media
    requires |ports| == 2 && info.channel < 2 && info.drive < |ports[info.channel].media|
  {
    ports[info.channel].media[info.drive]
  }

  ghost function Plan(ports: seq<Channel>, info: DeviceInfo): seq<Phase>
    requires |ports| == 2 && info.channel < 2
  {
    ports[info.channel].plan
  }

  ghost predicate HasDrive(ports: seq<Channel>, info: DeviceInfo) {
    |ports| == 2 && info.channel < 2 && info.drive < |ports[info.channel].media|
  }

  /** The front of a buffer shows k sectors of the map. */
  ghost predicate Shows(now: seq<byte>, m: Media, start: nat, k: nat) {
    k * SECTOR_SIZE <= |now| && forall i :: 0 <= i < k ==> start + i in m && SliceAt(now, i) == m[start + i]
  }

  /** A read fills the front of the buffer with the sectors of the map up to the one
      that stopped it, and leaves the rest of the buffer alone; it returns 0 exactly when
      nothing stopped it. */
  lemma ReadFillsBuffer(
    before: seq<Channel>, after: seq<Channel>, info: DeviceInfo, lba: dword, n: nat, b: seq<byte>, now: seq<byte>,
      err: nat)
    returns (k: nat)
    requires HasDrive(before, info) && |after| == 2 && n * SECTOR_SIZE <= |b|
    requires IsReadBy(before, after, info, lba, n, b, now, err)
    ensures k <= n && (k == n <==> err == 0) && |now| == |b|
    ensures var start, m := AddressSent(info.features, lba), Drive(before, info);
      && Shows(now, m, start, k) && now[k * SECTOR_SIZE..] == b[k * SECTOR_SIZE..]
      && (err != 0 ==>
            err == PollCode(Settled(PhaseAt(Plan(before, info), k), m, ModeFor(info.features, lba), start + k)))
    ensures after[info.channel].media == before[info.channel].media
    ensures after[info.channel].early == before[info.channel].early
  {
    var start, mode, m := AddressSent(info.features, lba), ModeFor(info.features, lba), Drive(before, info);
    k := |ReadRun(m, mode, start, n, Plan(before, info)).0|;
    RunFillsBuffer(m, mode, start, n, Plan(before, info), b, now);
    hide ReadRun, PollCode, Settled, IsSuffix, ModeFor, AddressSent, IsRead, Shows;
  }

  lemma {:induction false} RunFillsBuffer(
      m: Media, mode: Addressing, start: nat, n: nat, plan: seq<Phase>, b: seq<byte>, now: seq<byte>)
    requires n * SECTOR_SIZE <= |b| && IsRead(b, now, ReadRun(m, mode, start, n, plan).0)
    ensures var r := ReadRun(m, mode, start, n, plan);
      var k := |r.0|;
      && |now| == |b| && (k == n <==> r.1 == 0)
      && Shows(now, m, start, k) && now[k * SECTOR_SIZE..] == b[k * SECTOR_SIZE..]
      && (r.1 != 0 ==> r.1 == PollCode(Settled(PhaseAt(plan, k), m, mode, start + k)))
  {
    var r := ReadRun(m, mode, start, n, plan);
    var k := |r.0|;
    ReadRunRefinesMap(m, mode, start, n, plan);
    if k < n {
      ReadStopsAt(m, mode, start, n, plan, k);
    }
    hide ReadRun, Transfers, PollCode, Settled, Flatten, IsRead;
    FrontOfBuffer(b, now, r.0);
    forall i | 0 <= i < k
      ensures start + i in m && SliceAt(now, i) == m[start + i]
    {
      assert start + i in m && r.0[start + i - start] == m[start + i];
    }
  }

  lemma FrontOfBuffer(b: seq<byte>, now: seq<byte>, sectors: seq<Sector>)
    requires IsRead(b, now, sectors)
    ensures |now| == |b| && |sectors| * SECTOR_SIZE <= |now|
    ensures forall i :: 0 <= i < |sectors| ==> SliceAt(now, i) == sectors[i]
    ensures now[|sectors| * SECTOR_SIZE..] == b[|sectors| * SECTOR_SIZE..]
  {
    var front := Flatten(sectors);
    forall i | 0 <= i < |sectors|
      ensures SliceAt(now, i) == sectors[i]
    {
      FlattenAt(sectors, SECTOR_SIZE, i);
      assert SliceAt(now, i) == front[i * SECTOR_SIZE..i * SECTOR_SIZE + SECTOR_SIZE];
    }
  }

  /** A write changes exactly the first k sectors of its range, to the buffer's slices;
      it covers the range exactly when the device took every sector without a fault. Every
      command meets a ready device, except that the flush comes too early exactly when the
      device took every sector and is busy after the last. */
  lemma WriteChangesRange(
    before: seq<Channel>, after: seq<Channel>, info: DeviceInfo, lba: dword, b: seq<byte>, n: nat)
    returns (k: nat)
    requires HasDrive(before, info) && |after| == 2 && n * SECTOR_SIZE <= |b|
    requires IsWrittenBy(before, after, info, lba, b, n)
    ensures k <= n
    ensures var start, m := AddressSent(info.features, lba), Drive(before, info);
      && after[info.channel].media == before[info.channel].media[info.drive := Update(m, start, Slices(b, n)[..k])]
      && (k == n <==> forall i :: 0 <= i < n ==>
            Completes(m, ModeFor(info.features, lba), start, Plan(before, info), i))
    ensures var start, mode, plan := AddressSent(info.features, lba), ModeFor(info.features, lba), Plan(before, info);
      after[info.channel].early == before[info.channel].early +
        if TransfersAll(Drive(before, info), mode, start, n, plan) && PhaseAt(plan, n).busy != [] then 1 else 0
    ensures after[1 - info.channel] == before[1 - info.channel]
  {
    var start, mode, m := AddressSent(info.features, lba), ModeFor(info.features, lba), Drive(before, info);
    k := WriteCount(m, mode, start, n, Plan(before, info));
    WriteRunRefinesMap(m, mode, start, Slices(b, n), Plan(before, info));
    WriteCompletesIff(m, mode, start, n, Plan(before, info));
    LeftBusyIff(m, mode, start, n, Plan(before, info));
    hide WriteRun, WriteCount, LeftBusy, Update, Completes, TransfersAll, IsSuffix, AddressSent, ModeFor, Slices;
  }

  /** What a completed write stored, a successful read returns, even when the two calls
      address the drive in different modes. */
  lemma WriteReadRoundTrip(
    s0: seq<Channel>, s1: seq<Channel>, s2: seq<Channel>, writer: DeviceInfo, reader: DeviceInfo, lba: dword, n: nat,
    data: seq<byte>, b: seq<byte>, now: seq<byte>)
    requires HasDrive(s0, writer) && HasDrive(s1, reader) && |s2| == 2
    requires writer.channel == reader.channel && writer.drive == reader.drive
    requires n * SECTOR_SIZE <= |data| && n * SECTOR_SIZE <= |b|
    requires AddressSent(writer.features, lba) == AddressSent(reader.features, lba) == lba
    requires IsWrittenBy(s0, s1, writer, lba, data, n)
    requires forall i :: 0 <= i < n ==>
      Completes(Drive(s0, writer), ModeFor(writer.features, lba), lba, Plan(s0, writer), i)
    requires IsReadBy(s1, s2, reader, lba, n, b, now, 0)
    ensures n * SECTOR_SIZE <= |now| && Slices(now, n) == Slices(data, n)
  {
    hide IsReadBy, AddressSent, Completes, ModeFor, IsWrittenBy;
    CompleteWrite(s0, s1, writer, lba, data, n);
    var j := ReadFillsBuffer(s1, s2, reader, lba, n, b, now, 0);
    ShownUpdate(now, Drive(s0, writer), lba, Slices(data, n));
  }

  lemma CompleteWrite(s0: seq<Channel>, s1: seq<Channel>, writer: DeviceInfo, lba: dword, data: seq<byte>, n: nat)
    requires HasDrive(s0, writer) && HasDrive(s1, writer) && n * SECTOR_SIZE <= |data|
    requires AddressSent(writer.features, lba) == lba && IsWrittenBy(s0, s1, writer, lba, data, n)
    requires forall i :: 0 <= i < n ==>
      Completes(Drive(s0, writer), ModeFor(writer.features, lba), lba, Plan(s0, writer), i)
    ensures Drive(s1, writer) == Update(Drive(s0, writer), lba, Slices(data, n))
  {
    var k := WriteChangesRange(s0, s1, writer, lba, data, n);
    assert Slices(data, n)[..n] == Slices(data, n);
    hide IsWrittenBy, AddressSent, Completes, ModeFor, Slices;
  }

  lemma ShownUpdate(now: seq<byte>, m: Media, lba: nat, data: seq<Sector>)
    requires Shows(now, Update(m, lba, data), lba, |data|)
    ensures Slices(now, |data|) == data
  {
    forall i | 0 <= i < |data|
      ensures Slices(now, |data|)[i] == data[i]
    {
      var shown := SliceAt(now, i);
      assert shown == Update(m, lba, data)[lba + i];
    }
  }

  /** A fault-free device and a range inside the drive: the read succeeds and the write
      is complete. */
  lemma {:induction false} HealthyAccess(ports: seq<Channel>, info: DeviceInfo, lba: dword, n: nat)
    requires HasDrive(ports, info) && Healthy(Plan(ports, info))
    requires var mode, start := ModeFor(info.features, lba), AddressSent(info.features, lba);
      forall s :: start <= s < start + n ==> Addressable(Drive(ports, info), mode, s)
    ensures var mode, start := ModeFor(info.features, lba), AddressSent(info.features, lba);
      && ReadRun(Drive(ports, info), mode, start, n, Plan(ports, info)).1 == 0
      && WriteCount(Drive(ports, info), mode, start, n, Plan(ports, info)) == n
  {
    HealthyRuns(Drive(ports, info), ModeFor(info.features, lba), AddressSent(info.features, lba), n, Plan(ports, info));
  }

  // ---------- writes that go wrong ----------

  /** A drive without LBA: a write to the first sector past the last cylinder replaces
      sector 0. */
  lemma WriteWrapsToZero(before: seq<Channel>, after: seq<Channel>, info: DeviceInfo, b: seq<byte>)
    requires HasDrive(before, info) && |after| == 2 && |b| == SECTOR_SIZE
    requires info.features == 0 && Healthy(Plan(before, info)) && 0 in Drive(before, info)
    requires IsWrittenBy(before, after, info, CHS_LIMIT, b, 1)
    ensures AddressSent(0, CHS_LIMIT) == 0
    ensures Drive(after, info) == Drive(before, info)[0 := b]
  {
    var m := Drive(before, info);
    assert ModeFor(0, CHS_LIMIT) == Chs && AddressSent(0, CHS_LIMIT) == 0;
    var data := Slices(b, 1);
    assert data[0] == b[0..SECTOR_SIZE] == b;
    hide ModeFor, AddressSent, Slices;
    HealthyRuns(m, Chs, 0, 1, Plan(before, info));
    WriteRunRefinesMap(m, Chs, 0, data, Plan(before, info));
    hide WriteRun, WriteCount, LeftBusy, IsSuffix, Healthy;
    OneSector(m, data);
  }

  lemma OneSector(m: Media, data: seq<Sector>)
    requires |data| == 1 && 0 in m
    ensures Update(m, 0, data[..1]) == m[0 := data[0]]
  {
  }

  /** A device that fails the command: the call reports success and nothing is written. */
  method UnnoticedFailure(media: Media) returns (ide: IdeDriver, code: int)
    ensures fresh(ide) && ide.Valid() && code == 0
    ensures ide.ports[0].media == [media, map[]]
  {
    var plan := [Phase([], FAILED, ABORTED, false)];
    var ports := PowerOn(media, plan);
    PowerOnIsWired(media, plan);
    PowerOnDrive(media, plan);
    hide Wired, PowerOn, IsWrittenBy, IsLeftAsked, DriveByModel;
    ide := new IdeDriver([ChannelInfo(0x1F0, 0x3F6, 0), ChannelInfo(0x170, 0x376, 0)], ports);
    var info := UNUSED.(present := true, features := LBA_FEATURE, size := 100);
    ide.devices := ide.devices[0 := info];
    var buffer := new byte[SECTOR_SIZE](_ => 1);
    code := ide.WriteSectors(0, 1, 0, buffer);
    Pair(ide.ports, ide.channels);
    FailedWriteIsLost(ports, ide.ports, info, buffer[..]);
  }

  lemma PowerOnDrive(media: Media, plan: seq<Phase>)
    ensures var ports := PowerOn(media, plan);
      && |ports| == 2 && ports[0].media == [media, map[]] && ports[0].plan == plan && |ports[1].media| == 2
      && ports[0].transfer.Idle? && ports[1].transfer.Idle?
  {
  }

  lemma FailedWriteIsLost(before: seq<Channel>, after: seq<Channel>, info: DeviceInfo, b: seq<byte>)
    requires HasDrive(before, info) && |after| == 2 && |b| == SECTOR_SIZE
    requires Plan(before, info) != [] && Plan(before, info)[0].status == FAILED
    requires IsWrittenBy(before, after, info, 0, b, 1)
    ensures after[info.channel].media == before[info.channel].media
  {
    FailedIsRefused();
    hide AddressSent, ModeFor, Slices;
  }

  /** A read of no sectors reports success and leaves the device waiting to send 256. */
  method CountOfZero(media: Media) returns (ide: IdeDriver, code: int)
    requires 0 in media
    ensures fresh(ide) && code == 0 && |ide.ports| == 2
    ensures ide.ports[0].transfer.DataIn? && ide.ports[0].transfer.left == 256
  {
    var ports := PowerOn(media, []);
    PowerOnIsWired(media, []);
    hide Wired;
    ide := new IdeDriver([ChannelInfo(0x1F0, 0x3F6, 0), ChannelInfo(0x170, 0x376, 0)], ports);
    var info := UNUSED.(present := true, features := LBA_FEATURE, size := 100);
    ide.devices := ide.devices[0 := info];
    var buffer := new byte[SECTOR_SIZE](_ => 0);
    ghost var err, k;
    code, err, k := ide.ReadSectors(0, 0, 0, buffer);
    Pair(ide.ports, ide.channels);
    GrantedAtOnce(media);
  }

  lemma GrantedAtOnce(media: Media)
    requires 0 in media
    ensures ModeFor(LBA_FEATURE, 0) == Lba28 && AddressSent(LBA_FEATURE, 0) == 0 && Asked(Lba28, 0) == 256
    ensures Grants(Settled(Head([]), media, Lba28, 0))
  {
  }
}
