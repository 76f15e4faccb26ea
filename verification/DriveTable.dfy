/** What the drives answer to IDENTIFY, and the table the driver builds from it. */
module DriveTable {
  import opened Bytes
  import opened AtaDevice
  import opened AtaDriver

  const IDENT_CAPABILITIES := 98
  const IDENT_MAX_LBA := 120
  const IDENT_COMMANDSETS := 164
  const IDENT_MAX_LBA_EXT := 200
  const IDENT_MODEL := 54
  const IDENT_MODEL_SIZE := 40
  const SPACE: byte := 0x20

  type Identity = s: seq<byte> | |s| == 512 witness Zeros(512)

  /** No device; a device that rejects IDENTIFY and shows its signature bytes; a plain
      ATA device. */
  datatype Response = Absent | Rejected(low: byte, high: byte, packet: Identity) | Identified(ident: Identity)

  function Kind(r: Response): Option<nat> {
    match r
    case Absent => None
    case Rejected(low, high, _) =>
      if (low == 0x14 && high == 0xEB) || (low == 0x69 && high == 0x96) then Some(IDE_ATAPI) else None
    case Identified(_) => Some(IDE_ATA)
  }

  function IdentityOf(r: Response): Identity
    requires !r.Absent?
  {
    if r.Rejected? then r.packet else r.ident
  }

  function DriveSize(ident: Identity): dword {
    if U32(ident, IDENT_COMMANDSETS) / 0x400_0000 % 2 == 1 then U32(ident, IDENT_MAX_LBA_EXT)
      else U32(ident, IDENT_MAX_LBA)
  }

  /** Bytes of each pair exchanged. */
  function Swapped(s: seq<byte>): (t: seq<byte>)
    requires |s| % 2 == 0
    ensures |t| == |s|
    ensures forall k :: 0 <= k < |s| ==> t[k] == s[if k % 2 == 0 then k + 1 else k - 1]
  {
    seq(|s|, k requires 0 <= k < |s| => s[if k % 2 == 0 then k + 1 else k - 1])
  }

  /** The length without the longest run of spaces at the end. */
  function TrimmedLength(s: seq<byte>): (n: nat)
    ensures n <= |s|
    ensures forall k :: n <= k < |s| ==> s[k] == SPACE
    ensures n > 0 ==> s[n - 1] != SPACE
  {
    if s == [] || s[|s| - 1] != SPACE then |s| else TrimmedLength(s[..|s| - 1])
  }

  function ModelText(ident: Identity): seq<byte> {
    var s := Swapped(ident[IDENT_MODEL..IDENT_MODEL + IDENT_MODEL_SIZE]);
    s[..TrimmedLength(s)]
  }

  /** The model field: the text, then zeros to the end of the 41 bytes. */
  function ModelField(ident: Identity): (f: seq<byte>)
    ensures |f| == MODEL_SIZE && HasString(f)
  {
    var text := ModelText(ident);
    var f := text + Zeros(MODEL_SIZE - |text|);
    assert f[IDENT_MODEL_SIZE] == 0;
    f
  }

  function Record(r: Response, channel: nat, drive: nat): DeviceInfo
    requires Kind(r).Some?
  {
    var ident := IdentityOf(r);
    DeviceInfo(true, channel, drive, Kind(r).value, U16(ident, IDENT_CAPABILITIES), DriveSize(ident), ModelField(ident))
  }

  /** Which answers are drives: every plain ATA device, and a device that rejects the command
      with one of the two packet signatures. */
  lemma KindOfAnswer(r: Response)
    ensures Kind(r) == Some(0) <==> r.Identified?
    ensures Kind(r) == Some(1) <==>
      r.Rejected? && ((r.low == 0x14 && r.high == 0xEB) || (r.low == 0x69 && r.high == 0x96))
    ensures Kind(r).None? <==> Kind(r) != Some(0) && Kind(r) != Some(1)
  {
  }

  /** Where a table entry comes from, byte by byte of the 512 sent: the capabilities at 98, the
      size at 200 when bit 26 of the command sets at 164 is set and else at 120, and the
      model at 54, its pairs exchanged. */
  lemma RecordFields(r: Response, channel: nat, drive: nat)
    requires Kind(r).Some?
    ensures var d, b := Record(r, channel, drive), if r.Rejected? then r.packet else r.ident;
      && d.present && d.channel == channel && d.drive == drive && Some(d.kind) == Kind(r)
      && d.features as int == b[98] as int + 256 * b[99] as int
      && d.size as int == (if b[167] as int / 4 % 2 == 1 then Dword(b, 200) else Dword(b, 120))
      && |d.model| == 41
      && forall k :: 0 <= k < 41 ==>
           d.model[k] == if k < TextLength(b) then b[54 + if k % 2 == 0 then k + 1 else k - 1] else 0
  {
    var b := IdentityOf(r);
    LittleEndian(b, 98);
    LittleEndian(b, 164);
    LittleEndian(b, 120);
    LittleEndian(b, 200);
    Bit26(b[164], b[165], b[166], b[167]);
    ModelBytes(b);
    hide U32, U16, ModelField, Dword, TextLength, Kind;
    assert Dword(b, 200) == U32(b, 200) && Dword(b, 120) == U32(b, 120) by {
      DwordIs(b, 200);
      DwordIs(b, 120);
    }
  }

  function Dword(b: seq<byte>, o: nat): int
    requires o + 4 <= |b|
  {
    b[o] as int + 256 * b[o + 1] as int + 65536 * b[o + 2] as int + 16777216 * b[o + 3] as int
  }

  lemma DwordIs(b: seq<byte>, o: nat)
    requires o + 4 <= |b|
    ensures Dword(b, o) == U32(b, o)
  {
  }

  /** How much of the 40 bytes is left when the spaces at the end are gone. */
  function TextLength(b: Identity): nat {
    TrimmedLength(Swapped(b[54..94]))
  }

  lemma ModelBytes(b: Identity)
    ensures |ModelField(b)| == 41
    ensures forall k :: 0 <= k < 41 ==>
      ModelField(b)[k] == if k < TextLength(b) then b[54 + if k % 2 == 0 then k + 1 else k - 1] else 0
  {
    var s := Swapped(b[54..94]);
    assert ModelField(b) == s[..TrimmedLength(s)] + Zeros(41 - TrimmedLength(s));
    hide TrimmedLength, ModelField;
  }

  lemma Bit26(b0: byte, b1: byte, b2: byte, b3: byte)
    ensures var v := b0 as int + 256 * b1 as int + 65536 * b2 as int + 16777216 * b3 as int;
      v / 0x400_0000 % 2 == b3 as int / 4 % 2
  {
    var low := b0 as int + 256 * b1 as int + 65536 * b2 as int + 16777216 * (b3 as int % 4);
    var v := b0 as int + 256 * b1 as int + 65536 * b2 as int + 16777216 * b3 as int;
    assert v == b3 as int / 4 * 0x400_0000 + low;
    DivisionIs(v, b3 as int / 4, 0x400_0000, low);
  }

  /** The detected drives, in channel-major order of the responses. */
  function Detected(responses: seq<Response>): (table: seq<DeviceInfo>)
    ensures |table| <= |responses|
  {
    if responses == [] then []
    else
      var n := |responses| - 1;
      Detected(responses[..n]) + if Kind(responses[n]).Some? then [Record(responses[n], n / 2, n % 2)] else []
  }

  predicate Before(a: DeviceInfo, b: DeviceInfo) {
    2 * a.channel + a.drive < 2 * b.channel + b.drive
  }

  predicate IsResponder(d: DeviceInfo, responses: seq<Response>) {
    var i := 2 * d.channel + d.drive;
    d.drive < 2 && i < |responses| && Kind(responses[i]).Some? && d == Record(responses[i], d.channel, d.drive)
  }

  ghost predicate AllRespond(table: seq<DeviceInfo>, responses: seq<Response>) {
    forall k :: 0 <= k < |table| ==> IsResponder(table[k], responses)
  }

  ghost predicate InOrder(table: seq<DeviceInfo>) {
    forall j, k :: 0 <= j < k < |table| ==> Before(table[j], table[k])
  }

  ghost predicate AllListed(table: seq<DeviceInfo>, responses: seq<Response>) {
    forall i :: 0 <= i < |responses| && Kind(responses[i]).Some? ==> Record(responses[i], i / 2, i % 2) in table
  }

  /** The table holds exactly the responders, each once, ordered by channel and then by
      drive. */
  lemma {:induction false} DetectedAreResponders(responses: seq<Response>)
    ensures AllRespond(Detected(responses), responses)
    ensures InOrder(Detected(responses))
    ensures AllListed(Detected(responses), responses)
  {
    if responses != [] {
      var n := |responses| - 1;
      DetectedAreResponders(responses[..n]);
      assert responses == responses[..n] + [responses[n]];
      var table, r := Detected(responses[..n]), responses[n];
      StillRespond(table, responses[..n], r);
      StillListed(table, responses[..n], r);
      if Kind(r).Some? {
        RecordResponds(responses[..n], r);
        StillInOrder(table, responses[..n], Record(r, n / 2, n % 2));
      }
      hide AllRespond, InOrder, AllListed, Record;
    }
  }

  lemma RecordResponds(responses: seq<Response>, r: Response)
    requires Kind(r).Some?
    ensures var n := |responses|;
      var d := Record(r, n / 2, n % 2);
      IsResponder(d, responses + [r]) && 2 * d.channel + d.drive == n
  {
    hide ModelField, DriveSize;
  }

  lemma StillRespond(table: seq<DeviceInfo>, responses: seq<Response>, r: Response)
    requires AllRespond(table, responses)
    ensures var n := |responses|;
      AllRespond(table + if Kind(r).Some? then [Record(r, n / 2, n % 2)] else [], responses + [r])
  {
    forall k | 0 <= k < |table|
      ensures IsResponder(table[k], responses + [r])
    {
      assert IsResponder(table[k], responses);
    }
    if Kind(r).Some? {
      RecordResponds(responses, r);
    }
    hide IsResponder, Record;
  }

  lemma StillInOrder(table: seq<DeviceInfo>, responses: seq<Response>, d: DeviceInfo)
    requires InOrder(table) && AllRespond(table, responses) && 2 * d.channel + d.drive == |responses|
    ensures InOrder(table + [d])
  {
    forall k | 0 <= k < |table|
      ensures Before(table[k], d)
    {
      assert IsResponder(table[k], responses);
    }
  }

  lemma StillListed(table: seq<DeviceInfo>, responses: seq<Response>, r: Response)
    requires AllListed(table, responses)
    ensures var n := |responses|;
      AllListed(table + if Kind(r).Some? then [Record(r, n / 2, n % 2)] else [], responses + [r])
  {
    hide Record, Kind;
    var n, all := |responses|, responses + [r];
    var last := if Kind(r).Some? then [Record(r, n / 2, n % 2)] else [];
    forall i | 0 <= i < |all| && Kind(all[i]).Some?
      ensures Record(all[i], i / 2, i % 2) in table + last
    {
      if i < n {
        assert Record(responses[i], i / 2, i % 2) in table;
      }
    }
  }

  // ---------- the probe loops ----------

  /** The model field as the two loops build it in place: pairs swapped, terminated, and
      the spaces at the end overwritten from the back. */
  method ReadModel(ident: Identity) returns (field: seq<byte>)
    ensures field == ModelField(ident)
  {
    hide Swapped, TrimmedLength;
    var model := new byte[MODEL_SIZE];
    ghost var s := Swapped(ident[IDENT_MODEL..IDENT_MODEL + IDENT_MODEL_SIZE]);
    SwapPairs(ident, model);
    model[IDENT_MODEL_SIZE] := 0;
    TrimSpaces(model, s);
    field := model[..];
  }

  method SwapPairs(ident: Identity, model: array<byte>)
    requires model.Length == MODEL_SIZE
    modifies model
    ensures model[..IDENT_MODEL_SIZE] == Swapped(ident[IDENT_MODEL..IDENT_MODEL + IDENT_MODEL_SIZE])
  {
    ghost var raw := ident[IDENT_MODEL..IDENT_MODEL + IDENT_MODEL_SIZE];
    ghost var s := Swapped(raw);
    hide Swapped;
    var k := 0;
    while k < IDENT_MODEL_SIZE
      invariant 0 <= k <= IDENT_MODEL_SIZE && k % 2 == 0
      invariant forall j :: 0 <= j < k ==> model[j] == s[j]
    {
      assert s[k] == raw[k + 1] && s[k + 1] == raw[k];
      model[k] := ident[IDENT_MODEL + k + 1];
      model[k + 1] := ident[IDENT_MODEL + k];
      k := k + 2;
    }
  }

  method TrimSpaces(model: array<byte>, ghost s: seq<byte>)
    requires model.Length == MODEL_SIZE && |s| == IDENT_MODEL_SIZE
    requires model[..IDENT_MODEL_SIZE] == s && model[IDENT_MODEL_SIZE] == 0
    modifies model
    ensures model[..] == s[..TrimmedLength(s)] + Zeros(MODEL_SIZE - TrimmedLength(s))
  {
    ghost var n := TrimmedLength(s);
    hide TrimmedLength;
    var k := IDENT_MODEL_SIZE - 1;
    while k >= 0
      invariant n - 1 <= k < IDENT_MODEL_SIZE
      invariant forall j :: 0 <= j <= k ==> model[j] == s[j]
      invariant forall j :: k < j < MODEL_SIZE ==> model[j] == 0
    {
      if model[k] == SPACE {
        model[k] := 0;
      } else {
        break;
      }
      k := k - 1;
    }
    assert k == n - 1;
  }

  /** From the first free slot on, at most the present flag has been cleared. */
  ghost predicate AtMostCleared(before: seq<DeviceInfo>, now: seq<DeviceInfo>, count: nat) {
    && |before| == |now|
    && forall k :: count <= k < |now| ==> now[k] == before[k] || now[k] == before[k].(present := false)
  }

  /** What the loops keep: the table so far, of the first n responses. */
  ghost predicate Tabulated(before: seq<DeviceInfo>, now: seq<DeviceInfo>, count: nat, responses: seq<Response>, n: nat)
    requires n <= |responses|
  {
    && count == |Detected(responses[..n])| <= |now|
    && now[..count] == Detected(responses[..n])
    && AtMostCleared(before, now, count)
  }

  /** One probe clears the free slot and fills it when a drive answers. */
  lemma OneMoreProbe(before: seq<DeviceInfo>, now: seq<DeviceInfo>, count: nat, responses: seq<Response>, n: nat)
    requires n < |responses| < |now| && Tabulated(before, now, count, responses, n)
    ensures count <= n
    ensures var r, cleared := responses[n], now[count := now[count].(present := false)];
      if Kind(r).Some? then Tabulated(before, cleared[count := Record(r, n / 2, n % 2)], count + 1, responses, n + 1)
      else Tabulated(before, cleared, count, responses, n + 1)
  {
    var r, cleared := responses[n], now[count := now[count].(present := false)];
    ProbeClears(before, now, count, responses, n);
    if Kind(r).Some? {
      ProbeFills(before, cleared, count, responses, n);
    } else {
      assert Detected(responses[..n + 1]) == Detected(responses[..n]) by {
        OneMoreResponse(responses, n);
      }
      hide Detected, AtMostCleared, Record, Kind;
    }
  }

  lemma OneMoreResponse(responses: seq<Response>, n: nat)
    requires n < |responses|
    ensures var r := responses[n];
      Detected(responses[..n + 1])
        == Detected(responses[..n]) + if Kind(r).Some? then [Record(r, n / 2, n % 2)] else []
  {
    assert responses[..n + 1][..n] == responses[..n];
    hide Record, Kind;
  }

  lemma ProbeClears(
    before: seq<DeviceInfo>, now: seq<DeviceInfo>, count: nat, responses: seq<Response>, n: nat)
    requires n < |responses| < |now| && Tabulated(before, now, count, responses, n)
    ensures count <= n
    ensures Tabulated(before, now[count := now[count].(present := false)], count, responses, n)
  {
    var cleared := now[count := now[count].(present := false)];
    assert cleared[..count] == now[..count];
    hide Detected;
  }

  lemma ProbeFills(
    before: seq<DeviceInfo>, cleared: seq<DeviceInfo>, count: nat, responses: seq<Response>, n: nat)
    requires n < |responses| < |cleared| && Tabulated(before, cleared, count, responses, n) && count <= n
    requires Kind(responses[n]).Some?
    ensures Tabulated(before, cleared[count := Record(responses[n], n / 2, n % 2)], count + 1, responses, n + 1)
  {
    var entry := Record(responses[n], n / 2, n % 2);
    OneMoreResponse(responses, n);
    hide Detected, Record, Kind;
    assert cleared[count := entry][..count + 1] == cleared[..count] + [entry];
  }

  /** The four probes, filling the table from the front. */
  method DetectDrives(responses: seq<Response>, devices: array<DeviceInfo>) returns (count: nat)
    requires |responses| == 4 && devices.Length == MAXIMUM_DEVICES
    modifies devices
    ensures count == |Detected(responses)| <= 4
    ensures devices[..count] == Detected(responses)
    ensures AtMostCleared(old(devices[..]), devices[..], count)
  {
    hide Detected, ModelField, DriveSize, U16, AtMostCleared;
    ghost var before := devices[..];
    count := 0;
    NothingDetected(before, responses);
    var i := 0;
    while i < 2
      invariant 0 <= i <= 2
      invariant Tabulated(before, devices[..], count, responses, 2 * i)
    {
      var j := 0;
      while j < 2
        invariant 0 <= j <= 2
        invariant Tabulated(before, devices[..], count, responses, 2 * i + j)
      {
        var r := responses[2 * i + j];
        OneMoreProbe(before, devices[..], count, responses, 2 * i + j);
        ghost var now := devices[..];
        devices[count] := devices[count].(present := false);
        assert devices[..] == now[count := now[count].(present := false)];
        if Kind(r).Some? {
          var ident := IdentityOf(r);
          var model := ReadModel(ident);
          devices[count] :=
            DeviceInfo(true, i, j, Kind(r).value, U16(ident, IDENT_CAPABILITIES), DriveSize(ident), model);
          count := count + 1;
        }
        j := j + 1;
      }
      assert 2 * i + 2 == 2 * (i + 1);
      i := i + 1;
    }
    assert responses[..4] == responses;
  }

  /** Brings the driver up: channels, interrupts off, and the four probes. The ports are the
      hardware as the probes leave it. */
  method IdeInit(
    primBase: word, primControl: word, secBase: word, secControl: word, ports: seq<Channel>, responses: seq<Response>)
    returns (ide: IdeDriver, count: nat)
    requires Wired(ports, [ChannelInfo(primBase, primControl, 0), ChannelInfo(secBase, secControl, 0)])
    requires ports[0].transfer.Idle? && ports[1].transfer.Idle? && |responses| == 4
    ensures fresh(ide) && ide.Valid() && ide.ports == ports
    ensures count == |Detected(responses)| <= 4 && IsTable(ide.devices, responses)
    ensures forall d :: 0 <= d < |ide.devices| ==> HasString(ide.devices[d].model)
  {
    hide Detected, Wired, RegisterWritten;
    ide := new IdeDriver([ChannelInfo(primBase, primControl, 0), ChannelInfo(secBase, secControl, 0)], ports);
    WriteEffect(ports, ide.channels, 0, REG_CONTROL, 2);
    ide.WriteRegister(0, REG_CONTROL, 2);
    WriteEffect(ports, ide.channels, 1, REG_CONTROL, 2);
    ide.WriteRegister(1, REG_CONTROL, 2);
    var devices := new DeviceInfo[MAXIMUM_DEVICES](_ => UNUSED);
    ghost var before := devices[..];
    count := DetectDrives(responses, devices);
    TableIs(before, devices[..], count, responses);
    hide IsTable;
    ide.devices := devices[..];
  }

  /** The detected drives, then entries that were never filled. */
  ghost predicate IsTable(devices: seq<DeviceInfo>, responses: seq<Response>) {
    && |devices| == MAXIMUM_DEVICES && |Detected(responses)| <= MAXIMUM_DEVICES
    && devices[..|Detected(responses)|] == Detected(responses)
    && forall k :: |Detected(responses)| <= k < MAXIMUM_DEVICES ==> devices[k] == UNUSED
  }

  lemma {:induction false} TableIs(
      before: seq<DeviceInfo>, devices: seq<DeviceInfo>, count: nat, responses: seq<Response>)
    requires before == seq(MAXIMUM_DEVICES, _ => UNUSED) && AtMostCleared(before, devices, count)
    requires count == |Detected(responses)| <= 4 && |responses| == 4 && devices[..count] == Detected(responses)
    ensures IsTable(devices, responses)
    ensures forall d :: 0 <= d < |devices| ==>
      devices[d].channel < 2 && devices[d].drive < 2 && HasString(devices[d].model)
  {
    DetectedAreResponders(responses);
    hide Detected;
    assert UNUSED.(present := false) == UNUSED;
    assert UNUSED.model[0] == 0;
    forall d | 0 <= d < count
      ensures devices[d].channel < 2 && devices[d].drive < 2 && HasString(devices[d].model)
    {
      assert devices[d] == Detected(responses)[d];
      assert IsResponder(Detected(responses)[d], responses);
    }
  }

  lemma NothingDetected(before: seq<DeviceInfo>, responses: seq<Response>)
    ensures Tabulated(before, before, 0, responses, 0)
  {
    assert before[..0] == [] && responses[..0] == [];
  }
}
