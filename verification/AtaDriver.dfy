/** The PIO driver: port accesses in order, against the modelled channels. */
module AtaDriver {
  import opened Bytes
  import opened AtaDevice
  import opened Strings

  const MAXIMUM_DEVICES := 5
  const IDE_ATA := 0
  const IDE_ATAPI := 1
  const MODEL_SIZE := 41

  const REG_ERROR := 0x01
  const REG_SECCOUNT0 := 0x02
  const REG_LBA0 := 0x03
  const REG_LBA1 := 0x04
  const REG_LBA2 := 0x05
  const REG_HDDEVSEL := 0x06
  const REG_COMMAND := 0x07
  const REG_STATUS := 0x07
  const REG_SECCOUNT1 := 0x08
  const REG_LBA3 := 0x09
  const REG_LBA4 := 0x0A
  const REG_LBA5 := 0x0B
  const REG_CONTROL := 0x0C
  const REG_ALTSTATUS := 0x0C

  const CMD_READ_PIO: byte := 0x20
  const CMD_READ_PIO_EXT: byte := 0x24
  const CMD_WRITE_PIO: byte := 0x30
  const CMD_WRITE_PIO_EXT: byte := 0x34
  const CMD_CACHE_FLUSH: byte := 0xE7
  const CMD_CACHE_FLUSH_EXT: byte := 0xEA

  const LBA_FEATURE := 0x200

  datatype Direction = Read | Write

  datatype ChannelInfo = ChannelInfo(base: word, control: word, noIntr: word)

  datatype DeviceInfo = DeviceInfo(
    present: bool,
    channel: nat,
    drive: nat,
    kind: nat,
    features: word,
    size: dword,
    model: seq<byte>
  )

  /** A table entry as the program starts with it. */
  const UNUSED: DeviceInfo := DeviceInfo(false, 0, 0, IDE_ATA, 0, 0, Zeros(MODEL_SIZE))

  // ---------- the wiring ----------

  predicate InBlock(c: Channel, port: word) {
    c.base <= port < c.base + 8
  }

  /** The port a register number selects. */
  function PortOf(info: ChannelInfo, reg: nat): word
    requires reg <= REG_CONTROL
  {
    if reg < 0x08 then Wrap16(info.base + reg)
    else if reg < 0x0C then Wrap16(info.base + reg - 0x06)
    else Wrap16(info.control + reg - 0x0A)
  }

  /** The port writes around an access to one of the high registers 8 to 11: the
      device-control register, two above the control base, first with bit 7 set. */
  function HighAccess(info: ChannelInfo, between: seq<(word, byte)>): (w: seq<(word, byte)>)
    ensures |w| == |between| + 2
  {
    var control := (info.control + 2) % 0x1_0000;
    [(control, 0x80 + info.noIntr % 0x80)] + between + [(control, info.noIntr % 0x100)]
  }

  /** The port writes of one register write. */
  function PortWrites(info: ChannelInfo, reg: nat, v: byte): (w: seq<(word, byte)>)
    requires reg <= 12
    ensures |w| == if 8 <= reg < 12 then 3 else 1
  {
    if reg < 8 then [((info.base + reg) % 0x1_0000, v)]
    else if reg < 12 then HighAccess(info, [((info.base + reg - 6) % 0x1_0000, v)])
    else [((info.control + 2) % 0x1_0000, v)]
  }

  /** Each channel's base is where the hardware is; the ports the driver computes for
      the control register fall on no command block and not on the other channel. */
  ghost predicate Wired(ports: seq<Channel>, channels: seq<ChannelInfo>) {
    && |ports| == 2 && |channels| == 2
    && ValidChannel(ports[0]) && ValidChannel(ports[1])
    && channels[0].base == ports[0].base && channels[1].base == ports[1].base
    && (ports[0].base + 8 <= ports[1].base || ports[1].base + 8 <= ports[0].base)
    && !InBlock(ports[0], ports[1].control) && !InBlock(ports[1], ports[0].control)
    && ControlElsewhere(ports, channels[0], 1) && ControlElsewhere(ports, channels[1], 0)
  }

  ghost predicate ControlElsewhere(ports: seq<Channel>, info: ChannelInfo, other: nat)
    requires |ports| == 2 && other < 2
  {
    var port := PortOf(info, REG_CONTROL);
    !InBlock(ports[0], port) && !InBlock(ports[1], port) && port != ports[other].control
  }

  /** The ports ata_init passes put the driver's control writes at 0x3F8 and 0x378, two
      above the hardware's control registers; that is harmless to both channels. */
  lemma AtaInitIsWired(ports: seq<Channel>, noIntr: word)
    requires |ports| == 2 && ValidChannel(ports[0]) && ValidChannel(ports[1])
    requires ports[0].base == 0x1F0 && ports[0].control == 0x3F6
    requires ports[1].base == 0x170 && ports[1].control == 0x376
    ensures Wired(ports, [ChannelInfo(0x1F0, 0x3F6, noIntr), ChannelInfo(0x170, 0x376, noIntr)])
    ensures Wired(ports, [ChannelInfo(0x1F0, 0x3F4, noIntr), ChannelInfo(0x170, 0x374, noIntr)])
    ensures PortOf(ChannelInfo(0x1F0, 0x3F6, noIntr), 12) == 0x3F8
    ensures PortOf(ChannelInfo(0x170, 0x376, noIntr), 12) == 0x378
  {
  }

  /** The two channels of a machine at power-on, with one drive that has sectors. */
  function PowerOn(media: Media, plan: seq<Phase>): seq<Channel> {
    [IdleChannel(0x1F0, 0x3F6, media, plan), IdleChannel(0x170, 0x376, map[], [])]
  }

  function IdleChannel(base: word, control: word, media: Media, plan: seq<Phase>): Channel {
    var zero := Register(0, 0);
    Channel(base, control, [media, map[]], zero, zero, zero, zero, 0, [], READY, 0, false, 0, Idle, plan)
  }

  lemma PowerOnIsWired(media: Media, plan: seq<Phase>)
    requires ValidPlan(plan)
    ensures Wired(PowerOn(media, plan), [ChannelInfo(0x1F0, 0x3F6, 0), ChannelInfo(0x170, 0x376, 0)])
  {
    AtaInitIsWired(PowerOn(media, plan), 0);
  }

  /** Same hardware, as far as wiring goes. */
  ghost predicate SameWiring(c: Channel, d: Channel) {
    c.base == d.base && c.control == d.control && ValidChannel(d)
  }

  lemma UnaddressedChannel(c: Channel, port: word, v: byte, w: word)
    requires ValidChannel(c) && !InBlock(c, port) && port != c.control
    ensures OutByte(c, port, v) == c && InByte(c, port) == (c, 0xFF)
    ensures InWord(c, port) == (c, 0xFFFF) && OutWord(c, port, w) == c
  {
  }

  lemma ControlWriteIsIgnored(c: Channel, port: word, v: byte)
    requires ValidChannel(c) && !InBlock(c, port)
    ensures OutByte(c, port, v) == c
  {
  }

  lemma EnterIsValid(c: Channel, status: byte, error: byte, t: Transfer)
    requires ValidChannel(c) && !Bsy(status) && ValidTransfer(t)
    ensures var d := Enter(c, status, error, t);
      SameWiring(c, d) && d.media == c.media && d.early == c.early
  {
  }

  /** A status the device settles on is not a busy one. */
  lemma SettledIsOver(c: Channel, media: Media, mode: Addressing, lba: nat)
    requires ValidChannel(c)
    ensures !Bsy(Settled(Head(c.plan), media, mode, lba)) && !Bsy(Head(c.plan).status)
    ensures !Bsy(READY) && !Bsy(FAILED)
  {
  }

  lemma NextInIsValid(c: Channel, drive: nat, mode: Addressing, lba: nat, left: nat)
    requires ValidChannel(c) && drive < 2
    ensures SameWiring(c, NextIn(c, drive, mode, lba, left))
    ensures var d := NextIn(c, drive, mode, lba, left); d.media == c.media && d.early == c.early
  {
    if left > 0 {
      var p, media := Head(c.plan), c.media[drive];
      var status := Settled(p, media, mode, lba);
      SettledIsOver(c, media, mode, lba);
      EnterIsValid(c, status, ID_NOT_FOUND, Idle);
      EnterIsValid(c, status, p.error, Idle);
      if lba in media {
        EnterIsValid(c, status, p.error, DataIn(drive, mode, lba, left, media[lba], 0));
      }
      hide Enter, Settled, Grants, SameWiring, ValidChannel;
    }
  }

  lemma NextOutIsValid(c: Channel, drive: nat, mode: Addressing, lba: nat, left: nat)
    requires ValidChannel(c) && drive < 2
    ensures SameWiring(c, NextOut(c, drive, mode, lba, left))
    ensures var d := NextOut(c, drive, mode, lba, left); d.media == c.media && d.early == c.early
  {
    var p, media := Head(c.plan), c.media[drive];
    var status := Settled(p, media, mode, lba);
    SettledIsOver(c, media, mode, lba);
    EnterIsValid(c, READY, p.error, Idle);
    EnterIsValid(c, p.status, p.error, Idle);
    EnterIsValid(c, status, ID_NOT_FOUND, Idle);
    EnterIsValid(c, status, p.error, Idle);
    if left > 0 {
      EnterIsValid(c, status, p.error, DataOut(drive, mode, lba, left, []));
    }
    hide Enter, Settled, Grants, Faulty, SameWiring, ValidChannel;
  }

  lemma StoreIsValid(c: Channel, drive: nat, lba: nat, s: Sector)
    requires ValidChannel(c) && drive < 2
    ensures SameWiring(c, Store(c, drive, lba, s))
  {
  }

  lemma CommandIsValid(c: Channel, cmd: byte)
    requires ValidChannel(c)
    ensures SameWiring(c, Command(c, cmd))
  {
    hide NextIn, NextOut;
    forall drive: nat, mode, lba: nat, left | drive < 2
      ensures SameWiring(c, NextIn(c, drive, mode, lba, left)) && SameWiring(c, NextOut(c, drive, mode, lba, left))
    {
      NextInIsValid(c, drive, mode, lba, left);
      NextOutIsValid(c, drive, mode, lba, left);
    }
  }

  // ---------- addressing ----------

  function ModeFor(features: word, lba: dword): Addressing {
    if lba >= 0x1000_0000 then Lba48
    else if features as int / LBA_FEATURE % 2 == 1 then Lba28
    else Chs
  }

  /** The sector the device is asked for: the one wanted, except that the 16-bit
      cylinder wraps in CHS mode. */
  function AddressSent(features: word, lba: dword): nat {
    if ModeFor(features, lba).Chs? then lba % CHS_LIMIT else lba
  }

  lemma AddressSentIsLba(features: word, lba: dword)
    ensures AddressSent(features, lba) == lba <==> !(ModeFor(features, lba).Chs? && lba >= CHS_LIMIT)
  {
  }

  /** Which addressing is chosen: 48-bit exactly from sector 2^28 on, below it LBA exactly for
      drives with bit 9 of the capabilities. */
  lemma ModeChosen(features: word, lba: dword)
    ensures ModeFor(features, lba) == Lba48 <==> lba >= 268_435_456
    ensures ModeFor(features, lba) == Lba28 <==> lba < 268_435_456 && features / 512 % 2 == 1
    ensures ModeFor(features, lba) == Chs <==> lba < 268_435_456 && features / 512 % 2 == 0
  {
  }

  /** The bytes the driver computes for an address: the six address bytes and the low
      nibble of the drive register. */
  datatype AddressBytes = AddressBytes(io: seq<byte>, head: nat)

  function Split(features: word, lba: dword): (a: AddressBytes)
    ensures |a.io| == 6 && a.head < 0x10
  {
    match ModeFor(features, lba)
    case Lba48 =>
      AddressBytes([lba % 0x100, lba / 0x100 % 0x100, lba / 0x1_0000 % 0x100, lba / 0x100_0000, 0, 0], 0)
    case Lba28 =>
      AddressBytes([lba % 0x100, lba / 0x100 % 0x100, lba / 0x1_0000 % 0x100, 0, 0, 0], lba / 0x100_0000)
    case Chs =>
      var sect := lba % 63 + 1;
      var cyl := Wrap16((lba + 1 - sect) / (16 * 63));
      AddressBytes([sect, cyl % 0x100, cyl / 0x100, 0, 0, 0], (lba + 1 - sect) % (16 * 63) / 63)
  }

  /** A channel whose registers hold an address and a count as the driver writes them,
      high bytes first in LBA48. */
  ghost predicate Holds(c: Channel, slave: nat, mode: Addressing, a: AddressBytes, n: byte)
    requires |a.io| == 6 && a.head < 0x10 && slave < 2
  {
    && c.device == (if mode.Chs? then 0xA0 else 0xE0) + 0x10 * slave + a.head
    && c.count.current == n && c.low.current == a.io[0] && c.mid.current == a.io[1] && c.high.current == a.io[2]
    && (mode.Lba48? ==>
          c.count.previous == 0 && c.low.previous == a.io[3] && c.mid.previous == a.io[4] && c.high.previous == a.io[5])
  }

  /** The sectors a command is for; a count of 0 stands for the most there can be. */
  function Asked(mode: Addressing, n: byte): nat {
    if n > 0 then n else if mode.Lba48? then 0x1_0000 else 0x100
  }

  /** The device reads back exactly the drive, mode, address and count. */
  lemma AddressRoundTrip(c: Channel, slave: nat, features: word, lba: dword, n: byte)
    requires slave < 2
    requires Holds(c, slave, ModeFor(features, lba), Split(features, lba), n)
    ensures var mode := ModeFor(features, lba);
      && SelectedDrive(c) == slave
      && (!mode.Lba48? ==> SelectedMode(c) == mode)
      && StartAddress(c, mode) == AddressSent(features, lba)
      && SectorCount(c, mode) == Asked(mode, n)
  {
    var mode, a := ModeFor(features, lba), Split(features, lba);
    DriveRegister(if mode.Chs? then 0xA0 else 0xE0, slave, a.head);
    SplitRecomposes(features, lba);
    hide Split, ModeFor, AddressSent;
  }

  /** What the registers hold: in CHS mode the sector number counted from 1 and the cylinder,
      with the head in the drive register; in LBA28 mode the address from its low byte up,
      its top four bits in the drive register; in LBA48 mode the low three bytes, and the
      rest pushed down below them. The drive register says 0xA or 0xE and the drive's bit. */
  lemma RegisterContents(c: Channel, slave: nat, features: word, lba: dword, n: byte)
    requires slave < 2 && Holds(c, slave, ModeFor(features, lba), Split(features, lba), n)
    ensures c.count.current == n && c.device / 16 == (if ModeFor(features, lba).Chs? then 0xA else 0xE) + slave
    ensures ModeFor(features, lba).Chs? ==>
      && c.low.current == lba % 63 + 1
      && c.mid.current as int + 256 * c.high.current as int == lba / 1008 % 65536
      && c.device % 16 == lba / 63 % 16
    ensures ModeFor(features, lba).Lba28? ==>
      && c.low.current == lba % 256 && c.mid.current == lba / 256 % 256
      && c.high.current == lba / 65536 % 256 && c.device % 16 == lba / 16777216
    ensures ModeFor(features, lba).Lba48? ==>
      && c.low.current == lba % 256 && c.mid.current == lba / 256 % 256 && c.high.current == lba / 65536 % 256
      && c.low.previous == lba / 16777216 && c.mid.previous == c.high.previous == c.count.previous == 0
      && c.device % 16 == 0
  {
    var mode, a := ModeFor(features, lba), Split(features, lba);
    NibblesOfDrive(if mode.Chs? then 0xA else 0xE, slave, a.head);
    if mode.Chs? {
      var t, cyl := lba - lba % 63, Wrap16(lba / 1008);
      WholeTracks(lba);
      CylinderAndHead(lba / 63);
      CylinderBytes(cyl);
      TracksOfCylinders(lba);
    }
  }

  lemma NibblesOfDrive(select: nat, slave: nat, head: nat)
    requires select in {0xA, 0xE} && slave < 2 && head < 0x10
    ensures var v := 0x10 * select + 0x10 * slave + head; v / 16 == select + slave && v % 16 == head
  {
  }

  lemma TracksOfCylinders(lba: nat)
    ensures lba / 63 / 16 == lba / 1008 && (lba - lba % 63) / 1008 == lba / 1008
  {
    WholeTracks(lba);
    CylinderAndHead(lba / 63);
    var c, h, s := lba / 63 / 16, lba / 63 % 16, lba % 63;
    DivisionIs(lba, c, 1008, h * 63 + s);
  }

  lemma DriveRegister(select: byte, slave: nat, head: nat)
    requires select in {0xA0, 0xE0} && slave < 2 && head < 0x10
    ensures var v := select + 0x10 * slave + head;
      v / 0x10 % 2 == slave && v % 0x10 == head && (v / 0x40 % 2 == 1 <==> select == 0xE0)
  {
  }

  lemma SplitRecomposes(features: word, lba: dword)
    ensures var a := Split(features, lba);
      match ModeFor(features, lba) {
        case Chs => ((a.io[2] as int * 0x100 + a.io[1]) * HEADS + a.head) * SECTORS_PER_TRACK + a.io[0] - 1
          == AddressSent(features, lba)
        case Lba28 => a.head * 0x100_0000 + a.io[2] as int * 0x1_0000 + a.io[1] as int * 0x100 + a.io[0]
          == AddressSent(features, lba)
        case Lba48 =>
          && a.head == a.io[4] == a.io[5] == 0
          && a.io[3] as int * 0x100_0000 + a.io[2] as int * 0x1_0000 + a.io[1] as int * 0x100 + a.io[0]
            == AddressSent(features, lba)
      }
  {
    Recompose(lba);
    RecomposeChs(lba);
  }

  lemma Recompose(lba: dword)
    ensures lba == lba % 0x100 + lba / 0x100 % 0x100 * 0x100 + lba / 0x1_0000 % 0x100 * 0x1_0000
      + lba / 0x100_0000 * 0x100_0000
  {
    assert lba == lba % 0x100 + lba / 0x100 * 0x100;
    assert lba / 0x100 == lba / 0x100 % 0x100 + lba / 0x1_0000 * 0x100;
    assert lba / 0x1_0000 == lba / 0x1_0000 % 0x100 + lba / 0x100_0000 * 0x100;
  }

  lemma RecomposeChs(lba: dword)
    ensures var sect := lba % 63 + 1;
      var cyl := Wrap16((lba + 1 - sect) / 1008);
      var head := (lba + 1 - sect) % 1008 / 63;
      ((cyl / 0x100 * 0x100 + cyl % 0x100) * 16 + head) * 63 + sect - 1 == lba % CHS_LIMIT
  {
    var sect := lba % 63 + 1;
    var track := lba / 63;
    var t := lba + 1 - sect;
    var cyl := Wrap16(t / 1008);
    WholeTracks(lba);
    CylinderAndHead(track);
    CylinderBytes(cyl);
    CylinderWraps(lba, track, cyl);
  }

  lemma WholeTracks(lba: nat)
    ensures lba - lba % 63 == lba / 63 * 63
  {
  }

  lemma CylinderAndHead(track: nat)
    ensures track * 63 / 1008 == track / 16 && track * 63 % 1008 / 63 == track % 16
  {
    var c, h := track / 16, track % 16;
    assert track * 63 == c * 1008 + h * 63;
  }

  lemma CylinderBytes(cyl: word)
    ensures cyl / 0x100 * 0x100 + cyl % 0x100 == cyl
  {
  }

  lemma CylinderWraps(lba: nat, track: nat, cyl: word)
    requires track == lba / 63 && cyl == Wrap16(track / 16)
    ensures (cyl * 16 + track % 16) * 63 + lba % 63 == lba % CHS_LIMIT
  {
    var c := track / 16;
    var rest := cyl * 1008 + track % 16 * 63 + lba % 63;
    assert c == c / 0x1_0000 * 0x1_0000 + cyl;
    assert lba == c * 1008 + track % 16 * 63 + lba % 63;
    DivisionIs(lba, c / 0x1_0000, CHS_LIMIT, rest);
  }

  // ---------- one register access ----------

  function RegisterRead(c: Channel, info: ChannelInfo, reg: nat): (Channel, byte)
    requires reg <= REG_CONTROL
  {
    InByte(c, PortOf(info, reg))
  }

  function RegisterWritten(c: Channel, info: ChannelInfo, reg: nat, data: byte): Channel
    requires reg <= REG_CONTROL && |c.media| == 2
  {
    OutByte(c, PortOf(info, reg), data)
  }

  lemma RegisterIsOneChannels(ports: seq<Channel>, channels: seq<ChannelInfo>, ch: nat, reg: nat, v: byte, w: word)
    requires Wired(ports, channels) && ch < 2 && reg <= REG_CONTROL
    ensures var port, other := PortOf(channels[ch], reg), ports[1 - ch];
      && OutByte(other, port, v) == other && InByte(other, port) == (other, 0xFF)
      && InWord(other, port) == (other, 0xFFFF) && OutWord(other, port, w) == other
      && (reg == REG_CONTROL ==> OutByte(ports[ch], port, v) == ports[ch])
      && (reg < 0x08 ==> port == ports[ch].base + reg)
      && (0x08 <= reg < 0x0C ==> port == ports[ch].base + reg - 6)
  {
    var port := PortOf(channels[ch], reg);
    PortIsOneChannels(ports, channels, ch, reg);
    hide OutByte, InByte, InWord, OutWord, InBlock, PortOf;
    UnaddressedChannel(ports[1 - ch], port, v, w);
    if reg == REG_CONTROL {
      ControlWriteIsIgnored(ports[ch], port, v);
    }
  }

  lemma PortIsOneChannels(ports: seq<Channel>, channels: seq<ChannelInfo>, ch: nat, reg: nat)
    requires Wired(ports, channels) && ch < 2 && reg <= REG_CONTROL
    ensures var port, other := PortOf(channels[ch], reg), ports[1 - ch];
      && !InBlock(other, port) && port != other.control
      && (reg == REG_CONTROL ==> !InBlock(ports[ch], port))
      && (reg < 0x08 ==> port == ports[ch].base + reg)
      && (0x08 <= reg < 0x0C ==> port == ports[ch].base + reg - 6)
  {
    assert ports[0].base <= 0xFFF8 && ports[1].base <= 0xFFF8;
    hide ValidChannel;
    if reg < 0x0C {
      var k := if reg < 0x08 then reg else reg - 6;
      NoWrap(channels[ch].base, k);
      assert PortOf(channels[ch], reg) == channels[ch].base + k;
      hide PortOf;
    } else {
      hide PortOf;
    }
  }

  lemma NoWrap(base: word, k: nat)
    requires base <= 0xFFF8 && k < 8
    ensures Wrap16(base + k) == base + k
  {
  }

  lemma OutByteIsValid(c: Channel, port: word, v: byte)
    requires ValidChannel(c)
    ensures SameWiring(c, OutByte(c, port, v))
  {
    hide Command, SameWiring;
    var d := c.(early := c.early + 1);
    RegisterOutIsValid(c, port, v);
    RegisterOutIsValid(d, port, v);
    hide RegisterOut;
    SameWiringAgain(c, d, RegisterOut(d, port, v));
  }

  lemma RegisterOutIsValid(c: Channel, port: word, v: byte)
    requires ValidChannel(c)
    ensures SameWiring(c, RegisterOut(c, port, v))
  {
    hide Command;
    CommandIsValid(c, v);
  }

  lemma SameWiringAgain(c: Channel, d: Channel, e: Channel)
    requires ValidChannel(c) && d == c.(early := c.early + 1)
    ensures SameWiring(c, c) && SameWiring(c, d) && (SameWiring(d, e) ==> SameWiring(c, e))
  {
  }

  lemma InByteIsValid(c: Channel, port: word)
    requires ValidChannel(c)
    ensures SameWiring(c, InByte(c, port).0)
  {
  }

  lemma StaysWired(ports: seq<Channel>, channels: seq<ChannelInfo>, ch: nat, d: Channel)
    requires Wired(ports, channels) && ch < 2 && SameWiring(ports[ch], d)
    ensures Wired(ports[ch := d], channels)
  {
  }

  /** A register write reaches its own channel only; a control write changes nothing
      that matters to a transfer. */
  lemma WriteEffect(ports: seq<Channel>, channels: seq<ChannelInfo>, ch: nat, reg: nat, v: byte)
    requires Wired(ports, channels) && ch < 2 && reg <= REG_CONTROL
    ensures var port := PortOf(channels[ch], reg);
      var after := ports[ch := RegisterWritten(ports[ch], channels[ch], reg, v)];
      && [OutByte(ports[0], port, v), OutByte(ports[1], port, v)] == after
      && Wired(after, channels)
      && (reg == REG_CONTROL ==> after == ports)
  {
    RegisterIsOneChannels(ports, channels, ch, reg, v, 0);
    OutByteIsValid(ports[ch], PortOf(channels[ch], reg), v);
    StaysWired(ports, channels, ch, RegisterWritten(ports[ch], channels[ch], reg, v));
    hide OutByte, PortOf;
  }

  lemma ReadEffect(ports: seq<Channel>, channels: seq<ChannelInfo>, ch: nat, reg: nat)
    requires Wired(ports, channels) && ch < 2 && reg <= REG_CONTROL
    ensures var port := PortOf(channels[ch], reg);
      var r := RegisterRead(ports[ch], channels[ch], reg);
      && [InByte(ports[0], port).0, InByte(ports[1], port).0] == ports[ch := r.0]
      && Wired(ports[ch := r.0], channels)
      && r.1 == if InBlock(ports[1], port) || port == ports[1].control then InByte(ports[1], port).1
                else InByte(ports[0], port).1
  {
    var port := PortOf(channels[ch], reg);
    RegisterIsOneChannels(ports, channels, ch, reg, 0, 0);
    InByteIsValid(ports[ch], port);
    StaysWired(ports, channels, ch, InByte(ports[ch], port).0);
    if ch == 0 {
      assert !(InBlock(ports[1], port) || port == ports[1].control);
    } else if !(InBlock(ports[1], port) || port == ports[1].control) {
      UnaddressedChannel(ports[1], port, 0, 0);
    }
    hide InByte, PortOf;
  }

  /** Reading a status register shows the busy period tick by tick. */
  lemma StatusRead(ports: seq<Channel>, channels: seq<ChannelInfo>, ch: nat, reg: nat)
    requires Wired(ports, channels) && ch < 2 && reg in {REG_STATUS, REG_ALTSTATUS}
    ensures var c, r := ports[ch], RegisterRead(ports[ch], channels[ch], reg);
      && OnlyBusyEnded(ports, ports[ch := r.0], ch)
      && |r.0.busy| <= |c.busy|
      && (reg == REG_STATUS ==>
            && r.0 == Tick(c) && r.1 == Status(c)
            && (Bsy(r.1) <==> c.busy != []) && (Bsy(r.1) ==> |r.0.busy| < |c.busy|))
  {
    var c, port := ports[ch], PortOf(channels[ch], reg);
    PortIsOneChannels(ports, channels, ch, reg);
    hide PortOf, InBlock, ControlElsewhere;
    BusyTicks(c, port);
    hide InByte, Tick, Status;
    assert ports[ch := RegisterRead(c, channels[ch], reg).0][ch] == RegisterRead(c, channels[ch], reg).0;
  }

  lemma BusyTicks(c: Channel, port: word)
    requires ValidChannel(c)
    ensures var d := InByte(c, port).0; d == c.(busy := d.busy) && |d.busy| <= |c.busy|
    ensures port == c.base + REG_STATUS ==>
      && InByte(c, port) == (Tick(c), Status(c))
      && (Bsy(Status(c)) <==> c.busy != []) && (c.busy != [] ==> |Tick(c).busy| < |c.busy|)
  {
  }

  class IdeDriver {
    var channels: seq<ChannelInfo>
    var devices: seq<DeviceInfo>
    var ports: seq<Channel>

    /** The bytes written to ports so far. */
    ghost var trace: seq<(word, byte)>

    ghost predicate Valid()
      reads this
    {
      && Wired(ports, channels)
      && ports[0].transfer.Idle? && ports[1].transfer.Idle?
      && |devices| == MAXIMUM_DEVICES
      && forall d :: 0 <= d < |devices| ==> devices[d].channel < 2 && devices[d].drive < 2
    }

    /** Before any drive is known: the table is empty. */
    constructor (channels: seq<ChannelInfo>, ports: seq<Channel>)
      requires Wired(ports, channels) && ports[0].transfer.Idle? && ports[1].transfer.Idle?
      ensures Valid() && this.channels == channels && this.ports == ports
      ensures devices == seq(MAXIMUM_DEVICES, _ => UNUSED) && trace == []
    {
      this.channels, this.ports, trace := channels, ports, [];
      devices := seq(MAXIMUM_DEVICES, _ => UNUSED);
      new;
      hide Wired;
    }

    // ---------- ports: every channel sees every access ----------

    method InPortB(port: word) returns (v: byte)
      requires |ports| == 2
      modifies `ports
      ensures ports == [InByte(old(ports)[0], port).0, InByte(old(ports)[1], port).0]
      ensures v == if InBlock(old(ports)[1], port) || port == old(ports)[1].control
        then InByte(old(ports)[1], port).1 else InByte(old(ports)[0], port).1
    {
      var r0, r1 := InByte(ports[0], port), InByte(ports[1], port);
      v := if InBlock(ports[1], port) || port == ports[1].control then r1.1 else r0.1;
      ports := [r0.0, r1.0];
    }

    method OutPortB(port: word, v: byte)
      requires |ports| == 2 && |ports[0].media| == 2 && |ports[1].media| == 2
      modifies `ports, `trace
      ensures trace == old(trace) + [(port, v)]
      ensures ports == [OutByte(old(ports)[0], port, v), OutByte(old(ports)[1], port, v)]
    {
      ports := [OutByte(ports[0], port, v), OutByte(ports[1], port, v)];
      trace := trace + [(port, v)];
    }

    method InPortW(port: word) returns (w: word)
      requires |ports| == 2 && ValidChannel(ports[0]) && ValidChannel(ports[1])
      modifies `ports
      ensures ports == [InWord(old(ports)[0], port).0, InWord(old(ports)[1], port).0]
      ensures w == if InBlock(old(ports)[1], port) then InWord(old(ports)[1], port).1 else InWord(old(ports)[0], port).1
    {
      var r0, r1 := InWord(ports[0], port), InWord(ports[1], port);
      w := if InBlock(ports[1], port) then r1.1 else r0.1;
      ports := [r0.0, r1.0];
    }

    method OutPortW(port: word, w: word)
      requires |ports| == 2 && ValidChannel(ports[0]) && ValidChannel(ports[1])
      modifies `ports
      ensures ports == [OutWord(old(ports)[0], port, w), OutWord(old(ports)[1], port, w)]
    {
      ports := [OutWord(ports[0], port, w), OutWord(ports[1], port, w)];
    }

    // ---------- registers ----------

    method WriteRegister(channel: nat, reg: nat, data: byte)
      requires Wired(ports, channels) && channel < 2 && reg <= REG_CONTROL
      modifies `ports, `trace
      ensures trace == old(trace) + PortWrites(channels[channel], reg, data)
      ensures Wired(ports, channels)
      ensures ports == old(ports)[channel := RegisterWritten(old(ports)[channel], channels[channel], reg, data)]
      decreases reg != REG_CONTROL
    {
      hide OutByte, ControlElsewhere, RegisterWritten;
      var info := channels[channel];
      if reg > 0x07 && reg < 0x0C {
        WriteEffect(ports, channels, channel, REG_CONTROL, 0x80 + info.noIntr % 0x80);
        WriteRegister(channel, REG_CONTROL, 0x80 + info.noIntr % 0x80);
      }
      WriteEffect(ports, channels, channel, reg, data);
      if reg < 0x08 {
        OutPortB(Wrap16(info.base + reg), data);
      } else if reg < 0x0C {
        OutPortB(Wrap16(info.base + reg - 0x06), data);
      } else {
        OutPortB(Wrap16(info.control + reg - 0x0A), data);
      }
      if reg > 0x07 && reg < 0x0C {
        WriteEffect(ports, channels, channel, REG_CONTROL, info.noIntr % 0x100);
        WriteRegister(channel, REG_CONTROL, info.noIntr % 0x100);
      }
    }

    method ReadRegister(channel: nat, reg: nat) returns (ret: byte)
      requires Wired(ports, channels) && channel < 2 && reg <= REG_CONTROL
      modifies `ports, `trace
      ensures trace == old(trace) + if 8 <= reg <= 11 then HighAccess(channels[channel], []) else []
      ensures Wired(ports, channels)
      ensures ports == old(ports)[channel := RegisterRead(old(ports)[channel], channels[channel], reg).0]
      ensures ret == RegisterRead(old(ports)[channel], channels[channel], reg).1
    {
      hide InByte, ControlElsewhere, RegisterRead, RegisterWritten, InBlock;
      var info := channels[channel];
      if reg > 0x07 && reg < 0x0C {
        WriteEffect(ports, channels, channel, REG_CONTROL, 0x80 + info.noIntr % 0x80);
        WriteRegister(channel, REG_CONTROL, 0x80 + info.noIntr % 0x80);
      }
      ReadEffect(ports, channels, channel, reg);
      if reg < 0x08 {
        ret := InPortB(Wrap16(info.base + reg));
      } else if reg < 0x0C {
        ret := InPortB(Wrap16(info.base + reg - 0x06));
      } else {
        ret := InPortB(Wrap16(info.control + reg - 0x0A));
      }
      if reg > 0x07 && reg < 0x0C {
        WriteEffect(ports, channels, channel, REG_CONTROL, info.noIntr % 0x100);
        WriteRegister(channel, REG_CONTROL, info.noIntr % 0x100);
      }
    }

    /** Waits out the busy period; a checked poll then classifies the status. */
    method Polling(channel: nat, advancedCheck: bool) returns (err: nat)
      requires Wired(ports, channels) && channel < 2
      modifies `ports, `trace
      ensures trace == old(trace)
      ensures Wired(ports, channels)
      ensures ports == old(ports)[channel := old(ports)[channel].(busy := [])]
      ensures err == if advancedCheck then PollCode(old(ports)[channel].status) else 0
      ensures advancedCheck && old(ports)[channel].status % 2 == 1 ==> err == 2
      ensures advancedCheck && old(ports)[channel].status % 2 == 0 && old(ports)[channel].status / 32 % 2 == 1 ==>
        err == 1
    {
      hide Wired, RegisterRead;
      ghost var before := ports;
      var i := 0;
      assert OnlyBusyEnded(before, ports, channel) by {
        Pair(ports, channels);
      }
      while i < 4
        invariant Wired(ports, channels) && OnlyBusyEnded(before, ports, channel) && trace == old(trace)
      {
        StatusRead(ports, channels, channel, REG_ALTSTATUS);
        var _ := ReadRegister(channel, REG_ALTSTATUS);
        i := i + 1;
      }
      WaitWhileBusy(channel);
      if advancedCheck {
        StatusRead(ports, channels, channel, REG_STATUS);
        var state := ReadRegister(channel, REG_STATUS);
        if Err(state) {
          return 2;
        }
        if Df(state) {
          return 1;
        }
        if !Drq(state) {
          return 3;
        }
      }
      err := 0;
    }

    /** The loop that reads the status register until BSY is clear. */
    method WaitWhileBusy(channel: nat)
      requires Wired(ports, channels) && channel < 2
      modifies `ports, `trace
      ensures trace == old(trace)
      ensures Wired(ports, channels)
      ensures |ports| == 2 && ports == old(ports)[channel := old(ports)[channel].(busy := [])]
    {
      hide Wired, RegisterRead;
      ghost var before := ports;
      Pair(ports, channels);
      StatusRead(ports, channels, channel, REG_STATUS);
      var status := ReadRegister(channel, REG_STATUS);
      while Bsy(status)
        invariant Wired(ports, channels) && OnlyBusyEnded(before, ports, channel) && trace == old(trace)
        invariant !Bsy(status) ==> ports[channel].busy == []
        decreases Bsy(status), |ports[channel].busy|
      {
        StatusRead(ports, channels, channel, REG_STATUS);
        status := ReadRegister(channel, REG_STATUS);
      }
    }

    // ---------- one command ----------

    /** Steps (I) to (VI): address, drive selection, parameters and command. The ghost
        result is the channel as the command finds it. */
    method IssueCommand(direction: Direction, channel: nat, slave: nat, features: word, lba: dword, numSectors: byte)
      returns (ghost c1: Channel)
      requires Wired(ports, channels) && channel < 2 && slave < 2 && ports[channel].transfer.Idle?
      modifies `ports, `channels, `trace
      ensures Wired(ports, channels) && ValidChannel(c1)
      ensures c1 == WithParametersOf(old(ports)[channel].(busy := []), c1)
      ensures ports == old(ports)[channel :=
        var mode, start := ModeFor(features, lba), AddressSent(features, lba);
        if direction.Read? then NextIn(c1, slave, mode, start, Asked(mode, numSectors))
        else NextOut(c1, slave, mode, start, Asked(mode, numSectors))]
      ensures |trace| == |old(trace)| + (if ModeFor(features, lba).Lba48? then 19 else 7)
      ensures old(trace) <= trace && IsCommandTrace(trace[|old(trace)|..], channels[channel], direction, lba)
    {
      hide Wired, RegisterWritten, IsCommandTrace, NextIn, NextOut, StartAddress, SectorCount, AddressSent, Split,
        ModeFor;
      ghost var before := ports;
      Pair(ports, channels);
      channels := channels[channel := channels[channel].(noIntr := 2)];
      NoIntrIsFree(ports, channels, old(channels), channel);
      WriteEffect(ports, channels, channel, REG_CONTROL, 2);
      WriteRegister(channel, REG_CONTROL, 2);
      assert trace == old(trace) + PortWrites(channels[channel], REG_CONTROL, 2);

      var mode, address := ModeFor(features, lba), Split(features, lba);
      WaitWhileBusy(channel);
      WriteParameters(channel, slave, mode, address, numSectors);
      Pair(ports, channels);
      c1 := ports[channel];
      ModeChosen(features, lba);
      AddressRoundTrip(c1, slave, features, lba, numSectors);

      var cmd := if direction.Read? then (if mode.Lba48? then CMD_READ_PIO_EXT else CMD_READ_PIO)
                 else (if mode.Lba48? then CMD_WRITE_PIO_EXT else CMD_WRITE_PIO);
      CommandWritten(ports, channels, channel, cmd);
      ghost var written := trace;
      WriteRegister(channel, REG_COMMAND, cmd);
      TraceOfCommand(old(trace), written, trace, channels[channel], direction, lba, cmd);
    }

    /** Steps (IV) and (V): drive selection and parameters, high bytes first in LBA48. */
    method WriteParameters(channel: nat, slave: nat, mode: Addressing, address: AddressBytes, numSectors: byte)
      requires Wired(ports, channels) && channel < 2 && slave < 2
      requires |address.io| == 6 && address.head < 0x10
      requires IsReady(ports[channel])
      modifies `ports, `trace
      ensures |trace| == |old(trace)| + (if mode.Lba48? then 17 else 5) && old(trace) <= trace
      ensures Wired(ports, channels) && |ports| == |old(ports)| == 2
      ensures Holds(ports[channel], slave, mode, address, numSectors)
      ensures ports == old(ports)[channel := WithParametersOf(old(ports)[channel], ports[channel])]
    {
      hide Wired, PortWrites;
      var select: byte := (if mode.Chs? then 0xA0 else 0xE0) + 0x10 * slave + address.head;
      SetParameter(channel, REG_HDDEVSEL, select);
      if mode.Lba48? {
        WriteHighParameters(channel, address);
      }
      SetParameter(channel, REG_SECCOUNT0, numSectors);
      SetParameter(channel, REG_LBA0, address.io[0]);
      SetParameter(channel, REG_LBA1, address.io[1]);
      SetParameter(channel, REG_LBA2, address.io[2]);
    }

    /** The upper half of a 48-bit address and count. */
    method WriteHighParameters(channel: nat, address: AddressBytes)
      requires Wired(ports, channels) && channel < 2 && |address.io| == 6 && IsReady(ports[channel])
      modifies `ports, `trace
      ensures |trace| == |old(trace)| + 12 && old(trace) <= trace
      ensures Wired(ports, channels) && |ports| == |old(ports)| == 2
      ensures var c := old(ports)[channel];
        ports == old(ports)[channel := c.(
          count := c.count.Write(0), low := c.low.Write(address.io[3]),
          mid := c.mid.Write(address.io[4]), high := c.high.Write(address.io[5]))]
    {
      hide Wired, PortWrites;
      SetParameter(channel, REG_SECCOUNT1, 0);
      SetParameter(channel, REG_LBA3, address.io[3]);
      SetParameter(channel, REG_LBA4, address.io[4]);
      SetParameter(channel, REG_LBA5, address.io[5]);
    }

    /** A parameter register takes its value and pushes the old one down. */
    method SetParameter(channel: nat, reg: nat, v: byte)
      requires Wired(ports, channels) && channel < 2
      requires REG_SECCOUNT0 <= reg <= REG_LBA5 && reg != REG_COMMAND
      requires IsReady(ports[channel])
      modifies `ports, `trace
      ensures trace == old(trace) + PortWrites(channels[channel], reg, v)
      ensures Wired(ports, channels) && |ports| == |old(ports)| == 2
      ensures ports == old(ports)[channel := WithParameter(old(ports)[channel], reg, v)]
    {
      ParameterWritten(ports, channels, channel, reg, v);
      WriteRegister(channel, reg, v);
    }

    // ---------- data ----------

    /** `rep insw`: one sector from the data port into the buffer at o. */
    method ReceiveSector(channel: nat, buffer: array<byte>, o: nat)
      requires Wired(ports, channels) && channel < 2 && o + SECTOR_SIZE <= buffer.Length
      requires var c := ports[channel]; c.transfer.DataIn? && c.transfer.position == 0 && c.busy == []
      modifies `ports, buffer
      ensures Wired(ports, channels) && |ports| == |old(ports)| == 2
      ensures ports == old(ports)[channel := Received(old(ports)[channel])]
      ensures buffer[..] == Overwrite(old(buffer[..]), o, old(ports)[channel].transfer.fifo)
    {
      hide Wired, InWord, InBlock, ValidChannel, Received, AfterWordsIn, U16, Overwrite;
      Pair(ports, channels);
      ghost var before, c, b := ports, ports[channel], buffer[..];
      AllWordsIn(c, b, o);
      var bus := channels[channel].base;
      var i := 0;
      while i < 256
        invariant 0 <= i <= 256 && Wired(ports, channels)
        invariant ports == before[channel := AfterWordsIn(c, i)]
        invariant buffer[..] == Overwrite(b, o, c.transfer.fifo[..2 * i])
      {
        WordIn(ports, channels, channel, c, i);
        WordInBuffer(b, o, c.transfer.fifo, i);
        var w := InPortW(bus);
        buffer[o + 2 * i], buffer[o + 2 * i + 1] := w % 0x100, w / 0x100;
        i := i + 1;
      }
    }

    /** `rep outsw`: one sector from the buffer at o to the data port. */
    method SendSector(channel: nat, buffer: array<byte>, o: nat)
      requires Wired(ports, channels) && channel < 2 && o + SECTOR_SIZE <= buffer.Length
      requires var c := ports[channel]; c.busy == [] && !c.transfer.DataIn?
      requires var c := ports[channel]; c.transfer.DataOut? ==> c.transfer.received == []
      modifies `ports
      ensures Wired(ports, channels) && |ports| == |old(ports)| == 2
      ensures ports == old(ports)[channel := Sent(old(ports)[channel], buffer[o..o + SECTOR_SIZE])]
    {
      hide Wired, OutWord, InBlock, ValidChannel, Sent;
      Pair(ports, channels);
      ghost var before, c := ports, ports[channel];
      var bus := channels[channel].base;
      var i := 0;
      while i < 256
        invariant 0 <= i <= 256 && Wired(ports, channels)
        invariant ports == before[channel := AfterWordsOut(c, buffer[o..o + SECTOR_SIZE], i)]
      {
        var w := buffer[o + 2 * i] as int + 0x100 * buffer[o + 2 * i + 1] as int;
        WordOut(ports, channels, channel, c, buffer[o..o + SECTOR_SIZE], i, w);
        OutPortW(bus, w);
        i := i + 1;
      }
    }

    // ---------- whole transfers ----------

    /** The PIO read loop: a checked poll and one sector at a time. */
    method PioIn(channel: nat, numSectors: byte, buffer: array<byte>,
                 ghost c1: Channel, ghost drive: nat, ghost mode: Addressing, ghost lba: nat)
      returns (err: nat)
      requires Wired(ports, channels) && channel < 2 && drive < 2 && ValidChannel(c1)
      requires ports[channel] == NextIn(c1, drive, mode, lba, numSectors)
      requires numSectors * SECTOR_SIZE <= buffer.Length
      modifies `ports, `trace, buffer
      ensures Wired(ports, channels) && |ports| == |old(ports)| == 2
      ensures ports[1 - channel] == old(ports)[1 - channel]
      ensures Finished(c1, ports[channel], 0) && ports[channel].media == c1.media
      ensures err == ReadRun(c1.media[drive], mode, lba, numSectors, c1.plan).1
      ensures IsRead(old(buffer[..]), buffer[..], ReadRun(c1.media[drive], mode, lba, numSectors, c1.plan).0)
    {
      hide Wired, NextIn, ReadRun, Received, ValidChannel, PollCode, IsSuffix, Offering, Taken, Continues, IsRead,
        Finished;
      Pair(ports, channels);
      ghost var before, b, c := ports, buffer[..], c1;
      ghost var done: seq<Sector> := [];
      NothingRead(b, c1, drive, mode, lba, numSectors);
      ghost var media := c1.media[drive];
      var i := 0;
      while i < numSectors
        invariant 0 <= i <= numSectors && |done| == i && ValidChannel(c)
        invariant Wired(ports, channels) && |ports| == 2 && ports[1 - channel] == before[1 - channel]
        invariant Offering(ports[channel], c, c1, drive, mode, lba + i, numSectors - i)
        invariant IsRead(b, buffer[..], done)
        invariant Continues(ReadRun(media, mode, lba, numSectors, c1.plan), done,
                            ReadRun(media, mode, lba + i, numSectors - i, c.plan))
      {
        ReadStep(ports[channel], c, c1, drive, mode, lba + i, numSectors - i);
        err := Polling(channel, true);
        if err != 0 {
          NoMore(ReadRun(media, mode, lba, numSectors, c1.plan), done, err);
          return;
        }
        Pair(ports, channels);
        OneMore(ReadRun(media, mode, lba, numSectors, c1.plan), done, ports[channel].transfer.fifo,
                ReadRun(media, mode, lba + i, numSectors - i, c.plan),
                ReadRun(media, mode, lba + i + 1, numSectors - i - 1, Taken(ports[channel]).plan));
        ReadSoFar(b, buffer[..], done, ports[channel].transfer.fifo, numSectors);
        c, done := Taken(ports[channel]), done + [ports[channel].transfer.fifo];
        ReceiveSector(channel, buffer, i * SECTOR_SIZE);
        i := i + 1;
      }
      ReadEnds(ports[channel], c, c1, drive, mode, lba + numSectors);
      NoMore(ReadRun(media, mode, lba, numSectors, c1.plan), done, 0);
      err := 0;
    }

    /** The PIO write loop, which polls without looking at the outcome, and the flush. */
    method PioOut(channel: nat, numSectors: byte, buffer: array<byte>, mode: Addressing,
                  ghost c1: Channel, ghost drive: nat, ghost lba: nat)
      requires Wired(ports, channels) && channel < 2 && drive < 2 && ValidChannel(c1)
      requires ports[channel] == NextOut(c1, drive, mode, lba, numSectors)
      requires numSectors * SECTOR_SIZE <= buffer.Length
      modifies `ports, `trace
      ensures Wired(ports, channels) && |ports| == |old(ports)| == 2
      ensures ports[1 - channel] == old(ports)[1 - channel]
      ensures |c1.media| == 2
      ensures var left := LeftBusy(c1.media[drive], mode, lba, numSectors, c1.plan);
        && Finished(c1, ports[channel], if left == [] then 0 else 1)
        && (Healthy(c1.plan) && left == [] ==> ports[channel].status == 0x50)
      ensures ports[channel].media
        == c1.media[drive := WriteRun(c1.media[drive], mode, lba, Slices(buffer[..], numSectors), c1.plan)]
    {
      hide Wired, NextOut, WriteRun, Sent, ValidChannel, IsSuffix, Pending, Taking, LeftBusy, BusyAfter;
      Pair(ports, channels);
      ghost var before := ports;
      ghost var data := Slices(buffer[..], numSectors);
      NothingWritten(c1);
      ghost var left := LeftBusy(c1.media[drive], mode, lba, numSectors, c1.plan);
      BusyAtStart(c1, drive, mode, lba, data);
      WriteStarts(c1, c1, drive, mode, lba, data);
      var i := 0;
      while i < numSectors
        invariant 0 <= i <= numSectors
        invariant Wired(ports, channels) && |ports| == 2 && ports[1 - channel] == before[1 - channel]
        invariant Taking(ports[channel], drive, numSectors - i)
        invariant Carries(ports[channel], c1, drive, data[i..], WriteRun(c1.media[drive], mode, lba, data, c1.plan))
        invariant BusyAfter(ports[channel], drive, data[i..]) == left
      {
        WriteStep(ports[channel], c1, drive, data[i..], WriteRun(c1.media[drive], mode, lba, data, c1.plan));
        BusyStep(ports[channel], drive, data[i..]);
        var _ := Polling(channel, false);
        Pair(ports, channels);
        SendSector(channel, buffer, i * SECTOR_SIZE);
        assert data[i..][1..] == data[i + 1..];
        i := i + 1;
      }
      WriteEnds(ports[channel], c1, drive, data[numSectors..], WriteRun(c1.media[drive], mode, lba, data, c1.plan));
      Pair(ports, channels);
      FlushEnds(ports[channel], c1, drive, data[numSectors..], FlushCommand(mode));
      Flush(channel, mode);
    }

    /** The flush is written without a poll before it, and waited for. */
    method Flush(channel: nat, mode: Addressing)
      requires Wired(ports, channels) && channel < 2
      modifies `ports, `trace
      ensures Wired(ports, channels) && |ports| == |old(ports)| == 2 && |old(ports)[channel].media| == 2
      ensures ports == old(ports)[channel := AtOnce(old(ports)[channel], FlushCommand(mode)).(busy := [])]
    {
      hide Wired;
      Pair(ports, channels);
      CommandWritten(ports, channels, channel, FlushCommand(mode));
      WriteRegister(channel, REG_COMMAND, FlushCommand(mode));
      var _ := Polling(channel, false);
    }

    // ---------- the calls ----------

    /** Reads or writes sectors of one drive by PIO. With a count of 0 neither loop goes
        round, although the device has been asked for sectors. */
    method AtaAccess(
        direction: Direction, drive: nat, lba: dword, numSectors: byte, buffer: array<byte>) returns (err: nat)
      requires Valid() && drive < MAXIMUM_DEVICES && numSectors * SECTOR_SIZE <= buffer.Length
      modifies this, buffer
      ensures Wired(ports, channels) && devices == old(devices) && (numSectors > 0 ==> Valid())
      ensures numSectors > 0 && direction.Read? ==>
        IsReadBy(old(ports), ports, devices[drive], lba, numSectors, old(buffer[..]), buffer[..], err)
      ensures numSectors > 0 && direction.Write? ==>
        && err == 0 && buffer[..] == old(buffer[..])
        && IsWrittenBy(old(ports), ports, devices[drive], lba, buffer[..], numSectors)
      ensures numSectors == 0 ==>
        && err == 0 && buffer[..] == old(buffer[..])
        && IsLeftAsked(old(ports), ports, devices[drive], lba, direction)
    {
      hide Wired, ReadRun, WriteRun, NextIn, NextOut, IsSuffix, ValidChannel, IsRead, LeftBusy, AtOnce, Asked;
      var info := devices[drive];
      Pair(ports, channels);
      ghost var before := ports;
      ghost var c1 := IssueCommand(direction, info.channel, info.drive, info.features, lba, numSectors);
      ghost var start, mode := AddressSent(info.features, lba), ModeFor(info.features, lba);
      if numSectors > 0 {
        AskedFor(mode, numSectors);
        if direction.Read? {
          err := PioIn(info.channel, numSectors, buffer, c1, info.drive, mode, start);
        } else {
          PioOut(info.channel, numSectors, buffer, ModeFor(info.features, lba), c1, info.drive, start);
          err := 0;
        }
      } else {
        if direction.Write? {
          Flush(info.channel, ModeFor(info.features, lba));
        }
        err := 0;
        LeftAsked(before, ports, info, lba, direction, c1);
      }
    }

    /** Turns the poll's code into the caller's, looking at the error register. */
    method PrintError(drive: nat, err: nat) returns (code: nat)
      requires Wired(ports, channels) && |devices| == MAXIMUM_DEVICES && drive < MAXIMUM_DEVICES
      requires devices[drive].channel < 2
      modifies `ports, `trace
      ensures err == 1 ==> code == 19
      ensures err == 3 ==> code == 23
      ensures err == 4 ==> code == 8
      ensures ports == old(ports)
      ensures code == ErrorCode(err, old(ports)[devices[drive].channel].error)
    {
      hide Wired, IsSuffix, RegisterRead;
      Pair(ports, channels);
      code := err;
      if err == 1 {
        code := 19;
      } else if err == 2 {
        ErrorRead(ports, channels, devices[drive].channel);
        var st := ReadRegister(devices[drive].channel, REG_ERROR);
        code := MediaErrorCode(st);
      } else if err == 3 {
        code := 23;
      } else if err == 4 {
        code := 8;
      }
    }

    /** Later checks override earlier ones. */
    method MediaErrorCode(st: byte) returns (code: nat)
      ensures code == ErrorCode(2, st)
    {
      code := 2;
      if st as int % 2 == 1 {
        code := 7;
      }
      if st as int / 0x02 % 2 == 1 {
        code := 3;
      }
      if st as int / 0x04 % 2 == 1 {
        code := 20;
      }
      if st as int / 0x08 % 2 == 1 {
        code := 3;
      }
      if st as int / 0x10 % 2 == 1 {
        code := 21;
      }
      if st as int / 0x20 % 2 == 1 {
        code := 3;
      }
      if st as int / 0x40 % 2 == 1 {
        code := 22;
      }
      if st as int / 0x80 % 2 == 1 {
        code := 13;
      }
    }

    method ReadSectors(
        drive: byte, numSectors: byte, lba: dword, buffer: array<byte>)
      returns (code: int, ghost err: nat, ghost k: nat)
      requires Valid() && numSectors * SECTOR_SIZE <= buffer.Length
      requires IsUsable(devices, drive)
      modifies this, buffer
      ensures Wired(ports, channels) && devices == old(devices) && (numSectors > 0 ==> Valid())
      ensures drive > 5 || !devices[drive].present ==> code == -1
      ensures drive < 5 && devices[drive].present && (lba + numSectors) % 0x1_0000_0000 > devices[drive].size ==>
        code == -2
      ensures Refusal(devices, drive, numSectors, lba) != 0 ==>
        code == Refusal(devices, drive, numSectors, lba) && ports == old(ports) && buffer[..] == old(buffer[..])
      ensures Refusal(devices, drive, numSectors, lba) == 0 && numSectors == 0 ==>
        && code == 0 && buffer[..] == old(buffer[..])
        && IsLeftAsked(old(ports), ports, devices[drive], lba, Read)
      ensures Refusal(devices, drive, numSectors, lba) == 0 && numSectors > 0 ==>
        && code == ErrorCode(err, ports[devices[drive].channel].error) && (code == 0 <==> err == 0)
        && IsReadBy(old(ports), ports, devices[drive], lba, numSectors, old(buffer[..]), buffer[..], err)
        && IsReported(old(ports), ports, devices[drive], lba, numSectors, k, code)
    {
      hide Wired, IsReadBy, IsWrittenBy, IsLeftAsked, ErrorCode, IsReported;
      err, k := 0, 0;
      if drive > MAXIMUM_DEVICES || !devices[drive].present {
        code := -1;
        return;
      }
      if Wrap32(lba + numSectors) > devices[drive].size {
        code := -2;
        return;
      }
      Pair(ports, channels);
      ghost var before, b := ports, buffer[..];
      var pollCode := AtaAccess(Read, drive, lba, numSectors, buffer);
      err := pollCode;
      code := PrintError(drive, pollCode);
      Pair(ports, channels);
      ErrorCodeOfZero(err, ports[devices[drive].channel].error);
      if numSectors > 0 {
        k := ReadIsReported(before, ports, devices[drive], lba, numSectors, b, buffer[..], err);
      }
    }

    method WriteSectors(drive: byte, numSectors: byte, lba: dword, buffer: array<byte>) returns (code: int)
      requires Valid() && numSectors * SECTOR_SIZE <= buffer.Length
      requires IsUsable(devices, drive)
      modifies this, buffer
      ensures Wired(ports, channels) && devices == old(devices) && (numSectors > 0 ==> Valid())
      ensures buffer[..] == old(buffer[..]) && code == Refusal(devices, drive, numSectors, lba)
      ensures drive > 5 || !devices[drive].present ==> code == -1
      ensures drive < 5 && devices[drive].present && (lba + numSectors) % 0x1_0000_0000 > devices[drive].size ==>
        code == -2
      ensures if code != 0 then ports == old(ports)
        else if numSectors == 0 then IsLeftAsked(old(ports), ports, devices[drive], lba, Write)
        else IsWrittenBy(old(ports), ports, devices[drive], lba, buffer[..], numSectors)
    {
      hide Wired, IsReadBy, IsWrittenBy, IsLeftAsked, ErrorCode;
      if drive > MAXIMUM_DEVICES || !devices[drive].present {
        return -1;
      }
      if Wrap32(lba + numSectors) > devices[drive].size {
        return -2;
      }
      var err := AtaAccess(Write, drive, lba, numSectors, buffer);
      code := PrintError(drive, err);
      Pair(ports, channels);
      ErrorCodeOfZero(err, ports[devices[drive].channel].error);
    }

    /** The least device whose model is this C string, or -1. */
    method GetDriveByModel(model: seq<byte>) returns (drive: int)
      requires |devices| == MAXIMUM_DEVICES && HasString(model)
      requires forall d :: 0 <= d < |devices| ==> HasString(devices[d].model)
      ensures drive == DriveByModel(devices, CString(model))
    {
      var i := 0;
      while i < MAXIMUM_DEVICES
        invariant 0 <= i <= MAXIMUM_DEVICES
        invariant forall d :: 0 <= d < i ==> CString(devices[d].model) != CString(model)
      {
        var r := StrCmp(devices[i].model, model);
        if r == 0 {
          return i;
        }
        i := i + 1;
      }
      drive := -1;
    }
  }

  // ---------- what the calls promise ----------

  /** A read leaves the drives alone; the sectors delivered and the code are those of
      the run of the command. */
  ghost predicate IsReadBy(
    before: seq<Channel>, after: seq<Channel>, info: DeviceInfo, lba: dword, n: nat, b: seq<byte>, now: seq<byte>,
      err: nat)
    requires |before| == |after| == 2 && info.channel < 2 && info.drive < |before[info.channel].media|
  {
    var c, d := before[info.channel], after[info.channel];
    var r := ReadRun(c.media[info.drive], ModeFor(info.features, lba), AddressSent(info.features, lba), n, c.plan);
    && after[1 - info.channel] == before[1 - info.channel]
    && d.media == c.media && IsSuffix(d.plan, c.plan) && d.early == c.early
    && err == r.1 && IsRead(b, now, r.0)
  }

  /** A call with a count of 0: no sector moves, and a device that grants the first one is
      left in the middle of a transfer, unless it takes the flush that then comes too early. */
  ghost predicate IsLeftAsked(
    before: seq<Channel>, after: seq<Channel>, info: DeviceInfo, lba: dword, direction: Direction)
    requires |before| == |after| == 2 && info.channel < 2 && info.drive < |before[info.channel].media|
  {
    var c, d, mode, start := before[info.channel], after[info.channel], ModeFor(info.features, lba),
      AddressSent(info.features, lba);
    var granted := Grants(Settled(Head(c.plan), c.media[info.drive], mode, start));
    && after[1 - info.channel] == before[1 - info.channel] && d.media == c.media
    && match direction {
         case Read =>
           && d.early == c.early && d.transfer.DataIn? == granted
           && (granted ==> d.transfer.lba == start && d.transfer.left == Asked(mode, 0))
         case Write =>
           && d.early == c.early + (if granted || Head(c.plan).busy != [] then 1 else 0)
           && d.transfer.DataOut? == (granted && !Head(c.plan).takesEarly)
           && (d.transfer.DataOut? ==> d.transfer.lba == start && d.transfer.left == Asked(mode, 0))
       }
  }

  lemma AskedFor(mode: Addressing, n: byte)
    requires n > 0
    ensures Asked(mode, n) == n
  {
  }

  lemma LeftAsked(
    before: seq<Channel>, after: seq<Channel>, info: DeviceInfo, lba: dword, direction: Direction, c1: Channel)
    requires |before| == |after| == 2 && info.channel < 2 && info.drive < 2 && ValidChannel(c1)
    requires |before[info.channel].media| == 2
    requires c1 == WithParametersOf(before[info.channel].(busy := []), c1)
    requires var mode, start := ModeFor(info.features, lba), AddressSent(info.features, lba);
      after == before[info.channel :=
        if direction.Read? then NextIn(c1, info.drive, mode, start, Asked(mode, 0))
        else AtOnce(NextOut(c1, info.drive, mode, start, Asked(mode, 0)), FlushCommand(mode)).(busy := [])]
    ensures IsLeftAsked(before, after, info, lba, direction)
  {
    var mode, start := ModeFor(info.features, lba), AddressSent(info.features, lba);
    hide ModeFor, AddressSent, Asked, AtOnce, NextIn, NextOut, Settled, Grants, ValidChannel, FlushCommand;
    AskedForMore(mode);
    if direction.Read? {
      Offered(c1, info.drive, mode, start, Asked(mode, 0));
      NextInIsValid(c1, info.drive, mode, start, Asked(mode, 0));
    } else {
      var d := NextOut(c1, info.drive, mode, start, Asked(mode, 0));
      Requested(c1, info.drive, mode, start, Asked(mode, 0));
      NextOutIsValid(c1, info.drive, mode, start, Asked(mode, 0));
      FlushAtOnce(d, mode);
    }
  }

  /** A count of 0 stands for 256 sectors, and in 48-bit commands for 65536. */
  lemma AskedForMore(mode: Addressing)
    ensures Asked(mode, 0) == if mode.Lba48? then 65536 else 256
  {
  }

  lemma FlushAtOnce(c: Channel, mode: Addressing)
    requires ValidChannel(c)
    ensures var d := AtOnce(c, FlushCommand(mode));
      && d.media == c.media && d.early == c.early + (if IsReady(c) then 0 else 1)
      && d.transfer == if IsReady(c) || c.takesEarly then Idle else c.transfer
  {
    hide NextIn, NextOut;
  }

  /** A write changes one drive as the run of the command does, and no other. Without faults
      the flush, when it does not come too early, is taken without an error. */
  ghost predicate IsWrittenBy(
    before: seq<Channel>, after: seq<Channel>, info: DeviceInfo, lba: dword, b: seq<byte>, n: nat)
    requires |before| == |after| == 2 && info.channel < 2 && info.drive < |before[info.channel].media|
    requires n * SECTOR_SIZE <= |b|
  {
    var c, d := before[info.channel], after[info.channel];
    var media, mode, start := c.media[info.drive], ModeFor(info.features, lba), AddressSent(info.features, lba);
    && after[1 - info.channel] == before[1 - info.channel]
    && d.media == c.media[info.drive := WriteRun(media, mode, start, Slices(b, n), c.plan)]
    && IsSuffix(d.plan, c.plan)
    && d.early == c.early + (if LeftBusy(media, mode, start, n, c.plan) == [] then 0 else 1)
    && (Healthy(c.plan) && LeftBusy(media, mode, start, n, c.plan) == [] ==> d.status == 0x50)
  }

  /** The error register decides among the codes for a failed command; its highest set
      bit wins. */
  function ErrorCode(err: nat, st: byte): nat {
    if err == 1 then 19
    else if err == 3 then 23
    else if err == 4 then 8
    else if err != 2 then err
    else if st >= 0x80 then 13
    else if st >= 0x40 then 22
    else if st >= 0x20 then 3
    else if st >= 0x10 then 21
    else if st >= 0x08 then 3
    else if st >= 0x04 then 20
    else if st >= 0x02 then 3
    else if st >= 0x01 then 7
    else 2
  }

  lemma ErrorCodeOfZero(err: nat, st: byte)
    ensures ErrorCode(err, st) == 0 <==> err == 0
  {
  }

  /** The caller's code for each bit of the error register. */
  const MEDIA_CODES: seq<nat> := [7, 3, 20, 3, 21, 3, 22, 13]
  const BITS: seq<nat> := [1, 2, 4, 8, 16, 32, 64, 128]

  /** What the caller is told of a status that is not a request for data: with the error
      bit, the code of the error register's highest bit; with the fault bit, 19; without
      either, 23. */
  predicate Tells(code: int, status: byte, error: byte) {
    if status % 2 == 1 then
      && (error == 0 ==> code == 2)
      && forall b :: 0 <= b < 8 && error as int / BITS[b] == 1 ==> code == MEDIA_CODES[b]
    else if status / 32 % 2 == 1 then code == 19
    else status / 8 % 2 == 0 && code == 23
  }

  /** A read that delivers k of n sectors tells its caller of the sector that the device did
      not grant. */
  ghost predicate IsReported(
    before: seq<Channel>, after: seq<Channel>, info: DeviceInfo, lba: dword, n: nat, k: nat, code: int)
    requires |before| == |after| == 2 && info.channel < 2 && info.drive < |before[info.channel].media|
  {
    var c, mode, start := before[info.channel], ModeFor(info.features, lba), AddressSent(info.features, lba);
    var media := c.media[info.drive];
    && k <= n && (k == n <==> code == 0)
    && (forall i :: 0 <= i < k ==> Transfers(media, mode, start, c.plan, i))
    && (k < n ==> Tells(code, Settled(PhaseAt(c.plan, k), media, mode, start + k), after[info.channel].error))
  }

  lemma CodesTell(status: byte, error: byte)
    requires PollCode(status) != 0
    ensures Tells(ErrorCode(PollCode(status), error), status, error)
  {
    PollCodes(status);
    hide PollCode;
    assert BITS[0] == 1 && BITS[1] == 2 && BITS[2] == 4 && BITS[3] == 8;
    assert BITS[4] == 16 && BITS[5] == 32 && BITS[6] == 64 && BITS[7] == 128;
  }

  lemma ReadIsReported(
    before: seq<Channel>, after: seq<Channel>, info: DeviceInfo, lba: dword, n: nat, b: seq<byte>, now: seq<byte>,
    err: nat)
    returns (k: nat)
    requires |before| == |after| == 2 && info.channel < 2 && info.drive < |before[info.channel].media|
    requires IsReadBy(before, after, info, lba, n, b, now, err)
    ensures IsReported(before, after, info, lba, n, k, ErrorCode(err, after[info.channel].error))
  {
    var c, mode, start := before[info.channel], ModeFor(info.features, lba), AddressSent(info.features, lba);
    var media := c.media[info.drive];
    k := |ReadRun(media, mode, start, n, c.plan).0|;
    ReadRunRefinesMap(media, mode, start, n, c.plan);
    forall i | 0 <= i < k
      ensures Transfers(media, mode, start, c.plan, i)
    {
      ReadStopsAt(media, mode, start, n, c.plan, i);
    }
    ErrorCodeOfZero(err, after[info.channel].error);
    if k < n {
      ReadStopsAt(media, mode, start, n, c.plan, k);
      CodesTell(Settled(PhaseAt(c.plan, k), media, mode, start + k), after[info.channel].error);
    }
    hide ReadRun, Transfers, Settled, PollCode, ErrorCode, Tells, ModeFor, AddressSent, IsRead, IsSuffix, AreSectors;
  }

  lemma ErrorRead(ports: seq<Channel>, channels: seq<ChannelInfo>, ch: nat)
    requires Wired(ports, channels) && ch < 2
    ensures RegisterRead(ports[ch], channels[ch], REG_ERROR) == (ports[ch], ports[ch].error)
  {
  }

  /** The source guards drive numbers above 5 but has no entry 5, and it leaves the
      result undefined for drives that are not plain ATA. */
  predicate IsUsable(devices: seq<DeviceInfo>, drive: byte)
    requires |devices| == MAXIMUM_DEVICES
  {
    drive != MAXIMUM_DEVICES && (drive < MAXIMUM_DEVICES && devices[drive].present ==> devices[drive].kind == IDE_ATA)
  }

  /** The code of a call that touches nothing, or 0. */
  function Refusal(devices: seq<DeviceInfo>, drive: byte, numSectors: byte, lba: dword): int
    requires |devices| == MAXIMUM_DEVICES && drive != MAXIMUM_DEVICES
  {
    if drive > MAXIMUM_DEVICES || !devices[drive].present then -1
    else if Wrap32(lba + numSectors) > devices[drive].size then -2
    else 0
  }

  ghost function DriveByModel(devices: seq<DeviceInfo>, model: seq<byte>): (drive: int)
    requires forall d :: 0 <= d < |devices| ==> HasString(devices[d].model)
    ensures -1 <= drive < |devices|
    ensures drive >= 0 ==> CString(devices[drive].model) == model
    ensures forall d :: 0 <= d < (if drive >= 0 then drive else |devices|) ==> CString(devices[d].model) != model
  {
    if devices == [] then -1
    else
      var n := |devices| - 1;
      var drive := DriveByModel(devices[..n], model);
      if drive < 0 && CString(devices[n].model) == model then n else drive
  }

  /** The first n sectors of a buffer. */
  function Slices(b: seq<byte>, n: nat): (data: seq<Sector>)
    requires n * SECTOR_SIZE <= |b|
    ensures |data| == n
    ensures forall i :: 0 <= i < n ==> data[i] == b[i * SECTOR_SIZE..i * SECTOR_SIZE + SECTOR_SIZE]
  {
    seq(n, i requires 0 <= i < n => b[i * SECTOR_SIZE..i * SECTOR_SIZE + SECTOR_SIZE])
  }

  /** The channel waits for a sector, or the command is over. */
  ghost predicate Taking(c: Channel, drive: nat, left: nat) {
    && ValidChannel(c) && !c.transfer.DataIn?
    && (c.transfer.DataOut? ==> c.transfer.drive == drive && c.transfer.received == [] && c.transfer.left == left)
  }

  /** What the drive will hold once the rest of the data has been sent. */
  ghost function Pending(c: Channel, drive: nat, rest: seq<Sector>): Media
    requires drive < |c.media|
  {
    if !c.transfer.DataOut? || rest == [] || Faulty(Head(c.plan).status) then c.media[drive]
    else
      var t := c.transfer;
      WriteRun(c.media[drive][t.lba := rest[0]], t.mode, t.lba + 1, rest[1..], c.plan)
  }

  ghost predicate Carries(c: Channel, c1: Channel, drive: nat, rest: seq<Sector>, final: Media)
    requires drive < 2
  {
    && |c.media| == |c1.media| == 2 && c.early == c1.early
    && c.media == c1.media[drive := c.media[drive]]
    && IsSuffix(c.plan, c1.plan)
    && Pending(c, drive, rest) == final
  }

  /** The device about to take a sector: it asks for it, or the command is over. */
  lemma Requested(c: Channel, drive: nat, mode: Addressing, lba: nat, left: nat)
    requires ValidChannel(c) && drive < 2
    ensures var d, media := NextOut(c, drive, mode, lba, left), c.media[drive];
      && d.media == c.media && d.plan == Tail(c.plan) && d.early == c.early
      && d.busy == Head(c.plan).busy && d.takesEarly == Head(c.plan).takesEarly
      && d.transfer == if left > 0 && Grants(Settled(Head(c.plan), media, mode, lba))
                       then DataOut(drive, mode, lba, left, []) else Idle
  {
  }

  lemma {:induction false} PendingAtStart(c: Channel, drive: nat, mode: Addressing, lba: nat, data: seq<Sector>)
    requires ValidChannel(c) && drive < 2
    ensures Pending(NextOut(c, drive, mode, lba, |data|), drive, data)
      == WriteRun(c.media[drive], mode, lba, data, c.plan)
  {
    Requested(c, drive, mode, lba, |data|);
    hide NextOut, Grants, Settled, Faulty, Tail;
  }

  lemma {:induction false} WriteStarts(
      c: Channel, c1: Channel, drive: nat, mode: Addressing, lba: nat, data: seq<Sector>)
    requires ValidChannel(c) && ValidChannel(c1) && drive < 2
    requires c.media == c1.media[drive := c.media[drive]] && IsSuffix(c.plan, c1.plan) && c.early == c1.early
    ensures Taking(NextOut(c, drive, mode, lba, |data|), drive, |data|)
    ensures Carries(NextOut(c, drive, mode, lba, |data|), c1, drive, data,
      WriteRun(c.media[drive], mode, lba, data, c.plan))
  {
    Requested(c, drive, mode, lba, |data|);
    PendingAtStart(c, drive, mode, lba, data);
    NextOutIsValid(c, drive, mode, lba, |data|);
    TailIsSuffix(c.plan, c1.plan);
    hide NextOut, Grants, Settled, Faulty, IsSuffix, Tail, WriteRun, Pending;
  }

  lemma NothingWritten(c: Channel)
    requires ValidChannel(c)
    ensures |c.media| == 2 && IsSuffix(c.plan, c.plan)
    ensures forall drive: nat | drive < 2 :: c.media == c.media[drive := c.media[drive]]
  {
  }

  /** One round of the write loop. */
  lemma WriteStep(c: Channel, c1: Channel, drive: nat, rest: seq<Sector>, final: Media)
    requires drive < 2 && rest != [] && Taking(c, drive, |rest|) && ValidChannel(c1)
    requires Carries(c, c1, drive, rest, final)
    ensures var d := c.(busy := []);
      && ValidChannel(d) && !d.transfer.DataIn? && (d.transfer.DataOut? ==> d.transfer.received == [])
      && Taking(Sent(d, rest[0]), drive, |rest| - 1) && Carries(Sent(d, rest[0]), c1, drive, rest[1..], final)
  {
    if c.transfer.DataOut? {
      SectorTaken(c.(busy := []), c1, drive, rest, final);
    }
    hide NextOut, Faulty, IsSuffix, WriteRun;
  }

  lemma SectorTaken(d: Channel, c1: Channel, drive: nat, rest: seq<Sector>, final: Media)
    requires drive < 2 && rest != [] && Taking(d, drive, |rest|) && ValidChannel(c1) && d.transfer.DataOut?
    requires Carries(d, c1, drive, rest, final)
    ensures Taking(Sent(d, rest[0]), drive, |rest| - 1) && Carries(Sent(d, rest[0]), c1, drive, rest[1..], final)
  {
    hide *;
    SentAfterStoring(d, c1, drive, rest, final);
    var t, stored := d.transfer, Stored(d, rest[0]);
    WriteStarts(stored, c1, drive, t.mode, t.lba + 1, rest[1..]);
  }

  /** The channel as the device has taken a sector and turns to the next. */
  ghost function Stored(d: Channel, s: Sector): (c: Channel)
    requires ValidChannel(d) && d.transfer.DataOut?
    ensures ValidChannel(c) && c.plan == d.plan && c.early == d.early
    ensures c.media == d.media[d.transfer.drive := c.media[d.transfer.drive]]
    ensures forall a: nat :: a > d.transfer.lba ==>
      (a in d.media[d.transfer.drive] <==> a in c.media[d.transfer.drive])
  {
    var t := d.transfer;
    var full := d.(transfer := t.(received := s[..SECTOR_SIZE - 2]));
    StoreIsValid(full, t.drive, t.lba, s);
    Store(full, t.drive, t.lba, s)
  }

  lemma SentAfterStoring(d: Channel, c1: Channel, drive: nat, rest: seq<Sector>, final: Media)
    requires drive < 2 && rest != [] && Taking(d, drive, |rest|) && d.transfer.DataOut?
    requires Carries(d, c1, drive, rest, final)
    ensures ValidChannel(d)
    ensures var t, c := d.transfer, Stored(d, rest[0]);
      && ValidChannel(c) && c.media == c1.media[drive := c.media[drive]] && IsSuffix(c.plan, c1.plan)
      && c.early == c1.early && |rest[1..]| == |rest| - 1
      && Sent(d, rest[0]) == NextOut(c, drive, t.mode, t.lba + 1, |rest[1..]|)
      && WriteRun(c.media[drive], t.mode, t.lba + 1, rest[1..], c.plan) == final
  {
    SentIsNextOut(d, drive, rest);
    StoredIsPending(d, drive, rest);
    hide NextOut, WriteRun, Faulty, Sent, Pending, IsSuffix, ValidChannel;
  }

  lemma StoredIsPending(d: Channel, drive: nat, rest: seq<Sector>)
    requires drive < 2 && rest != [] && Taking(d, drive, |rest|) && d.transfer.DataOut?
    ensures |d.media| == 2
    ensures var t, c := d.transfer, Stored(d, rest[0]);
      WriteRun(c.media[drive], t.mode, t.lba + 1, rest[1..], c.plan) == Pending(d, drive, rest)
  {
    var t := d.transfer;
    if Faulty(Head(d.plan).status) {
      RefusedAfterFault(d.media[drive], t.mode, t.lba + 1, rest[1..], d.plan);
    }
    hide WriteRun, Faulty;
  }

  lemma {:induction false} RefusedAfterFault(
      media: Media, mode: Addressing, lba: nat, data: seq<Sector>, plan: seq<Phase>)
    requires Faulty(Head(plan).status)
    ensures WriteRun(media, mode, lba, data, plan) == media
  {
    FailedIsRefused();
  }

  /** The busy period that the flush will meet, from the middle of a write. */
  ghost function BusyAfter(c: Channel, drive: nat, rest: seq<Sector>): seq<byte>
    requires drive < |c.media|
  {
    if rest == [] then c.busy
    else if !c.transfer.DataOut? then []
    else LeftBusy(c.media[drive], c.transfer.mode, c.transfer.lba + 1, |rest| - 1, c.plan)
  }

  lemma {:induction false} BusyAtStart(c: Channel, drive: nat, mode: Addressing, lba: nat, data: seq<Sector>)
    requires ValidChannel(c) && drive < 2
    ensures |NextOut(c, drive, mode, lba, |data|).media| == 2
    ensures BusyAfter(NextOut(c, drive, mode, lba, |data|), drive, data)
         == LeftBusy(c.media[drive], mode, lba, |data|, c.plan)
  {
    Requested(c, drive, mode, lba, |data|);
    NextOutIsValid(c, drive, mode, lba, |data|);
    hide NextOut, Grants, Settled, ValidChannel, Head, Tail;
  }

  lemma SentIsNextOut(d: Channel, drive: nat, rest: seq<Sector>)
    requires drive < 2 && rest != [] && Taking(d, drive, |rest|) && d.transfer.DataOut?
    ensures var t := d.transfer;
      Sent(d, rest[0]) == NextOut(Stored(d, rest[0]), drive, t.mode, t.lba + 1, |rest[1..]|)
  {
    hide NextOut;
  }

  /** One round of the write loop leaves that busy period. */
  lemma BusyStep(c: Channel, drive: nat, rest: seq<Sector>)
    requires drive < 2 && rest != [] && Taking(c, drive, |rest|)
    ensures var d := c.(busy := []);
      && |c.media| == 2 && ValidChannel(d) && |Sent(d, rest[0]).media| == 2
      && BusyAfter(Sent(d, rest[0]), drive, rest[1..]) == BusyAfter(c, drive, rest)
  {
    var d := c.(busy := []);
    assert Taking(d, drive, |rest|) && BusyAfter(d, drive, rest) == BusyAfter(c, drive, rest);
    if d.transfer.DataOut? {
      hide *;
      BusyStepTaken(d, drive, rest);
    } else {
      hide LeftBusy;
    }
  }

  lemma BusyStepTaken(d: Channel, drive: nat, rest: seq<Sector>)
    requires drive < 2 && rest != [] && Taking(d, drive, |rest|) && d.transfer.DataOut?
    ensures |d.media| == 2 && ValidChannel(d) && |Sent(d, rest[0]).media| == 2
    ensures BusyAfter(Sent(d, rest[0]), drive, rest[1..]) == BusyAfter(d, drive, rest)
  {
    hide *;
    BusyWhileTaking(d, drive, rest);
    SentIsNextOut(d, drive, rest);
    var t, stored := d.transfer, Stored(d, rest[0]);
    BusyAtStart(stored, drive, t.mode, t.lba + 1, rest[1..]);
    SameLeftBusy(d.media[drive], stored.media[drive], t.mode, t.lba + 1, |rest| - 1, d.plan);
  }

  lemma {:induction false} BusyWhileTaking(d: Channel, drive: nat, rest: seq<Sector>)
    requires drive < 2 && rest != [] && Taking(d, drive, |rest|) && d.transfer.DataOut?
    ensures |d.media| == 2 && ValidChannel(d) && d.transfer.drive == drive && |rest[1..]| == |rest| - 1
    ensures BusyAfter(d, drive, rest)
         == LeftBusy(d.media[drive], d.transfer.mode, d.transfer.lba + 1, |rest| - 1, d.plan)
  {
    hide LeftBusy;
  }

  lemma WriteEnds(c: Channel, c1: Channel, drive: nat, rest: seq<Sector>, final: Media)
    requires drive < 2 && rest == [] && Taking(c, drive, 0) && Carries(c, c1, drive, rest, final)
    ensures c.transfer.Idle? && c.media == c1.media[drive := final] && IsSuffix(c.plan, c1.plan)
  {
    hide WriteRun, IsSuffix;
  }

  /** The flush follows at once: the device takes it, or counts it and takes or loses it. */
  lemma FlushEnds(c: Channel, c1: Channel, drive: nat, rest: seq<Sector>, cmd: byte)
    requires ValidChannel(c) && cmd in {CMD_CACHE_FLUSH, CMD_CACHE_FLUSH_EXT} && IsSuffix(c.plan, c1.plan)
    requires c.transfer.Idle? && c.early == c1.early && rest == [] && drive < 2
    ensures |c.media| == 2
    ensures var d := AtOnce(c, cmd);
      && d.media == c.media
      && Finished(c1, d.(busy := []), if BusyAfter(c, drive, rest) == [] then 0 else 1)
      && (Healthy(c1.plan) && BusyAfter(c, drive, rest) == [] ==> d.status == 0x50)
  {
    TailIsSuffix(c.plan, c1.plan);
    if Healthy(c1.plan) {
      SuffixIsHealthy(c.plan, c1.plan);
      HealthyHead(c.plan);
    }
    hide IsSuffix, NextIn, NextOut, Healthy;
  }

  lemma HealthyHead(plan: seq<Phase>)
    requires Healthy(plan)
    ensures !Faulty(Head(plan).status)
  {
  }

  /** A command is over, what is left of the plan comes after what it used, and since c1
      so many more command-block writes have come too early. */
  ghost predicate Finished(c1: Channel, c: Channel, early: nat) {
    c.transfer.Idle? && IsSuffix(c.plan, c1.plan) && c.early == c1.early + early
  }

  /** The sectors read are at the front of the buffer; the rest is as it was. */
  ghost predicate IsRead(before: seq<byte>, now: seq<byte>, sectors: seq<Sector>) {
    |Flatten(sectors)| == |sectors| * SECTOR_SIZE <= |before| && now == Overwrite(before, 0, Flatten(sectors))
  }

  ghost predicate Continues(all: (seq<Sector>, nat), done: seq<Sector>, rest: (seq<Sector>, nat)) {
    all.0 == done + rest.0 && all.1 == rest.1
  }

  lemma NoMore(all: (seq<Sector>, nat), done: seq<Sector>, code: nat)
    requires Continues(all, done, ([], code))
    ensures all == (done, code)
  {
    assert done + [] == done;
  }

  lemma OneMore(
      all: (seq<Sector>, nat), done: seq<Sector>, s: Sector, rest: (seq<Sector>, nat), later: (seq<Sector>, nat))
    requires Continues(all, done, rest) && Continues(rest, [s], later)
    ensures Continues(all, done + [s], later)
  {
  }

  lemma NothingRead(b: seq<byte>, c: Channel, drive: nat, mode: Addressing, lba: nat, n: nat)
    requires ValidChannel(c) && drive < 2
    ensures |c.media| == 2
    ensures IsRead(b, b, []) && Offering(NextIn(c, drive, mode, lba, n), c, c, drive, mode, lba, n)
    ensures forall all :: Continues(all, [], all)
  {
    hide NextIn;
  }

  /** One more sector read lands behind the others. */
  lemma ReadSoFar(b: seq<byte>, now: seq<byte>, done: seq<Sector>, s: Sector, n: nat)
    requires IsRead(b, now, done) && |done| < n && n * SECTOR_SIZE <= |b|
    ensures |done| * SECTOR_SIZE + SECTOR_SIZE <= |now|
    ensures IsRead(b, Overwrite(now, |done| * SECTOR_SIZE, s), done + [s])
  {
    assert (done + [s])[..|done|] == done;
    OverwriteTwice(b, Flatten(done), s);
  }

  lemma TailIsSuffix(later: seq<Phase>, plan: seq<Phase>)
    requires IsSuffix(later, plan)
    ensures IsSuffix(Tail(later), plan)
  {
  }

  /** The channel stands where a read command, with left sectors to go, has brought c. */
  ghost predicate Offering(now: Channel, c: Channel, c1: Channel, drive: nat, mode: Addressing, lba: nat, left: nat)
    requires drive < 2
  {
    && ValidChannel(c) && c.media == c1.media && IsSuffix(c.plan, c1.plan) && c.early == c1.early
    && now == NextIn(c, drive, mode, lba, left)
  }

  /** The channel as its last word is about to be read. */
  ghost function Taken(d: Channel): (e: Channel)
    ensures e.media == d.media && e.plan == d.plan && e.early == d.early
  {
    if d.transfer.DataIn? then d.(transfer := d.transfer.(position := SECTOR_SIZE - 2)) else d
  }

  /** The device about to send a sector: it asks the host to take it, or the command is
      over. */
  lemma Offered(c: Channel, drive: nat, mode: Addressing, lba: nat, left: nat)
    requires ValidChannel(c) && drive < 2 && left > 0
    ensures var d, media := NextIn(c, drive, mode, lba, left), c.media[drive];
      && d.media == c.media && d.plan == Tail(c.plan) && d.early == c.early
      && d.status == Settled(Head(c.plan), media, mode, lba)
      && (PollCode(d.status) == 0 <==> Grants(d.status))
      && (if Grants(d.status) then lba in media && d.transfer == DataIn(drive, mode, lba, left, media[lba], 0)
          else d.transfer.Idle?)
  {
  }

  /** One round of the read loop. */
  lemma {:induction false} ReadStep(
      now: Channel, c: Channel, c1: Channel, drive: nat, mode: Addressing, lba: nat, left: nat)
    requires drive < 2 && left > 0 && Offering(now, c, c1, drive, mode, lba, left)
    ensures |c.media| == |c1.media| == 2 && ValidChannel(now.(busy := []))
    ensures var d, media := now.(busy := []), c1.media[drive];
      var e, r := Taken(d), ReadRun(media, mode, lba, left, c.plan);
      if PollCode(d.status) == 0 then
        && lba in media && d.transfer == DataIn(drive, mode, lba, left, media[lba], 0)
        && ValidChannel(e) && Offering(Received(d), e, c1, drive, mode, lba + 1, left - 1)
        && Continues(r, [media[lba]], ReadRun(media, mode, lba + 1, left - 1, e.plan))
      else
        r == ([], PollCode(d.status)) && Finished(c1, d, 0) && d.media == c1.media
  {
    Offered(c, drive, mode, lba, left);
    NextInIsValid(c, drive, mode, lba, left);
    hide NextIn, Settled, Grants, PollCode, Tail, IsSuffix, ReadRun, Continues, Received, Offering;
    if PollCode(now.status) == 0 {
      ReadGranted(now, c, c1, drive, mode, lba, left);
    } else {
      ReadRefused(now, c, c1, drive, mode, lba, left);
    }
  }

  lemma {:induction false} ReadGranted(
      now: Channel, c: Channel, c1: Channel, drive: nat, mode: Addressing, lba: nat, left: nat)
    requires drive < 2 && left > 0 && Offering(now, c, c1, drive, mode, lba, left) && PollCode(now.status) == 0
    ensures |c.media| == |c1.media| == 2 && ValidChannel(now.(busy := []))
    ensures var d, media := now.(busy := []), c1.media[drive];
      var e := Taken(d);
      && lba in media && d.transfer == DataIn(drive, mode, lba, left, media[lba], 0)
      && ValidChannel(e) && Offering(Received(d), e, c1, drive, mode, lba + 1, left - 1)
      && Continues(ReadRun(media, mode, lba, left, c.plan), [media[lba]],
        ReadRun(media, mode, lba + 1, left - 1, e.plan))
  {
    hide *;
    GrantedSector(now, c, c1, drive, mode, lba, left);
    TakenIsValid(now);
    GrantedNext(now.(busy := []), c1, drive, mode, lba, left);
  }

  lemma {:induction false} GrantedSector(
      now: Channel, c: Channel, c1: Channel, drive: nat, mode: Addressing, lba: nat, left: nat)
    requires drive < 2 && left > 0 && Offering(now, c, c1, drive, mode, lba, left) && PollCode(now.status) == 0
    ensures |c.media| == |c1.media| == 2 && ValidChannel(now)
    ensures var d, media := now.(busy := []), c1.media[drive];
      && lba in media && now.transfer == DataIn(drive, mode, lba, left, media[lba], 0)
      && now.media == c1.media && now.early == c1.early && IsSuffix(Taken(d).plan, c1.plan)
      && Continues(ReadRun(media, mode, lba, left, c.plan), [media[lba]],
        ReadRun(media, mode, lba + 1, left - 1, Taken(d).plan))
  {
    TailIsSuffix(c.plan, c1.plan);
    Offered(c, drive, mode, lba, left);
    NextInIsValid(c, drive, mode, lba, left);
    ReadRunStep(c.media[drive], mode, lba, left, c.plan);
    hide NextIn, Settled, Grants, PollCode, Tail, IsSuffix, ReadRun, Continues, ValidChannel, Received, Taken;
  }

  lemma GrantedNext(d: Channel, c1: Channel, drive: nat, mode: Addressing, lba: nat, left: nat)
    requires drive < 2 && left > 0 && ValidChannel(d) && ValidChannel(Taken(d))
    requires d.transfer.DataIn? && d.transfer.drive == drive && d.transfer.mode == mode
    requires d.transfer.lba == lba && d.transfer.left == left
    requires d.media == c1.media && d.early == c1.early && IsSuffix(Taken(d).plan, c1.plan)
    requires var t := d.transfer; Received(d) == NextIn(Taken(d), t.drive, t.mode, t.lba + 1, t.left - 1)
    ensures Offering(Received(d), Taken(d), c1, drive, mode, lba + 1, left - 1)
  {
    hide NextIn, Taken, Received, ValidChannel, IsSuffix;
  }

  lemma {:induction false} ReadRefused(
      now: Channel, c: Channel, c1: Channel, drive: nat, mode: Addressing, lba: nat, left: nat)
    requires drive < 2 && left > 0 && Offering(now, c, c1, drive, mode, lba, left) && PollCode(now.status) != 0
    ensures |c.media| == |c1.media| == 2 && now.media == c1.media && Finished(c1, now.(busy := []), 0)
    ensures ReadRun(c1.media[drive], mode, lba, left, c.plan) == ([], PollCode(now.status))
  {
    TailIsSuffix(c.plan, c1.plan);
    Offered(c, drive, mode, lba, left);
    ReadRunStep(c.media[drive], mode, lba, left, c.plan);
    hide NextIn, Settled, Grants, PollCode, Tail, IsSuffix, ReadRun, Continues;
  }

  lemma TakenIsValid(now: Channel)
    requires ValidChannel(now) && now.transfer.DataIn?
    ensures var d := now.(busy := []); ValidChannel(d) && ValidChannel(Taken(d))
    ensures var d, t := now.(busy := []), now.transfer;
      Received(d) == NextIn(Taken(d), t.drive, t.mode, t.lba + 1, t.left - 1)
  {
    hide NextIn;
  }

  lemma ReadRunStep(media: Media, mode: Addressing, lba: nat, n: nat, plan: seq<Phase>)
    requires n > 0
    ensures var status, r := Settled(Head(plan), media, mode, lba), ReadRun(media, mode, lba, n, plan);
      if Grants(status) then
        lba in media && Continues(r, [media[lba]], ReadRun(media, mode, lba + 1, n - 1, Tail(plan)))
      else r == ([], PollCode(status))
  {
    hide Grants, PollCode;
    assert Grants(Settled(Head(plan), media, mode, lba)) ==> lba in media by {
      FailedIsRefused();
    }
  }

  lemma FailedIsRefused()
    ensures !Grants(FAILED)
  {
  }

  lemma {:induction false} ReadEnds(now: Channel, c: Channel, c1: Channel, drive: nat, mode: Addressing, lba: nat)
    requires drive < 2 && Offering(now, c, c1, drive, mode, lba, 0)
    ensures Finished(c1, now, 0) && now.media == c1.media && |c1.media| == 2
    ensures ReadRun(c1.media[drive], mode, lba, 0, c.plan) == ([], 0)
  {
  }

  // ---------- one sector over the data port ----------

  /** The channel after i of the 256 words of a sector have been read. */
  ghost function AfterWordsIn(c: Channel, i: nat): Channel
    requires ValidChannel(c) && c.transfer.DataIn? && i <= 256
  {
    if i < 256 then c.(transfer := c.transfer.(position := 2 * i)) else Received(c)
  }

  ghost function Received(c: Channel): Channel
    requires ValidChannel(c) && c.transfer.DataIn?
  {
    var t := c.transfer;
    NextIn(c.(transfer := t.(position := SECTOR_SIZE - 2)), t.drive, t.mode, t.lba + 1, t.left - 1)
  }

  /** Two more bytes of the sector are in the buffer. */
  lemma WordInBuffer(b: seq<byte>, o: nat, fifo: Sector, i: nat)
    requires o + SECTOR_SIZE <= |b| && i < 256
    ensures var w := U16(fifo, 2 * i);
      Overwrite(b, o, fifo[..2 * i])[o + 2 * i := w % 0x100][o + 2 * i + 1 := w / 0x100]
        == Overwrite(b, o, fifo[..2 * i + 2])
  {
    var w := U16(fifo, 2 * i);
    assert w % 0x100 == fifo[2 * i] && w / 0x100 == fifo[2 * i + 1];
  }

  lemma AllWordsIn(c: Channel, b: seq<byte>, o: nat)
    requires ValidChannel(c) && c.transfer.DataIn? && c.transfer.position == 0 && o + SECTOR_SIZE <= |b|
    ensures AfterWordsIn(c, 0) == c && AfterWordsIn(c, 256) == Received(c)
    ensures Overwrite(b, o, c.transfer.fifo[..0]) == b && c.transfer.fifo[..512] == c.transfer.fifo
  {
  }

  lemma OwnWordIn(c: Channel, i: nat)
    requires ValidChannel(c) && c.transfer.DataIn? && c.transfer.position == 0 && c.busy == [] && i < 256
    ensures ValidChannel(AfterWordsIn(c, i))
    ensures InWord(AfterWordsIn(c, i), c.base) == (AfterWordsIn(c, i + 1), U16(c.transfer.fifo, 2 * i))
    ensures SameWiring(AfterWordsIn(c, i), AfterWordsIn(c, i + 1))
  {
    var t := c.transfer;
    if i == 255 {
      NextInIsValid(c.(transfer := t.(position := SECTOR_SIZE - 2)), t.drive, t.mode, t.lba + 1, t.left - 1);
    }
    hide NextIn, U16;
  }

  lemma WordIn(ports: seq<Channel>, channels: seq<ChannelInfo>, ch: nat, c: Channel, i: nat)
    requires Wired(ports, channels) && ch < 2 && i < 256
    requires ValidChannel(c) && c.transfer.DataIn? && c.transfer.position == 0 && c.busy == []
    requires ports[ch] == AfterWordsIn(c, i)
    ensures var bus := channels[ch].base;
      var after := ports[ch := AfterWordsIn(c, i + 1)];
      && ValidChannel(ports[0]) && ValidChannel(ports[1])
      && [InWord(ports[0], bus).0, InWord(ports[1], bus).0] == after
      && Wired(after, channels)
      && (if InBlock(ports[1], bus) then InWord(ports[1], bus).1 else InWord(ports[0], bus).1)
         == U16(c.transfer.fifo, 2 * i)
  {
    RegisterIsOneChannels(ports, channels, ch, 0, 0, 0);
    OwnWordIn(c, i);
    StaysWired(ports, channels, ch, AfterWordsIn(c, i + 1));
    hide AfterWordsIn, InWord;
    assert InWord(ports[ch], channels[ch].base).0 == AfterWordsIn(c, i + 1);
  }

  /** The channel after i of 256 words have been written; without a request for data
      they are lost. */
  ghost function AfterWordsOut(c: Channel, sector: seq<byte>, i: nat): Channel
    requires ValidChannel(c) && i <= 256 && |sector| == SECTOR_SIZE
  {
    if i == 256 then Sent(c, sector)
    else if c.transfer.DataOut? then c.(transfer := c.transfer.(received := sector[..2 * i]))
    else c
  }

  ghost function Sent(c: Channel, sector: seq<byte>): Channel
    requires ValidChannel(c) && |sector| == SECTOR_SIZE
  {
    if !c.transfer.DataOut? then c
    else
      var t := c.transfer;
      NextOut(Store(c.(transfer := t.(received := sector[..SECTOR_SIZE - 2])), t.drive, t.lba, sector),
              t.drive, t.mode, t.lba + 1, t.left - 1)
  }

  lemma OwnWordOut(c: Channel, sector: seq<byte>, i: nat, w: word)
    requires ValidChannel(c) && !c.transfer.DataIn? && c.busy == [] && i < 256 && |sector| == SECTOR_SIZE
    requires c.transfer.DataOut? ==> c.transfer.received == []
    requires w == U16(sector, 2 * i)
    ensures ValidChannel(AfterWordsOut(c, sector, i))
    ensures OutWord(AfterWordsOut(c, sector, i), c.base, w) == AfterWordsOut(c, sector, i + 1)
    ensures SameWiring(AfterWordsOut(c, sector, i), AfterWordsOut(c, sector, i + 1))
  {
    if !c.transfer.DataOut? {
      hide NextOut, Store, U16;
    } else {
      TwoMoreBytes(sector, i, w);
      hide U16, Bytes16;
      if i < 255 {
        InnerWordOut(c, sector, i, w);
      } else {
        LastWordOut(c, sector, w);
      }
    }
  }

  lemma TwoMoreBytes(sector: seq<byte>, i: nat, w: word)
    requires i < 256 && |sector| == SECTOR_SIZE && w == U16(sector, 2 * i)
    ensures sector[..2 * i] + Bytes16(w) == sector[..2 * i + 2]
    ensures sector[..SECTOR_SIZE] == sector
  {
  }

  lemma InnerWordOut(c: Channel, sector: seq<byte>, i: nat, w: word)
    requires ValidChannel(c) && c.transfer.DataOut? && c.busy == [] && i < 255 && |sector| == SECTOR_SIZE
    requires sector[..2 * i] + Bytes16(w) == sector[..2 * i + 2] && c.transfer.received == []
    ensures ValidChannel(AfterWordsOut(c, sector, i))
    ensures OutWord(AfterWordsOut(c, sector, i), c.base, w) == AfterWordsOut(c, sector, i + 1)
    ensures SameWiring(AfterWordsOut(c, sector, i), AfterWordsOut(c, sector, i + 1))
  {
    hide NextOut, Store, Bytes16;
  }

  lemma LastWordOut(c: Channel, sector: seq<byte>, w: word)
    requires ValidChannel(c) && c.transfer.DataOut? && c.busy == [] && |sector| == SECTOR_SIZE
    requires sector[..510] + Bytes16(w) == sector[..512] && sector[..512] == sector && c.transfer.received == []
    ensures ValidChannel(AfterWordsOut(c, sector, 255))
    ensures OutWord(AfterWordsOut(c, sector, 255), c.base, w) == Sent(c, sector)
    ensures SameWiring(AfterWordsOut(c, sector, 255), Sent(c, sector))
  {
    hide *;
    var d := AfterWordsOut(c, sector, 255);
    AlmostSent(c, sector);
    FullSector(d, w, sector);
  }

  lemma FullSector(d: Channel, w: word, sector: seq<byte>)
    requires ValidChannel(d) && d.transfer.DataOut? && d.busy == []
    requires d.transfer.received + Bytes16(w) == sector && |sector| == SECTOR_SIZE
    ensures var t := d.transfer;
      && |d.media| == 2 && t.drive < 2 && t.left > 0
      && OutWord(d, d.base, w) == NextOut(Store(d, t.drive, t.lba, sector), t.drive, t.mode, t.lba + 1, t.left - 1)
  {
    hide NextOut, Store, Bytes16;
  }

  lemma AlmostSent(c: Channel, sector: seq<byte>)
    requires ValidChannel(c) && c.transfer.DataOut? && |sector| == SECTOR_SIZE && c.transfer.received == []
    ensures var d, t := AfterWordsOut(c, sector, 255), c.transfer;
      && ValidChannel(d) && SameWiring(d, Sent(c, sector))
      && d.base == c.base && d.busy == c.busy && d.transfer == t.(received := sector[..510])
      && |d.media| == 2 && t.drive < 2 && t.left > 0
      && Sent(c, sector) == NextOut(Store(d, t.drive, t.lba, sector), t.drive, t.mode, t.lba + 1, t.left - 1)
  {
    hide *;
    var d, t := AfterWordsOut(c, sector, 255), c.transfer;
    BeforeLastWord(c, sector);
    var stored := Store(d, t.drive, t.lba, sector);
    StoreIsValid(d, t.drive, t.lba, sector);
    SameHardware(d, stored, stored);
    NextOutIsValid(stored, t.drive, t.mode, t.lba + 1, t.left - 1);
    SameHardware(d, stored, Sent(c, sector));
  }

  lemma BeforeLastWord(c: Channel, sector: seq<byte>)
    requires ValidChannel(c) && c.transfer.DataOut? && |sector| == SECTOR_SIZE && c.transfer.received == []
    ensures var d, t := AfterWordsOut(c, sector, 255), c.transfer;
      && ValidChannel(d) && |d.media| == 2
      && d.base == c.base && d.busy == c.busy && d.transfer == t.(received := sector[..510])
      && t.drive < 2 && t.left > 0
      && Sent(c, sector) == NextOut(Store(d, t.drive, t.lba, sector), t.drive, t.mode, t.lba + 1, t.left - 1)
  {
    hide NextOut, Store;
  }

  lemma SameHardware(c: Channel, d: Channel, e: Channel)
    requires SameWiring(c, d)
    ensures ValidChannel(d) && (SameWiring(d, e) ==> SameWiring(c, e))
  {
    hide ValidChannel;
  }

  lemma WordOut(
      ports: seq<Channel>, channels: seq<ChannelInfo>, ch: nat, c: Channel, sector: seq<byte>, i: nat, w: word)
    requires Wired(ports, channels) && ch < 2 && i < 256 && |sector| == SECTOR_SIZE
    requires ValidChannel(c) && !c.transfer.DataIn? && c.busy == []
    requires c.transfer.DataOut? ==> c.transfer.received == []
    requires ports[ch] == AfterWordsOut(c, sector, i) && w == U16(sector, 2 * i)
    ensures var bus := channels[ch].base;
      var after := ports[ch := AfterWordsOut(c, sector, i + 1)];
      && ValidChannel(ports[0]) && ValidChannel(ports[1])
      && [OutWord(ports[0], bus, w), OutWord(ports[1], bus, w)] == after
      && Wired(after, channels)
  {
    RegisterIsOneChannels(ports, channels, ch, 0, 0, w);
    OwnWordOut(c, sector, i, w);
    StaysWired(ports, channels, ch, AfterWordsOut(c, sector, i + 1));
    hide AfterWordsOut, OutWord;
    assert OutWord(ports[ch], channels[ch].base, w) == AfterWordsOut(c, sector, i + 1);
  }

  function WithParameter(c: Channel, reg: nat, v: byte): Channel
    requires REG_SECCOUNT0 <= reg <= REG_LBA5 && reg != REG_COMMAND
  {
    if reg == REG_SECCOUNT0 || reg == REG_SECCOUNT1 then c.(count := c.count.Write(v))
    else if reg == REG_LBA0 || reg == REG_LBA3 then c.(low := c.low.Write(v))
    else if reg == REG_LBA1 || reg == REG_LBA4 then c.(mid := c.mid.Write(v))
    else if reg == REG_LBA2 || reg == REG_LBA5 then c.(high := c.high.Write(v))
    else c.(device := v)
  }

  lemma ParameterWritten(ports: seq<Channel>, channels: seq<ChannelInfo>, ch: nat, reg: nat, v: byte)
    requires Wired(ports, channels) && ch < 2
    requires REG_SECCOUNT0 <= reg <= REG_LBA5 && reg != REG_COMMAND
    requires IsReady(ports[ch])
    ensures RegisterWritten(ports[ch], channels[ch], reg, v) == WithParameter(ports[ch], reg, v)
  {
    RegisterIsOneChannels(ports, channels, ch, reg, v, 0);
  }

  /** Nothing but the parameter registers differs. */
  function WithParametersOf(c: Channel, d: Channel): Channel {
    c.(device := d.device, count := d.count, low := d.low, mid := d.mid, high := d.high)
  }

  lemma CommandWritten(ports: seq<Channel>, channels: seq<ChannelInfo>, ch: nat, cmd: byte)
    requires Wired(ports, channels) && ch < 2
    ensures ValidChannel(ports[ch])
    ensures RegisterWritten(ports[ch], channels[ch], REG_COMMAND, cmd) == AtOnce(ports[ch], cmd)
  {
    RegisterIsOneChannels(ports, channels, ch, REG_COMMAND, cmd, 0);
    hide Command, Wired, IsReady;
    CommandPort(ports[ch], cmd);
    hide OutByte;
  }

  function FlushCommand(mode: Addressing): byte {
    if mode.Lba48? then CMD_CACHE_FLUSH_EXT else CMD_CACHE_FLUSH
  }

  /** A command written without waiting. */
  function AtOnce(c: Channel, cmd: byte): Channel
    requires |c.media| == 2
  {
    if IsReady(c) then Command(c, cmd)
    else if c.takesEarly then Command(c.(early := c.early + 1), cmd)
    else c.(early := c.early + 1)
  }

  /** A command: interrupts off first, and the command byte last. */
  ghost predicate IsCommandTrace(w: seq<(word, byte)>, info: ChannelInfo, direction: Direction, lba: dword) {
    && |w| > 1
    && w[0] == ((info.control + 2) % 0x1_0000, 2)
    && w[|w| - 1] == ((info.base + 7) % 0x1_0000,
         if direction.Read? then (if lba >= 0x1000_0000 then 0x24 else 0x20)
         else (if lba >= 0x1000_0000 then 0x34 else 0x30))
  }

  lemma TraceOfCommand(
    before: seq<(word, byte)>, written: seq<(word, byte)>, now: seq<(word, byte)>, info: ChannelInfo,
    direction: Direction, lba: dword, cmd: byte)
    requires before + PortWrites(info, REG_CONTROL, 2) <= written && now == written + PortWrites(info, REG_COMMAND, cmd)
    requires cmd == if direction.Read? then (if lba >= 0x1000_0000 then 0x24 else 0x20)
      else (if lba >= 0x1000_0000 then 0x34 else 0x30)
    ensures before <= now && IsCommandTrace(now[|before|..], info, direction, lba)
  {
    var first := PortWrites(info, REG_CONTROL, 2);
    assert now[|before|] == written[|before|] == (before + first)[|before|] == first[0];
  }

  lemma CommandPort(c: Channel, cmd: byte)
    requires ValidChannel(c)
    ensures OutByte(c, c.base + REG_COMMAND, cmd) == AtOnce(c, cmd)
  {
    hide Command, IsReady;
  }

  lemma NoIntrIsFree(ports: seq<Channel>, channels: seq<ChannelInfo>, before: seq<ChannelInfo>, ch: nat)
    requires Wired(ports, before) && ch < 2 && channels == before[ch := before[ch].(noIntr := 2)]
    ensures Wired(ports, channels)
  {
  }

  lemma Pair(ports: seq<Channel>, channels: seq<ChannelInfo>)
    requires Wired(ports, channels)
    ensures |ports| == |channels| == 2 && ValidChannel(ports[0]) && ValidChannel(ports[1])
  {
  }

  /** Nothing but the remaining busy period of one channel differs. */
  ghost predicate OnlyBusyEnded(before: seq<Channel>, now: seq<Channel>, ch: nat)
    requires ch < 2
  {
    && |before| == |now| == 2
    && now == before[ch := before[ch].(busy := now[ch].busy)]
  }
}
