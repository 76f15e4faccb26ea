/**
 A conforming ATA channel as seen from its ports: a state machine with two-deep
 command-block registers, a status that is busy for any finite time, a data FIFO,
 and two drives. How long it is busy, how each step ends, and what becomes of writes
 that come too early is the plan: a finite list of phases, fault-free and immediate
 once the list is used up. The device counts the command-block writes that come while
 it is busy or in the middle of a transfer.
 */
module AtaDevice {
  import opened Bytes

  const SECTOR_SIZE := 512

  type Sector = s: seq<byte> | |s| == SECTOR_SIZE witness Zeros(SECTOR_SIZE)

  // ---------- status register ----------

  predicate Bsy(status: byte) { status >= 0x80 }
  predicate Df(status: byte) { status as int / 0x20 % 2 == 1 }
  predicate Drq(status: byte) { status as int / 8 % 2 == 1 }
  predicate Err(status: byte) { status as int % 2 == 1 }

  predicate Faulty(status: byte) { Err(status) || Df(status) }
  predicate Grants(status: byte) { Drq(status) && !Faulty(status) }

  const READY: byte := 0x50
  const READY_FOR_DATA: byte := 0x58
  const FAILED: byte := 0x51
  const ID_NOT_FOUND: byte := 0x10
  const ABORTED: byte := 0x04

  // ---------- the device's behaviour to come ----------

  /** Status bytes shown while busy, then the status and error registers it settles on;
      and what becomes of a command-block write that the device is not ready for. */
  datatype Phase = Phase(busy: seq<byte>, status: byte, error: byte, takesEarly: bool)

  ghost predicate ValidPhase(p: Phase) {
    (forall i :: 0 <= i < |p.busy| ==> Bsy(p.busy[i])) && !Bsy(p.status)
  }

  ghost predicate ValidPlan(plan: seq<Phase>) {
    forall i :: 0 <= i < |plan| ==> ValidPhase(plan[i])
  }

  function Head(plan: seq<Phase>): Phase {
    if plan == [] then Phase([], READY_FOR_DATA, 0, false) else plan[0]
  }

  function Tail(plan: seq<Phase>): seq<Phase> {
    if plan == [] then [] else plan[1..]
  }

  /** A plan without faults. */
  ghost predicate Healthy(plan: seq<Phase>) {
    forall i :: 0 <= i < |plan| ==> Grants(plan[i].status)
  }

  ghost predicate IsSuffix(later: seq<Phase>, plan: seq<Phase>) {
    |later| <= |plan| && later == plan[|plan| - |later|..]
  }

  lemma SuffixIsHealthy(later: seq<Phase>, plan: seq<Phase>)
    requires Healthy(plan) && IsSuffix(later, plan)
    ensures Healthy(later)
  {
    forall i | 0 <= i < |later|
      ensures Grants(later[i].status)
    {
      assert later[i] == plan[|plan| - |later| + i];
    }
  }

  // ---------- addressing ----------

  datatype Addressing = Chs | Lba28 | Lba48

  const HEADS := 16
  const SECTORS_PER_TRACK := 63
  const CHS_LIMIT := 0x1_0000 * 1008
  const LBA28_LIMIT := 0x1000_0000
  const LBA48_LIMIT := 0x1_0000_0000_0000

  function Limit(mode: Addressing): nat {
    match mode
    case Chs => CHS_LIMIT
    case Lba28 => LBA28_LIMIT
    case Lba48 => LBA48_LIMIT
  }

  type Media = map<nat, Sector>

  predicate Addressable(media: Media, mode: Addressing, lba: nat) {
    lba in media && lba < Limit(mode)
  }

  /** The status the device settles on when it is about to transfer sector lba. */
  function Settled(p: Phase, media: Media, mode: Addressing, lba: nat): byte {
    if Addressable(media, mode, lba) then p.status else FAILED
  }

  // ---------- the channel ----------

  /** A two-deep register: a write pushes the old value down. */
  datatype Register = Register(current: byte, previous: byte) {
    function Write(v: byte): Register {
      Register(v, current)
    }
  }

  datatype Transfer =
    | Idle
    | DataIn(drive: nat, mode: Addressing, lba: nat, left: nat, fifo: Sector, position: nat)
    | DataOut(drive: nat, mode: Addressing, lba: nat, left: nat, received: seq<byte>)

  datatype Channel = Channel(
    base: word,
    control: word,
    media: seq<Media>,
    count: Register,
    low: Register,
    mid: Register,
    high: Register,
    device: byte,
    busy: seq<byte>,
    status: byte,
    error: byte,
    takesEarly: bool,
    early: nat,
    transfer: Transfer,
    plan: seq<Phase>
  )

  ghost predicate ValidTransfer(t: Transfer) {
    match t
    case Idle => true
    case DataIn(drive, _, _, left, _, position) =>
      drive < 2 && left > 0 && position < SECTOR_SIZE && position % 2 == 0
    case DataOut(drive, _, _, left, received) =>
      drive < 2 && left > 0 && |received| < SECTOR_SIZE && |received| % 2 == 0
  }

  ghost predicate ValidChannel(c: Channel) {
    && c.base <= 0xFFF8
    && !(c.base <= c.control < c.base + 8)
    && |c.media| == 2
    && (forall i :: 0 <= i < |c.busy| ==> Bsy(c.busy[i])) && !Bsy(c.status)
    && ValidPlan(c.plan)
    && ValidTransfer(c.transfer)
  }

  function SelectedDrive(c: Channel): nat {
    c.device as int / 0x10 % 2
  }

  function SelectedMode(c: Channel): Addressing {
    if c.device as int / 0x40 % 2 == 1 then Lba28 else Chs
  }

  /** The first sector a command is for. */
  function StartAddress(c: Channel, mode: Addressing): int {
    match mode
    case Chs =>
      ((c.high.current as int * 0x100 + c.mid.current) * HEADS + c.device as int % 0x10) * SECTORS_PER_TRACK
      + c.low.current - 1
    case Lba28 =>
      c.device as int % 0x10 * 0x100_0000 + c.high.current as int * 0x1_0000
      + c.mid.current as int * 0x100 + c.low.current
    case Lba48 =>
      c.high.previous as int * 0x100_0000_0000 + c.mid.previous as int * 0x1_0000_0000
      + c.low.previous as int * 0x100_0000
      + c.high.current as int * 0x1_0000 + c.mid.current as int * 0x100 + c.low.current
  }

  function SectorCount(c: Channel, mode: Addressing): nat {
    match mode
    case Lba48 =>
      var n := c.count.previous as int * 0x100 + c.count.current; if n == 0 then 0x1_0000 else n
    case _ => if c.count.current == 0 then 0x100 else c.count.current
  }

  /** Settles on the next phase of the plan, with a given status and transfer. */
  function Enter(c: Channel, status: byte, error: byte, t: Transfer): Channel {
    c.(busy := Head(c.plan).busy, status := status, error := error, takesEarly := Head(c.plan).takesEarly,
       transfer := t, plan := Tail(c.plan))
  }

  /** About to send sector lba to the host, left sectors to go. */
  function NextIn(c: Channel, drive: nat, mode: Addressing, lba: nat, left: nat): Channel
    requires drive < |c.media|
  {
    if left == 0 then c.(status := READY, transfer := Idle)
    else
      var p, media := Head(c.plan), c.media[drive];
      var status := Settled(p, media, mode, lba);
      if !Addressable(media, mode, lba) then Enter(c, status, ID_NOT_FOUND, Idle)
      else if Grants(status) then Enter(c, status, p.error, DataIn(drive, mode, lba, left, media[lba], 0))
      else Enter(c, status, p.error, Idle)
  }

  /** About to take sector lba from the host, left sectors to go; none left is the end
      of the command. */
  function NextOut(c: Channel, drive: nat, mode: Addressing, lba: nat, left: nat): Channel
    requires drive < |c.media|
  {
    var p, media := Head(c.plan), c.media[drive];
    if left == 0 then Enter(c, if Faulty(p.status) then p.status else READY, p.error, Idle)
    else
      var status := Settled(p, media, mode, lba);
      if !Addressable(media, mode, lba) then Enter(c, status, ID_NOT_FOUND, Idle)
      else if Grants(status) then Enter(c, status, p.error, DataOut(drive, mode, lba, left, []))
      else Enter(c, status, p.error, Idle)
  }

  /** A sector has arrived: it reaches the medium unless the device reports a fault. */
  function Store(c: Channel, drive: nat, lba: nat, s: Sector): Channel
    requires drive < |c.media|
  {
    var m: Media := c.media[drive][lba := s];
    if Faulty(Head(c.plan).status) then c else c.(media := c.media[drive := m])
  }

  function Command(c: Channel, cmd: byte): Channel
    requires |c.media| == 2
  {
    var drive := SelectedDrive(c);
    if cmd in {0x20, 0x24, 0x30, 0x34} then
      var mode := if cmd in {0x24, 0x34} then Lba48 else SelectedMode(c);
      var lba := StartAddress(c, mode);
      if lba < 0 then Enter(c, FAILED, ID_NOT_FOUND, Idle)
      else if cmd in {0x20, 0x24} then NextIn(c, drive, mode, lba, SectorCount(c, mode))
      else NextOut(c, drive, mode, lba, SectorCount(c, mode))
    else if cmd in {0xE7, 0xEA} then
      Enter(c, if Faulty(Head(c.plan).status) then Head(c.plan).status else READY, Head(c.plan).error, Idle)
    else Enter(c, FAILED, ABORTED, Idle)
  }

  // ---------- ports ----------

  function Status(c: Channel): byte {
    if c.busy == [] then c.status else c.busy[0]
  }

  function Tick(c: Channel): Channel {
    if c.busy == [] then c else c.(busy := c.busy[1..])
  }

  /** A byte read: the new state and what the host sees. */
  function InByte(c: Channel, port: word): (Channel, byte) {
    if port == c.control || port == c.base + 7 then (Tick(c), Status(c))
    else if port == c.base + 1 then (c, c.error)
    else if port == c.base + 2 then (c, c.count.current)
    else if port == c.base + 3 then (c, c.low.current)
    else if port == c.base + 4 then (c, c.mid.current)
    else if port == c.base + 5 then (c, c.high.current)
    else if port == c.base + 6 then (c, c.device)
    else (c, 0xFF)
  }

  predicate InCommandBlock(c: Channel, port: word) {
    c.base < port < c.base + 8
  }

  /** The host may write the command block: the device is neither busy nor in the middle
      of a transfer. */
  predicate IsReady(c: Channel) {
    c.busy == [] && c.transfer.Idle?
  }

  /** A byte written. What a command-block write does to a device that is not ready is not
      defined: it is counted, and the device takes it or loses it as the plan says. */
  function OutByte(c: Channel, port: word, v: byte): Channel
    requires |c.media| == 2
  {
    if !InCommandBlock(c, port) then c
    else if IsReady(c) then RegisterOut(c, port, v)
    else
      var d := c.(early := c.early + 1);
      if c.takesEarly then RegisterOut(d, port, v) else d
  }

  function RegisterOut(c: Channel, port: word, v: byte): Channel
    requires |c.media| == 2
  {
    if port == c.base + 2 then c.(count := c.count.Write(v))
    else if port == c.base + 3 then c.(low := c.low.Write(v))
    else if port == c.base + 4 then c.(mid := c.mid.Write(v))
    else if port == c.base + 5 then c.(high := c.high.Write(v))
    else if port == c.base + 6 then c.(device := v)
    else if port == c.base + 7 then Command(c, v)
    else c
  }

  function InWord(c: Channel, port: word): (r: (Channel, word))
    requires ValidChannel(c)
  {
    if port == c.base && c.transfer.DataIn? && c.busy == [] then
      var t := c.transfer;
      var w := U16(t.fifo, t.position);
      if t.position + 2 < SECTOR_SIZE then (c.(transfer := t.(position := t.position + 2)), w)
      else (NextIn(c, t.drive, t.mode, t.lba + 1, t.left - 1), w)
    else (c, 0xFFFF)
  }

  function OutWord(c: Channel, port: word, w: word): Channel
    requires ValidChannel(c)
  {
    if port == c.base && c.transfer.DataOut? && c.busy == [] then
      var t := c.transfer;
      var received := t.received + Bytes16(w);
      if |received| < SECTOR_SIZE then c.(transfer := t.(received := received))
      else NextOut(Store(c, t.drive, t.lba, received), t.drive, t.mode, t.lba + 1, t.left - 1)
    else c
  }

  // ---------- what a command does to a drive ----------

  /** The code the driver's checked poll gives for a settled status. */
  function PollCode(status: byte): nat {
    if Err(status) then 2 else if Df(status) then 1 else if !Drq(status) then 3 else 0
  }

  /** In bits: 2 for an error (bit 0), 1 for a device fault (bit 5) without one, 3 when the
      device neither fails nor asks for data (bit 3), 0 when it asks for data. */
  lemma PollCodes(status: byte)
    ensures PollCode(status) == 2 <==> status % 2 == 1
    ensures PollCode(status) == 1 <==> status % 2 == 0 && status / 32 % 2 == 1
    ensures PollCode(status) == 3 <==> status % 2 == 0 && status / 32 % 2 == 0 && status / 8 % 2 == 0
    ensures PollCode(status) == 0 <==> status % 2 == 0 && status / 32 % 2 == 0 && status / 8 % 2 == 1
    ensures Bsy(status) <==> status / 128 % 2 == 1
  {
  }

  /** A read of n sectors: those delivered before the first phase that does not grant
      data, and the poll's code for that phase. */
  function ReadRun(media: Media, mode: Addressing, lba: nat, n: nat, plan: seq<Phase>): (r: (seq<Sector>, nat))
    ensures |r.0| <= n
    decreases n
  {
    if n == 0 then ([], 0)
    else
      var status := Settled(Head(plan), media, mode, lba);
      if !Grants(status) then ([], PollCode(status))
      else
        assert Addressable(media, mode, lba);
        var rest := ReadRun(media, mode, lba + 1, n - 1, Tail(plan));
        ([media[lba]] + rest.0, rest.1)
  }

  /** A write of consecutive sectors: each reaches the medium when the device asks for
      it and then reports no fault; the first that does not ends the command. */
  function WriteRun(media: Media, mode: Addressing, lba: nat, data: seq<Sector>, plan: seq<Phase>): Media
    decreases |data|
  {
    if data == [] || !Grants(Settled(Head(plan), media, mode, lba)) || Faulty(Head(Tail(plan)).status) then media
    else WriteRun(media[lba := data[0]], mode, lba + 1, data[1..], Tail(plan))
  }

  /** The plain map a drive refines, with consecutive sectors replaced. */
  ghost function Update(media: Media, lba: nat, data: seq<Sector>): (m: Media)
    ensures m.Keys == media.Keys
  {
    map s | s in media :: if lba <= s < lba + |data| then data[s - lba] else media[s]
  }

  /** The sectors are those of the map from lba on. */
  ghost predicate AreSectors(media: Media, lba: nat, sectors: seq<Sector>) {
    forall s :: lba <= s < lba + |sectors| ==> s in media && sectors[s - lba] == media[s]
  }

  /** A read returns code 0 exactly when every sector was granted; then it returns those
      sectors of the map. Otherwise it returns the sectors before the failing one. */
  lemma {:induction false} ReadRunRefinesMap(media: Media, mode: Addressing, lba: nat, n: nat, plan: seq<Phase>)
    ensures var r := ReadRun(media, mode, lba, n, plan);
      && AreSectors(media, lba, r.0)
      && (r.1 == 0 <==> |r.0| == n)
      && (r.1 != 0 ==> r.1 in {1, 2, 3})
    decreases n
  {
    if n > 0 && Grants(Settled(Head(plan), media, mode, lba)) {
      assert lba in media;
      ReadRunRefinesMap(media, mode, lba + 1, n - 1, Tail(plan));
      PrependSector(media, lba, ReadRun(media, mode, lba + 1, n - 1, Tail(plan)).0);
      hide AreSectors, Grants, Settled, PollCode;
    }
  }

  lemma PrependSector(media: Media, lba: nat, rest: seq<Sector>)
    requires lba in media && AreSectors(media, lba + 1, rest)
    ensures AreSectors(media, lba, [media[lba]] + rest)
  {
    var all := [media[lba]] + rest;
    forall s | lba <= s < lba + |all|
      ensures s in media && all[s - lba] == media[s]
    {
      if s > lba {
        assert all[s - lba] == rest[s - lba - 1];
      }
    }
  }

  /** How many sectors a write completes. */
  function WriteCount(media: Media, mode: Addressing, lba: nat, n: nat, plan: seq<Phase>): (k: nat)
    ensures k <= n
    decreases n
  {
    if n == 0 || !Grants(Settled(Head(plan), media, mode, lba)) || Faulty(Head(Tail(plan)).status) then 0
    else 1 + WriteCount(media, mode, lba + 1, n - 1, Tail(plan))
  }

  /** A write changes exactly the sectors it completes, to the first slices of the
      data. */
  lemma {:induction false} WriteRunRefinesMap(
      media: Media, mode: Addressing, lba: nat, data: seq<Sector>, plan: seq<Phase>)
    ensures var k := WriteCount(media, mode, lba, |data|, plan);
      WriteRun(media, mode, lba, data, plan) == Update(media, lba, data[..k])
    ensures WriteRun(media, mode, lba, data, plan).Keys == media.Keys
    decreases |data|
  {
    hide Update;
    var k := WriteCount(media, mode, lba, |data|, plan);
    if k > 0 {
      assert lba in media;
      hide Grants, Settled, Faulty;
      var m: Media := media[lba := data[0]];
      assert m.Keys == media.Keys;
      SameAddresses(media, m, mode, lba + 1, |data| - 1, Tail(plan));
      WriteRunRefinesMap(m, mode, lba + 1, data[1..], Tail(plan));
      assert data[1..][..k - 1] == data[1..k];
      UpdateOneMore(media, lba, data, k);
    } else {
      UpdateNothing(media, lba, data);
    }
  }

  lemma UpdateNothing(media: Media, lba: nat, data: seq<Sector>)
    ensures Update(media, lba, data[..0]) == media
  {
  }

  lemma UpdateOneMore(media: Media, lba: nat, data: seq<Sector>, k: nat)
    requires 0 < k <= |data| && lba in media
    ensures Update(media[lba := data[0]], lba + 1, data[1..k]) == Update(media, lba, data[..k])
  {
  }

  lemma {:induction false} SameAddresses(media: Media, m: Media, mode: Addressing, lba: nat, n: nat, plan: seq<Phase>)
    requires m.Keys == media.Keys
    ensures WriteCount(media, mode, lba, n, plan) == WriteCount(m, mode, lba, n, plan)
    decreases n
  {
    assert lba in media <==> lba in m.Keys;
    if n > 0 {
      SameAddresses(media, m, mode, lba + 1, n - 1, Tail(plan));
    }
  }

  /** Without faults, and within the drive and the addressing mode, nothing is cut
      short. */
  lemma {:induction false} HealthyRuns(media: Media, mode: Addressing, lba: nat, n: nat, plan: seq<Phase>)
    requires Healthy(plan)
    requires forall s :: lba <= s < lba + n ==> Addressable(media, mode, s)
    ensures ReadRun(media, mode, lba, n, plan).1 == 0
    ensures WriteCount(media, mode, lba, n, plan) == n
    decreases n
  {
    if n > 0 {
      assert Addressable(media, mode, lba);
      HealthyRuns(media, mode, lba + 1, n - 1, Tail(plan));
    }
  }

  // ---------- where a command stops ----------

  function PhaseAt(plan: seq<Phase>, i: nat): Phase {
    if i < |plan| then plan[i] else Head([])
  }

  /** The device transfers the i-th sector of a command. */
  predicate Transfers(media: Media, mode: Addressing, lba: nat, plan: seq<Phase>, i: nat) {
    Grants(Settled(PhaseAt(plan, i), media, mode, lba + i))
  }

  /** The device also keeps the i-th sector of a write. */
  predicate Completes(media: Media, mode: Addressing, lba: nat, plan: seq<Phase>, i: nat) {
    Transfers(media, mode, lba, plan, i) && !Faulty(PhaseAt(plan, i + 1).status)
  }

  lemma OnePhaseLater(media: Media, mode: Addressing, lba: nat, plan: seq<Phase>, i: nat)
    requires i > 0
    ensures Transfers(media, mode, lba, plan, i) == Transfers(media, mode, lba + 1, Tail(plan), i - 1)
    ensures Completes(media, mode, lba, plan, i) == Completes(media, mode, lba + 1, Tail(plan), i - 1)
    ensures PhaseAt(plan, i) == PhaseAt(Tail(plan), i - 1)
  {
    assert lba + 1 + (i - 1) == lba + i;
    hide Grants, Settled, Faulty;
  }

  /** A read stops at the first sector the device does not grant, with its code. */
  lemma {:induction false} ReadStopsAt(media: Media, mode: Addressing, lba: nat, n: nat, plan: seq<Phase>, i: nat)
    requires var k := |ReadRun(media, mode, lba, n, plan).0|; i <= k && i < n
    ensures var r := ReadRun(media, mode, lba, n, plan);
      if i < |r.0| then Transfers(media, mode, lba, plan, i)
      else
        && !Transfers(media, mode, lba, plan, i)
        && r.1 == PollCode(Settled(PhaseAt(plan, i), media, mode, lba + i))
    decreases n
  {
    if i > 0 {
      ReadStopsAt(media, mode, lba + 1, n - 1, Tail(plan), i - 1);
      OnePhaseLater(media, mode, lba, plan, i);
      assert lba + 1 + (i - 1) == lba + i;
      hide Grants, Settled, PollCode, Transfers;
    }
  }

  lemma {:induction false} WriteStopsAt(media: Media, mode: Addressing, lba: nat, n: nat, plan: seq<Phase>, i: nat)
    requires i <= WriteCount(media, mode, lba, n, plan) && i < n
    ensures Completes(media, mode, lba, plan, i) <==> i < WriteCount(media, mode, lba, n, plan)
    decreases n
  {
    if i > 0 {
      WriteStopsAt(media, mode, lba + 1, n - 1, Tail(plan), i - 1);
      OnePhaseLater(media, mode, lba, plan, i);
      hide Grants, Settled, Faulty, Completes;
    }
  }

  /** A write completes every sector exactly when the device grants each and reports no
      fault after it. */
  lemma {:induction false} WriteCompletesIff(media: Media, mode: Addressing, lba: nat, n: nat, plan: seq<Phase>)
    ensures WriteCount(media, mode, lba, n, plan) == n <==>
      forall i :: 0 <= i < n ==> Completes(media, mode, lba, plan, i)
  {
    var k := WriteCount(media, mode, lba, n, plan);
    if k < n {
      WriteStopsAt(media, mode, lba, n, plan, k);
    } else {
      forall i | 0 <= i < n
        ensures Completes(media, mode, lba, plan, i)
      {
        WriteStopsAt(media, mode, lba, n, plan, i);
      }
    }
  }

  // ---------- the flush behind a write ----------

  /** The busy period that the host's next command meets after the last word of a write
      of n sectors: that of the phase after them, and none when the device has refused
      one, because the host has waited by then. */
  function LeftBusy(media: Media, mode: Addressing, lba: nat, n: nat, plan: seq<Phase>): seq<byte>
    decreases n
  {
    if n == 0 then Head(plan).busy
    else if !Grants(Settled(Head(plan), media, mode, lba)) then []
    else LeftBusy(media, mode, lba + 1, n - 1, Tail(plan))
  }

  /** The device transfers all n sectors of a command. */
  ghost predicate TransfersAll(media: Media, mode: Addressing, lba: nat, n: nat, plan: seq<Phase>) {
    forall i :: 0 <= i < n ==> Transfers(media, mode, lba, plan, i)
  }

  /** A command sent at once after the last word meets a busy device exactly when the
      device has taken every sector and the phase after them has a busy period. */
  lemma {:induction false} LeftBusyIff(media: Media, mode: Addressing, lba: nat, n: nat, plan: seq<Phase>)
    ensures LeftBusy(media, mode, lba, n, plan) != []
       <==> TransfersAll(media, mode, lba, n, plan) && PhaseAt(plan, n).busy != []
    decreases n
  {
    if n > 0 {
      LeftBusyIff(media, mode, lba + 1, n - 1, Tail(plan));
      TransfersFirst(media, mode, lba, n, plan);
      assert PhaseAt(plan, n) == PhaseAt(Tail(plan), n - 1);
      hide TransfersAll;
    }
  }

  lemma TransfersFirst(media: Media, mode: Addressing, lba: nat, n: nat, plan: seq<Phase>)
    requires n > 0
    ensures TransfersAll(media, mode, lba, n, plan) <==>
      && Grants(Settled(Head(plan), media, mode, lba))
      && TransfersAll(media, mode, lba + 1, n - 1, Tail(plan))
  {
    assert Transfers(media, mode, lba, plan, 0) == Grants(Settled(Head(plan), media, mode, lba));
    var next: nat, later := lba + 1, Tail(plan);
    forall i | 0 < i < n
      ensures Transfers(media, mode, lba, plan, i) == Transfers(media, mode, next, later, i - 1)
    {
      OnePhaseLater(media, mode, lba, plan, i);
    }
    hide Transfers;
    if TransfersAll(media, mode, lba, n, plan) {
      forall j | 0 <= j < n - 1
        ensures Transfers(media, mode, next, later, j)
      {
        assert Transfers(media, mode, lba, plan, j + 1);
      }
    }
  }

  /** A device that keeps the sector it is sent and is busy with it when the next command
      comes. */
  lemma {:induction false} BusyAfterWrite(media: Media, mode: Addressing, lba: nat, busy: byte)
    requires Addressable(media, mode, lba)
    ensures var plan := [Phase([], READY_FOR_DATA, 0, false), Phase([busy], READY, 0, false)];
      && WriteCount(media, mode, lba, 1, plan) == 1
      && LeftBusy(media, mode, lba, 1, plan) == [busy]
  {
    var plan := [Phase([], READY_FOR_DATA, 0, false), Phase([busy], READY, 0, false)];
    assert Head(Tail(plan)) == plan[1];
    assert WriteCount(media, mode, lba + 1, 0, Tail(plan)) == 0;
    assert LeftBusy(media, mode, lba + 1, 0, Tail(plan)) == [busy];
  }

  lemma {:induction false} SameLeftBusy(media: Media, m: Media, mode: Addressing, lba: nat, n: nat, plan: seq<Phase>)
    requires forall s: nat :: s >= lba ==> (s in media <==> s in m)
    ensures LeftBusy(media, mode, lba, n, plan) == LeftBusy(m, mode, lba, n, plan)
    decreases n
  {
    if n > 0 {
      SameLeftBusy(media, m, mode, lba + 1, n - 1, Tail(plan));
    }
  }
}
