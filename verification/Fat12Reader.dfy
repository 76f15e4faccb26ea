/** The FAT-12 reader: its globals are the fields, filled in stages. */
module Fat12Reader {
  import opened Bytes
  import opened Fat12Table
  import opened Fat12Volume

  datatype Outcome = Extracted(data: seq<byte>) | Failed(code: int)

  const CANNOT_READ_BOOT_SECTOR := -2
  const CANNOT_READ_FAT := -3
  const CANNOT_READ_ROOT := -4
  const NO_SUCH_FILE := -5

  /** What one call of ReadFile visits: clusters linked by the FAT, up to the first
      that cannot be read or whose link is an end mark. */
  ghost predicate IsRun(disk: seq<byte>, g: BootSector, rootEnd: nat, fat: seq<byte>, first: nat, run: seq<nat>) {
    && |run| > 0 && run[0] == first
    && (forall i :: 0 <= i < |run| ==> HasEntry(fat, run[i]))
    && (forall i :: 0 <= i < |run| - 1 ==> ClusterReadable(disk, g, rootEnd, run[i]))
    && (forall i, j :: 0 <= i < |run| - 1 && j == i + 1 ==> Leads(fat, run[i], run[j]))
    && (ClusterReadable(disk, g, rootEnd, run[|run| - 1]) ==> Ends(fat, run[|run| - 1]))
  }

  /** The first of n slots with this name, or None when no slot has it. */
  ghost predicate IsLookup(root: seq<byte>, n: nat, name: seq<byte>, slot: Option<nat>)
    requires |name| >= NAME_SIZE && ENTRY_SIZE * n <= |root|
  {
    && (slot.Some? ==> slot.value < n && ParseEntry(root, slot.value).name == name[..NAME_SIZE])
    && (forall k :: 0 <= k < (if slot.Some? then slot.value else n) ==> ParseEntry(root, k).name != name[..NAME_SIZE])
  }

  ghost function Lookup(root: seq<byte>, n: nat, name: seq<byte>): (slot: Option<nat>)
    requires |name| >= NAME_SIZE && ENTRY_SIZE * n <= |root|
    ensures IsLookup(root, n, name, slot)
  {
    if n == 0 then None
    else
      var slot := Lookup(root, n - 1, name);
      if slot.None? && ParseEntry(root, n - 1).name == name[..NAME_SIZE] then Some(n - 1) else slot
  }

  lemma LookupIsUnique(root: seq<byte>, n: nat, name: seq<byte>, a: Option<nat>, b: Option<nat>)
    requires |name| >= NAME_SIZE && ENTRY_SIZE * n <= |root|
    requires IsLookup(root, n, name, a) && IsLookup(root, n, name, b)
    ensures a == b
  {
  }

  // ---------- what the whole program depends on and delivers ----------

  /** Neither a division by zero nor a signed overflow in the sizes computed. */
  predicate Supported(g: BootSector) {
    g.bytesPerSector > 0 && g.sectorsPerFat as int * g.bytesPerSector as int < 0x8000_0000
  }

  predicate FatLoads(disk: seq<byte>, g: BootSector) {
    Readable(disk, g, g.reservedSectors, g.sectorsPerFat)
  }

  predicate RootLoads(disk: seq<byte>, g: BootSector)
    requires g.bytesPerSector > 0
  {
    Readable(disk, g, RootStart(g), RootSectors(g))
  }

  ghost function FoundSlot(disk: seq<byte>, g: BootSector, name: seq<byte>): Option<nat>
    requires |name| >= NAME_SIZE && g.bytesPerSector > 0 && RootLoads(disk, g)
  {
    RootHoldsAllSlots(disk, g);
    Lookup(RootBytes(disk, g), g.dirEntryCount, name)
  }

  ghost function FoundEntry(disk: seq<byte>, g: BootSector, name: seq<byte>): DirectoryEntry
    requires |name| >= NAME_SIZE && g.bytesPerSector > 0 && RootLoads(disk, g)
    requires FoundSlot(disk, g, name).Some?
  {
    RootHoldsAllSlots(disk, g);
    ParseEntry(RootBytes(disk, g), FoundSlot(disk, g, name).value)
  }

  lemma RootHoldsAllSlots(disk: seq<byte>, g: BootSector)
    requires g.bytesPerSector > 0 && RootLoads(disk, g)
    ensures ENTRY_SIZE * g.dirEntryCount <= |RootBytes(disk, g)|
  {
    RootEndIsLeast(g, RootEnd(g));
  }

  /** The size main allocates, in 32 bits. */
  function BufferSize(entry: DirectoryEntry, g: BootSector): dword {
    Wrap32(entry.size + g.bytesPerSector)
  }

  /** The walk over a file stays inside the FAT and inside the buffer. */
  ghost predicate RunFits(disk: seq<byte>, g: BootSector, entry: DirectoryEntry, run: seq<nat>)
    requires g.bytesPerSector > 0
  {
    && IsRun(disk, g, RootEnd(g), FatBytes(disk, g), entry.firstClusterLow, run)
    && |run| * ClusterSize(g) <= BufferSize(entry, g)
    && entry.size <= BufferSize(entry, g)
  }

  /** The program fails on an unreadable cluster; otherwise it shows Size bytes, those
      of the chain as far as it goes. */
  ghost predicate Delivers(disk: seq<byte>, g: BootSector, entry: DirectoryEntry, run: seq<nat>, r: Outcome)
    requires g.bytesPerSector > 0 && |run| > 0
  {
    if !ClusterReadable(disk, g, RootEnd(g), run[|run| - 1]) then r == Failed(NO_SUCH_FILE)
    else
      && r.Extracted? && |r.data| == entry.size
      && var got := WalkBytes(disk, g, RootEnd(g), run);
         forall k :: 0 <= k < |got| && k < |r.data| ==> r.data[k] == got[k]
  }

  lemma {:induction false} RunsAgree(
    disk: seq<byte>, g: BootSector, rootEnd: nat, fat: seq<byte>, first: nat, run: seq<nat>, other: seq<nat>, n: nat)
    requires IsRun(disk, g, rootEnd, fat, first, run) && IsRun(disk, g, rootEnd, fat, first, other)
    requires 1 <= n <= |run|
    ensures n <= |other| && run[..n] == other[..n]
  {
    if n > 1 {
      RunsAgree(disk, g, rootEnd, fat, first, run, other, n - 1);
      var m := n - 2;
      assert run[m] == run[..n - 1][m] == other[..n - 1][m] == other[m];
      assert Leads(fat, run[m], run[n - 1]);
      if n <= |other| {
        assert Leads(fat, other[m], other[n - 1]);
        assert run[..n] == run[..n - 1] + [run[n - 1]];
        assert other[..n] == other[..n - 1] + [other[n - 1]];
      }
    }
  }

  // ---------- when the loop of ReadFile ends ----------

  /** A run visits no cluster twice and so takes at most one round per FAT entry, whether
      it stops at an end mark or at a failed read. */
  lemma {:induction false} RunIsShort(
      disk: seq<byte>, g: BootSector, rootEnd: nat, fat: seq<byte>, first: nat, run: seq<nat>)
    requires IsRun(disk, g, rootEnd, fat, first, run)
    ensures Distinct(run) && |run| <= |fat| * 2 / 3
  {
    forall i, j | 0 <= i < j < |run|
      ensures run[i] != run[j]
    {
      RunTails(disk, g, rootEnd, fat, first, run, i, j);
    }
    hide ClusterReadable, HasEntry;
    Pigeonhole(run, |fat| * 2 / 3) by {
      EntriesAreBelow(fat, run);
    }
  }

  lemma EntriesAreBelow(fat: seq<byte>, run: seq<nat>)
    requires forall i :: 0 <= i < |run| ==> HasEntry(fat, run[i])
    ensures forall i :: 0 <= i < |run| ==> run[i] < |fat| * 2 / 3
  {
  }

  lemma {:induction false} RunTails(
    disk: seq<byte>, g: BootSector, rootEnd: nat, fat: seq<byte>, first: nat, run: seq<nat>, i: nat, j: nat)
    requires IsRun(disk, g, rootEnd, fat, first, run) && i < j < |run|
    ensures run[i] != run[j]
    decreases |run| - j
  {
    hide ClusterReadable;
    assert Leads(fat, run[i], run[i + 1]);
    if j + 1 < |run| {
      RunTails(disk, g, rootEnd, fat, first, run, i + 1, j + 1);
      assert Leads(fat, run[j], run[j + 1]);
    }
  }

  /** A walk that the loop can follow: every cluster before the last can be read. */
  ghost predicate IsReadableWalk(disk: seq<byte>, g: BootSector, rootEnd: nat, fat: seq<byte>, walk: seq<nat>) {
    IsWalk(fat, walk) && forall i :: 0 <= i < |walk| - 1 ==> ClusterReadable(disk, g, rootEnd, walk[i])
  }

  /** The loop comes back to a cluster. */
  ghost predicate Circles(disk: seq<byte>, g: BootSector, rootEnd: nat, fat: seq<byte>, first: nat) {
    exists walk: seq<nat> :: IsReadableWalk(disk, g, rootEnd, fat, walk) && walk[0] == first && !Distinct(walk)
  }

  /** The loop comes to a cluster that the FAT has no link for. */
  ghost predicate Strays(disk: seq<byte>, g: BootSector, rootEnd: nat, fat: seq<byte>, first: nat) {
    exists walk: seq<nat> ::
      IsReadableWalk(disk, g, rootEnd, fat, walk) && walk[0] == first && !HasEntry(fat, walk[|walk| - 1])
  }

  /** The loop can follow no walk but the beginnings of its run. */
  lemma {:induction false} ReadableWalkIsPrefix(
    disk: seq<byte>, g: BootSector, rootEnd: nat, fat: seq<byte>, first: nat, run: seq<nat>, walk: seq<nat>, n: nat)
    requires IsRun(disk, g, rootEnd, fat, first, run)
    requires IsReadableWalk(disk, g, rootEnd, fat, walk) && walk[0] == first && 1 <= n <= |walk|
    ensures n <= |run| && walk[..n] == run[..n]
  {
    hide ClusterReadable;
    if n > 1 {
      ReadableWalkIsPrefix(disk, g, rootEnd, fat, first, run, walk, n - 1);
      var m := n - 2;
      assert walk[m] == walk[..n - 1][m] == run[..n - 1][m] == run[m];
      assert Leads(fat, walk[m], walk[n - 1]);
      if n <= |run| {
        assert Leads(fat, run[m], run[n - 1]);
        assert walk[..n] == walk[..n - 1] + [walk[n - 1]];
        assert run[..n] == run[..n - 1] + [run[n - 1]];
      }
    }
  }

  /** When the links repeat, only a failed read stops the loop. */
  lemma RepeatStopsOnFailedRead(
    disk: seq<byte>, g: BootSector, rootEnd: nat, fat: seq<byte>, first: nat, run: seq<nat>)
    requires IsRun(disk, g, rootEnd, fat, first, run) && Repeats(fat, first)
    ensures !ClusterReadable(disk, g, rootEnd, run[|run| - 1])
  {
    hide ClusterReadable;
    if ClusterReadable(disk, g, rootEnd, run[|run| - 1]) {
      assert IsChain(fat, run);
      WalkEndsIffNoRepeat(fat, first);
    }
  }

  /** The clusters the loop visits in its first n + 1 rounds, if it gets that far. */
  ghost function Followed(
      disk: seq<byte>, g: BootSector, rootEnd: nat, fat: seq<byte>, c: nat, n: nat): (walk: seq<nat>)
    ensures IsReadableWalk(disk, g, rootEnd, fat, walk) && walk[0] == c && |walk| <= n + 1
    ensures var last := walk[|walk| - 1];
      |walk| == n + 1 || !HasEntry(fat, last) || Ends(fat, last) || !ClusterReadable(disk, g, rootEnd, last)
    decreases n
  {
    hide ClusterReadable;
    if n == 0 || !HasEntry(fat, c) || Entry(fat, c) >= END_OF_CHAIN || !ClusterReadable(disk, g, rootEnd, c) then [c]
    else [c] + Followed(disk, g, rootEnd, fat, Entry(fat, c), n - 1)
  }

  /** Exactly when the loop ends without leaving the FAT: when it neither comes back to a
      cluster nor comes to one outside. */
  lemma LoopEndsIff(disk: seq<byte>, g: BootSector, rootEnd: nat, fat: seq<byte>, first: nat)
    ensures (exists run: seq<nat> :: IsRun(disk, g, rootEnd, fat, first, run))
       <==> !Circles(disk, g, rootEnd, fat, first) && !Strays(disk, g, rootEnd, fat, first)
  {
    hide ClusterReadable;
    if run: seq<nat> :| IsRun(disk, g, rootEnd, fat, first, run) {
      forall walk: seq<nat> | IsReadableWalk(disk, g, rootEnd, fat, walk) && walk[0] == first
        ensures Distinct(walk) && HasEntry(fat, walk[|walk| - 1])
      {
        WalkStaysOnRun(disk, g, rootEnd, fat, first, run, walk);
      }
    }
    if !Circles(disk, g, rootEnd, fat, first) && !Strays(disk, g, rootEnd, fat, first) {
      var walk := Followed(disk, g, rootEnd, fat, first, |fat|);
      assert Distinct(walk) && HasEntry(fat, walk[|walk| - 1]);
      WalkIsShort(fat, walk);
      FollowedIsRun(disk, g, rootEnd, fat, first, walk);
    }
  }

  lemma FollowedIsRun(disk: seq<byte>, g: BootSector, rootEnd: nat, fat: seq<byte>, first: nat, walk: seq<nat>)
    requires IsReadableWalk(disk, g, rootEnd, fat, walk) && walk[0] == first && HasEntry(fat, walk[|walk| - 1])
    requires Ends(fat, walk[|walk| - 1]) || !ClusterReadable(disk, g, rootEnd, walk[|walk| - 1])
    ensures IsRun(disk, g, rootEnd, fat, first, walk)
  {
    hide ClusterReadable;
    forall i | 0 <= i < |walk|
      ensures HasEntry(fat, walk[i])
    {
      if i + 1 < |walk| {
        assert Leads(fat, walk[i], walk[i + 1]);
      }
    }
  }

  lemma WalkStaysOnRun(
    disk: seq<byte>, g: BootSector, rootEnd: nat, fat: seq<byte>, first: nat, run: seq<nat>, walk: seq<nat>)
    requires IsRun(disk, g, rootEnd, fat, first, run)
    requires IsReadableWalk(disk, g, rootEnd, fat, walk) && walk[0] == first
    ensures |walk| <= |run| && Distinct(walk) && HasEntry(fat, walk[|walk| - 1])
  {
    hide ClusterReadable;
    RunIsShort(disk, g, rootEnd, fat, first, run);
    ReadableWalkIsPrefix(disk, g, rootEnd, fat, first, run, walk, |walk|);
    assert walk == run[..|walk|];
  }

  /** A file that the disk holds has its chain as its only run. */
  lemma ChainIsRun(disk: seq<byte>, g: BootSector, f: File, run: seq<nat>)
    requires WellFormed(disk, g) && Holds(disk, g, f)
    ensures IsRun(disk, g, RootEnd(g), FatBytes(disk, g), f.chain[0], f.chain)
    ensures IsRun(disk, g, RootEnd(g), FatBytes(disk, g), f.chain[0], run) ==> run == f.chain
  {
    var fat := FatBytes(disk, g);
    forall i | 0 <= i < |f.chain|
      ensures HasEntry(fat, f.chain[i]) && ClusterReadable(disk, g, RootEnd(g), f.chain[i])
    {
      assert ChunkAt(disk, g, f, i);
      if i + 1 < |f.chain| {
        assert Leads(fat, f.chain[i], f.chain[i + 1]);
      }
    }
    if IsRun(disk, g, RootEnd(g), fat, f.chain[0], run) {
      RunsAgree(disk, g, RootEnd(g), fat, f.chain[0], run, f.chain, |run|);
      RunsAgree(disk, g, RootEnd(g), fat, f.chain[0], f.chain, run, |f.chain|);
      assert run == run[..|run|] == f.chain[..|f.chain|] == f.chain;
    }
  }

  /** What the program finds for a file that the disk holds. */
  lemma HeldFileIsFound(disk: seq<byte>, g: BootSector, f: File, name: seq<byte>)
    requires WellFormed(disk, g) && Holds(disk, g, f)
    requires |name| >= NAME_SIZE && f.name == name[..NAME_SIZE]
    ensures FatLoads(disk, g) && RootLoads(disk, g)
    ensures FoundSlot(disk, g, name).Some?
    ensures FoundEntry(disk, g, name) == DirectoryEntry(f.name, f.chain[0], |f.content|)
  {
    RegionsAreReadable(disk, g);
    var root := RootBytes(disk, g);
    var i: nat :| i < g.dirEntryCount && DirectorySlot(root, f, i);
    assert IsLookup(root, g.dirEntryCount, name, Some(i));
    LookupIsUnique(root, g.dirEntryCount, name, Some(i), Lookup(root, g.dirEntryCount, name));
  }

  /** Everything main does is defined: the numbers are Supported, and the walk over
      the file found, if one is, fits. */
  ghost predicate Defined(disk: seq<byte>, name: seq<byte>, run: seq<nat>)
    requires |name| >= NAME_SIZE
  {
    |disk| >= BOOT_SECTOR_SIZE ==>
      var g := ParseBootSector(disk);
      && Supported(g)
      && (FatLoads(disk, g) && RootLoads(disk, g) && FoundSlot(disk, g, name).Some? ==>
            RunFits(disk, g, FoundEntry(disk, g, name), run))
  }

  /** The loop neither circles nor strays, and has room for every cluster on the way. */
  ghost predicate WalksFit(disk: seq<byte>, g: BootSector, entry: DirectoryEntry)
    requires g.bytesPerSector > 0
  {
    var rootEnd, fat, first := RootEnd(g), FatBytes(disk, g), entry.firstClusterLow;
    && !Circles(disk, g, rootEnd, fat, first) && !Strays(disk, g, rootEnd, fat, first)
    && entry.size <= BufferSize(entry, g)
    && forall walk: seq<nat> :: IsReadableWalk(disk, g, rootEnd, fat, walk) && walk[0] == first ==>
         |walk| * ClusterSize(g) <= BufferSize(entry, g)
  }

  lemma RunFitsIff(disk: seq<byte>, g: BootSector, entry: DirectoryEntry)
    requires g.bytesPerSector > 0
    ensures (exists run: seq<nat> :: RunFits(disk, g, entry, run)) <==> WalksFit(disk, g, entry)
  {
    hide ClusterReadable, RootEnd, FatBytes, BufferSize, ClusterSize, Circles, Strays;
    var rootEnd, fat, first := RootEnd(g), FatBytes(disk, g), entry.firstClusterLow as nat;
    LoopEndsIff(disk, g, rootEnd, fat, first);
    if run: seq<nat> :| RunFits(disk, g, entry, run) {
      forall walk: seq<nat> | IsReadableWalk(disk, g, rootEnd, fat, walk) && walk[0] == first
        ensures |walk| * ClusterSize(g) <= BufferSize(entry, g)
      {
        WalkStaysOnRun(disk, g, rootEnd, fat, first, run, walk);
        MulMonotone(|walk|, |run|, ClusterSize(g));
      }
    }
    if WalksFit(disk, g, entry) {
      var run: seq<nat> :| IsRun(disk, g, rootEnd, fat, first, run);
      assert IsReadableWalk(disk, g, rootEnd, fat, run) && run[0] == first;
      assert |run| * ClusterSize(g) <= BufferSize(entry, g);
      assert RunFits(disk, g, entry, run);
    }
  }

  /** Exactly when the program has an outcome: the sizes can be computed, and the walk over
      the file found, if one is, ends inside the FAT and inside the buffer. */
  lemma OutcomeIff(disk: seq<byte>, name: seq<byte>)
    requires |name| >= NAME_SIZE
    ensures (exists run: seq<nat> :: Defined(disk, name, run)) <==>
      (|disk| >= BOOT_SECTOR_SIZE ==>
        var g := ParseBootSector(disk);
        && Supported(g)
        && (FatLoads(disk, g) && RootLoads(disk, g) && FoundSlot(disk, g, name).Some? ==>
              WalksFit(disk, g, FoundEntry(disk, g, name))))
  {
    hide RunFits, WalksFit, FatLoads, RootLoads, ParseBootSector, FoundSlot, FoundEntry;
    if |disk| >= BOOT_SECTOR_SIZE {
      var g := ParseBootSector(disk);
      if Supported(g) && FatLoads(disk, g) && RootLoads(disk, g) && FoundSlot(disk, g, name).Some? {
        RunFitsIff(disk, g, FoundEntry(disk, g, name));
        if run: seq<nat> :| RunFits(disk, g, FoundEntry(disk, g, name), run) {
          assert Defined(disk, name, run);
        }
      } else {
        assert Defined(disk, name, []) <==> Supported(g);
      }
    } else {
      assert Defined(disk, name, []);
    }
  }

  /** Links that go round between clusters 2 and 3, of which the image has only the first:
      the loop stops on the failed read. */
  lemma FailedReadStopsCycle()
    ensures var g, disk, fat := BootSector(64, 1, 1, 1, 2, 1), Zeros(256), Pack([0, 0, 3, 2]);
      Repeats(fat, 2) && IsRun(disk, g, 3, fat, 2, [2, 3])
  {
    var g, disk, fat := BootSector(64, 1, 1, 1, 2, 1), Zeros(256), Pack([0, 0, 3, 2]);
    CycleHasNoChain();
    LastClusterIsMissing(disk, g);
    hide ClusterReadable, Pack, Repeats, HasChain, Zeros;
    CycleIsRun(disk, g, fat);
  }

  lemma CycleIsRun(disk: seq<byte>, g: BootSector, fat: seq<byte>)
    requires Leads(fat, 2, 3) && Leads(fat, 3, 2)
    requires ClusterReadable(disk, g, 3, 2) && !ClusterReadable(disk, g, 3, 3)
    ensures IsRun(disk, g, 3, fat, 2, [2, 3])
  {
    hide ClusterReadable, Entry;
    var run: seq<nat> := [2, 3];
    assert run[|run| - 1] == 3;
  }

  lemma LastClusterIsMissing(disk: seq<byte>, g: BootSector)
    requires |disk| == 256 && g == BootSector(64, 1, 1, 1, 2, 1)
    ensures ClusterReadable(disk, g, 3, 2) && !ClusterReadable(disk, g, 3, 3)
  {
    assert ClusterLba(g, 3, 2) == 3 && ClusterLba(g, 3, 3) == 4;
    assert |Available(disk, 192, 64)| == 64 && |Available(disk, 256, 64)| == 0;
  }

  ghost predicate MainResult(disk: seq<byte>, name: seq<byte>, run: seq<nat>, r: Outcome)
    requires |name| >= NAME_SIZE && Defined(disk, name, run)
  {
    if |disk| < BOOT_SECTOR_SIZE then r == Failed(CANNOT_READ_BOOT_SECTOR)
    else
      var g := ParseBootSector(disk);
      if !FatLoads(disk, g) then r == Failed(CANNOT_READ_FAT)
      else if !RootLoads(disk, g) then r == Failed(CANNOT_READ_ROOT)
      else if FoundSlot(disk, g, name).None? then r == Failed(NO_SUCH_FILE)
      else Delivers(disk, g, FoundEntry(disk, g, name), run, r)
  }

  /** For a file that the disk holds, everything is defined exactly when the buffer
      has room for the file's clusters. */
  lemma HeldFileNeedsRoom(disk: seq<byte>, g: BootSector, f: File, name: seq<byte>, run: seq<nat>)
    requires WellFormed(disk, g) && Holds(disk, g, f)
    requires |name| >= NAME_SIZE && f.name == name[..NAME_SIZE]
    ensures Defined(disk, name, run) <==>
      && run == f.chain
      && |f.chain| * ClusterSize(g) <= Wrap32(|f.content| + g.bytesPerSector)
      && |f.content| <= Wrap32(|f.content| + g.bytesPerSector)
  {
    hide *;
    HeldFileIsFound(disk, g, f, name);
    ChainIsRun(disk, g, f, run);
    DefinedMeans(disk, g, f, name, run);
  }

  lemma DefinedMeans(disk: seq<byte>, g: BootSector, f: File, name: seq<byte>, run: seq<nat>)
    requires WellFormed(disk, g) && |name| >= NAME_SIZE && FatLoads(disk, g) && RootLoads(disk, g)
    requires FoundSlot(disk, g, name).Some? && |f.chain| > 0 && f.chain[0] < 0x1_0000 && |f.content| < 0x1_0000_0000
    requires FoundEntry(disk, g, name) == DirectoryEntry(f.name, f.chain[0], |f.content|)
    ensures Defined(disk, name, run) <==>
      && IsRun(disk, g, RootEnd(g), FatBytes(disk, g), f.chain[0], run)
      && |run| * ClusterSize(g) <= Wrap32(|f.content| + g.bytesPerSector)
      && |f.content| <= Wrap32(|f.content| + g.bytesPerSector)
  {
    hide ParseBootSector, IsRun, RootEnd, FoundSlot, FoundEntry, FatBytes, FatLoads, RootLoads, ClusterSize;
  }

  /** End to end: what main delivers for a file that the disk holds is its content. */
  lemma HeldFileIsDelivered(disk: seq<byte>, g: BootSector, f: File, name: seq<byte>, run: seq<nat>, r: Outcome)
    requires WellFormed(disk, g) && Holds(disk, g, f)
    requires |name| >= NAME_SIZE && f.name == name[..NAME_SIZE]
    requires Defined(disk, name, run) && MainResult(disk, name, run, r)
    ensures r == Extracted(f.content)
  {
    HeldFileNeedsRoom(disk, g, f, name, run);
    HeldFileIsFound(disk, g, f, name);
    ChainDeliversContent(disk, g, f);
    assert ChunkAt(disk, g, f, |f.chain| - 1);
    hide Readable, SectorBytes, ParseBootSector, ClusterReadable, IsRun, Holds, WellFormed, FoundSlot;
    assert r.data == f.content;
  }

  /** Each failure has its number: -2 without a boot sector, -3 without the whole FAT, -4
      without the whole root directory, -5 without the file or one of its clusters. */
  lemma FailureCodes(disk: seq<byte>, name: seq<byte>, run: seq<nat>, r: Outcome)
    requires |name| >= NAME_SIZE && Defined(disk, name, run) && MainResult(disk, name, run, r)
    ensures r == Failed(-2) <==> |disk| < 62
    ensures |disk| >= 62 ==>
      var g := ParseBootSector(disk);
      && (r == Failed(-3) <==> !Readable(disk, g, g.reservedSectors, g.sectorsPerFat))
      && (r == Failed(-4) <==> FatLoads(disk, g) && !Readable(disk, g, RootStart(g), RootSectors(g)))
      && (r == Failed(-5) <==>
            && FatLoads(disk, g) && RootLoads(disk, g)
            && (FoundSlot(disk, g, name).None? || !ClusterReadable(disk, g, RootEnd(g), run[|run| - 1])))
  {
    hide Readable, ParseBootSector, RootStart, RootSectors, FoundSlot, FoundEntry, ClusterReadable, RunFits, WalkBytes;
    RunIsNotEmpty(disk, name, run);
  }

  lemma RunIsNotEmpty(disk: seq<byte>, name: seq<byte>, run: seq<nat>)
    requires |name| >= NAME_SIZE && Defined(disk, name, run)
    ensures |disk| >= BOOT_SECTOR_SIZE ==>
      var g := ParseBootSector(disk);
      FatLoads(disk, g) && RootLoads(disk, g) && FoundSlot(disk, g, name).Some? ==> |run| > 0
  {
    hide ParseBootSector, FoundSlot, FoundEntry, FatLoads, RootLoads;
  }

  class Reader {
    var bootSector: BootSector
    var fat: array<byte>
    var rootDirectory: array<byte>
    var rootDirectoryEnd: nat

    constructor ()
    {
      bootSector := BootSector(0, 0, 0, 0, 0, 0);
      fat := new byte[0];
      rootDirectory := new byte[0];
      rootDirectoryEnd := 0;
    }

    method ReadBootSector(disk: seq<byte>) returns (ok: bool)
      modifies `bootSector
      ensures ok <==> |disk| >= BOOT_SECTOR_SIZE
      ensures ok ==> bootSector == ParseBootSector(disk)
    {
      ok := |disk| >= BOOT_SECTOR_SIZE;
      if ok {
        bootSector := ParseBootSector(disk);
      }
    }

    /** Seeks and reads; what arrives is in the buffer even when the read is short. */
    method ReadSectors(disk: seq<byte>, lba: nat, count: nat, out: array<byte>, o: nat) returns (ok: bool)
      requires o + count * bootSector.bytesPerSector <= out.Length
      modifies out
      ensures ok <==> Readable(disk, bootSector, lba, count)
      ensures |SectorBytes(disk, bootSector, lba, count)| <= count * bootSector.bytesPerSector
      ensures out[..] == Overwrite(old(out[..]), o, SectorBytes(disk, bootSector, lba, count))
    {
      var got := Available(disk, Wrap32(lba * bootSector.bytesPerSector), count * bootSector.bytesPerSector);
      forall i | 0 <= i < |got| {
        out[o + i] := got[i];
      }
      ok := |got| == count * bootSector.bytesPerSector && (bootSector.bytesPerSector > 0 || count == 0);
    }

    method ReadFat(disk: seq<byte>) returns (ok: bool)
      requires bootSector.sectorsPerFat as int * bootSector.bytesPerSector as int < 0x8000_0000
      modifies `fat
      ensures fresh(fat)
      ensures ok <==> Readable(disk, bootSector, bootSector.reservedSectors, bootSector.sectorsPerFat)
      ensures ok ==> fat[..] == FatBytes(disk, bootSector)
    {
      fat := new byte[bootSector.sectorsPerFat as int * bootSector.bytesPerSector as int];
      ok := ReadSectors(disk, bootSector.reservedSectors, bootSector.sectorsPerFat, fat, 0);
    }

    /** Where the root directory starts and how many sectors it takes, rounded up. */
    method RootExtent() returns (lba: nat, sectors: nat)
      requires bootSector.bytesPerSector > 0
      ensures lba == RootStart(bootSector) && sectors == RootSectors(bootSector)
    {
      lba := bootSector.reservedSectors + bootSector.sectorsPerFat as int * bootSector.fatCount as int;
      var size: nat := ENTRY_SIZE * bootSector.dirEntryCount;
      sectors := size / bootSector.bytesPerSector;
      if size % bootSector.bytesPerSector > 0 {
        sectors := sectors + 1;
      }
    }

    method ReadRootDirectory(disk: seq<byte>) returns (ok: bool)
      requires bootSector.bytesPerSector > 0
      modifies `rootDirectory, `rootDirectoryEnd
      ensures fresh(rootDirectory)
      ensures rootDirectoryEnd == RootEnd(bootSector)
      ensures ok <==> Readable(disk, bootSector, RootStart(bootSector), RootSectors(bootSector))
      ensures ok ==> rootDirectory[..] == RootBytes(disk, bootSector)
    {
      hide RootStart, RootSectors;
      var lba, sectors := RootExtent();
      rootDirectoryEnd := lba + sectors;
      rootDirectory := new byte[sectors * bootSector.bytesPerSector];
      ok := ReadSectors(disk, lba, sectors, rootDirectory, 0);
    }

    /** The first slot with this name, or nothing when no slot has it. */
    method FindFile(name: seq<byte>) returns (slot: Option<nat>)
      requires |name| >= NAME_SIZE
      requires ENTRY_SIZE * bootSector.dirEntryCount <= rootDirectory.Length
      ensures IsLookup(rootDirectory[..], bootSector.dirEntryCount, name, slot)
    {
      var i := 0;
      while i < bootSector.dirEntryCount
        invariant 0 <= i <= bootSector.dirEntryCount
        invariant forall k :: 0 <= k < i ==> ParseEntry(rootDirectory[..], k).name != name[..NAME_SIZE]
      {
        if ParseEntry(rootDirectory[..], i).name == name[..NAME_SIZE] {
          return Some(i);
        }
        i := i + 1;
      }
      slot := None;
    }

    /** The link of a cluster: the even/odd rule at the end of the walk's loop. */
    method NextCluster(currentCluster: nat) returns (next: nat)
      requires HasEntry(fat[..], currentCluster)
      ensures next == Entry(fat[..], currentCluster)
    {
      var fatIndex := currentCluster * 3 / 2;
      var pair := fat[fatIndex] as int + 0x100 * fat[fatIndex + 1] as int;
      if currentCluster % 2 == 0 {
        next := pair % 0x1000;
      } else {
        next := pair / 0x10;
      }
    }

    /** Walks the chain, appending each cluster to the buffer. */
    method ReadFile(entry: DirectoryEntry, disk: seq<byte>, out: array<byte>, ghost run: seq<nat>) returns (ok: bool)
      requires out != fat
      requires IsRun(disk, bootSector, rootDirectoryEnd, fat[..], entry.firstClusterLow, run)
      requires |run| * ClusterSize(bootSector) <= out.Length
      modifies out
      ensures ok <==> ClusterReadable(disk, bootSector, rootDirectoryEnd, run[|run| - 1])
      ensures |WalkBytes(disk, bootSector, rootDirectoryEnd, run)| <= out.Length
      ensures out[..] == Overwrite(old(out[..]), 0, WalkBytes(disk, bootSector, rootDirectoryEnd, run))
    {
      hide Readable, SectorBytes;
      ok := true;
      var currentCluster: nat := entry.firstClusterLow;
      var output := 0;
      ghost var i, before, table := 0, out[..], fat[..];
      ghost var chunks := ClustersOf(disk, bootSector, rootDirectoryEnd, run);
      ghost var size: nat := ClusterSize(bootSector);
      while true
        invariant 0 <= i < |run| && ok && currentCluster == run[i] && fat[..] == table
        invariant |Flatten(chunks[..i])| == output == i * size <= out.Length
        invariant out[..] == Overwrite(before, 0, Flatten(chunks[..i]))
        decreases |run| - i
      {
        RoomForCluster(i, |run|, size, out.Length);
        var lba := Wrap32(rootDirectoryEnd + (currentCluster - 2) * bootSector.sectorsPerCluster);
        ok := ReadSectors(disk, lba, bootSector.sectorsPerCluster, out, output);
        FlattenOneMore(chunks, i);
        OverwriteTwice(before, Flatten(chunks[..i]), chunks[i]);
        RunStep(disk, bootSector, rootDirectoryEnd, table, entry.firstClusterLow, run, i);
        output := output + bootSector.sectorsPerCluster as int * bootSector.bytesPerSector as int;
        currentCluster := NextCluster(currentCluster);
        if !(ok && currentCluster < END_OF_CHAIN) {
          break;
        }
        i := i + 1;
      }
      assert chunks[..|run|] == chunks;
    }

    /** The whole program, as main runs it. */
    method Extract(disk: seq<byte>, name: seq<byte>, ghost run: seq<nat>) returns (r: Outcome)
      requires |name| >= NAME_SIZE
      requires Defined(disk, name, run)
      modifies this
      ensures MainResult(disk, name, run, r)
    {
      hide Readable, SectorBytes, ClusterReadable, WalkBytes, IsRun;
      var ok := ReadBootSector(disk);
      if !ok {
        return Failed(CANNOT_READ_BOOT_SECTOR);
      }
      ok := ReadFat(disk);
      if !ok {
        return Failed(CANNOT_READ_FAT);
      }
      ok := ReadRootDirectory(disk);
      if !ok {
        return Failed(CANNOT_READ_ROOT);
      }
      RootHoldsAllSlots(disk, bootSector);
      var slot := FindFile(name);
      LookupIsUnique(rootDirectory[..], bootSector.dirEntryCount, name, slot, FoundSlot(disk, bootSector, name));
      if slot.None? {
        return Failed(NO_SUCH_FILE);
      }
      var entry := ParseEntry(rootDirectory[..], slot.value);
      var buffer := new byte[Wrap32(entry.size + bootSector.bytesPerSector)];
      ok := ReadFile(entry, disk, buffer, run);
      if !ok {
        return Failed(NO_SUCH_FILE);
      }
      r := Extracted(buffer[..entry.size]);
    }
  }

  /** The loop goes on exactly while the run does. */
  lemma RunStep(disk: seq<byte>, g: BootSector, rootEnd: nat, fat: seq<byte>, first: nat, run: seq<nat>, i: nat)
    requires IsRun(disk, g, rootEnd, fat, first, run) && i < |run|
    ensures HasEntry(fat, run[i])
    ensures ClusterReadable(disk, g, rootEnd, run[i]) ==> |ClusterBytes(disk, g, rootEnd, run[i])| == ClusterSize(g)
    ensures i + 1 < |run| ==>
      ClusterReadable(disk, g, rootEnd, run[i]) && Entry(fat, run[i]) == run[i + 1] < END_OF_CHAIN
    ensures i + 1 == |run| && ClusterReadable(disk, g, rootEnd, run[i]) ==> Entry(fat, run[i]) >= END_OF_CHAIN
  {
    if i + 1 < |run| {
      assert Leads(fat, run[i], run[i + 1]);
    }
  }

  lemma RoomForCluster(i: nat, n: nat, size: nat, length: nat)
    requires i < n && n * size <= length
    ensures (i + 1) * size == i * size + size <= length
  {
    MulMonotone(i + 1, n, size);
    MulStep(i, size);
  }
}
