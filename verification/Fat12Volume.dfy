/**
 What a FAT-12 volume is: the boot fields the reader uses, the regions they
 delimit, and what it means for a disk to hold a file.
 */
module Fat12Volume {
  import opened Bytes
  import opened Fat12Table

  const BOOT_SECTOR_SIZE := 62
  const ENTRY_SIZE := 32
  const NAME_SIZE := 11

  datatype BootSector = BootSector(
    bytesPerSector: word,
    sectorsPerCluster: byte,
    reservedSectors: word,
    fatCount: byte,
    dirEntryCount: word,
    sectorsPerFat: word
  )

  datatype DirectoryEntry = DirectoryEntry(name: seq<byte>, firstClusterLow: word, size: dword)

  function ParseBootSector(b: seq<byte>): BootSector
    requires |b| >= BOOT_SECTOR_SIZE
  {
    BootSector(U16(b, 11), b[13], U16(b, 14), b[16], U16(b, 17), U16(b, 22))
  }

  function ParseEntry(root: seq<byte>, i: nat): DirectoryEntry
    requires ENTRY_SIZE * i + ENTRY_SIZE <= |root|
  {
    var o := ENTRY_SIZE * i;
    DirectoryEntry(root[o..o + NAME_SIZE], U16(root, o + 26), U32(root, o + 28))
  }

  // ---------- the boot sector as it is laid out ----------

  /** The fields the reader does not use: the jump and the system's name in front, the total
      sectors and the medium in between, and everything behind. */
  datatype BootLabel = BootLabel(jump: seq<byte>, oem: seq<byte>, totalSectors: word, media: byte, rest: seq<byte>)

  /** The packed structure, field by field. */
  function BootBytes(g: BootSector, l: BootLabel): seq<byte> {
    l.jump + l.oem
    + Bytes16(g.bytesPerSector) + [g.sectorsPerCluster] + Bytes16(g.reservedSectors) + [g.fatCount]
    + Bytes16(g.dirEntryCount) + Bytes16(l.totalSectors) + [l.media] + Bytes16(g.sectorsPerFat)
    + l.rest
  }

  /** The reader finds every field where the structure has it. */
  lemma BootRoundTrip(g: BootSector, l: BootLabel)
    requires |l.jump| == 3 && |l.oem| == 8 && |BootBytes(g, l)| >= BOOT_SECTOR_SIZE
    ensures ParseBootSector(BootBytes(g, l)) == g
  {
    var b := BootBytes(g, l);
    var bps, reserved, entries, spf :=
      Bytes16(g.bytesPerSector), Bytes16(g.reservedSectors), Bytes16(g.dirEntryCount), Bytes16(g.sectorsPerFat);
    hide Bytes16;
    assert b[11] == bps[0] && b[12] == bps[1];
    assert b[13] == g.sectorsPerCluster && b[16] == g.fatCount;
    assert b[14] == reserved[0] && b[15] == reserved[1];
    assert b[17] == entries[0] && b[18] == entries[1];
    assert b[22] == spf[0] && b[23] == spf[1];
  }

  // ---------- geometry ----------

  function RootStart(g: BootSector): nat {
    g.reservedSectors + g.sectorsPerFat as int * g.fatCount as int
  }

  function RootSectors(g: BootSector): nat
    requires g.bytesPerSector > 0
  {
    var size := ENTRY_SIZE * g.dirEntryCount;
    size / g.bytesPerSector + if size % g.bytesPerSector > 0 then 1 else 0
  }

  function RootEnd(g: BootSector): nat
    requires g.bytesPerSector > 0
  {
    RootStart(g) + RootSectors(g)
  }

  function ClusterSize(g: BootSector): nat {
    g.sectorsPerCluster as int * g.bytesPerSector as int
  }

  /** The sector a cluster starts at, in the reader's 32-bit arithmetic. */
  function ClusterLba(g: BootSector, rootEnd: nat, c: nat): dword {
    Wrap32(rootEnd + (c - 2) * g.sectorsPerCluster)
  }

  /** The root directory ends at the first sector boundary that leaves room for
      all of it. */
  lemma RootEndIsLeast(g: BootSector, s: nat)
    requires g.bytesPerSector > 0
    ensures s >= RootEnd(g) <==>
            s >= RootStart(g) && ENTRY_SIZE * g.dirEntryCount <= (s - RootStart(g)) * g.bytesPerSector
  {
    var size, b := ENTRY_SIZE * g.dirEntryCount, g.bytesPerSector as int;
    var q, r, n := size / b, size % b, s - RootStart(g);
    assert size == q * b + r;
    if n >= 0 {
      if n <= q - 1 {
        MulMonotone(n, q - 1, b);
        assert q * b == (q - 1) * b + b;
      } else if n >= q + 1 {
        MulMonotone(q + 1, n, b);
        assert (q + 1) * b == q * b + b;
      }
    }
  }

  /** Different clusters occupy disjoint sector ranges, all behind the root
      directory. */
  lemma ClustersAreDisjoint(g: BootSector, c: nat, d: nat)
    requires g.bytesPerSector > 0 && 2 <= c < d
    ensures RootEnd(g) <= RootEnd(g) + (c - 2) * g.sectorsPerCluster
    ensures RootEnd(g) + (c - 2) * g.sectorsPerCluster + g.sectorsPerCluster
         <= RootEnd(g) + (d - 2) * g.sectorsPerCluster
  {
    var s: nat := g.sectorsPerCluster;
    MulMonotone(c - 1, d - 2, s);
    assert (c - 1) * s == (c - 2) * s + s;
  }

  // ---------- what the reader gets from the disk ----------

  /** The bytes a read of len bytes at offset o delivers: short at the end of the image. */
  function Available(disk: seq<byte>, o: nat, len: nat): (b: seq<byte>)
    ensures |b| <= len
  {
    if o >= |disk| then [] else disk[o..Min(o + len, |disk|)]
  }

  function SectorBytes(disk: seq<byte>, g: BootSector, lba: nat, count: nat): seq<byte> {
    Available(disk, Wrap32(lba * g.bytesPerSector), count * g.bytesPerSector)
  }

  predicate Readable(disk: seq<byte>, g: BootSector, lba: nat, count: nat) {
    && |SectorBytes(disk, g, lba, count)| == count * g.bytesPerSector
    && (g.bytesPerSector > 0 || count == 0)
  }

  function ClusterBytes(disk: seq<byte>, g: BootSector, rootEnd: nat, c: nat): seq<byte> {
    SectorBytes(disk, g, ClusterLba(g, rootEnd, c), g.sectorsPerCluster)
  }

  predicate ClusterReadable(disk: seq<byte>, g: BootSector, rootEnd: nat, c: nat) {
    Readable(disk, g, ClusterLba(g, rootEnd, c), g.sectorsPerCluster)
  }

  // ---------- a disk that holds files ----------

  datatype File = File(name: seq<byte>, content: seq<byte>, chain: seq<nat>)

  ghost predicate WellFormed(disk: seq<byte>, g: BootSector) {
    && BOOT_SECTOR_SIZE <= |disk| <= 0x1_0000_0000
    && g == ParseBootSector(disk)
    && g.bytesPerSector > 0 && g.sectorsPerCluster > 0 && g.fatCount > 0
    && g.sectorsPerFat as int * g.bytesPerSector as int < 0x8000_0000
    && RootEnd(g) * g.bytesPerSector <= |disk|
  }

  ghost function FatBytes(disk: seq<byte>, g: BootSector): seq<byte> {
    SectorBytes(disk, g, g.reservedSectors, g.sectorsPerFat)
  }

  ghost function RootBytes(disk: seq<byte>, g: BootSector): seq<byte>
    requires g.bytesPerSector > 0
  {
    SectorBytes(disk, g, RootStart(g), RootSectors(g))
  }

  lemma WholeRegion(disk: seq<byte>, g: BootSector, lba: nat, count: nat)
    requires g.bytesPerSector > 0 && |disk| <= 0x1_0000_0000
    requires (lba + count) * g.bytesPerSector <= |disk|
    ensures Readable(disk, g, lba, count)
    ensures lba * g.bytesPerSector + count * g.bytesPerSector <= |disk|
    ensures SectorBytes(disk, g, lba, count)
         == disk[lba * g.bytesPerSector..lba * g.bytesPerSector + count * g.bytesPerSector]
  {
    var b: nat := g.bytesPerSector;
    var o: nat, n: nat := lba * b, count * b;
    assert (lba + count) * b == o + n;
    WholeSlice(disk, o, n);
  }

  lemma WholeSlice(disk: seq<byte>, o: nat, n: nat)
    requires o + n <= |disk| <= 0x1_0000_0000
    ensures Available(disk, Wrap32(o), n) == disk[o..o + n]
  {
    if o == 0x1_0000_0000 {
      assert disk[o..o + n] == [];
      assert disk[0..0] == [];
    }
  }

  /** A read is whole exactly when its bytes, from the offset counted in 32 bits on, are all
      in the image; then it delivers them. */
  lemma ReadableIff(disk: seq<byte>, g: BootSector, lba: nat, count: nat)
    requires g.bytesPerSector > 0
    ensures var o, n := lba * g.bytesPerSector % 0x1_0000_0000, count * g.bytesPerSector;
      && (Readable(disk, g, lba, count) <==> n == 0 || o + n <= |disk|)
      && (n > 0 && o + n <= |disk| ==> SectorBytes(disk, g, lba, count) == disk[o..o + n])
  {
    if count > 0 {
      MulMonotone(1, count, g.bytesPerSector as int);
    }
  }

  /** The FAT and the root directory are read whole. */
  lemma RegionsAreReadable(disk: seq<byte>, g: BootSector)
    requires WellFormed(disk, g)
    ensures Readable(disk, g, g.reservedSectors, g.sectorsPerFat)
    ensures Readable(disk, g, RootStart(g), RootSectors(g))
    ensures ENTRY_SIZE * g.dirEntryCount <= |RootBytes(disk, g)|
  {
    RootEndIsLeast(g, RootEnd(g));
    FatPrecedesRoot(g);
    var b: nat, end: nat := g.bytesPerSector, g.reservedSectors + g.sectorsPerFat;
    MulMonotone(end, RootEnd(g), b);
    WholeRegion(disk, g, g.reservedSectors, g.sectorsPerFat);
    WholeRegion(disk, g, RootStart(g), RootSectors(g));
  }

  lemma FatPrecedesRoot(g: BootSector)
    requires g.bytesPerSector > 0 && g.fatCount > 0
    ensures g.reservedSectors + g.sectorsPerFat <= RootStart(g) <= RootEnd(g)
  {
    MulMonotone(1, g.fatCount as int, g.sectorsPerFat);
  }

  /** Slot i is the first with this name and describes the file. */
  ghost predicate DirectorySlot(root: seq<byte>, f: File, i: nat) {
    && ENTRY_SIZE * i + ENTRY_SIZE <= |root|
    && |f.chain| > 0 && f.chain[0] < 0x1_0000 && |f.content| < 0x1_0000_0000
    && ParseEntry(root, i) == DirectoryEntry(f.name, f.chain[0], |f.content|)
    && forall k :: 0 <= k < i ==> ParseEntry(root, k).name != f.name
  }

  /** The piece of a file that its i-th cluster holds. */
  function Chunk(content: seq<byte>, i: nat, size: nat): (b: seq<byte>)
    ensures |b| <= size
  {
    Available(content, i * size, size)
  }

  ghost predicate ChunkAt(disk: seq<byte>, g: BootSector, f: File, i: nat)
    requires g.bytesPerSector > 0 && i < |f.chain|
  {
    && f.chain[i] >= 2
    && ClusterReadable(disk, g, RootEnd(g), f.chain[i])
    && Chunk(f.content, i, ClusterSize(g)) <= ClusterBytes(disk, g, RootEnd(g), f.chain[i])
  }

  ghost predicate Holds(disk: seq<byte>, g: BootSector, f: File)
    requires WellFormed(disk, g)
  {
    && |f.name| == NAME_SIZE
    && 0 < |f.content| <= |f.chain| * ClusterSize(g)
    && IsChain(FatBytes(disk, g), f.chain)
    && (exists i: nat :: i < g.dirEntryCount && DirectorySlot(RootBytes(disk, g), f, i))
    && (forall i :: 0 <= i < |f.chain| ==> ChunkAt(disk, g, f, i))
  }

  // ---------- what a walk over clusters delivers ----------

  function ClustersOf(disk: seq<byte>, g: BootSector, rootEnd: nat, walk: seq<nat>): (chunks: seq<seq<byte>>)
    ensures |chunks| == |walk|
  {
    seq(|walk|, i requires 0 <= i < |walk| => ClusterBytes(disk, g, rootEnd, walk[i]))
  }

  function WalkBytes(disk: seq<byte>, g: BootSector, rootEnd: nat, walk: seq<nat>): seq<byte> {
    Flatten(ClustersOf(disk, g, rootEnd, walk))
  }

  /** Equal-sized chunks that start with the pieces of a text spell the text, then
      slack. */
  lemma {:induction false} FlattenSpells(chunks: seq<seq<byte>>, size: nat, content: seq<byte>)
    requires forall i :: 0 <= i < |chunks| ==>
      |chunks[i]| == size && Chunk(content, i, size) <= chunks[i]
    ensures |Flatten(chunks)| == |chunks| * size
    ensures forall k :: 0 <= k < |chunks| * size && k < |content| ==> Flatten(chunks)[k] == content[k]
  {
    FlattenLength(chunks, size);
    if chunks != [] {
      var n := |chunks| - 1;
      FlattenSpells(chunks[..n], size, content);
      MulStep(n, size);
      var before, chunk := Flatten(chunks[..n]), Chunk(content, n, size);
      forall k | 0 <= k < |chunks| * size && k < |content|
        ensures Flatten(chunks)[k] == content[k]
      {
        if k >= n * size {
          assert chunk[k - n * size] == chunks[n][k - n * size];
        }
      }
    }
  }

  /** A file's chain delivers its content. */
  lemma ChainDeliversContent(disk: seq<byte>, g: BootSector, f: File)
    requires WellFormed(disk, g) && Holds(disk, g, f)
    ensures var got := WalkBytes(disk, g, RootEnd(g), f.chain);
      |got| == |f.chain| * ClusterSize(g) && f.content <= got
  {
    var chunks := ClustersOf(disk, g, RootEnd(g), f.chain);
    forall i | 0 <= i < |chunks|
      ensures |chunks[i]| == ClusterSize(g)
      ensures Chunk(f.content, i, ClusterSize(g)) <= chunks[i]
    {
      assert ChunkAt(disk, g, f, i);
    }
    FlattenSpells(chunks, ClusterSize(g), f.content);
  }

  /** When the buffer of Size + BytesPerSector bytes has room for every cluster the
      loop writes: always with one sector per cluster; otherwise exactly when the
      last cluster's slack is at most one sector. */
  lemma BufferHoldsChain(g: BootSector, size: nat, clusters: nat)
    requires ClusterSize(g) > 0 && size > 0
    requires (clusters - 1) * ClusterSize(g) < size <= clusters * ClusterSize(g)
    ensures clusters * ClusterSize(g) <= size + g.bytesPerSector
       <==> size % ClusterSize(g) == 0 || ClusterSize(g) - size % ClusterSize(g) <= g.bytesPerSector
    ensures g.sectorsPerCluster == 1 ==> clusters * ClusterSize(g) <= size + g.bytesPerSector
  {
    var c := ClusterSize(g);
    var q, r := size / c, size % c;
    assert size == q * c + r;
    assert (clusters - 1) * c == clusters * c - c;
    MulStep(q - 1, c);
    if clusters <= q - 1 {
      MulMonotone(clusters, q - 1, c);
    } else if clusters >= q + 2 {
      MulMonotone(q + 1, clusters - 1, c);
      MulStep(q, c);
    } else if clusters == q + 1 {
      assert clusters * c == q * c + c;
    }
  }
}
