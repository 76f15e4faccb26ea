/**
 A formatter for FAT-12 volumes: any files, in any clusters, in any order. What it
 writes is what the reader's end-to-end theorem asks of a disk.
 */
module Fat12Format {
  import opened Bytes
  import opened Fat12Table
  import opened Fat12Volume
  import opened Fat12Reader

  /** The boot fields, links already in the FAT, the link that marks the end of a file, the
      files, and what the data clusters held before. */
  datatype Volume = Volume(
    geometry: BootSector,
    head: BootLabel,
    table: seq<link>,
    endMark: link,
    files: seq<File>,
    blocks: seq<seq<byte>>
  )

  /** The reserved sectors. */
  function BootOf(v: Volume): seq<byte> {
    BootBytes(v.geometry, v.head)
  }

  ghost predicate GeometryFits(v: Volume) {
    var g := v.geometry;
    && |v.head.jump| == 3 && |v.head.oem| == 8
    && g.bytesPerSector > 0 && g.sectorsPerCluster > 0 && g.fatCount > 0
    && BOOT_SECTOR_SIZE <= |BootOf(v)| == g.reservedSectors as int * g.bytesPerSector as int
    && |Pack(v.table)| <= g.sectorsPerFat as int * g.bytesPerSector as int < 0x8000_0000
    && v.endMark >= 0xFF8
    && |v.files| <= g.dirEntryCount
    && (forall b :: 0 <= b < |v.blocks| ==> |v.blocks[b]| == ClusterSize(g))
    && RootEnd(g) * g.bytesPerSector + |v.blocks| * ClusterSize(g) <= 0x1_0000_0000
  }

  ghost predicate FileFits(v: Volume, f: File)
    requires GeometryFits(v)
  {
    && |f.name| == NAME_SIZE
    && 0 < |f.content| < 0x1_0000_0000 && |f.chain| > 0
    && (|f.chain| - 1) * ClusterSize(v.geometry) < |f.content| <= |f.chain| * ClusterSize(v.geometry)
    && Distinct(f.chain)
    && forall i :: 0 <= i < |f.chain| ==> ClusterFits(v, f.chain[i])
  }

  ghost predicate ClusterFits(v: Volume, c: nat) {
    2 <= c < 0xFF8 && c < |v.table| && c - 2 < |v.blocks|
  }

  ghost predicate Apart(f: File, h: File) {
    f.name != h.name && forall c :: c in f.chain ==> c !in h.chain
  }

  ghost predicate FilesFit(v: Volume, files: seq<File>)
    requires GeometryFits(v)
  {
    && (forall j :: 0 <= j < |files| ==> FileFits(v, files[j]))
    && (forall j, k :: 0 <= j < k < |files| ==> Apart(files[j], files[k]))
  }

  ghost predicate Formattable(v: Volume) {
    GeometryFits(v) && FilesFit(v, v.files)
  }

  // ---------- the FAT ----------

  ghost predicate InFat(fat: seq<byte>, chain: seq<nat>) {
    forall i :: 0 <= i < |chain| ==> HasEntry(fat, chain[i]) && chain[i] < END_OF_CHAIN
  }

  ghost function LinkChain(fat: seq<byte>, chain: seq<nat>, end: link): (r: seq<byte>)
    requires InFat(fat, chain)
    ensures |r| == |fat|
  {
    if chain == [] then fat
    else
      assert HasEntry(fat, chain[0]);
      Store(LinkChain(fat, chain[1..], end), chain[0], if |chain| == 1 then end else chain[1])
  }

  lemma {:induction false} LinkedChain(fat: seq<byte>, chain: seq<nat>, end: link)
    requires InFat(fat, chain) && Distinct(chain) && end >= END_OF_CHAIN
    ensures chain != [] ==> IsChain(LinkChain(fat, chain, end), chain)
    ensures forall d :: HasEntry(fat, d) && d !in chain ==> Entry(LinkChain(fat, chain, end), d) == Entry(fat, d)
  {
    if chain != [] {
      var rest, r := LinkChain(fat, chain[1..], end), LinkChain(fat, chain, end);
      var link: link := if |chain| == 1 then end else chain[1];
      LinkedChain(fat, chain[1..], end);
      assert r == Store(rest, chain[0], link) && HasEntry(rest, chain[0]);
      OnlyOneLink(rest, r, chain[0], link);
      hide Entry, Store, LinkChain, InFat;
      assert IsWholeChain(rest, chain[1..]);
      FirstLinked(rest, r, chain, link);
      forall d | HasEntry(fat, d) && d !in chain
        ensures Entry(r, d) == Entry(fat, d)
      {
        assert d !in chain[1..] && d != chain[0];
      }
    }
  }

  ghost predicate IsWholeChain(fat: seq<byte>, chain: seq<nat>) {
    chain != [] ==> IsChain(fat, chain)
  }

  lemma OnlyOneLink(rest: seq<byte>, r: seq<byte>, c: nat, link: link)
    requires HasEntry(rest, c) && r == Store(rest, c, link)
    ensures forall d :: HasEntry(rest, d) ==> HasEntry(r, d) && Entry(r, d) == if d == c then link else Entry(rest, d)
  {
    forall d | HasEntry(rest, d)
      ensures Entry(Store(rest, c, link), d) == if d == c then link else Entry(rest, d)
    {
      StoreChangesOneLink(rest, c, link, d);
    }
    hide Entry, Store;
  }

  /** A link in front of a whole chain makes a whole chain. */
  lemma FirstLinked(rest: seq<byte>, r: seq<byte>, chain: seq<nat>, link: link)
    requires |r| == |rest| && Distinct(chain) && chain != [] && IsWholeChain(rest, chain[1..])
    requires HasEntry(rest, chain[0]) && Entry(r, chain[0]) == link
    requires if |chain| == 1 then link >= END_OF_CHAIN else link == chain[1] < END_OF_CHAIN
    requires forall d :: HasEntry(rest, d) && d != chain[0] ==> HasEntry(r, d) && Entry(r, d) == Entry(rest, d)
    ensures IsChain(r, chain)
  {
    hide Entry;
    forall i, j | 0 <= i < |chain| - 1 && j == i + 1
      ensures Leads(r, chain[i], chain[j])
    {
      if i > 0 {
        assert Leads(rest, chain[1..][i - 1], chain[1..][i]);
      }
    }
    if |chain| > 1 {
      assert Ends(rest, chain[1..][|chain| - 2]);
    }
  }

  ghost predicate AllInFat(fat: seq<byte>, files: seq<File>) {
    forall j :: 0 <= j < |files| ==> InFat(fat, files[j].chain)
  }

  ghost predicate AllApart(files: seq<File>) {
    && (forall j :: 0 <= j < |files| ==> |files[j].chain| > 0 && Distinct(files[j].chain))
    && (forall j, k :: 0 <= j < k < |files| ==> Apart(files[j], files[k]))
  }

  ghost function LinkAll(fat: seq<byte>, files: seq<File>, end: link): (r: seq<byte>)
    requires AllInFat(fat, files)
    ensures |r| == |fat|
  {
    if files == [] then fat
    else
      assert InFat(fat, files[0].chain);
      LinkChain(LinkAll(fat, files[1..], end), files[0].chain, end)
  }

  /** However the chains interleave, each is whole, and no other link changes. */
  lemma {:induction false} LinkedFiles(fat: seq<byte>, files: seq<File>, end: link)
    requires AllInFat(fat, files) && AllApart(files) && end >= END_OF_CHAIN
    ensures forall j :: 0 <= j < |files| ==> IsChain(LinkAll(fat, files, end), files[j].chain)
    ensures forall d :: HasEntry(fat, d) && (forall j :: 0 <= j < |files| ==> d !in files[j].chain) ==>
      Entry(LinkAll(fat, files, end), d) == Entry(fat, d)
  {
    if files != [] {
      var rest := LinkAll(fat, files[1..], end);
      LinkedFiles(fat, files[1..], end);
      assert InFat(fat, files[0].chain);
      LinkedChain(rest, files[0].chain, end);
      var r := LinkAll(fat, files, end);
      hide Entry, LinkAll, LinkChain;
      forall j | 0 <= j < |files|
        ensures IsChain(r, files[j].chain)
      {
        if j > 0 {
          assert Apart(files[0], files[j]);
          assert IsChain(rest, files[1..][j - 1].chain);
          SameLinks(rest, r, files[j].chain);
        }
      }
    }
  }

  lemma SameLinks(fat: seq<byte>, r: seq<byte>, chain: seq<nat>)
    requires IsChain(fat, chain) && |r| == |fat|
    requires forall c :: c in chain && HasEntry(fat, c) ==> Entry(r, c) == Entry(fat, c)
    ensures IsChain(r, chain)
  {
    forall i, j | 0 <= i < |chain| - 1 && j == i + 1
      ensures Leads(r, chain[i], chain[j])
    {
      assert Leads(fat, chain[i], chain[j]);
    }
  }

  // ---------- the data clusters ----------

  ghost predicate AllOfSize(blocks: seq<seq<byte>>, size: nat) {
    forall b :: 0 <= b < |blocks| ==> |blocks[b]| == size
  }

  /** The pieces of a file, one for each cluster of its chain. */
  ghost function Pieces(f: File, size: nat): (pieces: seq<seq<byte>>)
    ensures |pieces| == |f.chain|
    ensures forall i :: 0 <= i < |pieces| ==> |pieces[i]| <= size && pieces[i] == Chunk(f.content, i, size)
  {
    seq(|f.chain|, i requires 0 <= i => Chunk(f.content, i, size))
  }

  ghost predicate InBlocks(blocks: seq<seq<byte>>, chain: seq<nat>) {
    forall i :: 0 <= i < |chain| ==> 2 <= chain[i] < |blocks| + 2
  }

  ghost function PlaceFile(
      blocks: seq<seq<byte>>, pieces: seq<seq<byte>>, chain: seq<nat>, size: nat): (r: seq<seq<byte>>)
    requires |pieces| == |chain| && InBlocks(blocks, chain)
    requires AllOfSize(blocks, size) && forall i :: 0 <= i < |pieces| ==> |pieces[i]| <= size
    ensures |r| == |blocks| && AllOfSize(r, size)
  {
    if chain == [] then blocks
    else
      var r, b := PlaceFile(blocks, pieces[1..], chain[1..], size), chain[0] - 2;
      r[b := Overwrite(r[b], 0, pieces[0])]
  }

  lemma {:induction false} PlacedFile(blocks: seq<seq<byte>>, pieces: seq<seq<byte>>, chain: seq<nat>, size: nat)
    requires |pieces| == |chain| && InBlocks(blocks, chain) && Distinct(chain)
    requires AllOfSize(blocks, size) && forall i :: 0 <= i < |pieces| ==> |pieces[i]| <= size
    ensures var r := PlaceFile(blocks, pieces, chain, size);
      && (forall i :: 0 <= i < |chain| ==> pieces[i] <= r[chain[i] - 2])
      && (forall b :: 0 <= b < |r| && b + 2 !in chain ==> r[b] == blocks[b])
  {
    if chain != [] {
      PlacedFile(blocks, pieces[1..], chain[1..], size);
      var r, rest := PlaceFile(blocks, pieces, chain, size), PlaceFile(blocks, pieces[1..], chain[1..], size);
      forall i | 0 <= i < |chain|
        ensures pieces[i] <= r[chain[i] - 2]
      {
        if i > 0 {
          assert pieces[1..][i - 1] <= rest[chain[1..][i - 1] - 2];
        }
      }
    }
  }

  ghost predicate AllInBlocks(blocks: seq<seq<byte>>, files: seq<File>) {
    forall j :: 0 <= j < |files| ==> InBlocks(blocks, files[j].chain)
  }

  ghost function PlaceAll(blocks: seq<seq<byte>>, files: seq<File>, size: nat): (r: seq<seq<byte>>)
    requires AllOfSize(blocks, size) && AllInBlocks(blocks, files)
    ensures |r| == |blocks| && AllOfSize(r, size)
  {
    if files == [] then blocks
    else
      assert InBlocks(blocks, files[0].chain);
      PlaceFile(PlaceAll(blocks, files[1..], size), Pieces(files[0], size), files[0].chain, size)
  }

  ghost predicate Placed(blocks: seq<seq<byte>>, f: File, size: nat)
    requires InBlocks(blocks, f.chain)
  {
    forall i :: 0 <= i < |f.chain| ==> Chunk(f.content, i, size) <= blocks[f.chain[i] - 2]
  }

  lemma {:induction false} PlacedFiles(blocks: seq<seq<byte>>, files: seq<File>, size: nat)
    requires AllOfSize(blocks, size) && AllInBlocks(blocks, files) && AllApart(files)
    ensures forall j :: 0 <= j < |files| ==>
      InBlocks(blocks, files[j].chain) && Placed(PlaceAll(blocks, files, size), files[j], size)
  {
    if files != [] {
      var rest := PlaceAll(blocks, files[1..], size);
      PlacedFiles(blocks, files[1..], size);
      assert InBlocks(blocks, files[0].chain);
      PlacedFile(rest, Pieces(files[0], size), files[0].chain, size);
      var r := PlaceAll(blocks, files, size);
      hide Chunk, PlaceAll, PlaceFile;
      forall j | 0 <= j < |files|
        ensures InBlocks(blocks, files[j].chain) && Placed(r, files[j], size)
      {
        if j > 0 {
          assert Apart(files[0], files[j]);
          assert files[j] == files[1..][j - 1];
          assert Placed(rest, files[j], size);
          forall i | 0 <= i < |files[j].chain|
            ensures Chunk(files[j].content, i, size) <= r[files[j].chain[i] - 2]
          {
            assert files[j].chain[i] in files[j].chain;
          }
        }
      }
    }
  }

  // ---------- the directory ----------

  function EntryBytes(f: File): (b: seq<byte>)
    requires |f.name| == NAME_SIZE && |f.chain| > 0 && f.chain[0] < 0x1_0000 && |f.content| < 0x1_0000_0000
    ensures |b| == ENTRY_SIZE
    ensures ParseEntry(b, 0) == DirectoryEntry(f.name, f.chain[0], |f.content|)
  {
    var cluster, size := Bytes16(f.chain[0]), Bytes32(|f.content|);
    var b := f.name + Zeros(15) + cluster + size;
    assert b[0..NAME_SIZE] == f.name;
    assert b[26] == cluster[0] && b[27] == cluster[1];
    assert b[28] == size[0] && b[29] == size[1] && b[30] == size[2] && b[31] == size[3];
    b
  }

  ghost function Directory(files: seq<File>, size: nat): (root: seq<byte>)
    requires forall j :: 0 <= j < |files| ==>
      && |files[j].name| == NAME_SIZE && |files[j].chain| > 0
      && files[j].chain[0] < 0x1_0000 && |files[j].content| < 0x1_0000_0000
    requires ENTRY_SIZE * |files| <= size
    ensures |root| == size
  {
    var entries := seq(|files|, j requires 0 <= j < |files| => EntryBytes(files[j]));
    FlattenLength(entries, ENTRY_SIZE);
    Flatten(entries) + Zeros(size - ENTRY_SIZE * |files|)
  }

  lemma DirectoryEntries(files: seq<File>, size: nat, i: nat)
    requires forall j :: 0 <= j < |files| ==>
      && |files[j].name| == NAME_SIZE && |files[j].chain| > 0
      && files[j].chain[0] < 0x1_0000 && |files[j].content| < 0x1_0000_0000
    requires ENTRY_SIZE * |files| <= size && ENTRY_SIZE * i + ENTRY_SIZE <= size
    ensures var e := ParseEntry(Directory(files, size), i);
      if i < |files| then e == DirectoryEntry(files[i].name, files[i].chain[0], |files[i].content|)
      else e.name == Zeros(NAME_SIZE)
  {
    var entries := seq(|files|, j requires 0 <= j < |files| => EntryBytes(files[j]));
    FlattenLength(entries, ENTRY_SIZE);
    var root, o := Directory(files, size), ENTRY_SIZE * i;
    if i < |files| {
      FlattenAt(entries, ENTRY_SIZE, i);
      var b := EntryBytes(files[i]);
      assert b == Flatten(entries)[o..o + ENTRY_SIZE] == root[o..o + ENTRY_SIZE];
      EntryInPlace(root, i, b);
    } else {
      assert root[o..o + NAME_SIZE] == Zeros(NAME_SIZE);
    }
  }

  lemma EntryInPlace(root: seq<byte>, i: nat, b: seq<byte>)
    requires ENTRY_SIZE * i + ENTRY_SIZE <= |root| && b == root[ENTRY_SIZE * i..ENTRY_SIZE * i + ENTRY_SIZE]
    ensures ParseEntry(root, i) == ParseEntry(b, 0)
  {
    var o := ENTRY_SIZE * i;
    assert forall k :: 0 <= k < ENTRY_SIZE ==> b[k] == root[o + k];
    assert b[0..NAME_SIZE] == root[o..o + NAME_SIZE];
  }

  // ---------- the whole disk ----------

  lemma FilesAreApart(v: Volume)
    requires Formattable(v)
    ensures AllApart(v.files)
    ensures AllInFat(Pack(v.table), v.files) && AllInBlocks(v.blocks, v.files)
  {
    forall j | 0 <= j < |v.files|
      ensures InFat(Pack(v.table), v.files[j].chain) && InBlocks(v.blocks, v.files[j].chain)
    {
      assert FileFits(v, v.files[j]);
      forall i | 0 <= i < |v.files[j].chain|
        ensures HasEntry(Pack(v.table), v.files[j].chain[i]) && v.files[j].chain[i] < END_OF_CHAIN
        ensures 2 <= v.files[j].chain[i] < |v.blocks| + 2
      {
        assert ClusterFits(v, v.files[j].chain[i]);
        PackRoundTrip(v.table, v.files[j].chain[i]);
      }
    }
  }

  ghost function FatOf(v: Volume): (fat: seq<byte>)
    requires Formattable(v)
    ensures |fat| == v.geometry.sectorsPerFat as int * v.geometry.bytesPerSector as int
  {
    FilesAreApart(v);
    var g := v.geometry;
    var packed := Pack(v.table);
    var room := g.sectorsPerFat as int * g.bytesPerSector as int;
    LinkAll(packed + Zeros(room - |packed|), v.files, v.endMark)
  }

  /** The formatter links every file's chain and leaves every other link as it was. */
  lemma FatLinksFiles(v: Volume)
    requires Formattable(v)
    ensures forall j :: 0 <= j < |v.files| ==> IsChain(FatOf(v), v.files[j].chain)
    ensures forall c :: 0 <= c < |v.table| && (forall j :: 0 <= j < |v.files| ==> c !in v.files[j].chain) ==>
      HasEntry(FatOf(v), c) && Entry(FatOf(v), c) == v.table[c]
  {
    FilesAreApart(v);
    var packed := Pack(v.table);
    var fat := packed + Zeros(|FatOf(v)| - |packed|);
    LinkedFiles(fat, v.files, v.endMark);
    forall c | 0 <= c < |v.table|
      ensures HasEntry(fat, c) && Entry(fat, c) == v.table[c]
    {
      PackRoundTrip(v.table, c);
      EntryOfHead(packed, Zeros(|FatOf(v)| - |packed|), c);
    }
  }

  lemma SlotsFit(v: Volume)
    requires Formattable(v)
    ensures ENTRY_SIZE * |v.files| <= ENTRY_SIZE * v.geometry.dirEntryCount
         <= RootSectors(v.geometry) * v.geometry.bytesPerSector
    ensures forall j :: 0 <= j < |v.files| ==>
      && |v.files[j].name| == NAME_SIZE && |v.files[j].chain| > 0
      && v.files[j].chain[0] < 0x1_0000 && |v.files[j].content| < 0x1_0000_0000
  {
    var g := v.geometry;
    RootEndIsLeast(g, RootEnd(g));
    forall j | 0 <= j < |v.files|
      ensures FileFits(v, v.files[j]) && v.files[j].chain[0] < 0x1_0000
    {
      assert FileFits(v, v.files[j]) && ClusterFits(v, v.files[j].chain[0]);
    }
  }

  ghost function RootOf(v: Volume): (root: seq<byte>)
    requires Formattable(v)
    ensures |root| == RootSectors(v.geometry) * v.geometry.bytesPerSector
  {
    SlotsFit(v);
    Directory(v.files, RootSectors(v.geometry) * v.geometry.bytesPerSector)
  }

  ghost function BlocksOf(v: Volume): (blocks: seq<seq<byte>>)
    requires Formattable(v)
    ensures |blocks| == |v.blocks| && AllOfSize(blocks, ClusterSize(v.geometry))
  {
    FilesAreApart(v);
    PlaceAll(v.blocks, v.files, ClusterSize(v.geometry))
  }

  /** The disk image: reserved sectors, the copies of the FAT, the root directory, the
      data clusters. */
  ghost function Assemble(
      g: BootSector, boot: seq<byte>, fat: seq<byte>, root: seq<byte>, blocks: seq<seq<byte>>): seq<byte> {
    boot + Flatten(seq(g.fatCount, _ => fat)) + root + Flatten(blocks)
  }

  ghost predicate Sized(g: BootSector, boot: seq<byte>, fat: seq<byte>, root: seq<byte>, blocks: seq<seq<byte>>) {
    && g.bytesPerSector > 0 && g.sectorsPerCluster > 0 && g.fatCount > 0
    && |boot| == g.reservedSectors as int * g.bytesPerSector as int
    && |fat| == g.sectorsPerFat as int * g.bytesPerSector as int
    && |root| == RootSectors(g) * g.bytesPerSector
    && AllOfSize(blocks, ClusterSize(g))
    && RootEnd(g) * g.bytesPerSector + |blocks| * ClusterSize(g) <= 0x1_0000_0000
  }

  ghost function Format(v: Volume): seq<byte>
    requires Formattable(v)
  {
    Assemble(v.geometry, BootOf(v), FatOf(v), RootOf(v), BlocksOf(v))
  }

  lemma MiddleSlice(a: seq<byte>, b: seq<byte>, c: seq<byte>)
    ensures (a + b + c)[|a|..|a| + |b|] == b
  {
  }

  lemma {:induction false} RegionSizes(
      g: BootSector, boot: seq<byte>, fat: seq<byte>, root: seq<byte>, blocks: seq<seq<byte>>)
    requires Sized(g, boot, fat, root, blocks)
    ensures var copies := Flatten(seq(g.fatCount, _ => fat));
      && fat <= copies
      && |boot + copies| == RootStart(g) * g.bytesPerSector
      && |boot + copies + root| == RootEnd(g) * g.bytesPerSector
      && |Flatten(blocks)| == |blocks| * ClusterSize(g)
      && |Assemble(g, boot, fat, root, blocks)| <= 0x1_0000_0000
  {
    var r: nat, f: nat, n: nat, b: nat := g.reservedSectors, g.sectorsPerFat, g.fatCount, g.bytesPerSector;
    var copies := seq(g.fatCount, _ => fat);
    FlattenLength(copies, |fat|);
    FlattenAt(copies, |fat|, 0);
    FlattenLength(blocks, ClusterSize(g));
    Regroup(r, f, n, b, RootSectors(g));
  }

  lemma Regroup(r: nat, f: nat, n: nat, b: nat, s: nat)
    ensures r * b + n * (f * b) == (r + f * n) * b
    ensures (r + f * n) * b + s * b == (r + f * n + s) * b
  {
    assert n * (f * b) == (f * n) * b;
  }

  /** A part of the disk that starts on a sector boundary is what a read there gets. */
  lemma PartIsRegion(head: seq<byte>, part: seq<byte>, tail: seq<byte>, g: BootSector, lba: nat, count: nat)
    requires g.bytesPerSector > 0 && |head + part + tail| <= 0x1_0000_0000
    requires |head| == lba * g.bytesPerSector && |part| == count * g.bytesPerSector
    ensures Readable(head + part + tail, g, lba, count)
    ensures SectorBytes(head + part + tail, g, lba, count) == part
  {
    var b: nat := g.bytesPerSector;
    assert (lba + count) * b == lba * b + count * b;
    WholeRegion(head + part + tail, g, lba, count);
    MiddleSlice(head, part, tail);
  }

  /** The disk's regions, found where the reader looks for them. */
  lemma AssembledRegions(g: BootSector, boot: seq<byte>, fat: seq<byte>, root: seq<byte>, blocks: seq<seq<byte>>)
    requires Sized(g, boot, fat, root, blocks)
    ensures var disk := Assemble(g, boot, fat, root, blocks);
      && FatBytes(disk, g) == fat
      && RootBytes(disk, g) == root
      && boot <= disk && RootEnd(g) * g.bytesPerSector <= |disk| <= 0x1_0000_0000
  {
    RegionSizes(g, boot, fat, root, blocks);
    var disk, data, copies := Assemble(g, boot, fat, root, blocks), Flatten(blocks), Flatten(seq(g.fatCount, _ => fat));
    var rest := copies[|fat|..] + root + data;
    assert disk == boot + fat + rest;
    assert disk == boot + copies + root + data;
    hide RootStart, RootSectors, Flatten, Assemble;
    PartIsRegion(boot, fat, rest, g, g.reservedSectors, g.sectorsPerFat);
    PartIsRegion(boot + copies, root, data, g, RootStart(g), RootSectors(g));
  }

  lemma AssembledCluster(
      g: BootSector, boot: seq<byte>, fat: seq<byte>, root: seq<byte>, blocks: seq<seq<byte>>, k: nat)
    requires Sized(g, boot, fat, root, blocks) && k < |blocks|
    ensures var disk := Assemble(g, boot, fat, root, blocks);
      ClusterReadable(disk, g, RootEnd(g), k + 2) && ClusterBytes(disk, g, RootEnd(g), k + 2) == blocks[k]
  {
    hide *;
    var front, back := AroundCluster(g, boot, fat, root, blocks, k);
    PartIsCluster(front, blocks[k], back, g, RootEnd(g), k);
  }

  lemma AroundCluster(g: BootSector, boot: seq<byte>, fat: seq<byte>, root: seq<byte>, blocks: seq<seq<byte>>, k: nat)
    returns (front: seq<byte>, back: seq<byte>)
    requires Sized(g, boot, fat, root, blocks) && k < |blocks|
    ensures g.bytesPerSector > 0 && g.sectorsPerCluster > 0
    ensures Assemble(g, boot, fat, root, blocks) == front + blocks[k] + back
    ensures |front| == (RootEnd(g) + k * g.sectorsPerCluster) * g.bytesPerSector
    ensures |blocks[k]| == ClusterSize(g) && |front + blocks[k] + back| <= 0x1_0000_0000
  {
    hide *;
    SizedParts(g, boot, fat, root, blocks);
    RegionSizes(g, boot, fat, root, blocks);
    ClusterInData(g, blocks, k);
    var head := boot + Flatten(seq(g.fatCount, _ => fat)) + root;
    var data, o := Flatten(blocks), k * ClusterSize(g);
    front, back := head + data[..o], data[o + |blocks[k]|..];
    FrontSize(g, k, head, data[..o]);
    JoinAround(head, data, o, blocks[k]);
  }

  lemma SizedParts(g: BootSector, boot: seq<byte>, fat: seq<byte>, root: seq<byte>, blocks: seq<seq<byte>>)
    requires Sized(g, boot, fat, root, blocks)
    ensures g.bytesPerSector > 0 && g.sectorsPerCluster > 0 && AllOfSize(blocks, ClusterSize(g))
    ensures Assemble(g, boot, fat, root, blocks)
         == boot + Flatten(seq(g.fatCount, _ => fat)) + root + Flatten(blocks)
  {
    hide Flatten, AllOfSize, RootEnd, RootSectors, ClusterSize;
  }

  lemma ClusterInData(g: BootSector, blocks: seq<seq<byte>>, k: nat)
    requires AllOfSize(blocks, ClusterSize(g)) && k < |blocks|
    ensures var o, size := k * ClusterSize(g), ClusterSize(g);
      && |blocks[k]| == size && o + size <= |Flatten(blocks)| && Flatten(blocks)[o..o + size] == blocks[k]
  {
    FlattenAt(blocks, ClusterSize(g), k);
    hide Flatten;
  }

  lemma JoinAround(head: seq<byte>, data: seq<byte>, o: nat, part: seq<byte>)
    requires o + |part| <= |data| && data[o..o + |part|] == part
    ensures head + data == head + data[..o] + part + data[o + |part|..]
  {
  }

  lemma FrontSize(g: BootSector, k: nat, head: seq<byte>, before: seq<byte>)
    requires g.bytesPerSector > 0 && |head| == RootEnd(g) * g.bytesPerSector && |before| == k * ClusterSize(g)
    ensures |head + before| == (RootEnd(g) + k * g.sectorsPerCluster) * g.bytesPerSector
  {
    hide RootEnd;
    ClusterOffset(RootEnd(g), k, g.sectorsPerCluster as int, g.bytesPerSector as int);
  }

  lemma PartIsCluster(front: seq<byte>, part: seq<byte>, back: seq<byte>, g: BootSector, end: nat, k: nat)
    requires g.bytesPerSector > 0 && g.sectorsPerCluster > 0
    requires |front| == (end + k * g.sectorsPerCluster) * g.bytesPerSector
    requires |part| == ClusterSize(g) && |front + part + back| <= 0x1_0000_0000
    ensures ClusterReadable(front + part + back, g, end, k + 2)
    ensures ClusterBytes(front + part + back, g, end, k + 2) == part
  {
    var lba: nat := end + k * g.sectorsPerCluster;
    hide Readable, SectorBytes;
    BoundaryFits(lba, g.sectorsPerCluster, g.bytesPerSector, |front + part + back|);
    assert k + 2 - 2 == k;
    assert ClusterLba(g, end, k + 2) == lba;
    hide ClusterLba;
    PartIsRegion(front, part, back, g, lba, g.sectorsPerCluster);
  }

  lemma BoundaryFits(lba: nat, s: nat, b: nat, size: nat)
    requires s > 0 && b > 0 && lba * b + s * b <= size
    ensures lba < size
  {
    MulMonotone(1, b, lba);
    MulMonotone(1, s, b);
  }

  lemma ClusterOffset(end: nat, k: nat, s: nat, b: nat)
    ensures (end + k * s) * b == end * b + k * (s * b)
    ensures (end + k * s + s) * b == end * b + k * (s * b) + s * b
  {
    assert (k * s) * b == k * (s * b);
  }

  lemma FormatIsSized(v: Volume)
    requires Formattable(v)
    ensures Sized(v.geometry, BootOf(v), FatOf(v), RootOf(v), BlocksOf(v))
  {
  }

  lemma FormatRegions(v: Volume)
    requires Formattable(v)
    ensures WellFormed(Format(v), v.geometry)
    ensures FatBytes(Format(v), v.geometry) == FatOf(v)
    ensures RootBytes(Format(v), v.geometry) == RootOf(v)
  {
    FormatIsSized(v);
    AssembledRegions(v.geometry, BootOf(v), FatOf(v), RootOf(v), BlocksOf(v));
    var disk := Format(v);
    hide Format, FatBytes, RootBytes, Flatten, Assemble, Sized, RootEnd, RootSectors, FilesFit;
    SameBootSector(BootOf(v), disk);
    BootRoundTrip(v.geometry, v.head);
  }

  lemma SameBootSector(boot: seq<byte>, disk: seq<byte>)
    requires boot <= disk && |boot| >= BOOT_SECTOR_SIZE
    ensures ParseBootSector(disk) == ParseBootSector(boot)
  {
    assert forall o :: 0 <= o < |boot| ==> disk[o] == boot[o];
  }

  /** Whatever the formatter lays out, the disk holds; so the reader's end-to-end
      theorem covers every formattable volume. */
  lemma FormattedVolumeHolds(v: Volume, j: nat)
    requires Formattable(v) && j < |v.files|
    ensures WellFormed(Format(v), v.geometry) && Holds(Format(v), v.geometry, v.files[j])
  {
    FormatRegions(v);
    FatLinksFiles(v);
    assert FileFits(v, v.files[j]);
    FormattedSlot(v, j);
    hide FatOf, RootOf, BlocksOf, Format, ChunkAt, GeometryFits, FilesFit;
    forall i | 0 <= i < |v.files[j].chain|
      ensures ChunkAt(Format(v), v.geometry, v.files[j], i)
    {
      FormattedChunk(v, j, i);
    }
  }

  /** End to end, from the formatter to the bytes delivered: the program recovers every
      file. */
  lemma FormattedFileIsRecovered(v: Volume, j: nat, name: seq<byte>, run: seq<nat>, r: Outcome)
    requires Formattable(v) && j < |v.files|
    requires |name| >= NAME_SIZE && name[..NAME_SIZE] == v.files[j].name
    requires Defined(Format(v), name, run) && MainResult(Format(v), name, run, r)
    ensures r == Extracted(v.files[j].content)
  {
    FormattedVolumeHolds(v, j);
    hide Format, Holds, WellFormed, Defined, MainResult, Formattable;
    HeldFileIsDelivered(Format(v), v.geometry, v.files[j], name, run, r);
  }

  /** And with one sector per cluster its buffer always has room. */
  lemma FormattedFileFits(v: Volume, j: nat, name: seq<byte>)
    requires Formattable(v) && j < |v.files|
    requires |name| >= NAME_SIZE && name[..NAME_SIZE] == v.files[j].name
    requires v.geometry.sectorsPerCluster == 1
    requires |v.files[j].content| + v.geometry.bytesPerSector < 0x1_0000_0000
    ensures Defined(Format(v), name, v.files[j].chain)
  {
    hide *;
    FormattedVolumeHolds(v, j);
    FileFitsBuffer(v, j);
    HeldFileNeedsRoom(Format(v), v.geometry, v.files[j], name, v.files[j].chain);
    NoWrapAround(|v.files[j].content| + v.geometry.bytesPerSector);
  }

  lemma NoWrapAround(n: nat)
    requires n < 0x1_0000_0000
    ensures Wrap32(n) == n
  {
  }

  lemma FileFitsBuffer(v: Volume, j: nat)
    requires Formattable(v) && j < |v.files| && v.geometry.sectorsPerCluster == 1
    ensures |v.files[j].chain| * ClusterSize(v.geometry) <= |v.files[j].content| + v.geometry.bytesPerSector
  {
    assert FileFits(v, v.files[j]);
    BufferHoldsChain(v.geometry, |v.files[j].content|, |v.files[j].chain|);
  }

  lemma FormattedChunk(v: Volume, j: nat, i: nat)
    requires Formattable(v) && j < |v.files| && i < |v.files[j].chain|
    ensures ChunkAt(Format(v), v.geometry, v.files[j], i)
  {
    hide *;
    FileOfVolume(v, j, i);
    ChunkInBlock(v, j, i);
    FormatIsSized(v);
    AssembledCluster(v.geometry, BootOf(v), FatOf(v), RootOf(v), BlocksOf(v), v.files[j].chain[i] - 2);
    ChunkFromBlock(v, j, i);
  }

  lemma FileOfVolume(v: Volume, j: nat, i: nat)
    requires Formattable(v) && j < |v.files| && i < |v.files[j].chain|
    ensures v.geometry.bytesPerSector > 0 && 0 <= v.files[j].chain[i] - 2 < |v.blocks|
  {
    assert FileFits(v, v.files[j]) && ClusterFits(v, v.files[j].chain[i]);
  }

  lemma ChunkInBlock(v: Volume, j: nat, i: nat)
    requires Formattable(v) && j < |v.files| && i < |v.files[j].chain|
    requires 0 <= v.files[j].chain[i] - 2 < |v.blocks|
    ensures Chunk(v.files[j].content, i, ClusterSize(v.geometry)) <= BlocksOf(v)[v.files[j].chain[i] - 2]
  {
    FilesAreApart(v);
    BlocksArePlaced(v);
    hide *;
    PlacedFiles(v.blocks, v.files, ClusterSize(v.geometry));
    PlacedChunk(BlocksOf(v), v.files[j], ClusterSize(v.geometry), i);
  }

  lemma BlocksArePlaced(v: Volume)
    requires Formattable(v)
    ensures AllOfSize(v.blocks, ClusterSize(v.geometry)) && AllInBlocks(v.blocks, v.files)
    ensures BlocksOf(v) == PlaceAll(v.blocks, v.files, ClusterSize(v.geometry))
  {
    FilesAreApart(v);
    hide PlaceAll, ClusterSize;
  }

  lemma PlacedChunk(blocks: seq<seq<byte>>, f: File, size: nat, i: nat)
    requires InBlocks(blocks, f.chain) && Placed(blocks, f, size) && i < |f.chain|
    ensures 0 <= f.chain[i] - 2 < |blocks| && Chunk(f.content, i, size) <= blocks[f.chain[i] - 2]
  {
    hide Chunk;
  }

  lemma ChunkFromBlock(v: Volume, j: nat, i: nat)
    requires Formattable(v) && j < |v.files| && i < |v.files[j].chain|
    requires v.geometry.bytesPerSector > 0 && 0 <= v.files[j].chain[i] - 2 < |v.blocks|
    requires var g, c := v.geometry, v.files[j].chain[i];
      var disk := Assemble(g, BootOf(v), FatOf(v), RootOf(v), BlocksOf(v));
      && ClusterReadable(disk, g, RootEnd(g), c - 2 + 2)
      && ClusterBytes(disk, g, RootEnd(g), c - 2 + 2) == BlocksOf(v)[c - 2]
      && Chunk(v.files[j].content, i, ClusterSize(g)) <= BlocksOf(v)[c - 2]
    ensures ChunkAt(Format(v), v.geometry, v.files[j], i)
  {
    assert v.files[j].chain[i] - 2 + 2 == v.files[j].chain[i];
    hide Assemble, FatOf, RootOf, BlocksOf, BootOf, RootEnd, Chunk, ClusterReadable, ClusterBytes, Formattable;
  }

  lemma FormattedSlot(v: Volume, j: nat)
    requires Formattable(v) && j < |v.files|
    ensures DirectorySlot(RootOf(v), v.files[j], j)
  {
    SlotsFit(v);
    var size := RootSectors(v.geometry) * v.geometry.bytesPerSector;
    forall k | 0 <= k <= j
      ensures ParseEntry(RootOf(v), k).name == v.files[k].name
    {
      DirectoryEntries(v.files, size, k);
    }
    DirectoryEntries(v.files, size, j);
    forall k | 0 <= k < j
      ensures v.files[k].name != v.files[j].name
    {
      assert Apart(v.files[k], v.files[j]);
    }
  }

  /** A name that no file has, and that is not the all-zero name of a free slot, is
      not found. */
  lemma UnknownNameIsNotFound(v: Volume, name: seq<byte>)
    requires Formattable(v) && |name| >= NAME_SIZE
    requires forall j :: 0 <= j < |v.files| ==> v.files[j].name != name[..NAME_SIZE]
    requires name[..NAME_SIZE] != Zeros(NAME_SIZE)
    ensures RootLoads(Format(v), v.geometry) && FoundSlot(Format(v), v.geometry, name).None?
  {
    var g, disk := v.geometry, Format(v);
    FormatRegions(v);
    RegionsAreReadable(disk, g);
    SlotsFit(v);
    forall i: nat | i < g.dirEntryCount
      ensures ParseEntry(RootOf(v), i).name != name[..NAME_SIZE]
    {
      DirectoryEntries(v.files, RootSectors(g) * g.bytesPerSector, i);
    }
    assert IsLookup(RootOf(v), g.dirEntryCount, name, FoundSlot(disk, g, name));
  }

  // ---------- an instance ----------

  /** A volume of 64-byte sectors: the first file fragmented and back to front, the
      second in between. */
  function Instance(): Volume {
    var head := BootLabel(Zeros(3), Zeros(8), 0, 0, Zeros(168));
    var first := File(seq(NAME_SIZE, _ => 0x41), seq(65, _ => 1), [4, 2]);
    var second := File(seq(NAME_SIZE, _ => 0x42), [2], [3]);
    Volume(BootSector(64, 1, 3, 2, 4, 5), head, [0xFF0, 0xFFF, 0, 0, 0, 0], 0xFFF, [first, second],
      seq(4, _ => Zeros(64)))
  }

  /** Formattable volumes with interleaved chains exist. */
  lemma InstanceIsFormattable()
    ensures Formattable(Instance())
  {
    hide *;
    InstanceGeometry();
    InstanceFiles();
    TwoFilesFit(Instance());
  }

  lemma TwoFilesFit(v: Volume)
    requires GeometryFits(v) && |v.files| == 2
    requires FileFits(v, v.files[0]) && FileFits(v, v.files[1]) && Apart(v.files[0], v.files[1])
    ensures Formattable(v)
  {
    hide GeometryFits, FileFits, Apart;
  }

  lemma InstanceGeometry()
    ensures GeometryFits(Instance())
  {
    var v := Instance();
    assert |BootOf(v)| == 192;
    assert RootEnd(v.geometry) == 15 && ClusterSize(v.geometry) == 64;
    assert |Pack(v.table)| == 9;
    hide BootBytes, RootEnd, RootSectors, Pack;
  }

  lemma InstanceFiles()
    requires GeometryFits(Instance())
    ensures var v := Instance();
      && |v.files| == 2 && FileFits(v, v.files[0]) && FileFits(v, v.files[1]) && Apart(v.files[0], v.files[1])
  {
    var v := Instance();
    hide GeometryFits, BootBytes;
    assert v.files[0].name[0] != v.files[1].name[0];
  }

  /** Four sectors to a cluster, and a file of one byte. */
  function WideInstance(): Volume {
    var head := BootLabel(Zeros(3), Zeros(8), 0, 0, Zeros(168));
    var file := File(seq(NAME_SIZE, _ => 0x41), [1], [2]);
    Volume(BootSector(64, 4, 3, 2, 6, 5), head, [0xFF0, 0xFFF, 0, 0], 0xFF8, [file], [Zeros(256)])
  }

  lemma WideInstanceIsFormattable()
    ensures Formattable(WideInstance())
    ensures WideInstance().geometry == BootSector(64, 4, 3, 2, 6, 5)
  {
    var v := WideInstance();
    var g := v.geometry;
    assert |BootOf(v)| == 192;
    assert RootEnd(g) == 16 && ClusterSize(g) == 256;
    assert |Pack(v.table)| == 6;
    hide BootBytes, RootEnd, RootSectors, Pack;
    assert GeometryFits(v);
    assert FileFits(v, v.files[0]);
  }

  /** A formattable volume whose one-byte file does not fit the buffer: the loop writes 256
      bytes into 65. */
  lemma WideInstanceOverflows(run: seq<nat>)
    ensures Formattable(WideInstance())
    ensures var v := WideInstance(); !Defined(Format(v), v.files[0].name, run)
  {
    var v := WideInstance();
    assert |v.files[0].name| == NAME_SIZE && |v.files[0].chain| == |v.files[0].content| == 1;
    assert v.files[0].name[..NAME_SIZE] == v.files[0].name;
    WideInstanceIsFormattable();
    hide Format, Holds, WellFormed, Defined, Formattable, WideInstance, RootEnd;
    FormattedVolumeHolds(v, 0);
    HeldFileNeedsRoom(Format(v), v.geometry, v.files[0], v.files[0].name, run);
  }
}
