/**
 The packed FAT: twelve-bit links stored two to three bytes, and the cluster
 chains they form.
 */
module Fat12Table {
  import opened Bytes

  type link = x: int | 0 <= x < 0x1000

  const END_OF_CHAIN := 0x0FF8

  predicate HasEntry(fat: seq<byte>, c: nat) {
    c * 3 / 2 + 1 < |fat|
  }

  /** The link of cluster c, read as the reader's loop reads it: one unaligned
      little-endian word, of which an even cluster owns the low twelve bits and an
      odd one the high twelve. */
  function Entry(fat: seq<byte>, c: nat): link
    requires HasEntry(fat, c)
  {
    var w := U16(fat, c * 3 / 2);
    if c % 2 == 0 then w % 0x1000 else w / 0x10
  }

  /** The same link in terms of the two bytes it touches. */
  lemma EntryNibbles(fat: seq<byte>, c: nat)
    requires HasEntry(fat, c)
    ensures c % 2 == 0 ==> Entry(fat, c) == fat[c * 3 / 2] as int + 0x100 * (fat[c * 3 / 2 + 1] as int % 0x10)
    ensures c % 2 == 1 ==> Entry(fat, c) == fat[c * 3 / 2] as int / 0x10 + 0x10 * (fat[c * 3 / 2 + 1] as int)
  {
    NibblesOfWord(fat[c * 3 / 2], fat[c * 3 / 2 + 1]);
  }

  lemma NibblesOfWord(lo: byte, hi: byte)
    ensures (lo as int + 0x100 * hi as int) % 0x1000 == lo as int + 0x100 * (hi as int % 0x10)
    ensures (lo as int + 0x100 * hi as int) / 0x10 == lo as int / 0x10 + 0x10 * hi as int
  {
    var q, r := hi as int / 0x10, hi as int % 0x10;
    LowBits(lo as int + 0x100 * r, q);
    LowByte(lo as int / 0x10, lo as int % 0x10, hi as int);
  }

  lemma LowBits(low: nat, q: nat)
    requires low < 0x1000
    ensures (low + 0x1000 * q) % 0x1000 == low
  {
  }

  lemma LowByte(q: nat, r: nat, hi: nat)
    requires r < 0x10
    ensures (0x10 * q + r + 0x100 * hi) / 0x10 == q + 0x10 * hi
  {
  }

  // ---------- packing ----------

  /** A byte from two nibbles. */
  function Join(high: nat, low: nat): (b: byte)
    requires high < 0x10 && low < 0x10
    ensures b as int / 0x10 == high && b as int % 0x10 == low
  {
    0x10 * high + low
  }

  /** Two links to three bytes; a lone last link takes two bytes. */
  function Pack(table: seq<link>): (fat: seq<byte>)
    ensures |fat| == (|table| * 3 + 1) / 2
  {
    if |table| == 0 then []
    else if |table| == 1 then [table[0] % 0x100, table[0] / 0x100]
    else PackPair(table[0], table[1]) + Pack(table[2..])
  }

  function PackPair(even: link, odd: link): (b: seq<byte>)
    ensures |b| == 3
    ensures Entry(b, 0) == even && Entry(b, 1) == odd
  {
    var b: seq<byte> := [even % 0x100, Join(odd % 0x10, even / 0x100), odd / 0x10];
    EntryNibbles(b, 0);
    EntryNibbles(b, 1);
    b
  }

  lemma {:induction false} PackRoundTrip(table: seq<link>, c: nat)
    requires c < |table|
    ensures HasEntry(Pack(table), c) && Entry(Pack(table), c) == table[c]
  {
    var fat := Pack(table);
    if |table| > 1 {
      var pair, rest := PackPair(table[0], table[1]), Pack(table[2..]);
      if c >= 2 {
        PackRoundTrip(table[2..], c - 2);
        EntryOfTail(pair, rest, c - 2);
      } else {
        EntryOfHead(pair, rest, c);
      }
    }
  }

  lemma EntryOfTail(pair: seq<byte>, rest: seq<byte>, c: nat)
    requires |pair| == 3 && HasEntry(rest, c)
    ensures HasEntry(pair + rest, c + 2) && Entry(pair + rest, c + 2) == Entry(rest, c)
  {
    assert (c + 2) * 3 / 2 == c * 3 / 2 + 3;
    assert (c + 2) % 2 == c % 2;
  }

  lemma EntryOfHead(head: seq<byte>, rest: seq<byte>, c: nat)
    requires HasEntry(head, c)
    ensures HasEntry(head + rest, c) && Entry(head + rest, c) == Entry(head, c)
  {
  }

  /** Stores one link, leaving alone the nibble that belongs to the neighbour. */
  function Store(fat: seq<byte>, c: nat, v: link): (r: seq<byte>)
    requires HasEntry(fat, c)
    ensures |r| == |fat|
  {
    var i := c * 3 / 2;
    if c % 2 == 0 then fat[i := v % 0x100][i + 1 := Join(fat[i + 1] as int / 0x10, v / 0x100)]
    else fat[i := Join(v % 0x10, fat[i] as int % 0x10)][i + 1 := v / 0x10]
  }

  /** The bytes after a store: two change, and in the one shared with the neighbour
      only this link's nibble does. */
  lemma StoredBytes(fat: seq<byte>, c: nat, v: link, k: nat)
    requires HasEntry(fat, c) && k < |fat|
    ensures var r, i := Store(fat, c, v), c * 3 / 2;
      if k == i then
        if c % 2 == 0 then r[k] == v % 0x100
        else r[k] as int % 0x10 == fat[k] as int % 0x10 && r[k] as int / 0x10 == v % 0x10
      else if k == i + 1 then
        if c % 2 == 1 then r[k] == v / 0x10
        else r[k] as int % 0x10 == v / 0x100 && r[k] as int / 0x10 == fat[k] as int / 0x10
      else r[k] == fat[k]
  {
    hide Join;
  }

  /** Neighbours share a byte, and still a store changes exactly one link. */
  lemma StoreChangesOneLink(fat: seq<byte>, c: nat, v: link, d: nat)
    requires HasEntry(fat, c) && HasEntry(fat, d)
    ensures Entry(Store(fat, c, v), d) == if d == c then v else Entry(fat, d)
  {
    EntryNibbles(Store(fat, c, v), d);
    EntryNibbles(fat, d);
    hide Store, Entry;
    if d == c {
      StoredBytes(fat, c, v, c * 3 / 2);
      StoredBytes(fat, c, v, c * 3 / 2 + 1);
    } else {
      OtherBytes(fat, c, v, d);
    }
  }

  /** What another link is made of is untouched. */
  lemma OtherBytes(fat: seq<byte>, c: nat, v: link, d: nat)
    requires HasEntry(fat, c) && HasEntry(fat, d) && c != d
    ensures var r, j := Store(fat, c, v), d * 3 / 2;
      if d % 2 == 0 then r[j] == fat[j] && r[j + 1] as int % 0x10 == fat[j + 1] as int % 0x10
      else r[j] as int / 0x10 == fat[j] as int / 0x10 && r[j + 1] == fat[j + 1]
  {
    Neighbours(c, d);
    hide Store;
    StoredBytes(fat, c, v, d * 3 / 2);
    StoredBytes(fat, c, v, d * 3 / 2 + 1);
  }

  /** Which bytes two different clusters' links can share. */
  lemma Neighbours(c: nat, d: nat)
    ensures var i, j := c * 3 / 2, d * 3 / 2;
      if c == d then true
      else if d == c + 1 then j == i + 1 + c % 2
      else if c == d + 1 then i == j + 1 + d % 2
      else i + 1 < j || j + 1 < i
  {
    ThreeHalves(c);
    ThreeHalves(d);
  }

  lemma ThreeHalves(c: nat)
    ensures c == c / 2 * 2 + c % 2 && c * 3 / 2 == c / 2 * 3 + c % 2
  {
  }

  // ---------- chains ----------

  ghost predicate Leads(fat: seq<byte>, c: nat, d: nat) {
    HasEntry(fat, c) && Entry(fat, c) == d < END_OF_CHAIN
  }

  ghost predicate Ends(fat: seq<byte>, c: nat) {
    HasEntry(fat, c) && Entry(fat, c) >= END_OF_CHAIN
  }

  /** The end marks are the links from 0xFF8 to 0xFFF; every other link leads on. */
  lemma EndMarks(fat: seq<byte>, c: nat)
    requires HasEntry(fat, c)
    ensures Ends(fat, c) <==> Entry(fat, c) in {0xFF8, 0xFF9, 0xFFA, 0xFFB, 0xFFC, 0xFFD, 0xFFE, 0xFFF}
    ensures Ends(fat, c) || Leads(fat, c, Entry(fat, c))
  {
    hide Entry;
  }

  /** chain is a whole file: each link names the next cluster and the last one is
      an end mark. */
  ghost predicate IsChain(fat: seq<byte>, chain: seq<nat>) {
    && |chain| > 0
    && (forall i, j :: 0 <= i < |chain| - 1 && j == i + 1 ==> Leads(fat, chain[i], chain[j]))
    && Ends(fat, chain[|chain| - 1])
  }

  /** The clusters visited by n steps that meet no end mark. */
  ghost predicate IsWalk(fat: seq<byte>, walk: seq<nat>) {
    && |walk| > 0
    && (forall i, j :: 0 <= i < |walk| - 1 && j == i + 1 ==> Leads(fat, walk[i], walk[j]))
  }

  /** A chain that ends visits no cluster twice: the successor of a cluster is
      determined, so a repeat could never lead anywhere new. */
  lemma {:induction false} ChainsAreDistinct(fat: seq<byte>, chain: seq<nat>)
    requires IsChain(fat, chain)
    ensures Distinct(chain)
  {
    forall i, j | 0 <= i < j < |chain|
      ensures chain[i] != chain[j]
    {
      if chain[i] == chain[j] {
        EqualTails(fat, chain, i, j);
      }
    }
  }

  lemma {:induction false} EqualTails(fat: seq<byte>, chain: seq<nat>, i: nat, j: nat)
    requires IsChain(fat, chain) && i < j < |chain|
    ensures chain[i] != chain[j]
    decreases |chain| - j
  {
    assert Leads(fat, chain[i], chain[i + 1]);
    if j + 1 < |chain| {
      EqualTails(fat, chain, i + 1, j + 1);
      assert Leads(fat, chain[j], chain[j + 1]);
    }
  }

  /** So the reader's loop runs at most once per FAT entry. */
  lemma {:induction false} ChainLength(fat: seq<byte>, chain: seq<nat>)
    requires IsChain(fat, chain)
    ensures |chain| <= |fat| * 2 / 3
  {
    ChainsAreDistinct(fat, chain);
    WalkIsShort(fat, chain);
  }

  /** The first n clusters from c on, stopping early at an end mark or behind the FAT. */
  ghost function Visited(fat: seq<byte>, c: nat, n: nat): (walk: seq<nat>)
    ensures IsWalk(fat, walk) && walk[0] == c && |walk| <= n + 1
    ensures |walk| == n + 1 || Ends(fat, walk[|walk| - 1]) || !HasEntry(fat, walk[|walk| - 1])
    decreases n
  {
    if n == 0 || !HasEntry(fat, c) || Entry(fat, c) >= END_OF_CHAIN then [c]
    else [c] + Visited(fat, Entry(fat, c), n - 1)
  }

  ghost predicate HasChain(fat: seq<byte>, c: nat) {
    exists chain: seq<nat> :: IsChain(fat, chain) && chain[0] == c
  }

  ghost predicate Repeats(fat: seq<byte>, c: nat) {
    exists walk: seq<nat> :: IsWalk(fat, walk) && walk[0] == c && !Distinct(walk)
  }

  /** The walk comes to a cluster that the FAT has no link for. */
  ghost predicate Escapes(fat: seq<byte>, c: nat) {
    exists walk: seq<nat> :: IsWalk(fat, walk) && walk[0] == c && !HasEntry(fat, walk[|walk| - 1])
  }

  /** Exactly when the walk from a cluster ends at an end mark: when it visits no cluster
      twice and none outside the FAT. */
  lemma {:induction false} WalkEndsIffNoRepeat(fat: seq<byte>, c: nat)
    ensures HasChain(fat, c) <==> !Repeats(fat, c) && !Escapes(fat, c)
  {
    if HasChain(fat, c) {
      var chain: seq<nat> :| IsChain(fat, chain) && chain[0] == c;
      forall walk: seq<nat> | IsWalk(fat, walk) && walk[0] == c
        ensures Distinct(walk) && HasEntry(fat, walk[|walk| - 1])
      {
        WalkStaysOnChain(fat, chain, walk);
      }
    }
    if !Repeats(fat, c) && !Escapes(fat, c) {
      var walk := Visited(fat, c, |fat|);
      assert IsWalk(fat, walk) && walk[0] == c;
      WalkIsShort(fat, walk);
      assert IsChain(fat, walk);
    }
  }

  lemma WalkStaysOnChain(fat: seq<byte>, chain: seq<nat>, walk: seq<nat>)
    requires IsChain(fat, chain) && IsWalk(fat, walk) && walk[0] == chain[0]
    ensures Distinct(walk) && HasEntry(fat, walk[|walk| - 1])
  {
    ChainsAreDistinct(fat, chain);
    WalkIsPrefix(fat, chain, walk, |walk|);
    assert walk == chain[..|walk|];
    if |walk| < |chain| {
      assert Leads(fat, chain[|walk| - 1], chain[|walk|]);
    }
  }

  /** Without a repeat there are at most as many clusters as the FAT has entries. */
  lemma WalkIsShort(fat: seq<byte>, walk: seq<nat>)
    requires IsWalk(fat, walk) && Distinct(walk) && HasEntry(fat, walk[|walk| - 1])
    ensures |walk| <= |fat| * 2 / 3
  {
    forall i | 0 <= i < |walk|
      ensures HasEntry(fat, walk[i])
    {
      if i + 1 < |walk| {
        assert Leads(fat, walk[i], walk[i + 1]);
      }
    }
    Pigeonhole(walk, |fat| * 2 / 3);
  }

  /** Walks are determined by their first cluster. */
  lemma {:induction false} WalkIsPrefix(fat: seq<byte>, chain: seq<nat>, walk: seq<nat>, n: nat)
    requires IsChain(fat, chain) && IsWalk(fat, walk) && walk[0] == chain[0]
    requires 1 <= n <= |walk|
    ensures n <= |chain| && walk[..n] == chain[..n]
  {
    if n > 1 {
      WalkIsPrefix(fat, chain, walk, n - 1);
      var m := n - 2;
      assert walk[m] == walk[..n - 1][m] == chain[..n - 1][m] == chain[m];
      assert Leads(fat, walk[m], walk[n - 1]);
      if n <= |chain| {
        assert Leads(fat, chain[m], chain[n - 1]);
        assert walk[..n] == walk[..n - 1] + [walk[n - 1]];
        assert chain[..n] == chain[..n - 1] + [chain[n - 1]];
      }
    }
  }

  /** Two clusters that link to each other: the walk never comes to an end mark. */
  lemma CycleHasNoChain()
    ensures var fat := Pack([0, 0, 3, 2]);
      Leads(fat, 2, 3) && Leads(fat, 3, 2) && Repeats(fat, 2) && !HasChain(fat, 2)
  {
    var table: seq<link> := [0, 0, 3, 2];
    var fat := Pack(table);
    PackRoundTrip(table, 2);
    PackRoundTrip(table, 3);
    hide Pack, Entry;
    var walk: seq<nat> := [2, 3, 2];
    assert IsWalk(fat, walk) && walk[0] == walk[2] == 2;
    WalkEndsIffNoRepeat(fat, 2);
  }
}
