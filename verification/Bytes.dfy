/** Machine integers, little-endian fields and C strings, as every other module uses them. */
module Bytes {

  type byte = x: int | 0 <= x < 0x100
  type word = x: int | 0 <= x < 0x1_0000
  type dword = x: int | 0 <= x < 0x1_0000_0000

  datatype Option<+T> = None | Some(value: T)

  /** Unsigned 32-bit arithmetic: the value kept after an operation. */
  function Wrap32(x: int): dword {
    x % 0x1_0000_0000
  }

  function Wrap16(x: int): word {
    x % 0x1_0000
  }

  function Min(a: int, b: int): int {
    if a < b then a else b
  }

  function U16(b: seq<byte>, o: nat): word
    requires o + 2 <= |b|
  {
    b[o] as int + 0x100 * (b[o + 1] as int)
  }

  function U32(b: seq<byte>, o: nat): dword
    requires o + 4 <= |b|
  {
    U16(b, o) as int + 0x1_0000 * (U16(b, o + 2) as int)
  }

  lemma LittleEndian(b: seq<byte>, o: nat)
    requires o + 4 <= |b|
    ensures U16(b, o) as int == b[o] as int + 256 * b[o + 1] as int
    ensures U32(b, o) as int ==
      b[o] as int + 256 * b[o + 1] as int + 65536 * b[o + 2] as int + 16777216 * b[o + 3] as int
  {
  }

  function Bytes16(w: word): (b: seq<byte>)
    ensures |b| == 2 && U16(b, 0) == w
  {
    [w % 0x100, w / 0x100]
  }

  function Bytes32(d: dword): (b: seq<byte>)
    ensures |b| == 4 && U32(b, 0) == d
  {
    Bytes16(d % 0x1_0000) + Bytes16(d / 0x1_0000)
  }

  function Zeros(n: nat): (b: seq<byte>)
    ensures |b| == n && forall i :: 0 <= i < n ==> b[i] == 0
  {
    seq(n, _ => 0)
  }

  /** b with got written over it from offset o. */
  function Overwrite(b: seq<byte>, o: nat, got: seq<byte>): (r: seq<byte>)
    requires o + |got| <= |b|
    ensures |r| == |b|
  {
    b[..o] + got + b[o + |got|..]
  }

  lemma OverwriteTwice(b: seq<byte>, x: seq<byte>, y: seq<byte>)
    requires |x| + |y| <= |b|
    ensures Overwrite(Overwrite(b, 0, x), |x|, y) == Overwrite(b, 0, x + y)
  {
  }

  lemma OverwriteOneMore(b: seq<byte>, o: nat, src: seq<byte>, i: nat)
    requires i < |src| && o + i < |b|
    ensures Overwrite(b, o, src[..i])[o + i := src[i]] == Overwrite(b, o, src[..i + 1])
  {
  }

  lemma OverwriteNothing(b: seq<byte>, o: nat, src: seq<byte>)
    requires o <= |b|
    ensures Overwrite(b, o, src[..0]) == b
  {
  }

  lemma MulMonotone(a: int, b: int, c: nat)
    requires a <= b
    ensures a * c <= b * c
  {
  }

  lemma MulStep(n: int, size: int)
    ensures (n + 1) * size == n * size + size
  {
  }

  /** A quotient and a remainder below the divisor are the quotient and the remainder. */
  lemma DivisionIs(n: nat, q: nat, d: nat, r: nat)
    requires n == q * d + r && r < d
    ensures n / d == q && n % d == r
  {
    assert n == n / d * d + n % d;
    SameQuotient(n / d, n % d, q, r, d);
  }

  lemma SameQuotient(a: nat, r: nat, b: nat, s: nat, d: nat)
    requires a * d + r == b * d + s && r < d && s < d
    ensures a == b && r == s
  {
    if a < b {
      SmallerQuotient(a, r, b, s, d);
    } else if b < a {
      SmallerQuotient(b, s, a, r, d);
    }
  }

  lemma SmallerQuotient(a: nat, r: nat, b: nat, s: nat, d: nat)
    requires a < b && r < d
    ensures a * d + r < b * d + s
  {
    MulStep(a, d);
    MulMonotone(a + 1, b, d);
  }

  function Flatten(chunks: seq<seq<byte>>): seq<byte> {
    if chunks == [] then [] else Flatten(chunks[..|chunks| - 1]) + chunks[|chunks| - 1]
  }

  lemma {:induction false} FlattenLength(chunks: seq<seq<byte>>, size: nat)
    requires forall i :: 0 <= i < |chunks| ==> |chunks[i]| == size
    ensures |Flatten(chunks)| == |chunks| * size
  {
    if chunks != [] {
      FlattenLength(chunks[..|chunks| - 1], size);
      MulStep(|chunks| - 1, size);
    }
  }

  lemma {:induction false} FlattenAt(chunks: seq<seq<byte>>, size: nat, k: nat)
    requires k < |chunks|
    requires forall i :: 0 <= i < |chunks| ==> |chunks[i]| == size
    ensures k * size + size <= |Flatten(chunks)|
    ensures Flatten(chunks)[k * size..k * size + size] == chunks[k]
  {
    var n := |chunks| - 1;
    var init, o: nat := Flatten(chunks[..n]), k * size;
    FlattenLength(chunks[..n], size);
    if k < n {
      FlattenAt(chunks[..n], size, k);
      assert (init + chunks[n])[o..o + size] == init[o..o + size];
    } else {
      assert (init + chunks[n])[o..o + size] == chunks[n];
    }
  }

  lemma FlattenOneMore(chunks: seq<seq<byte>>, i: nat)
    requires i < |chunks|
    ensures Flatten(chunks[..i + 1]) == Flatten(chunks[..i]) + chunks[i]
  {
    assert chunks[..i + 1][..i] == chunks[..i];
  }

  ghost predicate Distinct<T>(s: seq<T>) {
    forall i, j :: 0 <= i < j < |s| ==> s[i] != s[j]
  }

  ghost function Elements(s: seq<nat>): set<nat> {
    set x | x in s
  }

  ghost function Below(bound: nat): (r: set<nat>)
    ensures forall x: nat :: x in r <==> x < bound
    ensures |r| == bound
  {
    if bound == 0 then {} else Below(bound - 1) + {bound - 1}
  }

  /** Pigeonhole: distinct numbers below a bound are at most that many. */
  lemma {:induction false} Pigeonhole(s: seq<nat>, bound: nat)
    requires Distinct(s)
    requires forall i :: 0 <= i < |s| ==> s[i] < bound
    ensures |s| <= bound
  {
    DistinctCardinality(s);
    SubsetCardinality(Elements(s), Below(bound));
  }

  lemma {:induction false} DistinctCardinality(s: seq<nat>)
    requires Distinct(s)
    ensures |Elements(s)| == |s|
  {
    if s != [] {
      var init, last := s[..|s| - 1], s[|s| - 1];
      DistinctCardinality(init);
      assert s == init + [last];
      assert Elements(s) == Elements(init) + {last};
    }
  }

  lemma {:induction false} SubsetCardinality(a: set<nat>, b: set<nat>)
    requires a <= b
    ensures |a| <= |b|
  {
    if a != {} {
      var x :| x in a;
      SubsetCardinality(a - {x}, b - {x});
    }
  }

  /** The C string at the start of a buffer: everything before its first zero byte. */
  predicate HasString(b: seq<byte>) {
    0 in b
  }

  function CString(b: seq<byte>): (s: seq<byte>)
    requires HasString(b)
    ensures |s| < |b| && s == b[..|s|] && b[|s|] == 0 && 0 !in s
  {
    if b[0] == 0 then [] else [b[0]] + CString(b[1..])
  }

  lemma {:induction false} CStringOfTerminated(s: seq<byte>, rest: seq<byte>)
    requires 0 !in s
    ensures HasString(s + [0] + rest) && CString(s + [0] + rest) == s
  {
    var b := s + [0] + rest;
    assert b[|s|] == 0;
    var c := CString(b);
    assert |c| >= |s| by {
      assert b[|c|] == 0;
      assert forall i :: 0 <= i < |s| ==> b[i] == s[i];
    }
    assert |c| <= |s| by {
      assert forall i :: 0 <= i < |c| ==> c[i] == b[i];
    }
    assert c == b[..|s|] == s;
  }
}
