/** The kernel's string routines, on buffers that hold C strings. */
module Strings {
  import opened Bytes

  /** 0 exactly when the two C strings are the same, else 1. */
  method StrCmp(s1: seq<byte>, s2: seq<byte>) returns (r: int)
    requires HasString(s1) && HasString(s2)
    ensures r == if CString(s1) == CString(s2) then 0 else 1
  {
    var i := 0;
    while s1[i] == s2[i]
      invariant i <= |CString(s1)| && i <= |CString(s2)|
      invariant s1[..i] == s2[..i]
      decreases |s1| - i
    {
      BeforeEnd(s1, i);
      BeforeEnd(s2, i);
      if s2[i] == 0 {
        return 0;
      }
      i := i + 1;
    }
    DifferentStrings(s1, s2, i);
    r := 1;
  }

  lemma {:induction false} BeforeEnd(s: seq<byte>, i: nat)
    requires HasString(s) && i <= |CString(s)|
    ensures s[i] == 0 <==> i == |CString(s)|
  {
    if i < |CString(s)| {
      assert CString(s)[i] == s[i];
    }
  }

  lemma {:induction false} DifferentStrings(s1: seq<byte>, s2: seq<byte>, i: nat)
    requires HasString(s1) && HasString(s2) && i <= |CString(s1)| && i <= |CString(s2)|
    requires s1[i] != s2[i]
    ensures CString(s1) != CString(s2)
  {
    BeforeEnd(s1, i);
    BeforeEnd(s2, i);
    if i < |CString(s1)| && i < |CString(s2)| {
      assert CString(s1)[i] == s1[i] && CString(s2)[i] == s2[i];
    }
  }

  /** Copies a C string with its terminator and returns its length; the rest of the
      destination stays. */
  method StrCpy(dst: array<byte>, src: seq<byte>) returns (n: nat)
    requires HasString(src) && |CString(src)| < dst.Length
    modifies dst
    ensures n == |CString(src)|
    ensures dst[..] == Overwrite(old(dst[..]), 0, CString(src) + [0])
  {
    n := 0;
    ghost var before := dst[..];
    hide Overwrite;
    OverwriteNothing(before, 0, src);
    while true
      invariant 0 <= n <= |CString(src)|
      invariant dst[..] == Overwrite(before, 0, src[..n])
      decreases |src| - n
    {
      BeforeEnd(src, n);
      OverwriteOneMore(before, 0, src, n);
      dst[n] := src[n];
      if src[n] == 0 {
        break;
      }
      n := n + 1;
    }
    assert src[..n + 1] == CString(src) + [0];
  }

  /** The number of bytes before the terminator. */
  method StrLen(s: seq<byte>) returns (n: nat)
    requires HasString(s)
    ensures n == |CString(s)|
  {
    n := 0;
    while s[n] != 0
      invariant n <= |CString(s)|
      decreases |s| - n
    {
      BeforeEnd(s, n);
      n := n + 1;
    }
    BeforeEnd(s, n);
  }

  /** Appends a C string to the one in dst. */
  method StrCat(dst: array<byte>, src: seq<byte>)
    requires HasString(dst[..]) && HasString(src)
    requires |CString(dst[..])| + |CString(src)| < dst.Length
    modifies dst
    ensures HasString(dst[..]) && CString(dst[..]) == old(CString(dst[..])) + CString(src)
  {
    var end := StrLen(dst[..]);
    ghost var before := dst[..];
    var n := StrLen(src);
    MemCpy(dst, end, src, n);
    dst[end + n] := 0;
    ghost var text := CString(before) + CString(src);
    assert dst[..] == text + [0] + dst[end + n + 1..] by {
      assert before[..end] == CString(before) && src[..n] == CString(src);
      assert dst[..end] == before[..end];
    }
    CStringOfTerminated(text, dst[end + n + 1..]);
  }

  /** Copies n bytes to dst at o. */
  method MemCpy(dst: array<byte>, o: nat, src: seq<byte>, n: nat)
    requires n <= |src| && o + n <= dst.Length
    modifies dst
    ensures dst[..] == Overwrite(old(dst[..]), o, src[..n])
  {
    ghost var before := dst[..];
    hide Overwrite;
    OverwriteNothing(before, o, src);
    var i := 0;
    while i < n
      invariant 0 <= i <= n
      invariant dst[..] == Overwrite(before, o, src[..i])
    {
      OverwriteOneMore(before, o, src, i);
      dst[o + i] := src[i];
      i := i + 1;
    }
  }
}
