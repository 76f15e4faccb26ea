/**
 Numbers as text: the three digit-and-reverse routines of the kernel, and the numeral
 system they share.
 */
module Numbers {
  import opened Bytes

  const ZERO: byte := 0x30
  const MINUS: byte := 0x2D
  const LOWER_A: byte := 0x61
  const UPPER_A: byte := 0x41
  const LETTER_D: byte := 0x64
  const LETTER_X: byte := 0x78

  type int32 = x: int | -0x8000_0000 <= x < 0x8000_0000

  // ---------- numerals ----------

  /** The character of a digit; letters start at ten. */
  function DigitChar(d: nat, ten: byte): byte
    requires d < 16 && ten in {LOWER_A, UPPER_A}
  {
    if d < 10 then ZERO + d else ten + (d - 10)
  }

  function DigitValue(c: byte, ten: byte): nat {
    if ZERO <= c < ZERO + 10 then c - ZERO else if ten <= c then c as int - ten as int + 10 else 0
  }

  lemma DigitRoundTrip(d: nat, ten: byte)
    requires d < 16 && ten in {LOWER_A, UPPER_A}
    ensures DigitValue(DigitChar(d, ten), ten) == d
    ensures DigitChar(d, ten) != 0 && DigitChar(d, ten) != MINUS
    ensures DigitChar(d, ten) == ZERO <==> d == 0
  {
  }

  /** The digits in ASCII: 0 to 9, then a to f or A to F. */
  lemma DigitsAre(d: nat, ten: byte)
    requires d < 16 && ten in {97, 65}
    ensures DigitChar(d, ten) == if d < 10 then 48 + d else ten + d - 10
    ensures LOWER_A == 97 && UPPER_A == 65
  {
  }

  /** The numeral of n, most significant digit first. */
  function Text(n: nat, base: nat, ten: byte): (s: seq<byte>)
    requires 2 <= base <= 16 && ten in {LOWER_A, UPPER_A}
    ensures |s| > 0
    decreases n
  {
    if n < base then [DigitChar(n, ten)] else Text(n / base, base, ten) + [DigitChar(n % base, ten)]
  }

  /** The value of a numeral, by Horner's rule. */
  function Value(s: seq<byte>, base: nat, ten: byte): nat {
    if s == [] then 0 else Value(s[..|s| - 1], base, ten) * base + DigitValue(s[|s| - 1], ten)
  }

  predicate IsDigit(c: byte, base: nat, ten: byte)
    requires 2 <= base <= 16 && ten in {LOWER_A, UPPER_A}
  {
    DigitValue(c, ten) < base && c == DigitChar(DigitValue(c, ten), ten)
  }

  /** A numeral without superfluous zeros in front. */
  predicate IsNumeral(s: seq<byte>, base: nat, ten: byte)
    requires 2 <= base <= 16 && ten in {LOWER_A, UPPER_A}
  {
    && |s| > 0
    && (forall i :: 0 <= i < |s| ==> IsDigit(s[i], base, ten))
    && (|s| > 1 ==> s[0] != ZERO)
  }

  lemma NumeralPush(s: seq<byte>, c: byte, base: nat, ten: byte)
    requires 2 <= base <= 16 && ten in {LOWER_A, UPPER_A}
    requires IsNumeral(s, base, ten) && s[0] != ZERO && IsDigit(c, base, ten)
    ensures IsNumeral(s + [c], base, ten) && (s + [c])[0] == s[0]
  {
    hide IsDigit;
  }

  lemma {:induction false} ValuePush(s: seq<byte>, c: byte, base: nat, ten: byte)
    ensures Value(s + [c], base, ten) == Value(s, base, ten) * base + DigitValue(c, ten)
  {
    assert (s + [c])[..|s|] == s;
  }

  lemma {:induction false} DigitOf(d: nat, base: nat, ten: byte)
    requires 2 <= base <= 16 && ten in {LOWER_A, UPPER_A} && d < base
    ensures IsDigit(DigitChar(d, ten), base, ten)
    ensures IsNumeral([DigitChar(d, ten)], base, ten) && Value([DigitChar(d, ten)], base, ten) == d
  {
    DigitRoundTrip(d, ten);
    ValuePush([], DigitChar(d, ten), base, ten);
    assert [] + [DigitChar(d, ten)] == [DigitChar(d, ten)];
  }

  /** Text and Value are inverse: every number has a numeral that reads back as it. */
  lemma {:induction false} TextRoundTrip(n: nat, base: nat, ten: byte)
    requires 2 <= base <= 16 && ten in {LOWER_A, UPPER_A}
    ensures IsNumeral(Text(n, base, ten), base, ten) && Value(Text(n, base, ten), base, ten) == n
    ensures Text(n, base, ten)[0] == ZERO <==> n == 0
    decreases n
  {
    TextStep(n, base, ten);
    hide *;
    if n < base {
      DigitOf(n, base, ten);
      DigitRoundTrip(n, ten);
    } else {
      var front, c := Text(n / base, base, ten), DigitChar(n % base, ten);
      Halves(n, base);
      TextRoundTrip(n / base, base, ten);
      DigitOf(n % base, base, ten);
      NumeralPush(front, c, base, ten);
      ValuePush(front, c, base, ten);
      DigitRoundTrip(n % base, ten);
      Recompose(n, base);
    }
  }

  lemma {:induction false} TextStep(n: nat, base: nat, ten: byte)
    requires 2 <= base <= 16 && ten in {LOWER_A, UPPER_A}
    ensures n >= base ==> 0 < n / base < n
    ensures Text(n, base, ten) ==
      if n < base then [DigitChar(n, ten)] else Text(n / base, base, ten) + [DigitChar(n % base, ten)]
  {
  }

  lemma Recompose(n: nat, base: nat)
    requires base > 0
    ensures n / base * base + n % base == n
  {
  }

  /** And every numeral is the one of its value, so the text determines the number and
      the number the text. */
  lemma {:induction false} NumeralIsText(s: seq<byte>, base: nat, ten: byte)
    requires 2 <= base <= 16 && ten in {LOWER_A, UPPER_A} && IsNumeral(s, base, ten)
    ensures Text(Value(s, base, ten), base, ten) == s
    ensures s[0] != ZERO ==> Value(s, base, ten) > 0
    decreases |s|
  {
    var k := |s| - 1;
    var front, c := s[..k], s[k];
    LastDigit(s, base, ten);
    hide *;
    if k == 0 {
      DigitOf(DigitValue(c, ten), base, ten);
      OneDigit(c, base, ten);
    } else {
      NumeralIsText(front, base, ten);
      QuotientRemainder(Value(front, base, ten), base, DigitValue(c, ten));
      TextStep(Value(s, base, ten), base, ten);
    }
  }

  lemma {:induction false} LastDigit(s: seq<byte>, base: nat, ten: byte)
    requires 2 <= base <= 16 && ten in {LOWER_A, UPPER_A} && IsNumeral(s, base, ten)
    ensures |s| > 0
    ensures var k := |s| - 1;
      && s == s[..k] + [s[k]] && DigitValue(s[k], ten) < base && s[k] == DigitChar(DigitValue(s[k], ten), ten)
      && Value(s, base, ten) == Value(s[..k], base, ten) * base + DigitValue(s[k], ten)
      && (k == 0 ==> s == [s[k]] && Value(s, base, ten) == DigitValue(s[k], ten))
      && (k > 0 ==> IsNumeral(s[..k], base, ten) && s[..k][0] == s[0] != ZERO)
  {
    var k := |s| - 1;
    var front, c := s[..k], s[k];
    assert s == front + [c] && IsDigit(c, base, ten);
    FrontIsNumeral(s, base, ten);
    hide DigitValue, IsNumeral, Value, IsDigit;
    ValuePush(front, c, base, ten);
    DigitsOf(c, base, ten);
    if k == 0 {
      assert front == [] && s == [c];
      NothingIsZero(base, ten);
    }
  }

  lemma FrontIsNumeral(s: seq<byte>, base: nat, ten: byte)
    requires 2 <= base <= 16 && ten in {LOWER_A, UPPER_A} && IsNumeral(s, base, ten)
    ensures |s| > 0
    ensures |s| > 1 ==> IsNumeral(s[..|s| - 1], base, ten) && s[..|s| - 1][0] == s[0] != ZERO
  {
    hide IsDigit;
  }

  lemma DigitsOf(c: byte, base: nat, ten: byte)
    requires 2 <= base <= 16 && ten in {LOWER_A, UPPER_A} && IsDigit(c, base, ten)
    ensures DigitValue(c, ten) < base && c == DigitChar(DigitValue(c, ten), ten)
  {
  }

  lemma {:induction false} NothingIsZero(base: nat, ten: byte)
    ensures Value([], base, ten) == 0
  {
  }

  lemma {:induction false} OneDigit(c: byte, base: nat, ten: byte)
    requires 2 <= base <= 16 && ten in {LOWER_A, UPPER_A}
    requires DigitValue(c, ten) < base && c == DigitChar(DigitValue(c, ten), ten)
    ensures Text(DigitValue(c, ten), base, ten) == [c]
    ensures c != ZERO ==> DigitValue(c, ten) > 0
  {
    DigitRoundTrip(DigitValue(c, ten), ten);
    hide DigitValue, DigitChar;
  }

  lemma QuotientRemainder(q: nat, base: nat, d: nat)
    requires d < base
    ensures (q * base + d) / base == q && (q * base + d) % base == d
    ensures q > 0 ==> q * base + d >= base
  {
    DivisionIs(q * base + d, q, base, d);
    if q > 0 {
      MulMonotone(1, q, base);
    }
  }

  lemma {:induction false} TextIsInjective(m: nat, n: nat, base: nat, ten: byte)
    requires 2 <= base <= 16 && ten in {LOWER_A, UPPER_A}
    ensures Text(m, base, ten) == Text(n, base, ten) <==> m == n
  {
    TextRoundTrip(m, base, ten);
    TextRoundTrip(n, base, ten);
  }

  function Pow2(k: nat): nat {
    if k == 0 then 1 else 2 * Pow2(k - 1)
  }

  /** A number of at most k bits has at most k digits, in any base. */
  lemma {:induction false} TextLength(n: nat, base: nat, ten: byte, k: nat)
    requires 2 <= base <= 16 && ten in {LOWER_A, UPPER_A} && k > 0 && n < Pow2(k)
    ensures |Text(n, base, ten)| <= k
    decreases k
  {
    if n >= base {
      Halves(n, base);
      TextLength(n / base, base, ten, k - 1);
    }
  }

  lemma Halves(n: nat, base: nat)
    requires 2 <= base <= n
    ensures 2 * (n / base) <= n && n / base > 0
  {
    var q := n / base;
    assert q * base <= n;
    MulMonotone(2, base, q);
  }

  lemma {:induction false} IntFitsTemp(n: nat, base: nat, ten: byte)
    requires 2 <= base <= 16 && ten in {LOWER_A, UPPER_A} && n < 0x8000_0000
    ensures |Text(n, base, ten)| <= 31
  {
    assert Pow2(10) == 1024;
    assert Pow2(20) == 1024 * Pow2(10);
    assert Pow2(31) == 0x8000_0000;
    TextLength(n, base, ten, 31);
  }

  function Pow10(k: nat): nat {
    if k == 0 then 1 else 10 * Pow10(k - 1)
  }

  lemma {:induction false} DecimalLength(n: nat, k: nat)
    requires k > 0 && n < Pow10(k)
    ensures |Text(n, 10, LOWER_A)| <= k
    decreases k
  {
    if n >= 10 {
      DecimalLength(n / 10, k - 1);
    }
  }

  /** Base ten needs at most ten digits for 32 bits, so buffer[12] has room. */
  lemma {:induction false} DecimalFits(n: nat)
    requires n < 0x1_0000_0000
    ensures |Text(n, 10, LOWER_A)| <= 10
  {
    assert Pow10(5) == 100_000;
    assert Pow10(10) == 100_000 * Pow10(5);
    DecimalLength(n, 10);
  }

  // ---------- reversal ----------

  function Reversed(s: seq<byte>): (r: seq<byte>)
    ensures |r| == |s|
    ensures forall i :: 0 <= i < |s| ==> r[i] == s[|s| - 1 - i]
  {
    seq(|s|, i requires 0 <= i < |s| => s[|s| - 1 - i])
  }

  /** What the digit loops keep: the digits written so far, last first, and the numeral
      of what is left in front of them. */
  ghost predicate Splits(all: seq<byte>, left: nat, base: nat, ten: byte, written: seq<byte>)
    requires 2 <= base <= 16 && ten in {LOWER_A, UPPER_A}
  {
    all == (if left == 0 then [] else Text(left, base, ten)) + Reversed(written)
  }

  lemma {:induction false} NextDigit(all: seq<byte>, left: nat, base: nat, ten: byte, written: seq<byte>)
    requires 2 <= base <= 16 && ten in {LOWER_A, UPPER_A}
    requires if left > 0 then Splits(all, left, base, ten, written) else written == [] && all == Text(0, base, ten)
    ensures Splits(all, left / base, base, ten, written + [DigitChar(left % base, ten)])
  {
    var d := DigitChar(left % base, ten);
    assert Reversed(written + [d]) == [d] + Reversed(written);
    if left < base {
      SmallNumber(left, base);
    } else {
      Halves(left, base);
      assert Text(left, base, ten) == Text(left / base, base, ten) + [d];
    }
  }

  lemma {:induction false} StartDigits(all: seq<byte>, n: nat, base: nat, ten: byte)
    requires 2 <= base <= 16 && ten in {LOWER_A, UPPER_A} && all == Text(n, base, ten)
    ensures n > 0 ==> Splits(all, n, base, ten, [])
  {
    assert Reversed([]) == [];
    assert all + [] == all;
  }

  /** As long as something is left, there is a digit to write; in the end the digits
      written are the numeral backwards. */
  lemma DigitsLeft(all: seq<byte>, left: nat, base: nat, ten: byte, written: seq<byte>)
    requires 2 <= base <= 16 && ten in {LOWER_A, UPPER_A} && Splits(all, left, base, ten, written)
    ensures left > 0 ==> |written| < |all|
    ensures left == 0 ==> written == Reversed(all) && all == Reversed(written)
  {
    if left == 0 {
      assert all == Reversed(written);
    }
  }

  lemma DigitCharOf(d: nat, ten: byte)
    requires d < 16 && ten in {LOWER_A, UPPER_A}
    ensures DigitChar(d, ten) == if d < 10 then d + ZERO else d + ten - 10
  {
  }

  lemma OverwritePush(b: seq<byte>, o: nat, x: seq<byte>, c: byte)
    requires o + |x| < |b|
    ensures Overwrite(b, o, x)[o + |x| := c] == Overwrite(b, o, x + [c])
  {
  }

  lemma NothingWritten(b: seq<byte>, o: nat)
    requires o <= |b|
    ensures Overwrite(b, o, []) == b
  {
  }

  lemma SmallNumber(n: nat, base: nat)
    requires n < base
    ensures n / base == 0 && n % base == n
  {
  }

  // ---------- libsa/string.c ----------

  function Magnitude(d: int32): nat {
    if d < 0 then 0 - d as int else d
  }

  /** What itoa writes: a sign for negative numbers in base 'd', else the unsigned
      32-bit value, in base 16 for 'x' and in base 10 for anything else. */
  function ItoaText(base: byte, d: int32): seq<byte> {
    if base == LETTER_D && d < 0 then [MINUS] + Text(Magnitude(d), 10, LOWER_A)
    else Text(Wrap32(d), if base == LETTER_X then 16 else 10, LOWER_A)
  }

  method Itoa(buf: array<byte>, base: byte, d: int32)
    requires |ItoaText(base, d)| < buf.Length
    modifies buf
    ensures buf[..] == Overwrite(old(buf[..]), 0, ItoaText(base, d) + [0])
  {
    hide Text, Reversed;
    var start, p, ud, divisor := 0, 0, Wrap32(d) as nat, 10;
    ghost var before := buf[..];
    if base == LETTER_D && d < 0 {
      buf[p] := MINUS;
      p, start, ud := p + 1, start + 1, Magnitude(d);
    } else if base == LETTER_X {
      divisor := 16;
    }
    ghost var text := Text(ud, divisor, LOWER_A);
    ghost var sign := if start == 0 then [] else [MINUS];
    assert sign + text == ItoaText(base, d);
    assert buf[..] == Overwrite(before, 0, sign);
    p := WriteDigits(buf, start, ud, divisor, text);
    buf[p] := 0;
    ghost var turned := buf[..];
    Reverse(buf, start, p);
    Assembled(before, sign, text, turned, buf[..]);
  }

  /** Sign, digits turned round, terminator. */
  lemma Assembled(before: seq<byte>, sign: seq<byte>, text: seq<byte>, turned: seq<byte>, now: seq<byte>)
    requires |sign| + |text| < |before|
    requires turned == Overwrite(Overwrite(before, 0, sign), |sign|, Reversed(text))[|sign| + |text| := 0]
    requires now == Overwrite(turned, |sign|, Reversed(turned[|sign|..|sign| + |text|]))
    ensures now == Overwrite(before, 0, sign + text + [0])
  {
    hide Reversed;
    ReversedTwice(text);
    MiddleOf(Overwrite(before, 0, sign), |sign|, Reversed(text), turned);
    TurnedAgain(before, sign, text, Reversed(text), turned, now);
  }

  lemma ReversedTwice(s: seq<byte>)
    ensures |Reversed(s)| == |s| && Reversed(Reversed(s)) == s
  {
  }

  lemma MiddleOf(b: seq<byte>, o: nat, x: seq<byte>, turned: seq<byte>)
    requires o + |x| < |b| && turned == Overwrite(b, o, x)[o + |x| := 0]
    ensures turned[o..o + |x|] == x
  {
  }

  lemma TurnedAgain(
    before: seq<byte>, sign: seq<byte>, text: seq<byte>, back: seq<byte>, turned: seq<byte>, now: seq<byte>)
    requires |sign| + |text| < |before| && |back| == |text|
    requires turned == Overwrite(Overwrite(before, 0, sign), |sign|, back)[|sign| + |text| := 0]
    requires now == Overwrite(turned, |sign|, text)
    ensures now == Overwrite(before, 0, sign + text + [0])
  {
  }

  lemma AssembledUnsigned(before: seq<byte>, text: seq<byte>, turned: seq<byte>, now: seq<byte>)
    requires |text| < |before| && turned == Overwrite(before, 0, Reversed(text))[|text| := 0]
    requires now == Overwrite(turned, 0, Reversed(turned[..|text|]))
    ensures now == Overwrite(before, 0, text + [0])
  {
    hide Reversed;
    ReversedTwice(text);
    MiddleOf(before, 0, Reversed(text), turned);
    assert turned[0..|text|] == turned[..|text|];
    TurnedOnce(before, text, Reversed(text), turned, now);
  }

  lemma TurnedOnce(before: seq<byte>, text: seq<byte>, back: seq<byte>, turned: seq<byte>, now: seq<byte>)
    requires |text| < |before| && |back| == |text| && turned == Overwrite(before, 0, back)[|text| := 0]
    requires now == Overwrite(turned, 0, text)
    ensures now == Overwrite(before, 0, text + [0])
  {
  }

  /** The do-while: digits of ud from position start on, least significant first. */
  method WriteDigits(buf: array<byte>, start: nat, value: nat, divisor: nat, ghost text: seq<byte>) returns (p: nat)
    requires 2 <= divisor <= 16 && text == Text(value, divisor, LOWER_A) && start + |text| < buf.Length
    modifies buf
    ensures p == start + |text|
    ensures buf[..] == Overwrite(old(buf[..]), start, Reversed(text))
  {
    hide Text, Reversed, Splits, DigitChar, Overwrite;
    ghost var before := buf[..];
    var ud: nat := value;
    ghost var written: seq<byte> := [];
    p := start;
    NothingWritten(before, start);
    StartDigits(text, value, divisor, LOWER_A);
    while true
      invariant p == start + |written| && |written| < |text|
      invariant buf[..] == Overwrite(before, start, written)
      invariant if ud > 0 then Splits(text, ud, divisor, LOWER_A, written)
                else written == [] && text == Text(0, divisor, LOWER_A)
      decreases |text| - |written|
    {
      NextDigit(text, ud, divisor, LOWER_A, written);
      DigitsLeft(text, ud / divisor, divisor, LOWER_A, written + [DigitChar(ud % divisor, LOWER_A)]);
      var remainder := ud % divisor;
      DigitCharOf(remainder, LOWER_A);
      var c: byte := if remainder < 10 then remainder + ZERO else remainder + LOWER_A - 10;
      OverwritePush(before, start, written, c);
      buf[p] := c;
      written := written + [c];
      p := p + 1;
      ud := ud / divisor;
      if ud == 0 {
        break;
      }
    }
  }

  /** Swaps from both ends of buf[start..p] inwards. */
  method Reverse(buf: array<byte>, start: nat, p: nat)
    requires start < p <= buf.Length
    modifies buf
    ensures buf[..] == Overwrite(old(buf[..]), start, Reversed(old(buf[start..p])))
  {
    ghost var before := buf[..];
    var p1, p2 := start, p - 1;
    hide Reversed, Overwrite;
    while p1 < p2
      invariant start <= p1 <= p2 + 1 <= p && p1 - start == p - 1 - p2
      invariant forall k :: 0 <= k < start || p <= k < buf.Length || p1 <= k <= p2 ==> buf[k] == before[k]
      invariant forall k :: start <= k < p1 || p2 < k < p ==> buf[k] == before[start + p - 1 - k]
    {
      buf[p1], buf[p2] := buf[p2], buf[p1];
      p1 := p1 + 1;
      p2 := p2 - 1;
    }
    TurnedRange(before, buf[..], start, p);
    assert before[start..p] == old(buf[start..p]);
  }

  lemma TurnedRange(before: seq<byte>, now: seq<byte>, start: nat, p: nat)
    requires start <= p <= |before| == |now|
    requires forall k :: 0 <= k < start || p <= k < |now| ==> now[k] == before[k]
    requires forall k :: start <= k < p ==> now[k] == before[start + p - 1 - k]
    ensures now == Overwrite(before, start, Reversed(before[start..p]))
  {
    var r := Reversed(before[start..p]);
    assert forall k :: start <= k < p ==> now[k] == r[k - start];
  }

  // ---------- libsa/stdio.c ----------

  /** Decimal digits of a positive number; a negative number gives the empty string, and
      zero only its digit, without a terminator. */
  method IntToStr(num: int32, str: array<byte>)
    requires str.Length > if num > 0 then |Text(num, 10, LOWER_A)| else 0
    modifies str
    ensures num > 0 ==> str[..] == Overwrite(old(str[..]), 0, Text(num, 10, LOWER_A) + [0])
    ensures num == 0 ==> str[..] == Overwrite(old(str[..]), 0, [ZERO])
    ensures num < 0 ==> str[..] == Overwrite(old(str[..]), 0, [0])
  {
    if num == 0 {
      str[0] := ZERO;
    } else {
      ghost var before, text := str[..], if num > 0 then Text(num, 10, LOWER_A) else [];
      var i := DecimalDigits(num, str, text);
      hide Text, Reversed, Overwrite;
      str[i] := 0;
      ghost var turned := str[..];
      SwapHalves(str, i);
      AssembledUnsigned(before, text, turned, str[..]);
    }
  }

  /** The division loop, which a negative number does not enter. */
  method DecimalDigits(num: int32, str: array<byte>, ghost text: seq<byte>) returns (i: nat)
    requires text == (if num > 0 then Text(num, 10, LOWER_A) else []) && |text| < str.Length
    modifies str
    ensures i == |text| && str[..] == Overwrite(old(str[..]), 0, Reversed(text))
  {
    ghost var before := str[..];
    ghost var written: seq<byte> := [];
    if num > 0 {
      StartDigits(text, num, 10, LOWER_A);
    }
    NoDigits();
    hide Text, Reversed, Splits, DigitChar;
    var n: int := num;
    i := 0;
    while n > 0
      invariant 0 <= i == |written| <= |text|
      invariant str[..] == Overwrite(before, 0, written)
      invariant if num <= 0 then n == num && i == 0 else n >= 0 && Splits(text, n, 10, LOWER_A, written)
    {
      NextDigit(text, n, 10, LOWER_A, written);
      DigitsLeft(text, n, 10, LOWER_A, written);
      DigitCharOf(n % 10, LOWER_A);
      var c: byte := n % 10 + ZERO;
      OverwritePush(before, 0, written, c);
      str[i] := c;
      written := written + [c];
      i := i + 1;
      n := n / 10;
    }
    if num > 0 {
      DigitsLeft(text, 0, 10, LOWER_A, written);
    }
  }

  lemma NoDigits()
    ensures Reversed([]) == []
  {
  }

  /** The counting reversal: j and i - j - 1 for j below i / 2. */
  method SwapHalves(str: array<byte>, i: nat)
    requires i <= str.Length
    modifies str
    ensures str[..] == Overwrite(old(str[..]), 0, Reversed(old(str[..i])))
  {
    hide Reversed, Overwrite;
    ghost var before := str[..];
    var j := 0;
    while j < i / 2
      invariant 0 <= j <= i / 2
      invariant forall k :: j <= k < i - j || i <= k < str.Length ==> str[k] == before[k]
      invariant forall k :: 0 <= k < j || i - j <= k < i ==> str[k] == before[i - 1 - k]
    {
      var temp := str[j];
      str[j] := str[i - j - 1];
      str[i - j - 1] := temp;
      j := j + 1;
    }
    TurnedRange(before, str[..], 0, i);
    assert before[0..i] == old(str[..i]);
  }

  // ---------- libsyscall/vSh/term/vSh/info.h ----------

  /** Digits of a non-negative number in bases 2 to 16, through a buffer of 32 bytes; the
      empty string for any other base. */
  method IntToStrBase(num: int32, str: array<byte>, base: int32)
    requires num >= 0
    requires str.Length > if 2 <= base <= 16 then |Text(num, base, UPPER_A)| else 0
    modifies str
    ensures str[..] == Overwrite(old(str[..]), 0, (if 2 <= base <= 16 then Text(num, base, UPPER_A) else []) + [0])
  {
    if base < 2 || base > 16 {
      str[0] := 0;
      return;
    }
    if num == 0 {
      str[0] := ZERO;
      str[1] := 0;
      return;
    }
    ghost var before, text := str[..], Text(num, base, UPPER_A);
    IntFitsTemp(num, base, UPPER_A);
    var temp := new byte[32];
    var i := FillTemp(num, temp, base, text);
    hide Text;
    temp[i] := 0;
    var j := 0;
    assert text[..0] == [];
    while j < i
      invariant 0 <= j <= i && temp[..i] == Reversed(text)
      invariant str[..] == Overwrite(before, 0, text[..j])
    {
      assert temp[i - j - 1] == temp[..i][i - j - 1] == text[j];
      OverwriteOneMore(before, 0, text, j);
      str[j] := temp[i - j - 1];
      j := j + 1;
    }
    assert text[..j] == text;
    OverwritePush(before, 0, text, 0);
    str[j] := 0;
  }

  /** The division loop: digits into temp, least significant first. */
  method FillTemp(num: int32, temp: array<byte>, base: int32, ghost text: seq<byte>) returns (i: nat)
    requires num > 0 && 2 <= base <= 16 && text == Text(num, base, UPPER_A) && |text| < temp.Length
    modifies temp
    ensures i == |text| && temp[..i] == Reversed(text)
  {
    hide Reversed, Splits, DigitChar;
    ghost var written: seq<byte> := [];
    StartDigits(text, num, base, UPPER_A);
    hide Text;
    var n: int := num;
    i := 0;
    while n != 0
      invariant 0 <= i == |written| <= |text| && n >= 0
      invariant temp[..i] == written
      invariant Splits(text, n, base, UPPER_A, written)
      decreases n
    {
      NextDigit(text, n, base, UPPER_A, written);
      DigitsLeft(text, n, base, UPPER_A, written);
      if n >= base {
        Halves(n, base);
      } else {
        SmallNumber(n, base);
      }
      var remainder := n % base;
      DigitCharOf(remainder, UPPER_A);
      var c: byte := if remainder > 9 then remainder - 10 + UPPER_A else remainder + ZERO;
      temp[i] := c;
      assert temp[..i + 1] == written + [c];
      written := written + [c];
      i := i + 1;
      n := n / base;
    }
    DigitsLeft(text, 0, base, UPPER_A, written);
  }

  // ---------- agreement ----------

  /** For a positive number the three routines write the same decimal digits. */
  lemma {:induction false} DecimalsAgree(n: nat)
    ensures Text(n, 10, LOWER_A) == Text(n, 10, UPPER_A)
    decreases n
  {
    if n >= 10 {
      DecimalsAgree(n / 10);
    }
  }

  /** Reading itoa's output back: in base 'd' (100) a minus sign (45) and the number without
      its sign when it is negative, and the number itself when it is not; in base 'x' (120)
      the number modulo 2^32 in hexadecimal; in any other base that in decimal. */
  lemma ItoaRoundTrip(base: byte, d: int32)
    ensures var s := ItoaText(base, d);
      if base == 100 && d < 0 then
        s[0] == 45 && Value(s[1..], 10, 97) == -(d as int) && IsNumeral(s[1..], 10, 97)
      else
        var radix, n := if base == 120 then 16 else 10, if d < 0 then d as int + 4_294_967_296 else d as int;
        Value(s, radix, 97) == n && IsNumeral(s, radix, 97) && s[0] != 45
  {
    var s := ItoaText(base, d);
    if base == LETTER_D && d < 0 {
      TextRoundTrip(Magnitude(d), 10, LOWER_A);
      assert s[1..] == Text(Magnitude(d), 10, LOWER_A);
      hide Text, Value, IsNumeral;
    } else {
      var radix := if base == LETTER_X then 16 else 10;
      TextRoundTrip(Wrap32(d), radix, LOWER_A);
      assert IsDigit(s[0], radix, LOWER_A);
      hide Text, Value, IsNumeral;
    }
  }
}
