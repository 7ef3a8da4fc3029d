/**
 * Printing numbers and formatted text into a character buffer. A C string is a sequence of
 * characters that ends at its first NUL, or, if it has none, at the NUL after its last character.
 */
module Klib {
  import opened Bits
  import opened Ints
  import opened Seqs

  // ----- helpers of the C library

  /** The text of the C string `s`. */
  function Text(s: string): string
  {
    if s == [] || s[0] == '\0' then [] else [s[0]] + Text(s[1..])
  }

  lemma {:induction false} TextStops(s: string, n: nat)
    requires n <= |s| && (n == |s| || s[n] == '\0') && '\0' !in s[..n]
    ensures Text(s) == s[..n]
  {
    if n > 0 {
      assert s[0] in s[..n];
      assert s[1..][..n - 1] == s[..n][1..];
      TextStops(s[1..], n - 1);
    }
  }

  /** The length of a C string; a null pointer counts as the empty string. */
  method Strlen(s: Option<string>) returns (len: nat)
    ensures len == if s.None? then 0 else |Text(s.value)|
  {
    if s.None? {
      return 0;
    }
    len := 0;
    while len < |s.value| && s.value[len] != '\0'
      invariant len <= |s.value| && '\0' !in s.value[..len]
    {
      len := len + 1;
    }
    TextStops(s.value, len);
  }

  /** Set the first `size` elements; nothing for a null pointer. */
  method Memset<T>(dest: array?<T>, v: T, size: nat)
    requires dest != null ==> size <= dest.Length
    modifies dest
    ensures dest != null ==> dest[..] == seq(size, _ => v) + old(dest[size..])
  {
    if dest == null || size == 0 {
      return;
    }
    var i := 0;
    while i < size
      invariant i <= size
      invariant forall j :: 0 <= j < dest.Length ==> dest[j] == if j < i then v else old(dest[j])
    {
      dest[i] := v;
      i := i + 1;
    }
  }

  /** `c0` with `s` written over it at position `at`. */
  function Patched(c0: string, at: nat, s: string): (c: string)
    requires at + |s| <= |c0|
    ensures |c| == |c0|
  {
    c0[..at] + s + c0[at + |s|..]
  }

  lemma PatchNone(c0: string, at: nat)
    requires at <= |c0|
    ensures Patched(c0, at, []) == c0
  {
  }

  lemma PatchMore(c0: string, at: nat, s: string, d: char)
    requires at + |s| < |c0|
    ensures Patched(c0, at, s)[at + |s| := d] == Patched(c0, at, s + [d])
    ensures s == [] ==> s + [d] == [d]
  {
  }

  lemma PatchTwice(c0: string, at: nat, s: string, r: string)
    requires at + |s| + |r| <= |c0|
    ensures Patched(Patched(c0, at, s), at + |s|, r) == Patched(c0, at, s + r)
  {
    var c1 := Patched(c0, at, s);
    assert c1[..at + |s|] == c0[..at] + s && c1[at + |s| + |r|..] == c0[at + |s| + |r|..];
  }

  /** The first of two pieces is written over with as many characters. */
  lemma PatchOver(c0: string, at: nat, s: string, r: string, s': string)
    requires at + |s| + |r| <= |c0| && |s'| == |s|
    ensures var c1 := Patched(c0, at, s + r);
            c1[at..at + |s|] == s && Patched(c1, at, s') == Patched(c0, at, s' + r)
  {
    var c1 := Patched(c0, at, s + r);
    assert c1[..at] == c0[..at];
    assert c1[at + |s|..] == r + c0[at + |s| + |r|..];
  }

  // ----- numbers

  /** Division and remainder of C: the quotient is rounded towards zero. */
  function Quot(n: int, b: int): int
    requires b > 0
  {
    if n >= 0 then n / b else -(-n / b)
  }

  function Rem(n: int, b: int): int
    requires b > 0
  {
    n - b * Quot(n, b)
  }

  function Abs(n: int): nat
  {
    if n >= 0 then n else -n
  }

  lemma QuotRem(n: int, b: int)
    requires IsBase(b)
    ensures Abs(Quot(n, b)) == Abs(n) / b && Abs(Rem(n, b)) == Abs(n) % b < b
    ensures Abs(Quot(n, b)) * b + Abs(Rem(n, b)) == Abs(n) && (n == 0 <==> Quot(n, b) == 0 && Rem(n, b) == 0)
    ensures -15 <= Rem(n, b) <= 15
    ensures n != 0 ==> Abs(n) / b < Abs(n)
  {
    var m := Abs(n);
    QuotIs(n, b);
    Divided(m, b);
    if m > 0 {
      Smaller(m, b);
    }
    hide Quot, Rem;
    MulComm(b, m / b);
  }

  lemma MulComm(x: int, y: int)
    ensures x * y == y * x
  {
  }

  lemma QuotIs(n: int, b: int)
    requires b > 0
    ensures var q, r := Abs(n) / b, Abs(n) - b * (Abs(n) / b);
            if n >= 0 then Quot(n, b) == q && Rem(n, b) == r else Quot(n, b) == -q && Rem(n, b) == -r
  {
    if n < 0 {
      MulNeg(b, -n / b);
    }
  }

  lemma MulNeg(x: int, y: int)
    ensures x * -y == -(x * y)
  {
  }

  /** Indexed by a remainder from -15 to 15, plus 15. */
  const NUMCHAR := "FEDCBA9876543210123456789ABCDEF"

  function DigitChar(r: int): char
    requires -15 <= r <= 15
  {
    NUMCHAR[r + 15]
  }

  predicate IsBase(b: int)
  {
    b == 2 || b == 8 || b == 10 || b == 16
  }

  /** The digits of `n`, lowest first: at least one. */
  function LowFirst(n: int, b: int): (ds: string)
    requires IsBase(b)
    ensures ds != []
    decreases Abs(n)
  {
    QuotRem(n, b);
    [DigitChar(Rem(n, b))] + if Quot(n, b) == 0 then [] else LowFirst(Quot(n, b), b)
  }

  function Reversed(s: string): (r: string)
    ensures |r| == |s|
  {
    if s == [] then [] else Reversed(s[1..]) + [s[0]]
  }

  lemma {:induction false} ReversedAt(s: string, k: nat)
    requires k < |s|
    ensures Reversed(s)[k] == s[|s| - 1 - k]
  {
    if k < |s| - 1 {
      ReversedAt(s[1..], k);
    }
  }

  /** What is printed for `num`: nothing in a base that is not supported; a sign only in base 10. */
  function Printed(num: int, b: int): string
  {
    if !IsBase(b) then []
    else (if num < 0 && b == 10 then "-" else "") + Reversed(LowFirst(num, b))
  }

  /**
   * Print `num` at position `at`, with a NUL behind it. The digits are written lowest first and then
   * reversed in place.
   */
  method Itoa(num: int, buf: array<char>, at: nat, b: int)
    requires INT_MIN <= num <= INT_MAX
    requires at + |Printed(num, b)| < buf.Length
    modifies buf
    ensures buf[..] == Patched(old(buf[..]), at, Printed(num, b) + ['\0'])
  {
    hide Patched, LowFirst, Reversed, Printed;
    ghost var c0, text := buf[..], if IsBase(b) then Reversed(LowFirst(num, b)) + ['\0'] else [];
    PatchNone(c0, at);
    PrintedIs(num, b);
    if !IsBase(b) {
      PatchMore(c0, at, [], '\0');
      buf[at] := '\0';
      return;
    }
    var start := at;
    if num < 0 && b == 10 {
      PatchMore(c0, at, [], '-');
      PatchTwice(c0, at, "-", text);
      buf[start] := '-';
      start := start + 1;
    }
    PrintDigits(num, buf, start, b);
  }

  lemma PrintedIs(num: int, b: int)
    ensures !IsBase(b) ==> Printed(num, b) + ['\0'] == [] + ['\0']
    ensures IsBase(b) ==>
              var text := Reversed(LowFirst(num, b)) + ['\0'];
              Printed(num, b) + ['\0'] == if num < 0 && b == 10 then "-" + text else text
  {
    if IsBase(b) {
      var r := Reversed(LowFirst(num, b));
      assert Printed(num, b) == if num < 0 && b == 10 then "-" + r else [] + r;
      hide *;
      Associate("-", r, ['\0']);
      assert [] + r == r;
    }
  }

  /** The part of `Itoa` after the sign. */
  method PrintDigits(num: int, buf: array<char>, start: nat, b: int)
    requires IsBase(b) && start + |LowFirst(num, b)| < buf.Length
    modifies buf
    ensures buf[..] == Patched(old(buf[..]), start, Reversed(LowFirst(num, b)) + ['\0'])
  {
    hide *;
    ghost var ds, c0 := LowFirst(num, b), buf[..];
    var str := PrintLowFirst(num, buf, start, b);
    PatchMore(c0, start, ds, '\0');
    buf[str] := '\0';
    assert buf[..] == Patched(c0, start, ds + ['\0']);
    PatchOver(c0, start, ds, ['\0'], Reversed(ds));
    ReverseInPlace(buf, start, str - 1);
  }

  /** The first loop of `Itoa`: the digits, lowest first. */
  method PrintLowFirst(num: int, buf: array<char>, start: nat, b: int) returns (str: nat)
    requires IsBase(b) && start + |LowFirst(num, b)| <= buf.Length
    modifies buf
    ensures str == start + |LowFirst(num, b)|
    ensures buf[..] == Patched(old(buf[..]), start, LowFirst(num, b))
  {
    hide LowFirst, Quot, Rem, Abs, Patched, DigitChar;
    ghost var low: string, c0 := "", buf[..];
    str := start;
    var n, more := num, true;
    PatchNone(c0, start);
    while more
      invariant if more then low + LowFirst(n, b) == LowFirst(num, b) else low == LowFirst(num, b)
      invariant str == start + |low| && buf[..] == Patched(c0, start, low)
      decreases more, Abs(n)
    {
      DigitOut(num, n, b, low);
      var d := DigitChar(Rem(n, b));
      PatchMore(c0, start, low, d);
      ghost var c := buf[..];
      buf[str] := d;
      assert buf[..] == c[str := d];
      str := str + 1;
      n := Quot(n, b);
      more := n != 0;
      low := low + [d];
    }
  }

  /** The next digit of `num`, when those in `low` are out. */
  lemma DigitOut(num: int, n: int, b: int, low: string)
    requires IsBase(b) && low + LowFirst(n, b) == LowFirst(num, b)
    ensures -15 <= Rem(n, b) <= 15 && |low| < |LowFirst(num, b)|
    ensures var more := low + [DigitChar(Rem(n, b))];
            LowFirst(num, b) == if Quot(n, b) != 0 then more + LowFirst(Quot(n, b), b) else more
    ensures Quot(n, b) != 0 ==> Abs(Quot(n, b)) < Abs(n)
  {
    hide LowFirst, Quot, Rem, Abs, DigitChar;
    LowFirstStep(n, b);
    if Quot(n, b) != 0 {
      Associate(low, [DigitChar(Rem(n, b))], LowFirst(Quot(n, b), b));
    }
  }

  /** The last digit of `n` comes first; the others are those of the quotient. */
  lemma LowFirstStep(n: int, b: int)
    requires IsBase(b)
    ensures -15 <= Rem(n, b) <= 15
    ensures LowFirst(n, b) == [DigitChar(Rem(n, b))] + if Quot(n, b) == 0 then [] else LowFirst(Quot(n, b), b)
    ensures if n == 0 then Quot(n, b) == 0 else Abs(Quot(n, b)) < Abs(n)
  {
    hide DigitChar, Quot, Rem, Abs;
    QuotRem(n, b);
    AbsZero(n);
    AbsZero(Quot(n, b));
  }

  lemma AbsZero(n: int)
    ensures Abs(n) == 0 <==> n == 0
  {
  }

  /** `c` is `c0` with the characters from `lo` to `start - 1` exchanged for those at the other end. */
  predicate HalfReversed(c0: string, c: string, lo: nat, hi: int, start: nat)
    requires hi < |c0|
  {
    && |c| == |c0|
    && forall j {:trigger c[j]} :: 0 <= j < |c0| ==>
         c[j] == if lo <= j <= hi && !(start <= j <= lo + hi - start) then c0[lo + hi - j] else c0[j]
  }

  lemma SwapMore(c0: string, c: string, lo: nat, hi: int, start: nat)
    requires hi < |c0| && lo <= start < lo + hi - start && HalfReversed(c0, c, lo, hi, start)
    ensures var str := lo + hi - start; HalfReversed(c0, c[start := c[str]][str := c[start]], lo, hi, start + 1)
  {
    var str := lo + hi - start;
    var c' := c[start := c[str]][str := c[start]];
    assert c[str] == c0[str] && c[start] == c0[start];
    forall j | 0 <= j < |c0|
      ensures c'[j] == if lo <= j <= hi && !(start + 1 <= j <= str - 1) then c0[lo + hi - j] else c0[j]
    {
      if j == start {
        assert c'[j] == c[str] == c0[str] == c0[lo + hi - j];
      } else if j == str {
        assert c'[j] == c[start] == c0[start] == c0[lo + hi - j];
      } else {
        assert c'[j] == c[j];
      }
    }
  }

  lemma PatchedAt(c0: string, at: nat, s: string, j: nat)
    requires at + |s| <= |c0| && j < |c0|
    ensures Patched(c0, at, s)[j] == if at <= j < at + |s| then s[j - at] else c0[j]
  {
  }

  lemma AllReversed(c0: string, c: string, lo: nat, hi: int, start: nat)
    requires lo <= hi + 1 && hi < |c0| && lo <= start && lo + hi - start <= start
    requires HalfReversed(c0, c, lo, hi, start)
    ensures c == Patched(c0, lo, Reversed(c0[lo..hi + 1]))
  {
    var s := c0[lo..hi + 1];
    var p := Patched(c0, lo, Reversed(s));
    forall j | 0 <= j < |c0| ensures c[j] == p[j] {
      PatchedAt(c0, lo, Reversed(s), j);
      if lo <= j <= hi {
        ReversedAt(s, j - lo);
        assert c[j] == c0[lo + hi - j];
      }
    }
    hide Patched, Reversed, HalfReversed;
    assert |c| == |p| by {
      assert |c| == |c0|;
    }
  }

  /** Exchange the characters from `lo` to `hi` end for end. */
  method ReverseInPlace(buf: array<char>, lo: nat, hi: int)
    requires lo <= hi + 1 && hi < buf.Length
    modifies buf
    ensures buf[..] == Patched(old(buf[..]), lo, Reversed(old(buf[lo..hi + 1])))
  {
    hide HalfReversed, Patched, Reversed;
    ghost var c0 := buf[..];
    assert c0[lo..hi + 1] == buf[lo..hi + 1];
    var start, str := lo, hi;
    NoneReversed(c0, lo, hi);
    while start < str
      invariant lo <= start && str == lo + hi - start
      invariant HalfReversed(c0, buf[..], lo, hi, start)
    {
      ghost var c := buf[..];
      SwapMore(c0, c, lo, hi, start);
      var temp := buf[start];
      buf[start] := buf[str];
      buf[str] := temp;
      assert buf[..] == c[start := c[str]][str := c[start]];
      start := start + 1;
      str := str - 1;
    }
    AllReversed(c0, buf[..], lo, hi, start);
  }

  lemma NoneReversed(c0: string, lo: nat, hi: int)
    requires hi < |c0|
    ensures HalfReversed(c0, c0, lo, hi, lo)
  {
  }

  // ----- reading numbers back

  function DigitValue(c: char): nat
  {
    if '0' <= c <= '9' then c as int - '0' as int
    else if 'A' <= c <= 'F' then c as int - 'A' as int + 10
    else 99
  }

  /** The number that the digits `s` stand for. */
  function Value(s: string, b: nat): nat
  {
    if s == [] then 0 else Value(s[..|s| - 1], b) * b + DigitValue(s[|s| - 1])
  }

  function Parse(s: string, b: nat): int
  {
    if s != [] && s[0] == '-' then -(Value(s[1..], b) as int) else Value(s, b) as int
  }

  lemma NumcharDigit(r: int)
    requires -15 <= r <= 15
    ensures DigitValue(DigitChar(r)) == Abs(r)
    ensures DigitChar(r) == '0' <==> r == 0
    ensures DigitChar(r) != '-' && DigitChar(r) != '\0'
  {
  }

  /** Each character is a digit of base `b`. */
  predicate Digits(s: string, b: nat)
  {
    forall k :: 0 <= k < |s| ==> DigitValue(s[k]) < b && s[k] != '-' && s[k] != '\0'
  }

  lemma {:induction false} DigitsMean(n: int, b: int)
    requires IsBase(b)
    ensures var r := Reversed(LowFirst(n, b));
            && Value(r, b) == Abs(n) && Digits(r, b)
            && (r[0] == '0' <==> n == 0) && (r[0] == '0' ==> |r| == 1)
    decreases Abs(n)
  {
    hide LowFirst, Reversed, Value, DigitChar, DigitValue, Quot, Rem, Abs, Digits;
    LowFirstStep(n, b);
    DigitsShift(n, b);
    if Quot(n, b) == 0 {
      OneDigit(n, b);
    } else {
      DigitsMean(Quot(n, b), b);
      MoreDigits(n, b, Reversed(LowFirst(Quot(n, b), b)), Reversed(LowFirst(n, b)));
    }
  }

  /** What the one digit of a small number means. */
  lemma OneDigit(n: int, b: int)
    requires IsBase(b) && -15 <= Rem(n, b) <= 15 && Quot(n, b) == 0
    requires var r := Reversed(LowFirst(n, b)); r == [DigitChar(Rem(n, b))] && Value(r, b) == DigitValue(r[0])
    ensures var r := Reversed(LowFirst(n, b)); Value(r, b) == Abs(n) && Digits(r, b) && (r[0] == '0' <==> n == 0)
  {
    QuotRem(n, b);
    NumcharDigit(Rem(n, b));
    hide LowFirst, Reversed, Value, DigitChar, DigitValue;
  }

  /** What the digits `r` of a number mean, from those of its quotient, `rq`. */
  lemma MoreDigits(n: int, b: int, rq: string, r: string)
    requires IsBase(b) && -15 <= Rem(n, b) <= 15 && Quot(n, b) != 0 && rq != []
    requires r == rq + [DigitChar(Rem(n, b))]
    requires Value(r, b) == Value(rq, b) * b + DigitValue(DigitChar(Rem(n, b)))
    requires Value(rq, b) == Abs(Quot(n, b)) && Digits(rq, b) && rq[0] != '0'
    ensures Value(r, b) == Abs(n) && Digits(r, b) && r[0] != '0' && n != 0
  {
    hide Value, DigitChar, DigitValue, Quot, Rem, Abs, Digits;
    QuotRem(n, b);
    AbsZero(n);
    AbsZero(Quot(n, b));
    NumcharDigit(Rem(n, b));
    DigitsMore(rq, DigitChar(Rem(n, b)), b);
  }

  lemma DigitsMore(s: string, d: char, b: nat)
    requires Digits(s, b) && DigitValue(d) < b && d != '-' && d != '\0'
    ensures Digits(s + [d], b)
  {
  }

  /** The digits of the quotient, then the last digit. */
  lemma DigitsShift(n: int, b: int)
    requires IsBase(b)
    ensures -15 <= Rem(n, b) <= 15
    ensures Reversed(LowFirst(n, b)) != []
    ensures var q, d, r := Quot(n, b), DigitChar(Rem(n, b)), Reversed(LowFirst(n, b));
            r == (if q == 0 then [] else Reversed(LowFirst(q, b))) + [d] &&
            Value(r, b) == (if q == 0 then 0 else Value(Reversed(LowFirst(q, b)), b)) * b + DigitValue(d)
  {
    QuotRem(n, b);
    var q, d := Quot(n, b), DigitChar(Rem(n, b));
    var ds, r := LowFirst(n, b), Reversed(LowFirst(n, b));
    assert ds[0] == d && ds[1..] == if q == 0 then [] else LowFirst(q, b);
    hide LowFirst, DigitChar, DigitValue;
    assert Reversed([]) == [];
    assert r[..|r| - 1] == Reversed(ds[1..]);
  }

  function Pow(b: nat, k: nat): nat
  {
    if k == 0 then 1 else b * Pow(b, k - 1)
  }

  lemma {:induction false} DigitsFit(n: int, b: int, k: nat)
    requires IsBase(b) && k >= 1 && Abs(n) < Pow(b, k)
    ensures |LowFirst(n, b)| <= k
    decreases k
  {
    QuotRem(n, b);
    if Quot(n, b) != 0 {
      assert Pow(b, k) == b * Pow(b, k - 1) && Pow(b, 0) == 1;
      assert Abs(n) / b < Pow(b, k - 1);
      DigitsFit(Quot(n, b), b, k - 1);
    }
  }

  /**
   * What is printed for a 32-bit number reads back as that number in base 10, the least one included,
   * and as its magnitude in bases 2, 8 and 16; in any other base nothing is printed.
   */
  lemma PrintedReadsBack(num: int, b: int)
    ensures if b == 10 then Parse(Printed(num, b), b) == num
            else if b == 2 || b == 8 || b == 16 then Parse(Printed(num, b), b) == if num >= 0 then num else -num
            else Printed(num, b) == []
  {
    if IsBase(b) {
      DigitsMean(num, b);
      var r := Reversed(LowFirst(num, b));
      if num < 0 && b == 10 {
        assert Printed(num, b)[1..] == r;
      } else {
        assert Printed(num, b) == r && r[0] != '-';
      }
    }
  }

  /** Digits of the base only, after the sign; no leading zero; different numbers print differently. */
  lemma PrintedCanonical(num: int, b: int)
    requires b == 2 || b == 8 || b == 10 || b == 16
    ensures var t := Printed(num, b);
            var ds := if num < 0 && b == 10 then t[1..] else t;
            && Digits(ds, b) && ds != [] && (ds[0] == '0' ==> ds == "0" && num == 0)
            && '\0' !in t
  {
    DigitsMean(num, b);
    var r := Reversed(LowFirst(num, b));
    if num < 0 && b == 10 {
      assert Printed(num, b)[1..] == r && Printed(num, b) == "-" + r;
    }
  }

  lemma PrintedFits(num: int, b: int)
    requires INT_MIN <= num <= INT_MAX
    ensures |Printed(num, b)| < 33
    ensures b == 10 || b == 16 ==> |Printed(num, b)| < 12
  {
    if IsBase(b) {
      PowTwo32();
      if b == 10 {
        DigitsFit(num, 10, 10);
      } else if b == 2 {
        DigitsFit(num, 2, 32);
      } else if b == 8 {
        DigitsFit(num, 8, 11);
      } else {
        DigitsFit(num, 16, 8);
      }
    }
  }

  lemma {:induction false} PowAdd(b: nat, i: nat, j: nat)
    ensures Pow(b, i + j) == Pow(b, i) * Pow(b, j)
  {
    if i > 0 {
      PowAdd(b, i - 1, j);
      MulAssoc(b, Pow(b, i - 1), Pow(b, j));
    }
  }

  lemma MulAssoc(x: nat, y: nat, z: nat)
    ensures x * (y * z) == x * y * z
  {
  }

  lemma PowTwo32()
    ensures Pow(2, 32) == 0x1_0000_0000 && Pow(16, 8) == 0x1_0000_0000 && Pow(8, 11) == 0x2_0000_0000
    ensures Pow(10, 10) == 10_000_000_000
  {
    assert Pow(2, 8) == 256 && Pow(16, 4) == 65536 && Pow(8, 5) == 32768 && Pow(8, 6) == 262144 && Pow(10, 5) == 100_000;
    PowAdd(2, 8, 8);
    PowAdd(2, 16, 16);
    PowAdd(16, 4, 4);
    PowAdd(8, 5, 6);
    PowAdd(10, 5, 5);
  }
}
