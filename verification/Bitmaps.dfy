/** Bitmaps packed into bytes, and the scan for a run of equal bits. */
module Bitmaps {
  import opened Klib

  /** One bit of a byte: 1 shifted left by `k`. */
  function Mask(k: nat): bv8
    requires k < 8
  {
    if k == 0 then 1 else if k == 1 then 2 else if k == 2 then 4 else if k == 3 then 8
    else if k == 4 then 16 else if k == 5 then 32 else if k == 6 then 64 else 128
  }

  predicate Has(x: bv8, k: nat)
    requires k < 8
  {
    x & Mask(k) != 0
  }

  /** A byte with one bit set or cleared. */
  function WithBit(x: bv8, k: nat, v: bool): bv8
    requires k < 8
  {
    if v then x | Mask(k) else x & !Mask(k)
  }

  lemma WithBitHas(x: bv8, j: nat, v: bool, k: nat)
    requires j < 8 && k < 8
    ensures Has(WithBit(x, j, v), k) == if j == k then v else Has(x, k)
  {
  }

  /** Bit `i` of a bitmap is bit `i % 8`, counted from the lowest, of byte `i / 8`. */
  lemma BitOrder(bytes: seq<bv8>, n: nat, i: nat)
    requires n <= 8 * |bytes| && i < n
    ensures Unpack(bytes, n)[i] <==> (bytes[i / 8] >> (i % 8)) & 1 == 1
  {
    LowestFirst(bytes[i / 8], i % 8);
  }

  lemma LowestFirst(x: bv8, k: nat)
    requires k < 8
    ensures Has(x, k) <==> (x >> k) & 1 == 1
  {
    match k
    case 0 => assert Has(x, 0) <==> (x >> 0) & 1 == 1;
    case 1 => assert Has(x, 1) <==> (x >> 1) & 1 == 1;
    case 2 => assert Has(x, 2) <==> (x >> 2) & 1 == 1;
    case 3 => assert Has(x, 3) <==> (x >> 3) & 1 == 1;
    case 4 => assert Has(x, 4) <==> (x >> 4) & 1 == 1;
    case 5 => assert Has(x, 5) <==> (x >> 5) & 1 == 1;
    case 6 => assert Has(x, 6) <==> (x >> 6) & 1 == 1;
    case 7 => assert Has(x, 7) <==> (x >> 7) & 1 == 1;
  }

  lemma MaskUniform(k: nat)
    requires k < 8
    ensures Has(0xff, k) && !Has(0, k)
  {
  }

  /** The first `n` bits that the bytes hold. */
  function Unpack(bytes: seq<bv8>, n: nat): (b: seq<bool>)
    requires n <= 8 * |bytes|
    ensures |b| == n && forall i :: 0 <= i < n ==> b[i] == Has(bytes[i / 8], i % 8)
  {
    seq(n, i requires 0 <= i < n => Has(bytes[i / 8], i % 8))
  }

  lemma UnpackSet(bytes: seq<bv8>, n: nat, at: nat, v: bool)
    requires n <= 8 * |bytes| && at < n
    ensures Unpack(bytes[at / 8 := WithBit(bytes[at / 8], at % 8, v)], n) == Unpack(bytes, n)[at := v]
  {
    var bytes' := bytes[at / 8 := WithBit(bytes[at / 8], at % 8, v)];
    hide Has, WithBit;
    forall i | 0 <= i < n ensures Has(bytes'[i / 8], i % 8) == if i == at then v else Has(bytes[i / 8], i % 8) {
      ByteSet(bytes, i, at, v);
    }
  }

  lemma ByteSet(bytes: seq<bv8>, i: nat, at: nat, v: bool)
    requires at < 8 * |bytes| && i < 8 * |bytes|
    ensures Has(bytes[at / 8 := WithBit(bytes[at / 8], at % 8, v)][i / 8], i % 8) ==
            if i == at then v else Has(bytes[i / 8], i % 8)
  {
    hide *;
    WithBitHas(bytes[at / 8], at % 8, v, i % 8);
    SameBit(i, at);
  }

  lemma SameBit(i: nat, j: nat)
    ensures i / 8 == j / 8 && i % 8 == j % 8 ==> i == j
  {
  }

  /** `b` with the bits from `index` on set to `v`: `count` of them, as far as there are so many. */
  function Fill(b: seq<bool>, index: nat, count: int, v: bool): (c: seq<bool>)
    ensures |c| == |b|
  {
    seq(|b|, i requires 0 <= i < |b| => if index <= i < index + count then v else b[i])
  }

  /** The scan compares the 0 or 1 of a bit with any integer. */
  predicate Equals(b: bool, bit: int)
  {
    bit == if b then 1 else 0
  }

  // ----- the scan

  /** The number of bits that the scan looks at: one less than asked for, but at least one. */
  function Checked(count: int): nat
  {
    if count > 2 then count - 1 else 1
  }

  /** The scan stops at `i`: that many bits from there on equal `bit`. */
  predicate RunAt(b: seq<bool>, bit: int, count: int, i: nat)
  {
    i + Checked(count) <= |b| && forall j :: i <= j < i + Checked(count) ==> Equals(b[j], bit)
  }

  /** The least position from `from` on where the scan stops, or -1. */
  function FirstRun(b: seq<bool>, bit: int, count: int, from: nat): (r: int)
    ensures r == -1 || (from <= r && RunAt(b, bit, count, r))
    ensures forall i: nat :: from <= i && (r == -1 || i < r) ==> !RunAt(b, bit, count, i)
    decreases |b| - from
  {
    if from >= |b| then -1
    else if RunAt(b, bit, count, from) then from
    else FirstRun(b, bit, count, from + 1)
  }

  lemma {:induction false} Skip(b: seq<bool>, bit: int, count: int, from: nat, n: nat)
    requires forall i: nat :: from <= i < from + n ==> !RunAt(b, bit, count, i)
    ensures FirstRun(b, bit, count, from) == FirstRun(b, bit, count, from + n)
    decreases n
  {
    if n > 0 && from < |b| {
      Skip(b, bit, count, from + 1, n - 1);
    }
  }

  /** A bit that differs, `i - 1` behind `start`: no run starts from `start` up to there. */
  lemma Differs(b: seq<bool>, bit: int, count: int, start: nat, i: nat)
    requires i >= 1 && start + i <= |b| && !Equals(b[start + i - 1], bit) && (i == 1 || i < count)
    ensures FirstRun(b, bit, count, start) == FirstRun(b, bit, count, start + i)
  {
    Skip(b, bit, count, start, i);
  }

  /** The end of the bitmap comes too early. */
  lemma NoRoom(b: seq<bool>, bit: int, count: int, start: nat, i: nat)
    requires 1 <= i < count && start + i - 1 == |b|
    ensures FirstRun(b, bit, count, start) == FirstRun(b, bit, count, |b|)
  {
    Skip(b, bit, count, start, i - 1);
  }

  lemma Found(b: seq<bool>, bit: int, count: int, start: nat, i: nat)
    requires start < |b| && Equals(b[start], bit) && i >= 1 && i >= count && (i == 1 || i == count) && start + i - 1 <= |b|
    requires forall j :: start <= j < start + i - 1 ==> Equals(b[j], bit)
    ensures FirstRun(b, bit, count, start) == start
  {
    assert RunAt(b, bit, count, start);
  }

  // ----- what the scan is good for

  /** The `count` bits from `i` on are there and equal `bit`: what a caller asks for. */
  predicate WholeRun(b: seq<bool>, bit: int, count: int, i: nat)
  {
    i + count <= |b| && forall j :: i <= j < i + count ==> Equals(b[j], bit)
  }

  /** A stretch of equal bits that is one bit short: the last one is missing or differs. */
  predicate CutShort(b: seq<bool>, bit: int, count: int, i: nat)
  {
    && count > 1 && i + count - 1 <= |b|
    && (forall j :: i <= j < i + count - 1 ==> Equals(b[j], bit))
    && (i + count > |b| || !Equals(b[i + count - 1], bit))
  }

  /** Every stretch that is one bit short comes behind a whole run. */
  ghost predicate WholeRunsFirst(b: seq<bool>, bit: int, count: int, from: nat)
  {
    forall i: nat :: from <= i && CutShort(b, bit, count, i) ==> exists j: nat :: from <= j < i && WholeRun(b, bit, count, j)
  }

  /**
   * The scan answers with a whole run or with -1 if and only if, from `from` on, every stretch that is
   * one bit short comes behind a whole run. Then it answers with the first whole run, and with -1 only
   * if there is none.
   */
  lemma ScanIsRightWhen(b: seq<bool>, bit: int, count: int, from: nat)
    ensures var r := FirstRun(b, bit, count, from);
            && (r == -1 || WholeRun(b, bit, count, r) <==> WholeRunsFirst(b, bit, count, from))
            && (WholeRunsFirst(b, bit, count, from) && count >= 1 ==>
                  forall i: nat :: from <= i && WholeRun(b, bit, count, i) ==> r != -1 && r <= i)
  {
    var r := FirstRun(b, bit, count, from);
    forall i: nat | from <= i && CutShort(b, bit, count, i) ensures RunAt(b, bit, count, i) && !WholeRun(b, bit, count, i) {}
    forall i: nat | from <= i && count >= 1 && WholeRun(b, bit, count, i) ensures RunAt(b, bit, count, i) {}
    if r != -1 && !WholeRun(b, bit, count, r) {
      assert RunAt(b, bit, count, r) && CutShort(b, bit, count, r);
      assert forall j: nat :: from <= j < r ==> !WholeRun(b, bit, count, j);
    }
  }

  /** Two clear bits are asked for; the answer has only one. */
  lemma LastBitUnchecked()
    ensures FirstRun([false, true], 0, 2, 0) == 0 && !WholeRun([false, true], 0, 2, 0)
    ensures CutShort([false, true], 0, 2, 0)
  {
    assert RunAt([false, true], 0, 2, 0);
    assert !Equals([false, true][1], 0);
  }

  /**
   * A search for one clear bit finds the same one again: it was left clear, and the next search starts
   * there.
   */
  lemma OneBitAgain(b: seq<bool>, count: int, from: nat)
    requires count <= 1 && FirstRun(b, 0, count, from) != -1
    ensures var r := FirstRun(b, 0, count, from); FirstRun(Fill(b, r, count, false), 0, count, r) == r
  {
    var r := FirstRun(b, 0, count, from);
    assert RunAt(b, 0, count, r);
    assert RunAt(Fill(b, r, count, false), 0, count, r);
  }

  /**
   * After a search for two or more clear bits the next one starts at the last bit of that run. The two
   * runs share that bit exactly if the other bits that the next search looks at from there are there
   * and clear; otherwise the runs are apart.
   */
  lemma NextRunShares(b: seq<bool>, count: int, from: nat)
    requires count > 1 && FirstRun(b, 0, count, from) != -1
    ensures var r := FirstRun(b, 0, count, from);
            var next := FirstRun(Fill(b, r, count, false), 0, count, r + count - 1);
            && (next == r + count - 1 <==>
                  r + count - 1 + Checked(count) <= |b| && forall j :: r + count <= j < r + count - 1 + Checked(count) ==> !b[j])
            && (next != -1 && next != r + count - 1 ==> next >= r + count)
  {
    var r := FirstRun(b, 0, count, from);
    var b' := Fill(b, r, count, false);
    var n := r + count - 1;
    assert RunAt(b', 0, count, n) <==>
           n + Checked(count) <= |b| && forall j :: n <= j < n + Checked(count) ==> Equals(b'[j], 0);
    assert forall j :: n < j < |b| ==> b'[j] == b[j];
    assert n < |b| ==> !b'[n];
  }

  class Bitmap {
    var bitcount: nat
    var bits: array<bv8>

    ghost predicate Valid()
      reads this
    {
      bitcount <= 8 * bits.Length
    }

    ghost function Contents(): (b: seq<bool>)
      requires Valid()
      reads this, bits
    {
      Unpack(bits[..], bitcount)
    }

    static function ByteCount(bitcount: nat): (n: nat)
      ensures 8 * n >= bitcount > 8 * n - 8
    {
      (bitcount + 7) / 8
    }

    constructor (bits: array<bv8>, bitcount: nat, initBit: int)
      requires ByteCount(bitcount) <= bits.Length
      modifies bits
      ensures Valid() && this.bits == bits && this.bitcount == bitcount
      ensures Contents() == seq(bitcount, _ => initBit != 0)
      ensures bits[ByteCount(bitcount)..] == old(bits[ByteCount(bitcount)..])
    {
      this.bits := bits;
      this.bitcount := bitcount;
      new;
      var bytes := ByteCount(bitcount);
      Memset(bits, if initBit != 0 then 0xff else 0, bytes);
      forall i | 0 <= i < bitcount ensures Contents()[i] == (initBit != 0) {
        MaskUniform(i % 8);
      }
    }

    method GetBit(index: nat) returns (r: int)
      requires Valid() && index < bitcount
      ensures r == if Contents()[index] then 1 else 0
    {
      r := if bits[index / 8] & Mask(index % 8) != 0 then 1 else 0;
    }

    /** Bits beyond the end are left out. The bits are cleared unless `bit` is exactly 1. */
    method SetBit(index: nat, count: int, bit: int)
      requires Valid()
      modifies bits
      ensures Contents() == Fill(old(Contents()), index, count, bit == 1)
      ensures forall i :: 0 <= i < bitcount ==>
                Contents()[i] == if index <= i < index + count then bit == 1 else old(Contents())[i]
    {
      ghost var b := Contents();
      var i, at := 0, index;
      while i < count && at < bitcount
        invariant 0 <= i && at == index + i && (i <= count || i == 0)
        invariant Contents() == Fill(b, index, i, bit == 1)
      {
        SetOne(at, bit);
        i := i + 1;
        at := at + 1;
      }
      assert Fill(b, index, i, bit == 1) == Fill(b, index, count, bit == 1);
    }

    method SetOne(at: nat, bit: int)
      requires Valid() && at < bitcount
      modifies bits
      ensures Contents() == old(Contents())[at := bit == 1]
    {
      hide Has, Unpack;
      UnpackSet(bits[..], bitcount, at, bit == 1);
      if bit == 1 {
        bits[at / 8] := bits[at / 8] | Mask(at % 8);
      } else {
        bits[at / 8] := bits[at / 8] & !Mask(at % 8);
      }
      assert bits[..] == old(bits[..])[at / 8 := WithBit(old(bits[..])[at / 8], at % 8, bit == 1)];
    }

    /**
     * The inner loop of the scan, from a bit that equals `bit`: it stops at the first bit that differs,
     * behind that bit, or at the end of the bitmap, or when it has counted `i` up to `count`.
     */
    method ExtendRun(bit: int, count: int, start: nat) returns (okIdx: int, searchIdx: nat, i: nat)
      requires Valid() && start < bitcount && Equals(Contents()[start], bit)
      ensures if i >= count then
                && okIdx == start == FirstRun(Contents(), bit, count, start)
                && searchIdx == start + if count > 1 then count - 1 else 0
              else
                && start < searchIdx <= bitcount
                && FirstRun(Contents(), bit, count, start) == FirstRun(Contents(), bit, count, searchIdx)
    {
      hide FirstRun, RunAt, Unpack;
      ghost var b := Contents();
      okIdx, searchIdx, i := start, start, 1;
      while i < count && searchIdx < bitcount
        invariant 1 <= i && searchIdx == start + i - 1 && (i <= count || i == 1) && searchIdx <= bitcount
        invariant forall j :: start <= j < searchIdx ==> Equals(b[j], bit)
      {
        var v := GetBit(searchIdx);
        if v != bit {
          Differs(b, bit, count, start, i);
          searchIdx := searchIdx + 1;
          okIdx := -1;
          return;
        }
        searchIdx := searchIdx + 1;
        i := i + 1;
      }
      if i >= count {
        Found(b, bit, count, start, i);
      } else {
        NoRoom(b, bit, count, start, i);
      }
    }

    /**
     * Look for a run from `searchIdx` on and clear it. The last bit of a run of two or more is not
     * looked at, and the run is cleared whatever `bit` is: the value passed on, the complement of
     * `bit`, is never 1 where a run was found.
     */
    method AllocNbits(bit: int, count: int, searchIdx: nat) returns (okIdx: int, searchIdx': nat)
      requires Valid()
      modifies bits
      ensures okIdx == FirstRun(old(Contents()), bit, count, searchIdx)
      ensures searchIdx' >= searchIdx
      ensures okIdx == -1 ==> Contents() == old(Contents()) && searchIdx' >= bitcount
      ensures okIdx != -1 ==>
                && searchIdx' == okIdx + (if count > 1 then count - 1 else 0)
                && Contents() == Fill(old(Contents()), okIdx, count, false)
                && forall i :: 0 <= i < bitcount ==> Contents()[i] == (!(okIdx <= i < okIdx + count) && old(Contents())[i])
    {
      ghost var b := Contents();
      searchIdx' := searchIdx;
      while searchIdx' < bitcount
        invariant searchIdx <= searchIdx' && Contents() == b && bits[..] == old(bits[..])
        invariant FirstRun(b, bit, count, searchIdx) == FirstRun(b, bit, count, searchIdx')
        decreases bitcount - searchIdx'
      {
        hide FirstRun, RunAt, Unpack, Fill;
        var v := GetBit(searchIdx');
        if v != bit {
          Differs(b, bit, count, searchIdx', 1);
          searchIdx' := searchIdx' + 1;
          continue;
        }
        var i;
        okIdx, searchIdx', i := ExtendRun(bit, count, searchIdx');
        if i >= count {
          SetBit(okIdx, count, -bit - 1);
          return;
        }
      }
      okIdx := -1;
    }
  }
}
