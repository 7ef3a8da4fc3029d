/** The global descriptor table: encoding of segments, and the selectors of task state segments. */
module Gdt {
  import opened Bits

  const GDT_TABLE_SIZE := 256
  const KERNEL_SELECTOR_CS := 1 * 8
  const KERNEL_SELECTOR_DS := 2 * 8
  /** Present, privilege level 0, 32-bit task state segment. */
  const TSS_ATTR := 0x89
  /** Present, privilege level 0, readable or writable, 32-bit, limit in pages. */
  const DATA_ATTR := 0xc092
  const CODE_ATTR := 0xc09a
  /** The 26 words of a task state segment. */
  const TSS_SIZE := 104

  datatype SegDesc = SegDesc(limit15_0: nat, base15_0: nat, base23_16: nat, attr: nat, base31_24: nat)

  const FREE_DESC := SegDesc(0, 0, 0, 0, 0)

  // ----- what the code stores

  function Encode(base: nat, limit: nat, attr: nat): SegDesc
  {
    var a := if limit > 0xf_ffff then BitOr(attr, 0x8000) else attr;
    var l := if limit > 0xf_ffff then limit / 0x1000 else limit;
    SegDesc(l % 0x1_0000, base % 0x1_0000, base / 0x1_0000 % 0x100,
            BitOr(a, l / 0x1_0000 % 0x10 * 0x100), base / 0x100_0000 % 0x100)
  }

  // ----- what the processor reads: section 3.4.5 of the Intel manual, Volume 3A

  function Base(d: SegDesc): nat
  {
    d.base15_0 + 0x1_0000 * d.base23_16 + 0x100_0000 * d.base31_24
  }

  function LimitField(d: SegDesc): nat
  {
    d.limit15_0 + 0x1_0000 * (d.attr / 0x100 % 0x10)
  }

  predicate InPages(d: SegDesc)
  {
    d.attr / 0x8000 % 2 == 1
  }

  /** The largest offset in the segment. */
  function EffectiveLimit(d: SegDesc): nat
  {
    if InPages(d) then LimitField(d) * 0x1000 + 0xfff else LimitField(d)
  }

  /** Type, privilege level and the other attributes without the limit and its unit. */
  function Flags(d: SegDesc): (nat, nat)
  {
    (d.attr % 0x100, d.attr / 0x1000 % 8)
  }

  // ----- decoding what was encoded

  lemma Powers()
    ensures Pow2(4) == 0x10 && Pow2(8) == 0x100 && Pow2(12) == 0x1000 && Pow2(15) == 0x8000
  {
    assert Pow2(6) == 64;
    assert Pow2(12) == 0x1000;
  }

  /** The upper limit bits join those that bits 8 to 11 of the attributes have. */
  lemma LimitInAttr(hi: nat, m: nat, lo: nat, n: nat)
    requires lo < 0x100 && m < 0x10 && n < 0x10
    ensures BitOr(0x1000 * hi + 0x100 * m + lo, n * 0x100) == 0x1000 * hi + 0x100 * BitOr(m, n) + lo
    ensures BitOr(m, n) < 0x10
  {
    Powers();
    hide BitOr, Pow2;
    var a, b := 0x1000 * hi + 0x100 * m + lo, n * 0x100;
    var a', r := 0x100 * m + lo, BitOr(a, b);
    Unique(a, 0x1000, hi, a');
    Unique(b, 0x1000, 0, b);
    OrSplits(a, b, 12);
    OrZero(hi);
    Unique(a', 0x100, m, lo);
    Unique(b, 0x100, n, 0);
    OrSplits(a', b, 8);
    OrZero(lo);
    OrBelow(m, n, 4);
    Divided(r, 0x1000);
    Divided(BitOr(a', b), 0x100);
  }

  /** The unit of the limit is set, whether it was or not. */
  lemma GranularitySet(attr: nat)
    requires attr < 0x1_0000
    ensures BitOr(attr, 0x8000) == 0x8000 + attr % 0x8000
  {
    Powers();
    var g, low := attr / 0x8000, attr % 0x8000;
    assert BitOr(g, 1) == 1;
    hide BitOr, Pow2;
    Unique(0x8000, 0x8000, 1, 0);
    OrSplits(attr, 0x8000, 15);
    OrZero(low);
    Divided(BitOr(attr, 0x8000), 0x8000);
  }

  /** The parts of attributes: unit, flags, upper limit bits, type. */
  lemma AttrParts(g: nat, h: nat, n: nat, low: nat)
    requires g < 2 && h < 8 && n < 0x10 && low < 0x100
    ensures var a := 0x8000 * g + 0x1000 * h + 0x100 * n + low;
            && a / 0x8000 % 2 == g && a / 0x1000 % 8 == h && a / 0x100 % 0x10 == n && a % 0x100 == low
            && a / 0x8000 == g && a % 0x8000 == a - 0x8000 * g
  {
    var a := 0x8000 * g + 0x1000 * h + 0x100 * n + low;
    Unique(a, 0x8000, g, a - 0x8000 * g);
    Unique(a, 0x1000, 8 * g + h, 0x100 * n + low);
    Unique(a, 0x100, 0x80 * g + 0x10 * h + n, low);
    Unique(8 * g + h, 8, g, h);
    Unique(0x80 * g + 0x10 * h + n, 0x10, 8 * g + h, n);
  }

  lemma AttrSplit(attr: nat)
    requires attr < 0x1_0000
    ensures var g, h, n, low := attr / 0x8000, attr / 0x1000 % 8, attr / 0x100 % 0x10, attr % 0x100;
            g < 2 && h < 8 && n < 0x10 && low < 0x100 && attr == 0x8000 * g + 0x1000 * h + 0x100 * n + low
  {
    var e, f := attr / 0x100, attr / 0x1000;
    Divided(attr, 0x100);
    Divided(e, 0x10);
    Unique(attr, 0x1000, e / 0x10, 0x100 * (e % 0x10) + attr % 0x100);
    Divided(f, 8);
    Unique(attr, 0x8000, f / 8, 0x1000 * (f % 8) + attr - 0x1000 * f);
  }

  lemma LimitParts(limit: nat)
    requires limit < 0x1_0000_0000
    ensures var l := if limit > 0xf_ffff then limit / 0x1000 else limit;
            && l / 0x1_0000 < 0x10 && l / 0x1_0000 % 0x10 == l / 0x1_0000
            && l == l % 0x1_0000 + 0x1_0000 * (l / 0x1_0000)
  {
  }

  /** What `Encode` stores, by parts of the attributes. */
  lemma Encoded(base: nat, limit: nat, g: nat, h: nat, m: nat, low: nat)
    requires g < 2 && h < 8 && m < 0x10 && low < 0x100 && limit < 0x1_0000_0000
    ensures var l := if limit > 0xf_ffff then limit / 0x1000 else limit;
            var d := Encode(base, limit, 0x8000 * g + 0x1000 * h + 0x100 * m + low);
            && BitOr(m, l / 0x1_0000) < 0x10
            && d.attr == 0x8000 * (if limit > 0xf_ffff then 1 else g) + 0x1000 * h + 0x100 * BitOr(m, l / 0x1_0000) + low
            && d.limit15_0 == l % 0x1_0000
  {
    hide BitOr;
    var l := if limit > 0xf_ffff then limit / 0x1000 else limit;
    var g', attr := if limit > 0xf_ffff then 1 else g, 0x8000 * g + 0x1000 * h + 0x100 * m + low;
    LimitParts(limit);
    AttrParts(g, h, m, low);
    GranularitySet(attr);
    LimitInAttr(8 * g' + h, m, low, l / 0x1_0000);
    StoredAttr(base, limit, attr, 0x8000 * g' + 0x1000 * h + 0x100 * m + low);
  }

  lemma StoredAttr(base: nat, limit: nat, attr: nat, a: nat)
    requires a == if limit > 0xf_ffff then BitOr(attr, 0x8000) else attr
    ensures var l := if limit > 0xf_ffff then limit / 0x1000 else limit;
            && Encode(base, limit, attr).attr == BitOr(a, l / 0x1_0000 % 0x10 * 0x100)
            && Encode(base, limit, attr).limit15_0 == l % 0x1_0000
  {
  }

  /**
   * For any base, limit and attributes: the base comes back, and so do the attributes outside of the
   * limit and its unit. The unit is a page if the attributes say so or the limit has more than 20 bits.
   */
  lemma EncodeDecode(base: nat, limit: nat, attr: nat)
    requires base < 0x1_0000_0000 && limit < 0x1_0000_0000 && attr < 0x1_0000
    ensures var d := Encode(base, limit, attr);
            var l := if limit > 0xf_ffff then limit / 0x1000 else limit;
            && Base(d) == base && Flags(d) == (attr % 0x100, attr / 0x1000 % 8)
            && (InPages(d) <==> limit > 0xf_ffff || attr / 0x8000 == 1)
            && LimitField(d) == l % 0x1_0000 + 0x1_0000 * BitOr(attr / 0x100 % 0x10, l / 0x1_0000)
  {
    hide BitOr;
    var l := if limit > 0xf_ffff then limit / 0x1000 else limit;
    var g, h, m, low := attr / 0x8000, attr / 0x1000 % 8, attr / 0x100 % 0x10, attr % 0x100;
    AttrSplit(attr);
    Encoded(base, limit, g, h, m, low);
    AttrParts(if limit > 0xf_ffff then 1 else g, h, BitOr(m, l / 0x1_0000), low);
    BaseParts(base);
    BaseFields(base, limit, attr);
    hide Encode;
  }

  /**
   * Attributes that leave bits 8 to 11 to the code. If they leave the unit to it too, or the limit has
   * more than 20 bits, the limit comes back, rounded up to whole pages in the latter case; that is exact
   * exactly for a limit that ends a page. If they set the unit for a limit of at most 20 bits, that
   * limit counts pages.
   */
  lemma LimitComesBack(base: nat, limit: nat, attr: nat)
    requires base < 0x1_0000_0000 && limit < 0x1_0000_0000 && attr < 0x1_0000 && attr / 0x100 % 0x10 == 0
    ensures var d := Encode(base, limit, attr);
            if attr / 0x8000 == 0 || limit > 0xf_ffff then
              && limit <= EffectiveLimit(d) <= limit + 0xfff
              && (EffectiveLimit(d) == limit <==> limit <= 0xf_ffff || limit % 0x1000 == 0xfff)
            else
              EffectiveLimit(d) == limit * 0x1000 + 0xfff
  {
    hide BitOr, Encode, LimitField, InPages;
    var l := if limit > 0xf_ffff then limit / 0x1000 else limit;
    EncodeDecode(base, limit, attr);
    LimitParts(limit);
    OrComm(0, l / 0x1_0000);
    OrZero(l / 0x1_0000);
    AttrSplit(attr);
    Divided(limit, 0x1000);
  }

  lemma BaseFields(base: nat, limit: nat, attr: nat)
    ensures var d := Encode(base, limit, attr);
            && d.base15_0 == base % 0x1_0000 && d.base23_16 == base / 0x1_0000 % 0x100
            && d.base31_24 == base / 0x100_0000 % 0x100
  {
  }

  lemma BaseParts(base: nat)
    requires base < 0x1_0000_0000
    ensures base == base % 0x1_0000 + 0x1_0000 * (base / 0x1_0000 % 0x100) + 0x100_0000 * (base / 0x100_0000 % 0x100)
  {
  }

  // ----- the table

  /** The first free slot from `i` on, or -1. */
  function FirstFree(t: seq<SegDesc>, i: nat): (r: int)
    ensures r == -1 || (i <= r < |t| && t[r].attr == 0)
    ensures forall j :: i <= j < (if r == -1 then |t| else r) ==> t[j].attr != 0
    decreases |t| - i
  {
    if i >= |t| then -1 else if t[i].attr == 0 then i else FirstFree(t, i + 1)
  }

  /** After `init_gdt`: every slot is free but those of the kernel's code and data segments. */
  function InitialTable(): (t: seq<SegDesc>)
    ensures |t| == GDT_TABLE_SIZE
  {
    seq(GDT_TABLE_SIZE, i => if i == 2 then Encode(0, 0xffff_ffff, DATA_ATTR)
                             else if i == 1 then Encode(0, 0xffff_ffff, CODE_ATTR) else FREE_DESC)
  }

  /** The segment that a descriptor gives: base, limit, and flags. */
  predicate Gives(d: SegDesc, base: nat, limit: nat, flags: (nat, nat))
  {
    Base(d) == base && EffectiveLimit(d) == limit && Flags(d) == flags
  }

  /** The kernel's code segment stands in slot 1 and its data segment in slot 2; all other slots are free. */
  lemma InitialSegments()
    ensures var t := InitialTable();
            && |t| == 256
            && t[1].attr == 0xcf9a && Gives(t[1], 0, 0xffff_ffff, (0x9a, 4))
            && t[2].attr == 0xcf92 && Gives(t[2], 0, 0xffff_ffff, (0x92, 4))
            && forall i :: 0 <= i < 256 && i != 1 && i != 2 ==> t[i] == SegDesc(0, 0, 0, 0, 0)
  {
    InitialSlotsAre();
    hide InitialTable, Encode, Base, InPages, EffectiveLimit, Flags;
    KernelSegment(0x9a);
    KernelSegment(0x92);
  }

  lemma InitialSlotsAre()
    ensures var t := InitialTable();
            && |t| == 256
            && t[1] == Encode(0, 0xffff_ffff, 0xc09a) && t[2] == Encode(0, 0xffff_ffff, 0xc092)
            && forall i :: 0 <= i < 256 && i != 1 && i != 2 ==> t[i] == SegDesc(0, 0, 0, 0, 0)
  {
    hide Encode;
  }

  /** The table and the task's selector, which was `sel`, after setting up its state segment at `base`. */
  function WithTss(t: seq<SegDesc>, base: nat, sel: int): (seq<SegDesc>, int)
  {
    var r := FirstFree(t, 1);
    if r == -1 then (t, sel) else (t[r := Encode(base, TSS_SIZE, TSS_ATTR)], 8 * r)
  }

  /** What a task has to do with the table: the address of its state segment, and its selector. */
  class TaskSegment {
    const base: nat
    var tssSel: int

    constructor (base: nat)
      ensures this.base == base && tssSel == 0
    {
      this.base := base;
      tssSel := 0;
    }
  }

  class DescriptorTable {
    const table: array<SegDesc>

    ghost predicate Valid()
    {
      table.Length == GDT_TABLE_SIZE
    }

    constructor (table: array<SegDesc>)
      requires table.Length == GDT_TABLE_SIZE
      ensures Valid() && this.table == table
    {
      this.table := table;
    }

    /** Clear the table, whatever it held, and set up the kernel's segments. */
    method InitGdt()
      requires Valid()
      modifies table
      ensures table[..] == InitialTable()
      ensures table[1].attr == 0xcf9a && Gives(table[1], 0, 0xffff_ffff, (0x9a, 4))
      ensures table[2].attr == 0xcf92 && Gives(table[2], 0, 0xffff_ffff, (0x92, 4))
      ensures forall i :: 0 <= i < 256 && i != 1 && i != 2 ==> table[i].attr == 0
    {
      var i := 0;
      while i < GDT_TABLE_SIZE
        invariant i <= GDT_TABLE_SIZE && forall j :: 0 <= j < i ==> table[..][j] == FREE_DESC
      {
        ClearIsFree();
        hide *;
        SetSegment(8 * i, 0, 0, 0);
        i := i + 1;
      }
      hide Encode;
      SetSegment(KERNEL_SELECTOR_DS, 0, 0xffff_ffff, DATA_ATTR);
      SetSegment(KERNEL_SELECTOR_CS, 0, 0xffff_ffff, CODE_ATTR);
      assert table[..] == InitialTable();
      InitialSegments();
      hide Gives, InitialTable;
      assert table[1] == table[..][1] && table[2] == table[..][2];
      assert forall i :: 0 <= i < 256 ==> table[i] == table[..][i];
    }

    method SetSegment(selector: nat, base: nat, limit: nat, attr: nat)
      requires Valid() && selector / 8 < GDT_TABLE_SIZE && attr < 0x1_0000
      modifies table
      ensures table[..] == old(table[..])[selector / 8 := Encode(base, limit, attr)]
    {
      var a, l := attr, limit;
      if l > 0xf_ffff {
        a := BitOr(a, 0x8000);
        l := l / 0x1000;
      }
      table[selector / 8] := SegDesc(l % 0x1_0000, base % 0x1_0000, base / 0x1_0000 % 0x100,
                                     BitOr(a, l / 0x1_0000 % 0x10 * 0x100), base / 0x100_0000 % 0x100);
    }

    method AllocDesc() returns (selector: int)
      requires Valid()
      ensures var r := FirstFree(table[..], 1); selector == if r == -1 then -1 else 8 * r
    {
      var i := 1;
      while i < GDT_TABLE_SIZE
        invariant 1 <= i <= GDT_TABLE_SIZE && FirstFree(table[..], 1) == FirstFree(table[..], i)
      {
        if table[i].attr == 0 {
          return 8 * i;
        }
        i := i + 1;
      }
      selector := -1;
    }

    /** Set up the descriptor of a task's state segment; -1, and nothing changed, if the table is full. */
    method InitTss(task: TaskSegment) returns (r: int)
      requires Valid()
      modifies table, task
      ensures (table[..], task.tssSel) == WithTss(old(table[..]), task.base, old(task.tssSel))
      ensures r == if FirstFree(old(table[..]), 1) == -1 then -1 else 0
    {
      var selector := AllocDesc();
      if selector < 0 {
        return -1;
      }
      SetSegment(selector, task.base, TSS_SIZE, TSS_ATTR);
      task.tssSel := selector;
      r := 0;
    }
  }

  lemma ClearIsFree()
    ensures Encode(0, 0, 0) == FREE_DESC
  {
    hide BitOr;
    OrZero(0);
    StoredAttr(0, 0, 0, 0);
    BaseFields(0, 0, 0);
    hide Encode;
  }

  /** The kernel's segments cover all 4 GB; `low` is their type. */
  lemma KernelSegment(low: nat)
    requires low < 0x100
    ensures var d := Encode(0, 0xffff_ffff, 0xc000 + low);
            && d.attr == 0xcf00 + low && Base(d) == 0 && InPages(d) && EffectiveLimit(d) == 0xffff_ffff && Flags(d) == (low, 4)
  {
    hide BitOr, Encode;
    AttrParts(1, 4, 0, low);
    EncodeDecode(0, 0xffff_ffff, 0xc000 + low);
    LimitComesBack(0, 0xffff_ffff, 0xc000 + low);
    Encoded(0, 0xffff_ffff, 1, 4, 0, low);
    OrComm(0, 15);
    OrZero(15);
  }

  // ----- the selectors of a run of task creations

  /**
   * The table after setting up the segments of the tasks one after the other, and their selectors; each
   * task is given by the address of its segment and the selector it had before.
   */
  function TssRun(t: seq<SegDesc>, tasks: seq<(nat, int)>): (r: (seq<SegDesc>, seq<int>))
    ensures |r.0| == |t| && |r.1| == |tasks|
  {
    if tasks == [] then (t, [])
    else
      var last := tasks[|tasks| - 1];
      var (t1, selectors) := TssRun(t, tasks[..|tasks| - 1]);
      var (t2, selector) := WithTss(t1, last.0, last.1);
      (t2, selectors + [selector])
  }

  const TSS_SLOTS := GDT_TABLE_SIZE - 3

  /**
   * After booting, the first 253 tasks get the selectors 24, 32 and so on; every later one keeps the
   * selector it had. Those given are different, are never those of the null, code or data segment, and
   * each one's descriptor keeps giving its own task's segment: base, size and type.
   */
  lemma {:induction false} TaskSelectors(tasks: seq<(nat, int)>)
    requires forall x :: x in tasks ==> x.0 < 0x1_0000_0000
    ensures var (t, selectors) := TssRun(InitialTable(), tasks);
            && (forall i :: 0 <= i < |tasks| ==> selectors[i] == if i < 253 then 8 * (3 + i) else tasks[i].1)
            && (forall i :: 0 <= i < |tasks| && i < 253 ==> Gives(t[3 + i], tasks[i].0, 104, (0x89, 0)))
            && (forall i :: 0 <= i < 3 ==> t[i] == InitialTable()[i])
            && UsedSlots(t, |tasks|)
  {
    hide Encode, Gives, InitialTable, FirstFree, UsedSlots;
    InitialSlots();
    if tasks != [] {
      var front, last := tasks[..|tasks| - 1], tasks[|tasks| - 1];
      assert last in tasks && forall x :: x in front ==> x in tasks;
      TaskSelectors(front);
      TssSegment(last.0);
      var t1 := TssRun(InitialTable(), front).0;
      NextSlot(t1, |front|, Encode(last.0, TSS_SIZE, TSS_ATTR));
    }
  }

  /** The slots of the kernel's segments and of `n` tasks are taken, the others are free. */
  predicate UsedSlots(t: seq<SegDesc>, n: nat)
  {
    |t| == GDT_TABLE_SIZE && forall i :: 1 <= i < GDT_TABLE_SIZE ==> (t[i].attr == 0 <==> i >= 3 + n)
  }

  lemma InitialSlots()
    ensures UsedSlots(InitialTable(), 0)
  {
    hide Encode, InPages, Base, EffectiveLimit, Flags;
    KernelSegment(0x92);
    KernelSegment(0x9a);
  }

  lemma NextSlot(t: seq<SegDesc>, n: nat, d: SegDesc)
    requires UsedSlots(t, n) && d.attr != 0
    ensures |t| == GDT_TABLE_SIZE
    ensures FirstFree(t, 1) == if n < TSS_SLOTS then 3 + n else -1
    ensures if n < TSS_SLOTS then UsedSlots(t[3 + n := d], n + 1) else UsedSlots(t, n + 1)
  {
    var r := FirstFree(t, 1);
    if n < TSS_SLOTS {
      assert t[3 + n].attr == 0;
    }
  }

  lemma TssSegment(base: nat)
    requires base < 0x1_0000_0000
    ensures var d := Encode(base, TSS_SIZE, TSS_ATTR);
            d.attr != 0 && Gives(d, base, 104, (0x89, 0))
  {
    hide Encode, Base, EffectiveLimit, BitOr;
    EncodeDecode(base, TSS_SIZE, TSS_ATTR);
    LimitComesBack(base, TSS_SIZE, TSS_ATTR);
  }
}
