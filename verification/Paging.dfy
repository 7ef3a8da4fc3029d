/**
 * Two-level page tables. Physical memory that holds directories and tables is a map from frame numbers
 * to 1024 words. Finding the table entry of an address, and the supply of frames, are not in the
 * repository's files: `FindPte` is an assumption, written from section 4.3 of the Intel Software
 * Developer's Manual, Volume 3A, and the index functions of the code; the frames it takes are fresh.
 */
module Paging {
  import opened Bitmaps
  import opened Bits
  import opened Ints
  import opened Seqs

  const PAGE_SIZE := 4096
  const ENTRIES := 1024
  const PAGES := 0x10_0000
  const MEMORY_TASK_BASE := 0x8000_0000
  const PTE_P := 1

  // ----- addresses and entries

  function PdeIndex(vaddr: nat): nat
  {
    vaddr / 0x40_0000
  }

  function PteIndex(vaddr: nat): nat
  {
    vaddr / PAGE_SIZE % 0x400
  }

  /** The upper 20 bits of an entry: the frame it refers to. */
  function Frame(entry: nat): nat
  {
    entry / PAGE_SIZE
  }

  function PhysAddr(entry: nat): nat
  {
    Frame(entry) * PAGE_SIZE
  }

  function Perm(entry: nat): nat
  {
    entry % 0x200
  }

  predicate Present(entry: nat)
  {
    entry % 2 == 1
  }

  lemma IndexesOfPage(vaddr: nat)
    requires vaddr < 0x1_0000_0000
    ensures PdeIndex(vaddr) == vaddr / 4096 / 1024 < 1024
    ensures PteIndex(vaddr) == vaddr / 4096 % 1024
    ensures vaddr / 4096 < PAGES
  {
  }

  // ----- physical memory

  type Frames = map<nat, seq<nat>>

  const ZEROS: seq<nat> := seq(ENTRIES, _ => 0)

  function Word(m: Frames, f: nat, i: nat): nat
  {
    if f in m && i < |m[f]| then m[f][i] else 0
  }

  function SetWord(m: Frames, f: nat, i: nat, v: nat): Frames
    requires f in m && i < |m[f]|
  {
    var words: seq<nat> := m[f][i := v];
    m[f := words]
  }

  lemma WordSet(m: Frames, f: nat, i: nat, v: nat, g: nat, j: nat)
    requires f in m && i < |m[f]|
    ensures Word(SetWord(m, f, i, v), g, j) == if g == f && j == i then v else Word(m, g, j)
  {
  }

  ghost predicate Shaped(m: Frames)
  {
    forall f :: f in m ==> |m[f]| == ENTRIES
  }

  /** The table entry of a page, if its table and the entry are present. */
  function Lookup(m: Frames, dir: nat, page: nat): Option<nat>
  {
    var pde := Word(m, dir, page / ENTRIES);
    if !Present(pde) then None
    else
      var pte := Word(m, Frame(pde), page % ENTRIES);
      if Present(pte) then Some(pte) else None
  }

  /** The tables of a directory are different frames, none of them the directory. */
  ghost predicate Tree(m: Frames, dir: nat)
  {
    && dir in m
    && (forall i :: 0 <= i < ENTRIES && Present(Word(m, dir, i)) ==>
          Frame(Word(m, dir, i)) in m && Frame(Word(m, dir, i)) != dir)
    && (forall i, j :: 0 <= i < j < ENTRIES && Present(Word(m, dir, i)) && Present(Word(m, dir, j)) ==>
          Frame(Word(m, dir, i)) != Frame(Word(m, dir, j)))
  }

  /** `f` is not a table of one of the slots of `dir` from `lo` on. */
  ghost predicate NotTable(m: Frames, dir: nat, lo: nat, f: nat)
  {
    forall i :: lo <= i < ENTRIES && Present(Word(m, dir, i)) ==> Frame(Word(m, dir, i)) != f
  }

  /** Only `dir` and its tables may differ, and in `dir` only from slot `lo` on. */
  ghost predicate OnlyFrom(m: Frames, m': Frames, dir: nat, lo: nat)
  {
    && m.Keys <= m'.Keys
    && (forall f, j :: f in m && f != dir && NotTable(m, dir, lo, f) ==> Word(m', f, j) == Word(m, f, j))
    && (forall j :: 0 <= j < lo ==> Word(m', dir, j) == Word(m, dir, j))
    && (forall i :: 0 <= i < ENTRIES && Present(Word(m, dir, i)) ==> Word(m', dir, i) == Word(m, dir, i))
    && (forall i :: 0 <= i < ENTRIES && Present(Word(m', dir, i)) && !Present(Word(m, dir, i)) ==>
          Frame(Word(m', dir, i)) !in m)
  }

  lemma OnlyFromTrans(m: Frames, m1: Frames, m2: Frames, dir: nat, lo: nat)
    requires dir in m && OnlyFrom(m, m1, dir, lo) && OnlyFrom(m1, m2, dir, lo)
    ensures OnlyFrom(m, m2, dir, lo)
  {
    forall f, j | f in m && f != dir && NotTable(m, dir, lo, f) ensures Word(m2, f, j) == Word(m, f, j) {
      assert NotTable(m1, dir, lo, f);
    }
  }

  // ----- one entry

  /** Writing one entry of a table changes the translation of one page of that directory. */
  lemma EntryWritten(m: Frames, dir: nat, lo: nat, page: nat, v: nat)
    requires lo <= page / ENTRIES
    requires Shaped(m) && Tree(m, dir) && page < PAGES && Present(Word(m, dir, page / ENTRIES)) && Present(v)
    ensures var t := Frame(Word(m, dir, page / ENTRIES));
            && t in m
            && var m' := SetWord(m, t, page % ENTRIES, v);
               && Shaped(m') && Tree(m', dir)
               && OnlyFrom(m, m', dir, lo)
               && Lookup(m', dir, page) == Some(v)
               && (forall p :: 0 <= p < PAGES && p != page ==> Lookup(m', dir, p) == Lookup(m, dir, p))
  {
    var slot, t := page / ENTRIES, Frame(Word(m, dir, page / ENTRIES));
    var m' := SetWord(m, t, page % ENTRIES, v);
    forall g, j ensures Word(m', g, j) == if g == t && j == page % ENTRIES then v else Word(m, g, j) {
      WordSet(m, t, page % ENTRIES, v, g, j);
    }
    forall p | 0 <= p < PAGES && p != page ensures Lookup(m', dir, p) == Lookup(m, dir, p) {
      assert p / ENTRIES == slot ==> p % ENTRIES != page % ENTRIES;
    }
  }

  /** Adding a zeroed table changes no translation. */
  lemma TableAdded(m: Frames, dir: nat, lo: nat, slot: nat, t: nat, v: nat)
    requires Shaped(m) && Tree(m, dir) && lo <= slot < ENTRIES && !Present(Word(m, dir, slot))
    requires t !in m && Present(v) && Frame(v) == t
    ensures var m' := SetWord(m[t := ZEROS], dir, slot, v);
            && Shaped(m') && Tree(m', dir) && Word(m', dir, slot) == v
            && OnlyFrom(m, m', dir, lo)
            && (forall p :: 0 <= p < PAGES ==> Lookup(m', dir, p) == Lookup(m, dir, p))
  {
    var m1 := m[t := ZEROS];
    var m' := SetWord(m1, dir, slot, v);
    forall g, j ensures Word(m', g, j) == if g == dir && j == slot then v else Word(m, g, j) {
      WordSet(m1, dir, slot, v, g, j);
    }
  }

  // ----- ranges of pages

  /** How far the page lies behind `first`; page numbers wrap around. */
  function Offset(page: nat, first: nat): nat
  {
    (page - first) % PAGES
  }

  function PageAt(vaddr: nat, i: nat): nat
  {
    (vaddr / PAGE_SIZE + i) % PAGES
  }

  function PaddrAt(paddr: nat, i: nat): nat
  {
    (paddr + PAGE_SIZE * i) % TWO_TO_32
  }

  /** The entry that a mapping writes for its `i`-th page. */
  function Entry(paddr: nat, perm: nat, i: nat): nat
  {
    BitOr(BitOr(PaddrAt(paddr, i), perm), PTE_P)
  }

  lemma EntryPresent(paddr: nat, perm: nat, i: nat)
    ensures Present(Entry(paddr, perm, i))
    ensures Entry(paddr, perm, i) == BitOr(BitOr(PaddrAt(paddr, i), perm), PTE_P)
  {
    OrHalves(BitOr(PaddrAt(paddr, i), perm), PTE_P);
  }

  lemma OffsetAt(vaddr: nat, i: nat, page: nat)
    requires page < PAGES && vaddr < TWO_TO_32
    ensures i < PAGES ==> Offset(PageAt(vaddr, i), vaddr / PAGE_SIZE) == i
    ensures i < PAGES ==> (page == PageAt(vaddr, i) <==> Offset(page, vaddr / PAGE_SIZE) == i)
    ensures Offset(page, vaddr / PAGE_SIZE) < PAGES
  {
  }

  lemma NextPage(vaddr: nat, v: nat, i: nat)
    requires v < TWO_TO_32 && v / PAGE_SIZE == PageAt(vaddr, i)
    ensures (v + PAGE_SIZE) % TWO_TO_32 / PAGE_SIZE == PageAt(vaddr, i + 1)
  {
  }

  lemma NextFrame(paddr: nat, p: nat, i: nat)
    requires p == PaddrAt(paddr, i)
    ensures (p + PAGE_SIZE) % TWO_TO_32 == PaddrAt(paddr, i + 1)
  {
  }

  /** In `m` the first `k` pages of a range are mapped; otherwise it translates like `m0`. */
  ghost predicate MappedUpTo(m0: Frames, m: Frames, dir: nat, vaddr: nat, paddr: nat, perm: nat, k: nat)
  {
    forall p :: 0 <= p < PAGES ==>
      Lookup(m, dir, p) ==
      if Offset(p, vaddr / PAGE_SIZE) < k then Some(Entry(paddr, perm, Offset(p, vaddr / PAGE_SIZE)))
      else Lookup(m0, dir, p)
  }

  lemma MappedMore(m0: Frames, m: Frames, m': Frames, dir: nat, vaddr: nat, paddr: nat, perm: nat, k: nat)
    requires vaddr < TWO_TO_32 && MappedUpTo(m0, m, dir, vaddr, paddr, perm, k)
    requires Lookup(m, dir, PageAt(vaddr, k)) == None
    requires Lookup(m', dir, PageAt(vaddr, k)) == Some(Entry(paddr, perm, k))
    requires forall p :: 0 <= p < PAGES && p != PageAt(vaddr, k) ==> Lookup(m', dir, p) == Lookup(m, dir, p)
    ensures k < PAGES && MappedUpTo(m0, m', dir, vaddr, paddr, perm, k + 1)
  {
    OffsetAt(vaddr, k, PageAt(vaddr, k));
    forall p | 0 <= p < PAGES
      ensures Lookup(m', dir, p) ==
              if Offset(p, vaddr / PAGE_SIZE) < k + 1 then Some(Entry(paddr, perm, Offset(p, vaddr / PAGE_SIZE)))
              else Lookup(m0, dir, p)
    {
      OffsetAt(vaddr, k, p);
    }
  }

  lemma FirstPage(m: Frames, dir: nat, vaddr: nat, paddr: nat, perm: nat)
    requires vaddr < TWO_TO_32 && paddr < TWO_TO_32
    ensures MappedUpTo(m, m, dir, vaddr, paddr, perm, 0)
    ensures vaddr / PAGE_SIZE == PageAt(vaddr, 0) && paddr == PaddrAt(paddr, 0)
  {
  }

  /** What the next page translates to before it is mapped. */
  lemma WasUnmapped(m0: Frames, m: Frames, dir: nat, vaddr: nat, paddr: nat, perm: nat, k: nat)
    requires MappedUpTo(m0, m, dir, vaddr, paddr, perm, k) && vaddr < TWO_TO_32
    ensures k < PAGES ==> Lookup(m, dir, PageAt(vaddr, k)) == Lookup(m0, dir, PageAt(vaddr, k))
    ensures k >= PAGES ==> Lookup(m, dir, PageAt(vaddr, k)).Some?
  {
    OffsetAt(vaddr, k, PageAt(vaddr, k));
  }

  lemma MappedSame(m0: Frames, m: Frames, m': Frames, dir: nat, vaddr: nat, paddr: nat, perm: nat, k: nat)
    requires MappedUpTo(m0, m, dir, vaddr, paddr, perm, k)
    requires forall p :: 0 <= p < PAGES ==> Lookup(m', dir, p) == Lookup(m, dir, p)
    ensures MappedUpTo(m0, m', dir, vaddr, paddr, perm, k)
  {
  }

  lemma LookupIs(m: Frames, dir: nat, page: nat)
    requires Present(Word(m, dir, page / ENTRIES))
    ensures var v := Word(m, Frame(Word(m, dir, page / ENTRIES)), page % ENTRIES);
            Lookup(m, dir, page) == if Present(v) then Some(v) else None
  {
  }

  lemma NoTable(m: Frames, dir: nat, page: nat)
    ensures !Present(Word(m, dir, page / ENTRIES)) ==> Lookup(m, dir, page) == None
  {
  }

  lemma FirstTaken(l: seq<nat>)
    requires Distinct(l) && l != []
    ensures Distinct(l[1..]) && forall f :: f in l[1..] ==> f in l && f != l[0]
  {
  }

  /** The entry for a new table. */
  lemma TableEntry(t: nat, flags: nat)
    requires flags < PAGE_SIZE && Present(flags)
    ensures Frame(t * PAGE_SIZE + flags) == t && Present(t * PAGE_SIZE + flags)
  {
  }

  lemma DirIn(m: Frames, dir: nat)
    requires Tree(m, dir)
    ensures dir in m
  {
  }

  lemma OnlyFromRefl(m: Frames, dir: nat, lo: nat)
    ensures OnlyFrom(m, m, dir, lo)
  {
  }

  // ----- translation

  function Translate(m: Frames, dir: nat, vaddr: nat): Option<nat>
  {
    match Lookup(m, dir, vaddr / PAGE_SIZE)
    case None => None
    case Some(pte) => Some(PhysAddr(pte) + vaddr % PAGE_SIZE)
  }

  lemma EntryParts(paddr: nat, perm: nat, i: nat)
    requires paddr % PAGE_SIZE == 0 && perm < PAGE_SIZE && paddr + PAGE_SIZE * i < TWO_TO_32
    ensures PhysAddr(Entry(paddr, perm, i)) == paddr + 4096 * i
    ensures Perm(Entry(paddr, perm, i)) == BitOr(perm, 1) % 0x200
  {
    hide BitOr, Pow2, Low, PhysAddr, Perm, PaddrAt;
    var a := paddr + PAGE_SIZE * i;
    Aligned(paddr, i);
    EntrySum(a, perm);
    PageParts(a, BitOr(perm, PTE_P));
  }

  /** An aligned address and flags do not overlap. */
  lemma EntrySum(a: nat, perm: nat)
    requires perm < PAGE_SIZE == Pow2(12) && Low(a, 12) == 0
    ensures BitOr(BitOr(a, perm), PTE_P) == a + BitOr(perm, PTE_P) && BitOr(perm, PTE_P) < PAGE_SIZE
  {
    hide BitOr, Pow2, Low;
    OrBelow(perm, PTE_P, 12);
    OrAdds(a, BitOr(perm, PTE_P), 12);
    OrAssoc(a, perm, PTE_P);
  }

  lemma Aligned(paddr: nat, i: nat)
    requires paddr % PAGE_SIZE == 0 && paddr + PAGE_SIZE * i < TWO_TO_32
    ensures var a := paddr + PAGE_SIZE * i; a % PAGE_SIZE == 0 && PaddrAt(paddr, i) == a && Low(a, 12) == 0
    ensures Pow2(12) == PAGE_SIZE
  {
    assert Pow2(6) == 64;
    assert Pow2(12) == PAGE_SIZE;
    hide Pow2;
  }

  lemma PageParts(a: nat, low: nat)
    requires a % PAGE_SIZE == 0 && low < PAGE_SIZE
    ensures PhysAddr(a + low) == a && Perm(a + low) == low % 0x200
  {
    var q, r, l := a / PAGE_SIZE, low / 0x200, low % 0x200;
    Divided(a, PAGE_SIZE);
    Divided(low, 0x200);
    Unique(a + low, PAGE_SIZE, q, low);
    Unique(a + low, 0x200, 8 * q + r, l);
  }

  /**
   * A range of aligned pages that does not wrap translates byte for byte to the frames it was mapped
   * to, with the given permissions; every address outside of it translates as before.
   */
  lemma MappingTranslates(m0: Frames, m: Frames, dir: nat, vaddr: nat, paddr: nat, count: nat, perm: nat, addr: nat)
    requires MappedUpTo(m0, m, dir, vaddr, paddr, perm, count)
    requires vaddr % 4096 == 0 && paddr % 4096 == 0 && perm < 4096
    requires vaddr + 4096 * count <= 0x1_0000_0000 && paddr + 4096 * count <= 0x1_0000_0000 && addr < 0x1_0000_0000
    ensures vaddr <= addr < vaddr + 4096 * count ==>
              && Translate(m, dir, addr) == Some(paddr + (addr - vaddr))
              && Lookup(m, dir, addr / 4096).Some?
              && Perm(Lookup(m, dir, addr / 4096).value) == BitOr(perm, 1) % 0x200
    ensures !(vaddr <= addr < vaddr + 4096 * count) ==> Translate(m, dir, addr) == Translate(m0, dir, addr)
  {
    hide PhysAddr, Entry, BitOr, Offset, Lookup, Perm;
    OffsetInRange(vaddr, count, addr);
    if vaddr <= addr < vaddr + PAGE_SIZE * count {
      EntryParts(paddr, perm, Offset(addr / PAGE_SIZE, vaddr / PAGE_SIZE));
    }
  }

  lemma OffsetInRange(vaddr: nat, count: nat, addr: nat)
    requires vaddr % PAGE_SIZE == 0 && vaddr + PAGE_SIZE * count <= TWO_TO_32 && addr < TWO_TO_32
    ensures addr / PAGE_SIZE < PAGES
    ensures vaddr <= addr < vaddr + PAGE_SIZE * count ==>
              && Offset(addr / PAGE_SIZE, vaddr / PAGE_SIZE) < count
              && PAGE_SIZE * Offset(addr / PAGE_SIZE, vaddr / PAGE_SIZE) + addr % PAGE_SIZE == addr - vaddr
    ensures !(vaddr <= addr < vaddr + PAGE_SIZE * count) ==> Offset(addr / PAGE_SIZE, vaddr / PAGE_SIZE) >= count
  {
    var page, first := addr / PAGE_SIZE, vaddr / PAGE_SIZE;
    Divided(addr, PAGE_SIZE);
    Divided(vaddr, PAGE_SIZE);
    assert page < PAGES && first <= PAGES;
    if page >= first {
      assert Offset(page, first) == (page - first) % PAGES == if page - first == PAGES then 0 else page - first;
    } else {
      assert (page - first + PAGES) % PAGES == (page - first) % PAGES;
    }
  }

  // ----- directories that share the kernel's half

  const USER_PDE_START := PdeIndex(MEMORY_TASK_BASE)

  /** The entries of the kernel's directory for the lower half, and nothing that is both a table and the directory. */
  ghost predicate SharesKernel(m: Frames, kernel: nat, dir: nat)
  {
    && kernel in m && dir in m && kernel != dir
    && NotTable(m, dir, 0, kernel)
    && forall i :: 0 <= i < 512 ==> Word(m, dir, i) == Word(m, kernel, i)
  }

  /** Maps in the upper half of such a directory leave its lower half, and the kernel's, as they are. */
  lemma LowerHalfKept(m: Frames, m': Frames, kernel: nat, dir: nat, page: nat)
    requires Tree(m, dir) && Tree(m', dir) && SharesKernel(m, kernel, dir)
    requires OnlyFrom(m, m', dir, 512)
    requires page < 0x8_0000
    ensures SharesKernel(m', kernel, dir)
    ensures Lookup(m', dir, page) == Lookup(m', kernel, page) == Lookup(m, kernel, page)
  {
    var slot := page / ENTRIES;
    forall f, j | f in m && f != dir && NotTable(m, dir, 512, f) ensures Word(m', f, j) == Word(m, f, j) {}
    assert NotTable(m, dir, 512, kernel);
    forall i | 0 <= i < ENTRIES && Present(Word(m', dir, i)) ensures Frame(Word(m', dir, i)) != kernel {
      assert Present(Word(m, dir, i)) || Frame(Word(m', dir, i)) !in m;
    }
    var pde := Word(m, kernel, slot);
    if Present(pde) {
      assert Word(m, dir, slot) == pde;
      assert NotTable(m, dir, 512, Frame(pde));
    }
  }

  /** The outcome of a mapping: done, out of frames, or stopped for good because a page was mapped before. */
  datatype MapResult = Mapped | NoMemory | Stopped

  class AddressSpaces {
    var frames: Frames
    /** The supply of frames. */
    var free: seq<nat>
    const kernelDir: nat
    /** What `FindPte` sets in the entry for a new table: present, and permissive. */
    const pdeFlags: nat

    ghost predicate Valid()
      reads this
    {
      && Shaped(frames) && Distinct(free) && (forall f :: f in free ==> f !in frames && f != 0)
      && Present(pdeFlags) && pdeFlags < PAGE_SIZE
    }

    /** Assumed: the table with the entry of `vaddr`, made if it is missing; none if there is no frame for it. */
    method FindPte(dir: nat, vaddr: nat, ghost lo: nat) returns (table: Option<nat>)
      requires Valid() && Tree(frames, dir) && vaddr < TWO_TO_32 && lo <= PdeIndex(vaddr)
      modifies this
      ensures Valid() && Tree(frames, dir) && OnlyFrom(old(frames), frames, dir, lo)
      ensures forall p :: 0 <= p < PAGES ==> Lookup(frames, dir, p) == Lookup(old(frames), dir, p)
      ensures free == old(free) || (old(free) != [] && free == old(free)[1..])
      ensures Lookup(old(frames), dir, vaddr / PAGE_SIZE).Some? ==> free == old(free)
      ensures table == None ==> free == old(free) == [] && Lookup(frames, dir, vaddr / PAGE_SIZE) == None
      ensures table.Some? ==>
                Present(Word(frames, dir, PdeIndex(vaddr))) && Frame(Word(frames, dir, PdeIndex(vaddr))) == table.value
    {
      hide Tree, OnlyFrom, Lookup, Word, Frame, Present, PdeIndex, Distinct;
      IndexesOfPage(vaddr);
      DirIn(frames, dir);
      NoTable(frames, dir, vaddr / PAGE_SIZE);
      OnlyFromRefl(frames, dir, lo);
      var pde := Word(frames, dir, PdeIndex(vaddr));
      if Present(pde) {
        return Some(Frame(pde));
      }
      if free == [] {
        return None;
      }
      var t := free[0];
      free := free[1..];
      var v := t * PAGE_SIZE + pdeFlags;
      TableEntry(t, pdeFlags);
      TableAdded(frames, dir, lo, PdeIndex(vaddr), t, v);
      FirstTaken(old(free));
      frames := SetWord(frames[t := ZEROS], dir, PdeIndex(vaddr), v);
      return Some(t);
    }

    /** Map one page; `Stopped` if it is mapped already. */
    method MapPage(dir: nat, vaddr: nat, v: nat, ghost lo: nat) returns (r: MapResult)
      requires Valid() && Tree(frames, dir) && vaddr < TWO_TO_32 && lo <= PdeIndex(vaddr) && Present(v)
      modifies this
      ensures Valid() && Tree(frames, dir) && OnlyFrom(old(frames), frames, dir, lo)
      ensures |free| >= |old(free)| - if r == Mapped then 1 else 0
      ensures forall p :: 0 <= p < PAGES && p != vaddr / PAGE_SIZE ==> Lookup(frames, dir, p) == Lookup(old(frames), dir, p)
      ensures r == Mapped <==>
                Lookup(old(frames), dir, vaddr / PAGE_SIZE) == None && Lookup(frames, dir, vaddr / PAGE_SIZE).Some?
      ensures r == Mapped ==> Lookup(frames, dir, vaddr / PAGE_SIZE) == Some(v)
      ensures r != Mapped ==> Lookup(frames, dir, vaddr / PAGE_SIZE) == Lookup(old(frames), dir, vaddr / PAGE_SIZE)
      ensures r == NoMemory ==> free == old(free) == []
      ensures r == Stopped ==> Lookup(frames, dir, vaddr / PAGE_SIZE).Some?
    {
      hide Tree, OnlyFrom, Lookup, Word, Distinct, Present, Frame;
      IndexesOfPage(vaddr);
      var table := FindPte(dir, vaddr, lo);
      ghost var m := frames;
      if table == None {
        return NoMemory;
      }
      DirIn(old(frames), dir);
      LookupIs(frames, dir, vaddr / PAGE_SIZE);
      if Present(Word(frames, table.value, PteIndex(vaddr))) {
        return Stopped;
      }
      EntryWritten(frames, dir, lo, vaddr / PAGE_SIZE, v);
      frames := SetWord(frames, table.value, PteIndex(vaddr), v);
      OnlyFromTrans(old(frames), m, frames, dir, lo);
      r := Mapped;
    }

    /** Map `count` pages from `vaddr` on to the frames from `paddr` on. `done` is how many were mapped. */
    method CreateMap(dir: nat, vaddr: nat, paddr: nat, count: int, perm: nat, ghost lo: nat)
      returns (r: MapResult, ghost done: nat)
      requires Valid() && Tree(frames, dir) && vaddr < TWO_TO_32 && paddr < TWO_TO_32 && perm < TWO_TO_32
      requires forall i :: 0 <= i < count ==> lo <= PageAt(vaddr, i) / ENTRIES
      modifies this
      ensures Valid() && Tree(frames, dir) && OnlyFrom(old(frames), frames, dir, lo)
      ensures MappedUpTo(old(frames), frames, dir, vaddr, paddr, perm, done)
      ensures r == Mapped ==> done == if count > 0 then count else 0
      ensures r == NoMemory ==> done < count && free == []
      ensures r == Stopped ==> done < count && Lookup(frames, dir, PageAt(vaddr, done)).Some?
      ensures done <= PAGES && |free| >= |old(free)| - done
      ensures forall j :: 0 <= j < done ==> Lookup(old(frames), dir, PageAt(vaddr, j)) == None
      ensures count <= PAGES && (forall j :: 0 <= j < count ==> Lookup(old(frames), dir, PageAt(vaddr, j)) == None) ==>
                r != Stopped
      ensures |old(free)| >= count ==> r != NoMemory
    {
      hide Tree, OnlyFrom, Lookup, Word, Shaped, MappedUpTo, Valid, BitOr, Entry, PaddrAt, PageAt, Present;
      var i: nat, v: nat, p: nat := 0, vaddr, paddr;
      done := 0;
      DirIn(frames, dir);
      OnlyFromRefl(frames, dir, lo);
      FirstPage(frames, dir, vaddr, paddr, perm);
      while i < count
        invariant 0 <= i == done <= PAGES && (i <= count || i == 0)
        invariant Valid() && Tree(frames, dir) && OnlyFrom(old(frames), frames, dir, lo)
        invariant MappedUpTo(old(frames), frames, dir, vaddr, paddr, perm, done)
        invariant v < TWO_TO_32 && v / PAGE_SIZE == PageAt(vaddr, i) && p == PaddrAt(paddr, i)
        invariant |free| >= |old(free)| - done
        invariant forall j :: 0 <= j < done ==> Lookup(old(frames), dir, PageAt(vaddr, j)) == None
      {
        ghost var m := frames;
        EntryPresent(paddr, perm, i);
        IndexesOfPage(v);
        r := MapPage(dir, v, BitOr(BitOr(p, perm), PTE_P), lo);
        OnlyFromTrans(old(frames), m, frames, dir, lo);
        WasUnmapped(old(frames), m, dir, vaddr, paddr, perm, i);
        if r != Mapped {
          MappedSame(old(frames), m, frames, dir, vaddr, paddr, perm, i);
          return r, done;
        }
        MappedMore(old(frames), m, frames, dir, vaddr, paddr, perm, i);
        NextPage(vaddr, v, i);
        NextFrame(paddr, p, i);
        v := (v + PAGE_SIZE) % TWO_TO_32;
        p := (p + PAGE_SIZE) % TWO_TO_32;
        i := i + 1;
        done := done + 1;
      }
      r := Mapped;
    }

    /** A new address space that shares the kernel's half; its address, or 0 if there is no frame for it. */
    method CreateUvm() returns (pageDir: nat)
      requires Valid() && Tree(frames, kernelDir)
      modifies this
      ensures Valid() && Tree(frames, kernelDir)
      ensures forall f :: f in old(frames) ==> f in frames && frames[f] == old(frames)[f]
      ensures pageDir == 0 <==> old(free) == []
      ensures pageDir == 0 ==> frames == old(frames) && free == old(free)
      ensures pageDir != 0 ==>
                && pageDir == old(free)[0] * PAGE_SIZE && free == old(free)[1..]
                && Tree(frames, Frame(pageDir)) && SharesKernel(frames, kernelDir, Frame(pageDir))
                && forall p :: 0 <= p < PAGES ==>
                     Lookup(frames, Frame(pageDir), p) ==
                     if p < 0x8_0000 then Lookup(frames, kernelDir, p) else None
      ensures pageDir != 0 ==>
                && Frame(pageDir) !in old(frames)
                && forall j :: 512 <= j < 1024 ==> !Present(Word(frames, Frame(pageDir), j))
      ensures pageDir != 0 ==>
                forall a: nat :: a < 0x1_0000_0000 ==>
                  Translate(frames, Frame(pageDir), a) ==
                  if a < 0x8000_0000 then Translate(frames, kernelDir, a) else None
    {
      if free == [] {
        return 0;
      }
      FirstTaken(free);
      var dir: nat := free[0];
      free := free[1..];
      frames := frames[dir := ZEROS];
      ghost var m := old(frames);
      var i: nat := 0;
      while i < USER_PDE_START
        invariant i <= USER_PDE_START && free == old(free)[1..] && frames.Keys == m.Keys + {dir} && |frames[dir]| == ENTRIES
        invariant forall f :: f in m ==> frames[f] == m[f]
        invariant forall j :: 0 <= j < ENTRIES ==> frames[dir][j] == if j < i then m[kernelDir][j] else 0
      {
        frames := SetWord(frames, dir, i, Word(frames, kernelDir, i));
        i := i + 1;
      }
      pageDir := dir * PAGE_SIZE;
      HalfCopied(m, frames, kernelDir, dir);
      HalfTranslates(frames, kernelDir, dir);
    }
  }

  /** A directory with the lower half of the kernel's and nothing else. */
  lemma HalfCopied(m: Frames, m': Frames, kernel: nat, dir: nat)
    requires Shaped(m) && Tree(m, kernel) && dir !in m && m'.Keys == m.Keys + {dir}
    requires forall f :: f in m ==> m'[f] == m[f]
    requires |m'[dir]| == ENTRIES
    requires forall j :: 0 <= j < ENTRIES ==> m'[dir][j] == if j < USER_PDE_START then m[kernel][j] else 0
    ensures Shaped(m') && Tree(m', kernel) && Tree(m', dir) && SharesKernel(m', kernel, dir)
    ensures forall p :: 0 <= p < PAGES ==>
              Lookup(m', dir, p) == if p < 0x8_0000 then Lookup(m', kernel, p) else None
    ensures Frame(dir * PAGE_SIZE) == dir
  {
    forall f, j | f in m ensures Word(m', f, j) == Word(m, f, j) {}
    forall j | 0 <= j < ENTRIES ensures Word(m', dir, j) == if j < USER_PDE_START then Word(m, kernel, j) else 0 {}
    forall j | 0 <= j < ENTRIES && Present(Word(m', dir, j)) ensures j < USER_PDE_START {}
  }

  /** The lower half of the pages is the lower half of the addresses. */
  lemma HalfTranslates(m: Frames, kernel: nat, dir: nat)
    requires forall p :: 0 <= p < PAGES ==> Lookup(m, dir, p) == if p < 0x8_0000 then Lookup(m, kernel, p) else None
    ensures forall a: nat :: a < 0x1_0000_0000 ==>
              Translate(m, dir, a) == if a < 0x8000_0000 then Translate(m, kernel, a) else None
  {
    hide Lookup;
    forall a: nat | a < 0x1_0000_0000
      ensures Translate(m, dir, a) == if a < 0x8000_0000 then Translate(m, kernel, a) else None
    {
      IndexesOfPage(a);
      assert a / PAGE_SIZE < 0x8_0000 <==> a < 0x8000_0000;
    }
  }

  // ----- several address spaces

  /** Neither directory is a table of the other, and no table is for user addresses in one and in use in the other. */
  ghost predicate Apart(m: Frames, d1: nat, d2: nat)
  {
    && d1 in m && d2 in m && d1 != d2
    && NotTable(m, d1, 0, d2) && NotTable(m, d2, 0, d1)
    && (forall s, u ::
          && 0 <= s < ENTRIES && 0 <= u < ENTRIES && (s >= 512 || u >= 512)
          && Present(Word(m, d1, s)) && Present(Word(m, d2, u))
          ==> Frame(Word(m, d1, s)) != Frame(Word(m, d2, u)))
  }

  /** Directories that share the kernel's half and are otherwise apart. */
  ghost predicate Separate(m: Frames, kernel: nat, dirs: set<nat>)
  {
    && (forall d :: d in dirs ==> Tree(m, d) && SharesKernel(m, kernel, d))
    && (forall d1, d2 :: d1 in dirs && d2 in dirs && d1 != d2 ==> Apart(m, d1, d2))
  }

  /** What a map in the user half of one directory leaves of another one that is apart from it. */
  lemma OtherWords(m: Frames, m': Frames, dir: nat, other: nat)
    requires Apart(m, dir, other) && OnlyFrom(m, m', dir, 512)
    ensures other in m' && forall j :: Word(m', other, j) == Word(m, other, j)
    ensures forall u, j ::
              && 0 <= u < ENTRIES && Present(Word(m, other, u))
              && Frame(Word(m, other, u)) in m && Frame(Word(m, other, u)) != dir
              ==>
                Word(m', Frame(Word(m, other, u)), j) == Word(m, Frame(Word(m, other, u)), j)
  {
    assert NotTable(m, dir, 512, other);
    forall u | 0 <= u < ENTRIES && Present(Word(m, other, u))
      ensures NotTable(m, dir, 512, Frame(Word(m, other, u)))
    {
    }
  }

  /**
   * Maps from 0x80000000 on in one address space change no translation of another one, and leave the
   * two apart.
   */
  lemma MapsAreIsolated(m: Frames, m': Frames, dir: nat, other: nat, page: nat)
    requires Tree(m, dir) && Tree(m', dir) && Tree(m, other) && Apart(m, dir, other)
    requires OnlyFrom(m, m', dir, 512) && page < PAGES
    ensures Lookup(m', other, page) == Lookup(m, other, page)
    ensures Tree(m', other) && Apart(m', dir, other) && Apart(m', other, dir)
  {
    OtherWords(m, m', dir, other);
    hide OnlyFrom, Lookup;
    OldOrNew(m, m', dir);
    LookupSame(m, m', other, page);
  }

  /** A present entry of the directory was there before, or its table is a new frame. */
  lemma OldOrNew(m: Frames, m': Frames, dir: nat)
    requires OnlyFrom(m, m', dir, 512)
    ensures m.Keys <= m'.Keys
    ensures forall i :: 0 <= i < ENTRIES && Present(Word(m', dir, i)) ==>
              Word(m', dir, i) == Word(m, dir, i) || Frame(Word(m', dir, i)) !in m
    ensures forall i :: 0 <= i < 512 ==> Word(m', dir, i) == Word(m, dir, i)
  {
  }

  lemma LookupSame(m: Frames, m': Frames, dir: nat, page: nat)
    requires page < PAGES && forall j :: Word(m', dir, j) == Word(m, dir, j)
    requires forall u, j :: 0 <= u < ENTRIES && Present(Word(m, dir, u)) ==>
               Word(m', Frame(Word(m, dir, u)), j) == Word(m, Frame(Word(m, dir, u)), j)
    ensures Lookup(m', dir, page) == Lookup(m, dir, page)
  {
  }

  /** Two address spaces stay apart when a third one maps. */
  lemma OthersStayApart(m: Frames, m': Frames, dir: nat, d1: nat, d2: nat)
    requires Apart(m, dir, d1) && Apart(m, dir, d2) && Apart(m, d1, d2) && OnlyFrom(m, m', dir, 512)
    ensures Apart(m', d1, d2)
  {
    OtherWords(m, m', dir, d1);
    OtherWords(m, m', dir, d2);
    hide OnlyFrom, Word;
  }

  /** Address spaces stay separate whatever one of them maps in its user half. */
  lemma MapKeepsSeparate(m: Frames, m': Frames, kernel: nat, dirs: set<nat>, dir: nat)
    requires Separate(m, kernel, dirs) && dir in dirs && Tree(m', dir) && OnlyFrom(m, m', dir, 512)
    ensures Separate(m', kernel, dirs)
  {
    hide Tree, Apart, OnlyFrom, SharesKernel;
    forall d | d in dirs ensures Tree(m', d) && SharesKernel(m', kernel, d) {
      LowerHalfKept(m, m', kernel, dir, 0);
      if d != dir {
        MapsAreIsolated(m, m', dir, d, 0);
        StillShares(m, m', kernel, dir, d);
      }
    }
    forall d1, d2 | d1 in dirs && d2 in dirs && d1 != d2 ensures Apart(m', d1, d2) {
      if d1 == dir {
        MapsAreIsolated(m, m', dir, d2, 0);
      } else if d2 == dir {
        MapsAreIsolated(m, m', dir, d1, 0);
      } else {
        OthersStayApart(m, m', dir, d1, d2);
      }
    }
  }

  lemma StillShares(m: Frames, m': Frames, kernel: nat, dir: nat, other: nat)
    requires SharesKernel(m, kernel, dir) && SharesKernel(m', kernel, dir) && SharesKernel(m, kernel, other)
    requires Apart(m, dir, other) && OnlyFrom(m, m', dir, 512)
    ensures SharesKernel(m', kernel, other)
  {
    OtherWords(m, m', dir, other);
    OldOrNew(m, m', dir);
    hide OnlyFrom, Apart;
  }

  /** A new address space is apart from those that there are. */
  lemma NewSpaceSeparate(m: Frames, m': Frames, kernel: nat, dirs: set<nat>, dir: nat)
    requires Separate(m, kernel, dirs) && dir !in m && Tree(m', dir) && SharesKernel(m', kernel, dir)
    requires (forall f :: f in m ==> f in m' && m'[f] == m[f]) && kernel in m
    requires forall j :: 512 <= j < ENTRIES ==> !Present(Word(m', dir, j))
    ensures Separate(m', kernel, dirs + {dir})
  {
    forall f, j | f in m ensures Word(m', f, j) == Word(m, f, j) {}
    forall d | d in dirs ensures Tree(m', d) && SharesKernel(m', kernel, d) && Apart(m', d, dir) && Apart(m', dir, d) {
      assert Tree(m, d) && SharesKernel(m, kernel, d);
    }
    forall d1, d2 | d1 in dirs && d2 in dirs && d1 != d2 ensures Apart(m', d1, d2) {
      assert Apart(m, d1, d2);
      assert Tree(m, d1) && Tree(m, d2);
    }
    hide Apart, Tree, SharesKernel;
  }

  // ----- tearing down

  /** The allocator's view of a range of physical pages. */
  class AddrAlloc {
    const bitmap: Bitmap
    const start: nat
    const pageSize: nat

    ghost predicate Valid()
      reads bitmap
    {
      bitmap.Valid() && pageSize > 1
    }

    constructor (bits: array<bv8>, start: nat, size: nat, pageSize: nat)
      requires pageSize > 1 && Bitmap.ByteCount(PageCount(size, pageSize)) <= bits.Length
      modifies bits
      ensures Valid() && this.start == start && this.pageSize == pageSize
      ensures bitmap.bits == bits && bitmap.Contents() == seq(PageCount(size, pageSize), _ => false)
      ensures pageSize * bitmap.bitcount <= size < pageSize * (bitmap.bitcount + 1)
    {
      this.start := start;
      this.pageSize := pageSize;
      bitmap := new Bitmap(bits, PageCount(size, pageSize), 0);
    }

    static function PageCount(size: nat, pageSize: nat): nat
      requires pageSize > 0
    {
      NotNegative(size, pageSize);
      size / pageSize
    }

    /** The bit that stands for an address, after a 32-bit subtraction. */
    function PageIndex(addr: nat): nat
      requires pageSize > 0
    {
      NotNegative((addr - start) % TWO_TO_32, pageSize);
      (addr - start) % TWO_TO_32 / pageSize
    }

    method FreePage(addr: nat, count: int)
      requires Valid()
      modifies bitmap.bits
      ensures Valid() && bitmap.Contents() == Fill(old(bitmap.Contents()), PageIndex(addr), count, false)
    {
      bitmap.SetBit(PageIndex(addr), count, 0);
    }

    /** The bits of the pages at `addrs` cleared, one after the other. */
    ghost function Freed(b: seq<bool>, addrs: seq<nat>): (c: seq<bool>)
      requires pageSize > 0
      ensures |c| == |b|
    {
      if addrs == [] then b
      else Fill(Freed(b, addrs[..|addrs| - 1]), PageIndex(addrs[|addrs| - 1]), 1, false)
    }

    lemma {:induction false} FreedExactly(b: seq<bool>, addrs: seq<nat>, k: nat)
      requires pageSize > 0 && k < |b|
      ensures Freed(b, addrs)[k] <==> b[k] && forall a :: a in addrs ==> PageIndex(a) != k
    {
      if addrs != [] {
        var front, last := addrs[..|addrs| - 1], addrs[|addrs| - 1];
        FreedExactly(b, front, k);
        assert addrs == front + [last];
      }
    }

    lemma FreedMore(b: seq<bool>, addrs: seq<nat>, a: nat)
      requires pageSize > 0
      ensures Freed(b, addrs + [a]) == Fill(Freed(b, addrs), PageIndex(a), 1, false)
    {
      assert (addrs + [a])[..|addrs|] == addrs;
    }
  }

  lemma NotNegative(n: int, d: nat)
    requires n >= 0 && d > 0
    ensures n / d >= 0
  {
  }

  /** The pages that the first `j` entries of a table refer to. */
  ghost function PagesOf(m: Frames, table: nat, j: nat): seq<nat>
  {
    if j == 0 then []
    else PagesOf(m, table, j - 1) + if Present(Word(m, table, j - 1)) then [PhysAddr(Word(m, table, j - 1))] else []
  }

  /** The pages and tables of the user slots below slot `i`. */
  ghost function UserPages(m: Frames, dir: nat, i: nat): seq<nat>
  {
    if i <= USER_PDE_START then []
    else
      UserPages(m, dir, i - 1) +
      var pde := Word(m, dir, i - 1);
      if Present(pde) then PagesOf(m, Frame(pde), ENTRIES) + [PhysAddr(pde)] else []
  }

  lemma {:induction false} PagesOfAre(m: Frames, table: nat, j: nat, a: nat)
    ensures a in PagesOf(m, table, j) <==>
            exists k :: 0 <= k < j && Present(Word(m, table, k)) && a == PhysAddr(Word(m, table, k))
  {
    if j > 0 { PagesOfAre(m, table, j - 1, a); }
  }

  /** `a` is the address of a table in a user slot of the directory, or of a page in such a table. */
  ghost predicate InUserHalf(m: Frames, dir: nat, i: nat, a: nat)
  {
    exists s :: USER_PDE_START <= s < i && InSlot(m, dir, s, a)
  }

  ghost predicate InSlot(m: Frames, dir: nat, s: nat, a: nat)
  {
    var pde := Word(m, dir, s);
    && Present(pde)
    && (a == PhysAddr(pde) ||
        exists k :: 0 <= k < ENTRIES && Present(Word(m, Frame(pde), k)) && a == PhysAddr(Word(m, Frame(pde), k)))
  }

  lemma {:induction false} UserPagesAre(m: Frames, dir: nat, i: nat, a: nat)
    ensures a in UserPages(m, dir, i) <==> InUserHalf(m, dir, i, a)
  {
    if i > USER_PDE_START {
      UserPagesAre(m, dir, i - 1, a);
      var pde := Word(m, dir, i - 1);
      PagesOfAre(m, Frame(pde), ENTRIES, a);
      assert InUserHalf(m, dir, i, a) <==> InUserHalf(m, dir, i - 1, a) || InSlot(m, dir, i - 1, a);
    }
  }

  /** `a` is the address of a present table of a user slot. */
  ghost predicate IsUserTable(m: Frames, dir: nat, a: nat)
  {
    exists s :: 512 <= s < ENTRIES && Present(Word(m, dir, s)) && a == PhysAddr(Word(m, dir, s))
  }

  /** `a` is the address of a page that some user address translates to. */
  ghost predicate IsUserPage(m: Frames, dir: nat, a: nat)
  {
    exists p :: 0x8_0000 <= p < 0x10_0000 && Lookup(m, dir, p).Some? && a == PhysAddr(Lookup(m, dir, p).value)
  }

  /** What a teardown gives back, in terms of translation. */
  lemma UserHalfIs(m: Frames, dir: nat, a: nat)
    ensures InUserHalf(m, dir, ENTRIES, a) <==> IsUserTable(m, dir, a) || IsUserPage(m, dir, a)
  {
    if InUserHalf(m, dir, ENTRIES, a) && !IsUserTable(m, dir, a) {
      var s :| 512 <= s < ENTRIES && InSlot(m, dir, s, a);
      var t := Frame(Word(m, dir, s));
      var k :| 0 <= k < ENTRIES && Present(Word(m, t, k)) && a == PhysAddr(Word(m, t, k));
      PageOf(s, k);
      assert Lookup(m, dir, s * ENTRIES + k) == Some(Word(m, t, k));
    }
    if IsUserTable(m, dir, a) {
      var s :| 512 <= s < ENTRIES && Present(Word(m, dir, s)) && a == PhysAddr(Word(m, dir, s));
      assert InSlot(m, dir, s, a);
    }
    if IsUserPage(m, dir, a) {
      var p :| 0x8_0000 <= p < PAGES && Lookup(m, dir, p).Some? && a == PhysAddr(Lookup(m, dir, p).value);
      assert Present(Word(m, Frame(Word(m, dir, p / ENTRIES)), p % ENTRIES));
      assert InSlot(m, dir, p / ENTRIES, a);
    }
  }

  lemma PageOf(s: nat, k: nat)
    requires k < ENTRIES
    ensures (s * ENTRIES + k) / ENTRIES == s && (s * ENTRIES + k) % ENTRIES == k
  {
  }

  /**
   * Tearing down clears exactly the bits of the directory, of the present tables of its user half and
   * of the pages present in those; if these all lie in the allocator's range, each has its own bit.
   */
  lemma TeardownExact(m: Frames, pageDir: nat, alloc: AddrAlloc, b: seq<bool>, k: nat)
    requires alloc.pageSize > 0 && k < |b|
    ensures alloc.Freed(b, UserPages(m, Frame(pageDir), ENTRIES) + [pageDir])[k] <==>
            b[k] && alloc.PageIndex(pageDir) != k
            && forall a :: IsUserTable(m, Frame(pageDir), a) || IsUserPage(m, Frame(pageDir), a) ==> alloc.PageIndex(a) != k
  {
    var l := UserPages(m, Frame(pageDir), ENTRIES);
    alloc.FreedExactly(b, l + [pageDir], k);
    hide IsUserTable, IsUserPage, InUserHalf;
    forall a ensures a in l <==> IsUserTable(m, Frame(pageDir), a) || IsUserPage(m, Frame(pageDir), a) {
      UserPagesAre(m, Frame(pageDir), ENTRIES, a);
      UserHalfIs(m, Frame(pageDir), a);
    }
  }

  /** In the allocator's range the bit number is the frame number, counted from the start of the range. */
  lemma OwnBit(alloc: AddrAlloc, a: nat)
    requires alloc.pageSize == 4096 && alloc.start % 4096 == 0 && a % 4096 == 0
    requires alloc.start <= a < 0x1_0000_0000
    ensures alloc.PageIndex(a) == Frame(a) - Frame(alloc.start) == (a - alloc.start) / 4096
  {
  }

  /** Give back an address space: the pages and tables of its user half, and the directory. */
  method DestroyUvm(m: Frames, pageDir: nat, alloc: AddrAlloc)
    requires pageDir != 0 && alloc.Valid()
    modifies alloc.bitmap.bits
    ensures alloc.Valid()
    ensures alloc.bitmap.Contents() ==
            alloc.Freed(old(alloc.bitmap.Contents()), UserPages(m, Frame(pageDir), ENTRIES) + [pageDir])
  {
    ghost var b := alloc.bitmap.Contents();
    var dir := Frame(pageDir);
    var i: nat := USER_PDE_START;
    while i < ENTRIES
      invariant USER_PDE_START <= i <= ENTRIES && alloc.Valid()
      invariant alloc.bitmap.Contents() == alloc.Freed(b, UserPages(m, dir, i))
    {
      var pde := Word(m, dir, i);
      if Present(pde) {
        FreeTable(m, pde, alloc, b, UserPages(m, dir, i));
      } else {
        assert UserPages(m, dir, i + 1) == UserPages(m, dir, i);
      }
      i := i + 1;
    }
    alloc.FreedMore(b, UserPages(m, dir, ENTRIES), pageDir);
    alloc.FreePage(pageDir, 1);
  }

  /** The pages of one table, then the table. */
  method FreeTable(m: Frames, pde: nat, alloc: AddrAlloc, ghost b: seq<bool>, ghost before: seq<nat>)
    requires alloc.Valid() && alloc.bitmap.Contents() == alloc.Freed(b, before)
    modifies alloc.bitmap.bits
    ensures alloc.Valid()
    ensures alloc.bitmap.Contents() == alloc.Freed(b, before + (PagesOf(m, Frame(pde), ENTRIES) + [PhysAddr(pde)]))
  {
    var table := Frame(pde);
    var j: nat := 0;
    assert before + PagesOf(m, table, 0) == before;
    while j < ENTRIES
      invariant j <= ENTRIES && alloc.Valid()
      invariant alloc.bitmap.Contents() == alloc.Freed(b, before + PagesOf(m, table, j))
    {
      var pte := Word(m, table, j);
      ghost var sofar := before + PagesOf(m, table, j);
      if Present(pte) {
        alloc.FreedMore(b, sofar, PhysAddr(pte));
        alloc.FreePage(PhysAddr(pte), 1);
        assert sofar + [PhysAddr(pte)] == before + PagesOf(m, table, j + 1);
      } else {
        assert PagesOf(m, table, j + 1) == PagesOf(m, table, j);
      }
      j := j + 1;
    }
    ghost var sofar := before + PagesOf(m, table, ENTRIES);
    alloc.FreedMore(b, sofar, PhysAddr(pde));
    alloc.FreePage(PhysAddr(pde), 1);
    assert sofar + [PhysAddr(pde)] == before + (PagesOf(m, table, ENTRIES) + [PhysAddr(pde)]);
  }
}
