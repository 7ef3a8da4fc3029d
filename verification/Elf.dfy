/** Loading the segments of an ELF file that lies in memory to their physical addresses. */
module Elf {

  newtype byte = x: int | 0 <= x < 256

  const ELF_MAGIC: byte := 0x7f
  const PT_LOAD := 1
  const EHDR_SIZE := 52
  const PHDR_SIZE := 32

  // ----- little-endian fields

  function U16(c: seq<byte>, at: nat): (v: nat)
    requires at + 2 <= |c|
    ensures v < 0x1_0000
  {
    c[at] as int + 0x100 * c[at + 1] as int
  }

  function U32(c: seq<byte>, at: nat): (v: nat)
    requires at + 4 <= |c|
    ensures v < 0x1_0000_0000
  {
    U16(c, at) + 0x1_0000 * U16(c, at + 2)
  }

  predicate IsElf(c: seq<byte>, file: nat)
    requires file + 4 <= |c|
  {
    c[file] == ELF_MAGIC && c[file + 1] == 0x45 && c[file + 2] == 0x4c && c[file + 3] == 0x46
  }

  /** The fields of the ELF header that the loader uses. */
  function Entry(c: seq<byte>, file: nat): nat
    requires file + EHDR_SIZE <= |c|
  {
    U32(c, file + 24)
  }

  function PhOff(c: seq<byte>, file: nat): nat
    requires file + EHDR_SIZE <= |c|
  {
    U32(c, file + 28)
  }

  function PhNum(c: seq<byte>, file: nat): nat
    requires file + EHDR_SIZE <= |c|
  {
    U16(c, file + 44)
  }

  datatype Segment = Segment(load: bool, offset: nat, paddr: nat, filesz: nat, memsz: nat)

  function SegmentAt(c: seq<byte>, at: nat): Segment
    requires at + PHDR_SIZE <= |c|
  {
    Segment(U32(c, at) == PT_LOAD, U32(c, at + 4), U32(c, at + 12), U32(c, at + 16), U32(c, at + 20))
  }

  /** The program headers of the file. */
  function Segments(c: seq<byte>, file: nat): (s: seq<Segment>)
    requires file + EHDR_SIZE <= |c| && file + PhOff(c, file) + PHDR_SIZE * PhNum(c, file) <= |c|
    ensures |s| == PhNum(c, file)
  {
    seq(PhNum(c, file), i requires 0 <= i < PhNum(c, file) => SegmentAt(c, file + PhOff(c, file) + PHDR_SIZE * i))
  }

  /** `a` is in the memory of the segment. */
  predicate Covers(s: Segment, a: nat)
  {
    s.load && s.paddr <= a < s.paddr + s.memsz
  }

  /**
   * What the file format asks of a file of `len` bytes at `file`, and the loader of its place: headers
   * and contents are inside the file, no segment is larger in the file than in memory, and the memory
   * of every segment exists and is apart from the file.
   */
  ghost predicate Loadable(c: seq<byte>, file: nat, len: nat)
  {
    && EHDR_SIZE <= len && file + len <= |c|
    && PhOff(c, file) + PHDR_SIZE * PhNum(c, file) <= len
    && forall s :: s in Segments(c, file) && s.load ==> SegmentFits(s, |c|, file, len)
  }

  predicate SegmentFits(s: Segment, size: nat, file: nat, len: nat)
  {
    && s.filesz <= s.memsz < 0x8000_0000 && s.offset + s.filesz <= len
    && s.paddr + s.memsz <= size
    && (s.paddr + s.memsz <= file || file + len <= s.paddr)
  }

  // ----- the memory after loading

  /** The byte of a segment's memory `o` bytes from its start: from the file, then zeros. */
  function SegmentByte(c: seq<byte>, file: nat, s: Segment, o: nat): byte
    requires s.offset + s.filesz + file <= |c|
  {
    if o < s.filesz then c[file + s.offset + o] else 0
  }

  /** The file parts of the segments are in memory. */
  ghost predicate Readable(c: seq<byte>, file: nat, ss: seq<Segment>)
  {
    forall s :: s in ss && s.load ==> s.offset + s.filesz + file <= |c|
  }

  /** The byte at `a` after the segments `ss` were loaded: that of the last one that covers it. */
  ghost function ByteAfter(c: seq<byte>, file: nat, ss: seq<Segment>, a: nat): byte
    requires a < |c| && Readable(c, file, ss)
  {
    if ss == [] then c[a]
    else
      var s := ss[|ss| - 1];
      if Covers(s, a) then SegmentByte(c, file, s, a - s.paddr)
      else ByteAfter(c, file, ss[..|ss| - 1], a)
  }

  ghost predicate After(c: seq<byte>, c': seq<byte>, file: nat, ss: seq<Segment>)
    requires Readable(c, file, ss)
  {
    |c'| == |c| && forall a :: 0 <= a < |c| ==> c'[a] == ByteAfter(c, file, ss, a)
  }

  /** Segments that do not cover the file leave it as it is. */
  lemma {:induction false} FileKept(c: seq<byte>, file: nat, len: nat, ss: seq<Segment>, a: nat)
    requires file <= a < file + len <= |c|
    requires (forall s :: s in ss && s.load ==> SegmentFits(s, |c|, file, len)) && Readable(c, file, ss)
    ensures ByteAfter(c, file, ss, a) == c[a]
  {
    if ss != [] {
      assert ss[|ss| - 1] in ss;
      FileKept(c, file, len, ss[..|ss| - 1], a);
    }
  }

  lemma FieldsKept(c: seq<byte>, c': seq<byte>, file: nat, len: nat, i: nat)
    requires EHDR_SIZE <= len && file + len <= |c| == |c'| && PhOff(c, file) + PHDR_SIZE * PhNum(c, file) <= len
    requires forall a :: file <= a < file + len ==> c'[a] == c[a]
    ensures Entry(c', file) == Entry(c, file) && PhOff(c', file) == PhOff(c, file) && PhNum(c', file) == PhNum(c, file)
    ensures i < PhNum(c, file) ==>
              var at := file + PhOff(c, file) + PHDR_SIZE * i;
              at + PHDR_SIZE <= |c| && SegmentAt(c', at) == SegmentAt(c, at) == Segments(c, file)[i]
  {
  }

  /** Copy the file part of a segment and zero the rest of its memory. */
  method LoadSegment(mem: array<byte>, file: nat, len: nat, s: Segment, ghost c: seq<byte>, ghost ss: seq<Segment>)
    requires s.load && |c| == mem.Length && file + len <= |c| && SegmentFits(s, mem.Length, file, len)
    requires (forall x :: x in ss && x.load ==> SegmentFits(x, |c|, file, len)) && Readable(c, file, ss)
    requires After(c, mem[..], file, ss)
    modifies mem
    ensures Readable(c, file, ss + [s]) && After(c, mem[..], file, ss + [s])
  {
    forall a | file <= a < file + len ensures mem[a] == c[a] {
      FileKept(c, file, len, ss, a);
      assert mem[a] == mem[..][a];
    }
    ghost var m := mem[..];
    var src, dest := file + s.offset, s.paddr;
    var j := 0;
    while j < s.filesz
      invariant j <= s.filesz && src == file + s.offset + j && dest == s.paddr + j
      invariant forall a :: 0 <= a < |c| ==>
                  mem[a] == if s.paddr <= a < s.paddr + j then c[file + s.offset + (a - s.paddr)] else m[a]
    {
      mem[dest] := mem[src];
      dest, src := dest + 1, src + 1;
      j := j + 1;
    }
    dest := s.paddr + s.filesz;
    j := 0;
    while j < s.memsz - s.filesz
      invariant j <= s.memsz - s.filesz && dest == s.paddr + s.filesz + j
      invariant forall a :: 0 <= a < |c| ==>
                  mem[a] == if s.paddr <= a < s.paddr + s.filesz + j then SegmentByte(c, file, s, a - s.paddr) else m[a]
    {
      mem[dest] := 0;
      dest := dest + 1;
      j := j + 1;
    }
    assert (ss + [s])[..|ss|] == ss;
    forall a | 0 <= a < |c| ensures mem[a] == ByteAfter(c, file, ss + [s], a) {
      assert m[a] == ByteAfter(c, file, ss, a);
    }
  }

  /** Load the file at `file`; its entry point, or 0 if it is not an ELF file. */
  method ReloadElfFile(mem: array<byte>, file: nat, len: nat) returns (entry: nat)
    requires 4 <= len && file + len <= mem.Length
    requires IsElf(mem[..], file) ==> Loadable(mem[..], file, len)
    modifies mem
    ensures !IsElf(old(mem[..]), file) ==> entry == 0 && mem[..] == old(mem[..])
    ensures IsElf(old(mem[..]), file) ==>
              && file + 28 <= mem.Length
              && entry == old(mem[file + 24]) as int + 0x100 * old(mem[file + 25]) as int
                          + 0x1_0000 * old(mem[file + 26]) as int + 0x100_0000 * old(mem[file + 27]) as int
    ensures IsElf(old(mem[..]), file) ==>
              && Readable(old(mem[..]), file, Segments(old(mem[..]), file))
              && entry == Entry(old(mem[..]), file)
              && After(old(mem[..]), mem[..], file, Segments(old(mem[..]), file))
  {
    hide Loadable, After, ByteAfter, Readable, Segments, SegmentAt, Entry, PhNum, PhOff, U16, U32;
    ghost var c := mem[..];
    if mem[file] != ELF_MAGIC || mem[file + 1] != 0x45 || mem[file + 2] != 0x4c || mem[file + 3] != 0x46 {
      return 0;
    }
    HeadersThere(c, file, len);
    ghost var ss := Segments(c, file);
    StillReadable(c, c, file, len, 0);
    var i: nat := 0;
    while i < PhNum(mem[..], file)
      invariant i <= |ss| == PhNum(mem[..], file) && Entry(mem[..], file) == Entry(c, file)
      invariant Readable(c, file, ss[..i]) && After(c, mem[..], file, ss[..i])
    {
      StillReadable(c, mem[..], file, len, i);
      LoadHeader(mem, file, len, i, c);
      i := i + 1;
      StillReadable(c, mem[..], file, len, i);
    }
    assert ss[..i] == ss;
    entry := Entry(mem[..], file);
    EntryBytes(c, file);
  }

  lemma EntryBytes(c: seq<byte>, file: nat)
    requires file + EHDR_SIZE <= |c|
    ensures Entry(c, file) == c[file + 24] as int + 0x100 * c[file + 25] as int
                              + 0x1_0000 * c[file + 26] as int + 0x100_0000 * c[file + 27] as int
  {
  }

  lemma HeadersThere(c: seq<byte>, file: nat, len: nat)
    requires Loadable(c, file, len)
    ensures file + EHDR_SIZE <= |c| && file + PhOff(c, file) + PHDR_SIZE * PhNum(c, file) <= |c|
  {
  }

  /** One pass of the loader's loop. */
  method LoadHeader(mem: array<byte>, file: nat, len: nat, i: nat, ghost c: seq<byte>)
    requires Loadable(c, file, len) && i < PhNum(c, file) && mem.Length == |c|
    requires Readable(c, file, Segments(c, file)[..i]) && After(c, mem[..], file, Segments(c, file)[..i])
    modifies mem
    ensures Readable(c, file, Segments(c, file)[..i + 1]) && After(c, mem[..], file, Segments(c, file)[..i + 1])
  {
    ghost var ss := Segments(c, file);
    StillReadable(c, mem[..], file, len, i);
    assert ss[..i + 1] == ss[..i] + [ss[i]] && ss[i] in ss;
    hide *;
    var phdr := SegmentAt(mem[..], file + PhOff(mem[..], file) + PHDR_SIZE * i);
    if phdr.load {
      LoadSegment(mem, file, len, phdr, c, ss[..i]);
    } else {
      SkipSegment(c, mem[..], file, ss[..i], phdr);
    }
  }

  /** While the first `i` segments are loaded the headers read as they did at the start. */
  lemma StillReadable(c: seq<byte>, c': seq<byte>, file: nat, len: nat, i: nat)
    requires Loadable(c, file, len) && i <= PhNum(c, file) && |c'| == |c|
    requires c' == c || (Readable(c, file, Segments(c, file)[..i]) && After(c, c', file, Segments(c, file)[..i]))
    ensures file + EHDR_SIZE <= |c|
    ensures Readable(c, file, Segments(c, file)[..i])
    ensures i == 0 ==> After(c, c', file, [])
    ensures Segments(c, file)[..0] == []
    ensures Entry(c', file) == Entry(c, file) && PhNum(c', file) == PhNum(c, file) == |Segments(c, file)|
    ensures i < PhNum(c, file) ==>
              var at := file + PhOff(c', file) + PHDR_SIZE * i;
              && at + PHDR_SIZE <= |c| && SegmentAt(c', at) == Segments(c, file)[i]
              && (Segments(c, file)[i].load ==> SegmentFits(Segments(c, file)[i], |c|, file, len))
  {
    var ss := Segments(c, file);
    forall s | s in ss[..i] && s.load ensures SegmentFits(s, |c|, file, len) && s.offset + s.filesz + file <= |c| {
      assert s in ss;
    }
    assert i < |ss| ==> ss[i] in ss;
    if c' != c {
      KeptFile(c, c', file, len, ss[..i]);
    }
    FieldsKept(c, c', file, len, i);
  }

  lemma SkipSegment(c: seq<byte>, c': seq<byte>, file: nat, ss: seq<Segment>, s: Segment)
    requires Readable(c, file, ss) && After(c, c', file, ss) && !s.load
    ensures Readable(c, file, ss + [s]) && After(c, c', file, ss + [s])
  {
    assert (ss + [s])[..|ss|] == ss;
  }

  lemma KeptFile(c: seq<byte>, c': seq<byte>, file: nat, len: nat, ss: seq<Segment>)
    requires file + len <= |c|
    requires (forall s :: s in ss && s.load ==> SegmentFits(s, |c|, file, len)) && Readable(c, file, ss)
    requires After(c, c', file, ss)
    ensures forall a :: file <= a < file + len ==> c'[a] == c[a]
  {
    forall a | file <= a < file + len ensures c'[a] == c[a] {
      FileKept(c, file, len, ss, a);
    }
  }

  // ----- separate segments

  /**
   * If no two loaded segments share memory, each holds its own bytes of the file followed by zeros, in
   * whatever order they were loaded; all memory outside of them is unchanged.
   */
  lemma {:induction false} SeparateSegments(c: seq<byte>, file: nat, ss: seq<Segment>, a: nat)
    requires a < |c| && Readable(c, file, ss)
    requires forall i, j :: 0 <= i < j < |ss| && Covers(ss[i], a) ==> !Covers(ss[j], a)
    ensures forall i :: 0 <= i < |ss| && Covers(ss[i], a) ==>
              ByteAfter(c, file, ss, a) == SegmentByte(c, file, ss[i], a - ss[i].paddr)
    ensures (forall i :: 0 <= i < |ss| ==> !Covers(ss[i], a)) ==> ByteAfter(c, file, ss, a) == c[a]
  {
    if ss != [] {
      SeparateSegments(c, file, ss[..|ss| - 1], a);
    }
  }

  // ----- a file laid out by the format

  /** The bytes of a number, lowest first. */
  function Le16(v: nat): seq<byte>
    requires v < 0x1_0000
  {
    [(v % 0x100) as byte, (v / 0x100) as byte]
  }

  function Le32(v: nat): seq<byte>
    requires v < 0x1_0000_0000
  {
    Le16(v % 0x1_0000) + Le16(v / 0x1_0000)
  }

  /** The bytes from `at` on are those of `v`. */
  predicate Stands(c: seq<byte>, at: nat, v: nat)
  {
    v < 0x1_0000_0000 && at + 4 <= |c| && c[at..at + 4] == Le32(v)
  }

  /** A program header: type, offset in the file, physical address, size in the file and size in memory. */
  predicate HeaderStands(c: seq<byte>, at: nat, s: Segment)
  {
    && at + 32 <= |c| && (s.load <==> Stands(c, at, 1))
    && Stands(c, at + 4, s.offset) && Stands(c, at + 12, s.paddr)
    && Stands(c, at + 16, s.filesz) && Stands(c, at + 20, s.memsz)
  }

  /** An ELF file with that entry point and those program headers, from byte `phoff` of the file on. */
  ghost predicate FileStands(c: seq<byte>, file: nat, entry: nat, phoff: nat, ss: seq<Segment>)
  {
    && file + 52 <= |c| && file + phoff + 32 * |ss| <= |c| && |ss| < 0x1_0000
    && c[file..file + 4] == [0x7f, 'E' as byte, 'L' as byte, 'F' as byte]
    && Stands(c, file + 24, entry) && Stands(c, file + 28, phoff) && c[file + 44..file + 46] == Le16(|ss|)
    && forall i :: 0 <= i < |ss| ==> HeaderStands(c, file + phoff + 32 * i, ss[i])
  }

  lemma ReadsBack16(c: seq<byte>, at: nat, v: nat)
    requires at + 2 <= |c| && v < 0x1_0000
    ensures c[at..at + 2] == Le16(v) <==> U16(c, at) == v
  {
    var b := c[at..at + 2];
    assert b[0] == c[at] && b[1] == c[at + 1];
    assert b == Le16(v) <==> b[0] == Le16(v)[0] && b[1] == Le16(v)[1];
  }

  lemma ReadsBack(c: seq<byte>, at: nat, v: nat)
    requires at + 4 <= |c| && v < 0x1_0000_0000
    ensures Stands(c, at, v) <==> U32(c, at) == v
  {
    var b, lo, hi := c[at..at + 4], v % 0x1_0000, v / 0x1_0000;
    assert b == c[at..at + 2] + c[at + 2..at + 4];
    ReadsBack16(c, at, lo);
    ReadsBack16(c, at + 2, hi);
    hide Le16, U16;
    assert b == Le32(v) <==> c[at..at + 2] == Le16(lo) && c[at + 2..at + 4] == Le16(hi) by {
      assert |Le16(lo)| == 2 by { TwoBytes(lo); }
      assert |c[at..at + 2]| == 2;
      assert b[..2] == c[at..at + 2] && b[2..] == c[at + 2..at + 4];
      assert Le32(v)[..2] == Le16(lo) && Le32(v)[2..] == Le16(hi);
    }
  }

  lemma TwoBytes(v: nat)
    requires v < 0x1_0000
    ensures |Le16(v)| == 2
  {
  }

  lemma HeaderReadsBack(c: seq<byte>, at: nat, s: Segment)
    requires HeaderStands(c, at, s)
    ensures SegmentAt(c, at) == s
  {
    ReadsBack(c, at, 1);
    ReadsBack(c, at + 4, s.offset);
    ReadsBack(c, at + 12, s.paddr);
    ReadsBack(c, at + 16, s.filesz);
    ReadsBack(c, at + 20, s.memsz);
    hide U32, Stands;
  }

  /** What is taken for an ELF file. */
  lemma MagicBytes(c: seq<byte>, file: nat)
    requires file + 4 <= |c|
    ensures IsElf(c, file) <==> c[file..file + 4] == [0x7f, 'E' as byte, 'L' as byte, 'F' as byte]
  {
    var magic := c[file..file + 4];
    assert magic[0] == c[file] && magic[1] == c[file + 1] && magic[2] == c[file + 2] && magic[3] == c[file + 3];
  }

  /** Reading a file gives back what it was laid out from. */
  lemma FileReadsBack(c: seq<byte>, file: nat, entry: nat, phoff: nat, ss: seq<Segment>)
    requires FileStands(c, file, entry, phoff, ss)
    ensures IsElf(c, file) && Entry(c, file) == entry && PhOff(c, file) == phoff && PhNum(c, file) == |ss|
    ensures Segments(c, file) == ss
  {
    MagicBytes(c, file);
    ReadsBack(c, file + 24, entry);
    ReadsBack(c, file + 28, phoff);
    ReadsBack16(c, file + 44, |ss|);
    hide U32, U16, Stands, HeaderStands, SegmentAt;
    forall i | 0 <= i < |ss| ensures Segments(c, file)[i] == ss[i] {
      HeaderReadsBack(c, file + phoff + 32 * i, ss[i]);
    }
  }

  /**
   * After loading a file whose segments share no memory, each segment has its bytes of the file and then
   * zeros, and all other memory is as before; `a` is any address.
   */
  lemma LoadedImage(c: seq<byte>, c': seq<byte>, file: nat, entry: nat, phoff: nat, ss: seq<Segment>, a: nat)
    requires FileStands(c, file, entry, phoff, ss) && a < |c|
    requires Readable(c, file, Segments(c, file)) && After(c, c', file, Segments(c, file))
    requires forall i, j :: 0 <= i < j < |ss| && ss[i].load && ss[j].load ==>
               ss[i].paddr + ss[i].memsz <= ss[j].paddr || ss[j].paddr + ss[j].memsz <= ss[i].paddr
    ensures |c'| == |c|
    ensures forall i :: 0 <= i < |ss| && ss[i].load && ss[i].paddr <= a < ss[i].paddr + ss[i].memsz ==>
              var o := a - ss[i].paddr;
              && (o < ss[i].filesz ==> file + ss[i].offset + o < |c|)
              && c'[a] == if o < ss[i].filesz then c[file + ss[i].offset + o] else 0
    ensures (forall i :: 0 <= i < |ss| && ss[i].load ==> !(ss[i].paddr <= a < ss[i].paddr + ss[i].memsz)) ==> c'[a] == c[a]
  {
    hide *;
    FileReadsBack(c, file, entry, phoff, ss);
    ImageOf(c, c', file, ss, a);
  }

  lemma ImageOf(c: seq<byte>, c': seq<byte>, file: nat, ss: seq<Segment>, a: nat)
    requires a < |c| && Readable(c, file, ss) && After(c, c', file, ss)
    requires forall i, j :: 0 <= i < j < |ss| && ss[i].load && ss[j].load ==>
               ss[i].paddr + ss[i].memsz <= ss[j].paddr || ss[j].paddr + ss[j].memsz <= ss[i].paddr
    ensures |c'| == |c|
    ensures forall i :: 0 <= i < |ss| && ss[i].load && ss[i].paddr <= a < ss[i].paddr + ss[i].memsz ==>
              var o := a - ss[i].paddr;
              && (o < ss[i].filesz ==> file + ss[i].offset + o < |c|)
              && c'[a] == if o < ss[i].filesz then c[file + ss[i].offset + o] else 0
    ensures (forall i :: 0 <= i < |ss| && ss[i].load ==> !(ss[i].paddr <= a < ss[i].paddr + ss[i].memsz)) ==> c'[a] == c[a]
  {
    hide ByteAfter;
    assert forall i :: 0 <= i < |ss| ==> ss[i] in ss;
    SeparateSegments(c, file, ss, a);
    assert c'[a] == ByteAfter(c, file, ss, a);
  }
}
