/** ELF32 images: validation, loading into a window of memory, and page permissions of the user zone. */
module Elf {
  import opened Bytes
  import opened Words

  const EHDR_SIZE := 52
  const PHDR_SIZE := 32
  const PT_LOAD := 1

  type Image = b: seq<Byte> | |b| < WORD_LIMIT

  datatype Status = Ok | BadMagic | BadClass | BadType | BadMachine | BadHeaders | NoSegments

  /** A program header; p_paddr and p_align are not used. */
  datatype Phdr = Phdr(kind: Word32, offset: Word32, vaddr: Word32, filesz: Word32, memsz: Word32, flags: Word32)

  function Half(b: seq<Byte>, o: nat): int
    requires o + 2 <= |b|
  {
    b[o] as int + 256 * b[o + 1] as int
  }

  function Full(b: seq<Byte>, o: nat): Word32
    requires o + 4 <= |b|
  {
    FromLe(b[o..o + 4])
  }

  function Entry(img: Image): Word32
    requires |img| >= EHDR_SIZE
  {
    Full(img, 24)
  }

  function Phoff(img: Image): nat
    requires |img| >= EHDR_SIZE
  {
    Full(img, 28)
  }

  function Phnum(img: Image): nat
    requires |img| >= EHDR_SIZE
  {
    Half(img, 44)
  }

  /** The program header table lies inside the image. */
  predicate TableInside(img: Image) {
    |img| >= EHDR_SIZE && Phoff(img) + PHDR_SIZE * Phnum(img) <= |img|
  }

  function PhdrAt(img: Image, i: nat): Phdr
    requires TableInside(img) && i < Phnum(img)
  {
    var o := Phoff(img) + PHDR_SIZE * i;
    Phdr(Full(img, o), Full(img, o + 4), Full(img, o + 8), Full(img, o + 16), Full(img, o + 20), Full(img, o + 24))
  }

  predicate HasMagic(img: Image) {
    |img| >= EHDR_SIZE && img[..4] == [0x7F, 'E' as int, 'L' as int, 'F' as int]
  }

  predicate Sensible(img: Image, p: Phdr) {
    p.kind == PT_LOAD ==> p.filesz <= p.memsz && p.offset as int + p.filesz as int <= |img|
  }

  /** What each verdict means; the first defect found decides. */
  ghost predicate Deserves(img: Image, s: Status) {
    if !HasMagic(img) then s == BadMagic
    else if img[4] != 1 || img[5] != 1 then s == BadClass
    else if Half(img, 16) != 2 then s == BadType
    else if Half(img, 18) != 3 then s == BadMachine
    else if Phnum(img) == 0 || Half(img, 42) != PHDR_SIZE then s == NoSegments
    else if !TableInside(img) then s == BadHeaders
    else if exists i :: 0 <= i < Phnum(img) && !Sensible(img, PhdrAt(img, i)) then s == BadHeaders
    else if exists i :: 0 <= i < Phnum(img) && PhdrAt(img, i).kind == PT_LOAD then s == Ok
    else s == NoSegments
  }

  method Validate(img: Image) returns (s: Status)
    ensures Deserves(img, s)
  {
    hide PhdrAt, Sensible;
    if |img| < EHDR_SIZE {
      return BadMagic;
    }
    if img[0] != 0x7F || img[1] != 'E' as int || img[2] != 'L' as int || img[3] != 'F' as int {
      return BadMagic;
    }
    if img[4] != 1 || img[5] != 1 {
      return BadClass;
    }
    if Half(img, 16) != 2 {
      return BadType;
    }
    if Half(img, 18) != 3 {
      return BadMachine;
    }
    if Phnum(img) == 0 || Half(img, 42) != PHDR_SIZE {
      return NoSegments;
    }
    if Phoff(img) + Phnum(img) * Half(img, 42) > |img| {
      return BadHeaders;
    }
    s := ValidateSegments(img);
  }

  /** The segment loop of elf_validate. */
  method ValidateSegments(img: Image) returns (s: Status)
    requires TableInside(img)
    ensures s == if exists i :: 0 <= i < Phnum(img) && !Sensible(img, PhdrAt(img, i)) then BadHeaders
                 else if exists i :: 0 <= i < Phnum(img) && PhdrAt(img, i).kind == PT_LOAD then Ok
                 else NoSegments
  {
    hide PhdrAt, Phnum;
    var loadable, i := 0, 0;
    while i < Phnum(img)
      invariant 0 <= i <= Phnum(img) && 0 <= loadable
      invariant forall k :: 0 <= k < i ==> Sensible(img, PhdrAt(img, k))
      invariant loadable > 0 <==> exists k :: 0 <= k < i && PhdrAt(img, k).kind == PT_LOAD
    {
      var p := PhdrAt(img, i);
      if p.kind == PT_LOAD {
        loadable := loadable + 1;
        if p.memsz < p.filesz {
          return BadHeaders;
        }
        if p.offset as int + p.filesz as int > |img| {
          return BadHeaders;
        }
      }
      i := i + 1;
    }
    s := if loadable == 0 then NoSegments else Ok;
  }

  // ---- loading ------------------------------------------------------------------------

  predicate Loads(p: Phdr) {
    p.kind == PT_LOAD && p.memsz != 0
  }

  predicate Covers(p: Phdr, a: int) {
    Loads(p) && p.vaddr as int <= a < p.vaddr as int + p.memsz as int
  }

  /** An image whose segments can all be read. */
  ghost predicate Readable(img: Image) {
    TableInside(img) && forall i :: 0 <= i < Phnum(img) ==> Sensible(img, PhdrAt(img, i))
  }

  /** Byte `a` after one segment was laid over it: file bytes, then zeros. */
  function SegmentByte(was: Byte, img: Image, p: Phdr, a: int): Byte {
    if !Covers(p, a) then was else
      var k := a - p.vaddr as int;
      if k < p.filesz as int && p.offset as int + k < |img| then img[p.offset as int + k] else 0
  }

  /** Byte `a` after the first n segments were laid over memory in order. */
  function Overlaid(mem: Memory, img: Image, n: nat, a: int): Byte
    requires TableInside(img) && n <= Phnum(img) && 0 <= a < WORD_LIMIT
  {
    if n == 0 then mem[a] else
      SegmentByte(Overlaid(mem, img, n - 1, a), img, PhdrAt(img, n - 1), a)
  }

  /** Every segment lies in the window. */
  ghost predicate Windowed(img: Image, lo: int, hi: int)
    requires TableInside(img)
  {
    forall i :: 0 <= i < Phnum(img) && Loads(PhdrAt(img, i)) ==>
                  lo <= PhdrAt(img, i).vaddr as int && PhdrAt(img, i).vaddr as int + PhdrAt(img, i).memsz as int <= hi
  }

  /** Loading never writes outside the window. */
  lemma {:induction false} OverlayStaysInside(mem: Memory, img: Image, n: nat, a: int, lo: int, hi: int)
    requires TableInside(img) && n <= Phnum(img) && 0 <= a < WORD_LIMIT && Windowed(img, lo, hi) && !(lo <= a < hi)
    ensures Overlaid(mem, img, n, a) == mem[a]
  {
    if n > 0 {
      OverlayStaysInside(mem, img, n - 1, a, lo, hi);
    }
  }

  /** The last segment that covers a byte decides it. */
  lemma {:induction false} LastSegmentWins(mem: Memory, img: Image, n: nat, i: nat, a: int)
    requires Readable(img) && i < n <= Phnum(img) && 0 <= a < WORD_LIMIT && Covers(PhdrAt(img, i), a)
    requires forall k :: i < k < n ==> !Covers(PhdrAt(img, k), a)
    ensures var p := PhdrAt(img, i); var k := a - p.vaddr as int;
            Overlaid(mem, img, n, a) == if k < p.filesz as int then img[p.offset as int + k] else 0
  {
    hide PhdrAt, Phnum;
    if i < n - 1 {
      LastSegmentWins(mem, img, n - 1, i, a);
    } else {
      assert Sensible(img, PhdrAt(img, i));
    }
  }

  lemma OverlayOutside(mem: Memory, img: Image, lo: int, hi: int)
    requires TableInside(img) && Windowed(img, lo, hi)
    ensures forall a :: 0 <= a < WORD_LIMIT && !(lo <= a < hi) ==> Overlaid(mem, img, Phnum(img), a) == mem[a]
  {
    forall a | 0 <= a < WORD_LIMIT && !(lo <= a < hi) ensures Overlaid(mem, img, Phnum(img), a) == mem[a] {
      OverlayStaysInside(mem, img, Phnum(img), a, lo, hi);
    }
  }

  /** The image itself is not written over while it is loaded. */
  lemma ImageKept(mem: Memory, img: Image, at: nat, lo: int, hi: int, n: nat, mem': Memory)
    requires TableInside(img) && n <= Phnum(img) && Windowed(img, lo, hi)
    requires at + |img| <= WORD_LIMIT && mem[at..at + |img|] == img && (at + |img| <= lo || hi <= at)
    requires forall a :: 0 <= a < WORD_LIMIT ==> mem'[a] == Overlaid(mem, img, n, a)
    ensures mem'[at..at + |img|] == img
  {
    forall k | 0 <= k < |img| ensures mem'[at + k] == img[k] {
      OverlayStaysInside(mem, img, n, at + k, lo, hi);
      assert mem[at..at + |img|][k] == mem[at + k];
    }
  }

  class Machine {
    var mem: Memory
    var table: Page

    /** memcpy within memory. */
    method Copy(dst: nat, src: nat, n: nat)
      requires dst + n <= WORD_LIMIT && src + n <= WORD_LIMIT && (src + n <= dst || dst + n <= src)
      modifies this`mem
      ensures forall a {:trigger mem[a]} :: 0 <= a < WORD_LIMIT ==> mem[a] == if dst <= a < dst + n then old(mem)[src + a - dst] else old(mem)[a]
    {
      var i := 0;
      while i < n
        invariant 0 <= i <= n
        invariant forall a {:trigger mem[a]} :: 0 <= a < WORD_LIMIT ==>
                    mem[a] == if dst <= a < dst + i then old(mem)[src + a - dst] else old(mem)[a]
      {
        assert mem[src + i] == old(mem)[src + i];
        mem := mem[dst + i := mem[src + i]];
        i := i + 1;
      }
    }

    /** memset to zero. */
    method Clear(dst: nat, n: nat)
      requires dst + n <= WORD_LIMIT
      modifies this`mem
      ensures forall a {:trigger mem[a]} :: 0 <= a < WORD_LIMIT ==> mem[a] == if dst <= a < dst + n then 0 else old(mem)[a]
    {
      var i := 0;
      while i < n
        invariant 0 <= i <= n
        invariant forall a {:trigger mem[a]} :: 0 <= a < WORD_LIMIT ==> mem[a] == if dst <= a < dst + i then 0 else old(mem)[a]
      {
        mem := mem[dst + i := 0];
        i := i + 1;
      }
    }

    /** One segment: its bytes from the file, then zeros up to its size in memory. */
    method LoadSegment(at: nat, size: nat, p: Phdr)
      requires at + size <= WORD_LIMIT && size < WORD_LIMIT && Loads(p) && Sensible(ImageAt(at, size), p)
      requires p.vaddr as int + p.memsz as int <= WORD_LIMIT
      requires at + size <= p.vaddr as int || p.vaddr as int + p.memsz as int <= at
      modifies this`mem
      ensures forall a :: 0 <= a < WORD_LIMIT ==> mem[a] == SegmentByte(old(mem)[a], old(ImageAt(at, size)), p, a)
    {
      var dst: int := p.vaddr;
      Copy(dst, at + p.offset as int, p.filesz);
      Clear(dst + p.filesz as int, p.memsz as int - p.filesz as int);
      forall a | 0 <= a < WORD_LIMIT ensures mem[a] == SegmentByte(old(mem)[a], old(ImageAt(at, size)), p, a) {
        var k := a - dst;
        if 0 <= k < p.filesz as int {
          assert old(ImageAt(at, size))[p.offset as int + k] == old(mem)[at + p.offset as int + k];
        }
      }
    }

    function ImageAt(at: nat, size: nat): Image
      requires at + size <= WORD_LIMIT && size < WORD_LIMIT
      reads this`mem
    {
      mem[at..at + size]
    }

    /** Load the image at `at` into [lo, hi), or change nothing. */
    method Load(at: nat, size: nat, lo: Word32, hi: Word32) returns (r: int, entry: Word32)
      requires at + size <= WORD_LIMIT && size < WORD_LIMIT && (at + size <= lo as int || hi as int <= at)
      modifies this`mem
      ensures var img := old(ImageAt(at, size));
              && (r == -1 <==> !Deserves(img, Ok))
              && (r == -2 <==> Deserves(img, Ok) && !Windowed(img, lo, hi))
              && (r == -3 <==> Deserves(img, Ok) && Windowed(img, lo, hi) && !(lo <= Entry(img) < hi))
              && (r == 0 || r == -1 || r == -2 || r == -3)
      ensures r != 0 ==> mem == old(mem)
      ensures r == 0 ==> var img := old(ImageAt(at, size));
                && entry == Entry(img) && lo <= entry < hi
                && (forall a :: 0 <= a < WORD_LIMIT ==> mem[a] == Overlaid(old(mem), img, Phnum(img), a))
                && (forall a :: 0 <= a < WORD_LIMIT && !(lo as int <= a < hi as int) ==> mem[a] == old(mem)[a])
    {
      hide Deserves, PhdrAt, Entry, Overlaid, Phnum, Windowed;
      ghost var img := ImageAt(at, size);
      var s := Validate(ImageAt(at, size));
      OkMeans(img, s);
      if s != Ok {
        return -1, 0;
      }
      var fits := CheckWindow(ImageAt(at, size), lo, hi);
      if !fits {
        return -2, 0;
      }
      if Entry(ImageAt(at, size)) < lo || Entry(ImageAt(at, size)) >= hi {
        return -3, 0;
      }
      LoadSegments(at, size, lo, hi);
      ImageKept(old(mem), img, at, lo, hi, Phnum(img), mem);
      OverlayOutside(old(mem), img, lo, hi);
      r, entry := 0, Entry(ImageAt(at, size));
    }

    /** The copying loop of elf_load. */
    method LoadSegments(at: nat, size: nat, lo: Word32, hi: Word32)
      requires at + size <= WORD_LIMIT && size < WORD_LIMIT && (at + size <= lo as int || hi as int <= at)
      requires Readable(ImageAt(at, size)) && Windowed(ImageAt(at, size), lo, hi)
      modifies this`mem
      ensures var img := old(ImageAt(at, size));
              forall a :: 0 <= a < WORD_LIMIT ==> mem[a] == Overlaid(old(mem), img, Phnum(img), a)
    {
      hide PhdrAt, Phnum, SegmentByte;
      ghost var img := ImageAt(at, size);
      var i := 0;
      while i < Phnum(ImageAt(at, size))
        invariant ImageAt(at, size) == img && 0 <= i <= Phnum(img)
        invariant forall a :: 0 <= a < WORD_LIMIT ==> mem[a] == Overlaid(old(mem), img, i, a)
      {
        var p := PhdrAt(ImageAt(at, size), i);
        if Loads(p) {
          LoadSegment(at, size, p);
        }
        OverlayNext(old(mem), img, i);
        ImageKept(old(mem), img, at, lo, hi, i + 1, mem);
        i := i + 1;
      }
    }

    /** Rewrite the writable bit of the user-zone pages of a range, rounded out to pages in 32 bits. */
    method SetUserWritable(addr: Word32, len: Word32, writable: bool)
      modifies this`table
      ensures forall i: Index :: table[i] == if Marked(addr, len, i) then old(table)[i].(rw := writable) else old(table)[i]
    {
      var start: int := addr as int / PAGE * PAGE;
      var end: int := (addr as int + len as int + PAGE - 1) % WORD_LIMIT / PAGE * PAGE;
      start := if start < ZONE_START then ZONE_START else start;
      end := if end > ZONE_END then ZONE_END else end;
      var a := start;
      while a < end
        invariant a % PAGE == 0 && start <= a && (a <= end || a == start)
        invariant forall i: Index :: table[i] ==
                    if start <= PAGE * i < a && PAGE * i < end then old(table)[i].(rw := writable) else old(table)[i]
      {
        var i := a / PAGE;
        table := table[i := table[i].(rw := writable)];
        a := a + PAGE;
      }
    }

    method ResetUserZone()
      modifies this`table
      ensures forall i: Index :: table[i] == if InZone(i) then old(table)[i].(rw := true) else old(table)[i]
    {
      SetUserWritable(ZONE_START, ZONE_END - ZONE_START, true);
    }

    /** elf_protect: the pages of segments without the write flag become read-only. */
    method Protect(img: Image)
      requires TableInside(img) && Windowed(img, ZONE_START, STACK_TOP)
      modifies this`table
      ensures forall i: Index :: table[i] == if ReadOnly(img, Phnum(img), i) then old(table)[i].(rw := false) else old(table)[i]
    {
      hide PhdrAt, Phnum, Marked;
      var k := 0;
      while k < Phnum(img)
        invariant 0 <= k <= Phnum(img)
        invariant forall i: Index :: table[i] == if ReadOnly(img, k, i) then old(table)[i].(rw := false) else old(table)[i]
      {
        var p := PhdrAt(img, k);
        if Constant(p) {
          SetUserWritable(p.vaddr, p.memsz, false);
          MarkedIsOverlap(p.vaddr, p.memsz);
        }
        ReadOnlyNext(img, k);
        k := k + 1;
      }
    }

    /**
     The permissions a loaded program starts with: a page of the user zone is read-only if and only if
     some non-empty segment without the write flag overlaps it, whatever the order of the segments.
     */
    method ResetAndProtect(img: Image)
      requires TableInside(img) && Windowed(img, ZONE_START, STACK_TOP)
      modifies this`table
      ensures forall i: Index :: table[i] == old(table)[i].(rw := table[i].rw)
      ensures forall i: Index :: table[i].rw <==> if InZone(i) then !ReadOnly(img, Phnum(img), i) else old(table)[i].rw
    {
      hide Windowed, TableInside, Phnum;
      ResetUserZone();
      Protect(img);
    }
  }

  // ---- images as a linker writes them -----------------------------------------------------

  /** A loadable segment: its bytes, how many zeros follow them in memory, and what the program may do with it. */
  datatype Segment = Segment(vaddr: Word32, bytes: seq<Byte>, zeros: nat, read: bool, write: bool, exec: bool)

  function MemSize(g: Segment): nat {
    |g.bytes| + g.zeros
  }

  function Two(n: nat): (b: seq<Byte>)
    requires n < 0x1_0000
    ensures |b| == 2
  {
    [n % 256, n / 256]
  }

  function Bit(b: bool, n: nat): nat {
    if b then n else 0
  }

  /** The ELF header of System V gABI chapter 4, for an i386 executable with its program headers right behind it. */
  function HeaderBytes(entry: Word32, n: nat): (b: seq<Byte>)
    requires n < 0x1_0000
    ensures |b| == 52
  {
    [0x7F, 0x45, 0x4C, 0x46, 1, 1, 1, 0, 0, 0, 0, 0, 0, 0, 0, 0] + Two(2) + Two(3) + Le(1)
    + Le(entry) + Le(52) + Le(0) + Le(0) + Two(52) + Two(32) + Two(n) + Two(40) + Two(0) + Two(0)
  }

  /** A program header: type, offset, vaddr, paddr, filesz, memsz, flags, align. */
  function SegmentHeader(g: Segment, offset: Word32): (b: seq<Byte>)
    requires MemSize(g) < WORD_LIMIT
    ensures |b| == 32
  {
    Le(1) + Le(offset) + Le(g.vaddr) + Le(g.vaddr) + Le(|g.bytes|) + Le(MemSize(g))
    + Le(Bit(g.read, 4) + Bit(g.write, 2) + Bit(g.exec, 1)) + Le(4096)
  }

  /** The bytes of the first n segments, one after the other. */
  function Bodies(gs: seq<Segment>, n: nat): seq<Byte>
    requires n <= |gs|
  {
    if n == 0 then [] else Bodies(gs, n - 1) + gs[n - 1].bytes
  }

  function OffsetOf(gs: seq<Segment>, i: nat): nat
    requires i <= |gs|
  {
    52 + 32 * |gs| + |Bodies(gs, i)|
  }

  /** A program the linker can write: some segments, not too many, none past 4 GB in the file or in size. */
  predicate Linkable(gs: seq<Segment>) {
    0 < |gs| < 0x1_0000 && OffsetOf(gs, |gs|) < WORD_LIMIT && forall i :: 0 <= i < |gs| ==> MemSize(gs[i]) < WORD_LIMIT
  }

  lemma {:induction false} BodiesGrow(gs: seq<Segment>, i: nat, n: nat)
    requires i < n <= |gs|
    ensures Bodies(gs, i) <= Bodies(gs, n) && |Bodies(gs, i)| + |gs[i].bytes| <= |Bodies(gs, n)|
    ensures Bodies(gs, n)[|Bodies(gs, i)|..|Bodies(gs, i)| + |gs[i].bytes|] == gs[i].bytes
  {
    if i < n - 1 {
      BodiesGrow(gs, i, n - 1);
    }
  }

  function Headers(gs: seq<Segment>, n: nat): (b: seq<Byte>)
    requires Linkable(gs) && n <= |gs|
    ensures |b| == 32 * n
  {
    if n == 0 then [] else
      BodiesGrow(gs, n - 1, |gs|);
      Headers(gs, n - 1) + SegmentHeader(gs[n - 1], OffsetOf(gs, n - 1))
  }

  function Linked(entry: Word32, gs: seq<Segment>): Image
    requires Linkable(gs)
  {
    HeaderBytes(entry, |gs|) + Headers(gs, |gs|) + Bodies(gs, |gs|)
  }

  lemma {:induction false} HeaderAt(gs: seq<Segment>, i: nat, n: nat)
    requires Linkable(gs) && i < n <= |gs|
    ensures OffsetOf(gs, i) < WORD_LIMIT && Headers(gs, n)[32 * i..32 * i + 32] == SegmentHeader(gs[i], OffsetOf(gs, i))
  {
    hide SegmentHeader, Bodies;
    BodiesGrow(gs, i, |gs|);
    BodiesGrow(gs, n - 1, |gs|);
    var h, last := Headers(gs, n - 1), SegmentHeader(gs[n - 1], OffsetOf(gs, n - 1));
    assert Headers(gs, n) == h + last;
    if i < n - 1 {
      HeaderAt(gs, i, n - 1);
      assert (h + last)[32 * i..32 * i + 32] == h[32 * i..32 * i + 32];
    } else {
      assert (h + last)[32 * i..32 * i + 32] == last;
    }
  }

  lemma HeaderFields(entry: Word32, n: nat)
    requires n < 0x1_0000
    ensures var h := HeaderBytes(entry, n);
            && h[..4] == [0x7F, 0x45, 0x4C, 0x46] && h[4] == 1 && h[5] == 1 && h[16..18] == Two(2) && h[18..20] == Two(3)
            && h[24..28] == Le(entry) && h[28..32] == Le(52) && h[42..44] == Two(32) && h[44..46] == Two(n)
  {
    hide Le, Two;
  }

  lemma HalfOfTwo(b: seq<Byte>, o: nat, n: nat)
    requires n < 0x1_0000 && o + 2 <= |b| && b[o..o + 2] == Two(n)
    ensures Half(b, o) == n
  {
    assert b[o] == b[o..o + 2][0] && b[o + 1] == b[o..o + 2][1];
  }

  /** The ELF header reads back. */
  lemma LinkedHeader(entry: Word32, gs: seq<Segment>)
    requires Linkable(gs)
    ensures var img := Linked(entry, gs);
            && HasMagic(img) && img[4] == 1 && img[5] == 1 && Half(img, 16) == 2 && Half(img, 18) == 3 && Half(img, 42) == 32
            && Entry(img) == entry && Phoff(img) == 52 && Phnum(img) == |gs| && TableInside(img)
  {
    hide HeaderBytes, Headers, Le, FromLe, Two, Half, Bodies;
    var img, h := Linked(entry, gs), HeaderBytes(entry, |gs|);
    HeaderFields(entry, |gs|);
    assert img[..52] == h;
    assert img[..4] == h[..4] && img[16..18] == h[16..18] && img[18..20] == h[18..20] && img[42..44] == h[42..44];
    assert img[24..28] == h[24..28] && img[28..32] == h[28..32] && img[44..46] == h[44..46];
    HalfOfTwo(img, 16, 2);
    HalfOfTwo(img, 18, 3);
    HalfOfTwo(img, 42, 32);
    HalfOfTwo(img, 44, |gs|);
    LeThenFrom(entry);
    LeThenFrom(52);
  }

  lemma SegmentHeaderFields(g: Segment, offset: Word32)
    requires MemSize(g) < WORD_LIMIT
    ensures var b := SegmentHeader(g, offset);
            && FromLe(b[..4]) == 1 && FromLe(b[4..8]) == offset && FromLe(b[8..12]) == g.vaddr && FromLe(b[16..20]) == |g.bytes|
            && FromLe(b[20..24]) == MemSize(g) && FromLe(b[24..28]) == Bit(g.read, 4) + Bit(g.write, 2) + Bit(g.exec, 1)
  {
    hide Le, FromLe;
    var b, flags := SegmentHeader(g, offset), Bit(g.read, 4) + Bit(g.write, 2) + Bit(g.exec, 1);
    assert b[..4] == Le(1) && b[4..8] == Le(offset) && b[8..12] == Le(g.vaddr) && b[16..20] == Le(|g.bytes|);
    assert b[20..24] == Le(MemSize(g)) && b[24..28] == Le(flags);
    LeThenFrom(1);
    LeThenFrom(offset);
    LeThenFrom(g.vaddr);
    LeThenFrom(|g.bytes|);
    LeThenFrom(MemSize(g));
    LeThenFrom(flags);
  }

  lemma PhdrFrom(img: Image, i: nat, b: seq<Byte>)
    requires TableInside(img) && i < Phnum(img) && |b| == 32
    requires img[Phoff(img) + 32 * i..Phoff(img) + 32 * i + 32] == b
    ensures PhdrAt(img, i) == Phdr(FromLe(b[..4]), FromLe(b[4..8]), FromLe(b[8..12]), FromLe(b[16..20]), FromLe(b[20..24]), FromLe(b[24..28]))
  {
    hide FromLe, Phnum;
    var o := Phoff(img) + 32 * i;
    Part(img, o, b, 0);
    Part(img, o, b, 4);
    Part(img, o, b, 8);
    Part(img, o, b, 16);
    Part(img, o, b, 20);
    Part(img, o, b, 24);
  }

  lemma Part(img: seq<Byte>, o: nat, b: seq<Byte>, k: nat)
    requires o + |b| <= |img| && img[o..o + |b|] == b && k + 4 <= |b|
    ensures img[o + k..o + k + 4] == b[k..k + 4]
  {
    var x, y := img[o + k..o + k + 4], b[k..k + 4];
    forall j | 0 <= j < 4 ensures x[j] == y[j] {
      assert img[o..o + |b|][k + j] == img[o + (k + j)];
    }
  }

  lemma SliceOfThree(a: seq<Byte>, b: seq<Byte>, c: seq<Byte>, lo: nat, hi: nat)
    ensures lo <= hi <= |b| ==> (a + b + c)[|a| + lo..|a| + hi] == b[lo..hi]
    ensures lo <= hi <= |c| ==> (a + b + c)[|a| + |b| + lo..|a| + |b| + hi] == c[lo..hi]
  {
  }

  /** Each program header reads back, and the file holds the segment's bytes where it says. */
  lemma LinkedSegment(entry: Word32, gs: seq<Segment>, i: nat)
    requires Linkable(gs) && i < |gs|
    ensures TableInside(Linked(entry, gs)) && Phnum(Linked(entry, gs)) == |gs|
    ensures var img := Linked(entry, gs); var p := PhdrAt(img, i); var g := gs[i];
            && p.kind == PT_LOAD && p.vaddr == g.vaddr && p.filesz as int == |g.bytes| && p.memsz as int == MemSize(g)
            && (p.flags / 2 % 2 == 1 <==> g.write) && p.offset as int == OffsetOf(gs, i)
            && p.offset as int + |g.bytes| <= |img| && img[p.offset as int..p.offset as int + |g.bytes|] == g.bytes
  {
    hide HeaderBytes, SegmentHeader, FromLe, Headers, PhdrAt, Phnum, Phoff, Entry, Half, Full, HasMagic;
    var img, g, o := Linked(entry, gs), gs[i], OffsetOf(gs, i);
    var h, t, b := HeaderBytes(entry, |gs|), Headers(gs, |gs|), Bodies(gs, |gs|);
    LinkedHeader(entry, gs);
    HeaderAt(gs, i, |gs|);
    SegmentHeaderFields(g, o);
    BodiesGrow(gs, i, |gs|);
    SliceOfThree(h, t, b, 32 * i, 32 * i + 32);
    PhdrFrom(img, i, SegmentHeader(g, o));
    SliceOfThree(h, t, b, |Bodies(gs, i)|, |Bodies(gs, i)| + |g.bytes|);
  }

  const PAGE := 4096
  const ZONE_START := 0x80000
  const ZONE_END := 0x100000
  const STACK_TOP := 0xF0000

  predicate InZone(i: Index) {
    ZONE_START <= PAGE * i < ZONE_END
  }

  /** Page i shares a byte with [addr, addr + len). */
  predicate Overlaps(addr: int, len: int, i: Index) {
    0 < len && PAGE * i < addr + len && addr < PAGE * i + PAGE
  }

  /** The pages paging_set_user_writable goes over. */
  predicate Marked(addr: Word32, len: Word32, i: Index) {
    InZone(i) && addr as int / PAGE * PAGE <= PAGE * i
    && PAGE * i < (addr as int + len as int + PAGE - 1) % WORD_LIMIT / PAGE * PAGE
  }

  /** Whether the range is treated as its overlap: for one that is not empty, no wrap, or a wrap that cuts off no page. */
  predicate Rounds(addr: Word32, len: Word32) {
    var e := addr as int + len as int + PAGE - 1;
    if len > 0 then e < WORD_LIMIT || addr as int >= ZONE_END || e % WORD_LIMIT >= ZONE_END
    else addr as int % PAGE == 0 || !(ZONE_START <= addr as int < ZONE_END)
  }

  lemma MarkedPage(addr: Word32, len: Word32, i: Index)
    requires Rounds(addr, len)
    ensures Marked(addr, len, i) <==> InZone(i) && Overlaps(addr, len, i)
  {
    var e := addr as int + len as int + PAGE - 1;
    if e < WORD_LIMIT {
      assert e % WORD_LIMIT == e;
    }
  }

  /** The pages gone over are exactly the user-zone pages the range overlaps, if and only if the range rounds. */
  lemma MarkedIsOverlap(addr: Word32, len: Word32)
    ensures Rounds(addr, len) <==> forall i: Index :: Marked(addr, len, i) <==> InZone(i) && Overlaps(addr, len, i)
  {
    if Rounds(addr, len) {
      forall i: Index ensures Marked(addr, len, i) <==> InZone(i) && Overlaps(addr, len, i) {
        MarkedPage(addr, len, i);
      }
    } else {
      var i: Index := if len > 0 then ZONE_END / PAGE - 1 else addr as int / PAGE;
      assert Marked(addr, len, i) != (InZone(i) && Overlaps(addr, len, i));
    }
  }

  /** A range from the start of the zone to the last byte but one of memory: it overlaps every page there and marks none. */
  lemma WrappedRange(i: Index)
    requires InZone(i)
    ensures !Rounds(0x80000, 0xFFF7_FFFF) && Overlaps(0x80000, 0xFFF7_FFFF, i) && !Marked(0x80000, 0xFFF7_FFFF, i)
  {
  }

  /** A non-empty segment without PF_W. */
  predicate Constant(p: Phdr) {
    Loads(p) && p.flags / 2 % 2 == 0
  }

  ghost predicate ReadOnly(img: Image, n: nat, i: Index)
    requires TableInside(img) && n <= Phnum(img)
  {
    InZone(i) && exists k :: 0 <= k < n && Constant(PhdrAt(img, k)) && Overlaps(PhdrAt(img, k).vaddr, PhdrAt(img, k).memsz, i)
  }

  lemma ReadOnlyNext(img: Image, n: nat)
    requires TableInside(img) && n < Phnum(img)
    ensures forall i: Index :: ReadOnly(img, n + 1, i) <==>
                                 ReadOnly(img, n, i) || (InZone(i) && Constant(PhdrAt(img, n)) && Overlaps(PhdrAt(img, n).vaddr, PhdrAt(img, n).memsz, i))
  {
    hide PhdrAt, Phnum, InZone, Constant, Overlaps;
  }

  lemma OverlayNext(mem: Memory, img: Image, n: nat)
    requires TableInside(img) && n < Phnum(img)
    ensures forall a :: 0 <= a < WORD_LIMIT ==>
                          Overlaid(mem, img, n + 1, a) == SegmentByte(Overlaid(mem, img, n, a), img, PhdrAt(img, n), a)
    ensures !Loads(PhdrAt(img, n)) ==> forall a :: 0 <= a < WORD_LIMIT ==> Overlaid(mem, img, n + 1, a) == Overlaid(mem, img, n, a)
  {
  }

  lemma OkMeans(img: Image, s: Status)
    requires Deserves(img, s)
    ensures s == Ok <==> Deserves(img, Ok)
    ensures s == Ok ==> Readable(img)
  {
  }

  /** Whether every segment lies in the window. */
  method CheckWindow(img: Image, lo: Word32, hi: Word32) returns (ok: bool)
    requires TableInside(img)
    ensures ok <==> Windowed(img, lo, hi)
  {
    hide PhdrAt, Phnum;
    var i := 0;
    while i < Phnum(img)
      invariant 0 <= i <= Phnum(img)
      invariant forall k :: 0 <= k < i && Loads(PhdrAt(img, k)) ==>
                  lo as int <= PhdrAt(img, k).vaddr as int && PhdrAt(img, k).vaddr as int + PhdrAt(img, k).memsz as int <= hi as int
    {
      var p := PhdrAt(img, i);
      if Loads(p) {
        if p.vaddr < lo || p.vaddr as int + p.memsz as int > hi as int {
          return false;
        }
      }
      i := i + 1;
    }
    return true;
  }

  // ---- loading what the linker wrote -------------------------------------------------------

  predicate InWindow(g: Segment, lo: int, hi: int) {
    MemSize(g) == 0 || (lo <= g.vaddr as int && g.vaddr as int + MemSize(g) <= hi)
  }

  predicate Holds(g: Segment, a: int) {
    g.vaddr as int <= a < g.vaddr as int + MemSize(g)
  }

  /** A linked image is valid, and its headers say of each segment what the linker put in. */
  lemma LinkedIsValid(entry: Word32, gs: seq<Segment>, lo: int, hi: int)
    requires Linkable(gs)
    ensures var img := Linked(entry, gs);
            Deserves(img, Ok) && Readable(img) && (Windowed(img, lo, hi) <==> forall i :: 0 <= i < |gs| ==> InWindow(gs[i], lo, hi))
  {
    hide Linked, PhdrAt, Phnum, Entry, Half, Phoff;
    var img := Linked(entry, gs);
    LinkedHeader(entry, gs);
    forall i | 0 <= i < |gs| ensures
      var p := PhdrAt(img, i);
      && p.kind == PT_LOAD && Sensible(img, p)
      && ((Loads(p) ==> lo <= p.vaddr as int && p.vaddr as int + p.memsz as int <= hi) <==> InWindow(gs[i], lo, hi))
    {
      LinkedSegment(entry, gs, i);
    }
    assert PhdrAt(img, 0).kind == PT_LOAD;
  }

  lemma LinkedByte(mem: Memory, entry: Word32, gs: seq<Segment>, i: nat, k: nat)
    requires Linkable(gs) && i < |gs| && k < MemSize(gs[i]) && gs[i].vaddr as int + k < WORD_LIMIT
    requires forall j :: i < j < |gs| ==> !Holds(gs[j], gs[i].vaddr as int + k)
    ensures var img := Linked(entry, gs);
            && TableInside(img) && Phnum(img) == |gs|
            && Overlaid(mem, img, |gs|, gs[i].vaddr as int + k) == if k < |gs[i].bytes| then gs[i].bytes[k] else 0
  {
    hide Linked, PhdrAt, Phnum, Deserves, Overlaid;
    var img, a := Linked(entry, gs), gs[i].vaddr as int + k;
    LinkedIsValid(entry, gs, 0, WORD_LIMIT);
    LinkedSegment(entry, gs, i);
    forall j | i < j < |gs| ensures !Covers(PhdrAt(img, j), a) {
      LinkedSegment(entry, gs, j);
    }
    LastSegmentWins(mem, img, |gs|, i, a);
    var p := PhdrAt(img, i);
    assert k < |gs[i].bytes| ==> img[p.offset as int..p.offset as int + |gs[i].bytes|][k] == img[p.offset as int + k];
  }

  /**
   Loading what a linker wrote: refused exactly when a segment or the entry is outside the window; otherwise the entry is
   returned, and each segment is in memory at its own address, its bytes and then zeros, where no later one lies over it.
   */
  method LoadLinked(m: Machine, at: nat, entry: Word32, gs: seq<Segment>, lo: Word32, hi: Word32) returns (r: int, start: Word32)
    requires Linkable(gs) && at + |Linked(entry, gs)| <= WORD_LIMIT && m.mem[at..at + |Linked(entry, gs)|] == Linked(entry, gs)
    requires at + |Linked(entry, gs)| <= lo as int || hi as int <= at
    modifies m`mem
    ensures r == if exists i :: 0 <= i < |gs| && !InWindow(gs[i], lo as int, hi as int) then -2 else if lo <= entry < hi then 0 else -3
    ensures r != 0 ==> m.mem == old(m.mem)
    ensures r == 0 ==> start == entry
    ensures r == 0 ==> forall i, k :: 0 <= i < |gs| && 0 <= k < MemSize(gs[i]) && gs[i].vaddr as int + k < WORD_LIMIT
                                      && (forall j :: i < j < |gs| ==> !Holds(gs[j], gs[i].vaddr as int + k)) ==>
                                        m.mem[gs[i].vaddr as int + k] == if k < |gs[i].bytes| then gs[i].bytes[k] else 0
    ensures forall a :: 0 <= a < WORD_LIMIT && !(lo as int <= a < hi as int) ==> m.mem[a] == old(m.mem)[a]
  {
    hide Linked, PhdrAt, Phnum, Deserves, Overlaid, Entry, Readable, Windowed;
    ghost var img := Linked(entry, gs);
    LinkedIsValid(entry, gs, lo as int, hi as int);
    LinkedHeader(entry, gs);
    r, start := m.Load(at, |Linked(entry, gs)|, lo, hi);
    if r == 0 {
      forall i, k | 0 <= i < |gs| && 0 <= k < MemSize(gs[i]) && gs[i].vaddr as int + k < WORD_LIMIT
                    && (forall j :: i < j < |gs| ==> !Holds(gs[j], gs[i].vaddr as int + k))
        ensures m.mem[gs[i].vaddr as int + k] == if k < |gs[i].bytes| then gs[i].bytes[k] else 0
      {
        LinkedByte(old(m.mem), entry, gs, i, k);
      }
    }
  }

  /** After elf_protect of such an image a page of the zone is read-only exactly if a segment that is not writable lies in it. */
  lemma LinkedReadOnly(entry: Word32, gs: seq<Segment>, i: Index)
    requires Linkable(gs)
    ensures TableInside(Linked(entry, gs)) && Phnum(Linked(entry, gs)) == |gs|
    ensures ReadOnly(Linked(entry, gs), |gs|, i) <==>
            InZone(i) && exists k :: 0 <= k < |gs| && !gs[k].write && Overlaps(gs[k].vaddr as int, MemSize(gs[k]), i)
  {
    hide Linked, PhdrAt, Phnum;
    var img := Linked(entry, gs);
    LinkedHeader(entry, gs);
    forall k | 0 <= k < |gs| ensures
      var p := PhdrAt(img, k);
      Constant(p) && Overlaps(p.vaddr as int, p.memsz as int, i) <==> !gs[k].write && Overlaps(gs[k].vaddr as int, MemSize(gs[k]), i)
    {
      LinkedSegment(entry, gs, k);
    }
  }

  /** An image byte by byte: one segment of two bytes and two zeros at 0x80000, readable and executable, entered at 0x80001. */
  function Sample(): seq<Byte> {
    SampleHeader() + SampleSegment() + [0xEB, 0xFE]
  }

  function SampleHeader(): seq<Byte> {
    [0x7F, 0x45, 0x4C, 0x46, 0x01, 0x01, 0x01, 0x00, 0x00, 0x00, 0x00, 0x00, 0x00, 0x00, 0x00, 0x00]
    + [0x02, 0x00] + [0x03, 0x00] + [0x01, 0x00, 0x00, 0x00]
    + [0x01, 0x00, 0x08, 0x00] + [0x34, 0x00, 0x00, 0x00] + [0x00, 0x00, 0x00, 0x00] + [0x00, 0x00, 0x00, 0x00]
    + [0x34, 0x00] + [0x20, 0x00] + [0x01, 0x00] + [0x28, 0x00] + [0x00, 0x00] + [0x00, 0x00]
  }

  function SampleSegment(): seq<Byte> {
    [0x01, 0x00, 0x00, 0x00] + [0x54, 0x00, 0x00, 0x00] + [0x00, 0x00, 0x08, 0x00] + [0x00, 0x00, 0x08, 0x00]
    + [0x02, 0x00, 0x00, 0x00] + [0x04, 0x00, 0x00, 0x00] + [0x05, 0x00, 0x00, 0x00] + [0x00, 0x10, 0x00, 0x00]
  }

  function SampleProgram(): Segment {
    Segment(0x80000, [0xEB, 0xFE], 2, true, false, true)
  }

  lemma SampleWords()
    ensures Le(0x80001) == [0x01, 0x00, 0x08, 0x00] && Le(52) == [0x34, 0x00, 0x00, 0x00] && Le(0) == [0x00, 0x00, 0x00, 0x00]
    ensures Le(0x80000) == [0x00, 0x00, 0x08, 0x00] && Le(0x54) == [0x54, 0x00, 0x00, 0x00] && Le(4096) == [0x00, 0x10, 0x00, 0x00]
    ensures Le(1) == [0x01, 0x00, 0x00, 0x00] && Le(2) == [0x02, 0x00, 0x00, 0x00] && Le(4) == [0x04, 0x00, 0x00, 0x00]
    ensures Le(5) == [0x05, 0x00, 0x00, 0x00] && Two(1) == [0x01, 0x00] && Two(2) == [0x02, 0x00] && Two(3) == [0x03, 0x00]
    ensures Two(52) == [0x34, 0x00] && Two(32) == [0x20, 0x00] && Two(40) == [0x28, 0x00] && Two(0) == [0x00, 0x00]
  {
  }

  lemma SampleHeaderIs()
    ensures SampleHeader() == HeaderBytes(0x80001, 1)
  {
    hide Le, Two;
    SampleWords();
  }

  lemma SampleSegmentIs()
    ensures SampleSegment() == SegmentHeader(SampleProgram(), 0x54)
  {
    hide Le;
    SampleWords();
  }

  /** The loader reads those bytes as that program. */
  lemma SampleReads()
    ensures |Sample()| == 86
    ensures var img: Image := Sample();
            && Deserves(img, Ok) && Entry(img) == 0x80001 && Phoff(img) == 52 && Phnum(img) == 1 && TableInside(img)
            && var p := PhdrAt(img, 0);
               p.kind == 1 && p.offset == 0x54 && p.vaddr == 0x80000 && p.filesz == 2 && p.memsz == 4 && p.flags / 2 % 2 == 0
  {
    hide HeaderBytes, SegmentHeader, SampleHeader, SampleSegment, PhdrAt, Phnum, Phoff, Entry, Deserves;
    var gs := [SampleProgram()];
    SampleHeaderIs();
    SampleSegmentIs();
    assert Bodies(gs, 0) == [] && Bodies(gs, 1) == [0xEB, 0xFE] && Linkable(gs);
    assert Headers(gs, 1) == [] + SegmentHeader(SampleProgram(), 0x54) == SampleSegment();
    assert Linked(0x80001, gs) == Sample();
    LinkedHeader(0x80001, gs);
    LinkedSegment(0x80001, gs, 0);
    LinkedIsValid(0x80001, gs, 0, WORD_LIMIT);
  }
}
