/**
 The user heap: umalloc and ufree on SYS_SBRK. Block headers live in memory and are linked by
 address; the list of blocks they stand for is ghost.
 */
module Heap {
  import opened Bytes

  const HEAP_BASE := 0x90000
  const HEAP_END := 0x9F000
  const HDR := 16

  /** Memory by byte address; only words at multiples of four are used, so no two overlap. */
  type Memory = m: seq<Word32> | |m| == WORD_LIMIT witness seq<Word32>(WORD_LIMIT, i => 0)

  datatype Block = Block(addr: int, size: int, free: bool)

  function End(b: Block): int {
    b.addr + HDR + b.size
  }

  predicate InHeap(b: Block) {
    HEAP_BASE <= b.addr && b.addr % 8 == 0 && 0 <= b.size && b.size % 8 == 0 && End(b) <= HEAP_END
  }

  function EndBefore(bs: seq<Block>, i: nat): int
    requires i <= |bs|
  {
    if i == 0 then HEAP_BASE else End(bs[i - 1])
  }

  /** The blocks fill [HEAP_BASE, brk) exactly, in address order. */
  predicate Tiled(bs: seq<Block>, brk: int) {
    && brk <= HEAP_END
    && (forall i :: 0 <= i < |bs| ==> InHeap(bs[i]))
    && (forall i {:trigger EndBefore(bs, i)} :: 0 <= i < |bs| ==> bs[i].addr == EndBefore(bs, i))
    && brk == EndBefore(bs, |bs|)
  }

  /** No two neighbours are both free. */
  predicate Settled(bs: seq<Block>) {
    forall i :: 0 <= i < |bs| - 1 ==> !FreePair(bs, i)
  }

  predicate FreePair(bs: seq<Block>, i: int)
    requires 0 <= i < |bs| - 1
  {
    bs[i].free && bs[i + 1].free
  }

  function AddrOf(bs: seq<Block>, i: nat): int {
    if i < |bs| then bs[i].addr else 0
  }

  predicate Header(mem: Memory, b: Block, next: int)
    requires InHeap(b)
  {
    mem[b.addr] == b.size && (mem[b.addr + 4] != 0 <==> b.free) && mem[b.addr + 8] == next
  }

  /** The headers in memory, followed from head, are the blocks. */
  predicate Linked(mem: Memory, head: int, bs: seq<Block>)
    requires forall i :: 0 <= i < |bs| ==> InHeap(bs[i])
  {
    head == AddrOf(bs, 0) && forall i :: 0 <= i < |bs| ==> Header(mem, bs[i], AddrOf(bs, i + 1))
  }

  predicate Shape(mem: Memory, head: int, brk: int, bs: seq<Block>) {
    Tiled(bs, brk) && Linked(mem, head, bs)
  }

  function Payload(mem: Memory, b: Block): seq<Word32>
    requires InHeap(b)
  {
    seq(b.size / 4, k requires 0 <= k < b.size / 4 => mem[b.addr + HDR + 4 * k])
  }

  lemma {:induction false} Ascending(bs: seq<Block>, brk: int, i: nat, j: nat)
    requires Tiled(bs, brk) && i < j < |bs|
    ensures End(bs[i]) <= bs[j].addr
  {
    if i < j - 1 {
      Ascending(bs, brk, i, j - 1);
      assert bs[j].addr == EndBefore(bs, j);
    }
  }

  /** Live payloads are disjoint, 8-aligned and inside the heap. */
  lemma PayloadsApart(bs: seq<Block>, brk: int, i: nat, j: nat)
    requires Tiled(bs, brk) && i < |bs| && j < |bs| && i != j
    ensures (bs[i].addr + HDR) % 8 == 0 && HEAP_BASE + HDR <= bs[i].addr + HDR && End(bs[i]) <= brk <= HEAP_END
    ensures End(bs[i]) <= bs[j].addr || End(bs[j]) <= bs[i].addr
  {
    if i < j {
      Ascending(bs, brk, i, j);
    } else {
      Ascending(bs, brk, j, i);
    }
    if i < |bs| - 1 {
      Ascending(bs, brk, i, |bs| - 1);
    }
  }

  /** Once everything has been freed, one block is left. */
  lemma AllFreeIsOne(bs: seq<Block>, brk: int)
    requires Tiled(bs, brk) && Settled(bs) && forall b :: b in bs ==> b.free
    ensures bs == [] || bs == [Block(HEAP_BASE, brk - HEAP_BASE - HDR, true)]
  {
    if |bs| > 1 {
      assert bs[0] in bs && bs[1] in bs;
      assert FreePair(bs, 0);
    } else if |bs| == 1 {
      assert bs[0] in bs && EndBefore(bs, 0) == HEAP_BASE && bs[0] == Block(HEAP_BASE, brk - HEAP_BASE - HDR, true);
      assert bs == [bs[0]];
    }
  }

  // ---- the four ways a header changes ------------------------------------------------

  /** The words written are inside free blocks' space or headers: live payloads keep their words. */
  ghost predicate Untouched(mem: Memory, mem': Memory, lo: int, hi: int) {
    forall a :: 0 <= a < WORD_LIMIT && !(lo <= a < hi) ==> mem'[a] == mem[a]
  }

  /** A range inside block i's extent touches no other block. */
  lemma PayloadKept(mem: Memory, mem': Memory, bs: seq<Block>, brk: int, lo: int, hi: int, i: nat, j: nat)
    requires Tiled(bs, brk) && i < |bs| && j < |bs| && i != j && Untouched(mem, mem', lo, hi)
    requires bs[i].addr <= lo && hi <= End(bs[i])
    ensures Payload(mem', bs[j]) == Payload(mem, bs[j])
    ensures forall n :: Header(mem', bs[j], n) <==> Header(mem, bs[j], n)
  {
    PayloadsApart(bs, brk, i, j);
  }

  /** Absorb block i + 1 into block i. */
  function Merged(bs: seq<Block>, i: nat): seq<Block>
    requires i + 1 < |bs|
  {
    bs[..i] + [Block(bs[i].addr, bs[i].size + HDR + bs[i + 1].size, bs[i].free)] + bs[i + 2..]
  }

  lemma MergeTiled(bs: seq<Block>, brk: int, i: nat)
    requires Tiled(bs, brk) && i + 1 < |bs|
    ensures Tiled(Merged(bs, i), brk)
  {
    var ms := Merged(bs, i);
    assert bs[i + 1].addr == EndBefore(bs, i + 1);
    forall k | 0 <= k < |ms| ensures InHeap(ms[k]) && ms[k].addr == EndBefore(ms, k) {
      var j := if k <= i then k else k + 1;
      assert bs[j].addr == EndBefore(bs, j);
    }
  }

  lemma OtherHeader(mem: Memory, head: int, brk: int, bs: seq<Block>, mem': Memory, i: nat, j: nat)
    requires Shape(mem, head, brk, bs) && i < |bs| && j < |bs| && i != j
    requires Untouched(mem, mem', bs[i].addr, End(bs[i]))
    ensures InHeap(bs[j]) && Header(mem', bs[j], AddrOf(bs, j + 1)) && Payload(mem', bs[j]) == Payload(mem, bs[j])
  {
    PayloadKept(mem, mem', bs, brk, bs[i].addr, End(bs[i]), i, j);
  }

  lemma OwnHeader(mem: Memory, head: int, brk: int, bs: seq<Block>, i: nat)
    requires Shape(mem, head, brk, bs) && i < |bs|
    ensures InHeap(bs[i]) && HEAP_BASE <= bs[i].addr && 0 <= bs[i].size && End(bs[i]) <= HEAP_END
    ensures Header(mem, bs[i], AddrOf(bs, i + 1))
    ensures i + 1 < |bs| ==> bs[i + 1].addr == End(bs[i])
  {
    assert i + 1 < |bs| ==> bs[i + 1].addr == EndBefore(bs, i + 1);
  }

  lemma MergeLinked(mem: Memory, head: int, brk: int, bs: seq<Block>, i: nat, mem': Memory)
    requires Shape(mem, head, brk, bs) && i + 1 < |bs| && Tiled(Merged(bs, i), brk)
    requires Untouched(mem, mem', bs[i].addr, End(bs[i])) && Header(mem', Merged(bs, i)[i], AddrOf(bs, i + 2))
    ensures Linked(mem', head, Merged(bs, i))
  {
    hide InHeap, Untouched, Header;
    var ms := Merged(bs, i);
    forall k | 0 <= k < |ms| ensures Header(mem', ms[k], AddrOf(ms, k + 1)) {
      if k != i {
        OtherHeader(mem, head, brk, bs, mem', i, if k < i then k else k + 1);
      }
    }
  }

  lemma MergeKeeps(mem: Memory, head: int, brk: int, bs: seq<Block>, i: nat, mem': Memory)
    requires Shape(mem, head, brk, bs) && i + 1 < |bs|
    requires mem' == mem[bs[i].addr := bs[i].size + HDR + bs[i + 1].size][bs[i].addr + 8 := mem[bs[i + 1].addr + 8]]
    ensures Shape(mem', head, brk, Merged(bs, i)) && Untouched(mem, mem', bs[i].addr, End(bs[i]))
  {
    hide Tiled, Linked;
    MergeTiled(bs, brk, i);
    OwnHeader(mem, head, brk, bs, i);
    OwnHeader(mem, head, brk, bs, i + 1);
    MergedHeader(mem, bs[i], bs[i + 1], mem');
    MergeLinked(mem, head, brk, bs, i, mem');
  }

  lemma MergedHeader(mem: Memory, b: Block, c: Block, mem': Memory)
    requires InHeap(b) && InHeap(c) && c.addr == End(b)
    requires Header(mem, b, c.addr) && mem' == mem[b.addr := b.size + HDR + c.size][b.addr + 8 := mem[c.addr + 8]]
    ensures InHeap(Block(b.addr, b.size + HDR + c.size, b.free))
    ensures Header(mem', Block(b.addr, b.size + HDR + c.size, b.free), mem[c.addr + 8])
  {
  }

  /** Set or clear the free flag of block i. */
  function Flagged(bs: seq<Block>, i: nat, free: bool): seq<Block>
    requires i < |bs|
  {
    bs[i := bs[i].(free := free)]
  }

  lemma FlagTiled(bs: seq<Block>, brk: int, i: nat, free: bool)
    requires Tiled(bs, brk) && i < |bs|
    ensures Tiled(Flagged(bs, i, free), brk)
  {
    var fs := Flagged(bs, i, free);
    forall k | 0 <= k <= |fs| ensures EndBefore(fs, k) == EndBefore(bs, k) {
    }
  }

  lemma FlagLinked(mem: Memory, head: int, brk: int, bs: seq<Block>, i: nat, free: bool, mem': Memory)
    requires Shape(mem, head, brk, bs) && i < |bs| && Tiled(Flagged(bs, i, free), brk)
    requires Untouched(mem, mem', bs[i].addr, End(bs[i])) && Header(mem', Flagged(bs, i, free)[i], AddrOf(bs, i + 1))
    ensures Linked(mem', head, Flagged(bs, i, free))
  {
    hide InHeap, Untouched, Header;
    var fs := Flagged(bs, i, free);
    forall k | 0 <= k < |fs| ensures Header(mem', fs[k], AddrOf(fs, k + 1)) {
      if k != i {
        OtherHeader(mem, head, brk, bs, mem', i, k);
      }
    }
  }

  lemma FlagKeeps(mem: Memory, head: int, brk: int, bs: seq<Block>, i: nat, flag: Word32, mem': Memory)
    requires Shape(mem, head, brk, bs) && i < |bs| && InHeap(bs[i])
    requires mem' == mem[bs[i].addr + 4 := flag]
    ensures Shape(mem', head, brk, Flagged(bs, i, flag != 0)) && Untouched(mem, mem', bs[i].addr, End(bs[i]))
    ensures Payload(mem', bs[i]) == Payload(mem, bs[i])
  {
    hide Tiled, Linked;
    FlagTiled(bs, brk, i, flag != 0);
    OwnHeader(mem, head, brk, bs, i);
    FlagLinked(mem, head, brk, bs, i, flag != 0, mem');
  }

  /** Cut block i after `want` bytes of payload; the rest becomes a free block. */
  function Cut(bs: seq<Block>, i: nat, want: int): seq<Block>
    requires i < |bs|
  {
    var b := bs[i];
    bs[..i] + [Block(b.addr, want, b.free), Block(b.addr + HDR + want, b.size - want - HDR, true)] + bs[i + 1..]
  }

  lemma CutBlock(b: Block, want: int)
    requires InHeap(b) && 0 <= want && want % 8 == 0 && want + HDR <= b.size
    ensures InHeap(Block(b.addr, want, b.free)) && InHeap(Block(b.addr + HDR + want, b.size - want - HDR, true))
  {
  }

  lemma CutTiled(bs: seq<Block>, brk: int, i: nat, want: int)
    requires Tiled(bs, brk) && i < |bs| && 0 <= want && want % 8 == 0 && want + HDR <= bs[i].size
    ensures Tiled(Cut(bs, i, want), brk)
  {
    hide InHeap;
    var cs := Cut(bs, i, want);
    CutBlock(bs[i], want);
    forall k | 0 <= k < |cs| ensures InHeap(cs[k]) && cs[k].addr == EndBefore(cs, k) {
      var j := if k <= i then k else k - 1;
      assert bs[j].addr == EndBefore(bs, j);
    }
    assert EndBefore(cs, |cs|) == EndBefore(bs, |bs|);
  }

  lemma CutHeaders(mem: Memory, b: Block, next: int, want: int, mem': Memory)
    requires InHeap(b) && Header(mem, b, next) && 0 <= want && want % 8 == 0 && want + HDR + 8 <= b.size
    requires var r := b.addr + HDR + want;
             mem' == mem[r := b.size - want - HDR][r + 4 := 1][r + 8 := next][b.addr := want][b.addr + 8 := r]
    ensures var r := Block(b.addr + HDR + want, b.size - want - HDR, true); var c := Block(b.addr, want, b.free);
            && InHeap(r) && InHeap(c) && Header(mem', c, r.addr) && Header(mem', r, next)
            && Untouched(mem, mem', b.addr, End(b))
  {
  }

  lemma CutLinked(mem: Memory, head: int, brk: int, bs: seq<Block>, i: nat, want: int, mem': Memory)
    requires Shape(mem, head, brk, bs) && i < |bs| && Tiled(Cut(bs, i, want), brk)
    requires Untouched(mem, mem', bs[i].addr, End(bs[i]))
    requires var cs := Cut(bs, i, want); Header(mem', cs[i], cs[i + 1].addr) && Header(mem', cs[i + 1], AddrOf(bs, i + 1))
    ensures Linked(mem', head, Cut(bs, i, want))
  {
    hide InHeap, Untouched, Header;
    var cs := Cut(bs, i, want);
    forall k | 0 <= k < |cs| ensures Header(mem', cs[k], AddrOf(cs, k + 1)) {
      if k < i || i + 1 < k {
        OtherHeader(mem, head, brk, bs, mem', i, if k < i then k else k - 1);
      }
    }
  }

  lemma CutKeeps(mem: Memory, head: int, brk: int, bs: seq<Block>, i: nat, want: int, mem': Memory)
    requires Shape(mem, head, brk, bs) && i < |bs| && 0 <= want && want % 8 == 0 && want + HDR + 8 <= bs[i].size
    requires InHeap(bs[i])
    requires var b := bs[i]; var r := b.addr + HDR + want;
             mem' == mem[r := b.size - want - HDR][r + 4 := 1][r + 8 := mem[b.addr + 8]][b.addr := want][b.addr + 8 := r]
    ensures Shape(mem', head, brk, Cut(bs, i, want)) && Untouched(mem, mem', bs[i].addr, End(bs[i]))
  {
    hide Tiled, Linked;
    OwnHeader(mem, head, brk, bs, i);
    CutTiled(bs, brk, i, want);
    CutHeaders(mem, bs[i], AddrOf(bs, i + 1), want, mem');
    CutLinked(mem, head, brk, bs, i, want, mem');
  }

  /** A new block at the break, after it has been moved up. */
  function Grown(bs: seq<Block>, brk: int, want: int): seq<Block> {
    bs + [Block(brk, want, false)]
  }

  lemma GrowTiled(bs: seq<Block>, brk: int, want: int)
    requires Tiled(bs, brk) && 0 <= want && want % 8 == 0 && brk + HDR + want <= HEAP_END
    ensures Tiled(Grown(bs, brk, want), brk + HDR + want) && HEAP_BASE <= brk
  {
    var gs := Grown(bs, brk, want);
    assert brk == EndBefore(bs, |bs|);
    forall k | 0 <= k < |gs| ensures InHeap(gs[k]) && gs[k].addr == EndBefore(gs, k) {
      assert EndBefore(gs, k) == EndBefore(bs, k);
    }
  }

  lemma GrowKeeps(mem: Memory, head: int, brk: int, bs: seq<Block>, want: int, mem': Memory)
    requires Shape(mem, head, brk, bs) && 0 <= want && want % 8 == 0 && HEAP_BASE <= brk && brk + HDR + want <= HEAP_END
    requires bs != [] ==> InHeap(bs[|bs| - 1])
    requires var m := mem[brk := want][brk + 4 := 0][brk + 8 := 0];
             mem' == if bs == [] then m else m[bs[|bs| - 1].addr + 8 := brk]
    ensures Shape(mem', AddrOf(Grown(bs, brk, want), 0), brk + HDR + want, Grown(bs, brk, want))
    ensures forall j :: 0 <= j < |bs| ==> InHeap(bs[j]) && Payload(mem', bs[j]) == Payload(mem, bs[j])
  {
    hide Tiled, Linked;
    GrowTiled(bs, brk, want);
    var gs := Grown(bs, brk, want);
    forall k | 0 <= k < |bs|
      ensures InHeap(bs[k]) && Header(mem', bs[k], AddrOf(gs, k + 1)) && Payload(mem', bs[k]) == Payload(mem, bs[k])
    {
      OwnHeader(mem, head, brk, bs, k);
      Below(bs, brk, k);
      Spared(mem, bs[k], AddrOf(bs, k + 1), brk, want, if k < |bs| - 1 then bs[|bs| - 1].addr else bs[k].addr, mem');
    }
    if bs != [] {
      Below(bs, brk, |bs| - 1);
    }
    GrownLinked(mem', brk, bs, want);
  }

  lemma Spared(mem: Memory, b: Block, next: int, brk: int, want: Word32, t: int, mem': Memory)
    requires InHeap(b) && Header(mem, b, next) && End(b) <= brk <= HEAP_END - HDR && HEAP_BASE <= t <= HEAP_END - HDR
    requires t == b.addr || End(b) <= t
    requires mem' == mem[brk := want][brk + 4 := 0][brk + 8 := 0][t + 8 := brk]
    ensures Header(mem', b, if t == b.addr then brk else next) && Payload(mem', b) == Payload(mem, b)
  {
  }

  lemma GrownLinked(mem: Memory, brk: int, bs: seq<Block>, want: int)
    requires Tiled(Grown(bs, brk, want), brk + HDR + want)
    requires forall k :: 0 <= k < |bs| ==> InHeap(bs[k]) && Header(mem, bs[k], AddrOf(Grown(bs, brk, want), k + 1))
    requires Header(mem, Block(brk, want, false), 0)
    ensures Linked(mem, AddrOf(Grown(bs, brk, want), 0), Grown(bs, brk, want))
  {
    hide Header;
    var gs := Grown(bs, brk, want);
    forall k | 0 <= k < |gs| ensures Header(mem, gs[k], AddrOf(gs, k + 1)) {
      assert k < |bs| ==> gs[k] == bs[k];
    }
  }

  lemma Below(bs: seq<Block>, brk: int, k: nat)
    requires Tiled(bs, brk) && k < |bs|
    ensures InHeap(bs[k]) && End(bs[k]) <= brk
    ensures k < |bs| - 1 ==> End(bs[k]) <= bs[|bs| - 1].addr
  {
    if k < |bs| - 1 {
      Ascending(bs, brk, k, |bs| - 1);
    }
    assert brk == EndBefore(bs, |bs|);
  }

  // ---- what the program sees ---------------------------------------------------------

  /** Apart from the block at `x`, the same blocks are in use, with the same contents. */
  ghost predicate SameLive(mem: Memory, bs: seq<Block>, mem': Memory, bs': seq<Block>, x: int) {
    && (forall b :: b in bs && !b.free && b.addr != x ==> b in bs' && InHeap(b) && Payload(mem', b) == Payload(mem, b))
    && (forall b :: b in bs' && !b.free && b.addr != x ==> b in bs)
  }

  lemma SameLiveTrans(m0: Memory, b0: seq<Block>, m1: Memory, b1: seq<Block>, m2: Memory, b2: seq<Block>, x: int)
    requires SameLive(m0, b0, m1, b1, x) && SameLive(m1, b1, m2, b2, x)
    ensures SameLive(m0, b0, m2, b2, x)
  {
  }

  /** Replacing block i and free neighbours by others leaves the rest in use as it was. */
  lemma ReplacedLive(mem: Memory, head: int, brk: int, bs: seq<Block>, mem': Memory, bs': seq<Block>, i: nat, x: int)
    requires Shape(mem, head, brk, bs) && i < |bs| && Untouched(mem, mem', bs[i].addr, End(bs[i]))
    requires bs[i].free || bs[i].addr == x
    requires forall j :: 0 <= j < |bs| && j != i && !bs[j].free ==> bs[j] in bs'
    requires forall b :: b in bs' && !b.free && b.addr != x ==> b in bs
    ensures SameLive(mem, bs, mem', bs', x)
  {
    hide Shape, Untouched, Payload, InHeap;
    forall b | b in bs && !b.free && b.addr != x ensures b in bs' && InHeap(b) && Payload(mem', b) == Payload(mem, b) {
      var j :| 0 <= j < |bs| && bs[j] == b;
      OtherHeader(mem, head, brk, bs, mem', i, j);
    }
  }

  /** The want + 7 & ~7 of umalloc, in 32 bits. */
  function RoundUp(want: Word32): (r: Word32)
    ensures r % 8 == 0
    ensures want <= 0xFFFF_FFF8 ==> want <= r && r as int < want as int + 8
    ensures want > 0xFFFF_FFF8 ==> r == 0
  {
    (want as int + 7) % WORD_LIMIT / 8 * 8
  }

  predicate Fits(b: Block, want: int) {
    b.free && b.size >= want
  }

  /** The earliest block from i on that fits, or the length. */
  function FitFrom(bs: seq<Block>, want: int, i: nat): (k: nat)
    requires i <= |bs|
    ensures i <= k <= |bs| && (k < |bs| ==> Fits(bs[k], want)) && forall j :: i <= j < k ==> !Fits(bs[j], want)
    decreases |bs| - i
  {
    if i == |bs| || Fits(bs[i], want) then i else FitFrom(bs, want, i + 1)
  }

  function FirstFitting(bs: seq<Block>, want: int): (k: nat)
    ensures k <= |bs| && (k < |bs| ==> Fits(bs[k], want)) && forall j :: 0 <= j < k ==> !Fits(bs[j], want)
  {
    FitFrom(bs, want, 0)
  }

  /** Block i taken for `want` bytes: cut off if the rest is worth a header and 8 bytes. */
  function Taken(bs: seq<Block>, i: nat, want: int): seq<Block>
    requires i < |bs|
  {
    Flagged(if bs[i].size >= want + HDR + 8 then Cut(bs, i, want) else bs, i, false)
  }

  /** The blocks after a request of `size` bytes was met: the first fit taken, else a new block at the break. */
  function Allotted(bs: seq<Block>, brk: int, size: int): seq<Block> {
    if FirstFitting(bs, size) < |bs| then Taken(bs, FirstFitting(bs, size), size) else Grown(bs, brk, size)
  }

  /**
   The pointer umalloc owes: 0 exactly when nothing fits and the break cannot grow, else the earliest
   block that fits or else a new one at the break, and never a block already in use.
   */
  ghost predicate Answer(bs: seq<Block>, brk: int, want: int, p: int) {
    var i := FirstFitting(bs, want);
    && (p == 0 <==> want == 0 || (i == |bs| && brk + HDR + want > HEAP_END))
    && (want != 0 && i < |bs| ==> p == bs[i].addr + HDR)
    && (i == |bs| && p != 0 ==> p == brk + HDR)
    && (forall k :: 0 <= k < |bs| && !bs[k].free ==> p != bs[k].addr + HDR)
  }

  /** The pointer is the payload of a block in use of at least that size. */
  predicate Served(bs: seq<Block>, p: int, want: int) {
    exists i :: 0 <= i < |bs| && bs[i].addr + HDR == p && !bs[i].free && bs[i].size >= want
  }

  /**
   The requests umalloc gets right. From 0xFFFFFFE9 on, rounding up or adding the header wraps in 32 bits:
   then sbrk is asked for 0, 8 or 16 bytes, and all is well only if even that is refused.
   */
  ghost predicate Manageable(want: Word32, bs: seq<Block>, brk: int) {
    || want <= 0xFFFF_FFE8
    || (0xFFFF_FFF0 < want <= 0xFFFF_FFF8 && brk + 8 > HEAP_END)
    || (0xFFFF_FFF8 < want && brk + HDR > HEAP_END && forall i :: 0 <= i < |bs| ==> !bs[i].free)
  }

  class UserHeap {
    var mem: Memory
    var head: Word32
    var brk: Word32
    ghost var blocks: seq<Block>

    function Break(): int
      reads this
    {
      if brk == 0 then HEAP_BASE else brk
    }

    ghost predicate Sane()
      reads this
    {
      Shape(mem, head, Break(), blocks)
    }

    ghost predicate Valid()
      reads this
    {
      Sane() && Settled(blocks)
    }

    /** A program as it starts: an empty list, a break not moved yet. */
    constructor (mem: Memory)
      ensures Valid() && blocks == [] && Break() == HEAP_BASE && this.mem == mem
    {
      this.mem := mem;
      head := 0;
      brk := HEAP_BASE;
      blocks := [];
    }

    /** SYS_SBRK: the old break, or -1 and no change if the new one would pass the end of the heap. */
    method Sbrk(incr: Word32) returns (r: Word32)
      requires HEAP_BASE <= Break() <= HEAP_END
      modifies this`brk
      ensures Break() == (if old(Break()) + incr <= HEAP_END then old(Break()) + incr else old(Break()))
      ensures if old(Break()) + incr <= HEAP_END then r == old(Break()) else r == 0xFFFF_FFFF && brk == old(brk)
    {
      var was: Word32 := if brk != 0 then brk else HEAP_BASE;
      var want: Word32 := (was as int + incr as int) % WORD_LIMIT;
      if incr == 0 {
        r := was;
      } else if want < was || want as int > HEAP_END {
        r := 0xFFFF_FFFF;
      } else {
        brk := want;
        r := was;
      }
    }

    /** Fold every run of free blocks into one. */
    method Coalesce()
      requires Sane()
      modifies this`mem, this`blocks
      ensures Valid() && SameLive(old(mem), old(blocks), mem, blocks, 0) && Untouched(old(mem), mem, HEAP_BASE, HEAP_END)
    {
      hide Shape, SameLive, Untouched, Payload;
      NothingWritten(mem);
      var b: int := head;
      ghost var i := 0;
      SameLiveSelf(mem, head, Break(), blocks, 0);
      AddrIs(mem, head, Break(), blocks, 0);
      while b != 0 && mem[b + 8] != 0
        invariant Sane() && b == AddrOf(blocks, i) && (b == 0 || (i < |blocks| && HEAP_BASE <= b <= HEAP_END))
        invariant b == 0 ==> i >= |blocks|
        invariant forall k :: 0 <= k < i && k < |blocks| - 1 ==> !FreePair(blocks, k)
        invariant SameLive(old(mem), old(blocks), mem, blocks, 0) && Untouched(old(mem), mem, HEAP_BASE, HEAP_END)
        decreases |blocks| - i
      {
        OwnHeader(mem, head, Break(), blocks, i);
        AddrIs(mem, head, Break(), blocks, i + 1);
        OwnHeader(mem, head, Break(), blocks, i + 1);
        var n := mem[b + 8];
        if mem[b + 4] != 0 && mem[n + 4] != 0 {
          ghost var mem0, blocks0 := mem, blocks;
          mem := mem[b := mem[b] as int + HDR + mem[n] as int];
          mem := mem[b + 8 := mem[n + 8]];
          MergeKeeps(mem0, head, Break(), blocks0, i, mem);
          blocks := Merged(blocks0, i);
          MergedPairs(blocks0, i);
          ReplacedLive(mem0, head, Break(), blocks0, mem, blocks, i, 0);
          SameLiveTrans(old(mem), old(blocks), mem0, blocks0, mem, blocks, 0);
          InsideHeap(old(mem), mem0, mem, b, End(blocks0[i]));
        } else {
          b := n;
          i := i + 1;
        }
      }
      if b != 0 {
        OwnHeader(mem, head, Break(), blocks, i);
        AddrIs(mem, head, Break(), blocks, i + 1);
      }
    }

    /** The earliest free block that is big enough. */
    method FirstFit(want: Word32) returns (b: int)
      requires Sane()
      ensures b == AddrOf(blocks, FirstFitting(blocks, want)) && (b == 0 <==> FirstFitting(blocks, want) == |blocks|)
    {
      hide Shape, FitFrom;
      b := head;
      ghost var i := 0;
      AddrIs(mem, head, Break(), blocks, 0);
      while b != 0
        invariant i <= |blocks| && b == AddrOf(blocks, i) && (b == 0 <==> i == |blocks|)
        invariant forall k :: 0 <= k < i ==> !Fits(blocks[k], want)
        decreases |blocks| - i
      {
        OwnHeader(mem, head, Break(), blocks, i);
        AddrIs(mem, head, Break(), blocks, i + 1);
        if mem[b + 4] != 0 && mem[b] >= want {
          return;
        }
        b := mem[b + 8];
        i := i + 1;
      }
    }

    /** Cut a block that is big enough, if what is left over is worth a header. */
    method SplitOff(b: int, want: Word32, ghost i: nat)
      requires Sane() && i < |blocks| && b == blocks[i].addr && Fits(blocks[i], want) && want % 8 == 0
      modifies this`mem, this`blocks
      ensures Sane() && SameLive(old(mem), old(blocks), mem, blocks, b) && Untouched(old(mem), mem, HEAP_BASE, HEAP_END)
      ensures blocks == if old(blocks)[i].size >= want + HDR + 8 then Cut(old(blocks), i, want) else old(blocks)
    {
      hide Shape, SameLive, Payload, Untouched, InHeap;
      ghost var mem0, blocks0 := mem, blocks;
      OwnHeader(mem, head, Break(), blocks, i);
      if mem[b] as int >= (want as int + HDR + 8) % WORD_LIMIT {
        var rest := b + HDR + want;
        mem := mem[rest := mem[b] as int - want as int - HDR];
        mem := mem[rest + 4 := 1];
        mem := mem[rest + 8 := mem[b + 8]];
        mem := mem[b := want];
        mem := mem[b + 8 := rest];
        CutKeeps(mem0, head, Break(), blocks0, i, want, mem);
        blocks := Cut(blocks, i, want);
        CutBlocks(blocks0, i, want);
        ReplacedLive(mem0, head, Break(), blocks0, mem, blocks, i, b);
        InsideHeap(mem0, mem0, mem, b, End(blocks0[i]));
      } else {
        SameLiveSelf(mem, head, Break(), blocks, b);
        NothingWritten(mem);
      }
    }

    /** Take a free block, splitting it if what is left over is worth a header. */
    method Take(b: int, want: Word32, ghost i: nat)
      requires Valid() && i < |blocks| && b == blocks[i].addr && Fits(blocks[i], want) && want % 8 == 0
      modifies this`mem, this`blocks
      ensures Valid() && SameLive(old(mem), old(blocks), mem, blocks, b) && Served(blocks, b + HDR, want)
      ensures blocks == Taken(old(blocks), i, want) && Untouched(old(mem), mem, HEAP_BASE, HEAP_END)
    {
      hide Shape, SameLive, Settled, Payload, Untouched, InHeap, Header;
      ghost var mem0, blocks0 := mem, blocks;
      SplitOff(b, want, i);
      ghost var mem1, blocks1 := mem, blocks;
      OwnHeader(mem, head, Break(), blocks, i);
      mem := mem[b + 4 := 0];
      FlagKeeps(mem1, head, Break(), blocks1, i, 0, mem);
      blocks := Flagged(blocks1, i, false);
      FlagBlocks(blocks1, i, false, b);
      ReplacedLive(mem1, head, Break(), blocks1, mem, blocks, i, b);
      InsideHeap(mem0, mem1, mem, b, End(blocks1[i]));
      SameLiveTrans(mem0, blocks0, mem1, blocks1, mem, blocks, b);
      TakenSettled(blocks0, i, want);
      assert blocks[i].addr + HDR == b + HDR && !blocks[i].free && blocks[i].size >= want;
    }

    /** Write a header at the old break and link it last. It is a block if the break has just moved up past it. */
    method Append(b: int, want: Word32)
      requires Shape(mem, head, b, blocks) && Settled(blocks) && HEAP_BASE <= b <= HEAP_END
      modifies this`mem, this`head, this`blocks
      ensures want % 8 == 0 && Break() == b + HDR + want <= HEAP_END ==>
                && Valid() && SameLive(old(mem), old(blocks), mem, blocks, b) && Served(blocks, b + HDR, want)
                && blocks == Grown(old(blocks), b, want) && Untouched(old(mem), mem, HEAP_BASE, HEAP_END)
    {
      hide Shape, SameLive, Settled, Payload;
      ghost var mem0, head0 := mem, head;
      AddrIs(mem, head, b, blocks, 0);
      mem := mem[b := want][b + 4 := 0][b + 8 := 0];
      if head == 0 {
        head := b;
      } else {
        BeyondKeeps(mem0, head, b, blocks, mem);
        var t := TailOf(mem, head, b, blocks);
        OwnHeader(mem, head, b, blocks, |blocks| - 1);
        mem := mem[t + 8 := b];
      }
      if want % 8 == 0 && Break() == b + HDR + want <= HEAP_END {
        GrowKeeps(mem0, head0, b, blocks, want, mem);
        GrownLive(mem0, b, blocks, want, mem);
        blocks := Grown(blocks, b, want);
        assert blocks[|blocks| - 1] == Block(b, want, false);
      }
    }

    /** First fit, else a new block at the break. */
    method Malloc(want: Word32) returns (p: Word32)
      requires Valid()
      modifies this
      ensures want == 0 ==> p == 0
      ensures p == 0 ==> unchanged(this)
      ensures Manageable(want, old(blocks), old(Break())) ==>
                && Valid() && SameLive(old(mem), old(blocks), mem, blocks, p - HDR)
                && Answer(old(blocks), old(Break()), want, p) && Untouched(old(mem), mem, HEAP_BASE, HEAP_END)
                && (p != 0 ==> Served(blocks, p, want) && blocks == Allotted(old(blocks), old(Break()), RoundUp(want)))
      ensures !Manageable(want, old(blocks), old(Break())) ==>
                p != 0 && forall bs :: Shape(mem, head, Break(), bs) ==> !Served(bs, p, want)
    {
      hide Shape, SameLive, Settled, Served, Answer, RoundUp, FitFrom, Taken, Grown, Untouched;
      SameLiveSelf(mem, head, Break(), blocks, -HDR);
      NothingWritten(mem);
      AnswerIs(mem, head, Break(), blocks, want);
      if want == 0 {
        return 0;
      }
      var size := RoundUp(want);
      BreakIs(mem, head, Break(), blocks);
      SizesAre(mem, head, Break(), blocks, want);
      SameFit(mem, head, Break(), blocks, want);
      var b := FirstFit(size);
      if b != 0 {
        ghost var i := FirstFitting(blocks, size);
        AddrIs(mem, head, Break(), blocks, i);
        Take(b, size, i);
      } else {
        b := Sbrk((HDR + size as int) % WORD_LIMIT);
        if b == 0xFFFF_FFFF {
          return 0;
        }
        Append(b, size);
      }
      p := b + HDR;
      if want <= 0xFFFF_FFE8 {
        ServedLess(blocks, p, size, want);
      } else {
        NeverServed(mem, head, Break(), p, want);
      }
    }

    /** Free a block in use; free(0) does nothing. */
    method Free(p: Word32)
      requires Valid() && (p == 0 || Served(blocks, p, 0))
      modifies this`mem, this`blocks
      ensures Valid() && (p == 0 ==> unchanged(this))
      ensures p != 0 ==> SameLive(old(mem), old(blocks), mem, blocks, p - HDR) && !Served(blocks, p, 0)
      ensures Untouched(old(mem), mem, HEAP_BASE, HEAP_END)
    {
      hide Shape, SameLive, Settled, Payload, Served, Header, Untouched;
      NothingWritten(mem);
      if p == 0 {
        return;
      }
      ghost var i := ServedAt(blocks, p, 0);
      ghost var mem0, blocks0 := mem, blocks;
      var b := p - HDR;
      OwnHeader(mem, head, Break(), blocks, i);
      mem := mem[b + 4 := 1];
      FlagKeeps(mem0, head, Break(), blocks0, i, 1, mem);
      blocks := Flagged(blocks0, i, true);
      FlagBlocks(blocks0, i, true, b);
      ReplacedLive(mem0, head, Break(), blocks0, mem, blocks, i, b);
      ghost var mem1, blocks1 := mem, blocks;
      InsideHeap(mem0, mem0, mem1, b, End(blocks0[i]));
      assert blocks1[i] == Block(b, blocks0[i].size, true);
      FreedIsGone(mem1, head, Break(), blocks1, i);
      Coalesce();
      SameLiveExcept(mem1, head, Break(), blocks1, mem, blocks, b);
      SameLiveTrans(mem0, blocks0, mem1, blocks1, mem, blocks, b);
      InsideTwice(mem0, mem1, mem);
    }

    /** The program writes a word of a block it holds. */
    method Store(p: Word32, k: nat, w: Word32)
      requires Valid() && Served(blocks, p, 4 * k + 4)
      modifies this`mem
      ensures Valid() && SameLive(old(mem), blocks, mem, blocks, p - HDR)
      ensures mem == old(mem)[p as int + 4 * k := w]
    {
      hide SameLive, Settled, Shape, Payload, Served, Header;
      ghost var i := ServedAt(blocks, p, 4 * k + 4);
      OwnHeader(mem, head, Break(), blocks, i);
      mem := mem[p as int + 4 * k := w];
      StoreKeeps(old(mem), head, Break(), blocks, i, p as int + 4 * k, w);
    }

    /** Whatever the order, freeing every block in use leaves at most one block. */
    method FreeAll(ps: seq<Word32>)
      requires Valid() && Holds(blocks, ps)
      modifies this`mem, this`blocks
      ensures Valid() && Break() == old(Break())
      ensures blocks == [] || blocks == [Block(HEAP_BASE, Break() - HEAP_BASE - HDR, true)]
    {
      hide Shape, Settled, Holds, SameLive;
      var n := 0;
      while n < |ps|
        invariant 0 <= n <= |ps| && Valid() && Holds(blocks, ps[n..])
      {
        ghost var mem0, blocks0 := mem, blocks;
        HoldsFirst(blocks, ps[n..]);
        Free(ps[n]);
        HoldsRest(mem0, blocks0, mem, head, Break(), blocks, ps[n..]);
        assert ps[n..][1..] == ps[n + 1..];
        n := n + 1;
      }
      assert ps[n..] == [];
      AllFree(mem, head, Break(), blocks);
    }
  }

  lemma StoreKeeps(mem: Memory, head: int, brk: int, bs: seq<Block>, i: nat, a: int, w: Word32)
    requires Shape(mem, head, brk, bs) && i < |bs| && InHeap(bs[i]) && bs[i].addr + HDR <= a < End(bs[i])
    ensures Shape(mem[a := w], head, brk, bs) && SameLive(mem, bs, mem[a := w], bs, bs[i].addr)
  {
    var mem' := mem[a := w];
    OwnHeader(mem, head, brk, bs, i);
    assert Untouched(mem, mem', bs[i].addr, End(bs[i])) && Header(mem', bs[i], AddrOf(bs, i + 1));
    ReplacedLive(mem, head, brk, bs, mem', bs, i, bs[i].addr);
    hide InHeap, Untouched, Header, SameLive;
    forall j | 0 <= j < |bs| ensures Header(mem', bs[j], AddrOf(bs, j + 1)) {
      if j != i {
        OtherHeader(mem, head, brk, bs, mem', i, j);
      }
    }
  }

  /** The pointers are those of the blocks in use, each once. */
  ghost predicate Holds(bs: seq<Block>, ps: seq<Word32>) {
    && (forall i, j :: 0 <= i < j < |ps| ==> ps[i] != ps[j])
    && (forall p :: p in ps ==> p != 0 && Served(bs, p, 0))
    && (forall b :: b in bs && !b.free ==> b.addr + HDR in ps)
  }

  lemma HoldsFirst(bs: seq<Block>, ps: seq<Word32>)
    requires Holds(bs, ps) && ps != []
    ensures ps[0] != 0 && Served(bs, ps[0], 0)
  {
  }

  lemma HoldsRest(mem: Memory, bs: seq<Block>, mem': Memory, head: int, brk: int, bs': seq<Block>, ps: seq<Word32>)
    requires Holds(bs, ps) && ps != [] && Shape(mem', head, brk, bs')
    requires SameLive(mem, bs, mem', bs', ps[0] - HDR) && !Served(bs', ps[0], 0)
    ensures Holds(bs', ps[1..])
  {
    hide Shape, SameLive, Served;
    forall p | p in ps[1..] ensures p != 0 && Served(bs', p, 0) {
      InRest(ps, p);
      ServedStill(mem, bs, mem', bs', p, ps[0] - HDR);
    }
    forall b | b in bs' && !b.free ensures b.addr + HDR in ps[1..] {
      LiveIsServed(mem', head, brk, bs', b);
      NoNewLive(mem, bs, mem', bs', b, ps[0] - HDR);
      NotFirst(ps, b.addr + HDR);
    }
  }

  lemma InRest(ps: seq<Word32>, p: Word32)
    requires ps != [] && p in ps[1..] && forall i, j :: 0 <= i < j < |ps| ==> ps[i] != ps[j]
    ensures p in ps && p != ps[0]
  {
    var k :| 0 <= k < |ps| - 1 && ps[1..][k] == p;
    assert ps[k + 1] == p;
  }

  lemma NotFirst(ps: seq<Word32>, p: int)
    requires ps != [] && p in ps && p != ps[0]
    ensures p in ps[1..]
  {
    var k :| 0 <= k < |ps| && ps[k] == p;
    assert ps[1..][k - 1] == p;
  }

  lemma ServedStill(mem: Memory, bs: seq<Block>, mem': Memory, bs': seq<Block>, p: int, x: int)
    requires SameLive(mem, bs, mem', bs', x) && Served(bs, p, 0) && p != x + HDR
    ensures Served(bs', p, 0)
  {
    hide InHeap, Payload;
    var j :| 0 <= j < |bs| && bs[j].addr + HDR == p && !bs[j].free && bs[j].size >= 0;
    assert bs[j] in bs';
  }

  lemma NoNewLive(mem: Memory, bs: seq<Block>, mem': Memory, bs': seq<Block>, b: Block, x: int)
    requires SameLive(mem, bs, mem', bs', x) && b in bs' && !b.free && b.addr != x
    ensures b in bs
  {
  }

  /** No block in use starts where a free one or the break is. */
  lemma LiveElsewhere(mem: Memory, head: int, brk: int, bs: seq<Block>)
    requires Shape(mem, head, brk, bs)
    ensures forall i, j :: 0 <= i < |bs| && 0 <= j < |bs| && !bs[i].free && bs[j].free ==> bs[i].addr != bs[j].addr
    ensures forall i :: 0 <= i < |bs| ==> HEAP_BASE <= bs[i].addr < brk
  {
    forall i | 0 <= i < |bs| ensures HEAP_BASE <= bs[i].addr < brk {
      Below(bs, brk, i);
    }
    forall i, j | 0 <= i < |bs| && 0 <= j < |bs| && !bs[i].free && bs[j].free ensures bs[i].addr != bs[j].addr {
      PayloadsApart(bs, brk, i, j);
    }
  }

  lemma AnswerIs(mem: Memory, head: int, brk: int, bs: seq<Block>, want: Word32)
    requires Shape(mem, head, brk, bs)
    ensures var i := FirstFitting(bs, want);
            && (want == 0 || (i == |bs| && brk + HDR + want > HEAP_END) ==> Answer(bs, brk, want, 0))
            && (want != 0 && i == |bs| && brk + HDR + want <= HEAP_END ==> Answer(bs, brk, want, brk + HDR))
            && (want != 0 && i < |bs| ==> Answer(bs, brk, want, bs[i].addr + HDR))
  {
    hide Shape, FitFrom;
    BreakIs(mem, head, brk, bs);
    LiveElsewhere(mem, head, brk, bs);
  }

  /** Sizes are multiples of 8, so rounding the request up changes nothing about what fits. */
  lemma SameFit(mem: Memory, head: int, brk: int, bs: seq<Block>, want: Word32)
    requires Shape(mem, head, brk, bs)
    ensures want <= 0xFFFF_FFE8 ==> FirstFitting(bs, want) == FirstFitting(bs, RoundUp(want))
    ensures want > 0xF000 ==> FirstFitting(bs, want) == |bs|
  {
    hide Shape, FitFrom, RoundUp;
    SizesAre(mem, head, brk, bs, want);
    var i, j := FirstFitting(bs, want), FirstFitting(bs, RoundUp(want));
    if want <= 0xFFFF_FFE8 {
      assert j < |bs| ==> Fits(bs[j], want);
      assert i < |bs| ==> Fits(bs[i], RoundUp(want));
    }
  }

  lemma NothingWritten(mem: Memory)
    ensures Untouched(mem, mem, HEAP_BASE, HEAP_END)
  {
  }

  lemma InsideTwice(m0: Memory, m1: Memory, m2: Memory)
    requires Untouched(m0, m1, HEAP_BASE, HEAP_END) && Untouched(m1, m2, HEAP_BASE, HEAP_END)
    ensures Untouched(m0, m2, HEAP_BASE, HEAP_END)
  {
  }

  lemma InsideHeap(m0: Memory, m1: Memory, m2: Memory, lo: int, hi: int)
    requires Untouched(m0, m1, HEAP_BASE, HEAP_END) || m0 == m1
    requires Untouched(m1, m2, lo, hi) && HEAP_BASE <= lo && hi <= HEAP_END
    ensures Untouched(m0, m2, HEAP_BASE, HEAP_END)
  {
  }

  lemma LiveIsServed(mem: Memory, head: int, brk: int, bs: seq<Block>, b: Block)
    requires Shape(mem, head, brk, bs) && b in bs && !b.free
    ensures Served(bs, b.addr + HDR, 0)
  {
    var i :| 0 <= i < |bs| && bs[i] == b;
    OwnHeader(mem, head, brk, bs, i);
  }

  lemma AllFree(mem: Memory, head: int, brk: int, bs: seq<Block>)
    requires Shape(mem, head, brk, bs) && Settled(bs) && Holds(bs, [])
    ensures bs == [] || bs == [Block(HEAP_BASE, brk - HEAP_BASE - HDR, true)]
  {
    AllFreeIsOne(bs, brk);
  }

  /** A free block's address is in no block in use, before or after other free blocks are merged. */
  lemma FreedIsGone(mem: Memory, head: int, brk: int, bs: seq<Block>, i: nat)
    requires Shape(mem, head, brk, bs) && i < |bs| && bs[i].free
    ensures forall b :: b in bs && !b.free ==> b.addr != bs[i].addr
  {
    LiveElsewhere(mem, head, brk, bs);
  }

  lemma SameLiveExcept(mem: Memory, head: int, brk: int, bs: seq<Block>, mem': Memory, bs': seq<Block>, x: int)
    requires Shape(mem, head, brk, bs) && SameLive(mem, bs, mem', bs', 0) && x >= HEAP_BASE
    requires forall b :: b in bs && !b.free ==> b.addr != x
    requires Shape(mem', head, brk, bs')
    ensures SameLive(mem, bs, mem', bs', x) && !Served(bs', x + HDR, 0)
  {
  }

  lemma ServedAt(bs: seq<Block>, p: int, want: int) returns (i: nat)
    requires Served(bs, p, want)
    ensures i < |bs| && bs[i].addr + HDR == p && !bs[i].free && bs[i].size >= want
  {
    i :| 0 <= i < |bs| && bs[i].addr + HDR == p && !bs[i].free && bs[i].size >= want;
  }

  lemma ServedLess(bs: seq<Block>, p: int, size: int, want: int)
    requires Served(bs, p, size) && want <= size
    ensures Served(bs, p, want)
  {
  }

  lemma NeverServed(mem: Memory, head: int, brk: int, p: int, want: Word32)
    requires want > 0xF000
    ensures forall bs :: Shape(mem, head, brk, bs) ==> !Served(bs, p, want)
  {
    hide Shape;
    forall bs | Shape(mem, head, brk, bs) ensures !Served(bs, p, want) {
      SizesAre(mem, head, brk, bs, want);
    }
  }

  /** The last block, found by following the links. */
  method TailOf(mem: Memory, head: int, ghost brk: int, ghost bs: seq<Block>) returns (t: int)
    requires Shape(mem, head, brk, bs) && bs != []
    ensures t == bs[|bs| - 1].addr
  {
    hide Shape;
    t := head;
    ghost var i := 0;
    AddrIs(mem, head, brk, bs, 0);
    while mem[t + 8] != 0
      invariant i < |bs| && t == bs[i].addr && HEAP_BASE <= t <= HEAP_END
      decreases |bs| - i
    {
      OwnHeader(mem, head, brk, bs, i);
      AddrIs(mem, head, brk, bs, i + 1);
      t := mem[t + 8];
      i := i + 1;
    }
    OwnHeader(mem, head, brk, bs, i);
    AddrIs(mem, head, brk, bs, i + 1);
  }

  /** Memory from the break on is not part of any block. */
  lemma BeyondKeeps(mem: Memory, head: int, brk: int, bs: seq<Block>, mem': Memory)
    requires Shape(mem, head, brk, bs) && Untouched(mem, mem', brk, brk + HDR)
    ensures Shape(mem', head, brk, bs)
  {
    forall k | 0 <= k < |bs| ensures Header(mem', bs[k], AddrOf(bs, k + 1)) {
      OwnHeader(mem, head, brk, bs, k);
      Below(bs, brk, k);
    }
  }

  lemma BreakIs(mem: Memory, head: int, brk: int, bs: seq<Block>)
    requires Shape(mem, head, brk, bs)
    ensures HEAP_BASE <= brk <= HEAP_END && brk % 8 == 0
  {
    assert brk == EndBefore(bs, |bs|);
  }

  /** Sizes are multiples of 8 and far below 2^32. */
  lemma SizesAre(mem: Memory, head: int, brk: int, bs: seq<Block>, want: Word32)
    requires Shape(mem, head, brk, bs)
    ensures forall i :: 0 <= i < |bs| && bs[i].size >= want ==> want <= 0xF000 && bs[i].size >= RoundUp(want)
    ensures forall i :: 0 <= i < |bs| ==> 0 <= bs[i].size <= 0xF000
  {
    hide Shape;
    forall i | 0 <= i < |bs| ensures 0 <= bs[i].size <= 0xF000 && bs[i].size % 8 == 0 {
      OwnHeader(mem, head, brk, bs, i);
    }
  }

  lemma GrownLive(mem: Memory, brk: int, bs: seq<Block>, want: int, mem': Memory)
    requires forall j :: 0 <= j < |bs| ==> InHeap(bs[j]) && Payload(mem', bs[j]) == Payload(mem, bs[j])
    requires Settled(bs)
    ensures SameLive(mem, bs, mem', Grown(bs, brk, want), brk) && Settled(Grown(bs, brk, want))
  {
    var gs := Grown(bs, brk, want);
    forall k | 0 <= k < |gs| - 1 ensures !FreePair(gs, k) {
      assert k < |bs| - 1 ==> !FreePair(bs, k);
    }
  }

  lemma AddrIs(mem: Memory, head: int, brk: int, bs: seq<Block>, i: nat)
    requires Shape(mem, head, brk, bs)
    ensures head == AddrOf(bs, 0)
    ensures if i < |bs| then HEAP_BASE <= AddrOf(bs, i) <= HEAP_END - HDR else AddrOf(bs, i) == 0
  {
    if i < |bs| {
      OwnHeader(mem, head, brk, bs, i);
    }
  }

  lemma SameLiveSelf(mem: Memory, head: int, brk: int, bs: seq<Block>, x: int)
    requires Shape(mem, head, brk, bs)
    ensures SameLive(mem, bs, mem, bs, x)
  {
  }

  lemma CutBlocks(bs: seq<Block>, i: nat, want: int)
    requires i < |bs| && bs[i].free
    ensures forall j :: 0 <= j < |bs| && j != i && !bs[j].free ==> bs[j] in Cut(bs, i, want)
    ensures forall b :: b in Cut(bs, i, want) && !b.free ==> b in bs
  {
    var cs := Cut(bs, i, want);
    forall j | 0 <= j < |bs| && j != i && !bs[j].free ensures bs[j] in cs {
      assert cs[if j < i then j else j + 1] == bs[j];
    }
    forall b | b in cs && !b.free ensures b in bs {
      var k :| 0 <= k < |cs| && cs[k] == b;
      assert b == bs[if k < i then k else k - 1];
    }
  }

  lemma FlagBlocks(bs: seq<Block>, i: nat, free: bool, x: int)
    requires i < |bs| && bs[i].addr == x
    ensures forall j :: 0 <= j < |bs| && j != i ==> bs[j] in Flagged(bs, i, free)
    ensures forall b :: b in Flagged(bs, i, free) && b.addr != x ==> b in bs
  {
    var fs := Flagged(bs, i, free);
    forall j | 0 <= j < |bs| && j != i ensures bs[j] in fs {
      assert fs[j] == bs[j];
    }
    forall b | b in fs && b.addr != x ensures b in bs {
      var k :| 0 <= k < |fs| && fs[k] == b;
      assert b == bs[k];
    }
  }

  lemma TakenSettled(bs: seq<Block>, i: nat, want: int)
    requires Settled(bs) && i < |bs| && bs[i].free
    ensures Settled(Flagged(bs, i, false)) && Settled(Flagged(Cut(bs, i, want), i, false))
  {
    var fs, cs := Flagged(bs, i, false), Flagged(Cut(bs, i, want), i, false);
    forall k | 0 <= k < |fs| - 1 ensures !FreePair(fs, k) {
      assert !FreePair(bs, k);
    }
    forall k | 0 <= k < |cs| - 1 ensures !FreePair(cs, k) {
      if k < i {
        assert !FreePair(bs, k);
      } else if k > i {
        assert !FreePair(bs, k - 1);
      }
    }
  }

  /** Merging makes no new free pair further down, and loses no block in use. */
  lemma MergedPairs(bs: seq<Block>, i: nat)
    requires i + 1 < |bs| && bs[i].free && bs[i + 1].free
    ensures forall k :: 0 <= k < i && k < |Merged(bs, i)| - 1 ==> FreePair(Merged(bs, i), k) == FreePair(bs, k)
    ensures forall j :: 0 <= j < |bs| && j != i && !bs[j].free ==> bs[j] in Merged(bs, i)
    ensures forall b :: b in Merged(bs, i) && !b.free ==> b in bs
  {
    var ms := Merged(bs, i);
    forall j | 0 <= j < |bs| && j != i && !bs[j].free ensures bs[j] in ms {
      assert ms[if j < i then j else j - 1] == bs[j];
    }
    forall b | b in ms && !b.free ensures b in bs {
      var k :| 0 <= k < |ms| && ms[k] == b;
      assert b == bs[if k < i then k else k + 1];
    }
  }

  /** The smallest heap there is answers a request of 0xFFFFFFF0 bytes, and no block of that size is behind the answer. */
  method WrappedRequest(mem: Memory) returns (h: UserHeap, p: Word32)
    ensures p != 0 && forall bs :: Shape(h.mem, h.head, h.Break(), bs) ==> !Served(bs, p, 0xFFFF_FFF0)
  {
    h := new UserHeap(mem);
    p := h.Malloc(0xFFFF_FFF0);
  }

  /** A block of 104 bytes serves 8 and is cut; it serves 80, leaving a block of 8; it serves 88 whole. */
  lemma WhenCut()
    ensures var b := Block(0x90000, 104, true);
            && Taken([b], 0, 8) == [Block(0x90000, 8, false), Block(0x90018, 80, true)]
            && Taken([b], 0, 80) == [Block(0x90000, 80, false), Block(0x90060, 8, true)]
            && Taken([b], 0, 88) == [Block(0x90000, 104, false)]
  {
  }

  lemma NothingFits(bs: seq<Block>, want: int)
    requires forall i :: 0 <= i < |bs| ==> !bs[i].free
    ensures FirstFitting(bs, want) == |bs|
  {
    var k := FirstFitting(bs, want);
    assert k < |bs| ==> Fits(bs[k], want);
  }

  lemma BreakAfter(mem: Memory, head: int, brk: int, bs: seq<Block>)
    requires Shape(mem, head, brk, bs) && bs != []
    ensures brk == End(bs[|bs| - 1])
  {
    assert brk == EndBefore(bs, |bs|);
  }

  /** The first addresses umalloc gives: a 16-byte header before each payload, and sizes rounded up to 8. */
  method FirstAnswers(mem: Memory) returns (a: Word32, b: Word32)
    ensures a == 0x90010 && b == 0x90088
  {
    hide Shape, SameLive, Settled, Untouched, FirstFitting, Served;
    var h := new UserHeap(mem);
    NothingFits([], 100);
    NothingFits([], 104);
    a := h.Malloc(100);
    assert h.blocks == [Block(0x90000, 104, false)];
    ghost var bs := h.blocks;
    NothingFits(bs, 1);
    NothingFits(bs, 8);
    BreakAfter(h.mem, h.head, h.Break(), bs);
    b := h.Malloc(1);
  }
}
