/**
 Demand paging (kernel/demand.c) and the page-fault path that makes loads and
 stores retry (kernel/isr.c). A page an address space was promised shows as
 zeros before any frame backs it; `Seen` is that view.
 */
module Demand {
  import opened Words
  import opened Pmm
  import opened Ownership
  import opened Vmm

  const MAX_REGIONS := 16
  const WRAP := 0x1_0000_0000

  datatype Region = Region(dir: FrameNo, start: nat, end: nat, flags: Word, active: bool)

  function RoundDown(a: nat): nat {
    a - a % 4096
  }

  /** The address of the first byte of page (di, ti). */
  function Address(di: Index, ti: Index): nat {
    di * 0x40_0000 + ti * 4096
  }

  predicate Covers(r: Region, d: FrameNo, a: nat) {
    r.active && r.dir == d && r.start <= a < r.end
  }

  predicate Aligned(rs: seq<Region>) {
    |rs| == MAX_REGIONS && forall i :: 0 <= i < |rs| ==> rs[i].start % 4096 == 0 && rs[i].end % 4096 == 0
  }

  /** The flags of the first region that promises address `a` to `d`. */
  function Promised(rs: seq<Region>, d: FrameNo, a: nat): Option<Word> {
    if rs == [] then None else if Covers(rs[0], d, a) then Some(rs[0].flags) else Promised(rs[1..], d, a)
  }

  type Promises = map<(Index, Index), Word>

  /** The pages promised to an address space, with their flags. */
  ghost function PromisesOf(rs: seq<Region>, d: FrameNo): Promises {
    map di: nat, ti: nat | 2 <= di < PAGE_WORDS && 0 <= ti < PAGE_WORDS && Promised(rs, d, Address(di, ti)).Some? ::
      (di, ti) := Promised(rs, d, Address(di, ti)).value
  }

  /** Promises with those of a rounded range behind them. */
  ghost function Owe(owed: Promises, start: nat, end: nat, flags: Word): Promises {
    map di: nat, ti: nat | 2 <= di < PAGE_WORDS && 0 <= ti < PAGE_WORDS
                           && ((di, ti) in owed || RoundDown(start) <= Address(di, ti) < RoundDown((end + 0xFFF) % WRAP)) ::
      (di, ti) := if (di, ti) in owed then owed[(di, ti)] else flags
  }

  /** The page at address `a` shares a byte with [start, end). */
  predicate Overlaps(start: nat, end: nat, a: nat) {
    start < end && a < end && start < a + 4096
  }

  /**
   The pages demand_region promises. A range that ends in the last page of memory wraps and promises nothing; an
   empty one promises a page if both its ends lie in that page and are not its first byte.
   */
  predicate Reaches(start: nat, end: nat, a: nat) {
    end <= 0xFFFF_F000 && (Overlaps(start, end, a) || a < end <= start < a + 4096)
  }

  lemma RoundedReaches(start: nat, end: nat, page: nat)
    requires start < 0x1_0000_0000 && end < 0x1_0000_0000
    ensures RoundDown(start) <= 4096 * page < RoundDown((end + 0xFFF) % WRAP) <==> Reaches(start, end, 4096 * page)
  {
    var s, e := start / 4096, (end + 0xFFF) / 4096;
    assert RoundDown(start) == 4096 * s;
    if end <= 0xFFFF_F000 {
      assert (end + 0xFFF) % WRAP == end + 0xFFF && RoundDown(end + 0xFFF) == 4096 * e;
    } else {
      assert (end + 0xFFF) % WRAP == end + 0xFFF - WRAP && RoundDown(end + 0xFFF - WRAP) == 0;
    }
  }

  lemma AllReached(start: nat, end: nat)
    requires start < 0x1_0000_0000 && end < 0x1_0000_0000
    ensures forall di: Index, ti: Index :: Reaches(start, end, 0x40_0000 * di + 4096 * ti) <==>
                                             RoundDown(start) <= Address(di, ti) < RoundDown((end + 0xFFF) % WRAP)
  {
    forall di: Index, ti: Index ensures Reaches(start, end, 0x40_0000 * di + 4096 * ti) <==>
                                          RoundDown(start) <= Address(di, ti) < RoundDown((end + 0xFFF) % WRAP)
    {
      RoundedReaches(start, end, 1024 * di + ti);
      assert Address(di, ti) == 4096 * (1024 * di + ti);
    }
  }

  /** For which ranges the pages promised are those the range overlaps. */
  predicate Rounds(start: nat, end: nat) {
    if start < end then end <= 0xFFFF_F000
    else end > 0xFFFF_F000 || end % 4096 == 0 || start / 4096 != end / 4096
  }

  lemma PageIsOverlap(start: nat, end: nat, page: nat)
    requires start < 0x1_0000_0000 && end < 0x1_0000_0000
    ensures Rounds(start, end) ==> (Reaches(start, end, 4096 * page) <==> Overlaps(start, end, 4096 * page))
    ensures !Rounds(start, end) && page == start / 4096 ==> Reaches(start, end, 4096 * page) != Overlaps(start, end, 4096 * page)
  {
    var e := end / 4096;
    assert 4096 * e <= end < 4096 * e + 4096;
    if start >= end && 4096 * page < end && start < 4096 * page + 4096 {
      assert page == start / 4096 && page == e;
    }
  }

  lemma PromiseIsOverlap(start: nat, end: nat)
    requires start < 0x1_0000_0000 && end < 0x1_0000_0000
    ensures Rounds(start, end) <==>
            forall di: Index, ti: Index :: Reaches(start, end, Address(di, ti)) <==> Overlaps(start, end, Address(di, ti))
  {
    hide Rounds, Reaches, Overlaps, Address;
    forall di: Index, ti: Index ensures Rounds(start, end) ==> (Reaches(start, end, Address(di, ti)) <==> Overlaps(start, end, Address(di, ti))) {
      AddressIs(di, ti);
      PageIsOverlap(start, end, 1024 * di + ti);
    }
    var page := start / 4096;
    var di: Index, ti: Index := page / 1024, page % 1024;
    AddressIs(di, ti);
    PageIsOverlap(start, end, page);
  }

  lemma AddressIs(di: Index, ti: Index)
    ensures Address(di, ti) == 4096 * (1024 * di + ti)
  {
  }

  /** The last page cannot be promised, and an empty range can promise a page. */
  lemma OddRanges(di: Index, ti: Index)
    ensures !Rounds(0x100_0000, 0xFFFF_F001) && !Reaches(0x100_0000, 0xFFFF_F001, Address(di, ti))
    ensures !Rounds(0x100_0800, 0x100_0800) && Reaches(0x100_0800, 0x100_0800, Address(4, 0))
    ensures Overlaps(0x100_0000, 0xFFFF_F001, Address(4, 0)) && !Overlaps(0x100_0800, 0x100_0800, Address(4, 0))
  {
  }

  /** How many promises are taken. */
  function Taken(rs: seq<Region>): (n: nat)
    ensures n <= |rs|
  {
    if rs == [] || !rs[0].active then 0 else 1 + Taken(rs[1..])
  }

  /** A promised page before its first touch. */
  function Fresh(flags: Word): Shown {
    Shown(ZeroPage(), flags.rw || flags.cow, flags.user, flags.low, flags.high)
  }

  /** What address space `d` shows at a page, promises included. */
  function Seen(ram: Ram, rs: seq<Region>, d: FrameNo, di: Index, ti: Index): Option<Shown> {
    var here := Look(ram, d, di, ti);
    var due := Promised(rs, d, Address(di, ti));
    if here.None? && due.Some? then Some(Fresh(due.value)) else here
  }

  lemma {:induction false} PromiseFrom(rs: seq<Region>, i: nat, d: FrameNo, a: nat)
    requires i <= |rs| && forall k :: 0 <= k < i ==> !Covers(rs[k], d, a)
    ensures Promised(rs, d, a) == Promised(rs[i..], d, a)
  {
    if i > 0 {
      PromiseFrom(rs[1..], i - 1, d, a);
      assert rs[1..][i - 1..] == rs[i..];
    } else {
      assert rs[0..] == rs;
    }
  }

  /** Bounds are page aligned, so a promise covers all of a page or none of it. */
  lemma InWholePage(r: Region, d: FrameNo, di: Index, ti: Index, off: nat)
    requires off < 4096 && r.start % 4096 == 0 && r.end % 4096 == 0
    ensures Covers(r, d, Address(di, ti) + off) <==> Covers(r, d, Address(di, ti))
  {
    AtPageEdge(r.start, 1024 * di + ti, off);
    AtPageEdge(r.end, 1024 * di + ti, off);
  }

  lemma AtPageEdge(edge: nat, page: nat, off: nat)
    requires off < 4096 && edge % 4096 == 0
    ensures edge <= 4096 * page + off <==> edge <= 4096 * page
  {
    var i := edge / 4096;
    assert edge == 4096 * i;
  }

  /** Regions are added in order and cleared all at once, so the active ones come first. */
  predicate ActiveFirst(rs: seq<Region>) {
    forall i, j :: 0 <= i < j < |rs| && rs[j].active ==> rs[i].active
  }

  /** Filling the first inactive slot promises its range to its directory, after every earlier promise. */
  lemma {:induction false} AddedPromise(rs: seq<Region>, i: nat, r: Region, d: FrameNo, a: nat)
    requires i < |rs| && ActiveFirst(rs) && !rs[i].active && forall k :: 0 <= k < i ==> rs[k].active
    ensures Promised(rs[i := r], d, a) ==
            if Promised(rs, d, a).Some? then Promised(rs, d, a) else if Covers(r, d, a) then Some(r.flags) else None
  {
    if i == 0 {
      forall k | 0 <= k < |rs| ensures !rs[k].active {
      }
      PromiseFrom(rs, |rs|, d, a);
      PromiseFrom(rs[1..], |rs| - 1, d, a);
      assert rs[i := r][1..] == rs[1..];
    } else {
      AddedPromise(rs[1..], i - 1, r, d, a);
      assert rs[i := r][1..] == rs[1..][i - 1 := r];
    }
  }

  lemma {:induction false} TakenIs(rs: seq<Region>, i: nat)
    requires i <= |rs| && (i < |rs| ==> !rs[i].active) && forall k :: 0 <= k < i ==> rs[k].active
    ensures Taken(rs) == i
  {
    if i > 0 {
      TakenIs(rs[1..], i - 1);
    }
  }

  lemma PromisesAdded(rs: seq<Region>, rs': seq<Region>, dir: FrameNo, start: nat, end: nat, flags: Word, room: bool)
    requires forall d: FrameNo, a: nat :: Promised(rs', d, a) ==
               if Promised(rs, d, a).Some? then Promised(rs, d, a)
               else if room && d == dir && RoundDown(start) <= a < RoundDown((end + 0xFFF) % WRAP) then Some(flags) else None
    ensures forall d: FrameNo :: PromisesOf(rs', d) == if d == dir && room then Owe(PromisesOf(rs, d), start, end, flags) else PromisesOf(rs, d)
  {
    hide Promised, Address, RoundDown, PromisesOf, Owe;
    forall d: FrameNo ensures PromisesOf(rs', d) == if d == dir && room then Owe(PromisesOf(rs, d), start, end, flags) else PromisesOf(rs, d) {
      var p, q := PromisesOf(rs', d), if d == dir && room then Owe(PromisesOf(rs, d), start, end, flags) else PromisesOf(rs, d);
      forall k: (Index, Index) ensures (k in p <==> k in q) && (k in p ==> p[k] == q[k]) {
        var (di, ti) := k;
        PromiseAt(rs, d, di, ti);
        PromiseAt(rs', d, di, ti);
        OweAt(PromisesOf(rs, d), start, end, flags, di, ti);
      }
      assert p == q;
    }
  }

  lemma PromiseAt(rs: seq<Region>, d: FrameNo, di: Index, ti: Index)
    ensures (di, ti) in PromisesOf(rs, d) <==> di >= 2 && Promised(rs, d, Address(di, ti)).Some?
    ensures (di, ti) in PromisesOf(rs, d) ==> PromisesOf(rs, d)[(di, ti)] == Promised(rs, d, Address(di, ti)).value
  {
    hide Promised, Address;
  }

  lemma OweAt(owed: Promises, start: nat, end: nat, flags: Word, di: Index, ti: Index)
    ensures (di, ti) in Owe(owed, start, end, flags) <==>
            di >= 2 && ((di, ti) in owed || RoundDown(start) <= Address(di, ti) < RoundDown((end + 0xFFF) % WRAP))
    ensures (di, ti) in Owe(owed, start, end, flags) ==> Owe(owed, start, end, flags)[(di, ti)] == if (di, ti) in owed then owed[(di, ti)] else flags
  {
    hide Address, RoundDown;
  }

  /** Owing a range: earlier promises stand, and the range's pages above 8 MB are promised. */
  lemma OweReaches(owed: Promises, start: nat, end: nat, flags: Word, di: Index, ti: Index)
    requires start < 0x1_0000_0000 && end < 0x1_0000_0000 && (di < 2 ==> (di, ti) !in owed)
    ensures (di, ti) in Owe(owed, start, end, flags) <==> (di, ti) in owed || (di >= 2 && Reaches(start, end, 0x40_0000 * di + 4096 * ti))
  {
    hide Owe;
    OweAt(owed, start, end, flags, di, ti);
    RoundedReaches(start, end, 1024 * di + ti);
    assert Address(di, ti) == 4096 * (1024 * di + ti);
  }

  /** A fault on `r` leaves every other reference alone; it may add a table for it, or lose a frame. */
  ghost predicate Touched(refs: Refs, refs': Refs, r: Ref) {
    && (forall s :: s in refs ==> s in refs' && (s != r ==> refs'[s] == refs[s]))
    && (forall s :: s in refs' && s !in refs ==> s.RHeld? || s == r || (s.RTab? && s.d == r.d))
  }

  ghost function Faulted(refs: Refs, refs': Refs, r: Ref): nat {
    if r !in refs && r in refs' then 1 else 0
  }

  lemma SameButTrans(m0: Mem, refs0: Refs, m1: Mem, refs1: Refs, ram2: Ram, d: FrameNo, di: Index, ti: Index)
    requires SameLooksBut(m0, refs0, m1.ram, d, di, ti) && SameLooks(m1, refs1, ram2) && m1.kdir == m0.kdir
    requires Extends(refs0, refs1)
    ensures SameLooksBut(m0, refs0, ram2, d, di, ti)
    ensures Space(m0.kdir, refs1, d) && di >= 2 ==> Look(ram2, d, di, ti) == Look(m1.ram, d, di, ti)
  {
  }

  /** The page took the store: it was writable, and only the stored word is new. */
  predicate Stored(before: Option<Shown>, after: Option<Shown>, off: Index, v: Word) {
    before.Some? && before.value.writable && after == Some(before.value.(data := before.value.data[off := v]))
  }

  predicate Refuses(page: Option<Shown>) {
    page.None? || !page.value.writable
  }

  /** A fault that can be resolved if there is a frame: a promised page, or a write to a copy-on-write page. */
  ghost predicate Due(refs: Refs, rs: seq<Region>, d: FrameNo, di: Index, ti: Index, write: bool) {
    if RLeaf(d, di, ti) in refs then write && refs[RLeaf(d, di, ti)].cow else Promised(rs, d, Address(di, ti)).Some?
  }

  /** A store that did not happen although the page would take it, or for which a promised page could not even be backed. */
  predicate Short(page: Option<Shown>, mapped: bool) {
    !Refuses(page) || (page.Some? && !mapped)
  }

  /** How many frames an access takes: a copy of a shared page, or a promised page and, if missing, its table. */
  ghost function Need(refs: Refs, rs: seq<Region>, d: FrameNo, di: Index, ti: Index, write: bool): nat {
    var r := RLeaf(d, di, ti);
    if r in refs then if write && !refs[r].rw && refs[r].cow && !Sole(refs, r) then 1 else 0
    else if Promised(rs, d, Address(di, ti)).None? then 0
    else if RTab(d, di) in refs then 1
    else 2
  }

  lemma NothingPaid(refs: Refs, copied: multiset<FrameNo>)
    ensures Paid(refs, copied, refs, copied)
  {
  }

  lemma SameButTwice(m0: Mem, refs0: Refs, m1: Mem, refs1: Refs, ram2: Ram, r: Ref)
    requires r.RLeaf? && m1.kdir == m0.kdir && Touched(refs0, refs1, r)
    requires SameLooksBut(m0, refs0, m1.ram, r.d, r.di, r.ti) && SameLooksBut(m1, refs1, ram2, r.d, r.di, r.ti)
    ensures SameLooksBut(m0, refs0, ram2, r.d, r.di, r.ti)
  {
  }

  /** Getting write permission in place leaves the last owner the last owner. */
  lemma SoleStays(refs: Refs, refs': Refs, r: Ref)
    requires Sole(refs, r) && r in refs' && refs' == refs[r := refs'[r]] && refs'[r].frame == refs[r].frame
    ensures Sole(refs', r)
  {
    assert Owners(refs', refs'[r].frame) == Owners(refs, refs[r].frame);
  }

  lemma CleanTwice(kdir: FrameNo, refs0: Refs, refs1: Refs, refs2: Refs, r: Ref, refused: bool, spare1: bool, spare0: bool)
    requires CleanStep(kdir, refs0, refs1, r, false, spare0) && CleanStep(kdir, refs1, refs2, r, refused, spare1)
    requires Touched(refs0, refs1, r) && Touched(refs1, refs2, r) && ((refs1 == refs0 && spare1 == spare0) || (r in refs1 && !refused))
    ensures CleanStep(kdir, refs0, refs2, r, refused, spare0)
  {
  }

  class Pager {
    const vmm: AddressSpaces
    var regions: seq<Region>
    var served: nat

    ghost predicate Valid()
      reads this, vmm, vmm.pmm, vmm.pmm.bitmap, vmm.pmm.refcount
    {
      vmm.Valid() && Aligned(regions) && ActiveFirst(regions) && Space(vmm.kdir, vmm.refs, vmm.cr3)
    }

    constructor (vmm: AddressSpaces)
      requires vmm.Valid() && Space(vmm.kdir, vmm.refs, vmm.cr3)
      ensures Valid() && this.vmm == vmm && served == 0 && forall i :: 0 <= i < MAX_REGIONS ==> !regions[i].active
    {
      this.vmm := vmm;
      regions := seq(MAX_REGIONS, i => Region(0, 0, 0, ZERO, false));
      served := 0;
    }

    /** Promise [start, end), rounded out to whole pages (in 32 bits: `end` may wrap to 0). Ignored when the table is full. */
    method AddRegion(dir: FrameNo, start: nat, end: nat, flags: Word)
      requires Valid() && start < WRAP && end < WRAP
      modifies this`regions
      ensures Valid()
      ensures forall d: FrameNo, a: nat :: Promised(regions, d, a) ==
                if Promised(old(regions), d, a).Some? then Promised(old(regions), d, a)
                else if !old(regions)[MAX_REGIONS - 1].active && d == dir && RoundDown(start) <= a < RoundDown((end + 0xFFF) % WRAP)
                then Some(flags) else None
      ensures forall d: FrameNo :: PromisesOf(regions, d) ==
                if d == dir && Taken(old(regions)) < MAX_REGIONS then Owe(PromisesOf(old(regions), d), start, end, flags) else PromisesOf(old(regions), d)
      ensures Taken(regions) == if Taken(old(regions)) < MAX_REGIONS then Taken(old(regions)) + 1 else MAX_REGIONS
      ensures forall d: FrameNo, di: Index, ti: Index :: Promised(regions, d, Address(di, ti)) ==
                if Promised(old(regions), d, Address(di, ti)).Some? then Promised(old(regions), d, Address(di, ti))
                else if Taken(old(regions)) < 16 && d == dir && Reaches(start, end, 0x40_0000 * di + 4096 * ti) then Some(flags) else None
    {
      hide PromisesOf, Owe;
      var i := 0;
      while i < MAX_REGIONS
        invariant 0 <= i <= MAX_REGIONS && regions == old(regions)
        invariant forall k :: 0 <= k < i ==> regions[k].active
      {
        if !regions[i].active {
          var r := Region(dir, RoundDown(start), RoundDown((end + 0xFFF) % WRAP), flags, true);
          regions := regions[i := r];
          forall d: FrameNo, a: nat ensures Promised(regions, d, a) ==
              if Promised(old(regions), d, a).Some? then Promised(old(regions), d, a) else if Covers(r, d, a) then Some(flags) else None {
            AddedPromise(old(regions), i, r, d, a);
          }
          assert !old(regions)[MAX_REGIONS - 1].active;
          TakenIs(old(regions), i);
          TakenIs(regions, i + 1);
          PromisesAdded(old(regions), regions, dir, start, end, flags, true);
          AllReached(start, end);
          return;
        }
        i := i + 1;
      }
      TakenIs(regions, MAX_REGIONS);
      PromisesAdded(old(regions), regions, dir, start, end, flags, false);
      AllReached(start, end);
    }

    method Clear()
      requires Valid()
      modifies this`regions, this`served
      ensures Valid() && served == 0 && forall d: FrameNo, a: nat :: Promised(regions, d, a) == None
      ensures Taken(regions) == 0 && forall d: FrameNo :: PromisesOf(regions, d) == map[]
    {
      var i := 0;
      while i < MAX_REGIONS
        invariant 0 <= i <= MAX_REGIONS && Aligned(regions)
        invariant forall k :: 0 <= k < i ==> !regions[k].active
      {
        regions := regions[i := regions[i].(active := false)];
        i := i + 1;
      }
      served := 0;
      forall d: FrameNo, a: nat ensures Promised(regions, d, a) == None {
        PromiseFrom(regions, MAX_REGIONS, d, a);
      }
      TakenIs(regions, 0);
    }

    /** A not-present fault at byte `off` of a page: back it with a frame if it was promised. */
    method DemandHandle(di: Index, ti: Index, off: nat, present: bool) returns (handled: bool)
      requires Valid() && di >= 2 && off < 4096 && (present <==> RLeaf(vmm.cr3, di, ti) in vmm.refs)
      modifies this`served, vmm`ram, vmm`refs, vmm.pmm, vmm.pmm.bitmap, vmm.pmm.refcount
      ensures Valid() && vmm.pmm.total == old(vmm.pmm.total) && Extends(old(vmm.refs), vmm.refs)
      ensures vmm.pmm.denied == old(vmm.pmm.denied) + if !handled && !present && Promised(regions, vmm.cr3, Address(di, ti)).Some? then 1 else 0
      ensures forall r :: r in vmm.refs && r !in old(vmm.refs) ==> r.RHeld? || r == RTab(vmm.cr3, di) || r == RLeaf(vmm.cr3, di, ti)
      ensures forall r :: r in vmm.refs && r !in old(vmm.refs) ==> Owners(vmm.refs, vmm.refs[r].frame) == {r}
      ensures SameLooksBut(old(vmm.M()), old(vmm.refs), vmm.ram, vmm.cr3, di, ti)
      ensures Seen(vmm.ram, regions, vmm.cr3, di, ti) == Seen(old(vmm.ram), regions, vmm.cr3, di, ti)
      ensures handled ==> !present && RLeaf(vmm.cr3, di, ti) in vmm.refs && served == old(served) + 1
      ensures !handled ==> served == old(served) && (RLeaf(vmm.cr3, di, ti) in vmm.refs <==> present)
      ensures !handled && !present && Promised(regions, vmm.cr3, Address(di, ti)).Some? ==> Exhausted(vmm.pmm.State())
      ensures present ==> vmm.refs == old(vmm.refs) && vmm.M() == old(vmm.M())
      ensures !handled && Promised(regions, vmm.cr3, Address(di, ti)).None? ==> vmm.M() == old(vmm.M())
      ensures !present ==> Spent(old(vmm.pmm.State()), vmm.pmm.State(), Need(old(vmm.refs), regions, vmm.cr3, di, ti, false), vmm.pmm.denied > old(vmm.pmm.denied))
      ensures CleanStep(vmm.kdir, old(vmm.refs), vmm.refs, RLeaf(vmm.cr3, di, ti),
                        vmm.pmm.denied > old(vmm.pmm.denied), old(vmm.pmm.used) < old(vmm.pmm.total))
    {
      hide Wf, SameLooksBut, SameLooks, Ok, Owners, CleanStep, Look, Leaf, KernelIn;
      ExhaustedIff(vmm.pmm.State());
      SameIsSameBut(vmm.M(), vmm.refs, vmm.ram, vmm.cr3, di, ti);
      CleanKept(vmm.kdir, vmm.refs, vmm.refs, RLeaf(vmm.cr3, di, ti), vmm.pmm.used < vmm.pmm.total);
      if present {
        return false;
      }
      ghost var a := Address(di, ti);
      Walk(vmm.M(), vmm.refs, vmm.cr3, di, ti);
      var i := 0;
      while i < MAX_REGIONS
        invariant 0 <= i <= MAX_REGIONS
        invariant forall k :: 0 <= k < i ==> !Covers(regions[k], vmm.cr3, a)
        invariant Valid() && vmm.refs == old(vmm.refs) && vmm.M() == old(vmm.M()) && served == old(served) && vmm.pmm.denied == old(vmm.pmm.denied)
      {
        var r := regions[i];
        InWholePage(r, vmm.cr3, di, ti, off);
        if Covers(r, vmm.cr3, di * 0x40_0000 + ti * 4096 + off) {
          PromiseFrom(regions, i, vmm.cr3, a);
          assert regions[i..][0] == r;
          var ok := vmm.MapAlloc(r.dir, di, ti, r.flags);
          CleanMapping(vmm.M(), old(vmm.refs), vmm.refs, RLeaf(vmm.cr3, di, ti), ok, old(vmm.pmm.used) < old(vmm.pmm.total));
          if !ok {
            Walk(vmm.M(), vmm.refs, vmm.cr3, di, ti);
            return false;
          }
          served := served + 1;
          return true;
        }
        i := i + 1;
      }
      PromiseFrom(regions, MAX_REGIONS, vmm.cr3, a);
      return false;
    }

    /** The page-fault half of isr_handler: demand paging first, then copy-on-write. */
    method PageFault(di: Index, ti: Index, off: nat, present: bool, write: bool) returns (handled: bool)
      requires Valid() && di >= 2 && off < 4096 && (present <==> RLeaf(vmm.cr3, di, ti) in vmm.refs)
      modifies this`served, vmm`ram, vmm`refs, vmm`copied, vmm.pmm, vmm.pmm.bitmap, vmm.pmm.refcount
      ensures Valid() && vmm.pmm.total == old(vmm.pmm.total)
      ensures vmm.pmm.denied == old(vmm.pmm.denied) + if !handled && Due(old(vmm.refs), regions, vmm.cr3, di, ti, write) then 1 else 0
      ensures Touched(old(vmm.refs), vmm.refs, RLeaf(vmm.cr3, di, ti))
      ensures Paid(old(vmm.refs), old(vmm.copied), vmm.refs, vmm.copied)
      ensures SameLooksBut(old(vmm.M()), old(vmm.refs), vmm.ram, vmm.cr3, di, ti)
      ensures Seen(vmm.ram, regions, vmm.cr3, di, ti) == Seen(old(vmm.ram), regions, vmm.cr3, di, ti)
      ensures served == old(served) + Faulted(old(vmm.refs), vmm.refs, RLeaf(vmm.cr3, di, ti))
      ensures handled ==> RLeaf(vmm.cr3, di, ti) in vmm.refs && (present ==> write && vmm.refs[RLeaf(vmm.cr3, di, ti)].rw)
      ensures !handled ==> (RLeaf(vmm.cr3, di, ti) in vmm.refs <==> present)
      ensures !handled && !present && Promised(regions, vmm.cr3, Address(di, ti)).Some? ==> Exhausted(vmm.pmm.State())
      ensures present ==> vmm.refs.Keys == old(vmm.refs).Keys && (!handled ==> vmm.refs == old(vmm.refs) && vmm.M() == old(vmm.M()))
      ensures present ==> (handled <==> write && old(vmm.refs)[RLeaf(vmm.cr3, di, ti)].cow
                                        && (Sole(old(vmm.refs), RLeaf(vmm.cr3, di, ti)) || !Exhausted(old(vmm.pmm.State()))))
      ensures Sole(old(vmm.refs), RLeaf(vmm.cr3, di, ti)) ==>
                vmm.pmm.State() == old(vmm.pmm.State()) && vmm.copied == old(vmm.copied) && Sole(vmm.refs, RLeaf(vmm.cr3, di, ti))
      ensures !present && handled ==> Sole(vmm.refs, RLeaf(vmm.cr3, di, ti))
      ensures !present ==> Spent(old(vmm.pmm.State()), vmm.pmm.State(), Need(old(vmm.refs), regions, vmm.cr3, di, ti, write), vmm.pmm.denied > old(vmm.pmm.denied))
      ensures present ==> vmm.pmm.used == old(vmm.pmm.used) + if handled && !Sole(old(vmm.refs), RLeaf(vmm.cr3, di, ti)) then 1 else 0
      ensures CleanStep(vmm.kdir, old(vmm.refs), vmm.refs, RLeaf(vmm.cr3, di, ti),
                        vmm.pmm.denied > old(vmm.pmm.denied), old(vmm.pmm.used) < old(vmm.pmm.total))
    {
      hide Wf, SameLooksBut, SameLooks, Ok, Owners, Paid, CleanStep, Exhausted, Look, Leaf, Spent, KernelIn;
      ghost var m0, refs0, r := vmm.M(), vmm.refs, RLeaf(vmm.cr3, di, ti);
      ExhaustedIff(vmm.pmm.State());
      handled := DemandHandle(di, ti, off, present);
      MappingPays(refs0, vmm.refs, vmm.copied);
      if handled {
        return;
      }
      ghost var m1, refs1, copied1 := vmm.M(), vmm.refs, vmm.copied;
      handled := vmm.CowHandle(di, ti, write);
      if handled {
        CowPays(refs1, copied1, vmm.refs, vmm.copied, r);
        PaidTrans(refs0, copied1, refs1, copied1, vmm.refs, vmm.copied);
      }
      SameButTrans(m0, refs0, m1, refs1, vmm.ram, vmm.cr3, di, ti);
      if present {
        CleanKept(vmm.kdir, refs0, vmm.refs, r, m0.fr.used < m0.fr.total);
        if Sole(refs0, r) {
          SoleStays(refs0, vmm.refs, r);
        }
      }
    }

    /** A load runs until it succeeds or a fault is not resolved; it faults at most once. */
    method Load(di: Index, ti: Index, off: Index) returns (ok: bool, v: Word)
      requires Valid() && di >= 2
      modifies this`served, vmm`ram, vmm`refs, vmm`copied, vmm.pmm, vmm.pmm.bitmap, vmm.pmm.refcount
      ensures Valid() && vmm.pmm.total == old(vmm.pmm.total)
      ensures vmm.pmm.denied == old(vmm.pmm.denied) + if !ok && Seen(vmm.ram, regions, vmm.cr3, di, ti).Some? then 1 else 0
      ensures Touched(old(vmm.refs), vmm.refs, RLeaf(vmm.cr3, di, ti))
      ensures Paid(old(vmm.refs), old(vmm.copied), vmm.refs, vmm.copied)
      ensures SameLooksBut(old(vmm.M()), old(vmm.refs), vmm.ram, vmm.cr3, di, ti)
      ensures Seen(vmm.ram, regions, vmm.cr3, di, ti) == Seen(old(vmm.ram), regions, vmm.cr3, di, ti)
      ensures served == old(served) + Faulted(old(vmm.refs), vmm.refs, RLeaf(vmm.cr3, di, ti))
      ensures ok ==> Seen(vmm.ram, regions, vmm.cr3, di, ti).Some? && v == Seen(vmm.ram, regions, vmm.cr3, di, ti).value.data[off]
      ensures ok ==> RLeaf(vmm.cr3, di, ti) in vmm.refs
      ensures !ok ==> RLeaf(vmm.cr3, di, ti) !in vmm.refs && (Seen(vmm.ram, regions, vmm.cr3, di, ti).None? || Exhausted(vmm.pmm.State()))
      ensures Spent(old(vmm.pmm.State()), vmm.pmm.State(), Need(old(vmm.refs), regions, vmm.cr3, di, ti, false), vmm.pmm.denied > old(vmm.pmm.denied))
      ensures CleanStep(vmm.kdir, old(vmm.refs), vmm.refs, RLeaf(vmm.cr3, di, ti),
                        vmm.pmm.denied > old(vmm.pmm.denied), old(vmm.pmm.used) < old(vmm.pmm.total))
    {
      hide Wf, SameLooksBut, SameLooks, Ok, Owners, Paid, Extends, CleanStep, Exhausted, Promised, Aligned, ActiveFirst, KernelIn;
      CleanKept(vmm.kdir, vmm.refs, vmm.refs, RLeaf(vmm.cr3, di, ti), vmm.pmm.used < vmm.pmm.total);
      ok, v := false, ZERO;
      ExhaustedIff(vmm.pmm.State());
      Walk(vmm.M(), vmm.refs, vmm.cr3, di, ti);
      SameIsSameBut(vmm.M(), vmm.refs, vmm.ram, vmm.cr3, di, ti);
      NothingPaid(vmm.refs, vmm.copied);
      var e := Entry(di, ti);
      if !e.present {
        var handled := PageFault(di, ti, 4 * off, false, false);
        Walk(vmm.M(), vmm.refs, vmm.cr3, di, ti);
        if !handled {
          return;
        }
        e := Entry(di, ti);
      }
      return true, vmm.ram[e.frame][off];
    }

    /** The hardware walk of the active directory. */
    function Entry(di: Index, ti: Index): Word
      reads this, vmm
    {
      Leaf(vmm.ram, vmm.cr3, di, ti)
    }

    /** A store to a mapped page: one write fault at most. With CR0.WP set the kernel's stores obey PF_RW too. */
    method StoreMapped(di: Index, ti: Index, off: Index, v: Word) returns (ok: bool)
      requires Valid() && di >= 2 && RLeaf(vmm.cr3, di, ti) in vmm.refs
      modifies this`served, vmm`ram, vmm`refs, vmm`copied, vmm.pmm, vmm.pmm.bitmap, vmm.pmm.refcount
      ensures Valid() && vmm.pmm.total == old(vmm.pmm.total) && served == old(served)
      ensures vmm.pmm.denied == old(vmm.pmm.denied) + if !ok && old(vmm.refs)[RLeaf(vmm.cr3, di, ti)].cow then 1 else 0
      ensures Touched(old(vmm.refs), vmm.refs, RLeaf(vmm.cr3, di, ti)) && vmm.refs.Keys == old(vmm.refs).Keys
      ensures Paid(old(vmm.refs), old(vmm.copied), vmm.refs, vmm.copied)
      ensures SameLooksBut(old(vmm.M()), old(vmm.refs), vmm.ram, vmm.cr3, di, ti)
      ensures ok ==> Stored(Seen(old(vmm.ram), regions, vmm.cr3, di, ti), Seen(vmm.ram, regions, vmm.cr3, di, ti), off, v)
      ensures ok ==> vmm.refs[RLeaf(vmm.cr3, di, ti)].rw
      ensures !ok ==> Seen(vmm.ram, regions, vmm.cr3, di, ti) == Seen(old(vmm.ram), regions, vmm.cr3, di, ti)
      ensures !ok ==> vmm.pmm.State() == old(vmm.pmm.State())
      ensures Spent(old(vmm.pmm.State()), vmm.pmm.State(), Need(old(vmm.refs), regions, vmm.cr3, di, ti, true), vmm.pmm.denied > old(vmm.pmm.denied))
      ensures !ok <==> if old(vmm.refs)[RLeaf(vmm.cr3, di, ti)].cow
                       then !old(vmm.refs)[RLeaf(vmm.cr3, di, ti)].rw && !Sole(old(vmm.refs), RLeaf(vmm.cr3, di, ti)) && Exhausted(old(vmm.pmm.State()))
                       else Refuses(Seen(old(vmm.ram), regions, vmm.cr3, di, ti))
      ensures Sole(old(vmm.refs), RLeaf(vmm.cr3, di, ti)) ==> vmm.pmm.State() == old(vmm.pmm.State()) && vmm.copied == old(vmm.copied)
    {
      hide Wf, SameLooksBut, SameLooks, Ok, Owners, Paid, Exhausted, Promised, Aligned, ActiveFirst, CleanStep, Sole, Look, KernelIn;
      ghost var m0, refs0, copied0, r := vmm.M(), vmm.refs, vmm.copied, RLeaf(vmm.cr3, di, ti);
      Walk(m0, refs0, vmm.cr3, di, ti);
      ExhaustedIff(vmm.pmm.State());
      NothingPaid(refs0, copied0);
      var e := Entry(di, ti);
      if !(e.rw && vmm.ram[vmm.cr3][di].rw) {
        var handled := PageFault(di, ti, 4 * off, true, true);
        if !handled {
          return false;
        }
        Walk(vmm.M(), vmm.refs, vmm.cr3, di, ti);
        e := Entry(di, ti);
      }
      ghost var m1, refs1 := vmm.M(), vmm.refs;
      vmm.ram := SetEntry(vmm.ram, e.frame, off, v);
      StoreWord(m1, refs1, vmm.cr3, di, ti, off, v, vmm.M());
      LowEntry(m1, refs1, r, off, v, refs1, vmm.low);
      SameButTwice(m0, refs0, m1, refs1, vmm.ram, r);
      return true;
    }

    /** A store runs until it succeeds or a fault is not resolved: it faults once for a missing page, once for a shared one. */
    method Store(di: Index, ti: Index, off: Index, v: Word) returns (ok: bool)
      requires Valid() && di >= 2
      modifies this`served, vmm`ram, vmm`refs, vmm`copied, vmm.pmm, vmm.pmm.bitmap, vmm.pmm.refcount
      ensures Valid() && vmm.pmm.total == old(vmm.pmm.total)
      ensures vmm.pmm.denied == old(vmm.pmm.denied) + if !ok && Short(Seen(old(vmm.ram), regions, vmm.cr3, di, ti), RLeaf(vmm.cr3, di, ti) in vmm.refs) then 1 else 0
      ensures Touched(old(vmm.refs), vmm.refs, RLeaf(vmm.cr3, di, ti))
      ensures Paid(old(vmm.refs), old(vmm.copied), vmm.refs, vmm.copied)
      ensures SameLooksBut(old(vmm.M()), old(vmm.refs), vmm.ram, vmm.cr3, di, ti)
      ensures served == old(served) + Faulted(old(vmm.refs), vmm.refs, RLeaf(vmm.cr3, di, ti))
      ensures ok ==> Stored(Seen(old(vmm.ram), regions, vmm.cr3, di, ti), Seen(vmm.ram, regions, vmm.cr3, di, ti), off, v)
      ensures ok ==> RLeaf(vmm.cr3, di, ti) in vmm.refs && vmm.refs[RLeaf(vmm.cr3, di, ti)].rw
      ensures !ok ==> Seen(vmm.ram, regions, vmm.cr3, di, ti) == Seen(old(vmm.ram), regions, vmm.cr3, di, ti)
      ensures !ok ==> Refuses(Seen(vmm.ram, regions, vmm.cr3, di, ti)) || Exhausted(vmm.pmm.State())
      ensures !ok && RLeaf(vmm.cr3, di, ti) !in vmm.refs ==> Seen(vmm.ram, regions, vmm.cr3, di, ti).None? || Exhausted(vmm.pmm.State())
      ensures Sole(old(vmm.refs), RLeaf(vmm.cr3, di, ti)) ==>
                vmm.pmm.State() == old(vmm.pmm.State()) && vmm.copied == old(vmm.copied) && (ok <==> !Refuses(Seen(old(vmm.ram), regions, vmm.cr3, di, ti)))
      ensures Spent(old(vmm.pmm.State()), vmm.pmm.State(), Need(old(vmm.refs), regions, vmm.cr3, di, ti, true), vmm.pmm.denied > old(vmm.pmm.denied))
      ensures CleanStep(vmm.kdir, old(vmm.refs), vmm.refs, RLeaf(vmm.cr3, di, ti),
                        vmm.pmm.denied > old(vmm.pmm.denied), old(vmm.pmm.used) < old(vmm.pmm.total))
      ensures vmm.pmm.denied > old(vmm.pmm.denied) ==> (RLeaf(vmm.cr3, di, ti) in vmm.refs <==> RLeaf(vmm.cr3, di, ti) in old(vmm.refs))
    {
      hide Wf, SameLooksBut, SameLooks, Ok, Owners, Paid, Exhausted, Promised, Aligned, ActiveFirst, CleanStep, KernelIn;
      ghost var m0, refs0, copied0, r := vmm.M(), vmm.refs, vmm.copied, RLeaf(vmm.cr3, di, ti);
      Walk(m0, refs0, vmm.cr3, di, ti);
      ExhaustedIff(vmm.pmm.State());
      SameIsSameBut(m0, refs0, vmm.ram, vmm.cr3, di, ti);
      NothingPaid(refs0, copied0);
      CleanKept(vmm.kdir, refs0, refs0, r, m0.fr.used < m0.fr.total);
      if !Entry(di, ti).present {
        var handled := PageFault(di, ti, 4 * off, false, true);
        if !handled {
          return false;
        }
      }
      ghost var m1, refs1, copied1 := vmm.M(), vmm.refs, vmm.copied;
      Walk(m1, refs1, vmm.cr3, di, ti);
      ok := StoreMapped(di, ti, off, v);
      PaidTrans(refs0, copied0, refs1, copied1, vmm.refs, vmm.copied);
      SameButTwice(m0, refs0, m1, refs1, vmm.ram, r);
      CleanKept(vmm.kdir, refs1, vmm.refs, r, m1.fr.used < m1.fr.total);
      CleanTwice(vmm.kdir, refs0, refs1, vmm.refs, r, vmm.pmm.denied > old(vmm.pmm.denied), m1.fr.used < m1.fr.total, m0.fr.used < m0.fr.total);
    }
  }

  // ---- demand paging is transparent -----------------------------------------

  type View = map<(Index, Index), Shown>

  /** Everything the active address space can reach, promises included. */
  ghost function ViewOf(ram: Ram, rs: seq<Region>, d: FrameNo): View {
    map di: nat, ti: nat | 2 <= di < PAGE_WORDS && 0 <= ti < PAGE_WORDS && Seen(ram, rs, d, di, ti).Some? :: (di, ti) := Seen(ram, rs, d, di, ti).value
  }

  datatype Access = Read(di: Index, ti: Index, off: Index) | Write(di: Index, ti: Index, off: Index, v: Word)

  datatype Outcome = Got(v: Word) | Done | Fault

  /** An access to memory that is all there: no faults to resolve, nothing to allocate. */
  function Plain(view: View, a: Access): (r: (View, Outcome)) {
    var p := (a.di, a.ti);
    if p !in view then (view, Fault)
    else if a.Read? then (view, Got(view[p].data[a.off]))
    else if !view[p].writable then (view, Fault)
    else (view[p := view[p].(data := view[p].data[a.off := a.v])], Done)
  }

  function PlainRun(view: View, as_: seq<Access>): (View, seq<Outcome>) {
    if as_ == [] then (view, [])
    else
      var (v1, os) := PlainRun(view, as_[..|as_| - 1]);
      var (v2, o) := Plain(v1, as_[|as_| - 1]);
      (v2, os + [o])
  }

  /** The promised pages among those accessed that had no frame in `refs`. */
  ghost function FirstTouches(view: View, refs: Refs, d: FrameNo, as_: seq<Access>): set<Ref> {
    set i | 0 <= i < |as_| && (as_[i].di, as_[i].ti) in view && RLeaf(d, as_[i].di, as_[i].ti) !in refs :: RLeaf(d, as_[i].di, as_[i].ti)
  }

  lemma {:induction false} PlainRunKeepsPages(view: View, as_: seq<Access>)
    ensures PlainRun(view, as_).0.Keys == view.Keys
  {
    if as_ != [] {
      PlainRunKeepsPages(view, as_[..|as_| - 1]);
    }
  }

  lemma ViewStep(m: Mem, refs: Refs, ram: Ram, rs: seq<Region>, d: FrameNo, di: Index, ti: Index)
    requires SameLooksBut(m, refs, ram, d, di, ti) && Space(m.kdir, refs, d) && di >= 2
    ensures Seen(ram, rs, d, di, ti) == Seen(m.ram, rs, d, di, ti) ==> ViewOf(ram, rs, d) == ViewOf(m.ram, rs, d)
    ensures Seen(ram, rs, d, di, ti).Some? ==> ViewOf(ram, rs, d) == ViewOf(m.ram, rs, d)[(di, ti) := Seen(ram, rs, d, di, ti).value]
    ensures Seen(ram, rs, d, di, ti).None? ==> ViewOf(ram, rs, d) == ViewOf(m.ram, rs, d) - {(di, ti)}
  {
    hide Seen;
    forall i: nat, j: nat | 2 <= i < PAGE_WORDS && 0 <= j < PAGE_WORDS && (i, j) != (di, ti)
      ensures Seen(ram, rs, d, i, j) == Seen(m.ram, rs, d, i, j) {
      SeenElsewhere(m, refs, ram, rs, d, di, ti, i, j);
    }
    hide SameLooksBut;
    ViewsDifferAt(m.ram, ram, rs, d, di, ti);
  }

  lemma SeenElsewhere(m: Mem, refs: Refs, ram: Ram, rs: seq<Region>, d: FrameNo, di: Index, ti: Index, i: Index, j: Index)
    requires SameLooksBut(m, refs, ram, d, di, ti) && Space(m.kdir, refs, d) && i >= 2 && (i, j) != (di, ti)
    ensures Seen(ram, rs, d, i, j) == Seen(m.ram, rs, d, i, j)
  {
    assert Look(ram, d, i, j) == Look(m.ram, d, i, j);
  }

  lemma ViewsDifferAt(ram: Ram, ram': Ram, rs: seq<Region>, d: FrameNo, di: Index, ti: Index)
    requires di >= 2
    requires forall i: nat, j: nat :: 2 <= i < PAGE_WORDS && 0 <= j < PAGE_WORDS && (i, j) != (di, ti) ==>
               Seen(ram', rs, d, i, j) == Seen(ram, rs, d, i, j)
    ensures Seen(ram', rs, d, di, ti) == Seen(ram, rs, d, di, ti) ==> ViewOf(ram', rs, d) == ViewOf(ram, rs, d)
    ensures Seen(ram', rs, d, di, ti).Some? ==> ViewOf(ram', rs, d) == ViewOf(ram, rs, d)[(di, ti) := Seen(ram', rs, d, di, ti).value]
    ensures Seen(ram', rs, d, di, ti).None? ==> ViewOf(ram', rs, d) == ViewOf(ram, rs, d) - {(di, ti)}
  {
    hide Seen;
    var v, v' := ViewOf(ram, rs, d), ViewOf(ram', rs, d);
    if Seen(ram', rs, d, di, ti) == Seen(ram, rs, d, di, ti) {
      assert v' == v;
    }
    if Seen(ram', rs, d, di, ti).Some? {
      assert v' == v[(di, ti) := Seen(ram', rs, d, di, ti).value];
    } else {
      assert v' == v - {(di, ti)};
    }
  }

  lemma OneMoreTouch(view: View, refs: Refs, d: FrameNo, as_: seq<Access>, k: nat)
    requires k < |as_|
    ensures FirstTouches(view, refs, d, as_[..k + 1]) == FirstTouches(view, refs, d, as_[..k]) +
            if (as_[k].di, as_[k].ti) in view && RLeaf(d, as_[k].di, as_[k].ti) !in refs then {RLeaf(d, as_[k].di, as_[k].ti)} else {}
  {
    var s, t := as_[..k], as_[..k + 1];
    assert forall i :: 0 <= i < k ==> t[i] == s[i];
    assert t[k] == as_[k];
  }

  /** One access; `starved` tells a failure for want of a frame from a fault the program deserves. */
  method Perform(p: Pager, a: Access) returns (o: Outcome, starved: bool)
    requires p.Valid() && a.di >= 2
    modifies p`served, p.vmm`ram, p.vmm`refs, p.vmm`copied, p.vmm.pmm, p.vmm.pmm.bitmap, p.vmm.pmm.refcount
    ensures p.Valid()
    ensures Touched(old(p.vmm.refs), p.vmm.refs, RLeaf(p.vmm.cr3, a.di, a.ti))
    ensures p.served == old(p.served) + Faulted(old(p.vmm.refs), p.vmm.refs, RLeaf(p.vmm.cr3, a.di, a.ti))
    ensures SameLooksBut(old(p.vmm.M()), old(p.vmm.refs), p.vmm.ram, p.vmm.cr3, a.di, a.ti)
    ensures Paid(old(p.vmm.refs), old(p.vmm.copied), p.vmm.refs, p.vmm.copied)
    ensures p.vmm.pmm.denied == old(p.vmm.pmm.denied) + if starved then 1 else 0
    ensures Spent(old(p.vmm.pmm.State()), p.vmm.pmm.State(), Need(old(p.vmm.refs), p.regions, p.vmm.cr3, a.di, a.ti, a.Write?), starved)
    ensures starved ==> Exhausted(p.vmm.pmm.State()) && o == Fault
    ensures starved ==> ViewOf(p.vmm.ram, p.regions, p.vmm.cr3) == ViewOf(old(p.vmm.ram), p.regions, p.vmm.cr3)
    ensures !starved ==> (ViewOf(p.vmm.ram, p.regions, p.vmm.cr3), o) == Plain(ViewOf(old(p.vmm.ram), p.regions, p.vmm.cr3), a)
    ensures !starved ==> (RLeaf(p.vmm.cr3, a.di, a.ti) in p.vmm.refs <==> (a.di, a.ti) in ViewOf(old(p.vmm.ram), p.regions, p.vmm.cr3))
    ensures Sole(old(p.vmm.refs), RLeaf(p.vmm.cr3, a.di, a.ti)) ==> !starved
    ensures starved ==> (RLeaf(p.vmm.cr3, a.di, a.ti) in p.vmm.refs <==> RLeaf(p.vmm.cr3, a.di, a.ti) in old(p.vmm.refs))
    ensures CleanStep(p.vmm.kdir, old(p.vmm.refs), p.vmm.refs, RLeaf(p.vmm.cr3, a.di, a.ti), starved, old(p.vmm.pmm.used) < old(p.vmm.pmm.total))
  {
    hide Wf, SameLooksBut, SameLooks, Ok, Owners, Paid, Exhausted, Promised, Aligned, ActiveFirst, Look, CleanStep, Leaf, Need, Faulted, KernelIn;
    ghost var m0, refs0 := p.vmm.M(), p.vmm.refs;
    var d := p.vmm.cr3;
    var seen := Seen(p.vmm.ram, p.regions, d, a.di, a.ti);
    if a.Read? {
      var ok, v := p.Load(a.di, a.ti, a.off);
      o := if ok then Got(v) else Fault;
      starved := !ok && seen.Some?;
    } else {
      var ok := p.Store(a.di, a.ti, a.off, a.v);
      o := if ok then Done else Fault;
      starved := !ok && Short(seen, p.Entry(a.di, a.ti).present);
      Walk(p.vmm.M(), p.vmm.refs, d, a.di, a.ti);
    }
    ViewStep(m0, refs0, p.vmm.ram, p.regions, d, a.di, a.ti);
    Walk(p.vmm.M(), p.vmm.refs, d, a.di, a.ti);
  }

  /** While frames last, accesses behave as if every promised page had been there from the start, and each promised page costs one fault. */
  method Run(p: Pager, as_: seq<Access>) returns (os: seq<Outcome>, starved: bool)
    requires p.Valid() && forall i :: 0 <= i < |as_| ==> as_[i].di >= 2
    modifies p`served, p.vmm`ram, p.vmm`refs, p.vmm`copied, p.vmm.pmm, p.vmm.pmm.bitmap, p.vmm.pmm.refcount
    ensures p.Valid() && p.vmm.pmm.denied == old(p.vmm.pmm.denied) + if starved then 1 else 0
    ensures starved ==> Exhausted(p.vmm.pmm.State())
    ensures !starved ==> (ViewOf(p.vmm.ram, p.regions, p.vmm.cr3), os) == PlainRun(ViewOf(old(p.vmm.ram), p.regions, p.vmm.cr3), as_)
    ensures !starved ==> p.served == old(p.served) + |FirstTouches(ViewOf(old(p.vmm.ram), p.regions, p.vmm.cr3), old(p.vmm.refs), p.vmm.cr3, as_)|
  {
    hide Wf, Ok, Seen, ViewOf, Exhausted, Plain, Aligned, ActiveFirst, KernelIn;
    os := [];
    ghost var refs0, d := p.vmm.refs, p.vmm.cr3;
    ghost var view0 := ViewOf(p.vmm.ram, p.regions, d);
    assert FirstTouches(view0, refs0, d, as_[..0]) == {};
    hide FirstTouches;
    var i := 0;
    while i < |as_|
      invariant 0 <= i <= |as_| && p.Valid() && p.vmm.pmm.denied == old(p.vmm.pmm.denied)
      invariant (ViewOf(p.vmm.ram, p.regions, d), os) == PlainRun(view0, as_[..i])
      invariant p.served == old(p.served) + |FirstTouches(view0, refs0, d, as_[..i])|
      invariant forall di: Index, ti: Index :: RLeaf(d, di, ti) in p.vmm.refs <==>
                  RLeaf(d, di, ti) in refs0 || RLeaf(d, di, ti) in FirstTouches(view0, refs0, d, as_[..i])
    {
      PlainRunKeepsPages(view0, as_[..i]);
      OneMoreTouch(view0, refs0, d, as_, i);
      assert as_[..i + 1][..i] == as_[..i];
      var o;
      o, starved := Perform(p, as_[i]);
      if starved {
        return;
      }
      os := os + [o];
      i := i + 1;
    }
    assert as_[..i] == as_;
    starved := false;
  }

  lemma SpaceStays(m0: Mem, refs0: Refs, m: Mem, refs: Refs, src: FrameNo, dst: FrameNo, cow: bool)
    requires Wf(m0, refs0) && Space(m0.kdir, refs0, src)
    ensures src != 0
    ensures Cloned(m0, refs0, m, refs, src, dst, cow) || CloneRefused(m0, refs0, m, refs, src, cow) ==> Space(m0.kdir, refs, src)
  {
    if RDir(src) in refs0 {
      SpaceIsManaged(m0, refs0, src);
      assert RDir(src) in refs0.Keys;
    }
  }

  /**
   A copy-on-write clone of the active address space, and then a store to a page that was writable before.
   If the clone was refused, the store goes through and the page is writable again, with every count, bit
   and used_frames as before the clone: nothing is allocated.
   */
  method CloneThenStore(p: Pager, di: Index, ti: Index, off: Index, v: Word) returns (dst: nat, ok: bool)
    requires p.Valid() && di >= 2 && |DirRefs(p.vmm.refs)| < MAX_REFS - 2
    requires RLeaf(p.vmm.cr3, di, ti) in p.vmm.refs && p.vmm.refs[RLeaf(p.vmm.cr3, di, ti)].rw
    modifies p`served, p.vmm`ram, p.vmm`refs, p.vmm`copied, p.vmm.pmm, p.vmm.pmm.bitmap, p.vmm.pmm.refcount
    ensures p.Valid()
    ensures dst == 0 ==> ok && RLeaf(p.vmm.cr3, di, ti) in p.vmm.refs && p.vmm.refs[RLeaf(p.vmm.cr3, di, ti)].rw
    ensures dst == 0 ==> Stored(Look(old(p.vmm.ram), p.vmm.cr3, di, ti), Look(p.vmm.ram, p.vmm.cr3, di, ti), off, v)
    ensures dst == 0 ==>
              var s, s' := old(p.vmm.pmm.State()), p.vmm.pmm.State(); s'.rc == s.rc && s'.bits == s.bits && s'.used == s.used
    ensures dst == 0 ==> p.vmm.copied == old(p.vmm.copied)
  {
    hide Wf, Ok, SameLooks, SameLooksBut, Sole, Cloned, Promised, Aligned, ActiveFirst, Exhausted, CleanStep, Paid, Touched, KernelIn;
    ghost var m0, refs0, r := p.vmm.M(), p.vmm.refs, RLeaf(p.vmm.cr3, di, ti);
    Walk(m0, refs0, p.vmm.cr3, di, ti);
    SpaceStays(m0, refs0, m0, refs0, p.vmm.cr3, 0, true);
    dst := p.vmm.Clone(p.vmm.cr3, true);
    SpaceStays(m0, refs0, p.vmm.M(), p.vmm.refs, p.vmm.cr3, dst, true);
    if dst != 0 {
      return dst, false;
    }
    RefusedCloneCostsNoCopy(m0, refs0, p.vmm.M(), p.vmm.refs, p.vmm.cr3, r);
    SameLooksAt(m0, refs0, p.vmm.ram, p.vmm.cr3, di, ti);
    Walk(p.vmm.M(), p.vmm.refs, p.vmm.cr3, di, ti);
    ok := p.Store(di, ti, off, v);
    Walk(p.vmm.M(), p.vmm.refs, p.vmm.cr3, di, ti);
  }
}
