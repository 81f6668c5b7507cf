/**
 The virtual memory manager (kernel/vmm.c): address spaces built from frames of
 the pool, edited in place. The ghost field `refs` lists who owns each frame.
 */
module Vmm {
  import opened Words
  import opened Pmm
  import opened Ownership

  /** No frame is free. */
  predicate Exhausted(s: Frames) {
    forall i :: 0 <= i < |s.bits| ==> s.bits[i]
  }

  lemma ExhaustedIff(s: Frames)
    requires Ok(s)
    ensures s.used <= s.total && (Exhausted(s) <==> s.used == s.total)
  {
    AllSetCountsAll(s.bits);
  }

  lemma ExhaustedMeans(s: Frames)
    ensures Exhausted(s) <==> forall i :: 0 <= i < |s.bits| ==> s.bits[i]
  {
  }

  /** A call that needed that many frames: refused exactly when they were not there, and then none is left. */
  ghost predicate Spent(s: Frames, s': Frames, need: nat, refused: bool) {
    && s'.total == s.total
    && (refused <==> s.used + need > s.total)
    && s'.used == if refused then s.total else s.used + need
  }

  /** The frame f has no owner but the caller that lost it. */
  ghost predicate Lost(refs: Refs, refs': Refs, f: FrameNo) {
    RHeld(f) !in refs && refs' == refs[RHeld(f) := ZERO.(frame := f)]
  }

  /** No frame is lost and the kernel has no page table of its own: what teardown can never give back. */
  ghost predicate Clean(kdir: FrameNo, refs: Refs) {
    forall r :: r in refs ==> !r.RHeld? && !(r.RTab? && r.d == kdir)
  }

  /** A call that backed page `r` of the kernel, or was refused a frame while one was still free. */
  ghost predicate Soils(kdir: FrameNo, refs: Refs, refs': Refs, r: Ref, refused: bool, spare: bool) {
    (r.RLeaf? && r.d == kdir && r !in refs && r in refs') || (refused && spare)
  }

  ghost predicate CleanStep(kdir: FrameNo, refs: Refs, refs': Refs, r: Ref, refused: bool, spare: bool) {
    Clean(kdir, refs') <==> Clean(kdir, refs) && !Soils(kdir, refs, refs', r, refused, spare)
  }

  lemma CleanKept(kdir: FrameNo, refs: Refs, refs': Refs, r: Ref, spare: bool)
    requires refs'.Keys == refs.Keys
    ensures CleanStep(kdir, refs, refs', r, false, spare) && CleanStep(kdir, refs, refs', r, true, false)
  {
    assert forall s :: s in refs' <==> s in refs.Keys;
  }

  /** Mapping a page: the kernel's stays a table for good, and so does a frame taken before the table could not be. */
  lemma CleanMapping(m: Mem, refs: Refs, refs': Refs, r: Ref, ok: bool, spare: bool)
    requires Wf(m, refs') && r.RLeaf? && r !in refs && (r in refs' <==> ok) && Extends(refs, refs')
    requires ok ==> forall s :: s in refs' && s !in refs ==> s == RTab(r.d, r.di) || s == r
    requires !ok ==> if spare then exists f :: Lost(refs, refs', f) else refs' == refs
    ensures CleanStep(m.kdir, refs, refs', r, !ok, spare)
  {
    if ok {
      assert r == RLeaf(r.d, r.di, r.ti) && RTab(r.d, r.di) in refs';
      assert forall s :: s in refs' && s !in refs && s.RTab? ==> s.d == r.d;
    } else if spare {
      var f :| Lost(refs, refs', f);
      assert RHeld(f) in refs';
    }
  }

  /** Everything in `refs` is still in `refs'`, word for word. */
  ghost predicate Extends(refs: Refs, refs': Refs) {
    forall r :: r in refs ==> r in refs' && refs'[r] == refs[r]
  }

  /** A held frame entered at an unmapped page, through a table that may itself be new. */
  ghost predicate Entered(m: Mem, refs: Refs, m': Mem, refs': Refs, d: FrameNo, di: Index, ti: Index, w: Word) {
    var held, leaf := RHeld(w.frame), RLeaf(d, di, ti);
    && Wf(m', refs') && Extends(refs - {held}, refs') && held !in refs' && leaf in refs' && refs'[leaf] == w
    && (forall r :: r in refs' && r !in refs ==> (r == RTab(d, di) || r == leaf) && Owners(refs', refs'[r].frame) == {r})
    && SameLooksBut(m, refs, m'.ram, d, di, ti) && Look(m'.ram, d, di, ti) == Some(ShownBy(m.ram, w))
  }

  lemma Enter(m: Mem, refs: Refs, m1: Mem, refs1: Refs, d: FrameNo, di: Index, ti: Index, w: Word, m': Mem, refs': Refs)
    requires Wf(m, refs) && Wf(m1, refs1) && m1.kdir == m.kdir && SameLooks(m, refs, m1.ram)
    requires Space(m.kdir, refs, d) && RLeaf(d, di, ti) !in refs && RHeld(w.frame) in refs && w.present
    requires RTab(d, di) in refs1 && (refs1 == refs || (RTab(d, di) !in refs && refs1 == refs[RTab(d, di) := refs1[RTab(d, di)]]))
    requires forall f: FrameNo :: f != d && f != refs1[RTab(d, di)].frame ==> m1.ram[f] == m.ram[f]
    requires m' == m1.(ram := SetEntry(m1.ram, refs1[RTab(d, di)].frame, ti, w))
    requires refs' == (refs1 - {RHeld(w.frame)})[RLeaf(d, di, ti) := w]
    ensures Entered(m, refs, m', refs', d, di, ti, w)
  {
    hide Wf, SameLooks, SameLooksBut, Ok, Owners;
    HeldIsNoSpace(m, refs, w.frame, d);
    HeldIsNoTab(m1, refs1, w.frame, d, di);
    LinkLeaf(m1, refs1, d, di, ti, w, m', refs');
    SameLooksButTrans(m, refs, m1, refs1, m'.ram, d, di, ti);
    SoleOwner(m', refs', RTab(d, di));
  }

  lemma EmptyPool(m: Mem)
    requires Ok(m.fr) && (forall i :: 0 <= i < m.fr.total ==> !m.fr.bits[i]) && 0 < m.kdir < BASE
    requires forall di: Index :: di >= 2 ==> !m.ram[m.kdir][di].present
    ensures Wf(m, map[])
  {
    assert forall f: FrameNo :: Owners(map[], f) == {};
  }

  /** A free frame is taken, filled and made the directory of an empty address space. */
  lemma NewDir(m: Mem, refs: Refs, f: FrameNo, m': Mem, refs': Refs)
    requires Wf(m, refs) && Managed(m.fr, f) && !m.fr.bits[f - BASE] && Ok(Take(m.fr, f))
    requires m' == Mem(Take(m.fr, f), m.ram[f := m'.ram[f]], m.kdir) && refs' == refs[RDir(f) := ZERO.(frame := f)]
    requires forall di: Index :: di >= 2 ==> !m'.ram[f][di].present
    ensures Wf(m', refs') && !Space(m.kdir, refs, f) && SameLooks(m, refs, m'.ram)
    ensures forall di: Index, ti: Index :: di >= 2 ==> Look(m'.ram, f, di, ti) == None
  {
    var m1, refs1 := m.(fr := m'.fr), refs[RHeld(f) := ZERO.(frame := f)];
    Hold(m, refs, f, m1, refs1);
    Alone(refs1, RHeld(f));
    Fill(m1, refs1, f, m'.ram[f], m');
    assert refs' == (refs1 - {RHeld(f)})[RDir(f) := ZERO.(frame := f)];
    LinkDir(m', refs1, f, refs');
    SameSpaces(m, refs, refs1, m'.ram);
  }

  /** A free frame is taken and filled, and stays in the kernel's hands. */
  lemma NewHeld(m: Mem, refs: Refs, f: FrameNo, m': Mem, refs': Refs)
    requires Wf(m, refs) && Managed(m.fr, f) && !m.fr.bits[f - BASE] && Ok(Take(m.fr, f))
    requires m' == Mem(Take(m.fr, f), m.ram[f := m'.ram[f]], m.kdir) && refs' == refs[RHeld(f) := ZERO.(frame := f)]
    ensures Wf(m', refs') && RHeld(f) !in refs && SameLooks(m, refs, m'.ram)
  {
    var m1 := m.(fr := m'.fr);
    Hold(m, refs, f, m1, refs');
    Alone(refs', RHeld(f));
    Fill(m1, refs', f, m'.ram[f], m');
    SameSpaces(m, refs, refs', m'.ram);
  }

  /** A free frame is taken, cleared and entered as a table. */
  lemma NewTab(m: Mem, refs: Refs, d: FrameNo, di: Index, w: Word, m': Mem, refs': Refs)
    requires Wf(m, refs) && Managed(m.fr, w.frame) && !m.fr.bits[w.frame - BASE] && Ok(Take(m.fr, w.frame))
    requires Space(m.kdir, refs, d) && di >= 2 && !m.ram[d][di].present && w.present && w.rw
    requires m' == Mem(Take(m.fr, w.frame), SetEntry(m.ram[w.frame := ZeroPage()], d, di, w), m.kdir)
    requires refs' == refs[RTab(d, di) := w]
    ensures Wf(m', refs') && SameLooks(m, refs, m'.ram)
  {
    hide Wf, SameLooks;
    var f := w.frame;
    var m1, refs1 := Mem(m'.fr, m.ram[f := ZeroPage()], m.kdir), refs[RHeld(f) := ZERO.(frame := f)];
    NewHeld(m, refs, f, m1, refs1);
    HeldIsNoSpace(m1, refs1, f, d);
    assert refs' == (refs1 - {RHeld(f)})[RTab(d, di) := w];
    LinkTab(m1, refs1, d, di, w, m', refs');
    SameSpaces(m1, refs, refs1, m'.ram);
    SameLooksTrans(m, refs, m1, refs, m'.ram);
  }

  /** A free frame is taken, filled and entered as a leaf. */
  lemma NewLeaf(m: Mem, refs: Refs, d: FrameNo, di: Index, ti: Index, data: Page, w: Word, m': Mem, refs': Refs)
    requires Wf(m, refs) && Managed(m.fr, w.frame) && !m.fr.bits[w.frame - BASE] && Ok(Take(m.fr, w.frame))
    requires RTab(d, di) in refs && RLeaf(d, di, ti) !in refs && w.present
    requires m' == Mem(Take(m.fr, w.frame), SetEntry(m.ram[w.frame := data], refs[RTab(d, di)].frame, ti, w), m.kdir)
    requires refs' == refs[RLeaf(d, di, ti) := w]
    ensures Wf(m', refs') && SameLooksBut(m, refs, m'.ram, d, di, ti)
    ensures Look(m'.ram, d, di, ti) == Some(Shown(data, w.rw || w.cow, w.user, w.low, w.high))
  {
    hide Wf, SameLooks, SameLooksBut;
    var f := w.frame;
    var m1, refs1 := Mem(m'.fr, m.ram[f := data], m.kdir), refs[RHeld(f) := ZERO.(frame := f)];
    NewHeld(m, refs, f, m1, refs1);
    assert refs' == (refs1 - {RHeld(f)})[RLeaf(d, di, ti) := w];
    LinkLeaf(m1, refs1, d, di, ti, w, m', refs');
    SameLooksButTrans(m, refs, m1, refs1, m'.ram, d, di, ti);
  }

  /** A writer of a shared frame gets a fresh frame with the same bytes; its share of the old one is dropped. */
  lemma SplitLeaf(m: Mem, refs: Refs, d: FrameNo, di: Index, ti: Index, w: Word, m': Mem, refs': Refs)
    requires Ok(m.fr) && Wf(m, refs) && Managed(m.fr, w.frame) && !m.fr.bits[w.frame - BASE] && Ok(Take(m.fr, w.frame))
    requires RTab(d, di) in refs && RLeaf(d, di, ti) in refs && w.present
    requires ShownBy(m.ram, w.(frame := refs[RLeaf(d, di, ti)].frame)) == ShownBy(m.ram, refs[RLeaf(d, di, ti)])
    requires m'.fr == Release(Take(m.fr, w.frame), refs[RLeaf(d, di, ti)].frame) && m'.kdir == m.kdir
    requires m'.ram == SetEntry(m.ram[w.frame := m.ram[refs[RLeaf(d, di, ti)].frame]], refs[RTab(d, di)].frame, ti, w)
    requires refs' == refs[RLeaf(d, di, ti) := w]
    ensures Wf(m', refs') && SameLooks(m, refs, m'.ram)
    ensures forall s :: s in refs ==> refs[s].frame != w.frame
  {
    hide Wf, SameLooks, SameLooksBut;
    var f, r := w.frame, RLeaf(d, di, ti);
    var m1, refs1 := Mem(Take(m.fr, f), m.ram[f := m.ram[refs[r].frame]], m.kdir), refs[RHeld(f) := ZERO.(frame := f)];
    NewHeld(m, refs, f, m1, refs1);
    var m2, refs2 := Mem(m'.fr, SetEntry(m1.ram, refs[RTab(d, di)].frame, ti, ZERO), m.kdir), refs1 - {r};
    UnlinkLeaf(m1, refs1, d, di, ti, m2, refs2);
    SetTwice(m1.ram, refs[RTab(d, di)].frame, ti, ZERO, w);
    assert refs' == (refs2 - {RHeld(f)})[r := w];
    LinkLeaf(m2, refs2, d, di, ti, w, m', refs');
    SameLooksButTrans(m, refs, m1, refs1, m2.ram, d, di, ti);
    SameLooksButTwice(m, refs, m2, refs2, m'.ram, d, di, ti);
    HeldIsNoTab(m1, refs1, f, d, di);
    WfLooks(m, refs, d, di, ti);
    SameEverywhere(m, refs, m'.ram, d, di, ti);
    FreeFrame(m, refs, f);
  }

  lemma SetTwice(ram: Ram, f: FrameNo, i: Index, v: Word, w: Word)
    ensures SetEntry(SetEntry(ram, f, i, v), f, i, w) == SetEntry(ram, f, i, w)
  {
    assert ram[f][i := v][i := w] == ram[f][i := w];
  }

  lemma SoleOwner(m: Mem, refs: Refs, r: Ref)
    requires Wf(m, refs) && r in refs && Exclusive(refs, r)
    ensures Owners(refs, refs[r].frame) == {r}
  {
  }

  lemma FreeFrame(m: Mem, refs: Refs, f: FrameNo)
    requires Wf(m, refs) && Managed(m.fr, f) && !m.fr.bits[f - BASE]
    ensures forall r :: r in refs ==> refs[r].frame != f
  {
    FreeMeansUnowned(m.fr, refs, f);
  }

  lemma HeldIsNoTab(m: Mem, refs: Refs, f: FrameNo, d: FrameNo, di: Index)
    requires Wf(m, refs) && RHeld(f) in refs && RTab(d, di) in refs
    ensures f != refs[RTab(d, di)].frame
  {
    assert Names(RHeld(f), refs[RHeld(f)]);
    Alone(refs, RHeld(f));
  }

  lemma WfLooks(m: Mem, refs: Refs, d: FrameNo, di: Index, ti: Index)
    requires Wf(m, refs) && RLeaf(d, di, ti) in refs
    ensures Look(m.ram, d, di, ti) == Some(ShownBy(m.ram, refs[RLeaf(d, di, ti)]))
  {
    LookIs(m.ram, m.kdir, refs, d, di, ti);
  }

  lemma SameIsSameBut(m: Mem, refs: Refs, ram: Ram, d: FrameNo, di: Index, ti: Index)
    ensures SameLooks(m, refs, m.ram)
    ensures SameLooks(m, refs, ram) ==> SameLooksBut(m, refs, ram, d, di, ti)
  {
  }

  lemma SameLooksButTwice(m0: Mem, refs0: Refs, m1: Mem, refs1: Refs, ram2: Ram, d: FrameNo, di: Index, ti: Index)
    requires SameLooksBut(m0, refs0, m1.ram, d, di, ti) && SameLooksBut(m1, refs1, ram2, d, di, ti) && m1.kdir == m0.kdir
    requires forall e: FrameNo :: RDir(e) in refs0 ==> RDir(e) in refs1
    ensures SameLooksBut(m0, refs0, ram2, d, di, ti)
  {
  }

  lemma SameLooksButTrans(m0: Mem, refs0: Refs, m1: Mem, refs1: Refs, ram2: Ram, d: FrameNo, di: Index, ti: Index)
    requires SameLooks(m0, refs0, m1.ram) && SameLooksBut(m1, refs1, ram2, d, di, ti) && m1.kdir == m0.kdir
    requires forall e: FrameNo :: RDir(e) in refs0 ==> RDir(e) in refs1
    ensures SameLooksBut(m0, refs0, ram2, d, di, ti)
  {
  }

  lemma SameSpaces(m: Mem, refs: Refs, refs': Refs, ram: Ram)
    requires forall d: FrameNo :: RDir(d) in refs ==> RDir(d) in refs'
    ensures SameLooks(m, refs', ram) ==> SameLooks(m, refs, ram)
  {
  }

  /** Entry `r` became writable: alone on its frame it kept it, otherwise it moved to a frame nobody had. */
  ghost predicate CowTaken(refs: Refs, copied: multiset<FrameNo>, refs': Refs, copied': multiset<FrameNo>, r: Ref) {
    && r in refs && r.RLeaf? && refs[r].cow
    && (Owners(refs, refs[r].frame) == {r} ==>
          refs' == refs[r := refs[r].(cow := false, rw := true)] && copied' == copied)
    && (Owners(refs, refs[r].frame) != {r} ==>
          && r in refs'
          && refs' == refs[r := refs[r].(cow := false, rw := true, frame := refs'[r].frame)]
          && (forall s :: s in refs ==> refs[s].frame != refs'[r].frame)
          && copied' == copied + multiset{refs[r].frame})
  }

  /** The entry is its frame's only owner. */
  ghost predicate Sole(refs: Refs, r: Ref) {
    r in refs && Owners(refs, refs[r].frame) == {r}
  }

  lemma LastOwner(m: Mem, refs: Refs, r: Ref)
    requires Ok(m.fr) && Wf(m, refs) && r in refs
    ensures Refcount(m.fr, refs[r].frame) <= 1 <==> Owners(refs, refs[r].frame) == {r}
  {
    var owners := Owners(refs, refs[r].frame);
    assert r in owners && owners == {r} + (owners - {r});
    assert |owners| == 1 + |owners - {r}|;
  }

  /** A shared frame stays in use when one owner moves to a copy. */
  lemma SplitUses(m: Mem, refs: Refs, r: Ref, f: FrameNo)
    requires Ok(m.fr) && Wf(m, refs) && r in refs && Owners(refs, refs[r].frame) != {r}
    requires Managed(m.fr, f) && !m.fr.bits[f - BASE] && Ok(Take(m.fr, f))
    ensures Release(Take(m.fr, f), refs[r].frame).used == m.fr.used + 1
  {
    LastOwner(m, refs, r);
    FreeFrame(m, refs, f);
  }

  // ---- tearing an address space down ---------------------------------------

  /** The references of `d` that are gone once its entries before (di, ti) have been freed. */
  ghost predicate Gone(r: Ref, d: FrameNo, di: nat, ti: nat) {
    && r.d == d
    && (r.RTab? ==> r.di < di)
    && (r.RLeaf? ==> r.di < di || (r.di == di && r.ti < ti))
    && (r.RTab? || r.RLeaf?)
  }

  ghost function Left(refs: Refs, d: FrameNo, di: nat, ti: nat): Refs {
    map r | r in refs && !Gone(r, d, di, ti) :: refs[r]
  }

  ghost predicate OwnedBy(r: Ref, d: FrameNo) {
    !r.RHeld? && r.d == d
  }

  ghost function Without(refs: Refs, d: FrameNo): Refs {
    map r | r in refs && !OwnedBy(r, d) :: refs[r]
  }

  /** Every address space but `d` shows the same pages in `ram`. */
  ghost predicate OthersSame(m: Mem, refs: Refs, ram: Ram, d: FrameNo) {
    forall d': FrameNo, di: Index, ti: Index :: Space(m.kdir, refs, d') && d' != d && di >= 2 ==>
      Look(ram, d', di, ti) == Look(m.ram, d', di, ti)
  }

  lemma OthersSameTrans(m0: Mem, refs0: Refs, m1: Mem, refs1: Refs, ram2: Ram, d: FrameNo, di: Index, ti: Index)
    requires OthersSame(m0, refs0, m1.ram, d) && m1.kdir == m0.kdir
    requires SameLooksBut(m1, refs1, ram2, d, di, ti) || SameLooks(m1, refs1, ram2)
    requires forall e: FrameNo :: RDir(e) in refs0 ==> RDir(e) in refs1
    ensures OthersSame(m0, refs0, ram2, d)
  {
  }

  lemma OthersSameRefl(m: Mem, refs: Refs, d: FrameNo)
    ensures OthersSame(m, refs, m.ram, d)
  {
  }

  lemma OthersSameStep(m0: Mem, refs0: Refs, m1: Mem, refs1: Refs, ram2: Ram, d: FrameNo)
    requires OthersSame(m0, refs0, m1.ram, d) && OthersSame(m1, refs1, ram2, d) && m1.kdir == m0.kdir
    requires forall e: FrameNo :: RDir(e) in refs0 ==> RDir(e) in refs1
    ensures OthersSame(m0, refs0, ram2, d)
  {
  }

  /** No private entry comes before directory index 2, and none is left after the last. */
  lemma LeftAll(m: Mem, refs: Refs, d: FrameNo)
    requires Wf(m, refs)
    ensures Left(refs, d, 2, 0) == refs
  {
    assert Left(refs, d, 2, 0) == refs;
  }

  lemma DirsLeft(refs: Refs, d: FrameNo, di: nat)
    ensures forall e: FrameNo :: RDir(e) in Left(refs, d, di, 0) <==> RDir(e) in refs
  {
  }

  lemma NothingLeft(refs: Refs, d: FrameNo)
    ensures Without(refs, d) == Left(refs, d, PAGE_WORDS, 0) - {RDir(d)}
    ensures forall di: Index :: RTab(d, di) !in Left(refs, d, PAGE_WORDS, 0)
  {
    assert Without(refs, d) == Left(refs, d, PAGE_WORDS, 0) - {RDir(d)};
  }

  /** One leaf of the dying table is freed; the word stays in the table, `m'` is the memory with it cleared. */
  lemma FreeLeaf(m: Mem, refs0: Refs, d: FrameNo, di: Index, ti: Index, m': Mem)
    requires Wf(m, Left(refs0, d, di, ti)) && Ok(m.fr) && RTab(d, di) in refs0 && RLeaf(d, di, ti) in refs0
    requires m' == m.(fr := Release(m.fr, refs0[RLeaf(d, di, ti)].frame), ram := SetEntry(m.ram, refs0[RTab(d, di)].frame, ti, ZERO))
    ensures Wf(m', Left(refs0, d, di, ti + 1)) && SameLooksBut(m, Left(refs0, d, di, ti), m'.ram, d, di, ti)
  {
    hide Wf, SameLooksBut, Ok;
    var refs := Left(refs0, d, di, ti);
    assert Left(refs0, d, di, ti + 1) == refs - {RLeaf(d, di, ti)};
    UnlinkLeaf(m, refs, d, di, ti, m', refs - {RLeaf(d, di, ti)});
  }

  lemma SkipLeaf(refs0: Refs, d: FrameNo, di: Index, ti: Index)
    requires RLeaf(d, di, ti) !in refs0
    ensures Left(refs0, d, di, ti + 1) == Left(refs0, d, di, ti)
  {
    assert Left(refs0, d, di, ti + 1) == Left(refs0, d, di, ti);
  }

  lemma SkipTable(m: Mem, refs0: Refs, d: FrameNo, di: Index)
    requires Wf(m, Left(refs0, d, di, 0)) && RTab(d, di) !in Left(refs0, d, di, 0)
    ensures Left(refs0, d, di + 1, 0) == Left(refs0, d, di, 0)
  {
    assert Left(refs0, d, di + 1, 0) == Left(refs0, d, di, 0);
  }

  /** The emptied table is freed with whatever words are left in it. */
  lemma FreeTable(m: Mem, refs0: Refs, d: FrameNo, di: Index, data: Page, m': Mem)
    requires Wf(m, Left(refs0, d, di, PAGE_WORDS)) && Ok(m.fr) && RTab(d, di) in refs0
    requires m'.fr == Release(m.fr, refs0[RTab(d, di)].frame) && m'.kdir == m.kdir
    requires m'.ram == SetEntry(m.ram[refs0[RTab(d, di)].frame := data], d, di, ZERO)
    ensures Wf(m', Left(refs0, d, di + 1, 0)) && SameLooks(m, Left(refs0, d, di, PAGE_WORDS), m'.ram)
  {
    hide Wf, SameLooks, Ok;
    var refs, t := Left(refs0, d, di, PAGE_WORDS), refs0[RTab(d, di)].frame;
    var refs' := refs - {RTab(d, di)};
    assert Left(refs0, d, di + 1, 0) == refs';
    var m1 := m.(fr := m'.fr, ram := SetEntry(m.ram, d, di, ZERO));
    UnlinkTab(m, refs, d, di, m1, refs');
    TableIsApart(m, refs, d, di);
    assert m'.ram == m1.ram[t := data];
    Fill(m1, refs', t, data, m');
    SameSpaces(m1, refs, refs', m'.ram);
    SameLooksTrans(m, refs, m1, refs', m'.ram);
  }

  lemma TableIsApart(m: Mem, refs: Refs, d: FrameNo, di: Index)
    requires Wf(m, refs) && RTab(d, di) in refs
    ensures refs[RTab(d, di)].frame != d && refs[RTab(d, di)].frame != m.kdir
    ensures forall r :: r in refs && r != RTab(d, di) ==> refs[r].frame != refs[RTab(d, di)].frame
  {
    Alone(refs, RTab(d, di));
    SpacesDiffer(m.kdir, refs, RTab(d, di), d);
  }

  /**
   Freeing the table behind entry di of `d`, with the words before ti done. The kernel leaves those words
   where they are; `g` is the memory in which each is cleared as its frame is freed.
   */
  ghost predicate Partway(m: Mem, g: Mem, refs0: Refs, d: FrameNo, di: Index, ti: nat) {
    var tab := m.ram[d][di].frame;
    && g.kdir == m.kdir && Wf(g, Left(refs0, d, di, ti)) && Space(m.kdir, refs0, d) && di >= 2 && m.ram[d][di].present
    && g.ram == m.ram[tab := g.ram[tab]] && g.ram[d][di] == m.ram[d][di]
    && (forall j: Index :: ti <= j ==> g.ram[tab][j] == m.ram[tab][j])
    && OthersSame(m, refs0, g.ram, d)
  }

  lemma PartwayStart(m: Mem, refs0: Refs, d: FrameNo, di: Index)
    requires Wf(m, Left(refs0, d, di, 0)) && Space(m.kdir, Left(refs0, d, di, 0), d) && di >= 2 && m.ram[d][di].present
    ensures Partway(m, m, refs0, d, di, 0)
  {
    hide Wf;
  }

  /** One word of the table: the frame it names loses an owner, or there is nothing to free. */
  lemma PartwayNext(m: Mem, g: Mem, refs0: Refs, d: FrameNo, di: Index, ti: Index, g': Mem)
    requires Partway(m, g, refs0, d, di, ti)
    requires var tab := m.ram[d][di].frame; var e := m.ram[tab][ti];
             g' == if e.present then g.(fr := Release(g.fr, e.frame), ram := SetEntry(g.ram, tab, ti, ZERO)) else g
    ensures Partway(m, g', refs0, d, di, ti + 1)
    ensures !m.ram[m.ram[d][di].frame][ti].present ==> Left(refs0, d, di, ti + 1) == Left(refs0, d, di, ti)
  {
    hide Wf, OthersSame, SameLooksBut, Ok, Release;
    var refs := Left(refs0, d, di, ti);
    Walk(g, refs, d, di, ti);
    TableIsApart(g, refs, d, di);
    if m.ram[m.ram[d][di].frame][ti].present {
      WfOk(g, refs);
      FreeLeaf(g, refs0, d, di, ti, g');
      OthersSameTrans(m, refs0, g, refs, g'.ram, d, di, ti);
    } else {
      SkipLeaf(refs0, d, di, ti);
    }
  }

  lemma WfOk(m: Mem, refs: Refs)
    requires Wf(m, refs)
    ensures Ok(m.fr)
  {
  }

  lemma PartwayDone(m: Mem, g: Mem, refs0: Refs, d: FrameNo, di: Index, m': Mem)
    requires Partway(m, g, refs0, d, di, PAGE_WORDS)
    requires m' == m.(fr := Release(g.fr, m.ram[d][di].frame), ram := SetEntry(m.ram, d, di, ZERO))
    ensures Wf(m', Left(refs0, d, di + 1, 0)) && OthersSame(m, Left(refs0, d, di, 0), m'.ram, d)
  {
    hide Wf, SameLooks, Ok, Release;
    var refs, tab := Left(refs0, d, di, PAGE_WORDS), m.ram[d][di].frame;
    Walk(g, refs, d, di, 0);
    TableIsApart(g, refs, d, di);
    WfOk(g, refs);
    assert g.ram[tab := m.ram[tab]] == m.ram;
    FreeTable(g, refs0, d, di, m.ram[tab], m');
    OthersSameTrans(m, refs0, g, refs, m'.ram, d, di, 0);
  }

  // ---- cloning an address space --------------------------------------------

  /** Write permission dropped and remembered in the copy-on-write bit. */
  function SharedWord(e: Word): Word {
    e.(rw := false, cow := e.rw || e.cow)
  }

  /** Every old reference is still there on the same frame; at most, a page of `src` has become copy-on-write. */
  ghost predicate Kept(refs0: Refs, refs: Refs, src: FrameNo, dst: FrameNo, cow: bool) {
    && (forall r :: r in refs0 ==> r in refs && (refs[r] == refs0[r] || (cow && r.RLeaf? && r.d == src && refs[r] == SharedWord(refs0[r]))))
    && (forall r :: r in refs && r !in refs0 ==> OwnedBy(r, dst))
  }

  /** The entries of `dst` before (di, ti) show what `src` showed. */
  ghost predicate CopiedUpTo(ram0: Ram, ram: Ram, src: FrameNo, dst: FrameNo, di: nat, ti: nat) {
    forall i: Index, j: Index :: 2 <= i && (i < di || (i == di && j < ti)) ==> Look(ram, dst, i, j) == Look(ram0, src, i, j)
  }

  /** The entries of `dst` from (di, ti) on are still absent, and so are its tables from `tabs` on. */
  ghost predicate Pending(refs: Refs, dst: FrameNo, di: nat, ti: nat, tabs: nat) {
    && (forall i: Index, j: Index :: i > di || (i == di && j >= ti) ==> RLeaf(dst, i, j) !in refs)
    && (forall i: Index :: i >= tabs ==> RTab(dst, i) !in refs)
  }

  /** Each page of `dst` is on the frame of the same page of `src`. */
  ghost predicate Mirror(refs: Refs, src: FrameNo, dst: FrameNo) {
    forall i: Index, j: Index :: RLeaf(dst, i, j) in refs ==>
      RLeaf(src, i, j) in refs && refs[RLeaf(dst, i, j)].frame == refs[RLeaf(src, i, j)].frame
  }

  ghost predicate Cloning(m0: Mem, refs0: Refs, m: Mem, refs: Refs, src: FrameNo, dst: FrameNo, di: nat, ti: nat, tabs: nat, cow: bool) {
    && m.kdir == m0.kdir && m.fr.total == m0.fr.total && src != dst
    && Space(m.kdir, refs0, src) && !Space(m.kdir, refs0, dst) && RDir(dst) in refs && (cow ==> |DirRefs(refs)| < MAX_REFS - 1)
    && Wf(m, refs)
    && Kept(refs0, refs, src, dst, cow)
    && SameLooks(m0, refs0, m.ram)
    && CopiedUpTo(m0.ram, m.ram, src, dst, di, ti)
    && Pending(refs, dst, di, ti, tabs)
    && (cow ==> Mirror(refs, src, dst))
  }

  lemma MirrorIsOnce(m: Mem, refs: Refs, src: FrameNo, dst: FrameNo, di: Index, ti: Index)
    requires Wf(m, refs) && Mirror(refs, src, dst) && RLeaf(src, di, ti) in refs && RLeaf(dst, di, ti) !in refs
    ensures forall q :: q in refs && q.RLeaf? && q.d == dst ==> refs[q].frame != refs[RLeaf(src, di, ti)].frame
  {
    forall q | q in refs && q.RLeaf? && q.d == dst ensures refs[q].frame != refs[RLeaf(src, di, ti)].frame {
      assert q == RLeaf(dst, q.di, q.ti);
      assert !Twins(refs, RLeaf(src, q.di, q.ti), RLeaf(src, di, ti));
    }
  }

  lemma RoomToShare(m: Mem, refs: Refs, r: Ref)
    requires Wf(m, refs) && r in refs && |DirRefs(refs)| < MAX_REFS - 1
    ensures Refcount(m.fr, refs[r].frame) < MAX_REFS
  {
    OwnersBound(m.ram, m.kdir, refs, refs[r].frame);
  }

  /** One page is shared: both entries lose write permission and the frame gains an owner. */
  lemma SharePage(m: Mem, refs: Refs, src: FrameNo, dst: FrameNo, di: Index, ti: Index, m': Mem, refs': Refs)
    requires Ok(m.fr) && Wf(m, refs) && src != dst && Mirror(refs, src, dst) && |DirRefs(refs)| < MAX_REFS - 1
    requires RTab(src, di) in refs && RTab(dst, di) in refs && RLeaf(src, di, ti) in refs && RLeaf(dst, di, ti) !in refs
    requires refs[RLeaf(src, di, ti)].present
    requires m'.fr == Share(m.fr, refs[RLeaf(src, di, ti)].frame) && m'.kdir == m.kdir
    requires m'.ram == SetEntry(SetEntry(m.ram, refs[RTab(src, di)].frame, ti, SharedWord(refs[RLeaf(src, di, ti)])),
                                refs[RTab(dst, di)].frame, ti, SharedWord(refs[RLeaf(src, di, ti)]))
    requires refs' == refs[RLeaf(src, di, ti) := SharedWord(refs[RLeaf(src, di, ti)])][RLeaf(dst, di, ti) := SharedWord(refs[RLeaf(src, di, ti)])]
    ensures Wf(m', refs') && SameLooksBut(m, refs, m'.ram, dst, di, ti)
    ensures Look(m'.ram, dst, di, ti) == Look(m.ram, src, di, ti) && Mirror(refs', src, dst)
  {
    hide Wf, SameLooks, SameLooksBut, Ok;
    var r := RLeaf(src, di, ti);
    var w := SharedWord(refs[r]);
    var m1, refs1 := m.(ram := SetEntry(m.ram, refs[RTab(src, di)].frame, ti, w)), refs[r := w];
    Reflag(m, refs, src, di, ti, w, m1, refs1);
    MirrorIsOnce(m1, refs1, src, dst, di, ti);
    RoomToShare(m, refs, r);
    ShareLeaf(m1, refs1, r, dst, di, ti, m', refs');
    SameLooksButTrans(m, refs, m1, refs1, m'.ram, dst, di, ti);
    WfLooks(m, refs, src, di, ti);
    WfLooks(m1, refs1, src, di, ti);
    SameLooksAt(m, refs, m1.ram, src, di, ti);
  }

  lemma SameLooksAt(m: Mem, refs: Refs, ram: Ram, d: FrameNo, di: Index, ti: Index)
    requires Wf(m, refs) && SameLooks(m, refs, ram) && RTab(d, di) in refs
    ensures Look(ram, d, di, ti) == Look(m.ram, d, di, ti)
  {
  }

  lemma CloneStart(m0: Mem, refs0: Refs, m: Mem, refs: Refs, src: FrameNo, dst: FrameNo, cow: bool)
    requires Wf(m0, refs0) && Wf(m, refs) && m.kdir == m0.kdir && m.fr.total == m0.fr.total && Space(m.kdir, refs0, src)
    requires !Space(m.kdir, refs0, dst) && refs == refs0[RDir(dst) := ZERO.(frame := dst)] && SameLooks(m0, refs0, m.ram)
    requires cow ==> |DirRefs(refs0)| < MAX_REFS - 2
    ensures Cloning(m0, refs0, m, refs, src, dst, 2, 0, 2, cow)
  {
    hide Wf, SameLooks;
    assert DirRefs(refs) == DirRefs(refs0) + {RDir(dst)};
    NoSpaceNoPages(m0, refs0, dst);
  }

  lemma NoSpaceNoPages(m: Mem, refs: Refs, d: FrameNo)
    requires Wf(m, refs) && !Space(m.kdir, refs, d)
    ensures forall i: Index :: RTab(d, i) !in refs
    ensures forall i: Index, j: Index :: RLeaf(d, i, j) !in refs
  {
  }

  lemma CloneNewTable(m0: Mem, refs0: Refs, m: Mem, refs: Refs, src: FrameNo, dst: FrameNo, di: Index, cow: bool, w: Word, m': Mem, refs': Refs)
    requires Cloning(m0, refs0, m, refs, src, dst, di, 0, di, cow)
    requires Wf(m', refs') && m'.kdir == m.kdir && m'.fr.total == m.fr.total
    requires SameLooks(m, refs, m'.ram) && refs' == refs[RTab(dst, di) := w]
    ensures Cloning(m0, refs0, m', refs', src, dst, di, 0, di + 1, cow)
  {
    hide Wf;
    assert DirRefs(refs') == DirRefs(refs);
    assert Kept(refs0, refs', src, dst, cow);
    SameLooksTrans(m0, refs0, m, refs, m'.ram);
    assert Pending(refs', dst, di, 0, di + 1);
  }

  lemma KeptStep(refs0: Refs, refs: Refs, refs': Refs, src: FrameNo, dst: FrameNo, di: Index, ti: Index, cow: bool)
    requires Kept(refs0, refs, src, dst, cow) && refs'.Keys == refs.Keys + {RLeaf(dst, di, ti)}
    requires forall r :: r in refs ==> refs'[r] == refs[r] || (cow && r == RLeaf(src, di, ti) && refs'[r] == SharedWord(refs[r]))
    ensures Kept(refs0, refs', src, dst, cow)
  {
  }

  lemma CloneAdvance(m0: Mem, refs0: Refs, m: Mem, refs: Refs, src: FrameNo, dst: FrameNo, di: Index, ti: Index, cow: bool, m': Mem, refs': Refs)
    requires Cloning(m0, refs0, m, refs, src, dst, di, ti, di + 1, cow)
    requires Wf(m', refs') && m'.kdir == m.kdir && m'.fr.total == m.fr.total && di >= 2
    requires SameLooksBut(m, refs, m'.ram, dst, di, ti) && Look(m'.ram, dst, di, ti) == Look(m.ram, src, di, ti)
    requires refs'.Keys == refs.Keys + {RLeaf(dst, di, ti)} && (cow ==> Mirror(refs', src, dst))
    requires forall r :: r in refs ==> refs'[r] == refs[r] || (cow && r == RLeaf(src, di, ti) && refs'[r] == SharedWord(refs[r]))
    ensures Cloning(m0, refs0, m', refs', src, dst, di, ti + 1, di + 1, cow)
  {
    hide Wf, Mirror;
    KeptStep(refs0, refs, refs', src, dst, di, ti, cow);
    hide Kept;
    assert DirRefs(refs') == DirRefs(refs);
    LooksAdvance(m0, refs0, m, refs, src, dst, di, ti, m'.ram, cow);
    assert Pending(refs', dst, di, ti + 1, di + 1);
  }

  lemma LooksAdvance(m0: Mem, refs0: Refs, m: Mem, refs: Refs, src: FrameNo, dst: FrameNo, di: Index, ti: Index, ram': Ram, cow: bool)
    requires m.kdir == m0.kdir && Space(m.kdir, refs0, src) && !Space(m.kdir, refs0, dst) && RDir(dst) in refs && di >= 2
    requires Kept(refs0, refs, src, dst, cow)
    requires SameLooks(m0, refs0, m.ram) && CopiedUpTo(m0.ram, m.ram, src, dst, di, ti)
    requires SameLooksBut(m, refs, ram', dst, di, ti) && Look(ram', dst, di, ti) == Look(m.ram, src, di, ti)
    ensures SameLooks(m0, refs0, ram') && CopiedUpTo(m0.ram, ram', src, dst, di, ti + 1)
  {
    forall d: FrameNo, i: Index, j: Index | Space(m.kdir, refs0, d) && i >= 2 ensures Look(ram', d, i, j) == Look(m0.ram, d, i, j) {
      assert Space(m.kdir, refs, d) && d != dst;
    }
  }

  /** Nothing to do where `src` has no page. */
  lemma CloneSkip(m0: Mem, refs0: Refs, m: Mem, refs: Refs, src: FrameNo, dst: FrameNo, di: Index, ti: Index, cow: bool)
    requires Cloning(m0, refs0, m, refs, src, dst, di, ti, di + 1, cow) && di >= 2 && RLeaf(src, di, ti) !in refs
    ensures Cloning(m0, refs0, m, refs, src, dst, di, ti + 1, di + 1, cow)
  {
    hide Wf, Kept, Mirror;
    SpacesKept(m0, refs0, m, refs, src, dst, cow);
    Walk(m, refs, src, di, ti);
    Walk(m, refs, dst, di, ti);
    assert CopiedUpTo(m0.ram, m.ram, src, dst, di, ti + 1);
  }

  lemma SpacesKept(m0: Mem, refs0: Refs, m: Mem, refs: Refs, src: FrameNo, dst: FrameNo, cow: bool)
    requires Kept(refs0, refs, src, dst, cow)
    ensures forall d: FrameNo :: RDir(d) in refs0 ==> RDir(d) in refs
  {
  }

  lemma CloneTableDone(m0: Mem, refs0: Refs, m: Mem, refs: Refs, src: FrameNo, dst: FrameNo, di: Index, cow: bool)
    requires Cloning(m0, refs0, m, refs, src, dst, di, PAGE_WORDS, di + 1, cow)
    ensures Cloning(m0, refs0, m, refs, src, dst, di + 1, 0, di + 1, cow)
  {
    hide Wf, Kept, SameLooks, Mirror;
  }

  lemma CloneSkipTable(m0: Mem, refs0: Refs, m: Mem, refs: Refs, src: FrameNo, dst: FrameNo, di: Index, cow: bool)
    requires Cloning(m0, refs0, m, refs, src, dst, di, 0, di, cow) && di >= 2 && !m.ram[src][di].present
    ensures Cloning(m0, refs0, m, refs, src, dst, di + 1, 0, di + 1, cow)
  {
    hide Wf, Kept, Mirror;
    SpacesKept(m0, refs0, m, refs, src, dst, cow);
    forall j: Index ensures Look(m.ram, dst, di, j) == Look(m0.ram, src, di, j) {
      Walk(m, refs, src, di, j);
      Walk(m, refs, dst, di, j);
    }
    assert CopiedUpTo(m0.ram, m.ram, src, dst, di + 1, 0);
  }

  /** The clone's own references are exactly what Without takes away again. */
  lemma CloneUndone(refs0: Refs, refs: Refs, src: FrameNo, dst: FrameNo, cow: bool)
    requires Kept(refs0, refs, src, dst, cow) && forall r :: r in refs0 ==> !OwnedBy(r, dst)
    ensures Without(refs, dst).Keys == refs0.Keys
    ensures Kept(refs0, Without(refs, dst), src, dst, cow)
  {
    assert Without(refs, dst).Keys == refs0.Keys;
  }

  lemma NoSpaceNoOwner(m: Mem, refs: Refs, d: FrameNo)
    requires Wf(m, refs) && !Space(m.kdir, refs, d)
    ensures forall r :: r in refs ==> !OwnedBy(r, d)
  {
    NoSpaceNoPages(m, refs, d);
    forall r | r in refs ensures !OwnedBy(r, d) {
      assert r == RTab(r.d, if r.RTab? then r.di else 0) || r.RDir? || r.RHeld? || r == RLeaf(r.d, r.di, r.ti);
    }
  }

  /** What a clone that ran out of frames leaves behind: nothing that owns, counts or shows anything else. */
  ghost predicate CloneRefused(m0: Mem, refs0: Refs, m: Mem, refs: Refs, src: FrameNo, cow: bool) {
    && refs.Keys == refs0.Keys
    && (forall r :: r in refs0 ==> refs[r] == refs0[r] || (cow && r.RLeaf? && r.d == src && refs[r] == SharedWord(refs0[r])))
    && m.fr.rc == m0.fr.rc && m.fr.bits == m0.fr.bits && m.fr.used == m0.fr.used
    && SameLooks(m0, refs0, m.ram)
  }

  lemma CloneIsRefused(m0: Mem, refs0: Refs, m1: Mem, refs1: Refs, m: Mem, refs: Refs, src: FrameNo, dst: FrameNo, cow: bool)
    requires Wf(m0, refs0) && Wf(m, refs) && !Space(m0.kdir, refs0, dst) && m.fr.total == m0.fr.total && m1.kdir == m0.kdir
    requires Kept(refs0, refs1, src, dst, cow) && SameLooks(m0, refs0, m1.ram)
    requires refs == Without(refs1, dst) && OthersSame(m1, refs1, m.ram, dst)
    ensures CloneRefused(m0, refs0, m, refs, src, cow)
  {
    NoSpaceNoOwner(m0, refs0, dst);
    SpacesKept(m0, refs0, m1, refs1, src, dst, cow);
    CloneUndone(refs0, refs1, src, dst, cow);
    hide Without;
    assert SameLooks(m0, refs0, m.ram);
    CountsDetermined(m0.fr, m.fr, refs0, refs);
  }

  /** The new address space shows what `src` showed, and no other address space shows anything else. */
  ghost predicate Cloned(m0: Mem, refs0: Refs, m: Mem, refs: Refs, src: FrameNo, dst: FrameNo, cow: bool) {
    && !Space(m0.kdir, refs0, dst) && RDir(dst) in refs
    && Kept(refs0, refs, src, dst, cow)
    && SameLooks(m0, refs0, m.ram)
    && (forall i: Index, j: Index :: i >= 2 ==> Look(m.ram, dst, i, j) == Look(m0.ram, src, i, j))
  }

  lemma CloneTables(m0: Mem, refs0: Refs, m: Mem, refs: Refs, src: FrameNo, dst: FrameNo, di: Index, ti: nat, tabs: nat, cow: bool)
    requires Cloning(m0, refs0, m, refs, src, dst, di, ti, tabs, cow) && di >= 2
    ensures Space(m.kdir, refs, src) && Space(m.kdir, refs, dst)
    ensures m.ram[src][di].present <==> RTab(src, di) in refs
    ensures m.ram[src][di].present ==> refs[RTab(src, di)] == m.ram[src][di] && m.ram[src][di].rw
    ensures RTab(dst, di) in refs ==> m.ram[dst][di].present && refs[RTab(dst, di)] == m.ram[dst][di]
    ensures di >= tabs ==> RTab(dst, di) !in refs && !m.ram[dst][di].present
    ensures forall j: Index :: j >= ti ==> RLeaf(dst, di, j) !in refs
  {
    hide SameLooks, CopiedUpTo, Mirror, CountsExact, LeavesMatch;
    SpacesKept(m0, refs0, m, refs, src, dst, cow);
    hide Kept;
    assert RTab(src, di) in refs ==> Names(RTab(src, di), refs[RTab(src, di)]);
  }

  lemma ShareStep(m0: Mem, refs0: Refs, m: Mem, refs: Refs, src: FrameNo, dst: FrameNo, di: Index, ti: Index, w: Word, m': Mem, refs': Refs)
    requires Ok(m.fr) && di >= 2 && Cloning(m0, refs0, m, refs, src, dst, di, ti, di + 1, true)
    requires RTab(src, di) in refs && RTab(dst, di) in refs && RLeaf(src, di, ti) in refs && refs[RLeaf(src, di, ti)].present
    requires w == SharedWord(refs[RLeaf(src, di, ti)]) && m'.fr == Share(m.fr, w.frame) && m'.kdir == m.kdir
    requires m'.ram == SetEntry(SetEntry(m.ram, refs[RTab(src, di)].frame, ti, w), refs[RTab(dst, di)].frame, ti, w)
    requires refs' == refs[RLeaf(src, di, ti) := w][RLeaf(dst, di, ti) := w]
    ensures Wf(m', refs') && Cloning(m0, refs0, m', refs', src, dst, di, ti + 1, di + 1, true)
    ensures m'.ram[src][di] == m.ram[src][di] && m'.ram[dst][di] == m.ram[dst][di]
  {
    hide Wf, SameLooks, SameLooksBut, Ok, Kept, CopiedUpTo, Pending, Mirror;
    CloneTables(m0, refs0, m, refs, src, dst, di, ti, di + 1, true);
    SharePage(m, refs, src, dst, di, ti, m', refs');
    CloneAdvance(m0, refs0, m, refs, src, dst, di, ti, true, m', refs');
    CloneTables(m0, refs0, m', refs', src, dst, di, ti + 1, di + 1, true);
  }

  lemma NothingRefused(m: Mem, refs: Refs, src: FrameNo, cow: bool)
    ensures CloneRefused(m, refs, m, refs, src, cow)
  {
  }

  /** A page that was writable before a refused clone still has one owner, so its next write fault copies nothing. */
  lemma RefusedCloneCostsNoCopy(m0: Mem, refs0: Refs, m: Mem, refs: Refs, src: FrameNo, r: Ref)
    requires Wf(m0, refs0) && CloneRefused(m0, refs0, m, refs, src, true) && r in refs0 && r.RLeaf? && refs0[r].rw
    ensures Sole(refs, r) && (refs[r].rw || refs[r].cow)
  {
    SoleOwner(m0, refs0, r);
    assert Owners(refs, refs[r].frame) == Owners(refs0, refs0[r].frame);
  }

  lemma SpaceIsManaged(m: Mem, refs: Refs, d: FrameNo)
    requires Wf(m, refs) && RDir(d) in refs
    ensures Managed(m.fr, d) && d != 0 && d != m.kdir
  {
    assert Names(RDir(d), refs[RDir(d)]);
  }

  lemma CloneComplete(m0: Mem, refs0: Refs, m: Mem, refs: Refs, src: FrameNo, dst: FrameNo, cow: bool)
    requires Cloning(m0, refs0, m, refs, src, dst, PAGE_WORDS, 0, PAGE_WORDS, cow)
    ensures Cloned(m0, refs0, m, refs, src, dst, cow)
  {
    hide Wf, Kept, SameLooks, Pending, Mirror;
  }

  // ---- the kernel's own entries ----------------------------------------------

  /** The first two words of a directory: the identity map of the first 8 MB, where the kernel and the tables are. */
  function Low(ram: Ram, d: FrameNo): (Word, Word) {
    (ram[d][0], ram[d][1])
  }

  /** Every address space maps the kernel. */
  ghost predicate KernelIn(ram: Ram, kdir: FrameNo, refs: Refs, low: (Word, Word)) {
    forall d: FrameNo :: Space(kdir, refs, d) ==> Low(ram, d) == low
  }

  lemma LowOf(ram: Ram, kdir: FrameNo, refs: Refs, low: (Word, Word), d: FrameNo)
    requires KernelIn(ram, kdir, refs, low) && Space(kdir, refs, d)
    ensures Low(ram, d) == low == Low(ram, kdir)
  {
    assert Space(kdir, refs, kdir);
  }

  /** A write to anything but a directory, or above the kernel's entries of one. */
  lemma LowWrite(ram: Ram, ram': Ram, kdir: FrameNo, refs: Refs, refs': Refs, low: (Word, Word), g: FrameNo)
    requires KernelIn(ram, kdir, refs, low) && forall f: FrameNo :: f != g ==> ram'[f] == ram[f]
    requires !Space(kdir, refs, g) || Low(ram', g) == Low(ram, g)
    requires forall d: FrameNo :: Space(kdir, refs', d) ==> Space(kdir, refs, d)
    ensures KernelIn(ram', kdir, refs', low)
  {
  }

  /** What a reference names, other than a directory's own, is no directory. */
  lemma NamesNoSpace(m: Mem, refs: Refs, r: Ref)
    requires Wf(m, refs) && r in refs && !r.RDir?
    ensures !Space(m.kdir, refs, refs[r].frame)
  {
    if Space(m.kdir, refs, refs[r].frame) {
      SpacesDiffer(m.kdir, refs, r, refs[r].frame);
    }
  }

  lemma FreeIsNoSpace(m: Mem, refs: Refs, f: FrameNo)
    requires Wf(m, refs) && Managed(m.fr, f) && !m.fr.bits[f - BASE]
    ensures !Space(m.kdir, refs, f)
  {
    FreeFrame(m, refs, f);
    assert RDir(f) in refs ==> Names(RDir(f), refs[RDir(f)]);
  }

  lemma LeftSpaces(refs0: Refs, d: FrameNo, di: nat)
    ensures forall e: FrameNo :: RDir(e) in Left(refs0, d, di + 1, 0) ==> RDir(e) in Left(refs0, d, di, 0)
  {
  }

  lemma LowNew(m: Mem, refs: Refs, d: FrameNo, ram: Ram, refs': Refs, low: (Word, Word))
    requires Wf(m, refs) && Managed(m.fr, d) && !m.fr.bits[d - BASE] && KernelIn(m.ram, m.kdir, refs, low)
    requires refs' == refs[RDir(d) := ZERO.(frame := d)] && Low(ram, d) == Low(m.ram, m.kdir)
    requires forall f: FrameNo :: f != d ==> ram[f] == m.ram[f]
    ensures KernelIn(ram, m.kdir, refs', low)
  {
    hide Wf;
    FreeIsNoSpace(m, refs, d);
    assert Space(m.kdir, refs, m.kdir);
    forall e: FrameNo | Space(m.kdir, refs', e) ensures Low(ram, e) == low {
      if e != d {
        assert Space(m.kdir, refs, e) && Low(m.ram, e) == low && ram[e] == m.ram[e];
      }
    }
  }

  /** A frame nobody had is filled, and perhaps a page table above the kernel's entries changes. */
  lemma LowFill(m: Mem, refs: Refs, f: FrameNo, data: Page, g: FrameNo, i: Index, w: Word, refs': Refs, low: (Word, Word))
    requires Wf(m, refs) && Managed(m.fr, f) && !m.fr.bits[f - BASE] && KernelIn(m.ram, m.kdir, refs, low)
    requires !Space(m.kdir, refs, g) || i >= 2
    requires forall d: FrameNo :: Space(m.kdir, refs', d) ==> Space(m.kdir, refs, d)
    ensures KernelIn(SetEntry(m.ram[f := data], g, i, w), m.kdir, refs', low)
  {
    hide Wf, KernelIn;
    FreeIsNoSpace(m, refs, f);
    LowWrite(m.ram, m.ram[f := data], m.kdir, refs, refs, low, f);
    LowWrite(m.ram[f := data], SetEntry(m.ram[f := data], g, i, w), m.kdir, refs, refs', low, g);
  }

  /** A word of a page table, or of a page, changes. */
  lemma LowEntry(m: Mem, refs: Refs, r: Ref, i: Index, w: Word, refs': Refs, low: (Word, Word))
    requires Wf(m, refs) && r in refs && !r.RDir? && KernelIn(m.ram, m.kdir, refs, low)
    requires forall d: FrameNo :: Space(m.kdir, refs', d) ==> Space(m.kdir, refs, d)
    ensures KernelIn(SetEntry(m.ram, refs[r].frame, i, w), m.kdir, refs', low)
  {
    hide Wf, KernelIn;
    NamesNoSpace(m, refs, r);
    LowWrite(m.ram, SetEntry(m.ram, refs[r].frame, i, w), m.kdir, refs, refs', low, refs[r].frame);
  }

  // ---- how many frames a clone takes ---------------------------------------

  /** The references of `d` a clone has taken a frame for, with tables below `tabs` and pages before (di, ti) done. */
  ghost function Copies(refs: Refs, d: FrameNo, di: nat, ti: nat, tabs: nat, cow: bool): set<Ref> {
    set r | r in refs && (r.RTab? || (r.RLeaf? && !cow)) && r.d == d
            && if r.RTab? then r.di < tabs else r.di < di || (r.di == di && r.ti < ti)
  }

  /** A directory, a table for each table, and for an eager clone a page for each page. */
  ghost function CloneNeed(refs: Refs, d: FrameNo, cow: bool): nat {
    1 + |Copies(refs, d, PAGE_WORDS, 0, PAGE_WORDS, cow)|
  }

  ghost predicate Paced(m0: Mem, refs0: Refs, m: Mem, src: FrameNo, di: nat, ti: nat, tabs: nat, cow: bool) {
    m.fr.used == m0.fr.used + 1 + |Copies(refs0, src, di, ti, tabs, cow)|
  }

  /** The pool ran dry while something was left to copy. */
  ghost predicate CutShort(m0: Mem, refs0: Refs, src: FrameNo, cow: bool) {
    m0.fr.used + CloneNeed(refs0, src, cow) > m0.fr.total
  }

  lemma PaceStart(m: Mem, refs: Refs, d: FrameNo, cow: bool)
    requires Wf(m, refs)
    ensures Copies(refs, d, 2, 0, 2, cow) == {}
  {
    forall r | r in refs && (r.RTab? || r.RLeaf?) ensures r.di >= 2 {
      assert r.RTab? ==> r == RTab(r.d, r.di);
      assert r.RLeaf? ==> r == RLeaf(r.d, r.di, r.ti) && RTab(r.d, r.di) in refs;
    }
  }

  lemma PaceTable(refs: Refs, d: FrameNo, di: Index, cow: bool)
    requires RTab(d, di) in refs
    ensures |Copies(refs, d, di, 0, di + 1, cow)| == |Copies(refs, d, di, 0, di, cow)| + 1
  {
    assert Copies(refs, d, di, 0, di + 1, cow) == Copies(refs, d, di, 0, di, cow) + {RTab(d, di)};
  }

  lemma PaceLeaf(refs: Refs, d: FrameNo, di: Index, ti: Index, cow: bool)
    ensures |Copies(refs, d, di, ti + 1, di + 1, cow)| ==
            |Copies(refs, d, di, ti, di + 1, cow)| + if !cow && RLeaf(d, di, ti) in refs then 1 else 0
  {
    assert Copies(refs, d, di, ti + 1, di + 1, cow) ==
           Copies(refs, d, di, ti, di + 1, cow) + if !cow && RLeaf(d, di, ti) in refs then {RLeaf(d, di, ti)} else {};
  }

  lemma PaceRow(refs: Refs, d: FrameNo, di: Index, cow: bool)
    ensures Copies(refs, d, di, PAGE_WORDS, di + 1, cow) == Copies(refs, d, di + 1, 0, di + 1, cow)
  {
  }

  lemma PaceSkip(m: Mem, refs: Refs, d: FrameNo, di: Index, cow: bool)
    requires Wf(m, refs) && RTab(d, di) !in refs
    ensures Copies(refs, d, di + 1, 0, di + 1, cow) == Copies(refs, d, di, 0, di, cow)
  {
    forall r | r in refs && r.RLeaf? ensures !(r.d == d && r.di == di) {
      assert r == RLeaf(r.d, r.di, r.ti);
    }
  }

  /** Something is left to copy. */
  lemma PaceShort(m0: Mem, refs0: Refs, m: Mem, src: FrameNo, di: Index, ti: nat, tabs: nat, cow: bool, r: Ref)
    requires Paced(m0, refs0, m, src, di, ti, tabs, cow) && m.fr.used == m0.fr.total && tabs <= PAGE_WORDS
    requires r in refs0 && r !in Copies(refs0, src, di, ti, tabs, cow) && r.d == src && (r.RTab? || (r.RLeaf? && !cow))
    ensures CutShort(m0, refs0, src, cow)
  {
    var some, all := Copies(refs0, src, di, ti, tabs, cow), Copies(refs0, src, PAGE_WORDS, 0, PAGE_WORDS, cow);
    SubsetSize(some + {r}, all);
  }

  lemma LeafIsLeft(m0: Mem, refs0: Refs, m: Mem, src: FrameNo, di: Index, ti: Index, cow: bool)
    requires Paced(m0, refs0, m, src, di, ti, di + 1, cow) && m.fr.used == m0.fr.total && RLeaf(src, di, ti) in refs0 && !cow
    ensures CutShort(m0, refs0, src, cow)
  {
    PaceShort(m0, refs0, m, src, di, ti, di + 1, cow, RLeaf(src, di, ti));
  }

  lemma TableIsLeft(m0: Mem, refs0: Refs, m: Mem, src: FrameNo, di: Index, cow: bool)
    requires Paced(m0, refs0, m, src, di, 0, di, cow) && m.fr.used == m0.fr.total && RTab(src, di) in refs0
    ensures CutShort(m0, refs0, src, cow)
  {
    PaceShort(m0, refs0, m, src, di, 0, di, cow, RTab(src, di));
  }

  /** The source has the tables and pages it had. */
  lemma SourceKept(refs0: Refs, refs: Refs, src: FrameNo, dst: FrameNo, cow: bool, r: Ref)
    requires Kept(refs0, refs, src, dst, cow) && src != dst && r.d == src && (r.RTab? || r.RLeaf?)
    ensures r in refs <==> r in refs0
  {
  }

  // ---- how often a shared page can be copied -------------------------------

  /** The owners a frame has beyond the first. */
  ghost function Extra(refs: Refs, f: FrameNo): nat {
    if Owners(refs, f) == {} then 0 else |Owners(refs, f)| - 1
  }

  /** Every copy made is paid for by an owner the frame has lost; no frame gained one. */
  ghost predicate Paid(refs: Refs, copied: multiset<FrameNo>, refs': Refs, copied': multiset<FrameNo>) {
    forall f: FrameNo :: copied'[f] + Extra(refs', f) <= copied[f] + Extra(refs, f)
  }

  lemma PaidTrans(refs0: Refs, copied0: multiset<FrameNo>, refs1: Refs, copied1: multiset<FrameNo>, refs2: Refs, copied2: multiset<FrameNo>)
    requires Paid(refs0, copied0, refs1, copied1) && Paid(refs1, copied1, refs2, copied2)
    ensures Paid(refs0, copied0, refs2, copied2)
  {
    forall f: FrameNo ensures copied2[f] + Extra(refs2, f) <= copied0[f] + Extra(refs0, f) {
      assert copied1[f] + Extra(refs1, f) <= copied0[f] + Extra(refs0, f);
    }
  }

  /** A write fault that copies takes an owner from the frame; one that does not copies nothing. */
  lemma CowPays(refs: Refs, copied: multiset<FrameNo>, refs': Refs, copied': multiset<FrameNo>, r: Ref)
    requires CowTaken(refs, copied, refs', copied', r)
    ensures Paid(refs, copied, refs', copied')
  {
    var f := refs[r].frame;
    assert r in Owners(refs, f);
    if Owners(refs, f) == {r} {
      forall g: FrameNo ensures Owners(refs', g) == Owners(refs, g) {
      }
    } else {
      var f' := refs'[r].frame;
      assert Owners(refs', f) == Owners(refs, f) - {r};
      assert Owners(refs', f) != {} by {
        assert Owners(refs, f) == Owners(refs', f) + {r};
      }
      assert Owners(refs', f') == {r};
      forall g: FrameNo | g != f && g != f' ensures Owners(refs', g) == Owners(refs, g) {
      }
    }
  }

  /** Dropping references copies nothing and gives no frame an owner. */
  lemma DroppingPays(refs: Refs, refs': Refs, copied: multiset<FrameNo>)
    requires forall r :: r in refs' ==> r in refs && refs[r].frame == refs'[r].frame
    ensures Paid(refs, copied, refs', copied)
  {
    forall f: FrameNo ensures Extra(refs', f) <= Extra(refs, f) {
      assert Owners(refs', f) <= Owners(refs, f);
      SubsetSize(Owners(refs', f), Owners(refs, f));
    }
  }

  /** References on frames of their own copy nothing and give no old frame an owner. */
  lemma MappingPays(refs: Refs, refs': Refs, copied: multiset<FrameNo>)
    requires Extends(refs, refs') && forall r :: r in refs' && r !in refs ==> Owners(refs', refs'[r].frame) == {r}
    ensures Paid(refs, copied, refs', copied)
  {
    forall f: FrameNo ensures Extra(refs', f) <= Extra(refs, f) {
      if r :| r in Owners(refs', f) && r !in refs {
        assert Owners(refs', f) == {r};
      } else {
        assert Owners(refs', f) == Owners(refs, f);
      }
    }
  }

  lemma SubsetSize<T>(a: set<T>, b: set<T>)
    requires a <= b
    ensures |a| <= |b|
  {
    assert b == a + (b - a);
  }

  /** Over any stretch without a fork, a frame with k owners is copied at most k - 1 times. */
  lemma CopiesAreBounded(refs: Refs, copied: multiset<FrameNo>, refs': Refs, copied': multiset<FrameNo>, f: FrameNo)
    requires Paid(refs, copied, refs', copied') && Owners(refs, f) != {}
    ensures copied'[f] - copied[f] <= |Owners(refs, f)| - 1
  {
    assert copied'[f] + Extra(refs', f) <= copied[f] + Extra(refs, f);
  }

  // ---- counting what an address space holds --------------------------------

  /** The table and leaf references of `d` before (di, ti). */
  ghost function Held(refs: Refs, d: FrameNo, di: nat, ti: nat): set<Ref> {
    set r | r in refs && Gone(r, d, di, ti)
  }

  lemma HeldStart(m: Mem, refs: Refs, d: FrameNo)
    requires Wf(m, refs)
    ensures Held(refs, d, 2, 0) == {}
  {
    forall r | r in refs ensures !Gone(r, d, 2, 0) {
      assert r.RTab? ==> r == RTab(r.d, r.di);
      assert r.RLeaf? ==> r == RLeaf(r.d, r.di, r.ti) && RTab(r.d, r.di) in refs;
    }
  }

  lemma HeldLeaf(refs: Refs, d: FrameNo, di: Index, ti: Index)
    ensures |Held(refs, d, di, ti + 1)| == |Held(refs, d, di, ti)| + if RLeaf(d, di, ti) in refs then 1 else 0
  {
    assert Held(refs, d, di, ti + 1) == Held(refs, d, di, ti) + if RLeaf(d, di, ti) in refs then {RLeaf(d, di, ti)} else {};
  }

  lemma HeldTable(m: Mem, refs: Refs, d: FrameNo, di: Index)
    requires Wf(m, refs)
    ensures RTab(d, di) in refs ==> |Held(refs, d, di + 1, 0)| == |Held(refs, d, di, PAGE_WORDS)| + 1
    ensures RTab(d, di) !in refs ==> Held(refs, d, di + 1, 0) == Held(refs, d, di, 0)
  {
    if RTab(d, di) in refs {
      assert Held(refs, d, di + 1, 0) == Held(refs, d, di, PAGE_WORDS) + {RTab(d, di)};
    } else {
      forall r | r in refs && r.RLeaf? ensures !(r.d == d && r.di == di) {
        assert r == RLeaf(r.d, r.di, r.ti);
      }
      assert Held(refs, d, di + 1, 0) == Held(refs, d, di, 0);
    }
  }

  lemma EagerCopiesAll(refs: Refs, d: FrameNo)
    ensures CloneNeed(refs, d, false) == 1 + |Held(refs, d, PAGE_WORDS, 0)|
  {
    assert Copies(refs, d, PAGE_WORDS, 0, PAGE_WORDS, false) == Held(refs, d, PAGE_WORDS, 0);
  }

  /** Destroying a private address space takes away one reference for each frame it was holding. */
  lemma HeldAll(refs: Refs, d: FrameNo)
    requires RDir(d) in refs
    ensures |refs| == |Without(refs, d)| + |Held(refs, d, PAGE_WORDS, 0)| + 1
  {
    var held := Held(refs, d, PAGE_WORDS, 0);
    assert refs.Keys == Without(refs, d).Keys + (held + {RDir(d)});
    assert |refs.Keys| == |Without(refs, d).Keys| + |held + {RDir(d)}|;
  }

  class AddressSpaces {
    const pmm: FrameAllocator
    const kdir: FrameNo
    var ram: Ram
    var cr3: FrameNo
    /** The two words of the boot directory that every address space repeats. */
    ghost const low: (Word, Word)
    ghost var refs: Refs
    /** The frames that write faults have duplicated, one occurrence for each copy made. */
    ghost var copied: multiset<FrameNo>

    ghost function M(): Mem
      reads this, pmm, pmm.bitmap, pmm.refcount
      requires pmm.Valid()
    {
      Mem(pmm.State(), ram, kdir)
    }

    ghost predicate Valid()
      reads this, pmm, pmm.bitmap, pmm.refcount
    {
      pmm.Valid() && Wf(M(), refs) && KernelIn(ram, kdir, refs, low)
    }

    /** vmm_install: adopt the boot directory, which maps nothing above 8 MB, over an unused pool. */
    constructor (pmm: FrameAllocator, kdir: FrameNo, ram: Ram)
      requires pmm.Valid() && (forall i :: 0 <= i < pmm.total ==> !pmm.bitmap[i])
      requires 0 < kdir < BASE && forall di: Index :: di >= 2 ==> !ram[kdir][di].present
      ensures Valid() && this.pmm == pmm && this.kdir == kdir && this.ram == ram && cr3 == kdir && refs == map[] && copied == multiset{}
      ensures low == Low(ram, kdir)
    {
      low := (ram[kdir][0], ram[kdir][1]);
      this.pmm, this.kdir, this.ram, this.cr3, this.refs, this.copied := pmm, kdir, ram, kdir, map[], multiset{};
      new;
      EmptyPool(M());
    }

    /** A new address space with no private page, or 0 when no frame is free. */
    method CreateDir() returns (d: nat)
      requires Valid()
      modifies this`ram, this`refs, pmm, pmm.bitmap, pmm.refcount
      ensures Valid() && pmm.total == old(pmm.total)
      ensures pmm.denied == old(pmm.denied) + (if d != 0 then 0 else 1) && pmm.used == old(pmm.used) + if d != 0 then 1 else 0
      ensures d == 0 ==> refs == old(refs) && M() == old(M()) && Exhausted(pmm.State())
      ensures d != 0 ==> d < RAM_FRAMES && !Space(kdir, old(refs), d) && refs == old(refs)[RDir(d) := ZERO.(frame := d)]
      ensures d != 0 ==> SameLooks(old(M()), old(refs), ram)
      ensures d != 0 ==> forall di: Index, ti: Index :: di >= 2 ==> Look(ram, d, di, ti) == None
      ensures d != 0 ==> ram[d][0] == ram[kdir][0] && ram[d][1] == ram[kdir][1]
      ensures d != 0 ==> Lowest(old(pmm.State()), d)
    {
      ghost var m := M();
      d := pmm.Alloc();
      if d == 0 {
        return;
      }
      ram := ram[d := ZeroPage()];
      ram := SetEntry(ram, d, 0, ram[kdir][0]);
      ram := SetEntry(ram, d, 1, ram[kdir][1]);
      refs := refs[RDir(d) := ZERO.(frame := d)];
      NewDir(m, old(refs), d, M(), refs);
      LowNew(m, old(refs), d, ram, refs, low);
    }

    /** The table behind entry di of `d`, made on demand when `create`; 0 if there is none. */
    method TableFor(d: FrameNo, di: Index, create: bool, flags: Word) returns (t: nat)
      requires Valid() && Space(kdir, refs, d) && di >= 2
      modifies this`ram, this`refs, pmm, pmm.bitmap, pmm.refcount
      ensures Valid() && pmm.total == old(pmm.total)
      ensures pmm.denied == old(pmm.denied) + if create && t == 0 then 1 else 0
      ensures pmm.used == old(pmm.used) + if refs == old(refs) then 0 else 1
      ensures t != 0 <==> RTab(d, di) in refs
      ensures t != 0 ==> t < RAM_FRAMES && refs[RTab(d, di)].frame == t
      ensures refs == old(refs) ==> M() == old(M())
      ensures refs != old(refs) ==> create && t != 0 && RTab(d, di) !in old(refs) && refs == old(refs)[RTab(d, di) := Word(t, true, true, flags.user, 0, false, 0)]
      ensures SameLooks(old(M()), old(refs), ram)
      ensures forall f: FrameNo :: f != d && f != t ==> ram[f] == old(ram)[f]
      ensures refs != old(refs) ==> Lowest(old(pmm.State()), t)
      ensures create && t == 0 ==> Exhausted(pmm.State())
      ensures create ==> (t == 0 <==> RTab(d, di) !in old(refs) && Exhausted(old(pmm.State())))
    {
      hide Wf, Ok, KernelIn;
      ghost var m := M();
      Walk(m, refs, d, di, 0);
      if !ram[d][di].present {
        if !create {
          return 0;
        }
        var phys := pmm.Alloc();
        if phys == 0 {
          return 0;
        }
        var w := Word(phys, true, true, flags.user, 0, false, 0);
        ram := ram[phys := ZeroPage()];
        ram := SetEntry(ram, d, di, w);
        refs := refs[RTab(d, di) := w];
        NewTab(m, old(refs), d, di, w, M(), refs);
        LowFill(m, old(refs), phys, ZeroPage(), d, di, w, refs, low);
        return phys;
      }
      assert RTab(d, di) in refs && Managed(pmm.State(), refs[RTab(d, di)].frame);
      return ram[d][di].frame;
    }

    /** A zeroed frame nobody had, held by the caller, or 0 when none is free. */
    method Grab() returns (f: nat)
      requires Valid()
      modifies this`ram, this`refs, pmm, pmm.bitmap, pmm.refcount
      ensures Valid() && pmm.total == old(pmm.total) && SameLooks(old(M()), old(refs), ram)
      ensures f == 0 <==> old(pmm.used) == old(pmm.total)
      ensures f == 0 ==> refs == old(refs) && M() == old(M()) && Exhausted(pmm.State()) && pmm.denied == old(pmm.denied) + 1
      ensures f != 0 ==> f < RAM_FRAMES && ram == old(ram)[f := ZeroPage()]
      ensures f != 0 ==> RHeld(f) !in old(refs) && refs == old(refs)[RHeld(f) := ZERO.(frame := f)]
      ensures f != 0 ==> pmm.used == old(pmm.used) + 1 && pmm.denied == old(pmm.denied)
      ensures f != 0 ==> Lowest(old(pmm.State()), f) && pmm.State() == Take(old(pmm.State()), f)
    {
      hide Wf, SameLooks, Ok, Exhausted, KernelIn;
      ghost var m0, refs0 := M(), refs;
      ExhaustedIff(pmm.State());
      ExhaustedMeans(pmm.State());
      f := pmm.Alloc();
      ExhaustedMeans(pmm.State());
      if f != 0 {
        ram := ram[f := ZeroPage()];
        refs := refs[RHeld(f) := ZERO.(frame := f)];
        NewHeld(m0, refs0, f, M(), refs);
        FreeIsNoSpace(m0, refs0, f);
        LowWrite(m0.ram, ram, kdir, refs0, refs, low, f);
      } else {
        SameIsSameBut(m0, refs0, ram, 0, 0, 0);
      }
    }

    /**
     Back an unmapped page with a zeroed frame. It takes one free frame, two if there is no table yet;
     with just one free frame and no table, that frame is taken and never given back.
     */
    method MapAlloc(d: FrameNo, di: Index, ti: Index, flags: Word) returns (ok: bool)
      requires Valid() && Space(kdir, refs, d) && di >= 2 && RLeaf(d, di, ti) !in refs
      modifies this`ram, this`refs, pmm, pmm.bitmap, pmm.refcount
      ensures Valid() && pmm.total == old(pmm.total) && Extends(old(refs), refs)
      ensures pmm.denied == old(pmm.denied) + if ok then 0 else 1
      ensures forall r :: r in refs && r !in old(refs) ==> r.RHeld? || r == RTab(d, di) || r == RLeaf(d, di, ti)
      ensures ok ==> Look(ram, d, di, ti) == Some(Shown(ZeroPage(), flags.rw || flags.cow, flags.user, flags.low, flags.high))
      ensures ok ==> forall r :: r in refs && r !in old(refs) ==> !r.RHeld?
      ensures forall r :: r in refs && r !in old(refs) ==> Owners(refs, refs[r].frame) == {r}
      ensures ok ==> RLeaf(d, di, ti) in refs && refs[RLeaf(d, di, ti)] == flags.(frame := refs[RLeaf(d, di, ti)].frame, present := true)
      ensures SameLooksBut(old(M()), old(refs), ram, d, di, ti)
      ensures !ok ==> Exhausted(pmm.State()) && SameLooks(old(M()), old(refs), ram) && RLeaf(d, di, ti) !in refs
      ensures Spent(old(pmm.State()), pmm.State(), if RTab(d, di) in old(refs) then 1 else 2, !ok)
      ensures ok ==> Lowest(old(pmm.State()), refs[RLeaf(d, di, ti)].frame)
      ensures ok && RTab(d, di) !in old(refs) ==>
                RTab(d, di) in refs && Second(old(pmm.State()), refs[RLeaf(d, di, ti)].frame, refs[RTab(d, di)].frame)
      ensures !ok ==> if old(pmm.used) < old(pmm.total) then exists f :: Lost(old(refs), refs, f) else refs == old(refs)
    {
      hide Wf, SameLooks, SameLooksBut, Ok, Owners, Exhausted, Look, Lowest, Second, Take, KernelIn;
      ghost var m0, refs0 := M(), refs;
      var phys := Grab();
      ghost var m1, refs1 := M(), refs;
      if phys == 0 {
        SameIsSameBut(m0, refs0, ram, d, di, ti);
        return false;
      }
      ExhaustedIff(pmm.State());
      ok := Map(d, di, ti, phys, flags);
      ExhaustedIff(pmm.State());
      SameLooksButTrans(m0, refs0, m1, refs1, ram, d, di, ti);
      if ok {
        if RTab(d, di) !in refs0 {
          LowestAfter(m0.fr, phys, refs[RTab(d, di)].frame);
        }
      } else {
        SameLooksTrans(m0, refs0, m1, refs1, ram);
        SoleOwner(M(), refs, RHeld(phys));
        assert Lost(refs0, refs, phys);
      }
    }

    /** Enter the frame `phys`, which the caller holds, at an unmapped page. */
    method Map(d: FrameNo, di: Index, ti: Index, phys: FrameNo, flags: Word) returns (ok: bool)
      requires Valid() && Space(kdir, refs, d) && di >= 2 && RLeaf(d, di, ti) !in refs && RHeld(phys) in refs
      modifies this`ram, this`refs, pmm, pmm.bitmap, pmm.refcount
      ensures Valid() && pmm.total == old(pmm.total)
      ensures pmm.denied == old(pmm.denied) + if ok then 0 else 1
      ensures ok ==> Extends(old(refs) - {RHeld(phys)}, refs) && RHeld(phys) !in refs
      ensures ok ==> forall r :: r in refs && r !in old(refs) ==> r == RTab(d, di) || r == RLeaf(d, di, ti)
      ensures ok ==> Look(ram, d, di, ti) == Some(ShownBy(old(ram), flags.(frame := phys)))
      ensures ok ==> RLeaf(d, di, ti) in refs && refs[RLeaf(d, di, ti)] == flags.(frame := phys, present := true)
      ensures ok ==> forall r :: r in refs && r !in old(refs) ==> Owners(refs, refs[r].frame) == {r}
      ensures SameLooksBut(old(M()), old(refs), ram, d, di, ti)
      ensures !ok ==> refs == old(refs) && Exhausted(pmm.State()) && SameLooks(old(M()), old(refs), ram)
      ensures !ok <==> RTab(d, di) !in old(refs) && Exhausted(old(pmm.State()))
      ensures pmm.used == old(pmm.used) + if ok && RTab(d, di) !in old(refs) then 1 else 0
      ensures ok && RTab(d, di) !in old(refs) ==> RTab(d, di) in refs && Lowest(old(pmm.State()), refs[RTab(d, di)].frame)
    {
      hide Wf, SameLooks, SameLooksBut, Ok, Owners, Look, Exhausted, Lowest, KernelIn;
      ghost var m0, refs0 := M(), refs;
      var tab := TableFor(d, di, true, flags);
      ghost var m1, refs1 := M(), refs;
      if tab == 0 {
        SameIsSameBut(m0, refs0, ram, d, di, ti);
        return false;
      }
      var w := flags.(frame := phys, present := true);
      ram := SetEntry(ram, tab, ti, w);
      refs := (refs - {RHeld(phys)})[RLeaf(d, di, ti) := w];
      Enter(m0, refs0, m1, refs1, d, di, ti, w, M(), refs);
      LowEntry(m1, refs1, RTab(d, di), ti, w, refs, low);
      return true;
    }

    /** The frame behind a page, or 0 if it is unmapped. */
    method Translate(d: FrameNo, di: Index, ti: Index) returns (f: nat)
      requires Valid() && Space(kdir, refs, d) && di >= 2
      ensures f != 0 <==> RLeaf(d, di, ti) in refs
      ensures f != 0 ==> f < RAM_FRAMES && Look(ram, d, di, ti).Some? && Look(ram, d, di, ti).value.data == ram[f]
    {
      hide Wf, KernelIn;
      Walk(M(), refs, d, di, ti);
      if !ram[d][di].present {
        return 0;
      }
      var e := ram[ram[d][di].frame][ti];
      return if e.present then e.frame else 0;
    }

    /** Remove a page; its frame goes back to the pool with its last owner. */
    method Unmap(d: FrameNo, di: Index, ti: Index)
      requires Valid() && Space(kdir, refs, d) && di >= 2
      modifies this`ram, this`refs, pmm, pmm.bitmap, pmm.refcount
      ensures Valid() && pmm.total == old(pmm.total) && refs == old(refs) - {RLeaf(d, di, ti)}
      ensures pmm.denied == old(pmm.denied) && pmm.used <= old(pmm.used) <= pmm.used + 1
      ensures RLeaf(d, di, ti) !in old(refs) ==> pmm.used == old(pmm.used)
      ensures Look(ram, d, di, ti) == None && SameLooksBut(old(M()), old(refs), ram, d, di, ti)
    {
      hide Wf, SameLooks, SameLooksBut, Ok, KernelIn;
      ghost var m0 := M();
      Walk(m0, refs, d, di, ti);
      SameIsSameBut(m0, refs, ram, d, di, ti);
      if !ram[d][di].present {
        return;
      }
      var tab := ram[d][di].frame;
      var e := ram[tab][ti];
      if e.present {
        pmm.Free(e.frame);
        ram := SetEntry(ram, tab, ti, ZERO);
        refs := refs - {RLeaf(d, di, ti)};
        UnlinkLeaf(m0, old(refs), d, di, ti, M(), refs);
        LowEntry(m0, old(refs), RTab(d, di), ti, ZERO, refs, low);
      }
    }

    /** A write fault on a copy-on-write page: the last owner gets write permission back, any other a copy of its own. */
    method CowHandle(di: Index, ti: Index, write: bool) returns (handled: bool)
      requires Valid() && Space(kdir, refs, cr3) && di >= 2
      modifies this`ram, this`refs, this`copied, pmm, pmm.bitmap, pmm.refcount
      ensures Valid() && pmm.total == old(pmm.total)
      ensures pmm.denied == old(pmm.denied) + if !handled && write && RLeaf(cr3, di, ti) in old(refs) && old(refs)[RLeaf(cr3, di, ti)].cow then 1 else 0
      ensures SameLooks(old(M()), old(refs), ram)
      ensures handled ==> write && CowTaken(old(refs), old(copied), refs, copied, RLeaf(cr3, di, ti))
      ensures handled && refs[RLeaf(cr3, di, ti)].frame == old(refs)[RLeaf(cr3, di, ti)].frame ==> pmm.State() == old(pmm.State())
      ensures !handled ==> refs == old(refs) && copied == old(copied) && M() == old(M())
      ensures handled <==> write && RLeaf(cr3, di, ti) in old(refs) && old(refs)[RLeaf(cr3, di, ti)].cow
                           && (Sole(old(refs), RLeaf(cr3, di, ti)) || !Exhausted(old(pmm.State())))
      ensures Sole(old(refs), RLeaf(cr3, di, ti)) ==> pmm.State() == old(pmm.State())
      ensures pmm.used == old(pmm.used) + if handled && !Sole(old(refs), RLeaf(cr3, di, ti)) then 1 else 0
    {
      hide Wf, SameLooks, Ok, KernelIn;
      ghost var m0, r := M(), RLeaf(cr3, di, ti);
      Walk(m0, refs, cr3, di, ti);
      SameIsSameBut(m0, refs, ram, cr3, di, ti);
      if !write || !ram[cr3][di].present {
        return false;
      }
      var tab := ram[cr3][di].frame;
      var e := ram[tab][ti];
      if !e.present || !e.cow {
        return false;
      }
      var flags := e.(cow := false, rw := true);
      var owners := pmm.GetRefcount(e.frame);
      LastOwner(m0, refs, r);
      if owners <= 1 {
        ram := SetEntry(ram, tab, ti, flags);
        refs := refs[r := flags];
        Reflag(m0, old(refs), cr3, di, ti, flags, M(), refs);
        LowEntry(m0, old(refs), RTab(cr3, di), ti, flags, refs, low);
        return true;
      }
      handled := Duplicate(di, ti, tab, e, flags);
    }

    /** Still shared: the writer's entry moves to a copy of the frame, which loses one owner. */
    method Duplicate(di: Index, ti: Index, tab: FrameNo, e: Word, flags: Word) returns (ok: bool)
      requires Valid() && Space(kdir, refs, cr3) && di >= 2 && RLeaf(cr3, di, ti) in refs && refs[RLeaf(cr3, di, ti)] == e && e.cow
      requires ram[cr3][di].present && tab == ram[cr3][di].frame && flags == e.(cow := false, rw := true)
      requires Owners(refs, e.frame) != {RLeaf(cr3, di, ti)}
      modifies this`ram, this`refs, this`copied, pmm, pmm.bitmap, pmm.refcount
      ensures Valid() && pmm.total == old(pmm.total) && pmm.denied == old(pmm.denied) + if ok then 0 else 1
      ensures SameLooks(old(M()), old(refs), ram)
      ensures ok ==> CowTaken(old(refs), old(copied), refs, copied, RLeaf(cr3, di, ti))
      ensures ok ==> refs[RLeaf(cr3, di, ti)].frame != e.frame
      ensures !ok ==> refs == old(refs) && copied == old(copied) && M() == old(M())
      ensures ok <==> !Exhausted(old(pmm.State()))
      ensures pmm.used == old(pmm.used) + if ok then 1 else 0
    {
      hide Wf, SameLooks, Ok, Owners, KernelIn;
      ghost var m0, r := M(), RLeaf(cr3, di, ti);
      Walk(m0, refs, cr3, di, ti);
      SameIsSameBut(m0, refs, ram, cr3, di, ti);
      var copy := pmm.Alloc();
      if copy == 0 {
        return false;
      }
      ram := ram[copy := ram[e.frame]];
      SplitUses(m0, refs, r, copy);
      pmm.Free(e.frame);
      ram := SetEntry(ram, tab, ti, flags.(frame := copy));
      refs := refs[r := flags.(frame := copy)];
      copied := copied + multiset{e.frame};
      SplitLeaf(m0, old(refs), cr3, di, ti, flags.(frame := copy), M(), refs);
      NamesNoSpace(m0, old(refs), RTab(cr3, di));
      LowFill(m0, old(refs), copy, m0.ram[e.frame], tab, ti, flags.(frame := copy), refs, low);
      return true;
    }

    /** Free every page of the table behind entry di of `d`, then the table. */
    method FreeTableOf(d: FrameNo, di: Index, ghost refs0: Refs)
      requires Valid() && Space(kdir, refs, d) && di >= 2 && refs == Left(refs0, d, di, 0) && ram[d][di].present
      modifies this`ram, this`refs, pmm, pmm.bitmap, pmm.refcount
      ensures Valid() && pmm.total == old(pmm.total) && refs == Left(refs0, d, di + 1, 0)
      ensures pmm.denied == old(pmm.denied)
      ensures OthersSame(old(M()), old(refs), ram, d)
    {
      hide Wf, Ok, OthersSame, Partway, Left, KernelIn;
      ghost var m0 := M();
      var tab := ram[d][di].frame;
      ghost var g := m0;
      PartwayStart(m0, refs0, d, di);
      var ti := 0;
      while ti < PAGE_WORDS
        invariant 0 <= ti <= PAGE_WORDS
        invariant pmm.Valid() && pmm.total == old(pmm.total) && pmm.denied == old(pmm.denied) && ram == old(ram)
        invariant refs == Left(refs0, d, di, ti)
        invariant g.fr == pmm.State() && Partway(m0, g, refs0, d, di, ti)
      {
        ghost var m1 := g;
        if ram[tab][ti].present {
          pmm.Free(ram[tab][ti].frame);
          g := g.(fr := pmm.State(), ram := SetEntry(g.ram, tab, ti, ZERO));
        }
        PartwayNext(m0, m1, refs0, d, di, ti, g);
        refs := Left(refs0, d, di, ti + 1);
        ti := ti + 1;
      }
      pmm.Free(ram[d][di].frame);
      ram := SetEntry(ram, d, di, ZERO);
      PartwayDone(m0, g, refs0, d, di, M());
      refs := Left(refs0, d, di + 1, 0);
      LeftSpaces(refs0, d, di);
      LowWrite(m0.ram, ram, kdir, old(refs), refs, low, d);
    }

    /** Give back every frame an address space holds: its pages, its tables and its directory. */
    method DestroyDir(d: nat)
      requires Valid() && d < RAM_FRAMES && (d == 0 || Space(kdir, refs, d))
      modifies this`ram, this`refs, pmm, pmm.bitmap, pmm.refcount
      ensures Valid() && pmm.total == old(pmm.total)
      ensures pmm.denied == old(pmm.denied)
      ensures d == 0 || d == kdir ==> refs == old(refs) && M() == old(M())
      ensures d != 0 && d != kdir ==> refs == Without(old(refs), d) && OthersSame(old(M()), old(refs), ram, d)
    {
      hide Wf, Ok, OthersSame, Left, Without, KernelIn;
      if d == 0 || d == kdir {
        return;
      }
      ghost var m0, refs0 := M(), refs;
      LeftAll(m0, refs0, d);
      OthersSameRefl(m0, refs, d);
      var di := 2;
      while di < PAGE_WORDS
        invariant 2 <= di <= PAGE_WORDS
        invariant Valid() && pmm.total == old(pmm.total) && pmm.denied == old(pmm.denied)
        invariant refs == Left(refs0, d, di, 0) && RDir(d) in refs
        invariant OthersSame(m0, refs0, ram, d)
      {
        ghost var m1, refs1 := M(), refs;
        Walk(m1, refs, d, di, 0);
        DirsLeft(refs0, d, di);
        DirsLeft(refs0, d, di + 1);
        if ram[d][di].present {
          FreeTableOf(d, di, refs0);
          OthersSameStep(m0, refs0, m1, refs1, ram, d);
        } else {
          SkipTable(m1, refs0, d, di);
        }
        di := di + 1;
      }
      ghost var m1, refs1 := M(), refs;
      NothingLeft(refs0, d);
      pmm.Free(d);
      refs := Without(refs0, d);
      UnlinkDir(m1, refs1, d, M(), refs);
      LowWrite(m1.ram, ram, kdir, refs1, refs, low, d);
    }

    /** One directory entry of a clone: a table of its own, then its pages. */
    method CloneTable(src: FrameNo, dst: FrameNo, di: Index, cow: bool, ghost m0: Mem, ghost refs0: Refs) returns (ok: bool)
      requires Valid() && di >= 2 && ram[src][di].present && Cloning(m0, refs0, M(), refs, src, dst, di, 0, di, cow)
      requires Paced(m0, refs0, M(), src, di, 0, di, cow)
      modifies this`ram, this`refs, pmm, pmm.bitmap, pmm.refcount
      ensures Valid() && pmm.total == old(pmm.total)
      ensures pmm.denied == old(pmm.denied) + if ok then 0 else 1
      ensures ok ==> Cloning(m0, refs0, M(), refs, src, dst, di + 1, 0, di + 1, cow) && Paced(m0, refs0, M(), src, di + 1, 0, di + 1, cow)
      ensures !ok ==> Kept(refs0, refs, src, dst, cow) && SameLooks(m0, refs0, ram) && RDir(dst) in refs && CutShort(m0, refs0, src, cow)
    {
      hide Wf, SameLooks, SameLooksBut, Ok, Kept, CopiedUpTo, Pending, Mirror, Copies, CutShort, Exhausted, KernelIn;
      ghost var m1, refs1 := M(), refs;
      CloneTables(m0, refs0, m1, refs, src, dst, di, 0, di, cow);
      SourceKept(refs0, refs, src, dst, cow, RTab(src, di));
      PaceTable(refs0, src, di, cow);
      ExhaustedIff(m1.fr);
      ExhaustedMeans(m1.fr);
      var tab := pmm.Alloc();
      if tab == 0 {
        TableIsLeft(m0, refs0, m1, src, di, cow);
        return false;
      }
      var w := ram[src][di].(frame := tab);
      ram := ram[tab := ZeroPage()];
      ram := SetEntry(ram, dst, di, w);
      refs := refs[RTab(dst, di) := w];
      NewTab(m1, refs1, dst, di, w, M(), refs);
      LowFill(m1, refs1, tab, ZeroPage(), dst, di, w, refs, low);
      CloneNewTable(m0, refs0, m1, refs1, src, dst, di, cow, w, M(), refs);
      CloneTables(m0, refs0, M(), refs, src, dst, di, 0, di + 1, cow);
      ok := ClonePages(src, dst, di, cow, m0, refs0);
    }

    /** The pages of one table: shared read-only with a count each, or copied into a frame each. */
    method ClonePages(src: FrameNo, dst: FrameNo, di: Index, cow: bool, ghost m0: Mem, ghost refs0: Refs) returns (ok: bool)
      requires Valid() && di >= 2 && ram[src][di].present && RTab(dst, di) in refs
      requires Cloning(m0, refs0, M(), refs, src, dst, di, 0, di + 1, cow) && Paced(m0, refs0, M(), src, di, 0, di + 1, cow)
      modifies this`ram, this`refs, pmm, pmm.bitmap, pmm.refcount
      ensures Valid() && pmm.total == old(pmm.total)
      ensures pmm.denied == old(pmm.denied) + if ok then 0 else 1
      ensures ok ==> Cloning(m0, refs0, M(), refs, src, dst, di + 1, 0, di + 1, cow) && Paced(m0, refs0, M(), src, di + 1, 0, di + 1, cow)
      ensures !ok ==> Kept(refs0, refs, src, dst, cow) && SameLooks(m0, refs0, ram) && RDir(dst) in refs && CutShort(m0, refs0, src, cow)
    {
      hide Wf, SameLooks, SameLooksBut, Ok, Kept, CopiedUpTo, Pending, Mirror, Copies, CutShort, KernelIn;
      CloneTables(m0, refs0, M(), refs, src, dst, di, 0, di + 1, cow);
      var srcTab, dstTab := ram[src][di].frame, ram[dst][di].frame;
      var ti := 0;
      while ti < PAGE_WORDS
        invariant 0 <= ti <= PAGE_WORDS
        invariant Valid() && pmm.total == old(pmm.total) && pmm.denied == old(pmm.denied)
        invariant Cloning(m0, refs0, M(), refs, src, dst, di, ti, di + 1, cow) && Paced(m0, refs0, M(), src, di, ti, di + 1, cow)
        invariant ram[src][di].present && ram[src][di].frame == srcTab
        invariant RTab(dst, di) in refs && ram[dst][di].frame == dstTab
      {
        ghost var m1, refs1 := M(), refs;
        CloneTables(m0, refs0, m1, refs, src, dst, di, ti, di + 1, cow);
        Walk(m1, refs, src, di, ti);
        SourceKept(refs0, refs, src, dst, cow, RLeaf(src, di, ti));
        PaceLeaf(refs0, src, di, ti, cow);
        var e := ram[srcTab][ti];
        if !e.present {
          CloneSkip(m0, refs0, m1, refs, src, dst, di, ti, cow);
        } else if cow {
          SharePageAt(src, dst, di, ti, m0, refs0);
        } else {
          var copied := CopyPageAt(src, dst, di, ti, m0, refs0);
          if !copied {
            LeafIsLeft(m0, refs0, m1, src, di, ti, cow);
            return false;
          }
        }
        ti := ti + 1;
      }
      CloneTableDone(m0, refs0, M(), refs, src, dst, di, cow);
      PaceRow(refs0, src, di, cow);
      return true;
    }

    method SharePageAt(src: FrameNo, dst: FrameNo, di: Index, ti: Index, ghost m0: Mem, ghost refs0: Refs)
      requires Valid() && di >= 2 && RTab(src, di) in refs && RTab(dst, di) in refs && RLeaf(src, di, ti) in refs
      requires Cloning(m0, refs0, M(), refs, src, dst, di, ti, di + 1, true)
      modifies this`ram, this`refs, pmm, pmm.bitmap, pmm.refcount
      ensures Valid() && pmm.total == old(pmm.total)
      ensures pmm.denied == old(pmm.denied) && pmm.used == old(pmm.used)
      ensures Cloning(m0, refs0, M(), refs, src, dst, di, ti + 1, di + 1, true)
      ensures ram[src][di] == old(ram)[src][di] && ram[dst][di] == old(ram)[dst][di] && RTab(dst, di) in refs
    {
      hide Wf, SameLooks, SameLooksBut, Ok, Kept, CopiedUpTo, Pending, Mirror, KernelIn;
      ghost var m1, refs1 := M(), refs;
      CloneTables(m0, refs0, m1, refs, src, dst, di, ti, di + 1, true);
      Walk(m1, refs, src, di, ti);
      var srcTab, dstTab := ram[src][di].frame, ram[dst][di].frame;
      var e := ram[srcTab][ti];
      var shared := SharedWord(e);
      ram := SetEntry(ram, srcTab, ti, shared);
      ram := SetEntry(ram, dstTab, ti, shared);
      pmm.Incref(e.frame);
      refs := refs[RLeaf(src, di, ti) := shared][RLeaf(dst, di, ti) := shared];
      NamesNoSpace(m1, refs1, RTab(src, di));
      NamesNoSpace(m1, refs1, RTab(dst, di));
      LowWrite(m1.ram, SetEntry(m1.ram, srcTab, ti, shared), kdir, refs1, refs1, low, srcTab);
      LowWrite(SetEntry(m1.ram, srcTab, ti, shared), ram, kdir, refs1, refs, low, dstTab);
      ShareStep(m0, refs0, m1, refs1, src, dst, di, ti, shared, M(), refs);
    }

    method CopyPageAt(src: FrameNo, dst: FrameNo, di: Index, ti: Index, ghost m0: Mem, ghost refs0: Refs) returns (ok: bool)
      requires Valid() && di >= 2 && RTab(src, di) in refs && RTab(dst, di) in refs && RLeaf(src, di, ti) in refs
      requires Cloning(m0, refs0, M(), refs, src, dst, di, ti, di + 1, false)
      modifies this`ram, this`refs, pmm, pmm.bitmap, pmm.refcount
      ensures Valid() && pmm.total == old(pmm.total)
      ensures pmm.denied == old(pmm.denied) + if ok then 0 else 1
      ensures ok ==> Cloning(m0, refs0, M(), refs, src, dst, di, ti + 1, di + 1, false)
      ensures ok ==> ram[src][di] == old(ram)[src][di] && ram[dst][di] == old(ram)[dst][di] && RTab(dst, di) in refs
      ensures !ok ==> refs == old(refs) && M() == old(M())
      ensures if ok then pmm.used == old(pmm.used) + 1 else pmm.used == pmm.total
    {
      hide Wf, SameLooks, SameLooksBut, Ok, Kept, CopiedUpTo, Pending, Mirror, Exhausted, KernelIn;
      ExhaustedIff(pmm.State());
      ExhaustedMeans(pmm.State());
      ghost var m1, refs1 := M(), refs;
      CloneTables(m0, refs0, m1, refs, src, dst, di, ti, di + 1, false);
      Walk(m1, refs, src, di, ti);
      var e := ram[ram[src][di].frame][ti];
      var frame := pmm.Alloc();
      if frame == 0 {
        return false;
      }
      var dstTab := ram[dst][di].frame;
      ram := ram[frame := ram[e.frame]];
      ram := SetEntry(ram, dstTab, ti, e.(frame := frame));
      refs := refs[RLeaf(dst, di, ti) := e.(frame := frame)];
      NewLeaf(m1, refs1, dst, di, ti, m1.ram[e.frame], e.(frame := frame), M(), refs);
      NamesNoSpace(m1, refs1, RTab(dst, di));
      LowFill(m1, refs1, frame, m1.ram[e.frame], dstTab, ti, e.(frame := frame), refs, low);
      CloneAdvance(m0, refs0, m1, refs1, src, dst, di, ti, false, M(), refs);
      CloneTables(m0, refs0, M(), refs, src, dst, di, ti + 1, di + 1, false);
      return true;
    }

    /** vmm_clone_dir and vmm_clone_cow differ only in what they do with a page. */
    method Clone(src: nat, cow: bool) returns (dst: nat)
      requires Valid() && src < RAM_FRAMES && (src == 0 || Space(kdir, refs, src)) && (cow ==> |DirRefs(refs)| < MAX_REFS - 2)
      modifies this`ram, this`refs, pmm, pmm.bitmap, pmm.refcount
      ensures Valid() && pmm.total == old(pmm.total)
      ensures pmm.denied == old(pmm.denied) + if dst == 0 && src != 0 then 1 else 0
      ensures src == 0 ==> dst == 0
      ensures dst == 0 && src != 0 ==> CloneRefused(old(M()), old(refs), M(), refs, src, cow)
      ensures dst != 0 ==> dst < RAM_FRAMES && Cloned(old(M()), old(refs), M(), refs, src, dst, cow)
      ensures dst != 0 ==> Lowest(old(pmm.State()), dst)
      ensures dst != 0 ==> Low(ram, dst) == Low(old(ram), kdir) == Low(ram, kdir)
      ensures src != 0 ==> (dst != 0 <==> old(pmm.used) + CloneNeed(old(refs), src, cow) <= pmm.total)
      ensures dst != 0 ==> pmm.used == old(pmm.used) + CloneNeed(old(refs), src, cow)
    {
      hide Wf, SameLooks, Ok, Kept, CopiedUpTo, Pending, Mirror, OthersSame, CloneRefused, Copies, Exhausted, KernelIn;
      if src == 0 {
        return 0;
      }
      ghost var m0, refs0 := M(), refs;
      ExhaustedIff(m0.fr);
      LowOf(ram, kdir, refs, low, src);
      dst := CreateDir();
      if dst == 0 {
        NothingRefused(m0, refs0, src, cow);
        return 0;
      }
      PaceStart(m0, refs0, src, cow);
      CloneStart(m0, refs0, M(), refs, src, dst, cow);
      var di := 2;
      while di < PAGE_WORDS
        invariant 2 <= di <= PAGE_WORDS
        invariant Valid() && pmm.total == old(pmm.total) && pmm.denied == old(pmm.denied)
        invariant Cloning(m0, refs0, M(), refs, src, dst, di, 0, di, cow) && Paced(m0, refs0, M(), src, di, 0, di, cow)
      {
        if ram[src][di].present {
          var ok := CloneTable(src, dst, di, cow, m0, refs0);
          if !ok {
            ghost var m1, refs1 := M(), refs;
            SpaceIsManaged(m1, refs1, dst);
            DestroyDir(dst);
            CloneIsRefused(m0, refs0, m1, refs1, M(), refs, src, dst, cow);
            return 0;
          }
        } else {
          CloneTables(m0, refs0, M(), refs, src, dst, di, 0, di, cow);
          SourceKept(refs0, refs, src, dst, cow, RTab(src, di));
          PaceSkip(m0, refs0, src, di, cow);
          CloneSkipTable(m0, refs0, M(), refs, src, dst, di, cow);
        }
        di := di + 1;
      }
      CloneComplete(m0, refs0, M(), refs, src, dst, cow);
      LowOf(ram, kdir, refs, low, dst);
      ExhaustedIff(pmm.State());
    }

    /** vmm_dir_frames: the directory, its tables and its pages, one for each reference the address space holds. */
    method DirFrames(d: nat) returns (n: nat)
      requires Valid() && d < RAM_FRAMES && (d == 0 || Space(kdir, refs, d))
      ensures d == 0 ==> n == 0
      ensures d != 0 ==> n == 1 + |Held(refs, d, PAGE_WORDS, 0)|
      ensures d != 0 && d != kdir ==> n == |refs| - |Without(refs, d)|
      ensures d != 0 ==> n == CloneNeed(refs, d, false)
    {
      hide Wf, Held, Ok, KernelIn;
      if d == 0 {
        return 0;
      }
      n := 1;
      HeldStart(M(), refs, d);
      var di := 2;
      while di < PAGE_WORDS
        invariant 2 <= di <= PAGE_WORDS && n == 1 + |Held(refs, d, di, 0)|
      {
        Walk(M(), refs, d, di, 0);
        HeldTable(M(), refs, d, di);
        if ram[d][di].present {
          n := n + 1;
          var tab := ram[d][di].frame;
          var ti := 0;
          while ti < PAGE_WORDS
            invariant 0 <= ti <= PAGE_WORDS && n == 2 + |Held(refs, d, di, ti)|
          {
            Walk(M(), refs, d, di, ti);
            HeldLeaf(refs, d, di, ti);
            if ram[tab][ti].present {
              n := n + 1;
            }
            ti := ti + 1;
          }
        }
        di := di + 1;
      }
      EagerCopiesAll(refs, d);
      if d != kdir {
        HeldAll(refs, d);
      }
    }
  }

  /** A pool of one frame: backing the first page above 8 MB fails for want of a table, and the frame is gone for good. */
  method FrameLost(kdir: FrameNo, ram: Ram, flags: Word) returns (vmm: AddressSpaces, ok: bool)
    requires 0 < kdir < BASE && forall di: Index :: di >= 2 ==> !ram[kdir][di].present
    ensures !ok && vmm.Valid() && vmm.pmm.total == 1 && vmm.pmm.used == 1
    ensures exists f :: vmm.refs.Keys == {RHeld(f)}
  {
    hide Wf;
    var pmm := new FrameAllocator(BASE * 4096 + 4096);
    vmm := new AddressSpaces(pmm, kdir, ram);
    ok := vmm.MapAlloc(kdir, 2, 0, flags);
    ExhaustedIff(pmm.State());
  }

  /** A pool of two frames: the kernel maps a page and unmaps it, and the table stays. */
  method TableStays(kdir: FrameNo, ram: Ram, flags: Word) returns (vmm: AddressSpaces, ok: bool)
    requires 0 < kdir < BASE && forall di: Index :: di >= 2 ==> !ram[kdir][di].present
    ensures ok && vmm.Valid() && vmm.refs.Keys == {RTab(kdir, 2)} && vmm.pmm.used > 0
  {
    hide Wf, Ok, SameLooksBut, Owners, Look;
    var pmm := new FrameAllocator(BASE * 4096 + 8192);
    vmm := new AddressSpaces(pmm, kdir, ram);
    ok := vmm.MapAlloc(kdir, 2, 0, flags);
    Walk(vmm.M(), vmm.refs, kdir, 2, 0);
    vmm.Unmap(kdir, 2, 0);
    SomeRefSomeFrame(vmm.M(), vmm.refs, RTab(kdir, 2));
  }
}
