/**
 Who owns each physical frame, and the invariant that ties owners to memory.

 The kernel keeps no list of owners; the invariant keeps one for it. `Refs` maps
 every live reference (a directory, a table entered in a directory, a leaf entry
 of a table, or a frame the kernel has allocated but not linked) to the word
 that names its frame. `Wf` says that these words are exactly the present
 entries in RAM, that tables and writable pages have a single reference, and
 that the counts of the allocator are the sizes of the reference sets.
 */
module Ownership {
  import opened Words
  import opened Pmm

  datatype Ref = RDir(d: FrameNo) | RTab(d: FrameNo, di: Index) | RLeaf(d: FrameNo, di: Index, ti: Index) | RHeld(d: FrameNo)

  type Refs = map<Ref, Word>

  datatype Mem = Mem(fr: Frames, ram: Ram, kdir: FrameNo)

  datatype Option<T> = None | Some(value: T)

  /** What an address space shows at one page: its bytes and the rights a fault handler would grant. */
  datatype Shown = Shown(data: Page, writable: bool, user: bool, low: nat, high: nat)

  function ShownBy(ram: Ram, e: Word): Shown {
    Shown(ram[e.frame], e.rw || e.cow, e.user, e.low, e.high)
  }

  /** The table entry reached through directory entry di of `d`. */
  function Leaf(ram: Ram, d: FrameNo, di: Index, ti: Index): Word {
    if ram[d][di].present then ram[ram[d][di].frame][ti] else ZERO
  }

  /** The page at (di, ti) of address space `d`, as the two-level walk finds it. */
  function Look(ram: Ram, d: FrameNo, di: Index, ti: Index): Option<Shown> {
    var e := Leaf(ram, d, di, ti);
    if e.present then Some(ShownBy(ram, e)) else None
  }

  ghost predicate Space(kdir: FrameNo, refs: Refs, d: FrameNo) {
    d == kdir || RDir(d) in refs
  }

  // ---- the invariant -------------------------------------------------------

  /** The table references are the present private directory entries. */
  ghost predicate TabsMatch(ram: Ram, kdir: FrameNo, refs: Refs) {
    && (forall d: FrameNo, di: Index :: Space(kdir, refs, d) && di >= 2 && ram[d][di].present ==>
          RTab(d, di) in refs && refs[RTab(d, di)] == ram[d][di])
    && (forall d: FrameNo, di: Index :: RTab(d, di) in refs ==> Space(kdir, refs, d) && di >= 2 && ram[d][di].present)
  }

  /** The leaf references are the present entries of those tables. */
  ghost predicate LeavesMatch(ram: Ram, refs: Refs) {
    && (forall d: FrameNo, di: Index, ti: Index :: RTab(d, di) in refs && ram[refs[RTab(d, di)].frame][ti].present ==>
          RLeaf(d, di, ti) in refs && refs[RLeaf(d, di, ti)] == ram[refs[RTab(d, di)].frame][ti])
    && (forall d: FrameNo, di: Index, ti: Index :: RLeaf(d, di, ti) in refs ==>
          RTab(d, di) in refs && ram[refs[RTab(d, di)].frame][ti].present)
  }

  /** References whose frame nobody else may name. */
  ghost predicate Exclusive(refs: Refs, r: Ref)
    requires r in refs
  {
    r.RLeaf? ==> refs[r].rw
  }

  ghost function Owners(refs: Refs, f: FrameNo): set<Ref> {
    set r | r in refs && refs[r].frame == f
  }

  ghost predicate SoleOwners(refs: Refs) {
    forall r {:trigger Exclusive(refs, r)} :: r in refs && Exclusive(refs, r) ==> Owners(refs, refs[r].frame) == {r}
  }

  /** Two leaf entries of one address space that name the same frame. */
  ghost predicate Twins(refs: Refs, r: Ref, s: Ref) {
    r in refs && s in refs && r.RLeaf? && s.RLeaf? && r.d == s.d && refs[r].frame == refs[s].frame
  }

  ghost predicate OncePerSpace(refs: Refs) {
    forall r, s :: Twins(refs, r, s) ==> r == s
  }

  ghost predicate Names(r: Ref, w: Word) {
    (r.RDir? || r.RHeld? ==> w.frame == r.d) && (r.RTab? ==> w.rw)
  }

  /** Directories and held frames name themselves; tables are always writable to the walk. */
  ghost predicate Typed(refs: Refs) {
    forall r :: r in refs ==> Names(r, refs[r])
  }

  ghost predicate CountsExact(fr: Frames, refs: Refs) {
    && Ok(fr)
    && (forall r :: r in refs ==> Managed(fr, refs[r].frame))
    && (forall f: FrameNo :: Managed(fr, f) ==> fr.rc[f - BASE] == |Owners(refs, f)|)
  }

  ghost predicate Graph(refs: Refs) {
    SoleOwners(refs) && OncePerSpace(refs) && Typed(refs)
  }

  ghost predicate Wf(m: Mem, refs: Refs) {
    && 0 < m.kdir < BASE
    && TabsMatch(m.ram, m.kdir, refs)
    && LeavesMatch(m.ram, refs)
    && Graph(refs)
    && CountsExact(m.fr, refs)
  }

  /** Every address space of `m` shows the same pages in `ram`. */
  ghost predicate SameLooks(m: Mem, refs: Refs, ram: Ram) {
    forall d: FrameNo, di: Index, ti: Index :: Space(m.kdir, refs, d) && di >= 2 ==>
      Look(ram, d, di, ti) == Look(m.ram, d, di, ti)
  }

  /** As SameLooks, except at one page. */
  ghost predicate SameLooksBut(m: Mem, refs: Refs, ram: Ram, d: FrameNo, di: Index, ti: Index) {
    forall d': FrameNo, di': Index, ti': Index :: Space(m.kdir, refs, d') && di' >= 2 && (d', di', ti') != (d, di, ti) ==>
      Look(ram, d', di', ti') == Look(m.ram, d', di', ti')
  }

  // ---- counting references -------------------------------------------------

  lemma CountAdd(fr: Frames, refs: Refs, r: Ref, w: Word, fr': Frames)
    requires CountsExact(fr, refs) && r !in refs && Managed(fr, w.frame)
    requires Ok(fr') && fr'.total == fr.total && fr'.rc == fr.rc[w.frame - BASE := fr.rc[w.frame - BASE] + 1]
    ensures CountsExact(fr', refs[r := w])
  {
    var refs' := refs[r := w];
    assert Owners(refs', w.frame) == Owners(refs, w.frame) + {r};
    forall g: FrameNo | g != w.frame ensures Owners(refs', g) == Owners(refs, g) {
    }
  }

  lemma CountShare(fr: Frames, refs: Refs, r: Ref, s: Ref)
    requires CountsExact(fr, refs) && r in refs && s !in refs && Refcount(fr, refs[r].frame) < MAX_REFS
    ensures CountsExact(Share(fr, refs[r].frame), refs[s := refs[r]])
  {
    var f := refs[r].frame;
    assert r in Owners(refs, f);
    ShareKeepsOk(fr, f);
    CountAdd(fr, refs, s, refs[r], Share(fr, f));
  }

  lemma CountDrop(fr: Frames, refs: Refs, r: Ref, fr': Frames)
    requires CountsExact(fr, refs) && r in refs
    requires fr' == Release(fr, refs[r].frame)
    ensures CountsExact(fr', refs - {r})
  {
    var f, refs' := refs[r].frame, refs - {r};
    assert r in Owners(refs, f);
    ReleaseKeepsOk(fr, f);
    assert Owners(refs', f) == Owners(refs, f) - {r};
    forall g: FrameNo | g != f ensures Owners(refs', g) == Owners(refs, g) {
    }
  }

  lemma CountRename(fr: Frames, refs: Refs, r: Ref, s: Ref, w: Word)
    requires CountsExact(fr, refs) && r in refs && s !in refs && w.frame == refs[r].frame
    ensures CountsExact(fr, (refs - {r})[s := w])
  {
    var refs' := (refs - {r})[s := w];
    assert Owners(refs', w.frame) == Owners(refs, w.frame) - {r} + {s};
    forall g: FrameNo | g != w.frame ensures Owners(refs', g) == Owners(refs, g) {
    }
  }

  /** Changing the flags of an entry changes no owner. */
  lemma CountReflag(fr: Frames, refs: Refs, r: Ref, w: Word)
    requires CountsExact(fr, refs) && r in refs && w.frame == refs[r].frame
    ensures CountsExact(fr, refs[r := w])
  {
    forall g: FrameNo ensures Owners(refs[r := w], g) == Owners(refs, g) {
    }
  }

  lemma FreeMeansUnowned(fr: Frames, refs: Refs, f: FrameNo)
    requires CountsExact(fr, refs) && Managed(fr, f) && !fr.bits[f - BASE]
    ensures forall r :: r in refs ==> refs[r].frame != f
  {
    forall r | r in refs ensures refs[r].frame != f {
      assert r in Owners(refs, refs[r].frame);
    }
  }

  ghost function DirRefs(refs: Refs): set<Ref> {
    set r | r in refs && r.RDir?
  }

  lemma {:induction false} InjectIntoSpaces(leaves: set<Ref>, spaces: set<Ref>)
    requires forall r :: r in leaves ==> RDir(r.d) in spaces
    requires forall r, s :: r in leaves && s in leaves && r.d == s.d ==> r == s
    ensures |leaves| <= |spaces|
  {
    if leaves != {} {
      var r :| r in leaves;
      InjectIntoSpaces(leaves - {r}, spaces - {RDir(r.d)});
    }
  }

  /** A frame has at most one owner per address space, so the 8-bit counter has room. */
  lemma OwnersBound(ram: Ram, kdir: FrameNo, refs: Refs, f: FrameNo)
    requires TabsMatch(ram, kdir, refs) && LeavesMatch(ram, refs) && Graph(refs)
    ensures |Owners(refs, f)| <= |DirRefs(refs)| + 1
  {
    if r :| r in Owners(refs, f) && Exclusive(refs, r) {
      assert Owners(refs, f) == {r};
    } else {
      forall r, s | r in Owners(refs, f) && s in Owners(refs, f) && r.d == s.d ensures r == s {
        assert !Exclusive(refs, r) && !Exclusive(refs, s);
        assert Twins(refs, r, s);
      }
      forall r | r in Owners(refs, f) ensures RDir(r.d) in DirRefs(refs) + {RDir(kdir)} {
        assert !Exclusive(refs, r);
        assert RTab(r.d, r.di) in refs;
      }
      InjectIntoSpaces(Owners(refs, f), DirRefs(refs) + {RDir(kdir)});
    }
  }

  /** The reference map alone fixes every count and every in-use flag. */
  lemma CountsDetermined(fr: Frames, fr': Frames, refs: Refs, refs': Refs)
    requires CountsExact(fr, refs) && CountsExact(fr', refs') && fr.total == fr'.total
    requires refs.Keys == refs'.Keys && forall r :: r in refs ==> refs[r].frame == refs'[r].frame
    ensures fr'.rc == fr.rc && fr'.bits == fr.bits && fr'.used == fr.used
  {
    forall i | 0 <= i < fr.total ensures fr.rc[i] == fr'.rc[i] {
      var f: FrameNo := BASE + i;
      assert Owners(refs, f) == Owners(refs', f);
      assert Managed(fr, f) && Managed(fr', f);
    }
    assert forall i :: 0 <= i < fr.total ==> fr.bits[i] == fr'.bits[i];
  }

  // ---- the ownership graph -------------------------------------------------

  lemma Alone(refs: Refs, r: Ref)
    requires SoleOwners(refs) && r in refs && Exclusive(refs, r)
    ensures forall s :: s in refs && s != r ==> refs[s].frame != refs[r].frame
  {
    forall s | s in refs && s != r ensures refs[s].frame != refs[r].frame {
      assert s !in Owners(refs, refs[r].frame);
    }
  }

  lemma GraphAdd(refs: Refs, r: Ref, w: Word)
    requires Graph(refs) && Names(r, w) && r !in refs
    requires forall s :: s in refs ==> refs[s].frame != w.frame
    ensures Graph(refs[r := w])
  {
    var refs' := refs[r := w];
    forall s | s in refs' && Exclusive(refs', s) ensures Owners(refs', refs'[s].frame) == {s} {
      if s != r {
        assert Exclusive(refs, s);
        assert Owners(refs', refs[s].frame) == Owners(refs, refs[s].frame);
      }
    }
    forall s, t | Twins(refs', s, t) ensures s == t {
      assert s != r && t != r ==> Twins(refs, s, t);
    }
  }

  lemma GraphDrop(refs: Refs, r: Ref)
    requires Graph(refs)
    ensures Graph(refs - {r})
  {
    var refs' := refs - {r};
    forall s | s in refs' && Exclusive(refs', s) ensures Owners(refs', refs'[s].frame) == {s} {
      assert Exclusive(refs, s);
      assert Owners(refs', refs[s].frame) == Owners(refs, refs[s].frame) - {r};
    }
    forall s, t | Twins(refs', s, t) ensures s == t {
      assert Twins(refs, s, t);
    }
  }

  lemma GraphRename(refs: Refs, r: Ref, s: Ref, w: Word)
    requires Graph(refs) && r in refs && Exclusive(refs, r) && s !in refs && Names(s, w) && w.frame == refs[r].frame
    ensures Graph((refs - {r})[s := w])
  {
    Alone(refs, r);
    GraphDrop(refs, r);
    GraphAdd(refs - {r}, s, w);
  }

  lemma RenamedOwner(refs: Refs, r: Ref, s: Ref, w: Word)
    requires SoleOwners(refs) && r in refs && Exclusive(refs, r) && w.frame == refs[r].frame
    ensures Owners((refs - {r})[s := w], w.frame) == {s}
  {
    Alone(refs, r);
  }

  // ---- what a write to a directory or a table can reach --------------------

  function SetEntry(ram: Ram, f: FrameNo, i: Index, w: Word): Ram {
    ram[f := ram[f][i := w]]
  }

  lemma SpacesDiffer(kdir: FrameNo, refs: Refs, r: Ref, d: FrameNo)
    requires Graph(refs) && r in refs && !r.RDir? && kdir < BASE <= refs[r].frame && Space(kdir, refs, d)
    ensures refs[r].frame != d
  {
    if d != kdir {
      assert Names(RDir(d), refs[RDir(d)]);
      Alone(refs, RDir(d));
    }
  }

  /** Look in terms of the reference map. */
  lemma LookIs(ram: Ram, kdir: FrameNo, refs: Refs, d: FrameNo, di: Index, ti: Index)
    requires TabsMatch(ram, kdir, refs) && LeavesMatch(ram, refs) && Space(kdir, refs, d) && di >= 2
    ensures Look(ram, d, di, ti) == if RLeaf(d, di, ti) in refs then Some(ShownBy(ram, refs[RLeaf(d, di, ti)])) else None
  {
    if ram[d][di].present {
      assert refs[RTab(d, di)] == ram[d][di];
    }
  }

  /** What the two-level walk of (di, ti) in `d` finds, in terms of the reference map. */
  lemma Walk(m: Mem, refs: Refs, d: FrameNo, di: Index, ti: Index)
    requires Wf(m, refs) && Space(m.kdir, refs, d) && di >= 2
    ensures m.ram[d][di].present <==> RTab(d, di) in refs
    ensures m.ram[d][di].present ==> refs[RTab(d, di)] == m.ram[d][di] && m.ram[d][di].rw && Managed(m.fr, m.ram[d][di].frame)
    ensures RLeaf(d, di, ti) in refs <==> Leaf(m.ram, d, di, ti).present
    ensures Leaf(m.ram, d, di, ti).present ==>
              refs[RLeaf(d, di, ti)] == Leaf(m.ram, d, di, ti) && Managed(m.fr, Leaf(m.ram, d, di, ti).frame)
    ensures Look(m.ram, d, di, ti) == if RLeaf(d, di, ti) in refs then Some(ShownBy(m.ram, refs[RLeaf(d, di, ti)])) else None
  {
    LookIs(m.ram, m.kdir, refs, d, di, ti);
    assert RTab(d, di) in refs ==> Names(RTab(d, di), refs[RTab(d, di)]);
  }

  /** Same leaf words and same pages behind them: same view. */
  lemma SameLeavesSameLooks(m: Mem, refs: Refs, m': Mem, refs': Refs)
    requires TabsMatch(m.ram, m.kdir, refs) && LeavesMatch(m.ram, refs)
    requires TabsMatch(m'.ram, m.kdir, refs') && LeavesMatch(m'.ram, refs') && m'.kdir == m.kdir
    requires forall d: FrameNo :: RDir(d) in refs ==> RDir(d) in refs'
    requires forall r: Ref :: r.RLeaf? && Space(m.kdir, refs, r.d) ==> (r in refs <==> r in refs')
    requires forall r: Ref :: r.RLeaf? && r in refs && r in refs' ==> ShownBy(m'.ram, refs'[r]) == ShownBy(m.ram, refs[r])
    ensures SameLooks(m, refs, m'.ram)
  {
    forall d: FrameNo, di: Index, ti: Index | Space(m.kdir, refs, d) && di >= 2 ensures Look(m'.ram, d, di, ti) == Look(m.ram, d, di, ti) {
      LookIs(m.ram, m.kdir, refs, d, di, ti);
      LookIs(m'.ram, m.kdir, refs', d, di, ti);
    }
  }

  /** The two maps agree on everything in RAM except possibly at `but`. */
  ghost predicate AgreeBut(refs: Refs, refs': Refs, but: Ref) {
    forall r: Ref :: !r.RHeld? && r != but ==> (r in refs <==> r in refs') && (r in refs && r in refs' ==> refs'[r] == refs[r])
  }

  lemma TabsAfterWrite(ram: Ram, kdir: FrameNo, refs: Refs, ram': Ram, refs': Refs)
    requires TabsMatch(ram, kdir, refs)
    requires forall r: Ref :: r.RDir? || r.RTab? ==> (r in refs <==> r in refs') && (r in refs && r in refs' ==> refs'[r] == refs[r])
    requires forall d: FrameNo :: Space(kdir, refs, d) ==> ram'[d] == ram[d]
    ensures TabsMatch(ram', kdir, refs')
  {
  }

  lemma LeavesAfterWrite(ram: Ram, refs: Refs, d: FrameNo, di: Index, ti: Index, w: Word, ram': Ram, refs': Refs)
    requires LeavesMatch(ram, refs) && RTab(d, di) in refs
    requires forall s :: s in refs && s != RTab(d, di) ==> refs[s].frame != refs[RTab(d, di)].frame
    requires ram' == SetEntry(ram, refs[RTab(d, di)].frame, ti, w)
    requires AgreeBut(refs, refs', RLeaf(d, di, ti))
    requires (RLeaf(d, di, ti) in refs' <==> w.present) && (w.present ==> refs'[RLeaf(d, di, ti)] == w)
    ensures LeavesMatch(ram', refs')
  {
  }

  /** Writing one entry of a table changes that leaf reference and no other. */
  lemma EntryWrite(m: Mem, refs: Refs, d: FrameNo, di: Index, ti: Index, w: Word, ram': Ram, refs': Refs)
    requires Wf(m, refs) && RTab(d, di) in refs
    requires ram' == SetEntry(m.ram, refs[RTab(d, di)].frame, ti, w)
    requires AgreeBut(refs, refs', RLeaf(d, di, ti))
    requires (RLeaf(d, di, ti) in refs' <==> w.present) && (w.present ==> refs'[RLeaf(d, di, ti)] == w)
    ensures TabsMatch(ram', m.kdir, refs') && LeavesMatch(ram', refs')
    ensures forall r :: r in refs && r != RTab(d, di) ==> ram'[refs[r].frame] == m.ram[refs[r].frame]
  {
    Alone(refs, RTab(d, di));
    forall e: FrameNo | Space(m.kdir, refs, e) ensures ram'[e] == m.ram[e] {
      SpacesDiffer(m.kdir, refs, RTab(d, di), e);
    }
    TabsAfterWrite(m.ram, m.kdir, refs, ram', refs');
    LeavesAfterWrite(m.ram, refs, d, di, ti, w, ram', refs');
  }

  lemma TabsAfterDirWrite(ram: Ram, kdir: FrameNo, refs: Refs, d: FrameNo, di: Index, w: Word, ram': Ram, refs': Refs)
    requires TabsMatch(ram, kdir, refs) && Space(kdir, refs, d) && di >= 2
    requires ram' == SetEntry(ram, d, di, w)
    requires AgreeBut(refs, refs', RTab(d, di))
    requires (RTab(d, di) in refs' <==> w.present) && (w.present ==> refs'[RTab(d, di)] == w)
    ensures TabsMatch(ram', kdir, refs')
  {
    assert forall e: FrameNo :: Space(kdir, refs, e) <==> Space(kdir, refs', e);
  }

  lemma LeavesAfterDirWrite(ram: Ram, refs: Refs, d: FrameNo, di: Index, ram': Ram, refs': Refs)
    requires LeavesMatch(ram, refs) && AgreeBut(refs, refs', RTab(d, di))
    requires forall ti: Index :: RLeaf(d, di, ti) !in refs
    requires forall r :: r in refs && r.RTab? ==> ram'[refs[r].frame] == ram[refs[r].frame]
    requires RTab(d, di) in refs' ==> forall ti: Index :: !ram'[refs'[RTab(d, di)].frame][ti].present
    ensures LeavesMatch(ram', refs')
  {
  }

  /** Writing one entry of a directory changes that table reference and no other. */
  lemma DirWrite(m: Mem, refs: Refs, d: FrameNo, di: Index, w: Word, ram': Ram, refs': Refs)
    requires Wf(m, refs) && Space(m.kdir, refs, d) && di >= 2
    requires ram' == SetEntry(m.ram, d, di, w)
    requires AgreeBut(refs, refs', RTab(d, di))
    requires (RTab(d, di) in refs' <==> w.present) && (w.present ==> refs'[RTab(d, di)] == w)
    requires forall ti: Index :: RLeaf(d, di, ti) !in refs
    requires w.present ==> w.frame != d && forall ti: Index :: !m.ram[w.frame][ti].present
    ensures TabsMatch(ram', m.kdir, refs') && LeavesMatch(ram', refs')
    ensures forall r :: r in refs && !r.RDir? ==> ram'[refs[r].frame] == m.ram[refs[r].frame]
  {
    forall r | r in refs && !r.RDir? ensures refs[r].frame != d {
      SpacesDiffer(m.kdir, refs, r, d);
    }
    TabsAfterDirWrite(m.ram, m.kdir, refs, d, di, w, ram', refs');
    LeavesAfterDirWrite(m.ram, refs, d, di, ram', refs');
  }

  lemma SameLooksTrans(m0: Mem, refs0: Refs, m1: Mem, refs1: Refs, ram2: Ram)
    requires SameLooks(m0, refs0, m1.ram) && SameLooks(m1, refs1, ram2) && m1.kdir == m0.kdir
    requires forall d: FrameNo :: RDir(d) in refs0 ==> RDir(d) in refs1
    ensures SameLooks(m0, refs0, ram2)
  {
  }

  // ---- the steps the memory manager is made of -----------------------------

  /** `f` leaves the pool and is in the kernel's hands. */
  lemma Hold(m: Mem, refs: Refs, f: FrameNo, m': Mem, refs': Refs)
    requires Wf(m, refs) && Managed(m.fr, f) && !m.fr.bits[f - BASE]
    requires Ok(m'.fr) && m' == m.(fr := Take(m.fr, f)) && refs' == refs[RHeld(f) := ZERO.(frame := f)]
    ensures Wf(m', refs') && RHeld(f) !in refs
  {
    FreeMeansUnowned(m.fr, refs, f);
    assert RHeld(f) !in refs;
    GraphAdd(refs, RHeld(f), ZERO.(frame := f));
    CountAdd(m.fr, refs, RHeld(f), ZERO.(frame := f), m'.fr);
  }

  /** A frame that is not a directory, a table or a leaf page may hold anything. */
  lemma Fill(m: Mem, refs: Refs, f: FrameNo, data: Page, m': Mem)
    requires Wf(m, refs) && f != m.kdir
    requires forall r :: r in refs && refs[r].frame == f ==> r == RHeld(f)
    requires m' == m.(ram := m.ram[f := data])
    ensures Wf(m', refs) && SameLooks(m, refs, m'.ram)
  {
    forall d: FrameNo | RDir(d) in refs ensures d != f {
      assert refs[RDir(d)].frame == d;
    }
    assert TabsMatch(m'.ram, m.kdir, refs);
    assert LeavesMatch(m'.ram, refs);
    SameLeavesSameLooks(m, refs, m', refs);
  }

  lemma NewSpaceMatches(ram: Ram, kdir: FrameNo, refs: Refs, f: FrameNo, refs': Refs)
    requires TabsMatch(ram, kdir, refs) && LeavesMatch(ram, refs) && !Space(kdir, refs, f)
    requires forall di: Index :: di >= 2 ==> !ram[f][di].present
    requires AgreeBut(refs, refs', RDir(f)) && RDir(f) in refs'
    ensures TabsMatch(ram, kdir, refs') && LeavesMatch(ram, refs')
  {
  }

  /** A held frame without private entries becomes an empty address space. */
  lemma LinkDir(m: Mem, refs: Refs, f: FrameNo, refs': Refs)
    requires Wf(m, refs) && RHeld(f) in refs
    requires forall di: Index :: di >= 2 ==> !m.ram[f][di].present
    requires refs' == (refs - {RHeld(f)})[RDir(f) := ZERO.(frame := f)]
    ensures Wf(m, refs') && !Space(m.kdir, refs, f)
    ensures forall di: Index, ti: Index :: di >= 2 ==> Look(m.ram, f, di, ti) == None
  {
    forall d: FrameNo | Space(m.kdir, refs, d) ensures d != f {
      SpacesDiffer(m.kdir, refs, RHeld(f), d);
    }
    assert !Space(m.kdir, refs, f);
    GraphRename(refs, RHeld(f), RDir(f), ZERO.(frame := f));
    CountRename(m.fr, refs, RHeld(f), RDir(f), ZERO.(frame := f));
    NewSpaceMatches(m.ram, m.kdir, refs, f, refs');
  }

  lemma HeldIsNoSpace(m: Mem, refs: Refs, f: FrameNo, d: FrameNo)
    requires Wf(m, refs) && RHeld(f) in refs && Space(m.kdir, refs, d)
    ensures f != d
  {
    assert Names(RHeld(f), refs[RHeld(f)]);
    SpacesDiffer(m.kdir, refs, RHeld(f), d);
  }

  lemma HeldNamesItself(m: Mem, refs: Refs, f: FrameNo)
    requires Wf(m, refs) && RHeld(f) in refs
    ensures refs[RHeld(f)].frame == f && Exclusive(refs, RHeld(f))
  {
    assert Names(RHeld(f), refs[RHeld(f)]);
  }

  lemma NoTabNoLeaves(m: Mem, refs: Refs, d: FrameNo, di: Index)
    requires Wf(m, refs) && !m.ram[d][di].present
    ensures RTab(d, di) !in refs && forall ti: Index :: RLeaf(d, di, ti) !in refs
  {
  }

  /** A held frame of absent entries becomes the table behind an absent directory entry. */
  lemma LinkTab(m: Mem, refs: Refs, d: FrameNo, di: Index, w: Word, m': Mem, refs': Refs)
    requires Wf(m, refs) && RHeld(w.frame) in refs && Space(m.kdir, refs, d) && di >= 2 && !m.ram[d][di].present
    requires forall ti: Index :: !m.ram[w.frame][ti].present
    requires w.present && w.rw
    requires m' == m.(ram := SetEntry(m.ram, d, di, w)) && refs' == (refs - {RHeld(w.frame)})[RTab(d, di) := w]
    ensures Wf(m', refs') && SameLooks(m, refs, m'.ram)
  {
    hide Graph, CountsExact, TabsMatch, LeavesMatch, SameLooks;
    var held := RHeld(w.frame);
    HeldNamesItself(m, refs, w.frame);
    HeldIsNoSpace(m, refs, w.frame, d);
    NoTabNoLeaves(m, refs, d, di);
    DirWrite(m, refs, d, di, w, m'.ram, refs');
    GraphRename(refs, held, RTab(d, di), w);
    CountRename(m.fr, refs, held, RTab(d, di), w);
    SameLeavesSameLooks(m, refs, m', refs');
  }

  lemma LooksAfterWrite(m: Mem, refs: Refs, d: FrameNo, di: Index, ti: Index, m': Mem, refs': Refs)
    requires TabsMatch(m.ram, m.kdir, refs) && LeavesMatch(m.ram, refs)
    requires TabsMatch(m'.ram, m.kdir, refs') && LeavesMatch(m'.ram, refs') && m'.kdir == m.kdir
    requires AgreeBut(refs, refs', RLeaf(d, di, ti))
    requires forall r :: r in refs && r.RLeaf? && r != RLeaf(d, di, ti) ==> m'.ram[refs[r].frame] == m.ram[refs[r].frame]
    ensures SameLooksBut(m, refs, m'.ram, d, di, ti)
  {
    forall d': FrameNo, di': Index, ti': Index | Space(m.kdir, refs, d') && di' >= 2 && (d', di', ti') != (d, di, ti)
      ensures Look(m'.ram, d', di', ti') == Look(m.ram, d', di', ti') {
      LookIs(m.ram, m.kdir, refs, d', di', ti');
      LookIs(m'.ram, m.kdir, refs', d', di', ti');
    }
  }

  /** A held frame is entered at an absent leaf. */
  lemma LinkLeaf(m: Mem, refs: Refs, d: FrameNo, di: Index, ti: Index, w: Word, m': Mem, refs': Refs)
    requires Wf(m, refs) && RHeld(w.frame) in refs && RTab(d, di) in refs && RLeaf(d, di, ti) !in refs && w.present
    requires m' == m.(ram := SetEntry(m.ram, refs[RTab(d, di)].frame, ti, w))
    requires refs' == (refs - {RHeld(w.frame)})[RLeaf(d, di, ti) := w]
    ensures Wf(m', refs') && SameLooksBut(m, refs, m'.ram, d, di, ti)
    ensures Look(m'.ram, d, di, ti) == Some(ShownBy(m.ram, w)) && Owners(refs', w.frame) == {RLeaf(d, di, ti)}
  {
    var held := RHeld(w.frame);
    assert Names(held, refs[held]);
    EntryWrite(m, refs, d, di, ti, w, m'.ram, refs');
    GraphRename(refs, held, RLeaf(d, di, ti), w);
    CountRename(m.fr, refs, held, RLeaf(d, di, ti), w);
    RenamedOwner(refs, held, RLeaf(d, di, ti), w);
    LooksAfterWrite(m, refs, d, di, ti, m', refs');
    LookIs(m'.ram, m.kdir, refs', d, di, ti);
  }

  /** A leaf entry is cleared and its owner lets the frame go. */
  lemma UnlinkLeaf(m: Mem, refs: Refs, d: FrameNo, di: Index, ti: Index, m': Mem, refs': Refs)
    requires Wf(m, refs) && RLeaf(d, di, ti) in refs
    requires RTab(d, di) in refs
    requires m' == m.(fr := Release(m.fr, refs[RLeaf(d, di, ti)].frame), ram := SetEntry(m.ram, refs[RTab(d, di)].frame, ti, ZERO))
    requires refs' == refs - {RLeaf(d, di, ti)}
    ensures Wf(m', refs') && SameLooksBut(m, refs, m'.ram, d, di, ti)
    ensures Look(m'.ram, d, di, ti) == None
  {
    EntryWrite(m, refs, d, di, ti, ZERO, m'.ram, refs');
    GraphDrop(refs, RLeaf(d, di, ti));
    CountDrop(m.fr, refs, RLeaf(d, di, ti), m'.fr);
    LooksAfterWrite(m, refs, d, di, ti, m', refs');
    LookIs(m'.ram, m.kdir, refs', d, di, ti);
  }

  /** An empty table is cleared from its directory and freed. */
  lemma UnlinkTab(m: Mem, refs: Refs, d: FrameNo, di: Index, m': Mem, refs': Refs)
    requires Wf(m, refs) && RTab(d, di) in refs && forall ti: Index :: RLeaf(d, di, ti) !in refs
    requires m' == m.(fr := Release(m.fr, refs[RTab(d, di)].frame), ram := SetEntry(m.ram, d, di, ZERO))
    requires refs' == refs - {RTab(d, di)}
    ensures Wf(m', refs') && SameLooks(m, refs, m'.ram)
  {
    DirWrite(m, refs, d, di, ZERO, m'.ram, refs');
    GraphDrop(refs, RTab(d, di));
    CountDrop(m.fr, refs, RTab(d, di), m'.fr);
    SameLeavesSameLooks(m, refs, m', refs');
  }

  /** A directory without tables is freed and its address space is gone. */
  lemma UnlinkDir(m: Mem, refs: Refs, d: FrameNo, m': Mem, refs': Refs)
    requires Wf(m, refs) && RDir(d) in refs && forall di: Index :: RTab(d, di) !in refs
    requires m' == m.(fr := Release(m.fr, d)) && refs' == refs - {RDir(d)}
    ensures Wf(m', refs')
  {
    assert Names(RDir(d), refs[RDir(d)]);
    GraphDrop(refs, RDir(d));
    CountDrop(m.fr, refs, RDir(d), m'.fr);
  }

  lemma GraphReflag(refs: Refs, r: Ref, w: Word)
    requires Graph(refs) && r in refs && r.RLeaf? && w.frame == refs[r].frame
    requires w.rw ==> Owners(refs, w.frame) == {r}
    ensures Graph(refs[r := w])
  {
    var refs' := refs[r := w];
    forall s | s in refs' && Exclusive(refs', s) ensures Owners(refs', refs'[s].frame) == {s} {
      assert s != r ==> Exclusive(refs, s);
      assert Owners(refs', refs'[s].frame) == Owners(refs, refs[s].frame);
    }
    forall s, t | Twins(refs', s, t) ensures s == t {
      assert Twins(refs, s, t);
    }
  }

  /** A leaf entry keeps its frame and what it shows, and changes how writes are granted. */
  lemma Reflag(m: Mem, refs: Refs, d: FrameNo, di: Index, ti: Index, w: Word, m': Mem, refs': Refs)
    requires Wf(m, refs) && RLeaf(d, di, ti) in refs && RTab(d, di) in refs && w.present
    requires w.frame == refs[RLeaf(d, di, ti)].frame && ShownBy(m.ram, w) == ShownBy(m.ram, refs[RLeaf(d, di, ti)])
    requires w.rw ==> Owners(refs, w.frame) == {RLeaf(d, di, ti)}
    requires m' == m.(ram := SetEntry(m.ram, refs[RTab(d, di)].frame, ti, w)) && refs' == refs[RLeaf(d, di, ti) := w]
    ensures Wf(m', refs') && SameLooks(m, refs, m'.ram)
  {
    EntryWrite(m, refs, d, di, ti, w, m'.ram, refs');
    GraphReflag(refs, RLeaf(d, di, ti), w);
    CountReflag(m.fr, refs, RLeaf(d, di, ti), w);
    LooksAfterWrite(m, refs, d, di, ti, m', refs');
    LookIs(m.ram, m.kdir, refs, d, di, ti);
    LookIs(m'.ram, m.kdir, refs', d, di, ti);
    SameEverywhere(m, refs, m'.ram, d, di, ti);
  }

  lemma SameEverywhere(m: Mem, refs: Refs, ram: Ram, d: FrameNo, di: Index, ti: Index)
    requires SameLooksBut(m, refs, ram, d, di, ti) && Look(ram, d, di, ti) == Look(m.ram, d, di, ti)
    ensures SameLooks(m, refs, ram)
  {
    forall d': FrameNo, di': Index, ti': Index | Space(m.kdir, refs, d') && di' >= 2
      ensures Look(ram, d', di', ti') == Look(m.ram, d', di', ti') {
    }
  }

  lemma GraphShare(refs: Refs, r: Ref, s: Ref)
    requires Graph(refs) && r in refs && s !in refs && r.RLeaf? && s.RLeaf? && !refs[r].rw
    requires forall q :: q in refs && q.RLeaf? && q.d == s.d ==> refs[q].frame != refs[r].frame
    ensures Graph(refs[s := refs[r]])
  {
    var refs' := refs[s := refs[r]];
    forall q | q in refs' && Exclusive(refs', q) ensures Owners(refs', refs'[q].frame) == {q} {
      assert q != s && Exclusive(refs, q);
      assert r in Owners(refs, refs[r].frame);
      assert Owners(refs', refs[q].frame) == Owners(refs, refs[q].frame);
    }
    forall q, t | Twins(refs', q, t) ensures q == t {
      assert q != s && t != s ==> Twins(refs, q, t);
    }
  }

  /** A second address space enters the frame of a read-only leaf and the count goes up. */
  lemma ShareLeaf(m: Mem, refs: Refs, r: Ref, d: FrameNo, di: Index, ti: Index, m': Mem, refs': Refs)
    requires Wf(m, refs) && r in refs && r.RLeaf? && !refs[r].rw && refs[r].present
    requires RTab(d, di) in refs && RLeaf(d, di, ti) !in refs
    requires forall q :: q in refs && q.RLeaf? && q.d == d ==> refs[q].frame != refs[r].frame
    requires Refcount(m.fr, refs[r].frame) < MAX_REFS
    requires m' == m.(fr := Share(m.fr, refs[r].frame), ram := SetEntry(m.ram, refs[RTab(d, di)].frame, ti, refs[r]))
    requires refs' == refs[RLeaf(d, di, ti) := refs[r]]
    ensures Wf(m', refs') && SameLooksBut(m, refs, m'.ram, d, di, ti)
    ensures Look(m'.ram, d, di, ti) == Some(ShownBy(m.ram, refs[r]))
  {
    EntryWrite(m, refs, d, di, ti, refs[r], m'.ram, refs');
    GraphShare(refs, r, RLeaf(d, di, ti));
    CountShare(m.fr, refs, r, RLeaf(d, di, ti));
    LooksAfterWrite(m, refs, d, di, ti, m', refs');
    LookIs(m'.ram, m.kdir, refs', d, di, ti);
  }

  /** A store through a writable entry reaches one page of one address space, and no table. */
  lemma StoreWord(m: Mem, refs: Refs, d: FrameNo, di: Index, ti: Index, off: Index, v: Word, m': Mem)
    requires Wf(m, refs) && RLeaf(d, di, ti) in refs && refs[RLeaf(d, di, ti)].rw
    requires m' == m.(ram := SetEntry(m.ram, refs[RLeaf(d, di, ti)].frame, off, v))
    ensures Wf(m', refs) && SameLooksBut(m, refs, m'.ram, d, di, ti)
    ensures Look(m.ram, d, di, ti).Some?
    ensures Look(m'.ram, d, di, ti) ==
            Some(Look(m.ram, d, di, ti).value.(data := Look(m.ram, d, di, ti).value.data[off := v]))
  {
    var r := RLeaf(d, di, ti);
    var f := refs[r].frame;
    Alone(refs, r);
    forall e: FrameNo | Space(m.kdir, refs, e) ensures e != f {
      SpacesDiffer(m.kdir, refs, r, e);
    }
    TabsAfterWrite(m.ram, m.kdir, refs, m'.ram, refs);
    assert LeavesMatch(m'.ram, refs);
    LooksAfterWrite(m, refs, d, di, ti, m', refs);
    LookIs(m.ram, m.kdir, refs, d, di, ti);
    LookIs(m'.ram, m.kdir, refs, d, di, ti);
  }

  /** The pool is empty exactly when nobody owns a frame. */
  lemma FramesAreForRefs(m: Mem, refs: Refs)
    requires Wf(m, refs)
    ensures refs == map[] <==> m.fr.used == 0
    ensures m.fr.used == 0 <==> forall i :: 0 <= i < m.fr.total ==> !m.fr.bits[i]
  {
    if refs == map[] {
      NoRefsNoFrames(m, refs);
    } else {
      var r :| r in refs;
      SomeRefSomeFrame(m, refs, r);
    }
    if forall i :: 0 <= i < m.fr.total ==> !m.fr.bits[i] {
      NoneSetCountsZero(m.fr.bits);
    }
  }

  lemma SomeRefSomeFrame(m: Mem, refs: Refs, r: Ref)
    requires Wf(m, refs) && r in refs
    ensures m.fr.used > 0 && Managed(m.fr, refs[r].frame) && m.fr.bits[refs[r].frame - BASE]
  {
    var f := refs[r].frame;
    assert Names(r, refs[r]) && r in Owners(refs, f);
    UpdateCounts(m.fr.bits, f - BASE, false);
  }

  lemma NoRefsNoFrames(m: Mem, refs: Refs)
    requires Wf(m, refs) && refs == map[]
    ensures m.fr.used == 0 && forall i :: 0 <= i < m.fr.total ==> !m.fr.bits[i]
  {
    forall i | 0 <= i < m.fr.total ensures !m.fr.bits[i] {
      var f: FrameNo := BASE + i;
      assert Managed(m.fr, f) && Owners(refs, f) == {};
    }
    NoneSetCountsZero(m.fr.bits);
  }

  lemma {:induction false} MoreBits(a: seq<bool>, b: seq<bool>)
    requires |a| == |b| && forall i :: 0 <= i < |a| && a[i] ==> b[i]
    ensures CountTrue(a) <= CountTrue(b)
  {
    if a != [] {
      var n := |a| - 1;
      MoreBits(a[..n], b[..n]);
    }
  }

  lemma InUseIffOwned(m: Mem, refs: Refs, f: FrameNo)
    requires Wf(m, refs) && Managed(m.fr, f)
    ensures m.fr.bits[f - BASE] <==> exists r :: r in refs && refs[r].frame == f
  {
    hide TabsMatch, LeavesMatch, Graph;
    if r :| r in refs && refs[r].frame == f {
      assert r in Owners(refs, f);
    } else {
      assert Owners(refs, f) == {};
    }
  }

  /** Whoever owned a frame still does: no fewer frames are in use. */
  lemma MoreOwnersMoreUsed(m: Mem, refs: Refs, m': Mem, refs': Refs)
    requires Wf(m, refs) && Wf(m', refs') && m'.fr.total == m.fr.total
    requires forall r :: r in refs ==> r in refs' && refs'[r].frame == refs[r].frame
    ensures m.fr.used <= m'.fr.used
  {
    hide TabsMatch, LeavesMatch, Graph, Owners;
    forall i | 0 <= i < m.fr.total && m.fr.bits[i] ensures m'.fr.bits[i] {
      InUseIffOwned(m, refs, BASE + i);
      InUseIffOwned(m', refs', BASE + i);
    }
    MoreBits(m.fr.bits, m'.fr.bits);
  }
}
