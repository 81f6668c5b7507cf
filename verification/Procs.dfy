/**
 The process table (kernel/proc.c) over the memory manager. The table never
 changes size; a slot is a value that the calls replace.
 */
module Procs {
  import Heap
  import opened Words
  import opened Pmm
  import opened Ownership
  import opened Vmm
  import opened Demand
  import W = World
  import opened World

  datatype Proc = Proc(pid: int, ppid: int, life: Life, dir: FrameNo, entry: nat, brk: nat, code: int)

  const BLANK := Proc(0, 0, Unused, 0, 0, 0, 0)

  /** What demand paging knows: its regions, the faults served, and the promises that outlived their process. */
  datatype Pact = Pact(rs: seq<Region>, served: nat, left: set<Promises>)

  ghost function ContentsOf(ram: Ram, rs: seq<Region>, d: FrameNo): Contents {
    Contents(ViewOf(ram, [], d), PromisesOf(rs, d))
  }

  ghost function MemoryOf(ram: Ram, rs: seq<Region>, kdir: FrameNo, d: FrameNo): Memory {
    if d == 0 then Nowhere else if d == kdir then Kernel else Own(ContentsOf(ram, rs, d))
  }

  ghost function Abs(ram: Ram, rs: seq<Region>, kdir: FrameNo, p: Proc): Process {
    if p.life == Unused then Free else Process(p.pid, p.ppid, p.life, MemoryOf(ram, rs, kdir, p.dir), p.entry, p.brk, p.code)
  }

  ghost predicate Used(t: seq<Proc>, i: nat) {
    i < |t| && t[i].life != Unused
  }

  /** Exactly one process runs, the kernel is slot 0, and pids are never shared. */
  ghost predicate Identities(t: seq<Proc>, nextPid: int, cur: nat) {
    && |t| == MAX_PROCS && cur < MAX_PROCS
    && (forall i :: 0 <= i < MAX_PROCS ==> (t[i].life == Running <==> i == cur))
    && t[0].pid == 0 && t[0].life != Unused && t[0].life != Zombie
    && (forall i :: 1 <= i < MAX_PROCS && Used(t, i) ==> 0 < t[i].pid < nextPid)
    && (forall i, j :: 0 <= i < j < MAX_PROCS && Used(t, i) && Used(t, j) ==> t[i].pid != t[j].pid)
  }

  ghost predicate Parent(t: seq<Proc>, i: nat, j: nat) {
    Used(t, i) && Used(t, j) && t[j].life != Zombie && t[i].ppid == t[j].pid
  }

  /** Nobody waits for a process that is gone: every parent is a live process. */
  ghost predicate Parented(t: seq<Proc>) {
    forall i :: 1 <= i < |t| && Used(t, i) ==> exists j :: 0 <= j < |t| && Parent(t, i, j)
  }

  ghost predicate Private(kdir: FrameNo, d: FrameNo) {
    d != 0 && d != kdir
  }

  /** Private address spaces and processes that own one are in one-to-one correspondence; zombies own none. */
  ghost predicate Homes(t: seq<Proc>, kdir: FrameNo, refs: Refs) {
    && |t| > 0 && t[0].dir == kdir
    && (forall i :: 0 <= i < |t| && Used(t, i) && Private(kdir, t[i].dir) ==> RDir(t[i].dir) in refs && t[i].life != Zombie)
    && (forall i, j :: 0 <= i < j < |t| && Used(t, i) && Used(t, j) && Private(kdir, t[i].dir) ==> t[i].dir != t[j].dir)
    && (forall d: FrameNo :: RDir(d) in refs ==> Private(kdir, d) && exists i :: 0 <= i < |t| && Used(t, i) && t[i].dir == d)
  }

  ghost predicate TableOk(t: seq<Proc>, nextPid: int, cur: nat, kdir: FrameNo, refs: Refs, cr3: FrameNo) {
    && 0 < nextPid && kdir != 0
    && Identities(t, nextPid, cur)
    && Parented(t)
    && Homes(t, kdir, refs)
    && cr3 == t[cur].dir && cr3 != 0
  }

  ghost function AbsTable(ram: Ram, rs: seq<Region>, kdir: FrameNo, t: seq<Proc>): seq<Process> {
    seq(|t|, i requires 0 <= i < |t| => Abs(ram, rs, kdir, t[i]))
  }

  // ---- what the calls keep of the table ------------------------------------

  /** A slot changes without changing who it is. */
  predicate SamePerson(p: Proc, q: Proc) {
    p.pid == q.pid && p.ppid == q.ppid && (p.life == Unused <==> q.life == Unused) && (p.life == Zombie <==> q.life == Zombie)
  }

  lemma ParentedKeeps(t: seq<Proc>, t': seq<Proc>)
    requires Parented(t) && |t'| == |t|
    requires forall i :: 0 <= i < |t| ==> SamePerson(t[i], t'[i])
    ensures Parented(t')
  {
    forall i | 1 <= i < |t'| && Used(t', i) ensures exists j :: 0 <= j < |t'| && Parent(t', i, j) {
      assert Used(t, i);
      var j :| 0 <= j < |t| && Parent(t, i, j);
      assert Parent(t', i, j);
    }
  }

  lemma HomesKeeps(t: seq<Proc>, t': seq<Proc>, kdir: FrameNo, refs: Refs)
    requires Homes(t, kdir, refs) && |t'| == |t|
    requires forall i :: 0 <= i < |t| ==> SamePerson(t[i], t'[i]) && t[i].dir == t'[i].dir
    ensures Homes(t', kdir, refs)
  {
    forall d: FrameNo | RDir(d) in refs ensures Private(kdir, d) && exists i :: 0 <= i < |t'| && Used(t', i) && t'[i].dir == d {
      var i :| 0 <= i < |t| && Used(t, i) && t[i].dir == d;
      assert Used(t', i) && t'[i].dir == d;
    }
    assert forall i :: 0 <= i < |t| ==> (Used(t', i) <==> Used(t, i));
  }

  lemma IdentitiesKeeps(t: seq<Proc>, t': seq<Proc>, nextPid: int, cur: nat, cur': nat)
    requires Identities(t, nextPid, cur) && |t'| == MAX_PROCS && cur' < MAX_PROCS
    requires forall i :: 0 <= i < MAX_PROCS ==> t[i].pid == t'[i].pid && (t[i].life == Unused <==> t'[i].life == Unused)
    requires forall i :: 0 <= i < MAX_PROCS ==> (t'[i].life == Running <==> i == cur')
    requires t'[0].life != Zombie
    ensures Identities(t', nextPid, cur')
  {
    assert forall i :: 0 <= i < MAX_PROCS ==> (Used(t', i) <==> Used(t, i));
  }

  /** A free slot becomes a child of the current process, with no address space yet. */
  lemma NewSlot(t: seq<Proc>, nextPid: int, cur: nat, kdir: FrameNo, refs: Refs, cr3: FrameNo, k: nat, p: Proc)
    requires TableOk(t, nextPid, cur, kdir, refs, cr3) && 1 <= k < MAX_PROCS && t[k].life == Unused
    requires p.pid == nextPid && p.ppid == t[cur].pid && p.life == Ready && (p.dir == 0 || p.dir == kdir)
    ensures TableOk(t[k := p], nextPid + 1, cur, kdir, refs, cr3)
  {
    var t' := t[k := p];
    assert forall i :: 0 <= i < MAX_PROCS && i != k ==> (Used(t', i) <==> Used(t, i));
    forall i | 1 <= i < |t'| && Used(t', i) ensures exists j :: 0 <= j < |t'| && Parent(t', i, j) {
      if i == k {
        assert Parent(t', i, cur);
      } else {
        var j :| 0 <= j < |t| && Parent(t, i, j);
        assert Parent(t', i, j);
      }
    }
    forall d: FrameNo | RDir(d) in refs ensures exists i :: 0 <= i < |t'| && Used(t', i) && t'[i].dir == d {
      var i :| 0 <= i < |t| && Used(t, i) && t[i].dir == d;
      assert Used(t', i) && t'[i].dir == d;
    }
  }

  lemma HomesMoveIn(t: seq<Proc>, kdir: FrameNo, refs: Refs, k: nat, p: Proc, refs': Refs)
    requires Homes(t, kdir, refs) && 1 <= k < |t| && Used(t, k) && p.life == t[k].life == Ready
    requires !Private(kdir, t[k].dir) && Private(kdir, p.dir)
    requires RDir(p.dir) !in refs && forall d: FrameNo :: RDir(d) in refs' <==> RDir(d) in refs || d == p.dir
    ensures Homes(t[k := p], kdir, refs')
  {
    var t' := t[k := p];
    forall d: FrameNo | RDir(d) in refs' ensures Private(kdir, d) && exists i :: 0 <= i < |t'| && Used(t', i) && t'[i].dir == d {
      if d == p.dir {
        assert Used(t', k) && t'[k].dir == d;
      } else {
        var i :| 0 <= i < |t| && Used(t, i) && t[i].dir == d;
        assert Used(t', i) && t'[i].dir == d;
      }
    }
    forall i | 0 <= i < |t| && Used(t', i) && Private(kdir, t'[i].dir) && i != k ensures t'[i].dir != p.dir && RDir(t'[i].dir) in refs {
      assert Used(t, i);
    }
  }

  /** A slot without an address space moves into one nobody has. */
  lemma MoveIn(t: seq<Proc>, nextPid: int, cur: nat, kdir: FrameNo, refs: Refs, cr3: FrameNo, k: nat, p: Proc, refs': Refs)
    requires TableOk(t, nextPid, cur, kdir, refs, cr3) && 1 <= k < MAX_PROCS && Used(t, k)
    requires p.life == t[k].life == Ready && SamePerson(t[k], p)
    requires !Private(kdir, t[k].dir) && Private(kdir, p.dir)
    requires RDir(p.dir) !in refs && forall d: FrameNo :: RDir(d) in refs' <==> RDir(d) in refs || d == p.dir
    ensures TableOk(t[k := p], nextPid, cur, kdir, refs', cr3)
  {
    HomesMoveIn(t, kdir, refs, k, p, refs');
    ParentedKeeps(t, t[k := p]);
    hide Homes, Parented;
  }

  ghost predicate Childless(t: seq<Proc>, k: nat)
    requires k < |t|
  {
    forall i :: 1 <= i < |t| && i != k && Used(t, i) ==> t[i].ppid != t[k].pid
  }

  /** The directories left when the one at `d` is gone. */
  ghost predicate OneLess(refs: Refs, refs': Refs, d: FrameNo) {
    forall e: FrameNo :: RDir(e) in refs' <==> RDir(e) in refs && e != d
  }

  lemma HomesVacate(t: seq<Proc>, kdir: FrameNo, refs: Refs, k: nat, p: Proc, refs': Refs)
    requires Homes(t, kdir, refs) && 1 <= k < |t| && Used(t, k) && !Private(kdir, p.dir)
    requires OneLess(refs, refs', t[k].dir)
    ensures Homes(t[k := p], kdir, refs')
  {
    var t' := t[k := p];
    forall d: FrameNo | RDir(d) in refs' ensures Private(kdir, d) && exists i :: 0 <= i < |t'| && Used(t', i) && t'[i].dir == d {
      var i :| 0 <= i < |t| && Used(t, i) && t[i].dir == d;
      assert Used(t', i) && t'[i].dir == d;
    }
    forall i | 0 <= i < |t'| && i != k && Used(t', i) && Private(kdir, t'[i].dir) ensures t[i].dir != t[k].dir && RDir(t'[i].dir) in refs' {
      assert Used(t, i);
    }
  }

  lemma ParentLeft(t: seq<Proc>, nextPid: int, cur: nat, k: nat, p: Proc, t': seq<Proc>, i: nat)
    requires Identities(t, nextPid, cur) && Parented(t) && 1 <= k < |t| && Used(t, k) && p.life == Unused
    requires 1 <= i < |t| && i != k && Used(t, i) && t' == t[k := p]
    ensures (exists j :: 0 <= j < |t| && Parent(t', i, j)) <==> t[i].ppid != t[k].pid
  {
    var j :| 0 <= j < |t| && Parent(t, i, j);
    if j == k {
      assert forall h :: 0 <= h < |t| && h != k && Used(t, h) ==> t[h].pid != t[k].pid;
    } else {
      assert Parent(t', i, j);
    }
  }

  /** proc_free hands no children over: everybody still has a live parent if and only if there were none to hand over. */
  lemma ParentedVacate(t: seq<Proc>, nextPid: int, cur: nat, k: nat, p: Proc)
    requires Identities(t, nextPid, cur) && Parented(t) && 1 <= k < |t| && Used(t, k) && p.life == Unused
    ensures Parented(t[k := p]) <==> Childless(t, k)
  {
    hide Identities, Parent;
    var t' := t[k := p];
    forall i | 1 <= i < |t| && i != k && Used(t, i)
      ensures (exists j :: 0 <= j < |t| && Parent(t', i, j)) <==> t[i].ppid != t[k].pid
    {
      ParentLeft(t, nextPid, cur, k, p, t', i);
    }
    assert forall i :: 1 <= i < |t| ==> (Used(t', i) <==> Used(t, i) && i != k);
  }

  /** A childless slot that is not running is given back, and its private directory with it. */
  lemma Vacate(t: seq<Proc>, nextPid: int, cur: nat, kdir: FrameNo, refs: Refs, cr3: FrameNo, k: nat, p: Proc, refs': Refs)
    requires TableOk(t, nextPid, cur, kdir, refs, cr3) && 1 <= k < MAX_PROCS && k != cur && Used(t, k) && Childless(t, k)
    requires p.life == Unused && !Private(kdir, p.dir) && OneLess(refs, refs', t[k].dir)
    ensures TableOk(t[k := p], nextPid, cur, kdir, refs', cr3)
  {
    hide Homes, Parented, OneLess, Childless;
    HomesVacate(t, kdir, refs, k, p, refs');
    ParentedVacate(t, nextPid, cur, k, p);
    assert forall i :: 0 <= i < MAX_PROCS && i != k ==> (Used(t[k := p], i) <==> Used(t, i));
  }

  /** A zombie has no children: they were handed to the kernel when it exited. */
  lemma ZombiesAreChildless(t: seq<Proc>, nextPid: int, cur: nat, k: nat)
    requires Identities(t, nextPid, cur) && Parented(t) && k < MAX_PROCS && t[k].life == Zombie
    ensures Childless(t, k)
  {
    forall i | 1 <= i < |t| && Used(t, i) ensures t[i].ppid != t[k].pid {
      var j :| 0 <= j < |t| && Parent(t, i, j);
      assert j != k && Used(t, k);
    }
  }

  lemma ZombiesOwnNothing(t: seq<Proc>, kdir: FrameNo, refs: Refs, k: nat)
    requires Homes(t, kdir, refs) && k < |t| && t[k].life == Zombie
    ensures !Private(kdir, t[k].dir)
  {
    assert Used(t, k);
  }

  function Reparent(p: Proc, pid: int): Proc {
    if p.life != Unused && p.ppid == pid then p.(ppid := 0) else p
  }

  /** The table after exit: the caller a zombie, the kernel running, the orphans the kernel's. */
  ghost predicate Exited(t: seq<Proc>, t': seq<Proc>, cur: nat, z: Proc)
    requires |t| == |t'| == MAX_PROCS && cur < MAX_PROCS
  {
    && t'[0] == t[0].(life := Running)
    && forall i :: 1 <= i < MAX_PROCS ==> t'[i] == Reparent(if i == cur then z else t[i], t[cur].pid)
  }

  lemma ParentedExit(t: seq<Proc>, t': seq<Proc>, nextPid: int, cur: nat, z: Proc)
    requires Identities(t, nextPid, cur) && Parented(t) && |t'| == MAX_PROCS && Exited(t, t', cur, z) && cur != 0
    requires z.pid == t[cur].pid && z.ppid == t[cur].ppid && z.life == Zombie
    ensures Parented(t')
  {
    forall i | 1 <= i < |t'| && Used(t', i) ensures exists j :: 0 <= j < |t'| && Parent(t', i, j) {
      assert Used(t, i) && Used(t, 0);
      if t[i].ppid == t[cur].pid {
        assert Parent(t', i, 0);
      } else {
        var j :| 0 <= j < |t| && Parent(t, i, j);
        assert Parent(t', i, j);
      }
    }
  }

  lemma ExitKeeps(t: seq<Proc>, t': seq<Proc>, nextPid: int, cur: nat, kdir: FrameNo, refs: Refs, cr3: FrameNo, z: Proc, refs': Refs)
    requires TableOk(t, nextPid, cur, kdir, refs, cr3) && |t'| == MAX_PROCS && Exited(t, t', cur, z) && cur != 0 && kdir != 0
    requires z.pid == t[cur].pid && z.ppid == t[cur].ppid && z.life == Zombie && !Private(kdir, z.dir)
    requires OneLess(refs, refs', t[cur].dir)
    ensures TableOk(t', nextPid, 0, kdir, refs', kdir)
  {
    hide Parented, Homes, OneLess;
    ParentedExit(t, t', nextPid, cur, z);
    assert Used(t, cur);
    HomesVacate(t, kdir, refs, cur, z, refs');
    HomesExit(t[cur := z], t', kdir, refs');
    IdentitiesKeeps(t, t', nextPid, cur, 0);
    KernelHome(t', kdir, refs');
  }

  lemma KernelHome(t: seq<Proc>, kdir: FrameNo, refs: Refs)
    requires Homes(t, kdir, refs)
    ensures |t| > 0 && t[0].dir == kdir
  {
  }

  lemma HomesExit(t: seq<Proc>, t': seq<Proc>, kdir: FrameNo, refs: Refs)
    requires Homes(t, kdir, refs) && |t'| == |t|
    requires forall i :: 0 <= i < |t| ==> t[i].dir == t'[i].dir && (Used(t, i) <==> Used(t', i)) && (t[i].life == Zombie <==> t'[i].life == Zombie)
    ensures Homes(t', kdir, refs)
  {
    forall d: FrameNo | RDir(d) in refs ensures Private(kdir, d) && exists i :: 0 <= i < |t'| && Used(t', i) && t'[i].dir == d {
      var i :| 0 <= i < |t| && Used(t, i) && t[i].dir == d;
      assert Used(t', i) && t'[i].dir == d;
    }
  }

  lemma BootTable(kdir: FrameNo)
    requires kdir != 0
    ensures TableOk(seq(MAX_PROCS, i => if i == 0 then Proc(0, 0, Running, kdir, 0, 0, 0) else BLANK), 1, 0, kdir, map[], kdir)
  {
  }

  /** The CPU passes from slot `cur` to slot `k`. */
  lemma SwitchKeeps(t: seq<Proc>, t': seq<Proc>, nextPid: int, cur: nat, kdir: FrameNo, refs: Refs, cr3: FrameNo, k: nat)
    requires TableOk(t, nextPid, cur, kdir, refs, cr3) && k < MAX_PROCS && Used(t, k) && t[k].life != Zombie && t[k].dir != 0
    requires t' == t[cur := t[cur].(life := Ready)][k := t[k].(life := Running)]
    ensures TableOk(t', nextPid, k, kdir, refs, t[k].dir)
  {
    hide Homes, Parented;
    ParentedKeeps(t, t');
    HomesKeeps(t, t', kdir, refs);
    IdentitiesKeeps(t, t', nextPid, cur, k);
  }

  // ---- what the calls change of the world ----------------------------------

  lemma ViewAlike(ram: Ram, ram': Ram, fr: Frames, d: FrameNo)
    requires forall di: Index, ti: Index :: di >= 2 ==> Look(ram', d, di, ti) == Look(ram, d, di, ti)
    ensures ViewOf(ram', [], d) == ViewOf(ram, [], d)
  {
    var m := Mem(fr, ram, d);
    assert SameLooksBut(m, map[], ram', d, 2, 0);
    ViewStep(m, map[], ram', [], d, 2, 0);
  }

  lemma ViewSame(m: Mem, refs: Refs, ram: Ram, d: FrameNo)
    requires SameLooks(m, refs, ram) && Space(m.kdir, refs, d)
    ensures ViewOf(ram, [], d) == ViewOf(m.ram, [], d)
  {
    ViewAlike(m.ram, ram, m.fr, d);
  }

  lemma ViewOther(m: Mem, refs: Refs, ram: Ram, d: FrameNo, e: FrameNo)
    requires OthersSame(m, refs, ram, e) && Space(m.kdir, refs, d) && d != e
    ensures ViewOf(ram, [], d) == ViewOf(m.ram, [], d)
  {
    ViewAlike(m.ram, ram, m.fr, d);
  }

  lemma SlotIsSpace(t: seq<Proc>, kdir: FrameNo, refs: Refs, i: nat)
    requires Homes(t, kdir, refs) && i < |t| && Used(t, i) && t[i].dir != 0
    ensures Space(kdir, refs, t[i].dir)
  {
    assert Private(kdir, t[i].dir) ==> RDir(t[i].dir) in refs;
  }

  lemma AbsSame(m: Mem, refs: Refs, ram: Ram, t: seq<Proc>, rs: seq<Region>)
    requires SameLooks(m, refs, ram) && Homes(t, m.kdir, refs)
    ensures AbsTable(ram, rs, m.kdir, t) == AbsTable(m.ram, rs, m.kdir, t) && ViewOf(ram, [], m.kdir) == ViewOf(m.ram, [], m.kdir)
  {
    hide SameLooks, Homes, ViewOf, PromisesOf;
    forall i | 0 <= i < |t| ensures Abs(ram, rs, m.kdir, t[i]) == Abs(m.ram, rs, m.kdir, t[i]) {
      if Used(t, i) && t[i].dir != 0 {
        SlotIsSpace(t, m.kdir, refs, i);
        ViewSame(m, refs, ram, t[i].dir);
      }
    }
    ViewSame(m, refs, ram, m.kdir);
  }

  /** Destroying address space `d` is seen only by slots that live in it. */
  lemma AbsOthers(m: Mem, refs: Refs, ram: Ram, t: seq<Proc>, d: FrameNo, rs: seq<Region>)
    requires OthersSame(m, refs, ram, d) && Homes(t, m.kdir, refs) && d != m.kdir
    ensures forall i :: 0 <= i < |t| && t[i].dir != d ==> Abs(ram, rs, m.kdir, t[i]) == Abs(m.ram, rs, m.kdir, t[i])
    ensures ViewOf(ram, [], m.kdir) == ViewOf(m.ram, [], m.kdir)
  {
    hide OthersSame, Homes, ViewOf, PromisesOf;
    forall i | 0 <= i < |t| && t[i].dir != d ensures Abs(ram, rs, m.kdir, t[i]) == Abs(m.ram, rs, m.kdir, t[i]) {
      if Used(t, i) && t[i].dir != 0 {
        SlotIsSpace(t, m.kdir, refs, i);
        ViewOther(m, refs, ram, t[i].dir, d);
      }
    }
    ViewOther(m, refs, ram, m.kdir, d);
  }

  /** A change at one page of `d` is seen only by slots that live in `d`. */
  lemma AbsBut(m: Mem, refs: Refs, ram: Ram, t: seq<Proc>, d: FrameNo, di: Index, ti: Index, rs: seq<Region>)
    requires SameLooksBut(m, refs, ram, d, di, ti) && Homes(t, m.kdir, refs)
    ensures forall i :: 0 <= i < |t| && (t[i].dir != d || d == m.kdir) ==> Abs(ram, rs, m.kdir, t[i]) == Abs(m.ram, rs, m.kdir, t[i])
    ensures d != m.kdir ==> ViewOf(ram, [], m.kdir) == ViewOf(m.ram, [], m.kdir)
  {
    assert OthersSame(m, refs, ram, d);
    hide SameLooksBut, OthersSame, Homes, ViewOf, PromisesOf;
    forall i | 0 <= i < |t| && (t[i].dir != d || d == m.kdir) ensures Abs(ram, rs, m.kdir, t[i]) == Abs(m.ram, rs, m.kdir, t[i]) {
      if Used(t, i) && t[i].dir != 0 && t[i].dir != d {
        SlotIsSpace(t, m.kdir, refs, i);
        ViewOther(m, refs, ram, t[i].dir, d);
      }
    }
    if d != m.kdir {
      ViewOther(m, refs, ram, m.kdir, d);
    }
  }

  lemma {:induction false} SlotsBound(t: seq<Proc>, dirs: set<Ref>)
    requires forall r :: r in dirs ==> r.RDir? && exists i :: 0 <= i < |t| && t[i].dir == r.d
    ensures |dirs| <= |t|
  {
    if t == [] {
      assert dirs == {};
    } else {
      var n := |t| - 1;
      var rest := dirs - {RDir(t[n].dir)};
      forall r | r in rest ensures exists i :: 0 <= i < n && t[..n][i].dir == r.d {
        var i :| 0 <= i < |t| && t[i].dir == r.d;
        assert t[..n][i].dir == r.d;
      }
      SlotsBound(t[..n], rest);
      assert dirs <= rest + {RDir(t[n].dir)};
      SubsetSize(dirs, rest + {RDir(t[n].dir)});
    }
  }

  /** There are never more address spaces than slots, so no reference count comes near 255. */
  lemma FewSpaces(t: seq<Proc>, kdir: FrameNo, refs: Refs)
    requires Homes(t, kdir, refs)
    ensures |DirRefs(refs)| <= |t|
  {
    forall r | r in DirRefs(refs) ensures exists i :: 0 <= i < |t| && t[i].dir == r.d {
      assert r == RDir(r.d);
      var i :| 0 <= i < |t| && Used(t, i) && t[i].dir == r.d;
    }
    SlotsBound(t, DirRefs(refs));
  }

  lemma SlotFound(w: W.World, k: nat)
    requires Sane(w) && 1 <= k <= MAX_PROCS && (k < MAX_PROCS ==> w.procs[k].Free?) && forall j :: 1 <= j < k ==> w.procs[j].Process?
    ensures Slot(w) == k
  {
  }

  /** The part of the invariant that says who the current process and the kernel are. */
  ghost predicate Seated(t: seq<Proc>, cur: nat, kdir: FrameNo) {
    && |t| == MAX_PROCS && cur < MAX_PROCS && kdir != 0
    && t[cur].life == Running && t[cur].dir != 0
    && t[0].pid == 0 && t[0].life != Unused && t[0].life != Zombie && t[0].dir == kdir
  }

  ghost function WorldOf(ram: Ram, pact: Pact, kdir: FrameNo, t: seq<Proc>, nextPid: int, cur: nat): W.World {
    W.World(AbsTable(ram, pact.rs, kdir, t), nextPid, cur, ContentsOf(ram, pact.rs, kdir), Taken(pact.rs), pact.served, pact.left)
  }

  /** The current process sees the address space in CR3. */
  lemma HereIs(ram: Ram, kdir: FrameNo, t: seq<Proc>, nextPid: int, cur: nat, pact: Pact)
    requires Seated(t, cur, kdir)
    ensures Sane(WorldOf(ram, pact, kdir, t, nextPid, cur)) && Here(WorldOf(ram, pact, kdir, t, nextPid, cur)) == ContentsOf(ram, pact.rs, t[cur].dir)
    ensures WorldOf(ram, pact, kdir, t, nextPid, cur).procs[cur] == Abs(ram, pact.rs, kdir, t[cur])
  {
  }

  lemma AbsUpdate(ram: Ram, kdir: FrameNo, t: seq<Proc>, k: nat, p: Proc, rs: seq<Region>)
    requires k < |t|
    ensures AbsTable(ram, rs, kdir, t[k := p]) == AbsTable(ram, rs, kdir, t)[k := Abs(ram, rs, kdir, p)]
  {
    assert AbsTable(ram, rs, kdir, t[k := p]) == AbsTable(ram, rs, kdir, t)[k := Abs(ram, rs, kdir, p)];
  }

  lemma SameDirsHomes(t: seq<Proc>, nextPid: int, cur: nat, kdir: FrameNo, refs: Refs, refs': Refs, cr3: FrameNo)
    requires TableOk(t, nextPid, cur, kdir, refs, cr3) && forall d: FrameNo :: RDir(d) in refs' <==> RDir(d) in refs
    ensures TableOk(t, nextPid, cur, kdir, refs', cr3)
  {
    assert Homes(t, kdir, refs') by {
      forall d: FrameNo | RDir(d) in refs' ensures Private(kdir, d) && exists i :: 0 <= i < |t| && Used(t, i) && t[i].dir == d {
        assert RDir(d) in refs;
      }
    }
  }

  lemma UnusedSlot(t: seq<Proc>, nextPid: int, cur: nat, kdir: FrameNo, refs: Refs, cr3: FrameNo, k: nat, p: Proc)
    requires TableOk(t, nextPid, cur, kdir, refs, cr3) && k < MAX_PROCS && t[k].life == Unused && p.life == Unused
    ensures TableOk(t[k := p], nextPid + 1, cur, kdir, refs, cr3)
  {
    hide Identities, Parented, Homes;
    UnusedIdentities(t, nextPid, cur, k, p);
    UnusedParented(t, k, p);
    UnusedHomes(t, kdir, refs, k, p);
    CurrentRuns(t, nextPid, cur, kdir, refs, cr3);
  }

  lemma UnusedIdentities(t: seq<Proc>, nextPid: int, cur: nat, k: nat, p: Proc)
    requires Identities(t, nextPid, cur) && k < MAX_PROCS && t[k].life == Unused && p.life == Unused
    ensures Identities(t[k := p], nextPid + 1, cur) && k != 0 && k != cur && |t| == MAX_PROCS
  {
    assert forall i :: 0 <= i < MAX_PROCS ==> (Used(t[k := p], i) <==> Used(t, i));
  }

  lemma UnusedParented(t: seq<Proc>, k: nat, p: Proc)
    requires Parented(t) && k < |t| && t[k].life == Unused && p.life == Unused
    ensures Parented(t[k := p])
  {
    var t' := t[k := p];
    forall i | 1 <= i < |t'| && Used(t', i) ensures exists j :: 0 <= j < |t'| && Parent(t', i, j) {
      assert Used(t, i);
      var j :| 0 <= j < |t| && Parent(t, i, j);
      assert Parent(t', i, j);
    }
  }

  lemma UnusedHomes(t: seq<Proc>, kdir: FrameNo, refs: Refs, k: nat, p: Proc)
    requires Homes(t, kdir, refs) && 0 < k < |t| && t[k].life == Unused && p.life == Unused
    ensures Homes(t[k := p], kdir, refs)
  {
    var t' := t[k := p];
    assert forall i :: 0 <= i < |t| ==> (Used(t', i) <==> Used(t, i));
    forall d: FrameNo | RDir(d) in refs ensures exists i :: 0 <= i < |t'| && Used(t', i) && t'[i].dir == d {
      var i :| 0 <= i < |t| && Used(t, i) && t[i].dir == d;
      assert Used(t', i) && t'[i].dir == d;
    }
  }

  lemma ClonedView(m0: Mem, refs0: Refs, m: Mem, refs: Refs, src: FrameNo, dst: FrameNo, cow: bool)
    requires Cloned(m0, refs0, m, refs, src, dst, cow)
    ensures ViewOf(m.ram, [], dst) == ViewOf(m0.ram, [], src)
    ensures forall d: FrameNo :: RDir(d) in refs <==> RDir(d) in refs0 || d == dst
    ensures !Space(m0.kdir, refs0, dst) && SameLooks(m0, refs0, m.ram)
  {
    assert forall di: nat, ti: nat :: 2 <= di < PAGE_WORDS && 0 <= ti < PAGE_WORDS ==> Seen(m.ram, [], dst, di, ti) == Seen(m0.ram, [], src, di, ti);
    hide Kept, SameLooks;
    assert ViewOf(m.ram, [], dst) == ViewOf(m0.ram, [], src);
  }

  lemma CurrentRuns(t: seq<Proc>, nextPid: int, cur: nat, kdir: FrameNo, refs: Refs, cr3: FrameNo)
    requires TableOk(t, nextPid, cur, kdir, refs, cr3)
    ensures Seated(t, cur, kdir) && t[cur].dir == cr3 && Space(kdir, refs, cr3) && Used(t, cur)
  {
    SlotIsSpace(t, kdir, refs, cur);
  }

  lemma RefusedFork(t: seq<Proc>, nextPid: int, cur: nat, m0: Mem, refs0: Refs, m: Mem, refs: Refs, cr3: FrameNo, cow: bool, k: nat, p: Proc, pact: Pact)
    requires TableOk(t, nextPid, cur, m0.kdir, refs0, cr3) && m.kdir == m0.kdir && CloneRefused(m0, refs0, m, refs, cr3, cow)
    requires k < MAX_PROCS && t[k].life == Unused && p.life == Unused
    ensures TableOk(t[k := p], nextPid + 1, cur, m.kdir, refs, cr3) && m.fr.used == m0.fr.used
    ensures WorldOf(m.ram, pact, m.kdir, t[k := p], nextPid + 1, cur) == WorldOf(m0.ram, pact, m0.kdir, t, nextPid, cur).(nextPid := nextPid + 1)
  {
    hide Identities, Parented, Homes, ViewOf, PromisesOf, SameLooks;
    CurrentRuns(t, nextPid, cur, m0.kdir, refs0, cr3);
    SameDirsHomes(t, nextPid, cur, m.kdir, refs0, refs, cr3);
    UnusedSlot(t, nextPid, cur, m.kdir, refs, cr3, k, p);
    AbsSame(m0, refs0, m.ram, t, pact.rs);
    AbsUpdate(m.ram, m.kdir, t, k, p, pact.rs);
    assert AbsTable(m.ram, pact.rs, m.kdir, t)[k := Free] == AbsTable(m.ram, pact.rs, m.kdir, t);
  }

  lemma GrantedFork(t: seq<Proc>, nextPid: int, cur: nat, m0: Mem, refs0: Refs, m: Mem, refs: Refs, cr3: FrameNo, cow: bool, k: nat, p: Proc, rs: seq<Region>)
    requires TableOk(t, nextPid, cur, m0.kdir, refs0, cr3) && m.kdir == m0.kdir && Cloned(m0, refs0, m, refs, cr3, p.dir, cow)
    requires Wf(m, refs) && 1 <= k < MAX_PROCS && t[k].life == Ready && t[k].dir == 0 && p.life == Ready && SamePerson(t[k], p)
    ensures TableOk(t[k := p], nextPid, cur, m.kdir, refs, cr3)
    ensures AbsTable(m.ram, rs, m.kdir, t[k := p]) ==
            AbsTable(m0.ram, rs, m0.kdir, t)[k := Process(p.pid, p.ppid, Ready, Own(Contents(ViewOf(m0.ram, [], cr3), PromisesOf(rs, p.dir))), p.entry, p.brk, p.code)]
    ensures ViewOf(m.ram, [], m.kdir) == ViewOf(m0.ram, [], m0.kdir)
  {
    hide Wf, Identities, Parented, Homes, ViewOf, PromisesOf, SameLooks, Cloned;
    CurrentRuns(t, nextPid, cur, m0.kdir, refs0, cr3);
    ClonedView(m0, refs0, m, refs, cr3, p.dir, cow);
    SpaceIsManaged(m, refs, p.dir);
    assert Used(t, k);
    MoveIn(t, nextPid, cur, m.kdir, refs0, cr3, k, p, refs);
    AbsSame(m0, refs0, m.ram, t, rs);
    AbsUpdate(m.ram, m.kdir, t, k, p, rs);
  }

  lemma ForkedWorld(ram0: Ram, ram: Ram, kdir: FrameNo, t0: seq<Proc>, pid0: int, cur: nat, k: nat, slot: Proc, child: Proc, stale: Promises, spare: nat, pact: Pact)
    requires Seated(t0, cur, kdir)
    requires k == Slot(WorldOf(ram0, pact, kdir, t0, pid0, cur)) && 1 <= k < MAX_PROCS
    requires slot.life == Ready && child == Proc(pid0, t0[cur].pid, Ready, child.dir, t0[cur].entry, t0[cur].brk, 0)
    requires AbsTable(ram, pact.rs, kdir, t0[k := slot][k := child]) ==
             AbsTable(ram0, pact.rs, kdir, t0[k := slot])[k := Process(pid0, t0[cur].pid, Ready, Own(Contents(ViewOf(ram0, [], t0[cur].dir), stale)), child.entry, child.brk, 0)]
    requires ViewOf(ram, [], kdir) == ViewOf(ram0, [], kdir)
    ensures (WorldOf(ram, pact, kdir, t0[k := slot][k := child], pid0 + 1, cur), pid0) == W.Fork(WorldOf(ram0, pact, kdir, t0, pid0, cur), Luck(true, stale, spare))
  {
    hide ViewOf, PromisesOf;
    HereIs(ram0, kdir, t0, pid0, cur, pact);
    AbsUpdate(ram0, kdir, t0, k, slot, pact.rs);
    var w := WorldOf(ram0, pact, kdir, t0, pid0, cur);
    TwiceAt(w.procs, k, Abs(ram0, pact.rs, kdir, slot), Child(w, Own(Contents(Here(w).pages, stale)), t0[cur].entry, t0[cur].brk));
  }

  lemma ForkFindsNoSlot(w: W.World, luck: Luck)
    requires Sane(w) && Slot(w) == MAX_PROCS && luck.frames && luck.stale == map[]
    ensures W.Fork(w, luck) == (w, -1) && Possible(w, OFork, luck, luck.spare)
  {
  }

  lemma ForkBooks(w: W.World, luck: Luck, need: nat, next: nat)
    requires Sane(w) && Slot(w) < MAX_PROCS && 1 <= need <= FORK_TABLES + |Here(w).pages|
    requires (luck.frames <==> need <= luck.spare) && next == luck.spare - if luck.frames then need else 0
    requires luck.stale == map[] || (luck.stale in w.left && luck.frames)
    ensures Possible(w, OFork, luck, next)
  {
  }

  /** proc_fork in World, when the clone ran out of frames. */
  lemma ForkRefused(t: seq<Proc>, nextPid: int, cur: nat, m0: Mem, refs0: Refs, m: Mem, refs: Refs, cr3: FrameNo, cow: bool, k: nat, p: Proc, spare: nat, pact: Pact)
    requires TableOk(t, nextPid, cur, m0.kdir, refs0, cr3) && m.kdir == m0.kdir && CloneRefused(m0, refs0, m, refs, cr3, cow)
    requires var w := WorldOf(m0.ram, pact, m0.kdir, t, nextPid, cur); Sane(w) && k == Slot(w) < MAX_PROCS
    requires t[k].life == Unused && p.life == Unused
    ensures TableOk(t[k := p], nextPid + 1, cur, m.kdir, refs, cr3) && m.fr.used == m0.fr.used
    ensures (WorldOf(m.ram, pact, m.kdir, t[k := p], nextPid + 1, cur), -1) ==
            W.Fork(WorldOf(m0.ram, pact, m0.kdir, t, nextPid, cur), Luck(false, map[], spare))
  {
    hide TableOk, CloneRefused, AbsTable;
    RefusedFork(t, nextPid, cur, m0, refs0, m, refs, cr3, cow, k, p, pact);
  }

  /** proc_fork in World, when the slot has been filled in and the clone was made. */
  lemma ForkGranted(t: seq<Proc>, nextPid: int, cur: nat, m0: Mem, refs0: Refs, m: Mem, refs: Refs, cr3: FrameNo, cow: bool, k: nat, slot: Proc, child: Proc, spare: nat, pact: Pact)
    requires TableOk(t, nextPid, cur, m0.kdir, refs0, cr3) && m.kdir == m0.kdir && Cloned(m0, refs0, m, refs, cr3, child.dir, cow) && Wf(m, refs)
    requires var w := WorldOf(m0.ram, pact, m0.kdir, t, nextPid, cur); Sane(w) && 1 <= k == Slot(w) < MAX_PROCS
    requires slot == Proc(nextPid, t[cur].pid, Ready, 0, 0, 0, 0) && TableOk(t[k := slot], nextPid + 1, cur, m0.kdir, refs0, cr3)
    requires child == Proc(nextPid, t[cur].pid, Ready, child.dir, t[cur].entry, t[cur].brk, 0)
    ensures TableOk(t[k := slot][k := child], nextPid + 1, cur, m.kdir, refs, cr3)
    ensures (WorldOf(m.ram, pact, m.kdir, t[k := slot][k := child], nextPid + 1, cur), nextPid) ==
            W.Fork(WorldOf(m0.ram, pact, m0.kdir, t, nextPid, cur), Luck(true, PromisesOf(pact.rs, child.dir), spare))
  {
    hide Wf, Identities, Parented, Homes, ViewOf, PromisesOf, Cloned, W.Fork, Slot;
    CurrentRuns(t, nextPid, cur, m0.kdir, refs0, cr3);
    GrantedFork(t[k := slot], nextPid + 1, cur, m0, refs0, m, refs, cr3, cow, k, child, pact.rs);
    ForkedWorld(m0.ram, m.ram, m.kdir, t, nextPid, cur, k, slot, child, PromisesOf(pact.rs, child.dir), spare, pact);
  }

  lemma {:induction false} TablesAreFew(refs: Refs, d: FrameNo, n: nat)
    requires n <= PAGE_WORDS && forall di: Index :: RTab(d, di) in refs ==> di >= 2
    ensures |Copies(refs, d, 0, 0, n, true)| <= if n <= 2 then 0 else n - 2
  {
    if n > 0 {
      TablesAreFew(refs, d, n - 1);
      var r := RTab(d, n - 1);
      var some := Copies(refs, d, 0, 0, n - 1, true);
      assert Copies(refs, d, 0, 0, n, true) == if r in refs then some + {r} else some;
    } else {
      assert Copies(refs, d, 0, 0, 0, true) == {};
    }
  }

  /** As many pages as page references. */
  lemma {:induction false} PagesAreLeaves(leaves: set<Ref>, pages: set<(Index, Index)>, d: FrameNo)
    requires forall r :: r in leaves ==> r.RLeaf? && r.d == d && (r.di, r.ti) in pages
    ensures |leaves| <= |pages|
    decreases |leaves|
  {
    if r :| r in leaves {
      assert r == RLeaf(d, r.di, r.ti);
      PagesAreLeaves(leaves - {r}, pages - {(r.di, r.ti)}, d);
    }
  }

  lemma AllAboveTwo(m: Mem, refs: Refs, r: Ref)
    requires Wf(m, refs) && r in refs && (r.RTab? || r.RLeaf?)
    ensures r.di >= 2
  {
    assert r.RTab? ==> r == RTab(r.d, r.di);
    assert r.RLeaf? ==> r == RLeaf(r.d, r.di, r.ti) && RTab(r.d, r.di) in refs;
  }

  /** What a fork takes, as far as the pages show. */
  lemma CloneNeedIs(m: Mem, refs: Refs, d: FrameNo, cow: bool)
    requires Wf(m, refs) && Space(m.kdir, refs, d)
    ensures 1 <= CloneNeed(refs, d, cow) <= FORK_TABLES + |ViewOf(m.ram, [], d)|
  {
    hide ViewOf, Wf;
    var all := Copies(refs, d, PAGE_WORDS, 0, PAGE_WORDS, cow);
    var leaves := set r | r in all && r.RLeaf?;
    forall r | r in refs && (r.RTab? || r.RLeaf?) ensures r.di >= 2 {
      AllAboveTwo(m, refs, r);
    }
    TablesAreFew(refs, d, PAGE_WORDS);
    forall r | r in leaves ensures r.d == d && (r.di, r.ti) in ViewOf(m.ram, [], d).Keys {
      assert r == RLeaf(d, r.di, r.ti);
      InView(m, refs, d, r.di, r.ti);
    }
    PagesAreLeaves(leaves, ViewOf(m.ram, [], d).Keys, d);
    assert all == Copies(refs, d, 0, 0, PAGE_WORDS, true) + leaves;
  }

  lemma FewerUses(m0: Mem, refs0: Refs, m: Mem, refs: Refs)
    requires Wf(m0, refs0) && Wf(m, refs) && m.fr.total == m0.fr.total && Fewer(refs0, refs)
    ensures m.fr.used <= m0.fr.used
  {
    hide Wf;
    MoreOwnersMoreUsed(m, refs, m0, refs0);
  }

  lemma PidFound(w: W.World, pid: int, k: nat)
    requires Sane(w) && k <= MAX_PROCS && (k < MAX_PROCS ==> w.procs[k].Process? && w.procs[k].pid == pid)
    requires forall j :: 0 <= j < k ==> !(w.procs[j].Process? && w.procs[j].pid == pid)
    ensures ByPid(w, pid) == k
  {
  }

  lemma SwitchedWorld(ram: Ram, kdir: FrameNo, t: seq<Proc>, nextPid: int, cur: nat, pid: int, k: nat, pact: Pact)
    requires Seated(t, cur, kdir) && k < MAX_PROCS
    requires k == ByPid(WorldOf(ram, pact, kdir, t, nextPid, cur), pid) && t[k].life != Zombie && t[k].life != Unused && t[k].dir != 0
    ensures (WorldOf(ram, pact, kdir, t[cur := t[cur].(life := Ready)][k := t[k].(life := Running)], nextPid, k), 0) == W.Switch(WorldOf(ram, pact, kdir, t, nextPid, cur), pid)
  {
    hide ViewOf, PromisesOf;
    var t1 := t[cur := t[cur].(life := Ready)];
    AbsUpdate(ram, kdir, t, cur, t1[cur], pact.rs);
    AbsUpdate(ram, kdir, t1, k, t[k].(life := Running), pact.rs);
  }

  /** References only went away. */
  ghost predicate Fewer(refs: Refs, refs': Refs) {
    forall r :: r in refs' ==> r in refs && refs'[r] == refs[r]
  }

  lemma KeptAll(refs: Refs)
    ensures Fewer(refs, refs)
  {
  }

  lemma OnlyKernelIsZero(t: seq<Proc>, nextPid: int, cur: nat)
    requires Identities(t, nextPid, cur)
    ensures t[cur].pid == 0 <==> cur == 0
  {
    assert Used(t, cur) && Used(t, 0);
  }

  lemma KernelStays(ram: Ram, kdir: FrameNo, t: seq<Proc>, nextPid: int, cur: nat, code: int, pact: Pact)
    requires Seated(t, cur, kdir) && t[cur].pid == 0
    ensures W.Exit(WorldOf(ram, pact, kdir, t, nextPid, cur), code) == WorldOf(ram, pact, kdir, t, nextPid, cur)
  {
  }

  /** A private address space goes; promises made to it stay behind. */
  ghost function Leaves(pact: Pact, kdir: FrameNo, d: FrameNo): Pact {
    pact.(left := pact.left + if Private(kdir, d) && PromisesOf(pact.rs, d) != map[] then {PromisesOf(pact.rs, d)} else {})
  }

  ghost predicate LeftBehind(pact: Pact, owed: Promises) {
    owed == map[] || owed in pact.left
  }

  /** What is promised to a frame that is no address space was left behind. */
  ghost predicate Remembered(pact: Pact, kdir: FrameNo, refs: Refs) {
    forall d: FrameNo :: !Space(kdir, refs, d) ==> LeftBehind(pact, PromisesOf(pact.rs, d))
  }

  lemma AbsReparent(ram: Ram, kdir: FrameNo, p: Proc, pid: int, rs: seq<Region>)
    ensures Abs(ram, rs, kdir, Reparent(p, pid)) == Orphan(Abs(ram, rs, kdir, p), pid)
  {
  }

  lemma ExitedWorld(ram0: Ram, ram: Ram, kdir: FrameNo, t: seq<Proc>, t': seq<Proc>, nextPid: int, cur: nat, code: int, z: Proc, pact: Pact)
    requires Seated(t, cur, kdir) && |t'| == MAX_PROCS && 0 < cur && t[cur].pid != 0
    requires Exited(t, t', cur, z) && z == t[cur].(life := Zombie, code := code, dir := if t[cur].dir == kdir then kdir else 0)
    requires forall i :: 0 <= i < MAX_PROCS && i != cur ==> Abs(ram, pact.rs, kdir, t[i]) == Abs(ram0, pact.rs, kdir, t[i])
    requires ViewOf(ram, [], kdir) == ViewOf(ram0, [], kdir)
    ensures WorldOf(ram, Leaves(pact, kdir, t[cur].dir), kdir, t', nextPid, 0) == W.Exit(WorldOf(ram0, pact, kdir, t, nextPid, cur), code)
  {
    hide ViewOf, PromisesOf;
    var w := WorldOf(ram0, pact, kdir, t, nextPid, cur);
    forall i | 0 <= i < MAX_PROCS ensures Abs(ram, pact.rs, kdir, t'[i]) == W.Exit(w, code).procs[i] {
      if i == 0 {
        assert w.procs[0].mem == Kernel;
      } else if i == cur {
        AbsReparent(ram, kdir, z, t[cur].pid, pact.rs);
        assert Abs(ram, pact.rs, kdir, z) == w.procs[cur].(life := Zombie, code := code, mem := if w.procs[cur].mem.Own? then Nowhere else w.procs[cur].mem);
      } else {
        AbsReparent(ram, kdir, t[i], t[cur].pid, pact.rs);
        assert Abs(ram, pact.rs, kdir, t[i]) == w.procs[i];
      }
    }
    assert AbsTable(ram, pact.rs, kdir, t') == W.Exit(w, code).procs;
  }

  lemma ExitedFrom(m0: Mem, refs0: Refs, m: Mem, refs: Refs, t: seq<Proc>, t': seq<Proc>, nextPid: int, cur: nat, cr3: FrameNo, code: int, z: Proc, pact: Pact)
    requires TableOk(t, nextPid, cur, m0.kdir, refs0, cr3) && cur != 0 && m.kdir == m0.kdir && Wf(m0, refs0) && Wf(m, refs)
    requires |t'| == MAX_PROCS && Exited(t, t', cur, z) && Sane(WorldOf(m0.ram, pact, m0.kdir, t, nextPid, cur))
    requires z == t[cur].(life := Zombie, code := code, dir := if t[cur].dir == m.kdir then m.kdir else 0)
    requires t[cur].dir == m.kdir ==> m.ram == m0.ram && refs == refs0
    requires t[cur].dir != m.kdir ==> refs == Without(refs0, t[cur].dir) && OthersSame(m0, refs0, m.ram, t[cur].dir)
    ensures TableOk(t', nextPid, 0, m.kdir, refs, m.kdir) && Fewer(refs0, refs)
    ensures WorldOf(m.ram, Leaves(pact, m.kdir, t[cur].dir), m.kdir, t', nextPid, 0) == W.Exit(WorldOf(m0.ram, pact, m0.kdir, t, nextPid, cur), code)
  {
    hide Identities, Parented, Homes, ViewOf, PromisesOf, OthersSame, CountsExact, TabsMatch, LeavesMatch, Graph;
    CurrentRuns(t, nextPid, cur, m.kdir, refs0, cr3);
    OnlyKernelIsZero(t, nextPid, cur);
    NoKernelDir(t, m.kdir, refs0);
    ExitKeeps(t, t', nextPid, cur, m.kdir, refs0, t[cur].dir, z, refs);
    if t[cur].dir != m.kdir {
      AbsOthers(m0, refs0, m.ram, t, t[cur].dir, pact.rs);
      OneHome(t, m.kdir, refs0, cur);
      AbsUnused(m0.ram, m.ram, m.kdir, t, pact.rs);
    }
    ExitedWorld(m0.ram, m.ram, m.kdir, t, t', nextPid, cur, code, z, pact);
  }

  lemma NoKernelDir(t: seq<Proc>, kdir: FrameNo, refs: Refs)
    requires Homes(t, kdir, refs)
    ensures RDir(kdir) !in refs && RDir(0) !in refs
  {
  }

  lemma OneHome(t: seq<Proc>, kdir: FrameNo, refs: Refs, k: nat)
    requires Homes(t, kdir, refs) && k < |t| && Used(t, k) && Private(kdir, t[k].dir)
    ensures forall i :: 0 <= i < |t| && i != k && Used(t, i) ==> t[i].dir != t[k].dir
  {
  }

  lemma AbsUnused(ram0: Ram, ram: Ram, kdir: FrameNo, t: seq<Proc>, rs: seq<Region>)
    ensures forall i :: 0 <= i < |t| && !Used(t, i) ==> Abs(ram, rs, kdir, t[i]) == Abs(ram0, rs, kdir, t[i])
  {
  }

  lemma SlotPid(t: seq<Proc>, nextPid: int, cur: nat, k: nat)
    requires Identities(t, nextPid, cur) && 1 <= k < MAX_PROCS && Used(t, k)
    ensures t[k].pid > 0
  {
  }

  lemma ReleasedFrom(m0: Mem, refs0: Refs, m: Mem, refs: Refs, t: seq<Proc>, nextPid: int, cur: nat, cr3: FrameNo, k: nat, rs: seq<Region>)
    requires TableOk(t, nextPid, cur, m0.kdir, refs0, cr3) && m.kdir == m0.kdir && 1 <= k < MAX_PROCS && k != cur && Used(t, k) && Childless(t, k)
    requires !Private(m.kdir, t[k].dir) ==> m.ram == m0.ram && refs == refs0
    requires Private(m.kdir, t[k].dir) ==> refs == Without(refs0, t[k].dir) && OthersSame(m0, refs0, m.ram, t[k].dir)
    ensures TableOk(t[k := BLANK], nextPid, cur, m.kdir, refs, cr3) && Fewer(refs0, refs)
    ensures AbsTable(m.ram, rs, m.kdir, t[k := BLANK]) == AbsTable(m0.ram, rs, m0.kdir, t)[k := Free]
    ensures ViewOf(m.ram, [], m.kdir) == ViewOf(m0.ram, [], m0.kdir)
  {
    hide Identities, Parented, Homes, ViewOf, PromisesOf, OthersSame, Childless;
    NoKernelDir(t, m.kdir, refs0);
    Vacate(t, nextPid, cur, m.kdir, refs0, cr3, k, BLANK, refs);
    if Private(m.kdir, t[k].dir) {
      AbsOthers(m0, refs0, m.ram, t, t[k].dir, rs);
      OneHome(t, m.kdir, refs0, k);
      AbsUnused(m0.ram, m.ram, m.kdir, t, rs);
    }
    assert AbsTable(m.ram, rs, m.kdir, t[k := BLANK]) == AbsTable(m0.ram, rs, m0.kdir, t)[k := Free];
  }

  lemma ZombieFound(w: W.World, k: nat)
    requires Sane(w) && 1 <= k <= MAX_PROCS
    requires k < MAX_PROCS ==> w.procs[k].Process? && w.procs[k].life == Zombie && w.procs[k].ppid == w.procs[w.cur].pid
    requires forall j :: 1 <= j < k ==> !(w.procs[j].Process? && w.procs[j].life == Zombie && w.procs[j].ppid == w.procs[w.cur].pid)
    ensures W.Wait(w) == if k == MAX_PROCS then (w, -1, 0) else (w.(procs := w.procs[k := Free]), w.procs[k].pid, w.procs[k].code)
  {
  }

  /** A change at one page of the active address space is a change of the current process's memory and of nothing else. */
  lemma ChangedHere(m0: Mem, refs0: Refs, m: Mem, t: seq<Proc>, nextPid: int, cur: nat, cr3: FrameNo, di: Index, ti: Index, pact: Pact)
    requires TableOk(t, nextPid, cur, m0.kdir, refs0, cr3) && m.kdir == m0.kdir && SameLooksBut(m0, refs0, m.ram, cr3, di, ti)
    ensures Sane(WorldOf(m0.ram, pact, m0.kdir, t, nextPid, cur))
    ensures WorldOf(m.ram, pact, m.kdir, t, nextPid, cur) == SetHere(WorldOf(m0.ram, pact, m0.kdir, t, nextPid, cur), ContentsOf(m.ram, pact.rs, cr3))
  {
    hide Parented, Homes, ViewOf, PromisesOf, SameLooksBut;
    CurrentRuns(t, nextPid, cur, m.kdir, refs0, cr3);
    HereIs(m0.ram, m0.kdir, t, nextPid, cur, pact);
    AbsBut(m0, refs0, m.ram, t, cr3, di, ti, pact.rs);
    if cr3 != m.kdir {
      OneHome(t, m.kdir, refs0, cur);
      AbsUnused(m0.ram, m.ram, m.kdir, t, pact.rs);
      assert AbsTable(m.ram, pact.rs, m.kdir, t) == AbsTable(m0.ram, pact.rs, m.kdir, t)[cur := Abs(m.ram, pact.rs, m.kdir, t[cur])];
    } else {
      assert AbsTable(m.ram, pact.rs, m.kdir, t) == AbsTable(m0.ram, pact.rs, m.kdir, t);
    }
  }

  lemma InView(m: Mem, refs: Refs, d: FrameNo, di: Index, ti: Index)
    requires Wf(m, refs) && Space(m.kdir, refs, d) && di >= 2
    ensures RLeaf(d, di, ti) in refs <==> (di, ti) in ViewOf(m.ram, [], d)
  {
    Walk(m, refs, d, di, ti);
    hide Wf;
    assert Seen(m.ram, [], d, di, ti) == Look(m.ram, d, di, ti);
  }

  lemma ViewChanged(m0: Mem, refs0: Refs, m: Mem, refs: Refs, d: FrameNo, di: Index, ti: Index)
    requires SameLooksBut(m0, refs0, m.ram, d, di, ti) && Space(m0.kdir, refs0, d) && di >= 2
    ensures Look(m.ram, d, di, ti) == Look(m0.ram, d, di, ti) ==> ViewOf(m.ram, [], d) == ViewOf(m0.ram, [], d)
    ensures Look(m.ram, d, di, ti).Some? ==> ViewOf(m.ram, [], d) == ViewOf(m0.ram, [], d)[(di, ti) := Look(m.ram, d, di, ti).value]
    ensures Look(m.ram, d, di, ti).None? ==> ViewOf(m.ram, [], d) == ViewOf(m0.ram, [], d) - {(di, ti)}
  {
    hide SameLooksBut, Seen, Look;
    ViewStep(m0, refs0, m.ram, [], d, di, ti);
    SeenIsLook(m.ram, d, di, ti);
    SeenIsLook(m0.ram, d, di, ti);
  }

  lemma SeenIsLook(ram: Ram, d: FrameNo, di: Index, ti: Index)
    ensures Seen(ram, [], d, di, ti) == Look(ram, d, di, ti)
  {
  }

  lemma SetHereSame(w: W.World)
    requires Sane(w)
    ensures SetHere(w, Here(w)) == w
  {
    assert w.procs[w.cur := w.procs[w.cur]] == w.procs;
  }

  lemma TwiceAt<T>(s: seq<T>, k: nat, x: T, y: T)
    requires k < |s|
    ensures s[k := x][k := y] == s[k := y]
  {
  }

  lemma SpawnedFrom(m0: Mem, refs0: Refs, m: Mem, refs: Refs, t: seq<Proc>, nextPid: int, cur: nat, cr3: FrameNo, k: nat, d: FrameNo, rs: seq<Region>)
    requires TableOk(t, nextPid, cur, m0.kdir, refs0, cr3) && m.kdir == m0.kdir && 1 <= k < MAX_PROCS && t[k].life == Ready && t[k].dir == 0
    requires Wf(m, refs) && !Space(m.kdir, refs0, d) && refs == refs0[RDir(d) := ZERO.(frame := d)] && SameLooks(m0, refs0, m.ram)
    requires forall di: Index, ti: Index :: di >= 2 ==> Look(m.ram, d, di, ti) == None
    ensures TableOk(t[k := t[k].(dir := d)], nextPid, cur, m.kdir, refs, cr3)
    ensures AbsTable(m.ram, rs, m.kdir, t[k := t[k].(dir := d)]) == AbsTable(m0.ram, rs, m.kdir, t)[k := Abs(m0.ram, rs, m.kdir, t[k]).(mem := Own(Contents(map[], PromisesOf(rs, d))))]
    ensures ViewOf(m.ram, [], m.kdir) == ViewOf(m0.ram, [], m.kdir)
  {
    hide Wf, Identities, Parented, Homes, SameLooks;
    CurrentRuns(t, nextPid, cur, m0.kdir, refs0, cr3);
    SpaceIsManaged(m, refs, d);
    assert ViewOf(m.ram, [], d) == map[];
    hide ViewOf, PromisesOf;
    assert Used(t, k);
    MoveIn(t, nextPid, cur, m.kdir, refs0, cr3, k, t[k].(dir := d), refs);
    AbsSame(m0, refs0, m.ram, t, rs);
    AbsUpdate(m.ram, m.kdir, t, k, t[k].(dir := d), rs);
  }

  lemma SpawnPays(m0: Mem, refs0: Refs, m: Mem, refs: Refs, d: FrameNo, copied: multiset<FrameNo>)
    requires Wf(m, refs) && !Space(m0.kdir, refs0, d) && refs == refs0[RDir(d) := ZERO.(frame := d)]
    ensures Paid(refs0, copied, refs, copied)
  {
    SoleOwner(m, refs, RDir(d));
    MappingPays(refs0, refs, copied);
  }

  /** A slot without private memory moves in with the kernel. */
  lemma Settle(t: seq<Proc>, nextPid: int, cur: nat, kdir: FrameNo, refs: Refs, cr3: FrameNo, k: nat, p: Proc)
    requires TableOk(t, nextPid, cur, kdir, refs, cr3) && 1 <= k < MAX_PROCS && t[k].life == Ready && t[k].dir == 0
    requires p.life == Ready && SamePerson(t[k], p) && p.dir == kdir
    ensures TableOk(t[k := p], nextPid, cur, kdir, refs, cr3)
  {
    hide Parented;
    var t' := t[k := p];
    ParentedKeeps(t, t');
    IdentitiesKeeps(t, t', nextPid, cur, cur);
    hide Identities;
    forall d: FrameNo | RDir(d) in refs ensures exists i :: 0 <= i < |t'| && Used(t', i) && t'[i].dir == d {
      var i :| 0 <= i < |t| && Used(t, i) && t[i].dir == d;
      assert Used(t', i) && t'[i].dir == d;
    }
    assert forall i :: 0 <= i < MAX_PROCS ==> (Used(t', i) <==> Used(t, i));
  }

  /** The kernel can always be switched to. */
  lemma SwitchedToKernel(w: W.World)
    requires Sane(w)
    ensures ByPid(w, 0) == 0 && W.Switch(w, 0).1 == 0 && W.Switch(w, 0).0.cur == 0
  {
    PidFound(w, 0, 0);
  }

  /** Slot `k` holds the first zombie child of the current process; MAX_PROCS if there is none. */
  ghost predicate FirstZombie(t: seq<Proc>, cur: nat, k: nat)
    requires |t| == MAX_PROCS
  {
    && cur < MAX_PROCS && k <= MAX_PROCS
    && (k < MAX_PROCS ==> t[k].life == Zombie && t[k].ppid == t[cur].pid)
    && forall j :: 1 <= j < k ==> !(t[j].life == Zombie && t[j].ppid == t[cur].pid)
  }

  ghost predicate Reaps(t: seq<Proc>, t': seq<Proc>, cur: nat, k: nat, pid: int, code: int)
    requires |t| == MAX_PROCS && k < MAX_PROCS
  {
    FirstZombie(t, cur, k) && t' == t[k := BLANK] && pid == t[k].pid && code == t[k].code
  }

  /** The pids and exit codes of the zombies from slot `i` on. */
  function Dead(t: seq<Proc>, i: nat): seq<(int, int)>
    requires i <= |t|
    decreases |t| - i
  {
    if i == |t| then [] else if t[i].life == Zombie then [(t[i].pid, t[i].code)] + Dead(t, i + 1) else Dead(t, i + 1)
  }

  lemma {:induction false} ReapFirst(t: seq<Proc>, i: nat, k: nat)
    requires i <= k < |t| && t[k].life == Zombie && forall j :: i <= j < k ==> t[j].life != Zombie
    ensures Dead(t, i) == [(t[k].pid, t[k].code)] + Dead(t[k := BLANK], i)
    decreases k - i
  {
    if i < k {
      ReapFirst(t, i + 1, k);
    } else {
      DeadFrom(t, t[k := BLANK], k + 1);
    }
  }

  lemma {:induction false} DeadFrom(t: seq<Proc>, t': seq<Proc>, i: nat)
    requires |t| == |t'| && i <= |t| && forall j :: i <= j < |t| ==> t[j] == t'[j]
    ensures Dead(t, i) == Dead(t', i)
    decreases |t| - i
  {
    if i < |t| {
      DeadFrom(t, t', i + 1);
    }
  }

  lemma {:induction false} NoneDead(t: seq<Proc>, i: nat)
    requires i <= |t| && forall j :: i <= j < |t| ==> t[j].life != Zombie
    ensures Dead(t, i) == []
    decreases |t| - i
  {
    if i < |t| {
      NoneDead(t, i + 1);
    }
  }

  predicate AllDead(t: seq<Proc>) {
    forall i :: 1 <= i < |t| ==> t[i].life == Unused || t[i].life == Zombie
  }

  lemma NobodyDead(t: seq<Proc>, nextPid: int)
    requires Identities(t, nextPid, 0) && Parented(t) && AllDead(t) && FirstZombie(t, 0, MAX_PROCS)
    ensures Dead(t, 1) == [] && forall i :: 1 <= i < MAX_PROCS ==> t[i].life == Unused
  {
    KernelIsParent(t, nextPid);
    NoneDead(t, 1);
  }

  lemma FirstIsDead(t: seq<Proc>, nextPid: int, k: nat, refs: Refs, kdir: FrameNo, cr3: FrameNo)
    requires TableOk(t, nextPid, 0, kdir, refs, cr3) && AllDead(t) && 1 <= k < MAX_PROCS && FirstZombie(t, 0, k)
    ensures Dead(t, 1) == [(t[k].pid, t[k].code)] + Dead(t[k := BLANK], 1)
  {
    KernelIsParent(t, nextPid);
    ReapFirst(t, 1, k);
  }

  /** When every process but the kernel is dead, the kernel is everybody's parent. */
  lemma KernelIsParent(t: seq<Proc>, nextPid: int)
    requires Identities(t, nextPid, 0) && Parented(t) && AllDead(t)
    ensures forall i :: 1 <= i < MAX_PROCS && t[i].life == Zombie ==> t[i].ppid == t[0].pid
  {
    forall i | 1 <= i < MAX_PROCS && t[i].life == Zombie ensures t[i].ppid == t[0].pid {
      assert Used(t, i);
      var j :| 0 <= j < |t| && Parent(t, i, j);
    }
  }

  /** With no process left, every reference is a lost frame or hangs off a page table of the kernel's own. */
  lemma NobodyHome(m: Mem, t: seq<Proc>, refs: Refs)
    requires Wf(m, refs) && Homes(t, m.kdir, refs) && forall i :: 1 <= i < |t| ==> t[i].life == Unused
    ensures Clean(m.kdir, refs) <==> refs == map[]
  {
    assert forall i :: 0 <= i < |t| && Used(t, i) ==> t[i].dir == m.kdir;
    assert forall d: FrameNo :: RDir(d) !in refs;
    forall r | r in refs && !r.RHeld? ensures RTab(r.d, r.di) in refs && r.d == m.kdir {
      assert r.RTab? ==> r == RTab(r.d, r.di);
      assert r.RLeaf? ==> r == RLeaf(r.d, r.di, r.ti) && RTab(r.d, r.di) in refs;
      assert r.RDir? ==> r == RDir(r.d);
    }
  }

  /** In every state a run can reach: counts are exact and far from the 8-bit cap, and a writable page has one owner. */
  lemma CountsNeverSaturate(m: Mem, refs: Refs, t: seq<Proc>, nextPid: int, cur: nat, cr3: FrameNo, f: FrameNo)
    requires Wf(m, refs) && TableOk(t, nextPid, cur, m.kdir, refs, cr3) && Managed(m.fr, f)
    ensures Refcount(m.fr, f) == |Owners(refs, f)| <= MAX_PROCS + 1 < MAX_REFS
    ensures m.fr.bits[f - BASE] <==> Refcount(m.fr, f) > 0
    ensures m.fr.used == CountTrue(m.fr.bits)
    ensures forall r :: r in refs && refs[r].frame == f && (r.RLeaf? ==> refs[r].rw) ==> Refcount(m.fr, f) == 1
  {
    FewSpaces(t, m.kdir, refs);
    OwnersBound(m.ram, m.kdir, refs, f);
    forall r | r in refs && refs[r].frame == f && (r.RLeaf? ==> refs[r].rw) ensures Refcount(m.fr, f) == 1 {
      SoleOwner(m, refs, r);
    }
  }

  predicate Allowed(op: Op) {
    && (op.OTouch? ==> op.a.di >= 2) && (op.OMap? || op.OUnmap? ==> op.di >= 2)
    && (op.OPromise? ==> op.start < WRAP && op.end < WRAP)
  }

  // ---- promises ------------------------------------------------------------------

  /** A new address space gets the lowest free frame for its directory, and finds what is still promised to that frame. */
  ghost predicate Found(s: Frames, rs: seq<Region>, d: FrameNo, stale: Promises)
    requires |s.bits| == s.total
  {
    Lowest(s, d) && stale == PromisesOf(rs, d)
  }

  lemma NothingPromised(rs: seq<Region>)
    requires forall i :: 0 <= i < |rs| ==> !rs[i].active
    ensures Taken(rs) == 0 && forall d: FrameNo :: PromisesOf(rs, d) == map[]
  {
    forall d: FrameNo, a: nat ensures Promised(rs, d, a) == None {
      PromiseFrom(rs, |rs|, d, a);
      assert rs[|rs|..] == [];
    }
  }

  lemma RememberedSame(pact: Pact, pact': Pact, kdir: FrameNo, refs: Refs, refs': Refs)
    requires Remembered(pact, kdir, refs) && pact'.rs == pact.rs && pact'.left == pact.left
    requires forall d: FrameNo :: RDir(d) in refs' <==> RDir(d) in refs
    ensures Remembered(pact', kdir, refs')
  {
  }

  lemma RememberedCloned(pact: Pact, m0: Mem, refs0: Refs, m: Mem, refs: Refs, src: FrameNo, d: nat, cow: bool)
    requires Remembered(pact, m0.kdir, refs0) && d < RAM_FRAMES
    requires if d == 0 then CloneRefused(m0, refs0, m, refs, src, cow) else Cloned(m0, refs0, m, refs, src, d, cow)
    ensures Remembered(pact, m0.kdir, refs) && (Clean(m0.kdir, refs) <==> Clean(m0.kdir, refs0))
    ensures d != 0 ==> LeftBehind(pact, PromisesOf(pact.rs, d))
  {
    hide PromisesOf, SameLooks, Look;
    assert d == 0 ==> forall r :: r in refs <==> r in refs0.Keys;
  }

  lemma RememberedSpawned(pact: Pact, kdir: FrameNo, refs: Refs, d: FrameNo, refs': Refs)
    requires Remembered(pact, kdir, refs) && !Space(kdir, refs, d) && refs' == refs[RDir(d) := ZERO.(frame := d)]
    ensures Remembered(pact, kdir, refs') && (Clean(kdir, refs') <==> Clean(kdir, refs))
    ensures LeftBehind(pact, PromisesOf(pact.rs, d))
  {
    hide PromisesOf;
  }

  lemma CleanWithout(kdir: FrameNo, refs: Refs, d: FrameNo)
    requires d != kdir
    ensures Clean(kdir, Without(refs, d)) <==> Clean(kdir, refs)
  {
    assert forall r :: r in refs && r !in Without(refs, d) ==> !r.RHeld? && r.d == d;
  }

  lemma RememberedWithout(pact: Pact, kdir: FrameNo, refs: Refs, d: FrameNo, refs': Refs)
    requires Remembered(pact, kdir, refs) && (if Private(kdir, d) then refs' == Without(refs, d) else refs' == refs)
    ensures Remembered(Leaves(pact, kdir, d), kdir, refs')
  {
    hide PromisesOf;
    forall e: FrameNo | e != d ensures RDir(e) in refs' <==> RDir(e) in refs {
    }
  }

  lemma RememberedHere(pact: Pact, pact': Pact, kdir: FrameNo, refs: Refs, d: FrameNo)
    requires Remembered(pact, kdir, refs) && Space(kdir, refs, d) && pact'.left == pact.left
    requires forall e: FrameNo :: e != d ==> PromisesOf(pact'.rs, e) == PromisesOf(pact.rs, e)
    ensures Remembered(pact', kdir, refs)
  {
    hide PromisesOf;
  }

  lemma BequestIs(ram: Ram, t: seq<Proc>, nextPid: int, cur: nat, kdir: FrameNo, k: nat, pact: Pact)
    requires k < |t| && Used(t, k)
    ensures var w := WorldOf(ram, pact, kdir, t, nextPid, cur);
            w.procs[k].Process? && pact.left + Bequest(w.procs[k].mem) == Leaves(pact, kdir, t[k].dir).left
  {
    hide PromisesOf, ViewOf;
  }

  lemma KernelIsNotOwn(ram: Ram, t: seq<Proc>, nextPid: int, cur: nat, kdir: FrameNo, pact: Pact)
    requires Seated(t, cur, kdir)
    ensures WorldOf(ram, pact, kdir, t, nextPid, cur).procs[cur].Process?
    ensures WorldOf(ram, pact, kdir, t, nextPid, cur).procs[cur].mem.Own? <==> t[cur].dir != kdir
  {
  }

  lemma ServedWorld(ram: Ram, kdir: FrameNo, t: seq<Proc>, nextPid: int, cur: nat, pact: Pact, pact': Pact)
    requires pact' == pact.(served := pact'.served)
    ensures WorldOf(ram, pact', kdir, t, nextPid, cur) == WorldOf(ram, pact, kdir, t, nextPid, cur).(served := pact'.served)
  {
  }

  /** A promise to the active address space is a promise to the current process and to nobody else. */
  lemma PromisedHere(ram: Ram, kdir: FrameNo, t: seq<Proc>, nextPid: int, cur: nat, refs: Refs, cr3: FrameNo, pact: Pact, pact': Pact)
    requires TableOk(t, nextPid, cur, kdir, refs, cr3) && pact' == pact.(rs := pact'.rs)
    requires forall e: FrameNo :: e != cr3 ==> PromisesOf(pact'.rs, e) == PromisesOf(pact.rs, e)
    ensures Sane(WorldOf(ram, pact, kdir, t, nextPid, cur))
    ensures WorldOf(ram, pact', kdir, t, nextPid, cur) ==
            SetHere(WorldOf(ram, pact, kdir, t, nextPid, cur), ContentsOf(ram, pact'.rs, cr3)).(regions := Taken(pact'.rs))
  {
    hide Parented, Homes, ViewOf, PromisesOf;
    CurrentRuns(t, nextPid, cur, kdir, refs, cr3);
    HereIs(ram, kdir, t, nextPid, cur, pact);
    if cr3 != kdir {
      OneHome(t, kdir, refs, cur);
      assert AbsTable(ram, pact'.rs, kdir, t) == AbsTable(ram, pact.rs, kdir, t)[cur := Abs(ram, pact'.rs, kdir, t[cur])];
    } else {
      assert AbsTable(ram, pact'.rs, kdir, t) == AbsTable(ram, pact.rs, kdir, t);
    }
  }

  lemma ClearedWorld(ram: Ram, kdir: FrameNo, t: seq<Proc>, nextPid: int, cur: nat, pact: Pact, pact': Pact)
    requires Taken(pact'.rs) == 0 && pact'.served == 0 && pact'.left == {} && forall d: FrameNo :: PromisesOf(pact'.rs, d) == map[]
    ensures WorldOf(ram, pact', kdir, t, nextPid, cur) == W.Clear(WorldOf(ram, pact, kdir, t, nextPid, cur))
  {
    hide ViewOf, PromisesOf;
    var w := WorldOf(ram, pact, kdir, t, nextPid, cur);
    assert AbsTable(ram, pact'.rs, kdir, t) == W.Clear(w).procs;
  }

  lemma SeenAt(ram: Ram, rs: seq<Region>, d: FrameNo, di: Index, ti: Index)
    requires di >= 2
    ensures (di, ti) in ViewOf(ram, rs, d) <==> (di, ti) in Backed(ContentsOf(ram, rs, d), (di, ti))
    ensures (di, ti) in ViewOf(ram, rs, d) ==> ViewOf(ram, rs, d)[(di, ti)] == Backed(ContentsOf(ram, rs, d), (di, ti))[(di, ti)]
  {
    hide Look, Promised, Address;
    PromiseAt(rs, d, di, ti);
    SeenIsLook(ram, d, di, ti);
  }

  /** An access seen from the pages alone: a promised page comes into being, and the rest is plain memory. */
  lemma TouchedPages(m0: Mem, refs0: Refs, m: Mem, refs: Refs, rs: seq<Region>, d: FrameNo, a: Access, o: Outcome)
    requires Wf(m0, refs0) && Wf(m, refs) && m.kdir == m0.kdir && Space(m0.kdir, refs0, d) && Space(m.kdir, refs, d) && a.di >= 2
    requires SameLooksBut(m0, refs0, m.ram, d, a.di, a.ti) && (ViewOf(m.ram, rs, d), o) == Plain(ViewOf(m0.ram, rs, d), a)
    requires RLeaf(d, a.di, a.ti) in refs <==> (a.di, a.ti) in ViewOf(m0.ram, rs, d)
    ensures (ViewOf(m.ram, [], d), o) == Plain(Backed(ContentsOf(m0.ram, rs, d), (a.di, a.ti)), a)
    ensures var c := ContentsOf(m0.ram, rs, d); var p := (a.di, a.ti);
            Faulted(refs0, refs, RLeaf(d, a.di, a.ti)) == if p !in c.pages && p in c.owed then 1 else 0
  {
    hide Wf, SameLooksBut, ViewOf, PromisesOf, Look;
    InView(m0, refs0, d, a.di, a.ti);
    InView(m, refs, d, a.di, a.ti);
    SeenAt(m0.ram, rs, d, a.di, a.ti);
    SeenAt(m.ram, rs, d, a.di, a.ti);
    ViewChanged(m0, refs0, m, refs, d, a.di, a.ti);
    var p, v0, v1 := (a.di, a.ti), ViewOf(m0.ram, [], d), ViewOf(m.ram, [], d);
    var b := Backed(ContentsOf(m0.ram, rs, d), p);
    PlainAt(ViewOf(m0.ram, rs, d), b, a);
    if p in b {
      assert p in v1 && v1 == v0[p := v1[p]];
      assert b[p := v1[p]] == v0[p := v1[p]];
    } else {
      assert v1 == v0;
    }
  }

  /** An access looks at and changes one page. */
  lemma PlainAt(v: View, b: View, a: Access)
    requires var p := (a.di, a.ti); (p in v <==> p in b) && (p in v ==> v[p] == b[p])
    ensures var p := (a.di, a.ti); var (v', o) := Plain(v, a);
            (p in v' <==> p in v) && Plain(b, a) == (if p in b then b[p := v'[p]] else b, o)
  {
    var p := (a.di, a.ti);
    assert p in b ==> b[p := b[p]] == b;
  }

  lemma StarvedPages(m0: Mem, refs0: Refs, m: Mem, refs: Refs, rs: seq<Region>, d: FrameNo, a: Access)
    requires Wf(m0, refs0) && Wf(m, refs) && m.kdir == m0.kdir && Space(m0.kdir, refs0, d) && Space(m.kdir, refs, d) && a.di >= 2
    requires SameLooksBut(m0, refs0, m.ram, d, a.di, a.ti) && ViewOf(m.ram, rs, d) == ViewOf(m0.ram, rs, d)
    requires RLeaf(d, a.di, a.ti) in refs <==> RLeaf(d, a.di, a.ti) in refs0
    ensures ViewOf(m.ram, [], d) == ViewOf(m0.ram, [], d) && Faulted(refs0, refs, RLeaf(d, a.di, a.ti)) == 0
  {
    hide Wf, SameLooksBut, ViewOf, PromisesOf, Look;
    InView(m0, refs0, d, a.di, a.ti);
    InView(m, refs, d, a.di, a.ti);
    SeenAt(m0.ram, rs, d, a.di, a.ti);
    SeenAt(m.ram, rs, d, a.di, a.ti);
    ViewChanged(m0, refs0, m, refs, d, a.di, a.ti);
  }

  /** How many frames an access takes, as far as the pages and promises show. */
  lemma NeedIs(m: Mem, refs: Refs, rs: seq<Region>, d: FrameNo, a: Access)
    requires Wf(m, refs) && Space(m.kdir, refs, d) && a.di >= 2
    ensures var need := Need(refs, rs, d, a.di, a.ti, a.Write?); var c := ContentsOf(m.ram, rs, d);
            if (a.di, a.ti) in c.pages then need <= 1
            else if (a.di, a.ti) in c.owed then 1 <= need <= 2
            else need == 0
  {
    hide Wf, ViewOf, PromisesOf, Look, Sole;
    InView(m, refs, d, a.di, a.ti);
    PromiseAt(rs, d, a.di, a.ti);
  }

  /** An access in the kernel is an access in World. */
  lemma TouchedWorld(m0: Mem, refs0: Refs, m: Mem, refs: Refs, t: seq<Proc>, nextPid: int, cur: nat, cr3: FrameNo, pact: Pact, pact': Pact, a: Access, o: Outcome, starved: bool)
    requires Wf(m0, refs0) && Wf(m, refs) && m.kdir == m0.kdir && Space(m.kdir, refs, cr3) && a.di >= 2
    requires TableOk(t, nextPid, cur, m0.kdir, refs0, cr3) && SameLooksBut(m0, refs0, m.ram, cr3, a.di, a.ti)
    requires pact' == pact.(served := pact.served + Faulted(refs0, refs, RLeaf(cr3, a.di, a.ti)))
    requires starved ==> o == Fault && ViewOf(m.ram, pact.rs, cr3) == ViewOf(m0.ram, pact.rs, cr3)
                         && (RLeaf(cr3, a.di, a.ti) in refs <==> RLeaf(cr3, a.di, a.ti) in refs0)
    requires !starved ==> (ViewOf(m.ram, pact.rs, cr3), o) == Plain(ViewOf(m0.ram, pact.rs, cr3), a)
                          && (RLeaf(cr3, a.di, a.ti) in refs <==> (a.di, a.ti) in ViewOf(m0.ram, pact.rs, cr3))
    ensures Sane(WorldOf(m0.ram, pact, m0.kdir, t, nextPid, cur))
    ensures (WorldOf(m.ram, pact', m.kdir, t, nextPid, cur), o) == W.Touch(WorldOf(m0.ram, pact, m0.kdir, t, nextPid, cur), a, !starved)
  {
    hide Wf, TableOk, ViewOf, PromisesOf, SameLooksBut, AbsTable, Plain, Backed;
    CurrentRuns(t, nextPid, cur, m0.kdir, refs0, cr3);
    HereIs(m0.ram, m0.kdir, t, nextPid, cur, pact);
    SetHereSame(WorldOf(m0.ram, pact, m0.kdir, t, nextPid, cur));
    if starved {
      StarvedPages(m0, refs0, m, refs, pact.rs, cr3, a);
    } else {
      TouchedPages(m0, refs0, m, refs, pact.rs, cr3, a, o);
    }
    ChangedHere(m0, refs0, m, t, nextPid, cur, cr3, a.di, a.ti, pact);
    ServedWorld(m.ram, m.kdir, t, nextPid, cur, pact, pact');
  }

  /** What an access costs, and what teardown can no longer undo after it. */
  lemma TouchedBooks(m0: Mem, refs0: Refs, m: Mem, refs: Refs, t: seq<Proc>, nextPid: int, cur: nat, cr3: FrameNo, pact: Pact, a: Access, luck: Luck)
    requires Wf(m0, refs0) && Wf(m, refs) && m.kdir == m0.kdir && TableOk(t, nextPid, cur, m0.kdir, refs0, cr3) && a.di >= 2
    requires luck.stale == map[] && luck.spare == m0.fr.total - m0.fr.used && m.fr.used <= m.fr.total
    requires Spent(m0.fr, m.fr, Need(refs0, pact.rs, cr3, a.di, a.ti, a.Write?), !luck.frames)
    requires CleanStep(m0.kdir, refs0, refs, RLeaf(cr3, a.di, a.ti), !luck.frames, m0.fr.used < m0.fr.total)
    requires luck.frames ==> (RLeaf(cr3, a.di, a.ti) in refs <==> (a.di, a.ti) in ViewOf(m0.ram, pact.rs, cr3))
    requires !luck.frames ==> (RLeaf(cr3, a.di, a.ti) in refs <==> RLeaf(cr3, a.di, a.ti) in refs0)
    ensures Sane(WorldOf(m0.ram, pact, m0.kdir, t, nextPid, cur))
    ensures Possible(WorldOf(m0.ram, pact, m0.kdir, t, nextPid, cur), OTouch(a), luck, m.fr.total - m.fr.used)
    ensures Clean(m.kdir, refs) <==> Clean(m0.kdir, refs0) && !Spoils(WorldOf(m0.ram, pact, m0.kdir, t, nextPid, cur), OTouch(a), luck)
  {
    hide Wf, TableOk, ViewOf, PromisesOf, AbsTable, Clean, Need;
    CurrentRuns(t, nextPid, cur, m0.kdir, refs0, cr3);
    HereIs(m0.ram, m0.kdir, t, nextPid, cur, pact);
    KernelIsNotOwn(m0.ram, t, nextPid, cur, m0.kdir, pact);
    NeedIs(m0, refs0, pact.rs, cr3, a);
    InView(m0, refs0, cr3, a.di, a.ti);
    SeenAt(m0.ram, pact.rs, cr3, a.di, a.ti);
  }

  /** Backing an unmapped page, or being refused, in World. */
  lemma MappedWorld(m0: Mem, refs0: Refs, m: Mem, refs: Refs, t: seq<Proc>, nextPid: int, cur: nat, cr3: FrameNo, pact: Pact, di: Index, ti: Index, flags: Word, luck: Luck)
    requires Wf(m0, refs0) && Wf(m, refs) && m.kdir == m0.kdir && TableOk(t, nextPid, cur, m0.kdir, refs0, cr3) && di >= 2
    requires SameLooksBut(m0, refs0, m.ram, cr3, di, ti) && RLeaf(cr3, di, ti) !in refs0
    requires Look(m.ram, cr3, di, ti) == if luck.frames then Some(Fresh(flags)) else None
    requires luck.stale == map[] && luck.spare == m0.fr.total - m0.fr.used && m.fr.used <= m.fr.total
    requires Spent(m0.fr, m.fr, if RTab(cr3, di) in refs0 then 1 else 2, !luck.frames)
    requires CleanStep(m0.kdir, refs0, refs, RLeaf(cr3, di, ti), !luck.frames, luck.spare > 0) && (RLeaf(cr3, di, ti) in refs <==> luck.frames)
    ensures Sane(WorldOf(m0.ram, pact, m0.kdir, t, nextPid, cur))
    ensures (WorldOf(m.ram, pact, m.kdir, t, nextPid, cur), luck.frames) == W.Map(WorldOf(m0.ram, pact, m0.kdir, t, nextPid, cur), di, ti, flags, luck.frames)
    ensures Possible(WorldOf(m0.ram, pact, m0.kdir, t, nextPid, cur), OMap(di, ti, flags), luck, m.fr.total - m.fr.used)
    ensures Clean(m.kdir, refs) <==> Clean(m0.kdir, refs0) && !Spoils(WorldOf(m0.ram, pact, m0.kdir, t, nextPid, cur), OMap(di, ti, flags), luck)
  {
    hide Wf, TableOk, ViewOf, PromisesOf, AbsTable, Clean, SameLooksBut, Look;
    CurrentRuns(t, nextPid, cur, m0.kdir, refs0, cr3);
    HereIs(m0.ram, m0.kdir, t, nextPid, cur, pact);
    SetHereSame(WorldOf(m0.ram, pact, m0.kdir, t, nextPid, cur));
    KernelIsNotOwn(m0.ram, t, nextPid, cur, m0.kdir, pact);
    Walk(m0, refs0, cr3, di, ti);
    InView(m0, refs0, cr3, di, ti);
    ViewChanged(m0, refs0, m, refs, cr3, di, ti);
    ChangedHere(m0, refs0, m, t, nextPid, cur, cr3, di, ti, pact);
  }

  /** The page took the lowest free frame, and its table, if it is new, the next one. */
  ghost predicate Backs(m: Mem, refs: Refs, refs': Refs, d: FrameNo, di: Index, ti: Index) {
    && |m.fr.bits| == m.fr.total && Extends(refs, refs') && RTab(d, di) in refs' && RLeaf(d, di, ti) in refs'
    && (forall r :: r in refs' && r !in refs ==> r == RTab(d, di) || r == RLeaf(d, di, ti))
    && Lowest(m.fr, refs'[RLeaf(d, di, ti)].frame)
    && (RTab(d, di) !in refs ==> Second(m.fr, refs'[RLeaf(d, di, ti)].frame, refs'[RTab(d, di)].frame))
  }

  /** A page that is there already is not mapped again. */
  lemma MappedAlready(m: Mem, refs: Refs, t: seq<Proc>, nextPid: int, cur: nat, cr3: FrameNo, pact: Pact, di: Index, ti: Index, flags: Word, luck: Luck)
    requires Wf(m, refs) && TableOk(t, nextPid, cur, m.kdir, refs, cr3) && di >= 2 && RLeaf(cr3, di, ti) in refs
    requires luck.stale == map[] && luck.frames
    ensures Sane(WorldOf(m.ram, pact, m.kdir, t, nextPid, cur))
    ensures var w := WorldOf(m.ram, pact, m.kdir, t, nextPid, cur); var op := OMap(di, ti, flags);
            W.Map(w, di, ti, flags, true) == (w, false) && Possible(w, op, luck, luck.spare) && !Spoils(w, op, luck)
  {
    hide Wf, TableOk, ViewOf, PromisesOf, AbsTable;
    CurrentRuns(t, nextPid, cur, m.kdir, refs, cr3);
    HereIs(m.ram, m.kdir, t, nextPid, cur, pact);
    InView(m, refs, cr3, di, ti);
  }

  lemma FewerPays(refs: Refs, refs': Refs, copied: multiset<FrameNo>)
    requires Fewer(refs, refs')
    ensures Paid(refs, copied, refs', copied)
  {
    DroppingPays(refs, refs', copied);
  }

  lemma ChildrenAre(ram: Ram, kdir: FrameNo, t: seq<Proc>, nextPid: int, cur: nat, pid: int, pact: Pact)
    ensures HasChild(WorldOf(ram, pact, kdir, t, nextPid, cur), pid) <==>
            exists i :: 1 <= i < |t| && t[i].life != Unused && t[i].ppid == pid
  {
    hide ViewOf, PromisesOf;
    var w := WorldOf(ram, pact, kdir, t, nextPid, cur);
    forall i | 1 <= i < |t| ensures w.procs[i].Process? && w.procs[i].ppid == pid <==> t[i].life != Unused && t[i].ppid == pid {
    }
  }

  /** Some slot is in use under that pid. */
  ghost predicate Holder(t: seq<Proc>, pid: int) {
    exists i :: 0 <= i < |t| && t[i].life != Unused && t[i].pid == pid
  }

  /** A live process of that pid with an address space. */
  ghost predicate Runnable(t: seq<Proc>, pid: int) {
    exists i :: 0 <= i < |t| && t[i].pid == pid && (t[i].life == Ready || t[i].life == Running) && t[i].dir != 0
  }

  lemma RunnableIs(t: seq<Proc>, nextPid: int, cur: nat, pid: int, k: nat)
    requires Identities(t, nextPid, cur) && if k < MAX_PROCS then t[k].life != Unused && t[k].pid == pid else !Holder(t, pid)
    ensures Runnable(t, pid) <==> k < MAX_PROCS && t[k].life != Zombie && t[k].dir != 0
  {
    forall i | 0 <= i < |t| && t[i].life != Unused && t[i].pid == pid ensures i == k {
      assert Used(t, i) && (k < MAX_PROCS ==> Used(t, k));
    }
  }

  /** Whatever directory the processor is switched to, the kernel stays where it is. */
  ghost predicate MapsKernel(ram: Ram, t: seq<Proc>, low: (Word, Word)) {
    forall i :: 0 <= i < |t| && Used(t, i) && t[i].dir != 0 ==> Low(ram, t[i].dir) == low
  }

  lemma EveryoneMapsKernel(ram: Ram, t: seq<Proc>, kdir: FrameNo, refs: Refs, low: (Word, Word))
    requires Homes(t, kdir, refs) && KernelIn(ram, kdir, refs, low)
    ensures MapsKernel(ram, t, low) && Low(ram, kdir) == low
  {
    LowOf(ram, kdir, refs, low, kdir);
    forall i | 0 <= i < |t| && Used(t, i) && t[i].dir != 0 ensures Low(ram, t[i].dir) == low {
      SlotIsSpace(t, kdir, refs, i);
      LowOf(ram, kdir, refs, low, t[i].dir);
    }
  }

  lemma NoCalls(w: W.World, spare: nat)
    requires Sane(w)
    ensures W.Run(w, [], []) == (w, []) == Calm(w, []) && Refusals([]) == 0 && Feasible(w, [], [], spare, spare)
    ensures !EverStranded(w, []) && !Spoilt(w, [], [])
  {
  }

  lemma NothingTaken(w: W.World, op: Op, luck: Luck)
    requires Sane(w) && op.OBegin? && luck.frames && luck.stale == map[]
    ensures Possible(w, op, luck, luck.spare)
  {
  }

  class ProcTable {
    const vmm: AddressSpaces
    const pager: Pager
    /** Whether fork clones eagerly (vmm_clone_dir) instead of sharing pages (vmm_clone_cow). */
    const eager: bool
    var table: seq<Proc>
    var nextPid: int
    var cur: nat
    /** What processes gone since the last demand_clear were promised. */
    ghost var left: set<Promises>

    ghost function P(): Pact
      reads this, pager
    {
      Pact(pager.regions, pager.served, left)
    }

    /** Teardown could still give every frame back. */
    ghost predicate Tidy()
      reads this, vmm
    {
      Clean(vmm.kdir, vmm.refs)
    }

    ghost predicate Valid()
      reads this, pager, vmm, vmm.pmm, vmm.pmm.bitmap, vmm.pmm.refcount
    {
      && pager.vmm == vmm && pager.Valid() && vmm.Valid()
      && TableOk(table, nextPid, cur, vmm.kdir, vmm.refs, vmm.cr3)
      && Remembered(P(), vmm.kdir, vmm.refs)
    }

    /** How many frames are free. */
    ghost function Spare(): nat
      reads this, vmm, vmm.pmm, vmm.pmm.bitmap, vmm.pmm.refcount
      requires vmm.Valid()
    {
      ExhaustedIff(vmm.pmm.State());
      vmm.pmm.total - vmm.pmm.used
    }

    ghost function Now(): (w: W.World)
      reads this, pager, vmm, vmm.pmm, vmm.pmm.bitmap, vmm.pmm.refcount
      requires Valid()
      ensures Sane(w) && w.left == left
    {
      CurrentRuns(table, nextPid, cur, vmm.kdir, vmm.refs, vmm.cr3);
      HereIs(vmm.ram, vmm.kdir, table, nextPid, cur, P());
      WorldOf(vmm.ram, P(), vmm.kdir, table, nextPid, cur)
    }

    /** In every state: each process that has an address space has the kernel mapped in it. */
    lemma KernelStaysMapped()
      requires Valid()
      ensures MapsKernel(vmm.ram, table, vmm.low) && Low(vmm.ram, vmm.kdir) == vmm.low == Low(vmm.ram, vmm.cr3)
    {
      hide Wf, Ok, PromisesOf, Aligned, ActiveFirst, Remembered;
      CurrentRuns(table, nextPid, cur, vmm.kdir, vmm.refs, vmm.cr3);
      EveryoneMapsKernel(vmm.ram, table, vmm.kdir, vmm.refs, vmm.low);
      LowOf(vmm.ram, vmm.kdir, vmm.refs, vmm.low, vmm.cr3);
    }

    /** proc_install: slot 0 is the kernel, running in the boot directory. */
    constructor (vmm: AddressSpaces, pager: Pager, eager: bool)
      requires vmm.Valid() && pager.vmm == vmm && pager.Valid() && vmm.cr3 == vmm.kdir && vmm.refs == map[]
      requires forall i :: 0 <= i < MAX_REGIONS ==> !pager.regions[i].active
      ensures Valid() && Tidy() && left == {} && this.vmm == vmm && this.pager == pager && this.eager == eager
      ensures cur == 0 && nextPid == 1 && table == seq(MAX_PROCS, i => if i == 0 then Proc(0, 0, Running, vmm.kdir, 0, 0, 0) else BLANK)
    {
      hide PromisesOf, TableOk, KernelIn;
      this.vmm, this.pager, this.eager, this.left := vmm, pager, eager, {};
      table := seq(MAX_PROCS, i => if i == 0 then Proc(0, 0, Running, vmm.kdir, 0, 0, 0) else BLANK);
      nextPid, cur := 1, 0;
      new;
      BootTable(vmm.kdir);
      NothingPromised(pager.regions);
    }

    /** proc_alloc: the first unused slot becomes a child of the current process. */
    method Alloc() returns (k: nat)
      requires Valid()
      modifies this`table, this`nextPid
      ensures Valid() && 1 <= k <= MAX_PROCS && k == Slot(old(Now()))
      ensures k == MAX_PROCS ==> table == old(table) && nextPid == old(nextPid)
      ensures k < MAX_PROCS ==> old(table)[k].life == Unused && nextPid == old(nextPid) + 1
      ensures k < MAX_PROCS ==> table == old(table)[k := Proc(old(nextPid), table[cur].pid, Ready, 0, 0, 0, 0)]
    {
      hide Parented, Homes, Ok, Wf, KernelIn;
      CurrentRuns(table, nextPid, cur, vmm.kdir, vmm.refs, vmm.cr3);
      k := 1;
      while k < MAX_PROCS
        invariant 1 <= k <= MAX_PROCS && table == old(table) && nextPid == old(nextPid)
        invariant forall j :: 1 <= j < k ==> table[j].life != Unused
      {
        if table[k].life == Unused {
          SlotFound(Now(), k);
          NewSlot(table, nextPid, cur, vmm.kdir, vmm.refs, vmm.cr3, k, Proc(nextPid, table[cur].pid, Ready, 0, 0, 0, 0));
          table := table[k := Proc(nextPid, table[cur].pid, Ready, 0, 0, 0, 0)];
          nextPid := nextPid + 1;
          return;
        }
        k := k + 1;
      }
      SlotFound(Now(), k);
    }

    /**
     proc_fork: the child sees a copy of the parent's pages, however the clone was made. Promises are not copied, but
     those still standing for the frame its directory got are now the child's.
     */
    method Fork() returns (pid: int, ghost luck: Luck)
      requires Valid()
      modifies this`table, this`nextPid, vmm`ram, vmm`refs, vmm.pmm, vmm.pmm.bitmap, vmm.pmm.refcount
      ensures Valid() && (Now(), pid) == W.Fork(old(Now()), luck) && vmm.pmm.denied == old(vmm.pmm.denied) + if luck.frames then 0 else 1
      ensures luck.spare == old(Spare()) && Possible(old(Now()), OFork, luck, Spare()) && (Tidy() <==> old(Tidy())) && vmm.pmm.total == old(vmm.pmm.total)
      ensures MapsKernel(vmm.ram, table, Low(old(vmm.ram), vmm.kdir)) && Low(vmm.ram, vmm.kdir) == Low(old(vmm.ram), vmm.kdir)
      ensures luck.frames <==> Slot(old(Now())) == MAX_PROCS || CloneNeed(old(vmm.refs), vmm.cr3, !eager) <= old(Spare())
      ensures pid != -1 ==> Slot(old(Now())) < |table| && Found(old(vmm.pmm.State()), pager.regions, table[Slot(old(Now()))].dir, luck.stale)
      ensures pid != -1 ==>
                var k, p := Slot(old(Now())), old(table)[cur];
                && pid == old(nextPid) && old(table)[k].life == Unused && 0 < k
                && table == old(table)[k := Proc(pid, p.pid, Ready, table[k].dir, p.entry, p.brk, 0)]
    {
      hide MapsKernel, Low, Wf, Ok, Identities, Parented, Homes, PromisesOf, Cloned, CloneRefused, WorldOf, Aligned, ActiveFirst, Remembered, Clean, Lowest, Sane, W.Fork, Slot, CloneNeed, Possible, ViewOf, KernelIn;
      ghost var t0, pid0, m0, refs0, w0 := table, nextPid, vmm.M(), vmm.refs, Now();
      CurrentRuns(table, nextPid, cur, vmm.kdir, vmm.refs, vmm.cr3);
      HereIs(vmm.ram, vmm.kdir, table, nextPid, cur, P());
      CloneNeedIs(m0, refs0, vmm.cr3, !eager);
      luck := Luck(true, map[], Spare());
      KernelStaysMapped();
      var parent := table[cur];
      var k := Alloc();
      if k == MAX_PROCS {
        ForkFindsNoSlot(w0, luck);
        KernelStaysMapped();
        return -1, luck;
      }
      FewSpaces(table, vmm.kdir, vmm.refs);
      CurrentRuns(table, nextPid, cur, vmm.kdir, vmm.refs, vmm.cr3);
      var d := vmm.Clone(parent.dir, !eager);
      RememberedCloned(P(), m0, refs0, vmm.M(), vmm.refs, vmm.cr3, d, !eager);
      if d == 0 {
        table := table[k := table[k].(life := Unused)];
        assert table == t0[k := table[k]];
        ForkRefused(t0, pid0, cur, m0, refs0, vmm.M(), vmm.refs, vmm.cr3, !eager, k, table[k], luck.spare, P());
        CurrentRuns(table, nextPid, cur, vmm.kdir, vmm.refs, vmm.cr3);
        luck := luck.(frames := false);
        ForkBooks(w0, luck, CloneNeed(refs0, vmm.cr3, !eager), Spare());
        KernelStaysMapped();
        return -1, luck;
      }
      var child := table[k].(dir := d, ppid := parent.pid, entry := parent.entry, brk := parent.brk, life := Ready);
      luck := luck.(stale := PromisesOf(pager.regions, d));
      ForkGranted(t0, pid0, cur, m0, refs0, vmm.M(), vmm.refs, vmm.cr3, !eager, k, table[k], child, luck.spare, P());
      table := table[k := child];
      CurrentRuns(table, nextPid, cur, vmm.kdir, vmm.refs, vmm.cr3);
      ForkBooks(w0, luck, CloneNeed(refs0, vmm.cr3, !eager), Spare());
      KernelStaysMapped();
      return child.pid, luck;
    }

    /** proc_get: the slot with this pid, or MAX_PROCS. */
    method Get(pid: int) returns (k: nat)
      requires Valid()
      ensures k <= MAX_PROCS && Sane(Now()) && k == ByPid(Now(), pid) && (k < MAX_PROCS ==> table[k].life != Unused && table[k].pid == pid)
      ensures k == MAX_PROCS ==> !Holder(table, pid)
    {
      hide Parented, Homes, Ok, Wf, KernelIn;
      CurrentRuns(table, nextPid, cur, vmm.kdir, vmm.refs, vmm.cr3);
      k := 0;
      while k < MAX_PROCS
        invariant 0 <= k <= MAX_PROCS
        invariant forall j :: 0 <= j < k ==> !(table[j].life != Unused && table[j].pid == pid)
      {
        if table[k].life != Unused && table[k].pid == pid {
          PidFound(Now(), pid, k);
          return;
        }
        k := k + 1;
      }
      PidFound(Now(), pid, k);
    }

    /** proc_switch_to: the CPU and CR3 go to a live process that has an address space. */
    method SwitchTo(pid: int) returns (r: int)
      requires Valid()
      modifies this`table, this`cur, vmm`cr3
      ensures Valid() && (Now(), r) == W.Switch(old(Now()), pid)
      ensures |old(table)| == |table| == MAX_PROCS && forall i :: 0 <= i < MAX_PROCS ==> SamePerson(old(table)[i], table[i]) && table[i] == old(table)[i].(life := table[i].life)
      ensures r == 0 <==> Runnable(old(table), pid)
      ensures r == 0 ==> table[cur].pid == pid && vmm.cr3 == table[cur].dir
      ensures r != 0 ==> r == -1 && table == old(table) && cur == old(cur) && vmm.cr3 == old(vmm.cr3)
    {
      hide Wf, Ok, Identities, Parented, Homes, ViewOf, PromisesOf, Aligned, ActiveFirst, Sane, Remembered, KernelIn, Runnable, Holder;
      ghost var t0 := table;
      CurrentRuns(table, nextPid, cur, vmm.kdir, vmm.refs, vmm.cr3);
      var k := Get(pid);
      RunnableIs(table, nextPid, cur, pid, k);
      if k == MAX_PROCS || table[k].life == Zombie || table[k].dir == 0 {
        return -1;
      }
      SwitchKeeps(t0, t0[cur := t0[cur].(life := Ready)][k := t0[k].(life := Running)], nextPid, cur, vmm.kdir, vmm.refs, vmm.cr3, k);
      SwitchedWorld(vmm.ram, vmm.kdir, t0, nextPid, cur, pid, k, P());
      if table[cur].life == Running {
        table := table[cur := table[cur].(life := Ready)];
      }
      cur := k;
      table := table[k := table[k].(life := Running)];
      vmm.cr3 := table[k].dir;
      assert table == t0[old(cur) := t0[old(cur)].(life := Ready)][k := t0[k].(life := Running)];
      CurrentRuns(table, nextPid, cur, vmm.kdir, vmm.refs, vmm.cr3);
      return 0;
    }

    /** proc_exit: step off the dying address space before it is torn down, then leave a zombie behind. */
    method Exit(code: int)
      requires Valid()
      modifies this`table, this`cur, this`left, vmm`cr3, vmm`ram, vmm`refs, vmm.pmm, vmm.pmm.bitmap, vmm.pmm.refcount
      ensures Valid() && Now() == W.Exit(old(Now()), code) && vmm.pmm.denied == old(vmm.pmm.denied)
      ensures Fewer(old(vmm.refs), vmm.refs) && (Tidy() <==> old(Tidy())) && Spare() >= old(Spare()) && vmm.pmm.total == old(vmm.pmm.total)
      ensures Private(vmm.kdir, old(vmm.cr3)) ==> vmm.refs == Without(old(vmm.refs), old(vmm.cr3))
      ensures |old(table)| == |table| && forall i :: 0 <= i < |table| && i != old(cur) ==> table[i].dir == old(table)[i].dir
      ensures old(cur) != 0 ==>
                var p := old(table)[old(cur)];
                && cur == 0 && vmm.cr3 == vmm.kdir && |table| == MAX_PROCS && old(cur) < MAX_PROCS
                && Exited(old(table), table, old(cur), p.(life := Zombie, code := code, dir := if Private(vmm.kdir, p.dir) then 0 else p.dir))
    {
      hide Wf, Ok, Identities, Parented, Homes, ViewOf, PromisesOf, Aligned, ActiveFirst, OthersSame, Without, AbsTable, Remembered, Clean, W.Exit, Sane, Fewer, KernelIn;
      ghost var t0, cur0, m0, refs0 := table, cur, vmm.M(), vmm.refs;
      CurrentRuns(table, nextPid, cur, vmm.kdir, vmm.refs, vmm.cr3);
      OnlyKernelIsZero(table, nextPid, cur);
      HereIs(vmm.ram, vmm.kdir, table, nextPid, cur, P());
      KeptAll(refs0);
      var p := cur;
      if table[p].pid == 0 {
        KernelStays(vmm.ram, vmm.kdir, table, nextPid, cur, code, P());
        return;
      }
      table := table[p := table[p].(code := code, life := Zombie)];
      vmm.cr3 := vmm.kdir;
      cur := 0;
      table := table[0 := table[0].(life := Running)];
      ghost var pact0, d := P(), table[p].dir;
      if table[p].dir != 0 && table[p].dir != vmm.kdir {
        vmm.DestroyDir(table[p].dir);
        CleanWithout(vmm.kdir, refs0, table[p].dir);
        table := table[p := table[p].(dir := 0)];
      }
      ghost var z := table[p];
      HandOver(table[p].pid);
      left := Leaves(pact0, vmm.kdir, d).left;
      assert Exited(t0, table, p, z);
      ExitedFrom(m0, refs0, vmm.M(), vmm.refs, t0, table, nextPid, p, old(vmm.cr3), code, z, pact0);
      RememberedWithout(pact0, vmm.kdir, refs0, d, vmm.refs);
      FewerUses(m0, refs0, vmm.M(), vmm.refs);
    }

    /** The last loop of proc_exit: the children of `pid` become the kernel's. */
    method HandOver(pid: int)
      requires |table| == MAX_PROCS
      modifies this`table
      ensures |table| == MAX_PROCS && table[0] == old(table)[0]
      ensures forall i :: 1 <= i < MAX_PROCS ==> table[i] == Reparent(old(table)[i], pid)
    {
      var i := 1;
      while i < MAX_PROCS
        invariant 1 <= i <= MAX_PROCS && |table| == MAX_PROCS && table[0] == old(table)[0]
        invariant forall j :: 1 <= j < i ==> table[j] == Reparent(old(table)[j], pid)
        invariant forall j :: i <= j < MAX_PROCS ==> table[j] == old(table)[j]
      {
        if table[i].life != Unused && table[i].ppid == pid {
          table := table[i := table[i].(ppid := 0)];
        }
        i := i + 1;
      }
    }

    /** proc_free: tear down the address space of a childless process that is not running and release its slot. */
    method Release(k: nat)
      requires Valid() && 1 <= k < MAX_PROCS && k != cur && Used(table, k) && Childless(table, k)
      modifies this`table, this`left, vmm`ram, vmm`refs, vmm.pmm, vmm.pmm.bitmap, vmm.pmm.refcount
      ensures Valid() && table == old(table)[k := BLANK] && Fewer(old(vmm.refs), vmm.refs) && vmm.pmm.denied == old(vmm.pmm.denied)
      ensures old(Now()).procs[k].Process?
      ensures Now() == old(Now()).(procs := old(Now()).procs[k := Free], left := old(left) + Bequest(old(Now()).procs[k].mem))
      ensures (Tidy() <==> old(Tidy())) && Spare() >= old(Spare()) && vmm.pmm.total == old(vmm.pmm.total)
      ensures !Private(vmm.kdir, old(table)[k].dir) ==> vmm.refs == old(vmm.refs) && vmm.M() == old(vmm.M())
    {
      hide Wf, Ok, Identities, Parented, Homes, ViewOf, PromisesOf, Aligned, ActiveFirst, OthersSame, Without, AbsTable, Remembered, Clean, KernelIn;
      ghost var t0, m0, refs0, pact0 := table, vmm.M(), vmm.refs, P();
      CurrentRuns(table, nextPid, cur, vmm.kdir, vmm.refs, vmm.cr3);
      KeptAll(refs0);
      SlotPid(table, nextPid, cur, k);
      BequestIs(vmm.ram, table, nextPid, cur, vmm.kdir, k, pact0);
      if table[k].pid == 0 {
        return;
      }
      if table[k].dir != 0 && table[k].dir != vmm.kdir {
        SlotIsSpace(table, vmm.kdir, vmm.refs, k);
        vmm.DestroyDir(table[k].dir);
        CleanWithout(vmm.kdir, refs0, table[k].dir);
      }
      RememberedWithout(pact0, vmm.kdir, refs0, table[k].dir, vmm.refs);
      left := Leaves(pact0, vmm.kdir, table[k].dir).left;
      table := table[k := BLANK];
      ReleasedFrom(m0, refs0, vmm.M(), vmm.refs, t0, nextPid, cur, vmm.cr3, k, pager.regions);
      FewerUses(m0, refs0, vmm.M(), vmm.refs);
      CurrentRuns(table, nextPid, cur, vmm.kdir, vmm.refs, vmm.cr3);
    }

    /** proc_wait: reap the first zombie child of the current process. */
    method Wait() returns (pid: int, code: int)
      requires Valid()
      modifies this`table, this`left, vmm`ram, vmm`refs, vmm.pmm, vmm.pmm.bitmap, vmm.pmm.refcount
      ensures Valid() && (Now(), pid, code) == W.Wait(old(Now())) && vmm.pmm.denied == old(vmm.pmm.denied)
      ensures vmm.refs == old(vmm.refs) && |old(table)| == MAX_PROCS && Spare() == old(Spare()) && vmm.pmm.total == old(vmm.pmm.total)
      ensures pid == -1 ==> table == old(table) && FirstZombie(table, cur, MAX_PROCS)
      ensures pid != -1 ==>
                exists k :: 1 <= k < MAX_PROCS && Reaps(old(table), table, cur, k, pid, code)
    {
      hide Wf, Ok, Parented, Homes, ViewOf, PromisesOf, Aligned, ActiveFirst, KernelIn;
      CurrentRuns(table, nextPid, cur, vmm.kdir, vmm.refs, vmm.cr3);
      KeptAll(vmm.refs);
      var i := 1;
      while i < MAX_PROCS
        invariant 1 <= i <= MAX_PROCS
        invariant forall j :: 1 <= j < i ==> !(table[j].life == Zombie && table[j].ppid == table[cur].pid)
        invariant Valid() && table == old(table) && Now() == old(Now()) && vmm.refs == old(vmm.refs) && vmm.pmm.denied == old(vmm.pmm.denied) && vmm.M() == old(vmm.M())
      {
        if table[i].life == Zombie && table[i].ppid == table[cur].pid {
          pid, code := table[i].pid, table[i].code;
          assert FirstZombie(table, cur, i) && pid > 0;
          ZombieFound(Now(), i);
          ZombiesAreChildless(table, nextPid, cur, i);
          ZombiesOwnNothing(table, vmm.kdir, vmm.refs, i);
          Release(i);
          assert old(left) + {} == old(left);
          assert Reaps(old(table), table, cur, i, pid, code);
          return;
        }
        i := i + 1;
      }
      ZombieFound(Now(), i);
      return -1, 0;
    }

    /** A load or store of the current process, retried through the page-fault handler. */
    method Touch(a: Access) returns (o: Outcome, ghost luck: Luck)
      requires Valid() && a.di >= 2
      modifies pager`served, vmm`ram, vmm`refs, vmm`copied, vmm.pmm, vmm.pmm.bitmap, vmm.pmm.refcount
      ensures Valid() && (Now(), o) == W.Touch(old(Now()), a, luck.frames) && vmm.pmm.denied == old(vmm.pmm.denied) + if luck.frames then 0 else 1
      ensures luck.spare == old(Spare()) && Possible(old(Now()), OTouch(a), luck, Spare()) && vmm.pmm.total == old(vmm.pmm.total)
      ensures Tidy() <==> old(Tidy()) && !Spoils(old(Now()), OTouch(a), luck)
      ensures luck.frames <==> Need(old(vmm.refs), pager.regions, vmm.cr3, a.di, a.ti, a.Write?) <= old(Spare())
      ensures Sole(old(vmm.refs), RLeaf(vmm.cr3, a.di, a.ti)) ==> luck.frames
      ensures Paid(old(vmm.refs), old(vmm.copied), vmm.refs, vmm.copied)
    {
      hide Wf, Ok, Identities, Parented, Homes, ViewOf, PromisesOf, ActiveFirst, SameLooksBut, Paid, WorldOf, Remembered, Clean, CleanStep, Owners, Plain, Sane, Need, Possible, Spoils, W.Touch, KernelIn;
      ghost var m0, refs0, pact0 := vmm.M(), vmm.refs, P();
      CurrentRuns(table, nextPid, cur, vmm.kdir, vmm.refs, vmm.cr3);
      ExhaustedIff(m0.fr);
      luck := Luck(true, map[], Spare());
      var starved;
      o, starved := Perform(pager, a);
      luck := luck.(frames := !starved);
      SameDirsHomes(table, nextPid, cur, vmm.kdir, refs0, vmm.refs, vmm.cr3);
      RememberedSame(pact0, P(), vmm.kdir, refs0, vmm.refs);
      TouchedWorld(m0, refs0, vmm.M(), vmm.refs, table, nextPid, cur, vmm.cr3, pact0, P(), a, o, starved);
      TouchedBooks(m0, refs0, vmm.M(), vmm.refs, table, nextPid, cur, vmm.cr3, pact0, a, luck);
    }

    /** Back a page of the current process, if it is unmapped, with zeros. */
    method Map(di: Index, ti: Index, flags: Word) returns (ok: bool, ghost luck: Luck)
      requires Valid() && di >= 2
      modifies vmm`ram, vmm`refs, vmm.pmm, vmm.pmm.bitmap, vmm.pmm.refcount
      ensures Valid() && (Now(), ok) == W.Map(old(Now()), di, ti, flags, luck.frames)
      ensures vmm.pmm.denied == old(vmm.pmm.denied) + if luck.frames then 0 else 1
      ensures luck.spare == old(Spare()) && Possible(old(Now()), OMap(di, ti, flags), luck, Spare()) && vmm.pmm.total == old(vmm.pmm.total)
      ensures Tidy() <==> old(Tidy()) && !Spoils(old(Now()), OMap(di, ti, flags), luck)
      ensures luck.frames <==> RLeaf(vmm.cr3, di, ti) in old(vmm.refs)
                               || (if RTab(vmm.cr3, di) in old(vmm.refs) then 1 else 2) <= old(Spare())
      ensures ok <==> luck.frames && RLeaf(vmm.cr3, di, ti) !in old(vmm.refs)
      ensures ok ==> Backs(old(vmm.M()), old(vmm.refs), vmm.refs, vmm.cr3, di, ti)
      ensures Paid(old(vmm.refs), vmm.copied, vmm.refs, vmm.copied)
    {
      hide Wf, Ok, Identities, Parented, Homes, ViewOf, PromisesOf, Aligned, ActiveFirst, SameLooksBut, SameLooks, Paid, WorldOf, Exhausted, Owners, Remembered, Clean, CleanStep, Sane, Possible, Spoils, W.Map, Look, Lowest, Second, KernelIn;
      ghost var m0, refs0 := vmm.M(), vmm.refs;
      CurrentRuns(table, nextPid, cur, vmm.kdir, vmm.refs, vmm.cr3);
      ExhaustedIff(m0.fr);
      NothingPaid(refs0, vmm.copied);
      luck := Luck(true, map[], Spare());
      var f := vmm.Translate(vmm.cr3, di, ti);
      if f != 0 {
        MappedAlready(m0, refs0, table, nextPid, cur, vmm.cr3, P(), di, ti, flags, luck);
        return false, luck;
      }
      ok := vmm.MapAlloc(vmm.cr3, di, ti, flags);
      luck := luck.(frames := ok);
      CleanMapping(vmm.M(), refs0, vmm.refs, RLeaf(vmm.cr3, di, ti), ok, luck.spare > 0);
      SameDirsHomes(table, nextPid, cur, vmm.kdir, refs0, vmm.refs, vmm.cr3);
      Walk(vmm.M(), vmm.refs, vmm.cr3, di, ti);
      MappingPays(refs0, vmm.refs, vmm.copied);
      RememberedSame(P(), P(), vmm.kdir, refs0, vmm.refs);
      MappedWorld(m0, refs0, vmm.M(), vmm.refs, table, nextPid, cur, vmm.cr3, P(), di, ti, flags, luck);
    }

    method Unmap(di: Index, ti: Index)
      requires Valid() && di >= 2
      modifies vmm`ram, vmm`refs, vmm.pmm, vmm.pmm.bitmap, vmm.pmm.refcount
      ensures Valid() && Now() == W.Unmap(old(Now()), di, ti) && vmm.pmm.denied == old(vmm.pmm.denied)
      ensures Fewer(old(vmm.refs), vmm.refs) && vmm.refs == old(vmm.refs) - {RLeaf(vmm.cr3, di, ti)} && (Tidy() <==> old(Tidy()))
      ensures vmm.pmm.total == old(vmm.pmm.total) && old(Spare()) <= Spare() <= old(Spare()) + if (di, ti) in Here(old(Now())).pages then 1 else 0
    {
      hide Wf, Ok, Identities, Parented, Homes, ViewOf, PromisesOf, Aligned, ActiveFirst, SameLooksBut, SameLooks, AbsTable, Remembered, KernelIn;
      ghost var m0, refs0 := vmm.M(), vmm.refs;
      InView(m0, refs0, vmm.cr3, di, ti);
      CurrentRuns(table, nextPid, cur, vmm.kdir, vmm.refs, vmm.cr3);
      HereIs(vmm.ram, vmm.kdir, table, nextPid, cur, P());
      vmm.Unmap(vmm.cr3, di, ti);
      SameDirsHomes(table, nextPid, cur, vmm.kdir, refs0, vmm.refs, vmm.cr3);
      RememberedSame(P(), P(), vmm.kdir, refs0, vmm.refs);
      ViewChanged(m0, refs0, vmm.M(), vmm.refs, vmm.cr3, di, ti);
      ChangedHere(m0, refs0, vmm.M(), table, nextPid, cur, vmm.cr3, di, ti, P());
    }

    /** A process with an empty address space of its own, as the shell builds one. */
    method Spawn() returns (pid: int, ghost luck: Luck)
      requires Valid()
      modifies this`table, this`nextPid, vmm`ram, vmm`refs, vmm.pmm, vmm.pmm.bitmap, vmm.pmm.refcount
      ensures Valid() && (Now(), pid) == W.Spawn(old(Now()), luck) && vmm.pmm.denied == old(vmm.pmm.denied) + if luck.frames then 0 else 1
      ensures luck.spare == old(Spare()) && Possible(old(Now()), OSpawn, luck, Spare()) && (Tidy() <==> old(Tidy())) && vmm.pmm.total == old(vmm.pmm.total)
      ensures Slot(old(Now())) < MAX_PROCS && luck.frames ==>
                Slot(old(Now())) < |table| && Found(old(vmm.pmm.State()), pager.regions, table[Slot(old(Now()))].dir, luck.stale)
      ensures Slot(old(Now())) < MAX_PROCS && luck.frames ==>
                var d := table[Slot(old(Now()))].dir;
                !Space(vmm.kdir, old(vmm.refs), d) && vmm.refs == old(vmm.refs)[RDir(d) := ZERO.(frame := d)]
      ensures |old(table)| == |table| && forall i :: 0 <= i < |table| && i != Slot(old(Now())) ==> table[i] == old(table)[i]
      ensures Paid(old(vmm.refs), vmm.copied, vmm.refs, vmm.copied)
    {
      hide Wf, Ok, Identities, Parented, Homes, ViewOf, PromisesOf, AbsTable, Aligned, ActiveFirst, SameLooks, Paid, Owners, Remembered, Clean, Lowest, Sane, Exhausted, KernelIn;
      ghost var t0, pid0, m0, refs0 := table, nextPid, vmm.M(), vmm.refs;
      CurrentRuns(table, nextPid, cur, vmm.kdir, vmm.refs, vmm.cr3);
      HereIs(vmm.ram, vmm.kdir, table, nextPid, cur, P());
      NothingPaid(refs0, vmm.copied);
      luck := Luck(true, map[], Spare());
      ExhaustedIff(m0.fr);
      var k := Alloc();
      if k == MAX_PROCS {
        return -1, luck;
      }
      pid := table[k].pid;
      var d := vmm.CreateDir();
      if d == 0 {
        AbsUpdate(vmm.ram, vmm.kdir, t0, k, table[k], pager.regions);
        return pid, luck.(frames := false);
      }
      RememberedSpawned(P(), vmm.kdir, refs0, d, vmm.refs);
      luck := luck.(stale := PromisesOf(pager.regions, d));
      SpawnedFrom(m0, refs0, vmm.M(), vmm.refs, table, nextPid, cur, vmm.cr3, k, d, pager.regions);
      SpawnPays(m0, refs0, vmm.M(), vmm.refs, d, vmm.copied);
      ghost var slot := Abs(m0.ram, pager.regions, vmm.kdir, table[k]);
      AbsUpdate(m0.ram, vmm.kdir, t0, k, table[k], pager.regions);
      TwiceAt(AbsTable(m0.ram, pager.regions, vmm.kdir, t0), k, slot, slot.(mem := Own(Contents(map[], luck.stale))));
      table := table[k := table[k].(dir := d)];
      CurrentRuns(table, nextPid, cur, vmm.kdir, vmm.refs, vmm.cr3);
      return pid, luck;
    }

    /** demand_region for the current address space. */
    method Promise(start: nat, end: nat, flags: Word)
      requires Valid() && start < WRAP && end < WRAP
      modifies pager`regions
      ensures Valid() && Now() == W.Promise(old(Now()), start, end, flags)
      ensures forall d: FrameNo :: d != vmm.cr3 ==> PromisesOf(pager.regions, d) == PromisesOf(old(pager.regions), d)
      ensures forall di: Index, ti: Index :: (di, ti) in PromisesOf(pager.regions, vmm.cr3) <==>
                (di, ti) in PromisesOf(old(pager.regions), vmm.cr3)
                || (di >= 2 && old(Now()).regions < 16 && Reaches(start, end, 0x40_0000 * di + 4096 * ti))
    {
      hide Wf, Ok, Identities, Parented, Homes, ViewOf, PromisesOf, AbsTable, ActiveFirst, Remembered, Owe, KernelIn;
      ghost var pact0 := P();
      CurrentRuns(table, nextPid, cur, vmm.kdir, vmm.refs, vmm.cr3);
      HereIs(vmm.ram, vmm.kdir, table, nextPid, cur, pact0);
      pager.AddRegion(vmm.cr3, start, end, flags);
      forall di: Index, ti: Index ensures (di, ti) in PromisesOf(pager.regions, vmm.cr3) <==>
          (di, ti) in PromisesOf(old(pager.regions), vmm.cr3)
          || (di >= 2 && old(Now()).regions < 16 && Reaches(start, end, 0x40_0000 * di + 4096 * ti))
      {
        PromiseAt(old(pager.regions), vmm.cr3, di, ti);
        PromiseAt(pager.regions, vmm.cr3, di, ti);
      }
      RememberedHere(pact0, P(), vmm.kdir, vmm.refs, vmm.cr3);
      PromisedHere(vmm.ram, vmm.kdir, table, nextPid, cur, vmm.refs, vmm.cr3, pact0, P());
      SetHereSame(old(Now()));
    }

    /** demand_clear. */
    method Clear()
      requires Valid()
      modifies this`left, pager`regions, pager`served
      ensures Valid() && Now() == W.Clear(old(Now()))
    {
      hide Wf, Ok, Identities, Parented, Homes, ViewOf, PromisesOf, Aligned, ActiveFirst, KernelIn;
      ghost var pact0 := P();
      CurrentRuns(table, nextPid, cur, vmm.kdir, vmm.refs, vmm.cr3);
      pager.Clear();
      left := {};
      ClearedWorld(vmm.ram, vmm.kdir, table, nextPid, cur, pact0, P());
    }

    /** proc_begin_user: a process in the kernel's own address space, given the CPU. */
    method BeginUser() returns (pid: int)
      requires Valid()
      modifies this`table, this`nextPid, this`cur, vmm`cr3
      ensures Valid() && (Now(), pid) == W.BeginUser(old(Now()))
    {
      hide Wf, Ok, Identities, Parented, Homes, ViewOf, PromisesOf, AbsTable, Aligned, ActiveFirst, KernelIn;
      ghost var t0 := table;
      CurrentRuns(table, nextPid, cur, vmm.kdir, vmm.refs, vmm.cr3);
      HereIs(vmm.ram, vmm.kdir, table, nextPid, cur, P());
      var k := Alloc();
      if k == MAX_PROCS {
        return -1;
      }
      pid := table[k].pid;
      var user := table[k].(dir := vmm.kdir, brk := Heap.HEAP_BASE);
      Settle(table, nextPid, cur, vmm.kdir, vmm.refs, vmm.cr3, k, user);
      table := table[k := user];
      assert table == t0[k := user];
      AbsUpdate(vmm.ram, vmm.kdir, t0, k, user, pager.regions);
      var _ := SwitchTo(pid);
    }

    /** proc_end_user, on a process without children. */
    method EndUser(pid: int)
      requires Valid() && forall i :: 1 <= i < MAX_PROCS && Used(table, i) && table[i].pid != pid ==> table[i].ppid != pid
      modifies this`table, this`cur, this`left, vmm`cr3, vmm`ram, vmm`refs, vmm.pmm, vmm.pmm.bitmap, vmm.pmm.refcount
      ensures Valid() && Now() == W.EndUser(old(Now()), pid) && Fewer(old(vmm.refs), vmm.refs) && vmm.pmm.denied == old(vmm.pmm.denied)
      ensures (Tidy() <==> old(Tidy())) && Spare() >= old(Spare()) && vmm.pmm.total == old(vmm.pmm.total)
      ensures cur == 0 && vmm.cr3 == vmm.kdir && (pid != 0 ==> !Holder(table, pid)) && |old(table)| == |table|
      ensures forall i :: 0 <= i < |table| && (old(table)[i].life == Unused || old(table)[i].pid != pid || pid == 0) ==>
                table[i] == old(table)[i].(life := table[i].life) && (table[i].life in {Unused, Zombie} ==> table[i].life == old(table)[i].life)
    {
      hide Wf, Ok, Parented, Homes, ViewOf, PromisesOf, Aligned, ActiveFirst, Remembered, Clean, KernelIn;
      KeptAll(vmm.refs);
      CurrentRuns(table, nextPid, cur, vmm.kdir, vmm.refs, vmm.cr3);
      HereIs(vmm.ram, vmm.kdir, table, nextPid, cur, P());
      ghost var t0 := table;
      var r := SwitchTo(0);
      CurrentRuns(table, nextPid, cur, vmm.kdir, vmm.refs, vmm.cr3);
      SwitchedToKernel(old(Now()));
      var k := Get(pid);
      if k < MAX_PROCS && pid != 0 {
        Release(k);
      }
      KernelHome(table, vmm.kdir, vmm.refs);
    }

    /** The kernel calls proc_wait until it answers -1: each zombie is reaped once, with its own code. */
    method WaitForAll() returns (reaped: seq<(int, int)>)
      requires Valid() && cur == 0 && AllDead(table)
      modifies this`table, this`left, vmm`ram, vmm`refs, vmm.pmm, vmm.pmm.bitmap, vmm.pmm.refcount
      ensures Valid() && cur == 0 && |old(table)| == |table| == MAX_PROCS && reaped == Dead(old(table), 1)
      ensures vmm.refs == old(vmm.refs) && forall i :: 1 <= i < MAX_PROCS ==> table[i].life == Unused
      ensures vmm.pmm.denied == old(vmm.pmm.denied) && vmm.pmm.total == old(vmm.pmm.total) && Spare() == old(Spare())
    {
      hide Wf, Ok, Parented, Homes, Identities, Aligned, ActiveFirst, ViewOf, PromisesOf, WorldOf, FirstZombie, Dead, KernelIn;
      reaped := [];
      CurrentRuns(table, nextPid, cur, vmm.kdir, vmm.refs, vmm.cr3);
      while true
        invariant Valid() && cur == 0 && |old(table)| == |table| == MAX_PROCS && AllDead(table)
        invariant reaped + Dead(table, 1) == Dead(old(table), 1)
        invariant vmm.refs == old(vmm.refs) && vmm.pmm.denied == old(vmm.pmm.denied)
        invariant vmm.pmm.total == old(vmm.pmm.total) && Spare() == old(Spare())
        decreases |Dead(table, 1)|
      {
        ghost var t0, refs0 := table, vmm.refs;
        var pid, code := Wait();
        if pid == -1 {
          NobodyDead(table, nextPid);
          break;
        }
        ghost var k :| 1 <= k < MAX_PROCS && Reaps(t0, table, cur, k, pid, code);
        FirstIsDead(t0, nextPid, k, refs0, vmm.kdir, vmm.cr3);
        reaped := reaped + [(pid, code)];
      }
    }

    /** Then only the kernel is left, and every frame is free exactly if the state was tidy. */
    method ReapAll() returns (reaped: seq<(int, int)>)
      requires Valid() && cur == 0 && AllDead(table)
      modifies this`table, this`left, vmm`ram, vmm`refs, vmm.pmm, vmm.pmm.bitmap, vmm.pmm.refcount
      ensures Valid() && cur == 0 && forall i :: 1 <= i < MAX_PROCS ==> table[i].life == Unused
      ensures |old(table)| == MAX_PROCS && reaped == Dead(old(table), 1)
      ensures vmm.pmm.denied == old(vmm.pmm.denied) && vmm.pmm.total == old(vmm.pmm.total) && Spare() == old(Spare())
      ensures vmm.pmm.used == 0 <==> old(Tidy())
      ensures vmm.pmm.used == 0 <==> forall i :: 0 <= i < vmm.pmm.total ==> !vmm.pmm.bitmap[i]
    {
      hide Wf, Ok, Parented, Homes, Identities, Aligned, ActiveFirst, ViewOf, PromisesOf, WorldOf, Dead, Remembered, Clean, KernelIn;
      reaped := WaitForAll();
      NobodyHome(vmm.M(), table, vmm.refs);
      FramesAreForRefs(vmm.M(), vmm.refs);
    }

    /** A new process. */
    method DoCreate(op: Op) returns (reply: Reply, ghost luck: Luck)
      requires Valid() && (op.OFork? || op.OSpawn? || op.OBegin?)
      modifies this, pager`served, pager`regions, vmm, vmm.pmm, vmm.pmm.bitmap, vmm.pmm.refcount
      ensures Valid() && (Now(), reply) == W.Step(old(Now()), op, luck) && vmm.pmm.total == old(vmm.pmm.total)
      ensures vmm.pmm.denied == old(vmm.pmm.denied) + if luck.frames then 0 else 1
      ensures luck.spare == old(Spare()) && Possible(old(Now()), op, luck, Spare())
      ensures Tidy() <==> old(Tidy()) && !Spoils(old(Now()), op, luck)
      ensures !op.OFork? ==> Paid(old(vmm.refs), old(vmm.copied), vmm.refs, vmm.copied)
    {
      hide Wf, Ok, Parented, Homes, Identities, Aligned, ActiveFirst, ViewOf, PromisesOf, WorldOf, Paid, Fewer, Remembered, Clean, Found, Sane, Possible, KernelIn;
      NothingPaid(vmm.refs, vmm.copied);
      var n;
      if op.OFork? {
        n, luck := Fork();
      } else if op.OSpawn? {
        n, luck := Spawn();
      } else {
        luck := Luck(true, map[], Spare());
        n := BeginUser();
        NothingTaken(old(Now()), op, luck);
      }
      reply := Number(n);
    }

    /** The other process calls. */
    method DoProcess(op: Op) returns (reply: Reply, ghost luck: Luck)
      requires Valid() && (op.OExit? || op.OWait? || op.OSwitch? || op.OEnd?)
      modifies this, pager`served, pager`regions, vmm, vmm.pmm, vmm.pmm.bitmap, vmm.pmm.refcount
      ensures Valid() && (Now(), reply) == W.Step(old(Now()), op, luck) && vmm.pmm.total == old(vmm.pmm.total)
      ensures vmm.pmm.denied == old(vmm.pmm.denied) + if luck.frames then 0 else 1
      ensures luck.spare == old(Spare()) && Possible(old(Now()), op, luck, Spare())
      ensures Tidy() <==> old(Tidy()) && !Spoils(old(Now()), op, luck)
      ensures !op.OFork? ==> Paid(old(vmm.refs), old(vmm.copied), vmm.refs, vmm.copied)
    {
      hide Wf, Ok, Parented, Homes, Identities, Aligned, ActiveFirst, ViewOf, PromisesOf, WorldOf, Paid, Fewer, Remembered, Clean, Found, Sane, KernelIn;
      ghost var refs0 := vmm.refs;
      NothingPaid(vmm.refs, vmm.copied);
      reply, luck := Nothing, Luck(true, map[], Spare());
      match op
      case OExit(code) =>
        Exit(code);
        FewerPays(refs0, vmm.refs, vmm.copied);
      case OWait =>
        var pid, code := Wait();
        reply := Reaped(pid, code);
      case OSwitch(pid) =>
        var n := SwitchTo(pid);
        reply := Number(n);
      case OEnd(pid) =>
        ChildrenAre(vmm.ram, vmm.kdir, table, nextPid, cur, pid, P());
        if !exists i :: 1 <= i < |table| && table[i].life != Unused && table[i].ppid == pid {
          EndUser(pid);
          FewerPays(refs0, vmm.refs, vmm.copied);
        }
    }

    /** What a process does with its memory. */
    method DoMemory(op: Op) returns (reply: Reply, ghost luck: Luck)
      requires Valid() && Allowed(op) && (op.OTouch? || op.OMap? || op.OUnmap? || op.OPromise? || op.OClear?)
      modifies this, pager`served, pager`regions, vmm, vmm.pmm, vmm.pmm.bitmap, vmm.pmm.refcount
      ensures Valid() && (Now(), reply) == W.Step(old(Now()), op, luck) && vmm.pmm.total == old(vmm.pmm.total)
      ensures vmm.pmm.denied == old(vmm.pmm.denied) + if luck.frames then 0 else 1
      ensures luck.spare == old(Spare()) && Possible(old(Now()), op, luck, Spare())
      ensures Tidy() <==> old(Tidy()) && !Spoils(old(Now()), op, luck)
      ensures !op.OFork? ==> Paid(old(vmm.refs), old(vmm.copied), vmm.refs, vmm.copied)
    {
      hide Wf, Ok, Parented, Homes, Identities, Aligned, ActiveFirst, ViewOf, PromisesOf, WorldOf, Paid, Fewer, Remembered, Clean, Found, Sane, KernelIn;
      ghost var refs0 := vmm.refs;
      NothingPaid(vmm.refs, vmm.copied);
      reply, luck := Nothing, Luck(true, map[], Spare());
      match op
      case OTouch(a) =>
        var o;
        o, luck := Touch(a);
        reply := Result(o);
      case OMap(di, ti, flags) =>
        var ok;
        ok, luck := Map(di, ti, flags);
        reply := Mapped(ok);
      case OUnmap(di, ti) =>
        Unmap(di, ti);
        FewerPays(refs0, vmm.refs, vmm.copied);
      case OPromise(start, end, flags) =>
        Promise(start, end, flags);
      case OClear =>
        Clear();
    }

    /** One call of a run, with what the machine decided at it. */
    method Do(op: Op) returns (reply: Reply, ghost luck: Luck)
      requires Valid() && Allowed(op)
      modifies this, pager`served, pager`regions, vmm, vmm.pmm, vmm.pmm.bitmap, vmm.pmm.refcount
      ensures Valid() && (Now(), reply) == W.Step(old(Now()), op, luck) && vmm.pmm.total == old(vmm.pmm.total)
      ensures vmm.pmm.denied == old(vmm.pmm.denied) + if luck.frames then 0 else 1
      ensures luck.spare == old(Spare()) && Possible(old(Now()), op, luck, Spare())
      ensures Tidy() <==> old(Tidy()) && !Spoils(old(Now()), op, luck)
      ensures !op.OFork? ==> Paid(old(vmm.refs), old(vmm.copied), vmm.refs, vmm.copied)
    {
      hide Wf, Ok, Parented, Homes, Identities, Aligned, ActiveFirst, ViewOf, PromisesOf, WorldOf, Paid, Fewer, Remembered, Clean, Found, Sane, Possible, W.Step, Spoils, KernelIn;
      if op.OFork? || op.OSpawn? || op.OBegin? {
        reply, luck := DoCreate(op);
      } else if op.OExit? || op.OWait? || op.OSwitch? || op.OEnd? {
        reply, luck := DoProcess(op);
      } else {
        reply, luck := DoMemory(op);
      }
    }

    /**
     Every run of calls is a run of the simple world. While frames last and no process goes with a promise
     outstanding, it is the calm run, in which the machine decides nothing. Without a fork in it, every copy
     is paid for by a lost owner. What teardown cannot undo is exactly what the run's calls spoilt.
     */
    method Run(ops: seq<Op>) returns (replies: seq<Reply>, ghost lucks: seq<Luck>)
      requires Valid() && forall i :: 0 <= i < |ops| ==> Allowed(ops[i])
      modifies this, pager`served, pager`regions, vmm, vmm.pmm, vmm.pmm.bitmap, vmm.pmm.refcount
      ensures Valid() && |lucks| == |ops| && (Now(), replies) == W.Run(old(Now()), ops, lucks)
      ensures vmm.pmm.denied == old(vmm.pmm.denied) + Refusals(lucks) && vmm.pmm.total == old(vmm.pmm.total)
      ensures Feasible(old(Now()), ops, lucks, old(Spare()), Spare())
      ensures vmm.pmm.denied == old(vmm.pmm.denied) && !EverStranded(old(Now()), ops) ==> (Now(), replies) == Calm(old(Now()), ops)
      ensures Tidy() <==> old(Tidy()) && !Spoilt(old(Now()), ops, lucks)
      ensures MapsKernel(vmm.ram, table, Low(old(vmm.ram), vmm.kdir)) && Low(vmm.ram, vmm.kdir) == Low(old(vmm.ram), vmm.kdir)
      ensures (forall i :: 0 <= i < |ops| ==> !ops[i].OFork?) ==> Paid(old(vmm.refs), old(vmm.copied), vmm.refs, vmm.copied)
    {
      hide MapsKernel, Low, Wf, Ok, Parented, Homes, Identities, Aligned, ActiveFirst, ViewOf, PromisesOf, WorldOf, Paid, W.Step, Sane, Remembered, Clean, Spoils, Possible, W.Run, Feasible, Spoilt, Calm, EverStranded, KernelIn;
      ghost var refs0, copied0, w0 := vmm.refs, vmm.copied, Now();
      NothingPaid(refs0, copied0);
      KernelStaysMapped();
      replies, lucks := [], [];
      NoCalls(w0, Spare());
      var i := 0;
      while i < |ops|
        invariant 0 <= i <= |ops| == i + (|ops| - i) && |lucks| == i
        invariant Valid() && (Now(), replies) == W.Run(w0, ops[..i], lucks)
        invariant vmm.pmm.denied == old(vmm.pmm.denied) + Refusals(lucks) && vmm.pmm.total == old(vmm.pmm.total)
        invariant Feasible(w0, ops[..i], lucks, old(Spare()), Spare())
        invariant vmm.pmm.denied == old(vmm.pmm.denied) && !EverStranded(w0, ops[..i]) ==> (Now(), replies) == Calm(w0, ops[..i])
        invariant Tidy() <==> old(Tidy()) && !Spoilt(w0, ops[..i], lucks)
        invariant (forall j :: 0 <= j < i ==> !ops[j].OFork?) ==> Paid(refs0, copied0, vmm.refs, vmm.copied)
      {
        ghost var refs1, copied1 := vmm.refs, vmm.copied;
        var r; ghost var luck;
        r, luck := Do(ops[i]);
        RunNext(w0, ops, i, lucks, luck, old(Spare()), Spare());
        if forall j :: 0 <= j < i + 1 ==> !ops[j].OFork? {
          PaidTrans(refs0, copied0, refs1, copied1, vmm.refs, vmm.copied);
        }
        replies, lucks := replies + [r], lucks + [luck];
        i := i + 1;
      }
      assert ops[..i] == ops;
      KernelStaysMapped();
    }
  }

  lemma BootIs(m: Mem, t: seq<Proc>, pact: Pact)
    requires Wf(m, map[]) && t == seq(MAX_PROCS, i => if i == 0 then Proc(0, 0, Running, m.kdir, 0, 0, 0) else BLANK)
    requires m.kdir != 0 && pact.left == {} && Taken(pact.rs) == 0 && forall d: FrameNo :: PromisesOf(pact.rs, d) == map[]
    ensures WorldOf(m.ram, pact, m.kdir, t, 1, 0) == Boot(pact.served)
  {
    hide Wf, PromisesOf, KernelIn;
    assert ViewOf(m.ram, [], m.kdir) == map[] by {
      forall di: Index, ti: Index | di >= 2 ensures (di, ti) !in ViewOf(m.ram, [], m.kdir) {
        InView(m, map[], m.kdir, di, ti);
      }
    }
    assert WorldOf(m.ram, pact, m.kdir, t, 1, 0).procs == Boot(pact.served).procs;
  }

  lemma DesertedIs(ram: Ram, kdir: FrameNo, t: seq<Proc>, nextPid: int, cur: nat, pact: Pact)
    requires |t| > 0
    ensures var w := WorldOf(ram, pact, kdir, t, nextPid, cur);
            (Deserted(w) <==> cur == 0 && AllDead(t)) && |w.procs| == |t| && Codes(w.procs, 1) == Dead(t, 1)
  {
    hide ViewOf, PromisesOf;
    var w := WorldOf(ram, pact, kdir, t, nextPid, cur);
    forall i | 1 <= i < |t| ensures w.procs[i].Free? || w.procs[i].life == Zombie <==> t[i].life == Unused || t[i].life == Zombie {
    }
    CodesAre(ram, kdir, t, nextPid, cur, pact, 1);
  }

  lemma {:induction false} CodesAre(ram: Ram, kdir: FrameNo, t: seq<Proc>, nextPid: int, cur: nat, pact: Pact, i: nat)
    requires i <= |t|
    ensures Codes(WorldOf(ram, pact, kdir, t, nextPid, cur).procs, i) == Dead(t, i)
    decreases |t| - i
  {
    hide ViewOf, PromisesOf;
    if i < |t| {
      CodesAre(ram, kdir, t, nextPid, cur, pact, i + 1);
    }
  }

  /** Two kernels that show the same world stay indistinguishable whichever way each of them clones, as long as frames last and promises are kept track of. */
  method Lockstep(a: ProcTable, b: ProcTable, ops: seq<Op>) returns (ra: seq<Reply>, rb: seq<Reply>)
    requires a.Valid() && b.Valid() && a.Now() == b.Now() && forall i :: 0 <= i < |ops| ==> Allowed(ops[i])
    requires a != b && a.pager != b.pager && a.vmm != b.vmm && a.vmm.pmm != b.vmm.pmm
    requires a.vmm.pmm.bitmap != b.vmm.pmm.bitmap && a.vmm.pmm.refcount != b.vmm.pmm.refcount
    modifies a, a.pager`served, a.pager`regions, a.vmm, a.vmm.pmm, a.vmm.pmm.bitmap, a.vmm.pmm.refcount
    modifies b, b.pager`served, b.pager`regions, b.vmm, b.vmm.pmm, b.vmm.pmm.bitmap, b.vmm.pmm.refcount
    ensures a.Valid() && b.Valid()
    ensures a.vmm.pmm.denied == old(a.vmm.pmm.denied) && b.vmm.pmm.denied == old(b.vmm.pmm.denied) && !EverStranded(old(a.Now()), ops) ==>
              ra == rb && a.Now() == b.Now()
  {
    hide Wf, Ok, Parented, Homes, Identities, Aligned, ActiveFirst, ViewOf, PromisesOf, WorldOf, Paid, Sane, W.Run, W.Step, Remembered, Clean, Spoilt, Calm, EverStranded, KernelIn;
    ghost var la, lb;
    ra, la := a.Run(ops);
    rb, lb := b.Run(ops);
  }

  /**
   A kernel's whole life: boot, any run of calls, and if by then everyone else is gone, the kernel reaping its
   children. Each zombie is reaped once; then every frame is free exactly when no call of the run spoilt that.
   What the machine decided is tied to the replies, to the calls refused and to the frames free at each call.
   */
  method Lifetime(vmm: AddressSpaces, pager: Pager, eager: bool, ops: seq<Op>)
    returns (replies: seq<Reply>, reaped: seq<(int, int)>, ghost lucks: seq<Luck>)
    requires vmm.Valid() && pager.vmm == vmm && pager.Valid() && vmm.cr3 == vmm.kdir && vmm.refs == map[]
    requires forall i :: 0 <= i < MAX_REGIONS ==> !pager.regions[i].active
    requires forall i :: 0 <= i < |ops| ==> Allowed(ops[i])
    modifies pager`served, pager`regions, vmm, vmm.pmm, vmm.pmm.bitmap, vmm.pmm.refcount
    ensures vmm.Valid() && |lucks| == |ops| && vmm.pmm.used <= vmm.pmm.total == old(vmm.pmm.total)
    ensures vmm.pmm.denied == old(vmm.pmm.denied) + Refusals(lucks)
    ensures Low(vmm.ram, vmm.kdir) == Low(old(vmm.ram), vmm.kdir)
    ensures var w0 := Boot(old(pager.served));
            && replies == W.Run(w0, ops, lucks).1
            && Feasible(w0, ops, lucks, vmm.pmm.total, vmm.pmm.total - vmm.pmm.used)
            && (vmm.pmm.denied == old(vmm.pmm.denied) && !EverStranded(w0, ops) ==> W.Run(w0, ops, lucks) == Calm(w0, ops))
    ensures var w0 := Boot(old(pager.served)); var w := W.Run(w0, ops, lucks).0;
            Deserted(w) ==>
              && reaped == Codes(w.procs, 1)
              && (vmm.pmm.used == 0 <==> !Spoilt(w0, ops, lucks))
              && (vmm.pmm.used == 0 <==> forall i :: 0 <= i < vmm.pmm.total ==> !vmm.pmm.bitmap[i])
  {
    hide Low, Wf, Ok, Parented, Homes, Identities, ActiveFirst, ViewOf, PromisesOf, Paid, W.Run, W.Step, Remembered, Spoilt, Calm, EverStranded, Feasible, KernelIn;
    LowOf(vmm.ram, vmm.kdir, vmm.refs, vmm.low, vmm.kdir);
    var p := new ProcTable(vmm, pager, eager);
    NothingPromised(pager.regions);
    BootIs(p.vmm.M(), p.table, p.P());
    FramesAreForRefs(vmm.M(), vmm.refs);
    replies, lucks := p.Run(ops);
    DesertedIs(vmm.ram, vmm.kdir, p.table, p.nextPid, p.cur, p.P());
    reaped := [];
    if p.cur == 0 && AllDead(p.table) {
      reaped := p.ReapAll();
    }
    LowOf(vmm.ram, vmm.kdir, vmm.refs, vmm.low, vmm.kdir);
    ExhaustedIff(vmm.pmm.State());
    FramesAreForRefs(vmm.M(), vmm.refs);
  }

  // ---- runs from boot that show a property fail ------------------------------------

  /** A kernel as it boots over that much memory. */
  method Booted(kdir: FrameNo, ram: Ram, memBytes: nat, eager: bool) returns (p: ProcTable)
    requires 0 < kdir < BASE && forall di: Index :: di >= 2 ==> !ram[kdir][di].present
    ensures fresh(p) && fresh(p.vmm) && fresh(p.pager) && fresh(p.vmm.pmm) && fresh(p.vmm.pmm.bitmap) && fresh(p.vmm.pmm.refcount)
    ensures p.Valid() && p.Now() == Boot(0) && p.Tidy() && p.vmm.kdir == kdir && p.vmm.refs == map[] && p.eager == eager
    ensures p.Spare() == p.vmm.pmm.total
    ensures p.vmm.pmm.total == if memBytes <= BASE * 4096 then 0
                               else if memBytes / 4096 - BASE > MAX_FRAMES then MAX_FRAMES else memBytes / 4096 - BASE
  {
    hide Wf, Ok, Parented, Homes, Identities, ViewOf, PromisesOf, Remembered, KernelIn;
    var pmm := new FrameAllocator(memBytes);
    var vmm := new AddressSpaces(pmm, kdir, ram);
    var pager := new Pager(vmm);
    p := new ProcTable(vmm, pager, eager);
    NothingPromised(pager.regions);
    BootIs(vmm.M(), p.table, p.P());
  }

  /** What the slots of World say about the table. */
  lemma SlotShown(ram: Ram, kdir: FrameNo, t: seq<Proc>, nextPid: int, cur: nat, pact: Pact, i: nat)
    requires i < |t|
    ensures WorldOf(ram, pact, kdir, t, nextPid, cur).cur == cur
    ensures var p := WorldOf(ram, pact, kdir, t, nextPid, cur).procs[i];
            && (p.Process? <==> Used(t, i))
            && (p.Process? ==> p == Process(t[i].pid, t[i].ppid, t[i].life, MemoryOf(ram, pact.rs, kdir, t[i].dir), t[i].entry, t[i].brk, t[i].code))
  {
    hide ViewOf, PromisesOf;
  }

  lemma UserThenChild(luck: Luck)
    ensures var w1 := W.BeginUser(Boot(0)).0; Sane(w1) && Sane(W.Spawn(w1, luck).0)
    ensures var w := W.Switch(W.Spawn(W.BeginUser(Boot(0)).0, luck).0, 0).0;
            w.cur == 0 && w.procs[1].Process? && w.procs[1].pid == 1 && w.procs[2].Process? && w.procs[2].ppid == 1
  {
    var w0 := Boot(0);
    SlotFound(w0, 1);
    var user := Child(w0, Kernel, 0, Heap.HEAP_BASE);
    var w' := w0.(procs := w0.procs[1 := user], nextPid := 2);
    PidFound(w', 1, 1);
    var w1 := W.BeginUser(w0).0;
    assert w1.cur == 1 && w1.procs[1] == user.(life := Running);
    SlotFound(w1, 2);
    var w2 := W.Spawn(w1, luck).0;
    PidFound(w2, 0, 0);
  }

  /** A user process with a child: once its slot were released, the child would have no parent. */
  method ChildLeftBehind(kdir: FrameNo, ram: Ram) returns (p: ProcTable)
    requires 0 < kdir < BASE && forall di: Index :: di >= 2 ==> !ram[kdir][di].present
    ensures p.Valid() && p.cur == 0 && |p.table| == MAX_PROCS && Used(p.table, 1) && !Childless(p.table, 1) && !Parented(p.table[1 := BLANK])
  {
    hide Wf, Ok, Parented, Homes, Identities, WorldOf, Aligned, ActiveFirst, PromisesOf, Remembered, Possible, Found, Clean, Paid, W.BeginUser, W.Spawn, W.Switch, Boot, Sane, KernelIn;
    p := Booted(kdir, ram, BASE * 4096, false);
    var user := p.BeginUser();
    var child; ghost var luck;
    child, luck := p.Spawn();
    var r := p.SwitchTo(0);
    UserThenChild(luck);
    CurrentRuns(p.table, p.nextPid, p.cur, p.vmm.kdir, p.vmm.refs, p.vmm.cr3);
    SlotShown(p.vmm.ram, p.vmm.kdir, p.table, p.nextPid, p.cur, p.P(), 1);
    SlotShown(p.vmm.ram, p.vmm.kdir, p.table, p.nextPid, p.cur, p.P(), 2);
    ParentedVacate(p.table, p.nextPid, p.cur, 1, BLANK);
  }

  /** The kernel and two processes with nothing in memory; `first` and `second` are how the two are doing. */
  predicate Two(w: W.World, cur: nat, first: Life, second: Life) {
    && Sane(w) && w.cur == cur && w.procs[0].life == (if cur == 0 then Running else Ready)
    && w.procs[1].Process? && w.procs[1].pid == 1 && w.procs[1].life == first && (first != Zombie ==> w.procs[1].mem.Own?)
    && w.procs[2].Process? && w.procs[2].pid == 2 && w.procs[2].life == second && (second != Zombie ==> w.procs[2].mem.Own?)
    && forall i :: 3 <= i < MAX_PROCS ==> w.procs[i].Free?
  }

  lemma TwoSpawned(l1: Luck, l2: Luck)
    ensures var w0 := Boot(0); var w1 := W.Spawn(w0, l1).0;
            && Slot(w0) == 1 && W.Spawn(w0, l1).1 == 1 && w0.left == {} && Sane(w1) && Slot(w1) == 2 && W.Spawn(w1, l2).1 == 2 && w1.left == {}
    ensures l1.frames && l2.frames ==>
              var w := W.Spawn(W.Spawn(Boot(0), l1).0, l2).0;
              Two(w, 0, Ready, Ready) && w.regions == 0 && w.procs[2].mem == Own(Contents(map[], l2.stale))
  {
    var w0 := Boot(0);
    SlotFound(w0, 1);
    var w1 := W.Spawn(w0, l1).0;
    SlotFound(w1, 2);
  }

  lemma TwoSwitch(w: W.World, pid: int)
    requires (pid == 2 && Two(w, 0, Ready, Ready)) || (pid == 1 && Two(w, 0, Ready, Zombie))
    ensures W.Switch(w, pid).1 == 0 && W.Switch(w, pid).0.regions == w.regions && Two(W.Switch(w, pid).0, pid, if pid == 1 then Running else Ready, if pid == 1 then Zombie else Running)
    ensures pid == 2 ==> W.Switch(w, pid).0.procs[2].mem == w.procs[2].mem
  {
    PidFound(w, pid, pid);
  }

  lemma TwoPromise(w: W.World, flags: Word)
    requires Two(w, 2, Ready, Running) && w.regions == 0 && w.procs[2].mem == Own(EMPTY)
    ensures var w' := W.Promise(w, 0x100_0000, 0x140_0000, flags);
            Two(w', 2, Ready, Running) && w'.procs[2].mem.Own? && (4, 0) in w'.procs[2].mem.c.owed
  {
    hide Owe;
    OweAt(map[], 0x100_0000, 0x140_0000, flags, 4, 0);
  }

  lemma ExitAt(w: W.World, code: int, i: nat)
    requires Sane(w) && w.cur != 0 && w.procs[w.cur].pid != 0 && i < MAX_PROCS
    ensures var p := w.procs[w.cur]; var w' := W.Exit(w, code);
            && w'.cur == 0 && |w'.procs| == MAX_PROCS
            && w'.procs[i] == if i == 0 then w.procs[0].(life := Running)
                              else Orphan(if i == w.cur then p.(life := Zombie, code := code, mem := if p.mem.Own? then Nowhere else p.mem) else w.procs[i], p.pid)
  {
  }

  lemma TwoExit(w: W.World)
    requires Two(w, 2, Ready, Running) || Two(w, 1, Running, Zombie)
    ensures Two(W.Exit(w, 0), 0, if w.cur == 1 then Zombie else Ready, Zombie)
  {
    hide W.Exit;
    forall i | 0 <= i < MAX_PROCS ensures |W.Exit(w, 0).procs| == MAX_PROCS && w.procs[i].Process? == W.Exit(w, 0).procs[i].Process? {
      ExitAt(w, 0, i);
    }
    ExitAt(w, 0, 0);
    ExitAt(w, 0, 1);
    ExitAt(w, 0, 2);
  }

  lemma SecondIs(m: Mem, refs: Refs, m': Mem, refs': Refs, e: FrameNo, f: FrameNo)
    requires Wf(m, refs) && Wf(m', refs') && m'.fr.total == m.fr.total && Ok(m.fr) && Ok(m'.fr)
    requires RDir(e) !in refs && refs' == refs[RDir(e) := ZERO.(frame := e)] && Lowest(m.fr, e) && Lowest(m'.fr, f)
    ensures Second(m.fr, e, f)
  {
    hide Wf, KernelIn;
    forall j | 0 <= j < m.fr.total ensures m'.fr.bits[j] <==> m.fr.bits[j] || j == e - BASE {
      InUseIffOwned(m, refs, BASE + j);
      InUseIffOwned(m', refs', BASE + j);
      if r :| r in refs && refs[r].frame == BASE + j {
        assert refs'[r].frame == BASE + j;
      }
      assert refs'[RDir(e)].frame == e;
    }
  }

  lemma BothGone(m: Mem, refs: Refs, e: FrameNo, f: FrameNo)
    requires Wf(m, refs) && !Space(m.kdir, refs, e) && e != f && !Space(m.kdir, refs, f)
    ensures Without(Without(refs[RDir(e) := ZERO.(frame := e)][RDir(f) := ZERO.(frame := f)], f), e) == refs
  {
    NoSpaceNoOwner(m, refs, e);
    NoSpaceNoOwner(m, refs, f);
  }

  /** At boot nobody is promised anything. */
  lemma BootPromises(p: ProcTable)
    requires p.Valid() && p.Now() == Boot(0)
    ensures forall d: FrameNo :: PromisesOf(p.pager.regions, d) == map[]
  {
    hide Wf, Ok, Identities, Parented, ViewOf, PromisesOf, Aligned, ActiveFirst, KernelIn;
    var w := p.Now();
    forall d: FrameNo | Space(p.vmm.kdir, p.vmm.refs, d) ensures d == p.vmm.kdir {
      if RDir(d) in p.vmm.refs {
        var i :| 0 <= i < |p.table| && Used(p.table, i) && p.table[i].dir == d;
        SlotShown(p.vmm.ram, p.vmm.kdir, p.table, p.nextPid, p.cur, p.P(), i);
      }
    }
  }

  /** A spawn with a frame to spare. */
  lemma SpawnLuck(w: W.World, luck: Luck, next: nat)
    requires Sane(w) && Slot(w) < MAX_PROCS && luck.spare > 0 && Possible(w, OSpawn, luck, next)
    ensures luck.frames && next == luck.spare - 1 && (w.left == {} ==> luck.stale == map[])
  {
  }

  method Pair(p: ProcTable) returns (ghost e: FrameNo, ghost f: FrameNo)
    requires p.Valid() && p.Now() == Boot(0) && p.Spare() >= 2
    modifies p, p.vmm, p.vmm.pmm, p.vmm.pmm.bitmap, p.vmm.pmm.refcount
    ensures p.Valid() && p.vmm.pmm.denied == old(p.vmm.pmm.denied) && p.vmm.pmm.total == old(p.vmm.pmm.total)
    ensures Two(p.Now(), 0, Ready, Ready) && p.Now().regions == 0 && p.Now().procs[2].mem == Own(EMPTY)
    ensures Second(old(p.vmm.pmm.State()), e, f) && |p.table| == MAX_PROCS && p.table[1].dir == e && p.table[2].dir == f
    ensures !Space(p.vmm.kdir, old(p.vmm.refs), e) && !Space(p.vmm.kdir, old(p.vmm.refs), f) && Private(p.vmm.kdir, e) && Private(p.vmm.kdir, f)
    ensures p.vmm.refs == old(p.vmm.refs)[RDir(e) := ZERO.(frame := e)][RDir(f) := ZERO.(frame := f)]
  {
    hide Wf, Ok, Identities, Parented, Homes, WorldOf, PromisesOf, Aligned, ActiveFirst, Remembered, Clean, Paid, Lowest, Second, Possible, W.Spawn, Boot, Two, Sane, Slot, KernelIn;
    ghost var m0, refs0, w0 := p.vmm.M(), p.vmm.refs, p.Now();
    CurrentRuns(p.table, p.nextPid, p.cur, p.vmm.kdir, p.vmm.refs, p.vmm.cr3);
    var n; ghost var l1, l2;
    n, l1 := p.Spawn();
    TwoSpawned(l1, l1);
    SpawnLuck(w0, l1, p.Spare());
    ghost var m1, refs1, w1 := p.vmm.M(), p.vmm.refs, p.Now();
    e := p.table[1].dir;
    n, l2 := p.Spawn();
    TwoSpawned(l1, l2);
    SpawnLuck(w1, l2, p.Spare());
    f := p.table[2].dir;
    SecondIs(m0, refs0, m1, refs1, e, f);
    SpaceIsManaged(p.vmm.M(), p.vmm.refs, e);
    SpaceIsManaged(p.vmm.M(), p.vmm.refs, f);
  }

  /**
   Two processes are made; the second is promised the range from 16 MB to 20 MB; both exit. Every frame is free again
   that was free before, and the promise stands for the second lowest of them.
   */
  method Strand(p: ProcTable, flags: Word) returns (ghost e: FrameNo, ghost f: FrameNo)
    requires p.Valid() && p.Now() == Boot(0) && p.Spare() >= 2
    modifies p, p.pager`regions, p.vmm, p.vmm.pmm, p.vmm.pmm.bitmap, p.vmm.pmm.refcount
    ensures p.Valid() && p.vmm.refs == old(p.vmm.refs) && p.vmm.pmm.denied == old(p.vmm.pmm.denied) && p.vmm.pmm.total == old(p.vmm.pmm.total)
    ensures Two(p.Now(), 0, Zombie, Zombie) && Second(old(p.vmm.pmm.State()), e, f)
    ensures (4, 0) in PromisesOf(p.pager.regions, f) && forall d: FrameNo :: d != f ==> PromisesOf(p.pager.regions, d) == map[]
  {
    hide Wf, Ok, Identities, Parented, Homes, WorldOf, PromisesOf, Aligned, ActiveFirst, Remembered, Clean, Paid, Fewer, Lowest, Without, W.Switch, W.Promise, W.Exit, Boot, Sane, KernelIn;
    ghost var m0, refs0 := p.vmm.M(), p.vmm.refs;
    BootPromises(p);
    e, f := Pair(p);
    TwoSwitch(p.Now(), 2);
    var r := p.SwitchTo(2);
    TwoPromise(p.Now(), flags);
    p.Promise(0x100_0000, 0x140_0000, flags);
    SlotShown(p.vmm.ram, p.vmm.kdir, p.table, p.nextPid, p.cur, p.P(), 2);
    TwoExit(p.Now());
    p.Exit(0);
    TwoSwitch(p.Now(), 1);
    r := p.SwitchTo(1);
    SlotShown(p.vmm.ram, p.vmm.kdir, p.table, p.nextPid, p.cur, p.P(), 1);
    TwoExit(p.Now());
    p.Exit(0);
    BothGone(m0, refs0, e, f);
  }

  lemma MapLeaves(w: W.World, flags: Word, luck: Luck, next: nat)
    requires Sane(w) && luck.frames && Possible(w, OMap(2, 0, flags), luck, next)
    ensures next + 2 >= luck.spare
  {
  }

  lemma TwoThenThird(w: W.World, flags: Word, luck: Luck)
    requires Two(w, 0, Zombie, Zombie)
    ensures Slot(w) == 3 && Two(W.Map(w, 2, 0, flags, true).0, 0, Zombie, Zombie)
    ensures luck.frames ==> W.Spawn(w, luck).0.procs[3] == Child(w, Own(Contents(map[], luck.stale)), 0, 0)
  {
    SlotFound(w, 3);
  }

  /** Where the next directory goes once the page and perhaps its table have been backed. */
  lemma NextAfter(m: Mem, refs: Refs, m': Mem, refs': Refs, d: FrameNo, di: Index, ti: Index, e: FrameNo, f: FrameNo, g: FrameNo)
    requires Wf(m, refs) && Wf(m', refs') && Ok(m.fr) && Ok(m'.fr) && m'.fr.total == m.fr.total
    requires Second(m.fr, e, f) && Backs(m, refs, refs', d, di, ti) && Lowest(m'.fr, g)
    ensures g == f <==> RTab(d, di) in refs
  {
    hide Wf, KernelIn;
    var leaf, tab := RLeaf(d, di, ti), RTab(d, di);
    assert refs'[leaf].frame == e && (tab !in refs ==> refs'[tab].frame == f);
    forall j | 0 <= j < m.fr.total ensures m'.fr.bits[j] <==> m.fr.bits[j] || j == e - BASE || (j == f - BASE && tab !in refs) {
      var h: FrameNo := BASE + j;
      InUseIffOwned(m, refs, h);
      InUseIffOwned(m', refs', h);
      if r :| r in refs && refs[r].frame == h {
        assert refs'[r].frame == h;
      }
      if r :| r in refs' && refs'[r].frame == h && h != e && !(h == f && tab !in refs) {
        assert r in refs && refs[r].frame == h;
      }
    }
  }

  lemma SecondAgain(m: Mem, m': Mem, refs: Refs, e: FrameNo, f: FrameNo)
    requires Wf(m, refs) && Wf(m', refs) && Ok(m.fr) && m'.fr.total == m.fr.total && Second(m.fr, e, f)
    ensures |m'.fr.bits| == m'.fr.total && Second(m'.fr, e, f) && m'.fr.used == m.fr.used
  {
    CountsDetermined(m.fr, m'.fr, refs, refs);
  }

  lemma BootUnmapped(p: ProcTable)
    requires p.Valid() && p.Now() == Boot(0)
    ensures RLeaf(p.vmm.kdir, 2, 0) !in p.vmm.refs && p.vmm.cr3 == p.vmm.kdir
  {
    hide Wf, Ok, Identities, Parented, Homes, ViewOf, PromisesOf, Aligned, ActiveFirst, Remembered, KernelIn;
    CurrentRuns(p.table, p.nextPid, p.cur, p.vmm.kdir, p.vmm.refs, p.vmm.cr3);
    InView(p.vmm.M(), p.vmm.refs, p.vmm.kdir, 2, 0);
    assert p.Now().cur == 0 && p.Now().kernel == EMPTY;
  }

  /**
   The same calls, from the same world and with frames to spare, end in different worlds: whether the last process
   finds a promise depends on whether the kernel had a page table already, which no world shows.
   */
  method StrandThenSpawn(p: ProcTable, flags: Word)
    requires p.Valid() && p.Now() == Boot(0) && p.Spare() >= 3
    modifies p, p.pager`regions, p.vmm, p.vmm.pmm, p.vmm.pmm.bitmap, p.vmm.pmm.refcount
    ensures p.Valid() && p.vmm.pmm.denied == old(p.vmm.pmm.denied) && p.Now().procs[3].Process? && p.Now().procs[3].mem.Own?
    ensures var owed := p.Now().procs[3].mem.c.owed; if RTab(p.vmm.kdir, 2) in old(p.vmm.refs) then (4, 0) in owed else owed == map[]
  {
    hide Wf, Ok, Identities, Parented, Homes, WorldOf, PromisesOf, Aligned, ActiveFirst, Remembered, Clean, Paid, Lowest, Second, Backs, Possible, W.Map, W.Spawn, Boot, Sane, Slot, KernelIn;
    ghost var m0, refs0 := p.vmm.M(), p.vmm.refs;
    BootUnmapped(p);
    ghost var e, f := Strand(p, flags);
    ghost var m1, w1 := p.vmm.M(), p.Now();
    SecondAgain(m0, m1, refs0, e, f);
    var ok; ghost var luck;
    CurrentRuns(p.table, p.nextPid, p.cur, p.vmm.kdir, p.vmm.refs, p.vmm.cr3);
    SlotShown(p.vmm.ram, p.vmm.kdir, p.table, p.nextPid, p.cur, p.P(), 0);
    ok, luck := p.Map(2, 0, flags);
    TwoThenThird(w1, flags, luck);
    MapLeaves(w1, flags, luck, p.Spare());
    ghost var m2, refs2, w2 := p.vmm.M(), p.vmm.refs, p.Now();
    TwoThenThird(w2, flags, luck);
    var n;
    n, luck := p.Spawn();
    SpawnLuck(w2, luck, p.Spare());
    TwoThenThird(w2, flags, luck);
    CurrentRuns(p.table, p.nextPid, p.cur, p.vmm.kdir, p.vmm.refs, p.vmm.cr3);
    NextAfter(m1, refs0, m2, refs2, p.vmm.kdir, 2, 0, e, f, p.table[3].dir);
  }

  lemma MapThenUnmap(flags: Word)
    ensures var w := W.Map(Boot(0), 2, 0, flags, true).0; Sane(w) && W.Unmap(w, 2, 0) == Boot(0) && (2, 0) !in Here(Boot(0)).pages
  {
    var w := W.Map(Boot(0), 2, 0, flags, true).0;
    assert w.kernel.pages - {(2, 0)} == map[];
  }

  /** A kernel that has used a page table of its own shows the world it booted in. */
  method Warmed(kdir: FrameNo, ram: Ram, flags: Word) returns (p: ProcTable)
    requires 0 < kdir < BASE && forall di: Index :: di >= 2 ==> !ram[kdir][di].present
    ensures fresh(p) && fresh(p.vmm) && fresh(p.pager) && fresh(p.vmm.pmm) && fresh(p.vmm.pmm.bitmap) && fresh(p.vmm.pmm.refcount)
    ensures p.Valid() && p.Now() == Boot(0) && p.Spare() >= 3 && RTab(p.vmm.kdir, 2) in p.vmm.refs
  {
    hide Wf, Ok, Identities, Parented, Homes, WorldOf, PromisesOf, Aligned, ActiveFirst, Remembered, Clean, Paid, Lowest, Second, Possible, W.Map, W.Unmap, Boot, Sane, Fewer, KernelIn;
    p := Booted(kdir, ram, BASE * 4096 + 5 * 4096, false);
    BootUnmapped(p);
    MapThenUnmap(flags);
    var ok; ghost var luck;
    ok, luck := p.Map(2, 0, flags);
    MapLeaves(Boot(0), flags, luck, p.Spare());
    p.Unmap(2, 0);
  }

  /**
   Why two kernels agree only while no process goes with a promise outstanding. This one and the next show the same
   world at first, are given the same calls and are refused nothing; here the last process finds a promise.
   */
  method WarmedFinds(kdir: FrameNo, ram: Ram, flags: Word) returns (p: ProcTable)
    requires 0 < kdir < BASE && forall di: Index :: di >= 2 ==> !ram[kdir][di].present
    ensures p.Valid() && p.Now().procs[3].Process? && p.Now().procs[3].mem.Own? && (4, 0) in p.Now().procs[3].mem.c.owed
  {
    p := Warmed(kdir, ram, flags);
    StrandThenSpawn(p, flags);
  }

  /** And here it finds none. */
  method FreshFindsNone(kdir: FrameNo, ram: Ram, flags: Word) returns (p: ProcTable)
    requires 0 < kdir < BASE && forall di: Index :: di >= 2 ==> !ram[kdir][di].present
    ensures p.Valid() && p.Now().procs[3].Process? && p.Now().procs[3].mem.Own? && p.Now().procs[3].mem.c.owed == map[]
  {
    p := Booted(kdir, ram, BASE * 4096 + 5 * 4096, false);
    StrandThenSpawn(p, flags);
  }
}
