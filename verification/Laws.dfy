/**
 What a program can rely on, as laws of several calls: a child starts with what its parent had and neither sees the
 other's stores; an exit code reaches the parent that waits; a user run leaves no trace; a mapped or promised page
 reads as zeros, keeps what is stored in it and is gone when it is unmapped. World is what the laws are about, and
 every run of the kernel is a run of World.
 */
module Laws {
  import Heap
  import opened Words
  import opened Ownership
  import opened Demand
  import W = World
  import opened World
  import opened Procs

  /** Pids are distinct and below the next one, so are parents; only the current process runs, and it has memory to run in. */
  ghost predicate Numbered(w: W.World) {
    && Sane(w) && 0 < w.nextPid && !w.procs[w.cur].mem.Nowhere?
    && (forall i :: 0 <= i < 16 && w.procs[i].Process? ==> 0 <= w.procs[i].pid < w.nextPid)
    && (forall i :: 1 <= i < 16 && w.procs[i].Process? ==> 0 < w.procs[i].pid && 0 <= w.procs[i].ppid < w.nextPid)
    && (forall i :: 0 <= i < 16 && w.procs[i].Process? ==> (w.procs[i].life == Running <==> i == w.cur))
    && (forall i, j :: 0 <= i < j < 16 && w.procs[i].Process? && w.procs[j].Process? ==> w.procs[i].pid != w.procs[j].pid)
  }

  /** Every state of the kernel is like that. */
  lemma KernelIsNumbered(p: ProcTable)
    requires p.Valid()
    ensures Numbered(p.Now())
  {
    hide ViewOf, PromisesOf, Remembered, Homes, Aligned, ActiveFirst, Wf;
    var t := p.table;
    forall i | 1 <= i < 16 && Used(t, i) ensures 0 <= t[i].ppid < p.nextPid {
      var j :| 0 <= j < |t| && Parent(t, i, j);
      assert j == 0 || 0 < t[j].pid < p.nextPid;
    }
    forall i | 0 <= i < 16 ensures p.Now().procs[i].Process? <==> Used(t, i) {
    }
  }

  // ---- a run of a user program ---------------------------------------------------------

  /** proc_begin_user and then proc_end_user: the program had a process of its own, and only its pid is used up. */
  lemma BeginThenEnd(w: W.World, l1: Luck, l2: Luck)
    requires Numbered(w) && w.cur == 0 && Slot(w) < 16
    ensures var (w1, r) := Step(w, OBegin, l1);
            && r == Number(w.nextPid) && w1.procs[w1.cur].pid == w.nextPid && w1.procs[w1.cur].ppid == 0
            && Here(w1) == w.kernel && w1.procs[w1.cur].brk == 0x90000
            && Step(w1, OEnd(w.nextPid), l2) == (w.(nextPid := w.nextPid + 1), Nothing)
  {
    var k, n := Slot(w), w.nextPid;
    var user := Child(w, Kernel, 0, Heap.HEAP_BASE);
    var w' := w.(procs := w.procs[k := user], nextPid := n + 1);
    PidFound(w', n, k);
    var w1 := BeginUser(w).0;
    assert w1.cur == k && w1.procs == w.procs[k := user.(life := Running)][0 := w.procs[0].(life := Ready)];
    assert !HasChild(w1, n);
    PidFound(w1, 0, 0);
    var w2 := Switch(w1, 0).0;
    PidFound(w2, n, k);
    assert w2.procs[k := Free] == w.procs && w.left + {} == w.left;
  }

  // ---- fork ------------------------------------------------------------------------------

  /** The processor goes to a process that is ready and has memory, and nothing else changes. */
  lemma SwitchGoes(w: W.World, k: nat, luck: Luck)
    requires Numbered(w) && k < 16 && w.procs[k].Process? && w.procs[k].life == Ready && !w.procs[k].mem.Nowhere?
    ensures var (w', r) := Step(w, OSwitch(w.procs[k].pid), luck);
            && r == Number(0) && Numbered(w') && w'.cur == k
            && w' == w.(cur := k, procs := w.procs[w.cur := w.procs[w.cur].(life := Ready)][k := w.procs[k].(life := Running)])
  {
    PidFound(w, w.procs[k].pid, k);
  }

  lemma ForkMakes(w: W.World, l1: Luck)
    requires Numbered(w) && Slot(w) < 16 && l1.frames
    ensures var (w1, r1) := Step(w, OFork, l1); var p := w.procs[w.cur];
            && r1 == Number(w.nextPid) && Numbered(w1) && Here(w1) == Here(w) && w1.kernel == w.kernel && w1.cur == w.cur
            && (forall i :: 0 <= i < 16 && w.procs[i].Process? ==> w1.procs[i] == w.procs[i])
            && w1.procs[Slot(w)] == Process(w.nextPid, p.pid, Ready, Own(Contents(Here(w).pages, l1.stale)), p.entry, p.brk, 0)
  {
  }

  /** The child's pid is new; switched to, it sees the parent's pages; until then nothing has changed for anybody. */
  lemma ForkThenSwitch(w: W.World, l1: Luck, l2: Luck)
    requires Numbered(w) && Slot(w) < 16 && l1.frames
    ensures var (w1, r1) := Step(w, OFork, l1); var (w2, r2) := Step(w1, OSwitch(w.nextPid), l2); var p := w.procs[w.cur];
            && r1 == Number(w.nextPid) && Numbered(w1) && Here(w1) == Here(w) && w1.kernel == w.kernel && w1.cur == w.cur
            && (forall i :: 0 <= i < 16 && w.procs[i].Process? ==> w1.procs[i] == w.procs[i])
            && r2 == Number(0) && Numbered(w2) && w2.procs[w2.cur] == Process(w.nextPid, p.pid, Running, w2.procs[w2.cur].mem, p.entry, p.brk, 0)
            && w2.procs[w2.cur].mem.Own? && Here(w2).pages == Here(w).pages && w2.kernel == w.kernel
            && w2.procs[w.cur] == p.(life := Ready) && w2.cur != w.cur
  {
    hide W.Fork, Step, Slot;
    ForkMakes(w, l1);
    SwitchGoes(Step(w, OFork, l1).0, Slot(w), l2);
  }

  /** Loads, stores, mapping and promising concern the memory of the current process and nothing else. */
  lemma MemoryIsPrivate(w: W.World, op: Op, luck: Luck)
    requires Sane(w) && (op.OTouch? || op.OMap? || op.OUnmap? || op.OPromise?)
    ensures var w' := Step(w, op, luck).0;
            && w'.cur == w.cur && w'.nextPid == w.nextPid && (forall i :: 0 <= i < 16 && i != w.cur ==> w'.procs[i] == w.procs[i])
            && w'.procs[w.cur].Process? && w'.procs[w.cur] == w.procs[w.cur].(mem := w'.procs[w.cur].mem)
            && (w.procs[w.cur].mem.Own? ==> w'.procs[w.cur].mem.Own? && w'.kernel == w.kernel)
            && (!w.procs[w.cur].mem.Own? ==> w'.procs[w.cur].mem == w.procs[w.cur].mem)
  {
    hide Plain, Backed, Owe;
  }

  /** Whatever the child does with its memory, the parent finds its own as it was. */
  lemma ForkIsolates(w: W.World, l1: Luck, l2: Luck, op: Op, l3: Luck, l4: Luck)
    requires Numbered(w) && Slot(w) < 16 && l1.frames && (op.OTouch? || op.OMap? || op.OUnmap? || op.OPromise?)
    ensures var w2 := Step(Step(w, OFork, l1).0, OSwitch(w.nextPid), l2).0; var w3 := Step(w2, op, l3).0;
            var (w4, r) := Step(w3, OSwitch(w.procs[w.cur].pid), l4);
            r == Number(0) && w4.cur == w.cur && w4.procs[w.cur] == w.procs[w.cur] && Here(w4) == Here(w)
  {
    hide Plain, Backed, Owe, W.Fork, Slot;
    ForkThenSwitch(w, l1, l2);
    var w2 := Step(Step(w, OFork, l1).0, OSwitch(w.nextPid), l2).0;
    MemoryIsPrivate(w2, op, l3);
    var w3 := Step(w2, op, l3).0;
    PidFound(w3, w.procs[w.cur].pid, w.cur);
  }

  /** And whatever the parent does with its memory, the child finds the copy. */
  lemma ForkIsolatesChild(w: W.World, l1: Luck, op: Op, l2: Luck, l3: Luck)
    requires Numbered(w) && Slot(w) < 16 && l1.frames && (op.OTouch? || op.OMap? || op.OUnmap? || op.OPromise?)
    ensures var w1 := Step(w, OFork, l1).0; var w2 := Step(w1, op, l2).0; var (w3, r) := Step(w2, OSwitch(w.nextPid), l3);
            r == Number(0) && w3.procs[w3.cur].pid == w.nextPid && Here(w3).pages == Here(w).pages
  {
    hide Plain, Backed, Owe;
    var w1 := Step(w, OFork, l1).0;
    MemoryIsPrivate(w1, op, l2);
    PidFound(Step(w1, op, l2).0, w.nextPid, Slot(w));
  }

  // ---- exit and wait -----------------------------------------------------------------------

  /** No zombie in an earlier slot is, or is about to become, a child of that parent. */
  ghost predicate FirstToDie(w: W.World, parent: int)
    requires Sane(w)
  {
    forall j :: 1 <= j < w.cur && w.procs[j].Process? && w.procs[j].life == Zombie ==>
                  w.procs[j].ppid != parent && w.procs[j].ppid != w.procs[w.cur].pid
  }

  /** The parent that waits gets the pid and the exit code, once; the dead process's children are the kernel's. */
  lemma ExitThenWait(w: W.World, code: int, q: nat, l1: Luck, l2: Luck, l3: Luck)
    requires Numbered(w) && w.cur != 0 && q < 16 && q != w.cur && w.procs[q].Process? && w.procs[q].life == Ready && !w.procs[q].mem.Nowhere?
    requires w.procs[w.cur].ppid == w.procs[q].pid && FirstToDie(w, w.procs[q].pid)
    ensures var p, parent := w.procs[w.cur], w.procs[q].pid;
            var w1 := Step(w, OExit(code), l1).0; var (w2, r2) := Step(w1, OSwitch(parent), l2); var (w3, r3) := Step(w2, OWait, l3);
            && w1.cur == 0 && r2 == Number(0) && w2.procs[w2.cur].pid == parent && Here(w2) == (if w.procs[q].mem.Own? then w.procs[q].mem.c else w.kernel)
            && r3 == Reaped(p.pid, code) && w3.procs[w.cur].Free?
            && forall i :: 1 <= i < 16 && i != w.cur && w.procs[i].Process? ==>
                 w3.procs[i].Process? && w3.procs[i].pid == w.procs[i].pid && w3.procs[i].mem == w.procs[i].mem
                 && w3.procs[i].ppid == if w.procs[i].ppid == p.pid then 0 else w.procs[i].ppid
  {
    hide W.Exit, W.Wait;
    var c, parent := w.cur, w.procs[q].pid;
    var w1 := Step(w, OExit(code), l1).0;
    ExitEverywhere(w, code);
    PidFound(w1, parent, q);
    var w2 := Step(w1, OSwitch(parent), l2).0;
    assert w2.cur == q && w2.procs[c] == w1.procs[c];
    ZombieFound(w2, c);
  }

  lemma ExitEverywhere(w: W.World, code: int)
    requires Numbered(w) && w.cur != 0
    ensures var p, w' := w.procs[w.cur], W.Exit(w, code);
            && w'.cur == 0 && |w'.procs| == 16 && w'.kernel == w.kernel && w'.nextPid == w.nextPid
            && w'.procs[0] == w.procs[0].(life := Running)
            && (p.ppid != p.pid ==> w'.procs[w.cur] == p.(life := Zombie, code := code, mem := if p.mem.Own? then Nowhere else p.mem))
            && forall i :: 1 <= i < 16 && i != w.cur ==>
                 w'.procs[i] == if w.procs[i].Process? && w.procs[i].ppid == p.pid then w.procs[i].(ppid := 0) else w.procs[i]
  {
    ExitAt(w, code, 0);
    forall i | 1 <= i < 16 ensures
      var p := w.procs[w.cur];
      W.Exit(w, code).procs[i] ==
        Orphan(if i == w.cur then p.(life := Zombie, code := code, mem := if p.mem.Own? then Nowhere else p.mem) else w.procs[i], p.pid)
    {
      ExitAt(w, code, i);
    }
  }

  // ---- memory ------------------------------------------------------------------------------

  /** A stored word is read back, and the rest of the page is as it was. */
  lemma StoreThenLoad(w: W.World, di: Index, ti: Index, off: Index, v: Word, o: Index, l1: Luck, l2: Luck)
    requires Sane(w) && l2.frames
    ensures var (w1, r1) := Step(w, OTouch(Write(di, ti, off, v)), l1);
            var before, after := Step(w, OTouch(Read(di, ti, o)), l2).1, Step(w1, OTouch(Read(di, ti, o)), l2).1;
            r1 == Result(Done) ==> after == (if o == off then Result(Got(v)) else before) && before.o.Got?
  {
  }

  /** A word is zero when all its 32 bits are. */
  predicate IsZero(o: Outcome) {
    o.Got? && Encode(o.v) == 0
  }

  /** A page the current process maps is all zeros, and unmapping it undoes the call. */
  lemma MapThenLoad(w: W.World, di: Index, ti: Index, flags: Word, off: Index, l1: Luck, l2: Luck)
    requires Sane(w) && (di, ti) !in Here(w).pages && l1.frames && l2.frames
    ensures var (w1, r1) := Step(w, OMap(di, ti, flags), l1); var (w2, r2) := Step(w1, OTouch(Read(di, ti, off)), l2);
            r1 == Mapped(true) && r2.Result? && IsZero(r2.o) && w2 == w1 && Step(w1, OUnmap(di, ti), l2).0 == w
  {
    var c := Here(w);
    var w1 := Step(w, OMap(di, ti, flags), l1).0;
    assert Here(w1).pages - {(di, ti)} == c.pages;
    assert w1.procs[w1.cur := w.procs[w.cur]] == w.procs;
  }

  /** Only a page mapped writable takes a store. */
  lemma MapThenStore(w: W.World, di: Index, ti: Index, flags: Word, off: Index, v: Word, l1: Luck, l2: Luck)
    requires Sane(w) && (di, ti) !in Here(w).pages && l1.frames && l2.frames
    ensures var (w1, r1) := Step(w, OMap(di, ti, flags), l1);
            Step(w1, OTouch(Write(di, ti, off, v)), l2).1 == Result(if flags.rw || flags.cow then Done else Fault)
  {
  }

  /** A page that is neither mapped nor promised cannot be touched. */
  lemma NothingThere(w: W.World, a: Access, luck: Luck)
    requires Sane(w) && (a.di, a.ti) !in Here(w).pages && (a.di, a.ti) !in Here(w).owed
    ensures Step(w, OTouch(a), luck) == (w, Result(Fault))
  {
    assert w.procs[w.cur := w.procs[w.cur]] == w.procs;
  }

  /** After demand_region a page of the range reads as zeros at its first touch and is counted; any other new page faults. */
  lemma PromiseThenLoad(w: W.World, start: nat, end: nat, flags: Word, di: Index, ti: Index, off: Index, l1: Luck, l2: Luck)
    requires Sane(w) && w.regions < 16 && start < 0x1_0000_0000 && end < 0x1_0000_0000 && di >= 2 && l2.frames
    requires (di, ti) !in Here(w).pages && (di, ti) !in Here(w).owed
    ensures var w1 := Step(w, OPromise(start, end, flags), l1).0; var (w2, r) := Step(w1, OTouch(Read(di, ti, off)), l2);
            if Reaches(start, end, 0x40_0000 * di + 4096 * ti) then r.Result? && IsZero(r.o) && w2.served == w.served + 1
            else r == Result(Fault) && w2.served == w.served
  {
    hide Owe;
    OweReaches(Here(w).owed, start, end, flags, di, ti);
  }

  /** After demand_clear no page that is not mapped can be touched, by anyone. */
  lemma ClearThenTouch(w: W.World, a: Access, l1: Luck, l2: Luck)
    requires Sane(w) && (a.di, a.ti) !in Here(w).pages
    ensures var w1 := Step(w, OClear, l1).0; Here(w1).pages == Here(w).pages && Step(w1, OTouch(a), l2).1 == Result(Fault) && w1.regions == 0 && w1.served == 0
  {
  }

  /** A spawned process has no page, and with nothing left behind it has no promise. */
  lemma SpawnIsEmpty(w: W.World, l1: Luck, l2: Luck, a: Access, l3: Luck)
    requires Numbered(w) && Slot(w) < 16 && l1.frames && l1.stale == map[]
    ensures var (w1, r1) := Step(w, OSpawn, l1); var (w2, r2) := Step(w1, OSwitch(w.nextPid), l2);
            && r1 == Number(w.nextPid) && r2 == Number(0) && w2.procs[w2.cur].ppid == w.procs[w.cur].pid
            && Step(w2, OTouch(a), l3).1 == Result(Fault)
  {
    hide Slot;
    var w1 := Step(w, OSpawn, l1).0;
    SpawnMakes(w, l1);
    SwitchGoes(w1, Slot(w), l2);
    NothingThere(Step(w1, OSwitch(w.nextPid), l2).0, a, l3);
  }

  lemma SpawnMakes(w: W.World, l1: Luck)
    requires Numbered(w) && Slot(w) < 16 && l1.frames
    ensures var (w1, r1) := Step(w, OSpawn, l1);
            && r1 == Number(w.nextPid) && Numbered(w1)
            && w1.procs[Slot(w)] == Process(w.nextPid, w.procs[w.cur].pid, Ready, Own(Contents(map[], l1.stale)), 0, 0, 0)
  {
  }
}
