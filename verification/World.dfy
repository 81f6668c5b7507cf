/**
 The process system as a user sees it, with no frames, tables or sharing: every
 process has a memory of its own and fork copies it whole. The kernel of
 Procs.dfy is proved to be this, whichever way it clones address spaces.
 */
module World {
  import Heap
  import opened Words
  import opened Ownership
  import opened Demand

  const MAX_PROCS := 16
  /** The directory and the page tables above 8 MB: the most frames a fork takes beside the pages. */
  const FORK_TABLES := 1023

  datatype Life = Unused | Ready | Running | Zombie

  /** The pages of an address space, and those it was promised that come into being as zeros on their first touch. */
  datatype Contents = Contents(pages: View, owed: Promises)

  const EMPTY := Contents(map[], map[])

  /** Which memory a process runs in: none, the kernel's, or one of its own. */
  datatype Memory = Nowhere | Kernel | Own(c: Contents)

  datatype Process = Free | Process(pid: int, ppid: int, life: Life, mem: Memory, entry: nat, brk: nat, code: int)

  /**
   regions: how many of the 16 promises are taken; served: the faults demand paging resolved since the last clear;
   left: what processes gone since then had been promised and left behind.
   */
  datatype World = World(procs: seq<Process>, nextPid: int, cur: nat, kernel: Contents, regions: nat, served: nat, left: set<Promises>)

  /**
   What the machine decides: whether the frames a call needs are there, what a new address space finds promised
   already, and how many frames were free before the call.
   */
  datatype Luck = Luck(frames: bool, stale: Promises, spare: nat)

  /** Nothing the calls can notice. */
  predicate Fine(luck: Luck) {
    luck.frames && luck.stale == map[]
  }

  /** The current process runs, and slot 0 is the kernel, in its own memory. */
  predicate Sane(w: World) {
    && |w.procs| == MAX_PROCS && w.cur < MAX_PROCS
    && w.procs[w.cur].Process? && w.procs[w.cur].life == Running
    && w.procs[0].Process? && w.procs[0].pid == 0 && w.procs[0].life != Zombie && w.procs[0].mem == Kernel
  }

  /** The first slot from `i` on that passes `q`, or the length if there is none. */
  function Find(ps: seq<Process>, i: nat, q: Process -> bool): (k: nat)
    requires i <= |ps|
    ensures i <= k <= |ps| && (k < |ps| ==> q(ps[k])) && forall j :: i <= j < k ==> !q(ps[j])
    decreases |ps| - i
  {
    if i == |ps| || q(ps[i]) then i else Find(ps, i + 1, q)
  }

  function Slot(w: World): nat
    requires Sane(w)
  {
    Find(w.procs, 1, (p: Process) => p.Free?)
  }

  function ByPid(w: World, pid: int): nat
    requires Sane(w)
  {
    Find(w.procs, 0, (p: Process) => p.Process? && p.pid == pid)
  }

  /** The memory loads and stores of the current process go to. */
  function Here(w: World): Contents
    requires Sane(w)
  {
    var m := w.procs[w.cur].mem;
    if m.Own? then m.c else w.kernel
  }

  function SetHere(w: World, c: Contents): World
    requires Sane(w)
  {
    if w.procs[w.cur].mem.Own? then w.(procs := w.procs[w.cur := w.procs[w.cur].(mem := Own(c))]) else w.(kernel := c)
  }

  /** What a memory leaves behind when it goes away. */
  function Bequest(m: Memory): set<Promises> {
    if m.Own? && m.c.owed != map[] then {m.c.owed} else {}
  }

  /** proc_alloc gives the slot a new pid and makes it a child of the current process. */
  function Child(w: World, mem: Memory, entry: nat, brk: nat): Process
    requires Sane(w)
  {
    Process(w.nextPid, w.procs[w.cur].pid, Ready, mem, entry, brk, 0)
  }

  /** fork: a child with its own copy of the pages, or -1 when the table is full or frames run out. Promises are not inherited. */
  function Fork(w: World, luck: Luck): (World, int)
    requires Sane(w)
  {
    var k, p := Slot(w), w.procs[w.cur];
    if k == MAX_PROCS then (w, -1)
    else if !luck.frames then (w.(nextPid := w.nextPid + 1), -1)
    else
      var child := Child(w, Own(Contents(Here(w).pages, luck.stale)), p.entry, p.brk);
      (w.(procs := w.procs[k := child], nextPid := w.nextPid + 1), w.nextPid)
  }

  /** A process with an empty address space, as the shell builds one; without a frame for it, one that cannot run. */
  function Spawn(w: World, luck: Luck): (World, int)
    requires Sane(w)
  {
    var k := Slot(w);
    if k == MAX_PROCS then (w, -1)
    else
      var child := Child(w, if luck.frames then Own(Contents(map[], luck.stale)) else Nowhere, 0, 0);
      (w.(procs := w.procs[k := child], nextPid := w.nextPid + 1), w.nextPid)
  }

  function Orphan(p: Process, pid: int): Process {
    if p.Process? && p.ppid == pid then p.(ppid := 0) else p
  }

  /** exit: a zombie without private memory; its children go to the kernel, and so does the CPU. */
  function Exit(w: World, code: int): World
    requires Sane(w)
  {
    var p := w.procs[w.cur];
    if p.pid == 0 then w
    else
      var z := p.(life := Zombie, code := code, mem := if p.mem.Own? then Nowhere else p.mem);
      var ps := w.procs[w.cur := z][0 := w.procs[0].(life := Running)];
      w.(procs := seq(|ps|, i requires 0 <= i < |ps| => if i == 0 then ps[i] else Orphan(ps[i], p.pid)), cur := 0,
         left := w.left + Bequest(p.mem))
  }

  /** wait: release the first zombie child and report it. */
  function Wait(w: World): (World, int, int)
    requires Sane(w)
  {
    var k := Find(w.procs, 1, (p: Process) => p.Process? && p.life == Zombie && p.ppid == w.procs[w.cur].pid);
    if k == MAX_PROCS then (w, -1, 0) else (w.(procs := w.procs[k := Free]), w.procs[k].pid, w.procs[k].code)
  }

  /** The CPU goes to a live process that has memory to run in. */
  function Switch(w: World, pid: int): (r: (World, int))
    requires Sane(w)
    ensures Sane(r.0)
  {
    var k := ByPid(w, pid);
    if k == MAX_PROCS || w.procs[k].life == Zombie || w.procs[k].mem.Nowhere? then (w, -1)
    else
      var ps := w.procs[w.cur := w.procs[w.cur].(life := Ready)];
      (w.(procs := ps[k := ps[k].(life := Running)], cur := k), 0)
  }

  /** A promised page comes into being when it is first touched. */
  function Backed(c: Contents, p: (Index, Index)): View {
    if p !in c.pages && p in c.owed then c.pages[p := Fresh(c.owed[p])] else c.pages
  }

  /** A load or store of the current process; without frames it faults. */
  function Touch(w: World, a: Access, frames: bool): (World, Outcome)
    requires Sane(w)
  {
    if !frames then (w, Fault) else
      var c := Here(w);
      var (v, o) := Plain(Backed(c, (a.di, a.ti)), a);
      var first := if (a.di, a.ti) !in c.pages && (a.di, a.ti) in c.owed then 1 else 0;
      (SetHere(w, c.(pages := v)).(served := w.served + first), o)
  }

  /** Back an unmapped page with zeros. */
  function Map(w: World, di: Index, ti: Index, flags: Word, frames: bool): (World, bool)
    requires Sane(w)
  {
    var c := Here(w);
    if (di, ti) in c.pages || !frames then (w, false) else (SetHere(w, c.(pages := c.pages[(di, ti) := Fresh(flags)])), true)
  }

  function Unmap(w: World, di: Index, ti: Index): World
    requires Sane(w)
  {
    SetHere(w, Here(w).(pages := Here(w).pages - {(di, ti)}))
  }

  /** demand_region for the current process: earlier promises stand, and with 16 taken nothing is promised. */
  ghost function Promise(w: World, start: nat, end: nat, flags: Word): World
    requires Sane(w)
  {
    if w.regions == MAX_REGIONS then w
    else SetHere(w, Here(w).(owed := Owe(Here(w).owed, start, end, flags))).(regions := w.regions + 1)
  }

  function Forgiven(p: Process): Process {
    if p.Process? && p.mem.Own? then p.(mem := Own(p.mem.c.(owed := map[]))) else p
  }

  /** demand_clear: nobody is promised anything. */
  function Clear(w: World): World {
    w.(procs := seq(|w.procs|, i requires 0 <= i < |w.procs| => Forgiven(w.procs[i])), kernel := w.kernel.(owed := map[]),
       regions := 0, served := 0, left := {})
  }

  /** A ring-3 run in the kernel's memory gets a process of its own and the CPU. */
  function BeginUser(w: World): (World, int)
    requires Sane(w)
  {
    var k := Slot(w);
    if k == MAX_PROCS then (w, -1)
    else
      var w' := w.(procs := w.procs[k := Child(w, Kernel, 0, Heap.HEAP_BASE)], nextPid := w.nextPid + 1);
      (Switch(w', w.nextPid).0, w.nextPid)
  }

  function EndUser(w: World, pid: int): World
    requires Sane(w)
  {
    var w' := Switch(w, 0).0;
    var k := ByPid(w', pid);
    if k == MAX_PROCS || pid == 0 then w'
    else w'.(procs := w'.procs[k := Free], left := w'.left + Bequest(w'.procs[k].mem))
  }

  predicate HasChild(w: World, pid: int) {
    exists i :: 1 <= i < |w.procs| && w.procs[i].Process? && w.procs[i].ppid == pid
  }

  datatype Op = OFork | OSpawn | OExit(code: int) | OWait | OSwitch(pid: int) | OBegin | OEnd(pid: int)
              | OTouch(a: Access) | OMap(di: Index, ti: Index, flags: Word) | OUnmap(di: Index, ti: Index)
              | OPromise(start: nat, end: nat, flags: Word) | OClear

  datatype Reply = Number(n: int) | Reaped(pid: int, code: int) | Result(o: Outcome) | Mapped(ok: bool) | Nothing

  /** One call. proc_end_user is only called on a childless process: it would strand the children. */
  ghost function Step(w: World, op: Op, luck: Luck): (r: (World, Reply))
    requires Sane(w)
    ensures Sane(r.0)
  {
    match op
    case OFork => var (w', n) := Fork(w, luck); (w', Number(n))
    case OSpawn => var (w', n) := Spawn(w, luck); (w', Number(n))
    case OExit(code) => (Exit(w, code), Nothing)
    case OWait => var (w', pid, code) := Wait(w); (w', Reaped(pid, code))
    case OSwitch(pid) => var (w', n) := Switch(w, pid); (w', Number(n))
    case OBegin => var (w', n) := BeginUser(w); (w', Number(n))
    case OEnd(pid) => if HasChild(w, pid) then (w, Nothing) else (EndUser(w, pid), Nothing)
    case OTouch(a) => var (w', o) := Touch(w, a, luck.frames); (w', Result(o))
    case OMap(di, ti, flags) => var (w', ok) := Map(w, di, ti, flags, luck.frames); (w', Mapped(ok))
    case OUnmap(di, ti) => (Unmap(w, di, ti), Nothing)
    case OPromise(start, end, flags) => (Promise(w, start, end, flags), Nothing)
    case OClear => (Clear(w), Nothing)
  }

  /**
   The calls teardown cannot undo: backing a page in the kernel's memory, whose table stays, and being refused
   a frame for a page while one was still free, which is then lost.
   */
  predicate Spoils(w: World, op: Op, luck: Luck)
    requires Sane(w)
  {
    var c, own := Here(w), w.procs[w.cur].mem.Own?;
    match op
    case OMap(di, ti, flags) => (di, ti) !in c.pages && if luck.frames then !own else luck.spare > 0
    case OTouch(a) =>
      if luck.frames then !own && (a.di, a.ti) !in c.pages && (a.di, a.ti) in c.owed else luck.spare > 0
    case _ => false
  }

  /**
   What the machine can decide at a call that leaves `next` frames free. Only a new address space finds promises, and
   only ones left behind. A refused page takes the last free frame; a refused fork takes none.
   */
  ghost predicate Possible(w: World, op: Op, luck: Luck, next: nat)
    requires Sane(w)
  {
    var c := Here(w);
    && (luck.stale == map[] || (luck.stale in w.left && luck.frames && (op.OFork? || op.OSpawn?)))
    && match op
       case OFork =>
         if Slot(w) == MAX_PROCS then luck.frames && next == luck.spare
         else if luck.frames then next < luck.spare <= next + FORK_TABLES + |c.pages|
         else next == luck.spare < FORK_TABLES + |c.pages|
       case OSpawn =>
         if Slot(w) == MAX_PROCS then luck.frames && next == luck.spare
         else if luck.frames then next + 1 == luck.spare
         else next == luck.spare == 0
       case OExit(_) => luck.frames && next >= luck.spare
       case OEnd(_) => luck.frames && next >= luck.spare
       case OMap(di, ti, _) =>
         if (di, ti) in c.pages then luck.frames && next == luck.spare
         else if luck.frames then next < luck.spare <= next + 2
         else next == 0 && luck.spare < 2
       case OTouch(a) =>
         if !luck.frames then next == 0 && luck.spare < 2
         else if (a.di, a.ti) in c.pages then next <= luck.spare <= next + 1
         else if (a.di, a.ti) in c.owed then next < luck.spare <= next + 2
         else next == luck.spare
       case OUnmap(di, ti) => luck.frames && luck.spare <= next <= luck.spare + if (di, ti) in c.pages then 1 else 0
       case _ => luck.frames && next == luck.spare
  }

  /** A run of calls; lucks[i] is what the machine decided at the i-th. */
  ghost function Run(w: World, ops: seq<Op>, lucks: seq<Luck>): (r: (World, seq<Reply>))
    requires Sane(w) && |lucks| == |ops|
    ensures Sane(r.0)
  {
    if ops == [] then (w, [])
    else
      var n := |ops| - 1;
      var (w1, rs) := Run(w, ops[..n], lucks[..n]);
      var (w2, r) := Step(w1, ops[n], lucks[n]);
      (w2, rs + [r])
  }

  /** Some call of the run did what teardown cannot undo. */
  ghost predicate Spoilt(w: World, ops: seq<Op>, lucks: seq<Luck>)
    requires Sane(w) && |lucks| == |ops|
  {
    if ops == [] then false
    else
      var n := |ops| - 1;
      Spoilt(w, ops[..n], lucks[..n]) || Spoils(Run(w, ops[..n], lucks[..n]).0, ops[n], lucks[n])
  }

  /** What the machine decided over a run that began with `start` frames free and ended with `end`. */
  ghost predicate Feasible(w: World, ops: seq<Op>, lucks: seq<Luck>, start: nat, end: nat)
    requires Sane(w) && |lucks| == |ops|
  {
    if ops == [] then end == start
    else
      var n := |ops| - 1;
      && Feasible(w, ops[..n], lucks[..n], start, lucks[n].spare)
      && Possible(Run(w, ops[..n], lucks[..n]).0, ops[n], lucks[n], end)
  }

  /** How many calls were refused frames. */
  function Refusals(lucks: seq<Luck>): (k: nat)
    ensures k == 0 <==> forall i :: 0 <= i < |lucks| ==> lucks[i].frames
  {
    if lucks == [] then 0 else Refusals(lucks[..|lucks| - 1]) + if lucks[|lucks| - 1].frames then 0 else 1
  }

  const CALM := Luck(true, map[], 0)

  /** The run in which the machine decides nothing: frames are always there and no promise is left behind. */
  ghost function Calm(w: World, ops: seq<Op>): (r: (World, seq<Reply>))
    requires Sane(w)
    ensures Sane(r.0)
  {
    if ops == [] then (w, [])
    else
      var n := |ops| - 1;
      var (w1, rs) := Calm(w, ops[..n]);
      var (w2, r) := Step(w1, ops[n], CALM);
      (w2, rs + [r])
  }

  /** At some call of the calm run a process has gone with a promise outstanding. */
  ghost predicate EverStranded(w: World, ops: seq<Op>)
    requires Sane(w)
  {
    ops != [] && (EverStranded(w, ops[..|ops| - 1]) || Calm(w, ops[..|ops| - 1]).0.left != {})
  }

  lemma CalmStep(w: World, op: Op, luck: Luck)
    requires Sane(w)
    ensures Fine(luck) ==> Step(w, op, luck) == Step(w, op, CALM)
  {
  }

  /** A run is one call longer. */
  lemma RunNext(w: World, ops: seq<Op>, i: nat, lucks: seq<Luck>, luck: Luck, start: nat, end: nat)
    requires Sane(w) && i < |ops| && |lucks| == i
    ensures var (w1, rs) := Run(w, ops[..i], lucks); var (w2, r) := Step(w1, ops[i], luck);
            && Run(w, ops[..i + 1], lucks + [luck]) == (w2, rs + [r])
            && Refusals(lucks + [luck]) == Refusals(lucks) + (if luck.frames then 0 else 1)
            && (Spoilt(w, ops[..i + 1], lucks + [luck]) <==> Spoilt(w, ops[..i], lucks) || Spoils(w1, ops[i], luck))
            && (Feasible(w, ops[..i + 1], lucks + [luck], start, end) <==>
                  Feasible(w, ops[..i], lucks, start, luck.spare) && Possible(w1, ops[i], luck, end))
            && ((w1, rs) == Calm(w, ops[..i]) && Possible(w1, ops[i], luck, end) && luck.frames && !EverStranded(w, ops[..i + 1]) ==>
                  (w2, rs + [r]) == Calm(w, ops[..i + 1]))
            && (EverStranded(w, ops[..i]) ==> EverStranded(w, ops[..i + 1]))
  {
    assert ops[..i + 1][..i] == ops[..i] && (lucks + [luck])[..i] == lucks;
    CalmStep(Run(w, ops[..i], lucks).0, ops[i], luck);
  }

  /** The kernel alone, with an empty memory. */
  function Boot(served: nat): (w: World)
    ensures Sane(w)
  {
    World(seq(MAX_PROCS, i => if i == 0 then Process(0, 0, Running, Kernel, 0, 0, 0) else Free), 1, 0, EMPTY, 0, served, {})
  }

  /** Every process but the kernel is gone or dead. */
  predicate Deserted(w: World) {
    w.cur == 0 && forall i :: 1 <= i < |w.procs| ==> w.procs[i].Free? || w.procs[i].life == Zombie
  }

  /** The pids and exit codes of the zombies from slot `i` on. */
  function Codes(ps: seq<Process>, i: nat): seq<(int, int)>
    requires i <= |ps|
    decreases |ps| - i
  {
    if i == |ps| then []
    else if ps[i].Process? && ps[i].life == Zombie then [(ps[i].pid, ps[i].code)] + Codes(ps, i + 1)
    else Codes(ps, i + 1)
  }
}
