/**
 The cooperative round-robin scheduler, and the two kinds of counting worker run under it. A task is
 suspended only inside task_yield, so its whole control state is which yield that is.
 */
module Tasks {
  /** Fresh: not entered yet; Waiting: the yield of mutex_lock; Middle: the yield between read and write. */
  datatype Point = Fresh | Waiting | Middle(t: int)

  datatype Task = Task(active: bool, point: Point, done: nat)

  /** Steps forward on the ring of `num` task slots from a to b. */
  function Dist(a: nat, b: nat, num: nat): nat
    requires a < num
  {
    if b >= a then b - a else b + num - a
  }

  predicate Runnable(tasks: seq<Task>, j: int) {
    0 < j < |tasks| && tasks[j].active
  }

  /** Task j is the next runnable one after prev, going round. */
  ghost predicate Nearest(tasks: seq<Task>, prev: nat, j: nat)
    requires prev < |tasks|
  {
    && Runnable(tasks, j) && j != prev
    && (forall h :: Runnable(tasks, h) && h != prev ==> Dist(prev, j, |tasks|) <= Dist(prev, h, |tasks|))
  }

  ghost predicate OthersIdle(tasks: seq<Task>, prev: nat) {
    forall h :: Runnable(tasks, h) ==> h == prev
  }

  /** Whom task_yield hands the processor to. */
  ghost predicate Next(tasks: seq<Task>, prev: nat, cur: nat)
    requires prev < |tasks|
  {
    if OthersIdle(tasks, prev) then cur == (if Runnable(tasks, prev) then prev else 0)
    else Nearest(tasks, prev, cur)
  }

  /** The scan of task_yield from offset `off` on. */
  function Scan(tasks: seq<Task>, prev: nat, off: nat): (k: nat)
    requires prev < |tasks|
    ensures k < |tasks|
    decreases |tasks| - off
  {
    if off >= |tasks| then (if prev != 0 && !tasks[prev].active then 0 else prev) else
      var cand := (prev + off) % |tasks|;
      if cand != 0 && tasks[cand].active then cand else Scan(tasks, prev, off + 1)
  }

  /** What task_yield sees of the machine. */
  datatype Snapshot = Snapshot(tasks: seq<Task>, current: nat, counter: int, locked: int)

  function Begin(n: nat): Snapshot {
    Snapshot([Task(false, Fresh, 0)] + seq(n, i => Task(true, Fresh, 0)), 0, 0, 0)
  }

  /** The current task puts itself to rest as `me` and yields. */
  function Rest(s: Snapshot, me: Task): (r: Snapshot)
    requires s.current < |s.tasks|
    ensures r.current < |r.tasks|
  {
    var tasks := s.tasks[s.current := me];
    s.(tasks := tasks, current := Scan(tasks, s.current, 1))
  }

  /** safe_worker from one task_yield to the next; unlocking and locking again happen in one turn. */
  function SafeStep(s: Snapshot, K: nat): (r: Snapshot)
    requires s.current < |s.tasks|
    ensures r.current < |r.tasks|
  {
    var was := s.tasks[s.current];
    var (me, counter, locked) :=
      if was.point.Middle? then (was.(done := was.done + 1), was.point.t + 1, 0) else (was, s.counter, s.locked);
    if me.done >= K then Rest(s.(counter := counter, locked := locked), me.(active := false, point := Fresh))
    else Rest(s.(counter := counter, locked := 1), me.(point := if locked != 0 then Waiting else Middle(counter)))
  }

  /** racer from one task_yield to the next. */
  function RaceStep(s: Snapshot, K: nat): (r: Snapshot)
    requires s.current < |s.tasks|
    ensures r.current < |r.tasks|
  {
    var was := s.tasks[s.current];
    var (me, counter) := if was.point.Middle? then (was.(done := was.done + 1), was.point.t + 1) else (was, s.counter);
    if me.done >= K then Rest(s.(counter := counter), me.(active := false, point := Fresh))
    else Rest(s.(counter := counter), me.(point := Middle(counter)))
  }

  /**
   An update takes two turns: what is written is one more than the task read before its last yield, and what a task
   holds when it yields in the middle is the counter as it stands.
   */
  lemma UpdatesSpanAYield(s: Snapshot, K: nat)
    requires s.current < |s.tasks|
    ensures forall r :: r in {SafeStep(s, K), RaceStep(s, K)} ==>
              && (r.counter != s.counter ==> s.tasks[s.current].point.Middle? && r.counter == s.tasks[s.current].point.t + 1)
              && (r.tasks[s.current].point.Middle? ==> r.tasks[s.current].point.t == r.counter)
    ensures SafeStep(s, K).tasks[s.current].point.Middle? ==> SafeStep(s, K).locked == 1 && (s.locked == 0 || s.tasks[s.current].point.Middle?)
  {
    hide Scan;
  }

  /** The machine after task 0 has yielded and `turns` turns were taken, or none once task 0 is back. */
  function After(n: nat, K: nat, safe: bool, turns: nat): (s: Snapshot)
    ensures s.current < |s.tasks|
  {
    if turns == 0 then var s := Begin(n); s.(current := Scan(s.tasks, 0, 1)) else
      var s := After(n, K, safe, turns - 1);
      if s.current == 0 then s else if safe then SafeStep(s, K) else RaceStep(s, K)
  }

  /** Moving to the nearest task brings every other runnable task nearer. */
  lemma NearerTo(tasks: seq<Task>, prev: nat, cur: nat, h: nat)
    requires prev < |tasks| && Next(tasks, prev, cur) && Runnable(tasks, h) && h != prev
    ensures Dist(cur, h, |tasks|) < Dist(prev, h, |tasks|)
  {
  }

  lemma NextRuns(tasks: seq<Task>, prev: nat, cur: nat)
    requires prev < |tasks| && Next(tasks, prev, cur)
    ensures cur == 0 || Runnable(tasks, cur)
    ensures cur == 0 ==> forall h :: !Runnable(tasks, h)
  {
  }

  /** The candidate at offset `off` and the offset of a candidate determine each other. */
  lemma OffsetIs(prev: nat, off: nat, num: nat)
    requires prev < num && 0 < off < num
    ensures (prev + off) % num < num && (prev + off) % num != prev && Dist(prev, (prev + off) % num, num) == off
  {
    if prev + off >= num {
      assert (prev + off) % num == prev + off - num;
    }
  }

  function Sum(tasks: seq<Task>): nat {
    if tasks == [] then 0 else Sum(tasks[..|tasks| - 1]) + tasks[|tasks| - 1].done
  }

  lemma {:induction false} SumAfter(tasks: seq<Task>, j: nat, t: Task)
    requires j < |tasks|
    ensures Sum(tasks[j := t]) == Sum(tasks) + t.done - tasks[j].done
  {
    var k := |tasks| - 1;
    if j == k {
      assert tasks[j := t][..k] == tasks[..k];
    } else {
      SumAfter(tasks[..k], j, t);
      assert tasks[j := t][..k] == tasks[..k][j := t];
    }
  }

  function ActiveCount(tasks: seq<Task>): nat {
    if tasks == [] then 0 else ActiveCount(tasks[..|tasks| - 1]) + if tasks[|tasks| - 1].active then 1 else 0
  }

  lemma {:induction false} ActiveAfter(tasks: seq<Task>, j: nat, t: Task)
    requires j < |tasks|
    ensures ActiveCount(tasks[j := t]) == ActiveCount(tasks) + (if t.active then 1 else 0) - if tasks[j].active then 1 else 0
  {
    var k := |tasks| - 1;
    if j == k {
      assert tasks[j := t][..k] == tasks[..k];
    } else {
      ActiveAfter(tasks[..k], j, t);
      assert tasks[j := t][..k] == tasks[..k][j := t];
    }
  }

  /** Every task has done at most K, all workers exactly K when none is active. */
  lemma {:induction false} SumIsAtMost(tasks: seq<Task>, K: nat)
    requires tasks != [] && tasks[0].done == 0
    requires forall j :: 0 < j < |tasks| ==> tasks[j].done <= K
    ensures Sum(tasks) <= (|tasks| - 1) * K
    ensures (forall j :: 0 < j < |tasks| ==> tasks[j].done == K) ==> Sum(tasks) == (|tasks| - 1) * K
  {
    var k := |tasks| - 1;
    if k > 0 {
      SumIsAtMost(tasks[..k], K);
      assert k * K == (k - 1) * K + K;
    } else {
      assert tasks[..0] == [];
    }
  }

  class Scheduler {
    var tasks: seq<Task>
    var current: nat
    var counter: int
    var locked: int

    predicate Ready()
      reads this
    {
      current < |tasks| && !tasks[0].active && tasks[0].done == 0
    }

    function Now(): Snapshot
      reads this
    {
      Snapshot(tasks, current, counter, locked)
    }

    /** spawn_three with any number of workers, up to its task_yield. */
    constructor (workers: nat)
      ensures |tasks| == workers + 1 && tasks[0] == Task(false, Fresh, 0)
      ensures forall j :: 0 < j <= workers ==> tasks[j] == Task(true, Fresh, 0)
      ensures current == 0 && counter == 0 && locked == 0 && Now() == Begin(workers)
    {
      tasks := [Task(false, Fresh, 0)];
      current := 0;
      counter := 0;
      locked := 0;
      new;
      var i := 0;
      while i < workers
        invariant 0 <= i <= workers && |tasks| == i + 1 && tasks[0] == Task(false, Fresh, 0)
        invariant forall j :: 0 < j <= i ==> tasks[j] == Task(true, Fresh, 0)
        invariant current == 0 && counter == 0 && locked == 0
      {
        TaskCreate();
        i := i + 1;
      }
    }

    method TaskCreate()
      modifies this`tasks
      ensures tasks == old(tasks) + [Task(true, Fresh, 0)]
    {
      tasks := tasks + [Task(true, Fresh, 0)];
    }

    /** Scan the ring for another active worker; failing that, go on or go back to task 0. */
    method Yield()
      requires Ready()
      modifies this`current
      ensures Ready() && Next(tasks, old(current), current)
      ensures current == Scan(tasks, old(current), 1)
    {
      var prev, num := current, |tasks|;
      var off := 1;
      while off < num
        invariant 1 <= off && current == prev && Scan(tasks, prev, 1) == Scan(tasks, prev, off)
        invariant forall h :: Runnable(tasks, h) && h != prev ==> off <= Dist(prev, h, num)
      {
        OffsetIs(prev, off, num);
        var cand := (prev + off) % num;
        if cand != 0 && tasks[cand].active {
          assert Runnable(tasks, cand);
          current := cand;
          return;
        }
        off := off + 1;
      }
      if prev != 0 && !tasks[prev].active {
        current := 0;
      }
    }

    /** One turn of a safe_worker. */
    method SafeTurn(K: nat)
      requires Ready() && current != 0
      modifies this
      ensures Ready() && Now() == SafeStep(old(Now()), K)
    {
      var me := tasks[current];
      if me.point.Middle? {
        counter := me.point.t + 1;
        locked := 0;
        me := me.(done := me.done + 1);
      }
      if me.done < K {
        var seen := locked;
        locked := 1;
        if seen != 0 {
          me := me.(point := Waiting);
        } else {
          me := me.(point := Middle(counter));
        }
      } else {
        me := me.(active := false, point := Fresh);
      }
      tasks := tasks[current := me];
      Yield();
    }

    /** One turn of a racer. */
    method RaceTurn(K: nat)
      requires Ready() && current != 0
      modifies this
      ensures Ready() && Now() == RaceStep(old(Now()), K)
    {
      var me := tasks[current];
      if me.point.Middle? {
        counter := me.point.t + 1;
        me := me.(done := me.done + 1);
      }
      if me.done < K {
        me := me.(point := Middle(counter));
      } else {
        me := me.(active := false, point := Fresh);
      }
      tasks := tasks[current := me];
      Yield();
    }
  }

  predicate Progress(t: Task, K: nat) {
    t.done <= K && (if t.active then t.done < K || t.point.Fresh? else t.done == K)
  }

  // ---- workers with the mutex --------------------------------------------------------

  /**
   Task h, if not 0, is the one between lock and unlock, and its copy of the counter is current;
   no update is lost.
   */
  ghost predicate Safe(s: Snapshot, h: nat, K: nat) {
    && s.current < |s.tasks| && !s.tasks[0].active && s.tasks[0].done == 0
    && h < |s.tasks| && s.locked == (if h == 0 then 0 else 1)
    && (forall j :: 0 <= j < |s.tasks| ==> (s.tasks[j].point.Middle? <==> j == h && j != 0))
    && (h != 0 ==> s.tasks[h].active && s.tasks[h].point.t == s.counter)
    && (forall j :: 0 < j < |s.tasks| ==> Progress(s.tasks[j], K))
    && s.counter == Sum(s.tasks)
    && (s.current == 0 ==> forall j :: !Runnable(s.tasks, j))
    && (s.current != 0 ==> Runnable(s.tasks, s.current))
  }

  function Goal(n: nat, K: nat): nat {
    n * K
  }

  /** What is left: updates, then active tasks, then taking the free lock, then the way round to its holder. */
  ghost predicate Closer(s: Snapshot, h: nat, s': Snapshot, h': nat)
    requires s.current < |s.tasks| == |s'.tasks| && s'.current < |s'.tasks|
  {
    || Sum(s'.tasks) > Sum(s.tasks)
    || (Sum(s'.tasks) == Sum(s.tasks) &&
        (|| ActiveCount(s'.tasks) < ActiveCount(s.tasks)
         || (ActiveCount(s'.tasks) == ActiveCount(s.tasks) &&
             (|| h == 0 != h'
              || (h == h' != 0 && Dist(s'.current, h, |s.tasks|) < Dist(s.current, h, |s.tasks|))))))
  }

  lemma RestKeeps(s: Snapshot, me: Task, h: nat, K: nat)
    requires 0 < s.current < |s.tasks| && !s.tasks[0].active && s.tasks[0].done == 0 && h < |s.tasks|
    requires s.locked == if h == 0 then 0 else 1
    requires forall j :: 0 <= j < |s.tasks| && j != s.current ==> (s.tasks[j].point.Middle? <==> j == h && j != 0)
    requires me.point.Middle? <==> s.current == h
    requires h != 0 ==> var t := if s.current == h then me else s.tasks[h]; t.point.Middle? && t.active && t.point.t == s.counter
    requires Progress(me, K) && forall j :: 0 < j < |s.tasks| && j != s.current ==> Progress(s.tasks[j], K)
    requires s.counter == Sum(s.tasks) + me.done - s.tasks[s.current].done
    ensures Safe(Rest(s, me), h, K)
  {
    hide Sum, Scan;
    var tasks := s.tasks[s.current := me];
    SumAfter(s.tasks, s.current, me);
    ScanIsNext(tasks, s.current);
    NextRuns(tasks, s.current, Scan(tasks, s.current, 1));
  }

  lemma ScanIsNext(tasks: seq<Task>, prev: nat)
    requires prev < |tasks|
    ensures Next(tasks, prev, Scan(tasks, prev, 1))
  {
    ScanFrom(tasks, prev, 1);
  }

  lemma {:induction false} ScanFrom(tasks: seq<Task>, prev: nat, off: nat)
    requires prev < |tasks| && 1 <= off
    requires forall h :: Runnable(tasks, h) && h != prev ==> off <= Dist(prev, h, |tasks|)
    ensures Next(tasks, prev, Scan(tasks, prev, off))
    decreases |tasks| - off
  {
    if off < |tasks| {
      OffsetIs(prev, off, |tasks|);
      var cand := (prev + off) % |tasks|;
      if cand != 0 && tasks[cand].active {
        assert Runnable(tasks, cand);
      } else {
        ScanFrom(tasks, prev, off + 1);
      }
    }
  }

  /** A turn of a safe_worker keeps the invariant and comes closer to the end. */
  lemma SafeStepKeeps(s: Snapshot, h: nat, K: nat) returns (h': nat)
    requires Safe(s, h, K) && s.current != 0
    ensures Safe(SafeStep(s, K), h', K) && |SafeStep(s, K).tasks| == |s.tasks| && Closer(s, h, SafeStep(s, K), h')
  {
    hide Sum, Scan, ActiveCount, Dist;
    var c, was, s' := s.current, s.tasks[s.current], SafeStep(s, K);
    var me := s'.tasks[c];
    h' := if me.point.Middle? then c else if was.point.Middle? then 0 else h;
    SumAfter(s.tasks, c, me);
    ActiveAfter(s.tasks, c, me);
    RestKeeps(s.(counter := s'.counter, locked := s'.locked), me, h', K);
    if h' != 0 && h' != c {
      ScanIsNext(s'.tasks, c);
      NearerTo(s'.tasks, c, s'.current, h');
    }
  }

  lemma GoalIs(s: Snapshot, h: nat, K: nat)
    requires Safe(s, h, K)
    ensures Sum(s.tasks) <= Goal(|s.tasks| - 1, K)
    ensures s.current == 0 ==> s.locked == 0 && s.counter == Goal(|s.tasks| - 1, K)
  {
    SumIsAtMost(s.tasks, K);
    assert forall j :: 0 < j < |s.tasks| ==> (!Runnable(s.tasks, j) <==> !s.tasks[j].active);
    assert h != 0 ==> (Runnable(s.tasks, h) <==> s.tasks[h].active);
  }

  lemma SafeAtStart(n: nat, K: nat)
    ensures Safe(After(n, K, true, 0), 0, K)
  {
    var s := Begin(n);
    ScanIsNext(s.tasks, 0);
    NextRuns(s.tasks, 0, Scan(s.tasks, 0, 1));
    FreshSum(s.tasks);
  }

  /** With the mutex, n workers of K iterations finish, back in task 0, with the total n * K. */
  method RunLocked(n: nat, K: nat) returns (turns: nat)
    ensures var s := After(n, K, true, turns); s.current == 0 && s.locked == 0 && s.counter == n * K
  {
    hide After, SafeStep, Scan, Sum, ActiveCount, Next, Goal, Dist;
    var s := new Scheduler(n);
    s.Yield();
    turns := 0;
    AfterYield(n, K, true);
    SafeAtStart(n, K);
    ghost var h := 0;
    GoalIs(s.Now(), h, K);
    while s.current != 0
      invariant s.Ready() && Safe(s.Now(), h, K) && |s.tasks| == n + 1 && fresh(s)
      invariant Sum(s.tasks) <= Goal(n, K) && s.Now() == After(n, K, true, turns)
      decreases Goal(n, K) - Sum(s.tasks), ActiveCount(s.tasks), if h == 0 then 1 else 0, Dist(s.current, h, |s.tasks|)
    {
      AfterTurn(n, K, true, turns);
      ghost var h' := SafeStepKeeps(s.Now(), h, K);
      s.SafeTurn(K);
      h := h';
      turns := turns + 1;
      GoalIs(s.Now(), h, K);
    }
    GoalIs(s.Now(), h, K);
    GoalProduct(n, K);
  }

  lemma GoalProduct(n: nat, K: nat)
    ensures Goal(n, K) == n * K
  {
  }

  lemma AfterYield(n: nat, K: nat, safe: bool)
    ensures After(n, K, safe, 0) == Begin(n).(current := Scan(Begin(n).tasks, 0, 1))
  {
  }

  lemma AfterTurn(n: nat, K: nat, safe: bool, turns: nat)
    requires After(n, K, safe, turns).current != 0
    ensures After(n, K, safe, turns + 1) == if safe then SafeStep(After(n, K, safe, turns), K) else RaceStep(After(n, K, safe, turns), K)
  {
  }

  lemma {:induction false} FreshSum(tasks: seq<Task>)
    requires forall j :: 0 <= j < |tasks| ==> tasks[j].done == 0
    ensures Sum(tasks) == 0
  {
    if tasks != [] {
      FreshSum(tasks[..|tasks| - 1]);
    }
  }

  // ---- workers without it ------------------------------------------------------------

  function RacedIn(r: nat, K: nat): Task {
    if r < K then Task(true, Middle(r), r) else Task(false, Fresh, K)
  }

  function RacedBefore(r: nat): Task {
    if r == 0 then Task(true, Fresh, 0) else Task(true, Middle(r - 1), r - 1)
  }

  /** Round r: those before the current task have had their turn in it, all with the same copy. */
  ghost predicate Racing(s: Snapshot, r: nat, K: nat) {
    && s.current < |s.tasks| && |s.tasks| > 1 && !s.tasks[0].active && r <= K
    && (s.current == 0 ==> s.counter == K)
    && (s.current != 0 ==>
          && (forall j :: 0 < j < s.current ==> s.tasks[j] == RacedIn(r, K))
          && (forall j :: s.current <= j < |s.tasks| ==> s.tasks[j] == RacedBefore(r))
          && s.counter == if s.current > 1 || r == 0 then r else r - 1)
  }

  lemma RaceStepKeeps(s: Snapshot, r: nat, K: nat) returns (r': nat)
    requires Racing(s, r, K) && s.current != 0
    ensures Racing(RaceStep(s, K), r', K) && |RaceStep(s, K).tasks| == |s.tasks|
    ensures if s.current < |s.tasks| - 1 then r' == r && RaceStep(s, K).current == s.current + 1
            else if r < K then r' == r + 1 && RaceStep(s, K).current == 1
            else r' == r && RaceStep(s, K).current == 0
  {
    hide Scan;
    var c, s' := s.current, RaceStep(s, K);
    assert s'.tasks[c] == RacedIn(r, K) && s'.counter == r;
    ScanIsNext(s'.tasks, c);
    r' := r;
    if c < |s.tasks| - 1 {
      assert Runnable(s'.tasks, c + 1);
    } else if r < K {
      assert Runnable(s'.tasks, 1);
      r' := r + 1;
    }
  }

  lemma RacingAtStart(n: nat, K: nat)
    requires n >= 1
    ensures Racing(After(n, K, false, 0), 0, K) && After(n, K, false, 0).current == 1
  {
    var s := Begin(n);
    assert Runnable(s.tasks, 1);
    ScanIsNext(s.tasks, 0);
  }

  lemma OneMoreRound(n: nat, r: nat)
    ensures n * (r + 1) == n * r + n
  {
  }

  /** Without it they finish too, after K + 1 turns each, with the total K however many they are. */
  method RunRacing(n: nat, K: nat) returns (turns: nat)
    requires n >= 1
    ensures var s := After(n, K, false, turns); s.current == 0 && s.counter == K
    ensures turns == n * (K + 1)
  {
    hide After, RaceStep, Scan, Next;
    var s := new Scheduler(n);
    s.Yield();
    turns := 0;
    AfterYield(n, K, false);
    RacingAtStart(n, K);
    ghost var r := 0;
    while s.current != 0
      invariant s.Ready() && Racing(s.Now(), r, K) && |s.tasks| == n + 1 && fresh(s)
      invariant s.Now() == After(n, K, false, turns)
      invariant turns == if s.current == 0 then n * (K + 1) else n * r + s.current - 1
      decreases if s.current == 0 then 0 else 1, K - r, n - s.current
    {
      AfterTurn(n, K, false, turns);
      ghost var r' := RaceStepKeeps(s.Now(), r, K);
      OneMoreRound(n, r);
      s.RaceTurn(K);
      r := r';
      turns := turns + 1;
    }
  }
}
