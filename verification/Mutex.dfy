/**
 Threads that add to a shared counter under a mutex, preempted anywhere: every atomic step of
 every thread may be followed by a step of any other.
 */
module Mutex {
  /** Try: before the exchange; Load, Store, Unlock: the three steps inside the lock. */
  datatype Pc = Try | Load | Store | Unlock | Done

  /** t: the local copy of the counter; done: the loop index. */
  datatype Thread = Thread(pc: Pc, t: int, done: nat)

  datatype State = State(locked: int, counter: int, threads: seq<Thread>)

  function Begin(done: nat, K: nat): Pc {
    if done < K then Try else Done
  }

  function Start(n: nat, K: nat): State {
    State(0, 0, seq(n, i => Thread(Begin(0, K), 0, 0)))
  }

  /** One atomic step of thread j; a finished thread does nothing. */
  function Step(s: State, j: nat, K: nat): State
    requires j < |s.threads|
  {
    var th := s.threads[j];
    match th.pc
    case Try =>
      var seen := s.locked;
      s.(locked := 1, threads := if seen != 0 then s.threads else s.threads[j := th.(pc := Load)])
    case Load => s.(threads := s.threads[j := th.(pc := Store, t := s.counter)])
    case Store => s.(counter := th.t + 1, threads := s.threads[j := th.(pc := Unlock)])
    case Unlock => s.(locked := 0, threads := s.threads[j := th.(pc := Begin(th.done + 1, K), done := th.done + 1)])
    case Done => s
  }

  /** A schedule names who runs next; indices wrap so that every sequence of numbers is a schedule. */
  function Run(s: State, schedule: seq<nat>, K: nat): (r: State)
    requires |s.threads| > 0
    ensures |r.threads| == |s.threads|
  {
    if schedule == [] then s else
      var r := Run(s, schedule[..|schedule| - 1], K);
      Step(r, schedule[|schedule| - 1] % |r.threads|, K)
  }

  predicate Inside(th: Thread) {
    th.pc.Load? || th.pc.Store? || th.pc.Unlock?
  }

  /** Updates this thread has completed. */
  function Updates(th: Thread): nat {
    th.done + if th.pc.Unlock? then 1 else 0
  }

  function TotalUpdates(ths: seq<Thread>): nat {
    if ths == [] then 0 else TotalUpdates(ths[..|ths| - 1]) + Updates(ths[|ths| - 1])
  }

  predicate Exclusive(s: State) {
    forall i, j :: 0 <= i < j < |s.threads| ==> !(Inside(s.threads[i]) && Inside(s.threads[j]))
  }

  predicate Inv(s: State, K: nat) {
    && Exclusive(s)
    && s.locked == (if exists i :: 0 <= i < |s.threads| && Inside(s.threads[i]) then 1 else 0)
    && s.counter == TotalUpdates(s.threads)
    && (forall i :: 0 <= i < |s.threads| && s.threads[i].pc.Store? ==> s.threads[i].t == s.counter)
    && (forall i :: 0 <= i < |s.threads| ==> s.threads[i].done <= K && (s.threads[i].pc.Done? <==> s.threads[i].done == K))
  }

  lemma {:induction false} TotalAfter(ths: seq<Thread>, j: nat, th: Thread)
    requires j < |ths|
    ensures TotalUpdates(ths[j := th]) == TotalUpdates(ths) + Updates(th) - Updates(ths[j])
  {
    var k := |ths| - 1;
    if j == k {
      assert ths[j := th][..k] == ths[..k];
    } else {
      TotalAfter(ths[..k], j, th);
      assert ths[j := th][..k] == ths[..k][j := th];
    }
  }

  lemma {:induction false} TotalAtStart(n: nat, K: nat)
    ensures TotalUpdates(Start(n, K).threads) == 0
  {
    if n > 0 {
      TotalAtStart(n - 1, K);
      assert Start(n, K).threads[..n - 1] == Start(n - 1, K).threads;
    }
  }

  lemma {:induction false} TotalAtEnd(ths: seq<Thread>, K: nat)
    requires forall i :: 0 <= i < |ths| ==> ths[i].pc.Done? && ths[i].done == K
    ensures TotalUpdates(ths) == |ths| * K
  {
    if ths != [] {
      TotalAtEnd(ths[..|ths| - 1], K);
      assert |ths| * K == (|ths| - 1) * K + K;
    }
  }

  lemma StepKeeps(s: State, j: nat, K: nat)
    requires Inv(s, K) && j < |s.threads|
    ensures Inv(Step(s, j, K), K)
  {
    var th, s' := s.threads[j], Step(s, j, K);
    TotalAfter(s.threads, j, s'.threads[j]);
    assert s.threads[j := s'.threads[j]] == s'.threads;
    assert Inside(s'.threads[j]) || !Inside(s'.threads[j]);
    if th.pc.Try? && s.locked == 0 {
      assert forall i :: 0 <= i < |s.threads| ==> !Inside(s.threads[i]);
    } else if !th.pc.Try? && !th.pc.Done? {
      assert Inside(s.threads[j]);
    }
  }

  /** The invariant holds after every schedule. */
  lemma {:induction false} RunKeeps(n: nat, K: nat, schedule: seq<nat>)
    requires n > 0
    ensures Inv(Run(Start(n, K), schedule, K), K)
  {
    if schedule == [] {
      TotalAtStart(n, K);
    } else {
      RunKeeps(n, K, schedule[..|schedule| - 1]);
      var r := Run(Start(n, K), schedule[..|schedule| - 1], K);
      StepKeeps(r, schedule[|schedule| - 1] % |r.threads|, K);
    }
  }

  /**
   Under every preemptive interleaving at most one thread is between lock and unlock, no update is
   lost, and the total is n * K when all have exited.
   */
  lemma LockedCounter(n: nat, K: nat, schedule: seq<nat>)
    requires n > 0
    ensures var s := Run(Start(n, K), schedule, K);
            && Exclusive(s) && s.counter == TotalUpdates(s.threads)
            && ((forall i :: 0 <= i < n ==> s.threads[i].pc.Done?) ==> s.counter == n * K && s.locked == 0)
  {
    RunKeeps(n, K, schedule);
    var s := Run(Start(n, K), schedule, K);
    if forall i :: 0 <= i < n ==> s.threads[i].pc.Done? {
      TotalAtEnd(s.threads, K);
    }
  }

  // ---- progress --------------------------------------------------------------------

  /** Steps a thread has still to take, spinning aside. */
  function Ahead(th: Thread, K: nat): int {
    4 * (K - th.done) - match th.pc { case Load => 1 case Store => 2 case Unlock => 3 case _ => 0 }
  }

  function TotalAhead(ths: seq<Thread>, K: nat): int {
    if ths == [] then 0 else TotalAhead(ths[..|ths| - 1], K) + Ahead(ths[|ths| - 1], K)
  }

  lemma {:induction false} AheadAfter(ths: seq<Thread>, j: nat, th: Thread, K: nat)
    requires j < |ths|
    ensures TotalAhead(ths[j := th], K) == TotalAhead(ths, K) + Ahead(th, K) - Ahead(ths[j], K)
  {
    var k := |ths| - 1;
    if j == k {
      assert ths[j := th][..k] == ths[..k];
    } else {
      AheadAfter(ths[..k], j, th, K);
      assert ths[j := th][..k] == ths[..k][j := th];
    }
  }

  /** A step either changes nothing or is one of the remaining ones. */
  lemma StepCounts(s: State, j: nat, K: nat)
    requires Inv(s, K) && j < |s.threads|
    ensures Step(s, j, K) == s || TotalAhead(Step(s, j, K).threads, K) == TotalAhead(s.threads, K) - 1
  {
    var s' := Step(s, j, K);
    AheadAfter(s.threads, j, s'.threads[j], K);
    assert s.threads[j := s'.threads[j]] == s'.threads;
  }

  /** No deadlock: until all have exited, some thread's next step is not a wait. */
  lemma SomeoneMoves(s: State, K: nat) returns (j: nat)
    requires Inv(s, K) && exists i :: 0 <= i < |s.threads| && !s.threads[i].pc.Done?
    ensures j < |s.threads| && Step(s, j, K) != s
  {
    if i :| 0 <= i < |s.threads| && Inside(s.threads[i]) {
      j := i;
      assert Step(s, j, K).threads[j] != s.threads[j];
    } else {
      j :| 0 <= j < |s.threads| && !s.threads[j].pc.Done?;
      assert Step(s, j, K).locked != s.locked;
    }
  }

  /** The number of steps of a schedule that were not waits. */
  function Moves(s: State, schedule: seq<nat>, K: nat): nat
    requires |s.threads| > 0
  {
    if schedule == [] then 0 else
      var p := schedule[..|schedule| - 1];
      Moves(s, p, K) + if Run(s, schedule, K) == Run(s, p, K) then 0 else 1
  }

  lemma {:induction false} AheadAtStart(n: nat, K: nat)
    ensures TotalAhead(Start(n, K).threads, K) == 4 * n * K
  {
    if n > 0 {
      AheadAtStart(n - 1, K);
      assert Start(n, K).threads[..n - 1] == Start(n - 1, K).threads;
      assert 4 * n * K == 4 * (n - 1) * K + 4 * K;
    }
  }

  lemma {:induction false} AheadIsLeft(ths: seq<Thread>, K: nat)
    requires forall i :: 0 <= i < |ths| ==> ths[i].done <= K && (ths[i].pc.Done? <==> ths[i].done == K)
    ensures TotalAhead(ths, K) >= 0
    ensures TotalAhead(ths, K) == 0 <==> forall i :: 0 <= i < |ths| ==> ths[i].pc.Done?
  {
    if ths != [] {
      AheadIsLeft(ths[..|ths| - 1], K);
    }
  }

  /** Every schedule makes at most 4nK moves, and exactly that many when, and only when, all threads have exited. */
  lemma MovesAreBounded(n: nat, K: nat, schedule: seq<nat>)
    requires n > 0
    ensures var s := Run(Start(n, K), schedule, K); var m := Moves(Start(n, K), schedule, K);
            m <= 4 * n * K && (m == 4 * n * K <==> forall i :: 0 <= i < n ==> s.threads[i].pc.Done?)
  {
    MovesAndAhead(n, K, schedule);
    RunKeeps(n, K, schedule);
    AheadIsLeft(Run(Start(n, K), schedule, K).threads, K);
  }

  lemma {:induction false} MovesAndAhead(n: nat, K: nat, schedule: seq<nat>)
    requires n > 0
    ensures Moves(Start(n, K), schedule, K) + TotalAhead(Run(Start(n, K), schedule, K).threads, K) == 4 * n * K
  {
    if schedule == [] {
      AheadAtStart(n, K);
    } else {
      var p := schedule[..|schedule| - 1];
      MovesAndAhead(n, K, p);
      RunKeeps(n, K, p);
      var r := Run(Start(n, K), p, K);
      StepCounts(r, schedule[|schedule| - 1] % |r.threads|, K);
    }
  }
}
