/**
 The physical frame allocator (kernel/pmm.c): one in-use flag and one reference
 count per managed frame. Physical addresses are page aligned throughout, so a
 frame is named by its number, address / 4096; number 0 is the "no frame" result.
 */
module Pmm {
  /** MANAGED_BASE / PAGE_SIZE: the first frame the allocator may hand out. */
  const BASE := 1024
  const MAX_FRAMES := 32768
  const MAX_REFS := 255

  datatype Frames = Frames(total: nat, bits: seq<bool>, rc: seq<nat>, used: int, hint: nat)

  predicate Managed(s: Frames, f: nat) {
    BASE <= f < BASE + s.total
  }

  function CountTrue(bits: seq<bool>): nat {
    if bits == [] then 0 else CountTrue(bits[..|bits| - 1]) + if bits[|bits| - 1] then 1 else 0
  }

  /** What every call keeps; the clause on `hint` is why the second scan of Alloc never finds a frame. */
  ghost predicate Ok(s: Frames) {
    && |s.bits| == |s.rc| == s.total <= MAX_FRAMES
    && s.used == CountTrue(s.bits)
    && s.hint <= s.total
    && (forall i :: 0 <= i < s.hint ==> s.bits[i])
    && (forall i :: 0 <= i < s.total ==> (s.bits[i] <==> 0 < s.rc[i] <= MAX_REFS))
    && (forall i :: 0 <= i < s.total ==> (!s.bits[i] <==> s.rc[i] == 0))
  }

  /** Frame `f` goes from free to one owner. */
  function Take(s: Frames, f: nat): Frames
    requires Managed(s, f) && |s.bits| == |s.rc| == s.total
  {
    var i := f - BASE;
    s.(bits := s.bits[i := true], rc := s.rc[i := 1], used := s.used + 1, hint := i + 1)
  }

  /** One owner of `f` lets go; the last one returns the frame to the pool. */
  function Release(s: Frames, f: nat): Frames
    requires Ok(s)
  {
    var i := f - BASE;
    if !Managed(s, f) || !s.bits[i] then s
    else if s.rc[i] > 1 then s.(rc := s.rc[i := s.rc[i] - 1])
    else s.(bits := s.bits[i := false], rc := s.rc[i := 0], used := s.used - 1, hint := if i < s.hint then i else s.hint)
  }

  function Share(s: Frames, f: nat): Frames
    requires Ok(s)
  {
    var i := f - BASE;
    if Managed(s, f) && s.bits[i] && s.rc[i] < MAX_REFS then s.(rc := s.rc[i := s.rc[i] + 1]) else s
  }

  function Refcount(s: Frames, f: nat): nat
    requires Ok(s)
  {
    if Managed(s, f) then s.rc[f - BASE] else 0
  }

  /** The frame Alloc hands out next. */
  ghost predicate Lowest(s: Frames, f: nat)
    requires |s.bits| == s.total
  {
    Managed(s, f) && !s.bits[f - BASE] && forall j :: 0 <= j < f - BASE ==> s.bits[j]
  }

  /** The frame Alloc hands out after `e`. */
  ghost predicate Second(s: Frames, e: nat, f: nat)
    requires |s.bits| == s.total
  {
    Lowest(s, e) && Managed(s, f) && e < f && !s.bits[f - BASE] && forall j :: 0 <= j < f - BASE && j != e - BASE ==> s.bits[j]
  }

  lemma LowestAfter(s: Frames, e: nat, f: nat)
    requires |s.bits| == |s.rc| == s.total && Lowest(s, e) && Lowest(Take(s, e), f)
    ensures Second(s, e, f)
  {
    assert forall j :: 0 <= j < s.total ==> Take(s, e).bits[j] == (s.bits[j] || j == e - BASE);
  }

  lemma {:induction false} UpdateCounts(bits: seq<bool>, i: nat, b: bool)
    requires i < |bits|
    ensures CountTrue(bits[i := b]) + (if bits[i] then 1 else 0) == CountTrue(bits) + (if b then 1 else 0)
  {
    var n := |bits| - 1;
    if i == n {
      assert bits[i := b][..n] == bits[..n];
    } else {
      UpdateCounts(bits[..n], i, b);
      assert bits[i := b][..n] == bits[..n][i := b];
    }
  }

  lemma {:induction false} NoneSetCountsZero(bits: seq<bool>)
    requires forall i :: 0 <= i < |bits| ==> !bits[i]
    ensures CountTrue(bits) == 0
  {
    if bits != [] {
      NoneSetCountsZero(bits[..|bits| - 1]);
    }
  }

  lemma {:induction false} AllSetCountsAll(bits: seq<bool>)
    ensures CountTrue(bits) <= |bits|
    ensures CountTrue(bits) == |bits| <==> forall i :: 0 <= i < |bits| ==> bits[i]
  {
    if bits != [] {
      AllSetCountsAll(bits[..|bits| - 1]);
    }
  }

  lemma TakeKeepsOk(s: Frames, f: nat)
    requires Ok(s) && Managed(s, f) && !s.bits[f - BASE]
    requires forall j :: 0 <= j < f - BASE ==> s.bits[j]
    ensures Ok(Take(s, f))
  {
    UpdateCounts(s.bits, f - BASE, true);
  }

  lemma ReleaseKeepsOk(s: Frames, f: nat)
    requires Ok(s)
    ensures Ok(Release(s, f))
  {
    if Managed(s, f) && s.bits[f - BASE] && s.rc[f - BASE] <= 1 {
      UpdateCounts(s.bits, f - BASE, false);
    }
  }

  lemma ShareKeepsOk(s: Frames, f: nat)
    requires Ok(s)
    ensures Ok(Share(s, f))
  {
  }

  class FrameAllocator {
    const bitmap: array<bool>
    const refcount: array<nat>
    var total: nat
    var used: int
    var hint: nat
    /** How many calls of Alloc have found no frame. */
    ghost var denied: nat

    ghost function State(): (s: Frames)
      reads this, bitmap, refcount
      requires total <= bitmap.Length && total <= refcount.Length
    {
      Frames(total, bitmap[..total], refcount[..total], used, hint)
    }

    ghost predicate Valid()
      reads this, bitmap, refcount
    {
      bitmap.Length == refcount.Length == MAX_FRAMES && total <= MAX_FRAMES && Ok(State())
    }

    /** pmm_install over `memBytes` bytes of RAM: everything above 4 MB is managed and free. */
    constructor (memBytes: nat)
      ensures Valid() && fresh(bitmap) && fresh(refcount)
      ensures State().used == 0 && forall i :: 0 <= i < total ==> !bitmap[i]
      ensures total == if memBytes <= BASE * 4096 then 0
                       else if memBytes / 4096 - BASE > MAX_FRAMES then MAX_FRAMES else memBytes / 4096 - BASE
    {
      bitmap := new bool[MAX_FRAMES](i => false);
      refcount := new nat[MAX_FRAMES](i => 0);
      used, hint, denied := 0, 0, 0;
      if memBytes <= BASE * 4096 {
        total := 0;
      } else {
        var frames := (memBytes - BASE * 4096) / 4096;
        total := if frames > MAX_FRAMES then MAX_FRAMES else frames;
      }
      new;
      NoneSetCountsZero(bitmap[..total]);
    }

    /** The lowest free frame, or 0 exactly when every frame is in use. */
    method Alloc() returns (f: nat)
      requires Valid()
      modifies this, bitmap, refcount
      ensures Valid() && total == old(total)
      ensures f == 0 <==> forall i :: 0 <= i < total ==> old(State()).bits[i]
      ensures f == 0 ==> State() == old(State())
      ensures f != 0 ==> Managed(old(State()), f) && !old(State()).bits[f - BASE]
      ensures f != 0 ==> forall j :: 0 <= j < f - BASE ==> old(State()).bits[j]
      ensures f != 0 ==> State() == Take(old(State()), f)
      ensures denied == old(denied) + if f == 0 then 1 else 0
    {
      hide CountTrue;
      if total == 0 {
        denied := denied + 1;
        return 0;
      }
      var pass := 0;
      while pass < 2
        invariant 0 <= pass <= 2
        invariant Valid() && State() == old(State()) && denied == old(denied)
        invariant pass > 0 ==> forall j :: hint <= j < total ==> bitmap[j]
      {
        var i := if pass == 0 then hint else 0;
        var end := if pass == 0 then total else hint;
        while i < end
          invariant (if pass == 0 then hint else 0) <= i <= end
          invariant Valid() && State() == old(State()) && denied == old(denied)
          invariant forall j :: (if pass == 0 then hint else 0) <= j < i ==> bitmap[j]
        {
          if !bitmap[i] {
            TakeKeepsOk(State(), BASE + i);
            bitmap[i] := true;
            refcount[i] := 1;
            used := used + 1;
            hint := i + 1;
            assert State() == Take(old(State()), BASE + i);
            return BASE + i;
          }
          i := i + 1;
        }
        pass := pass + 1;
      }
      denied := denied + 1;
      return 0;
    }

    method Free(f: nat)
      requires Valid()
      modifies this, bitmap, refcount
      ensures Valid() && State() == Release(old(State()), f) && denied == old(denied)
    {
      hide Ok;
      ReleaseKeepsOk(State(), f);
      if f < BASE {
        return;
      }
      var i := f - BASE;
      if i >= total || !bitmap[i] {
        return;
      }
      if refcount[i] > 1 {
        refcount[i] := refcount[i] - 1;
        assert State() == Release(old(State()), f);
        return;
      }
      refcount[i] := 0;
      bitmap[i] := false;
      used := used - 1;
      if i < hint {
        hint := i;
      }
      assert State() == Release(old(State()), f);
    }

    method Incref(f: nat)
      requires Valid()
      modifies refcount
      ensures Valid() && State() == Share(old(State()), f)
    {
      if f < BASE {
        return;
      }
      var i := f - BASE;
      if i < total && bitmap[i] && refcount[i] < MAX_REFS {
        refcount[i] := refcount[i] + 1;
      }
      assert State() == Share(old(State()), f);
    }

    method GetRefcount(f: nat) returns (n: nat)
      requires Valid()
      ensures n == Refcount(State(), f)
    {
      if f < BASE {
        return 0;
      }
      var i := f - BASE;
      return if i < total then refcount[i] else 0;
    }
  }
}
