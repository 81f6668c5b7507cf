/** argc and argv built on the user stack, and read back as a cdecl function would. */
module Args {
  import opened Bytes

  const ARG_MAX := 8
  const ARG_BYTES := 256
  const SPACE := 32

  // ---- words of a line ------------------------------------------------------------------

  /** The characters before the first space. */
  function Token(s: Str): (t: Str)
    ensures |t| <= |s| && t == s[..|t|] && SPACE !in t
    ensures |t| < |s| ==> s[|t|] == SPACE
    ensures s != [] && s[0] != SPACE ==> t != []
  {
    if s == [] || s[0] == SPACE then [] else
      assert 0 !in s[1..];
      var t := Token(s[1..]);
      assert [s[0]] + t == s[..|t| + 1];
      [s[0]] + t
  }

  function Tail(s: Str, n: nat): Str
    requires n <= |s|
  {
    assert forall x :: x in s[n..] ==> x in s;
    s[n..]
  }

  /** The space-separated words. */
  function Split(s: Str): (ws: seq<Str>)
    ensures forall w :: w in ws ==> w != [] && SPACE !in w
    decreases |s|
  {
    if s == [] then [] else if s[0] == SPACE then Split(Tail(s, 1)) else
      var t := Token(s);
      [t] + Split(Tail(s, |t|))
  }

  /** Words joined by single spaces. */
  function Join(ws: seq<Str>): Str
  {
    if ws == [] then [] else
      assert 0 !in [SPACE];
      ws[0] + [SPACE] + Join(ws[1..])
  }

  lemma SplitSpace(s: Str)
    requires s != [] && s[0] == SPACE
    ensures Split(s) == Split(Tail(s, 1))
  {
  }

  lemma SplitWord(s: Str, t: Str)
    requires t != [] && |t| <= |s| && Token(s) == t
    ensures Split(s) == [t] + Split(Tail(s, |t|))
  {
  }

  lemma TailOfBoth(a: Str, b: Str, n: nat)
    requires 0 !in a + [SPACE] + b && n <= |a|
    ensures 0 !in Tail(a, n) + [SPACE] + b && Tail(a + [SPACE] + b, n) == Tail(a, n) + [SPACE] + b
  {
  }

  lemma TokenOfBoth(a: Str, b: Str)
    requires 0 !in a + [SPACE] + b
    ensures Token(a + [SPACE] + b) == Token(a)
  {
    var s: Str := a + [SPACE] + b;
    var t := Token(a);
    assert s[..|t|] == t && s[|t|] == SPACE;
    TokenIs(s, t);
  }

  /** A space separates: splitting the two sides apart gives the same words. */
  lemma {:induction false} SplitAtSpace(a: Str, b: Str)
    requires 0 !in a + [SPACE] + b
    ensures Split(a + [SPACE] + b) == Split(a) + Split(b)
    decreases |a|
  {
    hide Split, Token, Tail;
    var s: Str := a + [SPACE] + b;
    if a == [] {
      SplitSpace(s);
      TailOfNone(b);
    } else if a[0] == SPACE {
      SplitSpace(s);
      SplitSpace(a);
      TailOfBoth(a, b, 1);
      TailShorter(a, 1);
      SplitAtSpace(Tail(a, 1), b);
    } else {
      var t := Token(a);
      TokenOfBoth(a, b);
      SplitWord(s, t);
      SplitWord(a, t);
      TailOfBoth(a, b, |t|);
      TailShorter(a, |t|);
      SplitAtSpace(Tail(a, |t|), b);
    }
  }

  lemma TailShorter(s: Str, n: nat)
    requires n <= |s|
    ensures |Tail(s, n)| == |s| - n
  {
  }

  lemma TailOfNone(b: Str)
    requires 0 !in [] + [SPACE] + b
    ensures Tail([] + [SPACE] + b, 1) == b && Split([]) == []
  {
    assert ([] + [SPACE] + b)[1..] == b;
  }

  /** Splitting undoes joining. */
  lemma {:induction false} JoinThenSplit(ws: seq<Str>)
    requires forall w :: w in ws ==> w != [] && SPACE !in w
    ensures Split(Join(ws)) == ws
  {
    if ws != [] {
      assert forall w :: w in ws[1..] ==> w in ws;
      JoinThenSplit(ws[1..]);
      SplitAtSpace(ws[0], Join(ws[1..]));
      WordIsToken(ws[0]);
      assert Split(ws[0]) == [ws[0]] + Split(Tail(ws[0], |ws[0]|));
    }
  }

  lemma {:induction false} WordIsToken(w: Str)
    requires SPACE !in w
    ensures Token(w) == w
  {
    if w != [] {
      WordIsToken(Tail(w, 1));
    }
  }

  lemma {:induction false} TokenIs(s: Str, w: Str)
    requires |w| < |s| && s[..|w|] == w && s[|w|] == SPACE && SPACE !in w
    ensures Token(s) == w
  {
    if w != [] {
      assert s[0] == w[0] && Tail(s, 1)[..|w| - 1] == Tail(w, 1);
      TokenIs(Tail(s, 1), Tail(w, 1));
      assert w == [w[0]] + Tail(w, 1);
    }
  }

  // ---- the block on the stack --------------------------------------------------------------

  /** Where word i starts in the text: every word takes its length and a NUL. */
  function Offset(ws: seq<Str>, i: nat): nat
    requires i <= |ws|
  {
    if i == 0 then 0 else Offset(ws, i - 1) + |ws[i - 1]| + 1
  }

  lemma {:induction false} OffsetGrows(ws: seq<Str>, i: nat, j: nat)
    requires i < j <= |ws|
    ensures Offset(ws, i) + |ws[i]| + 1 <= Offset(ws, j)
  {
    if i < j - 1 {
      OffsetGrows(ws, i, j - 1);
    }
  }

  predicate Text(mem: Memory, a: int, w: Str) {
    0 <= a && a + |w| < WORD_LIMIT && (forall k :: 0 <= k < |w| ==> mem[a + k] == w[k]) && mem[a + |w|] == 0
  }

  predicate WordAt(mem: Memory, a: int, n: Word32) {
    0 <= a <= WORD_LIMIT - 4 && mem[a..a + 4] == Le(n)
  }

  /** Outside [lo, hi) memory is as it was. */
  ghost predicate Kept(mem: Memory, mem': Memory, lo: int, hi: int) {
    forall a {:trigger mem'[a]} :: 0 <= a < WORD_LIMIT && !(lo <= a < hi) ==> mem'[a] == mem[a]
  }

  function Put(mem: Memory, a: nat, n: Word32): (m: Memory)
    requires a + 4 <= WORD_LIMIT
    ensures WordAt(m, a, n) && Kept(mem, m, a, a + 4)
  {
    var b := Le(n);
    var m: Memory := mem[a := b[0]][a + 1 := b[1]][a + 2 := b[2]][a + 3 := b[3]];
    assert m[a..a + 4] == b;
    m
  }

  // What a function entered with this stack pointer finds, by the cdecl convention.

  function Get(mem: Memory, a: int): Word32
    requires 0 <= a <= WORD_LIMIT - 4
  {
    FromLe(mem[a..a + 4])
  }

  /** The stack pointer shows this argument list: argc, argv, the words, and a NULL after them. */
  ghost predicate Shows(mem: Memory, sp: int, ws: seq<Str>) {
    && 0 <= sp && sp + 12 <= WORD_LIMIT
    && Get(mem, sp + 4) == |ws|
    && var argv: int := Get(mem, sp + 8);
    && argv + 4 * |ws| + 4 <= WORD_LIMIT
    && (forall i :: 0 <= i < |ws| ==> CStr(mem[Get(mem, argv + 4 * i)..]) == ws[i])
    && Get(mem, argv + 4 * |ws|) == 0
  }

  function FirstWords(line: Str): (ws: seq<Str>)
    ensures |ws| <= ARG_MAX && ws <= Split(line) && |ws| == if |Split(line)| <= 8 then |Split(line)| else 8
  {
    var all := Split(line);
    if |all| <= ARG_MAX then all else all[..ARG_MAX]
  }

  lemma TailNext(line: Str, p: nat)
    requires p < |line|
    ensures Tail(line, p)[0] == line[p] && Tail(Tail(line, p), 1) == Tail(line, p + 1)
  {
  }

  /** The word found by scanning from `start` to a space or the end. */
  lemma ScannedWord(line: Str, start: nat, p: nat, w: Str)
    requires start < p <= |line| && w == line[start..p] && SPACE !in w && (p < |line| ==> line[p] == SPACE)
    ensures Split(Tail(line, start)) == [w] + Split(Tail(line, p))
  {
    var s := Tail(line, start);
    assert s[..|w|] == w && s[0] == w[0];
    if p < |line| {
      TokenIs(s, w);
    } else {
      assert s == w;
      WordIsToken(w);
    }
    assert Tail(s, |w|) == Tail(line, p);
  }

  /** The splitting loop of args_build. */
  method SplitLine(line: Str) returns (ws: seq<Str>, total: nat)
    ensures ws == FirstWords(line) && total == Offset(ws, |ws|)
  {
    hide Token, Split, Tail;
    ws, total := [], 0;
    var p := 0;
    TailAll(line);
    while p < |line| && |ws| < ARG_MAX
      invariant 0 <= p <= |line| && |ws| <= ARG_MAX && total == Offset(ws, |ws|)
      invariant Split(line) == ws + Split(Tail(line, p))
    {
      p := SkipSpaces(line, p);
      if p == |line| {
        break;
      }
      var start := p;
      while p < |line| && line[p] != SPACE
        invariant start <= p <= |line| && SPACE !in line[start..p]
        invariant p == start ==> line[p] != SPACE
      {
        p := p + 1;
      }
      assert forall x :: x in line[start..p] ==> x in line;
      var w: Str := line[start..p];
      ScannedWord(line, start, p, w);
      OffsetNext(ws, w);
      total := total + |w| + 1;
      ws := ws + [w];
    }
    if p == |line| {
      TailNone(line);
    }
  }

  method SkipSpaces(line: Str, from: nat) returns (p: nat)
    requires from <= |line|
    ensures from <= p <= |line| && (p < |line| ==> line[p] != SPACE)
    ensures Split(Tail(line, p)) == Split(Tail(line, from))
  {
    p := from;
    while p < |line| && line[p] == SPACE
      invariant from <= p <= |line| && Split(Tail(line, p)) == Split(Tail(line, from))
    {
      TailNext(line, p);
      p := p + 1;
    }
  }

  lemma TailAll(line: Str)
    ensures Tail(line, 0) == line
  {
  }

  lemma TailNone(line: Str)
    ensures Split(Tail(line, |line|)) == []
  {
  }

  lemma OffsetNext(ws: seq<Str>, w: Str)
    ensures Offset(ws + [w], |ws| + 1) == Offset(ws, |ws|) + |w| + 1
  {
    OffsetSame(ws, w, |ws|);
  }

  lemma {:induction false} OffsetSame(ws: seq<Str>, w: Str, i: nat)
    requires i <= |ws|
    ensures Offset(ws + [w], i) == Offset(ws, i)
  {
    if i > 0 {
      OffsetSame(ws, w, i - 1);
    }
  }

  /** Every word of the list stands at its place in the text. */
  ghost predicate Texts(mem: Memory, text: int, ws: seq<Str>, n: nat)
    requires n <= |ws|
  {
    forall i :: 0 <= i < n ==> Text(mem, text + Offset(ws, i), ws[i])
  }

  lemma TextsKept(mem: Memory, mem': Memory, text: int, ws: seq<Str>, n: nat, lo: int, hi: int)
    requires n <= |ws| && Texts(mem, text, ws, n) && Kept(mem, mem', lo, hi) && (hi <= text || text + Offset(ws, n) <= lo)
    ensures Texts(mem', text, ws, n)
  {
    forall i | 0 <= i < n ensures Text(mem', text + Offset(ws, i), ws[i]) {
      OffsetGrows(ws, i, n);
      assert Text(mem, text + Offset(ws, i), ws[i]);
    }
  }

  class UserStack {
    var mem: Memory

    /** memcpy of a word and its NUL. */
    method CopyWord(dst: nat, w: Str)
      requires dst + |w| < WORD_LIMIT
      modifies this
      ensures Text(mem, dst, w) && Kept(old(mem), mem, dst, dst + |w| + 1)
    {
      var i := 0;
      while i < |w|
        invariant 0 <= i <= |w| && Kept(old(mem), mem, dst, dst + |w| + 1)
        invariant forall k :: 0 <= k < i ==> mem[dst + k] == w[k]
      {
        mem := mem[dst + i := w[i]];
        i := i + 1;
      }
      mem := mem[dst + |w| := 0];
    }

    /** The strings, from `text` up. */
    method CopyText(text: nat, ws: seq<Str>) returns (slots: seq<Word32>)
      requires text + Offset(ws, |ws|) < WORD_LIMIT
      modifies this
      ensures Texts(mem, text, ws, |ws|) && Kept(old(mem), mem, text, text + Offset(ws, |ws|))
      ensures |slots| == |ws| && forall i :: 0 <= i < |ws| ==> slots[i] == text + Offset(ws, i)
    {
      hide Text, Texts, Kept, Offset;
      slots := [];
      var off, i := 0, 0;
      TextsNone(mem, text, ws);
      while i < |ws|
        invariant 0 <= i <= |ws| && off == Offset(ws, i)
        invariant Texts(mem, text, ws, i) && Kept(old(mem), mem, text, text + off)
        invariant |slots| == i && forall k :: 0 <= k < i ==> slots[k] == text + Offset(ws, k)
      {
        OffsetGrows(ws, i, |ws|);
        OffsetAt(ws, i);
        ghost var mem0 := mem;
        CopyWord(text + off, ws[i]);
        TextsNext(mem0, mem, text, ws, i);
        KeptBoth(old(mem), mem0, mem, text, text + off, text + off, text + off + |ws[i]| + 1, text, text + off + |ws[i]| + 1);
        slots := slots + [text + off];
        off := off + |ws[i]| + 1;
        i := i + 1;
      }
    }

    /** The pointer array and its NULL. */
    method PutPointers(argv: nat, slots: seq<Word32>)
      requires argv + 4 * |slots| + 4 <= WORD_LIMIT
      modifies this
      ensures forall i :: 0 <= i < |slots| ==> WordAt(mem, argv + 4 * i, slots[i])
      ensures WordAt(mem, argv + 4 * |slots|, 0) && Kept(old(mem), mem, argv, argv + 4 * |slots| + 4)
    {
      hide WordAt, Kept, Put;
      var i := 0;
      KeptSelf(mem, argv);
      while i < |slots|
        invariant 0 <= i <= |slots| && Kept(old(mem), mem, argv, argv + 4 * i)
        invariant forall k :: 0 <= k < i ==> WordAt(mem, argv + 4 * k, slots[k])
      {
        ghost var mem0 := mem;
        mem := Put(mem, argv + 4 * i, slots[i]);
        WordsKept(mem0, mem, argv, slots, i);
        KeptBoth(old(mem), mem0, mem, argv, argv + 4 * i, argv + 4 * i, argv + 4 * i + 4, argv, argv + 4 * i + 4);
        i := i + 1;
      }
      ghost var mem0 := mem;
      mem := Put(mem, argv + 4 * i, 0);
      WordsKept(mem0, mem, argv, slots, i);
      KeptBoth(old(mem), mem0, mem, argv, argv + 4 * i, argv + 4 * i, argv + 4 * i + 4, argv, argv + 4 * i + 4);
    }

    /** args_build: split the line and lay out the block below `top`, or change nothing if the text is too long. */
    method Build(line: Str, top: Word32) returns (sp: Word32)
      requires 308 <= top
      modifies this
      ensures sp == 0 <==> Offset(FirstWords(line), |FirstWords(line)|) > 256
      ensures sp == 0 ==> mem == old(mem)
      ensures sp != 0 ==> Shows(mem, sp, FirstWords(line)) && Get(mem, sp) == 0
      ensures sp != 0 ==> sp % 4 == 0 && sp < top && top as int - sp as int <= if top % 4 == 0 then 304 else 307
      ensures sp != 0 ==> Kept(old(mem), mem, sp, top)
    {
      hide Text, Texts, Kept, Offset, WordAt, Put, Shows, FirstWords, Get;
      var ws, total := SplitLine(line);
      WordsAreFew(line);
      if total > ARG_BYTES {
        return 0;
      }
      var text := (top as int - total) / 4 * 4;
      var slots := CopyText(text, ws);
      ghost var mem1 := mem;
      var argv := text - (|ws| + 1) * 4;
      PutPointers(argv, slots);
      ghost var mem2 := mem;
      mem := Put(mem, argv - 4, argv);
      ghost var mem3 := mem;
      mem := Put(mem, argv - 8, |ws|);
      ghost var mem4 := mem;
      mem := Put(mem, argv - 12, 0);
      sp := argv - 12;
      KeptBoth(old(mem), mem1, mem2, text, text + total, argv, text, argv, top);
      KeptBoth(mem2, mem3, mem4, argv - 4, argv, argv - 8, argv - 4, argv - 8, argv);
      KeptBoth(mem2, mem4, mem, argv - 8, argv, argv - 12, argv - 8, argv - 12, argv);
      KeptBoth(old(mem), mem2, mem, argv, top, argv - 12, argv, argv - 12, top);
      BlockShows(mem1, mem2, mem3, mem4, mem, argv, text, ws, slots);
    }
  }

  lemma TextsNone(mem: Memory, text: int, ws: seq<Str>)
    ensures Texts(mem, text, ws, 0) && Offset(ws, 0) == 0 && Kept(mem, mem, text, text)
  {
  }

  lemma KeptSelf(mem: Memory, a: int)
    ensures Kept(mem, mem, a, a)
  {
  }

  lemma OffsetAt(ws: seq<Str>, i: nat)
    requires i < |ws|
    ensures Offset(ws, i + 1) == Offset(ws, i) + |ws[i]| + 1
  {
  }

  lemma TextsNext(mem: Memory, mem': Memory, text: int, ws: seq<Str>, i: nat)
    requires i < |ws| && Texts(mem, text, ws, i) && Text(mem', text + Offset(ws, i), ws[i])
    requires Kept(mem, mem', text + Offset(ws, i), text + Offset(ws, i) + |ws[i]| + 1)
    ensures Texts(mem', text, ws, i + 1)
  {
    hide Text, Kept, Offset;
    TextsKept(mem, mem', text, ws, i, text + Offset(ws, i), text + Offset(ws, i) + |ws[i]| + 1);
  }

  lemma WordKept(mem: Memory, mem': Memory, a: int, n: Word32, lo: int, hi: int)
    requires WordAt(mem, a, n) && Kept(mem, mem', lo, hi) && (a + 4 <= lo || hi <= a)
    ensures WordAt(mem', a, n)
  {
    assert mem'[a..a + 4] == mem[a..a + 4];
  }

  lemma WordsKept(mem: Memory, mem': Memory, argv: int, slots: seq<Word32>, n: nat)
    requires n <= |slots| && Kept(mem, mem', argv + 4 * n, argv + 4 * n + 4)
    requires forall k :: 0 <= k < n ==> WordAt(mem, argv + 4 * k, slots[k])
    ensures forall k :: 0 <= k < n ==> WordAt(mem', argv + 4 * k, slots[k])
  {
    hide WordAt, Kept;
    forall k | 0 <= k < n ensures WordAt(mem', argv + 4 * k, slots[k]) {
      WordKept(mem, mem', argv + 4 * k, slots[k], argv + 4 * n, argv + 4 * n + 4);
    }
  }

  lemma KeptBoth(m0: Memory, m1: Memory, m2: Memory, a: int, b: int, c: int, d: int, lo: int, hi: int)
    requires lo <= a && b <= hi && lo <= c && d <= hi && Kept(m0, m1, a, b) && Kept(m1, m2, c, d)
    ensures Kept(m0, m2, lo, hi)
  {
  }

  lemma WordsAreFew(line: Str)
    ensures |FirstWords(line)| <= ARG_MAX
  {
  }

  lemma WordReads(mem: Memory, a: int, n: Word32)
    requires WordAt(mem, a, n)
    ensures 0 <= a <= WORD_LIMIT - 4 && Get(mem, a) == n
  {
    LeThenFrom(n);
  }

  lemma TextReads(mem: Memory, a: int, w: Str)
    requires Text(mem, a, w)
    ensures 0 <= a < WORD_LIMIT && CStr(mem[a..]) == w
  {
    var b := mem[a..];
    assert w <= b && b[|w|] == 0;
    CStrIs(b, w);
  }

  lemma BlockShows(m1: Memory, m2: Memory, m3: Memory, m4: Memory, m: Memory, argv: int, text: int, ws: seq<Str>, slots: seq<Word32>)
    requires text == argv + 4 * |ws| + 4 && 12 <= argv && text <= WORD_LIMIT && |ws| <= ARG_MAX
    requires |slots| == |ws| && forall i :: 0 <= i < |ws| ==> slots[i] == text + Offset(ws, i)
    requires Texts(m1, text, ws, |ws|) && Kept(m1, m2, argv, text)
    requires forall i :: 0 <= i < |ws| ==> WordAt(m2, argv + 4 * i, slots[i])
    requires WordAt(m2, argv + 4 * |ws|, 0)
    requires WordAt(m3, argv - 4, argv) && Kept(m2, m3, argv - 4, argv)
    requires WordAt(m4, argv - 8, |ws|) && Kept(m3, m4, argv - 8, argv - 4)
    requires WordAt(m, argv - 12, 0) && Kept(m4, m, argv - 12, argv - 8)
    ensures Shows(m, argv - 12, ws) && Get(m, argv - 12) == 0
  {
    hide Text, Texts, Kept, WordAt, Offset, Get, Shows;
    KeptBoth(m2, m3, m4, argv - 4, argv, argv - 8, argv - 4, argv - 8, argv);
    KeptBoth(m2, m4, m, argv - 8, argv, argv - 12, argv - 8, argv - 12, argv);
    TextsKept(m1, m2, text, ws, |ws|, argv, text);
    TextsKept(m2, m, text, ws, |ws|, argv - 12, argv);
    WordKept(m3, m4, argv - 4, argv, argv - 8, argv - 4);
    WordKept(m4, m, argv - 4, argv, argv - 12, argv - 8);
    WordKept(m4, m, argv - 8, |ws|, argv - 12, argv - 8);
    WordKept(m2, m, argv + 4 * |ws|, 0, argv - 12, argv);
    forall i | 0 <= i < |ws| ensures WordAt(m, argv + 4 * i, slots[i]) {
      WordKept(m2, m, argv + 4 * i, slots[i], argv - 12, argv);
    }
    BlockReads(m, argv, text, ws, slots);
    WordReads(m, argv - 12, 0);
  }

  lemma BlockReads(m: Memory, argv: int, text: int, ws: seq<Str>, slots: seq<Word32>)
    requires 12 <= argv && argv + 4 * |ws| + 4 <= WORD_LIMIT && |ws| <= ARG_MAX
    requires |slots| == |ws| && forall i :: 0 <= i < |ws| ==> slots[i] == text + Offset(ws, i)
    requires Texts(m, text, ws, |ws|) && forall i :: 0 <= i < |ws| ==> WordAt(m, argv + 4 * i, slots[i])
    requires WordAt(m, argv - 4, argv) && WordAt(m, argv - 8, |ws|) && WordAt(m, argv + 4 * |ws|, 0)
    ensures Shows(m, argv - 12, ws)
  {
    hide Text, Texts, WordAt, Offset, Get, CStr;
    WordReads(m, argv - 4, argv);
    WordReads(m, argv - 8, |ws|);
    WordReads(m, argv + 4 * |ws|, 0);
    forall i | 0 <= i < |ws| ensures CStr(m[Get(m, argv + 4 * i)..]) == ws[i] {
      WordReads(m, argv + 4 * i, slots[i]);
      TextOf(m, text, ws, i);
      TextReads(m, text + Offset(ws, i), ws[i]);
    }
  }

  lemma TextOf(mem: Memory, text: int, ws: seq<Str>, i: nat)
    requires i < |ws| && Texts(mem, text, ws, |ws|)
    ensures Text(mem, text + Offset(ws, i), ws[i])
  {
  }

  lemma OneWord(w: Str)
    requires w != [] && SPACE !in w
    ensures Split(w) == [w]
  {
    WordIsToken(w);
    assert Split(w) == [w] + Split(Tail(w, |w|));
  }

  /** Leading spaces and runs of spaces make no words. */
  lemma TwoWords(a: Str, b: Str)
    requires a != [] && b != [] && 32 !in a && 32 !in b && 0 !in [32] + a + [32] + ([32] + b)
    ensures FirstWords([32] + a + [32] + ([32] + b)) == [a, b] && Offset([a, b], 2) == |a| + |b| + 2
  {
    hide Split, Token;
    var front: Str, rest: Str := [32] + a, [32] + b;
    SplitAtSpace(front, rest);
    LeadingSpace(a);
    LeadingSpace(b);
    OneWord(a);
    OneWord(b);
    assert [a] + [b] == [a, b];
    assert Offset([a, b], 1) == |a| + 1;
  }

  lemma LeadingSpace(w: Str)
    requires 0 !in [32] + w
    ensures Split([32] + w) == Split(w)
  {
    assert [] + [SPACE] + w == [32] + w;
    SplitAtSpace([], w);
    assert Split([]) == [];
  }
}
