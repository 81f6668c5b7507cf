/** Bytes, little-endian 32-bit words and NUL-terminated strings. */
module Bytes {
  const WORD_LIMIT := 0x1_0000_0000

  type Byte = b: int | 0 <= b < 256
  type Word32 = n: int | 0 <= n < WORD_LIMIT

  /** The 4 GB address space, byte by byte. */
  type Memory = m: seq<Byte> | |m| == WORD_LIMIT witness seq<Byte>(WORD_LIMIT, i => 0)

  function Le(n: Word32): (b: seq<Byte>)
    ensures |b| == 4
  {
    [n % 256, n / 256 % 256, n / 65536 % 256, n / 16777216]
  }

  function FromLe(b: seq<Byte>): Word32
    requires |b| == 4
  {
    var b0: int, b1: int, b2: int, b3: int := b[0], b[1], b[2], b[3];
    b0 + 256 * b1 + 65536 * b2 + 16777216 * b3
  }

  /** The least significant byte comes first, as on the i386. */
  lemma LittleEndian(n: Word32)
    ensures var b := Le(n); n as int == b[0] as int + 0x100 * b[1] as int + 0x1_0000 * b[2] as int + 0x100_0000 * b[3] as int
    ensures Le(0x1234_5678) == [0x78, 0x56, 0x34, 0x12]
  {
    var a := n / 256;
    var b := a / 256;
    assert n / 65536 == b && n / 16777216 == b / 256;
  }

  lemma LeThenFrom(n: Word32)
    ensures FromLe(Le(n)) == n
  {
    var a := n / 256;
    var b := a / 256;
    assert n / 65536 == b && n / 16777216 == b / 256;
  }

  lemma FromThenLe(b: seq<Byte>)
    requires |b| == 4
    ensures Le(FromLe(b)) == b
  {
    var b0: int, b1: int, b2: int, b3: int := b[0], b[1], b[2], b[3];
    var z := b2 + 256 * b3;
    var y := b1 + 256 * z;
    var x := b0 + 256 * y;
    assert x / 256 == y && y / 256 == z && z / 256 == b3;
    assert x / 65536 == z && x / 16777216 == b3;
  }

  /** A C string: the bytes before the first NUL. */
  type Str = s: seq<Byte> | 0 !in s

  function CStr(b: seq<Byte>): (s: Str)
    ensures s <= b
    ensures |s| < |b| ==> b[|s|] == 0
  {
    if b == [] || b[0] == 0 then [] else
      var t := CStr(b[1..]);
      assert [b[0]] + t <= b;
      [b[0]] + t
  }

  lemma {:induction false} CStrIs(b: seq<Byte>, s: Str)
    requires |s| < |b| && s <= b && b[|s|] == 0
    ensures CStr(b) == s
  {
    if s != [] {
      CStrIs(b[1..], s[1..]);
    }
  }

  /** strcmp from index i on: the difference at the first place where the strings end or differ. */
  function Strcmp(a: seq<Byte>, b: seq<Byte>, i: nat): int
    requires i < |a| && i < |b| && 0 in a[i..] && 0 in b[i..]
    decreases |a| - i
  {
    if a[i] != 0 && a[i] == b[i] then
      assert a[i..] == [a[i]] + a[i + 1..] && b[i..] == [b[i]] + b[i + 1..];
      Strcmp(a, b, i + 1)
    else
      a[i] as int - b[i] as int
  }

  /** strcmp returns 0 exactly for equal strings. */
  lemma {:induction false} StrcmpIsEquality(a: seq<Byte>, b: seq<Byte>, i: nat)
    requires i < |a| && i < |b| && 0 in a[i..] && 0 in b[i..]
    ensures Strcmp(a, b, i) == 0 <==> CStr(a[i..]) == CStr(b[i..])
    decreases |a| - i
  {
    if a[i] != 0 && a[i] == b[i] {
      assert a[i..] == [a[i]] + a[i + 1..] && b[i..] == [b[i]] + b[i + 1..];
      assert a[i..][1..] == a[i + 1..] && b[i..][1..] == b[i + 1..];
      StrcmpIsEquality(a, b, i + 1);
      assert CStr(a[i..]) == [a[i]] + CStr(a[i + 1..]) && CStr(b[i..]) == [b[i]] + CStr(b[i + 1..]);
      assert CStr(a[i..])[1..] == CStr(a[i + 1..]) && CStr(b[i..])[1..] == CStr(b[i + 1..]);
    } else {
      assert a[i] != 0 ==> CStr(a[i..])[0] == a[i];
      assert b[i] != 0 ==> CStr(b[i..])[0] == b[i];
    }
  }
}
