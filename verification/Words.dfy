/**
 32-bit memory words as the paging hardware reads them, and physical RAM.

 A word is stored as the fields of a page-table entry (section 4.3 of the Intel
 SDM, volume 3A): any 32-bit value is exactly one `Word`, so a frame of RAM may
 hold directory entries, table entries or plain data, and nothing in the type
 says which. That a data store never lands in a page table is proved, not typed.
 */
module Words {
  const PAGE_WORDS := 1024
  const RAM_FRAMES := 0x100000

  type FrameNo = n: nat | n < RAM_FRAMES
  type Index = n: nat | n < PAGE_WORDS

  type SixBits = n: nat | n < 64
  type TwoBits = n: nat | n < 4

  /** frame: bits 12-31; present, rw, user, cow: bits 0, 1, 2 and 9; low, high: the unused bits 3-8 and 10-11. */
  datatype Word = Word(frame: FrameNo, present: bool, rw: bool, user: bool, low: SixBits, cow: bool, high: TwoBits)

  const ZERO := Word(0, false, false, false, 0, false, 0)

  type Page = s: seq<Word> | |s| == PAGE_WORDS witness seq(PAGE_WORDS, i => ZERO)
  type Ram = s: seq<Page> | |s| == RAM_FRAMES witness seq(RAM_FRAMES, i => seq(PAGE_WORDS, j => ZERO))

  function ZeroPage(): (p: Page)
    ensures forall i: Index :: p[i] == ZERO
  {
    seq(PAGE_WORDS, i => ZERO)
  }

  function Bit(b: bool): nat {
    if b then 1 else 0
  }

  /** The 32-bit value of a word, bit 0 first. */
  function Encode(w: Word): nat {
    Bit(w.present) + 2 * (Bit(w.rw) + 2 * (Bit(w.user) + 2 * (w.low + 64 * (Bit(w.cow) + 2 * (w.high + 4 * w.frame)))))
  }

  /** The fields of a 32-bit value, shifted out one after the other. */
  function Decode(n: nat): Word
    requires n < 0x1_0000_0000
  {
    var n1 := n / 2;
    var n2 := n1 / 2;
    var n3 := n2 / 2;
    var n9 := n3 / 64;
    var n10 := n9 / 2;
    Word(n10 / 4, n % 2 == 1, n1 % 2 == 1, n2 % 2 == 1, n3 % 64, n9 % 2 == 1, n10 % 4)
  }

  /** Every word is one 32-bit value, and the shifts and masks of vmm.h read its fields back. */
  lemma EncodeThenDecode(w: Word)
    ensures Encode(w) < 0x1_0000_0000 && Decode(Encode(w)) == w
  {
    var n10 := w.high + 4 * w.frame;
    var n9 := Bit(w.cow) + 2 * n10;
    var n3 := w.low + 64 * n9;
    var n2 := Bit(w.user) + 2 * n3;
    var n1 := Bit(w.rw) + 2 * n2;
    assert Encode(w) / 2 == n1 && n1 / 2 == n2 && n2 / 2 == n3;
    assert n3 / 64 == n9 && n9 / 2 == n10 && n10 / 4 == w.frame;
  }

  /** PF_PRESENT, PF_RW, PF_USER and PF_COW of vmm.h, and the frame address, are where the kernel's masks look for them. */
  lemma MasksRead(w: Word)
    ensures var n := Encode(w);
            && (n / 0x1 % 2 == 1 <==> w.present) && (n / 0x2 % 2 == 1 <==> w.rw) && (n / 0x4 % 2 == 1 <==> w.user)
            && (n / 0x200 % 2 == 1 <==> w.cow) && n / 0x1000 == w.frame
  {
    hide Encode;
    EncodeThenDecode(w);
    Shifts(Encode(w));
  }

  lemma Shifts(n: nat)
    ensures n / 0x4 == n / 2 / 2 && n / 0x8 == n / 4 / 2 && n / 0x200 == n / 8 / 64
    ensures n / 0x400 == n / 0x200 / 2 && n / 0x1000 == n / 0x400 / 4
  {
  }

  /** Every 32-bit value is some word. */
  lemma DecodeThenEncode(n: nat)
    requires n < 0x1_0000_0000
    ensures Encode(Decode(n)) == n
  {
  }
}
