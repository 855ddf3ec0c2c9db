/** Addresses: the 4 MB frames of processes, their 8 KB kernel stacks, and the page directory entry between. */
module Paging {

  /** An id as the 32-bit word the address formulas use. */
  function Word(n: nat): bv32
    requires n < 256
  {
    n as bv32
  }

  /** Physical address of the 4 MB frame that holds process `id`'s program. */
  function FrameOf(id: nat): bv32
    requires id < 256
  {
    0x800000 + Word(id) * 0x400000
  }

  /** The directory entry pcb_mapping writes: user, present, writable, 4 MB page. */
  function DirectoryEntry(physical: bv32): bv32 {
    physical | 0x87
  }

  /** get_pcb_from_id: the lowest address of process `id`'s kernel stack. */
  function PcbAddress(id: nat): bv32
    requires id < 256
  {
    0x800000 - (Word(id) + 1) * 0x2000
  }

  /** The kernel stack pointer execute, halt and the scheduler put into the TSS. */
  function StackTop(id: nat): bv32
    requires id < 256
  {
    0x800000 - Word(id) * 0x2000 - 4
  }

  /** get_cur_pcb: the stack pointer rounded down to 8 KB. */
  function PcbFromEsp(esp: bv32): bv32 {
    esp & 0xFFFFE000
  }

  /** A 4 MB page translation: ten bits of the virtual address choose the entry, the rest is an offset. */
  function Translate(pageDir: seq<bv32>, va: bv32): bv32
    requires |pageDir| == 1024
  {
    (EntryFor(pageDir, va) & 0xFFC00000) | (va & 0x003FFFFF)
  }

  /** An entry of the page directory lets programs read and write a page of 4 MB: present, writable, user, large. */
  predicate UserPage(entry: bv32) {
    entry & 0x01 != 0 && entry & 0x02 != 0 && entry & 0x04 != 0 && entry & 0x80 != 0
  }

  /** The entry chosen for an address. */
  function EntryFor(pageDir: seq<bv32>, va: bv32): bv32
    requires |pageDir| == 1024
  {
    DirectoryIndex(va);
    pageDir[(va >> 22) as int]
  }

  lemma DirectoryIndex(va: bv32)
    ensures (va >> 22) as int < 1024
  {
    assert va >> 22 < 1024;
  }

  lemma WordBelow(id: nat)
    requires id < 12
    ensures Word(id) < 12
  {
    match id
    case 0 => case 1 => case 2 => case 3 => case 4 => case 5 =>
    case 6 => case 7 => case 8 => case 9 => case 10 => case 11 =>
  }

  lemma WordOrder(a: nat, b: nat)
    requires a < b < 12
    ensures Word(a) < Word(b)
  {
    match a
    case 0 => WordStep(b, 0); case 1 => WordStep(b, 1); case 2 => WordStep(b, 2); case 3 => WordStep(b, 3);
    case 4 => WordStep(b, 4); case 5 => WordStep(b, 5); case 6 => WordStep(b, 6); case 7 => WordStep(b, 7);
    case 8 => WordStep(b, 8); case 9 => WordStep(b, 9); case 10 => WordStep(b, 10);
  }

  lemma WordStep(b: nat, w: bv32)
    requires b < 12 && w as int < b
    ensures w < Word(b)
  {
    match b
    case 1 => case 2 => case 3 => case 4 => case 5 => case 6 =>
    case 7 => case 8 => case 9 => case 10 => case 11 =>
  }

  lemma FrameBits(w: bv32, va: bv32)
    requires w < 12 && 0x8000000 <= va < 0x8400000
    ensures va >> 22 == 32 && UserPage((0x800000 + w * 0x400000) | 0x87)
    ensures (((0x800000 + w * 0x400000) | 0x87) & 0xFFC00000) | (va & 0x3FFFFF)
         == 0x800000 + w * 0x400000 + (va - 0x8000000)
  {
  }

  /** With a process's entry in place, the 4 MB at 128 MB are that process's frame, byte for byte, open to the program. */
  lemma ProgramPage(pageDir: seq<bv32>, id: nat, va: bv32)
    requires |pageDir| == 1024 && id < 12 && pageDir[32] == DirectoryEntry(FrameOf(id))
    requires 0x8000000 <= va < 0x8400000
    ensures Translate(pageDir, va) == 0x800000 + Word(id) * 0x400000 + (va - 0x8000000) == FrameOf(id) + (va - 0x8000000)
    ensures UserPage(EntryFor(pageDir, va))
  {
    WordBelow(id);
    FrameBits(Word(id), va);
  }

  lemma StackBits(w: bv32, esp: bv32)
    requires w < 12
    requires 0x800000 - (w + 1) * 0x2000 <= esp <= 0x800000 - w * 0x2000 - 1
    ensures esp & 0xFFFFE000 == 0x800000 - (w + 1) * 0x2000
  {
  }

  /** Every stack pointer inside stack `id`, the TSS value included, leads back to the same PCB. */
  lemma {:induction false} SamePcb(id: nat, esp: bv32)
    requires id < 12
    requires PcbAddress(id) <= esp <= PcbAddress(id) + 0x1FFF
    ensures PcbFromEsp(esp) == PcbAddress(id)
    ensures PcbAddress(id) <= StackTop(id) == PcbAddress(id) + 0x1FFC
  {
    WordBelow(id);
    StackBits(Word(id), esp);
  }

  lemma SeparateBits(v: bv32, w: bv32)
    requires v < w < 12
    ensures 0x800000 + v * 0x400000 + 0x400000 <= 0x800000 + w * 0x400000
    ensures 0x800000 - (w + 1) * 0x2000 + 0x2000 <= 0x800000 - (v + 1) * 0x2000
  {
  }

  lemma RangeBits(v: bv32, w: bv32)
    requires v < 12 && w < 12
    ensures 0x400000 <= 0x800000 - (v + 1) * 0x2000
    ensures 0x800000 - v * 0x2000 - 4 < 0x800000 <= 0x800000 + w * 0x400000
  {
  }

  lemma TopBits(v: bv32, w: bv32)
    requires v < w < 12
    ensures 0x800000 - v * 0x2000 - 4 != 0x800000 - w * 0x2000 - 4
  {
  }

  /** Different processes have different kernel stacks. */
  lemma StackTopsDiffer(a: nat, b: nat)
    requires a < 12 && b < 12 && a != b
    ensures StackTop(a) != StackTop(b)
  {
    if a < b {
      WordOrder(a, b);
      TopBits(Word(a), Word(b));
    } else {
      WordOrder(b, a);
      TopBits(Word(b), Word(a));
    }
  }

  /** Frames of different processes do not overlap, nor do their stacks, nor a stack and a frame. */
  lemma Separate(a: nat, b: nat)
    requires a < 12 && b < 12 && a != b
    ensures FrameOf(a) + 0x400000 <= FrameOf(b) || FrameOf(b) + 0x400000 <= FrameOf(a)
    ensures PcbAddress(a) + 0x2000 <= PcbAddress(b) || PcbAddress(b) + 0x2000 <= PcbAddress(a)
    ensures 0x400000 <= PcbAddress(a) && StackTop(a) < 0x800000 <= FrameOf(b)
  {
    if a < b {
      WordOrder(a, b);
      SeparateBits(Word(a), Word(b));
    } else {
      WordOrder(b, a);
      SeparateBits(Word(b), Word(a));
    }
    WordBelow(a);
    WordBelow(b);
    RangeBits(Word(a), Word(b));
  }
}
