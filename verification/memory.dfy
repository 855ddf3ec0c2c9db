/** The copy routines of lib.c, register by register, against one simultaneous copy. */
module Memory {
  import opened Text

  /** `mem` with the bytes from `at` on replaced by `bytes`. */
  function Splice(mem: seq<byte>, at: nat, bytes: seq<byte>): (r: seq<byte>)
    requires at + |bytes| <= |mem|
    ensures |r| == |mem|
    ensures forall i :: 0 <= i < |mem| ==> r[i] == if at <= i < at + |bytes| then bytes[i - at] else mem[i]
  {
    mem[..at] + bytes + mem[at + |bytes|..]
  }

  /**
   memcpy: bytes until the destination address is a multiple of four, then double words, then the
   bytes left over.  `base` is the address of `dst[0]`.  Whatever the alignment and the length, a
   copy between two buffers is one splice.
   */
  method Memcpy(dst: array<byte>, d: nat, src: array<byte>, s: nat, n: nat, base: nat)
    requires d + n <= dst.Length && s + n <= src.Length
    requires dst != src
    modifies dst
    ensures dst[..] == Splice(old(dst[..]), d, src[s..s + n])
  {
    var edi, esi, ecx: int := d, s, n;
    while ecx != 0 && (base + edi) % 4 != 0
      invariant 0 <= ecx <= n && edi == d + (n - ecx) && esi == edi - d + s
      invariant forall i :: 0 <= i < dst.Length ==>
                  dst[i] == if d <= i < edi then src[i - d + s] else old(dst[i])
    {
      dst[edi] := src[esi];
      edi, esi, ecx := edi + 1, esi + 1, ecx - 1;
    }
    var edx := ecx % 4;
    ecx := ecx / 4;
    while ecx != 0
      invariant 0 <= ecx && 0 <= edx && d <= edi && edi + 4 * ecx + edx == d + n && esi == edi - d + s
      invariant forall i :: 0 <= i < dst.Length ==>
                  dst[i] == if d <= i < edi then src[i - d + s] else old(dst[i])
    {
      dst[edi], dst[edi + 1], dst[edi + 2], dst[edi + 3] := src[esi], src[esi + 1], src[esi + 2], src[esi + 3];
      edi, esi, ecx := edi + 4, esi + 4, ecx - 1;
    }
    while edx != 0
      invariant 0 <= edx && d <= edi && edi + edx == d + n && esi == edi - d + s
      invariant forall i :: 0 <= i < dst.Length ==>
                  dst[i] == if d <= i < edi then src[i - d + s] else old(dst[i])
    {
      dst[edi] := src[esi];
      edi, esi, edx := edi + 1, esi + 1, edx - 1;
    }
  }

  /** rep movsb with the direction flag clear: right when the destination does not lie above the source. */
  method MoveUp(mem: array<byte>, d: nat, s: nat, n: nat)
    requires d <= s && s + n <= mem.Length
    modifies mem
    ensures mem[..] == Splice(old(mem[..]), d, old(mem[s..s + n]))
  {
    var edi, esi, ecx: int := d, s, n;
    while ecx != 0
      invariant 0 <= ecx <= n && edi == d + (n - ecx) && esi == s + (n - ecx)
      invariant forall i :: 0 <= i < mem.Length ==>
                  mem[i] == if d <= i < edi then old(mem[i - d + s]) else old(mem[i])
    {
      mem[edi] := mem[esi];
      edi, esi, ecx := edi + 1, esi + 1, ecx - 1;
    }
  }

  /** rep movsb with the direction flag set, from the last byte down. */
  method MoveDown(mem: array<byte>, d: nat, s: nat, n: nat)
    requires s < d && d + n <= mem.Length
    modifies mem
    ensures mem[..] == Splice(old(mem[..]), d, old(mem[s..s + n]))
  {
    var edi, esi, ecx: int := d + n - 1, s + n - 1, n;
    while ecx != 0
      invariant 0 <= ecx <= n && edi == d + ecx - 1 && esi == s + ecx - 1
      invariant forall i :: 0 <= i < mem.Length ==>
                  mem[i] == if edi < i < d + n then old(mem[i - d + s]) else old(mem[i])
    {
      mem[edi] := mem[esi];
      edi, esi, ecx := edi - 1, esi - 1, ecx - 1;
    }
  }

  /**
   memmove: upwards when the source does not lie below the destination, downwards otherwise.
   For every overlap the result is as if all bytes had been read before any was written.
   */
  method Memmove(mem: array<byte>, d: nat, s: nat, n: nat)
    requires d + n <= mem.Length && s + n <= mem.Length
    modifies mem
    ensures mem[..] == Splice(old(mem[..]), d, old(mem[s..s + n]))
  {
    if s >= d {
      MoveUp(mem, d, s, n);
    } else {
      MoveDown(mem, d, s, n);
    }
  }
}
