/** The read-only file system: the block walk of read_data, positions, and name lookup. */
module FileSystem {
  import opened Text

  /** The data blocks, as the bytes from the first data block on. */
  datatype Disk = Disk(numDatablocks: nat, data: seq<byte>)

  /** An inode: the size, its 1023 block numbers, and the word that follows them in memory. */
  datatype Inode = Inode(size: nat, words: seq<nat>)

  /** The arrays have the sizes they are declared with, and a file is not longer than its block numbers reach. */
  ghost predicate WellFormed(disk: Disk, ino: Inode) {
    && |disk.data| == 4096 * disk.numDatablocks
    && |ino.words| == 1024 && ino.size <= 1023 * 4096
  }

  /** Every block that holds bytes of the file has a number the disk knows. */
  ghost predicate Sound(disk: Disk, ino: Inode) {
    && WellFormed(disk, ino)
    && forall b :: 0 <= b < 1023 && 4096 * b < ino.size ==> ino.words[b] < disk.numDatablocks
  }

  /** Byte `i` of a file, where its block number says it is. */
  function ByteOf(disk: Disk, ino: Inode, i: nat): byte {
    if i / 4096 < |ino.words| && 4096 * ino.words[i / 4096] + i % 4096 < |disk.data|
    then disk.data[4096 * ino.words[i / 4096] + i % 4096] else NUL
  }

  // ---- The file as one byte sequence ----

  function Block(disk: Disk, ino: Inode, b: nat): (r: seq<byte>)
    requires |disk.data| == 4096 * disk.numDatablocks && b < |ino.words| && ino.words[b] < disk.numDatablocks
    ensures |r| == 4096
  {
    BlockInside(ino.words[b], disk.numDatablocks);
    disk.data[4096 * ino.words[b]..][..4096]
  }

  lemma BlockInside(w: nat, n: nat)
    requires w < n
    ensures 4096 * w + 4096 <= 4096 * n
  {
  }

  /** The first `n` blocks of a file, one after the other. */
  ghost function Blocks(disk: Disk, ino: Inode, n: nat): (r: seq<byte>)
    requires Sound(disk, ino) && n <= 1023 && 4096 * n < ino.size + 4096
    ensures |r| == 4096 * n
  {
    if n == 0 then [] else Blocks(disk, ino, n - 1) + Block(disk, ino, n - 1)
  }

  /** The contents of a file: its blocks concatenated, cut off at its size. */
  ghost function Contents(disk: Disk, ino: Inode): (r: seq<byte>)
    requires Sound(disk, ino)
    ensures |r| == ino.size
  {
    Blocks(disk, ino, (ino.size + 4095) / 4096)[..ino.size]
  }

  lemma {:induction false} BlocksAt(disk: Disk, ino: Inode, n: nat, b: nat, k: nat)
    requires Sound(disk, ino) && n <= 1023 && 4096 * n < ino.size + 4096 && b < n && k < 4096
    ensures Blocks(disk, ino, n)[4096 * b + k] == Block(disk, ino, b)[k]
  {
    if b < n - 1 {
      BlocksAt(disk, ino, n - 1, b, k);
    }
  }

  lemma BlockAndByte(b: nat, k: nat)
    requires k < 4096
    ensures (4096 * b + k) / 4096 == b && (4096 * b + k) % 4096 == k
  {
  }

  /** Byte `k` of a block the disk knows. */
  lemma ByteIn(disk: Disk, ino: Inode, b: nat, k: nat)
    requires WellFormed(disk, ino) && k < 4096 && b < 1024 && ino.words[b] < disk.numDatablocks
    ensures 4096 * ino.words[b] + k < |disk.data|
    ensures ByteOf(disk, ino, 4096 * b + k) == disk.data[4096 * ino.words[b] + k]
  {
    BlockInside(ino.words[b], disk.numDatablocks);
    BlockAndByte(b, k);
  }

  /** Byte `i` of the concatenated blocks is the byte the block numbers lead to. */
  lemma ContentsAt(disk: Disk, ino: Inode, i: nat)
    requires Sound(disk, ino) && i < ino.size
    ensures Contents(disk, ino)[i] == ByteOf(disk, ino, i)
  {
    var b, k := i / 4096, i % 4096;
    assert i == 4096 * b + k;
    BlocksAt(disk, ino, (ino.size + 4095) / 4096, b, k);
    ByteIn(disk, ino, b, k);
  }

  // ---- read_data ----

  /** How many of the bytes asked for lie before the end of the file. */
  function Available(size: nat, offset: nat, length: nat): (n: nat)
    ensures n <= length && (n > 0 ==> offset + n <= size)
    ensures n == length || offset + n >= size
  {
    if offset >= size then 0 else if offset + length <= size then length else size - offset
  }

  /** The first block from `b` on whose number the disk does not know, 1024 if there is none. */
  function FirstUnknown(disk: Disk, ino: Inode, b: nat): (r: nat)
    requires |ino.words| == 1024 && b <= 1024
    ensures b <= r <= 1024 && (r < 1024 ==> ino.words[r] >= disk.numDatablocks)
    ensures forall c :: b <= c < r ==> ino.words[c] < disk.numDatablocks
    decreases 1024 - b
  {
    if b == 1024 || ino.words[b] >= disk.numDatablocks then b else FirstUnknown(disk, ino, b + 1)
  }

  /** The first block behind that of `offset` whose number the disk does not know. */
  function Wall(disk: Disk, ino: Inode, offset: nat): (u: nat)
    requires |ino.words| == 1024 && offset < 1023 * 4096
    ensures 4096 * u > offset
  {
    FirstUnknown(disk, ino, offset / 4096 + 1)
  }

  /**
   The reads on which read_data gives up: it starts inside the file, and steps into a block whose
   number the disk does not know before it has read enough or has gone past the end.
   */
  ghost predicate Stopped(disk: Disk, ino: Inode, offset: nat, length: nat)
    requires WellFormed(disk, ino)
  {
    offset < ino.size && 4096 * Wall(disk, ino, offset) <= ino.size && 4096 * Wall(disk, ino, offset) < offset + length
  }

  /** How many bytes read_data copies. */
  ghost function Copied(disk: Disk, ino: Inode, offset: nat, length: nat): (n: nat)
    requires WellFormed(disk, ino)
    ensures n <= length && (n > 0 ==> offset + n <= ino.size)
  {
    if Stopped(disk, ino, offset, length) then 4096 * Wall(disk, ino, offset) - offset
    else Available(ino.size, offset, length)
  }

  /** What a read leaves in its buffer: `n` bytes of the file from `at` on, and elsewhere what was there. */
  ghost predicate Delivered(disk: Disk, ino: Inode, offset: nat, n: nat, at: nat, was: seq<byte>, now: seq<byte>) {
    && |now| == |was|
    && forall i :: 0 <= i < |was| ==>
         now[i] == if at <= i < at + n then ByteOf(disk, ino, offset + (i - at)) else was[i]
  }

  /** The end-of-file test, in 32 bits: before the first byte, or inside the file, nothing wraps. */
  predicate AtEnd(offset: nat, done: nat, size: nat) {
    (done + offset) % 0x1_0000_0000 >= size
  }

  lemma AtEndIs(offset: nat, done: nat, size: nat)
    requires offset < 0x1_0000_0000 && size <= 1023 * 4096 && (offset < size ==> offset + done <= size)
    requires offset >= size ==> done == 0
    ensures AtEnd(offset, done, size) <==> offset + done >= size
  {
  }

  /** The wall is the block stepped into when its number is not known, and lies behind it otherwise. */
  lemma WallIs(disk: Disk, ino: Inode, offset: nat, b: nat)
    requires WellFormed(disk, ino) && offset < ino.size && offset / 4096 < b < 1024 && b <= Wall(disk, ino, offset)
    ensures Wall(disk, ino, offset) == b <==> ino.words[b] >= disk.numDatablocks
  {
  }

  /**
   The loop of read_data, for any inode.  The number of the block it starts in is not checked by the
   code, and `curAddr` may be computed from a block number past the inode's last one when the offset
   is past the end of the file; it is then never used.
   */
  method WalkBlocks(disk: Disk, ino: Inode, offset: nat, buf: array<byte>, at: nat, length: nat) returns (r: int)
    requires WellFormed(disk, ino) && offset < 0x1_0000_0000 && length < 0x1_0000_0000
    requires offset < ino.size ==> ino.words[offset / 4096] < disk.numDatablocks
    requires at + Available(ino.size, offset, length) <= buf.Length
    modifies buf
    ensures r == if Stopped(disk, ino, offset, length) then -1 else Available(ino.size, offset, length)
    ensures Delivered(disk, ino, offset, Copied(disk, ino, offset, length), at, old(buf[..]), buf[..])
  {
    ghost var n := Available(ino.size, offset, length);
    var curDatablk: nat := offset / 4096;
    var byteInBlk: nat := offset % 4096;
    var curAddr: nat := if curDatablk < 1024 then 4096 * ino.words[curDatablk] + byteInBlk else 0;
    var done := 0;
    while done < length
      invariant 0 <= done <= n
      invariant byteInBlk <= 4096 && (if done == 0 then byteInBlk < 4096 else byteInBlk > 0)
      invariant 4096 * curDatablk + byteInBlk == offset + done
      invariant offset < ino.size ==>
                  && offset / 4096 <= curDatablk < 1023 && curDatablk < Wall(disk, ino, offset)
                  && ino.words[curDatablk] < disk.numDatablocks
                  && curAddr == 4096 * ino.words[curDatablk] + byteInBlk
      invariant Delivered(disk, ino, offset, done, at, old(buf[..]), buf[..])
    {
      if byteInBlk >= 4096 {
        curDatablk := curDatablk + 1;
        byteInBlk := 0;
        WallIs(disk, ino, offset, curDatablk);
        if ino.words[curDatablk] >= disk.numDatablocks {
          return -1;
        }
        curAddr := 4096 * ino.words[curDatablk];
      }
      AtEndIs(offset, done, ino.size);
      if AtEnd(offset, done, ino.size) {
        return done;
      }
      ByteIn(disk, ino, curDatablk, byteInBlk);
      buf[at + done] := disk.data[curAddr];
      byteInBlk := byteInBlk + 1;
      curAddr := curAddr + 1;
      done := done + 1;
    }
    return done;
  }

  /** read_data into the part of a buffer that starts at `at`. */
  method ReadData(disk: Disk, ino: Inode, offset: nat, buf: array?<byte>, at: nat, length: nat) returns (r: int)
    requires WellFormed(disk, ino) && offset < 0x1_0000_0000 && length < 0x1_0000_0000
    requires offset < ino.size ==> ino.words[offset / 4096] < disk.numDatablocks
    requires buf != null ==> at + Available(ino.size, offset, length) <= buf.Length
    modifies buf
    ensures buf == null ==> r == -1
    ensures buf != null ==>
              && r == (if Stopped(disk, ino, offset, length) then -1 else Available(ino.size, offset, length))
              && Delivered(disk, ino, offset, Copied(disk, ino, offset, length), at, old(buf[..]), buf[..])
  {
    if buf == null {
      return -1;
    }
    r := WalkBlocks(disk, ino, offset, buf, at, length);
  }

  /** Loading a whole file fails exactly when one of its blocks, the first aside, is not known. */
  lemma LoadStopsIff(disk: Disk, ino: Inode)
    requires WellFormed(disk, ino)
    ensures Stopped(disk, ino, 0, ino.size) <==>
            exists b :: 1 <= b < 1023 && 4096 * b < ino.size && ino.words[b] >= disk.numDatablocks
  {
    if b :| 1 <= b < 1023 && 4096 * b < ino.size && ino.words[b] >= disk.numDatablocks {
      assert Wall(disk, ino, 0) <= b;
    }
  }

  // ---- Sound files ----

  /**
   The reads on which read_data gives up although every byte asked for is there: the file ends
   exactly at a block boundary, the read goes past its end, and the next block number, looked at
   before the size is, is not one the disk knows.
   */
  ghost predicate Trapped(disk: Disk, ino: Inode, offset: nat, length: nat)
    requires Sound(disk, ino)
  {
    && ino.size % 4096 == 0 && offset < ino.size < offset + length
    && ino.words[ino.size / 4096] >= disk.numDatablocks
  }

  lemma WallBehindSound(disk: Disk, ino: Inode, offset: nat)
    requires Sound(disk, ino) && offset < ino.size
    ensures 4096 * Wall(disk, ino, offset) >= ino.size
  {
  }

  /** On a sound file read_data gives up only there, and all bytes are copied even then. */
  lemma SoundWalk(disk: Disk, ino: Inode, offset: nat, length: nat)
    requires Sound(disk, ino)
    ensures Stopped(disk, ino, offset, length) <==> Trapped(disk, ino, offset, length)
    ensures Copied(disk, ino, offset, length) == Available(ino.size, offset, length)
  {
    if offset < ino.size {
      WallBehindSound(disk, ino, offset);
      if ino.size % 4096 == 0 {
        BlockAndByte(ino.size / 4096, 0);
        SoundWall(disk, ino, offset);
      }
    }
  }

  lemma SoundWall(disk: Disk, ino: Inode, offset: nat)
    requires Sound(disk, ino) && offset < ino.size && ino.size % 4096 == 0
    ensures 4096 * Wall(disk, ino, offset) == ino.size <==> ino.words[ino.size / 4096] >= disk.numDatablocks
  {
    WallBehindSound(disk, ino, offset);
  }

  /** A file that ends at a block boundary also has a block number there that the disk knows. */
  ghost predicate EndsSafely(disk: Disk, ino: Inode)
    requires Sound(disk, ino)
  {
    ino.size % 4096 == 0 && ino.size > 0 ==> ino.words[ino.size / 4096] < disk.numDatablocks
  }

  /** read_data keeps its promise on every offset and length exactly when the file ends safely. */
  lemma TrapFree(disk: Disk, ino: Inode)
    requires Sound(disk, ino)
    ensures EndsSafely(disk, ino) <==> forall offset, length: nat :: !Trapped(disk, ino, offset, length)
  {
    if !EndsSafely(disk, ino) {
      assert Trapped(disk, ino, 0, ino.size + 1);
    }
  }

  // ---- Positions ----

  /** The bytes a read of `n` at position `pos` should give. */
  function ReadAt(contents: seq<byte>, pos: nat, n: nat): (r: seq<byte>)
    ensures |r| == Available(|contents|, pos, n)
  {
    contents[Clip(contents, pos)..Clip(contents, pos + n)]
  }

  function Clip(contents: seq<byte>, pos: nat): (r: nat)
    ensures r <= |contents|
  {
    if pos <= |contents| then pos else |contents|
  }

  predicate IsWord(n: int) {
    -0x8000_0000 <= n < 0x8000_0000
  }

  /** A signed file position or byte count, as the unsigned one read_data takes it for. */
  function Unsigned(n: int): (r: nat)
    requires IsWord(n)
    ensures r < 0x1_0000_0000 && (n < 0 ==> r >= 0x8000_0000)
  {
    if n >= 0 then n else n + 0x1_0000_0000
  }

  /** What file_read returns for a read of `n` bytes at `position`. */
  ghost function ReadResult(disk: Disk, ino: Inode, position: int, n: int): (cnt: int)
    requires Sound(disk, ino) && IsWord(position) && IsWord(n)
    ensures -1 <= cnt <= ino.size
  {
    if Trapped(disk, ino, Unsigned(position), Unsigned(n)) then -1
    else Available(ino.size, Unsigned(position), Unsigned(n))
  }

  /** An open file: the descriptor's inode and position. */
  class OpenFile {
    const disk: Disk
    const inode: Inode
    var position: int

    constructor (disk: Disk, inode: Inode)
      ensures this.disk == disk && this.inode == inode && position == 0
    {
      this.disk, this.inode, position := disk, inode, 0;
    }

    ghost function Data(): seq<byte>
      requires Sound(disk, inode)
    {
      Contents(disk, inode)
    }

    /** file_read fails on this read, although the bytes are there. */
    ghost predicate Fails(n: int)
      requires Sound(disk, inode) && IsWord(position) && IsWord(n)
      reads this
    {
      Trapped(disk, inode, Unsigned(position), Unsigned(n))
    }

    /**
     file_read: the bytes at the position are put at `at`, and the position goes behind them.  When
     read_data gives up, the bytes are in the buffer all the same, but the result is -1, and the
     position, to which the result is added, has gone back by one.  A position below 0 is past the
     end of every file, and a count below 0 asks for more than any file has.
     */
    method Read(buf: array<byte>, at: nat, n: int) returns (cnt: int)
      requires Sound(disk, inode) && IsWord(position) && IsWord(n)
      requires at + Available(inode.size, Unsigned(position), Unsigned(n)) <= buf.Length
      modifies this, buf
      ensures cnt == if old(Fails(n)) then -1 else |ReadAt(Data(), Unsigned(old(position)), Unsigned(n))|
      ensures position == old(position) + cnt
      ensures var bytes := ReadAt(Data(), Unsigned(old(position)), Unsigned(n));
              forall i :: 0 <= i < buf.Length ==> buf[i] == if at <= i < at + |bytes| then bytes[i - at] else old(buf[i])
    {
      cnt := ReadFrom(disk, inode, position, buf, at, n);
      position := position + cnt;
    }
  }

  /** The call of read_data in file_read: what it returns, and what it leaves in the buffer. */
  method ReadFrom(disk: Disk, ino: Inode, position: int, buf: array<byte>, at: nat, n: int) returns (cnt: int)
    requires Sound(disk, ino) && IsWord(position) && IsWord(n)
    requires at + Available(ino.size, Unsigned(position), Unsigned(n)) <= buf.Length
    modifies buf
    ensures cnt == ReadResult(disk, ino, position, n)
    ensures var bytes := ReadAt(Contents(disk, ino), Unsigned(position), Unsigned(n));
            forall i :: 0 <= i < buf.Length ==> buf[i] == if at <= i < at + |bytes| then bytes[i - at] else old(buf[i])
  {
    ghost var offset, was := Unsigned(position), buf[..];
    SoundWalk(disk, ino, offset, Unsigned(n));
    cnt := ReadData(disk, ino, Unsigned(position), buf, at, Unsigned(n));
    DeliveredIsRead(disk, ino, offset, Unsigned(n), at, was, buf[..]);
  }

  lemma DeliveredIsRead(disk: Disk, ino: Inode, offset: nat, n: nat, at: nat, was: seq<byte>, now: seq<byte>)
    requires Sound(disk, ino) && Delivered(disk, ino, offset, Available(ino.size, offset, n), at, was, now)
    ensures var bytes := ReadAt(Contents(disk, ino), offset, n);
            forall i :: 0 <= i < |was| ==> now[i] == if at <= i < at + |bytes| then bytes[i - at] else was[i]
  {
    var bytes := ReadAt(Contents(disk, ino), offset, n);
    forall k | 0 <= k < |bytes| ensures bytes[k] == ByteOf(disk, ino, offset + k) {
      ContentsAt(disk, ino, offset + k);
    }
  }

  /** Reads of the given sizes one after the other. */
  function ReadChunks(contents: seq<byte>, pos: nat, sizes: seq<nat>): seq<byte>
    decreases |sizes|
  {
    if sizes == [] then []
    else
      var chunk := ReadAt(contents, pos, sizes[0]);
      chunk + ReadChunks(contents, pos + |chunk|, sizes[1..])
  }

  function Sum(sizes: seq<nat>): nat {
    if sizes == [] then 0 else sizes[0] + Sum(sizes[1..])
  }

  /**
   Reads of any sizes concatenate to one read of their sum, from the first position on.
   */
  lemma {:induction false} ChunksAreTheFile(contents: seq<byte>, pos: nat, sizes: seq<nat>)
    requires pos <= |contents|
    ensures ReadChunks(contents, pos, sizes) == ReadAt(contents, pos, Sum(sizes))
    decreases |sizes|
  {
    if sizes != [] {
      var m, n := sizes[0], Sum(sizes[1..]);
      var next := Clip(contents, pos + m);
      ChunksAreTheFile(contents, next, sizes[1..]);
      ReadAtSplit(contents, pos, m, n);
    }
  }

  lemma ReadAtSplit(contents: seq<byte>, pos: nat, m: nat, n: nat)
    requires pos <= |contents|
    ensures var next := Clip(contents, pos + m);
            && pos + |ReadAt(contents, pos, m)| == next
            && ReadAt(contents, pos, m + n) == ReadAt(contents, pos, m) + ReadAt(contents, next, n)
  {
  }

  /** Some chunk starts inside the file and asks for more than is left. */
  predicate Straddles(size: nat, pos: nat, sizes: seq<nat>)
    decreases |sizes|
  {
    sizes != [] && (pos < size < pos + sizes[0] || Straddles(size, pos + Available(size, pos, sizes[0]), sizes[1..]))
  }

  lemma TrappedIff(disk: Disk, ino: Inode, offset: nat, length: nat)
    requires Sound(disk, ino)
    ensures Trapped(disk, ino, offset, length) <==> !EndsSafely(disk, ino) && offset < ino.size < offset + length
  {
  }

  /**
   Calls of file_read with the given sizes, one after the other, up to the first that fails.  None
   fails if and only if the file ends safely or no chunk straddles its end; the bytes read are then
   those of one read of the sum of the sizes.
   */
  method ReadInChunks(file: OpenFile, sizes: seq<nat>) returns (out: seq<byte>, ok: bool)
    requires Sound(file.disk, file.inode) && 0 <= file.position <= file.inode.size
    requires forall i :: 0 <= i < |sizes| ==> sizes[i] < 0x8000_0000
    modifies file
    ensures ok <==> EndsSafely(file.disk, file.inode) || !Straddles(file.inode.size, old(file.position), sizes)
    ensures ok ==> out == ReadAt(file.Data(), old(file.position), Sum(sizes))
    ensures ok ==> file.position == old(file.position) + |out|
  {
    ghost var data, from, size: nat := file.Data(), file.position, file.inode.size;
    out, ok := [], true;
    var i := 0;
    while i < |sizes|
      invariant 0 <= i <= |sizes| && 0 <= file.position <= file.inode.size
      invariant SoFar(data, from, sizes, i, out, file.position)
      invariant EndsSafely(file.disk, file.inode) || (Straddles(size, from, sizes) <==> Straddles(size, file.position, sizes[i..]))
    {
      SoFarStep(data, from, sizes, i, out, file.position);
      StraddlesStep(size, file.position, sizes, i);
      var bytes, cnt := ReadOnce(file, sizes[i]);
      if cnt == -1 {
        return out, false;
      }
      out := out + bytes;
      i := i + 1;
    }
    ChunksAreTheFile(data, from, sizes);
  }

  /** The first `i` reads have given `out` and brought the position to `pos`. */
  ghost predicate SoFar(data: seq<byte>, from: nat, sizes: seq<nat>, i: nat, out: seq<byte>, pos: nat) {
    && i <= |sizes| && pos == from + |out| <= |data|
    && out + ReadChunks(data, pos, sizes[i..]) == ReadChunks(data, from, sizes)
  }

  lemma SoFarStep(data: seq<byte>, from: nat, sizes: seq<nat>, i: nat, out: seq<byte>, pos: nat)
    requires SoFar(data, from, sizes, i, out, pos) && i < |sizes|
    ensures var chunk := ReadAt(data, pos, sizes[i]);
            SoFar(data, from, sizes, i + 1, out + chunk, pos + |chunk|)
  {
    var chunk := ReadAt(data, pos, sizes[i]);
    assert sizes[i..][0] == sizes[i] && sizes[i..][1..] == sizes[i + 1..];
    Regroup(out, chunk, ReadChunks(data, pos + |chunk|, sizes[i + 1..]));
  }

  lemma StraddlesStep(size: nat, pos: nat, sizes: seq<nat>, i: nat)
    requires i < |sizes|
    ensures Straddles(size, pos, sizes[i..]) <==>
            (pos < size < pos + sizes[i] || Straddles(size, pos + Available(size, pos, sizes[i]), sizes[i + 1..]))
  {
    assert sizes[i..][0] == sizes[i] && sizes[i..][1..] == sizes[i + 1..];
  }

  /** One call, into a buffer of its own. */
  method ReadOnce(file: OpenFile, n: nat) returns (bytes: seq<byte>, cnt: int)
    requires Sound(file.disk, file.inode) && 0 <= file.position <= file.inode.size && n < 0x8000_0000
    modifies file
    ensures cnt == -1 <==> !EndsSafely(file.disk, file.inode) && old(file.position) < file.inode.size < old(file.position) + n
    ensures cnt != -1 ==> bytes == ReadAt(file.Data(), old(file.position), n) && file.position == old(file.position) + |bytes|
  {
    TrappedIff(file.disk, file.inode, file.position, n);
    var buf := new byte[n];
    cnt := file.Read(buf, 0, n);
    bytes := if cnt == -1 then [] else buf[..cnt];
  }

  lemma Regroup(a: seq<byte>, b: seq<byte>, c: seq<byte>)
    ensures a + (b + c) == (a + b) + c
  {
  }

  /** Reads of any sizes that ask for enough give the whole file; all reads after them give nothing. */
  method ReadWholeThenNothing(file: OpenFile, sizes: seq<nat>, more: seq<nat>) returns (out: seq<byte>, rest: seq<byte>)
    requires Sound(file.disk, file.inode) && EndsSafely(file.disk, file.inode) && file.position == 0
    requires forall i :: 0 <= i < |sizes| ==> sizes[i] < 0x8000_0000
    requires forall i :: 0 <= i < |more| ==> more[i] < 0x8000_0000
    requires Sum(sizes) >= file.inode.size
    modifies file
    ensures out == file.Data() && rest == [] && file.position == file.inode.size
  {
    var ok;
    out, ok := ReadInChunks(file, sizes);
    rest, ok := ReadInChunks(file, more);
  }

  /** A read that fails at the start of a file leaves a position from which nothing is ever read. */
  method FailAtStart(file: OpenFile, buf: array<byte>, n: nat, m: nat) returns (first: int, second: int)
    requires Sound(file.disk, file.inode) && file.position == 0
    requires n <= buf.Length < 0x8000_0000 && m <= buf.Length
    requires file.Fails(n)
    modifies file, buf
    ensures first == -1 && second == 0 && file.position == -1
  {
    first := file.Read(buf, 0, n);
    second := file.Read(buf, 0, m);
  }

  /** A file that fills one block, on a disk of one block: a read of one byte more than there are fails. */
  lemma OneBlockTrap() returns (disk: Disk, ino: Inode)
    ensures Sound(disk, ino) && !EndsSafely(disk, ino) && ino.size == 4096 && Trapped(disk, ino, 0, 4097)
  {
    disk, ino := Disk(1, Repeat(SPACE, 4096)), Inode(4096, seq(1024, i => i));
  }

  /** A chunk size that divides the block size never reads past a block boundary. */
  lemma AlignedNeverTrapped(disk: Disk, ino: Inode, k: nat)
    requires Sound(disk, ino)
    ensures !Trapped(disk, ino, 1024 * k, 1024)
  {
  }

  /**
   The loop of cat: 1024 bytes at a time until a read gives nothing.  It copies the whole file, even
   one that does not end safely, because its reads never straddle a block boundary.
   */
  method Cat(file: OpenFile) returns (output: seq<byte>)
    requires Sound(file.disk, file.inode) && file.position == 0
    modifies file
    ensures output == file.Data()
  {
    var buf := new byte[1024];
    ghost var data, k := file.Data(), 0;
    output := [];
    AlignedNeverTrapped(file.disk, file.inode, 0);
    var cnt := file.Read(buf, 0, 1024);
    while cnt != 0
      invariant 0 <= cnt <= 1024 && file.position == |output| + cnt
      invariant |output| <= |data| && output == data[..|output|]
      invariant buf[..cnt] == ReadAt(data, |output|, 1024)
      invariant cnt != 0 ==> |output| == 1024 * k
      decreases |data| - |output|
    {
      PrefixGrows(data, |output|, 1024);
      output := output + buf[..cnt];
      k := k + 1;
      if cnt == 1024 {
        AlignedNeverTrapped(file.disk, file.inode, k);
      }
      cnt := file.Read(buf, 0, 1024);
    }
    assert data[..|output|] == data;
  }

  lemma PrefixGrows(data: seq<byte>, pos: nat, n: nat)
    requires pos <= |data|
    ensures pos + |ReadAt(data, pos, n)| <= |data|
    ensures data[..pos] + ReadAt(data, pos, n) == data[..pos + |ReadAt(data, pos, n)|]
  {
  }
}
