/**
 The system calls and interrupts that go through several parts of the kernel: execute from the command
 line to the process tables, open from the name to the descriptor, halt and the keyboard on the
 console and the process tables together.
 */
module System {
  import opened Text
  import opened Commands
  import opened Directory
  import opened Records
  import opened FileSystem
  import opened Processes
  import opened Runs
  import CallStacks
  import Guarantees
  import Kernel
  import Console
  import Terminals
  import Keyboard

  /** The page directory is none of the console's buffers, as their sizes tell. */
  ghost predicate Apart(console: Console.Console, kernel: Kernel.Kernel)
    reads console
  {
    kernel.pageDir as object != console.vram &&
    forall t :: 0 <= t < |console.backing| ==> console.backing[t] as object != kernel.pageDir
  }

  lemma SizesTell(console: Console.Console, kernel: Kernel.Kernel)
    requires console.Wired() && kernel.Valid()
    ensures Apart(console, kernel)
  {
    assert kernel.pageDir.Length == 1024;
  }

  // ---- The files on the disk ----

  /** The directory as it lies in memory, with what lies behind it, the inodes, and the data blocks. */
  datatype Volume = Volume(table: seq<byte>, inodes: seq<Inode>, disk: Disk)

  /** Every record has an inode of the volume, and the first block of every file is known. */
  ghost predicate Mounted(v: Volume) {
    && |v.table| >= 64 * 64
    && (forall k :: 0 <= k < 63 ==> InodeAt(v.table, k) < |v.inodes|)
    && forall i :: 0 <= i < |v.inodes| ==>
         WellFormed(v.disk, v.inodes[i]) && (v.inodes[i].size > 0 ==> v.inodes[i].words[0] < v.disk.numDatablocks)
  }

  /** The first record from `k` on that the lookup accepts, 63 if there is none. */
  ghost function Found(table: seq<byte>, fname: seq<byte>, k: nat): (r: nat)
    requires k <= 63 && |table| >= 64 * 63 + |fname|
    ensures k <= r <= 63 && (r < 63 ==> Accepts(table, r, fname))
    ensures forall i :: k <= i < r ==> !Accepts(table, i, fname)
    decreases 63 - k
  {
    if k == 63 || Accepts(table, k, fname) then k else Found(table, fname, k + 1)
  }

  lemma FoundIs(table: seq<byte>, fname: seq<byte>, r: nat)
    requires r <= 63 && |table| >= 64 * 63 + |fname|
    requires r < 63 ==> Accepts(table, r, fname)
    requires forall i :: 0 <= i < r ==> !Accepts(table, i, fname)
    ensures Found(table, fname, 0) == r
  {
  }

  /** For a name of at most 32 bytes that is the first record with exactly this name. */
  lemma FoundByName(table: seq<byte>, fname: seq<byte>)
    requires |table| >= 64 * 64 && NUL !in fname && 0 < |fname| <= 32
    ensures var k := Found(table, fname, 0);
            && (k < 63 ==> NameOf(table, k) == fname)
            && forall i :: 0 <= i < k ==> NameOf(table, i) != fname
  {
    forall i | 0 <= i < 63 ensures Accepts(table, i, fname) <==> NameOf(table, i) == fname {
      AcceptsIsEquality(table, i, fname);
    }
  }

  /** In a directory of these entries that is the first entry of exactly this name. */
  lemma FoundEntry(table: seq<byte>, entries: seq<Entry>, fname: seq<byte>)
    requires Stored(table, entries) && NUL !in fname && 0 < |fname| <= 32
    ensures Found(table, fname, 0) == FirstNamed(entries, fname, 0)
  {
    forall k | 0 <= k < 63 ensures NameOf(table, k) == entries[k].name {
      ReadsBack(table, k, entries[k]);
    }
    FoundByName(table, fname);
    NotBefore(table, entries, fname);
  }

  lemma NotBefore(table: seq<byte>, entries: seq<Entry>, fname: seq<byte>)
    requires |table| >= 64 * 64 && |entries| == 63 && NUL !in fname && 0 < |fname| <= 32
    requires forall k :: 0 <= k < 63 ==> NameOf(table, k) == entries[k].name
    ensures Found(table, fname, 0) <= FirstNamed(entries, fname, 0)
  {
    var k := FirstNamed(entries, fname, 0);
    if k < 63 {
      AcceptsIsEquality(table, k, fname);
    }
  }

  /** read_dentry_by_name, as a position; 63 stands for -1. */
  method LookUp(v: Volume, fname: seq<byte>) returns (k: nat)
    requires |v.table| >= 64 * 63 + |fname| && NUL !in fname
    ensures k == Found(v.table, fname, 0)
  {
    var r := ReadDentryByName(v.table, fname);
    k := if r.Some? then r.value else 63;
    FoundIs(v.table, fname, k);
  }

  // ---- execute, from the command line on ----

  const MAGIC: seq<byte> := [0x7F as char, 'E', 'L', 'F']

  /** What the 40 bytes of the header buffer hold after the read: a shorter file leaves the rest as it was. */
  function HeaderOf(disk: Disk, ino: Inode, was: seq<byte>): (r: seq<byte>)
    requires |was| == 40
    ensures |r| == 40
  {
    seq(40, i requires 0 <= i < 40 => if i < ino.size then ByteOf(disk, ino, i) else was[i])
  }

  /** What the checks of execute make of a file name. */
  ghost function ImageOf(v: Volume, fname: seq<byte>, was: seq<byte>): Image
    requires Mounted(v) && |v.table| >= 64 * 63 + |fname| && |was| == 40
  {
    var k := Found(v.table, fname, 0);
    if k == 63 then Missing
    else
      var ino := v.inodes[InodeAt(v.table, k)];
      if HeaderOf(v.disk, ino, was)[..4] != MAGIC then NotExecutable
      else if exists b :: 1 <= b < 1023 && 4096 * b < ino.size && ino.words[b] >= v.disk.numDatablocks then BadBlocks
      else Loadable
  }

  /** The first four bytes the checks look at: of the file, where it has them, else what the buffer held before. */
  ghost predicate StartsAsElf(v: Volume, ino: Inode, was: seq<byte>)
    requires WellFormed(v.disk, ino) && |was| == 40 && (ino.size > 0 ==> ino.words[0] < v.disk.numDatablocks)
  {
    var elf := [0x7F, 0x45, 0x4C, 0x46];
    forall i :: 0 <= i < 4 ==>
      elf[i] == (if i < ino.size then (ByteIn(v.disk, ino, 0, i); v.disk.data[4096 * ino.words[0] + i]) else was[i]) as int
  }

  lemma MagicIsElf(v: Volume, ino: Inode, was: seq<byte>)
    requires WellFormed(v.disk, ino) && |was| == 40 && (ino.size > 0 ==> ino.words[0] < v.disk.numDatablocks)
    ensures HeaderOf(v.disk, ino, was)[..4] == MAGIC <==> StartsAsElf(v, ino, was)
  {
    var header, elf := HeaderOf(v.disk, ino, was)[..4], [0x7F, 0x45, 0x4C, 0x46];
    assert forall i :: 0 <= i < 4 ==> MAGIC[i] as int == elf[i];
    forall i | 0 <= i < 4
      ensures header[i] == if i < ino.size then (ByteIn(v.disk, ino, 0, i); v.disk.data[4096 * ino.words[0] + i]) else was[i]
    {
      if i < ino.size {
        ByteIn(v.disk, ino, 0, i);
      }
    }
  }

  /**
   What execute makes of a name, in a directory of these entries: the file is the one whose inode number is
   recorded in the first entry of exactly this name; it is a program if it starts with 0x7F, E, L, F, and it
   can be loaded if moreover the disk knows every block it has.
   */
  lemma ImageByName(v: Volume, entries: seq<Entry>, fname: seq<byte>, was: seq<byte>)
    requires Mounted(v) && Stored(v.table, entries) && |was| == 40 && NUL !in fname && 0 < |fname| <= 32
    ensures var k := FirstNamed(entries, fname, 0); var image := ImageOf(v, fname, was);
            if k == 63 then image == Missing
            else
              && entries[k].inode < |v.inodes| && var ino := v.inodes[entries[k].inode];
              && (image == NotExecutable <==> !StartsAsElf(v, ino, was))
              && (image == BadBlocks <==> StartsAsElf(v, ino, was) && !Sound(v.disk, ino))
              && (image == Loadable <==> StartsAsElf(v, ino, was) && Sound(v.disk, ino))
  {
    var k := FirstNamed(entries, fname, 0);
    FoundEntry(v.table, entries, fname);
    if k < 63 {
      ReadsBack(v.table, k, entries[k]);
      assert InodeAt(v.table, k) == entries[k].inode;
      ImageOfFound(v, fname, was, k);
    }
  }

  lemma ImageOfFound(v: Volume, fname: seq<byte>, was: seq<byte>, k: nat)
    requires Mounted(v) && |v.table| >= 64 * 63 + |fname| && |was| == 40
    requires k == Found(v.table, fname, 0) && k < 63
    ensures var ino := v.inodes[InodeAt(v.table, k)]; var image := ImageOf(v, fname, was);
            && (image == NotExecutable <==> !StartsAsElf(v, ino, was))
            && (image == BadBlocks <==> StartsAsElf(v, ino, was) && !Sound(v.disk, ino))
            && (image == Loadable <==> StartsAsElf(v, ino, was) && Sound(v.disk, ino))
  {
    var ino := v.inodes[InodeAt(v.table, k)];
    MagicIsElf(v, ino, was);
    SoundIff(v.disk, ino);
  }

  lemma SoundIff(disk: Disk, ino: Inode)
    requires WellFormed(disk, ino) && (ino.size > 0 ==> ino.words[0] < disk.numDatablocks)
    ensures Sound(disk, ino) <==> !exists b :: 1 <= b < 1023 && 4096 * b < ino.size && ino.words[b] >= disk.numDatablocks
  {
  }

  /** The program page of a file that can be loaded holds the file. */
  ghost predicate HoldsProgram(v: Volume, fname: seq<byte>, page: seq<byte>)
    requires Mounted(v) && |v.table| >= 64 * 63 + |fname|
  {
    var k := Found(v.table, fname, 0);
    k < 63 && var ino := v.inodes[InodeAt(v.table, k)];
              Sound(v.disk, ino) && ino.size <= |page| && page[..ino.size] == Contents(v.disk, ino)
  }

  lemma ProgramLoaded(disk: Disk, ino: Inode, was: seq<byte>, now: seq<byte>)
    requires Sound(disk, ino) && ino.size <= |was| && Delivered(disk, ino, 0, Copied(disk, ino, 0, ino.size), 0, was, now)
    ensures now[..ino.size] == Contents(disk, ino)
  {
    SoundWalk(disk, ino, 0, ino.size);
    forall i | 0 <= i < ino.size ensures now[i] == Contents(disk, ino)[i] {
      ContentsAt(disk, ino, i);
    }
  }

  /** The comparison of the header with the magic number. */
  method IsExecutable(header: array<byte>) returns (same: bool)
    requires header.Length == 40
    ensures same <==> header[..4] == MAGIC
  {
    var r := Strncmp(header[..], 0, MAGIC, 4);
    same := r == 0;
    AgreeOnAll(header[..], 0, MAGIC);
    assert header[..][0..4] == header[..4];
  }

  lemma HeaderRead(disk: Disk, ino: Inode, was: seq<byte>, now: seq<byte>)
    requires WellFormed(disk, ino) && |was| == 40
    requires Delivered(disk, ino, 0, Copied(disk, ino, 0, 40), 0, was, now)
    ensures now == HeaderOf(disk, ino, was)
  {
  }

  /** The checks of execute; a program that can be loaded is in `page` afterwards. */
  method CheckFile(v: Volume, fname: seq<byte>, header: array<byte>, page: array<byte>) returns (image: Image)
    requires Mounted(v) && |v.table| >= 64 * 63 + |fname| && NUL !in fname
    requires header.Length == 40 && header != page
    requires forall i :: 0 <= i < |v.inodes| ==> v.inodes[i].size <= page.Length
    modifies header, page
    ensures image == ImageOf(v, fname, old(header[..]))
    ensures image == Loadable ==> HoldsProgram(v, fname, page[..])
  {
    ghost var was := header[..];
    var k := LookUp(v, fname);
    if k == 63 {
      return Missing;
    }
    var ino := v.inodes[InodeAt(v.table, k)];
    var n := ReadData(v.disk, ino, 0, header, 0, 40);
    HeaderRead(v.disk, ino, was, header[..]);
    var executable := IsExecutable(header);
    if !executable {
      return NotExecutable;
    }
    ghost var before := page[..];
    n := ReadData(v.disk, ino, 0, page, 0, ino.size);
    LoadStopsIff(v.disk, ino);
    SoundIff(v.disk, ino);
    if n == -1 {
      return BadBlocks;
    }
    ProgramLoaded(v.disk, ino, before, page[..]);
    return Loadable;
  }

  /** A directory of one file, named `x`, whose second block number is not known on a disk of one block. */
  lemma BadFile() returns (v: Volume)
    ensures Mounted(v) && ImageOf(v, "x", Repeat(NUL, 40)) == BadBlocks
  {
    var ino := Inode(8192, seq(1024, i => i));
    v := Volume("x" + Repeat(NUL, 4095), [ino], Disk(1, MAGIC + Repeat(NUL, 4092)));
    var field := v.table[64 * 0..64 * 0 + 32];
    assert field[..1] == "x" && field[1] == NUL;
    BeforeNulIs(field, 1);
    AcceptsIsEquality(v.table, 0, "x");
    FoundIs(v.table, "x", 0);
    forall k | 0 <= k < 63 ensures InodeAt(v.table, k) == 0 {
      assert forall i :: 0 < i < 4096 ==> v.table[i] == NUL;
    }
    assert HeaderOf(v.disk, ino, Repeat(NUL, 40))[..4] == MAGIC;
    assert ino.words[1] >= v.disk.numDatablocks;
  }

  /** The name execute looks up: its 32-byte buffer and, if no NUL is there, the stack behind it. */
  function NameLookedUp(filename: seq<byte>, behind: seq<byte>): (r: seq<byte>)
    ensures NUL !in r && |r| <= |filename| + |behind|
  {
    BeforeNul(filename + behind)
  }

  /** The name buffer keeps a NUL exactly when the name is shorter than 32 bytes. */
  lemma NulKeptIff(name: seq<byte>)
    requires NUL !in name && |name| <= 32
    ensures NUL in Filled(name, 32) <==> |name| < 32
  {
    if |name| < 32 {
      assert Filled(name, 32)[|name|] == NUL;
    } else {
      assert Filled(name, 32) == name;
    }
  }

  /** What is looked up is the name typed if and only if it is shorter than 32 bytes, or a NUL happens to lie behind. */
  lemma NameLookedUpIff(name: seq<byte>, behind: seq<byte>)
    requires NUL !in name && |name| <= 32 && NUL in Filled(name, 32) + behind
    ensures NameLookedUp(Filled(name, 32), behind) == name <==> |name| < 32 || behind[0] == NUL
  {
    var mem := Filled(name, 32) + behind;
    assert mem[..|name|] == name;
    if |name| < 32 || behind[0] == NUL {
      assert mem[|name|] == NUL;
      BeforeNulIs(mem, |name|);
    }
  }

  /** A name of 32 bytes with another byte behind it: 33 bytes are looked up. */
  lemma NameRunsOn()
    ensures NameLookedUp(Filled(Repeat('a', 32), 32), "b\0") == Repeat('a', 32) + "b"
  {
    var mem := Filled(Repeat('a', 32), 32) + "b\0";
    assert mem[..33] == Repeat('a', 32) + "b" && mem[33] == NUL;
    BeforeNulIs(mem, 33);
  }

  /**
   execute of a command line on the process tables: nothing when the scanner gives it up, otherwise the
   step for what the file named turns out to be, with the arguments typed.  None stands for the overrun
   of a buffer, whose effect the kernel does not define.
   */
  method ExecuteTables(kernel: Kernel.Kernel, v: Volume, command: seq<byte>, behind: seq<byte>,
                       header: array<byte>, page: array<byte>, ctx: Context) returns (o: Option<Observation>)
    requires kernel.Valid() && kernel.curTermId < 3
    requires Mounted(v) && |v.table| >= 64 * 63 + 32 + |behind| && NUL !in command && NUL in behind
    requires header.Length == 40 && header != page && page as object != kernel.pageDir
    requires forall i :: 0 <= i < |v.inodes| ==> v.inodes[i].size <= page.Length
    modifies kernel, kernel.pageDir, header, page
    ensures kernel.Valid()
    ensures match Commands.Split(command)
            case Overrun => o == None && kernel.Abs() == old(kernel.Abs())
            case TooLong => o == Some(Refused(-1)) && kernel.Abs() == old(kernel.Abs())
            case Parsed(name, args) =>
              |name| <= 32 && |args| <= 100 && o.Some? &&
              var image := ImageOf(v, NameLookedUp(Filled(name, 32), behind), old(header[..]));
              && (kernel.Abs(), o.value) == Execute(old(kernel.Abs()), image, ArgBuf(Filled(args, 100)), ctx)
              && (image == Loadable ==> HoldsProgram(v, NameLookedUp(Filled(name, 32), behind), page[..]))
  {
    var parsed := ParseCommand(command);
    PartsFit(command);
    match parsed {
      case Overrun => return None;
      case TooLong => return Some(Refused(-1));
      case Parsed(filename, fileargs) =>
        var image := CheckFile(v, NameLookedUp(filename, behind), header, page);
        assert image == ImageOf(v, NameLookedUp(filename, behind), old(header[..]));
        var r := kernel.ExecuteCommand(image, ArgBuf(fileargs), ctx);
        return Some(r);
    }
  }

  /** What an execute does on the console: a message on the display when it finds no slot, which is refusal 0. */
  function AfterExecute(c: Terminals.State, o: Option<Observation>): (r: Terminals.State)
    requires c.Valid() && c.cur < 3
  {
    if o == Some(Refused(0)) then Terminals.Step(c, Terminals.Say(Terminals.NO_SPACE)) else c
  }

  /** The message stands on the display, and nothing else changes; for any other outcome nothing changes at all. */
  lemma RefusalShown(c: Terminals.State, o: Option<Observation>)
    requires c.Valid() && c.cur < 3
    ensures var d := AfterExecute(c, o);
            && (o == Some(Refused(0)) ==>
                  d.views[c.cur] == Terminals.Printed(c.views[c.cur], "There are no available space in the PCB\n"))
            && (o != Some(Refused(0)) ==> d.views[c.cur] == c.views[c.cur])
            && (forall t :: 0 <= t < 3 && t != c.cur ==> d.views[t] == c.views[t])
            && d.cur == c.cur && d.now == c.now && d.mods == c.mods
  {
  }

  /** The message of an execute that has been refused. */
  method AnnounceRefusal(console: Console.Console, o: Option<Observation>)
    requires console.Valid() && console.curTermId < 3
    modifies console, console.vram
    ensures console.Valid() && console.Abs() == AfterExecute(old(console.Abs()), o)
  {
    if o == Some(Refused(0)) {
      console.AnnounceNoSpace();
    }
  }

  /** execute on process tables and console. */
  method ExecuteLine(console: Console.Console, kernel: Kernel.Kernel, v: Volume, command: seq<byte>, behind: seq<byte>,
                     header: array<byte>, page: array<byte>, ctx: Context) returns (o: Option<Observation>)
    requires console.Valid() && kernel.Valid() && console.curTermId == kernel.curTermId < 3 && Apart(console, kernel)
    requires Mounted(v) && |v.table| >= 64 * 63 + 32 + |behind| && NUL !in command && NUL in behind
    requires header.Length == 40 && header != page && page as object != kernel.pageDir
    requires header != console.vram && page != console.vram && header !in console.backing && page !in console.backing
    requires forall i :: 0 <= i < |v.inodes| ==> v.inodes[i].size <= page.Length
    modifies console, console.vram, kernel, kernel.pageDir, header, page
    ensures console.Valid() && console.Abs() == AfterExecute(old(console.Abs()), o)
    ensures kernel.Valid()
    ensures match Commands.Split(command)
            case Overrun => o == None && kernel.Abs() == old(kernel.Abs())
            case TooLong => o == Some(Refused(-1)) && kernel.Abs() == old(kernel.Abs())
            case Parsed(name, args) =>
              |name| <= 32 && |args| <= 100 && o.Some? &&
              var image := ImageOf(v, NameLookedUp(Filled(name, 32), behind), old(header[..]));
              && (kernel.Abs(), o.value) == Execute(old(kernel.Abs()), image, ArgBuf(Filled(args, 100)), ctx)
              && (image == Loadable ==> HoldsProgram(v, NameLookedUp(Filled(name, 32), behind), page[..]))
  {
    o := ExecuteTables(kernel, v, command, behind, header, page, ctx);
    AnnounceRefusal(console, o);
  }

  /** What the scanner accepts fits the buffers. */
  lemma PartsFit(command: seq<byte>)
    ensures match Commands.Split(command)
            case Parsed(name, args) => |name| <= 32 && |args| <= 100
            case _ => true
  {
    var m := MarksOf(command);
    assert m.end - m.name <= 32 || Commands.Split(command) != Commands.Parsed(command[m.name..m.end], command[m.args..]);
  }

  /**
   A program by its name: leading spaces, a name of at most 31 bytes, a space and arguments, within
   the scanner's limits, start the first file of exactly that name, if it is an executable whose blocks
   are known, with the arguments typed.
   */
  lemma ProgramByName(v: Volume, k: nat, name: seq<byte>, m: nat, args: seq<byte>, behind: seq<byte>)
    requires name != [] && SPACE !in name && NUL !in name && m >= 1 && NUL !in args && (args == [] || args[0] != SPACE)
    requires k + |name| <= 32 && |name| < 32 && |args| <= 100
    requires Mounted(v) && |v.table| >= 64 * 63 + 32 + |behind|
    ensures Commands.Split(CommandLine(k, name, m, args)) == Commands.Parsed(name, args)
    ensures NameLookedUp(Filled(name, 32), behind) == name && BeforeNul(ArgBuf(Filled(args, 100))) == args
    ensures var r := Found(v.table, name, 0);
            && (r < 63 ==> NameOf(v.table, r) == name)
            && forall i :: 0 <= i < r ==> NameOf(v.table, i) != name
  {
    ParseRoundTrip(k, name, m, args);
    NulKeptIff(name);
    NameLookedUpIff(name, behind);
    StoredArgs(args);
    FoundByName(v.table, name);
  }

  // ---- open, from the name on ----

  /** What open does with a name. */
  ghost function OpenStep(s: State, v: Volume, fname: seq<byte>): (State, Observation)
    requires Shaped(s) && |v.table| >= 64 * 64 && |v.table| >= 64 * 63 + |fname|
  {
    var k := Found(v.table, fname, 0);
    if k == 63 then Open(s, false, OtherType, 0) else Open(s, true, TypeAt(v.table, k), InodeAt(v.table, k))
  }

  method OpenName(kernel: Kernel.Kernel, v: Volume, fname: seq<byte>) returns (o: Observation)
    requires kernel.Valid() && NUL !in fname
    requires |v.table| >= 64 * 64 && |v.table| >= 64 * 63 + |fname|
    modifies kernel
    ensures kernel.Valid() && (kernel.Abs(), o) == OpenStep(old(kernel.Abs()), v, fname)
  {
    var k := LookUp(v, fname);
    if k == 63 {
      o := kernel.OpenFile(false, OtherType, 0);
    } else {
      o := kernel.OpenFile(true, TypeAt(v.table, k), InodeAt(v.table, k));
    }
  }

  predicate HasFree(fds: seq<Fd>)
    requires |fds| == 8
  {
    exists i :: 0 <= i < 8 && !fds[i].open
  }

  /** The least free descriptor. */
  predicate IsLeast(fds: seq<Fd>, c: int)
    requires |fds| == 8
  {
    2 <= c < 8 && !fds[c].open && forall i :: 0 <= i < c ==> fds[i].open
  }

  /** What open leaves in the descriptor, by the type of the file. */
  lemma OpensAt(s: State, t: FileType, inode: nat)
    requires Inv(s) && s.curPcb[s.now] >= 0 && HasFree(s.pcbs[Running(s)].fds)
    ensures var (r, o) := Open(s, true, t, inode); var p, q := s.pcbs[Running(s)], r.pcbs[Running(s)];
            && o.Returned? && IsLeast(p.fds, o.code)
            && (forall i :: 0 <= i < 8 && i != o.code ==> q.fds[i] == p.fds[i])
            && var fd := q.fds[o.code];
               && fd.open && fd.position == 0
               && (t == RtcType ==> fd.ops == RtcOps && q.rtcFreq == 2 && q.rtcCounter == 512)
               && (t == DirType ==> fd.ops == DirOps)
               && (t == FileType ==> fd.ops == FileOps && fd.inode == inode)
               && (t == OtherType ==> fd.ops == p.fds[o.code].ops)
  {
    Guarantees.OpenGivesLowest(s, true, t, inode);
    StepDefined(s, Rtc);
  }

  /** The lookup and the descriptor together, for any table. */
  lemma {:induction false} OpenFound(s: State, v: Volume, fname: seq<byte>)
    requires Inv(s) && s.curPcb[s.now] >= 0
    requires |v.table| >= 64 * 64 && NUL !in fname && 0 < |fname| <= 32
    ensures var (r, o) := OpenStep(s, v, fname); var fds := s.pcbs[Running(s)].fds; var k := Found(v.table, fname, 0);
            if k < 63 && HasFree(fds) then (r, o) == Open(s, true, TypeAt(v.table, k), InodeAt(v.table, k))
            else r == s && o == Returned(-1)
  {
    var k := Found(v.table, fname, 0);
    if k == 63 {
      Guarantees.OpenGivesLowest(s, false, OtherType, 0);
    } else if !HasFree(s.pcbs[Running(s)].fds) {
      Guarantees.OpenGivesLowest(s, true, TypeAt(v.table, k), InodeAt(v.table, k));
    }
  }

  /**
   open finds the right file and the least free descriptor: for a name of 1 to 32 bytes that an entry of the
   directory has, and with a descriptor free, the least free one is given, at position 0, and what it is
   open on is what the first entry of exactly that name records: type 0 is the RTC, at 2 Hz, 1 the directory,
   2 the file of the inode number recorded; a descriptor of any other type keeps the operations it had.  No
   other descriptor changes.  Otherwise the result is -1 and nothing changes.
   */
  lemma {:induction false} OpenByName(s: State, v: Volume, entries: seq<Entry>, fname: seq<byte>)
    requires Inv(s) && s.curPcb[s.now] >= 0
    requires Stored(v.table, entries) && NUL !in fname && 0 < |fname| <= 32
    ensures var (r, o) := OpenStep(s, v, fname); var p, q := s.pcbs[Running(s)], r.pcbs[Running(s)];
            var k := FirstNamed(entries, fname, 0);
            if k < 63 && HasFree(p.fds) then
              && o.Returned? && IsLeast(p.fds, o.code)
              && (forall i :: 0 <= i < 8 && i != o.code ==> q.fds[i] == p.fds[i])
              && var fd, e := q.fds[o.code], entries[k];
                 && fd.open && fd.position == 0
                 && (e.fileType == 0 ==> fd.ops == RtcOps && q.rtcFreq == 2 && q.rtcCounter == 512)
                 && (e.fileType == 1 ==> fd.ops == DirOps)
                 && (e.fileType == 2 ==> fd.ops == FileOps && fd.inode == e.inode)
                 && (e.fileType > 2 ==> fd.ops == p.fds[o.code].ops)
            else r == s && o == Returned(-1)
  {
    var k := FirstNamed(entries, fname, 0);
    FoundEntry(v.table, entries, fname);
    OpenFound(s, v, fname);
    if k < 63 && HasFree(s.pcbs[Running(s)].fds) {
      ReadsBack(v.table, k, entries[k]);
      OpensAt(s, TypeAt(v.table, k), InodeAt(v.table, k));
    }
  }

  /**
   close of an open descriptor from 2 up closes it, and says so unless the descriptor was opened on a file of
   unknown type in a place never used before: then the result is -1, although it is closed.
   */
  lemma {:induction false} CloseReturns(s: State, n: int)
    requires Inv(s) && s.curPcb[s.now] >= 0
    ensures var (r, o) := Close(s, n); var fds := s.pcbs[Running(s)].fds;
            if 2 <= n < 8 && fds[n].open then
              && !r.pcbs[Running(s)].fds[n].open && o.Returned? && (o.code == 0 || o.code == -1)
              && (o.code == -1 <==> fds[n].ops == ErrorOps)
            else r == s && o == Returned(-1)
  {
    StepDefined(s, Rtc);
  }

  // ---- halt and the keyboard, on console and process tables ----

  /** The two parts agree on which terminal runs and which is displayed. */
  ghost predicate Together(console: Console.Console, kernel: Kernel.Kernel)
    reads console, kernel, kernel.pageDir
  {
    && console.Valid() && Inv(kernel.Abs()) && Booted(kernel.Abs())
    && console.curTermId == kernel.curTermId && console.nowTermId == kernel.nowTermId
  }

  /** What a halt does on the console, the process tables aside: `root` tells whether a root shell ends. */
  method HaltDisplay(console: Console.Console, kernel: Kernel.Kernel, root: bool, refused: bool)
    requires console.Valid() && console.curTermId < 3 && kernel.Valid() && Apart(console, kernel)
    modifies console, console.vram
    ensures console.Valid() && console.Abs() == Terminals.AfterHalt(old(console.Abs()), root, refused)
    ensures kernel.Valid() && kernel.Abs() == old(kernel.Abs())
  {
    console.ExitProgram();
    if root {
      console.AnnounceLastShell();
      if refused {
        console.AnnounceNoSpace();
      }
    }
  }

  /** A root shell runs; its halt restarts it. */
  ghost predicate AtRoot(s: State)
    requires Shaped(s)
  {
    s.curPcb[s.now] == 0
  }

  /** What halt does on the process tables, the console aside, and whether the process was a root shell. */
  method HaltTables(console: Console.Console, kernel: Kernel.Kernel, status: nat, ctx: Context)
    returns (root: bool, o: Observation)
    requires console.Valid() && Inv(kernel.Abs()) && Booted(kernel.Abs()) && Apart(console, kernel)
    modifies kernel, kernel.pageDir
    ensures console.Valid() && console.Abs() == old(console.Abs())
    ensures root == AtRoot(old(kernel.Abs()))
    ensures kernel.Valid() && (kernel.Abs(), o) == HaltOf(old(kernel.Abs()), status, ctx)
  {
    root := kernel.curPcbId[kernel.nowTermId] == 0;
    o := kernel.HaltProcess(status, ctx);
  }

  /**
   halt: the displayed key buffer is cleared and the running process is ended; for a root shell, a
   message goes to the display, and another one when the restart finds no slot.
   */
  method HaltRunning(console: Console.Console, kernel: Kernel.Kernel, status: nat, ctx: Context) returns (o: Observation)
    requires console.Valid() && console.curTermId < 3 && Inv(kernel.Abs()) && Booted(kernel.Abs()) && Apart(console, kernel)
    modifies console, console.vram, kernel, kernel.pageDir
    ensures console.Valid()
    ensures console.Abs() == Terminals.AfterHalt(old(console.Abs()), AtRoot(old(kernel.Abs())), o == Faults)
    ensures kernel.Valid() && (kernel.Abs(), o) == HaltOf(old(kernel.Abs()), status, ctx)
  {
    var root;
    root, o := HaltTables(console, kernel, status, ctx);
    HaltDisplay(console, kernel, root, o == Faults);
  }

  /**
   A halt reaches no terminal but its own if and only if its terminal is displayed, or nothing has been
   typed at the one that is and the process is not a root shell.
   */
  lemma HaltPrivateIff(c: Terminals.State, s: State, status: nat, ctx: Context)
    requires c.Valid() && c.cur < 3 && Inv(s) && Booted(s)
    ensures var ops := Terminals.HaltOps(AtRoot(s), HaltOf(s, status, ctx).1 == Faults);
            && Terminals.CanRun(c, ops)
            && Terminals.Run(c, ops) == Terminals.AfterHalt(c, AtRoot(s), HaltOf(s, status, ctx).1 == Faults)
            && (Terminals.AllAtHome(c, ops) <==> c.cur == c.now || (Terminals.Blank(c.views[c.cur]) && !AtRoot(s)))
  {
    Terminals.HaltAtHomeIff(c, AtRoot(s), HaltOf(s, status, ctx).1 == Faults);
  }

  /**
   The keyboard interrupt: a key changes the displayed view or the display; Ctrl+C then halts the
   process that runs, which need not be one of the terminal displayed.
   */
  method KeyPressed(console: Console.Console, kernel: Kernel.Kernel, code: nat, ctx: Context) returns (o: Observation)
    requires Together(console, kernel)
    modifies console, console.vram, console.backing, kernel, kernel.pageDir
    ensures console.Valid() && kernel.Valid()
    ensures var a := Keyboard.Decode(old(console.mods), code).1; var c := old(console.Abs()); var s := old(kernel.Abs());
            && c.Valid() && Terminals.Enabled(c, Terminals.Key(code))
            && var d := Terminals.Step(c, Terminals.Key(code));
               if a.Interrupt? then
                 && d.cur < 3 && Inv(s) && Booted(s) && (kernel.Abs(), o) == HaltOf(s, 1, ctx)
                 && console.Abs() == Terminals.AfterHalt(d, AtRoot(s), o == Faults)
               else
                 console.Abs() == d && kernel.Abs() == s.(cur := d.cur) && o == Silent
  {
    var ctrlC := HandleKey(console, kernel, code);
    o := Silent;
    if ctrlC {
      o := HaltRunning(console, kernel, 1, ctx);
    }
  }

  /** What the handler does on the console, the process tables aside. */
  method KeyOnConsole(console: Console.Console, kernel: Kernel.Kernel, code: nat) returns (ctrlC: bool)
    requires console.Valid() && console.curTermId < 3 && kernel.Valid()
    modifies console, console.vram, console.backing
    ensures console.Valid() && console.curTermId < 3 && Apart(console, kernel)
    ensures console.Abs() == Terminals.Step(old(console.Abs()), Terminals.Key(code))
    ensures kernel.Valid() && kernel.Abs() == old(kernel.Abs())
    ensures ctrlC == Keyboard.Decode(old(console.mods), code).1.Interrupt?
  {
    SizesTell(console, kernel);
    ctrlC := console.KeyboardInterrupt(code);
    SizesTell(console, kernel);
  }

  /** The handler up to the halt it may end with. */
  method HandleKey(console: Console.Console, kernel: Kernel.Kernel, code: nat) returns (ctrlC: bool)
    requires Together(console, kernel)
    modifies console, console.vram, console.backing, kernel`curTermId
    ensures console.Valid() && console.curTermId < 3 && Apart(console, kernel)
    ensures old(console.Abs()).Valid() && old(console.curTermId) < 3
    ensures console.Abs() == Terminals.Step(old(console.Abs()), Terminals.Key(code))
    ensures Inv(kernel.Abs()) && Booted(kernel.Abs()) && kernel.Abs() == old(kernel.Abs()).(cur := console.curTermId)
    ensures ctrlC == Keyboard.Decode(old(console.mods), code).1.Interrupt?
  {
    StepDefined(kernel.Abs(), Rtc);
    ctrlC := KeyOnConsole(console, kernel, code);
    LearnDisplayed(kernel, console.curTermId);
  }

  /** `cur_term_id` is one variable, which both parts keep. */
  method LearnDisplayed(kernel: Kernel.Kernel, t: nat)
    requires Inv(kernel.Abs()) && Booted(kernel.Abs()) && t < 3
    modifies kernel`curTermId
    ensures kernel.Abs() == old(kernel.Abs()).(cur := t) && Inv(kernel.Abs()) && Booted(kernel.Abs())
  {
    CallStacks.DisplayKeeps(kernel.Abs(), t);
    kernel.curTermId := t;
  }
}
