/**
 Processes as a step system: execute, halt, the PIT and RTC ticks, terminal switches and the file
 descriptor calls, on the state the kernel keeps (PCB mask, PCBs, current process of each terminal,
 page directory, TSS).  System calls and interrupts are atomic steps: they run with interrupts off.
 */
module Processes {
  import opened Text
  import opened Paging

  /** A saved kernel stack and base pointer pair. */
  datatype Context = Context(ksp: int, kbp: int)

  // ---- Descriptors ----

  datatype Optable = StdinOps | StdoutOps | RtcOps | DirOps | FileOps | ErrorOps

  datatype Fd = Fd(ops: Optable, inode: nat, position: int, open: bool)

  const CLOSED: Fd := Fd(ErrorOps, 0, 0, false)

  function FreshFds(): (r: seq<Fd>)
    ensures |r| == 8
  {
    [Fd(StdinOps, 0, 0, true), Fd(StdoutOps, 0, 0, true), CLOSED, CLOSED, CLOSED, CLOSED, CLOSED, CLOSED]
  }

  /** The file type found in a directory entry; the kernel does not reject unknown ones. */
  datatype FileType = RtcType | DirType | FileType | OtherType

  /** The lowest closed descriptor from `fd` on, 8 if there is none. */
  function LowestFree(fds: seq<Fd>, fd: nat): (r: nat)
    requires |fds| == 8 && fd <= 8
    ensures fd <= r <= 8 && (r < 8 ==> !fds[r].open)
    ensures forall i :: fd <= i < r ==> fds[i].open
    decreases 8 - fd
  {
    if fd == 8 || !fds[fd].open then fd else LowestFree(fds, fd + 1)
  }

  /** The descriptor as open leaves it. */
  function Opened(old_: Fd, t: FileType, inode: nat): Fd {
    match t
    case RtcType => Fd(RtcOps, 0, 0, true)
    case DirType => Fd(DirOps, 0, 0, true)
    case FileType => Fd(FileOps, inode, 0, true)
    case OtherType => Fd(old_.ops, old_.inode, 0, true)
  }

  // ---- Processes ----

  /** An argument buffer as execute stores it: there is a NUL in it. */
  type Args = s: seq<byte> | NUL in s witness "\0"

  /** That of a program started without arguments. */
  const NO_ARGS: Args := [NUL] + Repeat(NUL, 100)

  datatype Pcb = Pcb(
    processNumber: int, parent: int, termId: nat,
    parentCtx: Context, ctx: Context,
    fds: seq<Fd>, args: seq<byte>,
    rtcCounter: nat, rtcFreq: nat)

  datatype State = State(
    mask: seq<seq<bool>>, curPcb: seq<int>, pcbs: seq<Pcb>,
    now: nat, cur: nat,
    pageDir: seq<bv32>, videoPage: bv32, esp0: bv32)

  /** C's remainder, which has the sign of the dividend. */
  function CMod(a: int, b: int): int
    requires b > 0
  {
    if a >= 0 then a % b else -((-a) % b)
  }

  /** The PCB the kernel addresses for a terminal: the slot and terminal number put together in eight bits. */
  function PcbIndex(curPcb: int, t: nat): (r: nat)
    requires -1 <= curPcb < 4 && t < 3
    ensures r < 256
  {
    if curPcb + 4 * t < 0 then curPcb + 4 * t + 256 else curPcb + 4 * t
  }

  function Ones(row: seq<bool>): nat
    requires |row| == 4
  {
    (if row[0] then 1 else 0) + (if row[1] then 1 else 0) + (if row[2] then 1 else 0) + (if row[3] then 1 else 0)
  }

  /** PCB_total_number. */
  function Total(mask: seq<seq<bool>>): nat
    requires |mask| == 3 && forall t :: 0 <= t < 3 ==> |mask[t]| == 4
  {
    Ones(mask[0]) + Ones(mask[1]) + Ones(mask[2])
  }

  /** The lowest free slot of a terminal from `i` on, 4 if there is none. */
  function FreeSlot(row: seq<bool>, i: nat): (r: nat)
    requires |row| == 4 && i <= 4
    ensures i <= r <= 4 && (r < 4 ==> !row[r])
    ensures forall j :: i <= j < r ==> row[j]
    decreases 4 - i
  {
    if i == 4 || !row[i] then i else FreeSlot(row, i + 1)
  }

  /** The arrays have the sizes they are declared with, and every index the kernel stores is one it declares. */
  ghost predicate Shaped(s: State) {
    && |s.mask| == 3 && (forall t :: 0 <= t < 3 ==> |s.mask[t]| == 4)
    && |s.curPcb| == 3 && (forall t :: 0 <= t < 3 ==> -1 <= s.curPcb[t] < 4)
    && |s.pcbs| == 256 && (forall p :: 0 <= p < 256 ==> |s.pcbs[p].fds| == 8)
    && s.now < 3 && s.cur <= 3
    && |s.pageDir| == 1024
  }

  /** The PCB of terminal `t`'s current process. */
  function Current(s: State, t: nat): (r: nat)
    requires |s.curPcb| == 3 && t < 3 && -1 <= s.curPcb[t] < 4
    ensures r < 256
  {
    PcbIndex(s.curPcb[t], t)
  }

  // ---- Address space ----

  /** pcb_mapping and the TSS update: process `id` becomes the one addressed. */
  function Mapped(s: State, id: nat): State
    requires |s.pageDir| == 1024 && id < 256
  {
    s.(pageDir := s.pageDir[32 := DirectoryEntry(FrameOf(id))], esp0 := StackTop(id))
  }

  /** The page a terminal's user-space video memory is backed by: the display, or its own buffer. */
  function VideoEntry(cur: nat, t: nat): bv32
    requires t < 3
  {
    if cur == t then 0xB8000 | 0x7
    else (if t == 0 then 0xB9000 else if t == 1 then 0xBA000 else 0xBB000) | 0x7
  }

  // ---- execute ----

  /** What the checks on the named file find. */
  datatype Image = Missing | NotExecutable | BadBlocks | Loadable

  datatype Observation =
    | Refused(code: int)                 // execute returns to its caller
    | Started(id: nat)                   // execute enters a new program
    | Resumed(id: nat, ctx: Context, status: nat)  // halt returns into the parent's execute
    | Switched(id: nat, ctx: Context)    // the PIT resumes a process of the next terminal
    | Skipped                            // the PIT finds the next terminal displayed but empty
    | Returned(code: int)                // a descriptor call
    | Faults                             // halt goes on with a PCB address that is not mapped
    | Silent

  /** PCB_process_number: a slot of the displayed terminal, unless it has none or six processes are live. */
  function Slot(s: State): (r: nat)
    requires Shaped(s) && s.cur < 3
    ensures r <= 4 && (r < 4 ==> !s.mask[s.cur][r])
  {
    if Total(s.mask) + 1 > 6 then 4 else FreeSlot(s.mask[s.cur], 0)
  }

  function NewPcb(old_: Pcb, id: nat, t: nat, ctx: Context, args: Args): Pcb {
    old_.(processNumber := id, parent := if id % 4 == 0 then -1 else id - 1, termId := t,
      parentCtx := ctx, fds := FreshFds(), args := args)
  }

  function Execute(s: State, image: Image, args: Args, ctx: Context): (r: (State, Observation))
    requires Shaped(s) && s.cur < 3
    ensures Shaped(r.0)
  {
    if image == Missing || image == NotExecutable then (s, Refused(-1))
    else
      var slot := Slot(s);
      if slot == 4 then (s, Refused(0))
      else
        var id := slot + 4 * s.cur;
        var claimed := s.(mask := s.mask[s.cur := s.mask[s.cur][slot := true]],
                          pageDir := s.pageDir[32 := DirectoryEntry(FrameOf(id))]);
        if image == BadBlocks then (claimed, Refused(-1))
        else
          (Mapped(claimed, id).(
             pcbs := s.pcbs[id := NewPcb(s.pcbs[id], id, s.cur, ctx, args)],
             curPcb := s.curPcb[s.cur := id % 4]),
           Started(id))
  }

  // ---- halt ----

  /** The halting process's own table: everything closed. */
  function AllClosed(fds: seq<Fd>): (r: seq<Fd>)
    requires |fds| == 8
    ensures |r| == 8
  {
    seq(8, i requires 0 <= i < 8 => fds[i].(ops := ErrorOps, open := false))
  }

  /** What halt does to the table it closes through, which by then is the parent's. */
  function ClosedThrough(own: seq<Fd>, through: seq<Fd>): (r: seq<Fd>)
    requires |own| == |through| == 8
    ensures |r| == 8
  {
    seq(8, i requires 0 <= i < 8 => if i >= 2 && own[i].open then through[i].(open := false) else through[i])
  }

  /** A root shell is restarted; when execute refuses, halt goes on as if the process had a parent. */
  function Halt(s: State, status: nat, ctx: Context): (r: (State, Observation))
    requires Shaped(s) && s.cur < 3
    requires 0 <= s.pcbs[Current(s, s.now)].processNumber < 12
    requires -1 <= s.pcbs[Current(s, s.now)].parent < 12
    ensures Shaped(r.0)
  {
    var c := Current(s, s.now);
    var own := s.pcbs[c];
    var slot := CMod(own.parent, 4);
    var d := PcbIndex(slot, s.now);
    var n := own.processNumber;
    var closed := s.pcbs[d := s.pcbs[d].(fds := ClosedThrough(own.fds, s.pcbs[d].fds))]
                       [c := own.(fds := AllClosed(own.fds))];
    var freed := s.(curPcb := s.curPcb[s.now := slot],
                    mask := s.mask[n / 4 := s.mask[n / 4][n % 4 := false]],
                    pcbs := closed);
    if own.parent == -1 then
      var (r, o) := Execute(freed, Loadable, NO_ARGS, ctx);
      (r, if o.Refused? then Faults else o)
    else
      var parent := freed.pcbs[own.parent].processNumber;
      if 0 <= parent < 256 then (Mapped(freed, parent), Resumed(parent, own.parentCtx, status))
      else (freed, Resumed(0, own.parentCtx, status))
  }

  // ---- Interrupts ----

  /** Round robin. */
  function Next(t: nat): (r: nat)
    requires t < 3
    ensures r < 3 && r != t
  {
    (t + 1) % 3
  }

  function PitTick(s: State, ctx: Context, launchCtx: Context): (r: (State, Observation))
    requires Shaped(s)
    ensures Shaped(r.0)
  {
    var next := Next(s.now);
    var left := Current(s, s.now);
    var saved := s.(pcbs := s.pcbs[left := s.pcbs[left].(ctx := ctx)], now := next);
    if s.curPcb[next] == -1 then
      if next == s.cur then (saved, Skipped)
      else Execute(saved.(cur := next), Loadable, NO_ARGS, launchCtx)
    else
      var id := s.curPcb[next] + 4 * next;
      (Mapped(saved, id).(videoPage := VideoEntry(s.cur, next)), Switched(id, saved.pcbs[id].ctx))
  }

  function Ticked(pcbs: seq<Pcb>, p: nat): (r: seq<Pcb>)
    requires |pcbs| == 256 && p < 256
    ensures |r| == 256
  {
    if pcbs[p].rtcCounter > 0 then pcbs[p := pcbs[p].(rtcCounter := pcbs[p].rtcCounter - 1)] else pcbs
  }

  /** rtc_interrupt_handler: one count off the current process of each terminal. */
  function RtcTick(s: State): (r: State)
    requires Shaped(s)
    ensures Shaped(r)
  {
    s.(pcbs := Ticked(Ticked(Ticked(s.pcbs, Current(s, 0)), Current(s, 1)), Current(s, 2)))
  }

  // ---- Descriptor calls of the running process ----

  function OnCurrent(s: State, q: Pcb): State
    requires Shaped(s)
  {
    s.(pcbs := s.pcbs[Current(s, s.now) := q])
  }

  function Open(s: State, found: bool, t: FileType, inode: nat): (r: (State, Observation))
    requires Shaped(s)
    ensures Shaped(r.0)
  {
    var p := s.pcbs[Current(s, s.now)];
    var fd := LowestFree(p.fds, 0);
    if !found || fd == 8 then (s, Returned(-1))
    else
      var q := p.(fds := p.fds[fd := Opened(p.fds[fd], t, inode)]);
      (OnCurrent(s, if t == RtcType then q.(rtcFreq := 2, rtcCounter := 512) else q), Returned(fd))
  }

  /** The return value of an optable's close: 0, or -1 from the error table. */
  function CloseCode(ops: Optable): int {
    if ops == ErrorOps then -1 else 0
  }

  function Close(s: State, fd: int): (r: (State, Observation))
    requires Shaped(s)
    ensures Shaped(r.0)
  {
    var p := s.pcbs[Current(s, s.now)];
    if fd >= 8 || fd < 2 || !p.fds[fd].open then (s, Returned(-1))
    else
      (OnCurrent(s, p.(fds := p.fds[fd := p.fds[fd].(open := false)])), Returned(CloseCode(p.fds[fd].ops)))
  }

  /** file_read, which has read `got` bytes of the file on `fd`, or -1: the result is added to the position. */
  function FileRead(s: State, fd: nat, got: int): (r: (State, Observation))
    requires Shaped(s) && fd < 8
    ensures Shaped(r.0)
  {
    var p := s.pcbs[Current(s, s.now)];
    (OnCurrent(s, p.(fds := p.fds[fd := Advanced(p.fds[fd], got)])), Returned(got))
  }

  function Advanced(f: Fd, got: int): Fd {
    f.(position := f.position + got)
  }

  /** rtc_read up to its wait: the counter is loaded. */
  function RtcReadStart(s: State): (r: State)
    requires Shaped(s) && s.pcbs[Current(s, s.now)].rtcFreq > 0
    ensures Shaped(r)
  {
    var p := s.pcbs[Current(s, s.now)];
    OnCurrent(s, p.(rtcCounter := 1024 / p.rtcFreq))
  }

  /** The test of rtc_write on a frequency word; a negative one has its top bit set and is above 1024. */
  predicate AcceptedFreq(freq: bv32) {
    freq != 0 && freq & (freq - 1) == 0 && freq <= 1024 && freq > 1
  }

  /** The powers of two from 2 to 1024. */
  predicate ValidFreq(freq: nat) {
    freq == 2 || freq == 4 || freq == 8 || freq == 16 || freq == 32 || freq == 64 ||
    freq == 128 || freq == 256 || freq == 512 || freq == 1024
  }

  /** The bit test accepts exactly the powers of two from 2 to 1024. */
  lemma AcceptedBits(f: bv32)
    ensures AcceptedFreq(f) <==> f == 2 || f == 4 || f == 8 || f == 16 || f == 32 || f == 64 ||
                                 f == 128 || f == 256 || f == 512 || f == 1024
  {
  }

  /** An accepted frequency divides 1024, so the wait of rtc_read is exact. */
  lemma AcceptedDivides(f: bv32)
    requires AcceptedFreq(f)
    ensures ValidFreq(f as int) && 1024 % (f as int) == 0
  {
    AcceptedBits(f);
  }

  /** rtc_write: the frequency is taken if it passes the test and four bytes were written. */
  function RtcWrite(s: State, freq: bv32, nbytes: int): (r: (State, Observation))
    requires Shaped(s)
    ensures Shaped(r.0)
  {
    if AcceptedFreq(freq) && nbytes == 4 then
      (OnCurrent(s, s.pcbs[Current(s, s.now)].(rtcFreq := freq as int)), Returned(0))
    else (s, Returned(-1))
  }
}
