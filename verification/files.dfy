/**
 read on an open file as a step of the process system, and what a process gets to see of a file it
 reads while others run.
 */
module Files {
  import opened Text
  import opened FileSystem
  import opened Processes
  import opened Runs
  import opened Guarantees
  import opened System
  import opened Records
  import Kernel
  import CallStacks
  import Shortfalls

  /** Descriptor `c` of process `p`. */
  function FdOf(s: State, p: nat, c: nat): Fd
    requires Shaped(s) && p < 256 && c < 8
  {
    s.pcbs[p].fds[c]
  }

  function FdsOf(s: State, p: nat): (r: seq<Fd>)
    requires Shaped(s) && p < 256
    ensures |r| == 8
  {
    s.pcbs[p].fds
  }

  /** Process `p` is live. */
  predicate Lives(s: State, p: nat)
    requires Shaped(s)
  {
    p < 12 && p % 4 <= s.curPcb[p / 4]
  }

  // ---- What closes a descriptor ----

  /** The process whose descriptors a halt of the running one closes the same numbers of. */
  function Below(s: State): (r: nat)
    requires Inv(s) && Booted(s)
    ensures r < 256
  {
    PcbIndex(s.curPcb[s.now] - 1, s.now)
  }

  /** The events that close descriptor `c` of a live process `p`, from 2 up. */
  predicate Closes(s: State, e: Event, p: nat, c: nat)
    requires Inv(s) && Enabled(s, e) && c < 8
  {
    match e
    case CloseCall(n) => p == Running(s) && n == c
    case HaltCall(_, _) => p == Running(s) || (p == Below(s) && FdOf(s, Running(s), c).open)
    case _ => false
  }

  predicate ReadsFrom(s: State, e: Event, p: nat, c: nat)
    requires Inv(s)
  {
    e.FileReadCall? && e.fd == c && p == Running(s)
  }

  /** What an event leaves of an open descriptor that it does not close. */
  function Left(s: State, e: Event, p: nat, c: nat): Fd
    requires Inv(s) && p < 256 && c < 8
  {
    if ReadsFrom(s, e, p, c) then Advanced(FdOf(s, p, c), e.got) else FdOf(s, p, c)
  }

  ghost predicate OpenAt(s: State, p: nat, c: nat)
    requires Shaped(s)
  {
    Lives(s, p) && 2 <= c < 8 && FdOf(s, p, c).open
  }

  /** The descriptor in `r`: closed if `closed` says so, otherwise open, and `f`. */
  ghost predicate Becomes(r: State, p: nat, c: nat, closed: bool, f: Fd)
    requires Shaped(r) && p < 256 && c < 8
  {
    if closed then !FdOf(r, p, c).open else OpenAt(r, p, c) && FdOf(r, p, c) == f
  }

  /** An open descriptor after one event: closed, or read from, or exactly what it was. */
  ghost predicate Settled(s: State, e: Event, p: nat, c: nat)
    requires Inv(s) && Enabled(s, e) && p < 256 && c < 8
  {
    Becomes(Step(s, e).0, p, c, Closes(s, e, p, c), Left(s, e, p, c))
  }

  /**
   No event of any process does anything else to an open descriptor: it stays open exactly unless its
   process closes it or halts, or a process above it halts that has the same number open.
   */
  lemma {:induction false} DescriptorStep(s: State, e: Event, p: nat, c: nat)
    requires Inv(s) && Enabled(s, e) && OpenAt(s, p, c)
    ensures Settled(s, e, p, c)
  {
    match e {
      case ExecuteCall(image, args, ctx) => AfterExecuteCall(s, image, args, ctx, p, c);
      case HaltCall(status, ctx) =>
        if s.curPcb[s.now] > 0 { AfterHaltCall(s, status, ctx, p, c); } else { AfterRootHalt(s, status, ctx, p, c); }
      case Pit(ctx, launchCtx) =>
        if s.curPcb[Next(s.now)] >= 0 { AfterSwitch(s, ctx, launchCtx, p, c); } else { AfterLaunch(s, ctx, launchCtx, p, c); }
      case Rtc => AfterRtc(s, p, c);
      case Display(t) =>
      case _ => AfterCall(s, e, p, c);
    }
  }

  /** The running processes' stacks have not become shorter, and the process has the descriptors it had. */
  lemma Unmoved(s: State, r: State, p: nat, c: nat)
    requires Shaped(s) && Shaped(r) && OpenAt(s, p, c)
    requires (forall t :: 0 <= t < 3 ==> s.curPcb[t] <= r.curPcb[t]) && FdOf(r, p, c) == FdOf(s, p, c)
    ensures Becomes(r, p, c, false, FdOf(s, p, c))
  {
  }

  lemma {:induction false} AfterExecuteCall(s: State, image: Image, args: Args, ctx: Context, p: nat, c: nat)
    requires Inv(s) && Enabled(s, ExecuteCall(image, args, ctx)) && OpenAt(s, p, c)
    ensures Settled(s, ExecuteCall(image, args, ctx), p, c)
  {
    ExecuteLeaves(s, image, args, ctx, p, c);
    Unmoved(s, Execute(s, image, args, ctx).0, p, c);
  }

  lemma {:induction false} ExecuteLeaves(s: State, image: Image, args: Args, ctx: Context, p: nat, c: nat)
    requires Inv(s) && Enabled(s, ExecuteCall(image, args, ctx)) && OpenAt(s, p, c)
    ensures var r := Execute(s, image, args, ctx).0;
            FdOf(r, p, c) == FdOf(s, p, c) && forall t :: 0 <= t < 3 ==> s.curPcb[t] <= r.curPcb[t]
  {
    SlotIsNext(s);
    if image == Loadable && Slot(s) < 4 {
      ExecuteKeeps(s, image, args, ctx);
      assert p != s.curPcb[s.cur] + 1 + 4 * s.cur;
    }
  }

  /** A halt closes all descriptors of its own process, and those of the same numbers below it. */
  lemma HaltedDescriptor(pcbs: seq<Pcb>, id: nat, below: nat, p: nat, c: nat)
    requires |pcbs| == 256 && id < 256 && below < 256 && id != below && p < 256 && 2 <= c < 8
    requires |pcbs[id].fds| == |pcbs[below].fds| == |pcbs[p].fds| == 8
    ensures var q := HaltedPcbs(pcbs, id, below)[p]; var f := pcbs[p].fds[c];
            && |q.fds| == 8
            && (p == id ==> !q.fds[c].open)
            && (p != id ==> q.fds[c] == if p == below && pcbs[id].fds[c].open then f.(open := false) else f)
  {
  }

  /** The halted process is gone from the top of its stack; or it was a root shell, and another is in its place. */
  lemma HaltBecomes(s: State, r: State, below: nat, p: nat, c: nat)
    requires Inv(s) && Shaped(r) && s.curPcb[s.now] >= 0 && OpenAt(s, p, c)
    requires below < 256 && below != Running(s)
    requires r.curPcb == s.curPcb[s.now := s.curPcb[s.now] - 1] || r.curPcb == s.curPcb
    requires p != Running(s) ==> r.pcbs[p] == HaltedPcbs(s.pcbs, Running(s), below)[p]
    requires p == Running(s) ==> !FdOf(r, p, c).open
    ensures Becomes(r, p, c, p == Running(s) || (p == below && FdOf(s, Running(s), c).open), FdOf(s, p, c))
  {
    HaltedDescriptor(s.pcbs, Running(s), below, p, c);
  }

  lemma {:induction false} AfterHaltCall(s: State, status: nat, ctx: Context, p: nat, c: nat)
    requires Inv(s) && Enabled(s, HaltCall(status, ctx)) && s.curPcb[s.now] > 0 && OpenAt(s, p, c)
    ensures Settled(s, HaltCall(status, ctx), p, c)
  {
    var r := HaltLeaves(s, status, ctx, p, c);
    HaltBecomes(s, r, Below(s), p, c);
  }

  lemma {:induction false} HaltLeaves(s: State, status: nat, ctx: Context, p: nat, c: nat) returns (r: State)
    requires Inv(s) && Enabled(s, HaltCall(status, ctx)) && s.curPcb[s.now] > 0 && OpenAt(s, p, c)
    ensures Shaped(r) && r == Step(s, HaltCall(status, ctx)).0 && Below(s) == Running(s) - 1
    ensures r.curPcb == s.curPcb[s.now := s.curPcb[s.now] - 1]
    ensures r.pcbs == HaltedPcbs(s.pcbs, Running(s), Below(s)) && (p == Running(s) ==> !FdOf(r, p, c).open)
  {
    r := Step(s, HaltCall(status, ctx)).0;
    HaltKeeps(s, status, ctx);
    HaltedDescriptor(s.pcbs, Running(s), Running(s) - 1, p, c);
  }

  lemma {:induction false} AfterRootHalt(s: State, status: nat, ctx: Context, p: nat, c: nat)
    requires Inv(s) && Enabled(s, HaltCall(status, ctx)) && s.curPcb[s.now] == 0 && OpenAt(s, p, c)
    ensures Settled(s, HaltCall(status, ctx), p, c)
  {
    var r, q := RootHaltLeaves(s, status, ctx);
    RestartedDescriptor(HaltedPcbs(s.pcbs, Running(s), Below(s)), r.pcbs, Running(s), q, p, c);
    HaltBecomes(s, r, Below(s), p, c);
  }

  lemma {:induction false} RootHaltLeaves(s: State, status: nat, ctx: Context) returns (r: State, q: Pcb)
    requires Inv(s) && Enabled(s, HaltCall(status, ctx)) && s.curPcb[s.now] == 0
    ensures Shaped(r) && r == Step(s, HaltCall(status, ctx)).0 && r.curPcb == s.curPcb && Below(s) != Running(s)
    ensures r.pcbs == HaltedPcbs(s.pcbs, Running(s), Below(s))[Running(s) := q] && q.fds == FreshFds()
  {
    r := HaltOf(s, status, ctx).0;
    RootHaltKeeps(s, status, ctx);
    q := NewPcb(RootFreed(s).pcbs[4 * s.now], 4 * s.now, s.now, ctx, NO_ARGS);
  }

  lemma RestartedDescriptor(freed: seq<Pcb>, pcbs: seq<Pcb>, id: nat, q: Pcb, p: nat, c: nat)
    requires |freed| == 256 && id < 256 && pcbs == freed[id := q] && q.fds == FreshFds() && p < 256 && 2 <= c < 8
    ensures if p == id then |pcbs[p].fds| == 8 && !pcbs[p].fds[c].open else pcbs[p] == freed[p]
  {
  }

  lemma {:induction false} AfterSwitch(s: State, ctx: Context, launchCtx: Context, p: nat, c: nat)
    requires Inv(s) && s.curPcb[Next(s.now)] >= 0 && OpenAt(s, p, c)
    ensures Settled(s, Pit(ctx, launchCtx), p, c)
  {
    SwitchKeeps(s, ctx, launchCtx);
    Unmoved(s, PitTick(s, ctx, launchCtx).0, p, c);
  }

  lemma {:induction false} AfterLaunch(s: State, ctx: Context, launchCtx: Context, p: nat, c: nat)
    requires Inv(s) && s.curPcb[Next(s.now)] == -1 && OpenAt(s, p, c)
    ensures Settled(s, Pit(ctx, launchCtx), p, c)
  {
    var r, q := LaunchIn(s, ctx, launchCtx);
    NotLaunched(s, p);
    SavedFds(s, ctx, p);
    Unmoved(s, r, p, c);
  }

  lemma NotLaunched(s: State, p: nat)
    requires Inv(s) && s.curPcb[Next(s.now)] == -1 && Lives(s, p)
    ensures p != 4 * Next(s.now)
  {
  }

  lemma SavedFds(s: State, ctx: Context, p: nat)
    requires Shaped(s) && p < 256
    ensures SavedPcbs(s, ctx)[p].fds == s.pcbs[p].fds
  {
  }

  lemma {:induction false} LaunchIn(s: State, ctx: Context, launchCtx: Context) returns (r: State, q: Pcb)
    requires Inv(s) && s.curPcb[Next(s.now)] == -1
    ensures Shaped(r) && r == PitTick(s, ctx, launchCtx).0 && r.curPcb == s.curPcb[Next(s.now) := 0]
    ensures r.pcbs == SavedPcbs(s, ctx)[4 * Next(s.now) := q]
  {
    LaunchKeeps(s, ctx, launchCtx);
    r := PitTick(s, ctx, launchCtx).0;
    q := r.pcbs[4 * Next(s.now)];
  }

  lemma {:induction false} AfterRtc(s: State, p: nat, c: nat)
    requires Inv(s) && OpenAt(s, p, c)
    ensures Settled(s, Rtc, p, c)
  {
    RtcKeeps(s);
    Unmoved(s, RtcTick(s), p, c);
  }

  /** What a call leaves of the descriptor, if it is one of the running process. */
  lemma CallBecomes(s: State, r: State, p: nat, c: nat, closed: bool, f: Fd)
    requires Inv(s) && s.curPcb[s.now] >= 0 && OpenAt(s, p, c) && DescriptorChange(s, r)
    requires p == Running(s) ==> if closed then !r.pcbs[p].fds[c].open else f.open && r.pcbs[p].fds[c] == f
    requires p != Running(s) ==> !closed && f == FdOf(s, p, c)
    ensures Shaped(r) && Becomes(r, p, c, closed, f)
  {
  }

  lemma {:induction false} AfterCall(s: State, e: Event, p: nat, c: nat)
    requires Inv(s) && Enabled(s, e) && CallStacks.IsDescriptorCall(e) && OpenAt(s, p, c)
    ensures Settled(s, e, p, c)
  {
    StepDefined(s, e);
    match e {
      case OpenCall(found, t, inode) =>
        OpenChange(s, found, t, inode);
        OpenLeaves(s, found, t, inode, p, c);
        CallBecomes(s, Open(s, found, t, inode).0, p, c, false, FdOf(s, p, c));
      case CloseCall(n) =>
        CloseChange(s, n);
        CallBecomes(s, Close(s, n).0, p, c, Closes(s, e, p, c), FdOf(s, p, c));
      case FileReadCall(fd, nbytes, got) =>
        FileReadChange(s, fd, nbytes, got);
        CallBecomes(s, FileRead(s, fd, got).0, p, c, false, Left(s, e, p, c));
      case RtcReadCall(fd) =>
        RtcChange(s, fd, 0, 0);
        CallBecomes(s, RtcReadStart(s), p, c, false, FdOf(s, p, c));
      case RtcWriteCall(fd, freq, nbytes) =>
        RtcChange(s, fd, freq, nbytes);
        CallBecomes(s, RtcWrite(s, freq, nbytes).0, p, c, false, FdOf(s, p, c));
    }
  }

  lemma OpenLeaves(s: State, found: bool, t: FileType, inode: nat, p: nat, c: nat)
    requires Inv(s) && s.curPcb[s.now] >= 0 && OpenAt(s, p, c)
    ensures FdOf(Open(s, found, t, inode).0, p, c) == FdOf(s, p, c)
  {
    StepDefined(s, Rtc);
    assert p == Running(s) ==> c != LowestFree(FdsOf(s, p), 0);
  }

  // ---- read ----

  /** The descriptor read is called with is open on a sound file of the volume. */
  ghost predicate OnFile(s: State, v: Volume, fd: int)
    requires Shaped(s)
  {
    0 <= fd < 8 &&
    var f := FdOf(s, Current(s, s.now), fd);
    f.open && f.ops == FileOps && IsWord(f.position) && f.inode < |v.inodes| && Sound(v.disk, v.inodes[f.inode])
  }

  predicate IsOpen(s: State, fd: int)
    requires Shaped(s)
  {
    0 <= fd < 8 && FdOf(s, Current(s, s.now), fd).open
  }

  /**
   read on a descriptor that is closed or open on a file: a bad number, a null buffer or a closed
   descriptor give -1 and change nothing; otherwise it is the read step, and the bytes of the file at
   the descriptor's position are in the buffer.  The PCB read looks the descriptor up in, and the one
   that file_read finds through the stack pointer, are the same in every state of a run.
   */
  method ReadFile(kernel: Kernel.Kernel, v: Volume, fd: int, buf: array?<byte>, nbytes: int) returns (o: Observation)
    requires Inv(kernel.Abs()) && Booted(kernel.Abs()) && IsWord(nbytes)
    requires buf != null ==> buf as object != kernel.pageDir
    requires IsOpen(kernel.Abs(), fd) ==> OnFile(kernel.Abs(), v, fd)
    requires IsOpen(kernel.Abs(), fd) && buf != null ==>
               var f := FdOf(kernel.Abs(), Current(kernel.Abs(), kernel.nowTermId), fd);
               Available(v.inodes[f.inode].size, Unsigned(f.position), Unsigned(nbytes)) <= buf.Length
    modifies kernel`pcbs, buf
    ensures kernel.Valid()
    ensures old(IsOpen(kernel.Abs(), fd)) && buf != null ==>
              var s := old(kernel.Abs()); var f := FdOf(s, Current(s, s.now), fd); var ino := v.inodes[f.inode];
              var e := FileReadCall(fd, nbytes, ReadResult(v.disk, ino, f.position, nbytes));
              && Enabled(s, e) && (kernel.Abs(), o) == Step(s, e)
              && var bytes := ReadAt(Contents(v.disk, ino), Unsigned(f.position), Unsigned(nbytes));
                 forall i :: 0 <= i < buf.Length ==> buf[i] == if i < |bytes| then bytes[i] else old(buf[i])
    ensures !(old(IsOpen(kernel.Abs(), fd)) && buf != null) ==>
              o == Returned(-1) && kernel.Abs() == old(kernel.Abs()) && (buf != null ==> buf[..] == old(buf[..]))
  {
    var c := PcbIndex(kernel.curPcbId[kernel.nowTermId], kernel.nowTermId);
    if fd >= 8 || fd < 0 {
      return Returned(-1);
    }
    if buf == null {
      return Returned(-1);
    }
    var f := kernel.pcbs[c].fds[fd];
    if !f.open {
      return Returned(-1);
    }
    var got := ReadFrom(v.disk, v.inodes[f.inode], f.position, buf, 0, nbytes);
    o := kernel.FileAdvance(fd, got);
  }

  // ---- A file read over a run ----

  ghost predicate StaysOpen(s: State, es: seq<Event>, p: nat, c: nat)
    requires Inv(s) && CanRun(s, es) && c < 8
    decreases |es|
  {
    es == [] || (!Closes(s, es[0], p, c) && StaysOpen(After(s, es[0]), es[1..], p, c))
  }

  /** A read on the descriptor: where it stood, how many bytes were asked for, and what came back. */
  datatype Call = Call(position: int, nbytes: int, got: int)

  /** The reads that `p` makes on `c`. */
  ghost function ReadsOf(s: State, es: seq<Event>, p: nat, c: nat): seq<Call>
    requires Inv(s) && CanRun(s, es) && p < 256 && c < 8
    decreases |es|
  {
    if es == [] then []
    else
      (if ReadsFrom(s, es[0], p, c) then [Call(FdOf(s, p, c).position, es[0].nbytes, es[0].got)] else [])
      + ReadsOf(After(s, es[0]), es[1..], p, c)
  }

  /** Each read starts where the one before left the descriptor, the first at `from`. */
  ghost predicate Linked(calls: seq<Call>, from: int, to: int)
    decreases |calls|
  {
    if calls == [] then from == to
    else calls[0].position == from && IsWord(calls[0].nbytes) && Linked(calls[1..], from + calls[0].got, to)
  }

  /**
   Whatever else happens, as long as nothing closes the descriptor, its position is moved by its own
   process's reads and by nothing else.
   */
  lemma {:induction false} ReadsAreLinked(s: State, es: seq<Event>, p: nat, c: nat)
    requires Inv(s) && CanRun(s, es) && OpenAt(s, p, c) && StaysOpen(s, es, p, c)
    ensures Moved(FdOf(s, p, c), ReadsOf(s, es, p, c), FdOf(Run(s, es), p, c))
    decreases |es|
  {
    if es != [] {
      StillOpen(s, es, p, c);
      ReadsAreLinked(After(s, es[0]), es[1..], p, c);
      OneMore(s, es, p, c);
    }
  }

  /** Only the position differs, and these reads have moved it. */
  ghost predicate Moved(f: Fd, calls: seq<Call>, g: Fd) {
    g == f.(position := g.position) && Linked(calls, f.position, g.position)
  }

  lemma {:induction false} OneMore(s: State, es: seq<Event>, p: nat, c: nat)
    requires Inv(s) && CanRun(s, es) && es != [] && p < 256 && c < 8
    requires FdOf(After(s, es[0]), p, c) == Left(s, es[0], p, c)
    requires Moved(Left(s, es[0], p, c), ReadsOf(After(s, es[0]), es[1..], p, c), FdOf(Run(After(s, es[0]), es[1..]), p, c))
    ensures Moved(FdOf(s, p, c), ReadsOf(s, es, p, c), FdOf(Run(s, es), p, c))
  {
    var rest, g := ReadsOf(After(s, es[0]), es[1..], p, c), FdOf(Run(s, es), p, c);
    if ReadsFrom(s, es[0], p, c) {
      LinkInFront(FdOf(s, p, c), es[0].nbytes, es[0].got, rest, g);
    } else {
      assert [] + rest == rest;
    }
  }

  lemma LinkInFront(f: Fd, nbytes: int, got: int, calls: seq<Call>, g: Fd)
    requires IsWord(nbytes) && Moved(Advanced(f, got), calls, g)
    ensures Moved(f, [Call(f.position, nbytes, got)] + calls, g)
  {
    assert ([Call(f.position, nbytes, got)] + calls)[1..] == calls;
  }

  lemma {:induction false} StillOpen(s: State, es: seq<Event>, p: nat, c: nat)
    requires Inv(s) && CanRun(s, es) && OpenAt(s, p, c) && StaysOpen(s, es, p, c) && es != []
    ensures OpenAt(After(s, es[0]), p, c) && FdOf(After(s, es[0]), p, c) == Left(s, es[0], p, c)
  {
    DescriptorStep(s, es[0], p, c);
  }

  /** Every call is answered from this file, as ReadFile answers it. */
  ghost predicate Answered(calls: seq<Call>, disk: Disk, ino: Inode)
    requires Sound(disk, ino)
  {
    forall i :: 0 <= i < |calls| && IsWord(calls[i].position) && IsWord(calls[i].nbytes) ==>
      calls[i].got == ReadResult(disk, ino, calls[i].position, calls[i].nbytes)
  }

  ghost predicate NoneFails(calls: seq<Call>) {
    forall i :: 0 <= i < |calls| ==> calls[i].got != -1
  }

  /** How many bytes they ask for, and the bytes they put into the process's buffers. */
  function Asked(calls: seq<Call>): seq<nat> {
    if calls == [] then []
    else [if IsWord(calls[0].nbytes) then Unsigned(calls[0].nbytes) else 0] + Asked(calls[1..])
  }

  ghost function BytesRead(calls: seq<Call>, disk: Disk, ino: Inode): seq<byte>
    requires Sound(disk, ino)
  {
    if calls == [] then []
    else
      var n := calls[0];
      (if IsWord(n.position) && IsWord(n.nbytes)
       then ReadAt(Contents(disk, ino), Unsigned(n.position), Unsigned(n.nbytes)) else [])
      + BytesRead(calls[1..], disk, ino)
  }

  /** Linked reads on one file: none fails exactly when it ends safely or none straddles its end. */
  lemma {:induction false} LinkedReads(calls: seq<Call>, from: int, to: int, disk: Disk, ino: Inode)
    requires Sound(disk, ino) && Linked(calls, from, to) && Answered(calls, disk, ino) && 0 <= from <= ino.size
    ensures NoneFails(calls) <==> EndsSafely(disk, ino) || !Straddles(ino.size, from, Asked(calls))
    ensures NoneFails(calls) ==>
              && BytesRead(calls, disk, ino) == ReadChunks(Contents(disk, ino), from, Asked(calls))
              && to == from + |BytesRead(calls, disk, ino)|
    decreases |calls|
  {
    if calls != [] {
      var rest := calls[1..];
      assert calls[0].got == ReadResult(disk, ino, from, calls[0].nbytes);
      assert NoneFails(calls) <==> calls[0].got != -1 && NoneFails(rest);
      if calls[0].got != -1 {
        LinkedReads(rest, from + calls[0].got, to, disk, ino);
      }
      FirstPiece(disk, ino, from, Unsigned(calls[0].nbytes), calls[0].got, Asked(rest), BytesRead(rest, disk, ino),
                 NoneFails(rest));
    }
  }

  /** One read in front of the others. */
  lemma FirstPiece(disk: Disk, ino: Inode, pos: nat, n: nat, got: int, sizes: seq<nat>, bytes: seq<byte>, none: bool)
    requires Sound(disk, ino) && pos <= ino.size
    requires got == if Trapped(disk, ino, pos, n) then -1 else Available(ino.size, pos, n)
    requires got != -1 ==>
               && (none <==> EndsSafely(disk, ino) || !Straddles(ino.size, pos + got, sizes))
               && (none ==> bytes == ReadChunks(Contents(disk, ino), pos + got, sizes))
    ensures got != -1 && none <==> EndsSafely(disk, ino) || !Straddles(ino.size, pos, [n] + sizes)
    ensures got != -1 ==> |ReadAt(Contents(disk, ino), pos, n)| == got
    ensures got != -1 && none ==>
              ReadAt(Contents(disk, ino), pos, n) + bytes == ReadChunks(Contents(disk, ino), pos, [n] + sizes)
  {
    assert got != -1 && none <==> EndsSafely(disk, ino) || !Straddles(ino.size, pos, [n] + sizes) by {
      TrappedIff(disk, ino, pos, n);
      FirstStraddles(ino.size, pos, n, sizes);
    }
    FirstChunk(Contents(disk, ino), pos, n, sizes);
  }

  lemma FirstStraddles(size: nat, pos: nat, n: nat, sizes: seq<nat>)
    requires pos <= size
    ensures Straddles(size, pos, [n] + sizes) <==> pos < size < pos + n || Straddles(size, pos + Available(size, pos, n), sizes)
  {
    assert ([n] + sizes)[0] == n && ([n] + sizes)[1..] == sizes;
  }

  lemma FirstChunk(contents: seq<byte>, pos: nat, n: nat, sizes: seq<nat>)
    requires pos <= |contents|
    ensures var first := ReadAt(contents, pos, n);
            && |first| == Available(|contents|, pos, n)
            && ReadChunks(contents, pos, [n] + sizes) == first + ReadChunks(contents, pos + |first|, sizes)
  {
    assert ([n] + sizes)[0] == n && ([n] + sizes)[1..] == sizes;
  }

  /**
   A process reads on its descriptor while others run: no read of it fails exactly when the file ends
   safely or none of the reads straddles its end, and then the bytes of all of them are one piece of
   the file, from where the descriptor stood to where it stands.
   */
  lemma {:induction false} ReadOverRun(s: State, es: seq<Event>, p: nat, c: nat, disk: Disk, ino: Inode)
    requires Inv(s) && CanRun(s, es) && OpenAt(s, p, c) && StaysOpen(s, es, p, c)
    requires Sound(disk, ino) && 0 <= FdOf(s, p, c).position <= ino.size
    requires Answered(ReadsOf(s, es, p, c), disk, ino)
    ensures var from := FdOf(s, p, c).position; var calls := ReadsOf(s, es, p, c);
            && (NoneFails(calls) <==> EndsSafely(disk, ino) || !Straddles(ino.size, from, Asked(calls)))
            && (NoneFails(calls) ==>
                  var bytes := BytesRead(calls, disk, ino);
                  && bytes == ReadAt(Contents(disk, ino), from, Sum(Asked(calls)))
                  && FdOf(Run(s, es), p, c) == FdOf(s, p, c).(position := from + |bytes|))
  {
    var calls, from := ReadsOf(s, es, p, c), FdOf(s, p, c).position;
    ReadsAreLinked(s, es, p, c);
    LinkedReads(calls, from, FdOf(Run(s, es), p, c).position, disk, ino);
    ChunksAreTheFile(Contents(disk, ino), from, Asked(calls));
  }

  /** Reads that ask for enough, on a descriptor at position 0. */
  lemma {:induction false} WholeFile(s: State, es: seq<Event>, p: nat, c: nat, disk: Disk, ino: Inode)
    requires Inv(s) && CanRun(s, es) && OpenAt(s, p, c) && StaysOpen(s, es, p, c) && FdOf(s, p, c).position == 0
    requires Sound(disk, ino) && EndsSafely(disk, ino) && Answered(ReadsOf(s, es, p, c), disk, ino)
    requires Sum(Asked(ReadsOf(s, es, p, c))) >= ino.size
    ensures NoneFails(ReadsOf(s, es, p, c)) && BytesRead(ReadsOf(s, es, p, c), disk, ino) == Contents(disk, ino)
  {
    ReadOverRun(s, es, p, c, disk, ino);
  }

  /** A read is answered as ReadFile answers it: from the file the descriptor is open on, at its position. */
  ghost predicate AnsweredFrom(f: Fd, nbytes: int, got: int, v: Volume) {
    && f.inode < |v.inodes| && Sound(v.disk, v.inodes[f.inode])
    && (IsWord(f.position) && IsWord(nbytes) ==> got == ReadResult(v.disk, v.inodes[f.inode], f.position, nbytes))
  }

  /** All reads of process `p` on `c` are. */
  ghost predicate Served(s: State, es: seq<Event>, p: nat, c: nat, v: Volume)
    requires Inv(s) && CanRun(s, es) && p < 256 && c < 8
    decreases |es|
  {
    es == [] ||
    ((ReadsFrom(s, es[0], p, c) ==> AnsweredFrom(FdOf(s, p, c), es[0].nbytes, es[0].got, v))
     && Served(After(s, es[0]), es[1..], p, c, v))
  }

  lemma AnsweredMore(first: seq<Call>, rest: seq<Call>, disk: Disk, ino: Inode)
    requires Sound(disk, ino) && Answered(first, disk, ino) && Answered(rest, disk, ino) && |first| <= 1
    ensures Answered(first + rest, disk, ino)
  {
  }

  /** A descriptor that stays open stays on its file. */
  lemma {:induction false} ServedIsAnswered(s: State, es: seq<Event>, p: nat, c: nat, v: Volume)
    requires Inv(s) && CanRun(s, es) && OpenAt(s, p, c) && StaysOpen(s, es, p, c) && Served(s, es, p, c, v)
    requires FdOf(s, p, c).inode < |v.inodes| && Sound(v.disk, v.inodes[FdOf(s, p, c).inode])
    ensures Answered(ReadsOf(s, es, p, c), v.disk, v.inodes[FdOf(s, p, c).inode])
    decreases |es|
  {
    if es != [] {
      var f := FdOf(s, p, c);
      StillOpen(s, es, p, c);
      ServedIsAnswered(After(s, es[0]), es[1..], p, c, v);
      AnsweredMore(if ReadsFrom(s, es[0], p, c) then [Call(f.position, es[0].nbytes, es[0].got)] else [],
                   ReadsOf(After(s, es[0]), es[1..], p, c), v.disk, v.inodes[f.inode]);
    }
  }

  /** An open that gives a descriptor on a file: it is that of the first entry of exactly this name, at position 0. */
  lemma {:induction false} OpenGives(s: State, v: Volume, entries: seq<Entry>, fname: seq<byte>, r: State, c: nat)
    requires Inv(s) && Booted(s) && Stored(v.table, entries) && NUL !in fname && 0 < |fname| <= 32
    requires OpenStep(s, v, fname) == (r, Returned(c))
    ensures var k := FirstNamed(entries, fname, 0);
            && k < 63 && Inv(r) && c < 8 && OpenAt(r, Running(s), c) && FdOf(r, Running(s), c).position == 0
            && (entries[k].fileType == 2 ==> FdOf(r, Running(s), c).inode == entries[k].inode)
  {
    OpenByName(s, v, entries, fname);
    FoundEntry(v.table, entries, fname);
    OpenIsStep(s, v, fname, Found(v.table, fname, 0));
  }

  lemma {:induction false} OpenIsStep(s: State, v: Volume, fname: seq<byte>, k: nat)
    requires Inv(s) && Booted(s) && |v.table| >= 64 * 64 && |v.table| >= 64 * 63 + |fname|
    requires k == Found(v.table, fname, 0) < 63
    ensures Running(s) >= 0 && Running(s) / 4 == s.now && Running(s) % 4 == s.curPcb[s.now]
    ensures var (r, o) := OpenStep(s, v, fname); Inv(r) && r.curPcb == s.curPcb
  {
    var e := OpenCall(true, TypeAt(v.table, k), InodeAt(v.table, k));
    assert OpenStep(s, v, fname).0 == After(s, e);
  }

  /**
   From the name to the bytes: if open gives a descriptor for a name of 1 to 32 bytes, the first entry of
   exactly that name records a file, and nothing closes the descriptor, the process's reads on it, answered
   as ReadFile answers them, have given, put together, once they have asked for enough, exactly the contents
   of the file of the inode number recorded there, in whatever pieces and whatever other processes do.
   */
  lemma {:induction false} OpenThenRead(s: State, v: Volume, entries: seq<Entry>, fname: seq<byte>, r: State, c: nat,
                                        es: seq<Event>, k: nat, ino: Inode)
    requires Inv(s) && Booted(s) && Stored(v.table, entries) && NUL !in fname && 0 < |fname| <= 32
    requires OpenStep(s, v, fname) == (r, Returned(c))
    requires k == FirstNamed(entries, fname, 0) < 63 && entries[k].fileType == 2
    requires entries[k].inode < |v.inodes| && ino == v.inodes[entries[k].inode]
    requires Sound(v.disk, ino) && EndsSafely(v.disk, ino)
    requires Inv(r) && CanRun(r, es) && c < 8 && StaysOpen(r, es, Running(s), c) && Served(r, es, Running(s), c, v)
    requires Sum(Asked(ReadsOf(r, es, Running(s), c))) >= ino.size
    ensures NoneFails(ReadsOf(r, es, Running(s), c))
    ensures BytesRead(ReadsOf(r, es, Running(s), c), v.disk, ino) == Contents(v.disk, ino)
  {
    OpenGives(s, v, entries, fname, r, c);
    ServedIsAnswered(r, es, Running(s), c, v);
    WholeFile(r, es, Running(s), c, v.disk, ino);
  }

  // ---- Such a run ----

  const TICK: Event := Pit(Context(0, 0), Context(0, 0))
  const HELLO: Inode := Inode(5, seq(1024, i => i))

  function HelloDisk(): Disk {
    Disk(1, "hello" + Repeat(NUL, 4091))
  }

  /** The shell of terminal 0 has descriptor 2 open on a file at this position, and each terminal has its shell. */
  ghost predicate Midway(s: State, now: nat, pos: nat) {
    && Inv(s) && s.curPcb == [0, 0, 0] && s.now == now && FdOf(s, 0, 2) == Fd(FileOps, 0, pos, true)
  }

  /** These events can come next, close nothing, and hold these reads. */
  ghost predicate Goes(s: State, es: seq<Event>, calls: seq<Call>) {
    Inv(s) && CanRun(s, es) && StaysOpen(s, es, 0, 2) && ReadsOf(s, es, 0, 2) == calls
  }

  lemma {:induction false} InFront(s: State, e: Event, es: seq<Event>, calls: seq<Call>)
    requires Inv(s) && Enabled(s, e) && !Closes(s, e, 0, 2) && Goes(After(s, e), es, calls)
    ensures Goes(s, [e] + es, (if ReadsFrom(s, e, 0, 2) then [Call(FdOf(s, 0, 2).position, e.nbytes, e.got)] else []) + calls)
  {
    assert ([e] + es)[1..] == es;
  }

  lemma {:induction false} TickOn(s: State, now: nat, pos: nat)
    requires Midway(s, now, pos)
    ensures Midway(After(s, TICK), Next(now), pos)
  {
    DescriptorStep(s, TICK, 0, 2);
    SwitchKeeps(s, Context(0, 0), Context(0, 0));
  }

  lemma {:induction false} ReadOn(s: State, pos: nat, nbytes: nat, got: nat)
    requires Midway(s, 0, pos) && nbytes < 0x8000_0000
    ensures Enabled(s, FileReadCall(2, nbytes, got)) && Midway(After(s, FileReadCall(2, nbytes, got)), 0, pos + got)
  {
    var e := FileReadCall(2, nbytes, got);
    StepDefined(s, e);
    FileReadChange(s, 2, nbytes, got);
    DescriptorStep(s, e, 0, 2);
  }

  lemma {:induction false} TickThen(s: State, es: seq<Event>, calls: seq<Call>)
    requires Inv(s) && Goes(After(s, TICK), es, calls)
    ensures Goes(s, [TICK] + es, calls)
  {
    InFront(s, TICK, es, calls);
    assert [] + calls == calls;
  }

  lemma {:induction false} ReadThen(s: State, pos: nat, nbytes: nat, got: nat, es: seq<Event>, calls: seq<Call>)
    requires Midway(s, 0, pos) && nbytes < 0x8000_0000 && Enabled(s, FileReadCall(2, nbytes, got))
    requires Goes(After(s, FileReadCall(2, nbytes, got)), es, calls)
    ensures Goes(s, [FileReadCall(2, nbytes, got)] + es, [Call(pos, nbytes, got)] + calls)
  {
    InFront(s, FileReadCall(2, nbytes, got), es, calls);
  }

  /** The second read, after a round of the other terminals. */
  lemma {:induction false} RoundAndRead(s: State)
    requires Midway(s, 0, 3)
    ensures Goes(s, [TICK, TICK, TICK, FileReadCall(2, 9, 2)], [Call(3, 9, 2)])
  {
    TickOn(s, 0, 3);
    var s1 := After(s, TICK);
    TickOn(s1, 1, 3);
    var s2 := After(s1, TICK);
    TickOn(s2, 2, 3);
    LastRead(After(s2, TICK));
    TickThen(s2, [FileReadCall(2, 9, 2)], [Call(3, 9, 2)]);
    TickThen(s1, [TICK, FileReadCall(2, 9, 2)], [Call(3, 9, 2)]);
    TickThen(s, [TICK, TICK, FileReadCall(2, 9, 2)], [Call(3, 9, 2)]);
  }

  lemma {:induction false} LastRead(s: State)
    requires Midway(s, 0, 3)
    ensures Goes(s, [FileReadCall(2, 9, 2)], [Call(3, 9, 2)])
  {
    ReadOn(s, 3, 9, 2);
    ReadThen(s, 3, 9, 2, [], []);
  }

  lemma {:induction false} ShellOpens() returns (s: State)
    ensures Shortfalls.Reachable(s) && Midway(s, 0, 0)
  {
    s := Shortfalls.UpAndRunning();
    Shortfalls.ReachStep(s, Shortfalls.OPEN);
    OpensFile(s);
    s := After(s, Shortfalls.OPEN);
  }

  lemma OpensFile(s: State)
    requires Inv(s) && Booted(s) && FdsOf(s, Running(s)) == FreshFds()
    ensures var r := Open(s, true, FileType, 0).0;
            r.curPcb == s.curPcb && r.now == s.now && FdOf(r, Running(s), 2) == Fd(FileOps, 0, 0, true)
  {
    StepDefined(s, Rtc);
    assert LowestFree(FdsOf(s, Running(s)), 0) == 2;
  }

  /** A run in which a shell reads a file in two pieces, with the other terminals in between. */
  lemma {:induction false} HelloInTwoPieces() returns (s: State, es: seq<Event>)
    ensures Shortfalls.Reachable(s) && Midway(s, 0, 0)
    ensures es == [FileReadCall(2, 3, 3), TICK, TICK, TICK, FileReadCall(2, 9, 2)]
    ensures CanRun(s, es) && StaysOpen(s, es, 0, 2) && Sound(HelloDisk(), HELLO)
    ensures Answered(ReadsOf(s, es, 0, 2), HelloDisk(), HELLO)
    ensures BytesRead(ReadsOf(s, es, 0, 2), HelloDisk(), HELLO) == "hello"
  {
    s := ShellOpens();
    es := [FileReadCall(2, 3, 3), TICK, TICK, TICK, FileReadCall(2, 9, 2)];
    TwoReads(s);
    HelloAsked();
    WholeFile(s, es, 0, 2, HelloDisk(), HELLO);
    HelloContents();
  }

  lemma {:induction false} TwoReads(s: State)
    requires Midway(s, 0, 0)
    ensures Goes(s, [FileReadCall(2, 3, 3), TICK, TICK, TICK, FileReadCall(2, 9, 2)], [Call(0, 3, 3), Call(3, 9, 2)])
  {
    ReadOn(s, 0, 3, 3);
    RoundAndRead(After(s, FileReadCall(2, 3, 3)));
    ReadThen(s, 0, 3, 3, [TICK, TICK, TICK, FileReadCall(2, 9, 2)], [Call(3, 9, 2)]);
  }

  lemma HelloAsked()
    ensures var calls := [Call(0, 3, 3), Call(3, 9, 2)];
            Sound(HelloDisk(), HELLO) && Answered(calls, HelloDisk(), HELLO) && Sum(Asked(calls)) == 12
  {
    var calls := [Call(0, 3, 3), Call(3, 9, 2)];
    assert calls[1..] == [Call(3, 9, 2)] && calls[1..][1..] == [];
    assert Asked(calls) == [3, 9] && [3, 9][1..] == [9] && [9][1..] == [];
  }

  lemma HelloContents()
    ensures Sound(HelloDisk(), HELLO) && Contents(HelloDisk(), HELLO) == "hello"
  {
    forall i | 0 <= i < 5 ensures Contents(HelloDisk(), HELLO)[i] == "hello"[i] {
      ContentsAt(HelloDisk(), HELLO, i);
    }
  }
}
