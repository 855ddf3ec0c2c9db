/**
 The steps of the process system as events, the environment they are enabled in, and the invariant
 every enabled step keeps.
 */
module Runs {
  import opened Text
  import opened Paging
  import opened Processes

  datatype Event =
    | ExecuteCall(image: Image, args: Args, ctx: Context)
    | HaltCall(status: nat, ctx: Context)
    | Pit(ctx: Context, launchCtx: Context)
    | Rtc
    | Display(t: nat)
    | OpenCall(found: bool, fileType: FileType, inode: nat)
    | CloseCall(n: int)
    | FileReadCall(fd: nat, nbytes: int, got: int)
    | RtcReadCall(fd: nat)
    | RtcWriteCall(fd: nat, freq: bv32, nbytes: int)

  /** Every terminal has a process. */
  predicate Booted(s: State)
    requires Shaped(s)
  {
    forall t :: 0 <= t < 3 ==> s.curPcb[t] >= 0
  }

  /** The running process has a device or file of this kind open on `fd`. */
  predicate HasOpen(s: State, fd: nat, ops: Optable)
    requires Shaped(s)
  {
    var p := s.pcbs[Current(s, s.now)];
    fd < 8 && p.fds[fd].open && p.fds[fd].ops == ops
  }

  predicate HasRtc(s: State, fd: nat)
    requires Shaped(s)
  {
    HasOpen(s, fd, RtcOps)
  }

  /**
   The environment: before every terminal has its shell only the two timers act; programs are loaded
   from sound files; execute, and the halt of a root shell, which executes a new one, happen on the
   terminal displayed, because execute takes its slot there.
   */
  predicate Enabled(s: State, e: Event)
    requires Shaped(s)
  {
    match e
    case Pit(_, _) => true
    case Rtc => true
    case ExecuteCall(image, _, _) => Booted(s) && s.now == s.cur && image != BadBlocks
    case HaltCall(_, _) => Booted(s) && (s.curPcb[s.now] == 0 ==> s.now == s.cur)
    case Display(t) => Booted(s) && t < 3
    case OpenCall(_, _, _) => Booted(s)
    case CloseCall(_) => Booted(s)
    case FileReadCall(fd, nbytes, _) =>
      Booted(s) && HasOpen(s, fd, FileOps) && -0x8000_0000 <= nbytes < 0x8000_0000
    case RtcReadCall(fd) => Booted(s) && HasRtc(s, fd)
    case RtcWriteCall(fd, _, _) => Booted(s) && HasRtc(s, fd)
  }

  // ---- The invariant ----

  const STDIN: Fd := Fd(StdinOps, 0, 0, true)
  const STDOUT: Fd := Fd(StdoutOps, 0, 0, true)

  ghost predicate PcbOk(q: Pcb, p: nat) {
    && q.processNumber == p && q.termId == p / 4
    && q.parent == (if p % 4 == 0 then -1 else p - 1)
    && |q.fds| == 8 && q.fds[0] == STDIN && q.fds[1] == STDOUT && NUL in q.args
    && forall i :: 0 <= i < 8 ==> q.fds[i].ops == RtcOps ==> ValidFreq(q.rtcFreq)
  }

  /** In each terminal the live slots are exactly 0 up to the current one. */
  ghost predicate LiveSlots(s: State)
    requires Shaped(s)
  {
    forall t, i :: 0 <= t < 3 && 0 <= i < 4 ==> s.mask[t][i] == (i <= s.curPcb[t])
  }

  /** The id of the running process. */
  function Running(s: State): int
    requires Shaped(s)
  {
    s.curPcb[s.now] + 4 * s.now
  }

  /** The 128 MB page and the kernel stack are those of process `id`. */
  ghost predicate Addresses(s: State, id: nat)
    requires Shaped(s) && id < 12
  {
    s.pageDir[32] == DirectoryEntry(FrameOf(id)) && s.esp0 == StackTop(id)
  }

  /** The four stages of start-up: one shell more with each PIT tick. */
  ghost predicate Stage(s: State)
    requires Shaped(s)
  {
    || (Booted(s) && s.cur < 3)
    || (s.curPcb == [-1, -1, -1] && s.now == 0 && s.cur == 3)
    || (s.curPcb == [-1, 0, -1] && s.now == 1 && s.cur == 1)
    || (s.curPcb == [-1, 0, 0] && s.now == 2 && s.cur == 2)
  }

  /** The PCBs of the live processes say who they are. */
  ghost predicate PcbsOk(pcbs: seq<Pcb>, curPcb: seq<int>)
    requires |pcbs| == 256 && |curPcb| == 3
  {
    forall p :: 0 <= p < 12 && p % 4 <= curPcb[p / 4] ==> PcbOk(pcbs[p], p)
  }

  ghost predicate Inv(s: State) {
    && Shaped(s) && Stage(s) && LiveSlots(s) && Total(s.mask) <= 6
    && PcbsOk(s.pcbs, s.curPcb)
    && (s.curPcb[s.now] >= 0 ==> Addresses(s, Running(s)))
  }

  /** One PCB changed, and possibly one terminal's stack of processes made shorter or longer. */
  lemma PcbsOkUpdate(pcbs: seq<Pcb>, curPcb: seq<int>, i: nat, q: Pcb, newCur: seq<int>)
    requires |pcbs| == 256 && |curPcb| == |newCur| == 3 && i < 256 && PcbsOk(pcbs, curPcb)
    requires forall p :: 0 <= p < 12 && p != i && p % 4 <= newCur[p / 4] ==> p % 4 <= curPcb[p / 4]
    requires i < 12 && i % 4 <= newCur[i / 4] ==> PcbOk(q, i)
    ensures PcbsOk(pcbs[i := q], newCur)
  {
  }

  /** The live slots of a row that is live exactly up to `k` are `k + 1`. */
  lemma OnesOfPrefix(row: seq<bool>, k: int)
    requires |row| == 4 && -1 <= k < 4
    requires forall i :: 0 <= i < 4 ==> row[i] == (i <= k)
    ensures Ones(row) == k + 1
  {
  }

  lemma TotalIsDepths(s: State)
    requires Shaped(s) && LiveSlots(s)
    ensures Total(s.mask) == s.curPcb[0] + s.curPcb[1] + s.curPcb[2] + 3
  {
    OnesOfPrefix(s.mask[0], s.curPcb[0]);
    OnesOfPrefix(s.mask[1], s.curPcb[1]);
    OnesOfPrefix(s.mask[2], s.curPcb[2]);
  }

  /** The slot execute gets is the one above the terminal's current process. */
  lemma SlotIsNext(s: State)
    requires Shaped(s) && LiveSlots(s) && s.cur < 3
    ensures Slot(s) == if Total(s.mask) + 1 > 6 then 4 else s.curPcb[s.cur] + 1
  {
  }

  function Step(s: State, e: Event): (r: (State, Observation))
    requires Inv(s) && Enabled(s, e)
    ensures Shaped(r.0)
  {
    StepDefined(s, e);
    match e
    case ExecuteCall(image, args, ctx) => Execute(s, image, args, ctx)
    case HaltCall(status, ctx) => Halt(s, status, ctx)
    case Pit(ctx, launchCtx) => PitTick(s, ctx, launchCtx)
    case Rtc => (RtcTick(s), Silent)
    case Display(t) => (s.(cur := t), Silent)
    case OpenCall(found, t, inode) => Open(s, found, t, inode)
    case CloseCall(n) => Close(s, n)
    case FileReadCall(fd, _, got) => FileRead(s, fd, got)
    case RtcReadCall(_) => (RtcReadStart(s), Silent)
    case RtcWriteCall(_, freq, nbytes) => RtcWrite(s, freq, nbytes)
  }

  /** An enabled step finds the current process where it looks for it. */
  lemma StepDefined(s: State, e: Event)
    requires Inv(s)
    ensures s.curPcb[s.now] >= 0 ==> Current(s, s.now) == Running(s) && PcbOk(s.pcbs[Running(s)], Running(s))
    ensures Booted(s) ==> s.cur < 3
  {
    if s.curPcb[s.now] >= 0 {
      var id := Running(s);
      assert id % 4 == s.curPcb[s.now] && id / 4 == s.now;
      assert PcbOk(s.pcbs[id], id);
    }
  }

  // ---- Every step keeps the invariant ----

  /** The mask with the next slot of a terminal taken. */
  lemma LiveSlotsPush(s: State, t: nat, r: State)
    requires Shaped(s) && LiveSlots(s) && t < 3 && s.curPcb[t] < 3
    requires Shaped(r) && r.curPcb == s.curPcb[t := s.curPcb[t] + 1]
    requires r.mask == s.mask[t := s.mask[t][s.curPcb[t] + 1 := true]]
    ensures LiveSlots(r) && Total(r.mask) == Total(s.mask) + 1
  {
    TotalIsDepths(s);
    TotalIsDepths(r);
  }

  /** The mask with the top slot of a terminal given back. */
  lemma LiveSlotsPop(s: State, t: nat, r: State)
    requires Shaped(s) && LiveSlots(s) && t < 3 && s.curPcb[t] >= 0
    requires Shaped(r) && r.curPcb == s.curPcb[t := s.curPcb[t] - 1]
    requires r.mask == s.mask[t := s.mask[t][s.curPcb[t] := false]]
    ensures LiveSlots(r) && Total(r.mask) == Total(s.mask) - 1
  {
    TotalIsDepths(s);
    TotalIsDepths(r);
  }

  /** What a successful execute leaves, field by field. */
  lemma ExecuteStarted(s: State, args: Args, ctx: Context)
    requires Shaped(s) && s.cur < 3 && Slot(s) < 4
    ensures var slot := Slot(s); var id := slot + 4 * s.cur;
            Execute(s, Loadable, args, ctx) ==
            (State(s.mask[s.cur := s.mask[s.cur][slot := true]], s.curPcb[s.cur := id % 4],
                   s.pcbs[id := NewPcb(s.pcbs[id], id, s.cur, ctx, args)], s.now, s.cur,
                   s.pageDir[32 := DirectoryEntry(FrameOf(id))], s.videoPage, StackTop(id)),
             Started(id))
  {
    var id := Slot(s) + 4 * s.cur;
    var entry := DirectoryEntry(FrameOf(id));
    assert s.pageDir[32 := entry][32 := entry] == s.pageDir[32 := entry];
  }

  lemma {:induction false} ExecuteKeeps(s: State, image: Image, args: Args, ctx: Context)
    requires Shaped(s) && s.cur < 3 && s.now == s.cur && LiveSlots(s) && Total(s.mask) <= 6
    requires PcbsOk(s.pcbs, s.curPcb)
    requires image == Loadable && Slot(s) < 4
    ensures var (r, o) := Execute(s, image, args, ctx); var id := s.curPcb[s.cur] + 1 + 4 * s.cur;
            && o == Started(id) && id < 12 && r.now == s.now && r.cur == s.cur
            && r.curPcb == s.curPcb[s.cur := s.curPcb[s.cur] + 1]
            && LiveSlots(r) && Total(r.mask) == Total(s.mask) + 1 <= 6
            && PcbsOk(r.pcbs, r.curPcb) && Addresses(r, id)
            && r.pcbs == s.pcbs[id := NewPcb(s.pcbs[id], id, s.cur, ctx, args)]
  {
    SlotIsNext(s);
    var r := Execute(s, image, args, ctx).0;
    var id := s.curPcb[s.cur] + 1 + 4 * s.cur;
    LiveSlotsPush(s, s.cur, r);
    PcbsOkUpdate(s.pcbs, s.curPcb, id, NewPcb(s.pcbs[id], id, s.cur, ctx, args), r.curPcb);
  }

  /** Closing descriptors from 2 up leaves a PCB what it was. */
  lemma ClosedThroughOk(q: Pcb, p: nat, own: seq<Fd>)
    requires PcbOk(q, p) && |own| == 8
    ensures PcbOk(q.(fds := ClosedThrough(own, q.fds)), p)
  {
  }

  /** The PCBs after a halt: the process below has had descriptors closed, the halted one all of them. */
  function HaltedPcbs(pcbs: seq<Pcb>, id: nat, below: nat): (r: seq<Pcb>)
    requires |pcbs| == 256 && id < 256 && below < 256
    requires |pcbs[id].fds| == |pcbs[below].fds| == 8
    ensures |r| == 256
  {
    pcbs[below := pcbs[below].(fds := ClosedThrough(pcbs[id].fds, pcbs[below].fds))]
        [id := pcbs[id].(fds := AllClosed(pcbs[id].fds))]
  }

  lemma HaltedPcbsOk(pcbs: seq<Pcb>, curPcb: seq<int>, id: nat, below: nat, newCur: seq<int>)
    requires |pcbs| == 256 && |curPcb| == |newCur| == 3 && id < 12 && below < 256 && below != id
    requires |pcbs[id].fds| == |pcbs[below].fds| == 8 && PcbsOk(pcbs, curPcb)
    requires newCur == curPcb[id / 4 := id % 4 - 1] && curPcb[id / 4] == id % 4
    ensures PcbsOk(HaltedPcbs(pcbs, id, below), newCur)
  {
    var q := pcbs[below].(fds := ClosedThrough(pcbs[id].fds, pcbs[below].fds));
    if below < 12 && below % 4 <= curPcb[below / 4] {
      assert PcbOk(pcbs[below], below);
      ClosedThroughOk(pcbs[below], below, pcbs[id].fds);
    }
    PcbsOkUpdate(pcbs, curPcb, below, q, curPcb);
    PcbsOkUpdate(pcbs[below := q], curPcb, id, pcbs[id].(fds := AllClosed(pcbs[id].fds)), newCur);
  }

  /** The state the halt of a process above the root leaves. */
  function Halted(s: State): (r: State)
    requires Inv(s) && Booted(s) && s.curPcb[s.now] > 0
    ensures Shaped(r)
  {
    var id := Running(s);
    Mapped(s.(curPcb := s.curPcb[s.now := s.curPcb[s.now] - 1],
              mask := s.mask[s.now := s.mask[s.now][s.curPcb[s.now] := false]],
              pcbs := HaltedPcbs(s.pcbs, id, id - 1)), id - 1)
  }

  /** The halt step of a reachable state. */
  function HaltOf(s: State, status: nat, ctx: Context): (State, Observation)
    requires Inv(s) && Booted(s)
  {
    StepDefined(s, HaltCall(status, ctx));
    Halt(s, status, ctx)
  }

  /** Where halt looks, in the PCB of a process above the root, for the slots it frees and returns to. */
  lemma HaltLooks(s: State)
    requires Inv(s) && Booted(s) && s.curPcb[s.now] > 0
    ensures var id := Running(s);
            && Current(s, s.now) == id && PcbIndex(s.curPcb[s.now] - 1, s.now) == id - 1
            && s.pcbs[id].processNumber == id && id / 4 == s.now && id % 4 == s.curPcb[s.now]
            && s.pcbs[id].parent == id - 1 && CMod(id - 1, 4) == s.curPcb[s.now] - 1
            && s.pcbs[id - 1].processNumber == id - 1
  {
    StepDefined(s, Rtc);
    assert PcbOk(s.pcbs[Running(s) - 1], Running(s) - 1);
  }

  lemma {:induction false} HaltIs(s: State, status: nat, ctx: Context)
    requires Inv(s) && Booted(s) && s.curPcb[s.now] > 0
    ensures Halt(s, status, ctx) ==
            (Halted(s), Resumed(Running(s) - 1, s.pcbs[Running(s)].parentCtx, status))
  {
    HaltLooks(s);
  }

  lemma HaltedSlots(s: State)
    requires Inv(s) && Booted(s) && s.curPcb[s.now] > 0
    ensures LiveSlots(Halted(s)) && Total(Halted(s).mask) <= 6
  {
    LiveSlotsPop(s, s.now, Halted(s));
  }

  lemma {:induction false} HaltedProcesses(s: State)
    requires Inv(s) && Booted(s) && s.curPcb[s.now] > 0
    ensures PcbsOk(Halted(s).pcbs, Halted(s).curPcb)
  {
    var id := Running(s);
    assert id / 4 == s.now && id % 4 == s.curPcb[s.now];
    HaltedPcbsOk(s.pcbs, s.curPcb, id, id - 1, Halted(s).curPcb);
  }

  lemma {:induction false} HaltedInv(s: State)
    requires Inv(s) && Booted(s) && s.curPcb[s.now] > 0
    ensures Inv(Halted(s)) && Running(Halted(s)) == Running(s) - 1
  {
    HaltedProcesses(s);
    HaltedSlots(s);
    assert Booted(Halted(s));
  }

  /** A process that is not the first of its terminal hands everything back to the one below it. */
  lemma {:induction false} HaltKeeps(s: State, status: nat, ctx: Context)
    requires Inv(s) && Booted(s) && s.curPcb[s.now] > 0
    ensures var (r, o) := Halt(s, status, ctx); var id := Running(s);
            && o == Resumed(id - 1, s.pcbs[id].parentCtx, status)
            && r.now == s.now && r.cur == s.cur && r.curPcb == s.curPcb[s.now := s.curPcb[s.now] - 1]
            && Inv(r) && Running(r) == id - 1
            && r.pcbs == HaltedPcbs(s.pcbs, id, id - 1)
  {
    HaltIs(s, status, ctx);
    HaltedInv(s);
  }

  /** The state halt leaves before it restarts a root shell. */
  function RootFreed(s: State): (r: State)
    requires Inv(s) && Booted(s) && s.curPcb[s.now] == 0
    ensures Shaped(r)
  {
    s.(curPcb := s.curPcb[s.now := -1],
       mask := s.mask[s.now := s.mask[s.now][0 := false]],
       pcbs := HaltedPcbs(s.pcbs, 4 * s.now, PcbIndex(-1, s.now)))
  }

  lemma RootHaltIs(s: State, status: nat, ctx: Context)
    requires Inv(s) && Booted(s) && s.curPcb[s.now] == 0
    ensures var (r, o) := Execute(RootFreed(s), Loadable, NO_ARGS, ctx);
            Halt(s, status, ctx) == (r, if o.Refused? then Faults else o)
  {
    StepDefined(s, HaltCall(status, ctx));
    assert s.pcbs[Running(s)].parent == -1 && CMod(-1, 4) == -1;
  }

  lemma RootFreedReady(s: State)
    requires Inv(s) && Booted(s) && s.curPcb[s.now] == 0 && s.now == s.cur
    ensures var freed := RootFreed(s);
            LiveSlots(freed) && Total(freed.mask) < 6 && PcbsOk(freed.pcbs, freed.curPcb) && Slot(freed) == 0
  {
    var freed := RootFreed(s);
    LiveSlotsPop(s, s.now, freed);
    HaltedPcbsOk(s.pcbs, s.curPcb, 4 * s.now, PcbIndex(-1, s.now), freed.curPcb);
    SlotIsNext(freed);
  }

  lemma {:induction false} RootRestarts(s: State, ctx: Context)
    requires Inv(s) && Booted(s) && s.curPcb[s.now] == 0 && s.now == s.cur
    ensures var freed := RootFreed(s); var id := 4 * s.now; var (r, o) := Execute(freed, Loadable, NO_ARGS, ctx);
            && o == Started(id)
            && r.now == s.now && r.cur == s.cur && r.curPcb == s.curPcb
            && Inv(r)
            && r.pcbs == freed.pcbs[id := NewPcb(freed.pcbs[id], id, s.now, ctx, NO_ARGS)]
  {
    RootFreedReady(s);
    ExecuteKeeps(RootFreed(s), Loadable, NO_ARGS, ctx);
    RestartInv(s, Execute(RootFreed(s), Loadable, NO_ARGS, ctx).0);
  }

  lemma RestartInv(s: State, r: State)
    requires Shaped(s) && Booted(s) && s.now == s.cur < 3 && s.curPcb[s.now] == 0
    requires Shaped(r) && r.now == s.now && r.cur == s.cur && r.curPcb == s.curPcb[s.cur := -1][s.cur := 0]
    requires LiveSlots(r) && Total(r.mask) <= 6 && PcbsOk(r.pcbs, r.curPcb) && Addresses(r, 4 * s.now)
    ensures r.curPcb == s.curPcb && Inv(r)
  {
    assert r.curPcb == s.curPcb;
  }

  /** A root shell that halts is replaced by a new one in the same slot. */
  lemma {:induction false} RootHaltKeeps(s: State, status: nat, ctx: Context)
    requires Inv(s) && Booted(s) && s.curPcb[s.now] == 0 && s.now == s.cur
    ensures var (r, o) := Halt(s, status, ctx); var freed := RootFreed(s); var id := 4 * s.now;
            && o == Started(id)
            && r.now == s.now && r.cur == s.cur && r.curPcb == s.curPcb
            && Inv(r)
            && r.pcbs == freed.pcbs[id := NewPcb(freed.pcbs[id], id, s.now, ctx, NO_ARGS)]
  {
    RootHaltIs(s, status, ctx);
    RootRestarts(s, ctx);
  }

  /** The PCBs after the PIT has saved the context of the process it interrupts. */
  function SavedPcbs(s: State, ctx: Context): (r: seq<Pcb>)
    requires Shaped(s)
    ensures |r| == 256
  {
    s.pcbs[Current(s, s.now) := s.pcbs[Current(s, s.now)].(ctx := ctx)]
  }

  lemma SavedPcbsOk(s: State, ctx: Context)
    requires Inv(s)
    ensures PcbsOk(SavedPcbs(s, ctx), s.curPcb)
  {
    var left := Current(s, s.now);
    if left < 12 && left % 4 <= s.curPcb[left / 4] {
      assert PcbOk(s.pcbs[left], left);
    }
    PcbsOkUpdate(s.pcbs, s.curPcb, left, s.pcbs[left].(ctx := ctx), s.curPcb);
  }

  /** A tick that finds a process in the next terminal resumes the context saved there. */
  lemma SwitchKeeps(s: State, ctx: Context, launchCtx: Context)
    requires Inv(s) && s.curPcb[Next(s.now)] >= 0
    ensures var (r, o) := PitTick(s, ctx, launchCtx); var next := Next(s.now); var id := s.curPcb[next] + 4 * next;
            && o == Switched(id, s.pcbs[id].ctx)
            && r.now == next && r.cur == s.cur && r.curPcb == s.curPcb && Inv(r)
            && r.pcbs == SavedPcbs(s, ctx) && r.videoPage == VideoEntry(s.cur, next)
  {
    SavedPcbsOk(s, ctx);
    var r := PitTick(s, ctx, launchCtx).0;
    assert r.mask == s.mask && r.curPcb == s.curPcb;
    assert LiveSlots(r);
    var next := Next(s.now);
    assert Current(s, s.now) != s.curPcb[next] + 4 * next;
  }

  /** The state in which the PIT handler launches a shell. */
  function BeforeLaunch(s: State, ctx: Context): (r: State)
    requires Shaped(s)
    ensures Shaped(r)
  {
    var next := Next(s.now);
    s.(pcbs := SavedPcbs(s, ctx), now := next, cur := next)
  }

  lemma LaunchIs(s: State, ctx: Context, launchCtx: Context)
    requires Inv(s) && s.curPcb[Next(s.now)] == -1
    ensures PitTick(s, ctx, launchCtx) == Execute(BeforeLaunch(s, ctx), Loadable, NO_ARGS, launchCtx)
    ensures s.curPcb == [-1, -1, -1] || s.curPcb == [-1, 0, -1] || s.curPcb == [-1, 0, 0]
  {
    assert Next(s.now) != s.cur;
  }

  lemma StageAfterLaunch(s: State, r: State)
    requires Inv(s) && s.curPcb[Next(s.now)] == -1 && Shaped(r)
    requires var next := Next(s.now); r.now == next && r.cur == next && r.curPcb == s.curPcb[next := 0]
    ensures Stage(r)
  {
  }

  /** A tick that finds the next terminal empty launches its shell there. */
  lemma {:induction false} LaunchKeeps(s: State, ctx: Context, launchCtx: Context)
    requires Inv(s) && s.curPcb[Next(s.now)] == -1
    ensures var (r, o) := PitTick(s, ctx, launchCtx); var next := Next(s.now); var id := 4 * next;
            && o == Started(id)
            && r.now == next && r.cur == next && r.curPcb == s.curPcb[next := 0] && Inv(r)
            && r.pcbs == SavedPcbs(s, ctx)[id := NewPcb(SavedPcbs(s, ctx)[id], id, next, launchCtx, NO_ARGS)]
  {
    LaunchIs(s, ctx, launchCtx);
    SavedPcbsOk(s, ctx);
    var saved := BeforeLaunch(s, ctx);
    assert LiveSlots(saved);
    TotalIsDepths(saved);
    SlotIsNext(saved);
    ExecuteKeeps(saved, Loadable, NO_ARGS, launchCtx);
    StageAfterLaunch(s, PitTick(s, ctx, launchCtx).0);
  }

  /** Only the counters of the PCBs differ. */
  ghost predicate OnlyCounters(before: seq<Pcb>, after: seq<Pcb>)
    requires |before| == |after| == 256
  {
    forall p :: 0 <= p < 256 ==> after[p] == before[p].(rtcCounter := after[p].rtcCounter)
  }

  lemma OnlyCountersOk(before: seq<Pcb>, after: seq<Pcb>, curPcb: seq<int>)
    requires |before| == |after| == 256 && |curPcb| == 3
    requires OnlyCounters(before, after) && PcbsOk(before, curPcb)
    ensures PcbsOk(after, curPcb)
  {
    forall p | 0 <= p < 12 && p % 4 <= curPcb[p / 4] ensures PcbOk(after[p], p) {
      assert PcbOk(before[p], p);
    }
  }

  function Less(c: nat): nat {
    if c > 0 then c - 1 else 0
  }

  /** Each terminal that has a process is addressed by its own PCB, and by no other terminal's number. */
  lemma CurrentDistinct(s: State, t: nat, u: nat)
    requires Shaped(s) && Stage(s) && t < 3 && u < 3 && t != u && s.curPcb[t] >= 0
    ensures Current(s, t) == s.curPcb[t] + 4 * t && Current(s, u) != Current(s, t)
  {
  }

  /** The RTC tick touches nothing but counters. */
  lemma {:induction false} RtcKeeps(s: State)
    requires Inv(s)
    ensures var r := RtcTick(s); r == s.(pcbs := r.pcbs) && OnlyCounters(s.pcbs, r.pcbs)
    ensures Inv(RtcTick(s))
  {
    var r := RtcTick(s);
    TickedThree(s.pcbs, Current(s, 0), Current(s, 1), Current(s, 2));
    OnlyCountersOk(s.pcbs, r.pcbs, s.curPcb);
    SamePcbsInv(s, r);
  }

  lemma SamePcbsInv(s: State, r: State)
    requires Inv(s) && |r.pcbs| == 256 && r == s.(pcbs := r.pcbs)
    requires PcbsOk(r.pcbs, s.curPcb) && forall p :: 0 <= p < 256 ==> |r.pcbs[p].fds| == 8
    ensures Inv(r)
  {
    assert LiveSlots(r);
  }

  /** It takes exactly one count off the current process of each terminal that has one. */
  lemma {:induction false} RtcCounts(s: State, t: nat)
    requires Inv(s) && t < 3 && s.curPcb[t] >= 0
    ensures var id := s.curPcb[t] + 4 * t;
            RtcTick(s).pcbs[id].rtcCounter == Less(s.pcbs[id].rtcCounter)
  {
    CurrentDistinct(s, t, (t + 1) % 3);
    CurrentDistinct(s, t, (t + 2) % 3);
    var id := s.curPcb[t] + 4 * t;
    var a, b, c := Current(s, 0), Current(s, 1), Current(s, 2);
    assert if t == 0 then a == id && b != id && c != id else if t == 1 then b == id && a != id && c != id
           else c == id && a != id && b != id;
    TickedOnce(s.pcbs, a, b, c, id);
  }

  lemma TickedOnce(pcbs: seq<Pcb>, a: nat, b: nat, c: nat, p: nat)
    requires |pcbs| == 256 && a < 256 && b < 256 && c < 256
    requires (a == p && b != p && c != p) || (b == p && a != p && c != p) || (c == p && a != p && b != p)
    ensures Ticked(Ticked(Ticked(pcbs, a), b), c)[p].rtcCounter == Less(pcbs[p].rtcCounter)
  {
  }

  lemma TickedThree(pcbs: seq<Pcb>, a: nat, b: nat, c: nat)
    requires |pcbs| == 256 && a < 256 && b < 256 && c < 256
    ensures var r := Ticked(Ticked(Ticked(pcbs, a), b), c);
            OnlyCounters(pcbs, r)
  {
  }

  /** A change of the running process's PCB that leaves it well formed keeps the invariant. */
  lemma OnCurrentKeeps(s: State, q: Pcb)
    requires Inv(s) && s.curPcb[s.now] >= 0 && PcbOk(q, Running(s))
    ensures Inv(OnCurrent(s, q)) && OnCurrent(s, q) == s.(pcbs := s.pcbs[Running(s) := q])
  {
    PcbsOkUpdate(s.pcbs, s.curPcb, Running(s), q, s.curPcb);
    assert LiveSlots(OnCurrent(s, q));
  }

  /** A descriptor call changes the running process's PCB, and there nothing but descriptors and RTC settings. */
  ghost predicate DescriptorChange(s: State, r: State)
    requires Inv(s) && s.curPcb[s.now] >= 0
  {
    var id := Running(s);
    && |r.pcbs| == 256 && r == s.(pcbs := s.pcbs[id := r.pcbs[id]])
    && PcbOk(r.pcbs[id], id)
    && r.pcbs[id].parentCtx == s.pcbs[id].parentCtx && r.pcbs[id].ctx == s.pcbs[id].ctx
    && r.pcbs[id].args == s.pcbs[id].args
  }

  lemma OpenChange(s: State, found: bool, t: FileType, inode: nat)
    requires Inv(s) && s.curPcb[s.now] >= 0
    ensures DescriptorChange(s, Open(s, found, t, inode).0)
  {
    StepDefined(s, OpenCall(found, t, inode));
    var p := s.pcbs[Running(s)];
    var fd := LowestFree(p.fds, 0);
    assert fd >= 2;
    var r := Open(s, found, t, inode).0;
    assert s == s.(pcbs := s.pcbs[Running(s) := p]);
  }

  lemma CloseChange(s: State, n: int)
    requires Inv(s) && s.curPcb[s.now] >= 0
    ensures DescriptorChange(s, Close(s, n).0)
  {
    StepDefined(s, CloseCall(n));
    assert s == s.(pcbs := s.pcbs[Running(s) := s.pcbs[Running(s)]]);
  }

  lemma FileReadChange(s: State, fd: nat, nbytes: int, got: int)
    requires Inv(s) && Enabled(s, FileReadCall(fd, nbytes, got))
    ensures DescriptorChange(s, FileRead(s, fd, got).0)
  {
    StepDefined(s, FileReadCall(fd, nbytes, got));
    assert s == s.(pcbs := s.pcbs[Running(s) := s.pcbs[Running(s)]]);
  }

  lemma RtcChange(s: State, fd: nat, freq: bv32, nbytes: int)
    requires Inv(s) && s.curPcb[s.now] >= 0 && HasRtc(s, fd)
    ensures ValidFreq(s.pcbs[Running(s)].rtcFreq)
    ensures DescriptorChange(s, RtcReadStart(s))
    ensures DescriptorChange(s, RtcWrite(s, freq, nbytes).0)
  {
    StepDefined(s, RtcReadCall(fd));
    assert s == s.(pcbs := s.pcbs[Running(s) := s.pcbs[Running(s)]]);
    AcceptedIsValid(freq);
  }

  lemma AcceptedIsValid(freq: bv32)
    ensures AcceptedFreq(freq) ==> ValidFreq(freq as int)
  {
    if AcceptedFreq(freq) {
      AcceptedDivides(freq);
    }
  }
}
