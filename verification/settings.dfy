/**
 What a process keeps through everything that happens: the arguments it was started with, and the RTC
 frequency it has chosen.
 */
module Settings {
  import opened Text
  import opened Processes
  import opened Runs
  import opened CallStacks
  import opened Guarantees
  import opened Countdown

  // ---- One step ----

  /** The arguments a start is given; the shells the kernel starts get none. */
  function StartedWith(e: Event): Args {
    match e
    case ExecuteCall(_, args, _) => args
    case _ => NO_ARGS
  }

  /** The PCB of a program that has just been started. */
  lemma {:induction false} StartedPcb(s: State, args: Args, ctx: Context)
    requires Inv(s) && Booted(s) && s.now == s.cur && Slot(s) < 4
    ensures var (r, o) := Execute(s, Loadable, args, ctx); var id := Running(s) + 1;
            && o == Started(id) && id < 12 && Inv(r) && Running(r) == id
            && r.pcbs[id].args == args && r.pcbs[id].parentCtx == ctx
            && r.pcbs[id].rtcFreq == s.pcbs[id].rtcFreq && r.pcbs[id].rtcCounter == s.pcbs[id].rtcCounter
  {
    SlotIsNext(s);
    ExecuteKeeps(s, Loadable, args, ctx);
    StepKeeps(s, ExecuteCall(Loadable, args, ctx));
  }

  /** A step whose outcome is the start of process `p`. */
  predicate Starts(s: State, e: Event, p: nat)
    requires Inv(s) && Enabled(s, e)
  {
    Seen(e, Step(s, e).1) == Started(p)
  }

  /** What the arguments of process `p` are after a step. */
  ghost predicate ArgsSettled(s: State, e: Event, p: nat)
    requires Inv(s) && Enabled(s, e) && p < 256
  {
    Step(s, e).0.pcbs[p].args == if Starts(s, e, p) then StartedWith(e) else s.pcbs[p].args
  }

  lemma {:induction false} ArgsOfExecute(s: State, image: Image, args: Args, ctx: Context, p: nat)
    requires Inv(s) && Enabled(s, ExecuteCall(image, args, ctx)) && p < 256
    ensures ArgsSettled(s, ExecuteCall(image, args, ctx), p)
  {
    SlotIsNext(s);
    if image == Loadable && Slot(s) < 4 {
      ExecuteKeeps(s, image, args, ctx);
    }
  }

  /** A halt changes none, and a root shell's restart only its own. */
  lemma {:induction false} ArgsOfHalt(s: State, status: nat, ctx: Context, p: nat)
    requires Inv(s) && Enabled(s, HaltCall(status, ctx)) && p < 256
    ensures ArgsSettled(s, HaltCall(status, ctx), p)
  {
    if s.curPcb[s.now] > 0 {
      HaltKeeps(s, status, ctx);
      HaltedSettings(s.pcbs, Running(s), Running(s) - 1, p);
    } else {
      ArgsOfRootHalt(s, status, ctx, p);
    }
  }

  lemma {:induction false} ArgsOfRootHalt(s: State, status: nat, ctx: Context, p: nat)
    requires Inv(s) && Enabled(s, HaltCall(status, ctx)) && p < 256 && s.curPcb[s.now] == 0
    ensures ArgsSettled(s, HaltCall(status, ctx), p)
  {
    RootHaltKeeps(s, status, ctx);
    HaltedSettings(s.pcbs, 4 * s.now, PcbIndex(-1, s.now), p);
  }

  /** A halt changes no PCB's settings. */
  lemma HaltedSettings(pcbs: seq<Pcb>, id: nat, below: nat, p: nat)
    requires |pcbs| == 256 && id < 256 && below < 256 && id != below && p < 256
    requires |pcbs[id].fds| == |pcbs[below].fds| == 8
    ensures var q := HaltedPcbs(pcbs, id, below)[p]; q.args == pcbs[p].args && q.rtcFreq == pcbs[p].rtcFreq
  {
  }

  lemma {:induction false} ArgsOfSwitch(s: State, ctx: Context, launchCtx: Context, p: nat)
    requires Inv(s) && p < 256 && s.curPcb[Next(s.now)] >= 0
    ensures ArgsSettled(s, Pit(ctx, launchCtx), p)
  {
    SwitchKeeps(s, ctx, launchCtx);
    SavedSettings(s, ctx, p);
  }

  lemma {:induction false} ArgsOfLaunch(s: State, ctx: Context, launchCtx: Context, p: nat)
    requires Inv(s) && p < 256 && s.curPcb[Next(s.now)] == -1
    ensures ArgsSettled(s, Pit(ctx, launchCtx), p)
  {
    LaunchKeeps(s, ctx, launchCtx);
    SavedSettings(s, ctx, p);
  }

  lemma SavedSettings(s: State, ctx: Context, p: nat)
    requires Shaped(s) && p < 256
    ensures SavedPcbs(s, ctx)[p].args == s.pcbs[p].args && SavedPcbs(s, ctx)[p].rtcFreq == s.pcbs[p].rtcFreq
  {
  }

  lemma {:induction false} ArgsOfCall(s: State, e: Event, p: nat)
    requires Inv(s) && Enabled(s, e) && IsDescriptorCall(e) && p < 256
    ensures ArgsSettled(s, e, p)
  {
    StepDefined(s, e);
  }

  /**
   No step of any process changes the arguments of a process, but for the step that starts it, which
   stores those it is given.
   */
  lemma {:induction false} ArgsStep(s: State, e: Event, p: nat)
    requires Inv(s) && Enabled(s, e) && p < 256
    ensures ArgsSettled(s, e, p)
  {
    match e {
      case ExecuteCall(image, args, ctx) => ArgsOfExecute(s, image, args, ctx, p);
      case HaltCall(status, ctx) => ArgsOfHalt(s, status, ctx, p);
      case Pit(ctx, launchCtx) =>
        if s.curPcb[Next(s.now)] >= 0 { ArgsOfSwitch(s, ctx, launchCtx, p); } else { ArgsOfLaunch(s, ctx, launchCtx, p); }
      case Rtc => RtcKeeps(s);
      case Display(t) =>
      case _ => ArgsOfCall(s, e, p);
    }
  }

  // ---- Over runs ----

  /** The run does not start process `p`. */
  ghost predicate NoStart(s: State, es: seq<Event>, p: nat)
    requires Inv(s) && CanRun(s, es)
    decreases |es|
  {
    es == [] || (!Starts(s, es[0], p) && NoStart(After(s, es[0]), es[1..], p))
  }

  /** That is: its start is not in the trace. */
  lemma {:induction false} NoStartIff(s: State, es: seq<Event>, p: nat)
    requires Inv(s) && CanRun(s, es)
    ensures NoStart(s, es, p) <==> Started(p) !in Trace(s, es)
    decreases |es|
  {
    if es != [] {
      NoStartIff(After(s, es[0]), es[1..], p);
    }
  }

  /** Until its number is started again, a process has its arguments, whatever it and the others do. */
  lemma {:induction false} ArgsKept(s: State, es: seq<Event>, p: nat)
    requires Inv(s) && CanRun(s, es) && p < 256 && NoStart(s, es, p)
    ensures Run(s, es).pcbs[p].args == s.pcbs[p].args
    decreases |es|
  {
    if es != [] {
      ArgsStep(s, es[0], p);
      ArgsKept(After(s, es[0]), es[1..], p);
    }
  }

  /** A shell the kernel starts by itself, at start-up or when a root shell has ended, finds no arguments. */
  lemma {:induction false} ShellsHaveNone(s: State, e: Event, p: nat)
    requires Inv(s) && Enabled(s, e) && p < 256 && !e.ExecuteCall? && Starts(s, e, p)
    ensures BeforeNul(After(s, e).pcbs[p].args) == []
  {
    ArgsStep(s, e, p);
  }

  // ---- The frequency of the virtual RTC ----

  /** The frequency of process `p` after a step: 2 when it opens the RTC, the one it writes when that is accepted. */
  ghost function FreqAfter(s: State, e: Event, p: nat): nat
    requires Inv(s) && Enabled(s, e) && p < 256
  {
    if p != Running(s) then s.pcbs[p].rtcFreq
    else
      match e
      case OpenCall(true, RtcType, _) => if exists i :: 0 <= i < 8 && !s.pcbs[p].fds[i].open then 2 else s.pcbs[p].rtcFreq
      case RtcWriteCall(_, f, nbytes) => if ValidFreq(f as int) && nbytes == 4 then f as int else s.pcbs[p].rtcFreq
      case _ => s.pcbs[p].rtcFreq
  }

  ghost predicate FreqSettled(s: State, e: Event, p: nat)
    requires Inv(s) && Enabled(s, e) && p < 256
  {
    Step(s, e).0.pcbs[p].rtcFreq == FreqAfter(s, e, p)
  }

  lemma {:induction false} FreqOfExecute(s: State, image: Image, args: Args, ctx: Context, p: nat)
    requires Inv(s) && Enabled(s, ExecuteCall(image, args, ctx)) && p < 256
    ensures FreqSettled(s, ExecuteCall(image, args, ctx), p)
  {
    SlotIsNext(s);
    if image == Loadable && Slot(s) < 4 {
      ExecuteKeeps(s, image, args, ctx);
    }
  }

  lemma {:induction false} FreqOfHalt(s: State, status: nat, ctx: Context, p: nat)
    requires Inv(s) && Enabled(s, HaltCall(status, ctx)) && p < 256
    ensures FreqSettled(s, HaltCall(status, ctx), p)
  {
    if s.curPcb[s.now] > 0 {
      HaltKeeps(s, status, ctx);
      HaltedSettings(s.pcbs, Running(s), Running(s) - 1, p);
    } else {
      RootHaltKeeps(s, status, ctx);
      HaltedSettings(s.pcbs, 4 * s.now, PcbIndex(-1, s.now), p);
    }
  }

  lemma {:induction false} FreqOfSwitch(s: State, ctx: Context, launchCtx: Context, p: nat)
    requires Inv(s) && p < 256 && s.curPcb[Next(s.now)] >= 0
    ensures FreqSettled(s, Pit(ctx, launchCtx), p)
  {
    SwitchKeeps(s, ctx, launchCtx);
    SavedSettings(s, ctx, p);
  }

  lemma {:induction false} FreqOfLaunch(s: State, ctx: Context, launchCtx: Context, p: nat)
    requires Inv(s) && p < 256 && s.curPcb[Next(s.now)] == -1
    ensures FreqSettled(s, Pit(ctx, launchCtx), p)
  {
    LaunchKeeps(s, ctx, launchCtx);
    SavedSettings(s, ctx, p);
  }

  lemma AcceptedIff(f: bv32)
    ensures AcceptedFreq(f) <==> ValidFreq(f as int)
  {
    AcceptedBits(f);
  }

  lemma {:induction false} FreqOfCall(s: State, e: Event, p: nat)
    requires Inv(s) && Enabled(s, e) && IsDescriptorCall(e) && p < 256
    ensures FreqSettled(s, e, p)
  {
    StepDefined(s, e);
    if e.RtcWriteCall? {
      AcceptedIff(e.freq);
    }
  }

  /** No step changes the frequency of a process but its own opening of the RTC and its own accepted write. */
  lemma {:induction false} FreqStep(s: State, e: Event, p: nat)
    requires Inv(s) && Enabled(s, e) && p < 256
    ensures FreqSettled(s, e, p)
  {
    match e {
      case ExecuteCall(image, args, ctx) => FreqOfExecute(s, image, args, ctx, p);
      case HaltCall(status, ctx) => FreqOfHalt(s, status, ctx, p);
      case Pit(ctx, launchCtx) =>
        if s.curPcb[Next(s.now)] >= 0 { FreqOfSwitch(s, ctx, launchCtx, p); } else { FreqOfLaunch(s, ctx, launchCtx, p); }
      case Rtc => RtcKeeps(s);
      case Display(t) =>
      case _ => FreqOfCall(s, e, p);
    }
  }

  /** Process `p` neither opens nor writes an RTC. */
  ghost predicate LeavesRtc(s: State, es: seq<Event>, p: nat)
    requires Inv(s) && CanRun(s, es)
    decreases |es|
  {
    es == [] || (!(p == Running(s) && SetsRtc(es[0])) && LeavesRtc(After(s, es[0]), es[1..], p))
  }

  predicate SetsRtc(e: Event) {
    (e.OpenCall? && e.fileType == RtcType) || e.RtcWriteCall?
  }

  lemma {:induction false} FreqKept(s: State, es: seq<Event>, p: nat)
    requires Inv(s) && CanRun(s, es) && p < 256 && LeavesRtc(s, es, p)
    ensures Run(s, es).pcbs[p].rtcFreq == s.pcbs[p].rtcFreq
    decreases |es|
  {
    if es != [] {
      FreqStep(s, es[0], p);
      FreqKept(After(s, es[0]), es[1..], p);
    }
  }

  /** The event sets the running process's RTC to frequency `f`: an open that finds a descriptor, or an accepted write. */
  ghost predicate SetsTo(s: State, e: Event, f: nat)
    requires Inv(s) && Enabled(s, e)
  {
    if e.RtcWriteCall? then ValidFreq(e.freq as int) && e.nbytes == 4 && f == e.freq as int
    else
      e.OpenCall? && e.found && e.fileType == RtcType && f == 2 && 0 <= Running(s) < 12 &&
      exists i :: 0 <= i < 8 && !s.pcbs[Running(s)].fds[i].open
  }

  lemma {:induction false} SetTo(s: State, e: Event, f: nat)
    requires Inv(s) && Enabled(s, e) && SetsTo(s, e, f)
    ensures 0 <= Running(s) < 12 && After(s, e).pcbs[Running(s)].rtcFreq == f
  {
    FreqStep(s, e, Running(s));
  }

  /**
   From the setting of a frequency to the release: a process opens the RTC, which sets it to 2, or writes
   it a power of two; then anything happens but another setting by this process; then it reads, and is
   released exactly when 1024 / f RTC ticks have gone by, whatever the other terminals do.
   */
  lemma {:induction false} SetThenRead(s: State, set_: Event, f: nat, es: seq<Event>, s1: State, fd: nat, waits: seq<Event>)
    requires Inv(s) && Enabled(s, set_) && SetsTo(s, set_, f)
    requires CanRun(After(s, set_), es) && LeavesRtc(After(s, set_), es, Running(s)) && s1 == Run(After(s, set_), es)
    requires Running(s1) == Running(s) && Enabled(s1, RtcReadCall(fd))
    requires CanRun(After(s1, RtcReadCall(fd)), waits) && WaitsThrough(After(s1, RtcReadCall(fd)), waits, s1.now)
    ensures ValidFreq(f)
    ensures CounterOf(Run(After(s1, RtcReadCall(fd)), waits), s1.now) == 0 <==> RtcTicks(waits) >= 1024 / f
  {
    SetAndKept(s, set_, f, es, s1);
    ReadAt(s1, fd, f, waits);
  }

  lemma {:induction false} SetAndKept(s: State, set_: Event, f: nat, es: seq<Event>, s1: State)
    requires Inv(s) && Enabled(s, set_) && SetsTo(s, set_, f)
    requires CanRun(After(s, set_), es) && LeavesRtc(After(s, set_), es, Running(s)) && s1 == Run(After(s, set_), es)
    requires Running(s1) == Running(s) && Booted(s1)
    ensures FrequencyOf(s1) == f
  {
    SetTo(s, set_, f);
    FreqKept(After(s, set_), es, Running(s));
    StepDefined(s1, Rtc);
  }

  lemma {:induction false} ReadAt(s: State, fd: nat, f: nat, waits: seq<Event>)
    requires Inv(s) && Enabled(s, RtcReadCall(fd)) && FrequencyOf(s) == f
    requires CanRun(After(s, RtcReadCall(fd)), waits) && WaitsThrough(After(s, RtcReadCall(fd)), waits, s.now)
    ensures ValidFreq(f)
    ensures CounterOf(Run(After(s, RtcReadCall(fd)), waits), s.now) == 0 <==> RtcTicks(waits) >= 1024 / f
  {
    ReleasedOnTime(s, fd, waits);
  }
}
