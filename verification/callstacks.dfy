/**
 The machine a user thinks of: each terminal is a stack of calls, each call remembers where its caller
 was, and the scheduler remembers where each terminal was.  The kernel's tables refine it over every
 run, and on it the matching of halts with executes is easy to state.
 */
module CallStacks {
  import opened Text
  import opened Processes
  import opened Runs

  datatype Calls = Calls(stacks: seq<seq<Context>>, saved: seq<Context>, now: nat) {
    predicate Valid() {
      && |stacks| == 3 && |saved| == 3 && now < 3
      && forall t :: 0 <= t < 3 ==> |stacks[t]| <= 4
    }

    function Live(): nat
      requires Valid()
    {
      |stacks[0]| + |stacks[1]| + |stacks[2]|
    }
  }

  predicate IsDescriptorCall(e: Event) {
    e.OpenCall? || e.CloseCall? || e.FileReadCall? || e.RtcReadCall? || e.RtcWriteCall?
  }

  function Push(c: Calls, ctx: Context): Calls
    requires c.Valid()
  {
    c.(stacks := c.stacks[c.now := c.stacks[c.now] + [ctx]])
  }

  function Pop(c: Calls): Calls
    requires c.Valid() && c.stacks[c.now] != []
  {
    c.(stacks := c.stacks[c.now := c.stacks[c.now][..|c.stacks[c.now]| - 1]])
  }

  function CallExecute(c: Calls, image: Image, ctx: Context): (r: (Calls, Observation))
    requires c.Valid()
    ensures r.0.Valid()
  {
    var depth := |c.stacks[c.now]|;
    if image != Loadable then (c, Refused(-1))
    else if c.Live() >= 6 || depth == 4 then (c, Refused(0))
    else (Push(c, ctx), Started(4 * c.now + depth))
  }

  /** A halt returns where the matching execute came from; the root's starts its terminal again. */
  function CallHalt(c: Calls, status: nat, ctx: Context): (r: (Calls, Observation))
    requires c.Valid()
    ensures r.0.Valid()
  {
    var stack := c.stacks[c.now];
    if stack == [] then (c, Silent)
    else if |stack| == 1 then (c.(stacks := c.stacks[c.now := [ctx]]), Started(4 * c.now))
    else (Pop(c), Resumed(4 * c.now + |stack| - 2, stack[|stack| - 1], status))
  }

  /** A tick saves where this terminal is and goes on where the next one was, or starts it. */
  function CallPit(c: Calls, ctx: Context, launchCtx: Context): (r: (Calls, Observation))
    requires c.Valid()
    ensures r.0.Valid()
  {
    var next := Next(c.now);
    var left := Calls(c.stacks, c.saved[c.now := ctx], next);
    if c.stacks[next] == [] then (Push(left, launchCtx), Started(4 * next))
    else (left, Switched(4 * next + |c.stacks[next]| - 1, c.saved[next]))
  }

  function CallStep(c: Calls, e: Event): (r: (Calls, Observation))
    requires c.Valid()
    ensures r.0.Valid()
  {
    match e
    case ExecuteCall(image, _, ctx) => CallExecute(c, image, ctx)
    case HaltCall(status, ctx) => CallHalt(c, status, ctx)
    case Pit(ctx, launchCtx) => CallPit(c, ctx, launchCtx)
    case _ => (c, Silent)
  }

  // ---- Refinement ----

  /** The callers' contexts are in the PCBs of the callees, terminal by terminal. */
  ghost predicate StacksIn(stacks: seq<seq<Context>>, curPcb: seq<int>, pcbs: seq<Pcb>)
    requires |stacks| == 3 && |curPcb| == 3 && |pcbs| == 256
  {
    && (forall t :: 0 <= t < 3 ==> |stacks[t]| == curPcb[t] + 1 <= 4)
    && forall t, i :: 0 <= t < 3 && 0 <= i < |stacks[t]| ==> stacks[t][i] == pcbs[i + 4 * t].parentCtx
  }

  /** The saved context of every terminal that waits for the processor is in its current PCB. */
  ghost predicate SavedIn(saved: seq<Context>, now: nat, curPcb: seq<int>, pcbs: seq<Pcb>)
    requires |saved| == 3 && |curPcb| == 3 && |pcbs| == 256
    requires forall t :: 0 <= t < 3 ==> -1 <= curPcb[t] < 4
  {
    forall t :: 0 <= t < 3 && t != now && curPcb[t] >= 0 ==> saved[t] == pcbs[curPcb[t] + 4 * t].ctx
  }

  /** The call-stack machine's state, read off the kernel's tables. */
  ghost predicate Matches(c: Calls, curPcb: seq<int>, pcbs: seq<Pcb>) {
    && c.Valid() && |curPcb| == 3 && |pcbs| == 256
    && StacksIn(c.stacks, curPcb, pcbs)
    && (forall t :: 0 <= t < 3 ==> -1 <= curPcb[t] < 4)
    && SavedIn(c.saved, c.now, curPcb, pcbs)
  }

  ghost predicate Rel(s: State, c: Calls) {
    Inv(s) && c.now == s.now && Matches(c, s.curPcb, s.pcbs)
  }

  lemma RelLive(s: State, c: Calls)
    requires Rel(s, c)
    ensures c.Live() == Total(s.mask)
  {
    TotalIsDepths(s);
  }

  /** PCBs that differ in nothing the two machines share. */
  ghost predicate SameContexts(before: seq<Pcb>, after: seq<Pcb>)
    requires |before| == |after| == 256
  {
    forall p :: 0 <= p < 256 ==> after[p].parentCtx == before[p].parentCtx && after[p].ctx == before[p].ctx
  }

  lemma MatchesSame(c: Calls, curPcb: seq<int>, pcbs: seq<Pcb>, after: seq<Pcb>)
    requires Matches(c, curPcb, pcbs) && |after| == 256 && SameContexts(pcbs, after)
    ensures Matches(c, curPcb, after)
  {
  }

  /** A new process on top of the running terminal's stack. */
  lemma MatchesPush(c: Calls, curPcb: seq<int>, pcbs: seq<Pcb>, ctx: Context, q: Pcb)
    requires Matches(c, curPcb, pcbs) && |c.stacks[c.now]| < 4 && q.parentCtx == ctx
    ensures var depth := curPcb[c.now] + 1;
            Matches(Push(c, ctx), curPcb[c.now := depth], pcbs[depth + 4 * c.now := q])
  {
  }

  /** The top process of the running terminal gone. */
  lemma MatchesPop(c: Calls, curPcb: seq<int>, pcbs: seq<Pcb>)
    requires Matches(c, curPcb, pcbs) && |c.stacks[c.now]| > 1
    ensures Matches(Pop(c), curPcb[c.now := curPcb[c.now] - 1], pcbs)
    ensures c.stacks[c.now][|c.stacks[c.now]| - 1] == pcbs[curPcb[c.now] + 4 * c.now].parentCtx
  {
  }

  /** The one frame of a restarted root shell. */
  lemma MatchesRoot(c: Calls, curPcb: seq<int>, pcbs: seq<Pcb>, ctx: Context, q: Pcb)
    requires Matches(c, curPcb, pcbs) && |c.stacks[c.now]| == 1 && q.parentCtx == ctx
    ensures Matches(c.(stacks := c.stacks[c.now := [ctx]]), curPcb, pcbs[4 * c.now := q])
  {
  }

  /** The context of the terminal that is left, saved in its PCB. */
  lemma MatchesLeave(c: Calls, curPcb: seq<int>, pcbs: seq<Pcb>, ctx: Context)
    requires Matches(c, curPcb, pcbs)
    requires curPcb[c.now] == -1 ==> curPcb == [-1, -1, -1]
    ensures var left := PcbIndex(curPcb[c.now], c.now);
            Matches(Calls(c.stacks, c.saved[c.now := ctx], Next(c.now)), curPcb, pcbs[left := pcbs[left].(ctx := ctx)])
  {
  }

  lemma MatchesWaiting(c: Calls, curPcb: seq<int>, pcbs: seq<Pcb>, t: nat)
    requires Matches(c, curPcb, pcbs) && t < 3 && t != c.now && curPcb[t] >= 0
    ensures |c.stacks[t]| == curPcb[t] + 1 && c.saved[t] == pcbs[curPcb[t] + 4 * t].ctx
  {
  }

  lemma HaltedSame(pcbs: seq<Pcb>, id: nat, below: nat)
    requires |pcbs| == 256 && id < 256 && below < 256 && id != below
    requires |pcbs[id].fds| == |pcbs[below].fds| == 8
    ensures SameContexts(pcbs, HaltedPcbs(pcbs, id, below))
  {
  }

  lemma {:induction false} ExecuteStarts(s: State, c: Calls, args: Args, ctx: Context)
    requires Rel(s, c) && Booted(s) && s.now == s.cur && Slot(s) < 4
    ensures Rel(Execute(s, Loadable, args, ctx).0, Push(c, ctx))
    ensures Execute(s, Loadable, args, ctx).1 == Started(4 * c.now + |c.stacks[c.now]|)
  {
    SlotIsNext(s);
    ExecuteKeeps(s, Loadable, args, ctx);
    var id := s.curPcb[s.cur] + 1 + 4 * s.cur;
    MatchesPush(c, s.curPcb, s.pcbs, ctx, NewPcb(s.pcbs[id], id, s.cur, ctx, args));
    assert Booted(Execute(s, Loadable, args, ctx).0);
  }

  lemma {:induction false} ExecuteRefines(s: State, c: Calls, image: Image, args: Args, ctx: Context)
    requires Rel(s, c) && Enabled(s, ExecuteCall(image, args, ctx))
    ensures Rel(Execute(s, image, args, ctx).0, CallExecute(c, image, ctx).0)
    ensures Execute(s, image, args, ctx).1 == CallExecute(c, image, ctx).1
  {
    RelLive(s, c);
    SlotIsNext(s);
    assert |c.stacks[c.now]| == s.curPcb[s.now] + 1;
    if image == Loadable && Slot(s) < 4 {
      ExecuteStarts(s, c, args, ctx);
    }
  }

  lemma CallHaltAbove(c: Calls, status: nat, ctx: Context)
    requires c.Valid() && |c.stacks[c.now]| > 1
    ensures var stack := c.stacks[c.now];
            CallHalt(c, status, ctx) ==
            (Pop(c), Resumed(4 * c.now + |stack| - 2, stack[|stack| - 1], status))
  {
  }

  lemma {:induction false} HaltRefines(s: State, c: Calls, status: nat, ctx: Context)
    requires Rel(s, c) && Booted(s) && s.curPcb[s.now] > 0
    ensures Rel(Halt(s, status, ctx).0, CallHalt(c, status, ctx).0)
    ensures Halt(s, status, ctx).1 == CallHalt(c, status, ctx).1
  {
    var id := Running(s);
    CallHaltAbove(c, status, ctx);
    MatchesPop(c, s.curPcb, s.pcbs);
    HaltKeeps(s, status, ctx);
    HaltedSame(s.pcbs, id, id - 1);
    MatchesSame(Pop(c), s.curPcb[s.now := s.curPcb[s.now] - 1], s.pcbs, HaltedPcbs(s.pcbs, id, id - 1));
  }

  lemma {:induction false} RootHaltRefines(s: State, c: Calls, status: nat, ctx: Context)
    requires Rel(s, c) && Booted(s) && s.curPcb[s.now] == 0 && s.now == s.cur
    ensures Rel(Halt(s, status, ctx).0, CallHalt(c, status, ctx).0)
    ensures Halt(s, status, ctx).1 == CallHalt(c, status, ctx).1
  {
    RootHaltKeeps(s, status, ctx);
    RestartMatches(c, s.curPcb, s.pcbs, PcbIndex(-1, s.now), ctx);
  }

  /** The restarted shell's PCB holds the one frame that is left. */
  lemma RestartMatches(c: Calls, curPcb: seq<int>, pcbs: seq<Pcb>, below: nat, ctx: Context)
    requires Matches(c, curPcb, pcbs) && |c.stacks[c.now]| == 1
    requires below < 256 && below != 4 * c.now && |pcbs[4 * c.now].fds| == |pcbs[below].fds| == 8
    ensures var id := 4 * c.now; var freed := HaltedPcbs(pcbs, id, below);
            Matches(c.(stacks := c.stacks[c.now := [ctx]]), curPcb,
                    freed[id := NewPcb(freed[id], id, c.now, ctx, NO_ARGS)])
  {
    var id := 4 * c.now;
    var freed := HaltedPcbs(pcbs, id, below);
    HaltedSame(pcbs, id, below);
    MatchesSame(c, curPcb, pcbs, freed);
    MatchesRoot(c, curPcb, freed, ctx, NewPcb(freed[id], id, c.now, ctx, NO_ARGS));
  }

  lemma CallPitWaiting(c: Calls, ctx: Context, launchCtx: Context)
    requires c.Valid() && c.stacks[Next(c.now)] != []
    ensures var next := Next(c.now);
            CallPit(c, ctx, launchCtx) ==
            (Calls(c.stacks, c.saved[c.now := ctx], next), Switched(4 * next + |c.stacks[next]| - 1, c.saved[next]))
  {
  }

  lemma {:induction false} SwitchRefines(s: State, c: Calls, ctx: Context, launchCtx: Context)
    requires Rel(s, c) && s.curPcb[Next(s.now)] >= 0
    ensures Rel(PitTick(s, ctx, launchCtx).0, CallPit(c, ctx, launchCtx).0)
    ensures PitTick(s, ctx, launchCtx).1 == CallPit(c, ctx, launchCtx).1
  {
    var next := Next(s.now);
    MatchesWaiting(c, s.curPcb, s.pcbs, next);
    CallPitWaiting(c, ctx, launchCtx);
    SwitchKeeps(s, ctx, launchCtx);
    MatchesLeave(c, s.curPcb, s.pcbs, ctx);
  }

  lemma {:induction false} LaunchRefines(s: State, c: Calls, ctx: Context, launchCtx: Context)
    requires Rel(s, c) && s.curPcb[Next(s.now)] == -1
    ensures Rel(PitTick(s, ctx, launchCtx).0, CallPit(c, ctx, launchCtx).0)
    ensures PitTick(s, ctx, launchCtx).1 == CallPit(c, ctx, launchCtx).1
  {
    var next := Next(s.now);
    LaunchKeeps(s, ctx, launchCtx);
    MatchesLeave(c, s.curPcb, s.pcbs, ctx);
    var left := Calls(c.stacks, c.saved[c.now := ctx], next);
    var q := NewPcb(SavedPcbs(s, ctx)[4 * next], 4 * next, next, launchCtx, NO_ARGS);
    MatchesPush(left, s.curPcb, SavedPcbs(s, ctx), launchCtx, q);
  }

  lemma {:induction false} DescriptorRefines(s: State, c: Calls, r: State)
    requires Rel(s, c) && s.curPcb[s.now] >= 0 && DescriptorChange(s, r)
    ensures Rel(r, c)
  {
    OnCurrentKeeps(s, r.pcbs[Running(s)]);
    MatchesSame(c, s.curPcb, s.pcbs, r.pcbs);
  }

  /** Every enabled step of the kernel is the step of the call-stack machine, with the same outcome. */
  lemma {:induction false} StepRefines(s: State, c: Calls, e: Event)
    requires Rel(s, c) && Enabled(s, e)
    ensures Rel(Step(s, e).0, CallStep(c, e).0)
    ensures IsDescriptorCall(e) || Step(s, e).1 == CallStep(c, e).1
  {
    match e {
      case ExecuteCall(image, args, ctx) => ExecuteRefines(s, c, image, args, ctx);
      case HaltCall(status, ctx) =>
        if s.curPcb[s.now] > 0 { HaltRefines(s, c, status, ctx); } else { RootHaltRefines(s, c, status, ctx); }
      case Pit(ctx, launchCtx) =>
        if s.curPcb[Next(s.now)] >= 0 { SwitchRefines(s, c, ctx, launchCtx); } else { LaunchRefines(s, c, ctx, launchCtx); }
      case Rtc =>
        RtcKeeps(s);
        MatchesSame(c, s.curPcb, s.pcbs, RtcTick(s).pcbs);
      case Display(t) =>
        DisplayKeeps(s, t);
      case OpenCall(found, t, inode) =>
        OpenChange(s, found, t, inode);
        DescriptorRefines(s, c, Open(s, found, t, inode).0);
      case CloseCall(n) =>
        CloseChange(s, n);
        DescriptorRefines(s, c, Close(s, n).0);
      case FileReadCall(fd, nbytes, got) =>
        FileReadChange(s, fd, nbytes, got);
        DescriptorRefines(s, c, FileRead(s, fd, got).0);
      case RtcReadCall(fd) =>
        RtcChange(s, fd, 0, 0);
        DescriptorRefines(s, c, RtcReadStart(s));
      case RtcWriteCall(fd, freq, nbytes) =>
        RtcChange(s, fd, freq, nbytes);
        DescriptorRefines(s, c, RtcWrite(s, freq, nbytes).0);
    }
  }

  lemma DisplayKeeps(s: State, t: nat)
    requires Inv(s) && Booted(s) && t < 3
    ensures Inv(s.(cur := t))
  {
    assert LiveSlots(s.(cur := t));
  }
}
