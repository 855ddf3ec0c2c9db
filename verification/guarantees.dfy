/** What the process step system guarantees over whole runs, and where its guarantees end. */
module Guarantees {
  import opened Paging
  import opened Processes
  import opened Runs
  import opened CallStacks

  // ---- Runs ----

  /** The call-stack machine's state that a kernel state stands for. */
  function CallsOf(s: State): (c: Calls)
    requires Shaped(s)
    ensures c.Valid()
  {
    Calls([Frames(s, 0), Frames(s, 1), Frames(s, 2)],
          [s.pcbs[Current(s, 0)].ctx, s.pcbs[Current(s, 1)].ctx, s.pcbs[Current(s, 2)].ctx], s.now)
  }

  function Frames(s: State, t: nat): (r: seq<Context>)
    requires Shaped(s) && t < 3
    ensures |r| == s.curPcb[t] + 1
    ensures forall i :: 0 <= i < |r| ==> r[i] == s.pcbs[i + 4 * t].parentCtx
  {
    seq(s.curPcb[t] + 1, i requires 0 <= i <= s.curPcb[t] => s.pcbs[i + 4 * t].parentCtx)
  }

  lemma {:induction false} CallsOfRel(s: State)
    requires Inv(s)
    ensures Rel(s, CallsOf(s))
  {
    var c := CallsOf(s);
    StacksAre(c.stacks, s.curPcb, s.pcbs);
    SavedAre(c.saved, s.now, s.curPcb, s.pcbs);
  }

  lemma StacksAre(stacks: seq<seq<Context>>, curPcb: seq<int>, pcbs: seq<Pcb>)
    requires |stacks| == 3 && |curPcb| == 3 && |pcbs| == 256
    requires forall t :: 0 <= t < 3 ==> -1 <= curPcb[t] < 4 && |stacks[t]| == curPcb[t] + 1
    requires forall i :: 0 <= i < |stacks[0]| ==> stacks[0][i] == pcbs[i].parentCtx
    requires forall i :: 0 <= i < |stacks[1]| ==> stacks[1][i] == pcbs[i + 4].parentCtx
    requires forall i :: 0 <= i < |stacks[2]| ==> stacks[2][i] == pcbs[i + 8].parentCtx
    ensures StacksIn(stacks, curPcb, pcbs)
  {
    forall t, i | 0 <= t < 3 && 0 <= i < |stacks[t]| ensures stacks[t][i] == pcbs[i + 4 * t].parentCtx {
      if t == 0 {
      } else if t == 1 {
        assert i + 4 * t == i + 4;
      } else {
        assert i + 4 * t == i + 8;
      }
    }
  }

  lemma SavedAre(saved: seq<Context>, now: nat, curPcb: seq<int>, pcbs: seq<Pcb>)
    requires |saved| == 3 && |curPcb| == 3 && |pcbs| == 256
    requires forall t :: 0 <= t < 3 ==> -1 <= curPcb[t] < 4
    requires forall t :: 0 <= t < 3 ==> saved[t] == pcbs[PcbIndex(curPcb[t], t)].ctx
    ensures SavedIn(saved, now, curPcb, pcbs)
  {
  }

  lemma {:induction false} StepKeeps(s: State, e: Event)
    requires Inv(s) && Enabled(s, e)
    ensures Inv(Step(s, e).0)
    ensures Booted(s) ==> Booted(Step(s, e).0)
  {
    CallsOfRel(s);
    StepRefines(s, CallsOf(s), e);
    StacksStay(CallsOf(s), e);
  }

  /** A terminal that has a process keeps one. */
  lemma StacksStay(c: Calls, e: Event)
    requires c.Valid()
    ensures forall t :: 0 <= t < 3 && c.stacks[t] != [] ==> CallStep(c, e).0.stacks[t] != []
  {
  }

  function After(s: State, e: Event): (r: State)
    requires Inv(s) && Enabled(s, e)
    ensures Inv(r) && (Booted(s) ==> Booted(r))
  {
    StepKeeps(s, e);
    Step(s, e).0
  }

  ghost predicate CanRun(s: State, es: seq<Event>)
    requires Inv(s)
    decreases |es|
  {
    es == [] || (Enabled(s, es[0]) && CanRun(After(s, es[0]), es[1..]))
  }

  ghost function Run(s: State, es: seq<Event>): (r: State)
    requires Inv(s) && CanRun(s, es)
    ensures Inv(r) && (Booted(s) ==> Booted(r))
    decreases |es|
  {
    if es == [] then s else Run(After(s, es[0]), es[1..])
  }

  /** What a caller, or the processor, gets to see of a step; descriptor calls are looked at elsewhere. */
  function Seen(e: Event, o: Observation): Observation {
    if IsDescriptorCall(e) then Silent else o
  }

  ghost function Trace(s: State, es: seq<Event>): seq<Observation>
    requires Inv(s) && CanRun(s, es)
    decreases |es|
  {
    if es == [] then [] else [Seen(es[0], Step(s, es[0]).1)] + Trace(After(s, es[0]), es[1..])
  }

  function CallRun(c: Calls, es: seq<Event>): (r: Calls)
    requires c.Valid()
    ensures r.Valid()
    decreases |es|
  {
    if es == [] then c else CallRun(CallStep(c, es[0]).0, es[1..])
  }

  function CallTrace(c: Calls, es: seq<Event>): seq<Observation>
    requires c.Valid()
    decreases |es|
  {
    if es == [] then [] else [CallStep(c, es[0]).1] + CallTrace(CallStep(c, es[0]).0, es[1..])
  }

  /**
   Refinement over runs: whatever the kernel's tables produce, in execute results, halts, launches and
   switches, the machine of call stacks produces too, step for step.
   */
  lemma {:induction false} RunRefines(s: State, c: Calls, es: seq<Event>)
    requires Rel(s, c) && CanRun(s, es)
    ensures Rel(Run(s, es), CallRun(c, es))
    ensures Trace(s, es) == CallTrace(c, es)
    decreases |es|
  {
    if es != [] {
      StepRefines(s, c, es[0]);
      RunRefines(After(s, es[0]), CallStep(c, es[0]).0, es[1..]);
    }
  }

  // ---- Halts match executes ----

  /** During the run terminal `t` never returns from a call at depth `d` or below. */
  predicate Inside(c: Calls, es: seq<Event>, t: nat, d: nat)
    requires c.Valid() && t < 3
    decreases |es|
  {
    es == [] ||
    (!(es[0].HaltCall? && c.now == t && |c.stacks[t]| <= d) && Inside(CallStep(c, es[0]).0, es[1..], t, d))
  }

  lemma FrameStep(c: Calls, e: Event, t: nat, d: nat)
    requires c.Valid() && t < 3 && d <= |c.stacks[t]|
    requires !(e.HaltCall? && c.now == t && |c.stacks[t]| <= d)
    ensures var r := CallStep(c, e).0;
            |r.stacks[t]| >= d && r.stacks[t][..d] == c.stacks[t][..d]
  {
  }

  lemma {:induction false} FramesStay(c: Calls, es: seq<Event>, t: nat, d: nat)
    requires c.Valid() && t < 3 && d <= |c.stacks[t]| && Inside(c, es, t, d)
    ensures var r := CallRun(c, es);
            |r.stacks[t]| >= d && r.stacks[t][..d] == c.stacks[t][..d]
    decreases |es|
  {
    if es != [] {
      FrameStep(c, es[0], t, d);
      FramesStay(CallStep(c, es[0]).0, es[1..], t, d);
    }
  }

  /** What comes of a halt of the running process, when it is not the first of its terminal. */
  function HaltSeen(s: State, status: nat, ctx: Context): Observation
    requires Inv(s) && Booted(s) && s.curPcb[s.now] > 0
  {
    Step(s, HaltCall(status, ctx)).1
  }

  /**
   A program is started; then anything at all happens on all three terminals, except that the program
   itself does not return; then it halts.  The processor goes back to the caller, with the kernel
   context the caller had when it called execute, and with the status given.
   */
  lemma {:induction false} HaltReturnsToItsExecute(
      s: State, start: Event, s1: State, es: seq<Event>, s2: State, status: nat, haltCtx: Context)
    requires Inv(s) && start.ExecuteCall? && Enabled(s, start) && start.image == Loadable && Slot(s) < 4
    requires s1 == After(s, start) && CanRun(s1, es) && s2 == Run(s1, es)
    requires Inside(CallsOf(s1), es, s.now, s.curPcb[s.now] + 2)
    requires s2.now == s.now && s2.curPcb[s.now] == s.curPcb[s.now] + 1
    ensures HaltSeen(s2, status, haltCtx) == Resumed(Running(s), start.ctx, status)
  {
    StartPushes(s, start);
    ReturnsTo(s1, es, s.now, s.curPcb[s.now] + 2, start.ctx, status, haltCtx);
  }

  /** A run inside the call at depth `d`, and then its halt. */
  lemma {:induction false} ReturnsTo(s1: State, es: seq<Event>, t: nat, d: nat, caller: Context, status: nat, ctx: Context)
    requires Inv(s1) && CanRun(s1, es) && t < 3 && 2 <= d && s1.curPcb[t] + 1 == d
    requires Inside(CallsOf(s1), es, t, d) && CallsOf(s1).stacks[t][d - 1] == caller
    requires Booted(s1) && Run(s1, es).now == t && Run(s1, es).curPcb[t] + 1 == d
    ensures HaltSeen(Run(s1, es), status, ctx) == Resumed(d - 2 + 4 * t, caller, status)
  {
    CallerKept(s1, es, t, d, caller);
    HaltPops(Run(s1, es), CallRun(CallsOf(s1), es), status, ctx);
  }

  /** After the run the two machines still correspond, and the frame at depth `d` is the caller's. */
  lemma {:induction false} CallerKept(s1: State, es: seq<Event>, t: nat, d: nat, caller: Context)
    requires Inv(s1) && CanRun(s1, es) && t < 3 && 2 <= d && s1.curPcb[t] + 1 == d
    requires Inside(CallsOf(s1), es, t, d) && CallsOf(s1).stacks[t][d - 1] == caller
    ensures var c := CallRun(CallsOf(s1), es);
            Rel(Run(s1, es), c) && |c.stacks[t]| >= d && c.stacks[t][d - 1] == caller
  {
    CallsOfRel(s1);
    RunRefines(s1, CallsOf(s1), es);
    FrameKept(CallsOf(s1), es, t, d);
  }

  lemma StartPushes(s: State, start: Event)
    requires Inv(s) && start.ExecuteCall? && Enabled(s, start) && start.image == Loadable && Slot(s) < 4
    ensures var s1 := After(s, start); var d := s.curPcb[s.now] + 2;
            && s1.now == s.now && s1.curPcb[s.now] + 1 == d
            && |CallsOf(s1).stacks[s.now]| == d && CallsOf(s1).stacks[s.now][d - 1] == start.ctx
  {
    SlotIsNext(s);
    ExecuteKeeps(s, Loadable, start.args, start.ctx);
  }

  lemma FrameKept(c: Calls, es: seq<Event>, t: nat, d: nat)
    requires c.Valid() && t < 3 && 0 < d <= |c.stacks[t]| && Inside(c, es, t, d)
    ensures var r := CallRun(c, es);
            |r.stacks[t]| >= d && r.stacks[t][d - 1] == c.stacks[t][d - 1]
  {
    FramesStay(c, es, t, d);
    assert CallRun(c, es).stacks[t][..d][d - 1] == c.stacks[t][..d][d - 1];
  }

  lemma {:induction false} HaltPops(s: State, c: Calls, status: nat, ctx: Context)
    requires Rel(s, c) && Booted(s) && s.curPcb[s.now] > 0
    ensures |c.stacks[s.now]| == s.curPcb[s.now] + 1
    ensures HaltSeen(s, status, ctx) == Resumed(Running(s) - 1, c.stacks[s.now][s.curPcb[s.now]], status)
  {
    HaltRefines(s, c, status, ctx);
    CallHaltAbove(c, status, ctx);
  }

  // ---- The process tables and the address space ----

  /** The kernel as it stands before the first tick: no process, nothing displayed. */
  ghost predicate Boot(s: State) {
    && Shaped(s) && s.now == 0 && s.cur == 3 && s.curPcb == [-1, -1, -1]
    && forall t, i :: 0 <= t < 3 && 0 <= i < 4 ==> !s.mask[t][i]
  }

  /** A machine whose memory is zero where the kernel has not written yet. */
  function PowerOn(): (s: State)
    ensures Boot(s)
  {
    var empty := Pcb(0, 0, 0, Context(0, 0), Context(0, 0), seq(8, _ => CLOSED), [], 0, 0);
    State(seq(3, _ => seq(4, _ => false)), [-1, -1, -1], seq(256, _ => empty), 0, 3, seq(1024, _ => 0), 0, 0)
  }

  lemma BootInv(s: State)
    requires Boot(s)
    ensures Inv(s)
  {
  }

  /**
   Process-stack discipline: after any run from boot the live slots of each terminal are exactly 0 up
   to its current one, at most six processes are live, every live process knows its own number, its
   terminal and the slot below as its parent, and has its first two descriptors open, the first to read
   its terminal and the second to write to it.
   */
  lemma {:induction false} StackDiscipline(s: State, es: seq<Event>, t: nat, i: nat)
    requires Inv(s) && CanRun(s, es) && t < 3 && i < 4
    ensures var r := Run(s, es);
            && (r.mask[t][i] <==> i <= r.curPcb[t])
            && Total(r.mask) == r.curPcb[0] + r.curPcb[1] + r.curPcb[2] + 3 <= 6
            && (r.mask[t][i] ==>
                  var q := r.pcbs[i + 4 * t];
                  && q.processNumber == i + 4 * t && q.termId == t
                  && q.parent == (if i == 0 then -1 else i - 1 + 4 * t)
                  && q.fds[0].open && q.fds[0].ops == StdinOps && q.fds[1].open && q.fds[1].ops == StdoutOps)
  {
    var r := Run(s, es);
    TotalIsDepths(r);
    assert (i + 4 * t) / 4 == t && (i + 4 * t) % 4 == i;
    if i <= r.curPcb[t] {
      assert PcbOk(r.pcbs[i + 4 * t], i + 4 * t);
    }
  }

  /**
   Address-space coherence: after any run, every address of the 4 MB page at 128 MB is translated into
   the running process's own frame, which the program may read and write, and the kernel stack pointer in the TSS leads to its own PCB.
   */
  lemma {:induction false} AddressSpaceOfRun(s: State, es: seq<Event>, va: bv32)
    requires Inv(s) && CanRun(s, es) && Run(s, es).curPcb[Run(s, es).now] >= 0
    requires 0x8000000 <= va < 0x8400000
    ensures var r := Run(s, es);
            && UserPage(EntryFor(r.pageDir, va)) && Translate(r.pageDir, va) == FrameOf(Running(r)) + (va - 0x8000000)
            && PcbFromEsp(r.esp0) == PcbAddress(Running(r))
  {
    var r := Run(s, es);
    ProgramPage(r.pageDir, Running(r), va);
    StackRange(Running(r));
    SamePcb(Running(r), r.esp0);
  }

  lemma StackRange(id: nat)
    requires id < 12
    ensures PcbAddress(id) <= StackTop(id) <= PcbAddress(id) + 0x1FFF
  {
    WordBelow(id);
    StackRangeBits(Word(id));
  }

  lemma StackRangeBits(w: bv32)
    requires w < 12
    ensures 0x800000 - (w + 1) * 0x2000 <= 0x800000 - w * 0x2000 - 4 <= 0x800000 - (w + 1) * 0x2000 + 0x1FFF
  {
  }

  // ---- Descriptors ----

  /**
   open gives the lowest descriptor not in use, at position 0, and fails exactly when there is none or
   no such file.
   */
  lemma OpenGivesLowest(s: State, found: bool, t: FileType, inode: nat)
    requires Inv(s) && s.curPcb[s.now] >= 0
    ensures var (r, o) := Open(s, found, t, inode); var fds := s.pcbs[Running(s)].fds;
            if found && exists i :: 0 <= i < 8 && !fds[i].open then
              && o.Returned? && 2 <= o.code < 8 && !fds[o.code].open
              && (forall i :: 0 <= i < o.code ==> fds[i].open)
              && r.pcbs[Running(s)].fds[o.code].open && r.pcbs[Running(s)].fds[o.code].position == 0
              && (forall i :: 0 <= i < 8 && i != o.code ==> r.pcbs[Running(s)].fds[i] == fds[i])
            else r == s && o == Returned(-1)
  {
    StepDefined(s, OpenCall(found, t, inode));
  }

  /** Closing what open gave brings the set of open descriptors back. */
  lemma {:induction false} OpenThenClose(s: State, t: FileType, inode: nat)
    requires Inv(s) && s.curPcb[s.now] >= 0
    requires Open(s, true, t, inode).1 != Returned(-1)
    ensures var (r, o) := Open(s, true, t, inode);
            o.Returned? && Inv(r) &&
            forall i :: 0 <= i < 8 ==>
              Close(r, o.code).0.pcbs[Running(s)].fds[i].open == s.pcbs[Running(s)].fds[i].open
  {
    OpenGivesLowest(s, true, t, inode);
    OpenChange(s, true, t, inode);
    var r := Open(s, true, t, inode).0;
    OnCurrentKeeps(s, r.pcbs[Running(s)]);
    StepDefined(s, OpenCall(true, t, inode));
  }

  // ---- Round robin ----

  function Ticks(es: seq<Event>): nat {
    if es == [] then 0 else (if es[0].Pit? then 1 else 0) + Ticks(es[1..])
  }

  /** The terminal `k` turns after terminal `n`. */
  function Turn(n: nat, k: nat): (r: nat)
    ensures r < 3
  {
    (n + k) % 3
  }

  lemma NextPlus(n: nat, k: nat)
    requires n < 3
    ensures Turn(Next(n), k) == Turn(n, 1 + k) && Turn(n, 0) == n
  {
  }

  lemma {:induction false} CallRoundRobin(c: Calls, es: seq<Event>)
    requires c.Valid()
    ensures CallRun(c, es).now == Turn(c.now, Ticks(es))
    decreases |es|
  {
    NextPlus(c.now, 0);
    if es != [] {
      CallRoundRobin(CallStep(c, es[0]).0, es[1..]);
      NextPlus(c.now, Ticks(es[1..]));
    }
  }

  /** Whatever happens in between, the k-th tick gives the processor to the k-th terminal from here. */
  lemma {:induction false} RoundRobin(s: State, es: seq<Event>)
    requires Inv(s) && CanRun(s, es)
    ensures Run(s, es).now == Turn(s.now, Ticks(es))
  {
    CallsOfRel(s);
    RunRefines(s, CallsOf(s), es);
    CallRoundRobin(CallsOf(s), es);
  }

  // ---- Contexts are conserved ----

  /** The processor stays away from terminal `t`. */
  predicate Away(c: Calls, es: seq<Event>, t: nat)
    requires c.Valid()
    decreases |es|
  {
    c.now != t && (es == [] || Away(CallStep(c, es[0]).0, es[1..], t))
  }

  lemma AwayStep(c: Calls, e: Event, t: nat)
    requires c.Valid() && t < 3 && c.now != t && CallStep(c, e).0.now != t
    ensures var r := CallStep(c, e).0; r.stacks[t] == c.stacks[t] && r.saved[t] == c.saved[t]
  {
  }

  /** Nothing that happens while it is away touches the terminal's stack or its saved context. */
  lemma {:induction false} AwayKeeps(c: Calls, es: seq<Event>, t: nat)
    requires c.Valid() && t < 3 && Away(c, es, t)
    ensures var r := CallRun(c, es); r.now != t && r.stacks[t] == c.stacks[t] && r.saved[t] == c.saved[t]
    decreases |es|
  {
    if es != [] {
      AwayStep(c, es[0], t);
      AwayKeeps(CallStep(c, es[0]).0, es[1..], t);
    }
  }

  /** It takes three ticks to come round. */
  lemma {:induction false} AwayForTwo(c: Calls, es: seq<Event>, t: nat, k: nat)
    requires c.Valid() && t < 3 && 1 <= k && c.now == Turn(t, k) && k + Ticks(es) <= 2
    ensures Away(c, es, t)
    decreases |es|
  {
    if es != [] {
      AwayForTwo(CallStep(c, es[0]).0, es[1..], t, if es[0].Pit? then k + 1 else k);
    }
  }

  /** The call-stack machine leaves a terminal, makes one more tick, and with the third is back where it was. */
  lemma CallsComeBack(c: Calls, leave: Event, es: seq<Event>, back: Event)
    requires c.Valid() && c.stacks[c.now] != [] && leave.Pit? && back.Pit? && Ticks(es) == 1
    ensures var r := CallRun(CallStep(c, leave).0, es);
            CallStep(r, back).1 == Switched(4 * c.now + |c.stacks[c.now]| - 1, leave.ctx)
  {
    var d := CallStep(c, leave).0;
    CallsLeave(c, leave);
    AwayForTwo(d, es, c.now, 1);
    AwayKeeps(d, es, c.now);
    CallRoundRobin(d, es);
    TwoTurns(c.now);
    CallsReturn(CallRun(d, es), back, c.now);
  }

  lemma TwoTurns(t: nat)
    requires t < 3
    ensures Turn(Turn(t, 1), 1) == Turn(t, 2)
  {
  }

  lemma CallsLeave(c: Calls, leave: Event)
    requires c.Valid() && c.stacks[c.now] != [] && leave.Pit?
    ensures var d := CallStep(c, leave).0;
            d.stacks[c.now] == c.stacks[c.now] && d.saved[c.now] == leave.ctx && d.now == Turn(c.now, 1)
  {
  }

  lemma CallsReturn(r: Calls, back: Event, t: nat)
    requires r.Valid() && t < 3 && r.now == Turn(t, 2) && r.stacks[t] != [] && back.Pit?
    ensures CallStep(r, back).1 == Switched(4 * t + |r.stacks[t]| - 1, r.saved[t])
  {
    assert Next(r.now) == t;
  }

  /**
   Context conservation: the third tick after a terminal was switched out resumes the very process that
   was running there, with the stack and base pointers saved then, whatever the other two terminals
   and the devices did in between.
   */
  lemma {:induction false} ContextConserved(s: State, leave: Event, s1: State, es: seq<Event>, s2: State, back: Event)
    requires Inv(s) && Booted(s) && leave.Pit? && s1 == After(s, leave)
    requires CanRun(s1, es) && Ticks(es) == 1 && s2 == Run(s1, es) && back.Pit?
    ensures Enabled(s2, back) && Step(s2, back).1 == Switched(Running(s), leave.ctx)
  {
    var c := CallsOf(s);
    TopOfCalls(s);
    LeaveAndRun(s, leave, s1, es);
    TickSeen(s2, CallRun(CallStep(c, leave).0, es), back);
    CallsComeBack(c, leave, es, back);
  }

  lemma TopOfCalls(s: State)
    requires Inv(s) && Booted(s)
    ensures var c := CallsOf(s); c.stacks[c.now] != [] && 4 * c.now + |c.stacks[c.now]| - 1 == Running(s)
  {
  }

  lemma {:induction false} LeaveAndRun(s: State, e: Event, s1: State, es: seq<Event>)
    requires Inv(s) && Enabled(s, e) && s1 == After(s, e) && CanRun(s1, es)
    ensures Rel(Run(s1, es), CallRun(CallStep(CallsOf(s), e).0, es))
  {
    CallsOfRel(s);
    StepRefines(s, CallsOf(s), e);
    RunRefines(s1, CallStep(CallsOf(s), e).0, es);
  }

  lemma TickSeen(s: State, c: Calls, e: Event)
    requires Rel(s, c) && e.Pit?
    ensures Enabled(s, e) && Step(s, e).1 == CallStep(c, e).1
  {
    StepRefines(s, c, e);
  }

  // ---- Start-up ----

  /** Nothing but the two timers. */
  ghost predicate Timers(es: seq<Event>) {
    forall i :: 0 <= i < |es| ==> es[i].Pit? || es[i].Rtc?
  }

  /** `k` shells have been launched, in the terminals 1, 2 and 0. */
  ghost predicate Launched(s: State, k: nat) {
    && Inv(s)
    && if k == 0 then s.curPcb == [-1, -1, -1] && s.now == 0 && s.cur == 3
       else if k == 1 then s.curPcb == [-1, 0, -1] && s.now == 1 && s.cur == 1
       else if k == 2 then s.curPcb == [-1, 0, 0] && s.now == 2 && s.cur == 2
       else k == 3 && s.curPcb == [0, 0, 0] && s.now == 0 && s.cur == 0
  }

  const LAUNCHES: seq<Observation> := [Started(4), Started(8), Started(0)]

  /** The steps of a trace that show. */
  function Visible(os: seq<Observation>): seq<Observation> {
    if os == [] then [] else (if os[0] == Silent then [] else [os[0]]) + Visible(os[1..])
  }

  /** A PIT tick launches the next shell, an RTC tick changes nothing here. */
  lemma {:induction false} BootStep(s: State, k: nat, e: Event)
    requires Launched(s, k) && k < 3 && (e.Pit? || e.Rtc?)
    ensures Enabled(s, e)
    ensures Launched(After(s, e), if e.Pit? then k + 1 else k)
    ensures Step(s, e).1 == if e.Pit? then LAUNCHES[k] else Silent
  {
    match e {
      case Pit(ctx, launchCtx) => LaunchKeeps(s, ctx, launchCtx);
      case Rtc => RtcKeeps(s);
    }
  }

  /** After the third launch further RTC ticks change nothing either. */
  lemma {:induction false} BootRest(s: State, es: seq<Event>)
    requires Launched(s, 3) && Timers(es) && Ticks(es) == 0
    ensures CanRun(s, es) && Launched(Run(s, es), 3) && Visible(Trace(s, es)) == []
    decreases |es|
  {
    if es != [] {
      RtcKeeps(s);
      BootRest(After(s, es[0]), es[1..]);
    }
  }

  lemma {:induction false} VisibleStep(s: State, es: seq<Event>)
    requires Inv(s) && es != [] && CanRun(s, es)
    ensures var o := Seen(es[0], Step(s, es[0]).1);
            Visible(Trace(s, es)) == (if o == Silent then [] else [o]) + Visible(Trace(After(s, es[0]), es[1..]))
  {
    assert Trace(s, es)[1..] == Trace(After(s, es[0]), es[1..]);
  }

  /** From the `k`-th launch on, these events can come in, and launch the shells that are missing. */
  ghost predicate BootsFrom(s: State, k: nat, es: seq<Event>)
    requires Inv(s) && k <= 3
  {
    CanRun(s, es) && Launched(Run(s, es), 3) && Visible(Trace(s, es)) == LAUNCHES[k..]
  }

  /** One event of start-up, and what it shows, in front of the rest. */
  lemma {:induction false} BootCons(s: State, k: nat, es: seq<Event>)
    requires Launched(s, k) && k < 3 && es != [] && (es[0].Pit? || es[0].Rtc?)
    requires BootsFrom(After(s, es[0]), if es[0].Pit? then k + 1 else k, es[1..])
    ensures BootsFrom(s, k, es)
  {
    BootStep(s, k, es[0]);
    LaunchesFrom(k);
    VisibleStep(s, es);
  }

  /** From any stage of start-up, the ticks that are missing launch the shells that are missing. */
  lemma {:induction false} BootFrom(s: State, k: nat, es: seq<Event>)
    requires Launched(s, k) && k <= 3 && Timers(es) && k + Ticks(es) == 3
    ensures BootsFrom(s, k, es)
    decreases |es|
  {
    if k == 3 {
      BootRest(s, es);
    } else {
      var next := NextLaunch(k, es);
      BootStep(s, k, es[0]);
      BootFrom(After(s, es[0]), next, es[1..]);
      BootCons(s, k, es);
    }
  }

  /** The shell that is launched next once the first event is over. */
  lemma NextLaunch(k: nat, es: seq<Event>) returns (next: nat)
    requires k < 3 && Timers(es) && k + Ticks(es) == 3
    ensures es != [] && (es[0].Pit? || es[0].Rtc?) && next == (if es[0].Pit? then k + 1 else k)
    ensures next <= 3 && Timers(es[1..]) && next + Ticks(es[1..]) == 3
  {
    next := if es[0].Pit? then k + 1 else k;
  }

  lemma LaunchesFrom(k: nat)
    requires k < 3
    ensures LAUNCHES[k..] == [LAUNCHES[k]] + LAUNCHES[k + 1..] && LAUNCHES[k] != Silent
  {
  }

  /**
   From boot, with RTC interrupts coming in at any moments, three PIT ticks start one shell per
   terminal, numbered 4, 8 and 0 in this order, and leave terminal 0 running and displayed.
   */
  lemma {:induction false} BootSequence(s: State, es: seq<Event>)
    requires Boot(s) && Timers(es) && Ticks(es) == 3
    ensures Inv(s) && CanRun(s, es)
    ensures var r := Run(s, es); r.curPcb == [0, 0, 0] && r.now == 0 && r.cur == 0 && Booted(r)
    ensures Visible(Trace(s, es)) == [Started(4), Started(8), Started(0)]
  {
    BootInv(s);
    BootFrom(s, 0, es);
  }

  lemma {:induction false} OnlyTimers(s: State, k: nat, e: Event)
    requires Launched(s, k) && k < 3 && Enabled(s, e)
    ensures e.Pit? || e.Rtc?
  {
    assert !Booted(s);
  }

  /** Before the third tick nothing but the timers is enabled, so every run starts like this. */
  lemma {:induction false} OnlyTimersBoot(s: State, k: nat, es: seq<Event>)
    requires Launched(s, k) && k + Ticks(es) < 3 && CanRun(s, es)
    ensures Timers(es)
    decreases |es|
  {
    if es != [] {
      assert es[0].Pit? || es[0].Rtc? by {
        OnlyTimers(s, k, es[0]);
      }
      assert Timers(es[1..]) by {
        BootStep(s, k, es[0]);
        OnlyTimersBoot(After(s, es[0]), if es[0].Pit? then k + 1 else k, es[1..]);
      }
    }
  }

  // ---- The first program ----

  ghost predicate OnlyTicks(es: seq<Event>) {
    forall i :: 0 <= i < |es| ==> es[i].Pit?
  }

  lemma {:induction false} TicksKeep(s: State, es: seq<Event>)
    requires Inv(s) && Booted(s) && OnlyTicks(es)
    ensures CanRun(s, es) && Run(s, es).curPcb == s.curPcb && Ticks(es) == |es|
    decreases |es|
  {
    if es != [] {
      SwitchKeeps(s, es[0].ctx, es[0].launchCtx);
      TicksKeep(After(s, es[0]), es[1..]);
    }
  }

  lemma {:induction false} TicksInside(c: Calls, es: seq<Event>, t: nat, d: nat)
    requires c.Valid() && t < 3 && OnlyTicks(es)
    ensures Inside(c, es, t, d)
    decreases |es|
  {
    if es != [] {
      TicksInside(CallStep(c, es[0]).0, es[1..], t, d);
    }
  }

  /** A number of full rounds of the scheduler brings the processor back. */
  lemma {:induction false} FullRounds(s: State, es: seq<Event>, d: nat)
    requires Inv(s) && Booted(s) && OnlyTicks(es) && |es| % 3 == 0
    ensures CanRun(s, es) && Run(s, es).now == s.now && Run(s, es).curPcb == s.curPcb
    ensures Inside(CallsOf(s), es, s.now, d)
  {
    TicksKeep(s, es);
    RoundRobin(s, es);
    RoundsOver(s.now, |es|);
    TicksInside(CallsOf(s), es, s.now, d);
  }

  lemma RoundsOver(n: nat, k: nat)
    requires n < 3 && k % 3 == 0
    ensures Turn(n, k) == n
  {
  }

  lemma {:induction false} OneShellEach(s: State, start: Event)
    requires Inv(s) && s.curPcb == [0, 0, 0] && s.now == s.cur && start.ExecuteCall? && start.image == Loadable
    ensures Booted(s) && Enabled(s, start) && Slot(s) < 4
    ensures Booted(After(s, start)) && After(s, start).now == s.now && After(s, start).curPcb[s.now] == 1
  {
    SlotIsNext(s);
    TotalIsDepths(s);
    StartPushes(s, start);
  }

  /** A program started by the only process of a terminal, full rounds of the scheduler, and its halt. */
  lemma {:induction false} ProgramReturns(s: State, start: Event, es: seq<Event>, status: nat, haltCtx: Context)
    requires Inv(s) && s.curPcb == [0, 0, 0] && s.now == s.cur
    requires start.ExecuteCall? && start.image == Loadable && OnlyTicks(es) && |es| % 3 == 0
    ensures Booted(s) && Enabled(s, start) && CanRun(After(s, start), es)
    ensures var s2 := Run(After(s, start), es);
            Booted(s2) && s2.curPcb[s2.now] > 0 && HaltSeen(s2, status, haltCtx) == Resumed(4 * s.now, start.ctx, status)
  {
    OneShellEach(s, start);
    FullRounds(After(s, start), es, 2);
    HaltReturnsToItsExecute(s, start, After(s, start), es, Run(After(s, start), es), status, haltCtx);
  }

  /**
   From power-on: the timers boot the machine, the shell of terminal 0 starts a program, the scheduler
   goes round, and when the program halts, shell 0 goes on with the context it had.
   */
  lemma {:induction false} FirstProgramReturns(boot: seq<Event>, start: Event, es: seq<Event>, status: nat, haltCtx: Context)
    requires Timers(boot) && Ticks(boot) == 3
    requires start.ExecuteCall? && start.image == Loadable && OnlyTicks(es) && |es| % 3 == 0
    ensures Inv(PowerOn()) && CanRun(PowerOn(), boot)
    ensures var s := Run(PowerOn(), boot);
            && Booted(s) && Enabled(s, start) && CanRun(After(s, start), es)
            && var s2 := Run(After(s, start), es);
               Booted(s2) && s2.curPcb[s2.now] > 0 && HaltSeen(s2, status, haltCtx) == Resumed(0, start.ctx, status)
  {
    BootSequence(PowerOn(), boot);
    ProgramReturns(Run(PowerOn(), boot), start, es, status, haltCtx);
  }
}
