/** The virtual RTC: a process that waits in rtc_read is counted down by real ticks and by nothing else. */
module Countdown {
  import opened Text
  import opened Processes
  import opened Runs
  import opened CallStacks
  import opened Guarantees

  ghost predicate SameCounters(before: seq<Pcb>, after: seq<Pcb>)
    requires |before| == |after| == 256
  {
    forall p :: 0 <= p < 256 ==> after[p].rtcCounter == before[p].rtcCounter
  }

  /** Creating and ending processes leaves every counter alone, even that of the slot reused. */
  lemma ExecuteCounters(s: State, image: Image, args: Args, ctx: Context)
    requires Shaped(s) && s.cur < 3
    ensures SameCounters(s.pcbs, Execute(s, image, args, ctx).0.pcbs)
  {
  }

  lemma HaltedCounters(pcbs: seq<Pcb>, id: nat, below: nat)
    requires |pcbs| == 256 && id < 256 && below < 256 && id != below
    requires |pcbs[id].fds| == |pcbs[below].fds| == 8
    ensures SameCounters(pcbs, HaltedPcbs(pcbs, id, below))
  {
  }

  lemma {:induction false} HaltCounters(s: State, status: nat, ctx: Context)
    requires Inv(s) && Enabled(s, HaltCall(status, ctx))
    ensures SameCounters(s.pcbs, Step(s, HaltCall(status, ctx)).0.pcbs)
  {
    if s.curPcb[s.now] > 0 {
      HaltKeeps(s, status, ctx);
      HaltedCounters(s.pcbs, Running(s), Running(s) - 1);
    } else {
      RootHaltCounters(s, status, ctx);
    }
  }

  lemma RootHaltCounters(s: State, status: nat, ctx: Context)
    requires Inv(s) && Booted(s) && s.curPcb[s.now] == 0 && s.now == s.cur
    ensures SameCounters(s.pcbs, Halt(s, status, ctx).0.pcbs)
  {
    RootHaltKeeps(s, status, ctx);
    HaltedCounters(s.pcbs, Running(s), PcbIndex(-1, s.now));
  }

  /** Saving a context, or making a new PCB in place of an old one, leaves the counters alone. */
  lemma ChangedCounters(pcbs: seq<Pcb>, after: seq<Pcb>, p: nat, q: Pcb)
    requires |pcbs| == |after| == 256 && SameCounters(pcbs, after) && p < 256
    requires q.rtcCounter == after[p].rtcCounter
    ensures SameCounters(pcbs, after[p := q])
  {
  }

  lemma PitCounters(s: State, ctx: Context, launchCtx: Context)
    requires Inv(s)
    ensures SameCounters(s.pcbs, PitTick(s, ctx, launchCtx).0.pcbs)
  {
    var left, next := Current(s, s.now), Next(s.now);
    ChangedCounters(s.pcbs, s.pcbs, left, s.pcbs[left].(ctx := ctx));
    if s.curPcb[next] == -1 {
      LaunchKeeps(s, ctx, launchCtx);
      var saved := SavedPcbs(s, ctx);
      ChangedCounters(s.pcbs, saved, 4 * next, NewPcb(saved[4 * next], 4 * next, next, launchCtx, NO_ARGS));
    } else {
      SwitchKeeps(s, ctx, launchCtx);
    }
  }

  /** A descriptor call can set the counter of the running process only. */
  lemma {:induction false} DescriptorCounters(s: State, e: Event, p: nat)
    requires Inv(s) && Enabled(s, e) && IsDescriptorCall(e) && p < 256 && p != Running(s)
    ensures Step(s, e).0.pcbs[p] == s.pcbs[p]
  {
    StepDefined(s, e);
  }

  /** No other event but an RTC tick changes any counter. */
  lemma {:induction false} OtherCounters(s: State, e: Event)
    requires Inv(s) && Enabled(s, e) && !IsDescriptorCall(e) && !e.Rtc?
    ensures SameCounters(s.pcbs, After(s, e).pcbs)
  {
    match e {
      case ExecuteCall(image, args, ctx) => ExecuteCounters(s, image, args, ctx);
      case HaltCall(status, ctx) => HaltCounters(s, status, ctx);
      case Pit(ctx, launchCtx) => PitCounters(s, ctx, launchCtx);
      case Display(_) =>
    }
  }

  /** Terminal `t`'s process is waiting in rtc_read: while it has the processor, nothing but interrupts happens. */
  predicate Waiting(s: State, e: Event, t: nat)
    requires Inv(s)
  {
    s.now == t ==> e.Pit? || e.Rtc? || e.Display?
  }

  lemma {:induction false} CurrentStays(s: State, e: Event, t: nat)
    requires Inv(s) && Enabled(s, e) && Waiting(s, e, t) && t < 3 && s.curPcb[t] >= 0
    ensures After(s, e).curPcb[t] == s.curPcb[t]
  {
    CallsOfRel(s);
    assert Rel(After(s, e), CallStep(CallsOf(s), e).0) by {
      StepRefines(s, CallsOf(s), e);
    }
    OtherStackStays(CallsOf(s), e, t);
  }

  lemma OtherStackStays(c: Calls, e: Event, t: nat)
    requires c.Valid() && t < 3 && c.stacks[t] != []
    requires c.now == t ==> !e.ExecuteCall? && !e.HaltCall?
    ensures CallStep(c, e).0.stacks[t] == c.stacks[t]
  {
  }

  lemma {:induction false} CounterStep(s: State, e: Event, t: nat)
    requires Inv(s) && Enabled(s, e) && Waiting(s, e, t) && t < 3 && s.curPcb[t] >= 0
    ensures var id := s.curPcb[t] + 4 * t;
            After(s, e).pcbs[id].rtcCounter ==
            if e.Rtc? then Less(s.pcbs[id].rtcCounter) else s.pcbs[id].rtcCounter
  {
    if e.Rtc? {
      RtcCounts(s, t);
    } else {
      CounterKept(s, e, t);
    }
  }

  lemma {:induction false} CounterKept(s: State, e: Event, t: nat)
    requires Inv(s) && Enabled(s, e) && Waiting(s, e, t) && t < 3 && s.curPcb[t] >= 0 && !e.Rtc?
    ensures var id := s.curPcb[t] + 4 * t;
            After(s, e).pcbs[id].rtcCounter == s.pcbs[id].rtcCounter
  {
    if IsDescriptorCall(e) {
      DescriptorCounters(s, e, s.curPcb[t] + 4 * t);
    } else {
      OtherCounters(s, e);
    }
  }

  ghost predicate WaitsThrough(s: State, es: seq<Event>, t: nat)
    requires Inv(s) && CanRun(s, es)
    decreases |es|
  {
    es == [] || (Waiting(s, es[0], t) && WaitsThrough(After(s, es[0]), es[1..], t))
  }

  function RtcTicks(es: seq<Event>): nat {
    if es == [] then 0 else (if es[0].Rtc? then 1 else 0) + RtcTicks(es[1..])
  }

  function Minus(c: nat, k: nat): nat {
    if k <= c then c - k else 0
  }

  /** The counter in terminal `t`'s slot `k`. */
  function CounterIn(s: State, t: nat, k: int): nat
    requires Shaped(s) && t < 3 && 0 <= k < 4
  {
    s.pcbs[k + 4 * t].rtcCounter
  }

  lemma {:induction false} OneDown(s: State, e: Event, t: nat)
    requires Inv(s) && Enabled(s, e) && Waiting(s, e, t) && t < 3 && s.curPcb[t] >= 0
    ensures var r := After(s, e);
            && r.curPcb[t] == s.curPcb[t]
            && CounterIn(r, t, s.curPcb[t]) == Minus(CounterIn(s, t, s.curPcb[t]), if e.Rtc? then 1 else 0)
  {
    CurrentStays(s, e, t);
    CounterStep(s, e, t);
  }

  /** Whatever the other terminals do meanwhile, k RTC ticks take exactly k off a waiting process's counter. */
  lemma {:induction false} CountsDown(s: State, es: seq<Event>, t: nat)
    requires Inv(s) && CanRun(s, es) && t < 3 && s.curPcb[t] >= 0 && WaitsThrough(s, es, t)
    ensures var r := Run(s, es);
            && r.curPcb[t] == s.curPcb[t]
            && CounterIn(r, t, s.curPcb[t]) == Minus(CounterIn(s, t, s.curPcb[t]), RtcTicks(es))
    decreases |es|
  {
    if es != [] {
      OneDown(s, es[0], t);
      CountsDown(After(s, es[0]), es[1..], t);
    }
  }

  /** The counter of terminal `t`'s process. */
  function CounterOf(s: State, t: nat): nat
    requires Shaped(s) && t < 3
  {
    s.pcbs[Current(s, t)].rtcCounter
  }

  /** The frequency of the running process. */
  function FrequencyOf(s: State): nat
    requires Shaped(s)
  {
    s.pcbs[Current(s, s.now)].rtcFreq
  }

  /** How many real ticks one virtual period takes; the division is exact. */
  function Period(f: nat): (r: nat)
    requires ValidFreq(f)
    ensures r * f == 1024
  {
    1024 / f
  }

  /** The RTC frequency of a process with an open RTC is a power of two, and its reads wait one period of it. */
  lemma ReadFrequency(s: State, fd: nat)
    requires Inv(s) && Enabled(s, RtcReadCall(fd))
    ensures ValidFreq(FrequencyOf(s))
    ensures var r := After(s, RtcReadCall(fd));
            CounterOf(r, s.now) == Period(FrequencyOf(s)) && r.curPcb == s.curPcb
  {
    RtcChange(s, fd, 0, 0);
    StepDefined(s, RtcReadCall(fd));
  }

  /**
   A process that enters rtc_read at frequency f is released, its counter at zero, exactly when
   1024 / f RTC ticks have gone by, under every interleaving of the other terminals' steps.
   */
  lemma {:induction false} ReleasedOnTime(s: State, fd: nat, es: seq<Event>)
    requires Inv(s) && Enabled(s, RtcReadCall(fd))
    requires CanRun(After(s, RtcReadCall(fd)), es) && WaitsThrough(After(s, RtcReadCall(fd)), es, s.now)
    ensures ValidFreq(FrequencyOf(s))
    ensures var left := CounterOf(Run(After(s, RtcReadCall(fd)), es), s.now);
            && left == Minus(Period(FrequencyOf(s)), RtcTicks(es))
            && (left == 0 <==> RtcTicks(es) >= Period(FrequencyOf(s)))
  {
    ReadFrequency(s, fd);
    CountsDown(After(s, RtcReadCall(fd)), es, s.now);
  }
}
