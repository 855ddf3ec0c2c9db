/**
 The page behind a program's view of video memory: which physical page the PIT handler puts there, and
 how long it stays the right one.
 */
module VideoPages {
  import opened Paging
  import opened Processes
  import opened Runs
  import opened Guarantees
  import CallStacks
  import Shortfalls

  /** The physical page of a page table entry. */
  function PageBase(entry: bv32): bv32 {
    entry & 0xFFFFF000
  }

  /** The physical page a program of terminal `t` should draw on: the display if it is displayed, else the terminal's buffer. */
  function RightPage(cur: nat, t: nat): bv32
    requires t < 3
  {
    if cur == t then 0xB8000 else 0xB9000 + 0x1000 * Word(t)
  }

  lemma BufferBits(w: bv32)
    requires w < 3
    ensures (0xB9000 + 0x1000 * w) | 0x7 == 0xB9000 + 0x1000 * w + 7
    ensures PageBase((0xB9000 + 0x1000 * w) | 0x7) == 0xB9000 + 0x1000 * w
    ensures 0xB9000 <= 0xB9000 + 0x1000 * w <= 0xBB000
  {
  }

  lemma WordOf(t: nat)
    requires t < 3
    ensures Word(t) == if t == 0 then 0 else if t == 1 then 1 else 2
  {
    match t
    case 0 => case 1 => case 2 =>
  }

  /**
   A tick that switches to a terminal maps the display if and only if that terminal is the one displayed,
   and otherwise the terminal's own buffer, the pages of the three lying one behind the other; the page is
   present, writable and the user's.
   */
  lemma {:induction false} SwitchMaps(s: State, ctx: Context, launchCtx: Context)
    requires Inv(s) && s.curPcb[Next(s.now)] >= 0
    ensures var page := PitTick(s, ctx, launchCtx).0.videoPage; var next := Next(s.now);
            && (PageBase(page) == 0xB8000 <==> s.cur == next)
            && (s.cur != next ==> PageBase(page) == 0xB9000 + 0x1000 * Word(next))
            && page == PageBase(page) | 0x7
  {
    var next := Next(s.now);
    SwitchKeeps(s, ctx, launchCtx);
    WordOf(next);
    BufferBits(Word(next));
  }

  /** Two different terminals, neither displayed, never get the same page. */
  lemma {:induction false} BuffersDiffer(s: State, r: State, ctx: Context, launchCtx: Context)
    requires Inv(s) && s.curPcb[Next(s.now)] >= 0 && s.cur != Next(s.now)
    requires Inv(r) && r.curPcb[Next(r.now)] >= 0 && r.cur != Next(r.now) && Next(s.now) != Next(r.now)
    ensures PitTick(s, ctx, launchCtx).0.videoPage != PitTick(r, ctx, launchCtx).0.videoPage
  {
    SwitchMaps(s, ctx, launchCtx);
    SwitchMaps(r, ctx, launchCtx);
    WordOf(Next(s.now));
    WordOf(Next(r.now));
  }

  // ---- Over runs ----

  /** The page mapped is the right one for the terminal that runs. */
  ghost predicate Belongs(s: State)
    requires Shaped(s)
  {
    PageBase(s.videoPage) == RightPage(s.cur, s.now)
  }

  lemma {:induction false} PageOfHalt(s: State, status: nat, ctx: Context)
    requires Inv(s) && Enabled(s, HaltCall(status, ctx))
    ensures var r := HaltOf(s, status, ctx).0; r.videoPage == s.videoPage && r.now == s.now && r.cur == s.cur
  {
    if s.curPcb[s.now] > 0 {
      HaltIs(s, status, ctx);
    } else {
      RootHaltIs(s, status, ctx);
      RootFreedReady(s);
      ExecuteStarted(RootFreed(s), NO_ARGS, ctx);
    }
  }

  lemma {:induction false} PageOfCall(s: State, e: Event)
    requires Inv(s) && Enabled(s, e) && CallStacks.IsDescriptorCall(e)
    ensures var r := Step(s, e).0; r.videoPage == s.videoPage && r.now == s.now && r.cur == s.cur
  {
    StepDefined(s, e);
  }

  /** Only ticks change the page and the terminal that runs, and only display switches the terminal displayed. */
  lemma {:induction false} PageStays(s: State, e: Event)
    requires Inv(s) && Enabled(s, e) && !e.Pit?
    ensures var r := After(s, e); r.videoPage == s.videoPage && r.now == s.now && (!e.Display? ==> r.cur == s.cur)
  {
    match e {
      case ExecuteCall(image, args, ctx) =>
      case HaltCall(status, ctx) => PageOfHalt(s, status, ctx);
      case Rtc => RtcKeeps(s);
      case Display(t) =>
      case _ => PageOfCall(s, e);
    }
  }

  ghost predicate NoDisplay(es: seq<Event>) {
    forall i :: 0 <= i < |es| ==> !es[i].Display?
  }

  lemma {:induction false} PageStaysOver(s: State, es: seq<Event>)
    requires Inv(s) && CanRun(s, es) && Ticks(es) == 0
    ensures var r := Run(s, es); r.videoPage == s.videoPage && r.now == s.now && (NoDisplay(es) ==> r.cur == s.cur)
    decreases |es|
  {
    if es != [] {
      PageStays(s, es[0]);
      PageStaysOver(After(s, es[0]), es[1..]);
    }
  }

  lemma RightPages(a: nat, b: nat, t: nat)
    requires t < 3
    ensures RightPage(a, t) == RightPage(b, t) <==> (a == t <==> b == t)
  {
    WordOf(t);
    BufferBits(Word(t));
  }

  /**
   From one tick up to the next, whatever the processes do and however the display is switched, the page
   is the right one for the terminal that runs if and only if that terminal is displayed now exactly if it
   was displayed at the tick.  Without a display switch it is the right one.
   */
  lemma {:induction false} PageOfRun(s: State, tick: Event, es: seq<Event>)
    requires Inv(s) && Booted(s) && tick.Pit? && CanRun(After(s, tick), es) && Ticks(es) == 0
    ensures var r := Run(After(s, tick), es);
            && r.now == Next(s.now)
            && PageBase(r.videoPage) == RightPage(s.cur, r.now)
            && (Belongs(r) <==> (r.cur == r.now <==> s.cur == r.now))
            && (NoDisplay(es) ==> Belongs(r))
  {
    SwitchMaps(s, tick.ctx, tick.launchCtx);
    SwitchKeeps(s, tick.ctx, tick.launchCtx);
    PageStaysOver(After(s, tick), es);
    RightPages(Run(After(s, tick), es).cur, s.cur, Next(s.now));
  }

  /** The display is switched to a terminal while it runs: until the next tick it draws where nobody sees it. */
  lemma {:induction false} PageElsewhere() returns (s: State)
    ensures Shortfalls.Reachable(s) && Inv(s) && Booted(s) && s.now == s.cur == 1 && PageBase(s.videoPage) == 0xBA000
  {
    s := Shortfalls.UpAndRunning();
    Shortfalls.ReachStep(s, Shortfalls.TICK);
    SwitchMaps(s, Shortfalls.CTX, Shortfalls.CTX);
    SwitchKeeps(s, Shortfalls.CTX, Shortfalls.CTX);
    WordOf(1);
    s := After(s, Shortfalls.TICK);
    s := Shortfalls.Displays(s, 1);
  }
}
