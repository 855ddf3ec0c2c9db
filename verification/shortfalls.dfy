/**
 Where the guarantees of the process system end: for each shortfall the exact condition, for all
 states, and a state reachable from power-on at which it shows.
 */
module Shortfalls {
  import opened Text
  import opened Paging
  import opened Processes
  import opened Runs
  import opened Guarantees

  // ---- Reachable states ----

  /** The enabled events `es` lead from power-on to `s`. */
  ghost predicate LeadsTo(es: seq<Event>, s: State)
    decreases |es|
  {
    if es == [] then s == PowerOn()
    else
      var last := es[|es| - 1];
      exists p :: LeadsTo(es[..|es| - 1], p) && Inv(p) && Enabled(p, last) && s == After(p, last)
  }

  ghost predicate Reachable(s: State) {
    exists es :: LeadsTo(es, s)
  }

  lemma PowerOnReachable()
    ensures Inv(PowerOn()) && Reachable(PowerOn())
  {
    BootInv(PowerOn());
    assert LeadsTo([], PowerOn());
  }

  lemma OneMore(es: seq<Event>, s: State, e: Event, r: State)
    requires LeadsTo(es, s) && Inv(s) && Enabled(s, e) && r == After(s, e)
    ensures LeadsTo(es + [e], r)
  {
    var fs := es + [e];
    assert fs[..|fs| - 1] == es && fs[|fs| - 1] == e;
  }

  lemma ReachStep(s: State, e: Event)
    requires Reachable(s) && Inv(s) && Enabled(s, e)
    ensures Reachable(After(s, e))
  {
    var es :| LeadsTo(es, s);
    OneMore(es, s, e, After(s, e));
  }

  const CTX: Context := Context(0, 0)
  const TICK: Event := Pit(CTX, CTX)
  const EXEC: Event := ExecuteCall(Loadable, NO_ARGS, CTX)
  const OPEN: Event := OpenCall(true, FileType, 0)

  /** The shells launched so far have fresh descriptors. */
  ghost predicate FreshShells(s: State)
    requires Shaped(s)
  {
    forall t :: 0 <= t < 3 && s.curPcb[t] == 0 ==> s.pcbs[4 * t].fds == FreshFds()
  }

  lemma FreshTables(pcbs: seq<Pcb>, curPcb: seq<int>, left: nat, ctx: Context, next: nat, q: Pcb)
    requires |pcbs| == 256 && |curPcb| == 3 && left < 256 && next < 3 && q.fds == FreshFds()
    requires forall t :: 0 <= t < 3 && curPcb[t] == 0 ==> pcbs[4 * t].fds == FreshFds()
    ensures var after := pcbs[left := pcbs[left].(ctx := ctx)][4 * next := q];
            forall t :: 0 <= t < 3 && curPcb[next := 0][t] == 0 ==> after[4 * t].fds == FreshFds()
  {
  }

  lemma FreshLaunch(s: State) returns (r: State)
    requires Inv(s) && s.curPcb[Next(s.now)] == -1 && Reachable(s) && FreshShells(s)
    ensures Inv(r) && Reachable(r) && FreshShells(r)
    ensures var next := Next(s.now); r.curPcb == s.curPcb[next := 0] && r.now == next && r.cur == next
  {
    var next := Next(s.now);
    LaunchKeeps(s, CTX, CTX);
    ReachStep(s, TICK);
    r := After(s, TICK);
    FreshTables(s.pcbs, s.curPcb, Current(s, s.now), CTX, next,
                NewPcb(SavedPcbs(s, CTX)[4 * next], 4 * next, next, CTX, NO_ARGS));
  }

  lemma TwoLaunched() returns (s: State)
    ensures Inv(s) && Reachable(s) && FreshShells(s) && s.curPcb == [-1, 0, 0] && s.now == 2 && s.cur == 2
  {
    PowerOnReachable();
    s := FreshLaunch(PowerOn());
    assert s.curPcb == [-1, 0, -1];
    s := FreshLaunch(s);
  }

  /** The machine as three ticks leave it. */
  lemma UpAndRunning() returns (s: State)
    ensures Inv(s) && Reachable(s) && s.curPcb == [0, 0, 0] && s.now == 0 && s.cur == 0 && Booted(s)
    ensures s.pcbs[0].fds == FreshFds() && s.pcbs[4].fds == FreshFds()
  {
    s := TwoLaunched();
    s := FreshLaunch(s);
    assert s.pcbs[4 * 0].fds == FreshFds() && s.pcbs[4 * 1].fds == FreshFds();
  }

  /** A program is started on the displayed terminal; `p` is any other process. */
  lemma Exec(s: State, p: nat) returns (r: State)
    requires Inv(s) && Reachable(s) && Booted(s) && s.now == s.cur && s.curPcb[s.cur] < 3 && p < 256 && p != Running(s) + 1
    requires s.curPcb[0] + s.curPcb[1] + s.curPcb[2] < 3
    ensures Inv(r) && Reachable(r) && Booted(r) && r.now == s.now && r.cur == s.cur
    ensures r.curPcb == s.curPcb[s.cur := s.curPcb[s.cur] + 1]
    ensures Running(s) + 1 < 12 && r.pcbs[Running(s) + 1].fds == FreshFds() && r.pcbs[p] == s.pcbs[p]
  {
    TotalIsDepths(s);
    SlotIsNext(s);
    ExecuteKeeps(s, Loadable, NO_ARGS, CTX);
    ReachStep(s, EXEC);
    r := After(s, EXEC);
  }

  lemma OpensFresh(s: State)
    requires Inv(s) && Booted(s) && s.pcbs[Running(s)].fds == FreshFds()
    ensures var r := Open(s, true, FileType, 0).0; var id := Running(s);
            r == s.(pcbs := s.pcbs[id := r.pcbs[id]]) && r.pcbs[id].fds[2].open
  {
    assert !s.pcbs[Running(s)].fds[2].open;
    OpenGivesLowest(s, true, FileType, 0);
    OpenChange(s, true, FileType, 0);
  }

  /** A process with fresh descriptors opens a file and gets descriptor 2; `p` is any other process. */
  lemma Opens(s: State, p: nat) returns (r: State)
    requires Inv(s) && Reachable(s) && Booted(s) && s.pcbs[Running(s)].fds == FreshFds() && p < 256 && p != Running(s)
    ensures Inv(r) && Reachable(r) && Booted(r) && r.now == s.now && r.cur == s.cur && r.curPcb == s.curPcb
    ensures r.pcbs[Running(s)].fds[2].open && r.pcbs[p] == s.pcbs[p]
  {
    r := After(s, OPEN);
    assert Inv(r) && Reachable(r) by {
      ReachStep(s, OPEN);
    }
    OpensFresh(s);
  }

  lemma Displays(s: State, t: nat) returns (r: State)
    requires Inv(s) && Reachable(s) && Booted(s) && t < 3
    ensures Inv(r) && Reachable(r) && Booted(r) && r == s.(cur := t)
  {
    ReachStep(s, Display(t));
    r := After(s, Display(t));
  }

  // ---- A load that fails ----

  /**
   A refused execute leaves the kernel as it was if and only if the refusal is not a load that failed
   after a slot had been taken: that slot stays marked, and the caller's program page is gone.
   */
  lemma RefusalLeavesNothing(s: State, image: Image, args: Args, ctx: Context)
    requires Shaped(s) && s.cur < 3
    requires Execute(s, image, args, ctx).1.Refused?
    ensures Execute(s, image, args, ctx).0 == s <==> !(image == BadBlocks && Slot(s) < 4)
    ensures Execute(s, image, args, ctx).0.mask == s.mask <==> !(image == BadBlocks && Slot(s) < 4)
  {
    var slot := Slot(s);
    if image == BadBlocks && slot < 4 {
      assert Execute(s, image, args, ctx).0.mask[s.cur][slot] && !s.mask[s.cur][slot];
    }
  }

  /** From a shell that executes a file with an unknown block number: a slot is lost, and the shell's page. */
  lemma FailedLoadLeaks() returns (s: State)
    ensures Inv(s) && Reachable(s) && Booted(s) && s.now == s.cur && Slot(s) < 4
    ensures var (r, o) := Execute(s, BadBlocks, NO_ARGS, CTX);
            o == Refused(-1) && Total(r.mask) == Total(s.mask) + 1 && !Addresses(r, Running(r))
  {
    s := UpAndRunning();
    SlotIsNext(s);
    TotalIsDepths(s);
    var r := Execute(s, BadBlocks, NO_ARGS, CTX).0;
    assert r.pageDir[32] == DirectoryEntry(FrameOf(1)) != DirectoryEntry(FrameOf(0));
  }

  // ---- Execute on a terminal that is not displayed ----

  /** At most one process is the one addressed. */
  lemma OneAddressed(r: State, a: nat, b: nat)
    requires Shaped(r) && a < 12 && b < 12 && Addresses(r, a)
    ensures Addresses(r, b) <==> a == b
  {
    if a != b {
      StackTopsDiffer(a, b);
    }
  }

  lemma ExecuteEnters(s: State, args: Args, ctx: Context)
    requires Inv(s) && Booted(s) && Slot(s) < 4
    ensures var r := Execute(s, Loadable, args, ctx).0; var id := Slot(s) + 4 * s.cur;
            && id < 12 && Addresses(r, id) && 0 <= Running(r) < 12
            && (Running(r) == id <==> s.now == s.cur)
  {
    SlotIsNext(s);
    ExecuteStarted(s, args, ctx);
  }

  /**
   An execute that starts a program leaves the addressed process and the scheduled one the same if and
   only if it was called on the terminal displayed.  On another one, the new process is entered in the
   displayed terminal's table, but the scheduler goes on counting the time to the caller's terminal.
   */
  lemma {:induction false} ExecuteCoherentIffDisplayed(s: State, args: Args, ctx: Context)
    requires Inv(s) && Booted(s) && Slot(s) < 4
    ensures var r := Execute(s, Loadable, args, ctx).0;
            0 <= Running(r) < 12 && (Addresses(r, Running(r)) <==> s.now == s.cur)
  {
    ExecuteEnters(s, args, ctx);
    var r := Execute(s, Loadable, args, ctx).0;
    OneAddressed(r, Slot(s) + 4 * s.cur, Running(r));
  }

  /** A shell that runs in the background executes: its own time goes to the new program. */
  lemma ExecuteElsewhere() returns (s: State)
    ensures Inv(s) && Reachable(s) && Booted(s) && Slot(s) < 4
    ensures var r := Execute(s, Loadable, NO_ARGS, CTX).0; 0 <= Running(r) < 12 && !Addresses(r, Running(r))
  {
    s := UpAndRunning();
    s := Displays(s, 1);
    SlotIsNext(s);
    TotalIsDepths(s);
    ExecuteCoherentIffDisplayed(s, NO_ARGS, CTX);
  }

  /** A root shell that halts leaves the tables in order if and only if its terminal is displayed. */
  lemma {:induction false} RootHaltKeepsIffDisplayed(s: State, status: nat, ctx: Context)
    requires Inv(s) && Booted(s) && s.curPcb[s.now] == 0
    ensures Inv(HaltOf(s, status, ctx).0) <==> s.now == s.cur
  {
    if s.now == s.cur {
      RootHaltKeeps(s, status, ctx);
    } else {
      RootHaltIs(s, status, ctx);
      BackgroundRootHalt(s, ctx);
    }
  }

  lemma BackgroundRootHalt(s: State, ctx: Context)
    requires Inv(s) && Booted(s) && s.curPcb[s.now] == 0 && s.now != s.cur
    ensures var r := Execute(RootFreed(s), Loadable, NO_ARGS, ctx).0; r.curPcb[s.now] == -1 && !Inv(r)
  {
    var r := Execute(RootFreed(s), Loadable, NO_ARGS, ctx).0;
    assert r.now == s.now && r.cur == s.cur && r.curPcb[s.now] == -1 && r.curPcb[s.cur] >= 0;
  }

  /** The shell of terminal 0 exits while terminal 1 is displayed: terminal 0 has no process any more. */
  lemma RootHaltElsewhere() returns (s: State)
    ensures Inv(s) && Reachable(s) && Booted(s) && s.curPcb[s.now] == 0 && !Inv(HaltOf(s, 0, CTX).0)
  {
    s := UpAndRunning();
    s := Displays(s, 1);
    RootHaltKeepsIffDisplayed(s, 0, CTX);
  }

  // ---- Halt and descriptors ----

  /**
   What a halt does to descriptors: the parent loses exactly those it shares a number from 2 up with
   an open descriptor of the child, because the child's are closed through the parent's table.  No
   process but the two is touched; the halt of a root shell is another matter, below.
   */
  lemma {:induction false} HaltClosesParents(s: State, status: nat, ctx: Context, i: nat, p: nat)
    requires Inv(s) && Booted(s) && s.curPcb[s.now] > 0 && i < 8 && p < 256
    ensures var r := HaltOf(s, status, ctx).0; var id := Running(s);
            && (r.pcbs[id - 1].fds[i].open <==>
                  s.pcbs[id - 1].fds[i].open && !(i >= 2 && s.pcbs[id].fds[i].open))
            && !r.pcbs[id].fds[i].open
            && (p != id && p != id - 1 ==> r.pcbs[p] == s.pcbs[p])
  {
    HaltKeeps(s, status, ctx);
  }

  /** The parent keeps all its descriptors exactly when the child has none open that the parent has open too. */
  lemma {:induction false} ParentKeepsAllIff(s: State, status: nat, ctx: Context)
    requires Inv(s) && Booted(s) && s.curPcb[s.now] > 0
    ensures var r := HaltOf(s, status, ctx).0; var id := Running(s);
            r.pcbs[id - 1] == s.pcbs[id - 1] <==>
            forall i :: 2 <= i < 8 ==> !(s.pcbs[id].fds[i].open && s.pcbs[id - 1].fds[i].open)
  {
    HaltKeeps(s, status, ctx);
    ClosesNothingIff(s.pcbs[Running(s)].fds, s.pcbs[Running(s) - 1].fds);
  }

  lemma ClosesNothingIff(own: seq<Fd>, through: seq<Fd>)
    requires |own| == |through| == 8
    ensures ClosedThrough(own, through) == through <==> forall i :: 2 <= i < 8 ==> !(own[i].open && through[i].open)
  {
    if i :| 2 <= i < 8 && own[i].open && through[i].open {
      assert !ClosedThrough(own, through)[i].open;
    }
  }

  /** The shell of terminal 0 has a file open. */
  lemma FileInShell() returns (s: State)
    ensures Inv(s) && Reachable(s) && Booted(s) && s.curPcb == [0, 0, 0] && s.now == 0 && s.cur == 0
    ensures s.pcbs[0].fds[2].open
  {
    s := UpAndRunning();
    s := Opens(s, 4);
  }

  /** And has started a program. */
  lemma ProgramInShell() returns (s: State)
    ensures Inv(s) && Reachable(s) && Booted(s) && s.curPcb == [1, 0, 0] && s.now == 0 && s.cur == 0
    ensures s.pcbs[0].fds[2].open && s.pcbs[1].fds == FreshFds()
  {
    s := FileInShell();
    s := Exec(s, 0);
  }

  /** A shell with a file open starts a program that opens one too and halts: the shell has lost its file. */
  lemma ParentLosesFile() returns (s: State)
    ensures Inv(s) && Reachable(s) && Booted(s) && s.curPcb[s.now] > 0 && Enabled(s, HaltCall(0, CTX))
    ensures s.pcbs[Running(s) - 1].fds[2].open && !HaltOf(s, 0, CTX).0.pcbs[Running(s) - 1].fds[2].open
  {
    s := ProgramInShell();
    s := Opens(s, 0);
    HaltClosesParents(s, 0, CTX, 2, 0);
  }

  /** The PCB a root shell's descriptors are closed through: in terminal 0 none, else that of the last slot of the terminal before. */
  function Stranger(t: nat): (r: nat)
    requires t < 3
    ensures r == if t == 0 then 255 else 4 * t - 1
  {
    PcbIndex(-1, t)
  }

  /** The process a root shell is restarted as; its own number when it is not restarted. */
  function Restarted(s: State, status: nat, ctx: Context): nat
    requires Inv(s) && Booted(s)
  {
    var o := HaltOf(s, status, ctx).1;
    if o.Started? then o.id else 4 * s.now
  }

  lemma {:induction false} RestartedIs(s: State, status: nat, ctx: Context)
    requires Inv(s) && Booted(s) && s.curPcb[s.now] == 0
    ensures var slot := Slot(RootFreed(s));
            Restarted(s, status, ctx) == if slot < 4 then slot + 4 * s.cur else 4 * s.now
  {
    RootHaltIs(s, status, ctx);
    if Slot(RootFreed(s)) < 4 {
      ExecuteStarted(RootFreed(s), NO_ARGS, ctx);
    }
  }

  /** The slot a root shell is restarted in was free, or its own. */
  lemma {:induction false} RestartSlot(s: State)
    requires Inv(s) && Booted(s) && s.curPcb[s.now] == 0
    ensures var slot := Slot(RootFreed(s));
            if s.now == s.cur then slot == 0 else slot < 4 ==> !s.mask[s.cur][slot]
  {
    if s.now == s.cur {
      RootFreedReady(s);
    }
  }

  lemma {:induction false} RestartedWasFree(s: State, status: nat, ctx: Context)
    requires Inv(s) && Booted(s) && s.curPcb[s.now] == 0
    ensures var id := Restarted(s, status, ctx);
            id < 12 && (id == 4 * s.now || !s.mask[id / 4][id % 4])
  {
    RestartedIs(s, status, ctx);
    RestartSlot(s);
    var slot := Slot(RootFreed(s));
    assert slot < 4 ==> (slot + 4 * s.cur) / 4 == s.cur && (slot + 4 * s.cur) % 4 == slot;
  }

  /** The PCBs after the halt of a root shell, on whatever terminal. */
  lemma {:induction false} RootHaltPcbs(s: State, status: nat, ctx: Context)
    requires Inv(s) && Booted(s) && s.curPcb[s.now] == 0
    ensures var after, d, new_ := HaltOf(s, status, ctx).0.pcbs, Stranger(s.now), Restarted(s, status, ctx);
            && |after| == 256
            && (d != new_ ==> after[d] == s.pcbs[d].(fds := ClosedThrough(s.pcbs[4 * s.now].fds, s.pcbs[d].fds)))
            && forall p :: 0 <= p < 256 && p != d && p != 4 * s.now && p != new_ ==> after[p] == s.pcbs[p]
  {
    var q := RootHaltTable(s, status, ctx);
    FreedTable(s.pcbs, 4 * s.now, Stranger(s.now), HaltOf(s, status, ctx).0.pcbs, Restarted(s, status, ctx), q);
  }

  lemma {:induction false} RootHaltTable(s: State, status: nat, ctx: Context) returns (q: Pcb)
    requires Inv(s) && Booted(s) && s.curPcb[s.now] == 0
    ensures var after, new_ := HaltOf(s, status, ctx).0.pcbs, Restarted(s, status, ctx);
            var freed := HaltedPcbs(s.pcbs, 4 * s.now, Stranger(s.now));
            new_ < 12 && (after == freed || after == freed[new_ := q])
  {
    RootHaltIs(s, status, ctx);
    RestartedIs(s, status, ctx);
    var freed := RootFreed(s);
    q := s.pcbs[0];
    if Slot(freed) < 4 {
      ExecuteStarted(freed, NO_ARGS, ctx);
      var id := Slot(freed) + 4 * s.cur;
      q := NewPcb(freed.pcbs[id], id, s.cur, ctx, NO_ARGS);
    }
  }

  lemma FreedTable(pcbs: seq<Pcb>, id: nat, below: nat, after: seq<Pcb>, new_: nat, q: Pcb)
    requires |pcbs| == 256 && id < 256 && below < 256 && id != below && new_ < 256
    requires |pcbs[id].fds| == |pcbs[below].fds| == 8
    requires after == HaltedPcbs(pcbs, id, below) || after == HaltedPcbs(pcbs, id, below)[new_ := q]
    ensures below != new_ ==> after[below] == pcbs[below].(fds := ClosedThrough(pcbs[id].fds, pcbs[below].fds))
    ensures forall p :: 0 <= p < 256 && p != below && p != id && p != new_ ==> after[p] == pcbs[p]
  {
  }

  /**
   What the halt of a root shell does to descriptors, on whatever terminal: those numbered 2 and up that
   it has open are closed through the PCB addressed by slot -1.  No process but that one, its own and
   the one it is restarted as is touched.
   */
  lemma {:induction false} RootHaltClosesStrangers(s: State, status: nat, ctx: Context, i: nat, p: nat)
    requires Inv(s) && Booted(s) && s.curPcb[s.now] == 0 && i < 8 && p < 256 && p != Restarted(s, status, ctx)
    ensures var r := HaltOf(s, status, ctx).0; var d := Stranger(s.now);
            && (p == d ==>
                 (r.pcbs[d].fds[i].open <==> s.pcbs[d].fds[i].open && !(i >= 2 && s.pcbs[4 * s.now].fds[i].open)))
            && (p != d && p != 4 * s.now ==> r.pcbs[p] == s.pcbs[p])
  {
    RootHaltPcbs(s, status, ctx);
  }

  /**
   The halt of a root shell leaves every other live process as it was if and only if it is that of
   terminal 0, or the last slot of the terminal before is free, or holds a process that shares no open
   descriptor number from 2 up with the shell.
   */
  lemma {:induction false} RootHaltSparesOthersIff(s: State, status: nat, ctx: Context)
    requires Inv(s) && Booted(s) && s.curPcb[s.now] == 0
    ensures (forall t, i :: 0 <= t < 3 && 0 <= i < 4 && s.mask[t][i] && t != s.now ==>
               HaltOf(s, status, ctx).0.pcbs[i + 4 * t] == s.pcbs[i + 4 * t])
       <==> s.now == 0 || !s.mask[s.now - 1][3] ||
            forall i :: 2 <= i < 8 ==> !(s.pcbs[4 * s.now].fds[i].open && s.pcbs[4 * s.now - 1].fds[i].open)
  {
    RootHaltPcbs(s, status, ctx);
    RestartedWasFree(s, status, ctx);
    SparesOthersIff(s.pcbs, HaltOf(s, status, ctx).0.pcbs, s.mask, s.now, Restarted(s, status, ctx));
  }

  lemma SparesOthersIff(pcbs: seq<Pcb>, after: seq<Pcb>, mask: seq<seq<bool>>, now: nat, new_: nat)
    requires |pcbs| == |after| == 256 && now < 3 && |mask| == 3 && forall t :: 0 <= t < 3 ==> |mask[t]| == 4
    requires new_ < 12 && (new_ == 4 * now || !mask[new_ / 4][new_ % 4])
    requires |pcbs[4 * now].fds| == |pcbs[Stranger(now)].fds| == 8
    requires var d := Stranger(now);
             d != new_ ==> after[d] == pcbs[d].(fds := ClosedThrough(pcbs[4 * now].fds, pcbs[d].fds))
    requires forall p :: 0 <= p < 256 && p != Stranger(now) && p != 4 * now && p != new_ ==> after[p] == pcbs[p]
    ensures (forall t, i :: 0 <= t < 3 && 0 <= i < 4 && mask[t][i] && t != now ==> after[i + 4 * t] == pcbs[i + 4 * t])
       <==> now == 0 || !mask[now - 1][3] ||
            forall i :: 2 <= i < 8 ==> !(pcbs[4 * now].fds[i].open && pcbs[4 * now - 1].fds[i].open)
  {
    ClosesNothingIff(pcbs[4 * now].fds, pcbs[Stranger(now)].fds);
    SparesOthers(pcbs, after, mask, now, new_);
    assert now > 0 ==> Stranger(now) / 4 == now - 1 && Stranger(now) % 4 == 3;
  }

  lemma SparesOthers(pcbs: seq<Pcb>, after: seq<Pcb>, mask: seq<seq<bool>>, now: nat, new_: nat)
    requires |pcbs| == |after| == 256 && now < 3 && |mask| == 3 && forall t :: 0 <= t < 3 ==> |mask[t]| == 4
    requires new_ < 12 && (new_ == 4 * now || !mask[new_ / 4][new_ % 4])
    requires forall p :: 0 <= p < 256 && p != Stranger(now) && p != 4 * now && p != new_ ==> after[p] == pcbs[p]
    ensures (forall t, i :: 0 <= t < 3 && 0 <= i < 4 && mask[t][i] && t != now ==> after[i + 4 * t] == pcbs[i + 4 * t])
       <==> now == 0 || !mask[now - 1][3] || after[Stranger(now)] == pcbs[Stranger(now)]
  {
    assert now > 0 ==> Stranger(now) == 3 + 4 * (now - 1);
    forall t, i | 0 <= t < 3 && 0 <= i < 4 && mask[t][i] && t != now && i + 4 * t != Stranger(now)
      ensures after[i + 4 * t] == pcbs[i + 4 * t]
    {
      assert (i + 4 * t) / 4 == t && (i + 4 * t) % 4 == i;
    }
  }

  /**
   Terminal 0 runs four processes, the last with a file open.  The shell of terminal 1, displayed,
   opens a file and exits: the file of a process it has nothing to do with is closed.
   */
  lemma RootHaltHitsStranger() returns (s: State)
    ensures Inv(s) && Reachable(s) && Booted(s) && Enabled(s, HaltCall(0, CTX))
    ensures s.curPcb == [3, 0, 0] && s.now == 1 && s.cur == 1 && s.mask[0][3]
    ensures s.pcbs[3].fds[2].open && !HaltOf(s, 0, CTX).0.pcbs[3].fds[2].open
  {
    s := FileInFour();
    s := InTerminalOne(s);
    s := Opens(s, 3);
    RootHaltKeeps(s, 0, CTX);
    RootHaltClosesStrangers(s, 0, CTX, 2, 3);
  }

  /** The last of `n + 1` processes of terminal 0 has just been started. */
  ghost predicate IsDeep(s: State, n: nat) {
    && Inv(s) && Reachable(s) && Booted(s) && s.curPcb == [n, 0, 0] && s.now == 0 && s.cur == 0
    && s.pcbs[n].fds == FreshFds() && s.pcbs[4].fds == FreshFds()
  }

  lemma {:induction false} Deep(n: nat) returns (s: State)
    requires n <= 3
    ensures IsDeep(s, n)
    decreases n
  {
    if n == 0 {
      s := UpAndRunning();
    } else {
      s := Deep(n - 1);
      s := Deeper(s, n - 1);
    }
  }

  lemma {:induction false} Deeper(s: State, n: nat) returns (r: State)
    requires n <= 2 && IsDeep(s, n)
    ensures IsDeep(r, n + 1)
  {
    DeepRuns(s, n);
    r := Exec(s, 4);
    assert r.curPcb == [n, 0, 0][0 := n + 1];
  }

  lemma DeepRuns(s: State, n: nat)
    requires Shaped(s) && n <= 3 && s.curPcb == [n, 0, 0] && s.now == 0
    ensures Running(s) == n && Current(s, 0) == n
  {
  }

  lemma FileInFour() returns (s: State)
    ensures Inv(s) && Reachable(s) && Booted(s) && s.curPcb == [3, 0, 0] && s.now == 0 && s.cur == 0
    ensures s.pcbs[3].fds[2].open && s.pcbs[4].fds == FreshFds()
  {
    s := Deep(3);
    s := Opens(s, 4);
  }

  lemma InTerminalOne(s: State) returns (r: State)
    requires Inv(s) && Reachable(s) && Booted(s) && s.curPcb == [3, 0, 0] && s.now == 0
    ensures Inv(r) && Reachable(r) && Booted(r) && r.curPcb == s.curPcb && r.now == 1 && r.cur == 1
    ensures r.pcbs[3].fds == s.pcbs[3].fds && r.pcbs[4].fds == s.pcbs[4].fds
  {
    r := Displays(s, 1);
    SwitchKeeps(r, CTX, CTX);
    ReachStep(r, TICK);
    r := After(r, TICK);
  }
}
