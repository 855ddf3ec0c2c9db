/**
 Runs of the kernel's tables through the routines that change them, and the way of a program's arguments:
 from the command line through execute into its PCB, and from there, whatever happens meanwhile, to getargs.
 */
module Arguments {
  import opened Text
  import opened Commands
  import opened Processes
  import opened Runs
  import opened Guarantees
  import opened Settings
  import opened System
  import Kernel
  import Console

  // ---- Runs of the routines ----

  /** One event, by the routine that handles it. */
  method Perform(kernel: Kernel.Kernel, e: Event) returns (o: Observation)
    requires Inv(kernel.Abs()) && Enabled(kernel.Abs(), e)
    modifies kernel, kernel.pageDir
    ensures kernel.Valid() && (kernel.Abs(), o) == Step(old(kernel.Abs()), e)
  {
    StepDefined(kernel.Abs(), e);
    match e {
      case ExecuteCall(image, args, ctx) => o := kernel.ExecuteCommand(image, args, ctx);
      case HaltCall(status, ctx) => o := kernel.HaltProcess(status, ctx);
      case Pit(ctx, launchCtx) => o := kernel.PitInterrupt(ctx, launchCtx);
      case Rtc =>
        kernel.RtcInterrupt();
        o := Silent;
      case Display(t) =>
        kernel.curTermId := t;
        o := Silent;
      case OpenCall(found, t, inode) => o := kernel.OpenFile(found, t, inode);
      case CloseCall(n) => o := kernel.CloseFile(n);
      case FileReadCall(fd, _, got) => o := kernel.FileAdvance(fd, got);
      case RtcReadCall(fd) =>
        kernel.RtcRead(fd);
        o := Silent;
      case RtcWriteCall(_, freq, nbytes) => o := kernel.RtcWriteFreq(freq, nbytes);
    }
  }

  /** The events from the i-th on lead from `s` to `end`. */
  ghost predicate Ahead(s: State, es: seq<Event>, i: nat, end: State) {
    i <= |es| && Inv(s) && CanRun(s, es[i..]) && Run(s, es[i..]) == end
  }

  lemma {:induction false} OneLess(s: State, es: seq<Event>, i: nat, end: State)
    requires Ahead(s, es, i, end) && i < |es|
    ensures Enabled(s, es[i]) && Ahead(After(s, es[i]), es, i + 1, end)
  {
    assert es[i..][0] == es[i] && es[i..][1..] == es[i + 1..];
  }

  method PerformNext(kernel: Kernel.Kernel, es: seq<Event>, i: nat, ghost end: State)
    requires i < |es| && Ahead(kernel.Abs(), es, i, end)
    modifies kernel, kernel.pageDir
    ensures Ahead(kernel.Abs(), es, i + 1, end)
  {
    OneLess(kernel.Abs(), es, i, end);
    var o := Perform(kernel, es[i]);
  }

  /** Any run, by the routines: the tables are what the step system says. */
  method PerformAll(kernel: Kernel.Kernel, es: seq<Event>)
    requires Inv(kernel.Abs()) && CanRun(kernel.Abs(), es)
    modifies kernel, kernel.pageDir
    ensures kernel.Valid() && kernel.Abs() == Run(old(kernel.Abs()), es)
  {
    ghost var end := Run(kernel.Abs(), es);
    assert es[0..] == es;
    var i := 0;
    while i < |es|
      invariant 0 <= i <= |es| && Ahead(kernel.Abs(), es, i, end)
    {
      PerformNext(kernel, es, i, end);
      i := i + 1;
    }
    assert es[i..] == [];
  }

  // ---- From the command line to getargs ----

  /** The state in which a program starts. */
  function StartedState(s: State, args: Args, ctx: Context): (r: State)
    requires Inv(s) && Booted(s) && s.now == s.cur
    ensures Inv(r) && r == Execute(s, Loadable, args, ctx).0
  {
    After(s, ExecuteCall(Loadable, args, ctx))
  }

  /**
   A program is started with the arguments of a command line; then anything happens, on all terminals, but
   the start of another process of its number; when it runs, its own PCB holds exactly the arguments typed.
   */
  lemma {:induction false} TypedArgsKept(s: State, args: seq<byte>, ctx: Context, es: seq<Event>, s2: State)
    requires Inv(s) && Booted(s) && s.now == s.cur && Slot(s) < 4 && NUL !in args && |args| <= 100
    requires var s1 := StartedState(s, ArgBuf(Filled(args, 100)), ctx);
             CanRun(s1, es) && NoStart(s1, es, Running(s) + 1) && s2 == Run(s1, es)
    requires Running(s2) == Running(s) + 1 && Booted(s2)
    ensures BeforeNul(s2.pcbs[Current(s2, s2.now)].args) == args
  {
    StartedPcb(s, ArgBuf(Filled(args, 100)), ctx);
    ArgsKept(StartedState(s, ArgBuf(Filled(args, 100)), ctx), es, Running(s) + 1);
    StepDefined(s2, Rtc);
    StoredArgs(args);
  }

  /** A command line within the scanner's limits, whose name is that of a program, on a displayed terminal with a slot free. */
  ghost predicate Starting(s: State, v: Volume, k: nat, name: seq<byte>, m: nat, args: seq<byte>, behind: seq<byte>, was: seq<byte>) {
    && Inv(s) && Booted(s) && s.now == s.cur && Slot(s) < 4
    && name != [] && SPACE !in name && NUL !in name && m >= 1 && NUL !in args && (args == [] || args[0] != SPACE)
    && k + |name| <= 32 && |name| < 32 && |args| <= 100
    && Mounted(v) && |v.table| >= 64 * 63 + 32 + |behind| && NUL in behind
    && |was| == 40 && ImageOf(v, name, was) == Loadable
  }

  /** The events can follow the start, start no process of its number, and leave it running. */
  ghost predicate Meanwhile(s: State, args: seq<byte>, ctx: Context, es: seq<Event>)
    requires Inv(s) && Booted(s) && s.now == s.cur
  {
    var s1 := StartedState(s, ArgBuf(Filled(args, 100)), ctx);
    && CanRun(s1, es) && NoStart(s1, es, Running(s) + 1)
    && Booted(Run(s1, es)) && Running(Run(s1, es)) == Running(s) + 1
  }

  /** The buffers of execute are none of the console's or the kernel's, and every file fits the page. */
  ghost predicate Buffers(console: Console.Console, kernel: Kernel.Kernel, v: Volume, header: array<byte>, page: array<byte>)
    reads console
  {
    && Apart(console, kernel) && header != page && page as object != kernel.pageDir
    && header != console.vram && page != console.vram && header !in console.backing && page !in console.backing
    && forall i :: 0 <= i < |v.inodes| ==> v.inodes[i].size <= page.Length
  }

  lemma LineHasNoNul(k: nat, name: seq<byte>, m: nat, args: seq<byte>)
    requires NUL !in name && NUL !in args
    ensures NUL !in CommandLine(k, name, m, args)
  {
  }

  /** execute of such a command line starts the program, with the arguments typed in its PCB. */
  method StartProgram(console: Console.Console, kernel: Kernel.Kernel, v: Volume, k: nat, name: seq<byte>, m: nat, args: seq<byte>,
                      behind: seq<byte>, header: array<byte>, page: array<byte>, ctx: Context)
    requires console.Valid() && console.curTermId == kernel.curTermId < 3
    requires header.Length == 40 && Starting(kernel.Abs(), v, k, name, m, args, behind, header[..])
    requires Buffers(console, kernel, v, header, page)
    modifies console, console.vram, kernel, kernel.pageDir, header, page
    ensures kernel.Valid() && old(Inv(kernel.Abs())) && old(Booted(kernel.Abs()))
    ensures kernel.Abs() == StartedState(old(kernel.Abs()), ArgBuf(Filled(args, 100)), ctx)
  {
    ghost var s := kernel.Abs();
    LineHasNoNul(k, name, m, args);
    ProgramByName(v, k, name, m, args, behind);
    StartedPcb(s, ArgBuf(Filled(args, 100)), ctx);
    var o := ExecuteLine(console, kernel, v, CommandLine(k, name, m, args), behind, header, page, ctx);
  }

  /** A run from the start of the program, and then its getargs. */
  method RunThenGetargs(kernel: Kernel.Kernel, ghost s: State, args: seq<byte>, ctx: Context,
                        es: seq<Event>, buf: array<byte>, nbytes: int) returns (r: int)
    requires Inv(s) && Booted(s) && s.now == s.cur && Slot(s) < 4 && NUL !in args && |args| <= 100
    requires kernel.Abs() == StartedState(s, ArgBuf(Filled(args, 100)), ctx) && Meanwhile(s, args, ctx, es)
    requires nbytes <= buf.Length && buf as object != kernel.pageDir
    modifies kernel, kernel.pageDir, buf
    ensures if 0 < |args| < nbytes then r == 0 && buf[..|args| + 1] == args + [NUL] else r == -1
  {
    PerformAll(kernel, es);
    TypedArgsKept(s, args, ctx, es, kernel.Abs());
    r := kernel.Getargs(buf, nbytes);
  }

  /**
   From the command line to the program, through its PCB: execute starts the program; the kernel handles
   any events at all that start no other process of its number; then the program, running, asks for its
   arguments, and gets exactly those typed, trailing spaces kept, whenever there are any and they fit its
   buffer with a NUL.
   */
  method StartAndGetargs(console: Console.Console, kernel: Kernel.Kernel, v: Volume, k: nat, name: seq<byte>, m: nat, args: seq<byte>,
                         behind: seq<byte>, header: array<byte>, page: array<byte>, ctx: Context,
                         es: seq<Event>, buf: array<byte>, nbytes: int) returns (r: int)
    requires console.Valid() && console.curTermId == kernel.curTermId < 3
    requires header.Length == 40 && Starting(kernel.Abs(), v, k, name, m, args, behind, header[..])
    requires Buffers(console, kernel, v, header, page)
    requires Meanwhile(kernel.Abs(), args, ctx, es) && nbytes <= buf.Length && buf as object != kernel.pageDir
    modifies console, console.vram, kernel, kernel.pageDir, header, page, buf
    ensures if 0 < |args| < nbytes then r == 0 && buf[..|args| + 1] == args + [NUL] else r == -1
  {
    ghost var s := kernel.Abs();
    StartProgram(console, kernel, v, k, name, m, args, behind, header, page, ctx);
    r := RunThenGetargs(kernel, s, args, ctx, es, buf, nbytes);
  }
}
