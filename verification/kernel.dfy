/** The kernel's tables as the kernel keeps them, updated in place by system_call.c, scheduling.c and rtc.c. */
module Kernel {
  import opened Text
  import Commands
  import opened Paging
  import opened Processes
  import opened Runs

  class Kernel {
    var pcbMask: seq<seq<bool>>
    var curPcbId: seq<int>           // term[t].cur_pcb_id
    var pcbs: seq<Pcb>               // the PCBs at the 256 addresses get_pcb_from_id can give
    var nowTermId: nat
    var curTermId: nat
    const pageDir: array<bv32>
    var pageVideoTab: bv32           // entry 0 of page_video_tab
    var esp0: bv32                   // tss.esp0

    ghost function Abs(): State
      reads this, pageDir
    {
      State(pcbMask, curPcbId, pcbs, nowTermId, curTermId, pageDir[..], pageVideoTab, esp0)
    }

    ghost predicate Valid()
      reads this, pageDir
    {
      Shaped(Abs())
    }

    // ---- Helpers of system_call.c and paging.c ----

    /** PCB_total_number. */
    method PcbTotalNumber() returns (sum: nat)
      requires Valid()
      ensures sum == Total(pcbMask)
    {
      sum := 0;
      var i := 0;
      while i < 3
        invariant 0 <= i <= 3
        invariant sum == (if i > 0 then Ones(pcbMask[0]) else 0) + (if i > 1 then Ones(pcbMask[1]) else 0)
                       + (if i > 2 then Ones(pcbMask[2]) else 0)
      {
        var j := 0;
        ghost var before := sum;
        while j < 4
          invariant 0 <= j <= 4
          invariant sum == before + (if j > 0 && pcbMask[i][0] then 1 else 0) + (if j > 1 && pcbMask[i][1] then 1 else 0)
                         + (if j > 2 && pcbMask[i][2] then 1 else 0) + (if j > 3 && pcbMask[i][3] then 1 else 0)
        {
          if pcbMask[i][j] {
            sum := sum + 1;
          }
          j := j + 1;
        }
        i := i + 1;
      }
    }

    /**
     PCB_process_number: claims the lowest free slot of the displayed terminal, and gives it back if a
     seventh process would be live.
     */
    method PcbProcessNumber() returns (id: int)
      requires Valid() && curTermId < 3
      modifies this`pcbMask
      ensures Valid()
      ensures var slot := Slot(old(Abs()));
              if slot == 4 then id == -1 && pcbMask == old(pcbMask)
              else id == slot + 4 * curTermId && pcbMask == old(pcbMask)[curTermId := old(pcbMask)[curTermId][slot := true]]
    {
      var i := 0;
      while i < 4
        invariant 0 <= i <= 4 && pcbMask == old(pcbMask)
        invariant FreeSlot(pcbMask[curTermId], 0) == FreeSlot(pcbMask[curTermId], i)
      {
        if !pcbMask[curTermId][i] {
          ClaimAddsOne(pcbMask, curTermId, i);
          pcbMask := pcbMask[curTermId := pcbMask[curTermId][i := true]];
          var total := PcbTotalNumber();
          if total > 6 {
            pcbMask := pcbMask[curTermId := pcbMask[curTermId][i := false]];
            assert pcbMask[curTermId] == old(pcbMask)[curTermId];
            return -1;
          }
          return i + curTermId * 4;
        }
        i := i + 1;
      }
      return -1;
    }

    method PcbMapping(virtualAddress: bv32, physicalAddress: bv32)
      requires pageDir.Length == 1024
      modifies pageDir
      ensures (virtualAddress / 0x400000) as int < 1024
      ensures pageDir[..] == old(pageDir[..])[(virtualAddress / 0x400000) as int := DirectoryEntry(physicalAddress)]
    {
      var offset := virtualAddress / 0x400000;
      OffsetSmall(virtualAddress);
      pageDir[offset as int] := physicalAddress | 0x87;
    }

    // ---- execute ----

    /** The descriptor table of a new process: everything closed, then stdin and stdout. */
    method DescriptorTable(old_: seq<Fd>) returns (fds: seq<Fd>)
      requires |old_| == 8
      ensures fds == FreshFds()
    {
      fds := old_;
      var i := 0;
      while i < 8
        invariant 0 <= i <= 8 && |fds| == 8
        invariant forall j :: 0 <= j < i ==> fds[j] == CLOSED
      {
        fds := fds[i := CLOSED];
        i := i + 1;
      }
      fds := fds[0 := fds[0].(ops := StdinOps, open := true)];
      fds := fds[1 := fds[1].(ops := StdoutOps, open := true)];
    }

    /** The PCB of a new process, made in place of the one before it. */
    method PcbOfNew(old_: Pcb, id: nat, args: Args, ctx: Context) returns (pcb: Pcb)
      requires |old_.fds| == 8
      ensures pcb == NewPcb(old_, id, curTermId, ctx, args)
    {
      pcb := old_.(parentCtx := ctx, processNumber := id, termId := curTermId);
      pcb := pcb.(parent := if id % 4 == 0 then -1 else id - 1);
      var fds := DescriptorTable(pcb.fds);
      pcb := pcb.(fds := fds, args := args);
    }

    /** execute, from the outcome of the file checks on. */
    method ExecuteCommand(image: Image, args: Args, ctx: Context) returns (o: Observation)
      requires Valid() && curTermId < 3
      modifies this, pageDir
      ensures Valid() && (Abs(), o) == Execute(old(Abs()), image, args, ctx)
    {
      if image == Missing || image == NotExecutable {
        return Refused(-1);
      }
      var id := PcbProcessNumber();
      if id == -1 {
        return Refused(0);
      }
      PcbMapping(0x8000000, FrameOf(id));
      if image == BadBlocks {
        return Refused(-1);
      }
      curPcbId := curPcbId[curTermId := id % 4];
      var pcb := PcbOfNew(pcbs[id], id, args, ctx);
      pcbs := pcbs[id := pcb];
      esp0 := StackTop(id);
      ExecuteStarted(old(Abs()), args, ctx);
      return Started(id);
    }

    // ---- halt ----

    /**
     The descriptor loop of halt: each open descriptor is closed, and then once more through the table
     that is current by now.
     */
    method CloseAll(c: nat, d: nat)
      requires Valid() && c < 256 && d < 256 && c != d
      modifies this`pcbs
      ensures Valid()
      ensures pcbs == old(pcbs)[d := old(pcbs)[d].(fds := ClosedThrough(old(pcbs)[c].fds, old(pcbs)[d].fds))]
                               [c := old(pcbs)[c].(fds := AllClosed(old(pcbs)[c].fds))]
    {
      ghost var own, through := pcbs[c].fds, pcbs[d].fds;
      var i := 0;
      while i < 8
        invariant 0 <= i <= 8 && |pcbs| == 256 && |pcbs[c].fds| == 8 && |pcbs[d].fds| == 8
        invariant pcbs == old(pcbs)[d := old(pcbs)[d].(fds := pcbs[d].fds)][c := old(pcbs)[c].(fds := pcbs[c].fds)]
        invariant forall j :: 0 <= j < 8 ==> pcbs[c].fds[j] == if j < i then AllClosed(own)[j] else own[j]
        invariant forall j :: 0 <= j < 8 ==> pcbs[d].fds[j] == if j < i then ClosedThrough(own, through)[j] else through[j]
      {
        var mine := pcbs[c].fds[i];
        if mine.open {
          pcbs := pcbs[c := pcbs[c].(fds := pcbs[c].fds[i := mine.(open := false)])];
          if i >= 2 && pcbs[d].fds[i].open {
            pcbs := pcbs[d := pcbs[d].(fds := pcbs[d].fds[i := pcbs[d].fds[i].(open := false)])];
          }
        }
        pcbs := pcbs[c := pcbs[c].(fds := pcbs[c].fds[i := pcbs[c].fds[i].(ops := ErrorOps)])];
        i := i + 1;
      }
      assert pcbs[c].fds == AllClosed(own);
      assert pcbs[d].fds == ClosedThrough(own, through);
    }

    /** The first half of halt: the slot is given up and every descriptor is closed. */
    method GiveUpSlot(c: nat, d: nat, slot: int)
      requires Valid() && c < 12 && d < 256 && c != d && -1 <= slot < 4 && pcbs[c].processNumber == c
      requires d == PcbIndex(slot, nowTermId)
      modifies this`curPcbId, this`pcbMask, this`pcbs
      ensures Valid()
      ensures Abs() == old(Abs()).(curPcb := old(curPcbId)[nowTermId := slot],
                                   mask := old(pcbMask)[c / 4 := old(pcbMask)[c / 4][c % 4 := false]],
                                   pcbs := HaltedPcbs(old(pcbs), c, d))
    {
      var n := pcbs[c].processNumber;
      curPcbId := curPcbId[nowTermId := slot];
      pcbMask := pcbMask[n / 4 := pcbMask[n / 4][n % 4 := false]];
      CloseAll(c, d);
    }

    /** The program page and the kernel stack pointer of process `id` are put in place. */
    method Address(id: nat)
      requires Valid() && id < 256
      modifies this`esp0, pageDir
      ensures Valid() && Abs() == Mapped(old(Abs()), id)
    {
      PcbMapping(0x8000000, FrameOf(id));
      esp0 := StackTop(id);
    }

    /** halt of the running process. */
    method HaltProcess(status: nat, ctx: Context) returns (o: Observation)
      requires Inv(Abs()) && Booted(Abs())
      modifies this, pageDir
      ensures Valid() && (Abs(), o) == HaltOf(old(Abs()), status, ctx)
    {
      ghost var s := Abs();
      HaltComputed(s, status, ctx);
      var c := PcbIndex(curPcbId[nowTermId], nowTermId);
      var own := pcbs[c];
      var slot := CMod(own.parent, 4);
      GiveUpSlot(c, PcbIndex(slot, nowTermId), slot);
      if own.parent == -1 {
        o := ExecuteCommand(Loadable, NO_ARGS, ctx);
        if o.Refused? {
          o := Faults;
        }
        return;
      }
      var parent := pcbs[own.parent].processNumber;
      Address(parent);
      return Resumed(parent, own.parentCtx, status);
    }

    // ---- Interrupts ----

    /** pit_interrupt_handler. */
    method PitInterrupt(ctx: Context, launchCtx: Context) returns (o: Observation)
      requires Valid()
      modifies this, pageDir
      ensures Valid() && (Abs(), o) == PitTick(old(Abs()), ctx, launchCtx)
    {
      var nextTermId := (nowTermId + 1) % 3;
      var left := PcbIndex(curPcbId[nowTermId], nowTermId);
      nowTermId := nextTermId;
      pcbs := pcbs[left := pcbs[left].(ctx := ctx)];
      if curPcbId[nextTermId] == -1 {
        if nextTermId == curTermId {
          return Skipped;
        }
        curTermId := nextTermId;
        o := ExecuteCommand(Loadable, NO_ARGS, launchCtx);
        return;
      }
      var id := curPcbId[nextTermId] + 4 * nextTermId;
      Address(id);
      pageVideoTab := VideoEntry(curTermId, nowTermId);
      return Switched(id, pcbs[id].ctx);
    }

    /** rtc_interrupt_handler. */
    method RtcInterrupt()
      requires Valid()
      modifies this`pcbs
      ensures Valid() && Abs() == RtcTick(old(Abs()))
    {
      var i := 0;
      ghost var s := Abs();
      while i < 3
        invariant 0 <= i <= 3 && |pcbs| == 256
        invariant pcbs == if i == 0 then s.pcbs else if i == 1 then Ticked(s.pcbs, Current(s, 0))
                          else if i == 2 then Ticked(Ticked(s.pcbs, Current(s, 0)), Current(s, 1)) else RtcTick(s).pcbs
      {
        var p := PcbIndex(curPcbId[i], i);
        if pcbs[p].rtcCounter > 0 {
          pcbs := pcbs[p := pcbs[p].(rtcCounter := pcbs[p].rtcCounter - 1)];
        }
        i := i + 1;
      }
    }

    // ---- Descriptor calls ----

    /** open, after the lookup of the name. */
    method OpenFile(found: bool, t: FileType, inode: nat) returns (o: Observation)
      requires Valid()
      modifies this`pcbs
      ensures Valid() && (Abs(), o) == Open(old(Abs()), found, t, inode)
    {
      if !found {
        return Returned(-1);
      }
      var c := PcbIndex(curPcbId[nowTermId], nowTermId);
      var fds := pcbs[c].fds;
      var fd := 0;
      while fd < 8 && fds[fd].open
        invariant 0 <= fd <= 8 && LowestFree(fds, 0) == LowestFree(fds, fd)
      {
        fd := fd + 1;
      }
      if fd >= 8 {
        return Returned(-1);
      }
      var entry := fds[fd].(open := true, position := 0);
      var q := pcbs[c];
      match t {
        case RtcType =>
          q := q.(rtcFreq := 2, rtcCounter := 1024 / 2);
          entry := entry.(inode := 0, ops := RtcOps);
        case DirType => entry := entry.(inode := 0, ops := DirOps);
        case FileType => entry := entry.(inode := inode, ops := FileOps);
        case OtherType =>
      }
      pcbs := pcbs[c := q.(fds := fds[fd := entry])];
      return Returned(fd);
    }

    /** close. */
    method CloseFile(fd: int) returns (o: Observation)
      requires Valid()
      modifies this`pcbs
      ensures Valid() && (Abs(), o) == Close(old(Abs()), fd)
    {
      var c := PcbIndex(curPcbId[nowTermId], nowTermId);
      if fd >= 8 || fd < 2 {
        return Returned(-1);
      }
      var entry := pcbs[c].fds[fd];
      if !entry.open {
        return Returned(-1);
      }
      pcbs := pcbs[c := pcbs[c].(fds := pcbs[c].fds[fd := entry.(open := false)])];
      return Returned(CloseCode(entry.ops));
    }

    /** The end of file_read: the position is moved by what read_data returned. */
    method FileAdvance(fd: nat, got: int) returns (o: Observation)
      requires Valid() && fd < 8
      modifies this`pcbs
      ensures Valid() && (Abs(), o) == FileRead(old(Abs()), fd, got)
    {
      var c := PcbIndex(curPcbId[nowTermId], nowTermId);
      var entry := pcbs[c].fds[fd];
      pcbs := pcbs[c := pcbs[c].(fds := pcbs[c].fds[fd := entry.(position := entry.position + got)])];
      return Returned(got);
    }

    /** rtc_read up to its wait. */
    method RtcRead(fd: nat)
      requires Inv(Abs()) && Enabled(Abs(), RtcReadCall(fd))
      modifies this`pcbs
      ensures Valid() && Abs() == Step(old(Abs()), RtcReadCall(fd)).0
    {
      StepDefined(Abs(), RtcReadCall(fd));
      RtcChange(Abs(), fd, 0, 0);
      var c := PcbIndex(curPcbId[nowTermId], nowTermId);
      pcbs := pcbs[c := pcbs[c].(rtcCounter := 1024 / pcbs[c].rtcFreq)];
    }

    /** rtc_write with a buffer that is not null. */
    method RtcWriteFreq(freq: bv32, nbytes: int) returns (o: Observation)
      requires Valid()
      modifies this`pcbs
      ensures Valid() && (Abs(), o) == RtcWrite(old(Abs()), freq, nbytes)
    {
      var c := PcbIndex(curPcbId[nowTermId], nowTermId);
      if (freq != 0 && freq & (freq - 1) == 0) && freq <= 1024 && nbytes == 4 && freq > 1 {
        pcbs := pcbs[c := pcbs[c].(rtcFreq := freq as int)];
        return Returned(0);
      }
      return Returned(-1);
    }

    /** getargs: what the running process's own PCB holds, up to the first NUL. */
    method Getargs(buf: array<byte>, nbytes: int) returns (r: int)
      requires Inv(Abs()) && Booted(Abs()) && nbytes <= buf.Length && buf as object != pageDir
      modifies buf
      ensures Valid() && Abs() == old(Abs())
      ensures var args := BeforeNul(pcbs[Current(Abs(), nowTermId)].args);
              if 0 < |args| < nbytes then r == 0 && buf[..|args| + 1] == args + [NUL]
              else r == -1 && buf[..] == old(buf[..])
    {
      StepDefined(Abs(), Rtc);
      var c := PcbIndex(curPcbId[nowTermId], nowTermId);
      r := Commands.Getargs(pcbs[c].args, buf, nbytes);
    }
  }

  /** What halt looks up, and what it comes to. */
  lemma HaltComputed(s: State, status: nat, ctx: Context)
    requires Inv(s) && Booted(s)
    ensures var c := Current(s, s.now); var own := s.pcbs[c]; var slot := CMod(own.parent, 4);
            && c < 12 && own.processNumber == c == s.curPcb[s.now] + 4 * s.now
            && c / 4 == s.now && c % 4 == s.curPcb[s.now] && slot == s.curPcb[s.now] - 1
            && (if own.parent == -1 then
                  && s.curPcb[s.now] == 0
                  && var (r, o) := Execute(RootFreed(s), Loadable, NO_ARGS, ctx);
                     HaltOf(s, status, ctx) == (r, if o.Refused? then Faults else o)
                else
                  && s.curPcb[s.now] > 0 && own.parent == PcbIndex(slot, s.now) == c - 1
                  && s.pcbs[c - 1].processNumber == c - 1
                  && HaltOf(s, status, ctx) == (Halted(s), Resumed(c - 1, own.parentCtx, status)))
  {
    StepDefined(s, HaltCall(status, ctx));
    if s.curPcb[s.now] > 0 {
      HaltLooks(s);
      HaltIs(s, status, ctx);
    } else {
      RootHaltIs(s, status, ctx);
    }
  }

  lemma ClaimAddsOne(mask: seq<seq<bool>>, t: nat, i: nat)
    requires |mask| == 3 && (forall u :: 0 <= u < 3 ==> |mask[u]| == 4) && t < 3 && i < 4 && !mask[t][i]
    ensures Total(mask[t := mask[t][i := true]]) == Total(mask) + 1
  {
  }

  lemma OffsetSmall(va: bv32)
    ensures (va / 0x400000) as int < 1024
  {
    assert va / 0x400000 < 1024;
  }
}
