/**
 The console of lib.c and terminal.c: one video memory, three backing buffers, the saved cursors and
 key buffers, and the two families of output routines.

 `View(t)` is terminal t's private screen: the live memory, cursor and key buffer if t is the one
 displayed, its saved copies otherwise.  Every method is proved to change the view it is addressed
 to by the corresponding function of Screen and Terminals, and no other view.
 */
module Console {
  import opened Text
  import opened Screen
  import opened Keyboard
  import opened Terminals
  import opened Memory
  import opened Formats

  /** The character bytes of a 4000-byte text buffer: every other byte, the rest being attributes. */
  function Plane(bytes: seq<byte>): (r: seq<byte>)
    requires |bytes| == 4000
    ensures |r| == 2000
    ensures forall i :: 0 <= i < 2000 ==> r[i] == bytes[2 * i]
  {
    seq(2000, i requires 0 <= i < 2000 => bytes[2 * i])
  }

  lemma PlaneWrite(bytes: seq<byte>, i: nat, c: byte, attr: byte)
    requires |bytes| == 4000 && i < 2000
    ensures Plane(bytes[2 * i := c]) == Plane(bytes)[i := c]
    ensures Plane(bytes[2 * i + 1 := attr]) == Plane(bytes)
  {
  }

  /** The colour attribute of a terminal's text. */
  function Attribute(t: nat): byte {
    if t == 0 then 0xD as char else if t == 1 then 0xA as char else if t == 2 then 0xE as char else 0x7 as char
  }

  /** Moves every row of a buffer up by one and blanks the bottom row. */
  method ScrollBuffer(mem: array<byte>, attr: byte)
    requires mem.Length == 4000
    modifies mem
    ensures Plane(mem[..]) == Scrolled(old(Plane(mem[..])))
  {
    ghost var was := mem[..];
    var i := 0;
    while i < 1920
      invariant 0 <= i <= 1920
      invariant forall j :: 0 <= j < 2 * i ==> mem[j] == was[j + 160]
      invariant forall j :: 2 * i <= j < 4000 ==> mem[j] == was[j]
    {
      assert mem[2 * i + 160] == was[2 * i + 160] && mem[2 * i + 161] == was[2 * i + 161];
      mem[2 * i] := mem[2 * (i + 80)];
      mem[2 * i + 1] := mem[2 * (i + 80) + 1];
      i := i + 1;
    }
    while i < 2000
      invariant 1920 <= i <= 2000
      invariant forall j :: 0 <= j < 3840 ==> mem[j] == was[j + 160]
      invariant forall j :: 3840 <= j < 2 * i && j % 2 == 0 ==> mem[j] == SPACE
    {
      mem[2 * i] := SPACE;
      mem[2 * i + 1] := attr;
      i := i + 1;
    }
    assert forall k :: 0 <= k < 1920 ==> mem[2 * k] == was[2 * (k + 80)];
  }

  /** term_write's own copy of the text: what precedes the first NUL, and a NUL. */
  method TerminatedCopy(buf: seq<byte>) returns (text: seq<byte>)
    ensures text == BeforeNul(buf) + [NUL]
    ensures BeforeNul(text) == BeforeNul(buf)
  {
    text := [];
    var n := 0;
    while n < |buf| && buf[n] != NUL
      invariant 0 <= n <= |BeforeNul(buf)| && text == buf[..n]
    {
      text := text + [buf[n]];
      n := n + 1;
    }
    text := text + [NUL];
    assert text[..n] == buf[..n];
    BeforeNulIs(text, n);
  }

  /** The copy loop of term_read: up to `length` bytes of the key buffer, stopping at a NUL. */
  method LineIn(keys: seq<byte>, length: nat) returns (line: seq<byte>)
    requires |keys| == 128
    ensures line <= BeforeNul(keys)
    ensures |line| == if length < |BeforeNul(keys)| then length else |BeforeNul(keys)|
  {
    line := [];
    var i := 0;
    while i < 128 && i < length && keys[i] != NUL
      invariant 0 <= i <= |BeforeNul(keys)| && i <= length && line == keys[..i]
    {
      line := line + [keys[i]];
      i := i + 1;
    }
  }

  lemma Regroup(a: seq<byte>, b: seq<byte>, c: seq<byte>)
    ensures a + (b + c) == a + b + c
  {
  }

  lemma LastShellPlain()
    ensures NUL !in LAST_SHELL && PERCENT !in LAST_SHELL
  {
  }

  lemma NoSpacePlain()
    ensures NUL !in NO_SPACE && PERCENT !in NO_SPACE
  {
  }

  /** What printf puts out is the text itself when no percent sign is in it. */
  lemma PlainWrite(text: seq<byte>, beyond: seq<byte>, env: Env)
    requires NUL !in text
    ensures PERCENT !in text ==> Formatted(text + [NUL] + beyond, 0, env, 0) == text
  {
    if PERCENT !in text {
      PlainFormat(text, beyond, 0, env, 0);
      assert text[0..] == text;
    }
  }

  /** One turn of printf's loop: a byte, or a conversion with its number signs. */
  method Piece(mem: seq<byte>, i: nat, env: Env, k: nat) returns (text: seq<byte>, j: nat, h: nat)
    requires i < |mem| && mem[i] != NUL && Ends(mem, i)
    ensures i < j < |mem| && Ends(mem, j)
    ensures Formatted(mem, i, env, k) == text + Formatted(mem, j, env, h)
  {
    if mem[i] != PERCENT {
      return [mem[i]], i + 1, k;
    }
    var alternate := false;
    var at := i + 1;
    while mem[at] == '#'
      invariant i < at < |mem| && PastHashes(mem, at) == PastHashes(mem, i + 1) && (alternate <==> at > i + 1)
      decreases |mem| - at
    {
      alternate, at := true, at + 1;
    }
    text := Convert(mem[at], alternate, env, k);
    j, h := at + 1, if TakesWord(mem[at]) then k + 1 else k;
  }

  class Console {
    const vram: array<byte>              // the displayed text memory
    var screenX: nat
    var screenY: nat
    var videoMem: array<byte>            // the pointer the attribute byte goes through
    const backing: seq<array<byte>>      // term[t].video_mem
    var term: seq<Saved>                 // the saved part of term[t]
    var curTermId: nat                   // the terminal displayed, 3 if none
    var nowTermId: nat                   // the terminal whose process runs
    var keyBuf: seq<byte>
    var keyBufIdx: nat
    var mods: Modifiers                  // scancode_state, ctrl_state, alt_state

    /** The buffers are three separate pages beside the video memory, and `videoMem` is one of the four. */
    ghost predicate Wired()
      reads this
    {
      && vram.Length == 4000 && |backing| == 3 && |term| == 3
      && (forall t :: 0 <= t < 3 ==> backing[t].Length == 4000 && backing[t] != vram)
      && (forall t, u :: 0 <= t < u < 3 ==> backing[t] != backing[u])
      && (videoMem == vram || videoMem in backing)
      && curTermId <= 3 && nowTermId < 3
      && |keyBuf| == 128 && (forall t :: 0 <= t < 3 ==> |term[t].keys| == 128)
    }

    ghost predicate Valid()
      reads this
    {
      && Wired()
      && screenX < 80 && screenY < 25 && keyBufIdx <= 128 && mods.table < 4
      && forall t :: 0 <= t < 3 ==> term[t].x < 80 && term[t].y < 25 && term[t].idx <= 128
    }

    /** The pane on the display. */
    ghost function Shown(): Pane
      requires Wired()
      reads this, vram
    {
      Pane(Plane(vram[..]), screenX, screenY)
    }

    /** The pane in a backing buffer. */
    ghost function Stored(t: nat): Pane
      requires Wired() && t < 3
      reads this, backing
    {
      Pane(Plane(backing[t][..]), term[t].x, term[t].y)
    }

    /** Terminal t's private screen and key buffer, wherever they are kept. */
    ghost function ViewOf(t: nat): View
      requires Wired() && t < 3
      reads this, vram, backing
    {
      if t == curTermId then View(Shown(), keyBuf, keyBufIdx, term[t].entered)
      else View(Stored(t), term[t].keys, term[t].idx, term[t].entered)
    }

    /** The whole console as three private terminals. */
    ghost function Abs(): State
      requires Wired()
      reads this, vram, backing
      ensures Valid() ==> Abs().Valid()
    {
      State(curTermId, nowTermId, [ViewOf(0), ViewOf(1), ViewOf(2)], mods)
    }

    // ---- The displayed family ----

    method ScrollUp()
      requires Wired()
      modifies this`videoMem, vram
      ensures Wired() && Shown() == Pane(Scrolled(old(Shown().chars)), screenX, screenY)
    {
      videoMem := vram;
      ScrollBuffer(vram, Attribute(curTermId));
    }

    method SetScreenCursor(nx: nat, ny: nat)
      requires Wired() && screenY < 25
      modifies this`screenX, this`screenY, this`videoMem, vram
      ensures Wired() && Shown() == SetCursor(old(Shown()), nx, ny)
      decreases nx, 1
    {
      if nx < 80 {
        screenX := nx;
      } else {
        Enter();
        return;
      }
      if ny < 25 {
        screenY := ny;
      } else {
        ScrollUp();
        screenY := 24;
      }
    }

    method Enter()
      requires Wired() && screenY < 25
      modifies this`screenX, this`screenY, this`videoMem, vram
      ensures Wired() && Shown() == SetCursor(old(Shown()), 0, old(screenY) + 1)
      decreases 0, 2
    {
      SetScreenCursor(0, screenY + 1);
    }

    method Putc(c: byte)
      requires Wired() && screenX < 80 && screenY < 25
      modifies this`screenX, this`screenY, this`videoMem, vram
      ensures Wired() && Shown() == PanePut(old(Shown()), c)
    {
      if c == NEWLINE || c == RETURN {
        Enter();
      } else {
        videoMem := vram;
        var at := 80 * screenY + screenX;
        PlaneWrite(vram[..], at, c, NUL);
        PlaneWrite(vram[..][2 * at := c], at, c, Attribute(curTermId));
        vram[2 * at] := c;
        vram[2 * at + 1] := Attribute(curTermId);
        screenX := screenX + 1;
        SetScreenCursor(screenX, screenY);
      }
    }

    method Backspace()
      requires Wired() && screenX < 80 && screenY < 25
      modifies this`screenX, this`screenY, this`videoMem, vram
      ensures Wired() && Shown() == PaneBack(old(Shown()))
    {
      if screenX != 0 {
        SetScreenCursor(screenX - 1, screenY);
      } else {
        if screenY != 0 {
          SetScreenCursor(79, screenY - 1);
        } else {
          return;
        }
      }
      videoMem := vram;
      var at := 80 * screenY + screenX;
      PlaneWrite(vram[..], at, SPACE, NUL);
      PlaneWrite(vram[..][2 * at := SPACE], at, SPACE, Attribute(curTermId));
      vram[2 * at] := SPACE;
      vram[2 * at + 1] := Attribute(curTermId);
    }

    method Clear()
      requires Wired()
      modifies this`videoMem, vram
      ensures Wired() && Shown() == Pane(Repeat(SPACE, 2000), screenX, screenY)
    {
      videoMem := vram;
      var i := 0;
      while i < 2000
        modifies vram
        invariant 0 <= i <= 2000
        invariant forall j :: 0 <= j < 2 * i && j % 2 == 0 ==> vram[j] == SPACE
      {
        vram[2 * i] := SPACE;
        vram[2 * i + 1] := Attribute(curTermId);
        i := i + 1;
      }
    }

    // ---- The background family, on term[nowTermId] ----

    /** Nothing but the running terminal's buffer shows a different character. */
    twostate predicate OtherPlanesKept()
      requires old(Wired()) && Wired()
      reads this, vram, backing
    {
      && Plane(vram[..]) == old(Plane(vram[..]))
      && forall t :: 0 <= t < 3 && t != nowTermId ==> Plane(backing[t][..]) == old(Plane(backing[t][..]))
    }

    /** Nothing but the cursor of the running terminal's record is different. */
    twostate predicate OtherRecordsKept()
      requires old(Wired()) && Wired()
      reads this
    {
      term == old(term)[nowTermId := old(term)[nowTermId].(x := term[nowTermId].x, y := term[nowTermId].y)]
    }

    method MultiScrollUp()
      requires Wired()
      modifies backing[nowTermId]
      ensures Stored(nowTermId) == Pane(Scrolled(old(Stored(nowTermId).chars)), term[nowTermId].x, term[nowTermId].y)
      ensures OtherPlanesKept()
    {
      ScrollBuffer(backing[nowTermId], Attribute(nowTermId));
    }

    method MultiSetScreenCursor(nx: nat, ny: nat)
      requires Wired() && term[nowTermId].y < 25
      modifies this`term, backing[nowTermId]
      ensures Wired() && OtherPlanesKept() && OtherRecordsKept()
      ensures Stored(nowTermId) == SetCursor(old(Stored(nowTermId)), nx, ny)
      decreases nx, 1
    {
      if nx < 80 {
        term := term[nowTermId := term[nowTermId].(x := nx)];
      } else {
        MultiEnter();
        return;
      }
      if ny < 25 {
        term := term[nowTermId := term[nowTermId].(y := ny)];
      } else {
        MultiScrollUp();
        term := term[nowTermId := term[nowTermId].(y := 24)];
      }
    }

    method MultiEnter()
      requires Wired() && term[nowTermId].y < 25
      modifies this`term, backing[nowTermId]
      ensures Wired() && OtherPlanesKept() && OtherRecordsKept()
      ensures Stored(nowTermId) == SetCursor(old(Stored(nowTermId)), 0, old(term[nowTermId].y) + 1)
      decreases 0, 2
    {
      MultiSetScreenCursor(0, term[nowTermId].y + 1);
    }

    /** The attribute goes through `videoMem` at the displayed cursor, so it may land in any buffer. */
    method MultiPutc(c: byte)
      requires Wired() && screenX < 80 && screenY < 25 && term[nowTermId].x < 80 && term[nowTermId].y < 25
      modifies this`term, vram, backing
      ensures Wired() && OtherPlanesKept() && OtherRecordsKept()
      ensures Stored(nowTermId) == PanePut(old(Stored(nowTermId)), c)
    {
      if c == NEWLINE || c == RETURN {
        MultiEnter();
      } else {
        var mem := backing[nowTermId];
        var at := 80 * term[nowTermId].y + term[nowTermId].x;
        PlaneWrite(mem[..], at, c, NUL);
        mem[2 * at] := c;
        WriteAttribute();
        term := term[nowTermId := term[nowTermId].(x := term[nowTermId].x + 1)];
        MultiSetScreenCursor(term[nowTermId].x, term[nowTermId].y);
      }
    }

    method WriteAttribute()
      requires Wired() && screenX < 80 && screenY < 25
      modifies videoMem
      ensures Plane(vram[..]) == old(Plane(vram[..]))
      ensures forall t :: 0 <= t < 3 ==> Plane(backing[t][..]) == old(Plane(backing[t][..]))
    {
      var at := 80 * screenY + screenX;
      PlaneWrite(videoMem[..], at, NUL, Attribute(curTermId));
      videoMem[2 * at + 1] := Attribute(curTermId);
    }

    // ---- terminal.c ----

    /** term_save: the display, the cursor and the key buffer go to terminal `id`'s record. */
    method TermSave(id: nat)
      requires Wired() && id < 3
      modifies this`term, backing[id]
      ensures Wired()
      ensures backing[id][..] == vram[..]
      ensures term == old(term)[id := old(term)[id].(keys := keyBuf, idx := keyBufIdx, x := screenX, y := screenY)]
    {
      var j := 0;
      while j < 128
        modifies this`term
        invariant 0 <= j <= 128 && |term| == 3
        invariant |term[id].keys| == 128 && term[id].keys[..j] == keyBuf[..j]
        invariant term == old(term)[id := old(term)[id].(keys := term[id].keys)]
      {
        term := term[id := term[id].(keys := term[id].keys[j := keyBuf[j]])];
        j := j + 1;
      }
      assert term[id].keys == keyBuf;
      term := term[id := term[id].(idx := keyBufIdx, x := screenX, y := screenY)];
      Memcpy(backing[id], 0, vram, 0, 4000, 0);
    }

    /** term_restore: the other way round, and `id` becomes the terminal displayed. */
    method TermRestore(id: nat)
      requires Wired() && id < 3 && screenY < 25 && term[id].x < 80 && term[id].y < 25
      modifies this`keyBuf, this`keyBufIdx, this`screenX, this`screenY, this`videoMem, this`curTermId, vram
      ensures Wired() && curTermId == id
      ensures vram[..] == backing[id][..]
      ensures keyBuf == term[id].keys && keyBufIdx == term[id].idx && screenX == term[id].x && screenY == term[id].y
    {
      var j := 0;
      while j < 128
        modifies this`keyBuf
        invariant 0 <= j <= 128
        invariant |keyBuf| == 128 && keyBuf[..j] == term[id].keys[..j]
      {
        keyBuf := keyBuf[j := term[id].keys[j]];
        j := j + 1;
      }
      keyBufIdx := term[id].idx;
      SetScreenCursor(term[id].x, term[id].y);
      Memcpy(vram, 0, backing[id], 0, 4000, 0);
      curTermId := id;
    }

    /** Switching the display away from the terminal displayed leaves every terminal's view as it was. */
    method TermSwitch(newId: nat)
      requires Valid() && curTermId < 3 && newId < 3
      modifies this, vram, backing[curTermId]
      ensures Valid() && Abs() == old(Abs()).(cur := newId)
    {
      ghost var oldId := curTermId;
      TermSave(curTermId);
      assert forall t :: 0 <= t < 3 && t != oldId ==> Stored(t) == old(Stored(t));
      TermRestore(newId);
    }

    /** The first display of a terminal: what was displayed, if anything, is saved first. */
    method TermFirstDisplay(id: nat)
      requires Valid() && id < 3 && id != curTermId
      modifies this, vram, backing
      ensures Valid() && Abs() == old(Abs()).(cur := id)
    {
      if curTermId < 3 {
        TermSave(curTermId);
      }
      TermRestore(id);
    }

    /** The PIT handler's part when the next terminal has no process: it is displayed for the first time. */
    method Launch(id: nat)
      requires Valid() && id < 3 && id != curTermId
      modifies this, vram, backing
      ensures Valid() && Abs() == Step(old(Abs()), Op.Launch(id))
    {
      nowTermId := id;
      TermFirstDisplay(id);
    }

    /** The PIT handler's part otherwise: the running terminal changes, and the attribute pointer goes to its page. */
    method Schedule(t: nat)
      requires Valid() && t < 3
      modifies this`nowTermId, this`videoMem
      ensures Valid() && Abs() == Step(old(Abs()), Op.Schedule(t))
    {
      nowTermId := t;
      if curTermId != nowTermId {
        videoMem := backing[nowTermId];
      } else {
        videoMem := vram;
      }
    }

    // ---- Output system calls ----

    method Puts(text: seq<byte>)
      requires Wired() && screenX < 80 && screenY < 25
      modifies this`screenX, this`screenY, this`videoMem, vram
      ensures Wired() && Shown() == PanePuts(old(Shown()), text)
    {
      var i := 0;
      while i < |text|
        invariant 0 <= i <= |text| && Wired() && screenX < 80 && screenY < 25
        invariant Shown() == PanePuts(old(Shown()), text[..i])
      {
        assert text[..i + 1][..i] == text[..i];
        Putc(text[i]);
        i := i + 1;
      }
      assert text[..i] == text;
    }

    method MultiPuts(text: seq<byte>)
      requires Valid()
      modifies this`term, vram, backing
      ensures Valid() && OtherPlanesKept() && OtherRecordsKept()
      ensures Stored(nowTermId) == PanePuts(old(Stored(nowTermId)), text)
    {
      var i := 0;
      while i < |text|
        invariant 0 <= i <= |text| && Valid() && OtherPlanesKept() && OtherRecordsKept()
        invariant Stored(nowTermId) == PanePuts(old(Stored(nowTermId)), text[..i])
      {
        assert text[..i + 1][..i] == text[..i];
        MultiPutc(text[i]);
        i := i + 1;
      }
      assert text[..i] == text;
    }

    /** printf: the scan of the format, which lies at the start of `mem`, with its conversions. */
    method Printf(mem: seq<byte>, env: Env)
      requires Wired() && screenX < 80 && screenY < 25
      requires Ends(mem, 0)
      modifies this`screenX, this`screenY, this`videoMem, vram
      ensures Wired() && Shown() == PanePuts(old(Shown()), Formatted(mem, 0, env, 0))
    {
      ghost var out := [];
      var i, k := 0, 0;
      while mem[i] != NUL
        invariant Wired() && screenX < 80 && screenY < 25
        invariant 0 <= i < |mem| && Ends(mem, i) && out + Formatted(mem, i, env, k) == Formatted(mem, 0, env, 0)
        invariant Shown() == PanePuts(old(Shown()), out)
        decreases |mem| - i
      {
        var text;
        text, i, k := Piece(mem, i, env, k);
        PutsAppend(old(Shown()), out, text);
        Regroup(out, text, Formatted(mem, i, env, k));
        out := out + text;
        Puts(text);
      }
      assert out + [] == out;
    }

    /** multi_printf, the same through multi_putc. */
    method MultiPrintf(mem: seq<byte>, env: Env)
      requires Valid()
      requires Ends(mem, 0)
      modifies this`term, vram, backing
      ensures Valid() && OtherPlanesKept() && OtherRecordsKept()
      ensures Stored(nowTermId) == PanePuts(old(Stored(nowTermId)), Formatted(mem, 0, env, 0))
    {
      ghost var out := [];
      var i, k := 0, 0;
      while mem[i] != NUL
        invariant Valid() && OtherPlanesKept() && OtherRecordsKept()
        invariant 0 <= i < |mem| && Ends(mem, i) && out + Formatted(mem, i, env, k) == Formatted(mem, 0, env, 0)
        invariant Stored(nowTermId) == PanePuts(old(Stored(nowTermId)), out)
        decreases |mem| - i
      {
        var text;
        text, i, k := Piece(mem, i, env, k);
        PutsAppend(old(Stored(nowTermId)), out, text);
        Regroup(out, text, Formatted(mem, i, env, k));
        out := out + text;
        MultiPuts(text);
      }
      assert out + [] == out;
    }

    /** Terminal t's view has become `v`, and nothing else that a user can see has changed. */
    twostate predicate OnlyViewChanged(t: nat, v: View)
      requires old(Wired()) && Wired() && t < 3
      reads this, vram, backing
    {
      Abs() == old(Abs()).(views := old(Abs()).views[t := v])
    }

    /** The two ways of printing, on the display or in the background. */
    method PrintNow(mem: seq<byte>, env: Env)
      requires Valid() && Ends(mem, 0)
      modifies this`screenX, this`screenY, this`videoMem, this`term, vram, backing
      ensures Valid() && OnlyViewChanged(nowTermId, Printed(old(Abs()).views[nowTermId], Formatted(mem, 0, env, 0)))
    {
      assert Abs().views[nowTermId] == ViewOf(nowTermId);
      if nowTermId == curTermId {
        Printf(mem, env);
      } else {
        MultiPrintf(mem, env);
      }
    }

    /**
     term_write: the running terminal's view gains what printf makes of the text up to its first NUL,
     and no other view changes.  `beyond` is the memory behind the copy printed from, which a final `%`
     makes printf run into; `env` is what conversions find.  PlainIff says when the text goes out as it is.
     */
    method TermWrite(buf: seq<byte>, beyond: seq<byte>, env: Env) returns (n: nat)
      requires Valid() && Ends(BeforeNul(buf) + [NUL] + beyond, 0)
      modifies this`screenX, this`screenY, this`videoMem, this`term, vram, backing
      ensures Valid() && Abs() == Step(old(Abs()), Write(Formatted(BeforeNul(buf) + [NUL] + beyond, 0, env, 0)))
      ensures n == |BeforeNul(buf)|
    {
      ghost var s := Abs();
      var text := TerminatedCopy(buf);
      n := |text| - 1;
      PrintNow(text + beyond, env);
      PrintedIsWrite(s, Abs(), Formatted(text + beyond, 0, env, 0));
    }

    method AnnounceLastShell()
      requires Valid() && curTermId < 3
      modifies this`screenX, this`screenY, this`videoMem, vram
      ensures Valid() && Abs() == Step(old(Abs()), Say(LAST_SHELL))
    {
      LastShellPlain();
      Announce(LAST_SHELL);
    }

    method AnnounceNoSpace()
      requires Valid() && curTermId < 3
      modifies this`screenX, this`screenY, this`videoMem, vram
      ensures Valid() && Abs() == Step(old(Abs()), Say(NO_SPACE))
    {
      NoSpacePlain();
      Announce(NO_SPACE);
    }

    /** A message of the kernel itself: printf, which is the displayed family whichever terminal runs. */
    method Announce(text: seq<byte>)
      requires Valid() && curTermId < 3 && NUL !in text && PERCENT !in text
      modifies this`screenX, this`screenY, this`videoMem, vram
      ensures Valid() && Abs() == Step(old(Abs()), Say(text))
    {
      var env := Env(_ => 0, _ => []);
      var mem := text + [NUL] + [];
      PlainWrite(text, [], env);
      PlainFormat(text, [], 0, env, 0);
      Printf(mem, env);
    }

    // ---- Keyboard ----

    method BufClear()
      requires |keyBuf| == 128
      modifies this`keyBuf, this`keyBufIdx
      ensures keyBuf == Repeat(NUL, 128) && keyBufIdx == 0
    {
      var i := 0;
      while i < 128
        modifies this`keyBuf
        invariant 0 <= i <= 128 && |keyBuf| == 128
        invariant forall j :: 0 <= j < i ==> keyBuf[j] == NUL
      {
        keyBuf := keyBuf[i := NUL];
        i := i + 1;
      }
      keyBufIdx := 0;
    }

    /**
     term_read after its wait: the line in the key buffer, which is that of the terminal displayed, is
     handed over, the buffer starts again, and the Enter of the running terminal is answered.
     */
    method TermRead(length: nat) returns (line: seq<byte>)
      requires Valid() && curTermId < 3 && term[nowTermId].entered
      modifies this`term, this`keyBuf, this`keyBufIdx
      ensures Valid() && Abs() == Step(old(Abs()), Read)
      ensures line <= BeforeNul(old(keyBuf))
      ensures |line| == if length < |BeforeNul(old(keyBuf))| then length else |BeforeNul(old(keyBuf))|
    {
      AnswerEnter();
      line := LineIn(keyBuf, length);
      ExitProgram();
    }

    method AnswerEnter()
      requires Valid()
      modifies this`term
      ensures Valid() && Abs() == OnView(old(Abs()), nowTermId, Take)
    {
      term := term[nowTermId := term[nowTermId].(entered := false)];
    }

    /** The clearing of the displayed terminal's key buffer, with which halt begins and term_read ends. */
    method ExitProgram()
      requires Valid() && curTermId < 3
      modifies this`keyBuf, this`keyBufIdx
      ensures Valid() && Abs() == Step(old(Abs()), Exit)
    {
      BufClear();
    }

    /** A printable key: stored and echoed while the buffer has room for it and for an Enter. */
    method PressKey(key: byte)
      requires Valid() && curTermId < 3
      modifies this`screenX, this`screenY, this`videoMem, this`keyBuf, this`keyBufIdx, vram
      ensures Valid() && OnlyViewChanged(curTermId, Act(old(ViewOf(curTermId)), Typed(key)))
    {
      if keyBufIdx < 127 {
        keyBuf := keyBuf[keyBufIdx := key];
        keyBufIdx := keyBufIdx + 1;
        Putc(key);
      }
    }

    method PressEnter()
      requires Valid() && curTermId < 3
      modifies this`screenX, this`screenY, this`videoMem, this`keyBuf, this`keyBufIdx, this`term, vram
      ensures Valid() && OnlyViewChanged(curTermId, Act(old(ViewOf(curTermId)), NewLine))
    {
      if keyBufIdx < 128 {
        keyBuf := keyBuf[keyBufIdx := NEWLINE];
        keyBufIdx := keyBufIdx + 1;
        term := term[curTermId := term[curTermId].(entered := true)];
        Enter();
      }
    }

    method PressBackspace()
      requires Valid() && curTermId < 3
      modifies this`screenX, this`screenY, this`videoMem, this`keyBuf, this`keyBufIdx, vram
      ensures Valid() && OnlyViewChanged(curTermId, Act(old(ViewOf(curTermId)), Erase))
    {
      if keyBufIdx > 0 {
        Backspace();
        keyBufIdx := keyBufIdx - 1;
        keyBuf := keyBuf[keyBufIdx := NUL];
      }
    }

    method PressClear()
      requires Valid() && curTermId < 3
      modifies this`screenX, this`screenY, this`videoMem, vram
      ensures Valid() && OnlyViewChanged(curTermId, Act(old(ViewOf(curTermId)), ClearScreen))
    {
      Clear();
      SetScreenCursor(0, 0);
    }

    /** The cases of the handler that stay on the displayed terminal. */
    method Perform(action: Action)
      requires Valid() && curTermId < 3 && !action.SwitchTo?
      modifies this`screenX, this`screenY, this`videoMem, this`keyBuf, this`keyBufIdx, this`term, vram
      ensures Valid() && OnlyViewChanged(curTermId, Act(old(ViewOf(curTermId)), action))
    {
      match action {
        case Typed(key) => PressKey(key);
        case NewLine => PressEnter();
        case Erase => PressBackspace();
        case ClearScreen => PressClear();
        case Interrupt => BufClear();
        case Ignored =>
      }
    }

    /** The handler's two kinds of action: those that change the display, and those that stay on it. */
    method Dispatch(m: Modifiers, action: Action)
      requires Valid() && curTermId < 3 && m.table < 4 && (action.SwitchTo? ==> action.t < 3)
      modifies this, vram, backing
      ensures Valid() && curTermId < 3
      ensures var s := old(Abs());
              Abs() == if action.SwitchTo? then s.(mods := m, cur := action.t)
                       else s.(mods := m, views := s.views[s.cur := Act(s.views[s.cur], action)])
    {
      if action.SwitchTo? {
        TermSwitch(action.t);
      } else {
        Perform(action);
      }
      mods := m;
    }

    /** keyboard_interrupt_handler; the result says whether Ctrl+C asked for a halt. */
    method KeyboardInterrupt(code: nat) returns (ctrlC: bool)
      requires Valid() && curTermId < 3
      modifies this, vram, backing
      ensures Valid() && curTermId < 3
      ensures Abs() == Step(old(Abs()), Key(code))
      ensures ctrlC == Decode(old(mods), code).1.Interrupt?
    {
      var (m, action) := Decode(mods, code);
      ctrlC := action.Interrupt?;
      Dispatch(m, action);
    }

    /** term_init: three blank terminals, none displayed. */
    constructor ()
      ensures Valid() && curTermId == 3 && nowTermId == 0
      ensures Abs() == START
      ensures fresh(vram) && forall t :: 0 <= t < 3 ==> fresh(backing[t])
    {
      vram := new byte[4000];
      videoMem := vram;
      var b0 := new byte[4000](i => if i % 2 == 0 then SPACE else Attribute(0));
      var b1 := new byte[4000](i => if i % 2 == 0 then SPACE else Attribute(1));
      var b2 := new byte[4000](i => if i % 2 == 0 then SPACE else Attribute(2));
      backing := [b0, b1, b2];
      term := Repeat3(Saved(0, 0, Repeat(NUL, 128), 0, false));
      screenX, screenY := 0, 0;
      curTermId, nowTermId := 3, 0;
      keyBuf, keyBufIdx := Repeat(NUL, 128), 0;
      mods := Modifiers(0, false, false);
      new;
      assert forall t :: 0 <= t < 3 ==> Plane(backing[t][..]) == Repeat(SPACE, 2000);
    }
  }

  function Repeat3(s: Saved): (r: seq<Saved>) {
    [s, s, s]
  }
}
