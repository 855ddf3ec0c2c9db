/** What runs of the console mean at one terminal: its screen, and the line being typed. */
module TerminalLaws {
  import opened Text
  import opened Screen
  import opened Keyboard
  import opened Terminals

  // ---- What a terminal shows ----

  /** The bytes an event puts on its terminal's screen, if it takes none away. */
  function Output(v: View, e: Event): seq<byte> {
    match e
    case Print(text) => text
    case Do(Typed(c)) => if v.idx < 127 then [c] else []
    case Do(NewLine) => if v.idx < 128 then [NEWLINE] else []
    case _ => []
  }

  ghost function Outputs(v: View, es: seq<Event>): seq<byte>
    requires v.Valid()
    decreases |es|
  {
    if es == [] then [] else Output(v, es[0]) + Outputs(Alone(v, es[0]), es[1..])
  }

  predicate OnlyAdds(e: Event) {
    e != Do(Erase) && e != Do(ClearScreen)
  }

  lemma {:induction false} PaneCollectsOutput(v: View, es: seq<Event>)
    requires v.Valid()
    requires forall i :: 0 <= i < |es| ==> OnlyAdds(es[i])
    ensures AloneAll(v, es).pane == PanePuts(v.pane, Outputs(v, es))
    decreases |es|
  {
    if es != [] {
      var w := Alone(v, es[0]);
      PaneCollectsOutput(w, es[1..]);
      PutsAppend(v.pane, Output(v, es[0]), Outputs(w, es[1..]));
      assert w.pane == PanePuts(v.pane, Output(v, es[0])) by {
        var out := Output(v, es[0]);
        if |out| == 1 {
          assert out[..0] == [];
        }
      }
    }
  }

  /** What has been put on the screen since it was last cleared; `text` had been before these events. */
  ghost function Since(text: seq<byte>, v: View, es: seq<Event>): seq<byte>
    requires v.Valid()
    decreases |es|
  {
    if es == [] then text
    else Since(if es[0] == Do(ClearScreen) then [] else text + Output(v, es[0]), Alone(v, es[0]), es[1..])
  }

  lemma {:induction false} PaneShowsSince(v: View, text: seq<byte>, es: seq<Event>)
    requires v.Valid() && v.pane == PanePuts(CLEAR, text) && Do(Erase) !in es
    ensures AloneAll(v, es).pane == PanePuts(CLEAR, Since(text, v, es))
    decreases |es|
  {
    if es != [] {
      var w := Alone(v, es[0]);
      if es[0] == Do(ClearScreen) {
        PaneShowsSince(w, [], es[1..]);
      } else {
        assert OnlyAdds(es[0]) && [es[0]][1..] == [];
        PaneCollectsOutput(v, [es[0]]);
        AloneOne(v, es[0]);
        assert Outputs(v, [es[0]]) == Output(v, es[0]) + [] == Output(v, es[0]);
        PutsAppend(CLEAR, text, Output(v, es[0]));
        PaneShowsSince(w, text + Output(v, es[0]), es[1..]);
      }
    }
  }

  /** As long as nothing is cleared that is everything put out. */
  lemma {:induction false} SinceIsAll(text: seq<byte>, v: View, es: seq<Event>)
    requires v.Valid() && Do(ClearScreen) !in es
    ensures Since(text, v, es) == text + Outputs(v, es)
    decreases |es|
  {
    if es != [] {
      var w := Alone(v, es[0]);
      SinceIsAll(text + Output(v, es[0]), w, es[1..]);
      assert text + (Output(v, es[0]) + Outputs(w, es[1..])) == text + Output(v, es[0]) + Outputs(w, es[1..]);
    }
  }

  /**
   What a user sees: a terminal on which `text` has been put from a clear screen, and at which nothing
   is erased, shows after any run the last 25 rows of the layout of exactly the bytes printed and typed at
   it since it was last cleared, `text` in front of them if it has not been, whatever happened on the other
   two and however often the display was switched.
   */
  lemma ScreenOfRun(s: State, ops: seq<Op>, t: nat, text: seq<byte>)
    requires s.Valid() && CanRun(s, ops) && t < 3 && s.views[t].pane == PanePuts(CLEAR, text)
    requires Do(Erase) !in EventsOf(s, ops, t)
    ensures ShowsEndOf(Run(s, ops).views[t].pane, Since(text, s.views[t], EventsOf(s, ops, t)))
    ensures Do(ClearScreen) !in EventsOf(s, ops, t) ==>
              ShowsEndOf(Run(s, ops).views[t].pane, text + Outputs(s.views[t], EventsOf(s, ops, t)))
  {
    var es := EventsOf(s, ops, t);
    Virtualisation(s, ops, t);
    PaneShowsSince(s.views[t], text, es);
    WindowTheorem(Since(text, s.views[t], es));
    if Do(ClearScreen) !in es {
      SinceIsAll(text, s.views[t], es);
    }
  }

  /** From term_init on, launches of the three shells included. */
  lemma ScreenFromStart(ops: seq<Op>, t: nat)
    requires START.Valid() && CanRun(START, ops) && t < 3
    requires Do(Erase) !in EventsOf(START, ops, t)
    ensures ShowsEndOf(Run(START, ops).views[t].pane, Since([], FRESH, EventsOf(START, ops, t)))
  {
    assert FRESH.pane == PanePuts(CLEAR, []);
    ScreenOfRun(START, ops, t, []);
  }

  // ---- The line being typed ----

  /** The line discipline, without a buffer: push while there is room, pop while there is something. */
  function Edited(line: seq<byte>, e: Event): (r: seq<byte>)
    requires |line| <= 128
    ensures |r| <= 128
  {
    match e
    case Do(Typed(c)) => if |line| < 127 then line + [c] else line
    case Do(NewLine) => if |line| < 128 then line + [NEWLINE] else line
    case Do(Erase) => if |line| > 0 then line[..|line| - 1] else line
    case Do(Interrupt) => []
    case Drop => []
    case _ => line
  }

  function EditedAll(line: seq<byte>, es: seq<Event>): (r: seq<byte>)
    requires |line| <= 128
    ensures |r| <= 128
    decreases |es|
  {
    if es == [] then line else EditedAll(Edited(line, es[0]), es[1..])
  }

  /** The buffer holds `line`, and zeros behind it. */
  ghost predicate Holds(v: View, line: seq<byte>) {
    |line| <= 128 && v.idx == |line| && v.keys == line + Repeat(NUL, 128 - |line|)
  }

  lemma EditStep(v: View, line: seq<byte>, e: Event)
    requires v.Valid() && Holds(v, line)
    ensures Holds(Alone(v, e), Edited(line, e))
  {
    var w := Alone(v, e);
    var edited := Edited(line, e);
    assert w.keys == edited + Repeat(NUL, 128 - |edited|);
  }

  /** The index stays at most 128, the first `idx` bytes are the edited line, the rest are zero. */
  lemma {:induction false} LineDiscipline(v: View, line: seq<byte>, es: seq<Event>)
    requires v.Valid() && Holds(v, line)
    ensures Holds(AloneAll(v, es), EditedAll(line, es))
    decreases |es|
  {
    if es != [] {
      EditStep(v, line, es[0]);
      LineDiscipline(Alone(v, es[0]), Edited(line, es[0]), es[1..]);
    }
  }

  // ---- The Enter a read waits for ----

  /** An Enter for which there is room waits for a read, until one takes it. */
  function Awaited(line: seq<byte>, pending: bool, e: Event): bool {
    match e
    case Do(NewLine) => pending || |line| < 128
    case Take => false
    case _ => pending
  }

  function AwaitedAll(line: seq<byte>, pending: bool, es: seq<Event>): bool
    requires |line| <= 128
    decreases |es|
  {
    if es == [] then pending else AwaitedAll(Edited(line, es[0]), Awaited(line, pending, es[0]), es[1..])
  }

  lemma {:induction false} EnterFlag(v: View, line: seq<byte>, es: seq<Event>)
    requires v.Valid() && Holds(v, line)
    ensures AloneAll(v, es).entered == AwaitedAll(line, v.entered, es)
    decreases |es|
  {
    if es != [] {
      EditStep(v, line, es[0]);
      EnterFlag(Alone(v, es[0]), Edited(line, es[0]), es[1..]);
    }
  }

  /** The i-th event is an Enter accepted, and no read takes it. */
  predicate StandsFrom(line: seq<byte>, es: seq<Event>, i: nat)
    requires |line| <= 128 && i < |es|
  {
    es[i] == Do(NewLine) && |EditedAll(line, es[..i])| < 128 && Take !in es[i..]
  }

  lemma {:induction false} StandsLater(line: seq<byte>, es: seq<Event>, i: nat)
    requires |line| <= 128 && 0 < i < |es|
    ensures StandsFrom(line, es, i) <==> StandsFrom(Edited(line, es[0]), es[1..], i - 1)
  {
    assert es[..i][1..] == es[1..][..i - 1] && es[i..] == es[1..][i - 1..];
  }

  /** An Enter waits if and only if one was accepted that no read has taken since, or one waited and none has. */
  lemma {:induction false} AwaitedIff(line: seq<byte>, pending: bool, es: seq<Event>)
    requires |line| <= 128
    ensures AwaitedAll(line, pending, es) <==>
              (pending && Take !in es) || exists i :: 0 <= i < |es| && StandsFrom(line, es, i)
    decreases |es|
  {
    if es != [] {
      var rest := es[1..];
      AwaitedIff(Edited(line, es[0]), Awaited(line, pending, es[0]), rest);
      assert es == [es[0]] + rest && es[..0] == [] && es[0..] == es;
      assert StandsFrom(line, es, 0) <==> es[0] == Do(NewLine) && |line| < 128 && Take !in rest;
      forall i | 0 < i < |es| ensures StandsFrom(line, es, i) <==> StandsFrom(Edited(line, es[0]), rest, i - 1) {
        StandsLater(line, es, i);
      }
      forall i | 0 <= i < |rest| && StandsFrom(Edited(line, es[0]), rest, i) ensures StandsFrom(line, es, i + 1) {
        StandsLater(line, es, i + 1);
      }
    }
  }

  /**
   The same over runs of the whole console: keys typed at other terminals never enter a terminal's
   line.  Reads and exits of other terminals' programs may empty it, but only in a run that is not
   private; in a private run the line is the fold of the terminal's own events.  An Enter waits for the
   terminal's process exactly when one of its own keys was an Enter accepted that no read has taken.
   */
  lemma LineOfRun(s: State, ops: seq<Op>, t: nat)
    requires s.Valid() && CanRun(s, ops) && t < 3 && Holds(s.views[t], [])
    ensures Holds(Run(s, ops).views[t], EditedAll([], EventsOf(s, ops, t)))
    ensures AllAtHome(s, ops) ==> Holds(Run(s, ops).views[t], EditedAll([], OwnEvents(s, ops, t)))
    ensures Run(s, ops).views[t].entered == AwaitedAll([], s.views[t].entered, EventsOf(s, ops, t))
    ensures Run(s, ops).mods.table < 4
  {
    Virtualisation(s, ops, t);
    LineDiscipline(s.views[t], [], EventsOf(s, ops, t));
    EnterFlag(s.views[t], [], EventsOf(s, ops, t));
    if AllAtHome(s, ops) {
      PrivateRun(s, ops, t);
      LineDiscipline(s.views[t], [], OwnEvents(s, ops, t));
    }
  }

  // ---- A line typed, and read ----

  /** The events that are not output. */
  function Keystrokes(es: seq<Event>): seq<Event> {
    if es == [] then [] else (if es[0].Print? then [] else [es[0]]) + Keystrokes(es[1..])
  }

  /** Output matters neither to the line nor to the Enter. */
  lemma {:induction false} KeystrokesDecide(line: seq<byte>, pending: bool, es: seq<Event>)
    requires |line| <= 128
    ensures EditedAll(line, es) == EditedAll(line, Keystrokes(es))
    ensures AwaitedAll(line, pending, es) == AwaitedAll(line, pending, Keystrokes(es))
    decreases |es|
  {
    if es != [] {
      KeystrokesDecide(Edited(line, es[0]), Awaited(line, pending, es[0]), es[1..]);
      if es[0].Print? {
        assert Keystrokes(es) == Keystrokes(es[1..]);
      } else {
        assert Keystrokes(es)[1..] == Keystrokes(es[1..]);
      }
    }
  }

  /** A line of at most 127 bytes, typed from `line` on, and Enter. */
  lemma {:induction false} TypedAndEntered(line: seq<byte>, pending: bool, more: seq<byte>)
    requires |line| + |more| <= 127
    ensures EditedAll(line, Typing(more) + [Do(NewLine)]) == line + more + [NEWLINE]
    ensures AwaitedAll(line, pending, Typing(more) + [Do(NewLine)])
    decreases |more|
  {
    var es := Typing(more) + [Do(NewLine)];
    if more == [] {
      assert es[1..] == [];
      assert EditedAll(Edited(line, es[0]), es[1..]) == line + [NEWLINE];
    } else {
      TypedAndEntered(line + [more[0]], pending, more[1..]);
      assert es[0] == Do(Typed(more[0])) && es[1..] == Typing(more[1..]) + [Do(NewLine)];
      assert line + [more[0]] + more[1..] == line + more;
    }
  }

  /**
   A line of at most 127 bytes is typed into an empty buffer, then Enter, whatever is printed meanwhile
   and whatever happens at the other terminals: the read of the terminal's process, when it runs there and
   the terminal is displayed, can go on, and what it finds in the buffer is exactly that line and a
   newline; afterwards the buffer is empty and no Enter waits.
   */
  lemma TypedLineIsRead(s: State, ops: seq<Op>, t: nat, line: seq<byte>)
    requires s.Valid() && CanRun(s, ops) && t < 3 && Holds(s.views[t], [])
    requires |line| <= 127 && NUL !in line && Keystrokes(EventsOf(s, ops, t)) == Typing(line) + [Do(NewLine)]
    requires Run(s, ops).now == t && Run(s, ops).cur == t
    ensures var r := Run(s, ops);
            && Enabled(r, Read) && BeforeNul(r.views[t].keys) == line + [NEWLINE]
            && Holds(Step(r, Read).views[t], []) && !Step(r, Read).views[t].entered
  {
    var r, es := Run(s, ops), EventsOf(s, ops, t);
    LineOfRun(s, ops, t);
    KeystrokesDecide([], s.views[t].entered, es);
    TypedAndEntered([], s.views[t].entered, line);
    var full := line + [NEWLINE];
    assert [] + line + [NEWLINE] == full;
    assert r.views[t].keys[..|full|] == full;
    BeforeNulIs(r.views[t].keys, |full|);
    assert [] + Repeat(NUL, 128) == Repeat(NUL, 128);
  }

  // ---- Typing and erasing a line ----

  function Typing(s: seq<byte>): (es: seq<Event>)
    ensures |es| == |s|
  {
    seq(|s|, i requires 0 <= i < |s| => Do(Typed(s[i])))
  }

  function Erasing(n: nat): (es: seq<Event>)
    ensures |es| == n
  {
    seq(n, i => Do(Erase))
  }

  lemma {:induction false} TypingPuts(v: View, s: seq<byte>)
    requires v.Valid() && v.idx + |s| <= 127
    ensures var w := AloneAll(v, Typing(s));
            && w.pane == PanePuts(v.pane, s) && w.idx == v.idx + |s|
            && w.entered == v.entered
  {
    if s != [] {
      var n := |s| - 1;
      TypingPuts(v, s[..n]);
      assert Typing(s) == Typing(s[..n]) + [Do(Typed(s[n]))];
      AloneAppend(v, Typing(s[..n]), [Do(Typed(s[n]))]);
      var u := AloneAll(v, Typing(s[..n]));
      assert AloneAll(u, [Do(Typed(s[n]))]) == AloneAll(Alone(u, Do(Typed(s[n]))), []);
    }
  }

  lemma {:induction false} ErasingBacks(v: View, n: nat)
    requires v.Valid() && n <= v.idx
    ensures var w := AloneAll(v, Erasing(n));
            && w.pane == PaneBacks(v.pane, n) && w.idx == v.idx - n
            && w.entered == v.entered
  {
    if n > 0 {
      ErasingBacks(v, n - 1);
      assert Erasing(n) == Erasing(n - 1) + [Do(Erase)];
      AloneAppend(v, Erasing(n - 1), [Do(Erase)]);
      var u := AloneAll(v, Erasing(n - 1));
      assert AloneAll(u, [Do(Erase)]) == AloneAll(Alone(u, Do(Erase)), []);
    }
  }

  /**
   From an empty buffer, n printable keys (n at most 127) and then n backspaces: the buffer is empty
   again, and on the tape behind the screen the cursor is back and exactly the typed cells are blank,
   through any wraps and scrolls in between.
   */
  lemma {:induction false} TypeThenEraseAtTerminal(v: View, t: Tape, s: seq<byte>)
    requires v.Valid() && Holds(v, []) && t.Valid() && v.pane == Window(t)
    requires |s| <= 127 && forall i :: 0 <= i < |s| ==> s[i] !in BREAKS
    ensures var w := AloneAll(v, Typing(s) + Erasing(|s|));
            var r := TapeBacks(TapePuts(t, s), |s|);
            && Holds(w, []) && w.pane == Window(r)
            && r.pos == t.pos && r.top >= t.top && Wrote(t, t.pos, Repeat(SPACE, |s|), r)
  {
    var es := Typing(s) + Erasing(|s|);
    AloneAppend(v, Typing(s), Erasing(|s|));
    TypingPuts(v, s);
    ErasingBacks(AloneAll(v, Typing(s)), |s|);
    LineDiscipline(v, [], es);
    PutsThroughWindow(t, s);
    BacksThroughWindow(TapePuts(t, s), |s|);
    TypeThenErase(t, s);
  }

  // ---- The screen as a tape, whatever is typed ----

  /** What an event writes on the tape behind a screen; which keys are accepted is for the line to say. */
  function OnTape(t: Tape, line: seq<byte>, e: Event): (r: Tape)
    requires t.Valid()
    ensures r.Valid()
  {
    match e
    case Print(text) => TapePuts(t, text)
    case Do(Typed(c)) => if |line| < 127 then TapePut(t, c) else t
    case Do(NewLine) => if |line| < 128 then TapePut(t, NEWLINE) else t
    case Do(Erase) => if line != [] then TapeBack(t) else t
    case Do(ClearScreen) => BLANK
    case _ => t
  }

  function OnTapeAll(t: Tape, line: seq<byte>, es: seq<Event>): (r: Tape)
    requires t.Valid() && |line| <= 128
    ensures r.Valid()
    decreases |es|
  {
    if es == [] then t else OnTapeAll(OnTape(t, line, es[0]), Edited(line, es[0]), es[1..])
  }

  lemma OnTapeStep(v: View, t: Tape, line: seq<byte>, e: Event)
    requires v.Valid() && Holds(v, line) && t.Valid() && v.pane == Window(t)
    ensures Alone(v, e).pane == Window(OnTape(t, line, e))
  {
    match e {
      case Print(text) => PutsThroughWindow(t, text);
      case Do(Typed(c)) => PutThroughWindow(t, c);
      case Do(NewLine) => PutThroughWindow(t, NEWLINE);
      case Do(Erase) => BackThroughWindow(t);
      case Do(ClearScreen) =>
        assert BLANK.cells[0..] == BLANK.cells;
      case _ =>
    }
  }

  lemma {:induction false} ScreenIsTape(v: View, t: Tape, line: seq<byte>, es: seq<Event>)
    requires v.Valid() && Holds(v, line) && t.Valid() && v.pane == Window(t)
    ensures AloneAll(v, es).pane == Window(OnTapeAll(t, line, es))
    decreases |es|
  {
    if es != [] {
      OnTapeStep(v, t, line, es[0]);
      EditStep(v, line, es[0]);
      ScreenIsTape(Alone(v, es[0]), OnTape(t, line, es[0]), Edited(line, es[0]), es[1..]);
    }
  }

  /**
   The screen law without exception: over any run of the console a terminal's screen is the window on the
   tape on which its output is written and its keys are: those accepted written, a backspace with something
   in the line one cell back, Ctrl+L a fresh tape.
   */
  lemma TapeOfRun(s: State, ops: seq<Op>, t: nat, tape: Tape, line: seq<byte>)
    requires s.Valid() && CanRun(s, ops) && t < 3
    requires Holds(s.views[t], line) && tape.Valid() && s.views[t].pane == Window(tape)
    ensures Run(s, ops).views[t].pane == Window(OnTapeAll(tape, line, EventsOf(s, ops, t)))
  {
    Virtualisation(s, ops, t);
    ScreenIsTape(s.views[t], tape, line, EventsOf(s, ops, t));
  }
}
