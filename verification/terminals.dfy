/**
 Three private terminals, as values: what the console is proved to implement.

 A `View` is one terminal's screen, key buffer and enter flag.  Keys act on the terminal displayed
 (`cur`), program output on the terminal whose process runs (`now`).  Over every run, each terminal
 ends up exactly where the events addressed to it, taken alone, would have brought it; the two that
 another terminal's program can address to it, by an exit or a read, are told apart.
 */
module Terminals {
  import opened Text
  import opened Screen
  import opened Keyboard

  /** The saved part of a term_t record. */
  datatype Saved = Saved(x: nat, y: nat, keys: seq<byte>, idx: nat, entered: bool)

  datatype View = View(pane: Pane, keys: seq<byte>, idx: nat, entered: bool) {
    ghost predicate Valid() {
      pane.Valid() && |keys| == 128 && idx <= 128
    }
  }

  datatype State = State(cur: nat, now: nat, views: seq<View>, mods: Modifiers) {
    ghost predicate Valid() {
      && cur <= 3 && now < 3 && |views| == 3 && mods.table < 4
      && forall t :: 0 <= t < 3 ==> views[t].Valid()
    }
  }

  // ---- One terminal ----

  /** The effect of a key action on the terminal it is typed at. */
  function Act(v: View, a: Action): (r: View)
    requires v.Valid()
    ensures r.Valid()
  {
    match a
    case Typed(c) =>
      if v.idx < 127 then v.(keys := v.keys[v.idx := c], idx := v.idx + 1, pane := PanePut(v.pane, c)) else v
    case NewLine =>
      if v.idx < 128 then
        v.(keys := v.keys[v.idx := NEWLINE], idx := v.idx + 1, entered := true, pane := PaneEnter(v.pane))
      else v
    case Erase =>
      if v.idx > 0 then v.(pane := PaneBack(v.pane), idx := v.idx - 1, keys := v.keys[v.idx - 1 := NUL]) else v
    case ClearScreen => v.(pane := CLEAR)
    case Interrupt => Flushed(v)
    case SwitchTo(_) => v
    case Ignored => v
  }

  function Flushed(v: View): View {
    v.(keys := Repeat(NUL, 128), idx := 0)
  }

  function Printed(v: View, text: seq<byte>): (r: View)
    requires v.Valid()
    ensures r.Valid()
  {
    v.(pane := PanePuts(v.pane, text))
  }

  /**
   What one terminal can be asked to do.  `Take` is a read's answer to Enter, `Drop` the clearing of
   the key buffer, by a read or by a program's exit.
   */
  datatype Event = Do(a: Action) | Print(text: seq<byte>) | Take | Drop

  function Alone(v: View, e: Event): (r: View)
    requires v.Valid()
    ensures r.Valid()
  {
    match e
    case Do(a) => Act(v, a)
    case Print(text) => Printed(v, text)
    case Take => v.(entered := false)
    case Drop => Flushed(v)
  }

  function AloneAll(v: View, es: seq<Event>): (r: View)
    requires v.Valid()
    ensures r.Valid()
    decreases |es|
  {
    if es == [] then v else AloneAll(Alone(v, es[0]), es[1..])
  }

  // ---- Three terminals on one console ----

  datatype Op =
    | Key(code: nat)              // keyboard interrupt
    | Write(text: seq<byte>)      // output of the running process
    | Read                        // the second half of term_read, after the wait
    | Exit                        // the clearing of the key buffer with which halt begins
    | Say(text: seq<byte>)        // a message of the kernel itself, which goes to the display
    | Schedule(t: nat)            // the PIT gives the processor to terminal t
    | Launch(t: nat)              // the PIT starts terminal t, which displays it

  /** Keys, reads, exits and messages need a terminal displayed, a read needs its Enter; a launch is a first display. */
  predicate Enabled(s: State, op: Op)
    requires s.Valid()
  {
    match op
    case Key(_) => s.cur < 3
    case Write(_) => true
    case Read => s.cur < 3 && s.views[s.now].entered
    case Exit => s.cur < 3
    case Say(_) => s.cur < 3
    case Schedule(t) => t < 3
    case Launch(t) => t < 3 && t != s.cur
  }

  /** One terminal's view changed. */
  function OnView(s: State, t: nat, e: Event): (r: State)
    requires s.Valid() && t < 3
    ensures r.Valid()
  {
    s.(views := s.views[t := Alone(s.views[t], e)])
  }

  /**
   A read answers the Enter of the running terminal, but takes the line from the one key buffer there
   is, which is that of the terminal displayed.
   */
  function Step(s: State, op: Op): (r: State)
    requires s.Valid() && Enabled(s, op)
    ensures r.Valid()
  {
    match op
    case Key(code) =>
      var (m, a) := Decode(s.mods, code);
      if a.SwitchTo? then s.(mods := m, cur := a.t)
      else s.(mods := m, views := s.views[s.cur := Act(s.views[s.cur], a)])
    case Write(text) => s.(views := s.views[s.now := Printed(s.views[s.now], text)])
    case Read => OnView(OnView(s, s.now, Take), s.cur, Drop)
    case Exit => OnView(s, s.cur, Drop)
    case Say(text) => OnView(s, s.cur, Print(text))
    case Schedule(t) => s.(now := t)
    case Launch(t) => s.(now := t, cur := t)
  }

  /**
   When another terminal than the running one is displayed, a read answers its own terminal's Enter and
   leaves its line, and empties the displayed terminal's line and leaves its Enter; the third is not touched.
   */
  lemma ReadAcross(s: State, t: nat)
    requires s.Valid() && Enabled(s, Read) && s.cur != s.now && t < 3
    ensures var v, r := s.views[t], Step(s, Read);
            && r.cur == s.cur && r.now == s.now && r.mods == s.mods && r.views[t].pane == v.pane
            && r.views[t].entered == (if t == s.now then false else v.entered)
            && (r.views[t].keys, r.views[t].idx) == (if t == s.cur then (Repeat(NUL, 128), 0) else (v.keys, v.idx))
  {
  }

  lemma PrintedIsWrite(s: State, r: State, text: seq<byte>)
    requires s.Valid() && r == s.(views := s.views[s.now := Printed(s.views[s.now], text)])
    ensures r == Step(s, Write(text))
  {
  }

  ghost predicate CanRun(s: State, ops: seq<Op>)
    requires s.Valid()
    decreases |ops|
  {
    ops == [] || (Enabled(s, ops[0]) && CanRun(Step(s, ops[0]), ops[1..]))
  }

  ghost function Run(s: State, ops: seq<Op>): (r: State)
    requires s.Valid() && CanRun(s, ops)
    ensures r.Valid()
    decreases |ops|
  {
    if ops == [] then s else Run(Step(s, ops[0]), ops[1..])
  }

  /** The part of an operation that is addressed to terminal t. */
  function Addressed(s: State, op: Op, t: nat): seq<Event>
    requires s.Valid()
  {
    match op
    case Key(code) =>
      var a := Decode(s.mods, code).1;
      if s.cur == t && !a.SwitchTo? && !a.Ignored? then [Do(a)] else []
    case Write(text) => if s.now == t then [Print(text)] else []
    case Read => (if s.now == t then [Take] else []) + (if s.cur == t then [Drop] else [])
    case Exit => if s.cur == t then [Drop] else []
    case Say(text) => if s.cur == t then [Print(text)] else []
    case _ => []
  }

  ghost function EventsOf(s: State, ops: seq<Op>, t: nat): seq<Event>
    requires s.Valid() && CanRun(s, ops)
    decreases |ops|
  {
    if ops == [] then [] else Addressed(s, ops[0], t) + EventsOf(Step(s, ops[0]), ops[1..], t)
  }

  lemma {:induction false} AloneAppend(v: View, es: seq<Event>, fs: seq<Event>)
    requires v.Valid()
    ensures AloneAll(v, es + fs) == AloneAll(AloneAll(v, es), fs)
    decreases |es|
  {
    if es == [] {
      assert es + fs == fs;
    } else {
      AloneAppend(Alone(v, es[0]), es[1..], fs);
      assert (es + fs)[1..] == es[1..] + fs;
    }
  }

  lemma AloneOne(v: View, e: Event)
    requires v.Valid()
    ensures AloneAll(v, [e]) == Alone(v, e)
  {
    assert AloneAll(Alone(v, e), []) == Alone(v, e);
  }

  lemma StepView(s: State, op: Op, t: nat)
    requires s.Valid() && Enabled(s, op) && t < 3
    ensures Step(s, op).views[t] == AloneAll(s.views[t], Addressed(s, op, t))
  {
    var mine, v := Addressed(s, op, t), s.views[t];
    if |mine| == 1 {
      AloneOne(v, mine[0]);
    } else if |mine| == 2 {
      AloneOne(Alone(v, Take), Drop);
      assert mine[1..] == [Drop];
    }
  }

  /**
   Virtualisation: after any run of keys, terminal switches, writes, reads, exits, kernel messages,
   launches and scheduling, each terminal's view is what the events addressed to it would have made of it alone.
   */
  lemma {:induction false} Virtualisation(s: State, ops: seq<Op>, t: nat)
    requires s.Valid() && CanRun(s, ops) && t < 3
    ensures Run(s, ops).views[t] == AloneAll(s.views[t], EventsOf(s, ops, t))
    decreases |ops|
  {
    if ops != [] {
      var r := Step(s, ops[0]);
      StepView(s, ops[0], t);
      Virtualisation(r, ops[1..], t);
      AloneAppend(s.views[t], Addressed(s, ops[0], t), EventsOf(r, ops[1..], t));
    }
  }

  /**
   Where an operation can be seen: output at the terminal whose process runs, keys, messages and the
   clearing of the buffer at the one displayed, a read at these two, and switches of the display or of the
   processor nowhere.
   */
  lemma SeenAt(s: State, op: Op, t: nat)
    requires s.Valid() && Enabled(s, op) && t < 3 && Step(s, op).views[t] != s.views[t]
    ensures match op
            case Write(_) => t == s.now
            case Read => t == s.now || t == s.cur
            case Key(_) => t == s.cur
            case Exit => t == s.cur
            case Say(_) => t == s.cur
            case _ => false
  {
  }

  // ---- Where one terminal reaches into another ----

  /** Nothing is in the key buffer. */
  predicate Blank(v: View) {
    v.idx == 0 && v.keys == Repeat(NUL, 128)
  }

  /** What the running process, or the kernel on its behalf, does to the display whichever that is. */
  predicate OnDisplay(op: Op) {
    op.Read? || op.Exit? || op.Say?
  }

  /** An event that is nothing to its terminal: an empty message, or the clearing of an empty buffer. */
  predicate Idle(v: View, e: Event) {
    (e.Drop? && Blank(v)) || e == Print([])
  }

  lemma IdleKeeps(v: View, e: Event)
    requires v.Valid() && Idle(v, e)
    ensures Alone(v, e) == v
  {
  }

  /** Some event that is not idle is addressed to terminal t. */
  predicate Hit(s: State, op: Op, t: nat)
    requires s.Valid() && t < 3
  {
    exists i :: 0 <= i < |Addressed(s, op, t)| && !Idle(s.views[t], Addressed(s, op, t)[i])
  }

  /** What a process does on the display hits no terminal but its own. */
  predicate AtHome(s: State, op: Op)
    requires s.Valid()
  {
    OnDisplay(op) ==> forall t :: 0 <= t < 3 && t != s.now ==> !Hit(s, op, t)
  }

  /**
   The exact condition: the running terminal is displayed, or the message is empty, or nothing has been
   typed at the terminal displayed.
   */
  lemma AtHomeIff(s: State, op: Op)
    requires s.Valid() && Enabled(s, op) && OnDisplay(op)
    ensures AtHome(s, op) <==> s.cur == s.now || (if op.Say? then op.text == [] else Blank(s.views[s.cur]))
  {
    if s.cur != s.now {
      assert Addressed(s, op, s.cur) == [if op.Say? then Print(op.text) else Drop];
      assert Hit(s, op, s.cur) <==> !Idle(s.views[s.cur], Addressed(s, op, s.cur)[0]);
    }
    forall t | 0 <= t < 3 && t != s.now && t != s.cur ensures !Hit(s, op, t) {
      assert Addressed(s, op, t) == [];
    }
  }

  /** The views of all terminals but the running one are as before. */
  predicate OthersKept(s: State, op: Op)
    requires s.Valid() && Enabled(s, op)
  {
    forall t :: 0 <= t < 3 && t != s.now ==> Step(s, op).views[t] == s.views[t]
  }

  /**
   For reads and exits this is also exactly when the views of all terminals but the running one stay
   as they are.  A message may leave a screen as it is that shows nothing else, the scroll included.
   */
  lemma ForeignViewsKeptIff(s: State, op: Op)
    requires s.Valid() && Enabled(s, op) && (op.Read? || op.Exit?)
    ensures OthersKept(s, op) <==> (s.cur == s.now || Blank(s.views[s.cur]))
  {
    var r := Step(s, op);
    if s.cur != s.now {
      assert r.views[s.cur] == Flushed(s.views[s.cur]);
    }
  }

  /** What terminal t does to itself: its keys, and what its own process does. */
  function Own(s: State, op: Op, t: nat): seq<Event>
    requires s.Valid()
  {
    if OnDisplay(op) && s.now != t then [] else Addressed(s, op, t)
  }

  ghost function OwnEvents(s: State, ops: seq<Op>, t: nat): seq<Event>
    requires s.Valid() && CanRun(s, ops)
    decreases |ops|
  {
    if ops == [] then [] else Own(s, ops[0], t) + OwnEvents(Step(s, ops[0]), ops[1..], t)
  }

  ghost predicate AllAtHome(s: State, ops: seq<Op>)
    requires s.Valid() && CanRun(s, ops)
    decreases |ops|
  {
    ops == [] || (AtHome(s, ops[0]) && AllAtHome(Step(s, ops[0]), ops[1..]))
  }

  lemma OwnView(s: State, op: Op, t: nat)
    requires s.Valid() && Enabled(s, op) && AtHome(s, op) && t < 3
    ensures Step(s, op).views[t] == AloneAll(s.views[t], Own(s, op, t))
  {
    StepView(s, op, t);
    var all, v := Addressed(s, op, t), s.views[t];
    if OnDisplay(op) && s.now != t && all != [] {
      assert !Hit(s, op, t) && |all| == 1;
      assert Idle(v, all[0]);
      IdleKeeps(v, all[0]);
      AloneOne(v, all[0]);
    }
  }

  /**
   Privacy: in a run in which no program exits or reads while a line is being typed at another
   terminal, and none makes the kernel print a message while another terminal is displayed, each
   terminal's view is what its own keys and its own processes have made of it.
   */
  lemma {:induction false} PrivateRun(s: State, ops: seq<Op>, t: nat)
    requires s.Valid() && CanRun(s, ops) && AllAtHome(s, ops) && t < 3
    ensures Run(s, ops).views[t] == AloneAll(s.views[t], OwnEvents(s, ops, t))
    decreases |ops|
  {
    if ops != [] {
      var r := Step(s, ops[0]);
      OwnView(s, ops[0], t);
      PrivateRun(r, ops[1..], t);
      AloneAppend(s.views[t], Own(s, ops[0], t), OwnEvents(r, ops[1..], t));
    }
  }

  // ---- Halt and execute on the console ----

  const LAST_SHELL: seq<byte> := "Halting the last shell is not allowed!\n"
  const NO_SPACE: seq<byte> := "There are no available space in the PCB\n"

  /**
   What a halt does on the console: the key buffer is cleared; for a root shell there is a message, and
   another one when its restart is refused.
   */
  function HaltOps(root: bool, refused: bool): seq<Op> {
    [Exit] + (if root then [Say(LAST_SHELL)] + (if refused then [Say(NO_SPACE)] else []) else [])
  }

  function AfterHalt(s: State, root: bool, refused: bool): (r: State)
    requires s.Valid() && s.cur < 3
    ensures r.Valid() && r.cur == s.cur && r.now == s.now
  {
    var a := Step(s, Exit);
    if !root then a
    else
      var b := Step(a, Say(LAST_SHELL));
      if refused then Step(b, Say(NO_SPACE)) else b
  }

  /**
   A halt empties the displayed terminal's key buffer and, for a root shell, puts the messages on its screen;
   an Enter not yet read stays one, and nothing changes at the other terminals.
   */
  lemma HaltShown(s: State, root: bool, refused: bool)
    requires s.Valid() && s.cur < 3
    ensures var v, r := s.views[s.cur], AfterHalt(s, root, refused); var w := r.views[s.cur];
            && w.keys == Repeat(NUL, 128) && w.idx == 0 && w.entered == v.entered
            && (!root ==> w.pane == v.pane)
            && (root && !refused ==> w.pane == PanePuts(v.pane, LAST_SHELL))
            && (root && refused ==> w.pane == PanePuts(v.pane, LAST_SHELL + NO_SPACE))
            && forall t :: 0 <= t < 3 && t != s.cur ==> r.views[t] == s.views[t]
  {
    PutsAppend(s.views[s.cur].pane, LAST_SHELL, NO_SPACE);
  }

  lemma RunFirst(s: State, op: Op, ops: seq<Op>)
    requires s.Valid() && Enabled(s, op) && CanRun(Step(s, op), ops)
    ensures CanRun(s, [op] + ops) && Run(s, [op] + ops) == Run(Step(s, op), ops)
    ensures AllAtHome(s, [op] + ops) <==> AtHome(s, op) && AllAtHome(Step(s, op), ops)
  {
    assert ([op] + ops)[0] == op && ([op] + ops)[1..] == ops;
  }

  /** What a halt does from its second message on. */
  lemma SecondMessage(s: State, refused: bool)
    requires s.Valid() && s.cur < 3
    ensures var ops := if refused then [Say(NO_SPACE)] else [];
            && CanRun(s, ops) && Run(s, ops) == (if refused then Step(s, Say(NO_SPACE)) else s)
            && (AllAtHome(s, ops) <==> s.cur == s.now || !refused)
  {
    if refused {
      AtHomeIff(s, Say(NO_SPACE));
      RunFirst(s, Say(NO_SPACE), []);
      assert [Say(NO_SPACE)] + [] == [Say(NO_SPACE)];
    }
  }

  lemma Messages(s: State, root: bool, refused: bool)
    requires s.Valid() && s.cur < 3
    ensures var ops := if root then [Say(LAST_SHELL)] + (if refused then [Say(NO_SPACE)] else []) else [];
            var b := Step(s, Say(LAST_SHELL));
            && CanRun(s, ops)
            && Run(s, ops) == (if !root then s else if refused then Step(b, Say(NO_SPACE)) else b)
            && (AllAtHome(s, ops) <==> s.cur == s.now || !root)
  {
    if root {
      AtHomeIff(s, Say(LAST_SHELL));
      SecondMessage(Step(s, Say(LAST_SHELL)), refused);
      RunFirst(s, Say(LAST_SHELL), if refused then [Say(NO_SPACE)] else []);
    }
  }

  /**
   A whole halt stays at home if and only if its terminal is displayed, or nothing has been typed at the
   one that is and no message is printed.
   */
  lemma HaltAtHomeIff(s: State, root: bool, refused: bool)
    requires s.Valid() && s.cur < 3
    ensures CanRun(s, HaltOps(root, refused)) && Run(s, HaltOps(root, refused)) == AfterHalt(s, root, refused)
    ensures AllAtHome(s, HaltOps(root, refused)) <==> s.cur == s.now || (Blank(s.views[s.cur]) && !root)
  {
    var rest := if root then [Say(LAST_SHELL)] + (if refused then [Say(NO_SPACE)] else []) else [];
    AtHomeIff(s, Exit);
    Messages(Step(s, Exit), root, refused);
    RunFirst(s, Exit, rest);
  }

  /** An execute that finds no slot stays at home if and only if its terminal is displayed. */
  lemma RefusedAtHomeIff(s: State)
    requires s.Valid() && s.cur < 3
    ensures CanRun(s, [Say(NO_SPACE)]) && (AllAtHome(s, [Say(NO_SPACE)]) <==> s.cur == s.now)
  {
    SecondMessage(s, true);
  }

  // ---- Start-up ----

  /** A terminal as term_init leaves it. */
  const FRESH: View := View(CLEAR, Repeat(NUL, 128), 0, false)

  /** term_init: three fresh terminals, none displayed. */
  const START: State := State(3, 0, [FRESH, FRESH, FRESH], Modifiers(0, false, false))
}
