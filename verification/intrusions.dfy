/**
 Runs of the console in which a program of one terminal empties the line typed at another by its exit,
 gets it as its own by a read, or puts a message on its screen.
 */
module Intrusions {
  import opened Text
  import opened Keyboard
  import opened Screen
  import opened Terminals

  const A_KEY: nat := 0x1E

  /** Three launches, a key at terminal 0, and the processor goes to terminal 1. */
  const TYPED: seq<Op> := [Launch(1), Launch(2), Launch(0), Key(A_KEY), Schedule(1)]

  lemma DecodeA(m: Modifiers)
    requires m == Modifiers(0, false, false)
    ensures Decode(m, A_KEY) == (m, Typed('a'))
  {
    assert PlainMap()[A_KEY] == 'a';
  }

  lemma TypedRun() returns (s: State)
    ensures START.Valid() && CanRun(START, TYPED) && s == Run(START, TYPED)
    ensures s.Valid() && s.cur == 0 && s.now == 1 && s.views[0] == Act(FRESH, Typed('a'))
  {
    var up := START.(cur := 0, now := 0);
    DecodeA(up.mods);
    var typed := Step(up, Key(A_KEY));
    s := Step(typed, Schedule(1));
    RunFirst(typed, Schedule(1), []);
    RunFirst(up, Key(A_KEY), [Schedule(1)]);
    RunFirst(START.(cur := 2, now := 2), Launch(0), [Key(A_KEY)] + [Schedule(1)]);
    RunFirst(START.(cur := 1, now := 1), Launch(2), [Launch(0)] + ([Key(A_KEY)] + [Schedule(1)]));
    RunFirst(START, Launch(1), [Launch(2)] + ([Launch(0)] + ([Key(A_KEY)] + [Schedule(1)])));
    assert [Schedule(1)] == [Schedule(1)] + [];
    assert TYPED == [Launch(1)] + ([Launch(2)] + ([Launch(0)] + ([Key(A_KEY)] + [Schedule(1)])));
  }

  /** Then the program of terminal 1 exits, and what was typed at terminal 0 is gone. */
  lemma ForeignExitLosesLine()
    ensures START.Valid() && CanRun(START, TYPED)
    ensures var s := Run(START, TYPED);
            && s.cur == 0 && s.now == 1 && Enabled(s, Exit)
            && s.views[0].idx == 1 && s.views[0].keys[0] == 'a'
            && Blank(Step(s, Exit).views[0])
  {
    var s := TypedRun();
  }

  /** Enter is typed at terminal 1 when its shell is up; later a key at terminal 0, and the processor goes to terminal 1. */
  const ENTERED: seq<Op> := [Launch(1), Key(ENTER), Launch(2), Launch(0), Key(A_KEY), Schedule(1)]

  lemma EnteredRun() returns (s: State)
    ensures START.Valid() && CanRun(START, ENTERED) && s == Run(START, ENTERED)
    ensures s.Valid() && s.cur == 0 && s.now == 1
    ensures s.views[0] == Act(FRESH, Typed('a')) && s.views[1] == Act(FRESH, NewLine)
  {
    var one := START.(cur := 1, now := 1);
    var entered := Step(one, Key(ENTER));
    var up := entered.(cur := 0, now := 0);
    DecodeA(up.mods);
    var typed := Step(up, Key(A_KEY));
    s := Step(typed, Schedule(1));
    RunFirst(typed, Schedule(1), []);
    RunFirst(up, Key(A_KEY), [Schedule(1)]);
    RunFirst(entered.(cur := 2, now := 2), Launch(0), [Key(A_KEY)] + [Schedule(1)]);
    RunFirst(entered, Launch(2), [Launch(0)] + ([Key(A_KEY)] + [Schedule(1)]));
    RunFirst(one, Key(ENTER), [Launch(2)] + ([Launch(0)] + ([Key(A_KEY)] + [Schedule(1)])));
    RunFirst(START, Launch(1), [Key(ENTER)] + ([Launch(2)] + ([Launch(0)] + ([Key(A_KEY)] + [Schedule(1)]))));
    assert [Schedule(1)] == [Schedule(1)] + [];
    assert ENTERED == [Launch(1)] + ([Key(ENTER)] + ([Launch(2)] + ([Launch(0)] + ([Key(A_KEY)] + [Schedule(1)]))));
  }

  /** Then the program of terminal 1 reads, and gets what has been typed at terminal 0, which is gone there. */
  lemma ForeignReadTakesLine()
    ensures START.Valid() && CanRun(START, ENTERED)
    ensures var s := Run(START, ENTERED);
            && s.cur == 0 && s.now == 1 && Enabled(s, Read) && !s.views[0].entered
            && BeforeNul(s.views[0].keys) == "a" && Blank(Step(s, Read).views[0])
            && s.views[1].keys[0] == '\n' && Step(s, Read).views[1].keys == s.views[1].keys
  {
    var s := EnteredRun();
    assert s.views[0].keys[..1] == "a" && s.views[0].keys[1] == NUL;
    BeforeNulIs(s.views[0].keys, 1);
  }

  /** Three launches, and the processor goes to terminal 1; nothing has been typed anywhere. */
  const IDLE: seq<Op> := [Launch(1), Launch(2), Launch(0), Schedule(1)]

  lemma IdleRun() returns (s: State)
    ensures START.Valid() && CanRun(START, IDLE) && s == Run(START, IDLE)
    ensures s.Valid() && s.cur == 0 && s.now == 1 && s.views[0] == FRESH
  {
    var up := START.(cur := 0, now := 0);
    s := Step(up, Schedule(1));
    RunFirst(up, Schedule(1), []);
    RunFirst(START.(cur := 2, now := 2), Launch(0), [Schedule(1)]);
    RunFirst(START.(cur := 1, now := 1), Launch(2), [Launch(0)] + [Schedule(1)]);
    RunFirst(START, Launch(1), [Launch(2)] + ([Launch(0)] + [Schedule(1)]));
    assert [Schedule(1)] == [Schedule(1)] + [];
    assert IDLE == [Launch(1)] + ([Launch(2)] + ([Launch(0)] + [Schedule(1)]));
  }

  /** Then the shell of terminal 1 exits, and its message is on the screen of terminal 0. */
  lemma ForeignMessageShows()
    ensures START.Valid() && CanRun(START, IDLE)
    ensures var s := Run(START, IDLE);
            && s.cur == 0 && s.now == 1 && Blank(s.views[0])
            && CanRun(s, HaltOps(true, false)) && !AllAtHome(s, HaltOps(true, false))
            && ShowsEndOf(Run(s, HaltOps(true, false)).views[0].pane, LAST_SHELL)
  {
    var s := IdleRun();
    HaltAtHomeIff(s, true, false);
    WindowTheorem(LAST_SHELL);
  }
}
