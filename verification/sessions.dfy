/** A line typed at the keyboard, code by code, and read by the terminal's process, on the console itself. */
module Sessions {
  import opened Text
  import opened Keyboard
  import opened Terminals
  import opened TerminalLaws
  import KeyLaws
  import Console

  /** What a sequence of codes does at a keyboard, the codes that only move modifiers left out. */
  function Keyed(m: Modifiers, codes: seq<nat>): seq<Event>
    requires m.table < 4
    decreases |codes|
  {
    if codes == [] then []
    else
      var (n, a) := Decode(m, codes[0]);
      (if a.Ignored? then [] else [Do(a)]) + Keyed(n, codes[1..])
  }

  function KeyOps(codes: seq<nat>): (r: seq<Op>)
    ensures |r| == |codes|
  {
    seq(|codes|, i requires 0 <= i < |codes| => Key(codes[i]))
  }

  /** No display switch among them. */
  ghost predicate Stays(es: seq<Event>) {
    forall i :: 0 <= i < |es| ==> !(es[i].Do? && es[i].a.SwitchTo?)
  }

  /** At the displayed terminal, and only there, these codes do just that. */
  lemma {:induction false} KeyedIsRun(s: State, codes: seq<nat>)
    requires s.Valid() && s.cur < 3 && Stays(Keyed(s.mods, codes))
    ensures CanRun(s, KeyOps(codes))
    ensures EventsOf(s, KeyOps(codes), s.cur) == Keyed(s.mods, codes)
    ensures Run(s, KeyOps(codes)).cur == s.cur && Run(s, KeyOps(codes)).now == s.now
    decreases |codes|
  {
    if codes != [] {
      var (n, a) := Decode(s.mods, codes[0]);
      assert !a.Ignored? ==> Keyed(s.mods, codes)[0] == Do(a);
      assert forall i :: 0 <= i < |Keyed(n, codes[1..])| ==>
        Keyed(n, codes[1..])[i] == Keyed(s.mods, codes)[if a.Ignored? then i else i + 1];
      KeyedIsRun(Step(s, Key(codes[0])), codes[1..]);
      assert KeyOps(codes)[1..] == KeyOps(codes[1..]);
    }
  }

  /** The codes from the i-th on lead from `s` to `end`. */
  ghost predicate Ahead(s: State, codes: seq<nat>, i: nat, end: State) {
    i <= |codes| && s.Valid() && CanRun(s, KeyOps(codes[i..])) && Run(s, KeyOps(codes[i..])) == end
  }

  lemma OneLess(s: State, codes: seq<nat>, i: nat, end: State)
    requires Ahead(s, codes, i, end) && i < |codes|
    ensures Enabled(s, Key(codes[i])) && Ahead(Step(s, Key(codes[i])), codes, i + 1, end)
  {
    assert KeyOps(codes[i..])[0] == Key(codes[i]) && KeyOps(codes[i..])[1..] == KeyOps(codes[i + 1..]);
  }

  /** Any codes, by the interrupt handler. */
  method TypeCodes(console: Console.Console, codes: seq<nat>)
    requires console.Valid() && console.curTermId < 3 && CanRun(console.Abs(), KeyOps(codes))
    modifies console, console.vram, console.backing
    ensures console.Valid() && console.Abs() == Run(old(console.Abs()), KeyOps(codes))
  {
    ghost var end := Run(console.Abs(), KeyOps(codes));
    assert codes[0..] == codes;
    var i := 0;
    while i < |codes|
      invariant 0 <= i <= |codes| && console.Valid() && console.curTermId < 3
      invariant Ahead(console.Abs(), codes, i, end)
    {
      OneLess(console.Abs(), codes, i, end);
      var ctrlC := console.KeyboardInterrupt(codes[i]);
      i := i + 1;
    }
    assert KeyOps(codes[i..]) == [];
  }

  lemma KeystrokesOfTyping(line: seq<byte>)
    ensures Keystrokes(Typing(line) + [Do(NewLine)]) == Typing(line) + [Do(NewLine)]
    decreases |line|
  {
    var es := Typing(line) + [Do(NewLine)];
    if line == [] {
      assert es[1..] == [];
    } else {
      KeystrokesOfTyping(line[1..]);
      assert es[1..] == Typing(line[1..]) + [Do(NewLine)];
    }
  }

  /**
   A user types a line of at most 127 characters at the displayed terminal, whose process runs, and then
   Enter: the wait of term_read is over, and it hands over exactly that line and a newline, cut off at the
   length asked for.  Then the buffer is empty again and no Enter waits.
   */
  method TypeAndRead(console: Console.Console, codes: seq<nat>, ghost line: seq<byte>, length: nat) returns (got: seq<byte>)
    requires console.Valid() && console.curTermId == console.nowTermId < 3
    requires Holds(console.Abs().views[console.curTermId], [])
    requires |line| <= 127 && NUL !in line && Keyed(console.mods, codes) == Typing(line) + [Do(NewLine)]
    modifies console, console.vram, console.backing
    ensures got == if length < |line| + 1 then (line + [NEWLINE])[..length] else line + [NEWLINE]
    ensures console.Valid() && console.curTermId == console.nowTermId == old(console.curTermId)
    ensures Holds(console.Abs().views[console.curTermId], []) && !console.Abs().views[console.curTermId].entered
  {
    ghost var s := console.Abs();
    KeyedIsRun(s, codes);
    KeystrokesOfTyping(line);
    TypedLineIsRead(s, KeyOps(codes), s.cur, line);
    TypeCodes(console, codes);
    assert console.Abs().views[s.cur].keys == console.keyBuf;
    got := console.TermRead(length);
  }

  /** Every line of characters that keys give without modifiers can be typed: the codes of its keys, and Enter's. */
  lemma {:induction false} KeysTypeLine(codes: seq<nat>, line: seq<byte>)
    requires |codes| == |line| && forall i :: 0 <= i < |line| ==> codes[i] < 58 && KeyMap(0)[codes[i]] == line[i] != NUL
    ensures Keyed(Modifiers(0, false, false), codes + [ENTER]) == Typing(line) + [Do(NewLine)]
    decreases |codes|
  {
    var all := codes + [ENTER];
    if codes == [] {
      assert all[1..] == [];
    } else {
      KeysTypeLine(codes[1..], line[1..]);
      PlainKey(codes[0]);
      assert all[1..] == codes[1..] + [ENTER];
      assert Typing(line) + [Do(NewLine)] == [Do(Typed(line[0]))] + (Typing(line[1..]) + [Do(NewLine)]);
    }
  }

  lemma PlainKey(code: nat)
    requires code < 58 && KeyMap(0)[code] != NUL
    ensures Decode(Modifiers(0, false, false), code) == (Modifiers(0, false, false), Typed(KeyMap(0)[code]))
  {
    KeyLaws.MapPlaced(0);
    KeyLaws.ActionLaw(Modifiers(0, false, false), code);
  }
}
