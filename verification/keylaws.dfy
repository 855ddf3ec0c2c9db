/** What the keyboard means: the layout of the keys, the modifiers, and what each scancode does. */
module KeyLaws {
  import opened Text
  import opened Keyboard
  import opened Terminals

  // ---- The keys as they lie ----

  /** The rows of keys, and what is between them: Backspace and Tab, Enter and Ctrl, Shift, Shift, Alt, Caps Lock. */
  function Laid(digits: seq<byte>, upper: seq<byte>, home: seq<byte>, lower: seq<byte>): (r: seq<byte>)
    ensures |r| == |digits| + |upper| + |home| + |lower| + 12
  {
    "\0\0" + digits + "\0\0" + upper + "\0\0" + home + "\0" + lower + "\0*\0 \0"
  }

  lemma PlainRows()
    ensures PlainMap() == Laid("1234567890-=", "qwertyuiop[]", "asdfghjkl;'`", "\\zxcvbnm,./")
  {
  }

  lemma ShiftRows()
    ensures ShiftMap() == Laid("!@#$%^&*()_+", "QWERTYUIOP{}", "ASDFGHJKL:\"~", "|ZXCVBNM<>?")
  {
  }

  lemma CapsRows()
    ensures CapsMap() == Laid("1234567890-=", "QWERTYUIOP[]", "ASDFGHJKL;'`", "\\ZXCVBNM,./")
  {
  }

  lemma ShiftCapsRows()
    ensures ShiftCapsMap() == Laid("!@#$%^&*()_+", "qwertyuiop{}", "asdfghjkl:\"~", "\\zxcvbnm<>?")
  {
  }

  /** The four maps, row by row: shift gives the other characters, caps lock the other letters. */
  lemma MapsAreRows()
    ensures KeyMap(0) == Laid("1234567890-=", "qwertyuiop[]", "asdfghjkl;'`", "\\zxcvbnm,./")
    ensures KeyMap(1) == Laid("!@#$%^&*()_+", "QWERTYUIOP{}", "ASDFGHJKL:\"~", "|ZXCVBNM<>?")
    ensures KeyMap(2) == Laid("1234567890-=", "QWERTYUIOP[]", "ASDFGHJKL;'`", "\\ZXCVBNM,./")
    ensures KeyMap(3) == Laid("!@#$%^&*()_+", "qwertyuiop{}", "asdfghjkl:\"~", "\\zxcvbnm<>?")
  {
    PlainRows();
    ShiftRows();
    CapsRows();
    ShiftCapsRows();
  }

  /** A letter in the other case; any other byte as it is. */
  function OtherCase(c: byte): byte {
    if 'a' <= c <= 'z' then (c as int - 32) as char
    else if 'A' <= c <= 'Z' then (c as int + 32) as char
    else c
  }

  /** Of two rows of equal length the second has the letters of the first in the other case, but perhaps at `but`. */
  ghost predicate CaseSwapped(a: seq<byte>, b: seq<byte>, but: int) {
    |a| == |b| && forall i :: 0 <= i < |a| && i != but ==> b[i] == OtherCase(a[i])
  }

  lemma PlainRowsSwapped()
    ensures CaseSwapped("1234567890-=", "1234567890-=", -1) && CaseSwapped("qwertyuiop[]", "QWERTYUIOP[]", -1)
    ensures CaseSwapped("asdfghjkl;'`", "ASDFGHJKL;'`", -1) && CaseSwapped("\\zxcvbnm,./", "\\ZXCVBNM,./", -1)
  {
  }

  lemma ShiftRowsSwapped()
    ensures CaseSwapped("!@#$%^&*()_+", "!@#$%^&*()_+", -1) && CaseSwapped("QWERTYUIOP{}", "qwertyuiop{}", -1)
    ensures CaseSwapped("ASDFGHJKL:\"~", "asdfghjkl:\"~", -1) && CaseSwapped("|ZXCVBNM<>?", "\\zxcvbnm<>?", 0)
  {
  }

  lemma LaidSwapped(d: seq<byte>, u: seq<byte>, h: seq<byte>, l: seq<byte>,
                    e: seq<byte>, v: seq<byte>, i: seq<byte>, m: seq<byte>, but: int)
    requires |d| == |u| == |h| == 12 && |l| == 11
    requires CaseSwapped(d, e, -1) && CaseSwapped(u, v, -1) && CaseSwapped(h, i, -1) && CaseSwapped(l, m, but)
    ensures CaseSwapped(Laid(d, u, h, l), Laid(e, v, i, m), if but == -1 then -1 else 0x2B + but)
  {
  }

  /**
   Caps lock changes the case of letters and nothing else, whatever shift does, if and only if the key is
   not the backslash key with shift: there caps lock takes the bar away.
   */
  lemma CapsLockIff(shift: bool, code: nat)
    requires code < 59
    ensures KeyMap(if shift then 3 else 2)[code] == OtherCase(KeyMap(if shift then 1 else 0)[code])
       <==> !(shift && code == 0x2B)
  {
    MapsAreRows();
    PlainRowsSwapped();
    ShiftRowsSwapped();
    LaidSwapped("1234567890-=", "qwertyuiop[]", "asdfghjkl;'`", "\\zxcvbnm,./",
                "1234567890-=", "QWERTYUIOP[]", "ASDFGHJKL;'`", "\\ZXCVBNM,./", -1);
    LaidSwapped("!@#$%^&*()_+", "QWERTYUIOP{}", "ASDFGHJKL:\"~", "|ZXCVBNM<>?",
                "!@#$%^&*()_+", "qwertyuiop{}", "asdfghjkl:\"~", "\\zxcvbnm<>?", 0);
    assert KeyMap(1)[0x2B] == '|' && KeyMap(3)[0x2B] == '\\';
  }

  /** The keys of each row, by their codes; every other code gives nothing. */
  lemma KeysOfRows(d: seq<byte>, u: seq<byte>, h: seq<byte>, l: seq<byte>, code: nat)
    requires |d| == |u| == |h| == 12 && |l| == 11 && code < 59
    ensures Laid(d, u, h, l)[code] ==
            if 0x02 <= code <= 0x0D then d[code - 0x02]
            else if 0x10 <= code <= 0x1B then u[code - 0x10]
            else if 0x1E <= code <= 0x29 then h[code - 0x1E]
            else if 0x2B <= code <= 0x35 then l[code - 0x2B]
            else if code == 0x37 then '*' else if code == 0x39 then SPACE else NUL
  {
  }

  // ---- What a code does ----

  /** Where the letters are that Ctrl looks for, and the keys of the handler's own, which give nothing. */
  ghost predicate Placed(keys: seq<byte>) {
    && |keys| == 59
    && (forall i :: 0 <= i < 59 ==> (keys[i] == 'l' || keys[i] == 'L' <==> i == 0x26))
    && (forall i :: 0 <= i < 59 ==> (keys[i] == 'c' || keys[i] == 'C' <==> i == 0x2E))
    && forall i :: i in {0x0E, 0x1C, 0x1D, 0x2A, 0x36, 0x38, 0x3A} ==> keys[i] == NUL
  }

  lemma RowsPlaced(d: seq<byte>, u: seq<byte>, h: seq<byte>, l: seq<byte>)
    requires |d| == |u| == |h| == 12 && |l| == 11
    requires forall i :: 0 <= i < 12 ==> d[i] !in {'l', 'L', 'c', 'C'} && u[i] !in {'l', 'L', 'c', 'C'}
    requires forall i :: 0 <= i < 12 ==> h[i] != 'c' && h[i] != 'C' && (h[i] == 'l' || h[i] == 'L' <==> i == 8)
    requires forall i :: 0 <= i < 11 ==> l[i] != 'l' && l[i] != 'L' && (l[i] == 'c' || l[i] == 'C' <==> i == 3)
    ensures Placed(Laid(d, u, h, l))
  {
    forall i | 0 <= i < 59
      ensures var c := Laid(d, u, h, l)[i]; (c == 'l' || c == 'L' <==> i == 0x26) && (c == 'c' || c == 'C' <==> i == 0x2E)
    {
      KeysOfRows(d, u, h, l, i);
    }
  }

  lemma PlainPlaced()
    ensures Placed(PlainMap())
  {
    PlainRows();
    RowsPlaced("1234567890-=", "qwertyuiop[]", "asdfghjkl;'`", "\\zxcvbnm,./");
  }

  lemma ShiftPlaced()
    ensures Placed(ShiftMap())
  {
    ShiftRows();
    RowsPlaced("!@#$%^&*()_+", "QWERTYUIOP{}", "ASDFGHJKL:\"~", "|ZXCVBNM<>?");
  }

  lemma CapsPlaced()
    ensures Placed(CapsMap())
  {
    CapsRows();
    RowsPlaced("1234567890-=", "QWERTYUIOP[]", "ASDFGHJKL;'`", "\\ZXCVBNM,./");
  }

  lemma ShiftCapsPlaced()
    ensures Placed(ShiftCapsMap())
  {
    ShiftCapsRows();
    RowsPlaced("!@#$%^&*()_+", "qwertyuiop{}", "asdfghjkl:\"~", "\\zxcvbnm<>?");
  }

  lemma MapPlaced(table: bv8)
    ensures Placed(KeyMap(table))
  {
    PlainPlaced();
    ShiftPlaced();
    CapsPlaced();
    ShiftCapsPlaced();
  }

  /** What each scancode asks for, given the modifiers; a key's release asks for nothing. */
  lemma ActionLaw(m: Modifiers, code: nat)
    requires m.table < 4
    ensures var a := Decode(m, code).1;
            && (a.NewLine? <==> code == 0x1C) && (a.Erase? <==> code == 0x0E)
            && (a.SwitchTo? <==> m.alt && 0x3B <= code <= 0x3D) && (a.SwitchTo? ==> a.t == code - 0x3B)
            && (a.ClearScreen? <==> m.ctrl && !m.alt && code == 0x26)
            && (a.Interrupt? <==> m.ctrl && !m.alt && code == 0x2E)
            && (a.Typed? <==> !m.ctrl && !m.alt && code < 59 && KeyMap(m.table)[code] != NUL)
            && (a.Typed? ==> a.c == KeyMap(m.table)[code])
            && (code >= 0x80 ==> a.Ignored?)
  {
    MapPlaced(m.table);
  }

  // ---- The modifiers ----

  function ModsAfter(m: Modifiers, codes: seq<nat>): (r: Modifiers)
    requires m.table < 4
    ensures r.table < 4
  {
    if codes == [] then m else Decode(ModsAfter(m, codes[..|codes| - 1]), codes[|codes| - 1]).0
  }

  /** Whether a key is down: the last code that speaks of it is one of its presses, or none does and it was. */
  function Down(was: bool, codes: seq<nat>, presses: set<nat>, releases: set<nat>): bool {
    if codes == [] then was
    else
      var last := codes[|codes| - 1];
      if last in presses then true else if last in releases then false
      else Down(was, codes[..|codes| - 1], presses, releases)
  }

  function Presses(codes: seq<nat>, code: nat): nat {
    if codes == [] then 0
    else Presses(codes[..|codes| - 1], code) + if codes[|codes| - 1] == code then 1 else 0
  }

  /** The map in use: 1 for shift and 2 for caps lock. */
  function TableOf(shift: bool, caps: bool): bv8 {
    if shift && caps then 3 else if caps then 2 else if shift then 1 else 0
  }

  lemma TableBits(shift: bool, caps: bool)
    ensures TableOf(shift, caps) ^ 0x02 == TableOf(shift, !caps)
    ensures TableOf(shift, caps) | 0x01 == TableOf(true, caps)
    ensures TableOf(shift, caps) & 0xFE == TableOf(false, caps)
  {
  }

  /** What one code does to the modifiers. */
  lemma OneCode(shift: bool, caps: bool, ctrl: bool, alt: bool, code: nat)
    ensures Decode(Modifiers(TableOf(shift, caps), ctrl, alt), code).0 ==
            Modifiers(TableOf(code in {0x2A, 0x36} || (shift && code !in {0xAA, 0xB6}), caps != (code == 0x3A)),
                      code == 0x1D || (ctrl && code != 0x9D), code == 0x38 || (alt && code != 0xB8))
  {
    TableBits(shift, caps);
  }

  /**
   The modifiers after any codes: shift, Ctrl and Alt are down as their last press or release says, the two
   shift keys being one; caps lock is on after an odd number of presses.
   */
  lemma {:induction false} ModifierLaw(shift: bool, caps: bool, ctrl: bool, alt: bool, codes: seq<nat>)
    ensures ModsAfter(Modifiers(TableOf(shift, caps), ctrl, alt), codes) ==
            Modifiers(TableOf(Down(shift, codes, {0x2A, 0x36}, {0xAA, 0xB6}), caps != (Presses(codes, 0x3A) % 2 == 1)),
                      Down(ctrl, codes, {0x1D}, {0x9D}), Down(alt, codes, {0x38}, {0xB8}))
  {
    if codes != [] {
      var front, last := codes[..|codes| - 1], codes[|codes| - 1];
      ModifierLaw(shift, caps, ctrl, alt, front);
      OneCode(Down(shift, front, {0x2A, 0x36}, {0xAA, 0xB6}), caps != (Presses(front, 0x3A) % 2 == 1),
              Down(ctrl, front, {0x1D}, {0x9D}), Down(alt, front, {0x38}, {0xB8}), last);
    }
  }

  /** The scancodes of a run. */
  function Codes(ops: seq<Op>): seq<nat> {
    if ops == [] then []
    else Codes(ops[..|ops| - 1]) + if ops[|ops| - 1].Key? then [ops[|ops| - 1].code] else []
  }

  /** Over runs of the console the modifiers are those of the codes, whichever terminals they were typed at. */
  lemma {:induction false} ModifiersOfRun(s: State, ops: seq<Op>)
    requires s.Valid() && CanRun(s, ops)
    ensures Run(s, ops).mods == ModsAfter(s.mods, Codes(ops))
    decreases |ops|
  {
    if ops != [] {
      var n := |ops| - 1;
      RunLast(s, ops);
      ModifiersOfRun(s, ops[..n]);
      if ops[n].Key? {
        var codes := Codes(ops[..n]) + [ops[n].code];
        assert codes[..|codes| - 1] == Codes(ops[..n]);
      } else {
        assert Codes(ops[..n]) + [] == Codes(ops[..n]);
      }
    }
  }

  /** A run is all its operations but the last, and then the last. */
  lemma {:induction false} RunLast(s: State, ops: seq<Op>)
    requires s.Valid() && CanRun(s, ops) && ops != []
    ensures var front, last := ops[..|ops| - 1], ops[|ops| - 1];
            CanRun(s, front) && Enabled(Run(s, front), last) && Run(s, ops) == Step(Run(s, front), last)
    decreases |ops|
  {
    if |ops| == 1 {
      assert ops[1..] == [] && ops[..0] == [];
    } else {
      RunLast(Step(s, ops[0]), ops[1..]);
      assert ops[1..][..|ops| - 2] == ops[..|ops| - 1][1..];
    }
  }
}
