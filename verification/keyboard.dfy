/** The scancode decoder of keyboard.c: modifier state and the four key maps. */
module Keyboard {
  import opened Text

  const CAPSLOCK_P: nat := 0x3A
  const LSHIFT_P: nat := 0x2A
  const LSHIFT_R: nat := 0xAA
  const RSHIFT_P: nat := 0x36
  const RSHIFT_R: nat := 0xB6
  const ALT_P: nat := 0x38
  const ALT_R: nat := 0xB8
  const CTRL_P: nat := 0x1D
  const CTRL_R: nat := 0x9D
  const BACKSPACE: nat := 0x0E
  const ENTER: nat := 0x1C
  const F1: nat := 0x3B
  const F2: nat := 0x3C
  const F3: nat := 0x3D

  // ---- The key maps: 59 keys each, NUL where a key has no character ----

  function PlainMap(): (r: seq<byte>)
    ensures |r| == 59 && NEWLINE !in r && RETURN !in r
  {
    "\0\01234567890-=\0\0qwertyuiop[]" + "\0\0asdfghjkl;'`\0\\zxcvbnm,./\0*\0 \0"
  }

  function ShiftMap(): (r: seq<byte>)
    ensures |r| == 59 && NEWLINE !in r && RETURN !in r
  {
    "\0\0!@#$%^&*()_+\0\0QWERTYUIOP{}" + "\0\0ASDFGHJKL:\"~\0|ZXCVBNM<>?\0*\0 \0"
  }

  function CapsMap(): (r: seq<byte>)
    ensures |r| == 59 && NEWLINE !in r && RETURN !in r
  {
    "\0\01234567890-=\0\0QWERTYUIOP[]" + "\0\0ASDFGHJKL;'`\0\\ZXCVBNM,./\0*\0 \0"
  }

  function ShiftCapsMap(): (r: seq<byte>)
    ensures |r| == 59 && NEWLINE !in r && RETURN !in r
  {
    "\0\0!@#$%^&*()_+\0\0qwertyuiop{}" + "\0\0asdfghjkl:\"~\0\\zxcvbnm<>?\0*\0 \0"
  }

  function KeyMap(table: bv8): (r: seq<byte>)
    ensures |r| == 59 && NEWLINE !in r && RETURN !in r
  {
    if table == 0 then PlainMap() else if table == 1 then ShiftMap()
    else if table == 2 then CapsMap() else ShiftCapsMap()
  }

  /** scancode_state (bit 0 shift, bit 1 caps lock), ctrl_state and alt_state. */
  datatype Modifiers = Modifiers(table: bv8, ctrl: bool, alt: bool)

  /** What a key press asks for, once the modifiers have been taken into account. */
  datatype Action =
    | Ignored
    | Typed(c: byte)
    | NewLine
    | Erase
    | ClearScreen
    | SwitchTo(t: nat)
    | Interrupt

  /** The next modifier state and the action of a scancode, case by case as the handler tests them. */
  function Decode(m: Modifiers, code: nat): (r: (Modifiers, Action))
    requires m.table < 4
    ensures r.0.table < 4
    ensures r.1.Typed? ==> r.1.c != NUL && r.1.c != NEWLINE && r.1.c != RETURN
    ensures r.1.SwitchTo? ==> r.1.t < 3
  {
    if code == CAPSLOCK_P then (m.(table := m.table ^ 0x02), Ignored)
    else if code == LSHIFT_P || code == RSHIFT_P then (m.(table := m.table | 0x01), Ignored)
    else if code == LSHIFT_R || code == RSHIFT_R then (m.(table := m.table & 0xFE), Ignored)
    else if code == CTRL_P then (m.(ctrl := true), Ignored)
    else if code == CTRL_R then (m.(ctrl := false), Ignored)
    else if code == ALT_P then (m.(alt := true), Ignored)
    else if code == ALT_R then (m.(alt := false), Ignored)
    else if code == ENTER then (m, NewLine)
    else if code == BACKSPACE then (m, Erase)
    else if code == F1 then (m, if m.alt then SwitchTo(0) else Ignored)
    else if code == F2 then (m, if m.alt then SwitchTo(1) else Ignored)
    else if code == F3 then (m, if m.alt then SwitchTo(2) else Ignored)
    else if code >= 59 then (m, Ignored)
    else (m, KeyAction(m, KeyMap(m.table)[code]))
  }

  function KeyAction(m: Modifiers, key: byte): Action {
    if key == NUL || m.alt then Ignored
    else if m.ctrl then
      if key == 'l' || key == 'L' then ClearScreen
      else if key == 'c' || key == 'C' then Interrupt
      else Ignored
    else Typed(key)
  }
}
