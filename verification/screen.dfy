/**
 The text screen as two value machines.

 A `Pane` is what the kernel keeps: 25 rows of 80 characters and a cursor, changed by the window
 arithmetic of lib.c (write, wrap, scroll, back up).  A `Tape` is what it stands for: an unbounded
 roll of 80-column rows on which nothing ever moves; `top` is the first row still on the screen.
 `Window` cuts the pane out of the tape, and every pane operation is shown to be the tape operation
 seen through that window.
 */
module Screen {
  import opened Text

  const BREAKS: set<byte> := {NEWLINE, RETURN}

  // ---- The pane: lib.c's own arithmetic ----

  datatype Pane = Pane(chars: seq<byte>, x: nat, y: nat) {
    ghost predicate Valid() {
      |chars| == 2000 && x < 80 && y < 25
    }
  }

  /** Every row moves up by one and the bottom row becomes blank. */
  function Scrolled(chars: seq<byte>): (r: seq<byte>)
    requires |chars| == 2000
    ensures |r| == 2000
  {
    chars[80..] + Repeat(SPACE, 80)
  }

  /** The cursor moves to (nx, ny); a column past the edge starts a new line, a row past it scrolls. */
  function SetCursor(p: Pane, nx: nat, ny: nat): (r: Pane)
    requires |p.chars| == 2000
    requires p.y < 25
    ensures r.Valid()
    decreases nx
  {
    if nx >= 80 then SetCursor(p, 0, p.y + 1)
    else if ny < 25 then Pane(p.chars, nx, ny)
    else Pane(Scrolled(p.chars), nx, 24)
  }

  function PaneEnter(p: Pane): (r: Pane)
    requires p.Valid()
    ensures r.Valid()
  {
    SetCursor(p, 0, p.y + 1)
  }

  function PanePut(p: Pane, c: byte): (r: Pane)
    requires p.Valid()
    ensures r.Valid()
  {
    if c == NEWLINE || c == RETURN then PaneEnter(p)
    else SetCursor(Pane(p.chars[80 * p.y + p.x := c], p.x + 1, p.y), p.x + 1, p.y)
  }

  function PaneBack(p: Pane): (r: Pane)
    requires p.Valid()
    ensures r.Valid()
  {
    if p.x == 0 && p.y == 0 then p
    else
      var q := if p.x != 0 then SetCursor(p, p.x - 1, p.y) else SetCursor(p, 79, p.y - 1);
      Pane(q.chars[80 * q.y + q.x := SPACE], q.x, q.y)
  }

  const CLEAR: Pane := Pane(Repeat(SPACE, 2000), 0, 0)

  function PanePuts(p: Pane, s: seq<byte>): (r: Pane)
    requires p.Valid()
    ensures r.Valid()
  {
    if s == [] then p else PanePut(PanePuts(p, s[..|s| - 1]), s[|s| - 1])
  }

  /** `n` backspaces. */
  function PaneBacks(p: Pane, n: nat): (r: Pane)
    requires p.Valid()
    ensures r.Valid()
  {
    if n == 0 then p else PaneBack(PaneBacks(p, n - 1))
  }

  lemma {:induction false} PutsAppend(p: Pane, a: seq<byte>, b: seq<byte>)
    requires p.Valid()
    ensures PanePuts(p, a + b) == PanePuts(PanePuts(p, a), b)
    decreases |b|
  {
    if b == [] {
      assert a + b == a;
    } else {
      PutsAppend(p, a, b[..|b| - 1]);
      assert (a + b)[..|a + b| - 1] == a + b[..|b| - 1];
    }
  }

  // ---- The tape: rows never move ----

  datatype Tape = Tape(cells: seq<byte>, pos: nat, top: nat) {
    ghost predicate Valid() {
      |cells| == 80 * (top + 25) && 80 * top <= pos < |cells|
    }
  }

  const BLANK: Tape := Tape(Repeat(SPACE, 2000), 0, 0)

  /** When the cursor has run off the last row, one blank row is added and the top row leaves the screen. */
  function Feed(cells: seq<byte>, pos: nat, top: nat): Tape {
    if pos < |cells| then Tape(cells, pos, top) else Tape(cells + Repeat(SPACE, 80), pos, top + 1)
  }

  function TapePut(t: Tape, c: byte): (r: Tape)
    requires t.Valid()
    ensures r.Valid()
  {
    if c in BREAKS then Feed(t.cells, (t.pos / 80 + 1) * 80, t.top)
    else Feed(t.cells[t.pos := c], t.pos + 1, t.top)
  }

  /** The cursor steps back and blanks the cell it lands on; a cell that has left the screen is out of reach. */
  function TapeBack(t: Tape): (r: Tape)
    requires t.Valid()
    ensures r.Valid()
  {
    if t.pos == 80 * t.top then t else Tape(t.cells[t.pos - 1 := SPACE], t.pos - 1, t.top)
  }

  function TapePuts(t: Tape, s: seq<byte>): (r: Tape)
    requires t.Valid()
    ensures r.Valid()
  {
    if s == [] then t else TapePut(TapePuts(t, s[..|s| - 1]), s[|s| - 1])
  }

  function TapeBacks(t: Tape, n: nat): (r: Tape)
    requires t.Valid()
    ensures r.Valid()
  {
    if n == 0 then t else TapeBack(TapeBacks(t, n - 1))
  }

  // ---- The pane is a window on the tape ----

  function Window(t: Tape): (p: Pane)
    requires t.Valid()
    ensures p.Valid()
  {
    var at := t.pos - 80 * t.top;
    Pane(t.cells[80 * t.top..], at % 80, at / 80)
  }

  /** Dropping one row more than `top` rows drops the row that scrolls away. */
  lemma FeedIsScroll(cells: seq<byte>, top: nat)
    requires |cells| == 80 * (top + 25)
    ensures (cells + Repeat(SPACE, 80))[80 * (top + 1)..] == Scrolled(cells[80 * top..])
  {
  }

  lemma BreakThroughWindow(t: Tape)
    requires t.Valid()
    ensures Window(Feed(t.cells, (t.pos / 80 + 1) * 80, t.top)) == PaneEnter(Window(t))
  {
    FeedIsScroll(t.cells, t.top);
  }

  lemma CellThroughWindow(t: Tape, c: byte)
    requires t.Valid()
    ensures var p := Window(t);
            t.cells[t.pos := c][80 * t.top..] == p.chars[80 * p.y + p.x := c]
  {
    var p := Window(t);
    assert 80 * p.y + p.x == t.pos - 80 * t.top;
  }

  /** Writing a byte through the window is writing it on the tape. */
  lemma PutThroughWindow(t: Tape, c: byte)
    requires t.Valid()
    ensures Window(TapePut(t, c)) == PanePut(Window(t), c)
  {
    if c in BREAKS {
      BreakThroughWindow(t);
    } else {
      FeedIsScroll(t.cells[t.pos := c], t.top);
      CellThroughWindow(t, c);
    }
  }

  /** Backing up through the window is backing up on the tape. */
  lemma BackThroughWindow(t: Tape)
    requires t.Valid()
    ensures Window(TapeBack(t)) == PaneBack(Window(t))
  {
    var p := Window(t);
    var at := 80 * p.y + p.x;
    assert at == t.pos - 80 * t.top;
    if at > 0 {
      assert t.cells[t.pos - 1 := SPACE][80 * t.top..] == p.chars[at - 1 := SPACE];
    }
  }

  lemma {:induction false} PutsThroughWindow(t: Tape, s: seq<byte>)
    requires t.Valid()
    ensures Window(TapePuts(t, s)) == PanePuts(Window(t), s)
  {
    if s != [] {
      PutsThroughWindow(t, s[..|s| - 1]);
      PutThroughWindow(TapePuts(t, s[..|s| - 1]), s[|s| - 1]);
    }
  }

  lemma {:induction false} BacksThroughWindow(t: Tape, n: nat)
    requires t.Valid()
    ensures Window(TapeBacks(t, n)) == PaneBacks(Window(t), n)
  {
    if n > 0 {
      BacksThroughWindow(t, n - 1);
      BackThroughWindow(TapeBacks(t, n - 1));
    }
  }

  /** Every pane is the window of a tape whose first row is the pane's first row. */
  lemma PaneIsWindow(p: Pane) returns (t: Tape)
    requires p.Valid()
    ensures t.Valid() && t.top == 0 && t.cells == p.chars && t.pos == 80 * p.y + p.x
    ensures Window(t) == p
  {
    t := Tape(p.chars, 80 * p.y + p.x, 0);
  }

  // ---- The layout of a text, independent of any screen ----

  /** A finished line fills whole rows; one that ends at the edge has already wrapped, so it owns one more. */
  function Padded(line: seq<byte>): (r: seq<byte>)
    ensures |r| % 80 == 0
  {
    line + Repeat(SPACE, 80 - |line| % 80)
  }

  function Stacked(lines: seq<seq<byte>>): (r: seq<byte>)
    ensures |r| % 80 == 0
  {
    if lines == [] then [] else Stacked(lines[..|lines| - 1]) + Padded(lines[|lines| - 1])
  }

  /** Finished lines padded, the last one as it is. */
  function LayoutOf(lines: seq<seq<byte>>): seq<byte>
    requires |lines| >= 1
  {
    Stacked(lines[..|lines| - 1]) + lines[|lines| - 1]
  }

  /** The 80-column layout of a text, up to its cursor. */
  function Layout(text: seq<byte>): seq<byte> {
    LayoutOf(Split(text, BREAKS))
  }

  /** The first of the last 25 rows of a layout of `n` cells, the cursor's row being the last. */
  function FirstRow(n: nat): nat {
    if n / 80 < 25 then 0 else n / 80 - 24
  }

  /** Finishing the last line fills its row up with blanks. */
  lemma LayoutBreak(lines: seq<seq<byte>>)
    requires |lines| >= 1
    ensures LayoutOf(lines + [[]]) == LayoutOf(lines) + Repeat(SPACE, 80 - |LayoutOf(lines)| % 80)
  {
    assert (lines + [[]])[..|lines|] == lines;
    var done, last := Stacked(lines[..|lines| - 1]), lines[|lines| - 1];
    assert |LayoutOf(lines)| % 80 == |last| % 80;
    assert Stacked(lines) == done + Padded(last);
  }

  lemma LayoutExtend(lines: seq<seq<byte>>, c: byte)
    requires |lines| >= 1
    ensures LayoutOf(OnLast(lines, c)) == LayoutOf(lines) + [c]
  {
    assert OnLast(lines, c)[..|lines| - 1] == lines[..|lines| - 1];
  }

  lemma LayoutAppend(text: seq<byte>, c: byte)
    ensures Layout(text + [c]) ==
            Layout(text) + if c in BREAKS then Repeat(SPACE, 80 - |Layout(text)| % 80) else [c]
  {
    SplitAppend(text, c, BREAKS);
    if c in BREAKS {
      LayoutBreak(Split(text, BREAKS));
    } else {
      LayoutExtend(Split(text, BREAKS), c);
    }
  }

  /** From a clear tape, the rows written are exactly the layout, and the rest is blank. */
  lemma {:induction false} TapeIsLayout(text: seq<byte>)
    ensures var t := TapePuts(BLANK, text);
            && t.pos == |Layout(text)|
            && t.top == FirstRow(t.pos)
            && t.cells == Layout(text) + Repeat(SPACE, 80 * (t.top + 25) - t.pos)
  {
    if text == [] {
      assert Split(text, BREAKS) == [[]];
      assert Layout(text) == [];
    } else {
      var front, c := text[..|text| - 1], text[|text| - 1];
      assert text == front + [c];
      TapeIsLayout(front);
      LayoutAppend(front, c);
      TapeIsLayoutStep(TapePuts(BLANK, front), Layout(front), c, Layout(text));
    }
  }

  lemma TapeIsLayoutStep(t: Tape, laid: seq<byte>, c: byte, more: seq<byte>)
    requires t.Valid() && t.pos == |laid| && t.top == FirstRow(t.pos)
    requires t.cells == laid + Repeat(SPACE, 80 * (t.top + 25) - t.pos)
    requires more == laid + if c in BREAKS then Repeat(SPACE, 80 - |laid| % 80) else [c]
    ensures var r := TapePut(t, c);
            r.pos == |more| && r.top == FirstRow(r.pos) &&
            r.cells == more + Repeat(SPACE, 80 * (r.top + 25) - r.pos)
  {
    if c in BREAKS {
      assert (t.pos / 80 + 1) * 80 == t.pos + (80 - t.pos % 80);
    }
  }

  /**
   The pane shows the last 25 rows of the layout of `text`, blank where the layout has none yet, and
   its cursor is where the layout ends.
   */
  ghost predicate ShowsEndOf(p: Pane, text: seq<byte>)
    requires p.Valid()
  {
    var laid := Layout(text);
    var first := FirstRow(|laid|);
    && 80 * (first + p.y) + p.x == |laid|
    && forall k :: 0 <= k < 2000 ==>
         p.chars[k] == if 80 * first + k < |laid| then laid[80 * first + k] else SPACE
  }

  /** From a clear screen, after any sequence of bytes, the screen is the end of their layout. */
  lemma {:induction false} WindowTheorem(text: seq<byte>)
    ensures ShowsEndOf(PanePuts(CLEAR, text), text)
  {
    TapeIsLayout(text);
    PutsThroughWindow(BLANK, text);
    assert BLANK.cells[0..] == BLANK.cells;
    assert Window(BLANK) == CLEAR;
  }

  // ---- Typing and erasing ----

  /** What a cell holds; past the last row the paper is blank. */
  function CellAt(cells: seq<byte>, i: nat): byte {
    if i < |cells| then cells[i] else SPACE
  }

  /** `r` is `t` with the bytes `s` in the cells from `at` on, and only blank rows added. */
  ghost predicate Wrote(t: Tape, at: nat, s: seq<byte>, r: Tape) {
    && |r.cells| >= |t.cells| && at + |s| <= |r.cells|
    && forall i :: 0 <= i < |r.cells| ==>
         r.cells[i] == if at <= i < at + |s| then s[i - at] else CellAt(t.cells, i)
  }

  /** Typing `s` puts its bytes in the next cells of the tape, which grows only by blank rows. */
  lemma {:induction false} PutsPlain(t: Tape, s: seq<byte>)
    requires t.Valid()
    requires forall i :: 0 <= i < |s| ==> s[i] !in BREAKS
    ensures var r := TapePuts(t, s);
            && r.pos == t.pos + |s| && r.top >= t.top
            && (r.top == t.top || r.pos / 80 == r.top + 24)
            && Wrote(t, t.pos, s, r)
  {
    if s != [] {
      var front, c := s[..|s| - 1], s[|s| - 1];
      PutsPlain(t, front);
      WroteMore(t, t.pos, front, TapePuts(t, front), c);
      assert front + [c] == s;
    }
  }

  lemma WroteMore(t: Tape, at: nat, s: seq<byte>, q: Tape, c: byte)
    requires q.Valid() && q.pos == at + |s| && Wrote(t, at, s, q) && c !in BREAKS
    ensures Wrote(t, at, s + [c], TapePut(q, c))
  {
  }

  /** Backspaces that stay on the screen blank exactly the cells they step over. */
  lemma {:induction false} BacksPlain(t: Tape, n: nat)
    requires t.Valid() && 80 * t.top + n <= t.pos
    ensures var r := TapeBacks(t, n);
            && r.pos == t.pos - n && r.top == t.top && |r.cells| == |t.cells|
            && forall i :: 0 <= i < |t.cells| ==>
                 r.cells[i] == if r.pos <= i < t.pos then SPACE else t.cells[i]
  {
    if n > 0 {
      BacksPlain(t, n - 1);
    }
  }

  /**
   Typing up to 24 rows of printable bytes and erasing them with as many backspaces brings the cursor
   back to where it was on the tape, through any wraps and scrolls, and blanks exactly the cells
   that were typed.
   */
  lemma {:induction false} TypeThenErase(t: Tape, s: seq<byte>)
    requires t.Valid() && |s| <= 1920
    requires forall i :: 0 <= i < |s| ==> s[i] !in BREAKS
    ensures var r := TapeBacks(TapePuts(t, s), |s|);
            r.pos == t.pos && r.top >= t.top && Wrote(t, t.pos, Repeat(SPACE, |s|), r)
  {
    PutsPlain(t, s);
    var q := TapePuts(t, s);
    assert 80 * q.top <= t.pos;
    BacksPlain(q, |s|);
  }
}
