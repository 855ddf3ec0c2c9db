/** add_frames of the fish program: two frame files read in lockstep, one blink added per non-blank cell. */
module Fish {
  import opened Text
  import opened FileSystem

  /** One RTC_ADD: where, and the characters of the two frames. */
  datatype Add = Add(location: nat, onChar: byte, offChar: byte)

  // ---- What should be added ----

  function LineOf(lines: seq<seq<byte>>, row: nat): seq<byte> {
    if row < |lines| then lines[row] else []
  }

  /** The character of a frame in a column, its lines being padded with spaces. */
  function CharIn(line: seq<byte>, col: nat): byte {
    if col < |line| then line[col] else SPACE
  }

  /** The location field is 16 bits wide. */
  function Location(row: nat, col: nat): nat {
    (row * 80 + col + 40) % 0x1_0000
  }

  function CellAdds(l0: seq<byte>, l1: seq<byte>, row: nat, col: nat): seq<Add> {
    if CharIn(l0, col) == SPACE && CharIn(l1, col) == SPACE then []
    else [Add(Location(row, col), CharIn(l0, col), CharIn(l1, col))]
  }

  function RowAdds(l0: seq<byte>, l1: seq<byte>, row: nat, cols: nat): seq<Add> {
    if cols == 0 then [] else RowAdds(l0, l1, row, cols - 1) + CellAdds(l0, l1, row, cols - 1)
  }

  function Longer(a: nat, b: nat): nat {
    if a < b then b else a
  }

  function FrameAdds(ls0: seq<seq<byte>>, ls1: seq<seq<byte>>, rows: nat): seq<Add> {
    if rows == 0 then []
    else
      var l0, l1 := LineOf(ls0, rows - 1), LineOf(ls1, rows - 1);
      FrameAdds(ls0, ls1, rows - 1) + RowAdds(l0, l1, rows - 1, Longer(|l0|, |l1|))
  }

  /**
   Where a cell lands on the screen of 80 columns: in its row, 40 columns to the right of where the frame
   has it; and no two cells of the right half land on the same place.
   */
  lemma CellPlace(row: nat, col: nat)
    requires row < 819 && col < 40
    ensures Location(row, col) / 80 == row && Location(row, col) % 80 == col + 40
  {
  }

  /** What a frame shows in a cell: its character there, or nothing but a blank where it has no line or the line is too short. */
  ghost predicate ShowsThere(ls: seq<seq<byte>>, row: nat, col: nat, c: byte) {
    c == if row < |ls| && col < |ls[row]| then ls[row][col] else ' '
  }

  /** The add is for this cell, with the characters of the two frames, which are not both blank. */
  ghost predicate CellShown(ls0: seq<seq<byte>>, ls1: seq<seq<byte>>, row: nat, col: nat, a: Add) {
    && a.location == (80 * row + 40 + col) % 0x1_0000
    && ShowsThere(ls0, row, col, a.onChar) && ShowsThere(ls1, row, col, a.offChar)
    && !(a.onChar == a.offChar == ' ')
  }

  /** One cell is above another, or in the same row to the left of it. */
  predicate Ahead(a: (nat, nat), b: (nat, nat)) {
    a.0 < b.0 || (a.0 == b.0 && a.1 < b.1)
  }

  /** `cells` are, in reading order, the cells from which the adds come. */
  ghost predicate From(ls0: seq<seq<byte>>, ls1: seq<seq<byte>>, adds: seq<Add>, cells: seq<(nat, nat)>) {
    && |cells| == |adds|
    && (forall i :: 0 <= i < |adds| ==> CellShown(ls0, ls1, cells[i].0, cells[i].1, adds[i]))
    && forall i, j :: 0 <= i < j < |cells| ==> Ahead(cells[i], cells[j])
  }

  /** A cell that is not blank in both frames. */
  ghost predicate Visible(ls0: seq<seq<byte>>, ls1: seq<seq<byte>>, row: nat, col: nat) {
    !(ShowsThere(ls0, row, col, ' ') && ShowsThere(ls1, row, col, ' '))
  }

  lemma {:induction false} RowCells(ls0: seq<seq<byte>>, ls1: seq<seq<byte>>, row: nat, cols: nat) returns (cells: seq<(nat, nat)>)
    ensures From(ls0, ls1, RowAdds(LineOf(ls0, row), LineOf(ls1, row), row, cols), cells)
    ensures forall i :: 0 <= i < |cells| ==> cells[i].0 == row && cells[i].1 < cols
    ensures forall col :: 0 <= col < cols && Visible(ls0, ls1, row, col) ==> (row, col) in cells
  {
    cells := [];
    if cols > 0 {
      cells := RowCells(ls0, ls1, row, cols - 1);
      if Visible(ls0, ls1, row, cols - 1) {
        cells := cells + [(row, cols - 1)];
        assert cells[|cells| - 1] == (row, cols - 1);
      }
    }
  }

  lemma {:induction false} FrameCells(ls0: seq<seq<byte>>, ls1: seq<seq<byte>>, rows: nat) returns (cells: seq<(nat, nat)>)
    ensures From(ls0, ls1, FrameAdds(ls0, ls1, rows), cells)
    ensures forall i :: 0 <= i < |cells| ==> cells[i].0 < rows
    ensures forall row, col :: 0 <= row < rows && 0 <= col && Visible(ls0, ls1, row, col) ==> (row, col) in cells
  {
    cells := [];
    if rows > 0 {
      var above := FrameCells(ls0, ls1, rows - 1);
      var l0, l1 := LineOf(ls0, rows - 1), LineOf(ls1, rows - 1);
      var last := RowCells(ls0, ls1, rows - 1, Longer(|l0|, |l1|));
      OneAfterOther(ls0, ls1, FrameAdds(ls0, ls1, rows - 1), RowAdds(l0, l1, rows - 1, Longer(|l0|, |l1|)), above, last);
      cells := above + last;
      forall row, col | 0 <= row < rows && 0 <= col && Visible(ls0, ls1, row, col) ensures (row, col) in cells {
        assert row < rows - 1 ==> (row, col) in above;
        assert row == rows - 1 ==> (row, col) in last;
      }
    }
  }

  lemma OneAfterOther(ls0: seq<seq<byte>>, ls1: seq<seq<byte>>, adds: seq<Add>, more: seq<Add>,
                      cells: seq<(nat, nat)>, next: seq<(nat, nat)>)
    requires From(ls0, ls1, adds, cells) && From(ls0, ls1, more, next)
    requires forall i, j :: 0 <= i < |cells| && 0 <= j < |next| ==> Ahead(cells[i], next[j])
    ensures From(ls0, ls1, adds + more, cells + next)
  {
    var both, all, n := cells + next, adds + more, |cells|;
    forall i | 0 <= i < |both| ensures CellShown(ls0, ls1, both[i].0, both[i].1, all[i]) {
      if i < n {
        assert both[i] == cells[i] && all[i] == adds[i];
      } else {
        assert both[i] == next[i - n] && all[i] == more[i - n];
      }
    }
    BothInOrder(cells, next);
  }

  lemma BothInOrder(cells: seq<(nat, nat)>, next: seq<(nat, nat)>)
    requires forall i, j :: 0 <= i < j < |cells| ==> Ahead(cells[i], cells[j])
    requires forall i, j :: 0 <= i < j < |next| ==> Ahead(next[i], next[j])
    requires forall i, j :: 0 <= i < |cells| && 0 <= j < |next| ==> Ahead(cells[i], next[j])
    ensures forall i, j :: 0 <= i < j < |cells + next| ==> Ahead((cells + next)[i], (cells + next)[j])
  {
    forall i, j | 0 <= i < j < |cells + next| ensures Ahead((cells + next)[i], (cells + next)[j]) {
      if i >= |cells| {
        assert Ahead(next[i - |cells|], next[j - |cells|]);
      }
    }
  }

  /**
   The adds of two frames, of any number of lines each: they come in reading order from different cells,
   with the first frame's character as the one shown first, and every cell of the frames that is not
   blank in both has one.
   */
  lemma AddsAreCells(ls0: seq<seq<byte>>, ls1: seq<seq<byte>>) returns (cells: seq<(nat, nat)>)
    ensures From(ls0, ls1, FrameAdds(ls0, ls1, Longer(|ls0|, |ls1|)), cells)
    ensures forall row: nat, col: nat :: Visible(ls0, ls1, row, col) <==> (row, col) in cells
  {
    var rows := Longer(|ls0|, |ls1|);
    cells := FrameCells(ls0, ls1, rows);
    forall row: nat, col: nat ensures Visible(ls0, ls1, row, col) <==> (row, col) in cells {
      if (row, col) in cells {
        var i :| 0 <= i < |cells| && cells[i] == (row, col);
        assert CellShown(ls0, ls1, row, col, FrameAdds(ls0, ls1, rows)[i]);
      }
    }
  }

  // ---- One reader ----

  /** Where line `row` starts in the text whose lines are `ls`. */
  function StartOf(ls: seq<seq<byte>>, row: nat): (r: nat)
    requires row <= |ls|
    ensures r >= row
  {
    if row == 0 then 0 else StartOf(ls, row - 1) + |ls[row - 1]| + 1
  }

  lemma {:induction false} StartInTail(ls: seq<seq<byte>>, row: nat)
    requires 1 <= row <= |ls|
    ensures StartOf(ls, row) == |ls[0]| + 1 + StartOf(ls[1..], row - 1)
  {
    if row > 1 {
      StartInTail(ls, row - 1);
    }
  }

  /** The character `k` places into line `row`: one of the line's, its newline, or the end of the text. */
  lemma {:induction false} JoinAt(ls: seq<seq<byte>>, row: nat, k: nat)
    requires row < |ls| && k <= |ls[row]|
    ensures var text, i := Join(ls), StartOf(ls, row) + k;
            && i <= |text| && (i == |text| <==> k == |ls[row]| && row + 1 == |ls|)
            && (i < |text| ==> text[i] == if k < |ls[row]| then ls[row][k] else NEWLINE)
    decreases |ls|
  {
    if |ls| > 1 && row > 0 {
      StartInTail(ls, row);
      JoinAt(ls[1..], row - 1, k);
    }
  }

  /** The reader has come to the end of line `row`: `c` is a newline until the row is over. */
  ghost predicate Ended(ls: seq<seq<byte>>, pos: nat, eof: bool, row: nat, col: nat) {
    && col >= |LineOf(ls, row)|
    && if eof then row + 1 >= |ls| else row + 1 < |ls| && pos == StartOf(ls, row + 1)
  }

  /** The reader is inside line `row` and has taken its first `taken` characters. */
  ghost predicate Within(ls: seq<seq<byte>>, pos: nat, eof: bool, row: nat, taken: nat) {
    !eof && row < |ls| && taken <= |ls[row]| && pos == StartOf(ls, row) + taken
  }

  /** Before column `col` is read. */
  ghost predicate Before(ls: seq<seq<byte>>, pos: nat, c: byte, eof: bool, row: nat, col: nat) {
    if c == NEWLINE then Ended(ls, pos, eof, row, col) else Within(ls, pos, eof, row, col)
  }

  /** `c` is what the reader has for column `col`: the line's character, or a newline past its end. */
  ghost predicate At(ls: seq<seq<byte>>, pos: nat, c: byte, eof: bool, row: nat, col: nat) {
    if c == NEWLINE then Ended(ls, pos, eof, row, col)
    else Within(ls, pos, eof, row, col + 1) && c == ls[row][col]
  }

  /** One character of the text, seen from its lines. */
  lemma TextStep(text: seq<byte>, pos: nat, row: nat, col: nat)
    requires Within(Lines(text), pos, false, row, col)
    ensures pos <= |text|
    ensures pos == |text| ==> Ended(Lines(text), pos, true, row, col)
    ensures pos < |text| ==> At(Lines(text), pos + 1, text[pos], false, row, col)
  {
    JoinLines(text);
    JoinAt(Lines(text), row, col);
    if pos < |text| && col < |Lines(text)[row]| {
      assert NEWLINE !in Lines(text)[row];
    }
  }

  /** `read(fd, &c, 1)` unless the line is over already; at the end of the file the line ends too. */
  method Advance(file: OpenFile, c: byte, eof: bool, ghost row: nat, ghost col: nat) returns (d: byte, e: bool)
    requires Sound(file.disk, file.inode) && 0 <= file.position <= file.inode.size
    requires Before(Lines(file.Data()), file.position, c, eof, row, col)
    modifies file
    ensures 0 <= file.position <= file.inode.size
    ensures At(Lines(file.Data()), file.position, d, e, row, col)
  {
    d, e := c, eof;
    if c != NEWLINE {
      TextStep(file.Data(), file.position, row, col);
      var buf := new byte[1];
      var n := file.Read(buf, 0, 1);
      if n == 0 {
        d, e := NEWLINE, true;
      } else {
        d := buf[0];
      }
    }
  }

  /** The row is over: the reader goes to the next line, or stays at the end of the file. */
  lemma NextRow(ls: seq<seq<byte>>, pos: nat, eof: bool, row: nat, col: nat)
    requires Ended(ls, pos, eof, row, col)
    ensures Before(ls, pos, FirstChar(eof), eof, row + 1, 0)
    ensures eof <==> row + 1 >= |ls|
  {
  }

  /** What a character variable is set to before a row: anything but a newline, unless the file is over. */
  function FirstChar(eof: bool): byte {
    if eof then NEWLINE else '0'
  }

  function Shown(c: byte): byte {
    if c == NEWLINE then SPACE else c
  }

  lemma ShownIsCharIn(ls: seq<seq<byte>>, pos: nat, c: byte, eof: bool, row: nat, col: nat)
    requires At(ls, pos, c, eof, row, col)
    ensures Shown(c) == CharIn(LineOf(ls, row), col)
    ensures c != NEWLINE ==> col < |LineOf(ls, row)|
    ensures c == NEWLINE ==> col >= |LineOf(ls, row)|
    ensures Before(ls, pos, c, eof, row, col + 1)
  {
  }

  // ---- The program ----

  /** One cell: nothing if both characters are blank, and a blank for the one past the end of its line. */
  method AddCell(c0: byte, c1: byte, row: nat, col: nat) returns (adds: seq<Add>)
    ensures adds == if Shown(c0) == SPACE && Shown(c1) == SPACE then []
                    else [Add(Location(row, col), Shown(c0), Shown(c1))]
  {
    adds := [];
    if (c0 != SPACE && c0 != NEWLINE) || (c1 != SPACE && c1 != NEWLINE) {
      var onChar := if c0 == NEWLINE then SPACE else c0;
      var offChar := if c1 == NEWLINE then SPACE else c1;
      adds := [Add((row * 80 + col + 40) % 0x1_0000, onChar, offChar)];
    }
  }

  /** One more row of adds. */
  lemma RowAdded(ls0: seq<seq<byte>>, ls1: seq<seq<byte>>, row: nat, col: nat)
    requires col == Longer(|LineOf(ls0, row)|, |LineOf(ls1, row)|)
    ensures FrameAdds(ls0, ls1, row + 1) ==
            FrameAdds(ls0, ls1, row) + RowAdds(LineOf(ls0, row), LineOf(ls1, row), row, col)
  {
  }

  /** The reader of a file whose lines are `ls` is before column `col` of row `row`. */
  ghost predicate Reading(file: OpenFile, ls: seq<seq<byte>>, c: byte, eof: bool, row: nat, col: nat)
    reads file
  {
    && Sound(file.disk, file.inode) && 0 <= file.position <= file.inode.size
    && ls == Lines(file.Data()) && Before(ls, file.position, c, eof, row, col)
  }

  lemma AtStart(file: OpenFile)
    requires Sound(file.disk, file.inode) && file.position == 0
    ensures Reading(file, Lines(file.Data()), FirstChar(false), false, 0, 0)
  {
  }

  lemma NextReading(file: OpenFile, ls: seq<seq<byte>>, eof: bool, row: nat, col: nat)
    requires Reading(file, ls, NEWLINE, eof, row, col)
    ensures Reading(file, ls, FirstChar(eof), eof, row + 1, 0)
    ensures eof <==> row + 1 >= |ls|
  {
    NextRow(ls, file.position, eof, row, col);
  }

  /** Advance, for a reader: the character for column `col`, after which the reader is before the next. */
  method NextChar(file: OpenFile, ghost ls: seq<seq<byte>>, c: byte, eof: bool, ghost row: nat, ghost col: nat)
    returns (d: byte, e: bool)
    requires Reading(file, ls, c, eof, row, col)
    modifies file
    ensures Reading(file, ls, d, e, row, col + 1) && Shown(d) == CharIn(LineOf(ls, row), col)
    ensures d == NEWLINE <==> col >= |LineOf(ls, row)|
    ensures d == NEWLINE ==> Reading(file, ls, d, e, row, col)
  {
    d, e := Advance(file, c, eof, row, col);
    ShownIsCharIn(ls, file.position, d, e, row, col);
  }

  /** One row of add_frames. */
  method AddRow(file0: OpenFile, file1: OpenFile, eofA: bool, eofB: bool, row: nat,
                ghost ls0: seq<seq<byte>>, ghost ls1: seq<seq<byte>>)
    returns (adds: seq<Add>, eof0: bool, eof1: bool, ghost col: nat)
    requires file0 != file1
    requires Reading(file0, ls0, FirstChar(eofA), eofA, row, 0)
    requires Reading(file1, ls1, FirstChar(eofB), eofB, row, 0)
    modifies file0, file1
    ensures col == Longer(|LineOf(ls0, row)|, |LineOf(ls1, row)|)
    ensures adds == RowAdds(LineOf(ls0, row), LineOf(ls1, row), row, col)
    ensures Reading(file0, ls0, NEWLINE, eof0, row, col) && Reading(file1, ls1, NEWLINE, eof1, row, col)
  {
    ghost var l0, l1 := LineOf(ls0, row), LineOf(ls1, row);
    var c0, c1 := FirstChar(eofA), FirstChar(eofB);
    var at := 0;
    eof0, eof1, adds, col := eofA, eofB, [], 0;
    while true
      invariant Reading(file0, ls0, c0, eof0, row, at) && Reading(file1, ls1, c1, eof1, row, at)
      invariant at == col <= Longer(|l0|, |l1|) && adds == RowAdds(l0, l1, row, at)
      decreases Longer(|l0|, |l1|) - at
    {
      c0, eof0 := NextChar(file0, ls0, c0, eof0, row, at);
      c1, eof1 := NextChar(file1, ls1, c1, eof1, row, at);
      if c0 == NEWLINE && c1 == NEWLINE {
        return;
      }
      var cell := AddCell(c0, c1, row, at);
      assert cell == CellAdds(l0, l1, row, at);
      adds := adds + cell;
      at, col := at + 1, col + 1;
    }
  }

  /** One row of add_frames, and both readers on to the next. */
  method NextRowAdds(file0: OpenFile, file1: OpenFile, eofA: bool, eofB: bool, row: nat,
                     ghost ls0: seq<seq<byte>>, ghost ls1: seq<seq<byte>>)
    returns (adds: seq<Add>, eof0: bool, eof1: bool)
    requires file0 != file1
    requires Reading(file0, ls0, FirstChar(eofA), eofA, row, 0)
    requires Reading(file1, ls1, FirstChar(eofB), eofB, row, 0)
    modifies file0, file1
    ensures FrameAdds(ls0, ls1, row + 1) == FrameAdds(ls0, ls1, row) + adds
    ensures Reading(file0, ls0, FirstChar(eof0), eof0, row + 1, 0) && (eof0 <==> row + 1 >= |ls0|)
    ensures Reading(file1, ls1, FirstChar(eof1), eof1, row + 1, 0) && (eof1 <==> row + 1 >= |ls1|)
  {
    ghost var col;
    adds, eof0, eof1, col := AddRow(file0, file1, eofA, eofB, row, ls0, ls1);
    RowAdded(ls0, ls1, row, col);
    NextReading(file0, ls0, eof0, row, col);
    NextReading(file1, ls1, eof1, row, col);
  }

  /**
   add_frames: for any two files, whatever their numbers of lines, line lengths and final newlines, it
   ends and issues exactly one add per row and column at which the two frames, padded with spaces, are
   not both blank, with the characters of the two frames, row by row and from left to right.
   */
  method AddFrames(file0: OpenFile, file1: OpenFile) returns (adds: seq<Add>)
    requires file0 != file1 && file0.position == 0 && file1.position == 0
    requires Sound(file0.disk, file0.inode) && Sound(file1.disk, file1.inode)
    modifies file0, file1
    ensures var ls0, ls1 := Lines(file0.Data()), Lines(file1.Data());
            adds == FrameAdds(ls0, ls1, Longer(|ls0|, |ls1|))
  {
    ghost var ls0, ls1 := Lines(file0.Data()), Lines(file1.Data());
    AtStart(file0);
    AtStart(file1);
    var row, eof0, eof1 := 0, false, false;
    adds := [];
    while !eof0 || !eof1
      invariant Reading(file0, ls0, FirstChar(eof0), eof0, row, 0) && (eof0 <==> row >= |ls0|)
      invariant Reading(file1, ls1, FirstChar(eof1), eof1, row, 0) && (eof1 <==> row >= |ls1|)
      invariant row <= Longer(|ls0|, |ls1|) && adds == FrameAdds(ls0, ls1, row)
      decreases Longer(|ls0|, |ls1|) - row
    {
      var more;
      more, eof0, eof1 := NextRowAdds(file0, file1, eof0, eof1, row, ls0, ls1);
      adds := adds + more;
      row := row + 1;
    }
  }
}
