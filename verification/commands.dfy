/** Splitting a command line into a program name and its arguments, and handing the arguments back. */
module Commands {
  import opened Text

  /**
   `Overrun` stands for a write behind the 32-byte name buffer or the 100-byte argument buffer, whose
   effect the kernel does not define.
   */
  datatype Outcome = Parsed(name: seq<byte>, args: seq<byte>) | TooLong | Overrun

  // ---- What a command line says ----

  function SkipSpaces(s: seq<byte>, from: nat): (r: nat)
    requires from <= |s|
    ensures from <= r <= |s| && (r < |s| ==> s[r] != SPACE)
    ensures forall i :: from <= i < r ==> s[i] == SPACE
    decreases |s| - from
  {
    if from == |s| || s[from] != SPACE then from else SkipSpaces(s, from + 1)
  }

  function SkipWord(s: seq<byte>, from: nat): (r: nat)
    requires from <= |s|
    ensures from <= r <= |s| && (r < |s| ==> s[r] == SPACE)
    ensures forall i :: from <= i < r ==> s[i] != SPACE
    decreases |s| - from
  {
    if from == |s| || s[from] == SPACE then from else SkipWord(s, from + 1)
  }

  /** Where the name starts, where it ends, and where the arguments start. */
  datatype Marks = Marks(name: nat, end: nat, args: nat)

  function MarksOf(command: seq<byte>): (m: Marks)
    ensures Marked(command, m)
  {
    var k := SkipSpaces(command, 0);
    var e := SkipWord(command, k);
    Marks(k, e, SkipSpaces(command, e))
  }

  ghost predicate Marked(command: seq<byte>, m: Marks) {
    && m.name <= m.end <= m.args <= |command|
    && (m.name < |command| ==> m.name < m.end)
    && (m.end < |command| ==> m.end < m.args)
    && forall i :: 0 <= i < |command| ==>
         (command[i] == SPACE <==> i < m.name || m.end <= i < m.args) || m.args < i
  }

  /** The last position at which the scanner is still in the name, the byte after it included. */
  function LastNameStep(length: nat, m: Marks): int {
    if m.end < length then m.end else m.end - 1
  }

  /** The name, then the rest from the first byte that is not a space, trailing spaces included. */
  function SplitAt(command: seq<byte>, m: Marks): Outcome
    requires m.name <= m.end <= m.args <= |command|
  {
    var last := LastNameStep(|command|, m);
    if m.name == 0 && m.end > 32 then Overrun
    else if last > 32 && last > m.name then TooLong
    else if |command| - m.args > 100 then Overrun
    else Parsed(command[m.name..m.end], command[m.args..])
  }

  function Split(command: seq<byte>): Outcome {
    SplitAt(command, MarksOf(command))
  }

  // ---- The scanner of execute ----

  /** How much of the name, and of the arguments, lies before position `i`. */
  function NameRead(m: Marks, i: nat): int {
    if i <= m.name then 0 else if i <= m.end then i - m.name else m.end - m.name
  }

  function ArgsRead(m: Marks, i: nat): nat {
    if i <= m.args then 0 else i - m.args
  }

  /** The scanner's flag and offset: -1 before the name, 0 in it, 1 after it, 2 in the arguments. */
  ghost predicate Scanning(m: Marks, i: nat, flag: int, offset: nat) {
    && flag == (if i <= m.name then -1 else if i <= m.end then 0 else if i <= m.args then 1 else 2)
    && offset == (if flag == 0 then NameRead(m, i) else if flag == 2 then ArgsRead(m, i) else 0)
  }

  /** `buf` holds the `n` bytes of the command from `from` on, and zeros behind them. */
  ghost predicate Holding(buf: seq<byte>, command: seq<byte>, from: nat, n: int) {
    && 0 <= n && from + n <= |command| && n <= |buf|
    && forall j :: 0 <= j < |buf| ==> buf[j] == if j < n then command[from + j] else NUL
  }

  /** `s` in a buffer of `size` zeros. */
  function Filled(s: seq<byte>, size: nat): (r: seq<byte>)
    ensures |s| <= size ==> |r| == size
  {
    if |s| <= size then s + Repeat(NUL, size - |s|) else s
  }

  lemma HoldingIsFilled(buf: seq<byte>, command: seq<byte>, from: nat, n: int)
    requires Holding(buf, command, from, n)
    ensures buf == Filled(command[from..from + n], |buf|)
  {
  }

  /** One more byte stored. */
  lemma HoldingMore(buf: seq<byte>, command: seq<byte>, from: nat, n: nat)
    requires Holding(buf, command, from, n) && n < |buf| && from + n < |command|
    ensures Holding(buf[n := command[from + n]], command, from, n + 1)
  {
  }

  /** What the byte at position `i` is, from where it lies. */
  lemma ByteKind(command: seq<byte>, m: Marks, i: nat)
    requires Marked(command, m) && i < |command|
    ensures i < m.name || m.end <= i < m.args ==> command[i] == SPACE
    ensures m.name <= i < m.end || i == m.args ==> command[i] != SPACE
  {
  }

  method Scan(command: seq<byte>, ghost m: Marks) returns (r: Outcome)
    requires Marked(command, m)
    ensures match SplitAt(command, m)
            case Parsed(name, args) => r == Parsed(Filled(name, 32), Filled(args, 100))
            case TooLong => r == TooLong
            case Overrun => r == Overrun
  {
    var filename, fileargs := Repeat(NUL, 32), Repeat(NUL, 100);
    var flag, offset: nat := -1, 0;
    var i := 0;
    ghost var last := LastNameStep(|command|, m);
    while i < |command|
      invariant 0 <= i <= |command| && |filename| == 32 && |fileargs| == 100
      invariant Scanning(m, i, flag, offset)
      invariant Holding(filename, command, m.name, NameRead(m, i))
      invariant Holding(fileargs, command, m.args, ArgsRead(m, i))
      invariant i - 1 <= last && i - 1 > m.name ==> i - 1 <= 32
      invariant i - 1 > last > m.name ==> last <= 32
    {
      ByteKind(command, m, i);
      if i > 32 && flag == 0 {
        return TooLong;
      }
      if command[i] == SPACE && flag == -1 {
      } else if command[i] != SPACE && (flag == -1 || flag == 0) {
        flag := 0;
        if offset >= 32 {
          return Overrun;
        }
        assert Holding(filename[offset := command[i]], command, m.name, offset + 1) by {
          HoldingMore(filename, command, m.name, offset);
        }
        filename := filename[offset := command[i]];
        offset := offset + 1;
      } else if command[i] == SPACE && (flag == 0 || flag == 1) {
        flag := 1;
        offset := 0;
      } else if flag == 1 || flag == 2 {
        flag := 2;
        if offset >= 100 {
          return Overrun;
        }
        assert Holding(fileargs[offset := command[i]], command, m.args, offset + 1) by {
          HoldingMore(fileargs, command, m.args, offset);
        }
        fileargs := fileargs[offset := command[i]];
        offset := offset + 1;
      }
      i := i + 1;
    }
    assert filename == Filled(command[m.name..m.end], 32) && fileargs == Filled(command[m.args..], 100) by {
      HoldingIsFilled(filename, command, m.name, NameRead(m, i));
      HoldingIsFilled(fileargs, command, m.args, ArgsRead(m, i));
    }
    return Parsed(filename, fileargs);
  }

  method ParseCommand(command: seq<byte>) returns (r: Outcome)
    ensures match Split(command)
            case Parsed(name, args) => r == Parsed(Filled(name, 32), Filled(args, 100))
            case TooLong => r == TooLong
            case Overrun => r == Overrun
  {
    r := Scan(command, MarksOf(command));
  }

  // ---- Round trip ----

  /** Leading spaces, a name, separating spaces and arguments. */
  function CommandLine(k: nat, name: seq<byte>, m: nat, args: seq<byte>): seq<byte> {
    Repeat(SPACE, k) + (name + (Repeat(SPACE, m) + args))
  }

  /** A command line has only one way to be marked. */
  lemma MarksUnique(command: seq<byte>, m: Marks, n: Marks)
    requires Marked(command, m) && Marked(command, n)
    ensures m == n
  {
    assert m.name < |command| ==> command[m.name] != SPACE;
    assert n.name < |command| ==> command[n.name] != SPACE;
    assert m.end < |command| ==> command[m.end] == SPACE;
    assert n.end < |command| ==> command[n.end] == SPACE;
    assert m.args < |command| ==> command[m.args] != SPACE;
    assert n.args < |command| ==> command[n.args] != SPACE;
  }

  /** The parts of a command line are found again. */
  lemma PartsFound(k: nat, name: seq<byte>, m: nat, args: seq<byte>)
    requires name != [] && SPACE !in name && m >= 1
    requires args == [] || args[0] != SPACE
    ensures var c := CommandLine(k, name, m, args);
            && MarksOf(c) == Marks(k, k + |name|, k + |name| + m)
            && |c| == k + |name| + m + |args|
            && c[k..k + |name|] == name && c[k + |name| + m..] == args
  {
    var c := CommandLine(k, name, m, args);
    assert forall i :: 0 <= i < |name| ==> name[i] != SPACE;
    MarksUnique(c, MarksOf(c), Marks(k, k + |name|, k + |name| + m));
  }

  /**
   A command line with at least one separating space is taken apart correctly if and only if its name
   ends within the first 32 positions and its arguments fit in 100 bytes.
   */
  lemma ParseRoundTrip(k: nat, name: seq<byte>, m: nat, args: seq<byte>)
    requires name != [] && SPACE !in name && m >= 1
    requires args == [] || args[0] != SPACE
    ensures Split(CommandLine(k, name, m, args)) == Parsed(name, args)
       <==> k + |name| <= 32 && |args| <= 100
  {
    PartsFound(k, name, m, args);
  }

  /**
   A command line that is a name and nothing more, spaces before it aside, is taken apart correctly if
   and only if the name fits in 32 bytes and ends within the first 33 positions; a name of one byte is
   found behind any number of spaces.
   */
  lemma BareNameRoundTrip(k: nat, name: seq<byte>)
    requires name != [] && SPACE !in name
    ensures Split(Repeat(SPACE, k) + name) == Parsed(name, [])
       <==> |name| == 1 || (|name| <= 32 && k + |name| <= 33)
  {
    var c := Repeat(SPACE, k) + name;
    assert forall i :: 0 <= i < |name| ==> name[i] != SPACE;
    MarksUnique(c, MarksOf(c), Marks(k, |c|, |c|));
    assert c[k..|c|] == name;
  }

  /** A name of 33 bytes is written past its buffer; behind one space it is refused instead. */
  lemma LongNames()
    ensures Split(Repeat('a', 33)) == Overrun && Split(Repeat(SPACE, 1) + Repeat('a', 33)) == TooLong
  {
    var c, d := Repeat('a', 33), Repeat(SPACE, 1) + Repeat('a', 33);
    MarksUnique(c, MarksOf(c), Marks(0, 33, 33));
    MarksUnique(d, MarksOf(d), Marks(1, 34, 34));
  }

  /** The stored arguments: the 100 bytes copied from the parser's buffer, and the NUL written behind them. */
  function ArgBuf(fileargs: seq<byte>): (r: seq<byte>)
    ensures NUL in r
  {
    fileargs + [NUL]
  }

  /** getargs: the arguments and a NUL, or failure when there are none or they do not fit. */
  method Getargs(argbuf: seq<byte>, buf: array<byte>, nbytes: int) returns (r: int)
    requires NUL in argbuf && nbytes <= buf.Length
    modifies buf
    ensures var n := |BeforeNul(argbuf)|;
            if 0 < n < nbytes then
              r == 0 && buf[..n + 1] == BeforeNul(argbuf) + [NUL]
            else r == -1 && buf[..] == old(buf[..])
    ensures forall j :: |BeforeNul(argbuf)| < j < buf.Length ==> buf[j] == old(buf[j])
  {
    ghost var args := BeforeNul(argbuf);
    var n := 0;
    while argbuf[n] != NUL
      invariant 0 <= n <= |args|
      decreases |args| - n
    {
      n := n + 1;
    }
    if n <= 0 || n >= nbytes {
      return -1;
    }
    var i := 0;
    while i < n
      invariant 0 <= i <= n
      invariant forall j :: 0 <= j < buf.Length ==> buf[j] == if j < i then args[j] else old(buf[j])
    {
      buf[i] := argbuf[i];
      i := i + 1;
    }
    buf[i] := NUL;
    assert buf[..n + 1] == args + [NUL];
    return 0;
  }

  /** What the new process is handed is what was typed. */
  lemma StoredArgs(args: seq<byte>)
    requires NUL !in args && |args| <= 100
    ensures BeforeNul(ArgBuf(Filled(args, 100))) == args
  {
    var stored := ArgBuf(Filled(args, 100));
    assert stored[..|args|] == args;
    BeforeNulIs(stored, |args|);
  }
}
