/** Byte strings, and the lines they are made of. */
module Text {

  /** A byte, written as the character with that code. */
  type byte = char

  const NUL: byte := '\0'
  const NEWLINE: byte := '\n'
  const RETURN: byte := '\r'
  const SPACE: byte := ' '

  /** `n` copies of a byte. */
  function Repeat(c: byte, n: nat): (r: seq<byte>)
    ensures |r| == n
    ensures forall i :: 0 <= i < n ==> r[i] == c
  {
    seq(n, i => c)
  }

  /** The lines of `s`: the pieces between the bytes of `breaks`, the last piece possibly empty. */
  function Split(s: seq<byte>, breaks: set<byte>): (lines: seq<seq<byte>>)
    ensures |lines| >= 1
  {
    if s == [] then [[]]
    else
      var rest := Split(s[1..], breaks);
      if s[0] in breaks then [[]] + rest else OnFirst(s[0], rest)
  }

  /** The lines of `s` when only a newline ends a line. */
  function Lines(s: seq<byte>): (lines: seq<seq<byte>>)
    ensures |lines| >= 1
  {
    Split(s, {NEWLINE})
  }

  function Join(lines: seq<seq<byte>>): seq<byte>
    requires |lines| >= 1
  {
    if |lines| == 1 then lines[0] else lines[0] + [NEWLINE] + Join(lines[1..])
  }

  ghost predicate NewlineFree(lines: seq<seq<byte>>) {
    forall i :: 0 <= i < |lines| ==> NEWLINE !in lines[i]
  }

  /** Joining the lines of a text gives the text back, and no line holds a newline. */
  lemma {:induction false} JoinLines(s: seq<byte>)
    ensures Join(Lines(s)) == s
    ensures NewlineFree(Lines(s))
  {
    if s == [] {
    } else {
      JoinLines(s[1..]);
      var rest := Lines(s[1..]);
      if s[0] == NEWLINE {
        assert ([[]] + rest)[1..] == rest;
      } else {
        assert OnFirst(s[0], rest)[1..] == rest[1..];
        if |rest| > 1 {
          assert [s[0]] + rest[0] + [NEWLINE] + Join(rest[1..])
              == [s[0]] + (rest[0] + [NEWLINE] + Join(rest[1..]));
        }
      }
    }
  }

  /** The only newline-free lines that join to a text are its lines. */
  lemma {:induction false} LinesUnique(lines: seq<seq<byte>>)
    requires |lines| >= 1
    requires NewlineFree(lines)
    ensures Lines(Join(lines)) == lines
    decreases |lines|, |Join(lines)|
  {
    var s := Join(lines);
    if lines[0] != [] {
      var shorter := [lines[0][1..]] + lines[1..];
      assert shorter[1..] == lines[1..];
      assert Join(shorter) == s[1..];
      LinesUnique(shorter);
      assert Lines(s[1..]) == shorter;
      assert [s[0]] + shorter[0] == lines[0];
      assert NEWLINE !in lines[0];
      assert s[0] == lines[0][0];
    } else if |lines| > 1 {
      assert s[1..] == Join(lines[1..]);
      LinesUnique(lines[1..]);
    }
  }

  /** A byte added at the front of the first line, or at the end of the last one. */
  function OnFirst(c: byte, lines: seq<seq<byte>>): (r: seq<seq<byte>>)
    requires |lines| >= 1
    ensures |r| == |lines|
  {
    [[c] + lines[0]] + lines[1..]
  }

  function OnLast(lines: seq<seq<byte>>, c: byte): (r: seq<seq<byte>>)
    requires |lines| >= 1
    ensures |r| == |lines|
  {
    lines[..|lines| - 1] + [lines[|lines| - 1] + [c]]
  }

  lemma FirstAndLast(a: byte, lines: seq<seq<byte>>, c: byte)
    requires |lines| >= 1
    ensures OnLast(OnFirst(a, lines), c) == OnFirst(a, OnLast(lines, c))
  {
    var both := OnLast(OnFirst(a, lines), c);
    if |lines| == 1 {
      assert [a] + lines[0] + [c] == [a] + (lines[0] + [c]);
      assert both[0] == [a] + lines[0] + [c];
      assert OnFirst(a, OnLast(lines, c))[0] == [a] + (lines[0] + [c]);
    } else {
      assert both[0] == [a] + lines[0];
    }
  }

  lemma FirstOf(a: byte, lines: seq<seq<byte>>, more: seq<seq<byte>>)
    requires |lines| >= 1
    ensures OnFirst(a, lines + more) == OnFirst(a, lines) + more
    ensures [[]] + (lines + more) == ([[]] + lines) + more
  {
  }

  lemma LastOf(first: seq<byte>, lines: seq<seq<byte>>, c: byte)
    requires |lines| >= 1
    ensures OnLast([first] + lines, c) == [first] + OnLast(lines, c)
  {
  }

  /** How one more byte at the end of a text changes its lines. */
  lemma {:induction false} SplitAppend(s: seq<byte>, c: byte, breaks: set<byte>)
    ensures Split(s + [c], breaks) ==
            if c in breaks then Split(s, breaks) + [[]] else OnLast(Split(s, breaks), c)
  {
    if s == [] {
      assert s + [c] == [c];
      assert [c][1..] == [];
      assert [c] + [] == [] + [c];
    } else {
      SplitAppend(s[1..], c, breaks);
      assert (s + [c])[1..] == s[1..] + [c];
      var rest := Split(s[1..], breaks);
      FirstAndLast(s[0], rest, c);
      FirstOf(s[0], rest, [[]]);
      LastOf([], rest, c);
    }
  }

  /** A text with a line break inside splits at the break. */
  lemma {:induction false} SplitAtBreak(a: seq<byte>, c: byte, b: seq<byte>, breaks: set<byte>)
    requires c in breaks
    ensures Split(a + [c] + b, breaks) == Split(a, breaks) + Split(b, breaks)
  {
    var whole := a + [c] + b;
    if a == [] {
      assert whole[1..] == b;
    } else {
      SplitAtBreak(a[1..], c, b, breaks);
      assert whole[0] == a[0] && whole[1..] == a[1..] + [c] + b;
      FirstOf(a[0], Split(a[1..], breaks), Split(b, breaks));
    }
  }

  /** A text without line breaks is one line. */
  lemma {:induction false} SplitUnbroken(s: seq<byte>, breaks: set<byte>)
    requires forall i :: 0 <= i < |s| ==> s[i] !in breaks
    ensures Split(s, breaks) == [s]
  {
    if s != [] {
      SplitUnbroken(s[1..], breaks);
      assert [s[0]] + s[1..] == s;
    }
  }

  /** The bytes before the first NUL: what a C string routine sees of a buffer. */
  function BeforeNul(s: seq<byte>): (r: seq<byte>)
    ensures r <= s && NUL !in r
    ensures |r| < |s| ==> s[|r|] == NUL
  {
    if s == [] || s[0] == NUL then [] else [s[0]] + BeforeNul(s[1..])
  }

  /** A buffer whose first `k` bytes are not NUL and whose next one is, or is past the end. */
  lemma {:induction false} BeforeNulIs(s: seq<byte>, k: nat)
    requires k <= |s| && NUL !in s[..k] && (k < |s| ==> s[k] == NUL)
    ensures BeforeNul(s) == s[..k]
  {
    if k > 0 {
      assert s[0] == s[..k][0];
      assert s[1..][..k - 1] == s[..k][1..];
      BeforeNulIs(s[1..], k - 1);
    }
  }
}
