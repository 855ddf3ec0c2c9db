/** The grep program: a 1025-byte sliding buffer over read, against a search of the whole file. */
module Grep {
  import opened Text
  import opened FileSystem

  // ---- What grep should print ----

  /** The pattern occurs in the line. */
  ghost predicate Contains(line: seq<byte>, s: seq<byte>) {
    exists i :: OccursAt(line, s, i)
  }

  predicate OccursAt(line: seq<byte>, s: seq<byte>, i: int) {
    0 <= i && i + |s| <= |line| && line[i..i + |s|] == s
  }

  ghost function Matching(lines: seq<seq<byte>>, s: seq<byte>): seq<seq<byte>> {
    if lines == [] then []
    else Found(lines[0], s) + Matching(lines[1..], s)
  }

  ghost function Found(line: seq<byte>, s: seq<byte>): seq<seq<byte>> {
    if Contains(line, s) then [line] else []
  }

  /** The bytes printed for the matching lines: file name, colon, line, newline. */
  function Report(fname: seq<byte>, lines: seq<seq<byte>>): seq<byte> {
    if lines == [] then [] else Report(fname, lines[..|lines| - 1]) + Entry(fname, lines[|lines| - 1])
  }

  function Entry(fname: seq<byte>, line: seq<byte>): seq<byte> {
    fname + ":" + line + "\n"
  }

  lemma {:induction false} MatchingSplits(a: seq<seq<byte>>, b: seq<seq<byte>>, s: seq<byte>)
    ensures Matching(a + b, s) == Matching(a, s) + Matching(b, s)
  {
    if a == [] {
      assert a + b == b;
    } else {
      MatchingSplits(a[1..], b, s);
      assert (a + b)[0] == a[0] && (a + b)[1..] == a[1..] + b;
      Regroup(Found(a[0], s), Matching(a[1..], s), Matching(b, s));
    }
  }

  lemma Regroup(a: seq<seq<byte>>, b: seq<seq<byte>>, c: seq<seq<byte>>)
    ensures a + (b + c) == a + b + c
  {
  }

  /** The matches in a text that starts with a finished line, and in one that is a single line. */
  lemma MatchingFirst(line: seq<byte>, rest: seq<byte>, s: seq<byte>)
    requires NEWLINE !in line
    ensures Lines(line + [NEWLINE] + rest) == [line] + Lines(rest)
    ensures Matching(Lines(line + [NEWLINE] + rest), s) == Found(line, s) + Matching(Lines(rest), s)
  {
    SplitAtBreak(line, NEWLINE, rest, {NEWLINE});
    SplitUnbroken(line, {NEWLINE});
    MatchingSplits([line], Lines(rest), s);
    MatchingOne(line, s);
  }

  lemma MatchingOne(line: seq<byte>, s: seq<byte>)
    ensures Matching([line], s) == Found(line, s)
  {
    assert [line][1..] == [];
  }

  lemma MatchingLast(line: seq<byte>, s: seq<byte>)
    requires NEWLINE !in line
    ensures Matching(Lines(line), s) == Found(line, s)
  {
    SplitUnbroken(line, {NEWLINE});
    MatchingOne(line, s);
  }

  lemma NothingInNothing(s: seq<byte>)
    requires s != []
    ensures Matching(Lines([]), s) == []
  {
    MatchingLast([], s);
    assert !Contains([], s);
  }

  lemma ReportGrows(fname: seq<byte>, lines: seq<seq<byte>>, line: seq<byte>, s: seq<byte>)
    ensures Report(fname, lines + Found(line, s)) ==
            Report(fname, lines) + if Contains(line, s) then Entry(fname, line) else []
  {
    if Contains(line, s) {
      assert (lines + [line])[..|lines|] == lines;
    } else {
      assert lines + [] == lines;
    }
  }

  /** Line by line what stands on the display: each with the file's name and a colon in front. */
  function Headed(fname: seq<byte>, lines: seq<seq<byte>>): (r: seq<seq<byte>>)
    ensures |r| == |lines|
  {
    seq(|lines|, i requires 0 <= i < |lines| => fname + [':'] + lines[i])
  }

  lemma {:induction false} ReportThen(fname: seq<byte>, lines: seq<seq<byte>>, t: seq<byte>)
    requires NEWLINE !in fname && NEWLINE !in t && NewlineFree(lines)
    ensures Lines(Report(fname, lines) + t) == Headed(fname, lines) + [t]
  {
    SplitUnbroken(t, {NEWLINE});
    if lines == [] {
      assert Report(fname, lines) + t == t;
    } else {
      var front, line := lines[..|lines| - 1], fname + [':'] + lines[|lines| - 1];
      ReportThen(fname, front, line);
      SplitAtBreak(Report(fname, front) + line, NEWLINE, t, {NEWLINE});
      assert Report(fname, lines) + t == Report(fname, front) + line + [NEWLINE] + t;
      assert Headed(fname, lines) == Headed(fname, front) + [line];
    }
  }

  /**
   What grep prints, read line by line, is one line for each line reported, the file's name and a colon
   in front of it, and ends with a newline.
   */
  lemma ReportReadsBack(fname: seq<byte>, lines: seq<seq<byte>>)
    requires NEWLINE !in fname && NewlineFree(lines)
    ensures Lines(Report(fname, lines)) == Headed(fname, lines) + [[]]
  {
    ReportThen(fname, lines, []);
    assert Report(fname, lines) + [] == Report(fname, lines);
  }

  // ---- The library routines ----

  /** ece391_strncmp, as a test: the string at `at` starts with `s`. */
  method StartsWith(data: array<byte>, at: nat, end: nat, s: seq<byte>) returns (same: bool)
    requires at <= end < data.Length && data[end] == NUL && NUL !in data[at..end]
    requires s != [] && NUL !in s
    ensures same <==> OccursAt(data[..end], s, at)
  {
    var i := 0;
    while data[at + i] == s[i]
      invariant 0 <= i < |s| && at + i <= end
      invariant data[at..at + i] == s[..i]
      decreases |s| - i
    {
      assert s[i] in s;
      assert at + i < end;
      assert data[at..at + i + 1] == data[at..at + i] + [data[at + i]];
      if i + 1 == |s| {
        assert data[..end][at..at + |s|] == s[..i] + [s[i]] == s;
        return true;
      }
      i := i + 1;
    }
    OccursMeans(data[..end], s, at, i);
    return false;
  }

  lemma OccursMeans(line: seq<byte>, s: seq<byte>, i: nat, j: nat)
    requires j < |s|
    ensures OccursAt(line, s, i) ==> line[i + j] == s[j]
  {
    assert OccursAt(line, s, i) ==> line[i..i + |s|][j] == line[i + j];
  }

  /** The search loop: some position of the line is the start of the pattern. */
  method SearchLine(data: array<byte>, lineStart: nat, lineEnd: nat, s: seq<byte>) returns (found: bool)
    requires lineStart <= lineEnd < data.Length && data[lineEnd] == NUL && NUL !in data[lineStart..lineEnd]
    requires s != [] && NUL !in s
    ensures found <==> Contains(data[lineStart..lineEnd], s)
  {
    ghost var line := data[lineStart..lineEnd];
    var check := lineStart;
    while check < lineEnd
      invariant lineStart <= check <= lineEnd
      invariant forall i :: 0 <= i < check - lineStart ==> !OccursAt(line, s, i)
    {
      Shifted(data[..], lineStart, lineEnd, check, s);
      if s[0] == data[check] {
        TailNulFree(data[..], lineStart, check, lineEnd);
        var same := StartsWith(data, check, lineEnd, s);
        if same {
          assert OccursAt(line, s, check - lineStart);
          return true;
        }
      }
      check := check + 1;
    }
    return false;
  }

  lemma TailNulFree(data: seq<byte>, a: nat, b: nat, end: nat)
    requires a <= b <= end <= |data| && NUL !in data[a..end]
    ensures NUL !in data[b..end]
  {
    assert forall i :: b <= i < end ==> data[i] == data[a..end][i - a];
  }

  /** Occurrence at a position of the buffer and at the position of the line it is. */
  lemma Shifted(data: seq<byte>, start: nat, end: nat, check: nat, s: seq<byte>)
    requires start <= check < end <= |data| && s != []
    ensures OccursAt(data[..end], s, check) <==> OccursAt(data[start..end], s, check - start)
    ensures OccursAt(data[..end], s, check) ==> data[check] == s[0]
  {
    if check + |s| <= end {
      assert data[..end][check..check + |s|] == data[start..end][check - start..check - start + |s|];
      assert data[..end][check..check + |s|][0] == data[check];
    }
  }

  /** ece391_strcpy from further up in the same buffer, up to the NUL at `end`. */
  method CopyDown(data: array<byte>, from: nat, end: nat)
    requires 0 < from <= end < data.Length && data[end] == NUL && NUL !in data[from..end]
    modifies data
    ensures forall i :: 0 <= i < data.Length ==> data[i] == if i <= end - from then old(data[from + i]) else old(data[i])
  {
    assert forall i :: from <= i < end ==> data[i] == data[from..end][i - from];
    var i := 0;
    while data[from + i] != NUL
      invariant 0 <= i <= end - from
      invariant forall j :: 0 <= j < data.Length ==> data[j] == if j < i then old(data[from + j]) else old(data[j])
      decreases end - i
    {
      data[i] := data[from + i];
      i := i + 1;
    }
    data[i] := data[from + i];
  }

  // ---- The text still to be looked at ----

  lemma {:induction false} FirstLine(t: seq<byte>, k: nat)
    requires k <= |t|
    ensures NEWLINE !in t[..k] ==> k <= |Lines(t)[0]|
  {
    if k > 0 {
      assert t[..k] == [t[0]] + t[1..][..k - 1];
      FirstLine(t[1..], k - 1);
    }
  }

  /** No newline in the buffer except among the bytes from `start` to `last`. */
  ghost predicate Clean(data: seq<byte>, start: nat, last: nat) {
    forall i :: 0 <= i < |data| && !(start <= i < last) ==> data[i] != NEWLINE
  }

  /**
   Where the program stands: `printed` are the matching lines so far, the file from `from` on is still
   to be looked at, its bytes up to `pos` are in the buffer from `start` to `last`, and unless nothing
   is left, `from` is where the line after the lines `done` starts, just behind a newline.
   */
  datatype Place = Place(from: nat, pos: nat, start: nat, last: nat, printed: seq<seq<byte>>, done: seq<seq<byte>>)

  ghost predicate Standing(text: seq<byte>, s: seq<byte>, data: seq<byte>, p: Place) {
    && p.from <= p.pos <= |text| && p.start <= p.last <= |data| && p.last - p.start == p.pos - p.from
    && data[p.start..p.last] == text[p.from..p.pos]
    && Clean(data, p.start, p.last)
    && Matching(Lines(text), s) == p.printed + Matching(Lines(text[p.from..]), s)
    && (p.from < |text| ==> Lines(text) == p.done + Lines(text[p.from..]) && StartsLine(text, p.from))
  }

  predicate StartsLine(text: seq<byte>, i: nat)
    requires i <= |text|
  {
    i == 0 || text[i - 1] == NEWLINE
  }

  /** The place behind a finished line. */
  ghost function NextLine(s: seq<byte>, data: seq<byte>, p: Place, end: nat): Place
    requires p.start <= end < p.last <= |data|
  {
    var line := data[p.start..end];
    Place(p.from + (end - p.start) + 1, p.pos, end + 1, p.last, p.printed + Found(line, s), p.done + [line])
  }

  /** A finished line has been dealt with: its newline is overwritten and the next line starts behind it. */
  lemma LineDone(text: seq<byte>, s: seq<byte>, data: seq<byte>, p: Place, end: nat)
    requires Standing(text, s, data, p)
    requires p.start <= end < p.last && data[end] == NEWLINE && NEWLINE !in data[p.start..end]
    ensures Standing(text, s, data[end := NUL], NextLine(s, data, p, end))
  {
    var line := data[p.start..end];
    var next := p.from + (end - p.start) + 1;
    SameText(text, p.from, p.pos, data, p.start, p.last, end);
    FirstTaken(text, s, p.from, line, next, p.printed, p.done);
    StaysClean(data, p.start, p.last, end);
  }

  /** The first line of what is left has been taken. */
  lemma FirstTaken(text: seq<byte>, s: seq<byte>, from: nat, line: seq<byte>, next: nat,
                   printed: seq<seq<byte>>, done: seq<seq<byte>>)
    requires from <= |text| && next <= |text| && text[from..] == line + [NEWLINE] + text[next..] && NEWLINE !in line
    requires Matching(Lines(text), s) == printed + Matching(Lines(text[from..]), s)
    requires from < |text| ==> Lines(text) == done + Lines(text[from..])
    ensures Matching(Lines(text), s) == printed + Found(line, s) + Matching(Lines(text[next..]), s)
    ensures Lines(text) == done + [line] + Lines(text[next..])
  {
    MatchingFirst(line, text[next..], s);
    Regroup(printed, Found(line, s), Matching(Lines(text[next..]), s));
    Regroup(done, [line], Lines(text[next..]));
    assert |text[from..]| > 0;
  }

  lemma StaysClean(data: seq<byte>, start: nat, last: nat, end: nat)
    requires start <= end < last <= |data| && Clean(data, start, last) && NEWLINE !in data[start..end]
    ensures Clean(data[end := NUL], end + 1, last)
  {
    assert forall i :: start <= i < end ==> data[i] == data[start..end][i - start];
  }

  /** The first line of the buffer is the first line of the text it was read from. */
  lemma SameText(text: seq<byte>, from: nat, pos: nat, data: seq<byte>, start: nat, last: nat, end: nat)
    requires from <= pos <= |text| && start <= end < last <= |data| && last - start == pos - from
    requires data[start..last] == text[from..pos] && data[end] == NEWLINE
    ensures var next := from + (end - start) + 1;
            && next <= |text| && text[next - 1] == NEWLINE
            && text[from..] == data[start..end] + [NEWLINE] + text[next..]
            && data[end := NUL][end + 1..last] == text[next..pos]
  {
    var next := from + (end - start) + 1;
    assert forall i :: start <= i < last ==> data[i] == data[start..last][i - start] == text[from + (i - start)];
    assert data[start..end] == text[from..next - 1];
    assert text[from..] == text[from..next - 1] + [text[next - 1]] + text[next..];
  }

  /** The last line of the file, which no newline ends, has been dealt with: nothing is left. */
  lemma LastDone(text: seq<byte>, s: seq<byte>, data: seq<byte>, p: Place)
    requires s != [] && p.last < |data| && Standing(text, s, data, p) && p.pos == |text|
    requires NEWLINE !in data[p.start..p.last]
    ensures Standing(text, s, data[p.last := NUL],
                     Place(|text|, |text|, 0, 0, p.printed + Found(data[p.start..p.last], s), p.done))
  {
    assert text[p.from..|text|] == text[p.from..] == data[p.start..p.last];
    MatchingLast(data[p.start..p.last], s);
    NothingBehind(text, s);
    CleanAfterLast(data, p.start, p.last);
  }

  lemma NothingBehind(text: seq<byte>, s: seq<byte>)
    requires s != []
    ensures Matching(Lines(text[|text|..]), s) == []
  {
    assert text[|text|..] == [];
    NothingInNothing(s);
  }

  lemma CleanAfterLast(data: seq<byte>, start: nat, last: nat)
    requires start <= last < |data| && Clean(data, start, last) && NEWLINE !in data[start..last]
    ensures Clean(data[last := NUL], 0, 0)
  {
    assert forall i :: start <= i < last ==> data[i] == data[start..last][i - start];
  }

  /** The unfinished line has been moved to the front of the buffer. */
  lemma Moved(text: seq<byte>, s: seq<byte>, data: seq<byte>, p: Place, now: seq<byte>)
    requires Standing(text, s, data, p) && p.last < |data| == |now|
    requires NEWLINE !in data[p.start..p.last]
    requires forall i :: 0 <= i < |data| ==>
               now[i] == if i <= p.last - p.start then data[p.last := NUL][p.start + i] else data[p.last := NUL][i]
    ensures Standing(text, s, now, p.(start := 0, last := p.last - p.start))
  {
    assert now[0..p.last - p.start] == data[p.start..p.last];
    assert forall i :: p.start <= i < p.last ==> data[i] == data[p.start..p.last][i - p.start];
    assert Clean(now, 0, p.last - p.start);
  }

  /** A buffer that has been dealt with to its end is as good as an empty one. */
  lemma Exhausted(text: seq<byte>, s: seq<byte>, data: seq<byte>, p: Place)
    requires Standing(text, s, data, p) && p.start == p.last
    ensures Standing(text, s, data, p.(start := 0, last := 0))
  {
  }

  /** More of the file has been read behind what was left over. */
  lemma Refilled(text: seq<byte>, s: seq<byte>, data: seq<byte>, p: Place, n: nat, now: seq<byte>)
    requires Standing(text, s, data, p) && p.start == 0 && |now| == |data| && p.last + n <= |data|
    requires forall i :: 0 <= i < |data| ==>
               now[i] == if p.last <= i < p.last + |ReadAt(text, p.pos, n)| then ReadAt(text, p.pos, n)[i - p.last] else data[i]
    ensures var cnt := |ReadAt(text, p.pos, n)|;
            && Standing(text, s, now, p.(pos := p.pos + cnt, last := p.last + cnt))
            && (cnt < n ==> p.pos + cnt == |text|)
  {
    var more := ReadAt(text, p.pos, n);
    assert more == text[p.pos..p.pos + |more|];
    assert now[0..p.last + |more|] == data[0..p.last] + more;
    assert text[p.from..p.pos + |more|] == text[p.from..p.pos] + text[p.pos..p.pos + |more|];
  }

  /** A full buffer without a newline would hold the start of a line of 1024 bytes. */
  lemma FullBufferHasNewline(text: seq<byte>, s: seq<byte>, data: seq<byte>, p: Place)
    requires Standing(text, s, data, p) && p.start == 0 && p.last == 1024
    requires forall i :: 0 <= i < |Lines(text)| ==> |Lines(text)[i]| <= 1023
    ensures NEWLINE in data[..1024]
  {
    assert data[..1024] == data[0..1024] == text[p.from..][..1024];
    FirstLine(text[p.from..], 1024);
    assert Lines(text)[|p.done|] == Lines(text[p.from..])[0];
  }

  /** A read that asks for what is missing from 1024 bytes gives all of it, or the rest of the file. */
  lemma Filled(text: seq<byte>, s: seq<byte>, data: seq<byte>, p: Place, now: seq<byte>)
    requires Standing(text, s, data, p) && p.start == 0 && p.last <= 1023 && |now| == |data| == 1025
    requires forall i :: 0 <= i < |Lines(text)| ==> |Lines(text)[i]| <= 1023
    requires var more := ReadAt(text, p.pos, 1024 - p.last);
             forall i :: 0 <= i < |data| ==> now[i] == if p.last <= i < p.last + |more| then more[i - p.last] else data[i]
    ensures var cnt := |ReadAt(text, p.pos, 1024 - p.last)|;
            var q := p.(pos := p.pos + cnt, last := p.last + cnt);
            && Standing(text, s, now, q) && q.last <= 1024 && q.pos == Clip(text, p.from + 1024)
            && (q.pos == |text| || (cnt != 0 && NEWLINE in now[..q.last]))
  {
    Refilled(text, s, data, p, 1024 - p.last, now);
    var cnt := |ReadAt(text, p.pos, 1024 - p.last)|;
    if p.last + cnt == 1024 {
      FullBufferHasNewline(text, s, now, p.(pos := p.pos + cnt, last := 1024));
    }
  }

  // ---- Where the reads end ----

  /** Where the line starts that the first `e` bytes end in. */
  function LineStart(text: seq<byte>, e: nat): (n: nat)
    requires e <= |text|
    ensures n <= e && StartsLine(text, n)
    ensures forall i :: n <= i < e ==> text[i] != NEWLINE
  {
    if StartsLine(text, e) then e else LineStart(text, e - 1)
  }

  lemma LineStartIs(text: seq<byte>, e: nat, n: nat)
    requires n <= e <= |text| && StartsLine(text, n) && forall i :: n <= i < e ==> text[i] != NEWLINE
    ensures LineStart(text, e) == n
  {
  }

  /**
   Every read goes on to 1024 bytes behind the start of the line left unfinished by the read before;
   the one that reaches the end of the text ends exactly there.
   */
  predicate ReadsThrough(text: seq<byte>, from: nat)
    requires from <= |text|
    decreases |text| - from
  {
    var e := from + 1024;
    if e < |text| then
      var next := LineStart(text, e);
      next > from && ReadsThrough(text, next)
    else e == |text|
  }

  /** What is left of the condition once the program stands at `p`. */
  predicate GoesThrough(text: seq<byte>, p: Place)
    requires p.from <= |text|
  {
    p.pos == |text| || ReadsThrough(text, p.from)
  }

  /** A read that ends inside the text, or with it, leaves the condition as it was. */
  lemma ReadOn(text: seq<byte>, s: seq<byte>, p: Place, full: seq<byte>, data: seq<byte>, q: Place)
    requires p.from <= p.pos < |text| && p.from + 1024 <= |text| && q.pos == p.from + 1024
    requires |full| >= 1024 && full[..1024] == text[p.from..q.pos] && (NEWLINE in full[..1024] || q.pos == |text|)
    requires Standing(text, s, data, q) && q.start == 0 && (q.pos < |text| ==> NEWLINE !in data[..q.last])
    ensures GoesThrough(text, p) <==> GoesThrough(text, q)
  {
    if q.pos < |text| {
      assert data[..q.last] == data[0..q.last] == text[q.from..q.pos];
      assert forall i :: q.from <= i < q.pos ==> text[i] == text[q.from..q.pos][i - q.from];
      LineStartIs(text, q.pos, q.from);
      var i :| 0 <= i < 1024 && full[..1024][i] == NEWLINE;
      assert text[p.from + i] == NEWLINE;
    }
  }

  // ---- The program ----

  /** The end of the line that starts at `lineStart`: its newline, or the end of the buffer's contents. */
  method FindLineEnd(data: array<byte>, lineStart: nat, last: nat) returns (lineEnd: nat)
    requires lineStart <= last <= data.Length
    ensures lineStart <= lineEnd <= last && NEWLINE !in data[lineStart..lineEnd]
    ensures lineEnd < last ==> data[lineEnd] == NEWLINE
  {
    lineEnd := lineStart;
    while lineEnd < last && data[lineEnd] != NEWLINE
      invariant lineStart <= lineEnd <= last
      invariant NEWLINE !in data[lineStart..lineEnd]
    {
      assert data[lineStart..lineEnd + 1] == data[lineStart..lineEnd] + [data[lineEnd]];
      lineEnd := lineEnd + 1;
    }
  }

  /** Terminates the line, searches it, and prints it if the pattern is found. */
  method SearchAndPrint(data: array<byte>, lineStart: nat, lineEnd: nat, s: seq<byte>, fname: seq<byte>,
                        out0: seq<byte>, ghost printed: seq<seq<byte>>) returns (out: seq<byte>)
    requires lineStart <= lineEnd < data.Length && NUL !in data[lineStart..lineEnd] && s != [] && NUL !in s
    requires out0 == Report(fname, printed)
    modifies data
    ensures data[..] == old(data[..])[lineEnd := NUL]
    ensures out == Report(fname, printed + Found(old(data[lineStart..lineEnd]), s))
  {
    ghost var line := data[lineStart..lineEnd];
    data[lineEnd] := NUL;
    assert data[lineStart..lineEnd] == line;
    ReportGrows(fname, printed, line, s);
    var found := SearchLine(data, lineStart, lineEnd, s);
    out := out0;
    if found {
      LineUpToNul(data[..], lineStart, lineEnd);
      out := out + (fname + ":" + BeforeNul(data[lineStart..]) + "\n");
    }
  }

  /** Terminates the unfinished line and moves it to the front. */
  method ShiftDown(data: array<byte>, lineStart: nat, lineEnd: nat)
    requires 0 < lineStart <= lineEnd < data.Length && NUL !in data[lineStart..lineEnd]
    modifies data
    ensures forall i :: 0 <= i < data.Length ==>
              data[i] == if i <= lineEnd - lineStart then old(data[..])[lineEnd := NUL][lineStart + i]
                         else old(data[..])[lineEnd := NUL][i]
  {
    ghost var line := data[lineStart..lineEnd];
    data[lineEnd] := NUL;
    assert data[lineStart..lineEnd] == line;
    CopyDown(data, lineStart, lineEnd);
  }

  /** The line that the buffer breaks off in is moved to the front, to be read on. */
  method MoveUnfinished(data: array<byte>, lineStart: nat, lineEnd: nat, ghost s: seq<byte>, ghost text: seq<byte>,
                        ghost p: Place) returns (ghost q: Place)
    requires Standing(text, s, data[..], p) && 0 < p.start == lineStart <= lineEnd == p.last < data.Length
    requires NUL !in data[lineStart..lineEnd] && NEWLINE !in data[lineStart..lineEnd]
    modifies data
    ensures q == p.(start := 0, last := p.last - p.start) && Standing(text, s, data[..], q)
    ensures NEWLINE !in data[..q.last]
  {
    ghost var before := data[..];
    ShiftDown(data, lineStart, lineEnd);
    Moved(text, s, before, p, data[..]);
    q := p.(start := 0, last := p.last - p.start);
    assert data[..q.last] == before[lineStart..lineEnd];
  }

  /** The search of one line moves the place where the program stands. */
  lemma LineSearched(text: seq<byte>, s: seq<byte>, data: seq<byte>, p: Place, end: nat)
    requires Standing(text, s, data, p) && p.start <= end <= p.last < |data| && s != []
    requires NEWLINE !in data[p.start..end]
    requires if end < p.last then data[end] == NEWLINE else p.pos == |text|
    ensures var q := Moves(text, s, data, p, end);
            && Standing(text, s, data[end := NUL], q)
            && q.printed == p.printed + Found(data[p.start..end], s) && q.pos == p.pos
  {
    if end < p.last {
      LineDone(text, s, data, p, end);
      if end + 1 == p.last {
        Exhausted(text, s, data[end := NUL], NextLine(s, data, p, end));
      }
    } else {
      LastDone(text, s, data, p);
    }
  }

  ghost function Moves(text: seq<byte>, s: seq<byte>, data: seq<byte>, p: Place, end: nat): Place
    requires p.start <= end <= p.last <= |data|
  {
    if end < p.last then
      var q := NextLine(s, data, p, end);
      if end + 1 == p.last then q.(start := 0, last := 0) else q
    else Place(|text|, p.pos, 0, 0, p.printed + Found(data[p.start..end], s), p.done)
  }

  /** One line, finished or the last of the file, is searched and printed if the pattern is in it. */
  method HandleLine(data: array<byte>, lineStart: nat, lineEnd: nat, s: seq<byte>, fname: seq<byte>, out0: seq<byte>,
                    ghost text: seq<byte>, ghost p: Place) returns (out: seq<byte>, ghost q: Place)
    requires Standing(text, s, data[..], p) && p.start == lineStart <= lineEnd <= p.last < data.Length
    requires s != [] && NUL !in s && NUL !in data[lineStart..lineEnd] && NEWLINE !in data[lineStart..lineEnd]
    requires if lineEnd < p.last then data[lineEnd] == NEWLINE else p.pos == |text|
    requires out0 == Report(fname, p.printed)
    modifies data
    ensures q == Moves(text, s, old(data[..]), p, lineEnd) && q.pos == p.pos && Standing(text, s, data[..], q)
    ensures out == Report(fname, q.printed)
  {
    ghost var before := data[..];
    LineSearched(text, s, before, p, lineEnd);
    q := Moves(text, s, before, p, lineEnd);
    out := SearchAndPrint(data, lineStart, lineEnd, s, fname, out0, p.printed);
  }

  /**
   The inner loop: deals with every finished line in the buffer.  An unfinished one is moved to the
   front, to be read on, unless the buffer holds nothing else or the file has ended.
   */
  method ScanBuffer(data: array<byte>, last0: nat, cnt: nat, s: seq<byte>, fname: seq<byte>, out0: seq<byte>,
                    ghost text: seq<byte>, ghost p0: Place)
    returns (last: nat, out: seq<byte>, ghost p: Place)
    requires data.Length == 1025 && last0 <= 1024 && s != [] && NUL !in s && NUL !in text
    requires p0.start == 0 && p0.last == last0 && Standing(text, s, data[..], p0)
    requires out0 == Report(fname, p0.printed)
    requires p0.pos == |text| || (cnt != 0 && NEWLINE in data[..last0])
    modifies data
    ensures last <= 1023 && p.start == 0 && p.last == last && p.pos == p0.pos && Standing(text, s, data[..], p)
    ensures out == Report(fname, p.printed)
    ensures cnt == 0 ==> p.from == |text|
    ensures p.pos < |text| ==> NEWLINE !in data[..last]
  {
    last, out, p := last0, out0, p0;
    var lineStart := 0;
    while true
      invariant 0 <= lineStart <= last == last0 && p.start == lineStart && p.last == last && p.pos == p0.pos
      invariant Standing(text, s, data[..], p)
      invariant out == Report(fname, p.printed)
      invariant lineStart == 0 ==> p.pos == |text| || NEWLINE in data[..last]
      decreases last - lineStart
    {
      ghost var before := data[..];
      var lineEnd := FindLineEnd(data, lineStart, last);
      LineNulFree(text, s, before, p, lineEnd);
      if data[lineEnd] != NEWLINE && cnt != 0 && lineStart != 0 {
        p := MoveUnfinished(data, lineStart, lineEnd, s, text, p);
        last := last - lineStart;
        return;
      }
      LastLine(before, lineStart, lineEnd, last, cnt, p.pos == |text|);
      out, p := HandleLine(data, lineStart, lineEnd, s, fname, out, text, p);
      lineStart := lineEnd + 1;
      if lineStart >= last {
        last := 0;
        return;
      }
    }
  }

  /** A line that no newline ends is searched only when the file has ended. */
  lemma LastLine(data: seq<byte>, start: nat, end: nat, last: nat, cnt: nat, ended: bool)
    requires start <= end <= last < |data| && NEWLINE !in data[start..end]
    requires data[end] == NEWLINE || cnt == 0 || start == 0
    requires end == last ==> data[end] != NEWLINE
    requires ended || (cnt != 0 && (start == 0 ==> NEWLINE in data[..last]))
    ensures end == last ==> ended
  {
    assert data[..last] == data[0..last];
  }

  lemma LineNulFree(text: seq<byte>, s: seq<byte>, data: seq<byte>, p: Place, end: nat)
    requires Standing(text, s, data, p) && NUL !in text && p.start <= end <= p.last
    ensures NUL !in data[p.start..end]
  {
    var line := data[p.start..end];
    assert forall i :: 0 <= i < |line| ==> line[i] == data[p.start..p.last][i] == text[p.from + i];
  }

  lemma LineUpToNul(data: seq<byte>, start: nat, end: nat)
    requires start <= end < |data| && data[end] == NUL && NUL !in data[start..end]
    ensures BeforeNul(data[start..]) == data[start..end]
  {
    assert data[start..][..end - start] == data[start..end];
    BeforeNulIs(data[start..], end - start);
  }

  /**
   One read behind what is left over.  It fails exactly on a file that does not end safely and that
   ends inside the bytes asked for; otherwise the buffer is then full of text with a newline, or holds
   the end of the file.
   */
  method Refill(file: OpenFile, data: array<byte>, last0: nat, s: seq<byte>, ghost p0: Place)
    returns (last: nat, cnt: int, ghost p: Place)
    requires data.Length == 1025 && last0 <= 1023 && p0.start == 0 && p0.last == last0
    requires Sound(file.disk, file.inode) && file.position == p0.pos
    requires forall i :: 0 <= i < |Lines(file.Data())| ==> |Lines(file.Data())[i]| <= 1023
    requires Standing(file.Data(), s, data[..], p0)
    modifies file, data
    ensures cnt == -1 <==> !EndsSafely(file.disk, file.inode) && p0.pos < file.inode.size < p0.from + 1024
    ensures cnt != -1 ==> 0 <= cnt && file.position == p0.pos + cnt
    ensures cnt != -1 ==> last <= 1024 && p == p0.(pos := p0.pos + cnt, last := last)
    ensures cnt != -1 ==> Standing(file.Data(), s, data[..], p)
    ensures cnt != -1 ==> p.pos == Clip(file.Data(), p0.from + 1024)
    ensures cnt != -1 ==> p.pos == |file.Data()| || (cnt != 0 && NEWLINE in data[..last])
  {
    ghost var before := data[..];
    TrappedIff(file.disk, file.inode, p0.pos, 1024 - last0);
    cnt := file.Read(data, last0, 1024 - last0);
    last, p := last0, p0;
    if cnt != -1 {
      Filled(file.Data(), s, before, p0, data[..]);
      last, p := last0 + cnt, p0.(pos := p0.pos + cnt, last := last0 + cnt);
    }
  }

  const FAILED: seq<byte> := "file read failed\n"

  /**
   grep on one open file: for a file without NUL bytes whose lines have at most 1023 bytes, a pattern
   that is not empty, and a buffer that holds no newline to begin with, it ends.  If no read fails it
   has printed exactly the lines of the file that contain the pattern, in order and once each.  No read
   fails exactly when the file ends safely or its lines lie so that a read ends where the file does.
   If a read fails, it has printed the first of those lines and the message.
   */
  method DoOneFile(file: OpenFile, s: seq<byte>, fname: seq<byte>, data: array<byte>) returns (r: int, out: seq<byte>)
    requires Sound(file.disk, file.inode) && file.position == 0
    requires s != [] && NUL !in s && NUL !in file.Data()
    requires forall i :: 0 <= i < |Lines(file.Data())| ==> |Lines(file.Data())[i]| <= 1023
    requires data.Length == 1025 && NEWLINE !in data[..]
    modifies file, data
    ensures r == 0 || r == -1
    ensures r == 0 <==> EndsSafely(file.disk, file.inode) || ReadsThrough(file.Data(), 0)
    ensures r == 0 ==> out == Report(fname, Matching(Lines(file.Data()), s))
    ensures r == -1 ==> exists printed :: printed <= Matching(Lines(file.Data()), s) && out == Report(fname, printed) + FAILED
  {
    ghost var text, p := file.Data(), Place(0, 0, 0, 0, [], []);
    var last := 0;
    out := [];
    StartsClean(text, s, data[..]);
    var reading := true;
    while reading
      invariant last <= 1023 && p.start == 0 && p.last == last && p.pos == file.position
      invariant Standing(text, s, data[..], p)
      invariant out == Report(fname, p.printed)
      invariant !reading ==> p.from == |text|
      invariant EndsSafely(file.disk, file.inode) || (GoesThrough(text, p) <==> ReadsThrough(text, 0))
      decreases |text| - file.position, reading
    {
      ghost var before := p;
      var cnt;
      last, cnt, p := Refill(file, data, last, s, p);
      if cnt == -1 {
        assert before.printed <= Matching(Lines(text), s);
        return -1, out + FAILED;
      }
      ghost var full := data[..];
      last, out, p := ScanBuffer(data, last, cnt, s, fname, out, text, p);
      if !EndsSafely(file.disk, file.inode) && before.pos < |text| {
        ReadOn(text, s, before, full, data[..], p);
      }
      if cnt == 0 {
        reading := false;
      }
    }
    NothingLeft(text, s, data[..], p);
    return 0, out;
  }

  lemma StartsClean(text: seq<byte>, s: seq<byte>, data: seq<byte>)
    requires NEWLINE !in data
    ensures Standing(text, s, data, Place(0, 0, 0, 0, [], []))
  {
    assert text[0..] == text;
    assert Clean(data, 0, 0);
  }

  lemma NothingLeft(text: seq<byte>, s: seq<byte>, data: seq<byte>, p: Place)
    requires s != [] && Standing(text, s, data, p) && p.from == |text|
    ensures p.printed == Matching(Lines(text), s)
  {
    NothingBehind(text, s);
    assert p.printed + [] == p.printed;
  }

  // ---- Files it stops on ----

  /** A file of one block, with a newline at the end of every `k` bytes. */
  function Ruled(k: nat): (r: seq<byte>)
    requires k > 0
    ensures |r| == 4096
  {
    seq(4096, i requires 0 <= i => if i % k == k - 1 then NEWLINE else SPACE)
  }

  /** The `k + 1` bytes from `i` on, if there are that many, have a newline among them. */
  predicate BreakNear(t: seq<byte>, i: nat, k: nat) {
    i + k < |t| ==> NEWLINE in t[i..i + k + 1]
  }

  /** No line is longer than `k` bytes if every `k + 1` bytes in a row have a newline among them. */
  lemma {:induction false} LinesWithin(t: seq<byte>, k: nat)
    requires forall i: nat :: BreakNear(t, i, k)
    ensures forall j :: 0 <= j < |Lines(t)| ==> |Lines(t)[j]| <= k
  {
    if t != [] {
      forall i: nat ensures BreakNear(t[1..], i, k) {
        assert BreakNear(t, i + 1, k);
        assert i + k < |t[1..]| ==> t[1..][i..i + k + 1] == t[i + 1..i + 1 + k + 1];
      }
      LinesWithin(t[1..], k);
      FirstWithin(t, k);
      var rest := Lines(t[1..]);
      assert Lines(t) == if t[0] == NEWLINE then [[]] + rest else OnFirst(t[0], rest);
    }
  }

  lemma FirstWithin(t: seq<byte>, k: nat)
    requires BreakNear(t, 0, k)
    ensures |Lines(t)[0]| <= k
  {
    JoinLines(t);
    var first := Lines(t)[0];
    assert first <= Join(Lines(t)) == t;
    assert forall i :: 0 <= i < |first| ==> first[i] == t[i] && first[i] in first;
  }

  /** The rulings that are looked at below. */
  predicate Ruling(k: nat) {
    k == 64 || k == 100
  }

  const ONE_BLOCK: Inode := Inode(4096, seq(1024, i => i))

  /** The block is on a disk with no other: the number behind its last one is not known. */
  lemma RuledFile(k: nat)
    requires Ruling(k)
    ensures var disk := Disk(1, Ruled(k));
            Sound(disk, ONE_BLOCK) && !EndsSafely(disk, ONE_BLOCK) && Contents(disk, ONE_BLOCK) == Ruled(k)
    ensures NUL !in Ruled(k) && forall j :: 0 <= j < |Lines(Ruled(k))| ==> |Lines(Ruled(k))[j]| <= 1023
  {
    var disk := Disk(1, Ruled(k));
    forall i | 0 <= i < 4096 ensures Contents(disk, ONE_BLOCK)[i] == Ruled(k)[i] {
      ContentsAt(disk, ONE_BLOCK, i);
    }
    RuledLines(k);
  }

  lemma RuledLines(k: nat)
    requires Ruling(k)
    ensures forall j :: 0 <= j < |Lines(Ruled(k))| ==> |Lines(Ruled(k))[j]| <= 1023
  {
    forall i: nat ensures BreakNear(Ruled(k), i, 1023) {
      if i + 1023 < 4096 {
        BreakInRow(k, i);
      }
    }
    LinesWithin(Ruled(k), 1023);
  }

  lemma BreakInRow(k: nat, i: nat)
    requires Ruling(k) && i + 1023 < 4096
    ensures NEWLINE in Ruled(k)[i..i + 1024]
  {
    var m := RowEnd(k, i);
    assert Ruled(k)[i..i + 1024][m - i] == Ruled(k)[m];
  }

  /** The end of the row that `i` is in. */
  lemma RowEnd(k: nat, i: nat) returns (m: nat)
    requires Ruling(k)
    ensures i <= m < i + k && m % k == k - 1
  {
    m := if k == 64 then i + (63 - i % 64) else i + (99 - i % 100);
  }

  lemma InsideRow(k: nat, next: nat, i: nat)
    requires Ruling(k) && next % k == 0
    ensures next <= i < next + k - 1 ==> i % k != k - 1
    ensures next > 0 ==> (next - 1) % k == k - 1
  {
    if k == 64 {
      assert next % 64 == 0;
    } else {
      assert next % 100 == 0;
    }
  }

  /** A read from one line start on ends in the line that starts at `next`. */
  lemma RuleAt(k: nat, from: nat, next: nat)
    requires Ruling(k) && from < next <= from + 1024 < 4096 && next % k == 0 && from + 1024 < next + k
    ensures ReadsThrough(Ruled(k), from) == ReadsThrough(Ruled(k), next)
  {
    InsideRow(k, next, next);
    forall i: nat | next <= i < from + 1024 ensures Ruled(k)[i] != NEWLINE {
      InsideRow(k, next, i);
    }
    LineStartIs(Ruled(k), from + 1024, next);
  }

  /** Lines of 64 bytes fill the reads exactly; with lines of 100 bytes the last read goes past the end. */
  lemma Rulings()
    ensures ReadsThrough(Ruled(64), 0) && !ReadsThrough(Ruled(100), 0)
  {
    RuleAt(64, 0, 1024);
    RuleAt(64, 1024, 2048);
    RuleAt(64, 2048, 3072);
    RuleAt(100, 0, 1000);
    RuleAt(100, 1000, 2000);
    RuleAt(100, 2000, 3000);
    RuleAt(100, 3000, 4000);
  }

  /** grep on the files of 100-byte and of 64-byte lines: it stops on the one and gets through the other. */
  method StopsOrNot(s: seq<byte>, fname: seq<byte>) returns (hundred: int, sixtyFour: int)
    requires s != [] && NUL !in s
    ensures hundred == -1 && sixtyFour == 0
  {
    Rulings();
    var out;
    hundred, out := RunOn(100, s, fname);
    sixtyFour, out := RunOn(64, s, fname);
  }

  method RunOn(k: nat, s: seq<byte>, fname: seq<byte>) returns (r: int, out: seq<byte>)
    requires Ruling(k) && s != [] && NUL !in s
    ensures r == 0 || r == -1
    ensures r == 0 <==> ReadsThrough(Ruled(k), 0)
  {
    RuledFile(k);
    var file := new OpenFile(Disk(1, Ruled(k)), ONE_BLOCK);
    var data := new byte[1025](i => NUL);
    r, out := DoOneFile(file, s, fname, data);
  }
}
