/** The formats of printf: what a format puts out, given the words of the stack and the strings in memory. */
module Formats {
  import opened Text
  import opened Numbers

  type Word = w: nat | w < 0x1_0000_0000

  /** What printf finds beside its format: the words above it on the stack, and the string at an address. */
  datatype Env = Env(words: nat -> Word, strings: Word -> seq<byte>)

  const PERCENT: byte := '%'

  /** A 32-bit word read as a signed number. */
  function Signed(w: Word): int {
    if w >= 0x8000_0000 then w - 0x1_0000_0000 else w
  }

  function PaddedHex(w: Word): seq<byte> {
    var digits := Numeral(w, 16);
    if |digits| <= 8 then Repeat('0', 8 - |digits|) + digits else digits
  }

  predicate TakesWord(c: byte) {
    c == 'x' || c == 'u' || c == 'd' || c == 'c' || c == 's'
  }

  /** The text of one conversion; an unknown one, the end of the string included, puts out nothing. */
  function Converted(c: byte, alternate: bool, env: Env, k: nat): seq<byte> {
    var w := env.words(k);
    if c == PERCENT then [PERCENT]
    else if c == 'x' then (if alternate then PaddedHex(w) else Numeral(w, 16))
    else if c == 'u' then Numeral(w, 10)
    else if c == 'd' then SignedNumeral(Signed(w))
    else if c == 'c' then [(w % 0x100) as char]
    else if c == 's' then env.strings(w)
    else []
  }

  /** The first byte from `i` on that is not a `#`. */
  function PastHashes(mem: seq<byte>, i: nat): (j: nat)
    requires i <= |mem|
    ensures i <= j <= |mem| && (j < |mem| ==> mem[j] != '#')
    ensures forall h :: i <= h < j ==> mem[h] == '#'
    decreases |mem| - i
  {
    if i == |mem| || mem[i] != '#' then i else PastHashes(mem, i + 1)
  }

  /** What printf puts out from byte `i` of the format on, `mem` being the memory the format lies in. */
  function Formatted(mem: seq<byte>, i: nat, env: Env, k: nat): seq<byte>
    requires i <= |mem|
    decreases |mem| - i
  {
    if i == |mem| || mem[i] == NUL then []
    else if mem[i] != PERCENT then [mem[i]] + Formatted(mem, i + 1, env, k)
    else
      var j := PastHashes(mem, i + 1);
      if j == |mem| then []
      else
        Converted(mem[j], j > i + 1, env, k) + Formatted(mem, j + 1, env, if TakesWord(mem[j]) then k + 1 else k)
  }

  /** The scan of printf meets a NUL where it looks for one; after a final `%` it looks behind the first. */
  predicate Ends(mem: seq<byte>, i: nat)
    requires i <= |mem|
    decreases |mem| - i
  {
    && i < |mem|
    && (mem[i] == NUL ||
        if mem[i] != PERCENT then Ends(mem, i + 1)
        else var j := PastHashes(mem, i + 1); j < |mem| && Ends(mem, j + 1))
  }

  /** A format without conversions puts itself out, wherever it lies. */
  lemma {:induction false} PlainFormat(text: seq<byte>, beyond: seq<byte>, i: nat, env: Env, k: nat)
    requires i <= |text| && NUL !in text && PERCENT !in text
    ensures Ends(text + [NUL] + beyond, i)
    ensures Formatted(text + [NUL] + beyond, i, env, k) == text[i..]
    decreases |text| - i
  {
    var mem := text + [NUL] + beyond;
    if i < |text| {
      assert mem[i] == text[i] && text[i] in text;
      PlainFormat(text, beyond, i + 1, env, k);
      assert text[i..] == [text[i]] + text[i + 1..];
    } else {
      assert mem[i] == NUL;
    }
  }

  function Percents(s: seq<byte>): nat {
    if s == [] then 0 else (if s[0] == PERCENT then 1 else 0) + Percents(s[1..])
  }

  lemma {:induction false} PercentsConcat(a: seq<byte>, b: seq<byte>)
    ensures Percents(a + b) == Percents(a) + Percents(b)
  {
    if a == [] {
      assert a + b == b;
    } else {
      PercentsConcat(a[1..], b);
      assert (a + b)[1..] == a[1..] + b;
    }
  }

  lemma {:induction false} NoPercents(s: seq<byte>)
    ensures PERCENT !in s <==> Percents(s) == 0
  {
    if s != [] {
      NoPercents(s[1..]);
      assert s == [s[0]] + s[1..];
    }
  }

  /** A stack of zeros, and only empty strings. */
  const ZEROS: Env := Env(_ => 0, _ => [])

  /** With these a conversion puts out a percent sign only for a percent sign. */
  lemma ZeroConverted(c: byte, alternate: bool, k: nat)
    ensures Percents(Converted(c, alternate, ZEROS, k)) == IsPercent(c)
  {
    assert Numeral(0, 16) == "0" && Numeral(0, 10) == "0";
    NoPercents(Converted(c, alternate, ZEROS, k));
  }

  function IsPercent(c: byte): nat {
    if c == PERCENT then 1 else 0
  }

  lemma FirstPercent(mem: seq<byte>, i: nat)
    requires i < |mem|
    ensures Percents(mem[i..]) == IsPercent(mem[i]) + Percents(mem[i + 1..])
  {
    assert mem[i..][1..] == mem[i + 1..];
  }

  lemma {:induction false} HashesPassed(mem: seq<byte>, i: nat)
    requires i <= |mem|
    ensures Percents(mem[i..]) == Percents(mem[PastHashes(mem, i)..])
    decreases |mem| - i
  {
    if i < |mem| && mem[i] == '#' {
      FirstPercent(mem, i);
      HashesPassed(mem, i + 1);
    }
  }

  /** The bytes of one conversion, from its percent sign on, and what follows it. */
  lemma ConversionPercents(mem: seq<byte>, i: nat, j: nat)
    requires i < |mem| && mem[i] == PERCENT && j == PastHashes(mem, i + 1) < |mem|
    ensures Percents(mem[i..]) == 1 + IsPercent(mem[j]) + Percents(mem[j + 1..])
  {
    FirstPercent(mem, i);
    HashesPassed(mem, i + 1);
    FirstPercent(mem, j);
  }

  /** A percent sign stands between byte `i` and the two NULs at the end, and no NUL. */
  ghost predicate SignAhead(mem: seq<byte>, i: nat) {
    i + 2 <= |mem| && NUL !in mem[i..|mem| - 2] && PERCENT in mem[i..|mem| - 2]
  }

  lemma SignFurther(mem: seq<byte>, i: nat)
    requires i < |mem| && mem[i] != PERCENT && SignAhead(mem, i)
    ensures SignAhead(mem, i + 1)
  {
    assert mem[i..|mem| - 2] == [mem[i]] + mem[i + 1..|mem| - 2];
  }

  /** What is put out from byte `i` on has no more percent signs than the format, and fewer if one is ahead. */
  ghost predicate Fewer(mem: seq<byte>, i: nat, k: nat)
    requires i <= |mem|
  {
    && Ends(mem, i)
    && Percents(Formatted(mem, i, ZEROS, k)) <= Percents(mem[i..])
    && (SignAhead(mem, i) ==> Percents(Formatted(mem, i, ZEROS, k)) < Percents(mem[i..]))
  }

  lemma FewerByByte(mem: seq<byte>, i: nat, k: nat)
    requires i < |mem| && mem[i] != PERCENT && mem[i] != NUL && Fewer(mem, i + 1, k)
    ensures Fewer(mem, i, k)
  {
    if SignAhead(mem, i) {
      SignFurther(mem, i);
    }
    OneByte(mem, i, k);
  }

  lemma FewerByConversion(mem: seq<byte>, i: nat, k: nat)
    requires i < |mem| && mem[i] == PERCENT && PastHashes(mem, i + 1) < |mem|
    requires var j := PastHashes(mem, i + 1); Fewer(mem, j + 1, if TakesWord(mem[j]) then k + 1 else k)
    ensures Fewer(mem, i, k)
  {
    OneConversion(mem, i, PastHashes(mem, i + 1), k);
  }

  /** Before two NULs: a format with percent signs puts out fewer of them. */
  lemma {:induction false} FewerPercents(mem: seq<byte>, i: nat, k: nat)
    requires |mem| >= 2 && i < |mem| && mem[|mem| - 2] == mem[|mem| - 1] == NUL
    ensures Fewer(mem, i, k)
    decreases |mem| - i
  {
    if mem[i] == NUL {
      NulFirst(mem, i);
    } else if mem[i] != PERCENT {
      FewerPercents(mem, i + 1, k);
      FewerByByte(mem, i, k);
    } else {
      var j := PastHashes(mem, i + 1);
      assert j <= |mem| - 2;
      FewerPercents(mem, j + 1, if TakesWord(mem[j]) then k + 1 else k);
      FewerByConversion(mem, i, k);
    }
  }

  lemma OneByte(mem: seq<byte>, i: nat, k: nat)
    requires i < |mem| && mem[i] != PERCENT && mem[i] != NUL
    ensures Percents(mem[i..]) == Percents(mem[i + 1..])
    ensures Percents(Formatted(mem, i, ZEROS, k)) == Percents(Formatted(mem, i + 1, ZEROS, k))
  {
    FirstPercent(mem, i);
    FirstPercent(Formatted(mem, i, ZEROS, k), 0);
    assert Formatted(mem, i, ZEROS, k)[1..] == Formatted(mem, i + 1, ZEROS, k);
    assert Formatted(mem, i, ZEROS, k)[0..] == Formatted(mem, i, ZEROS, k);
  }

  lemma OneConversion(mem: seq<byte>, i: nat, j: nat, k: nat)
    requires i < |mem| && mem[i] == PERCENT && j == PastHashes(mem, i + 1) < |mem|
    ensures var rest := Formatted(mem, j + 1, ZEROS, if TakesWord(mem[j]) then k + 1 else k);
            Percents(rest) <= Percents(mem[j + 1..]) ==> Percents(Formatted(mem, i, ZEROS, k)) < Percents(mem[i..])
  {
    var rest := Formatted(mem, j + 1, ZEROS, if TakesWord(mem[j]) then k + 1 else k);
    var text := Converted(mem[j], j > i + 1, ZEROS, k);
    assert Formatted(mem, i, ZEROS, k) == text + rest;
    ConversionPercents(mem, i, j);
    ZeroConverted(mem[j], j > i + 1, k);
    PercentsConcat(text, rest);
  }

  lemma NulFirst(mem: seq<byte>, i: nat)
    requires |mem| >= 2 && i < |mem| && mem[i] == NUL
    ensures i < |mem| - 2 ==> NUL in mem[i..|mem| - 2]
  {
    assert i < |mem| - 2 ==> mem[i..|mem| - 2][0] == NUL;
  }

  /**
   A text is put out as it is, whatever lies behind it, on the stack and in memory, if and only if no
   percent sign is in it.
   */
  lemma PlainIff(text: seq<byte>)
    requires NUL !in text
    ensures PERCENT !in text <==>
            forall beyond, env | Ends(text + [NUL] + beyond, 0) :: Formatted(text + [NUL] + beyond, 0, env, 0) == text
  {
    if PERCENT !in text {
      forall beyond, env | Ends(text + [NUL] + beyond, 0) ensures Formatted(text + [NUL] + beyond, 0, env, 0) == text {
        PlainFormat(text, beyond, 0, env, 0);
        assert text[0..] == text;
      }
    } else {
      ShowsLess(text);
    }
  }

  /** With zeros on the stack and NULs behind it, a text with percent signs is not put out as it is. */
  lemma ShowsLess(text: seq<byte>)
    requires NUL !in text && PERCENT in text
    ensures Ends(text + [NUL] + [NUL], 0) && Formatted(text + [NUL] + [NUL], 0, ZEROS, 0) != text
  {
    var mem, ends := text + [NUL] + [NUL], [NUL, NUL];
    assert mem == text + ends && |mem| == |text| + 2 && mem[|text|] == mem[|text| + 1] == NUL;
    assert mem[0..|mem| - 2] == text;
    assert mem[0..] == mem;
    assert SignAhead(mem, 0);
    FewerPercents(mem, 0, 0);
    assert Percents(mem) == Percents(text) by {
      PercentsConcat(text, ends);
      NoPercents(ends);
    }
  }

  /** A doubled percent sign puts out one. */
  lemma PercentPercent(env: Env)
    ensures Ends("%%\0", 0) && Formatted("%%\0", 0, env, 0) == "%"
  {
    assert PastHashes("%%\0", 1) == 1;
    assert Formatted("%%\0", 2, env, 0) == [];
  }

  // ---- What the conversions mean ----

  /** The parts of a format: text as it stands, and the conversions printf knows. */
  datatype Item = Plain(text: seq<byte>) | Sign | Hex | Hex8 | Unsigned | Decimal | Character | Str {
    predicate Valid() {
      Plain? ==> NUL !in text && PERCENT !in text
    }

    /** The letter of a conversion. */
    function Letter(): byte {
      match this
      case Hex => 'x'
      case Hex8 => 'x'
      case Unsigned => 'u'
      case Decimal => 'd'
      case Character => 'c'
      case Str => 's'
      case _ => '%'
    }

    function Length(): nat {
      if Plain? then |text| else if Hex8? then 3 else 2
    }

    /** As the format has it. */
    function Spelled(): (s: seq<byte>)
      ensures |s| == Length()
    {
      if Plain? then text else if Hex8? then ['%', '#', Letter()] else ['%', Letter()]
    }

    /** How many words of the stack it uses up. */
    function Uses(): nat {
      if Plain? || Sign? then 0 else 1
    }

    /** `out` is what it should put out for this word, the string at that address being `text`. */
    ghost predicate Says(w: Word, at: seq<byte>, out: seq<byte>) {
      match this
      case Plain(text) => out == text
      case Sign => out == "%"
      case Hex => IsNumeral(out, 16) && NoLeadingZero(out) && Value(out, 16) == w
      case Hex8 => IsNumeral(out, 16) && |out| == 8 && Value(out, 16) == w
      case Unsigned => IsNumeral(out, 10) && NoLeadingZero(out) && Value(out, 10) == w
      case Decimal =>
        && out != []
        && (if out[0] == '-' then IsNumeral(out[1..], 10) && NoLeadingZero(out[1..]) && SignedValue(out) < 0
            else IsNumeral(out, 10) && NoLeadingZero(out))
        && -0x8000_0000 <= SignedValue(out) < 0x8000_0000 && SignedValue(out) % 0x1_0000_0000 == w
      case Character => |out| == 1 && out[0] as nat == w % 0x100
      case Str => out == at
    }
  }

  ghost predicate AllValid(items: seq<Item>) {
    forall i :: 0 <= i < |items| ==> items[i].Valid()
  }

  function Spelling(items: seq<Item>): seq<byte> {
    if items == [] then [] else items[0].Spelled() + Spelling(items[1..])
  }

  /** The words the first `n` items use up. */
  function UsedBy(items: seq<Item>, n: nat): nat
    requires n <= |items|
  {
    if n == 0 then 0 else UsedBy(items, n - 1) + items[n - 1].Uses()
  }

  lemma {:induction false} UsedInTail(items: seq<Item>, n: nat)
    requires 1 <= n <= |items|
    ensures UsedBy(items, n) == items[0].Uses() + UsedBy(items[1..], n - 1)
  {
    if n > 1 {
      UsedInTail(items, n - 1);
    }
  }

  function Concat(pieces: seq<seq<byte>>): seq<byte> {
    if pieces == [] then [] else pieces[0] + Concat(pieces[1..])
  }

  /** The i-th item says this for its own word, which comes behind those used before it, from word `k` on. */
  ghost predicate SaysAt(items: seq<Item>, env: Env, k: nat, i: nat, out: seq<byte>)
    requires i < |items|
  {
    var w := env.words(k + UsedBy(items, i));
    items[i].Says(w, env.strings(w), out)
  }

  /** One piece for each item. */
  ghost predicate Shows(items: seq<Item>, env: Env, k: nat, pieces: seq<seq<byte>>) {
    |pieces| == |items| && forall i :: 0 <= i < |items| ==> SaysAt(items, env, k, i, pieces[i])
  }

  lemma ConvertedSays(item: Item, env: Env, k: nat)
    requires !item.Plain?
    ensures var w := env.words(k); item.Says(w, env.strings(w), Converted(item.Letter(), item.Hex8?, env, k))
  {
    var w := env.words(k);
    match item
    case Hex => NumeralReadsBack(w, 16);
    case Hex8 =>
      WordPowers();
      NumeralLength(w, 16, 16, 8);
      PaddedReadsBack(w);
    case Unsigned => NumeralReadsBack(w, 10);
    case Decimal => SignedSays(w);
    case _ =>
  }

  lemma SignedBounds(w: Word)
    ensures -0x8000_0000 <= Signed(w) < 0x8000_0000 && Signed(w) % 0x1_0000_0000 == w
  {
  }

  lemma SignedSays(w: Word)
    ensures Decimal.Says(w, [], SignedNumeral(Signed(w)))
  {
    var v, out := Signed(w), SignedNumeral(Signed(w));
    SignedBounds(w);
    SignedReadsBack(v);
    if v < 0 {
      NumeralReadsBack(-v, 10);
      assert out[1..] == Numeral(-v, 10);
    } else {
      NumeralReadsBack(v, 10);
      assert out[0] in out;
    }
    assert SignedValue(out) == v;
  }

  /** Text without percent signs in front of the rest of a format. */
  lemma {:induction false} TextFirst(mem: seq<byte>, i: nat, n: nat, env: Env, k: nat)
    requires i + n <= |mem| && forall h :: i <= h < i + n ==> mem[h] != NUL && mem[h] != PERCENT
    ensures Formatted(mem, i, env, k) == mem[i..i + n] + Formatted(mem, i + n, env, k)
    ensures Ends(mem, i + n) ==> Ends(mem, i)
    decreases n
  {
    if n > 0 {
      TextFirst(mem, i + 1, n - 1, env, k);
      assert mem[i..i + n] == [mem[i]] + mem[i + 1..i + n];
    } else {
      assert mem[i..i + n] == [];
    }
  }

  function PieceOf(item: Item, env: Env, k: nat): seq<byte> {
    if item.Plain? then item.text
    else Converted(item.Letter(), item.Hex8?, env, k)
  }

  function PiecesOf(items: seq<Item>, env: Env, k: nat): seq<seq<byte>> {
    if items == [] then [] else [PieceOf(items[0], env, k)] + PiecesOf(items[1..], env, k + items[0].Uses())
  }

  /** An item stands at byte `i` of memory. */
  ghost predicate StandsAt(mem: seq<byte>, i: nat, item: Item) {
    && i + item.Length() <= |mem|
    && if item.Plain? then forall h :: i <= h < i + |item.text| ==> mem[h] == item.text[h - i]
       else mem[i] == PERCENT && mem[i + item.Length() - 1] == item.Letter() && (item.Hex8? ==> mem[i + 1] == '#')
  }

  /** The items stand one behind the other from byte `i` on, and a NUL behind them. */
  ghost predicate Stand(mem: seq<byte>, i: nat, items: seq<Item>)
    decreases |items|
  {
    if items == [] then i < |mem| && mem[i] == NUL
    else StandsAt(mem, i, items[0]) && Stand(mem, i + items[0].Length(), items[1..])
  }

  /** One item in front of the rest of a format. */
  lemma ItemFirst(mem: seq<byte>, i: nat, item: Item, env: Env, k: nat)
    requires item.Valid() && StandsAt(mem, i, item)
    ensures Formatted(mem, i, env, k) == PieceOf(item, env, k) + Formatted(mem, i + item.Length(), env, k + item.Uses())
    ensures Ends(mem, i + item.Length()) ==> Ends(mem, i)
  {
    if item.Plain? {
      TextFirst(mem, i, item.Length(), env, k);
      assert mem[i..i + item.Length()] == item.text;
    } else {
      assert item.Hex8? ==> PastHashes(mem, i + 2) == i + 2;
      assert PastHashes(mem, i + 1) == i + item.Length() - 1;
    }
  }

  lemma FirstPiece(items: seq<Item>, env: Env, k: nat)
    requires items != []
    ensures Concat(PiecesOf(items, env, k)) ==
            PieceOf(items[0], env, k) + Concat(PiecesOf(items[1..], env, k + items[0].Uses()))
  {
    var more := PiecesOf(items[1..], env, k + items[0].Uses());
    assert ([PieceOf(items[0], env, k)] + more)[1..] == more;
  }

  lemma {:induction false} ItemsFrom(mem: seq<byte>, i: nat, items: seq<Item>, env: Env, k: nat)
    requires AllValid(items) && Stand(mem, i, items)
    ensures i <= |mem| && Ends(mem, i) && Formatted(mem, i, env, k) == Concat(PiecesOf(items, env, k))
    decreases |items|
  {
    if items != [] {
      ItemsFrom(mem, i + items[0].Length(), items[1..], env, k + items[0].Uses());
      ItemFirst(mem, i, items[0], env, k);
      FirstPiece(items, env, k);
    }
  }

  lemma ItemStands(front: seq<byte>, item: Item, rest: seq<byte>)
    ensures StandsAt(front + item.Spelled() + rest, |front|, item)
  {
  }

  lemma Associated(a: seq<byte>, b: seq<byte>, c: seq<byte>, d: seq<byte>)
    ensures a + (b + c) + d == a + b + (c + d) == a + b + c + d
  {
  }

  /** A format in memory stands there item by item. */
  lemma {:induction false} SpellingStands(front: seq<byte>, items: seq<Item>, beyond: seq<byte>)
    ensures Stand(front + Spelling(items) + ([NUL] + beyond), |front|, items)
    decreases |items|
  {
    if items != [] {
      var s, rest := items[0].Spelled(), Spelling(items[1..]);
      Associated(front, s, rest, [NUL] + beyond);
      ItemStands(front, items[0], rest + ([NUL] + beyond));
      SpellingStands(front + s, items[1..], beyond);
    }
  }

  lemma {:induction false} PiecesShow(items: seq<Item>, env: Env, k: nat)
    ensures Shows(items, env, k, PiecesOf(items, env, k))
  {
    if items != [] {
      PiecesShow(items[1..], env, k + items[0].Uses());
      if !items[0].Plain? {
        ConvertedSays(items[0], env, k);
      }
      TailShows(items, env, k, PieceOf(items[0], env, k), PiecesOf(items[1..], env, k + items[0].Uses()));
    }
  }

  /** The i-th item of a format is an item of its tail, and there takes the same word. */
  lemma SaidInTail(items: seq<Item>, env: Env, k: nat, i: nat, out: seq<byte>)
    requires 1 <= i < |items| && SaysAt(items[1..], env, k + items[0].Uses(), i - 1, out)
    ensures SaysAt(items, env, k, i, out)
  {
    UsedInTail(items, i);
    assert items[1..][i - 1] == items[i];
    assert k + items[0].Uses() + UsedBy(items[1..], i - 1) == k + UsedBy(items, i);
  }

  lemma TailShows(items: seq<Item>, env: Env, k: nat, piece: seq<byte>, more: seq<seq<byte>>)
    requires items != [] && Shows(items[1..], env, k + items[0].Uses(), more)
    requires SaysAt(items, env, k, 0, piece)
    ensures Shows(items, env, k, [piece] + more)
  {
    var pieces := [piece] + more;
    forall i | 0 <= i < |items| ensures SaysAt(items, env, k, i, pieces[i]) {
      if i > 0 {
        SaidInTail(items, env, k, i, more[i - 1]);
      }
    }
  }

  /**
   printf of any format made of text and the conversions it knows puts out, item by item: the text; for
   `%x`, `%u` and `%d` a numeral that reads back as its word in radix 16, radix 10 and as a signed number;
   for `%#x` eight hexadecimal digits; for `%c` the low byte; for `%s` the string, each item taking the
   next word of the stack.
   */
  lemma PrintsItems(items: seq<Item>, beyond: seq<byte>, env: Env) returns (pieces: seq<seq<byte>>)
    requires AllValid(items)
    ensures var mem := Spelling(items) + [NUL] + beyond; Ends(mem, 0) && Formatted(mem, 0, env, 0) == Concat(pieces)
    ensures Shows(items, env, 0, pieces)
  {
    var mem := Spelling(items) + [NUL] + beyond;
    SpellingStands([], items, beyond);
    assert [] + Spelling(items) + ([NUL] + beyond) == mem;
    ItemsFrom(mem, 0, items, env, 0);
    PiecesShow(items, env, 0);
    pieces := PiecesOf(items, env, 0);
  }

  /** One conversion, through itoa where it is a number. */
  method Convert(c: byte, alternate: bool, env: Env, k: nat) returns (text: seq<byte>)
    ensures text == Converted(c, alternate, env, k)
  {
    var w := env.words(k);
    match c {
      case '%' => text := [PERCENT];
      case 'x' =>
        if alternate {
          text := PrintHexPadded(w);
        } else {
          text := PrintUnsigned(w, 16);
        }
      case 'u' => text := PrintUnsigned(w, 10);
      case 'd' => text := PrintSigned(Signed(w));
      case 'c' => text := [(w % 0x100) as char];
      case 's' => text := env.strings(w);
      case _ => text := [];
    }
  }
}
