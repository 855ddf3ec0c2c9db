/** Printing numbers: itoa with its in-place reversal, and the numeric conversions of printf. */
module Numbers {
  import opened Text

  // ---- Reading a numeral ----

  function DigitValue(c: byte): (d: int) {
    if '0' <= c <= '9' then c as int - '0' as int
    else if 'A' <= c <= 'Z' then c as int - 'A' as int + 10
    else -1
  }

  /** `s` is a string of digits of the given radix. */
  predicate IsNumeral(s: seq<byte>, radix: nat) {
    s != [] && forall i :: 0 <= i < |s| ==> 0 <= DigitValue(s[i]) < radix
  }

  function Value(s: seq<byte>, radix: nat): int {
    if s == [] then 0 else Value(s[..|s| - 1], radix) * radix + DigitValue(s[|s| - 1])
  }

  predicate NoLeadingZero(s: seq<byte>) {
    |s| > 1 ==> s[0] != '0'
  }

  // ---- Writing one ----

  /** Entry `d` of the digit table, which runs through 0-9 and A-Z. */
  function Digit(d: nat): (c: byte)
    requires d < 36
    ensures DigitValue(c) == d
    ensures c != NUL && c != '-' && (c == '0' ==> d == 0)
  {
    if d < 10 then ('0' as int + d) as char else ('A' as int + d - 10) as char
  }

  /** What itoa leaves in the buffer: the digits from the most significant down. */
  function Numeral(value: nat, radix: nat): (s: seq<byte>)
    requires 2 <= radix <= 36
    ensures s != []
  {
    if value < radix then [Digit(value)] else Numeral(value / radix, radix) + [Digit(value % radix)]
  }

  lemma QuotientRemainder(value: nat, radix: nat)
    requires radix >= 2
    ensures value == value / radix * radix + value % radix
    ensures 0 <= value / radix && (value > 0 ==> value / radix < value)
    ensures value >= radix ==> value / radix > 0
  {
  }

  /** Reading back what was written gives the value; there is no leading zero, nor any byte but digits. */
  lemma {:induction false} NumeralReadsBack(value: nat, radix: nat)
    requires 2 <= radix <= 36
    ensures IsNumeral(Numeral(value, radix), radix)
    ensures Value(Numeral(value, radix), radix) == value
    ensures NoLeadingZero(Numeral(value, radix))
    ensures value > 0 ==> Numeral(value, radix)[0] != '0'
    ensures NUL !in Numeral(value, radix) && '-' !in Numeral(value, radix)
  {
    var s := Numeral(value, radix);
    if value < radix {
      assert s[..0] == [];
    } else {
      QuotientRemainder(value, radix);
      NumeralReadsBack(value / radix, radix);
      assert s[..|s| - 1] == Numeral(value / radix, radix);
    }
  }

  /** A value below base^k has at most k digits in any radix not below the base. */
  lemma {:induction false} NumeralLength(value: nat, radix: nat, base: nat, k: nat)
    requires 2 <= base <= radix <= 36 && k >= 1
    requires value < Power(base, k)
    ensures |Numeral(value, radix)| <= k
    decreases k
  {
    if value >= radix {
      QuotientRemainder(value, radix);
      PowerOne(base);
      QuotientBelow(value, base, Power(base, k - 1));
      QuotientSmaller(value, base, radix);
      NumeralLength(value / radix, radix, base, k - 1);
      assert Numeral(value, radix) == Numeral(value / radix, radix) + [Digit(value % radix)];
    }
  }

  lemma QuotientBelow(value: nat, base: nat, p: nat)
    requires base > 0 && value < base * p
    ensures value / base < p
  {
  }

  lemma {:induction false} QuotientSmaller(value: nat, base: nat, radix: nat)
    requires 0 < base <= radix
    ensures value / radix <= value / base
  {
    var q := value / radix;
    assert base * q <= radix * q <= value;
    QuotientAtLeast(value, base, q);
  }

  lemma {:induction false} QuotientAtLeast(value: nat, base: nat, q: nat)
    requires base > 0 && base * q <= value
    ensures q <= value / base
  {
    if q >= value / base + 1 {
      MulMonotone(base, value / base + 1, q);
      assert false;
    }
  }

  lemma MulMonotone(b: nat, x: nat, y: nat)
    requires x <= y
    ensures b * x <= b * y
  {
  }

  function Power(b: nat, k: nat): nat {
    if k == 0 then 1 else b * Power(b, k - 1)
  }

  lemma PowerOne(b: nat)
    ensures Power(b, 1) == b
  {
    assert Power(b, 0) == 1;
  }

  lemma WordPowers()
    ensures Power(2, 32) == 0x1_0000_0000 && Power(16, 8) == 0x1_0000_0000
  {
    assert Power(16, 4) == 0x1_0000;
    assert Power(2, 8) == 0x100;
    assert Power(2, 16) == 0x1_0000;
    assert Power(2, 24) == 0x100_0000;
  }

  // ---- C strings in a buffer ----

  /** The position of the first NUL at or after `at`, or the length of the buffer. */
  function StringEnd(buf: seq<byte>, at: nat): (e: nat)
    requires at <= |buf|
    ensures at <= e <= |buf| && (e < |buf| ==> buf[e] == NUL)
    ensures forall i :: at <= i < e ==> buf[i] != NUL
    decreases |buf| - at
  {
    if at == |buf| || buf[at] == NUL then at else StringEnd(buf, at + 1)
  }

  /** The NUL-terminated string that starts at `at`. */
  function CString(buf: seq<byte>, at: nat): seq<byte>
    requires at <= |buf|
  {
    buf[at..StringEnd(buf, at)]
  }

  /** Bytes other than NUL followed by a NUL are a string. */
  lemma CStringIs(buf: seq<byte>, at: nat, s: seq<byte>)
    requires at + |s| < |buf|
    requires buf[at..at + |s|] == s && NUL !in s && buf[at + |s|] == NUL
    ensures CString(buf, at) == s && StringEnd(buf, at) == at + |s|
  {
    assert forall i :: at <= i < at + |s| ==> buf[i] == s[i - at];
    EndIs(buf, at, at + |s|);
  }

  lemma EndIs(buf: seq<byte>, at: nat, e: nat)
    requires at <= e < |buf| && buf[e] == NUL
    requires forall i :: at <= i < e ==> buf[i] != NUL
    ensures StringEnd(buf, at) == e
    decreases e - at
  {
  }

  method Strlen(buf: array<byte>, at: nat) returns (len: nat)
    requires at <= buf.Length && StringEnd(buf[..], at) < buf.Length
    ensures len == |CString(buf[..], at)|
  {
    len := 0;
    while buf[at + len] != NUL
      invariant at + len <= StringEnd(buf[..], at)
      decreases buf.Length - len
    {
      len := len + 1;
    }
  }

  function Reversed(s: seq<byte>): (r: seq<byte>)
    ensures |r| == |s|
    ensures forall i :: 0 <= i < |s| ==> r[i] == s[|s| - 1 - i]
  {
    seq(|s|, i requires 0 <= i < |s| => s[|s| - 1 - i])
  }

  lemma ReversedIs(s: seq<byte>, r: seq<byte>)
    requires |r| == |s| && forall i :: 0 <= i < |s| ==> r[i] == s[|s| - 1 - i]
    ensures r == Reversed(s)
  {
  }

  /** The swap loop of strrev, on the `len` bytes from `at` on. */
  method SwapEnds(buf: array<byte>, at: nat, len: nat)
    requires at + len <= buf.Length
    modifies buf
    ensures forall i :: 0 <= i < buf.Length ==>
              buf[i] == if at <= i < at + len then old(buf[2 * at + len - 1 - i]) else old(buf[i])
  {
    var beg, end: int := 0, len as int - 1;
    while beg < end
      invariant 0 <= beg <= end + 1 && end == len - 1 - beg
      invariant forall i :: 0 <= i < buf.Length ==>
                  buf[i] == if at <= i < at + beg || at + end < i < at + len then old(buf[2 * at + len - 1 - i]) else old(buf[i])
    {
      var tmp := buf[at + end];
      buf[at + end] := buf[at + beg];
      buf[at + beg] := tmp;
      beg := beg + 1;
      end := end - 1;
    }
  }

  /** strrev: the string is reversed where it lies and nothing outside it changes. */
  method Strrev(buf: array<byte>, at: nat)
    requires at <= buf.Length && StringEnd(buf[..], at) < buf.Length
    modifies buf
    ensures CString(buf[..], at) == Reversed(old(CString(buf[..], at)))
    ensures StringEnd(buf[..], at) == old(StringEnd(buf[..], at))
    ensures forall i :: 0 <= i < buf.Length && !(at <= i < old(StringEnd(buf[..], at))) ==> buf[i] == old(buf[i])
  {
    ghost var was := buf[..];
    var len := Strlen(buf, at);
    SwapEnds(buf, at, len);
    StringReversed(was, buf[..], at, len);
  }

  /** A string whose bytes have changed places end for end is still a string of the same length. */
  lemma StringReversed(was: seq<byte>, now: seq<byte>, at: nat, len: nat)
    requires |was| == |now| && at <= |was| && at + len == StringEnd(was, at) < |was|
    requires forall i :: at <= i < at + len ==> now[i] == was[2 * at + len - 1 - i]
    requires forall i :: 0 <= i < |was| && !(at <= i < at + len) ==> now[i] == was[i]
    ensures StringEnd(now, at) == at + len
    ensures CString(now, at) == Reversed(CString(was, at))
  {
    assert now[at + len] == was[at + len];
    forall i | at <= i < at + len ensures now[i] == was[2 * at + len - 1 - i] && now[i] != NUL {
    }
    EndIs(now, at, at + len);
    ReversedIs(was[at..at + len], now[at..at + len]);
  }

  lemma ReversedTwice(s: seq<byte>)
    ensures Reversed(Reversed(s)) == s
  {
  }

  lemma SmallQuotient(value: nat, radix: nat)
    requires value < radix
    ensures value / radix == 0 && value % radix == value
  {
  }

  /** Division by the radix takes the last digit off. */
  lemma LastDigit(value: nat, radix: nat)
    requires 2 <= radix <= 36 && value > 0
    ensures var s := Numeral(value, radix); var q := value / radix;
            && q < value && s[|s| - 1] == Digit(value % radix)
            && if q == 0 then |s| == 1 else Numeral(q, radix) == s[..|s| - 1]
  {
    if value < radix {
      SmallQuotient(value, radix);
    } else {
      QuotientRemainder(value, radix);
    }
  }

  /** The division loop of itoa: the digits from the least significant up, and a NUL. */
  method WriteDigits(value: nat, buf: array<byte>, at: nat, radix: nat) returns (p: nat)
    requires 2 <= radix <= 36 && value > 0 && at + |Numeral(value, radix)| < buf.Length
    modifies buf
    ensures p == at + |Numeral(value, radix)|
    ensures forall i :: 0 <= i < buf.Length ==>
              buf[i] == if at <= i < p then Numeral(value, radix)[p - 1 - i] else if i == p then NUL else old(buf[i])
  {
    ghost var digits := Numeral(value, radix);
    ghost var n := |digits|;
    p := at;
    var newval: nat := value;
    while newval > 0
      invariant at <= p <= at + n
      invariant if newval > 0 then Numeral(newval, radix) == digits[..at + n - p] else p == at + n
      invariant forall i :: 0 <= i < buf.Length ==>
                  buf[i] == if at <= i < p then digits[at + n - 1 - i] else old(buf[i])
      decreases newval
    {
      LastDigit(newval, radix);
      var i := newval % radix;
      buf[p] := Digit(i);
      p := p + 1;
      newval := newval / radix;
    }
    buf[p] := NUL;
  }

  /** itoa writes the numeral of any 32-bit value, in any radix from 2 to 36, within 33 bytes. */
  method Itoa(value: nat, buf: array<byte>, at: nat, radix: nat)
    requires value < 0x1_0000_0000 && 2 <= radix <= 36
    requires at + 33 <= buf.Length
    modifies buf
    ensures StringEnd(buf[..], at) < at + 33
    ensures CString(buf[..], at) == Numeral(value, radix)
    ensures forall i :: 0 <= i < buf.Length && !(at <= i < at + 33) ==> buf[i] == old(buf[i])
  {
    if value == 0 {
      buf[at] := '0';
      buf[at + 1] := NUL;
      CStringIs(buf[..], at, "0");
      return;
    }
    NumeralFits(value, radix);
    WriteBackwards(value, buf, at, radix);
    Strrev(buf, at);
    ReversedTwice(Numeral(value, radix));
  }

  /** A 32-bit value has at most 32 digits. */
  lemma NumeralFits(value: nat, radix: nat)
    requires value < 0x1_0000_0000 && 2 <= radix <= 36
    ensures |Numeral(value, radix)| <= 32
  {
    WordPowers();
    NumeralLength(value, radix, 2, 32);
  }

  /** The digits as the division loop leaves them, as a string. */
  method WriteBackwards(value: nat, buf: array<byte>, at: nat, radix: nat)
    requires 2 <= radix <= 36 && value > 0 && at + |Numeral(value, radix)| < buf.Length
    modifies buf
    ensures StringEnd(buf[..], at) == at + |Numeral(value, radix)|
    ensures CString(buf[..], at) == Reversed(Numeral(value, radix))
    ensures forall i :: 0 <= i < buf.Length && !(at <= i <= at + |Numeral(value, radix)|) ==> buf[i] == old(buf[i])
  {
    ghost var digits := Numeral(value, radix);
    var p := WriteDigits(value, buf, at, radix);
    NumeralReadsBack(value, radix);
    NulFreeReversed(digits);
    assert buf[at..p] == Reversed(digits);
    CStringIs(buf[..], at, Reversed(digits));
  }

  lemma NulFreeReversed(s: seq<byte>)
    ensures NUL !in s <==> NUL !in Reversed(s)
  {
    forall i | 0 <= i < |s| ensures s[i] == Reversed(s)[|s| - 1 - i] && s[i] in Reversed(s) {
    }
  }

  // ---- printf's numeric conversions ----

  /** `%#x` before puts: the numeral behind byte 8, and zeros from the end of its length up to byte 8. */
  method PadHex(value: nat, conv: array<byte>) returns (start: nat)
    requires value < 0x1_0000_0000 && conv.Length == 64
    modifies conv
    ensures start <= 8 && start == |Numeral(value, 16)|
    ensures conv[start..start + 8] == Repeat('0', 8 - start) + Numeral(value, 16)
    ensures conv[8 + start] == NUL
  {
    Itoa(value, conv, 8, 16);
    ghost var printed := conv[..];
    start := Strlen(conv, 8);
    WordPowers();
    NumeralLength(value, 16, 16, 8);
    var i := start;
    while i < 8
      invariant start <= i <= 8
      invariant forall j :: start <= j < i ==> conv[j] == '0'
      invariant forall j :: 8 <= j < 64 ==> conv[j] == printed[j]
    {
      conv[i] := '0';
      i := i + 1;
    }
    PaddedBuffer(printed, conv[..], start, Numeral(value, 16));
  }

  /** `%#x`: the text handed to puts. */
  method PrintHexPadded(value: nat) returns (text: seq<byte>)
    requires value < 0x1_0000_0000
    ensures |Numeral(value, 16)| <= 8 && text == Repeat('0', 8 - |Numeral(value, 16)|) + Numeral(value, 16)
  {
    var conv := new byte[64];
    var start := PadHex(value, conv);
    ghost var digits := Numeral(value, 16);
    NumeralReadsBack(value, 16);
    CStringIs(conv[..], start, Repeat('0', 8 - start) + digits);
    var len := Strlen(conv, start);
    text := conv[start..start + len];
  }

  /** It is always 8 digits, and reads back as the value. */
  lemma PaddedReadsBack(value: nat)
    requires |Numeral(value, 16)| <= 8
    ensures var text := Repeat('0', 8 - |Numeral(value, 16)|) + Numeral(value, 16);
            |text| == 8 && IsNumeral(text, 16) && Value(text, 16) == value
  {
    NumeralReadsBack(value, 16);
    LeadingZeros(8 - |Numeral(value, 16)|, Numeral(value, 16), 16);
  }

  /** `%x` without the modifier, and `%u`. */
  method PrintUnsigned(value: nat, radix: nat) returns (text: seq<byte>)
    requires value < 0x1_0000_0000 && (radix == 16 || radix == 10)
    ensures text == Numeral(value, radix)
  {
    var conv := new byte[36];
    Itoa(value, conv, 0, radix);
    var len := Strlen(conv, 0);
    text := conv[..len];
    assert text == CString(conv[..], 0);
  }

  /** The digits end up right behind the zeros that fill the first eight bytes. */
  lemma PaddedBuffer(printed: seq<byte>, conv: seq<byte>, start: nat, digits: seq<byte>)
    requires |printed| == |conv| == 64 && start <= 8
    requires digits == printed[8..8 + start]
    requires forall j :: start <= j < 8 ==> conv[j] == '0'
    requires forall j :: 8 <= j < 64 ==> conv[j] == printed[j]
    ensures conv[start..start + 8] == Repeat('0', 8 - start) + digits
  {
  }

  lemma {:induction false} LeadingZeros(n: nat, s: seq<byte>, radix: nat)
    requires IsNumeral(s, radix)
    ensures IsNumeral(Repeat('0', n) + s, radix)
    ensures Value(Repeat('0', n) + s, radix) == Value(s, radix)
    decreases |s|
  {
    var all := Repeat('0', n) + s;
    assert 0 <= DigitValue(s[0]) < radix;
    assert all[..|all| - 1] == Repeat('0', n) + s[..|s| - 1];
    if |s| == 1 {
      assert Repeat('0', n) + [] == Repeat('0', n);
      ZerosValue(n, radix);
      assert s[..0] == [];
    } else {
      LeadingZeros(n, s[..|s| - 1], radix);
    }
  }

  lemma {:induction false} ZerosValue(n: nat, radix: nat)
    ensures Value(Repeat('0', n), radix) == 0
  {
    if n > 0 {
      assert Repeat('0', n)[..n - 1] == Repeat('0', n - 1);
      ZerosValue(n - 1, radix);
    }
  }

  /** Reading a signed decimal. */
  function SignedValue(s: seq<byte>): int {
    if s != [] && s[0] == '-' then -Value(s[1..], 10) else Value(s, 10)
  }

  function SignedNumeral(value: int): (text: seq<byte>) {
    if value < 0 then ['-'] + Numeral(-value, 10) else Numeral(value, 10)
  }

  /** `%d`: reads back as the value. */
  lemma SignedReadsBack(value: int)
    ensures var text := SignedNumeral(value);
            && SignedValue(text) == value
            && if value < 0 then text != [] && text[0] == '-' && IsNumeral(text[1..], 10) else IsNumeral(text, 10)
  {
    if value < 0 {
      NumeralReadsBack(-value, 10);
      assert SignedNumeral(value)[1..] == Numeral(-value, 10);
    } else {
      NumeralReadsBack(value, 10);
      assert SignedNumeral(value)[0] in SignedNumeral(value);
    }
  }

  /** `%d`, for every 32-bit value including the most negative one. */
  method PrintSigned(value: int) returns (text: seq<byte>)
    requires -0x8000_0000 <= value < 0x8000_0000
    ensures text == SignedNumeral(value)
  {
    var conv := new byte[36];
    if value < 0 {
      conv[0] := '-';
      Itoa(-value, conv, 1, 10);
      CStringAfter(conv[..], 0);
    } else {
      Itoa(value, conv, 0, 10);
    }
    var len := Strlen(conv, 0);
    text := conv[..len];
    assert text == CString(conv[..], 0);
  }

  lemma CStringAfter(buf: seq<byte>, at: nat)
    requires at < |buf| && buf[at] != NUL
    ensures CString(buf, at) == [buf[at]] + CString(buf, at + 1)
    ensures StringEnd(buf, at) == StringEnd(buf, at + 1)
  {
  }
}
