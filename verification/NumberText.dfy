/** Numbers as text: itoa, strrev and the zero-padded hexadecimal of printf. */
module NumberText {
  import opened Bytes

  const ZERO_CHAR: byte := 48

  /** The lookup string "0..9A..Z". */
  function DigitChar(d: nat): (c: byte)
    requires d < 36
    ensures c != NUL && DigitValue(c) == d && (c == ZERO_CHAR <==> d == 0)
  {
    if d < 10 then 48 + d else 55 + d
  }

  function DigitValue(c: byte): int {
    if 48 <= c <= 57 then c - 48 else c - 55
  }

  /** "0123456789ABCDEFGHIJKLMNOPQRSTUVWXYZ" */
  const LOOKUP: seq<byte> :=
    [48, 49, 50, 51, 52, 53, 54, 55, 56, 57,
     65, 66, 67, 68, 69, 70, 71, 72, 73, 74, 75, 76, 77, 78, 79, 80, 81, 82, 83, 84, 85, 86, 87, 88, 89, 90]

  /** Digit d is the d-th character of the lookup string. */
  lemma DigitIsLookup(d: nat)
    requires d < 36
    ensures DigitChar(d) == LOOKUP[d] && DigitValue(LOOKUP[d]) == d
  {
  }

  /** The digits of n, least significant first; none for zero. */
  function Digits(n: nat, radix: nat): (s: seq<byte>)
    requires 2 <= radix <= 36
    ensures NulFree(s) && (s == [] <==> n == 0)
  {
    if n == 0 then [] else
      DivFacts(n, radix);
      [DigitChar(n % radix)] + Digits(n / radix, radix)
  }

  function Reversed(s: seq<byte>): (r: seq<byte>)
    ensures |r| == |s|
  {
    seq(|s|, i requires 0 <= i < |s| => s[|s| - 1 - i])
  }

  /** What itoa leaves in its buffer. */
  function Text(n: nat, radix: nat): seq<byte>
    requires 2 <= radix <= 36
  {
    if n == 0 then [ZERO_CHAR] else Reversed(Digits(n, radix))
  }

  /** The value a digit string denotes, most significant digit first. */
  function Parse(s: seq<byte>, radix: nat): int {
    if s == [] then 0 else Parse(s[..|s| - 1], radix) * radix + DigitValue(s[|s| - 1])
  }

  lemma DivFacts(n: nat, radix: nat)
    requires 2 <= radix <= 36 && n > 0
    ensures 0 <= n / radix < n && 0 <= n % radix < radix && n == n / radix * radix + n % radix
  {
  }

  /** One unfolding of Digits, and the number it takes apart. */
  lemma {:induction false} DigitsStep(n: nat, radix: nat)
    requires 2 <= radix <= 36 && n > 0
    ensures 0 <= n / radix < n && 0 <= n % radix < 36 && n == n / radix * radix + n % radix
    ensures Digits(n, radix) == [DigitChar(n % radix)] + Digits(n / radix, radix)
  {
    DivFacts(n, radix);
  }

  lemma ParseAppend(s: seq<byte>, d: byte, radix: nat)
    ensures Parse(s + [d], radix) == Parse(s, radix) * radix + DigitValue(d)
  {
    assert (s + [d])[..|s|] == s;
  }

  lemma ReversedCons(d: byte, rest: seq<byte>)
    ensures Reversed([d] + rest) == Reversed(rest) + [d]
  {
  }

  lemma {:induction false} ParseReversedDigits(n: nat, radix: nat)
    requires 2 <= radix <= 36
    ensures Parse(Reversed(Digits(n, radix)), radix) == n
  {
    hide Parse, Reversed, Digits;
    if n == 0 {
      EmptyText(radix);
    } else {
      DigitsStep(n, radix);
      var q, m := n / radix, n % radix;
      ParseReversedDigits(q, radix);
      ReversedCons(DigitChar(m), Digits(q, radix));
      ParseAppend(Reversed(Digits(q, radix)), DigitChar(m), radix);
    }
  }

  lemma EmptyText(radix: nat)
    requires 2 <= radix <= 36
    ensures Digits(0, radix) == [] && Reversed([]) == [] && Parse([], radix) == 0
  {
  }

  lemma {:induction false} LastDigitNotZero(n: nat, radix: nat)
    requires 2 <= radix <= 36 && n > 0
    ensures var s := Digits(n, radix); s[|s| - 1] != ZERO_CHAR
  {
    hide Digits;
    DigitsStep(n, radix);
    if n / radix > 0 {
      LastDigitNotZero(n / radix, radix);
    } else {
      EmptyText(radix);
    }
  }

  function Pow2(k: nat): nat {
    if k == 0 then 1 else 2 * Pow2(k - 1)
  }

  lemma HalfAtLeast(n: nat, radix: nat)
    requires radix >= 2
    ensures n / radix <= n / 2
  {
    var q := n / radix;
    assert radix * q <= n;
    assert 2 * q <= radix * q;
  }

  /** A number below 2^k has at most k digits in any radix. */
  lemma {:induction false} DigitsBounded(n: nat, radix: nat, k: nat)
    requires 2 <= radix <= 36 && n < Pow2(k)
    ensures |Digits(n, radix)| <= k
  {
    if n > 0 {
      HalfAtLeast(n, radix);
      DigitsBounded(n / radix, radix, k - 1);
    }
  }

  /** A number below 16^k has at most k hexadecimal digits. */
  lemma {:induction false} HexDigitsBounded(n: nat, k: nat)
    requires n < Pow2(4 * k)
    ensures |Digits(n, 16)| <= k
    decreases k
  {
    if n > 0 {
      assert Pow2(4 * k) == 16 * Pow2(4 * (k - 1)) by {
        assert Pow2(4 * k) == 2 * Pow2(4 * k - 1);
        assert Pow2(4 * k - 1) == 2 * Pow2(4 * k - 2);
        assert Pow2(4 * k - 2) == 2 * Pow2(4 * k - 3);
        assert Pow2(4 * k - 3) == 2 * Pow2(4 * k - 4);
      }
      HexDigitsBounded(n / 16, k - 1);
    }
  }

  lemma Pow2Of32()
    ensures Pow2(32) == 0x1_0000_0000
  {
    assert Pow2(8) == 256;
    assert Pow2(16) == 256 * Pow2(8);
    assert Pow2(24) == 256 * Pow2(16);
    assert Pow2(32) == 256 * Pow2(24);
  }

  /**
   * For every 32-bit value and radix 2..36, the text parses back to the value,
   * has no superfluous leading zero, and has at most 32 characters.
   */
  lemma TextRoundTrip(value: u32, radix: nat)
    requires 2 <= radix <= 36
    ensures Parse(Text(value, radix), radix) == value
    ensures NulFree(Text(value, radix)) && 1 <= |Text(value, radix)| <= 32
    ensures |Text(value, radix)| > 1 ==> Text(value, radix)[0] != ZERO_CHAR
  {
    if value == 0 {
      assert Parse([ZERO_CHAR], radix) == Parse([], radix) * radix + 0;
    } else {
      ParseReversedDigits(value, radix);
      LastDigitNotZero(value, radix);
      Pow2Of32();
      DigitsBounded(value, radix, 32);
    }
  }

  function ZeroChars(n: nat): (s: seq<byte>)
    ensures |s| == n
  {
    seq(n, i => ZERO_CHAR)
  }

  /** Leading zeros do not change a number. */
  lemma {:induction false} ParseZeros(n: nat, s: seq<byte>, radix: nat)
    ensures Parse(ZeroChars(n) + s, radix) == Parse(s, radix)
    decreases n, |s|
  {
    if s != [] {
      var init, d := s[..|s| - 1], s[|s| - 1];
      ParseZeros(n, init, radix);
      assert ZeroChars(n) + s == ZeroChars(n) + init + [d] && s == init + [d];
      ParseAppend(ZeroChars(n) + init, d, radix);
      ParseAppend(init, d, radix);
    } else if n > 0 {
      ParseZeros(n - 1, [], radix);
      assert ZeroChars(n) + [] == ZeroChars(n - 1) + [] + [ZERO_CHAR];
      ParseAppend(ZeroChars(n - 1) + [], ZERO_CHAR, radix);
    }
  }

  // -------------------------------------------------------------- in place

  /** The bytes at..at + n are mirrored outside beg..end; every other byte is as it was. */
  ghost predicate Mirrored(now: seq<byte>, was: seq<byte>, at: nat, n: nat, beg: int, end: int) {
    && |now| == |was| && at + n <= |was| && at <= beg <= end + 1 && beg + end == 2 * at + n - 1
    && (forall k :: at <= k < beg ==> now[k] == was[beg + end - k])
    && (forall k :: end < k < at + n ==> now[k] == was[beg + end - k])
    && (forall k :: beg <= k <= end && k < |was| ==> now[k] == was[k])
    && (forall k :: 0 <= k < |was| && !(at <= k < at + n) ==> now[k] == was[k])
  }

  lemma SwapMirrors(now: seq<byte>, was: seq<byte>, at: nat, n: nat, beg: nat, end: nat)
    requires Mirrored(now, was, at, n, beg, end) && beg < end < |now|
    ensures Mirrored(now[beg := now[end]][end := now[beg]], was, at, n, beg + 1, end - 1)
  {
  }

  lemma MirroredWhole(now: seq<byte>, was: seq<byte>, at: nat, n: nat, beg: int, end: int)
    requires Mirrored(now, was, at, n, beg, end) && end <= beg <= end + 1
    ensures now[at..at + n] == Reversed(was[at..at + n])
    ensures forall k :: 0 <= k < |was| && !(at <= k < at + n) ==> now[k] == was[k]
  {
    var a, r := now[at..at + n], Reversed(was[at..at + n]);
    forall j | 0 <= j < n
      ensures a[j] == r[j]
    {
      assert now[at + j] == was[beg + end - (at + j)];
    }
  }

  method StrLen(buf: array<byte>, at: nat) returns (n: nat)
    requires at <= buf.Length && at + CLen(buf[at..]) < buf.Length
    ensures n == CLen(buf[at..])
  {
    n := 0;
    while buf[at + n] != NUL
      invariant n <= CLen(buf[at..])
      decreases buf.Length - n
    {
      assert buf[at..][n] == buf[at + n];
      n := n + 1;
    }
    assert buf[at..][n] == NUL;
  }

  /** strrev of the string at `at`. */
  method StrRev(buf: array<byte>, at: nat)
    requires at <= buf.Length && at + CLen(buf[at..]) < buf.Length
    modifies buf
    ensures var n := CLen(old(buf[at..]));
            && buf[at..at + n] == Reversed(old(buf[at..at + n]))
            && forall k :: 0 <= k < buf.Length && !(at <= k < at + n) ==> buf[k] == old(buf[k])
  {
    hide Reversed;
    var n := StrLen(buf, at);
    SwapEnds(buf, at, n);
  }

  /** The loop of strrev on the n characters at `at`. */
  method SwapEnds(buf: array<byte>, at: nat, n: nat)
    requires at + n <= buf.Length
    modifies buf
    ensures buf[at..at + n] == Reversed(old(buf[at..at + n]))
    ensures forall k :: 0 <= k < buf.Length && !(at <= k < at + n) ==> buf[k] == old(buf[k])
  {
    ghost var was := buf[..];
    var beg, end := at, at + n - 1;
    assert Mirrored(buf[..], was, at, n, beg, end);
    hide Mirrored, Reversed;
    while beg < end
      invariant at <= beg && beg + end == 2 * at + n - 1 && beg <= end + 1
      invariant Mirrored(buf[..], was, at, n, beg, end)
    {
      SwapMirrors(buf[..], was, at, n, beg, end);
      ghost var now := buf[..];
      buf[beg], buf[end] := buf[end], buf[beg];
      assert buf[..] == now[beg := now[end]][end := now[beg]];
      beg, end := beg + 1, end - 1;
    }
    MirroredWhole(buf[..], was, at, n, beg, end);
    assert was[at..at + n] == old(buf[at..at + n]) && buf[..][at..at + n] == buf[at..at + n];
  }

  /** itoa into the buffer at `at`; n is the length of the text, before its terminator. */
  method Itoa(value: u32, buf: array<byte>, at: nat, radix: nat) returns (n: nat)
    requires 2 <= radix <= 36 && at + 33 <= buf.Length
    modifies buf
    ensures n == |Text(value, radix)| <= 32
    ensures buf[at..at + n] == Text(value, radix) && buf[at + n] == NUL
    ensures forall k :: 0 <= k < buf.Length && !(at <= k <= at + n) ==> buf[k] == old(buf[k])
  {
    TextRoundTrip(value, radix);
    if value == 0 {
      buf[at] := ZERO_CHAR;
      buf[at + 1] := NUL;
      return 1;
    }
    hide Digits, Reversed;
    n := WriteReversed(value, buf, at, radix);
  }

  /** itoa's work on a value other than zero. */
  method WriteReversed(value: u32, buf: array<byte>, at: nat, radix: nat) returns (n: nat)
    requires 2 <= radix <= 36 && at + 33 <= buf.Length
    modifies buf
    ensures n == |Digits(value, radix)| <= 32 && buf[at..at + n] == Reversed(Digits(value, radix)) && buf[at + n] == NUL
    ensures forall k :: 0 <= k < buf.Length && !(at <= k <= at + n) ==> buf[k] == old(buf[k])
  {
    hide Digits, Reversed;
    Pow2Of32();
    DigitsBounded(value, radix, 32);
    n := WriteDigits(value, buf, at, radix);
    buf[at + n] := NUL;
    ghost var text := buf[..];
    assert text[at..at + n] == Digits(value, radix);
    StringAt(text, at, n);
    assert text[at..] == buf[at..] && text[at..at + n] == buf[at..at + n];
    StrRev(buf, at);
  }

  lemma StringAt(s: seq<byte>, at: nat, n: nat)
    requires at + n < |s| && s[at + n] == NUL && NulFree(s[at..at + n])
    ensures CLen(s[at..]) == n
  {
    assert forall i :: 0 <= i < n ==> s[at..][i] == s[at..at + n][i];
    CLenIs(s[at..], n);
  }

  /** The division loop of itoa. */
  method WriteDigits(value: u32, buf: array<byte>, at: nat, radix: nat) returns (n: nat)
    requires 2 <= radix <= 36 && at + |Digits(value, radix)| <= buf.Length
    modifies buf
    ensures n == |Digits(value, radix)| && buf[at..at + n] == Digits(value, radix)
    ensures forall k :: 0 <= k < buf.Length && !(at <= k < at + n) ==> buf[k] == old(buf[k])
  {
    hide Digits;
    var left: nat := value;
    n := 0;
    assert buf[at..at] + Digits(value, radix) == Digits(value, radix);
    while left > 0
      invariant 0 <= n && n + |Digits(left, radix)| == |Digits(value, radix)|
      invariant buf[at..at + n] + Digits(left, radix) == Digits(value, radix)
      invariant forall k :: 0 <= k < buf.Length && !(at <= k < at + n) ==> buf[k] == old(buf[k])
    {
      DigitsStep(left, radix);
      ghost var done, d := buf[at..at + n], DigitChar(left % radix);
      assert done + [d] + Digits(left / radix, radix) == done + Digits(left, radix);
      buf[at + n] := DigitChar(left % radix);
      assert buf[at..at + n + 1] == done + [d];
      left := left / radix;
      n := n + 1;
    }
  }

  lemma HexTextFits(value: u32)
    ensures 1 <= |Text(value, 16)| <= 8 && Parse(Text(value, 16), 16) == value
  {
    Pow2Of32();
    HexDigitsBounded(value, 8);
    TextRoundTrip(value, 16);
  }

  /** printf's %#x: the text is built at offset 8 and preceded by zeros to eight digits. */
  method HexPadded(value: u32) returns (out: seq<byte>)
    ensures |out| == 8 && Parse(out, 16) == value
    ensures exists zeros: nat :: out == ZeroChars(zeros) + Text(value, 16)
  {
    hide Parse, Text;
    var conv := new byte[64](i => NUL);
    var start := Itoa(value, conv, 8, 16);
    HexTextFits(value);
    ghost var text := Text(value, 16);
    assert conv[8..8 + start] == text;
    var i := start;
    while i < 8
      invariant start <= i <= 8
      invariant forall k :: start <= k < i ==> conv[k] == ZERO_CHAR
      invariant conv[8..8 + start] == text
    {
      conv[i] := ZERO_CHAR;
      i := i + 1;
    }
    out := conv[start..8 + start];
    ghost var zeros: nat := 8 - start;
    assert out == ZeroChars(zeros) + text by {
      assert conv[start..8 + start] == conv[start..8] + conv[8..8 + start];
    }
    ParseZeros(zeros, text, 16);
  }
}
