/** Machine words and NUL-terminated strings, shared by every other module. */
module Bytes {
  type byte = x: int | 0 <= x < 256
  type u16 = x: int | 0 <= x < 0x1_0000
  type u32 = x: int | 0 <= x < 0x1_0000_0000

  const NUL: byte := 0
  const NEWLINE: byte := 10
  const RETURN: byte := 13
  const SPACE: byte := 32

  /** The value a 32-bit register holds after computing x. */
  function Wrap32(x: int): u32 {
    x % 0x1_0000_0000
  }

  /** strlen: the number of bytes before the first NUL, or all of them. */
  function CLen(s: seq<byte>): (n: nat)
    ensures n <= |s|
    ensures forall i :: 0 <= i < n ==> s[i] != NUL
    ensures n < |s| ==> s[n] == NUL
  {
    if s == [] || s[0] == NUL then 0 else 1 + CLen(s[1..])
  }

  /** The string a NUL-terminated buffer denotes. */
  function CStr(s: seq<byte>): (r: seq<byte>)
    ensures |r| == CLen(s) && NUL !in r
  {
    s[..CLen(s)]
  }

  predicate NulFree(s: seq<byte>) {
    forall i :: 0 <= i < |s| ==> s[i] != NUL
  }

  /** CLen is the only index with its defining property. */
  lemma CLenIs(s: seq<byte>, n: nat)
    requires n <= |s|
    requires forall i :: 0 <= i < n ==> s[i] != NUL
    requires n < |s| ==> s[n] == NUL
    ensures CLen(s) == n
  {
  }

  function Zeros(n: nat): (s: seq<byte>)
    ensures |s| == n && forall i :: 0 <= i < n ==> s[i] == NUL
  {
    seq(n, i => NUL)
  }
}
