/** memcpy, memset and memmove of lib.c on a flat memory whose indices are addresses. */
module MemoryOps {
  import opened Bytes

  /** Memory after n bytes from `src` have arrived at `dst`. */
  function Copied(m: seq<byte>, dst: nat, src: nat, n: nat): (r: seq<byte>)
    requires dst + n <= |m| && src + n <= |m|
    ensures |r| == |m|
  {
    m[..dst] + m[src..src + n] + m[dst + n..]
  }

  /** Memory after n bytes at `dst` have been set to c. */
  function Filled(m: seq<byte>, dst: nat, c: byte, n: nat): (r: seq<byte>)
    requires dst + n <= |m|
    ensures |r| == |m|
  {
    m[..dst] + seq(n, i => c) + m[dst + n..]
  }

  /** Byte by byte: what a copy and a fill leave at every address. */
  lemma EveryByte(m: seq<byte>, dst: nat, src: nat, n: nat, c: byte)
    requires dst + n <= |m| && src + n <= |m|
    ensures forall k :: 0 <= k < |m| ==>
              Copied(m, dst, src, n)[k] == if dst <= k < dst + n then m[src + (k - dst)] else m[k]
    ensures forall k :: 0 <= k < |m| ==> Filled(m, dst, c, n)[k] == if dst <= k < dst + n then c else m[k]
  {
  }

  /** Source and destination share no byte, or the copy moves down. */
  predicate ForwardSafe(dst: nat, src: nat, n: nat) {
    dst <= src || src + n <= dst
  }

  /** The first i bytes are copied and nothing else has changed. */
  ghost predicate CopiedUpTo(m: seq<byte>, was: seq<byte>, dst: nat, src: nat, i: nat) {
    && |m| == |was| && dst + i <= |m| && src + i <= |m|
    && (forall k :: dst <= k < dst + i ==> m[k] == was[src + (k - dst)])
    && (forall k :: 0 <= k < |m| && !(dst <= k < dst + i) ==> m[k] == was[k])
  }

  lemma CopiedWhole(m: seq<byte>, was: seq<byte>, dst: nat, src: nat, n: nat)
    requires CopiedUpTo(m, was, dst, src, n)
    ensures m == Copied(was, dst, src, n)
  {
  }

  /** movb: one byte. */
  method CopyByte(mem: array<byte>, dst: nat, src: nat, ghost n: nat, i: nat, ghost was: seq<byte>)
    requires ForwardSafe(dst, src, n) && i < n && dst + n <= mem.Length && src + n <= mem.Length
    requires CopiedUpTo(mem[..], was, dst, src, i)
    modifies mem
    ensures CopiedUpTo(mem[..], was, dst, src, i + 1)
  {
    mem[dst + i] := mem[src + i];
  }

  /** movsl: four bytes, loaded before any is stored. */
  method CopyDword(mem: array<byte>, dst: nat, src: nat, ghost n: nat, i: nat, ghost was: seq<byte>)
    requires ForwardSafe(dst, src, n) && i + 4 <= n && dst + n <= mem.Length && src + n <= mem.Length
    requires CopiedUpTo(mem[..], was, dst, src, i)
    modifies mem
    ensures CopiedUpTo(mem[..], was, dst, src, i + 4)
  {
    var a, b, c, d := mem[src + i], mem[src + i + 1], mem[src + i + 2], mem[src + i + 3];
    mem[dst + i] := a;
    mem[dst + i + 1] := b;
    mem[dst + i + 2] := c;
    mem[dst + i + 3] := d;
  }

  /** memcpy: bytes up to a dword boundary of the destination, then dwords, then the remaining bytes. */
  method MemCpy(mem: array<byte>, dst: nat, src: nat, n: nat)
    requires dst + n <= mem.Length && src + n <= mem.Length && ForwardSafe(dst, src, n)
    modifies mem
    ensures mem[..] == Copied(old(mem[..]), dst, src, n)
  {
    hide CopiedUpTo, Copied;
    ghost var was := mem[..];
    var i := 0;
    NothingCopied(was, dst, src);
    while i < n && (dst + i) % 4 != 0
      invariant 0 <= i <= n && CopiedUpTo(mem[..], was, dst, src, i)
    {
      CopyByte(mem, dst, src, n, i, was);
      i := i + 1;
    }
    var dwords, bytes := (n - i) / 4, (n - i) % 4;
    while dwords > 0
      invariant 0 <= dwords && 0 <= i && i + 4 * dwords + bytes == n && CopiedUpTo(mem[..], was, dst, src, i)
    {
      CopyDword(mem, dst, src, n, i, was);
      i, dwords := i + 4, dwords - 1;
    }
    while bytes > 0
      invariant 0 <= bytes && 0 <= i && i + bytes == n && CopiedUpTo(mem[..], was, dst, src, i)
    {
      CopyByte(mem, dst, src, n, i, was);
      i, bytes := i + 1, bytes - 1;
    }
    CopiedWhole(mem[..], was, dst, src, n);
  }

  lemma NothingCopied(was: seq<byte>, dst: nat, src: nat)
    requires dst <= |was| && src <= |was|
    ensures CopiedUpTo(was, was, dst, src, 0)
  {
  }

  /** memmove: upward if the source is not below the destination, else downward from the end. */
  method MemMove(mem: array<byte>, dst: nat, src: nat, n: nat)
    requires dst + n <= mem.Length && src + n <= mem.Length
    modifies mem
    ensures mem[..] == Copied(old(mem[..]), dst, src, n)
  {
    ghost var was := mem[..];
    if src >= dst {
      var i := 0;
      NothingCopied(was, dst, src);
      while i < n
        invariant 0 <= i <= n && CopiedUpTo(mem[..], was, dst, src, i)
      {
        CopyByte(mem, dst, src, n, i, was);
        i := i + 1;
      }
    } else {
      var i := n;
      while i > 0
        invariant 0 <= i <= n
        invariant forall k :: dst + i <= k < dst + n ==> mem[k] == was[src + (k - dst)]
        invariant forall k :: 0 <= k < mem.Length && !(dst + i <= k < dst + n) ==> mem[k] == was[k]
      {
        i := i - 1;
        mem[dst + i] := mem[src + i];
      }
    }
    CopiedWhole(mem[..], was, dst, src, n);
  }

  /** memset: c is cut to its low byte, then stored as bytes, dwords and bytes. */
  method MemSet(mem: array<byte>, dst: nat, c: int, n: nat)
    requires dst + n <= mem.Length
    modifies mem
    ensures mem[..] == Filled(old(mem[..]), dst, c % 256, n)
  {
    var low: byte := c % 256;
    var i := 0;
    while i < n && (dst + i) % 4 != 0
      invariant 0 <= i <= n
      invariant forall k :: 0 <= k < mem.Length ==> mem[k] == if dst <= k < dst + i then low else old(mem[k])
    {
      mem[dst + i] := low;
      i := i + 1;
    }
    var dwords, bytes := (n - i) / 4, (n - i) % 4;
    while dwords > 0
      invariant 0 <= dwords && 0 <= i && i + 4 * dwords + bytes == n
      invariant forall k :: 0 <= k < mem.Length ==> mem[k] == if dst <= k < dst + i then low else old(mem[k])
    {
      mem[dst + i] := low;
      mem[dst + i + 1] := low;
      mem[dst + i + 2] := low;
      mem[dst + i + 3] := low;
      i, dwords := i + 4, dwords - 1;
    }
    while bytes > 0
      invariant 0 <= bytes && 0 <= i && i + bytes == n
      invariant forall k :: 0 <= k < mem.Length ==> mem[k] == if dst <= k < dst + i then low else old(mem[k])
    {
      mem[dst + i] := low;
      i, bytes := i + 1, bytes - 1;
    }
  }
}
