/** The read-only file system image and the operations of filesys.c on it. Blocks are 4096 bytes. */
module FileSystem {
  import opened Bytes

  const NAME_LEN: nat := 32
  const INODE_BLOCKS: nat := 1023

  datatype Dentry = Dentry(name: seq<byte>, kind: u32, inode: u32)
  datatype Inode = Inode(length: u32, dblock: seq<u32>)

  /**
   * `data` is physical memory from the first data block on; it may reach past
   * the image, because read_data can run past the last block.
   */
  datatype Image = Image(entries: seq<Dentry>, inodes: seq<Inode>, dblocks: nat, data: seq<byte>)

  ghost predicate WellFormed(img: Image) {
    && 0 < |img.entries| < 0x1_0000_0000
    && 0 < |img.inodes| < 0x1_0000_0000
    && 0 < img.dblocks
    && img.dblocks * 4096 <= |img.data| < 0x1_0000_0000
    && (forall i :: 0 <= i < |img.entries| ==> DentryOk(img, img.entries[i]))
    && (forall i :: 0 <= i < |img.inodes| ==> |img.inodes[i].dblock| == INODE_BLOCKS)
  }

  ghost predicate DentryOk(img: Image, d: Dentry) {
    |d.name| == NAME_LEN && d.kind <= 2 && d.inode < |img.inodes|
  }

  // ---------------------------------------------------------------- read_data

  /** The test against fs_dblocks - 1. */
  predicate BadBlock(img: Image, b: u32) {
    b > Wrap32(img.dblocks - 1)
  }

  ghost predicate IsFirstBad(img: Image, ino: Inode, lo: nat, hi: nat, k: nat)
    requires hi < |ino.dblock|
  {
    && lo <= k <= hi + 1
    && (forall i :: lo <= i < k ==> !BadBlock(img, ino.dblock[i]))
    && (k <= hi ==> BadBlock(img, ino.dblock[k]))
  }

  /** The first block number in lo..hi whose index is bad, or hi + 1. */
  function FirstBad(img: Image, ino: Inode, lo: nat, hi: nat): (k: nat)
    requires hi < |ino.dblock| && lo <= hi + 1
    ensures IsFirstBad(img, ino, lo, hi, k)
    decreases hi + 1 - lo
  {
    if lo == hi + 1 || BadBlock(img, ino.dblock[lo]) then lo else FirstBad(img, ino, lo + 1, hi)
  }

  /** Address, in `data`, of byte k of the file: get_dblock_mem. */
  function Addr(ino: Inode, k: nat): nat
    requires k / 4096 < |ino.dblock|
  {
    ino.dblock[k / 4096] * 4096 + k % 4096
  }

  ghost predicate HasByte(img: Image, ino: Inode, k: nat) {
    k / 4096 < |ino.dblock| && Addr(ino, k) < |img.data|
  }

  ghost function ByteAt(img: Image, ino: Inode, k: nat): byte {
    if HasByte(img, ino, k) then img.data[Addr(ino, k)] else 0
  }

  /** The file as a flat byte sequence: bytes lo..hi of its concatenated blocks. */
  ghost function FileBytes(img: Image, ino: Inode, lo: nat, hi: nat): (s: seq<byte>)
    requires lo <= hi
    ensures |s| == hi - lo
    ensures forall k :: 0 <= k < |s| ==> s[k] == ByteAt(img, ino, lo + k)
  {
    seq<byte>(hi - lo, i requires 0 <= i => ByteAt(img, ino, lo + i))
  }

  lemma FileBytesSplit(img: Image, ino: Inode, lo: nat, mid: nat, hi: nat)
    requires lo <= mid <= hi
    ensures FileBytes(img, ino, lo, hi) == FileBytes(img, ino, lo, mid) + FileBytes(img, ino, mid, hi)
  {
  }

  /** The bytes of one good block are consecutive in memory. */
  lemma BlockRun(img: Image, ino: Inode, lo: nat, hi: nat)
    requires lo <= hi <= (lo / 4096 + 1) * 4096
    requires lo / 4096 < |ino.dblock| && Addr(ino, lo) + (hi - lo) <= |img.data|
    ensures FileBytes(img, ino, lo, hi) == img.data[Addr(ino, lo)..Addr(ino, lo) + (hi - lo)]
  {
    forall k | 0 <= k < hi - lo
      ensures FileBytes(img, ino, lo, hi)[k] == img.data[Addr(ino, lo) + k]
    {
      assert (lo + k) / 4096 == lo / 4096;
      assert HasByte(img, ino, lo + k);
    }
  }

  lemma AddrIn(ino: Inode, k: nat, b: nat)
    requires b * 4096 <= k < (b + 1) * 4096 && b < |ino.dblock|
    ensures k / 4096 == b && Addr(ino, k) == ino.dblock[b] * 4096 + (k - b * 4096)
  {
  }

  /** Appending the rest of block b, which holds byte k, extends the prefix read so far. */
  lemma BlockStep(img: Image, ino: Inode, offset: nat, k: nat, b: nat)
    requires WellFormed(img)
    requires offset <= k && b * 4096 <= k < (b + 1) * 4096
    requires b < |ino.dblock| && !BadBlock(img, ino.dblock[b])
    ensures var at := ino.dblock[b] * 4096 + (k - b * 4096);
            var n := (b + 1) * 4096 - k;
            && at + n <= |img.data|
            && FileBytes(img, ino, offset, k + n) == FileBytes(img, ino, offset, k) + img.data[at..at + n]
  {
    AddrIn(ino, k, b);
    assert ino.dblock[b] + 1 <= img.dblocks;
    BlockRun(img, ino, k, (b + 1) * 4096);
    FileBytesSplit(img, ino, offset, k, (b + 1) * 4096);
  }

  function Larger(a: nat, b: nat): nat {
    if a < b then b else a
  }

  /** The last block read_data will visit: the end of the request, or of the file. */
  function EndBlock(ino: Inode, offset: u32, length: u32): nat {
    if ino.length < Wrap32(offset + length) then Wrap32(ino.length - 1) / 4096
    else Wrap32(offset + length - 1) / 4096
  }

  /** Where in the file the final, single memcpy of read_data starts. */
  function FinalCopy(ino: Inode, offset: u32, length: u32): nat {
    Larger(offset, EndBlock(ino, offset, length) * 4096)
  }

  /**
   * The requests on which read_data touches only the inode's own block list and
   * existing memory. It excludes zero bytes at offset zero, where the block
   * count underflows.
   */
  ghost predicate ReadDefined(img: Image, inode: u32, offset: u32, length: u32) {
    && 0 < offset + length < 0x1_0000_0000
    && (inode < |img.inodes| ==>
          var ino := img.inodes[inode];
          var e := EndBlock(ino, offset, length);
          && |ino.dblock| == INODE_BLOCKS && offset / 4096 < INODE_BLOCKS
          && e < INODE_BLOCKS
          && (offset / 4096 <= e && FirstBad(img, ino, offset / 4096, e) > e ==>
                var f := FinalCopy(ino, offset, length);
                f <= offset + length && Addr(ino, f) + (offset + length - f) <= |img.data|))
  }

  /** What read_data writes to the buffer, in closed form, for every defined request. */
  ghost function ReadBytes(img: Image, ino: Inode, offset: u32, length: u32): (s: seq<byte>)
    requires |ino.dblock| == INODE_BLOCKS
    requires offset / 4096 < INODE_BLOCKS && EndBlock(ino, offset, length) < INODE_BLOCKS
  {
    var e := EndBlock(ino, offset, length);
    var f := FinalCopy(ino, offset, length);
    if offset / 4096 > e then
      []
    else
      var bad := FirstBad(img, ino, offset / 4096, e);
      if bad <= e then
        FileBytes(img, ino, offset, Larger(offset, bad * 4096))
      else if f <= offset + length && Addr(ino, f) + (offset + length - f) <= |img.data| then
        FileBytes(img, ino, offset, f) + img.data[Addr(ino, f)..Addr(ino, f) + (offset + length - f)]
      else
        []
  }

  /** A request never ends before the block its last copy starts in. */
  lemma ReadEnd(img: Image, inode: u32, offset: u32, length: u32)
    requires ReadDefined(img, inode, offset, length) && inode < |img.inodes|
    requires offset / 4096 <= EndBlock(img.inodes[inode], offset, length)
    ensures FinalCopy(img.inodes[inode], offset, length) <= offset + length
  {
  }

  /** memcpy of `src` behind the part of the buffer already written. */
  method CopyInto(buf: array<byte>, ghost done: seq<byte>, at: nat, src: seq<byte>, ghost orig: seq<byte>)
    requires at == |done| && at + |src| <= |orig| == buf.Length
    requires buf[..] == done + orig[at..]
    modifies buf
    ensures buf[..] == done + src + orig[at + |src|..]
  {
    var i := 0;
    while i < |src|
      invariant 0 <= i <= |src|
      invariant buf[..] == done + src[..i] + orig[at + i..]
    {
      buf[at + i] := src[i];
      i := i + 1;
    }
    assert src[..i] == src;
  }

  /** The buffer holds `total` bytes of the file from `offset` on, and behind them what it held before. */
  ghost predicate Copied(img: Image, ino: Inode, offset: nat, total: nat, buf: seq<byte>, orig: seq<byte>) {
    total <= |orig| == |buf| && buf == FileBytes(img, ino, offset, offset + total) + orig[total..]
  }

  /** The block loop is at block b: where its next bytes are and how many of them. */
  ghost predicate AtBlock(ino: Inode, offset: nat, total: nat, start: int, n: int, b: nat) {
    && b < |ino.dblock|
    && b * 4096 <= offset + total == Larger(offset, b * 4096) < (b + 1) * 4096
    && start == BlockAddr(ino, b) + (offset + total - b * 4096)
    && n == (b + 1) * 4096 - (offset + total)
  }

  /** get_dblock_mem, from the first data block on. */
  function BlockAddr(ino: Inode, b: nat): int
    requires b < |ino.dblock|
  {
    var block: int := ino.dblock[b];
    block * 4096
  }

  /** How far the file has been read when the block loop stands at block b. */
  ghost function Reached(offset: nat, b: nat): nat {
    Larger(offset, b * 4096)
  }

  ghost predicate HasRoom(offset: nat, b: nat, room: nat) {
    b * 4096 <= offset + room
  }

  lemma AtFirstBlock(ino: Inode, offset: nat, b: nat)
    requires b < |ino.dblock| && b * 4096 <= offset < (b + 1) * 4096
    ensures AtBlock(ino, offset, 0, BlockAddr(ino, b) + (offset - b * 4096), (b + 1) * 4096 - offset, b)
  {
  }

  lemma AtNextBlock(ino: Inode, offset: nat, total: nat, start: int, n: int, b: nat, endBlock: nat, room: nat)
    requires AtBlock(ino, offset, total, start, n, b) && b < endBlock < |ino.dblock|
    requires HasRoom(offset, endBlock, room)
    ensures n >= 0 && total + n <= room && offset + (total + n) == Reached(offset, b + 1)
    ensures AtBlock(ino, offset, total + n, BlockAddr(ino, b + 1), 4096, b + 1)
  {
  }

  lemma AtLastBlock(ino: Inode, offset: nat, total: nat, start: int, n: int, b: nat)
    requires AtBlock(ino, offset, total, start, n, b)
    ensures offset + total == Reached(offset, b) && start >= 0
    ensures start == ino.dblock[b] * 4096 + (offset + total - b * 4096)
  {
  }

  /** One iteration of the block loop: copies the rest of block b and goes on to the next. */
  method CopyBlock(img: Image, ino: Inode, ghost offset: nat, b: nat, total: nat, start: int, n: int,
                   buf: array<byte>, ghost orig: seq<byte>, ghost endBlock: nat)
    returns (total': nat)
    requires WellFormed(img) && AtBlock(ino, offset, total, start, n, b) && !BadBlock(img, ino.dblock[b])
    requires b < endBlock < |ino.dblock| && HasRoom(offset, endBlock, buf.Length) && |orig| == buf.Length
    requires Copied(img, ino, offset, total, buf[..], orig)
    modifies buf
    ensures Copied(img, ino, offset, total', buf[..], orig) && offset + total' == Reached(offset, b + 1)
    ensures AtBlock(ino, offset, total', BlockAddr(ino, b + 1), 4096, b + 1)
  {
    AtNextBlock(ino, offset, total, start, n, b, endBlock, buf.Length);
    BlockStep(img, ino, offset, offset + total, b);
    hide Reached, HasRoom;
    CopyInto(buf, FileBytes(img, ino, offset, offset + total), total, img.data[start..start + n], orig);
    total' := total + n;
  }

  /** The block loop of read_data: copies block by block until the last block or a bad block index. */
  method BlockLoop(img: Image, ino: Inode, ghost offset: nat, first: nat, endBlock: nat, from0: int, copyLen0: int,
                   buf: array<byte>, ghost bad: nat)
    returns (total: nat, from: int, ghost copyLen: int, stopped: bool)
    requires WellFormed(img) && first < bad && first <= endBlock < |ino.dblock|
    requires IsFirstBad(img, ino, first, endBlock, bad) && bad <= endBlock + 1
    requires AtBlock(ino, offset, 0, from0, copyLen0, first) && HasRoom(offset, endBlock, buf.Length)
    modifies buf
    ensures stopped == (bad <= endBlock)
    ensures stopped ==> offset + total == Reached(offset, bad)
    ensures !stopped ==> AtBlock(ino, offset, total, from, copyLen, endBlock)
    ensures Copied(img, ino, offset, total, buf[..], old(buf[..]))
  {
    hide Copied, BadBlock, WellFormed, IsFirstBad, AtBlock, Reached, HasRoom, BlockAddr, FileBytes, ByteAt;
    ghost var orig := buf[..];
    NothingCopied(img, ino, offset, orig);
    FirstBadAt(img, ino, first, endBlock, bad, first);
    var i, n := first, copyLen0;
    total, from, stopped := 0, from0, false;
    while i < endBlock
      invariant first <= i <= endBlock && i < bad && !BadBlock(img, ino.dblock[i])
      invariant AtBlock(ino, offset, total, from, n, i)
      invariant Copied(img, ino, offset, total, buf[..], orig)
    {
      total := CopyBlock(img, ino, offset, i, total, from, n, buf, orig, endBlock);
      n := 4096;
      FirstBadAt(img, ino, first, endBlock, bad, i + 1);
      if BadBlock(img, ino.dblock[i + 1]) {
        return total, from, n, true;
      }
      from, i := BlockAddr(ino, i + 1), i + 1;
    }
    copyLen := n;
  }

  lemma NothingCopied(img: Image, ino: Inode, offset: nat, orig: seq<byte>)
    ensures Copied(img, ino, offset, 0, orig, orig)
  {
  }

  /** The block loop from the request's first block on; it leaves the address of the bytes still to copy. */
  method CopyBlocks(img: Image, ino: Inode, offset: u32, first: nat, endBlock: nat,
                    buf: array<byte>, ghost bad: nat)
    returns (total: nat, start: nat, stopped: bool)
    requires WellFormed(img) && |ino.dblock| == INODE_BLOCKS
    requires first * 4096 <= offset < (first + 1) * 4096
    requires first < bad && first <= endBlock < INODE_BLOCKS && endBlock * 4096 <= offset + buf.Length
    requires IsFirstBad(img, ino, first, endBlock, bad) && bad <= endBlock + 1
    modifies buf
    ensures stopped == (bad <= endBlock)
    ensures offset + total == Larger(offset, (if stopped then bad else endBlock) * 4096)
    ensures !stopped ==> start == ino.dblock[endBlock] * 4096 + (offset + total - endBlock * 4096)
    ensures Copied(img, ino, offset, total, buf[..], old(buf[..]))
  {
    hide Copied, BadBlock, WellFormed, IsFirstBad, AtBlock, Larger, BlockAddr;
    AtFirstBlock(ino, offset, first);
    var from; ghost var n;
    total, from, n, stopped := BlockLoop(img, ino, offset, first, endBlock,
                                         BlockAddr(ino, first) + (offset - first * 4096), (first + 1) * 4096 - offset, buf, bad);
    if stopped {
      start := 0;
    } else {
      AtLastBlock(ino, offset, total, from, n, endBlock);
      start := from;
    }
  }

  /** The final memcpy of read_data. */
  method CopyRest(img: Image, ino: Inode, ghost offset: nat, total: nat, start: nat, left: nat,
                  buf: array<byte>, ghost orig: seq<byte>)
    requires Copied(img, ino, offset, total, buf[..], orig)
    requires start + left <= |img.data| && total + left <= |orig| == buf.Length
    modifies buf
    ensures buf[..] == FileBytes(img, ino, offset, offset + total) + img.data[start..start + left] + orig[total + left..]
  {
    hide FileBytes;
    CopyInto(buf, FileBytes(img, ino, offset, offset + total), total, img.data[start..start + left], orig);
  }

  /** read_data after its checks: the block loop and the final copy. */
  method ReadRange(img: Image, ino: Inode, offset: u32, length: u32, first: nat, endBlock: nat,
                   buf: array<byte>, ghost bad: nat, ghost f: nat, ghost at: nat)
    returns (total: nat)
    requires WellFormed(img) && |ino.dblock| == INODE_BLOCKS
    requires first * 4096 <= offset < (first + 1) * 4096
    requires first < bad && first <= endBlock < INODE_BLOCKS
    requires IsFirstBad(img, ino, first, endBlock, bad)
    requires f == Larger(offset, endBlock * 4096) <= offset + length && length <= buf.Length
    requires at == ino.dblock[endBlock] * 4096 + (f - endBlock * 4096)
    requires bad > endBlock ==> at + (offset + length - f) <= |img.data|
    modifies buf
    ensures bad <= endBlock ==> offset + total == Larger(offset, bad * 4096) && total <= length
    ensures bad <= endBlock ==> Copied(img, ino, offset, total, buf[..], old(buf[..]))
    ensures bad > endBlock ==> total == length
    ensures bad > endBlock ==>
              buf[..] == FileBytes(img, ino, offset, f) + img.data[at..at + (offset + length - f)] + old(buf[length..])
  {
    assert bad <= endBlock + 1;
    hide Copied, WellFormed, IsFirstBad, FileBytes, BadBlock;
    ghost var orig := buf[..];
    var start, stopped;
    total, start, stopped := CopyBlocks(img, ino, offset, first, endBlock, buf, bad);
    if !stopped {
      assert offset + total == f && start == at;
      hide Larger;
      CopyRest(img, ino, offset, total, start, length - total, buf, orig);
      total := length;
      assert orig[length..] == old(buf[length..]);
    }
  }

  method ReadData(img: Image, inode: u32, offset: u32, buf: array<byte>, length: u32) returns (total: int)
    requires WellFormed(img) && ReadDefined(img, inode, offset, length)
    requires length <= buf.Length
    modifies buf
    ensures inode >= |img.inodes| ==> total == -1 && buf[..] == old(buf[..])
    ensures inode < |img.inodes| ==>
              var s := ReadBytes(img, img.inodes[inode], offset, length);
              total == |s| && buf[..] == s + old(buf[|s|..])
  {
    if inode > Wrap32(|img.inodes| - 1) {
      return -1;
    }
    var ino := img.inodes[inode];
    var endBlock := EndBlock(ino, offset, length);
    if BadBlock(img, ino.dblock[offset / 4096]) || offset / 4096 > endBlock {
      return 0;
    }
    ghost var bad := FirstBad(img, ino, offset / 4096, endBlock);
    ghost var f := FinalCopy(ino, offset, length);
    ReadEnd(img, inode, offset, length);
    AddrIn(ino, f, endBlock);
    total := ReadRange(img, ino, offset, length, offset / 4096, endBlock, buf, bad, f, Addr(ino, f));
  }

  /** The piece of a request inside its last block. */
  lemma LastPiece(img: Image, ino: Inode, f: nat, hi: nat, e: nat)
    requires e < |ino.dblock| && e * 4096 <= f < (e + 1) * 4096 && f <= hi <= (e + 1) * 4096
    requires (ino.dblock[e] + 1) * 4096 <= |img.data|
    ensures f / 4096 == e && Addr(ino, f) + (hi - f) <= |img.data|
    ensures FileBytes(img, ino, f, hi) == img.data[Addr(ino, f)..Addr(ino, f) + (hi - f)]
  {
    hide FileBytes;
    AddrIn(ino, f, e);
    BlockRun(img, ino, f, hi);
  }

  /** Over good blocks the bytes are the whole blocks and the piece of the last one. */
  lemma GoodBytes(img: Image, ino: Inode, offset: u32, length: u32, e: nat, f: nat)
    requires |ino.dblock| == INODE_BLOCKS && offset / 4096 <= e == EndBlock(ino, offset, length) < INODE_BLOCKS
    requires f == Larger(offset, e * 4096) <= offset + length && f / 4096 == e
    requires Addr(ino, f) + (offset + length - f) <= |img.data| && FirstBad(img, ino, offset / 4096, e) == e + 1
    ensures ReadBytes(img, ino, offset, length)
            == FileBytes(img, ino, offset, f) + img.data[Addr(ino, f)..Addr(ino, f) + (offset + length - f)]
  {
    hide FileBytes, Addr, EndBlock, BadBlock, FirstBad, IsFirstBad;
  }

  lemma RangeBytes(img: Image, ino: Inode, offset: u32, length: u32, e: nat, f: nat)
    requires |ino.dblock| == INODE_BLOCKS && offset / 4096 <= e == EndBlock(ino, offset, length) < INODE_BLOCKS
    requires f == Larger(offset, e * 4096) < (e + 1) * 4096 && f <= offset + length <= (e + 1) * 4096
    requires (ino.dblock[e] + 1) * 4096 <= |img.data|
    requires FirstBad(img, ino, offset / 4096, e) == e + 1
    ensures ReadBytes(img, ino, offset, length) == FileBytes(img, ino, offset, offset + length)
  {
    hide FileBytes, Addr, EndBlock, FirstBad, ReadBytes;
    LastPiece(img, ino, f, offset + length, e);
    GoodBytes(img, ino, offset, length, e, f);
    FileBytesSplit(img, ino, offset, f, offset + length);
  }

  /**
   * A request inside the file, over good blocks, is the slice of the file it
   * names, and reaches no other memory.
   */
  lemma ReadInRange(img: Image, inode: u32, offset: u32, length: u32)
    requires WellFormed(img) && inode < |img.inodes|
    requires 0 < length && offset + length <= img.inodes[inode].length <= INODE_BLOCKS * 4096
    requires forall b :: offset / 4096 <= b <= (offset + length - 1) / 4096
               ==> !BadBlock(img, img.inodes[inode].dblock[b])
    ensures ReadDefined(img, inode, offset, length)
    ensures ReadBytes(img, img.inodes[inode], offset, length)
            == FileBytes(img, img.inodes[inode], offset, offset + length)
  {
    var ino := img.inodes[inode];
    var e := (offset + length - 1) / 4096;
    var f := Larger(offset, e * 4096);
    RangeInBlocks(img, ino, offset, length, e, f);
    AddrIn(ino, f, e);
    RangeBytes(img, ino, offset, length, e, f);
    hide ReadBytes, FileBytes, FirstBad, BadBlock, EndBlock;
  }

  lemma RangeInBlocks(img: Image, ino: Inode, offset: u32, length: u32, e: nat, f: nat)
    requires WellFormed(img) && |ino.dblock| == INODE_BLOCKS
    requires 0 < length && offset + length <= ino.length <= INODE_BLOCKS * 4096
    requires e == (offset + length - 1) / 4096 && f == Larger(offset, e * 4096)
    requires forall b :: offset / 4096 <= b <= e ==> !BadBlock(img, ino.dblock[b])
    ensures offset / 4096 <= e == EndBlock(ino, offset, length) < INODE_BLOCKS
    ensures f < (e + 1) * 4096 && f <= offset + length <= (e + 1) * 4096
    ensures (ino.dblock[e] + 1) * 4096 <= |img.data| && FirstBad(img, ino, offset / 4096, e) == e + 1
  {
    hide FirstBad, BadBlock, WellFormed;
    RangeArithmetic(ino, offset, length, e);
    GoodBlock(img, ino.dblock[e]);
    AllGood(img, ino, offset / 4096, e);
  }

  lemma RangeArithmetic(ino: Inode, offset: u32, length: u32, e: nat)
    requires 0 < length && offset + length <= ino.length <= INODE_BLOCKS * 4096 && e == (offset + length - 1) / 4096
    ensures offset / 4096 <= e == EndBlock(ino, offset, length) < INODE_BLOCKS
    ensures offset < (e + 1) * 4096 && e * 4096 < offset + length <= (e + 1) * 4096
  {
  }

  lemma GoodBlock(img: Image, b: u32)
    requires WellFormed(img) && !BadBlock(img, b)
    ensures (b + 1) * 4096 <= |img.data|
  {
    assert b + 1 <= img.dblocks;
  }

  lemma AllGood(img: Image, ino: Inode, lo: nat, hi: nat)
    requires hi < |ino.dblock| && lo <= hi + 1 && forall b :: lo <= b <= hi ==> !BadBlock(img, ino.dblock[b])
    ensures FirstBad(img, ino, lo, hi) == hi + 1
  {
    hide BadBlock;
  }

  /** Up to the first bad block, a block is bad exactly if it is that one. */
  lemma FirstBadAt(img: Image, ino: Inode, lo: nat, hi: nat, bad: nat, j: nat)
    requires hi < |ino.dblock| && IsFirstBad(img, ino, lo, hi, bad) && lo <= j <= bad && j <= hi
    ensures BadBlock(img, ino.dblock[j]) <==> j == bad
  {
    hide BadBlock;
  }

  /**
   * With a bad block index among the blocks of the file that a request reaches,
   * read_data delivers exactly the bytes before the first such block.
   */
  lemma ReadUpToBadBlock(img: Image, inode: u32, offset: u32, length: u32, bad: nat, e: nat)
    requires WellFormed(img) && inode < |img.inodes| && 0 < img.inodes[inode].length <= INODE_BLOCKS * 4096
    requires 0 < length && offset + length < 0x1_0000_0000
    requires var end := if offset + length < img.inodes[inode].length then offset + length else img.inodes[inode].length;
             e == (end - 1) / 4096 && offset / 4096 <= bad <= e
    requires BadBlock(img, img.inodes[inode].dblock[bad])
    requires forall b :: offset / 4096 <= b < bad ==> !BadBlock(img, img.inodes[inode].dblock[b])
    ensures ReadDefined(img, inode, offset, length)
    ensures ReadBytes(img, img.inodes[inode], offset, length)
            == FileBytes(img, img.inodes[inode], offset, if offset < bad * 4096 then bad * 4096 else offset)
  {
    hide FileBytes, Addr, BadBlock, WellFormed, EndBlock, FirstBad;
    var ino := InodeAt(img, inode);
    ReachedBlock(ino, offset, length, e);
    FirstBadIs(img, ino, offset / 4096, e, bad);
  }

  lemma ReachedBlock(ino: Inode, offset: u32, length: u32, e: nat)
    requires 0 < ino.length <= INODE_BLOCKS * 4096 && 0 < length && offset + length < 0x1_0000_0000
    requires e == ((if offset + length < ino.length then offset + length else ino.length) - 1) / 4096
    ensures EndBlock(ino, offset, length) == e < INODE_BLOCKS
  {
  }

  lemma FirstBadIs(img: Image, ino: Inode, lo: nat, hi: nat, bad: nat)
    requires hi < |ino.dblock| && lo <= bad <= hi && BadBlock(img, ino.dblock[bad])
    requires forall b :: lo <= b < bad ==> !BadBlock(img, ino.dblock[b])
    ensures FirstBad(img, ino, lo, hi) == bad
  {
    hide BadBlock, FirstBad;
  }

  /** A request that starts behind the file's last block delivers nothing. */
  lemma ReadBeyondFile(img: Image, inode: u32, offset: u32, length: u32)
    requires WellFormed(img) && inode < |img.inodes| && 0 < img.inodes[inode].length <= INODE_BLOCKS * 4096
    requires 0 < length && offset + length < 0x1_0000_0000
    requires (img.inodes[inode].length - 1) / 4096 < offset / 4096 < INODE_BLOCKS
    ensures ReadDefined(img, inode, offset, length) && ReadBytes(img, img.inodes[inode], offset, length) == []
  {
    var ino := img.inodes[inode];
    assert EndBlock(ino, offset, length) == (ino.length - 1) / 4096;
    hide EndBlock, BadBlock, FileBytes;
  }

  /**
   * The end-of-file contract of read(2), a count clamped to the bytes left,
   * holds of read_data if and only if the request ends inside the file or
   * starts past the file's last block.
   */
  lemma ReadClampsExactlyWhen(img: Image, inode: u32, offset: u32, length: u32)
    requires WellFormed(img) && inode < |img.inodes| && ReadDefined(img, inode, offset, length)
    requires 0 < length
    requires forall b :: offset / 4096 <= b <= EndBlock(img.inodes[inode], offset, length) ==>
               !BadBlock(img, img.inodes[inode].dblock[b])
    ensures var ino := img.inodes[inode];
            var left := if offset < ino.length then ino.length - offset else 0;
            |ReadBytes(img, ino, offset, length)| == (if length < left then length else left)
            <==> offset + length <= ino.length || offset / 4096 > (ino.length - 1) / 4096
  {
    CountOverGoodBlocks(img, inode, offset, length);
    ClampArithmetic(img.inodes[inode], offset, length);
    hide ReadBytes, EndBlock, WellFormed, ReadDefined;
  }

  /** Over good blocks the count is all of the request, or nothing if it starts past the last block. */
  lemma CountOverGoodBlocks(img: Image, inode: u32, offset: u32, length: u32)
    requires WellFormed(img) && inode < |img.inodes| && ReadDefined(img, inode, offset, length)
    requires forall b :: offset / 4096 <= b <= EndBlock(img.inodes[inode], offset, length) ==>
               !BadBlock(img, img.inodes[inode].dblock[b])
    ensures var ino := img.inodes[inode];
            |ReadBytes(img, ino, offset, length)|
            == if offset / 4096 > EndBlock(ino, offset, length) then 0 else length
  {
    hide FirstBad, BadBlock, Addr, WellFormed;
    var ino := img.inodes[inode];
    var e := EndBlock(ino, offset, length);
    if offset / 4096 <= e {
      AllGood(img, ino, offset / 4096, e);
      ReadEnd(img, inode, offset, length);
    }
    hide EndBlock;
  }

  lemma ClampArithmetic(ino: Inode, offset: u32, length: u32)
    requires 0 < length && offset + length < 0x1_0000_0000 && EndBlock(ino, offset, length) < INODE_BLOCKS
    ensures var left := if offset < ino.length then ino.length - offset else 0;
            (if offset / 4096 > EndBlock(ino, offset, length) then 0 else length) == (if length < left then length else left)
            <==> offset + length <= ino.length || offset / 4096 > (ino.length - 1) / 4096
  {
    if offset + length <= ino.length {
      assert EndBlock(ino, offset, length) == (offset + length - 1) / 4096;
    } else if ino.length > 0 {
      assert EndBlock(ino, offset, length) == (ino.length - 1) / 4096;
    }
  }

  /** One file of 100 bytes in one block. */
  function OneFileImage(): Image {
    Image([Dentry(seq(32, i => 97), 2, 0)], [Inode(100, seq(1023, i => 0))], 1, seq(4096, i => 7))
  }

  /** A request of 1024 bytes on it returns 1024, not the 100 that are left. */
  lemma ReadOvershoots()
    ensures var img := OneFileImage();
            && WellFormed(img) && ReadDefined(img, 0, 0, 1024) && !BadBlock(img, img.inodes[0].dblock[0])
            && |ReadBytes(img, img.inodes[0], 0, 1024)| == 1024 > img.inodes[0].length
  {
    var img := OneFileImage();
    var ino := img.inodes[0];
    assert DentryOk(img, img.entries[0]);
    assert EndBlock(ino, 0, 1024) == 0 && FinalCopy(ino, 0, 1024) == 0 && Addr(ino, 0) == 0;
    assert FirstBad(img, ino, 0, 0) == 1;
  }

  /**
   * file_read at a position inside or at the end of a file fills the request as
   * far as the file goes, and no further, if and only if the request ends in
   * the file, or starts at its end and that is the end of a block.
   */
  lemma FillsExactlyWhen(img: Image, inode: u32, pos: u32, n: u32)
    requires WellFormed(img) && inode < |img.inodes| && ReadDefined(img, inode, pos, n)
    requires 0 < n && pos <= img.inodes[inode].length <= INODE_BLOCKS * 4096
    requires forall b :: 0 <= b < INODE_BLOCKS && b * 4096 < img.inodes[inode].length ==>
               !BadBlock(img, img.inodes[inode].dblock[b])
    ensures var ino := img.inodes[inode];
            var end := if pos + n <= ino.length then pos + n else ino.length;
            ReadBytes(img, ino, pos, n) == FileBytes(img, ino, pos, end)
            <==> pos + n <= ino.length || (pos == ino.length && ino.length % 4096 == 0)
  {
    var ino := img.inodes[inode];
    if pos + n <= ino.length {
      ReadInRange(img, inode, pos, n);
    } else {
      LastBlock(ino, pos, n);
      ReadClampsExactlyWhen(img, inode, pos, n);
    }
    hide ReadBytes, FileBytes, BadBlock, ReadDefined;
  }

  /** A request past the end of the file visits only the file's blocks. */
  lemma LastBlock(ino: Inode, pos: u32, n: u32)
    requires pos <= ino.length < pos + n < 0x1_0000_0000 && 0 < ino.length
    ensures EndBlock(ino, pos, n) == (ino.length - 1) / 4096
    ensures EndBlock(ino, pos, n) * 4096 < ino.length
    ensures pos / 4096 > (ino.length - 1) / 4096 <==> pos == ino.length && ino.length % 4096 == 0
  {
  }

  /** A block index is bad exactly if the image has no such block. */
  lemma BadBlockExactly(img: Image, b: u32)
    requires WellFormed(img)
    ensures BadBlock(img, b) <==> b >= img.dblocks
  {
  }

  /**
   * A request that starts no later than the file's last block and goes past the
   * end of the file is served in full: the file's bytes, what its last block
   * holds behind them, and then the memory behind that block.
   */
  lemma ReadPastEnd(img: Image, inode: u32, offset: u32, length: u32, e: nat)
    requires WellFormed(img) && inode < |img.inodes| && 0 < img.inodes[inode].length <= INODE_BLOCKS * 4096
    requires img.inodes[inode].length < offset + length < 0x1_0000_0000
    requires e == (img.inodes[inode].length - 1) / 4096 && offset / 4096 <= e
    requires forall b :: 0 <= b <= e ==> !BadBlock(img, img.inodes[inode].dblock[b])
    requires (img.inodes[inode].dblock[e] - e) * 4096 + (offset + length) <= |img.data|
    ensures ReadDefined(img, inode, offset, length)
    ensures var ino := img.inodes[inode];
            var hi := if offset + length < (e + 1) * 4096 then offset + length else (e + 1) * 4096;
            var next := (ino.dblock[e] + 1) * 4096;
            && next + (offset + length - hi) <= |img.data|
            && ReadBytes(img, ino, offset, length)
               == FileBytes(img, ino, offset, hi) + img.data[next..next + (offset + length - hi)]
  {
    hide FileBytes, FirstBad, BadBlock, Addr, ReadBytes, EndBlock, ReadDefined, WellFormed;
    var ino := InodeAt(img, inode);
    var f := Larger(offset, e * 4096);
    var hi := if offset + length < (e + 1) * 4096 then offset + length else (e + 1) * 4096;
    PastEndBlock(ino, offset, length, e);
    LastBlockRoom(img, ino, offset, length, e, f, hi);
    AllGood(img, ino, offset / 4096, e);
    PastEndDefined(img, inode, offset, length, e, f);
    var block: int := ino.dblock[e];
    PastEndBytes(img, ino, offset, length, e, f, hi, (block + 1) * 4096);
  }

  lemma InodeAt(img: Image, inode: u32) returns (ino: Inode)
    requires WellFormed(img) && inode < |img.inodes|
    ensures ino == img.inodes[inode] && |ino.dblock| == INODE_BLOCKS
  {
    ino := img.inodes[inode];
  }

  lemma PastEndBlock(ino: Inode, offset: u32, length: u32, e: nat)
    requires 0 < ino.length <= INODE_BLOCKS * 4096 && ino.length < offset + length < 0x1_0000_0000
    requires e == (ino.length - 1) / 4096
    ensures EndBlock(ino, offset, length) == e < INODE_BLOCKS && e * 4096 < offset + length
  {
  }

  lemma PastEndDefined(img: Image, inode: u32, offset: u32, length: u32, e: nat, f: nat)
    requires inode < |img.inodes| && |img.inodes[inode].dblock| == INODE_BLOCKS
    requires EndBlock(img.inodes[inode], offset, length) == e < INODE_BLOCKS && offset / 4096 <= e
    requires 0 < offset + length < 0x1_0000_0000 && f == Larger(offset, e * 4096) && f / 4096 == e
    requires f <= offset + length && Addr(img.inodes[inode], f) + (offset + length - f) <= |img.data|
    ensures ReadDefined(img, inode, offset, length)
  {
    hide Addr, EndBlock, FirstBad;
  }

  lemma PastEndBytes(img: Image, ino: Inode, offset: u32, length: u32, e: nat, f: nat, hi: nat, next: nat)
    requires |ino.dblock| == INODE_BLOCKS && offset / 4096 <= e == EndBlock(ino, offset, length) < INODE_BLOCKS
    requires f == Larger(offset, e * 4096) && e * 4096 <= f < (e + 1) * 4096 && f <= hi <= offset + length
    requires hi <= (e + 1) * 4096 && next == (ino.dblock[e] + 1) * 4096 <= |img.data| && f / 4096 == e
    requires Addr(ino, f) + (offset + length - f) <= |img.data| && FirstBad(img, ino, offset / 4096, e) == e + 1
    requires hi == offset + length || Addr(ino, f) + (hi - f) == next
    ensures next + (offset + length - hi) <= |img.data|
    ensures ReadBytes(img, ino, offset, length)
            == FileBytes(img, ino, offset, hi) + img.data[next..next + (offset + length - hi)]
  {
    hide FileBytes, FirstBad, Addr, EndBlock, ReadBytes;
    GoodBytes(img, ino, offset, length, e, f);
    hide Larger;
    LastPiece(img, ino, f, hi, e);
    FileBytesSplit(img, ino, offset, f, hi);
    var at, m, n, rest := Addr(ino, f), hi - f, offset + length - f, offset + length - hi;
    MemorySplit(img.data, at, m, n, next, rest);
    Regroup(FileBytes(img, ino, offset, f), img.data[at..at + m], img.data[next..next + rest]);
  }

  lemma Regroup(a: seq<byte>, b: seq<byte>, c: seq<byte>)
    ensures a + (b + c) == a + b + c
  {
  }

  lemma LastBlockRoom(img: Image, ino: Inode, offset: u32, length: u32, e: nat, f: nat, hi: nat)
    requires WellFormed(img) && |ino.dblock| == INODE_BLOCKS && e < INODE_BLOCKS && !BadBlock(img, ino.dblock[e])
    requires offset / 4096 <= e && e * 4096 < offset + length && f == Larger(offset, e * 4096)
    requires hi == (if offset + length < (e + 1) * 4096 then offset + length else (e + 1) * 4096)
    requires (ino.dblock[e] - e) * 4096 + (offset + length) <= |img.data|
    ensures e * 4096 <= f < (e + 1) * 4096 && f <= hi && f / 4096 == e && f <= offset + length
    ensures (ino.dblock[e] + 1) * 4096 <= |img.data| && Addr(ino, f) == ino.dblock[e] * 4096 + (f - e * 4096)
    ensures Addr(ino, f) + (offset + length - f) <= |img.data|
    ensures hi - f <= offset + length - f
    ensures hi == offset + length || Addr(ino, f) + (hi - f) == (ino.dblock[e] + 1) * 4096
  {
    GoodBlock(img, ino.dblock[e]);
    AddrIn(ino, f, e);
  }

  lemma MemorySplit(data: seq<byte>, at: nat, m: nat, n: nat, next: nat, rest: nat)
    requires m <= n && at + n <= |data| && n == m + rest && (rest == 0 || at + m == next) && next <= |data|
    ensures next + rest <= |data| && data[at..at + n] == data[at..at + m] + data[next..next + rest]
  {
  }
}
