/** Directory lookup and enumeration: read_dentry_by_name, read_dentry_by_index, directory_read. */
module Directory {
  import opened Bytes
  import opened FileSystem

  /** An entry's name: 32 bytes, cut at the first NUL if there is one. */
  function EntryName(d: Dentry): seq<byte> {
    CStr(d.name)
  }

  function LookupFrom(img: Image, name: seq<byte>, from: nat): (i: int)
    requires from <= |img.entries|
    ensures i == -1 || from <= i < |img.entries|
    ensures i != -1 ==> EntryName(img.entries[i]) == name
    ensures forall j :: from <= j < (if i == -1 then |img.entries| else i) ==> EntryName(img.entries[j]) != name
    decreases |img.entries| - from
  {
    if from == |img.entries| then -1
    else if EntryName(img.entries[from]) == name then from
    else LookupFrom(img, name, from + 1)
  }

  /** The index of the first entry with this name, or -1 if and only if there is none. */
  function Lookup(img: Image, name: seq<byte>): (i: int)
    ensures -1 <= i < |img.entries|
    ensures i != -1 ==> EntryName(img.entries[i]) == name
    ensures forall j :: 0 <= j < (if i == -1 then |img.entries| else i) ==> EntryName(img.entries[j]) != name
  {
    LookupFrom(img, name, 0)
  }

  /** Equal strings agree on every byte and on their length. */
  lemma CStrDiffer(a: seq<byte>, b: seq<byte>, j: nat)
    requires j < |a| && j < |b| && j <= CLen(a) && j <= CLen(b) && a[j] != b[j]
    ensures CStr(a) != CStr(b)
  {
    if j < CLen(a) && j < CLen(b) {
      assert CStr(a)[j] != CStr(b)[j];
    }
  }

  /**
   * The inner comparison loop of read_dentry_by_name. It reads `fname` no
   * further than its terminator.
   */
  method NameMatches(fname: seq<byte>, name: seq<byte>) returns (found: bool)
    requires CLen(fname) < |fname| && |name| == NAME_LEN
    ensures found <==> CStr(fname) == CStr(name)
  {
    found := true;
    var j := 0;
    while j < 32
      invariant 0 <= j <= 32 && j <= CLen(fname) && j <= CLen(name) && found
      invariant forall k :: 0 <= k < j ==> fname[k] == name[k]
    {
      if fname[j] == name[j] && fname[j] == NUL {
        break;
      }
      if fname[j] != name[j] {
        CStrDiffer(fname, name, j);
        found := false;
        break;
      }
      j := j + 1;
    }
    if found {
      assert CStr(name) == fname[..j];
    }
    if j == NAME_LEN && fname[j] != NUL {
      found := false;
    }
  }

  method ReadDentryByName(img: Image, fname: seq<byte>) returns (i: int)
    requires WellFormed(img) && CLen(fname) < |fname|
    ensures i == Lookup(img, CStr(fname))
  {
    i := 0;
    while i < |img.entries|
      invariant 0 <= i <= |img.entries|
      invariant forall j :: 0 <= j < i ==> EntryName(img.entries[j]) != CStr(fname)
    {
      assert DentryOk(img, img.entries[i]);
      var found := NameMatches(fname, img.entries[i].name);
      if found {
        return;
      }
      i := i + 1;
    }
    i := -1;
  }

  /** What one directory_read delivers and the position it leaves. An empty name is end of directory. */
  function DirNext(img: Image, pos: u32): (r: (seq<byte>, u32))
    requires |img.entries| < 0x1_0000_0000
  {
    if pos < |img.entries| then (EntryName(img.entries[pos]), pos + 1) else ([], pos)
  }

  /** directory_read's copy: the 32 bytes of the name and a NUL. */
  method CopyName(name: seq<byte>, buf: array<byte>)
    requires |name| == 32 && 33 <= buf.Length
    modifies buf
    ensures buf[..33] == name + [NUL] && buf[33..] == old(buf[33..])
  {
    var i := 0;
    while i < 32
      invariant 0 <= i <= 32
      invariant forall k :: 0 <= k < i ==> buf[k] == name[k]
      invariant buf[33..] == old(buf[33..])
    {
      buf[i] := name[i];
      i := i + 1;
    }
    buf[32] := NUL;
  }

  /** The counting loop of directory_read. */
  method NameLength(buf: array<byte>, ghost name: seq<byte>) returns (n: nat)
    requires 33 <= buf.Length && |name| == 32 && buf[..33] == name + [NUL]
    ensures n == CLen(name) && CStr(buf[..33]) == CStr(name)
  {
    n := 0;
    while n < 32 && buf[n] != NUL
      invariant 0 <= n <= CLen(name)
    {
      assert buf[n] == buf[..33][n] == name[n];
      n := n + 1;
    }
    assert n < 32 ==> name[n] == buf[..33][n] == buf[n];
    CLenIs(name + [NUL], n);
    assert (name + [NUL])[..n] == name[..n];
  }

  method DirectoryRead(img: Image, pos: u32, buf: array<byte>) returns (n: int, next: u32)
    requires WellFormed(img) && 33 <= buf.Length
    modifies buf
    ensures n == |DirNext(img, pos).0| && next == DirNext(img, pos).1
    ensures pos < |img.entries| ==> CStr(buf[..33]) == DirNext(img, pos).0 && buf[33..] == old(buf[33..])
    ensures pos >= |img.entries| ==> buf[..] == old(buf[..])
  {
    if pos > Wrap32(|img.entries| - 1) {
      return 0, pos;
    }
    hide CLen;
    assert DentryOk(img, img.entries[pos]);
    CopyName(img.entries[pos].name, buf);
    n := NameLength(buf, img.entries[pos].name);
    return n, pos + 1;
  }

  /** The names delivered by `calls` successive reads starting at position `pos`. */
  function Enumerate(img: Image, pos: u32, calls: nat): (names: seq<seq<byte>>)
    requires |img.entries| < 0x1_0000_0000
    ensures |names| == calls
    decreases calls
  {
    if calls == 0 then [] else [DirNext(img, pos).0] + Enumerate(img, DirNext(img, pos).1, calls - 1)
  }

  /** From position `pos` on, reads deliver the remaining entries in order and then nothing, forever. */
  lemma {:induction false} EnumerateInOrder(img: Image, pos: u32, calls: nat, k: nat)
    requires |img.entries| < 0x1_0000_0000 && k < calls
    ensures Enumerate(img, pos, calls)[k]
            == if pos + k < |img.entries| then EntryName(img.entries[pos + k]) else []
    decreases calls
  {
    if k > 0 {
      EnumerateInOrder(img, DirNext(img, pos).1, calls - 1, k - 1);
    }
  }

  ghost predicate DistinctNames(img: Image) {
    && (forall i :: 0 <= i < |img.entries| ==> EntryName(img.entries[i]) != [])
    && (forall i, j :: 0 <= i < j < |img.entries| ==> EntryName(img.entries[i]) != EntryName(img.entries[j]))
  }

  /**
   * A freshly opened directory enumerates every entry once, in order, and each
   * name it produces, 32-byte names included, looks up to the entry it came
   * from; the first empty answer comes exactly after the last entry.
   */
  lemma EnumerationInvertsLookup(img: Image, calls: nat, k: nat)
    requires |img.entries| < 0x1_0000_0000 && DistinctNames(img) && k < calls
    ensures Enumerate(img, 0, calls)[k] == [] <==> k >= |img.entries|
    ensures k < |img.entries| ==> Lookup(img, Enumerate(img, 0, calls)[k]) == k
  {
    EnumerateInOrder(img, 0, calls, k);
  }
}
