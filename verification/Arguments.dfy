/** Splitting a command line: the name parsed by execute and the arguments returned by getargs. */
module Arguments {
  import opened Bytes

  const USER_BUF: nat := 1024
  const NAME_BUF: nat := 128

  predicate EndsWord(c: byte) {
    c == SPACE || c == NEWLINE
  }

  function WordLen(cmd: seq<byte>): (n: nat)
    ensures n <= |cmd|
    ensures forall i :: 0 <= i < n ==> !EndsWord(cmd[i])
    ensures n < |cmd| ==> EndsWord(cmd[n])
  {
    if cmd == [] || EndsWord(cmd[0]) then 0 else 1 + WordLen(cmd[1..])
  }

  lemma WordLenIs(cmd: seq<byte>, n: nat)
    requires n <= |cmd| && (n < |cmd| ==> EndsWord(cmd[n]))
    requires forall i :: 0 <= i < n ==> !EndsWord(cmd[i])
    ensures WordLen(cmd) == n
  {
  }

  /** The name execute looks up. */
  function CommandName(cmd: seq<byte>): seq<byte> {
    cmd[..WordLen(cmd)]
  }

  /** The name is everything up to the first space or newline, or all of the command. */
  lemma NameEndsAtBlank(cmd: seq<byte>)
    ensures CommandName(cmd) <= cmd && 32 !in CommandName(cmd) && 10 !in CommandName(cmd)
    ensures CommandName(cmd) != cmd ==> cmd[|CommandName(cmd)|] == 32 || cmd[|CommandName(cmd)|] == 10
  {
  }

  /** A space that is not followed by another space. */
  predicate GapEnd(cmd: seq<byte>, i: nat)
    requires i < |cmd|
  {
    cmd[i] == SPACE && (i + 1 < |cmd| ==> cmd[i + 1] != SPACE)
  }

  /** Where the arguments start: just behind the first gap. */
  function ArgStart(cmd: seq<byte>, from: nat): (n: nat)
    requires from <= |cmd|
    ensures from <= n <= |cmd|
    ensures forall i :: from <= i < n - 1 ==> !GapEnd(cmd, i)
    ensures n == from ==> n == |cmd|
    ensures from < n < |cmd| ==> GapEnd(cmd, n - 1)
    decreases |cmd| - from
  {
    if from == |cmd| then from
    else if GapEnd(cmd, from) then from + 1
    else ArgStart(cmd, from + 1)
  }

  function ArgsOf(cmd: seq<byte>): seq<byte> {
    cmd[ArgStart(cmd, 0)..]
  }

  /** A string written into a field of n bytes: truncated, or padded with zeros. */
  function Padded(s: seq<byte>, n: nat): (r: seq<byte>)
    ensures |r| == n
  {
    if |s| >= n then s[..n] else s + Zeros(n - |s|)
  }

  lemma PaddedRoundTrip(s: seq<byte>, n: nat)
    requires NulFree(s) && |s| < n
    ensures CLen(Padded(s, n)) == |s| && CStr(Padded(s, n)) == s
  {
    CLenIs(Padded(s, n), |s|);
  }

  ghost predicate AllSpaces(s: seq<byte>) {
    forall i :: 0 <= i < |s| ==> s[i] == SPACE
  }

  ghost predicate IsWord(s: seq<byte>) {
    s != [] && forall i :: 0 <= i < |s| ==> !EndsWord(s[i])
  }

  /** A command: a word, a gap, and arguments that do not start with a space. */
  ghost predicate Parts(word: seq<byte>, gap: seq<byte>, args: seq<byte>) {
    IsWord(word) && AllSpaces(gap) && (args != [] ==> gap != [] && args[0] != SPACE)
  }

  /** execute and getargs recover exactly the parts a command was joined from. */
  lemma SplitJoined(word: seq<byte>, gap: seq<byte>, args: seq<byte>)
    requires Parts(word, gap, args)
    ensures CommandName(word + gap + args) == word
    ensures ArgsOf(word + gap + args) == args
  {
    var cmd := word + gap + args;
    var a := ArgStart(cmd, 0);
    var g := |word| + |gap|;
    assert forall i :: 0 <= i < |word| ==> cmd[i] == word[i] && !EndsWord(cmd[i]);
    assert forall i :: |word| <= i < g ==> cmd[i] == SPACE && EndsWord(cmd[i]);
    WordLenIs(cmd, |word|);
    assert cmd[..|word|] == word;
    if gap == [] {
      assert a == |cmd|;
    } else {
      assert GapEnd(cmd, g - 1);
      assert forall i :: 0 <= i < g - 1 ==> !GapEnd(cmd, i);
      assert a == g;
    }
    assert cmd[g..] == args;
  }

  /** Every newline-free command that starts with a word is joined from its name, a gap and its arguments. */
  lemma JoinSplit(cmd: seq<byte>) returns (gap: seq<byte>)
    requires cmd != [] && !EndsWord(cmd[0]) && NEWLINE !in cmd
    ensures Parts(CommandName(cmd), gap, ArgsOf(cmd))
    ensures cmd == CommandName(cmd) + gap + ArgsOf(cmd)
  {
    var n, a := WordLen(cmd), ArgStart(cmd, 0);
    assert n <= a;
    gap := cmd[n..a];
    forall i | n <= i < a
      ensures cmd[i] == SPACE
    {
      GapIsSpaces(cmd, n, i);
    }
    assert cmd == cmd[..n] + gap + cmd[a..];
    NameIsWord(cmd);
    if a < |cmd| {
      assert n < a && GapEnd(cmd, a - 1);
    }
  }

  lemma NameIsWord(cmd: seq<byte>)
    requires cmd != [] && !EndsWord(cmd[0])
    ensures IsWord(CommandName(cmd))
  {
  }

  lemma {:induction false} GapIsSpaces(cmd: seq<byte>, n: nat, i: nat)
    requires n == WordLen(cmd) && n <= i < ArgStart(cmd, 0) && NEWLINE !in cmd
    ensures cmd[i] == SPACE
  {
    if i > n {
      GapIsSpaces(cmd, n, i - 1);
      assert !GapEnd(cmd, i - 1);
    } else {
      assert EndsWord(cmd[n]) && cmd[n] in cmd;
    }
  }

  /** The parsing loop of execute: copies the first word into a zeroed buffer. */
  method ParseName(command: seq<byte>) returns (fname: array<byte>)
    requires CLen(command) < |command| && WordLen(CStr(command)) < NAME_BUF
    ensures fresh(fname) && fname.Length == NAME_BUF
    ensures CLen(fname[..]) < NAME_BUF && CStr(fname[..]) == CommandName(CStr(command))
  {
    ghost var cmd := CStr(command);
    fname := new byte[128](i => NUL);
    var i := 0;
    if command[0] != SPACE && command[0] != NEWLINE && command[0] != NUL {
      while i < CLen(command)
        invariant 0 <= i <= WordLen(cmd)
        invariant fname[..i] == cmd[..i]
        invariant forall k :: i <= k < 128 ==> fname[k] == NUL
      {
        if command[i] == SPACE || command[i] == NEWLINE {
          fname[i] := NUL;
          break;
        }
        fname[i] := command[i];
        i := i + 1;
      }
    }
    assert i == WordLen(cmd);
    assert forall k :: 0 <= k < i ==> fname[..][k] == fname[..i][k] == cmd[k];
    CLenIs(fname[..], i);
  }

  lemma PaddedIs(s: seq<byte>, src: seq<byte>, n: nat, m: nat)
    requires |s| == n && m <= n && m <= CLen(src) && (m < n ==> m == CLen(src))
    requires forall k :: 0 <= k < m ==> s[k] == src[k]
    requires forall k :: m <= k < n ==> s[k] == NUL
    ensures s == Padded(CStr(src), n)
  {
    hide CLen;
  }

  method StrNCpy(dest: array<byte>, src: seq<byte>, n: nat)
    requires CLen(src) < |src| && n <= dest.Length
    modifies dest
    ensures dest[..] == Padded(CStr(src), n) + old(dest[n..])
  {
    hide CLen, Padded;
    var i := 0;
    while i < n && src[i] != NUL
      invariant 0 <= i <= n && i <= CLen(src)
      invariant forall k :: 0 <= k < i ==> dest[k] == src[k]
      invariant forall k :: i <= k < dest.Length ==> dest[k] == old(dest[k])
    {
      dest[i] := src[i];
      i := i + 1;
    }
    ghost var m := i;
    while i < n
      invariant m <= i <= n
      invariant forall k :: 0 <= k < m ==> dest[k] == src[k]
      invariant forall k :: m <= k < i ==> dest[k] == NUL
      invariant forall k :: i <= k < dest.Length ==> dest[k] == old(dest[k])
    {
      dest[i] := NUL;
      i := i + 1;
    }
    PaddedIs(dest[..n], src, n, m);
    assert dest[n..] == old(dest[n..]) && dest[..] == dest[..n] + dest[n..];
  }

  /** The two scanning loops of getargs: the arguments, copied into a zeroed buffer. */
  method RetrieveArgs(userBuf: seq<byte>) returns (retrieved: array<byte>)
    requires |userBuf| == USER_BUF && CLen(userBuf) < USER_BUF
    ensures fresh(retrieved) && retrieved.Length == USER_BUF && CLen(retrieved[..]) < USER_BUF
    ensures CStr(retrieved[..]) == ArgsOf(CStr(userBuf))
  {
    hide CLen;
    ghost var cmd := CStr(userBuf);
    retrieved := new byte[1024](i => NUL);
    var i := 0;
    while i < CLen(userBuf)
      invariant 0 <= i <= |cmd|
      invariant ArgStart(cmd, i) == ArgStart(cmd, 0)
    {
      if userBuf[i] == SPACE && userBuf[i + 1] != SPACE {
        i := i + 1;
        break;
      }
      i := i + 1;
    }
    var j := 0;
    ghost var from := i;
    assert from == ArgStart(cmd, 0);
    while j < CLen(userBuf) && userBuf[i] != NUL
      invariant i == from + j <= |cmd|
      invariant forall k :: 0 <= k < j ==> retrieved[k] == cmd[from + k]
      invariant forall k :: j <= k < 1024 ==> retrieved[k] == NUL
    {
      retrieved[j] := userBuf[i];
      i, j := i + 1, j + 1;
    }
    CLenIs(retrieved[..], j);
  }

  /**
   * getargs on a process's user_buf: -1 for a null buffer, a zero size or no
   * arguments, else the arguments cut or padded to nbytes.
   */
  method GetArgs(userBuf: seq<byte>, buf: array?<byte>, nbytes: nat) returns (ret: int)
    requires |userBuf| == USER_BUF && CLen(userBuf) < USER_BUF
    requires buf != null ==> nbytes <= buf.Length
    modifies buf
    ensures ret == 0 || ret == -1
    ensures ret == 0 <==> buf != null && nbytes != 0 && ArgsOf(CStr(userBuf)) != []
    ensures buf != null && ret == -1 ==> buf[..] == old(buf[..])
    ensures ret == 0 ==> buf[..] == Padded(ArgsOf(CStr(userBuf)), nbytes) + old(buf[nbytes..])
  {
    var retrieved := RetrieveArgs(userBuf);
    if buf == null || nbytes == 0 || retrieved[0] == NUL {
      return -1;
    }
    StrNCpy(buf, retrieved[..], nbytes);
    return 0;
  }
}
