/** What each system call and the timer do, in the terms of their callers. */
module ProcessCalls {
  import opened Bytes
  import opened FileSystem
  import opened Process
  import opened ProcessInvariant
  import opened ProcessRuns
  import Directory
  import Arguments

  // -------------------------------------------------------------- the schedule

  lemma ExecuteKeepsSchedule(img: Image, s: State, cmd: seq<byte>, junk: seq<byte>)
    requires WellFormed(img) && Shape(s) && CommandOk(img, cmd, junk)
    ensures ExecuteStep(img, s, cmd, junk).sched == s.sched
  {
    hide LaunchSlot, CommandOk, InitFds, Arguments.Padded;
  }

  lemma SwitchGoesOn(img: Image, s: State, junk: seq<byte>)
    requires WellFormed(img) && Shape(s) && CommandOk(img, SHELL, junk)
    ensures SwitchStep(img, s, junk).sched == (s.sched + 1) % 3
  {
    hide ExecuteStep, CommandOk;
    ExecuteKeepsSchedule(img, Rotate(s), SHELL, junk);
  }

  /** The timer goes to the next of the three terminals; no system call moves the schedule. */
  lemma SwitchGoesToNext(img: Image, s: State, e: Event)
    requires CanStep(img, s, e)
    ensures Step(img, s, e).sched == if e.Switch? then (s.sched + 1) % 3 else s.sched
  {
    hide ExecuteStep, SwitchStep, CommandOk, CloseAll, AfterRead, ReadDefined, WellFormed;
    match e
    case Execute(cmd, junk) => ExecuteKeepsSchedule(img, s, cmd, junk);
    case Switch(junk) => SwitchGoesOn(img, s, junk);
    case _ =>
  }

  function SwitchCount(es: seq<Event>): nat {
    if es == [] then 0 else (if es[0].Switch? then 1 else 0) + SwitchCount(es[1..])
  }

  /** Over any run, which terminal is scheduled depends on the number of timer switches alone. */
  lemma {:induction false} RoundRobin(img: Image, s: State, es: seq<Event>)
    requires 0 <= s.sched < 3 && CanRun(img, s, es)
    ensures Run(img, s, es).sched == (s.sched + SwitchCount(es)) % 3
    decreases |es|
  {
    hide Step, CanStep;
    if es != [] {
      SwitchGoesToNext(img, s, es[0]);
      RoundRobin(img, Step(img, s, es[0]), es[1..]);
    }
  }

  /** In any three consecutive switches each terminal is scheduled exactly once. */
  lemma ThreeSwitchesVisitAll(img: Image, s: State, es1: seq<Event>, es2: seq<Event>, es3: seq<Event>, t: int)
    requires 0 <= s.sched < 3 && 0 <= t < 3
    requires SwitchCount(es1) == SwitchCount(es2) == SwitchCount(es3) == 1
    requires CanRun(img, s, es1) && CanRun(img, Run(img, s, es1), es2)
    requires CanRun(img, Run(img, Run(img, s, es1), es2), es3)
    ensures var s1 := Run(img, s, es1);
            var s2 := Run(img, s1, es2);
            var s3 := Run(img, s2, es3);
            && s1.sched != s2.sched && s2.sched != s3.sched && s3.sched != s1.sched
            && (t == s1.sched || t == s2.sched || t == s3.sched) && s3.sched == s.sched
  {
    hide Run, CanRun;
    RoundRobin(img, s, es1);
    RoundRobin(img, Run(img, s, es1), es2);
    RoundRobin(img, Run(img, Run(img, s, es1), es2), es3);
  }

  // ------------------------------------------------------------------- execute

  /** An execute that fails changes nothing at all. */
  lemma FailedExecuteChangesNothing(img: Image, s: State, cmd: seq<byte>, junk: seq<byte>)
    requires CanStep(img, s, Execute(cmd, junk)) && LaunchSlot(img, s, cmd, junk) == -1
    ensures Step(img, s, Execute(cmd, junk)) == s
  {
    hide LaunchSlot, CommandOk;
  }

  /**
   * A new process runs on the scheduled terminal, above its caller, with the
   * console on descriptors 0 and 1, nothing else open, and its command line in
   * user_buf; no other process and no other terminal changes.
   */
  lemma FreshProcess(img: Image, s: State, cmd: seq<byte>, junk: seq<byte>)
    requires CanStep(img, s, Execute(cmd, junk)) && LaunchSlot(img, s, cmd, junk) != -1
    ensures var r, p := Step(img, s, Execute(cmd, junk)), LaunchSlot(img, s, cmd, junk);
            && Shape(r) && r.sched == s.sched && Cur(r).curPid == p && !s.pcbs[p].inUse
            && (forall t :: 0 <= t < 3 && t != s.sched ==> r.terms[t] == s.terms[t])
            && (forall q :: 0 <= q < 8 && q != p ==> r.pcbs[q] == s.pcbs[q])
            && var c := r.pcbs[p];
               && c.inUse && c.screen == s.sched && c.parentPid == Cur(s).curPid
               && c.fds[0] == c.fds[1] == Fd(KeyboardTable, 0, 0, true)
               && (forall fd :: 2 <= fd < 8 ==> !c.fds[fd].flags && c.fds[fd].table.NoTable?)
               && (|cmd| < 1024 ==> CStr(c.userBuf) == cmd)
  {
    hide LaunchSlot, Arguments.Padded;
    if |cmd| < 1024 {
      Arguments.PaddedRoundTrip(cmd, 1024);
    }
  }

  /**
   * The timer, going to a terminal without a process, starts the program named
   * "shell" there if that can be executed; going to any other terminal it
   * resumes the process there.
   */
  lemma SwitchBootsShell(img: Image, s: State, junk: seq<byte>)
    requires CanStep(img, s, Switch(junk))
    ensures var r, next := Step(img, s, Switch(junk)), (s.sched + 1) % 3;
            && Shape(Rotate(s)) && |r.terms| == 3 && |r.pcbs| == 8 && r.sched == next
            && (s.terms[next].curPid != -1 ==> r.terms[next].curPid == s.terms[next].curPid && r.pcbs == s.pcbs)
            && (s.terms[next].curPid == -1 ==>
                  var p := LaunchSlot(img, Rotate(s), [115, 104, 101, 108, 108], junk);
                  && r.terms[next].curPid == p
                  && (p != -1 ==> r.pcbs[p].inUse && CStr(r.pcbs[p].userBuf) == [115, 104, 101, 108, 108])
                  && (p == -1 ==> r.pcbs == s.pcbs))
  {
    hide LaunchSlot, CommandOk, Arguments.Padded;
    Arguments.PaddedRoundTrip(SHELL, 1024);
    SwitchGoesOn(img, s, junk);
  }

  // ------------------------------------------------------------ open and close

  /**
   * open binds the RTC's, the directory's or the file's driver exactly as the
   * entry's kind is 0, 1 or 2, at position 0, and a file's descriptor to the
   * entry's inode.
   */
  lemma OpenBindsDriver(img: Image, s: State, stacks: seq<Stack>, name: seq<byte>)
    requires Inv(s, stacks) && CanStep(img, s, Open(name)) && OpenFd(img, s, name) != -1
    ensures var d, f := img.entries[Directory.Lookup(img, name)],
                        Step(img, s, Open(name)).pcbs[Cur(s).curPid].fds[OpenFd(img, s, name)];
            && d.kind <= 2 && Directory.EntryName(d) == name && f.flags && f.pos == 0
            && (f.table.RtcTable? <==> d.kind == 0) && (f.table.DirectoryTable? <==> d.kind == 1)
            && (f.table.FileTable? <==> d.kind == 2) && (d.kind == 2 ==> f.inode == d.inode)
  {
    hide Directory.LookupFrom;
    CurFds(s, stacks);
    assert DentryOk(img, img.entries[Directory.Lookup(img, name)]);
    OpenTakesLeastFree(img, s, stacks, name);
  }

  /** close frees an open descriptor in 2..7, which open can hand out again, and touches nothing else. */
  lemma CloseFreesDescriptor(img: Image, s: State, stacks: seq<Stack>, fd: int)
    requires Inv(s, stacks) && CanStep(img, s, Close(fd))
    ensures var r, p := Step(img, s, Close(fd)), Cur(s).curPid;
            && |r.pcbs| == 8 && |r.pcbs[p].fds| == 8 && r.terms == s.terms && r.sched == s.sched
            && (forall q :: 0 <= q < 8 && q != p ==> r.pcbs[q] == s.pcbs[q])
            && (forall i :: 0 <= i < 8 && i != fd ==> r.pcbs[p].fds[i] == s.pcbs[p].fds[i])
            && (2 <= fd < 8 ==> !r.pcbs[p].fds[fd].flags && r.pcbs[p].fds[fd].table.NoTable?)
            && (!(2 <= fd < 8) || !s.pcbs[p].fds[fd].flags ==> r == s)
            && (2 <= fd < 8 && s.pcbs[p].fds[fd].flags ==>
                  r.pcbs[p].fds[fd] == Fd(NoTable, if s.pcbs[p].fds[fd].table.RtcTable? then 0 else 0xFFFF_FFFF, 0, false))
  {
    CurFds(s, stacks);
    if 2 <= fd < 8 && !s.pcbs[Cur(s).curPid].fds[fd].flags {
      var p := Cur(s).curPid;
      assert s.pcbs[p].fds[fd := s.pcbs[p].fds[fd]] == s.pcbs[p].fds;
    }
  }

  // ---------------------------------------------------------------------- read

  /** A running process can read every open descriptor but 1, and its console always. */
  lemma ReadableExactly(s: State, stacks: seq<Stack>, fd: int)
    requires Inv(s, stacks) && Live(s)
    ensures Readable(s, fd) <==> fd == 0 || (2 <= fd < 8 && s.pcbs[Cur(s).curPid].fds[fd].flags)
  {
    CurFds(s, stacks);
  }

  /** A read that fails, or on a device, changes nothing; any other changes the position read from alone. */
  lemma ReadChangesPosition(img: Image, s: State, stacks: seq<Stack>, fd: int, n: u32)
    requires Inv(s, stacks) && CanStep(img, s, Read(fd, n))
    ensures var r, p := Step(img, s, Read(fd, n)), Cur(s).curPid;
            && (!Readable(s, fd) ==> r == s)
            && (Readable(s, fd) ==>
                  && r == s.(pcbs := r.pcbs) && |r.pcbs| == 8
                  && (forall q :: 0 <= q < 8 && q != p ==> r.pcbs[q] == s.pcbs[q])
                  && r.pcbs[p] == s.pcbs[p].(fds := s.pcbs[p].fds[fd := AfterRead(img, s.pcbs[p].fds[fd], n)]))
  {
    hide AfterRead, ReadDefined;
    CurFds(s, stacks);
  }

  /**
   * A read of n bytes from a file, at any position up to its last block, gives
   * n bytes and advances by n. They start with the file's own bytes; only where
   * the file ends does memory behind it follow.
   */
  lemma FileReadDelivers(img: Image, f: Fd, n: u32)
    requires f.table.FileTable? && FileOk(img, f.inode) && n > 0 && ReadDefined(img, f.inode, f.pos, n)
    requires f.pos < img.inodes[f.inode].length
    ensures var ino := img.inodes[f.inode];
            var m := if f.pos + n <= ino.length then n else ino.length - f.pos;
            && |FdBytes(img, f, n)| == n && FdBytes(img, f, n)[..m] == FileBytes(img, ino, f.pos, f.pos + m)
            && AfterRead(img, f, n) == f.(pos := f.pos + n)
  {
    hide FdBytes, AfterRead, FileBytes, ReadDefined, FileOk, ReadBytes;
    var ino := InodeOf(img, f);
    if f.pos + n <= ino.length {
      ReadNextPiece(img, f, n);
      assert FdBytes(img, f, n)[..n] == FdBytes(img, f, n);
    } else {
      FdRead(img, f, n);
      PrefixPastEnd(img, f.inode, f.pos, n);
    }
  }

  lemma InodeOf(img: Image, f: Fd) returns (ino: Inode)
    requires FileOk(img, f.inode)
    ensures f.inode < |img.inodes| && ino == img.inodes[f.inode] && |ino.dblock| == INODE_BLOCKS && WellFormed(img)
  {
    ino := img.inodes[f.inode];
  }

  /** A file descriptor's read is read_data at its position. */
  lemma FdRead(img: Image, f: Fd, n: u32)
    requires f.table.FileTable? && FileOk(img, f.inode) && ReadDefined(img, f.inode, f.pos, n)
    ensures f.pos + n < 0x1_0000_0000 && |img.inodes[f.inode].dblock| == INODE_BLOCKS && f.pos / 4096 < INODE_BLOCKS
    ensures EndBlock(img.inodes[f.inode], f.pos, n) < INODE_BLOCKS
    ensures var s := ReadBytes(img, img.inodes[f.inode], f.pos, n);
            && FdBytes(img, f, n) == s
            && (|s| <= n ==> AfterRead(img, f, n) == f.(pos := f.pos + |s|))
  {
    hide ReadBytes;
  }

  lemma PrefixPastEnd(img: Image, inode: u32, pos: u32, n: u32)
    requires FileOk(img, inode) && ReadDefined(img, inode, pos, n)
    requires pos < img.inodes[inode].length < pos + n
    ensures var ino, m := img.inodes[inode], img.inodes[inode].length - pos;
            && |ReadBytes(img, ino, pos, n)| == n
            && ReadBytes(img, ino, pos, n)[..m] == FileBytes(img, ino, pos, pos + m)
  {
    var ino := img.inodes[inode];
    var e := (ino.length - 1) / 4096;
    EndOfRequest(img, inode, pos, n, e);
    ReadPastEnd(img, inode, pos, n, e);
    var hi := if pos + n < (e + 1) * 4096 then pos + n else (e + 1) * 4096;
    FileBytesSplit(img, ino, pos, ino.length, hi);
    hide ReadBytes, FileBytes, ReadDefined, FileOk;
  }

  lemma EndOfRequest(img: Image, inode: u32, pos: u32, n: u32, e: nat)
    requires FileOk(img, inode) && ReadDefined(img, inode, pos, n)
    requires pos < img.inodes[inode].length < pos + n && e == (img.inodes[inode].length - 1) / 4096
    ensures pos + n < 0x1_0000_0000 && pos / 4096 <= e < INODE_BLOCKS && img.inodes[inode].length <= (e + 1) * 4096
    ensures forall b :: 0 <= b <= e ==> !BadBlock(img, img.inodes[inode].dblock[b])
    ensures (img.inodes[inode].dblock[e] - e) * 4096 + (pos + n) <= |img.data|
  {
    var ino := img.inodes[inode];
    assert EndBlock(ino, pos, n) == e;
    AllGood(img, ino, pos / 4096, e);
    var f := FinalCopy(ino, pos, n);
    AddrIn(ino, f, e);
    hide BadBlock, FirstBad;
  }

  /**
   * A read at a position in or at the end of a file gives exactly the file's
   * bytes up to its end, and stops there, if and only if the request ends in
   * the file, or starts at its end and that is the end of a block.
   */
  lemma ReadStopsAtEndExactlyWhen(img: Image, f: Fd, n: u32)
    requires f.table.FileTable? && FileOk(img, f.inode) && n > 0 && ReadDefined(img, f.inode, f.pos, n)
    requires f.pos <= img.inodes[f.inode].length
    ensures var ino := img.inodes[f.inode];
            var end := if f.pos + n <= ino.length then f.pos + n else ino.length;
            var stops := f.pos + n <= ino.length || (f.pos == ino.length && ino.length % 4096 == 0);
            && (FdBytes(img, f, n) == FileBytes(img, ino, f.pos, end) <==> stops)
            && (AfterRead(img, f, n).pos == end <==> stops)
  {
    FillsExactlyWhen(img, f.inode, f.pos, n);
    hide ReadBytes, FileBytes, ReadDefined, FileOk, FdBytes, AfterRead, BadBlock, EndBlock;
    FdRead(img, f, n);
    FillsCount(img, f.inode, f.pos, n);
  }

  lemma FillsCount(img: Image, inode: u32, pos: u32, n: u32)
    requires FileOk(img, inode) && n > 0 && ReadDefined(img, inode, pos, n) && pos <= img.inodes[inode].length
    ensures var ino := img.inodes[inode];
            && pos + n < 0x1_0000_0000
            && |ReadBytes(img, ino, pos, n)|
               == if pos + n > ino.length && pos == ino.length && ino.length % 4096 == 0 then 0 else n
  {
    var ino := img.inodes[inode];
    if pos + n <= ino.length {
      ReadInRange(img, inode, pos, n);
    } else {
      LastBlock(ino, pos, n);
      CountOverGoodBlocks(img, inode, pos, n);
    }
    hide ReadBytes, FileBytes, ReadDefined, BadBlock;
  }

  // -------------------------------------------------------------- the clock

  ghost predicate OnRtc(s: State, p: int, fd: int) {
    && Shape(s) && 0 <= p < 8 && 2 <= fd < 8 && s.pcbs[p].inUse
    && s.pcbs[p].fds[fd] == Fd(RtcTable, 0, 0, true)
  }

  lemma {:induction false} RtcStays(img: Image, s: State, stacks: seq<Stack>, es: seq<Event>, p: int, fd: int)
    requires Inv(s, stacks) && CanRun(img, s, es) && OnRtc(s, p, fd) && KeepsOpen(img, s, es, p, fd)
    ensures OnRtc(Run(img, s, es), p, fd) && Delivered(img, s, es, p, fd) == []
    decreases |es|
  {
    hide Step, StacksAfter, CanStep, StackOk;
    if es != [] {
      StepKeeps(img, s, stacks, es[0]);
      StepOnDescriptor(img, s, stacks, es[0], p, fd);
      RtcStays(img, Step(img, s, es[0]), StacksAfter(img, s, stacks, es[0]), es[1..], p, fd);
    }
  }

  /**
   * From a fresh open of a kind 0 entry, every read through the descriptor,
   * over any run that keeps it open, delivers no byte and leaves it on the RTC
   * at position 0.
   */
  lemma RtcDeliversNothing(img: Image, s: State, stacks: seq<Stack>, name: seq<byte>, es: seq<Event>, fd: int)
    requires Inv(s, stacks) && CanStep(img, s, Open(name)) && fd == OpenFd(img, s, name) != -1
    requires img.entries[Directory.Lookup(img, name)].kind == 0
    requires var o := Step(img, s, Open(name));
             CanRun(img, o, es) && 0 <= Cur(s).curPid < 8 && KeepsOpen(img, o, es, Cur(s).curPid, fd)
    ensures var o := Step(img, s, Open(name));
            var r := Run(img, o, es);
            && Shape(r) && r.pcbs[Cur(s).curPid].fds[fd] == Fd(RtcTable, 0, 0, true)
            && Delivered(img, o, es, Cur(s).curPid, fd) == []
  {
    hide KeepsOpen, CanRun, Run, Delivered, StackOk, Directory.LookupFrom;
    CurFds(s, stacks);
    StepKeeps(img, s, stacks, Open(name));
    RtcStays(img, Step(img, s, Open(name)), stacks, es, Cur(s).curPid, fd);
  }
}
