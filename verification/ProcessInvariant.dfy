/** What every reachable state of the process machine satisfies. */
module ProcessInvariant {
  import opened Bytes
  import opened FileSystem
  import opened Process
  import opened Sequences
  import Directory

  /** The processes of one terminal, the running one last. */
  type Stack = seq<int>

  /** The process under position i of a stack, -1 at the bottom. */
  function Below(st: Stack, i: nat): int
    requires i <= |st|
  {
    if i == 0 then -1 else st[i - 1]
  }

  function Top(st: Stack): int {
    Below(st, |st|)
  }

  function FdsFor(pid: int): FdRef {
    if pid == -1 then KernelFds else FdsOf(pid)
  }

  /** The kernel stack top terminal t runs on while pid is its process. */
  function EspFor(t: int, pid: int): int {
    if pid == -1 then BootTop(t) else StackTop(pid)
  }

  /** tss.esp0 of the scheduled terminal, the saved value of the others. */
  function EspNow(s: State, t: int): int
    requires 0 <= t < |s.terms|
  {
    if t == s.sched then s.esp0 else s.terms[t].curEsp0
  }

  /**
   * A live process's descriptors: 0 and 1 are the console, an open descriptor
   * has an operation table, and no other descriptor has the keyboard's.
   */
  ghost predicate FdsOk(fds: seq<Fd>) {
    && |fds| == 8
    && fds[0].flags && fds[0].table.KeyboardTable?
    && fds[1].flags && fds[1].table.KeyboardTable?
    && (forall i :: 2 <= i < 8 ==> !fds[i].table.KeyboardTable? && (fds[i].flags <==> !fds[i].table.NoTable?))
  }

  ghost predicate FrameOk(pcbs: seq<Pcb>, t: int, st: Stack, i: nat)
    requires |pcbs| == 8 && i < |st|
  {
    && 0 <= st[i] < 8
    && var p := pcbs[st[i]];
       && p.inUse && p.screen == t && FdsOk(p.fds)
       && p.parentPid == Below(st, i)
       && p.parentFd == FdsFor(Below(st, i))
       && p.parentEsp0 == EspFor(t, Below(st, i))
  }

  ghost predicate StackOk(s: State, t: int, st: Stack)
    requires Shape(s) && 0 <= t < 3
  {
    && NoDup(st)
    && (forall i :: 0 <= i < |st| ==> FrameOk(s.pcbs, t, st, i))
    && s.terms[t].curPid == Top(st)
    && s.terms[t].curFd == FdsFor(Top(st))
    && EspNow(s, t) == EspFor(t, Top(st))
  }

  ghost predicate Inv(s: State, stacks: seq<Stack>) {
    && Shape(s) && |stacks| == 3
    && (forall t :: 0 <= t < 3 ==> StackOk(s, t, stacks[t]))
    && (forall p :: 0 <= p < 8 && s.pcbs[p].inUse ==>
          0 <= s.pcbs[p].screen < 3 && p in stacks[s.pcbs[p].screen])
    && (Top(stacks[s.sched]) != -1 ==> s.execPage == ExecEntry(Top(stacks[s.sched])))
    && s.kernelFds == seq(8, i => CLEAR)
  }

  /** PCB memory after process_init: every slot is free. */
  ghost predicate AllFree(pcbs: seq<Pcb>) {
    |pcbs| == 8 && forall p :: 0 <= p < 8 ==> !pcbs[p].inUse && |pcbs[p].fds| == 8
  }

  lemma BootHolds(pcbs: seq<Pcb>)
    requires AllFree(pcbs)
    ensures Inv(Boot(pcbs), [[], [], []])
  {
  }

  // ---------------------------------------------------- how steps move stacks

  ghost function StacksAfter(img: Image, s: State, stacks: seq<Stack>, e: Event): (r: seq<Stack>)
    requires CanStep(img, s, e) && |stacks| == 3
    ensures |r| == 3
  {
    match e
    case Execute(cmd, junk) => Pushed(stacks, s.sched, LaunchSlot(img, s, cmd, junk))
    case Switch(junk) =>
      var r := Rotate(s);
      if Cur(r).curPid != -1 then stacks else Pushed(stacks, r.sched, LaunchSlot(img, r, SHELL, junk))
    case Halt => Popped(stacks, s.sched)
    case HaltException => Popped(stacks, s.sched)
    case _ => stacks
  }

  ghost function Pushed(stacks: seq<Stack>, t: int, slot: int): seq<Stack>
    requires 0 <= t < |stacks|
  {
    if slot == -1 then stacks else stacks[t := stacks[t] + [slot]]
  }

  ghost function Popped(stacks: seq<Stack>, t: int): seq<Stack>
    requires 0 <= t < |stacks|
  {
    if stacks[t] == [] then stacks else stacks[t := stacks[t][..|stacks[t]| - 1]]
  }

  /** Two PCBs that agree on everything a frame fixes. */
  ghost predicate SameFrame(p: Pcb, q: Pcb) {
    && q.inUse == p.inUse && q.screen == p.screen && q.parentPid == p.parentPid
    && q.parentFd == p.parentFd && q.parentEsp0 == p.parentEsp0 && (FdsOk(p.fds) ==> FdsOk(q.fds))
  }

  lemma FramesKeep(pcbs: seq<Pcb>, pcbs': seq<Pcb>, t: int, st: Stack, st': Stack)
    requires |pcbs| == |pcbs'| == 8 && st' <= st
    requires forall i :: 0 <= i < |st| ==> FrameOk(pcbs, t, st, i)
    requires forall p :: 0 <= p < 8 && p in st' ==> SameFrame(pcbs[p], pcbs'[p])
    ensures forall i :: 0 <= i < |st'| ==> FrameOk(pcbs', t, st', i)
  {
    forall i | 0 <= i < |st'|
      ensures FrameOk(pcbs', t, st', i)
    {
      assert FrameOk(pcbs, t, st, i) && st[i] in st';
    }
  }

  lemma LaunchShape(s: State, slot: int, cmd: seq<byte>)
    requires Shape(s) && 0 <= slot < 8
    ensures Shape(Launch(s, slot, cmd))
  {
  }

  /** A launch into a free slot leaves every frame as it was. */
  lemma LaunchFrame(s: State, t: int, st: Stack, slot: int, cmd: seq<byte>, i: nat, st': Stack)
    requires Shape(s) && 0 <= slot < 8 && !s.pcbs[slot].inUse
    requires i < |st| && FrameOk(s.pcbs, t, st, i) && (st' == st || st' == st + [slot])
    ensures st[i] != slot && FrameOk(Launch(s, slot, cmd).pcbs, t, st', i)
  {
    hide FdsOk;
  }

  lemma NewFrame(s: State, st: Stack, slot: int, cmd: seq<byte>)
    requires Shape(s) && 0 <= slot < 8 && StackOk(s, s.sched, st)
    ensures FrameOk(Launch(s, slot, cmd).pcbs, s.sched, st + [slot], |st|)
  {
  }

  lemma LaunchStack(s: State, st: Stack, slot: int, cmd: seq<byte>, t: int)
    requires Shape(s) && 0 <= t < 3 && StackOk(s, t, st) && 0 <= slot < 8 && !s.pcbs[slot].inUse
    requires Shape(Launch(s, slot, cmd))
    ensures StackOk(Launch(s, slot, cmd), t, if t == s.sched then st + [slot] else st)
  {
    hide FrameOk;
    var st' := if t == s.sched then st + [slot] else st;
    forall i | 0 <= i < |st|
      ensures FrameOk(Launch(s, slot, cmd).pcbs, t, st', i) && st[i] != slot
    {
      LaunchFrame(s, t, st, slot, cmd, i, st');
    }
    if t == s.sched {
      NewFrame(s, st, slot, cmd);
    }
  }

  lemma LaunchKeeps(s: State, stacks: seq<Stack>, slot: int, cmd: seq<byte>)
    requires Inv(s, stacks) && 0 <= slot < 8 && !s.pcbs[slot].inUse
    ensures Inv(Launch(s, slot, cmd), Pushed(stacks, s.sched, slot))
  {
    LaunchShape(s, slot, cmd);
    hide Shape, StackOk;
    forall t | 0 <= t < 3
      ensures StackOk(Launch(s, slot, cmd), t, Pushed(stacks, s.sched, slot)[t])
    {
      LaunchStack(s, stacks[t], slot, cmd, t);
    }
  }

  /** The running process is on no other position of any stack. */
  lemma OnlyOnTop(s: State, stacks: seq<Stack>, t: int)
    requires Inv(s, stacks) && Live(s) && 0 <= t < 3
    ensures var n := |stacks[t]| - if t == s.sched then 1 else 0;
            n >= 0 && Cur(s).curPid !in stacks[t][..n]
  {
    var pid, top := Cur(s).curPid, |stacks[s.sched]| - 1;
    assert StackOk(s, s.sched, stacks[s.sched]) && FrameOk(s.pcbs, s.sched, stacks[s.sched], top);
    if t != s.sched {
      assert StackOk(s, t, stacks[t]);
      forall i | 0 <= i < |stacks[t]|
        ensures stacks[t][i] != pid
      {
        assert FrameOk(s.pcbs, t, stacks[t], i);
      }
    }
  }

  lemma HaltKeeps(s: State, stacks: seq<Stack>)
    requires Inv(s, stacks) && Live(s)
    ensures Inv(HaltStep(s), Popped(stacks, s.sched))
  {
    hide FdsOk;
    CurFds(s, stacks);
    var s', stacks' := HaltStep(s), Popped(stacks, s.sched);
    var pid, st := Cur(s).curPid, stacks[s.sched];
    assert FrameOk(s.pcbs, s.sched, st, |st| - 1);
    assert |st| >= 2 ==> FrameOk(s.pcbs, s.sched, st, |st| - 2);
    forall t | 0 <= t < 3
      ensures forall i :: 0 <= i < |stacks'[t]| ==> FrameOk(s'.pcbs, t, stacks'[t], i)
    {
      assert StackOk(s, t, stacks[t]);
      OnlyOnTop(s, stacks, t);
      FramesKeep(s.pcbs, s'.pcbs, t, stacks[t], stacks'[t]);
    }
    assert Shape(s');
    forall t | 0 <= t < 3
      ensures StackOk(s', t, stacks'[t])
    {
      assert StackOk(s, t, stacks[t]);
    }
  }

  /** Changing the running process's descriptors, and keeping them in order, disturbs nothing else. */
  lemma FdsKeep(s: State, stacks: seq<Stack>, fds: seq<Fd>)
    requires Inv(s, stacks) && Live(s) && FdsOk(fds)
    ensures Inv(WithFds(s, Cur(s).curFd, fds), stacks)
  {
    CurFds(s, stacks);
    var s' := WithFds(s, Cur(s).curFd, fds);
    forall t | 0 <= t < 3
      ensures StackOk(s', t, stacks[t])
    {
      assert StackOk(s, t, stacks[t]);
      FramesKeep(s.pcbs, s'.pcbs, t, stacks[t], stacks[t]);
    }
  }

  lemma RotateKeeps(s: State, stacks: seq<Stack>)
    requires Inv(s, stacks)
    ensures var r := Rotate(s);
            && r.sched == (s.sched + 1) % 3 && r.esp0 == s.terms[(s.sched + 1) % 3].curEsp0
            && r.terms == s.terms[s.sched := Cur(s).(curEsp0 := s.esp0)]
            && Cur(r).curPid == Top(stacks[r.sched])
            && Inv(r.(execPage := ExecEntry(Cur(r).curPid)), stacks)
  {
    var r := Rotate(s);
    var s' := r.(execPage := ExecEntry(Cur(r).curPid));
    forall t | 0 <= t < 3
      ensures StackOk(s', t, stacks[t])
    {
      assert StackOk(s, t, stacks[t]);
    }
  }

  /** The running process's table is its own, and its parent is a process or none. */
  lemma CurFds(s: State, stacks: seq<Stack>)
    requires Inv(s, stacks) && Live(s)
    ensures Cur(s).curFd == FdsOf(Cur(s).curPid) && s.pcbs[Cur(s).curPid].inUse
    ensures FdsOk(FdsAt(s, Cur(s).curFd))
    ensures -1 <= s.pcbs[Cur(s).curPid].parentPid < 8 && RefOk(s.pcbs[Cur(s).curPid].parentFd)
  {
    var st := stacks[s.sched];
    assert StackOk(s, s.sched, st) && FrameOk(s.pcbs, s.sched, st, |st| - 1);
    assert |st| >= 2 ==> FrameOk(s.pcbs, s.sched, st, |st| - 2);
  }

  /** Every step keeps the invariant. */
  lemma StepKeeps(img: Image, s: State, stacks: seq<Stack>, e: Event)
    requires Inv(s, stacks) && CanStep(img, s, e)
    ensures Inv(Step(img, s, e), StacksAfter(img, s, stacks, e))
  {
    match e
    case Execute(cmd, junk) =>
      var slot := LaunchSlot(img, s, cmd, junk);
      if slot != -1 { LaunchKeeps(s, stacks, slot, cmd); }
    case Halt => HaltKeeps(s, stacks);
    case HaltException => HaltKeeps(s, stacks);
    case Switch(junk) =>
      RotateKeeps(s, stacks);
      var r := Rotate(s);
      if Cur(r).curPid == -1 {
        BootKeeps(img, r, stacks, junk);
      }
    case Open(name) => OpenKeeps(img, s, stacks, name);
    case Close(fd) =>
      CurFds(s, stacks);
      if 2 <= fd <= 7 { FdsKeep(s, stacks, CloseStep(s, fd).pcbs[Cur(s).curPid].fds); }
    case Read(fd, n) =>
      CurFds(s, stacks);
      if Readable(s, fd) { FdsKeep(s, stacks, ReadStep(img, s, fd, n).pcbs[Cur(s).curPid].fds); }
  }

  lemma BootKeeps(img: Image, r: State, stacks: seq<Stack>, junk: seq<byte>)
    requires WellFormed(img) && Shape(r) && CommandOk(img, SHELL, junk) && Cur(r).curPid == -1
    requires Inv(r.(execPage := ExecEntry(-1)), stacks) && Top(stacks[r.sched]) == -1
    ensures Inv(ExecuteStep(img, r, SHELL, junk), Pushed(stacks, r.sched, LaunchSlot(img, r, SHELL, junk)))
  {
    assert Inv(r, stacks) by {
      assert forall t :: 0 <= t < 3 ==> StackOk(r.(execPage := ExecEntry(-1)), t, stacks[t]) ==> StackOk(r, t, stacks[t]);
    }
    var slot := LaunchSlot(img, r, SHELL, junk);
    if slot != -1 { LaunchKeeps(r, stacks, slot, SHELL); }
  }

  lemma OpenKeeps(img: Image, s: State, stacks: seq<Stack>, name: seq<byte>)
    requires Inv(s, stacks) && CanStep(img, s, Open(name))
    ensures Inv(OpenStep(img, s, name), stacks)
  {
    CurFds(s, stacks);
    if OpenFd(img, s, name) != -1 {
      assert DentryOk(img, img.entries[Directory.Lookup(img, name)]);
      FdsKeep(s, stacks, OpenStep(img, s, name).pcbs[Cur(s).curPid].fds);
    }
  }
}
