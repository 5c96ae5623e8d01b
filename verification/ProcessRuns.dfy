/** Theorems about whole runs of the process machine. */
module ProcessRuns {
  import opened Bytes
  import opened FileSystem
  import opened Process
  import opened Sequences
  import opened ProcessInvariant
  import Arguments
  import Directory

  ghost predicate CanRun(img: Image, s: State, es: seq<Event>)
    decreases |es|
  {
    es == [] || (CanStep(img, s, es[0]) && CanRun(img, Step(img, s, es[0]), es[1..]))
  }

  ghost function Run(img: Image, s: State, es: seq<Event>): State
    requires CanRun(img, s, es)
    decreases |es|
  {
    if es == [] then s else Run(img, Step(img, s, es[0]), es[1..])
  }

  ghost function RunStacks(img: Image, s: State, stacks: seq<Stack>, es: seq<Event>): (r: seq<Stack>)
    requires CanRun(img, s, es) && |stacks| == 3
    ensures |r| == 3
    decreases |es|
  {
    if es == [] then stacks
    else RunStacks(img, Step(img, s, es[0]), StacksAfter(img, s, stacks, es[0]), es[1..])
  }

  lemma {:induction false} RunKeeps(img: Image, s: State, stacks: seq<Stack>, es: seq<Event>)
    requires Inv(s, stacks) && CanRun(img, s, es)
    ensures Inv(Run(img, s, es), RunStacks(img, s, stacks, es))
    decreases |es|
  {
    if es != [] {
      StepKeeps(img, s, stacks, es[0]);
      RunKeeps(img, Step(img, s, es[0]), StacksAfter(img, s, stacks, es[0]), es[1..]);
    }
  }

  /** Every state reachable from boot satisfies the invariant. */
  lemma Reachable(img: Image, pcbs: seq<Pcb>, es: seq<Event>)
    requires AllFree(pcbs) && CanRun(img, Boot(pcbs), es)
    ensures Inv(Run(img, Boot(pcbs), es), RunStacks(img, Boot(pcbs), [[], [], []], es))
  {
    BootHolds(pcbs);
    RunKeeps(img, Boot(pcbs), [[], [], []], es);
  }

  // ---------------------------------------- what the invariant says of the PCBs

  /** The pid reached by following parent_pid k times, -1 once past a root. */
  function Ancestor(pcbs: seq<Pcb>, pid: int, k: nat): int
    decreases k
  {
    if k == 0 then pid
    else if 0 <= pid < |pcbs| then Ancestor(pcbs, pcbs[pid].parentPid, k - 1)
    else -1
  }

  /** Following parent_pid walks down the stack, one process at a time, and ends at -1. */
  lemma {:induction false} ChainWalksStack(s: State, stacks: seq<Stack>, t: int, n: nat, k: nat)
    requires Inv(s, stacks) && 0 <= t < 3 && k <= n <= |stacks[t]|
    ensures Ancestor(s.pcbs, Below(stacks[t], n), k) == Below(stacks[t], n - k)
    decreases k
  {
    assert StackOk(s, t, stacks[t]);
    if k > 0 {
      assert FrameOk(s.pcbs, t, stacks[t], n - 1);
      ChainWalksStack(s, stacks, t, n - 1, k - 1);
    }
  }

  /** The slots in use on terminal t, by their screen_idx. */
  ghost function OnTerminal(s: State, t: int): set<int>
    requires |s.pcbs| == 8
  {
    set p | 0 <= p < 8 && s.pcbs[p].inUse && s.pcbs[p].screen == t
  }

  ghost function FreeSlots(s: State): set<int>
    requires |s.pcbs| == 8
  {
    set p | 0 <= p < 8 && !s.pcbs[p].inUse
  }

  lemma StackHoldsTerminal(s: State, stacks: seq<Stack>, t: int)
    requires Inv(s, stacks) && 0 <= t < 3
    ensures Elements(stacks[t]) == OnTerminal(s, t) && |stacks[t]| == |OnTerminal(s, t)|
  {
    assert StackOk(s, t, stacks[t]);
    forall p | p in stacks[t]
      ensures p in OnTerminal(s, t)
    {
      var i :| 0 <= i < |stacks[t]| && stacks[t][i] == p;
      assert FrameOk(s.pcbs, t, stacks[t], i);
    }
    NoDupSize(stacks[t]);
  }

  /**
   * The parent_pid chain that starts at a terminal's cur_pid is finite and
   * acyclic and visits exactly the slots in use on that terminal; the three
   * chains and the free slots share nothing and make up all eight slots.
   */
  lemma ChainsPartitionSlots(s: State, stacks: seq<Stack>)
    requires Inv(s, stacks)
    ensures forall t, k :: 0 <= t < 3 && 0 <= k <= |stacks[t]| ==>
              Ancestor(s.pcbs, s.terms[t].curPid, k) == Below(stacks[t], |stacks[t]| - k)
    ensures forall t :: 0 <= t < 3 ==> NoDup(stacks[t]) && Elements(stacks[t]) == OnTerminal(s, t)
    ensures FreeSlots(s) + OnTerminal(s, 0) + OnTerminal(s, 1) + OnTerminal(s, 2) == Range(8)
    ensures |FreeSlots(s)| + |stacks[0]| + |stacks[1]| + |stacks[2]| == 8
  {
    forall t, k | 0 <= t < 3 && 0 <= k <= |stacks[t]|
      ensures Ancestor(s.pcbs, s.terms[t].curPid, k) == Below(stacks[t], |stacks[t]| - k)
    {
      assert StackOk(s, t, stacks[t]);
      ChainWalksStack(s, stacks, t, |stacks[t]|, k);
    }
    forall t | 0 <= t < 3
      ensures NoDup(stacks[t]) && Elements(stacks[t]) == OnTerminal(s, t) && |stacks[t]| == |OnTerminal(s, t)|
    {
      assert StackOk(s, t, stacks[t]);
      StackHoldsTerminal(s, stacks, t);
    }
    SlotCount(s);
  }

  lemma SlotCount(s: State)
    requires |s.pcbs| == 8
    requires forall p :: 0 <= p < 8 && s.pcbs[p].inUse ==> 0 <= s.pcbs[p].screen < 3
    ensures FreeSlots(s) + OnTerminal(s, 0) + OnTerminal(s, 1) + OnTerminal(s, 2) == Range(8)
    ensures |FreeSlots(s)| + |OnTerminal(s, 0)| + |OnTerminal(s, 1)| + |OnTerminal(s, 2)| == 8
  {
    hide Range;
    var f, a, b, c := FreeSlots(s), OnTerminal(s, 0), OnTerminal(s, 1), OnTerminal(s, 2);
    assert f + a + b + c == Range(8);
    assert |f + a| == |f| + |a|;
    assert |f + a + b| == |f + a| + |b|;
    assert |f + a + b + c| == |f + a + b| + |c|;
  }

  /**
   * While a process runs, the TSS and the page directory are its own; and live
   * processes have disjoint blocks (PCB and kernel stack), away from the boot
   * stacks, and disjoint 4MB frames.
   */
  lemma RunningOwnsStackAndFrame(s: State, stacks: seq<Stack>, p: int, q: int)
    requires Inv(s, stacks) && Live(s)
    requires 0 <= p < 8 && s.pcbs[p].inUse && 0 <= q < 8 && s.pcbs[q].inUse && p != q
    ensures s.esp0 == StackTop(Cur(s).curPid) && s.execPage == ExecEntry(Cur(s).curPid)
    ensures s.esp0 == 0x800000 - 0x2000 * (Cur(s).curPid + 1) - 4
    ensures s.execPage == 0x800000 + 0x400000 * Cur(s).curPid + 0x87
    ensures s.pcbs[Cur(s).curPid].inUse && s.pcbs[Cur(s).curPid].screen == s.sched
    ensures StackTop(p) + 4 <= PcbAddr(q) || StackTop(q) + 4 <= PcbAddr(p)
    ensures PcbAddr(p) == 0x800000 - 0x2000 * (p + 2)
    ensures PcbAddr(p) + 1184 < StackTop(p) && StackTop(p) + 4 <= 0x7fe000 < BootTop(2)
    ensures ExecEntry(p) - ExecEntry(q) == 0x400000 * (p - q) && 0x800087 <= ExecEntry(p)
  {
    assert StackOk(s, s.sched, stacks[s.sched]);
    CurFds(s, stacks);
    assert FrameOk(s.pcbs, s.sched, stacks[s.sched], |stacks[s.sched]| - 1);
  }

  /**
   * Every state reachable from boot: the chains partition the slots, and a
   * running process has its own kernel stack and its own frame.
   */
  lemma EveryReachableState(img: Image, pcbs: seq<Pcb>, es: seq<Event>)
    requires AllFree(pcbs) && CanRun(img, Boot(pcbs), es)
    ensures var s, stacks := Run(img, Boot(pcbs), es), RunStacks(img, Boot(pcbs), [[], [], []], es);
            && Inv(s, stacks)
            && |FreeSlots(s)| + |stacks[0]| + |stacks[1]| + |stacks[2]| == 8
            && (forall t :: 0 <= t < 3 ==> Elements(stacks[t]) == OnTerminal(s, t)
                                           && Ancestor(s.pcbs, s.terms[t].curPid, |stacks[t]|) == -1)
            && (Live(s) ==> s.esp0 == StackTop(Cur(s).curPid) && s.execPage == ExecEntry(Cur(s).curPid))
  {
    hide Run, RunStacks, CanRun, Ancestor, Elements, OnTerminal, FreeSlots;
    var s, stacks := Run(img, Boot(pcbs), es), RunStacks(img, Boot(pcbs), [[], [], []], es);
    Reachable(img, pcbs, es);
    ChainsPartitionSlots(s, stacks);
    assert StackOk(s, s.sched, stacks[s.sched]);
  }

  /** A context switch onto a terminal that runs a process. */
  function Resume(s: State): (r: State)
    requires 0 <= s.sched < 3 && |s.terms| == 3
    ensures 0 <= r.sched < 3 && |r.terms| == 3
  {
    Rotate(s).(execPage := ExecEntry(s.terms[NextTerminal(s.sched)].curPid))
  }

  lemma ResumeNext(s: State)
    requires 0 <= s.sched < 3 && |s.terms| == 3
    ensures Resume(s).sched == (s.sched + 1) % 3
  {
  }

  lemma ResumeThrice(s: State)
    requires 0 <= s.sched < 3 && |s.terms| == 3
    ensures Resume(Resume(Resume(s)))
            == s.(terms := s.terms[s.sched := Cur(s).(curEsp0 := s.esp0)], execPage := ExecEntry(Cur(s).curPid))
  {
  }

  ghost predicate AllLive(s: State) {
    Shape(s) && forall t :: 0 <= t < 3 ==> s.terms[t].curPid != -1
  }

  lemma SwitchResumes(img: Image, s: State, junk: seq<byte>)
    requires CanStep(img, s, Switch(junk)) && AllLive(s)
    ensures Step(img, s, Switch(junk)) == Resume(s) && AllLive(Resume(s)) && CanStep(img, Resume(s), Switch(junk))
  {
    hide LaunchSlot, Launch, CommandOk;
  }

  /**
   * The timer goes round: three switches among terminals that all run a process
   * bring back the whole state, the saved copy of esp0 of the scheduled one
   * being brought up to date.
   */
  lemma ThreeSwitchesGoRound(img: Image, s: State, stacks: seq<Stack>, junk: seq<byte>)
    requires Inv(s, stacks) && CanStep(img, s, Switch(junk)) && AllLive(s)
    ensures var es := [Switch(junk), Switch(junk), Switch(junk)];
            && CanRun(img, s, es)
            && Step(img, s, es[0]).sched == (s.sched + 1) % 3
            && Run(img, s, es) == s.(terms := s.terms[s.sched := Cur(s).(curEsp0 := s.esp0)])
  {
    hide Step, CanStep, Resume;
    var e, a := Switch(junk), Resume(s);
    var b := Resume(a);
    SwitchResumes(img, s, junk);
    SwitchResumes(img, a, junk);
    SwitchResumes(img, b, junk);
    ResumeThrice(s);
    ResumeNext(s);
    RunningPage(s, stacks);
    assert [e, e, e][1..] == [e, e] && [e, e][1..] == [e] && [e][1..] == [];
    assert CanRun(img, Resume(b), []) && Run(img, Resume(b), []) == Resume(b);
    assert CanRun(img, b, [e]) && Run(img, b, [e]) == Run(img, Resume(b), []);
    assert CanRun(img, a, [e, e]) && Run(img, a, [e, e]) == Resume(b);
  }

  lemma RunningPage(s: State, stacks: seq<Stack>)
    requires Inv(s, stacks) && Live(s)
    ensures s.execPage == ExecEntry(Cur(s).curPid)
  {
    assert StackOk(s, s.sched, stacks[s.sched]);
  }

  // ------------------------------------------------------- last in, first out

  ghost predicate IsHalt(e: Event) {
    e.Halt? || e.HaltException?
  }

  /** How a step changes the number of processes of terminal t. */
  ghost function Delta(img: Image, s: State, e: Event, t: int): int
    requires CanStep(img, s, e)
  {
    match e
    case Execute(cmd, junk) => if s.sched == t && LaunchSlot(img, s, cmd, junk) != -1 then 1 else 0
    case Switch(junk) =>
      var r := Rotate(s);
      if r.sched == t && Cur(r).curPid == -1 && LaunchSlot(img, r, SHELL, junk) != -1 then 1 else 0
    case Halt => if s.sched == t then -1 else 0
    case HaltException => if s.sched == t then -1 else 0
    case _ => 0
  }

  /** Terminal t's executes and halts nest, starting d levels deep and ending at level 0. */
  ghost predicate Balanced(img: Image, s: State, es: seq<Event>, t: int, d: int)
    requires CanRun(img, s, es)
    decreases |es|
  {
    if es == [] then d == 0
    else
      var d' := d + Delta(img, s, es[0], t);
      d' >= 0 && Balanced(img, Step(img, s, es[0]), es[1..], t, d')
  }

  /** A step changes no PCB in use but the running process's, and that one only by its own calls. */
  lemma StepTouchesOnlyRunning(img: Image, s: State, stacks: seq<Stack>, e: Event, p: int)
    requires Inv(s, stacks) && CanStep(img, s, e) && 0 <= p < 8 && s.pcbs[p].inUse
    requires p != Cur(s).curPid || e.Execute? || e.Switch?
    ensures Step(img, s, e).pcbs[p] == s.pcbs[p]
  {
    if Live(s) {
      CurFds(s, stacks);
    }
  }

  lemma StepMovesTop(img: Image, s: State, stacks: seq<Stack>, e: Event, t: int, n: nat)
    requires Inv(s, stacks) && CanStep(img, s, e) && 0 <= t < 3
    requires n <= |stacks[t]| + Delta(img, s, e, t)
    ensures var stacks' := StacksAfter(img, s, stacks, e);
            |stacks'| == 3 && |stacks'[t]| == |stacks[t]| + Delta(img, s, e, t)
            && (n <= |stacks[t]| ==> stacks'[t][..n] == stacks[t][..n])
  {
    assert StackOk(s, s.sched, stacks[s.sched]);
  }

  ghost predicate SameBelowTop(base: Stack, pcbs: seq<Pcb>, pcbs': seq<Pcb>) {
    && |pcbs| == |pcbs'| == 8
    && forall i :: 0 <= i < |base| - 1 ==> 0 <= base[i] < 8 && pcbs'[base[i]] == pcbs[base[i]]
  }

  /** Through any balanced stretch of a run, the processes under the starting one are left exactly as they were. */
  lemma {:induction false} NestedRunKeepsBase(
    img: Image, s: State, stacks: seq<Stack>, es: seq<Event>, t: int, base: Stack, d: nat)
    requires Inv(s, stacks) && CanRun(img, s, es) && 0 <= t < 3
    requires base != [] && |stacks[t]| == |base| + d && stacks[t][..|base|] == base
    requires Balanced(img, s, es, t, d)
    ensures RunStacks(img, s, stacks, es)[t] == base
    ensures SameBelowTop(base, s.pcbs, Run(img, s, es).pcbs)
    decreases |es|
  {
    hide Step, StacksAfter, CanStep, Delta;
    assert StackOk(s, t, stacks[t]);
    forall i | 0 <= i < |base|
      ensures 0 <= base[i] < 8 && s.pcbs[base[i]].inUse && base[i] == stacks[t][i]
    {
      assert FrameOk(s.pcbs, t, stacks[t], i);
    }
    if es == [] {
      return;
    }
    var s', stacks' := Step(img, s, es[0]), StacksAfter(img, s, stacks, es[0]);
    StepKeeps(img, s, stacks, es[0]);
    StepMovesTop(img, s, stacks, es[0], t, |base|);
    NestedRunKeepsBase(img, s', stacks', es[1..], t, base, d + Delta(img, s, es[0], t));
    forall i | 0 <= i < |base| - 1
      ensures s'.pcbs[base[i]] == s.pcbs[base[i]]
    {
      if Live(s) {
        OnlyOnTop(s, stacks, t);
        assert base[i] in stacks[t][..|stacks[t]| - 1];
      }
      StepTouchesOnlyRunning(img, s, stacks, es[0], base[i]);
    }
  }

  /**
   * Last in, first out. After an execute on terminal t, let t's executes and
   * halts balance while the other terminals do anything at all; then the next
   * halt on t restores t's process, descriptor table and kernel stack top. If
   * the caller was a user process, its page mapping and its whole PCB are back
   * too; the boot code instead gets the entry that maps the kernel's own 4MB.
   */
  lemma HaltReturnsToCaller(
    img: Image, s: State, stacks: seq<Stack>, cmd: seq<byte>, junk: seq<byte>, es: seq<Event>, halt: Event)
    requires Inv(s, stacks) && CanStep(img, s, Execute(cmd, junk)) && LaunchSlot(img, s, cmd, junk) != -1
    requires var c := Step(img, s, Execute(cmd, junk));
             && CanRun(img, c, es) && Balanced(img, c, es, s.sched, 0)
             && Run(img, c, es).sched == s.sched
    requires IsHalt(halt)
    ensures var m := Run(img, Step(img, s, Execute(cmd, junk)), es);
            && CanStep(img, m, halt)
            && var r := Step(img, m, halt);
               && Cur(r).curPid == Cur(s).curPid && Cur(r).curFd == Cur(s).curFd && r.esp0 == s.esp0
               && (Live(s) ==> r.execPage == s.execPage && r.pcbs[Cur(s).curPid] == s.pcbs[Cur(s).curPid])
               && (!Live(s) ==> r.execPage == 0x400087)
               && (r.execPage == s.execPage <==> Live(s) || s.execPage == 0x400087)
  {
    var t := s.sched;
    hide Directory.Lookup, HasMagic, CommandOk, Balanced, LaunchSlot, Launch, FrameOk;
    var c := Step(img, s, Execute(cmd, junk));
    var m := Run(img, c, es);
    var ms := BalancedReturn(img, s, stacks, cmd, junk, es);
    AfterHalt(m, ms, t);
    assert StackOk(s, t, stacks[t]);
    if Live(s) {
      CurFds(s, stacks);
      CurFds(m, ms);
    }
  }

  lemma BalancedReturn(img: Image, s: State, stacks: seq<Stack>, cmd: seq<byte>, junk: seq<byte>, es: seq<Event>)
    returns (ms: seq<Stack>)
    requires Inv(s, stacks) && CanStep(img, s, Execute(cmd, junk)) && LaunchSlot(img, s, cmd, junk) != -1
    requires var c := Step(img, s, Execute(cmd, junk));
             CanRun(img, c, es) && Balanced(img, c, es, s.sched, 0)
    ensures var t := s.sched;
            var m := Run(img, Step(img, s, Execute(cmd, junk)), es);
            && Inv(m, ms) && ms[t] != [] && ms[t][..|ms[t]| - 1] == stacks[t]
            && (Live(s) ==>
                  var p := Cur(s).curPid;
                  p != Top(ms[t]) && m.pcbs[p] == s.pcbs[p])
  {
    hide Directory.Lookup, HasMagic, CommandOk;
    var t, e, slot := s.sched, Execute(cmd, junk), LaunchSlot(img, s, cmd, junk);
    var c, cs := Step(img, s, e), StacksAfter(img, s, stacks, e);
    StepKeeps(img, s, stacks, e);
    var base := stacks[t] + [slot];
    assert cs[t] == base && cs[t][..|base|] == base;
    NestedRunKeepsBase(img, c, cs, es, t, base, 0);
    RunKeeps(img, c, cs, es);
    ms := RunStacks(img, c, cs, es);
    assert base[..|base| - 1] == stacks[t];
    if Live(s) {
      CurFds(s, stacks);
      assert StackOk(s, t, stacks[t]) && base[|base| - 2] == Cur(s).curPid;
    }
  }

  /** A halt leaves terminal t as its stack without the top describes it. */
  lemma AfterHalt(m: State, ms: seq<Stack>, t: int)
    requires Inv(m, ms) && 0 <= t < 3 && m.sched == t && ms[t] != []
    ensures Live(m)
    ensures var r := HaltStep(m); var st := ms[t][..|ms[t]| - 1];
            && Shape(r) && r.sched == t && Cur(r).curPid == Top(st) && Cur(r).curFd == FdsFor(Top(st))
            && r.esp0 == EspFor(t, Top(st)) && r.execPage == ExecEntry(Top(st))
  {
    assert StackOk(m, t, ms[t]) && FrameOk(m.pcbs, t, ms[t], |ms[t]| - 1);
    HaltKeeps(m, ms);
    assert StackOk(HaltStep(m), t, Popped(ms, t)[t]);
    CurFds(m, ms);
  }

  /** A halted process has closed every descriptor from 2 on, and its slot is free. */
  lemma HaltFreesDescriptors(s: State, stacks: seq<Stack>)
    requires Inv(s, stacks) && Live(s)
    ensures var q := HaltStep(s).pcbs[Cur(s).curPid];
            !q.inUse && forall i :: 2 <= i < 8 ==> !q.fds[i].flags && q.fds[i].table.NoTable?
  {
    CurFds(s, stacks);
  }

  /**
   * open fails if and only if the name is absent or descriptors 2..7 are all
   * open; otherwise it returns the least free one, now open on a driver other
   * than the keyboard, and changes no other descriptor.
   */
  lemma OpenTakesLeastFree(img: Image, s: State, stacks: seq<Stack>, name: seq<byte>)
    requires Inv(s, stacks) && CanStep(img, s, Open(name))
    ensures var fd := OpenFd(img, s, name);
            var fds, fds' := s.pcbs[Cur(s).curPid].fds, OpenStep(img, s, name).pcbs[Cur(s).curPid].fds;
            && |fds| == |fds'| == 8
            && (fd == -1 <==> Directory.Lookup(img, name) == -1 || forall i :: 2 <= i < 8 ==> fds[i].flags)
            && (fd != -1 ==>
                  && 2 <= fd < 8 && !fds[fd].flags && (forall i :: 2 <= i < fd ==> fds[i].flags)
                  && fds'[fd].flags && fds'[fd].pos == 0
                  && !fds'[fd].table.NoTable? && !fds'[fd].table.KeyboardTable?
                  && fds' == fds[fd := fds'[fd]])
  {
    CurFds(s, stacks);
  }

  // ------------------------------------------------------------ reading a file

  ghost predicate ReadsFrom(s: State, e: Event, p: int, fd: int)
    requires Shape(s)
  {
    Cur(s).curPid == p && e.Read? && e.fd == fd
  }

  /** Process p keeps descriptor fd open throughout the run. */
  ghost predicate KeepsOpen(img: Image, s: State, es: seq<Event>, p: int, fd: int)
    requires CanRun(img, s, es)
    decreases |es|
  {
    es != [] ==>
      && !(Cur(s).curPid == p && (IsHalt(es[0]) || es[0] == Close(fd)))
      && KeepsOpen(img, Step(img, s, es[0]), es[1..], p, fd)
  }

  /** Process p never asks fd for zero bytes. */
  ghost predicate AsksBytes(img: Image, s: State, es: seq<Event>, p: int, fd: int)
    requires CanRun(img, s, es)
    decreases |es|
  {
    es != [] ==>
      && (ReadsFrom(s, es[0], p, fd) ==> es[0].n > 0)
      && AsksBytes(img, Step(img, s, es[0]), es[1..], p, fd)
  }

  /** The number of bytes p asks of fd over the run. */
  ghost function Asked(img: Image, s: State, es: seq<Event>, p: int, fd: int): (n: nat)
    requires CanRun(img, s, es)
    decreases |es|
  {
    if es == [] then 0 else AskedBy(s, es[0], p, fd) + Asked(img, Step(img, s, es[0]), es[1..], p, fd)
  }

  /** The bytes p gets from fd over the run, in order. */
  ghost function Delivered(img: Image, s: State, es: seq<Event>, p: int, fd: int): seq<byte>
    requires CanRun(img, s, es) && 0 <= p < 8 && 0 <= fd < 8
    decreases |es|
  {
    if es == [] then []
    else Piece(img, s, es[0], p, fd) + Delivered(img, Step(img, s, es[0]), es[1..], p, fd)
  }

  ghost predicate FileOk(img: Image, inode: u32) {
    && WellFormed(img) && inode < |img.inodes|
    && img.inodes[inode].length <= INODE_BLOCKS * 4096
    && forall b :: 0 <= b < INODE_BLOCKS && b * 4096 < img.inodes[inode].length ==>
         !BadBlock(img, img.inodes[inode].dblock[b])
  }

  /** A non-empty read inside the file delivers the next piece and advances by its length. */
  lemma ReadNextPiece(img: Image, f: Fd, n: u32)
    requires f.table.FileTable? && FileOk(img, f.inode) && n > 0 && f.pos + n <= img.inodes[f.inode].length
    ensures FdBytes(img, f, n) == FileBytes(img, img.inodes[f.inode], f.pos, f.pos + n)
    ensures AfterRead(img, f, n) == f.(pos := f.pos + n)
  {
    hide ReadBytes, FileBytes;
    ReadInRange(img, f.inode, f.pos, n);
  }

  /** One step of a run in which p keeps fd open: p's own reads advance fd, nothing else touches it. */
  lemma StepOnDescriptor(img: Image, s: State, stacks: seq<Stack>, e: Event, p: int, fd: int)
    requires Inv(s, stacks) && CanStep(img, s, e) && 0 <= p < 8 && 2 <= fd < 8 && s.pcbs[p].inUse
    requires s.pcbs[p].fds[fd].flags
    requires !(Cur(s).curPid == p && (IsHalt(e) || e == Close(fd)))
    ensures var s' := Step(img, s, e);
            && s'.pcbs[p].inUse && |s'.pcbs[p].fds| == 8
            && s'.pcbs[p].fds[fd] == if ReadsFrom(s, e, p, fd) then AfterRead(img, s.pcbs[p].fds[fd], e.n)
                                     else s.pcbs[p].fds[fd]
  {
    if Cur(s).curPid == p {
      CurFds(s, stacks);
    }
    if p != Cur(s).curPid || e.Execute? || e.Switch? {
      StepTouchesOnlyRunning(img, s, stacks, e, p);
    }
  }

  /** Descriptor fd of process p is open on a file with good blocks. */
  ghost predicate OnFile(img: Image, s: State, p: int, fd: int) {
    && Shape(s) && 0 <= p < 8 && 2 <= fd < 8 && s.pcbs[p].inUse
    && s.pcbs[p].fds[fd].flags && s.pcbs[p].fds[fd].table.FileTable? && FileOk(img, s.pcbs[p].fds[fd].inode)
  }

  /** The next n bytes of the file behind the descriptor's position. */
  ghost function Ahead(img: Image, s: State, p: int, fd: int, n: nat): seq<byte>
    requires OnFile(img, s, p, fd)
  {
    var f := s.pcbs[p].fds[fd];
    FileBytes(img, img.inodes[f.inode], f.pos, f.pos + n)
  }

  ghost predicate InFile(img: Image, s: State, p: int, fd: int, n: nat)
    requires OnFile(img, s, p, fd)
  {
    s.pcbs[p].fds[fd].pos + n <= img.inodes[s.pcbs[p].fds[fd].inode].length
  }

  /** What one event asks of fd, and what it gets. */
  ghost function AskedBy(s: State, e: Event, p: int, fd: int): nat
    requires Shape(s)
  {
    if ReadsFrom(s, e, p, fd) then e.n else 0
  }

  ghost function Piece(img: Image, s: State, e: Event, p: int, fd: int): seq<byte>
    requires Shape(s) && 0 <= p < 8 && 0 <= fd < 8
  {
    if ReadsFrom(s, e, p, fd) then FdBytes(img, s.pcbs[p].fds[fd], e.n) else []
  }

  /** One step takes what it asks for from the front of what lies ahead. */
  lemma StepTakesPiece(img: Image, s: State, stacks: seq<Stack>, e: Event, p: int, fd: int, n: nat)
    requires Inv(s, stacks) && CanStep(img, s, e) && OnFile(img, s, p, fd)
    requires !(Cur(s).curPid == p && (IsHalt(e) || e == Close(fd)))
    requires ReadsFrom(s, e, p, fd) ==> e.n > 0
    requires InFile(img, s, p, fd, AskedBy(s, e, p, fd) + n)
    ensures Shape(Step(img, s, e)) && OnFile(img, Step(img, s, e), p, fd) && InFile(img, Step(img, s, e), p, fd, n)
    ensures Ahead(img, s, p, fd, AskedBy(s, e, p, fd) + n)
            == Piece(img, s, e, p, fd) + Ahead(img, Step(img, s, e), p, fd, n)
  {
    hide Step, StacksAfter, CanStep, StackOk, FdBytes, AfterRead, FileBytes, BadBlock;
    var f := s.pcbs[p].fds[fd];
    StepKeeps(img, s, stacks, e);
    StepOnDescriptor(img, s, stacks, e, p, fd);
    if ReadsFrom(s, e, p, fd) {
      ReadNextPiece(img, f, e.n);
      FileBytesSplit(img, img.inodes[f.inode], f.pos, f.pos + e.n, f.pos + e.n + n);
    }
  }

  /**
   * However other descriptors and processes are used in between, the pieces
   * read through one descriptor are consecutive and concatenate to the part of
   * the file behind the position it started from.
   */
  lemma {:induction false} ReadsConcatenate(
    img: Image, s: State, stacks: seq<Stack>, es: seq<Event>, p: int, fd: int)
    requires Inv(s, stacks) && CanRun(img, s, es) && OnFile(img, s, p, fd) && KeepsOpen(img, s, es, p, fd)
    requires AsksBytes(img, s, es, p, fd) && InFile(img, s, p, fd, Asked(img, s, es, p, fd))
    ensures Delivered(img, s, es, p, fd) == Ahead(img, s, p, fd, Asked(img, s, es, p, fd))
    decreases |es|
  {
    hide Step, StacksAfter, CanStep, StackOk, OnFile, InFile, Ahead, Piece;
    if es == [] {
      NothingAhead(img, s, p, fd);
    } else {
      var n := Asked(img, Step(img, s, es[0]), es[1..], p, fd);
      StepKeeps(img, s, stacks, es[0]);
      StepTakesPiece(img, s, stacks, es[0], p, fd, n);
      ReadsConcatenate(img, Step(img, s, es[0]), StacksAfter(img, s, stacks, es[0]), es[1..], p, fd);
    }
  }

  lemma NothingAhead(img: Image, s: State, p: int, fd: int)
    requires OnFile(img, s, p, fd)
    ensures Ahead(img, s, p, fd, 0) == []
  {
  }

  /** From a fresh open on, a file is delivered as its own prefix. */
  lemma ReadsDeliverPrefix(img: Image, s: State, stacks: seq<Stack>, name: seq<byte>, es: seq<Event>, fd: int)
    requires Inv(s, stacks) && CanStep(img, s, Open(name)) && fd == OpenFd(img, s, name) != -1
    requires img.entries[Directory.Lookup(img, name)].kind == 2
    requires FileOk(img, img.entries[Directory.Lookup(img, name)].inode)
    requires var o := Step(img, s, Open(name));
             && CanRun(img, o, es) && KeepsOpen(img, o, es, Cur(s).curPid, fd)
             && AsksBytes(img, o, es, Cur(s).curPid, fd)
             && Asked(img, o, es, Cur(s).curPid, fd)
                <= img.inodes[img.entries[Directory.Lookup(img, name)].inode].length
    ensures var o := Step(img, s, Open(name));
            var ino := img.inodes[img.entries[Directory.Lookup(img, name)].inode];
            && 0 <= Cur(s).curPid < 8
            && Delivered(img, o, es, Cur(s).curPid, fd)
               == FileBytes(img, ino, 0, Asked(img, o, es, Cur(s).curPid, fd))
  {
    CurFds(s, stacks);
    StepKeeps(img, s, stacks, Open(name));
    ReadsConcatenate(img, Step(img, s, Open(name)), stacks, es, Cur(s).curPid, fd);
  }

  // ------------------------------------------------------- listing a directory

  /** The names p gets from directory descriptor fd over the run, in order; an empty name is a 0. */
  ghost function Listed(img: Image, s: State, es: seq<Event>, p: int, fd: int): seq<seq<byte>>
    requires CanRun(img, s, es) && WellFormed(img) && 0 <= p < 8 && 0 <= fd < 8
    decreases |es|
  {
    if es == [] then []
    else (if ReadsFrom(s, es[0], p, fd) then [Directory.DirNext(img, s.pcbs[p].fds[fd].pos).0] else [])
         + Listed(img, Step(img, s, es[0]), es[1..], p, fd)
  }

  ghost predicate OnDirectory(s: State, p: int, fd: int, pos: u32) {
    && Shape(s) && 0 <= p < 8 && 2 <= fd < 8 && s.pcbs[p].inUse
    && s.pcbs[p].fds[fd] == Fd(DirectoryTable, 0, pos, true)
  }

  /** Only p's own reads of fd move it, each by one entry. */
  lemma StepOnDirectory(img: Image, s: State, stacks: seq<Stack>, e: Event, p: int, fd: int, pos: u32)
    requires Inv(s, stacks) && CanStep(img, s, e) && OnDirectory(s, p, fd, pos)
    requires !(Cur(s).curPid == p && (IsHalt(e) || e == Close(fd)))
    ensures WellFormed(img)
    ensures OnDirectory(Step(img, s, e), p, fd, if ReadsFrom(s, e, p, fd) then Directory.DirNext(img, pos).1 else pos)
  {
    hide Step, StackOk, WellFormed, Directory.DirNext;
    StepKeeps(img, s, stacks, e);
    StepOnDescriptor(img, s, stacks, e, p, fd);
  }

  lemma EnumerateMore(img: Image, s: State, p: int, fd: int, pos: u32, calls: nat)
    requires |img.entries| < 0x1_0000_0000 && OnDirectory(s, p, fd, pos)
    ensures 0 <= p < 8 && 0 <= fd < 8 && Shape(s) && s.pcbs[p].fds[fd].pos == pos
    ensures Directory.Enumerate(img, pos, 0) == []
    ensures Directory.Enumerate(img, pos, calls + 1)
            == [Directory.DirNext(img, pos).0] + Directory.Enumerate(img, Directory.DirNext(img, pos).1, calls)
  {
    hide Directory.DirNext;
  }

  /**
   * However other descriptors and processes are used in between, the reads of
   * one directory descriptor enumerate the directory from where it stood.
   */
  lemma {:induction false} ListsInOrder(
    img: Image, s: State, stacks: seq<Stack>, es: seq<Event>, p: int, fd: int, pos: u32)
    requires WellFormed(img) && Inv(s, stacks) && CanRun(img, s, es)
    requires OnDirectory(s, p, fd, pos) && KeepsOpen(img, s, es, p, fd)
    ensures Listed(img, s, es, p, fd) == Directory.Enumerate(img, pos, |Listed(img, s, es, p, fd)|)
    decreases |es|
  {
    assert |img.entries| < 0x1_0000_0000;
    hide Step, StacksAfter, CanStep, StackOk, WellFormed, Directory.DirNext, OnDirectory, Directory.Enumerate;
    if es != [] {
      StepKeeps(img, s, stacks, es[0]);
      StepOnDirectory(img, s, stacks, es[0], p, fd, pos);
      var pos' := if ReadsFrom(s, es[0], p, fd) then Directory.DirNext(img, pos).1 else pos;
      EnumerateMore(img, s, p, fd, pos, |Listed(img, Step(img, s, es[0]), es[1..], p, fd)|);
      ListsInOrder(img, Step(img, s, es[0]), StacksAfter(img, s, stacks, es[0]), es[1..], p, fd, pos');
    }
  }

  /**
   * From a fresh open of a directory on, the k-th read through the descriptor
   * delivers the k-th entry's name, which looks up to that entry, and every
   * read behind the last entry delivers nothing.
   */
  lemma ListsWholeDirectory(
    img: Image, s: State, stacks: seq<Stack>, name: seq<byte>, es: seq<Event>, fd: int, k: nat)
    requires Inv(s, stacks) && CanStep(img, s, Open(name)) && fd == OpenFd(img, s, name) != -1
    requires img.entries[Directory.Lookup(img, name)].kind == 1 && Directory.DistinctNames(img)
    requires var o := Step(img, s, Open(name));
             && CanRun(img, o, es) && 0 <= Cur(s).curPid < 8 && KeepsOpen(img, o, es, Cur(s).curPid, fd)
             && k < |Listed(img, o, es, Cur(s).curPid, fd)|
    ensures var names := Listed(img, Step(img, s, Open(name)), es, Cur(s).curPid, fd);
            && (k < |img.entries| ==>
                  names[k] == Directory.EntryName(img.entries[k]) && Directory.Lookup(img, names[k]) == k)
            && (k >= |img.entries| ==> names[k] == [])
  {
    hide Listed, KeepsOpen, CanRun, StackOk, Directory.LookupFrom, Directory.Enumerate;
    CurFds(s, stacks);
    StepKeeps(img, s, stacks, Open(name));
    var o, p := Step(img, s, Open(name)), Cur(s).curPid;
    ListsInOrder(img, o, stacks, es, p, fd, 0);
    var calls := |Listed(img, o, es, p, fd)|;
    Directory.EnumerateInOrder(img, 0, calls, k);
    Directory.EnumerationInvertsLookup(img, calls, k);
  }

  // ------------------------------------------------------ command to arguments

  /** Process p does not halt during the run. */
  ghost predicate StaysAlive(img: Image, s: State, es: seq<Event>, p: int)
    requires CanRun(img, s, es)
    decreases |es|
  {
    es != [] ==>
      && !(Cur(s).curPid == p && IsHalt(es[0]))
      && StaysAlive(img, Step(img, s, es[0]), es[1..], p)
  }

  lemma StepKeepsUserBuf(img: Image, s: State, stacks: seq<Stack>, e: Event, p: int)
    requires Inv(s, stacks) && CanStep(img, s, e) && 0 <= p < 8 && s.pcbs[p].inUse
    requires !(Cur(s).curPid == p && IsHalt(e))
    ensures var q := Step(img, s, e).pcbs[p]; q.inUse && q.userBuf == s.pcbs[p].userBuf
  {
    if p != Cur(s).curPid || e.Execute? || e.Switch? {
      StepTouchesOnlyRunning(img, s, stacks, e, p);
    } else {
      CurFds(s, stacks);
    }
  }

  lemma {:induction false} RunKeepsUserBuf(img: Image, s: State, stacks: seq<Stack>, es: seq<Event>, p: int)
    requires Inv(s, stacks) && CanRun(img, s, es) && 0 <= p < 8 && s.pcbs[p].inUse && StaysAlive(img, s, es, p)
    ensures Inv(Run(img, s, es), RunStacks(img, s, stacks, es))
    ensures Run(img, s, es).pcbs[p].userBuf == s.pcbs[p].userBuf
    decreases |es|
  {
    hide Step, StacksAfter, CanStep, StackOk;
    if es != [] {
      StepKeeps(img, s, stacks, es[0]);
      StepKeepsUserBuf(img, s, stacks, es[0], p);
      RunKeepsUserBuf(img, Step(img, s, es[0]), StacksAfter(img, s, stacks, es[0]), es[1..], p);
    }
  }

  /**
   * A command of a word, a gap and arguments, under 1024 bytes: execute looks
   * up exactly the word, and for as long as the process lives, whatever any
   * process does, its user_buf yields exactly the arguments to getargs.
   */
  lemma ArgumentsReachProcess(
    img: Image, s: State, stacks: seq<Stack>, word: seq<byte>, gap: seq<byte>, args: seq<byte>,
    junk: seq<byte>, es: seq<Event>)
    requires Inv(s, stacks) && Arguments.Parts(word, gap, args) && |word + gap + args| < Arguments.USER_BUF
    requires CanStep(img, s, Execute(word + gap + args, junk))
    requires LaunchSlot(img, s, word + gap + args, junk) != -1
    requires var c := Step(img, s, Execute(word + gap + args, junk));
             CanRun(img, c, es) && StaysAlive(img, c, es, LaunchSlot(img, s, word + gap + args, junk))
    ensures Arguments.CommandName(word + gap + args) == word && Directory.Lookup(img, word) != -1
    ensures var p := LaunchSlot(img, s, word + gap + args, junk);
            var m := Run(img, Step(img, s, Execute(word + gap + args, junk)), es);
            && |m.pcbs| == 8 && CLen(m.pcbs[p].userBuf) < Arguments.USER_BUF
            && Arguments.ArgsOf(CStr(m.pcbs[p].userBuf)) == args
  {
    hide Run, RunStacks, CanRun, StaysAlive, Arguments.ArgsOf, HasMagic, StackOk;
    var cmd := word + gap + args;
    var e, p := Execute(cmd, junk), LaunchSlot(img, s, cmd, junk);
    var c, cs := Step(img, s, e), StacksAfter(img, s, stacks, e);
    Arguments.SplitJoined(word, gap, args);
    Arguments.PaddedRoundTrip(cmd, Arguments.USER_BUF);
    StepKeeps(img, s, stacks, e);
    RunKeepsUserBuf(img, c, cs, es, p);
  }
}
