/** The kernel's global tables, updated in place by the system calls and the scheduler. */
module Kernel {
  import opened Bytes
  import opened FileSystem
  import opened Process
  import opened ProcessInvariant
  import Arguments
  import Directory
  import Keyboard

  method ProcessInit(pcbs: array<Pcb>)
    requires pcbs.Length == 8
    modifies pcbs
    ensures forall p :: 0 <= p < 8 ==> pcbs[p] == old(pcbs[p]).(inUse := false)
  {
    var p := 0;
    while p < 8
      invariant 0 <= p <= 8
      invariant forall q :: 0 <= q < 8 ==> pcbs[q] == if q < p then old(pcbs[q]).(inUse := false) else old(pcbs[q])
    {
      pcbs[p] := pcbs[p].(inUse := false);
      p := p + 1;
    }
  }

  method InitScheduler(terms: array<Terminal>)
    requires terms.Length == 3
    modifies terms
    ensures forall i :: 0 <= i < 3 ==> terms[i] == Terminal(-1, BootTop(i), KernelFds)
    ensures forall i :: 0 <= i < 3 ==> terms[i].curEsp0 == 0x800000 - 0x400 * i
  {
    var i := 0;
    while i < 3
      invariant 0 <= i <= 3
      invariant forall j :: 0 <= j < i ==> terms[j] == Terminal(-1, BootTop(j), KernelFds)
    {
      terms[i] := Terminal(-1, 0x800000 - 0x400 * i, KernelFds);
      i := i + 1;
    }
  }

  /** strncpy of the command into a user_buf. */
  method CopyCommand(command: seq<byte>) returns (userBuf: seq<byte>)
    requires CLen(command) < |command|
    ensures userBuf == Arguments.Padded(CStr(command), Arguments.USER_BUF)
  {
    hide CLen, Arguments.Padded;
    var dest := new byte[1024](i => NUL);
    Arguments.StrNCpy(dest, command, 1024);
    assert dest[1024..] == [];
    userBuf := dest[..];
  }

  class Kernel {
    const img: Image
    var sched: int                  // schedule_index
    const terms: array<Terminal>    // process_array
    const pcbs: array<Pcb>          // the PCBs in kernel memory
    const kernelFds: array<Fd>      // kernel_fdt
    var esp0: int                   // tss.esp0
    var execPage: u32               // pdt[EXEC]

    ghost var stacks: seq<Stack>    // each terminal's processes, the running one last

    ghost predicate Ok()
      reads this, terms, pcbs, kernelFds
    {
      && terms.Length == 3 && pcbs.Length == 8 && kernelFds.Length == 8
      && WellFormed(img) && Shape(View())
    }

    ghost predicate Valid()
      reads this, terms, pcbs, kernelFds
    {
      Ok() && Inv(View(), stacks)
    }

    ghost function View(): State
      reads this, terms, pcbs, kernelFds
    {
      State(sched, terms[..], pcbs[..], kernelFds[..], esp0, execPage)
    }

    /** process_init, init_scheduler and the entries init_paging sets for programs. */
    constructor (img: Image, memory: array<Pcb>)
      requires WellFormed(img) && memory.Length == 8
      requires forall p :: 0 <= p < 8 ==> |memory[p].fds| == 8
      modifies memory
      ensures Valid() && this.img == img && pcbs == memory && fresh(terms) && fresh(kernelFds)
      ensures View() == Boot(pcbs[..])
      ensures forall p :: 0 <= p < 8 ==> !pcbs[p].inUse && pcbs[p] == old(memory[p]).(inUse := false)
    {
      this.img := img;
      this.pcbs := memory;
      this.terms := new Terminal[3](i => Terminal(0, 0, KernelFds));
      this.kernelFds := new Fd[8](i => CLEAR);
      this.esp0, this.execPage, this.sched := 0x800000, 0x800087, 0;
      this.stacks := [[], [], []];
      new;
      ProcessInit(pcbs);
      InitScheduler(terms);
      assert terms[..] == Boot(pcbs[..]).terms && kernelFds[..] == Boot(pcbs[..]).kernelFds;
      BootHolds(pcbs[..]);
      hide StackOk;
    }

    // ------------------------------------------------------- single updates

    method SetTerm(t: Terminal)
      requires Ok() && -1 <= t.curPid < 8 && RefOk(t.curFd)
      modifies terms
      ensures Ok() && View() == old(View()).(terms := old(View().terms)[sched := t])
    {
      terms[sched] := t;
      assert terms[..] == old(terms[..])[sched := t];
    }

    method SetPcb(p: int, q: Pcb)
      requires Ok() && 0 <= p < 8 && |q.fds| == 8
      modifies pcbs
      ensures Ok() && View() == old(View()).(pcbs := old(View().pcbs)[p := q])
    {
      pcbs[p] := q;
      assert pcbs[..] == old(pcbs[..])[p := q];
    }

    method GetFd(fd: int) returns (f: Fd)
      requires Ok() && 0 <= fd < 8
      ensures f == FdsAt(View(), Cur(View()).curFd)[fd]
    {
      var r := terms[sched].curFd;
      assert Shape(View());
      f := if r.KernelFds? then kernelFds[fd] else pcbs[r.pid].fds[fd];
    }

    /** Assignment through cur_fd_ptr[fd]. */
    method SetFd(fd: int, f: Fd)
      requires Ok() && 0 <= fd < 8
      modifies pcbs, kernelFds
      ensures Ok() && View() == UpdateFd(old(View()), fd, f)
    {
      var r := terms[sched].curFd;
      assert Shape(View());
      if r.KernelFds? {
        kernelFds[fd] := f;
        assert kernelFds[..] == old(kernelFds[..])[fd := f];
      } else {
        SetPcb(r.pid, pcbs[r.pid].(fds := pcbs[r.pid].fds[fd := f]));
      }
    }

    // ----------------------------------------------------------- descriptors

    method GetAvailFd() returns (fd: int)
      requires Ok()
      ensures fd == AvailFd(FdsAt(View(), Cur(View()).curFd), 2)
    {
      fd := 2;
      while fd < 8
        invariant 2 <= fd <= 8
        invariant AvailFd(FdsAt(View(), Cur(View()).curFd), 2) == AvailFd(FdsAt(View(), Cur(View()).curFd), fd)
      {
        var f := GetFd(fd);
        if !f.flags {
          return;
        }
        fd := fd + 1;
      }
      fd := -1;
    }

    /** init_fd: a console on 0 and 1, the rest clear. */
    method InitFd()
      requires Ok() && terms[sched].curFd.FdsOf?
      modifies pcbs, kernelFds
      ensures Ok() && View() == WithFds(old(View()), Cur(old(View())).curFd, InitFds())
    {
      ghost var s, fds := View(), FdsAt(View(), terms[sched].curFd)[0 := CONSOLE][1 := CONSOLE];
      UpdateWithFds(s, FdsAt(s, Cur(s).curFd)[0 := CONSOLE], 1, CONSOLE);
      SetFd(0, CONSOLE);
      SetFd(1, CONSOLE);
      var i := 2;
      while i < 8
        invariant 2 <= i <= 8 && Ok() && |fds| == 8
        invariant View() == WithFds(s, Cur(s).curFd, fds)
        invariant forall j :: 0 <= j < i ==> fds[j] == InitFds()[j]
      {
        UpdateWithFds(s, fds, i, CLEAR);
        SetFd(i, CLEAR);
        fds := fds[i := CLEAR];
        i := i + 1;
      }
      assert fds == InitFds();
    }

    /** open: least free descriptor, directory lookup, then the driver's open. */
    method Open(filename: seq<byte>) returns (fd: int)
      requires Valid() && Live(View()) && CLen(filename) < |filename|
      modifies pcbs, kernelFds
      ensures Valid() && fd == OpenFd(img, old(View()), CStr(filename))
      ensures View() == OpenStep(img, old(View()), CStr(filename))
    {
      fd := GetAvailFd();
      if fd == -1 {
        return;
      }
      var i := Directory.ReadDentryByName(img, filename);
      if i == -1 {
        return -1;
      }
      assert DentryOk(img, img.entries[i]);
      OpenKeeps(img, View(), stacks, CStr(filename));
      SetFd(fd, OpenEntry(img.entries[i].kind, img.entries[i].inode));
    }

    /** close: dispatches to the driver, which clears the entry. */
    method CloseBody(fd: int) returns (ret: int)
      requires Ok()
      modifies pcbs, kernelFds
      ensures Ok() && View() == CloseStep(old(View()), fd)
      ensures ret == if 2 <= fd <= 7 && FdsAt(old(View()), Cur(old(View())).curFd)[fd].flags then 0 else -1
    {
      if fd < 2 || fd > 7 {
        return -1;
      }
      var f := GetFd(fd);
      if !f.flags {
        assert FdsAt(View(), Cur(View()).curFd)[fd := f] == FdsAt(View(), Cur(View()).curFd);
        assert View() == CloseStep(View(), fd);
        return -1;
      }
      SetFd(fd, ClosedEntry(f));
      return 0;
    }

    /** The loop of halt and halt_exception that closes every descriptor. */
    method CloseEvery()
      requires Ok()
      modifies pcbs, kernelFds
      ensures Ok() && View() == WithFds(old(View()), Cur(old(View())).curFd,
                                           CloseAll(FdsAt(old(View()), Cur(old(View())).curFd)))
    {
      ghost var s, r := View(), terms[sched].curFd;
      ghost var fds, orig := FdsAt(s, r), FdsAt(s, r);
      assert WithFds(s, r, fds) == s;
      var i := 0;
      while i < 8
        invariant 0 <= i <= 8 && Ok() && |fds| == 8
        invariant View() == WithFds(s, r, fds)
        invariant forall j :: 0 <= j < 8 ==> fds[j] == if j < i then CloseAll(orig)[j] else orig[j]
      {
        if i >= 2 {
          UpdateWithFds(s, fds, i, ClosedEntry(fds[i]));
          fds := fds[i := ClosedEntry(fds[i])];
        }
        var _ := CloseBody(i);
        i := i + 1;
      }
      assert fds == CloseAll(orig);
    }

    // ------------------------------------------------------------- processes

    method GetAvailPcb() returns (p: int)
      requires Ok()
      ensures p == AvailPcb(pcbs[..], 0)
    {
      p := 0;
      while p < 8
        invariant 0 <= p <= 8
        invariant AvailPcb(pcbs[..], 0) == AvailPcb(pcbs[..], p)
      {
        if !pcbs[p].inUse {
          return;
        }
        p := p + 1;
      }
      p := -1;
    }

    method MapPageExec(pid: int)
      requires Ok()
      modifies this`execPage
      ensures Ok() && View() == old(View()).(execPage := ExecEntry(pid))
    {
      execPage := Wrap32(0x800087 + 0x400000 * pid);
    }

    method Halt()
      requires Valid() && Live(View())
      modifies this, terms, pcbs, kernelFds
      ensures Valid() && View() == HaltStep(old(View()))
      ensures stacks == Popped(old(stacks), old(sched))
    {
      hide StackOk;
      HaltKeeps(View(), stacks);
      CurFds(View(), stacks);
      stacks := Popped(stacks, sched);
      var pid := terms[sched].curPid;
      esp0 := pcbs[pid].parentEsp0;
      SetTerm(terms[sched].(curPid := pcbs[pid].parentPid));
      CloseEvery();
      SetTerm(terms[sched].(curFd := pcbs[pid].parentFd));
      SetPcb(pid, pcbs[pid].(inUse := false));
      MapPageExec(pcbs[pid].parentPid);
      assert View() == HaltStep(old(View()));
    }

    method HaltException()
      requires Valid() && Live(View())
      modifies this, terms, pcbs, kernelFds
      ensures Valid() && View() == HaltStep(old(View()))
      ensures stacks == Popped(old(stacks), old(sched))
    {
      hide StackOk;
      HaltKeeps(View(), stacks);
      CurFds(View(), stacks);
      stacks := Popped(stacks, sched);
      var pid := terms[sched].curPid;
      esp0 := pcbs[pid].parentEsp0;
      MapPageExec(pcbs[pid].parentPid);
      CloseEvery();
      SetTerm(terms[sched].(curPid := pcbs[pid].parentPid));
      SetTerm(terms[sched].(curFd := pcbs[pid].parentFd));
      SetPcb(pid, pcbs[pid].(inUse := false));
      assert View() == HaltStep(old(View()));
    }

    /** execute's reading of the magic number into its uninitialised buffer. */
    method CheckMagic(inode: u32, junk: seq<byte>) returns (ok: bool)
      requires Ok() && |junk| == 4 && inode < |img.inodes| && ReadDefined(img, inode, 0, 4)
      ensures ok <==> HasMagic(img, inode, junk)
      ensures var ino := img.inodes[inode];
              ok <==> (if BadBlock(img, ino.dblock[0]) then junk else FileBytes(img, ino, 0, 4)) == [0x7f, 0x45, 0x4c, 0x46]
    {
      hide ReadBytes, FileBytes, BadBlock;
      MagicExactly(img, inode, junk);
      var magic := new byte[4](i requires 0 <= i < 4 => junk[i]);
      assert magic[..] == junk;
      var n := ReadData(img, inode, 0, magic, 4);
      ghost var s := ReadBytes(img, img.inodes[inode], 0, 4);
      assert magic[..] == s + junk[|s|..];
      ok := magic[0] == 0x7f && magic[1] == 0x45 && magic[2] == 0x4c && magic[3] == 0x46;
      assert ok <==> magic[..] == MAGIC;
    }

    /** The first assignments of execute: the slot becomes the terminal's process, above its caller. */
    method Enter(slot: int)
      requires Ok() && 0 <= slot < 8
      modifies terms, pcbs
      ensures Ok()
      ensures var s := old(View());
              View() == s.(terms := s.terms[sched := Cur(s).(curPid := slot, curFd := FdsOf(slot))],
                           pcbs := s.pcbs[slot := s.pcbs[slot].(parentPid := Cur(s).curPid, inUse := true,
                                                                vidSet := false, parentFd := Cur(s).curFd)])
    {
      SetPcb(slot, pcbs[slot].(parentPid := terms[sched].curPid));
      SetTerm(terms[sched].(curPid := slot));
      SetPcb(slot, pcbs[slot].(inUse := true, vidSet := false));
      SetPcb(slot, pcbs[slot].(parentFd := terms[sched].curFd));
      SetTerm(terms[sched].(curFd := FdsOf(slot)));
    }

    /** The part of execute that claims slot `slot`, assignment by assignment. */
    method Claim(slot: int, command: seq<byte>)
      requires Ok() && 0 <= slot < 8 && CLen(command) < |command|
      modifies this`esp0, this`execPage, terms, pcbs, kernelFds
      ensures Ok() && View() == Launch(old(View()), slot, CStr(command))
    {
      hide CLen, Arguments.Padded, InitFds;
      Enter(slot);
      ghost var s := View();
      InitFd();
      assert View() == s.(pcbs := s.pcbs[slot := s.pcbs[slot].(fds := InitFds())]);
      SetPcb(slot, pcbs[slot].(screen := sched));
      var userBuf := CopyCommand(command);
      SetPcb(slot, pcbs[slot].(userBuf := userBuf));
      MapPageExec(slot);
      SetPcb(slot, pcbs[slot].(parentEsp0 := esp0));
      esp0 := StackTop(slot);
    }

    /** execute: 0 stands for the jump into the new program, -1 for failure. */
    method ExecuteBody(command: seq<byte>, junk: seq<byte>) returns (ret: int)
      requires Ok() && CLen(command) < |command| && CommandOk(img, CStr(command), junk)
      modifies this`esp0, this`execPage, terms, pcbs, kernelFds
      ensures Ok() && View() == ExecuteStep(img, old(View()), CStr(command), junk)
      ensures ret == if LaunchSlot(img, old(View()), CStr(command), junk) == -1 then -1 else 0
    {
      var fname := Arguments.ParseName(command);
      var i := Directory.ReadDentryByName(img, fname[..]);
      if i == -1 {
        return -1;
      }
      assert DentryOk(img, img.entries[i]);
      var ok := CheckMagic(img.entries[i].inode, junk);
      if !ok {
        return -1;
      }
      var slot := GetAvailPcb();
      if slot == -1 {
        return -1;
      }
      Claim(slot, command);
      return 0;
    }

    method Execute(command: seq<byte>, junk: seq<byte>) returns (ret: int)
      requires Valid() && CLen(command) < |command| && CommandOk(img, CStr(command), junk)
      modifies this, terms, pcbs, kernelFds
      ensures Valid() && View() == ExecuteStep(img, old(View()), CStr(command), junk)
      ensures stacks == Pushed(old(stacks), sched, LaunchSlot(img, old(View()), CStr(command), junk))
      ensures ret == if LaunchSlot(img, old(View()), CStr(command), junk) == -1 then -1 else 0
      ensures var i := Directory.Lookup(img, Arguments.CommandName(CStr(command)));
              ret == 0 <==>
                && i != -1
                && (var ino := img.inodes[img.entries[i].inode];
                    (if BadBlock(img, ino.dblock[0]) then junk else FileBytes(img, ino, 0, 4)) == [0x7f, 0x45, 0x4c, 0x46])
                && exists p :: 0 <= p < 8 && !old(pcbs[p].inUse)
    {
      LaunchesExactlyWhen(img, View(), CStr(command), junk);
      StepKeeps(img, View(), stacks, Event.Execute(CStr(command), junk));
      stacks := Pushed(stacks, sched, LaunchSlot(img, View(), CStr(command), junk));
      ret := ExecuteBody(command, junk);
    }

    /** close: an error outside 2..7 or on a descriptor that is not open. */
    method Close(fd: int) returns (ret: int)
      requires Valid() && Live(View())
      modifies pcbs, kernelFds
      ensures Valid() && View() == CloseStep(old(View()), fd)
      ensures ret == if 2 <= fd <= 7 && old(pcbs[terms[sched].curPid].fds[fd].flags) then 0 else -1
    {
      CurFds(View(), stacks);
      StepKeeps(img, View(), stacks, Event.Close(fd));
      ret := CloseBody(fd);
    }

    /** The first half of context_switch: esp0 is saved, the next terminal scheduled and its esp0 restored. */
    method SaveAndRestore()
      requires Ok()
      modifies this`sched, this`esp0, terms
      ensures Ok() && View() == Rotate(old(View())) && sched == (old(sched) + 1) % 3
    {
      var next := if sched < 2 then sched + 1 else 0;
      SetTerm(terms[sched].(curEsp0 := esp0));
      sched := next;
      esp0 := terms[sched].curEsp0;
    }

    /** context_switch: save, rotate, then resume the process there or boot a shell. */
    method ContextSwitch(junk: seq<byte>)
      requires Valid() && CommandOk(img, SHELL, junk)
      modifies this, terms, pcbs, kernelFds
      ensures Valid() && View() == SwitchStep(img, old(View()), junk)
      ensures sched == (old(sched) + 1) % 3
      ensures stacks == StacksAfter(img, old(View()), old(stacks), Switch(junk))
    {
      hide StackOk, LaunchSlot, Launch;
      StepKeeps(img, View(), stacks, Switch(junk));
      stacks := StacksAfter(img, View(), stacks, Switch(junk));
      SaveAndRestore();
      if terms[sched].curPid != -1 {
        MapPageExec(terms[sched].curPid);
      } else {
        var command := SHELL + [NUL];
        CLenIs(command, 5);
        assert CStr(command) == SHELL;
        var _ := ExecuteBody(command, junk);
      }
    }

    /**
     * read: -1 for a bad, closed or output descriptor or no buffer, else the
     * driver's read, with the waits of the keyboard and the RTC over.
     */
    method Read(fd: int, buf: array?<byte>, n: u32, keyboard: Keyboard.Driver) returns (ret: int)
      requires Valid() && CanStep(img, View(), Event.Read(fd, n)) && keyboard.Valid()
      requires buf != null && Readable(View(), fd) ==>
                 Ready(FdsAt(View(), Cur(View()).curFd)[fd], n, keyboard, buf)
      modifies pcbs, kernelFds, buf, keyboard.counts, keyboard.flags, keyboard.bufs
      ensures Valid() && keyboard.Valid()
      ensures buf == null || !old(Readable(View(), fd)) ==>
                ret == -1 && View() == old(View()) && keyboard.View() == old(keyboard.View())
      ensures buf != null && !old(Readable(View(), fd)) ==> buf[..] == old(buf[..])
      ensures buf != null && old(Readable(View(), fd)) ==>
                var f := FdsAt(old(View()), Cur(old(View())).curFd)[fd];
                && View() == ReadStep(img, old(View()), fd, n)
                && keyboard.View() == AfterKeys(f, old(keyboard.View()))
                && ReadResult(img, f, n, Keyboard.Delivered(old(keyboard.View())), ret, old(buf[..]), buf[..])
    {
      hide ReadBytes, StackOk, ReadDefined, ReadResult, AfterRead, Keyboard.Shape;
      if fd < 0 || fd > 7 || buf == null {
        return -1;
      }
      var f := GetFd(fd);
      if !f.flags || fd == 1 {
        return -1;
      }
      StepKeeps(img, View(), stacks, Event.Read(fd, n));
      var f';
      ret, f' := DriverRead(img, f, buf, n, keyboard);
      SetFd(fd, f');
    }
  }

  /**
   * The caller's buffer has room for what this descriptor's driver writes; for
   * the keyboard, also, its wait is over and the line is terminated.
   */
  ghost predicate Ready(f: Fd, n: u32, keyboard: Keyboard.Driver, buf: array<byte>)
    requires keyboard.Valid()
    reads keyboard, keyboard.counts, keyboard.flags, keyboard.bufs
  {
    && buf !in keyboard.bufs
    && match f.table
       case FileTable => n <= buf.Length
       case DirectoryTable => 33 <= buf.Length
       case KeyboardTable =>
         && keyboard.flags[keyboard.visible]
         && var n := CLen(keyboard.View().bufs[keyboard.visible]);
            n < 128 && n < buf.Length
       case _ => true
  }

  /** The keyboard after a read of descriptor f. */
  ghost function AfterKeys(f: Fd, k: Keyboard.State): Keyboard.State
    requires Keyboard.Shape(k)
  {
    if f.table.KeyboardTable? then Keyboard.ReadStep(k) else k
  }

  /** What each driver's read returns and leaves in the buffer. */
  ghost predicate ReadResult(img: Image, f: Fd, n: u32, line: seq<byte>, ret: int, before: seq<byte>, after: seq<byte>)
    requires WellFormed(img)
  {
    match f.table
    case FileTable =>
      var s := FdBytes(img, f, n);
      && ret == (if f.inode < |img.inodes| then |s| else -1)
      && |s| <= |before| && after == s + before[|s|..]
    case DirectoryTable =>
      var name := Directory.DirNext(img, f.pos).0;
      && ret == |name| && |before| == |after| >= 33 && after[33..] == before[33..]
      && if f.pos < |img.entries| then CStr(after[..33]) == name else after == before
    case KeyboardTable =>
      && ret == |line| < |before|
      && after == line + [NUL] + before[|line| + 1..]
    case _ =>
      ret == 0 && after == before
  }

  /** The read of the driver behind a descriptor; the RTC only waits. */
  method DriverRead(img: Image, f: Fd, buf: array<byte>, n: u32, keyboard: Keyboard.Driver)
    returns (ret: int, next: Fd)
    requires WellFormed(img) && keyboard.Valid() && Ready(f, n, keyboard, buf)
    requires f.table.FileTable? ==> ReadDefined(img, f.inode, f.pos, n)
    modifies buf, keyboard.counts, keyboard.flags, keyboard.bufs
    ensures keyboard.Valid() && keyboard.View() == AfterKeys(f, old(keyboard.View()))
    ensures next == AfterRead(img, f, n)
    ensures ReadResult(img, f, n, Keyboard.Delivered(old(keyboard.View())), ret, old(buf[..]), buf[..])
  {
    hide ReadBytes, ReadDefined, CLen, Keyboard.Shape;
    match f.table {
      case FileTable =>
        ret := ReadData(img, f.inode, f.pos, buf, n);
        next := f.(pos := Wrap32(f.pos + ret));
      case DirectoryTable =>
        var pos;
        ret, pos := Directory.DirectoryRead(img, f.pos, buf);
        next := f.(pos := pos);
      case KeyboardTable =>
        ret := keyboard.Read(buf);
        next := f;
      case _ =>
        return 0, f;
    }
  }
}
