/**
 * The process, terminal and scheduler state of the kernel, and its atomic
 * steps: execute, halt, context_switch, open, close and read.
 */
module Process {
  import opened Bytes
  import opened FileSystem
  import Directory
  import Arguments

  datatype Table = NoTable | RtcTable | DirectoryTable | FileTable | KeyboardTable

  datatype Fd = Fd(table: Table, inode: u32, pos: u32, flags: bool)

  /** What a cur_fd_ptr points at: the kernel's table or the table inside a PCB. */
  datatype FdRef = KernelFds | FdsOf(pid: int)

  datatype Pcb = Pcb(inUse: bool, parentPid: int, parentEsp0: int, parentFd: FdRef,
                     fds: seq<Fd>, userBuf: seq<byte>, vidSet: bool, screen: int)

  datatype Terminal = Terminal(curPid: int, curEsp0: int, curFd: FdRef)

  datatype State = State(sched: int, terms: seq<Terminal>, pcbs: seq<Pcb>, kernelFds: seq<Fd>,
                         esp0: int, execPage: u32)

  // ------------------------------------------------------------ memory layout

  /** get_pcb: the PCB sits at the bottom of the process's 8KB block. */
  function PcbAddr(pid: int): int {
    0x7fe000 - 0x2000 * (pid + 1)
  }

  /** get_esp0: the kernel stack grows down from the top of the block. */
  function StackTop(pid: int): int {
    0x800000 - 0x2000 * (pid + 1) - 4
  }

  /** The stack a terminal boots on, inside the topmost 8KB block. */
  function BootTop(t: int): int {
    0x800000 - 0x400 * t
  }

  /** map_page_exec: the directory entry of the 4MB frame of a process. */
  function ExecEntry(pid: int): u32 {
    Wrap32(0x800087 + 0x400000 * pid)
  }

  // -------------------------------------------------------------- state shape

  ghost predicate Shape(s: State) {
    && 0 <= s.sched < 3
    && |s.terms| == 3 && |s.pcbs| == 8 && |s.kernelFds| == 8
    && (forall p :: 0 <= p < 8 ==> |s.pcbs[p].fds| == 8)
    && (forall t :: 0 <= t < 3 ==> -1 <= s.terms[t].curPid < 8 && RefOk(s.terms[t].curFd))
  }

  ghost predicate RefOk(r: FdRef) {
    r.FdsOf? ==> 0 <= r.pid < 8
  }

  function Cur(s: State): Terminal
    requires 0 <= s.sched < |s.terms|
  {
    s.terms[s.sched]
  }

  function FdsAt(s: State, r: FdRef): seq<Fd>
    requires r.FdsOf? ==> 0 <= r.pid < |s.pcbs|
  {
    if r.KernelFds? then s.kernelFds else s.pcbs[r.pid].fds
  }

  function WithFds(s: State, r: FdRef, fds: seq<Fd>): State
    requires r.FdsOf? ==> 0 <= r.pid < |s.pcbs|
  {
    if r.KernelFds? then s.(kernelFds := fds)
    else s.(pcbs := s.pcbs[r.pid := s.pcbs[r.pid].(fds := fds)])
  }

  ghost predicate Live(s: State)
    requires Shape(s)
  {
    Cur(s).curPid != -1
  }

  // -------------------------------------------------------------- descriptors

  const CLEAR := Fd(NoTable, 0, 0, false)
  const CONSOLE := Fd(KeyboardTable, 0, 0, true)

  /** init_fd */
  function InitFds(): (f: seq<Fd>)
    ensures |f| == 8
  {
    [CONSOLE, CONSOLE, CLEAR, CLEAR, CLEAR, CLEAR, CLEAR, CLEAR]
  }

  /** get_avail_fd: the least free descriptor in 2..7, or -1 if and only if there is none. */
  function AvailFd(fds: seq<Fd>, from: nat): (fd: int)
    requires |fds| == 8 && 2 <= from <= 8
    ensures fd == -1 || from <= fd < 8
    ensures fd != -1 ==> !fds[fd].flags
    ensures forall i :: from <= i < (if fd == -1 then 8 else fd) ==> fds[i].flags
    decreases 8 - from
  {
    if from == 8 then -1 else if !fds[from].flags then from else AvailFd(fds, from + 1)
  }

  /** The entry set_fileop_ptr and the driver's open leave behind. */
  function OpenEntry(kind: u32, inode: u32): Fd {
    if kind == 0 then Fd(RtcTable, 0, 0, true)
    else if kind == 1 then Fd(DirectoryTable, 0, 0, true)
    else Fd(FileTable, inode, 0, true)
  }

  /** The entry the driver's close leaves behind. */
  function ClosedEntry(fd: Fd): Fd {
    if !fd.flags then fd
    else if fd.table.FileTable? || fd.table.DirectoryTable? then Fd(NoTable, 0xFFFF_FFFF, 0, false)
    else CLEAR
  }

  function CloseAll(fds: seq<Fd>): (r: seq<Fd>)
    requires |fds| == 8
    ensures |r| == 8
  {
    seq(8, i requires 0 <= i < 8 => if i < 2 then fds[i] else ClosedEntry(fds[i]))
  }

  /** The bytes a read on this descriptor delivers from the image. */
  ghost function FdBytes(img: Image, fd: Fd, n: u32): seq<byte> {
    if fd.table.FileTable? && fd.inode < |img.inodes| && WellFormed(img) && ReadDefined(img, fd.inode, fd.pos, n)
    then ReadBytes(img, img.inodes[fd.inode], fd.pos, n)
    else []
  }

  /** The descriptor after a read: files and directories advance, devices do not. */
  ghost function AfterRead(img: Image, fd: Fd, n: u32): Fd
    requires WellFormed(img)
  {
    if fd.table.FileTable? then
      fd.(pos := Wrap32(fd.pos + if fd.inode < |img.inodes| then |FdBytes(img, fd, n)| else -1))
    else if fd.table.DirectoryTable? then
      fd.(pos := Directory.DirNext(img, fd.pos).1)
    else
      fd
  }

  // -------------------------------------------------------------------- steps

  const SHELL: seq<byte> := [115, 104, 101, 108, 108]
  const MAGIC: seq<byte> := [0x7f, 0x45, 0x4c, 0x46]

  /**
   * One atomic step. `junk` is what the uninitialised magic buffer of execute
   * held before read_data filled it.
   */
  datatype Event =
    | Execute(command: seq<byte>, junk: seq<byte>)
    | Halt
    | HaltException
    | Switch(junk: seq<byte>)
    | Open(name: seq<byte>)
    | Close(fd: int)
    | Read(fd: int, n: u32)

  /** get_avail_pcb: the least free slot, or -1 if and only if all are in use. */
  function AvailPcb(pcbs: seq<Pcb>, from: nat): (p: int)
    requires |pcbs| == 8 && from <= 8
    ensures p == -1 || from <= p < 8
    ensures p != -1 ==> !pcbs[p].inUse
    ensures forall i :: from <= i < (if p == -1 then 8 else p) ==> pcbs[i].inUse
    decreases 8 - from
  {
    if from == 8 then -1 else if !pcbs[from].inUse then from else AvailPcb(pcbs, from + 1)
  }

  ghost predicate HasMagic(img: Image, inode: u32, junk: seq<byte>)
    requires WellFormed(img) && |junk| == 4
  {
    && inode < |img.inodes|
    && ReadDefined(img, inode, 0, 4)
    && var s := ReadBytes(img, img.inodes[inode], 0, 4);
       |s| <= 4 && s + junk[|s|..] == MAGIC
  }

  /** A command execute handles within its buffers. */
  ghost predicate CommandOk(img: Image, cmd: seq<byte>, junk: seq<byte>) {
    && NulFree(cmd) && Arguments.WordLen(cmd) < Arguments.NAME_BUF && |junk| == 4
    && var i := Directory.Lookup(img, Arguments.CommandName(cmd));
       i != -1 ==> ReadDefined(img, img.entries[i].inode, 0, 4)
  }

  /** The slot an execute will run in, or -1 if it fails: no such name, no magic number, or no free slot. */
  ghost function LaunchSlot(img: Image, s: State, cmd: seq<byte>, junk: seq<byte>): (p: int)
    requires WellFormed(img) && Shape(s) && CommandOk(img, cmd, junk)
    ensures p == -1 || (0 <= p < 8 && !s.pcbs[p].inUse)
  {
    var i := Directory.Lookup(img, Arguments.CommandName(cmd));
    if i == -1 then -1
    else if !HasMagic(img, img.entries[i].inode, junk) then -1
    else AvailPcb(s.pcbs, 0)
  }

  /**
   * The four bytes compared with 0x7f "ELF" are the first of the file's first
   * block or, if that block's index is bad, what the buffer held before.
   */
  lemma MagicExactly(img: Image, inode: u32, junk: seq<byte>)
    requires WellFormed(img) && |junk| == 4 && inode < |img.inodes| && ReadDefined(img, inode, 0, 4)
    ensures var ino := img.inodes[inode];
            HasMagic(img, inode, junk)
            <==> (if BadBlock(img, ino.dblock[0]) then junk else FileBytes(img, ino, 0, 4)) == [0x7f, 0x45, 0x4c, 0x46]
  {
    FirstFourBytes(img, inode);
    hide ReadBytes, FileBytes, ReadDefined, BadBlock, WellFormed;
    var ino := img.inodes[inode];
    var s := ReadBytes(img, ino, 0, 4);
    if !BadBlock(img, ino.dblock[0]) {
      assert s + junk[|s|..] == s;
    } else {
      assert s + junk[|s|..] == junk;
    }
  }

  /** What read_data delivers for four bytes at the start of a file. */
  lemma FirstFourBytes(img: Image, inode: u32)
    requires WellFormed(img) && inode < |img.inodes| && ReadDefined(img, inode, 0, 4)
    ensures var ino := img.inodes[inode];
            ReadBytes(img, ino, 0, 4) == if BadBlock(img, ino.dblock[0]) then [] else FileBytes(img, ino, 0, 4)
  {
    var ino := img.inodes[inode];
    assert EndBlock(ino, 0, 4) == 0 && FinalCopy(ino, 0, 4) == 0;
    if !BadBlock(img, ino.dblock[0]) {
      AllGood(img, ino, 0, 0);
      GoodBytes(img, ino, 0, 4, 0, 0);
      GoodBlock(img, ino.dblock[0]);
      LastPiece(img, ino, 0, 4, 0);
    }
    hide BadBlock, WellFormed;
  }

  /**
   * An execute fails exactly if no entry has the command's name, the entry's
   * file does not start with the ELF magic number, or all slots are used;
   * otherwise it runs in the least free slot.
   */
  lemma LaunchesExactlyWhen(img: Image, s: State, cmd: seq<byte>, junk: seq<byte>)
    requires WellFormed(img) && Shape(s) && CommandOk(img, cmd, junk)
    ensures var slot, i := LaunchSlot(img, s, cmd, junk), Directory.Lookup(img, Arguments.CommandName(cmd));
            && (slot == -1 <==>
                  || (forall k :: 0 <= k < |img.entries| ==>
                        Directory.EntryName(img.entries[k]) != Arguments.CommandName(cmd))
                  || (var ino := img.inodes[img.entries[i].inode];
                      (if BadBlock(img, ino.dblock[0]) then junk else FileBytes(img, ino, 0, 4))
                      != [0x7f, 0x45, 0x4c, 0x46])
                  || (forall q :: 0 <= q < 8 ==> s.pcbs[q].inUse))
            && (slot != -1 ==> !s.pcbs[slot].inUse && forall q :: 0 <= q < slot ==> s.pcbs[q].inUse)
  {
    var i := Directory.Lookup(img, Arguments.CommandName(cmd));
    if i != -1 {
      assert DentryOk(img, img.entries[i]);
      MagicExactly(img, img.entries[i].inode, junk);
    }
    hide Directory.LookupFrom, HasMagic, AvailPcb, FileBytes, BadBlock, ReadDefined;
  }

  function Launch(s: State, slot: int, cmd: seq<byte>): State
    requires 0 <= s.sched < |s.terms| && 0 <= slot < |s.pcbs|
  {
    var child := Pcb(true, Cur(s).curPid, s.esp0, Cur(s).curFd, InitFds(),
                     Arguments.Padded(cmd, Arguments.USER_BUF), false, s.sched);
    s.(pcbs := s.pcbs[slot := child],
       terms := s.terms[s.sched := Cur(s).(curPid := slot, curFd := FdsOf(slot))],
       esp0 := StackTop(slot),
       execPage := ExecEntry(slot))
  }

  ghost function ExecuteStep(img: Image, s: State, cmd: seq<byte>, junk: seq<byte>): State
    requires WellFormed(img) && Shape(s) && CommandOk(img, cmd, junk)
  {
    var slot := LaunchSlot(img, s, cmd, junk);
    if slot == -1 then s else Launch(s, slot, cmd)
  }

  ghost function HaltStep(s: State): State
    requires Shape(s) && Live(s)
  {
    var c := WithFds(s, Cur(s).curFd, CloseAll(FdsAt(s, Cur(s).curFd)));
    var pid := Cur(s).curPid;
    var pcb := c.pcbs[pid];
    c.(pcbs := c.pcbs[pid := pcb.(inUse := false)],
       terms := c.terms[c.sched := Cur(c).(curPid := pcb.parentPid, curFd := pcb.parentFd)],
       esp0 := pcb.parentEsp0,
       execPage := ExecEntry(pcb.parentPid))
  }

  function NextTerminal(t: int): int {
    if t < 2 then t + 1 else 0
  }

  /** context_switch up to the point where the next terminal's stack is restored. */
  function Rotate(s: State): State
    requires 0 <= s.sched < 3 && |s.terms| == 3
  {
    var next := NextTerminal(s.sched);
    s.(terms := s.terms[s.sched := Cur(s).(curEsp0 := s.esp0)],
       sched := next,
       esp0 := s.terms[next].curEsp0)
  }

  /** context_switch: resume the next terminal's process, or boot a shell there. */
  ghost function SwitchStep(img: Image, s: State, junk: seq<byte>): State
    requires WellFormed(img) && Shape(s) && CommandOk(img, SHELL, junk)
  {
    var r := Rotate(s);
    if Cur(r).curPid != -1 then r.(execPage := ExecEntry(Cur(r).curPid))
    else ExecuteStep(img, r, SHELL, junk)
  }

  function UpdateFd(s: State, fd: int, f: Fd): State
    requires 0 <= s.sched < |s.terms| && (Cur(s).curFd.FdsOf? ==> 0 <= Cur(s).curFd.pid < |s.pcbs|)
    requires 0 <= fd < |FdsAt(s, Cur(s).curFd)|
  {
    WithFds(s, Cur(s).curFd, FdsAt(s, Cur(s).curFd)[fd := f])
  }

  /** Writing one entry of a table that was itself just written. */
  lemma UpdateWithFds(s: State, fds: seq<Fd>, fd: int, f: Fd)
    requires Shape(s) && |fds| == 8 && 0 <= fd < 8
    ensures UpdateFd(WithFds(s, Cur(s).curFd, fds), fd, f) == WithFds(s, Cur(s).curFd, fds[fd := f])
  {
  }

  /** open's result: the least free descriptor, or -1 if the table is full or the name is absent. */
  ghost function OpenFd(img: Image, s: State, name: seq<byte>): int
    requires Shape(s)
  {
    if Directory.Lookup(img, name) == -1 then -1 else AvailFd(FdsAt(s, Cur(s).curFd), 2)
  }

  ghost function OpenStep(img: Image, s: State, name: seq<byte>): State
    requires Shape(s)
  {
    var fd := OpenFd(img, s, name);
    if fd == -1 then s
    else
      var d := img.entries[Directory.Lookup(img, name)];
      UpdateFd(s, fd, OpenEntry(d.kind, d.inode))
  }

  ghost function CloseStep(s: State, fd: int): State
    requires Shape(s)
  {
    if fd < 2 || fd > 7 then s else UpdateFd(s, fd, ClosedEntry(FdsAt(s, Cur(s).curFd)[fd]))
  }

  ghost predicate Readable(s: State, fd: int)
    requires Shape(s)
  {
    0 <= fd <= 7 && fd != 1 && FdsAt(s, Cur(s).curFd)[fd].flags
  }

  ghost function ReadStep(img: Image, s: State, fd: int, n: u32): State
    requires WellFormed(img) && Shape(s)
  {
    if Readable(s, fd) then UpdateFd(s, fd, AfterRead(img, FdsAt(s, Cur(s).curFd)[fd], n)) else s
  }

  /** The events the kernel handles without touching memory it does not own. */
  ghost predicate CanStep(img: Image, s: State, e: Event) {
    && WellFormed(img) && Shape(s)
    && match e
       case Execute(cmd, junk) => CommandOk(img, cmd, junk)
       case Switch(junk) => CommandOk(img, SHELL, junk)
       case Read(fd, n) =>
         && Live(s)
         && (Readable(s, fd) && FdsAt(s, Cur(s).curFd)[fd].table.FileTable? ==>
               var f := FdsAt(s, Cur(s).curFd)[fd]; ReadDefined(img, f.inode, f.pos, n))
       case _ => Live(s)
  }

  ghost function Step(img: Image, s: State, e: Event): State
    requires CanStep(img, s, e)
  {
    match e
    case Execute(cmd, junk) => ExecuteStep(img, s, cmd, junk)
    case Halt => HaltStep(s)
    case HaltException => HaltStep(s)
    case Switch(junk) => SwitchStep(img, s, junk)
    case Open(name) => OpenStep(img, s, name)
    case Close(fd) => CloseStep(s, fd)
    case Read(fd, n) => ReadStep(img, s, fd, n)
  }

  /** The state after init_scheduler, process_init and init_paging. */
  function Boot(pcbs: seq<Pcb>): State {
    State(0, seq(3, t => Terminal(-1, BootTop(t), KernelFds)), pcbs, seq(8, i => CLEAR), 0x800000, 0x800087)
  }
}
