/**
 * The whole machine: processes, screens and keyboard around one schedule_index
 * and one visible_screen. Which screen a process's output reaches, what a line
 * read by a process contains, and when the screen shows the line being typed.
 */
module Machine {
  import opened Bytes
  import opened FileSystem
  import opened TextConsole
  import P = Process
  import PI = ProcessInvariant
  import V = Screens
  import K = Keyboard
  import PR = ProcessRuns
  import PC = ProcessCalls

  /** `past` are the processes inside keyboard_read whose wait is over. */
  datatype System = System(proc: P.State, video: V.Video, keys: K.State, past: set<int>)

  datatype Event =
    | Call(e: P.Event)   // a system call of the running process, or the timer's context switch
    | Print(c: byte)     // one character put by the running process, or by the kernel while there is none
    | Scan(code: byte)   // a keyboard interrupt
    | PassWait           // the wait of keyboard_read, in the running process, is over
    | TakeLine           // the rest of that keyboard_read

  type Stacks = seq<PI.Stack>

  ghost predicate Coupled(s: System, stacks: Stacks) {
    && PI.Inv(s.proc, stacks) && |stacks| == 3 && V.Good(s.video) && K.Shape(s.keys)
    && s.video.sched == s.proc.sched && s.video.visible == s.keys.visible
  }

  /** screen_idx of the running process. */
  function ScreenOf(p: P.State): int
    requires 0 <= p.sched < |p.terms| && 0 <= P.Cur(p).curPid < |p.pcbs|
  {
    p.pcbs[P.Cur(p).curPid].screen
  }

  ghost predicate Running(p: P.State) {
    P.Shape(p) && P.Live(p)
  }

  /** The running process is inside keyboard_read. */
  ghost predicate InRead(s: System)
    requires P.Shape(s.proc)
  {
    P.Cur(s.proc).curPid in s.past
  }

  /**
   * keyboard_read waits until its caller's terminal is visible and its flag is
   * up. Both interrupts can come between its wait and the rest of it; the
   * process itself does nothing else meanwhile.
   */
  ghost predicate CanStep(img: Image, table: K.KeyTable, s: System, e: Event)
    requires K.TableOk(table)
  {
    && P.Shape(s.proc) && V.Good(s.video) && K.Shape(s.keys)
    && match e
       case Call(c) => P.CanStep(img, s.proc, c) && !(c.Read? && c.fd == 0) && (c.Switch? || !InRead(s))
       case Print(_) => !InRead(s)
       case Scan(code) => K.Room(s.keys, table, code)
       case PassWait =>
         !InRead(s) && Running(s.proc) && ScreenOf(s.proc) == s.keys.visible && s.keys.flags[s.keys.visible]
       case TakeLine => InRead(s) && Running(s.proc)
  }

  /** What a scan code does to the screens. */
  function Echo(k: K.State, table: K.KeyTable, code: byte): seq<V.Event>
    requires K.Shape(k) && K.TableOk(table)
  {
    var a := K.Decode(k.status, k.ctrl, k.alt, code);
    match a
    case Show(t) => [V.Show(t)]
    case ClearScreen => [V.CtrlL]
    case Backspace => [V.Backspace(k.counts[k.visible] > 0)]
    case _ => if K.Typed(k, table, a) == NUL then [] else [V.Key(K.Typed(k, table, a))]
  }

  function VideoEvents(table: K.KeyTable, s: System, e: Event): seq<V.Event>
    requires K.Shape(s.keys) && K.TableOk(table)
  {
    match e
    case Call(c) => if c.Switch? then [V.Tick] else []
    case Print(c) => [V.Write(c)]
    case Scan(code) => Echo(s.keys, table, code)
    case _ => []
  }

  ghost function Step(img: Image, table: K.KeyTable, s: System, e: Event): System
    requires K.TableOk(table) && CanStep(img, table, s, e)
  {
    System(
      if e.Call? then P.Step(img, s.proc, e.e) else s.proc,
      V.Run(s.video, VideoEvents(table, s, e)),
      match e
      case Scan(code) => K.KeyStep(s.keys, table, code)
      case TakeLine => K.ReadStep(s.keys)
      case _ => s.keys,
      match e
      case PassWait => s.past + {P.Cur(s.proc).curPid}
      case TakeLine => s.past - {P.Cur(s.proc).curPid}
      case _ => s.past)
  }

  ghost function StacksAfter(img: Image, table: K.KeyTable, s: System, stacks: Stacks, e: Event): Stacks
    requires K.TableOk(table) && CanStep(img, table, s, e) && |stacks| == 3
  {
    if e.Call? then PI.StacksAfter(img, s.proc, stacks, e.e) else stacks
  }

  // ---------------------------------------------------------- staying coupled

  lemma SchedAfter(img: Image, p: P.State, e: P.Event)
    requires P.CanStep(img, p, e)
    ensures P.Step(img, p, e).sched == if e.Switch? then (p.sched + 1) % 3 else p.sched
  {
    hide P.Step, P.CanStep;
    PC.SwitchGoesToNext(img, p, e);
  }

  /** A run of at most one event is that event. */
  lemma RunOne(v: V.Video, es: seq<V.Event>)
    requires V.Good(v) && |es| <= 1
    ensures V.Run(v, es) == if es == [] then v else V.Step(v, es[0])
    ensures V.Good(V.Run(v, es))
  {
    if es != [] {
      V.StepKeepsGood(v, es[0]);
      assert es[1..] == [];
    }
  }

  lemma VideoEventsMatch(img: Image, table: K.KeyTable, s: System, e: Event)
    requires K.TableOk(table) && CanStep(img, table, s, e) && s.video.visible == s.keys.visible
    ensures |VideoEvents(table, s, e)| <= 1
    ensures var s' := Step(img, table, s, e);
            && s'.video.visible == s'.keys.visible
            && s'.video.sched == if e.Call? && e.e.Switch? then (s.video.sched + 1) % 3 else s.video.sched
  {
    hide K.Decode, K.KeyStep, K.Shape, V.Step, V.Good;
    RunOne(s.video, VideoEvents(table, s, e));
    if VideoEvents(table, s, e) != [] {
      V.StepIndices(s.video, VideoEvents(table, s, e)[0]);
    }
    if e.Scan? {
      K.KeyStepVisible(s.keys, table, e.code);
    }
  }

  lemma KeysStayShaped(img: Image, table: K.KeyTable, s: System, e: Event)
    requires K.TableOk(table) && CanStep(img, table, s, e)
    ensures K.Shape(Step(img, table, s, e).keys)
  {
    hide K.Decode, K.KeyStep, V.Run, VideoEvents;
    if e.Scan? {
      K.KeyStepVisible(s.keys, table, e.code);
    }
  }

  lemma StepCouples(img: Image, table: K.KeyTable, s: System, stacks: Stacks, e: Event)
    requires K.TableOk(table) && Coupled(s, stacks) && CanStep(img, table, s, e)
    ensures Coupled(Step(img, table, s, e), StacksAfter(img, table, s, stacks, e))
  {
    hide PI.Inv, P.CanStep, P.Step, PI.StacksAfter, V.Good, K.Shape, VideoEvents, K.KeyStep, K.ReadStep;
    VideoEventsMatch(img, table, s, e);
    KeysStayShaped(img, table, s, e);
    RunOne(s.video, VideoEvents(table, s, e));
    if e.Call? {
      SchedAfter(img, s.proc, e.e);
      PI.StepKeeps(img, s.proc, stacks, e.e);
    }
  }

  ghost predicate CanRun(img: Image, table: K.KeyTable, s: System, es: seq<Event>)
    requires K.TableOk(table)
    decreases |es|
  {
    es != [] ==> CanStep(img, table, s, es[0]) && CanRun(img, table, Step(img, table, s, es[0]), es[1..])
  }

  ghost function Run(img: Image, table: K.KeyTable, s: System, es: seq<Event>): System
    requires K.TableOk(table) && CanRun(img, table, s, es)
    decreases |es|
  {
    if es == [] then s else Run(img, table, Step(img, table, s, es[0]), es[1..])
  }

  function SwitchCount(es: seq<Event>): nat {
    if es == [] then 0 else (if es[0].Call? && es[0].e.Switch? then 1 else 0) + SwitchCount(es[1..])
  }

  /** The terminals take turns: n timer switches move the schedule on by n. */
  lemma {:induction false} ScheduleGoesRound(img: Image, table: K.KeyTable, s: System, es: seq<Event>)
    requires K.TableOk(table) && CanRun(img, table, s, es) && 0 <= s.proc.sched < 3
    ensures Run(img, table, s, es).proc.sched == (s.proc.sched + SwitchCount(es)) % 3
    decreases |es|
  {
    hide P.Step, P.CanStep, V.Run, VideoEvents, K.KeyStep, K.ReadStep;
    if es != [] {
      if es[0].Call? {
        SchedAfter(img, s.proc, es[0].e);
      }
      ScheduleGoesRound(img, table, Step(img, table, s, es[0]), es[1..]);
    }
  }

  // ------------------------------------------------ whose screen output reaches

  /** What a scan code does to the visible terminal's console. */
  function EchoOps(k: K.State, table: K.KeyTable, code: byte): seq<V.Op>
    requires K.Shape(k) && K.TableOk(table)
  {
    var a := K.Decode(k.status, k.ctrl, k.alt, code);
    match a
    case Show(_) => []
    case ClearScreen => [V.Wipe]
    case Backspace => if k.counts[k.visible] > 0 then [V.Delete] else []
    case _ => if K.Typed(k, table, a) == NUL then [] else [V.Put(K.Typed(k, table, a))]
  }

  /** Whose output a character is: the running process's terminal, or the scheduled one if none runs. */
  ghost function OutputScreen(p: P.State): int
    requires P.Shape(p)
  {
    if P.Live(p) then ScreenOf(p) else p.sched
  }

  /** What one event does to terminal t: output of t's own processes, keys typed on t. */
  ghost function Meant(table: K.KeyTable, s: System, e: Event, t: int): seq<V.Op>
    requires K.TableOk(table) && V.Good(s.video) && K.Shape(s.keys) && P.Shape(s.proc)
  {
    match e
    case Print(c) => if OutputScreen(s.proc) == t then [V.WriteOp(s.video, c)] else []
    case Scan(code) => if s.keys.visible == t then EchoOps(s.keys, table, code) else []
    case _ => []
  }

  ghost function MeantFor(img: Image, table: K.KeyTable, s: System, es: seq<Event>, t: int): seq<V.Op>
    requires K.TableOk(table) && CanRun(img, table, s, es)
    decreases |es|
  {
    if es == [] then []
    else Meant(table, s, es[0], t) + MeantFor(img, table, Step(img, table, s, es[0]), es[1..], t)
  }

  /** The running process belongs to the scheduled terminal. */
  lemma RunningScreen(p: P.State, stacks: Stacks)
    requires PI.Inv(p, stacks)
    ensures OutputScreen(p) == p.sched
    ensures P.Live(p) ==> p.pcbs[P.Cur(p).curPid].inUse
  {
    if P.Live(p) {
      assert PI.StackOk(p, p.sched, stacks[p.sched]);
      assert PI.FrameOk(p.pcbs, p.sched, stacks[p.sched], |stacks[p.sched]| - 1);
    }
  }

  lemma AimedIsMeant(img: Image, table: K.KeyTable, s: System, stacks: Stacks, e: Event, t: int)
    requires K.TableOk(table) && Coupled(s, stacks) && CanStep(img, table, s, e)
    ensures |VideoEvents(table, s, e)| <= 1
    ensures var es := VideoEvents(table, s, e);
            Meant(table, s, e, t) == if es == [] then [] else V.Aimed(s.video, es[0], t)
  {
    hide PI.Inv, K.Decode, V.WriteOp, OutputScreen, P.CanStep;
    RunningScreen(s.proc, stacks);
  }

  lemma StepOnScreen(img: Image, table: K.KeyTable, s: System, stacks: Stacks, e: Event, t: int)
    requires K.TableOk(table) && Coupled(s, stacks) && CanStep(img, table, s, e) && 0 <= t < 3
    ensures InBounds(V.ConsoleOf(s.video, t)) && V.Good(Step(img, table, s, e).video)
    ensures V.ConsoleOf(Step(img, table, s, e).video, t)
            == V.ApplyAll(V.ConsoleOf(s.video, t), Meant(table, s, e, t))
  {
    hide PI.Inv, P.CanStep, K.Shape, V.Aimed, V.Apply, Meant, VideoEvents, V.Step;
    AimedIsMeant(img, table, s, stacks, e, t);
    RunOne(s.video, VideoEvents(table, s, e));
    if VideoEvents(table, s, e) != [] {
      V.StepOnTerminal(s.video, VideoEvents(table, s, e)[0], t);
    }
  }

  /**
   * Over every run of system calls, output, key strokes and timer switches, the
   * screen of terminal t is what the output of the processes started on t and
   * the keys typed while t was visible make of it. Output through a stale alias
   * is among that: it may lose a character or bring in the display.
   */
  lemma {:induction false} OutputReachesOwnScreen(
    img: Image, table: K.KeyTable, s: System, stacks: Stacks, es: seq<Event>, t: int)
    returns (after: Stacks)
    requires K.TableOk(table) && Coupled(s, stacks) && CanRun(img, table, s, es) && 0 <= t < 3
    ensures Coupled(Run(img, table, s, es), after) && InBounds(V.ConsoleOf(s.video, t))
    ensures V.ConsoleOf(Run(img, table, s, es).video, t)
            == V.ApplyAll(V.ConsoleOf(s.video, t), MeantFor(img, table, s, es, t))
    decreases |es|
  {
    hide PI.Inv, P.CanStep, K.Shape, K.Room, Step, StacksAfter, Meant, V.Apply;
    if es == [] {
      after := stacks;
      ConsoleInBounds(s.video, t);
    } else {
      StepOnScreen(img, table, s, stacks, es[0], t);
      StepCouples(img, table, s, stacks, es[0]);
      var s' := Step(img, table, s, es[0]);
      after := OutputReachesOwnScreen(img, table, s', StacksAfter(img, table, s, stacks, es[0]), es[1..], t);
      V.ApplyConcat(V.ConsoleOf(s.video, t), Meant(table, s, es[0], t), MeantFor(img, table, s', es[1..], t));
    }
  }

  lemma ConsoleInBounds(v: V.Video, t: int)
    requires V.Good(v) && 0 <= t < 3
    ensures InBounds(V.ConsoleOf(v, t))
  {
  }

  /**
   * What each key stroke does to the screens: Ctrl-L clears the visible one,
   * backspace takes a character off it if its line has one, a typed character
   * is put on it, and nothing else changes any screen.
   */
  lemma ScanOnScreens(img: Image, table: K.KeyTable, s: System, stacks: Stacks, code: byte, t: int)
    requires K.TableOk(table) && Coupled(s, stacks) && CanStep(img, table, s, Scan(code)) && 0 <= t < 3
    ensures V.Good(Step(img, table, s, Scan(code)).video) && InBounds(V.ConsoleOf(s.video, t))
    ensures var a := K.Decode(s.keys.status, s.keys.ctrl, s.keys.alt, code);
            var before, after := V.ConsoleOf(s.video, t), V.ConsoleOf(Step(img, table, s, Scan(code)).video, t);
            && (t != s.keys.visible || a.Modifier? || a.Show? || a.Nothing? ==> after == before)
            && (t == s.keys.visible && a.ClearScreen? ==> after == Cleared())
            && (t == s.keys.visible && a.Backspace? ==>
                  after == if s.keys.counts[t] == 0 then before else DeleteChar(before))
            && (t == s.keys.visible && a.Type? ==> after == PutChar(before, table[s.keys.status][code]))
  {
    hide PI.Inv, P.CanStep, K.Decode, Step, V.ConsoleOf, DeleteChar, Cleared;
    StepOnScreen(img, table, s, stacks, Scan(code), t);
  }

  /** What one printed character does to them, when the alias is coherent. */
  lemma PrintOnScreens(img: Image, table: K.KeyTable, s: System, stacks: Stacks, c: byte, t: int)
    requires K.TableOk(table) && Coupled(s, stacks) && CanStep(img, table, s, Print(c)) && 0 <= t < 3
    requires V.Coherent(s.video)
    ensures V.Good(Step(img, table, s, Print(c)).video) && InBounds(V.ConsoleOf(s.video, t))
    ensures var before, after := V.ConsoleOf(s.video, t), V.ConsoleOf(Step(img, table, s, Print(c)).video, t);
            after == if t == s.proc.sched then PutChar(before, c) else before
  {
    hide PI.Inv, P.CanStep, K.Shape, Step, V.ConsoleOf, PutVia, OutputScreen;
    RunningScreen(s.proc, stacks);
    StepOnScreen(img, table, s, stacks, Print(c), t);
  }

  // ------------------------------------------------------ what a process reads

  /** The text pending on terminal t after one event. */
  ghost function TextAfter(table: K.KeyTable, s: System, e: Event, t: int, text: seq<byte>): seq<byte>
    requires K.TableOk(table) && K.Shape(s.keys)
  {
    if s.keys.visible != t then text
    else match e
         case Scan(code) =>
           var a := K.Decode(s.keys.status, s.keys.ctrl, s.keys.alt, code);
           K.Edit(text, a, K.Typed(s.keys, table, a))
         case TakeLine => []
         case _ => text
  }

  /** The text typed on terminal t and not read, after the run. */
  ghost function TypedText(img: Image, table: K.KeyTable, s: System, es: seq<Event>, t: int, text: seq<byte>): seq<byte>
    requires K.TableOk(table) && CanRun(img, table, s, es)
    decreases |es|
  {
    if es == [] then text
    else TypedText(img, table, Step(img, table, s, es[0]), es[1..], t, TextAfter(table, s, es[0], t, text))
  }

  /** One event edits the visible terminal's text as said and no other. */
  lemma StepOnText(img: Image, table: K.KeyTable, s: System, e: Event, texts: seq<seq<byte>>)
    requires K.TableOk(table) && CanStep(img, table, s, e) && K.Holds(s.keys, texts)
    ensures K.Holds(Step(img, table, s, e).keys, seq(3, t requires 0 <= t < 3 => TextAfter(table, s, e, t, texts[t])))
  {
    hide K.KeyStep, K.ReadStep, K.Decode, K.BufferHolds, V.Run;
    var texts' := seq(3, t requires 0 <= t < 3 => TextAfter(table, s, e, t, texts[t]));
    var v := s.keys.visible;
    match e
    case Scan(code) =>
      K.KeyStepEdits(s.keys, texts, table, code);
      assert texts' == texts[v := TextAfter(table, s, e, v, texts[v])];
    case TakeLine =>
      K.ReadStepEmpties(s.keys, texts);
      assert texts' == texts[v := []];
    case _ =>
      assert texts' == texts;
  }

  lemma {:induction false} BuffersHoldTypedText(
    img: Image, table: K.KeyTable, s: System, es: seq<Event>, texts: seq<seq<byte>>)
    requires K.TableOk(table) && CanRun(img, table, s, es) && K.Holds(s.keys, texts)
    ensures K.Holds(Run(img, table, s, es).keys,
                    seq(3, t requires 0 <= t < 3 => TypedText(img, table, s, es, t, texts[t])))
    decreases |es|
  {
    hide Step, TextAfter, CanStep, K.BufferHolds;
    if es == [] {
      assert seq(3, t requires 0 <= t < 3 => TypedText(img, table, s, es, t, texts[t])) == texts;
    } else {
      assert CanStep(img, table, s, es[0]);
      StepOnText(img, table, s, es[0], texts);
      var s' := Step(img, table, s, es[0]);
      var texts' := seq(3, t requires 0 <= t < 3 => TextAfter(table, s, es[0], t, texts[t]));
      BuffersHoldTypedText(img, table, s', es[1..], texts');
      assert seq(3, t requires 0 <= t < 3 => TypedText(img, table, s, es, t, texts[t]))
          == seq(3, t requires 0 <= t < 3 => TypedText(img, table, s', es[1..], t, texts'[t]));
    }
  }

  /** The line a process takes is the text typed on the terminal visible at that moment. */
  lemma ReadDeliversVisibleLine(img: Image, table: K.KeyTable, s: System, es: seq<Event>, texts: seq<seq<byte>>)
    requires K.TableOk(table) && CanRun(img, table, s, es) && K.Holds(s.keys, texts)
    requires K.Shape(Run(img, table, s, es).keys)
    ensures var r := Run(img, table, s, es);
            K.Delivered(r.keys) == TypedText(img, table, s, es, r.keys.visible, texts[r.keys.visible])
  {
    hide Run, TypedText, CanRun;
    BuffersHoldTypedText(img, table, s, es, texts);
    var r := Run(img, table, s, es);
    var t := r.keys.visible;
    K.HeldText(r.keys.bufs[t], r.keys.counts[t], TypedText(img, table, s, es, t, texts[t]));
  }

  /** Where the display is after one event that finds it at v. */
  function Display(table: K.KeyTable, s: System, e: Event, v: int): int
    requires K.TableOk(table) && K.Shape(s.keys)
  {
    if !e.Scan? then v
    else
      var a := K.Decode(s.keys.status, s.keys.ctrl, s.keys.alt, e.code);
      if a.Show? then a.terminal else v
  }

  /** The target of the run's last screen switch, or v if it has none. */
  ghost function DisplayAfter(img: Image, table: K.KeyTable, s: System, es: seq<Event>, v: int): int
    requires K.TableOk(table) && CanRun(img, table, s, es)
    decreases |es|
  {
    if es == [] then v
    else DisplayAfter(img, table, Step(img, table, s, es[0]), es[1..], Display(table, s, es[0], v))
  }

  lemma StepDisplay(img: Image, table: K.KeyTable, s: System, e: Event)
    requires K.TableOk(table) && CanStep(img, table, s, e)
    ensures K.Shape(Step(img, table, s, e).keys)
    ensures Step(img, table, s, e).keys.visible == Display(table, s, e, s.keys.visible)
  {
    hide K.Decode, K.KeyStep, V.Run, VideoEvents;
    if e.Scan? {
      K.KeyStepVisible(s.keys, table, e.code);
    }
  }

  lemma {:induction false} DisplayFollowsSwitches(img: Image, table: K.KeyTable, s: System, es: seq<Event>)
    requires K.TableOk(table) && CanRun(img, table, s, es) && K.Shape(s.keys)
    ensures K.Shape(Run(img, table, s, es).keys)
    ensures Run(img, table, s, es).keys.visible == DisplayAfter(img, table, s, es, s.keys.visible)
    decreases |es|
  {
    hide Step, CanStep, K.Shape, Display;
    if es != [] {
      StepDisplay(img, table, s, es[0]);
      DisplayFollowsSwitches(img, table, Step(img, table, s, es[0]), es[1..]);
    }
  }

  /** Process p stays between its wait and the rest of its keyboard_read. */
  ghost predicate StaysInRead(img: Image, table: K.KeyTable, s: System, es: seq<Event>, p: int)
    requires K.TableOk(table) && CanRun(img, table, s, es)
    decreases |es|
  {
    p in s.past && (es != [] ==> StaysInRead(img, table, Step(img, table, s, es[0]), es[1..], p))
  }

  /** Nothing touches the PCB of a process inside keyboard_read. */
  lemma StepKeepsReader(img: Image, table: K.KeyTable, s: System, stacks: Stacks, e: Event, p: int)
    requires K.TableOk(table) && Coupled(s, stacks) && CanStep(img, table, s, e)
    requires 0 <= p < 8 && s.proc.pcbs[p].inUse && p in s.past
    ensures P.Shape(Step(img, table, s, e).proc) && Step(img, table, s, e).proc.pcbs[p] == s.proc.pcbs[p]
  {
    hide PI.StackOk, P.CanStep, P.Step, V.Run, VideoEvents, K.KeyStep, K.ReadStep;
    if e.Call? {
      PI.StepKeeps(img, s.proc, stacks, e.e);
      PR.StepTouchesOnlyRunning(img, s.proc, stacks, e.e, p);
    }
  }

  lemma {:induction false} RunKeepsReader(
    img: Image, table: K.KeyTable, s: System, stacks: Stacks, es: seq<Event>, p: int)
    requires K.TableOk(table) && Coupled(s, stacks) && CanRun(img, table, s, es)
    requires 0 <= p < 8 && P.Shape(s.proc) && s.proc.pcbs[p].inUse && StaysInRead(img, table, s, es, p)
    ensures P.Shape(Run(img, table, s, es).proc) && Run(img, table, s, es).proc.pcbs[p] == s.proc.pcbs[p]
    decreases |es|
  {
    hide PI.Inv, P.Shape, K.Shape, V.Good, CanStep, Step, StacksAfter;
    if es != [] {
      StepKeepsReader(img, table, s, stacks, es[0], p);
      StepCouples(img, table, s, stacks, es[0]);
      RunKeepsReader(img, table, Step(img, table, s, es[0]), StacksAfter(img, table, s, stacks, es[0]), es[1..], p);
    }
  }

  /** The state just behind the wait of a keyboard_read. */
  lemma Passed(img: Image, table: K.KeyTable, s: System, stacks: Stacks)
    requires K.TableOk(table) && Coupled(s, stacks) && CanStep(img, table, s, PassWait)
    ensures var w, p := Step(img, table, s, PassWait), P.Cur(s.proc).curPid;
            && Coupled(w, stacks) && w.keys == s.keys && w.proc == s.proc && p in w.past
            && 0 <= p < 8 && w.proc.pcbs[p].inUse
  {
    hide PI.Inv, K.Shape, V.Good;
    StepCouples(img, table, s, stacks, PassWait);
    RunningScreen(s.proc, stacks);
  }

  /**
   * A process that passed its wait takes the line of the terminal where the
   * last screen switch since then left the display: its own terminal's line if
   * and only if the display is not away from it by then.
   */
  lemma ReadsOwnLineExactlyWhen(
    img: Image, table: K.KeyTable, s: System, stacks: Stacks, es: seq<Event>, texts: seq<seq<byte>>)
    requires K.TableOk(table) && Coupled(s, stacks) && CanStep(img, table, s, PassWait) && K.Holds(s.keys, texts)
    requires var w, p := Step(img, table, s, PassWait), P.Cur(s.proc).curPid;
             && CanRun(img, table, w, es) && StaysInRead(img, table, w, es, p)
             && CanStep(img, table, Run(img, table, w, es), TakeLine)
             && P.Cur(Run(img, table, w, es).proc).curPid == p
    ensures var w, t := Step(img, table, s, PassWait), ScreenOf(s.proc);
            var r, v := Run(img, table, w, es), DisplayAfter(img, table, w, es, t);
            && ScreenOf(r.proc) == t && r.keys.visible == v && 0 <= v < 3
            && K.Delivered(r.keys) == TypedText(img, table, w, es, v, texts[v])
            && (r.keys.visible == ScreenOf(r.proc) <==> DisplayAfter(img, table, w, es, t) == t)
  {
    hide PI.Inv, Run, CanRun, TypedText, DisplayAfter, StaysInRead, Step, V.Good;
    Passed(img, table, s, stacks);
    var w, p := Step(img, table, s, PassWait), P.Cur(s.proc).curPid;
    RunKeepsReader(img, table, w, stacks, es, p);
    DisplayFollowsSwitches(img, table, w, es);
    ReadDeliversVisibleLine(img, table, w, es, texts);
  }

  /** Alt down, F2. */
  const TO_SECOND: seq<Event> := [Scan(0x38), Scan(0x3C)]

  lemma ScanKeepsTexts(img: Image, table: K.KeyTable, s: System, code: byte, texts: seq<seq<byte>>, t: int)
    requires K.TableOk(table) && P.Shape(s.proc) && V.Good(s.video) && K.Holds(s.keys, texts) && 0 <= t < 3
    requires var a := K.Decode(s.keys.status, s.keys.ctrl, s.keys.alt, code); a.Modifier? || a.Show?
    ensures CanStep(img, table, s, Scan(code))
    ensures var d := Step(img, table, s, Scan(code));
            && K.Holds(d.keys, texts) && V.Good(d.video) && d.proc == s.proc && d.past == s.past
            && (s.keys.flags[t] ==> d.keys.flags[t])
  {
    hide K.Decode, K.KeyStep, K.BufferHolds, VideoEvents;
    K.KeyStepEdits(s.keys, texts, table, code);
    K.StepFlag(s.keys, table, K.Scan(code), t);
    assert texts[s.keys.visible := texts[s.keys.visible]] == texts;
    EchoGood(s, table, code);
  }

  lemma EchoGood(s: System, table: K.KeyTable, code: byte)
    requires K.TableOk(table) && K.Shape(s.keys) && V.Good(s.video)
    ensures V.Good(V.Run(s.video, VideoEvents(table, s, Scan(code))))
  {
    hide K.Decode, V.Good;
    RunOne(s.video, VideoEvents(table, s, Scan(code)));
  }

  /** Alt-F2 shows terminal 1 and changes no line and no process. */
  lemma AltF2(img: Image, table: K.KeyTable, s: System, texts: seq<seq<byte>>, t: int)
    requires K.TableOk(table) && P.Shape(s.proc) && V.Good(s.video) && K.Holds(s.keys, texts) && 0 <= t < 3
    ensures CanRun(img, table, s, TO_SECOND)
    ensures var r := Run(img, table, s, TO_SECOND);
            && K.Holds(r.keys, texts) && r.keys.visible == 1 && V.Good(r.video)
            && r.proc == s.proc && r.past == s.past && (s.keys.flags[t] ==> r.keys.flags[t])
  {
    hide K.Decode, K.KeyStep, K.Holds, V.Good, Step, CanStep;
    var m := AltPress(img, table, s, texts, t);
    var r := SecondShown(img, table, m, texts, t);
    assert TO_SECOND[1..] == [Scan(0x3C)] && [Scan(0x3C)][1..] == [];
    assert Run(img, table, s, TO_SECOND) == r;
  }

  lemma AltPress(img: Image, table: K.KeyTable, s: System, texts: seq<seq<byte>>, t: int) returns (m: System)
    requires K.TableOk(table) && P.Shape(s.proc) && V.Good(s.video) && K.Holds(s.keys, texts) && 0 <= t < 3
    ensures CanStep(img, table, s, Scan(0x38)) && m == Step(img, table, s, Scan(0x38))
    ensures K.Holds(m.keys, texts) && V.Good(m.video) && m.proc == s.proc && m.past == s.past
    ensures K.Decode(m.keys.status, m.keys.ctrl, m.keys.alt, 0x3C) == K.Show(1)
    ensures s.keys.flags[t] ==> m.keys.flags[t]
  {
    hide K.Decode, K.KeyStep, K.BufferHolds, V.Run, VideoEvents;
    AltDown(s.keys, table);
    ScanKeepsTexts(img, table, s, 0x38, texts, t);
    m := Step(img, table, s, Scan(0x38));
  }

  lemma SecondShown(img: Image, table: K.KeyTable, m: System, texts: seq<seq<byte>>, t: int) returns (r: System)
    requires K.TableOk(table) && P.Shape(m.proc) && V.Good(m.video) && K.Holds(m.keys, texts) && 0 <= t < 3
    requires K.Decode(m.keys.status, m.keys.ctrl, m.keys.alt, 0x3C) == K.Show(1)
    ensures CanStep(img, table, m, Scan(0x3C)) && r == Step(img, table, m, Scan(0x3C))
    ensures K.Holds(r.keys, texts) && V.Good(r.video) && r.proc == m.proc && r.past == m.past
    ensures r.keys.visible == 1 && (m.keys.flags[t] ==> r.keys.flags[t])
  {
    hide K.Decode, K.KeyStep, K.BufferHolds, V.Run, VideoEvents;
    ScanKeepsTexts(img, table, m, 0x3C, texts, t);
    K.KeyStepVisible(m.keys, table, 0x3C);
    r := Step(img, table, m, Scan(0x3C));
  }

  /**
   * Alt-F2 between the wait and the rest of a keyboard_read on terminal 0: the
   * process gets terminal 1's line, which is thereby lost to terminal 1, while
   * its own line and flag stay as they were.
   */
  lemma SwitchDuringRead(img: Image, table: K.KeyTable, s: System, stacks: Stacks, texts: seq<seq<byte>>)
    requires K.TableOk(table) && Coupled(s, stacks) && CanStep(img, table, s, PassWait) && K.Holds(s.keys, texts)
    requires ScreenOf(s.proc) == 0
    ensures var w := Step(img, table, s, PassWait);
            && CanRun(img, table, w, TO_SECOND)
            && var r := Run(img, table, w, TO_SECOND);
               && CanStep(img, table, r, TakeLine) && P.Cur(r.proc).curPid == P.Cur(s.proc).curPid
               && K.Delivered(r.keys) == texts[1]
               && var d := Step(img, table, r, TakeLine);
                  K.Holds(d.keys, texts[1 := []]) && d.keys.flags[0] && !d.keys.flags[1]
  {
    Passed(img, table, s, stacks);
    assert P.Shape(s.proc) && V.Good(s.video) && InReadOf(Step(img, table, s, PassWait), P.Cur(s.proc).curPid);
    hide Coupled, K.Holds, V.Good, Step, Run, CanRun, CanStep, P.Shape;
    var w := Step(img, table, s, PassWait);
    AltF2(img, table, w, texts, 0);
    SecondTaken(img, table, Run(img, table, w, TO_SECOND), texts);
  }

  /** The running process is p and inside keyboard_read. */
  ghost predicate InReadOf(s: System, p: int) {
    Running(s.proc) && V.Good(s.video) && P.Cur(s.proc).curPid == p && p in s.past
  }

  lemma SecondTaken(img: Image, table: K.KeyTable, r: System, texts: seq<seq<byte>>)
    requires K.TableOk(table) && P.Shape(r.proc) && InReadOf(r, P.Cur(r.proc).curPid)
    requires K.Holds(r.keys, texts) && r.keys.visible == 1 && r.keys.flags[0]
    ensures CanStep(img, table, r, TakeLine) && K.Delivered(r.keys) == texts[1]
    ensures var d := Step(img, table, r, TakeLine);
            K.Holds(d.keys, texts[1 := []]) && d.keys.flags[0] && !d.keys.flags[1]
  {
    hide K.BufferHolds, V.Run, VideoEvents, V.Good;
    assert K.BufferHolds(r.keys.bufs[1], r.keys.counts[1], texts[1]);
    K.HeldText(r.keys.bufs[1], r.keys.counts[1], texts[1]);
    K.ReadStepEmpties(r.keys, texts);
  }

  lemma AltDown(k: K.State, table: K.KeyTable)
    requires K.Shape(k) && K.TableOk(table)
    ensures K.Decode(k.status, k.ctrl, k.alt, 0x38).Modifier?
    ensures var r := K.KeyStep(k, table, 0x38); K.Decode(r.status, r.ctrl, r.alt, 0x3C) == K.Show(1)
  {
  }

  // -------------------------------------------------------- a terminal by itself

  /** What happens to one terminal: output of its processes, keys typed on it, its line taken. */
  datatype Own = Out(c: byte) | Typed(c: byte) | Erase | Wiped | Taken

  ghost function OwnOf(table: K.KeyTable, s: System, e: Event, t: int): seq<Own>
    requires K.TableOk(table) && K.Shape(s.keys) && P.Shape(s.proc)
  {
    match e
    case Print(c) => if OutputScreen(s.proc) == t then [Out(c)] else []
    case Scan(code) => if s.keys.visible == t then Pressed(s.keys, table, code) else []
    case TakeLine => if s.keys.visible == t then [Taken] else []
    case _ => []
  }

  function Pressed(k: K.State, table: K.KeyTable, code: byte): seq<Own>
    requires K.TableOk(table) && K.Shape(k)
  {
    var a := K.Decode(k.status, k.ctrl, k.alt, code);
    if a.ClearScreen? then [Wiped]
    else if a.Backspace? then [Erase]
    else if K.Typed(k, table, a) != NUL then [Typed(K.Typed(k, table, a))]
    else []
  }

  ghost function OwnAll(img: Image, table: K.KeyTable, s: System, es: seq<Event>, t: int): seq<Own>
    requires K.TableOk(table) && CanRun(img, table, s, es)
    decreases |es|
  {
    if es == [] then []
    else OwnOf(table, s, es[0], t) + OwnAll(img, table, Step(img, table, s, es[0]), es[1..], t)
  }

  /** A terminal that nothing else exists beside: its console and its pending line. */
  datatype Lone = Lone(console: Console, line: seq<byte>)

  function After(m: Lone, o: Own): (r: Lone)
    requires InBounds(m.console)
    ensures InBounds(r.console)
  {
    match o
    case Out(c) => m.(console := PutChar(m.console, c))
    case Typed(c) => Lone(PutChar(m.console, c), m.line + [c])
    case Erase => if m.line == [] then m else Lone(DeleteChar(m.console), m.line[..|m.line| - 1])
    case Wiped => m.(console := Cleared())
    case Taken => m.(line := [])
  }

  function AfterAll(m: Lone, os: seq<Own>): (r: Lone)
    requires InBounds(m.console)
    ensures InBounds(r.console)
    decreases |os|
  {
    if os == [] then m else AfterAll(After(m, os[0]), os[1..])
  }

  lemma {:induction false} AfterConcat(m: Lone, a: seq<Own>, b: seq<Own>)
    requires InBounds(m.console)
    ensures AfterAll(m, a + b) == AfterAll(AfterAll(m, a), b)
    decreases |a|
  {
    hide After;
    if a == [] {
      assert a + b == b;
    } else {
      assert (a + b)[1..] == a[1..] + b;
      AfterConcat(After(m, a[0]), a[1..], b);
    }
  }

  /** The event takes the display to or from the terminal scheduled at that moment. */
  ghost predicate Disturbs(table: K.KeyTable, s: System, e: Event)
    requires K.TableOk(table) && K.Shape(s.keys)
  {
    var v := Display(table, s, e, s.keys.visible);
    v != s.keys.visible && (s.proc.sched == s.keys.visible || s.proc.sched == v)
  }

  ghost predicate Undisturbed(img: Image, table: K.KeyTable, s: System, es: seq<Event>)
    requires K.TableOk(table) && CanRun(img, table, s, es)
    decreases |es|
  {
    es != [] ==> !Disturbs(table, s, es[0]) && Undisturbed(img, table, Step(img, table, s, es[0]), es[1..])
  }

  /** An event that does not disturb keeps the alias coherent, and no output of it goes astray. */
  lemma StepStaysCoherent(img: Image, table: K.KeyTable, s: System, stacks: Stacks, e: Event, t: int)
    requires K.TableOk(table) && Coupled(s, stacks) && CanStep(img, table, s, e)
    requires V.Coherent(s.video) && !Disturbs(table, s, e)
    ensures V.Coherent(Step(img, table, s, e).video) && V.Direct(Meant(table, s, e, t))
  {
    hide PI.Inv, P.CanStep, K.Decode, V.Step, V.Aimed, Meant, V.Good;
    var es := VideoEvents(table, s, e);
    AimedIsMeant(img, table, s, stacks, e, t);
    RunOne(s.video, es);
    if es != [] {
      V.StepStaysCoherent(s.video, es[0], t);
    }
  }

  /** One such event does to terminal t what its own part of it does to a terminal by itself. */
  lemma StepAlone(img: Image, table: K.KeyTable, s: System, stacks: Stacks, e: Event, t: int, line: seq<byte>)
    requires K.TableOk(table) && Coupled(s, stacks) && CanStep(img, table, s, e) && 0 <= t < 3
    requires V.Coherent(s.video) && s.keys.counts[t] == |line|
    ensures V.Good(Step(img, table, s, e).video) && InBounds(V.ConsoleOf(s.video, t))
    ensures Lone(V.ConsoleOf(Step(img, table, s, e).video, t), TextAfter(table, s, e, t, line))
            == AfterAll(Lone(V.ConsoleOf(s.video, t), line), OwnOf(table, s, e, t))
  {
    hide PI.Inv, P.CanStep, K.Decode, PutVia, DeleteChar, Cleared, Step, V.ConsoleOf, OutputScreen;
    StepOnScreen(img, table, s, stacks, e, t);
  }

  /**
   * From a coherent alias, over every run in which no screen switch takes the
   * display to or from the scheduled terminal: every operation on terminal t is
   * a Put, Delete or Wipe, and its console and pending line are what its own
   * output, keys and reads make of them, as if there were no other terminal.
   */
  lemma {:induction false} TerminalAlone(
    img: Image, table: K.KeyTable, s: System, stacks: Stacks, es: seq<Event>, t: int, texts: seq<seq<byte>>)
    requires K.TableOk(table) && Coupled(s, stacks) && CanRun(img, table, s, es) && 0 <= t < 3
    requires K.Holds(s.keys, texts) && V.Coherent(s.video) && Undisturbed(img, table, s, es)
    ensures var r := Run(img, table, s, es);
            && V.Good(r.video) && V.Coherent(r.video) && V.Direct(MeantFor(img, table, s, es, t))
            && InBounds(V.ConsoleOf(s.video, t))
            && Lone(V.ConsoleOf(r.video, t), TypedText(img, table, s, es, t, texts[t]))
               == AfterAll(Lone(V.ConsoleOf(s.video, t), texts[t]), OwnAll(img, table, s, es, t))
    decreases |es|
  {
    hide PI.Inv, P.CanStep, K.Room, K.BufferHolds, Step, StacksAfter, TextAfter, Meant, OwnOf, After, Disturbs, V.Coherent;
    if es == [] {
      ConsoleInBounds(s.video, t);
    } else {
      var s' := Step(img, table, s, es[0]);
      var texts' := seq(3, u requires 0 <= u < 3 => TextAfter(table, s, es[0], u, texts[u]));
      CountIs(s.keys, texts, t);
      StepAlone(img, table, s, stacks, es[0], t, texts[t]);
      StepStaysCoherent(img, table, s, stacks, es[0], t);
      StepOnText(img, table, s, es[0], texts);
      StepCouples(img, table, s, stacks, es[0]);
      TerminalAlone(img, table, s', StacksAfter(img, table, s, stacks, es[0]), es[1..], t, texts');
      AfterConcat(Lone(V.ConsoleOf(s.video, t), texts[t]), OwnOf(table, s, es[0], t), OwnAll(img, table, s', es[1..], t));
    }
  }

  lemma CountIs(k: K.State, texts: seq<seq<byte>>, t: int)
    requires K.Holds(k, texts) && 0 <= t < 3
    ensures k.counts[t] == |texts[t]|
  {
    K.PendingCount(k.bufs[t], k.counts[t], texts[t]);
  }

  /**
   * Isolation: two such runs, of any two machines, in which terminal t starts
   * the same and has the same output, keys and reads, end with the same screen,
   * cursor and pending line on t, whatever happens on the other terminals.
   */
  lemma SameHistorySameTerminal(
    img: Image, table: K.KeyTable, s1: System, stacks1: Stacks, es1: seq<Event>, texts1: seq<seq<byte>>,
    s2: System, stacks2: Stacks, es2: seq<Event>, texts2: seq<seq<byte>>, t: int)
    requires K.TableOk(table) && 0 <= t < 3
    requires Coupled(s1, stacks1) && CanRun(img, table, s1, es1) && K.Holds(s1.keys, texts1)
    requires Coupled(s2, stacks2) && CanRun(img, table, s2, es2) && K.Holds(s2.keys, texts2)
    requires V.Coherent(s1.video) && Undisturbed(img, table, s1, es1)
    requires V.Coherent(s2.video) && Undisturbed(img, table, s2, es2)
    requires V.ConsoleOf(s1.video, t) == V.ConsoleOf(s2.video, t) && texts1[t] == texts2[t]
    requires OwnAll(img, table, s1, es1, t) == OwnAll(img, table, s2, es2, t)
    ensures var r1, r2 := Run(img, table, s1, es1), Run(img, table, s2, es2);
            && V.Good(r1.video) && V.Good(r2.video) && V.ConsoleOf(r1.video, t) == V.ConsoleOf(r2.video, t)
            && K.Shape(r1.keys) && K.Shape(r2.keys) && CStr(r1.keys.bufs[t]) == CStr(r2.keys.bufs[t])
  {
    hide Run, CanRun, OwnAll, Undisturbed, TypedText, PI.Inv, V.ConsoleOf, AfterAll, MeantFor;
    TerminalAlone(img, table, s1, stacks1, es1, t, texts1);
    TerminalAlone(img, table, s2, stacks2, es2, t, texts2);
    BufferText(img, table, s1, es1, texts1, t);
    BufferText(img, table, s2, es2, texts2, t);
  }

  lemma BufferText(img: Image, table: K.KeyTable, s: System, es: seq<Event>, texts: seq<seq<byte>>, t: int)
    requires K.TableOk(table) && CanRun(img, table, s, es) && K.Holds(s.keys, texts) && 0 <= t < 3
    ensures var r := Run(img, table, s, es);
            K.Shape(r.keys) && CStr(r.keys.bufs[t]) == TypedText(img, table, s, es, t, texts[t])
  {
    hide Run, CanRun, TypedText;
    BuffersHoldTypedText(img, table, s, es, texts);
    var r := Run(img, table, s, es);
    K.HeldText(r.keys.bufs[t], r.keys.counts[t], TypedText(img, table, s, es, t, texts[t]));
  }

  // --------------------------------------------------------- the line on screen

  /** The event is, for terminal t, nothing but typing or taking back printing characters of its line. */
  ghost predicate EditsLine(table: K.KeyTable, s: System, e: Event, t: int)
    requires K.TableOk(table) && K.Shape(s.keys) && P.Shape(s.proc)
  {
    match e
    case Call(_) => true
    case Print(_) => OutputScreen(s.proc) != t
    case Scan(code) =>
      var a := K.Decode(s.keys.status, s.keys.ctrl, s.keys.alt, code);
      s.keys.visible == t ==> !a.ClearScreen? && !IsBreak(K.Typed(s.keys, table, a))
    case PassWait => true
    case TakeLine => s.keys.visible != t
  }

  ghost predicate OnlyEdits(img: Image, table: K.KeyTable, s: System, es: seq<Event>, t: int)
    requires K.TableOk(table) && CanRun(img, table, s, es)
    decreases |es|
  {
    es != [] ==>
      EditsLine(table, s, es[0], t) && OnlyEdits(img, table, Step(img, table, s, es[0]), es[1..], t)
  }

  /** One key stroke changes the line on the screen as it changes the line in the buffer. */
  lemma EchoFollowsText(
    k: K.State, table: K.KeyTable, code: byte, c: Console, text: seq<byte>, line: seq<byte>, first: nat)
    returns (next: nat)
    requires K.Shape(k) && K.TableOk(table) && K.Room(k, table, code)
    requires k.counts[k.visible] == |line| && IsPrinting(line) && LineShown(c, text, line, first)
    requires var a := K.Decode(k.status, k.ctrl, k.alt, code); !a.ClearScreen? && !IsBreak(K.Typed(k, table, a))
    ensures var a := K.Decode(k.status, k.ctrl, k.alt, code);
            var line' := K.Edit(line, a, K.Typed(k, table, a));
            IsPrinting(line') && LineShown(V.ApplyAll(c, EchoOps(k, table, code)), text, line', next)
  {
    hide LineShown, K.Decode, PutVia, DeleteChar;
    var a := K.Decode(k.status, k.ctrl, k.alt, code);
    var typed := K.Typed(k, table, a);
    ShownInBounds(c, text, line, first);
    next := first;
    if a.Backspace? && line != [] {
      EraseShown(c, text, line, first);
    } else if typed != NUL {
      next := TypeShown(c, text, line, first, typed);
    }
  }

  lemma ShownInBounds(c: Console, text: seq<byte>, line: seq<byte>, first: nat)
    requires LineShown(c, text, line, first)
    ensures InBounds(c)
  {
  }

  lemma StepShowsLine(img: Image, table: K.KeyTable, s: System, stacks: Stacks, e: Event, t: int,
                      texts: seq<seq<byte>>, text: seq<byte>, first: nat)
    returns (next: nat)
    requires K.TableOk(table) && Coupled(s, stacks) && CanStep(img, table, s, e) && 0 <= t < 3
    requires K.Holds(s.keys, texts) && IsPrinting(texts[t]) && EditsLine(table, s, e, t)
    requires LineShown(V.ConsoleOf(s.video, t), text, texts[t], first)
    ensures V.Good(Step(img, table, s, e).video)
    ensures var line := TextAfter(table, s, e, t, texts[t]);
            IsPrinting(line) && LineShown(V.ConsoleOf(Step(img, table, s, e).video, t), text, line, next)
  {
    hide PI.Inv, P.CanStep, LineShown, K.Decode, K.Edit, K.BufferHolds, EchoOps, V.Apply, Step;
    StepOnScreen(img, table, s, stacks, e, t);
    assert K.BufferHolds(s.keys.bufs[t], s.keys.counts[t], texts[t]);
    K.PendingCount(s.keys.bufs[t], s.keys.counts[t], texts[t]);
    next := first;
    if e.Scan? && s.keys.visible == t {
      next := EchoFollowsText(s.keys, table, e.code, V.ConsoleOf(s.video, t), text, texts[t], first);
    }
  }

  /**
   * If terminal t shows some text and the line pending on it, then through any
   * run that, on t, only types and takes back printing characters, whatever
   * all other processes and terminals do, t shows that text and exactly the line a
   * read would deliver, with the cursor behind it, wraps and scrolls included.
   */
  lemma {:induction false} ScreenShowsPendingLine(
    img: Image, table: K.KeyTable, s: System, stacks: Stacks, es: seq<Event>, t: int,
    texts: seq<seq<byte>>, text: seq<byte>, first: nat)
    returns (next: nat)
    requires K.TableOk(table) && Coupled(s, stacks) && CanRun(img, table, s, es) && 0 <= t < 3
    requires K.Holds(s.keys, texts) && IsPrinting(texts[t]) && OnlyEdits(img, table, s, es, t)
    requires LineShown(V.ConsoleOf(s.video, t), text, texts[t], first)
    ensures var r := Run(img, table, s, es);
            var line := TypedText(img, table, s, es, t, texts[t]);
            && V.Good(r.video) && K.Shape(r.keys) && CStr(r.keys.bufs[t]) == line
            && LineShown(V.ConsoleOf(r.video, t), text, line, next)
    decreases |es|
  {
    hide PI.Inv, P.CanStep, K.Room, K.BufferHolds, LineShown, Step, StacksAfter, TextAfter, EditsLine, V.ConsoleOf, IsPrinting;
    if es == [] {
      assert K.BufferHolds(s.keys.bufs[t], s.keys.counts[t], texts[t]);
      K.HeldText(s.keys.bufs[t], s.keys.counts[t], texts[t]);
      next := first;
    } else {
      var s' := Step(img, table, s, es[0]);
      var texts' := seq(3, u requires 0 <= u < 3 => TextAfter(table, s, es[0], u, texts[u]));
      StepOnText(img, table, s, es[0], texts);
      StepCouples(img, table, s, stacks, es[0]);
      next := StepShowsLine(img, table, s, stacks, es[0], t, texts, text, first);
      next := ScreenShowsPendingLine(
        img, table, s', StacksAfter(img, table, s, stacks, es[0]), es[1..], t, texts', text, next);
    }
  }

  /** Ctrl-L ends this: a pending line is no longer on the screen, after any text and at any scroll. */
  lemma WipeHidesLine(text: seq<byte>, line: seq<byte>, first: nat)
    requires IsPrinting(line) && line != []
    ensures !LineShown(Cleared(), text, line, first)
  {
    RowsGrow(text, line);
    hide MemShows;
  }

  // --------------------------------------------------------------------- boot

  /** After entry: empty process table, display cleared, line buffers empty. */
  function Boot(pcbs: seq<P.Pcb>, found: seq<seq<byte>>): System
    requires |found| == 4
  {
    System(P.Boot(pcbs), V.Boot(found), K.Boot(), {})
  }

  lemma BootSchedule(pcbs: seq<P.Pcb>)
    ensures P.Boot(pcbs).sched == 0
  {
  }

  lemma BootCoupled(pcbs: seq<P.Pcb>, found: seq<seq<byte>>)
    requires PI.AllFree(pcbs) && V.PagesOk(found)
    ensures Coupled(Boot(pcbs, found), [[], [], []]) && K.Holds(Boot(pcbs, found).keys, [[], [], []])
    ensures V.Coherent(Boot(pcbs, found).video)
  {
    hide PI.Inv, V.Good, K.Holds;
    PI.BootHolds(pcbs);
    V.BootGood(found);
    K.BootHolds();
  }

  /**
   * Every state reached from boot: one schedule_index and one visible_screen,
   * the running process on the scheduled terminal, each screen made by what
   * was meant for it, each buffer holding what was typed on its terminal.
   */
  lemma EveryReachableMachine(
    img: Image, table: K.KeyTable, pcbs: seq<P.Pcb>, found: seq<seq<byte>>, es: seq<Event>, t: int)
    requires K.TableOk(table) && PI.AllFree(pcbs) && V.PagesOk(found) && 0 <= t < 3
    requires CanRun(img, table, Boot(pcbs, found), es)
    ensures var b := Boot(pcbs, found);
            var r := Run(img, table, b, es);
            && P.Shape(r.proc) && V.Good(r.video) && K.Shape(r.keys)
            && r.video.sched == r.proc.sched && r.video.visible == r.keys.visible
            && r.proc.sched == SwitchCount(es) % 3 && OutputScreen(r.proc) == r.proc.sched
            && InBounds(V.ConsoleOf(b.video, t))
            && V.ConsoleOf(r.video, t) == V.ApplyAll(V.ConsoleOf(b.video, t), MeantFor(img, table, b, es, t))
            && CStr(r.keys.bufs[t]) == TypedText(img, table, b, es, t, [])
  {
    hide Run, CanRun, MeantFor, TypedText, PI.StackOk, V.ApplyAll, V.Boot, K.Boot, P.Boot, K.BufferHolds;
    var b := Boot(pcbs, found);
    var r := Run(img, table, b, es);
    BootCoupled(pcbs, found);
    var after := OutputReachesOwnScreen(img, table, b, [[], [], []], es, t);
    RunningScreen(r.proc, after);
    assert b.proc.sched == 0 by {
      BootSchedule(pcbs);
    }
    ScheduleGoesRound(img, table, b, es);
    BuffersHoldTypedText(img, table, b, es, [[], [], []]);
    K.HeldText(r.keys.bufs[t], r.keys.counts[t], TypedText(img, table, b, es, t, []));
  }

  /** From boot: through such a run each terminal is what it would be by itself. */
  lemma ReachableTerminalAlone(
    img: Image, table: K.KeyTable, pcbs: seq<P.Pcb>, found: seq<seq<byte>>, es: seq<Event>, t: int)
    requires K.TableOk(table) && PI.AllFree(pcbs) && V.PagesOk(found) && 0 <= t < 3
    requires CanRun(img, table, Boot(pcbs, found), es) && Undisturbed(img, table, Boot(pcbs, found), es)
    ensures var b := Boot(pcbs, found);
            var r := Run(img, table, b, es);
            && V.Good(b.video) && V.Good(r.video) && K.Shape(r.keys) && InBounds(V.ConsoleOf(b.video, t))
            && Lone(V.ConsoleOf(r.video, t), CStr(r.keys.bufs[t]))
               == AfterAll(Lone(V.ConsoleOf(b.video, t), []), OwnAll(img, table, b, es, t))
  {
    hide Run, CanRun, Undisturbed, OwnAll, AfterAll, MeantFor, TypedText, PI.Inv, V.ConsoleOf, V.Boot, K.Boot, P.Boot;
    var b := Boot(pcbs, found);
    BootCoupled(pcbs, found);
    TerminalAlone(img, table, b, [[], [], []], es, t, [[], [], []]);
    BufferText(img, table, b, es, [[], [], []], t);
  }
}
