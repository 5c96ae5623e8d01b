/**
 * Three virtual screens on one display. Page 0 is the display; page 1 + t backs
 * terminal t while it is hidden. Virtual page 0xb8 is an alias that
 * context_switch remaps; 0xb9..0xbb are the backing pages; 0xbc is always the
 * display.
 */
module Screens {
  import opened Bytes
  import opened TextConsole

  /** Each page is the 4000 bytes a screen uses; `alias` is the page behind 0xb8000. */
  datatype Video = Video(pages: seq<seq<byte>>, alias: int, visible: int, sched: int, xs: seq<int>, ys: seq<int>)

  ghost predicate Ok(v: Video) {
    && |v.pages| == 4 && (forall i :: 0 <= i < 4 ==> |v.pages[i]| == 4000)
    && 0 <= v.alias < 4 && -1 <= v.visible < 3 && 0 <= v.sched < 3
    && |v.xs| == 3 && |v.ys| == 3
    && forall t :: 0 <= t < 3 ==> 0 <= v.xs[t] < 80 && 0 <= v.ys[t] < 25
  }

  /** The page behind virtual page 0xb8 + p. */
  function Frame(v: Video, p: int): int {
    if p == 0 then v.alias else if p == 4 then 0 else p
  }

  /** The screen of terminal t: the display if t is visible, else its backing page. */
  function Logical(v: Video, t: int): seq<byte>
    requires |v.pages| == 4 && 0 <= t < 3
  {
    if t == v.visible then v.pages[0] else v.pages[1 + t]
  }

  function ConsoleOf(v: Video, t: int): Console
    requires |v.pages| == 4 && |v.xs| == |v.ys| == 3 && 0 <= t < 3
  {
    Console(Logical(v, t), v.xs[t], v.ys[t])
  }

  /** The alias is the scheduled terminal's own screen. */
  predicate Coherent(v: Video) {
    v.alias == if v.visible == v.sched then 0 else 1 + v.sched
  }

  // --------------------------------------------------------------- operations

  /** Stores console k as page `dst` and the cursor of terminal t. */
  function Store(v: Video, dst: int, t: int, k: Console): Video
    requires 0 <= dst < |v.pages| && 0 <= t < |v.xs| && t < |v.ys|
  {
    v.(pages := v.pages[dst := k.mem], xs := v.xs[t := k.x], ys := v.ys[t := k.y])
  }

  /** putc: the page it writes is not always the page its scroll reads. */
  function Putc(v: Video, c: byte): Video
    requires Ok(v)
  {
    var dst := if v.sched == v.visible then v.alias else 1 + v.sched;
    var src := if dst == v.alias then Own else Page(v.pages[v.alias]);
    Store(v, dst, v.sched, PutVia(Console(v.pages[dst], v.xs[v.sched], v.ys[v.sched]), src, c))
  }

  function PutcKeyboard(v: Video, c: byte): Video
    requires Ok(v) && v.visible >= 0
  {
    Store(v, 0, v.visible, PutChar(Console(v.pages[0], v.xs[v.visible], v.ys[v.visible]), c))
  }

  function DeleteKey(v: Video): Video
    requires Ok(v) && v.visible >= 0
  {
    Store(v, 0, v.visible, DeleteChar(Console(v.pages[0], v.xs[v.visible], v.ys[v.visible])))
  }

  function KeyClearScreen(v: Video): Video
    requires Ok(v) && v.visible >= 0
  {
    Store(v, 0, v.visible, Cleared())
  }

  function ClearScreen(v: Video): Video
    requires Ok(v)
  {
    Store(v, v.alias, v.sched, Cleared())
  }

  /** switch_vid: saves the display, shows the target's page; the alias is left alone. */
  function SwitchVid(v: Video, target: int): Video
    requires Ok(v)
  {
    if target < -1 || target > 2 || target == v.visible then v
    else
      var saved := v.pages[Frame(v, 1 + v.visible) := v.pages[0]];
      v.(pages := saved[0 := saved[Frame(v, 1 + target)]], visible := target)
  }

  /** The part of context_switch that moves the alias to the next terminal's screen. */
  function SwitchContext(v: Video): Video
    requires Ok(v)
  {
    var next := if v.sched < 2 then v.sched + 1 else 0;
    v.(sched := next, alias := if v.visible == next then 0 else 1 + next)
  }

  // ------------------------------------------------------------- single steps

  ghost predicate SameScreens(v: Video, w: Video)
    requires Ok(v) && Ok(w)
  {
    forall t :: 0 <= t < 3 ==> ConsoleOf(w, t) == ConsoleOf(v, t)
  }

  /** Switching the visible terminal changes no terminal's screen or cursor. */
  lemma SwitchVidKeepsScreens(v: Video, target: int)
    requires Ok(v) && v.visible >= 0
    ensures Ok(SwitchVid(v, target)) && SameScreens(v, SwitchVid(v, target))
  {
  }

  /**
   * A real switch keeps the alias coherent exactly when the scheduled terminal
   * is neither the old nor the new visible one.
   */
  lemma SwitchVidCoherence(v: Video, target: int)
    requires Ok(v) && Coherent(v) && -1 <= target <= 2 && target != v.visible
    ensures Coherent(SwitchVid(v, target)) <==> v.sched != v.visible && v.sched != target
  {
  }

  /**
   * switch_vid also accepts -1, after which no terminal is visible. From there a
   * switch keeps every screen if and only if the page behind the alias is the
   * display or equals it: the display is saved through the alias.
   */
  lemma SwitchVidFromNowhere(v: Video, target: int)
    requires Ok(v) && v.visible == -1 && 0 <= target <= 2
    ensures Ok(SwitchVid(v, target))
    ensures SameScreens(v, SwitchVid(v, target)) <==> v.pages[v.alias] == v.pages[0]
  {
    var w := SwitchVid(v, target);
    if v.alias != 0 {
      var t := v.alias - 1;
      assert Logical(w, t) == v.pages[0] && Logical(v, t) == v.pages[v.alias];
      assert SameScreens(v, w) ==> ConsoleOf(w, t) == ConsoleOf(v, t);
    }
  }

  /** A context switch changes no screen and always leaves the alias coherent. */
  lemma SwitchContextIsCoherent(v: Video)
    requires Ok(v)
    ensures var w := SwitchContext(v); Ok(w) && Coherent(w) && SameScreens(v, w)
    ensures SwitchContext(v).sched == (v.sched + 1) % 3 && SwitchContext(v).visible == v.visible
  {
  }

  ghost predicate OnlyChanges(v: Video, w: Video, t: int, k: Console)
    requires Ok(v) && Ok(w) && 0 <= t < 3
  {
    && ConsoleOf(w, t) == k
    && (forall u :: 0 <= u < 3 && u != t ==> ConsoleOf(w, u) == ConsoleOf(v, u))
    && w.alias == v.alias && w.visible == v.visible && w.sched == v.sched
  }

  /** What the alias can be: the display or the scheduled terminal's backing page. */
  predicate AliasOwn(v: Video) {
    v.alias == 0 || v.alias == 1 + v.sched
  }

  /**
   * The condition on alias, cursor and character under which putc is right,
   * whatever the pages hold. With a stale alias only three kinds of output are
   * harmless: NUL, a break that does not scroll, and, on a hidden terminal,
   * any character that does not scroll.
   */
  ghost predicate PutcSafe(v: Video, c: byte)
    requires Ok(v)
  {
    || Coherent(v) || c == NUL
    || (!Scrolls(ConsoleOf(v, v.sched), c) && (IsBreak(c) || v.sched != v.visible))
  }

  /** putc does to the scheduled terminal what it does to a console, and changes no other screen. */
  ghost predicate PutcRight(v: Video, c: byte)
    requires Ok(v)
  {
    Ok(Putc(v, c)) && OnlyChanges(v, Putc(v, c), v.sched, PutChar(ConsoleOf(v, v.sched), c))
  }

  lemma PutcOnScheduled(v: Video, c: byte)
    requires Ok(v) && PutcSafe(v, c)
    ensures PutcRight(v, c)
  {
    hide PutCell, ScrollUp;
  }

  /**
   * Everything putc does outside that condition: the cursor moves as it should
   * and no other terminal changes, but on the visible terminal the screen stays
   * as it was, and on a hidden one the scroll brings in the display.
   */
  lemma PutcUnsafe(v: Video, c: byte)
    requires Ok(v) && !PutcSafe(v, c) && AliasOwn(v)
    ensures Ok(Putc(v, c))
    ensures var k := ConsoleOf(v, v.sched);
            OnlyChanges(v, Putc(v, c), v.sched,
                        PutChar(k, c).(mem := if v.sched == v.visible then k.mem else ScrollUp(v.pages[0])))
  {
    hide PutCell, ScrollUp;
  }

  ghost predicate PagesOk(ps: seq<seq<byte>>) {
    |ps| == 4 && forall i :: 0 <= i < 4 ==> |ps[i]| == 4000
  }

  /** Page contents on which every stale output shows: a display of ones, blank backing pages. */
  function TellingPages(): (ps: seq<seq<byte>>)
    ensures PagesOk(ps)
  {
    [seq(4000, i => 1), Blank(4000), Blank(4000), Blank(4000)]
  }

  lemma PutcLosesCharacter(v: Video, c: byte)
    requires Ok(v) && !PutcSafe(v, c) && AliasOwn(v) && v.pages == TellingPages() && v.sched == v.visible
    ensures !PutcRight(v, c)
  {
    var k := ConsoleOf(v, v.sched);
    PutcUnsafe(v, c);
    hide Putc, PutcSafe;
    var at, want := 80 * k.y + k.x, PutChar(k, c).mem;
    assert if Scrolls(k, c) then want[3840] == NUL else want[2 * at + 1] == ATTRIB;
    assert k.mem[3840] == k.mem[2 * at + 1] == 1;
  }

  lemma PutcCopiesDisplay(v: Video, c: byte)
    requires Ok(v) && !PutcSafe(v, c) && AliasOwn(v) && v.pages == TellingPages() && v.sched != v.visible
    ensures !PutcRight(v, c)
  {
    var k := ConsoleOf(v, v.sched);
    PutcUnsafe(v, c);
    assert PutChar(k, c).mem[0] == NUL;
    assert ScrollUp(v.pages[0])[0] == 1;
    hide Putc, PutcSafe, ScrollUp, PutCell;
  }

  lemma PutcWrongOnTellingPages(v: Video, c: byte)
    requires Ok(v) && !PutcSafe(v, c) && AliasOwn(v)
    ensures !PutcRight(v.(pages := TellingPages()), c)
  {
    hide PutcRight, TellingPages;
    var w := v.(pages := TellingPages());
    if w.sched == w.visible {
      PutcLosesCharacter(w, c);
    } else {
      PutcCopiesDisplay(w, c);
    }
  }

  /** putc is right on all page contents if and only if the condition holds. */
  lemma PutcRightExactlyWhen(v: Video, c: byte)
    requires Ok(v) && AliasOwn(v)
    ensures PutcSafe(v, c) <==> forall ps :: PagesOk(ps) ==> PutcRight(v.(pages := ps), c)
  {
    if PutcSafe(v, c) {
      forall ps | PagesOk(ps)
        ensures PutcRight(v.(pages := ps), c)
      {
        PutcOnScheduled(v.(pages := ps), c);
      }
    } else {
      PutcWrongOnTellingPages(v, c);
      assert PagesOk(TellingPages());
    }
  }

  /** Keyboard echo, backspace and Ctrl-L act on the visible terminal alone, whatever the alias. */
  lemma KeysOnVisible(v: Video, c: byte)
    requires Ok(v) && v.visible >= 0
    ensures var k := ConsoleOf(v, v.visible);
            && InBounds(k)
            && Ok(PutcKeyboard(v, c)) && OnlyChanges(v, PutcKeyboard(v, c), v.visible, PutChar(k, c))
            && Ok(DeleteKey(v)) && OnlyChanges(v, DeleteKey(v), v.visible, DeleteChar(k))
            && Ok(KeyClearScreen(v)) && OnlyChanges(v, KeyClearScreen(v), v.visible, Cleared())
  {
    hide PutVia, DeleteChar, Blank;
  }

  /** The page that holds terminal t's screen. */
  function PageOf(v: Video, t: int): int {
    if t == v.visible then 0 else 1 + t
  }

  /** clear_screen blanks the terminal behind the alias and homes the scheduled terminal's cursor. */
  lemma ClearEffect(v: Video)
    requires Ok(v)
    ensures Ok(ClearScreen(v))
    ensures forall t :: 0 <= t < 3 ==>
              ConsoleOf(ClearScreen(v), t)
              == Console(if PageOf(v, t) == v.alias then Blank(4000) else Logical(v, t),
                         if t == v.sched then 0 else v.xs[t], if t == v.sched then 0 else v.ys[t])
  {
    hide Blank;
  }

  /** So it clears the scheduled terminal alone, on all page contents, if and only if the alias is coherent. */
  lemma ClearRightExactlyWhen(v: Video)
    requires Ok(v)
    ensures Coherent(v) <==>
            forall ps :: PagesOk(ps) ==>
              var w := v.(pages := ps); Ok(ClearScreen(w)) && OnlyChanges(w, ClearScreen(w), v.sched, Cleared())
  {
    if Coherent(v) {
      forall ps | PagesOk(ps)
        ensures var w := v.(pages := ps); Ok(ClearScreen(w)) && OnlyChanges(w, ClearScreen(w), v.sched, Cleared())
      {
        ClearEffect(v.(pages := ps));
      }
    } else {
      var ones := seq(4000, i => 1);
      var ps := [ones, ones, ones, ones];
      var w := v.(pages := ps);
      ClearEffect(w);
      assert PagesOk(ps) && ConsoleOf(ClearScreen(w), v.sched).mem[0] == 1 && Cleared().mem[0] == NUL;
    }
  }

  // --------------------------------------------------------------------- runs

  type TerminalId = t: int | 0 <= t < 3

  /** The contents of one screen. */
  type Screenful = s: seq<byte> | |s| == 4000 witness seq(4000, i => 0)

  datatype Event =
    | Write(c: byte)           // putc by the scheduled process
    | Key(c: byte)             // a key echoed by putc_keyboard
    | Backspace(pending: bool) // backspace; `pending` if the line buffer is not empty
    | CtrlL
    | Show(target: TerminalId) // Alt-F1..F3
    | Tick                     // timer

  /** What holds at boot and ever after. */
  ghost predicate Good(v: Video) {
    Ok(v) && v.visible >= 0 && AliasOwn(v)
  }

  function Step(v: Video, e: Event): Video
    requires Ok(v) && v.visible >= 0
  {
    match e
    case Write(c) => Putc(v, c)
    case Key(c) => PutcKeyboard(v, c)
    case Backspace(pending) => if pending then DeleteKey(v) else v
    case CtrlL => KeyClearScreen(v)
    case Show(target) => SwitchVid(v, target)
    case Tick => SwitchContext(v)
  }

  /**
   * What an event does to a console, if it is aimed at it. The last two are
   * output through a stale alias: a character that only moves the cursor, and
   * one whose scroll replaces the screen by what `page` holds.
   */
  datatype Op = Put(c: byte) | Delete | Wipe | Skip(c: byte) | Copy(c: byte, page: Screenful)

  ghost function WriteOp(v: Video, c: byte): Op
    requires Ok(v)
  {
    if PutcSafe(v, c) then Put(c) else if v.sched == v.visible then Skip(c) else Copy(c, v.pages[0])
  }

  ghost function Aimed(v: Video, e: Event, t: int): seq<Op>
    requires Ok(v)
  {
    match e
    case Write(c) => if v.sched == t then [WriteOp(v, c)] else []
    case Key(c) => if v.visible == t then [Put(c)] else []
    case Backspace(pending) => if v.visible == t && pending then [Delete] else []
    case CtrlL => if v.visible == t then [Wipe] else []
    case Show(_) => []
    case Tick => []
  }

  function Apply(k: Console, op: Op): (r: Console)
    requires InBounds(k)
    ensures InBounds(r)
  {
    match op
    case Put(c) => PutChar(k, c)
    case Delete => DeleteChar(k)
    case Wipe => Cleared()
    case Skip(c) => PutChar(k, c).(mem := k.mem)
    case Copy(c, page) => PutChar(k, c).(mem := ScrollUp(page))
  }

  function ApplyAll(k: Console, ops: seq<Op>): (r: Console)
    requires InBounds(k)
    ensures InBounds(r)
    decreases |ops|
  {
    if ops == [] then k else ApplyAll(Apply(k, ops[0]), ops[1..])
  }

  ghost function Run(v: Video, es: seq<Event>): Video
    requires Good(v)
    decreases |es|
  {
    if es == [] then v else
      StepKeepsGood(v, es[0]);
      Run(Step(v, es[0]), es[1..])
  }

  /** Everything the run aims at terminal t, in order. */
  ghost function OpsFor(v: Video, es: seq<Event>, t: int): seq<Op>
    requires Good(v)
    decreases |es|
  {
    if es == [] then [] else
      StepKeepsGood(v, es[0]);
      Aimed(v, es[0], t) + OpsFor(Step(v, es[0]), es[1..], t)
  }

  /** One step changes a terminal's console exactly as the operations aimed at it say. */
  lemma StepOnTerminal(v: Video, e: Event, t: int)
    requires Good(v) && 0 <= t < 3
    ensures InBounds(ConsoleOf(v, t)) && Ok(Step(v, e)) && Step(v, e).visible >= 0
    ensures ConsoleOf(Step(v, e), t) == ApplyAll(ConsoleOf(v, t), Aimed(v, e, t))
  {
    hide PutVia, DeleteChar, Blank, ScrollUp, Putc, PutcKeyboard, DeleteKey, KeyClearScreen, SwitchVid, SwitchContext;
    match e
    case Write(c) =>
      if PutcSafe(v, c) {
        PutcOnScheduled(v, c);
      } else {
        PutcUnsafe(v, c);
      }
    case Key(c) => KeysOnVisible(v, c);
    case Backspace(pending) => KeysOnVisible(v, 0);
    case CtrlL => KeysOnVisible(v, 0);
    case Show(target) => SwitchVidKeepsScreens(v, target); SwitchVidVisible(v, target);
    case Tick => SwitchContextIsCoherent(v); SwitchContextVisible(v);
  }

  lemma StepKeepsAlias(v: Video, e: Event)
    requires Good(v)
    ensures AliasOwn(Step(v, e))
  {
  }

  /** Only a screen switch moves the display, only the timer moves the schedule. */
  lemma StepIndices(v: Video, e: Event)
    requires Good(v)
    ensures Step(v, e).visible == if e.Show? then e.target else v.visible
    ensures Step(v, e).sched == if e.Tick? then (v.sched + 1) % 3 else v.sched
  {
    hide PutVia, DeleteChar, Blank;
  }

  /** Every event keeps the screens well formed and the alias on a page of the scheduled terminal. */
  lemma StepKeepsGood(v: Video, e: Event)
    requires Good(v)
    ensures Good(Step(v, e))
  {
    hide Step;
    StepKeepsAlias(v, e);
    StepOnTerminal(v, e, 0);
  }

  lemma SwitchVidVisible(v: Video, target: int)
    requires Ok(v) && v.visible >= 0 && 0 <= target <= 2
    ensures SwitchVid(v, target).visible >= 0
  {
  }

  lemma SwitchContextVisible(v: Video)
    requires Ok(v)
    ensures SwitchContext(v).visible == v.visible
  {
  }

  /**
   * However writes, keys, clears, screen switches and timer ticks interleave,
   * each terminal's screen and cursor end as the operations aimed at it, in
   * order, make them. A Copy among them carries the display of another terminal.
   */
  lemma {:induction false} RunAppliesOps(v: Video, es: seq<Event>, t: int)
    requires Good(v) && 0 <= t < 3
    ensures InBounds(ConsoleOf(v, t)) && Good(Run(v, es))
    ensures ConsoleOf(Run(v, es), t) == ApplyAll(ConsoleOf(v, t), OpsFor(v, es, t))
    decreases |es|
  {
    hide PutVia, DeleteChar, Blank, Step, Aimed;
    if es != [] {
      StepOnTerminal(v, es[0], t);
      StepKeepsGood(v, es[0]);
      RunAppliesOps(Step(v, es[0]), es[1..], t);
      ApplyConcat(ConsoleOf(v, t), Aimed(v, es[0], t), OpsFor(Step(v, es[0]), es[1..], t));
    }
  }

  function TickCount(es: seq<Event>): nat {
    if es == [] then 0 else (if es[0].Tick? then 1 else 0) + TickCount(es[1..])
  }

  /** Which terminal is scheduled depends on the number of timer ticks alone. */
  lemma {:induction false} TicksGoRound(v: Video, es: seq<Event>)
    requires Good(v)
    ensures Run(v, es).sched == (v.sched + TickCount(es)) % 3
    decreases |es|
  {
    hide Step;
    if es != [] {
      StepKeepsGood(v, es[0]);
      StepIndices(v, es[0]);
      TicksGoRound(Step(v, es[0]), es[1..]);
    }
  }

  /** No screen switch of the run takes the display to or from the terminal scheduled at that moment. */
  ghost predicate Undisturbed(v: Video, es: seq<Event>)
    requires Good(v)
    decreases |es|
  {
    es != [] ==>
      && (es[0].Show? && es[0].target != v.visible ==> v.sched != v.visible && v.sched != es[0].target)
      && (StepKeepsGood(v, es[0]); Undisturbed(Step(v, es[0]), es[1..]))
  }

  /** No output went through a stale alias. */
  ghost predicate Direct(ops: seq<Op>) {
    forall i :: 0 <= i < |ops| ==> !ops[i].Skip? && !ops[i].Copy?
  }

  lemma StepStaysCoherent(v: Video, e: Event, t: int)
    requires Good(v) && Coherent(v)
    requires e.Show? && e.target != v.visible ==> v.sched != v.visible && v.sched != e.target
    ensures Coherent(Step(v, e)) && Direct(Aimed(v, e, t))
  {
    hide PutVia, DeleteChar, Blank;
    if e.Show? && e.target != v.visible {
      SwitchVidCoherence(v, e.target);
    }
  }

  /** From a coherent alias, such runs keep it coherent, and none of their output goes astray. */
  lemma {:induction false} UndisturbedIsDirect(v: Video, es: seq<Event>, t: int)
    requires Good(v) && Coherent(v) && Undisturbed(v, es)
    ensures Coherent(Run(v, es)) && Direct(OpsFor(v, es, t))
    decreases |es|
  {
    hide Step, Aimed;
    if es != [] {
      StepKeepsGood(v, es[0]);
      StepStaysCoherent(v, es[0], t);
      UndisturbedIsDirect(Step(v, es[0]), es[1..], t);
    }
  }

  lemma {:induction false} ApplyConcat(k: Console, a: seq<Op>, b: seq<Op>)
    requires InBounds(k)
    ensures ApplyAll(k, a + b) == ApplyAll(ApplyAll(k, a), b)
    decreases |a|
  {
    if a == [] {
      assert a + b == b;
    } else {
      assert (a + b)[1..] == a[1..] + b;
      ApplyConcat(Apply(k, a[0]), a[1..], b);
    }
  }

  function Puts(text: seq<byte>): seq<Op> {
    seq(|text|, i requires 0 <= i < |text| => Put(text[i]))
  }

  lemma {:induction false} PutsPrint(k: Console, text: seq<byte>)
    requires InBounds(k)
    ensures ApplyAll(k, Puts(text)) == Print(k, text)
  {
    hide PutVia;
    if text != [] {
      var init, c := text[..|text| - 1], text[|text| - 1];
      PutsPrint(k, init);
      assert Puts(text) == Puts(init) + [Put(c)];
      ApplyConcat(k, Puts(init), [Put(c)]);
    }
  }

  /**
   * If, over a run, a terminal is wiped and then only receives characters, its
   * screen shows the last 25 wrapped rows of exactly those characters.
   */
  lemma RunShowsText(v: Video, es: seq<Event>, t: int, before: seq<Op>, text: seq<byte>)
    requires Good(v) && 0 <= t < 3 && OpsFor(v, es, t) == before + [Wipe] + Puts(text)
    ensures Good(Run(v, es)) && RowsOk(Rows(text)) && Shows(ConsoleOf(Run(v, es), t), Rows(text))
  {
    hide PutVia, DeleteChar, Blank, OpsFor, Run, Rows, ShowsFrom;
    RunAppliesOps(v, es, t);
    var k := ConsoleOf(v, t);
    ApplyConcat(k, before + [Wipe], Puts(text));
    ApplyConcat(k, before, [Wipe]);
    PutsPrint(Cleared(), text);
    PrintShowsText(text);
  }

  // --------------------------------------------------------------------- boot

  /** A screen full of spaces, as clear leaves the display. */
  function Spaces(): (s: seq<byte>)
    ensures |s| == 4000
  {
    seq(4000, i => if i % 2 == 0 then SPACE else ATTRIB)
  }

  /** After entry's clear, init_paging and init_scheduler; `found` is what video memory held. */
  function Boot(found: seq<seq<byte>>): Video
    requires |found| == 4
  {
    Video(found[0 := Spaces()], 0, 0, 0, [0, 0, 0], [0, 0, 0])
  }

  /** init_vid: blanks the backing pages. Nothing in the kernel calls it. */
  function InitVid(v: Video): Video
    requires |v.pages| == 4
  {
    v.(pages := [v.pages[0], Blank(4000), Blank(4000), Blank(4000)], visible := 0)
  }

  /**
   * The machine boots coherent, with an empty screen on terminal 0; after
   * init_vid terminals 1 and 2 are empty and clean as well.
   */
  lemma BootGood(found: seq<seq<byte>>)
    requires PagesOk(found)
    ensures var v := Boot(found);
            Good(v) && Coherent(v) && ShowsFrom(ConsoleOf(v, 0), [[]], 0, false)
    ensures var v := InitVid(Boot(found));
            Good(v) && Coherent(v) && ShowsFrom(ConsoleOf(v, 0), [[]], 0, false)
            && ConsoleOf(v, 1) == Cleared() && ConsoleOf(v, 2) == Cleared()
  {
    forall r, c | 0 <= r < 25 && 0 <= c < 80
      ensures ShowsCell(Spaces(), [[]], 0, false, r, c)
    {
    }
  }

  /** In every state reached from boot each terminal's console is its boot console and what was aimed at it. */
  lemma ReachableScreens(found: seq<seq<byte>>, es: seq<Event>, t: int)
    requires PagesOk(found) && 0 <= t < 3
    ensures Good(Boot(found)) && Good(Run(Boot(found), es)) && InBounds(ConsoleOf(Boot(found), t))
    ensures ConsoleOf(Run(Boot(found), es), t) == ApplyAll(ConsoleOf(Boot(found), t), OpsFor(Boot(found), es, t))
  {
    BootGood(found);
    RunAppliesOps(Boot(found), es, t);
  }

  /** A terminal that starts empty and only receives characters shows the last 25 rows of them. */
  lemma EmptyShowsText(v: Video, es: seq<Event>, t: int, clean: bool, text: seq<byte>)
    requires Good(v) && 0 <= t < 3 && OpsFor(v, es, t) == Puts(text)
    requires ShowsFrom(ConsoleOf(v, t), [[]], 0, clean)
    ensures Good(Run(v, es)) && RowsOk(Rows(text))
    ensures ShowsFrom(ConsoleOf(Run(v, es), t), Rows(text), First(Rows(text)), clean)
  {
    hide PutVia, DeleteChar, Blank, OpsFor, Run, Rows, ShowsFrom;
    RunAppliesOps(v, es, t);
    PutsPrint(ConsoleOf(v, t), text);
    PrintShows(ConsoleOf(v, t), clean, text);
  }

  /**
   * From boot, terminal 0 shows the text it was given, with no wipe before it;
   * once init_vid has run, so does every terminal.
   */
  lemma BootShowsText(found: seq<seq<byte>>, inited: bool, es: seq<Event>, t: int, text: seq<byte>)
    requires PagesOk(found) && 0 <= t < 3 && (t == 0 || inited)
    requires var v := if inited then InitVid(Boot(found)) else Boot(found);
             Good(v) && OpsFor(v, es, t) == Puts(text)
    ensures var v := if inited then InitVid(Boot(found)) else Boot(found);
            && Good(Run(v, es)) && RowsOk(Rows(text))
            && ShowsFrom(ConsoleOf(Run(v, es), t), Rows(text), First(Rows(text)), t != 0)
  {
    hide OpsFor, Run, Rows, ShowsFrom, Blank, Spaces;
    BootGood(found);
    ClearedShows();
    EmptyShowsText(if inited then InitVid(Boot(found)) else Boot(found), es, t, t != 0, text);
  }
}
