/** The keyboard interrupt and the three terminals' line buffers. */
module Keyboard {
  import opened Bytes

  const BUFFER_SIZE: nat := 128

  /** The key tables: one row of 128 characters for each shift and caps-lock state. */
  type KeyTable = seq<seq<byte>>

  ghost predicate TableOk(keys: KeyTable) {
    |keys| == 4 && forall s :: 0 <= s < 4 ==> |keys[s]| == 128 && keys[s][0] == NUL
  }

  datatype State = State(status: int, ctrl: bool, alt: bool, visible: int,
                         bufs: seq<seq<byte>>, counts: seq<int>, flags: seq<bool>)

  ghost predicate Shape(k: State) {
    && 0 <= k.status < 4 && 0 <= k.visible < 3
    && |k.bufs| == 3 && |k.counts| == 3 && |k.flags| == 3
    && forall t :: 0 <= t < 3 ==> |k.bufs[t]| == 128 && 0 <= k.counts[t] <= 127
  }

  // ----------------------------------------------------------- decoding a key

  datatype Action =
    | Modifier(status: int, ctrl: bool, alt: bool)
    | Show(terminal: int)
    | ClearScreen
    | Backspace
    | Type(code: byte)
    | Nothing

  predicate IsShiftPress(code: byte) { code == 0x2A || code == 0x36 }

  predicate IsShiftRelease(code: byte) { code == 0xAA || code == 0xB6 }

  /** getScancode */
  function Decode(status: int, ctrl: bool, alt: bool, code: byte): (a: Action)
    ensures a.Modifier? && 0 <= status < 4 ==> 0 <= a.status < 4
    ensures a.Type? ==> a.code == code < 0x80
    ensures a.Show? ==> 0 <= a.terminal < 3
  {
    if status == 0 && IsShiftPress(code) then Modifier(1, ctrl, alt)
    else if status == 1 && IsShiftRelease(code) then Modifier(0, ctrl, alt)
    else if status == 0 && code == 0x3A then Modifier(2, ctrl, alt)
    else if status == 2 && code == 0x3A then Modifier(0, ctrl, alt)
    else if status == 2 && IsShiftPress(code) then Modifier(3, ctrl, alt)
    else if status == 3 && IsShiftRelease(code) then Modifier(2, ctrl, alt)
    else if code == 0x1D then Modifier(status, true, alt)
    else if code == 0x9D then Modifier(status, false, alt)
    else if code == 0x38 then Modifier(status, ctrl, true)
    else if code == 0xB8 then Modifier(status, ctrl, false)
    else if alt && code == 0x3B then Show(0)
    else if alt && code == 0x3C then Show(1)
    else if alt && code == 0x3D then Show(2)
    else if ctrl && code == 0x26 then ClearScreen
    else if code == 0x0E then Backspace
    else if code < 0x80 then Type(code)
    else Nothing
  }

  function StatusOf(shift: bool, caps: bool): int {
    (if caps then 2 else 0) + (if shift then 1 else 0)
  }

  /**
   * What getScancode means, by keys instead of by branches: key_status is the
   * pair of a held shift and a locked caps. Shift follows presses and releases;
   * caps lock toggles, but only while shift is up; a shift pressed while shift
   * is down, or caps lock under shift, is typed like a character.
   */
  lemma DecodeByKey(shift: bool, caps: bool, ctrl: bool, alt: bool, code: byte)
    ensures var a := Decode(StatusOf(shift, caps), ctrl, alt, code);
            && (IsShiftPress(code) ==> a == if shift then Type(code) else Modifier(StatusOf(true, caps), ctrl, alt))
            && (IsShiftRelease(code) ==> a == if shift then Modifier(StatusOf(false, caps), ctrl, alt) else Nothing)
            && (code == 0x3A ==> a == if shift then Type(code) else Modifier(StatusOf(false, !caps), ctrl, alt))
            && (code in {0x1D, 0x9D} ==> a == Modifier(StatusOf(shift, caps), code == 0x1D, alt))
            && (code in {0x38, 0xB8} ==> a == Modifier(StatusOf(shift, caps), ctrl, code == 0x38))
            && (code in {0x3B, 0x3C, 0x3D} ==> a == if alt then Show(code - 0x3B) else Type(code))
            && (code == 0x26 ==> a == if ctrl then ClearScreen else Type(code))
            && (code == 0x0E ==> a == Backspace)
            && (!IsShiftPress(code) && !IsShiftRelease(code)
                && code !in {0x3A, 0x1D, 0x9D, 0x38, 0xB8, 0x3B, 0x3C, 0x3D, 0x26, 0x0E}
                ==> a == if code < 0x80 then Type(code) else Nothing)
  {
  }

  // --------------------------------------------------------- one interrupt

  /** The state after getScancode's own effects. */
  function AfterScan(k: State, a: Action): State
    requires Shape(k)
  {
    match a
    case Modifier(status, ctrl, alt) => k.(status := status, ctrl := ctrl, alt := alt)
    case Show(t) => k.(visible := t)
    case Backspace =>
      var v, n := k.visible, k.counts[k.visible];
      if n == 0 then k
      else
        var buf: seq<byte> := k.bufs[v][n - 1 := NUL];
        k.(bufs := k.bufs[v := buf], counts := k.counts[v := n - 1])
    case _ => k
  }

  function Typed(k: State, keys: KeyTable, a: Action): byte
    requires TableOk(keys) && 0 <= k.status < 4 && (a.Type? ==> a.code < 0x80)
  {
    if a.Type? then keys[k.status][a.code] else NUL
  }

  function Append(k: State, c: byte): State
    requires Shape(k)
  {
    var v, n := k.visible, k.counts[k.visible];
    if c == NUL then k
    else
      var buf: seq<byte> := k.bufs[v][n := c];
      k.(bufs := k.bufs[v := buf], counts := k.counts[v := n + 1])
  }

  /** The overflow test looks at all three counters but raises the visible terminal's flag. */
  function RaiseFlag(k: State, c: byte): State
    requires |k.counts| == 3 && 0 <= k.visible < |k.flags|
  {
    if c == NEWLINE || k.counts[0] >= 127 || k.counts[1] >= 127 || k.counts[2] >= 127
    then k.(flags := k.flags[k.visible := true])
    else k
  }

  /** interrupt_keyboard */
  function KeyStep(k: State, keys: KeyTable, code: byte): State
    requires Shape(k) && TableOk(keys)
  {
    var a := Decode(k.status, k.ctrl, k.alt, code);
    var c := Typed(k, keys, a);
    RaiseFlag(Append(AfterScan(k, a), c), c)
  }

  /** keyboard_read, once its wait is over: the visible buffer is emptied. */
  function ReadStep(k: State): State
    requires Shape(k)
  {
    var v := k.visible;
    k.(bufs := k.bufs[v := Zeros(128)], counts := k.counts[v := 0], flags := k.flags[v := false])
  }

  // -------------------------------------------------------------- pending text

  /** What a terminal's buffer should hold: the text typed on it and not yet read. */
  ghost predicate Holds(k: State, texts: seq<seq<byte>>) {
    && Shape(k) && |texts| == 3
    && forall t :: 0 <= t < 3 ==> BufferHolds(k.bufs[t], k.counts[t], texts[t])
  }

  ghost predicate BufferHolds(buf: seq<byte>, count: int, text: seq<byte>) {
    count == |text| <= 127 && NulFree(text) && buf == text + Zeros(128 - |text|)
  }

  /** The effect of one key on the text of the visible terminal. */
  function Edit(text: seq<byte>, a: Action, c: byte): seq<byte> {
    if a.Backspace? then (if text == [] then [] else text[..|text| - 1])
    else if c != NUL then text + [c]
    else text
  }

  /** A buffer that holds a text is terminated, and strlen is the counter. */
  lemma HeldText(buf: seq<byte>, count: int, text: seq<byte>)
    requires BufferHolds(buf, count, text)
    ensures |buf| == 128 && CLen(buf) == count && CStr(buf) == text
  {
    CLenIs(buf, |text|);
  }

  lemma BackspaceHolds(buf: seq<byte>, count: int, text: seq<byte>)
    requires BufferHolds(buf, count, text) && text != []
    ensures BufferHolds(buf[count - 1 := NUL], count - 1, text[..|text| - 1])
  {
    var text' := text[..|text| - 1];
    assert buf[count - 1 := NUL] == text' + Zeros(128 - |text'|);
  }

  /** One more character keeps the buffer terminated if and only if at most 126 are pending. */
  lemma AppendHolds(buf: seq<byte>, count: int, text: seq<byte>, c: byte)
    requires BufferHolds(buf, count, text) && c != NUL
    ensures count < 127 ==> BufferHolds(buf[count := c], count + 1, text + [c])
    ensures CLen(buf[count := c]) < 128 <==> count < 127
  {
    assert buf[count := c] == text + [c] + Zeros(127 - |text|);
    CLenIs(buf[count := c], count + 1);
  }

  /** There is room for what this key types. */
  ghost predicate Room(k: State, keys: KeyTable, code: byte)
    requires Shape(k) && TableOk(keys)
  {
    Typed(k, keys, Decode(k.status, k.ctrl, k.alt, code)) != NUL ==> k.counts[k.visible] < 127
  }

  lemma ScanHolds(k: State, texts: seq<seq<byte>>, a: Action)
    requires Holds(k, texts) && (a.Modifier? ==> 0 <= a.status < 4) && (a.Show? ==> 0 <= a.terminal < 3)
    ensures Holds(AfterScan(k, a), if a.Backspace? then texts[k.visible := Edit(texts[k.visible], a, NUL)] else texts)
  {
    var v := k.visible;
    assert BufferHolds(k.bufs[v], k.counts[v], texts[v]);
    if a.Backspace? && texts[v] != [] {
      BackspaceHolds(k.bufs[v], k.counts[v], texts[v]);
    }
    hide BufferHolds;
  }

  lemma TypeHolds(k: State, texts: seq<seq<byte>>, c: byte)
    requires Holds(k, texts) && c != NUL && k.counts[k.visible] < 127
    ensures Holds(Append(k, c), texts[k.visible := texts[k.visible] + [c]])
  {
    AppendHolds(k.bufs[k.visible], k.counts[k.visible], texts[k.visible], c);
    hide BufferHolds;
  }

  /** An interrupt edits the visible terminal's text and no other. */
  lemma KeyStepEdits(k: State, texts: seq<seq<byte>>, keys: KeyTable, code: byte)
    requires Holds(k, texts) && TableOk(keys) && Room(k, keys, code)
    ensures var a := Decode(k.status, k.ctrl, k.alt, code);
            Holds(KeyStep(k, keys, code), texts[k.visible := Edit(texts[k.visible], a, Typed(k, keys, a))])
  {
    hide Decode, BufferHolds;
    var a := Decode(k.status, k.ctrl, k.alt, code);
    var c := Typed(k, keys, a);
    ScanHolds(k, texts, a);
    if c != NUL {
      TypeHolds(k, texts, c);
    } else {
      assert texts[k.visible := texts[k.visible]] == texts;
    }
  }

  lemma ReadStepEmpties(k: State, texts: seq<seq<byte>>)
    requires Holds(k, texts)
    ensures Holds(ReadStep(k), texts[k.visible := []])
  {
    assert [] + Zeros(128) == Zeros(128);
  }

  /**
   * A typed key appends the character its code has in the row of the key table
   * for the shift and caps-lock state, or nothing if that is NUL.
   */
  lemma TypesFromRow(k: State, texts: seq<seq<byte>>, keys: KeyTable, shift: bool, caps: bool, code: byte)
    requires Holds(k, texts) && TableOk(keys) && Room(k, keys, code)
    requires k.status == StatusOf(shift, caps) && Decode(k.status, k.ctrl, k.alt, code) == Type(code)
    ensures var c := keys[(if caps then 2 else 0) + (if shift then 1 else 0)][code];
            Holds(KeyStep(k, keys, code), texts[k.visible := texts[k.visible] + if c == NUL then [] else [c]])
  {
    hide Decode, KeyStep, BufferHolds;
    KeyStepEdits(k, texts, keys, code);
    assert texts[k.visible] + [] == texts[k.visible];
  }

  /** What every scan code does to the modifiers: bit 0 of status is shift, bit 1 caps lock. */
  lemma ModifiersFollowKeys(k: State, keys: KeyTable, code: byte)
    requires Shape(k) && TableOk(keys) && Room(k, keys, code)
    ensures var r := KeyStep(k, keys, code);
            && Shape(r)
            && r.status == (if code in {0x2A, 0x36} && k.status % 2 == 0 then k.status + 1
                            else if code in {0xAA, 0xB6} && k.status % 2 == 1 then k.status - 1
                            else if code == 0x3A && k.status % 2 == 0 then 2 - k.status
                            else k.status)
            && (r.ctrl <==> code == 0x1D || (k.ctrl && code != 0x9D))
            && (r.alt <==> code == 0x38 || (k.alt && code != 0xB8))
  {
    hide Stored, RaiseFlag;
    var a := Decode(k.status, k.ctrl, k.alt, code);
    var c := Typed(k, keys, a);
    KeyStepVisible(k, keys, code);
    KeyStepIs(k, keys, code);
    StoredModifiers(k, a, c);
    RaiseFlagEffect(Stored(k, a, c), c, 0);
  }

  lemma StoredModifiers(k: State, a: Action, c: byte)
    requires Shape(k) && Shape(AfterScan(k, a))
    ensures var r := Stored(k, a, c);
            && |r.counts| == 3 && |r.flags| == 3 && 0 <= r.visible < 3
            && r.status == (if a.Modifier? then a.status else k.status)
            && r.ctrl == (if a.Modifier? then a.ctrl else k.ctrl)
            && r.alt == (if a.Modifier? then a.alt else k.alt)
  {
  }

  /** Where a typed character goes. */
  lemma TypedStored(k: State, keys: KeyTable, code: byte)
    requires Shape(k) && TableOk(keys) && Room(k, keys, code) && Decode(k.status, k.ctrl, k.alt, code) == Type(code)
    ensures var r, v, n := KeyStep(k, keys, code), k.visible, k.counts[k.visible];
            && Shape(r) && r.visible == v
            && (keys[k.status][code] != NUL ==> r.counts[v] == n + 1 && r.bufs[v][n] == keys[k.status][code])
  {
    hide Decode, RaiseFlag;
    var c := Typed(k, keys, Type(code));
    KeyStepVisible(k, keys, code);
    KeyStepIs(k, keys, code);
    RaiseFlagEffect(Stored(k, Type(code), c), c, 0);
  }

  /** A key without a meaning of its own under shift, control and alt. */
  predicate IsPlain(code: byte) {
    code < 0x80 && code !in {0x2A, 0x36, 0x3A, 0x1D, 0x38, 0x3B, 0x3C, 0x3D, 0x26, 0x0E}
  }

  lemma PlainIsTyped(status: int, ctrl: bool, alt: bool, code: byte)
    requires IsPlain(code)
    ensures Decode(status, ctrl, alt, code) == Type(code)
  {
  }

  /** A modifier changes no text. */
  lemma ModifierStep(k: State, texts: seq<seq<byte>>, keys: KeyTable, code: byte)
    requires Holds(k, texts) && TableOk(keys) && Decode(k.status, k.ctrl, k.alt, code).Modifier?
    ensures Room(k, keys, code) && Holds(KeyStep(k, keys, code), texts) && KeyStep(k, keys, code).visible == k.visible
  {
    hide Decode, KeyStep, BufferHolds;
    KeyStepEdits(k, texts, keys, code);
    KeyStepVisible(k, keys, code);
    assert texts[k.visible := texts[k.visible]] == texts;
  }

  /** The text of the visible terminal after one more character, which may be NUL. */
  function Plus(texts: seq<seq<byte>>, v: int, c: byte): seq<seq<byte>>
    requires 0 <= v < |texts|
  {
    texts[v := texts[v] + if c == NUL then [] else [c]]
  }

  lemma TypeAfter(k: State, texts: seq<seq<byte>>, keys: KeyTable, v: int, row: int, code: byte)
    requires Holds(k, texts) && TableOk(keys) && IsPlain(code) && k.visible == v && |texts[v]| < 127
    requires k.status == row
    ensures Room(k, keys, code) && Holds(KeyStep(k, keys, code), Plus(texts, v, keys[row][code]))
  {
    hide Decode, KeyStep, BufferHolds;
    PlainIsTyped(k.status, k.ctrl, k.alt, code);
    assert BufferHolds(k.bufs[v], k.counts[v], texts[v]);
    PendingCount(k.bufs[v], k.counts[v], texts[v]);
    TypesFromRow(k, texts, keys, row % 2 == 1, row >= 2, code);
  }

  // ---------------------------------------------------------------------- runs

  datatype Event = Scan(code: byte) | Read

  ghost predicate CanRun(k: State, keys: KeyTable, es: seq<Event>)
    requires TableOk(keys)
    decreases |es|
  {
    Shape(k) && (es != [] ==> (es[0].Scan? ==> Room(k, keys, es[0].code)) && CanRun(Step(k, keys, es[0]), keys, es[1..]))
  }

  function Step(k: State, keys: KeyTable, e: Event): State
    requires Shape(k) && TableOk(keys)
  {
    match e
    case Scan(code) => KeyStep(k, keys, code)
    case Read => ReadStep(k)
  }

  ghost function Run(k: State, keys: KeyTable, es: seq<Event>): State
    requires TableOk(keys) && CanRun(k, keys, es)
    decreases |es|
  {
    if es == [] then k else Run(Step(k, keys, es[0]), keys, es[1..])
  }

  /** The text pending on terminal t after the run: the keys typed while t was visible, edited, since its last read. */
  ghost function Pending(k: State, keys: KeyTable, es: seq<Event>, t: int, text: seq<byte>): seq<byte>
    requires TableOk(keys) && CanRun(k, keys, es)
    decreases |es|
  {
    if es == [] then text
    else
      var text' :=
        if k.visible != t then text
        else match es[0]
             case Scan(code) =>
               var a := Decode(k.status, k.ctrl, k.alt, code);
               Edit(text, a, Typed(k, keys, a))
             case Read => [];
      Pending(Step(k, keys, es[0]), keys, es[1..], t, text')
  }

  /** What a read at the end of the run would deliver to the visible terminal. */
  ghost function Delivered(k: State): seq<byte>
    requires Shape(k)
  {
    CStr(k.bufs[k.visible])
  }

  /**
   * Over every run of keys and reads with at most 127 characters pending, each
   * buffer holds exactly the text typed on its terminal, then only zeros; so a
   * read delivers that text.
   */
  lemma {:induction false} BuffersHoldTypedText(k: State, texts: seq<seq<byte>>, keys: KeyTable, es: seq<Event>)
    requires Holds(k, texts) && TableOk(keys) && CanRun(k, keys, es)
    ensures var r := Run(k, keys, es);
            && Holds(r, seq(3, t => Pending(k, keys, es, t, if 0 <= t < 3 then texts[t] else [])))
            && Delivered(r) == Pending(k, keys, es, r.visible, texts[r.visible])
            && CLen(r.bufs[r.visible]) == r.counts[r.visible]
    decreases |es|
  {
    if es == [] {
      assert seq(3, t => Pending(k, keys, es, t, if 0 <= t < 3 then texts[t] else [])) == texts;
      HeldText(k.bufs[k.visible], k.counts[k.visible], texts[k.visible]);
      return;
    }
    var k', texts' := Step(k, keys, es[0]), StepTexts(k, texts, keys, es[0]);
    match es[0] {
      case Scan(code) => KeyStepEdits(k, texts, keys, code);
      case Read => ReadStepEmpties(k, texts);
    }
    BuffersHoldTypedText(k', texts', keys, es[1..]);
    assert seq(3, t => Pending(k, keys, es, t, if 0 <= t < 3 then texts[t] else []))
        == seq(3, t => Pending(k', keys, es[1..], t, if 0 <= t < 3 then texts'[t] else []));
  }

  // ------------------------------------------------- a key inside keyboard_read

  /** keyboard_read up to its last assignment: flag down, line copied, buffer cleared. */
  function ClearedLine(k: State): State
    requires Shape(k)
  {
    k.(bufs := k.bufs[k.visible := Zeros(128)], flags := k.flags[k.visible := false])
  }

  /** That last assignment, to the counter of the terminal whose line was taken. */
  function CounterReset(k: State, t: int): State
    requires 0 <= t < |k.counts|
  {
    k.(counts := k.counts[t := 0])
  }

  /**
   * An interrupt between the two leaves terminal t's buffer in order if and
   * only if it types nothing; otherwise the character stays behind zeros where
   * no counter and no strlen reaches it.
   */
  lemma KeyBeforeReset(k: State, texts: seq<seq<byte>>, keys: KeyTable, code: byte)
    requires Holds(k, texts) && TableOk(keys) && Room(ClearedLine(k), keys, code)
    ensures ReadStep(k) == CounterReset(ClearedLine(k), k.visible)
    ensures var t, between := k.visible, KeyStep(ClearedLine(k), keys, code);
            && |between.counts| == 3 && |between.bufs| == 3 && |between.bufs[t]| == 128
            && var r := CounterReset(between, t);
               var c := Typed(k, keys, Decode(k.status, k.ctrl, k.alt, code));
               && r.counts[t] == 0
               && (BufferHolds(r.bufs[t], r.counts[t], []) <==> c == NUL)
               && (c != NUL ==> r.bufs[t] == Zeros(128)[|texts[t]| := c])
  {
    hide Decode;
    var t, k1 := k.visible, ClearedLine(k);
    var a := Decode(k.status, k.ctrl, k.alt, code);
    var c := Typed(k, keys, a);
    assert BufferHolds(k.bufs[t], k.counts[t], texts[t]);
    ScanRoom(k1, keys, a);
    KeyStepIs(k1, keys, code);
    RaiseFlagEffect(Stored(k1, a, c), c, t);
    StoredLine(k, a, c);
    assert [] + Zeros(128) == Zeros(128);
    if c != NUL {
      var buf: seq<byte> := Zeros(128)[|texts[t]| := c];
      assert buf[|texts[t]|] != Zeros(128)[|texts[t]|];
    }
  }

  lemma StoredLine(k: State, a: Action, c: byte)
    requires Shape(k) && Shape(AfterScan(ClearedLine(k), a)) && (c != NUL ==> a.Type?) && k.counts[k.visible] < 128
    ensures var r := Stored(ClearedLine(k), a, c);
            && |r.bufs| == 3
            && r.bufs[k.visible] == if c == NUL then Zeros(128) else Zeros(128)[k.counts[k.visible] := c]
  {
    var n := k.counts[k.visible];
    if n > 0 {
      assert Zeros(128)[n - 1 := NUL] == Zeros(128);
    }
  }

  // ---------------------------------------------------------- the read flags

  /** Some terminal has 127 characters pending. */
  ghost predicate SomeFull(k: State)
    requires |k.counts| == 3
  {
    exists u :: 0 <= u < 3 && k.counts[u] >= 127
  }

  /**
   * The event is an interrupt that ends with t visible, and either typed a
   * newline or left some terminal, not necessarily t, with a full buffer.
   */
  ghost predicate Raises(k: State, keys: KeyTable, e: Event, t: int)
    requires Shape(k) && TableOk(keys)
  {
    e.Scan? && var k' := KeyStep(k, keys, e.code);
    && k'.visible == t && |k'.counts| == 3
    && (Typed(k, keys, Decode(k.status, k.ctrl, k.alt, e.code)) == NEWLINE || SomeFull(k'))
  }

  ghost predicate ReadsHere(k: State, e: Event, t: int) {
    e.Read? && k.visible == t
  }

  /** Terminal t is read somewhere in the run. */
  ghost predicate ReadIn(k: State, keys: KeyTable, es: seq<Event>, t: int)
    requires TableOk(keys) && CanRun(k, keys, es)
    decreases |es|
  {
    es != [] && (ReadsHere(k, es[0], t) || ReadIn(Step(k, keys, es[0]), keys, es[1..], t))
  }

  /** Some event of the run raises t's flag and t is not read behind it. */
  ghost predicate RaisedSinceRead(k: State, keys: KeyTable, es: seq<Event>, t: int)
    requires TableOk(keys) && CanRun(k, keys, es)
    decreases |es|
  {
    es != [] &&
    var k' := Step(k, keys, es[0]);
    || (Raises(k, keys, es[0], t) && !ReadIn(k', keys, es[1..], t))
    || RaisedSinceRead(k', keys, es[1..], t)
  }

  lemma RaiseFlagEffect(k: State, c: byte, t: int)
    requires |k.counts| == 3 && |k.flags| == 3 && 0 <= k.visible < 3 && 0 <= t < 3
    ensures var r := RaiseFlag(k, c);
            && r == k.(flags := r.flags) && |r.flags| == 3
            && (r.flags[t] <==> k.flags[t] || (t == k.visible && (c == NEWLINE || SomeFull(k))))
  {
    assert SomeFull(k) <==> k.counts[0] >= 127 || k.counts[1] >= 127 || k.counts[2] >= 127;
  }

  /** The state of interrupt_keyboard just before its overflow test. */
  function Stored(k: State, a: Action, c: byte): State
    requires Shape(k) && Shape(AfterScan(k, a))
  {
    Append(AfterScan(k, a), c)
  }

  lemma StoredKeepsFlags(k: State, a: Action, c: byte)
    requires Shape(k) && Shape(AfterScan(k, a))
    ensures var r := Stored(k, a, c); r.flags == k.flags && |r.counts| == 3 && 0 <= r.visible < 3
  {
  }

  lemma StepFlag(k: State, keys: KeyTable, e: Event, t: int)
    requires Shape(k) && TableOk(keys) && 0 <= t < 3
    ensures |Step(k, keys, e).flags| == 3
    ensures Step(k, keys, e).flags[t] <==> (k.flags[t] && !ReadsHere(k, e, t)) || Raises(k, keys, e, t)
  {
    hide Decode, Stored, RaiseFlag, SomeFull;
    if e.Scan? {
      var a := Decode(k.status, k.ctrl, k.alt, e.code);
      var c := Typed(k, keys, a);
      ScanRoom(k, keys, a);
      StoredKeepsFlags(k, a, c);
      KeyStepIs(k, keys, e.code);
      RaiseFlagEffect(Stored(k, a, c), c, t);
      FullIsCounts(Stored(k, a, c), KeyStep(k, keys, e.code));
    }
  }

  lemma KeyStepIs(k: State, keys: KeyTable, code: byte)
    requires Shape(k) && TableOk(keys)
    ensures var a := Decode(k.status, k.ctrl, k.alt, code);
            && Shape(AfterScan(k, a))
            && KeyStep(k, keys, code) == RaiseFlag(Stored(k, a, Typed(k, keys, a)), Typed(k, keys, a))
  {
    hide Decode, RaiseFlag;
    ScanRoom(k, keys, Decode(k.status, k.ctrl, k.alt, code));
  }

  /** An interrupt moves the display only by Alt-F1..F3, and keeps every counter in range if there is room. */
  lemma KeyStepVisible(k: State, keys: KeyTable, code: byte)
    requires Shape(k) && TableOk(keys) && Room(k, keys, code)
    ensures var a := Decode(k.status, k.ctrl, k.alt, code);
            Shape(KeyStep(k, keys, code)) && KeyStep(k, keys, code).visible == if a.Show? then a.terminal else k.visible
  {
    hide Decode, RaiseFlag;
    var a := Decode(k.status, k.ctrl, k.alt, code);
    var c := Typed(k, keys, a);
    ScanRoom(k, keys, a);
    KeyStepIs(k, keys, code);
    RaiseFlagEffect(Stored(k, a, c), c, 0);
  }

  lemma FullIsCounts(k: State, r: State)
    requires |k.counts| == 3 && k.counts == r.counts
    ensures SomeFull(k) <==> SomeFull(r)
  {
  }

  /**
   * Over every run, a terminal's flag, which lets keyboard_read go on, is up
   * exactly when, since its last read, an interrupt that ended with it visible
   * typed a newline or left any terminal's buffer full; or when it was up
   * before and the terminal was never read.
   */
  lemma {:induction false} FlagsFollowEnter(k: State, keys: KeyTable, es: seq<Event>, t: int)
    requires TableOk(keys) && CanRun(k, keys, es) && 0 <= t < 3
    ensures Shape(Run(k, keys, es))
    ensures Run(k, keys, es).flags[t] <==>
            (k.flags[t] && !ReadIn(k, keys, es, t)) || RaisedSinceRead(k, keys, es, t)
    decreases |es|
  {
    hide Step, Raises, Room;
    if es != [] {
      StepFlag(k, keys, es[0], t);
      FlagsFollowEnter(Step(k, keys, es[0]), keys, es[1..], t);
    }
  }

  /**
   * Where this goes wrong: while a hidden terminal's buffer is full, every scan
   * code but a screen switch, even a key release, raises the visible terminal's
   * flag, and a read there then delivers what is pending on it, perhaps nothing.
   */
  lemma FullHiddenBufferEndsWait(k: State, texts: seq<seq<byte>>, keys: KeyTable, code: byte, u: int)
    requires Holds(k, texts) && TableOk(keys) && 0 <= u < 3 && |texts[u]| == 127 && u != k.visible
    requires !Decode(k.status, k.ctrl, k.alt, code).Show? && Room(k, keys, code)
    ensures var k', v := KeyStep(k, keys, code), k.visible;
            var a := Decode(k.status, k.ctrl, k.alt, code);
            Shape(k') && k'.visible == v && k'.flags[v] && Delivered(k') == Edit(texts[v], a, Typed(k, keys, a))
  {
    hide Decode, KeyStep, Room, BufferHolds, Edit;
    var k', v, a := KeyStep(k, keys, code), k.visible, Decode(k.status, k.ctrl, k.alt, code);
    var text := Edit(texts[v], a, Typed(k, keys, a));
    KeyStepEdits(k, texts, keys, code);
    KeyStepVisible(k, keys, code);
    assert BufferHolds(k'.bufs[u], k'.counts[u], texts[u]) && BufferHolds(k'.bufs[v], k'.counts[v], text);
    PendingCount(k'.bufs[u], k'.counts[u], texts[u]);
    HeldText(k'.bufs[v], k'.counts[v], text);
    assert SomeFull(k');
    StepFlag(k, keys, Scan(code), v);
  }

  ghost function StepTexts(k: State, texts: seq<seq<byte>>, keys: KeyTable, e: Event): (r: seq<seq<byte>>)
    requires Shape(k) && TableOk(keys) && |texts| == 3
    ensures |r| == 3
  {
    match e
    case Scan(code) =>
      var a := Decode(k.status, k.ctrl, k.alt, code);
      texts[k.visible := Edit(texts[k.visible], a, Typed(k, keys, a))]
    case Read => texts[k.visible := []]
  }

  /**
   * From no modifier: after a shift press a key's character comes from row 1 of
   * the table, after its release from row 0, after caps lock from row 2, and
   * under caps lock and shift from row 3.
   */
  lemma ModifiersChooseRow(k: State, texts: seq<seq<byte>>, keys: KeyTable, code: byte)
    requires Holds(k, texts) && TableOk(keys) && IsPlain(code) && |texts[k.visible]| < 127 && k.status == 0
    ensures TypesAfter(k, texts, keys, [], code, 0)
    ensures TypesAfter(k, texts, keys, [Scan(0x2A)], code, 1)
    ensures TypesAfter(k, texts, keys, [Scan(0x2A), Scan(0xAA)], code, 0)
    ensures TypesAfter(k, texts, keys, [Scan(0x3A)], code, 2)
    ensures TypesAfter(k, texts, keys, [Scan(0x3A), Scan(0x36)], code, 3)
    ensures TypesAfter(k, texts, keys, [Scan(0x3A), Scan(0xBA), Scan(0x3A)], code, 0)
  {
    hide KeyStep, Holds;
    TypesNow(k, texts, keys, code);
    var shift := PressOne(k, texts, keys, 0x2A, code, 1);
    var up := PressOne(shift, texts, keys, 0xAA, code, 0);
    PressFirst(k, texts, keys, 0x2A, [Scan(0xAA)], code, 0);
    var caps := PressOne(k, texts, keys, 0x3A, code, 2);
    var both := PressOne(caps, texts, keys, 0x36, code, 3);
    PressFirst(k, texts, keys, 0x3A, [Scan(0x36)], code, 3);
    var released := ReleaseCaps(caps, texts, keys);
    var off := PressOne(released, texts, keys, 0x3A, code, 0);
    PressFirst(caps, texts, keys, 0xBA, [Scan(0x3A)], code, 0);
    assert [Scan(0xBA)] + [Scan(0x3A)] == [Scan(0xBA), Scan(0x3A)];
    PressFirst(k, texts, keys, 0x3A, [Scan(0xBA), Scan(0x3A)], code, 0);
    assert [Scan(0x2A)] + [Scan(0xAA)] == [Scan(0x2A), Scan(0xAA)];
    assert [Scan(0x3A)] + [Scan(0x36)] == [Scan(0x3A), Scan(0x36)];
    assert [Scan(0x3A)] + [Scan(0xBA), Scan(0x3A)] == [Scan(0x3A), Scan(0xBA), Scan(0x3A)];
  }

  /** After the events, the key types its character of row `row` on the terminal that was visible. */
  ghost predicate TypesAfter(k: State, texts: seq<seq<byte>>, keys: KeyTable, es: seq<Event>, code: byte, row: int)
    requires TableOk(keys) && |texts| == 3 && 0 <= k.visible < 3 && 0 <= row < 4 && code < 128
  {
    CanRun(k, keys, es + [Scan(code)]) && Holds(Run(k, keys, es + [Scan(code)]), Plus(texts, k.visible, keys[row][code]))
  }

  lemma TypesNow(k: State, texts: seq<seq<byte>>, keys: KeyTable, code: byte)
    requires Holds(k, texts) && TableOk(keys) && IsPlain(code) && |texts[k.visible]| < 127
    ensures TypesAfter(k, texts, keys, [], code, k.status)
  {
    hide KeyStep, Decode, BufferHolds;
    TypeAfter(k, texts, keys, k.visible, k.status, code);
    KeyStepVisible(k, keys, code);
    var es: seq<Event> := [];
    assert es + [Scan(code)] == [Scan(code)] && [Scan(code)][1..] == es;
    assert CanRun(KeyStep(k, keys, code), keys, es) && Run(KeyStep(k, keys, code), keys, es) == KeyStep(k, keys, code);
    assert CanRun(k, keys, [Scan(code)]) && Run(k, keys, [Scan(code)]) == KeyStep(k, keys, code);
  }

  lemma PressFirst(k: State, texts: seq<seq<byte>>, keys: KeyTable, press: byte, es: seq<Event>, code: byte, row: int)
    requires Holds(k, texts) && TableOk(keys) && 0 <= row < 4 && code < 128 && Room(k, keys, press)
    requires KeyStep(k, keys, press).visible == k.visible && TypesAfter(KeyStep(k, keys, press), texts, keys, es, code, row)
    ensures TypesAfter(k, texts, keys, [Scan(press)] + es, code, row)
  {
    hide KeyStep, Room, BufferHolds;
    assert ([Scan(press)] + es + [Scan(code)])[1..] == es + [Scan(code)];
  }

  lemma PressOne(k: State, texts: seq<seq<byte>>, keys: KeyTable, press: byte, code: byte, row: int) returns (r: State)
    requires Holds(k, texts) && TableOk(keys) && IsPlain(code) && |texts[k.visible]| < 127
    requires (press, k.status, row) in {(0x2A, 0, 1), (0xAA, 1, 0), (0x3A, 0, 2), (0x36, 2, 3), (0x3A, 2, 0)}
    ensures Room(k, keys, press) && r == KeyStep(k, keys, press)
    ensures Holds(r, texts) && r.visible == k.visible && r.status == row
    ensures TypesAfter(k, texts, keys, [Scan(press)], code, row)
  {
    IsModifier(k, press);
    hide KeyStep, Decode, BufferHolds;
    ModifierStep(k, texts, keys, press);
    ModifiersFollowKeys(k, keys, press);
    r := KeyStep(k, keys, press);
    TypesNow(r, texts, keys, code);
    PressFirst(k, texts, keys, press, [], code, row);
    assert [Scan(press)] + [] == [Scan(press)];
  }

  lemma IsModifier(k: State, press: byte)
    requires (press, k.status) in {(0x2A, 0), (0xAA, 1), (0x3A, 0), (0x36, 2), (0x3A, 2)}
    ensures Decode(k.status, k.ctrl, k.alt, press).Modifier?
  {
  }

  lemma ReleaseCaps(k: State, texts: seq<seq<byte>>, keys: KeyTable) returns (r: State)
    requires Holds(k, texts) && TableOk(keys)
    ensures Room(k, keys, 0xBA) && r == KeyStep(k, keys, 0xBA)
    ensures Holds(r, texts) && r.visible == k.visible && r.status == k.status
  {
    assert Decode(k.status, k.ctrl, k.alt, 0xBA) == Nothing;
    hide KeyStep, Decode, BufferHolds;
    KeyStepEdits(k, texts, keys, 0xBA);
    KeyStepVisible(k, keys, 0xBA);
    ModifiersFollowKeys(k, keys, 0xBA);
    assert texts[k.visible := texts[k.visible]] == texts;
    r := KeyStep(k, keys, 0xBA);
  }

  // --------------------------------------------------------------------- boot

  /** After keyboard_init, over zeroed globals. */
  function Boot(): State {
    State(0, false, false, 0, seq(3, t => Zeros(128)), [0, 0, 0], [false, false, false])
  }

  lemma BootHolds()
    ensures Holds(Boot(), [[], [], []])
  {
    assert [] + Zeros(128) == Zeros(128);
  }

  /**
   * In every state reached from boot each buffer holds the text typed on its
   * terminal since its last read, and a flag is up exactly when an interrupt
   * since then raised it.
   */
  lemma ReachableBuffers(keys: KeyTable, es: seq<Event>, t: int)
    requires TableOk(keys) && CanRun(Boot(), keys, es) && 0 <= t < 3
    ensures var r := Run(Boot(), keys, es);
            && Shape(r)
            && BufferHolds(r.bufs[t], r.counts[t], Pending(Boot(), keys, es, t, []))
            && (r.flags[t] <==> RaisedSinceRead(Boot(), keys, es, t))
  {
    hide Run, Pending, RaisedSinceRead, BufferHolds, CanRun;
    BootHolds();
    BuffersHoldTypedText(Boot(), [[], [], []], keys, es);
    FlagsFollowEnter(Boot(), keys, es, t);
  }

  /** One key, typed n times on terminal 0. */
  function Repeat(code: byte, n: nat): seq<Event> {
    seq(n, i => Scan(code))
  }

  function Chars(c: byte, n: nat): (s: seq<byte>)
    ensures |s| == n && forall i :: 0 <= i < n ==> s[i] == c
  {
    seq(n, i => c)
  }

  /** Terminal 0 is visible, no modifier is down, and c has been typed n times on it and nothing elsewhere. */
  ghost predicate TypedOnFirst(k: State, c: byte, n: nat) {
    && Holds(k, [Chars(c, n), [], []]) && k.visible == 0 && k.status == 0 && !k.ctrl && !k.alt
  }

  lemma TypeOnce(k: State, keys: KeyTable, code: byte, n: nat)
    requires TableOk(keys) && n < 127 && Decode(0, false, false, code) == Type(code)
    requires keys[0][code] != NUL && TypedOnFirst(k, keys[0][code], n)
    ensures Room(k, keys, code) && TypedOnFirst(KeyStep(k, keys, code), keys[0][code], n + 1)
  {
    hide Decode, BufferHolds;
    var c := keys[0][code];
    assert BufferHolds(k.bufs[0], k.counts[0], Chars(c, n));
    PendingCount(k.bufs[0], k.counts[0], Chars(c, n));
    KeyStepEdits(k, [Chars(c, n), [], []], keys, code);
    assert Chars(c, n) + [c] == Chars(c, n + 1);
    assert [Chars(c, n), [], []][0 := Chars(c, n + 1)] == [Chars(c, n + 1), [], []];
  }

  lemma PendingCount(buf: seq<byte>, count: int, text: seq<byte>)
    requires BufferHolds(buf, count, text)
    ensures count == |text|
  {
  }

  lemma {:induction false} TypeRepeatedly(k: State, keys: KeyTable, code: byte, n: nat, total: nat, rest: seq<Event>)
    returns (r: State)
    requires TableOk(keys) && n <= total <= 127 && Decode(0, false, false, code) == Type(code)
    requires keys[0][code] != NUL && TypedOnFirst(k, keys[0][code], total - n)
    requires forall r :: TypedOnFirst(r, keys[0][code], total) ==> CanRun(r, keys, rest)
    ensures TypedOnFirst(r, keys[0][code], total) && CanRun(k, keys, Repeat(code, n) + rest)
    ensures Run(k, keys, Repeat(code, n) + rest) == Run(r, keys, rest)
    decreases n
  {
    hide KeyStep, TypedOnFirst, Room;
    if n == 0 {
      assert Repeat(code, n) + rest == rest;
      r := k;
    } else {
      ShapeOf(k, keys[0][code], total - n);
      TypeOnce(k, keys, code, total - n);
      r := TypeRepeatedly(KeyStep(k, keys, code), keys, code, n - 1, total, rest);
      assert (Repeat(code, n) + rest)[1..] == Repeat(code, n - 1) + rest;
    }
  }

  lemma ShapeOf(k: State, c: byte, n: nat)
    requires TypedOnFirst(k, c, n)
    ensures Shape(k)
  {
  }

  /** Alt down, F2. */
  const TO_SECOND: seq<Event> := [Scan(0x38), Scan(0x3C)]

  lemma SwitchToSecond(k: State, keys: KeyTable, c: byte)
    requires TableOk(keys) && TypedOnFirst(k, c, 127)
    ensures CanRun(k, keys, TO_SECOND)
    ensures var r := Run(k, keys, TO_SECOND); Holds(r, [Chars(c, 127), [], []]) && r.visible == 1 && r.flags[1]
  {
    var texts := [Chars(c, 127), [], []];
    var k1 := KeyStep(k, keys, 0x38);
    assert BufferHolds(k.bufs[0], k.counts[0], texts[0]);
    KeyStepEdits(k, texts, keys, 0x38);
    assert texts[0 := texts[0]] == texts;
    KeyStepEdits(k1, texts, keys, 0x3C);
    assert TO_SECOND[1..] == [Scan(0x3C)] && [Scan(0x3C)][1..] == [];
    assert BufferHolds(k1.bufs[0], k1.counts[0], texts[0]);
  }

  /**
   * Such a state is reached from boot: type one character 127 times on terminal
   * 0 and switch to terminal 1. Nothing has been typed there, yet its flag is up
   * and a read delivers an empty line.
   */
  lemma EmptyLineRead(keys: KeyTable, code: byte)
    requires TableOk(keys) && Decode(0, false, false, code) == Type(code) && keys[0][code] != NUL
    ensures var es := Repeat(code, 127) + TO_SECOND;
            && CanRun(Boot(), keys, es)
            && var r := Run(Boot(), keys, es); Shape(r) && r.visible == 1 && r.flags[1] && Delivered(r) == []
  {
    hide Run, CanRun, BufferHolds;
    BootHolds();
    var c, es := keys[0][code], Repeat(code, 127) + TO_SECOND;
    assert [Chars(c, 0), [], []] == [[], [], []];
    forall r | TypedOnFirst(r, c, 127)
      ensures CanRun(r, keys, TO_SECOND)
    {
      SwitchToSecond(r, keys, c);
    }
    var mid := TypeRepeatedly(Boot(), keys, code, 127, 127, TO_SECOND);
    SwitchToSecond(mid, keys, c);
    var r := Run(Boot(), keys, es);
    assert BufferHolds(r.bufs[1], r.counts[1], []);
    HeldText(r.bufs[1], r.counts[1], []);
  }

  // ------------------------------------------------------------- the driver

  class Driver {
    var status: int                 // key_status
    var ctrl: bool                  // key_flag
    var alt: bool                   // terminal_flag
    var visible: int                // visible_screen
    const bufs: seq<array<byte>>    // terminal1_buffer .. terminal3_buffer
    const counts: array<int>        // counter1 .. counter3
    const flags: array<bool>        // flag_keyboard

    ghost predicate Valid()
      reads this, counts, flags, bufs
    {
      && |bufs| == 3 && (forall i :: 0 <= i < 3 ==> bufs[i].Length == 128)
      && (forall i, j :: 0 <= i < j < 3 ==> bufs[i] != bufs[j])
      && Shape(View())
    }

    ghost function View(): State
      requires |bufs| == 3
      reads this, counts, flags, bufs
    {
      State(status, ctrl, alt, visible, [bufs[0][..], bufs[1][..], bufs[2][..]], counts[..], flags[..])
    }

    /** keyboard_init, over zeroed globals. */
    constructor ()
      ensures Valid() && View() == Boot() && Holds(View(), [[], [], []])
      ensures fresh(bufs[0]) && fresh(bufs[1]) && fresh(bufs[2]) && fresh(counts) && fresh(flags)
    {
      var b0, b1, b2 := new byte[128](i => NUL), new byte[128](i => NUL), new byte[128](i => NUL);
      bufs := [b0, b1, b2];
      counts := new int[3](i => 0);
      flags := new bool[3](i => false);
      status, ctrl, alt, visible := 0, false, false, 0;
      new;
      assert b0[..] == Zeros(128) && b1[..] == Zeros(128) && b2[..] == Zeros(128);
      assert counts[..] == [0, 0, 0] && flags[..] == [false, false, false];
      assert View() == Boot();
      BootHolds();
    }

    method PutByte(i: int, c: byte)
      requires Valid() && 0 <= i < 128
      modifies bufs[visible]
      ensures Valid()
      ensures var v := old(View());
              var buf: seq<byte> := v.bufs[visible][i := c];
              View() == v.(bufs := v.bufs[visible := buf])
    {
      bufs[visible][i] := c;
      assert bufs[visible][..] == old(bufs[visible][..])[i := c];
      assert View().bufs == old(View()).bufs[visible := bufs[visible][..]];
    }

    method SetCount(n: int)
      requires Valid() && 0 <= n <= 127
      modifies counts
      ensures Valid() && View() == old(View()).(counts := old(View()).counts[visible := n])
    {
      counts[visible] := n;
      assert counts[..] == old(counts[..])[visible := n];
    }

    method ClearLine()
      requires Valid()
      modifies bufs[visible]
      ensures Valid() && View() == old(View()).(bufs := old(View()).bufs[visible := Zeros(128)])
    {
      var i := 0;
      while i < 128
        invariant 0 <= i <= 128
        invariant forall j :: 0 <= j < i ==> bufs[visible][j] == NUL
      {
        bufs[visible][i] := NUL;
        i := i + 1;
      }
      assert bufs[visible][..] == Zeros(128);
      assert View().bufs == old(View()).bufs[visible := Zeros(128)];
    }

    /** getScancode's effects, for a scan code already read from the port; 0 unless a key is to be typed. */
    method GetScancode(code: byte) returns (key: byte)
      requires Valid()
      modifies this, counts, bufs
      ensures Valid()
      ensures var a := Decode(old(status), old(ctrl), old(alt), code);
              View() == AfterScan(old(View()), a) && key == (if a.Type? then code else 0)
    {
      hide Decode;
      var a := Decode(status, ctrl, alt, code);
      key := 0;
      match a
      case Modifier(s, c, l) =>
        status, ctrl, alt := s, c, l;
      case Show(t) =>
        visible := t;
      case Backspace =>
        if counts[visible] > 0 {
          SetCount(counts[visible] - 1);
          PutByte(counts[visible], NUL);
        }
      case Type(_) =>
        key := code;
      case _ =>
    }

    /** The second half of interrupt_keyboard: append the character, then the overflow test. */
    method Store(c: byte)
      requires Valid() && (c != NUL ==> counts[visible] < 127)
      modifies counts, flags, bufs
      ensures Valid() && View() == RaiseFlag(Append(old(View()), c), c)
    {
      if c != NUL {
        PutByte(counts[visible], c);
        SetCount(counts[visible] + 1);
      }
      assert View() == Append(old(View()), c);
      if c == NEWLINE || counts[0] >= 127 || counts[1] >= 127 || counts[2] >= 127 {
        flags[visible] := true;
        assert flags[..] == old(flags[..])[visible := true];
      }
    }

    /** interrupt_keyboard */
    method Interrupt(keys: KeyTable, code: byte)
      requires Valid() && TableOk(keys) && Room(View(), keys, code)
      modifies this, counts, flags, bufs
      ensures Valid() && View() == KeyStep(old(View()), keys, code)
      ensures Decode(old(status), old(ctrl), old(alt), code) == Type(code) && keys[old(status)][code] != NUL ==>
                && visible == old(visible) && counts[visible] == old(counts[visible]) + 1
                && bufs[visible][old(counts[visible])] == keys[old(status)][code]
    {
      hide Decode, AfterScan, Append, RaiseFlag;
      ghost var a := Decode(status, ctrl, alt, code);
      if a == Type(code) {
        TypedStored(View(), keys, code);
      }
      ScanRoom(View(), keys, a);
      var s := status;
      var key := GetScancode(code);
      Store(keys[s][key]);
    }

    /**
     * keyboard_read after its wait: the caller's terminal is visible and its
     * flag is up. Copies the pending text and a NUL, then empties the buffer.
     */
    method Read(dst: array<byte>) returns (n: nat)
      requires Valid() && CLen(View().bufs[visible]) < 128 && CLen(View().bufs[visible]) < dst.Length
      requires dst !in bufs && flags[visible]
      modifies dst, counts, flags, bufs
      ensures Valid() && View() == ReadStep(old(View()))
      ensures n == |Delivered(old(View()))| < dst.Length
      ensures dst[..] == Delivered(old(View())) + [NUL] + old(dst[CLen(View().bufs[visible]) + 1..])
    {
      ghost var k := View();
      assert k.bufs[visible] == bufs[visible][..];
      n := CopyLine(bufs[visible], dst);
      assert View() == k;
      ClearLine();
      SetCount(0);
      flags[visible] := false;
      assert flags[..] == k.flags[visible := false];
    }
  }

  /** strlen and the copy loop of keyboard_read. */
  method CopyLine(src: array<byte>, dst: array<byte>) returns (n: nat)
    requires src != dst && src.Length == 128 && CLen(src[..]) < 128 && CLen(src[..]) < dst.Length
    modifies dst
    ensures n == CLen(src[..]) && dst[..] == CStr(src[..]) + [NUL] + old(dst[CLen(src[..]) + 1..])
  {
    hide CLen;
    n := 0;
    while src[n] != NUL
      invariant n <= CLen(src[..])
      decreases 128 - n
    {
      n := n + 1;
    }
    var i := 0;
    while i < n
      invariant 0 <= i <= n
      invariant forall j :: 0 <= j < i ==> dst[j] == src[j]
      invariant forall j :: i <= j < dst.Length ==> dst[j] == old(dst[j])
    {
      dst[i] := src[i];
      i := i + 1;
    }
    dst[n] := NUL;
  }

  lemma ScanRoom(k: State, keys: KeyTable, a: Action)
    requires Shape(k) && TableOk(keys) && (a.Type? ==> a.code < 0x80)
    requires (a.Modifier? ==> 0 <= a.status < 4) && (a.Show? ==> 0 <= a.terminal < 3)
    ensures Typed(k, keys, a) != NUL ==> AfterScan(k, a) == k
    ensures Shape(AfterScan(k, a))
  {
  }
}
