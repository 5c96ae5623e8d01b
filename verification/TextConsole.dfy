/**
 * One text console: 25 rows of 80 cells, two bytes a cell, and a cursor. What
 * putc, delete_char and the clears do to it, and what text it then shows.
 */
module TextConsole {
  import opened Bytes

  const ATTRIB: byte := 7

  datatype Console = Console(mem: seq<byte>, x: int, y: int)

  ghost predicate InBounds(k: Console) {
    |k.mem| == 4000 && 0 <= k.x < 80 && 0 <= k.y < 25
  }

  predicate IsBreak(c: byte) {
    c == NEWLINE || c == RETURN
  }

  /** n bytes of empty cells: character 0 with the default attribute. */
  function Blank(n: nat): (s: seq<byte>)
    ensures |s| == n
  {
    seq(n, i => if i % 2 == 0 then NUL else ATTRIB)
  }

  function PutCell(mem: seq<byte>, i: int, c: byte): (r: seq<byte>)
    requires 0 <= 2 * i && 2 * i + 1 < |mem|
    ensures |r| == |mem|
  {
    mem[2 * i := c][2 * i + 1 := ATTRIB]
  }

  /** scroll_screen: every row moves up, the last becomes blank. */
  function ScrollUp(mem: seq<byte>): (r: seq<byte>)
    requires |mem| == 4000
    ensures |r| == 4000
  {
    mem[160..] + Blank(160)
  }

  /**
   * putc onto console k. When the page that scrolling reads is not k's own,
   * `src` is that page.
   */
  function PutVia(k: Console, src: Source, c: byte): (r: Console)
    requires InBounds(k) && (src.Page? ==> |src.mem| == 4000)
    ensures InBounds(r)
  {
    if c == NUL then k
    else
      var k1 :=
        if IsBreak(c) then k.(x := 0, y := k.y + 1)
        else Console(PutCell(k.mem, 80 * k.y + k.x, c), k.x + 1, k.y + (k.x + 1) / 80);
      var k2 :=
        if k1.y == 25 then Console(ScrollUp(if src.Own? then k1.mem else src.mem), k1.x, k1.y - 1)
        else k1;
      k2.(x := k2.x % 80)
  }

  datatype Source = Own | Page(mem: seq<byte>)

  function PutChar(k: Console, c: byte): (r: Console)
    requires InBounds(k)
    ensures InBounds(r)
  {
    PutVia(k, Own, c)
  }

  /** Whether this character scrolls the console. */
  predicate Scrolls(k: Console, c: byte) {
    c != NUL && k.y == 24 && (IsBreak(c) || k.x == 79)
  }

  /** delete_char, once the line buffer is known not to be empty. */
  function DeleteChar(k: Console): (r: Console)
    requires InBounds(k)
    ensures InBounds(r)
  {
    if k.x == 0 && k.y == 0 then k
    else
      var at := 80 * k.y + k.x;
      var mem := k.mem[2 * (at - 1) := SPACE][2 * at + 1 := ATTRIB];
      if k.x == 0 then Console(mem, 79, k.y - 1) else Console(mem, k.x - 1, k.y)
  }

  function Cleared(): (r: Console)
    ensures InBounds(r)
  {
    Console(Blank(4000), 0, 0)
  }

  function Print(k: Console, text: seq<byte>): (r: Console)
    requires InBounds(k)
    ensures InBounds(r)
  {
    if text == [] then k else PutChar(Print(k, text[..|text| - 1]), text[|text| - 1])
  }

  // ------------------------------------------------------------- text layout

  /** The lines of a text: split at every break, NUL characters dropped. */
  function Lines(text: seq<byte>): (ls: seq<seq<byte>>)
    ensures ls != []
  {
    if text == [] then [[]]
    else
      var ls := Lines(text[..|text| - 1]);
      var c := text[|text| - 1];
      if c == NUL then ls
      else if IsBreak(c) then ls + [[]]
      else ls[|ls| - 1 := ls[|ls| - 1] + [c]]
  }

  /** A line cut every 80 columns; a full piece is always followed by another, perhaps empty, one. */
  function Pieces(line: seq<byte>): (ps: seq<seq<byte>>)
    ensures ps != []
  {
    if |line| < 80 then [line] else [line[..80]] + Pieces(line[80..])
  }

  function AllPieces(lines: seq<seq<byte>>): seq<seq<byte>> {
    if lines == [] then [] else AllPieces(lines[..|lines| - 1]) + Pieces(lines[|lines| - 1])
  }

  /** The rows of a text: its lines, wrapped eagerly at 80 columns. */
  function Rows(text: seq<byte>): seq<seq<byte>> {
    AllPieces(Lines(text))
  }

  lemma PiecesOfFull(head: seq<byte>, rest: seq<byte>)
    requires |head| == 80
    ensures Pieces(head + rest) == [head] + Pieces(rest)
  {
    assert (head + rest)[..80] == head && (head + rest)[80..] == rest;
  }

  lemma PiecesOfShort(line: seq<byte>)
    requires |line| < 80
    ensures Pieces(line) == [line]
  {
  }

  /** Appending a character to a line changes its last piece, and opens a new one at column 80. */
  lemma {:induction false} PiecesAppend(line: seq<byte>, c: byte)
    ensures var ps := Pieces(line);
            var last := ps[|ps| - 1] + [c];
            && |last| <= 80
            && Pieces(line + [c]) == ps[..|ps| - 1] + [last] + (if |last| == 80 then [[]] else [])
    decreases |line|
  {
    hide Pieces;
    if |line| < 79 {
      PiecesOfShort(line);
      PiecesOfShort(line + [c]);
    } else if |line| == 79 {
      PiecesOfShort(line);
      PiecesOfShort([]);
      PiecesOfFull(line + [c], []);
      assert line + [c] + [] == line + [c];
    } else {
      var head, rest := line[..80], line[80..];
      PiecesAppend(rest, c);
      PiecesOfFull(head, rest);
      PiecesOfFull(head, rest + [c]);
      assert head + rest == line && head + (rest + [c]) == line + [c];
    }
  }

  function WithLast(rows: seq<seq<byte>>, row: seq<byte>): (r: seq<seq<byte>>)
    requires rows != []
    ensures |r| == |rows|
  {
    rows[|rows| - 1 := row]
  }

  function LastRow(rows: seq<seq<byte>>): seq<byte>
    requires rows != []
  {
    rows[|rows| - 1]
  }

  /** Every row has at most 80 characters and the last has fewer. */
  ghost predicate RowsOk(rows: seq<seq<byte>>) {
    rows != [] && (forall i :: 0 <= i < |rows| ==> |rows[i]| <= 80) && |LastRow(rows)| < 80
  }

  /** How one more character changes the rows. */
  lemma RowsAppend(text: seq<byte>, c: byte)
    requires Rows(text) != []
    ensures var rows := Rows(text);
            && (c == NUL ==> Rows(text + [c]) == rows)
            && (c != NUL && IsBreak(c) ==> Rows(text + [c]) == rows + [[]])
            && (c != NUL && !IsBreak(c) ==>
                  var last := LastRow(rows) + [c];
                  && |last| <= 80
                  && Rows(text + [c]) == WithLast(rows, last) + if |last| == 80 then [[]] else [])
  {
    var ls := Lines(text);
    var line, init := ls[|ls| - 1], ls[..|ls| - 1];
    assert (text + [c])[..|text|] == text;
    if c != NUL && IsBreak(c) {
      assert (ls + [[]])[..|ls|] == ls && Pieces([]) == [[]];
    } else if c != NUL {
      PiecesAppend(line, c);
      assert ls[|ls| - 1 := line + [c]][..|ls| - 1] == init;
      assert LastRow(Rows(text)) == LastRow(Pieces(line));
    }
  }

  lemma {:induction false} RowsWellFormed(text: seq<byte>)
    ensures RowsOk(Rows(text))
  {
    if text == [] {
      assert Lines(text)[..0] == [] && Rows(text) == [[]];
    } else {
      var init, c := text[..|text| - 1], text[|text| - 1];
      RowsWellFormed(init);
      RowsAppend(init, c);
      assert text == init + [c];
    }
  }

  // ------------------------------------------------------ what memory shows

  /** The first row still on screen when a text has only ever grown. */
  function First(rows: seq<seq<byte>>): nat {
    if |rows| <= 25 then 0 else |rows| - 25
  }

  /**
   * Memory shows the rows from `first` on, each in its cells, all with the
   * default attribute. A cell without a character is NUL or, unless the screen
   * is `clean`, a space.
   */
  ghost predicate MemShows(mem: seq<byte>, rows: seq<seq<byte>>, first: nat, clean: bool) {
    && |mem| == 4000
    && forall r, c :: 0 <= r < 25 && 0 <= c < 80 ==> ShowsCell(mem, rows, first, clean, r, c)
  }

  ghost predicate ShowsCell(mem: seq<byte>, rows: seq<seq<byte>>, first: nat, clean: bool, r: int, c: int)
    requires |mem| == 4000 && 0 <= r < 25 && 0 <= c < 80
  {
    && mem[160 * r + 2 * c + 1] == ATTRIB
    && if first + r < |rows| && c < |rows[first + r]| then mem[160 * r + 2 * c] == rows[first + r][c]
       else mem[160 * r + 2 * c] == NUL || (!clean && mem[160 * r + 2 * c] == SPACE)
  }

  /** The console shows the rows from `first` on and its cursor stands behind the last character. */
  ghost predicate ShowsFrom(k: Console, rows: seq<seq<byte>>, first: nat, clean: bool)
    requires rows != []
  {
    && first < |rows| <= first + 25 && MemShows(k.mem, rows, first, clean)
    && k.x == |LastRow(rows)| && k.y == |rows| - 1 - first
  }

  /** A clean screen with the last 25 rows. */
  ghost predicate Shows(k: Console, rows: seq<seq<byte>>)
    requires rows != []
  {
    ShowsFrom(k, rows, First(rows), true)
  }

  /** The first row on screen after the text has become `rows`. */
  function NextFirst(rows: seq<seq<byte>>, first: nat): nat {
    if |rows| > first + 25 then first + 1 else first
  }

  lemma CellShows(mem: seq<byte>, rows: seq<seq<byte>>, first: nat, clean: bool, c: byte)
    requires RowsOk(rows) && first < |rows| <= first + 25 && MemShows(mem, rows, first, clean)
    ensures MemShows(PutCell(mem, 80 * (|rows| - 1 - first) + |LastRow(rows)|, c),
                     WithLast(rows, LastRow(rows) + [c]), first, clean)
  {
    var y, x := |rows| - 1 - first, |LastRow(rows)|;
    var mem', rows' := PutCell(mem, 80 * y + x, c), WithLast(rows, LastRow(rows) + [c]);
    forall r, q | 0 <= r < 25 && 0 <= q < 80
      ensures ShowsCell(mem', rows', first, clean, r, q)
    {
      assert ShowsCell(mem, rows, first, clean, r, q);
    }
  }

  lemma NewRowShows(mem: seq<byte>, rows: seq<seq<byte>>, first: nat, clean: bool)
    requires first < |rows| <= first + 25 && MemShows(mem, rows, first, clean)
    ensures MemShows(if |rows| < first + 25 then mem else ScrollUp(mem), rows + [[]], NextFirst(rows + [[]], first), clean)
  {
    if |rows| < first + 25 {
      RowAppears(mem, rows, first, clean);
    } else {
      RowScrolls(mem, rows, first, clean);
    }
  }

  lemma RowAppears(mem: seq<byte>, rows: seq<seq<byte>>, first: nat, clean: bool)
    requires MemShows(mem, rows, first, clean)
    ensures MemShows(mem, rows + [[]], first, clean)
  {
    forall r, q | 0 <= r < 25 && 0 <= q < 80
      ensures ShowsCell(mem, rows + [[]], first, clean, r, q)
    {
      assert ShowsCell(mem, rows, first, clean, r, q);
    }
  }

  lemma RowScrolls(mem: seq<byte>, rows: seq<seq<byte>>, first: nat, clean: bool)
    requires |rows| == first + 25 && MemShows(mem, rows, first, clean)
    ensures MemShows(ScrollUp(mem), rows + [[]], first + 1, clean)
  {
    var mem', rows', next := ScrollUp(mem), rows + [[]], first + 1;
    forall r, q | 0 <= r < 25 && 0 <= q < 80
      ensures ShowsCell(mem', rows', next, clean, r, q)
    {
      if r < 24 {
        assert ShowsCell(mem, rows, first, clean, r + 1, q);
      }
    }
  }

  /** The rows after one more character. */
  function Extended(rows: seq<seq<byte>>, c: byte): (r: seq<seq<byte>>)
    requires rows != []
    ensures |rows| <= |r| <= |rows| + 1
  {
    if c == NUL then rows
    else if IsBreak(c) then rows + [[]]
    else
      var last := LastRow(rows) + [c];
      WithLast(rows, last) + if |last| == 80 then [[]] else []
  }

  lemma RowsExtend(text: seq<byte>, c: byte)
    requires RowsOk(Rows(text))
    ensures Rows(text + [c]) == Extended(Rows(text), c)
  {
    RowsAppend(text, c);
  }

  lemma PutCharShows(k: Console, rows: seq<seq<byte>>, first: nat, clean: bool, c: byte)
    requires InBounds(k) && RowsOk(rows) && ShowsFrom(k, rows, first, clean)
    ensures var rows' := Extended(rows, c); ShowsFrom(PutChar(k, c), rows', NextFirst(rows', first), clean)
  {
    hide MemShows, ScrollUp, PutCell;
    if c != NUL && IsBreak(c) {
      NewRowShows(k.mem, rows, first, clean);
    } else if c != NUL {
      var last := LastRow(rows) + [c];
      CellShows(k.mem, rows, first, clean, c);
      if |last| == 80 {
        NewRowShows(PutCell(k.mem, 80 * k.y + k.x, c), WithLast(rows, last), first, clean);
      } else {
        assert WithLast(rows, last) + [] == WithLast(rows, last);
      }
    }
  }

  lemma ClearedShows()
    ensures Shows(Cleared(), [[]])
    ensures Cleared().x == Cleared().y == 0
    ensures forall i :: 0 <= i < 2000 ==> Cleared().mem[2 * i] == 0 && Cleared().mem[2 * i + 1] == 7
  {
    forall r, c | 0 <= r < 25 && 0 <= c < 80
      ensures ShowsCell(Blank(4000), [[]], 0, true, r, c)
    {
    }
  }

  /** The rows of no text. */
  lemma NoRows()
    ensures Rows([]) == [[]]
  {
    assert Lines([])[..0] == [] && Pieces([]) == [[]];
  }

  /**
   * Printing any text on an empty console leaves the last 25 rows of that text,
   * wrapped eagerly at 80 columns, with the cursor at its end.
   */
  lemma {:induction false} PrintShows(k: Console, clean: bool, text: seq<byte>)
    requires InBounds(k) && ShowsFrom(k, [[]], 0, clean)
    ensures RowsOk(Rows(text)) && ShowsFrom(Print(k, text), Rows(text), First(Rows(text)), clean)
  {
    hide ShowsFrom, PutVia, Rows, Extended;
    RowsWellFormed(text);
    if text == [] {
      NoRows();
    } else {
      var init, c := text[..|text| - 1], text[|text| - 1];
      PrintShows(k, clean, init);
      assert text == init + [c];
      RowsExtend(init, c);
      PutCharShows(Print(k, init), Rows(init), First(Rows(init)), clean, c);
    }
  }

  lemma PrintShowsText(text: seq<byte>)
    ensures RowsOk(Rows(text)) && Shows(Print(Cleared(), text), Rows(text))
  {
    hide ShowsFrom, Rows, Print;
    ClearedShows();
    PrintShows(Cleared(), true, text);
  }

  // ------------------------------------------------------------- backspace

  /** Number of the cell under the cursor. */
  function CursorCell(k: Console): int {
    80 * k.y + k.x
  }

  /**
   * Away from the top left corner, backspace moves the cursor back one cell,
   * puts a space there and changes no other character.
   */
  lemma DeleteCharMovesBack(k: Console)
    requires InBounds(k)
    ensures var r, at := DeleteChar(k), CursorCell(k);
            if at == 0 then r == k
            else
              && CursorCell(r) == at - 1 && r.mem[2 * (at - 1)] == 32
              && forall i :: 0 <= i < 2000 && i != at - 1 ==> r.mem[2 * i] == k.mem[2 * i]
  {
  }

  /** The character that cell i shows once c has been put on k. */
  function Shown(k: Console, c: byte, i: int): byte
    requires InBounds(k) && 0 <= i < 2000
  {
    var from := if Scrolls(k, c) then i + 80 else i;
    if from == CursorCell(k) && !IsBreak(c) then c
    else if from < 2000 then k.mem[2 * from]
    else NUL
  }

  /**
   * A character moves the cursor to the next cell, a break to the start of the
   * next row; if that is below the screen, the screen moves up by one row.
   */
  lemma PutCharMovesOn(k: Console, c: byte)
    requires InBounds(k) && c != NUL
    ensures CursorCell(PutChar(k, c))
            == (if IsBreak(c) then 80 * (k.y + 1) else CursorCell(k) + 1) - (if Scrolls(k, c) then 80 else 0)
    ensures forall i :: 0 <= i < 2000 ==> PutChar(k, c).mem[2 * i] == Shown(k, c, i)
    ensures IsBreak(c) <==> c == 10 || c == 13
    ensures !IsBreak(c) ==> PutChar(k, c).mem[2 * CursorCell(k) + 1 - if Scrolls(k, c) then 160 else 0] == 7
    ensures Scrolls(k, c) ==> forall i :: 1920 <= i < 2000 ==> PutChar(k, c).mem[2 * i + 1] == 7
  {
    forall i | 0 <= i < 2000
      ensures PutChar(k, c).mem[2 * i] == Shown(k, c, i)
    {
    }
  }

  /**
   * Backspace undoes the character before it: the cursor is back where it was,
   * or one row higher if that character scrolled, and the cell is a space.
   */
  lemma BackspaceUndoesCharacter(k: Console, c: byte)
    requires InBounds(k) && c != NUL && !IsBreak(c)
    ensures var r, at := DeleteChar(PutChar(k, c)), 80 * k.y + k.x;
            if Scrolls(k, c) then
              r.x == 79 && r.y == 23 && r.mem == ScrollUp(PutCell(k.mem, at, SPACE))
            else
              r.x == k.x && r.y == k.y && r.mem == PutCell(k.mem, at, SPACE)[2 * at + 3 := ATTRIB]
  {
    var at := 80 * k.y + k.x;
    if Scrolls(k, c) {
      assert ScrollUp(PutCell(k.mem, at, c))[2 * 1919 := SPACE] == ScrollUp(PutCell(k.mem, at, SPACE));
    }
  }

  /** Blanking the last character of the rows, with the attribute that delete_char also writes. */
  lemma BlankedShows(mem: seq<byte>, rows: seq<seq<byte>>, first: nat, c: byte)
    requires RowsOk(rows) && !IsBreak(c) && c != NUL && first < |rows| && |Extended(rows, c)| <= first + 25
    requires MemShows(mem, Extended(rows, c), first, false)
    ensures var at := 80 * (|rows| - 1 - first) + |LastRow(rows)|;
            && 2 * at + 3 < 4000
            && MemShows(mem[2 * at := SPACE][2 * at + 3 := ATTRIB], rows, first, false)
  {
    var at := 80 * (|rows| - 1 - first) + |LastRow(rows)|;
    var rows' := Extended(rows, c);
    assert |LastRow(rows)| == 79 ==> |rows'| == |rows| + 1;
    var mem' := mem[2 * at := SPACE][2 * at + 3 := ATTRIB];
    forall r, q | 0 <= r < 25 && 0 <= q < 80
      ensures ShowsCell(mem', rows, first, false, r, q)
    {
      assert ShowsCell(mem, rows', first, false, r, q);
    }
  }

  /** Backspace takes the last character of a text off the screen, across a wrap too, unless it was a break. */
  lemma EraseShows(k: Console, rows: seq<seq<byte>>, first: nat, c: byte)
    requires InBounds(k) && RowsOk(rows) && !IsBreak(c) && c != NUL && first < |rows|
    requires ShowsFrom(k, Extended(rows, c), first, false)
    ensures ShowsFrom(DeleteChar(k), rows, first, false)
  {
    BlankedShows(k.mem, rows, first, c);
    hide MemShows;
    assert LastRow(Extended(rows, c)) == if |LastRow(rows)| == 79 then [] else LastRow(rows) + [c];
  }

  /**
   * Backspace over a break puts the cursor at the end of the row above,
   * wherever that row's text ends: it undoes the break on screen if and only if
   * the cursor stood there, in the last column, before the break.
   */
  lemma EraseBreakExactlyWhen(k: Console, rows: seq<seq<byte>>, first: nat, c: byte)
    requires InBounds(k) && RowsOk(rows) && IsBreak(c) && first < |rows|
    requires ShowsFrom(k, Extended(rows, c), first, false)
    ensures ShowsFrom(DeleteChar(k), rows, first, false) <==> |LastRow(rows)| == 79
  {
    var mem' := DeleteChar(k).mem;
    forall r, q | 0 <= r < 25 && 0 <= q < 80 && |LastRow(rows)| == 79
      ensures ShowsCell(mem', rows, first, false, r, q)
    {
      assert ShowsCell(k.mem, rows + [[]], first, false, r, q);
    }
  }

  /** Newline and backspace on a cleared screen leave the cursor in the last column of the first row. */
  lemma EraseBreakFails()
    ensures var typed := PutChar(Cleared(), NEWLINE);
            && ShowsFrom(typed, Extended([[]], NEWLINE), 0, false)
            && DeleteChar(typed).x == 79 && DeleteChar(typed).y == 0
            && !ShowsFrom(DeleteChar(typed), [[]], 0, false)
  {
    ClearedShows();
    CleanIsEnough(Cleared().mem, [[]], 0);
    PutCharShows(Cleared(), [[]], 0, false, NEWLINE);
    EraseBreakExactlyWhen(PutChar(Cleared(), NEWLINE), [[]], 0, NEWLINE);
  }

  lemma CleanIsEnough(mem: seq<byte>, rows: seq<seq<byte>>, first: nat)
    requires MemShows(mem, rows, first, true)
    ensures MemShows(mem, rows, first, false)
  {
    forall r, c | 0 <= r < 25 && 0 <= c < 80
      ensures ShowsCell(mem, rows, first, false, r, c)
    {
      assert ShowsCell(mem, rows, first, true, r, c);
    }
  }

  // ------------------------------------------------------------ line editing

  predicate IsPrinting(s: seq<byte>) {
    forall i :: 0 <= i < |s| ==> s[i] != NUL && !IsBreak(s[i])
  }

  /** How far a line of printing characters carries the end of a text. */
  lemma {:induction false} RowsGrow(text: seq<byte>, line: seq<byte>)
    requires IsPrinting(line)
    ensures RowsOk(Rows(text)) && RowsOk(Rows(text + line))
    ensures var end := |LastRow(Rows(text))| + |line|;
            && |Rows(text + line)| == |Rows(text)| + end / 80
            && |LastRow(Rows(text + line))| == end % 80
  {
    hide Rows;
    RowsWellFormed(text);
    RowsWellFormed(text + line);
    if line == [] {
      assert text + line == text;
    } else {
      var init, c := line[..|line| - 1], line[|line| - 1];
      RowsGrow(text, init);
      assert text + line == text + init + [c];
      RowsExtend(text + init, c);
    }
  }

  /**
   * The console shows `text` and then `line`, and the start of the line is
   * still on screen.
   */
  ghost predicate LineShown(k: Console, text: seq<byte>, line: seq<byte>, first: nat) {
    && InBounds(k) && RowsOk(Rows(text)) && RowsOk(Rows(text + line)) && first < |Rows(text)|
    && ShowsFrom(k, Rows(text + line), first, false)
  }

  /** Typing one more character of a line that fits the line buffer. */
  lemma TypeShown(k: Console, text: seq<byte>, line: seq<byte>, first: nat, c: byte) returns (next: nat)
    requires LineShown(k, text, line, first) && IsPrinting(line) && c != NUL && !IsBreak(c) && |line| < 127
    ensures LineShown(PutChar(k, c), text, line + [c], next)
  {
    hide Rows, ShowsFrom, PutVia, Extended;
    assert text + (line + [c]) == text + line + [c];
    RowsGrow(text, line);
    RowsGrow(text, line + [c]);
    RowsExtend(text + line, c);
    PutCharShows(k, Rows(text + line), first, false, c);
    next := NextFirst(Rows(text + line + [c]), first);
  }

  /** Taking back the last character of the line. */
  lemma EraseShown(k: Console, text: seq<byte>, line: seq<byte>, first: nat)
    requires LineShown(k, text, line, first) && IsPrinting(line) && line != []
    ensures LineShown(DeleteChar(k), text, line[..|line| - 1], first)
  {
    hide Rows, ShowsFrom, DeleteChar, Extended;
    var init, c := line[..|line| - 1], line[|line| - 1];
    assert text + line == text + init + [c];
    RowsGrow(text, init);
    RowsExtend(text + init, c);
    EraseShows(k, Rows(text + init), first, c);
  }
}
