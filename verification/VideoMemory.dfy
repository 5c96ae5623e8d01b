/** The video pages and cursors, written in place by lib.c, vidctl.c and scheduler.c. */
module VideoMemory {
  import opened Bytes
  import opened TextConsole
  import opened Screens

  /** The 4000 bytes of a page that hold its screen. */
  function Screen(page: array<byte>): (s: seq<byte>)
    requires page.Length == 4096
    reads page
    ensures |s| == 4000
  {
    page[..4000]
  }

  /** The two byte stores of putc. */
  method StoreCell(page: array<byte>, i: int, c: byte)
    requires page.Length == 4096 && 0 <= i < 2000
    modifies page
    ensures Screen(page) == PutCell(old(Screen(page)), i, c) && page[4000..] == old(page[4000..])
  {
    page[2 * i] := c;
    page[2 * i + 1] := ATTRIB;
  }

  /** The first loops of scroll_screen: row i of `dst` becomes row i + 1 of `src`. */
  method MoveRows(dst: array<byte>, src: array<byte>)
    requires dst.Length == 4096 && src.Length == 4096
    modifies dst
    ensures forall k :: 0 <= k < 3840 ==> dst[k] == old(src[k + 160])
    ensures forall k :: 3840 <= k < 4096 ==> dst[k] == old(dst[k])
  {
    var i := 0;
    while i < 24
      invariant 0 <= i <= 24
      invariant forall k :: 0 <= k < 160 * i ==> dst[k] == old(src[k + 160])
      invariant forall k :: 160 * i <= k < 4096 ==> dst[k] == old(dst[k])
      invariant forall k :: 160 * i <= k < 4096 ==> src[k] == old(src[k])
    {
      var j := 0;
      while j < 80
        invariant 0 <= j <= 80
        invariant forall k :: 0 <= k < 160 * i + 2 * j ==> dst[k] == old(src[k + 160])
        invariant forall k :: 160 * i + 2 * j <= k < 4096 ==> dst[k] == old(dst[k])
        invariant forall k :: 160 * i + 2 * j <= k < 4096 ==> src[k] == old(src[k])
      {
        dst[2 * (80 * i + j)] := src[2 * (80 * i + j + 80)];
        dst[2 * (80 * i + j) + 1] := src[2 * (80 * i + j + 80) + 1];
        j := j + 1;
      }
      i := i + 1;
    }
  }

  /** Its last loop. */
  method BlankLastRow(page: array<byte>)
    requires page.Length == 4096
    modifies page
    ensures page[3840..4000] == Blank(160)
    ensures forall k :: 0 <= k < 4096 && !(3840 <= k < 4000) ==> page[k] == old(page[k])
  {
    var i := 0;
    while i < 80
      invariant 0 <= i <= 80
      invariant forall k :: 3840 <= k < 3840 + 2 * i ==> page[k] == Blank(160)[k - 3840]
      invariant forall k :: 0 <= k < 4096 && !(3840 <= k < 4000) ==> page[k] == old(page[k])
    {
      page[2 * (1920 + i)] := NUL;
      page[2 * (1920 + i) + 1] := ATTRIB;
      i := i + 1;
    }
  }

  /** scroll_screen and key_scroll_screen: every row moves up, read from `src`, and the last becomes blank. */
  method ScrollPage(dst: array<byte>, src: array<byte>)
    requires dst.Length == 4096 && src.Length == 4096
    modifies dst
    ensures Screen(dst) == ScrollUp(old(Screen(src))) && dst[4000..] == old(dst[4000..])
  {
    hide Blank;
    MoveRows(dst, src);
    assert dst[..3840] == old(src[160..4000]);
    label moved:
    BlankLastRow(dst);
    assert dst[..3840] == old@moved(dst[..3840]);
    assert dst[..4000] == dst[..3840] + dst[3840..4000];
  }

  /** clear_screen and key_clear_screen. */
  method ClearPage(page: array<byte>)
    requires page.Length == 4096
    modifies page
    ensures Screen(page) == Blank(4000) && page[4000..] == old(page[4000..])
  {
    var i := 0;
    while i < 25
      invariant 0 <= i <= 25
      invariant forall k :: 0 <= k < 160 * i ==> page[k] == Blank(4000)[k]
      invariant page[4000..] == old(page[4000..])
    {
      var j := 0;
      while j < 80
        invariant 0 <= j <= 80
        invariant forall k :: 0 <= k < 160 * i + 2 * j ==> page[k] == Blank(4000)[k]
        invariant page[4000..] == old(page[4000..])
      {
        page[2 * (80 * i + j)] := NUL;
        page[2 * (80 * i + j) + 1] := ATTRIB;
        j := j + 1;
      }
      i := i + 1;
    }
  }

  /** The loop of init_vid over the three backing pages. */
  method BlankBuffers(b1: array<byte>, b2: array<byte>, b3: array<byte>)
    requires b1.Length == b2.Length == b3.Length == 4096 && b1 != b2 && b1 != b3 && b2 != b3
    modifies b1, b2, b3
    ensures Screen(b1) == Screen(b2) == Screen(b3) == Blank(4000)
    ensures b1[4000..] == old(b1[4000..]) && b2[4000..] == old(b2[4000..]) && b3[4000..] == old(b3[4000..])
  {
    var i := 0;
    while i < 2000
      invariant 0 <= i <= 2000
      invariant forall k :: 0 <= k < 2 * i ==> b1[k] == b2[k] == b3[k] == Blank(4000)[k]
      invariant b1[4000..] == old(b1[4000..]) && b2[4000..] == old(b2[4000..]) && b3[4000..] == old(b3[4000..])
    {
      b1[2 * i], b1[2 * i + 1] := NUL, ATTRIB;
      b2[2 * i], b2[2 * i + 1] := NUL, ATTRIB;
      b3[2 * i], b3[2 * i + 1] := NUL, ATTRIB;
      i := i + 1;
    }
  }

  /** clear: a screen of spaces. */
  method FillSpaces(page: array<byte>)
    requires page.Length == 4096
    modifies page
    ensures Screen(page) == Spaces() && page[4000..] == old(page[4000..])
  {
    var i := 0;
    while i < 2000
      invariant 0 <= i <= 2000
      invariant forall k :: 0 <= k < 2 * i ==> page[k] == Spaces()[k]
      invariant page[4000..] == old(page[4000..])
    {
      page[2 * i] := SPACE;
      page[2 * i + 1] := ATTRIB;
      i := i + 1;
    }
  }

  /** memcpy of a whole screen between pages, possibly the same one. */
  method CopyScreen(dst: array<byte>, src: array<byte>)
    requires dst.Length == 4096 && src.Length == 4096
    modifies dst
    ensures Screen(dst) == old(Screen(src)) && dst[4000..] == old(dst[4000..])
  {
    var i := 0;
    while i < 4000
      invariant 0 <= i <= 4000
      invariant forall k :: 0 <= k < i ==> dst[k] == old(src[k])
      invariant forall k :: i <= k < 4096 ==> dst[k] == old(dst[k])
      invariant forall k :: i <= k < 4096 ==> src[k] == old(src[k])
    {
      dst[i] := src[i];
      i := i + 1;
    }
  }

  /** putc on one page, with the cursor passed in and out. */
  method PutPage(dst: array<byte>, src: array<byte>, x0: int, y0: int, c: byte) returns (x: int, y: int)
    requires dst.Length == 4096 && src.Length == 4096 && 0 <= x0 < 80 && 0 <= y0 < 25
    modifies dst
    ensures Console(Screen(dst), x, y)
            == PutVia(Console(old(Screen(dst)), x0, y0), if dst == src then Own else Page(old(Screen(src))), c)
    ensures dst[4000..] == old(dst[4000..])
  {
    hide PutCell, ScrollUp;
    x, y := x0, y0;
    if c == NUL {
      return;
    }
    if c == NEWLINE || c == RETURN {
      y := y + 1;
      x := 0;
    } else {
      StoreCell(dst, 80 * y + x, c);
      x := x + 1;
      y := y + x / 80;
    }
    if y == 25 {
      ScrollPage(dst, src);
      y := y - 1;
    }
    x := x % 80;
  }

  class Display {
    const pages: seq<array<byte>>  // physical pages 0xb8000..0xbb000
    const xs: array<int>           // screen_x
    const ys: array<int>           // screen_y
    var alias: int                 // the page pte[184] maps
    var visible: int               // visible_screen
    var sched: int                 // schedule_index

    ghost predicate Valid()
      reads this, xs, ys, pages
    {
      && |pages| == 4 && (forall i :: 0 <= i < 4 ==> pages[i].Length == 4096)
      && (forall i, j :: 0 <= i < j < 4 ==> pages[i] != pages[j])
      && xs != ys
      && Screens.Ok(View())
    }

    ghost function View(): Video
      requires |pages| == 4 && forall i :: 0 <= i < 4 ==> pages[i].Length == 4096
      reads this, xs, ys, pages
    {
      Video([Screen(pages[0]), Screen(pages[1]), Screen(pages[2]), Screen(pages[3])], alias, visible, sched, xs[..], ys[..])
    }

    /** The bytes behind each page's screen, which no operation touches. */
    ghost function Margins(): seq<seq<byte>>
      requires |pages| == 4 && forall i :: 0 <= i < 4 ==> pages[i].Length == 4096
      reads pages
    {
      [pages[0][4000..], pages[1][4000..], pages[2][4000..], pages[3][4000..]]
    }

    /** Video memory after entry's clear, init_paging and init_scheduler. */
    constructor (memory: seq<array<byte>>)
      requires |memory| == 4 && (forall i :: 0 <= i < 4 ==> memory[i].Length == 4096)
      requires forall i, j :: 0 <= i < j < 4 ==> memory[i] != memory[j]
      modifies memory
      ensures Valid() && pages == memory && fresh(xs) && fresh(ys)
      ensures View() == Boot(old([Screen(memory[0]), Screen(memory[1]), Screen(memory[2]), Screen(memory[3])]))
      ensures Margins() == old([memory[0][4000..], memory[1][4000..], memory[2][4000..], memory[3][4000..]])
      ensures Good(View()) && Coherent(View())
    {
      pages := memory;
      xs := new int[3](i => 0);
      ys := new int[3](i => 0);
      alias, visible, sched := 0, 0, 0;
      new;
      hide Spaces;
      FillSpaces(pages[0]);
      assert xs[..] == [0, 0, 0] && ys[..] == [0, 0, 0];
    }

    /** init_vid: every backing page becomes blank. */
    method InitVid()
      requires Valid()
      modifies this`visible, pages
      ensures Valid() && View() == Screens.InitVid(old(View())) && Margins() == old(Margins())
    {
      hide Blank;
      BlankBuffers(pages[1], pages[2], pages[3]);
      visible := 0;
    }

    /** putc's and putc_keyboard's common work on page `dst`, scrolling from page `src`. */
    method PutAt(dst: int, src: int, t: int, c: byte)
      requires Valid() && 0 <= dst < 4 && 0 <= src < 4 && 0 <= t < 3
      modifies pages[dst], xs, ys
      ensures Valid() && Margins() == old(Margins())
      ensures var v := old(View());
              View() == Store(v, dst, t, PutVia(Console(v.pages[dst], v.xs[t], v.ys[t]),
                                                if dst == src then Own else Page(v.pages[src]), c))
    {
      hide PutCell, ScrollUp;
      ghost var v := View();
      var x, y := PutPage(pages[dst], pages[src], xs[t], ys[t], c);
      xs[t], ys[t] := x, y;
      assert xs[..] == v.xs[t := x] && ys[..] == v.ys[t := y];
      assert View() == Store(v, dst, t, Console(Screen(pages[dst]), x, y));
    }

    method Putc(c: byte)
      requires Valid()
      modifies pages, xs, ys
      ensures Valid() && View() == Screens.Putc(old(View()), c)
      ensures Margins() == old(Margins())
    {
      PutAt(if sched == visible then alias else 1 + sched, alias, sched, c);
    }

    method PutcKeyboard(c: byte)
      requires Valid() && visible >= 0
      modifies pages, xs, ys
      ensures Valid() && View() == Screens.PutcKeyboard(old(View()), c)
      ensures Margins() == old(Margins())
    {
      PutAt(0, 0, visible, c);
    }

    /** delete_char; `counter` is the visible terminal's pending character count. */
    method DeleteChar(counter: nat)
      requires Valid() && visible >= 0
      modifies pages, xs, ys
      ensures Valid() && View() == if counter == 0 then old(View()) else DeleteKey(old(View()))
      ensures Margins() == old(Margins())
    {
      ghost var v := View();
      var x, y := xs[visible], ys[visible];
      if (x == 0 && y == 0) || counter == 0 {
        assert v.xs[visible := x] == v.xs && v.ys[visible := y] == v.ys;
        return;
      }
      pages[0][2 * (80 * y + x - 1)] := SPACE;
      pages[0][2 * (80 * y + x) + 1] := ATTRIB;
      if x == 0 {
        xs[visible] := 79;
        ys[visible] := y - 1;
      } else {
        xs[visible] := x - 1;
      }
      ghost var k := TextConsole.DeleteChar(Console(v.pages[0], x, y));
      assert Screen(pages[0]) == k.mem;
      assert xs[..] == v.xs[visible := k.x] && ys[..] == v.ys[visible := k.y];
      assert View() == Store(v, 0, visible, k);
    }

    method Clear(page: int, t: int)
      requires Valid() && 0 <= page < 4 && 0 <= t < 3
      modifies pages, xs, ys
      ensures Valid() && View() == Store(old(View()), page, t, Cleared())
      ensures Margins() == old(Margins())
    {
      ClearPage(pages[page]);
      xs[t], ys[t] := 0, 0;
      assert xs[..] == old(View()).xs[t := 0] && ys[..] == old(View()).ys[t := 0];
      assert View() == Store(old(View()), page, t, Cleared());
    }

    /** switch_vid: 0 for a bad target, else 1. */
    method SwitchVid(target: int) returns (ret: int)
      requires Valid()
      modifies this`visible, pages
      ensures Valid() && View() == Screens.SwitchVid(old(View()), target)
      ensures Margins() == old(Margins())
      ensures ret == if -1 <= target <= 2 then 1 else 0
    {
      if target < -1 || target > 2 {
        return 0;
      }
      if target == visible {
        return 1;
      }
      var save := if visible == -1 then alias else 1 + visible;
      var write := if target == -1 then alias else 1 + target;
      CopyScreen(pages[save], pages[0]);
      assert View().pages == old(View()).pages[save := old(View()).pages[0]];
      label saved:
      CopyScreen(pages[0], pages[write]);
      assert View().pages == old@saved(View()).pages[0 := old@saved(View()).pages[write]];
      visible := target;
      return 1;
    }

    /** map_screen_buffer: 0 for a bad index, else 1. */
    method MapScreenBuffer(idx: int) returns (ret: int)
      requires Valid()
      modifies this`alias
      ensures Valid() && View() == if 0 <= idx <= 3 then old(View()).(alias := idx) else old(View())
      ensures ret == if 0 <= idx <= 3 then 1 else 0
    {
      if idx < 0 || idx > 3 {
        return 0;
      }
      alias := idx;
      return 1;
    }

    /** The video part of context_switch. */
    method ContextSwitch()
      requires Valid()
      modifies this
      ensures Valid() && View() == SwitchContext(old(View()))
      ensures sched == (old(sched) + 1) % 3 && alias == if visible == sched then 0 else 1 + sched
    {
      sched := if sched < 2 then sched + 1 else 0;
      if visible == sched {
        var _ := MapScreenBuffer(0);
      } else {
        var _ := MapScreenBuffer(1 + sched);
      }
    }
  }
}
