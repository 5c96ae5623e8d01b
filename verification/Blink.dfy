/** The blink list of fish: a linked list threaded through a pool of 2000 cells, and its timer. */
module Blink {
  import opened Bytes
  import opened Sequences

  const POOL: nat := 2000

  /** `next` is a cell index, -1 for the null pointer. */
  datatype Cell = Cell(location: u16, onChar: byte, offChar: byte, onLength: u16, offLength: u16,
                       countdown: u16, status: u16, next: int)

  const ZERO := Cell(0, 0, 0, 0, 0, 0, 0, -1)

  // ------------------------------------------------------------ one node's timer

  /** cmpw and jg: a 16-bit value as a signed number. */
  function Signed(x: u16): int {
    if x < 0x8000 then x else x - 0x1_0000
  }

  predicate On(c: Cell) {
    c.status % 2 == 1
  }

  /** One round of mp1_rtc_tasklet on one node. */
  function TickCell(c: Cell): Cell {
    var down := (c.countdown - 1) % 0x1_0000;
    if Signed(down) > 0 then c.(countdown := down)
    else if On(c) then c.(countdown := c.offLength, status := c.status - 1)
    else c.(countdown := c.onLength, status := c.status + 1)
  }

  function Ticks(c: Cell, n: nat): Cell {
    if n == 0 then c else TickCell(Ticks(c, n - 1))
  }

  /** How many ticks a phase of this length lasts: lengths outside 1..32768 act as 1. */
  function Dwell(length: u16): (n: nat)
    ensures n >= 1
  {
    if 1 <= length <= 0x8000 then length else 1
  }

  /** The node has spent k ticks in its on (or off) phase. */
  ghost predicate InPhase(c: Cell, on: u16, off: u16, isOn: bool, k: nat) {
    var length := if isOn then on else off;
    && c.onLength == on && c.offLength == off && On(c) == isOn
    && k < Dwell(length) && c.countdown == length - k
  }

  lemma TickPhase(c: Cell, on: u16, off: u16, isOn: bool, k: nat)
    requires InPhase(c, on, off, isOn, k)
    ensures var length := if isOn then on else off;
            if k + 1 < Dwell(length) then InPhase(TickCell(c), on, off, isOn, k + 1)
            else InPhase(TickCell(c), on, off, !isOn, 0)
  {
  }

  lemma ModStep(n: nat, p: nat)
    requires p >= 1
    ensures (n + 1) % p == if n % p + 1 == p then 0 else n % p + 1
  {
    var q, m := n / p, n % p;
    assert n == p * q + m;
    if m + 1 == p {
      assert n + 1 == p * (q + 1);
      DivUnique(n + 1, p, q + 1, 0);
    } else {
      DivUnique(n + 1, p, q, m + 1);
    }
  }

  lemma DivUnique(n: nat, p: nat, q: nat, m: nat)
    requires p >= 1 && m < p && n == p * q + m
    ensures n % p == m
  {
    var q', m' := n / p, n % p;
    assert n == p * q' + m';
    assert p * (q - q') == m' - m;
    MulBound(p, q - q');
  }

  lemma MulBound(p: nat, d: int)
    ensures d >= 1 ==> p * d >= p
    ensures d <= -1 ==> p * d <= 0 - p
  {
  }

  function Period(on: u16, off: u16): (n: nat)
    ensures n >= 2
  {
    Dwell(on) + Dwell(off)
  }

  /** The node is m ticks into its cycle. */
  ghost predicate InCycle(c: Cell, on: u16, off: u16, m: nat) {
    if m < Dwell(on) then InPhase(c, on, off, true, m)
    else InPhase(c, on, off, false, m - Dwell(on))
  }

  lemma TickCycle(c: Cell, on: u16, off: u16, m: nat)
    requires InCycle(c, on, off, m) && m < Period(on, off)
    ensures InCycle(TickCell(c), on, off, if m + 1 == Period(on, off) then 0 else m + 1)
  {
    hide TickCell;
    if m < Dwell(on) {
      TickPhase(c, on, off, true, m);
    } else {
      TickPhase(c, on, off, false, m - Dwell(on));
    }
  }

  lemma {:induction false} CycleAfter(c: Cell, on: u16, off: u16, n: nat)
    requires InCycle(c, on, off, 0)
    ensures InCycle(Ticks(c, n), on, off, n % Period(on, off))
  {
    hide InCycle, TickCell, Period;
    if n > 0 {
      CycleAfter(c, on, off, n - 1);
      ModStep(n - 1, Period(on, off));
      TickCycle(Ticks(c, n - 1), on, off, (n - 1) % Period(on, off));
    }
  }

  /**
   * A node just added is on after n ticks exactly in the first part of its
   * cycle, for all 16-bit lengths and every n.
   */
  lemma BlinksPeriodically(c: Cell, n: nat)
    requires On(c) && c.countdown == c.onLength
    ensures On(Ticks(c, n)) <==> n % Period(c.onLength, c.offLength) < Dwell(c.onLength)
    ensures 1 <= c.onLength <= 32768 && 1 <= c.offLength <= 32768 ==>
              (On(Ticks(c, n)) <==> n % (c.onLength + c.offLength) < c.onLength)
  {
    hide TickCell;
    CycleAfter(c, c.onLength, c.offLength, n);
  }

  /** mp1_ioctl_sync's four assignments. */
  function Synced(src: Cell, dst: Cell): Cell {
    dst.(onLength := src.onLength, offLength := src.offLength, countdown := src.countdown, status := src.status)
  }

  lemma TickSynced(src: Cell, dst: Cell)
    ensures Synced(TickCell(src), dst) == TickCell(Synced(src, dst))
  {
  }

  /** Two synchronised nodes stay in step on all later ticks. */
  lemma {:induction false} SyncedStayInStep(src: Cell, dst: Cell, n: nat)
    ensures Synced(Ticks(src, n), dst) == Ticks(Synced(src, dst), n)
    ensures Ticks(Synced(src, dst), n).status == Ticks(src, n).status
    ensures Ticks(Synced(src, dst), n).countdown == Ticks(src, n).countdown
  {
    hide TickCell;
    if n > 0 {
      SyncedStayInStep(src, dst, n - 1);
      TickSynced(Ticks(src, n - 1), dst);
    }
  }

  // ------------------------------------------------------------ list and pool

  /** What the pointer behind position i of the list holds. */
  function At(list: seq<int>, i: nat): int {
    if i < |list| then list[i] else -1
  }

  ghost predicate InPool(list: seq<int>) {
    forall i :: 0 <= i < |list| ==> 0 <= list[i] < POOL
  }

  ghost predicate LinkOk(cells: seq<Cell>, list: seq<int>, i: nat)
    requires |cells| == POOL && i < |list| && InPool(list)
  {
    cells[list[i]].next == At(list, i + 1)
  }

  /** Following `next` from `head` visits exactly the cells of `list`, in order, and ends. */
  ghost predicate Linked(cells: seq<Cell>, head: int, list: seq<int>)
    requires |cells| == POOL && InPool(list)
  {
    && head == At(list, 0)
    && forall i :: 0 <= i < |list| ==> LinkOk(cells, list, i)
  }

  /** The list is acyclic and its nodes are exactly the cells with a non-zero location. */
  ghost predicate Inv(cells: seq<Cell>, head: int, list: seq<int>) {
    && |cells| == POOL && InPool(list) && NoDup(list) && Linked(cells, head, list)
    && forall p :: 0 <= p < POOL ==> (cells[p].location != 0 <==> p in list)
  }

  /** The nodes in list order, without their links. */
  ghost function Nodes(cells: seq<Cell>, list: seq<int>): (r: seq<Cell>)
    requires |cells| == POOL && InPool(list)
    ensures |r| == |list|
    ensures forall i :: 0 <= i < |list| ==> r[i] == cells[list[i]].(next := -1)
  {
    seq(|list|, i requires 0 <= i < |list| => cells[list[i]].(next := -1))
  }

  function Without<T>(s: seq<T>, i: nat): seq<T>
    requires i < |s|
  {
    s[..i] + s[i + 1..]
  }

  /** The first node at this location, or the length of the list. */
  function FirstAt(nodes: seq<Cell>, location: u16): (i: nat)
    ensures i <= |nodes|
    ensures i < |nodes| ==> nodes[i].location == location
    ensures forall j :: 0 <= j < i ==> nodes[j].location != location
  {
    if nodes == [] || nodes[0].location == location then 0 else 1 + FirstAt(nodes[1..], location)
  }

  lemma FirstAtIs(nodes: seq<Cell>, location: u16, i: nat)
    requires i <= |nodes| && (i < |nodes| ==> nodes[i].location == location)
    requires forall j :: 0 <= j < i ==> nodes[j].location != location
    ensures FirstAt(nodes, location) == i
  {
  }

  /** A node as mp1_ioctl_add stores it. */
  function Started(c: Cell): Cell {
    c.(status := 1, countdown := c.onLength)
  }

  /** The pool after a successful add into cell p. */
  function Inserted(cells: seq<Cell>, head: int, p: int, c: Cell): seq<Cell>
    requires 0 <= p < |cells|
  {
    cells[p := Started(c).(next := head)]
  }

  /**
   * Adding into a free cell puts the node in front and, if and only if its
   * location is not zero, keeps the invariant.
   */
  lemma InsertKeeps(cells: seq<Cell>, head: int, list: seq<int>, p: int, c: Cell)
    requires Inv(cells, head, list) && 0 <= p < POOL && cells[p].location == 0
    ensures p !in list && InPool([p] + list) && Linked(Inserted(cells, head, p, c), p, [p] + list)
    ensures Inv(Inserted(cells, head, p, c), p, [p] + list) <==> c.location != 0
    ensures Nodes(Inserted(cells, head, p, c), [p] + list) == [Started(c).(next := -1)] + Nodes(cells, list)
  {
    var cells', list' := Inserted(cells, head, p, c), [p] + list;
    assert p !in list;
    assert NoDup(list');
    forall i | 0 <= i < |list'|
      ensures LinkOk(cells', list', i)
    {
      assert i > 0 ==> LinkOk(cells, list, i - 1) && list'[i] == list[i - 1];
    }
    assert p in list' && cells'[p].location == c.location;
    assert forall q :: q in list' <==> q == p || q in list;
  }

  /** The pool after unlinking position i and zeroing its cell. */
  function Unlinked(cells: seq<Cell>, list: seq<int>, i: nat): seq<Cell>
    requires |cells| == POOL && InPool(list) && i < |list|
  {
    var next := cells[list[i]].next;
    (if i == 0 then cells else cells[list[i - 1] := cells[list[i - 1]].(next := next)])[list[i] := ZERO]
  }

  lemma WithoutMembers(list: seq<int>, i: nat)
    requires NoDup(list) && i < |list|
    ensures NoDup(Without(list, i)) && forall p :: p in Without(list, i) <==> p in list && p != list[i]
  {
    var list' := Without(list, i);
    forall p | p in list && p != list[i]
      ensures p in list'
    {
      var k :| 0 <= k < |list| && list[k] == p;
      assert list'[if k < i then k else k - 1] == p;
    }
  }

  lemma UnlinkAt(cells: seq<Cell>, head: int, list: seq<int>, i: nat, j: nat)
    requires Inv(cells, head, list) && i < |list| && j < |list| - 1 && InPool(Without(list, i))
    ensures var cells', list' := Unlinked(cells, list, i), Without(list, i);
            && LinkOk(cells', list', j)
            && cells'[list'[j]].(next := -1) == Nodes(cells, list)[if j < i then j else j + 1]
  {
    var list', k := Without(list, i), if j < i then j else j + 1;
    assert LinkOk(cells, list, i) && LinkOk(cells, list, k);
    assert list'[j] == list[k] && (j + 1 < |list'| ==> list'[j + 1] == list[if j + 1 < i then j + 1 else j + 2]);
  }

  /** Unlinking frees one cell and leaves every other location alone. */
  lemma UnlinkLocations(cells: seq<Cell>, head: int, list: seq<int>, i: nat)
    requires Inv(cells, head, list) && i < |list|
    ensures |Unlinked(cells, list, i)| == POOL
    ensures forall p :: 0 <= p < POOL ==> (Unlinked(cells, list, i)[p].location != 0 <==> p in list && p != list[i])
  {
    hide LinkOk;
  }

  lemma UnlinkMembers(cells: seq<Cell>, head: int, list: seq<int>, i: nat)
    requires Inv(cells, head, list) && i < |list|
    ensures var list' := Without(list, i);
            && NoDup(list') && InPool(list') && |list'| == |list| - 1
            && forall p :: p in list' <==> p in list && p != list[i]
  {
    hide LinkOk, NoDup;
    WithoutMembers(list, i);
    assert forall j :: 0 <= j < |Without(list, i)| ==> Without(list, i)[j] in Without(list, i);
  }

  lemma UnlinkNodes(cells: seq<Cell>, head: int, list: seq<int>, i: nat)
    requires Inv(cells, head, list) && i < |list| && |Unlinked(cells, list, i)| == POOL && InPool(Without(list, i))
    ensures Nodes(Unlinked(cells, list, i), Without(list, i)) == Without(Nodes(cells, list), i)
  {
    hide LinkOk, Unlinked, NoDup, Linked;
    var cells', list' := Unlinked(cells, list, i), Without(list, i);
    forall j | 0 <= j < |list'|
      ensures Nodes(cells', list')[j] == Without(Nodes(cells, list), i)[j]
    {
      UnlinkAt(cells, head, list, i, j);
    }
  }

  lemma UnlinkKeeps(cells: seq<Cell>, head: int, list: seq<int>, i: nat)
    requires Inv(cells, head, list) && i < |list|
    ensures Inv(Unlinked(cells, list, i), if i == 0 then At(list, 1) else head, Without(list, i))
    ensures Nodes(Unlinked(cells, list, i), Without(list, i)) == Without(Nodes(cells, list), i)
  {
    hide LinkOk, Unlinked, NoDup, Nodes;
    var cells', list' := Unlinked(cells, list, i), Without(list, i);
    UnlinkMembers(cells, head, list, i);
    UnlinkLocations(cells, head, list, i);
    UnlinkNodes(cells, head, list, i);
    forall j | 0 <= j < |list'|
      ensures LinkOk(cells', list', j)
    {
      UnlinkAt(cells, head, list, i, j);
    }
  }

  /** Replacing a node's data but neither its location nor its link. */
  lemma UpdateKeeps(cells: seq<Cell>, head: int, list: seq<int>, i: nat, c: Cell)
    requires Inv(cells, head, list) && i < |list|
    requires c.location == cells[list[i]].location && c.next == cells[list[i]].next
    ensures Inv(cells[list[i] := c], head, list)
    ensures Nodes(cells[list[i] := c], list) == Nodes(cells, list)[i := c.(next := -1)]
  {
    var cells' := cells[list[i] := c];
    forall j | 0 <= j < |list|
      ensures LinkOk(cells', list, j)
    {
      assert LinkOk(cells, list, j);
    }
  }

  /** mp1_malloc finds no cell exactly when 2000 nodes are linked. */
  lemma FullPool(cells: seq<Cell>, head: int, list: seq<int>)
    requires Inv(cells, head, list)
    ensures (forall p :: 0 <= p < POOL ==> cells[p].location != 0) <==> |list| == POOL
    ensures |list| <= POOL
  {
    hide Range;
    NoDupSize(list);
    assert forall p :: p in list ==> 0 <= p < POOL;
    assert Elements(list) <= Range(POOL);
    SubsetSize(Elements(list), Range(POOL));
    assert forall p :: 0 <= p < POOL ==> (cells[p].location != 0 <==> p in Elements(list));
    if |list| == POOL {
      assert Elements(list) == Range(POOL);
    }
    if forall p :: 0 <= p < POOL ==> cells[p].location != 0 {
      assert Elements(list) == Range(POOL);
    }
  }

  // ------------------------------------------------------- operations on nodes

  datatype Op = Add(c: Cell) | Remove(location: u16) | Sync(src: u16, dst: u16) | Tick

  /** What an operation does to the nodes in list order. */
  function Effect(nodes: seq<Cell>, op: Op): seq<Cell> {
    match op
    case Add(c) => if c.location >= 2000 || |nodes| == POOL then nodes else [Started(c).(next := -1)] + nodes
    case Remove(loc) =>
      var i := FirstAt(nodes, loc);
      if i == |nodes| then nodes else Without(nodes, i)
    case Sync(src, dst) =>
      var i, j := FirstAt(nodes, src), FirstAt(nodes, dst);
      if i == |nodes| || j == |nodes| then nodes else nodes[j := Synced(nodes[i], nodes[j])]
    case Tick => TickAll(nodes)
  }

  function TickAll(nodes: seq<Cell>): (r: seq<Cell>)
    ensures |r| == |nodes| && forall i :: 0 <= i < |r| ==> r[i] == TickCell(nodes[i])
  {
    seq(|nodes|, i requires 0 <= i < |nodes| => TickCell(nodes[i]))
  }

  /** The first i nodes have ticked, the others not yet. */
  ghost function TickedUpTo(nodes: seq<Cell>, i: nat): (r: seq<Cell>)
    requires i <= |nodes|
    ensures |r| == |nodes|
  {
    TickAll(nodes[..i]) + nodes[i..]
  }

  lemma TickedEnds(nodes: seq<Cell>)
    ensures TickedUpTo(nodes, 0) == nodes && TickedUpTo(nodes, |nodes|) == TickAll(nodes)
  {
    assert nodes[..|nodes|] == nodes;
  }

  lemma TickedNext(nodes: seq<Cell>, i: nat, c: Cell)
    requires i < |nodes| && c.(next := -1) == TickedUpTo(nodes, i)[i]
    ensures TickedUpTo(nodes, i)[i := TickCell(c).(next := -1)] == TickedUpTo(nodes, i + 1)
    ensures TickCell(c).location == c.location && TickCell(c).next == c.next
  {
    assert TickCell(c).(next := -1) == TickCell(nodes[i]);
    assert nodes[..i + 1] == nodes[..i] + [nodes[i]];
  }

  ghost function Effects(nodes: seq<Cell>, ops: seq<Op>): seq<Cell>
    decreases |ops|
  {
    if ops == [] then nodes else Effects(Effect(nodes, ops[0]), ops[1..])
  }

  function TickCount(ops: seq<Op>): nat {
    if ops == [] then 0 else (if ops[0].Tick? then 1 else 0) + TickCount(ops[1..])
  }

  // ---------------------------------------------------- operations on the pool

  /** blink_array, mp1_list_head, and the cells the list visits. */
  datatype Pool = Pool(cells: seq<Cell>, head: int, list: seq<int>)

  ghost predicate Ok(s: Pool) {
    Inv(s.cells, s.head, s.list)
  }

  ghost function NodesOf(s: Pool): (r: seq<Cell>)
    requires Ok(s)
    ensures |r| == |s.list|
  {
    Nodes(s.cells, s.list)
  }

  /** mp1_malloc: the first cell from `from` on whose location is zero, or -1. */
  function FirstFree(cells: seq<Cell>, from: nat): (p: int)
    requires from <= |cells|
    ensures p == -1 || from <= p < |cells|
    ensures p != -1 ==> cells[p].location == 0
    ensures forall q :: from <= q < (if p == -1 then |cells| else p) ==> cells[q].location != 0
    decreases |cells| - from
  {
    if from == |cells| then -1 else if cells[from].location == 0 then from else FirstFree(cells, from + 1)
  }

  /** The tasklet's walk after i nodes. */
  ghost function TickFirst(cells: seq<Cell>, list: seq<int>, i: nat): (r: seq<Cell>)
    requires |cells| == POOL && InPool(list) && i <= |list|
    ensures |r| == POOL
  {
    if i == 0 then cells else
      var c := TickFirst(cells, list, i - 1);
      c[list[i - 1] := TickCell(c[list[i - 1]])]
  }

  /** One operation, cell by cell. */
  ghost function PoolStep(s: Pool, op: Op): Pool
    requires Ok(s)
  {
    match op
    case Add(c) =>
      var p := FirstFree(s.cells, 0);
      if c.location >= 2000 || p == -1 then s
      else Pool(Inserted(s.cells, s.head, p, c), p, [p] + s.list)
    case Remove(loc) =>
      var i := FirstAt(NodesOf(s), loc);
      if i == |s.list| then s
      else Pool(Unlinked(s.cells, s.list, i), if i == 0 then At(s.list, 1) else s.head, Without(s.list, i))
    case Sync(src, dst) =>
      var i, j := FirstAt(NodesOf(s), src), FirstAt(NodesOf(s), dst);
      if i == |s.list| || j == |s.list| then s
      else s.(cells := s.cells[s.list[j] := Synced(s.cells[s.list[i]], s.cells[s.list[j]])])
    case Tick => s.(cells := TickFirst(s.cells, s.list, |s.list|))
  }

  /** An add at location 0 that finds a free cell. */
  ghost predicate ZeroAdd(s: Pool, op: Op) {
    op.Add? && op.c.location == 0 && FirstFree(s.cells, 0) != -1
  }

  lemma AddRefines(s: Pool, c: Cell)
    requires Ok(s)
    ensures FirstFree(s.cells, 0) == -1 <==> |s.list| == POOL
    ensures Ok(PoolStep(s, Add(c))) <==> !ZeroAdd(s, Add(c))
    ensures !ZeroAdd(s, Add(c)) ==> NodesOf(PoolStep(s, Add(c))) == Effect(NodesOf(s), Add(c))
  {
    var p := FirstFree(s.cells, 0);
    FullPool(s.cells, s.head, s.list);
    if p != -1 {
      InsertKeeps(s.cells, s.head, s.list, p, c);
    }
    hide Inv, Nodes, Inserted, FirstFree;
  }

  lemma RemoveRefines(s: Pool, loc: u16)
    requires Ok(s)
    ensures Ok(PoolStep(s, Remove(loc))) && NodesOf(PoolStep(s, Remove(loc))) == Effect(NodesOf(s), Remove(loc))
  {
    var i := FirstAt(NodesOf(s), loc);
    if i < |s.list| {
      UnlinkKeeps(s.cells, s.head, s.list, i);
    }
    hide Inv, Nodes, Unlinked, FirstAt;
  }

  lemma SyncRefines(s: Pool, src: u16, dst: u16)
    requires Ok(s)
    ensures Ok(PoolStep(s, Sync(src, dst)))
    ensures NodesOf(PoolStep(s, Sync(src, dst))) == Effect(NodesOf(s), Sync(src, dst))
  {
    var i, j := FirstAt(NodesOf(s), src), FirstAt(NodesOf(s), dst);
    if i < |s.list| && j < |s.list| {
      var c := Synced(s.cells[s.list[i]], s.cells[s.list[j]]);
      UpdateKeeps(s.cells, s.head, s.list, j, c);
      assert c.(next := -1) == Synced(NodesOf(s)[i], NodesOf(s)[j]);
    }
    hide Inv, Nodes, FirstAt;
  }

  lemma {:induction false} TickFirstRefines(s: Pool, i: nat)
    requires Ok(s) && i <= |s.list|
    ensures Ok(s.(cells := TickFirst(s.cells, s.list, i)))
    ensures NodesOf(s.(cells := TickFirst(s.cells, s.list, i))) == TickedUpTo(NodesOf(s), i)
  {
    hide Linked, NoDup, TickCell, TickedUpTo;
    if i == 0 {
      TickedEnds(NodesOf(s));
    } else {
      TickFirstRefines(s, i - 1);
      var cells := TickFirst(s.cells, s.list, i - 1);
      TickedNext(NodesOf(s), i - 1, cells[s.list[i - 1]]);
      UpdateKeeps(cells, s.head, s.list, i - 1, TickCell(cells[s.list[i - 1]]));
    }
  }

  /** Each operation does to the list what it does to the nodes, and keeps it well formed, unless it is a zero add. */
  lemma StepRefines(s: Pool, op: Op)
    requires Ok(s)
    ensures Ok(PoolStep(s, op)) <==> !ZeroAdd(s, op)
    ensures !ZeroAdd(s, op) ==> NodesOf(PoolStep(s, op)) == Effect(NodesOf(s), op)
  {
    match op
    case Add(c) => AddRefines(s, c);
    case Remove(loc) => RemoveRefines(s, loc);
    case Sync(src, dst) => SyncRefines(s, src, dst);
    case Tick =>
      TickFirstRefines(s, |s.list|);
      TickedEnds(NodesOf(s));
  }

  // --------------------------------------------------------------- whole runs

  /** The list is well formed before, during and after the run. */
  ghost predicate AlwaysOk(s: Pool, ops: seq<Op>)
    decreases |ops|
  {
    Ok(s) && (ops != [] ==> AlwaysOk(PoolStep(s, ops[0]), ops[1..]))
  }

  ghost function PoolRun(s: Pool, ops: seq<Op>): Pool
    requires AlwaysOk(s, ops)
    decreases |ops|
  {
    if ops == [] then s else PoolRun(PoolStep(s, ops[0]), ops[1..])
  }

  /** No add of the run has location 0 while a cell is free. */
  ghost predicate NoZeroAdd(s: Pool, ops: seq<Op>)
    requires Ok(s)
    decreases |ops|
  {
    ops != [] ==>
      !ZeroAdd(s, ops[0]) && (StepRefines(s, ops[0]); NoZeroAdd(PoolStep(s, ops[0]), ops[1..]))
  }

  /**
   * Over every sequence of adds, removes, syncs and ticks, the list stays
   * acyclic and exactly the non-zero cells throughout if and only if no add has
   * location 0 while a cell is free.
   */
  lemma {:induction false} AlwaysOkExactlyWhen(s: Pool, ops: seq<Op>)
    requires Ok(s)
    ensures AlwaysOk(s, ops) <==> NoZeroAdd(s, ops)
    decreases |ops|
  {
    hide Inv, PoolStep, ZeroAdd;
    if ops != [] {
      StepRefines(s, ops[0]);
      if !ZeroAdd(s, ops[0]) {
        AlwaysOkExactlyWhen(PoolStep(s, ops[0]), ops[1..]);
      }
    }
  }

  /** Such a run does to the nodes what the operations do to a plain sequence of them. */
  lemma {:induction false} RunRefines(s: Pool, ops: seq<Op>)
    requires AlwaysOk(s, ops)
    ensures Ok(PoolRun(s, ops)) && NodesOf(PoolRun(s, ops)) == Effects(NodesOf(s), ops)
    decreases |ops|
  {
    hide Inv, PoolStep, ZeroAdd, Effect, NodesOf;
    if ops != [] {
      StepRefines(s, ops[0]);
      RunRefines(PoolStep(s, ops[0]), ops[1..]);
    }
  }

  function EmptyPool(): Pool {
    Pool(seq(POOL, i => ZERO), -1, [])
  }

  /** From the empty pool, any run of adds at other locations, removes, syncs and ticks is well formed. */
  lemma RunFromEmpty(ops: seq<Op>)
    requires forall i :: 0 <= i < |ops| && ops[i].Add? ==> ops[i].c.location != 0
    ensures AlwaysOk(EmptyPool(), ops) && Ok(PoolRun(EmptyPool(), ops))
    ensures NodesOf(PoolRun(EmptyPool(), ops)) == Effects([], ops)
  {
    NonZeroIsEnough(EmptyPool(), ops);
    hide Inv;
    AlwaysOkExactlyWhen(EmptyPool(), ops);
    RunRefines(EmptyPool(), ops);
  }

  lemma {:induction false} NonZeroIsEnough(s: Pool, ops: seq<Op>)
    requires Ok(s) && forall i :: 0 <= i < |ops| && ops[i].Add? ==> ops[i].c.location != 0
    ensures NoZeroAdd(s, ops)
    decreases |ops|
  {
    hide Inv, PoolStep;
    if ops != [] {
      StepRefines(s, ops[0]);
      NonZeroIsEnough(PoolStep(s, ops[0]), ops[1..]);
    }
  }

  /**
   * With location 0 the property fails on every pool with a free cell: the
   * first add leaves the cell looking free, and the second takes it again and
   * makes it the head and its own successor, which cuts off the whole list.
   */
  lemma ZeroLocationMakesCycle(s: Pool, c: Cell)
    requires Ok(s) && c.location == 0 && FirstFree(s.cells, 0) != -1
    ensures var once := PoolStep(s, Add(c));
            && once.head == FirstFree(once.cells, 0) == FirstFree(s.cells, 0)
            && Inserted(once.cells, once.head, once.head, c)[once.head].next == once.head
  {
    hide Linked, NoDup;
    var p := FirstFree(s.cells, 0);
    var once := PoolStep(s, Add(c));
    assert forall q :: 0 <= q < p ==> once.cells[q] == s.cells[q];
    assert once.cells[p].location == 0;
  }

  // -------------------------------------------------- a node through a whole run

  lemma {:induction false} TicksCompose(c: Cell, n: nat)
    ensures Ticks(TickCell(c), n) == Ticks(c, n + 1)
  {
    hide TickCell;
    if n > 0 {
      TicksCompose(c, n - 1);
    }
  }

  /** The operation neither removes the node in cell q nor re-times it. */
  ghost predicate Spares(s: Pool, op: Op, q: int)
    requires Ok(s)
  {
    match op
    case Remove(loc) => At(s.list, FirstAt(NodesOf(s), loc)) != q
    case Sync(src, dst) => At(s.list, FirstAt(NodesOf(s), dst)) != q || FirstAt(NodesOf(s), src) == |s.list|
    case _ => true
  }

  ghost predicate SparedBy(s: Pool, ops: seq<Op>, q: int)
    requires AlwaysOk(s, ops)
    decreases |ops|
  {
    ops != [] ==> Spares(s, ops[0], q) && SparedBy(PoolStep(s, ops[0]), ops[1..], q)
  }

  /** The node in cell q without its link. */
  ghost function NodeIn(s: Pool, q: int): Cell
    requires Ok(s) && q in s.list
  {
    s.cells[q].(next := -1)
  }

  lemma AddOnNode(s: Pool, c: Cell, q: int)
    requires Ok(s) && Ok(PoolStep(s, Add(c))) && q in s.list
    ensures q in PoolStep(s, Add(c)).list && NodeIn(PoolStep(s, Add(c)), q) == NodeIn(s, q)
  {
    hide LinkOk, NoDup, Linked;
    assert s.cells[q].location != 0;
  }

  lemma RemoveOnNode(s: Pool, loc: u16, q: int)
    requires Ok(s) && Ok(PoolStep(s, Remove(loc))) && q in s.list && Spares(s, Remove(loc), q)
    ensures q in PoolStep(s, Remove(loc)).list && NodeIn(PoolStep(s, Remove(loc)), q) == NodeIn(s, q)
  {
    var k := FirstAt(NodesOf(s), loc);
    if k < |s.list| {
      WithoutMembers(s.list, k);
    }
    hide FirstAt, LinkOk, NoDup, Linked, Without;
  }

  lemma SyncOnNode(s: Pool, src: u16, dst: u16, q: int)
    requires Ok(s) && Ok(PoolStep(s, Sync(src, dst))) && q in s.list && Spares(s, Sync(src, dst), q)
    ensures q in PoolStep(s, Sync(src, dst)).list && NodeIn(PoolStep(s, Sync(src, dst)), q) == NodeIn(s, q)
  {
    hide FirstAt, LinkOk, NoDup, Linked;
  }

  lemma TickOnNode(s: Pool, q: int)
    requires Ok(s) && Ok(PoolStep(s, Tick)) && q in s.list
    ensures q in PoolStep(s, Tick).list && NodeIn(PoolStep(s, Tick), q) == TickCell(NodeIn(s, q))
  {
    hide LinkOk, NoDup, Linked, TickCell, TickFirst;
    var i :| 0 <= i < |s.list| && s.list[i] == q;
    TickFirstRefines(s, |s.list|);
    TickedEnds(NodesOf(s));
    assert NodesOf(PoolStep(s, Tick))[i] == TickCell(NodesOf(s)[i]);
  }

  lemma StepOnNode(s: Pool, op: Op, q: int)
    requires Ok(s) && Ok(PoolStep(s, op)) && q in s.list && Spares(s, op, q)
    ensures q in PoolStep(s, op).list
    ensures NodeIn(PoolStep(s, op), q) == if op.Tick? then TickCell(NodeIn(s, q)) else NodeIn(s, q)
  {
    hide Inv, Spares, PoolStep, NodeIn, TickCell;
    match op
    case Add(c) => AddOnNode(s, c, q);
    case Remove(loc) => RemoveOnNode(s, loc, q);
    case Sync(src, dst) => SyncOnNode(s, src, dst, q);
    case Tick => TickOnNode(s, q);
  }

  /**
   * Through any operations that spare it and keep the list well formed, a node
   * stays in its cell and only ages by the ticks among them.
   */
  lemma {:induction false} NodeAges(s: Pool, ops: seq<Op>, q: int)
    requires AlwaysOk(s, ops) && q in s.list && SparedBy(s, ops, q)
    ensures var r := PoolRun(s, ops);
            Ok(r) && q in r.list && NodeIn(r, q) == Ticks(NodeIn(s, q), TickCount(ops))
    decreases |ops|
  {
    hide PoolStep, Inv, Spares, TickCell, NodeIn;
    if ops != [] {
      StepOnNode(s, ops[0], q);
      NodeAges(PoolStep(s, ops[0]), ops[1..], q);
      TicksCompose(NodeIn(s, q), TickCount(ops[1..]));
    }
  }

  /**
   * A node added to the list and neither removed nor re-timed since is on
   * exactly in the first part of its cycle, counting the ticks since it was
   * added, and keeps the location, characters and lengths it was given, whatever
   * else is removed, synchronised and added at other locations than 0 meanwhile.
   */
  lemma AddedNodeBlinks(s: Pool, c: Cell, ops: seq<Op>)
    requires Ok(s) && 0 < c.location < 2000 && FirstFree(s.cells, 0) != -1
    requires AlwaysOk(PoolStep(s, Add(c)), ops) && SparedBy(PoolStep(s, Add(c)), ops, FirstFree(s.cells, 0))
    ensures var r, q := PoolRun(PoolStep(s, Add(c)), ops), FirstFree(s.cells, 0);
            && Ok(r) && q in r.list && r.cells[q].location == c.location
            && r.cells[q].onChar == c.onChar && r.cells[q].offChar == c.offChar
            && r.cells[q].onLength == c.onLength && r.cells[q].offLength == c.offLength
            && (On(r.cells[q]) <==> TickCount(ops) % Period(c.onLength, c.offLength) < Dwell(c.onLength))
  {
    AddRefines(s, c);
    hide TickCell, SparedBy, AlwaysOk, PoolRun, Ticks, Period, Dwell, Linked, NoDup, FirstFree;
    var added, q := PoolStep(s, Add(c)), FirstFree(s.cells, 0);
    assert q in added.list && NodeIn(added, q) == Started(c).(next := -1);
    NodeAges(added, ops, q);
    StartedIsOn(c);
    BlinksPeriodically(NodeIn(added, q), TickCount(ops));
    TicksKeepData(NodeIn(added, q), TickCount(ops));
  }

  /**
   * Two nodes synchronised in the list have equal status and countdown from
   * then on, and the lengths of the first, through any well-formed run that
   * neither removes nor re-times one of them. Each keeps its own characters.
   */
  lemma SyncedNodesStayInStep(s: Pool, src: u16, dst: u16, ops: seq<Op>)
    requires Ok(s) && FirstAt(NodesOf(s), src) < |s.list| && FirstAt(NodesOf(s), dst) < |s.list|
    requires AlwaysOk(PoolStep(s, Sync(src, dst)), ops)
    requires SparedBy(PoolStep(s, Sync(src, dst)), ops, s.list[FirstAt(NodesOf(s), src)])
    requires SparedBy(PoolStep(s, Sync(src, dst)), ops, s.list[FirstAt(NodesOf(s), dst)])
    ensures var r := PoolRun(PoolStep(s, Sync(src, dst)), ops);
            var p, q := s.list[FirstAt(NodesOf(s), src)], s.list[FirstAt(NodesOf(s), dst)];
            && Ok(r) && p in r.list && q in r.list
            && r.cells[p].location == src && r.cells[q].location == dst
            && r.cells[p].onChar == s.cells[p].onChar && r.cells[p].offChar == s.cells[p].offChar
            && r.cells[q].onChar == s.cells[q].onChar && r.cells[q].offChar == s.cells[q].offChar
            && r.cells[p].onLength == r.cells[q].onLength == s.cells[p].onLength
            && r.cells[p].offLength == r.cells[q].offLength == s.cells[p].offLength
            && r.cells[p].status == r.cells[q].status && r.cells[p].countdown == r.cells[q].countdown
  {
    hide SparedBy, AlwaysOk, PoolRun, Ticks, TickCount, FirstAt, LinkOk;
    var synced := PoolStep(s, Sync(src, dst));
    var i, j := FirstAt(NodesOf(s), src), FirstAt(NodesOf(s), dst);
    var p, q := s.list[i], s.list[j];
    SyncRefines(s, src, dst);
    NodeAges(synced, ops, p);
    NodeAges(synced, ops, q);
    SyncedStayInStep(NodeIn(s, p), NodeIn(s, q), TickCount(ops));
    SyncedStayInStep(NodeIn(s, p), NodeIn(s, p), TickCount(ops));
    assert NodeIn(synced, q) == Synced(NodeIn(s, p), NodeIn(s, q));
    TicksKeepData(NodeIn(synced, p), TickCount(ops));
    TicksKeepData(NodeIn(synced, q), TickCount(ops));
  }

  lemma StartedIsOn(c: Cell)
    ensures var s := Started(c).(next := -1);
            && On(s) && s.countdown == s.onLength == c.onLength && s.offLength == c.offLength
            && s.location == c.location && s.onChar == c.onChar && s.offChar == c.offChar
  {
  }

  /** Time changes only status and countdown. */
  lemma {:induction false} TicksKeepData(c: Cell, n: nat)
    ensures var r := Ticks(c, n); r == c.(status := r.status, countdown := r.countdown)
  {
    if n > 0 {
      TicksKeepData(c, n - 1);
    }
  }

  // ---------------------------------------------------------- the operations

  class BlinkList {
    const cells: array<Cell>       // blink_array
    var head: int                  // mp1_list_head
    ghost var list: seq<int>       // the cells in list order

    ghost predicate Valid()
      reads this, cells
    {
      Inv(cells[..], head, list)
    }

    ghost function Contents(): seq<Cell>
      requires Valid()
      reads this, cells
    {
      Nodes(cells[..], list)
    }

    ghost function View(): Pool
      reads this, cells
    {
      Pool(cells[..], head, list)
    }

    constructor ()
      ensures Valid() && fresh(cells) && Contents() == [] && View() == EmptyPool()
    {
      cells := new Cell[2000](i => ZERO);
      head, list := -1, [];
      new;
      assert cells[..] == EmptyPool().cells;
    }

    /** The cell of the i-th node, its link and what the contents say of it. */
    lemma NodeAt(i: nat)
      requires Valid() && i < |list|
      ensures 0 <= list[i] < cells.Length && At(list, i) == list[i] != -1
      ensures cells[list[i]].next == At(list, i + 1)
      ensures |Contents()| == |list| && Contents()[i] == cells[list[i]].(next := -1)
    {
      assert LinkOk(cells[..], list, i);
    }

    lemma HeadAt()
      requires Valid()
      ensures head == At(list, 0) && |Contents()| == |list|
      ensures forall i: nat :: At(list, i) == -1 <==> i >= |list|
    {
    }

    /** mp1_malloc: the first cell whose location is zero. */
    method Malloc() returns (p: int)
      requires Valid()
      ensures p == FirstFree(cells[..], 0)
      ensures p == -1 <==> |list| == POOL
      ensures p != -1 ==> 0 <= p < POOL && cells[p].location == 0 && p !in list
    {
      p := 0;
      while p < 2000
        invariant 0 <= p <= 2000
        invariant forall q :: 0 <= q < p ==> cells[q].location != 0
      {
        if cells[p].location == 0 {
          FullPool(cells[..], head, list);
          return;
        }
        p := p + 1;
      }
      FullPool(cells[..], head, list);
      p := -1;
    }

    /** mp1_find_helper: compares the low 16 bits of its argument. */
    method FindHelper(arg: u32) returns (p: int, ghost i: nat)
      requires Valid()
      ensures i == FirstAt(Contents(), arg % 0x1_0000) && p == At(list, i)
    {
      hide Inv, FirstAt, Nodes;
      var location := arg % 0x1_0000;
      p := head;
      i := 0;
      HeadAt();
      while p != -1
        invariant i <= |list| && p == At(list, i)
        invariant forall j :: 0 <= j < i ==> Contents()[j].location != location
        decreases |list| - i
      {
        NodeAt(i);
        if cells[p].location == location {
          FirstAtIs(Contents(), location, i);
          return;
        }
        p := cells[p].next;
        i := i + 1;
      }
      FirstAtIs(Contents(), location, i);
    }

    /**
     * mp1_ioctl_add: -1 if the location is off the screen or the pool is full,
     * else the node goes to the front. The list stays well formed if and only
     * if the add failed or the location is not zero.
     */
    method Add(arg: Cell) returns (ret: int)
      requires Valid()
      modifies this, cells
      ensures ret == if arg.location >= 2000 || |old(list)| == POOL then -1 else 0
      ensures ret == -1 ==> Valid() && Contents() == old(Contents())
      ensures ret == 0 ==> (Valid() <==> arg.location != 0)
      ensures ret == 0 ==> |list| > 0 && list[1..] == old(list) && head == list[0] && list[0] !in old(list)
      ensures ret == 0 && arg.location != 0 ==> Contents() == Effect(old(Contents()), Op.Add(arg))
      ensures View() == PoolStep(old(View()), Op.Add(arg))
    {
      AddRefines(View(), arg);
      if arg.location >= 2000 {
        return -1;
      }
      var temp := arg.(status := 1, countdown := arg.onLength);
      var p := Malloc();
      if p == -1 {
        return -1;
      }
      InsertKeeps(cells[..], head, list, p, arg);
      cells[p] := temp;
      cells[p] := cells[p].(next := head);
      assert cells[..] == Inserted(old(cells[..]), head, p, arg);
      head, list := p, [p] + list;
      return 0;
    }

    /** mp1_ioctl_remove: the first match is unlinked through its predecessor's link and freed. */
    method Remove(arg: u32) returns (ret: int)
      requires Valid()
      modifies this, cells
      ensures View() == PoolStep(old(View()), Op.Remove(arg % 0x1_0000))
      ensures Valid() && Contents() == Effect(old(Contents()), Op.Remove(arg % 0x1_0000))
      ensures ret == if FirstAt(old(Contents()), arg % 0x1_0000) == |old(list)| then -1 else 0
    {
      hide Inv, FirstAt, Unlinked;
      HeadAt();
      RemoveRefines(View(), arg % 0x1_0000);
      var p, i := FindHelper(arg);
      if p == -1 {
        return -1;
      }
      Unlink(p, i);
      return 0;
    }

    /** Takes the i-th node out of the list and frees its cell. */
    method Unlink(p: int, ghost i: nat)
      requires Valid() && i < |list| && list[i] == p
      modifies this, cells
      ensures View() == Pool(Unlinked(old(cells[..]), old(list), i),
                             if i == 0 then At(old(list), 1) else old(head), Without(old(list), i))
    {
      hide LinkOk, Without, NoDup;
      var prev := FindPrevious(p, i);
      NodeAt(i);
      if prev == -1 {
        head := cells[p].next;
      } else {
        cells[prev] := cells[prev].(next := cells[p].next);
      }
      cells[p] := ZERO;
      assert cells[..] == Unlinked(old(cells[..]), list, i);
      list := Without(list, i);
    }

    /** The search for the link that holds p: -1 is the head pointer itself. */
    method FindPrevious(p: int, ghost i: nat) returns (prev: int)
      requires Valid() && i < |list| && list[i] == p
      ensures prev == if i == 0 then -1 else list[i - 1]
    {
      prev := -1;
      ghost var k := 0;
      while (if prev == -1 then head else cells[prev].next) != p
        invariant 0 <= k <= i
        invariant prev == if k == 0 then -1 else list[k - 1]
        decreases i - k
      {
        assert k > 0 ==> LinkOk(cells[..], list, k - 1);
        prev := if prev == -1 then head else cells[prev].next;
        k := k + 1;
      }
      assert k > 0 ==> LinkOk(cells[..], list, k - 1);
    }

    /** mp1_ioctl_sync: the node at the low half of the argument takes the timing of the one at the high half. */
    method Sync(arg: u32) returns (ret: int)
      requires Valid()
      modifies cells
      ensures View() == PoolStep(old(View()), Op.Sync(arg / 0x1_0000, arg % 0x1_0000))
      ensures Valid() && Contents() == Effect(old(Contents()), Op.Sync(arg / 0x1_0000, arg % 0x1_0000))
      ensures var c := old(Contents());
              ret == if FirstAt(c, arg / 0x1_0000) == |c| || FirstAt(c, arg % 0x1_0000) == |c| then -1 else 0
    {
      hide Effect, FirstAt, PoolStep, Inv, Nodes;
      HeadAt();
      SyncRefines(View(), arg / 0x1_0000, arg % 0x1_0000);
      ret := SyncNodes(arg / 0x1_0000, arg % 0x1_0000);
    }

    method SyncNodes(src: u16, dst: u16) returns (ret: int)
      requires Valid()
      modifies cells
      ensures View() == PoolStep(old(View()), Op.Sync(src, dst))
      ensures ret == if FirstAt(old(Contents()), src) == |old(list)| || FirstAt(old(Contents()), dst) == |old(list)| then -1 else 0
    {
      hide FirstAt, Inv, Nodes;
      HeadAt();
      var p, i := FindHelper(src);
      if p == -1 {
        return -1;
      }
      var q, j := FindHelper(dst);
      if q == -1 {
        return -1;
      }
      NodeAt(i);
      NodeAt(j);
      cells[q] := Synced(cells[p], cells[q]);
      assert cells[..] == old(cells[..])[q := cells[q]];
      return 0;
    }

    /** mp1_ioctl_find: a copy of the first match, or none. */
    method Find(location: u16) returns (found: bool, c: Cell)
      requires Valid()
      ensures var i := FirstAt(Contents(), location);
              && (found <==> i < |list|)
              && (found ==> c.(next := -1) == Contents()[i])
    {
      hide Inv, FirstAt, Nodes;
      HeadAt();
      var p, i := FindHelper(location);
      if p == -1 {
        return false, ZERO;
      }
      NodeAt(i);
      return true, cells[p];
    }

    /** mp1_rtc_tasklet: every node, once. */
    method Tick()
      requires Valid()
      modifies cells
      ensures View() == PoolStep(old(View()), Op.Tick)
      ensures Valid() && Contents() == Effect(old(Contents()), Op.Tick)
    {
      hide Inv, Nodes, TickCell, FirstAt, TickFirst;
      StepRefines(View(), Op.Tick);
      ghost var before := View();
      var p := head;
      ghost var i := 0;
      HeadAt();
      NothingTicked(before);
      while p != -1
        invariant 0 <= i <= |list| && p == At(list, i)
        invariant cells[..] == TickFirst(before.cells, list, i)
        decreases |list| - i
      {
        TickFirstRefines(before, i);
        NodeAt(i);
        TickOneMore(before, i);
        cells[p] := TickCell(cells[p]);
        assert cells[..] == TickFirst(before.cells, list, i + 1);
        p := cells[p].next;
        i := i + 1;
      }
    }
  }

  lemma NothingTicked(s: Pool)
    requires Ok(s)
    ensures |s.cells| == POOL && InPool(s.list) && TickFirst(s.cells, s.list, 0) == s.cells
  {
  }

  lemma TickOneMore(s: Pool, i: nat)
    requires Ok(s) && i < |s.list|
    ensures var c, p := TickFirst(s.cells, s.list, i), s.list[i];
            0 <= p < POOL && TickFirst(s.cells, s.list, i + 1) == c[p := TickCell(c[p])] && TickCell(c[p]).next == c[p].next
  {
  }
}
