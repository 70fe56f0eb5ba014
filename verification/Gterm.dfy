/** The character terminal of kernel-3/dev/fbterm/gterm.c: a grid of what is drawn, overlaid with a
    queue of changed cells and a map from cells to queue items, against a plain array of cells. */
module Gterm {
  import opened Common

  datatype Char = Char(c: int, fg: int, bg: int)

  datatype Item = Item(x: nat, y: nat, c: Char)

  /** What a cell of the framebuffer shows; `Mixed` is the pixels of more than one character. */
  datatype Pixels = Drawn(c: Char) | Mixed

  const WORD: int := 0x1_0000_0000_0000_0000    // indexes are of type size_t

  // ---------------------------------------------------------------------------------
  // Cells
  // ---------------------------------------------------------------------------------

  function Offset(cols: nat, x: nat, y: nat): nat { y * cols + x }

  lemma InGrid(cols: nat, rows: nat, x: nat, y: nat)
    requires x < cols && y < rows
    ensures Offset(cols, x, y) < rows * cols
  {
    assert (y + 1) * cols <= rows * cols;
    assert (y + 1) * cols == y * cols + cols;
  }

  lemma OffsetsDiffer(cols: nat, x: nat, y: nat, x': nat, y': nat)
    requires x < cols && x' < cols && (x, y) != (x', y')
    ensures Offset(cols, x, y) != Offset(cols, x', y')
  {
    if y < y' {
      InGrid(cols, y', x, y);
    } else if y' < y {
      InGrid(cols, y, x', y');
    }
  }

  /** Column and row of the i-th cell. */
  lemma CellOf(cols: nat, rows: nat, i: nat)
    requires i < rows * cols
    ensures 0 < cols && i % cols < cols && i / cols < rows && Offset(cols, i % cols, i / cols) == i
  {
    if i / cols >= rows {
      Rows(cols, rows, i / cols);
    }
  }

  // ---------------------------------------------------------------------------------
  // The plain screen
  // ---------------------------------------------------------------------------------

  /** Where line `y` starts. */
  function Line(cols: nat, y: nat): nat { y * cols }

  /** Lines `top` to `bottom` move up one, the last becomes blank. */
  function ScrolledUp(s: seq<Char>, cols: nat, top: nat, bottom: nat, blank: Char): (t: seq<Char>)
    requires top < bottom && Line(cols, bottom) <= |s|
    ensures |t| == |s|
  {
    Consecutive(cols, top, bottom - 1);
    Consecutive(cols, bottom - 1, bottom);
    seq(|s|, i requires 0 <= i < |s| =>
      if i < Line(cols, top) || i >= Line(cols, bottom) then s[i]
      else if i < Line(cols, bottom - 1) then s[i + cols]
      else blank)
  }

  /** Lines `top` to `bottom` move down one, the first becomes blank. */
  function ScrolledDown(s: seq<Char>, cols: nat, top: nat, bottom: nat, blank: Char): (t: seq<Char>)
    requires top < bottom && Line(cols, bottom) <= |s|
    ensures |t| == |s|
  {
    Consecutive(cols, top, top + 1);
    seq(|s|, i requires 0 <= i < |s| =>
      if i < Line(cols, top) || i >= Line(cols, bottom) then s[i]
      else if i < Line(cols, top + 1) then blank
      else s[i - cols])
  }

  /** The cells between `lo` and `hi` hold what `cols` cells further on, or further back, held. */
  predicate MovedUp(t: seq<Char>, s: seq<Char>, cols: nat, lo: int, hi: int) {
    |t| == |s| && forall k {:trigger t[k]} | 0 <= k < |s| :: t[k] == if lo <= k < hi && k + cols < |s| then s[k + cols] else s[k]
  }

  predicate MovedDown(t: seq<Char>, s: seq<Char>, cols: nat, lo: int, hi: int) {
    |t| == |s| && forall k {:trigger t[k]} | 0 <= k < |s| :: t[k] == if lo <= k < hi && 0 <= k - cols then s[k - cols] else s[k]
  }

  predicate Blanked(t: seq<Char>, s: seq<Char>, lo: int, hi: int, blank: Char) {
    |t| == |s| && forall k {:trigger t[k]} | 0 <= k < |s| :: t[k] == if lo <= k < hi then blank else s[k]
  }

  lemma MovedUpStep(t: seq<Char>, s: seq<Char>, cols: nat, lo: int, i: int)
    requires MovedUp(t, s, cols, lo, i - cols) && 0 <= lo && lo + cols <= i < |s|
    ensures MovedUp(t[i - cols := t[i]], s, cols, lo, i + 1 - cols)
  {
    assert t[i] == s[i];
    var t' := t[i - cols := t[i]];
    forall k | 0 <= k < |s| ensures t'[k] == if lo <= k < i + 1 - cols && k + cols < |s| then s[k + cols] else s[k] {}
  }

  lemma MovedDownStep(t: seq<Char>, s: seq<Char>, cols: nat, i: int, hi: int)
    requires MovedDown(t, s, cols, i + 1 + cols, hi) && 0 <= i && i + cols < hi <= |s|
    ensures MovedDown(t[i + cols := t[i]], s, cols, i + cols, hi)
  {
    assert t[i] == s[i];
    var t' := t[i + cols := t[i]];
    forall k | 0 <= k < |s| ensures t'[k] == if i + cols <= k < hi && 0 <= k - cols then s[k - cols] else s[k] {}
  }

  /** Moving lines up and then blanking the last is the scroll. */
  lemma ScrollUpIs(s: seq<Char>, u: seq<Char>, t: seq<Char>, cols: nat, top: nat, bottom: nat, blank: Char)
    requires top < bottom && Line(cols, bottom) <= |s|
    requires MovedUp(u, s, cols, Line(cols, top), Line(cols, bottom) - cols) && Blanked(t, u, Line(cols, bottom - 1), Line(cols, bottom), blank)
    ensures t == ScrolledUp(s, cols, top, bottom, blank)
  {
    Consecutive(cols, bottom - 1, bottom);
    Consecutive(cols, top, bottom - 1);
  }

  lemma ScrollDownIs(s: seq<Char>, u: seq<Char>, t: seq<Char>, cols: nat, top: nat, bottom: nat, blank: Char)
    requires top < bottom && Line(cols, bottom) <= |s|
    requires MovedDown(u, s, cols, Line(cols, top) + cols, Line(cols, bottom)) && Blanked(t, u, Line(cols, top), Line(cols, top + 1), blank)
    ensures t == ScrolledDown(s, cols, top, bottom, blank)
  {
    Consecutive(cols, top, top + 1);
    Consecutive(cols, top + 1, bottom);
    var r := ScrolledDown(s, cols, top, bottom, blank);
    forall k | 0 <= k < |s| ensures t[k] == r[k] {
      if k >= Line(cols, top + 1) {
        assert k - cols >= 0;
      }
    }
  }

  lemma Rows(cols: nat, y: nat, y': nat)
    requires y <= y'
    ensures y * cols <= y' * cols && (y + 1) * cols == y * cols + cols
  {}

  lemma LinesIn(cols: nat, y: nat, rows: nat)
    requires y <= rows
    ensures Line(cols, y) <= rows * cols
  {
    Rows(cols, y, rows);
  }

  /** The same of the lines' starts. */
  lemma Consecutive(cols: nat, y: nat, y': nat)
    requires y <= y'
    ensures Line(cols, y) <= Line(cols, y') && Line(cols, y + 1) == Line(cols, y) + cols
  {}

  /** A scroll, cell by cell: inside the region each line holds the one below, the last is blank, and
      outside it nothing moves. */
  lemma ScrolledUpCell(s: seq<Char>, cols: nat, top: nat, bottom: nat, blank: Char, x: nat, y: nat)
    requires top < bottom && Line(cols, bottom) <= |s| && x < cols && Offset(cols, x, y) < |s|
    ensures y + 1 < bottom ==> Offset(cols, x, y + 1) < |s|
    ensures ScrolledUp(s, cols, top, bottom, blank)[Offset(cols, x, y)] ==
            if y < top || bottom <= y then s[Offset(cols, x, y)]
            else if y + 1 < bottom then s[Offset(cols, x, y + 1)] else blank
  {
    LineOf(cols, x, y, top);
    LineOf(cols, x, y, bottom);
    LineOf(cols, x, y, bottom - 1);
    LineOf(cols, x, y + 1, bottom);
    Consecutive(cols, y, y);
  }

  /** The same of a reverse scroll. */
  lemma ScrolledDownCell(s: seq<Char>, cols: nat, top: nat, bottom: nat, blank: Char, x: nat, y: nat)
    requires top < bottom && Line(cols, bottom) <= |s| && x < cols && Offset(cols, x, y) < |s|
    ensures ScrolledDown(s, cols, top, bottom, blank)[Offset(cols, x, y)] ==
            if y < top || bottom <= y then s[Offset(cols, x, y)]
            else if top < y then s[Offset(cols, x, y - 1)] else blank
  {
    LineOf(cols, x, y, top);
    LineOf(cols, x, y, bottom);
    LineOf(cols, x, y, top + 1);
    if y > 0 {
      Consecutive(cols, y - 1, y);
    }
  }

  lemma LineOf(cols: nat, x: nat, y: nat, l: nat)
    requires x < cols
    ensures Offset(cols, x, y) < Line(cols, l) <==> y < l
  {
    if y < l {
      InGrid(cols, l, x, y);
    } else {
      Rows(cols, l, y);
    }
  }

  // ---------------------------------------------------------------------------------
  // The overlay
  // ---------------------------------------------------------------------------------

  function Under(grid: seq<Char>, map': seq<Option<int>>, queue: seq<Item>, i: int): Char
    requires 0 <= i < |grid| == |map'|
  {
    if map'[i].Some? && 0 <= map'[i].value < |queue| then queue[map'[i].value].c else grid[i]
  }

  /** The screen the overlay stands for. */
  function Overlaid(grid: seq<Char>, map': seq<Option<int>>, queue: seq<Item>): (s: seq<Char>)
    requires |grid| == |map'|
    ensures |s| == |grid| && forall i | 0 <= i < |s| :: s[i] == Under(grid, map', queue, i)
  {
    seq(|grid|, i requires 0 <= i < |grid| => Under(grid, map', queue, i))
  }

  /** Each item below `n` is the one its cell's map entry points to, and no entry points elsewhere. */
  ghost predicate Queued(cols: nat, map': seq<Option<int>>, queue: seq<Item>, n: int) {
    && 0 <= n <= |queue|
    && (forall k | 0 <= k < n ::
          && queue[k].x < cols && Offset(cols, queue[k].x, queue[k].y) < |map'|
          && map'[Offset(cols, queue[k].x, queue[k].y)] == Some(k))
    && (forall i | 0 <= i < |map'| && map'[i].Some? ::
          0 <= map'[i].value < n && Offset(cols, queue[map'[i].value].x, queue[map'[i].value].y) == i)
  }

  function UpTo(n: nat): (s: set<int>)
    ensures |s| == n && forall i: int :: i in s <==> 0 <= i < n
  {
    if n == 0 then {} else UpTo(n - 1) + {n - 1}
  }

  lemma {:induction false} Pigeons(o: seq<int>, holes: set<int>)
    requires forall j, k | 0 <= j < k < |o| :: o[j] != o[k]
    requires forall k | 0 <= k < |o| :: o[k] in holes
    ensures |o| <= |holes|
  {
    if o != [] {
      forall k | 0 <= k < |o[1..]| ensures o[1..][k] in holes - {o[0]} {
        assert o[1..][k] == o[k + 1];
      }
      Pigeons(o[1..], holes - {o[0]});
    }
  }

  /** One item per cell: the queue is never longer than the grid, and has room while a cell has none. */
  lemma QueueFits(cols: nat, map': seq<Option<int>>, queue: seq<Item>, n: int)
    requires Queued(cols, map', queue, n)
    ensures n <= |map'|
    ensures forall i | 0 <= i < |map'| && map'[i].None? :: n < |map'|
  {
    hide Offset;
    var o := seq(n, k requires 0 <= k < n => Offset(cols, queue[k].x, queue[k].y));
    Pigeons(o, UpTo(|map'|));
    forall i | 0 <= i < |map'| && map'[i].None? ensures n < |map'| {
      Pigeons(o, UpTo(|map'|) - {i});
    }
  }

  lemma QueuedNew(cols: nat, map': seq<Option<int>>, queue: seq<Item>, n: int, e: Item)
    requires Queued(cols, map', queue, n) && n < |queue| && e.x < cols
    requires var o := Offset(cols, e.x, e.y); o < |map'| && map'[o].None?
    ensures Queued(cols, map'[Offset(cols, e.x, e.y) := Some(n)], queue[n := e], n + 1)
  {
    hide Offset;
  }

  lemma QueuedChange(cols: nat, map': seq<Option<int>>, queue: seq<Item>, n: int, k: nat, c: Char)
    requires Queued(cols, map', queue, n) && k < n
    ensures Queued(cols, map', queue[k := queue[k].(c := c)], n)
  {
    hide Offset;
  }

  /** A cell of the overlay changes, and no other. */
  lemma OverlaidNew(grid: seq<Char>, map': seq<Option<int>>, cols: nat, queue: seq<Item>, n: int, e: Item, o: int)
    requires |grid| == |map'| && Queued(cols, map', queue, n) && n < |queue| && 0 <= o < |map'| && map'[o].None?
    ensures Overlaid(grid, map'[o := Some(n)], queue[n := e]) == Overlaid(grid, map', queue)[o := e.c]
  {
    hide Offset;
  }

  lemma OverlaidChange(grid: seq<Char>, map': seq<Option<int>>, cols: nat, queue: seq<Item>, n: int, o: int, c: Char)
    requires |grid| == |map'| && Queued(cols, map', queue, n) && 0 <= o < |map'| && map'[o].Some?
    ensures 0 <= map'[o].value < |queue|
    ensures Overlaid(grid, map', queue[map'[o].value := queue[map'[o].value].(c := c)]) == Overlaid(grid, map', queue)[o := c]
  {
    hide Offset;
    var k := map'[o].value;
    var queue' := queue[k := queue[k].(c := c)];
    forall i | 0 <= i < |grid| ensures Overlaid(grid, map', queue')[i] == Overlaid(grid, map', queue)[o := c][i] {
      assert i != o && map'[i].Some? ==> map'[i].value != k;
    }
  }

  /** The i-th cell of the grid takes over its item. */
  lemma OverlaidFlush(grid: seq<Char>, map': seq<Option<int>>, queue: seq<Item>, o: int)
    requires |grid| == |map'| && 0 <= o < |map'| && map'[o].Some? && 0 <= map'[o].value < |queue|
    ensures Overlaid(grid[o := queue[map'[o].value].c], map'[o := None], queue) == Overlaid(grid, map', queue)
  {}

  lemma OverlaidBare(grid: seq<Char>, map': seq<Option<int>>, queue: seq<Item>)
    requires |grid| == |map'| && forall i | 0 <= i < |map'| :: map'[i].None?
    ensures Overlaid(grid, map', queue) == grid
  {}

  // ---------------------------------------------------------------------------------
  // Flushing
  // ---------------------------------------------------------------------------------

  /** The items from `j` on are the only ones still pending. */
  ghost predicate Pending(cols: nat, rows: nat, map': seq<Option<int>>, queue: seq<Item>, j: int, n: int) {
    && 0 <= j <= n <= |queue|
    && (forall i | 0 <= i < |map'| && map'[i].Some? ::
          j <= map'[i].value < n && Offset(cols, queue[map'[i].value].x, queue[map'[i].value].y) == i)
    && (forall k | 0 <= k < n :: queue[k].x < cols && queue[k].y < rows && Offset(cols, queue[k].x, queue[k].y) < |map'|)
    && (forall j, k | 0 <= j < k < n ::
          Offset(cols, queue[j].x, queue[j].y) != Offset(cols, queue[k].x, queue[k].y))
  }

  lemma PendingFirst(cols: nat, rows: nat, map': seq<Option<int>>, queue: seq<Item>, n: int)
    requires Queued(cols, map', queue, n) && |map'| == rows * cols
    ensures Pending(cols, rows, map', queue, 0, n)
  {
    forall k | 0 <= k < n ensures queue[k].y < rows {
      if queue[k].y >= rows {
        Rows(cols, rows, queue[k].y);
      }
    }
    hide Offset;
  }

  lemma PendingBut(cols: nat, rows: nat, map': seq<Option<int>>, queue: seq<Item>, j: int, n: int, o: int)
    requires Pending(cols, rows, map', queue, j, n) && 0 <= o < |map'|
    ensures Pending(cols, rows, map'[o := None], queue, j, n)
  {
    hide Offset;
  }

  /** The j-th item's cell is pending on account of that item or not at all. */
  lemma PendingNext(cols: nat, rows: nat, map': seq<Option<int>>, queue: seq<Item>, j: int, n: int)
    requires Pending(cols, rows, map', queue, j, n) && j < n
    ensures var o := Offset(cols, queue[j].x, queue[j].y);
            && o < |map'| && queue[j].x < cols && queue[j].y < rows && (map'[o].Some? ==> map'[o] == Some(j))
            && Pending(cols, rows, map'[o := None], queue, j + 1, n)
  {
    hide Offset;
  }

  lemma PendingNone(cols: nat, rows: nat, map': seq<Option<int>>, queue: seq<Item>, n: int)
    requires Pending(cols, rows, map', queue, n, n)
    ensures forall i | 0 <= i < |map'| :: map'[i].None?
    ensures Queued(cols, map', queue, 0)
  {}

  predicate SameColours(c: Char, d: Char) { c.fg == d.fg && c.bg == d.bg }

  /** Away from two cells, a cell shows what the grid says or will change colours. */
  ghost predicate Faithful(screen: seq<Pixels>, grid: seq<Char>, logical: seq<Char>, skip: int, also: int) {
    && |screen| == |grid| == |logical|
    && forall i | 0 <= i < |grid| && i != skip && i != also ::
         screen[i] == Drawn(grid[i]) || !SameColours(logical[i], grid[i])
  }

  lemma FaithfulSkip(screen: seq<Pixels>, grid: seq<Char>, logical: seq<Char>, skip: int, screen': seq<Pixels>, grid': seq<Char>, o: int)
    requires Faithful(screen, grid, logical, skip, -1) && 0 <= o < |grid| && |screen'| == |screen|
    requires grid' == grid[o := logical[o]] && forall i | 0 <= i < |grid| && i != o :: screen'[i] == screen[i]
    ensures Faithful(screen', grid', logical, skip, o)
  {}

  /** A cell that takes over its item is drawn as it now reads. */
  lemma FaithfulFlush(screen: seq<Pixels>, grid: seq<Char>, logical: seq<Char>, skip: int, also: int,
      screen': seq<Pixels>, grid': seq<Char>, o: int)
    requires Faithful(screen, grid, logical, skip, also) && 0 <= o < |grid| && |screen'| == |screen|
    requires grid' == grid[o := logical[o]] && forall i | 0 <= i < |grid| && i != o :: screen'[i] == screen[i]
    requires || (grid[o] == logical[o] && screen'[o] == screen[o])
             || (screen[o] == Drawn(grid[o]) || !SameColours(logical[o], grid[o]) ==> screen'[o] == Drawn(logical[o]))
    ensures Faithful(screen', grid', logical, skip, also)
  {}

  /** What the last plot leaves of the framebuffer. */
  lemma FlushPaints(before: seq<Pixels>, after: seq<Pixels>, grid: seq<Char>, skip: int, o: int, on: bool)
    requires Faithful(before, grid, grid, skip, if on then o else -1) && 0 <= o < |grid| && 0 <= skip < |grid|
    requires on ==> before[o] == Drawn(Char(grid[o].c, grid[o].bg, grid[o].fg))
    requires after == if skip != o || !on then before[skip := Drawn(grid[skip])] else before
    ensures forall i | 0 <= i < |grid| && i != o :: after[i] == Drawn(grid[i])
    ensures after[o] == Drawn(if on then Char(grid[o].c, grid[o].bg, grid[o].fg) else grid[o])
    ensures Faithful(after, grid, grid, o, -1)
  {}

  class Terminal {
    const cols: nat
    const rows: nat
    const grid: array<Char>
    const items: array<Item>               // the queue
    const cell: array<Option<int>>         // the map
    const screen: array<Pixels>            // the framebuffer, cell by cell
    var count: int                         // queue_i
    var cursorX: nat
    var cursorY: nat
    var cursorOn: bool
    var oldX: nat
    var oldY: nat
    var fg: int
    var bg: int
    var scrolls: bool
    var top: nat
    var bottom: nat

    ghost predicate Valid()
      reads this, grid, items, cell, screen
    {
      && grid.Length == items.Length == cell.Length == screen.Length == rows * cols
      && Queued(cols, cell[..], items[..], count)
    }

    ghost function Logical(): (s: seq<Char>)
      requires Valid()
      reads this, grid, items, cell, screen
      ensures |s| == rows * cols
    {
      Overlaid(grid[..], cell[..], items[..])
    }

    /** `push_to_queue`. Only a cell without an item that shows another character gets a new one. */
    method PushToQueue(c: Char, x: nat, y: nat)
      requires Valid()
      modifies `count, items, cell
      ensures Valid()
      ensures if x >= cols || y >= rows then Logical() == old(Logical())
              else Offset(cols, x, y) < rows * cols && Logical() == old(Logical())[Offset(cols, x, y) := c]
      ensures if x >= cols || y >= rows then count == old(count)
              else
                var i := Offset(cols, x, y);
                i < rows * cols && count == old(count) + if old(cell[i]).None? && grid[i] != c then 1 else 0
    {
      if x >= cols || y >= rows {
        return;
      }
      InGrid(cols, rows, x, y);
      hide Queued, Offset;
      var i := y * cols + x;
      assert i == Offset(cols, x, y) by { OffsetIs(cols, x, y); }
      ghost var m, q := cell[..], items[..];
      if cell[i].None? {
        if grid[i] == c {
          assert Logical()[i] == c;
          return;
        }
        QueueFits(cols, m, q, count);
        var e := Item(x, y, c);
        CountOk(cols, m, q, count);
        QueuedNew(cols, m, q, count, e);
        OverlaidNew(grid[..], m, cols, q, count, e, i);
        items[count] := e;
        cell[i] := Some(count);
        assert cell[..] == m[i := Some(count)] && items[..] == q[count := e];
        count := count + 1;
      } else {
        OverlaidChange(grid[..], m, cols, q, count, i, c);
        EntryOk(cols, m, q, count, i);
        var k := cell[i].value;
        QueuedChange(cols, m, q, count, k, c);
        items[k] := items[k].(c := c);
        assert items[..] == q[k := q[k].(c := c)];
      }
    }

    /** `push_to_queue` for the i-th cell, as the loops call it. */
    method PushCell(c: Char, i: int)
      requires Valid() && 0 <= i < rows * cols
      modifies `count, items, cell
      ensures Valid() && Logical() == old(Logical())[i := c]
    {
      hide *;
      CellOf(cols, rows, i);
      PushToQueue(c, i % cols, i / cols);
    }

    /** What a cell stands for: its item if it has one, else the grid. */
    function Shown(i: int): (c: Char)
      requires Valid() && 0 <= i < rows * cols
      reads this, grid, items, cell, screen
      ensures c == Logical()[i]
    {
      EntriesOk(cols, cell[..], items[..], count);
      if cell[i].Some? then items[cell[i].value].c else grid[i]
    }

    /** `gterm_move_character`. */
    method MoveCharacter(newX: nat, newY: nat, fromX: nat, fromY: nat)
      requires Valid()
      modifies `count, items, cell
      ensures Valid()
      ensures if fromX >= cols || fromY >= rows || newX >= cols || newY >= rows then Logical() == old(Logical())
              else
                && Offset(cols, newX, newY) < rows * cols && Offset(cols, fromX, fromY) < rows * cols
                && Logical() == old(Logical())[Offset(cols, newX, newY) := old(Logical())[Offset(cols, fromX, fromY)]]
    {
      if fromX >= cols || fromY >= rows || newX >= cols || newY >= rows {
        return;
      }
      InGrid(cols, rows, fromX, fromY);
      hide Queued;
      var c := Shown(fromX + fromY * cols);
      PushToQueue(c, newX, newY);
    }

    function Blank(): Char
      reads this
    {
      Char(32, fg, bg)
    }

    lemma BlankIs()
      ensures Blank() == Char(32, fg, bg)
    {}

    /** `gterm_clear`. */
    method Clear(move: bool)
      requires Valid()
      modifies `count, `cursorX, `cursorY, items, cell
      ensures Valid() && forall i | 0 <= i < rows * cols :: Logical()[i] == Char(32, fg, bg)
      ensures cursorX == (if move then 0 else old(cursorX)) && cursorY == (if move then 0 else old(cursorY))
    {
      hide Queued, Offset;
      var i: nat := 0;
      while i < rows * cols
        invariant i <= rows * cols && Valid()
        invariant forall k | 0 <= k < i :: Logical()[k] == Blank()
        modifies `count, items, cell
      {
        PushCell(Blank(), i);
        i := i + 1;
      }
      BlankIs();
      ghost var s := Logical();
      assert forall k | 0 <= k < rows * cols :: s[k] == Char(32, fg, bg);
      if move {
        cursorX, cursorY := 0, 0;
      }
    }

    /** The loop that blanks cells, in `gterm_scroll` and `gterm_revscroll`. */
    method BlankCells(lo: int, hi: int)
      requires Valid() && 0 <= lo <= hi <= rows * cols
      modifies `count, items, cell
      ensures Valid() && Blanked(Logical(), old(Logical()), lo, hi, Blank())
    {
      hide Queued, Offset;
      var i := lo;
      while i < hi
        invariant lo <= i <= hi && Valid()
        invariant Blanked(Logical(), old(Logical()), lo, i, Blank())
        modifies `count, items, cell
      {
        PushCell(Blank(), i);
        i := i + 1;
      }
    }

    /** The ascending loop of `gterm_scroll`: each cell is read before it is written. */
    method CellsUp(lo: int, hi: int)
      requires Valid() && 0 <= lo && lo + cols <= hi <= rows * cols
      modifies `count, items, cell
      ensures Valid() && MovedUp(Logical(), old(Logical()), cols, lo, hi - cols)
    {
      assert MovedUp(Logical(), Logical(), cols, lo, lo);
      hide Queued, Offset, MovedUp;
      var i := lo + cols;
      while i < hi
        invariant lo + cols <= i <= hi && Valid() && MovedUp(Logical(), old(Logical()), cols, lo, i - cols)
        modifies `count, items, cell
      {
        var c := Shown(i);
        MovedUpStep(Logical(), old(Logical()), cols, lo, i);
        PushCell(c, i - cols);
        i := i + 1;
      }
    }

    /** `gterm_scroll`. */
    method Scroll()
      requires Valid() && top < bottom <= rows
      modifies `count, items, cell
      ensures Valid() && Line(cols, bottom) <= |old(Logical())|
      ensures Logical() == ScrolledUp(old(Logical()), cols, top, bottom, Char(32, fg, bg))
    {
      hide *;
      LinesIn(cols, bottom, rows);
      Consecutive(cols, top, bottom - 1);
      Consecutive(cols, bottom - 1, bottom);
      ghost var s := Logical();
      CellsUp(Line(cols, top), Line(cols, bottom));
      ghost var u := Logical();
      BlankCells(Line(cols, bottom - 1), Line(cols, bottom));
      ScrollUpIs(s, u, Logical(), cols, top, bottom, Blank());
      BlankIs();
    }

    /** Where the descending loop of `gterm_revscroll` starts and where it stops: it never meets its stop
        in a region of one line. */
    lemma RevScrollStops()
      requires top < bottom && cols > 0
      ensures Line(cols, bottom - 1) - 1 >= Line(cols, top) <==> top + 1 < bottom
    {
      if top + 1 < bottom {
        Consecutive(cols, top, bottom - 1);
        Consecutive(cols, top + 1, bottom - 1);
      }
    }

    /** The descending loop of `gterm_revscroll`, whose index wraps below 0. It is abandoned (`ok` is false)
        where the code reads outside the map: exactly when it starts before its stop. */
    method CellsDown(start: int, lo: int) returns (ok: bool)
      requires Valid() && -1 <= start && start + cols < rows * cols < WORD && 0 <= lo
      modifies `count, items, cell
      ensures Valid() && (ok <==> lo <= start)
      ensures ok ==> MovedDown(Logical(), old(Logical()), cols, lo + cols, start + 1 + cols)
    {
      assert MovedDown(Logical(), Logical(), cols, start + 1 + cols, start + 1 + cols);
      hide Queued, Offset, MovedDown;
      var i := if start == -1 then WORD - 1 else start;
      while true
        invariant Valid() && (0 <= i <= start || (i == WORD - 1 && start < lo))
        invariant lo <= start ==> lo <= i && MovedDown(Logical(), old(Logical()), cols, i + 1 + cols, start + 1 + cols)
        modifies `count, items, cell
        decreases if i == WORD - 1 then 0 else i + 1
      {
        if i >= rows * cols {
          return false;
        }
        var c := Shown(i);
        if lo <= start {
          MovedDownStep(Logical(), old(Logical()), cols, i, start + 1 + cols);
        }
        PushCell(c, i + cols);
        if i == lo {
          return true;
        }
        i := if i == 0 then WORD - 1 else i - 1;
      }
    }

    /** `gterm_revscroll`. In a region of one line the loop runs past the start of the grid and reads
        outside the map; in any other it scrolls the region down. */
    method RevScroll() returns (inBounds: bool)
      requires Valid() && top < bottom <= rows && cols > 0 && rows * cols < WORD
      modifies `count, items, cell
      ensures Valid() && Line(cols, bottom) <= |old(Logical())|
      ensures inBounds <==> top + 1 < bottom
      ensures inBounds ==> Logical() == ScrolledDown(old(Logical()), cols, top, bottom, Char(32, fg, bg))
    {
      hide *;
      RevScrollStops();
      LinesIn(cols, bottom, rows);
      Consecutive(cols, bottom - 1, bottom);
      Consecutive(cols, top, bottom);
      ghost var s := Logical();
      inBounds := CellsDown(Line(cols, bottom - 1) - 1, Line(cols, top));
      if !inBounds {
        return;
      }
      ghost var u := Logical();
      Consecutive(cols, top + 1, bottom);
      BlankCells(Line(cols, top), Line(cols, top + 1));
      ScrollDownIs(s, u, Logical(), cols, top, bottom, Blank());
      BlankIs();
    }

    /** `gterm_putchar`, wherever the cursor is. A cursor on the line below the region is pulled up and the
        region scrolls with every character. */
    method PutChar(c: int)
      requires Valid() && top < bottom <= rows
      modifies `count, `cursorX, `cursorY, items, cell
      ensures Valid() && Line(cols, bottom) <= |old(Logical())|
      ensures var x, y := old(cursorX), old(cursorY);
              var wraps := x + 1 == cols && (y < bottom - 1 || scrolls);
              var y' := if wraps then y + 1 else y;
              && cursorX == (if wraps then 0 else x + 1)
              && cursorY == (if y' == bottom then y' - 1 else y')
              && var put := if x < cols && y < rows
                            then (InGrid(cols, rows, x, y); old(Logical())[Offset(cols, x, y) := Char(c, fg, bg)])
                            else old(Logical());
                 Logical() == if y' == bottom then ScrolledUp(put, cols, top, bottom, Char(32, fg, bg)) else put
    {
      hide Queued, Offset, ScrolledUp, Line;
      LinesIn(cols, bottom, rows);
      if cursorX < cols && cursorY < rows {
        InGrid(cols, rows, cursorX, cursorY);
      }
      PushToQueue(Char(c, fg, bg), cursorX, cursorY);
      cursorX := cursorX + 1;
      if cursorX == cols && (cursorY < bottom - 1 || scrolls) {
        cursorX := 0;
        cursorY := cursorY + 1;
      }
      if cursorY == bottom {
        cursorY := cursorY - 1;
        Scroll();
      }
    }

    function Inverted(c: Char): Char { Char(c.c, c.bg, c.fg) }

    /** `plot_char`, on whole cells. */
    method PlotChar(c: Char, x: nat, y: nat)
      requires screen.Length == rows * cols
      modifies screen
      ensures if x >= cols || y >= rows then screen[..] == old(screen[..])
              else Offset(cols, x, y) < rows * cols && screen[..] == old(screen[..])[Offset(cols, x, y) := Drawn(c)]
    {
      if x >= cols || y >= rows {
        return;
      }
      InGrid(cols, rows, x, y);
      screen[y * cols + x] := Drawn(c);
    }

    /** `plot_char_fast`: draws only the pixels in which two characters of the same colours differ. */
    method PlotCharFast(before: Char, c: Char, x: nat, y: nat)
      requires screen.Length == rows * cols && x < cols && y < rows && Offset(cols, x, y) < rows * cols
      modifies screen
      ensures var o := Offset(cols, x, y);
              screen[..] == old(screen[..])[o := if before == c then old(screen[o]) else if old(screen[o]) == Drawn(before) then Drawn(c) else Mixed]
    {
      var o := y * cols + x;
      if before != c {
        screen[o] := if screen[o] == Drawn(before) then Drawn(c) else Mixed;
      }
    }

    /** Whether the code's use of the cursor's cell is in bounds. */
    predicate CursorInGrid()
      reads `cursorX, `cursorY
    {
      Offset(cols, cursorX, cursorY) < rows * cols
    }

    /** `draw_cursor`: a pending change of the cursor's cell goes to the grid at once. */
    method DrawCursor()
      requires Valid() && CursorInGrid()
      modifies grid, cell, screen
      ensures Overlaid(grid[..], cell[..], items[..]) == old(Logical())
      ensures var o := Offset(cols, cursorX, cursorY);
              && cell[..] == old(cell[..])[o := None] && grid[..] == old(grid[..])[o := old(Logical())[o]]
              && screen[..] == if cursorX < cols && cursorY < rows then old(screen[..])[o := Drawn(Char(grid[o].c, grid[o].bg, grid[o].fg))] else old(screen[..])
    {
      hide Queued;
      var i: nat := cursorX + cursorY * cols;
      assert i == Offset(cols, cursorX, cursorY);
      var c := Shown(i);
      hide Offset;
      ghost var g, m := grid[..], cell[..];
      PlotChar(Inverted(c), cursorX, cursorY);
      if cell[i].Some? {
        EntryOk(cols, m, items[..], count, i);
        OverlaidFlush(g, m, items[..], i);
        grid[i] := items[cell[i].value].c;
        cell[i] := None;
      }
      assert grid[..] == g[i := c] && cell[..] == m[i := None];
    }

    /** One pass of the loop of `gterm_double_buffer_flush`. */
    method FlushItem(j: int)
      requires grid.Length == items.Length == cell.Length == screen.Length == rows * cols
      requires Pending(cols, rows, cell[..], items[..], j, count) && j < count
      modifies grid, cell, screen
      ensures var o := Offset(cols, items[j].x, items[j].y);
              && o < rows * cols
              && grid[..] == old(grid[..])[o := old(Under(grid[..], cell[..], items[..], o))]
              && cell[..] == old(cell[..])[o := None]
              && (forall i | 0 <= i < rows * cols && i != o :: screen[i] == old(screen[i]))
              && (if old(cell[o]).None? then screen[o] == old(screen[o])
                  else old(screen[o]) == Drawn(old(grid[o])) || !SameColours(items[j].c, old(grid[o])) ==> screen[o] == Drawn(items[j].c))
    {
      PendingNext(cols, rows, cell[..], items[..], j, count);
      var q := items[j];
      var o := q.y * cols + q.x;
      assert o == Offset(cols, q.x, q.y);
      hide Offset, Pending;
      ghost var g, m := grid[..], cell[..];
      if cell[o].None? {
        assert grid[..] == g[o := g[o]] && cell[..] == m[o := None];
        return;
      }
      if q.c.bg == grid[o].bg && q.c.fg == grid[o].fg {
        PlotCharFast(grid[o], q.c, q.x, q.y);
      } else {
        PlotChar(q.c, q.x, q.y);
      }
      grid[o] := q.c;
      cell[o] := None;
      assert grid[..] == g[o := q.c] && cell[..] == m[o := None];
    }

    /** The framebuffer is up to date but for pending changes of colour, and for the cell the cursor was drawn in. */
    ghost predicate Paintable()
      requires Valid()
      reads this, grid, items, cell, screen
    {
      oldX < cols && oldY < rows && Faithful(screen[..], grid[..], Logical(), Offset(cols, oldX, oldY), -1)
    }

    /** The pass over the queue. `on` is the cell the cursor has just been drawn in, or -1. */
    method FlushItems(ghost logical: seq<Char>, ghost skip: int, ghost on: int)
      requires grid.Length == items.Length == cell.Length == screen.Length == rows * cols
      requires Pending(cols, rows, cell[..], items[..], 0, count) && Overlaid(grid[..], cell[..], items[..]) == logical
      requires -1 <= on < rows * cols && (on >= 0 ==> cell[on].None?)
      modifies grid, cell, screen
      ensures grid[..] == logical && forall i | 0 <= i < rows * cols :: cell[i].None?
      ensures Queued(cols, cell[..], items[..], 0)
      ensures on >= 0 ==> screen[on] == old(screen[on])
      ensures old(Faithful(screen[..], grid[..], logical, skip, on)) ==> Faithful(screen[..], grid[..], logical, skip, on)
    {
      assert 0 <= count;
      hide Offset, Pending, Queued, Faithful;
      var j := 0;
      while j < count
        invariant 0 <= j <= count && Pending(cols, rows, cell[..], items[..], j, count)
        invariant Overlaid(grid[..], cell[..], items[..]) == logical
        invariant on >= 0 ==> cell[on].None? && screen[on] == old(screen[on])
        invariant old(Faithful(screen[..], grid[..], logical, skip, on)) ==> Faithful(screen[..], grid[..], logical, skip, on)
        modifies grid, cell, screen
      {
        PassOne(j, logical, skip, on);
        j := j + 1;
      }
      PendingNone(cols, rows, cell[..], items[..], count);
      OverlaidBare(grid[..], cell[..], items[..]);
      assert forall i | 0 <= i < rows * cols :: cell[i] == cell[..][i];
    }

    /** One item, and what it keeps. */
    method PassOne(j: int, ghost logical: seq<Char>, ghost skip: int, ghost on: int)
      requires grid.Length == items.Length == cell.Length == screen.Length == rows * cols && j < count
      requires Pending(cols, rows, cell[..], items[..], j, count) && Overlaid(grid[..], cell[..], items[..]) == logical
      requires -1 <= on < rows * cols && (on >= 0 ==> cell[on].None?)
      modifies grid, cell, screen
      ensures Pending(cols, rows, cell[..], items[..], j + 1, count) && Overlaid(grid[..], cell[..], items[..]) == logical
      ensures on >= 0 ==> cell[on].None? && screen[on] == old(screen[on])
      ensures old(Faithful(screen[..], grid[..], logical, skip, on)) ==> Faithful(screen[..], grid[..], logical, skip, on)
    {
      ghost var g, m, p := grid[..], cell[..], screen[..];
      ghost var o := Offset(cols, items[j].x, items[j].y);
      assert o < rows * cols;
      PendingNext(cols, rows, m, items[..], j, count);
      hide Offset, Pending, Faithful;
      assert m[o].Some? ==> items[j].c == logical[o];
      if cell[o].Some? {
        OverlaidFlush(g, m, items[..], o);
      }
      FlushItem(j);
      assert grid[..] == g[o := logical[o]];
      if Faithful(p, g, logical, skip, on) {
        FaithfulFlush(p, g, logical, skip, on, screen[..], grid[..], o);
      }
    }

    /** The flush up to its loop: the cursor's cell goes first. */
    method FlushCursor() returns (ghost on: int)
      requires Valid() && (cursorOn ==> CursorInGrid())
      modifies grid, cell, screen
      ensures Pending(cols, rows, cell[..], items[..], 0, count)
      ensures Overlaid(grid[..], cell[..], items[..]) == old(Logical())
      ensures on == if cursorOn then Offset(cols, cursorX, cursorY) else -1
      ensures cursorOn ==> on < rows * cols && cell[on].None?
      ensures cursorOn && cursorX < cols && cursorY < rows ==>
                var c := old(Logical())[on]; screen[on] == Drawn(Char(c.c, c.bg, c.fg))
      ensures forall skip: int :: old(Faithful(screen[..], grid[..], Logical(), skip, -1)) ==>
                                    Faithful(screen[..], grid[..], old(Logical()), skip, on)
    {
      PendingFirst(cols, rows, cell[..], items[..], count);
      hide Offset, Pending, Queued, Faithful;
      on := -1;
      if cursorOn {
        ghost var g, m, p, s := grid[..], cell[..], screen[..], Logical();
        on := Offset(cols, cursorX, cursorY);
        DrawCursor();
        PendingBut(cols, rows, m, items[..], 0, count, on);
        forall skip: int | Faithful(p, g, s, skip, -1) ensures Faithful(screen[..], grid[..], s, skip, on) {
          FaithfulSkip(p, g, s, skip, screen[..], grid[..], on);
        }
      }
    }

    /** `gterm_double_buffer_flush`: the grid becomes the logical screen and the overlay is empty. With both
        cursors inside the grid every cell of the framebuffer shows its character, the cursor's inverted. */
    method Flush()
      requires Valid() && (cursorOn ==> CursorInGrid()) && Offset(cols, oldX, oldY) < rows * cols
      modifies `count, `oldX, `oldY, grid, cell, screen
      ensures Valid() && count == 0 && (forall i | 0 <= i < rows * cols :: cell[i].None?)
      ensures grid[..] == old(Logical()) && Logical() == old(Logical())
      ensures oldX == cursorX && oldY == cursorY
      ensures old(Paintable()) && cursorX < cols && cursorY < rows ==>
                && Paintable()
                && (forall i | 0 <= i < rows * cols && i != Offset(cols, cursorX, cursorY) :: screen[i] == Drawn(grid[i]))
                && CursorInGrid()
                && var o := Offset(cols, cursorX, cursorY);
                   screen[o] == Drawn(if cursorOn then Char(grid[o].c, grid[o].bg, grid[o].fg) else grid[o])
    {
      hide Offset, Pending, Queued, Faithful;
      ghost var s, skip := Logical(), Offset(cols, oldX, oldY);
      ghost var good := Paintable() && cursorX < cols && cursorY < rows;
      if cursorX < cols && cursorY < rows {
        InGrid(cols, rows, cursorX, cursorY);
      }
      ghost var on := FlushCursor();
      FlushItems(s, skip, on);
      ghost var p := screen[..];
      RestoreOld();
      hide Valid, Paintable, Logical, Overlaid;
      if good {
        if (oldX, oldY) != (cursorX, cursorY) {
          OffsetsDiffer(cols, oldX, oldY, cursorX, cursorY);
        }
        FlushPaints(p, screen[..], grid[..], skip, Offset(cols, cursorX, cursorY), cursorOn);
      }
      oldX, oldY := cursorX, cursorY;
      count := 0;
      OverlaidBare(grid[..], cell[..], items[..]);
    }

    /** The cell the cursor was drawn in last time is drawn again, if the cursor has moved or is off. */
    method RestoreOld()
      requires grid.Length == screen.Length == rows * cols && Offset(cols, oldX, oldY) < rows * cols
      modifies screen
      ensures var o := Offset(cols, oldX, oldY);
              screen[..] == if (oldX != cursorX || oldY != cursorY || !cursorOn) && oldX < cols && oldY < rows
                            then old(screen[..])[o := Drawn(grid[..][o])] else old(screen[..])
    {
      hide Offset;
      if oldX != cursorX || oldY != cursorY || !cursorOn {
        PlotChar(grid[OldIndex()], oldX, oldY);
      }
    }

    function OldIndex(): (i: int)
      reads `oldX, `oldY
      ensures i == Offset(cols, oldX, oldY)
    {
      oldX + oldY * cols
    }

    /** `gterm_init`: zeroed cells, everything cleared and flushed. */
    constructor (columns: nat, lines: nat, foreground: int)
      requires columns > 0 && lines > 0
      ensures Valid() && cols == columns && rows == lines && top == 0 && bottom == rows && scrolls && cursorOn
      ensures count == 0 && cursorX == cursorY == 0 && Paintable()
      ensures forall i | 0 <= i < rows * cols :: grid[i] == Char(32, foreground, 0xFFFFFFFF)
      ensures forall i | 1 <= i < rows * cols :: screen[i] == Drawn(grid[i])
    {
      cols, rows := columns, lines;
      grid := new Char[lines * columns](i => Char(0, 0, 0));
      items := new Item[lines * columns](i => Item(0, 0, Char(0, 0, 0)));
      cell := new Option<int>[lines * columns](i => None);
      screen := new Pixels[lines * columns](i => Mixed);
      count, cursorX, cursorY, oldX, oldY, cursorOn := 0, 0, 0, 0, 0, true;
      fg, bg, scrolls, top, bottom := foreground, 0xFFFFFFFF, true, 0, lines;
      new;
      assert Valid();
      hide *;
      FirstPaint();
    }

    /** The end of `gterm_init`. */
    method FirstPaint()
      requires Valid() && cols > 0 && rows > 0 && cursorOn && oldX == oldY == 0 && bg != 0
      requires forall i | 0 <= i < rows * cols :: grid[i] == Char(0, 0, 0)
      modifies `count, `cursorX, `cursorY, `oldX, `oldY, grid, items, cell, screen
      ensures Valid() && count == 0 && cursorX == cursorY == 0 && Paintable()
      ensures forall i | 0 <= i < rows * cols :: grid[i] == Char(32, fg, bg)
      ensures forall i | 1 <= i < rows * cols :: screen[i] == Drawn(grid[i])
    {
      InGrid(cols, rows, 0, 0);
      assert Offset(cols, 0, 0) == 0;
      hide Offset, Queued;
      Clear(true);
      ghost var s := Logical();
      assert forall i | 0 <= i < rows * cols :: !SameColours(s[i], grid[..][i]);
      assert Paintable();
      assert forall i | 0 <= i < rows * cols :: s[i] == Char(32, fg, bg);
      hide Paintable, Valid, Logical;
      Flush();
      assert forall i | 0 <= i < rows * cols :: grid[..][i] == grid[i];
    }

    /** Exactly when a character takes a cursor out of the grid: when it fills the last cell of the last
        line and nothing scrolls that line, either because scrolling is off (and the line is not the one
        right below the region) or because the region ends above it. The code's next look at the cursor's
        cell is then out of bounds. */
    method PutCharAtCursor(c: int)
      requires Valid() && top < bottom <= rows && cursorX < cols && cursorY < rows
      modifies `count, `cursorX, `cursorY, items, cell
      ensures Valid()
      ensures !CursorInGrid() <==>
                old(cursorX) + 1 == cols && old(cursorY) + 1 == rows && (if scrolls then bottom < rows else old(cursorY) != bottom)
    {
      ghost var x, y := cursorX, cursorY;
      hide Valid, Logical, ScrolledUp;
      PutChar(c);
      if cursorX < cols && cursorY < rows {
        InGrid(cols, rows, cursorX, cursorY);
      } else {
        Rows(cols, cursorY, rows);
        assert Offset(cols, cursorX, cursorY) == cursorY * cols + cursorX;
        if cursorX == cols {
          Rows(cols, cursorY, rows);
          assert Offset(cols, cols, cursorY) == (cursorY + 1) * cols;
          if cursorY + 1 < rows {
            InGrid(cols, rows, 0, cursorY + 1);
          }
        }
      }
    }

    /** With scrolling on and a region that ends above the last line, a character at the end of the last
        line takes the cursor out of the grid: no flush with the cursor shown is possible then. */
    method EscapesBelowRegion(c: int)
      requires Valid() && top < bottom < rows && cursorX + 1 == cols && cursorY + 1 == rows && scrolls
      modifies `count, `cursorX, `cursorY, items, cell
      ensures Valid() && cursorX == 0 && cursorY == rows && !CursorInGrid()
    {
      hide Valid, Logical, ScrolledUp;
      PutChar(c);
    }
  }

  lemma OffsetIs(cols: nat, x: nat, y: nat)
    ensures Offset(cols, x, y) == y * cols + x
  {}

  lemma CountOk(cols: nat, map': seq<Option<int>>, queue: seq<Item>, n: int)
    requires Queued(cols, map', queue, n)
    ensures 0 <= n <= |queue|
  {}

  lemma EntriesOk(cols: nat, map': seq<Option<int>>, queue: seq<Item>, n: int)
    requires Queued(cols, map', queue, n)
    ensures forall i | 0 <= i < |map'| && map'[i].Some? :: 0 <= map'[i].value < n <= |queue|
  {}

  lemma EntryOk(cols: nat, map': seq<Option<int>>, queue: seq<Item>, n: int, i: int)
    requires Queued(cols, map', queue, n) && 0 <= i < |map'| && map'[i].Some?
    ensures 0 <= map'[i].value < n <= |queue|
  {}
}
