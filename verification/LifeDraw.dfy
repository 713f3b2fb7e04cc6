/** Drawing a Life board with one box for each run of live cells. */
module LifeDraw {
  import opened Torus
  import opened LifeRows

  datatype Run = Run(first: nat, end: nat)

  datatype Box = Box(x: int, y: int, w: int, h: int)

  predicate Holds(r: Run, x: int) { r.first <= x < r.end }

  /** A longest run of set bits. */
  ghost predicate IsRun(row: nat, r: Run, w: nat) {
    && r.first < r.end <= w
    && (forall x: nat :: Holds(r, x) ==> Bit(row, x))
    && (r.first > 0 ==> !Bit(row, r.first - 1))
    && (r.end < w ==> !Bit(row, r.end))
  }

  /** The runs that have ended before column n. */
  ghost predicate Ended(runs: seq<Run>, row: nat, n: nat, w: nat) {
    && (forall i :: 0 <= i < |runs| ==> IsRun(row, runs[i], w) && runs[i].end <= n)
    && (forall i, j :: 0 <= i < j < |runs| ==> runs[i].end < runs[j].first)
  }

  ghost predicate Covers(runs: seq<Run>, row: nat, n: nat) {
    forall x: nat :: x < n && Bit(row, x) ==> exists i :: 0 <= i < |runs| && Holds(runs[i], x)
  }

  lemma AddRun(runs: seq<Run>, row: nat, r: Run, n: nat, w: nat)
    requires Ended(runs, row, r.first, w) && Covers(runs, row, r.first) && IsRun(row, r, w) && r.end <= n
    requires r.end == n || (r.end + 1 == n && !Bit(row, r.end))
    requires forall i :: 0 <= i < |runs| ==> runs[i].end < r.first || r.first == 0
    ensures Ended(runs + [r], row, n, w) && Covers(runs + [r], row, n)
  {
    hide Bit;
    var more := runs + [r];
    forall x: nat | x < n && Bit(row, x) ensures exists i :: 0 <= i < |more| && Holds(more[i], x) {
      if x < r.first {
        var i :| 0 <= i < |runs| && Holds(runs[i], x);
        assert Holds(more[i], x);
      } else {
        assert Holds(more[|runs|], x);
      }
    }
    forall i, j | 0 <= i < j < |more| ensures more[i].end < more[j].first {
      if j == |runs| { assert IsRun(row, runs[i], w); }
    }
  }

  /** Exactly the longest runs of the row, from left to right. */
  method RowRuns(row: nat, w: nat) returns (runs: seq<Run>)
    requires Fits(row, w)
    ensures Ended(runs, row, w, w) && Covers(runs, row, w)
  {
    hide Bit;
    runs := [];
    if row == 0 {
      NoBits(w);
      return;
    }
    var run := -1;
    var x := 0;
    while x < w
      invariant x <= w && -1 <= run < x
      invariant run < 0 ==> Ended(runs, row, x, w) && Covers(runs, row, x) && (x > 0 ==> !Bit(row, x - 1))
      invariant run >= 0 ==> Open(runs, row, run, x, w)
    {
      if Bit(row, x) {
        if run < 0 {
          run := x;
          StartRun(runs, row, x, w);
        }
      } else if run >= 0 {
        AddRun(runs, row, Run(run, x), x + 1, w);
        runs := runs + [Run(run, x)];
        run := -1;
      }
      x := x + 1;
    }
    if run >= 0 {
      AddRun(runs, row, Run(run, w), w, w);
      runs := runs + [Run(run, w)];
    }
  }

  /** A run that began at column first is still going at column n. */
  ghost predicate Open(runs: seq<Run>, row: nat, first: nat, n: nat, w: nat) {
    && first < n && Ended(runs, row, first, w) && Covers(runs, row, first)
    && (first > 0 ==> !Bit(row, first - 1))
    && (forall i :: 0 <= i < |runs| ==> runs[i].end < first || first == 0)
    && (forall x: nat :: first <= x < n ==> Bit(row, x))
  }

  lemma StartRun(runs: seq<Run>, row: nat, x: nat, w: nat)
    requires Ended(runs, row, x, w) && Covers(runs, row, x) && Bit(row, x) && (x > 0 ==> !Bit(row, x - 1))
    ensures Open(runs, row, x, x + 1, w)
  {
    hide Bit;
    forall i | 0 <= i < |runs| ensures runs[i].end < x {
      var r := runs[i];
      assert IsRun(row, r, w);
      assert Holds(r, r.end - 1);
      assert Bit(row, r.end - 1);
    }
  }

  lemma NoBits(w: nat)
    ensures Ended([], 0, w, w) && Covers([], 0, w)
  {
    forall x: nat ensures !Bit(0, x) { ZeroBit(x); }
  }

  lemma {:induction false} ZeroBit(x: nat)
    ensures !Bit(0, x)
  {
    if x > 0 { ZeroBit(x - 1); }
  }

  // ── Boxes ──

  predicate Inside(b: Box, px: int, py: int) {
    b.x <= px < b.x + b.w && b.y <= py < b.y + b.h
  }

  ghost predicate Painted(boxes: seq<Box>, px: int, py: int) {
    exists i :: 0 <= i < |boxes| && Inside(boxes[i], px, py)
  }

  function BoxOf(r: Run, y: nat, ox: int, oy: int): Box {
    Box(ox + r.first * 2, oy + y * 2, (r.end - r.first) * 2, 2)
  }

  lemma BoxHolds(r: Run, y: nat, ox: int, oy: int, px: int, py: int)
    requires r.first <= r.end
    ensures Inside(BoxOf(r, y, ox, oy), px, py) <==> (py - oy) / 2 == y && Holds(r, (px - ox) / 2)
  {}

  /** Rows y and below of the picture are not drawn yet. */
  ghost predicate DrawnTo(boxes: seq<Box>, grid: seq<nat>, w: nat, ox: int, oy: int, y: nat) {
    forall px: int, py: int :: Painted(boxes, px, py) <==>
      Cell((px - ox) / 2, (py - oy) / 2) in Live(grid, w) && (py - oy) / 2 < y
  }

  lemma DrawnRow(boxes: seq<Box>, more: seq<Box>, runs: seq<Run>, grid: seq<nat>, w: nat, ox: int, oy: int, y: nat)
    requires y < |grid| && DrawnTo(boxes, grid, w, ox, oy, y)
    requires Ended(runs, grid[y], w, w) && Covers(runs, grid[y], w)
    requires |more| == |runs| && forall i :: 0 <= i < |runs| ==> more[i] == BoxOf(runs[i], y, ox, oy)
    ensures DrawnTo(boxes + more, grid, w, ox, oy, y + 1)
  {
    hide Bit, Live, BoxOf, Holds;
    var all := boxes + more;
    forall px: int, py: int
      ensures Painted(all, px, py) <==> Cell((px - ox) / 2, (py - oy) / 2) in Live(grid, w) && (py - oy) / 2 < y + 1
    {
      var c := Cell((px - ox) / 2, (py - oy) / 2);
      InLive(grid, w, c);
      forall i | 0 <= i < |runs| ensures Inside(more[i], px, py) <==> c.y == y && Holds(runs[i], c.x) {
        assert IsRun(grid[y], runs[i], w);
        BoxHolds(runs[i], y, ox, oy, px, py);
      }
      PaintedBoth(boxes, more, px, py);
      assert Painted(more, px, py) <==> c.y == y && exists i :: 0 <= i < |runs| && Holds(runs[i], c.x);
      RowCells(runs, grid[y], w, c.x);
    }
  }

  lemma PaintedBoth(a: seq<Box>, b: seq<Box>, px: int, py: int)
    ensures Painted(a + b, px, py) <==> Painted(a, px, py) || Painted(b, px, py)
  {
    var all := a + b;
    if Painted(a, px, py) {
      var i :| 0 <= i < |a| && Inside(a[i], px, py);
      assert Inside(all[i], px, py);
    }
    if Painted(b, px, py) {
      var i :| 0 <= i < |b| && Inside(b[i], px, py);
      assert Inside(all[|a| + i], px, py);
    }
  }

  lemma RowCells(runs: seq<Run>, row: nat, w: nat, x: int)
    requires Ended(runs, row, w, w) && Covers(runs, row, w)
    ensures (exists i :: 0 <= i < |runs| && Holds(runs[i], x)) <==> 0 <= x < w && Bit(row, x)
  {
    hide Bit;
    if i :| 0 <= i < |runs| && Holds(runs[i], x) {
      assert IsRun(row, runs[i], w);
    }
  }

  /** gol_draw paints the two-by-two squares of the live cells and nothing else. */
  method GolDraw(grid: seq<nat>, w: nat, ox: int, oy: int) returns (boxes: seq<Box>)
    requires Board(grid, w, |grid|)
    ensures forall px: int, py: int :: Painted(boxes, px, py) <==> Cell((px - ox) / 2, (py - oy) / 2) in Live(grid, w)
  {
    hide Bit, Live, Ended, Covers, Painted, Fits;
    boxes := [];
    var y := 0;
    assert DrawnTo(boxes, grid, w, ox, oy, 0) by { NothingDrawn(grid, w, ox, oy); }
    while y < |grid|
      invariant y <= |grid| && DrawnTo(boxes, grid, w, ox, oy, y)
    {
      var runs := RowRuns(grid[y], w);
      var more := seq(|runs|, i requires 0 <= i < |runs| => BoxOf(runs[i], y, ox, oy));
      DrawnRow(boxes, more, runs, grid, w, ox, oy, y);
      boxes := boxes + more;
      y := y + 1;
    }
    forall px: int, py: int
      ensures Painted(boxes, px, py) <==> Cell((px - ox) / 2, (py - oy) / 2) in Live(grid, w)
    {
      InLive(grid, w, Cell((px - ox) / 2, (py - oy) / 2));
    }
  }

  lemma NothingDrawn(grid: seq<nat>, w: nat, ox: int, oy: int)
    ensures DrawnTo([], grid, w, ox, oy, 0)
  {
    forall c: Cell ensures c in Live(grid, w) ==> c.y >= 0 { InLive(grid, w, c); }
  }
}
