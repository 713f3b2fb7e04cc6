/** A Life board packed one row to an integer, and the steps computed on it. */
module LifeRows {
  import opened Torus

  // ── Bits of a row, the lowest first ──

  function Bit(row: nat, x: nat): bool {
    if x == 0 then row % 2 == 1 else Bit(row / 2, x - 1)
  }

  /** row | 1 << x */
  function SetBit(row: nat, x: nat): nat {
    if x == 0 then (if row % 2 == 1 then row else row + 1) else 2 * SetBit(row / 2, x - 1) + row % 2
  }

  /** row < 1 << w */
  predicate Fits(row: nat, w: nat) {
    if w == 0 then row == 0 else Fits(row / 2, w - 1)
  }

  lemma {:induction false} SetBitIs(row: nat, x: nat, j: nat)
    ensures Bit(SetBit(row, x), j) <==> j == x || Bit(row, j)
  {
    if x > 0 {
      assert SetBit(row, x) / 2 == SetBit(row / 2, x - 1) && SetBit(row, x) % 2 == row % 2;
      if j > 0 {
        SetBitIs(row / 2, x - 1, j - 1);
      }
    } else if j > 0 {
      assert SetBit(row, 0) / 2 == row / 2;
    }
  }

  lemma {:induction false} SetBitFits(row: nat, x: nat, w: nat)
    requires Fits(row, w) && x < w
    ensures Fits(SetBit(row, x), w)
  {
    if x > 0 {
      SetBitFits(row / 2, x - 1, w - 1);
      assert SetBit(row, x) / 2 == SetBit(row / 2, x - 1);
    } else {
      assert SetBit(row, 0) / 2 == row / 2;
    }
  }

  lemma {:induction false} FitsMore(row: nat, v: nat, w: nat)
    requires Fits(row, v) && v <= w
    ensures Fits(row, w)
  {
    if v > 0 {
      FitsMore(row / 2, v - 1, w - 1);
    } else if w > 0 {
      FitsMore(0, 0, w - 1);
    }
  }

  lemma {:induction false} NoBitBeyond(row: nat, w: nat, x: nat)
    requires Fits(row, w) && x >= w
    ensures !Bit(row, x)
  {
    if x > 0 {
      if w > 0 { NoBitBeyond(row / 2, w - 1, x - 1); } else { NoBitBeyond(0, 0, x - 1); }
    }
  }

  lemma {:induction false} SameBits(a: nat, b: nat, w: nat)
    requires Fits(a, w) && Fits(b, w)
    requires forall x: nat :: x < w ==> Bit(a, x) == Bit(b, x)
    ensures a == b
  {
    if w > 0 {
      assert Bit(a, 0) == Bit(b, 0);
      forall x: nat | x < w - 1 ensures Bit(a / 2, x) == Bit(b / 2, x) {
        assert Bit(a, x + 1) == Bit(b, x + 1);
      }
      SameBits(a / 2, b / 2, w - 1);
    }
  }

  // ── Boards ──

  /** The live cells when bit x of row y is cell (x, y). */
  ghost function Live(rows: seq<nat>, w: nat): set<Cell> {
    set x, y | 0 <= x < w && 0 <= y < |rows| && Bit(rows[y], x) :: Cell(x, y)
  }

  lemma InLive(rows: seq<nat>, w: nat, c: Cell)
    ensures c in Live(rows, w) <==> OnBoard(c, w, |rows|) && Bit(rows[c.y], c.x)
  {}

  ghost predicate Board(rows: seq<nat>, w: nat, h: nat) {
    |rows| == h && forall y :: 0 <= y < h ==> Fits(rows[y], w)
  }

  /** A board is known by its live cells. */
  lemma SameCells(a: seq<nat>, b: seq<nat>, w: nat, h: nat)
    requires Board(a, w, h) && Board(b, w, h) && Live(a, w) == Live(b, w)
    ensures a == b
  {
    hide Bit, Fits, Live;
    forall y | 0 <= y < h ensures a[y] == b[y] {
      forall x: nat | x < w ensures Bit(a[y], x) == Bit(b[y], x) {
        InLive(a, w, Cell(x, y));
        InLive(b, w, Cell(x, y));
      }
      SameBits(a[y], b[y], w);
    }
  }

  // ── Putting a pattern down ──

  ghost function Stamped(pattern: seq<Cell>, ox: int, oy: int, w: int, h: int): set<Cell>
    requires w > 0 && h > 0
  {
    set i | 0 <= i < |pattern| :: At(ox + pattern[i].x, oy + pattern[i].y, w, h)
  }

  lemma SetCell(rows: seq<nat>, c: Cell, w: nat, h: nat)
    requires Board(rows, w, h) && OnBoard(c, w, h)
    ensures var now := rows[c.y := SetBit(rows[c.y], c.x)];
      Board(now, w, h) && Live(now, w) == Live(rows, w) + {c}
  {
    hide Bit, SetBit, Fits, Live;
    var now := rows[c.y := SetBit(rows[c.y], c.x)];
    SetBitFits(rows[c.y], c.x, w);
    forall d: Cell ensures d in Live(now, w) <==> d in Live(rows, w) + {c} {
      InLive(now, w, d);
      InLive(rows, w, d);
      if OnBoard(d, w, h) { SetBitIs(rows[c.y], c.x, d.x); }
    }
  }

  /** Sets the pattern's cells, wrapped, and clears nothing. */
  method Stamp(grid: seq<nat>, pattern: seq<Cell>, oy: int, ox: int, w: nat, h: nat) returns (now: seq<nat>)
    requires w > 0 && h > 0 && Board(grid, w, h)
    ensures Board(now, w, h) && Live(now, w) == Live(grid, w) + Stamped(pattern, ox, oy, w, h)
  {
    hide Bit, SetBit, Fits, Live, Wrap;
    now := grid;
    var k := 0;
    while k < |pattern|
      invariant k <= |pattern| && Board(now, w, h)
      invariant Live(now, w) == Live(grid, w) + Stamped(pattern[..k], ox, oy, w, h)
    {
      var r := Wrap(oy + pattern[k].y, h);
      var c := Wrap(ox + pattern[k].x, w);
      SetCell(now, Cell(c, r), w, h);
      now := now[r := SetBit(now[r], c)];
      assert pattern[..k + 1] == pattern[..k] + [pattern[k]];
      OneMore(pattern, k, ox, oy, w, h);
      k := k + 1;
    }
    assert pattern[..k] == pattern;
  }

  lemma OneMore(pattern: seq<Cell>, k: nat, ox: int, oy: int, w: int, h: int)
    requires k < |pattern| && w > 0 && h > 0
    ensures Stamped(pattern[..k + 1], ox, oy, w, h) ==
      Stamped(pattern[..k], ox, oy, w, h) + {At(ox + pattern[k].x, oy + pattern[k].y, w, h)}
  {
    var a, b := pattern[..k + 1], pattern[..k];
    assert a[k] == pattern[k];
    assert forall i :: 0 <= i < k ==> a[i] == b[i];
  }

  // ── One generation ──

  method CountNeighbours(above: nat, cur: nat, below: nat, xl: nat, x: nat, xr: nat) returns (n: nat)
    ensures n == One(Bit(above, xl)) + One(Bit(above, x)) + One(Bit(above, xr)) + One(Bit(cur, xl)) + One(Bit(cur, xr))
      + One(Bit(below, xl)) + One(Bit(below, x)) + One(Bit(below, xr))
  {
    hide Bit;
    n := 0;
    if Bit(above, xl) { n := n + 1; }
    if Bit(above, x) { n := n + 1; }
    if Bit(above, xr) { n := n + 1; }
    assert n == One(Bit(above, xl)) + One(Bit(above, x)) + One(Bit(above, xr));
    if Bit(cur, xl) { n := n + 1; }
    if Bit(cur, xr) { n := n + 1; }
    assert n == One(Bit(above, xl)) + One(Bit(above, x)) + One(Bit(above, xr)) + One(Bit(cur, xl)) + One(Bit(cur, xr));
    if Bit(below, xl) { n := n + 1; }
    if Bit(below, x) { n := n + 1; }
    if Bit(below, xr) { n := n + 1; }
  }

  /** Cell (x, y), wrapped, as the packed rows have it. */
  function OneAt(rows: seq<nat>, w: nat, x: int, y: int): nat
    requires 0 < w && 0 < |rows|
  {
    One(Bit(rows[Wrap(y, |rows|)], Wrap(x, w)))
  }

  lemma OneAtIs(rows: seq<nat>, w: nat, x: int, y: int)
    requires 0 < w && 0 < |rows|
    ensures One(At(x, y, w, |rows|) in Live(rows, w)) == OneAt(rows, w, x, y)
  {
    hide Wrap, Live, Bit;
    InLive(rows, w, At(x, y, w, |rows|));
  }

  lemma BitSum(rows: seq<nat>, w: nat, x: nat, y: nat)
    requires 0 < w && 0 < |rows|
    ensures Sum8(x, y, Live(rows, w), w, |rows|) ==
      OneAt(rows, w, x - 1, y - 1) + OneAt(rows, w, x, y - 1) + OneAt(rows, w, x + 1, y - 1)
      + OneAt(rows, w, x - 1, y) + OneAt(rows, w, x + 1, y)
      + OneAt(rows, w, x - 1, y + 1) + OneAt(rows, w, x, y + 1) + OneAt(rows, w, x + 1, y + 1)
  {
    hide Live, One, At, OneAt;
    OneAtIs(rows, w, x - 1, y - 1);
    OneAtIs(rows, w, x, y - 1);
    OneAtIs(rows, w, x + 1, y - 1);
    OneAtIs(rows, w, x - 1, y);
    OneAtIs(rows, w, x + 1, y);
    OneAtIs(rows, w, x - 1, y + 1);
    OneAtIs(rows, w, x, y + 1);
    OneAtIs(rows, w, x + 1, y + 1);
  }

  lemma OneAtRow(rows: seq<nat>, w: nat, x: nat, y: nat, e: int)
    requires x < w && y < |rows|
    ensures var row := rows[Wrap(y + e, |rows|)];
      OneAt(rows, w, x - 1, y + e) == One(Bit(row, Wrap(x - 1, w))) && OneAt(rows, w, x, y + e) == One(Bit(row, x))
      && OneAt(rows, w, x + 1, y + e) == One(Bit(row, Wrap(x + 1, w)))
    ensures rows[Wrap(y, |rows|)] == rows[y]
  {
    hide Wrap, Bit, One;
    WrapUnique(x, 0, x, w);
    WrapUnique(y, 0, y, |rows|);
  }

  /** Whether the first n cells of a new row are right and the rest still off. */
  ghost predicate RowSoFar(row: nat, rows: seq<nat>, y: nat, n: nat, w: nat)
    requires w > 0 && y < |rows|
  {
    Fits(row, n) && forall x: nat :: x < n ==> (Bit(row, x) <==> Lives(Live(rows, w), Cell(x, y), w, |rows|))
  }

  lemma RowStarts(rows: seq<nat>, y: nat, w: nat)
    requires w > 0 && y < |rows|
    ensures RowSoFar(0, rows, y, 0, w)
  {}

  lemma RowGrows(row: nat, rows: seq<nat>, y: nat, x: nat, w: nat, n: nat)
    requires 3 <= w && 3 <= |rows| && y < |rows| && x < w && RowSoFar(row, rows, y, x, w)
    requires n == Sum8(x, y, Live(rows, w), w, |rows|)
    ensures RowSoFar(if n == 3 || (n == 2 && Bit(rows[y], x)) then SetBit(row, x) else row, rows, y, x + 1, w)
  {
    hide Bit, SetBit, Fits, Live, Lives, Sum8;
    SumIsCount(Live(rows, w), Cell(x, y), w, |rows|);
    InLive(rows, w, Cell(x, y));
    FitsMore(row, x, x + 1);
    NoBitBeyond(row, x, x);
    SetBitFits(row, x, x + 1);
    forall j: nat | j <= x ensures Bit(SetBit(row, x), j) <==> j == x || Bit(row, j) {
      SetBitIs(row, x, j);
    }
  }

  /** gol_step, led_gol_step, the field step and the icon's step: the bits of the
      new rows are the next generation. */
  method GolStep(grid: seq<nat>, w: nat) returns (next: seq<nat>)
    requires 3 <= w && 3 <= |grid|
    ensures Board(next, w, |grid|) && Live(next, w) == Next(Live(grid, w), w, |grid|)
  {
    hide Bit, SetBit, Fits, Live, Lives, Sum8, Wrap, RowSoFar, OneAt, One;
    var h := |grid|;
    next := seq(h, _ => 0);
    var y := 0;
    while y < h
      invariant y <= h && |next| == h
      invariant forall j :: 0 <= j < y ==> RowSoFar(next[j], grid, j, w, w)
      invariant forall j :: y <= j < h ==> next[j] == 0
    {
      var above, cur, below := grid[Wrap(y - 1, h)], grid[y], grid[Wrap(y + 1, h)];
      RowStarts(grid, y, w);
      var x := 0;
      while x < w
        invariant x <= w && |next| == h && RowSoFar(next[y], grid, y, x, w)
        invariant forall j :: 0 <= j < y ==> RowSoFar(next[j], grid, j, w, w)
        invariant forall j :: y < j < h ==> next[j] == 0
      {
        var n := CountNeighbours(above, cur, below, Wrap(x - 1, w), x, Wrap(x + 1, w));
        BitSum(grid, w, x, y);
        OneAtRow(grid, w, x, y, -1);
        OneAtRow(grid, w, x, y, 0);
        OneAtRow(grid, w, x, y, 1);
        RowGrows(next[y], grid, y, x, w, n);
        if n == 3 || (n == 2 && Bit(cur, x)) {
          next := next[y := SetBit(next[y], x)];
        }
        x := x + 1;
      }
      y := y + 1;
    }
    RowsAreNext(next, grid, w);
  }

  lemma RowsAreNext(next: seq<nat>, rows: seq<nat>, w: nat)
    requires w > 0 && 0 < |rows| == |next|
    requires forall y :: 0 <= y < |rows| ==> RowSoFar(next[y], rows, y, w, w)
    ensures Board(next, w, |rows|) && Live(next, w) == Next(Live(rows, w), w, |rows|)
  {
    hide Bit, Fits, Live, Lives, Next;
    forall c: Cell ensures c in Live(next, w) <==> c in Next(Live(rows, w), w, |rows|) {
      InLive(next, w, c);
      InNext(Live(rows, w), c, w, |rows|);
      if OnBoard(c, w, |rows|) { assert RowSoFar(next[c.y], rows, c.y, w, w); }
    }
  }
}
