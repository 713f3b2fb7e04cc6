/** Conway's Game of Life on a torus, on sets of live cells. */
module Torus {
  datatype Cell = Cell(x: int, y: int)

  function Wrap(a: int, w: int): (r: int)
    requires w > 0
    ensures 0 <= r < w
  {
    a % w
  }

  function At(x: int, y: int, w: int, h: int): Cell
    requires w > 0 && h > 0
  {
    Cell(Wrap(x, w), Wrap(y, h))
  }

  predicate OnBoard(c: Cell, w: int, h: int) {
    0 <= c.x < w && 0 <= c.y < h
  }

  ghost predicate Within(live: set<Cell>, w: int, h: int) {
    forall c :: c in live ==> OnBoard(c, w, h)
  }

  /** The eight ways to step, diagonals too. */
  ghost function Steps(): set<Cell> {
    set dx, dy | -1 <= dx <= 1 && -1 <= dy <= 1 && !(dx == 0 && dy == 0) :: Cell(dx, dy)
  }

  ghost function Neighbours(c: Cell, w: int, h: int): set<Cell>
    requires w > 0 && h > 0
  {
    set d | d in Steps() :: At(c.x + d.x, c.y + d.y, w, h)
  }

  /** B3/S23. */
  ghost predicate Lives(live: set<Cell>, c: Cell, w: int, h: int)
    requires w > 0 && h > 0
  {
    var n := |Neighbours(c, w, h) * live|;
    n == 3 || (n == 2 && c in live)
  }

  ghost function Next(live: set<Cell>, w: int, h: int): set<Cell>
    requires w > 0 && h > 0
  {
    set x, y | 0 <= x < w && 0 <= y < h && Lives(live, Cell(x, y), w, h) :: Cell(x, y)
  }

  lemma InNext(live: set<Cell>, c: Cell, w: int, h: int)
    requires w > 0 && h > 0
    ensures c in Next(live, w, h) <==> OnBoard(c, w, h) && Lives(live, c, w, h)
  {}

  // ── Counting one neighbour at a time ──

  function One(b: bool): nat { if b then 1 else 0 }

  function Count(cells: seq<Cell>, live: set<Cell>): nat {
    if cells == [] then 0 else One(cells[0] in live) + Count(cells[1..], live)
  }

  ghost function Elements(cells: seq<Cell>): set<Cell> {
    set c | c in cells
  }

  lemma ElementsHead(cells: seq<Cell>)
    requires cells != []
    ensures Elements(cells) == Elements(cells[1..]) + {cells[0]}
  {
    assert cells == [cells[0]] + cells[1..];
  }

  lemma MeetOneMore(t: set<Cell>, c: Cell, live: set<Cell>)
    requires c !in t
    ensures |(t + {c}) * live| == |t * live| + One(c in live)
  {
    if c in live {
      assert (t + {c}) * live == t * live + {c};
    } else {
      assert (t + {c}) * live == t * live;
    }
  }

  lemma {:induction false} CountIsSize(cells: seq<Cell>, live: set<Cell>)
    requires forall i, j :: 0 <= i < j < |cells| ==> cells[i] != cells[j]
    ensures |Elements(cells) * live| == Count(cells, live)
  {
    hide One;
    if cells != [] {
      CountIsSize(cells[1..], live);
      ElementsHead(cells);
      hide Elements;
      assert cells[0] !in cells[1..];
      NotElement(cells[1..], cells[0]);
      MeetOneMore(Elements(cells[1..]), cells[0], live);
    } else {
      assert Elements(cells) * live == {};
    }
  }

  lemma NotElement(cells: seq<Cell>, c: Cell)
    ensures c in Elements(cells) <==> c in cells
  {}

  function Around(c: Cell, w: int, h: int): seq<Cell>
    requires w > 0 && h > 0
  {
    [At(c.x - 1, c.y - 1, w, h), At(c.x, c.y - 1, w, h), At(c.x + 1, c.y - 1, w, h),
     At(c.x - 1, c.y, w, h), At(c.x + 1, c.y, w, h),
     At(c.x - 1, c.y + 1, w, h), At(c.x, c.y + 1, w, h), At(c.x + 1, c.y + 1, w, h)]
  }

  lemma AroundApart(c: Cell, w: int, h: int)
    requires 3 <= w && 3 <= h && OnBoard(c, w, h)
    ensures forall i, j :: 0 <= i < j < 8 ==> Around(c, w, h)[i] != Around(c, w, h)[j]
  {
    hide Wrap;
    WrapApart(c.x, w);
    WrapApart(c.y, h);
  }

  lemma AroundIsNeighbours(c: Cell, w: int, h: int)
    requires w > 0 && h > 0
    ensures Elements(Around(c, w, h)) == Neighbours(c, w, h)
  {
    hide At;
    var s := Around(c, w, h);
    forall d | d in s ensures d in Neighbours(c, w, h) {
      var i :| 0 <= i < |s| && s[i] == d;
      var k := if i < 4 then i else i + 1;
      var step := Cell(k % 3 - 1, k / 3 - 1);
      assert step in Steps();
      assert s[i] == At(c.x + step.x, c.y + step.y, w, h);
    }
    forall d | d in Neighbours(c, w, h) ensures d in s {
      var step :| step in Steps() && d == At(c.x + step.x, c.y + step.y, w, h);
      var k := 3 * (step.y + 1) + step.x + 1;
      assert s[if k < 4 then k else k - 1] == d;
    }
  }

  function Sum8(x: int, y: int, live: set<Cell>, w: int, h: int): nat
    requires w > 0 && h > 0
  {
    One(At(x - 1, y - 1, w, h) in live) + One(At(x, y - 1, w, h) in live) + One(At(x + 1, y - 1, w, h) in live)
    + One(At(x - 1, y, w, h) in live) + One(At(x + 1, y, w, h) in live)
    + One(At(x - 1, y + 1, w, h) in live) + One(At(x, y + 1, w, h) in live) + One(At(x + 1, y + 1, w, h) in live)
  }

  lemma CountHead(c: Cell, more: seq<Cell>, live: set<Cell>)
    ensures Count([c] + more, live) == One(c in live) + Count(more, live)
  {
    assert ([c] + more)[1..] == more;
  }

  lemma CountFour(a: Cell, b: Cell, c: Cell, d: Cell, more: seq<Cell>, live: set<Cell>)
    ensures Count([a, b, c, d] + more, live) ==
      One(a in live) + One(b in live) + One(c in live) + One(d in live) + Count(more, live)
  {
    hide Count, One;
    assert [a, b, c, d] + more == [a] + ([b] + ([c] + ([d] + more)));
    CountHead(a, [b] + ([c] + ([d] + more)), live);
    CountHead(b, [c] + ([d] + more), live);
    CountHead(c, [d] + more, live);
    CountHead(d, more, live);
  }

  lemma CountEight(c: Cell, live: set<Cell>, w: int, h: int)
    requires w > 0 && h > 0
    ensures Count(Around(c, w, h), live) == Sum8(c.x, c.y, live, w, h)
  {
    hide At, One;
    var s := Around(c, w, h);
    CountFour(s[0], s[1], s[2], s[3], s[4..], live);
    CountFour(s[4], s[5], s[6], s[7], [], live);
    assert s == [s[0], s[1], s[2], s[3]] + s[4..];
    assert s[4..] == [s[4], s[5], s[6], s[7]] + [];
  }

  /** On boards of three cells or more each way the eight are all different, so
      adding them up is counting them. */
  lemma SumIsCount(live: set<Cell>, c: Cell, w: int, h: int)
    requires 3 <= w && 3 <= h && OnBoard(c, w, h)
    ensures Lives(live, c, w, h) <==>
      Sum8(c.x, c.y, live, w, h) == 3 || (Sum8(c.x, c.y, live, w, h) == 2 && c in live)
  {
    hide Around, Count, Sum8, Neighbours;
    AroundSize(c, w, h);
    AroundApart(c, w, h);
    AroundIsNeighbours(c, w, h);
    CountIsSize(Around(c, w, h), live);
    CountEight(c, live, w, h);
  }

  lemma AroundSize(c: Cell, w: int, h: int)
    requires w > 0 && h > 0
    ensures |Around(c, w, h)| == 8
  {}

  // ── The rule does not know where it is ──

  lemma Multiples(w: int, d: int)
    requires w > 0
    ensures d >= 1 ==> w * d >= w
    ensures d <= -1 ==> w * d <= -w
  {}

  lemma WrapUnique(a: int, q: int, r: int, w: int)
    requires w > 0 && a == w * q + r && 0 <= r < w
    ensures Wrap(a, w) == r
  {
    Multiples(w, a / w - q);
    assert w * (a / w - q) == r - a % w;
  }

  lemma WrapSplits(a: int, w: int)
    requires w > 0
    ensures exists q :: a == w * q + Wrap(a, w)
  {
    assert a == w * (a / w) + a % w;
  }

  lemma WrapAdd(a: int, b: int, w: int)
    requires w > 0
    ensures Wrap(Wrap(a, w) + b, w) == Wrap(a + b, w)
  {
    hide Wrap;
    var s := Wrap(a, w) + b;
    WrapSplits(a, w);
    WrapSplits(s, w);
    var p :| a == w * p + Wrap(a, w);
    var q :| s == w * q + Wrap(s, w);
    assert w * p + w * q == w * (p + q);
    WrapUnique(a + b, p + q, Wrap(s, w), w);
  }

  /** The order of two moves along one axis does not matter. */
  lemma WrapSwap(a: int, d: int, e: int, w: int)
    requires w > 0
    ensures Wrap(Wrap(a + d, w) + e, w) == Wrap(Wrap(a + e, w) + d, w)
  {
    hide Wrap;
    WrapAdd(a + d, e, w);
    WrapAdd(a + e, d, w);
    assert a + d + e == a + e + d;
  }

  lemma WrapBack(a: int, d: int, w: int)
    requires 0 <= a < w
    ensures Wrap(Wrap(a + d, w) - d, w) == a
  {
    hide Wrap;
    WrapAdd(a + d, -d, w);
    WrapUnique(a, 0, a, w);
  }

  lemma WrapApart(x: int, w: int)
    requires 3 <= w && 0 <= x < w
    ensures Wrap(x - 1, w) == (if x == 0 then w - 1 else x - 1) && Wrap(x, w) == x
    ensures Wrap(x + 1, w) == if x == w - 1 then 0 else x + 1
  {
    hide Wrap;
    WrapUnique(x, 0, x, w);
    if x == 0 { WrapUnique(x - 1, -1, w - 1, w); } else { WrapUnique(x - 1, 0, x - 1, w); }
    if x == w - 1 { WrapUnique(x + 1, 1, 0, w); } else { WrapUnique(x + 1, 0, x + 1, w); }
  }

  ghost function Shifted(live: set<Cell>, dx: int, dy: int, w: int, h: int): set<Cell>
    requires w > 0 && h > 0
  {
    set c | c in live :: At(c.x + dx, c.y + dy, w, h)
  }

  lemma ShiftBack(c: Cell, dx: int, dy: int, w: int, h: int)
    requires w > 0 && h > 0 && OnBoard(c, w, h)
    ensures var s := At(c.x + dx, c.y + dy, w, h); At(s.x - dx, s.y - dy, w, h) == c && OnBoard(s, w, h)
  {
    hide Wrap;
    WrapBack(c.x, dx, w);
    WrapBack(c.y, dy, h);
  }

  lemma InShifted(live: set<Cell>, c: Cell, dx: int, dy: int, w: int, h: int)
    requires w > 0 && h > 0 && Within(live, w, h) && OnBoard(c, w, h)
    ensures At(c.x + dx, c.y + dy, w, h) in Shifted(live, dx, dy, w, h) <==> c in live
  {
    hide At;
    var s := At(c.x + dx, c.y + dy, w, h);
    ShiftBack(c, dx, dy, w, h);
    if s in Shifted(live, dx, dy, w, h) {
      var d :| d in live && At(d.x + dx, d.y + dy, w, h) == s;
      ShiftBack(d, dx, dy, w, h);
    }
  }

  lemma AtOnBoard(x: int, y: int, w: int, h: int)
    requires w > 0 && h > 0
    ensures OnBoard(At(x, y, w, h), w, h)
  {}

  /** Shifting and stepping aside commute. */
  lemma ShiftNeighbour(live: set<Cell>, c: Cell, ex: int, ey: int, dx: int, dy: int, w: int, h: int)
    requires w > 0 && h > 0 && Within(live, w, h)
    ensures var s := At(c.x + dx, c.y + dy, w, h);
      At(s.x + ex, s.y + ey, w, h) in Shifted(live, dx, dy, w, h) <==> At(c.x + ex, c.y + ey, w, h) in live
  {
    hide Wrap, Shifted;
    WrapSwap(c.x, dx, ex, w);
    WrapSwap(c.y, dy, ey, h);
    AtOnBoard(c.x + ex, c.y + ey, w, h);
    InShifted(live, At(c.x + ex, c.y + ey, w, h), dx, dy, w, h);
  }

  lemma ShiftSum(live: set<Cell>, c: Cell, dx: int, dy: int, w: int, h: int)
    requires w > 0 && h > 0 && Within(live, w, h)
    ensures var s := At(c.x + dx, c.y + dy, w, h);
      Sum8(s.x, s.y, Shifted(live, dx, dy, w, h), w, h) == Sum8(c.x, c.y, live, w, h)
  {
    hide At, Shifted;
    ShiftNeighbour(live, c, -1, -1, dx, dy, w, h);
    ShiftNeighbour(live, c, 0, -1, dx, dy, w, h);
    ShiftNeighbour(live, c, 1, -1, dx, dy, w, h);
    ShiftNeighbour(live, c, -1, 0, dx, dy, w, h);
    ShiftNeighbour(live, c, 1, 0, dx, dy, w, h);
    ShiftNeighbour(live, c, -1, 1, dx, dy, w, h);
    ShiftNeighbour(live, c, 0, 1, dx, dy, w, h);
    ShiftNeighbour(live, c, 1, 1, dx, dy, w, h);
  }

  /** A generation of a shifted board is the shifted generation. */
  lemma StepCommutesWithShift(live: set<Cell>, dx: int, dy: int, w: int, h: int)
    requires 3 <= w && 3 <= h && Within(live, w, h)
    ensures Next(Shifted(live, dx, dy, w, h), w, h) == Shifted(Next(live, w, h), dx, dy, w, h)
  {
    hide At, Sum8, Lives, Next, Shifted;
    var moved := Shifted(live, dx, dy, w, h);
    NextWithin(live, w, h);
    forall p: Cell
      ensures p in Next(moved, w, h) <==> p in Shifted(Next(live, w, h), dx, dy, w, h)
    {
      InNext(moved, p, w, h);
      if OnBoard(p, w, h) {
        var c := At(p.x - dx, p.y - dy, w, h);
        ShiftBack(p, -dx, -dy, w, h);
        AtOnBoard(p.x - dx, p.y - dy, w, h);
        assert At(c.x + dx, c.y + dy, w, h) == p;
        ShiftSum(live, c, dx, dy, w, h);
        InShifted(live, c, dx, dy, w, h);
        SumIsCount(moved, p, w, h);
        SumIsCount(live, c, w, h);
        InNext(live, c, w, h);
        InShifted(Next(live, w, h), c, dx, dy, w, h);
      } else {
        ShiftedWithin(Next(live, w, h), dx, dy, w, h);
      }
    }
  }

  lemma ShiftedWithin(live: set<Cell>, dx: int, dy: int, w: int, h: int)
    requires w > 0 && h > 0
    ensures Within(Shifted(live, dx, dy, w, h), w, h)
  {}

  lemma NextWithin(live: set<Cell>, w: int, h: int)
    requires w > 0 && h > 0
    ensures Within(Next(live, w, h), w, h)
  {}

  function Flip(c: Cell, w: int): Cell { Cell(w - 1 - c.x, c.y) }

  ghost function Mirrored(live: set<Cell>, w: int): set<Cell> {
    set c | c in live :: Flip(c, w)
  }

  lemma InMirrored(live: set<Cell>, c: Cell, w: int)
    ensures Flip(c, w) in Mirrored(live, w) <==> c in live
    ensures c in Mirrored(live, w) <==> Flip(c, w) in live
  {
    assert Flip(Flip(c, w), w) == c;
  }

  lemma FlipNeighbour(live: set<Cell>, c: Cell, ex: int, ey: int, w: int, h: int)
    requires 3 <= w && 0 < h && OnBoard(c, w, h) && -1 <= ex <= 1
    ensures At(Flip(c, w).x + ex, c.y + ey, w, h) in Mirrored(live, w) <==> At(c.x - ex, c.y + ey, w, h) in live
  {
    hide Wrap;
    var d := At(c.x - ex, c.y + ey, w, h);
    WrapApart(c.x, w);
    WrapApart(w - 1 - c.x, w);
    assert At(Flip(c, w).x + ex, c.y + ey, w, h) == Flip(d, w);
    InMirrored(live, d, w);
  }

  lemma MirrorSum(live: set<Cell>, c: Cell, w: int, h: int)
    requires 3 <= w && 0 < h && OnBoard(c, w, h)
    ensures Sum8(Flip(c, w).x, c.y, Mirrored(live, w), w, h) == Sum8(c.x, c.y, live, w, h)
  {
    hide At, Mirrored;
    FlipNeighbour(live, c, -1, -1, w, h);
    FlipNeighbour(live, c, 0, -1, w, h);
    FlipNeighbour(live, c, 1, -1, w, h);
    FlipNeighbour(live, c, -1, 0, w, h);
    FlipNeighbour(live, c, 1, 0, w, h);
    FlipNeighbour(live, c, -1, 1, w, h);
    FlipNeighbour(live, c, 0, 1, w, h);
    FlipNeighbour(live, c, 1, 1, w, h);
  }

  lemma StepCommutesWithMirror(live: set<Cell>, w: int, h: int)
    requires 3 <= w && 3 <= h
    ensures Next(Mirrored(live, w), w, h) == Mirrored(Next(live, w, h), w)
  {
    hide At, Sum8, Lives, Next, Mirrored;
    var moved := Mirrored(live, w);
    forall p: Cell
      ensures p in Next(moved, w, h) <==> p in Mirrored(Next(live, w, h), w)
    {
      var c := Flip(p, w);
      assert Flip(c, w) == p;
      InNext(moved, p, w, h);
      InNext(live, c, w, h);
      InMirrored(Next(live, w, h), c, w);
      if OnBoard(p, w, h) {
        MirrorSum(live, c, w, h);
        InMirrored(live, c, w);
        SumIsCount(moved, p, w, h);
        SumIsCount(live, c, w, h);
      }
    }
  }

  lemma NothingStaysNothing(w: int, h: int)
    requires 3 <= w && 3 <= h
    ensures Next({}, w, h) == {}
  {
    hide Neighbours;
    forall c ensures !Lives({}, c, w, h) {
      assert Neighbours(c, w, h) * {} == {};
    }
  }
}
