/** The board of Durable Snake and what a snake on it may look like. */
module SnakeBoard {
  const COLS := 31
  const ROWS := 13
  const CELLS := 403

  datatype Cell = Cell(x: int, y: int)

  datatype Way = Way(dx: int, dy: int)

  predicate Unit(d: Way) {
    d in {Way(1, 0), Way(-1, 0), Way(0, 1), Way(0, -1)}
  }

  function Opposite(d: Way): Way { Way(-d.dx, -d.dy) }

  function Ahead(c: Cell, d: Way): Cell { Cell(c.x + d.dx, c.y + d.dy) }

  predicate InBoard(c: Cell) {
    0 <= c.x < COLS && 0 <= c.y < ROWS
  }

  ghost predicate Adjacent(a: Cell, b: Cell) {
    exists d :: Unit(d) && Ahead(a, d) == b
  }

  function Cells(snake: seq<Cell>): set<Cell> {
    set i | 0 <= i < |snake| :: snake[i]
  }

  /** A self-avoiding path of adjacent cells of the board. */
  ghost predicate IsSnake(snake: seq<Cell>) {
    && snake != []
    && (forall i :: 0 <= i < |snake| ==> InBoard(snake[i]))
    && (forall i, j :: 0 <= i < j < |snake| ==> snake[i] != snake[j])
    && (forall i, j :: 0 <= i && j == i + 1 < |snake| ==> Adjacent(snake[j], snake[i]))
  }

  /** The second cell is the one the snake came from. */
  ghost predicate Heads(snake: seq<Cell>, d: Way) {
    |snake| >= 2 && Unit(d) && snake[0] == Ahead(snake[1], d)
  }

  /** One move: the tail stays behind only if the snake ate. */
  function Moved(snake: seq<Cell>, head: Cell, ate: bool): seq<Cell>
    requires snake != []
  {
    [head] + (if ate then snake else snake[..|snake| - 1])
  }

  /** A cell the body still occupies once the tail has moved on. */
  predicate Bites(snake: seq<Cell>, c: Cell)
    requires snake != []
  {
    c in snake[..|snake| - 1]
  }

  lemma MoveKeeps(snake: seq<Cell>, d: Way, ate: bool)
    requires IsSnake(snake) && Unit(d) && |snake| >= 2
    requires var head := Ahead(snake[0], d); InBoard(head) && !Bites(snake, head) && (ate ==> head !in snake)
    ensures var head := Ahead(snake[0], d); var s := Moved(snake, head, ate); IsSnake(s) && Heads(s, d)
    ensures var head := Ahead(snake[0], d);
      Cells(Moved(snake, head, ate)) == (if ate then Cells(snake) else Cells(snake) - {snake[|snake| - 1]}) + {head}
  {
    var head := Ahead(snake[0], d);
    var s := Moved(snake, head, ate);
    assert s[0] == head && s[1] == snake[0];
    assert forall i :: 0 < i < |s| ==> s[i] == snake[i - 1];
    assert Adjacent(s[1], s[0]);
    forall i, j | 0 <= i && j == i + 1 < |s|
      ensures Adjacent(s[j], s[i])
    {
      if i > 0 { assert Adjacent(snake[j - 1], snake[i - 1]); }
    }
    forall i, j | 0 <= i < j < |s|
      ensures s[i] != s[j]
    {
      if i > 0 { assert snake[i - 1] != snake[j - 1]; }
    }
    var kept := if ate then snake else snake[..|snake| - 1];
    assert Cells(s) == Cells(kept) + {head} by {
      assert s == [head] + kept;
      forall c | c in Cells(kept) ensures c in Cells(s) {
        var i :| 0 <= i < |kept| && kept[i] == c;
        assert s[i + 1] == c;
      }
    }
    if !ate {
      assert Cells(kept) == Cells(snake) - {snake[|snake| - 1]};
    }
  }

  /** Squares two steps apart on a path have the same colour. */
  lemma {:induction false} Colour(snake: seq<Cell>, i: nat)
    requires IsSnake(snake) && i < |snake|
    ensures (snake[i].x + snake[i].y - (snake[0].x + snake[0].y) - i) % 2 == 0
  {
    hide Unit, Ahead, InBoard;
    if i > 0 {
      Colour(snake, i - 1);
      assert Adjacent(snake[i], snake[i - 1]);
      var d :| Unit(d) && Ahead(snake[i], d) == snake[i - 1];
      StepChangesColour(snake[i], d);
      Parity(snake[i - 1].x + snake[i - 1].y, snake[i].x + snake[i].y, snake[0].x + snake[0].y, i);
    }
  }

  lemma Parity(p: int, q: int, z: int, i: int)
    requires (p - z - (i - 1)) % 2 == 0 && (p - q) % 2 == 1
    ensures (q - z - i) % 2 == 0
  {}

  lemma StepChangesColour(c: Cell, d: Way)
    requires Unit(d)
    ensures (Ahead(c, d).x + Ahead(c, d).y - (c.x + c.y)) % 2 == 1
  {}

  lemma NotBack(c: Cell, d: Way, next: Way)
    requires next != Opposite(d)
    ensures Ahead(Ahead(c, d), next) != c
  {}

  /** A snake can only bite a segment an odd number of steps back, and not its
      neck; with the tail out of the way that takes five segments. */
  lemma BiteIsOdd(snake: seq<Cell>, d: Way, next: Way, i: nat)
    requires IsSnake(snake) && Heads(snake, d) && Unit(next) && next != Opposite(d)
    requires i < |snake| && snake[i] == Ahead(snake[0], next)
    ensures i % 2 == 1 && i >= 3
  {
    hide IsSnake, Unit, Opposite, Ahead;
    Colour(snake, i);
    StepChangesColour(snake[0], next);
    NotBack(snake[1], d, next);
  }

  /** So four segments or fewer cannot bite at all. */
  lemma ShortNeverBites(snake: seq<Cell>, d: Way, next: Way)
    requires IsSnake(snake) && Heads(snake, d) && Unit(next) && next != Opposite(d)
    requires |snake| <= 4
    ensures !Bites(snake, Ahead(snake[0], next))
  {
    if i: nat :| i < |snake| - 1 && snake[i] == Ahead(snake[0], next) {
      BiteIsOdd(snake, d, next, i);
    }
  }

  lemma FourIsSnake(a: Cell, b: Cell, c: Cell, d: Cell)
    requires InBoard(a) && InBoard(b) && InBoard(c) && InBoard(d)
    requires Adjacent(b, a) && Adjacent(c, b) && Adjacent(d, c)
    requires a != b && a != c && a != d && b != c && b != d && c != d
    ensures IsSnake([a, b, c, d])
  {
    hide Adjacent, InBoard;
  }

  lemma StepAhead(c: Cell, d: Way)
    requires Unit(d)
    ensures Adjacent(c, Ahead(c, d))
  {}

  /** Five are enough: running round a square, a snake meets its fourth segment. */
  lemma FiveCanBite() returns (snake: seq<Cell>, d: Way, next: Way)
    ensures IsSnake(snake) && Heads(snake, d) && Unit(next) && next != Opposite(d)
    ensures |snake| == 5 && Bites(snake, Ahead(snake[0], next))
  {
    var four := [Cell(6, 6), Cell(6, 5), Cell(5, 5), Cell(4, 5)];
    StepAhead(four[1], Way(0, 1));
    StepAhead(four[2], Way(1, 0));
    StepAhead(four[3], Way(1, 0));
    FourIsSnake(four[0], four[1], four[2], four[3]);
    d, next := Way(-1, 0), Way(0, -1);
    snake := Moved(four, Cell(5, 6), true);
    hide IsSnake;
    MoveKeeps(four, d, true);
    assert Ahead(snake[0], next) == snake[3] == snake[..4][3];
  }

  // ── How long a snake can get ──

  function Columns(n: nat): set<Cell> {
    set x, y | 0 <= x < n && 0 <= y < ROWS :: Cell(x, y)
  }

  function ColumnPart(x: nat, m: nat): set<Cell> {
    set y | 0 <= y < m :: Cell(x, y)
  }

  lemma {:induction false} ColumnSize(x: nat, m: nat)
    ensures |ColumnPart(x, m)| == m
  {
    if m > 0 {
      ColumnSize(x, m - 1);
      assert ColumnPart(x, m) == ColumnPart(x, m - 1) + {Cell(x, m - 1)};
    }
  }

  lemma {:induction false} ColumnsSize(n: nat)
    ensures |Columns(n)| == n * ROWS
  {
    if n > 0 {
      ColumnsSize(n - 1);
      ColumnSize(n - 1, ROWS);
      assert Columns(n) == Columns(n - 1) + ColumnPart(n - 1, ROWS);
      assert Columns(n - 1) !! ColumnPart(n - 1, ROWS);
    }
  }

  lemma {:induction false} SnakeSize(snake: seq<Cell>)
    requires forall i, j :: 0 <= i < j < |snake| ==> snake[i] != snake[j]
    ensures |Cells(snake)| == |snake|
  {
    if snake != [] {
      var n := |snake| - 1;
      SnakeSize(snake[..n]);
      assert Cells(snake) == Cells(snake[..n]) + {snake[n]};
      assert snake[n] !in Cells(snake[..n]);
    } else {
      assert Cells(snake) == {};
    }
  }

  lemma {:induction false} SubsetSize(a: set<Cell>, b: set<Cell>)
    requires a <= b
    ensures |a| <= |b| && (|a| == |b| <==> a == b)
    decreases a
  {
    if a != {} {
      var c :| c in a;
      SubsetSize(a - {c}, b - {c});
    }
  }

  /** The board is full exactly when the snake has as many cells as it. */
  lemma FullBoard(snake: seq<Cell>)
    requires IsSnake(snake)
    ensures |snake| <= CELLS
    ensures |snake| == CELLS <==> Cells(snake) == Columns(COLS)
  {
    SnakeSize(snake);
    ColumnsSize(COLS);
    SubsetSize(Cells(snake), Columns(COLS));
  }

  // ── A tour of the board ──

  /** A walk through every cell: on along the fresh snake's row, back above it
      column by column, over the rows to the left, and below them all. */
  function Tour(i: nat): Cell {
    if i < 17 then Cell(14 + i, 6)
    else if i < 119 then
      var col, up := (i - 17) / 6, (i - 17) % 6;
      Cell(30 - col, if col % 2 == 0 then 5 - up else up)
    else if i < 217 then
      var row, left := (i - 119) / 14, (i - 119) % 14;
      Cell(if row % 2 == 0 then 13 - left else left, row)
    else
      var col, down := (i - 217) / 6, (i - 217) % 6;
      Cell(col, if col % 2 == 0 then 7 + down else 12 - down)
  }

  /** Where in the tour a cell comes. */
  function Place(c: Cell): int {
    if c.y > 6 then 217 + 6 * c.x + (if c.x % 2 == 0 then c.y - 7 else 12 - c.y)
    else if c.x < 14 then 119 + 14 * c.y + (if c.y % 2 == 0 then 13 - c.x else c.x)
    else if c.y == 6 then c.x - 14
    else 17 + 6 * (30 - c.x) + (if c.x % 2 == 0 then 5 - c.y else c.y)
  }

  lemma TourPlace(i: nat)
    requires i < CELLS
    ensures InBoard(Tour(i)) && Place(Tour(i)) == i
  {
    if 17 <= i < 119 {
      assert i - 17 == (i - 17) / 6 * 6 + (i - 17) % 6;
    } else if 119 <= i < 217 {
      assert i - 119 == (i - 119) / 14 * 14 + (i - 119) % 14;
    } else if 217 <= i {
      assert i - 217 == (i - 217) / 6 * 6 + (i - 217) % 6;
    }
  }

  /** The way from one cell of the tour to the next. */
  function TourWay(i: nat): Way {
    Way(Tour(i + 1).x - Tour(i).x, Tour(i + 1).y - Tour(i).y)
  }

  lemma NextInLine(j: nat, n: nat)
    requires n == 6 || n == 14
    ensures if j % n == n - 1 then (j + 1) / n == j / n + 1 && (j + 1) % n == 0
      else (j + 1) / n == j / n && (j + 1) % n == j % n + 1
    ensures (j / n + 1) % 2 == 1 - j / n % 2
  {
    if n == 6 {
      assert j == j / 6 * 6 + j % 6;
    } else {
      assert j == j / 14 * 14 + j % 14;
    }
  }

  lemma StepAbove(i: nat)
    requires 17 <= i < 118
    ensures Unit(TourWay(i))
  {
    NextInLine(i - 17, 6);
  }

  lemma StepLeft(i: nat)
    requires 119 <= i < 216
    ensures Unit(TourWay(i))
  {
    NextInLine(i - 119, 14);
  }

  lemma StepBelow(i: nat)
    requires 217 <= i
    ensures Unit(TourWay(i))
  {
    NextInLine(i - 217, 6);
  }

  lemma TourStep(i: nat)
    requires i + 1 < CELLS
    ensures Unit(TourWay(i)) && Ahead(Tour(i), TourWay(i)) == Tour(i + 1)
  {
    if 17 <= i < 118 {
      StepAbove(i);
    } else if 119 <= i < 216 {
      StepLeft(i);
    } else if 217 <= i {
      StepBelow(i);
    }
    hide Unit;
    if i < 17 || i == 118 || i == 216 { ShortSteps(i); }
  }

  /** Along the first row and across the seams. */
  lemma ShortSteps(i: nat)
    requires i < 17 || i == 118 || i == 216
    ensures Unit(TourWay(i))
  {}

  /** The tour never turns back on itself. */
  lemma TourTurns(i: nat)
    requires i + 2 < CELLS
    ensures TourWay(i + 1) != Opposite(TourWay(i))
  {
    TourPlace(i);
    TourPlace(i + 2);
    TourStep(i);
    TourStep(i + 1);
    hide Tour, Place;
    assert Tour(i) != Tour(i + 2);
  }

  /** A snake that has come this far, its tail still on the first cell. */
  function TourSnake(n: nat): (s: seq<Cell>)
    ensures |s| == n && forall i :: 0 <= i < n ==> s[i] == Tour(n - 1 - i)
  {
    seq(n, i requires 0 <= i < n => Tour(n - 1 - i))
  }

  /** It is one up to the last cell, and then it fills the board. */
  lemma TourIsSnake(n: nat)
    requires 1 <= n <= CELLS
    ensures IsSnake(TourSnake(n)) && (n == CELLS <==> Cells(TourSnake(n)) == Columns(COLS))
  {
    hide Tour, Place, TourWay, Unit, InBoard, Columns;
    var s := TourSnake(n);
    forall i | 0 <= i < n ensures InBoard(s[i]) { TourPlace(n - 1 - i); }
    forall i, j | 0 <= i < j < n ensures s[i] != s[j] {
      TourPlace(n - 1 - i);
      TourPlace(n - 1 - j);
    }
    forall i, j | 0 <= i && j == i + 1 < n ensures Adjacent(s[j], s[i]) { TourStep(n - 1 - j); }
    FullBoard(s);
  }

  /** Eating its way on, it stays on the tour. */
  lemma TourGrows(n: nat)
    requires 1 <= n < CELLS
    ensures TourSnake(n + 1) == Moved(TourSnake(n), Tour(n), true)
    ensures Ahead(TourSnake(n)[0], TourWay(n - 1)) == Tour(n) && InBoard(Tour(n)) && Tour(n) !in TourSnake(n)
  {
    TourStep(n - 1);
    TourPlace(n);
    hide Tour, TourWay;
    forall i: nat | i < n ensures TourSnake(n)[i] != Tour(n) { TourPlace(n - 1 - i); }
  }
}
