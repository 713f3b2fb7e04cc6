/** Durable Snake: one run of the game, over all its lives. */
module DurableSnake {
  import opened Options
  import opened SnakeBoard

  const LIVES_START := 3
  const BONUS_MIN_FOOD := 5
  const BONUS_LIFETIME_MS := 6000
  const START_STEP_MS := 170
  const MIN_STEP_MS := 38

  // ── The pace ──

  function Shorter(ms: nat): (r: int) {
    ms - (if ms / 13 < 1 then 1 else ms / 13)
  }

  /** The pace after n apples: a thirteenth off each time, down to the floor. */
  function Interval(n: nat): (r: nat)
    ensures MIN_STEP_MS <= r <= START_STEP_MS
  {
    if n == 0 then START_STEP_MS
    else if Shorter(Interval(n - 1)) < MIN_STEP_MS then MIN_STEP_MS
    else Shorter(Interval(n - 1))
  }

  method ComputeInterval(foodCount: nat) returns (ms: nat)
    ensures ms == Interval(foodCount)
  {
    var interval: int := START_STEP_MS;
    var n := foodCount;
    while n > 0
      invariant 0 <= n <= foodCount
      invariant Interval(foodCount - n) == if interval < MIN_STEP_MS then MIN_STEP_MS else interval
      decreases n
    {
      if interval <= MIN_STEP_MS {
        StaysAtFloor(foodCount - n, foodCount);
        return MIN_STEP_MS;
      }
      var decrement := interval / 13;
      if decrement < 1 {
        decrement := 1;
      }
      interval := interval - decrement;
      n := n - 1;
    }
    if interval < MIN_STEP_MS {
      return MIN_STEP_MS;
    }
    return interval;
  }

  lemma {:induction false} StaysAtFloor(m: nat, n: nat)
    requires m <= n && Interval(m) == MIN_STEP_MS
    ensures Interval(n) == MIN_STEP_MS
  {
    if m < n {
      StaysAtFloor(m, n - 1);
    }
  }

  const PACES: seq<nat> :=
    [170, 157, 145, 134, 124, 115, 107, 99, 92, 85, 79, 73, 68, 63, 59, 55, 51, 48, 45, 42, 39, 38]

  lemma NextPace(n: nat)
    requires 0 < n < |PACES|
    ensures PACES[n] == if Shorter(PACES[n - 1]) < MIN_STEP_MS then MIN_STEP_MS else Shorter(PACES[n - 1])
  {}

  lemma {:induction false} Paces(n: nat)
    requires n < |PACES|
    ensures Interval(n) == PACES[n]
  {
    if n > 0 {
      Paces(n - 1);
      NextPace(n);
    }
  }

  lemma Quickens(n: nat)
    requires Interval(n) > MIN_STEP_MS
    ensures Interval(n + 1) < Interval(n)
  {}

  /** Every apple makes the game faster until the floor, reached with the 21st. */
  lemma PaceQuickens(n: nat)
    ensures Interval(n + 1) < Interval(n) <==> n < 21
    ensures Interval(n) == MIN_STEP_MS <==> n >= 21
  {
    hide Interval;
    Paces(20);
    Paces(21);
    if n >= 21 {
      StaysAtFloor(21, n);
      StaysAtFloor(21, n + 1);
    } else {
      if Interval(n) == MIN_STEP_MS {
        StaysAtFloor(n, 20);
      }
      Quickens(n);
    }
  }

  // ── The clock: MicroPython's 30-bit ticks ──

  const PERIOD := 0x4000_0000

  function TicksDiff(a: int, b: int): int {
    (a - b + PERIOD / 2) % PERIOD - PERIOD / 2
  }

  function TicksAdd(a: int, d: int): int {
    (a + d) % PERIOD
  }

  /** A time set d ms ahead is d ms ahead, while that is less than half a period. */
  lemma TicksRoundTrip(a: int, d: int)
    requires -PERIOD / 2 <= d < PERIOD / 2
    ensures TicksDiff(TicksAdd(a, d), a) == d
  {
    var q := (a + d) / PERIOD;
    assert (a + d) % PERIOD == a + d - q * PERIOD;
    Around(d + PERIOD / 2, -q);
  }

  lemma Around(v: nat, q: int)
    requires v < PERIOD
    ensures (v + q * PERIOD) % PERIOD == v
  {}

  /** A bonus is there for six seconds. */
  lemma BonusLasts(now: int, later: nat)
    requires later <= BONUS_LIFETIME_MS
    ensures TicksDiff(TicksAdd(now, 6000), TicksAdd(now, later)) <= 0 <==> later >= 6000
  {
    TicksRoundTrip(TicksAdd(now, later), 6000 - later);
    Shifted(now, later, 6000 - later);
  }

  lemma Shifted(a: int, d: int, e: int)
    ensures TicksAdd(TicksAdd(a, d), e) == TicksAdd(a, d + e)
  {
    var q := (a + d) / PERIOD;
    assert (a + d) % PERIOD == a + d - q * PERIOD;
    Whole30(a + d + e, -q);
  }

  lemma Whole30(v: int, q: int)
    ensures (v + q * PERIOD) % PERIOD == v % PERIOD
  {}

  datatype Reason = Quit | WallHit | SnakeBite

  /** Hung: every cell is snake and the search for a free one never ends. */
  datatype Outcome = Alive | Dead | Hung

  /** What one pass sees, and the cell the generator draws first if it is asked. */
  datatype Input = Input(now: int, x: int, y: int, quit: bool, retry: bool, first: Cell)

  predicate StickInput(i: Input) {
    -1 <= i.x <= 1 && -1 <= i.y <= 1
  }

  function FreshSnake(): seq<Cell> { [Cell(16, 6), Cell(15, 6), Cell(14, 6)] }

  function FreshBody(): set<Cell> { {Cell(16, 6), Cell(15, 6), Cell(14, 6)} }

  lemma FreshIsSnake()
    ensures IsSnake(FreshSnake()) && Heads(FreshSnake(), Way(1, 0)) && |FreshSnake()| == 3
    ensures Cells(FreshSnake()) == FreshBody()
  {
    hide Adjacent;
    var s := FreshSnake();
    StepAhead(s[1], Way(1, 0));
    StepAhead(s[2], Way(1, 0));
    assert forall i, j :: 0 <= i && j == i + 1 < |s| ==> Adjacent(s[j], s[i]);
    assert s[0] == Cell(16, 6) && s[1] == Cell(15, 6) && s[2] == Cell(14, 6);
  }

  lemma FreshIsPaced(foodCount: nat)
    ensures Paced(FreshSnake(), foodCount, 0, START_STEP_MS)
  {}

  lemma SamePace(before: seq<Cell>, after: seq<Cell>, foodCount: nat, speedCount: nat, stepMs: nat)
    requires Paced(before, foodCount, speedCount, stepMs) && |before| == |after|
    ensures Paced(after, foodCount, speedCount, stepMs)
  {}

  lemma UnitOfHeads(snake: seq<Cell>, d: Way)
    requires Heads(snake, d)
    ensures Unit(d) && |snake| >= 2
  {}

  lemma Onward(d: Way)
    requires Unit(d)
    ensures d != Opposite(d)
  {}

  predicate Free(c: Cell, body: set<Cell>) {
    InBoard(c) && c !in body
  }

  /** A free cell, the first one drawn if that is free, or none when the board is
      full and the draw never succeeds. */
  method RandomFreeCell(body: set<Cell>, first: Cell) returns (cell: Option<Cell>)
    ensures cell.None? <==> Columns(COLS) <= body
    ensures cell.Some? ==> Free(cell.value, body)
    ensures Free(first, body) ==> cell == Some(first)
  {
    hide Columns;
    if InBoard(first) && first !in body {
      InColumns(first);
      return Some(first);
    }
    var free := Columns(COLS) - body;
    if free == {} {
      assert forall c :: c in Columns(COLS) ==> c !in free;
      return None;
    }
    var c :| c in free;
    InColumns(c);
    return Some(c);
  }

  lemma InColumns(c: Cell)
    ensures c in Columns(COLS) <==> InBoard(c)
  {}

  /** Food lies on the board, off the snake; a bonus needs a life to give. */
  ghost predicate FoodOk(food: Cell, isBonus: bool, expires: Option<int>, body: set<Cell>, foodCount: nat, lives: nat) {
    InBoard(food) && food !in body && (isBonus ==> lives < LIVES_START && foodCount >= BONUS_MIN_FOOD && expires.Some?)
  }

  /** Lives are conserved: three, less those lost, plus the tardigrades caught. */
  ghost predicate Conserved(lives: nat, deaths: nat, caught: nat) {
    lives + deaths == LIVES_START + caught && lives <= LIVES_START
  }

  ghost predicate Paced(snake: seq<Cell>, foodCount: nat, speedCount: nat, stepMs: nat) {
    speedCount <= foodCount && stepMs == Interval(speedCount) && |snake| >= 3 + speedCount
  }

  // ── One pass, as a step between states ──

  datatype State = State(snake: seq<Cell>, body: set<Cell>, dir: Way, nextDir: Way, food: Cell, foodIsBonus: bool,
    foodExpiresAt: Option<int>, foodCount: nat, speedCount: nat, stepMs: nat, lastStep: int, lives: nat, reason: Reason,
    deaths: nat, caught: nat)

  /** Where the stick sends the snake; sideways counts first, straight back not at all. */
  function TurnedWay(dir: Way, nextDir: Way, x: int, y: int): Way {
    var proposed := if x != 0 then Way(x, 0) else Way(0, y);
    if (x == 0 && y == 0) || proposed == Opposite(dir) then nextDir else proposed
  }

  ghost predicate Drawn(cell: Cell, body: set<Cell>, first: Cell) {
    Free(cell, body) && (Free(first, body) ==> cell == first)
  }

  /** A bonus that ran out makes way for ordinary food. */
  ghost predicate Expired(a: State, now: int, first: Cell, b: State) {
    if a.foodIsBonus && a.foodExpiresAt.Some? && TicksDiff(a.foodExpiresAt.value, now) <= 0 then
      b == a.(foodIsBonus := false, foodExpiresAt := None, food := b.food) && Drawn(b.food, a.body, first)
    else b == a
  }

  /** New food, which may be a bonus only late in the game and with a life missing. */
  ghost predicate Spawned(a: State, now: int, first: Cell, b: State) {
    && b == a.(food := b.food, foodIsBonus := b.foodIsBonus, foodExpiresAt := b.foodExpiresAt)
    && Drawn(b.food, a.body, first)
    && (b.foodIsBonus ==> a.foodCount >= BONUS_MIN_FOOD && a.lives < LIVES_START)
    && b.foodExpiresAt == if b.foodIsBonus then Some(TicksAdd(now, BONUS_LIFETIME_MS)) else None
  }

  /** What a meal is worth: a bonus a life, anything else a point and a faster pace. */
  ghost function Fed(a: State): State {
    if a.foodIsBonus then a.(lives := a.lives + 1, caught := a.caught + 1)
    else a.(foodCount := a.foodCount + 1, speedCount := a.speedCount + 1, stepMs := Interval(a.speedCount + 1))
  }

  /** A meal on a board that it fills is the last thing that happens. */
  ghost predicate Ate(a: State, now: int, first: Cell, b: State, outcome: Outcome) {
    if |a.snake| == CELLS then outcome == Hung && b == Fed(a) else outcome == Alive && Spawned(Fed(a), now, first, b)
  }

  /** A step that is due. */
  ghost predicate Moves(a: State, now: int, first: Cell, b: State, outcome: Outcome)
    requires a.snake != []
  {
    var c, head := a.(lastStep := now, dir := a.nextDir), Ahead(a.snake[0], a.nextDir);
    if !InBoard(head) then outcome == Dead && b == c.(reason := WallHit)
    else if Bites(a.snake, head) then outcome == Dead && b == c.(reason := SnakeBite)
    else
      var ate := head == a.food;
      var d := c.(snake := Moved(a.snake, head, ate), body := Cells(Moved(a.snake, head, ate)));
      if ate then Ate(d, now, first, b, outcome) else outcome == Alive && b == d
  }

  ghost predicate Steps(a: State, now: int, first: Cell, b: State, outcome: Outcome)
    requires a.snake != []
  {
    exists m: State :: Expired(a, now, first, m) && m.snake == a.snake &&
      if TicksDiff(now, a.lastStep) < a.stepMs then outcome == Alive && b == m else Moves(m, now, first, b, outcome)
  }

  /** A step moves at most one cell and only when it is due. The snake dies exactly
      by leaving the board or entering a cell it still occupies, so an eating step
      never dies; each meal is worth one life or one point. */
  lemma StepMeans(a: State, now: int, first: Cell, b: State, outcome: Outcome)
    requires a.snake != [] && Steps(a, now, first, b, outcome)
    ensures var due, head := TicksDiff(now, a.lastStep) >= a.stepMs, Ahead(a.snake[0], a.nextDir);
      && (outcome == Dead <==> due && (!InBoard(head) || Bites(a.snake, head)))
      && (b.snake != a.snake ==>
          due && InBoard(head) && outcome != Dead && b.snake == Moved(a.snake, head, |b.snake| > |a.snake|))
      && (outcome == Hung <==> |b.snake| > |a.snake| && |b.snake| == CELLS)
    ensures b.deaths == a.deaths && b.lives - a.lives == b.caught - a.caught >= 0
    ensures b.lives + b.foodCount == a.lives + a.foodCount + if |b.snake| > |a.snake| then 1 else 0
  {
    hide TicksDiff, Ahead, InBoard, Bites, Cells, Interval, Free;
  }

  /** new_run: food is never a bonus while no life is missing. */
  ghost predicate Begins(now: int, first: Cell, b: State) {
    && b == State(FreshSnake(), FreshBody(), Way(1, 0), Way(1, 0), b.food, false, None, 0, 0, START_STEP_MS, now,
                  LIVES_START, Quit, 0, 0)
    && Drawn(b.food, FreshBody(), first)
  }

  /** restart_after_continue: a fresh snake at the first pace; score and lives stay. */
  ghost predicate Restarts(a: State, now: int, first: Cell, b: State) {
    Spawned(a.(snake := FreshSnake(), body := FreshBody(), dir := Way(1, 0), nextDir := Way(1, 0), speedCount := 0,
               stepMs := START_STEP_MS, lastStep := now, foodIsBonus := false, foodExpiresAt := None, reason := Quit),
            now, first, b)
  }

  /** Turn, then step. */
  ghost predicate Passes(a: State, input: Input, b: State, outcome: Outcome)
    requires a.snake != []
  {
    Steps(a.(nextDir := TurnedWay(a.dir, a.nextDir, input.x, input.y)), input.now, input.first, b, outcome)
  }

  class Game {
    var snake: seq<Cell>
    var body: set<Cell>
    var dir: Way
    var nextDir: Way
    var food: Cell
    var foodIsBonus: bool
    var foodExpiresAt: Option<int>
    var foodCount: nat
    var speedCount: nat
    var stepMs: nat
    var lastStep: int
    var lives: nat
    var reason: Reason
    ghost var deaths: nat
    ghost var caught: nat

    /** Between steps of a life. */
    ghost predicate Playing()
      reads this
    {
      && IsSnake(snake) && body == Cells(snake)
      && Heads(snake, dir) && Unit(nextDir) && nextDir != Opposite(dir)
      && FoodOk(food, foodIsBonus, foodExpiresAt, body, foodCount, lives)
      && Paced(snake, foodCount, speedCount, stepMs)
      && 1 <= lives && Conserved(lives, deaths, caught)
    }

    ghost function Here(): State
      reads this
    {
      State(snake, body, dir, nextDir, food, foodIsBonus, foodExpiresAt, foodCount, speedCount, stepMs, lastStep, lives,
            reason, deaths, caught)
    }

    method SpawnFood(now: int, first: Cell) returns (ok: bool)
      requires IsSnake(snake) && body == Cells(snake)
      modifies this`food, this`foodIsBonus, this`foodExpiresAt
      ensures ok <==> |snake| < CELLS
      ensures ok ==> FoodOk(food, foodIsBonus, foodExpiresAt, body, foodCount, lives)
      ensures ok ==> Spawned(old(Here()), now, first, Here())
      ensures !ok ==> Here() == old(Here())
    {
      hide IsSnake, Columns, Cells;
      FullBoard(snake);
      SnakeInColumns(snake);
      var cell := RandomFreeCell(body, first);
      if cell.None? {
        return false;
      }
      var drawn: bool := *;
      var canBonus := foodCount >= BONUS_MIN_FOOD && lives < LIVES_START && drawn;
      food := cell.value;
      foodIsBonus := canBonus;
      foodExpiresAt := if canBonus then Some(TicksAdd(now, BONUS_LIFETIME_MS)) else None;
      return true;
    }

    /** new_run. */
    constructor (now: int, first: Cell)
      ensures Playing() && snake == FreshSnake() && lives == LIVES_START && deaths == 0 && caught == 0
      ensures Begins(now, first, Here())
    {
      snake := FreshSnake();
      body := FreshBody();
      dir, nextDir := Way(1, 0), Way(1, 0);
      food, foodIsBonus, foodExpiresAt := Cell(0, 0), false, None;
      foodCount, speedCount, stepMs, lastStep := 0, 0, START_STEP_MS, now;
      lives, reason := LIVES_START, Quit;
      deaths, caught := 0, 0;
      new;
      hide FreshSnake, FreshBody, IsSnake, Cells, Columns, Paced, Heads, Unit, Interval, FoodOk, Free, Opposite;
      Onward(Way(1, 0));
      FreshIsSnake();
      FreshIsPaced(0);
      UnitOfHeads(FreshSnake(), Way(1, 0));
      var ok := SpawnFood(now, first);
    }

    method RestartAfterContinue(now: int, first: Cell)
      requires 1 <= lives && Conserved(lives, deaths, caught)
      modifies this
      ensures Playing() && Restarts(old(Here()), now, first, Here())
    {
      hide FreshSnake, FreshBody, IsSnake, Cells, Columns, Paced, Heads, Unit, Interval, FoodOk, Free, Opposite;
      hide Spawned, Drawn;
      Onward(Way(1, 0));
      FreshIsSnake();
      FreshIsPaced(foodCount);
      UnitOfHeads(FreshSnake(), Way(1, 0));
      snake := FreshSnake();
      body := FreshBody();
      dir, nextDir := Way(1, 0), Way(1, 0);
      speedCount, stepMs, lastStep := 0, START_STEP_MS, now;
      foodIsBonus, foodExpiresAt := false, None;
      reason := Quit;
      var ok := SpawnFood(now, first);
    }

    /** However often it is called between two steps, the snake never reverses. */
    method Turn(x: int, y: int)
      requires Playing() && -1 <= x <= 1 && -1 <= y <= 1
      modifies this`nextDir
      ensures Playing()
      ensures nextDir == TurnedWay(dir, old(nextDir), x, y)
    {
      hide IsSnake, Cells, Columns, FoodOk, Paced, Conserved, Heads;
      var proposed;
      if x != 0 {
        proposed := Way(x, 0);
      } else if y != 0 {
        proposed := Way(0, y);
      } else {
        return;
      }
      if proposed.dx == -dir.dx && proposed.dy == -dir.dy {
        return;
      }
      nextDir := proposed;
    }

    method ExpireBonus(now: int, first: Cell)
      requires Playing()
      modifies this`food, this`foodIsBonus, this`foodExpiresAt
      ensures Playing() && Expired(old(Here()), now, first, Here())
    {
      hide IsSnake, Cells, Columns, Paced, Conserved, Heads;
      if foodIsBonus && foodExpiresAt.Some? {
        if TicksDiff(foodExpiresAt.value, now) <= 0 {
          FoodFacts(food, foodIsBonus, foodExpiresAt, body, foodCount, lives);
          foodIsBonus := false;
          foodExpiresAt := None;
          var cell := RandomFreeCell(body, first);
          food := cell.value;
        }
      }
    }

    /** The snake grows and its meal is credited. */
    method Eat(now: int, first: Cell) returns (outcome: Outcome)
      requires IsSnake(snake) && body == Cells(snake) && Paced(snake[1..], foodCount, speedCount, stepMs)
      requires foodIsBonus ==> lives < LIVES_START
      requires 1 <= lives && Conserved(lives, deaths, caught)
      modifies this`food, this`foodIsBonus, this`foodExpiresAt, this`foodCount, this`speedCount, this`stepMs,
        this`lives, this`caught
      ensures outcome == if |snake| < CELLS then Alive else Hung
      ensures Paced(snake, foodCount, speedCount, stepMs) && 1 <= lives && Conserved(lives, deaths, caught)
      ensures outcome == Alive ==> FoodOk(food, foodIsBonus, foodExpiresAt, body, foodCount, lives)
      ensures Ate(old(Here()), now, first, Here(), outcome)
    {
      hide IsSnake, Cells, Columns, Interval, Heads;
      FullBoard(snake);
      NotEmpty(snake);
      if foodIsBonus {
        if lives < LIVES_START {
          lives := lives + 1;
          caught := caught + 1;
        }
      } else {
        foodCount := foodCount + 1;
        speedCount := speedCount + 1;
        stepMs := ComputeInterval(speedCount);
      }
      var ok := SpawnFood(now, first);
      outcome := if ok then Alive else Hung;
    }

    /** The tail leaves unless the snake eats; if the head bites, it is put back. */
    method Enter(newHead: Cell, eating: bool) returns (bitten: bool)
      requires IsSnake(snake) && body == Cells(snake) && (eating ==> newHead !in body)
      modifies this`snake, this`body
      ensures bitten <==> Bites(old(snake), newHead)
      ensures snake == if bitten then old(snake) else Moved(old(snake), newHead, eating)
      ensures body == if bitten then old(body)
        else (if eating then old(body) else old(body) - {old(snake[|snake| - 1])}) + {newHead}
    {
      hide IsSnake, Cells, Bites;
      NotEmpty(snake);
      Membership(snake, newHead);
      ghost var was := snake;
      var tail := None;
      if !eating {
        tail := Some(snake[|snake| - 1]);
        snake := snake[..|snake| - 1];
        body := body - {tail.value};
      }
      if newHead in body {
        if tail.Some? {
          snake := snake + [tail.value];
          body := body + {tail.value};
          PutBack(was);
        }
        return true;
      }
      snake := [newHead] + snake;
      body := body + {newHead};
      return false;
    }

    /** What follows once the head has arrived. */
    method Settle(now: int, first: Cell, eating: bool, ghost was: seq<Cell>) returns (outcome: Outcome)
      requires IsSnake(was) && IsSnake(snake) && body == Cells(snake) && Heads(snake, dir) && nextDir == dir
      requires snake == Moved(was, snake[0], eating)
      requires FoodOk(food, foodIsBonus, foodExpiresAt, Cells(was), foodCount, lives)
        && Paced(was, foodCount, speedCount, stepMs)
      requires !eating ==> body == Cells(was) - {was[|was| - 1]} + {snake[0]} && snake[0] != food
      requires 1 <= lives && Conserved(lives, deaths, caught)
      modifies this`food, this`foodIsBonus, this`foodExpiresAt, this`foodCount, this`speedCount, this`stepMs,
        this`lives, this`caught
      ensures outcome == Alive ==> Playing()
      ensures outcome == if eating && |was| == CELLS - 1 then Hung else Alive
      ensures if eating then Ate(old(Here()), now, first, Here(), outcome) else Here() == old(Here())
      ensures Conserved(lives, deaths, caught)
    {
      hide IsSnake, Cells, Columns, Interval, FoodOk, Heads, Unit, Opposite, Paced, Conserved, InBoard, Moved;
      UnitOfHeads(snake, dir);
      Onward(dir);
      NotEmpty(was);
      MovedIs(was, snake[0], eating);
      FullBoard(snake);
      FoodFacts(food, foodIsBonus, foodExpiresAt, Cells(was), foodCount, lives);
      if eating {
        outcome := Eat(now, first);
      } else {
        FoodStays(food, foodIsBonus, foodExpiresAt, Cells(was), was[|was| - 1], snake[0], foodCount, lives);
        SamePace(was, snake, foodCount, speedCount, stepMs);
        outcome := Alive;
      }
    }

    /** The move of a step that is due. */
    method Move(now: int, first: Cell) returns (outcome: Outcome)
      requires Playing()
      modifies this
      ensures Moves(old(Here()), now, first, Here(), outcome)
      ensures outcome == Alive ==> Playing()
      ensures IsSnake(snake) && 1 <= lives && Conserved(lives, deaths, caught)
    {
      hide IsSnake, Cells, Columns, Interval, FoodOk, Heads, Unit, Opposite, Paced, Conserved, InBoard, Bites, Ahead,
        Moved, Free, Bites;
      UnitOfHeads(snake, dir);
      FoodFacts(food, foodIsBonus, foodExpiresAt, body, foodCount, lives);
      lastStep := now;
      dir := nextDir;
      Onward(dir);
      var newHead := Ahead(snake[0], dir);
      assert IsSnake(snake) && body == Cells(snake) && Paced(snake, foodCount, speedCount, stepMs);
      hide Playing;
      if !InBoard(newHead) {
        reason := WallHit;
        return Dead;
      }
      var eating := newHead == food;
      ghost var was := snake;
      Membership(was, newHead);
      var bitten := Enter(newHead, eating);
      if bitten {
        reason := SnakeBite;
        return Dead;
      }
      MoveKeeps(was, dir, eating);
      MovedIs(was, newHead, eating);
      outcome := Settle(now, first, eating, was);
    }

    /** One pass of the game: at most one move, and the snake dies exactly by
        leaving the board or entering a cell it still occupies. */
    method Step(now: int, first: Cell) returns (outcome: Outcome)
      requires Playing()
      modifies this
      ensures Steps(old(Here()), now, first, Here(), outcome)
      ensures outcome == Alive ==> Playing()
      ensures IsSnake(snake) && 1 <= lives && Conserved(lives, deaths, caught)
    {
      hide IsSnake, Cells, Columns, Interval, FoodOk, Heads, Unit, Opposite, Paced, Conserved, TicksDiff, InBoard,
        Moved, Bites;
      UnitOfHeads(snake, dir);
      ExpireBonus(now, first);
      if TicksDiff(now, lastStep) < stepMs {
        return Alive;
      }
      outcome := Move(now, first);
    }

    /** death_animation: the list shrinks to the head, the set does not. */
    method DeathAnimation()
      requires snake != []
      modifies this`snake
      ensures snake == old(snake)[..1]
    {
      while |snake| > 1
        invariant snake != [] && snake <= old(snake)
        decreases |snake|
      {
        snake := snake[..|snake| - 1];
      }
    }

    /** A death costs a life; the last one ends the run. */
    method TakeLife() returns (left: bool)
      requires 1 <= lives && Conserved(lives, deaths, caught)
      modifies this`lives, this`deaths
      ensures left <==> old(lives) > 1
      ensures Here() == old(Here()).(deaths := old(deaths) + 1, lives := if left then old(lives) - 1 else 0)
      ensures Conserved(lives, deaths, caught) && (left <==> deaths != LIVES_START + caught)
    {
      deaths := deaths + 1;
      if lives <= 1 {
        lives := 0;
        return false;
      }
      lives := lives - 1;
      return true;
    }

    /** One life, over the inputs at hand: its passes, in order, until it ends or
        the inputs do. */
    method PlayLoop(inputs: seq<Input>) returns (end: End, rest: seq<Input>, ghost passes: seq<Pass>)
      requires Playing() && forall i :: i in inputs ==> StickInput(i)
      modifies this
      ensures Life(old(Here()), inputs, passes) && rest == inputs[|passes|..]
      ensures end == LifeEnd(inputs, passes) && (end == StillOn ==> rest == [])
      ensures Here() == AfterLife(old(Here()), inputs, passes)
      ensures end in {StillOn, Over} ==> Playing()
      ensures (end == Stuck ==> |snake| == CELLS) && (end == Died ==> |snake| == 1)
      ensures 1 <= lives && Conserved(lives, deaths, caught)
    {
      hide IsSnake, Cells, Columns, FoodOk, Paced, Heads, Conserved, Life, Passes, StickInput, Steps, TurnedWay;
      hide LifeEnd, LastState, AfterLife;
      passes := [];
      ghost var s := Here();
      NoPasses(s, inputs);
      var k := 0;
      while k < |inputs|
        invariant k == |passes| <= |inputs| && Playing() && Life(s, inputs, passes)
        invariant LifeEnd(inputs, passes) == StillOn && Here() == LastState(s, passes)
      {
        var input := inputs[k];
        assert input in inputs;
        StickIs(input);
        k := k + 1;
        NotEmpty(snake);
        ghost var before := Here();
        Turn(input.x, input.y);
        var outcome := Step(input.now, input.first);
        PassIs(before, input, Here(), outcome);
        OnePass(s, inputs, passes, Pass(before, Here(), outcome));
        NotEmpty(snake);
        passes := passes + [Pass(before, Here(), outcome)];
        EndsSo(s, inputs, passes);
        if outcome == Hung {
          HungIsFull(before, input, Here());
          return Stuck, inputs[k..], passes;
        }
        if outcome == Dead {
          DeathAnimation();
          return Died, inputs[k..], passes;
        }
        if input.quit {
          reason := Quit;
          return Over, inputs[k..], passes;
        }
      }
      EndsSo(s, inputs, passes);
      return StillOn, inputs[k..], passes;
    }
  }

  lemma StickIs(i: Input)
    requires StickInput(i)
    ensures -1 <= i.x <= 1 && -1 <= i.y <= 1
  {}

  lemma PassIs(a: State, input: Input, b: State, outcome: Outcome)
    requires a.snake != []
    requires Steps(a.(nextDir := TurnedWay(a.dir, a.nextDir, input.x, input.y)), input.now, input.first, b, outcome)
    ensures Passes(a, input, b, outcome)
  {}

  lemma HungIsFull(a: State, input: Input, b: State)
    requires a.snake != [] && Passes(a, input, b, Hung)
    ensures |b.snake| == CELLS
  {}

  // ── Lives and runs, said of the inputs ──

  /** Stuck: the run hangs. Stopped: the retry was declined. Lost: no lives. */
  datatype End = StillOn | Died | Over | Stuck | Stopped | Lost

  datatype Pass = Pass(before: State, after: State, outcome: Outcome)

  /** One pass for each input from the first on; another follows only on a pass
      that the snake survived and on which quit was not pressed. */
  ghost predicate Life(s: State, inputs: seq<Input>, passes: seq<Pass>) {
    && |passes| <= |inputs| && (passes != [] ==> passes[0].before == s)
    && (forall k :: 0 <= k < |passes| ==> IsPass(passes[k], inputs[k]))
    && (forall j, k :: 0 <= j && k == j + 1 < |passes| ==> GoesOn(passes[j], inputs[j], passes[k]))
  }

  ghost predicate IsPass(p: Pass, input: Input) {
    p.before.snake != [] && Passes(p.before, input, p.after, p.outcome)
  }

  ghost predicate GoesOn(p: Pass, input: Input, next: Pass) {
    next.before == p.after && p.outcome == Alive && !input.quit
  }

  ghost function LastState(s: State, passes: seq<Pass>): State {
    if passes == [] then s else passes[|passes| - 1].after
  }

  /** How a life ends is settled by its last pass. */
  ghost function LifeEnd(inputs: seq<Input>, passes: seq<Pass>): (end: End)
    requires |passes| <= |inputs|
    ensures end in {StillOn, Died, Over, Stuck}
  {
    if passes == [] then StillOn
    else
      match passes[|passes| - 1].outcome
      case Dead => Died
      case Hung => Stuck
      case Alive => if inputs[|passes| - 1].quit then Over else StillOn
  }

  /** What the end of a life makes of the state: the animation leaves the head only. */
  ghost function AfterLife(s: State, inputs: seq<Input>, passes: seq<Pass>): State
    requires |passes| <= |inputs|
  {
    var t := LastState(s, passes);
    match LifeEnd(inputs, passes)
    case Died => if t.snake == [] then t else t.(snake := t.snake[..1])
    case Over => t.(reason := Quit)
    case _ => t
  }

  lemma NoPasses(s: State, inputs: seq<Input>)
    ensures Life(s, inputs, []) && LifeEnd(inputs, []) == StillOn && LastState(s, []) == s
  {}

  lemma OnePass(s: State, inputs: seq<Input>, passes: seq<Pass>, p: Pass)
    requires Life(s, inputs, passes) && |passes| < |inputs| && LifeEnd(inputs, passes) == StillOn
    requires p.before == LastState(s, passes) && p.before.snake != []
    requires Passes(p.before, inputs[|passes|], p.after, p.outcome)
    ensures Life(s, inputs, passes + [p]) && LastState(s, passes + [p]) == p.after
    ensures var q := inputs[|passes|].quit;
      LifeEnd(inputs, passes + [p]) == match p.outcome
        case Dead => Died
        case Hung => Stuck
        case Alive => if q then Over else StillOn
  {
    hide Passes;
    if passes != [] { StillAlive(inputs, passes); }
    LifeGrows(s, inputs, passes, p);
  }

  lemma StillAlive(inputs: seq<Input>, passes: seq<Pass>)
    requires passes != [] && |passes| <= |inputs| && LifeEnd(inputs, passes) == StillOn
    ensures passes[|passes| - 1].outcome == Alive && !inputs[|passes| - 1].quit
  {}

  lemma LifeGrows(s: State, inputs: seq<Input>, passes: seq<Pass>, p: Pass)
    requires Life(s, inputs, passes) && |passes| < |inputs| && IsPass(p, inputs[|passes|])
    requires if passes == [] then p.before == s else GoesOn(passes[|passes| - 1], inputs[|passes| - 1], p)
    ensures Life(s, inputs, passes + [p])
  {
    hide IsPass, GoesOn;
  }

  lemma EndsSo(s: State, inputs: seq<Input>, passes: seq<Pass>)
    requires |passes| <= |inputs|
    ensures var t := LastState(s, passes);
      AfterLife(s, inputs, passes) == match LifeEnd(inputs, passes)
        case Died => if t.snake == [] then t else t.(snake := t.snake[..1])
        case Over => t.(reason := Quit)
        case _ => t
  {}

  /** A life of a run: where it starts, at which input, and its passes. */
  datatype Record = Record(start: State, from: nat, passes: seq<Pass>)

  /** Where the input after the life stands. */
  ghost function Next(r: Record): nat {
    r.from + |r.passes|
  }

  ghost predicate Recorded(inputs: seq<Input>, r: Record) {
    Next(r) <= |inputs| && Life(r.start, inputs[r.from..], r.passes)
  }

  ghost function EndOf(inputs: seq<Input>, r: Record): End
    requires Recorded(inputs, r)
  {
    LifeEnd(inputs[r.from..], r.passes)
  }

  ghost function After(inputs: seq<Input>, r: Record): State
    requires Recorded(inputs, r)
  {
    AfterLife(r.start, inputs[r.from..], r.passes)
  }

  /** The life ended in a death with another life left. */
  ghost predicate MayRetry(inputs: seq<Input>, r: Record)
    requires Recorded(inputs, r)
  {
    EndOf(inputs, r) == Died && After(inputs, r).lives > 1
  }

  /** One life follows another only on a retry, which is the input after a death. */
  ghost predicate FollowedBy(inputs: seq<Input>, r: Record, next: Record) {
    && Recorded(inputs, r) && MayRetry(inputs, r) && Next(r) < |inputs| && inputs[Next(r)].retry
    && next.from == Next(r) + 1
    && var t, input := After(inputs, r), inputs[Next(r)];
       Restarts(t.(deaths := t.deaths + 1, lives := t.lives - 1), input.now, input.first, next.start)
  }

  ghost predicate Lives(inputs: seq<Input>, log: seq<Record>) {
    && log != [] && log[0].from == 0
    && (forall i :: 0 <= i < |log| ==> Recorded(inputs, log[i]))
    && (forall i, j :: 0 <= i && j == i + 1 < |log| ==> FollowedBy(inputs, log[i], log[j]))
  }

  /** How a run ends is settled by its last life and the input after it. */
  ghost predicate RunEnds(inputs: seq<Input>, r: Record, end: End) {
    && Recorded(inputs, r)
    && if EndOf(inputs, r) != Died then end == EndOf(inputs, r)
       else if !MayRetry(inputs, r) then end == Lost
       else if Next(r) == |inputs| then end == StillOn
       else end == Stopped && !inputs[Next(r)].retry
  }

  /** What is left of the run: a death has been counted and a life taken. */
  ghost function AfterRun(inputs: seq<Input>, r: Record): State
    requires Recorded(inputs, r)
  {
    var t := After(inputs, r);
    if EndOf(inputs, r) == Died then t.(deaths := t.deaths + 1, lives := if t.lives > 1 then t.lives - 1 else 0) else t
  }

  /** The lives so far, and the start of the next. */
  ghost predicate Pending(inputs: seq<Input>, log: seq<Record>, start: State, k: nat) {
    if log == [] then k == 0
    else Lives(inputs, log) && FollowedBy(inputs, log[|log| - 1], Record(start, k, []))
  }

  lemma OneMoreLife(inputs: seq<Input>, log: seq<Record>, r: Record)
    requires Pending(inputs, log, r.start, r.from) && Recorded(inputs, r)
    ensures Lives(inputs, log + [r]) && (log != [] ==> (log + [r])[0] == log[0])
  {
    hide Recorded, MayRetry, Restarts, After;
  }

  lemma LifeRecorded(inputs: seq<Input>, k: nat, r: Record)
    requires k <= |inputs| && r.from == k && Life(r.start, inputs[k..], r.passes)
    ensures Recorded(inputs, r) && Next(r) <= |inputs| && inputs[k..][|r.passes|..] == inputs[Next(r)..]
    ensures EndOf(inputs, r) == LifeEnd(inputs[k..], r.passes)
    ensures After(inputs, r) == AfterLife(r.start, inputs[k..], r.passes)
  {
    hide Life;
    assert |r.passes| <= |inputs[k..]| by { LifeFits(r.start, inputs[k..], r.passes); }
  }

  lemma LifeFits(s: State, inputs: seq<Input>, passes: seq<Pass>)
    requires Life(s, inputs, passes)
    ensures |passes| <= |inputs|
  {}

  lemma RetryFollows(inputs: seq<Input>, log: seq<Record>, r: Record, start: State)
    requires Lives(inputs, log) && log != [] && log[|log| - 1] == r && Recorded(inputs, r) && MayRetry(inputs, r)
    requires Next(r) < |inputs| && inputs[Next(r)].retry
    requires var t := After(inputs, r);
      Restarts(t.(deaths := t.deaths + 1, lives := t.lives - 1), inputs[Next(r)].now, inputs[Next(r)].first, start)
    ensures Pending(inputs, log, start, Next(r) + 1)
  {
    hide Restarts, Recorded;
  }

  /** A whole run over the inputs at hand. A run without tardigrades is over at
      the third death; each one caught buys one more. */
  method PlayRun(now: int, first: Cell, inputs: seq<Input>)
    returns (game: Game, end: End, ghost log: seq<Record>)
    requires forall i :: i in inputs ==> StickInput(i)
    ensures Lives(inputs, log) && Begins(now, first, log[0].start)
    ensures RunEnds(inputs, log[|log| - 1], end) && game.Here() == AfterRun(inputs, log[|log| - 1])
    ensures end == StillOn ==> Next(log[|log| - 1]) == |inputs|
    ensures Conserved(game.lives, game.deaths, game.caught)
    ensures end == Lost <==> game.lives == 0
    ensures end == Lost <==> game.deaths == LIVES_START + game.caught
    ensures end == Over ==> game.Playing()
    ensures end in {Lost, Stopped, Over} ==> (|game.snake| == 1 <==> end != Over)
  {
    hide IsSnake, Cells, Columns, FoodOk, Paced, Heads, Free, Unit, Opposite, FreshBody, FreshSnake;
    hide MayRetry, Life, LifeEnd, AfterLife, Lives, RunEnds, AfterRun, Recorded, Pending, FollowedBy, Restarts, Begins;
    hide EndOf, After, Game.Playing, Conserved, StickInput;
    game := new Game(now, first);
    var rest := inputs;
    log := [];
    ghost var k: nat := 0;
    NoLives(inputs, game.Here());
    while true
      invariant fresh(game) && game.Playing() && k <= |inputs| && rest == inputs[k..]
      invariant Pending(inputs, log, game.Here(), k)
      invariant if log == [] then Begins(now, first, game.Here()) else Begins(now, first, log[0].start)
      invariant forall i :: i in rest ==> StickInput(i)
      decreases |rest|
    {
      ghost var start := game.Here();
      ghost var passes;
      end, rest, passes := game.PlayLoop(rest);
      ghost var r := Record(start, k, passes);
      LifeRecorded(inputs, k, r);
      OneMoreLife(inputs, log, r);
      log := log + [r];
      RunEndsSo(inputs, r);
      k := Next(r);
      assert rest == inputs[k..];
      if end != Died {
        if end == Over { Whole(game); }
        AliveStill(game.lives, game.deaths, game.caught);
        return;
      }
      var left := game.TakeLife();
      if !left {
        return game, Lost, log;
      }
      if rest == [] {
        return game, StillOn, log;
      }
      var input := rest[0];
      rest := rest[1..];
      if !input.retry {
        return game, Stopped, log;
      }
      game.RestartAfterContinue(input.now, input.first);
      RetryFollows(inputs, log, r, game.Here());
      k := k + 1;
    }
  }

  lemma RunEndsSo(inputs: seq<Input>, r: Record)
    requires Recorded(inputs, r)
    ensures EndOf(inputs, r) != Died ==> RunEnds(inputs, r, EndOf(inputs, r)) && AfterRun(inputs, r) == After(inputs, r)
    ensures EndOf(inputs, r) == Died ==>
      var t := After(inputs, r);
      && AfterRun(inputs, r) == t.(deaths := t.deaths + 1, lives := if t.lives > 1 then t.lives - 1 else 0)
      && (MayRetry(inputs, r) <==> t.lives > 1)
      && (if t.lives <= 1 then RunEnds(inputs, r, Lost)
          else if Next(r) == |inputs| then RunEnds(inputs, r, StillOn)
          else !inputs[Next(r)].retry ==> RunEnds(inputs, r, Stopped))
  {
    hide Recorded, EndOf, After;
  }

  lemma Whole(game: Game)
    requires game.Playing()
    ensures |game.snake| >= 2
  {
    UnitOfHeads(game.snake, game.dir);
  }

  lemma AliveStill(lives: nat, deaths: nat, caught: nat)
    requires Conserved(lives, deaths, caught) && 1 <= lives
    ensures deaths != LIVES_START + caught
  {}

  lemma NoLives(inputs: seq<Input>, start: State)
    ensures Pending(inputs, [], start, 0)
  {}

  lemma FreshOnTour()
    ensures TourSnake(3) == FreshSnake() && TourWay(1) == Way(1, 0) && Cells(TourSnake(3)) == FreshBody()
  {
    FreshIsSnake();
  }

  lemma SecondLater(now: int)
    ensures TicksDiff(now + 1000, now) == 1000
  {}

  /** A run whose first n cells were eaten along the tour, the next one being food. */
  ghost predicate OnTour(game: Game, n: nat)
    reads game
  {
    && game.Playing() && game.lives == LIVES_START && game.deaths == 0
    && 3 <= n < CELLS && game.snake == TourSnake(n) && game.food == Tour(n) && game.dir == TourWay(n - 2)
  }

  /** One pass that turns to the next cell of the tour and eats it. */
  method NextMeal(game: Game, ghost n: nat, w: Way, first: Cell) returns (outcome: Outcome)
    requires OnTour(game, n) && w == TourWay(n - 1) && first == Tour(n + 1)
    modifies game
    ensures if n + 1 < CELLS then outcome == Alive && OnTour(game, n + 1) else outcome == Hung && |game.snake| == CELLS
    ensures game.foodCount == old(game.foodCount) + 1
  {
    hide IsSnake, Cells, Columns, Heads, Interval, FoodOk, Paced, Conserved, Bites, Ahead, TicksDiff, Tour, TourWay;
    FoodFacts(game.food, game.foodIsBonus, game.foodExpiresAt, game.body, game.foodCount, game.lives);
    TourTurns(n - 2);
    TourStep(n - 1);
    TourGrows(n);
    game.Turn(w.dx, w.dy);
    SecondLater(game.lastStep);
    PaceBound(game.snake, game.foodCount, game.speedCount, game.stepMs);
    TourMember(n);
    ghost var a := game.Here();
    outcome := game.Step(game.lastStep + 1000, first);
    MealIs(a, a.lastStep + 1000, first, game.Here(), outcome);
  }

  /** A step that is due and meets ordinary food. */
  lemma MealIs(a: State, now: int, first: Cell, b: State, outcome: Outcome)
    requires a.snake != [] && Steps(a, now, first, b, outcome) && TicksDiff(now, a.lastStep) >= a.stepMs
    requires Ahead(a.snake[0], a.nextDir) == a.food && InBoard(a.food) && !Bites(a.snake, a.food) && !a.foodIsBonus
    ensures b.snake == Moved(a.snake, a.food, true) && b.dir == a.nextDir
    ensures b.lives == a.lives && b.deaths == a.deaths && b.foodCount == a.foodCount + 1
    ensures outcome == if |b.snake| == CELLS then Hung else Alive
    ensures outcome == Alive && Free(first, Cells(b.snake)) ==> b.food == first
  {
    hide TicksDiff, Ahead, InBoard, Bites, Cells, Interval, Free, Moved;
  }

  lemma PaceBound(snake: seq<Cell>, foodCount: nat, speedCount: nat, stepMs: nat)
    requires Paced(snake, foodCount, speedCount, stepMs)
    ensures stepMs <= START_STEP_MS
  {}

  lemma TourMember(n: nat)
    requires 1 <= n < CELLS
    ensures !Bites(TourSnake(n), Tour(n))
    ensures n + 1 < CELLS ==> Free(Tour(n + 1), Cells(TourSnake(n + 1)))
  {
    hide Cells, Tour;
    TourGrows(n);
    TourIsSnake(n);
    Membership(TourSnake(n), Tour(n));
    if n + 1 < CELLS {
      TourGrows(n + 1);
      TourIsSnake(n + 1);
      Membership(TourSnake(n + 1), Tour(n + 1));
    }
  }

  method StartTour(now: int) returns (game: Game)
    ensures fresh(game) && OnTour(game, 3) && game.foodCount == 0
  {
    hide Tour, TourWay, TourSnake, IsSnake, Cells, Columns, Heads, Interval, FoodOk, Paced, FreshBody, FreshSnake;
    FreshOnTour();
    TourMember(2);
    game := new Game(now, Tour(3));
  }

  /** A run from the start whose every pass eats: the 400th meal fills the board,
      and the draw for the next apple never ends. */
  method LastMeal(now: int) returns (game: Game, outcome: Outcome)
    ensures fresh(game) && outcome == Hung && |game.snake| == CELLS && game.foodCount == 400
  {
    hide Tour, TourWay, OnTour;
    game := StartTour(now);
    outcome := Alive;
    var n := 3;
    while n < CELLS
      invariant fresh(game) && 3 <= n <= CELLS && game.foodCount == n - 3
      invariant if n < CELLS then OnTour(game, n) else outcome == Hung && |game.snake| == CELLS
    {
      outcome := NextMeal(game, n, TourWay(n - 1), Tour(n + 1));
      n := n + 1;
    }
  }

  lemma NotEmpty(snake: seq<Cell>)
    requires IsSnake(snake)
    ensures snake != []
  {}

  lemma SnakeInColumns(snake: seq<Cell>)
    requires IsSnake(snake)
    ensures Cells(snake) <= Columns(COLS)
  {}

  lemma FoodFacts(food: Cell, isBonus: bool, expires: Option<int>, body: set<Cell>, foodCount: nat, lives: nat)
    requires FoodOk(food, isBonus, expires, body, foodCount, lives)
    ensures InBoard(food) && food !in body && !(Columns(COLS) <= body)
    ensures isBonus ==> lives < LIVES_START
  {
    assert food in Columns(COLS);
  }

  lemma FoodStays(food: Cell, isBonus: bool, expires: Option<int>, body: set<Cell>, tail: Cell, head: Cell,
    foodCount: nat, lives: nat)
    requires FoodOk(food, isBonus, expires, body, foodCount, lives) && head != food
    ensures FoodOk(food, isBonus, expires, body - {tail} + {head}, foodCount, lives)
  {}

  lemma Membership(snake: seq<Cell>, c: Cell)
    requires IsSnake(snake)
    ensures c in snake <==> c in Cells(snake)
    ensures Bites(snake, c) <==> c in Cells(snake) - {snake[|snake| - 1]}
  {
    var n := |snake| - 1;
    if c in snake && c != snake[n] {
      var i :| 0 <= i < |snake| && snake[i] == c;
      assert snake[..n][i] == c;
    }
  }

  lemma MovedIs(snake: seq<Cell>, c: Cell, ate: bool)
    requires snake != []
    ensures Moved(snake, c, ate) == [c] + (if ate then snake else snake[..|snake| - 1])
    ensures |Moved(snake, c, ate)| == |snake| + (if ate then 1 else 0)
    ensures Moved(snake, c, ate)[1..] == if ate then snake else snake[..|snake| - 1]
  {}

  lemma PutBack(snake: seq<Cell>)
    requires snake != []
    ensures var n := |snake| - 1;
      snake[..n] + [snake[n]] == snake && Cells(snake) - {snake[n]} + {snake[n]} == Cells(snake)
  {}
}
