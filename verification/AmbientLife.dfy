/** The ambient LED runner's Game of Life: high bit first, and reseeded once it
    has gone stale. */
module AmbientLife {
  import opened Torus
  import opened LifeRows

  const STALE_GRACE := 8

  type Frame = seq<nat>

  ghost predicate IsFrame(f: Frame) {
    Board(f, 8, 8)
  }

  // ── A frame for every set of cells ──

  ghost function PackRow(live: set<Cell>, y: int, x: int, n: nat): nat
    decreases n
  {
    if n == 0 then 0 else One(Cell(x, y) in live) + 2 * PackRow(live, y, x + 1, n - 1)
  }

  lemma {:induction false} PackRowIs(live: set<Cell>, y: int, x: int, n: nat)
    ensures Fits(PackRow(live, y, x, n), n)
    ensures forall j: nat :: j < n ==> (Bit(PackRow(live, y, x, n), j) <==> Cell(x + j, y) in live)
    decreases n
  {
    if n > 0 {
      var row := PackRow(live, y, x, n);
      PackRowIs(live, y, x + 1, n - 1);
      assert row / 2 == PackRow(live, y, x + 1, n - 1);
      forall j: nat | j < n ensures Bit(row, j) <==> Cell(x + j, y) in live {
        if j > 0 { assert Bit(row, j) == Bit(row / 2, j - 1); }
      }
    }
  }

  ghost function Pack(live: set<Cell>): Frame {
    seq(8, y requires 0 <= y < 8 => PackRow(live, y, 0, 8))
  }

  /** Packing loses nothing. */
  lemma PackRoundTrip(live: set<Cell>)
    requires Within(live, 8, 8)
    ensures IsFrame(Pack(live)) && Live(Pack(live), 8) == live
  {
    hide Bit, Fits, PackRow, Live;
    forall y | 0 <= y < 8 ensures Fits(Pack(live)[y], 8) { PackRowIs(live, y, 0, 8); }
    forall c: Cell ensures c in Live(Pack(live), 8) <==> c in live {
      InLive(Pack(live), 8, c);
      if OnBoard(c, 8, 8) { PackRowIs(live, c.y, 0, 8); }
    }
  }

  /** The generation after a frame, low bit first. */
  ghost function Evolve(f: Frame): Frame {
    Pack(Next(Live(f, 8), 8, 8))
  }

  lemma EvolveIs(f: Frame)
    ensures IsFrame(Evolve(f)) && Live(Evolve(f), 8) == Next(Live(f, 8), 8, 8)
  {
    hide Live, Next, Pack;
    NextWithin(Live(f, 8), 8, 8);
    PackRoundTrip(Next(Live(f, 8), 8, 8));
  }

  // ── High bit first ──

  /** row & (0x80 >> x) */
  function MsbBit(row: nat, x: nat): bool
    requires x < 8
  {
    Bit(row, 7 - x)
  }

  /** The live cells when the high bit of a row is its first cell. */
  ghost function MsbLive(rows: Frame): set<Cell> {
    set x, y | 0 <= x < 8 && 0 <= y < |rows| && MsbBit(rows[y], x) :: Cell(x, y)
  }

  lemma MsbIsMirror(rows: Frame)
    requires |rows| == 8
    ensures MsbLive(rows) == Mirrored(Live(rows, 8), 8)
  {
    hide Bit, Live, Mirrored;
    forall c: Cell ensures c in MsbLive(rows) <==> c in Mirrored(Live(rows, 8), 8) {
      InMirrored(Live(rows, 8), c, 8);
      InLive(rows, 8, Flip(c, 8));
    }
  }

  lemma {:induction false} MirrorTwice(live: set<Cell>, w: int)
    ensures Mirrored(Mirrored(live, w), w) == live
  {
    hide Mirrored;
    forall c: Cell ensures c in Mirrored(Mirrored(live, w), w) <==> c in live {
      InMirrored(Mirrored(live, w), c, w);
      InMirrored(live, c, w);
    }
  }

  /** Whichever end of a row comes first, the next generation's octets are the same. */
  lemma OrderDoesNotMatter(f: Frame, next: Frame)
    requires IsFrame(f) && IsFrame(next)
    ensures MsbLive(next) == Next(MsbLive(f), 8, 8) <==> next == Evolve(f)
  {
    hide Live, Next, Pack, MsbLive, Mirrored, Evolve;
    EvolveIs(f);
    MsbIsMirror(f);
    MsbIsMirror(next);
    StepCommutesWithMirror(Live(f, 8), 8, 8);
    if MsbLive(next) == Next(MsbLive(f), 8, 8) {
      MirrorTwice(Live(next, 8), 8);
      MirrorTwice(Next(Live(f, 8), 8, 8), 8);
      SameCells(next, Evolve(f), 8, 8);
    }
  }

  function Reversed(f: Frame): Frame {
    seq(|f|, y requires 0 <= y < |f| => ReverseRow(f[y], 8))
  }

  function ReverseRow(row: nat, n: nat): nat {
    if n == 0 then 0 else One(Bit(row, n - 1)) + 2 * ReverseRow(row, n - 1)
  }

  lemma {:induction false} ReverseRowIs(row: nat, n: nat)
    ensures Fits(ReverseRow(row, n), n)
    ensures forall j: nat :: j < n ==> (Bit(ReverseRow(row, n), j) <==> Bit(row, n - 1 - j))
  {
    if n > 0 {
      var r := ReverseRow(row, n);
      ReverseRowIs(row, n - 1);
      assert r / 2 == ReverseRow(row, n - 1);
      forall j: nat | j < n ensures Bit(r, j) <==> Bit(row, n - 1 - j) {
        if j > 0 { assert Bit(r, j) == Bit(r / 2, j - 1); }
      }
    }
  }

  /** Reversing every row's bits turns one reading into the other, so the
      low-bit-first step on reversed rows is the reversed high-bit-first step. */
  lemma ReversedLive(f: Frame)
    requires |f| == 8
    ensures IsFrame(Reversed(f)) && Live(Reversed(f), 8) == MsbLive(f)
  {
    hide Bit, Live, Fits, ReverseRow;
    forall y | 0 <= y < 8 ensures Fits(Reversed(f)[y], 8) { ReverseRowIs(f[y], 8); }
    forall c: Cell ensures c in Live(Reversed(f), 8) <==> c in MsbLive(f) {
      InLive(Reversed(f), 8, c);
      if OnBoard(c, 8, 8) { ReverseRowIs(f[c.y], 8); }
    }
  }

  lemma StepCommutesWithReversal(f: Frame)
    requires IsFrame(f)
    ensures Evolve(Reversed(f)) == Reversed(Evolve(f))
  {
    hide Live, Next, Pack, MsbLive, Reversed, Evolve;
    EvolveIs(f);
    ReversedLive(f);
    EvolveIs(Reversed(f));
    ReversedLive(Evolve(f));
    OrderDoesNotMatter(f, Evolve(f));
    SameCells(Evolve(Reversed(f)), Reversed(Evolve(f)), 8, 8);
  }

  // ── The step as the runner computes it ──

  /** Neighbours counted after k places of the three-by-three scan. */
  ghost function Scanned(life: Frame, x: int, y: int, k: nat): nat
    requires |life| == 8 && k <= 9
  {
    if k == 0 then 0
    else if k - 1 == 4 then Scanned(life, x, y, k - 1)
    else Scanned(life, x, y, k - 1) + One(At(x + (k - 1) % 3 - 1, y + (k - 1) / 3 - 1, 8, 8) in MsbLive(life))
  }

  lemma ScanIsSum(life: Frame, x: int, y: int)
    requires |life| == 8
    ensures Scanned(life, x, y, 9) == Sum8(x, y, MsbLive(life), 8, 8)
  {
    hide At, One, MsbLive;
    var live := MsbLive(life);
    assert Scanned(life, x, y, 3) ==
      One(At(x - 1, y - 1, 8, 8) in live) + One(At(x, y - 1, 8, 8) in live) + One(At(x + 1, y - 1, 8, 8) in live) by {
      assert Scanned(life, x, y, 1) == One(At(x - 1, y - 1, 8, 8) in live);
    }
    assert Scanned(life, x, y, 5) == Scanned(life, x, y, 3) + One(At(x - 1, y, 8, 8) in live);
    assert Scanned(life, x, y, 7) ==
      Scanned(life, x, y, 5) + One(At(x + 1, y, 8, 8) in live) + One(At(x - 1, y + 1, 8, 8) in live);
    assert Scanned(life, x, y, 9) ==
      Scanned(life, x, y, 7) + One(At(x, y + 1, 8, 8) in live) + One(At(x + 1, y + 1, 8, 8) in live);
  }

  lemma InMsbLive(rows: Frame, x: int, y: int)
    requires |rows| == 8
    ensures At(x, y, 8, 8) in MsbLive(rows) <==> MsbBit(rows[Wrap(y, 8)], Wrap(x, 8))
  {
    hide Bit;
  }

  lemma ScanOne(life: Frame, x: int, y: int, dx: int, dy: int)
    requires |life| == 8 && -1 <= dx <= 1 && -1 <= dy <= 1
    ensures var k := 3 * (dy + 1) + dx + 1;
      Scanned(life, x, y, k + 1) == Scanned(life, x, y, k) +
      if dx == 0 && dy == 0 then 0 else One(MsbBit(life[Wrap(y + dy, 8)], Wrap(x + dx, 8)))
  {
    hide MsbLive, MsbBit, Wrap;
    var k := 3 * (dy + 1) + dx + 1;
    assert k / 3 == dy + 1 && k % 3 == dx + 1;
    InMsbLive(life, x + dx, y + dy);
  }

  method MsbNeighbours(life: Frame, x: nat, y: nat) returns (n: nat)
    requires |life| == 8 && x < 8 && y < 8
    ensures n == Sum8(x, y, MsbLive(life), 8, 8)
  {
    hide MsbLive, MsbBit, Wrap, Scanned, Sum8, One;
    n := 0;
    ScanIsSum(life, x, y);
    ScanNothing(life, x, y);
    for dy := -1 to 2
      invariant n == Scanned(life, x, y, 3 * (dy + 1))
    {
      for dx := -1 to 2
        invariant n == Scanned(life, x, y, 3 * (dy + 1) + dx + 1)
      {
        ScanOne(life, x, y, dx, dy);
        CountsOne(MsbBit(life[Wrap(y + dy, 8)], Wrap(x + dx, 8)));
        if !(dx == 0 && dy == 0) && MsbBit(life[Wrap(y + dy, 8)], Wrap(x + dx, 8)) {
          n := n + 1;
        }
      }
    }
  }

  lemma ScanNothing(life: Frame, x: int, y: int)
    requires |life| == 8
    ensures Scanned(life, x, y, 0) == 0
  {}

  lemma CountsOne(b: bool)
    ensures One(b) == if b then 1 else 0
  {}

  /** The first n cells of a new row, high bit first; the others are off. */
  ghost predicate MsbSoFar(row: nat, life: Frame, y: nat, n: nat)
    requires |life| == 8 && y < 8
  {
    Fits(row, 8) && forall x: nat :: x < 8 ==> (MsbBit(row, x) <==> x < n && Lives(MsbLive(life), Cell(x, y), 8, 8))
  }

  lemma MsbStarts(life: Frame, y: nat)
    requires |life| == 8 && y < 8
    ensures MsbSoFar(0, life, y, 0)
  {
    forall x: nat | x < 8 ensures !MsbBit(0, x) { NoBitBeyond(0, 0, 7 - x); }
  }

  lemma MsbGrows(row: nat, life: Frame, y: nat, x: nat, n: nat)
    requires |life| == 8 && y < 8 && x < 8 && MsbSoFar(row, life, y, x)
    requires n == Sum8(x, y, MsbLive(life), 8, 8)
    ensures var alive := MsbBit(life[y], x);
      MsbSoFar(if (alive && (n == 2 || n == 3)) || (!alive && n == 3) then SetBit(row, 7 - x) else row, life, y, x + 1)
  {
    hide Bit, SetBit, Fits, MsbLive, MsbBit, Lives, Sum8, Wrap;
    SumIsCount(MsbLive(life), Cell(x, y), 8, 8);
    WrapUnique(x, 0, x, 8);
    WrapUnique(y, 0, y, 8);
    InMsbLive(life, x, y);
    SetBitFits(row, 7 - x, 8);
    forall j: nat | j < 8 ensures MsbBit(SetBit(row, 7 - x), j) <==> j == x || MsbBit(row, j) {
      SetMsbIs(row, x, j);
    }
  }

  lemma SetMsbIs(row: nat, x: nat, j: nat)
    requires x < 8 && j < 8
    ensures MsbBit(SetBit(row, 7 - x), j) <==> j == x || MsbBit(row, j)
  {
    SetBitIs(row, 7 - x, 7 - j);
  }

  lemma MsbRowsAreNext(next: Frame, life: Frame)
    requires |life| == 8 && |next| == 8
    requires forall y :: 0 <= y < 8 ==> MsbSoFar(next[y], life, y, 8)
    ensures IsFrame(next) && MsbLive(next) == Next(MsbLive(life), 8, 8)
  {
    hide Bit, Lives, Next, Fits;
    forall c: Cell ensures c in MsbLive(next) <==> c in Next(MsbLive(life), 8, 8) {
      InNext(MsbLive(life), c, 8, 8);
      if OnBoard(c, 8, 8) { assert MsbSoFar(next[c.y], life, c.y, 8); }
    }
  }

  /** The loops of _life_frame. */
  method MsbStep(life: Frame) returns (next: Frame)
    requires IsFrame(life)
    ensures next == Evolve(life) && IsFrame(next)
  {
    hide Fits, MsbLive, MsbBit, Wrap, Sum8, MsbSoFar, Evolve, SetBit;
    next := seq(8, _ => 0);
    var y := 0;
    while y < 8
      invariant y <= 8 && |next| == 8
      invariant forall j :: 0 <= j < y ==> MsbSoFar(next[j], life, j, 8)
    {
      var row := 0;
      MsbStarts(life, y);
      var x := 0;
      while x < 8
        invariant x <= 8 && MsbSoFar(row, life, y, x)
      {
        var neighbors := MsbNeighbours(life, x, y);
        var alive := MsbBit(life[y], x);
        MsbGrows(row, life, y, x, neighbors);
        if (alive && (neighbors == 2 || neighbors == 3)) || (!alive && neighbors == 3) {
          row := SetBit(row, 7 - x);
        }
        x := x + 1;
      }
      next := next[y := row];
      y := y + 1;
    }
    MsbRowsAreNext(next, life);
    OrderDoesNotMatter(life, next);
  }
}
