/** When the ambient runner gives up on a Game of Life and reseeds it. */
module StaleLife {
  import opened Torus
  import opened LifeRows
  import opened AmbientLife

  /** The frames of a seed. */
  ghost function Orbit(seed: Frame, n: nat): Frame {
    if n == 0 then seed else Evolve(Orbit(seed, n - 1))
  }

  /** A frame that is empty, or the same as one of the two before it. The runner
      fills both of those with the seed at first. */
  ghost predicate Stale(seed: Frame, n: nat)
    requires n > 0
  {
    Empty(Orbit(seed, n)) || Orbit(seed, n) == Orbit(seed, n - 1) || Orbit(seed, n) == Orbit(seed, Before2(n))
  }

  function Before2(n: nat): nat { if n < 2 then 0 else n - 2 }

  predicate Empty(f: Frame) { forall i :: 0 <= i < |f| ==> f[i] == 0 }

  lemma EmptyStaysEmpty(f: Frame)
    requires IsFrame(f) && Empty(f)
    ensures Evolve(f) == f
  {
    hide Next, Pack, Evolve;
    EvolveIs(f);
    NothingStaysNothing(8, 8);
    forall c: Cell ensures c !in Live(f, 8) {
      InLive(f, 8, c);
      if OnBoard(c, 8, 8) { NoBitBeyond(0, 0, c.x); }
    }
    assert Live(f, 8) == {};
    SameCells(Evolve(f), f, 8, 8);
  }

  lemma {:induction false} OrbitIsFrames(seed: Frame, n: nat)
    requires IsFrame(seed)
    ensures IsFrame(Orbit(seed, n))
  {
    if n > 0 { EvolveIs(Orbit(seed, n - 1)); }
  }

  /** Once a frame is stale every later frame is. */
  lemma {:induction false} StaleForever(seed: Frame, m: nat, n: nat)
    requires IsFrame(seed) && 0 < m <= n && Stale(seed, m)
    ensures Stale(seed, n)
  {
    hide Evolve, IsFrame, Empty;
    if m < n {
      StaleForever(seed, m, n - 1);
      if Empty(Orbit(seed, n - 1)) {
        OrbitIsFrames(seed, n - 1);
        EmptyStaysEmpty(Orbit(seed, n - 1));
      }
    }
  }

  /** From some frame on, the orbit has period one or two. */
  ghost predicate Settles(seed: Frame, n: nat) {
    Orbit(seed, n + 2) == Orbit(seed, n)
  }

  /** Staleness is exactly having settled. */
  lemma StaleIffSettles(seed: Frame, n: nat)
    requires IsFrame(seed)
    ensures n > 0 && Stale(seed, n) ==> Settles(seed, n)
    ensures Settles(seed, n) ==> Stale(seed, n + 2)
  {
    hide Evolve, IsFrame, Empty;
    if n > 0 && Stale(seed, n) {
      OrbitIsFrames(seed, n);
      if Empty(Orbit(seed, n)) { EmptyStaysEmpty(Orbit(seed, n)); }
      assert Orbit(seed, n + 1) == Evolve(Orbit(seed, n));
      assert Orbit(seed, n + 2) == Evolve(Orbit(seed, n + 1));
      if n > 1 { assert Orbit(seed, n - 1) == Evolve(Orbit(seed, n - 2)); }
    }
  }

  /** The last k frames up to frame n are stale and the one before them is not. */
  ghost predicate Counted(seed: Frame, n: nat, k: nat) {
    && k <= n
    && (forall m :: n - k < m <= n ==> Stale(seed, m))
    && (k < n ==> !Stale(seed, n - k))
  }

  lemma CountNext(seed: Frame, n: nat, k: nat)
    requires IsFrame(seed) && Counted(seed, n, k)
    ensures Stale(seed, n + 1) ==> Counted(seed, n + 1, k + 1)
    ensures !Stale(seed, n + 1) ==> k == 0 && Counted(seed, n + 1, 0)
  {
    hide Stale, IsFrame;
    if k > 0 { StaleForever(seed, n, n + 1); }
  }

  class Runner {
    var first: bool
    var life: Frame
    var lifePrev: Frame
    var lifePrev2: Frame
    var staleCount: nat
    ghost var seed: Frame
    ghost var age: nat

    ghost predicate Valid()
      reads this
    {
      && IsFrame(seed)
      && (first ==> life == seed)
      && (!first ==> Running(seed, age, life, lifePrev, lifePrev2, staleCount))
    }

    constructor (draft: Frame)
      requires IsFrame(draft)
      ensures Valid() && first && seed == draft
    {
      first := true;
      life, lifePrev, lifePrev2 := draft, draft, draft;
      staleCount := 0;
      seed, age := draft, 0;
    }

    /** One frame: the seed, then its orbit, until the eighth stale frame in a
        row shows a new seed instead. The count is never reset before that. */
    method LifeFrame(random: Frame) returns (frame: Frame)
      requires Valid() && IsFrame(random)
      modifies this
      ensures Valid() && frame == life
      ensures old(first) ==> !first && frame == old(seed) && seed == old(seed) && age == 0
      ensures !old(first) ==> (first <==> old(staleCount) == STALE_GRACE - 1)
      ensures !old(first) && !first ==> seed == old(seed) && age == old(age) + 1 && frame == Orbit(seed, age)
      ensures !old(first) && !first ==> staleCount == if Stale(seed, age) then old(staleCount) + 1 else old(staleCount)
      ensures !old(first) && first ==> seed == random && Counted(old(seed), old(age) + 1, STALE_GRACE)
    {
      hide Evolve, IsFrame, Counted, Orbit;
      if first {
        first := false;
        lifePrev, lifePrev2 := life, life;
        staleCount := 0;
        age := 0;
        Starts(seed);
        return life;
      }
      OrbitIsFrames(seed, age);
      Advances(seed, age);
      CountNext(seed, age, staleCount);
      lifePrev2 := lifePrev;
      lifePrev := life;
      life := MsbStep(life);
      age := age + 1;
      var empty := Empty(life);
      var still := life == lifePrev;
      var period2 := life == lifePrev2;
      if empty || still || period2 {
        staleCount := staleCount + 1;
        if staleCount >= STALE_GRACE {
          life := random;
          seed := random;
          first := true;
        }
      } else {
        staleCount := 0;
      }
      return life;
    }
  }

  /** Between two frames of one seed. */
  ghost predicate Running(seed: Frame, n: nat, life: Frame, prev: Frame, prev2: Frame, k: nat) {
    && life == Orbit(seed, n)
    && prev == Orbit(seed, if n == 0 then 0 else n - 1)
    && prev2 == Orbit(seed, Before2(n))
    && Counted(seed, n, k) && k < STALE_GRACE
  }

  lemma Starts(seed: Frame)
    ensures Orbit(seed, 0) == seed && Counted(seed, 0, 0)
  {}

  lemma Advances(seed: Frame, n: nat)
    ensures Orbit(seed, n + 1) == Evolve(Orbit(seed, n))
  {}

  /** The first stale frame of a seed. */
  ghost predicate FirstStale(seed: Frame, m: nat) {
    m > 0 && Stale(seed, m) && forall j :: 0 < j < m ==> !Stale(seed, j)
  }

  lemma NoneBefore(seed: Frame, n: nat, k: nat)
    requires IsFrame(seed) && Counted(seed, n, k)
    ensures k <= n && forall m :: 0 < m <= n - k ==> !Stale(seed, m)
    ensures k > 0 ==> FirstStale(seed, n - k + 1)
  {
    hide Stale, IsFrame;
    forall m | 0 < m <= n - k ensures !Stale(seed, m) {
      if Stale(seed, m) { StaleForever(seed, m, n - k); }
    }
  }

  /** What the first n frames show. The runner moves on from a seed with the
      seventh frame after the first stale one, and from no other. */
  method Watch(seed: Frame, randoms: seq<Frame>) returns (shown: seq<Frame>, reseeded: bool)
    requires IsFrame(seed) && forall i :: 0 <= i < |randoms| ==> IsFrame(randoms[i])
    ensures |shown| <= |randoms| && (!reseeded ==> |shown| == |randoms|)
    ensures forall i: nat :: i < |shown| ==> shown[i] == Orbit(seed, i)
    ensures reseeded ==> |shown| >= 8 && FirstStale(seed, |shown| - 7)
    ensures !reseeded ==> forall m :: 0 < m < |shown| - 7 ==> !Stale(seed, m)
  {
    hide Evolve, IsFrame, Orbit, Stale, Counted, FirstStale;
    shown, reseeded := [], false;
    var runner := new Runner(seed);
    while |shown| < |randoms| && !reseeded
      invariant fresh(runner) && runner.Valid() && |shown| <= |randoms|
      invariant forall i: nat :: i < |shown| ==> shown[i] == Orbit(seed, i)
      invariant !reseeded ==>
        runner.seed == seed && (if shown == [] then runner.first else !runner.first && runner.age == |shown| - 1)
      invariant reseeded ==> |shown| >= 8 && FirstStale(seed, |shown| - 7)
      decreases |randoms| - |shown|, !reseeded
    {
      var frame := runner.LifeFrame(randoms[|shown|]);
      if runner.first {
        reseeded := true;
        NoneBefore(seed, |shown|, STALE_GRACE);
      } else {
        Starts(seed);
        shown := shown + [frame];
      }
    }
    if !reseeded && shown != [] {
      NoneBefore(seed, runner.age, runner.staleCount);
    }
  }
}
