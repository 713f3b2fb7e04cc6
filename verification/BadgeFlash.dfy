/** Flashing and checking one badge, with its retries. */
module BadgeFlash {
  import FlashBatch

  const FLASH_ATTEMPTS := 3
  const BOOT_ATTEMPTS := 2

  /** Looking for the badge's port: it may be there, not turn up in time, or the
      activity may fail so often that its exception leaves the workflow. */
  datatype Find = Found | NotFound | Raises

  /** How each activity would go: the search before each flash, the one right
      after it and the one before each boot check, and the flashes, boot checks
      and clock themselves, whose exceptions are caught and count as failures. */
  datatype World = World(find: nat -> Find, flash: nat -> bool, findBooted: Find, findBoot: nat -> Find,
    boot: nat -> bool, clock: bool)

  // ── When each phase succeeds, and when its search raises ──

  ghost predicate FlashesAt(w: World, k: nat) {
    w.find(k) == Found && w.flash(k)
  }

  /** Some attempt up to n flashes, and no search before it raises. */
  ghost predicate Flashes(w: World, n: nat) {
    exists k: nat :: 1 <= k <= n && FlashesAt(w, k) && forall j :: 1 <= j < k ==> w.find(j) != Raises
  }

  /** A search up to attempt n raises before any attempt flashes. */
  ghost predicate FlashEscapes(w: World, n: nat) {
    exists k: nat :: 1 <= k <= n && w.find(k) == Raises
      && forall j :: 1 <= j < k ==> w.find(j) != Raises && !FlashesAt(w, j)
  }

  ghost predicate Boots(w: World, n: nat) {
    exists k: nat :: 1 <= k <= n && w.boot(k) && forall j :: 1 <= j <= k ==> w.findBoot(j) != Raises
  }

  ghost predicate BootEscapes(w: World, n: nat) {
    exists k: nat :: 1 <= k <= n && w.findBoot(k) == Raises
      && forall j :: 1 <= j < k ==> w.findBoot(j) != Raises && !w.boot(j)
  }

  ghost predicate Passes(w: World) {
    Flashes(w, FLASH_ATTEMPTS) && w.findBooted != Raises && Boots(w, BOOT_ATTEMPTS) && w.clock
  }

  /** The exception may come even after a flash that worked. */
  ghost predicate Escapes(w: World) {
    FlashEscapes(w, FLASH_ATTEMPTS)
      || (Flashes(w, FLASH_ATTEMPTS) && (w.findBooted == Raises || BootEscapes(w, BOOT_ATTEMPTS)))
  }

  // ── Which activities are run ──

  datatype Phase = Waiting | Resolving | Flashing | Booting | VerifyingBoot | SyncingClock | Done | Failed

  datatype Step = Search | FlashAt(attempt: nat) | BootAt(attempt: nat) | ClockSync

  /** An activity, and the phase a query would see while it runs. */
  datatype Call = Call(phase: Phase, step: Step)

  /** The calls of the flash attempts up to n. */
  ghost function FlashCalls(w: World, n: nat): seq<Call> {
    if n == 0 then []
    else if Flashes(w, n - 1) || FlashEscapes(w, n - 1) then FlashCalls(w, n - 1)
    else if w.find(n) == Found then FlashCalls(w, n - 1) + [Call(Resolving, Search), Call(Flashing, FlashAt(n))]
    else FlashCalls(w, n - 1) + [Call(Resolving, Search)]
  }

  ghost function BootCalls(w: World, n: nat): seq<Call> {
    if n == 0 then []
    else if Boots(w, n - 1) || BootEscapes(w, n - 1) then BootCalls(w, n - 1)
    else if w.findBoot(n) != Raises then
      BootCalls(w, n - 1) + [Call(VerifyingBoot, Search), Call(VerifyingBoot, BootAt(n))]
    else BootCalls(w, n - 1) + [Call(VerifyingBoot, Search)]
  }

  ghost function AllBootCalls(w: World): seq<Call> {
    [Call(Booting, Search)] + if w.findBooted == Raises then [] else BootCalls(w, BOOT_ATTEMPTS)
  }

  /** Nothing is flashed again once it worked, nothing verified before that, and
      the clock is set only on a badge that has booted. */
  ghost function Calls(w: World): seq<Call> {
    var booted := w.findBooted != Raises && Boots(w, BOOT_ATTEMPTS);
    FlashCalls(w, FLASH_ATTEMPTS) + (if Flashes(w, FLASH_ATTEMPTS) then AllBootCalls(w) else [])
    + (if Flashes(w, FLASH_ATTEMPTS) && booted then [Call(SyncingClock, ClockSync)] else [])
  }

  /** The attempts in so many words: three to flash, two to boot. */
  lemma AttemptsAre(w: World)
    ensures Flashes(w, FLASH_ATTEMPTS) <==>
      || FlashesAt(w, 1)
      || (w.find(1) != Raises && (FlashesAt(w, 2) || (w.find(2) != Raises && FlashesAt(w, 3))))
    ensures Boots(w, BOOT_ATTEMPTS) <==>
      w.findBoot(1) != Raises && (w.boot(1) || (w.findBoot(2) != Raises && w.boot(2)))
  {
    hide FlashesAt;
    assert FlashesAt(w, 1) ==> Flashes(w, 3);
    assert w.find(1) != Raises && FlashesAt(w, 2) ==> Flashes(w, 3);
    assert w.find(1) != Raises && w.find(2) != Raises && FlashesAt(w, 3) ==> Flashes(w, 3);
  }

  datatype Outcome = Passed | NotPassed | Raised

  class Badge {
    var phase: Phase
    var flashAttempts: nat
    var bootAttempts: nat
    var clockAttempts: nat
    var calls: seq<Call>

    constructor ()
      ensures phase == Waiting && flashAttempts == 0 && bootAttempts == 0 && clockAttempts == 0 && calls == []
    {
      phase, flashAttempts, bootAttempts, clockAttempts, calls := Waiting, 0, 0, 0, [];
    }

    method Log(step: Step)
      modifies this`calls
      ensures calls == old(calls) + [Call(phase, step)]
    {
      calls := calls + [Call(phase, step)];
    }

    /** The flash loop; an exception of the search ends it at once. */
    method Flash(w: World) returns (r: Outcome)
      requires calls == []
      modifies this`phase, this`flashAttempts, this`calls
      ensures r == Passed <==> Flashes(w, FLASH_ATTEMPTS)
      ensures r == Raised <==> FlashEscapes(w, FLASH_ATTEMPTS)
      ensures r == Raised ==> phase == Resolving
      ensures calls == FlashCalls(w, FLASH_ATTEMPTS)
      ensures 1 <= flashAttempts <= FLASH_ATTEMPTS && !Flashes(w, flashAttempts - 1)
        && !FlashEscapes(w, flashAttempts - 1)
      ensures r == NotPassed ==> flashAttempts == FLASH_ATTEMPTS
    {
      hide FlashesAt;
      var attempt := 1;
      while attempt <= FLASH_ATTEMPTS
        invariant 1 <= attempt <= FLASH_ATTEMPTS + 1 && calls == FlashCalls(w, attempt - 1)
        invariant forall j :: 1 <= j < attempt ==> w.find(j) != Raises && !FlashesAt(w, j)
        invariant attempt > 1 ==> flashAttempts == attempt - 1
      {
        flashAttempts := attempt;
        phase := Resolving;
        Log(Search);
        AttemptNow(w, attempt);
        NoneYet(w, attempt);
        var found := w.find(attempt);
        if found == Raises {
          NoMoreFlashes(w, attempt, FLASH_ATTEMPTS);
          return Raised;
        }
        if found == Found {
          phase := Flashing;
          Log(FlashAt(attempt));
          if w.flash(attempt) {
            NoMoreFlashes(w, attempt, FLASH_ATTEMPTS);
            return Passed;
          }
        }
        attempt := attempt + 1;
      }
      return NotPassed;
    }

    /** The boot checks: a badge that is not found is checked all the same. */
    method Verify(w: World) returns (r: Outcome)
      modifies this`phase, this`bootAttempts, this`calls
      ensures r == Passed <==> w.findBooted != Raises && Boots(w, BOOT_ATTEMPTS)
      ensures r == Raised <==> w.findBooted == Raises || BootEscapes(w, BOOT_ATTEMPTS)
      ensures r == Raised ==> phase == Booting || phase == VerifyingBoot
      ensures calls == old(calls) + AllBootCalls(w)
      ensures w.findBooted == Raises ==> bootAttempts == old(bootAttempts)
      ensures w.findBooted != Raises ==> 1 <= bootAttempts <= BOOT_ATTEMPTS && !Boots(w, bootAttempts - 1)
    {
      phase := Booting;
      Log(Search);
      if w.findBooted == Raises {
        return Raised;
      }
      r := CheckBoot(w);
    }

    /** Up to two checks, the badge looked for before each. */
    method CheckBoot(w: World) returns (r: Outcome)
      modifies this`phase, this`bootAttempts, this`calls
      ensures r == Passed <==> Boots(w, BOOT_ATTEMPTS)
      ensures r == Raised <==> BootEscapes(w, BOOT_ATTEMPTS)
      ensures r == Raised ==> phase == VerifyingBoot
      ensures calls == old(calls) + BootCalls(w, BOOT_ATTEMPTS)
      ensures 1 <= bootAttempts <= BOOT_ATTEMPTS && !Boots(w, bootAttempts - 1)
    {
      assert old(calls) + BootCalls(w, 0) == old(calls);
      hide Boots, BootEscapes, BootCalls;
      var attempt := 1;
      while attempt <= BOOT_ATTEMPTS
        invariant 1 <= attempt <= BOOT_ATTEMPTS + 1 && calls == old(calls) + BootCalls(w, attempt - 1)
        invariant forall j :: 1 <= j < attempt ==> w.findBoot(j) != Raises && !w.boot(j)
        invariant attempt > 1 ==> bootAttempts == attempt - 1
      {
        bootAttempts := attempt;
        phase := VerifyingBoot;
        Log(Search);
        NoBootYet(w, attempt);
        var found := w.findBoot(attempt);
        if found == Raises {
          NoMoreBoots(w, attempt, BOOT_ATTEMPTS);
          return Raised;
        }
        Log(BootAt(attempt));
        if w.boot(attempt) {
          NoMoreBoots(w, attempt, BOOT_ATTEMPTS);
          return Passed;
        }
        if attempt < BOOT_ATTEMPTS { phase := Booting; }
        attempt := attempt + 1;
      }
      BootsNever(w, BOOT_ATTEMPTS);
      NoBootYet(w, BOOT_ATTEMPTS);
      return NotPassed;
    }

    /** A badge passes exactly when it flashes within three attempts, boots within
        two and takes the time, and no search for it raises before that. An
        exception leaves the workflow exactly when a search raises first, and
        then the phase never says failed. */
    method Run(env: string, w: World) returns (r: Outcome)
      requires calls == [] && bootAttempts == 0 && clockAttempts == 0
      modifies this
      ensures r == Passed <==> env == FlashBatch.ONLY_ENV && Passes(w)
      ensures r == Raised <==> env == FlashBatch.ONLY_ENV && Escapes(w)
      ensures phase == Done <==> r == Passed
      ensures phase == Failed <==> r == NotPassed
      ensures calls == if env == FlashBatch.ONLY_ENV then Calls(w) else []
      ensures bootAttempts > 0 <==> env == FlashBatch.ONLY_ENV && Flashes(w, FLASH_ATTEMPTS) && w.findBooted != Raises
      ensures clockAttempts == if Call(SyncingClock, ClockSync) in calls then 1 else 0
    {
      if env != FlashBatch.ONLY_ENV {
        phase := Failed;
        return NotPassed;
      }
      NotBoth(w);
      hide Flashes, FlashEscapes, Boots, BootEscapes, FlashCalls, BootCalls;
      r := Flash(w);
      assert calls + [] == calls;
      NoFlashClock(w, FLASH_ATTEMPTS);
      NoBootClock(w, BOOT_ATTEMPTS);
      if r != Passed {
        if r == NotPassed { phase := Failed; }
        return;
      }
      r := Verify(w);
      if r == Raised {
        return;
      }
      var ok := r == Passed;
      if ok {
        clockAttempts := 1;
        phase := SyncingClock;
        Log(ClockSync);
        ok := w.clock;
      }
      phase := if ok then Done else Failed;
      r := if ok then Passed else NotPassed;
    }
  }

  /** The first attempt that flashes or raises decides, and it does one of the two. */
  lemma NotBoth(w: World)
    ensures !(Flashes(w, FLASH_ATTEMPTS) && FlashEscapes(w, FLASH_ATTEMPTS))
    ensures !(Boots(w, BOOT_ATTEMPTS) && BootEscapes(w, BOOT_ATTEMPTS))
  {}

  lemma AttemptNow(w: World, k: nat)
    ensures FlashesAt(w, k) <==> w.find(k) == Found && w.flash(k)
  {}

  lemma NoneYet(w: World, n: nat)
    requires n >= 1 && forall j :: 1 <= j < n ==> w.find(j) != Raises && !FlashesAt(w, j)
    ensures !Flashes(w, n - 1) && !FlashEscapes(w, n - 1)
  {
    hide FlashesAt;
  }

  lemma NoBootYet(w: World, n: nat)
    requires n >= 1 && forall j :: 1 <= j < n ==> w.findBoot(j) != Raises && !w.boot(j)
    ensures !Boots(w, n - 1) && !BootEscapes(w, n - 1)
    ensures BootCalls(w, n) == BootCalls(w, n - 1) +
      if w.findBoot(n) != Raises then [Call(VerifyingBoot, Search), Call(VerifyingBoot, BootAt(n))]
      else [Call(VerifyingBoot, Search)]
  {}

  lemma BootsNever(w: World, n: nat)
    requires forall j :: 1 <= j <= n ==> w.findBoot(j) != Raises && !w.boot(j)
    ensures !Boots(w, n) && !BootEscapes(w, n)
  {}

  /** The first attempt that flashes or raises decides. */
  lemma FlashDecided(w: World, m: nat, n: nat)
    requires 1 <= m <= n && forall j :: 1 <= j < m ==> w.find(j) != Raises && !FlashesAt(w, j)
    requires w.find(m) == Raises || FlashesAt(w, m)
    ensures Flashes(w, n) <==> FlashesAt(w, m)
    ensures FlashEscapes(w, n) <==> w.find(m) == Raises
    ensures !Flashes(w, m - 1) && !FlashEscapes(w, m - 1)
  {
    assert FlashesAt(w, m) ==> w.find(m) != Raises;
    hide FlashesAt;
  }

  lemma {:induction false} NoMoreFlashes(w: World, m: nat, n: nat)
    requires 1 <= m <= n && forall j :: 1 <= j < m ==> w.find(j) != Raises && !FlashesAt(w, j)
    requires w.find(m) == Raises || FlashesAt(w, m)
    ensures FlashCalls(w, n) == FlashCalls(w, m)
    ensures Flashes(w, n) <==> FlashesAt(w, m)
    ensures FlashEscapes(w, n) <==> w.find(m) == Raises
    ensures !Flashes(w, m - 1) && !FlashEscapes(w, m - 1)
  {
    FlashDecided(w, m, n);
    hide Flashes, FlashEscapes, FlashesAt;
    if m < n {
      NoMoreFlashes(w, m, n - 1);
    }
  }

  lemma BootDecided(w: World, m: nat, n: nat)
    requires 1 <= m <= n && forall j :: 1 <= j < m ==> w.findBoot(j) != Raises && !w.boot(j)
    requires w.findBoot(m) == Raises || w.boot(m)
    ensures Boots(w, n) <==> w.findBoot(m) != Raises
    ensures BootEscapes(w, n) <==> w.findBoot(m) == Raises
    ensures !Boots(w, m - 1) && !BootEscapes(w, m - 1)
  {}

  lemma {:induction false} NoMoreBoots(w: World, m: nat, n: nat)
    requires 1 <= m <= n && forall j :: 1 <= j < m ==> w.findBoot(j) != Raises && !w.boot(j)
    requires w.findBoot(m) == Raises || w.boot(m)
    ensures BootCalls(w, n) == BootCalls(w, m)
    ensures Boots(w, n) <==> w.findBoot(m) != Raises
    ensures BootEscapes(w, n) <==> w.findBoot(m) == Raises
    ensures !Boots(w, m - 1) && !BootEscapes(w, m - 1)
  {
    BootDecided(w, m, n);
    hide Boots, BootEscapes;
    if m < n {
      NoMoreBoots(w, m, n - 1);
    }
  }

  lemma {:induction false} NoFlashClock(w: World, n: nat)
    ensures Call(SyncingClock, ClockSync) !in FlashCalls(w, n)
  {
    hide Flashes, FlashEscapes;
    if n > 0 { NoFlashClock(w, n - 1); }
  }

  lemma {:induction false} NoBootClock(w: World, n: nat)
    ensures Call(SyncingClock, ClockSync) !in BootCalls(w, n)
  {
    hide Boots, BootEscapes;
    if n > 0 { NoBootClock(w, n - 1); }
  }
}
