/** _push_via: one file over a link that may stall anywhere. */
module BadgePush {
  import opened Bytes
  import opened BadgeLink
  import opened PushSteps

  // ── What every state of a push satisfies ──

  /** Files other than the target and its .tmp are as they were. */
  ghost predicate OthersKept(f0: Files, f: Files, path: Path) {
    forall q :: q != path && q != path + ".tmp" ==> (q in f <==> q in f0) && (q in f0 ==> f[q] == f0[q])
  }

  /** The target is the old file, absent, or the complete new one. */
  ghost predicate TargetWhole(f0: Files, f: Files, path: Path, data: seq<byte>) {
    path in f ==> f[path] == data || (path in f0 && f[path] == f0[path])
  }

  ghost predicate Harmless(f0: Files, f: Files, path: Path, data: seq<byte>) {
    OthersKept(f0, f, path) && TargetWhole(f0, f, path, data)
  }

  /** The .tmp holds nothing but a beginning of the data. */
  ghost predicate TmpIsPrefix(f: Files, path: Path, data: seq<byte>) {
    path + ".tmp" in f ==> f[path + ".tmp"] <= data
  }

  /** Octets of the data not yet in the .tmp. */
  ghost function Missing(f: Files, began: bool, path: Path, data: seq<byte>): nat {
    var tmp := path + ".tmp";
    if began && tmp in f && |f[tmp]| <= |data| then |data| - |f[tmp]| else |data|
  }

  /** Every state a push leads through. */
  ghost predicate Passable(f0: Files, f: Files, path: Path, data: seq<byte>) {
    Harmless(f0, f, path, data) && TmpIsPrefix(f, path, data)
  }

  /** The states from h0 on. */
  ghost predicate AllPassable(f0: Files, history: seq<Files>, h0: nat, path: Path, data: seq<byte>) {
    h0 <= |history| && forall k :: h0 <= k < |history| ==> Passable(f0, history[k], path, data)
  }

  /** The .tmp holds the first offset octets. */
  ghost predicate TmpHolds(f: Files, path: Path, data: seq<byte>, offset: nat) {
    offset <= |data| && path + ".tmp" in f && f[path + ".tmp"] == data[..offset]
  }

  lemma Grown(f0: Files, before: seq<Files>, history: seq<Files>, h0: nat, path: Path, data: seq<byte>)
    requires AllPassable(f0, before, h0, path, data) && before <= history
    requires forall k :: |before| <= k < |history| ==> Passable(f0, history[k], path, data)
    ensures AllPassable(f0, history, h0, path, data)
  {}

  // ── The stall count, read off the calls ──

  /** Stalls since the last acknowledged chunk, the count a push gives up on. */
  ghost function StallsInARow(events: seq<Event>): nat {
    if events == [] then 0
    else
      var k := |events| - 1;
      if events[k].reply == Stall then StallsInARow(events[..k]) + 1
      else if events[k] == Event(Call.Chunk, Ack) then 0
      else StallsInARow(events[..k])
  }

  lemma OneMoreEvent(events: seq<Event>, e0: nat, e: Event)
    requires e0 <= |events|
    ensures StallsInARow((events + [e])[e0..]) ==
      if e.reply == Stall then StallsInARow(events[e0..]) + 1
      else if e == Event(Call.Chunk, Ack) then 0
      else StallsInARow(events[e0..])
  {
    assert (events + [e])[e0..] == events[e0..] + [e];
    assert (events[e0..] + [e])[..|events[e0..]|] == events[e0..];
  }

  lemma TmpDiffers(path: Path)
    ensures path + ".tmp" != path
  {
    assert |path + ".tmp"| == |path| + 4;
  }

  // ── What each script does to these ──

  lemma BeginPassable(f0: Files, f: Files, path: Path, data: seq<byte>)
    requires Harmless(f0, f, path, data)
    ensures Passable(f0, Remove(f, path + ".tmp"), path, data) && Passable(f0, f[path + ".tmp" := []], path, data)
    ensures TmpHolds(f[path + ".tmp" := []], path, data, 0)
  {
    TmpDiffers(path);
  }

  lemma ChunkPassable(f0: Files, f: Files, g: Files, path: Path, data: seq<byte>, offset: nat, chunk: seq<byte>)
    requires Harmless(f0, f, path, data) && TmpHolds(f, path, data, offset)
    requires chunk <= data[offset..] && AppendedSome(f, g, path + ".tmp", chunk)
    ensures Passable(f0, g, path, data)
    ensures Missing(g, true, path, data) <= |data| - offset
  {
    TmpDiffers(path);
    var tmp := path + ".tmp";
    var n :| 0 <= n <= |chunk| && g == Appended(f, tmp, chunk[..n]);
    assert chunk[..n] == data[offset..][..n] == data[offset..offset + n];
    assert data[..offset] + data[offset..offset + n] == data[..offset + n];
    assert g[tmp] == data[..offset + n];
  }

  lemma ChunkLanded(f: Files, path: Path, data: seq<byte>, offset: nat, chunk: seq<byte>)
    requires TmpHolds(f, path, data, offset) && chunk <= data[offset..]
    ensures TmpHolds(Appended(f, path + ".tmp", chunk), path, data, offset + |chunk|)
  {
    assert chunk == data[offset..offset + |chunk|];
    assert data[..offset] + data[offset..offset + |chunk|] == data[..offset + |chunk|];
  }

  lemma FinishPassable(f0: Files, f: Files, path: Path, data: seq<byte>)
    requires Harmless(f0, f, path, data) && TmpHolds(f, path, data, |data|)
    ensures path + ".tmp" in f && f[path + ".tmp"] == data
    ensures Passable(f0, Remove(f, path), path, data) && Passable(f0, Renamed(f, path + ".tmp", path), path, data)
    ensures path + ".tmp" !in Renamed(f, path + ".tmp", path) && Renamed(f, path + ".tmp", path)[path] == data
    ensures Missing(f, true, path, data) == Missing(Remove(f, path), true, path, data) == 0
  {
    TmpDiffers(path);
    assert data[..|data|] == data;
  }

  /** After a stall the size of the .tmp tells how far the data got. */
  lemma Resynced(f: Files, path: Path, data: seq<byte>)
    requires TmpIsPrefix(f, path, data)
    ensures path + ".tmp" in f ==> TmpHolds(f, path, data, |f[path + ".tmp"]|)
    ensures Missing(f, false, path, data) == |data|
    ensures path + ".tmp" !in f ==> Missing(f, true, path, data) == |data|
    ensures path + ".tmp" in f ==> Missing(f, true, path, data) == |data| - |f[path + ".tmp"]|
  {}

  lemma HeldIsPrefix(f: Files, path: Path, data: seq<byte>, offset: nat)
    requires TmpHolds(f, path, data, offset)
    ensures TmpIsPrefix(f, path, data) && Missing(f, true, path, data) == |data| - offset
  {}

  ghost predicate GoodPath(path: Path) {
    |path| > 0 && path[0] == '/' && |path| <= 96
  }

  lemma Unchanged(f: Files, history: seq<Files>, path: Path, data: seq<byte>)
    ensures Harmless(f, f, path, data) && AllPassable(f, history, |history|, path, data)
    ensures StallsInARow([]) == 0
  {}

  // ── Every run of a push, however many replies are lost ──

  /** A state between two calls, after these events. */
  ghost predicate Safe(f0: Files, s: State, events: seq<Event>, path: Path, data: seq<byte>) {
    && Harmless(f0, s.files, path, data) && (s.began ==> TmpIsPrefix(s.files, path, data))
    && (s.at == Sending && s.began ==> 0 <= s.offset && TmpHolds(s.files, path, data, s.offset))
    && (s.at == Over(Pushed) ==> path in s.files && s.files[path] == data && path + ".tmp" !in s.files)
    && s.at != Over(RemoteFailure(BadContent)) && s.at != Over(BadPath)
    && s.stalls == StallsInARow(events) && (s.at == Over(GaveUp) <==> s.stalls > PUSH_RETRIES)
  }

  /** Any reply but an acknowledgement leaves a safe state, given safe files. */
  lemma RefusedSafe(f0: Files, s: State, u: State, e: Event, events: seq<Event>, path: Path, data: seq<byte>)
    requires Safe(f0, s, events, path, data) && !s.at.Over? && e.reply != Ack && e.reply != Raised(BadContent)
    requires u == s.(files := u.files) && Harmless(f0, u.files, path, data)
    requires s.began ==> TmpIsPrefix(u.files, path, data)
    ensures Safe(f0, Refused(u, e.reply), events + [e], path, data)
  {
    hide Harmless, TmpIsPrefix, TmpHolds, StallsInARow;
    OneMoreEvent(events, 0, e);
    assert (events + [e])[0..] == events + [e] && events[0..] == events;
  }

  lemma AckedCount(e: Event, events: seq<Event>)
    requires e.reply == Ack
    ensures StallsInARow(events + [e]) == if e.call == Call.Chunk then 0 else StallsInARow(events)
  {
    OneMoreEvent(events, 0, e);
    assert (events + [e])[0..] == events + [e] && events[0..] == events;
  }

  lemma SafeResync(f0: Files, s: State, e: Event, t: State, events: seq<Event>, path: Path, data: seq<byte>)
    requires Safe(f0, s, events, path, data) && Next(path, data, s, e, t)
    requires e.call == Call.Enter || e.call == Call.Size
    ensures Safe(f0, t, events + [e], path, data)
  {
    hide Harmless, StallsInARow, TmpIsPrefix, TmpHolds;
    if e.reply == Ack {
      AckedCount(e, events);
      if s.began { Resynced(s.files, path, data); }
    } else {
      RefusedSafe(f0, s, s, e, events, path, data);
    }
  }

  lemma SafeBegin(f0: Files, s: State, e: Event, t: State, events: seq<Event>, path: Path, data: seq<byte>)
    requires Safe(f0, s, events, path, data) && Next(path, data, s, e, t) && e.call == Call.Begin
    ensures Safe(f0, t, events + [e], path, data)
  {
    hide Harmless, StallsInARow, TmpIsPrefix, TmpHolds;
    BeginPassable(f0, s.files, path, data);
    if e.reply == Ack {
      AckedCount(e, events);
    } else {
      RefusedSafe(f0, s, s.(files := t.files), e, events, path, data);
    }
  }

  lemma SafeChunk(f0: Files, s: State, e: Event, t: State, events: seq<Event>, path: Path, data: seq<byte>)
    requires Safe(f0, s, events, path, data) && Next(path, data, s, e, t) && e.call == Call.Chunk
    ensures Safe(f0, t, events + [e], path, data)
  {
    hide Harmless, StallsInARow, TmpIsPrefix, TmpHolds, AppendedSome, NextChunk;
    var chunk := NextChunk(data, s.offset);
    if t.files != s.files || e.reply == Ack {
      if e.reply == Ack { WholeChunk(s.files, path + ".tmp", chunk); }
      ChunkPassable(f0, s.files, t.files, path, data, s.offset, chunk);
    }
    if e.reply == Ack {
      AckedCount(e, events);
      ChunkLanded(s.files, path, data, s.offset, chunk);
    } else {
      RefusedSafe(f0, s, s.(files := t.files), e, events, path, data);
    }
  }

  lemma WholeChunk(f: Files, tmp: Path, chunk: seq<byte>)
    ensures AppendedSome(f, Appended(f, tmp, chunk), tmp, chunk)
  {
    assert chunk[..|chunk|] == chunk;
  }

  lemma SafeFinish(f0: Files, s: State, e: Event, t: State, events: seq<Event>, path: Path, data: seq<byte>)
    requires Safe(f0, s, events, path, data) && Next(path, data, s, e, t) && e.call == Call.Finish
    ensures Safe(f0, t, events + [e], path, data)
  {
    hide Harmless, StallsInARow, TmpIsPrefix, TmpHolds, Fnv;
    FinishPassable(f0, s.files, path, data);
    assert Arrived(s.files, path + ".tmp", data);
    if e.reply == Ack {
      AckedCount(e, events);
    } else {
      RefusedSafe(f0, s, s.(files := t.files), e, events, path, data);
    }
  }

  /** At every moment of every run, with no bound on the replies that are lost:
      the target is the old file, absent, or the complete new one, the rest is
      untouched, a push that returns has its file in place, and it gives up
      exactly after more than five stalls in a row. A call may leave the files in
      any state it goes through, so the states inside a call are covered too. */
  lemma {:induction false} RunIsSafe(path: Path, data: seq<byte>, files: Files, run: Run, i: nat)
    requires IsRun(path, data, files, run) && i < |run.states|
    ensures Safe(files, run.states[i], run.events[..i], path, data)
  {
    hide Safe, Next;
    if i == 0 {
      StartSafe(files, path, data);
    } else {
      RunIsSafe(path, data, files, run, i - 1);
      var s, e, t, before := run.states[i - 1], run.events[i - 1], run.states[i], run.events[..i - 1];
      assert run.events[..i] == before + [e];
      assert Next(path, data, s, e, t);
      match e.call {
        case Enter => SafeResync(files, s, e, t, before, path, data);
        case Size => SafeResync(files, s, e, t, before, path, data);
        case Begin => SafeBegin(files, s, e, t, before, path, data);
        case Chunk => SafeChunk(files, s, e, t, before, path, data);
        case Finish => SafeFinish(files, s, e, t, before, path, data);
        case Clear => NoClear(path, data, s, e, t);
      }
    }
  }

  lemma NoClear(path: Path, data: seq<byte>, s: State, e: Event, t: State)
    requires Next(path, data, s, e, t)
    ensures e.call != Call.Clear
  {}

  lemma StartSafe(files: Files, path: Path, data: seq<byte>)
    ensures Safe(files, PushSteps.Start(files), [], path, data)
  {}

  /** The local state of one push. */
  class Push {
    const badge: Badge
    const path: Path
    const data: seq<byte>
    var began: bool
    var resync: bool
    var offset: int
    var stalls: nat
    ghost const files0: Files
    ghost const history0: seq<Files>
    ghost const events0: seq<Event>
    /** The run so far, in the terms of its steps. */
    ghost var run: Run

    constructor (badge: Badge, path: Path, data: seq<byte>)
      requires badge.Valid()
      ensures this.badge == badge && this.path == path && this.data == data
      ensures files0 == badge.files && history0 == badge.history && events0 == badge.events
      ensures Inv(0) && !began && !resync && stalls == 0 && Traced(Here())
    {
      this.badge, this.path, this.data := badge, path, data;
      began, resync, offset, stalls := false, false, 0, 0;
      files0, history0, events0 := badge.files, badge.history, badge.events;
      run := Run([PushSteps.Start(badge.files)], []);
      new;
      Unchanged(badge.files, badge.history, path, data);
      assert badge.events[|events0|..] == [];
    }

    /** pending counts a stall that was met but not yet added to stalls. */
    ghost predicate Inv(pending: nat)
      reads this, badge
    {
      && badge.Valid() && history0 <= badge.history && events0 <= badge.events
      && AllPassable(files0, badge.history, |history0|, path, data) && Harmless(files0, badge.files, path, data)
      && (began ==> TmpIsPrefix(badge.files, path, data))
      && StallsInARow(badge.events[|events0|..]) == stalls + pending
    }

    /** Where the push is between two calls. */
    ghost function Here(): State
      reads this, badge
    {
      State(badge.files, if resync then Entering else Sending, began, offset, stalls)
    }

    /** Where it is once a reply has come. */
    ghost function After(r: Reply): State
      reads this, badge
    {
      if r == Ack then Here() else Refused(Here(), r)
    }

    /** The calls so far are a run that leads to last. */
    ghost predicate Traced(last: State)
      reads this, badge
    {
      && IsRun(path, data, files0, run) && Last(run) == last
      && events0 <= badge.events && run.events == badge.events[|events0|..]
    }

    /** The latest call was the next step of the run. */
    ghost method Step(s: State, e: Event, t: State)
      requires IsRun(path, data, files0, run) && Last(run) == s && Next(path, data, s, e, t)
      requires events0 <= badge.events && badge.events[|events0|..] == run.events + [e]
      modifies this`run
      ensures Traced(t)
    {
      hide IsRun, Next;
      OneMore(path, data, files0, run, e, t);
      run := More(run, e, t);
    }

    ghost predicate Synced()
      reads this, badge
    {
      began && 0 <= offset && TmpHolds(badge.files, path, data, offset)
    }

    ghost function Left(): nat
      reads this, badge
    {
      Missing(badge.files, began, path, data)
    }

    /** What every step promises about the stall it may have met. */
    ghost function Pending(r: Reply): nat {
      if r == Stall then 1 else 0
    }

    method Resync() returns (r: Reply)
      requires Inv(0) && resync && Traced(Here())
      modifies this, badge
      ensures Inv(Pending(r)) && r != Raised(BadContent)
      ensures badge.lossesLeft == old(badge.lossesLeft) && Left() == old(Left()) && stalls == old(stalls)
      ensures r == Ack ==> !resync && (began ==> Synced())
      ensures r != Ack ==> resync
      ensures Traced(After(r))
    {
      hide Harmless, TmpIsPrefix, TmpHolds, AllPassable, StallsInARow, Missing, IsRun, Next;
      ghost var s := Here();
      r := badge.Enter();
      OneMoreEvent(old(badge.events), |events0|, Event(Call.Enter, r));
      EnterIsNext(path, data, s, r);
      Step(s, Event(Call.Enter, r), if r == Ack then Entered(s) else Refused(s, r));
      if r == Ack && began {
        ghost var events := badge.events;
        var size;
        r, size := badge.Size(path + ".tmp");
        OneMoreEvent(events, |events0|, Event(Call.Size, r));
        SizeIsNext(path, data, Entered(s), r);
        Step(Entered(s), Event(Call.Size, r),
          if r == Ack then Sized(Entered(s), path, data) else Refused(Entered(s), r));
        if r == Ack {
          Resynced(badge.files, path, data);
          offset := size;
          if !(0 <= offset <= |data|) { began, offset := false, 0; }
        }
      }
      if r == Ack { resync := false; }
    }

    method SendBegin() returns (r: Reply)
      requires Inv(0) && !began && !resync && Traced(Here())
      modifies this, badge
      ensures Inv(Pending(r)) && r != Raised(BadContent)
      ensures badge.lossesLeft == old(badge.lossesLeft) && Left() == old(Left()) && stalls == old(stalls) && !resync
      ensures r == Ack ==> Synced()
      ensures Traced(After(r))
    {
      hide Harmless, TmpIsPrefix, TmpHolds, Passable, AllPassable, StallsInARow, Missing, IsRun;
      ghost var s := Here();
      ghost var files, history := badge.files, badge.history;
      BeginPassable(files0, files, path, data);
      r := badge.Begin(path + ".tmp");
      Grown(files0, history, badge.history, |history0|, path, data);
      OneMoreEvent(old(badge.events), |events0|, Event(Call.Begin, r));
      ghost var u := s.(files := badge.files);
      Step(s, Event(Call.Begin, r), if r == Ack then u.(began := true, offset := 0) else Refused(u, r));
      NotBegun(files, path, data);
      NotBegun(badge.files, path, data);
      BegunHarmless(files0, files, badge.files, path, data);
      if r == Ack {
        began, offset := true, 0;
        HeldIsPrefix(badge.files, path, data, 0);
      }
    }

    /** One chunk, and the count of stalls cleared when it is acknowledged. */
    method SendChunk() returns (r: Reply)
      requires Inv(0) && Synced() && !resync && offset < |data| && Traced(Here())
      modifies this, badge
      ensures Inv(Pending(r)) && r != Raised(BadContent) && began && !resync && Traced(After(r))
      ensures badge.lossesLeft == old(badge.lossesLeft) && Left() <= old(Left()) == |data| - old(offset)
      ensures if r == Ack then Synced() && Left() == |data| - offset && old(offset) < offset <= |data| && stalls == 0
        else stalls == old(stalls)
    {
      hide Harmless, TmpIsPrefix, TmpHolds, Passable, AllPassable, StallsInARow, Missing, AppendedSome;
      hide IsRun, Next, Refused, NextChunk;
      ghost var s := Here();
      ghost var files, history, events := badge.files, badge.history, badge.events;
      HoldsBounds(files, path, data, offset);
      var chunk := NextChunk(data, offset);
      r := badge.Chunk(path + ".tmp", chunk);
      OneMoreEvent(events, |events0|, Event(Call.Chunk, r));
      ChunkDone(files0, files, badge.files, history, badge.history, |history0|, path, data, offset, chunk, r == Ack);
      ghost var u := s.(files := badge.files);
      ChunkIsNext(path, data, s, r, badge.files);
      Step(s, Event(Call.Chunk, r), if r == Ack then u.(offset := offset + |chunk|, stalls := 0) else Refused(u, r));
      if r == Ack {
        offset := offset + |chunk|;
        stalls := 0;
      }
    }

    method SendChunks() returns (r: Reply)
      requires Inv(0) && Synced() && !resync && Traced(Here())
      modifies this, badge
      ensures Inv(Pending(r)) && r != Raised(BadContent) && began && !resync
      ensures badge.lossesLeft == old(badge.lossesLeft) && Left() <= old(Left())
      ensures Left() < old(Left()) || stalls == old(stalls)
      ensures r == Ack ==> Synced() && offset == |data|
      ensures stalls <= old(stalls) && (data == [] ==> stalls == old(stalls))
      ensures Traced(After(r))
    {
      hide Harmless, TmpIsPrefix, TmpHolds, Passable, AllPassable, StallsInARow, Missing, IsRun;
      r := Ack;
      HoldsBounds(badge.files, path, data, offset);
      while offset < |data|
        invariant Inv(0) && Synced() && !resync && 0 <= offset <= |data| && r == Ack && Traced(Here())
        invariant badge.lossesLeft == old(badge.lossesLeft) && Left() == |data| - offset <= old(Left())
        invariant (Left() < old(Left()) && stalls == 0) || stalls == old(stalls)
        decreases |data| - offset
      {
        r := SendChunk();
        if r != Ack { return; }
      }
    }

    method SendFinish() returns (r: Reply)
      requires Inv(0) && Synced() && !resync && offset == |data| && Traced(Here())
      modifies this, badge
      ensures Inv(Pending(r)) && r != Raised(BadContent) && began && !resync && stalls == old(stalls)
      ensures badge.lossesLeft < old(badge.lossesLeft)
        || (badge.lossesLeft == old(badge.lossesLeft) && (r == Ack || Left() == old(Left())))
      ensures r == Ack ==> path in badge.files && badge.files[path] == data && path + ".tmp" !in badge.files
      ensures Traced(if r == Ack then Here().(at := Over(Pushed)) else After(r))
    {
      hide Fnv, Harmless, TmpIsPrefix, TmpHolds, Passable, AllPassable, StallsInARow, Missing, IsRun;
      ghost var s := Here();
      ghost var files, history, events := badge.files, badge.history, badge.events;
      TmpDiffers(path);
      FinishPassable(files0, files, path, data);
      HeldIsPrefix(files, path, data, |data|);
      r := badge.Finish(path + ".tmp", path, |data|, Fnv(data));
      OneMoreEvent(events, |events0|, Event(Call.Finish, r));
      ghost var u := s.(files := badge.files);
      FinishIsNext(path, data, s, r, badge.files);
      Step(s, Event(Call.Finish, r), if r == Ack then u.(at := Over(Pushed)) else Refused(u, r));
      Grown(files0, history, badge.history, |history0|, path, data);
      PassableParts(files0, Remove(files, path), path, data);
      PassableParts(files0, Renamed(files, path + ".tmp", path), path, data);
    }

    /** One pass through the try block. */
    method Attempt() returns (r: Reply)
      requires Inv(0) && (began && !resync ==> Synced()) && Traced(Here())
      modifies this, badge
      ensures Inv(Pending(r)) && r != Raised(BadContent) && stalls <= old(stalls)
        && (data == [] ==> stalls == old(stalls))
      ensures badge.lossesLeft < old(badge.lossesLeft) || (badge.lossesLeft == old(badge.lossesLeft) &&
        (r == Ack || Left() < old(Left()) || (Left() == old(Left()) && stalls == old(stalls))))
      ensures r == Ack ==> path in badge.files && badge.files[path] == data && path + ".tmp" !in badge.files
      ensures Traced(if r == Ack then Here().(at := Over(Pushed)) else After(r))
    {
      hide Harmless, TmpIsPrefix, TmpHolds, Passable, AllPassable, StallsInARow, Missing, Fnv, IsRun;
      if resync {
        r := Resync();
        if r != Ack { return; }
      }
      if !began {
        r := SendBegin();
        if r != Ack { return; }
      }
      r := SendChunks();
      if r == Ack { r := SendFinish(); }
    }
  }

  lemma NotBegun(f: Files, path: Path, data: seq<byte>)
    ensures Missing(f, false, path, data) == |data|
  {}

  lemma BegunHarmless(f0: Files, f: Files, g: Files, path: Path, data: seq<byte>)
    requires Harmless(f0, f, path, data)
    requires g == f || Passable(f0, g, path, data)
    ensures Harmless(f0, g, path, data)
  {}

  lemma HoldsBounds(f: Files, path: Path, data: seq<byte>, offset: nat)
    requires TmpHolds(f, path, data, offset)
    ensures offset <= |data| && Missing(f, true, path, data) == |data| - offset
  {}

  lemma PassableParts(f0: Files, f: Files, path: Path, data: seq<byte>)
    requires Passable(f0, f, path, data)
    ensures Harmless(f0, f, path, data) && TmpIsPrefix(f, path, data)
  {}

  /** A chunk sent, acknowledged or not. */
  lemma ChunkDone(f0: Files, f: Files, g: Files, before: seq<Files>, history: seq<Files>, h0: nat,
                  path: Path, data: seq<byte>, offset: nat, chunk: seq<byte>, acked: bool)
    requires Harmless(f0, f, path, data) && TmpHolds(f, path, data, offset) && AllPassable(f0, before, h0, path, data)
    requires chunk <= data[offset..] && before <= history
    requires forall k :: |before| <= k < |history| ==> AppendedSome(f, history[k], path + ".tmp", chunk)
    requires g == f || AppendedSome(f, g, path + ".tmp", chunk)
    requires acked ==> g == Appended(f, path + ".tmp", chunk)
    ensures AllPassable(f0, history, h0, path, data) && Harmless(f0, g, path, data) && TmpIsPrefix(g, path, data)
    ensures Missing(g, true, path, data) <= Missing(f, true, path, data)
    ensures acked ==>
      TmpHolds(g, path, data, offset + |chunk|) && Missing(g, true, path, data) == |data| - offset - |chunk|
  {
    hide AppendedSome, Harmless, TmpIsPrefix, Missing, TmpHolds, Passable;
    HeldIsPrefix(f, path, data, offset);
    forall x | AppendedSome(f, x, path + ".tmp", chunk)
      ensures Passable(f0, x, path, data) && Missing(x, true, path, data) <= |data| - offset
    {
      ChunkPassable(f0, f, x, path, data, offset, chunk);
    }
    if g != f { PassableParts(f0, g, path, data); }
    if acked {
      ChunkLanded(f, path, data, offset, chunk);
      HeldIsPrefix(g, path, data, offset + |chunk|);
    }
  }

  /** Pushes data to path. On Pushed the badge holds exactly the data there, with
      no .tmp left. Whatever happens, every state passed through has the other
      files unchanged, the target old, absent or complete, and a .tmp that only
      holds a beginning of the data; content is never rejected. Giving up takes
      PUSH_RETRIES + 1 stalls with no chunk acknowledged in between. The calls
      are a run of the steps. For an empty file the retries alone end the loop;
      for any other it ends because the link loses only finitely many finish
      replies after the rename, then by octets still missing, then by stalls left. */
  method PushVia(badge: Badge, path: Path, data: seq<byte>) returns (r: PushResult)
    requires badge.Valid()
    modifies badge
    ensures badge.Valid() && old(badge.history) <= badge.history && old(badge.events) <= badge.events
    ensures r == BadPath <==> !GoodPath(path)
    ensures r == BadPath ==> badge.files == old(badge.files) && badge.events == old(badge.events)
    ensures AllPassable(old(badge.files), badge.history, |old(badge.history)|, path, data)
    ensures Harmless(old(badge.files), badge.files, path, data)
    ensures r == Pushed ==> path in badge.files && badge.files[path] == data && path + ".tmp" !in badge.files
    ensures r != RemoteFailure(BadContent)
    ensures r == GaveUp <==> StallsInARow(badge.events[|old(badge.events)|..]) > PUSH_RETRIES
    ensures r != BadPath ==> exists run: Run ::
      && IsRun(path, data, old(badge.files), run) && run.events == badge.events[|old(badge.events)|..]
      && Last(run).at == Over(r) && Last(run).files == badge.files
  {
    hide Harmless, TmpIsPrefix, TmpHolds, Passable, AllPassable, StallsInARow, Missing, IsRun;
    var p := new Push(badge, path, data);
    if |path| == 0 || path[0] != '/' || |path| > 96 { return BadPath; }
    while true
      invariant p.badge == badge && p.path == path && p.data == data && fresh(p)
      invariant p.files0 == old(badge.files) && p.history0 == old(badge.history) && p.events0 == old(badge.events)
      invariant p.Inv(0) && p.stalls <= PUSH_RETRIES
      invariant (p.began && !p.resync ==> p.Synced()) && p.Traced(p.Here())
      decreases if data == [] then 0 else badge.lossesLeft, if data == [] then 0 else p.Left(), PUSH_RETRIES - p.stalls
    {
      var reply := p.Attempt();
      match reply {
        case Ack => return Pushed;
        case Raised(e) => return RemoteFailure(e);
        case Stall =>
      }
      p.stalls := p.stalls + 1;
      if p.stalls > PUSH_RETRIES { return GaveUp; }
      p.resync := true;
    }
  }
}
