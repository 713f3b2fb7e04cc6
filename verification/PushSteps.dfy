/** The steps of a push, one remote call at a time, and when its retry limit
    alone brings it to an end. */
module PushSteps {
  import opened Bytes
  import opened BadgeLink

  const CHUNK_BYTES := 192
  const PUSH_RETRIES := 5

  datatype PushResult = Pushed | BadPath | GaveUp | RemoteFailure(error: RemoteError)

  /** Which call comes next; while Sending that is begin, a chunk or finish. */
  datatype At = Entering | Sizing | Sending | Over(result: PushResult)

  datatype State = State(files: Files, at: At, began: bool, offset: int, stalls: nat)

  function Start(files: Files): State {
    State(files, Sending, false, 0, 0)
  }

  /** A stall is counted, and the next attempt re-enters the REPL. */
  function Caught(s: State): State {
    s.(stalls := s.stalls + 1, at := if s.stalls + 1 > PUSH_RETRIES then Over(GaveUp) else Entering)
  }

  /** Any reply but an acknowledgement. */
  function Refused(s: State, r: Reply): State
    requires r != Ack
  {
    if r == Stall then Caught(s) else s.(at := Over(RemoteFailure(r.error)))
  }

  function Entered(s: State): State {
    s.(at := if s.began then Sizing else Sending)
  }

  /** Where to resume; a size the data does not have begins again. */
  function Sized(s: State, path: Path, data: seq<byte>): State {
    var tmp := path + ".tmp";
    var size: int := if tmp in s.files then |s.files[tmp]| else -1;
    if 0 <= size <= |data| then s.(at := Sending, offset := size) else s.(at := Sending, began := false, offset := 0)
  }

  function NextChunk(data: seq<byte>, offset: nat): (chunk: seq<byte>)
    requires offset <= |data|
    ensures |chunk| <= CHUNK_BYTES && chunk <= data[offset..] && (offset < |data| ==> chunk != [])
  {
    data[offset..if offset + CHUNK_BYTES < |data| then offset + CHUNK_BYTES else |data|]
  }

  /** Size and hash are as announced. */
  predicate Arrived(f: Files, tmp: Path, data: seq<byte>) {
    tmp in f && |f[tmp]| == |data| && Fnv(f[tmp]) == Fnv(data)
  }

  // ── What a call may do to the files, by its reply ──

  ghost predicate BeginLeaves(f: Files, tmp: Path, r: Reply, g: Files) {
    && (g == f || g == Remove(f, tmp) || g == f[tmp := []])
    && (r == Ack ==> g == f[tmp := []])
  }

  ghost predicate ChunkLeaves(f: Files, tmp: Path, chunk: seq<byte>, r: Reply, g: Files) {
    && (g == f || AppendedSome(f, g, tmp, chunk))
    && (r == Ack ==> g == Appended(f, tmp, chunk))
  }

  ghost predicate FinishLeaves(f: Files, tmp: Path, path: Path, data: seq<byte>, r: Reply, g: Files) {
    if Arrived(f, tmp, data) then
      && (g == f || g == Remove(f, path) || g == Renamed(f, tmp, path))
      && (r == Ack ==> g == Renamed(f, tmp, path)) && r != Raised(BadContent)
    else g == f && r != Ack
  }

  /** One remote call and what the push makes of its reply. */
  ghost predicate Next(path: Path, data: seq<byte>, s: State, e: Event, t: State) {
    var tmp := path + ".tmp";
    var u := s.(files := t.files);
    match e.call
    case Enter => s.at == Entering && (e.reply == Ack || e.reply == Stall) && t.files == s.files
      && t == if e.reply == Ack then Entered(s) else Caught(s)
    case Size => s.at == Sizing && e.reply != Raised(BadContent) && t.files == s.files
      && t == if e.reply == Ack then Sized(s, path, data) else Refused(s, e.reply)
    case Begin => s.at == Sending && !s.began && e.reply != Raised(BadContent)
      && BeginLeaves(s.files, tmp, e.reply, t.files)
      && t == if e.reply == Ack then u.(began := true, offset := 0) else Refused(u, e.reply)
    case Chunk => s.at == Sending && s.began && 0 <= s.offset < |data| && e.reply != Raised(BadContent)
      && var chunk := NextChunk(data, s.offset);
         ChunkLeaves(s.files, tmp, chunk, e.reply, t.files)
         && t == if e.reply == Ack then u.(offset := s.offset + |chunk|, stalls := 0) else Refused(u, e.reply)
    case Finish => s.at == Sending && s.began && s.offset == |data|
      && FinishLeaves(s.files, tmp, path, data, e.reply, t.files)
      && t == if e.reply == Ack then u.(at := Over(Pushed)) else Refused(u, e.reply)
    case Clear => false
  }

  lemma EnterIsNext(path: Path, data: seq<byte>, s: State, r: Reply)
    requires s.at == Entering && (r == Ack || r == Stall)
    ensures Next(path, data, s, Event(Call.Enter, r), if r == Ack then Entered(s) else Refused(s, r))
  {}

  lemma SizeIsNext(path: Path, data: seq<byte>, s: State, r: Reply)
    requires s.at == Sizing && r != Raised(BadContent)
    ensures Next(path, data, s, Event(Call.Size, r), if r == Ack then Sized(s, path, data) else Refused(s, r))
  {}

  lemma ChunkIsNext(path: Path, data: seq<byte>, s: State, r: Reply, g: Files)
    requires s.at == Sending && s.began && 0 <= s.offset < |data| && r != Raised(BadContent)
    requires ChunkLeaves(s.files, path + ".tmp", NextChunk(data, s.offset), r, g)
    ensures var u, size := s.(files := g), |NextChunk(data, s.offset)|;
      Next(path, data, s, Event(Call.Chunk, r),
        if r == Ack then u.(offset := s.offset + size, stalls := 0) else Refused(u, r))
  {
    hide ChunkLeaves, NextChunk;
  }

  lemma FinishIsNext(path: Path, data: seq<byte>, s: State, r: Reply, g: Files)
    requires s.at == Sending && s.began && s.offset == |data| && FinishLeaves(s.files, path + ".tmp", path, data, r, g)
    ensures var u := s.(files := g);
      Next(path, data, s, Event(Call.Finish, r), if r == Ack then u.(at := Over(Pushed)) else Refused(u, r))
  {
    hide FinishLeaves;
  }

  /** A run: the states passed, and the calls between them. */
  datatype Run = Run(states: seq<State>, events: seq<Event>)

  ghost predicate IsRun(path: Path, data: seq<byte>, files: Files, run: Run) {
    && |run.states| == |run.events| + 1 && run.states[0] == Start(files)
    && forall i, j :: 0 <= i < |run.events| && j == i + 1 ==>
      Next(path, data, run.states[i], run.events[i], run.states[j])
  }

  function Last(run: Run): State
    requires run.states != []
  {
    run.states[|run.states| - 1]
  }

  function More(run: Run, e: Event, t: State): Run {
    Run(run.states + [t], run.events + [e])
  }

  lemma OneMore(path: Path, data: seq<byte>, files: Files, run: Run, e: Event, t: State)
    requires IsRun(path, data, files, run) && Next(path, data, Last(run), e, t)
    ensures IsRun(path, data, files, More(run, e, t)) && Last(More(run, e, t)) == t
  {
    hide Next;
  }

  lemma NoStep(path: Path, data: seq<byte>, files: Files)
    ensures IsRun(path, data, files, Run([Start(files)], []))
  {}

  // ── An empty file: only stalls, and never more than the limit allows ──

  /** No chunk can reset the count, and there are four calls to an attempt. */
  function Weight(s: State): nat {
    4 * s.stalls + match s.at
      case Entering => 0
      case Sizing => 1
      case Sending => if s.began then 3 else 2
      case Over(_) => 4
  }

  ghost predicate Sane(s: State, data: seq<byte>) {
    && (s.began && s.at == Sending ==> 0 <= s.offset <= |data|)
    && (if s.at.Over? then s.stalls <= PUSH_RETRIES + 1 else s.stalls <= PUSH_RETRIES)
  }

  lemma EmptyStep(path: Path, s: State, e: Event, t: State)
    requires Next(path, [], s, e, t) && Sane(s, [])
    ensures Sane(t, []) && Weight(t) > Weight(s)
  {
    hide BeginLeaves, ChunkLeaves, FinishLeaves;
  }

  lemma {:induction false} EmptyRunIsShort(path: Path, files: Files, run: Run)
    requires IsRun(path, [], files, run)
    ensures Sane(Last(run), []) && |run.events| <= Weight(Last(run)) <= 28
    decreases |run.events|
  {
    hide Next;
    var n := |run.events|;
    if n > 0 {
      var less := Run(run.states[..n], run.events[..n - 1]);
      assert IsRun(path, [], files, less);
      EmptyRunIsShort(path, files, less);
      EmptyStep(path, Last(less), run.events[n - 1], Last(run));
    }
  }

  // ── Any other file: finish replies can be lost for ever ──

  /** Where an attempt stands that has sent the first offset octets. */
  ghost predicate Sent(s: State, path: Path, data: seq<byte>, offset: int) {
    && s.at == Sending && s.began && 0 <= s.offset == offset <= |data|
    && path + ".tmp" in s.files && s.files[path + ".tmp"] == data[..offset]
  }

  ghost predicate FewStalls(run: Run) {
    forall i :: 0 <= i < |run.states| ==> run.states[i].stalls <= 1
  }

  /** Finish calls whose reply did not come. */
  ghost function LostReplies(events: seq<Event>): nat {
    if events == [] then 0
    else LostReplies(events[..|events| - 1]) + if events[|events| - 1] == Event(Call.Finish, Stall) then 1 else 0
  }

  lemma LostOneMore(events: seq<Event>, e: Event)
    ensures LostReplies(events + [e]) == LostReplies(events) + if e == Event(Call.Finish, Stall) then 1 else 0
  {
    assert (events + [e])[..|events|] == events;
  }

  lemma Append(path: Path, data: seq<byte>, files: Files, run: Run, e: Event, t: State) returns (more: Run)
    requires IsRun(path, data, files, run) && FewStalls(run) && Next(path, data, Last(run), e, t) && t.stalls <= 1
    ensures more == More(run, e, t) && IsRun(path, data, files, more) && FewStalls(more) && Last(more) == t
    ensures LostReplies(more.events) == LostReplies(run.events) + if e == Event(Call.Finish, Stall) then 1 else 0
  {
    hide Next;
    more := More(run, e, t);
    OneMore(path, data, files, run, e, t);
    LostOneMore(run.events, e);
  }

  lemma ChunkStep(path: Path, data: seq<byte>, s: State) returns (t: State)
    requires Sent(s, path, data, s.offset) && s.offset < |data|
    ensures Next(path, data, s, Event(Call.Chunk, Ack), t) && t.stalls == 0 && s.offset < t.offset
      && Sent(t, path, data, t.offset)
  {
    var tmp, chunk := path + ".tmp", NextChunk(data, s.offset);
    t := s.(files := Appended(s.files, tmp, chunk), offset := s.offset + |chunk|, stalls := 0);
    assert chunk[..|chunk|] == chunk;
    assert data[..s.offset] + chunk == data[..t.offset];
  }

  /** All the chunks the file needs, each acknowledged. */
  lemma {:induction false} SendAll(path: Path, data: seq<byte>, files: Files, run: Run) returns (more: Run)
    requires IsRun(path, data, files, run) && FewStalls(run) && Sent(Last(run), path, data, Last(run).offset)
    ensures IsRun(path, data, files, more) && FewStalls(more) && Sent(Last(more), path, data, |data|)
    ensures LostReplies(more.events) == LostReplies(run.events)
    ensures Last(run).offset < |data| || Last(run).stalls == 0 ==> Last(more).stalls == 0
    decreases |data| - Last(run).offset
  {
    hide Next, Sent;
    var s := Last(run);
    SentBounds(s, path, data, s.offset);
    if s.offset == |data| { return run; }
    var t := ChunkStep(path, data, s);
    SentBounds(t, path, data, t.offset);
    more := Append(path, data, files, run, Event(Call.Chunk, Ack), t);
    more := SendAll(path, data, files, more);
  }

  lemma SentBounds(s: State, path: Path, data: seq<byte>, offset: int)
    requires Sent(s, path, data, offset)
    ensures 0 <= offset <= |data| && s.offset == offset
  {}

  lemma BeginStep(path: Path, data: seq<byte>, s: State) returns (t: State)
    requires s.at == Sending && !s.began
    ensures Next(path, data, s, Event(Call.Begin, Ack), t) && t.stalls == s.stalls && Sent(t, path, data, 0)
      && t.offset == 0
  {
    t := s.(files := s.files[path + ".tmp" := []], began := true, offset := 0);
  }

  /** The file is in place and the push does not know it. */
  lemma LoseFinish(path: Path, data: seq<byte>, s: State) returns (t: State)
    requires Sent(s, path, data, |data|) && s.stalls == 0
    ensures Next(path, data, s, Event(Call.Finish, Stall), t) && t.stalls == 1 && Lost(t, path, data)
  {
    hide Fnv;
    var tmp := path + ".tmp";
    assert |tmp| > |path|;
    assert data[..|data|] == data;
    t := Caught(s.(files := Renamed(s.files, tmp, path)));
  }

  ghost predicate Lost(s: State, path: Path, data: seq<byte>) {
    s.at == Entering && s.began && path + ".tmp" !in s.files && path in s.files && s.files[path] == data
  }

  /** One attempt from its begin call to a lost finish reply. */
  lemma LoseOne(path: Path, data: seq<byte>, files: Files, run: Run) returns (more: Run)
    requires data != [] && IsRun(path, data, files, run) && FewStalls(run) && Last(run).at == Sending
      && !Last(run).began
    ensures IsRun(path, data, files, more) && FewStalls(more) && Lost(Last(more), path, data)
    ensures LostReplies(more.events) == LostReplies(run.events) + 1
  {
    hide Next, Sent, Lost, IsRun;
    RunNotEmpty(path, data, files, run);
    var t := BeginStep(path, data, Last(run));
    more := Append(path, data, files, run, Event(Call.Begin, Ack), t);
    more := SendAll(path, data, files, more);
    RunNotEmpty(path, data, files, more);
    t := LoseFinish(path, data, Last(more));
    more := Append(path, data, files, more, Event(Call.Finish, Stall), t);
  }

  lemma RunNotEmpty(path: Path, data: seq<byte>, files: Files, run: Run)
    requires IsRun(path, data, files, run)
    ensures run.states != [] && (FewStalls(run) ==> Last(run).stalls <= 1)
  {}

  /** Re-entering, finding no temporary file and starting over. */
  lemma StartOver(path: Path, data: seq<byte>, files: Files, run: Run) returns (more: Run)
    requires IsRun(path, data, files, run) && FewStalls(run) && Lost(Last(run), path, data)
    ensures IsRun(path, data, files, more) && FewStalls(more) && Last(more).at == Sending && !Last(more).began
    ensures LostReplies(more.events) == LostReplies(run.events)
  {
    hide IsRun, Next, FewStalls, LostReplies;
    RunNotEmpty(path, data, files, run);
    EnterIsNext(path, data, Last(run), Ack);
    var t := Entered(Last(run));
    more := Append(path, data, files, run, Event(Call.Enter, Ack), t);
    SizeIsNext(path, data, t, Ack);
    t := Sized(t, path, data);
    more := Append(path, data, files, more, Event(Call.Size, Ack), t);
  }

  /** For every file but an empty one and every n there is a run in which n finish
      replies are lost, each after the file was in place, and the count of stalls
      never passes one. */
  lemma {:induction false} LoseMany(path: Path, data: seq<byte>, files: Files, n: nat) returns (run: Run)
    requires data != []
    ensures IsRun(path, data, files, run) && FewStalls(run) && LostReplies(run.events) == n
    ensures if n == 0 then Last(run) == Start(files) else Lost(Last(run), path, data)
  {
    if n == 0 {
      NoStep(path, data, files);
      return Run([Start(files)], []);
    }
    run := LoseMany(path, data, files, n - 1);
    hide IsRun, Lost, FewStalls, LostReplies;
    if n > 1 { run := StartOver(path, data, files, run); }
    run := LoseOne(path, data, files, run);
  }

  lemma {:induction false} NoMoreLostThanCalls(events: seq<Event>)
    ensures LostReplies(events) <= |events|
  {
    if events != [] { NoMoreLostThanCalls(events[..|events| - 1]); }
  }

  /** No run is longer than this. */
  ghost predicate Bounds(path: Path, data: seq<byte>, bound: nat) {
    forall files: Files, run: Run :: IsRun(path, data, files, run) ==> |run.events| <= bound
  }

  /** The retry limit alone bounds a push if and only if the file is empty. */
  lemma RetriesBoundIff(path: Path, data: seq<byte>)
    ensures (exists bound: nat :: Bounds(path, data, bound)) <==> data == []
  {
    hide IsRun;
    if data == [] {
      forall files: Files, run: Run | IsRun(path, data, files, run) ensures |run.events| <= 28 {
        EmptyRunIsShort(path, files, run);
      }
      assert Bounds(path, data, 28);
    } else if bound: nat :| Bounds(path, data, bound) {
      var run := LoseMany(path, data, map[], bound + 1);
      NoMoreLostThanCalls(run.events);
      assert false;
    }
  }
}
