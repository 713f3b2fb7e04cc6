/** The asynchronous WiFi connect: UI calls on one core, a worker task on the
    other, and the fields they share, one write at a time. */
module WifiConnect {
  import opened Options

  datatype Phase = Idle | Starting | Attempting | Authenticating | Connected | Failed

  predicate Terminal(p: Phase) { p == Connected || p == Failed }

  predicate Quiet(p: Phase) { p == Idle || Terminal(p) }

  datatype Kind = Slot | Sweep

  /** Where a worker is: Missed and Got are after a poll, Settled once the final
      phase is written. */
  datatype At = Begun | Locked | Primed | Trying(sawAuth: bool) | Missed | Got | Settled | Released

  /** left counts the candidates not tried yet, total all of them. */
  datatype Worker = Worker(kind: Kind, at: At, left: nat, total: nat)

  /** Where the UI is in its current call. */
  datatype Ui = Ready | Dismissing | Entering(kind: Kind) | Flagged(kind: Kind) | Announced(kind: Kind) | Unflagged

  datatype State = State(phase: Phase, inFlight: bool, locks: int, workers: seq<Worker>, ui: Ui)

  const INIT := State(Idle, false, 0, [], Ready)

  datatype Move = SlotEmpty | Acquire | AlreadyOn | Prime(switching: bool) | Try | SeeAuth | Succeed | HardFail
    | TimeOut | Settle | Release

  datatype Event =
    | DismissRead | DismissWrite | ConnectEnter(kind: Kind) | ConnectDrop | ConnectRefuse | ConnectFlag
    | ConnectAnnounce
    | TaskCreated(candidates: nat) | TaskFailed | TaskFailedPhase
    | WorkerMoves(i: nat, move: Move) | WorkerExits(i: nat)

  datatype Moved = Moved(w: Worker, phase: Phase, locks: int)

  /** One write of runSlotConnect, runSavedNetworksConnect or pollStaAssociation. */
  function Step(w: Worker, phase: Phase, locks: int, move: Move): Option<Moved> {
    match (w.at, move)
    case (Begun, SlotEmpty) => if w.kind == Slot then Some(Moved(w.(at := Released), Failed, locks)) else None
    case (Begun, Acquire) => Some(Moved(w.(at := Locked), phase, locks + 1))
    case (Locked, AlreadyOn) => if w.kind == Slot then Some(Moved(w.(at := Settled), Connected, locks)) else None
    case (Locked, Prime(switching)) =>
      if switching && w.kind == Sweep then None
        else Some(Moved(w.(at := Primed), if switching then Starting else phase, locks))
    case (Primed, Try) =>
      if w.left > 0 then Some(Moved(w.(at := Trying(false), left := w.left - 1), Attempting, locks)) else None
    case (Primed, TimeOut) => if w.left == 0 then Some(Moved(w.(at := Missed), phase, locks)) else None
    case (Trying(false), SeeAuth) => Some(Moved(w.(at := Trying(true)), Authenticating, locks))
    case (Trying(_), Succeed) => Some(Moved(w.(at := Got), phase, locks))
    case (Trying(true), HardFail) => Some(Moved(w.(at := Missed), Failed, locks))
    case (Trying(_), TimeOut) => Some(Moved(w.(at := Missed), phase, locks))
    case (Missed, Try) =>
      if w.left > 0 then Some(Moved(w.(at := Trying(false), left := w.left - 1), Attempting, locks)) else None
    case (Missed, Settle) => if w.left == 0 then Some(Moved(w.(at := Settled), Failed, locks)) else None
    case (Got, Settle) => Some(Moved(w.(at := Settled), Connected, locks))
    case (Settled, Release) => Some(Moved(w.(at := Released), phase, locks - 1))
    case _ => None
  }

  /** What an event does, if it can happen. */
  function Apply(s: State, e: Event): Option<State> {
    match e
    case DismissRead => if s.ui == Ready && Terminal(s.phase) then Some(s.(ui := Dismissing)) else None
    case DismissWrite => if s.ui == Dismissing then Some(s.(phase := Idle, ui := Ready)) else None
    case ConnectEnter(kind) => if s.ui == Ready && !s.inFlight then Some(s.(ui := Entering(kind))) else None
    case ConnectDrop => if s.ui.Entering? && s.ui.kind == Slot then Some(s.(ui := Ready)) else None
    case ConnectRefuse => if s.ui.Entering? then Some(s.(phase := Failed, ui := Ready)) else None
    case ConnectFlag => if s.ui.Entering? then Some(s.(inFlight := true, ui := Flagged(s.ui.kind))) else None
    case ConnectAnnounce => if s.ui.Flagged? then Some(s.(phase := Starting, ui := Announced(s.ui.kind))) else None
    case TaskCreated(n) =>
      if s.ui.Announced? && (s.ui.kind == Slot ==> n == 1)
      then Some(s.(workers := s.workers + [Worker(s.ui.kind, Begun, n, n)], ui := Ready)) else None
    case TaskFailed => if s.ui.Announced? then Some(s.(inFlight := false, ui := Unflagged)) else None
    case TaskFailedPhase => if s.ui == Unflagged then Some(s.(phase := Failed, ui := Ready)) else None
    case WorkerMoves(i, move) =>
      if i >= |s.workers| then None
      else
        var m := Step(s.workers[i], s.phase, s.locks, move);
        if m.None? then None
        else Some(s.(workers := s.workers[i := m.value.w], phase := m.value.phase, locks := m.value.locks))
    case WorkerExits(i) =>
      if i < |s.workers| && s.workers[i].at == Released
      then Some(s.(workers := s.workers[..i] + s.workers[i + 1..], inFlight := false)) else None
  }

  /** Every interleaving of UI calls and worker writes. */
  function Run(events: seq<Event>): Option<State> {
    if events == [] then Some(INIT)
    else
      var s := Run(events[..|events| - 1]);
      if s.None? then None else Apply(s.value, events[|events| - 1])
  }

  // ── What always holds ──

  predicate HoldsLock(w: Worker) { !w.at.Begun? && !w.at.Released? }

  /** There is still something to wait for. */
  predicate Pending(w: Worker) {
    w.at.Begun? || w.at.Locked? || w.at.Primed? || w.at.Trying? || w.at.Got? || (w.at.Missed? && w.left > 0)
  }

  ghost predicate WorkerOk(w: Worker, phase: Phase, ui: Ui) {
    && w.left <= w.total && (w.kind == Slot ==> w.total == 1)
    && (w.at.Trying? || w.at.Got? ==> w.left < w.total)
    && (w.at.Missed? && w.total > 0 ==> w.left < w.total)
    && (w.at.Settled? || w.at.Released? ==> Quiet(phase))
    && (ui == Ready || ui == Dismissing)
    && (w.at.Begun? || w.at.Locked? || w.at.Primed? ==> w.left == w.total)
    && (Pending(w) && (w.left == w.total || w.total <= 1 || (w.left == w.total - 1 && !w.at.Missed?)) ==>
      !Quiet(phase) && ui == Ready)
    && (ui == Dismissing && w.total <= 1 ==> Quiet(phase))
  }

  ghost predicate Inv(s: State) {
    && |s.workers| <= 1
    && (s.inFlight <==> |s.workers| == 1 || s.ui.Flagged? || s.ui.Announced?)
    && s.locks == (if |s.workers| == 1 && HoldsLock(s.workers[0]) then 1 else 0)
    && (|s.workers| == 1 ==> WorkerOk(s.workers[0], s.phase, s.ui))
    && (!s.inFlight && s.ui != Unflagged ==> Quiet(s.phase))
    && (s.ui.Announced? ==> s.phase == Starting)
  }

  lemma MoveKeeps(w: Worker, phase: Phase, locks: int, move: Move, ui: Ui)
    requires WorkerOk(w, phase, ui) && Step(w, phase, locks, move).Some?
    ensures var m := Step(w, phase, locks, move).value; WorkerOk(m.w, m.phase, ui)
  {
    match w.at {
      case Begun =>
      case Locked =>
      case Primed =>
      case Trying(sawAuth) =>
      case Missed =>
      case Got =>
      case Settled =>
      case Released =>
    }
  }

  /** The lock is taken and given back exactly as a worker starts and stops holding it. */
  lemma LockKeeps(w: Worker, phase: Phase, locks: int, move: Move)
    requires Step(w, phase, locks, move).Some?
    ensures var m := Step(w, phase, locks, move).value;
      m.locks - locks == (if HoldsLock(m.w) then 1 else 0) - (if HoldsLock(w) then 1 else 0)
  {}

  lemma WorkerUi(w: Worker, phase: Phase, ui: Ui)
    requires WorkerOk(w, phase, ui)
    ensures ui == Ready || ui == Dismissing
  {}

  lemma WorkerKeeps(s: State, i: nat, move: Move)
    requires Inv(s) && Apply(s, WorkerMoves(i, move)).Some?
    ensures Inv(Apply(s, WorkerMoves(i, move)).value)
  {
    hide Step, WorkerOk, HoldsLock, Quiet;
    WorkerUi(s.workers[0], s.phase, s.ui);
    LockKeeps(s.workers[0], s.phase, s.locks, move);
    MoveKeeps(s.workers[0], s.phase, s.locks, move, s.ui);
    assert i == 0;
    assert Apply(s, WorkerMoves(i, move)).value.workers == [Step(s.workers[0], s.phase, s.locks, move).value.w];
  }

  lemma StepKeeps(s: State, e: Event)
    requires Inv(s) && Apply(s, e).Some?
    ensures Inv(Apply(s, e).value)
  {
    if e.WorkerMoves? {
      WorkerKeeps(s, e.i, e.move);
    }
  }

  lemma {:induction false} RunKeeps(events: seq<Event>)
    requires Run(events).Some?
    ensures Inv(Run(events).value)
  {
    hide Inv, Apply;
    if events == [] {
      InitOk();
    } else {
      var before := events[..|events| - 1];
      RunKeeps(before);
      StepKeeps(Run(before).value, events[|events| - 1]);
    }
  }

  lemma InitOk()
    ensures Inv(INIT)
  {}

  /** In every interleaving there is at most one worker, the power lock is held by
      the worker that took it and no one else, and whenever the UI is between
      calls with nothing in flight the phase is idle, connected or failed. */
  lemma AlwaysSafe(events: seq<Event>)
    requires Run(events).Some?
    ensures var s := Run(events).value;
      |s.workers| <= 1 && 0 <= s.locks <= 1 && (s.workers == [] ==> s.locks == 0)
      && (s.ui == Ready && !s.inFlight ==> Quiet(s.phase) && s.workers == [])
  {
    RunKeeps(events);
  }

  // ── Every worker comes to an end ──

  function Rank(w: Worker): nat {
    6 * w.left + match w.at
      case Begun => 8
      case Locked => 7
      case Primed => 6
      case Trying(sawAuth) => if sawAuth then 4 else 5
      case Missed => 3
      case Got => 3
      case Settled => 2
      case Released => 1
  }

  /** Whatever the UI does meanwhile, a worker with n candidates makes at most
      6 n + 7 writes before it exits, */
  lemma WorkersEnd(w: Worker, phase: Phase, locks: int, move: Move)
    requires Step(w, phase, locks, move).Some?
    ensures Rank(Step(w, phase, locks, move).value.w) < Rank(w)
  {}

  /** and it can always make the next one. */
  lemma WorkersGoOn(w: Worker, phase: Phase, locks: int)
    ensures w.at != Released <==> exists m :: Step(w, phase, locks, m).Some?
  {
    if w.at != Released {
      var next :=
        match w.at
        case Begun => Acquire
        case Locked => Prime(false)
        case Primed => if w.left > 0 then Try else TimeOut
        case Trying(_) => TimeOut
        case Missed => if w.left > 0 then Try else Settle
        case Got => Settle
        case Settled => Release;
      assert Step(w, phase, locks, next).Some?;
    }
  }

  // ── What dismissing can hide ──

  /** A dismissal is under way while there is still a connection to wait for. */
  ghost predicate Hides(s: State, n: nat) {
    s.ui == Dismissing && |s.workers| == 1 && Pending(s.workers[0]) && s.workers[0].total == n
  }

  ghost predicate CanHide(n: nat) {
    exists events :: Run(events).Some? && Hides(Run(events).value, n)
  }

  lemma RunOne(events: seq<Event>, e: Event, s: State, t: State)
    requires Run(events) == Some(s) && Apply(s, e) == Some(t)
    ensures Run(events + [e]) == Some(t)
  {
    assert (events + [e])[..|events|] == events;
  }

  lemma RunMove(events: seq<Event>, s: State, w: Worker, move: Move, m: Moved)
    requires Run(events) == Some(s) && s.workers == [w] && Step(w, s.phase, s.locks, move) == Some(m)
    ensures Run(events + [WorkerMoves(0, move)]) == Some(s.(workers := [m.w], phase := m.phase, locks := m.locks))
  {
    hide Run, Step;
    assert [w][0 := m.w] == [m.w];
    RunOne(events, WorkerMoves(0, move), s, s.(workers := [m.w], phase := m.phase, locks := m.locks));
  }

  lemma SweepStarted(n: nat) returns (events: seq<Event>)
    ensures Run(events) == Some(State(Starting, true, 0, [Worker(Sweep, Begun, n, n)], Ready))
  {
    hide Run;
    InitRun();
    events := [ConnectEnter(Sweep)];
    RunOne([], ConnectEnter(Sweep), INIT, State(Idle, false, 0, [], Entering(Sweep)));
    assert [] + events == events;
    RunOne(events, ConnectFlag, State(Idle, false, 0, [], Entering(Sweep)), State(Idle, true, 0, [], Flagged(Sweep)));
    events := events + [ConnectFlag];
    RunOne(events, ConnectAnnounce, State(Idle, true, 0, [], Flagged(Sweep)),
      State(Starting, true, 0, [], Announced(Sweep)));
    events := events + [ConnectAnnounce];
    var w := Worker(Sweep, Begun, n, n);
    assert [] + [w] == [w];
    RunOne(events, TaskCreated(n), State(Starting, true, 0, [], Announced(Sweep)),
      State(Starting, true, 0, [w], Ready));
    events := events + [TaskCreated(n)];
  }

  /** A sweep whose first candidate was refused outright is between candidates
      with the phase at failed; a dismissal that begins then overwrites the next
      attempt. */
  lemma SweepHidden(n: nat) returns (events: seq<Event>)
    requires n >= 2
    ensures Run(events) == Some(State(Attempting, true, 1, [Worker(Sweep, Trying(false), n - 2, n)], Dismissing))
  {
    hide Run;
    events := SweepStarted(n);
    var w := Worker(Sweep, Begun, n, n);
    var v := w.(left := n - 1);
    RunMove(events, State(Starting, true, 0, [w], Ready), w, Acquire, Moved(w.(at := Locked), Starting, 1));
    events := events + [WorkerMoves(0, Acquire)];
    RunMove(events, State(Starting, true, 1, [w.(at := Locked)], Ready), w.(at := Locked), Prime(false),
      Moved(w.(at := Primed), Starting, 1));
    events := events + [WorkerMoves(0, Prime(false))];
    RunMove(events, State(Starting, true, 1, [w.(at := Primed)], Ready), w.(at := Primed), Try,
      Moved(v.(at := Trying(false)), Attempting, 1));
    events := events + [WorkerMoves(0, Try)];
    RunMove(events, State(Attempting, true, 1, [v.(at := Trying(false))], Ready), v.(at := Trying(false)), SeeAuth,
      Moved(v.(at := Trying(true)), Authenticating, 1));
    events := events + [WorkerMoves(0, SeeAuth)];
    RunMove(events, State(Authenticating, true, 1, [v.(at := Trying(true))], Ready), v.(at := Trying(true)), HardFail,
      Moved(v.(at := Missed), Failed, 1));
    events := events + [WorkerMoves(0, HardFail)];
    var missed := State(Failed, true, 1, [v.(at := Missed)], Ready);
    RunOne(events, DismissRead, missed, missed.(ui := Dismissing));
    events := events + [DismissRead];
    RunMove(events, missed.(ui := Dismissing), v.(at := Missed), Try,
      Moved(Worker(Sweep, Trying(false), n - 2, n), Attempting, 1));
    events := events + [WorkerMoves(0, Try)];
  }

  lemma InitRun()
    ensures Run([]) == Some(INIT)
  {}

  /** The promise that dismissing mid-handshake does nothing holds for a connect
      with at most one candidate, and for no sweep over more. */
  lemma DismissPromise(n: nat)
    ensures CanHide(n) <==> n >= 2
  {
    hide Run, Apply;
    if CanHide(n) {
      var events :| Run(events).Some? && Hides(Run(events).value, n);
      RunKeeps(events);
    }
    if n >= 2 {
      var events := SweepHidden(n);
      assert Hides(Run(events).value, n);
    }
  }

  /** With at most one candidate a dismissal never takes an active phase away. */
  lemma DismissalFindsQuiet(events: seq<Event>)
    requires Run(events).Some? && Run(events).value.ui == Dismissing
    requires forall w :: w in Run(events).value.workers ==> w.total <= 1
    ensures Quiet(Run(events).value.phase)
  {
    hide Run, Apply, Quiet;
    RunKeeps(events);
  }

  // ── Waiting for the access point ──

  datatype WlStatus = WlIdle | WlNoSsid | WlScanDone | WlConnected | WlConnectFailed | WlLost | WlDisconnected
    | WlNoShield

  /** One look at the radio: its status, whether it has an address, and whether
      the last kick is more than three seconds old. */
  datatype Look = Look(status: WlStatus, hasIp: bool, kickDue: bool)

  predicate Up(l: Look) { l.status == WlConnected || l.hasIp }

  predicate Refused(l: Look) { !Up(l) && (l.status == WlConnectFailed || l.status == WlNoSsid) }

  predicate Negotiating(l: Look) { l.status !in {WlIdle, WlDisconnected, WlNoShield} }

  /** The first look that decides, or the time limit. */
  ghost predicate Decides(looks: seq<Look>, k: nat) {
    k <= |looks| && (k < |looks| ==> Up(looks[k]) || Refused(looks[k]))
    && forall j :: 0 <= j < k ==> !Up(looks[j]) && !Refused(looks[j])
  }

  ghost predicate Saw(looks: seq<Look>, k: nat)
    requires k <= |looks|
  {
    exists j :: 0 <= j < k && Negotiating(looks[j])
  }

  class Association {
    var phase: Phase
    var kicks: nat

    constructor (phase: Phase)
      ensures this.phase == phase && kicks == 0
    {
      this.phase, kicks := phase, 0;
    }

    /** Over the looks that fit in the time limit: true exactly when the radio
        comes up before it refuses; the phase says how far it got, and the radio
        is kicked at most twice, only while it has shown nothing but idle. */
    method PollStaAssociation(looks: seq<Look>) returns (ok: bool, ghost decided: nat, ghost kickedAt: seq<nat>)
      requires kicks == 0
      modifies this
      ensures Decides(looks, decided)
      ensures ok <==> decided < |looks| && Up(looks[decided])
      ensures phase == if decided < |looks| && Refused(looks[decided]) then Failed
        else if Saw(looks, decided) then Authenticating else old(phase)
      ensures |kickedAt| == kicks <= 2
      ensures forall k :: k in kickedAt ==>
        k < decided && looks[k].kickDue && forall j :: 0 <= j <= k ==> looks[j].status in {WlIdle, WlNoShield}
    {
      var sawAuth, sawNonIdle := false, false;
      kickedAt := [];
      var i := 0;
      while i < |looks|
        invariant i <= |looks| && forall j :: 0 <= j < i ==> !Up(looks[j]) && !Refused(looks[j])
        invariant sawAuth <==> Saw(looks, i)
        invariant phase == if sawAuth then Authenticating else old(phase)
        invariant !sawNonIdle <==> forall j :: 0 <= j < i ==> looks[j].status in {WlIdle, WlNoShield}
        invariant |kickedAt| == kicks <= 2
        invariant forall k :: k in kickedAt ==>
          k < i && looks[k].kickDue && forall j :: 0 <= j <= k ==> looks[j].status in {WlIdle, WlNoShield}
      {
        var l := looks[i];
        if l.status == WlConnected || l.hasIp {
          return true, i, kickedAt;
        }
        if !sawAuth && l.status != WlIdle && l.status != WlDisconnected && l.status != WlNoShield {
          sawAuth := true;
          phase := Authenticating;
        }
        if !sawNonIdle && l.status != WlIdle && l.status != WlNoShield {
          sawNonIdle := true;
        }
        if l.status == WlConnectFailed || l.status == WlNoSsid {
          phase := Failed;
          return false, i, kickedAt;
        }
        if !sawNonIdle && kicks < 2 && l.kickDue {
          kicks := kicks + 1;
          kickedAt := kickedAt + [i];
        }
        assert Negotiating(looks[i]) ==> Saw(looks, i + 1);
        i := i + 1;
      }
      return false, i, kickedAt;
    }
  }
}
