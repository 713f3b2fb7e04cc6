/** Scripted input on the virtual clock of the host harness. */
module HarnessScript {
  import opened Options
  import opened Bytes

  const EXIT_ASSERTION := 3

  /** Show stands for dump, log, open and a snapshot that agrees with the
      window; Check for expect and a snapshot compared with the window, together
      with what the comparison will say. */
  datatype Step =
    | Press(b: nat) | Release(b: nat) | Tap(b: nat, ms: nat) | Stick(x: real, y: real, ms: nat) | Wait(ms: nat)
    | Show(text: string) | Check(text: string, fails: bool) | Quit(code: int)

  datatype Action = Button(b: nat, down: bool) | SetStick(x: real, y: real) | Output(text: string) | Exit(code: int)

  /** An action and the milliseconds of script that must have passed by then. */
  datatype Planned = Planned(action: Action, notBefore: nat)

  function Ms(st: Step): nat {
    match st
    case Tap(_, ms) => ms
    case Stick(_, _, ms) => ms
    case Wait(ms) => ms
    case _ => 0
  }

  /** The steps that set the time to resume at. */
  function Timed(st: Step): nat {
    if st.Tap? || st.Stick? || st.Wait? then 1 else 0
  }

  /** What a step does as it starts, */
  function Start(st: Step): Option<Action> {
    match st
    case Press(b) => Some(Button(b, true))
    case Release(b) => Some(Button(b, false))
    case Tap(b, _) => Some(Button(b, true))
    case Stick(x, y, _) => Some(SetStick(x, y))
    case Wait(_) => None
    case Show(t) => Some(Output(t))
    case Check(t, _) => Some(Output(t))
    case Quit(code) => Some(Exit(code))
  }

  /** and what it does once its time is over. */
  function End(st: Step): Option<Action> {
    match st
    case Tap(b, _) => Some(Button(b, false))
    case Stick(_, _, ms) => if ms > 0 then Some(SetStick(0.0, 0.0)) else None
    case _ => None
  }

  function Listed(a: Option<Action>, t: nat): seq<Planned> {
    if a.Some? then [Planned(a.value, t)] else []
  }

  /** Steps that end the run, */
  predicate Ends(st: Step) {
    st.Quit? || (st.Check? && st.fails)
  }

  /** and what they still do. */
  function Last(st: Step, t: nat): (last: seq<Planned>)
    requires Ends(st)
    ensures last != [] && last[|last| - 1].action.Exit?
  {
    if st.Quit? then [Planned(Exit(st.code), t)]
    else [Planned(Output(st.text), t), Planned(Exit(EXIT_ASSERTION), t)]
  }

  function ActionsOf(plan: seq<Planned>): seq<Action> {
    if plan == [] then [] else ActionsOf(plan[..|plan| - 1]) + [plan[|plan| - 1].action]
  }

  /** Everything a script does from time t on, whenever its ticks come. */
  function Plan(steps: seq<Step>, t: nat): seq<Planned> {
    if steps == [] then []
    else
      var st := steps[0];
      if Ends(st) then Last(st, t)
      else Listed(Start(st), t) + Listed(End(st), t + Ms(st)) + Plan(steps[1..], t + Ms(st))
  }

  function Duration(steps: seq<Step>, k: nat): nat
    requires k <= |steps|
  {
    if k == 0 then 0 else Duration(steps, k - 1) + Ms(steps[k - 1])
  }

  function TimedSteps(steps: seq<Step>, k: nat): nat
    requires k <= |steps|
  {
    if k == 0 then 0 else TimedSteps(steps, k - 1) + Timed(steps[k - 1])
  }

  /** load: the total is a 32-bit number. */
  method TotalMs(steps: seq<Step>) returns (total: nat)
    ensures total == Duration(steps, |steps|) % TWO_32
  {
    total := 0;
    var k := 0;
    while k < |steps|
      invariant k <= |steps| && total == Duration(steps, k) % TWO_32
    {
      if steps[k].Tap? || steps[k].Stick? || steps[k].Wait? {
        total := (total + steps[k].ms) % TWO_32;
      }
      k := k + 1;
    }
  }

  /** The harness's time limit, in 32 bits as well. */
  function Limit(maxVirtualMs: nat, totalMs: nat): nat {
    if maxVirtualMs > 0 then maxVirtualMs else (totalMs + 30000) % TWO_32
  }

  /** The default limit leaves a script its half minute exactly when the sum fits;
      past that the limit is below the script's own length, and 0, which is no
      limit at all, when the sum comes out at a multiple of 2^32. */
  lemma DefaultLimit(d: nat)
    ensures var limit := Limit(0, d % TWO_32);
      limit == d + 30000 <==> d + 30000 < TWO_32
    ensures Limit(0, d % TWO_32) < d <==> d + 30000 >= TWO_32
    ensures Limit(0, d % TWO_32) == 0 <==> (d + 30000) % TWO_32 == 0
  {
    var m, q := d % TWO_32, d / TWO_32;
    assert d == q * TWO_32 + m;
    if m + 30000 < TWO_32 { Within32(m + 30000); } else { Within32(m + 30000 - TWO_32); Twice32(m + 30000); }
    Wraps32(m + 30000, q);
  }

  lemma Wraps32(v: nat, q: nat)
    ensures (q * TWO_32 + v) % TWO_32 == v % TWO_32
  {}

  lemma Twice32(v: nat)
    requires TWO_32 <= v < 2 * TWO_32
    ensures v % TWO_32 == v - TWO_32
  {}

  datatype Outcome = Waiting | Done | Exited(code: int)

  /** What has been done, when, and what is still to come. */
  ghost predicate OnPlan(steps: seq<Step>, pc: nat, end: Option<Action>, done: seq<Planned>, times: seq<nat>,
    origin: nat, now: nat)
    requires pc <= |steps|
  {
    var t := Duration(steps, pc);
    && Plan(steps, 0) == done + (Listed(end, t) + Plan(steps[pc..], t))
    && InTime(done, times, origin, now)
  }

  /** No action came early or out of order. */
  ghost predicate InTime(done: seq<Planned>, times: seq<nat>, origin: nat, now: nat) {
    && |times| == |done|
    && (forall i :: 0 <= i < |times| ==> origin + 1000 * done[i].notBefore <= times[i] <= now)
    && (forall i, j :: 0 <= i < j < |times| ==> times[i] <= times[j])
  }

  lemma LaterInTime(done: seq<Planned>, times: seq<nat>, origin: nat, now: nat, later: nat)
    requires InTime(done, times, origin, now) && now <= later
    ensures InTime(done, times, origin, later)
  {}

  lemma OneInTime(done: seq<Planned>, times: seq<nat>, origin: nat, now: nat, p: Planned)
    requires InTime(done, times, origin, now) && origin + 1000 * p.notBefore <= now
    ensures InTime(done + [p], times + [now], origin, now)
  {}

  /** The pending action is carried out. */
  lemma EndsStep(steps: seq<Step>, pc: nat, a: Action, done: seq<Planned>, times: seq<nat>, origin: nat, now: nat)
    requires pc <= |steps| && OnPlan(steps, pc, Some(a), done, times, origin, now)
    requires origin + 1000 * Duration(steps, pc) <= now
    ensures OnPlan(steps, pc, None, done + [Planned(a, Duration(steps, pc))], times + [now], origin, now)
  {
    hide Plan, InTime;
    var t := Duration(steps, pc);
    OneInTime(done, times, origin, now, Planned(a, t));
    assert done + ([Planned(a, t)] + Plan(steps[pc..], t)) == (done + [Planned(a, t)]) + ([] + Plan(steps[pc..], t));
  }

  lemma PlanStep(steps: seq<Step>, pc: nat, t: nat)
    requires pc < |steps| && !Ends(steps[pc])
    ensures var st := steps[pc];
      Plan(steps[pc..], t) == Listed(Start(st), t) + Listed(End(st), t + Ms(st)) + Plan(steps[pc + 1..], t + Ms(st))
  {
    hide Start, End, Listed, Ms;
    assert steps[pc..][1..] == steps[pc + 1..];
  }

  lemma Regroup<T>(whole: seq<T>, done: seq<T>, a: seq<T>, b: seq<T>, rest: seq<T>)
    requires whole == done + (a + b + rest)
    ensures whole == (done + a) + (b + rest)
  {}

  lemma ListedInTime(a: Option<Action>, t: nat, done: seq<Planned>, times: seq<nat>, origin: nat, now: nat)
    requires InTime(done, times, origin, now) && origin + 1000 * t <= now
    ensures InTime(done + Listed(a, t), times + (if a.Some? then [now] else []), origin, now)
  {
    hide InTime;
    if a.Some? {
      OneInTime(done, times, origin, now, Planned(a.value, t));
    } else {
      assert done + [] == done && times + [] == times;
    }
  }

  lemma NothingPending(steps: seq<Step>, pc: nat, done: seq<Planned>, times: seq<nat>, origin: nat, now: nat)
    requires pc <= |steps| && OnPlan(steps, pc, None, done, times, origin, now)
    ensures Plan(steps, 0) == done + Plan(steps[pc..], Duration(steps, pc)) && InTime(done, times, origin, now)
  {
    hide Plan, InTime, Duration;
    assert [] + Plan(steps[pc..], Duration(steps, pc)) == Plan(steps[pc..], Duration(steps, pc));
  }

  lemma NowOnPlan(steps: seq<Step>, pc: nat, end: Option<Action>, done: seq<Planned>, times: seq<nat>, origin: nat,
                  now: nat)
    requires pc <= |steps| && InTime(done, times, origin, now)
    requires var t := Duration(steps, pc); Plan(steps, 0) == done + (Listed(end, t) + Plan(steps[pc..], t))
    ensures OnPlan(steps, pc, end, done, times, origin, now)
  {}

  /** A step starts; its ending, if any, is now pending. */
  lemma StartsStep(steps: seq<Step>, pc: nat, done: seq<Planned>, times: seq<nat>, origin: nat, now: nat)
    requires pc < |steps| && OnPlan(steps, pc, None, done, times, origin, now)
    requires origin + 1000 * Duration(steps, pc) <= now
    requires !Ends(steps[pc])
    ensures var a := Start(steps[pc]); var t := Duration(steps, pc);
      OnPlan(steps, pc + 1, End(steps[pc]), done + Listed(a, t), times + (if a.Some? then [now] else []), origin, now)
  {
    hide InTime, Start, End, Listed, Plan, Ms, Duration, Latest, OnPlan;
    var t, st := Duration(steps, pc), steps[pc];
    OneStep(steps, pc, origin, 0);
    var t2 := Duration(steps, pc + 1);
    NothingPending(steps, pc, done, times, origin, now);
    PlanStep(steps, pc, t);
    Regroup(Plan(steps, 0), done, Listed(Start(st), t), Listed(End(st), t2), Plan(steps[pc + 1..], t2));
    ListedInTime(Start(st), t, done, times, origin, now);
    NowOnPlan(steps, pc + 1, End(st), done + Listed(Start(st), t), times + (if Start(st).Some? then [now] else []),
              origin, now);
  }

  lemma {:induction false} MoreInTime(done: seq<Planned>, times: seq<nat>, more: seq<Planned>, origin: nat, now: nat)
    requires InTime(done, times, origin, now)
      && forall i :: 0 <= i < |more| ==> origin + 1000 * more[i].notBefore <= now
    ensures InTime(done + more, times + Ats(|more|, now), origin, now)
  {
    hide InTime;
    if more == [] {
      assert done + more == done && times + Ats(0, now) == times;
    } else {
      var k := |more| - 1;
      MoreInTime(done, times, more[..k], origin, now);
      OneInTime(done + more[..k], times + Ats(k, now), origin, now, more[k]);
      assert done + more == done + more[..k] + [more[k]];
      assert times + Ats(k + 1, now) == times + Ats(k, now) + [now];
    }
  }

  function Ats(n: nat, now: nat): seq<nat> { seq(n, _ => now) }

  lemma LastOfPlan(steps: seq<Step>, pc: nat, t: nat)
    requires pc < |steps| && Ends(steps[pc])
    ensures Plan(steps[pc..], t) == Last(steps[pc], t)
    ensures forall i :: 0 <= i < |Last(steps[pc], t)| ==> Last(steps[pc], t)[i].notBefore == t
  {}

  /** Nothing follows an exit. */
  lemma ExitsStep(steps: seq<Step>, pc: nat, done: seq<Planned>, times: seq<nat>, origin: nat, now: nat)
    requires pc < |steps| && OnPlan(steps, pc, None, done, times, origin, now)
    requires origin + 1000 * Duration(steps, pc) <= now
    requires Ends(steps[pc])
    ensures var last := Last(steps[pc], Duration(steps, pc));
      done + last == Plan(steps, 0) && InTime(done + last, times + Ats(|last|, now), origin, now)
  {
    hide InTime, Plan, Last, Listed, Duration, Ats, OnPlan;
    var t := Duration(steps, pc);
    LastOfPlan(steps, pc, t);
    NothingPending(steps, pc, done, times, origin, now);
    MoreInTime(done, times, Last(steps[pc], t), origin, now);
  }

  lemma ActsOne(plan: seq<Planned>, p: Planned)
    ensures ActionsOf(plan + [p]) == ActionsOf(plan) + [p.action]
  {
    assert (plan + [p])[..|plan|] == plan;
  }

  lemma ActsListed(plan: seq<Planned>, a: Option<Action>, t: nat)
    ensures ActionsOf(plan + Listed(a, t)) == ActionsOf(plan) + Just(a)
  {
    if a.Some? {
      ActsOne(plan, Planned(a.value, t));
    } else {
      assert plan + [] == plan && ActionsOf(plan) + [] == ActionsOf(plan);
    }
  }

  lemma ActsLast(plan: seq<Planned>, st: Step, t: nat)
    requires Ends(st)
    ensures ActionsOf(plan + Last(st, t)) == ActionsOf(plan) + LastActions(st)
  {
    var last := Last(st, t);
    ActsOne(plan, last[0]);
    if st.Check? {
      ActsOne(plan + [last[0]], last[1]);
      assert plan + last == (plan + [last[0]]) + [last[1]];
    }
  }

  function Just(a: Option<Action>): seq<Action> { if a.Some? then [a.value] else [] }

  function LastActions(st: Step): seq<Action>
    requires Ends(st)
  {
    if st.Quit? then [Exit(st.code)] else [Output(st.text), Exit(EXIT_ASSERTION)]
  }

  // ── What the actions do to the buttons and the stick ──

  /** Whether button b is held after these actions; the last one about it counts. */
  function Held(acts: seq<Action>, b: nat): bool {
    if acts == [] then false
    else
      var k := |acts| - 1;
      if acts[k].Button? && acts[k].b == b then acts[k].down else Held(acts[..k], b)
  }

  /** Where the stick is. */
  function StickAt(acts: seq<Action>): (real, real) {
    if acts == [] then (0.0, 0.0)
    else
      var k := |acts| - 1;
      if acts[k].SetStick? then (acts[k].x, acts[k].y) else StickAt(acts[..k])
  }

  lemma OneAction(acts: seq<Action>, a: Action, b: nat)
    ensures Held(acts + [a], b) == if a.Button? && a.b == b then a.down else Held(acts, b)
    ensures StickAt(acts + [a]) == if a.SetStick? then (a.x, a.y) else StickAt(acts)
  {
    assert (acts + [a])[..|acts|] == acts;
  }

  lemma MaybeAction(acts: seq<Action>, a: Option<Action>, b: nat)
    ensures Held(acts + Just(a), b) ==
      if a.Some? && a.value.Button? && a.value.b == b then a.value.down else Held(acts, b)
    ensures StickAt(acts + Just(a)) ==
      if a.Some? && a.value.SetStick? then (a.value.x, a.value.y) else StickAt(acts)
  {
    if a.Some? { OneAction(acts, a.value, b); } else { assert acts + [] == acts; }
  }

  /** What a step is for: a press holds its button and a release lets it go; a tap
      holds it while it lasts; the stick is where a stick step puts it while that
      lasts, and stays there if it lasts 0 ms. Nothing else moves. */
  lemma StepsMean(acts: seq<Action>, st: Step, b: nat)
    requires !Ends(st)
    ensures var during, after := acts + Just(Start(st)), acts + Just(Start(st)) + Just(End(st));
      && Held(during, b) == (if ((st.Press? || st.Tap?) && st.b == b) then true
                             else if st.Release? && st.b == b then false else Held(acts, b))
      && Held(after, b) == (if st.Tap? && st.b == b then false else Held(during, b))
      && StickAt(during) == (if st.Stick? then (st.x, st.y) else StickAt(acts))
      && StickAt(after) == (if st.Stick? && st.ms > 0 then (0.0, 0.0) else StickAt(during))
  {
    MaybeAction(acts, Start(st), b);
    MaybeAction(acts + Just(Start(st)), End(st), b);
    hide Held, StickAt;
  }

  class Script {
    const steps: seq<Step>
    var pc: nat
    var started: bool
    var resumeAt: nat
    var endAction: Option<Action>
    /** The calls made so far. */
    var acts: seq<Action>
    ghost var origin: nat
    ghost var lastTick: nat
    ghost var done: seq<Planned>
    ghost var times: seq<nat>
    ghost var exited: bool
    /** An upper bound on the time between two ticks. */
    ghost const gap: nat

    ghost predicate Valid()
      reads this
    {
      && pc <= |steps| && acts == ActionsOf(done)
      && (if started then
            && origin <= lastTick
            && origin + 1000 * Duration(steps, pc) <= resumeAt <= Latest(steps, pc, origin, gap)
            && OnPlan(steps, pc, endAction, done, times, origin, lastTick)
          else pc == 0 && endAction == None && done == [] && times == [])
    }

    constructor (steps: seq<Step>, ghost gap: nat)
      ensures Valid() && this.steps == steps && this.gap == gap && !started && !exited
    {
      this.steps, this.gap := steps, gap;
      pc, started, resumeAt, endAction, acts := 0, false, 0, None, [];
      origin, lastTick, done, times, exited := 0, 0, [], [], false;
    }

    method Finish(nowUs: nat)
      requires Valid() && started && lastTick == nowUs && resumeAt <= nowUs && endAction.Some?
      modifies this`endAction, this`acts, this`done, this`times
      ensures Valid() && endAction == None && old(done) <= done && old(times) <= times
    {
      hide Plan, InTime, Duration, TimedSteps, OnPlan, Latest, ActionsOf;
      EndsStep(steps, pc, endAction.value, done, times, origin, nowUs);
      ActsOne(done, Planned(endAction.value, Duration(steps, pc)));
      done, times := done + [Planned(endAction.value, Duration(steps, pc))], times + [nowUs];
      acts := acts + [endAction.value];
      endAction := None;
    }

    /** The switch over the kinds of step. */
    method Perform(st: Step, nowUs: nat) returns (code: Option<int>)
      requires endAction == None
      modifies this`acts, this`endAction, this`resumeAt
      ensures code == None <==> !Ends(st)
      ensures code == None ==> acts == old(acts) + Just(Start(st)) && endAction == End(st)
      ensures code == None ==> resumeAt == if Timed(st) == 1 then nowUs + 1000 * Ms(st) else old(resumeAt)
      ensures code.Some? ==> acts == old(acts) + LastActions(st) && acts != [] && acts[|acts| - 1] == Exit(code.value)
    {
      code := None;
      match st {
        case Press(b) => acts := acts + [Button(b, true)];
        case Release(b) => acts := acts + [Button(b, false)];
        case Tap(b, ms) =>
          acts := acts + [Button(b, true)];
          endAction := Some(Button(b, false));
          resumeAt := nowUs + ms * 1000;
        case Stick(x, y, ms) =>
          acts := acts + [SetStick(x, y)];
          if ms != 0 { endAction := Some(SetStick(0.0, 0.0)); }
          resumeAt := nowUs + ms * 1000;
        case Wait(ms) =>
          resumeAt := nowUs + ms * 1000;
        case Show(text) => acts := acts + [Output(text)];
        case Check(text, fails) =>
          acts := acts + [Output(text)];
          if fails {
            acts := acts + [Exit(EXIT_ASSERTION)];
            code := Some(EXIT_ASSERTION);
          }
        case Quit(exit) =>
          acts := acts + [Exit(exit)];
          code := Some(exit);
      }
    }

    /** The next step starts, or ends the run. */
    method Next(nowUs: nat) returns (code: Option<int>)
      requires Valid() && started && lastTick == nowUs && resumeAt <= nowUs && endAction == None && !exited
      requires pc < |steps| && nowUs <= Latest(steps, pc, origin, gap) + gap
      modifies this`pc, this`endAction, this`acts, this`resumeAt, this`done, this`times, this`exited
      ensures old(done) <= done && old(times) <= times && (exited <==> code.Some?)
      ensures code == None ==> Valid() && pc == old(pc) + 1 && nowUs <= Latest(steps, pc, origin, gap) + gap
      ensures code.Some? ==> done == Plan(steps, 0) && InTime(done, times, origin, nowUs) && acts == ActionsOf(done)
      ensures code.Some? ==> acts != [] && acts[|acts| - 1] == Exit(code.value)
    {
      hide Plan, InTime, Duration, TimedSteps, OnPlan, Latest, Start, End, Listed, ActionsOf, Just, Last, LastActions,
        Ats;
      var st := steps[pc];
      ghost var t := Duration(steps, pc);
      if Ends(st) {
        ExitsStep(steps, pc, done, times, origin, nowUs);
        ActsLast(done, st, t);
        done, times := done + Last(st, t), times + Ats(|Last(st, t)|, nowUs);
        exited := true;
      } else {
        StartsStep(steps, pc, done, times, origin, nowUs);
        OneStep(steps, pc, origin, gap);
        ActsListed(done, Start(st), t);
        done, times := done + Listed(Start(st), t), times + if Start(st).Some? then [nowUs] else [];
      }
      pc := pc + 1;
      code := Perform(st, nowUs);
    }

    /** However the ticks fall, the actions are the plan's, in order, none before
        its time; true means the plan is complete. Until then the script waits
        for a time that is at most a gap late for each timed step. */
    method Tick(nowUs: nat) returns (outcome: Outcome)
      requires Valid() && !exited
      requires started ==> lastTick <= nowUs <= lastTick + gap && lastTick < resumeAt
      modifies this
      ensures started && lastTick == nowUs && origin == if old(started) then old(origin) else nowUs
      ensures old(done) <= done && old(times) <= times
      ensures outcome.Exited? <==> exited
      ensures outcome == Waiting ==> Valid() && nowUs < resumeAt
      ensures outcome == Done ==> pc == |steps| && done == Plan(steps, 0) && InTime(done, times, origin, nowUs)
      ensures acts == ActionsOf(done)
      ensures outcome == Done ==> resumeAt <= nowUs && origin + 1000 * Duration(steps, |steps|) <= nowUs
      ensures outcome.Exited? ==> done == Plan(steps, 0) && InTime(done, times, origin, nowUs)
      ensures outcome.Exited? ==> acts != [] && acts[|acts| - 1] == Exit(outcome.code)
    {
      hide Plan, InTime, Duration, TimedSteps, OnPlan, Start, End, Latest, ActionsOf;
      if !started {
        started := true;
        resumeAt := nowUs;
        origin := nowUs;
        AtStart(steps, nowUs, gap);
      } else {
        LaterOnPlan(steps, pc, endAction, done, times, origin, lastTick, nowUs);
      }
      lastTick := nowUs;
      while true
        invariant Valid() && started && lastTick == nowUs && !exited
        invariant origin == if old(started) then old(origin) else nowUs
        invariant old(done) <= done && old(times) <= times
        invariant nowUs <= Latest(steps, pc, origin, gap) + gap
        decreases |steps| - pc, endAction.Some?
      {
        if nowUs < resumeAt {
          return Waiting;
        }
        if endAction.Some? {
          Finish(nowUs);
        }
        if pc >= |steps| {
          AllDone(steps, done, times, origin, nowUs);
          return Done;
        }
        var code := Next(nowUs);
        if code.Some? {
          return Exited(code.value);
        }
      }
    }
  }

  /** The latest time step pc's predecessor can be due to end. */
  ghost function Latest(steps: seq<Step>, pc: nat, origin: nat, gap: nat): nat
    requires pc <= |steps|
  {
    origin + 1000 * Duration(steps, pc) + gap * TimedSteps(steps, pc)
  }

  lemma AtStart(steps: seq<Step>, now: nat, gap: nat)
    ensures Latest(steps, 0, now, gap) == now && Duration(steps, 0) == 0
    ensures OnPlan(steps, 0, None, [], [], now, now)
  {
    assert steps[0..] == steps;
  }

  lemma LaterOnPlan(steps: seq<Step>, pc: nat, end: Option<Action>, done: seq<Planned>, times: seq<nat>, origin: nat,
    now: nat, later: nat)
    requires pc <= |steps| && OnPlan(steps, pc, end, done, times, origin, now) && now <= later
    ensures OnPlan(steps, pc, end, done, times, origin, later)
  {
    hide Plan, InTime;
    LaterInTime(done, times, origin, now, later);
  }

  lemma AllDone(steps: seq<Step>, done: seq<Planned>, times: seq<nat>, origin: nat, now: nat)
    requires OnPlan(steps, |steps|, None, done, times, origin, now)
    ensures done == Plan(steps, 0) && InTime(done, times, origin, now)
  {
    assert steps[|steps|..] == [];
    assert done + ([] + []) == done;
  }

  lemma OneStep(steps: seq<Step>, pc: nat, origin: nat, gap: nat)
    requires pc < |steps|
    ensures Duration(steps, pc + 1) == Duration(steps, pc) + Ms(steps[pc])
    ensures Latest(steps, pc + 1, origin, gap) ==
      Latest(steps, pc, origin, gap) + 1000 * Ms(steps[pc]) + (if Timed(steps[pc]) == 1 then gap else 0)
  {
    assert gap * (TimedSteps(steps, pc) + Timed(steps[pc])) == gap * TimedSteps(steps, pc) + gap * Timed(steps[pc]);
  }

  // ── The harness around it ──

  function Length(steps: seq<Step>): nat { Duration(steps, |steps|) }

  /** Room for being a gap late at boot and for each timed step. */
  ghost predicate Roomy(steps: seq<Step>, gap: nat) {
    Length(steps) + 30000 < TWO_32 && gap * TimedSteps(steps, |steps|) + gap <= 30000 * 1000
  }

  lemma {:induction false} DurationGrows(steps: seq<Step>, k: nat)
    requires k <= |steps|
    ensures Duration(steps, k) <= Length(steps) && TimedSteps(steps, k) <= TimedSteps(steps, |steps|)
    decreases |steps| - k
  {
    if k < |steps| { DurationGrows(steps, k + 1); }
  }

  /** While a roomy script waits, its time is not up. */
  lemma NotUp(steps: seq<Step>, pc: nat, origin: nat, gap: nat, boot: nat, now: nat)
    requires pc <= |steps| && Roomy(steps, gap) && origin <= boot + gap && boot <= now < Latest(steps, pc, origin, gap)
    ensures now - boot <= 1000 * (Length(steps) + 30000)
  {
    DurationGrows(steps, pc);
    assert gap * TimedSteps(steps, pc) <= gap * TimedSteps(steps, |steps|) by {
      Grows(gap, TimedSteps(steps, pc), TimedSteps(steps, |steps|));
    }
  }

  lemma Grows(g: nat, a: nat, b: nat)
    requires a <= b
    ensures g * a <= g * b
  {}

  datatype Verdict = Going | Finished | Stopped(code: int) | TimedOut

  /** The yield point of a headless scripted run. */
  class Harness {
    const script: Script
    const limitMs: nat
    const bootUs: nat

    ghost predicate Running()
      reads this, script
    {
      && script.Valid() && !script.exited
      && (script.started ==>
          && bootUs <= script.origin <= bootUs + script.gap
          && script.lastTick < script.resumeAt
          && (limitMs > 0 ==> script.lastTick - bootUs <= limitMs * 1000))
    }

    constructor (steps: seq<Step>, maxVirtualMs: nat, ghost gap: nat, bootUs: nat)
      ensures Running() && script.steps == steps && script.gap == gap && !script.started && fresh(script)
      ensures limitMs == Limit(maxVirtualMs, Length(steps) % TWO_32) && this.bootUs == bootUs
    {
      var total := TotalMs(steps);
      script := new Script(steps, gap);
      limitMs := Limit(maxVirtualMs, total);
      this.bootUs := bootUs;
    }

    /** With the default limit a roomy script never times out. With a limit below
        its length, as when that does not leave room in 32 bits, a script can
        only finish if a single gap jumps over the whole stretch between the two;
        but if the limit has come out as 0 nothing is timed at all. */
    method Yield(nowUs: nat) returns (verdict: Verdict)
      requires Running()
      requires if script.started then script.lastTick <= nowUs <= script.lastTick + script.gap
        else bootUs <= nowUs <= bootUs + script.gap
      modifies script
      ensures verdict == Going ==> Running()
      ensures verdict == TimedOut <==>
        !script.exited && nowUs < script.resumeAt && limitMs > 0 && nowUs - bootUs > limitMs * 1000
      ensures limitMs == 0 ==> verdict != TimedOut
      ensures verdict == TimedOut && limitMs == Length(script.steps) + 30000 ==> !Roomy(script.steps, script.gap)
      ensures verdict == Finished ==> script.acts == ActionsOf(Plan(script.steps, 0))
      ensures verdict == Finished && limitMs > 0 ==> 1000 * Length(script.steps) <= 1000 * limitMs + script.gap
      ensures verdict.Stopped? ==> script.acts == ActionsOf(Plan(script.steps, 0)) && script.exited
    {
      hide Plan, InTime, Duration, TimedSteps, OnPlan, Latest, Roomy;
      var outcome := script.Tick(nowUs);
      if outcome == Done {
        return Finished;
      }
      if outcome.Exited? {
        return Stopped(outcome.code);
      }
      if limitMs != 0 && nowUs - bootUs > limitMs * 1000 {
        if limitMs == Length(script.steps) + 30000 && Roomy(script.steps, script.gap) {
          NotUp(script.steps, script.pc, script.origin, script.gap, bootUs, nowUs);
        }
        return TimedOut;
      }
      return Going;
    }
  }
}
