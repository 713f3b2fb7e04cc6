/** The fan-out flash workflow: one child per badge, gathered as they finish. */
module FlashBatch {
  import opened Options

  const ONLY_ENV := "replay2026"

  // ── Names for the children ──

  predicate IdChar(c: char) {
    'A' <= c <= 'Z' || 'a' <= c <= 'z' || '0' <= c <= '9' || c in "_.-"
  }

  /** Every run of other characters becomes one dash. */
  function Dashed(value: string, inRun: bool): string {
    if value == "" then ""
    else if IdChar(value[0]) then [value[0]] + Dashed(value[1..], false)
    else (if inRun then "" else "-") + Dashed(value[1..], true)
  }

  function StripLeft(s: string): string {
    if s != "" && s[0] == '-' then StripLeft(s[1..]) else s
  }

  function StripRight(s: string): string {
    if s != "" && s[|s| - 1] == '-' then StripRight(s[..|s| - 1]) else s
  }

  function SafeIdPart(value: string, fallback: string): string {
    var s := StripRight(StripLeft(Dashed(value, false)));
    var t := if s == "" then fallback else s;
    if |t| > 80 then t[..80] else t
  }

  function Digit(d: nat): char
    requires d < 10
  {
    "0123456789"[d]
  }

  function Decimal(n: nat): (s: string)
    ensures s != ""
  {
    if n < 10 then [Digit(n)] else Decimal(n / 10) + [Digit(n % 10)]
  }

  lemma {:induction false} DecimalIsInjective(m: nat, n: nat)
    requires Decimal(m) == Decimal(n)
    ensures m == n
  {
    var a, b := Decimal(m), Decimal(n);
    LastDigit(m);
    LastDigit(n);
    if m >= 10 && n >= 10 {
      assert a[..|a| - 1] == Decimal(m / 10) && b[..|b| - 1] == Decimal(n / 10);
      DecimalIsInjective(m / 10, n / 10);
    }
  }

  lemma LastDigit(n: nat)
    ensures var s := Decimal(n); s[|s| - 1] == Digit(n % 10) && (|s| == 1 <==> n < 10)
  {}

  /** The candidates in the order they are tried: the name, name-2, name-3, ... */
  function Candidate(name: string, k: nat): string {
    if k < 2 then name else name + "-" + Decimal(k)
  }

  lemma CandidatesDiffer(name: string, j: nat, k: nat)
    requires 1 <= j < k
    ensures Candidate(name, j) != Candidate(name, k)
  {
    if Candidate(name, j) == Candidate(name, k) {
      var a, b := Candidate(name, j), Candidate(name, k);
      assert b[|name|] == '-' && b[|name| + 1..] == Decimal(k);
      assert j >= 2 ==> a[|name| + 1..] == Decimal(j);
      DecimalIsInjective(j, k);
    }
  }

  ghost function Tried(name: string, k: nat): set<string> {
    set j | 1 <= j < k :: Candidate(name, j)
  }

  lemma {:induction false} TriedSize(name: string, k: nat)
    requires k >= 1
    ensures |Tried(name, k)| == k - 1
  {
    if k > 1 {
      TriedSize(name, k - 1);
      assert Tried(name, k) == Tried(name, k - 1) + {Candidate(name, k - 1)};
      forall j | 1 <= j < k - 1 ensures Candidate(name, j) != Candidate(name, k - 1) {
        CandidatesDiffer(name, j, k - 1);
      }
    }
  }

  lemma {:induction false} Fewer<T>(a: set<T>, b: set<T>)
    requires a <= b
    ensures |a| <= |b|
    decreases a
  {
    if x :| x in a { Fewer(a - {x}, b - {x}); }
  }

  /** Candidates all differ, so only so many of them can be taken. */
  lemma TriedWithin(name: string, seen: set<string>, k: nat)
    requires k >= 1 && forall j :: 1 <= j < k ==> Candidate(name, j) in seen
    ensures k <= |seen| + 1
  {
    hide Candidate;
    TriedSize(name, k);
    assert Tried(name, k) <= seen;
    Fewer(Tried(name, k), seen);
  }

  /** The first candidate from the k-th on that nobody has. */
  function FirstFree(name: string, seen: set<string>, k: nat): (id: string)
    requires k >= 1 && forall j :: 1 <= j < k ==> Candidate(name, j) in seen
    ensures id !in seen
    ensures exists m :: m >= k && id == Candidate(name, m) && forall j :: 1 <= j < m ==> Candidate(name, j) in seen
    decreases |seen| + 1 - k
  {
    TriedWithin(name, seen, k);
    if Candidate(name, k) !in seen then Candidate(name, k)
    else
      TriedWithin(name, seen, k + 1);
      FirstFree(name, seen, k + 1)
  }

  /** The first candidate nobody has; the search ends because they all differ. */
  method FreshId(name: string, seen: set<string>) returns (id: string)
    ensures id == FirstFree(name, seen, 1)
  {
    hide Candidate;
    id := name;
    var duplicate := 2;
    FirstCandidate(name);
    while id in seen
      invariant duplicate >= 2 && id == Candidate(name, duplicate - 1)
      invariant forall j :: 1 <= j < duplicate - 1 ==> Candidate(name, j) in seen
      invariant FirstFree(name, seen, 1) == FirstFree(name, seen, duplicate - 1)
      decreases |seen| + 2 - duplicate
    {
      TriedWithin(name, seen, duplicate);
      LaterCandidate(name, duplicate);
      id := name + "-" + Decimal(duplicate);
      duplicate := duplicate + 1;
    }
  }

  lemma FirstCandidate(name: string)
    ensures Candidate(name, 1) == name
  {}

  lemma LaterCandidate(name: string, k: nat)
    requires k >= 2
    ensures Candidate(name, k) == name + "-" + Decimal(k)
  {}

  // ── The batch ──

  datatype Device = Device(usbId: string, serial: string, location: string, port: string)

  /** What a child comes to: its result, or an exception. */
  datatype Outcome = Returned(success: bool, port: string) | Raised(error: string)

  /** An activity's result, or an exception that outlived its retries. */
  datatype Reply<T> = Got(value: T) | Threw

  datatype Result = Result(success: bool, port: string, error: string)

  /** What the parent makes of an outcome. */
  function Received(o: Outcome): Result {
    match o
    case Returned(success, port) => Result(success, port, "")
    case Raised(error) => Result(false, "", error)
  }

  datatype Phase = Starting | Preparing | Detecting | Flashing | Running | Done | Failed | Partial

  datatype Child = Child(name: string, id: string, usbId: string, currentPort: string, phase: Phase)

  datatype Answer = Answer(success: bool, results: seq<Result>)

  function Identity(d: Device, i: nat): string {
    if d.usbId != "" then d.usbId
    else if d.serial != "" then d.serial
    else if d.location != "" then d.location
    else if d.port != "" then d.port
    else "badge-" + Decimal(i + 1)
  }

  function Label(i: nat): string {
    "Badge " + (if i + 1 < 10 then "0" else "") + Decimal(i + 1)
  }

  function Members(s: seq<string>): set<string> { set x | x in s }

  predicate Distinct(s: seq<string>) {
    forall i, j :: 0 <= i < j < |s| ==> s[i] != s[j]
  }

  function BaseName(batchId: string, d: Device, i: nat): string {
    "badge-flash-" + batchId + "-" + SafeIdPart(Identity(d, i), "unknown")
  }

  /** The names the children of these devices get. */
  function Names(devices: seq<Device>, batchId: string): (ids: seq<string>)
    ensures |ids| == |devices| && Distinct(ids)
  {
    if devices == [] then []
    else
      var i := |devices| - 1;
      var before := Names(devices[..i], batchId);
      before + [FirstFree(BaseName(batchId, devices[i], i), Members(before), 1)]
  }

  lemma NamesButLast(devices: seq<Device>, batchId: string)
    requires devices != []
    ensures var i := |devices| - 1; Names(devices, batchId)[..i] == Names(devices[..i], batchId)
  {
    hide FirstFree, BaseName, Members, Distinct;
  }

  /** Names given earlier do not depend on the devices still to come. */
  lemma {:induction false} NamesBegin(devices: seq<Device>, batchId: string, k: nat)
    requires k <= |devices|
    ensures Names(devices, batchId)[..k] == Names(devices[..k], batchId)
  {
    hide Names;
    if k < |devices| {
      var i := |devices| - 1;
      NamesBegin(devices[..i], batchId, k);
      assert devices[..i][..k] == devices[..k];
      NamesButLast(devices, batchId);
      assert Names(devices, batchId)[..i][..k] == Names(devices, batchId)[..k];
    } else {
      assert devices[..k] == devices;
    }
  }

  lemma NextName(devices: seq<Device>, batchId: string, i: nat)
    requires i < |devices|
    ensures var before := Names(devices[..i], batchId);
      Names(devices[..i + 1], batchId) ==
        before + [FirstFree(BaseName(batchId, devices[i], i), Members(before), 1)]
  {
    assert devices[..i + 1][..i] == devices[..i];
  }

  /** Some of the active children, at least one, in the order they were started. */
  method WaitFirstCompleted(active: seq<string>) returns (done: seq<string>)
    requires active != [] && Distinct(active)
    ensures done != [] && Distinct(done) && forall id :: id in done ==> id in active
  {
    done := [];
    var i := 0;
    while i < |active|
      invariant i <= |active| && Distinct(done)
      invariant forall id :: id in done ==> id in active[..i]
    {
      var completed: bool := *;
      assert active[i] !in active[..i];
      if completed { done := done + [active[i]]; }
      assert forall id :: id in active[..i] ==> id in active[..i + 1];
      i := i + 1;
    }
    if done == [] {
      var k :| 0 <= k < |active|;
      done := [active[k]];
    }
  }

  function Without(ids: seq<string>, id: string): seq<string> {
    if ids == [] then [] else (if ids[0] == id then [] else [ids[0]]) + Without(ids[1..], id)
  }

  lemma DistinctMore(x: string, s: seq<string>)
    requires Distinct(s) && x !in s
    ensures Distinct([x] + s)
  {}

  lemma {:induction false} WithoutIs(ids: seq<string>, id: string)
    ensures forall x :: x in Without(ids, id) <==> x in ids && x != id
    ensures |Without(ids, id)| <= |ids| && (id in ids ==> |Without(ids, id)| < |ids|)
    ensures Distinct(ids) ==> Distinct(Without(ids, id))
  {
    if ids != [] {
      WithoutIs(ids[1..], id);
      assert ids == [ids[0]] + ids[1..];
      if Distinct(ids) {
        assert ids[0] !in ids[1..];
        DistinctMore(ids[0], Without(ids[1..], id));
      }
    }
  }

  /** Child i belongs to device i. */
  ghost predicate Labelled(children: seq<Child>, devices: seq<Device>) {
    |children| == |devices|
    && forall i :: 0 <= i < |children| ==> children[i].name == Label(i) && children[i].usbId == devices[i].usbId
  }

  ghost function Ids(children: seq<Child>): seq<string> {
    seq(|children|, i requires 0 <= i < |children| => children[i].id)
  }

  ghost function Successes(ids: seq<string>, outcomes: string -> Outcome): nat {
    if ids == [] then 0
    else Successes(ids[..|ids| - 1], outcomes) + if Received(outcomes(ids[|ids| - 1])).success then 1 else 0
  }

  /** Halfway through gathering: every child is either still active or has been
      awaited once and its result filed under its name. */
  ghost predicate Gathered(ids: seq<string>, active: seq<string>, awaited: seq<string>, results: map<string, Result>,
      passed: nat, failed: nat, outcomes: string -> Outcome)
  {
    && Distinct(active) && Distinct(awaited)
    && (forall id :: id in ids <==> id in active || id in awaited)
    && (forall id :: id in active ==> id !in awaited)
    && (forall id :: id in results <==> id in awaited)
    && (forall id :: id in results ==> results[id] == Received(outcomes(id)))
    && passed == Successes(awaited, outcomes) && passed + failed == |awaited|
  }

  lemma GatherOne(ids: seq<string>, active: seq<string>, awaited: seq<string>, results: map<string, Result>,
      passed: nat, failed: nat, outcomes: string -> Outcome, id: string)
    requires Gathered(ids, active, awaited, results, passed, failed, outcomes) && id in active
    ensures var r := Received(outcomes(id));
      Gathered(ids, Without(active, id), awaited + [id], results[id := r],
        if r.success then passed + 1 else passed, if r.success then failed else failed + 1, outcomes)
  {
    hide Without, Successes;
    WithoutIs(active, id);
    OneMoreSuccess(awaited, outcomes, id);
    var more := awaited + [id];
    assert forall x :: x in more <==> x in awaited || x == id;
  }

  lemma OneMoreSuccess(awaited: seq<string>, outcomes: string -> Outcome, id: string)
    ensures Successes(awaited + [id], outcomes) ==
      Successes(awaited, outcomes) + if Received(outcomes(id)).success then 1 else 0
  {
    assert (awaited + [id])[..|awaited|] == awaited;
  }

  lemma {:induction false} DistinctSize(s: seq<string>)
    requires Distinct(s)
    ensures |Members(s)| == |s|
  {
    if s != [] {
      var n := |s| - 1;
      DistinctSize(s[..n]);
      assert Members(s) == Members(s[..n]) + {s[n]};
    } else {
      assert Members(s) == {};
    }
  }

  function Ended(success: bool): Phase { if success then Done else Failed }

  ghost function PhaseOf(id: string, awaited: seq<string>, outcomes: string -> Outcome): Phase {
    if id in awaited then Ended(Received(outcomes(id)).success) else Running
  }

  /** A child once a result has come in under some name. */
  function Told(c: Child, id: string, r: Result): Child {
    if c.id == id then c.(phase := Ended(r.success), currentPort := r.port) else c
  }

  /** What is known of the children while results come in. */
  ghost predicate Marked(children: seq<Child>, ids: seq<string>, awaited: seq<string>, outcomes: string -> Outcome) {
    Ids(children) == ids
    && forall i :: 0 <= i < |children| ==> children[i].phase == PhaseOf(children[i].id, awaited, outcomes)
  }

  /** The service would not start a child under one of these names. */
  ghost predicate SomeRefused(ids: seq<string>, refused: string -> bool) {
    exists id :: id in ids && refused(id)
  }

  class Batch {
    var phase: Phase
    var devices: seq<Device>
    var children: seq<Child>
    var passed: nat
    var failed: nat
    /** What each child will come to, whenever that is. */
    const outcomes: string -> Outcome
    var started: seq<string>
    var awaited: seq<string>

    constructor (outcomes: string -> Outcome)
      ensures this.outcomes == outcomes && phase == Starting
      ensures devices == [] && children == [] && passed == 0 && failed == 0 && started == [] && awaited == []
    {
      this.outcomes := outcomes;
      phase, devices, children, passed, failed := Starting, [], [], 0, 0;
      started, awaited := [], [];
    }

    /** One child per device, each under a name of its own; a name the service
        refuses raises an exception. */
    method StartChildren(batchId: string, refused: string -> bool) returns (active: seq<string>, ok: bool)
      requires children == [] && started == []
      modifies this`children, this`started
      ensures started == active && Distinct(started) && |children| <= |devices|
      ensures ok <==> !SomeRefused(Names(devices, batchId), refused)
      ensures started <= Names(devices, batchId) && forall id :: id in started ==> !refused(id)
      ensures !ok ==> |children| == |started| + 1 && refused(Names(devices, batchId)[|started|])
      ensures ok ==> started == Names(devices, batchId) == Ids(children)
      ensures ok ==> Labelled(children, devices) && forall i :: 0 <= i < |children| ==> children[i].phase == Running
    {
      hide SafeIdPart, Decimal, Candidate, FirstFree, BaseName, Names;
      var seen: set<string> := {};
      active := [];
      assert devices[..0] == [];
      NamesBegin(devices, batchId, 0);
      var i := 0;
      while i < |devices|
        invariant i <= |devices| && |children| == i && started == active == Ids(children) && Distinct(started)
        invariant started == Names(devices[..i], batchId) && seen == Members(started)
        invariant forall id :: id in started ==> !refused(id)
        invariant Labelled(children, devices[..i]) && forall j :: 0 <= j < i ==> children[j].phase == Running
      {
        var d := devices[i];
        var id := FreshId(BaseName(batchId, d, i), seen);
        NextName(devices, batchId, i);
        NamesBegin(devices, batchId, i + 1);
        assert Names(devices, batchId)[..i + 1][i] == id;
        seen := seen + {id};
        var child := Child(Label(i), id, d.usbId, d.port, Starting);
        ghost var before := children;
        children := children + [child];
        if refused(id) {
          return active, false;
        }
        children := children[i := child.(phase := Running)];
        started := started + [id];
        active := active + [id];
        assert Ids(children) == Ids(before) + [id];
        i := i + 1;
      }
      assert devices[..i] == devices;
      return active, true;
    }

    /** The child with this name is marked; there is only one. */
    method Mark(id: string, r: Result)
      requires Distinct(Ids(children))
      modifies this`children
      ensures |children| == old(|children|)
      ensures forall k :: 0 <= k < |children| ==> children[k] == Told(old(children[k]), id, r)
    {
      ghost var ids := Ids(children);
      var k := 0;
      while k < |children|
        invariant k <= |children| && children == old(children)
        invariant forall j :: 0 <= j < k ==> children[j].id != id
      {
        if children[k].id == id {
          assert forall j :: k < j < |children| ==> ids[k] != ids[j] == children[j].id;
          children := children[k := children[k].(phase := Ended(r.success), currentPort := r.port)];
          return;
        }
        k := k + 1;
      }
    }

    /** Takes results as children finish, whatever the order. */
    method Gather(ids: seq<string>) returns (results: map<string, Result>)
      requires Distinct(ids) && Marked(children, ids, [], outcomes) && Labelled(children, devices) && awaited == []
        && passed == 0 && failed == 0
      modifies this`children, this`awaited, this`passed, this`failed
      ensures Gathered(ids, [], awaited, results, passed, failed, outcomes) && Marked(children, ids, awaited, outcomes)
      ensures Labelled(children, devices)
    {
      hide Gathered, Marked, Successes, Received, Label, Without;
      results := map[];
      var active := ids;
      GatherNone(ids, outcomes);
      while active != []
        invariant Gathered(ids, active, awaited, results, passed, failed, outcomes)
          && Marked(children, ids, awaited, outcomes)
        invariant Labelled(children, devices)
        decreases |active|
      {
        GatheredFacts(ids, active, awaited, results, passed, failed, outcomes);
        ghost var size := |active|;
        var done := WaitFirstCompleted(active);
        var k := 0;
        while k < |done|
          invariant k <= |done| && Gathered(ids, active, awaited, results, passed, failed, outcomes)
            && Marked(children, ids, awaited, outcomes)
          invariant Labelled(children, devices)
          invariant forall j :: k <= j < |done| ==> done[j] in active
          invariant if k == 0 then |active| == size else |active| < size
        {
          var id := done[k];
          ghost var before := children;
          WithoutIs(active, id);
          GatherOne(ids, active, awaited, results, passed, failed, outcomes, id);
          MarkedFacts(children, ids, awaited, outcomes);
          active := Without(active, id);
          var r := Received(outcomes(id));
          Mark(id, r);
          MarkOne(before, children, ids, awaited, outcomes, id);
          if r.success { passed := passed + 1; } else { failed := failed + 1; }
          results := results[id := r];
          awaited := awaited + [id];
          k := k + 1;
        }
      }
    }

    /** run: whatever the order in which the children finish, each is awaited
        once, the counts add up, the results are the devices' in their order, and
        the batch succeeds exactly when every child does. No child is started for
        a wrong environment, failed preparation, no badges or a wrong number of
        them, nor when preparing or detecting throws. An exception leaves the
        workflow exactly then, with the phase it was in, or when the service
        refuses a child. */
    method Run(env: string, batchName: string, factoryImage: bool, prepared: Reply<bool>, detected: Reply<seq<Device>>,
               expectedCount: int, refused: string -> bool) returns (answer: Option<Answer>)
      requires phase == Starting && devices == [] && children == [] && passed == 0 && failed == 0 && started == []
        && awaited == []
      modifies this
      ensures var ready := env == ONLY_ENV && (factoryImage || prepared == Got(true));
        var thrown := env == ONLY_ENV && ((!factoryImage && prepared == Threw) || (ready && detected == Threw));
        var ids := if detected.Got? then Names(detected.value, SafeIdPart(batchName, "batch")) else [];
        var go := ready && detected.Got? && detected.value != []
          && (expectedCount <= 0 || |detected.value| == expectedCount);
        && (thrown ==>
          answer == None && started == [] && children == [] && phase == if ready then Detecting else Preparing)
        && (!go && !thrown ==> answer == Some(Answer(false, [])) && started == [] && children == [] && phase == Failed)
        && (go ==> (answer == None <==> SomeRefused(ids, refused)))
        && (go && answer == None ==> awaited == [] && phase == Flashing)
        && (go && answer.Some? ==> Complete(detected.value, ids, answer.value))
    {
      hide Gathered, Marked, Distinct, SafeIdPart, Names, Received, Successes, Filed, Counted, Labelled, Says;
      if env != ONLY_ENV {
        phase := Failed;
        return Some(Answer(false, []));
      }
      phase := Preparing;
      if !factoryImage {
        if prepared == Threw {
          return None;
        }
        if !prepared.value {
          phase := Failed;
          return Some(Answer(false, []));
        }
      }
      phase := Detecting;
      if detected == Threw {
        return None;
      }
      if detected.value == [] {
        phase := Failed;
        return Some(Answer(false, []));
      }
      devices := detected.value;
      if expectedCount > 0 && |devices| != expectedCount {
        phase := Failed;
        return Some(Answer(false, []));
      }
      phase := Flashing;
      var active, ok := StartChildren(SafeIdPart(batchName, "batch"), refused);
      if !ok {
        return None;
      }
      AllRunning(children, active, outcomes);
      var byChild := Gather(active);
      var results, allOk := Collect(active, byChild);
      SaysSo(children, Answer(allOk, results), awaited, passed, failed, outcomes);
      phase := if allOk then Done else Partial;
      return Some(Answer(allOk, results));
    }

    method Collect(ghost ids: seq<string>, byChild: map<string, Result>) returns (results: seq<Result>, allOk: bool)
      requires Distinct(ids) && Gathered(ids, [], awaited, byChild, passed, failed, outcomes)
        && Marked(children, ids, awaited, outcomes)
      ensures Ids(children) == ids && Filed(children, results, outcomes)
        && Counted(ids, awaited, passed, failed, outcomes)
      ensures allOk <==> failed == 0
      ensures allOk <==> forall id :: id in Ids(children) ==> Received(outcomes(id)).success
    {
      hide Gathered, Marked, Successes, Received, Distinct;
      var was := children;
      GatheredAll(ids, awaited, byChild, passed, failed, outcomes);
      FiledFrom(was, ids, awaited, byChild, outcomes);
      results := seq(|was|, i requires 0 <= i < |was| && was[i].id in byChild => byChild[was[i].id]);
      allOk := forall r :: r in results ==> r.success;
      SuccessInResults(was, ids, results, outcomes);
    }

    /** What a finished batch has done. */
    ghost predicate Complete(detected: seq<Device>, ids: seq<string>, answer: Answer)
      reads this
    {
      && devices == detected && Labelled(children, detected)
      && started == Ids(children) == ids && Distinct(ids)
      && Counted(started, awaited, passed, failed, outcomes)
      && Filed(children, answer.results, outcomes)
      && (answer.success <==> failed == 0)
      && phase == (if answer.success then Done else Partial)
      && Says(children, answer, passed, outcomes)
    }
  }

  predicate Succeeded(o: Outcome) {
    o.Returned? && o.success
  }

  /** The answer in terms of the children's outcomes alone. */
  ghost predicate Says(children: seq<Child>, answer: Answer, passed: nat, outcomes: string -> Outcome) {
    && |answer.results| == |children|
    && (answer.success <==> forall i :: 0 <= i < |children| ==> Succeeded(outcomes(children[i].id)))
    && passed == |Winners(Ids(children), outcomes)|
    && forall i :: 0 <= i < |children| ==> SaysOf(children[i], answer.results[i], outcomes(children[i].id))
  }

  /** A child's row and result: its own result, or its exception as a failure. */
  ghost predicate SaysOf(c: Child, r: Result, o: Outcome) {
    && c.phase == (if Succeeded(o) then Done else Failed)
    && match o
       case Returned(success, port) => r == Result(success, port, "")
       case Raised(error) => r == Result(false, "", error)
  }

  ghost function Winners(ids: seq<string>, outcomes: string -> Outcome): set<string> {
    set id | id in ids && Succeeded(outcomes(id))
  }

  lemma OneMoreWinner(ids: seq<string>, outcomes: string -> Outcome, id: string)
    requires id !in ids
    ensures Winners(ids + [id], outcomes) == Winners(ids, outcomes) + if Succeeded(outcomes(id)) then {id} else {}
    ensures id !in Winners(ids, outcomes)
  {
    hide Succeeded;
  }

  lemma {:induction false} SuccessesCount(ids: seq<string>, outcomes: string -> Outcome)
    requires Distinct(ids)
    ensures Successes(ids, outcomes) == |Winners(ids, outcomes)|
  {
    if ids == [] {
      assert Winners([], outcomes) == {};
    } else {
      var n := |ids| - 1;
      assert ids[n] !in ids[..n] && ids == ids[..n] + [ids[n]];
      SuccessesCount(ids[..n], outcomes);
      OneMoreWinner(ids[..n], outcomes, ids[n]);
      hide Winners;
    }
  }

  lemma SaysSo(children: seq<Child>, answer: Answer, awaited: seq<string>, passed: nat, failed: nat,
               outcomes: string -> Outcome)
    requires Filed(children, answer.results, outcomes) && Counted(Ids(children), awaited, passed, failed, outcomes)
    requires answer.success <==> forall id :: id in Ids(children) ==> Received(outcomes(id)).success
    ensures Says(children, answer, passed, outcomes)
  {
    SuccessesCount(awaited, outcomes);
    hide Successes;
    assert Winners(Ids(children), outcomes) == Winners(awaited, outcomes);
    forall i | 0 <= i < |children| ensures children[i].id in Ids(children) {
      assert Ids(children)[i] == children[i].id;
    }
    assert forall o :: Received(o).success <==> Succeeded(o);
    assert forall id :: id in Ids(children) ==> exists i :: 0 <= i < |children| && children[i].id == id;
  }

  /** The names a device may go by, the best first. */
  function Identities(d: Device, i: nat): seq<string> {
    [d.usbId, d.serial, d.location, d.port, "badge-" + Decimal(i + 1)]
  }

  /** A device goes by the first of these that is not empty. */
  lemma IdentityIsFirst(d: Device, i: nat)
    ensures exists k ::
      0 <= k < 5 && Identity(d, i) == Identities(d, i)[k] != "" && forall j :: 0 <= j < k ==> Identities(d, i)[j] == ""
  {
    hide Decimal;
    var s := Identities(d, i);
    var k := if d.usbId != "" then 0 else if d.serial != "" then 1 else if d.location != "" then 2
      else if d.port != "" then 3 else 4;
    assert Identity(d, i) == s[k] != "" && forall j :: 0 <= j < k ==> s[j] == "";
  }

  // ── What a safe part of a name looks like ──

  ghost predicate AllSafe(s: string) {
    forall i :: 0 <= i < |s| ==> IdChar(s[i])
  }

  ghost predicate NoneSafe(s: string) {
    forall i :: 0 <= i < |s| ==> !IdChar(s[i])
  }

  /** Safe characters stay, and each run of others becomes one dash. */
  lemma {:induction false} DashedRun(safe: string, run: string, rest: string, inRun: bool)
    requires AllSafe(safe) && NoneSafe(run) && run != "" && (rest == "" || IdChar(rest[0])) && (inRun ==> safe != "")
    ensures Dashed(safe + run + rest, inRun) == safe + "-" + Dashed(rest, false)
    decreases |safe| + |run|
  {
    hide IdChar;
    var all := safe + run + rest;
    if safe != "" {
      assert all[1..] == safe[1..] + run + rest;
      DashedRun(safe[1..], run, rest, false);
      assert safe == [safe[0]] + safe[1..];
      assert [safe[0]] + (safe[1..] + "-" + Dashed(rest, false)) == safe + "-" + Dashed(rest, false);
    } else {
      assert all[1..] == run[1..] + rest;
      RunSkipped(run[1..], rest);
    }
  }

  lemma {:induction false} RunSkipped(run: string, rest: string)
    requires NoneSafe(run) && (rest == "" || IdChar(rest[0]))
    ensures Dashed(run + rest, true) == Dashed(rest, false)
  {
    hide IdChar;
    if run != "" {
      assert (run + rest)[1..] == run[1..] + rest;
      RunSkipped(run[1..], rest);
    } else {
      assert run + rest == rest;
    }
  }

  lemma {:induction false} DashedSafe(s: string, inRun: bool)
    requires AllSafe(s)
    ensures Dashed(s, inRun) == s
  {
    if s != "" {
      DashedSafe(s[1..], false);
      assert s == [s[0]] + s[1..];
    }
  }

  lemma {:induction false} DashedIsSafe(s: string, inRun: bool)
    ensures AllSafe(Dashed(s, inRun))
  {
    if s != "" { DashedIsSafe(s[1..], !IdChar(s[0])); }
  }

  ghost predicate AllDashes(s: string) {
    forall i :: 0 <= i < |s| ==> s[i] == '-'
  }

  lemma {:induction false} StripLeftIs(s: string) returns (a: string)
    ensures s == a + StripLeft(s) && AllDashes(a) && (StripLeft(s) != "" ==> StripLeft(s)[0] != '-')
  {
    if s != "" && s[0] == '-' {
      a := StripLeftIs(s[1..]);
      assert s == [s[0]] + s[1..];
      a := [s[0]] + a;
    } else {
      a := "";
    }
  }

  lemma {:induction false} StripRightIs(s: string) returns (b: string)
    ensures s == StripRight(s) + b && AllDashes(b)
    ensures StripRight(s) != "" ==> StripRight(s)[|StripRight(s)| - 1] != '-'
  {
    if s != "" && s[|s| - 1] == '-' {
      var k := |s| - 1;
      b := StripRightIs(s[..k]);
      assert s == s[..k] + [s[k]];
      b := b + [s[k]];
    } else {
      b := "";
    }
  }

  lemma MiddleSafe(a: string, core: string, b: string)
    requires AllSafe(a + core + b)
    ensures AllSafe(core)
  {
    hide IdChar;
    assert forall i :: 0 <= i < |core| ==> core[i] == (a + core + b)[|a| + i];
  }

  /** What is left of a string when the dashes at its ends are gone. */
  lemma CoreIs(d: string) returns (a: string, core: string, b: string)
    ensures core == StripRight(StripLeft(d)) && d == a + core + b && AllDashes(a) && AllDashes(b)
    ensures core != "" ==> core[0] != '-' && core[|core| - 1] != '-'
  {
    a := StripLeftIs(d);
    b := StripRightIs(StripLeft(d));
    core := StripRight(StripLeft(d));
    hide StripLeft, StripRight;
  }

  /** The part is the value with its unsafe runs dashed and without dashes at its
      ends, the fallback if nothing is left, and at most 80 characters of it. */
  lemma SafeIdPartIs(value: string, fallback: string) returns (a: string, core: string, b: string)
    ensures Dashed(value, false) == a + core + b && AllDashes(a) && AllDashes(b) && AllSafe(core)
    ensures core != "" ==> core[0] != '-' && core[|core| - 1] != '-'
    ensures SafeIdPart(value, fallback) <= if core == "" then fallback else core
    ensures var whole := if core == "" then fallback else core;
      |SafeIdPart(value, fallback)| == if |whole| < 80 then |whole| else 80
  {
    DashedIsSafe(value, false);
    a, core, b := CoreIs(Dashed(value, false));
    hide Dashed, IdChar, StripLeft, StripRight, AllDashes;
    MiddleSafe(a, core, b);
  }

  /** Every child is awaited once and counted once. */
  ghost predicate Counted(ids: seq<string>, awaited: seq<string>, passed: nat, failed: nat,
    outcomes: string -> Outcome) {
    && Distinct(awaited) && (forall id :: id in ids <==> id in awaited)
    && passed + failed == |ids| && passed == Successes(awaited, outcomes)
  }

  lemma FiledFrom(children: seq<Child>, ids: seq<string>, awaited: seq<string>, byChild: map<string, Result>,
    outcomes: string -> Outcome)
    requires Marked(children, ids, awaited, outcomes) && (forall id :: id in ids <==> id in awaited)
    requires forall id :: id in ids ==> id in byChild && byChild[id] == Received(outcomes(id))
    ensures forall i :: 0 <= i < |children| ==>
      children[i].id in byChild && byChild[children[i].id] == Received(outcomes(children[i].id))
    ensures forall i :: 0 <= i < |children| ==> children[i].phase == Ended(Received(outcomes(children[i].id)).success)
    ensures Ids(children) == ids
  {
    hide Received;
    forall i | 0 <= i < |children| ensures children[i].id in ids { assert Ids(children)[i] == children[i].id; }
  }

  lemma SuccessInResults(children: seq<Child>, ids: seq<string>, results: seq<Result>, outcomes: string -> Outcome)
    requires Filed(children, results, outcomes) && Ids(children) == ids
    ensures (forall r :: r in results ==> r.success) <==> forall id :: id in ids ==> Received(outcomes(id)).success
  {
    hide Received;
    if forall r :: r in results ==> r.success {
      forall id | id in ids ensures Received(outcomes(id)).success {
        var i :| 0 <= i < |ids| && ids[i] == id;
        assert results[i] in results;
      }
    } else {
      var r :| r in results && !r.success;
      var i :| 0 <= i < |results| && results[i] == r;
      assert ids[i] in ids;
    }
  }

  /** Each child's result is in its device's place. */
  ghost predicate Filed(children: seq<Child>, results: seq<Result>, outcomes: string -> Outcome) {
    && |results| == |children|
    && (forall i :: 0 <= i < |children| ==> results[i] == Received(outcomes(children[i].id)))
    && (forall i :: 0 <= i < |children| ==> children[i].phase == Ended(results[i].success))
  }

  lemma AllRunning(children: seq<Child>, ids: seq<string>, outcomes: string -> Outcome)
    requires Ids(children) == ids && forall i :: 0 <= i < |children| ==> children[i].phase == Running
    ensures Marked(children, ids, [], outcomes)
  {}

  lemma {:induction false} SuccessesAll(ids: seq<string>, outcomes: string -> Outcome)
    ensures Successes(ids, outcomes) <= |ids|
    ensures Successes(ids, outcomes) == |ids| <==> forall id :: id in ids ==> Received(outcomes(id)).success
  {
    hide Received;
    if ids != [] {
      var n := |ids| - 1;
      SuccessesAll(ids[..n], outcomes);
      assert ids == ids[..n] + [ids[n]];
    }
  }

  lemma GatheredAll(ids: seq<string>, awaited: seq<string>, results: map<string, Result>,
      passed: nat, failed: nat, outcomes: string -> Outcome)
    requires Distinct(ids) && Gathered(ids, [], awaited, results, passed, failed, outcomes)
    ensures Distinct(awaited) && |awaited| == |ids|
    ensures forall id :: id in ids <==> id in awaited
    ensures forall id :: id in ids ==> id in results && results[id] == Received(outcomes(id))
    ensures passed + failed == |ids| && passed == Successes(awaited, outcomes)
    ensures failed == 0 <==> forall id :: id in ids ==> Received(outcomes(id)).success
  {
    hide Received;
    DistinctSize(ids);
    DistinctSize(awaited);
    assert Members(ids) == Members(awaited);
    SuccessesAll(awaited, outcomes);
  }

  lemma GatherNone(ids: seq<string>, outcomes: string -> Outcome)
    requires Distinct(ids)
    ensures Gathered(ids, ids, [], map[], 0, 0, outcomes)
  {}

  lemma GatheredFacts(ids: seq<string>, active: seq<string>, awaited: seq<string>, results: map<string, Result>,
      passed: nat, failed: nat, outcomes: string -> Outcome)
    requires Gathered(ids, active, awaited, results, passed, failed, outcomes)
    ensures Distinct(active)
  {}

  lemma MarkedFacts(children: seq<Child>, ids: seq<string>, awaited: seq<string>, outcomes: string -> Outcome)
    requires Marked(children, ids, awaited, outcomes)
    ensures Ids(children) == ids
  {}

  lemma MarkOne(before: seq<Child>, after: seq<Child>, ids: seq<string>, awaited: seq<string>,
    outcomes: string -> Outcome, id: string)
    requires Marked(before, ids, awaited, outcomes) && |after| == |before|
    requires forall k :: 0 <= k < |before| ==> after[k] == Told(before[k], id, Received(outcomes(id)))
    ensures Marked(after, ids, awaited + [id], outcomes)
  {
    hide Received;
    assert forall k :: 0 <= k < |before| ==> after[k].id == before[k].id;
    assert Ids(after) == Ids(before);
  }
}
