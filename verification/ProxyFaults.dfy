/** The fault-control registry of the test proxy: held requests and divergences armed per scope, each
    with a timer that cancels it, and release callbacks that must run exactly once. */
module ProxyFaults {
  import opened Options

  datatype Mode = HoldRequest | HoldResponse
  datatype Phase = Armed | Held

  /** `timer` identifies the record: every record arms a timer of its own. */
  datatype HeldRequest = HeldRequest(clientEventId: string, mode: Mode, phase: Phase, release: Option<nat>, timer: nat)
  datatype Divergence = Divergence(clientEventId: string, timer: nat)

  /** What a timer cancels when it fires. */
  datatype Target = HeldScope(scope: string) | DivergenceScope(scope: string)

  /** A run of the callback attached to a record. */
  datatype Release = Release(timer: nat, callback: nat)

  /** The two maps, the pending timers, and the history of attached and run callbacks. */
  datatype Registry = Registry(
    held: map<string, HeldRequest>,
    divergences: map<string, Divergence>,
    pending: map<nat, Target>,
    nextTimer: nat,
    attached: map<nat, nat>,
    released: seq<Release>)

  const EMPTY := Registry(map[], map[], map[], 0, map[], [])

  // ----- The operations -----

  function ArmHeld(r: Registry, scope: string, clientEventId: string, mode: Mode): (Registry, bool) {
    if scope in r.held then (r, false)
    else
      var t := r.nextTimer;
      (r.(held := r.held[scope := HeldRequest(clientEventId, mode, Armed, None, t)],
          pending := r.pending[t := HeldScope(scope)], nextTimer := t + 1), true)
  }

  function MarkHeld(r: Registry, scope: string, callback: nat): (Registry, bool) {
    if scope !in r.held || r.held[scope].phase != Armed then (r, false)
    else
      var record := r.held[scope];
      (r.(held := r.held[scope := record.(phase := Held, release := Some(callback))],
          attached := r.attached[record.timer := callback]), true)
  }

  /** Deletes the record, clears its timer and runs its callback if it has one. */
  function CancelHeld(r: Registry, scope: string): Registry {
    if scope !in r.held then r
    else
      var record := r.held[scope];
      r.(held := r.held - {scope}, pending := r.pending - {record.timer},
         released := if record.release.Some? then r.released + [Release(record.timer, record.release.value)]
                     else r.released)
  }

  function ReleaseHeld(r: Registry, scope: string): (Registry, bool) {
    if scope !in r.held || r.held[scope].phase != Held || r.held[scope].release.None? then (r, false)
    else (CancelHeld(r, scope), true)
  }

  function ArmDivergence(r: Registry, scope: string, clientEventId: string): (Registry, bool) {
    if scope in r.divergences then (r, false)
    else
      var t := r.nextTimer;
      (r.(divergences := r.divergences[scope := Divergence(clientEventId, t)],
          pending := r.pending[t := DivergenceScope(scope)], nextTimer := t + 1), true)
  }

  function CancelDivergence(r: Registry, scope: string): Registry {
    if scope !in r.divergences then r
    else r.(divergences := r.divergences - {scope}, pending := r.pending - {r.divergences[scope].timer})
  }

  function ConsumeDivergence(r: Registry, scope: string, clientEventId: string): (Registry, bool) {
    if scope == "" || clientEventId == "" || scope !in r.divergences
        || r.divergences[scope].clientEventId != clientEventId
    then (r, false)
    else (CancelDivergence(r, scope), true)
  }

  /** A pending timer fires: it leaves the pending timers, and its callback cancels by scope. */
  function Expire(r: Registry, timer: nat): Registry {
    if timer !in r.pending then r
    else
      var fired := r.(pending := r.pending - {timer});
      match r.pending[timer]
      case HeldScope(scope) => CancelHeld(fired, scope)
      case DivergenceScope(scope) => CancelDivergence(fired, scope)
  }

  datatype Command =
    | DoArmHeld(scope: string, clientEventId: string, mode: Mode)
    | DoMarkHeld(scope: string, callback: nat)
    | DoReleaseHeld(scope: string)
    | DoCancelHeld(scope: string)
    | DoArmDivergence(scope: string, clientEventId: string)
    | DoConsumeDivergence(scope: string, clientEventId: string)
    | DoCancelDivergence(scope: string)
    | DoExpire(timer: nat)

  function Step(r: Registry, c: Command): Registry {
    match c
    case DoArmHeld(scope, id, mode) => ArmHeld(r, scope, id, mode).0
    case DoMarkHeld(scope, callback) => MarkHeld(r, scope, callback).0
    case DoReleaseHeld(scope) => ReleaseHeld(r, scope).0
    case DoCancelHeld(scope) => CancelHeld(r, scope)
    case DoArmDivergence(scope, id) => ArmDivergence(r, scope, id).0
    case DoConsumeDivergence(scope, id) => ConsumeDivergence(r, scope, id).0
    case DoCancelDivergence(scope) => CancelDivergence(r, scope)
    case DoExpire(timer) => Expire(r, timer)
  }

  function Run(r: Registry, commands: seq<Command>): Registry {
    if commands == [] then r else Step(Run(r, commands[..|commands| - 1]), commands[|commands| - 1])
  }

  // ----- Timers and records -----

  ghost predicate TargetOf(r: Registry, timer: nat, target: Target) {
    match target
    case HeldScope(scope) => scope in r.held && r.held[scope].timer == timer
    case DivergenceScope(scope) => scope in r.divergences && r.divergences[scope].timer == timer
  }

  /** Pending timers and records correspond one to one. */
  ghost predicate TimersMatch(r: Registry) {
    && (forall t :: t in r.pending ==> t < r.nextTimer && TargetOf(r, t, r.pending[t]))
    && (forall s :: s in r.held ==> r.held[s].timer in r.pending && r.pending[r.held[s].timer] == HeldScope(s))
    && (forall s :: s in r.divergences ==>
          r.divergences[s].timer in r.pending && r.pending[r.divergences[s].timer] == DivergenceScope(s))
  }

  ghost predicate Waiting(r: Registry, timer: nat) {
    exists s :: s in r.held && r.held[s].timer == timer
  }

  ghost predicate HasRun(r: Registry, timer: nat) {
    exists i :: 0 <= i < |r.released| && r.released[i].timer == timer
  }

  /** A record that is held carries the callback that was attached under its timer. */
  ghost predicate RecordsMatch(r: Registry) {
    && (forall t :: t in r.attached ==> t < r.nextTimer)
    && (forall s :: s in r.divergences ==> r.divergences[s].timer !in r.attached)
    && (forall s :: s in r.held ==>
          && (r.held[s].phase == Held <==> r.held[s].release.Some?)
          && (r.held[s].release.Some? <==> r.held[s].timer in r.attached)
          && (r.held[s].release.Some? ==> r.attached[r.held[s].timer] == r.held[s].release.value))
  }

  /** What has run was attached, is no longer pending, and has not run twice. */
  ghost predicate ReleasesMatch(r: Registry) {
    && (forall i :: 0 <= i < |r.released| ==>
          && r.released[i].timer in r.attached
          && r.attached[r.released[i].timer] == r.released[i].callback
          && r.released[i].timer !in r.pending)
    && (forall i, j :: 0 <= i < j < |r.released| ==> r.released[i].timer != r.released[j].timer)
  }

  /** Every attached callback is either waiting with its record or has run, never both, and no
      callback has run twice. */
  ghost predicate CallbacksMatch(r: Registry) {
    RecordsMatch(r) && ReleasesMatch(r) && forall t :: t in r.attached ==> t in r.pending || HasRun(r, t)
  }

  ghost predicate Invariant(r: Registry) { TimersMatch(r) && CallbacksMatch(r) }

  lemma {:induction false} ArmHeldTimers(r: Registry, scope: string, id: string, mode: Mode)
    requires TimersMatch(r)
    ensures TimersMatch(ArmHeld(r, scope, id, mode).0)
  {
    if scope !in r.held { assert r.nextTimer !in r.pending; }
  }

  lemma {:induction false} NextTimerFree(r: Registry)
    requires Invariant(r)
    ensures r.nextTimer !in r.pending && r.nextTimer !in r.attached
  {
    hide ReleasesMatch, HasRun;
  }

  lemma {:induction false} HeldHasRelease(r: Registry, scope: string)
    requires Invariant(r)
    ensures scope in r.held ==> (r.held[scope].phase == Held <==> r.held[scope].release.Some?)
  {
    hide ReleasesMatch, TimersMatch, HasRun;
  }

  lemma {:induction false} ArmHeldRecords(r: Registry, scope: string, id: string, mode: Mode)
    requires Invariant(r)
    ensures RecordsMatch(ArmHeld(r, scope, id, mode).0)
  {
    NextTimerFree(r);
    hide TimersMatch, ReleasesMatch, HasRun;
  }

  lemma {:induction false} ArmHeldReleases(r: Registry, scope: string, id: string, mode: Mode)
    requires Invariant(r)
    ensures ReleasesMatch(ArmHeld(r, scope, id, mode).0)
  {
    NextTimerFree(r);
    hide TimersMatch, RecordsMatch, HasRun;
  }

  lemma {:induction false} ArmHeldKeeps(r: Registry, scope: string, id: string, mode: Mode)
    requires Invariant(r)
    ensures Invariant(ArmHeld(r, scope, id, mode).0)
  {
    hide TimersMatch, ReleasesMatch, RecordsMatch;
    ArmHeldTimers(r, scope, id, mode);
    ArmHeldRecords(r, scope, id, mode);
    ArmHeldReleases(r, scope, id, mode);
    var r' := ArmHeld(r, scope, id, mode).0;
    assert forall t :: HasRun(r', t) <==> HasRun(r, t);
  }

  lemma {:induction false} OwnTimer(r: Registry, s: string, scope: string)
    requires TimersMatch(r) && s in r.held && scope in r.held && r.held[s].timer == r.held[scope].timer
    ensures s == scope
  {
  }

  lemma {:induction false} MarkHeldTimers(r: Registry, scope: string, callback: nat)
    requires TimersMatch(r)
    ensures TimersMatch(MarkHeld(r, scope, callback).0)
  {
  }

  lemma {:induction false} MarkHeldKeeps(r: Registry, scope: string, callback: nat)
    requires Invariant(r)
    ensures Invariant(MarkHeld(r, scope, callback).0)
  {
    var r' := MarkHeld(r, scope, callback).0;
    MarkHeldTimers(r, scope, callback);
    if scope in r.held && r.held[scope].phase == Armed {
      var timer := r.held[scope].timer;
      assert r'.released == r.released && r'.pending == r.pending;
      forall s | s in r.held && s != scope ensures r.held[s].timer != timer {
        if r.held[s].timer == timer { OwnTimer(r, s, scope); assert false; }
      }
      forall s | s in r.divergences ensures r.divergences[s].timer != timer {
        assert r.pending[timer] == HeldScope(scope);
      }
      forall t | t in r'.attached ensures t in r'.pending || HasRun(r', t) {
        if t != timer && t !in r.pending {
          assert HasRun(r, t);
          var i :| 0 <= i < |r.released| && r.released[i].timer == t;
          assert r'.released[i].timer == t;
        }
      }
    }
  }

  lemma {:induction false} CancelHeldTimers(r: Registry, scope: string)
    requires TimersMatch(r)
    ensures TimersMatch(CancelHeld(r, scope))
  {
    if scope in r.held { assert r.pending[r.held[scope].timer] == HeldScope(scope); }
  }

  /** Cancelling runs the callback of its own record and no other. */
  lemma {:induction false} CancelHeldRuns(r: Registry, scope: string, t: nat)
    requires scope in r.held
    ensures HasRun(CancelHeld(r, scope), t) <==>
            HasRun(r, t) || (r.held[scope].release.Some? && r.held[scope].timer == t)
  {
    var r' := CancelHeld(r, scope);
    if HasRun(r, t) {
      var i :| 0 <= i < |r.released| && r.released[i].timer == t;
      assert r'.released[i].timer == t;
    }
    if r.held[scope].release.Some? { assert r'.released[|r.released|].timer == r.held[scope].timer; }
  }

  lemma {:induction false} CancelHeldReleases(r: Registry, scope: string)
    requires Invariant(r) && scope in r.held
    ensures ReleasesMatch(CancelHeld(r, scope))
  {
    hide HasRun;
    var record, r' := r.held[scope], CancelHeld(r, scope);
    assert record.timer in r.pending;
    forall i | 0 <= i < |r.released| ensures r.released[i].timer != record.timer {
      assert r.released[i].timer !in r.pending;
    }
  }

  lemma {:induction false} CancelHeldKeeps(r: Registry, scope: string)
    requires Invariant(r)
    ensures Invariant(CancelHeld(r, scope))
  {
    hide TimersMatch, ReleasesMatch;
    if scope in r.held {
      CancelHeldTimers(r, scope);
      CancelHeldReleases(r, scope);
      forall t ensures HasRun(CancelHeld(r, scope), t) <==>
                       HasRun(r, t) || (r.held[scope].release.Some? && r.held[scope].timer == t)
      {
        CancelHeldRuns(r, scope, t);
      }
      AttachedRuns(r, scope);
    }
  }

  lemma {:induction false} AttachedRuns(r: Registry, scope: string)
    requires CallbacksMatch(r) && TimersMatch(r) && scope in r.held
    requires forall t :: HasRun(CancelHeld(r, scope), t) <==>
                         HasRun(r, t) || (r.held[scope].release.Some? && r.held[scope].timer == t)
    ensures RecordsMatch(CancelHeld(r, scope))
    ensures var r' := CancelHeld(r, scope); forall t :: t in r'.attached ==> t in r'.pending || HasRun(r', t)
  {
    hide HasRun, ReleasesMatch;
    var r' := CancelHeld(r, scope);
    forall t | t in r'.attached ensures t in r'.pending || HasRun(r', t) {
      assert t in r.pending || HasRun(r, t);
    }
  }

  lemma {:induction false} ArmDivergenceKeeps(r: Registry, scope: string, id: string)
    requires Invariant(r)
    ensures Invariant(ArmDivergence(r, scope, id).0)
  {
    var r' := ArmDivergence(r, scope, id).0;
    if scope !in r.divergences {
      assert r.nextTimer !in r.attached && r.nextTimer !in r.pending;
      assert forall t :: HasRun(r', t) <==> HasRun(r, t);
    }
  }

  lemma {:induction false} CancelDivergenceKeeps(r: Registry, scope: string)
    requires Invariant(r)
    ensures Invariant(CancelDivergence(r, scope))
  {
    if scope in r.divergences {
      var r' := CancelDivergence(r, scope);
      assert r.pending[r.divergences[scope].timer] == DivergenceScope(scope);
      assert forall t :: HasRun(r', t) <==> HasRun(r, t);
    }
  }

  /** Clearing the timer of a record first makes no difference to cancelling it. */
  lemma {:induction false} ExpireIsCancel(r: Registry, timer: nat)
    requires TimersMatch(r) && timer in r.pending
    ensures Expire(r, timer) ==
            match r.pending[timer]
            case HeldScope(scope) => CancelHeld(r, scope)
            case DivergenceScope(scope) => CancelDivergence(r, scope)
  {
    assert TargetOf(r, timer, r.pending[timer]);
    assert r.pending - {timer} - {timer} == r.pending - {timer};
  }

  /** An expiry cancels the record that armed the timer, and no other record or timer. */
  lemma {:induction false} ExpiryCancelsItsOwn(r: Registry, timer: nat)
    requires Invariant(r) && timer in r.pending
    ensures OnlyThatTimer(Expire(r, timer), r, timer)
    ensures Expire(r, timer).pending == r.pending - {timer}
  {
    ExpireIsCancel(r, timer);
    assert TargetOf(r, timer, r.pending[timer]);
  }

  lemma {:induction false} StepKeeps(r: Registry, c: Command)
    requires Invariant(r)
    ensures Invariant(Step(r, c))
  {
    match c
    case DoArmHeld(scope, id, mode) => ArmHeldKeeps(r, scope, id, mode);
    case DoMarkHeld(scope, callback) => MarkHeldKeeps(r, scope, callback);
    case DoReleaseHeld(scope) => CancelHeldKeeps(r, scope);
    case DoCancelHeld(scope) => CancelHeldKeeps(r, scope);
    case DoArmDivergence(scope, id) => ArmDivergenceKeeps(r, scope, id);
    case DoConsumeDivergence(scope, id) => CancelDivergenceKeeps(r, scope);
    case DoCancelDivergence(scope) => CancelDivergenceKeeps(r, scope);
    case DoExpire(timer) =>
      if timer in r.pending {
        ExpireIsCancel(r, timer);
        match r.pending[timer]
        case HeldScope(scope) => CancelHeldKeeps(r, scope);
        case DivergenceScope(scope) => CancelDivergenceKeeps(r, scope);
      }
  }

  /** Whatever is asked of the registry and whenever timers fire, the invariant holds. */
  lemma {:induction false} RunKeeps(commands: seq<Command>)
    ensures Invariant(Run(EMPTY, commands))
  {
    if commands != [] {
      RunKeeps(commands[..|commands| - 1]);
      StepKeeps(Run(EMPTY, commands[..|commands| - 1]), commands[|commands| - 1]);
    }
  }

  // ----- Callbacks run exactly once -----

  function RunsOf(released: seq<Release>, timer: nat): nat {
    if released == [] then 0
    else RunsOf(released[..|released| - 1], timer) + (if released[|released| - 1].timer == timer then 1 else 0)
  }

  lemma {:induction false} RunsCount(released: seq<Release>, timer: nat)
    requires forall i, j :: 0 <= i < j < |released| ==> released[i].timer != released[j].timer
    ensures RunsOf(released, timer) == if exists i :: 0 <= i < |released| && released[i].timer == timer then 1 else 0
  {
    if released != [] {
      var init := released[..|released| - 1];
      RunsCount(init, timer);
      if exists i :: 0 <= i < |init| && init[i].timer == timer {
        var i :| 0 <= i < |init| && init[i].timer == timer;
        assert released[i].timer == timer;
      }
    }
  }

  /** In every run each attached callback has run no time while its record is there, and exactly once
      when its record is gone. */
  lemma {:induction false} CallbackRunsOnce(commands: seq<Command>, timer: nat)
    requires timer in Run(EMPTY, commands).attached
    ensures var r := Run(EMPTY, commands);
            RunsOf(r.released, timer) == if Waiting(r, timer) then 0 else 1
  {
    var r := Run(EMPTY, commands);
    RunKeeps(commands);
    RunsCount(r.released, timer);
    if timer in r.pending {
      assert TargetOf(r, timer, r.pending[timer]);
      assert Waiting(r, timer);
      assert !HasRun(r, timer);
    } else {
      assert HasRun(r, timer);
    }
  }

  /** Arming, holding and releasing a free scope runs the callback it was given and leaves the maps
      and the timers as they were. */
  lemma {:induction false} HeldRoundTrip(r: Registry, scope: string, id: string, mode: Mode, callback: nat)
    requires Invariant(r) && scope !in r.held
    ensures var (armed, ok1) := ArmHeld(r, scope, id, mode);
            var (held, ok2) := MarkHeld(armed, scope, callback);
            var (done, ok3) := ReleaseHeld(held, scope);
            && ok1 && ok2 && ok3
            && !ReleaseHeld(armed, scope).1 && !MarkHeld(held, scope, callback).1
            && !ArmHeld(held, scope, id, mode).1
            && held.held[scope] == HeldRequest(id, mode, Held, Some(callback), r.nextTimer)
            && done.held == r.held && done.divergences == r.divergences && done.pending == r.pending
            && done.released == r.released + [Release(r.nextTimer, callback)]
  {
    hide CallbacksMatch;
    assert r.nextTimer !in r.pending;
  }

  /** The expiry of a held request does to the registry what its release does. */
  lemma {:induction false} ExpiryReleases(r: Registry, scope: string)
    requires Invariant(r) && scope in r.held && r.held[scope].phase == Held
    ensures Expire(r, r.held[scope].timer) == ReleaseHeld(r, scope).0
  {
    hide HasRun, ReleasesMatch;
    ExpireIsCancel(r, r.held[scope].timer);
  }

  /** A divergence is consumed by its own event only, once, and leaves nothing behind. */
  lemma {:induction false} DivergenceRoundTrip(r: Registry, scope: string, id: string, other: string)
    requires Invariant(r) && scope !in r.divergences && scope != "" && id != "" && other != id
    ensures var (armed, ok) := ArmDivergence(r, scope, id);
            var (consumed, hit) := ConsumeDivergence(armed, scope, id);
            && ok && hit
            && ConsumeDivergence(armed, scope, other) == (armed, false)
            && !ArmDivergence(armed, scope, other).1
            && consumed.divergences == r.divergences && consumed.pending == r.pending && consumed.held == r.held
            && !ConsumeDivergence(consumed, scope, id).1
  {
    assert r.nextTimer !in r.pending;
  }

  // ----- What a caller sees -----

  /** Every other scope has the record that it had. */
  ghost predicate OthersKeep<R(!new)>(after: map<string, R>, before: map<string, R>, scope: string) {
    forall s :: s != scope ==> (s in after <==> s in before) && (s in after ==> after[s] == before[s])
  }

  /** The run of the callback attached to a scope's record, if there is one. */
  function CallbackOf(held: map<string, HeldRequest>, scope: string): seq<Release> {
    if scope in held && held[scope].release.Some? then [Release(held[scope].timer, held[scope].release.value)] else []
  }

  ghost predicate OnlyThatTimer(after: Registry, before: Registry, timer: nat) {
    && (forall s :: s in before.held ==> (s in after.held <==> before.held[s].timer != timer))
    && (forall s :: s in after.held ==> s in before.held && after.held[s] == before.held[s])
    && (forall s :: s in before.divergences ==> (s in after.divergences <==> before.divergences[s].timer != timer))
    && (forall s :: s in after.divergences ==> s in before.divergences && after.divergences[s] == before.divergences[s])
  }

  predicate Throws(record: HeldRequest, throwing: set<nat>) { record.release.Some? && record.release.value in throwing }

  // ----- The registry as the source keeps it -----

  class FaultRegistry {
    var held: map<string, HeldRequest>
    var divergences: map<string, Divergence>
    var pending: map<nat, Target>
    var nextTimer: nat
    ghost var attached: map<nat, nat>
    var released: seq<Release>

    ghost function State(): Registry
      reads this
    {
      Registry(held, divergences, pending, nextTimer, attached, released)
    }

    /** Timers and records correspond one to one, and every callback is accounted for. */
    ghost predicate Valid()
      reads this
    {
      Invariant(State())
    }

    constructor ()
      ensures Valid() && State() == EMPTY
    {
      held, divergences, pending, nextTimer, attached, released := map[], map[], map[], 0, map[], [];
    }

    /** Refuses a scope that has a record; otherwise the scope alone gets one, with a timer of its own. */
    method Arm(scope: string, clientEventId: string, mode: Mode) returns (ok: bool)
      requires Valid()
      modifies this
      ensures Valid() && (State(), ok) == ArmHeld(old(State()), scope, clientEventId, mode)
      ensures ok <==> scope !in old(held)
      ensures ok ==> scope in held && held[scope].timer in pending && held[scope].timer !in old(pending)
      ensures divergences == old(divergences) && released == old(released) && OthersKeep(held, old(held), scope)
    {
      hide Invariant;
      NextTimerFree(State());
      ArmHeldKeeps(State(), scope, clientEventId, mode);
      if scope in held { return false; }
      held := held[scope := HeldRequest(clientEventId, mode, Armed, None, nextTimer)];
      pending := pending[nextTimer := HeldScope(scope)];
      nextTimer := nextTimer + 1;
      return true;
    }

    /** Attaches the callback to a record that is armed and not yet held; its timer stays. */
    method Mark(scope: string, callback: nat) returns (ok: bool)
      requires Valid()
      modifies this
      ensures Valid() && (State(), ok) == MarkHeld(old(State()), scope, callback)
      ensures ok <==> scope in old(held) && old(held)[scope].phase == Armed
      ensures ok ==> scope in held && held[scope].phase == Held && held[scope].release == Some(callback)
      ensures pending == old(pending) && released == old(released) && OthersKeep(held, old(held), scope)
    {
      hide Invariant;
      MarkHeldKeeps(State(), scope, callback);
      if scope !in held || held[scope].phase != Armed { return false; }
      attached := attached[held[scope].timer := callback];
      held := held[scope := held[scope].(phase := Held, release := Some(callback))];
      return true;
    }

    /** The scope has no record afterwards, and the callback that was attached to it has run. */
    method Cancel(scope: string)
      requires Valid()
      modifies this
      ensures Valid() && State() == CancelHeld(old(State()), scope)
      ensures scope !in held && divergences == old(divergences) && OthersKeep(held, old(held), scope)
      ensures scope in old(held) ==> pending == old(pending) - {old(held)[scope].timer}
      ensures released == old(released) + CallbackOf(old(held), scope)
    {
      hide Invariant;
      CancelHeldKeeps(State(), scope);
      if scope !in held { return; }
      var record := held[scope];
      held := held - {scope};
      pending := pending - {record.timer};
      if record.release.Some? { released := released + [Release(record.timer, record.release.value)]; }
    }

    /** Cancels a record that is held and nothing else. */
    method ReleaseRequest(scope: string) returns (ok: bool)
      requires Valid()
      modifies this
      ensures Valid() && (State(), ok) == ReleaseHeld(old(State()), scope)
      ensures ok <==> scope in old(held) && old(held)[scope].phase == Held
      ensures ok ==> scope !in held && |released| == |old(released)| + 1
      ensures !ok ==> State() == old(State())
      ensures released == old(released) + (if ok then CallbackOf(old(held), scope) else [])
      ensures divergences == old(divergences) && OthersKeep(held, old(held), scope)
    {
      hide Invariant;
      HeldHasRelease(State(), scope);
      CancelHeldKeeps(State(), scope);
      if scope !in held || held[scope].phase != Held || held[scope].release.None? { return false; }
      var record := held[scope];
      held := held - {scope};
      pending := pending - {record.timer};
      released := released + [Release(record.timer, record.release.value)];
      return true;
    }

    /** Refuses a scope that has a divergence; otherwise the scope alone gets one, with a timer of its own. */
    method ArmDiverging(scope: string, clientEventId: string) returns (ok: bool)
      requires Valid()
      modifies this
      ensures Valid() && (State(), ok) == ArmDivergence(old(State()), scope, clientEventId)
      ensures ok <==> scope !in old(divergences)
      ensures ok ==> scope in divergences && divergences[scope].timer in pending
      ensures ok ==> divergences[scope].timer !in old(pending)
      ensures held == old(held) && released == old(released) && OthersKeep(divergences, old(divergences), scope)
    {
      hide Invariant;
      NextTimerFree(State());
      ArmDivergenceKeeps(State(), scope, clientEventId);
      if scope in divergences { return false; }
      divergences := divergences[scope := Divergence(clientEventId, nextTimer)];
      pending := pending[nextTimer := DivergenceScope(scope)];
      nextTimer := nextTimer + 1;
      return true;
    }

    /** Takes the divergence of the scope exactly when it is for this event. */
    method Consume(scope: string, clientEventId: string) returns (ok: bool)
      requires Valid()
      modifies this
      ensures Valid() && (State(), ok) == ConsumeDivergence(old(State()), scope, clientEventId)
      ensures ok <==> scope != "" && clientEventId != "" && scope in old(divergences)
                      && old(divergences)[scope].clientEventId == clientEventId
      ensures divergences == if ok then old(divergences) - {scope} else old(divergences)
      ensures held == old(held) && released == old(released)
    {
      if scope == "" || clientEventId == "" { return false; }
      if scope !in divergences || divergences[scope].clientEventId != clientEventId { return false; }
      CancelDiverging(scope);
      return true;
    }

    method CancelDiverging(scope: string)
      requires Valid()
      modifies this
      ensures Valid() && State() == CancelDivergence(old(State()), scope)
      ensures divergences == old(divergences) - {scope} && held == old(held) && released == old(released)
      ensures scope in old(divergences) ==> pending == old(pending) - {old(divergences)[scope].timer}
    {
      hide Invariant;
      CancelDivergenceKeeps(State(), scope);
      if scope !in divergences { return; }
      pending := pending - {divergences[scope].timer};
      divergences := divergences - {scope};
    }

    /** A timer fires: exactly the record that armed it goes, whichever kind it is. */
    method Fire(timer: nat)
      requires Valid()
      modifies this
      ensures Valid() && State() == Expire(old(State()), timer)
      ensures pending == old(pending) - {timer}
      ensures timer in old(pending) ==> OnlyThatTimer(State(), old(State()), timer)
      ensures timer !in old(pending) ==> State() == old(State())
    {
      if timer !in pending { return; }
      ExpiryCancelsItsOwn(State(), timer);
      ExpireIsCancel(State(), timer);
      assert TargetOf(State(), timer, pending[timer]);
      match pending[timer] {
        case HeldScope(scope) => Cancel(scope);
        case DivergenceScope(scope) => CancelDiverging(scope);
      }
    }

    /** Cancels every record, until a callback throws. It completes exactly when no attached callback that
        is still waiting throws; then no record and no timer is left, and every callback ever attached has
        run exactly once. Otherwise a throwing callback has run, and the records not yet reached stay. */
    method Dispose(throwing: set<nat>) returns (completed: bool)
      requires Valid()
      modifies this
      ensures Valid() && attached == old(attached)
      ensures completed <==> forall s :: s in old(held) ==> !Throws(old(held)[s], throwing)
      ensures completed ==> held == map[] && divergences == map[] && pending == map[]
      ensures completed ==> forall t :: t in attached ==> RunsOf(released, t) == 1
      ensures !completed ==> divergences == old(divergences)
      ensures !completed ==> forall s :: s in held ==> s in old(held) && held[s] == old(held)[s]
      ensures !completed ==> exists s :: s in old(held) && s !in held && Throws(old(held)[s], throwing)
    {
      var scopes := held.Keys;
      while scopes != {}
        invariant Valid() && held.Keys == scopes && scopes <= old(held).Keys
        invariant attached == old(attached) && divergences == old(divergences)
        invariant forall s :: s in held ==> held[s] == old(held)[s]
        invariant forall s :: s in old(held) && s !in scopes ==> !Throws(old(held)[s], throwing)
        decreases scopes
      {
        var scope :| scope in scopes;
        var record := held[scope];
        Cancel(scope);
        scopes := scopes - {scope};
        if Throws(record, throwing) { return false; }
      }
      scopes := divergences.Keys;
      while scopes != {}
        invariant Valid() && held == map[] && divergences.Keys == scopes && attached == old(attached)
        decreases scopes
      {
        var scope :| scope in scopes;
        CancelDiverging(scope);
        scopes := scopes - {scope};
      }
      NothingLeft(State());
      return true;
    }
  }

  lemma {:induction false} NothingLeft(r: Registry)
    requires Invariant(r) && r.held == map[] && r.divergences == map[]
    ensures r.pending == map[]
    ensures forall t :: t in r.attached ==> RunsOf(r.released, t) == 1
  {
    forall t ensures t !in r.pending { assert t in r.pending ==> TargetOf(r, t, r.pending[t]); }
    assert r.pending == map[];
    forall t | t in r.attached ensures RunsOf(r.released, t) == 1 {
      RunsCount(r.released, t);
      assert HasRun(r, t);
    }
  }

  // ----- The bounded response buffer -----

  function Flatten(chunks: seq<seq<bv8>>): seq<bv8> {
    if chunks == [] then [] else Flatten(chunks[..|chunks| - 1]) + chunks[|chunks| - 1]
  }

  class BoundedBuffer {
    const maximumBytes: nat
    var chunks: seq<seq<bv8>>
    var bytes: nat
    ghost var appended: seq<seq<bv8>>

    ghost predicate Valid()
      reads this
    {
      && bytes == |Flatten(appended)|
      && (bytes <= maximumBytes ==> chunks == appended)
    }

    constructor (maximumBytes: nat)
      requires maximumBytes >= 1
      ensures Valid() && appended == [] && this.maximumBytes == maximumBytes
    {
      this.maximumBytes := maximumBytes;
      chunks, bytes, appended := [], 0, [];
    }

    /** Accepts a chunk exactly while everything offered so far fits: once over the limit, never again. */
    method Append(chunk: seq<bv8>) returns (ok: bool)
      requires Valid()
      modifies this
      ensures Valid() && appended == old(appended) + [chunk]
      ensures ok <==> |Flatten(appended)| <= maximumBytes
    {
      appended := appended + [chunk];
      assert appended[..|appended| - 1] == old(appended);
      bytes := bytes + |chunk|;
      if bytes > maximumBytes { return false; }
      chunks := chunks + [chunk];
      return true;
    }

    /** The bytes of every chunk offered, or None when they exceeded the limit. */
    method Value() returns (value: Option<seq<bv8>>)
      requires Valid()
      ensures value == if |Flatten(appended)| <= maximumBytes then Some(Flatten(appended)) else None
    {
      if bytes > maximumBytes { return None; }
      return Some(Flatten(chunks));
    }
  }
}
