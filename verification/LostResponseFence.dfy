/** The fence that loses one response of a scoring event: armed for a scope and an event, it drops the
    first response to that event and lets the retry through. */
module LostResponseFence {
  import opened Options

  datatype Phase = Armed | ResponseDropped
  datatype Fence = Fence(clientEventId: string, expiresAt: int, phase: Phase)
  type Fences = map<string, Fence>

  datatype Verdict = Allow | Destroy | DropResponse

  const SESSION_PATH := "/api/scoring/session"
  const EVENTS_PATH := "/api/scoring/events"

  // ----- The operations -----

  function Prune(fences: Fences, now: int): Fences {
    map scope | scope in fences && now < fences[scope].expiresAt :: fences[scope]
  }

  /** `isId` is the test of the client event id pattern. */
  function Arm(fences: Fences, scope: string, clientEventId: string, now: int, lifetime: int,
        isId: string -> bool): (Fences, bool)
  {
    var live := Prune(fences, now);
    if scope == "" || !isId(clientEventId) || scope in live then (live, false)
    else (live[scope := Fence(clientEventId, now + lifetime, Armed)], true)
  }

  function Handle(fences: Fences, scope: Option<string>, path: string, clientEventId: Option<string>,
        now: int): (Fences, Verdict)
  {
    var live := Prune(fences, now);
    if scope.None? || scope.value == "" || scope.value !in live then (live, Allow)
    else
      var s, active := scope.value, live[scope.value];
      if path == SESSION_PATH then (live, Destroy)
      else if path != EVENTS_PATH then (live, Allow)
      else if clientEventId != Some(active.clientEventId) then (live, Destroy)
      else if active.phase == Armed then (live[s := active.(phase := ResponseDropped)], DropResponse)
      else (live - {s}, Allow)
  }

  // ----- Runs -----

  datatype Request =
    | ArmRequest(armScope: string, armId: string, at: int)
    | Traffic(scope: Option<string>, path: string, clientEventId: Option<string>, now: int)

  /** What a request did: arming or not, or the verdict on the traffic. */
  datatype Effect = ArmAnswer(ok: bool) | Handled(verdict: Verdict)

  datatype World = World(fences: Fences, lifetime: int, isId: string -> bool)

  function Step(w: World, request: Request): (World, Effect) {
    match request
    case ArmRequest(scope, id, at) =>
      var (fences, ok) := Arm(w.fences, scope, id, at, w.lifetime, w.isId);
      (w.(fences := fences), ArmAnswer(ok))
    case Traffic(scope, path, id, now) =>
      var (fences, verdict) := Handle(w.fences, scope, path, id, now);
      (w.(fences := fences), Handled(verdict))
  }

  function Run(w: World, requests: seq<Request>): (World, seq<Effect>)
  {
    if requests == [] then (w, [])
    else
      var (before, effects) := Run(w, requests[..|requests| - 1]);
      var (after, effect) := Step(before, requests[|requests| - 1]);
      (after, effects + [effect])
  }

  lemma {:induction false} RunLength(w: World, requests: seq<Request>)
    ensures |Run(w, requests).1| == |requests|
  {
    if requests != [] { RunLength(w, requests[..|requests| - 1]); }
  }

  function ScopeOf(request: Request): Option<string> {
    match request
    case ArmRequest(scope, _, _) => Some(scope)
    case Traffic(scope, _, _, _) => scope
  }

  function TimeOf(request: Request): int {
    match request
    case ArmRequest(_, _, at) => at
    case Traffic(_, _, _, now) => now
  }

  // ----- At most one dropped response for each successful arm -----

  predicate ArmsScope(request: Request, effect: Effect, scope: string) {
    request.ArmRequest? && request.armScope == scope && effect == ArmAnswer(true)
  }

  predicate DropsIn(request: Request, effect: Effect, scope: string) {
    request.Traffic? && request.scope == Some(scope) && effect == Handled(DropResponse)
  }

  function CountArms(requests: seq<Request>, effects: seq<Effect>, scope: string): nat
    requires |requests| == |effects|
  {
    if requests == [] then 0
    else
      var n := |requests| - 1;
      CountArms(requests[..n], effects[..n], scope) + (if ArmsScope(requests[n], effects[n], scope) then 1 else 0)
  }

  function CountDrops(requests: seq<Request>, effects: seq<Effect>, scope: string): nat
    requires |requests| == |effects|
  {
    if requests == [] then 0
    else
      var n := |requests| - 1;
      CountDrops(requests[..n], effects[..n], scope) + (if DropsIn(requests[n], effects[n], scope) then 1 else 0)
  }

  /** The drops a scope is still good for. */
  function Outstanding(fences: Fences, scope: string): nat {
    if scope in fences && fences[scope].phase == Armed then 1 else 0
  }

  lemma {:induction false} StepDrops(w: World, request: Request, scope: string)
    ensures var (w', effect) := Step(w, request);
            (if DropsIn(request, effect, scope) then 1 else 0) + Outstanding(w'.fences, scope)
            <= Outstanding(w.fences, scope) + (if ArmsScope(request, effect, scope) then 1 else 0)
  {
  }

  /** In every run, from no fences, a scope loses at most one response for each time it was armed. */
  lemma {:induction false} DropsAreArmed(w: World, requests: seq<Request>, scope: string)
    requires w.fences == map[]
    ensures |Run(w, requests).1| == |requests|
    ensures var (w', effects) := Run(w, requests);
            CountDrops(requests, effects, scope) + Outstanding(w'.fences, scope) <= CountArms(requests, effects, scope)
  {
    RunLength(w, requests);
    if requests != [] {
      var n := |requests| - 1;
      DropsAreArmed(w, requests[..n], scope);
      StepDrops(Run(w, requests[..n]).0, requests[n], scope);
      assert Run(w, requests).1[..n] == Run(w, requests[..n]).1;
    }
  }

  // ----- What an active fence does -----

  ghost predicate Active(fences: Fences, scope: string, now: int) {
    scope in fences && now < fences[scope].expiresAt
  }

  /** The scope has the fence it had, unless that has expired. */
  ghost predicate Untouched(before: Fences, after: Fences, scope: string, now: int) {
    && (scope in after <==> Active(before, scope, now))
    && (scope in after ==> after[scope] == before[scope])
  }

  /** While a fence is active, session requests and events with another id are destroyed, and neither
      they nor other traffic of the scope changes it. */
  lemma {:induction false} FenceHolds(fences: Fences, scope: string, path: string, id: Option<string>, now: int)
    requires Active(fences, scope, now) && scope != ""
    requires path != EVENTS_PATH || id != Some(fences[scope].clientEventId)
    ensures var (after, verdict) := Handle(fences, Some(scope), path, id, now);
            && verdict == (if path == SESSION_PATH || path == EVENTS_PATH then Destroy else Allow)
            && scope in after && after[scope] == fences[scope]
  {
  }

  /** What a request gets from a fence that it does not match. */
  predicate Fenced(request: Request, effect: Effect, scope: string) {
    match request
    case ArmRequest(armScope, _, _) => armScope == scope ==> effect == ArmAnswer(false)
    case Traffic(s, path, _, _) =>
      s == Some(scope) && (path == SESSION_PATH || path == EVENTS_PATH) ==> effect == Handled(Destroy)
  }

  predicate Matches(request: Request, scope: string, clientEventId: string) {
    && request.Traffic? && request.scope == Some(scope)
    && request.path == EVENTS_PATH && request.clientEventId == Some(clientEventId)
  }

  /** Until its event comes or its time is up a fence stands unchanged through any run: every session
      request and every other event of its scope is destroyed and every new arming refused. */
  lemma {:induction false} FenceStands(w: World, requests: seq<Request>, scope: string)
    requires scope in w.fences && scope != ""
    requires forall i :: 0 <= i < |requests| ==> TimeOf(requests[i]) < w.fences[scope].expiresAt
    requires forall i :: 0 <= i < |requests| ==> !Matches(requests[i], scope, w.fences[scope].clientEventId)
    ensures var (w', effects) := Run(w, requests);
            && |effects| == |requests|
            && scope in w'.fences && w'.fences[scope] == w.fences[scope]
            && forall i :: 0 <= i < |requests| ==> Fenced(requests[i], effects[i], scope)
  {
    RunLength(w, requests);
    if requests != [] {
      var n := |requests| - 1;
      FenceStands(w, requests[..n], scope);
      var (before, effects) := Run(w, requests[..n]);
      StandsOneStep(before, requests[n], scope);
    }
  }

  lemma {:induction false} StandsOneStep(w: World, request: Request, scope: string)
    requires scope in w.fences && scope != ""
    requires TimeOf(request) < w.fences[scope].expiresAt && !Matches(request, scope, w.fences[scope].clientEventId)
    ensures var (w', effect) := Step(w, request);
            scope in w'.fences && w'.fences[scope] == w.fences[scope] && Fenced(request, effect, scope)
  {
  }

  /** The life of a fence: armed by a valid request, it drops the first response to its event, lets the
      next one through and is gone; it cannot be armed again meanwhile. */
  lemma {:induction false} FenceLife(fences: Fences, scope: string, id: string, t0: int, t1: int, t2: int,
        lifetime: int, isId: string -> bool)
    requires scope != "" && isId(id) && !Active(fences, scope, t0)
    requires t0 <= t1 <= t2 < t0 + lifetime
    ensures var (armed, ok) := Arm(fences, scope, id, t0, lifetime, isId);
            var (dropped, first) := Handle(armed, Some(scope), EVENTS_PATH, Some(id), t1);
            var (done, second) := Handle(dropped, Some(scope), EVENTS_PATH, Some(id), t2);
            && ok && first == DropResponse && second == Allow
            && !Arm(armed, scope, id, t1, lifetime, isId).1 && !Arm(dropped, scope, id, t2, lifetime, isId).1
            && scope !in done
            && Arm(done, scope, id, t2, lifetime, isId).1
  {
  }

  /** Once its time is up a fence no longer acts, whatever phase it was in. */
  lemma {:induction false} FenceExpires(fences: Fences, scope: string, path: string, id: Option<string>, now: int)
    requires !Active(fences, scope, now)
    ensures var (after, verdict) := Handle(fences, Some(scope), path, id, now); verdict == Allow && scope !in after
  {
  }

  /** A request changes no scope but its own, except that expired fences go. */
  lemma {:induction false} OtherScopes(w: World, request: Request, other: string)
    requires ScopeOf(request) != Some(other)
    ensures var after := Step(w, request).0.fences;
            && (other in after <==> Active(w.fences, other, TimeOf(request)))
            && (other in after ==> after[other] == w.fences[other])
  {
  }

  // ----- The fence as the source keeps it -----

  /** The request is for the event of its scope's active fence, which is in this phase. */
  predicate Met(fences: Fences, scope: Option<string>, path: string, clientEventId: Option<string>, now: int,
        phase: Phase)
  {
    && scope.Some? && scope.value != "" && scope.value in fences && now < fences[scope.value].expiresAt
    && path == EVENTS_PATH && clientEventId == Some(fences[scope.value].clientEventId)
    && fences[scope.value].phase == phase
  }

  class ResponseFence {
    const lifetimeMs: int
    const isId: string -> bool
    var fences: Fences

    constructor (lifetimeMs: int, isId: string -> bool)
      ensures fences == map[] && this.lifetimeMs == lifetimeMs && this.isId == isId
    {
      this.lifetimeMs := lifetimeMs;
      this.isId := isId;
      fences := map[];
    }

    method PruneExpired(now: int)
      modifies this
      ensures fences == Prune(old(fences), now)
    {
      var todo := fences.Keys;
      while todo != {}
        invariant todo <= fences.Keys <= old(fences).Keys
        invariant forall s :: s in fences ==> fences[s] == old(fences)[s]
        invariant forall s :: s in fences && s !in todo ==> now < fences[s].expiresAt
        invariant forall s :: s in old(fences) && s !in fences ==> old(fences)[s].expiresAt <= now
        decreases todo
      {
        var scope :| scope in todo;
        if fences[scope].expiresAt <= now { fences := fences - {scope}; }
        todo := todo - {scope};
      }
    }

    /** Arms a free scope for a valid event id; every other scope keeps its unexpired fence. */
    method ArmFence(scope: string, clientEventId: string, now: int) returns (ok: bool)
      modifies this
      ensures ok <==> scope != "" && isId(clientEventId) && !Active(old(fences), scope, now)
      ensures ok ==> scope in fences && fences[scope] == Fence(clientEventId, now + lifetimeMs, Armed)
      ensures forall other :: !(ok && other == scope) ==> Untouched(old(fences), fences, other, now)
      ensures (fences, ok) == Arm(old(fences), scope, clientEventId, now, lifetimeMs, isId)
    {
      PruneExpired(now);
      if scope == "" || !isId(clientEventId) || scope in fences { return false; }
      fences := fences[scope := Fence(clientEventId, now + lifetimeMs, Armed)];
      return true;
    }

    method HasActive(scope: Option<string>, now: int) returns (active: bool)
      modifies this
      ensures fences == Prune(old(fences), now)
      ensures active <==> scope.Some? && scope.value != "" && Active(old(fences), scope.value, now)
    {
      PruneExpired(now);
      return scope.Some? && scope.value != "" && scope.value in fences;
    }

    /** The first request for the event of its scope's fence loses its response, the second ends the
        fence; nothing else changes a fence, though session requests and other events are destroyed. */
    method HandleTraffic(scope: Option<string>, path: string, clientEventId: Option<string>, now: int)
          returns (verdict: Verdict)
      modifies this
      ensures verdict == DropResponse <==> Met(old(fences), scope, path, clientEventId, now, Armed)
      ensures verdict == Destroy <==>
              && scope.Some? && scope.value != "" && Active(old(fences), scope.value, now)
              && (path == SESSION_PATH
                  || (path == EVENTS_PATH && clientEventId != Some(old(fences)[scope.value].clientEventId)))
      ensures Met(old(fences), scope, path, clientEventId, now, Armed) ==>
                && scope.value in fences
                && fences[scope.value] == old(fences)[scope.value].(phase := ResponseDropped)
      ensures Met(old(fences), scope, path, clientEventId, now, ResponseDropped) ==> scope.value !in fences
      ensures forall other :: !(scope == Some(other) && Met(old(fences), scope, path, clientEventId, now, Armed))
                              && !(scope == Some(other)
                                   && Met(old(fences), scope, path, clientEventId, now, ResponseDropped))
                ==> Untouched(old(fences), fences, other, now)
      ensures (fences, verdict) == Handle(old(fences), scope, path, clientEventId, now)
    {
      PruneExpired(now);
      if scope.None? || scope.value == "" || scope.value !in fences { return Allow; }
      var active := fences[scope.value];
      if path == SESSION_PATH { return Destroy; }
      if path != EVENTS_PATH { return Allow; }
      if clientEventId != Some(active.clientEventId) { return Destroy; }
      if active.phase == Armed {
        fences := fences[scope.value := active.(phase := ResponseDropped)];
        return DropResponse;
      }
      fences := fences - {scope.value};
      return Allow;
    }
  }
}
