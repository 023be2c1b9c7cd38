/** The scoring load workload: writers that start a match and then alternate a point with the reversal
    of that point, against one shared server that checks the expected sequence of each match. */
module ScoringWorkload {
  import opened Lists
  import opened Options
  import opened Texts

  datatype Event = MatchStarted | Point(eventId: nat, home: bool) | Reversal(target: nat)

  /** What a writer knows of its match. */
  datatype Session = Session(sequence: nat, pending: Option<nat>)

  /** The body of a mutation; the event id is the server's to choose. */
  datatype Body = StartBody | ReversalBody(target: nat) | PointBody(home: bool)

  const FRESH := Session(0, None)

  // ----- One mutation -----

  function NextBody(s: Session, step: nat): Body {
    if s.sequence == 0 then StartBody
    else if s.pending.Some? then ReversalBody(s.pending.value)
    else PointBody(step % 2 == 0)
  }

  /** The session after its mutation was accepted under an event id. */
  function Advance(s: Session, body: Body, eventId: nat): Session {
    Session(s.sequence + 1, if body.PointBody? then Some(eventId) else None)
  }

  function Recorded(body: Body, eventId: nat): Event {
    match body
    case StartBody => MatchStarted
    case ReversalBody(target) => Reversal(target)
    case PointBody(home) => Point(eventId, home)
  }

  // ----- The shape of a log -----

  /** The event at `k` is what start (point reversal)* has there; a reversal targets the point before it. */
  ghost predicate FitsAt(log: seq<Event>, k: nat)
    requires k < |log|
  {
    if k == 0 then log[k] == MatchStarted
    else if k % 2 == 1 then log[k].Point?
    else log[k].Reversal? && log[k - 1].Point? && log[k].target == log[k - 1].eventId
  }

  /** start (point reversal)*, cut off anywhere. */
  ghost predicate Bounded(log: seq<Event>) { forall k :: 0 <= k < |log| ==> FitsAt(log, k) }

  /** The point that is still to be reversed. */
  ghost function OpenPoint(log: seq<Event>): Option<nat> {
    if |log| > 0 && log[|log| - 1].Point? then Some(log[|log| - 1].eventId) else None
  }

  /** The session agrees with the log of its match. */
  ghost predicate InStep(s: Session, log: seq<Event>) {
    s.sequence == |log| && s.pending == OpenPoint(log) && Bounded(log)
  }

  lemma {:induction false} MutationKeepsStep(s: Session, log: seq<Event>, step: nat, eventId: nat)
    requires InStep(s, log)
    ensures var body := NextBody(s, step);
            InStep(Advance(s, body, eventId), log + [Recorded(body, eventId)])
  {
    var n := |log|;
    var longer := log + [Recorded(NextBody(s, step), eventId)];
    if n > 0 { assert FitsAt(log, n - 1); }
    forall k | 0 <= k < |longer| ensures FitsAt(longer, k) {
      if k < n { assert FitsAt(log, k); } else if k > 0 { assert longer[k - 1] == log[k - 1]; }
    }
  }

  /** Within a tier all points of a stream are for one side: a tier that starts at an odd sequence scores
      for the home side, and one that starts at an even sequence for the away side. */
  lemma {:induction false} TierScoresOneSide(s: Session, log: seq<Event>, start: nat, step: nat)
    requires InStep(s, log) && s.sequence == start + step && NextBody(s, step).PointBody?
    ensures NextBody(s, step).home <==> start % 2 == 1
  {
    assert FitsAt(log, |log| - 1);
    assert |log| % 2 == 1;
  }

  // ----- Writers in parallel -----

  /** Where a writer's current call is. */
  datatype Call =
    | Idle
    | Sent(body: Body, expected: nat)
    | Accepted(body: Body, eventId: nat)
    | Rejected

  datatype Writer = Writer(matchId: string, session: Session, call: Call)

  /** The logs of the server; its sequence for a match is the length of the match's log, and zero for
      a match it has not seen. */
  type Logs = map<string, seq<Event>>

  function LogOf(logs: Logs, matchId: string): seq<Event> { if matchId in logs then logs[matchId] else [] }

  /** The writers and the one server they share; `nextId` is the event id it gives out next. */
  datatype Tier = Tier(writers: seq<Writer>, logs: Logs, nextId: nat)

  datatype Action =
    | Send(writer: nat, step: nat)
    | Serve(writer: nat)
    | Receive(writer: nat)

  /** The server takes a mutation only under the current sequence of its match. */
  function ServeCall(w: Writer, logs: Logs, nextId: nat): (Writer, Logs) {
    match w.call
    case Sent(body, expected) =>
      var log := LogOf(logs, w.matchId);
      if expected != |log| then (w.(call := Rejected), logs)
      else (w.(call := Accepted(body, nextId)), logs[w.matchId := log + [Recorded(body, nextId)]])
    case _ => (w, logs)
  }

  function StepWriter(w: Writer, logs: Logs, a: Action, nextId: nat): (Writer, Logs) {
    match a
    case Send(_, step) =>
      (if w.call.Idle? then w.(call := Sent(NextBody(w.session, step), w.session.sequence)) else w, logs)
    case Serve(_) => ServeCall(w, logs, nextId)
    case Receive(_) =>
      match w.call
      case Accepted(body, eventId) => (w.(session := Advance(w.session, body, eventId), call := Idle), logs)
      case _ => (w, logs)
  }

  function Act(t: Tier, a: Action): Tier {
    if a.writer >= |t.writers| then t
    else
      var (w, logs) := StepWriter(t.writers[a.writer], t.logs, a, t.nextId);
      Tier(t.writers[a.writer := w], logs, t.nextId + 1)
  }

  function Run(t: Tier, actions: seq<Action>): Tier {
    if actions == [] then t else Act(Run(t, actions[..|actions| - 1]), actions[|actions| - 1])
  }

  /** Before a call, while it is on its way, and once it is accepted but not yet received. */
  ghost predicate WriterOk(w: Writer, log: seq<Event>) {
    match w.call
    case Idle => InStep(w.session, log)
    case Sent(body, expected) =>
      InStep(w.session, log) && expected == w.session.sequence && exists step :: body == NextBody(w.session, step)
    case Accepted(body, eventId) =>
      && |log| > 0 && InStep(w.session, log[..|log| - 1])
      && log[|log| - 1] == Recorded(body, eventId)
      && exists step :: body == NextBody(w.session, step)
    case Rejected => false
  }

  function MatchIds(t: Tier): (r: seq<string>)
    ensures |r| == |t.writers|
  {
    seq(|t.writers|, i requires 0 <= i < |t.writers| => t.writers[i].matchId)
  }

  ghost predicate TierOk(t: Tier) {
    forall i :: 0 <= i < |t.writers| ==> WriterOk(t.writers[i], LogOf(t.logs, t.writers[i].matchId))
  }

  lemma {:induction false} ServeOk(w: Writer, logs: Logs, nextId: nat)
    requires WriterOk(w, LogOf(logs, w.matchId))
    ensures var (w', logs') := ServeCall(w, logs, nextId);
            w'.matchId == w.matchId && WriterOk(w', LogOf(logs', w.matchId))
  {
    hide Bounded, OpenPoint, NextBody;
    var (w', logs') := ServeCall(w, logs, nextId);
    if w.call.Sent? {
      var log, log' := LogOf(logs, w.matchId), LogOf(logs', w.matchId);
      assert log' == log + [Recorded(w.call.body, nextId)];
      assert log'[..|log'| - 1] == log;
    }
  }

  lemma {:induction false} ReceiveOk(w: Writer, log: seq<Event>)
    requires w.call.Accepted? && WriterOk(w, log)
    ensures InStep(Advance(w.session, w.call.body, w.call.eventId), log)
  {
    var body, eventId := w.call.body, w.call.eventId;
    var step :| body == NextBody(w.session, step);
    var before := log[..|log| - 1];
    MutationKeepsStep(w.session, before, step, eventId);
    assert before + [Recorded(body, eventId)] == log;
  }

  lemma {:induction false} WriterStepOk(w: Writer, logs: Logs, a: Action, nextId: nat)
    requires WriterOk(w, LogOf(logs, w.matchId))
    ensures var (w', logs') := StepWriter(w, logs, a, nextId);
            w'.matchId == w.matchId && WriterOk(w', LogOf(logs', w.matchId))
  {
    hide InStep, NextBody, LogOf;
    match a
    case Send(_, step) =>
      if w.call.Idle? {
        var w' := StepWriter(w, logs, a, nextId).0;
        assert w'.call.body == NextBody(w'.session, step);
      }
    case Serve(_) => ServeOk(w, logs, nextId);
    case Receive(_) => if w.call.Accepted? { ReceiveOk(w, LogOf(logs, w.matchId)); }
  }

  /** A step of a writer touches the log of its own match only. */
  lemma {:induction false} OtherLogs(w: Writer, logs: Logs, a: Action, nextId: nat, other: string)
    requires other != w.matchId
    ensures LogOf(StepWriter(w, logs, a, nextId).1, other) == LogOf(logs, other)
  {
  }

  lemma {:induction false} ActOk(t: Tier, a: Action)
    requires TierOk(t) && NoRepeats(MatchIds(t))
    ensures TierOk(Act(t, a)) && MatchIds(Act(t, a)) == MatchIds(t)
  {
    if a.writer < |t.writers| {
      var w := t.writers[a.writer];
      var t' := Act(t, a);
      WriterStepOk(w, t.logs, a, t.nextId);
      forall i | 0 <= i < |t.writers| ensures WriterOk(t'.writers[i], LogOf(t'.logs, t'.writers[i].matchId)) {
        if i != a.writer {
          assert MatchIds(t)[i] != MatchIds(t)[a.writer];
          OtherLogs(w, t.logs, a, t.nextId, t.writers[i].matchId);
        }
      }
    }
  }

  /** Under every interleaving of writers on different matches no call is ever rejected and every
      writer stays in step with the log of its match on the shared server. */
  lemma {:induction false} RunOk(t: Tier, actions: seq<Action>)
    requires TierOk(t) && NoRepeats(MatchIds(t))
    ensures TierOk(Run(t, actions)) && MatchIds(Run(t, actions)) == MatchIds(t)
  {
    if actions != [] {
      RunOk(t, actions[..|actions| - 1]);
      ActOk(Run(t, actions[..|actions| - 1]), actions[|actions| - 1]);
    }
  }

  function Begin(matches: seq<string>): Tier {
    Tier(seq(|matches|, i requires 0 <= i < |matches| => Writer(matches[i], FRESH, Idle)), map[], 0)
  }

  lemma {:induction false} BeginMatches(matches: seq<string>)
    ensures TierOk(Begin(matches)) && MatchIds(Begin(matches)) == matches
  {
  }

  /** From an empty server and different matches: no call is rejected; every log is a cut-off
      start (point reversal)*; and a writer that is not in a call has exactly the sequence of its match. */
  lemma {:induction false} WorkloadSafe(matches: seq<string>, actions: seq<Action>, i: nat)
    requires NoRepeats(matches) && i < |matches|
    ensures |Run(Begin(matches), actions).writers| == |matches|
    ensures var t := Run(Begin(matches), actions);
            var w, log := t.writers[i], LogOf(t.logs, matches[i]);
            && w.matchId == matches[i] && !w.call.Rejected?
            && Bounded(log)
            && (w.call.Idle? ==> w.session.sequence == |log| && w.session.pending == OpenPoint(log))
            && w.session.sequence <= |log| <= w.session.sequence + 1
  {
    BeginMatches(matches);
    RunOk(Begin(matches), actions);
    var t := Run(Begin(matches), actions);
    assert MatchIds(t)[i] == matches[i];
    var w, log := t.writers[i], LogOf(t.logs, matches[i]);
    assert WriterOk(w, log);
    if w.call.Accepted? {
      var step :| w.call.body == NextBody(w.session, step);
      MutationKeepsStep(w.session, log[..|log| - 1], step, w.call.eventId);
      assert log[..|log| - 1] + [log[|log| - 1]] == log;
    }
  }

  ghost predicate NoneRejected(t: Tier) { forall i :: 0 <= i < |t.writers| ==> !t.writers[i].call.Rejected? }

  /** Both writers read the match as unscored, both send its start, and the second is refused. */
  function Collision(i: nat, j: nat): seq<Action> { [Send(i, 0), Send(j, 0), Serve(i), Serve(j)] }

  lemma {:induction false} CollisionRejects(matches: seq<string>, i: nat, j: nat)
    requires i < j < |matches| && matches[i] == matches[j]
    ensures !NoneRejected(Run(Begin(matches), Collision(i, j)))
  {
    var c := Collision(i, j);
    var t0 := Begin(matches);
    var t1 := Act(t0, c[0]);
    var t2 := Act(t1, c[1]);
    var t3 := Act(t2, c[2]);
    var t4 := Act(t3, c[3]);
    assert t3.writers[j].call == Sent(StartBody, 0) && |LogOf(t3.logs, matches[i])| == 1;
    assert t4.writers[j].call == Rejected;
    RunOfFour(t0, c);
  }

  lemma {:induction false} RunOfFour(t: Tier, c: seq<Action>)
    requires |c| == 4
    ensures Run(t, c) == Act(Act(Act(Act(t, c[0]), c[1]), c[2]), c[3])
  {
    assert c[..3][..2] == c[..2] && c[..2][..1] == c[..1] && c[..1][..0] == [];
    assert Run(t, c[..1]) == Act(Run(t, []), c[0]);
    assert Run(t, c[..2]) == Act(Run(t, c[..1]), c[1]);
    assert Run(t, c[..3]) == Act(Run(t, c[..2]), c[2]);
  }

  ghost predicate SafeForAll(matches: seq<string>) {
    forall actions :: NoneRejected(Run(Begin(matches), actions))
  }

  /** No interleaving has a rejected call if and only if no two writers score one match. */
  lemma {:induction false} SafeExactlyWhenNoRepeats(matches: seq<string>)
    ensures SafeForAll(matches) <==> NoRepeats(matches)
  {
    if NoRepeats(matches) {
      forall actions ensures NoneRejected(Run(Begin(matches), actions)) {
        BeginMatches(matches);
        RunOk(Begin(matches), actions);
        assert |MatchIds(Run(Begin(matches), actions))| == |matches|;
        forall i | 0 <= i < |matches| ensures !Run(Begin(matches), actions).writers[i].call.Rejected? {
          WorkloadSafe(matches, actions, i);
        }
      }
    } else {
      var i, j :| 0 <= i < j < |matches| && matches[i] == matches[j];
      CollisionRejects(matches, i, j);
    }
  }

  // ----- The matches of the in-process server -----

  function MockMatches(count: nat): (r: seq<string>)
    ensures |r| == count
  {
    seq(count, i requires 0 <= i < count => "mock-match-" + ToDecimal(i))
  }

  lemma {:induction false} MockMatchesSafe(count: nat)
    ensures SafeForAll(MockMatches(count))
  {
    var matches := MockMatches(count);
    forall i, j | 0 <= i < j < count ensures matches[i] != matches[j] {
      if matches[i] == matches[j] {
        DropPrefix("mock-match-", ToDecimal(i), ToDecimal(j));
        DecimalRoundTrip(i);
        DecimalRoundTrip(j);
        assert false;
      }
    }
    SafeExactlyWhenNoRepeats(matches);
  }

  // ----- Sharing out the operations -----

  function OperationsForStream(total: nat, index: nat, count: nat): nat
    requires count > 0
  {
    total / count + (if index < total % count then 1 else 0)
  }

  function SumOperations(total: nat, count: nat, streams: nat): nat
    requires count > 0
  {
    if streams == 0 then 0
    else SumOperations(total, count, streams - 1) + OperationsForStream(total, streams - 1, count)
  }

  lemma {:induction false} SumSoFar(total: nat, count: nat, streams: nat)
    requires count > 0
    ensures SumOperations(total, count, streams)
            == streams * (total / count) + (if streams < total % count then streams else total % count)
  {
    if streams > 0 {
      SumSoFar(total, count, streams - 1);
      assert streams * (total / count) == (streams - 1) * (total / count) + total / count;
    }
  }

  /** The streams' shares add up to the tier's operations and differ by at most one. */
  lemma {:induction false} SharesAddUp(total: nat, count: nat, i: nat, j: nat)
    requires count > 0 && i < count && j < count
    ensures SumOperations(total, count, count) == total
    ensures OperationsForStream(total, i, count) <= OperationsForStream(total, j, count) + 1
  {
    SumSoFar(total, count, count);
    assert count * (total / count) + total % count == total;
  }

  // ----- Closing the open reversals -----

  /** Closing in progress: the logs, the sessions, and whether every reversal so far was accepted. */
  datatype Closing = Closing(logs: Logs, sessions: seq<Session>, ok: bool)

  /** The accepted reversal of session `n`. */
  function CloseOne(logs: Logs, matches: seq<string>, sessions: seq<Session>, n: nat): (r: (Logs, seq<Session>))
    requires |matches| == |sessions| && n < |matches| && sessions[n].pending.Some?
    ensures |r.1| == |sessions|
  {
    (logs[matches[n] := LogOf(logs, matches[n]) + [Reversal(sessions[n].pending.value)]],
     sessions[n := Session(sessions[n].sequence + 1, None)])
  }

  /** `closeOpenReversals` from session `n` on: posts a reversal for each open point and stops at the
      first one that is refused. */
  function CloseFrom(logs: Logs, matches: seq<string>, sessions: seq<Session>, n: nat): Closing
    requires |matches| == |sessions| && n <= |matches|
    decreases |matches| - n
  {
    if n == |matches| then Closing(logs, sessions, true)
    else if sessions[n].pending.None? then CloseFrom(logs, matches, sessions, n + 1)
    else if sessions[n].sequence != |LogOf(logs, matches[n])| then Closing(logs, sessions, false)
    else
      var (logs', sessions') := CloseOne(logs, matches, sessions, n);
      CloseFrom(logs', matches, sessions', n + 1)
  }

  /** The server accepts the reversal of this session, or there is none to post. */
  predicate Closable(s: Session, log: seq<Event>) { s.pending.Some? ==> s.sequence == |log| }

  function ClosedLog(s: Session, log: seq<Event>): seq<Event> {
    if s.pending.Some? then log + [Reversal(s.pending.value)] else log
  }

  function ClosedSession(s: Session): Session {
    if s.pending.Some? then Session(s.sequence + 1, None) else s
  }

  ghost predicate AllClosable(logs: Logs, matches: seq<string>, sessions: seq<Session>, n: nat)
    requires |matches| == |sessions|
  {
    forall i :: n <= i < |matches| ==> Closable(sessions[i], LogOf(logs, matches[i]))
  }

  /** The reversals of the sessions from `n` on have reached the logs and the sessions. */
  ghost predicate ClosedSince(c: Closing, logs: Logs, matches: seq<string>, sessions: seq<Session>, n: nat)
    requires |matches| == |sessions| == |c.sessions|
  {
    forall i :: n <= i < |matches| ==>
      && LogOf(c.logs, matches[i]) == ClosedLog(sessions[i], LogOf(logs, matches[i]))
      && c.sessions[i] == ClosedSession(sessions[i])
  }

  /** What closing from `n` on leaves alone: earlier sessions and the logs of other matches. */
  lemma {:induction false} ClosingTouches(logs: Logs, matches: seq<string>, sessions: seq<Session>, n: nat, m: string)
    requires |matches| == |sessions| && n <= |matches| && forall i :: n <= i < |matches| ==> matches[i] != m
    ensures var c := CloseFrom(logs, matches, sessions, n);
            && |c.sessions| == |sessions| && c.sessions[..n] == sessions[..n]
            && LogOf(c.logs, m) == LogOf(logs, m)
    decreases |matches| - n
  {
    if n < |matches| {
      var s := sessions[n];
      if s.pending.None? {
        ClosingTouches(logs, matches, sessions, n + 1, m);
        assert CloseFrom(logs, matches, sessions, n).sessions[..n + 1][..n] == sessions[..n + 1][..n];
      } else if s.sequence == |LogOf(logs, matches[n])| {
        var (logs', sessions') := CloseOne(logs, matches, sessions, n);
        ClosingTouches(logs', matches, sessions', n + 1, m);
        assert CloseFrom(logs, matches, sessions, n).sessions[..n + 1][..n] == sessions'[..n + 1][..n] == sessions[..n];
      }
    }
  }

  /** For different matches closing succeeds exactly when no session with an open point is out of step,
      and then every log got its reversal and every session is closed. */
  lemma {:induction false} ClosingExact(logs: Logs, matches: seq<string>, sessions: seq<Session>, n: nat)
    requires |matches| == |sessions| && n <= |matches| && NoRepeats(matches)
    ensures var c := CloseFrom(logs, matches, sessions, n);
            && |c.sessions| == |sessions|
            && (c.ok <==> AllClosable(logs, matches, sessions, n))
            && (c.ok ==> ClosedSince(c, logs, matches, sessions, n))
    decreases |matches| - n
  {
    hide AllClosable, ClosedSince;
    if n == |matches| {
      NothingToClose(logs, matches, sessions);
    } else {
      if sessions[n].pending.None? {
        ClosingExact(logs, matches, sessions, n + 1);
        ClosingTouches(logs, matches, sessions, n + 1, matches[n]);
        FirstKept(CloseFrom(logs, matches, sessions, n).sessions, sessions, n);
      } else if sessions[n].sequence == |LogOf(logs, matches[n])| {
        var (logs', sessions') := CloseOne(logs, matches, sessions, n);
        ClosingExact(logs', matches, sessions', n + 1);
        ClosingTouches(logs', matches, sessions', n + 1, matches[n]);
        FirstKept(CloseFrom(logs, matches, sessions, n).sessions, sessions', n);
        OneAtATime(CloseFrom(logs, matches, sessions, n), logs, matches, sessions, n);
      }
      FirstAndRest(CloseFrom(logs, matches, sessions, n), logs, matches, sessions, n);
    }
  }

  lemma {:induction false} NothingToClose(logs: Logs, matches: seq<string>, sessions: seq<Session>)
    requires |matches| == |sessions|
    ensures AllClosable(logs, matches, sessions, |matches|)
    ensures ClosedSince(Closing(logs, sessions, true), logs, matches, sessions, |matches|)
  {
  }

  lemma {:induction false} FirstAndRest(c: Closing, logs: Logs, matches: seq<string>, sessions: seq<Session>, n: nat)
    requires |matches| == |sessions| == |c.sessions| && n < |matches|
    ensures AllClosable(logs, matches, sessions, n) <==>
            Closable(sessions[n], LogOf(logs, matches[n])) && AllClosable(logs, matches, sessions, n + 1)
    ensures ClosedSince(c, logs, matches, sessions, n) <==>
            && LogOf(c.logs, matches[n]) == ClosedLog(sessions[n], LogOf(logs, matches[n]))
            && c.sessions[n] == ClosedSession(sessions[n])
            && ClosedSince(c, logs, matches, sessions, n + 1)
  {
    hide Closable, ClosedLog, ClosedSession, LogOf;
  }

  /** Closing session `n` changes neither what the later sessions need nor what is asked of them. */
  lemma {:induction false} OneAtATime(c: Closing, logs: Logs, matches: seq<string>, sessions: seq<Session>, n: nat)
    requires |matches| == |sessions| == |c.sessions| && n < |matches| && NoRepeats(matches) && sessions[n].pending.Some?
    ensures var (logs', sessions') := CloseOne(logs, matches, sessions, n);
            && (AllClosable(logs', matches, sessions', n + 1) <==> AllClosable(logs, matches, sessions, n + 1))
            && (ClosedSince(c, logs', matches, sessions', n + 1) <==> ClosedSince(c, logs, matches, sessions, n + 1))
  {
    hide Closable, ClosedLog, ClosedSession;
    var (logs', sessions') := CloseOne(logs, matches, sessions, n);
    forall i | n < i < |matches|
      ensures sessions'[i] == sessions[i] && LogOf(logs', matches[i]) == LogOf(logs, matches[i])
    {
      assert matches[n] != matches[i];
    }
  }

  lemma {:induction false} FirstKept(s: seq<Session>, t: seq<Session>, n: nat)
    requires n < |s| == |t| && s[..n + 1] == t[..n + 1]
    ensures s[n] == t[n]
  {
    assert s[..n + 1][n] == t[..n + 1][n];
  }

  /** Every point has been reversed. */
  ghost predicate NoOpenPoint(log: seq<Event>) { Bounded(log) && (log == [] || |log| % 2 == 1) }

  lemma {:induction false} ClosedHasNoOpenPoint(s: Session, log: seq<Event>)
    requires InStep(s, log)
    ensures Closable(s, log) && NoOpenPoint(ClosedLog(s, log)) && InStep(ClosedSession(s), ClosedLog(s, log))
  {
    if s.pending.Some? { MutationKeepsStep(s, log, 0, 0); }
    if log != [] { assert FitsAt(log, |log| - 1); }
  }

  ghost predicate AllInStep(logs: Logs, matches: seq<string>, sessions: seq<Session>)
    requires |matches| == |sessions|
  {
    forall i :: 0 <= i < |matches| ==> InStep(sessions[i], LogOf(logs, matches[i]))
  }

  lemma {:induction false} ClosingInStep(logs: Logs, matches: seq<string>, sessions: seq<Session>)
    requires |matches| == |sessions| && NoRepeats(matches) && AllInStep(logs, matches, sessions)
    ensures var c := CloseFrom(logs, matches, sessions, 0);
            && c.ok && |c.sessions| == |sessions| && AllInStep(c.logs, matches, c.sessions)
            && forall i :: 0 <= i < |matches| ==> NoOpenPoint(LogOf(c.logs, matches[i]))
  {
    ClosingExact(logs, matches, sessions, 0);
    forall i | 0 <= i < |matches|
      ensures Closable(sessions[i], LogOf(logs, matches[i]))
      ensures NoOpenPoint(ClosedLog(sessions[i], LogOf(logs, matches[i])))
      ensures InStep(ClosedSession(sessions[i]), ClosedLog(sessions[i], LogOf(logs, matches[i])))
    {
      ClosedHasNoOpenPoint(sessions[i], LogOf(logs, matches[i]));
    }
  }

  function SessionsOf(t: Tier): (r: seq<Session>)
    ensures |r| == |t.writers|
  {
    seq(|t.writers|, i requires 0 <= i < |t.writers| => t.writers[i].session)
  }

  /** Once every writer of a workload on different matches has come to rest, after any interleaving,
      closing never fails, leaves no unreversed point and keeps the sessions in step. */
  lemma {:induction false} ClosingLeavesNoOpenPoint(matches: seq<string>, actions: seq<Action>)
    requires NoRepeats(matches)
    requires forall w :: w in Run(Begin(matches), actions).writers ==> w.call.Idle?
    ensures |Run(Begin(matches), actions).writers| == |matches|
    ensures var t := Run(Begin(matches), actions);
            var c := CloseFrom(t.logs, matches, SessionsOf(t), 0);
            && c.ok && |c.sessions| == |matches| && AllInStep(c.logs, matches, c.sessions)
            && forall i :: 0 <= i < |matches| ==> NoOpenPoint(LogOf(c.logs, matches[i]))
  {
    BeginMatches(matches);
    RunOk(Begin(matches), actions);
    var t := Run(Begin(matches), actions);
    assert |MatchIds(t)| == |matches|;
    forall i | 0 <= i < |matches| ensures InStep(SessionsOf(t)[i], LogOf(t.logs, matches[i])) {
      assert MatchIds(t)[i] == matches[i] && t.writers[i] in t.writers;
      assert WriterOk(t.writers[i], LogOf(t.logs, t.writers[i].matchId));
    }
    ClosingInStep(t.logs, matches, SessionsOf(t));
  }

  // ----- The server and the sessions as the source keeps them -----

  class ScoringServer {
    var logs: Logs
    var nextId: nat

    constructor ()
      ensures logs == map[]
    {
      logs, nextId := map[], 0;
    }

    /** Accepts a mutation exactly when the expected sequence is the current one. */
    method Post(matchId: string, expected: nat, body: Body) returns (eventId: Option<nat>)
      modifies this
      ensures eventId.Some? <==> expected == |LogOf(old(logs), matchId)|
      ensures eventId.Some? ==>
                logs == old(logs)[matchId := LogOf(old(logs), matchId) + [Recorded(body, eventId.value)]]
      ensures eventId.None? ==> logs == old(logs)
    {
      if expected != |LogOf(logs, matchId)| { return None; }
      eventId := Some(nextId);
      logs := logs[matchId := LogOf(logs, matchId) + [Recorded(body, nextId)]];
      nextId := nextId + 1;
    }
  }

  class ActiveSession {
    const matchId: string
    var state: Session

    constructor (matchId: string)
      ensures this.matchId == matchId && state == FRESH
    {
      this.matchId := matchId;
      state := FRESH;
    }

    /** One measured mutation: the session advances exactly when the server accepts it. */
    method Append(server: ScoringServer, step: nat) returns (accepted: bool)
      modifies this, server
      ensures accepted <==> old(state).sequence == |LogOf(old(server.logs), matchId)|
      ensures !accepted ==> state == old(state) && server.logs == old(server.logs)
      ensures accepted ==> exists eventId ::
                var body := NextBody(old(state), step);
                && state == Advance(old(state), body, eventId)
                && var log := LogOf(old(server.logs), matchId);
                   server.logs == old(server.logs)[matchId := log + [Recorded(body, eventId)]]
    {
      var body := NextBody(state, step);
      var eventId := server.Post(matchId, state.sequence, body);
      if eventId.None? { return false; }
      state := Advance(state, body, eventId.value);
      return true;
    }
  }

  function States(sessions: seq<ActiveSession>): (r: seq<Session>)
    reads sessions
    ensures |r| == |sessions|
  {
    seq(|sessions|, i requires 0 <= i < |sessions| reads sessions => sessions[i].state)
  }

  function Matches(sessions: seq<ActiveSession>): (r: seq<string>)
    ensures |r| == |sessions|
  {
    seq(|sessions|, i requires 0 <= i < |sessions| => sessions[i].matchId)
  }

  /** Posts the reversals one after the other; a refusal is an error and ends the loop. */
  method CloseOpenReversals(server: ScoringServer, sessions: seq<ActiveSession>) returns (ok: bool)
    requires forall i, j :: 0 <= i < j < |sessions| ==> sessions[i] != sessions[j]
    modifies server, sessions
    ensures Closing(server.logs, States(sessions), ok)
              == CloseFrom(old(server.logs), Matches(sessions), old(States(sessions)), 0)
  {
    ghost var matches := Matches(sessions);
    ghost var expected := CloseFrom(server.logs, matches, States(sessions), 0);
    for n := 0 to |sessions|
      invariant CloseFrom(server.logs, matches, States(sessions), n) == expected
    {
      var session := sessions[n];
      assert matches[n] == session.matchId && States(sessions)[n] == session.state;
      if session.state.pending.Some? {
        ghost var before := States(sessions);
        var reversal := ReversalBody(session.state.pending.value);
        var eventId := server.Post(session.matchId, session.state.sequence, reversal);
        if eventId.None? { return false; }
        session.state := Session(session.state.sequence + 1, None);
        assert States(sessions) == before[n := session.state];
      }
    }
    return true;
  }
}
