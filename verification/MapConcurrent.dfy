/** The worker pool that creates `count` results with a shared counter and a bounded number of calls
    in flight. */
module MapConcurrent {
  import opened Options

  datatype Worker = Free | Busy(index: nat) | Done

  /** `calls` lists the indices for which `create` was called, in order; `rejected` says that one of the
      calls was rejected. */
  datatype Pool<T> = Pool(next: nat, workers: seq<Worker>, output: seq<Option<T>>, calls: seq<nat>, rejected: bool)

  function Start<T>(count: nat, concurrency: nat): Pool<T> {
    Pool(0, seq(concurrency, _ => Free), seq(count, _ => None), [], false)
  }

  /** One turn of a worker: a free worker takes the next index and calls `create`, or stops; a busy
      worker stores its result, or stops when `create` rejects, which is None. Everything between two
      awaits is one turn. */
  function Turn<T>(p: Pool<T>, create: nat -> Option<T>, w: nat): Pool<T>
    requires w < |p.workers|
  {
    match p.workers[w]
    case Free =>
      if p.next >= |p.output| then p.(next := p.next + 1, workers := p.workers[w := Done])
      else p.(next := p.next + 1, workers := p.workers[w := Busy(p.next)], calls := p.calls + [p.next])
    case Busy(index) =>
      if index >= |p.output| then p
      else if create(index).None? then p.(workers := p.workers[w := Done], rejected := true)
      else p.(workers := p.workers[w := Free], output := p.output[index := create(index)])
    case Done => p
  }

  predicate Enabled<T>(p: Pool<T>, w: nat) { w < |p.workers| && p.workers[w] != Done }

  /** The turns of a schedule, skipping those of finished workers. */
  function Run<T>(p: Pool<T>, create: nat -> Option<T>, schedule: seq<nat>): Pool<T> {
    if schedule == [] then p
    else
      var before := Run(p, create, schedule[..|schedule| - 1]);
      var w := schedule[|schedule| - 1];
      if Enabled(before, w) then Turn(before, create, w) else before
  }

  // ----- The invariant -----

  function Taken<T>(p: Pool<T>): nat { if p.next < |p.output| then p.next else |p.output| }

  ghost predicate InFlight<T>(p: Pool<T>, i: nat) {
    exists w :: 0 <= w < |p.workers| && p.workers[w] == Busy(i)
  }

  ghost predicate Ok<T>(p: Pool<T>, create: nat -> Option<T>) {
    && |p.calls| == Taken(p) && (forall k :: 0 <= k < |p.calls| ==> p.calls[k] == k)
    && (forall w :: 0 <= w < |p.workers| && p.workers[w].Busy? ==> p.workers[w].index < Taken(p))
    && (forall v, w :: 0 <= v < w < |p.workers| && p.workers[v].Busy? ==> p.workers[v] != p.workers[w])
    && (forall w :: 0 <= w < |p.workers| && p.workers[w] == Done ==> p.next >= |p.output| || p.rejected)
    && (forall i :: 0 <= i < |p.output| ==>
          p.output[i] == if i < Taken(p) && !InFlight(p, i) then create(i) else None)
    && (p.rejected <==> exists i :: 0 <= i < Taken(p) && !InFlight(p, i) && create(i).None?)
  }

  lemma {:induction false} FlightAfter<T>(p: Pool<T>, w: nat, next: Worker, i: nat)
    requires w < |p.workers|
    requires forall v, x :: 0 <= v < x < |p.workers| && p.workers[v].Busy? ==> p.workers[v] != p.workers[x]
    ensures InFlight(p.(workers := p.workers[w := next]), i) <==>
            next == Busy(i) || (InFlight(p, i) && p.workers[w] != Busy(i))
  {
    var q := p.(workers := p.workers[w := next]);
    if InFlight(q, i) {
      var v :| 0 <= v < |q.workers| && q.workers[v] == Busy(i);
      if v != w { assert p.workers[v] == Busy(i); }
    }
    if next == Busy(i) { assert q.workers[w] == Busy(i); }
    if InFlight(p, i) && p.workers[w] != Busy(i) {
      var v :| 0 <= v < |p.workers| && p.workers[v] == Busy(i);
      assert q.workers[v] == Busy(i);
    }
  }

  lemma {:induction false} FlightAfterTurn<T>(p: Pool<T>, create: nat -> Option<T>, w: nat, i: nat)
    requires Ok(p, create) && w < |p.workers|
    ensures var q := Turn(p, create, w);
            InFlight(q, i) <==> q.workers[w] == Busy(i) || (InFlight(p, i) && p.workers[w] != Busy(i))
  {
    var q := Turn(p, create, w);
    FlightAfter(p, w, q.workers[w], i);
    assert InFlight(q, i) <==> InFlight(p.(workers := q.workers), i);
  }

  /** A rejection is on record exactly when a call that is no longer in flight was rejected. */
  lemma {:induction false} TurnRejects<T>(p: Pool<T>, create: nat -> Option<T>, w: nat)
    requires Ok(p, create) && w < |p.workers|
    ensures var q := Turn(p, create, w);
            q.rejected <==> exists i :: 0 <= i < Taken(q) && !InFlight(q, i) && create(i).None?
  {
    var q := Turn(p, create, w);
    forall i ensures InFlight(q, i) <==> q.workers[w] == Busy(i) || (InFlight(p, i) && p.workers[w] != Busy(i)) {
      if i >= 0 { FlightAfterTurn(p, create, w, i); }
    }
    if p.workers[w].Busy? { assert InFlight(p, p.workers[w].index); }
    if p.rejected {
      var i :| 0 <= i < Taken(p) && !InFlight(p, i) && create(i).None?;
      assert !InFlight(q, i);
    } else if q.rejected {
      assert !InFlight(q, p.workers[w].index);
    }
    if exists i :: 0 <= i < Taken(q) && !InFlight(q, i) && create(i).None? {
      var i :| 0 <= i < Taken(q) && !InFlight(q, i) && create(i).None?;
      assert i < Taken(p);
    }
  }

  lemma {:induction false} TurnOutput<T>(p: Pool<T>, create: nat -> Option<T>, w: nat, i: nat)
    requires Ok(p, create) && w < |p.workers| && i < |p.output|
    ensures var q := Turn(p, create, w);
            |q.output| == |p.output| && q.output[i] == if i < Taken(q) && !InFlight(q, i) then create(i) else None
  {
    FlightAfterTurn(p, create, w, i);
    if p.workers[w].Busy? && p.workers[w].index == i { assert InFlight(p, i); }
  }

  lemma {:induction false} TurnKeeps<T>(p: Pool<T>, create: nat -> Option<T>, w: nat)
    requires Ok(p, create) && w < |p.workers|
    ensures Ok(Turn(p, create, w), create)
  {
    hide InFlight;
    var q := Turn(p, create, w);
    TurnRejects(p, create, w);
    forall i | 0 <= i < |q.output|
      ensures q.output[i] == if i < Taken(q) && !InFlight(q, i) then create(i) else None
    {
      TurnOutput(p, create, w, i);
    }
  }

  lemma {:induction false} RunKeeps<T>(count: nat, concurrency: nat, create: nat -> Option<T>, schedule: seq<nat>)
    ensures var p := Run(Start(count, concurrency), create, schedule);
            Ok(p, create) && |p.output| == count && |p.workers| == concurrency
  {
    if schedule != [] {
      var before := Run(Start(count, concurrency), create, schedule[..|schedule| - 1]);
      var w := schedule[|schedule| - 1];
      RunKeeps(count, concurrency, create, schedule[..|schedule| - 1]);
      if Enabled(before, w) { TurnKeeps(before, create, w); }
    }
  }

  // ----- Calls in flight -----

  function CountBusy(workers: seq<Worker>): nat {
    if workers == [] then 0 else CountBusy(workers[..|workers| - 1]) + (if workers[|workers| - 1].Busy? then 1 else 0)
  }

  function CountRunning(workers: seq<Worker>): nat {
    if workers == [] then 0
    else CountRunning(workers[..|workers| - 1]) + (if workers[|workers| - 1] == Done then 0 else 1)
  }

  lemma {:induction false} CountUpdate(workers: seq<Worker>, w: nat, next: Worker)
    requires w < |workers|
    ensures CountBusy(workers[w := next])
            == CountBusy(workers) + (if next.Busy? then 1 else 0) - (if workers[w].Busy? then 1 else 0)
    ensures CountRunning(workers[w := next])
            == CountRunning(workers) + (if next == Done then 0 else 1) - (if workers[w] == Done then 0 else 1)
  {
    var n := |workers| - 1;
    if w == n {
      assert workers[w := next][..n] == workers[..n];
    } else {
      CountUpdate(workers[..n], w, next);
      assert workers[w := next][..n] == workers[..n][w := next];
    }
  }

  lemma {:induction false} CountBounds(workers: seq<Worker>)
    ensures CountBusy(workers) <= CountRunning(workers) <= |workers|
  {
    if workers != [] { CountBounds(workers[..|workers| - 1]); }
  }

  // ----- Termination -----

  /** What is left to do; every effective turn takes one off, a rejection two. */
  function Remaining<T>(p: Pool<T>): nat {
    2 * (|p.output| - Taken(p)) + CountBusy(p.workers) + CountRunning(p.workers)
  }

  lemma {:induction false} TurnProgresses<T>(p: Pool<T>, create: nat -> Option<T>, w: nat)
    requires Ok(p, create) && Enabled(p, w)
    ensures Remaining(Turn(p, create, w))
            == Remaining(p) - (if p.workers[w].Busy? && create(p.workers[w].index).None? then 2 else 1)
  {
    var q := Turn(p, create, w);
    CountUpdate(p.workers, w, q.workers[w]);
  }

  function EffectiveTurns<T>(p: Pool<T>, create: nat -> Option<T>, schedule: seq<nat>): nat {
    if schedule == [] then 0
    else
      var before := Run(p, create, schedule[..|schedule| - 1]);
      EffectiveTurns(p, create, schedule[..|schedule| - 1])
      + (if Enabled(before, schedule[|schedule| - 1]) then 1 else 0)
  }

  lemma {:induction false} StartRemaining<T>(count: nat, concurrency: nat)
    ensures Remaining(Start<T>(count, concurrency)) == 2 * count + concurrency
  {
    FreeCounts(concurrency);
  }

  lemma {:induction false} FreeCounts(n: nat)
    ensures CountBusy(seq(n, _ => Free)) == 0 && CountRunning(seq(n, _ => Free)) == n
  {
    if n > 0 {
      FreeCounts(n - 1);
      assert seq(n, _ => Free)[..n - 1] == seq(n - 1, _ => Free);
    }
  }

  /** However the workers are scheduled there are at most 2 * count + concurrency turns, and never more
      than `concurrency` calls in flight. */
  lemma {:induction false} RunsAreBounded<T>(count: nat, concurrency: nat, create: nat -> Option<T>, schedule: seq<nat>)
    ensures var p := Run(Start(count, concurrency), create, schedule);
            && EffectiveTurns(Start(count, concurrency), create, schedule) + Remaining(p) <= 2 * count + concurrency
            && (!p.rejected ==>
                  EffectiveTurns(Start(count, concurrency), create, schedule) + Remaining(p) == 2 * count + concurrency)
            && CountBusy(p.workers) <= concurrency
  {
    RunKeeps(count, concurrency, create, schedule);
    CountBounds(Run(Start(count, concurrency), create, schedule).workers);
    if schedule == [] {
      StartRemaining<T>(count, concurrency);
    } else {
      var before := Run(Start(count, concurrency), create, schedule[..|schedule| - 1]);
      RunKeeps(count, concurrency, create, schedule[..|schedule| - 1]);
      RunsAreBounded(count, concurrency, create, schedule[..|schedule| - 1]);
      if Enabled(before, schedule[|schedule| - 1]) { TurnProgresses(before, create, schedule[|schedule| - 1]); }
    }
  }

  // ----- The result -----

  ghost predicate Finished<T>(p: Pool<T>) { forall w :: 0 <= w < |p.workers| ==> p.workers[w] == Done }

  /** `create` was called once for each index in order, and each result is in its place. */
  ghost predicate Complete<T>(p: Pool<T>, create: nat -> Option<T>) {
    && (forall i :: 0 <= i < |p.output| ==> p.output[i].Some? && p.output[i] == create(i))
    && |p.calls| == |p.output| && forall k :: 0 <= k < |p.calls| ==> p.calls[k] == k
  }

  ghost predicate AllResolve<T>(count: nat, create: nat -> Option<T>) { forall i :: 0 <= i < count ==> create(i).Some? }

  /** With all workers finished and at least one of them, the call is rejected exactly when some `create`
      rejects: a rejecting index is reached unless all workers stopped on other rejections before it. */
  lemma {:induction false} RejectedExactly<T>(p: Pool<T>, create: nat -> Option<T>)
    requires Ok(p, create) && Finished(p) && |p.workers| >= 1
    ensures p.rejected <==> !AllResolve(|p.output|, create)
  {
    forall i ensures !InFlight(p, i) {}
    if !p.rejected { assert p.workers[0] == Done; }
  }

  /** When every worker has finished, `create` was called exactly once for each index and every result
      is in its place, if and only if there was nothing to do, or there was a worker and no call rejects. */
  lemma {:induction false} FinishedIsComplete<T>(
      count: nat, concurrency: nat, create: nat -> Option<T>, schedule: seq<nat>)
    requires Finished(Run(Start(count, concurrency), create, schedule))
    ensures Complete(Run(Start(count, concurrency), create, schedule), create) <==>
            count == 0 || (concurrency >= 1 && AllResolve(count, create))
  {
    var p := Run(Start(count, concurrency), create, schedule);
    RunKeeps(count, concurrency, create, schedule);
    if concurrency >= 1 {
      RejectedExactly(p, create);
      assert p.workers[0] == Done;
      forall i | 0 <= i < count && !p.rejected ensures p.output[i] == create(i) {
        assert !InFlight(p, i);
      }
    } else if count > 0 {
      NoWorkers(count, create, schedule);
      assert p.output[0] == None;
    }
  }

  lemma {:induction false} NoWorkers<T>(count: nat, create: nat -> Option<T>, schedule: seq<nat>)
    ensures Run(Start(count, 0), create, schedule) == Start<T>(count, 0)
  {
    if schedule != [] { NoWorkers(count, create, schedule[..|schedule| - 1]); }
  }

  // ----- The pool as the source runs it -----

  /** Workers that share a counter and write into one output array, scheduled in any order, until all have
      stopped. The call as a whole is rejected exactly when some `create` rejects. */
  method MapConcurrently<T>(count: nat, concurrency: nat, create: nat -> Option<T>)
      returns (output: array<Option<T>>, calls: seq<nat>, rejected: bool)
    requires concurrency >= 1
    ensures fresh(output) && output.Length == count
    ensures rejected <==> !AllResolve(count, create)
    ensures !rejected ==> forall i :: 0 <= i < count ==> output[i] == create(i)
    ensures |calls| <= count && forall k :: 0 <= k < |calls| ==> calls[k] == k
    ensures !rejected ==> |calls| == count
  {
    output := new Option<T>[count](_ => None);
    calls, rejected := [], false;
    var next := 0;
    var workers := seq(concurrency, _ => Free);
    ghost var pool := Start<T>(count, concurrency);
    assert output[..] == pool.output;
    while exists w :: 0 <= w < |workers| && workers[w] != Done
      invariant |workers| == concurrency && output.Length == count
      invariant pool == Pool(next, workers, output[..], calls, rejected) && Ok(pool, create)
      decreases Remaining(pool)
    {
      var w :| 0 <= w < |workers| && workers[w] != Done;
      TurnKeeps(pool, create, w);
      TurnProgresses(pool, create, w);
      pool := Turn(pool, create, w);
      if workers[w].Busy? {
        var index := workers[w].index;
        var result := create(index);
        if result.None? {
          workers, rejected := workers[w := Done], true;
        } else {
          output[index] := result;
          workers := workers[w := Free];
        }
      } else {
        var index := next;
        next := next + 1;
        if index >= count {
          workers := workers[w := Done];
        } else {
          calls := calls + [index];
          workers := workers[w := Busy(index)];
        }
      }
      assert pool.output == output[..];
    }
    RejectedExactly(pool, create);
    assert workers[0] == Done;
    forall i | 0 <= i < count && !rejected ensures output[i] == create(i) {
      assert !InFlight(pool, i);
      assert output[..][i] == output[i];
    }
  }
}
