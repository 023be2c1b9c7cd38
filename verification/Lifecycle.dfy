/** The lifecycle run: prepare a namespace, probe a producer and a worker, shut both down, clean up,
    write a receipt. Every dependency call returns or throws as it likes. */
module Lifecycle {
  import opened RedisCleanup

  /** JavaScript can throw anything. The run tests what was thrown against undefined, and overwrites
      undefined and null alike. */
  datatype Thrown = Undefined | Null | Error(code: nat)

  datatype Reply<+T> = Returned(value: T) | Threw(error: Thrown)

  /** What each call does, should it be reached. `close2`, `stop2` and `cleanup2` are the calls of the
      finally block. */
  datatype Behaviour = Behaviour(
    guards: Reply<()>,
    prepare: Reply<()>,
    createProducer: Reply<()>,
    startWorker: Reply<()>,
    awaitStartup: Reply<()>,
    enqueue: Reply<()>,
    awaitProbe: Reply<()>,
    close: Reply<()>,
    stop: Reply<()>,
    cleanup: Reply<Receipt>,
    recheckTree: Reply<()>,
    sourceUnchanged: Reply<bool>,
    receiptFields: bool,
    evidencePath: Reply<()>,
    writeEvidence: Reply<()>,
    close2: Reply<()>,
    stop2: Reply<()>,
    cleanup2: Reply<Receipt>)

  datatype Outcome =
    | ReceiptWritten(ownedBefore: nat)
    | GuardFailed
    | RunFailed
    | CleanupIncomplete(cause: Thrown)
    | NamespaceRetained(cause: Thrown)

  datatype Event =
    | Prepared
    | ProducerClosed
    | WorkerStopped
    | CleanupStarted
    | CleanedUp
    | EvidenceWritten
    | Failed(error: Thrown)

  // ----- Thrown errors of the run itself -----

  const SOURCE_CHANGED := Error(1)
  const UNSAFE_RECEIPT := Error(2)

  /** `createGateCC5LifecycleReceipt` accepts this cleanup. */
  predicate ProvesCleanup(receipt: Receipt) {
    receipt.unrelatedGuardPreserved && receipt.initialOwnedKeyCount >= 1 && receipt.finalOwnedKeyCount == 0
  }

  // ----- What a run must keep -----

  /** Cleanup starts only once the producer has closed and the worker has stopped, and never after a
      cleanup has succeeded. */
  ghost predicate SafeAt(trace: seq<Event>, i: nat)
    requires i < |trace|
  {
    trace[i] == CleanupStarted ==>
      ProducerClosed in trace[..i] && WorkerStopped in trace[..i] && CleanedUp !in trace[..i]
  }

  ghost predicate Safe(trace: seq<Event>) { forall i :: 0 <= i < |trace| ==> SafeAt(trace, i) }

  predicate NamesNamespace(outcome: Outcome) { outcome.CleanupIncomplete? || outcome.NamespaceRetained? }

  /** Something other than undefined was thrown. */
  ghost predicate SomethingThrown(trace: seq<Event>) {
    exists error :: error != Undefined && Failed(error) in trace
  }

  lemma {:induction false} SafeSnoc(trace: seq<Event>, e: Event)
    requires Safe(trace)
    requires e == CleanupStarted ==> ProducerClosed in trace && WorkerStopped in trace && CleanedUp !in trace
    ensures Safe(trace + [e])
  {
    var longer := trace + [e];
    forall i | 0 <= i < |longer| ensures SafeAt(longer, i) {
      if i < |trace| {
        assert SafeAt(trace, i) && longer[..i] == trace[..i];
      } else {
        assert longer[..i] == trace;
      }
    }
  }

  // ----- The run -----

  /** The flags and the trace between two calls. */
  datatype State = State(
    producer: bool,
    worker: bool,
    producerStopped: bool,
    workerStopped: bool,
    ownershipPrepared: bool,
    cleanupPerformed: bool,
    trace: seq<Event>)

  const INITIAL := State(false, false, false, false, false, false, [])

  /** The flags say what the trace says. */
  ghost predicate Coherent(s: State) {
    && Safe(s.trace)
    && (s.ownershipPrepared <==> Prepared in s.trace)
    && (s.producerStopped <==> ProducerClosed in s.trace)
    && (s.workerStopped <==> WorkerStopped in s.trace)
    && (s.cleanupPerformed <==> CleanedUp in s.trace)
    && (s.cleanupPerformed ==> s.producerStopped && s.workerStopped && s.ownershipPrepared)
  }

  function Note(s: State, e: Event): State { s.(trace := s.trace + [e]) }

  /** The try block gets as far as closing the producer, and that returns. */
  predicate ClosesInTry(b: Behaviour) {
    && b.prepare.Returned? && b.createProducer.Returned? && b.startWorker.Returned? && b.awaitStartup.Returned?
    && b.enqueue.Returned? && b.awaitProbe.Returned? && b.close.Returned?
  }

  /** The namespace is cleaned up: by the try block, or by the finally block once both the producer and
      the worker, which must have been created, are down. */
  predicate CleansUp(b: Behaviour) {
    && b.prepare.Returned? && b.createProducer.Returned? && b.startWorker.Returned?
    && ((ProbeSucceeds(b) && b.cleanup.Returned?)
        || ((ClosesInTry(b) || b.close2.Returned?) && (ProbeSucceeds(b) || b.stop2.Returned?) && b.cleanup2.Returned?))
  }

  /** Every call up to the cleanup returns. */
  predicate ProbeSucceeds(b: Behaviour) { ClosesInTry(b) && b.stop.Returned? }

  /** Every call of the try block returns and the receipt proves a safe cleanup. */
  predicate Succeeds(b: Behaviour) {
    && ProbeSucceeds(b)
    && b.cleanup.Returned? && ProvesCleanup(b.cleanup.value)
    && b.recheckTree.Returned? && b.sourceUnchanged == Returned(true) && b.receiptFields
    && b.evidencePath.Returned? && b.writeEvidence.Returned?
  }

  /** What the first failing call of the try block up to its cleanup throws, or undefined. */
  function TryError(b: Behaviour): Thrown {
    if b.prepare.Threw? then b.prepare.error
    else if b.createProducer.Threw? then b.createProducer.error
    else if b.startWorker.Threw? then b.startWorker.error
    else if b.awaitStartup.Threw? then b.awaitStartup.error
    else if b.enqueue.Threw? then b.enqueue.error
    else if b.awaitProbe.Threw? then b.awaitProbe.error
    else if b.close.Threw? then b.close.error
    else if b.stop.Threw? then b.stop.error
    else if b.cleanup.Threw? then b.cleanup.error
    else Undefined
  }

  predicate ThrowsDefined<T>(reply: Reply<T>) { reply.Threw? && reply.error != Undefined }

  /** The calls of the finally block that are reached. */
  predicate ReachesClose2(b: Behaviour) { b.prepare.Returned? && b.createProducer.Returned? && !ClosesInTry(b) }

  predicate ReachesStop2(b: Behaviour) {
    b.prepare.Returned? && b.createProducer.Returned? && b.startWorker.Returned? && !ProbeSucceeds(b)
  }

  predicate ReachesCleanup2(b: Behaviour) {
    && b.prepare.Returned? && b.createProducer.Returned? && b.startWorker.Returned?
    && (ClosesInTry(b) || b.close2.Returned?) && (ProbeSucceeds(b) || b.stop2.Returned?)
    && !(ProbeSucceeds(b) && b.cleanup.Returned?)
  }

  /** A reached call of the finally block throws something other than undefined. */
  predicate ShutdownThrows(b: Behaviour) {
    || (ReachesClose2(b) && ThrowsDefined(b.close2))
    || (ReachesStop2(b) && ThrowsDefined(b.stop2))
    || (ReachesCleanup2(b) && ThrowsDefined(b.cleanup2))
  }

  /** `failure ??= error` */
  function OrElse(failure: Thrown, error: Thrown): Thrown { if failure.Error? then failure else error }

  /** What the catch clauses of the finally block leave in `shutdownFailure`: the first assigns, the
      others assign over undefined and null. */
  function ShutdownFailure(b: Behaviour): Thrown {
    var closing := if ReachesClose2(b) && b.close2.Threw? then b.close2.error else Undefined;
    var stopping := if ReachesStop2(b) && b.stop2.Threw? then OrElse(closing, b.stop2.error) else closing;
    if ReachesCleanup2(b) && b.cleanup2.Threw? then OrElse(stopping, b.cleanup2.error) else stopping
  }

  /** Both calls that shut down are reached, the first throws null and the second undefined. */
  predicate NullOverwritten(b: Behaviour) {
    && ReachesClose2(b) && b.close2 == Threw(Null)
    && ReachesStop2(b) && b.stop2 == Threw(Undefined)
  }

  /** The finally block forgets that it failed exactly when a null is overwritten by undefined. */
  lemma {:induction false} ShutdownFailureExact(b: Behaviour)
    ensures ShutdownFailure(b) != Undefined <==> ShutdownThrows(b) && !NullOverwritten(b)
  {
    if ReachesCleanup2(b) { assert !(ReachesClose2(b) && b.close2.Threw?) && !(ReachesStop2(b) && b.stop2.Threw?); }
  }

  /** Which failure the finally block reports: the first error that a reached call throws. A null counts
      only if no later call throws. */
  lemma {:induction false} FirstErrorStays(b: Behaviour)
    ensures ReachesClose2(b) && b.close2.Threw? && b.close2.error.Error? ==> ShutdownFailure(b) == b.close2.error
    ensures ReachesStop2(b) && b.stop2.Threw? && !(ReachesClose2(b) && b.close2.Threw? && b.close2.error.Error?) ==>
              ShutdownFailure(b) == b.stop2.error
    ensures ReachesClose2(b) && b.close2 == Threw(Null) && !(ReachesStop2(b) && b.stop2.Threw?) ==>
              ShutdownFailure(b) == Null
    ensures ReachesCleanup2(b) && b.cleanup2.Threw? ==> ShutdownFailure(b) == b.cleanup2.error
  {
    hide Succeeds;
  }

  /** The flags after the try block. */
  predicate AfterTry(s: State, b: Behaviour) {
    && (s.ownershipPrepared <==> b.prepare.Returned?)
    && (s.producer <==> b.prepare.Returned? && b.createProducer.Returned?)
    && (s.worker <==> b.prepare.Returned? && b.createProducer.Returned? && b.startWorker.Returned?)
    && (s.producerStopped <==> ClosesInTry(b))
    && (s.workerStopped <==> ProbeSucceeds(b))
    && (s.cleanupPerformed <==> ProbeSucceeds(b) && b.cleanup.Returned?)
  }

  /** The try block up to its cleanup: the state it leaves, and what it threw if it did. */
  method ProbeRun(b: Behaviour) returns (s: State, result: Reply<()>)
    ensures Coherent(s) && !s.cleanupPerformed
    ensures forall e :: Failed(e) !in s.trace
    ensures result.Returned? <==> ProbeSucceeds(b)
    ensures result.Threw? ==> result.error == TryError(b)
    ensures s.ownershipPrepared <==> b.prepare.Returned?
    ensures s.producer <==> b.prepare.Returned? && b.createProducer.Returned?
    ensures s.worker <==> b.prepare.Returned? && b.createProducer.Returned? && b.startWorker.Returned?
    ensures s.producerStopped <==> ClosesInTry(b)
    ensures s.workerStopped <==> ProbeSucceeds(b)
  {
    s := INITIAL;
    if b.prepare.Threw? { return s, Threw(b.prepare.error); }
    s := Note(s, Prepared).(ownershipPrepared := true);
    if b.createProducer.Threw? { return s, Threw(b.createProducer.error); }
    s := s.(producer := true);
    if b.startWorker.Threw? { return s, Threw(b.startWorker.error); }
    s := s.(worker := true);
    if b.awaitStartup.Threw? { return s, Threw(b.awaitStartup.error); }
    if b.enqueue.Threw? { return s, Threw(b.enqueue.error); }
    if b.awaitProbe.Threw? { return s, Threw(b.awaitProbe.error); }
    if b.close.Threw? { return s, Threw(b.close.error); }
    s := Note(s, ProducerClosed).(producerStopped := true);
    if b.stop.Threw? { return s, Threw(b.stop.error); }
    s := Note(s, WorkerStopped).(workerStopped := true);
    return s, Returned(());
  }

  /** The try block: the state it leaves, and what it threw or the receipt it returned. */
  method TryRun(b: Behaviour) returns (s: State, result: Reply<nat>)
    ensures Coherent(s) && AfterTry(s, b)
    ensures forall e :: Failed(e) !in s.trace
    ensures result.Returned? ==> s.cleanupPerformed && EvidenceWritten in s.trace
    ensures result.Returned? <==> Succeeds(b)
    ensures result.Threw? && !s.cleanupPerformed ==> result.error == TryError(b)
    ensures result.Returned? ==> result.value == b.cleanup.value.initialOwnedKeyCount
  {
    var probe;
    s, probe := ProbeRun(b);
    if probe.Threw? { return s, Threw(probe.error); }
    SafeSnoc(s.trace, CleanupStarted);
    s := Note(s, CleanupStarted);
    if b.cleanup.Threw? { return s, Threw(b.cleanup.error); }
    SafeSnoc(s.trace, CleanedUp);
    s := Note(s, CleanedUp).(cleanupPerformed := true);
    if b.recheckTree.Threw? { return s, Threw(b.recheckTree.error); }
    if b.sourceUnchanged.Threw? { return s, Threw(b.sourceUnchanged.error); }
    if !b.sourceUnchanged.value { return s, Threw(SOURCE_CHANGED); }
    if !ProvesCleanup(b.cleanup.value) || !b.receiptFields { return s, Threw(UNSAFE_RECEIPT); }
    if b.evidencePath.Threw? { return s, Threw(b.evidencePath.error); }
    if b.writeEvidence.Threw? { return s, Threw(b.writeEvidence.error); }
    SafeSnoc(s.trace, EvidenceWritten);
    s := Note(s, EvidenceWritten);
    return s, Returned(b.cleanup.value.initialOwnedKeyCount);
  }

  lemma {:induction false} FailedKeeps(s: State, error: Thrown)
    requires Coherent(s)
    ensures Coherent(Note(s, Failed(error)))
  {
    SafeSnoc(s.trace, Failed(error));
  }

  lemma {:induction false} ThrownNext(trace: seq<Event>, e: Event)
    ensures SomethingThrown(trace + [e]) <==> SomethingThrown(trace) || (e.Failed? && e.error != Undefined)
  {
    if SomethingThrown(trace) {
      var error :| error != Undefined && Failed(error) in trace;
      assert Failed(error) in trace + [e];
    }
    if e.Failed? && e.error != Undefined { assert Failed(e.error) in trace + [e]; }
  }

  /** Shutting down what is still running, and cleaning up if that is safe. */
  method FinallyRun(b: Behaviour, s0: State) returns (s: State, shutdownFailure: Thrown)
    requires Coherent(s0) && AfterTry(s0, b)
    ensures Coherent(s) && s.ownershipPrepared == s0.ownershipPrepared
    ensures s0.cleanupPerformed ==> s == s0
    ensures s.cleanupPerformed <==> CleansUp(b)
    ensures shutdownFailure == ShutdownFailure(b)
    ensures SomethingThrown(s.trace) <==> SomethingThrown(s0.trace) || ShutdownThrows(b)
  {
    hide Safe, SomethingThrown;
    s, shutdownFailure := s0, Undefined;
    if !s.producerStopped && s.producer {
      ThrownNext(s.trace, if b.close2.Threw? then Failed(b.close2.error) else ProducerClosed);
      if b.close2.Threw? {
        FailedKeeps(s, b.close2.error);
        s := Note(s, Failed(b.close2.error));
        shutdownFailure := b.close2.error;
      } else {
        SafeSnoc(s.trace, ProducerClosed);
        s := Note(s, ProducerClosed).(producerStopped := true);
      }
    }
    if !s.workerStopped && s.worker {
      ThrownNext(s.trace, if b.stop2.Threw? then Failed(b.stop2.error) else WorkerStopped);
      if b.stop2.Threw? {
        FailedKeeps(s, b.stop2.error);
        s := Note(s, Failed(b.stop2.error));
        shutdownFailure := OrElse(shutdownFailure, b.stop2.error);
      } else {
        SafeSnoc(s.trace, WorkerStopped);
        s := Note(s, WorkerStopped).(workerStopped := true);
      }
    }
    if s.ownershipPrepared && !s.cleanupPerformed && s.producerStopped && s.workerStopped {
      ThrownNext(s.trace, CleanupStarted);
      SafeSnoc(s.trace, CleanupStarted);
      s := Note(s, CleanupStarted);
      ThrownNext(s.trace, if b.cleanup2.Threw? then Failed(b.cleanup2.error) else CleanedUp);
      if b.cleanup2.Threw? {
        FailedKeeps(s, b.cleanup2.error);
        s := Note(s, Failed(b.cleanup2.error));
        shutdownFailure := OrElse(shutdownFailure, b.cleanup2.error);
      } else {
        SafeSnoc(s.trace, CleanedUp);
        s := Note(s, CleanedUp).(cleanupPerformed := true);
      }
    }
  }

  /** The whole run, whatever its dependencies do. Each outcome is decided by the behaviour of the
      dependencies: a namespace left behind is named exactly when something other than undefined was
      thrown, except that undefined thrown by the try block goes with a null that undefined overwrote. */
  method Run(b: Behaviour) returns (outcome: Outcome, trace: seq<Event>)
    ensures Safe(trace)
    ensures outcome.ReceiptWritten? <==> b.guards.Returned? && Succeeds(b)
    ensures outcome.ReceiptWritten? ==>
              && CleanedUp in trace && EvidenceWritten in trace
              && b.cleanup == Returned(Receipt(outcome.ownedBefore, 0, true)) && outcome.ownedBefore > 0
    ensures outcome.RunFailed? && b.guards.Returned? && ProbeSucceeds(b) && b.cleanup.Returned?
            && b.recheckTree.Returned? && b.sourceUnchanged == Returned(true) && b.receiptFields
            && b.evidencePath.Returned? && b.writeEvidence.Returned? ==>
              b.cleanup.value.initialOwnedKeyCount == 0 || b.cleanup.value.finalOwnedKeyCount > 0
              || !b.cleanup.value.unrelatedGuardPreserved
    ensures outcome.GuardFailed? <==> b.guards.Threw?
    ensures outcome.GuardFailed? ==> trace == []
    ensures Prepared in trace <==> b.guards.Returned? && b.prepare.Returned?
    ensures CleanedUp in trace <==> b.guards.Returned? && CleansUp(b)
    ensures outcome.CleanupIncomplete? <==> b.guards.Returned? && ShutdownThrows(b) && !NullOverwritten(b)
    ensures outcome.CleanupIncomplete? ==> outcome.cause == ShutdownFailure(b)
    ensures b.guards.Returned? && ReachesClose2(b) && b.close2.Threw? && b.close2.error.Error? ==>
              outcome == CleanupIncomplete(b.close2.error)
    ensures b.guards.Returned? && ReachesStop2(b) && ThrowsDefined(b.stop2)
            && !(ReachesClose2(b) && b.close2.Threw? && b.close2.error.Error?) ==>
              outcome == CleanupIncomplete(b.stop2.error)
    ensures b.guards.Returned? && ReachesClose2(b) && b.close2 == Threw(Null)
            && !(ReachesStop2(b) && b.stop2.Threw?) ==>
              outcome == CleanupIncomplete(Null)
    ensures b.guards.Returned? && ReachesCleanup2(b) && ThrowsDefined(b.cleanup2) ==>
              outcome == CleanupIncomplete(b.cleanup2.error)
    ensures outcome.NamespaceRetained? <==>
            && b.guards.Returned? && b.prepare.Returned? && !CleansUp(b)
            && ShutdownFailure(b) == Undefined && TryError(b) != Undefined
    ensures outcome.NamespaceRetained? ==> outcome.cause == TryError(b)
    ensures NamesNamespace(outcome) ==> Prepared in trace && CleanedUp !in trace
    ensures Prepared in trace && CleanedUp !in trace ==>
              (NamesNamespace(outcome) <==> TryError(b) != Undefined || ShutdownFailure(b) != Undefined)
    ensures Prepared in trace && CleanedUp !in trace ==>
              (NamesNamespace(outcome) <==>
               SomethingThrown(trace) && !(TryError(b) == Undefined && NullOverwritten(b)))
  {
    if b.guards.Threw? { return GuardFailed, []; }
    var s, result := TryRun(b);
    assert !SomethingThrown(s.trace);
    hide Safe, SomethingThrown, Succeeds;
    var thrown := Undefined;
    if result.Threw? {
      ThrownNext(s.trace, Failed(result.error));
      FailedKeeps(s, result.error);
      s := Note(s, Failed(result.error));
      thrown := result.error;
    }
    var shutdownFailure;
    s, shutdownFailure := FinallyRun(b, s);
    ShutdownFailureExact(b);
    FirstErrorStays(b);
    trace := s.trace;
    if shutdownFailure != Undefined { return CleanupIncomplete(shutdownFailure), trace; }
    if thrown != Undefined && s.ownershipPrepared && !s.cleanupPerformed { return NamespaceRetained(thrown), trace; }
    if result.Threw? { return RunFailed, trace; }
    return ReceiptWritten(result.value), trace;
  }

  /** No call throws anything but undefined. */
  predicate ThrowsOnlyUndefined(b: Behaviour) {
    && IsUndefined(b.prepare) && IsUndefined(b.createProducer) && IsUndefined(b.startWorker)
    && IsUndefined(b.awaitStartup) && IsUndefined(b.enqueue) && IsUndefined(b.awaitProbe)
    && IsUndefined(b.close) && IsUndefined(b.stop)
    && IsUndefined(b.cleanup) && IsUndefined(b.close2) && IsUndefined(b.stop2) && IsUndefined(b.cleanup2)
  }

  predicate IsUndefined<T>(reply: Reply<T>) { reply.Threw? ==> reply.error == Undefined }

  /** Undefined thrown everywhere is never reported. */
  lemma {:induction false} OnlyUndefinedIsSilent(b: Behaviour)
    requires ThrowsOnlyUndefined(b)
    ensures TryError(b) == Undefined && ShutdownFailure(b) == Undefined
  {
  }

  /** A producer that cannot be created, for a reason thrown as undefined: the prepared namespace is
      left behind and the error does not name it. */
  method UndefinedHidesNamespace() returns (outcome: Outcome, trace: seq<Event>)
    ensures Prepared in trace && CleanedUp !in trace && outcome == RunFailed
  {
    var ok: Reply<()> := Returned(());
    var none := Receipt(0, 0, false);
    var b := Behaviour(ok, ok, Threw(Undefined), ok, ok, ok, ok, ok, ok, Returned(none),
                       ok, Returned(true), true, ok, ok, ok, ok, Returned(none));
    outcome, trace := Run(b);
  }

  /** The finally block cannot close the producer, for a reason thrown as null, nor stop the worker, for
      one thrown as undefined, after the probe failed on undefined: again the namespace is not named. */
  method NullHidesNamespace() returns (b: Behaviour, outcome: Outcome, trace: seq<Event>)
    ensures ReachesClose2(b) && b.close2 == Threw(Null)
    ensures Prepared in trace && CleanedUp !in trace && outcome == RunFailed
  {
    var ok: Reply<()> := Returned(());
    var none := Receipt(0, 0, false);
    b := Behaviour(ok, ok, ok, ok, Threw(Undefined), ok, ok, ok, ok, Returned(none),
                       ok, Returned(true), true, ok, ok, Threw(Null), Threw(Undefined), Returned(none));
    outcome, trace := Run(b);
  }
}
