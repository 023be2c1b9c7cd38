/** Names, values and signatures that the fault drill and the verifier of its files have in common. */
module FaultEvidence {
  import opened Options
  import opened Texts

  datatype Fault =
    | PostgresInterruption | RedisInterruption | ApiInterruption | WebInterruption | WorkerInterruption | Latency
    | ConnectionPressure | OutboxDelay | DiskPressure | PdfFailure | BackupRestore | ProjectionRegeneration

  datatype Phase = Precondition | Inject | Degradation | Recover | Invariant | CleanUp

  datatype Lane = InjectionLane | RecoveryLane | CleanupLane

  const FAULTS: seq<Fault> := [
    PostgresInterruption, RedisInterruption, ApiInterruption, WebInterruption, WorkerInterruption, Latency,
    ConnectionPressure, OutboxDelay, DiskPressure, PdfFailure, BackupRestore, ProjectionRegeneration]

  const PHASES: seq<Phase> := [Precondition, Inject, Degradation, Recover, Invariant, CleanUp]

  function LanePhases(lane: Lane): seq<Phase> {
    match lane
    case InjectionLane => [Precondition, Inject, Degradation]
    case RecoveryLane => [Recover, Invariant]
    case CleanupLane => [CleanUp]
  }

  function FaultText(f: Fault): string {
    match f
    case PostgresInterruption => "postgres_interruption"
    case RedisInterruption => "redis_interruption"
    case ApiInterruption => "api_interruption"
    case WebInterruption => "web_interruption"
    case WorkerInterruption => "worker_interruption"
    case Latency => "latency"
    case ConnectionPressure => "connection_pressure"
    case OutboxDelay => "outbox_delay"
    case DiskPressure => "disk_pressure"
    case PdfFailure => "pdf_failure"
    case BackupRestore => "backup_restore"
    case ProjectionRegeneration => "projection_regeneration"
  }

  function PhaseText(p: Phase): string {
    match p
    case Precondition => "PRECONDITION"
    case Inject => "INJECT"
    case Degradation => "DEGRADATION"
    case Recover => "RECOVER"
    case Invariant => "INVARIANT"
    case CleanUp => "CLEANUP"
  }

  function LaneText(lane: Lane): string {
    match lane
    case InjectionLane => "injection"
    case RecoveryLane => "recovery"
    case CleanupLane => "cleanup"
  }

  function ComponentText(f: Fault): string {
    match f
    case PostgresInterruption => "postgresql"
    case RedisInterruption => "redis"
    case ApiInterruption => "api"
    case WebInterruption => "web"
    case WorkerInterruption => "worker"
    case Latency => "control_plane"
    case ConnectionPressure => "postgresql"
    case OutboxDelay => "worker"
    case DiskPressure => "postgresql"
    case PdfFailure => "worker"
    case BackupRestore => "postgresql"
    case ProjectionRegeneration => "worker"
  }

  lemma {:induction false} FaultLengths(f: Fault)
    ensures var n, c := |FaultText(f)|, FaultText(f)[0];
            f == (match n
                  case 21 => PostgresInterruption
                  case 18 => RedisInterruption
                  case 16 => if c == 'a' then ApiInterruption else WebInterruption
                  case 19 => if c == 'w' then WorkerInterruption else ConnectionPressure
                  case 7 => Latency
                  case 12 => OutboxDelay
                  case 13 => DiskPressure
                  case 11 => PdfFailure
                  case 14 => BackupRestore
                  case _ => ProjectionRegeneration)
  {
  }

  lemma {:induction false} FaultTextInjective(f: Fault, g: Fault)
    requires FaultText(f) == FaultText(g)
    ensures f == g
  {
    FaultLengths(f);
    FaultLengths(g);
  }

  lemma {:induction false} PhaseTextInjective(p: Phase, q: Phase)
    requires PhaseText(p) == PhaseText(q)
    ensures p == q
  {
    assert |PhaseText(p)| == |PhaseText(q)| && PhaseText(p)[0] == PhaseText(q)[0];
  }

  // ----- JSON values -----

  /** The member names of the records that are read or written; any other name is `KOther`. */
  datatype Key =
    | KProtocol | KSourceSha | KRunId | KDeploymentId | KBuildId | KComponent | KFault | KPhase
    | KNonce | KObservation | KAttestation | KNonceSha | KObservationSha | KAttestationSha
    | KArtifactKind | KLane | KPhases
    | KInjector | KInjectionSha | KRecoverySha | KCleanupSha | KRecoveryObserved | KCleanupObserved | KRecoveryOracle
    | KControlledFailures
    | KOther(name: string)

  datatype Value =
    | Null
    | Bool(b: bool)
    | Number(n: int)
    | Text(s: string)
    | List(items: seq<Value>)
    | Record(fields: map<Key, Value>)

  /** JSON.stringify and JSON.parse, and the two hashes. */
  datatype Primitives = Primitives(
    stringify: Value -> string,
    parse: string -> Option<Value>,
    sha256: string -> string,
    hmac: (string, string) -> string)

  predicate IsLowerHex(c: char) { '0' <= c <= '9' || 'a' <= c <= 'f' }

  /** `/^[a-f0-9]{64}$/` */
  predicate IsSha256(s: string) { |s| == 64 && forall i :: 0 <= i < |s| ==> IsLowerHex(s[i]) }

  /** `/^[a-f0-9]{40}$/` */
  predicate IsSourceSha(s: string) { |s| == 40 && forall i :: 0 <= i < |s| ==> IsLowerHex(s[i]) }

  const PROTOCOL := "gate-c-c5-fault-attestation-v1"
  const ARTIFACT_KIND := "gate-c-c5-sanitized-fault-attestations-v1"

  // ----- Signatures -----

  /** What the control plane signs. */
  datatype Statement = Statement(
    buildId: string, component: string, deploymentId: string, fault: string, nonce: string,
    observation: string, phase: string, protocol: string, runId: string, sourceSha: string)

  /** The `key=value` lines in the order of the sorted keys. */
  function Lines(s: Statement): (r: seq<string>)
    ensures |r| == 10
  {
    ["build_id=" + s.buildId, "component=" + s.component, "deployment_id=" + s.deploymentId, "fault=" + s.fault,
     "nonce=" + s.nonce, "observation=" + s.observation, "phase=" + s.phase, "protocol=" + s.protocol,
     "run_id=" + s.runId, "source_sha=" + s.sourceSha]
  }

  function Payload(s: Statement): string { Join(Lines(s), "\n") }

  function Sign(p: Primitives, secret: string, s: Statement): string { p.hmac(secret, Payload(s)) }

  ghost predicate OneLine(s: Statement) {
    && '\n' !in s.buildId && '\n' !in s.component && '\n' !in s.deploymentId && '\n' !in s.fault && '\n' !in s.nonce
    && '\n' !in s.observation && '\n' !in s.phase && '\n' !in s.protocol && '\n' !in s.runId && '\n' !in s.sourceSha
  }

  lemma {:induction false} SplitPayload(s: Statement)
    requires OneLine(s)
    ensures Split(Payload(s), '\n') == Lines(s)
  {
    SplitJoin(Lines(s), '\n');
  }

  /** The signed text determines the statement, as long as no value contains a line break. */
  lemma {:induction false} PayloadBinds(s: Statement, t: Statement)
    requires OneLine(s) && OneLine(t) && Payload(s) == Payload(t)
    ensures s == t
  {
    SplitPayload(s);
    SplitPayload(t);
    var l, m := Lines(s), Lines(t);
    assert l[0] == m[0] && l[1] == m[1] && l[2] == m[2] && l[3] == m[3] && l[4] == m[4];
    assert l[5] == m[5] && l[6] == m[6] && l[7] == m[7] && l[8] == m[8] && l[9] == m[9];
    DropPrefix("build_id=", s.buildId, t.buildId);
    DropPrefix("component=", s.component, t.component);
    DropPrefix("deployment_id=", s.deploymentId, t.deploymentId);
    DropPrefix("fault=", s.fault, t.fault);
    DropPrefix("nonce=", s.nonce, t.nonce);
    DropPrefix("observation=", s.observation, t.observation);
    DropPrefix("phase=", s.phase, t.phase);
    DropPrefix("protocol=", s.protocol, t.protocol);
    DropPrefix("run_id=", s.runId, t.runId);
    DropPrefix("source_sha=", s.sourceSha, t.sourceSha);
  }
}
