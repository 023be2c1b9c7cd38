/** One controlled fault drill: five phases up to the first failure, then the cleanup phase, then the
    three evidence files and the receipt. */
module FaultDrill {
  import opened Options
  import opened FaultEvidence
  import Texts

  /** What the hooks are created with. */
  datatype Config = Config(sourceSha: string, runId: string, deploymentId: string, buildId: string, secret: string)

  /** What a phase must attest, besides its observation. */
  datatype Expected = Expected(fault: Fault, phase: Phase, nonce: string)

  /** A command fails, emits too much or something that is no JSON (None), or replies. */
  datatype Reply = CommandFailed | Replied(body: Option<Value>)

  // ----- One phase -----

  const ATTESTED_KEYS: set<Key> := {
    KProtocol, KSourceSha, KRunId, KDeploymentId, KBuildId, KComponent, KFault, KPhase,
    KNonce, KObservation, KAttestation}

  const SANITIZED_KEYS: set<Key> := {
    KProtocol, KSourceSha, KRunId, KDeploymentId, KBuildId, KComponent, KFault, KPhase,
    KNonceSha, KObservationSha, KAttestationSha}

  predicate IsNonceChar(c: char) { IsLowerHex(c) || c == '-' }

  predicate IsNonce(s: string) { |s| == 36 && forall i :: 0 <= i < |s| ==> IsNonceChar(s[i]) }

  predicate IsObservationChar(c: char) { 'a' <= c <= 'z' || '0' <= c <= '9' || c in "_.:-" }

  /** `/^[a-z][a-z0-9_.:-]{2,255}$/` */
  predicate IsObservation(s: string) {
    3 <= |s| <= 256 && 'a' <= s[0] <= 'z' && forall i :: 0 <= i < |s| ==> IsObservationChar(s[i])
  }

  function StatementOf(c: Config, e: Expected, observation: string): Statement {
    Statement(c.buildId, ComponentText(e.fault), c.deploymentId, FaultText(e.fault), e.nonce,
              observation, PhaseText(e.phase), PROTOCOL, c.runId, c.sourceSha)
  }

  /** The members common to the attestation and its sanitised form. */
  function Identity(c: Config, fault: Fault, phase: Phase): map<Key, Value> {
    map[KProtocol := Text(PROTOCOL), KSourceSha := Text(c.sourceSha), KRunId := Text(c.runId),
        KDeploymentId := Text(c.deploymentId), KBuildId := Text(c.buildId), KComponent := Text(ComponentText(fault)),
        KFault := Text(FaultText(fault)), KPhase := Text(PhaseText(phase))]
  }

  function Sanitized(c: Config, p: Primitives, e: Expected, observation: string, attestation: string): Value {
    Record(Identity(c, e.fault, e.phase)
           + map[KNonceSha := Text(p.sha256(e.nonce)), KObservationSha := Text(p.sha256(observation)),
                 KAttestationSha := Text(p.sha256(attestation))])
  }

  /** The attestation of a phase that is not malformed, mismatched or wrongly signed. */
  predicate Attests(c: Config, p: Primitives, e: Expected, fields: map<Key, Value>) {
    && fields.Keys == ATTESTED_KEYS
    && (forall k :: k in Identity(c, e.fault, e.phase) ==> fields[k] == Identity(c, e.fault, e.phase)[k])
    && fields[KNonce] == Text(e.nonce) && IsNonce(e.nonce)
    && fields[KObservation].Text? && IsObservation(fields[KObservation].s)
    && fields[KAttestation].Text? && IsSha256(fields[KAttestation].s)
    && fields[KAttestation].s == Sign(p, c.secret, StatementOf(c, e, fields[KObservation].s))
  }

  /** `invoke` and `parseAttestation`: the sanitised phase, or None when either throws. */
  function Invoke(c: Config, p: Primitives, e: Expected, reply: Reply): Option<Value> {
    if reply.CommandFailed? || reply.body.None? || !reply.body.value.Record? then None
    else
      var fields := reply.body.value.fields;
      if !Attests(c, p, e, fields) then None
      else Some(Sanitized(c, p, e, fields[KObservation].s, fields[KAttestation].s))
  }

  lemma {:induction false} StatementsBind(c: Config, c': Config, e: Expected, e': Expected, observation: string,
        observation': string)
    requires StatementOf(c, e, observation) == StatementOf(c', e', observation')
    requires c.secret == c'.secret
    ensures c == c' && e == e' && observation == observation'
  {
    FaultTextInjective(e.fault, e'.fault);
    PhaseTextInjective(e.phase, e'.phase);
  }

  lemma {:induction false} AttestedKey(c: Config, fault: Fault, phase: Phase, k: Key)
    requires k in ATTESTED_KEYS
    ensures k in Identity(c, fault, phase) || k == KNonce || k == KObservation || k == KAttestation
  {
  }

  lemma {:induction false} FieldsAgree(c: Config, p: Primitives, e: Expected, fields: map<Key, Value>,
        fields': map<Key, Value>)
    requires Attests(c, p, e, fields) && Attests(c, p, e, fields')
    requires fields[KAttestation] == fields'[KAttestation] && fields[KObservation] == fields'[KObservation]
    ensures fields == fields'
  {
    var identity := Identity(c, e.fault, e.phase);
    assert forall k :: k in identity ==> fields[k] == identity[k] && fields'[k] == identity[k];
    forall k | k in fields ensures fields[k] == fields'[k] {
      AttestedKey(c, e.fault, e.phase, k);
      assert k in identity || k == KNonce || k == KObservation || k == KAttestation;
    }
  }

  /** The payload that an attestation of these fields signs. */
  function PayloadOf(c: Config, e: Expected, fields: map<Key, Value>): string
    requires KObservation in fields && fields[KObservation].Text?
  {
    Payload(StatementOf(c, e, fields[KObservation].s))
  }

  /** No identifier of the run holds a line break. */
  ghost predicate OneLineConfig(c: Config) {
    '\n' !in c.sourceSha && '\n' !in c.runId && '\n' !in c.deploymentId && '\n' !in c.buildId
  }

  /** An accepted nonce and an accepted observation have no line break. */
  lemma {:induction false} StatementIsOneLine(c: Config, e: Expected, observation: string)
    requires OneLineConfig(c) && IsNonce(e.nonce) && IsObservation(observation)
    ensures OneLine(StatementOf(c, e, observation))
  {
    hide FaultText, ComponentText, PhaseText;
    FaultIsOneLine(e.fault);
    ComponentAndPhaseAreOneLine(e.fault, e.phase);
    assert !IsNonceChar('\n') && !IsObservationChar('\n');
  }

  lemma {:induction false} FaultIsOneLine(f: Fault)
    ensures '\n' !in FaultText(f)
  {
    hide FaultText;
    match f
    case PostgresInterruption | RedisInterruption | ConnectionPressure | BackupRestore => StoreFaultIsOneLine(f);
    case ApiInterruption | WebInterruption | WorkerInterruption | Latency => ProcessFaultIsOneLine(f);
    case _ => OtherFaultIsOneLine(f);
  }

  lemma {:induction false} StoreFaultIsOneLine(f: Fault)
    requires f.PostgresInterruption? || f.RedisInterruption? || f.ConnectionPressure? || f.BackupRestore?
    ensures '\n' !in FaultText(f)
  {
  }

  lemma {:induction false} ProcessFaultIsOneLine(f: Fault)
    requires f.ApiInterruption? || f.WebInterruption? || f.WorkerInterruption? || f.Latency?
    ensures '\n' !in FaultText(f)
  {
  }

  lemma {:induction false} OtherFaultIsOneLine(f: Fault)
    requires f.OutboxDelay? || f.DiskPressure? || f.PdfFailure? || f.ProjectionRegeneration?
    ensures '\n' !in FaultText(f)
  {
  }

  lemma {:induction false} ComponentAndPhaseAreOneLine(f: Fault, phase: Phase)
    ensures '\n' !in ComponentText(f) && '\n' !in PhaseText(phase)
  {
  }

  /** A reply is accepted only for the phase, nonce, fault, run and build it was signed for, unless the
      HMAC collides on just the two secrets and payloads at hand. */
  lemma {:induction false} AttestationIsBound(c: Config, c': Config, p: Primitives, e: Expected, e': Expected,
                                              fields: map<Key, Value>, fields': map<Key, Value>)
    requires Attests(c, p, e, fields) && Attests(c', p, e', fields')
    requires p.hmac(c.secret, PayloadOf(c, e, fields)) == p.hmac(c'.secret, PayloadOf(c', e', fields')) ==>
               c.secret == c'.secret && PayloadOf(c, e, fields) == PayloadOf(c', e', fields')
    requires fields[KAttestation] == fields'[KAttestation]
    requires OneLineConfig(c) && OneLineConfig(c')
    ensures c == c' && e == e' && fields == fields'
  {
    StatementIsOneLine(c, e, fields[KObservation].s);
    StatementIsOneLine(c', e', fields'[KObservation].s);
    PayloadBinds(StatementOf(c, e, fields[KObservation].s), StatementOf(c', e', fields'[KObservation].s));
    StatementsBind(c, c', e, e', fields[KObservation].s, fields'[KObservation].s);
    FieldsAgree(c, p, e, fields, fields');
  }

  // ----- The one accepted reply -----

  /** What the control plane signs in a phase, line by line. */
  function SignedText(c: Config, e: Expected, observation: string): string {
    "build_id=" + c.buildId + "\n" + ("component=" + ComponentText(e.fault) + "\n"
      + ("deployment_id=" + c.deploymentId + "\n" + ("fault=" + FaultText(e.fault) + "\n"
      + ("nonce=" + e.nonce + "\n" + ("observation=" + observation + "\n" + ("phase=" + PhaseText(e.phase) + "\n"
      + ("protocol=" + PROTOCOL + "\n" + ("run_id=" + c.runId + "\n" + ("source_sha=" + c.sourceSha)))))))))
  }

  lemma {:induction false} JoinFrom(lines: seq<string>, i: nat)
    requires i < |lines| - 1
    ensures Texts.Join(lines[i..], "\n") == lines[i] + "\n" + Texts.Join(lines[i + 1..], "\n")
  {
    assert lines[i..][1..] == lines[i + 1..];
  }

  lemma {:induction false} JoinTen(l: seq<string>)
    requires |l| == 10
    ensures Texts.Join(l, "\n") == l[0] + "\n" + (l[1] + "\n" + (l[2] + "\n" + (l[3] + "\n" + (l[4] + "\n"
              + (l[5] + "\n" + (l[6] + "\n" + (l[7] + "\n" + (l[8] + "\n" + l[9]))))))))
  {
    assert l[0..] == l && l[9..] == [l[9]];
    assert Texts.Join(l[9..], "\n") == l[9];
    hide Texts.Join;
    JoinFrom(l, 0);
    JoinFrom(l, 1);
    JoinFrom(l, 2);
    JoinFrom(l, 3);
    JoinFrom(l, 4);
    JoinFrom(l, 5);
    JoinFrom(l, 6);
    JoinFrom(l, 7);
    JoinFrom(l, 8);
  }

  lemma {:induction false} PayloadReads(c: Config, e: Expected, observation: string)
    ensures Payload(StatementOf(c, e, observation)) == SignedText(c, e, observation)
  {
    hide Texts.Join, ComponentText, FaultText, PhaseText;
    JoinTen(Lines(StatementOf(c, e, observation)));
  }

  /** The reply of a control plane that has made this observation and knows the secret. */
  function HonestReply(c: Config, p: Primitives, e: Expected, observation: string): map<Key, Value> {
    map[KProtocol := Text(PROTOCOL), KSourceSha := Text(c.sourceSha), KRunId := Text(c.runId),
        KDeploymentId := Text(c.deploymentId), KBuildId := Text(c.buildId), KComponent := Text(ComponentText(e.fault)),
        KFault := Text(FaultText(e.fault)), KPhase := Text(PhaseText(e.phase)), KNonce := Text(e.nonce),
        KObservation := Text(observation),
        KAttestation := Text(p.hmac(c.secret, SignedText(c, e, observation)))]
  }

  lemma {:induction false} HonestKeys(c: Config, p: Primitives, e: Expected, observation: string)
    ensures HonestReply(c, p, e, observation).Keys == ATTESTED_KEYS
    ensures forall k :: k in Identity(c, e.fault, e.phase) ==>
              k in HonestReply(c, p, e, observation)
              && HonestReply(c, p, e, observation)[k] == Identity(c, e.fault, e.phase)[k]
  {
    hide ComponentText, FaultText, PhaseText, SignedText;
  }

  lemma {:induction false} HonestAttests(c: Config, p: Primitives, e: Expected, observation: string)
    requires IsNonce(e.nonce) && IsObservation(observation)
    requires IsSha256(p.hmac(c.secret, SignedText(c, e, observation)))
    ensures Attests(c, p, e, HonestReply(c, p, e, observation))
  {
    hide ComponentText, FaultText, PhaseText, SignedText, Payload, IsSha256, IsNonce, IsObservation, Identity;
    HonestKeys(c, p, e, observation);
    PayloadReads(c, e, observation);
  }

  lemma {:induction false} AttestedIsHonest(c: Config, p: Primitives, e: Expected, fields: map<Key, Value>)
    requires Attests(c, p, e, fields)
    ensures fields[KObservation].Text? && IsObservation(fields[KObservation].s) && IsNonce(e.nonce)
    ensures fields == HonestReply(c, p, e, fields[KObservation].s)
    ensures IsSha256(p.hmac(c.secret, SignedText(c, e, fields[KObservation].s)))
  {
    hide ComponentText, FaultText, PhaseText, SignedText, Payload, IsSha256, IsNonce, IsObservation;
    var observation := fields[KObservation].s;
    PayloadReads(c, e, observation);
    HonestKeys(c, p, e, observation);
    var honest := HonestReply(c, p, e, observation);
    forall k | k in fields ensures fields[k] == honest[k] { AttestedKey(c, e.fault, e.phase, k); }
  }

  /** The reply is the honest one for this observation. */
  ghost predicate IsHonest(c: Config, p: Primitives, e: Expected, reply: Reply, observation: string) {
    && IsObservation(observation) && reply == Replied(Some(Record(HonestReply(c, p, e, observation))))
    && IsSha256(p.hmac(c.secret, SignedText(c, e, observation)))
  }

  /** A phase accepts exactly the honest replies to its own nonce. */
  lemma {:induction false} AcceptedExactly(c: Config, p: Primitives, e: Expected, reply: Reply)
    ensures Invoke(c, p, e, reply).Some? <==> IsNonce(e.nonce) && exists o :: IsHonest(c, p, e, reply, o)
  {
    hide IsSha256, IsNonce, IsObservation, HonestReply, SignedText, Sanitized;
    if Invoke(c, p, e, reply).Some? {
      var fields := reply.body.value.fields;
      AttestedIsHonest(c, p, e, fields);
      assert IsHonest(c, p, e, reply, fields[KObservation].s);
    }
    if IsNonce(e.nonce) && exists o :: IsHonest(c, p, e, reply, o) {
      var o :| IsHonest(c, p, e, reply, o);
      HonestAttests(c, p, e, o);
    }
  }

  /** What the drill keeps of an accepted reply: each member as it came, but of the nonce, the observation
      and the attestation the digest only. */
  lemma {:induction false} KeptOfReply(c: Config, p: Primitives, e: Expected, reply: Reply)
    requires Invoke(c, p, e, reply).Some?
    ensures Invoke(c, p, e, reply).value.Record?
    ensures var kept, fields := Invoke(c, p, e, reply).value.fields, reply.body.value.fields;
            && kept.Keys == fields.Keys - {KNonce, KObservation, KAttestation}
                            + {KNonceSha, KObservationSha, KAttestationSha}
            && (forall k :: k in kept && k in fields ==> kept[k] == fields[k])
            && fields[KNonce].Text? && kept[KNonceSha] == Text(p.sha256(fields[KNonce].s))
            && fields[KObservation].Text? && kept[KObservationSha] == Text(p.sha256(fields[KObservation].s))
            && fields[KAttestation].Text? && kept[KAttestationSha] == Text(p.sha256(fields[KAttestation].s))
  {
    hide ComponentText, FaultText, PhaseText, Sign, IsSha256, IsNonce, IsObservation, Identity;
    var fields := reply.body.value.fields;
    var observation, attestation := fields[KObservation].s, fields[KAttestation].s;
    KeptKeys(c, p, e, observation, attestation);
    hide Sanitized;
    forall k | k in ATTESTED_KEYS * SANITIZED_KEYS
      ensures Sanitized(c, p, e, observation, attestation).fields[k] == fields[k]
    {
      AttestedKey(c, e.fault, e.phase, k);
      AttestedIsNoDigest(k);
    }
  }

  lemma {:induction false} AttestedIsNoDigest(k: Key)
    requires k in ATTESTED_KEYS
    ensures !IsDigestKey(k)
  {
  }

  lemma {:induction false} DigestKeys()
    ensures SANITIZED_KEYS == ATTESTED_KEYS - {KNonce, KObservation, KAttestation}
                              + {KNonceSha, KObservationSha, KAttestationSha}
  {
  }

  lemma {:induction false} IdentityKeys(c: Config, fault: Fault, phase: Phase)
    ensures Identity(c, fault, phase).Keys + {KNonceSha, KObservationSha, KAttestationSha} == SANITIZED_KEYS
  {
    hide ComponentText, FaultText, PhaseText;
  }

  lemma {:induction false} KeptKeys(c: Config, p: Primitives, e: Expected, observation: string, attestation: string)
    ensures Sanitized(c, p, e, observation, attestation).Record?
    ensures var kept := Sanitized(c, p, e, observation, attestation).fields;
            && kept.Keys == ATTESTED_KEYS - {KNonce, KObservation, KAttestation}
                            + {KNonceSha, KObservationSha, KAttestationSha}
            && kept.Keys == SANITIZED_KEYS
            && (forall k :: k in Identity(c, e.fault, e.phase) && !IsDigestKey(k) ==>
                  kept[k] == Identity(c, e.fault, e.phase)[k])
            && kept[KNonceSha] == Text(p.sha256(e.nonce))
            && kept[KObservationSha] == Text(p.sha256(observation))
            && kept[KAttestationSha] == Text(p.sha256(attestation))
  {
    IdentityKeys(c, e.fault, e.phase);
    DigestKeys();
    hide Identity, SANITIZED_KEYS, ATTESTED_KEYS;
  }

  predicate IsDigestKey(k: Key) { k == KNonceSha || k == KObservationSha || k == KAttestationSha }

  /** An observation: a lower-case letter, and 2 to 255 letters, digits and the four marks. */
  lemma {:induction false} ObservationShape(s: string)
    ensures IsObservation(s) <==>
            exists first, rest ::
              && s == [first] + rest && 'a' <= first <= 'z' && 2 <= |rest| <= 255
              && forall c :: c in rest ==> 'a' <= c <= 'z' || '0' <= c <= '9' || c in {'_', '.', ':', '-'}
  {
    if IsObservation(s) {
      assert s == [s[0]] + s[1..];
      forall c | c in s[1..] ensures 'a' <= c <= 'z' || '0' <= c <= '9' || c in {'_', '.', ':', '-'} {
        var i :| 0 <= i < |s[1..]| && s[1..][i] == c;
        assert IsObservationChar(s[i + 1]);
      }
    }
    forall first, rest | s == [first] + rest && 'a' <= first <= 'z' && 2 <= |rest| <= 255
        && forall c :: c in rest ==> 'a' <= c <= 'z' || '0' <= c <= '9' || c in {'_', '.', ':', '-'}
      ensures IsObservation(s)
    {
      forall i | 0 <= i < |s| ensures IsObservationChar(s[i]) {
        if i > 0 { assert s[i] == rest[i - 1] && rest[i - 1] in rest; }
        Marks(s[i]);
      }
    }
  }

  lemma {:induction false} Marks(c: char)
    ensures c in "_.:-" <==> c in {'_', '.', ':', '-'}
  {
    var marks := "_.:-";
    assert marks[0] == '_' && marks[1] == '.' && marks[2] == ':' && marks[3] == '-';
  }

  /** A UUID in lower case, as `randomUUID` makes them. */
  predicate IsUuidText(s: string) {
    && |s| == 36
    && forall i :: 0 <= i < 36 ==> if i in {8, 13, 18, 23} then s[i] == '-' else s[i] in "0123456789abcdef"
  }

  lemma {:induction false} UuidIsNonce(s: string)
    requires IsUuidText(s)
    ensures IsNonce(s)
  {
    forall i | 0 <= i < |s| ensures IsNonceChar(s[i]) {
      assert if i in {8, 13, 18, 23} then s[i] == '-' else s[i] in "0123456789abcdef";
    }
  }

  // ----- A drill -----

  /** The environment of one drill: which commands are configured, the fresh nonces and the replies of
      the control plane, whether the directory can be made, and which files can be written. */
  datatype Environment = Environment(
    configured: set<Phase>,
    nonces: Phase -> string,
    replies: Phase -> Reply,
    directory: bool,
    writable: set<Lane>)

  function Outcome(c: Config, p: Primitives, fault: Fault, env: Environment, phase: Phase): Option<Value> {
    Invoke(c, p, Expected(fault, phase, env.nonces(phase)), env.replies(phase))
  }

  /** The values that were observed, in the order of `phases`. */
  function ObservedOf(observed: map<Phase, Value>, phases: seq<Phase>): seq<Value> {
    if phases == [] then []
    else (if phases[0] in observed then [observed[phases[0]]] else []) + ObservedOf(observed, phases[1..])
  }

  function ArtifactValue(lane: Lane, phases: seq<Value>): Value {
    Record(map[KArtifactKind := Text(ARTIFACT_KIND), KLane := Text(LaneText(lane)), KPhases := List(phases)])
  }

  function Artifact(p: Primitives, lane: Lane, observed: map<Phase, Value>): string {
    p.stringify(ArtifactValue(lane, ObservedOf(observed, LanePhases(lane)))) + "\n"
  }

  function Receipt(p: Primitives, fault: Fault, observed: map<Phase, Value>): Value {
    Record(map[
      KFault := Text(FaultText(fault)),
      KInjector := Text("command"),
      KInjectionSha := Text(p.sha256(Artifact(p, InjectionLane, observed))),
      KRecoverySha := Text(p.sha256(Artifact(p, RecoveryLane, observed))),
      KCleanupSha := Text(p.sha256(Artifact(p, CleanupLane, observed))),
      KRecoveryObserved := Bool(true),
      KCleanupObserved := Bool(true),
      KRecoveryOracle := Text("controlled_staging_recovered")])
  }

  datatype HookResult = MissingCommand | NoDirectory | DrillFailed | WriteFailed | Drilled(receipt: Value)

  const LANES: set<Lane> := {InjectionLane, RecoveryLane, CleanupLane}

  /** What invoking each phase gives: its sanitised attestation, or None when it throws. */
  type Outcomes = Phase -> Option<Value>

  /** The values of the attempted phases that succeeded. */
  ghost predicate ObservedIs(outcomes: Outcomes, attempted: seq<Phase>, observed: map<Phase, Value>) {
    forall phase ::
      && (phase in observed <==> phase in attempted && outcomes(phase).Some?)
      && (phase in observed ==> outcomes(phase) == Some(observed[phase]))
  }

  /** `n` of the five phases in their declared order up to the first failure, then the cleanup once. */
  ghost predicate DrillOf(outcomes: Outcomes, attempted: seq<Phase>, n: nat) {
    && 1 <= n <= 5
    && attempted == PHASES[..n] + [CleanUp]
    && (forall i :: 0 <= i < n - 1 ==> outcomes(PHASES[i]).Some?)
    && (n < 5 ==> outcomes(PHASES[n - 1]).None?)
  }

  ghost predicate DrillOrder(outcomes: Outcomes, attempted: seq<Phase>) {
    exists n :: DrillOf(outcomes, attempted, n)
  }

  ghost predicate AllAttested(outcomes: Outcomes) { forall phase :: outcomes(phase).Some? }

  lemma {:induction false} PhasesListed(phase: Phase)
    ensures phase in PHASES[..5] || phase == CleanUp
    ensures phase in PHASES
  {
    assert PHASES[..5] == [Precondition, Inject, Degradation, Recover, Invariant];
    match phase
    case Precondition => assert PHASES[0] == phase;
    case Inject => assert PHASES[1] == phase;
    case Degradation => assert PHASES[2] == phase;
    case Recover => assert PHASES[3] == phase;
    case Invariant => assert PHASES[4] == phase;
    case CleanUp => assert PHASES[5] == phase;
  }

  /** Everything was seen exactly when every phase attests. */
  lemma {:induction false} SeenAll(outcomes: Outcomes, attempted: seq<Phase>, n: nat, seen: map<Phase, Value>)
    requires ObservedIs(outcomes, attempted, seen) && DrillOf(outcomes, attempted, n)
    ensures AllAttested(outcomes) <==> forall phase :: phase in PHASES ==> phase in seen
    ensures AllAttested(outcomes) <==> outcomes(PHASES[n - 1]).Some? && outcomes(CleanUp).Some?
  {
    if outcomes(PHASES[n - 1]).Some? && outcomes(CleanUp).Some? {
      assert n == 5;
      forall phase ensures outcomes(phase).Some? {
        PhasesListed(phase);
        if phase != CleanUp { var i :| 0 <= i < 5 && PHASES[..5][i] == phase; }
      }
    }
    if AllAttested(outcomes) {
      assert n == 5;
      forall phase ensures phase in seen { PhasesListed(phase); }
    }
    if forall phase :: phase in PHASES ==> phase in seen {
      forall phase ensures outcomes(phase).Some? { PhasesListed(phase); }
    }
  }

  /** The five phases before the cleanup, up to the first failure. */
  method RunPhases(outcomes: Outcomes) returns (n: nat, observed: map<Phase, Value>, failed: bool)
    ensures 1 <= n <= 5 && DrillOf(outcomes, PHASES[..n] + [CleanUp], n)
    ensures ObservedIs(outcomes, PHASES[..n], observed)
    ensures failed <==> outcomes(PHASES[n - 1]).None?
  {
    n, observed, failed := 0, map[], false;
    while n < 5
      invariant n <= 5
      invariant ObservedIs(outcomes, PHASES[..n], observed)
      invariant forall k :: 0 <= k < n ==> outcomes(PHASES[k]).Some?
    {
      var phase := PHASES[n];
      assert PHASES[..n + 1] == PHASES[..n] + [phase];
      n := n + 1;
      if outcomes(phase).None? { return n, observed, true; }
      observed := observed[phase := outcomes(phase).value];
    }
  }

  /** The phases of a drill with the cleanup at the end, whatever failed before it. */
  method RunDrill(outcomes: Outcomes) returns (attempted: seq<Phase>, observed: map<Phase, Value>, failed: bool)
    ensures DrillOrder(outcomes, attempted) && ObservedIs(outcomes, attempted, observed)
    ensures failed <==> !AllAttested(outcomes)
    ensures failed <==> exists phase :: phase in PHASES && phase !in observed
  {
    var n;
    n, observed, failed := RunPhases(outcomes);
    attempted := PHASES[..n] + [CleanUp];
    if outcomes(CleanUp).None? {
      failed := true;
    } else {
      observed := observed[CleanUp := outcomes(CleanUp).value];
    }
    SeenAll(outcomes, attempted, n, observed);
  }

  function OutcomesOf(c: Config, p: Primitives, fault: Fault, env: Environment): Outcomes {
    phase => Outcome(c, p, fault, env, phase)
  }

  ghost predicate Configured(env: Environment) { forall phase :: phase in PHASES ==> phase in env.configured }

  /** The drill of one fault. `files` are the evidence files that were written. */
  method RunHook(c: Config, p: Primitives, fault: Fault, env: Environment)
      returns (result: HookResult, attempted: seq<Phase>, ghost observed: map<Phase, Value>, files: map<Lane, string>)
    ensures result.MissingCommand? <==> !Configured(env)
    ensures result.NoDirectory? <==> Configured(env) && !env.directory
    ensures result.MissingCommand? || result.NoDirectory? ==> attempted == [] && files == map[]
    ensures Configured(env) && env.directory ==>
              && DrillOrder(OutcomesOf(c, p, fault, env), attempted)
              && ObservedIs(OutcomesOf(c, p, fault, env), attempted, observed)
              && files == map lane | lane in LANES && lane in env.writable :: Artifact(p, lane, observed)
    ensures result.Drilled? <==>
            && Configured(env) && env.directory
            && AllAttested(OutcomesOf(c, p, fault, env)) && LANES <= env.writable
    ensures result.Drilled? ==> result.receipt == Receipt(p, fault, observed)
  {
    if exists phase :: phase in PHASES && phase !in env.configured { return MissingCommand, [], map[], map[]; }
    if !env.directory { return NoDirectory, [], map[], map[]; }
    var failed: bool;
    var seen: map<Phase, Value>;
    attempted, seen, failed := RunDrill(OutcomesOf(c, p, fault, env));
    observed := seen;
    files := map lane | lane in LANES && lane in env.writable :: Artifact(p, lane, seen);
    if !(LANES <= env.writable) { return WriteFailed, attempted, observed, files; }
    if failed || exists phase :: phase in PHASES && phase !in seen { return DrillFailed, attempted, observed, files; }
    return Drilled(Receipt(p, fault, seen)), attempted, observed, files;
  }
}
