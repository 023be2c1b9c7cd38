/** The text of the evidence files of a fault drill, and when the pattern for secret-like content finds
    something in one. */
module ArtifactText {
  import opened FaultEvidence
  import opened FaultDrill
  import opened SecretPattern
  import CodeUnits
  import Json

  // ----- The text -----

  /** The members of a sanitised phase in the order they are written. */
  const SANITIZED_ORDER: seq<Key> := [
    KProtocol, KSourceSha, KRunId, KDeploymentId, KBuildId, KComponent, KFault, KPhase,
    KNonceSha, KObservationSha, KAttestationSha]

  /** The names of the members of an artifact and its phases. */
  function KeyName(k: Key): string
    requires k in SANITIZED_KEYS
  {
    match k
    case KProtocol => "protocol"
    case KSourceSha => "source_sha"
    case KRunId => "run_id"
    case KDeploymentId => "deployment_id"
    case KBuildId => "build_id"
    case KComponent => "component"
    case KFault => "fault"
    case KPhase => "phase"
    case KNonceSha => "nonce_sha256"
    case KObservationSha => "observation_sha256"
    case _ => "attestation_sha256"
  }

  /** A sanitised phase as the drills write it: a record of texts under the known names. */
  ghost predicate IsPhaseRecord(v: Value) {
    v.Record? && v.fields.Keys == SANITIZED_KEYS && forall k :: k in v.fields ==> v.fields[k].Text?
  }

  ghost predicate PhaseRecords(phases: seq<Value>) { forall i :: 0 <= i < |phases| ==> IsPhaseRecord(phases[i]) }

  ghost function TextMember(name: string, text: string): Json.Entry<Json.Json> {
    Json.Entry(CodeUnits.Units(name), Json.String(CodeUnits.Units(text)))
  }

  ghost function PhaseEntry(v: Value, k: Key): Json.Entry<Json.Json>
    requires IsPhaseRecord(v) && k in SANITIZED_KEYS
  {
    TextMember(KeyName(k), v.fields[k].s)
  }

  ghost function PhaseJson(v: Value): Json.Json
    requires IsPhaseRecord(v)
  {
    Json.Object(seq(11, i requires 0 <= i < 11 => PhaseEntry(v, SANITIZED_ORDER[i])))
  }

  ghost function PhasesJson(phases: seq<Value>): Json.Json
    requires PhaseRecords(phases)
  {
    Json.Array(seq(|phases|, i requires 0 <= i < |phases| => PhaseJson(phases[i])))
  }

  /** The value that is written as the file of a lane. */
  ghost function ArtifactJson(lane: Lane, phases: seq<Value>): Json.Json
    requires PhaseRecords(phases)
  {
    Json.Object([TextMember("artifact_kind", ARTIFACT_KIND), TextMember("lane", LaneText(lane)),
                 Json.Entry(CodeUnits.Units("phases"), PhasesJson(phases))])
  }

  // ----- Constants and digests are harmless -----

  lemma {:induction false} IdentityNameIsWord(k: Key)
    requires k in SANITIZED_KEYS && !IsDigestKey(k)
    ensures IsWordText(KeyName(k))
  {
  }

  lemma {:induction false} DigestNameIsWord(k: Key)
    requires IsDigestKey(k)
    ensures k in SANITIZED_KEYS && IsWordText(KeyName(k))
  {
    hide KeyName, IsWordText;
    DigestNames();
    NamesAreWords();
  }

  lemma {:induction false} DigestNames()
    ensures KeyName(KNonceSha) == "nonce_sha256" && KeyName(KObservationSha) == "observation_sha256"
    ensures KeyName(KAttestationSha) == "attestation_sha256"
  {
  }

  lemma {:induction false} NamesAreWords()
    ensures IsWordText("nonce_sha256") && IsWordText("observation_sha256") && IsWordText("attestation_sha256")
  {
  }

  lemma {:induction false} KeyNameHarmless(k: Key)
    requires k in SANITIZED_KEYS
    ensures !Betrayed(KeyName(k))
  {
    hide Betrayed;
    hide IsWordText;
    if IsDigestKey(k) { DigestNameIsWord(k); } else { IdentityNameIsWord(k); }
    WordHarmless(KeyName(k));
  }

  lemma {:induction false} StoreFaultIsWord(f: Fault)
    requires f.PostgresInterruption? || f.RedisInterruption? || f.ConnectionPressure? || f.BackupRestore?
    ensures IsWordText(FaultText(f))
  {
  }

  lemma {:induction false} ProcessFaultIsWord(f: Fault)
    requires f.ApiInterruption? || f.WebInterruption? || f.WorkerInterruption? || f.Latency?
    ensures IsWordText(FaultText(f))
  {
  }

  lemma {:induction false} OtherFaultIsWord(f: Fault)
    requires f.OutboxDelay? || f.DiskPressure? || f.PdfFailure? || f.ProjectionRegeneration?
    ensures IsWordText(FaultText(f))
  {
  }

  lemma {:induction false} FaultHarmless(f: Fault)
    ensures !Betrayed(FaultText(f))
  {
    hide Betrayed;
    hide IsWordText;
    match f {
    case PostgresInterruption | RedisInterruption | ConnectionPressure | BackupRestore => StoreFaultIsWord(f);
    case ApiInterruption | WebInterruption | WorkerInterruption | Latency => ProcessFaultIsWord(f);
    case _ => OtherFaultIsWord(f);
    }
    WordHarmless(FaultText(f));
  }

  lemma {:induction false} ComponentHarmless(f: Fault)
    ensures !Betrayed(ComponentText(f))
  {
    hide Betrayed;
    WordHarmless(ComponentText(f));
  }

  lemma {:induction false} PhaseHarmless(p: Phase)
    ensures !Betrayed(PhaseText(p))
  {
    hide Betrayed;
    WordHarmless(PhaseText(p));
  }

  lemma {:induction false} LaneHarmless(lane: Lane)
    ensures !Betrayed(LaneText(lane))
  {
    hide Betrayed;
    WordHarmless(LaneText(lane));
  }

  lemma {:induction false} HexHarmless(s: string)
    requires |s| == 40 || |s| == 64
    requires forall i :: 0 <= i < |s| ==> IsLowerHex(s[i])
    ensures !Betrayed(s)
  {
    hide Betrayed;
    WordHarmless(s);
  }

  /** A text of words and hyphens in which nothing is found. */
  ghost predicate IsHarmless(s: string) { IsHyphenated(s) && !Betrayed(s) }

  lemma {:induction false} WordsHarmless()
    ensures IsHarmless("gate") && IsHarmless("c") && IsHarmless("c5") && IsHarmless("fault") && IsHarmless("v1")
    ensures IsHarmless("attestation") && IsHarmless("attestations") && IsHarmless("sanitized")
  {
    hide Betrayed;
    WordHarmless("gate");
    WordHarmless("c");
    WordHarmless("c5");
    WordHarmless("fault");
    WordHarmless("v1");
    WordHarmless("attestation");
    WordHarmless("attestations");
    WordHarmless("sanitized");
  }

  lemma {:induction false} Hyphen(a: string, b: string)
    requires IsHarmless(a) && IsHarmless(b)
    ensures IsHarmless(a + "-" + b)
  {
    hide Betrayed;
    HyphenHarmless(a, b);
  }

  lemma {:induction false} GateHarmless()
    ensures IsHarmless("gate" + "-" + "c" + "-" + "c5")
  {
    hide IsHarmless;
    WordsHarmless();
    Hyphen("gate", "c");
    Hyphen("gate" + "-" + "c", "c5");
  }

  lemma {:induction false} ProtocolHarmless()
    ensures !Betrayed(PROTOCOL)
  {
    hide IsHyphenated, Betrayed;
    WordsHarmless();
    GateHarmless();
    var gate := "gate" + "-" + "c" + "-" + "c5";
    Hyphen(gate, "fault");
    Hyphen("attestation", "v1");
    Hyphen(gate + "-" + "fault", "attestation" + "-" + "v1");
    assert PROTOCOL == gate + "-" + "fault" + "-" + ("attestation" + "-" + "v1");
  }

  lemma {:induction false} AttestationsHarmless()
    ensures IsHarmless("fault" + "-" + "attestations" + "-" + "v1")
  {
    hide IsHarmless;
    WordsHarmless();
    Hyphen("fault", "attestations");
    Hyphen("fault" + "-" + "attestations", "v1");
  }

  lemma {:induction false} KindParts()
    ensures ARTIFACT_KIND == "gate" + "-" + "c" + "-" + "c5" + "-" + "sanitized"
                             + "-" + ("fault" + "-" + "attestations" + "-" + "v1")
  {
  }

  lemma {:induction false} KindHarmless()
    ensures !Betrayed(ARTIFACT_KIND)
  {
    hide IsHyphenated, Betrayed;
    WordsHarmless();
    GateHarmless();
    AttestationsHarmless();
    var gate := "gate" + "-" + "c" + "-" + "c5";
    Hyphen(gate, "sanitized");
    Hyphen(gate + "-" + "sanitized", "fault" + "-" + "attestations" + "-" + "v1");
    KindParts();
  }

  lemma {:induction false} MemberNamesHarmless()
    ensures !Betrayed("artifact_kind") && !Betrayed("lane") && !Betrayed("phases")
  {
    hide Betrayed;
    WordHarmless("artifact_kind");
    WordHarmless("lane");
    WordHarmless("phases");
  }

  // ----- What can betray a secret -----

  /** An identifier of the run as the files hold it is secret-like. */
  predicate IdentifierBetrayed(c: Config) { Betrayed(c.runId) || Betrayed(c.deploymentId) || Betrayed(c.buildId) }

  /** A phase record with the identity of the drill and digests. */
  ghost predicate IsSanitized(c: Config, fault: Fault, phase: Phase, v: Value) {
    && IsPhaseRecord(v)
    && (forall k :: k in Identity(c, fault, phase) ==> k in v.fields && v.fields[k] == Identity(c, fault, phase)[k])
    && (forall k :: k in v.fields && IsDigestKey(k) ==> IsSha256(v.fields[k].s))
  }

  /** The member is an identifier that betrays a secret. */
  predicate KeyBetrayed(c: Config, k: Key) {
    || (k == KRunId && Betrayed(c.runId)) || (k == KDeploymentId && Betrayed(c.deploymentId))
    || (k == KBuildId && Betrayed(c.buildId))
  }

  lemma {:induction false} IdentitySecret(c: Config, fault: Fault, phase: Phase, k: Key)
    requires IsSourceSha(c.sourceSha) && k in Identity(c, fault, phase)
    ensures Identity(c, fault, phase)[k].Text?
    ensures Betrayed(Identity(c, fault, phase)[k].s) <==> KeyBetrayed(c, k)
  {
    hide Betrayed, FaultText, PhaseText, ComponentText;
    match k
    case KProtocol => ProtocolHarmless();
    case KSourceSha => HexHarmless(c.sourceSha);
    case KComponent => ComponentHarmless(fault);
    case KFault => FaultHarmless(fault);
    case KPhase => PhaseHarmless(phase);
    case _ =>
  }

  lemma {:induction false} SanitizedKey(c: Config, fault: Fault, phase: Phase, k: Key)
    requires k in SANITIZED_KEYS
    ensures IsDigestKey(k) || k in Identity(c, fault, phase)
    ensures IsDigestKey(k) ==> !KeyBetrayed(c, k)
  {
    hide Betrayed, FaultText, PhaseText, ComponentText;
  }

  /** Of the members of a phase only the three identifiers can betray a secret. */
  lemma {:induction false} MemberSecret(c: Config, fault: Fault, phase: Phase, v: Value, k: Key)
    requires IsSourceSha(c.sourceSha) && IsSanitized(c, fault, phase, v) && k in SANITIZED_KEYS
    ensures Betrayed(v.fields[k].s) <==> KeyBetrayed(c, k)
  {
    hide Betrayed, KeyBetrayed, Identity, IsDigestKey;
    SanitizedKey(c, fault, phase, k);
    if IsDigestKey(k) { HexHarmless(v.fields[k].s); } else { IdentitySecret(c, fault, phase, k); }
  }

  lemma {:induction false} EntrySecret(name: string, text: string)
    requires !Betrayed(name)
    ensures EntryBetrays(TextMember(name, text)) <==> Betrayed(text)
  {
  }

  lemma {:induction false} PhaseEntrySecret(c: Config, fault: Fault, phase: Phase, v: Value, k: Key)
    requires IsSourceSha(c.sourceSha) && IsSanitized(c, fault, phase, v) && k in SANITIZED_KEYS
    ensures EntryBetrays(PhaseEntry(v, k)) <==> KeyBetrayed(c, k)
  {
    assert IsPhaseRecord(v) && k in v.fields;
    hide *;
    KeyNameHarmless(k);
    EntrySecret(KeyName(k), v.fields[k].s);
    MemberSecret(c, fault, phase, v, k);
    PhaseEntryText(v, k);
  }

  lemma {:induction false} PhaseEntryText(v: Value, k: Key)
    requires IsPhaseRecord(v) && k in SANITIZED_KEYS
    ensures PhaseEntry(v, k) == TextMember(KeyName(k), v.fields[k].s)
  {
  }

  lemma {:induction false} PhaseSecret(c: Config, fault: Fault, phase: Phase, v: Value)
    requires IsSourceSha(c.sourceSha) && IsSanitized(c, fault, phase, v)
    ensures Betrays(PhaseJson(v)) <==> IdentifierBetrayed(c)
  {
    assert IsPhaseRecord(v);
    hide Betrayed, IsSanitized, EntryBetrays, Betrays, PhaseEntry, IsPhaseRecord;
    var entries := PhaseJson(v).entries;
    Composite(PhaseJson(v));
    forall i | 0 <= i < 11 ensures EntryBetrays(entries[i]) <==> KeyBetrayed(c, SANITIZED_ORDER[i]) {
      PhaseEntrySecret(c, fault, phase, v, SANITIZED_ORDER[i]);
    }
    KeysBetrayed(c, entries);
  }

  lemma {:induction false} KeysBetrayed(c: Config, entries: seq<Json.Entry<Json.Json>>)
    requires |entries| == 11
    requires forall i :: 0 <= i < 11 ==> (EntryBetrays(entries[i]) <==> KeyBetrayed(c, SANITIZED_ORDER[i]))
    ensures MembersBetray(entries) <==> IdentifierBetrayed(c)
  {
    hide Betrayed, EntryBetrays;
    assert EntryBetrays(entries[2]) <==> Betrayed(c.runId);
    assert EntryBetrays(entries[3]) <==> Betrayed(c.deploymentId);
    assert EntryBetrays(entries[4]) <==> Betrayed(c.buildId);
  }

  ghost predicate AllSanitized(c: Config, fault: Fault, names: seq<Phase>, phases: seq<Value>) {
    |phases| == |names| && forall i :: 0 <= i < |phases| ==> IsSanitized(c, fault, names[i], phases[i])
  }

  lemma {:induction false} SanitizedRecords(c: Config, fault: Fault, names: seq<Phase>, phases: seq<Value>)
    requires AllSanitized(c, fault, names, phases)
    ensures PhaseRecords(phases)
  {
  }

  /** The file of a lane is secret-like exactly when an identifier is, as JSON escapes it. */
  lemma {:induction false} ArtifactSecretExact(c: Config, fault: Fault, lane: Lane, phases: seq<Value>)
    requires IsSourceSha(c.sourceSha) && AllSanitized(c, fault, LanePhases(lane), phases)
    ensures SecretLike(Json.Stringify(ArtifactJson(lane, phases)) + [0x0A]) <==> IdentifierBetrayed(c)
  {
    hide SecretLike, IsSanitized, IdentifierBetrayed;
    SanitizedRecords(c, fault, LanePhases(lane), phases);
    hide PhaseRecords, AllSanitized;
    JsonSecretExact(ArtifactJson(lane, phases));
    PhasesSecret(c, fault, lane, phases);
    ArtifactBetrays(lane, phases);
  }

  lemma {:induction false} PhasesSecret(c: Config, fault: Fault, lane: Lane, phases: seq<Value>)
    requires IsSourceSha(c.sourceSha) && AllSanitized(c, fault, LanePhases(lane), phases)
    ensures Betrays(PhasesJson(phases)) <==> IdentifierBetrayed(c)
  {
    SanitizedRecords(c, fault, LanePhases(lane), phases);
    hide Betrayed, Betrays, PhaseJson, IsSanitized, IdentifierBetrayed;
    var items := PhasesJson(phases).items;
    Composite(PhasesJson(phases));
    forall i | 0 <= i < |items| ensures Betrays(items[i]) <==> IdentifierBetrayed(c) {
      PhaseSecret(c, fault, LanePhases(lane)[i], phases[i]);
    }
    assert |items| > 0 && (Betrays(items[0]) <==> IdentifierBetrayed(c));
  }

  lemma {:induction false} ArtifactBetrays(lane: Lane, phases: seq<Value>)
    requires PhaseRecords(phases)
    ensures Betrays(ArtifactJson(lane, phases)) <==> Betrays(PhasesJson(phases))
  {
    hide Betrayed, Betrays, EntryBetrays, TextMember, PhasesJson, LaneText;
    var entries := ArtifactJson(lane, phases).entries;
    Composite(ArtifactJson(lane, phases));
    MemberNamesHarmless();
    KindHarmless();
    LaneHarmless(lane);
    EntrySecret("artifact_kind", ARTIFACT_KIND);
    EntrySecret("lane", LaneText(lane));
    PhasesEntry(PhasesJson(phases));
    assert !EntryBetrays(entries[0]) && !EntryBetrays(entries[1]);
    assert EntryBetrays(entries[2]) <==> Betrays(PhasesJson(phases));
  }

  lemma {:induction false} PhasesEntry(v: Json.Json)
    ensures EntryBetrays(Json.Entry(CodeUnits.Units("phases"), v)) <==> Betrays(v)
  {
    hide Betrays, SecretLike;
    MemberNamesHarmless();
  }
}
