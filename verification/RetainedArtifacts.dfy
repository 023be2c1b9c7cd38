/** The independent verifier of the files that the fault drills leave behind, and the proof that it
    accepts what successful drills write. */
module RetainedArtifacts {
  import opened Options
  import opened FaultEvidence
  import opened FaultDrill
  import opened ArtifactText
  import opened SecretPattern
  import opened Lists
  import CodeUnits
  import Json

  const MAXIMUM_BYTES := 5 * 1024 * 1024

  predicate IsOracleChar(c: char) { 'a' <= c <= 'z' || '0' <= c <= '9' || c == '_' }

  /** `/^[a-z][a-z0-9_]{2,199}$/` */
  predicate IsOracle(s: string) {
    3 <= |s| <= 200 && 'a' <= s[0] <= 'z' && forall i :: 0 <= i < |s| ==> IsOracleChar(s[i])
  }

  const INJECTORS: set<string> := {
    "process_signal", "network_proxy", "connection_limit", "bounded_delay", "filesystem_limit", "command"}

  const RECEIPT_KEYS: set<Key> := {
    KFault, KInjector, KInjectionSha, KRecoverySha, KCleanupSha, KRecoveryObserved, KCleanupObserved, KRecoveryOracle}

  // ----- Checks on values -----

  predicate NonEmptyText(v: Value) { v.Text? && v.s != "" }

  predicate HashText(v: Value) { v.Text? && IsSha256(v.s) }

  predicate PhaseAccepted(v: Value, sourceSha: string, fault: Fault, phase: Phase) {
    && v.Record? && v.fields.Keys == SANITIZED_KEYS
    && v.fields[KProtocol] == Text(PROTOCOL)
    && v.fields[KSourceSha] == Text(sourceSha)
    && v.fields[KFault] == Text(FaultText(fault))
    && v.fields[KPhase] == Text(PhaseText(phase))
    && NonEmptyText(v.fields[KRunId]) && NonEmptyText(v.fields[KDeploymentId])
    && NonEmptyText(v.fields[KBuildId]) && NonEmptyText(v.fields[KComponent])
    && HashText(v.fields[KNonceSha]) && HashText(v.fields[KObservationSha]) && HashText(v.fields[KAttestationSha])
  }

  /** `validateSanitizedFaultArtifact` on the parsed file. */
  predicate ArtifactAccepted(parsed: Option<Value>, sourceSha: string, fault: Fault, lane: Lane) {
    && parsed.Some? && parsed.value.Record?
    && (var fields := parsed.value.fields;
        && KArtifactKind in fields && fields[KArtifactKind] == Text(ARTIFACT_KIND)
        && KLane in fields && fields[KLane] == Text(LaneText(lane))
        && KPhases in fields && fields[KPhases].List? && |fields[KPhases].items| == |LanePhases(lane)|
        && forall i :: 0 <= i < |LanePhases(lane)| ==>
             PhaseAccepted(fields[KPhases].items[i], sourceSha, fault, LanePhases(lane)[i]))
  }

  predicate CandidateAccepted(v: Value, fault: Fault) {
    && v.Record? && v.fields.Keys == RECEIPT_KEYS
    && v.fields[KFault] == Text(FaultText(fault))
    && v.fields[KInjector].Text? && v.fields[KInjector].s in INJECTORS
    && HashText(v.fields[KInjectionSha]) && HashText(v.fields[KRecoverySha]) && HashText(v.fields[KCleanupSha])
    && v.fields[KRecoveryObserved] == Bool(true) && v.fields[KCleanupObserved] == Bool(true)
    && v.fields[KRecoveryOracle].Text? && IsOracle(v.fields[KRecoveryOracle].s)
  }

  predicate IsFor(v: Value, fault: Fault) {
    v.Record? && KFault in v.fields && v.fields[KFault] == Text(FaultText(fault))
  }

  /** The candidates for a fault, in order. */
  function MatchesFor(candidates: seq<Value>, fault: Fault): seq<Value> {
    if candidates == [] then []
    else (if IsFor(candidates[0], fault) then [candidates[0]] else []) + MatchesFor(candidates[1..], fault)
  }

  /** The evidence of a receipt for a fault: its one candidate, if that is acceptable. */
  predicate HasEvidence(candidates: seq<Value>, fault: Fault) {
    |MatchesFor(candidates, fault)| == 1 && CandidateAccepted(MatchesFor(candidates, fault)[0], fault)
  }

  /** The retained files after the path checks; None where the path, the file or its content is refused. */
  datatype Retained = Retained(
    files: (Fault, Lane) -> Option<string>,
    size: string -> nat)

  function ReadRetained(r: Retained, fault: Fault, lane: Lane): Option<string> {
    var content := r.files(fault, lane);
    if content.None? || r.size(content.value) > MAXIMUM_BYTES || SecretLike(CodeUnits.Units(content.value)) then None
    else content
  }

  function HashKey(lane: Lane): Key {
    match lane
    case InjectionLane => KInjectionSha
    case RecoveryLane => KRecoverySha
    case CleanupLane => KCleanupSha
  }

  /** One lane's file is readable, has the hash of the evidence and holds the lane's phases. */
  predicate LaneAccepted(p: Primitives, r: Retained, sourceSha: string, evidence: Value, fault: Fault, lane: Lane)
    requires CandidateAccepted(evidence, fault)
  {
    && ReadRetained(r, fault, lane).Some?
    && evidence.fields[HashKey(lane)] == Text(p.sha256(ReadRetained(r, fault, lane).value))
    && ArtifactAccepted(p.parse(ReadRetained(r, fault, lane).value), sourceSha, fault, lane)
  }

  predicate FilesAccepted(p: Primitives, r: Retained, sourceSha: string, evidence: Value, fault: Fault) {
    && CandidateAccepted(evidence, fault)
    && LaneAccepted(p, r, sourceSha, evidence, fault, InjectionLane)
    && LaneAccepted(p, r, sourceSha, evidence, fault, RecoveryLane)
    && LaneAccepted(p, r, sourceSha, evidence, fault, CleanupLane)
  }

  predicate FaultAccepted(p: Primitives, r: Retained, sourceSha: string, candidates: seq<Value>, fault: Fault) {
    HasEvidence(candidates, fault) && FilesAccepted(p, r, sourceSha, MatchesFor(candidates, fault)[0], fault)
  }

  predicate ReceiptShape(receipt: Value, sourceSha: string) {
    && receipt.Record? && KSourceSha in receipt.fields && receipt.fields[KSourceSha] == Text(sourceSha)
    && KControlledFailures in receipt.fields && receipt.fields[KControlledFailures].List?
    && |receipt.fields[KControlledFailures].items| == |FAULTS|
  }

  // ----- The verifier -----

  datatype Verification = Verification(fault: Fault, injection: string, recovery: string, cleanup: string)

  /** The hash of a retained file as it is now; a file that cannot be read has none. */
  ghost function LaneHash(p: Primitives, r: Retained, fault: Fault, lane: Lane): string {
    var content := ReadRetained(r, fault, lane);
    if content.Some? then p.sha256(content.value) else ""
  }

  /** The hashes of the files of a fault as they are now. */
  ghost function Rehash(p: Primitives, r: Retained, fault: Fault): Verification {
    Verification(fault,
                 LaneHash(p, r, fault, InjectionLane),
                 LaneHash(p, r, fault, RecoveryLane),
                 LaneHash(p, r, fault, CleanupLane))
  }

  /** `parseFaultEvidenceReceipt`: the accepted evidence in the order of the faults. */
  method ParseReceipt(receipt: Value, sourceSha: string) returns (parsed: Option<seq<Value>>)
    ensures parsed.Some? <==>
            ReceiptShape(receipt, sourceSha)
            && forall i :: 0 <= i < |FAULTS| ==> HasEvidence(receipt.fields[KControlledFailures].items, FAULTS[i])
    ensures parsed.Some? ==> |parsed.value| == |FAULTS|
    ensures parsed.Some? ==> forall i :: 0 <= i < |FAULTS| ==>
              parsed.value[i] == MatchesFor(receipt.fields[KControlledFailures].items, FAULTS[i])[0]
  {
    if !ReceiptShape(receipt, sourceSha) { return None; }
    var candidates := receipt.fields[KControlledFailures].items;
    var evidence: seq<Value> := [];
    for i := 0 to |FAULTS|
      invariant |evidence| == i
      invariant forall k :: 0 <= k < i ==>
                HasEvidence(candidates, FAULTS[k]) && evidence[k] == MatchesFor(candidates, FAULTS[k])[0]
    {
      var matches := MatchesFor(candidates, FAULTS[i]);
      if |matches| != 1 || !CandidateAccepted(matches[0], FAULTS[i]) { return None; }
      evidence := evidence + [matches[0]];
    }
    return Some(evidence);
  }

  /** Reads, rehashes and revalidates one file. */
  method VerifyLane(p: Primitives, r: Retained, sourceSha: string, evidence: Value, fault: Fault, lane: Lane)
        returns (hash: Option<string>)
    requires CandidateAccepted(evidence, fault)
    ensures hash.Some? <==> LaneAccepted(p, r, sourceSha, evidence, fault, lane)
    ensures hash.Some? ==> hash.value == LaneHash(p, r, fault, lane)
  {
    var content := ReadRetained(r, fault, lane);
    if content.None? { return None; }
    var digest := p.sha256(content.value);
    if evidence.fields[HashKey(lane)] != Text(digest) { return None; }
    if !ArtifactAccepted(p.parse(content.value), sourceSha, fault, lane) { return None; }
    return Some(digest);
  }

  method VerifyFault(p: Primitives, r: Retained, sourceSha: string, evidence: Value, fault: Fault)
        returns (verified: Option<Verification>)
    requires CandidateAccepted(evidence, fault)
    ensures verified.Some? <==> FilesAccepted(p, r, sourceSha, evidence, fault)
    ensures verified.Some? ==> verified.value == Rehash(p, r, fault)
  {
    var injection := VerifyLane(p, r, sourceSha, evidence, fault, InjectionLane);
    var recovery := VerifyLane(p, r, sourceSha, evidence, fault, RecoveryLane);
    var cleanup := VerifyLane(p, r, sourceSha, evidence, fault, CleanupLane);
    if injection.None? || recovery.None? || cleanup.None? { return None; }
    return Some(Verification(fault, injection.value, recovery.value, cleanup.value));
  }

  /** The loop over the faults; a refusal names a fault whose files are not accepted. */
  method VerifyFaults(p: Primitives, r: Retained, sourceSha: string, evidence: seq<Value>, faults: seq<Fault>)
      returns (verified: Option<seq<Verification>>, ghost refused: nat)
    requires |evidence| == |faults|
    requires forall i :: 0 <= i < |faults| ==> CandidateAccepted(evidence[i], faults[i])
    ensures verified.Some? ==> forall i :: 0 <= i < |faults| ==> FilesAccepted(p, r, sourceSha, evidence[i], faults[i])
    ensures verified.None? ==> refused < |faults| && !FilesAccepted(p, r, sourceSha, evidence[refused], faults[refused])
    ensures verified.Some? ==> |verified.value| == |faults|
    ensures verified.Some? ==> forall i :: 0 <= i < |faults| ==> verified.value[i] == Rehash(p, r, faults[i])
  {
    hide *;
    var list: seq<Verification> := [];
    for i := 0 to |faults|
      invariant |list| == i
      invariant forall k :: 0 <= k < i ==> FilesAccepted(p, r, sourceSha, evidence[k], faults[k])
      invariant forall k :: 0 <= k < i ==> list[k] == Rehash(p, r, faults[k])
    {
      var v := VerifyFault(p, r, sourceSha, evidence[i], faults[i]);
      if v.None? { return None, i; }
      list := list + [v.value];
    }
    return Some(list), 0;
  }

  ghost predicate AllAccepted(p: Primitives, r: Retained, sourceSha: string, candidates: seq<Value>,
        faults: seq<Fault>)
  {
    forall i :: 0 <= i < |faults| ==> FaultAccepted(p, r, sourceSha, candidates, faults[i])
  }

  /** The receipt and the files are accepted. */
  ghost predicate Accepted(p: Primitives, r: Retained, sourceSha: string, receipt: Value) {
    && IsSourceSha(sourceSha) && ReceiptShape(receipt, sourceSha)
    && AllAccepted(p, r, sourceSha, receipt.fields[KControlledFailures].items, FAULTS)
  }

  /** `verifyGateCC5RetainedArtifacts`: rehashes and revalidates every file of every fault. */
  method Verify(p: Primitives, r: Retained, sourceSha: string, receipt: Value)
        returns (verified: Option<seq<Verification>>)
    ensures verified.Some? <==> Accepted(p, r, sourceSha, receipt)
    ensures verified.Some? ==> |verified.value| == |FAULTS|
    ensures verified.Some? ==> forall i :: 0 <= i < |FAULTS| ==> verified.value[i] == Rehash(p, r, FAULTS[i])
    ensures verified.Some? ==> forall i :: 0 <= i < |FAULTS| ==>
              IsBound(p, r, ListedIn(receipt), FAULTS[i], verified.value[i])
  {
    if !IsSourceSha(sourceSha) { return None; }
    var parsed := ParseReceipt(receipt, sourceSha);
    if parsed.None? {
      if ReceiptShape(receipt, sourceSha) {
        EvidenceMissing(p, r, sourceSha, receipt.fields[KControlledFailures].items, FAULTS);
      }
      return None;
    }
    ghost var refused;
    verified, refused := VerifyFaults(p, r, sourceSha, parsed.value, FAULTS);
    if verified.Some? {
      forall i | 0 <= i < |FAULTS| ensures IsBound(p, r, ListedIn(receipt), FAULTS[i], verified.value[i]) {
        AcceptedIsBound(p, r, sourceSha, receipt, i);
      }
    }
  }

  lemma {:induction false} EvidenceMissing(p: Primitives, r: Retained, sourceSha: string, candidates: seq<Value>,
        faults: seq<Fault>)
    requires exists i :: 0 <= i < |faults| && !HasEvidence(candidates, faults[i])
    ensures !AllAccepted(p, r, sourceSha, candidates, faults)
  {
    var i :| 0 <= i < |faults| && !HasEvidence(candidates, faults[i]);
    assert !FaultAccepted(p, r, sourceSha, candidates, faults[i]);
  }

  // ----- What an accepted receipt is bound to -----

  /** The candidates that a receipt lists. */
  function ListedIn(receipt: Value): seq<Value> {
    if receipt.Record? && KControlledFailures in receipt.fields && receipt.fields[KControlledFailures].List? then
      receipt.fields[KControlledFailures].items
    else []
  }

  ghost predicate IsListedFor(listed: seq<Value>, k: nat, fault: Fault) {
    && k < |listed| && listed[k].Record?
    && KFault in listed[k].fields && listed[k].fields[KFault] == Text(FaultText(fault))
  }

  /** The file is there, within five mebibytes and free of secret-like content, and the candidate lists
      under this key the hash that its content has. */
  ghost predicate FileIsListed(p: Primitives, r: Retained, candidate: Value, fault: Fault, lane: Lane, key: Key,
        hash: string)
  {
    && r.files(fault, lane).Some?
    && var content := r.files(fault, lane).value;
       && r.size(content) <= 5 * 1024 * 1024 && !SecretLike(CodeUnits.Units(content))
       && p.sha256(content) == hash
       && candidate.Record? && key in candidate.fields && candidate.fields[key] == Text(hash)
  }

  /** One candidate is listed for the fault, and the verification holds the hashes of its three files. */
  ghost predicate IsBound(p: Primitives, r: Retained, listed: seq<Value>, fault: Fault, v: Verification) {
    && v.fault == fault
    && (exists k: nat :: IsListedFor(listed, k, fault))
    && (forall j: nat, k: nat :: IsListedFor(listed, j, fault) && IsListedFor(listed, k, fault) ==> j == k)
    && forall k: nat :: IsListedFor(listed, k, fault) ==>
         && FileIsListed(p, r, listed[k], fault, InjectionLane, KInjectionSha, v.injection)
         && FileIsListed(p, r, listed[k], fault, RecoveryLane, KRecoverySha, v.recovery)
         && FileIsListed(p, r, listed[k], fault, CleanupLane, KCleanupSha, v.cleanup)
  }

  lemma {:induction false} MatchesListed(listed: seq<Value>, fault: Fault, k: nat)
    requires IsListedFor(listed, k, fault)
    ensures listed[k] in MatchesFor(listed, fault)
    ensures forall j: nat :: j != k && IsListedFor(listed, j, fault) ==> |MatchesFor(listed, fault)| >= 2
  {
    if k > 0 {
      MatchesListed(listed[1..], fault, k - 1);
      forall j: nat | j != k && IsListedFor(listed, j, fault) ensures |MatchesFor(listed, fault)| >= 2 {
        if j > 0 { assert IsListedFor(listed[1..], j - 1, fault); }
      }
    } else {
      forall j: nat | j != k && IsListedFor(listed, j, fault) ensures |MatchesFor(listed, fault)| >= 2 {
        assert IsListedFor(listed[1..], j - 1, fault);
        MatchesListed(listed[1..], fault, j - 1);
      }
    }
  }

  lemma {:induction false} MatchIsListed(listed: seq<Value>, fault: Fault) returns (k: nat)
    requires MatchesFor(listed, fault) != []
    ensures IsListedFor(listed, k, fault)
  {
    if IsFor(listed[0], fault) {
      k := 0;
    } else {
      k := MatchIsListed(listed[1..], fault);
      k := k + 1;
    }
  }

  lemma {:induction false} LaneIsListed(p: Primitives, r: Retained, sourceSha: string, evidence: Value, fault: Fault,
        lane: Lane)
    requires CandidateAccepted(evidence, fault) && LaneAccepted(p, r, sourceSha, evidence, fault, lane)
    ensures FileIsListed(p, r, evidence, fault, lane, HashKey(lane), LaneHash(p, r, fault, lane))
  {
    hide SecretLike, ArtifactAccepted, FaultText;
  }

  /** What the verifier accepts is bound to its files: every fault has one candidate, and each digest in it
      is the hash of the file that is there now. */
  lemma {:induction false} AcceptedIsBound(p: Primitives, r: Retained, sourceSha: string, receipt: Value, i: nat)
    requires Accepted(p, r, sourceSha, receipt) && i < |FAULTS|
    ensures IsBound(p, r, ListedIn(receipt), FAULTS[i], Rehash(p, r, FAULTS[i]))
  {
    var listed, fault := ListedIn(receipt), FAULTS[i];
    assert FaultAccepted(p, r, sourceSha, listed, fault);
    FaultIsBound(p, r, sourceSha, listed, fault);
  }

  lemma {:induction false} FaultIsBound(p: Primitives, r: Retained, sourceSha: string, listed: seq<Value>, fault: Fault)
    requires FaultAccepted(p, r, sourceSha, listed, fault)
    ensures IsBound(p, r, listed, fault, Rehash(p, r, fault))
  {
    hide LaneAccepted, CandidateAccepted, MatchesFor, IsListedFor, LaneHash, FileIsListed;
    var evidence := MatchesFor(listed, fault)[0];
    LaneIsListed(p, r, sourceSha, evidence, fault, InjectionLane);
    LaneIsListed(p, r, sourceSha, evidence, fault, RecoveryLane);
    LaneIsListed(p, r, sourceSha, evidence, fault, CleanupLane);
    var first := MatchIsListed(listed, fault);
    forall k: nat | IsListedFor(listed, k, fault) ensures k == first {
      MatchesListed(listed, fault, k);
    }
    MatchesListed(listed, fault, first);
    ListedInRange(listed, first, fault);
  }

  lemma {:induction false} ListedInRange(listed: seq<Value>, k: nat, fault: Fault)
    requires IsListedFor(listed, k, fault)
    ensures k < |listed|
  {
  }

  /** A receipt that lists for some file another digest than that of its content is refused, and so is one
      whose file is gone. */
  lemma {:induction false} AlteredIsRefused(p: Primitives, r: Retained, sourceSha: string, receipt: Value, i: nat,
        k: nat, lane: Lane, key: Key)
    requires i < |FAULTS| && IsListedFor(ListedIn(receipt), k, FAULTS[i])
    requires (lane, key) in {(InjectionLane, KInjectionSha), (RecoveryLane, KRecoverySha), (CleanupLane, KCleanupSha)}
    requires var file, fields := r.files(FAULTS[i], lane), ListedIn(receipt)[k].fields;
             file.None? || key !in fields || fields[key] != Text(p.sha256(file.value))
    ensures !Accepted(p, r, sourceSha, receipt)
  {
    hide Accepted;
    if Accepted(p, r, sourceSha, receipt) {
      AcceptedIsBound(p, r, sourceSha, receipt, i);
    }
  }

  lemma {:induction false} PlaceOf(p: Primitives, r: Retained, sourceSha: string, receipt: Value, i: nat)
      returns (place: nat)
    requires Accepted(p, r, sourceSha, receipt) && i < |FAULTS|
    ensures IsListedFor(ListedIn(receipt), place, FAULTS[i])
  {
    hide Accepted, IsListedFor, ListedIn, FileIsListed, Rehash;
    AcceptedIsBound(p, r, sourceSha, receipt, i);
    place :| IsListedFor(ListedIn(receipt), place, FAULTS[i]);
  }

  lemma {:induction false} PlacesOf(p: Primitives, r: Retained, sourceSha: string, receipt: Value, n: nat)
      returns (places: seq<nat>)
    requires Accepted(p, r, sourceSha, receipt) && n <= |FAULTS|
    ensures |places| == n && forall m :: 0 <= m < n ==> IsListedFor(ListedIn(receipt), places[m], FAULTS[m])
  {
    hide Accepted, IsListedFor, ListedIn;
    if n == 0 {
      places := [];
    } else {
      var rest := PlacesOf(p, r, sourceSha, receipt, n - 1);
      var place := PlaceOf(p, r, sourceSha, receipt, n - 1);
      places := rest + [place];
    }
  }

  /** Nothing but the candidates of the faults is listed: an accepted receipt has twelve candidates, and
      every one of them is for some fault. */
  lemma {:induction false} NothingElseListed(p: Primitives, r: Retained, sourceSha: string, receipt: Value, k: nat)
      returns (i: nat)
    requires Accepted(p, r, sourceSha, receipt) && k < |ListedIn(receipt)|
    ensures |ListedIn(receipt)| == 12 && i < |FAULTS| && IsListedFor(ListedIn(receipt), k, FAULTS[i])
  {
    TwelveListed(p, r, sourceSha, receipt);
    var places := PlacesOf(p, r, sourceSha, receipt, |FAULTS|);
    hide Accepted, IsListedFor, ListedIn;
    PlacesDiffer(ListedIn(receipt), places);
    i := AllTaken(places, |ListedIn(receipt)|, k);
  }

  lemma {:induction false} TwelveListed(p: Primitives, r: Retained, sourceSha: string, receipt: Value)
    requires Accepted(p, r, sourceSha, receipt)
    ensures |ListedIn(receipt)| == 12
  {
    hide AllAccepted;
    assert |FAULTS| == 12;
  }

  lemma {:induction false} FaultsDiffer(i: nat, j: nat)
    requires i < j < |FAULTS|
    ensures FAULTS[i] != FAULTS[j]
  {
  }

  lemma {:induction false} PlacesDiffer(listed: seq<Value>, places: seq<nat>)
    requires |places| == |FAULTS|
    requires forall m :: 0 <= m < |FAULTS| ==> IsListedFor(listed, places[m], FAULTS[m])
    ensures NoRepeats(places) && forall place :: place in places ==> place < |listed|
  {
    hide FaultText;
    forall i, j | 0 <= i < j < |places| ensures places[i] != places[j] {
      FaultsDiffer(i, j);
      if places[i] == places[j] { FaultTextInjective(FAULTS[i], FAULTS[j]); }
    }
  }

  /** As many different places as there are leave none out. */
  lemma {:induction false} AllTaken(places: seq<nat>, count: nat, k: nat) returns (i: nat)
    requires NoRepeats(places) && |places| == count && k < count
    requires forall place :: place in places ==> place < count
    ensures i < |places| && places[i] == k
  {
    ElementsCount(places);
    BelowCount(count);
    assert Elements(places) <= Below(count);
    EqualBySize(Elements(places), Below(count));
    assert k in Elements(places);
    i :| 0 <= i < |places| && places[i] == k;
  }

  function Below(count: nat): set<nat> { if count == 0 then {} else Below(count - 1) + {count - 1} }

  lemma {:induction false} BelowCount(count: nat)
    ensures |Below(count)| == count && forall n: nat :: n in Below(count) <==> n < count
  {
    if count > 0 { BelowCount(count - 1); }
  }

  // ----- What can be changed in an accepted phase or candidate -----

  /** A text of so many hexadecimal digits in lower case. */
  predicate IsHexText(v: Value, n: nat) {
    v.Text? && |v.s| == n && forall i :: 0 <= i < n ==> '0' <= v.s[i] <= '9' || 'a' <= v.s[i] <= 'f'
  }

  /** What the member of a phase may be, given what it is in an accepted one. */
  predicate MayReplace(k: Key, accepted: Value, other: Value) {
    if k in {KRunId, KDeploymentId, KBuildId, KComponent} then other.Text? && |other.s| > 0
    else if k in {KNonceSha, KObservationSha, KAttestationSha} then IsHexText(other, 64)
    else other == accepted
  }

  lemma {:induction false} AcceptedMembers(v: Value, w: Value, sourceSha: string, fault: Fault, phase: Phase)
    requires PhaseAccepted(v, sourceSha, fault, phase) && w.Record? && w.fields.Keys == SANITIZED_KEYS
    ensures PhaseAccepted(w, sourceSha, fault, phase) <==>
            forall k :: k in SANITIZED_KEYS ==> MayReplace(k, v.fields[k], w.fields[k])
  {
    hide FaultText, PhaseText;
    var all := forall k :: k in SANITIZED_KEYS ==> MayReplace(k, v.fields[k], w.fields[k]);
    if all {
      assert MayReplace(KProtocol, v.fields[KProtocol], w.fields[KProtocol]);
      assert MayReplace(KSourceSha, v.fields[KSourceSha], w.fields[KSourceSha]);
      assert MayReplace(KRunId, v.fields[KRunId], w.fields[KRunId]);
      assert MayReplace(KDeploymentId, v.fields[KDeploymentId], w.fields[KDeploymentId]);
      assert MayReplace(KBuildId, v.fields[KBuildId], w.fields[KBuildId]);
      assert MayReplace(KComponent, v.fields[KComponent], w.fields[KComponent]);
      assert MayReplace(KFault, v.fields[KFault], w.fields[KFault]);
      assert MayReplace(KPhase, v.fields[KPhase], w.fields[KPhase]);
      assert MayReplace(KNonceSha, v.fields[KNonceSha], w.fields[KNonceSha]);
      assert MayReplace(KObservationSha, v.fields[KObservationSha], w.fields[KObservationSha]);
      assert MayReplace(KAttestationSha, v.fields[KAttestationSha], w.fields[KAttestationSha]);
    }
  }

  lemma {:induction false} AcceptedKeys(v: Value, sourceSha: string, fault: Fault, phase: Phase)
    requires PhaseAccepted(v, sourceSha, fault, phase)
    ensures v.Record? && v.fields.Keys == SANITIZED_KEYS
  {
    hide FaultText, PhaseText;
  }

  /** Of an accepted phase the identifiers, the component and the digests can be replaced by others of
      their kind; every other change, a further member and a missing one make it refused. */
  lemma {:induction false} PhaseTampered(v: Value, sourceSha: string, fault: Fault, phase: Phase, k: Key, t: Value)
    requires PhaseAccepted(v, sourceSha, fault, phase)
    ensures v.Record?
    ensures PhaseAccepted(Record(v.fields[k := t]), sourceSha, fault, phase) <==>
            k in v.fields && MayReplace(k, v.fields[k], t)
    ensures k in v.fields ==> !PhaseAccepted(Record(v.fields - {k}), sourceSha, fault, phase)
  {
    hide PhaseAccepted, MayReplace;
    AcceptedKeys(v, sourceSha, fault, phase);
    var tampered, smaller := v.fields[k := t], v.fields - {k};
    AcceptedMembers(v, v, sourceSha, fault, phase);
    if PhaseAccepted(Record(tampered), sourceSha, fault, phase) {
      AcceptedKeys(Record(tampered), sourceSha, fault, phase);
      assert k in tampered;
    }
    if k in v.fields {
      assert tampered.Keys == SANITIZED_KEYS;
      AcceptedMembers(v, Record(tampered), sourceSha, fault, phase);
      assert tampered[k] == t;
      if PhaseAccepted(Record(smaller), sourceSha, fault, phase) {
        AcceptedKeys(Record(smaller), sourceSha, fault, phase);
      }
    }
  }

  /** What the member of a candidate may be, given what it is in an accepted one. */
  predicate MayList(k: Key, accepted: Value, other: Value) {
    match k
    case KInjector =>
      && other.Text?
      && other.s in {"process_signal", "network_proxy", "connection_limit",
                     "bounded_delay", "filesystem_limit", "command"}
    case KInjectionSha | KRecoverySha | KCleanupSha => IsHexText(other, 64)
    case KRecoveryOracle =>
      && other.Text? && 3 <= |other.s| <= 200 && 'a' <= other.s[0] <= 'z'
      && forall i :: 0 <= i < |other.s| ==>
           'a' <= other.s[i] <= 'z' || '0' <= other.s[i] <= '9' || other.s[i] == '_'
    case _ => other == accepted
  }

  lemma {:induction false} ListedKeys(v: Value, fault: Fault)
    requires CandidateAccepted(v, fault)
    ensures v.Record? && v.fields.Keys == RECEIPT_KEYS
  {
    hide FaultText;
  }

  lemma {:induction false} MayListExactly(k: Key, accepted: Value, other: Value)
    requires k in RECEIPT_KEYS
    ensures MayList(k, accepted, other) <==>
            if k == KInjector then other.Text? && other.s in INJECTORS
            else if k in {KInjectionSha, KRecoverySha, KCleanupSha} then HashText(other)
            else if k == KRecoveryOracle then other.Text? && IsOracle(other.s)
            else other == accepted
  {
  }

  /** What the member of an accepted candidate must be. */
  predicate ListsWell(k: Key, t: Value, fault: Fault) {
    if k == KFault then t == Text(FaultText(fault))
    else if k == KInjector then t.Text? && t.s in INJECTORS
    else if k in {KInjectionSha, KRecoverySha, KCleanupSha} then HashText(t)
    else if k == KRecoveryOracle then t.Text? && IsOracle(t.s)
    else t == Bool(true)
  }

  lemma {:induction false} AcceptedByMember(v: Value, fault: Fault)
    requires v.Record? && v.fields.Keys == RECEIPT_KEYS
    ensures CandidateAccepted(v, fault) <==> forall k :: k in RECEIPT_KEYS ==> ListsWell(k, v.fields[k], fault)
  {
    hide FaultText, INJECTORS, HashText, IsOracle;
    assert KFault in RECEIPT_KEYS && KInjector in RECEIPT_KEYS && KRecoveryOracle in RECEIPT_KEYS;
    assert KInjectionSha in RECEIPT_KEYS && KRecoverySha in RECEIPT_KEYS && KCleanupSha in RECEIPT_KEYS;
    assert KRecoveryObserved in RECEIPT_KEYS && KCleanupObserved in RECEIPT_KEYS;
  }

  lemma {:induction false} ListedMembers(v: Value, w: Value, fault: Fault)
    requires CandidateAccepted(v, fault) && w.Record? && w.fields.Keys == RECEIPT_KEYS
    ensures CandidateAccepted(w, fault) <==> forall k :: k in RECEIPT_KEYS ==> MayList(k, v.fields[k], w.fields[k])
  {
    hide FaultText, MayList, INJECTORS, HashText, IsOracle, CandidateAccepted, RECEIPT_KEYS;
    ListedKeys(v, fault);
    AcceptedByMember(v, fault);
    AcceptedByMember(w, fault);
    forall k | k in RECEIPT_KEYS
      ensures MayList(k, v.fields[k], w.fields[k]) <==> ListsWell(k, w.fields[k], fault)
    {
      assert ListsWell(k, v.fields[k], fault);
      MayListExactly(k, v.fields[k], w.fields[k]);
    }
  }

  /** Of an accepted candidate the injector, the digests and the recovery oracle can be replaced by others
      of their kind; every other change, a further member and a missing one make it refused. */
  lemma {:induction false} CandidateTampered(v: Value, fault: Fault, k: Key, t: Value)
    requires CandidateAccepted(v, fault)
    ensures v.Record?
    ensures CandidateAccepted(Record(v.fields[k := t]), fault) <==> k in v.fields && MayList(k, v.fields[k], t)
    ensures k in v.fields ==> !CandidateAccepted(Record(v.fields - {k}), fault)
  {
    hide CandidateAccepted, MayList;
    ListedKeys(v, fault);
    var tampered, smaller := v.fields[k := t], v.fields - {k};
    ListedMembers(v, v, fault);
    if CandidateAccepted(Record(tampered), fault) {
      ListedKeys(Record(tampered), fault);
      assert k in tampered;
    }
    if k in v.fields {
      assert tampered.Keys == RECEIPT_KEYS;
      ListedMembers(v, Record(tampered), fault);
      assert tampered[k] == t;
      if CandidateAccepted(Record(smaller), fault) { ListedKeys(Record(smaller), fault); }
    }
  }

  // ----- What the drills write is accepted -----

  /** What is assumed of the primitives: an artifact of sanitised phases is written as JSON.stringify
      writes it and parses back, and digests are 64 hexadecimal digits. */
  ghost predicate Lawful(p: Primitives) {
    && (forall lane, phases :: PhaseRecords(phases) ==>
          p.parse(p.stringify(ArtifactValue(lane, phases)) + "\n") == Some(ArtifactValue(lane, phases)))
    && (forall lane, phases :: PhaseRecords(phases) ==>
          CodeUnits.Units(p.stringify(ArtifactValue(lane, phases))) == Json.Stringify(ArtifactJson(lane, phases)))
    && (forall s :: IsSha256(p.sha256(s)))
  }

  /** A configuration whose identifiers the verifier can accept. */
  predicate Identified(c: Config) {
    IsSourceSha(c.sourceSha) && c.runId != "" && c.deploymentId != "" && c.buildId != ""
  }

  lemma {:induction false} SanitizedKeys(c: Config, p: Primitives, e: Expected, observation: string,
        attestation: string)
    ensures Sanitized(c, p, e, observation, attestation).fields.Keys == SANITIZED_KEYS
  {
    assert Identity(c, e.fault, e.phase).Keys + {KNonceSha, KObservationSha, KAttestationSha} == SANITIZED_KEYS;
  }

  lemma {:induction false} SanitizedIdentity(c: Config, p: Primitives, e: Expected, observation: string,
        attestation: string, k: Key)
    requires k in Identity(c, e.fault, e.phase)
    ensures var fields := Sanitized(c, p, e, observation, attestation).fields;
            k in fields && fields[k] == Identity(c, e.fault, e.phase)[k]
  {
  }

  lemma {:induction false} SanitizedHashes(c: Config, p: Primitives, e: Expected, observation: string,
        attestation: string)
    requires Lawful(p)
    ensures var fields := Sanitized(c, p, e, observation, attestation).fields;
            && fields.Keys == SANITIZED_KEYS
            && HashText(fields[KNonceSha]) && HashText(fields[KObservationSha]) && HashText(fields[KAttestationSha])
  {
    hide Lawful, IsSha256;
    SanitizedKeys(c, p, e, observation, attestation);
    DigestIsHash(p, e.nonce);
    DigestIsHash(p, observation);
    DigestIsHash(p, attestation);
  }

  lemma {:induction false} SanitizedAccepted(c: Config, p: Primitives, e: Expected, observation: string,
        attestation: string)
    requires Identified(c) && Lawful(p)
    ensures PhaseAccepted(Sanitized(c, p, e, observation, attestation), c.sourceSha, e.fault, e.phase)
  {
    SanitizedHashes(c, p, e, observation, attestation);
    SanitizedIdentity(c, p, e, observation, attestation, KProtocol);
    SanitizedIdentity(c, p, e, observation, attestation, KSourceSha);
    SanitizedIdentity(c, p, e, observation, attestation, KFault);
    SanitizedIdentity(c, p, e, observation, attestation, KPhase);
    SanitizedIdentity(c, p, e, observation, attestation, KRunId);
    SanitizedIdentity(c, p, e, observation, attestation, KDeploymentId);
    SanitizedIdentity(c, p, e, observation, attestation, KBuildId);
    SanitizedIdentity(c, p, e, observation, attestation, KComponent);
  }

  lemma {:induction false} SanitizedKeepsIdentity(c: Config, p: Primitives, e: Expected, observation: string,
        attestation: string)
    requires Lawful(p)
    ensures IsSanitized(c, e.fault, e.phase, Sanitized(c, p, e, observation, attestation))
  {
    SanitizedHashes(c, p, e, observation, attestation);
    SanitizedTexts(c, p, e, observation, attestation);
    hide FaultText, PhaseText, ComponentText, IsSha256, Lawful, SANITIZED_KEYS;
    forall k | k in Identity(c, e.fault, e.phase)
      ensures var fields := Sanitized(c, p, e, observation, attestation).fields;
              k in fields && fields[k] == Identity(c, e.fault, e.phase)[k]
    {
      SanitizedIdentity(c, p, e, observation, attestation, k);
    }
  }

  lemma {:induction false} SanitizedTexts(c: Config, p: Primitives, e: Expected, observation: string,
        attestation: string)
    ensures IsPhaseRecord(Sanitized(c, p, e, observation, attestation))
  {
    hide FaultText, PhaseText, ComponentText;
    SanitizedKeys(c, p, e, observation, attestation);
  }

  /** What the drill of a fault observes in a phase: the verifier accepts it, and it has the identity of
      the drill. */
  ghost predicate IsObserved(c: Config, fault: Fault, phase: Phase, v: Value) {
    PhaseAccepted(v, c.sourceSha, fault, phase) && IsSanitized(c, fault, phase, v)
  }

  lemma {:induction false} OutcomeIsObserved(c: Config, p: Primitives, fault: Fault, env: Environment, phase: Phase)
    requires Identified(c) && Lawful(p) && Outcome(c, p, fault, env, phase).Some?
    ensures IsObserved(c, fault, phase, Outcome(c, p, fault, env, phase).value)
  {
    var e := Expected(fault, phase, env.nonces(phase));
    var fields := env.replies(phase).body.value.fields;
    SanitizedAccepted(c, p, e, fields[KObservation].s, fields[KAttestation].s);
    SanitizedKeepsIdentity(c, p, e, fields[KObservation].s, fields[KAttestation].s);
  }

  ghost predicate AllObserved(c: Config, fault: Fault, observed: map<Phase, Value>) {
    forall phase :: phase in observed && IsObserved(c, fault, phase, observed[phase])
  }

  lemma {:induction false} ObservedLane(observed: map<Phase, Value>, phases: seq<Phase>)
    requires forall i :: 0 <= i < |phases| ==> phases[i] in observed
    ensures |ObservedOf(observed, phases)| == |phases|
    ensures forall i :: 0 <= i < |phases| ==> ObservedOf(observed, phases)[i] == observed[phases[i]]
  {
    if phases != [] { ObservedLane(observed, phases[1..]); }
  }

  /** The phases that the file of a lane holds. */
  lemma {:induction false} LaneObserved(c: Config, fault: Fault, observed: map<Phase, Value>, lane: Lane)
    requires AllObserved(c, fault, observed)
    ensures AllSanitized(c, fault, LanePhases(lane), ObservedOf(observed, LanePhases(lane)))
    ensures var phases := ObservedOf(observed, LanePhases(lane));
            forall i :: 0 <= i < |LanePhases(lane)| ==>
              PhaseAccepted(phases[i], c.sourceSha, fault, LanePhases(lane)[i])
  {
    hide PhaseAccepted, IsSanitized, LanePhases;
    ObservedLane(observed, LanePhases(lane));
  }

  lemma {:induction false} ValueIsAccepted(sourceSha: string, fault: Fault, lane: Lane, phases: seq<Value>)
    requires |phases| == |LanePhases(lane)|
    requires forall i :: 0 <= i < |LanePhases(lane)| ==>
               PhaseAccepted(phases[i], sourceSha, fault, LanePhases(lane)[i])
    ensures ArtifactAccepted(Some(ArtifactValue(lane, phases)), sourceSha, fault, lane)
  {
    hide PhaseAccepted, LanePhases, LaneText;
  }

  lemma {:induction false} ArtifactIsAccepted(c: Config, p: Primitives, fault: Fault, observed: map<Phase, Value>,
        lane: Lane)
    requires Lawful(p) && AllObserved(c, fault, observed)
    ensures ArtifactAccepted(p.parse(Artifact(p, lane, observed)), c.sourceSha, fault, lane)
  {
    ArtifactLine(p, lane, observed);
    hide *;
    var phases := ObservedOf(observed, LanePhases(lane));
    LaneObserved(c, fault, observed, lane);
    SanitizedRecords(c, fault, LanePhases(lane), phases);
    LaneParses(p, lane, phases);
    LaneLength(c, fault, lane, phases);
    ValueIsAccepted(c.sourceSha, fault, lane, phases);
  }

  lemma {:induction false} ArtifactLine(p: Primitives, lane: Lane, observed: map<Phase, Value>)
    ensures Artifact(p, lane, observed)
            == p.stringify(ArtifactValue(lane, ObservedOf(observed, LanePhases(lane)))) + "\n"
  {
  }

  lemma {:induction false} LaneLength(c: Config, fault: Fault, lane: Lane, phases: seq<Value>)
    requires AllSanitized(c, fault, LanePhases(lane), phases)
    ensures |phases| == |LanePhases(lane)|
  {
  }

  lemma {:induction false} LaneParses(p: Primitives, lane: Lane, phases: seq<Value>)
    requires Lawful(p) && PhaseRecords(phases)
    ensures p.parse(p.stringify(ArtifactValue(lane, phases)) + "\n") == Some(ArtifactValue(lane, phases))
  {
    hide PhaseRecords, ArtifactValue;
  }

  lemma {:induction false} LaneIsWritten(p: Primitives, lane: Lane, phases: seq<Value>)
    requires Lawful(p) && PhaseRecords(phases)
    ensures CodeUnits.Units(p.stringify(ArtifactValue(lane, phases)) + "\n")
            == Json.Stringify(ArtifactJson(lane, phases)) + [0x0A]
  {
    hide PhaseRecords, ArtifactValue, ArtifactJson;
    CodeUnits.UnitsConcat(p.stringify(ArtifactValue(lane, phases)), "\n");
    assert CodeUnits.Units("\n") == [0x0A];
  }

  /** A file is secret-like exactly when an identifier is, as JSON escapes it. */
  lemma {:induction false} ArtifactIsSecret(c: Config, p: Primitives, fault: Fault, observed: map<Phase, Value>,
        lane: Lane)
    requires Identified(c) && Lawful(p) && AllObserved(c, fault, observed)
    ensures SecretLike(CodeUnits.Units(Artifact(p, lane, observed))) <==> IdentifierBetrayed(c)
  {
    hide PhaseAccepted, IsSanitized, LanePhases, AllSanitized, PhaseRecords, AllObserved, IsSha256, SecretLike;
    hide IdentifierBetrayed, Lawful;
    var phases := ObservedOf(observed, LanePhases(lane));
    LaneObserved(c, fault, observed, lane);
    SanitizedRecords(c, fault, LanePhases(lane), phases);
    LaneIsWritten(p, lane, phases);
    ArtifactSecretExact(c, fault, lane, phases);
  }

  // ----- A file is accepted in its own place only -----

  lemma {:induction false} LaneTextInjective(lane: Lane, other: Lane)
    requires LaneText(lane) == LaneText(other)
    ensures lane == other
  {
    assert LaneText(lane)[0] == LaneText(other)[0];
  }

  /** An observed phase is accepted as that phase of that fault from that source only. */
  lemma {:induction false} PhasePlace(c: Config, own: Fault, ownPhase: Phase, v: Value, sourceSha: string, fault: Fault,
        phase: Phase)
    requires IsObserved(c, own, ownPhase, v)
    ensures PhaseAccepted(v, sourceSha, fault, phase) <==> sourceSha == c.sourceSha && fault == own && phase == ownPhase
  {
    hide FaultText, PhaseText, IsSanitized, NonEmptyText, HashText;
    if FaultText(fault) == FaultText(own) { FaultTextInjective(fault, own); }
    if PhaseText(phase) == PhaseText(ownPhase) { PhaseTextInjective(phase, ownPhase); }
  }

  /** The drill of a fault observed these phases, maybe not all. */
  ghost predicate SomeObserved(c: Config, fault: Fault, observed: map<Phase, Value>) {
    forall phase :: phase in observed ==> IsObserved(c, fault, phase, observed[phase])
  }

  lemma {:induction false} ObservedCount(observed: map<Phase, Value>, phases: seq<Phase>)
    ensures |ObservedOf(observed, phases)| <= |phases|
    ensures |ObservedOf(observed, phases)| == |phases| <==> forall i :: 0 <= i < |phases| ==> phases[i] in observed
  {
    if phases != [] {
      ObservedCount(observed, phases[1..]);
      if forall i :: 0 <= i < |phases[1..]| ==> phases[1..][i] in observed {
        forall i | 0 < i < |phases| ensures phases[i] in observed { assert phases[1..][i - 1] == phases[i]; }
      }
    }
  }

  lemma {:induction false} ObservedRecords(c: Config, fault: Fault, observed: map<Phase, Value>, phases: seq<Phase>)
    requires SomeObserved(c, fault, observed)
    ensures PhaseRecords(ObservedOf(observed, phases))
  {
    hide IsPhaseRecord, IsObserved;
    if phases != [] {
      ObservedRecords(c, fault, observed, phases[1..]);
      if phases[0] in observed { ObservedIsRecord(c, fault, phases[0], observed[phases[0]]); }
    }
  }

  lemma {:induction false} ObservedIsRecord(c: Config, fault: Fault, phase: Phase, v: Value)
    requires IsObserved(c, fault, phase, v)
    ensures IsPhaseRecord(v)
  {
    hide PhaseAccepted;
  }

  lemma {:induction false} LaneIsNotEmpty(lane: Lane)
    ensures |LanePhases(lane)| > 0
  {
  }

  lemma {:induction false} ValuePlace(c: Config, own: Fault, ownLane: Lane, observed: map<Phase, Value>,
        sourceSha: string, fault: Fault, lane: Lane)
    requires SomeObserved(c, own, observed)
    ensures var phases := ObservedOf(observed, LanePhases(ownLane));
            ArtifactAccepted(Some(ArtifactValue(ownLane, phases)), sourceSha, fault, lane) <==>
            && lane == ownLane && fault == own && sourceSha == c.sourceSha
            && forall i :: 0 <= i < |LanePhases(lane)| ==> LanePhases(lane)[i] in observed
  {
    hide PhaseAccepted, LanePhases, LaneText, IsObserved;
    var names := LanePhases(ownLane);
    LaneIsNotEmpty(ownLane);
    ObservedCount(observed, names);
    if LaneText(lane) == LaneText(ownLane) {
      LaneTextInjective(lane, ownLane);
      if forall i :: 0 <= i < |names| ==> names[i] in observed {
        ObservedLane(observed, names);
        forall i | 0 <= i < |names|
          ensures PhaseAccepted(observed[names[i]], sourceSha, fault, names[i])
             <==> sourceSha == c.sourceSha && fault == own
        {
          PhasePlace(c, own, names[i], observed[names[i]], sourceSha, fault, names[i]);
        }
        assert PhaseAccepted(observed[names[0]], sourceSha, fault, names[0])
          <==> sourceSha == c.sourceSha && fault == own;
      }
    }
  }

  /** The file that a drill writes for a lane is accepted for that lane of that fault and that source
      revision only, and exactly if the drill observed all phases of the lane. */
  lemma {:induction false} ArtifactPlace(c: Config, p: Primitives, own: Fault, ownLane: Lane,
        observed: map<Phase, Value>, sourceSha: string, fault: Fault, lane: Lane)
    requires Lawful(p) && SomeObserved(c, own, observed)
    ensures ArtifactAccepted(p.parse(Artifact(p, ownLane, observed)), sourceSha, fault, lane) <==>
            && lane == ownLane && fault == own && sourceSha == c.sourceSha
            && forall i :: 0 <= i < |LanePhases(lane)| ==> LanePhases(lane)[i] in observed
  {
    ArtifactLine(p, ownLane, observed);
    hide *;
    ObservedRecords(c, own, observed, LanePhases(ownLane));
    LaneParses(p, ownLane, ObservedOf(observed, LanePhases(ownLane)));
    ValuePlace(c, own, ownLane, observed, sourceSha, fault, lane);
  }

  lemma {:induction false} OracleTextAccepted()
    ensures IsOracle("controlled_staging_recovered")
  {
  }

  lemma {:induction false} DigestIsHash(p: Primitives, s: string)
    requires Lawful(p)
    ensures IsSha256(p.sha256(s))
  {
    hide IsSha256;
  }

  lemma {:induction false} ReceiptIsAccepted(p: Primitives, fault: Fault, observed: map<Phase, Value>)
    requires Lawful(p)
    ensures CandidateAccepted(Receipt(p, fault, observed), fault) && IsFor(Receipt(p, fault, observed), fault)
  {
    hide Lawful, IsSha256, Artifact, IsOracle;
    OracleTextAccepted();
    DigestIsHash(p, Artifact(p, InjectionLane, observed));
    DigestIsHash(p, Artifact(p, RecoveryLane, observed));
    DigestIsHash(p, Artifact(p, CleanupLane, observed));
  }

  function Receipts(p: Primitives, order: seq<Fault>, observed: Fault -> map<Phase, Value>): seq<Value> {
    if order == [] then [] else [Receipt(p, order[0], observed(order[0]))] + Receipts(p, order[1..], observed)
  }

  lemma {:induction false} ForItselfOnly(p: Primitives, f: Fault, observed: map<Phase, Value>, fault: Fault)
    ensures IsFor(Receipt(p, f, observed), fault) <==> f == fault
  {
    if FaultText(f) == FaultText(fault) { FaultTextInjective(f, fault); }
  }

  /** The drills reported each fault once, in some order. */
  ghost predicate EachOnce(order: seq<Fault>) {
    && |order| == |FAULTS|
    && (forall f: Fault :: f in order)
    && (forall i, j :: 0 <= i < j < |order| ==> order[i] != order[j])
  }

  lemma {:induction false} NoMatches(p: Primitives, order: seq<Fault>, observed: Fault -> map<Phase, Value>,
        fault: Fault)
    requires fault !in order
    ensures MatchesFor(Receipts(p, order, observed), fault) == []
  {
    if order != [] {
      var rest := Receipts(p, order[1..], observed);
      NoMatches(p, order[1..], observed, fault);
      ForItselfOnly(p, order[0], observed(order[0]), fault);
      assert ([Receipt(p, order[0], observed(order[0]))] + rest)[1..] == rest;
    }
  }

  lemma {:induction false} OneMatch(p: Primitives, order: seq<Fault>, observed: Fault -> map<Phase, Value>,
        fault: Fault)
    requires fault in order && forall i, j :: 0 <= i < j < |order| ==> order[i] != order[j]
    ensures MatchesFor(Receipts(p, order, observed), fault) == [Receipt(p, fault, observed(fault))]
  {
    var first, rest := Receipt(p, order[0], observed(order[0])), Receipts(p, order[1..], observed);
    ForItselfOnly(p, order[0], observed(order[0]), fault);
    assert ([first] + rest)[1..] == rest;
    assert order == [order[0]] + order[1..];
    if order[0] == fault {
      NoMatches(p, order[1..], observed, fault);
    } else {
      OneMatch(p, order[1..], observed, fault);
    }
  }

  lemma {:induction false} ReceiptCount(p: Primitives, order: seq<Fault>, observed: Fault -> map<Phase, Value>)
    ensures |Receipts(p, order, observed)| == |order|
  {
    if order != [] { ReceiptCount(p, order[1..], observed); }
  }

  /** The receipt of a workload whose drills reported in some order. */
  function WorkloadReceipt(c: Config, p: Primitives, order: seq<Fault>, observed: Fault -> map<Phase, Value>): Value {
    Record(map[KSourceSha := Text(c.sourceSha), KControlledFailures := List(Receipts(p, order, observed))])
  }

  ghost predicate Keeps(p: Primitives, r: Retained, observed: Fault -> map<Phase, Value>) {
    forall fault, lane {:trigger r.files(fault, lane)} ::
      var content := Artifact(p, lane, observed(fault));
      r.files(fault, lane) == Some(content) && r.size(content) <= 5 * 1024 * 1024
  }

  lemma {:induction false} ReceiptHash(p: Primitives, fault: Fault, observed: map<Phase, Value>, lane: Lane)
    ensures HashKey(lane) in Receipt(p, fault, observed).fields
    ensures Receipt(p, fault, observed).fields[HashKey(lane)] == Text(p.sha256(Artifact(p, lane, observed)))
  {
  }

  lemma {:induction false} FileIsRead(c: Config, p: Primitives, r: Retained, observed: Fault -> map<Phase, Value>,
        fault: Fault, lane: Lane)
    requires Identified(c) && Lawful(p) && AllObserved(c, fault, observed(fault)) && Keeps(p, r, observed)
    ensures ReadRetained(r, fault, lane)
            == if IdentifierBetrayed(c) then None else Some(Artifact(p, lane, observed(fault)))
  {
    hide Lawful, AllObserved, SecretLike, IdentifierBetrayed, Artifact;
    ArtifactIsSecret(c, p, fault, observed(fault), lane);
    assert r.files(fault, lane) == Some(Artifact(p, lane, observed(fault)));
  }

  lemma {:induction false} LaneIsAccepted(c: Config, p: Primitives, r: Retained, observed: Fault -> map<Phase, Value>,
        fault: Fault, lane: Lane)
    requires Identified(c) && Lawful(p) && AllObserved(c, fault, observed(fault)) && Keeps(p, r, observed)
    requires CandidateAccepted(Receipt(p, fault, observed(fault)), fault)
    ensures LaneAccepted(p, r, c.sourceSha, Receipt(p, fault, observed(fault)), fault, lane) <==>
            !IdentifierBetrayed(c)
  {
    hide Lawful, AllObserved, ReadRetained, ArtifactAccepted, CandidateAccepted, Keeps, IdentifierBetrayed, Artifact;
    hide Identified;
    FileIsRead(c, p, r, observed, fault, lane);
    ArtifactIsAccepted(c, p, fault, observed(fault), lane);
    ReceiptHash(p, fault, observed(fault), lane);
    hide Receipt;
  }

  /** The drill of a fault returned its receipt, having observed these values. */
  ghost predicate DrilledTo(c: Config, p: Primitives, fault: Fault, env: Environment, observed: map<Phase, Value>) {
    && AllAttested(OutcomesOf(c, p, fault, env))
    && exists attempted, n :: DrillOf(OutcomesOf(c, p, fault, env), attempted, n)
                              && ObservedIs(OutcomesOf(c, p, fault, env), attempted, observed)
  }

  lemma {:induction false} PhaseIsObserved(c: Config, p: Primitives, fault: Fault, env: Environment,
        attempted: seq<Phase>, observed: map<Phase, Value>, phase: Phase)
    requires Identified(c) && Lawful(p) && ObservedIs(OutcomesOf(c, p, fault, env), attempted, observed)
    requires phase in observed
    ensures IsObserved(c, fault, phase, observed[phase])
  {
    hide Lawful, IsObserved, Identified, Outcome;
    assert OutcomesOf(c, p, fault, env)(phase) == Some(observed[phase]);
    OutcomeIsObserved(c, p, fault, env, phase);
  }

  lemma {:induction false} DrilledIsObserved(c: Config, p: Primitives, fault: Fault, env: Environment,
        observed: map<Phase, Value>)
    requires Identified(c) && Lawful(p) && DrilledTo(c, p, fault, env, observed)
    ensures AllObserved(c, fault, observed)
  {
    hide Lawful, IsObserved, Identified, DrillOf, ObservedIs, AllAttested;
    var outcomes := OutcomesOf(c, p, fault, env);
    var attempted, n :| DrillOf(outcomes, attempted, n) && ObservedIs(outcomes, attempted, observed);
    SeenAll(outcomes, attempted, n, observed);
    hide OutcomesOf;
    forall phase ensures phase in observed && IsObserved(c, fault, phase, observed[phase]) {
      PhasesListed(phase);
      PhaseIsObserved(c, p, fault, env, attempted, observed, phase);
    }
  }

  lemma {:induction false} FilesAreAccepted(c: Config, p: Primitives, r: Retained, observed: Fault -> map<Phase, Value>,
        fault: Fault)
    requires Identified(c) && Lawful(p) && AllObserved(c, fault, observed(fault)) && Keeps(p, r, observed)
    requires CandidateAccepted(Receipt(p, fault, observed(fault)), fault)
    ensures FilesAccepted(p, r, c.sourceSha, Receipt(p, fault, observed(fault)), fault) <==> !IdentifierBetrayed(c)
  {
    hide Lawful, AllObserved, Keeps, CandidateAccepted, IdentifierBetrayed, LaneAccepted, Receipt, Identified;
    LaneIsAccepted(c, p, r, observed, fault, InjectionLane);
    LaneIsAccepted(c, p, r, observed, fault, RecoveryLane);
    LaneIsAccepted(c, p, r, observed, fault, CleanupLane);
  }

  lemma {:induction false} MatchOnce(p: Primitives, order: seq<Fault>, observed: Fault -> map<Phase, Value>,
        fault: Fault)
    requires EachOnce(order)
    ensures MatchesFor(Receipts(p, order, observed), fault) == [Receipt(p, fault, observed(fault))]
  {
    hide MatchesFor, Receipts, Receipt;
    OneMatch(p, order, observed, fault);
  }

  lemma {:induction false} FaultIsAccepted(c: Config, p: Primitives, r: Retained, observed: Fault -> map<Phase, Value>,
        order: seq<Fault>, fault: Fault)
    requires Identified(c) && Lawful(p) && AllObserved(c, fault, observed(fault)) && Keeps(p, r, observed)
    requires EachOnce(order)
    ensures FaultAccepted(p, r, c.sourceSha, Receipts(p, order, observed), fault) <==> !IdentifierBetrayed(c)
  {
    hide Lawful, AllObserved, Keeps, CandidateAccepted, IdentifierBetrayed, FilesAccepted, Receipt, Receipts;
    hide Identified, MatchesFor, EachOnce, IsFor;
    MatchOnce(p, order, observed, fault);
    ReceiptIsAccepted(p, fault, observed(fault));
    FilesAreAccepted(c, p, r, observed, fault);
  }

  lemma {:induction false} WorkloadIsAccepted(c: Config, p: Primitives, r: Retained,
        observed: Fault -> map<Phase, Value>, order: seq<Fault>, accepted: bool)
    requires IsSourceSha(c.sourceSha) && |order| == |FAULTS|
    requires forall fault :: FaultAccepted(p, r, c.sourceSha, Receipts(p, order, observed), fault) <==> accepted
    ensures Accepted(p, r, c.sourceSha, WorkloadReceipt(c, p, order, observed)) <==> accepted
  {
    hide FaultAccepted;
    ReceiptCount(p, order, observed);
    var candidates := Receipts(p, order, observed);
    assert AllAccepted(p, r, c.sourceSha, candidates, FAULTS) ==>
        FaultAccepted(p, r, c.sourceSha, candidates, FAULTS[0]);
  }

  /** If every drill returned its receipt, the verifier accepts the receipts, in whatever order they were
      reported, together with the files the drills wrote, exactly when the pattern for secret-like content
      finds nothing in an identifier of the run, as JSON escapes it. */
  lemma {:induction false} DrillsAreAccepted(c: Config, p: Primitives, r: Retained, environments: Fault -> Environment,
                                             observed: Fault -> map<Phase, Value>, order: seq<Fault>)
    requires Identified(c) && Lawful(p) && Keeps(p, r, observed) && EachOnce(order)
    requires forall fault {:trigger environments(fault)} :: DrilledTo(c, p, fault, environments(fault), observed(fault))
    ensures Accepted(p, r, c.sourceSha, WorkloadReceipt(c, p, order, observed)) <==> !IdentifierBetrayed(c)
  {
    CountOnce(order);
    hide Lawful, Keeps, IdentifierBetrayed, FaultAccepted, DrilledTo, AllObserved, EachOnce, Receipts, WorkloadReceipt;
    hide Accepted;
    forall fault
      ensures FaultAccepted(p, r, c.sourceSha, Receipts(p, order, observed), fault) <==> !IdentifierBetrayed(c)
    {
      assert DrilledTo(c, p, fault, environments(fault), observed(fault));
      DrilledIsObserved(c, p, fault, environments(fault), observed(fault));
      FaultIsAccepted(c, p, r, observed, order, fault);
    }
    WorkloadIsAccepted(c, p, r, observed, order, !IdentifierBetrayed(c));
  }

  lemma {:induction false} CountOnce(order: seq<Fault>)
    requires EachOnce(order)
    ensures |order| == |FAULTS|
  {
  }
}
