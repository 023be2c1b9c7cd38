/** The validators of retained scenario evidence: the set comparison, the receipt of a project, the
    retained files behind it, and the one-to-one correspondence they establish together. */
module Evidence {
  import opened CodeUnits
  import opened Lists
  import opened Options
  import opened Texts

  const SCENARIOS: seq<string> := [
    "online_preparation", "offline_event_and_local_reversal", "page_refresh", "browser_restart",
    "strict_ordered_replay", "lost_response_idempotency", "pending_finalisation", "sequence_divergence",
    "stale_generation_takeover", "expiry_and_revocation", "four_hour_recording_boundary",
    "sign_out_with_unresolved_queue", "sanitised_export", "storage_corruption", "service_worker_update"]

  const SCREENSHOTS: seq<string> := [
    "screenshots/offline-ready.png", "screenshots/offline-two-pending.png",
    "screenshots/offline-browser-restart.png", "screenshots/offline-replay-complete.png"]

  // ----- The set comparison -----

  predicate SameSet<T(==)>(actual: seq<T>, expected: seq<T>) {
    && |actual| == |expected|
    && |Elements(actual)| == |actual|
    && forall item :: item in expected ==> item in actual
  }

  /** Against a list without repeats the comparison accepts exactly the permutations of the list. */
  lemma {:induction false} SameSetIsPermutation<T>(actual: seq<T>, expected: seq<T>)
    requires NoRepeats(expected)
    ensures SameSet(actual, expected) <==> Permutation(actual, expected)
  {
    ElementsCount(actual);
    ElementsCount(expected);
    if SameSet(actual, expected) {
      assert Elements(expected) <= Elements(actual);
      EqualBySize(Elements(expected), Elements(actual));
      PermutationOfDistinct(actual, expected);
    }
    if Permutation(actual, expected) {
      PermutationElements(actual, expected);
      forall item | item in expected ensures item in actual {
        assert item in Elements(expected);
      }
    }
  }

  /** The comparison tests for permutations if and only if the expected list has no repeats; with a
      repeat it even refuses the expected list itself. */
  lemma {:induction false} SameSetExact(expected: seq<string>)
    ensures (forall actual: seq<string> :: SameSet(actual, expected) <==> Permutation(actual, expected))
            <==> NoRepeats(expected)
  {
    if NoRepeats(expected) {
      forall actual: seq<string> ensures SameSet(actual, expected) <==> Permutation(actual, expected) {
        SameSetIsPermutation(actual, expected);
      }
    } else {
      ElementsCount(expected);
      assert !SameSet(expected, expected) && Permutation(expected, expected);
    }
  }

  // ----- The receipt of a project -----

  datatype Scenario = Scenario(name: string, passed: bool, receiptSha256: Text)

  datatype Artifact = Artifact(path: string, sha256: Text, sizeBytes: int)

  datatype ProjectReceipt = ProjectReceipt(
    screenshots: seq<string>,
    scenarios: seq<Scenario>,
    artifacts: seq<Artifact>)

  datatype ReceiptError = ScreenshotSet | ScenarioSet | ScenarioNotPassed | NoArtifacts | ArtifactInvalid | NotBound

  predicate IsHexUnit(u: CodeUnit) { 0x30 <= u <= 0x39 || 0x61 <= u <= 0x66 }

  /** `/^[a-f0-9]{64}$/u` */
  predicate IsHash(s: Text) { |s| == 64 && forall i :: 0 <= i < 64 ==> IsHexUnit(s[i]) }

  /** A relative path with no `..` between slashes or backslashes. */
  predicate PathOk(path: string) {
    && path != "" && path[0] != '/'
    && forall part :: part in Split(path, '/') ==> ".." !in Split(part, '\\')
  }

  predicate ArtifactOk(a: Artifact) { PathOk(a.path) && 1 <= a.sizeBytes <= MAXIMUM_SAFE_INTEGER && IsHash(a.sha256) }

  function Names(scenarios: seq<Scenario>): (r: seq<string>)
    ensures |r| == |scenarios|
  {
    seq(|scenarios|, i requires 0 <= i < |scenarios| => scenarios[i].name)
  }

  function Hashes(scenarios: seq<Scenario>): (r: seq<Text>)
    ensures |r| == |scenarios|
  {
    seq(|scenarios|, i requires 0 <= i < |scenarios| => scenarios[i].receiptSha256)
  }

  ghost predicate AllPassed(scenarios: seq<Scenario>) {
    forall i :: 0 <= i < |scenarios| ==> scenarios[i].passed && IsHash(scenarios[i].receiptSha256)
  }

  ghost predicate ArtifactsOk(artifacts: seq<Artifact>) {
    forall i :: 0 <= i < |artifacts| ==> ArtifactOk(artifacts[i])
  }

  ghost predicate HasHash(artifacts: seq<Artifact>, hash: Text) {
    exists i :: 0 <= i < |artifacts| && artifacts[i].sha256 == hash
  }

  /** No two scenarios share a hash, and each hash is that of a retained artifact. */
  ghost predicate Bound(scenarios: seq<Scenario>, artifacts: seq<Artifact>) {
    && NoRepeats(Hashes(scenarios))
    && forall i :: 0 <= i < |scenarios| ==> HasHash(artifacts, scenarios[i].receiptSha256)
  }

  /** The scenario names differ in their length or their second letter. */
  lemma {:induction false} ScenariosHaveNoRepeats()
    ensures NoRepeats(SCENARIOS)
  {
    var lengths := [18, 32, 12, 15, 21, 25, 20, 19, 25, 21, 28, 30, 16, 18, 21];
    assert forall i :: 0 <= i < 15 ==> |SCENARIOS[i]| == lengths[i];
    assert SCENARIOS[0][1] == 'n' && SCENARIOS[13][1] == 't';
    assert SCENARIOS[4][1] == 't' && SCENARIOS[9][1] == 'x' && SCENARIOS[14][1] == 'e';
    assert SCENARIOS[5][1] == 'o' && SCENARIOS[8][1] == 't';
  }

  lemma {:induction false} ScreenshotsHaveNoRepeats()
    ensures NoRepeats(SCREENSHOTS)
  {
    assert |SCREENSHOTS[0]| == 29 && |SCREENSHOTS[1]| == 35 && |SCREENSHOTS[2]| == 39 && |SCREENSHOTS[3]| == 39;
    assert SCREENSHOTS[2][20] == 'b' && SCREENSHOTS[3][20] == 'r';
  }

  lemma {:induction false} RequiredListsHaveNoRepeats()
    ensures NoRepeats(SCENARIOS) && NoRepeats(SCREENSHOTS)
  {
    ScenariosHaveNoRepeats();
    ScreenshotsHaveNoRepeats();
  }

  lemma {:induction false} HashesSnoc(scenarios: seq<Scenario>, n: nat)
    requires n < |scenarios|
    ensures Elements(Hashes(scenarios[..n + 1])) == Elements(Hashes(scenarios[..n])) + {scenarios[n].receiptSha256}
  {
    assert Hashes(scenarios[..n + 1]) == Hashes(scenarios[..n]) + [scenarios[n].receiptSha256];
    ElementsSnoc(Hashes(scenarios[..n]), scenarios[n].receiptSha256);
  }

  /** What the size of the set of hashes and its test against the artifacts establish. */
  lemma {:induction false} BoundBySets(scenarios: seq<Scenario>, artifacts: seq<Artifact>, hashes: set<Text>,
        retained: set<Text>)
    requires hashes == Elements(Hashes(scenarios))
    requires retained == set i | 0 <= i < |artifacts| :: artifacts[i].sha256
    ensures |hashes| == |scenarios| && hashes <= retained <==> Bound(scenarios, artifacts)
  {
    ElementsCount(Hashes(scenarios));
    assert forall h :: h in retained <==> HasHash(artifacts, h);
    if hashes <= retained {
      forall i | 0 <= i < |scenarios| ensures HasHash(artifacts, scenarios[i].receiptSha256) {
        assert Hashes(scenarios)[i] in hashes;
      }
    }
    if Bound(scenarios, artifacts) {
      forall h | h in hashes ensures h in retained {
        var i :| 0 <= i < |scenarios| && Hashes(scenarios)[i] == h;
        assert scenarios[i].receiptSha256 == h;
      }
    }
  }

  method CollectHashes(scenarios: seq<Scenario>) returns (hashes: Option<set<Text>>)
    ensures hashes == if AllPassed(scenarios) then Some(Elements(Hashes(scenarios))) else None
  {
    var seen: set<Text> := {};
    for i := 0 to |scenarios|
      invariant AllPassed(scenarios[..i])
      invariant seen == Elements(Hashes(scenarios[..i]))
    {
      if !scenarios[i].passed || !IsHash(scenarios[i].receiptSha256) { return None; }
      HashesSnoc(scenarios, i);
      seen := seen + {scenarios[i].receiptSha256};
    }
    assert scenarios[..|scenarios|] == scenarios;
    return Some(seen);
  }

  method CheckArtifacts(artifacts: seq<Artifact>) returns (ok: bool)
    ensures ok <==> ArtifactsOk(artifacts)
  {
    for i := 0 to |artifacts|
      invariant ArtifactsOk(artifacts[..i])
    {
      if !ArtifactOk(artifacts[i]) { return false; }
    }
    return true;
  }

  ghost predicate ScenariosHold(scenarios: seq<Scenario>, artifacts: seq<Artifact>, required: seq<string>) {
    && Permutation(Names(scenarios), required)
    && AllPassed(scenarios)
    && artifacts != [] && ArtifactsOk(artifacts)
    && Bound(scenarios, artifacts)
  }

  /** The checks of scenarios against a list of required names, and the first that fails. */
  method ValidateScenarios(scenarios: seq<Scenario>, artifacts: seq<Artifact>, required: seq<string>)
      returns (error: Option<ReceiptError>)
    requires NoRepeats(required)
    ensures error == None <==> ScenariosHold(scenarios, artifacts, required)
    ensures error == Some(ScenarioSet) <==> !Permutation(Names(scenarios), required)
    ensures error == Some(ScenarioNotPassed) <==> Permutation(Names(scenarios), required) && !AllPassed(scenarios)
    ensures error == Some(NoArtifacts) ==> AllPassed(scenarios) && artifacts == []
    ensures error == Some(ArtifactInvalid) ==> AllPassed(scenarios) && !ArtifactsOk(artifacts)
    ensures error == Some(NotBound) ==> AllPassed(scenarios) && ArtifactsOk(artifacts) && !Bound(scenarios, artifacts)
    ensures error != Some(ScreenshotSet)
  {
    SameSetIsPermutation(Names(scenarios), required);
    if !SameSet(Names(scenarios), required) { return Some(ScenarioSet); }
    PermutationElements(Names(scenarios), required);
    var hashes := CollectHashes(scenarios);
    if hashes == None { return Some(ScenarioNotPassed); }
    if artifacts == [] { return Some(NoArtifacts); }
    var artifactsOk := CheckArtifacts(artifacts);
    if !artifactsOk { return Some(ArtifactInvalid); }
    var retained := set i | 0 <= i < |artifacts| :: artifacts[i].sha256;
    BoundBySets(scenarios, artifacts, hashes.value, retained);
    if |hashes.value| != |required| || !(hashes.value <= retained) { return Some(NotBound); }
    return None;
  }

  ghost predicate ReceiptHolds(r: ProjectReceipt) {
    Permutation(r.screenshots, SCREENSHOTS) && ScenariosHold(r.scenarios, r.artifacts, SCENARIOS)
  }

  /** A project receipt is accepted exactly when it holds: its screenshots and scenarios are the
      required ones in any order, and its scenarios are bound to retained artifacts. */
  method ValidateReceipt(r: ProjectReceipt) returns (error: Option<ReceiptError>)
    ensures error == None <==> ReceiptHolds(r)
    ensures error == Some(ScreenshotSet) <==> !Permutation(r.screenshots, SCREENSHOTS)
  {
    RequiredListsHaveNoRepeats();
    SameSetIsPermutation(r.screenshots, SCREENSHOTS);
    if !SameSet(r.screenshots, SCREENSHOTS) { return Some(ScreenshotSet); }
    error := ValidateScenarios(r.scenarios, r.artifacts, SCENARIOS);
  }

  // ----- What an accepted receipt says, item by item -----

  /** The text of 64 hexadecimal digits in lower case. */
  ghost predicate IsDigest(t: Text) {
    exists s: string :: IsDigestText(s) && t == Units(s)
  }

  ghost predicate IsDigestText(s: string) {
    |s| == 64 && forall i :: 0 <= i < 64 ==> '0' <= s[i] <= '9' || 'a' <= s[i] <= 'f'
  }

  lemma {:induction false} HashIsDigest(t: Text)
    ensures IsHash(t) <==> IsDigest(t)
  {
    if IsHash(t) {
      var s: string := seq(64, i requires 0 <= i < 64 => t[i] as char);
      forall i | 0 <= i < 64 ensures '0' <= s[i] <= '9' || 'a' <= s[i] <= 'f' { assert IsHexUnit(t[i]); }
      UnitsOfAscii(s);
      assert IsDigestText(s) && Units(s) == t;
    }
    if IsDigest(t) {
      var s: string :| IsDigestText(s) && t == Units(s);
      UnitsOfAscii(s);
    }
  }

  predicate IsSlash(c: char) { c == '/' || c == '\\' }

  /** A step `..` of the path starts at `i`. */
  ghost predicate StepsUpAt(path: string, i: nat) {
    && i + 2 <= |path| && path[i] == '.' && path[i + 1] == '.'
    && (i == 0 || IsSlash(path[i - 1])) && (i + 2 == |path| || IsSlash(path[i + 2]))
  }

  /** A path with a `..` between slashes and backslashes, and no other, has a step up. */
  lemma {:induction false} StepInParts(path: string)
    ensures (exists part :: part in Split(path, '/') && ".." in Split(part, '\\')) <==>
            exists i: nat :: StepsUpAt(path, i)
  {
    if exists part :: part in Split(path, '/') && ".." in Split(part, '\\') {
      var part :| part in Split(path, '/') && ".." in Split(part, '\\');
      SplitSegments(path, '/', part);
      SplitSegments(part, '\\', "..");
      var i: nat :| Segment(path, '/', i, part);
      var k: nat :| Segment(part, '\\', k, "..");
      StepInPart(path, part, i, k);
      assert StepsUpAt(path, i + k);
    }
    if exists i: nat :: StepsUpAt(path, i) {
      var i: nat :| StepsUpAt(path, i);
      var part := PartOfStep(path, i);
      assert part in Split(path, '/') && ".." in Split(part, '\\');
    }
  }

  lemma {:induction false} StepInPart(path: string, part: string, i: nat, k: nat)
    requires Segment(path, '/', i, part) && Segment(part, '\\', k, "..")
    ensures StepsUpAt(path, i + k)
  {
    assert forall m :: 0 <= m < |part| ==> part[m] == path[i..i + |part|][m] == path[i + m];
    assert part[k] == part[k..k + 2][0] && part[k + 1] == part[k..k + 2][1];
  }

  lemma {:induction false} PartOfStep(path: string, i: nat) returns (part: string)
    requires StepsUpAt(path, i)
    ensures part in Split(path, '/') && ".." in Split(part, '\\')
  {
    hide StepsUpAt, Segment, Split;
    StepText(path, i);
    var start;
    start, part := SegmentAround(path, '/', i, i + 2);
    SplitSegments(path, '/', part);
    StepInSegment(path, i, start, part);
    SplitSegments(part, '\\', "..");
  }

  lemma {:induction false} StepText(path: string, i: nat)
    requires StepsUpAt(path, i)
    ensures i + 2 <= |path| && '/' !in path[i..i + 2]
  {
    assert path[i..i + 2] == "..";
  }

  lemma {:induction false} StepInSegment(path: string, i: nat, start: nat, part: string)
    requires StepsUpAt(path, i) && Segment(path, '/', start, part) && start <= i && i + 2 <= start + |part|
    ensures Segment(part, '\\', i - start, "..")
  {
    var k := i - start;
    forall m | 0 <= m < |part| ensures part[m] == path[start + m] && part[m] != '/' {
      assert part[m] == path[start..start + |part|][m] && part[m] in part;
    }
    assert part[k..k + 2] == "..";
  }

  /** A relative path without a step up, a size that JavaScript counts exactly, and a digest. */
  ghost predicate IsRetainable(a: Artifact) {
    && a.path != "" && a.path[0] != '/' && !(exists i: nat :: StepsUpAt(a.path, i))
    && 0 < a.sizeBytes < 9_007_199_254_740_992 && IsDigest(a.sha256)
  }

  lemma {:induction false} ArtifactExactly(a: Artifact)
    ensures ArtifactOk(a) <==> IsRetainable(a)
  {
    StepInParts(a.path);
    HashIsDigest(a.sha256);
  }

  /** Scenarios hold exactly when each required name occurs, there are no more of them, all have passed, and
      their digests differ and are each the digest of an artifact, all of which can be retained. */
  lemma {:induction false} ScenariosHoldExactly(scenarios: seq<Scenario>, artifacts: seq<Artifact>,
        required: seq<string>)
    requires NoRepeats(required)
    ensures ScenariosHold(scenarios, artifacts, required) <==>
            && |scenarios| == |required|
            && (forall name :: name in required ==> exists s :: s in scenarios && s.name == name)
            && (forall s :: s in scenarios ==> s.passed && IsDigest(s.receiptSha256))
            && |artifacts| > 0 && (forall a :: a in artifacts ==> IsRetainable(a))
            && (forall i, j :: 0 <= i < j < |scenarios| ==> scenarios[i].receiptSha256 != scenarios[j].receiptSha256)
            && (forall s :: s in scenarios ==> exists a :: a in artifacts && a.sha256 == s.receiptSha256)
  {
    hide IsHash, IsDigest, IsRetainable, ArtifactOk, Permutation;
    forall s | s in scenarios ensures IsHash(s.receiptSha256) <==> IsDigest(s.receiptSha256) {
      HashIsDigest(s.receiptSha256);
    }
    forall a | a in artifacts ensures ArtifactOk(a) <==> IsRetainable(a) { ArtifactExactly(a); }
    NamesExactly(scenarios, required);
    DigestsExactly(scenarios, artifacts);
  }

  lemma {:induction false} NamesExactly(scenarios: seq<Scenario>, required: seq<string>)
    requires NoRepeats(required)
    ensures Permutation(Names(scenarios), required) <==>
            && |scenarios| == |required|
            && forall name :: name in required ==> exists s :: s in scenarios && s.name == name
  {
    var names := Names(scenarios);
    if Permutation(names, required) {
      OnceEach(names, required);
      forall name | name in required ensures exists s :: s in scenarios && s.name == name {
        var i :| 0 <= i < |names| && names[i] == name;
        assert scenarios[i] in scenarios;
      }
    }
    if |scenarios| == |required| && forall name :: name in required ==> exists s :: s in scenarios && s.name == name {
      forall name | name in required ensures name in names {
        var s :| s in scenarios && s.name == name;
        var i :| 0 <= i < |scenarios| && scenarios[i] == s;
        assert names[i] == name;
      }
      ElementsCount(names);
      ElementsCount(required);
      assert Elements(required) <= Elements(names);
      if |Elements(names)| != |Elements(required)| { SubsetSize(Elements(required), Elements(names)); }
      SameSetIsPermutation(names, required);
    }
  }

  lemma {:induction false} SubsetSize<T>(a: set<T>, b: set<T>)
    requires a <= b
    ensures |a| <= |b|
  {
    assert |b - a| == |b| - |a|;
  }

  lemma {:induction false} DigestsExactly(scenarios: seq<Scenario>, artifacts: seq<Artifact>)
    ensures Bound(scenarios, artifacts) <==>
            && (forall i, j :: 0 <= i < j < |scenarios| ==> scenarios[i].receiptSha256 != scenarios[j].receiptSha256)
            && (forall s :: s in scenarios ==> exists a :: a in artifacts && a.sha256 == s.receiptSha256)
  {
    forall s | s in scenarios
      ensures HasHash(artifacts, s.receiptSha256) <==> exists a :: a in artifacts && a.sha256 == s.receiptSha256
    {
      if HasHash(artifacts, s.receiptSha256) {
        var i :| 0 <= i < |artifacts| && artifacts[i].sha256 == s.receiptSha256;
        assert artifacts[i] in artifacts;
      }
    }
    if NoRepeats(Hashes(scenarios)) {
      forall i, j | 0 <= i < j < |scenarios| ensures scenarios[i].receiptSha256 != scenarios[j].receiptSha256 {
        assert Hashes(scenarios)[i] != Hashes(scenarios)[j];
      }
    }
  }

  // ----- The retained files -----

  function FindFrom(artifacts: seq<Artifact>, hash: Text, from: nat): (r: Option<nat>)
    requires from <= |artifacts|
    ensures r.None? ==> forall k :: from <= k < |artifacts| ==> artifacts[k].sha256 != hash
    ensures r.Some? ==> from <= r.value < |artifacts| && artifacts[r.value].sha256 == hash
    ensures r.Some? ==> forall k :: from <= k < r.value ==> artifacts[k].sha256 != hash
    decreases |artifacts| - from
  {
    if from == |artifacts| then None
    else if artifacts[from].sha256 == hash then Some(from)
    else FindFrom(artifacts, hash, from + 1)
  }

  /** `artifacts.find(candidate => candidate.sha256 === hash)` */
  function Find(artifacts: seq<Artifact>, hash: Text): (r: Option<nat>)
    ensures r.None? <==> !HasHash(artifacts, hash)
    ensures r.Some? ==> r.value < |artifacts| && artifacts[r.value].sha256 == hash
  {
    FindFrom(artifacts, hash, 0)
  }

  function ScenarioPath(name: string): string { "scenarios/" + name + ".json" }

  /** The retained files by their path. */
  type Files = map<string, Text>

  /** A parsed scenario document; `canonical` folds its kind, source, owner, status and time. */
  datatype Document = Document(canonical: bool, scenario: string, assertions: seq<string>, observationKeys: seq<string>)

  /** The assertions and observation keys that are required of each scenario. */
  datatype Expectations = Expectations(assertions: string -> seq<string>, observationKeys: string -> seq<string>)

  predicate DocumentOk(d: Document, name: string, e: Expectations) {
    && d.canonical && d.scenario == name
    && SameSet(d.assertions, e.assertions(name)) && SameSet(d.observationKeys, e.observationKeys(name))
  }

  /** The JSON reader of scenario documents; None where a text is none. */
  type Reader = Text -> Option<Document>

  predicate FileOk(files: Files, parse: Reader, name: string, e: Expectations) {
    var path := ScenarioPath(name);
    path in files && parse(files[path]).Some? && DocumentOk(parse(files[path]).value, name, e)
  }

  predicate ScenarioRetained(s: Scenario, artifacts: seq<Artifact>, files: Files, parse: Reader, e: Expectations) {
    var found := Find(artifacts, s.receiptSha256);
    found.Some? && artifacts[found.value].path == ScenarioPath(s.name) && FileOk(files, parse, s.name, e)
  }

  ghost predicate ScenariosRetained(r: ProjectReceipt, files: Files, parse: Reader, e: Expectations) {
    forall i :: 0 <= i < |r.scenarios| ==> ScenarioRetained(r.scenarios[i], r.artifacts, files, parse, e)
  }

  datatype ScenarioError = NoArtifact(name: string) | WrongPath(name: string) | NotCanonical(name: string)

  method VerifyScenarios(r: ProjectReceipt, files: Files, parse: Reader, e: Expectations)
        returns (error: Option<ScenarioError>)
    ensures error == None <==> ScenariosRetained(r, files, parse, e)
    ensures error.Some? ==> error.value.name in Names(r.scenarios)
  {
    for i := 0 to |r.scenarios|
      invariant forall k :: 0 <= k < i ==> ScenarioRetained(r.scenarios[k], r.artifacts, files, parse, e)
    {
      var s := r.scenarios[i];
      assert Names(r.scenarios)[i] == s.name;
      var found := Find(r.artifacts, s.receiptSha256);
      if found.None? { return Some(NoArtifact(s.name)); }
      if r.artifacts[found.value].path != ScenarioPath(s.name) { return Some(WrongPath(s.name)); }
      if !FileOk(files, parse, s.name, e) { return Some(NotCanonical(s.name)); }
    }
    return None;
  }

  predicate ArtifactMatches(files: Files, a: Artifact, sha256: Text -> Text) {
    a.path in files && sha256(files[a.path]) == a.sha256 && |files[a.path]| == a.sizeBytes
  }

  /** The listed artifacts are the retained files, and every other file is one the verifier admits. */
  ghost predicate FilesMatch(files: Files, artifacts: seq<Artifact>, sha256: Text -> Text,
        admitted: (string, Text) -> bool)
  {
    && (forall i :: 0 <= i < |artifacts| ==> ArtifactMatches(files, artifacts[i], sha256))
    && (forall path :: path in files ==>
          (exists i :: 0 <= i < |artifacts| && artifacts[i].path == path) || admitted(path, files[path]))
  }

  method VerifyArtifactHashes(files: Files, artifacts: seq<Artifact>, sha256: Text -> Text,
        admitted: (string, Text) -> bool)
      returns (ok: bool)
    ensures ok <==> FilesMatch(files, artifacts, sha256, admitted)
  {
    for i := 0 to |artifacts|
      invariant forall k :: 0 <= k < i ==> ArtifactMatches(files, artifacts[k], sha256)
    {
      if !ArtifactMatches(files, artifacts[i], sha256) { return false; }
    }
    var listed := set i | 0 <= i < |artifacts| :: artifacts[i].path;
    var unlisted := files.Keys - listed;
    while unlisted != {}
      invariant unlisted <= files.Keys - listed
      invariant forall path :: path in files ==> path in listed || path in unlisted || admitted(path, files[path])
      decreases unlisted
    {
      var path :| path in unlisted;
      if !admitted(path, files[path]) { return false; }
      unlisted := unlisted - {path};
    }
    return true;
  }

  /** Files match exactly when each artifact is a file with its digest and its size, and every other file
      is admitted. */
  lemma {:induction false} FilesMatchExactly(files: Files, artifacts: seq<Artifact>, sha256: Text -> Text,
        admitted: (string, Text) -> bool)
    ensures FilesMatch(files, artifacts, sha256, admitted) <==>
            && (forall a :: a in artifacts ==>
                  a.path in files && a.sha256 == sha256(files[a.path]) && a.sizeBytes == |files[a.path]|)
            && (forall path :: path in files && !admitted(path, files[path]) ==>
                  exists a :: a in artifacts && a.path == path)
  {
    forall path | path in files
      ensures (exists i :: 0 <= i < |artifacts| && artifacts[i].path == path)
         <==> exists a :: a in artifacts && a.path == path
    {
      if exists i :: 0 <= i < |artifacts| && artifacts[i].path == path {
        var i :| 0 <= i < |artifacts| && artifacts[i].path == path;
        assert artifacts[i] in artifacts;
      }
    }
  }

  /** Scenarios are retained exactly when the first artifact with the digest of each has the path of its
      name, and the file there is a canonical document of it with the required assertions and keys. */
  lemma {:induction false} RetainedExactly(r: ProjectReceipt, files: Files, parse: Reader, e: Expectations)
    ensures ScenariosRetained(r, files, parse, e) <==>
            forall i :: 0 <= i < |r.scenarios| ==>
              var s, path := r.scenarios[i], "scenarios/" + r.scenarios[i].name + ".json";
              && (exists k :: && 0 <= k < |r.artifacts|
                              && r.artifacts[k].sha256 == s.receiptSha256 && r.artifacts[k].path == path
                              && forall l :: 0 <= l < k ==> r.artifacts[l].sha256 != s.receiptSha256)
              && path in files
              && exists d :: && parse(files[path]) == Some(d) && d.canonical && d.scenario == s.name
                             && SameSet(d.assertions, e.assertions(s.name))
                             && SameSet(d.observationKeys, e.observationKeys(s.name))
  {
    hide SameSet;
    forall i | 0 <= i < |r.scenarios|
      ensures var s, path := r.scenarios[i], "scenarios/" + r.scenarios[i].name + ".json";
              (Find(r.artifacts, s.receiptSha256).Some?
               && r.artifacts[Find(r.artifacts, s.receiptSha256).value].path == path) <==>
              exists k :: && 0 <= k < |r.artifacts|
                          && r.artifacts[k].sha256 == s.receiptSha256 && r.artifacts[k].path == path
                          && forall l :: 0 <= l < k ==> r.artifacts[l].sha256 != s.receiptSha256
    {
      FirstFound(r.artifacts, r.scenarios[i].receiptSha256);
    }
  }

  lemma {:induction false} FirstFound(artifacts: seq<Artifact>, hash: Text)
    ensures var found := Find(artifacts, hash);
            forall k :: 0 <= k < |artifacts| ==>
              (found == Some(k) <==>
               artifacts[k].sha256 == hash && forall l :: 0 <= l < k ==> artifacts[l].sha256 != hash)
  {
  }

  // ----- One to one -----

  /** The artifact that stands for a scenario: the first one with its hash. */
  ghost predicate StandsFor(r: ProjectReceipt, i: nat, k: nat) {
    i < |r.scenarios| && k < |r.artifacts| && Find(r.artifacts, r.scenarios[i].receiptSha256) == Some(k)
  }

  lemma {:induction false} PathsDiffer(a: string, b: string)
    requires ScenarioPath(a) == ScenarioPath(b)
    ensures a == b
  {
    assert |ScenarioPath(a)| == |a| + 15 && |ScenarioPath(b)| == |b| + 15;
    assert a == ScenarioPath(a)[10..|ScenarioPath(a)| - 5];
    assert b == ScenarioPath(b)[10..|ScenarioPath(b)| - 5];
  }

  /** Artifact `k` stands for scenario `i`, and its file at the path with the scenario's name holds a
      document of that scenario. */
  ghost predicate Retains(r: ProjectReceipt, files: Files, parse: Reader, i: nat, k: nat) {
    && StandsFor(r, i, k)
    && var name, path := r.scenarios[i].name, r.artifacts[k].path;
       && path == ScenarioPath(name) && path in files
       && parse(files[path]).Some? && parse(files[path]).value.scenario == name
  }

  lemma {:induction false} StandIn(r: ProjectReceipt, files: Files, parse: Reader, e: Expectations, i: nat)
        returns (k: nat)
    requires ScenariosRetained(r, files, parse, e) && i < |r.scenarios|
    ensures Retains(r, files, parse, i, k) && r.artifacts[k].sha256 == r.scenarios[i].receiptSha256
  {
    assert ScenarioRetained(r.scenarios[i], r.artifacts, files, parse, e);
    k := Find(r.artifacts, r.scenarios[i].receiptSha256).value;
  }

  /** Accepted scenarios are the required ones, each exactly once. */
  lemma {:induction false} EachScenarioOnce(scenarios: seq<Scenario>, artifacts: seq<Artifact>, required: seq<string>)
    requires NoRepeats(required) && ScenariosHold(scenarios, artifacts, required)
    ensures |scenarios| == |required| && NoRepeats(Names(scenarios))
    ensures forall name :: name in required <==> name in Names(scenarios)
  {
    OnceEach(Names(scenarios), required);
  }

  /** Accepted scenarios with verified files have an artifact each: at the path that carries its name and
      with a document of that name, with its own hash and with content that no other scenario's file has. */
  lemma {:induction false} ScenariosAreOneToOne(
      r: ProjectReceipt, required: seq<string>, files: Files, parse: Reader, e: Expectations,
      sha256: Text -> Text, admitted: (string, Text) -> bool, i: nat, j: nat)
      returns (k: nat, l: nat)
    requires NoRepeats(required) && ScenariosHold(r.scenarios, r.artifacts, required)
    requires ScenariosRetained(r, files, parse, e) && FilesMatch(files, r.artifacts, sha256, admitted)
    requires i < |r.scenarios| && j < |r.scenarios|
    ensures Retains(r, files, parse, i, k) && Retains(r, files, parse, j, l)
    ensures i != j ==>
              && k != l && r.artifacts[k].path != r.artifacts[l].path && r.artifacts[k].sha256 != r.artifacts[l].sha256
              && files[r.artifacts[k].path] != files[r.artifacts[l].path]
  {
    k := StandIn(r, files, parse, e, i);
    l := StandIn(r, files, parse, e, j);
    assert ArtifactMatches(files, r.artifacts[k], sha256) && ArtifactMatches(files, r.artifacts[l], sha256);
    if i != j {
      EachScenarioOnce(r.scenarios, r.artifacts, required);
      assert Hashes(r.scenarios)[i] != Hashes(r.scenarios)[j];
      assert Names(r.scenarios)[i] != Names(r.scenarios)[j];
      if r.artifacts[k].path == r.artifacts[l].path { PathsDiffer(r.scenarios[i].name, r.scenarios[j].name); }
    }
  }
}
