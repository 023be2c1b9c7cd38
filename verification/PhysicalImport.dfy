/** The import of a physical device's evidence, and what the ledger's check of retained files makes of
    the files and hashes that the import writes. */
module PhysicalImport {
  import opened CodeUnits
  import Json
  import C = CanonicalJson
  import opened Evidence
  import opened Lists

  const PHYSICAL_SCENARIOS: seq<string> := [
    "online_preparation", "offline_event_and_local_reversal", "page_refresh", "browser_restart",
    "strict_ordered_replay", "pending_finalisation", "stale_generation_takeover", "sanitised_export"]

  const NEWLINE: CodeUnit := 0x0A
  const CLOSING_BRACE: CodeUnit := 0x7D

  /** A captured scenario: `complete` folds its status, timestamp, assertions and events; `trace` is the
      text of its trace file, `unsigned` its document before the receipt is added. */
  datatype Captured = Captured(
    name: string,
    complete: bool,
    rawTraceSha256: Text,
    trace: Text,
    unsigned: seq<Json.Entry<Json.Json>>)

  /** The hash, and the indented form of JSON.stringify. */
  datatype Writer = Writer(sha256: Text -> Text, pretty: Json.Json -> Text)

  function CapturedNames(captured: seq<Captured>): (r: seq<string>)
    ensures |r| == |captured|
  {
    seq(|captured|, i requires 0 <= i < |captured| => captured[i].name)
  }

  // ----- Validation -----

  ghost predicate AllComplete(captured: seq<Captured>) {
    forall i :: 0 <= i < |captured| ==> captured[i].complete && IsHash(captured[i].rawTraceSha256)
  }

  lemma {:induction false} NamesSnoc(captured: seq<Captured>, n: nat)
    requires n < |captured|
    ensures CapturedNames(captured[..n + 1]) == CapturedNames(captured[..n]) + [captured[n].name]
  {
  }

  /** The `seen` loop accepts exactly the complete captures of each required scenario once. */
  method ValidateCaptured(captured: seq<Captured>, required: seq<string>) returns (ok: bool)
    requires NoRepeats(required)
    ensures ok <==> Permutation(CapturedNames(captured), required) && AllComplete(captured)
  {
    var names := CapturedNames(captured);
    if Permutation(names, required) { OnceEach(names, required); }
    if |captured| != |required| { return false; }
    var seen: set<string> := {};
    for i := 0 to |captured|
      invariant AllComplete(captured[..i])
      invariant seen == Elements(names[..i]) && NoRepeats(names[..i])
      invariant forall name :: name in names[..i] ==> name in required
    {
      assert names[i] == captured[i].name && names[i] in names;
      if captured[i].name !in required { return false; }
      if captured[i].name in seen {
        var k :| 0 <= k < i && names[..i][k] == names[i];
        assert names[k] == names[i];
        return false;
      }
      AppendFresh(names[..i], names[i]);
      ElementsSnoc(names[..i], names[i]);
      assert names[..i + 1] == names[..i] + [names[i]];
      seen := seen + {captured[i].name};
      if !captured[i].complete || !IsHash(captured[i].rawTraceSha256) { return false; }
    }
    assert captured[..|captured|] == captured && names[..|names|] == names;
    DistinctAndRequired(names, required);
    return true;
  }

  // ----- What an import writes -----

  function TracePath(name: string): string { "traces/" + name + ".trace.json" }

  function ReceiptHash(c: Captured, w: Writer): Text { w.sha256(C.CanonicalJson(Json.Object(c.unsigned))) }

  function DocumentText(c: Captured, w: Writer): Text {
    w.pretty(Json.Object(C.Sealed(c.unsigned, w.sha256))) + [NEWLINE]
  }

  function TraceArtifact(c: Captured, w: Writer): Artifact {
    Artifact(TracePath(c.name), w.sha256(c.trace), |c.trace|)
  }

  /** The listed hash of a scenario document is its receipt, not the hash of its file. */
  function DocumentArtifact(c: Captured, w: Writer): Artifact {
    Artifact(ScenarioPath(c.name), ReceiptHash(c, w), |DocumentText(c, w)|)
  }

  function Listed(captured: seq<Captured>, w: Writer): (r: seq<Artifact>)
    ensures |r| == 2 * |captured|
    ensures forall i :: 0 <= i < |captured| ==>
              r[2 * i] == TraceArtifact(captured[i], w) && r[2 * i + 1] == DocumentArtifact(captured[i], w)
  {
    if captured == [] then []
    else
      var last := captured[|captured| - 1];
      Listed(captured[..|captured| - 1], w) + [TraceArtifact(last, w), DocumentArtifact(last, w)]
  }

  function Receipts(captured: seq<Captured>, w: Writer): (r: seq<Scenario>)
    ensures |r| == |captured|
  {
    seq(|captured|, i requires 0 <= i < |captured| => Scenario(captured[i].name, true, ReceiptHash(captured[i], w)))
  }

  function Written(captured: seq<Captured>, w: Writer): Files {
    if captured == [] then map[]
    else
      var last := captured[|captured| - 1];
      var front := Written(captured[..|captured| - 1], w);
      front[TracePath(last.name) := last.trace][ScenarioPath(last.name) := DocumentText(last, w)]
  }

  lemma {:induction false} PathKinds(a: string, b: string)
    ensures TracePath(a) != ScenarioPath(b)
    ensures TracePath(a) == TracePath(b) ==> a == b
    ensures ScenarioPath(a) == ScenarioPath(b) ==> a == b
    ensures TracePath(a) != "receipt.json" && ScenarioPath(a) != "receipt.json"
  {
    assert TracePath(a)[0] == 't' && ScenarioPath(b)[0] == 's' && ScenarioPath(a)[0] == 's' && "receipt.json"[0] == 'r';
    if TracePath(a) == TracePath(b) {
      assert |TracePath(a)| == |a| + 18 && |TracePath(b)| == |b| + 18;
      assert a == TracePath(a)[7..|TracePath(a)| - 11] && b == TracePath(b)[7..|TracePath(b)| - 11];
    }
    if ScenarioPath(a) == ScenarioPath(b) { PathsDiffer(a, b); }
  }

  ghost predicate PathOf(captured: seq<Captured>, path: string) {
    exists i :: 0 <= i < |captured| && (path == TracePath(captured[i].name) || path == ScenarioPath(captured[i].name))
  }

  lemma {:induction false} PathOfSnoc(captured: seq<Captured>, n: nat, path: string)
    requires n < |captured|
    ensures PathOf(captured[..n + 1], path) <==>
            PathOf(captured[..n], path) || path == TracePath(captured[n].name) || path == ScenarioPath(captured[n].name)
  {
    if PathOf(captured[..n], path) {
      var i :| 0 <= i < n && (path == TracePath(captured[..n][i].name) || path == ScenarioPath(captured[..n][i].name));
      assert captured[..n + 1][i] == captured[i];
    }
    assert captured[..n + 1][n] == captured[n];
  }

  lemma {:induction false} WrittenPaths(captured: seq<Captured>, w: Writer, path: string)
    ensures path in Written(captured, w) <==> PathOf(captured, path)
  {
    if captured != [] {
      var n := |captured| - 1;
      WrittenPaths(captured[..n], w, path);
      PathOfSnoc(captured, n, path);
      assert captured[..n + 1] == captured;
    }
  }

  /** Captures that share no path with each other or with the files already there. */
  ghost predicate Fresh(captured: seq<Captured>, files: Files) {
    NoRepeats(CapturedNames(captured)) && forall path :: path in files ==> !PathOf(captured, path)
  }

  ghost predicate TracesMatch(captured: seq<Captured>, w: Writer) {
    forall i :: 0 <= i < |captured| ==> w.sha256(captured[i].trace) == captured[i].rawTraceSha256
  }

  datatype Import =
    | Imported(files: Files, artifacts: seq<Artifact>, scenarios: seq<Scenario>)
    | TraceMismatch(name: string)
    | FileExists(path: string)

  lemma {:induction false} NextIsFresh(captured: seq<Captured>, n: nat, files: Files, w: Writer)
    requires n < |captured| && Fresh(captured[..n], files)
    ensures var now := files + Written(captured[..n], w);
            TracePath(captured[n].name) !in now && ScenarioPath(captured[n].name) !in now
            <==> Fresh(captured[..n + 1], files)
  {
    var name := captured[n].name;
    var names := CapturedNames(captured[..n]);
    NamesSnoc(captured, n);
    WrittenPaths(captured[..n], w, TracePath(name));
    WrittenPaths(captured[..n], w, ScenarioPath(name));
    forall path | path in files
      ensures PathOf(captured[..n + 1], path) <==> path == TracePath(name) || path == ScenarioPath(name)
    {
      PathOfSnoc(captured, n, path);
    }
    NameOfPath(captured[..n], name);
    if name in names {
      var i :| 0 <= i < n && names[i] == name;
      assert (names + [name])[i] == (names + [name])[n];
    } else {
      AppendFresh(names, name);
    }
  }

  lemma {:induction false} NameOfPath(captured: seq<Captured>, name: string)
    ensures PathOf(captured, TracePath(name)) <==> name in CapturedNames(captured)
    ensures PathOf(captured, ScenarioPath(name)) <==> name in CapturedNames(captured)
  {
    forall i | 0 <= i < |captured|
      ensures TracePath(captured[i].name) == TracePath(name) <==> captured[i].name == name
      ensures ScenarioPath(captured[i].name) == ScenarioPath(name) <==> captured[i].name == name
      ensures TracePath(captured[i].name) != ScenarioPath(name) && ScenarioPath(captured[i].name) != TracePath(name)
    {
      PathKinds(captured[i].name, name);
      PathKinds(name, captured[i].name);
    }
    if name in CapturedNames(captured) {
      var i :| 0 <= i < |captured| && CapturedNames(captured)[i] == name;
      assert captured[i].name == name;
    }
    if PathOf(captured, TracePath(name)) {
      var i :| 0 <= i < |captured|
               && (TracePath(name) == TracePath(captured[i].name) || TracePath(name) == ScenarioPath(captured[i].name));
      assert CapturedNames(captured)[i] == name;
    }
    if PathOf(captured, ScenarioPath(name)) {
      var i :| 0 <= i < |captured|
               && (ScenarioPath(name) == TracePath(captured[i].name)
                   || ScenarioPath(name) == ScenarioPath(captured[i].name));
      assert CapturedNames(captured)[i] == name;
    }
  }

  lemma {:induction false} PathOfPrefix(captured: seq<Captured>, n: nat, path: string)
    requires n <= |captured| && PathOf(captured[..n], path)
    ensures PathOf(captured, path)
  {
    var i :| 0 <= i < n && (path == TracePath(captured[..n][i].name) || path == ScenarioPath(captured[..n][i].name));
    assert captured[i] == captured[..n][i];
  }

  lemma {:induction false} FreshPrefix(captured: seq<Captured>, files: Files, n: nat)
    requires n <= |captured| && Fresh(captured, files)
    ensures Fresh(captured[..n], files)
  {
    assert CapturedNames(captured[..n]) == CapturedNames(captured)[..n];
    forall path | path in files && PathOf(captured[..n], path) ensures PathOf(captured, path) {
      PathOfPrefix(captured, n, path);
    }
  }

  /** The files and entries of one more scenario. */
  lemma {:induction false} WrittenSnoc(captured: seq<Captured>, n: nat, w: Writer)
    requires n < |captured|
    ensures var c := captured[n];
            && Written(captured[..n + 1], w)
                == Written(captured[..n], w)[TracePath(c.name) := c.trace][ScenarioPath(c.name) := DocumentText(c, w)]
            && Listed(captured[..n + 1], w) == Listed(captured[..n], w) + [TraceArtifact(c, w), DocumentArtifact(c, w)]
            && Receipts(captured[..n + 1], w)
                == Receipts(captured[..n], w) + [Scenario(c.name, true, ReceiptHash(c, w))]
  {
    assert captured[..n + 1][..n] == captured[..n];
  }

  /** One pass of the import loop: the two files of a scenario, each created only if it is not there. */
  method ImportOne(c: Captured, files: Files, w: Writer) returns (r: Import)
    ensures r.Imported? <==>
            && w.sha256(c.trace) == c.rawTraceSha256
            && TracePath(c.name) !in files && ScenarioPath(c.name) !in files
    ensures r.Imported? ==>
              r == Imported(files[TracePath(c.name) := c.trace][ScenarioPath(c.name) := DocumentText(c, w)],
                            [TraceArtifact(c, w), DocumentArtifact(c, w)], [Scenario(c.name, true, ReceiptHash(c, w))])
  {
    PathKinds(c.name, c.name);
    var now := files;
    var traceHash := w.sha256(c.trace);
    if traceHash != c.rawTraceSha256 { return TraceMismatch(c.name); }
    if TracePath(c.name) in now { return FileExists(TracePath(c.name)); }
    now := now[TracePath(c.name) := c.trace];
    var artifacts := [Artifact(TracePath(c.name), traceHash, |c.trace|)];
    var hash := w.sha256(C.CanonicalJson(Json.Object(c.unsigned)));
    var text := w.pretty(Json.Object(C.Sealed(c.unsigned, w.sha256))) + [NEWLINE];
    if ScenarioPath(c.name) in now { return FileExists(ScenarioPath(c.name)); }
    now := now[ScenarioPath(c.name) := text];
    artifacts := artifacts + [Artifact(ScenarioPath(c.name), hash, |text|)];
    return Imported(now, artifacts, [Scenario(c.name, true, hash)]);
  }

  lemma {:induction false} MergeUpdate(files: Files, more: Files, k: string, u: Text, l: string, v: Text)
    ensures (files + more)[k := u][l := v] == files + more[k := u][l := v]
  {
  }

  ghost predicate Importable(captured: seq<Captured>, files: Files, w: Writer) {
    TracesMatch(captured, w) && Fresh(captured, files)
  }

  /** Whether one more scenario can be imported is decided by its trace and its two paths. */
  lemma {:induction false} NextImportable(captured: seq<Captured>, n: nat, files: Files, w: Writer)
    requires n < |captured| && Importable(captured[..n], files, w)
    ensures var c, now := captured[n], files + Written(captured[..n], w);
            w.sha256(c.trace) == c.rawTraceSha256 && TracePath(c.name) !in now && ScenarioPath(c.name) !in now
            <==> Importable(captured[..n + 1], files, w)
    ensures Importable(captured, files, w) ==> Importable(captured[..n + 1], files, w)
  {
    NextIsFresh(captured, n, files, w);
    assert TracesMatch(captured[..n + 1], w) <==> w.sha256(captured[n].trace) == captured[n].rawTraceSha256 by {
      assert captured[..n + 1] == captured[..n] + [captured[n]];
      assert captured[..n + 1][n] == captured[n];
    }
    if Fresh(captured, files) { FreshPrefix(captured, files, n + 1); }
  }

  /** The import succeeds exactly when every trace has its hash and no file is in the way; it then adds
      exactly two files for each scenario and lists them. Each file is created, never overwritten. */
  method ImportScenarios(captured: seq<Captured>, files: Files, w: Writer) returns (r: Import)
    ensures r.Imported? <==> Importable(captured, files, w)
    ensures r.Imported? ==> r == Imported(files + Written(captured, w), Listed(captured, w), Receipts(captured, w))
  {
    var now := files;
    var artifacts: seq<Artifact> := [];
    var scenarios: seq<Scenario> := [];
    for i := 0 to |captured|
      invariant Importable(captured[..i], files, w)
      invariant now == files + Written(captured[..i], w)
      invariant artifacts == Listed(captured[..i], w) && scenarios == Receipts(captured[..i], w)
    {
      NextImportable(captured, i, files, w);
      var c := captured[i];
      var step := ImportOne(c, now, w);
      if !step.Imported? { return step; }
      WrittenSnoc(captured, i, w);
      MergeUpdate(files, Written(captured[..i], w), TracePath(c.name), c.trace, ScenarioPath(c.name),
          DocumentText(c, w));
      now := step.files;
      artifacts := artifacts + step.artifacts;
      scenarios := scenarios + step.scenarios;
    }
    assert captured[..|captured|] == captured;
    return Imported(now, artifacts, scenarios);
  }

  lemma {:induction false} PhysicalListHasNoRepeats()
    ensures NoRepeats(PHYSICAL_SCENARIOS)
  {
    var lengths := [18, 32, 12, 15, 21, 20, 25, 16];
    assert forall i :: 0 <= i < 8 ==> |PHYSICAL_SCENARIOS[i]| == lengths[i];
  }

  /** The import of an accepted payload into an empty directory can only fail on a trace. */
  lemma {:induction false} AcceptedIsImportable(captured: seq<Captured>, w: Writer)
    requires Permutation(CapturedNames(captured), PHYSICAL_SCENARIOS)
    ensures Importable(captured, map[], w) <==> TracesMatch(captured, w)
  {
    PhysicalListHasNoRepeats();
    OnceEach(CapturedNames(captured), PHYSICAL_SCENARIOS);
  }

  // ----- The ledger's view -----

  lemma {:induction false} WrittenContent(captured: seq<Captured>, w: Writer, i: nat)
    requires NoRepeats(CapturedNames(captured)) && i < |captured|
    ensures var files := Written(captured, w);
            && TracePath(captured[i].name) in files && files[TracePath(captured[i].name)] == captured[i].trace
            && ScenarioPath(captured[i].name) in files
                && files[ScenarioPath(captured[i].name)] == DocumentText(captured[i], w)
  {
    hide Written, DocumentText, TracePath, ScenarioPath;
    var n := |captured| - 1;
    var a, b := captured[i].name, captured[n].name;
    PathKinds(a, b);
    PathKinds(b, a);
    WrittenSnoc(captured, n, w);
    assert captured[..n + 1] == captured;
    if i < n {
      assert CapturedNames(captured)[i] != CapturedNames(captured)[n];
      assert CapturedNames(captured[..n]) == CapturedNames(captured)[..n];
      WrittenContent(captured[..n], w, i);
    }
  }

  /** The directory after a whole import: the scenario files and the receipt. */
  function Directory(captured: seq<Captured>, w: Writer, receipt: Text): Files {
    Written(captured, w)["receipt.json" := receipt]
  }

  lemma {:induction false} ListedMatches(captured: seq<Captured>, w: Writer, receipt: Text, i: nat)
    requires NoRepeats(CapturedNames(captured)) && i < |captured|
    ensures var files := Directory(captured, w, receipt);
            && ArtifactMatches(files, TraceArtifact(captured[i], w), w.sha256)
            && (ArtifactMatches(files, DocumentArtifact(captured[i], w), w.sha256)
                <==> w.sha256(DocumentText(captured[i], w)) == ReceiptHash(captured[i], w))
  {
    WrittenContent(captured, w, i);
    PathKinds(captured[i].name, captured[i].name);
  }

  /** In any order of the listed artifacts, the ledger's file check accepts an import if and only if
      every scenario file happens to have the hash of its canonical unsigned document. */
  lemma {:induction false} ImportedFilesExact(captured: seq<Captured>, w: Writer, receipt: Text,
        artifacts: seq<Artifact>,
                                              admitted: (string, Text) -> bool)
    requires NoRepeats(CapturedNames(captured)) && Permutation(artifacts, Listed(captured, w))
    requires admitted("receipt.json", receipt)
    ensures FilesMatch(Directory(captured, w, receipt), artifacts, w.sha256, admitted) <==>
            forall i :: 0 <= i < |captured| ==> w.sha256(DocumentText(captured[i], w)) == ReceiptHash(captured[i], w)
  {
    var files := Directory(captured, w, receipt);
    var listed := Listed(captured, w);
    PermutationElements(artifacts, listed);
    assert forall a :: a in artifacts <==> a in Elements(artifacts);
    assert forall a :: a in listed <==> a in Elements(listed);
    if FilesMatch(files, artifacts, w.sha256, admitted) {
      forall i | 0 <= i < |captured| ensures w.sha256(DocumentText(captured[i], w)) == ReceiptHash(captured[i], w) {
        assert listed[2 * i + 1] in artifacts;
        ListedMatches(captured, w, receipt, i);
      }
    }
    if forall i :: 0 <= i < |captured| ==> w.sha256(DocumentText(captured[i], w)) == ReceiptHash(captured[i], w) {
      forall k | 0 <= k < |artifacts| ensures ArtifactMatches(files, artifacts[k], w.sha256) {
        assert artifacts[k] in listed;
        var m :| 0 <= m < |listed| && listed[m] == artifacts[k];
        var i := ListedAt(captured, w, m);
        ListedMatches(captured, w, receipt, i);
      }
      forall path | path in files
        ensures (exists k :: 0 <= k < |artifacts| && artifacts[k].path == path) || admitted(path, files[path])
      {
        if path != "receipt.json" { ListedPath(captured, w, artifacts, path); }
      }
    }
  }

  lemma {:induction false} Half(m: nat) returns (i: nat)
    ensures m == 2 * i || m == 2 * i + 1
  {
    i := m / 2;
  }

  lemma {:induction false} ListedAt(captured: seq<Captured>, w: Writer, m: nat) returns (i: nat)
    requires m < |Listed(captured, w)|
    ensures i < |captured|
    ensures Listed(captured, w)[m] == TraceArtifact(captured[i], w)
              || Listed(captured, w)[m] == DocumentArtifact(captured[i], w)
  {
    i := Half(m);
  }

  lemma {:induction false} ListedPath(captured: seq<Captured>, w: Writer, artifacts: seq<Artifact>, path: string)
    requires path in Written(captured, w) && forall a :: a in Listed(captured, w) ==> a in artifacts
    ensures exists k :: 0 <= k < |artifacts| && artifacts[k].path == path
  {
    WrittenPaths(captured, w, path);
    var i :| 0 <= i < |captured| && (path == TracePath(captured[i].name) || path == ScenarioPath(captured[i].name));
    var listed := Listed(captured, w);
    var m := if path == TracePath(captured[i].name) then 2 * i else 2 * i + 1;
    assert listed[m].path == path && listed[m] in artifacts;
  }

  /** The file of a scenario document is never its canonical text: one ends with a newline, the other
      with a brace. */
  lemma {:induction false} FileIsNotCanonical(c: Captured, w: Writer)
    ensures DocumentText(c, w) != C.CanonicalJson(Json.Object(c.unsigned))
  {
    var file, canonical := DocumentText(c, w), C.CanonicalJson(Json.Object(c.unsigned));
    assert file[|file| - 1] == NEWLINE && canonical[|canonical| - 1] == CLOSING_BRACE;
  }

  /** The ledger refuses every import of at least one scenario, unless the hash collides on it: what
      the import lists for a scenario is not the hash of the file that it writes. */
  lemma {:induction false} LedgerRefusesImports(captured: seq<Captured>, w: Writer, receipt: Text,
        artifacts: seq<Artifact>,
                                                admitted: (string, Text) -> bool, i: nat)
    requires NoRepeats(CapturedNames(captured)) && Permutation(artifacts, Listed(captured, w))
    requires admitted("receipt.json", receipt) && i < |captured|
    requires w.sha256(DocumentText(captured[i], w)) == w.sha256(C.CanonicalJson(Json.Object(captured[i].unsigned))) ==>
               DocumentText(captured[i], w) == C.CanonicalJson(Json.Object(captured[i].unsigned))
    ensures !FilesMatch(Directory(captured, w, receipt), artifacts, w.sha256, admitted)
  {
    FileIsNotCanonical(captured[i], w);
    ImportedFilesExact(captured, w, receipt, artifacts, admitted);
  }

  /** The receipt itself is bound: with distinct scenario receipts each scenario has its artifact. */
  lemma {:induction false} ImportedIsBound(captured: seq<Captured>, w: Writer, artifacts: seq<Artifact>)
    requires Permutation(artifacts, Listed(captured, w))
    ensures Bound(Receipts(captured, w), artifacts) <==> NoRepeats(Hashes(Receipts(captured, w)))
  {
    var listed, receipts := Listed(captured, w), Receipts(captured, w);
    PermutationElements(artifacts, listed);
    assert forall a :: a in artifacts <==> a in Elements(artifacts);
    assert forall a :: a in listed <==> a in Elements(listed);
    forall i | 0 <= i < |receipts| ensures HasHash(artifacts, receipts[i].receiptSha256) {
      assert listed[2 * i + 1] in artifacts;
    }
  }
}
