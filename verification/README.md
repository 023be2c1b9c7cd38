# A verified model of the Matchday evidence, scheduling and resource logic

This project models the parts of the Matchday repository whose correctness rests on an argument rather
than on one function body, and proves that argument with Dafny 4.11. `dafny verify dfyconfig.toml` checks
all of it. Each module follows one component:

| component | modules |
|---|---|
| canonical JSON and the self-hashed receipts | `Json`, `CanonicalJson` |
| CSV exports | `Csv` |
| client addresses, rate-limit subjects, the private-address classifier | `Ipv6`, `ClientIp`, `RateLimitSubject`, `PrivateAddress`, over `Texts` and `Bits` |
| schedule overlap audit, format play-through | `OverlapAudit`, `Cycles`, `FormatPlay` |
| fault registry, bounded buffer, lost-response fence of the test proxy | `ProxyFaults`, `LostResponseFence` |
| signed fault drills and the verifier of their files | `FaultEvidence`, `FaultDrill`, `ArtifactText`, `SecretPattern`, `RetainedArtifacts` |
| the lifecycle run | `Lifecycle` |
| Redis ownership and cleanup of both harnesses | `RedisNamespace`, `RedisCleanup`, `Phase4Redis` |
| the scoring workload and how its writers get their matches | `ScoringWorkload`, `ScoringHandover` |
| account deletion, public stream cap, worker pool | `AccountDeletion`, `StreamCap`, `MapConcurrent` |
| project and physical-device evidence | `Evidence`, `PhysicalImport`, over `Lists` |

Classes and methods stand where the source updates state or loops; each is proved against a function of
the old state, and the properties are proved of that function over whole runs. SHA-256, HMAC and JSON
parsing are function parameters. SQL tables are maps updated by one serial transaction, timers are an
explicit map of what is pending, and a dependency call returns or throws as it likes. Expiry times,
request times and UUIDs are inputs.

## Where the code falls short of the obvious property

Each property fails for inputs that the code can receive. The condition under which it holds is exact.

- The ledger refuses every physical-device import. The importer lists each scenario document under the
  hash of its canonical unsigned form, while the ledger compares the listed hash with the hash of the file,
  which is indented and ends with a line break (`PhysicalImport.ImportedFilesExact`, `LedgerRefusesImports`).
- One address does not always have one rate-limit subject. A mapped address has one subject in its dotted
  spelling, which is stripped to IPv4, and another in every other spelling; two spellings of an address
  agree exactly when both are of that dotted form or neither is (`RateLimitSubject.OneAddress`).
- A lifecycle run that leaves its namespace behind does not always name it. The code tests what it caught against
  `undefined` and combines failures with `??=`, which also overwrites `null`. The namespace is named exactly when
  something other than `undefined` was thrown, unless the try block threw `undefined` and the finally block met a
  `null` and then an `undefined` (`Lifecycle.Run`, `ShutdownFailureExact`, `UndefinedHidesNamespace`, `NullHidesNamespace`).

## Exact boundaries

No caller in the repository is known to step outside these conditions. The lemmas say how far the properties reach.

- `sameSet` is a test for permutations if and only if the expected list has no repeats
  (`Evidence.SameSetExact`); the required scenario and screenshot lists have none.
- A CSV file reads back exactly unless its last record is one empty cell below other records
  (`Csv.TableRoundTrip`); the match export writes eight cells a record.
- `mapConcurrent` fills its output if and only if there is nothing to do, or there is a worker and no `create`
  rejects (`MapConcurrent.FinishedIsComplete`); it is called with six and with eight workers.
- The play-through loop plays every match if and only if each referenced match exists and no match waits for
  itself through others (`FormatPlay.PlayToCompletion`); it is given formats made from templates.
- The scoring workload is free of rejected calls in every interleaving if and only if no two writers score one match
  (`ScoringWorkload.SafeExactlyWhenNoRepeats`). The check of the handed-over list lets a match in twice, but the
  exchange that follows refuses the second entry (`ScoringHandover.HandoverExact`, `DuplicateHandoff`).
- The verifier accepts what successful drills wrote if and only if the pattern for secret-like content finds nothing
  in the run, deployment and build identifiers as JSON escapes them (`RetainedArtifacts.DrillsAreAccepted`); an escape
  can complete a keyword that the identifier does not contain (`SecretPattern.EscapeBetrays`).
- `dispose` empties the registry if and only if no release callback still waiting throws; after a throw the
  records not yet reached stay (`ProxyFaults.FaultRegistry.Dispose`).

## Model

| member | source | states |
|---|---|---|
| `Json.ReadStringify` | apps/api/scripts/import-gate-c-c3-physical-evidence.ts:74-82 | reading a `JSON.stringify` text (escapes of section 7 of RFC 8259, every finite number) gives the value back and stops at its end |
| `Json.StringifyInjective` | apps/api/scripts/import-gate-c-c3-physical-evidence.ts:81 | two values have one text only if they are the same value |
| `CanonicalJson.CanonicalIsSorted` | apps/api/scripts/import-gate-c-c3-physical-evidence.ts:74-82 | `canonicalJson` is `JSON.stringify` of the value with the keys of every object sorted |
| `CanonicalJson.SortKeysSame` | apps/api/scripts/import-gate-c-c3-physical-evidence.ts:77-79 | sorting the keys at every depth is a normal form: equal exactly for values that differ in key order only |
| `CanonicalJson.CanonicalJsonExact` | apps/api/scripts/import-gate-c-c3-physical-evidence.ts:74-82 | canonical texts are equal exactly for values that differ in nothing but key order, at any depth |
| `CanonicalJson.SortAscends` | apps/api/scripts/import-gate-c-c3-physical-evidence.ts:77-78 | sorting entries with different keys keeps each of them and puts the keys in ascending order of code units: the smaller unit at the first difference, or the shorter key, comes first |
| `CanonicalJson.CanonicalAscends` | apps/api/scripts/import-gate-c-c3-physical-evidence.ts:74-82 | the canonical text of a value is the plain text of the one equal value whose keys ascend in every object, at any depth |
| `CanonicalJson.SealedVerifies` | apps/api/scripts/import-gate-c-c3-physical-evidence.ts:207-208 | a written receipt, its keys reordered anywhere, still hashes to its stored `receipt_sha256` once that member is removed |
| `CanonicalJson.ReceiptBinds` | scripts/run-gate-c-c3-ledger.mjs:304-307 | two documents that pass the ledger's recomputation under one receipt have the same content, unless the hash collides on just their two signed texts |
| `Csv.ReadWrittenRecord` | apps/api/src/csv-escape.ts:10-17 | escaped cells joined with commas, read by section 2 of RFC 4180, give the neutralised texts in order |
| `Csv.TableRoundTrip` | apps/api/src/export-runtime.ts:182-193 | a written table reads back as its neutralised texts exactly when its last record is not a blank below others |
| `Csv.NoFormulaReadBack` | apps/api/src/csv-escape.ts:10-17 | no string cell read back starts with `=`, `+`, `-`, `@`, TAB or CR |
| `Csv.WrittenAlike` | apps/api/src/csv-escape.ts:15 | two strings are written alike exactly when equal or one is the other neutralised |
| `Csv.CellReadBack` | apps/api/src/csv-escape.ts:10-17 | a missing value reads back as nothing, a number as it was, and a string as it was but for an apostrophe before one of the six triggers |
| `Ipv6.UndottedMeaning` | apps/api/src/client-ip.ts:140-158 | replacing a dotted tail by two groups keeps a spelling valid and its address the same |
| `Ipv6.LowerMeaning` | apps/api/src/client-ip.ts:43-54 | lower-casing keeps a spelling valid and its address the same |
| `Ipv6.SixIsNotFour` | apps/api/src/client-ip.ts:43-54 | no valid IPv6 text is taken for an IPv4 text |
| `ClientIp.RewriteText` | apps/api/src/client-ip.ts:142-146 | the tail rewriting turns a valid text into the text of the same spelling without dots |
| `ClientIp.ExpandText` | apps/api/src/client-ip.ts:140-158 | `expandIpv6` returns the eight groups of every valid text, so it never gives up on one |
| `RateLimitSubject.BucketExact` | apps/api/src/client-ip.ts:165-174 | two bucket texts are equal exactly when the upper four groups are |
| `RateLimitSubject.TextLength` | apps/api/src/client-ip.ts:43-54 | every valid text has 2 to 45 characters, so the length limit turns none away |
| `RateLimitSubject.CanonicalOfText` | apps/api/src/client-ip.ts:43-54 | `canonicalClientIp` gives the dotted IPv4 of a dotted mapped form and the lower-cased text of every other spelling |
| `RateLimitSubject.SameSubject` | apps/api/src/client-ip.ts:165-174 | inputs that canonicalise to family 6 share a subject exactly when their upper 64 bits agree, whatever the spelling |
| `RateLimitSubject.SubjectExact` | apps/api/src/client-ip.ts:43-54 | over all valid texts: when two subjects are equal, with the dotted mapped form limited by its IPv4 address |
| `RateLimitSubject.OneAddress` | apps/api/src/client-ip.ts:43-54 | two spellings of one address have one subject exactly when both are of the dotted mapped form or neither is |
| `RateLimitSubject.QuadSubject` | apps/api/src/client-ip.ts:51-53 | an IPv4 text canonicalises to itself and is its own subject |
| `RateLimitSubject.QuadSubjectExact` | apps/api/src/client-ip.ts:165-168 | two IPv4 texts share a subject exactly when their four octets agree |
| `RateLimitSubject.QuadMeetsMapped` | apps/api/src/client-ip.ts:165-168 | an IPv4 text and an IPv6 text share a subject exactly when the latter is the dotted mapped form of the former |
| `RateLimitSubject.SurroundingsDropped` | apps/api/src/client-ip.ts:43-54 | white space around an address and brackets inside it change neither its canonical form nor its subject |
| `RateLimitSubject.CanonicalExact` | apps/api/src/client-ip.ts:43-54 | canonicalisation accepts exactly address texts with such surroundings or without |
| `RateLimitSubject.OtherSubject` | apps/api/src/client-ip.ts:165-168 | any other text is its own subject |
| `RateLimitSubject.MappedSpellingsDiffer` | apps/api/src/client-ip.ts:43-54 | a dotted mapped address and its hexadecimal spelling always have different subjects |
| `RateLimitSubject.MappedExample` | apps/api/src/client-ip.ts:43-54 | `::ffff:1.2.3.4` is such a spelling |
| `PrivateAddress.ReadText` | apps/api/scripts/gate-c-c5-controlled-staging-runtime.ts:40-89 | the classifier reads the address of every valid text |
| `PrivateAddress.ReadersAgree` | apps/api/scripts/gate-c-c5-controlled-staging-runtime.ts:40-89 | the classifier and the rate limiter read every valid text as the same eight groups |
| `PrivateAddress.PrivateIPv4` | apps/api/scripts/gate-c-c5-controlled-staging-runtime.ts:40-89 | an IPv4 text is private exactly when its number lies in one of the listed blocks |
| `PrivateAddress.PrivateIPv6` | apps/api/scripts/gate-c-c5-controlled-staging-runtime.ts:40-89 | a valid IPv6 text is private exactly when its number is 0, 1, in fc00::/7, fe80::/10 or ff00::/8, or mapped from a private IPv4 |
| `OverlapAudit.SortPairwise` | apps/api/scripts/simulate-tournament.ts:468-477 | sorting a list of bookings keeps every symmetric pairwise property |
| `OverlapAudit.NeighboursSuffice` | apps/api/scripts/simulate-tournament.ts:468-477 | in a list sorted by start, clear neighbours mean that no two bookings at all overlap, and conversely |
| `OverlapAudit.SharedKey` | apps/api/scripts/simulate-tournament.ts:462-467 | rows have a resource key in common exactly when they share a court, a team or an official |
| `OverlapAudit.GroupByResource` | apps/api/scripts/simulate-tournament.ts:452-467 | the map holds, for each key, the bookings with that key in order, and nothing else |
| `OverlapAudit.FirstOverlap` | apps/api/scripts/simulate-tournament.ts:470-476 | the neighbour loop finds an overlap of neighbours exactly when there is one |
| `OverlapAudit.Audit` | apps/api/scripts/simulate-tournament.ts:431-480 | the audit refuses an empty schedule, passes exactly when every resource is clear, and otherwise names two overlapping bookings of a resource |
| `OverlapAudit.AuditExact` | apps/api/scripts/simulate-tournament.ts:452-477 | for rows that start before they end, every resource is clear exactly when no two rows sharing a court, team or official overlap |
| `OverlapAudit.NoSelfClash` | apps/api/scripts/simulate-tournament.ts:468-477 | with distinct matches, neighbours of a sorted list are never the same match |
| `Cycles.EndlessMeansCycle` | apps/api/scripts/simulate-tournament.ts:783-816 | in a finite set where everything waits for something there is a cycle, which is why a pass of an acyclic format is never empty too early |
| `FormatPlay.SettledIsComplete` | apps/api/scripts/simulate-tournament.ts:780-834 | a history after which nothing is ready has played everything exactly when the format is playable |
| `FormatPlay.PlayAll` | apps/api/scripts/simulate-tournament.ts:784-794 | one pass plays each ready match once, after the matches it needs |
| `FormatPlay.PlayToCompletion` | apps/api/scripts/simulate-tournament.ts:780-834 | the bounded loop always ends through its empty pass, plays no match twice or before a match that an entry of it comes from, leaves unplayed only matches that wait for an unplayed one, and plays all of them exactly when the format is playable |
| `FormatPlay.NeedsExactly` | packages/domain/src/format.ts:226-236 | a match waits for exactly the matches whose winner or loser it takes and, for a finisher of a stage, all matches of the stage |
| `FormatPlay.TerminalMatches` | apps/api/scripts/simulate-tournament.ts:770-778 | the terminal set holds the matches nobody consumes, and is not empty for a non-empty acyclic format |
| `FormatPlay.TerminalExists` | packages/domain/src/format.ts:226-247 | every non-empty acyclic format has a match whose winner and loser nobody consumes |
| `ProxyFaults.RunKeeps` | apps/api/scripts/gate-c-c3-proxy-faults.ts:39-128 | in every run, pending timers and records correspond one to one and callbacks are accounted for |
| `ProxyFaults.ExpiryCancelsItsOwn` | apps/api/scripts/gate-c-c3-proxy-faults.ts:47-53 | an expiry cancels the record that armed the timer and never a successor or another record |
| `ProxyFaults.CallbackRunsOnce` | apps/api/scripts/gate-c-c3-proxy-faults.ts:67-90 | in every run an attached callback has not run while its record is there and has run exactly once when it is gone |
| `ProxyFaults.HeldRoundTrip` | apps/api/scripts/gate-c-c3-proxy-faults.ts:47-90 | arm, hold, release of a free scope succeeds, refuses every other order, and restores both maps and the timers |
| `ProxyFaults.ExpiryReleases` | apps/api/scripts/gate-c-c3-proxy-faults.ts:47-90 | the expiry of a held request leaves the registry as its release does |
| `ProxyFaults.DivergenceRoundTrip` | apps/api/scripts/gate-c-c3-proxy-faults.ts:92-118 | a divergence is consumed once, by its own event only, and leaves nothing behind |
| `ProxyFaults.FaultRegistry.Arm` | apps/api/scripts/gate-c-c3-proxy-faults.ts:47-53 | keeps the invariant; refuses a scope that has a record, otherwise gives that scope alone a record with a timer of its own |
| `ProxyFaults.FaultRegistry.Mark` | apps/api/scripts/gate-c-c3-proxy-faults.ts:67-73 | keeps the invariant; attaches the callback exactly to a record that is armed and not yet held |
| `ProxyFaults.FaultRegistry.Cancel` | apps/api/scripts/gate-c-c3-proxy-faults.ts:84-90 | keeps the invariant; the scope has no record or timer afterwards and its attached callback, if any, has run |
| `ProxyFaults.FaultRegistry.ReleaseRequest` | apps/api/scripts/gate-c-c3-proxy-faults.ts:75-82 | keeps the invariant; releases exactly a held record, running its one callback, and otherwise changes nothing |
| `ProxyFaults.FaultRegistry.ArmDiverging` | apps/api/scripts/gate-c-c3-proxy-faults.ts:92-98 | keeps the invariant; refuses a scope that has a divergence, otherwise gives that scope alone one with a timer of its own |
| `ProxyFaults.FaultRegistry.Consume` | apps/api/scripts/gate-c-c3-proxy-faults.ts:100-107 | keeps the invariant; takes the divergence exactly when scope and event match, and otherwise changes nothing |
| `ProxyFaults.FaultRegistry.CancelDiverging` | apps/api/scripts/gate-c-c3-proxy-faults.ts:113-118 | keeps the invariant; removes the divergence of the scope and its timer and nothing else |
| `ProxyFaults.FaultRegistry.Fire` | apps/api/scripts/gate-c-c3-proxy-faults.ts:47-53 | keeps the invariant; exactly the record that armed the timer goes, whichever kind it is |
| `ProxyFaults.FaultRegistry.Dispose` | apps/api/scripts/gate-c-c3-proxy-faults.ts:124-127 | completes exactly when no waiting callback throws; then both maps and the timers are empty and every callback ever attached has run once, otherwise the records not reached stay |
| `ProxyFaults.BoundedBuffer.Append` | apps/api/scripts/gate-c-c3-proxy-faults.ts:3-24 | a chunk is accepted exactly while everything offered so far fits the limit; once over, never again |
| `ProxyFaults.BoundedBuffer.Value` | apps/api/scripts/gate-c-c3-proxy-faults.ts:3-24 | the value is every byte offered, in order, or nothing once over the limit |
| `LostResponseFence.DropsAreArmed` | apps/api/scripts/gate-c-c3-lost-response-fence.ts:10-51 | in every run a scope loses at most one response for each successful arming |
| `LostResponseFence.FenceHolds` | apps/api/scripts/gate-c-c3-lost-response-fence.ts:26-45 | an active fence destroys session requests and events with another id and is unchanged by them |
| `LostResponseFence.FenceStands` | apps/api/scripts/gate-c-c3-lost-response-fence.ts:10-51 | until its event or its expiry, a fence survives any run unchanged, with every session request and other event destroyed and every arming refused |
| `LostResponseFence.FenceLife` | apps/api/scripts/gate-c-c3-lost-response-fence.ts:10-45 | an armed fence drops the first matching response, allows the next and is disarmed, and can then be armed again |
| `LostResponseFence.FenceExpires` | apps/api/scripts/gate-c-c3-lost-response-fence.ts:47-51 | an expired fence has no effect and is removed |
| `LostResponseFence.OtherScopes` | apps/api/scripts/gate-c-c3-lost-response-fence.ts:10-51 | a request leaves the fences of other scopes as they are, expired ones apart |
| `LostResponseFence.ResponseFence.ArmFence` | apps/api/scripts/gate-c-c3-lost-response-fence.ts:10-19 | arms exactly a scope without an unexpired fence for a valid event id, with the new expiry; every other scope keeps its unexpired fence, as in the arming step |
| `LostResponseFence.ResponseFence.HasActive` | apps/api/scripts/gate-c-c3-lost-response-fence.ts:21-24 | answers whether the scope has an unexpired fence, and prunes |
| `LostResponseFence.ResponseFence.HandleTraffic` | apps/api/scripts/gate-c-c3-lost-response-fence.ts:26-45 | drops the response exactly of the first request for the event of its scope's fence, ends the fence at the second, destroys session requests and other events, and changes no other fence, as in the handling step |
| `LostResponseFence.ResponseFence.PruneExpired` | apps/api/scripts/gate-c-c3-lost-response-fence.ts:47-51 | exactly the expired fences go |
| `FaultEvidence.PayloadBinds` | apps/api/scripts/gate-c-c5-controlled-staging-faults.ts:80-90 | the signed text determines all ten values, as long as none contains a line break |
| `FaultDrill.AttestationIsBound` | apps/api/scripts/gate-c-c5-controlled-staging-faults.ts:99-157 | one attestation is accepted for one configuration, fault, phase, nonce and observation only, unless the HMAC collides on just the two secrets and payloads |
| `FaultDrill.PayloadReads` | apps/api/scripts/gate-c-c5-controlled-staging-faults.ts:82-91 | the signed text of a phase, line by line |
| `FaultDrill.AcceptedExactly` | apps/api/scripts/gate-c-c5-controlled-staging-faults.ts:99-157 | a phase accepts exactly the one reply that a control plane with the secret makes to its nonce and an observation of the right form |
| `FaultDrill.KeptOfReply` | apps/api/scripts/gate-c-c5-controlled-staging-faults.ts:143-157 | of an accepted reply every member is kept as it came, but of the nonce, the observation and the attestation only the digest of each |
| `FaultDrill.ObservationShape` | apps/api/scripts/gate-c-c5-controlled-staging-faults.ts:132 | an observation is a lower-case letter and 2 to 255 letters, digits and marks |
| `FaultDrill.UuidIsNonce` | apps/api/scripts/gate-c-c5-controlled-staging-faults.ts:131 | every UUID is an acceptable nonce |
| `FaultDrill.RunPhases` | apps/api/scripts/gate-c-c5-controlled-staging-faults.ts:224-243 | the phases before the cleanup are attempted in order up to the first failure |
| `FaultDrill.RunDrill` | apps/api/scripts/gate-c-c5-controlled-staging-faults.ts:224-260 | after them the cleanup is attempted exactly once, and the drill fails exactly when some phase does not attest |
| `FaultDrill.RunHook` | apps/api/scripts/gate-c-c5-controlled-staging-faults.ts:194-300 | without all commands, or if the directory cannot be made, no phase is attempted and no file written; otherwise the drill order holds, each writable lane file holds what was observed, and a receipt is returned exactly when all phases attest and all files are written |
| `FaultDrill.SeenAll` | apps/api/scripts/gate-c-c5-controlled-staging-faults.ts:209-298 | every phase was observed exactly when every phase attests, which is when the last attempted phase and the cleanup do |
| `RetainedArtifacts.ParseReceipt` | apps/api/scripts/gate-c-c5-retained-artifacts.ts:179-223 | a receipt parses exactly when each fault has one candidate and that one is acceptable; the result lists them in the order of the faults |
| `RetainedArtifacts.VerifyFaults` | apps/api/scripts/gate-c-c5-retained-artifacts.ts:260-288 | the loop succeeds exactly when each fault's three files are readable, have the listed hashes and hold the lane's phases, and returns their hashes |
| `RetainedArtifacts.Verify` | apps/api/scripts/gate-c-c5-retained-artifacts.ts:235-289 | the verifier accepts exactly the receipts and files described; then every fault has one candidate, each digest in it is the hash of the file that is there, within the size limit and free of secret-like content, and those hashes are returned |
| `RetainedArtifacts.AlteredIsRefused` | apps/api/scripts/gate-c-c5-retained-artifacts.ts:260-288 | a receipt that lists another digest for some file than that of its content is refused |
| `RetainedArtifacts.NothingElseListed` | apps/api/scripts/gate-c-c5-retained-artifacts.ts:179-223 | an accepted receipt has twelve candidates, each of which is for a fault |
| `RetainedArtifacts.CandidateTampered` | apps/api/scripts/gate-c-c5-retained-artifacts.ts:191-218 | which single changes of an accepted candidate are accepted: another injector, digest or oracle of the right form, and nothing else |
| `RetainedArtifacts.PhaseTampered` | apps/api/scripts/gate-c-c5-retained-artifacts.ts:138-175 | which single changes of an accepted phase are accepted: another identifier, component or digest of the right form, and nothing else |
| `RetainedArtifacts.ArtifactPlace` | apps/api/scripts/gate-c-c5-retained-artifacts.ts:118-177 | the file a drill writes for a lane is accepted for that lane, fault and source revision only, and exactly if the drill observed all phases of the lane |
| `SecretPattern.JsonSecretExact` | apps/api/scripts/gate-c-c5-retained-artifacts.ts:15-16 | for every JSON value, the pattern matches its text exactly when it matches some key or string in it, as escaped |
| `SecretPattern.SecretInParts` | apps/api/scripts/gate-c-c5-retained-artifacts.ts:15-16 | a match never reaches across a quotation mark, nor across another unit of no word in a text without slashes |
| `SecretPattern.EscapeBetrays` | apps/api/scripts/gate-c-c5-retained-artifacts.ts:15-16 | a TAB before `oken` is not matched, its JSON text is |
| `ArtifactText.ArtifactSecretExact` | apps/api/scripts/gate-c-c5-controlled-staging-faults.ts:188-190 | the text of a lane's file is matched exactly when the run, deployment or build identifier is, as escaped: member names, constants and digests never are |
| `RetainedArtifacts.DrillsAreAccepted` | apps/api/scripts/gate-c-c5-retained-artifacts.ts:95-177 | if the hooks of all faults returned receipts, the verifier accepts those receipts, in any order, with the files the hooks wrote, exactly when no identifier is secret-like as escaped |
| `Lifecycle.TryRun` | apps/api/scripts/run-gate-c-c5-lifecycle.ts:312-354 | which flags the try block leaves set, what it throws and when it returns a receipt, for every behaviour of the dependencies |
| `Lifecycle.ProbeRun` | apps/api/scripts/run-gate-c-c5-lifecycle.ts:312-334 | up to the cleanup, which flags are set and that the error thrown is that of the first call that fails |
| `Lifecycle.FinallyRun` | apps/api/scripts/run-gate-c-c5-lifecycle.ts:355-381 | after any try block, the finally block cleans up exactly when both the producer and the worker are down and no cleanup succeeded before, and leaves in `shutdownFailure` what its assignments leave there |
| `Lifecycle.ShutdownFailureExact` | apps/api/scripts/run-gate-c-c5-lifecycle.ts:356-382 | the finally block knows that it failed exactly when a call it reached threw something other than `undefined`, and not a `null` that `??=` replaced by `undefined` |
| `Lifecycle.FirstErrorStays` | apps/api/scripts/run-gate-c-c5-lifecycle.ts:356-380 | of several errors in the finally block the first is kept; a `null` is kept only if no later call throws |
| `Lifecycle.Run` | apps/api/scripts/run-gate-c-c5-lifecycle.ts:292-395 | cleanup starts only after producer and worker are down and never after a successful one; a receipt means cleanup succeeded; every outcome and its cause are decided by which dependency calls throw what; a namespace left behind is named exactly when something other than `undefined` was thrown, but for the overwritten `null`; the cause reported for an incomplete cleanup is the first error of the finally block |
| `Lifecycle.OnlyUndefinedIsSilent` | apps/api/scripts/run-gate-c-c5-lifecycle.ts:353-394 | dependencies that throw nothing but `undefined` never make the run name its namespace |
| `Lifecycle.UndefinedHidesNamespace` | apps/api/scripts/run-gate-c-c5-lifecycle.ts:355-394 | a behaviour that leaves a prepared namespace behind without naming it |
| `Lifecycle.NullHidesNamespace` | apps/api/scripts/run-gate-c-c5-lifecycle.ts:355-394 | another one, in which a call of the finally block threw `null` |
| `RedisNamespace.GlobIsPrefix` | apps/api/scripts/gate-c-c5-redis-isolation.ts:52-68 | for plain text, the glob `text*` matches exactly the keys that start with the text |
| `RedisNamespace.PatternsArePrefixes` | apps/api/scripts/gate-c-c5-redis-isolation.ts:28-50 | for every accepted ownership, matching a pattern is starting with an owned prefix |
| `RedisNamespace.OwnedExactly` | apps/api/scripts/gate-c-c5-redis-isolation.ts:43-48 | the owned keys are those of the queue, its dead letters, the cancellations of its jobs, and the rate-limit namespace |
| `RedisNamespace.CreatedExactly` | apps/api/scripts/gate-c-c5-redis-isolation.ts:22-49 | an ownership is made of exactly the canonical names |
| `RedisNamespace.SharedKeyAgrees` | apps/api/scripts/gate-c-c5-redis-isolation.ts:28-50 | a key owned twice forces the ownerships to agree in queue prefix or namespace |
| `RedisNamespace.RunIsAccepted` | apps/api/scripts/run-gate-c-c5-lifecycle.ts:299-303 | the ownership made from a run identifier is accepted |
| `RedisNamespace.RunsAreDisjoint` | apps/api/scripts/run-gate-c-c5-lifecycle.ts:299-303 | runs with different identifiers own no common key |
| `RedisNamespace.GuardNeverOwned` | apps/api/scripts/gate-c-c5-redis-isolation.ts:42 | the near-prefix guard key of an ownership is owned by none |
| `RedisCleanup.ScanPattern` | apps/api/scripts/gate-c-c5-redis-isolation.ts:52-68 | a cursor loop returns every key of its replies once, or fails past 10,000 replies |
| `RedisCleanup.CollectKeys` | apps/api/scripts/gate-c-c5-redis-isolation.ts:52-68 | the loop over the patterns returns the union, or fails if one scan is too long |
| `RedisCleanup.CollectedAreOwned` | apps/api/scripts/gate-c-c5-redis-isolation.ts:52-68 | with full scans, repeated keys included, what is collected is exactly what is owned |
| `RedisCleanup.RedisStore.UnlinkBatches` | apps/api/scripts/gate-c-c5-redis-isolation.ts:70-74 | batches of a hundred remove exactly the listed keys |
| `RedisCleanup.RedisStore.Prepare` | apps/api/scripts/gate-c-c5-redis-isolation.ts:76-82 | succeeds exactly on an empty namespace and then only sets the guard |
| `RedisCleanup.RedisStore.Cleanup` | apps/api/scripts/gate-c-c5-redis-isolation.ts:84-104 | removes exactly the owned keys and finally the guard, every other key untouched; succeeds exactly when no writer added an owned key meanwhile and the guard is still there |
| `RedisCleanup.PreparedCleanupSucceeds` | apps/api/scripts/gate-c-c5-redis-isolation.ts:84-104 | removing the owned keys never removes the guard, so with no other writer cleanup succeeds |
| `RedisCleanup.RunRestores` | apps/api/scripts/gate-c-c5-redis-isolation.ts:76-104 | preparing, working on owned keys only and cleaning up restores the store but for a key under the guard's name, so exactly when there was none |
| `RedisCleanup.CleanupSparesOthers` | apps/api/scripts/gate-c-c5-redis-isolation.ts:84-104 | the cleanup of one run leaves the keys of another in place |
| `Phase4Redis.CreatedExact` | apps/api/scripts/run-phase-4-real-e2e.ts:261-278 | accepted ownerships are exactly those of version 4 UUIDs, one for each |
| `Phase4Redis.UuidShape` | apps/api/scripts/run-phase-4-real-e2e.ts:261-278 | the identifiers are the texts of version 4 UUIDs, group by group |
| `Phase4Redis.OwnedExactly` | apps/api/scripts/run-phase-4-real-e2e.ts:280-287 | the owned keys are those of the queue, its dead letters, the cancellations of its jobs, and the rate-limit namespace |
| `Phase4Redis.PatternsArePrefixes` | apps/api/scripts/run-phase-4-real-e2e.ts:280-287 | matching a scan pattern is passing `isOwnedRedisKey` |
| `Phase4Redis.RunsAreDisjoint` | apps/api/scripts/run-phase-4-real-e2e.ts:261-287 | a key owned by two runs makes them the same run |
| `Phase4Redis.HarnessesAreDisjoint` | apps/api/scripts/run-phase-4-real-e2e.ts:261-287 | no phase 4 key is owned by a C5 run or is the guard of one |
| `Phase4Redis.ScanPattern` | apps/api/scripts/run-phase-4-real-e2e.ts:292-308 | one cursor loop adds its keys exactly when the replies are few enough, all keys are owned and the total stays within 25,000 |
| `Phase4Redis.ScanOwnedKeys` | apps/api/scripts/run-phase-4-real-e2e.ts:289-310 | the scan returns the union of all replies exactly under those three conditions |
| `Phase4Redis.ScannedAreOwned` | apps/api/scripts/run-phase-4-real-e2e.ts:289-310 | with full scans the union is exactly the owned keys, so the foreign-key refusal is never taken |
| `Phase4Redis.UnlinkOwnedKeys` | apps/api/scripts/run-phase-4-real-e2e.ts:321-331 | removes exactly the owned keys, and succeeds exactly within the bounds and without late owned keys |
| `ScoringWorkload.MutationKeepsStep` | apps/api/scripts/run-load-scoring.ts:200-256 | an accepted mutation keeps session and log in step, whatever the step number |
| `ScoringWorkload.TierScoresOneSide` | apps/api/scripts/run-load-scoring.ts:206-233 | within a tier all points of a stream are for one side, which the sequence at the start of the tier decides |
| `ScoringWorkload.RunOk` | apps/api/scripts/run-load-scoring.ts:258-281 | under every interleaving of writers on different matches of one shared server, also with calls still in flight, every writer stays in step with its match |
| `ScoringWorkload.WorkloadSafe` | apps/api/scripts/run-load-scoring.ts:258-281 | from an empty server and different matches no call is rejected, every log is a prefix of start (point reversal)* with each reversal targeting the point before it, and an idle writer has its match's sequence |
| `ScoringWorkload.SafeExactlyWhenNoRepeats` | apps/api/scripts/run-load-scoring.ts:258-281 | no interleaving has a rejected call if and only if no two writers score one match |
| `ScoringWorkload.MockMatchesSafe` | apps/api/scripts/run-load-scoring.ts:593-624 | the numbered matches of the in-process server are different, so its workload is safe |
| `ScoringHandover.AccessServer.Exchange` | apps/api/src/phase-2-runtime.ts:2680-2812 | an exchange is refused exactly without a usable, unexpired pass for the match; it makes a viewer by role, a candidate exactly when the match has a writer or is reserved, and otherwise a writer with a lease of 45 seconds or as long as the pass lasts; only a writer changes a lease, and only that of its match |
| `ScoringHandover.HandOver` | apps/api/scripts/run-load-scoring.ts:549-585 | the handover succeeds exactly when the check passes and every entry in turn gets a writer session; the sessions are for the entries' matches in order |
| `ScoringHandover.ExchangesExact` | apps/api/scripts/run-load-scoring.ts:560-585 | every entry gets its session exactly when each would if it came first and no match is handed over twice, whatever the times of the exchanges |
| `ScoringHandover.HandoverIsSafe` | apps/api/scripts/run-load-scoring.ts:549-585 | a handover that goes through gives different matches, so its workload has no rejected call in any interleaving |
| `ScoringHandover.HandoverExact` | apps/api/scripts/run-load-scoring.ts:549-585 | for a seed without repeats it goes through exactly when it is a permutation of the seed whose matches are free for their entries |
| `ScoringHandover.DuplicateHandoff` | apps/api/scripts/lib/qa011-access-contract.ts:9-36 | one match handed over twice passes the check and is refused at an exchange, whatever the server's state |
| `ScoringWorkload.SharesAddUp` | apps/api/scripts/run-load-scoring.ts:195-198 | the streams' operation counts sum to the total and differ by at most one |
| `ScoringWorkload.ScoringServer.Post` | apps/api/scripts/run-load-scoring.ts:142-154 | the server appends a mutation exactly when the expected sequence is the length of the log |
| `ScoringWorkload.ActiveSession.Append` | apps/api/scripts/run-load-scoring.ts:200-256 | a mutation advances session and log together exactly when the sequences agree, and otherwise changes neither |
| `ScoringWorkload.CloseOpenReversals` | apps/api/scripts/run-load-scoring.ts:299-316 | the loop posts the reversals in order and stops at the first refusal, leaving the logs and sessions of the closing function |
| `ScoringWorkload.ClosingExact` | apps/api/scripts/run-load-scoring.ts:299-316 | for different matches closing succeeds exactly when no session with an open point is out of step, and then each log got its reversal and each session is closed |
| `ScoringWorkload.ClosingTouches` | apps/api/scripts/run-load-scoring.ts:299-316 | closing from a session on leaves earlier sessions and the logs of other matches alone |
| `ScoringWorkload.ClosingLeavesNoOpenPoint` | apps/api/scripts/run-load-scoring.ts:299-316 | after every interleaving of a workload on different matches whose writers have come to rest, closing never fails and leaves no unreversed point |
| `AccountDeletion.RefusedChangesNothing` | apps/api/src/account-data-rights-runtime.ts:246-284 | a refused deletion changes nothing |
| `AccountDeletion.DeletionMeaning` | apps/api/src/account-data-rights-runtime.ts:258-300 | a successful deletion leaves the account active exactly where it is the sole active owner, none of those organisations has a live competition, and memberships of others are untouched |
| `AccountDeletion.DeletedExactly` | apps/api/src/account-data-rights-runtime.ts:246-284 | a deletion goes through exactly with the confirmation phrase, for an account that is there and not deleted, if each organisation it actively owns has another active owner or no live competition |
| `AccountDeletion.DeletionKeepsOthers` | apps/api/src/account-data-rights-runtime.ts:305-317 | a successful deletion revokes exactly the account's sessions, removes exactly its provider links, and leaves every other row as it was |
| `AccountDeletion.DeletionCounts` | apps/api/src/account-data-rights-runtime.ts:289-304 | it reports how many memberships it changed and how many of the account are still active |
| `AccountDeletion.OthersUntouchedRun` | apps/api/src/account-data-rights-runtime.ts:241-362 | over every sequence, an account that no request names keeps its memberships, sessions and provider links |
| `AccountDeletion.OwnerSurvivesRun` | apps/api/src/account-data-rights-runtime.ts:289-300 | over every serial sequence of deletions an organisation with an active owner keeps one |
| `AccountDeletion.LiveOrganisationKeepsRealOwner` | apps/api/src/account-data-rights-runtime.ts:258-284 | over every sequence, an organisation with a live competition keeps active owners none of whom is anonymised |
| `AccountDeletion.NoAccessLeftRun` | apps/api/src/account-data-rights-runtime.ts:307-317 | over every sequence, deleted accounts have no unrevoked session, no provider data and no provider link |
| `AccountDeletion.DeletedOnce` | apps/api/src/account-data-rights-runtime.ts:253-256 | an account once deleted is never deleted again |
| `AccountDeletion.RunDeletes` | apps/api/src/account-data-rights-runtime.ts:341-348 | every deletion of a sequence that goes through has taken effect at its end |
| `AccountDeletion.AccountStore.IsBlocked` | apps/api/src/account-data-rights-runtime.ts:258-284 | the blocking query answers whether a solely owned organisation has a live competition |
| `AccountDeletion.AccountStore.SuspendOthers` | apps/api/src/account-data-rights-runtime.ts:289-300 | the update decides every row on the table as it was before |
| `AccountDeletion.AccountStore.DeleteAccount` | apps/api/src/account-data-rights-runtime.ts:241-362 | the method's new tables and outcome are those of the deletion step |
| `StreamCap.RunKeeps` | apps/api/src/app.ts:405-429 | in every run each counter is the number of live streams of its subject, within the maximum, and present only when positive |
| `StreamCap.AdmittedExact` | apps/api/src/app.ts:413-418 | after every run a request is let in exactly when its subject has fewer live streams than the maximum |
| `StreamCap.ReleasedOnce` | apps/api/src/app.ts:419-428 | a second notification of a stream changes nothing, whatever happened in between |
| `StreamCap.NothingLeaks` | apps/api/src/app.ts:420-426 | when every stream has ended no counter is left |
| `StreamCap.StreamHook.OnRequest` | apps/api/src/app.ts:410-418 | lets a stream in exactly under the maximum, and changes the live count of its own subject only |
| `StreamCap.StreamHook.OnEnded` | apps/api/src/app.ts:420-428 | ends that stream, lowers the live count of its subject by one if it had not ended before, and changes no other stream or count |
| `MapConcurrent.RunKeeps` | apps/api/scripts/run-gate-c-c5-benchmark.ts:393-410 | in every schedule `create` was called once for each index taken, in order, each result so far is in its place, no two workers hold one index, and a rejection is on record exactly when a finished call was rejected |
| `MapConcurrent.RunsAreBounded` | apps/api/scripts/run-gate-c-c5-benchmark.ts:393-410 | every schedule takes at most `2 * count + concurrency` turns, and exactly as many as are accounted for when nothing rejects, with at most `concurrency` calls in flight |
| `MapConcurrent.RejectedExactly` | apps/api/scripts/run-gate-c-c5-benchmark.ts:393-410 | when all workers are done, some call was rejected exactly when some index rejects, whichever workers stopped before reaching it |
| `MapConcurrent.FinishedIsComplete` | apps/api/scripts/run-gate-c-c5-benchmark.ts:393-410 | when all workers are done the output is complete exactly when there was nothing to do, or there was a worker and no `create` rejects |
| `MapConcurrent.MapConcurrently` | apps/api/scripts/run-gate-c-c5-benchmark.ts:393-410 | in any schedule the call is rejected exactly when some `create` rejects; otherwise the result of `create(i)` is at position `i` and `create` was called once for each index |
| `Evidence.SameSetIsPermutation` | apps/api/scripts/gate-c-c3-evidence.ts:131-137 | against a list without repeats `sameSet` accepts exactly its permutations |
| `Evidence.SameSetExact` | apps/api/scripts/gate-c-c3-evidence.ts:131-137 | `sameSet` is a permutation test for an expected list if and only if the list has no repeats |
| `Evidence.RequiredListsHaveNoRepeats` | apps/api/scripts/gate-c-c3-evidence.ts:34-50 | the required scenario names and screenshot paths have no repeats |
| `Evidence.ValidateScenarios` | apps/api/scripts/gate-c-c3-evidence.ts:195-231 | scenarios are accepted exactly when they are the required ones in some order, all passed, with pairwise different hashes each among the artifacts; each error names a check that fails |
| `Evidence.ValidateReceipt` | apps/api/scripts/gate-c-c3-evidence.ts:192-234 | a project receipt is accepted exactly when its screenshots and scenarios are the required ones and bound |
| `Evidence.ScenariosHoldExactly` | apps/api/scripts/gate-c-c3-evidence.ts:195-231 | what acceptance means item by item: each required name and no more, all passed, digests that differ and are each the digest of an artifact, and artifacts of a relative path, an exact size and a digest |
| `Evidence.StepInParts` | apps/api/scripts/gate-c-c3-evidence.ts:213-221 | the split paths contain a `..` exactly when the path has one between slashes, backslashes and its ends |
| `Evidence.VerifyScenarios` | apps/api/scripts/gate-c-c3-evidence.ts:342-379 | accepted exactly when the first artifact with each scenario's hash has the scenario's path and the file there parses to a canonical document of the scenario |
| `Evidence.RetainedExactly` | apps/api/scripts/gate-c-c3-evidence.ts:342-379 | what acceptance means for each scenario: the first artifact with its digest has the path of its name, and the file there is a canonical document of it with the required assertions and keys |
| `Evidence.VerifyArtifactHashes` | apps/api/scripts/gate-c-c3-evidence.ts:288-328 | accepted exactly when every listed artifact is the retained file and every other file is admitted |
| `Evidence.FilesMatchExactly` | apps/api/scripts/gate-c-c3-evidence.ts:288-328 | what acceptance means file by file: each artifact is a file with its digest and size, and every other file is admitted |
| `Evidence.EachScenarioOnce` | apps/api/scripts/gate-c-c3-evidence.ts:195-203 | an accepted receipt has each required scenario exactly once and no other |
| `Evidence.ScenariosAreOneToOne` | apps/api/scripts/gate-c-c3-evidence.ts:342-353 | accepted scenarios and files give each scenario an artifact of its own: its path, a document of its name in that file, and a hash and content no other scenario has |
| `PhysicalImport.ValidateCaptured` | apps/api/scripts/import-gate-c-c3-physical-evidence.ts:116-128 | the `seen` loop accepts exactly complete captures of each required scenario once, in any order |
| `PhysicalImport.ImportOne` | apps/api/scripts/import-gate-c-c3-physical-evidence.ts:187-213 | one scenario is imported exactly when its trace has its hash and neither of its files exists, adding exactly those two |
| `PhysicalImport.ImportScenarios` | apps/api/scripts/import-gate-c-c3-physical-evidence.ts:185-214 | the loop succeeds exactly when all traces match and no file is in the way, and adds two listed files for each scenario |
| `PhysicalImport.AcceptedIsImportable` | apps/api/scripts/import-gate-c-c3-physical-evidence.ts:175-214 | an accepted payload never collides with itself in an empty directory |
| `PhysicalImport.ImportedFilesExact` | scripts/run-gate-c-c3-ledger.mjs:594-645 | the ledger's file check accepts an import exactly when each scenario file has the hash of its canonical unsigned document |
| `PhysicalImport.LedgerRefusesImports` | scripts/run-gate-c-c3-ledger.mjs:819-824 | it therefore refuses every import of a scenario on which the hash does not collide |
| `PhysicalImport.ImportedIsBound` | scripts/run-gate-c-c3-ledger.mjs:329-340 | the receipt check alone does accept the scenarios' binding, exactly when their receipts are distinct |

## Left out

- `undefined`, and the printing of numbers that are no safe integers, in `canonicalJson`: such a number is its text, which Number::toString of ECMA-262 makes different for different numbers; minus zero prints as zero and counts as zero.
- Indented JSON output and the JSON reader of evidence files: function parameters. Of the drill files it is assumed that an artifact of sanitised phases is written as JSON.stringify writes it and parses back.
- UTF-8: a file's content stands for its bytes, and its length for its byte count.
- IPv6 zone suffixes and malformed address text: only valid spellings of section 2.2 of RFC 4291 and the 45-character limit are covered.
- `createClientIpResolver` and its warning counters: forwarding trust is a comparison of secrets and a time window.
- The column headers and value formatting of CSV exports.
- Standings, slot resolution and the scoring of matches in the play-through: a slot resolves once the matches it depends on have been played, a stage finisher once every match of the stage has been.
- The cross-checks with published standings at the end of the play-through.
- Database reads, locks and isolation: deletions are serial. The other tables that a deletion clears (notifications, presets, grants, friend requests) behave like the provider links.
- Re-entrant release callbacks in the fault registry, and the range checks of its constructor. Callbacks that throw are modelled in `dispose`; elsewhere the throw follows the last change of state.
- `ProxyFaults.BoundedBuffer.Append`: chunk storage is the concatenation of the chunks; sharing of buffers is not modelled.
- Redis SCAN: assumed to return every matching key at least once when nobody writes. Key expiry, the sorting of collected keys and network errors are not modelled.
- Command processes in a fault drill: a reply is a failure, an unusable text or a parsed value; timeouts, output limits and file paths are folded into it.
- Path, symbolic-link and size look-ups of the retained files: a file is readable or not.
- `RetainedArtifacts.DrillsAreAccepted`: requires that identifiers are not empty and that the files are within the size limit.
- `FaultDrill.AttestationIsBound`: requires identifiers without line breaks, since the signed text does not escape them, and no HMAC collision on the two payloads.
- Secret scanning of the project evidence by its own regular expressions, and fields of receipts compared with constants.
- `ScoringHandover.AccessServer.Exchange`: access by short code, rate limits and writer generations are left out; revocation, transfer and other devices are the state in which the handover finds the server, not steps between its exchanges. Device ids of different exchanges are assumed to differ.
- Responses of the scoring server that are malformed or lost on the way, its timing samples, and access exchanges after the writers have started, which reset a match's sequence.
- `MapConcurrent.MapConcurrently`: returns when all workers have stopped; Promise.all passes the first rejection on before that, while the other workers go on.
- `Evidence.VerifyScenarios`: kind, source, owner, status and time of a document are one flag, and the JSON reader, the required assertions and the observation keys are parameters.
- `Evidence.ValidateReceipt`: the members of a receipt that are compared with constants are left out.
- `Evidence.VerifyArtifactHashes`: path, link and secret checks are left out; a file is there or not.
- `PhysicalImport.ImportScenarios`: a captured scenario's document is given; its construction from the payload, and the receipt's device and deployment members, are plain copies.
- `PhysicalImport.LedgerRefusesImports`: requires that the hash does not collide on one scenario's two texts.
- Routes, plugins, process spawning, TLS, queues and the evidence of other gates.
