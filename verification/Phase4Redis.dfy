/** The Redis ownership of the phase 4 end-to-end harness: its key namespace, its checked scan with a
    bound on the number of keys, and its removal of the owned keys. */
module Phase4Redis {
  import opened Options
  import opened Texts
  import C5 = RedisNamespace
  import opened RedisCleanup

  const QUEUE_HEAD := "matchday-phase4-real-e2e-"
  const MAXIMUM_KEYS := 25_000

  predicate IsLowerHex(c: char) { '0' <= c <= '9' || 'a' <= c <= 'f' }

  /** One position of a version 4 UUID in lower case. */
  predicate UuidChar(c: char, i: nat) {
    if i == 8 || i == 13 || i == 18 || i == 23 then c == '-'
    else if i == 14 then c == '4'
    else if i == 19 then c == '8' || c == '9' || c == 'a' || c == 'b'
    else IsLowerHex(c)
  }

  predicate IsUuid(s: string) { |s| == 36 && forall i :: 0 <= i < 36 ==> UuidChar(s[i], i) }

  datatype Harness = Harness(queueName: string, runId: string)

  /** Only a canonical queue name is accepted; the run identifier is read from it. */
  function CreateOwnership(queueName: string): Option<Harness> {
    if QUEUE_HEAD <= queueName && IsUuid(queueName[|QUEUE_HEAD|..])
    then Some(Harness(queueName, queueName[|QUEUE_HEAD|..]))
    else None
  }

  ghost predicate Created(h: Harness) { CreateOwnership(h.queueName) == Some(h) }

  /** Accepted ownerships and identifiers correspond one to one. */
  lemma {:induction false} CreatedExact(h: Harness)
    ensures Created(h) <==> IsUuid(h.runId) && h.queueName == QUEUE_HEAD + h.runId
  {
    if h.queueName == QUEUE_HEAD + h.runId {
      assert h.queueName[|QUEUE_HEAD|..] == h.runId;
    }
  }

  function NamespaceOf(h: Harness): string { "matchday:phase4-real-e2e:rate-limit:" + h.runId + ":" }

  /** The owned key prefixes, without the star that ends each pattern. */
  function Prefixes(h: Harness): (r: seq<string>)
    ensures |r| == 4
  {
    ["bull:" + h.queueName + ":",
     "bull:" + h.queueName + ".dead-letter:",
     "matchday:job-cancellation:bull:" + h.queueName + ":",
     NamespaceOf(h)]
  }

  function Patterns(h: Harness): seq<string> { C5.Starred(Prefixes(h)) }

  predicate IsOwnedKey(h: Harness, key: string) {
    || Prefixes(h)[0] <= key || Prefixes(h)[1] <= key || Prefixes(h)[2] <= key || Prefixes(h)[3] <= key
  }

  /** The keys a harness owns: of its queue, of that queue's dead letters, of cancellations of the queue's
      jobs, and of its rate-limit namespace. */
  lemma {:induction false} OwnedExactly(h: Harness, key: string)
    requires Created(h)
    ensures var queue := "matchday-phase4-real-e2e-" + h.runId;
            IsOwnedKey(h, key) <==>
            || "bull:" + queue + ":" <= key
            || "bull:" + queue + ".dead-letter:" <= key
            || "matchday:job-cancellation:bull:" + queue + ":" <= key
            || "matchday:phase4-real-e2e:rate-limit:" + h.runId + ":" <= key
  {
    CreatedExact(h);
  }

  /** The four parts of a UUID whose digits are free. */
  predicate IsHexPart(s: string, n: nat) {
    |s| == n && forall i :: 0 <= i < n ==> '0' <= s[i] <= '9' || 'a' <= s[i] <= 'f'
  }

  ghost predicate IsVersionFour(s: string, a: string, b: string, c: string, v: char, d: string, e: string) {
    && IsHexPart(a, 8) && IsHexPart(b, 4) && IsHexPart(c, 3) && IsHexPart(d, 3) && IsHexPart(e, 12) && v in "89ab"
    && s == a + "-" + b + "-4" + c + "-" + [v] + d + "-" + e
  }

  /** The text of a version 4 UUID: groups of 8, 4, 4, 4 and 12 digits, the third one starting with the
      version, the fourth with the variant. */
  lemma {:induction false} UuidShape(s: string)
    ensures IsUuid(s) <==> exists a, b, c, v, d, e :: IsVersionFour(s, a, b, c, v, d, e)
  {
    if IsUuid(s) {
      UuidParts(s);
      assert IsVersionFour(s, s[..8], s[9..13], s[15..18], s[19], s[20..23], s[24..]);
    }
    forall a, b, c, v, d, e | IsVersionFour(s, a, b, c, v, d, e) ensures IsUuid(s) {
      UuidOfParts(s, a, b, c, v, d, e);
    }
  }

  lemma {:induction false} UuidParts(s: string)
    requires IsUuid(s)
    ensures IsVersionFour(s, s[..8], s[9..13], s[15..18], s[19], s[20..23], s[24..])
  {
    assert UuidChar(s[8], 8) && UuidChar(s[13], 13) && UuidChar(s[14], 14) && UuidChar(s[18], 18);
    assert UuidChar(s[19], 19) && UuidChar(s[23], 23);
    forall i | 0 <= i < 36 && i !in {8, 13, 14, 18, 19, 23} ensures IsLowerHex(s[i]) { assert UuidChar(s[i], i); }
    assert s == s[..8] + "-" + s[9..13] + "-4" + s[15..18] + "-" + [s[19]] + s[20..23] + "-" + s[24..];
  }

  lemma {:induction false} UuidOfParts(s: string, a: string, b: string, c: string, v: char, d: string, e: string)
    requires IsVersionFour(s, a, b, c, v, d, e)
    ensures IsUuid(s)
  {
    assert |s| == 36;
    assert s[..8] == a && s[9..13] == b && s[15..18] == c && s[20..23] == d && s[24..] == e;
    assert s[8] == s[13] == s[18] == s[23] == '-' && s[14] == '4' && s[19] == v;
    forall i | 0 <= i < 36 ensures UuidChar(s[i], i) {
      if i < 8 { assert s[i] == a[i]; }
      else if 8 < i < 13 { assert s[i] == b[i - 9]; }
      else if 14 < i < 18 { assert s[i] == c[i - 15]; }
      else if 19 < i < 23 { assert s[i] == d[i - 20]; }
      else if 23 < i { assert s[i] == e[i - 24]; }
    }
  }

  // ----- Patterns are prefixes -----

  lemma {:induction false} HarnessParts(h: Harness)
    requires Created(h)
    ensures C5.AllPlain(h.queueName) && C5.AllPlain(h.runId)
    ensures ':' !in h.queueName && ':' !in h.runId && |h.queueName| == 61 && |h.runId| == 36
    ensures '.' !in h.queueName
  {
    CreatedExact(h);
    forall i | 0 <= i < 36 ensures C5.IsPlain(h.runId[i]) && h.runId[i] != ':' && h.runId[i] != '.' {
      assert UuidChar(h.runId[i], i);
    }
    assert |QUEUE_HEAD| == 25;
    assert forall i :: 0 <= i < 25 ==> C5.IsPlain(QUEUE_HEAD[i]) && QUEUE_HEAD[i] != ':' && QUEUE_HEAD[i] != '.';
    forall i | 0 <= i < 61 ensures C5.IsPlain(h.queueName[i]) && h.queueName[i] != ':' && h.queueName[i] != '.' {
      if i < 25 { assert h.queueName[i] == QUEUE_HEAD[i]; } else { assert h.queueName[i] == h.runId[i - 25]; }
    }
  }

  lemma {:induction false} PrefixesPlain(h: Harness)
    requires Created(h)
    ensures forall i :: 0 <= i < 4 ==> C5.AllPlain(Prefixes(h)[i])
  {
    HarnessParts(h);
    C5.PlainConcat("bull:", h.queueName);
    C5.PlainConcat("bull:" + h.queueName, ":");
    C5.PlainConcat("bull:" + h.queueName, ".dead-letter:");
    C5.PlainConcat("matchday:job-cancellation:bull:", h.queueName);
    C5.PlainConcat("matchday:job-cancellation:bull:" + h.queueName, ":");
    C5.PlainConcat("matchday:phase4-real-e2e:rate-limit:", h.runId);
    C5.PlainConcat("matchday:phase4-real-e2e:rate-limit:" + h.runId, ":");
  }

  /** Matching the scan patterns with Redis globs is the harness's own test of ownership. */
  lemma {:induction false} PatternsArePrefixes(h: Harness, key: string)
    requires Created(h)
    ensures C5.MatchesSome(Patterns(h), key) <==> IsOwnedKey(h, key)
  {
    PrefixesPlain(h);
    C5.StarredArePrefixes(Prefixes(h), key);
    OwnedIsPrefix(h, key);
  }

  lemma {:induction false} OwnedIsPrefix(h: Harness, key: string)
    ensures IsOwnedKey(h, key) <==> C5.Owned(Prefixes(h), key)
  {
    var prefixes := Prefixes(h);
    if IsOwnedKey(h, key) {
      var i :| 0 <= i < 4 && prefixes[i] <= key;
    }
  }

  // ----- Disjoint namespaces -----

  /** What the fields of an owned key say, by the kind of prefix. */
  ghost predicate FieldsOf(h: Harness, fields: seq<string>, i: nat) {
    match i
    case 0 => |fields| >= 2 && fields[0] == "bull" && fields[1] == h.queueName
    case 1 => |fields| >= 2 && fields[0] == "bull" && fields[1] == h.queueName + ".dead-letter"
    case 2 =>
      && |fields| >= 4 && fields[0] == "matchday" && fields[1] == "job-cancellation"
      && fields[2] == "bull" && fields[3] == h.queueName
    case _ => |fields| >= 4 && fields[0] == "matchday" && fields[1] == "phase4-real-e2e" && fields[3] == h.runId
  }

  lemma {:induction false} FourFields(a: string, b: string, c: string, d: string, key: string)
    requires ':' !in a && ':' !in b && ':' !in c && ':' !in d
    requires a + ":" + (b + ":" + (c + ":" + (d + ":" + ""))) <= key
    ensures var fields := Split(key, ':');
            |fields| >= 4 && fields[0] == a && fields[1] == b && fields[2] == c && fields[3] == d
  {
    var tail := C5.TwoFields(a, b, c + ":" + (d + ":" + ""), key);
    var end := C5.TwoFields(c, d, "", tail);
    var fields := Split(key, ':');
    assert fields[2..][0] == fields[2] && fields[2..][1] == fields[3];
  }

  lemma {:induction false} TwoFieldPrefix(a: string, b: string, key: string)
    requires ':' !in a && ':' !in b && a + ":" + b + ":" <= key
    ensures var fields := Split(key, ':'); |fields| >= 2 && fields[0] == a && fields[1] == b
  {
    assert a + ":" + (b + ":" + "") == a + ":" + b + ":";
    var tail := C5.TwoFields(a, b, "", key);
  }

  lemma {:induction false} FourFieldPrefix(a: string, b: string, c: string, d: string, key: string)
    requires ':' !in a && ':' !in b && ':' !in c && ':' !in d
    requires a + ":" + b + ":" + c + ":" + d + ":" <= key
    ensures var fields := Split(key, ':');
            |fields| >= 4 && fields[0] == a && fields[1] == b && fields[2] == c && fields[3] == d
  {
    assert a + ":" + (b + ":" + (c + ":" + (d + ":" + ""))) == a + ":" + b + ":" + c + ":" + d + ":";
    FourFields(a, b, c, d, key);
  }

  lemma {:induction false} OwnedKeyFields(h: Harness, key: string, i: nat)
    requires Created(h) && i < 4 && Prefixes(h)[i] <= key
    ensures FieldsOf(h, Split(key, ':'), i)
  {
    HarnessParts(h);
    if i == 0 {
      assert "bull:" == "bull" + ":";
      TwoFieldPrefix("bull", h.queueName, key);
    } else if i == 1 {
      DeadLetterFields(h, key);
    } else if i == 2 {
      CancellationFields(h, key);
    } else {
      NamespaceFields(h, key);
    }
  }

  lemma {:induction false} CancellationFields(h: Harness, key: string)
    requires ':' !in h.queueName && "matchday:job-cancellation:bull:" + h.queueName + ":" <= key
    ensures FieldsOf(h, Split(key, ':'), 2)
  {
    assert "matchday:job-cancellation:bull:" == "matchday" + ":" + "job-cancellation" + ":" + "bull" + ":";
    FourFieldPrefix("matchday", "job-cancellation", "bull", h.queueName, key);
  }

  lemma {:induction false} NamespaceFields(h: Harness, key: string)
    requires ':' !in h.runId && NamespaceOf(h) <= key
    ensures FieldsOf(h, Split(key, ':'), 3)
  {
    assert "matchday:phase4-real-e2e:rate-limit:" == "matchday" + ":" + "phase4-real-e2e" + ":" + "rate-limit" + ":";
    FourFieldPrefix("matchday", "phase4-real-e2e", "rate-limit", h.runId, key);
  }

  lemma {:induction false} DeadLetterFields(h: Harness, key: string)
    requires ':' !in h.queueName && "bull:" + h.queueName + ".dead-letter:" <= key
    ensures FieldsOf(h, Split(key, ':'), 1)
  {
    var q := h.queueName + ".dead-letter";
    assert ':' !in ".dead-letter" && ".dead-letter:" == ".dead-letter" + ":";
    assert "bull:" + h.queueName + ".dead-letter:" == "bull" + ":" + q + ":";
    TwoFieldPrefix("bull", q, key);
  }

  lemma {:induction false} OwnedKind(h: Harness, key: string) returns (i: nat)
    requires Created(h) && IsOwnedKey(h, key)
    ensures i < 4 && FieldsOf(h, Split(key, ':'), i)
  {
    i :| i < 4 && Prefixes(h)[i] <= key;
    OwnedKeyFields(h, key, i);
  }

  lemma {:induction false} FieldsAgree(h1: Harness, h2: Harness, fields: seq<string>, i: nat, j: nat)
    requires Created(h1) && Created(h2) && i < 4 && j < 4 && FieldsOf(h1, fields, i) && FieldsOf(h2, fields, j)
    ensures h1 == h2
  {
    HarnessParts(h1);
    HarnessParts(h2);
    CreatedExact(h1);
    CreatedExact(h2);
    assert |"bull"| == 4 && |"matchday"| == 8 && |"job-cancellation"| == 16 && |"phase4-real-e2e"| == 15;
    DeadLetterName(h1, h2);
    DeadLetterName(h2, h1);
    if h1.queueName == h2.queueName { assert h1.runId == h1.queueName[25..] == h2.runId; }
  }

  lemma {:induction false} DeadLetterName(h1: Harness, h2: Harness)
    requires Created(h1) && Created(h2)
    ensures h1.queueName != h2.queueName + ".dead-letter"
    ensures h1.queueName + ".dead-letter" == h2.queueName + ".dead-letter" ==> h1.queueName == h2.queueName
  {
    HarnessParts(h1);
    HarnessParts(h2);
    var x, y := h1.queueName + ".dead-letter", h2.queueName + ".dead-letter";
    assert x[..61] == h1.queueName && y[..61] == h2.queueName;
  }

  /** No key is owned by two different runs. */
  lemma {:induction false} RunsAreDisjoint(h1: Harness, h2: Harness, key: string)
    requires Created(h1) && Created(h2) && IsOwnedKey(h1, key) && IsOwnedKey(h2, key)
    ensures h1 == h2
  {
    var i := OwnedKind(h1, key);
    var j := OwnedKind(h2, key);
    FieldsAgree(h1, h2, Split(key, ':'), i, j);
  }

  lemma {:induction false} GuardIsNotOwned(h: Harness, o: C5.Ownership)
    requires Created(h) && C5.Accepted(o)
    ensures !IsOwnedKey(h, C5.GuardKey(o))
  {
    var key := C5.GuardKey(o);
    C5.AcceptedParts(o);
    assert key == o.queuePrefix + ":" + (C5.QUEUE + "-foreign:ttl-sentinel");
    C5.QueueKeyFields(o, key, C5.QUEUE + "-foreign:ttl-sentinel");
    assert |"bull"| == 4 && |"matchday"| == 8;
    if IsOwnedKey(h, key) {
      var i := OwnedKind(h, key);
      assert false;
    }
  }

  /** No key of a phase 4 run is owned by a C5 run, nor is it the guard key of one. */
  lemma {:induction false} HarnessesAreDisjoint(h: Harness, o: C5.Ownership, key: string)
    requires Created(h) && C5.Accepted(o) && IsOwnedKey(h, key)
    ensures !C5.Owned(C5.Prefixes(o), key) && key != C5.GuardKey(o)
  {
    hide FieldsOf, C5.FieldsOf;
    var i := OwnedKind(h, key);
    C5.AcceptedParts(o);
    GuardIsNotOwned(h, o);
    forall j | 0 <= j < 4 ensures !(C5.Prefixes(o)[j] <= key) {
      KindsDiffer(h, o, Split(key, ':'), i, j);
      if C5.Prefixes(o)[j] <= key {
        C5.OwnedKeyFields(o, key, j);
        assert false;
      }
    }
  }

  lemma {:induction false} KindsDiffer(h: Harness, o: C5.Ownership, fields: seq<string>, i: nat, j: nat)
    requires i < 4 && j < 4 && |o.queuePrefix| >= 15 && FieldsOf(h, fields, i)
    ensures !C5.FieldsOf(o, fields, j)
  {
    assert |"bull"| == 4 && |"matchday"| == 8 && |"test"| == 4;
    assert |"job-cancellation"| == 16 && |"phase4-real-e2e"| == 15;
  }

  // ----- The checked scan -----

  datatype ScanError = ScanTooLong | ForeignKey | TooManyKeys

  ghost predicate AllOwned(h: Harness, keys: set<string>) { forall k :: k in keys ==> IsOwnedKey(h, k) }

  /** The result of adding keys to those found: refused if one is foreign or there are too many. */
  ghost predicate Takes(h: Harness, found: set<string>, more: set<string>, r: Result<set<string>, ScanError>) {
    && (r.Success? <==> AllOwned(h, more) && |found + more| <= MAXIMUM_KEYS)
    && (r.Success? ==> r.value == found + more)
  }

  lemma {:induction false} Larger(a: set<string>, b: set<string>)
    requires a <= b
    ensures |a| <= |b|
  {
    assert |b| == |b - a| + |a|;
  }

  lemma {:induction false} ListedSnoc(list: seq<string>, n: nat)
    requires n < |list|
    ensures Listed(list[..n + 1]) == Listed(list[..n]) + {list[n]} && Listed(list[..n + 1]) <= Listed(list)
  {
    assert list[..n + 1] == list[..n] + [list[n]];
  }

  method TakeBatch(h: Harness, found: set<string>, batch: seq<string>) returns (r: Result<set<string>, ScanError>)
    requires |found| <= MAXIMUM_KEYS
    ensures Takes(h, found, Listed(batch), r)
  {
    var keys := found;
    for i := 0 to |batch|
      invariant keys == found + Listed(batch[..i]) && AllOwned(h, Listed(batch[..i])) && |keys| <= MAXIMUM_KEYS
    {
      ListedSnoc(batch, i);
      Larger(found + Listed(batch[..i + 1]), found + Listed(batch));
      if !IsOwnedKey(h, batch[i]) {
        assert batch[i] in Listed(batch);
        return Failure(ForeignKey);
      }
      assert keys + {batch[i]} == found + Listed(batch[..i + 1]);
      keys := keys + {batch[i]};
      if |keys| > MAXIMUM_KEYS { return Failure(TooManyKeys); }
    }
    assert batch[..|batch|] == batch;
    return Success(keys);
  }

  /** One pattern's cursor loop; a reply is counted before its keys are looked at. */
  method ScanPattern(h: Harness, found: set<string>, scan: Scan) returns (r: Result<set<string>, ScanError>)
    requires |scan| >= 1 && |found| <= MAXIMUM_KEYS
    ensures r.Success? <==>
            && |scan| <= MAXIMUM_ITERATIONS && AllOwned(h, Returned(scan))
            && |found + Returned(scan)| <= MAXIMUM_KEYS
    ensures r.Success? ==> r.value == found + Returned(scan)
  {
    var keys := found;
    var iterations := 0;
    while iterations < |scan|
      invariant iterations <= |scan| && iterations <= MAXIMUM_ITERATIONS && |keys| <= MAXIMUM_KEYS
      invariant keys == found + Returned(scan[..iterations]) && AllOwned(h, Returned(scan[..iterations]))
    {
      var batch := scan[iterations];
      ReturnedSnoc(scan, iterations);
      ReturnedPrefix(scan, iterations + 1);
      Larger(found + Returned(scan[..iterations + 1]), found + Returned(scan));
      iterations := iterations + 1;
      if iterations > MAXIMUM_ITERATIONS { return Failure(ScanTooLong); }
      var step := TakeBatch(h, keys, batch);
      assert keys + Listed(batch) == found + Returned(scan[..iterations]);
      if step.Failure? { return step; }
      keys := step.value;
    }
    assert scan[..|scan|] == scan;
    return Success(keys);
  }

  lemma {:induction false} ReturnedPrefix(scan: Scan, n: nat)
    requires n <= |scan|
    ensures Returned(scan[..n]) <= Returned(scan)
  {
    forall k | k in Returned(scan[..n]) ensures k in Returned(scan) {
      var i, j :| 0 <= i < n && 0 <= j < |scan[..n][i]| && scan[..n][i][j] == k;
      assert scan[i][j] == k;
    }
  }

  ghost function AllReturned(scans: seq<Scan>): set<string> {
    set i, k | 0 <= i < |scans| && k in Returned(scans[i]) :: k
  }

  /** The scan of all patterns: every key once, unless a reply is foreign or a bound is exceeded. */
  method ScanOwnedKeys(h: Harness, scans: seq<Scan>) returns (r: Result<set<string>, ScanError>)
    requires forall i :: 0 <= i < |scans| ==> |scans[i]| >= 1
    ensures r.Success? <==> Bounded(scans) && AllOwned(h, AllReturned(scans)) && |AllReturned(scans)| <= MAXIMUM_KEYS
    ensures r.Success? ==> r.value == AllReturned(scans)
  {
    var keys: set<string> := {};
    for i := 0 to |scans|
      invariant |keys| <= MAXIMUM_KEYS && keys == AllReturned(scans[..i])
      invariant Bounded(scans[..i]) && AllOwned(h, AllReturned(scans[..i]))
    {
      AllReturnedSnoc(scans, i);
      Larger(AllReturned(scans[..i + 1]), AllReturned(scans));
      var step := ScanPattern(h, keys, scans[i]);
      if step.Failure? { return step; }
      keys := step.value;
    }
    assert scans[..|scans|] == scans;
    return Success(keys);
  }

  lemma {:induction false} AllReturnedSnoc(scans: seq<Scan>, n: nat)
    requires n < |scans|
    ensures AllReturned(scans[..n + 1]) == AllReturned(scans[..n]) + Returned(scans[n])
    ensures AllReturned(scans[..n + 1]) <= AllReturned(scans)
  {
    assert scans[..n + 1][n] == scans[n];
    forall k | k in AllReturned(scans[..n]) ensures k in AllReturned(scans[..n + 1]) {
      var i :| 0 <= i < n && k in Returned(scans[..n][i]);
      assert scans[..n + 1][i] == scans[i];
    }
  }

  // ----- Removal -----

  ghost function OwnedOf(keys: Keys, h: Harness): set<string> { set k | k in keys && IsOwnedKey(h, k) }

  /** With full scans what comes back is exactly what is owned, so no reply is ever foreign. */
  lemma {:induction false} ScannedAreOwned(keys: Keys, h: Harness, scans: seq<Scan>)
    requires Created(h) && FullScans(keys, Patterns(h), scans)
    ensures AllReturned(scans) == OwnedOf(keys, h)
  {
    forall k ensures k in AllReturned(scans) <==> k in OwnedOf(keys, h) {
      PatternsArePrefixes(h, k);
      if k in AllReturned(scans) {
        var i :| 0 <= i < |scans| && k in Returned(scans[i]);
        assert FullScan(keys, Patterns(h)[i], scans[i]);
        assert C5.MatchesSome(Patterns(h), k);
      }
      if k in OwnedOf(keys, h) {
        var i :| 0 <= i < 4 && C5.Glob(Patterns(h)[i], k);
        assert FullScan(keys, Patterns(h)[i], scans[i]);
        assert k in Returned(scans[i]);
      }
    }
  }

  datatype RemovalError = Scanning(error: ScanError) | Left(count: nat)

  /** Removes every owned key and nothing else. It fails only on a bound or on owned keys that others
      stored (`late`) before the second scan; even then no key of another owner is touched. */
  method UnlinkOwnedKeys(store: RedisStore, h: Harness, before: seq<Scan>, late: Keys, after: seq<Scan>)
      returns (r: Result<nat, RemovalError>)
    requires Created(h) && FullScans(store.keys, Patterns(h), before)
    requires FullScans(store.keys - OwnedOf(store.keys, h) + late, Patterns(h), after)
    modifies store
    ensures r.Success? <==> && Bounded(before) && Bounded(after) && OwnedOf(late, h) == {}
                            && |OwnedOf(old(store.keys), h)| <= MAXIMUM_KEYS
    ensures r.Success? ==> r.value == 0
    ensures store.keys == if Bounded(before) && |OwnedOf(old(store.keys), h)| <= MAXIMUM_KEYS
                          then old(store.keys) - OwnedOf(old(store.keys), h) + late else old(store.keys)
  {
    ghost var keys := store.keys;
    ScannedAreOwned(keys, h, before);
    var owned := ScanOwnedKeys(h, before);
    if owned.Failure? { return Failure(Scanning(owned.error)); }
    var list := ToSequence(owned.value);
    store.UnlinkBatches(list);
    store.keys := store.keys + late;
    ScannedAreOwned(store.keys, h, after);
    LateOwned(keys, late, h);
    var remaining := ScanOwnedKeys(h, after);
    if remaining.Failure? { return Failure(Scanning(remaining.error)); }
    if remaining.value != {} { return Failure(Left(|remaining.value|)); }
    return Success(|remaining.value|);
  }

  lemma {:induction false} LateOwned(keys: Keys, late: Keys, h: Harness)
    ensures OwnedOf(keys - OwnedOf(keys, h) + late, h) == OwnedOf(late, h)
  {
    assert forall k :: k in keys - OwnedOf(keys, h) ==> !IsOwnedKey(h, k);
  }
}
