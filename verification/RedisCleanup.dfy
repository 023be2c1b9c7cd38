/** Scanning and removing the keys of a run, against a key store that only SCAN, UNLINK, SET and GET
    touch while a cleanup runs. */
module RedisCleanup {
  import opened RedisNamespace

  const MAXIMUM_ITERATIONS := 10_000
  const BATCH_SIZE := 100

  datatype Result<+T, +E> = Success(value: T) | Failure(error: E)

  datatype RedisError = TooManyIterations | DirtyNamespace(count: nat) | KeysLeft(count: nat) | GuardRemoved

  datatype Receipt = Receipt(initialOwnedKeyCount: nat, finalOwnedKeyCount: nat, unrelatedGuardPreserved: bool)

  type Keys = map<string, string>

  /** The replies of one SCAN from cursor to cursor: the batches in the order they come. */
  type Scan = seq<seq<string>>

  ghost function MatchingKeys(keys: Keys, pattern: string): set<string> {
    set k | k in keys && Glob(pattern, k)
  }

  ghost function Returned(scan: Scan): set<string> {
    set i, j | 0 <= i < |scan| && 0 <= j < |scan[i]| :: scan[i][j]
  }

  /** What Redis promises of a full iteration with no writer beside it: every matching key is returned
      at least once, possibly repeated, in batches of any size. */
  ghost predicate FullScan(keys: Keys, pattern: string, scan: Scan) {
    |scan| >= 1 && Returned(scan) == MatchingKeys(keys, pattern)
  }

  ghost predicate FullScans(keys: Keys, patterns: seq<string>, scans: seq<Scan>) {
    |scans| == |patterns| && forall i :: 0 <= i < |patterns| ==> FullScan(keys, patterns[i], scans[i])
  }

  ghost predicate Bounded(scans: seq<Scan>) {
    forall i :: 0 <= i < |scans| ==> |scans[i]| <= MAXIMUM_ITERATIONS
  }

  ghost function OwnedKeys(keys: Keys, o: Ownership): set<string> {
    set k | k in keys && Owned(Prefixes(o), k)
  }

  // ----- Scanning -----

  /** One pattern's cursor loop. */
  method ScanPattern(scan: Scan) returns (r: Result<set<string>, RedisError>)
    requires |scan| >= 1
    ensures r == if |scan| > MAXIMUM_ITERATIONS then Failure(TooManyIterations) else Success(Returned(scan))
  {
    var keys: set<string> := {};
    var iterations := 0;
    var done := false;
    while !done
      invariant done ==> iterations == |scan|
      invariant iterations <= |scan| && iterations <= MAXIMUM_ITERATIONS && (!done ==> iterations < |scan|)
      invariant keys == Returned(scan[..iterations])
      decreases |scan| - iterations, !done
    {
      iterations := iterations + 1;
      if iterations > MAXIMUM_ITERATIONS { return Failure(TooManyIterations); }
      var batch := scan[iterations - 1];
      ReturnedSnoc(scan, iterations - 1);
      keys := keys + (set k | k in batch);
      done := iterations == |scan|;
    }
    assert scan[..|scan|] == scan;
    return Success(keys);
  }

  lemma {:induction false} ReturnedSnoc(scan: Scan, n: nat)
    requires n < |scan|
    ensures Returned(scan[..n + 1]) == Returned(scan[..n]) + (set k | k in scan[n])
  {
    var longer := scan[..n + 1];
    forall k | k in scan[n] ensures k in Returned(longer) {
      var j :| 0 <= j < |scan[n]| && scan[n][j] == k;
      assert longer[n][j] == k;
    }
    forall k | k in Returned(scan[..n]) ensures k in Returned(longer) {
      var i, j :| 0 <= i < n && 0 <= j < |scan[..n][i]| && scan[..n][i][j] == k;
      assert longer[i][j] == k;
    }
    forall k | k in Returned(longer) ensures k in Returned(scan[..n]) || k in scan[n] {
      var i, j :| 0 <= i < n + 1 && 0 <= j < |longer[i]| && longer[i][j] == k;
      if i < n { assert scan[..n][i][j] == k; }
    }
  }

  /** The keys of all patterns, each once. */
  method CollectKeys(patterns: seq<string>, scans: seq<Scan>) returns (r: Result<set<string>, RedisError>)
    requires |scans| == |patterns| && forall i :: 0 <= i < |scans| ==> |scans[i]| >= 1
    ensures r == if Bounded(scans) then Success(set i, k | 0 <= i < |scans| && k in Returned(scans[i]) :: k)
                 else Failure(TooManyIterations)
  {
    var keys: set<string> := {};
    for i := 0 to |scans|
      invariant Bounded(scans[..i])
      invariant keys == set j, k | 0 <= j < i && k in Returned(scans[j]) :: k
    {
      var page := ScanPattern(scans[i]);
      if page.Failure? { return page; }
      keys := keys + page.value;
    }
    assert scans[..|scans|] == scans;
    return Success(keys);
  }

  /** With full scans of an ownership's patterns the collected keys are exactly the owned keys. */
  lemma {:induction false} CollectedAreOwned(keys: Keys, o: Ownership, scans: seq<Scan>)
    requires Accepted(o) && FullScans(keys, Patterns(o), scans)
    ensures (set i, k | 0 <= i < |scans| && k in Returned(scans[i]) :: k) == OwnedKeys(keys, o)
  {
    var collected := set i, k | 0 <= i < |scans| && k in Returned(scans[i]) :: k;
    forall k ensures k in collected <==> k in OwnedKeys(keys, o) {
      PatternsArePrefixes(o, k);
      if k in collected {
        var i :| 0 <= i < |scans| && k in Returned(scans[i]);
        assert FullScan(keys, Patterns(o)[i], scans[i]);
        assert MatchesSome(Patterns(o), k);
      }
      if k in OwnedKeys(keys, o) {
        var i :| 0 <= i < 4 && Glob(Patterns(o)[i], k);
        assert FullScan(keys, Patterns(o)[i], scans[i]);
        assert k in Returned(scans[i]);
      }
    }
  }

  // ----- The store -----

  function Listed(list: seq<string>): set<string> { set k | k in list }

  function AtMost(n: nat, limit: nat): nat { if n < limit then n else limit }

  class RedisStore {
    var keys: Keys

    constructor (keys: Keys)
      ensures this.keys == keys
    {
      this.keys := keys;
    }

    method Unlink(batch: seq<string>)
      modifies this
      ensures keys == old(keys) - Listed(batch)
    {
      keys := keys - Listed(batch);
    }

    /** Removes the listed keys, a batch at a time. */
    method UnlinkBatches(list: seq<string>)
      modifies this
      ensures keys == old(keys) - Listed(list)
    {
      var index := 0;
      while index < |list|
        invariant 0 <= index
        invariant keys == old(keys) - Listed(list[..AtMost(index, |list|)])
      {
        var end := AtMost(index + BATCH_SIZE, |list|);
        assert list[..end] == list[..index] + list[index..end];
        Unlink(list[index..end]);
        index := index + BATCH_SIZE;
      }
      assert list[..|list|] == list;
    }

    method OwnedKeysOf(o: Ownership, scans: seq<Scan>) returns (r: Result<set<string>, RedisError>)
      requires Accepted(o) && FullScans(keys, Patterns(o), scans)
      ensures r == if Bounded(scans) then Success(OwnedKeys(keys, o)) else Failure(TooManyIterations)
    {
      r := CollectKeys(Patterns(o), scans);
      CollectedAreOwned(keys, o, scans);
    }

    /** Refuses a namespace that is not empty; otherwise sets the guard and changes nothing else. */
    method Prepare(o: Ownership, scans: seq<Scan>) returns (r: Result<(), RedisError>)
      requires Accepted(o) && FullScans(keys, Patterns(o), scans)
      modifies this
      ensures r.Success? <==> Bounded(scans) && OwnedKeys(old(keys), o) == {}
      ensures keys == if r.Success? then old(keys)[GuardKey(o) := "preserve"] else old(keys)
    {
      var dirty := OwnedKeysOf(o, scans);
      if dirty.Failure? { return Failure(dirty.error); }
      if dirty.value != {} { return Failure(DirtyNamespace(|dirty.value|)); }
      keys := keys[GuardKey(o) := "preserve"];
      return Success(());
    }

    /** Removes the owned keys, checks that none is left and that the guard is still there, and only
        then removes the guard. `before` and `after` are the scans around the removal, and `late` is
        what other writers stored between the removal and the second scan. */
    method Cleanup(o: Ownership, before: seq<Scan>, late: Keys, after: seq<Scan>)
          returns (r: Result<Receipt, RedisError>)
      requires Accepted(o) && FullScans(keys, Patterns(o), before)
      requires FullScans(keys - OwnedKeys(keys, o) + late, Patterns(o), after)
      modifies this
      ensures r.Success? <==> && Bounded(before) && Bounded(after) && OwnedKeys(late, o) == {}
                              && Holds(old(keys) - OwnedKeys(old(keys), o) + late, GuardKey(o))
      ensures r.Success? ==> r.value == Receipt(|OwnedKeys(old(keys), o)|, 0, true)
      ensures Bounded(before) && Bounded(after) && OwnedKeys(late, o) != {} ==>
                r == Failure(KeysLeft(|OwnedKeys(late, o)|))
      ensures keys == if !Bounded(before) then old(keys)
                      else if r.Success? then old(keys) - OwnedKeys(old(keys), o) + late - {GuardKey(o)}
                      else old(keys) - OwnedKeys(old(keys), o) + late
    {
      var owned := OwnedKeysOf(o, before);
      if owned.Failure? { return Failure(owned.error); }
      var list := ToSequence(owned.value);
      UnlinkBatches(list);
      keys := keys + late;
      LateKeys(old(keys), late, o);
      var remaining := OwnedKeysOf(o, after);
      if remaining.Failure? { return Failure(remaining.error); }
      if remaining.value != {} { return Failure(KeysLeft(|remaining.value|)); }
      if GuardKey(o) !in keys || keys[GuardKey(o)] != "preserve" { return Failure(GuardRemoved); }
      Unlink([GuardKey(o)]);
      return Success(Receipt(|owned.value|, |remaining.value|, true));
    }
  }

  ghost predicate Holds(keys: Keys, guard: string) { guard in keys && keys[guard] == "preserve" }

  /** After the removal only what came late is owned. */
  lemma {:induction false} LateKeys(keys: Keys, late: Keys, o: Ownership)
    ensures OwnedKeys(keys - OwnedKeys(keys, o) + late, o) == OwnedKeys(late, o)
  {
    assert forall k :: k in keys - OwnedKeys(keys, o) ==> !Owned(Prefixes(o), k);
  }

  /** With no other writer a bounded cleanup of a prepared namespace always succeeds. */
  lemma {:induction false} PreparedCleanupSucceeds(keys: Keys, o: Ownership)
    requires Accepted(o) && Holds(keys, GuardKey(o))
    ensures OwnedKeys(map[], o) == {} && Holds(keys - OwnedKeys(keys, o) + map[], GuardKey(o))
  {
    GuardIsNotOwned(o);
  }

  /** The members of a set as a list without repetition. */
  method ToSequence(s: set<string>) returns (list: seq<string>)
    ensures Listed(list) == s && |list| == |s|
  {
    list := [];
    var rest := s;
    while rest != {}
      invariant rest <= s && Listed(list) == s - rest && |list| + |rest| == |s|
      decreases rest
    {
      var x :| x in rest;
      assert Listed(list + [x]) == Listed(list) + {x};
      list := list + [x];
      rest := rest - {x};
    }
  }

  // ----- A whole run -----

  function Prepared(keys: Keys, o: Ownership): Keys { keys[GuardKey(o) := "preserve"] }

  ghost function Cleaned(keys: Keys, o: Ownership): Keys { keys - OwnedKeys(keys, o) - {GuardKey(o)} }

  /** A run touches no key it does not own. */
  ghost predicate TouchesOwnedOnly(before: Keys, after: Keys, o: Ownership) {
    forall k :: !Owned(Prefixes(o), k) ==> (k in before <==> k in after) && (k in before ==> before[k] == after[k])
  }

  /** Preparing, running and cleaning up restores the store, whatever the run left behind, except that a
      key under the guard's name is gone; so it restores it exactly when there was none. */
  lemma {:induction false} RunRestores(keys: Keys, work: Keys, o: Ownership)
    requires Accepted(o) && OwnedKeys(keys, o) == {} && TouchesOwnedOnly(Prepared(keys, o), work, o)
    ensures Cleaned(work, o) == keys - {GuardKey(o)}
    ensures Cleaned(work, o) == keys <==> GuardKey(o) !in keys
  {
    hide Owned;
    GuardIsNotOwned(o);
    var cleaned, rest := Cleaned(work, o), keys - {GuardKey(o)};
    forall k ensures k in cleaned <==> k in rest {
      if k in keys { assert k !in OwnedKeys(keys, o); assert !Owned(Prefixes(o), k); }
    }
    forall k | k in rest ensures cleaned[k] == rest[k] {
      assert k !in OwnedKeys(keys, o);
      assert !Owned(Prefixes(o), k);
    }
    if GuardKey(o) !in keys { assert rest == keys; }
  }

  /** The cleanup of one run leaves every key that another run owns in place. */
  lemma {:induction false} CleanupSparesOthers(keys: Keys, run: string, other: string, key: string)
    requires Accepted(RunOwnership(run)) && Accepted(RunOwnership(other)) && run != other
    requires key in keys && Owned(Prefixes(RunOwnership(other)), key)
    ensures key in Cleaned(keys, RunOwnership(run)) && Cleaned(keys, RunOwnership(run))[key] == keys[key]
  {
    RunsAreDisjoint(run, other, key);
    GuardOfOtherRun(run, other, key);
  }

  lemma {:induction false} GuardOfOtherRun(run: string, other: string, key: string)
    requires Accepted(RunOwnership(run)) && Accepted(RunOwnership(other)) && run != other
    requires Owned(Prefixes(RunOwnership(other)), key)
    ensures key != GuardKey(RunOwnership(run))
  {
    if key == GuardKey(RunOwnership(run)) {
      GuardNeverOwned(RunOwnership(run), RunOwnership(other));
      assert false;
    }
  }
}
