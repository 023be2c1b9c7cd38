/** How the writers of the staging workload get their matches: the handed-over list is checked against
    the seed, and each of its entries is exchanged for a writer session. */
module ScoringHandover {
  import opened Lists
  import opened Options
  import opened ScoringWorkload

  /** An access pass; `usable` says that it is not revoked and its competition not archived. */
  datatype Pass = Pass(matchId: string, viewer: bool, usable: bool, expires: int)

  /** The last writer of a match; it binds unless its session or its pass has been revoked. */
  datatype Lease = Lease(device: nat, expires: int, binds: bool)

  /** The server's tables: passes by token, leases by match, and until when an offline writer has
      reserved a match. */
  datatype Access = Access(passes: map<string, Pass>, leases: map<string, Lease>, reserved: map<string, int>)

  datatype Mode = AsViewer | AsCandidate | AsWriter

  const LEASE_MS := 45_000

  // ----- The exchange -----

  /** The match has a writer whom this device may not replace. */
  predicate WriterReserved(access: Access, matchId: string, device: nat, now: int) {
    || (matchId in access.leases
        && var lease := access.leases[matchId];
           lease.expires > now || (lease.binds && lease.device != device))
    || (matchId in access.reserved && access.reserved[matchId] > now)
  }

  /** The exchange of a token for a session on a match: refused, or the mode of the session. */
  function ModeFor(access: Access, token: string, matchId: string, device: nat, now: int): Option<Mode> {
    if token !in access.passes then None
    else
      var pass := access.passes[token];
      if !pass.usable || pass.expires <= now || pass.matchId != matchId then None
      else if pass.viewer then Some(AsViewer)
      else if WriterReserved(access, matchId, device, now) then Some(AsCandidate)
      else Some(AsWriter)
  }

  /** A writer session takes the lease of its match; the other modes leave the leases alone. */
  function Exchanged(access: Access, token: string, matchId: string, device: nat, now: int): Access {
    if ModeFor(access, token, matchId, device, now) != Some(AsWriter) then access
    else
      var pass := access.passes[token];
      var expires := if pass.expires < now + LEASE_MS then pass.expires else now + LEASE_MS;
      access.(leases := access.leases[matchId := Lease(device, expires, true)])
  }

  class AccessServer {
    var access: Access

    constructor (access: Access)
      ensures this.access == access
    {
      this.access := access;
    }

    method Exchange(token: string, matchId: string, device: nat, now: int) returns (mode: Option<Mode>)
      modifies this
      ensures mode == ModeFor(old(access), token, matchId, device, now)
      ensures mode.Some? <==>
              && token in old(access).passes && old(access).passes[token].usable
              && now < old(access).passes[token].expires && old(access).passes[token].matchId == matchId
      ensures mode == Some(AsViewer) <==> mode.Some? && old(access).passes[token].viewer
      ensures mode == Some(AsCandidate) <==>
              && mode.Some? && !old(access).passes[token].viewer
              && ((matchId in old(access).reserved && now < old(access).reserved[matchId])
                  || (matchId in old(access).leases
                      && (now < old(access).leases[matchId].expires
                          || (old(access).leases[matchId].binds && old(access).leases[matchId].device != device))))
      ensures mode == Some(AsWriter) ==>
                && matchId in access.leases && access.leases[matchId].device == device && access.leases[matchId].binds
                && now < access.leases[matchId].expires <= now + 45_000
                && access.leases[matchId].expires <= old(access).passes[token].expires
                && (access.leases[matchId].expires == now + 45_000
                    || access.leases[matchId].expires == old(access).passes[token].expires)
                && access.leases - {matchId} == old(access).leases - {matchId}
                && access.passes == old(access).passes && access.reserved == old(access).reserved
      ensures mode != Some(AsWriter) ==> access == old(access)
      ensures access == Exchanged(old(access), token, matchId, device, now)
    {
      if token !in access.passes { return None; }
      var pass := access.passes[token];
      if !pass.usable || pass.expires <= now || pass.matchId != matchId { return None; }
      if pass.viewer { return Some(AsViewer); }
      if WriterReserved(access, matchId, device, now) { return Some(AsCandidate); }
      var expires := if pass.expires < now + LEASE_MS then pass.expires else now + LEASE_MS;
      access := access.(leases := access.leases[matchId := Lease(device, expires, true)]);
      return Some(AsWriter);
    }
  }

  // ----- The loop over the handed-over entries -----

  /** An entry of the handover, with the device made up for its exchange and the time of that exchange. */
  datatype Entry = Entry(matchId: string, token: string, device: nat, now: int)

  function MatchesOf(entries: seq<Entry>): (r: seq<string>)
    ensures |r| == |entries|
  {
    seq(|entries|, i requires 0 <= i < |entries| => entries[i].matchId)
  }

  function DevicesOf(entries: seq<Entry>): (r: seq<nat>)
    ensures |r| == |entries|
  {
    seq(|entries|, i requires 0 <= i < |entries| => entries[i].device)
  }

  /** Every exchange is made under a new random device id. */
  ghost predicate OwnDevices(entries: seq<Entry>) {
    forall i, j :: 0 <= i < j < |entries| ==> entries[i].device != entries[j].device
  }

  /** The entry names a match and gets a writer session for it. */
  predicate GetsWriter(access: Access, e: Entry) {
    e.matchId != "" && e.token != "" && ModeFor(access, e.token, e.matchId, e.device, e.now) == Some(AsWriter)
  }

  /** The tables after the first `n` exchanges, if each of them made a writer. */
  function AfterExchanges(access: Access, entries: seq<Entry>, n: nat): Access
    requires n <= |entries|
  {
    if n == 0 then access
    else
      var e := entries[n - 1];
      Exchanged(AfterExchanges(access, entries, n - 1), e.token, e.matchId, e.device, e.now)
  }

  /** Entry `k` gets its writer session when its turn comes. */
  predicate TurnSucceeds(access: Access, entries: seq<Entry>, k: nat)
    requires k < |entries|
  {
    GetsWriter(AfterExchanges(access, entries, k), entries[k])
  }

  /** The first `n` turns succeed. */
  ghost predicate TurnsSucceed(access: Access, entries: seq<Entry>, n: nat)
    requires n <= |entries|
  {
    forall k :: 0 <= k < n ==> TurnSucceeds(access, entries, k)
  }

  ghost predicate AllExchanged(access: Access, entries: seq<Entry>) { TurnsSucceed(access, entries, |entries|) }

  /** Every entry would get its writer session if it came first. */
  ghost predicate EachGetsWriter(access: Access, entries: seq<Entry>) {
    forall k :: 0 <= k < |entries| ==> GetsWriter(access, entries[k])
  }

  /** Between two states of the server: a match among `matches` has come to be held by one of `devices`;
      of another match the lease is as before. */
  ghost predicate HeldSince(access: Access, later: Access, matches: seq<string>, devices: seq<nat>, m: string) {
    && later.passes == access.passes && later.reserved == access.reserved
    && if m in matches then
         m in later.leases && later.leases[m].binds && later.leases[m].device in devices
       else
         && (m in later.leases <==> m in access.leases)
         && (m in later.leases ==> later.leases[m] == access.leases[m])
  }

  lemma {:induction false} HeldAfterExchanges(access: Access, entries: seq<Entry>, n: nat, m: string)
    requires n <= |entries| && TurnsSucceed(access, entries, n)
    ensures HeldSince(access, AfterExchanges(access, entries, n), MatchesOf(entries)[..n], DevicesOf(entries)[..n], m)
  {
    if n > 0 {
      HeldAfterExchanges(access, entries, n - 1, m);
      assert TurnSucceeds(access, entries, n - 1);
      OneMoreHeld(access, AfterExchanges(access, entries, n - 1), MatchesOf(entries)[..n - 1],
                  DevicesOf(entries)[..n - 1], entries[n - 1], m);
      assert MatchesOf(entries)[..n] == MatchesOf(entries)[..n - 1] + [entries[n - 1].matchId];
      assert DevicesOf(entries)[..n] == DevicesOf(entries)[..n - 1] + [entries[n - 1].device];
    }
  }

  lemma {:induction false} OneMoreHeld(access: Access, later: Access, matches: seq<string>, devices: seq<nat>,
        e: Entry, m: string)
    requires HeldSince(access, later, matches, devices, m) && GetsWriter(later, e)
    ensures HeldSince(access, Exchanged(later, e.token, e.matchId, e.device, e.now), matches + [e.matchId],
                      devices + [e.device], m)
  {
    hide WriterReserved;
  }

  /** A match that another device has come to hold is refused; one not yet handed over is given exactly
      when it would have been given at the start. */
  lemma {:induction false} ExchangeExact(access: Access, later: Access, matches: seq<string>, devices: seq<nat>,
        e: Entry)
    requires HeldSince(access, later, matches, devices, e.matchId) && e.device !in devices
    ensures GetsWriter(later, e) <==> GetsWriter(access, e) && e.matchId !in matches
  {
  }

  lemma {:induction false} TurnExact(access: Access, entries: seq<Entry>, n: nat)
    requires n < |entries| && OwnDevices(entries) && TurnsSucceed(access, entries, n)
    ensures TurnSucceeds(access, entries, n) <==>
            GetsWriter(access, entries[n]) && entries[n].matchId !in MatchesOf(entries)[..n]
  {
    hide GetsWriter, TurnsSucceed;
    HeldAfterExchanges(access, entries, n, entries[n].matchId);
    ExchangeExact(access, AfterExchanges(access, entries, n), MatchesOf(entries)[..n], DevicesOf(entries)[..n],
                  entries[n]);
  }

  /** The loop succeeds exactly when every entry would get its session if it came first and no match is
      handed over twice. */
  lemma {:induction false} ExchangesExact(access: Access, entries: seq<Entry>)
    requires OwnDevices(entries)
    ensures AllExchanged(access, entries) <==> EachGetsWriter(access, entries) && NoRepeats(MatchesOf(entries))
  {
    hide GetsWriter, TurnSucceeds, OwnDevices;
    var matches := MatchesOf(entries);
    if AllExchanged(access, entries) {
      forall n | 0 <= n < |entries| ensures GetsWriter(access, entries[n]) && matches[n] !in matches[..n] {
        assert TurnSucceeds(access, entries, n);
        TurnExact(access, entries, n);
      }
      NoneBefore(matches);
    } else {
      var n := FirstRefused(access, entries, 0);
      TurnExact(access, entries, n);
      if matches[n] in matches[..n] {
        var k :| 0 <= k < n && matches[..n][k] == matches[n];
        assert matches[k] == matches[n];
      }
    }
  }

  lemma {:induction false} NoneBefore(matches: seq<string>)
    requires forall n :: 0 <= n < |matches| ==> matches[n] !in matches[..n]
    ensures NoRepeats(matches)
  {
    forall i, j | 0 <= i < j < |matches| ensures matches[i] != matches[j] {
      assert matches[..j][i] == matches[i];
    }
  }

  lemma {:induction false} FirstRefused(access: Access, entries: seq<Entry>, from: nat) returns (n: nat)
    requires from <= |entries| && TurnsSucceed(access, entries, from) && !AllExchanged(access, entries)
    ensures n < |entries| && TurnsSucceed(access, entries, n) && !TurnSucceeds(access, entries, n)
    decreases |entries| - from
  {
    hide TurnSucceeds;
    n := from;
    if TurnSucceeds(access, entries, from) { n := FirstRefused(access, entries, from + 1); }
  }

  // ----- The handover -----

  /** The check of the handed-over matches against the seed, which is not empty. */
  predicate HandoffAccepted(matches: seq<string>, seed: seq<string>) {
    seed != [] && |matches| == |seed| && forall m :: m in matches ==> m in seed
  }

  /** The check, then the loop of exchanges: the matches to score in order, or an error. */
  method HandOver(server: AccessServer, entries: seq<Entry>, seed: seq<string>) returns (sessions: Option<seq<string>>)
    modifies server
    ensures sessions.Some? <==>
            HandoffAccepted(MatchesOf(entries), seed) && AllExchanged(old(server.access), entries)
    ensures sessions.Some? ==>
              && sessions.value == MatchesOf(entries)
              && server.access == AfterExchanges(old(server.access), entries, |entries|)
  {
    if !HandoffAccepted(MatchesOf(entries), seed) { return None; }
    var matches: seq<string> := [];
    for n := 0 to |entries|
      invariant matches == MatchesOf(entries)[..n]
      invariant server.access == AfterExchanges(old(server.access), entries, n)
      invariant TurnsSucceed(old(server.access), entries, n)
    {
      var e := entries[n];
      assert TurnSucceeds(old(server.access), entries, n) <==> GetsWriter(server.access, e);
      if e.matchId == "" || e.token == "" { return None; }
      var mode := server.Exchange(e.token, e.matchId, e.device, e.now);
      if mode != Some(AsWriter) { return None; }
      matches := matches + [e.matchId];
    }
    return Some(matches);
  }

  /** The handover passes its check and every exchange. */
  ghost predicate HandedOver(access: Access, entries: seq<Entry>, seed: seq<string>) {
    HandoffAccepted(MatchesOf(entries), seed) && AllExchanged(access, entries)
  }

  /** Whatever the seed and the state of the server: a handover that goes through gives the writers
      different matches, so no interleaving of their workload has a rejected call. */
  lemma {:induction false} HandoverIsSafe(access: Access, entries: seq<Entry>, seed: seq<string>)
    requires OwnDevices(entries) && HandedOver(access, entries, seed)
    ensures NoRepeats(MatchesOf(entries)) && SafeForAll(MatchesOf(entries))
  {
    ExchangesExact(access, entries);
    SafeExactlyWhenNoRepeats(MatchesOf(entries));
  }

  /** For a seed without repeats the handover goes through exactly when it hands over the seed's matches,
      each once and in any order, and each of them is free for its entry. */
  lemma {:induction false} HandoverExact(access: Access, entries: seq<Entry>, seed: seq<string>)
    requires OwnDevices(entries) && NoRepeats(seed) && seed != []
    ensures HandedOver(access, entries, seed) <==>
            Permutation(MatchesOf(entries), seed) && EachGetsWriter(access, entries)
  {
    var matches := MatchesOf(entries);
    ExchangesExact(access, entries);
    if HandoffAccepted(matches, seed) && NoRepeats(matches) { DistinctAndRequired(matches, seed); }
    if Permutation(matches, seed) { OnceEach(matches, seed); }
  }

  /** One match handed over twice passes the check, which only counts the entries and looks each up, and
      is refused at an exchange. */
  lemma {:induction false} DuplicateHandoff(access: Access, entries: seq<Entry>)
    requires OwnDevices(entries) && MatchesOf(entries) == ["A", "A"]
    ensures HandoffAccepted(MatchesOf(entries), ["A", "B"]) && !AllExchanged(access, entries)
  {
    ExchangesExact(access, entries);
    assert MatchesOf(entries)[0] == MatchesOf(entries)[1];
    assert "A" in ["A", "B"];
  }
}
