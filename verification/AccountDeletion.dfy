/** Account deletion by anonymisation, and what it does to the ownership of organisations. */
module AccountDeletion {
  datatype Role = Owner | Organiser | Member
  datatype MembershipStatus = Active | Invited | Suspended

  datatype Membership = Membership(account: nat, organisation: nat, role: Role, status: MembershipStatus)
  datatype Competition = Competition(organisation: nat, status: string)
  datatype SessionRow = SessionRow(account: nat, revoked: bool, provider: bool)

  /** The tables a deletion reads or writes; `deleted` are the accounts with a deletion time. */
  datatype Database = Database(
    accounts: set<nat>,
    deleted: set<nat>,
    memberships: map<nat, Membership>,
    competitions: map<nat, Competition>,
    sessions: map<nat, SessionRow>,
    providerLinks: map<nat, nat>)

  datatype Outcome =
    | InvalidConfirmation
    | NotFound
    | LifecycleConflict
    | Deleted(suspended: nat, retained: nat)

  const CONFIRMATION := "DELETE MY ACCOUNT"

  predicate IsLive(status: string) { status in {"published", "active", "live"} }

  // ----- Ownership -----

  predicate IsActiveOwner(m: Membership) { m.role == Owner && m.status == Active }

  /** Another account actively owns the organisation of `m`. */
  ghost predicate OwnedByAnother(memberships: map<nat, Membership>, m: Membership) {
    exists x :: x in memberships && memberships[x].organisation == m.organisation
                && IsActiveOwner(memberships[x]) && memberships[x].account != m.account
  }

  ghost predicate SoleActiveOwner(memberships: map<nat, Membership>, m: Membership) {
    IsActiveOwner(m) && !OwnedByAnother(memberships, m)
  }

  ghost predicate HasLiveCompetition(db: Database, organisation: nat) {
    exists c :: && c in db.competitions && db.competitions[c].organisation == organisation
                && IsLive(db.competitions[c].status)
  }

  ghost predicate HasActiveOwner(db: Database, organisation: nat) {
    exists x :: && x in db.memberships && db.memberships[x].organisation == organisation
                && IsActiveOwner(db.memberships[x])
  }

  /** The account is the only active owner of an organisation with a live competition. */
  ghost predicate Blocked(db: Database, account: nat) {
    exists x :: && x in db.memberships && db.memberships[x].account == account
                && SoleActiveOwner(db.memberships, db.memberships[x])
                && HasLiveCompetition(db, db.memberships[x].organisation)
  }

  // ----- The deletion -----

  /** The membership update: every membership of the account that is not suspended is suspended,
      except where the account is the sole active owner. */
  ghost function SuspendMembership(memberships: map<nat, Membership>, account: nat, x: nat): Membership
    requires x in memberships
  {
    var m := memberships[x];
    if m.account == account && !SoleActiveOwner(memberships, m) then m.(status := Suspended) else m
  }

  ghost function Suspend(memberships: map<nat, Membership>, account: nat): map<nat, Membership> {
    map x | x in memberships :: SuspendMembership(memberships, account, x)
  }

  function RevokeSessions(sessions: map<nat, SessionRow>, account: nat): map<nat, SessionRow> {
    map s | s in sessions :: if sessions[s].account == account then SessionRow(account, true, false) else sessions[s]
  }

  ghost function DeletedDatabase(db: Database, account: nat): Database {
    Database(db.accounts, db.deleted + {account}, Suspend(db.memberships, account), db.competitions,
             RevokeSessions(db.sessions, account),
             map l | l in db.providerLinks && db.providerLinks[l] != account :: db.providerLinks[l])
  }

  ghost function Changed(memberships: map<nat, Membership>, account: nat): set<nat> {
    set x | x in memberships && SuspendMembership(memberships, account, x) != memberships[x]
  }

  ghost function ActiveOf(memberships: map<nat, Membership>, account: nat): set<nat> {
    set x | x in memberships && memberships[x].account == account && memberships[x].status == Active
  }

  /** `deleteAccount`; `trimmed` is the confirmation without surrounding white space. */
  ghost function Delete(db: Database, account: nat, trimmed: string): (Database, Outcome) {
    if trimmed != CONFIRMATION then (db, InvalidConfirmation)
    else if account !in db.accounts || account in db.deleted then (db, NotFound)
    else if Blocked(db, account) then (db, LifecycleConflict)
    else
      (DeletedDatabase(db, account),
       Deleted(|Changed(db.memberships, account)|, |ActiveOf(Suspend(db.memberships, account), account)|))
  }

  // ----- One deletion -----

  /** A refused deletion changes nothing. */
  lemma {:induction false} RefusedChangesNothing(db: Database, account: nat, trimmed: string)
    ensures var (after, outcome) := Delete(db, account, trimmed); !outcome.Deleted? ==> after == db
  {
  }

  /** What a successful deletion leaves of the account: it is active exactly where it was the sole
      active owner, those organisations have no live competition, and every other membership of it is
      suspended; the memberships of other accounts are untouched. */
  lemma {:induction false} DeletionMeaning(db: Database, account: nat, trimmed: string, x: nat)
    requires Delete(db, account, trimmed).1.Deleted? && x in db.memberships
    ensures var (after, _) := Delete(db, account, trimmed);
            var m := db.memberships[x];
            && after.memberships.Keys == db.memberships.Keys
            && (m.account != account ==> after.memberships[x] == m)
            && (m.account == account ==>
                && after.memberships[x]
                    == m.(status := if SoleActiveOwner(db.memberships, m) then Active else Suspended)
                && (after.memberships[x].status == Active ==> !HasLiveCompetition(db, m.organisation)))
  {
    var m := db.memberships[x];
    assert m.account == account && SoleActiveOwner(db.memberships, m) && HasLiveCompetition(db, m.organisation) ==>
             Blocked(db, account);
  }

  /** When a deletion goes through: the confirmation is the phrase, the account is there and not deleted,
      and every organisation that it actively owns has another active owner or no live competition. */
  lemma {:induction false} DeletedExactly(db: Database, account: nat, trimmed: string)
    ensures Delete(db, account, trimmed).1.Deleted? <==>
            && trimmed == "DELETE MY ACCOUNT" && account in db.accounts && account !in db.deleted
            && forall x :: && x in db.memberships && db.memberships[x].account == account
                           && db.memberships[x].role == Owner && db.memberships[x].status == Active ==>
                 || (exists y :: && y in db.memberships && db.memberships[y].account != account
                                 && db.memberships[y].organisation == db.memberships[x].organisation
                                 && db.memberships[y].role == Owner && db.memberships[y].status == Active)
                 || !exists c :: && c in db.competitions
                                 && db.competitions[c].organisation == db.memberships[x].organisation
                                 && db.competitions[c].status in {"published", "active", "live"}
  {
  }

  /** The other tables after a successful deletion: the account's sessions are revoked and have lost their
      provider data, exactly its provider links are gone, and every other row is as it was. */
  lemma {:induction false} DeletionKeepsOthers(db: Database, account: nat, trimmed: string)
    requires Delete(db, account, trimmed).1.Deleted?
    ensures var (after, _) := Delete(db, account, trimmed);
            && after.accounts == db.accounts && after.competitions == db.competitions
            && (forall a :: a in after.deleted <==> a in db.deleted || a == account)
            && after.sessions.Keys == db.sessions.Keys
            && (forall s :: s in db.sessions && db.sessions[s].account != account ==>
                  after.sessions[s] == db.sessions[s])
            && (forall s :: s in db.sessions && db.sessions[s].account == account ==>
                  && after.sessions[s].account == account
                  && after.sessions[s].revoked && !after.sessions[s].provider)
            && (forall l :: l in after.providerLinks <==> l in db.providerLinks && db.providerLinks[l] != account)
            && (forall l :: l in after.providerLinks ==> after.providerLinks[l] == db.providerLinks[l])
  {
  }

  /** The counts that a deletion reports: the memberships it changed, and those of the account that are
      still active. */
  lemma {:induction false} DeletionCounts(db: Database, account: nat, trimmed: string)
    requires Delete(db, account, trimmed).1.Deleted?
    ensures var (after, outcome) := Delete(db, account, trimmed);
            && after.memberships.Keys == db.memberships.Keys
            && outcome.suspended == |set x | x in db.memberships && after.memberships[x] != db.memberships[x]|
            && outcome.retained == |set x | x in after.memberships && after.memberships[x].account == account
                                            && after.memberships[x].status == Active|
  {
    var (after, _) := Delete(db, account, trimmed);
    assert (set x | x in db.memberships && after.memberships[x] != db.memberships[x])
        == Changed(db.memberships, account);
    assert (set x | x in after.memberships && after.memberships[x].account == account
                    && after.memberships[x].status == Active) == ActiveOf(after.memberships, account);
  }

  lemma {:induction false} OwnerSurvives(db: Database, account: nat, organisation: nat)
    requires HasActiveOwner(db, organisation)
    ensures HasActiveOwner(DeletedDatabase(db, account), organisation)
  {
    var x :| x in db.memberships && db.memberships[x].organisation == organisation && IsActiveOwner(db.memberships[x]);
    var m := db.memberships[x];
    var after := DeletedDatabase(db, account);
    if m.account == account && OwnedByAnother(db.memberships, m) {
      var y :| y in db.memberships && db.memberships[y].organisation == organisation
               && IsActiveOwner(db.memberships[y]) && db.memberships[y].account != account;
      assert after.memberships[y] == db.memberships[y];
    } else {
      assert after.memberships[x] == m;
    }
  }

  // ----- Runs of deletions -----

  datatype Request = Request(account: nat, trimmed: string)

  ghost function Run(db: Database, requests: seq<Request>): Database {
    if requests == [] then db
    else
      var last := requests[|requests| - 1];
      Delete(Run(db, requests[..|requests| - 1]), last.account, last.trimmed).0
  }

  /** Over every serial sequence of deletions an organisation with an active owner keeps one. */
  lemma {:induction false} OwnerSurvivesRun(db: Database, requests: seq<Request>, organisation: nat)
    requires HasActiveOwner(db, organisation)
    ensures HasActiveOwner(Run(db, requests), organisation)
  {
    if requests != [] {
      var before := Run(db, requests[..|requests| - 1]);
      OwnerSurvivesRun(db, requests[..|requests| - 1], organisation);
      OwnerSurvives(before, requests[|requests| - 1].account, organisation);
    }
  }

  /** No active owner of the organisation has been anonymised. */
  ghost predicate OwnersAreReal(db: Database, organisation: nat) {
    forall x :: && x in db.memberships && db.memberships[x].organisation == organisation
                && IsActiveOwner(db.memberships[x]) ==>
      db.memberships[x].account !in db.deleted
  }

  lemma {:induction false} RealOwnersStep(db: Database, account: nat, trimmed: string, organisation: nat)
    requires HasLiveCompetition(db, organisation) && OwnersAreReal(db, organisation)
    ensures OwnersAreReal(Delete(db, account, trimmed).0, organisation)
    ensures HasLiveCompetition(Delete(db, account, trimmed).0, organisation)
  {
    var (after, outcome) := Delete(db, account, trimmed);
    if outcome.Deleted? {
      forall x | x in after.memberships && after.memberships[x].organisation == organisation
          && IsActiveOwner(after.memberships[x])
        ensures after.memberships[x].account !in after.deleted
      {
        DeletionMeaning(db, account, trimmed, x);
      }
      var c :| c in db.competitions && db.competitions[c].organisation == organisation
          && IsLive(db.competitions[c].status);
      assert c in after.competitions;
    }
  }

  /** An organisation with a live competition never ends up owned by anonymised accounts alone: every
      one of its active owners is still a person. */
  lemma {:induction false} LiveOrganisationKeepsRealOwner(db: Database, requests: seq<Request>, organisation: nat)
    requires HasLiveCompetition(db, organisation) && HasActiveOwner(db, organisation) && OwnersAreReal(db, organisation)
    ensures var after := Run(db, requests);
            && HasLiveCompetition(after, organisation) && HasActiveOwner(after, organisation)
            && OwnersAreReal(after, organisation)
  {
    if requests != [] {
      var last := requests[|requests| - 1];
      LiveOrganisationKeepsRealOwner(db, requests[..|requests| - 1], organisation);
      RealOwnersStep(Run(db, requests[..|requests| - 1]), last.account, last.trimmed, organisation);
    }
    OwnerSurvivesRun(db, requests, organisation);
  }

  /** Anonymised accounts hold no access: no unrevoked session, no provider identity, and no
      membership that is active other than sole ownership of an organisation. */
  ghost predicate NoAccessLeft(db: Database) {
    && (forall s :: s in db.sessions && db.sessions[s].account in db.deleted ==>
          db.sessions[s].revoked && !db.sessions[s].provider)
    && (forall l :: l in db.providerLinks ==> db.providerLinks[l] !in db.deleted)
    && (forall x :: && x in db.memberships && db.memberships[x].account in db.deleted
                    && db.memberships[x].status != Suspended ==>
          SoleActiveOwner(db.memberships, db.memberships[x]))
  }

  lemma {:induction false} SoleOwnerStays(memberships: map<nat, Membership>, account: nat, x: nat)
    requires x in memberships && SoleActiveOwner(memberships, memberships[x])
    ensures SoleActiveOwner(Suspend(memberships, account), Suspend(memberships, account)[x])
  {
    var after := Suspend(memberships, account);
    forall y | y in after && after[y].organisation == after[x].organisation && IsActiveOwner(after[y])
      ensures after[y].account == after[x].account
    {
      assert IsActiveOwner(memberships[y]);
    }
  }

  lemma {:induction false} NoAccessLeftStep(db: Database, account: nat, trimmed: string)
    requires NoAccessLeft(db)
    ensures NoAccessLeft(Delete(db, account, trimmed).0)
  {
    var (after, outcome) := Delete(db, account, trimmed);
    if outcome.Deleted? {
      forall x | x in after.memberships && after.memberships[x].account in after.deleted
          && after.memberships[x].status != Suspended
        ensures SoleActiveOwner(after.memberships, after.memberships[x])
      {
        DeletionMeaning(db, account, trimmed, x);
        SoleOwnerStays(db.memberships, account, x);
      }
    }
  }

  lemma {:induction false} NoAccessLeftRun(db: Database, requests: seq<Request>)
    requires NoAccessLeft(db)
    ensures NoAccessLeft(Run(db, requests))
  {
    if requests != [] {
      var last := requests[|requests| - 1];
      NoAccessLeftRun(db, requests[..|requests| - 1]);
      NoAccessLeftStep(Run(db, requests[..|requests| - 1]), last.account, last.trimmed);
    }
  }

  /** Of an account: its rows in every table are the same. */
  ghost predicate SameRows(db: Database, after: Database, account: nat) {
    && (account in after.deleted <==> account in db.deleted)
    && after.memberships.Keys == db.memberships.Keys && after.sessions.Keys == db.sessions.Keys
    && (forall x :: x in db.memberships ==>
          && after.memberships[x].account == db.memberships[x].account
          && (db.memberships[x].account == account ==> after.memberships[x] == db.memberships[x]))
    && (forall s :: s in db.sessions ==>
          && after.sessions[s].account == db.sessions[s].account
          && (db.sessions[s].account == account ==> after.sessions[s] == db.sessions[s]))
    && (forall l :: (l in after.providerLinks && after.providerLinks[l] == account)
                    <==> (l in db.providerLinks && db.providerLinks[l] == account))
  }

  /** Over every sequence of deletions an account that no request names keeps all its memberships, sessions
      and provider links, and is not deleted. */
  lemma {:induction false} OthersUntouchedRun(db: Database, requests: seq<Request>, account: nat)
    requires forall i :: 0 <= i < |requests| ==> requests[i].account != account
    ensures SameRows(db, Run(db, requests), account)
  {
    if requests != [] {
      var n := |requests| - 1;
      OthersUntouchedRun(db, requests[..n], account);
      OthersUntouched(Run(db, requests[..n]), requests[n], account);
    }
  }

  lemma {:induction false} OthersUntouched(db: Database, request: Request, account: nat)
    requires request.account != account
    ensures SameRows(db, Delete(db, request.account, request.trimmed).0, account)
  {
    if Delete(db, request.account, request.trimmed).1.Deleted? {
      DeletionKeepsOthers(db, request.account, request.trimmed);
      forall x | x in db.memberships
        ensures var after := Delete(db, request.account, request.trimmed).0;
                && after.memberships.Keys == db.memberships.Keys
                && after.memberships[x].account == db.memberships[x].account
                && (db.memberships[x].account == account ==> after.memberships[x] == db.memberships[x])
      {
        DeletionMeaning(db, request.account, request.trimmed, x);
      }
      assert Delete(db, request.account, request.trimmed).0.memberships.Keys == db.memberships.Keys;
    }
  }

  /** A deletion succeeds at most once for an account. */
  lemma {:induction false} DeletedOnce(db: Database, requests: seq<Request>, account: nat, trimmed: string)
    requires account in db.deleted
    ensures !Delete(Run(db, requests), account, trimmed).1.Deleted?
  {
    DeletedStays(db, requests, account);
  }

  lemma {:induction false} DeletedStays(db: Database, requests: seq<Request>, account: nat)
    requires account in db.deleted
    ensures account in Run(db, requests).deleted
  {
    if requests != [] { DeletedStays(db, requests[..|requests| - 1], account); }
  }

  /** Every deletion of a run that goes through has taken effect at the end of the run. */
  lemma {:induction false} RunDeletes(db: Database, requests: seq<Request>, i: nat)
    requires i < |requests| && Delete(Run(db, requests[..i]), requests[i].account, requests[i].trimmed).1.Deleted?
    ensures requests[i].account in Run(db, requests).deleted
  {
    var n := |requests| - 1;
    if i < n {
      assert requests[..n][..i] == requests[..i];
      RunDeletes(db, requests[..n], i);
      var last := requests[n];
      if Delete(Run(db, requests[..n]), last.account, last.trimmed).1.Deleted? {
        DeletionKeepsOthers(Run(db, requests[..n]), last.account, last.trimmed);
      }
    }
  }

  // ----- The transaction as the source runs it -----

  class AccountStore {
    const accounts: set<nat>
    var deleted: set<nat>
    var memberships: map<nat, Membership>
    var competitions: map<nat, Competition>
    var sessions: map<nat, SessionRow>
    var providerLinks: map<nat, nat>

    constructor (db: Database)
      ensures State() == db
    {
      accounts, deleted, memberships := db.accounts, db.deleted, db.memberships;
      competitions, sessions, providerLinks := db.competitions, db.sessions, db.providerLinks;
    }

    ghost function State(): Database
      reads this
    {
      Database(accounts, deleted, memberships, competitions, sessions, providerLinks)
    }

    /** `NOT EXISTS` another active owner, as a query. */
    method IsSole(m: Membership) returns (sole: bool)
      ensures sole <==> SoleActiveOwner(memberships, m)
    {
      if !IsActiveOwner(m) { return false; }
      var rest := memberships.Keys;
      while rest != {}
        invariant rest <= memberships.Keys
        invariant forall x :: x in memberships && x !in rest ==>
                    !(memberships[x].organisation == m.organisation && IsActiveOwner(memberships[x])
                        && memberships[x].account != m.account)
        decreases rest
      {
        var x :| x in rest;
        var other := memberships[x];
        if other.organisation == m.organisation && IsActiveOwner(other) && other.account != m.account { return false; }
        rest := rest - {x};
      }
      return true;
    }

    method IsBlocked(account: nat) returns (blocked: bool)
      ensures blocked <==> Blocked(State(), account)
    {
      var rest := memberships.Keys;
      while rest != {}
        invariant rest <= memberships.Keys
        invariant forall x :: x in memberships && x !in rest ==>
                    !(memberships[x].account == account && SoleActiveOwner(memberships, memberships[x])
                      && HasLiveCompetition(State(), memberships[x].organisation))
        decreases rest
      {
        var x :| x in rest;
        var m := memberships[x];
        if m.account == account {
          var sole := IsSole(m);
          if sole && exists c :: && c in competitions && competitions[c].organisation == m.organisation
                                 && IsLive(competitions[c].status)
          {
            return true;
          }
        }
        rest := rest - {x};
      }
      return false;
    }

    /** The membership UPDATE, which decides every row on the table as it was before. */
    method SuspendOthers(account: nat) returns (suspended: nat)
      modifies this`memberships
      ensures memberships == Suspend(old(memberships), account)
      ensures suspended == |Changed(old(memberships), account)|
    {
      var updated := memberships;
      var rest := memberships.Keys;
      ghost var changed: set<nat> := {};
      suspended := 0;
      while rest != {}
        invariant memberships == old(memberships)
        invariant rest <= memberships.Keys && updated.Keys == memberships.Keys
        invariant forall x :: x in memberships ==>
                    updated[x] == if x in rest then memberships[x] else SuspendMembership(memberships, account, x)
        invariant changed == set x | x in Changed(memberships, account) && x !in rest
        invariant suspended == |changed|
        decreases rest
      {
        var x :| x in rest;
        var m := memberships[x];
        if m.account == account && m.status != Suspended {
          var sole := IsSole(m);
          if !sole {
            updated := updated[x := m.(status := Suspended)];
            suspended := suspended + 1;
            changed := changed + {x};
          }
        }
        rest := rest - {x};
      }
      assert changed == Changed(memberships, account);
      memberships := updated;
    }

    method DeleteAccount(account: nat, trimmed: string) returns (outcome: Outcome)
      modifies this
      ensures (State(), outcome) == Delete(old(State()), account, trimmed)
    {
      if trimmed != CONFIRMATION { return InvalidConfirmation; }
      if account !in accounts || account in deleted { return NotFound; }
      var blocked := IsBlocked(account);
      if blocked { return LifecycleConflict; }
      var suspended := SuspendOthers(account);
      var retained := set x | x in memberships && memberships[x].account == account && memberships[x].status == Active;
      sessions := RevokeSessions(sessions, account);
      providerLinks := map l | l in providerLinks && providerLinks[l] != account :: providerLinks[l];
      deleted := deleted + {account};
      assert retained == ActiveOf(Suspend(old(memberships), account), account);
      assert State() == DeletedDatabase(old(State()), account);
      return Deleted(suspended, |retained|);
    }
  }
}
