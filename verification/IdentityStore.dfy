/**
 The identity store on mutable tables. Every method is one transaction or one statement, proved to have exactly the
 effect and answer of its operation in `IdentityTables`, or none because the database was unreachable; only when the
 answer to the commit itself is lost may the effect stand under an error.
 */
module IdentityStore {
  import opened Prelude
  import opened Identity
  import opened IdentityTables
  import Frames = IdentityFrames
  import PasswordPolicy

  class Database {
    var users: map<int, User>
    var invitations: Grants
    var resets: Grants
    var sessions: Sessions
    var credentials: set<Credential>
    /** The identity sequences. */
    var userSeq: int
    var sessionSeq: int

    constructor ()
      ensures State() == Db(map[], map[], map[], map[], {}) && SequencesAhead()
    {
      users, invitations, resets, sessions, credentials, userSeq, sessionSeq := map[], map[], map[], map[], {}, 0, 0;
    }

    /** The sequences have passed every id in use, so the next one is fresh. */
    ghost predicate SequencesAhead()
      reads this
    {
      && userSeq >= 0 && (forall id :: id in users ==> id <= userSeq)
      && sessionSeq >= 0 && (forall id :: id in sessions ==> id <= sessionSeq)
    }

    ghost function State(): Db
      reads this
    {
      Db(users, invitations, resets, sessions, credentials)
    }

    method Reach() returns (up: bool)
    {
      up := *;
    }

    /** Begins a transaction: what a rollback would return to. */
    method Begin() returns (up: bool, saved: Db)
      ensures saved == State()
    {
      up := *;
      saved := Db(users, invitations, resets, sessions, credentials);
    }

    method Rollback(saved: Db)
      modifies this`users, this`invitations, this`resets, this`sessions, this`credentials
      ensures State() == saved
    {
      users, invitations, resets, sessions, credentials := saved.users, saved.invitations, saved.resets,
            saved.sessions, saved.credentials;
    }

    method Commit(saved: Db) returns (ok: bool)
      modifies this`users, this`invitations, this`resets, this`sessions, this`credentials
      ensures State() == old(State()) || (!ok && State() == saved)
    {
      var committed := Reach();
      if !committed {
        Rollback(saved);
        return false;
      }
      ok := Reach();
    }
  }

  class Postgres {
    const db: Database

    constructor (db: Database)
      ensures this.db == db
    {
      this.db := db;
    }

    // Statements

    method SetUserStatus(user: int, status: AccountState)
      modifies db`users
      ensures db.users ==
              if user in old(db.users) then old(db.users)[user := old(db.users)[user].(status := status)]
              else old(db.users)
    {
      if user in db.users {
        db.users := db.users[user := db.users[user].(status := status)];
      }
    }

    method SupersedeInvitations(user: int)
      modifies db`invitations
      ensures db.invitations == SupersedePending(old(db.invitations), user)
    {
      db.invitations := map d | d in db.invitations ::
        if db.invitations[d].userId == user && db.invitations[d].status.Pending? then
          db.invitations[d].(status := Superseded)
        else db.invitations[d];
    }

    method InsertInvitation(d: Digest, user: int, issuedBy: int, expiresAt: Time) returns (error: Option<Error>)
      modifies db`invitations
      ensures match InsertGrant(old(db.invitations), db.users, d, user, Some(issuedBy), expiresAt)
              case Ok(g) => error.None? && db.invitations == g
              case Err(e) => error == Some(e) && db.invitations == old(db.invitations)
    {
      if |d.bytes| != DIGEST_LENGTH {
        return Some(Input);
      }
      if d in db.invitations || exists e :: e in db.invitations && PendingFor(db.invitations, e, user) {
        return Some(Conflict);
      }
      if issuedBy !in db.users {
        return Some(Input);
      }
      db.invitations := db.invitations[d := Grant(user, Pending, Some(issuedBy), expiresAt, None)];
      return None;
    }

    /** UPDATE sessions ... WHERE user_id = $3 AND revoked_at IS NULL. */
    method RevokeAllSessions(user: int, reason: Reason, now: Time) returns (ended: nat)
      modifies db`sessions
      ensures db.sessions == RevokeAll(old(db.sessions), user, Revocation(now, reason))
      ensures ended == |Standing(old(db.sessions), user)|
    {
      ended := |set id | id in db.sessions && db.sessions[id].userId == user && db.sessions[id].revoked.None?|;
      db.sessions := map id | id in db.sessions ::
        if db.sessions[id].userId == user && db.sessions[id].revoked.None?
              then db.sessions[id].(revoked := Some(Revocation(now, reason))) else db.sessions[id];
    }

    method Activate(user: int) returns (r: Result<AccountState, Error>)
      requires user in db.users
      modifies db`users
      ensures match ActivateIfEligible(old(db.State()), user)
              case Ok((after, status)) => db.State() == after && r == Ok(status)
              case Err(e) => db.State() == old(db.State()) && r == Err(e)
    {
      var u := db.users[user];
      if !u.status.PasswordChangeRequired? {
        return Ok(u.status);
      }
      if RequiresMFA(u.role) && !HasCredential(db.credentials, user) {
        return Ok(PasswordChangeRequired);
      }
      if u.passwordHash.None? {
        return Err(Input);
      }
      SetUserStatus(user, Active);
      return Ok(Active);
    }

    // users.go

    method CreateUserAndInvite(p: NewUser) returns (r: Result<int, Error>)
      requires db.SequencesAhead()
      modifies db`users, db`invitations, db`resets, db`sessions, db`credentials, db`userSeq
      ensures Answered(old(db.State()), IdentityTables.CreateUserAndInvite(old(db.State()), p, old(db.userSeq) + 1),
                       db.State(), r, Unavailable)
      ensures db.SequencesAhead()
    {
      hide InsertGrant;
      if p.digest.bytes == [] || IsZero(p.expiresAt) || p.createdBy == 0 || p.role.None? || p.scope.None?
        || p.name.None? || p.email.None? {
        return Err(Input);
      }
      var up, saved := db.Begin();
      if !up {
        return Err(Unavailable);
      }
      db.userSeq := db.userSeq + 1;
      if exists id :: id in db.users && db.users[id].email == p.email.value {
        return Err(Conflict);
      }
      if p.createdBy !in db.users && p.createdBy != db.userSeq {
        return Err(Input);
      }
      var id := db.userSeq;
      db.users := db.users[id := User(p.email.value, p.name.value, p.role.value, p.scope.value, Invited, None,
                                      Some(p.createdBy))];
      var error := InsertInvitation(p.digest, id, p.createdBy, p.expiresAt);
      if error.Some? {
        db.Rollback(saved);
        return Err(error.value);
      }
      var ok := db.Commit(saved);
      return if ok then Ok(id) else Err(Unavailable);
    }

    // bootstrap-admin/run.go

    /** How many accounts there are, or none when the database is unreachable. */
    method CountUsers() returns (n: Option<nat>)
      ensures n.Some? ==> n.value == |db.users|
    {
      var up := db.Reach();
      return if up then Some(|db.users|) else None;
    }

    /** The INSERT that follows a count of `counted` rows. */
    method Bootstrap(a: Administrator, counted: nat) returns (r: Result<int, Error>)
      requires db.SequencesAhead()
      modifies db`users, db`userSeq
      ensures Answered(old(db.State()), IdentityTables.Bootstrap(old(db.State()), a, counted, old(db.userSeq) + 1),
                       db.State(), r, Unavailable)
      ensures db.SequencesAhead()
    {
      hide PasswordPolicy.AcceptedByColumn;
      if a.email.None? || a.name.None? {
        return Err(Input);
      }
      if counted != 0 {
        return Err(UsersNotEmpty);
      }
      var up := db.Reach();
      if !up {
        return Err(Unavailable);
      }
      db.userSeq := db.userSeq + 1;
      if !PasswordPolicy.AcceptedByColumn(a.hash.text) {
        return Err(Input);
      }
      if exists id :: id in db.users && db.users[id].email == a.email.value {
        return Err(Conflict);
      }
      var id := db.userSeq;
      db.users := db.users[id := User(a.email.value, a.name.value, SystemAdministrator, Scope(""), Active, Some(a.hash),
                                      None)];
      var heard := db.Reach();
      return if heard then Ok(id) else Err(Unavailable);
    }

    method EstablishPassword(user: int, hash: Hash, now: Time) returns (r: Result<AccountState, Error>)
      modifies db`users, db`invitations, db`resets, db`sessions, db`credentials
      ensures Answered(old(db.State()), IdentityTables.EstablishPassword(old(db.State()), user, hash, now),
                       db.State(), r, Unavailable)
    {
      hide PasswordPolicy.AcceptedByColumn, ActivateIfEligible;
      if hash.text == "" || IsZero(now) {
        return Err(Input);
      }
      var up, saved := db.Begin();
      if !up {
        return Err(Unavailable);
      }
      if user !in db.users || !db.users[user].status.PasswordChangeRequired? {
        return Err(InvalidTransition);
      }
      if !PasswordPolicy.AcceptedByColumn(hash.text) {
        return Err(Input);
      }
      db.users := db.users[user := db.users[user].(passwordHash := Some(hash))];
      var activated := Activate(user);
      if activated.Err? {
        db.Rollback(saved);
        return activated;
      }
      var ok := db.Commit(saved);
      return if ok then activated else Err(Unavailable);
    }

    // invitations.go

    method RedeemInvitation(d: Digest, now: Time) returns (r: Result<int, Error>)
      modifies db`users, db`invitations, db`resets, db`sessions, db`credentials
      ensures Answered(old(db.State()), IdentityTables.RedeemInvitation(old(db.State()), d, now), db.State(), r,
                       Unavailable)
    {
      if d.bytes == [] || IsZero(now) {
        return Err(Input);
      }
      var up, saved := db.Begin();
      if !up {
        return Err(Unavailable);
      }
      if d !in db.invitations || !db.invitations[d].status.Pending? {
        if d in db.invitations && db.invitations[d].status.Lapsed? {
          var ok := db.Commit(saved);
          return if ok then Err(TokenExpired) else Err(Unavailable);
        }
        return Err(TokenInvalid);
      }
      var g := db.invitations[d];
      if g.expiresAt <= now {
        db.invitations := db.invitations[d := g.(status := Lapsed)];
        var ok := db.Commit(saved);
        return if ok then Err(TokenExpired) else Err(Unavailable);
      }
      db.invitations := db.invitations[d := g.(status := Redeemed, redeemedAt := Some(now))];
      SetUserStatus(g.userId, PasswordChangeRequired);
      var ok := db.Commit(saved);
      return if ok then Ok(g.userId) else Err(Unavailable);
    }

    method ResendInvitation(user: int, issuedBy: int, d: Digest, expiresAt: Time) returns (r: Result<(), Error>)
      modifies db`users, db`invitations, db`resets, db`sessions, db`credentials
      ensures Answered(old(db.State()), IdentityTables.ResendInvitation(old(db.State()), user, issuedBy, d, expiresAt),
                       db.State(), r, Unavailable)
    {
      hide InsertGrant, SupersedePending;
      if d.bytes == [] || IsZero(expiresAt) || issuedBy == 0 {
        return Err(Input);
      }
      var up, saved := db.Begin();
      if !up {
        return Err(Unavailable);
      }
      if user !in db.users {
        return Err(NotFound);
      }
      var current := db.users[user].status;
      if !current.Invited? && !current.Expired? {
        return Err(InvalidTransition);
      }
      SupersedeInvitations(user);
      var error := InsertInvitation(d, user, issuedBy, expiresAt);
      if error.Some? {
        db.Rollback(saved);
        return Err(error.value);
      }
      if !current.Invited? {
        SetUserStatus(user, Invited);
      }
      StatusKept(old(db.State()), user, current);
      var ok := db.Commit(saved);
      return if ok then Ok(()) else Err(Unavailable);
    }

    lemma StatusKept(s: Db, user: int, status: AccountState)
      requires user in s.users && s.users[user].status == status
      ensures s.users[user := s.users[user].(status := status)] == s.users
    {
    }

    method AdminReset(user: int, issuedBy: int, d: Digest, expiresAt: Time, now: Time) returns (r: Result<(), Error>)
      modifies db`users, db`invitations, db`resets, db`sessions, db`credentials
      ensures Answered(old(db.State()), IdentityTables.AdminReset(old(db.State()), user, issuedBy, d, expiresAt, now),
                       db.State(), r, Unavailable)
    {
      hide InsertGrant, SupersedePending, RevokeAll;
      if d.bytes == [] || IsZero(expiresAt) || IsZero(now) || issuedBy == 0 {
        return Err(Input);
      }
      var up, saved := db.Begin();
      if !up {
        return Err(Unavailable);
      }
      if user !in db.users {
        return Err(NotFound);
      }
      if db.users[user].status !in {Active, Suspended, PasswordChangeRequired} {
        return Err(InvalidTransition);
      }
      SupersedeInvitations(user);
      var error := InsertInvitation(d, user, issuedBy, expiresAt);
      if error.Some? {
        db.Rollback(saved);
        return Err(error.value);
      }
      db.users := db.users[user := db.users[user].(status := PasswordChangeRequired, passwordHash := None)];
      var _ := RevokeAllSessions(user, PasswordReset, now);
      var ok := db.Commit(saved);
      return if ok then Ok(()) else Err(Unavailable);
    }

    // lifecycle.go

    method Suspend(user: int, now: Time) returns (r: Result<(), Error>)
      modifies db`users, db`invitations, db`resets, db`sessions, db`credentials
      ensures Answered(old(db.State()), TransitionAndRevoke(old(db.State()), user, Suspended, AccountSuspended, now),
                       db.State(), r, Unavailable)
    {
      r := MoveAndRevoke(user, Suspended, AccountSuspended, now);
    }

    method Disable(user: int, now: Time) returns (r: Result<(), Error>)
      modifies db`users, db`invitations, db`resets, db`sessions, db`credentials
      ensures Answered(old(db.State()), TransitionAndRevoke(old(db.State()), user, Disabled, AccountDisabled, now),
                       db.State(), r, Unavailable)
    {
      r := MoveAndRevoke(user, Disabled, AccountDisabled, now);
    }

    method MoveAndRevoke(user: int, to: AccountState, reason: Reason, now: Time) returns (r: Result<(), Error>)
      modifies db`users, db`invitations, db`resets, db`sessions, db`credentials
      ensures Answered(old(db.State()), TransitionAndRevoke(old(db.State()), user, to, reason, now), db.State(), r,
                       Unavailable)
    {
      hide RevokeAll, AllowedTransition;
      if IsZero(now) {
        return Err(Input);
      }
      var up, saved := db.Begin();
      if !up {
        return Err(Unavailable);
      }
      if user !in db.users {
        return Err(NotFound);
      }
      if !AllowedTransition(db.users[user].status, to) {
        return Err(InvalidTransition);
      }
      SetUserStatus(user, to);
      var _ := RevokeAllSessions(user, reason, now);
      var ok := db.Commit(saved);
      return if ok then Ok(()) else Err(Unavailable);
    }

    method Restore(user: int, now: Time) returns (r: Result<AccountState, Error>)
      requires Frames.OnePending(db.invitations)
      modifies db`users, db`invitations, db`resets, db`sessions, db`credentials
      ensures Answered(old(db.State()), IdentityTables.Restore(old(db.State()), user, now), db.State(), r, Unavailable)
    {
      hide InvitationStands;
      if IsZero(now) {
        return Err(Input);
      }
      var up, saved := db.Begin();
      if !up {
        return Err(Unavailable);
      }
      if user !in db.users {
        return Err(NotFound);
      }
      var current := db.users[user].status;
      if !current.Suspended? && !current.Disabled? {
        return Err(InvalidTransition);
      }
      var target := Expired;
      if db.users[user].passwordHash.Some? {
        target := Active;
      } else {
        var expiresAt := PendingExpiry(user, now);
        if expiresAt.Some? && now < expiresAt.value {
          target := Invited;
        }
      }
      if !AllowedTransition(current, target) {
        return Err(InvalidTransition);
      }
      SetUserStatus(user, target);
      var ok := db.Commit(saved);
      return if ok then Ok(target) else Err(Unavailable);
    }

    /** The expiry of the user's pending invitation; the partial unique index allows only one. */
    method PendingExpiry(user: int, ghost now: Time) returns (r: Option<Time>)
      requires Frames.OnePending(db.invitations)
      ensures InvitationStands(db.invitations, user, now) <==> r.Some? && now < r.value
    {
      if exists d :: d in db.invitations && PendingFor(db.invitations, d, user) {
        var d :| d in db.invitations && PendingFor(db.invitations, d, user);
        return Some(db.invitations[d].expiresAt);
      }
      return None;
    }

    /** Ends every session of the account without touching its state. */
    method Revoke(user: int, now: Time) returns (r: Result<nat, Error>)
      modifies db`sessions
      ensures Answered(old(db.State()), IdentityTables.Revoke(old(db.State()), user, now), db.State(), r, Unavailable)
    {
      hide RevokeAll, Standing;
      if IsZero(now) {
        return Err(Input);
      }
      var up := db.Reach();
      if !up {
        return Err(Unavailable);
      }
      var ended := RevokeAllSessions(user, AdminRevoke, now);
      up := db.Reach();
      return if up then Ok(ended) else Err(Unavailable);
    }

    method ChangeRole(user: int, role: Option<Role>, scope: Option<Scope>) returns (r: Result<(Role, Scope), Error>)
      modifies db`users, db`invitations, db`resets, db`sessions, db`credentials
      ensures Answered(old(db.State()), IdentityTables.ChangeRole(old(db.State()), user, role, scope), db.State(), r,
                       Unavailable)
    {
      if role.None? || scope.None? {
        return Err(Input);
      }
      var up, saved := db.Begin();
      if !up {
        return Err(Unavailable);
      }
      if user !in db.users {
        return Err(NotFound);
      }
      var prior := db.users[user];
      db.users := db.users[user := prior.(role := role.value, scope := scope.value)];
      var ok := db.Commit(saved);
      return if ok then Ok((prior.role, prior.scope)) else Err(Unavailable);
    }

    // passwordresets.go

    method InsertReset(d: Digest, user: int, issuedBy: Option<int>, expiresAt: Time) returns (error: Option<Error>)
      modifies db`resets
      ensures match InsertGrant(SupersedePending(old(db.resets), user), db.users, d, user, issuedBy, expiresAt)
              case Ok(g) => error.None? && db.resets == g
              case Err(e) => error == Some(e)
    {
      db.resets := map e | e in db.resets ::
        if db.resets[e].userId == user && db.resets[e].status.Pending? then db.resets[e].(status := Superseded)
        else db.resets[e];
      if |d.bytes| != DIGEST_LENGTH {
        return Some(Input);
      }
      if d in db.resets || exists e :: e in db.resets && PendingFor(db.resets, e, user) {
        return Some(Conflict);
      }
      if issuedBy.Some? && issuedBy.value !in db.users {
        return Some(Input);
      }
      db.resets := db.resets[d := Grant(user, Pending, issuedBy, expiresAt, None)];
      return None;
    }

    method RequestPasswordReset(email: Option<Email>, issuer: int, d: Digest,
                                expiresAt: Time) returns (r: Result<Option<int>, Error>)
      requires Frames.UniqueEmails(db.users)
      modifies db`users, db`invitations, db`resets, db`sessions, db`credentials
      ensures Answered(old(db.State()),
                       IdentityTables.RequestPasswordReset(old(db.State()), email, issuer, d, expiresAt),
                       db.State(), r, Unavailable)
    {
      hide InsertGrant, SupersedePending;
      if d.bytes == [] || IsZero(expiresAt) || email.None? {
        return Err(Input);
      }
      var up, saved := db.Begin();
      if !up {
        return Err(Unavailable);
      }
      if !exists id :: id in db.users && db.users[id].email == email.value {
        return Ok(None);
      }
      var user :| user in db.users && db.users[user].email == email.value;
      assert UserWithEmail(db.users, email.value) == Some(user);
      if db.users[user].status !in {Active, PasswordChangeRequired} {
        return Ok(None);
      }
      var error := InsertReset(d, user, if issuer == 0 then None else Some(issuer), expiresAt);
      if error.Some? {
        db.Rollback(saved);
        return Err(error.value);
      }
      var ok := db.Commit(saved);
      return if ok then Ok(Some(user)) else Err(Unavailable);
    }

    method CompletePasswordReset(d: Digest, hash: Hash, now: Time) returns (r: Result<int, Error>)
      modifies db`users, db`invitations, db`resets, db`sessions, db`credentials
      ensures Answered(old(db.State()), IdentityTables.CompletePasswordReset(old(db.State()), d, hash, now),
                       db.State(), r, Unavailable)
    {
      hide PasswordPolicy.AcceptedByColumn, ActivateIfEligible, RevokeAll;
      if d.bytes == [] || hash.text == "" || IsZero(now) {
        return Err(Input);
      }
      var up, saved := db.Begin();
      if !up {
        return Err(Unavailable);
      }
      if d !in db.resets || !db.resets[d].status.Pending? {
        if d in db.resets && db.resets[d].status.Lapsed? {
          var ok := db.Commit(saved);
          return if ok then Err(TokenExpired) else Err(Unavailable);
        }
        return Err(TokenInvalid);
      }
      var g := db.resets[d];
      if g.expiresAt <= now {
        db.resets := db.resets[d := g.(status := Lapsed)];
        var ok := db.Commit(saved);
        return if ok then Err(TokenExpired) else Err(Unavailable);
      }
      db.resets := db.resets[d := g.(status := Redeemed, redeemedAt := Some(now))];
      if g.userId !in db.users || db.users[g.userId].status !in {Active, PasswordChangeRequired} {
        db.Rollback(saved);
        return Err(InvalidTransition);
      }
      if !PasswordPolicy.AcceptedByColumn(hash.text) {
        db.Rollback(saved);
        return Err(Input);
      }
      db.users := db.users[g.userId := db.users[g.userId].(passwordHash := Some(hash))];
      ActivationFrame(db.State(), g.userId);
      var activated := Activate(g.userId);
      if activated.Err? {
        db.Rollback(saved);
        return Err(activated.error);
      }
      var _ := RevokeAllSessions(g.userId, PasswordReset, now);
      var ok := db.Commit(saved);
      return if ok then Ok(g.userId) else Err(Unavailable);
    }

    lemma ActivationFrame(s: Db, user: int)
      requires user in s.users
      ensures match ActivateIfEligible(s, user) case Ok((after, _)) => after.sessions == s.sessions case Err(_) => true
    {
    }

    // mfa.go

    method EnrollMFACredential(user: int, passkey: bool, data: seq<Byte>) returns (r: Result<AccountState, Error>)
      modifies db`users, db`invitations, db`resets, db`sessions, db`credentials
      ensures Answered(old(db.State()), IdentityTables.EnrollMFACredential(old(db.State()), user, passkey, data),
                       db.State(), r, Unavailable)
    {
      hide ActivateIfEligible;
      if user == 0 || !passkey || |data| == 0 || |data| > MAX_CREDENTIAL_LEN {
        return Err(Input);
      }
      var up, saved := db.Begin();
      if !up {
        return Err(Unavailable);
      }
      if user !in db.users {
        return Err(NotFound);
      }
      var status := db.users[user].status;
      if !status.PasswordChangeRequired? && !status.Active? {
        return Err(InvalidTransition);
      }
      if Credential(user, data) in db.credentials {
        return Err(Conflict);
      }
      db.credentials := db.credentials + {Credential(user, data)};
      var activated := Activate(user);
      if activated.Err? {
        db.Rollback(saved);
        return activated;
      }
      var ok := db.Commit(saved);
      return if ok then activated else Err(Unavailable);
    }

    // sessions.go

    method CreateSession(user: int, d: Digest, hint: string, createdAt: Time, expiresAt: Time)
      returns (r: Result<int, Error>)
      requires db.SequencesAhead()
      modifies db`sessions, db`sessionSeq
      ensures Answered(old(db.State()),
                       IdentityTables.CreateSession(old(db.State()), user, d, hint, createdAt, expiresAt,
                                                    old(db.sessionSeq) + 1),
                       db.State(), r, Unavailable)
      ensures db.SequencesAhead()
    {
      if d.bytes == [] || IsZero(createdAt) || expiresAt <= createdAt {
        return Err(Input);
      }
      var up := db.Reach();
      if !up {
        return Err(Unavailable);
      }
      if user !in db.users || !db.users[user].status.Active? {
        return Err(AccountNotActive);
      }
      db.sessionSeq := db.sessionSeq + 1;
      if |d.bytes| != DIGEST_LENGTH || |hint| > MAX_HINT_LEN {
        return Err(Input);
      }
      if DigestTaken(db.sessions, d) {
        return Err(Conflict);
      }
      db.sessions := db.sessions[db.sessionSeq := Session(user, d, hint, createdAt, createdAt, expiresAt, None, None)];
      up := db.Reach();
      return if up then Ok(db.sessionSeq) else Err(Unavailable);
    }

    /** Answers with a session and its owner exactly when one resolves; which one is unique because digests are. */
    method ResolveSession(d: Digest, c: Config, now: Time) returns (r: Result<Authorized, Error>)
      requires Frames.DigestsUnique(db.sessions)
      ensures match r
              case Ok(a) =>
                && d.bytes != [] && !IsZero(now) && c.idleTimeout > 0 && c.absoluteLifetime > 0
                && Resolves(db.State(), d, c, now, a.id) && a.session == db.sessions[a.id]
                && var u := db.users[a.session.userId];
                   a.account == View(a.session.userId, u.email, u.name, u.role, u.scope, u.status)
              case Err(TokenInvalid) => forall id :: !Resolves(db.State(), d, c, now, id)
              case Err(e) =>
                e == Unavailable
                || (e == Input && (d.bytes == [] || IsZero(now) || c.idleTimeout <= 0 || c.absoluteLifetime <= 0))
    {
      if d.bytes == [] || IsZero(now) || c.idleTimeout <= 0 || c.absoluteLifetime <= 0 {
        return Err(Input);
      }
      var up := db.Reach();
      if !up {
        return Err(Unavailable);
      }
      if !exists id :: id in db.sessions && db.sessions[id].digest == d && db.sessions[id].userId in db.users {
        return Err(TokenInvalid);
      }
      var id :| id in db.sessions && db.sessions[id].digest == d && db.sessions[id].userId in db.users;
      var s := db.sessions[id];
      var u := db.users[s.userId];
      if !Usable(c, s, now) || !u.status.Active? {
        return Err(TokenInvalid);
      }
      return Ok(Authorized(id, s, ViewOf(s.userId, u)));
    }

    method MarkSessionMFAVerified(id: int, now: Time) returns (r: Result<(), Error>)
      modifies db`sessions
      ensures Answered(old(db.State()), IdentityTables.MarkSessionMFAVerified(old(db.State()), id, now), db.State(),
                       r, Unavailable)
    {
      if IsZero(now) {
        return Err(Input);
      }
      var up := db.Reach();
      if !up {
        return Err(Unavailable);
      }
      if id !in db.sessions || db.sessions[id].revoked.Some? || db.sessions[id].expiresAt <= now {
        return Err(NotFound);
      }
      db.sessions := db.sessions[id := db.sessions[id].(mfaVerifiedAt := Some(now))];
      up := db.Reach();
      return if up then Ok(()) else Err(Unavailable);
    }

    method TouchSession(id: int, now: Time) returns (r: Result<(), Error>)
      modifies db`sessions
      ensures Answered(old(db.State()), IdentityTables.TouchSession(old(db.State()), id, now), db.State(), r,
                       Unavailable)
    {
      if IsZero(now) {
        return Err(Input);
      }
      var up := db.Reach();
      if !up {
        return Err(Unavailable);
      }
      if id !in db.sessions || db.sessions[id].revoked.Some? {
        return Err(NotFound);
      }
      db.sessions := db.sessions[id := db.sessions[id].(lastSeenAt := now)];
      up := db.Reach();
      return if up then Ok(()) else Err(Unavailable);
    }

    method RevokeSession(id: int, reason: Option<Reason>, now: Time) returns (r: Result<(), Error>)
      modifies db`sessions
      ensures Answered(old(db.State()), IdentityTables.RevokeSession(old(db.State()), id, reason, now), db.State(),
                       r, Unavailable)
    {
      if reason.None? || IsZero(now) {
        return Err(Input);
      }
      var up := db.Reach();
      if !up {
        return Err(Unavailable);
      }
      if id in db.sessions && db.sessions[id].revoked.None? {
        db.sessions := db.sessions[id := db.sessions[id].(revoked := Some(Revocation(now, reason.value)))];
      }
      up := db.Reach();
      return if up then Ok(()) else Err(Unavailable);
    }

    method RevokeAllSessionsForUser(user: int, reason: Option<Reason>, now: Time) returns (r: Result<nat, Error>)
      modifies db`sessions
      ensures Answered(old(db.State()), IdentityTables.RevokeAllSessionsForUser(old(db.State()), user, reason, now),
                       db.State(), r, Unavailable)
    {
      hide RevokeAll, Standing;
      if reason.None? || IsZero(now) {
        return Err(Input);
      }
      var up := db.Reach();
      if !up {
        return Err(Unavailable);
      }
      var ended := RevokeAllSessions(user, reason.value, now);
      up := db.Reach();
      return if up then Ok(ended) else Err(Unavailable);
    }
  }
}
