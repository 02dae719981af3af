/** What every run of the identity store keeps, whatever the callers do and in whatever order. */
module IdentityRuns {
  import opened Prelude
  import opened Identity
  import opened T = IdentityTables
  import PasswordPolicy

  datatype Op =
    | CreateUserAndInvite(p: NewUser, newId: int)
    | Bootstrap(a: Administrator, counted: nat, newId: int)
    | EstablishPassword(user: int, hash: Hash, now: Time)
    | RedeemInvitation(d: Digest, now: Time)
    | ResendInvitation(user: int, issuedBy: int, d: Digest, expiresAt: Time)
    | AdminReset(user: int, issuedBy: int, d: Digest, expiresAt: Time, now: Time)
    | Suspend(user: int, now: Time)
    | Disable(user: int, now: Time)
    | Restore(user: int, now: Time)
    | Revoke(user: int, now: Time)
    | ChangeRole(user: int, role: Option<Role>, scope: Option<Scope>)
    | RequestPasswordReset(email: Option<Email>, issuer: int, d: Digest, expiresAt: Time)
    | CompletePasswordReset(d: Digest, hash: Hash, now: Time)
    | EnrollMFACredential(user: int, passkey: bool, data: seq<Byte>)
    | CreateSession(user: int, d: Digest, hint: string, createdAt: Time, expiresAt: Time, newId: int)
    | MarkSessionMFAVerified(id: int, now: Time)
    | TouchSession(id: int, now: Time)
    | RevokeSession(id: int, reason: Option<Reason>, now: Time)
    | RevokeAllSessionsForUser(user: int, reason: Option<Reason>, now: Time)

  ghost function Step(db: Db, op: Op): Db {
    match op
    case CreateUserAndInvite(p, newId) => T.CreateUserAndInvite(db, p, newId).0
    case Bootstrap(a, counted, newId) => T.Bootstrap(db, a, counted, newId).0
    case EstablishPassword(user, hash, now) => T.EstablishPassword(db, user, hash, now).0
    case RedeemInvitation(d, now) => T.RedeemInvitation(db, d, now).0
    case ResendInvitation(user, issuedBy, d, expiresAt) => T.ResendInvitation(db, user, issuedBy, d, expiresAt).0
    case AdminReset(user, issuedBy, d, expiresAt, now) => T.AdminReset(db, user, issuedBy, d, expiresAt, now).0
    case Suspend(user, now) => TransitionAndRevoke(db, user, Suspended, AccountSuspended, now).0
    case Disable(user, now) => TransitionAndRevoke(db, user, Disabled, AccountDisabled, now).0
    case Restore(user, now) => T.Restore(db, user, now).0
    case Revoke(user, now) => T.Revoke(db, user, now).0
    case ChangeRole(user, role, scope) => T.ChangeRole(db, user, role, scope).0
    case RequestPasswordReset(email, issuer, d, expiresAt) => T.RequestPasswordReset(db, email, issuer, d, expiresAt).0
    case CompletePasswordReset(d, hash, now) => T.CompletePasswordReset(db, d, hash, now).0
    case EnrollMFACredential(user, passkey, data) => T.EnrollMFACredential(db, user, passkey, data).0
    case CreateSession(user, d, hint, createdAt, expiresAt, newId) =>
      T.CreateSession(db, user, d, hint, createdAt, expiresAt, newId).0
    case MarkSessionMFAVerified(id, now) => T.MarkSessionMFAVerified(db, id, now).0
    case TouchSession(id, now) => T.TouchSession(db, id, now).0
    case RevokeSession(id, reason, now) => T.RevokeSession(db, id, reason, now).0
    case RevokeAllSessionsForUser(user, reason, now) => T.RevokeAllSessionsForUser(db, user, reason, now).0
  }

  /** Ids come from sequences: a new row never takes the id of an existing one. */
  predicate FreshIds(db: Db, op: Op) {
    match op
    case CreateUserAndInvite(_, newId) => newId !in db.users && newId != 0
    case Bootstrap(_, _, newId) => newId !in db.users && newId != 0
    case CreateSession(_, _, _, _, _, newId) => newId !in db.sessions
    case _ => true
  }

  // The transition matrix, one step at a time

  /** The step redeems an unexpired invitation of this user. */
  predicate RedeemsFor(db: Db, op: Op, user: int) {
    && op.RedeemInvitation? && op.d.bytes != [] && !IsZero(op.now)
    && op.d in db.invitations && db.invitations[op.d].userId == user
    && db.invitations[op.d].status.Pending? && op.now < db.invitations[op.d].expiresAt
  }

  /** An account that becomes active has its password, and for an administrator a second factor, at that moment. */
  predicate MayActivate(credentials: set<Credential>, id: int, v: User) {
    v.passwordHash.Some? && (RequiresMFA(v.role) ==> HasCredential(credentials, id))
  }

  /** A password is set, and perhaps the account activated, by the account's own holder. */
  predicate SetsPassword(db: Db, id: int, u: User, v: User, hash: Hash) {
    && v == u.(passwordHash := Some(hash), status := v.status) && PasswordPolicy.AcceptedByColumn(hash.text)
    && (v.status == u.status || (u.status.PasswordChangeRequired? && v.status.Active?
                                 && MayActivate(db.credentials, id, v)))
  }

  /** How an operation may change one account. */
  ghost predicate UserMoves(db: Db, op: Op, id: int, u: User, v: User) {
    v == u ||
    match op
    case RedeemInvitation(_, _) => RedeemsFor(db, op, id) && v == u.(status := PasswordChangeRequired)
    case ResendInvitation(user, _, _, _) => user == id && u.status in {Invited, Expired} && v == u.(status := Invited)
    case AdminReset(user, _, _, _, _) =>
      user == id && u.status in {Active, Suspended, PasswordChangeRequired}
      && v == u.(status := PasswordChangeRequired, passwordHash := None)
    case Suspend(user, now) =>
      user == id && !IsZero(now) && AllowedTransition(u.status, Suspended) && v == u.(status := Suspended)
    case Disable(user, now) =>
      user == id && !IsZero(now) && AllowedTransition(u.status, Disabled) && v == u.(status := Disabled)
    case Restore(user, now) =>
      user == id && id in db.users && !IsZero(now) && u.status in {Suspended, Disabled}
      && v == u.(status := RestoreTarget(db, id, now)) && v.status in {Active, Invited, Expired}
    case ChangeRole(user, role, scope) =>
      user == id && role.Some? && scope.Some? && v == u.(role := role.value, scope := scope.value)
    case EstablishPassword(user, hash, _) =>
      user == id && u.status.PasswordChangeRequired? && SetsPassword(db, id, u, v, hash)
    case CompletePasswordReset(d, hash, now) =>
      u.status in {Active, PasswordChangeRequired} && SetsPassword(db, id, u, v, hash)
    case EnrollMFACredential(user, _, data) =>
      user == id && u.status.PasswordChangeRequired? && v == u.(status := Active)
      && MayActivate(db.credentials + {Credential(id, data)}, id, v)
    case _ => false
  }

  lemma InvitationsMoveUsers(db: Db, op: Op, id: int)
    requires op.RedeemInvitation? || op.ResendInvitation? || op.AdminReset? || op.CreateUserAndInvite? || op.Bootstrap?
    requires id in db.users && FreshIds(db, op)
    ensures id in Step(db, op).users && UserMoves(db, op, id, db.users[id], Step(db, op).users[id])
  {
    hide SupersedePending, RevokeAll, InsertGrant, PasswordPolicy.AcceptedByColumn, HasCredential, DigestTaken,
         InvitationStands;
    hide T.EstablishPassword, T.CompletePasswordReset, T.EnrollMFACredential, T.Restore, TransitionAndRevoke,
         T.CreateSession;
  }

  lemma LifecycleMovesUsers(db: Db, op: Op, id: int)
    requires op.Suspend? || op.Disable? || op.Restore? || op.ChangeRole?
    requires id in db.users
    ensures id in Step(db, op).users && UserMoves(db, op, id, db.users[id], Step(db, op).users[id])
  {
    hide RevokeAll, PasswordPolicy.AcceptedByColumn, HasCredential, DigestTaken, InvitationStands;
    hide T.EstablishPassword, T.CompletePasswordReset, T.EnrollMFACredential, T.CreateUserAndInvite,
         T.ResendInvitation, T.AdminReset, T.RedeemInvitation, T.CreateSession;
  }

  lemma PasswordsMoveUsers(db: Db, op: Op, id: int)
    requires op.EstablishPassword? || op.CompletePasswordReset? || op.EnrollMFACredential?
    requires id in db.users
    ensures id in Step(db, op).users && UserMoves(db, op, id, db.users[id], Step(db, op).users[id])
  {
    hide RevokeAll, PasswordPolicy.AcceptedByColumn, HasCredential, DigestTaken, InvitationStands;
    hide T.CreateUserAndInvite, T.ResendInvitation, T.AdminReset, T.RedeemInvitation, T.CreateSession, T.Restore,
         TransitionAndRevoke, T.ChangeRole;
  }

  lemma StepOnUser(db: Db, op: Op, id: int)
    requires id in db.users && FreshIds(db, op)
    ensures id in Step(db, op).users && UserMoves(db, op, id, db.users[id], Step(db, op).users[id])
  {
    hide UserMoves, T.RedeemInvitation, T.ResendInvitation, T.AdminReset, T.CreateUserAndInvite, T.Bootstrap;
    hide TransitionAndRevoke, T.Restore, T.ChangeRole, T.EstablishPassword, T.CompletePasswordReset,
         T.EnrollMFACredential;
    if op.RedeemInvitation? || op.ResendInvitation? || op.AdminReset? || op.CreateUserAndInvite? || op.Bootstrap? {
      InvitationsMoveUsers(db, op, id);
    } else if op.Suspend? || op.Disable? || op.Restore? || op.ChangeRole? {
      LifecycleMovesUsers(db, op, id);
    } else if op.EstablishPassword? || op.CompletePasswordReset? || op.EnrollMFACredential? {
      PasswordsMoveUsers(db, op, id);
    } else {
      SessionsLeaveUsers(db, op);
      Unmoved(db, op, id);
    }
  }

  lemma Unmoved(db: Db, op: Op, id: int)
    requires id in db.users
    ensures UserMoves(db, op, id, db.users[id], db.users[id])
  {
  }

  lemma SessionsLeaveUsers(db: Db, op: Op)
    requires op.Revoke? || op.RequestPasswordReset? || op.CreateSession? || op.MarkSessionMFAVerified?
             || op.TouchSession?
             || op.RevokeSession? || op.RevokeAllSessionsForUser?
    ensures Step(db, op).users == db.users
  {
    hide InsertGrant, SupersedePending, RevokeAll, DigestTaken;
  }

  /** A redemption uses the invitation up and always moves the account, whatever state it is in. */
  lemma RedeemMoves(db: Db, op: Op, id: int)
    requires RedeemsFor(db, op, id) && id in db.users
    ensures Step(db, op).users == db.users[id := db.users[id].(status := PasswordChangeRequired)]
    ensures op.d in Step(db, op).invitations && Step(db, op).invitations[op.d].status.Redeemed?
  {
  }

  /**
   Whatever the operation, an account's status stays or moves along the matrix, with a single exception: redeeming an
   unexpired invitation of an expired account, which `RedeemInvitation` does not check for.
   */
  lemma MatrixExactly(db: Db, op: Op, user: int)
    requires user in db.users && FreshIds(db, op)
    ensures user in Step(db, op).users
    ensures var before, after := db.users[user].status, Step(db, op).users[user].status;
            (before == after || AllowedTransition(before, after)) <==> !(RedeemsFor(db, op, user) && before.Expired?)
  {
    hide Step, PasswordPolicy.AcceptedByColumn, HasCredential, InvitationStands;
    StepOnUser(db, op, user);
    if RedeemsFor(db, op, user) {
      RedeemMoves(db, op, user);
    }
  }
}
