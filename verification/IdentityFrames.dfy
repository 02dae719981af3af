/** How one operation may change the token and session tables, and what those changes keep. */
module IdentityFrames {
  import opened Prelude
  import opened Identity
  import opened T = IdentityTables
  import opened IdentityRuns
  import PasswordPolicy

  /** `normalized_email` is unique, whatever the account's state. */
  ghost predicate UniqueEmails(users: map<int, User>) {
    forall i, j :: i in users && j in users && users[i].email == users[j].email ==> i == j
  }

  // Token tables

  /** At most one pending row per user. */
  ghost predicate OnePending(g: Grants) {
    forall d, e :: d in g && e in g && g[d].status.Pending? && g[e].status.Pending? && g[d].userId == g[e].userId ==>
      d == e
  }

  /** A row belongs to its user for good, and once it is no longer pending it never changes. */
  predicate GrantLater(g: Grant, h: Grant) {
    && h.userId == g.userId && h.expiresAt == g.expiresAt && h.issuedBy == g.issuedBy
    && (!g.status.Pending? ==> h == g)
  }

  ghost predicate GrantsLater(g: Grants, h: Grants) {
    forall d :: d in g ==> d in h && GrantLater(g[d], h[d])
  }

  lemma SupersedeEffect(g: Grants, user: int)
    ensures GrantsLater(g, SupersedePending(g, user)) && !SomePending(SupersedePending(g, user), user)
    ensures forall d :: d in g && SupersedePending(g, user)[d].status.Pending? ==> SupersedePending(g, user)[d] == g[d]
    ensures OnePending(g) ==> OnePending(SupersedePending(g, user))
  {
  }

  lemma InsertEffect(g: Grants, users: map<int, User>, d: Digest, user: int, issuedBy: Option<int>, expiresAt: Time)
    requires InsertGrant(g, users, d, user, issuedBy, expiresAt).Ok?
    ensures var h := InsertGrant(g, users, d, user, issuedBy, expiresAt).value;
            && d !in g && h == g[d := Grant(user, Pending, issuedBy, expiresAt, None)]
            && GrantsLater(g, h) && (OnePending(g) ==> OnePending(h))
  {
    hide SomePending;
    var h := InsertGrant(g, users, d, user, issuedBy, expiresAt).value;
    forall e | e in g && g[e].status.Pending? ensures g[e].userId != user {
      PendingIsSome(g, e, user);
    }
  }

  lemma PendingIsSome(g: Grants, d: Digest, user: int)
    requires !SomePending(g, user)
    ensures !PendingFor(g, d, user)
  {
  }

  lemma RedemptionEffect(g: Grants, d: Digest, now: Time)
    ensures var (h, r) := Redemption(g, d, now);
            && h.Keys == g.Keys && GrantsLater(g, h) && (OnePending(g) ==> OnePending(h))
            && (forall e :: e in g && h[e].status.Pending? ==> h[e] == g[e])
            && (r.Ok? <==> d in g && g[d].status.Pending? && now < g[d].expiresAt)
            && (r.Ok? ==> h[d].status.Redeemed? && r.value == g[d].userId)
  {
  }

  lemma InvitationsUntouched(db: Db, op: Op)
    requires !op.RedeemInvitation? && !op.ResendInvitation? && !op.AdminReset? && !op.CreateUserAndInvite?
    ensures Step(db, op).invitations == db.invitations
  {
    hide InsertGrant, SupersedePending, RevokeAll, Redemption, InvitationStands, HasCredential, DigestTaken,
         PasswordPolicy.AcceptedByColumn;
  }

  /** Every operation leaves the invitations alone, redeems one, or supersedes a user's and issues a new one. */
  lemma StepInvitations(db: Db, op: Op)
    ensures var after := Step(db, op);
            || after.invitations == db.invitations
            || (op.RedeemInvitation? && after.invitations == Redemption(db.invitations, op.d, op.now).0)
            || ((op.ResendInvitation? || op.AdminReset?) && op.user in after.users
                && after.users[op.user].status == (if op.ResendInvitation? then Invited else PasswordChangeRequired)
                && InsertGrant(SupersedePending(db.invitations, op.user), db.users, op.d, op.user, Some(op.issuedBy),
                               op.expiresAt) == Ok(after.invitations))
            || (op.CreateUserAndInvite? && op.newId in after.users && after.users[op.newId].status.Invited?
                && InsertGrant(db.invitations, after.users, op.p.digest, op.newId, Some(op.p.createdBy),
                               op.p.expiresAt) == Ok(after.invitations))
  {
    if !op.RedeemInvitation? && !op.ResendInvitation? && !op.AdminReset? && !op.CreateUserAndInvite? {
      InvitationsUntouched(db, op);
    } else {
      hide InsertGrant, SupersedePending, RevokeAll, Redemption, InvitationStands, HasCredential, DigestTaken,
           PasswordPolicy.AcceptedByColumn;
      hide T.Restore, TransitionAndRevoke, T.ChangeRole, T.EstablishPassword, T.RequestPasswordReset,
           T.CompletePasswordReset, T.EnrollMFACredential, T.CreateSession;
    }
  }

  lemma ResetsUntouched(db: Db, op: Op)
    requires !op.RequestPasswordReset? && !op.CompletePasswordReset?
    ensures Step(db, op).resets == db.resets
  {
    hide InsertGrant, SupersedePending, RevokeAll, Redemption, InvitationStands, HasCredential, DigestTaken,
         PasswordPolicy.AcceptedByColumn;
  }

  lemma CompletionRedeems(db: Db, d: Digest, hash: Hash, now: Time)
    ensures T.CompletePasswordReset(db, d, hash, now).0.resets in {db.resets, Redemption(db.resets, d, now).0}
  {
    hide Redemption, RevokeAll, HasCredential, PasswordPolicy.AcceptedByColumn;
  }

  /** The account a reset request issued a token for, if any. */
  lemma RequestInserts(db: Db, email: Option<Email>, issuer: int, d: Digest, expiresAt: Time)
    ensures var (after, r) := T.RequestPasswordReset(db, email, issuer, d, expiresAt);
            after == db ||
            match r
            case Ok(Some(user)) =>
              InsertGrant(SupersedePending(db.resets, user), db.users, d, user,
                          if issuer == 0 then None else Some(issuer), expiresAt) == Ok(after.resets)
            case _ => false
  {
    hide InsertGrant, SupersedePending;
  }

  /** Every operation leaves the resets alone, redeems one, or supersedes a user's and issues a new one. */
  lemma StepResets(db: Db, op: Op)
    ensures var after := Step(db, op);
            || after.resets == db.resets
            || (op.CompletePasswordReset? && after.resets == Redemption(db.resets, op.d, op.now).0)
            || (op.RequestPasswordReset? &&
                match T.RequestPasswordReset(db, op.email, op.issuer, op.d, op.expiresAt).1
                case Ok(Some(user)) =>
                  InsertGrant(SupersedePending(db.resets, user), db.users, op.d, user,
                              if op.issuer == 0 then None else Some(op.issuer), op.expiresAt) == Ok(after.resets)
                case _ => false)
  {
    hide T.RequestPasswordReset, T.CompletePasswordReset, InsertGrant, SupersedePending, Redemption;
    hide T.Restore, T.ChangeRole, T.EstablishPassword, T.CreateUserAndInvite, T.RedeemInvitation, T.ResendInvitation,
         T.EnrollMFACredential, T.CreateSession;
    hide T.AdminReset, TransitionAndRevoke;
    if op.RequestPasswordReset? {
      RequestInserts(db, op.email, op.issuer, op.d, op.expiresAt);
    } else if op.CompletePasswordReset? {
      CompletionRedeems(db, op.d, op.hash, op.now);
    } else {
      ResetsUntouched(db, op);
    }
  }

  // Sessions

  /** A session keeps its owner, digest and ceiling, and once revoked it never changes. */
  predicate SessionLater(s: Session, t: Session) {
    && t.userId == s.userId && t.digest == s.digest && t.createdAt == s.createdAt && t.expiresAt == s.expiresAt
    && (s.revoked.Some? ==> t == s)
  }

  ghost predicate SessionsLater(s: Sessions, t: Sessions) {
    forall id :: id in s ==> id in t && SessionLater(s[id], t[id])
  }

  ghost predicate DigestsUnique(s: Sessions) {
    forall i, j :: i in s && j in s && s[i].digest == s[j].digest ==> i == j
  }

  /**
   A bulk revocation ends all of the account's sessions; those that were standing, and counted, are the ones it changes.
   */
  lemma RevokeAllEffect(s: Sessions, user: int, r: Revocation)
    ensures SessionsLater(s, RevokeAll(s, user, r)) && (DigestsUnique(s) ==> DigestsUnique(RevokeAll(s, user, r)))
    ensures forall id :: id in s && s[id].userId == user ==> RevokeAll(s, user, r)[id].revoked.Some?
    ensures forall id :: id in s ==> (RevokeAll(s, user, r)[id] != s[id] <==> id in Standing(s, user))
  {
  }

  lemma SessionsUntouched(db: Db, op: Op)
    requires op.CreateUserAndInvite? || op.Bootstrap? || op.EstablishPassword? || op.RedeemInvitation?
             || op.ResendInvitation? || op.Restore? || op.ChangeRole? || op.RequestPasswordReset?
             || op.EnrollMFACredential?
    ensures Step(db, op).sessions == db.sessions
  {
    hide InsertGrant, SupersedePending, RevokeAll, Redemption, InvitationStands, HasCredential, DigestTaken,
         PasswordPolicy.AcceptedByColumn;
  }

  /** Whose sessions an operation revokes as a whole: those of the account it succeeds on. */
  ghost function RevokesAllOf(db: Db, op: Op): Option<(int, Revocation)> {
    match op
    case AdminReset(user, issuedBy, d, expiresAt, now) =>
      if T.AdminReset(db, user, issuedBy, d, expiresAt, now).1.Ok? then Some((user, Revocation(now, PasswordReset)))
      else None
    case Suspend(user, now) =>
      if TransitionAndRevoke(db, user, Suspended, AccountSuspended, now).1.Ok? then
        Some((user, Revocation(now, AccountSuspended)))
      else None
    case Disable(user, now) =>
      if TransitionAndRevoke(db, user, Disabled, AccountDisabled, now).1.Ok? then
        Some((user, Revocation(now, AccountDisabled)))
      else None
    case Revoke(user, now) => if IsZero(now) then None else Some((user, Revocation(now, AdminRevoke)))
    case RevokeAllSessionsForUser(user, reason, now) =>
      if reason.None? || IsZero(now) then None else Some((user, Revocation(now, reason.value)))
    case CompletePasswordReset(d, hash, now) => (
      match T.CompletePasswordReset(db, d, hash, now).1
      case Ok(user) => Some((user, Revocation(now, PasswordReset)))
      case Err(_) => None)
    case _ => None
  }

  lemma BulkRevocation(db: Db, op: Op)
    requires op.AdminReset? || op.Suspend? || op.Disable? || op.Revoke? || op.RevokeAllSessionsForUser?
             || op.CompletePasswordReset?
    ensures Step(db, op).sessions ==
            match RevokesAllOf(db, op)
            case Some((user, r)) => RevokeAll(db.sessions, user, r)
            case None => db.sessions
  {
    hide InsertGrant, SupersedePending, RevokeAll, Redemption, InvitationStands, HasCredential, DigestTaken,
         PasswordPolicy.AcceptedByColumn;
    hide T.Restore, T.ChangeRole, T.EstablishPassword, T.CreateUserAndInvite, T.RedeemInvitation, T.ResendInvitation,
         T.EnrollMFACredential, T.CreateSession;
  }

  lemma OneSession(db: Db, op: Op)
    requires op.MarkSessionMFAVerified? || op.TouchSession? || op.RevokeSession?
    ensures var after := Step(db, op).sessions;
            after == db.sessions ||
            (op.id in db.sessions && op.id in after && SessionLater(db.sessions[op.id], after[op.id])
             && after == db.sessions[op.id := after[op.id]])
  {
    hide InsertGrant, SupersedePending, RevokeAll, Redemption, InvitationStands, HasCredential, DigestTaken,
         PasswordPolicy.AcceptedByColumn;
    hide T.Restore, T.ChangeRole, T.EstablishPassword, T.CreateUserAndInvite, T.RedeemInvitation, T.ResendInvitation,
         T.EnrollMFACredential, T.CreateSession;
    hide T.AdminReset, TransitionAndRevoke, T.CompletePasswordReset, T.RequestPasswordReset;
  }

  lemma NewSession(db: Db, op: Op)
    requires op.CreateSession?
    ensures var after := Step(db, op).sessions;
            after == db.sessions ||
            (!DigestTaken(db.sessions, op.d) && op.user in db.users && db.users[op.user].status.Active?
             && after == db.sessions[op.newId := Session(op.user, op.d, op.hint, op.createdAt, op.createdAt,
                                                         op.expiresAt, None, None)])
  {
    hide InsertGrant, SupersedePending, RevokeAll, Redemption, InvitationStands, HasCredential, DigestTaken,
         PasswordPolicy.AcceptedByColumn;
    hide T.Restore, T.ChangeRole, T.EstablishPassword, T.CreateUserAndInvite, T.RedeemInvitation, T.ResendInvitation,
         T.EnrollMFACredential;
    hide T.AdminReset, TransitionAndRevoke, T.CompletePasswordReset, T.RequestPasswordReset;
  }

  /**
   Whatever the operation, no session loses its owner, digest or ceiling, no revoked one comes back, and only a login
   adds one.
   */
  lemma StepSessions(db: Db, op: Op)
    requires FreshIds(db, op)
    ensures SessionsLater(db.sessions, Step(db, op).sessions)
    ensures forall id :: id in Step(db, op).sessions && id !in db.sessions ==> op.CreateSession?
    ensures DigestsUnique(db.sessions) ==> DigestsUnique(Step(db, op).sessions)
  {
    hide Step, RevokesAllOf, RevokeAll;
    if op.AdminReset? || op.Suspend? || op.Disable? || op.Revoke? || op.RevokeAllSessionsForUser?
      || op.CompletePasswordReset? {
      BulkRevocation(db, op);
      match RevokesAllOf(db, op) {
        case Some((user, r)) => RevokeAllEffect(db.sessions, user, r);
        case None =>
      }
    } else if op.MarkSessionMFAVerified? || op.TouchSession? || op.RevokeSession? {
      OneSession(db, op);
    } else if op.CreateSession? {
      NewSession(db, op);
    } else {
      SessionsUntouched(db, op);
    }
  }

  /** Credentials are only ever added, by an enrolment that was not refused. */
  lemma StepCredentials(db: Db, op: Op)
    ensures Step(db, op).credentials ==
            if op.EnrollMFACredential? && Step(db, op) != db then db.credentials + {Credential(op.user, op.data)}
            else db.credentials
  {
    hide InsertGrant, SupersedePending, RevokeAll, Redemption, InvitationStands, HasCredential, DigestTaken,
         PasswordPolicy.AcceptedByColumn;
  }
}
