/**
 The identity tables as values, and every store operation as one atomic step on them: the new tables and the answer.
 What a normalizer or validator makes of raw text (an email, a role, a scope, a display name) is part of the input;
 `None` is what it rejects.
 */
module IdentityTables {
  import opened Prelude
  import opened Identity
  import PasswordPolicy

  datatype Email = Email(text: string)
  datatype Scope = Scope(text: string)
  datatype Name = Name(text: string)
  /** The SHA-256 digest a token is stored as. */
  datatype Digest = Digest(bytes: seq<Byte>)
  datatype Hash = Hash(text: string)

  const DIGEST_LENGTH := 32
  const MAX_HINT_LEN := 200
  const MAX_CREDENTIAL_LEN := 4096

  datatype User = User(email: Email, name: Name, role: Role, scope: Scope, status: AccountState,
                       passwordHash: Option<Hash>, createdBy: Option<int>)

  datatype TokenStatus = Pending | Redeemed | Lapsed | Superseded

  /** An invitation or a password reset; `issuedBy` is absent for a self-service reset. */
  datatype Grant = Grant(userId: int, status: TokenStatus, issuedBy: Option<int>, expiresAt: Time,
                         redeemedAt: Option<Time>)

  type Grants = map<Digest, Grant>

  datatype Reason = Logout | LogoutAll | PasswordReset | AccountDisabled | AccountSuspended | AdminRevoke | Replaced

  datatype Revocation = Revocation(at: Time, reason: Reason)

  datatype Session = Session(userId: int, digest: Digest, hint: string, createdAt: Time, lastSeenAt: Time,
                             expiresAt: Time, revoked: Option<Revocation>, mfaVerifiedAt: Option<Time>)

  type Sessions = map<int, Session>

  datatype Credential = Credential(userId: int, data: seq<Byte>)

  datatype Db = Db(users: map<int, User>, invitations: Grants, resets: Grants, sessions: Sessions,
                   credentials: set<Credential>)

  datatype Error = Input | NotFound | Conflict | InvalidTransition | TokenInvalid | TokenExpired | AccountNotActive
                 | UsersNotEmpty
                 | Unavailable

  // Statements

  function SupersedePending(g: Grants, user: int): (h: Grants)
    ensures h.Keys == g.Keys
  {
    map d | d in g :: if g[d].userId == user && g[d].status.Pending? then g[d].(status := Superseded) else g[d]
  }

  function RevokeAll(s: Sessions, user: int, r: Revocation): (t: Sessions)
    ensures t.Keys == s.Keys
  {
    map id | id in s :: if s[id].userId == user && s[id].revoked.None? then s[id].(revoked := Some(r)) else s[id]
  }

  /** The sessions a bulk revocation ends. */
  function Standing(s: Sessions, user: int): set<int> {
    set id | id in s && s[id].userId == user && s[id].revoked.None?
  }

  predicate PendingFor(g: Grants, d: Digest, user: int) {
    d in g && g[d].userId == user && g[d].status.Pending?
  }

  ghost predicate SomePending(g: Grants, user: int) {
    exists d :: PendingFor(g, d, user)
  }

  /**
   Column checks come first, then the unique indexes (one row per digest, one pending row per user), then the issuer's
   foreign key.
   */
  ghost function InsertGrant(g: Grants, users: map<int, User>, d: Digest, user: int, issuedBy: Option<int>,
                             expiresAt: Time): Result<Grants, Error> {
    if |d.bytes| != DIGEST_LENGTH then Err(Input)
    else if d in g || SomePending(g, user) then Err(Conflict)
    else if issuedBy.Some? && issuedBy.value !in users then Err(Input)
    else Ok(g[d := Grant(user, Pending, issuedBy, expiresAt, None)])
  }

  /** The single-use redemption both kinds of token share: a lapsed one is marked so in the same statement. */
  function Redemption(g: Grants, d: Digest, now: Time): (Grants, Result<int, Error>) {
    if d in g && g[d].status.Pending? then
      if g[d].expiresAt <= now then (g[d := g[d].(status := Lapsed)], Err(TokenExpired))
      else (g[d := g[d].(status := Redeemed, redeemedAt := Some(now))], Ok(g[d].userId))
    else if d in g && g[d].status.Lapsed? then (g, Err(TokenExpired))
    else (g, Err(TokenInvalid))
  }

  predicate HasCredential(credentials: set<Credential>, user: int) {
    exists c :: c in credentials && c.userId == user
  }

  function WithStatus(db: Db, user: int, status: AccountState): Db
    requires user in db.users
  {
    db.(users := db.users[user := db.users[user].(status := status)])
  }

  /** `users_active_requires_password`, the CHECK every update of a user passes or aborts on. */
  predicate ActiveHasPassword(u: User) {
    u.status.Active? ==> u.passwordHash.Some?
  }

  /** `activateIfEligible`: the update may abort on the password CHECK. */
  function ActivateIfEligible(db: Db, user: int): Result<(Db, AccountState), Error>
    requires user in db.users
  {
    var u := db.users[user];
    if !u.status.PasswordChangeRequired? then Ok((db, u.status))
    else if RequiresMFA(u.role) && !HasCredential(db.credentials, user) then Ok((db, PasswordChangeRequired))
    else if u.passwordHash.None? then Err(Input)
    else Ok((WithStatus(db, user, Active), Active))
  }

  // Operations: users.go

  datatype NewUser = NewUser(email: Option<Email>, name: Option<Name>, role: Option<Role>, scope: Option<Scope>,
                             createdBy: int, digest: Digest, expiresAt: Time)

  ghost function CreateUserAndInvite(db: Db, p: NewUser, newId: int): (Db, Result<int, Error>) {
    if p.digest.bytes == [] || IsZero(p.expiresAt) || p.createdBy == 0 || p.role.None? || p.scope.None?
          || p.name.None? || p.email.None? then (db, Err(Input))
    else if exists id :: id in db.users && db.users[id].email == p.email.value then (db, Err(Conflict))
    else if p.createdBy !in db.users && p.createdBy != newId then (db, Err(Input))
    else
      var u := User(p.email.value, p.name.value, p.role.value, p.scope.value, Invited, None, Some(p.createdBy));
      match InsertGrant(db.invitations, db.users[newId := u], p.digest, newId, Some(p.createdBy), p.expiresAt)
      case Err(e) => (db, Err(e))
      case Ok(invitations) => (db.(users := db.users[newId := u], invitations := invitations), Ok(newId))
  }

  // Operations: bootstrap-admin/run.go

  datatype Administrator = Administrator(email: Option<Email>, name: Option<Name>, hash: Hash)

  /**
   The first administrator, inserted as active and without an invitation; a NULL scope reads back as the empty one.
   The rows are counted by an earlier statement, so `counted` may be out of date.
   */
  ghost function Bootstrap(db: Db, a: Administrator, counted: nat, newId: int): (Db, Result<int, Error>) {
    if a.email.None? || a.name.None? then (db, Err(Input))
    else if counted != 0 then (db, Err(UsersNotEmpty))
    else if !PasswordPolicy.AcceptedByColumn(a.hash.text) then (db, Err(Input))
    else if exists id :: id in db.users && db.users[id].email == a.email.value then (db, Err(Conflict))
    else
      var u := User(a.email.value, a.name.value, SystemAdministrator, Scope(""), Active, Some(a.hash), None);
      (db.(users := db.users[newId := u]), Ok(newId))
  }

  /** A new hash for an account in one of the given states, with the column's own check. */
  function SetPassword(db: Db, user: int, hash: Hash, states: set<AccountState>): Result<Db, Error> {
    if user !in db.users || db.users[user].status !in states then Err(InvalidTransition)
    else if !PasswordPolicy.AcceptedByColumn(hash.text) then Err(Input)
    else Ok(db.(users := db.users[user := db.users[user].(passwordHash := Some(hash))]))
  }

  function EstablishPassword(db: Db, user: int, hash: Hash, now: Time): (Db, Result<AccountState, Error>) {
    if hash.text == "" || IsZero(now) then (db, Err(Input))
    else match SetPassword(db, user, hash, {PasswordChangeRequired})
      case Err(e) => (db, Err(e))
      case Ok(mid) =>
        match ActivateIfEligible(mid, user)
        case Err(e) => (db, Err(e))
        case Ok((after, status)) => (after, Ok(status))
  }

  // Operations: invitations.go

  function RedeemInvitation(db: Db, d: Digest, now: Time): (Db, Result<int, Error>) {
    if d.bytes == [] || IsZero(now) then (db, Err(Input))
    else
      var (invitations, r) := Redemption(db.invitations, d, now);
      match r
      case Err(e) => (db.(invitations := invitations), Err(e))
      case Ok(user) =>
        if user in db.users then (WithStatus(db.(invitations := invitations), user, PasswordChangeRequired), Ok(user))
        else (db.(invitations := invitations), Ok(user))
  }

  ghost function Reissue(db: Db, user: int, issuedBy: int, d: Digest, expiresAt: Time): Result<Db, Error> {
    match InsertGrant(SupersedePending(db.invitations, user), db.users, d, user, Some(issuedBy), expiresAt)
    case Err(e) => Err(e)
    case Ok(invitations) => Ok(db.(invitations := invitations))
  }

  ghost function ResendInvitation(db: Db, user: int, issuedBy: int, d: Digest,
                                  expiresAt: Time): (Db, Result<(), Error>) {
    if d.bytes == [] || IsZero(expiresAt) || issuedBy == 0 then (db, Err(Input))
    else if user !in db.users then (db, Err(NotFound))
    else if !db.users[user].status.Invited? && !db.users[user].status.Expired? then (db, Err(InvalidTransition))
    else match Reissue(db, user, issuedBy, d, expiresAt)
      case Err(e) => (db, Err(e))
      case Ok(mid) => (WithStatus(mid, user, Invited), Ok(()))
  }

  ghost function AdminReset(db: Db, user: int, issuedBy: int, d: Digest, expiresAt: Time,
                            now: Time): (Db, Result<(), Error>) {
    if d.bytes == [] || IsZero(expiresAt) || IsZero(now) || issuedBy == 0 then (db, Err(Input))
    else if user !in db.users then (db, Err(NotFound))
    else if db.users[user].status !in {Active, Suspended, PasswordChangeRequired} then (db, Err(InvalidTransition))
    else match Reissue(db, user, issuedBy, d, expiresAt)
      case Err(e) => (db, Err(e))
      case Ok(mid) =>
        var u := db.users[user].(status := PasswordChangeRequired, passwordHash := None);
        (mid.(users := db.users[user := u], sessions := RevokeAll(db.sessions, user, Revocation(now, PasswordReset))),
         Ok(()))
  }

  // Operations: lifecycle.go

  /** `Suspend` and `Disable`. */
  function TransitionAndRevoke(db: Db, user: int, to: AccountState, reason: Reason,
                               now: Time): (Db, Result<(), Error>) {
    if IsZero(now) then (db, Err(Input))
    else if user !in db.users then (db, Err(NotFound))
    else if !AllowedTransition(db.users[user].status, to) then (db, Err(InvalidTransition))
    else (WithStatus(db, user, to).(sessions := RevokeAll(db.sessions, user, Revocation(now, reason))), Ok(()))
  }

  /** An unexpired pending invitation still stands for an account that never got as far as a password. */
  ghost predicate InvitationStands(g: Grants, user: int, now: Time) {
    exists d :: PendingFor(g, d, user) && now < g[d].expiresAt
  }

  ghost function RestoreTarget(db: Db, user: int, now: Time): AccountState
    requires user in db.users
  {
    if db.users[user].passwordHash.Some? then Active
    else if InvitationStands(db.invitations, user, now) then Invited
    else Expired
  }

  ghost function Restore(db: Db, user: int, now: Time): (Db, Result<AccountState, Error>) {
    if IsZero(now) then (db, Err(Input))
    else if user !in db.users then (db, Err(NotFound))
    else if !db.users[user].status.Suspended? && !db.users[user].status.Disabled? then (db, Err(InvalidTransition))
    else
      var target := RestoreTarget(db, user, now);
      (WithStatus(db, user, target), Ok(target))
  }

  /** Answers with how many sessions it ended. */
  function Revoke(db: Db, user: int, now: Time): (Db, Result<nat, Error>) {
    RevokeAllSessionsForUser(db, user, Some(AdminRevoke), now)
  }

  function ChangeRole(db: Db, user: int, role: Option<Role>, scope: Option<Scope>): (Db, Result<(Role, Scope), Error>) {
    if role.None? || scope.None? then (db, Err(Input))
    else if user !in db.users then (db, Err(NotFound))
    else (db.(users := db.users[user := db.users[user].(role := role.value, scope := scope.value)]),
          Ok((db.users[user].role, db.users[user].scope)))
  }

  // Operations: passwordresets.go

  ghost function UserWithEmail(users: map<int, User>, email: Email): (r: Option<int>)
    ensures r.Some? ==> r.value in users && users[r.value].email == email
    ensures r.None? ==> forall id :: id in users ==> users[id].email != email
  {
    if exists id :: id in users && users[id].email == email then
      var id :| id in users && users[id].email == email;
      Some(id)
    else None
  }

  /** An account that does not exist or may not reset looks the same as success to whoever asks: nothing was issued. */
  ghost function RequestPasswordReset(db: Db, email: Option<Email>, issuedBy: int, d: Digest,
                                      expiresAt: Time): (Db, Result<Option<int>, Error>) {
    if d.bytes == [] || IsZero(expiresAt) || email.None? then (db, Err(Input))
    else match UserWithEmail(db.users, email.value)
      case None => (db, Ok(None))
      case Some(user) =>
        if db.users[user].status !in {Active, PasswordChangeRequired} then (db, Ok(None))
        else match InsertGrant(SupersedePending(db.resets, user), db.users, d, user,
                               if issuedBy == 0 then None else Some(issuedBy), expiresAt)
          case Err(e) => (db, Err(e))
          case Ok(resets) => (db.(resets := resets), Ok(Some(user)))
  }

  function CompletePasswordReset(db: Db, d: Digest, hash: Hash, now: Time): (Db, Result<int, Error>) {
    if d.bytes == [] || hash.text == "" || IsZero(now) then (db, Err(Input))
    else
      var (resets, r) := Redemption(db.resets, d, now);
      match r
      case Err(e) => (db.(resets := resets), Err(e))
      case Ok(user) =>
        match SetPassword(db.(resets := resets), user, hash, {Active, PasswordChangeRequired})
        case Err(e) => (db, Err(e))
        case Ok(mid) =>
          match ActivateIfEligible(mid, user)
          case Err(e) => (db, Err(e))
          case Ok((after, _)) =>
            (after.(sessions := RevokeAll(db.sessions, user, Revocation(now, PasswordReset))), Ok(user))
  }

  // Operations: mfa.go

  function EnrollMFACredential(db: Db, user: int, passkey: bool, data: seq<Byte>): (Db, Result<AccountState, Error>) {
    if user == 0 || !passkey || !(0 < |data| <= MAX_CREDENTIAL_LEN) then (db, Err(Input))
    else if user !in db.users then (db, Err(NotFound))
    else if db.users[user].status !in {PasswordChangeRequired, Active} then (db, Err(InvalidTransition))
    else if Credential(user, data) in db.credentials then (db, Err(Conflict))
    else match ActivateIfEligible(db.(credentials := db.credentials + {Credential(user, data)}), user)
      case Err(e) => (db, Err(e))
      case Ok((after, status)) => (after, Ok(status))
  }

  // Operations: sessions.go

  predicate DigestTaken(s: Sessions, d: Digest) {
    exists id :: id in s && s[id].digest == d
  }

  function CreateSession(db: Db, user: int, d: Digest, hint: string, createdAt: Time, expiresAt: Time,
                         newId: int): (Db, Result<int, Error>) {
    if d.bytes == [] || IsZero(createdAt) || expiresAt <= createdAt then (db, Err(Input))
    else if user !in db.users || !db.users[user].status.Active? then (db, Err(AccountNotActive))
    else if |d.bytes| != DIGEST_LENGTH || |hint| > MAX_HINT_LEN then (db, Err(Input))
    else if DigestTaken(db.sessions, d) then (db, Err(Conflict))
    else (db.(sessions := db.sessions[newId := Session(user, d, hint, createdAt, createdAt, expiresAt, None, None)]),
          Ok(newId))
  }

  datatype Config = Config(idleTimeout: Time, absoluteLifetime: Time)

  predicate Usable(c: Config, s: Session, now: Time) {
    s.revoked.None? && now - s.lastSeenAt < c.idleTimeout && now < s.expiresAt
  }

  /** The session a digest resolves to: it must be usable and its owner active at this moment. */
  predicate Resolves(db: Db, d: Digest, c: Config, now: Time, id: int) {
    && id in db.sessions && db.sessions[id].digest == d && Usable(c, db.sessions[id], now)
    && db.sessions[id].userId in db.users && db.users[db.sessions[id].userId].status.Active?
  }

  /** What others may see of an account. */
  datatype View = View(id: int, email: Email, name: Name, role: Role, scope: Scope, status: AccountState)

  function ViewOf(id: int, u: User): View {
    View(id, u.email, u.name, u.role, u.scope, u.status)
  }

  /** A session and its owner, as one joined row shows them. */
  datatype Authorized = Authorized(id: int, session: Session, account: View)

  function MarkSessionMFAVerified(db: Db, id: int, now: Time): (Db, Result<(), Error>) {
    if IsZero(now) then (db, Err(Input))
    else if id !in db.sessions || db.sessions[id].revoked.Some? || db.sessions[id].expiresAt <= now then
      (db, Err(NotFound))
    else (db.(sessions := db.sessions[id := db.sessions[id].(mfaVerifiedAt := Some(now))]), Ok(()))
  }

  function TouchSession(db: Db, id: int, now: Time): (Db, Result<(), Error>) {
    if IsZero(now) then (db, Err(Input))
    else if id !in db.sessions || db.sessions[id].revoked.Some? then (db, Err(NotFound))
    else (db.(sessions := db.sessions[id := db.sessions[id].(lastSeenAt := now)]), Ok(()))
  }

  function RevokeSession(db: Db, id: int, reason: Option<Reason>, now: Time): (Db, Result<(), Error>) {
    if reason.None? || IsZero(now) then (db, Err(Input))
    else if id !in db.sessions || db.sessions[id].revoked.Some? then (db, Ok(()))
    else (db.(sessions := db.sessions[id := db.sessions[id].(revoked := Some(Revocation(now, reason.value)))]), Ok(()))
  }

  function RevokeAllSessionsForUser(db: Db, user: int, reason: Option<Reason>, now: Time): (Db, Result<nat, Error>) {
    if reason.None? || IsZero(now) then (db, Err(Input))
    else (db.(sessions := RevokeAll(db.sessions, user, Revocation(now, reason.value))),
          Ok(|Standing(db.sessions, user)|))
  }
}
