/** What every operation on accounts, tokens and sessions achieves, and exactly when it does. */
module IdentityProgress {
  import opened Prelude
  import opened Identity
  import opened T = IdentityTables
  import opened IdentityRuns
  import opened IdentityFrames
  import opened IdentitySafety
  import Tokens = IdentityTokens
  import PasswordPolicy

  // The transition matrix, read by where a transition leads

  lemma MatrixByTarget(from: AccountState)
    ensures AllowedTransition(from, Active) <==> from == PasswordChangeRequired || from == Suspended || from == Disabled
    ensures AllowedTransition(from, Invited) <==> from == Suspended || from == Disabled || from == Expired
    ensures AllowedTransition(from, PasswordChangeRequired) <==> from != Expired
    ensures AllowedTransition(from, Suspended) <==> from != Suspended
    ensures AllowedTransition(from, Disabled) <==> from != Disabled
    ensures AllowedTransition(from, Expired) <==> from != Active && from != Expired
  {
  }

  // Passwords, second factors and activation

  /**
   Where a password-change-required account with a password belongs: active, unless a second factor is still missing.
   */
  function Eligible(credentials: set<Credential>, user: int, role: Role): AccountState {
    if (role == SystemAdministrator || role == DepartmentAdministrator) && !HasCredential(credentials, user)
      then PasswordChangeRequired else Active
  }

  lemma EstablishExactly(db: Db, user: int, hash: Hash, now: Time)
    ensures var (after, r) := T.EstablishPassword(db, user, hash, now);
            && (r.Ok? <==>
                && hash.text != "" && !IsZero(now) && user in db.users
                && db.users[user].status == PasswordChangeRequired
                && PasswordPolicy.AcceptedByColumn(hash.text))
            && (r.Ok? ==>
                  && r.value == Eligible(db.credentials, user, db.users[user].role)
                  && after == db.(users := after.users)
                  && after.users == db.users[user := db.users[user].(passwordHash := Some(hash), status := r.value)])
  {
    hide HasCredential, PasswordPolicy.AcceptedByColumn;
  }

  /** A completed reset sets the password, activates whom it can, and ends every session of the account. */
  lemma CompletionAchieves(db: Db, d: Digest, hash: Hash, now: Time)
    ensures var (after, r) := T.CompletePasswordReset(db, d, hash, now);
            r.Ok? ==>
              && d in db.resets && r.value == db.resets[d].userId && r.value in db.users && r.value in after.users
              && after.users[r.value] ==
                 db.users[r.value].(passwordHash := Some(hash),
                                    status := if db.users[r.value].status == Active then Active
                                              else Eligible(db.credentials, r.value, db.users[r.value].role))
              && after.sessions == RevokeAll(db.sessions, r.value, Revocation(now, PasswordReset))
              && after.credentials == db.credentials && after.invitations == db.invitations
  {
    hide HasCredential, PasswordPolicy.AcceptedByColumn, RevokeAll;
  }

  /** Enrolling goes through on an active account, or on one that has its password and then needs nothing more. */
  lemma EnrollExactly(db: Db, user: int, passkey: bool, data: seq<Byte>)
    ensures var (after, r) := T.EnrollMFACredential(db, user, passkey, data);
            && (r.Ok? <==>
                && user != 0 && passkey && 0 < |data| <= 4096 && user in db.users
                && (db.users[user].status == Active
                    || (db.users[user].status == PasswordChangeRequired && db.users[user].passwordHash.Some?))
                && Credential(user, data) !in db.credentials)
            && (r.Ok? ==>
                  && r.value == Active && after.credentials == db.credentials + {Credential(user, data)}
                  && after.users == db.users[user := db.users[user].(status := Active)])
  {
    var grown := db.credentials + {Credential(user, data)};
    assert HasCredential(grown, user) by {
      assert Credential(user, data) in grown;
    }
    hide HasCredential;
  }

  /** The answer of an operation that may activate the account, and the account it is about. */
  ghost function Activation(db: Db, op: Op): Option<int> {
    match op
    case EstablishPassword(user, hash, now) =>
      if T.EstablishPassword(db, user, hash, now).1.Ok? then Some(user) else None
    case EnrollMFACredential(user, passkey, data) =>
      if T.EnrollMFACredential(db, user, passkey, data).1.Ok? then Some(user) else None
    case CompletePasswordReset(d, hash, now) => (
      match T.CompletePasswordReset(db, d, hash, now).1
      case Ok(user) => Some(user)
      case Err(_) => None)
    case _ => None
  }

  /**
   The other half of the activation gate: whichever of the three goes through on an account in password-change-required
   leaves it active if and only if its role needs no second factor or it now holds one, and otherwise where it was.
   */
  lemma ActivatesExactly(db: Db, op: Op, user: int)
    requires Activation(db, op) == Some(user) && user in db.users && db.users[user].status.PasswordChangeRequired?
    ensures var after := Step(db, op);
            && user in after.users
            && (after.users[user].status.Active? <==>
                !RequiresMFA(after.users[user].role) || HasCredential(after.credentials, user))
            && (after.users[user].status.Active? || after.users[user].status.PasswordChangeRequired?)
  {
    hide T.EstablishPassword, T.EnrollMFACredential, T.CompletePasswordReset, PasswordPolicy.AcceptedByColumn;
    match op
    case EstablishPassword(u, hash, now) => EstablishExactly(db, u, hash, now);
    case EnrollMFACredential(u, passkey, data) =>
      EnrollExactly(db, u, passkey, data);
      assert Credential(u, data) in Step(db, op).credentials;
    case CompletePasswordReset(d, hash, now) => CompletionAchieves(db, d, hash, now);
  }

  // Lifecycle

  /**
   Suspending goes through on any account not suspended, disabling on any not disabled, and both end all its sessions.
   */
  lemma SuspendAndDisableExactly(db: Db, user: int, to: AccountState, reason: Reason, now: Time)
    requires to == Suspended || to == Disabled
    ensures var (after, r) := TransitionAndRevoke(db, user, to, reason, now);
            && (r.Ok? <==> !IsZero(now) && user in db.users && db.users[user].status != to)
            && (r.Ok? ==> after == db.(users := db.users[user := db.users[user].(status := to)],
                                       sessions := RevokeAll(db.sessions, user, Revocation(now, reason))))
            && (r.Err? ==> after == db)
  {
    hide RevokeAll;
  }

  /**
   Restoring goes through on a suspended or disabled account: to active if it has a password, whatever its role, else to
   invited if an unexpired invitation of it is pending, else to expired.
   */
  lemma RestoreExactly(db: Db, user: int, now: Time)
    ensures var (after, r) := T.Restore(db, user, now);
            && (r.Ok? <==>
                && !IsZero(now) && user in db.users
                && (db.users[user].status == Suspended || db.users[user].status == Disabled))
            && (r.Ok? ==>
                  && after == db.(users := db.users[user := db.users[user].(status := r.value)])
                  && (r.value == Active <==> db.users[user].passwordHash.Some?)
                  && (r.value == Invited <==>
                      && db.users[user].passwordHash.None?
                      && exists d :: d in db.invitations && db.invitations[d].userId == user
                                && db.invitations[d].status == Pending && now < db.invitations[d].expiresAt)
                  && (r.value == Active || r.value == Invited || r.value == Expired))
            && (r.Err? ==> after == db)
  {
    assert InvitationStands(db.invitations, user, now) <==>
           exists d :: d in db.invitations && db.invitations[d].userId == user
                  && db.invitations[d].status == Pending && now < db.invitations[d].expiresAt by {
      if d :| d in db.invitations && db.invitations[d].userId == user
              && db.invitations[d].status == Pending && now < db.invitations[d].expiresAt {
        assert PendingFor(db.invitations, d, user);
      }
    }
    hide InvitationStands;
  }

  lemma ChangeRoleExactly(db: Db, user: int, role: Option<Role>, scope: Option<Scope>)
    ensures var (after, r) := T.ChangeRole(db, user, role, scope);
            && (r.Ok? <==> role.Some? && scope.Some? && user in db.users)
            && (r.Ok? ==>
                  && r.value.0 == db.users[user].role && r.value.1 == db.users[user].scope
                  && user in after.users && after.users[user].role == role.value
                  && after.users[user].scope == scope.value
                  && after == db.(users := after.users) && after.users == db.users[user := after.users[user]]
                  && after.users[user] == db.users[user].(role := role.value, scope := scope.value))
            && (r.Err? ==> after == db)
  {
  }

  // Invitations

  /** The grant an operation issues: whose it is, under which digest, and until when it is good. */
  datatype Issue = Issue(user: int, digest: Digest, expiresAt: Time)

  ghost function Issued(db: Db, op: Op): Option<Issue> {
    match op
    case CreateUserAndInvite(p, newId) =>
      if T.CreateUserAndInvite(db, p, newId).1.Ok? then Some(Issue(newId, p.digest, p.expiresAt)) else None
    case ResendInvitation(user, issuedBy, d, expiresAt) =>
      if T.ResendInvitation(db, user, issuedBy, d, expiresAt).1.Ok? then Some(Issue(user, d, expiresAt)) else None
    case AdminReset(user, issuedBy, d, expiresAt, now) =>
      if T.AdminReset(db, user, issuedBy, d, expiresAt, now).1.Ok? then Some(Issue(user, d, expiresAt)) else None
    case _ => None
  }

  /** Creating goes through on valid input with an unused email, a known creator and a new digest. */
  lemma CreateExactly(db: Db, p: NewUser, newId: int)
    requires newId !in db.users && !SomePending(db.invitations, newId)
    ensures var (after, r) := T.CreateUserAndInvite(db, p, newId);
            && (r.Ok? <==>
                && p.email.Some? && p.name.Some? && p.role.Some? && p.scope.Some? && !IsZero(p.expiresAt)
                && |p.digest.bytes| == 32 && p.digest !in db.invitations
                && p.createdBy != 0 && (p.createdBy in db.users || p.createdBy == newId)
                && EmailUnused(db.users, p.email.value))
            && (r.Ok? ==>
                  && r.value == newId
                  && after == db.(users := after.users, invitations := after.invitations)
                  && after.users == db.users[newId := User(p.email.value, p.name.value, p.role.value, p.scope.value,
                                                           Invited, None, Some(p.createdBy))])
            && (r.Err? ==> after == db)
  {
    hide SomePending;
  }

  /** Resending goes through for an invited or expired account, with a known issuer and a new digest. */
  lemma ResendExactly(db: Db, user: int, issuedBy: int, d: Digest, expiresAt: Time)
    ensures var (after, r) := T.ResendInvitation(db, user, issuedBy, d, expiresAt);
            && (r.Ok? <==>
                && !IsZero(expiresAt) && issuedBy != 0 && issuedBy in db.users && user in db.users
                && (db.users[user].status == Invited || db.users[user].status == Expired)
                && |d.bytes| == 32 && d !in db.invitations)
            && (r.Ok? ==> after == db.(users := db.users[user := db.users[user].(status := Invited)],
                                       invitations := after.invitations))
            && (r.Err? ==> after == db)
  {
    hide SupersedePending, SomePending;
    SupersedeEffect(db.invitations, user);
  }

  /** An administrative reset takes password and sessions away until the new invitation is redeemed. */
  lemma AdminResetAchieves(db: Db, user: int, issuedBy: int, d: Digest, expiresAt: Time, now: Time)
    ensures var (after, r) := T.AdminReset(db, user, issuedBy, d, expiresAt, now);
            && (r.Ok? ==>
                  && user in db.users
                  && after.users == db.users[user := db.users[user].(status := PasswordChangeRequired,
                                                                     passwordHash := None)]
                  && after.sessions == RevokeAll(db.sessions, user, Revocation(now, PasswordReset)))
            && (r.Err? ==> after == db)
  {
    hide RevokeAll, SupersedePending, InsertGrant;
  }

  lemma IssuedIsPending(db: Db, op: Op)
    requires Issued(db, op).Some?
    ensures var i := Issued(db, op).value;
            && |i.digest.bytes| == 32 && i.digest in Step(db, op).invitations
            && Step(db, op).invitations[i.digest].userId == i.user
            && Step(db, op).invitations[i.digest].status == Pending
            && Step(db, op).invitations[i.digest].expiresAt == i.expiresAt
  {
    hide RevokeAll, SupersedePending, SomePending;
  }

  /** The step redeems the token, or issues another to the same account. */
  ghost predicate UsesUp(db: Db, op: Op, d: Digest, user: int) {
    || (op.RedeemInvitation? && op.d == d)
    || (Issued(db, op).Some? && Issued(db, op).value.user == user)
  }

  lemma RefusedIssueIsNothing(db: Db, op: Op)
    requires (op.CreateUserAndInvite? || op.ResendInvitation? || op.AdminReset?) && Issued(db, op).None?
    ensures Step(db, op) == db
  {
    hide InsertGrant, RevokeAll, SupersedePending;
  }

  lemma IssueInserts(db: Db, op: Op)
    requires Issued(db, op).Some?
    ensures var i := Issued(db, op).value;
            && i.digest !in db.invitations
            && forall e :: e in db.invitations && db.invitations[e].userId != i.user ==>
                 e in Step(db, op).invitations && Step(db, op).invitations[e] == db.invitations[e]
  {
    hide RevokeAll, SomePending;
  }

  lemma PendingStays(db: Db, op: Op, d: Digest)
    requires d in db.invitations && db.invitations[d].status.Pending? && !UsesUp(db, op, d, db.invitations[d].userId)
    ensures d in Step(db, op).invitations && Step(db, op).invitations[d] == db.invitations[d]
  {
    hide Step, Issued;
    if op.RedeemInvitation? {
      OtherTokenStays(db, op, d);
    } else if op.CreateUserAndInvite? || op.ResendInvitation? || op.AdminReset? {
      if Issued(db, op).Some? {
        IssueInserts(db, op);
      } else {
        RefusedIssueIsNothing(db, op);
      }
    } else {
      InvitationsUntouched(db, op);
    }
  }

  lemma OtherTokenStays(db: Db, op: Op, d: Digest)
    requires op.RedeemInvitation? && op.d != d && d in db.invitations
    ensures d in Step(db, op).invitations && Step(db, op).invitations[d] == db.invitations[d]
  {
  }

  lemma {:induction false} StaysPending(s: seq<World>, ops: seq<Op>, i: nat, j: nat, d: Digest)
    requires IsRun(s, ops) && i <= j < |s| && d in s[i].db.invitations && s[i].db.invitations[d].status.Pending?
    requires forall k :: i <= k < j ==> !UsesUp(s[k].db, ops[k], d, s[i].db.invitations[d].userId)
    ensures d in s[j].db.invitations && s[j].db.invitations[d] == s[i].db.invitations[d]
  {
    hide Step, Inv, Enabled, UsesUp;
    if i < j {
      StaysPending(s, ops, i, j - 1, d);
      assert Follows(s, ops, j - 1);
      PendingStays(s[j - 1].db, ops[j - 1], d);
    }
  }

  /**
   An invitation works until it is used: whatever else happens in a run, it is redeemed for its account at any time
   before the expiry it was issued with, unless it was redeemed or another was issued to the account before; from its
   expiry on the answer is that it has expired.
   */
  lemma InvitationWorksUntil(s: seq<World>, ops: seq<Op>, i: nat, j: nat, now: Time)
    requires IsRun(s, ops) && i < j < |s| && Issued(s[i].db, ops[i]).Some? && !IsZero(now)
    requires var g := Issued(s[i].db, ops[i]).value;
             forall k :: i < k < j ==> !UsesUp(s[k].db, ops[k], g.digest, g.user)
    ensures var g := Issued(s[i].db, ops[i]).value;
            T.RedeemInvitation(s[j].db, g.digest, now).1 == if now < g.expiresAt then Ok(g.user) else Err(TokenExpired)
  {
    hide Step, Inv, Enabled, UsesUp, Issued;
    assert Follows(s, ops, i);
    IssuedIsPending(s[i].db, ops[i]);
    StaysPending(s, ops, i + 1, j, Issued(s[i].db, ops[i]).value.digest);
  }

  /** What a redemption does in each case: use the token up and move the account on, mark it lapsed, or nothing. */
  lemma RedeemAnswers(db: Db, d: Digest, now: Time)
    requires d.bytes != [] && !IsZero(now)
    ensures var (after, r) := T.RedeemInvitation(db, d, now);
            match r
            case Ok(user) =>
              && d in db.invitations && user == db.invitations[d].userId && d in after.invitations
              && after.invitations ==
                 db.invitations[d := db.invitations[d].(status := Redeemed, redeemedAt := Some(now))]
              && after.users == (if user !in db.users then db.users
                                 else db.users[user := db.users[user].(status := PasswordChangeRequired)])
            case Err(TokenExpired) =>
              && d in db.invitations && d in after.invitations && after.invitations[d].status == Lapsed
              && (db.invitations[d].status == Lapsed
                  || (db.invitations[d].status == Pending && db.invitations[d].expiresAt <= now))
              && after == db.(invitations := db.invitations[d := db.invitations[d].(status := Lapsed)])
            case Err(e) =>
              && e == TokenInvalid && after == db
              && (d !in db.invitations || db.invitations[d].status == Redeemed
                  || db.invitations[d].status == Superseded)
  {
  }

  // Password resets

  /**
   A reset is issued exactly to an account that is active or in password-change-required; any other email gets the same
   answer with nothing issued.
   */
  lemma RequestExactly(db: Db, email: Option<Email>, issuedBy: int, d: Digest, expiresAt: Time)
    requires UniqueEmails(db.users)
    ensures var (after, r) := T.RequestPasswordReset(db, email, issuedBy, d, expiresAt);
            var asked := d.bytes != [] && !IsZero(expiresAt) && email.Some?;
            && (forall user :: user in db.users && asked && db.users[user].email == email.value ==>
                  if db.users[user].status == Active || db.users[user].status == PasswordChangeRequired then
                    (r == Ok(Some(user)) <==>
                     && |d.bytes| == 32 && d !in db.resets && (issuedBy == 0 || issuedBy in db.users))
                  else r == Ok(None))
            && (asked && EmailUnused(db.users, email.value) ==> r == Ok(None))
            && (!asked ==> r == Err(Input))
            && match r
               case Ok(Some(user)) =>
                 && user in db.users && db.users[user].email == email.value
                 && after == db.(resets := after.resets) && d in after.resets
                 && after.resets[d].userId == user && after.resets[d].status == Pending
                 && after.resets[d].expiresAt == expiresAt
                 && forall e :: e in db.resets ==>
                      && e in after.resets
                      && after.resets[e] == if db.resets[e].userId == user && db.resets[e].status == Pending
                                            then db.resets[e].(status := Superseded) else db.resets[e]
               case _ => after == db
  {
    hide SomePending;
    if email.Some? {
      match UserWithEmail(db.users, email.value)
      case Some(user) => SupersedeEffect(db.resets, user);
      case None =>
    }
  }

  ghost function IssuedReset(db: Db, op: Op): Option<Issue> {
    match op
    case RequestPasswordReset(email, issuer, d, expiresAt) => (
      match T.RequestPasswordReset(db, email, issuer, d, expiresAt).1
      case Ok(Some(user)) => Some(Issue(user, d, expiresAt))
      case _ => None)
    case _ => None
  }

  lemma IssuedResetIsPending(db: Db, op: Op)
    requires IssuedReset(db, op).Some?
    ensures var i := IssuedReset(db, op).value;
            && |i.digest.bytes| == 32 && i.digest !in db.resets && i.digest in Step(db, op).resets
            && Step(db, op).resets[i.digest] == Grant(i.user, Pending, Step(db, op).resets[i.digest].issuedBy,
                                                      i.expiresAt, None)
            && forall e :: e in db.resets && db.resets[e].userId != i.user ==>
                 e in Step(db, op).resets && Step(db, op).resets[e] == db.resets[e]
  {
    hide SomePending;
  }

  ghost predicate UsesUpReset(db: Db, op: Op, d: Digest, user: int) {
    || (op.CompletePasswordReset? && op.d == d)
    || (IssuedReset(db, op).Some? && IssuedReset(db, op).value.user == user)
  }

  lemma ResetStays(db: Db, op: Op, d: Digest)
    requires d in db.resets && db.resets[d].status.Pending? && !UsesUpReset(db, op, d, db.resets[d].userId)
    ensures d in Step(db, op).resets && Step(db, op).resets[d] == db.resets[d]
  {
    hide Step, IssuedReset;
    if op.RequestPasswordReset? {
      if IssuedReset(db, op).Some? {
        IssuedResetIsPending(db, op);
      } else {
        NoResetIssued(db, op);
      }
    } else if op.CompletePasswordReset? {
      OtherResetStays(db, op, d);
    } else {
      ResetsUntouched(db, op);
    }
  }

  lemma NoResetIssued(db: Db, op: Op)
    requires op.RequestPasswordReset? && IssuedReset(db, op).None?
    ensures Step(db, op) == db
  {
    hide InsertGrant, SupersedePending;
  }

  lemma OtherResetStays(db: Db, op: Op, d: Digest)
    requires op.CompletePasswordReset? && op.d != d && d in db.resets
    ensures d in Step(db, op).resets && Step(db, op).resets[d] == db.resets[d]
  {
    hide T.CompletePasswordReset;
    CompletionRedeems(db, op.d, op.hash, op.now);
  }

  lemma {:induction false} ResetStaysPending(s: seq<World>, ops: seq<Op>, i: nat, j: nat, d: Digest)
    requires IsRun(s, ops) && i <= j < |s| && d in s[i].db.resets && s[i].db.resets[d].status.Pending?
    requires forall k :: i <= k < j ==> !UsesUpReset(s[k].db, ops[k], d, s[i].db.resets[d].userId)
    ensures d in s[j].db.resets && s[j].db.resets[d] == s[i].db.resets[d]
  {
    hide Step, Inv, Enabled, UsesUpReset;
    if i < j {
      ResetStaysPending(s, ops, i, j - 1, d);
      assert Follows(s, ops, j - 1);
      ResetStays(s[j - 1].db, ops[j - 1], d);
    }
  }

  /**
   A reset token works until it is tried or another is issued, before its expiry and for an account that may reset.
   */
  lemma ResetWorksUntil(s: seq<World>, ops: seq<Op>, i: nat, j: nat, hash: Hash, now: Time)
    requires IsRun(s, ops) && i < j < |s| && IssuedReset(s[i].db, ops[i]).Some?
    requires !IsZero(now) && hash.text != "" && PasswordPolicy.AcceptedByColumn(hash.text)
    requires var g := IssuedReset(s[i].db, ops[i]).value;
             forall k :: i < k < j ==> !UsesUpReset(s[k].db, ops[k], g.digest, g.user)
    ensures var g := IssuedReset(s[i].db, ops[i]).value;
            var r := T.CompletePasswordReset(s[j].db, g.digest, hash, now).1;
            && (r.Ok? <==> && now < g.expiresAt && g.user in s[j].db.users
                           && s[j].db.users[g.user].status in {Active, PasswordChangeRequired})
            && (r.Ok? ==> r.value == g.user)
  {
    hide Step, Inv, Enabled, UsesUpReset, IssuedReset, T.CompletePasswordReset, PasswordPolicy.AcceptedByColumn;
    assert Follows(s, ops, i);
    IssuedResetIsPending(s[i].db, ops[i]);
    var g := IssuedReset(s[i].db, ops[i]).value;
    ResetStaysPending(s, ops, i + 1, j, g.digest);
    Tokens.ResetExactly(s[j].db, g.digest, hash, now);
    CompletionAchieves(s[j].db, g.digest, hash, now);
  }

  // Sessions

  /** A login goes through for an active account with a new digest. */
  lemma CreateSessionExactly(db: Db, user: int, d: Digest, hint: string, createdAt: Time, expiresAt: Time, newId: int)
    ensures var (after, r) := T.CreateSession(db, user, d, hint, createdAt, expiresAt, newId);
            && (r.Ok? <==>
                && !IsZero(createdAt) && createdAt < expiresAt && |d.bytes| == 32 && |hint| <= 200
                && user in db.users && db.users[user].status == Active
                && forall id :: id in db.sessions ==> db.sessions[id].digest != d)
            && (r.Ok? ==>
                  && r.value == newId
                  && after == db.(sessions := after.sessions)
                  && after.sessions ==
                     db.sessions[newId := Session(user, d, hint, createdAt, createdAt, expiresAt, None, None)])
            && (r.Err? ==> after == db)
  {
  }

  /** The step moves the session's last-seen time: a touch that is answered without an error. */
  predicate Touches(db: Db, op: Op, id: int) {
    op.TouchSession? && op.id == id && T.TouchSession(db, id, op.now).1.Ok?
  }

  predicate Verifies(db: Db, op: Op, id: int) {
    op.MarkSessionMFAVerified? && op.id == id && T.MarkSessionMFAVerified(db, id, op.now).1.Ok?
  }

  /** A touch reaches every unrevoked session, a second-factor mark only one that is not past its ceiling. */
  lemma TouchExactly(db: Db, id: int, now: Time)
    ensures T.TouchSession(db, id, now).1.Ok? <==> !IsZero(now) && id in db.sessions && db.sessions[id].revoked.None?
    ensures T.MarkSessionMFAVerified(db, id, now).1.Ok? <==>
            !IsZero(now) && id in db.sessions && db.sessions[id].revoked.None? && now < db.sessions[id].expiresAt
  {
  }

  /** Ending one session leaves the others alone, and one that has ended already keeps its first reason. */
  lemma RevokeSessionExactly(db: Db, id: int, reason: Option<Reason>, now: Time)
    ensures var (after, r) := T.RevokeSession(db, id, reason, now);
            && (r.Ok? <==> reason.Some? && !IsZero(now))
            && (r.Ok? && id in db.sessions && db.sessions[id].revoked.None? ==>
                  && after == db.(sessions := after.sessions)
                  && after.sessions ==
                     db.sessions[id := db.sessions[id].(revoked := Some(Revocation(now, reason.value)))])
            && (r.Err? || id !in db.sessions || db.sessions[id].revoked.Some? ==> after == db)
  {
  }

  /**
   A bulk revocation gives its time and reason to every unrevoked session of the account, and answers with their number.
   */
  lemma BulkRevokesExactly(s: Sessions, user: int, r: Revocation, id: int)
    requires id in s
    ensures RevokeAll(s, user, r)[id] ==
            if s[id].userId == user && s[id].revoked.None? then s[id].(revoked := Some(r)) else s[id]
  {
  }

  lemma RevokeAllForUserExactly(db: Db, user: int, reason: Option<Reason>, now: Time)
    ensures var (after, r) := T.RevokeAllSessionsForUser(db, user, reason, now);
            && (r.Ok? <==> reason.Some? && !IsZero(now))
            && (r.Ok? ==>
                  && after == db.(sessions := RevokeAll(db.sessions, user, Revocation(now, reason.value)))
                  && r.value ==
                     |set id | id in db.sessions && db.sessions[id].userId == user && db.sessions[id].revoked.None?|)
            && (r.Err? ==> after == db)
    ensures T.Revoke(db, user, now) == T.RevokeAllSessionsForUser(db, user, Some(AdminRevoke), now)
  {
    hide RevokeAll;
  }

  ghost predicate LogsIn(db: Db, op: Op, id: int) {
    op.CreateSession? && id !in db.sessions && id in Step(db, op).sessions
  }

  lemma LoginCreates(db: Db, op: Op, id: int)
    requires LogsIn(db, op, id)
    ensures Step(db, op).sessions[id] == Session(op.user, op.d, op.hint, op.createdAt, op.createdAt, op.expiresAt, None,
                                                 None)
  {
    NewSession(db, op);
  }

  /** When the session was last seen in the run: at its login in step `i`, or at the last touch before state `j`. */
  ghost function LastSeen(s: seq<World>, ops: seq<Op>, i: nat, j: nat, id: int): Time
    requires |s| == |ops| + 1 && i < j < |s| && ops[i].CreateSession?
  {
    if j == i + 1 then ops[i].createdAt
    else if Touches(s[j - 1].db, ops[j - 1], id) then ops[j - 1].now
    else LastSeen(s, ops, i, j - 1, id)
  }

  /** When the session's second factor was last verified, if ever. */
  ghost function LastVerified(s: seq<World>, ops: seq<Op>, i: nat, j: nat, id: int): Option<Time>
    requires |s| == |ops| + 1 && i < j < |s| && ops[i].CreateSession?
  {
    if j == i + 1 then None
    else if Verifies(s[j - 1].db, ops[j - 1], id) then Some(ops[j - 1].now)
    else LastVerified(s, ops, i, j - 1, id)
  }

  /** What one step does to the two times a session keeps. */
  lemma StepOnTimes(db: Db, op: Op, id: int)
    requires FreshIds(db, op) && id in db.sessions
    ensures id in Step(db, op).sessions
    ensures var x, y := db.sessions[id], Step(db, op).sessions[id];
            && y.lastSeenAt == (if Touches(db, op, id) then op.now else x.lastSeenAt)
            && y.mfaVerifiedAt == (if Verifies(db, op, id) then Some(op.now) else x.mfaVerifiedAt)
            && y.hint == x.hint
  {
    hide Step, RevokesAllOf, RevokeAll;
    if op.AdminReset? || op.Suspend? || op.Disable? || op.Revoke? || op.RevokeAllSessionsForUser?
      || op.CompletePasswordReset? {
      BulkRevocation(db, op);
      match RevokesAllOf(db, op) {
        case Some((user, r)) => BulkRevokesExactly(db.sessions, user, r, id);
        case None =>
      }
    } else if op.MarkSessionMFAVerified? || op.TouchSession? || op.RevokeSession? {
      OneSessionTimes(db, op, id);
    } else if op.CreateSession? {
      NewSession(db, op);
    } else {
      SessionsUntouched(db, op);
    }
  }

  lemma OneSessionTimes(db: Db, op: Op, id: int)
    requires id in db.sessions && (op.MarkSessionMFAVerified? || op.TouchSession? || op.RevokeSession?)
    ensures id in Step(db, op).sessions
    ensures var x, y := db.sessions[id], Step(db, op).sessions[id];
            && y.lastSeenAt == (if Touches(db, op, id) then op.now else x.lastSeenAt)
            && y.mfaVerifiedAt == (if Verifies(db, op, id) then Some(op.now) else x.mfaVerifiedAt)
            && y.hint == x.hint
  {
    hide T.Restore, T.ChangeRole, T.EstablishPassword, T.CreateUserAndInvite, T.RedeemInvitation, T.ResendInvitation,
         T.EnrollMFACredential, T.CreateSession, T.AdminReset, TransitionAndRevoke, T.CompletePasswordReset,
         T.RequestPasswordReset;
  }

  lemma {:induction false} TimesExactly(s: seq<World>, ops: seq<Op>, i: nat, j: nat, id: int)
    requires IsRun(s, ops) && i < j < |s| && LogsIn(s[i].db, ops[i], id)
    ensures id in s[j].db.sessions && ops[i].CreateSession?
    ensures var x := s[j].db.sessions[id];
            && x.userId == ops[i].user && x.digest == ops[i].d && x.expiresAt == ops[i].expiresAt
            && x.createdAt == ops[i].createdAt && x.hint == ops[i].hint
            && x.lastSeenAt == LastSeen(s, ops, i, j, id) && x.mfaVerifiedAt == LastVerified(s, ops, i, j, id)
  {
    hide Step, Inv, Touches, Verifies;
    assert Follows(s, ops, j - 1);
    if j == i + 1 {
      LoginCreates(s[i].db, ops[i], id);
    } else {
      TimesExactly(s, ops, i, j - 1, id);
      StepOnTimes(s[j - 1].db, ops[j - 1], id);
      StepSessions(s[j - 1].db, ops[j - 1]);
    }
  }

  /**
   A login is good exactly as long as it should be: in any later state of the run the session's digest resolves to it
   if and only if it was not revoked, it was last seen less than the idle timeout ago, its ceiling has not been reached,
   and its owner is active at that moment.
   */
  lemma ResolvesExactly(s: seq<World>, ops: seq<Op>, i: nat, j: nat, id: int, c: Config, now: Time)
    requires IsRun(s, ops) && i < j < |s| && LogsIn(s[i].db, ops[i], id)
    ensures ops[i].CreateSession? && id in s[j].db.sessions
    ensures Resolves(s[j].db, ops[i].d, c, now, id) <==>
            && s[j].db.sessions[id].revoked.None? && now - LastSeen(s, ops, i, j, id) < c.idleTimeout
            && now < ops[i].expiresAt
            && ops[i].user in s[j].db.users && s[j].db.users[ops[i].user].status == Active
  {
    hide IsRun, LogsIn, LastSeen, LastVerified;
    assert |s| == |ops| + 1 by { RunLength(s, ops); }
    TimesExactly(s, ops, i, j, id);
  }

  lemma RunLength(s: seq<World>, ops: seq<Op>)
    requires IsRun(s, ops)
    ensures |s| == |ops| + 1
  {
  }

  // The first administrator

  lemma BootstrapAchieves(db: Db, a: Administrator, counted: nat, newId: int)
    ensures var (after, r) := T.Bootstrap(db, a, counted, newId);
            && (r.Ok? <==> counted == 0 && MayInsert(db, a))
            && (r.Ok? ==>
                  && r.value == newId
                  && after == db.(users := db.users[newId := User(a.email.value, a.name.value, SystemAdministrator,
                                                                  Scope(""), Active, Some(a.hash), None)]))
            && (r.Err? ==> after == db)
  {
    hide PasswordPolicy.AcceptedByColumn;
  }
}
