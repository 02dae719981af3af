/**
 Three things one might expect of the account tables that the store does not guarantee, and exactly which steps break
 each of them.
 */
module IdentityExceptions {
  import opened Prelude
  import opened Identity
  import opened T = IdentityTables
  import opened IdentityRuns
  import opened IdentityFrames
  import opened IdentitySafety
  import Tokens = IdentityTokens
  import PasswordPolicy

  // Only an invited account owns a pending invitation

  /**
   The comment at `RedeemInvitation` says that only an invited account owns a pending invitation. Suspending an invited
   account leaves its invitation pending, and redeeming it then takes the suspended account on.
   */
  lemma SuspendedOwnsPending(db: Db, user: int, d: Digest, now: Time, later: Time)
    requires user in db.users && db.users[user].status.Invited? && PendingFor(db.invitations, d, user)
    requires d.bytes != [] && !IsZero(now) && !IsZero(later) && later < db.invitations[d].expiresAt
    ensures var suspended := Step(db, Op.Suspend(user, now));
            && user in suspended.users && suspended.users[user].status.Suspended?
            && PendingFor(suspended.invitations, d, user)
            && var redeemed := Step(suspended, Op.RedeemInvitation(d, later));
               user in redeemed.users && redeemed.users[user].status.PasswordChangeRequired?
  {
    var suspended := TransitionAndRevoke(db, user, Suspended, AccountSuspended, now).0;
    assert suspended.invitations == db.invitations;
    assert T.RedeemInvitation(suspended, d, later).0.users[user].status.PasswordChangeRequired?;
  }

  /** What that comment says: whoever owns a pending invitation is invited. */
  ghost predicate OnlyInvitedPending(db: Db) {
    forall d :: d in db.invitations && db.invitations[d].status.Pending? ==> OwnerInvited(db, db.invitations[d].userId)
  }

  predicate OwnerInvited(db: Db, user: int) {
    user in db.users && db.users[user].status.Invited?
  }

  /**
   The step moves an invited account on without using its invitation up, or issues one to an account that is not
   invited.
   */
  ghost predicate Strands(db: Db, op: Op) {
    match op
    case Suspend(user, now) => !IsZero(now) && SomePending(db.invitations, user)
    case Disable(user, now) => !IsZero(now) && SomePending(db.invitations, user)
    case AdminReset(user, issuedBy, d, expiresAt, now) => Tokens.MayReset(db, user, issuedBy, d, expiresAt, now)
    case _ => false
  }

  /**
   A step keeps it that only invited accounts own pending invitations, if and only if it neither suspends or disables
   the owner of one nor is a successful administrative reset.
   */
  lemma OnlyInvitedPendingExactly(db: Db, op: Op)
    requires OnlyInvitedPending(db) && OnePending(db.invitations) && FreshIds(db, op)
    ensures OnlyInvitedPending(Step(db, op)) <==> !Strands(db, op)
  {
    hide Step, OnePending, SomePending, T.AdminReset;
    if Strands(db, op) {
      Stranded(db, op);
    } else {
      var after := Step(db, op);
      forall d | d in after.invitations && after.invitations[d].status.Pending?
        ensures OwnerInvited(after, after.invitations[d].userId)
      {
        StillInvited(db, op, d);
      }
    }
  }

  lemma Stranded(db: Db, op: Op)
    requires OnlyInvitedPending(db) && Strands(db, op)
    ensures !OnlyInvitedPending(Step(db, op))
  {
    hide Step, RevokeAll, SupersedePending, InsertGrant;
    if op.AdminReset? {
      Tokens.AdminResetExactly(db, op.user, op.issuedBy, op.d, op.expiresAt, op.now);
      ResetStrands(db, op);
    } else {
      var d :| PendingFor(db.invitations, d, op.user);
      assert OwnerInvited(db, db.invitations[d].userId);
      LifecycleStrands(db, op);
      var after := Step(db, op);
      assert d in after.invitations && !OwnerInvited(after, after.invitations[d].userId);
    }
  }

  lemma LifecycleStrands(db: Db, op: Op)
    requires (op.Suspend? || op.Disable?) && !IsZero(op.now) && OwnerInvited(db, op.user)
    ensures Step(db, op).invitations == db.invitations && !OwnerInvited(Step(db, op), op.user)
  {
    hide RevokeAll;
  }

  lemma ResetStrands(db: Db, op: Op)
    requires op.AdminReset? && T.AdminReset(db, op.user, op.issuedBy, op.d, op.expiresAt, op.now).1.Ok?
    ensures !OnlyInvitedPending(Step(db, op))
  {
    hide RevokeAll, SupersedePending, SomePending;
    var after := Step(db, op);
    assert op.d in after.invitations && after.invitations[op.d].status.Pending? && !OwnerInvited(after, op.user);
  }

  lemma RefusedReset(db: Db, op: Op)
    requires op.AdminReset? && !Strands(db, op)
    ensures Step(db, op) == db
  {
    hide Step, Tokens.MayReset, T.AdminReset;
    Tokens.AdminResetExactly(db, op.user, op.issuedBy, op.d, op.expiresAt, op.now);
    RefusedChangesNothing(db, op);
  }

  lemma StillInvited(db: Db, op: Op, d: Digest)
    requires OnlyInvitedPending(db) && OnePending(db.invitations) && FreshIds(db, op) && !Strands(db, op)
    requires d in Step(db, op).invitations && Step(db, op).invitations[d].status.Pending?
    ensures OwnerInvited(Step(db, op), Step(db, op).invitations[d].userId)
  {
    hide Step, InsertGrant, SupersedePending, Redemption, T.AdminReset, InvitationStands, HasCredential,
         Tokens.MayReset, RevokesAllOf, PasswordPolicy.AcceptedByColumn;
    var user := Step(db, op).invitations[d].userId;
    if op.AdminReset? {
      RefusedReset(db, op);
    } else {
      PendingWasPending(db, op, d);
      if PendingFor(db.invitations, d, user) {
        assert OwnerInvited(db, user);
        StepOnUser(db, op, user);
        if RedeemsFor(db, op, user) {
          RedeemMoves(db, op, user);
        }
      }
    }
  }

  /** Over a run it holds throughout, if and only if no step of it is one of those. */
  lemma {:induction false} OnlyInvitedPendingThroughout(s: seq<World>, ops: seq<Op>, n: nat)
    requires IsRun(s, ops) && n < |s| && OnlyInvitedPending(s[0].db)
    ensures (forall k :: 0 <= k <= n ==> OnlyInvitedPending(s[k].db)) <==>
            (forall k :: 0 <= k < n ==> !Strands(s[k].db, ops[k]))
  {
    hide Step, Strands, OnlyInvitedPending, PasswordsBehindActive, ExpiredLapsed, OnePending, DigestsUnique,
         UniqueEmails, Timely, FreshIds;
    if n > 0 {
      OnlyInvitedPendingThroughout(s, ops, n - 1);
      RunInv(s, ops, n - 1);
      assert Follows(s, ops, n - 1);
      if OnlyInvitedPending(s[n - 1].db) {
        OnlyInvitedPendingExactly(s[n - 1].db, ops[n - 1]);
      }
    }
  }

  // An active administrator has a second factor

  /** Every active administrator has enrolled a credential. */
  ghost predicate AdministratorsEnrolled(db: Db) {
    forall id :: id in db.users ==> Enrolled(db.credentials, id, db.users[id])
  }

  predicate Enrolled(credentials: set<Credential>, id: int, u: User) {
    u.status.Active? && RequiresMFA(u.role) ==> HasCredential(credentials, id)
  }

  /** The step makes someone without a credential an active administrator: by inserting, promoting or restoring one. */
  ghost predicate SkipsEnrolment(db: Db, op: Op) {
    match op
    case Bootstrap(a, counted, newId) => counted == 0 && MayInsert(db, a) && !HasCredential(db.credentials, newId)
    case ChangeRole(user, role, scope) =>
      && user in db.users && db.users[user].status.Active? && role.Some? && scope.Some? && RequiresMFA(role.value)
      && !HasCredential(db.credentials, user)
    case Restore(user, now) =>
      && !IsZero(now) && user in db.users && db.users[user].status in {Suspended, Disabled}
      && db.users[user].passwordHash.Some? && RequiresMFA(db.users[user].role) && !HasCredential(db.credentials, user)
    case _ => false
  }

  /** A step keeps every active administrator enrolled, if and only if it is none of those three. */
  lemma AdministratorsEnrolledExactly(db: Db, op: Op)
    requires AdministratorsEnrolled(db) && FreshIds(db, op)
    ensures AdministratorsEnrolled(Step(db, op)) <==> !SkipsEnrolment(db, op)
  {
    hide Step, SkipsEnrolment, HasCredential;
    var after := Step(db, op);
    if SkipsEnrolment(db, op) {
      Unenrolled(db, op);
    } else {
      forall id | id in after.users ensures Enrolled(after.credentials, id, after.users[id]) {
        StillEnrolled(db, op, id);
      }
    }
  }

  /** Making an active responder an administrator is enough to break it. */
  lemma PromotionSkipsEnrolment(u: User)
    requires u.status.Active? && u.role.Responder?
    ensures var db := Db(map[1 := u], map[], map[], map[], {});
            var promote := Op.ChangeRole(1, Some(SystemAdministrator), Some(u.scope));
            AdministratorsEnrolled(db) && !AdministratorsEnrolled(Step(db, promote))
  {
    var after := T.ChangeRole(Db(map[1 := u], map[], map[], map[], {}), 1, Some(SystemAdministrator), Some(u.scope)).0;
    assert 1 in after.users && !Enrolled(after.credentials, 1, after.users[1]);
  }

  lemma Unenrolled(db: Db, op: Op)
    requires SkipsEnrolment(db, op)
    ensures !AdministratorsEnrolled(Step(db, op))
  {
    hide HasCredential, PasswordPolicy.AcceptedByColumn, InvitationStands;
    var after := Step(db, op);
    var id := if op.Bootstrap? then op.newId else op.user;
    assert id in after.users && !Enrolled(after.credentials, id, after.users[id]);
  }

  lemma StillEnrolled(db: Db, op: Op, id: int)
    requires AdministratorsEnrolled(db) && FreshIds(db, op) && !SkipsEnrolment(db, op) && id in Step(db, op).users
    ensures Enrolled(Step(db, op).credentials, id, Step(db, op).users[id])
  {
    hide Step, HasCredential, PasswordPolicy.AcceptedByColumn, InvitationStands, RedeemsFor;
    StepCredentials(db, op);
    CredentialStays(db.credentials, Step(db, op).credentials, id);
    if id in db.users {
      assert Enrolled(db.credentials, id, db.users[id]);
      StepOnUser(db, op, id);
    } else {
      NewUsers(db, op, id);
      if op.Bootstrap? {
        BootstrapInserts(db, op, id);
      }
    }
  }

  lemma BootstrapInserts(db: Db, op: Op, id: int)
    requires op.Bootstrap? && id !in db.users && id in Step(db, op).users
    ensures T.Bootstrap(db, op.a, op.counted, op.newId).1.Ok? && id == op.newId
  {
    hide PasswordPolicy.AcceptedByColumn;
  }

  /** Over a run it holds throughout, if and only if no step of it is one of the three. */
  lemma {:induction false} AdministratorsEnrolledThroughout(s: seq<World>, ops: seq<Op>, n: nat)
    requires IsRun(s, ops) && n < |s| && AdministratorsEnrolled(s[0].db)
    ensures (forall k :: 0 <= k <= n ==> AdministratorsEnrolled(s[k].db)) <==>
            (forall k :: 0 <= k < n ==> !SkipsEnrolment(s[k].db, ops[k]))
  {
    hide Step, SkipsEnrolment, AdministratorsEnrolled, Inv, Timely, FreshIds;
    if n > 0 {
      AdministratorsEnrolledThroughout(s, ops, n - 1);
      assert Follows(s, ops, n - 1);
      if AdministratorsEnrolled(s[n - 1].db) {
        AdministratorsEnrolledExactly(s[n - 1].db, ops[n - 1]);
      }
    }
  }

  // An unrevoked session has an active owner

  ghost predicate SessionsBehindActive(db: Db) {
    forall id :: id in db.sessions && db.sessions[id].revoked.None? ==> OwnerActive(db, db.sessions[id].userId)
  }

  predicate OwnerActive(db: Db, user: int) {
    user in db.users && db.users[user].status.Active?
  }

  /** The step redeems an invitation whose owner, though active again, still has it, and is logged in. */
  ghost predicate LeavesSessions(db: Db, op: Op) {
    && op.RedeemInvitation? && op.d in db.invitations && RedeemsFor(db, op, db.invitations[op.d].userId)
    && exists id ::
         id in db.sessions && db.sessions[id].revoked.None? && db.sessions[id].userId == db.invitations[op.d].userId
  }

  /** A step keeps an active owner behind every unrevoked session, if and only if it is not such a redemption. */
  lemma SessionsBehindActiveExactly(db: Db, op: Op)
    requires SessionsBehindActive(db) && FreshIds(db, op)
    ensures SessionsBehindActive(Step(db, op)) <==> !LeavesSessions(db, op)
  {
    hide Step;
    var after := Step(db, op);
    if LeavesSessions(db, op) {
      var id :|
        id in db.sessions && db.sessions[id].revoked.None? && db.sessions[id].userId == db.invitations[op.d].userId;
      var user := db.sessions[id].userId;
      assert OwnerActive(db, user);
      RedeemMoves(db, op, user);
      SessionsUntouched(db, op);
      assert id in after.sessions && !OwnerActive(after, user);
    } else {
      forall id | id in after.sessions && after.sessions[id].revoked.None?
        ensures OwnerActive(after, after.sessions[id].userId) {
        StillActive(db, op, id);
      }
    }
  }

  /** Over a run it holds throughout, if and only if no step of it is such a redemption. */
  lemma {:induction false} SessionsBehindActiveThroughout(s: seq<World>, ops: seq<Op>, n: nat)
    requires IsRun(s, ops) && n < |s| && SessionsBehindActive(s[0].db)
    ensures (forall k :: 0 <= k <= n ==> SessionsBehindActive(s[k].db)) <==>
            (forall k :: 0 <= k < n ==> !LeavesSessions(s[k].db, ops[k]))
  {
    hide Step, LeavesSessions, SessionsBehindActive, Inv, Timely, FreshIds;
    if n > 0 {
      SessionsBehindActiveThroughout(s, ops, n - 1);
      assert Follows(s, ops, n - 1);
      if SessionsBehindActive(s[n - 1].db) {
        SessionsBehindActiveExactly(s[n - 1].db, ops[n - 1]);
      }
    }
  }

  // Such a redemption can come about: an administrative reset issues an invitation, the holder resets the password
  // instead and logs in, and then redeems the invitation after all.

  /** Account 1 alone, with an invitation from an administrative reset. */
  predicate WasReset(db: Db, u: User, d: Digest) {
    && 1 in db.users && db.users[1] == u.(status := PasswordChangeRequired, passwordHash := None)
    && d in db.invitations && db.invitations[d] == Grant(1, Pending, Some(1), 100, None)
    && (forall id :: id in db.users ==> id == 1) && db.resets == map[] && db.sessions == map[]
  }

  lemma ResetFirst(u: User, d: Digest)
    requires u.status.Active? && |d.bytes| == DIGEST_LENGTH
    ensures WasReset(Step(Db(map[1 := u], map[], map[], map[], {}), Op.AdminReset(1, 1, d, 100, 1)), u, d)
  {
    var g: Grants := map[];
    assert !SomePending(SupersedePending(g, 1), 1);
  }

  lemma ThenChoosePassword(db: Db, u: User, d: Digest, e: Digest, hash: Hash)
    requires WasReset(db, u, d) && u.role.Responder? && |e.bytes| == DIGEST_LENGTH
    requires hash.text != "" && PasswordPolicy.AcceptedByColumn(hash.text)
    ensures var asked := Step(db, Op.RequestPasswordReset(Some(u.email), 0, e, 100));
            var active := Step(asked, Op.CompletePasswordReset(e, hash, 2));
            OwnerActive(active, 1) && active.invitations == db.invitations && active.sessions == map[]
  {
    hide PasswordPolicy.AcceptedByColumn;
    assert UserWithEmail(db.users, u.email) == Some(1) by {
      assert 1 in db.users && db.users[1].email == u.email;
    }
    assert !SomePending(SupersedePending(db.resets, 1), 1);
    var asked := T.RequestPasswordReset(db, Some(u.email), 0, e, 100).0;
    assert PendingFor(asked.resets, e, 1) && asked.resets[e].expiresAt == 100 && asked.users == db.users
           && asked.sessions == map[];
    var active := T.CompletePasswordReset(asked, e, hash, 2).0;
    assert OwnerActive(active, 1);
  }

  lemma ThenLogInAndRedeem(db: Db, d: Digest, f: Digest)
    requires OwnerActive(db, 1) && d in db.invitations && db.invitations[d] == Grant(1, Pending, Some(1), 100, None)
    requires db.sessions == map[] && |d.bytes| == |f.bytes| == DIGEST_LENGTH
    ensures var loggedIn := Step(db, Op.CreateSession(1, f, "", 3, 100, 7));
            LeavesSessions(loggedIn, Op.RedeemInvitation(d, 4))
  {
    var loggedIn := T.CreateSession(db, 1, f, "", 3, 100, 7).0;
    assert 7 in loggedIn.sessions && loggedIn.sessions[7].userId == 1;
  }

  lemma RedeemingLeavesSession(u: User, d: Digest, e: Digest, f: Digest, hash: Hash)
    requires u.status.Active? && u.role.Responder? && |d.bytes| == |e.bytes| == |f.bytes| == DIGEST_LENGTH
    requires hash.text != "" && PasswordPolicy.AcceptedByColumn(hash.text)
    ensures var reset := Step(Db(map[1 := u], map[], map[], map[], {}), Op.AdminReset(1, 1, d, 100, 1));
            var asked := Step(reset, Op.RequestPasswordReset(Some(u.email), 0, e, 100));
            var active := Step(asked, Op.CompletePasswordReset(e, hash, 2));
            var loggedIn := Step(active, Op.CreateSession(1, f, "", 3, 100, 7));
            LeavesSessions(loggedIn, Op.RedeemInvitation(d, 4))
  {
    hide Step, LeavesSessions, OwnerActive, PasswordPolicy.AcceptedByColumn;
    ResetFirst(u, d);
    var reset := Step(Db(map[1 := u], map[], map[], map[], {}), Op.AdminReset(1, 1, d, 100, 1));
    ThenChoosePassword(reset, u, d, e, hash);
    var asked := Step(reset, Op.RequestPasswordReset(Some(u.email), 0, e, 100));
    ThenLogInAndRedeem(Step(asked, Op.CompletePasswordReset(e, hash, 2)), d, f);
  }

  lemma StillActive(db: Db, op: Op, id: int)
    requires SessionsBehindActive(db) && FreshIds(db, op) && !LeavesSessions(db, op)
    requires id in Step(db, op).sessions && Step(db, op).sessions[id].revoked.None?
    ensures OwnerActive(Step(db, op), Step(db, op).sessions[id].userId)
  {
    hide Step, HasCredential, PasswordPolicy.AcceptedByColumn, InvitationStands;
    var user := Step(db, op).sessions[id].userId;
    StepSessions(db, op);
    if id in db.sessions {
      assert OwnerActive(db, user);
      StepOnUser(db, op, user);
      if op.AdminReset? || op.Suspend? || op.Disable? {
        EndsSessions(db, op, id);
      }
    } else {
      NewSession(db, op);
      SessionsLeaveUsers(db, op);
    }
  }

  /**
   A session that outlives an operation which ends all of its owner's was spared because the operation was refused.
   */
  lemma EndsSessions(db: Db, op: Op, id: int)
    requires op.AdminReset? || op.Suspend? || op.Disable?
    requires id in db.sessions && id in Step(db, op).sessions && Step(db, op).sessions[id].revoked.None?
    ensures db.sessions[id].userId == op.user ==> Step(db, op).users == db.users
  {
    hide Step, RevokesAllOf, RevokeAll;
    BulkRevocation(db, op);
    match RevokesAllOf(db, op)
    case Some((user, r)) =>
      RevokeAllEffect(db.sessions, user, r);
      RevokesItsOwn(db, op);
    case None => RefusedChangesNothing(db, op);
  }

  lemma RevokesItsOwn(db: Db, op: Op)
    requires (op.AdminReset? || op.Suspend? || op.Disable?) && RevokesAllOf(db, op).Some?
    ensures RevokesAllOf(db, op).value.0 == op.user
  {
    hide T.AdminReset, TransitionAndRevoke;
  }

  lemma RefusedChangesNothing(db: Db, op: Op)
    requires (op.AdminReset? || op.Suspend? || op.Disable?) && RevokesAllOf(db, op).None?
    ensures Step(db, op) == db
  {
    hide InsertGrant, SupersedePending, RevokeAll;
  }
}
