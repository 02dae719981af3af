/** Tokens are single-use and killed sessions stay dead, over every run. */
module IdentityTokens {
  import opened Prelude
  import opened Identity
  import opened T = IdentityTables
  import opened IdentityRuns
  import opened IdentityFrames
  import opened IdentitySafety
  import PasswordPolicy

  // Tokens

  predicate Spent(g: Grants, d: Digest) {
    d in g && !g[d].status.Pending?
  }

  /** In every state of every run each user has at most one pending invitation and at most one pending reset. */
  lemma AtMostOnePending(s: seq<World>, ops: seq<Op>, n: nat)
    requires IsRun(s, ops) && n < |s|
    ensures OnePending(s[n].db.invitations) && OnePending(s[n].db.resets)
  {
    hide IsRun, PasswordsBehindActive, ExpiredLapsed, OnePending, DigestsUnique, UniqueEmails;
    RunInv(s, ops, n);
  }

  /** A token row keeps its user and expiry through the run, and once used up never changes again. */
  lemma {:induction false} TokensPersist(s: seq<World>, ops: seq<Op>, i: nat, j: nat)
    requires IsRun(s, ops) && i <= j < |s|
    ensures GrantsLater(s[i].db.invitations, s[j].db.invitations) && GrantsLater(s[i].db.resets, s[j].db.resets)
  {
    hide Step, Enabled, PasswordsBehindActive, ExpiredLapsed, OnePending, DigestsUnique, UniqueEmails;
    if i < j {
      TokensPersist(s, ops, i, j - 1);
      assert Follows(s, ops, j - 1);
      RunInv(s, ops, j - 1);
      StepKeepsTokens(s[j - 1].db, ops[j - 1]);
    }
  }

  /** A redemption succeeds exactly on a pending, unexpired token. */
  lemma RedeemExactly(db: Db, d: Digest, now: Time)
    ensures T.RedeemInvitation(db, d, now).1.Ok? <==>
            d.bytes != [] && !IsZero(now) && d in db.invitations && db.invitations[d].status.Pending?
            && now < db.invitations[d].expiresAt
    ensures T.RedeemInvitation(db, d, now).1.Ok? ==> Spent(T.RedeemInvitation(db, d, now).0.invitations, d)
  {
  }

  /** A reset succeeds exactly on a pending, unexpired token of an account that may reset, with a well-formed hash. */
  lemma ResetExactly(db: Db, d: Digest, hash: Hash, now: Time)
    ensures T.CompletePasswordReset(db, d, hash, now).1.Ok? <==>
            && d.bytes != [] && hash.text != "" && !IsZero(now) && d in db.resets && db.resets[d].status.Pending?
            && now < db.resets[d].expiresAt
            && db.resets[d].userId in db.users
            && db.users[db.resets[d].userId].status in {Active, PasswordChangeRequired}
            && PasswordPolicy.AcceptedByColumn(hash.text)
    ensures T.CompletePasswordReset(db, d, hash, now).1.Ok? ==>
            Spent(T.CompletePasswordReset(db, d, hash, now).0.resets, d)
  {
    hide PasswordPolicy.AcceptedByColumn, HasCredential, RevokeAll;
  }

  /** An account an administrator may reset, a known issuer, and a token that is well formed and new. */
  predicate MayReset(db: Db, user: int, issuedBy: int, d: Digest, expiresAt: Time, now: Time) {
    && !IsZero(expiresAt) && !IsZero(now) && issuedBy != 0 && issuedBy in db.users
    && user in db.users && db.users[user].status in {Active, Suspended, PasswordChangeRequired}
    && |d.bytes| == 32 && d !in db.invitations
  }

  /**
   An administrative reset succeeds exactly then: the pending invitation is out of the way when the new one is inserted.
   */
  lemma AdminResetExactly(db: Db, user: int, issuedBy: int, d: Digest, expiresAt: Time, now: Time)
    ensures T.AdminReset(db, user, issuedBy, d, expiresAt, now).1.Ok? <==>
            MayReset(db, user, issuedBy, d, expiresAt, now)
  {
    hide RevokeAll, SupersedePending, SomePending;
    SupersedeEffect(db.invitations, user);
  }

  /** A reset refused for any reason but its own expiry leaves every table as it was, the token included. */
  lemma RefusedResetChangesNothing(db: Db, d: Digest, hash: Hash, now: Time)
    ensures var (after, r) := T.CompletePasswordReset(db, d, hash, now);
            match r
            case Ok(_) => true
            case Err(TokenExpired) =>
              after.users == db.users && after.sessions == db.sessions && after.invitations == db.invitations
            case Err(_) => after == db
  {
    hide PasswordPolicy.AcceptedByColumn, HasCredential, RevokeAll;
  }

  /** Single use: after a token was redeemed, every later redemption of it in the run is refused and changes nothing. */
  lemma InvitationWorksOnce(s: seq<World>, ops: seq<Op>, i: nat, j: nat, now: Time)
    requires IsRun(s, ops) && i < j < |s| && ops[i].RedeemInvitation?
    requires T.RedeemInvitation(s[i].db, ops[i].d, ops[i].now).1.Ok?
    ensures T.RedeemInvitation(s[j].db, ops[i].d, now).1.Err?
    ensures Step(s[j].db, Op.RedeemInvitation(ops[i].d, now)) == s[j].db
  {
    hide Enabled, Inv, T.RedeemInvitation;
    assert Follows(s, ops, i);
    RedeemExactly(s[i].db, ops[i].d, ops[i].now);
    SpentInvitationIsDead(s, ops, i + 1, j, ops[i].d, now);
  }

  lemma SpentInvitationIsDead(s: seq<World>, ops: seq<Op>, i: nat, j: nat, d: Digest, now: Time)
    requires IsRun(s, ops) && i <= j < |s| && Spent(s[i].db.invitations, d)
    ensures T.RedeemInvitation(s[j].db, d, now).1.Err?
    ensures Step(s[j].db, Op.RedeemInvitation(d, now)) == s[j].db
  {
    hide IsRun;
    TokensPersist(s, ops, i, j);
  }

  lemma ResetWorksOnce(s: seq<World>, ops: seq<Op>, i: nat, j: nat, hash: Hash, now: Time)
    requires IsRun(s, ops) && i < j < |s| && ops[i].CompletePasswordReset?
    requires T.CompletePasswordReset(s[i].db, ops[i].d, ops[i].hash, ops[i].now).1.Ok?
    ensures T.CompletePasswordReset(s[j].db, ops[i].d, hash, now).1.Err?
    ensures Step(s[j].db, Op.CompletePasswordReset(ops[i].d, hash, now)) == s[j].db
  {
    hide Step, Enabled, T.CompletePasswordReset, Inv;
    assert Follows(s, ops, i);
    CompletionSpends(s[i].db, ops[i]);
    TokensPersist(s, ops, i + 1, j);
    SpentResetIsDead(s[j].db, ops[i].d, hash, now);
  }

  lemma CompletionSpends(db: Db, op: Op)
    requires op.CompletePasswordReset? && T.CompletePasswordReset(db, op.d, op.hash, op.now).1.Ok?
    ensures Spent(Step(db, op).resets, op.d)
  {
    hide T.CompletePasswordReset;
    ResetExactly(db, op.d, op.hash, op.now);
  }

  lemma SpentResetIsDead(db: Db, d: Digest, hash: Hash, now: Time)
    requires Spent(db.resets, d)
    ensures T.CompletePasswordReset(db, d, hash, now).1.Err?
    ensures Step(db, Op.CompletePasswordReset(d, hash, now)) == db
  {
    hide PasswordPolicy.AcceptedByColumn, HasCredential, RevokeAll;
  }

  /** A resend or an administrative reset that succeeds. */
  ghost predicate Reissues(db: Db, op: Op) {
    match op
    case ResendInvitation(user, issuedBy, d, expiresAt) => T.ResendInvitation(db, user, issuedBy, d, expiresAt).1.Ok?
    case AdminReset(user, issuedBy, d, expiresAt, now) => T.AdminReset(db, user, issuedBy, d, expiresAt, now).1.Ok?
    case _ => false
  }

  lemma ReissueInserts(db: Db, op: Op)
    requires Reissues(db, op)
    ensures op.ResendInvitation? || op.AdminReset?
    ensures InsertGrant(SupersedePending(db.invitations, op.user), db.users, op.d, op.user, Some(op.issuedBy),
                        op.expiresAt) == Ok(Step(db, op).invitations)
  {
    hide InsertGrant, SupersedePending, RevokeAll;
  }

  /** A resend or an administrative reset makes every earlier invitation of the account fail forever. */
  lemma ReissueKillsEarlier(s: seq<World>, ops: seq<Op>, i: nat, j: nat, d: Digest, now: Time)
    requires IsRun(s, ops) && i < j < |s| && Reissues(s[i].db, ops[i])
    requires (ops[i].ResendInvitation? || ops[i].AdminReset?) && d in s[i].db.invitations
             && s[i].db.invitations[d].userId == ops[i].user
    ensures T.RedeemInvitation(s[j].db, d, now).1.Err?
    ensures Step(s[j].db, Op.RedeemInvitation(d, now)) == s[j].db
  {
    hide Step, Enabled, Inv, InsertGrant, SupersedePending, Reissues, T.RedeemInvitation;
    assert Follows(s, ops, i);
    var db, op := s[i].db, ops[i];
    ReissueInserts(db, op);
    SupersedeEffect(db.invitations, op.user);
    InsertEffect(SupersedePending(db.invitations, op.user), db.users, op.d, op.user, Some(op.issuedBy), op.expiresAt);
    PendingIsSome(SupersedePending(db.invitations, op.user), d, op.user);
    SpentInvitationIsDead(s, ops, i + 1, j, d, now);
  }

  // Sessions

  /** No digest of a session resolves to it, to any other session, under any configuration. */
  ghost predicate NeverResolves(db: Db, d: Digest, now: Time) {
    forall c: Config, id: int :: !Resolves(db, d, c, now, id)
  }

  lemma {:induction false} SessionsPersist(s: seq<World>, ops: seq<Op>, i: nat, j: nat)
    requires IsRun(s, ops) && i <= j < |s|
    ensures SessionsLater(s[i].db.sessions, s[j].db.sessions)
  {
    hide Step, Inv;
    if i < j {
      SessionsPersist(s, ops, i, j - 1);
      assert Follows(s, ops, j - 1);
      StepSessions(s[j - 1].db, ops[j - 1]);
    }
  }

  lemma UnusableNeverResolves(db: Db, id: int, now: Time)
    requires DigestsUnique(db.sessions) && id in db.sessions
    requires db.sessions[id].revoked.Some? || db.sessions[id].expiresAt <= now
    ensures NeverResolves(db, db.sessions[id].digest, now)
  {
  }

  lemma UniqueDigests(s: seq<World>, ops: seq<Op>, n: nat)
    requires IsRun(s, ops) && n < |s|
    ensures DigestsUnique(s[n].db.sessions)
  {
    hide IsRun, PasswordsBehindActive, ExpiredLapsed, OnePending, DigestsUnique, UniqueEmails;
    RunInv(s, ops, n);
  }

  /**
   Killed for good: every session an account had when it was suspended, disabled, reset or logged out everywhere fails
   to resolve at every time in every later state, even after the account is restored.
   */
  lemma KilledForGood(s: seq<World>, ops: seq<Op>, i: nat, j: nat, id: int, now: Time)
    requires IsRun(s, ops) && i < j < |s| && id in s[i].db.sessions
    requires RevokesAllOf(s[i].db, ops[i]).Some? && RevokesAllOf(s[i].db, ops[i]).value.0 == s[i].db.sessions[id].userId
    ensures NeverResolves(s[j].db, s[i].db.sessions[id].digest, now)
  {
    hide Step, Inv, Enabled, DigestsUnique, NeverResolves, RevokeAll;
    assert Follows(s, ops, i);
    BulkOps(s[i].db, ops[i]);
    BulkRevocation(s[i].db, ops[i]);
    var (user, r) := RevokesAllOf(s[i].db, ops[i]).value;
    RevokeAllEffect(s[i].db.sessions, user, r);
    SessionsPersist(s, ops, i + 1, j);
    UniqueDigests(s, ops, j);
    UnusableNeverResolves(s[j].db, id, now);
  }

  lemma BulkOps(db: Db, op: Op)
    requires RevokesAllOf(db, op).Some?
    ensures op.AdminReset? || op.Suspend? || op.Disable? || op.Revoke? || op.RevokeAllSessionsForUser?
            || op.CompletePasswordReset?
  {
  }

  /** No touching, and nothing else, makes a session resolve at or past the ceiling it was created with. */
  lemma NeverPastCeiling(s: seq<World>, ops: seq<Op>, i: nat, j: nat, id: int, now: Time)
    requires IsRun(s, ops) && i <= j < |s| && id in s[i].db.sessions && now >= s[i].db.sessions[id].expiresAt
    ensures NeverResolves(s[j].db, s[i].db.sessions[id].digest, now)
  {
    hide IsRun, DigestsUnique, NeverResolves;
    SessionsPersist(s, ops, i, j);
    UniqueDigests(s, ops, j);
    UnusableNeverResolves(s[j].db, id, now);
  }
}
