/** Safety of the account lifecycle over whole runs: status, activation, tokens and sessions. */
module IdentitySafety {
  import opened Prelude
  import opened Identity
  import opened T = IdentityTables
  import opened IdentityRuns
  import opened IdentityFrames
  import PasswordPolicy

  /** The tables and the latest time any operation was given. */
  datatype World = World(db: Db, clock: Time)

  function When(op: Op): Option<Time> {
    match op
    case EstablishPassword(_, _, now) => Some(now)
    case RedeemInvitation(_, now) => Some(now)
    case AdminReset(_, _, _, _, now) => Some(now)
    case Suspend(_, now) => Some(now)
    case Disable(_, now) => Some(now)
    case Restore(_, now) => Some(now)
    case Revoke(_, now) => Some(now)
    case CompletePasswordReset(_, _, now) => Some(now)
    case MarkSessionMFAVerified(_, now) => Some(now)
    case TouchSession(_, now) => Some(now)
    case RevokeSession(_, _, now) => Some(now)
    case RevokeAllSessionsForUser(_, _, now) => Some(now)
    case _ => None
  }

  /** The clock never goes back. */
  predicate Timely(clock: Time, op: Op) {
    match When(op)
    case Some(now) => now >= clock
    case None => true
  }

  function Later(clock: Time, op: Op): Time {
    match When(op)
    case Some(now) => if now >= clock then now else clock
    case None => clock
  }

  ghost function Next(w: World, op: Op): World {
    World(Step(w.db, op), Later(w.clock, op))
  }

  predicate Enabled(w: World, op: Op) {
    FreshIds(w.db, op) && Timely(w.clock, op)
  }

  // The invariant

  ghost predicate PasswordsBehindActive(db: Db) {
    forall id :: id in db.users ==> ActiveHasPassword(db.users[id])
  }

  /** An expired account has no invitation left that could still be redeemed. */
  ghost predicate ExpiredLapsed(db: Db, clock: Time) {
    forall d :: d in db.invitations && db.invitations[d].status.Pending?
             && db.invitations[d].userId in db.users && db.users[db.invitations[d].userId].status.Expired?
             ==> db.invitations[d].expiresAt <= clock
  }

  ghost predicate Inv(w: World) {
    && PasswordsBehindActive(w.db) && ExpiredLapsed(w.db, w.clock)
    && OnePending(w.db.invitations) && OnePending(w.db.resets) && DigestsUnique(w.db.sessions)
    && UniqueEmails(w.db.users)
  }

  /** An account comes to be in two ways: invited and without a password, or bootstrapped with one. */
  lemma NewUsers(db: Db, op: Op, id: int)
    requires id !in db.users && id in Step(db, op).users
    ensures var u := Step(db, op).users[id];
            || (op.CreateUserAndInvite? && id == op.newId && u.status.Invited? && u.passwordHash.None?)
            || (op.Bootstrap? && id == op.newId && u.status.Active? && u.passwordHash == Some(op.a.hash))
  {
    hide InsertGrant, SupersedePending, RevokeAll, Redemption, InvitationStands, HasCredential, DigestTaken,
         PasswordPolicy.AcceptedByColumn;
  }

  lemma StepKeepsPasswords(db: Db, op: Op)
    requires PasswordsBehindActive(db) && FreshIds(db, op)
    ensures PasswordsBehindActive(Step(db, op))
  {
    hide Step, HasCredential, AllowedTransition, PasswordPolicy.AcceptedByColumn, RedeemsFor, InvitationStands;
    forall id | id in Step(db, op).users ensures ActiveHasPassword(Step(db, op).users[id]) {
      if id in db.users {
        StepOnUser(db, op, id);
      } else {
        NewUsers(db, op, id);
      }
    }
  }

  /** Only a restore makes an account expired, and then no invitation of it stands. */
  lemma BecomesExpired(db: Db, op: Op, id: int)
    requires id in db.users && FreshIds(db, op) && id in Step(db, op).users && Step(db, op).users[id].status.Expired?
    ensures db.users[id].status.Expired?
            || (op.Restore? && op.user == id && !InvitationStands(db.invitations, id, op.now))
  {
    hide Step, HasCredential, PasswordPolicy.AcceptedByColumn, RedeemsFor, InvitationStands;
    StepOnUser(db, op, id);
  }

  /**
   A pending invitation after a step was pending before it, or was issued by it to an account that is now invited, or
   reset.
   */
  lemma PendingWasPending(db: Db, op: Op, d: Digest)
    requires d in Step(db, op).invitations && Step(db, op).invitations[d].status.Pending?
    ensures var g := Step(db, op).invitations[d];
            (d in db.invitations && db.invitations[d] == g)
            || (g.userId in Step(db, op).users
                && Step(db, op).users[g.userId].status == (if op.AdminReset? then PasswordChangeRequired else Invited))
  {
    hide Step, InsertGrant, SupersedePending, Redemption;
    StepInvitations(db, op);
    var after := Step(db, op);
    if op.RedeemInvitation? {
      RedemptionEffect(db.invitations, op.d, op.now);
    } else if after.invitations != db.invitations {
      if op.ResendInvitation? || op.AdminReset? {
        SupersedeEffect(db.invitations, op.user);
        InsertEffect(SupersedePending(db.invitations, op.user), db.users, op.d, op.user, Some(op.issuedBy),
                     op.expiresAt);
      } else {
        InsertEffect(db.invitations, after.users, op.p.digest, op.newId, Some(op.p.createdBy), op.p.expiresAt);
      }
    }
  }

  lemma StandsFrom(g: Grants, d: Digest, user: int, now: Time)
    requires PendingFor(g, d, user) && !InvitationStands(g, user, now)
    ensures g[d].expiresAt <= now
  {
  }

  lemma StepKeepsExpiredLapsed(w: World, op: Op)
    requires ExpiredLapsed(w.db, w.clock) && Enabled(w, op)
    ensures ExpiredLapsed(Step(w.db, op), Later(w.clock, op))
  {
    hide Step, InvitationStands, Redemption;
    var db, after := w.db, Step(w.db, op);
    forall d | d in after.invitations && after.invitations[d].status.Pending?
               && after.invitations[d].userId in after.users && after.users[after.invitations[d].userId].status.Expired?
      ensures after.invitations[d].expiresAt <= Later(w.clock, op)
    {
      var user := after.invitations[d].userId;
      PendingWasPending(db, op, d);
      if user in db.users {
        BecomesExpired(db, op, user);
        if !db.users[user].status.Expired? {
          StandsFrom(db.invitations, d, user, op.now);
        }
      } else {
        NewUsers(db, op, user);
      }
    }
  }

  lemma StepKeepsTokens(db: Db, op: Op)
    requires OnePending(db.invitations) && OnePending(db.resets)
    ensures OnePending(Step(db, op).invitations) && OnePending(Step(db, op).resets)
    ensures GrantsLater(db.invitations, Step(db, op).invitations) && GrantsLater(db.resets, Step(db, op).resets)
  {
    hide Step, InsertGrant, SupersedePending, Redemption, OnePending, T.RequestPasswordReset;
    StepInvitations(db, op);
    StepResets(db, op);
    var after := Step(db, op);
    assert GrantsLater(db.invitations, db.invitations) && GrantsLater(db.resets, db.resets);
    if after.invitations != db.invitations {
      if op.RedeemInvitation? {
        RedemptionEffect(db.invitations, op.d, op.now);
      } else if op.ResendInvitation? || op.AdminReset? {
        SupersedeEffect(db.invitations, op.user);
        InsertEffect(SupersedePending(db.invitations, op.user), db.users, op.d, op.user, Some(op.issuedBy),
                     op.expiresAt);
      } else {
        InsertEffect(db.invitations, after.users, op.p.digest, op.newId, Some(op.p.createdBy), op.p.expiresAt);
      }
    }
    if after.resets != db.resets {
      if op.CompletePasswordReset? {
        RedemptionEffect(db.resets, op.d, op.now);
      } else {
        var user := T.RequestPasswordReset(db, op.email, op.issuer, op.d, op.expiresAt).1.value.value;
        SupersedeEffect(db.resets, user);
        InsertEffect(SupersedePending(db.resets, user), db.users, op.d, user,
                     if op.issuer == 0 then None else Some(op.issuer), op.expiresAt);
      }
    }
  }

  lemma NewEmailIsUnique(db: Db, op: Op, id: int, other: int)
    requires id !in db.users && id in Step(db, op).users && other in db.users
    ensures Step(db, op).users[id].email != db.users[other].email
  {
    hide InsertGrant, SupersedePending, RevokeAll, Redemption, InvitationStands, HasCredential, DigestTaken,
         PasswordPolicy.AcceptedByColumn;
    NewUsers(db, op, id);
  }

  lemma StepKeepsEmails(db: Db, op: Op)
    requires UniqueEmails(db.users) && FreshIds(db, op)
    ensures UniqueEmails(Step(db, op).users)
  {
    hide Step, HasCredential, AllowedTransition, PasswordPolicy.AcceptedByColumn, RedeemsFor, InvitationStands;
    var after := Step(db, op).users;
    forall i | i in db.users ensures i in after && after[i].email == db.users[i].email {
      StepOnUser(db, op, i);
    }
    forall i, j | i in after && j in after && after[i].email == after[j].email ensures i == j {
      if i !in db.users {
        NewUsers(db, op, i);
        if j in db.users {
          NewEmailIsUnique(db, op, i, j);
        } else {
          NewUsers(db, op, j);
        }
      } else if j !in db.users {
        NewUsers(db, op, j);
        NewEmailIsUnique(db, op, j, i);
      }
    }
  }

  /** Every operation, by anyone, keeps the invariant as long as the clock does not go back. */
  lemma StepKeepsInv(w: World, op: Op)
    requires Inv(w) && Enabled(w, op)
    ensures Inv(Next(w, op))
  {
    hide Step, PasswordsBehindActive, ExpiredLapsed, OnePending, DigestsUnique, UniqueEmails;
    StepKeepsPasswords(w.db, op);
    StepKeepsExpiredLapsed(w, op);
    StepKeepsTokens(w.db, op);
    StepSessions(w.db, op);
    StepKeepsEmails(w.db, op);
  }

  // Runs

  ghost predicate Follows(s: seq<World>, ops: seq<Op>, n: nat)
    requires n < |ops| && |s| == |ops| + 1
  {
    Enabled(s[n], ops[n]) && s[n + 1] == Next(s[n], ops[n])
  }

  /** Any interleaving of operations, from any tables that satisfy the invariant. */
  ghost predicate IsRun(s: seq<World>, ops: seq<Op>) {
    && |s| == |ops| + 1 && Inv(s[0])
    && forall n :: 0 <= n < |ops| ==> Follows(s, ops, n)
  }

  lemma {:induction false} RunInv(s: seq<World>, ops: seq<Op>, n: nat)
    requires IsRun(s, ops) && n < |s|
    ensures Inv(s[n])
  {
    hide Step, Inv, Enabled;
    if n > 0 {
      RunInv(s, ops, n - 1);
      assert Follows(s, ops, n - 1);
      StepKeepsInv(s[n - 1], ops[n - 1]);
    }
  }

  /**
   Every change of an account's status, in every run under a clock that never goes back, is in the transition matrix.
   */
  lemma StatusFollowsMatrix(s: seq<World>, ops: seq<Op>, n: nat, id: int)
    requires IsRun(s, ops) && n < |ops| && id in s[n].db.users
    ensures id in s[n + 1].db.users
    ensures var before, after := s[n].db.users[id].status, s[n + 1].db.users[id].status;
            before == after || AllowedTransition(before, after)
  {
    hide Step, PasswordsBehindActive, OnePending, DigestsUnique, AllowedTransition;
    RunInv(s, ops, n);
    assert Follows(s, ops, n);
    MatrixExactly(s[n].db, ops[n], id);
  }

  /**
   With a clock that goes back the matrix can be broken: restore at 10 finds a lapsed invitation, redeeming at 3 does
   not.
   */
  lemma ClockMustNotGoBack(u: User, d: Digest)
    requires u.status.Suspended? && u.passwordHash.None? && d.bytes != []
    ensures var db := Db(map[1 := u], map[d := Grant(1, Pending, Some(1), 5, None)], map[], map[], {});
            var restored := Step(db, Op.Restore(1, 10));
            var redeemed := Step(restored, Op.RedeemInvitation(d, 3));
            && 1 in restored.users && restored.users[1].status == Expired
            && 1 in redeemed.users && redeemed.users[1].status == PasswordChangeRequired
            && !AllowedTransition(Expired, PasswordChangeRequired)
  {
    var db := Db(map[1 := u], map[d := Grant(1, Pending, Some(1), 5, None)], map[], map[], {});
    assert !InvitationStands(db.invitations, 1, 10);
    var restored := T.Restore(db, 1, 10).0;
    assert restored.users[1].status == Expired && restored.invitations == db.invitations;
    assert T.RedeemInvitation(restored, d, 3).0.users[1].status == PasswordChangeRequired;
  }

  // Activation

  /** The account has been in the password-change-required state at or before state `n`. */
  ghost predicate WasRequired(s: seq<World>, n: nat, id: int)
    requires n < |s|
  {
    exists k :: 0 <= k <= n && id in s[k].db.users && s[k].db.users[id].status.PasswordChangeRequired?
  }

  lemma PasswordNeedsRequired(db: Db, op: Op, id: int)
    requires id in db.users && FreshIds(db, op) && id in Step(db, op).users
    requires var v := Step(db, op).users[id]; v.status.Active? || v.passwordHash.Some?
    ensures var u := db.users[id]; u.status.Active? || u.passwordHash.Some? || u.status.PasswordChangeRequired?
  {
    hide Step, HasCredential, AllowedTransition, PasswordPolicy.AcceptedByColumn, RedeemsFor, InvitationStands;
    StepOnUser(db, op, id);
  }

  /** The step from state `k` brought the account into being. */
  predicate CreatedAt(s: seq<World>, k: nat, id: int)
    requires k + 1 < |s|
  {
    id !in s[k].db.users && id in s[k + 1].db.users
  }

  /**
   No invited account is ever active, or has a password, without having been through password-change-required; and an
   active account has a password, however it came to be.
   */
  lemma {:induction false} ActiveWasRequired(s: seq<World>, ops: seq<Op>, k: nat, n: nat, id: int)
    requires IsRun(s, ops) && k < n < |s| && CreatedAt(s, k, id) && ops[k].CreateUserAndInvite? && id in s[n].db.users
    requires s[n].db.users[id].status.Active? || s[n].db.users[id].passwordHash.Some?
    ensures WasRequired(s, n, id)
    ensures s[n].db.users[id].status.Active? ==> s[n].db.users[id].passwordHash.Some?
  {
    hide Step, Enabled, ExpiredLapsed, OnePending, DigestsUnique, UniqueEmails;
    RunInv(s, ops, n);
    assert Follows(s, ops, n - 1);
    var before := s[n - 1].db;
    if k < n - 1 {
      AccountStays(s, ops, k + 1, n - 1, id);
      EnabledIsFresh(s[n - 1], ops[n - 1]);
      PasswordNeedsRequired(before, ops[n - 1], id);
      if before.users[id].status.Active? || before.users[id].passwordHash.Some? {
        ActiveWasRequired(s, ops, k, n - 1, id);
      }
    } else {
      NewUsers(before, ops[n - 1], id);
    }
  }

  /** No account is ever deleted. */
  lemma {:induction false} AccountStays(s: seq<World>, ops: seq<Op>, k: nat, n: nat, id: int)
    requires IsRun(s, ops) && k <= n < |s| && id in s[k].db.users
    ensures id in s[n].db.users
  {
    hide Step, Enabled, Inv;
    if k < n {
      AccountStays(s, ops, k, n - 1, id);
      assert Follows(s, ops, n - 1);
      EnabledIsFresh(s[n - 1], ops[n - 1]);
      StepOnUser(s[n - 1].db, ops[n - 1], id);
    }
  }

  lemma {:induction false} CreationOf(s: seq<World>, ops: seq<Op>, n: nat, id: int) returns (k: nat)
    requires IsRun(s, ops) && n < |s| && id !in s[0].db.users && id in s[n].db.users
    ensures k < n && CreatedAt(s, k, id)
  {
    hide IsRun;
    k := n - 1;
    if id in s[k].db.users {
      k := CreationOf(s, ops, k, id);
    }
  }

  /** State `n` is the first in which the account is active. */
  ghost predicate FirstActive(s: seq<World>, n: nat, id: int)
    requires n < |s|
  {
    && id in s[n].db.users && s[n].db.users[id].status.Active?
    && forall m :: 0 <= m < n && id in s[m].db.users ==> !s[m].db.users[id].status.Active?
  }

  /**
   The first time an account is active it has been in password-change-required if and only if it was created with an
   invitation. The other accounts are the bootstrapped ones, and they are active from the moment they exist.
   */
  lemma FirstActivation(s: seq<World>, ops: seq<Op>, n: nat, id: int)
    requires IsRun(s, ops) && n < |s| && id !in s[0].db.users && FirstActive(s, n, id)
    ensures exists k: nat :: k < n && CreatedAt(s, k, id)
    ensures forall k: nat :: k < n && CreatedAt(s, k, id) ==>
                      && (WasRequired(s, n, id) <==> ops[k].CreateUserAndInvite?)
                      && (ops[k].CreateUserAndInvite? || (ops[k].Bootstrap? && n == k + 1))
  {
    hide Follows, Inv, WasRequired, FirstActive;
    FirstIsActive(s, n, id);
    var created := CreationOf(s, ops, n, id);
    forall k: nat | k < n && CreatedAt(s, k, id)
      ensures WasRequired(s, n, id) <==> ops[k].CreateUserAndInvite?
      ensures ops[k].CreateUserAndInvite? || (ops[k].Bootstrap? && n == k + 1)
    {
      if ops[k].CreateUserAndInvite? {
        ActiveWasRequired(s, ops, k, n, id);
      } else {
        BootstrappedIsActive(s, ops, k, n, id);
      }
    }
  }

  lemma FirstIsActive(s: seq<World>, n: nat, id: int)
    requires n < |s| && FirstActive(s, n, id)
    ensures id in s[n].db.users && s[n].db.users[id].status.Active?
  {
  }

  lemma BootstrappedIsActive(s: seq<World>, ops: seq<Op>, k: nat, n: nat, id: int)
    requires IsRun(s, ops) && k < n < |s| && CreatedAt(s, k, id) && !ops[k].CreateUserAndInvite?
             && FirstActive(s, n, id)
    ensures ops[k].Bootstrap? && n == k + 1 && !WasRequired(s, n, id)
  {
    hide Step, Enabled, Inv;
    assert Follows(s, ops, k);
    NewUsers(s[k].db, ops[k], id);
    forall m | 0 <= m <= k ensures id !in s[m].db.users {
      if id in s[m].db.users {
        AccountStays(s, ops, m, k, id);
      }
    }
  }

  predicate EmailUnused(users: map<int, User>, email: Email) {
    forall id :: id in users ==> users[id].email != email
  }

  /** What the bootstrap asks of its input, and of the accounts there are when it inserts. */
  predicate MayInsert(db: Db, a: Administrator) {
    && a.email.Some? && a.name.Some? && PasswordPolicy.AcceptedByColumn(a.hash.text)
    && EmailUnused(db.users, a.email.value)
  }

  /** Given an up-to-date count, the bootstrap succeeds exactly on an empty table, with valid input. */
  lemma BootstrapExactly(db: Db, a: Administrator, newId: int)
    ensures T.Bootstrap(db, a, |db.users|, newId).1.Ok? <==>
            db.users == map[] && a.email.Some? && a.name.Some? && PasswordPolicy.AcceptedByColumn(a.hash.text)
  {
    hide PasswordPolicy.AcceptedByColumn;
  }

  /** After one bootstrap every later one with an up-to-date count is refused and changes nothing. */
  lemma BootstrapWorksOnce(s: seq<World>, ops: seq<Op>, i: nat, j: nat, a: Administrator, newId: int)
    requires IsRun(s, ops) && i < j < |s| && ops[i].Bootstrap?
    requires T.Bootstrap(s[i].db, ops[i].a, ops[i].counted, ops[i].newId).1.Ok?
    ensures var (after, r) := T.Bootstrap(s[j].db, a, |s[j].db.users|, newId);
            r.Err? && after == s[j].db
  {
    hide Enabled, Inv, PasswordPolicy.AcceptedByColumn;
    assert Follows(s, ops, i);
    AccountStays(s, ops, i + 1, j, ops[i].newId);
    BootstrapExactly(s[j].db, a, newId);
  }

  /** Some step from state `i` up to state `j` brings an account into being. */
  ghost predicate FilledBetween(s: seq<World>, i: nat, j: nat)
    requires j < |s|
  {
    exists k :: i <= k < j && Fills(s, k)
  }

  ghost predicate Fills(s: seq<World>, k: nat)
    requires k + 1 < |s|
  {
    exists id :: CreatedAt(s, k, id)
  }

  lemma {:induction false} FilledOrEmpty(s: seq<World>, ops: seq<Op>, i: nat, j: nat)
    requires IsRun(s, ops) && i <= j < |s| && s[i].db.users == map[]
    ensures s[j].db.users != map[] <==> FilledBetween(s, i, j)
  {
    hide Step, Enabled, Inv, Fills;
    if i < j {
      FilledOrEmpty(s, ops, i, j - 1);
      assert FilledBetween(s, i, j) <==> FilledBetween(s, i, j - 1) || Fills(s, j - 1);
      StepFills(s, ops, j - 1);
    }
  }

  lemma StepFills(s: seq<World>, ops: seq<Op>, k: nat)
    requires IsRun(s, ops) && k < |ops|
    ensures s[k + 1].db.users != map[] <==> s[k].db.users != map[] || Fills(s, k)
  {
    hide Step, Enabled, Inv;
    forall id | id in s[k].db.users ensures id in s[k + 1].db.users {
      AccountStays(s, ops, k, k + 1, id);
    }
    if !Fills(s, k) {
      forall id | id in s[k + 1].db.users ensures id in s[k].db.users {
        assert !CreatedAt(s, k, id);
      }
    }
  }

  /**
   A bootstrap that counts in state `i` and inserts in state `j` creates an account that is not the first, if and only
   if there was none when it counted, some step in between brought one into being, and its own input is valid and new.
   */
  lemma LaterBootstrapExactly(s: seq<World>, ops: seq<Op>, i: nat, j: nat, a: Administrator, newId: int)
    requires IsRun(s, ops) && i <= j < |s|
    ensures (T.Bootstrap(s[j].db, a, |s[i].db.users|, newId).1.Ok? && s[j].db.users != map[]) <==>
            (s[i].db.users == map[] && FilledBetween(s, i, j) && MayInsert(s[j].db, a))
  {
    hide IsRun, FilledBetween, PasswordPolicy.AcceptedByColumn;
    if s[i].db.users == map[] {
      FilledOrEmpty(s, ops, i, j);
    }
  }

  /** With a count that is out of date a second administrator is inserted. */
  lemma StaleCountBootstraps(u: User, a: Administrator)
    requires a.email.Some? && a.name.Some? && u.email != a.email.value && PasswordPolicy.AcceptedByColumn(a.hash.text)
    ensures var db := Db(map[1 := u], map[], map[], map[], {});
            var (after, r) := T.Bootstrap(db, a, 0, 2);
            r == Ok(2) && 2 in after.users && after.users[2].status.Active?
  {
  }

  lemma EnabledIsFresh(w: World, op: Op)
    requires Enabled(w, op)
    ensures FreshIds(w.db, op)
  {
  }

  /**
   An account leaves password-change-required for active only with a password and, for an administrator, a credential.
   */
  lemma ActivationGate(db: Db, op: Op, id: int)
    requires id in db.users && FreshIds(db, op) && id in Step(db, op).users
    requires db.users[id].status.PasswordChangeRequired? && Step(db, op).users[id].status.Active?
    ensures MayActivate(Step(db, op).credentials, id, Step(db, op).users[id])
  {
    hide Step, HasCredential, PasswordPolicy.AcceptedByColumn, RedeemsFor, InvitationStands;
    StepOnUser(db, op, id);
    StepCredentials(db, op);
    CredentialStays(db.credentials, Step(db, op).credentials, id);
  }

  lemma CredentialStays(c: set<Credential>, e: set<Credential>, id: int)
    requires c <= e
    ensures HasCredential(c, id) ==> HasCredential(e, id)
  {
    if HasCredential(c, id) {
      var x :| x in c && x.userId == id;
      assert x in e;
    }
  }
}
