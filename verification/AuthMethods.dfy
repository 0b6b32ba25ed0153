/** Credentials, SSO identities and auth-method locks: which sign-in paths stay open through every sequence of
    account operations. An account's password hash is modelled by whether it is set. */
module AuthMethods {
  import opened Common
  import opened Locks

  datatype Account = Account(hasPassword: bool, lock: Lock, admin: bool, verified: bool)

  datatype Identity = Identity(provider: nat, subject: nat)

  /** `admits` says whether a callback of a provider with an address comes through to the lookup of the account: the
      provider is in use, the address is one, and its domain is on the provider's list if there is one. */
  datatype Config = Config(requireVerification: bool, enforceSsoForAdmins: bool, admits: (nat, nat) -> bool)

  /** `emails` is the unique index on users.email, `identities` the table unique on (provider, subject), and
      `enforced` the users who belong to an organisation that enforces SSO. */
  datatype State = State(accounts: map<nat, Account>, emails: map<nat, nat>, identities: map<Identity, nat>,
                         enforced: set<nat>, next: nat)

  datatype Op =
    | Register(email: nat)
    | SsoLogin(id: Identity, email: nat, admitted: bool, emailVerified: bool, mayCreate: bool)
    | LinkIdentity(user: nat, id: Identity)
    | UnlinkIdentity(user: nat, provider: nat)
    | ResetPassword(user: nat)
    | MigrateToSso(user: nat)
    | MigrateToPassword(user: nat)
    | SetLock(user: nat, lock: Lock)
    | AdminUpdate(user: nat, admin: bool, verified: bool)
    | SetEnforced(user: nat, on: bool)
    | DeleteUser(user: nat)

  predicate HasIdentity(s: State, user: nat) {
    user in s.identities.Values
  }

  predicate HasProvider(s: State, user: nat, provider: nat) {
    exists id <- s.identities :: id.provider == provider && s.identities[id] == user
  }

  function SetAccount(s: State, user: nat, a: Account): State {
    s.(accounts := s.accounts[user := a])
  }

  /** New account with the next id; `identity` is linked to it when given. */
  function NewAccount(s: State, email: nat, a: Account, identity: Option<Identity>): State {
    s.(accounts := s.accounts[s.next := a], emails := s.emails[email := s.next], next := s.next + 1,
       identities := if identity.Some? then s.identities[identity.value := s.next] else s.identities)
  }

  /** Only with an address the provider may vouch for; then by linked identity first, by verified e-mail next, and as a
      new account last. */
  function SsoLoginStep(s: State, id: Identity, email: nat, admitted: bool, emailVerified: bool, mayCreate: bool): (State, bool) {
    if !admitted then (s, false)
    else if id in s.identities then
      var u := s.identities[id];
      if u in s.accounts && LockPermits(s.accounts[u].lock, true)
      then (SetAccount(s, u, s.accounts[u].(verified := true)), true)
      else (s, false)
    else if email in s.emails && s.emails[email] in s.accounts then
      var u := s.emails[email];
      if !emailVerified || !LockPermits(s.accounts[u].lock, true) then (s, false)
      else (SetAccount(s, u, s.accounts[u].(verified := true)).(identities := s.identities[id := u]), true)
    else if !mayCreate then (s, false)
    else (NewAccount(s, email, Account(false, AnyMethod, false, true), Some(id)), true)
  }

  function LinkStep(s: State, user: nat, id: Identity): (State, bool) {
    if user !in s.accounts || (id in s.identities && s.identities[id] != user) || HasProvider(s, user, id.provider) then (s, false)
    else (s.(identities := s.identities[id := user]), true)
  }

  function UnlinkStep(s: State, user: nat, provider: nat): (State, bool) {
    if user !in s.accounts || !s.accounts[user].hasPassword || s.accounts[user].lock == SsoOnly || user in s.enforced then (s, false)
    else (s.(identities := map id | id in s.identities && !(s.identities[id] == user && id.provider == provider) :: s.identities[id]), true)
  }

  function SetLockStep(s: State, user: nat, lock: Lock): (State, bool) {
    if user !in s.accounts || (lock == SsoOnly && !HasIdentity(s, user)) || (lock == PasswordOnly && !s.accounts[user].hasPassword)
    then (s, false)
    else (SetAccount(s, user, s.accounts[user].(lock := lock)), true)
  }

  function Step(s: State, op: Op): (State, bool) {
    match op
    case Register(email) =>
      if email in s.emails then (s, false) else (NewAccount(s, email, Account(true, AnyMethod, false, false), None), true)
    case SsoLogin(id, email, admitted, emailVerified, mayCreate) =>
      SsoLoginStep(s, id, email, admitted, emailVerified, mayCreate)
    case LinkIdentity(user, id) => LinkStep(s, user, id)
    case UnlinkIdentity(user, provider) => UnlinkStep(s, user, provider)
    case ResetPassword(user) =>
      if user !in s.accounts then (s, false) else (SetAccount(s, user, s.accounts[user].(hasPassword := true)), true)
    case MigrateToSso(user) =>
      if user !in s.accounts || !HasIdentity(s, user) then (s, false)
      else (SetAccount(s, user, s.accounts[user].(hasPassword := false, lock := SsoOnly)), true)
    case MigrateToPassword(user) =>
      if user !in s.accounts then (s, false)
      else (SetAccount(s, user, s.accounts[user].(hasPassword := true, lock := PasswordOnly)), true)
    case SetLock(user, lock) => SetLockStep(s, user, lock)
    case AdminUpdate(user, admin, verified) =>
      if user !in s.accounts then (s, false)
      else (SetAccount(s, user, s.accounts[user].(admin := admin, verified := verified)), true)
    case SetEnforced(user, on) => (s.(enforced := if on then s.enforced + {user} else s.enforced - {user}), true)
    case DeleteUser(user) =>
      (s.(accounts := s.accounts - {user},
          emails := map e | e in s.emails && s.emails[e] != user :: s.emails[e],
          identities := map id | id in s.identities && s.identities[id] != user :: s.identities[id]), true)
  }

  function Run(s: State, ops: seq<Op>): State
    decreases |ops|
  {
    if ops == [] then s else Run(Step(s, ops[0]).0, ops[1..])
  }

  const EMPTY := State(map[], map[], map[], {}, 0)

  // ---- The gates of the two sign-in paths ----

  predicate SsoRequired(cfg: Config, s: State, user: nat)
    requires user in s.accounts
  {
    user in s.enforced || (cfg.enforceSsoForAdmins && s.accounts[user].admin)
  }

  /** Login lets a correct password through. */
  predicate PasswordOpen(cfg: Config, s: State, user: nat)
    requires user in s.accounts
  {
    var a := s.accounts[user];
    && LockPermits(a.lock, false) && a.hasPassword
    && !(cfg.requireVerification && !a.verified)
    && !(SsoRequired(cfg, s, user) && HasIdentity(s, user))
  }

  /** The account a callback is about: the owner of the identity, or else of the address. */
  function Addressee(s: State, id: Identity, email: nat): Option<nat> {
    if id in s.identities then Some(s.identities[id])
    else if email in s.emails then Some(s.emails[email])
    else None
  }

  /** Some callback signs this user in: for a linked identity, or with the account's address verified by the provider. */
  ghost predicate SsoOpen(cfg: Config, s: State, user: nat)
    requires user in s.accounts
  {
    exists id, email, verified ::
      && Addressee(s, id, email) == Some(user)
      && SsoLoginStep(s, id, email, cfg.admits(id.provider, email), verified, false).1
  }

  // ---- Invariant ----

  ghost predicate AccountOk(s: State, user: nat)
    requires user in s.accounts
  {
    var a := s.accounts[user];
    && (a.lock == SsoOnly ==> HasIdentity(s, user))
    && (a.lock == PasswordOnly ==> a.hasPassword)
    && (a.hasPassword || HasIdentity(s, user))
  }

  predicate HasAddress(s: State, user: nat) {
    exists e <- s.emails :: s.emails[e] == user
  }

  ghost predicate Inv(s: State) {
    && (forall u <- s.accounts :: u < s.next && AccountOk(s, u) && HasAddress(s, u))
    && (forall id <- s.identities :: s.identities[id] in s.accounts)
    && (forall e <- s.emails :: s.emails[e] in s.accounts)
  }

  /** Adding an identity never takes one away from another account, since it was unlinked or the same user's. */
  lemma AddIdentity(s: State, s': State, id: Identity, user: nat, other: nat)
    requires s'.identities == s.identities[id := user] && (id in s.identities ==> s.identities[id] == user)
    ensures HasIdentity(s', other) <==> HasIdentity(s, other) || other == user
  {
    assert id in s'.identities && s'.identities[id] == user;
    if HasIdentity(s, other) {
      var k :| k in s.identities && s.identities[k] == other;
      assert k in s'.identities && s'.identities[k] == other;
    }
  }

  lemma RemoveIdentities(s: State, s': State, other: nat)
    requires forall id <- s.identities :: s.identities[id] == other ==> id in s'.identities && s'.identities[id] == other
    ensures HasIdentity(s, other) ==> HasIdentity(s', other)
  {
    if HasIdentity(s, other) {
      var k :| k in s.identities && s.identities[k] == other;
      assert k in s'.identities;
    }
  }

  lemma SsoKeepsAccount(s: State, id: Identity, email: nat, admitted: bool, verified: bool, mayCreate: bool, u: nat)
    requires Inv(s) && u in SsoLoginStep(s, id, email, admitted, verified, mayCreate).0.accounts
    ensures var s' := SsoLoginStep(s, id, email, admitted, verified, mayCreate).0; u < s'.next && AccountOk(s', u)
  {
    var s' := SsoLoginStep(s, id, email, admitted, verified, mayCreate).0;
    if s'.identities != s.identities {
      AddIdentity(s, s', id, if email in s.emails then s.emails[email] else s.next, u);
    }
  }

  lemma LinkKeepsAccount(s: State, user: nat, id: Identity, u: nat)
    requires u in s.accounts && AccountOk(s, u)
    ensures var s' := LinkStep(s, user, id).0; u in s'.accounts && AccountOk(s', u)
  {
    var s' := LinkStep(s, user, id).0;
    if s'.identities != s.identities { AddIdentity(s, s', id, user, u); }
  }

  lemma UnlinkKeepsAccount(s: State, user: nat, provider: nat, u: nat)
    requires u in s.accounts && AccountOk(s, u)
    ensures var s' := UnlinkStep(s, user, provider).0; u in s'.accounts && AccountOk(s', u)
  {
    if u != user { RemoveIdentities(s, UnlinkStep(s, user, provider).0, u); }
  }

  lemma DeleteKeepsAccount(s: State, user: nat, u: nat)
    requires u in s.accounts && u != user && AccountOk(s, u)
    ensures AccountOk(Step(s, DeleteUser(user)).0, u)
  {
    RemoveIdentities(s, Step(s, DeleteUser(user)).0, u);
  }

  lemma StepKeepsAccount(s: State, op: Op, u: nat)
    requires Inv(s) && u in Step(s, op).0.accounts
    ensures u < Step(s, op).0.next && AccountOk(Step(s, op).0, u)
  {
    match op
    case SsoLogin(id, email, admitted, verified, mayCreate) =>
      SsoKeepsAccount(s, id, email, admitted, verified, mayCreate, u);
    case LinkIdentity(user, id) => LinkKeepsAccount(s, user, id, u);
    case UnlinkIdentity(user, provider) => UnlinkKeepsAccount(s, user, provider, u);
    case DeleteUser(user) => DeleteKeepsAccount(s, user, u);
    case _ =>
  }

  lemma StepKeepsAddress(s: State, op: Op, u: nat)
    requires Inv(s) && u in Step(s, op).0.accounts
    ensures HasAddress(Step(s, op).0, u)
  {
    var s' := Step(s, op).0;
    if u in s.accounts {
      var e :| e in s.emails && s.emails[e] == u;
      assert e in s'.emails && s'.emails[e] == u;
    } else {
      assert op.email in s'.emails && s'.emails[op.email] == u;
    }
  }

  lemma StepKeepsInv(s: State, op: Op)
    requires Inv(s)
    ensures Inv(Step(s, op).0)
  {
    forall u | u in Step(s, op).0.accounts
      ensures u < Step(s, op).0.next && AccountOk(Step(s, op).0, u) && HasAddress(Step(s, op).0, u)
    {
      StepKeepsAccount(s, op, u);
      StepKeepsAddress(s, op, u);
    }
  }

  lemma {:induction false} RunKeepsInv(s: State, ops: seq<Op>)
    requires Inv(s)
    ensures Inv(Run(s, ops))
    decreases |ops|
  {
    if ops == [] {
    } else {
      StepKeepsInv(s, ops[0]);
      RunKeepsInv(Step(s, ops[0]).0, ops[1..]);
    }
  }

  // ---- No sequence of operations strands a user, with the exact exceptions ----

  /** A provider may vouch for some address together with a linked identity, or for an address of the account. */
  ghost predicate ProviderAdmits(cfg: Config, s: State, user: nat) {
    || (exists id, email :: id in s.identities && s.identities[id] == user && cfg.admits(id.provider, email))
    || (exists provider, email :: email in s.emails && s.emails[email] == user && cfg.admits(provider, email))
  }

  /** The gates of Login behind the lock. */
  predicate PasswordRefused(cfg: Config, s: State, user: nat)
    requires user in s.accounts
  {
    || (HasIdentity(s, user) && SsoRequired(cfg, s, user))
    || (cfg.requireVerification && !s.accounts[user].verified)
  }

  /** Signed out of both paths: locked to a password that is refused, locked to SSO while no provider admits the user, or
      free to choose between no usable password and no provider. */
  ghost predicate Stranded(cfg: Config, s: State, user: nat)
    requires user in s.accounts
  {
    match s.accounts[user].lock
    case PasswordOnly => PasswordRefused(cfg, s, user)
    case SsoOnly => !ProviderAdmits(cfg, s, user)
    case AnyMethod =>
      !ProviderAdmits(cfg, s, user) && (!s.accounts[user].hasPassword || PasswordRefused(cfg, s, user))
  }

  /** In every reachable state each account has a credential that its lock admits, and some sign-in path passes
      all its gates if and only if the account is not stranded. */
  lemma SomePathStaysOpen(cfg: Config, ops: seq<Op>, user: nat)
    requires user in Run(EMPTY, ops).accounts
    ensures var s := Run(EMPTY, ops);
            && AccountOk(s, user)
            && (PasswordOpen(cfg, s, user) || SsoOpen(cfg, s, user) <==> !Stranded(cfg, s, user))
  {
    RunKeepsInv(EMPTY, ops);
    OpenExactly(cfg, Run(EMPTY, ops), user);
  }

  lemma OpenExactly(cfg: Config, s: State, user: nat)
    requires Inv(s) && user in s.accounts
    ensures PasswordOpen(cfg, s, user) || SsoOpen(cfg, s, user) <==> !Stranded(cfg, s, user)
  {
    SsoOpenExactly(cfg, s, user);
    assert AccountOk(s, user);
  }

  /** There is always an identity that is not linked yet. */
  lemma {:induction false} UnlinkedIdentity(ids: set<Identity>) returns (bound: nat)
    ensures forall id <- ids :: id.subject < bound
  {
    bound := 0;
    if ids != {} {
      var id :| id in ids;
      var rest := UnlinkedIdentity(ids - {id});
      bound := if rest > id.subject then rest else id.subject + 1;
    }
  }

  /** The SSO path is open exactly when the lock admits it and a provider admits the user. A provider that has verified the
      account's address does, without any identity. */
  lemma SsoOpenExactly(cfg: Config, s: State, user: nat)
    requires Inv(s) && user in s.accounts
    ensures SsoOpen(cfg, s, user) <==> LockPermits(s.accounts[user].lock, true) && ProviderAdmits(cfg, s, user)
  {
    if LockPermits(s.accounts[user].lock, true) && ProviderAdmits(cfg, s, user) {
      AdmittedSignsIn(cfg, s, user);
    }
  }

  lemma AdmittedSignsIn(cfg: Config, s: State, user: nat)
    requires user in s.accounts && LockPermits(s.accounts[user].lock, true) && ProviderAdmits(cfg, s, user)
    ensures SsoOpen(cfg, s, user)
  {
    if id, email :| id in s.identities && s.identities[id] == user && cfg.admits(id.provider, email) {
      IdentitySignsIn(s, user, id, email, true, false);
      assert Addressee(s, id, email) == Some(user);
    } else {
      var provider, email :| email in s.emails && s.emails[email] == user && cfg.admits(provider, email);
      var bound := UnlinkedIdentity(s.identities.Keys);
      var id := Identity(provider, bound);
      assert id !in s.identities;
      assert Addressee(s, id, email) == Some(user) && SsoLoginStep(s, id, email, true, true, false).1;
    }
  }

  /** A linked identity signs its user in exactly when the provider may vouch for the address it comes with and the lock
      admits SSO; whether that address is verified, or the account's, does not matter. */
  lemma IdentitySignsIn(s: State, user: nat, id: Identity, email: nat, admitted: bool, verified: bool)
    requires user in s.accounts && id in s.identities && s.identities[id] == user
    ensures SsoLoginStep(s, id, email, admitted, verified, false).1 <==> admitted && LockPermits(s.accounts[user].lock, true)
  {
  }

  /** The exception is reachable through permitted operations alone: register, link an identity, migrate back to
      password, and have the organisation start enforcing SSO. */
  lemma StrandedReachable(cfg: Config)
    ensures var s := Run(EMPTY, [Register(7), LinkIdentity(0, Identity(1, 1)), MigrateToPassword(0), SetEnforced(0, true)]);
            0 in s.accounts && !PasswordOpen(cfg, s, 0) && !SsoOpen(cfg, s, 0)
  {
    var ops := [Register(7), LinkIdentity(0, Identity(1, 1)), MigrateToPassword(0), SetEnforced(0, true)];
    var s1 := Step(EMPTY, ops[0]).0;
    var s2 := Step(s1, ops[1]).0;
    var s3 := Step(s2, ops[2]).0;
    var s4 := Step(s3, ops[3]).0;
    assert s1 == State(map[0 := Account(true, AnyMethod, false, false)], map[7 := 0], map[], {}, 1);
    assert s2 == s1.(identities := map[Identity(1, 1) := 0]);
    assert s4 == s2.(accounts := map[0 := Account(true, PasswordOnly, false, false)], enforced := {0});
    assert Run(s3, ops[3..]) == s4 by { assert ops[3..][1..] == []; }
    assert Run(s2, ops[2..]) == s4 by { assert ops[2..][1..] == ops[3..]; }
    assert Run(s1, ops[1..]) == s4 by { assert ops[1..][1..] == ops[2..]; }
    assert Identity(1, 1) in s4.identities && s4.identities[Identity(1, 1)] == 0;
    PasswordLocked(cfg, s4, 0);
  }

  /** A lock to the password shuts SSO for good. */
  lemma PasswordLocked(cfg: Config, s: State, user: nat)
    requires user in s.accounts && s.accounts[user].lock == PasswordOnly
    ensures !SsoOpen(cfg, s, user)
  {
  }

  /** So is the second: register and lock to the password, where addresses must be verified. */
  lemma UnverifiedStranded(cfg: Config)
    requires cfg.requireVerification
    ensures var s := Run(EMPTY, [Register(7), SetLock(0, PasswordOnly)]);
            0 in s.accounts && !PasswordOpen(cfg, s, 0) && !SsoOpen(cfg, s, 0)
  {
    var ops := [Register(7), SetLock(0, PasswordOnly)];
    var s1 := Step(EMPTY, ops[0]).0;
    var s2 := Step(s1, ops[1]).0;
    assert Run(s1, ops[1..]) == s2 by { assert ops[1..][1..] == []; }
    RunKeepsInv(EMPTY, ops);
    SsoOpenExactly(cfg, s2, 0);
  }

  /** And the third, without any lock: register, where addresses must be verified, with an address outside every
      provider's list. */
  lemma UnadmittedStranded(cfg: Config)
    requires cfg.requireVerification && forall provider :: !cfg.admits(provider, 7)
    ensures var s := Run(EMPTY, [Register(7)]);
            0 in s.accounts && s.accounts[0].lock == AnyMethod && !PasswordOpen(cfg, s, 0) && !SsoOpen(cfg, s, 0)
  {
    var ops := [Register(7)];
    var s := Step(EMPTY, ops[0]).0;
    assert Run(EMPTY, ops) == s by { assert ops[1..] == []; }
    RunKeepsInv(EMPTY, ops);
    SsoOpenExactly(cfg, s, 0);
  }

  /** And the fourth: an account that SSO created, once its address is taken off the list. */
  lemma ListChangeStrands(cfg: Config)
    requires forall provider, email :: !cfg.admits(provider, email)
    ensures var s := Run(EMPTY, [SsoLogin(Identity(1, 1), 7, true, true, true)]);
            0 in s.accounts && !PasswordOpen(cfg, s, 0) && !SsoOpen(cfg, s, 0)
  {
    var ops := [SsoLogin(Identity(1, 1), 7, true, true, true)];
    var s := Step(EMPTY, ops[0]).0;
    assert Run(EMPTY, ops) == s by { assert ops[1..] == []; }
    RunKeepsInv(EMPTY, ops);
    SsoOpenExactly(cfg, s, 0);
  }

  /** When clearing the lock, which always succeeds, lets a stranded user back in: one locked to the password, exactly when
      a provider admits the user; one locked to SSO, exactly when there is a password that is not refused; one without a
      lock, never. The administration handler passes locks on only when they are set, so of the deployed routes none
      clears one. */
  lemma ClearingLockExactly(cfg: Config, s: State, user: nat)
    requires Inv(s) && user in s.accounts && Stranded(cfg, s, user)
    ensures var (s', ok) := Step(s, SetLock(user, AnyMethod));
            && ok
            && (PasswordOpen(cfg, s', user) || SsoOpen(cfg, s', user) <==>
                  match s.accounts[user].lock
                  case PasswordOnly => ProviderAdmits(cfg, s, user)
                  case SsoOnly => s.accounts[user].hasPassword && !PasswordRefused(cfg, s, user)
                  case AnyMethod => false)
  {
    StepKeepsInv(s, SetLock(user, AnyMethod));
    OpenExactly(cfg, Step(s, SetLock(user, AnyMethod)).0, user);
    LockAside(cfg, s, user, AnyMethod);
  }

  /** Everything but the lock itself stays when it is set. */
  lemma LockAside(cfg: Config, s: State, user: nat, lock: Lock)
    requires user in s.accounts
    ensures var t := SetAccount(s, user, s.accounts[user].(lock := lock));
            && (ProviderAdmits(cfg, t, user) <==> ProviderAdmits(cfg, s, user))
            && (PasswordRefused(cfg, t, user) <==> PasswordRefused(cfg, s, user))
  {
  }

  /** Setting a lock succeeds exactly when the user holds the credential the lock demands. */
  lemma LockNeedsCredential(s: State, user: nat, lock: Lock)
    requires Inv(s) && user in s.accounts
    ensures var (s', ok) := Step(s, SetLock(user, lock));
            && (ok <==> AccountOk(s.(accounts := s.accounts[user := s.accounts[user].(lock := lock)]), user))
            && (ok ==> s'.accounts[user].lock == lock) && (!ok ==> s' == s)
  {
  }

  /** Migrating to SSO and back: each succeeds only with the credential it needs or creates, shuts the other path, and
      opens its own exactly when a provider admits the user, or the password is not refused. */
  lemma MigrationSwitchesPath(cfg: Config, s: State, user: nat)
    requires Inv(s) && user in s.accounts
    ensures var (s', ok) := Step(s, MigrateToSso(user));
            && (ok <==> HasIdentity(s, user))
            && (ok ==> !PasswordOpen(cfg, s', user) && (SsoOpen(cfg, s', user) <==> ProviderAdmits(cfg, s, user)))
    ensures var (s', ok) := Step(s, MigrateToPassword(user));
            && ok && !SsoOpen(cfg, s', user)
            && (PasswordOpen(cfg, s', user) <==> !PasswordRefused(cfg, s, user))
  {
    ToSso(cfg, s, user);
    StepKeepsInv(s, MigrateToPassword(user));
    SsoOpenExactly(cfg, Step(s, MigrateToPassword(user)).0, user);
  }

  lemma ToSso(cfg: Config, s: State, user: nat)
    requires Inv(s) && user in s.accounts
    ensures var s' := Step(s, MigrateToSso(user)).0;
            HasIdentity(s, user) ==> (SsoOpen(cfg, s', user) <==> ProviderAdmits(cfg, s, user))
  {
    var s' := Step(s, MigrateToSso(user)).0;
    StepKeepsInv(s, MigrateToSso(user));
    SsoOpenExactly(cfg, s', user);
    assert s'.identities == s.identities && s'.emails == s.emails;
  }

  /** The account methods over in-place tables; each performs the corresponding step. */
  class AccountService {
    const cfg: Config
    var accounts: map<nat, Account>
    var emails: map<nat, nat>
    var identities: map<Identity, nat>
    var enforced: set<nat>
    var next: nat

    ghost function View(): State
      reads this
    {
      State(accounts, emails, identities, enforced, next)
    }

    constructor (cfg: Config)
      ensures View() == EMPTY && this.cfg == cfg
    {
      this.cfg := cfg;
      accounts, emails, identities, enforced, next := map[], map[], map[], {}, 0;
    }

    /** ListByUser, as far as its length is tested. */
    method HasLinkedIdentity(user: nat) returns (found: bool)
      ensures found <==> HasIdentity(View(), user)
    {
      var rest := identities.Keys;
      found := false;
      while rest != {} && !found
        invariant rest <= identities.Keys
        invariant found ==> HasIdentity(View(), user)
        invariant HasIdentity(View(), user) && !found ==> exists id <- rest :: identities[id] == user
        decreases |rest|
      {
        var id :| id in rest;
        if identities[id] == user {
          assert id in identities.Keys;
          found := true;
        }
        rest := rest - {id};
      }
    }

    method LinkSsoIdentity(user: nat, id: Identity) returns (ok: bool)
      modifies this`identities
      ensures (View(), ok) == Step(old(View()), LinkIdentity(user, id))
    {
      if id in identities && identities[id] != user {
        return false;
      }
      if user !in accounts || exists other <- identities :: other.provider == id.provider && identities[other] == user {
        return false;
      }
      identities := identities[id := user];
      return true;
    }

    method UnlinkSsoIdentity(user: nat, provider: nat) returns (ok: bool)
      modifies this`identities
      ensures (View(), ok) == Step(old(View()), UnlinkIdentity(user, provider))
    {
      if user !in accounts || !accounts[user].hasPassword {
        return false;
      }
      if accounts[user].lock == SsoOnly {
        return false;
      }
      if user in enforced {
        return false;
      }
      identities := map id | id in identities && !(identities[id] == user && id.provider == provider) :: identities[id];
      return true;
    }

    method MigrateUserToSso(user: nat) returns (ok: bool)
      modifies this`accounts
      ensures (View(), ok) == Step(old(View()), MigrateToSso(user))
    {
      if user !in accounts {
        return false;
      }
      var linked := HasLinkedIdentity(user);
      if !linked {
        return false;
      }
      var a := accounts[user].(hasPassword := false);
      accounts := accounts[user := a.(lock := SsoOnly)];
      return true;
    }

    method MigrateUserToPassword(user: nat) returns (ok: bool)
      modifies this`accounts
      ensures (View(), ok) == Step(old(View()), MigrateToPassword(user))
    {
      if user !in accounts {
        return false;
      }
      var a := accounts[user].(hasPassword := true);
      accounts := accounts[user := a.(lock := PasswordOnly)];
      return true;
    }

    method SetAuthMethodLock(user: nat, lock: Lock) returns (ok: bool)
      modifies this`accounts
      ensures (View(), ok) == Step(old(View()), SetLock(user, lock))
    {
      if user !in accounts {
        return false;
      }
      match lock {
        case SsoOnly =>
          var linked := HasLinkedIdentity(user);
          if !linked { return false; }
        case PasswordOnly =>
          if !accounts[user].hasPassword { return false; }
        case AnyMethod =>
      }
      accounts := accounts[user := accounts[user].(lock := lock)];
      return true;
    }

    /** The gates of Login, in order, for a correct password. */
    method PasswordLogin(user: nat) returns (ok: bool)
      requires user in accounts
      ensures ok <==> PasswordOpen(cfg, View(), user)
    {
      var a := accounts[user];
      if !LockPermits(a.lock, false) || !a.hasPassword {
        return false;
      }
      if cfg.requireVerification && !a.verified {
        return false;
      }
      var linked := HasLinkedIdentity(user);
      if user in enforced && linked {
        return false;
      }
      if cfg.enforceSsoForAdmins && a.admin && linked {
        return false;
      }
      return true;
    }

    method SsoCallback(id: Identity, email: nat, emailVerified: bool, mayCreate: bool) returns (ok: bool)
      modifies this
      ensures (View(), ok)
           == Step(old(View()), SsoLogin(id, email, cfg.admits(id.provider, email), emailVerified, mayCreate))
    {
      if !cfg.admits(id.provider, email) {
        return false;
      }
      var user := next;
      if id in identities {
        user := identities[id];
        if user !in accounts || !LockPermits(accounts[user].lock, true) {
          return false;
        }
        accounts := accounts[user := accounts[user].(verified := true)];
        return true;
      }
      if email in emails && emails[email] in accounts {
        user := emails[email];
        if !emailVerified || !LockPermits(accounts[user].lock, true) {
          return false;
        }
        accounts := accounts[user := accounts[user].(verified := true)];
      } else {
        if !mayCreate {
          return false;
        }
        accounts := accounts[user := Account(false, AnyMethod, false, true)];
        emails := emails[email := user];
        next := next + 1;
      }
      identities := identities[id := user];
      return true;
    }
  }
}
