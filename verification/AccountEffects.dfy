/** What each account operation does to every account, address and identity, and where a linked identity can come from. */
module AccountEffects {
  import opened AuthMethods
  import opened Common
  import opened Locks

  // ---- Callbacks ----

  /** A callback with an identity nobody has linked, for an address somebody has: it signs that user in exactly when the
      provider may vouch for the address, has verified it, and the user is not locked to the password. It then links exactly
      that identity to exactly that account, which counts as verified from then on. Otherwise nothing changes. */
  lemma CallbackByAddressExactly(s: State, id: Identity, email: nat, admitted: bool, verified: bool, mayCreate: bool)
    requires Inv(s) && id !in s.identities && email in s.emails
    ensures var (t, ok) := Step(s, SsoLogin(id, email, admitted, verified, mayCreate));
            var u := s.emails[email];
            && (ok <==> admitted && verified && s.accounts[u].lock != PasswordOnly)
            && (ok ==> t == s.(accounts := s.accounts[u := s.accounts[u].(verified := true)],
                               identities := s.identities[id := u]))
            && (!ok ==> t == s)
  {
  }

  /** One with a linked identity: exactly when the provider may vouch for the address and its user is not locked to the
      password. The address plays no part beyond that, and no identity is added. */
  lemma CallbackByIdentityExactly(s: State, id: Identity, email: nat, admitted: bool, verified: bool, mayCreate: bool)
    requires Inv(s) && id in s.identities
    ensures var (t, ok) := Step(s, SsoLogin(id, email, admitted, verified, mayCreate));
            var u := s.identities[id];
            && (ok <==> admitted && s.accounts[u].lock != PasswordOnly)
            && (ok ==> t == s.(accounts := s.accounts[u := s.accounts[u].(verified := true)]))
            && (!ok ==> t == s)
  {
  }

  /** One with neither: exactly when the provider may vouch for the address and new accounts may be made. The new account
      has no password, no lock and no privilege, counts as verified, and has the address and the identity. */
  lemma CallbackCreatesExactly(s: State, id: Identity, email: nat, admitted: bool, verified: bool, mayCreate: bool)
    requires Inv(s) && id !in s.identities && email !in s.emails
    ensures var (t, ok) := Step(s, SsoLogin(id, email, admitted, verified, mayCreate));
            && (ok <==> admitted && mayCreate)
            && (ok ==> && s.next !in s.accounts
                       && t == s.(accounts := s.accounts[s.next := Account(false, AnyMethod, false, true)],
                                  emails := s.emails[email := s.next], identities := s.identities[id := s.next],
                                  next := s.next + 1))
            && (!ok ==> t == s)
  {
    assert forall u <- s.accounts :: u < s.next;
  }

  // ---- Identities ----

  /** The step links the identity to this user, who did not have it. */
  predicate Links(s: State, op: Op, id: Identity, u: nat) {
    id !in s.identities &&
    match op
    case LinkIdentity(user, i) =>
      && user == u && i == id && u in s.accounts
      && forall j :: j in s.identities && j.provider == id.provider ==> s.identities[j] != u
    case SsoLogin(i, email, admitted, verified, mayCreate) =>
      && i == id && admitted
      && (if email in s.emails then
            s.emails[email] == u && verified && u in s.accounts && s.accounts[u].lock != PasswordOnly
          else mayCreate && u == s.next)
    case _ => false
  }

  /** The step takes the identity away. */
  predicate Unlinks(s: State, op: Op, id: Identity) {
    id in s.identities &&
    match op
    case UnlinkIdentity(user, provider) =>
      && user == s.identities[id] && provider == id.provider && user in s.accounts && s.accounts[user].hasPassword
      && s.accounts[user].lock != SsoOnly && user !in s.enforced
    case DeleteUser(user) => user == s.identities[id]
    case _ => false
  }

  ghost predicate IdentityIs(s: State, op: Op, id: Identity, u: nat, t: State) {
    id in t.identities && t.identities[id] == u <==>
      (id in s.identities && s.identities[id] == u && !Unlinks(s, op, id)) || Links(s, op, id, u)
  }

  lemma CallbackIdentity(s: State, op: Op, id: Identity, u: nat)
    requires Inv(s) && op.SsoLogin?
    ensures IdentityIs(s, op, id, u, Step(s, op).0)
  {
    if op.id in s.identities {
      CallbackByIdentityExactly(s, op.id, op.email, op.admitted, op.emailVerified, op.mayCreate);
    } else if op.email in s.emails {
      CallbackByAddressExactly(s, op.id, op.email, op.admitted, op.emailVerified, op.mayCreate);
    } else {
      CallbackCreatesExactly(s, op.id, op.email, op.admitted, op.emailVerified, op.mayCreate);
    }
  }

  lemma LinkedIdentity(s: State, op: Op, id: Identity, u: nat)
    requires Inv(s) && op.LinkIdentity?
    ensures IdentityIs(s, op, id, u, Step(s, op).0)
  {
  }

  lemma PlainIdentity(s: State, op: Op, id: Identity, u: nat)
    requires Inv(s) && !op.SsoLogin? && !op.LinkIdentity?
    ensures IdentityIs(s, op, id, u, Step(s, op).0)
  {
  }

  /** Every step keeps every identity with its user, except that it links and takes away exactly these. */
  lemma IdentityAfter(s: State, op: Op, id: Identity, u: nat)
    requires Inv(s)
    ensures IdentityIs(s, op, id, u, Step(s, op).0)
  {
    match op
    case SsoLogin(_, _, _, _, _) => CallbackIdentity(s, op, id, u);
    case LinkIdentity(_, _) => LinkedIdentity(s, op, id, u);
    case _ => PlainIdentity(s, op, id, u);
  }

  // ---- Addresses ----

  /** An address belongs to the account it was registered with, by password or by SSO, until that account is deleted. */
  lemma AddressAfter(s: State, op: Op, e: nat, u: nat)
    requires Inv(s)
    ensures var t := Step(s, op).0;
            e in t.emails && t.emails[e] == u <==>
              || (e in s.emails && s.emails[e] == u && op != DeleteUser(u))
              || (e !in s.emails && u == s.next
                  && (op == Register(e)
                      || (op.SsoLogin? && op.email == e && op.id !in s.identities && op.admitted && op.mayCreate)))
  {
  }

  // ---- Accounts ----

  ghost predicate SignsIn(s: State, op: Op, u: nat) {
    && op.SsoLogin? && op.admitted && u in s.accounts && s.accounts[u].lock != PasswordOnly
    && (if op.id in s.identities then s.identities[op.id] == u
        else op.email in s.emails && s.emails[op.email] == u && op.emailVerified)
  }

  predicate Linked(s: State, u: nat) {
    exists id :: id in s.identities && s.identities[id] == u
  }

  /** An account keeps its password until it migrates to SSO, and gets one by a reset or by migrating back. */
  ghost predicate PasswordIs(s: State, op: Op, u: nat, has: bool)
    requires u in s.accounts
  {
    has <==>
      || op == ResetPassword(u) || op == MigrateToPassword(u)
      || (s.accounts[u].hasPassword && !(op == MigrateToSso(u) && Linked(s, u)))
  }

  /** Its lock is the last one set with the credential it demands, or that of the last migration. */
  ghost predicate LockIs(s: State, op: Op, u: nat, lock: Lock)
    requires u in s.accounts
  {
    if op == MigrateToPassword(u) then lock == PasswordOnly
    else if op == MigrateToSso(u) && Linked(s, u) then lock == SsoOnly
    else if op.SetLock? && op.user == u && (op.lock == SsoOnly ==> Linked(s, u))
            && (op.lock == PasswordOnly ==> s.accounts[u].hasPassword)
    then lock == op.lock
    else lock == s.accounts[u].lock
  }

  lemma HasIdentityMeans(s: State, u: nat)
    ensures HasIdentity(s, u) <==> Linked(s, u)
  {
  }

  ghost predicate AccountIs(s: State, op: Op, u: nat, t: State)
    requires u in s.accounts
  {
    && (u in t.accounts <==> op != DeleteUser(u))
    && (u in t.accounts ==>
          && PasswordIs(s, op, u, t.accounts[u].hasPassword) && LockIs(s, op, u, t.accounts[u].lock)
          && t.accounts[u].admin == (if op.AdminUpdate? && op.user == u then op.admin else s.accounts[u].admin)
          && (t.accounts[u].verified <==>
                SignsIn(s, op, u)
                || (if op.AdminUpdate? && op.user == u then op.verified else s.accounts[u].verified)))
  }

  lemma IdentityAccount(s: State, op: Op, u: nat)
    requires Inv(s) && u in s.accounts && op.SsoLogin? && op.id in s.identities
    ensures AccountIs(s, op, u, Step(s, op).0)
  {
    CallbackByIdentityExactly(s, op.id, op.email, op.admitted, op.emailVerified, op.mayCreate);
  }

  lemma AddressAccount(s: State, op: Op, u: nat)
    requires Inv(s) && u in s.accounts && op.SsoLogin? && op.id !in s.identities && op.email in s.emails
    ensures AccountIs(s, op, u, Step(s, op).0)
  {
    CallbackByAddressExactly(s, op.id, op.email, op.admitted, op.emailVerified, op.mayCreate);
  }

  lemma CreatedAccount(s: State, op: Op, u: nat)
    requires Inv(s) && u in s.accounts && op.SsoLogin? && op.id !in s.identities && op.email !in s.emails
    ensures AccountIs(s, op, u, Step(s, op).0)
  {
    CallbackCreatesExactly(s, op.id, op.email, op.admitted, op.emailVerified, op.mayCreate);
  }

  lemma CallbackAccount(s: State, op: Op, u: nat)
    requires Inv(s) && u in s.accounts && op.SsoLogin?
    ensures AccountIs(s, op, u, Step(s, op).0)
  {
    if op.id in s.identities {
      IdentityAccount(s, op, u);
    } else if op.email in s.emails {
      AddressAccount(s, op, u);
    } else {
      CreatedAccount(s, op, u);
    }
  }

  lemma CredentialAccount(s: State, op: Op, u: nat)
    requires u in s.accounts && (op.ResetPassword? || op.MigrateToSso? || op.MigrateToPassword?)
    ensures AccountIs(s, op, u, Step(s, op).0)
  {
    HasIdentityMeans(s, u);
  }

  lemma LockAccount(s: State, op: Op, u: nat)
    requires u in s.accounts && op.SetLock?
    ensures AccountIs(s, op, u, Step(s, op).0)
  {
    HasIdentityMeans(s, u);
  }

  lemma PlainAccount(s: State, op: Op, u: nat)
    requires Inv(s) && u in s.accounts && !op.SsoLogin?
    requires !(op.ResetPassword? || op.MigrateToSso? || op.MigrateToPassword? || op.SetLock?)
    ensures AccountIs(s, op, u, Step(s, op).0)
  {
  }

  /** What any step leaves of an account. */
  lemma AccountAfter(s: State, op: Op, u: nat)
    requires Inv(s) && u in s.accounts
    ensures AccountIs(s, op, u, Step(s, op).0)
  {
    if op.SsoLogin? {
      CallbackAccount(s, op, u);
    } else if op.SetLock? {
      LockAccount(s, op, u);
    } else if op.ResetPassword? || op.MigrateToSso? || op.MigrateToPassword? {
      CredentialAccount(s, op, u);
    } else {
      PlainAccount(s, op, u);
    }
  }

  /** New accounts come from a registration at a free address, with a password and unverified, or from a callback. */
  lemma NewAccountAfter(s: State, op: Op, u: nat)
    requires Inv(s) && u !in s.accounts
    ensures var t := Step(s, op).0;
            && (u in t.accounts <==>
                  && u == s.next
                  && ((op.Register? && op.email !in s.emails)
                      || (op.SsoLogin? && op.admitted && op.id !in s.identities && op.email !in s.emails && op.mayCreate)))
            && (u in t.accounts ==>
                  t.accounts[u] == if op.Register? then Account(true, AnyMethod, false, false)
                                   else Account(false, AnyMethod, false, true))
  {
  }

  /** Membership in an organization that enforces SSO is what it was last set to. */
  lemma EnforcedAfter(s: State, op: Op, u: nat)
    ensures var t := Step(s, op).0;
            u in t.enforced <==> if op.SetEnforced? && op.user == u then op.on else u in s.enforced
  {
  }

  // ---- The password path ----

  /** A correct password signs in exactly when the account has one and is not locked to SSO, its address is verified or need
      not be, and no linked identity meets a policy that asks for SSO: of an organization the user belongs to, or, for
      administrators, of the platform. */
  lemma PasswordExactly(cfg: Config, s: State, u: nat)
    requires u in s.accounts
    ensures var a := s.accounts[u];
            PasswordOpen(cfg, s, u) <==>
              (&& a.hasPassword && a.lock != SsoOnly && (cfg.requireVerification ==> a.verified)
               && (Linked(s, u) ==> u !in s.enforced && !(cfg.enforceSsoForAdmins && a.admin)))
  {
    HasIdentityMeans(s, u);
  }

  // ---- Where an identity comes from ----

  ghost predicate LinkedDuring(s: State, ops: seq<Op>, id: Identity, u: nat)
    decreases |ops|
  {
    ops != [] && (Links(s, ops[0], id, u) || LinkedDuring(Step(s, ops[0]).0, ops[1..], id, u))
  }

  /** Over any run: whoever has an identity at the end had it before, or some step linked it, that is the user's own request
      while signed in, a callback with an address the provider had verified, or the callback that created the account. */
  lemma {:induction false} IdentityOrigin(s: State, ops: seq<Op>, id: Identity, u: nat)
    requires Inv(s)
    ensures var t := Run(s, ops);
            id in t.identities && t.identities[id] == u ==>
              (id in s.identities && s.identities[id] == u) || LinkedDuring(s, ops, id, u)
    decreases |ops|
  {
    if ops == [] {
    } else {
      StepKeepsInv(s, ops[0]);
      IdentityAfter(s, ops[0], id, u);
      IdentityOrigin(Step(s, ops[0]).0, ops[1..], id, u);
    }
  }

  predicate Unverified(op: Op) {
    op.SsoLogin? && !op.emailVerified
  }

  /** So callbacks with unverified addresses, however many and whatever else happens short of the user's own requests, give
      an existing account no identity it did not have. */
  lemma {:induction false} UnverifiedNeverLinks(s: State, ops: seq<Op>, id: Identity, u: nat)
    requires Inv(s) && u < s.next && (id in s.identities ==> s.identities[id] != u)
    requires forall op <- ops :: (op.SsoLogin? ==> Unverified(op)) && (op.LinkIdentity? ==> op.user != u)
    ensures var t := Run(s, ops); id in t.identities ==> t.identities[id] != u
    decreases |ops|
  {
    if ops == [] {
    } else {
      assert ops[0] in ops && forall op <- ops[1..] :: op in ops;
      StepKeepsInv(s, ops[0]);
      IdentityAfter(s, ops[0], id, u);
      UnverifiedNeverLinks(Step(s, ops[0]).0, ops[1..], id, u);
    }
  }
}
