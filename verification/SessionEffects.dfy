/** What each service method does to every stored session, pending login and user, row by row, and over whole runs. Nothing
    here is said through the functions that compute it: limits, recency and gates are spelled out. */
module SessionEffects {
  import opened Common
  import opened Locks
  import opened Sessions

  // ---- The words ----

  /** The override when it is set and at least one, otherwise the default when it is positive, otherwise five. */
  predicate InForce(cfg: Config, u: User, limit: int) {
    if u.maxSessions.Some? && u.maxSessions.value >= 1 then limit == u.maxSessions.value
    else if cfg.defaultLimit > 0 then limit == cfg.defaultLimit
    else limit == 5
  }

  ghost predicate AtLimit(cfg: Config, u: User, count: nat) {
    exists limit :: InForce(cfg, u, limit) && count >= limit
  }

  predicate IsActive(s: State, user: nat, id: nat) {
    id in s.sessions && s.sessions[id].user == user && !s.sessions[id].revoked && s.now < s.sessions[id].expiresAt
  }

  function ActiveOf(s: State, user: nat): set<nat> {
    set id | id in s.sessions && IsActive(s, user, id)
  }

  /** Used later, or created later when used at the same time, or else with the larger id. */
  predicate MoreRecent(a: Session, i: nat, b: Session, j: nat) {
    || a.lastUsed > b.lastUsed
    || (a.lastUsed == b.lastUsed && a.createdAt > b.createdAt)
    || (a.lastUsed == b.lastUsed && a.createdAt == b.createdAt && i > j)
  }

  function MoreRecentOf(s: State, user: nat, id: nat): set<nat>
    requires id in s.sessions
  {
    set o | o in s.sessions && IsActive(s, user, o) && MoreRecent(s.sessions[o], o, s.sessions[id], id)
  }

  /** The account exists and its lock does not exclude the method. */
  predicate Admitted(s: State, user: nat, sso: bool) {
    user in s.users && s.users[user].lock != if sso then PasswordOnly else SsoOnly
  }

  predicate Valid(s: State, p: nat) {
    p in s.pending && s.now < s.pending[p].expiresAt && s.pending[p].user in s.users
  }

  lemma SameLimit(cfg: Config, u: User, count: nat)
    ensures InForce(cfg, u, LimitOf(cfg, u)) && (AtLimit(cfg, u, count) <==> count >= LimitOf(cfg, u))
  {
    assert InForce(cfg, u, LimitOf(cfg, u));
  }

  lemma SameActive(s: State, user: nat)
    ensures ActiveOf(s, user) == Active(s, user)
  {
  }

  lemma SameAdmitted(s: State, user: nat, sso: bool)
    ensures Admitted(s, user, sso) <==> user in s.users && LockPermits(s.users[user].lock, sso)
  {
  }

  // ---- Login ----

  /** A login by password or by SSO with counting and storing in order: a user whose lock excludes the method is refused;
      otherwise the login is deferred exactly when the user has at least as many active sessions as the override says if it
      is set and at least one, or else the default if it is positive, or else five. Any other login gets its token. */
  lemma LoginDeferredExactly(cfg: Config, s: State, user: nat, sso: bool, works: Works, again: Works)
    requires works.counts && works.stores
    ensures var out := Step(cfg, s, if sso then SsoLogin(user, works, again) else Login(user, works)).1;
            var n := |ActiveOf(s, user)|;
            && (out == Refused <==> user !in s.users || s.users[user].lock == if sso then PasswordOnly else SsoOnly)
            && (out != Refused ==>
                  var u := s.users[user];
                  out.LimitReached? <==>
                    if u.maxSessions.Some? && u.maxSessions.value >= 1 then n >= u.maxSessions.value
                    else if cfg.defaultLimit > 0 then n >= cfg.defaultLimit
                    else n >= 5)
            && (out.LimitReached? || out.Issued? || out == Refused)
  {
    SameActive(s, user);
  }

  /** For instance: a default of five, an override of one, and a second login. */
  lemma OverrideDefers()
    ensures var cfg := Config(10, 300, 5);
            var s := Run(cfg, EMPTY, [Register(false), SetMaxSessions(0, 1)]);
            && Step(cfg, s, Login(0, ALL_WORK)).1.LimitReached?
            && Step(cfg, Run(cfg, EMPTY, [Register(false)]), Login(0, ALL_WORK)).1.Issued?
  {
    var cfg := Config(10, 300, 5);
    var ops := [Register(false), SetMaxSessions(0, 1)];
    var s1 := Step(cfg, EMPTY, ops[0]).0;
    var s2 := Step(cfg, s1, ops[1]).0;
    assert Run(cfg, s1, ops[1..]) == s2 by { assert ops[1..][1..] == []; }
    assert Run(cfg, EMPTY, [Register(false)]) == s1 by { assert [Register(false)][1..] == []; }
    assert Active(s1, 0) == {1} && Active(s2, 0) == {1};
  }

  // ---- Stored rows ----

  /** The user is admitted and at the limit, the login is not deferred, room can be made, and at least one less than the
      limit of the user's active sessions are more recent than this one. */
  ghost predicate MadeRoom(cfg: Config, s: State, user: nat, sso: bool, defers: bool, rooms: bool, id: nat)
    requires id in s.sessions
  {
    && Admitted(s, user, sso) && !defers && rooms && IsActive(s, user, id)
    && exists limit :: InForce(cfg, s.users[user], limit) && |ActiveOf(s, user)| >= limit
                       && |MoreRecentOf(s, user, id)| >= limit - 1
  }

  /** The step ends this session. */
  ghost predicate Ended(cfg: Config, s: State, op: Op, id: nat)
    requires id in s.sessions
  {
    var row := s.sessions[id];
    match op
    case Login(user, w) => MadeRoom(cfg, s, user, false, w.counts && w.stores, w.counts && w.revokes, id)
    case SsoLogin(user, w, again) =>
      MadeRoom(cfg, s, user, true, w.counts && w.stores, (w.counts && w.revokes) || (again.counts && again.revokes), id)
    case ResolveLogin(p, session, w) => Valid(s, p) && w.revokes && id == session && row.user == s.pending[p].user
    case Refresh(token) =>
      || (row.token == token && !row.revoked && s.now <= row.expiresAt)
      || (exists r :: r in s.sessions && s.sessions[r].token == token && s.sessions[r].revoked
                      && s.sessions[r].family == row.family)
    case Logout(token) => exists r :: r in s.sessions && s.sessions[r].token == token && s.sessions[r].family == row.family
    case RevokeSession(user, session) => id == session && row.user == user
    case RevokeAll(user) => row.user == user
    case RevokeAllExcept(user, session) => row.user == user && id != session
    case _ => false
  }

  /** The step removes the row. */
  predicate Removed(s: State, op: Op, id: nat)
    requires id in s.sessions
  {
    || (op.CleanupExpired? && s.sessions[id].expiresAt < s.now)
    || (op.DeleteUser? && s.sessions[id].user == op.user)
  }

  /** The row as a step leaves it. */
  ghost predicate RowIs(cfg: Config, s: State, op: Op, id: nat, t: State)
    requires id in s.sessions
  {
    && (id in t.sessions <==> !Removed(s, op, id))
    && (id in t.sessions ==>
          t.sessions[id] == s.sessions[id].(revoked := s.sessions[id].revoked || Ended(cfg, s, op, id)))
  }

  lemma ExceedingRow(cfg: Config, s: State, user: nat, id: nat)
    requires user in s.users && id in s.sessions
    ensures var limit := LimitOf(cfg, s.users[user]);
            (id in Exceeding(s.sessions, Active(s, user), limit - 1)
             <==> IsActive(s, user, id) && |MoreRecentOf(s, user, id)| >= limit - 1)
  {
    assert MoreRecentOf(s, user, id) == NewerThan(s.sessions, Active(s, user), id);
  }

  lemma LoginRow(cfg: Config, s: State, user: nat, sso: bool, defers: bool, rooms: bool, id: nat)
    requires RowsFresh(s.sessions, s.next) && id in s.sessions
    ensures var t := LoginStep(cfg, s, user, sso, defers, rooms).0;
            && id in t.sessions
            && t.sessions[id]
               == s.sessions[id].(revoked := s.sessions[id].revoked || MadeRoom(cfg, s, user, sso, defers, rooms, id))
  {
    SameAdmitted(s, user, sso);
    SameActive(s, user);
    if user in s.users {
      SameLimit(cfg, s.users[user], |Active(s, user)|);
      ExceedingRow(cfg, s, user, id);
    }
  }

  lemma PasswordRow(cfg: Config, s: State, op: Op, id: nat)
    requires RowsFresh(s.sessions, s.next) && id in s.sessions && op.Login?
    ensures RowIs(cfg, s, op, id, Step(cfg, s, op).0)
  {
    LoginRow(cfg, s, op.user, false, Defers(op.works), Rooms(op.works), id);
  }

  lemma SsoRow(cfg: Config, s: State, op: Op, id: nat)
    requires RowsFresh(s.sessions, s.next) && id in s.sessions && op.SsoLogin?
    ensures RowIs(cfg, s, op, id, Step(cfg, s, op).0)
  {
    LoginRow(cfg, s, op.user, true, Defers(op.works), Rooms(op.works) || Rooms(op.again), id);
  }

  lemma ResolveRow(cfg: Config, s: State, op: Op, id: nat)
    requires RowsFresh(s.sessions, s.next) && id in s.sessions && op.ResolveLogin?
    ensures RowIs(cfg, s, op, id, Step(cfg, s, op).0)
  {
  }

  lemma RefreshRow(cfg: Config, s: State, op: Op, id: nat)
    requires Inv(s) && id in s.sessions && op.Refresh?
    ensures RowIs(cfg, s, op, id, Step(cfg, s, op).0)
  {
    UniqueToken(s, op.token);
  }

  lemma LogoutRow(cfg: Config, s: State, op: Op, id: nat)
    requires Inv(s) && id in s.sessions && op.Logout?
    ensures RowIs(cfg, s, op, id, Step(cfg, s, op).0)
  {
    UniqueToken(s, op.token);
  }

  lemma UniqueToken(s: State, token: nat)
    requires Inv(s)
    ensures forall i :: i in s.sessions && s.sessions[i].token == token ==> ByToken(s.sessions, token) == Some(i)
    ensures var r := ByToken(s.sessions, token); r.Some? ==> r.value in s.sessions && s.sessions[r.value].token == token
  {
    assert forall i :: i in s.sessions && s.sessions[i].token == token ==> HasToken(s.sessions, i, token);
    var r := ByToken(s.sessions, token);
    if r.Some? { assert HasToken(s.sessions, r.value, token); }
  }

  lemma PlainRow(cfg: Config, s: State, op: Op, id: nat)
    requires RowsFresh(s.sessions, s.next) && id in s.sessions
    requires !op.Login? && !op.SsoLogin? && !op.ResolveLogin? && !op.Refresh? && !op.Logout?
    ensures RowIs(cfg, s, op, id, Step(cfg, s, op).0)
  {
  }

  /** Every step leaves every stored session as it was, except that it revokes exactly those it ends and removes exactly
      those it removes. */
  lemma RowAfter(cfg: Config, s: State, op: Op, id: nat)
    requires Inv(s) && id in s.sessions
    ensures RowIs(cfg, s, op, id, Step(cfg, s, op).0)
  {
    match op
    case Login(_, _) => PasswordRow(cfg, s, op, id);
    case SsoLogin(_, _, _) => SsoRow(cfg, s, op, id);
    case ResolveLogin(_, _, _) => ResolveRow(cfg, s, op, id);
    case Refresh(_) => RefreshRow(cfg, s, op, id);
    case Logout(_) => LogoutRow(cfg, s, op, id);
    case _ => PlainRow(cfg, s, op, id);
  }

  // ---- Over runs ----

  ghost predicate EndedDuring(cfg: Config, s: State, ops: seq<Op>, id: nat)
    decreases |ops|
  {
    ops != [] && id in s.sessions && (Ended(cfg, s, ops[0], id) || EndedDuring(cfg, Step(cfg, s, ops[0]).0, ops[1..], id))
  }

  ghost predicate RemovedDuring(cfg: Config, s: State, ops: seq<Op>, id: nat)
    decreases |ops|
  {
    ops != [] && id in s.sessions && (Removed(s, ops[0], id) || RemovedDuring(cfg, Step(cfg, s, ops[0]).0, ops[1..], id))
  }

  ghost predicate RowIsAfterRun(cfg: Config, s: State, ops: seq<Op>, id: nat, t: State)
    requires id in s.sessions
  {
    && (id in t.sessions <==> !RemovedDuring(cfg, s, ops, id))
    && (id in t.sessions ==>
          t.sessions[id] == s.sessions[id].(revoked := s.sessions[id].revoked || EndedDuring(cfg, s, ops, id)))
  }

  lemma RowGone(cfg: Config, s: State, ops: seq<Op>, id: nat)
    requires id < s.next && id !in s.sessions
    ensures id !in Run(cfg, s, ops).sessions
  {
    RunEvolves(cfg, s, ops, id);
  }

  /** Over any run a stored session is removed exactly if some step removes it, is revoked at the end exactly if it was
      before or some step ends it, and is otherwise unchanged. */
  lemma {:induction false} RunRowExactly(cfg: Config, s: State, ops: seq<Op>, id: nat)
    requires Inv(s) && id in s.sessions
    ensures RowIsAfterRun(cfg, s, ops, id, Run(cfg, s, ops))
    decreases |ops|
  {
    if ops == [] {
    } else {
      var t := Step(cfg, s, ops[0]).0;
      RowAfter(cfg, s, ops[0], id);
      StepKeeps(cfg, s, ops[0], 0);
      StepEvolves(cfg, s, ops[0], id);
      if id in t.sessions {
        RunRowExactly(cfg, t, ops[1..], id);
      } else {
        RowGone(cfg, t, ops[1..], id);
      }
    }
  }

  // ---- A presented token is spent ----

  /** Whatever the outcome of a refresh: if the token's row was stored, unrevoked and not past its expiry, that row is
      revoked, and every other row is as it was. */
  lemma RefreshSpends(cfg: Config, s: State, id: nat, other: nat)
    requires Inv(s) && id in s.sessions && !s.sessions[id].revoked && s.now <= s.sessions[id].expiresAt
    ensures var t := Step(cfg, s, Refresh(s.sessions[id].token)).0;
            && id in t.sessions && t.sessions[id] == s.sessions[id].(revoked := true)
            && (other in s.sessions && other != id ==> other in t.sessions && t.sessions[other] == s.sessions[other])
  {
    RowAfter(cfg, s, Refresh(s.sessions[id].token), id);
    if other in s.sessions {
      RowAfter(cfg, s, Refresh(s.sessions[id].token), other);
      OnlyToken(s, id);
    }
  }

  lemma OnlyToken(s: State, id: nat)
    requires Inv(s) && id in s.sessions
    ensures forall r :: r in s.sessions && s.sessions[r].token == s.sessions[id].token ==> r == id
  {
    UniqueToken(s, s.sessions[id].token);
  }

  lemma IssuedStays(cfg: Config, s: State, op: Op, token: nat)
    requires GrantsFresh(s.issued, s.next) && token in s.issued
    ensures var t := Step(cfg, s, op).0; token in t.issued && t.issued[token] == s.issued[token] && s.now <= t.now
  {
  }

  lemma {:induction false} RunIssuedStays(cfg: Config, s: State, ops: seq<Op>, token: nat)
    requires Inv(s) && token in s.issued
    ensures var t := Run(cfg, s, ops); token in t.issued && t.issued[token] == s.issued[token] && s.now <= t.now
    decreases |ops|
  {
    if ops == [] {
    } else {
      IssuedStays(cfg, s, ops[0], token);
      StepKeeps(cfg, s, ops[0], 0);
      RunIssuedStays(cfg, Step(cfg, s, ops[0]).0, ops[1..], token);
    }
  }

  /** No stored row of the token can be refreshed, now or later. */
  ghost predicate Spent(s: State, token: nat) {
    && token in s.issued
    && forall id :: HasToken(s.sessions, id, token) ==> s.sessions[id].revoked || s.sessions[id].expiresAt < s.now
  }

  lemma RunSpent(cfg: Config, s: State, ops: seq<Op>, token: nat)
    requires Inv(s) && Spent(s, token)
    ensures Inv(Run(cfg, s, ops)) && Spent(Run(cfg, s, ops), token)
  {
    var t := Run(cfg, s, ops);
    RunKeeps(cfg, s, ops, 0);
    RunIssuedStays(cfg, s, ops, token);
    forall id | HasToken(t.sessions, id, token) ensures t.sessions[id].revoked || t.sessions[id].expiresAt < t.now {
      StoredBefore(cfg, s, ops, token, id);
      RunRowExactly(cfg, s, ops, id);
    }
  }

  lemma StoredBefore(cfg: Config, s: State, ops: seq<Op>, token: nat, id: nat)
    requires Inv(s) && token in s.issued && HasToken(Run(cfg, s, ops).sessions, id, token)
    ensures HasToken(s.sessions, id, token)
  {
    var t := Run(cfg, s, ops);
    RunKeeps(cfg, s, ops, 0);
    RunIssuedStays(cfg, s, ops, token);
    assert t.issued[token].row == id < s.next;
    RunEvolves(cfg, s, ops, id);
  }

  /** Every refresh token ever handed out is good for one presentation: whatever the answer was, and whatever happens after
      it, the token is refused from then on. */
  lemma PresentedOnce(cfg: Config, s: State, token: nat, after: seq<Op>)
    requires Inv(s) && token in s.issued
    ensures var t := Run(cfg, Step(cfg, s, Refresh(token)).0, after); Step(cfg, t, Refresh(token)).1 == Refused
  {
    var t := Step(cfg, s, Refresh(token)).0;
    PresentedIsSpent(cfg, s, token);
    RunSpent(cfg, t, after, token);
    var u := Run(cfg, t, after);
    RefreshSucceedsExactly(cfg, u, token);
    assert !CanRefresh(u, token);
  }

  lemma PresentedIsSpent(cfg: Config, s: State, token: nat)
    requires Inv(s) && token in s.issued
    ensures var t := Step(cfg, s, Refresh(token)).0; Inv(t) && Spent(t, token)
  {
    var ops := [Refresh(token)];
    var t := Step(cfg, s, Refresh(token)).0;
    assert Run(cfg, s, ops) == t by { assert ops[1..] == []; }
    StepKeeps(cfg, s, Refresh(token), 0);
    IssuedStays(cfg, s, Refresh(token), token);
    forall id | HasToken(t.sessions, id, token) ensures t.sessions[id].revoked || t.sessions[id].expiresAt < t.now {
      StoredBefore(cfg, s, ops, token, id);
      RowAfter(cfg, s, Refresh(token), id);
    }
  }

  // ---- Outcomes ----

  /** How many active sessions the owner of a pending login has once the chosen one is revoked. */
  function LeftActive(s: State, user: nat, session: nat): nat {
    |ActiveOf(s, user) - {session}|
  }

  /** The step hands out a token. */
  ghost predicate Issues(cfg: Config, s: State, op: Op) {
    match op
    case Register(_) => true
    case Login(user, w) =>
      Admitted(s, user, false) && !(w.counts && w.stores && AtLimit(cfg, s.users[user], |ActiveOf(s, user)|))
    case SsoLogin(user, w, again) =>
      Admitted(s, user, true) && !(w.counts && w.stores && AtLimit(cfg, s.users[user], |ActiveOf(s, user)|))
    case ResolveLogin(p, session, w) =>
      Valid(s, p) && w.revokes
      && !(w.counts && AtLimit(cfg, s.users[s.pending[p].user], LeftActive(s, s.pending[p].user, session)))
    case Refresh(token) =>
      exists id :: id in s.sessions && s.sessions[id].token == token && !s.sessions[id].revoked
                   && s.now <= s.sessions[id].expiresAt && Admitted(s, s.sessions[id].user, s.sessions[id].sso)
    case _ => false
  }

  /** The step stores a pending login for this user. */
  ghost predicate DefersFor(cfg: Config, s: State, op: Op, user: nat) {
    match op
    case Login(u, w) =>
      u == user && Admitted(s, u, false) && w.counts && w.stores && AtLimit(cfg, s.users[u], |ActiveOf(s, u)|)
    case SsoLogin(u, w, again) =>
      u == user && Admitted(s, u, true) && w.counts && w.stores && AtLimit(cfg, s.users[u], |ActiveOf(s, u)|)
    case ResolveLogin(p, session, w) =>
      Valid(s, p) && user == s.pending[p].user && w.revokes && w.counts && w.stores
      && AtLimit(cfg, s.users[user], LeftActive(s, user, session))
    case _ => false
  }

  lemma LoginOutcome(cfg: Config, s: State, user: nat, sso: bool, defers: bool, rooms: bool)
    ensures var out := LoginStep(cfg, s, user, sso, defers, rooms).1;
            var full := user in s.users && AtLimit(cfg, s.users[user], |ActiveOf(s, user)|);
            && (out.Issued? <==> Admitted(s, user, sso) && !(full && defers))
            && (out.LimitReached? <==> Admitted(s, user, sso) && full && defers)
            && (out.Issued? || out.LimitReached? || out == Refused)
  {
    SameAdmitted(s, user, sso);
    SameActive(s, user);
    if user in s.users { SameLimit(cfg, s.users[user], |Active(s, user)|); }
  }

  lemma FreedActive(s: State, p: nat, session: nat)
    requires p in s.pending
    ensures Active(Freed(s, p, session), s.pending[p].user) == ActiveOf(s, s.pending[p].user) - {session}
  {
  }

  lemma ResolveOutcome(cfg: Config, s: State, p: nat, session: nat, works: Works)
    ensures var out := ResolveStep(cfg, s, p, session, works).1;
            && (out.Issued? <==> Issues(cfg, s, ResolveLogin(p, session, works)))
            && (out.LimitReached? <==> Valid(s, p) && DefersFor(cfg, s, ResolveLogin(p, session, works), s.pending[p].user))
            && (out.Issued? || out.LimitReached? || out == Refused)
  {
    if Valid(s, p) {
      var user := s.pending[p].user;
      FreedActive(s, p, session);
      SameLimit(cfg, s.users[user], LeftActive(s, user, session));
    }
  }

  lemma RefreshOutcome(cfg: Config, s: State, token: nat)
    requires Inv(s)
    ensures var out := RefreshStep(cfg, s, token).1;
            (out.Issued? <==> Issues(cfg, s, Refresh(token))) && (out.Issued? || out == Refused)
  {
    UniqueToken(s, token);
    var id := ByToken(s.sessions, token);
    if id.Some? { SameAdmitted(s, s.sessions[id.value].user, s.sessions[id.value].sso); }
  }

  /** A step hands out a token, or a pending login, exactly under these conditions. */
  lemma OutcomeExactly(cfg: Config, s: State, op: Op)
    requires Inv(s)
    ensures var out := Step(cfg, s, op).1;
            && (out.Issued? <==> Issues(cfg, s, op))
            && (out.LimitReached? <==> exists user :: DefersFor(cfg, s, op, user))
  {
    match op
    case Login(user, w) =>
      LoginOutcome(cfg, s, user, false, Defers(w), Rooms(w));
      assert DefersFor(cfg, s, op, user) <==> Step(cfg, s, op).1.LimitReached?;
    case SsoLogin(user, w, again) =>
      LoginOutcome(cfg, s, user, true, Defers(w), Rooms(w) || Rooms(again));
      assert DefersFor(cfg, s, op, user) <==> Step(cfg, s, op).1.LimitReached?;
    case ResolveLogin(p, session, w) =>
      ResolveOutcome(cfg, s, p, session, w);
      if Valid(s, p) { assert DefersFor(cfg, s, op, s.pending[p].user) <==> Step(cfg, s, op).1.LimitReached?; }
    case Refresh(token) => RefreshOutcome(cfg, s, token);
    case _ =>
  }

  // ---- New rows ----

  /** Whom a new session is for, and by what method it counts. */
  ghost predicate IssuedTo(s: State, op: Op, user: nat, sso: bool) {
    match op
    case Register(bySso) => user !in s.users && sso == bySso
    case Login(u, _) => user == u && !sso
    case SsoLogin(u, _, _) => user == u && sso
    case ResolveLogin(p, _, _) => p in s.pending && user == s.pending[p].user && !sso
    case Refresh(token) =>
      exists id :: id in s.sessions && s.sessions[id].token == token && user == s.sessions[id].user && sso == s.sessions[id].sso
    case _ => false
  }

  /** A rotation stays in the family of the presented token; every other new session starts one. */
  ghost predicate FamilyOf(s: State, op: Op, family: nat) {
    if op.Refresh? then exists id :: id in s.sessions && s.sessions[id].token == op.token && family == s.sessions[id].family
    else forall id :: id in s.sessions ==> s.sessions[id].family != family
  }

  /** The row of a token just handed out. */
  ghost predicate NewRowIs(cfg: Config, s: State, op: Op, row: Session, token: nat) {
    && row.token == token && token !in s.issued && IssuedTo(s, op, row.user, row.sso) && FamilyOf(s, op, row.family)
    && row.lastUsed == row.createdAt == s.now && row.expiresAt == s.now + cfg.refreshTtl && !row.revoked
  }

  lemma IssuedRow(cfg: Config, s: State, user: nat, family: nat, sso: bool, id: nat)
    requires id !in s.sessions && s.next !in s.sessions
    ensures var t := Issue(cfg, s, user, family, sso);
            && (id in t.sessions <==> id == s.next)
            && (id == s.next ==>
                  t.sessions[id] == Session(user, s.next + 1, family, sso, s.now, s.now, s.now + cfg.refreshTtl, false))
  {
  }

  ghost predicate Adds(cfg: Config, s: State, op: Op, id: nat) {
    var (t, out) := Step(cfg, s, op);
    && (id in t.sessions <==> out.Issued? && out.token == id + 1)
    && (id in t.sessions ==> NewRowIs(cfg, s, op, t.sessions[id], id + 1) && t.sessions[id].user in t.users)
  }

  lemma LoginAdds(cfg: Config, s: State, op: Op, id: nat)
    requires Inv(s) && id !in s.sessions && (op.Login? || op.SsoLogin?)
    ensures Adds(cfg, s, op, id)
  {
    assert s.next !in s.sessions && s.next + 1 !in s.issued;
  }

  lemma ResolveAdds(cfg: Config, s: State, op: Op, id: nat)
    requires Inv(s) && id !in s.sessions && op.ResolveLogin?
    ensures Adds(cfg, s, op, id)
  {
    assert s.next !in s.sessions && s.next + 1 !in s.issued;
  }

  lemma RefreshAdds(cfg: Config, s: State, op: Op, id: nat)
    requires Inv(s) && id !in s.sessions && op.Refresh?
    ensures Adds(cfg, s, op, id)
  {
    assert s.next !in s.sessions && s.next + 1 !in s.issued;
    var r := ByToken(s.sessions, op.token);
    if r.Some? { assert s.sessions[r.value].token == op.token; }
  }

  /** A step adds a row exactly when it hands out a token, one row, for the user and method it was for. */
  lemma NewRowExactly(cfg: Config, s: State, op: Op, id: nat)
    requires Inv(s) && id !in s.sessions
    ensures Adds(cfg, s, op, id)
  {
    match op
    case Register(_) => assert s.next + 1 !in s.sessions && s.next + 2 !in s.issued && s.next !in s.users;
    case Login(_, _) => LoginAdds(cfg, s, op, id);
    case SsoLogin(_, _, _) => LoginAdds(cfg, s, op, id);
    case ResolveLogin(_, _, _) => ResolveAdds(cfg, s, op, id);
    case Refresh(_) => RefreshAdds(cfg, s, op, id);
    case _ =>
  }

  // ---- Pending logins, users and the clock ----

  ghost predicate PendingIs(cfg: Config, s: State, op: Op, p: nat, t: State, out: Outcome) {
    && (p in t.pending <==>
          || (p in s.pending && !(op.ResolveLogin? && op.pendingToken == p && s.now < s.pending[p].expiresAt))
          || out == LimitReached(p))
    && (p in s.pending && p in t.pending ==> t.pending[p] == s.pending[p])
    && (out == LimitReached(p) ==>
          p !in s.pending && t.pending[p].expiresAt == s.now + cfg.pendingTtl && DefersFor(cfg, s, op, t.pending[p].user))
  }

  lemma LoginPending(cfg: Config, s: State, op: Op, p: nat)
    requires NamesFresh(s.users, s.pending, s.next) && (op.Login? || op.SsoLogin?)
    ensures var (t, out) := Step(cfg, s, op); PendingIs(cfg, s, op, p, t, out)
  {
    assert s.next !in s.pending;
    if op.Login? {
      LoginOutcome(cfg, s, op.user, false, Defers(op.works), Rooms(op.works));
    } else {
      LoginOutcome(cfg, s, op.user, true, Defers(op.works), Rooms(op.works) || Rooms(op.again));
    }
  }

  lemma ResolvePending(cfg: Config, s: State, op: Op, p: nat)
    requires NamesFresh(s.users, s.pending, s.next) && op.ResolveLogin?
    ensures var (t, out) := Step(cfg, s, op); PendingIs(cfg, s, op, p, t, out)
  {
    assert s.next !in s.pending;
    ResolveOutcome(cfg, s, op.pendingToken, op.session, op.works);
  }

  lemma PlainPending(cfg: Config, s: State, op: Op, p: nat)
    requires !op.Login? && !op.SsoLogin? && !op.ResolveLogin?
    ensures var (t, out) := Step(cfg, s, op); PendingIs(cfg, s, op, p, t, out)
  {
  }

  /** A pending login goes when it is presented in time, and comes with a deferral, for the configured time. */
  lemma PendingAfter(cfg: Config, s: State, op: Op, p: nat)
    requires Inv(s)
    ensures var (t, out) := Step(cfg, s, op); PendingIs(cfg, s, op, p, t, out)
  {
    match op
    case Login(_, _) => LoginPending(cfg, s, op, p);
    case SsoLogin(_, _, _) => LoginPending(cfg, s, op, p);
    case ResolveLogin(_, _, _) => ResolvePending(cfg, s, op, p);
    case _ => PlainPending(cfg, s, op, p);
  }

  /** Accounts come with a registration, unlocked and without an override, and go with their deletion; locks and overrides
      are what they were last set to; and only the clock's own step moves it. */
  lemma UserAfter(cfg: Config, s: State, op: Op, u: nat)
    requires Inv(s)
    ensures var t := Step(cfg, s, op).0;
            && (u in s.users ==> (u in t.users <==> op != DeleteUser(u)))
            && (u !in s.users && u in t.users ==> op.Register? && t.users[u] == User(AnyMethod, None))
            && (u in s.users && u in t.users ==>
                  && t.users[u].lock == (if op.SetLock? && op.user == u then op.lock else s.users[u].lock)
                  && t.users[u].maxSessions
                     == if op.SetMaxSessions? && op.user == u then Some(op.maxSessions) else s.users[u].maxSessions)
            && t.now == s.now + if op.Tick? then op.elapsed else 0
  {
    if op.Login? || op.SsoLogin? || op.ResolveLogin? || op.Refresh? || op.Logout? { SignInsKeepUsers(cfg, s, op); }
  }

  lemma SignInsKeepUsers(cfg: Config, s: State, op: Op)
    requires op.Login? || op.SsoLogin? || op.ResolveLogin? || op.Refresh? || op.Logout?
    ensures var t := Step(cfg, s, op).0; t.users == s.users && t.now == s.now
  {
  }
}
