/** The session methods of the auth service, written against in-place tables, each proved to perform the
    corresponding step of the Sessions module and so to keep its invariant. */
module SessionService {
  import opened Common
  import opened Locks
  import opened Sessions
  import opened SessionCap

  class AuthService {
    const cfg: Config
    var now: nat
    var users: map<nat, User>
    var sessions: map<nat, Session>
    var pending: map<nat, Pending>
    var next: nat
    ghost var issued: map<nat, Grant>

    ghost function View(): State
      reads this
    {
      State(now, users, sessions, pending, next, issued)
    }

    constructor (cfg: Config)
      ensures View() == EMPTY && this.cfg == cfg
    {
      this.cfg := cfg;
      now, users, sessions, pending, next, issued := 0, map[], map[], map[], 0, map[];
    }

    // ---- Session repository ----

    /** SELECT … WHERE refresh_token_hash = token */
    method GetByTokenHash(token: nat) returns (id: Option<nat>)
      requires Inv(View())
      ensures id == ByToken(sessions, token)
    {
      var rest := sessions.Keys;
      while rest != {}
        invariant rest <= sessions.Keys
        invariant forall i :: HasToken(sessions, i, token) ==> i in rest
      {
        var i :| i in rest;
        if sessions[i].token == token {
          assert HasToken(sessions, i, token);
          return Some(i);
        }
        rest := rest - {i};
      }
      return None;
    }

    /** UPDATE sessions SET revoked = TRUE WHERE id in ids */
    method RevokeRows(ids: set<nat>)
      modifies this`sessions
      ensures View() == RevokeIn(old(View()), ids)
    {
      sessions := map id | id in sessions :: if id in ids then sessions[id].(revoked := true) else sessions[id];
    }

    /** None when the query fails. */
    method CountActiveByUser(user: nat, works: bool) returns (count: Option<nat>)
      ensures count == if works then Some(|Active(View(), user)|) else None
    {
      if !works {
        return None;
      }
      var ids := set id | id in sessions && sessions[id].user == user && !sessions[id].revoked && sessions[id].expiresAt > now;
      assert ids == Active(View(), user);
      return Some(|ids|);
    }

    /** Revokes nothing when the query fails. */
    method RevokeOldestExceeding(user: nat, keep: nat, works: bool)
      modifies this`sessions
      ensures View() == if works then RevokeIn(old(View()), Exceeding(old(sessions), Active(old(View()), user), keep))
                        else old(View())
    {
      if works {
        var ids := ActiveRows(sessions, now, user);
        RevokeRows(Exceeding(sessions, ids, keep));
      }
    }

    /** Draw a fresh id, token and, unless one is given, family, and insert the row. */
    method InsertSession(user: nat, family: Option<nat>, sso: bool) returns (token: nat)
      modifies this
      ensures View() == Issue(cfg, old(View()), user, if family.Some? then family.value else old(next) + 2, sso)
      ensures token == old(next) + 1
    {
      token := next + 1;
      var fam := if family.Some? then family.value else next + 2;
      sessions := sessions[next := Session(user, token, fam, sso, now, now, now + cfg.refreshTtl, false)];
      issued := issued[token := Grant(fam, next)];
      next := next + 3;
    }

    method StorePending(user: nat) returns (pendingToken: nat)
      modifies this
      ensures View() == Defer(cfg, old(View()), user).0 && pendingToken == old(next)
    {
      pendingToken := next;
      pending := pending[pendingToken := Pending(user, now + cfg.pendingTtl)];
      next := next + 1;
    }

    // ---- Service methods ----

    /** Answer a pending token when the limit is seen to be reached and the pending store works; otherwise make room if
        that works, and go on in any case. */
    method EnforceSessionLimit(user: nat, w: Works) returns (deferred: Option<nat>)
      requires user in users
      modifies this
      ensures var s := old(View()); var limit := LimitOf(cfg, s.users[user]);
              if |Active(s, user)| >= limit && Defers(w)
              then View() == Defer(cfg, s, user).0 && deferred == Some(s.next)
              else View() == (if Rooms(w) then MakeRoom(s, user, limit) else s) && deferred.None?
    {
      var limit := LimitOf(cfg, users[user]);
      var active := CountActiveByUser(user, w.counts);
      if active.None? || active.value < limit {
        return None;
      }
      if w.stores {
        var token := StorePending(user);
        return Some(token);
      }
      RevokeOldestExceeding(user, limit - 1, w.revokes);
      return None;
    }

    /** Insert a session in a new family, revoking the oldest first if the limit is seen to be reached and that works. */
    method CreateSession(user: nat, sso: bool, w: Works) returns (token: nat)
      requires user in users
      modifies this
      ensures var s := old(View());
              var room := if Rooms(w) then MakeRoom(s, user, LimitOf(cfg, s.users[user])) else s;
              View() == IssueNew(cfg, room, user, sso) && token == room.next + 1
    {
      var limit := LimitOf(cfg, users[user]);
      var active := CountActiveByUser(user, w.counts);
      if active.Some? && active.value >= limit {
        RevokeOldestExceeding(user, limit - 1, w.revokes);
      }
      token := InsertSession(user, None, sso);
    }

    method Register(sso: bool) returns (token: nat)
      requires Inv(View())
      modifies this
      ensures (View(), Issued(token)) == Step(cfg, old(View()), Op.Register(sso))
      ensures Inv(View())
    {
      ghost var s := View();
      StepKeeps(cfg, s, Op.Register(sso), 0);
      var user := next;
      users := users[user := User(AnyMethod, None)];
      next := next + 1;
      assert Active(View(), user) == {};
      token := CreateSession(user, sso, ALL_WORK);
    }

    method Login(user: nat, w: Works) returns (outcome: Outcome)
      requires Inv(View())
      modifies this
      ensures (View(), outcome) == Step(cfg, old(View()), Op.Login(user, w))
      ensures Inv(View())
    {
      StepKeeps(cfg, View(), Op.Login(user, w), 0);
      if user !in users || !LockPermits(users[user].lock, false) {
        return Refused;
      }
      var deferred := EnforceSessionLimit(user, w);
      if deferred.Some? {
        return LimitReached(deferred.value);
      }
      var token := InsertSession(user, None, false);
      return Issued(token);
    }

    /** The limit is enforced twice on this path: room that could not be made the first time may be made the second. */
    method SsoLogin(user: nat, w: Works, again: Works) returns (outcome: Outcome)
      requires Inv(View())
      modifies this
      ensures (View(), outcome) == Step(cfg, old(View()), Op.SsoLogin(user, w, again))
      ensures Inv(View())
    {
      StepKeeps(cfg, View(), Op.SsoLogin(user, w, again), 0);
      if user !in users || !LockPermits(users[user].lock, true) {
        return Refused;
      }
      RoomLeavesSpace(View(), user, LimitOf(cfg, users[user]), user);
      var deferred := EnforceSessionLimit(user, w);
      if deferred.Some? {
        return LimitReached(deferred.value);
      }
      var token := CreateSession(user, true, again);
      return Issued(token);
    }

    method ResolveLogin(pendingToken: nat, session: nat, w: Works) returns (outcome: Outcome)
      requires Inv(View())
      modifies this
      ensures (View(), outcome) == Step(cfg, old(View()), Op.ResolveLogin(pendingToken, session, w))
      ensures Inv(View())
    {
      ghost var s := View();
      StepKeeps(cfg, s, Op.ResolveLogin(pendingToken, session, w), 0);
      if pendingToken !in pending || now >= pending[pendingToken].expiresAt {
        return Refused;
      }
      var user := pending[pendingToken].user;
      pending := pending - {pendingToken};
      if user !in users || !w.revokes {
        return Refused;
      }
      RevokeRows(OwnedRow(sessions, user, session));
      assert View() == Freed(s, pendingToken, session);
      outcome := ResolveFreed(user, w);
    }

    /** Count again, and defer or issue. */
    method ResolveFreed(user: nat, w: Works) returns (outcome: Outcome)
      requires user in users
      modifies this
      ensures (View(), outcome) == FreedStep(cfg, old(View()), user, w)
    {
      var active := CountActiveByUser(user, w.counts);
      if active.Some? && active.value >= LimitOf(cfg, users[user]) {
        if !w.stores {
          return Refused;
        }
        var token := StorePending(user);
        return LimitReached(token);
      }
      var token := InsertSession(user, None, false);
      return Issued(token);
    }

    method Refresh(token: nat) returns (outcome: Outcome)
      requires Inv(View())
      modifies this
      ensures (View(), outcome) == Step(cfg, old(View()), Op.Refresh(token))
      ensures Inv(View())
    {
      StepKeeps(cfg, View(), Op.Refresh(token), 0);
      var found := GetByTokenHash(token);
      if found.None? {
        return Refused;
      }
      var id := found.value;
      var row := sessions[id];
      if row.revoked {
        RevokeRows(InFamily(sessions, row.family));
        return Refused;
      }
      if now > row.expiresAt {
        return Refused;
      }
      RevokeRows({id});
      if row.user !in users || !LockPermits(users[row.user].lock, row.sso) {
        return Refused;
      }
      var replacement := InsertSession(row.user, Some(row.family), row.sso);
      return Issued(replacement);
    }

    method Logout(token: nat)
      requires Inv(View())
      modifies this`sessions
      ensures View() == Step(cfg, old(View()), Op.Logout(token)).0
      ensures Inv(View())
    {
      StepKeeps(cfg, View(), Op.Logout(token), 0);
      var found := GetByTokenHash(token);
      if found.Some? {
        RevokeRows(InFamily(sessions, sessions[found.value].family));
      }
    }

    method RevokeAllSessions(user: nat) returns (count: nat)
      requires Inv(View())
      modifies this`sessions
      ensures View() == Step(cfg, old(View()), Op.RevokeAll(user)).0
      ensures Inv(View())
      ensures count == |set id | id in old(sessions) && old(sessions)[id].user == user && !old(sessions)[id].revoked|
      ensures Active(View(), user) == {}
    {
      StepKeeps(cfg, View(), Op.RevokeAll(user), 0);
      count := |set id | id in sessions && sessions[id].user == user && !sessions[id].revoked|;
      RevokeRows(OfUser(sessions, user));
    }
  }
}
