/** Which service methods mark which users revoked, hand out access tokens to whom, and change whose password time. */
module SignOutEffects {
  import opened Common
  import opened SignOut
  import E = SessionEffects
  import R = Revocation
  import S = Sessions

  /** The method marks this user: a logout its own, revoking one session or all of them, resolving a pending login, and a
      login for which older sessions had to make room. */
  ghost predicate Marks(cfg: S.Config, s: S.State, op: S.Op, u: nat) {
    match op
    case Login(user, w) =>
      user == u && E.Issues(cfg, s, op) && w.counts && w.revokes && E.AtLimit(cfg, s.users[u], |E.ActiveOf(s, u)|)
    case SsoLogin(user, w, again) =>
      user == u && E.Issues(cfg, s, op) && ((w.counts && w.revokes) || (again.counts && again.revokes))
      && E.AtLimit(cfg, s.users[u], |E.ActiveOf(s, u)|)
    case ResolveLogin(p, _, w) => E.Valid(s, p) && w.revokes && s.pending[p].user == u
    case Logout(token) => exists id :: id in s.sessions && s.sessions[id].token == token && s.sessions[id].user == u
    case RevokeSession(user, _) => user == u
    case RevokeAll(user) => user == u && exists id :: id in s.sessions && s.sessions[id].user == u && !s.sessions[id].revoked
    case _ => false
  }

  /** The method hands an access token to this user. */
  ghost predicate Grants(cfg: S.Config, s: S.State, op: S.Op, u: nat) {
    E.Issues(cfg, s, op) && u in S.Step(cfg, s, op).0.users && exists sso :: E.IssuedTo(s, op, u, sso)
  }

  // ---- Lists of effects ----

  lemma {:induction false} RunMarks(ttl: nat, s: R.State, ops: seq<R.Op>, g: R.Grant)
    requires forall op <- ops :: !op.Tick? && !op.ChangePassword? && !op.AddUser?
    ensures var t := R.Run(ttl, s, ops);
            && t.now == s.now && t.passwordChangedAt == s.passwordChangedAt
            && (if R.MarkRevoked(g.user) in ops then MarkedNow(t, g.user) else SameMark(s, t, g.user))
            && (g in t.grants <==> g in s.grants || (g.at == s.now && R.Generate(g.user) in ops))
    decreases |ops|
  {
    if ops == [] {
    } else {
      var mid := R.Step(ttl, s, ops[0]);
      assert ops == [ops[0]] + ops[1..];
      RunMarks(ttl, mid, ops[1..], g);
    }
  }

  predicate SameMark(s: R.State, t: R.State, u: nat) {
    (u in t.marks <==> u in s.marks) && (u in s.marks && u in t.marks ==> t.marks[u] == s.marks[u])
  }

  predicate MarkedNow(t: R.State, u: nat) {
    u in t.marks && t.marks[u] == t.now
  }

  // ---- What is in them ----

  lemma LoginEffectsAre(cfg: S.Config, s: S.State, user: nat, sso: bool, defers: bool, rooms: bool, marked: bool, u: nat)
    ensures var out := S.LoginStep(cfg, s, user, sso, defers, rooms).1;
            var effects := LoginEffects(cfg, s, user, out, rooms, marked);
            && (R.MarkRevoked(u) in effects <==>
                  marked && user == u && out.Issued? && rooms && E.AtLimit(cfg, s.users[u], |E.ActiveOf(s, u)|))
            && (R.Generate(u) in effects <==> user == u && out.Issued?)
  {
    E.SameActive(s, user);
    if user in s.users { E.SameLimit(cfg, s.users[user], |S.Active(s, user)|); }
  }

  lemma LoginMarks(cfg: S.Config, s: S.State, op: S.Op, marked: bool, u: nat)
    requires S.Inv(s) && (op.Login? || op.SsoLogin?)
    ensures R.MarkRevoked(u) in Effects(cfg, s, op, marked) <==> marked && Marks(cfg, s, op, u)
    ensures R.Generate(u) in Effects(cfg, s, op, marked) <==> Grants(cfg, s, op, u)
  {
    E.OutcomeExactly(cfg, s, op);
    match op
    case Login(user, w) =>
      LoginEffectsAre(cfg, s, user, false, S.Defers(w), S.Rooms(w), marked, u);
      assert E.IssuedTo(s, op, user, false);
    case SsoLogin(user, w, again) =>
      LoginEffectsAre(cfg, s, user, true, S.Defers(w), S.Rooms(w) || S.Rooms(again), marked, u);
      assert E.IssuedTo(s, op, user, true);
  }

  lemma ResolveMarks(cfg: S.Config, s: S.State, op: S.Op, marked: bool, u: nat)
    requires S.Inv(s) && op.ResolveLogin?
    ensures R.MarkRevoked(u) in Effects(cfg, s, op, marked) <==> marked && Marks(cfg, s, op, u)
    ensures R.Generate(u) in Effects(cfg, s, op, marked) <==> Grants(cfg, s, op, u)
  {
    E.OutcomeExactly(cfg, s, op);
    if op.pendingToken in s.pending { assert E.IssuedTo(s, op, s.pending[op.pendingToken].user, false); }
  }

  lemma TokenMarks(cfg: S.Config, s: S.State, op: S.Op, marked: bool, u: nat)
    requires S.Inv(s) && (op.Refresh? || op.Logout?)
    ensures R.MarkRevoked(u) in Effects(cfg, s, op, marked) <==> marked && Marks(cfg, s, op, u)
    ensures R.Generate(u) in Effects(cfg, s, op, marked) <==> Grants(cfg, s, op, u)
  {
    E.OutcomeExactly(cfg, s, op);
    E.UniqueToken(s, op.token);
    var id := S.ByToken(s.sessions, op.token);
    if op.Refresh? && id.Some? { assert E.IssuedTo(s, op, s.sessions[id.value].user, s.sessions[id.value].sso); }
  }

  lemma PlainMarks(cfg: S.Config, s: S.State, op: S.Op, marked: bool, u: nat)
    requires !op.Login? && !op.SsoLogin? && !op.ResolveLogin? && !op.Refresh? && !op.Logout?
    ensures R.MarkRevoked(u) in Effects(cfg, s, op, marked) <==> marked && Marks(cfg, s, op, u)
    ensures !op.Register? ==> (R.Generate(u) in Effects(cfg, s, op, marked) <==> Grants(cfg, s, op, u))
  {
    if op.RevokeAll? {
      assert Unrevoked(s, op.user) != {} <==>
          exists id :: id in s.sessions && s.sessions[id].user == op.user && !s.sessions[id].revoked by {
        if id :| id in s.sessions && s.sessions[id].user == op.user && !s.sessions[id].revoked {
          assert id in Unrevoked(s, op.user);
        }
      }
    }
  }

  lemma EffectsAre(cfg: S.Config, s: S.State, op: S.Op, marked: bool, u: nat)
    requires S.Inv(s) && !op.Register?
    ensures R.MarkRevoked(u) in Effects(cfg, s, op, marked) <==> marked && Marks(cfg, s, op, u)
    ensures R.Generate(u) in Effects(cfg, s, op, marked) <==> Grants(cfg, s, op, u)
  {
    match op
    case Login(_, _) => LoginMarks(cfg, s, op, marked, u);
    case SsoLogin(_, _, _) => LoginMarks(cfg, s, op, marked, u);
    case ResolveLogin(_, _, _) => ResolveMarks(cfg, s, op, marked, u);
    case Refresh(_) => TokenMarks(cfg, s, op, marked, u);
    case Logout(_) => TokenMarks(cfg, s, op, marked, u);
    case _ => PlainMarks(cfg, s, op, marked, u);
  }

  lemma EffectsOnly(cfg: S.Config, s: S.State, op: S.Op, marked: bool)
    requires !op.Register? && !op.Tick?
    ensures forall e <- Effects(cfg, s, op, marked) :: !e.Tick? && !e.ChangePassword? && !e.AddUser?
  {
  }

  // ---- One step ----

  /** After a service method: exactly the users it marks have this instant as their mark, provided the mark was written;
      every other mark is as before. Exactly those it is for get an access token of this instant. Passwords keep their
      times. */
  lemma AuthExactly(cfg: S.Config, ttl: nat, j: State, op: S.Op, marked: bool, g: R.Grant)
    requires S.Inv(j.sessions) && InStep(j) && !op.Register? && !op.Tick?
    ensures var t := Step(cfg, ttl, j, Auth(op, marked)).tokens;
            && (if marked && Marks(cfg, j.sessions, op, g.user) then MarkedNow(t, g.user) else SameMark(j.tokens, t, g.user))
            && (g in t.grants <==> g in j.tokens.grants || (g.at == t.now && Grants(cfg, j.sessions, op, g.user)))
            && t.now == j.tokens.now && t.passwordChangedAt == j.tokens.passwordChangedAt
  {
    EffectsAre(cfg, j.sessions, op, marked, g.user);
    EffectsOnly(cfg, j.sessions, op, marked);
    RunMarks(ttl, j.tokens, Effects(cfg, j.sessions, op, marked), g);
  }

  /** A registration gives the new user, and nobody else, a password time and an access token of this instant. */
  lemma RegisterExactly(cfg: S.Config, ttl: nat, j: State, sso: bool, marked: bool, g: R.Grant)
    requires S.Inv(j.sessions) && InStep(j)
    ensures var r := Step(cfg, ttl, j, Auth(S.Register(sso), marked));
            var isNew := g.user in r.sessions.users && g.user !in j.sessions.users;
            && r.tokens.marks == j.tokens.marks
            && (g in r.tokens.grants <==> g in j.tokens.grants || (g.at == r.tokens.now && isNew))
            && SamePassword(j.tokens, r.tokens, g.user, isNew)
  {
    var u := j.sessions.next;
    assert [R.AddUser(u), R.Generate(u)][1..] == [R.Generate(u)];
    One(ttl, R.Step(ttl, j.tokens, R.AddUser(u)), R.Generate(u));
  }

  predicate SamePassword(s: R.State, t: R.State, u: nat, changed: bool) {
    if changed then u in t.passwordChangedAt && t.passwordChangedAt[u] == t.now
    else (u in t.passwordChangedAt <==> u in s.passwordChangedAt)
         && (u in s.passwordChangedAt && u in t.passwordChangedAt ==> t.passwordChangedAt[u] == s.passwordChangedAt[u])
  }

  /** Changing or resetting a password sets the time of that user and of nobody else, and marks nobody. */
  lemma PasswordTimeExactly(cfg: S.Config, ttl: nat, j: State, op: Op, u: nat)
    requires !op.Auth?
    ensures var t := Step(cfg, ttl, j, op).tokens;
            && t.marks == j.tokens.marks && t.grants == j.tokens.grants
            && SamePassword(j.tokens, t, u, op.user == u)
  {
  }

  /** It also revokes every session of that user and of nobody else; a change spares the session it was made from. */
  lemma PasswordEndsSessions(cfg: S.Config, ttl: nat, j: State, op: Op, id: nat)
    requires !op.Auth?
    ensures var rows, after := j.sessions.sessions, Step(cfg, ttl, j, op).sessions.sessions;
            && after.Keys == rows.Keys
            && (id in rows ==>
                  var ends := rows[id].user == op.user && (op.ChangePassword? ==> id != op.session);
                  after[id] == rows[id].(revoked := rows[id].revoked || ends))
  {
  }

  // ---- Revoking one session ----

  /** After a user revokes one session: no refresh token of its family works, whatever follows, when it is the user's own.
      In any case no access token of the user from an earlier second is accepted any more, on any device, whatever follows,
      provided the mark was written; a lost mark leaves every access token as it was. */
  lemma RevokeSessionEndsBoth(cfg: S.Config, ttl: nat, before: seq<Op>, user: nat, id: nat, marked: bool, after: seq<Op>,
                              token: nat, g: R.Grant)
    ensures var j := Run(cfg, ttl, EMPTY, before);
            var out := Step(cfg, ttl, j, Auth(S.RevokeSession(user, id), marked));
            var end := Run(cfg, ttl, out, after);
            && (OwnUnrevoked(j.sessions, user, id) && token in end.sessions.issued
                && end.sessions.issued[token].family == j.sessions.sessions[id].family ==>
                  S.Step(cfg, end.sessions, S.Refresh(token)).1 == S.Refused)
            && (marked && g in j.tokens.grants && g.user == user && g.at / R.SECOND < j.tokens.now / R.SECOND ==>
                  !R.Accepts(end.tokens, R.TokenOf(g, ttl)))
            && (!marked ==> out.tokens == j.tokens)
  {
    var j := Run(cfg, ttl, EMPTY, before);
    var out := Step(cfg, ttl, j, Auth(S.RevokeSession(user, id), marked));
    Reachable(cfg, ttl, before);
    if marked {
      One(ttl, j.tokens, R.MarkRevoked(user));
      if g in j.tokens.grants && g.user == user && g.at / R.SECOND < j.tokens.now / R.SECOND {
        MarkedForever(cfg, ttl, before, out, after, g);
      }
    }
    if OwnUnrevoked(j.sessions, user, id) {
      RevokedIsDead(cfg, j.sessions, user, id);
      S.StepKeeps(cfg, j.sessions, S.RevokeSession(user, id), 0);
      DeadForever(cfg, ttl, out, after, j.sessions.sessions[id].family, token);
    }
  }

  predicate OwnUnrevoked(s: S.State, user: nat, id: nat) {
    id in s.sessions && s.sessions[id].user == user && !s.sessions[id].revoked
  }

  lemma RevokedIsDead(cfg: S.Config, s: S.State, user: nat, id: nat)
    requires S.Inv(s) && OwnUnrevoked(s, user, id)
    ensures S.Dead(S.Step(cfg, s, S.RevokeSession(user, id)).0, s.sessions[id].family)
  {
    assert S.FamiliesLinear(s.sessions);
  }
}
