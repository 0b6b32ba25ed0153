/** Refresh tokens and access tokens together: what the service methods of the session store do to the revocation cache,
    and when a user is really signed out. */
module SignOut {
  import opened Common
  import R = Revocation
  import S = Sessions

  /** Both parts share the clock and the ids of users; times are in nanoseconds. */
  datatype State = State(sessions: S.State, tokens: R.State)

  /** A method of the session store, or one of the two that set a password. `marked` says whether the write to the
      revocation cache works, if the method makes one: the source ignores its failure. */
  datatype Op =
    | Auth(op: S.Op, marked: bool)
    | ChangePassword(user: nat, session: nat)  // keeps the current session
    | ResetPassword(user: nat)

  function Mark(user: nat, marked: bool): seq<R.Op> {
    if marked then [R.MarkRevoked(user)] else []
  }

  /** A login hands out an access token, and marks the user when older sessions were revoked to make room. */
  ghost function LoginEffects(cfg: S.Config, s: S.State, user: nat, out: S.Outcome, rooms: bool, marked: bool): seq<R.Op> {
    if !out.Issued? then []
    else
      var full := user in s.users && |S.Active(s, user)| >= S.LimitOf(cfg, s.users[user]);
      Mark(user, marked && rooms && full) + [R.Generate(user)]
  }

  /** What a method does to access tokens. */
  ghost function Effects(cfg: S.Config, s: S.State, op: S.Op, marked: bool): seq<R.Op> {
    var out := S.Step(cfg, s, op).1;
    match op
    case Tick(elapsed) => [R.Tick(elapsed)]
    case Register(_) => [R.AddUser(s.next), R.Generate(s.next)]
    case Login(user, w) => LoginEffects(cfg, s, user, out, S.Rooms(w), marked)
    case SsoLogin(user, w, again) => LoginEffects(cfg, s, user, out, S.Rooms(w) || S.Rooms(again), marked)
    case ResolveLogin(p, _, w) =>
      if p in s.pending && s.now < s.pending[p].expiresAt && s.pending[p].user in s.users && w.revokes then
        Mark(s.pending[p].user, marked) + if out.Issued? then [R.Generate(s.pending[p].user)] else []
      else []
    case Refresh(token) =>
      var id := S.ByToken(s.sessions, token);
      if out.Issued? && id.Some? then [R.Generate(s.sessions[id.value].user)] else []
    case Logout(token) =>
      var id := S.ByToken(s.sessions, token);
      if id.Some? then Mark(s.sessions[id.value].user, marked) else []
    case RevokeSession(user, _) => Mark(user, marked)
    case RevokeAll(user) => Mark(user, marked && Unrevoked(s, user) != {})
    case DeleteUser(user) => [R.DeleteUser(user)]
    case _ => []
  }

  function Unrevoked(s: S.State, user: nat): set<nat> {
    set id | id in s.sessions && s.sessions[id].user == user && !s.sessions[id].revoked
  }

  ghost function Step(cfg: S.Config, ttl: nat, j: State, op: Op): State {
    match op
    case Auth(o, marked) =>
      State(S.Step(cfg, j.sessions, o).0, R.Run(ttl, j.tokens, Effects(cfg, j.sessions, o, marked)))
    case ChangePassword(user, session) =>
      State(S.Step(cfg, j.sessions, S.RevokeAllExcept(user, session)).0, R.Step(ttl, j.tokens, R.ChangePassword(user)))
    case ResetPassword(user) =>
      State(S.Step(cfg, j.sessions, S.RevokeAll(user)).0, R.Step(ttl, j.tokens, R.ChangePassword(user)))
  }

  ghost function Run(cfg: S.Config, ttl: nat, j: State, ops: seq<Op>): State
    decreases |ops|
  {
    if ops == [] then j else Run(cfg, ttl, Step(cfg, ttl, j, ops[0]), ops[1..])
  }

  const EMPTY := State(S.EMPTY, R.EMPTY)

  // ---- Each part on its own ----

  lemma {:induction false} RunAppend(ttl: nat, s: R.State, a: seq<R.Op>, b: seq<R.Op>)
    ensures R.Run(ttl, s, a + b) == R.Run(ttl, R.Run(ttl, s, a), b)
    decreases |a|
  {
    if a == [] {
      assert a + b == b;
    } else {
      RunAppend(ttl, R.Step(ttl, s, a[0]), a[1..], b);
      assert (a + b)[1..] == a[1..] + b;
    }
  }

  lemma One(ttl: nat, s: R.State, op: R.Op)
    ensures R.Run(ttl, s, [op]) == R.Step(ttl, s, op)
  {
    assert [op][1..] == [];
  }

  function SessionOp(op: Op): S.Op {
    match op
    case Auth(o, _) => o
    case ChangePassword(user, session) => S.RevokeAllExcept(user, session)
    case ResetPassword(user) => S.RevokeAll(user)
  }

  ghost function TokenOps(cfg: S.Config, s: S.State, op: Op): seq<R.Op> {
    match op
    case Auth(o, marked) => Effects(cfg, s, o, marked)
    case ChangePassword(user, _) => [R.ChangePassword(user)]
    case ResetPassword(user) => [R.ChangePassword(user)]
  }

  lemma StepProjects(cfg: S.Config, ttl: nat, j: State, op: Op)
    ensures var t := Step(cfg, ttl, j, op);
            && t.sessions == S.Step(cfg, j.sessions, SessionOp(op)).0
            && t.tokens == R.Run(ttl, j.tokens, TokenOps(cfg, j.sessions, op))
  {
    match op
    case Auth(_, _) =>
    case ChangePassword(user, _) => One(ttl, j.tokens, R.ChangePassword(user));
    case ResetPassword(user) => One(ttl, j.tokens, R.ChangePassword(user));
  }

  /** A joint run is a run of the session store and one of the token gate. */
  lemma {:induction false} Projects(cfg: S.Config, ttl: nat, j: State, ops: seq<Op>)
    returns (sops: seq<S.Op>, rops: seq<R.Op>)
    ensures Run(cfg, ttl, j, ops).sessions == S.Run(cfg, j.sessions, sops)
    ensures Run(cfg, ttl, j, ops).tokens == R.Run(ttl, j.tokens, rops)
    decreases |ops|
  {
    if ops == [] {
      sops, rops := [], [];
    } else {
      var t := Step(cfg, ttl, j, ops[0]);
      StepProjects(cfg, ttl, j, ops[0]);
      var sops', rops' := Projects(cfg, ttl, t, ops[1..]);
      sops := [SessionOp(ops[0])] + sops';
      assert sops[1..] == sops';
      rops := TokenOps(cfg, j.sessions, ops[0]) + rops';
      RunAppend(ttl, j.tokens, TokenOps(cfg, j.sessions, ops[0]), rops');
    }
  }

  lemma Reachable(cfg: S.Config, ttl: nat, ops: seq<Op>)
    ensures S.Inv(Run(cfg, ttl, EMPTY, ops).sessions)
  {
    var sops, _ := Projects(cfg, ttl, EMPTY, ops);
    S.RunKeeps(cfg, S.EMPTY, sops, 0);
  }

  // ---- The parts stay in step ----

  predicate InStep(j: State) {
    j.sessions.now == j.tokens.now && j.sessions.users.Keys == j.tokens.users
  }

  predicate Quiet(ops: seq<R.Op>) {
    forall op <- ops :: op.MarkRevoked? || op.Generate?
  }

  lemma {:induction false} QuietRun(ttl: nat, s: R.State, ops: seq<R.Op>)
    requires Quiet(ops)
    ensures var t := R.Run(ttl, s, ops); t.now == s.now && t.users == s.users
    decreases |ops|
  {
    if ops == [] {
    } else {
      assert ops[0] in ops && forall op <- ops[1..] :: op in ops;
      QuietRun(ttl, R.Step(ttl, s, ops[0]), ops[1..]);
    }
  }

  lemma RegisterInStep(cfg: S.Config, ttl: nat, j: State, sso: bool, marked: bool)
    requires InStep(j)
    ensures InStep(Step(cfg, ttl, j, Auth(S.Register(sso), marked)))
  {
    var u := j.sessions.next;
    assert [R.AddUser(u), R.Generate(u)][1..] == [R.Generate(u)];
    One(ttl, R.Step(ttl, j.tokens, R.AddUser(u)), R.Generate(u));
  }

  lemma StepInStep(cfg: S.Config, ttl: nat, j: State, op: Op)
    requires InStep(j)
    ensures InStep(Step(cfg, ttl, j, op))
  {
    if op.Auth? {
      var effects := Effects(cfg, j.sessions, op.op, op.marked);
      match op.op
      case Tick(elapsed) => One(ttl, j.tokens, R.Tick(elapsed));
      case Register(sso) => RegisterInStep(cfg, ttl, j, sso, op.marked);
      case DeleteUser(user) => One(ttl, j.tokens, R.DeleteUser(user));
      case _ =>
        assert Quiet(effects);
        QuietRun(ttl, j.tokens, effects);
        SameUsers(cfg, j.sessions, op.op);
    }
  }

  lemma SameUsers(cfg: S.Config, s: S.State, op: S.Op)
    requires !op.Tick? && !op.Register? && !op.DeleteUser?
    ensures var t := S.Step(cfg, s, op).0; t.now == s.now && t.users.Keys == s.users.Keys
  {
  }

  /** In every reachable state both parts have the same clock and the same users. */
  lemma {:induction false} RunInStep(cfg: S.Config, ttl: nat, j: State, ops: seq<Op>)
    requires InStep(j)
    ensures InStep(Run(cfg, ttl, j, ops))
    decreases |ops|
  {
    if ops == [] {
    } else {
      StepInStep(cfg, ttl, j, ops[0]);
      RunInStep(cfg, ttl, Step(cfg, ttl, j, ops[0]), ops[1..]);
    }
  }

  // ---- Access tokens after a mark ----

  /** Once the user is marked, no access token of an earlier second is accepted, whatever follows. */
  lemma MarkedForever(cfg: S.Config, ttl: nat, before: seq<Op>, marked: State, after: seq<Op>, g: R.Grant)
    requires var j := Run(cfg, ttl, EMPTY, before);
             && marked.tokens == R.Step(ttl, j.tokens, R.MarkRevoked(g.user))
             && g in j.tokens.grants && g.at / R.SECOND < j.tokens.now / R.SECOND
    ensures !R.Accepts(Run(cfg, ttl, marked, after).tokens, R.TokenOf(g, ttl))
  {
    var _, rops := Projects(cfg, ttl, EMPTY, before);
    var _, rafter := Projects(cfg, ttl, marked, after);
    R.RevokedForever(ttl, rops, rafter, g);
  }

  // ---- Logging out ----

  /** After a logout with a token whose session is stored: no refresh token of that family works, whatever follows. No
      access token of the user from an earlier second is accepted either, whatever follows, provided the mark was written;
      a lost mark leaves every access token as it was. */
  lemma LogoutEndsBoth(cfg: S.Config, ttl: nat, before: seq<Op>, id: nat, marked: bool, after: seq<Op>, token: nat,
                       g: R.Grant)
    requires id in Run(cfg, ttl, EMPTY, before).sessions.sessions
    ensures var j := Run(cfg, ttl, EMPTY, before);
            var row := j.sessions.sessions[id];
            var out := Step(cfg, ttl, j, Auth(S.Logout(row.token), marked));
            var end := Run(cfg, ttl, out, after);
            && (token in end.sessions.issued && end.sessions.issued[token].family == row.family ==>
                  S.Step(cfg, end.sessions, S.Refresh(token)).1 == S.Refused)
            && (marked && g in j.tokens.grants && g.user == row.user && g.at / R.SECOND < j.tokens.now / R.SECOND ==>
                  !R.Accepts(end.tokens, R.TokenOf(g, ttl)))
            && (!marked ==> out.tokens == j.tokens)
  {
    var j := Run(cfg, ttl, EMPTY, before);
    Reachable(cfg, ttl, before);
    var row := j.sessions.sessions[id];
    var out := Step(cfg, ttl, j, Auth(S.Logout(row.token), marked));
    LogoutEffects(cfg, j.sessions, id, marked);
    if marked {
      One(ttl, j.tokens, R.MarkRevoked(row.user));
      if g in j.tokens.grants && g.user == row.user && g.at / R.SECOND < j.tokens.now / R.SECOND {
        MarkedForever(cfg, ttl, before, out, after, g);
      }
    }
    S.LogoutKills(cfg, j.sessions, id);
    S.StepKeeps(cfg, j.sessions, S.Logout(row.token), 0);
    DeadForever(cfg, ttl, out, after, row.family, token);
  }

  lemma LogoutEffects(cfg: S.Config, s: S.State, id: nat, marked: bool)
    requires S.Inv(s) && id in s.sessions
    ensures Effects(cfg, s, S.Logout(s.sessions[id].token), marked) == Mark(s.sessions[id].user, marked)
  {
    assert S.HasToken(s.sessions, id, s.sessions[id].token);
    assert S.ByToken(s.sessions, s.sessions[id].token) == Some(id);
  }

  lemma DeadForever(cfg: S.Config, ttl: nat, j: State, after: seq<Op>, family: nat, token: nat)
    requires S.Inv(j.sessions) && S.Dead(j.sessions, family)
    ensures var end := Run(cfg, ttl, j, after).sessions;
            token in end.issued && end.issued[token].family == family ==> S.Step(cfg, end, S.Refresh(token)).1 == S.Refused
  {
    var sops, _ := Projects(cfg, ttl, j, after);
    var end := S.Run(cfg, j.sessions, sops);
    if token in end.issued && end.issued[token].family == family {
      S.DeadFamilyNeverRefreshes(cfg, j.sessions, sops, family, token);
    }
  }

  // ---- Families have one owner ----

  ghost predicate OneOwner(sessions: map<nat, S.Session>) {
    forall a <- sessions, b <- sessions :: sessions[a].family == sessions[b].family ==> sessions[a].user == sessions[b].user
  }

  lemma IssueOwner(cfg: S.Config, s: S.State, user: nat, family: nat, sso: bool)
    requires OneOwner(s.sessions) && forall id <- s.sessions :: s.sessions[id].family == family ==> s.sessions[id].user == user
    ensures OneOwner(S.Issue(cfg, s, user, family, sso).sessions)
  {
  }

  lemma NewOwner(cfg: S.Config, s: S.State, user: nat, sso: bool)
    requires OneOwner(s.sessions) && S.RowsFresh(s.sessions, s.next)
    ensures OneOwner(S.IssueNew(cfg, s, user, sso).sessions)
  {
    IssueOwner(cfg, s, user, s.next + 2, sso);
  }

  lemma RevokeOwner(s: S.State, ids: set<nat>)
    requires OneOwner(s.sessions)
    ensures OneOwner(S.RevokeIn(s, ids).sessions)
  {
  }

  lemma LoginOwner(cfg: S.Config, s: S.State, user: nat, sso: bool, defers: bool, rooms: bool)
    requires OneOwner(s.sessions) && S.RowsFresh(s.sessions, s.next)
    ensures OneOwner(S.LoginStep(cfg, s, user, sso, defers, rooms).0.sessions)
  {
    if user in s.users {
      var room := S.MakeRoom(s, user, S.LimitOf(cfg, s.users[user]));
      assert OneOwner(room.sessions) && S.RowsFresh(room.sessions, room.next);
      NewOwner(cfg, room, user, sso);
      NewOwner(cfg, s, user, sso);
    }
  }

  lemma ResolveOwner(cfg: S.Config, s: S.State, p: nat, session: nat, works: S.Works)
    requires OneOwner(s.sessions) && S.RowsFresh(s.sessions, s.next)
    ensures OneOwner(S.ResolveStep(cfg, s, p, session, works).0.sessions)
  {
    if p in s.pending {
      var freed := S.Freed(s, p, session);
      assert OneOwner(freed.sessions) && S.RowsFresh(freed.sessions, freed.next);
      NewOwner(cfg, freed, s.pending[p].user, false);
    }
  }

  lemma RefreshOwner(cfg: S.Config, s: S.State, token: nat)
    requires OneOwner(s.sessions)
    ensures OneOwner(S.RefreshStep(cfg, s, token).0.sessions)
  {
    var id := S.ByToken(s.sessions, token);
    if id.Some? {
      var row := s.sessions[id.value];
      RevokeOwner(s, {id.value});
      RevokeOwner(s, S.InFamily(s.sessions, row.family));
      IssueOwner(cfg, S.RevokeIn(s, {id.value}), row.user, row.family, row.sso);
    }
  }

  lemma RegisterOwner(cfg: S.Config, s: S.State, sso: bool)
    requires OneOwner(s.sessions) && S.RowsFresh(s.sessions, s.next)
    ensures OneOwner(S.Step(cfg, s, S.Register(sso)).0.sessions)
  {
    NewOwner(cfg, S.WithUser(s), s.next, sso);
  }

  /** Steps that add no row and change no owner. */
  lemma PlainOwner(cfg: S.Config, s: S.State, op: S.Op)
    requires OneOwner(s.sessions)
    requires !op.Register? && !op.Login? && !op.SsoLogin? && !op.ResolveLogin? && !op.Refresh?
    ensures OneOwner(S.Step(cfg, s, op).0.sessions)
  {
    var t := S.Step(cfg, s, op).0.sessions;
    assert forall id <- t :: id in s.sessions && t[id].user == s.sessions[id].user && t[id].family == s.sessions[id].family;
  }

  lemma StepOwner(cfg: S.Config, s: S.State, op: S.Op)
    requires OneOwner(s.sessions) && S.RowsFresh(s.sessions, s.next)
    ensures OneOwner(S.Step(cfg, s, op).0.sessions)
  {
    match op
    case Register(sso) => RegisterOwner(cfg, s, sso);
    case Login(user, w) => LoginOwner(cfg, s, user, false, S.Defers(w), S.Rooms(w));
    case SsoLogin(user, w, again) => LoginOwner(cfg, s, user, true, S.Defers(w), S.Rooms(w) || S.Rooms(again));
    case ResolveLogin(p, session, w) => ResolveOwner(cfg, s, p, session, w);
    case Refresh(token) => RefreshOwner(cfg, s, token);
    case _ => PlainOwner(cfg, s, op);
  }

  lemma {:induction false} RunOwner(cfg: S.Config, s: S.State, ops: seq<S.Op>)
    requires S.Inv(s) && OneOwner(s.sessions)
    ensures OneOwner(S.Run(cfg, s, ops).sessions)
    decreases |ops|
  {
    if ops == [] {
    } else {
      StepOwner(cfg, s, ops[0]);
      S.StepKeeps(cfg, s, ops[0], 0);
      RunOwner(cfg, S.Step(cfg, s, ops[0]).0, ops[1..]);
    }
  }

  // ---- Signing out everywhere ----

  lemma RevokeAllKills(cfg: S.Config, s: S.State, id: nat)
    requires S.Inv(s) && OneOwner(s.sessions) && id in s.sessions
    ensures S.Dead(S.Step(cfg, s, S.RevokeAll(s.sessions[id].user)).0, s.sessions[id].family)
  {
  }

  /** After all sessions of a user are revoked: no refresh token of any family the user had works, whatever follows. No
      access token of the user from an earlier second is accepted either, whatever follows, provided that some session was
      still unrevoked and the mark was written; otherwise every access token stays as it was. */
  lemma SignOutEverywhere(cfg: S.Config, ttl: nat, before: seq<Op>, id: nat, marked: bool, after: seq<Op>, token: nat,
                          g: R.Grant)
    requires id in Run(cfg, ttl, EMPTY, before).sessions.sessions
    ensures var j := Run(cfg, ttl, EMPTY, before);
            var row := j.sessions.sessions[id];
            var hits := marked && Unrevoked(j.sessions, row.user) != {};
            var out := Step(cfg, ttl, j, Auth(S.RevokeAll(row.user), marked));
            var end := Run(cfg, ttl, out, after);
            && (token in end.sessions.issued && end.sessions.issued[token].family == row.family ==>
                  S.Step(cfg, end.sessions, S.Refresh(token)).1 == S.Refused)
            && (hits && g in j.tokens.grants && g.user == row.user && g.at / R.SECOND < j.tokens.now / R.SECOND ==>
                  !R.Accepts(end.tokens, R.TokenOf(g, ttl)))
            && (!hits ==> out.tokens == j.tokens)
  {
    var j := Run(cfg, ttl, EMPTY, before);
    var row := j.sessions.sessions[id];
    var out := Step(cfg, ttl, j, Auth(S.RevokeAll(row.user), marked));
    AllDead(cfg, ttl, before, id, out, after, token);
    if marked && Unrevoked(j.sessions, row.user) != {} {
      One(ttl, j.tokens, R.MarkRevoked(row.user));
      if g in j.tokens.grants && g.user == row.user && g.at / R.SECOND < j.tokens.now / R.SECOND {
        MarkedForever(cfg, ttl, before, out, after, g);
      }
    }
  }

  /** The second case is reachable with a mark that works: a logout whose mark was lost has revoked the only session, so
      signing out everywhere a second later finds nothing to revoke and marks nobody. */
  lemma SignOutMarksNobody(cfg: S.Config)
    ensures var ttl := 10 * R.SECOND;
            var ops := [Auth(S.Register(false), true), Auth(S.Logout(2), false), Auth(S.Tick(R.SECOND), true)];
            var j := Run(cfg, ttl, EMPTY, ops);
            var out := Step(cfg, ttl, j, Auth(S.RevokeAll(0), true));
            && R.Grant(0, 0) in j.tokens.grants && 1 in j.sessions.sessions && j.sessions.sessions[1].user == 0
            && R.Accepts(out.tokens, R.TokenOf(R.Grant(0, 0), ttl))
  {
    var ttl := 10 * R.SECOND;
    var ops := [Auth(S.Register(false), true), Auth(S.Logout(2), false), Auth(S.Tick(R.SECOND), true)];
    var j1 := Step(cfg, ttl, EMPTY, ops[0]);
    FirstAccount(cfg, ttl, j1);
    var j2 := Step(cfg, ttl, j1, ops[1]);
    LostLogout(cfg, ttl, j1);
    var j3 := Step(cfg, ttl, j2, ops[2]);
    One(ttl, j2.tokens, R.Tick(R.SECOND));
    assert Unrevoked(j3.sessions, 0) == {};
    assert Run(cfg, ttl, j2, ops[2..]) == j3 by { assert ops[2..][1..] == []; }
    assert Run(cfg, ttl, j1, ops[1..]) == j3 by { assert ops[1..][1..] == ops[2..]; }
  }

  lemma FirstAccount(cfg: S.Config, ttl: nat, j: State)
    requires j == Step(cfg, ttl, EMPTY, Auth(S.Register(false), true))
    ensures j.sessions.sessions == map[1 := S.Session(0, 2, 3, false, 0, 0, cfg.refreshTtl, false)]
    ensures j.tokens == R.State(0, {0}, map[0 := 0], map[], map[], {R.Grant(0, 0)})
  {
    var ops := [R.AddUser(0), R.Generate(0)];
    assert ops[1..] == [R.Generate(0)];
    One(ttl, R.Step(ttl, R.EMPTY, ops[0]), R.Generate(0));
  }

  lemma LostLogout(cfg: S.Config, ttl: nat, j: State)
    requires j.sessions.sessions == map[1 := S.Session(0, 2, 3, false, 0, 0, cfg.refreshTtl, false)]
    ensures var t := Step(cfg, ttl, j, Auth(S.Logout(2), false));
            t.tokens == j.tokens && t.sessions.sessions == map[1 := S.Session(0, 2, 3, false, 0, 0, cfg.refreshTtl, true)]
  {
    assert S.HasToken(j.sessions.sessions, 1, 2);
    assert S.ByToken(j.sessions.sessions, 2) == Some(1);
  }

  lemma AllDead(cfg: S.Config, ttl: nat, before: seq<Op>, id: nat, out: State, after: seq<Op>, token: nat)
    requires var s := Run(cfg, ttl, EMPTY, before).sessions;
             id in s.sessions && out.sessions == S.Step(cfg, s, S.RevokeAll(s.sessions[id].user)).0
    ensures var row := Run(cfg, ttl, EMPTY, before).sessions.sessions[id];
            var end := Run(cfg, ttl, out, after).sessions;
            token in end.issued && end.issued[token].family == row.family ==> S.Step(cfg, end, S.Refresh(token)).1 == S.Refused
  {
    var s := Run(cfg, ttl, EMPTY, before).sessions;
    var sops, _ := Projects(cfg, ttl, EMPTY, before);
    Reachable(cfg, ttl, before);
    RunOwner(cfg, S.EMPTY, sops);
    RevokeAllKills(cfg, s, id);
    S.StepKeeps(cfg, s, S.RevokeAll(s.sessions[id].user), 0);
    DeadForever(cfg, ttl, out, after, s.sessions[id].family, token);
  }

  /** After a password reset: the same, and here every access token handed out before is refused, one of the same second
      included. */
  lemma ResetEndsBoth(cfg: S.Config, ttl: nat, before: seq<Op>, id: nat, after: seq<Op>, token: nat, g: R.Grant)
    requires id in Run(cfg, ttl, EMPTY, before).sessions.sessions
    ensures var j := Run(cfg, ttl, EMPTY, before);
            var row := j.sessions.sessions[id];
            var end := Run(cfg, ttl, Step(cfg, ttl, j, ResetPassword(row.user)), after);
            && (token in end.sessions.issued && end.sessions.issued[token].family == row.family ==>
                  S.Step(cfg, end.sessions, S.Refresh(token)).1 == S.Refused)
            && (g in j.tokens.grants && g.user == row.user && g.at < j.tokens.now ==>
                  !R.Accepts(end.tokens, R.TokenOf(g, ttl)))
  {
    var j := Run(cfg, ttl, EMPTY, before);
    var row := j.sessions.sessions[id];
    var out := Step(cfg, ttl, j, ResetPassword(row.user));
    AllDead(cfg, ttl, before, id, out, after, token);
    if g in j.tokens.grants && g.user == row.user && g.at < j.tokens.now {
      var _, rops := Projects(cfg, ttl, EMPTY, before);
      var _, rafter := Projects(cfg, ttl, out, after);
      R.PasswordChangeInvalidates(ttl, rops, rafter, g);
    }
  }

  // ---- Reuse detection reaches refresh tokens only ----

  /** A replayed refresh token ends its family, but marks nobody: every access token is accepted or refused as before the
      replay, although the answer speaks of all sessions. */
  lemma ReplayLeavesAccess(cfg: S.Config, ttl: nat, j: State, id: nat, marked: bool, t: R.Token)
    requires S.Inv(j.sessions) && id in j.sessions.sessions && j.sessions.sessions[id].revoked
    ensures var row := j.sessions.sessions[id];
            var out := Step(cfg, ttl, j, Auth(S.Refresh(row.token), marked));
            && S.Dead(out.sessions, row.family)
            && (R.Accepts(out.tokens, t) <==> R.Accepts(j.tokens, t))
  {
    S.ReplayKills(cfg, j.sessions, id);
  }
}
