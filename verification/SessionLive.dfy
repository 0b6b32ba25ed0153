/** The session cap counted in sessions that still refresh. Refresh honours a row up to and including the instant of its
    expiry, while the limit check has stopped counting it by then, so this cap has exceptions of its own. */
module SessionLive {
  import opened Common
  import opened Locks
  import opened Sessions
  import opened SessionCap

  /** Unrevoked rows that are not past their expiry. */
  function Live(s: State, u: nat): set<nat> {
    set id | id in s.sessions && s.sessions[id].user == u && !s.sessions[id].revoked && s.now <= s.sessions[id].expiresAt
  }

  ghost predicate LiveCapped(cfg: Config, s: State, u: nat) {
    u in s.users ==> |Live(s, u)| <= LimitOf(cfg, s.users[u])
  }

  // ---- How the primitive updates change the live set ----

  lemma LiveAfterRevoke(s: State, ids: set<nat>, u: nat)
    ensures Live(RevokeIn(s, ids), u) == Live(s, u) - ids
  {
  }

  lemma LiveAfterIssue(cfg: Config, s: State, user: nat, family: nat, sso: bool, u: nat)
    requires s.next !in s.sessions
    ensures Live(Issue(cfg, s, user, family, sso), u) == if u == user then Live(s, u) + {s.next} else Live(s, u)
  {
  }

  lemma LiveAfterFreed(s: State, p: nat, session: nat, u: nat)
    requires p in s.pending
    ensures Live(Freed(s, p, session), u) == if u == s.pending[p].user then Live(s, u) - {session} else Live(s, u)
  {
    LiveAfterRevoke(Consumed(s, p), OwnedRow(s.sessions, s.pending[p].user, session), u);
  }

  /** Active rows are live; the others among the live ones expire at this very instant. */
  lemma ActiveIsLive(s: State, u: nat)
    ensures Active(s, u) <= Live(s, u) && |Active(s, u)| <= |Live(s, u)|
    ensures |Active(s, u)| == |Live(s, u)| ==> Active(s, u) == Live(s, u)
  {
    SubsetCount(Active(s, u), Live(s, u));
    if Active(s, u) != Live(s, u) {
      var id :| id in Live(s, u) && id !in Active(s, u);
      SubsetCount(Active(s, u), Live(s, u) - {id});
    }
  }

  /** Making room for a user whose live sessions are all active frees a live slot. */
  lemma RoomFreesLive(s: State, user: nat, limit: nat)
    requires limit >= 1 && |Active(s, user)| == |Live(s, user)| == limit
    ensures |Live(MakeRoom(s, user, limit), user)| == limit - 1
  {
    var excess := Exceeding(s.sessions, Active(s, user), limit - 1);
    ActiveIsLive(s, user);
    KeptCount(s.sessions, Active(s, user), limit - 1);
    LiveAfterRevoke(s, excess, user);
  }

  lemma RoomKeepsOthers(s: State, user: nat, limit: nat, u: nat)
    requires limit >= 1
    ensures Live(MakeRoom(s, user, limit), u) <= Live(s, u)
    ensures u != user || |Active(s, u)| < limit ==> Live(MakeRoom(s, user, limit), u) == Live(s, u)
  {
    var excess := Exceeding(s.sessions, Active(s, user), limit - 1);
    LiveAfterRevoke(s, excess, u);
  }

  // ---- Which steps keep the live cap ----

  /** A login that goes through while as many sessions as the limit still refresh: because one of them expires at this
      very instant and is not counted, or because the limit check failed. */
  predicate CrowdingLogin(cfg: Config, s: State, user: nat, sso: bool, defers: bool, rooms: bool, u: nat) {
    && user == u && u in s.users && LockPermits(s.users[u].lock, sso)
    && |Live(s, u)| == LimitOf(cfg, s.users[u])
    && (|Active(s, u)| < LimitOf(cfg, s.users[u]) || (!defers && !rooms))
  }

  /** A resolution that goes through although the chosen session does not refresh, in the same circumstances. */
  predicate CrowdingResolution(cfg: Config, s: State, p: nat, session: nat, works: Works, u: nat) {
    && p in s.pending && s.now < s.pending[p].expiresAt && s.pending[p].user == u && u in s.users && works.revokes
    && session !in Live(s, u) && |Live(s, u)| == LimitOf(cfg, s.users[u])
    && (|Active(s, u)| < LimitOf(cfg, s.users[u]) || !works.counts)
  }

  predicate KeepsLiveCap(cfg: Config, s: State, op: Op, u: nat) {
    match op
    case Login(user, w) => !CrowdingLogin(cfg, s, user, false, Defers(w), Rooms(w), u)
    case SsoLogin(user, w, again) => !CrowdingLogin(cfg, s, user, true, Defers(w), Rooms(w) || Rooms(again), u)
    case ResolveLogin(p, session, w) => !CrowdingResolution(cfg, s, p, session, w, u)
    case SetMaxSessions(user, n) =>
      user == u && u in s.users ==> |Live(s, u)| <= LimitOf(cfg, s.users[u].(maxSessions := Some(n)))
    case _ => true
  }

  lemma ShrinkKeepsLive(cfg: Config, s: State, s': State, u: nat)
    requires LiveCapped(cfg, s, u) && Live(s', u) <= Live(s, u)
    requires u in s'.users ==> u in s.users && LimitOf(cfg, s'.users[u]) == LimitOf(cfg, s.users[u])
    ensures LiveCapped(cfg, s', u)
  {
    SubsetCount(Live(s', u), Live(s, u));
  }

  lemma IssueKeepsLive(cfg: Config, s: State, user: nat, family: nat, sso: bool, u: nat)
    requires s.next !in s.sessions && LiveCapped(cfg, s, u)
    ensures LiveCapped(cfg, Issue(cfg, s, user, family, sso), u)
       <==> !(u == user && u in s.users && |Live(s, u)| == LimitOf(cfg, s.users[u]))
  {
    LiveAfterIssue(cfg, s, user, family, sso, u);
    assert s.next !in Live(s, u);
  }

  lemma RoomedLoginKeepsLive(cfg: Config, s: State, user: nat, sso: bool, u: nat)
    requires s.next !in s.sessions && LiveCapped(cfg, s, u) && user in s.users
    ensures var limit := LimitOf(cfg, s.users[user]);
            (LiveCapped(cfg, IssueNew(cfg, MakeRoom(s, user, limit), user, sso), u)
             <==> !(u == user && |Live(s, u)| == limit && |Active(s, u)| < limit))
  {
    var limit := LimitOf(cfg, s.users[user]);
    var room := MakeRoom(s, user, limit);
    RoomKeepsOthers(s, user, limit, u);
    ActiveIsLive(s, u);
    ShrinkKeepsLive(cfg, s, room, u);
    IssueKeepsLive(cfg, room, user, room.next + 2, sso, u);
    if u == user && |Active(s, u)| >= limit {
      RoomFreesLive(s, user, limit);
    }
  }

  lemma LoginKeepsLive(cfg: Config, s: State, user: nat, sso: bool, defers: bool, rooms: bool, u: nat)
    requires s.next !in s.sessions && LiveCapped(cfg, s, u)
    ensures LiveCapped(cfg, LoginStep(cfg, s, user, sso, defers, rooms).0, u)
       <==> !CrowdingLogin(cfg, s, user, sso, defers, rooms, u)
  {
    if user in s.users && LockPermits(s.users[user].lock, sso) {
      var limit := LimitOf(cfg, s.users[user]);
      if |Active(s, user)| >= limit && defers {
        assert Live(Defer(cfg, s, user).0, u) == Live(s, u);
      } else if rooms {
        RoomedLoginKeepsLive(cfg, s, user, sso, u);
      } else {
        ActiveIsLive(s, u);
        IssueKeepsLive(cfg, s, user, s.next + 2, sso, u);
      }
    }
  }

  lemma FreedKeepsLive(cfg: Config, s: State, p: nat, session: nat, u: nat)
    requires p in s.pending && LiveCapped(cfg, s, u)
    ensures LiveCapped(cfg, Freed(s, p, session), u)
  {
    LiveAfterFreed(s, p, session, u);
    ShrinkKeepsLive(cfg, s, Freed(s, p, session), u);
  }

  /** The freed state is as full as before exactly when the chosen session was not live. */
  lemma FreedFull(s: State, p: nat, session: nat, limit: nat)
    requires p in s.pending && |Live(s, s.pending[p].user)| <= limit
    ensures var u, freed := s.pending[p].user, Freed(s, p, session);
            && (|Live(freed, u)| == limit <==> |Live(s, u)| == limit && session !in Live(s, u))
            && (session !in Live(s, u) ==> Active(freed, u) == Active(s, u))
            && |Active(freed, u)| <= |Live(freed, u)|
  {
    var u := s.pending[p].user;
    LiveAfterFreed(s, p, session, u);
    ActiveAfterFreed(s, p, session, u);
    FullWithout(Live(s, u), session, limit);
    ActiveIsLive(s, u);
    ActiveIsLive(Freed(s, p, session), u);
  }

  lemma ResolveKeepsLive(cfg: Config, s: State, p: nat, session: nat, works: Works, u: nat)
    requires s.next !in s.sessions && LiveCapped(cfg, s, u)
    ensures LiveCapped(cfg, ResolveStep(cfg, s, p, session, works).0, u)
       <==> !CrowdingResolution(cfg, s, p, session, works, u)
  {
    if p in s.pending && s.now < s.pending[p].expiresAt && s.pending[p].user in s.users && works.revokes {
      var user, freed := s.pending[p].user, Freed(s, p, session);
      FreedKeepsLive(cfg, s, p, session, u);
      if u == user {
        FreedFull(s, p, session, LimitOf(cfg, s.users[u]));
      }
      FreedStepKeepsLive(cfg, freed, user, works, u);
    }
  }

  lemma FreedStepKeepsLive(cfg: Config, freed: State, user: nat, works: Works, u: nat)
    requires freed.next !in freed.sessions && LiveCapped(cfg, freed, u) && user in freed.users
    ensures LiveCapped(cfg, FreedStep(cfg, freed, user, works).0, u)
       <==> !(&& u == user && |Live(freed, u)| == LimitOf(cfg, freed.users[u])
              && !(works.counts && |Active(freed, u)| >= LimitOf(cfg, freed.users[u])))
  {
    assert Live(Defer(cfg, freed, user).0, u) == Live(freed, u);
    IssueKeepsLive(cfg, freed, user, freed.next + 2, false, u);
  }

  /** A rotation replaces one live session by another. */
  lemma RotationKeepsLive(cfg: Config, s: State, id: nat, u: nat)
    requires s.next !in s.sessions && id in s.sessions && id in Live(s, s.sessions[id].user)
    ensures var row := s.sessions[id];
            |Live(Issue(cfg, RevokeIn(s, {id}), row.user, row.family, row.sso), u)| == |Live(s, u)|
  {
    var row := s.sessions[id];
    LiveAfterRevoke(s, {id}, u);
    LiveAfterIssue(cfg, RevokeIn(s, {id}), row.user, row.family, row.sso, u);
    assert s.next !in Live(s, u);
    if u != row.user {
      assert Live(s, u) - {id} == Live(s, u);
    }
  }

  lemma RefreshKeepsLive(cfg: Config, s: State, token: nat, u: nat)
    requires Inv(s) && LiveCapped(cfg, s, u)
    ensures LiveCapped(cfg, RefreshStep(cfg, s, token).0, u)
  {
    if ByToken(s.sessions, token).Some? {
      var id := ByToken(s.sessions, token).value;
      var row := s.sessions[id];
      if RefreshStep(cfg, s, token).1.Issued? {
        RotationKeepsLive(cfg, s, id, u);
      } else {
        LiveAfterRevoke(s, InFamily(s.sessions, row.family), u);
        LiveAfterRevoke(s, {id}, u);
        ShrinkKeepsLive(cfg, s, RefreshStep(cfg, s, token).0, u);
      }
    }
  }

  lemma RegisterKeepsLive(cfg: Config, s: State, sso: bool, u: nat)
    requires s.next + 1 !in s.sessions && Live(s, s.next) == {} && LiveCapped(cfg, s, u)
    ensures LiveCapped(cfg, Step(cfg, s, Register(sso)).0, u)
  {
    var withUser := WithUser(s);
    assert Live(withUser, u) == Live(s, u);
    IssueKeepsLive(cfg, withUser, s.next, withUser.next + 2, sso, u);
  }

  lemma PlainKeepsLive(cfg: Config, s: State, op: Op, u: nat)
    requires LiveCapped(cfg, s, u)
    requires !op.Register? && !op.Login? && !op.SsoLogin? && !op.ResolveLogin? && !op.Refresh? && !op.SetMaxSessions?
    ensures LiveCapped(cfg, Step(cfg, s, op).0, u)
  {
    var s' := Step(cfg, s, op).0;
    assert Live(s', u) <= Live(s, u);
    ShrinkKeepsLive(cfg, s, s', u);
  }

  lemma LimitChangeKeepsLive(cfg: Config, s: State, user: nat, n: int, u: nat)
    requires LiveCapped(cfg, s, u)
    ensures LiveCapped(cfg, Step(cfg, s, SetMaxSessions(user, n)).0, u) <==> KeepsLiveCap(cfg, s, SetMaxSessions(user, n), u)
  {
    assert Live(Step(cfg, s, SetMaxSessions(user, n)).0, u) == Live(s, u);
  }

  /** A step keeps the sessions of a user that still refresh within the limit if and only if it is neither a login nor a
      resolution that goes through while they are as many as the limit, nor an administrator lowering the limit below
      their number. A refresh never adds to them. */
  lemma StepKeepsLiveCapExactly(cfg: Config, s: State, op: Op, u: nat)
    requires Inv(s) && LiveCapped(cfg, s, u)
    ensures LiveCapped(cfg, Step(cfg, s, op).0, u) <==> KeepsLiveCap(cfg, s, op, u)
  {
    match op
    case Register(sso) => RegisterKeepsLive(cfg, s, sso, u);
    case Login(user, w) => LoginKeepsLive(cfg, s, user, false, Defers(w), Rooms(w), u);
    case SsoLogin(user, w, again) => LoginKeepsLive(cfg, s, user, true, Defers(w), Rooms(w) || Rooms(again), u);
    case ResolveLogin(p, session, w) => ResolveKeepsLive(cfg, s, p, session, w, u);
    case Refresh(token) => RefreshKeepsLive(cfg, s, token, u);
    case SetMaxSessions(user, n) => LimitChangeKeepsLive(cfg, s, user, n, u);
    case _ => PlainKeepsLive(cfg, s, op, u);
  }

  // ---- Whole runs ----

  ghost predicate KeepsLiveThroughout(cfg: Config, s: State, ops: seq<Op>, u: nat)
    decreases |ops|
  {
    ops == [] || (KeepsLiveCap(cfg, s, ops[0], u) && KeepsLiveThroughout(cfg, Step(cfg, s, ops[0]).0, ops[1..], u))
  }

  ghost predicate LiveCappedThroughout(cfg: Config, s: State, ops: seq<Op>, u: nat)
    decreases |ops|
  {
    LiveCapped(cfg, s, u) && (ops == [] || LiveCappedThroughout(cfg, Step(cfg, s, ops[0]).0, ops[1..], u))
  }

  /** Over a whole run the user's live sessions are within the limit in every state exactly when no step of the run is
      one of those exceptions. */
  lemma {:induction false} RunKeepsLiveCapExactly(cfg: Config, s: State, ops: seq<Op>, u: nat)
    requires Inv(s) && LiveCapped(cfg, s, u)
    ensures KeepsLiveThroughout(cfg, s, ops, u) <==> LiveCappedThroughout(cfg, s, ops, u)
    decreases |ops|
  {
    if ops == [] {
    } else {
      var s' := Step(cfg, s, ops[0]).0;
      StepKeeps(cfg, s, ops[0], 0);
      StepKeepsLiveCapExactly(cfg, s, ops[0], u);
      if LiveCapped(cfg, s', u) {
        RunKeepsLiveCapExactly(cfg, s', ops[1..], u);
      } else {
        assert !LiveCappedThroughout(cfg, s', ops[1..], u);
      }
    }
  }

  /** The exception is reachable with everything working: a login at the instant the only session expires leaves two
      sessions that refresh, under a limit of one. */
  lemma LiveCapBrokenAtExpiryInstant()
    ensures var cfg := Config(10, 300, 1);
            var s := Run(cfg, EMPTY, [Register(false), Tick(10), Login(0, ALL_WORK)]);
            0 in s.users && |Live(s, 0)| == 2 && LimitOf(cfg, s.users[0]) == 1
  {
    var cfg := Config(10, 300, 1);
    var ops := [Register(false), Tick(10), Login(0, ALL_WORK)];
    var s1 := Step(cfg, EMPTY, ops[0]).0;
    var s2 := Step(cfg, s1, ops[1]).0;
    assert Active(s2, 0) == {};
    var s3 := Step(cfg, s2, ops[2]).0;
    assert Live(s3, 0) == {1, 4};
    assert Run(cfg, s2, ops[2..]) == s3 by { assert ops[2..][1..] == []; }
    assert Run(cfg, s1, ops[1..]) == s3 by { assert ops[1..][1..] == ops[2..]; }
  }

  /** So is the other, with everything working: a login is deferred, the only session comes to its expiry instant, and the
      resolution names no session. */
  lemma LiveCapBrokenByResolution()
    ensures var cfg := Config(10, 300, 1);
            var s := Run(cfg, EMPTY, [Register(false), Login(0, ALL_WORK), Tick(10), ResolveLogin(4, 0, ALL_WORK)]);
            0 in s.users && |Live(s, 0)| == 2 && LimitOf(cfg, s.users[0]) == 1
  {
    var cfg := Config(10, 300, 1);
    var ops := [Register(false), Login(0, ALL_WORK), Tick(10), ResolveLogin(4, 0, ALL_WORK)];
    var s1 := Deferred(cfg);
    var s3 := DEFERRED.(now := 10);
    assert Step(cfg, DEFERRED, ops[2]).0 == s3;
    var s4 := Step(cfg, s3, ops[3]).0;
    ResolvesAtExpiry(cfg, s3);
    assert Run(cfg, s3, ops[3..]) == s4 by { assert ops[3..][1..] == []; }
    assert Run(cfg, DEFERRED, ops[2..]) == s4 by { assert ops[2..][1..] == ops[3..]; }
    assert Run(cfg, s1, ops[1..]) == s4 by { assert ops[1..][1..] == ops[2..]; }
  }

  lemma ResolvesAtExpiry(cfg: Config, s: State)
    requires cfg == Config(10, 300, 1) && s == DEFERRED.(now := 10)
    ensures var t := Step(cfg, s, ResolveLogin(4, 0, ALL_WORK)).0; t.users == s.users && |Live(t, 0)| == 2
  {
    assert Active(Freed(s, 4, 0), 0) == {};
    assert Live(Step(cfg, s, ResolveLogin(4, 0, ALL_WORK)).0, 0) == {1, 5};
  }
}
