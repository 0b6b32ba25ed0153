/** The per-user session cap over every mix of steps: exactly which steps can break it, and that nothing else does. */
module SessionCap {
  import opened Common
  import opened Locks
  import opened Sessions

  /** The user's active sessions fit under the user's limit. */
  ghost predicate Capped(cfg: Config, s: State, u: nat) {
    u in s.users ==> |Active(s, u)| <= LimitOf(cfg, s.users[u])
  }

  // ---- Row numbers: keeping the `keep` most recent rows ----

  lemma OldestExists(sessions: map<nat, Session>, ids: set<nat>) returns (oldest: nat)
    requires ids != {} && ids <= sessions.Keys
    ensures oldest in ids && forall id <- ids :: id != oldest ==> Newer(sessions, id, oldest)
    decreases |ids|
  {
    var any :| any in ids;
    oldest := any;
    var rest := ids - {any};
    if rest != {} {
      var o := OldestExists(sessions, rest);
      if Newer(sessions, o, any) {
        assert forall id <- rest :: Newer(sessions, id, o) || id == o;
      } else {
        oldest := o;
      }
    }
    assert forall id <- ids :: id == any || id in rest;
  }

  /** The oldest row has the last row number and does not affect the row number of any other. */
  lemma KeptWithoutOldest(sessions: map<nat, Session>, ids: set<nat>, keep: nat, oldest: nat)
    requires ids <= sessions.Keys && oldest in ids && forall id <- ids :: id != oldest ==> Newer(sessions, id, oldest)
    ensures var rest := ids - {oldest};
            ids - Exceeding(sessions, ids, keep) ==
            (rest - Exceeding(sessions, rest, keep)) + (if |rest| >= keep then {} else {oldest})
  {
    var rest := ids - {oldest};
    assert NewerThan(sessions, ids, oldest) == rest;
    assert forall id <- rest :: NewerThan(sessions, ids, id) == NewerThan(sessions, rest, id);
  }

  /** Revoking the rows past row number `keep` leaves exactly `keep` of them, or all when there are fewer. */
  lemma {:induction false} KeptCount(sessions: map<nat, Session>, ids: set<nat>, keep: nat)
    requires ids <= sessions.Keys
    ensures |ids - Exceeding(sessions, ids, keep)| == if |ids| < keep then |ids| else keep
    decreases |ids|
  {
    if ids == {} {
    } else {
      var oldest := OldestExists(sessions, ids);
      KeptWithoutOldest(sessions, ids, keep, oldest);
      KeptCount(sessions, ids - {oldest}, keep);
    }
  }

  /** The rows that are revoked are the oldest: every row that is kept is newer than every row that is not. */
  lemma KeptAreNewer(sessions: map<nat, Session>, ids: set<nat>, keep: nat, kept: nat, dropped: nat)
    requires ids <= sessions.Keys && kept in ids && dropped in ids
    requires kept !in Exceeding(sessions, ids, keep) && dropped in Exceeding(sessions, ids, keep)
    ensures Newer(sessions, kept, dropped)
  {
    if Newer(sessions, dropped, kept) {
      var below, above := NewerThan(sessions, ids, dropped), NewerThan(sessions, ids, kept);
      SubsetCount(below, above);
    }
  }

  lemma SubsetCount(a: set<nat>, b: set<nat>)
    requires a <= b
    ensures |a| <= |b|
  {
    assert b == a + (b - a);
  }

  // ---- How the primitive updates change the active set ----

  lemma ActiveAfterRevoke(s: State, ids: set<nat>, u: nat)
    ensures Active(RevokeIn(s, ids), u) == Active(s, u) - ids
  {
  }

  lemma ActiveAfterIssue(cfg: Config, s: State, user: nat, family: nat, sso: bool, u: nat)
    requires s.next !in s.sessions
    ensures Active(Issue(cfg, s, user, family, sso), u) ==
            if u == user && cfg.refreshTtl > 0 then Active(s, u) + {s.next} else Active(s, u)
  {
  }

  lemma ActiveAfterFreed(s: State, p: nat, session: nat, u: nat)
    requires p in s.pending
    ensures Active(Freed(s, p, session), u) == if u == s.pending[p].user then Active(s, u) - {session} else Active(s, u)
  {
    ActiveAfterRevoke(Consumed(s, p), OwnedRow(s.sessions, s.pending[p].user, session), u);
  }

  lemma RoomLeavesSpace(s: State, user: nat, limit: nat, u: nat)
    requires limit >= 1
    ensures var room := MakeRoom(s, user, limit);
            if u == user then |Active(room, u)| == (if |Active(s, u)| < limit then |Active(s, u)| else limit - 1)
            else Active(room, u) == Active(s, u)
  {
    var excess := Exceeding(s.sessions, Active(s, user), limit - 1);
    KeptCount(s.sessions, Active(s, user), limit - 1);
    ActiveAfterRevoke(s, excess, u);
    assert u != user ==> Active(s, u) - excess == Active(s, u);
  }

  // ---- Which steps keep the cap ----

  /** A refresh presented at the very instant its row expires, while the owner's cap is full: the row is no
      longer counted as active, but it still refreshes. */
  ghost predicate BoundaryRefresh(cfg: Config, s: State, token: nat, u: nat) {
    && CanRefresh(s, token) && cfg.refreshTtl > 0 && u in s.users && |Active(s, u)| == LimitOf(cfg, s.users[u])
    && exists id :: HasToken(s.sessions, id, token) && s.sessions[id].expiresAt == s.now && s.sessions[id].user == u
  }

  /** A login that goes through with a full cap, because neither a pending login could be stored nor room made. */
  predicate ForcedLogin(cfg: Config, s: State, user: nat, sso: bool, defers: bool, rooms: bool, u: nat) {
    && user == u && u in s.users && LockPermits(s.users[u].lock, sso) && cfg.refreshTtl > 0 && !defers && !rooms
    && |Active(s, u)| == LimitOf(cfg, s.users[u])
  }

  /** A resolution that goes through because the sessions could not be counted, while the chosen one was not active and
      the cap is full. */
  predicate ForcedResolution(cfg: Config, s: State, p: nat, session: nat, works: Works, u: nat) {
    && p in s.pending && s.now < s.pending[p].expiresAt && s.pending[p].user == u && u in s.users && cfg.refreshTtl > 0
    && works.revokes && !works.counts && session !in Active(s, u) && |Active(s, u)| == LimitOf(cfg, s.users[u])
  }

  /** What a caller would have to check before the step. */
  ghost predicate KeepsCap(cfg: Config, s: State, op: Op, u: nat) {
    match op
    case Login(user, w) => !ForcedLogin(cfg, s, user, false, Defers(w), Rooms(w), u)
    case SsoLogin(user, w, again) => !ForcedLogin(cfg, s, user, true, Defers(w), Rooms(w) || Rooms(again), u)
    case ResolveLogin(p, session, w) => !ForcedResolution(cfg, s, p, session, w, u)
    case Refresh(token) => !BoundaryRefresh(cfg, s, token, u)
    case SetMaxSessions(user, n) =>
      user == u && u in s.users ==> |Active(s, u)| <= LimitOf(cfg, s.users[u].(maxSessions := Some(n)))
    case _ => true
  }

  lemma ShrinkKeepsCap(cfg: Config, s: State, s': State, u: nat)
    requires Capped(cfg, s, u) && Active(s', u) <= Active(s, u)
    requires u in s'.users ==> u in s.users && LimitOf(cfg, s'.users[u]) == LimitOf(cfg, s.users[u])
    ensures Capped(cfg, s', u)
  {
    SubsetCount(Active(s', u), Active(s, u));
  }

  /** A new session keeps the cap exactly when it is another user's, or there is room, or it is never active. */
  lemma IssueKeepsCap(cfg: Config, s: State, user: nat, family: nat, sso: bool, u: nat)
    requires s.next !in s.sessions && Capped(cfg, s, u)
    ensures Capped(cfg, Issue(cfg, s, user, family, sso), u)
       <==> !(u == user && u in s.users && cfg.refreshTtl > 0 && |Active(s, u)| == LimitOf(cfg, s.users[u]))
  {
    ActiveAfterIssue(cfg, s, user, family, sso, u);
  }

  lemma LoginKeepsCap(cfg: Config, s: State, user: nat, sso: bool, defers: bool, rooms: bool, u: nat)
    requires s.next !in s.sessions && Capped(cfg, s, u)
    ensures Capped(cfg, LoginStep(cfg, s, user, sso, defers, rooms).0, u)
       <==> !ForcedLogin(cfg, s, user, sso, defers, rooms, u)
  {
    if user in s.users && LockPermits(s.users[user].lock, sso) {
      var limit := LimitOf(cfg, s.users[user]);
      if |Active(s, user)| >= limit && defers {
      } else if rooms {
        RoomLeavesSpace(s, user, limit, u);
        var room := MakeRoom(s, user, limit);
        IssueKeepsCap(cfg, room, user, room.next + 2, sso, u);
      } else {
        IssueKeepsCap(cfg, s, user, s.next + 2, sso, u);
      }
    }
  }

  /** The second half of a resolution breaks the cap exactly when it goes through uncounted with a full one. */
  lemma FreedStepKeepsCap(cfg: Config, freed: State, user: nat, works: Works, u: nat)
    requires freed.next !in freed.sessions && Capped(cfg, freed, u) && user in freed.users
    ensures Capped(cfg, FreedStep(cfg, freed, user, works).0, u)
       <==> !(u == user && cfg.refreshTtl > 0 && !works.counts && |Active(freed, u)| == LimitOf(cfg, freed.users[u]))
  {
    IssueKeepsCap(cfg, freed, user, freed.next + 2, false, u);
  }

  lemma ResolveKeepsCap(cfg: Config, s: State, p: nat, session: nat, works: Works, u: nat)
    requires s.next !in s.sessions && Capped(cfg, s, u)
    ensures Capped(cfg, ResolveStep(cfg, s, p, session, works).0, u) <==> !ForcedResolution(cfg, s, p, session, works, u)
  {
    if p in s.pending && s.now < s.pending[p].expiresAt && s.pending[p].user in s.users && works.revokes {
      var user, freed := s.pending[p].user, Freed(s, p, session);
      ActiveAfterFreed(s, p, session, u);
      ShrinkKeepsCap(cfg, s, freed, u);
      FreedStepKeepsCap(cfg, freed, user, works, u);
      if u == user {
        FullWithout(Active(s, u), session, LimitOf(cfg, s.users[u]));
      }
    }
  }

  lemma FullWithout(a: set<nat>, x: nat, limit: nat)
    requires |a| <= limit
    ensures |a - {x}| == limit <==> |a| == limit && x !in a
  {
    if x !in a { assert a - {x} == a; }
  }

  /** A successful rotation keeps the cap exactly when the spent row was counted or there is a slot free. */
  lemma RotationKeepsCap(cfg: Config, s: State, id: nat, u: nat)
    requires s.next !in s.sessions && Capped(cfg, s, u)
    requires id in s.sessions && s.sessions[id].user in s.users && !s.sessions[id].revoked && s.now <= s.sessions[id].expiresAt
    ensures var row := s.sessions[id];
            var s' := Issue(cfg, RevokeIn(s, {id}), row.user, row.family, row.sso);
            Capped(cfg, s', u) <==>
            !(row.user == u && cfg.refreshTtl > 0 && row.expiresAt == s.now && |Active(s, u)| == LimitOf(cfg, s.users[u]))
  {
    var row := s.sessions[id];
    var spent := RevokeIn(s, {id});
    ActiveAfterRevoke(s, {id}, u);
    ActiveAfterIssue(cfg, spent, row.user, row.family, row.sso, u);
    assert s.next !in Active(s, u);
    if id in Active(s, u) {
      assert |Active(s, u) - {id}| == |Active(s, u)| - 1;
    } else {
      assert Active(s, u) - {id} == Active(s, u);
    }
  }

  lemma RefreshKeepsCap(cfg: Config, s: State, token: nat, u: nat)
    requires Inv(s) && Capped(cfg, s, u)
    ensures Capped(cfg, RefreshStep(cfg, s, token).0, u) <==> !BoundaryRefresh(cfg, s, token, u)
  {
    if ByToken(s.sessions, token).Some? {
      var id := ByToken(s.sessions, token).value;
      var row := s.sessions[id];
      assert forall i :: HasToken(s.sessions, i, token) ==> i == id;
      if CanRefresh(s, token) {
        RotationKeepsCap(cfg, s, id, u);
      } else {
        ActiveAfterRevoke(s, InFamily(s.sessions, row.family), u);
        ActiveAfterRevoke(s, {id}, u);
        ShrinkKeepsCap(cfg, s, RefreshStep(cfg, s, token).0, u);
      }
    }
  }

  lemma RegisterKeepsCap(cfg: Config, s: State, sso: bool, u: nat)
    requires s.next + 1 !in s.sessions && Active(s, s.next) == {} && Capped(cfg, s, u)
    ensures Capped(cfg, Step(cfg, s, Register(sso)).0, u)
  {
    var withUser := WithUser(s);
    IssueKeepsCap(cfg, withUser, s.next, withUser.next + 2, sso, u);
  }

  /** The steps that only take sessions away, or touch none of the user's. */
  lemma PlainKeepsCap(cfg: Config, s: State, op: Op, u: nat)
    requires Capped(cfg, s, u)
    requires !op.Register? && !op.Login? && !op.SsoLogin? && !op.ResolveLogin? && !op.Refresh? && !op.SetMaxSessions?
    ensures Capped(cfg, Step(cfg, s, op).0, u)
  {
    var s' := Step(cfg, s, op).0;
    assert Active(s', u) <= Active(s, u);
    ShrinkKeepsCap(cfg, s, s', u);
  }

  /** A step keeps a user within the cap if and only if it is none of these: a refresh of the user's session at the
      expiry instant of its row with a full cap, an administrator lowering the user's limit below the number of active
      sessions, a login or a resolution that goes through with a full cap because the limit check itself failed. */
  lemma StepKeepsCapExactly(cfg: Config, s: State, op: Op, u: nat)
    requires Inv(s) && Capped(cfg, s, u)
    ensures Capped(cfg, Step(cfg, s, op).0, u) <==> KeepsCap(cfg, s, op, u)
  {
    match op
    case Register(sso) => RegisterKeepsCap(cfg, s, sso, u);
    case Login(user, w) => LoginKeepsCap(cfg, s, user, false, Defers(w), Rooms(w), u);
    case SsoLogin(user, w, again) => LoginKeepsCap(cfg, s, user, true, Defers(w), Rooms(w) || Rooms(again), u);
    case ResolveLogin(p, session, w) => ResolveKeepsCap(cfg, s, p, session, w, u);
    case Refresh(token) => RefreshKeepsCap(cfg, s, token, u);
    case SetMaxSessions(_, _) =>
    case _ => PlainKeepsCap(cfg, s, op, u);
  }

  // ---- Login and two-phase conflict resolution ----

  /** A login that issues a token and can make room fills one slot, or takes over a full one: afterwards the user has
      one active session more than before, or exactly the limit. Without room it always adds one. The new token
      refreshes. */
  lemma LoginFillsSlot(cfg: Config, s: State, user: nat, sso: bool, defers: bool, rooms: bool)
    requires s.next !in s.sessions && cfg.refreshTtl > 0
    requires LoginStep(cfg, s, user, sso, defers, rooms).1.Issued?
    ensures user in s.users
    ensures var (s', out) := LoginStep(cfg, s, user, sso, defers, rooms);
            var limit := LimitOf(cfg, s.users[user]);
            && CanRefresh(s', out.token)
            && |Active(s', user)| == if rooms && |Active(s, user)| >= limit then limit else |Active(s, user)| + 1
  {
    var limit := LimitOf(cfg, s.users[user]);
    RoomLeavesSpace(s, user, limit, user);
    var room := if rooms then MakeRoom(s, user, limit) else s;
    assert room.users == s.users && room.now == s.now && room.next == s.next && s.next !in room.sessions;
    NewSession(cfg, room, user, sso);
  }

  lemma NewSession(cfg: Config, room: State, user: nat, sso: bool)
    requires room.next !in room.sessions && cfg.refreshTtl > 0 && user in room.users && LockPermits(room.users[user].lock, sso)
    ensures var s' := IssueNew(cfg, room, user, sso);
            CanRefresh(s', room.next + 1) && |Active(s', user)| == |Active(room, user)| + 1
  {
    var s' := IssueNew(cfg, room, user, sso);
    ActiveAfterIssue(cfg, room, user, room.next + 2, sso, user);
    assert HasToken(s'.sessions, room.next, room.next + 1);
    assert room.next !in Active(room, user);
  }

  /** Resolving a valid pending login with a full cap: giving up one of the user's active sessions revokes it and
      puts the new session in its slot; naming anything else only yields another pending token. */
  lemma ResolveSwapsSlot(cfg: Config, s: State, p: nat, chosen: nat)
    requires s.next !in s.sessions && s.next !in s.pending && cfg.refreshTtl > 0
    requires p in s.pending && s.now < s.pending[p].expiresAt && s.pending[p].user in s.users
    requires var user := s.pending[p].user; |Active(s, user)| == LimitOf(cfg, s.users[user])
    ensures var user := s.pending[p].user;
            var (s', out) := ResolveStep(cfg, s, p, chosen, ALL_WORK);
            && p !in s'.pending && |Active(s', user)| == |Active(s, user)|
            && if chosen in Active(s, user)
               then out == Issued(s.next + 1) && Active(s', user) == Active(s, user) - {chosen} + {s.next}
               else out == LimitReached(s.next) && Active(s', user) == Active(s, user)
  {
    var user, freed := s.pending[p].user, Freed(s, p, chosen);
    ActiveAfterFreed(s, p, chosen, user);
    FullWithout(Active(s, user), chosen, LimitOf(cfg, s.users[user]));
    if chosen in Active(s, user) {
      SwapIn(cfg, freed, user);
    } else {
      assert Active(s, user) - {chosen} == Active(s, user);
      assert Active(Defer(cfg, freed, user).0, user) == Active(freed, user);
    }
  }

  lemma SwapIn(cfg: Config, freed: State, user: nat)
    requires freed.next !in freed.sessions && cfg.refreshTtl > 0
    ensures var s' := IssueNew(cfg, freed, user, false);
            && s'.pending == freed.pending && Active(s', user) == Active(freed, user) + {freed.next}
            && |Active(s', user)| == |Active(freed, user)| + 1
  {
    ActiveAfterIssue(cfg, freed, user, freed.next + 2, false, user);
    OneMore(Active(freed, user), freed.next);
  }

  lemma OneMore(a: set<nat>, x: nat)
    requires x !in a
    ensures |a + {x}| == |a| + 1
  {
  }

  /** Two-phase conflict resolution. A login at the limit leaves the sessions alone and hands out a pending token;
      resolving it swaps the chosen active session for the new one; and the pending token works only once. */
  lemma ConflictResolves(cfg: Config, s: State, user: nat, sso: bool, rooms: bool, chosen: nat, again: nat, works: Works)
    requires s.next + 1 !in s.sessions && s.next + 1 !in s.pending && cfg.refreshTtl > 0 && cfg.pendingTtl > 0
    requires user in s.users && LockPermits(s.users[user].lock, sso) && |Active(s, user)| == LimitOf(cfg, s.users[user])
    ensures var (s1, out1) := LoginStep(cfg, s, user, sso, true, rooms);
            && out1.LimitReached? && s1.sessions == s.sessions
            && var (s2, out2) := Step(cfg, s1, ResolveLogin(out1.pendingToken, chosen, ALL_WORK));
            && (out2.Issued? <==> chosen in Active(s, user))
            && (out2.Issued? ==> Active(s2, user) == Active(s, user) - {chosen} + {s1.next})
            && |Active(s2, user)| == LimitOf(cfg, s.users[user])
            && Step(cfg, s2, ResolveLogin(out1.pendingToken, again, works)).1 == Refused
  {
    var (s1, out1) := LoginStep(cfg, s, user, sso, true, rooms);
    ResolveSwapsSlot(cfg, s1, out1.pendingToken, chosen);
  }

  // ---- Whole runs ----

  ghost predicate KeepsCapThroughout(cfg: Config, s: State, ops: seq<Op>, u: nat)
    decreases |ops|
  {
    ops == [] || (KeepsCap(cfg, s, ops[0], u) && KeepsCapThroughout(cfg, Step(cfg, s, ops[0]).0, ops[1..], u))
  }

  ghost predicate CappedThroughout(cfg: Config, s: State, ops: seq<Op>, u: nat)
    decreases |ops|
  {
    Capped(cfg, s, u) && (ops == [] || CappedThroughout(cfg, Step(cfg, s, ops[0]).0, ops[1..], u))
  }

  /** Over a whole run from a capped state, the user is within the cap in every intermediate state exactly when
      no step of the run is one of those exceptions. */
  lemma {:induction false} RunKeepsCapExactly(cfg: Config, s: State, ops: seq<Op>, u: nat)
    requires Inv(s) && Capped(cfg, s, u)
    ensures KeepsCapThroughout(cfg, s, ops, u) <==> CappedThroughout(cfg, s, ops, u)
    decreases |ops|
  {
    if ops == [] {
    } else {
      var s' := Step(cfg, s, ops[0]).0;
      StepKeeps(cfg, s, ops[0], 0);
      StepKeepsCapExactly(cfg, s, ops[0], u);
      if Capped(cfg, s', u) {
        RunKeepsCapExactly(cfg, s', ops[1..], u);
      } else {
        assert !CappedThroughout(cfg, s', ops[1..], u);
      }
    }
  }

  /** The exception is reachable: with a limit of one, a session refreshed at its expiry instant right after a
      login at that same instant leaves two active sessions. */
  lemma CapBrokenAtExpiryInstant()
    ensures var cfg := Config(10, 300, 1);
            var s := Run(cfg, EMPTY, [Register(false), Tick(10), Login(0, ALL_WORK), Refresh(2)]);
            0 in s.users && |Active(s, 0)| == 2 && LimitOf(cfg, s.users[0]) == 1
  {
    var cfg := Config(10, 300, 1);
    var ops := [Register(false), Tick(10), Login(0, ALL_WORK), Refresh(2)];
    var s1 := Step(cfg, EMPTY, ops[0]).0;
    var s2 := Step(cfg, s1, ops[1]).0;
    var s3 := Step(cfg, s2, ops[2]).0;
    var s4 := Step(cfg, s3, ops[3]).0;
    RefreshAfterLogin(cfg, s2);
    assert Run(cfg, s3, ops[3..]) == s4 by { assert ops[3..][1..] == []; }
    assert Run(cfg, s2, ops[2..]) == s4 by { assert ops[2..][1..] == ops[3..]; }
    assert Run(cfg, s1, ops[1..]) == s4 by { assert ops[1..][1..] == ops[2..]; }
  }

  lemma RefreshAfterLogin(cfg: Config, s: State)
    requires cfg == Config(10, 300, 1) && s.now == 10 && s.users == map[0 := User(AnyMethod, None)]
    requires s.sessions == map[1 := Session(0, 2, 3, false, 0, 0, 10, false)] && s.next == 4
    ensures var s' := Step(cfg, Step(cfg, s, Login(0, ALL_WORK)).0, Refresh(2)).0;
            s'.users == s.users && |Active(s', 0)| == 2
  {
    assert Active(s, 0) == {};
    var s3 := Step(cfg, s, Login(0, ALL_WORK)).0;
    assert HasToken(s3.sessions, 1, 2) && forall i :: HasToken(s3.sessions, i, 2) ==> i == 1;
    var s4 := Step(cfg, s3, Refresh(2)).0;
    assert Active(s4, 0) == {4, 7};
  }

  /** So is a login that goes through: with a limit of one, and neither a pending login stored nor room made. */
  lemma CapBrokenWhenChecksFail()
    ensures var cfg := Config(10, 300, 1);
            var s := Run(cfg, EMPTY, [Register(false), Login(0, Works(true, false, false))]);
            0 in s.users && |Active(s, 0)| == 2 && LimitOf(cfg, s.users[0]) == 1
  {
    var cfg := Config(10, 300, 1);
    var ops := [Register(false), Login(0, Works(true, false, false))];
    var s1 := Step(cfg, EMPTY, ops[0]).0;
    var s2 := Step(cfg, s1, ops[1]).0;
    assert Active(s1, 0) == {1} && Active(s2, 0) == {1, 4};
    assert Run(cfg, s1, ops[1..]) == s2 by { assert ops[1..][1..] == []; }
  }

  /** And so is a resolution: with a limit of one, it names no session, and the sessions cannot be counted. */
  lemma CapBrokenByResolution()
    ensures var cfg := Config(10, 300, 1);
            var s := Run(cfg, EMPTY, [Register(false), Login(0, ALL_WORK), ResolveLogin(4, 0, Works(false, true, true))]);
            0 in s.users && |Active(s, 0)| == 2 && LimitOf(cfg, s.users[0]) == 1
  {
    var cfg := Config(10, 300, 1);
    var ops := [Register(false), Login(0, ALL_WORK), ResolveLogin(4, 0, Works(false, true, true))];
    var s1 := Deferred(cfg);
    var s3 := Step(cfg, DEFERRED, ops[2]).0;
    assert Active(s3, 0) == {1, 5};
    assert Run(cfg, DEFERRED, ops[2..]) == s3 by { assert ops[2..][1..] == []; }
    assert Run(cfg, s1, ops[1..]) == s3 by { assert ops[1..][1..] == ops[2..]; }
  }

  /** An account with one session and a second login waiting. */
  const DEFERRED: State :=
    State(0, map[0 := User(AnyMethod, None)], map[1 := Session(0, 2, 3, false, 0, 0, 10, false)], map[4 := Pending(0, 300)],
          5, map[2 := Grant(3, 1)])

  lemma Deferred(cfg: Config) returns (s1: State)
    requires cfg == Config(10, 300, 1)
    ensures s1 == Step(cfg, EMPTY, Register(false)).0 && Step(cfg, s1, Login(0, ALL_WORK)).0 == DEFERRED
  {
    s1 := Step(cfg, EMPTY, Register(false)).0;
    assert s1 == DEFERRED.(pending := map[], next := 4);
    assert Active(s1, 0) == {1};
  }
}
