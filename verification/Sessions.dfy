/** Refresh-token sessions: the state the auth service keeps in the sessions, users and
    pending-login stores, and one atomic step per service method.

    Identifiers (row ids, refresh tokens, token families, pending-login tokens) are drawn from
    one counter, `next`, which stands for fresh random values. A token is identified with its hash.
    `issued` is a history of every refresh token ever handed out; no step reads it. */
module Sessions {
  import opened Common
  import opened Locks

  datatype User = User(lock: Lock, maxSessions: Option<int>)

  datatype Session = Session(user: nat, token: nat, family: nat, sso: bool,
                             lastUsed: nat, createdAt: nat, expiresAt: nat, revoked: bool)

  datatype Pending = Pending(user: nat, expiresAt: nat)

  /** What a refresh token was handed out for: its family and the row that carried it. */
  datatype Grant = Grant(family: nat, row: nat)

  datatype Config = Config(refreshTtl: nat, pendingTtl: nat, defaultLimit: int)

  datatype State = State(now: nat, users: map<nat, User>, sessions: map<nat, Session>,
                         pending: map<nat, Pending>, next: nat, issued: map<nat, Grant>)

  datatype Outcome = Issued(token: nat) | LimitReached(pendingToken: nat) | Refused | Done

  /** Which calls of a limit check work: counting the active sessions, storing a pending login, and revoking rows. The
      source goes on without them. */
  datatype Works = Works(counts: bool, stores: bool, revokes: bool)

  datatype Op =
    | Tick(elapsed: nat)
    | Register(sso: bool)  // a new account, by password or by SSO
    | Login(user: nat, works: Works)
    | SsoLogin(user: nat, works: Works, again: Works)
    | ResolveLogin(pendingToken: nat, session: nat, works: Works)
    | Refresh(token: nat)
    | Logout(token: nat)
    | RevokeSession(user: nat, session: nat)
    | RevokeAll(user: nat)
    | RevokeAllExcept(user: nat, session: nat)
    | CleanupExpired
    | SetLock(user: nat, lock: Lock)
    | SetMaxSessions(user: nat, maxSessions: int)
    | DeleteUser(user: nat)

  /** The effective session limit: the per-user override when it is at least one, otherwise the
      platform default, otherwise five. */
  function LimitOf(cfg: Config, user: User): (limit: nat)
    ensures limit >= 1
  {
    if user.maxSessions.Some? && user.maxSessions.value >= 1 then user.maxSessions.value
    else if cfg.defaultLimit <= 0 then 5
    else cfg.defaultLimit
  }

  // ---- Queries over the sessions table ----

  /** Rows counted by CountActiveByUser: not revoked and expiring strictly after now. */
  function ActiveRows(sessions: map<nat, Session>, now: nat, user: nat): set<nat> {
    set id | id in sessions && sessions[id].user == user && !sessions[id].revoked && sessions[id].expiresAt > now
  }

  function Active(s: State, user: nat): set<nat> {
    ActiveRows(s.sessions, s.now, user)
  }

  ghost predicate HasToken(sessions: map<nat, Session>, id: nat, token: nat) {
    id in sessions && sessions[id].token == token
  }

  /** The row a refresh token belongs to, if it is stored. */
  ghost function ByToken(sessions: map<nat, Session>, token: nat): (id: Option<nat>)
    ensures id.Some? ==> HasToken(sessions, id.value, token)
    ensures id.None? ==> forall i :: !HasToken(sessions, i, token)
  {
    if i :| HasToken(sessions, i, token) then Some(i) else None
  }

  /** The order of RevokeOldestExceeding: most recently used first, then most recently created.
      The query leaves ties open; the model breaks them by row id. */
  predicate Newer(sessions: map<nat, Session>, a: nat, b: nat)
    requires a in sessions && b in sessions
  {
    var x, y := sessions[a], sessions[b];
    x.lastUsed > y.lastUsed || (x.lastUsed == y.lastUsed &&
    (x.createdAt > y.createdAt || (x.createdAt == y.createdAt && a > b)))
  }

  function NewerThan(sessions: map<nat, Session>, ids: set<nat>, id: nat): set<nat>
    requires id in sessions && ids <= sessions.Keys
  {
    set other | other in ids && Newer(sessions, other, id)
  }

  /** Rows whose row number, counted from zero in the recency order, is at least `keep`. */
  function Exceeding(sessions: map<nat, Session>, ids: set<nat>, keep: nat): set<nat>
    requires ids <= sessions.Keys
  {
    set id | id in ids && |NewerThan(sessions, ids, id)| >= keep
  }

  // ---- Updates of the sessions table ----

  /** Set the revoked flag on the given rows. */
  function Revoke(sessions: map<nat, Session>, ids: set<nat>): map<nat, Session> {
    map id | id in sessions :: if id in ids then sessions[id].(revoked := true) else sessions[id]
  }

  function RevokeIn(s: State, ids: set<nat>): State {
    s.(sessions := Revoke(s.sessions, ids))
  }

  function InFamily(sessions: map<nat, Session>, family: nat): set<nat> {
    set id | id in sessions && sessions[id].family == family
  }

  function OfUser(sessions: map<nat, Session>, user: nat): set<nat> {
    set id | id in sessions && sessions[id].user == user
  }

  /** The row named by `session`, if it is stored and belongs to the user. */
  function OwnedRow(sessions: map<nat, Session>, user: nat, session: nat): set<nat> {
    if session in sessions && sessions[session].user == user then {session} else {}
  }

  /** Insert a new session row with a fresh id (`next`) and a fresh token (`next + 1`). */
  function Issue(cfg: Config, s: State, user: nat, family: nat, sso: bool): State {
    s.(sessions := s.sessions[s.next := Session(user, s.next + 1, family, sso, s.now, s.now, s.now + cfg.refreshTtl, false)],
       issued := s.issued[s.next + 1 := Grant(family, s.next)],
       next := s.next + 3)
  }

  /** A new session in a family of its own (`next + 2`). */
  function IssueNew(cfg: Config, s: State, user: nat, sso: bool): State {
    Issue(cfg, s, user, s.next + 2, sso)
  }

  /** Revoke the oldest active sessions so that one more fits under the limit. */
  function MakeRoom(s: State, user: nat, limit: nat): State
    requires limit >= 1
  {
    if |Active(s, user)| < limit then s
    else RevokeIn(s, Exceeding(s.sessions, Active(s, user), limit - 1))
  }

  /** Store a pending login (`next`) and answer that the limit is reached. */
  function Defer(cfg: Config, s: State, user: nat): (State, Outcome) {
    (s.(pending := s.pending[s.next := Pending(user, s.now + cfg.pendingTtl)], next := s.next + 1), LimitReached(s.next))
  }

  // ---- One step per service method ----

  /** `defers` says that a full cap is noticed and a pending login can be stored, `rooms` that one is noticed and room
      can be made. */
  function LoginStep(cfg: Config, s: State, user: nat, sso: bool, defers: bool, rooms: bool): (State, Outcome) {
    if user !in s.users || !LockPermits(s.users[user].lock, sso) then (s, Refused)
    else
      var limit := LimitOf(cfg, s.users[user]);
      if |Active(s, user)| >= limit && defers then Defer(cfg, s, user)
      else (IssueNew(cfg, if rooms then MakeRoom(s, user, limit) else s, user, sso), Issued(s.next + 1))
  }

  predicate Defers(w: Works) {
    w.counts && w.stores
  }

  predicate Rooms(w: Works) {
    w.counts && w.revokes
  }

  /** Consume the pending token. */
  function Consumed(s: State, pendingToken: nat): State {
    s.(pending := s.pending - {pendingToken})
  }

  /** The first half of ResolveLogin: consume the pending token, then revoke the chosen session. */
  function Freed(s: State, pendingToken: nat, session: nat): State
    requires pendingToken in s.pending
  {
    RevokeIn(Consumed(s, pendingToken), OwnedRow(s.sessions, s.pending[pendingToken].user, session))
  }

  /** The second half: count again, and defer or issue. */
  function FreedStep(cfg: Config, freed: State, user: nat, works: Works): (State, Outcome)
    requires user in freed.users
  {
    if works.counts && |Active(freed, user)| >= LimitOf(cfg, freed.users[user]) then
      if works.stores then Defer(cfg, freed, user) else (freed, Refused)
    else (IssueNew(cfg, freed, user, false), Issued(freed.next + 1))
  }

  function ResolveStep(cfg: Config, s: State, pendingToken: nat, session: nat, works: Works): (State, Outcome) {
    if pendingToken !in s.pending || s.now >= s.pending[pendingToken].expiresAt then (s, Refused)
    else
      var user := s.pending[pendingToken].user;
      if user !in s.users || !works.revokes then (Consumed(s, pendingToken), Refused)
      else
        FreedStep(cfg, Freed(s, pendingToken, session), user, works)
  }

  ghost function RefreshStep(cfg: Config, s: State, token: nat): (State, Outcome) {
    match ByToken(s.sessions, token)
    case None => (s, Refused)
    case Some(id) =>
      var row := s.sessions[id];
      if row.revoked then (RevokeIn(s, InFamily(s.sessions, row.family)), Refused)
      else if s.now > row.expiresAt then (s, Refused)
      else
        var spent := RevokeIn(s, {id});
        if row.user !in s.users || !LockPermits(s.users[row.user].lock, row.sso) then (spent, Refused)
        else (Issue(cfg, spent, row.user, row.family, row.sso), Issued(s.next + 1))
  }

  ghost function LogoutStep(s: State, token: nat): (State, Outcome) {
    match ByToken(s.sessions, token)
    case None => (s, Done)
    case Some(id) => (RevokeIn(s, InFamily(s.sessions, s.sessions[id].family)), Done)
  }

  /** A new account (`next`). */
  function WithUser(s: State): State {
    s.(users := s.users[s.next := User(AnyMethod, None)], next := s.next + 1)
  }

  ghost function Step(cfg: Config, s: State, op: Op): (State, Outcome) {
    match op
    case Tick(elapsed) => (s.(now := s.now + elapsed), Done)
    case Register(sso) => (IssueNew(cfg, WithUser(s), s.next, sso), Issued(s.next + 2))
    case Login(user, w) => LoginStep(cfg, s, user, false, Defers(w), Rooms(w))
    case SsoLogin(user, w, again) => LoginStep(cfg, s, user, true, Defers(w), Rooms(w) || Rooms(again))
    case ResolveLogin(pendingToken, session, w) => ResolveStep(cfg, s, pendingToken, session, w)
    case Refresh(token) => RefreshStep(cfg, s, token)
    case Logout(token) => LogoutStep(s, token)
    case RevokeSession(user, session) => (RevokeIn(s, OwnedRow(s.sessions, user, session)), Done)
    case RevokeAll(user) => (RevokeIn(s, OfUser(s.sessions, user)), Done)
    case RevokeAllExcept(user, session) => (RevokeIn(s, OfUser(s.sessions, user) - {session}), Done)
    case CleanupExpired =>
      (s.(sessions := map id | id in s.sessions && s.sessions[id].expiresAt >= s.now :: s.sessions[id]), Done)
    case SetLock(user, lock) =>
      if user !in s.users then (s, Refused) else (s.(users := s.users[user := s.users[user].(lock := lock)]), Done)
    case SetMaxSessions(user, n) =>
      if user !in s.users then (s, Refused) else (s.(users := s.users[user := s.users[user].(maxSessions := Some(n))]), Done)
    case DeleteUser(user) =>
      (s.(users := s.users - {user}, sessions := s.sessions - OfUser(s.sessions, user)), Done)
  }

  ghost function Run(cfg: Config, s: State, ops: seq<Op>): State
    decreases |ops|
  {
    if ops == [] then s else Run(cfg, Step(cfg, s, ops[0]).0, ops[1..])
  }

  // ---- Invariant of every reachable state ----

  ghost predicate RowsFresh(sessions: map<nat, Session>, next: nat) {
    forall id <- sessions :: id < next && sessions[id].token < next && sessions[id].family < next
  }

  ghost predicate GrantsFresh(issued: map<nat, Grant>, next: nat) {
    forall t <- issued :: t < next && issued[t].family < next && issued[t].row < next
  }

  ghost predicate NamesFresh(users: map<nat, User>, pending: map<nat, Pending>, next: nat) {
    (forall u <- users :: u < next) && (forall p <- pending :: p < next)
  }

  ghost predicate Owned(sessions: map<nat, Session>, users: map<nat, User>) {
    forall id <- sessions :: sessions[id].user in users
  }

  ghost predicate Recorded(sessions: map<nat, Session>, issued: map<nat, Grant>) {
    forall id <- sessions ::
      sessions[id].token in issued && issued[sessions[id].token] == Grant(sessions[id].family, id)
  }

  /** Each token family has at most one unrevoked session. */
  ghost predicate FamiliesLinear(sessions: map<nat, Session>) {
    forall a <- sessions, b <- sessions ::
      !sessions[a].revoked && !sessions[b].revoked && sessions[a].family == sessions[b].family ==> a == b
  }

  ghost predicate Inv(s: State) {
    && RowsFresh(s.sessions, s.next) && GrantsFresh(s.issued, s.next) && NamesFresh(s.users, s.pending, s.next)
    && Owned(s.sessions, s.users) && Recorded(s.sessions, s.issued) && FamiliesLinear(s.sessions)
  }

  ghost predicate AllRevoked(sessions: map<nat, Session>, family: nat) {
    forall id <- sessions :: sessions[id].family == family ==> sessions[id].revoked
  }

  /** A family that has been used and has no unrevoked session left. */
  ghost predicate Dead(s: State, family: nat) {
    family < s.next && AllRevoked(s.sessions, family)
  }

  const EMPTY := State(0, map[], map[], map[], 0, map[])

  // ---- Preservation, one primitive update at a time ----

  /** Nothing the invariant reads has changed except that more identifiers may have been drawn. */
  lemma FrameKeeps(s: State, s': State, family: nat)
    requires Inv(s)
    requires s'.sessions == s.sessions && s'.issued == s.issued && s.next <= s'.next && s.users.Keys <= s'.users.Keys
    requires (forall u <- s'.users :: u < s'.next) && (forall p <- s'.pending :: p < s'.next)
    ensures Inv(s') && (Dead(s, family) ==> Dead(s', family))
  {
  }

  lemma RevokeKeeps(s: State, ids: set<nat>, family: nat)
    requires Inv(s)
    ensures Inv(RevokeIn(s, ids)) && (Dead(s, family) ==> Dead(RevokeIn(s, ids), family))
  {
  }

  lemma IssueKeeps(cfg: Config, s: State, user: nat, fam: nat, sso: bool, family: nat)
    requires Inv(s) && user in s.users
    requires fam == s.next + 2 || Dead(s, fam)
    ensures Inv(Issue(cfg, s, user, fam, sso))
    ensures Dead(s, family) && fam != family ==> Dead(Issue(cfg, s, user, fam, sso), family)
  {
    var s' := Issue(cfg, s, user, fam, sso);
    assert forall id <- s'.sessions :: id == s.next || (id in s.sessions && s'.sessions[id] == s.sessions[id]);
  }

  lemma DropKeeps(s: State, s': State, family: nat)
    requires Inv(s)
    requires s' == s.(sessions := s'.sessions, users := s'.users) && s'.users.Keys <= s.users.Keys
    requires forall id <- s'.sessions :: id in s.sessions && s'.sessions[id] == s.sessions[id] && s.sessions[id].user in s'.users
    ensures Inv(s') && (Dead(s, family) ==> Dead(s', family))
  {
  }

  lemma RegisterKeeps(cfg: Config, s: State, sso: bool, family: nat)
    requires Inv(s)
    ensures Inv(Step(cfg, s, Register(sso)).0)
    ensures Dead(s, family) ==> Dead(Step(cfg, s, Register(sso)).0, family)
  {
    FrameKeeps(s, WithUser(s), family);
    IssueKeeps(cfg, WithUser(s), s.next, s.next + 3, sso, family);
  }

  lemma RoomKeeps(s: State, user: nat, limit: nat, family: nat)
    requires Inv(s) && limit >= 1
    ensures var s' := MakeRoom(s, user, limit); Inv(s') && (Dead(s, family) ==> Dead(s', family)) && s' == s.(sessions := s'.sessions)
  {
    RevokeKeeps(s, Exceeding(s.sessions, Active(s, user), limit - 1), family);
  }

  lemma IssueNewKeeps(cfg: Config, s: State, user: nat, sso: bool, family: nat)
    requires Inv(s) && user in s.users
    ensures var s' := IssueNew(cfg, s, user, sso); Inv(s') && (Dead(s, family) ==> Dead(s', family))
  {
    IssueKeeps(cfg, s, user, s.next + 2, sso, family);
    assert Dead(s, family) ==> family != s.next + 2;
  }

  lemma DeferKeeps(cfg: Config, s: State, user: nat, family: nat)
    requires Inv(s)
    ensures var s' := Defer(cfg, s, user).0; Inv(s') && (Dead(s, family) ==> Dead(s', family))
  {
    FrameKeeps(s, Defer(cfg, s, user).0, family);
  }

  lemma LoginKeeps(cfg: Config, s: State, user: nat, sso: bool, defers: bool, rooms: bool, family: nat)
    requires Inv(s)
    ensures Inv(LoginStep(cfg, s, user, sso, defers, rooms).0)
    ensures Dead(s, family) ==> Dead(LoginStep(cfg, s, user, sso, defers, rooms).0, family)
  {
    if user in s.users && LockPermits(s.users[user].lock, sso) {
      var limit := LimitOf(cfg, s.users[user]);
      if |Active(s, user)| >= limit && defers {
        DeferKeeps(cfg, s, user, family);
      } else if rooms {
        RoomKeeps(s, user, limit, family);
        IssueNewKeeps(cfg, MakeRoom(s, user, limit), user, sso, family);
      } else {
        IssueNewKeeps(cfg, s, user, sso, family);
      }
    }
  }

  lemma FreedKeeps(s: State, pendingToken: nat, session: nat, family: nat)
    requires Inv(s) && pendingToken in s.pending
    ensures var s' := Freed(s, pendingToken, session); Inv(s') && (Dead(s, family) ==> Dead(s', family))
  {
    var consumed := Consumed(s, pendingToken);
    FrameKeeps(s, consumed, family);
    RevokeKeeps(consumed, OwnedRow(s.sessions, s.pending[pendingToken].user, session), family);
  }

  lemma ResolveKeeps(cfg: Config, s: State, p: nat, session: nat, works: Works, family: nat)
    requires Inv(s)
    ensures Inv(ResolveStep(cfg, s, p, session, works).0)
    ensures Dead(s, family) ==> Dead(ResolveStep(cfg, s, p, session, works).0, family)
  {
    if p in s.pending && s.now < s.pending[p].expiresAt {
      var user := s.pending[p].user;
      if user !in s.users || !works.revokes {
        FrameKeeps(s, Consumed(s, p), family);
      } else {
        FreedKeeps(s, p, session, family);
        FreedStepKeeps(cfg, Freed(s, p, session), user, works, family);
      }
    }
  }

  lemma FreedStepKeeps(cfg: Config, freed: State, user: nat, works: Works, family: nat)
    requires Inv(freed) && user in freed.users
    ensures var s' := FreedStep(cfg, freed, user, works).0; Inv(s') && (Dead(freed, family) ==> Dead(s', family))
  {
    DeferKeeps(cfg, freed, user, family);
    IssueNewKeeps(cfg, freed, user, false, family);
  }

  lemma RefreshKeeps(cfg: Config, s: State, token: nat, family: nat)
    requires Inv(s)
    ensures Inv(RefreshStep(cfg, s, token).0)
    ensures Dead(s, family) ==> Dead(RefreshStep(cfg, s, token).0, family)
  {
    if ByToken(s.sessions, token).Some? {
      var id := ByToken(s.sessions, token).value;
      var row := s.sessions[id];
      RevokeKeeps(s, InFamily(s.sessions, row.family), family);
      RevokeKeeps(s, {id}, family);
      if !row.revoked {
        var spent := RevokeIn(s, {id});
        assert Dead(spent, row.family);
        IssueKeeps(cfg, spent, row.user, row.family, row.sso, family);
      }
    }
  }

  lemma LogoutKeeps(s: State, token: nat, family: nat)
    requires Inv(s)
    ensures Inv(LogoutStep(s, token).0) && (Dead(s, family) ==> Dead(LogoutStep(s, token).0, family))
  {
    if ByToken(s.sessions, token).Some? {
      RevokeKeeps(s, InFamily(s.sessions, s.sessions[ByToken(s.sessions, token).value].family), family);
    }
  }

  /** The steps that revoke rows of a user, remove rows or touch no session. */
  lemma PlainKeeps(cfg: Config, s: State, op: Op, family: nat)
    requires Inv(s)
    requires !op.Register? && !op.Login? && !op.SsoLogin? && !op.ResolveLogin? && !op.Refresh? && !op.Logout?
    ensures Inv(Step(cfg, s, op).0) && (Dead(s, family) ==> Dead(Step(cfg, s, op).0, family))
  {
    match op
    case RevokeSession(user, session) => RevokeKeeps(s, OwnedRow(s.sessions, user, session), family);
    case RevokeAll(user) => RevokeKeeps(s, OfUser(s.sessions, user), family);
    case RevokeAllExcept(user, session) => RevokeKeeps(s, OfUser(s.sessions, user) - {session}, family);
    case CleanupExpired => DropKeeps(s, Step(cfg, s, op).0, family);
    case DeleteUser(_) => DropKeeps(s, Step(cfg, s, op).0, family);
    case _ => FrameKeeps(s, Step(cfg, s, op).0, family);
  }

  /** Every step keeps the invariant, and a dead family stays dead. */
  lemma StepKeeps(cfg: Config, s: State, op: Op, family: nat)
    requires Inv(s)
    ensures Inv(Step(cfg, s, op).0)
    ensures Dead(s, family) ==> Dead(Step(cfg, s, op).0, family)
  {
    match op
    case Register(sso) => RegisterKeeps(cfg, s, sso, family);
    case Login(user, w) => LoginKeeps(cfg, s, user, false, Defers(w), Rooms(w), family);
    case SsoLogin(user, w, again) => LoginKeeps(cfg, s, user, true, Defers(w), Rooms(w) || Rooms(again), family);
    case ResolveLogin(pendingToken, session, w) => ResolveKeeps(cfg, s, pendingToken, session, w, family);
    case Refresh(token) => RefreshKeeps(cfg, s, token, family);
    case Logout(token) => LogoutKeeps(s, token, family);
    case _ => PlainKeeps(cfg, s, op, family);
  }

  // ---- Whole runs ----

  lemma {:induction false} RunKeeps(cfg: Config, s: State, ops: seq<Op>, family: nat)
    requires Inv(s)
    ensures Inv(Run(cfg, s, ops))
    ensures Dead(s, family) ==> Dead(Run(cfg, s, ops), family)
    decreases |ops|
  {
    if ops == [] {
    } else {
      StepKeeps(cfg, s, ops[0], family);
      RunKeeps(cfg, Step(cfg, s, ops[0]).0, ops[1..], family);
    }
  }

  /** In every state reachable from the empty store, each token family has at most one unrevoked session. */
  lemma FamiliesLinearInEveryRun(cfg: Config, ops: seq<Op>)
    ensures FamiliesLinear(Run(cfg, EMPTY, ops).sessions)
  {
    RunKeeps(cfg, EMPTY, ops, 0);
  }

  /** A refresh token works exactly when its row is stored, unrevoked, not past its expiry, and the owner's
      lock admits the session's method. */
  ghost predicate CanRefresh(s: State, token: nat) {
    exists id :: HasToken(s.sessions, id, token) && !s.sessions[id].revoked && s.now <= s.sessions[id].expiresAt
                 && s.sessions[id].user in s.users && LockPermits(s.users[s.sessions[id].user].lock, s.sessions[id].sso)
  }

  lemma RefreshSucceedsExactly(cfg: Config, s: State, token: nat)
    requires Inv(s)
    ensures Step(cfg, s, Refresh(token)).1.Issued? <==> CanRefresh(s, token)
  {
    if ByToken(s.sessions, token).Some? {
      var id := ByToken(s.sessions, token).value;
      assert HasToken(s.sessions, id, token);
    }
  }

  /** A successful refresh spends the presented token and leaves the family alive in exactly one row, the
      newly issued one, which belongs to the same user by the same method; every other row is as it was. */
  lemma RefreshRotates(cfg: Config, s: State, token: nat, id: nat)
    requires Inv(s) && CanRefresh(s, token) && HasToken(s.sessions, id, token)
    ensures var (s', out) := Step(cfg, s, Refresh(token));
            && out == Issued(s.next + 1) && s.next !in s.sessions
            && s'.sessions.Keys == s.sessions.Keys + {s.next}
            && s'.sessions[id] == s.sessions[id].(revoked := true)
            && HasToken(s'.sessions, s.next, s.next + 1) && !s'.sessions[s.next].revoked
            && s'.sessions[s.next].family == s.sessions[id].family
            && s'.sessions[s.next].user == s.sessions[id].user && s'.sessions[s.next].sso == s.sessions[id].sso
            && s'.sessions[s.next].expiresAt == s.now + cfg.refreshTtl
            && (forall other <- s.sessions :: other != id ==> s'.sessions[other] == s.sessions[other])
            && !CanRefresh(s', token)
  {
    assert ByToken(s.sessions, token) == Some(id);
    var s' := Step(cfg, s, Refresh(token)).0;
    assert token < s.next;
    assert forall i :: HasToken(s'.sessions, i, token) ==> i == id;
  }

  /** Once a family is dead, no token ever issued in it refreshes again, whatever happens in between. */
  lemma DeadFamilyNeverRefreshes(cfg: Config, s: State, ops: seq<Op>, family: nat, token: nat)
    requires Inv(s) && Dead(s, family)
    requires var s' := Run(cfg, s, ops); token in s'.issued && s'.issued[token].family == family
    ensures Step(cfg, Run(cfg, s, ops), Refresh(token)).1 == Refused
  {
    RunKeeps(cfg, s, ops, family);
    RefreshSucceedsExactly(cfg, Run(cfg, s, ops), token);
    assert !CanRefresh(Run(cfg, s, ops), token);
  }

  /** Logging out kills the family of the presented token, if its row is stored. */
  lemma LogoutKills(cfg: Config, s: State, id: nat)
    requires Inv(s) && id in s.sessions
    ensures Dead(Step(cfg, s, Logout(s.sessions[id].token)).0, s.sessions[id].family)
  {
    assert HasToken(s.sessions, id, s.sessions[id].token);
    assert ByToken(s.sessions, s.sessions[id].token) == Some(id);
  }

  /** Presenting a token whose stored row is already revoked is refused and kills its family. */
  lemma ReplayKills(cfg: Config, s: State, id: nat)
    requires Inv(s) && id in s.sessions && s.sessions[id].revoked
    ensures var (s', out) := Step(cfg, s, Refresh(s.sessions[id].token)); out == Refused && Dead(s', s.sessions[id].family)
  {
    assert HasToken(s.sessions, id, s.sessions[id].token);
    assert ByToken(s.sessions, s.sessions[id].token) == Some(id);
  }

  /** A row below the first state's counter is not inserted later; while it is stored it keeps its token and
      family and never comes back from revoked. */
  ghost predicate RowEvolves(s: State, s': State, id: nat) {
    id < s.next <= s'.next &&
    (id in s'.sessions ==>
       && id in s.sessions
       && s'.sessions[id].token == s.sessions[id].token && s'.sessions[id].family == s.sessions[id].family
       && (s.sessions[id].revoked ==> s'.sessions[id].revoked))
  }

  lemma RefreshEvolves(cfg: Config, s: State, token: nat, id: nat)
    requires id < s.next
    ensures RowEvolves(s, RefreshStep(cfg, s, token).0, id)
  {
  }

  lemma LoginEvolves(cfg: Config, s: State, user: nat, sso: bool, defers: bool, rooms: bool, id: nat)
    requires id < s.next
    ensures RowEvolves(s, LoginStep(cfg, s, user, sso, defers, rooms).0, id)
  {
  }

  lemma ResolveEvolves(cfg: Config, s: State, pendingToken: nat, session: nat, works: Works, id: nat)
    requires id < s.next
    ensures RowEvolves(s, ResolveStep(cfg, s, pendingToken, session, works).0, id)
  {
  }

  lemma StepEvolves(cfg: Config, s: State, op: Op, id: nat)
    requires id < s.next
    ensures RowEvolves(s, Step(cfg, s, op).0, id)
  {
    match op
    case Login(user, w) => LoginEvolves(cfg, s, user, false, Defers(w), Rooms(w), id);
    case SsoLogin(user, w, again) => LoginEvolves(cfg, s, user, true, Defers(w), Rooms(w) || Rooms(again), id);
    case ResolveLogin(pendingToken, session, w) => ResolveEvolves(cfg, s, pendingToken, session, w, id);
    case Refresh(token) => RefreshEvolves(cfg, s, token, id);
    case _ =>
  }

  lemma {:induction false} RunEvolves(cfg: Config, s: State, ops: seq<Op>, id: nat)
    requires id < s.next
    ensures RowEvolves(s, Run(cfg, s, ops), id)
    decreases |ops|
  {
    if ops == [] {
    } else {
      StepEvolves(cfg, s, ops[0], id);
      RunEvolves(cfg, Step(cfg, s, ops[0]).0, ops[1..], id);
    }
  }

  /** Reuse detection. After a token has been spent by a refresh, replaying it at any later point while its
      row is still stored kills the family, so that neither its successor nor any later token of the family
      refreshes from then on. */
  lemma ReplayKillsFamily(cfg: Config, s: State, id: nat, between: seq<Op>, after: seq<Op>, token: nat)
    requires Inv(s) && id in s.sessions && CanRefresh(s, s.sessions[id].token)
    requires var spent := s.sessions[id].token;
             var replayed := Run(cfg, Step(cfg, s, Refresh(spent)).0, between);
             && id in replayed.sessions
             && var later := Run(cfg, Step(cfg, replayed, Refresh(spent)).0, after);
                token in later.issued && later.issued[token].family == s.sessions[id].family
    ensures var spent := s.sessions[id].token;
            var replayed := Run(cfg, Step(cfg, s, Refresh(spent)).0, between);
            var later := Run(cfg, Step(cfg, replayed, Refresh(spent)).0, after);
            Step(cfg, replayed, Refresh(spent)).1 == Refused && Step(cfg, later, Refresh(token)).1 == Refused
  {
    var spent, family := s.sessions[id].token, s.sessions[id].family;
    assert HasToken(s.sessions, id, spent);
    RefreshRotates(cfg, s, spent, id);
    var rotated := Step(cfg, s, Refresh(spent)).0;
    StepKeeps(cfg, s, Refresh(spent), family);
    RunKeeps(cfg, rotated, between, family);
    RunEvolves(cfg, rotated, between, id);
    var replayed := Run(cfg, rotated, between);
    ReplayKills(cfg, replayed, id);
    StepKeeps(cfg, replayed, Refresh(spent), family);
    DeadFamilyNeverRefreshes(cfg, Step(cfg, replayed, Refresh(spent)).0, after, family, token);
  }

  // ---- The method of a resolved login ----

  /** A pending login below the first state's counter is not stored later, and keeps its owner while it is. */
  ghost predicate PendingEvolves(s: State, s': State, p: nat) {
    p < s.next <= s'.next && (p in s'.pending ==> p in s.pending && s'.pending[p] == s.pending[p])
  }

  lemma StepPending(cfg: Config, s: State, op: Op, p: nat)
    requires p < s.next
    ensures PendingEvolves(s, Step(cfg, s, op).0, p)
  {
  }

  lemma {:induction false} RunPending(cfg: Config, s: State, ops: seq<Op>, p: nat)
    requires p < s.next
    ensures PendingEvolves(s, Run(cfg, s, ops), p)
    decreases |ops|
  {
    if ops == [] {
    } else {
      StepPending(cfg, s, ops[0], p);
      RunPending(cfg, Step(cfg, s, ops[0]).0, ops[1..], p);
    }
  }

  /** The row a resolution inserts is recorded as a password session, and refreshes right away exactly when the
      owner's lock admits that. */
  lemma ResolvedRow(cfg: Config, s: State, p: nat, session: nat, works: Works)
    requires Inv(s) && Step(cfg, s, ResolveLogin(p, session, works)).1.Issued?
    ensures p in s.pending && s.pending[p].user in s.users
    ensures var (s', out) := Step(cfg, s, ResolveLogin(p, session, works));
            && HasToken(s'.sessions, s.next, out.token)
            && s'.sessions[s.next].user == s.pending[p].user && !s'.sessions[s.next].sso
            && (Step(cfg, s', Refresh(out.token)).1.Issued? <==> s.users[s.pending[p].user].lock != SsoOnly)
  {
    var op := ResolveLogin(p, session, works);
    var (s', out) := Step(cfg, s, op);
    StepKeeps(cfg, s, op, 0);
    assert HasToken(s'.sessions, s.next, out.token);
    RefreshSucceedsExactly(cfg, s', out.token);
    assert forall i :: HasToken(s'.sessions, i, out.token) ==> i == s.next;
  }

  /** A login by password or by SSO that meets a full cap and is resolved later, after any run in between: the session
      belongs to the same user, its method is the one the user signed in with if and only if that was the password, and
      it refreshes right away if and only if the user is not locked to SSO by then. */
  lemma ResolvedMethodExactly(cfg: Config, s: State, user: nat, sso: bool, rooms: bool, between: seq<Op>, session: nat,
                              works: Works)
    requires Inv(s) && LoginStep(cfg, s, user, sso, true, rooms).1.LimitReached?
    requires var (s1, out) := LoginStep(cfg, s, user, sso, true, rooms);
             Step(cfg, Run(cfg, s1, between), ResolveLogin(out.pendingToken, session, works)).1.Issued?
    ensures var (s1, deferred) := LoginStep(cfg, s, user, sso, true, rooms);
            var s2 := Run(cfg, s1, between);
            var (s3, out) := Step(cfg, s2, ResolveLogin(deferred.pendingToken, session, works));
            && user in s2.users && HasToken(s3.sessions, s2.next, out.token) && s3.sessions[s2.next].user == user
            && (s3.sessions[s2.next].sso == sso <==> !sso)
            && (Step(cfg, s3, Refresh(out.token)).1.Issued? <==> s2.users[user].lock != SsoOnly)
  {
    var (s1, deferred) := LoginStep(cfg, s, user, sso, true, rooms);
    LoginKeeps(cfg, s, user, sso, true, rooms, 0);
    RunKeeps(cfg, s1, between, 0);
    RunPending(cfg, s1, between, deferred.pendingToken);
    ResolvedRow(cfg, Run(cfg, s1, between), deferred.pendingToken, session, works);
  }

  const ALL_WORK := Works(true, true, true)

  /** The run that shows it: an account locked to SSO signs in by SSO at its limit, resolves the conflict, and cannot
      refresh the session it gets. */
  const SSO_CONFLICT: seq<Op> :=
    [Register(false), SetLock(0, SsoOnly), SsoLogin(0, ALL_WORK, ALL_WORK), ResolveLogin(4, 1, ALL_WORK)]

  lemma SsoConflictDefers(cfg: Config, s: State)
    requires cfg == Config(10, 300, 1) && s.now == 0 && s.users == map[0 := User(SsoOnly, None)] && s.next == 4
    requires s.sessions == map[1 := Session(0, 2, 3, false, 0, 0, 10, false)] && s.pending == map[]
    ensures var t := Step(cfg, s, SsoLogin(0, ALL_WORK, ALL_WORK)).0;
            t == s.(pending := map[4 := Pending(0, 300)], next := 5)
  {
    assert Active(s, 0) == {1};
  }

  lemma SsoConflictResolves(cfg: Config, s: State)
    requires cfg == Config(10, 300, 1) && s.now == 0 && s.users == map[0 := User(SsoOnly, None)] && s.next == 5
    requires s.sessions == map[1 := Session(0, 2, 3, false, 0, 0, 10, false)] && s.pending == map[4 := Pending(0, 300)]
    ensures var (t, out) := Step(cfg, s, ResolveLogin(4, 1, ALL_WORK));
            out == Issued(6) && t.users == s.users && Step(cfg, t, Refresh(6)).1 == Refused
  {
    assert Active(Freed(s, 4, 1), 0) == {};
    var t := Step(cfg, s, ResolveLogin(4, 1, ALL_WORK)).0;
    assert t.sessions[5] == Session(0, 6, 7, false, 0, 0, 10, false);
    assert HasToken(t.sessions, 5, 6) && forall i :: HasToken(t.sessions, i, 6) ==> i == 5;
  }

  lemma SsoConflictLosesSession()
    ensures var cfg := Config(10, 300, 1);
            var s := Run(cfg, EMPTY, SSO_CONFLICT[..3]);
            var (t, out) := Step(cfg, s, ResolveLogin(4, 1, ALL_WORK));
            out == Issued(6) && Step(cfg, t, Refresh(6)).1 == Refused && t.users == map[0 := User(SsoOnly, None)]
  {
    var cfg := Config(10, 300, 1);
    var ops := SSO_CONFLICT[..3];
    var s1 := Step(cfg, EMPTY, ops[0]).0;
    var s2 := Step(cfg, s1, ops[1]).0;
    var s3 := Step(cfg, s2, ops[2]).0;
    SsoConflictDefers(cfg, s2);
    SsoConflictResolves(cfg, s3);
    assert Run(cfg, s2, ops[2..]) == s3 by { assert ops[2..][1..] == []; }
    assert Run(cfg, s1, ops[1..]) == s3 by { assert ops[1..][1..] == ops[2..]; }
  }
}
