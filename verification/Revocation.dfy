/** Access tokens, the expiring revocation cache, and the bearer-token branch of the auth middleware.

    Time is in nanoseconds. Token timestamps and the cached revocation time are whole seconds: they are
    truncated, while the cache entry's own expiry and the password-change time are not. */
module Revocation {
  import opened Common

  const SECOND: nat := 1_000_000_000

  /** Claims of an access token, in seconds. */
  datatype Token = Token(user: nat, iat: nat, exp: nat)

  /** That a token was generated for a user at an instant. */
  datatype Grant = Grant(user: nat, at: nat)

  datatype Entry = Entry(revokedAt: nat, expiresAt: Option<nat>)

  /** `marks` and `grants` are histories: when each user was last marked revoked, and every token generated. */
  datatype State = State(now: nat, users: set<nat>, passwordChangedAt: map<nat, nat>, cache: map<nat, Entry>,
                         marks: map<nat, nat>, grants: set<Grant>)

  datatype Op =
    | Tick(elapsed: nat) | AddUser(user: nat) | DeleteUser(user: nat) | Generate(user: nat) | MarkRevoked(user: nat)
    | ChangePassword(user: nat)

  /** GenerateAccessToken at `g.at` with lifetime `ttl`. */
  function TokenOf(g: Grant, ttl: nat): Token {
    Token(g.user, g.at / SECOND, (g.at + ttl) / SECOND)
  }

  function EntryAt(now: nat, ttl: nat): Entry {
    Entry(now / SECOND, if ttl > 0 then Some(now + ttl) else None)
  }

  /** The cached revocation second, or zero when there is none or it has expired. */
  function RevokedAt(cache: map<nat, Entry>, now: nat, user: nat): nat {
    if user in cache && (cache[user].expiresAt.None? || now < cache[user].expiresAt.value) then cache[user].revokedAt else 0
  }

  /** The middleware's decision on a token with genuine signature, given the revocation second it looks up. */
  predicate Admits(s: State, t: Token, revokedAt: nat) {
    && s.now < t.exp * SECOND
    && t.user in s.users
    && !(t.user in s.passwordChangedAt && t.iat * SECOND < s.passwordChangedAt[t.user])
    && !(revokedAt > 0 && t.iat < revokedAt)
  }

  predicate Accepts(s: State, t: Token) {
    Admits(s, t, RevokedAt(s.cache, s.now, t.user))
  }

  /** The same decision against a record of revocations that never expires. */
  predicate AcceptsByRecord(s: State, t: Token) {
    Admits(s, t, if t.user in s.marks then s.marks[t.user] / SECOND else 0)
  }

  function Step(ttl: nat, s: State, op: Op): State {
    match op
    case Tick(elapsed) => s.(now := s.now + elapsed)
    case AddUser(u) => s.(users := s.users + {u}, passwordChangedAt := s.passwordChangedAt[u := s.now])
    case DeleteUser(u) => s.(users := s.users - {u})
    case Generate(u) => s.(grants := s.grants + {Grant(u, s.now)})
    case MarkRevoked(u) => s.(cache := s.cache[u := EntryAt(s.now, ttl)], marks := s.marks[u := s.now])
    case ChangePassword(u) => s.(passwordChangedAt := s.passwordChangedAt[u := s.now])
  }

  function Run(ttl: nat, s: State, ops: seq<Op>): State
    decreases |ops|
  {
    if ops == [] then s else Run(ttl, Step(ttl, s, ops[0]), ops[1..])
  }

  const EMPTY := State(0, {}, map[], map[], map[], {})

  ghost predicate Inv(ttl: nat, s: State) {
    && s.cache.Keys == s.marks.Keys
    && (forall u <- s.marks :: s.marks[u] <= s.now && s.cache[u] == EntryAt(s.marks[u], ttl))
    && (forall u <- s.passwordChangedAt :: s.passwordChangedAt[u] <= s.now)
    && (forall g <- s.grants :: g.at <= s.now)
  }

  /** Time and the recorded instants only move forward. */
  ghost predicate Later(s: State, s': State) {
    && s.now <= s'.now
    && (forall u <- s.marks :: u in s'.marks && s.marks[u] <= s'.marks[u])
    && (forall u <- s.passwordChangedAt :: u in s'.passwordChangedAt && s.passwordChangedAt[u] <= s'.passwordChangedAt[u])
  }

  lemma StepKeepsInv(ttl: nat, s: State, op: Op)
    requires Inv(ttl, s)
    ensures Inv(ttl, Step(ttl, s, op)) && Later(s, Step(ttl, s, op))
  {
  }

  lemma {:induction false} RunKeepsInv(ttl: nat, s: State, ops: seq<Op>)
    requires Inv(ttl, s)
    ensures Inv(ttl, Run(ttl, s, ops)) && Later(s, Run(ttl, s, ops))
    decreases |ops|
  {
    if ops == [] {
    } else {
      StepKeepsInv(ttl, s, ops[0]);
      RunKeepsInv(ttl, Step(ttl, s, ops[0]), ops[1..]);
    }
  }

  lemma SecondMonotone(a: nat, b: nat)
    requires a <= b
    ensures a / SECOND <= b / SECOND
  {
  }

  /** By the time a revocation entry expires, every token of an earlier second has expired too. */
  lemma OlderTokenExpiresFirst(g: Grant, ttl: nat, marked: nat)
    requires TokenOf(g, ttl).iat < marked / SECOND
    ensures TokenOf(g, ttl).exp * SECOND < marked + ttl
  {
    if marked <= g.at {
      SecondMonotone(marked, g.at);
    }
    assert (g.at + ttl) / SECOND * SECOND <= g.at + ttl;
  }

  /** In every reachable state the middleware decides each token that was ever generated exactly as it would
      against a revocation record that never expires: letting the cache entry lapse revives nothing, and
      repeated revocations forget nothing. */
  lemma CacheRefinesRecord(ttl: nat, ops: seq<Op>, g: Grant)
    requires g in Run(ttl, EMPTY, ops).grants
    ensures var s := Run(ttl, EMPTY, ops); Accepts(s, TokenOf(g, ttl)) <==> AcceptsByRecord(s, TokenOf(g, ttl))
  {
    RunKeepsInv(ttl, EMPTY, ops);
    var s, t := Run(ttl, EMPTY, ops), TokenOf(g, ttl);
    if g.user in s.marks && t.iat < s.marks[g.user] / SECOND {
      OlderTokenExpiresFirst(g, ttl, s.marks[g.user]);
    }
  }

  /** A token of an earlier second than a revocation is refused at that revocation and at every later time. */
  lemma RevokedForever(ttl: nat, before: seq<Op>, after: seq<Op>, g: Grant)
    requires var s := Run(ttl, EMPTY, before); g in s.grants && g.at / SECOND < s.now / SECOND
    ensures var s := Run(ttl, EMPTY, before);
            !Accepts(Run(ttl, Step(ttl, s, MarkRevoked(g.user)), after), TokenOf(g, ttl))
  {
    var s := Run(ttl, EMPTY, before);
    RunKeepsInv(ttl, EMPTY, before);
    var marked := Step(ttl, s, MarkRevoked(g.user));
    RunKeepsInv(ttl, marked, after);
    var s' := Run(ttl, marked, after);
    SecondMonotone(marked.marks[g.user], s'.marks[g.user]);
    MarkedRefuses(ttl, s', g);
  }

  /** While a later second than the token's is on record, the token is refused. */
  lemma MarkedRefuses(ttl: nat, s: State, g: Grant)
    requires Inv(ttl, s) && g.user in s.marks && g.at / SECOND < s.marks[g.user] / SECOND
    ensures !Accepts(s, TokenOf(g, ttl))
  {
    OlderTokenExpiresFirst(g, ttl, s.marks[g.user]);
  }

  /** Whether the password check lets a token through: its second began no earlier than the last change. */
  predicate PassesPassword(s: State, g: Grant) {
    g.user in s.passwordChangedAt ==> s.passwordChangedAt[g.user] <= g.at / SECOND * SECOND
  }

  /** Truncation is the only gap: a token generated in the very second of a revocation, before or after it, goes on being
      accepted exactly as long as it has not expired, provided that it passes the password check. */
  lemma SameSecondSurvives(ttl: nat, s: State, g: Grant, elapsed: nat)
    requires Inv(ttl, s) && g in s.grants && g.user in s.users && g.at / SECOND == s.now / SECOND
    ensures var s' := Run(ttl, s, [MarkRevoked(g.user), Tick(elapsed)]);
            Accepts(s', TokenOf(g, ttl)) <==> s.now + elapsed < TokenOf(g, ttl).exp * SECOND && PassesPassword(s, g)
  {
    assert [MarkRevoked(g.user), Tick(elapsed)][1..] == [Tick(elapsed)];
    assert Run(ttl, Step(ttl, s, MarkRevoked(g.user)), [Tick(elapsed)]) ==
           Step(ttl, Step(ttl, s, MarkRevoked(g.user)), Tick(elapsed));
  }

  /** The gap is reachable: a token that was handed out before a revocation in the same second, by an account created a
      second earlier, is still accepted after it. */
  lemma SameSecondReached()
    ensures var ttl := 10 * SECOND;
            var s := Run(ttl, EMPTY, [AddUser(0), Tick(SECOND), Generate(0), MarkRevoked(0)]);
            Grant(0, SECOND) in s.grants && Accepts(s, TokenOf(Grant(0, SECOND), ttl))
  {
    var ttl := 10 * SECOND;
    var ops := [AddUser(0), Tick(SECOND), Generate(0), MarkRevoked(0)];
    var s1 := Step(ttl, EMPTY, ops[0]);
    var s2 := Step(ttl, s1, ops[1]);
    var s3 := Step(ttl, s2, ops[2]);
    var s4 := Step(ttl, s3, ops[3]);
    assert Run(ttl, s3, ops[3..]) == s4 by { assert ops[3..][1..] == []; }
    assert Run(ttl, s2, ops[2..]) == s4 by { assert ops[2..][1..] == ops[3..]; }
    assert Run(ttl, s1, ops[1..]) == s4 by { assert ops[1..][1..] == ops[2..]; }
  }

  // ---- Password changes ----

  /** Tokens from before a password change are refused from then on. */
  lemma PasswordChangeInvalidates(ttl: nat, before: seq<Op>, after: seq<Op>, g: Grant)
    requires var s := Run(ttl, EMPTY, before); g in s.grants && g.at < s.now
    ensures var s := Run(ttl, EMPTY, before);
            !Accepts(Run(ttl, Step(ttl, s, ChangePassword(g.user)), after), TokenOf(g, ttl))
  {
    var s := Run(ttl, EMPTY, before);
    RunKeepsInv(ttl, EMPTY, before);
    var changed := Step(ttl, s, ChangePassword(g.user));
    RunKeepsInv(ttl, changed, after);
    assert g.at / SECOND * SECOND <= g.at < changed.passwordChangedAt[g.user];
  }

  /** A token's times are those of its generation and of the end of its life, cut to whole seconds. */
  lemma TokenTimes(g: Grant, ttl: nat)
    ensures var t := TokenOf(g, ttl);
            && t.user == g.user
            && t.iat * SECOND <= g.at < (t.iat + 1) * SECOND
            && t.exp * SECOND <= g.at + ttl < (t.exp + 1) * SECOND
  {
  }

  /** A mark is read back as its second until the lifetime of tokens is over, and then as no mark; with no lifetime, for
      good. */
  lemma MarkReadsBack(ttl: nat, s: State, u: nat, later: nat)
    requires s.now <= later
    ensures var second := RevokedAt(Step(ttl, s, MarkRevoked(u)).cache, later, u);
            if ttl > 0 && later >= s.now + ttl then second == 0 else second * SECOND <= s.now < (second + 1) * SECOND
  {
  }

  /** What is done to one user leaves the tokens of every other user as they were. */
  lemma OthersUnaffected(ttl: nat, s: State, op: Op, t: Token)
    requires !op.Tick? && op.user != t.user
    ensures Accepts(Step(ttl, s, op), t) <==> Accepts(s, t)
  {
  }

  /** In every reachable state a token that was ever generated is accepted exactly when it has not expired, its user
      exists, its second began no earlier than the last password change, and that second is not before the one of the
      last revocation, whether the entry for that is still cached or not. */
  lemma AcceptedExactly(ttl: nat, ops: seq<Op>, g: Grant)
    requires g in Run(ttl, EMPTY, ops).grants
    ensures var s := Run(ttl, EMPTY, ops);
            Accepts(s, TokenOf(g, ttl)) <==>
              (&& s.now < TokenOf(g, ttl).exp * SECOND && g.user in s.users && PassesPassword(s, g)
               && (g.user in s.marks ==> s.marks[g.user] / SECOND <= g.at / SECOND))
  {
    CacheRefinesRecord(ttl, ops, g);
  }

  /** A token is accepted the moment it is handed out exactly when its expiry, cut to a whole second, is still ahead and
      the current second began no earlier than the last password change. Revocations, even of this very instant, do not
      matter. */
  lemma FreshTokenAcceptedExactly(ttl: nat, ops: seq<Op>, u: nat)
    requires u in Run(ttl, EMPTY, ops).users
    ensures var s := Run(ttl, EMPTY, ops);
            var t := Step(ttl, s, Generate(u));
            && u in s.passwordChangedAt
            && (Accepts(t, TokenOf(Grant(u, s.now), ttl)) <==>
                  s.now < (s.now + ttl) / SECOND * SECOND && s.passwordChangedAt[u] <= s.now - s.now % SECOND)
  {
    var s := Run(ttl, EMPTY, ops);
    RunKeepsInv(ttl, EMPTY, ops);
    UsersHaveChange(ttl, EMPTY, ops);
    if u in s.marks {
      SecondMonotone(s.marks[u], s.now);
    }
    assert s.now / SECOND * SECOND == s.now - s.now % SECOND;
  }

  lemma {:induction false} UsersHaveChange(ttl: nat, s: State, ops: seq<Op>)
    requires s.users <= s.passwordChangedAt.Keys
    ensures Run(ttl, s, ops).users <= Run(ttl, s, ops).passwordChangedAt.Keys
    decreases |ops|
  {
    if ops == [] {
    } else {
      UsersHaveChange(ttl, Step(ttl, s, ops[0]), ops[1..]);
    }
  }

  /** Consequence for registration: an account created off the second boundary, whose first token is generated
      in the same second, has that token refused for as long as it lives. */
  lemma RegistrationTokenRefused(ttl: nat, s: State, u: nat, delay: nat, elapsed: nat)
    requires s.now % SECOND > 0 && s.now % SECOND + delay < SECOND
    ensures var s' := Run(ttl, s, [AddUser(u), Tick(delay), Generate(u), Tick(elapsed)]);
            Grant(u, s.now + delay) in s'.grants && !Accepts(s', TokenOf(Grant(u, s.now + delay), ttl))
  {
    var ops := [AddUser(u), Tick(delay), Generate(u), Tick(elapsed)];
    assert ops[1..] == [Tick(delay), Generate(u), Tick(elapsed)];
    assert ops[1..][1..] == [Generate(u), Tick(elapsed)];
    assert ops[1..][1..][1..] == [Tick(elapsed)];
    var s1 := Step(ttl, s, AddUser(u));
    var s2 := Step(ttl, s1, Tick(delay));
    var s3 := Step(ttl, s2, Generate(u));
    assert Run(ttl, s3, [Tick(elapsed)]) == Step(ttl, s3, Tick(elapsed));
    assert Run(ttl, s1, ops[1..]) == Run(ttl, s2, ops[1..][1..]) == Run(ttl, s3, ops[1..][1..][1..]);
    assert (s.now + delay) / SECOND == s.now / SECOND;
    assert s.now / SECOND * SECOND < s.now;
  }

  /** The cache and the middleware as stateful objects. */
  class TokenGate {
    const ttl: nat
    var now: nat
    var users: set<nat>
    var passwordChangedAt: map<nat, nat>
    var cache: map<nat, Entry>
    ghost var marks: map<nat, nat>
    ghost var grants: set<Grant>

    ghost function View(): State
      reads this
    {
      State(now, users, passwordChangedAt, cache, marks, grants)
    }

    constructor (ttl: nat)
      ensures View() == EMPTY && this.ttl == ttl
    {
      this.ttl := ttl;
      now, users, passwordChangedAt, cache, marks, grants := 0, {}, map[], map[], map[], {};
    }

    method GenerateAccessToken(user: nat) returns (t: Token)
      modifies this`grants
      ensures View() == Step(ttl, old(View()), Generate(user))
      ensures Grant(user, now) in grants && t == TokenOf(Grant(user, now), ttl)
    {
      t := Token(user, now / SECOND, (now + ttl) / SECOND);
      grants := grants + {Grant(user, now)};
    }

    method Revoke(user: nat)
      modifies this`cache, this`marks
      ensures View() == Step(ttl, old(View()), MarkRevoked(user))
    {
      var expiry := if ttl > 0 then Some(now + ttl) else None;
      cache := cache[user := Entry(now / SECOND, expiry)];
      marks := marks[user := now];
    }

    /** The checks in the order the middleware makes them. */
    method Authenticate(t: Token) returns (ok: bool)
      ensures ok <==> Accepts(View(), t)
    {
      if now >= t.exp * SECOND {
        return false;
      }
      if t.user !in users {
        return false;
      }
      if t.user in passwordChangedAt && t.iat * SECOND < passwordChangedAt[t.user] {
        return false;
      }
      var revokedAt := 0;
      if t.user in cache {
        var e := cache[t.user];
        if e.expiresAt.None? || now < e.expiresAt.value {
          revokedAt := e.revokedAt;
        }
      }
      return !(revokedAt > 0 && t.iat < revokedAt);
    }
  }
}
