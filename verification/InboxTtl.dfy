/** How long an inbox can live. */
module InboxTtl {
  import opened Common
  import opened InboxCache
  import opened InboxSettings

  /** If it exists, the inbox expires at most `m` after its creation. */
  predicate Within(s: State, id: Id, m: int) {
    id in s.rows ==> s.rows[id].expiresAt <= s.rows[id].createdAt + m
  }

  /** The maximum in force whenever this inbox is extended is at most `m`. */
  predicate MaxAtMost(op: Op, id: Id, m: int) {
    op.Extend? && op.id == id ==> ResolveMax(op.settings) <= m
  }

  lemma StepWithin(s: State, op: Op, id: Id, m: int)
    requires id < s.next && Within(s, id, m) && MaxAtMost(op, id, m)
    ensures Within(Step(s, op).0, id, m) && id < Step(s, op).0.next
  {
  }

  ghost predicate WithinThroughout(s: State, ops: seq<Op>, id: Id, m: int)
    decreases |ops|
  {
    Within(s, id, m) && (ops != [] ==> WithinThroughout(Step(s, ops[0]).0, ops[1..], id, m))
  }

  lemma {:induction false} RunWithin(s: State, ops: seq<Op>, id: Id, m: int)
    requires id < s.next && Within(s, id, m) && forall op <- ops :: MaxAtMost(op, id, m)
    ensures WithinThroughout(s, ops, id, m)
    decreases |ops|
  {
    if ops == [] {
    } else {
      StepWithin(s, ops[0], id, m);
      RunWithin(Step(s, ops[0]).0, ops[1..], id, m);
    }
  }

  /** An inbox stays within `m` of its creation, through every later run of extensions, renewal policies and settings
      edits that never resolve a maximum above `m`, if and only if its first lifetime does. An explicit lifetime always
      does; the default lifetime is not compared with the maximum, so it may not. */
  lemma LifetimeBound(s: State, alias: string, domain: string, owner: nat, g: Gate, ttl: Ttl, c: Settings, lost: bool,
                      ops: seq<Op>, m: int)
    requires CreateOk(s, alias, domain, owner, g, ttl, c) && ResolveMax(c) <= m
    requires forall op <- ops :: MaxAtMost(op, s.next, m)
    ensures var t := Step(s, Create(alias, domain, owner, g, ttl, c, lost)).0;
            && s.next in t.rows
            && (WithinThroughout(t, ops, s.next, m) <==> CreateTtl(ttl, c) <= m)
            && (ttl.Explicit? ==> WithinThroughout(t, ops, s.next, m))
  {
    var t := Step(s, Create(alias, domain, owner, g, ttl, c, lost)).0;
    if CreateTtl(ttl, c) <= m {
      RunWithin(t, ops, s.next, m);
    }
  }

  /** The other case is reachable: the system's default above its maximum, for any maximum. */
  lemma DefaultOverMaximum(alias: string, domain: string, max: nat)
    requires AliasOk(alias)
    ensures var s := Run(EMPTY, OverMaximumRun(alias, domain, max)); 0 in s.rows && !Within(s, 0, max)
  {
    var ops := OverMaximumRun(alias, domain, max);
    var s1 := EMPTY.(domains := {domain});
    assert Step(EMPTY, ops[0]).0 == s1;
    NothingLive(s1, domain, 0);
    var s2 := CreateStep(s1, alias, domain, 0, max + 1, false);
    assert Step(s1, ops[1]).0 == s2;
    assert Run(s1, ops[1..]) == s2 by { assert ops[1..][1..] == []; }
  }

  function OverMaximumRun(alias: string, domain: string, max: nat): seq<Op> {
    var c := Settings(true, true, None, None, None, max, None, None, None, max + 1, Original, None);
    [AddDomain(domain), Create(alias, domain, 0, Gate(true, false, true, 1, None), Default, c, false)]
  }

  /** From now on the key can be read exactly as long as the inbox is live. */
  ghost predicate KeyFollowsInbox(s: State, a: Address, id: Id) {
    forall later :: s.now <= later ==> (Cached(s.cache, later, a).Some? <==> LiveAt(s.rows, later, a, id))
  }

  /** The key of a new inbox can be read exactly as long as the inbox is live if and only if the lifetime is positive. A
      default that is not stores a key, for good or with the expiry of an earlier one, for an inbox that is never live. */
  lemma KeyFollowsInboxExactly(s: State, alias: string, domain: string, owner: nat, g: Gate, ttl: Ttl, c: Settings)
    requires CreateOk(s, alias, domain, owner, g, ttl, c)
    ensures var t := Step(s, Create(alias, domain, owner, g, ttl, c, false)).0;
            KeyFollowsInbox(t, FullAddress(alias, domain), s.next) <==> CreateTtl(ttl, c) > 0
  {
    var t := Step(s, Create(alias, domain, owner, g, ttl, c, false)).0;
    var a, lifetime := FullAddress(alias, domain), CreateTtl(ttl, c);
    WriteReadsBack(s.cache, s.now, a, s.next, lifetime, s.now);
    assert LiveAt(t.rows, s.now, a, s.next) <==> lifetime > 0;
    forall later | s.now <= later && lifetime > 0
      ensures Cached(t.cache, later, a).Some? <==> LiveAt(t.rows, later, a, s.next)
    {
      WriteReadsBack(s.cache, s.now, a, s.next, lifetime, later);
    }
  }

  /** An extension that succeeds brings even an inbox whose default lifetime was too long back within the maximum. */
  lemma ExtensionRestoresBound(s: State, id: Id, user: nat, extension: Option<int>, c: Settings, lost: bool, m: int)
    requires ResolveMax(c) <= m
    ensures var (t, outcome) := Step(s, Extend(id, user, extension, c, lost));
            outcome == Done ==> id in t.rows && Within(t, id, m)
  {
  }
}
