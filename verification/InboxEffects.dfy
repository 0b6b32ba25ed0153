/** What each operation does to every inbox and every key, row by row, with its conditions spelled out; and over runs, when
    an inbox comes, changes and goes. */
module InboxEffects {
  import opened Common
  import opened InboxCache
  import opened InboxSettings
  import opened Text

  // ---- The words ----

  predicate IsLive(s: State, id: Id) {
    id in s.rows && s.rows[id].active && s.now < s.rows[id].expiresAt
  }

  function LiveInDomain(s: State, domain: string): set<Id> {
    set id | id in s.rows && IsLive(s, id) && s.rows[id].domain == domain
  }

  function LiveOwnedBy(s: State, owner: nat): set<Id> {
    set id | id in s.rows && IsLive(s, id) && s.rows[id].owner == owner
  }

  predicate LetterOrDigit(c: char) {
    'a' <= c <= 'z' || '0' <= c <= '9'
  }

  /** Two to sixty-four characters, lower-case letters and digits, with dots, dashes and underscores inside. */
  predicate GoodAlias(a: string) {
    && 2 <= |a| <= 64
    && forall i :: 0 <= i < |a| ==> LetterOrDigit(a[i]) || (0 < i < |a| - 1 && (a[i] == '.' || a[i] == '_' || a[i] == '-'))
  }

  /** The lifetime asked for, or the team's default, or else that of the cascade. */
  function Lifetime(ttl: Ttl, c: Settings): int {
    match ttl
    case Explicit(t) => t
    case Default => if c.teamDefault.Some? then c.teamDefault.value else ResolveDefault(c)
  }

  /** A creation goes through. */
  predicate Creates(s: State, op: Op) {
    && op.Create? && op.domain in s.domains && GoodAlias(op.alias)
    && op.gate.hasAssignment && !op.gate.readOnly && op.gate.mxVerified
    && |LiveInDomain(s, op.domain)| < op.gate.perDomain
    && (op.gate.perTeam.Some? ==> |LiveInDomain(s, op.domain)| < op.gate.perTeam.value)
    && |LiveOwnedBy(s, op.owner)| < 50
    && (op.ttl.Explicit? ==> op.ttl.ttl >= 60_000_000_000 && op.ttl.ttl <= ResolveMax(op.settings))
    && forall id :: id in s.rows ==> s.rows[id].address != op.alias + "@" + op.domain
  }

  /** How long an extension lasts: as asked for, or as the renewal policy says. */
  function Length(r: Row, op: Op): int
    requires op.Extend?
  {
    if op.extension.Some? then op.extension.value else Renewal(op.settings, r.originalTtl)
  }

  /** An extension of this inbox goes through: by its owner, and not past the maximum counted from its creation. */
  predicate Extends(s: State, op: Op, id: Id) {
    && op.Extend? && op.id == id && id in s.rows && s.rows[id].owner == op.user
    && s.now + Length(s.rows[id], op) <= s.rows[id].createdAt + ResolveMax(op.settings)
  }

  /** The operation removes this inbox. */
  predicate Removes(s: State, op: Op, id: Id)
    requires id in s.rows
  {
    match op
    case Delete(i, user, _) => i == id && user == s.rows[id].owner
    case Cleanup => s.rows[id].expiresAt < s.now
    case DeleteDomain(domain, _) => s.rows[id].domain == domain
    case TransferDomain(domain, _) => s.rows[id].domain == domain
    case Cascade(ids) => id in ids
    case _ => false
  }

  lemma SameCreate(s: State, op: Op)
    requires op.Create?
    ensures Creates(s, op) <==> CreateOk(s, op.alias, op.domain, op.owner, op.gate, op.ttl, op.settings)
  {
    assert LiveInDomain(s, op.domain) == LiveIn(s.rows, s.now, op.domain);
    assert LiveOwnedBy(s, op.owner) == LiveOf(s.rows, s.now, op.owner);
    SameAlias(op.alias);
  }

  lemma SameAlias(a: string)
    ensures GoodAlias(a) <==> AliasOk(a)
  {
    if AliasOk(a) {
      forall i | 0 <= i < |a| ensures LetterOrDigit(a[i]) || (0 < i < |a| - 1 && (a[i] == '.' || a[i] == '_' || a[i] == '-')) {}
    }
  }

  // ---- Inboxes ----

  /** Every operation leaves every inbox as it was, except that it removes exactly these, and gives an inbox it extends a
      new expiry. */
  lemma RowAfter(s: State, op: Op, id: Id)
    requires id in s.rows && id < s.next
    ensures var t := Step(s, op).0;
            && (id in t.rows <==> !Removes(s, op, id))
            && (id in t.rows ==>
                  t.rows[id] == if Extends(s, op, id) then s.rows[id].(expiresAt := s.now + Length(s.rows[id], op))
                                else s.rows[id])
  {
  }

  /** A new inbox comes with a creation that goes through, and with no other operation: at its address, with its owner,
      active, from now on and for its lifetime. */
  lemma NewRowAfter(s: State, op: Op, id: Id)
    requires id !in s.rows
    ensures var t := Step(s, op).0;
            && (id in t.rows <==> Creates(s, op) && id == s.next)
            && (id in t.rows ==>
                  var life := Lifetime(op.ttl, op.settings);
                  t.rows[id] == Row(op.alias + "@" + op.domain, op.domain, op.owner, true, s.now, s.now + life, Some(life)))
  {
    if op.Create? { SameCreate(s, op); }
  }

  /** Creations, extensions and deletions say whether they went through; the rest always do. */
  lemma OutcomeAfter(s: State, op: Op)
    requires !op.Process?
    ensures var out := Step(s, op).1;
            out == Done <==> match op
                             case Create(_, _, _, _, _, _, _) => Creates(s, op)
                             case Extend(id, _, _, _, _) => Extends(s, op, id)
                             case Delete(id, user, _) => id in s.rows && s.rows[id].owner == user
                             case _ => true
  {
    if op.Create? { SameCreate(s, op); }
  }

  /** Domains come and go by their own operations; a transfer keeps the domain. Only its own step moves the clock. */
  lemma DomainAfter(s: State, op: Op, domain: string)
    ensures var t := Step(s, op).0;
            && (domain in t.domains <==>
                  op == AddDomain(domain) || (domain in s.domains && !(op.DeleteDomain? && op.domain == domain)))
            && t.now == s.now + if op.Tick? then op.d else 0
  {
  }

  // ---- Keys ----

  predicate HasInboxKey(s: State, a: Address) {
    var key := Cached(s.cache, s.now, a);
    key.Some? && key.value.Inbox?
  }

  /** The operation writes the key of `a`, for this inbox and time to live. */
  predicate Writes(s: State, op: Op, a: Address, id: Id, ttl: int) {
    match op
    case Create(alias, domain, _, _, life, c, lost) =>
      Creates(s, op) && !lost && a == alias + "@" + domain && id == s.next && ttl == Lifetime(life, c)
    case Extend(i, _, _, _, lost) =>
      Extends(s, op, i) && !lost && a == s.rows[i].address && id == i && ttl == Length(s.rows[i], op)
    case Process(to, unread, lost) =>
      && Normalize(to) == a && !lost && (unread || !HasInboxKey(s, a))
      && IsLive(s, id) && s.rows[id].address == a && ttl == s.rows[id].expiresAt - s.now
    case _ => false
  }

  /** A reconciler pass writes the key of `a`: of a live inbox, where none was readable or was not read. */
  predicate Reconciles(s: State, op: Op, a: Address, id: Id) {
    && op.Reconcile? && IsLive(s, id) && s.rows[id].address == a && a !in op.losses
    && (a in op.misses || Cached(s.cache, s.now, a).None?)
  }

  /** The operation deletes the key of `a`. A domain transfer deletes none. */
  predicate Drops(s: State, op: Op, a: Address) {
    match op
    case Delete(id, user, lost) => id in s.rows && s.rows[id].owner == user && !lost && a == s.rows[id].address
    case DeleteDomain(domain, losses) =>
      a !in losses && exists id :: id in s.rows && IsLive(s, id) && s.rows[id].domain == domain && s.rows[id].address == a
    case Evict(b) => a == b
    case _ => false
  }

  ghost predicate KeyIs(s: State, op: Op, a: Address, later: int, t: State) {
    && (forall id, ttl :: Writes(s, op, a, id, ttl) ==>
          Cached(t.cache, later, a) == Cached(SetKey(s.cache, s.now, a, id, ttl), later, a))
    && (forall id :: Reconciles(s, op, a, id) ==>
          Cached(t.cache, later, a) == if later < s.rows[id].expiresAt then Some(Inbox(id)) else None)
    && (Drops(s, op, a) ==> Cached(t.cache, later, a).None?)
    && (op == Corrupt(a) ==> Cached(t.cache, later, a) == Some(Garbage))
    && (Untouched(s, op, a) ==> Cached(t.cache, later, a) == Cached(s.cache, later, a))
  }

  ghost predicate Untouched(s: State, op: Op, a: Address) {
    && (forall id, ttl :: !Writes(s, op, a, id, ttl))
    && (forall id :: !Reconciles(s, op, a, id))
    && !Drops(s, op, a) && op != Corrupt(a)
  }

  lemma LookupIs(s: State, a: Address, id: Id)
    requires Unique(s.rows)
    ensures Lookup(s.rows, s.now, a) == Some(id) <==> IsLive(s, id) && s.rows[id].address == a
  {
    if IsLive(s, id) && s.rows[id].address == a { assert LiveAt(s.rows, s.now, a, id); }
  }

  lemma CreateKey(s: State, op: Op, a: Address, later: int)
    requires op.Create?
    ensures KeyIs(s, op, a, later, Step(s, op).0)
  {
    SameCreate(s, op);
    assert forall id, ttl :: Writes(s, op, a, id, ttl) <==>
        Creates(s, op) && !op.lost && a == op.alias + "@" + op.domain && id == s.next && ttl == Lifetime(op.ttl, op.settings);
    if Creates(s, op) && !op.lost && a == op.alias + "@" + op.domain {
      assert Writes(s, op, a, s.next, Lifetime(op.ttl, op.settings));
    }
  }

  lemma ExtendKey(s: State, op: Op, a: Address, later: int)
    requires op.Extend?
    ensures KeyIs(s, op, a, later, Step(s, op).0)
  {
    if Extends(s, op, op.id) && !op.lost && a == s.rows[op.id].address {
      assert Writes(s, op, a, op.id, Length(s.rows[op.id], op));
    }
  }

  lemma ProcessKey(s: State, op: Op, a: Address, later: int)
    requires op.Process? && Unique(s.rows)
    ensures KeyIs(s, op, a, later, Step(s, op).0)
  {
    var b := Normalize(op.to);
    var found := Lookup(s.rows, s.now, b);
    forall id ensures found == Some(id) <==> IsLive(s, id) && s.rows[id].address == b { LookupIs(s, b, id); }
    if found.Some? && a == b && !op.lost && (op.unread || !HasInboxKey(s, a)) {
      assert Writes(s, op, a, found.value, s.rows[found.value].expiresAt - s.now);
    }
  }

  lemma ReconcileKey(s: State, op: Op, a: Address, later: int)
    requires op.Reconcile? && Unique(s.rows)
    ensures KeyIs(s, op, a, later, Step(s, op).0)
  {
    var found := Lookup(s.rows, s.now, a);
    forall id ensures found == Some(id) <==> IsLive(s, id) && s.rows[id].address == a { LookupIs(s, a, id); }
    if found.Some? && a !in op.losses && (a in op.misses || Cached(s.cache, s.now, a).None?) {
      assert Reconciles(s, op, a, found.value);
    }
  }

  lemma DomainKey(s: State, op: Op, a: Address, later: int)
    requires op.DeleteDomain? || op.TransferDomain?
    ensures KeyIs(s, op, a, later, Step(s, op).0)
  {
    if op.DeleteDomain? {
      assert a in LiveAddresses(s.rows, s.now, op.domain) <==>
          exists id :: id in s.rows && IsLive(s, id) && s.rows[id].domain == op.domain && s.rows[id].address == a;
    } else {
      assert LiveAddresses(s.rows - InDomain(s.rows, op.domain), s.now, op.domain) == {};
    }
  }

  lemma PlainKey(s: State, op: Op, a: Address, later: int)
    requires !op.Create? && !op.Extend? && !op.Process? && !op.Reconcile? && !op.DeleteDomain? && !op.TransferDomain?
    ensures KeyIs(s, op, a, later, Step(s, op).0)
  {
  }

  /** What every key reads as, from then on, after every operation: as written, as dropped, as corrupted, or as before. */
  lemma KeyAfter(s: State, op: Op, a: Address, later: int)
    requires Inv(s)
    ensures KeyIs(s, op, a, later, Step(s, op).0)
  {
    match op
    case Create(_, _, _, _, _, _, _) => CreateKey(s, op, a, later);
    case Extend(_, _, _, _, _) => ExtendKey(s, op, a, later);
    case Process(_, _, _) => ProcessKey(s, op, a, later);
    case Reconcile(_, _) => ReconcileKey(s, op, a, later);
    case DeleteDomain(_, _) => DomainKey(s, op, a, later);
    case TransferDomain(_, _) => DomainKey(s, op, a, later);
    case _ => PlainKey(s, op, a, later);
  }

  // ---- The router ----

  predicate AtDomain(a: string, local: string, domain: string) {
    a == local + "@" + domain && '@' !in local
  }

  lemma DomainIs(a: string, domain: string)
    ensures DomainOf(a) == Some(domain) <==> exists local :: AtDomain(a, local, domain)
  {
    var i := IndexByte(a, '@');
    if DomainOf(a) == Some(domain) { assert AtDomain(a, a[..i], domain); }
    forall local | AtDomain(a, local, domain) ensures DomainOf(a) == Some(domain) {
      IndexByteSkip(local, '@', domain);
      assert a[|local| + 1..] == domain;
    }
  }

  predicate HasLiveInbox(s: State, a: Address) {
    exists id :: id in s.rows && IsLive(s, id) && s.rows[id].address == a
  }

  lemma FoundIs(s: State, a: Address)
    ensures Lookup(s.rows, s.now, a).Some? <==> HasLiveInbox(s, a)
  {
    var found := Lookup(s.rows, s.now, a);
    if id :| id in s.rows && IsLive(s, id) && s.rows[id].address == a { assert LiveAt(s.rows, s.now, a, id); }
    if found.Some? { assert IsLive(s, found.value) && s.rows[found.value].address == a; }
  }

  /** A recipient is accepted exactly when what follows the first '@' of its normal form is a known domain, and the address
      has a key that was read, whatever it holds, or a live inbox. */
  lemma RouterExactly(s: State, to: string, unread: bool)
    ensures var a := Normalize(to);
            CanAccept(s, to, unread) <==>
              && (exists local, domain :: AtDomain(a, local, domain) && domain in s.domains)
              && ((!unread && Cached(s.cache, s.now, a).Some?) || HasLiveInbox(s, a))
  {
    var a := Normalize(to);
    FoundIs(s, a);
    if DomainOf(a).Some? { DomainIs(a, DomainOf(a).value); }
    forall local, domain | AtDomain(a, local, domain) ensures DomainOf(a) == Some(domain) { DomainIs(a, domain); }
  }

  // ---- Over runs ----

  ghost predicate RemovedDuring(s: State, ops: seq<Op>, id: Id)
    decreases |ops|
  {
    ops != [] && id in s.rows && (Removes(s, ops[0], id) || RemovedDuring(Step(s, ops[0]).0, ops[1..], id))
  }

  ghost predicate ExtendedDuring(s: State, ops: seq<Op>, id: Id)
    decreases |ops|
  {
    ops != [] && (Extends(s, ops[0], id) || ExtendedDuring(Step(s, ops[0]).0, ops[1..], id))
  }

  /** Over any run an inbox is gone exactly if some step removed it. One that stays keeps its address, domain, owner,
      creation time and first lifetime, and keeps its expiry as well unless its owner extended it. */
  lemma {:induction false} RunRowExactly(s: State, ops: seq<Op>, id: Id)
    requires Inv(s) && id in s.rows
    ensures var t := Run(s, ops);
            && (id in t.rows <==> !RemovedDuring(s, ops, id))
            && (id in t.rows ==> t.rows[id] == s.rows[id].(expiresAt := t.rows[id].expiresAt))
            && (id in t.rows && !ExtendedDuring(s, ops, id) ==> t.rows[id] == s.rows[id])
    decreases |ops|
  {
    if ops == [] {
    } else {
      var t := Step(s, ops[0]).0;
      RowAfter(s, ops[0], id);
      StepKeeps(s, ops[0]);
      if id in t.rows {
        RunRowExactly(t, ops[1..], id);
      } else {
        NextGrows(s, ops[0]);
        StaysGone(t, ops[1..], id);
      }
    }
  }

  lemma NextGrows(s: State, op: Op)
    ensures s.next <= Step(s, op).0.next
  {
  }

  lemma {:induction false} StaysGone(s: State, ops: seq<Op>, id: Id)
    requires id < s.next && id !in s.rows
    ensures id !in Run(s, ops).rows
    decreases |ops|
  {
    if ops == [] {
    } else {
      NewRowAfter(s, ops[0], id);
      NextGrows(s, ops[0]);
      StaysGone(Step(s, ops[0]).0, ops[1..], id);
    }
  }
}
