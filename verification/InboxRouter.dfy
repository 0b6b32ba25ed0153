/** How far the router's word on RCPT TO can be trusted: when an address it accepts may have no live inbox. */
module InboxRouter {
  import opened Common
  import opened InboxCache
  import opened InboxSettings
  import opened Text

  /** A readable key names the inbox of its address and does not outlive it. */
  predicate HonestKey(s: State, a: Address) {
    Cached(s.cache, s.now, a).Some? ==>
      var e := s.cache[a];
      && e.value.Inbox? && e.value.id in s.rows
      && var r := s.rows[e.value.id];
         r.address == a && r.active && e.expiry.Some? && e.expiry.value <= r.expiresAt
  }

  ghost predicate Honest(s: State) {
    forall a :: HonestKey(s, a)
  }

  /** With honest keys the router accepts exactly the addresses of live inboxes. */
  lemma HonestRouter(s: State, to: string, unread: bool)
    requires Inv(s) && Honest(s)
    ensures CanAccept(s, to, unread) <==> exists id :: LiveAt(s.rows, s.now, Normalize(to), id)
  {
    var a := Normalize(to);
    assert HonestKey(s, a);
    if Cached(s.cache, s.now, a).Some? {
      assert LiveAt(s.rows, s.now, a, s.cache[a].value.id);
    }
  }

  /** A readable key at `a` that is still readable at time `t`. */
  predicate ReadableAt(s: State, a: Address, t: int) {
    Cached(s.cache, s.now, a).Some? && Visible(s.cache[a], t)
  }

  predicate KeyOf(s: State, id: Id) {
    id in s.rows && Cached(s.cache, s.now, s.rows[id].address).Some?
  }

  /** The steps that leave a key without its inbox, or one that outlives it: a lifetime that is not positive, an
      extension that shortens a lifetime while its key cannot be written, an inbox that is deleted while its key cannot
      be, a transfer or a foreign-key cascade over inboxes with keys, and a corrupted key. */
  predicate Strands(s: State, op: Op) {
    match op
    case Create(alias, domain, owner, g, ttl, c, lost) =>
      CreateOk(s, alias, domain, owner, g, ttl, c) && !lost && CreateTtl(ttl, c) <= 0
    case Extend(id, user, extension, c, lost) =>
      && ExtendOk(s, id, user, extension, c)
      && var ext := Extension(s.rows[id], extension, c);
         if lost then ReadableAt(s, s.rows[id].address, s.now + ext) else ext <= 0
    case Delete(id, user, lost) => KeyOf(s, id) && s.rows[id].owner == user && lost
    case DeleteDomain(domain, losses) =>
      exists id <- InDomain(s.rows, domain) :: KeyOf(s, id) && s.rows[id].address in losses
    case TransferDomain(domain, losses) => exists id <- InDomain(s.rows, domain) :: KeyOf(s, id)
    case Cascade(ids) => exists id <- ids :: KeyOf(s, id)
    case Corrupt(_) => true
    case _ => false
  }

  lemma CreateHonest(s: State, alias: string, domain: string, owner: nat, ttl: int, lost: bool)
    requires Inv(s) && Honest(s) && !Taken(s.rows, FullAddress(alias, domain))
    ensures Honest(CreateStep(s, alias, domain, owner, ttl, lost)) <==> lost || ttl > 0
  {
    var t := CreateStep(s, alias, domain, owner, ttl, lost);
    var a := FullAddress(alias, domain);
    assert HonestKey(s, a);
    forall b | b != a ensures HonestKey(t, b) { assert HonestKey(s, b); }
    assert Honest(t) <==> HonestKey(t, a);
  }

  lemma ExtendHonest(s: State, id: Id, ext: int, lost: bool)
    requires Inv(s) && Honest(s) && id in s.rows && s.rows[id].active
    ensures Honest(ExtendStep(s, id, ext, lost))
       <==> !(if lost then ReadableAt(s, s.rows[id].address, s.now + ext) else ext <= 0)
  {
    var t := ExtendStep(s, id, ext, lost);
    var a := s.rows[id].address;
    assert HonestKey(s, a);
    forall b | b != a ensures HonestKey(t, b) { assert HonestKey(s, b); }
    assert Honest(t) <==> HonestKey(t, a);
  }

  /** Rows that go, and keys that go with them. */
  lemma DropHonest(s: State, ids: set<Id>, keys: set<Address>)
    requires Inv(s) && Honest(s)
    ensures Honest(s.(rows := s.rows - ids, cache := s.cache - keys))
       <==> forall id <- ids :: KeyOf(s, id) ==> s.rows[id].address in keys
  {
    var t := s.(rows := s.rows - ids, cache := s.cache - keys);
    if forall id <- ids :: KeyOf(s, id) ==> s.rows[id].address in keys {
      forall a ensures HonestKey(t, a) { assert HonestKey(s, a); }
    } else {
      var id :| id in ids && KeyOf(s, id) && s.rows[id].address !in keys;
      assert HonestKey(s, s.rows[id].address);
      assert !HonestKey(t, s.rows[id].address);
    }
  }

  lemma ReconcileHonest(s: State, misses: set<Address>, losses: set<Address>)
    requires Inv(s) && Honest(s)
    ensures Honest(ReconcileStep(s, misses, losses))
  {
    var t := ReconcileStep(s, misses, losses);
    forall a ensures HonestKey(t, a) { assert HonestKey(s, a); }
  }

  lemma ProcessHonest(s: State, to: string, unread: bool, lost: bool)
    requires Inv(s) && Honest(s)
    ensures Honest(ProcessStep(s, to, unread, lost).0)
  {
    var t := ProcessStep(s, to, unread, lost).0;
    forall a ensures HonestKey(t, a) { assert HonestKey(s, a); }
  }

  lemma TickHonest(s: State, d: nat)
    requires Honest(s)
    ensures Honest(s.(now := s.now + d))
  {
    var t := s.(now := s.now + d);
    forall a ensures HonestKey(t, a) { assert HonestKey(s, a); }
  }

  lemma DeleteDomainHonest(s: State, domain: string, losses: set<Address>)
    requires Inv(s) && Honest(s)
    ensures Honest(DeleteDomainStep(s, domain, losses)) <==> !Strands(s, DeleteDomain(domain, losses))
  {
    var ids, keys := InDomain(s.rows, domain), LiveAddresses(s.rows, s.now, domain) - losses;
    DropHonest(s, ids, keys);
    var t := s.(rows := s.rows - ids, cache := s.cache - keys);
    assert Honest(DeleteDomainStep(s, domain, losses)) <==> Honest(t) by {
      assert forall a :: HonestKey(DeleteDomainStep(s, domain, losses), a) <==> HonestKey(t, a);
    }
    forall id | id in ids && KeyOf(s, id) ensures s.rows[id].address in keys <==> s.rows[id].address !in losses {
      assert HonestKey(s, s.rows[id].address);
      assert LiveRow(s.rows[id], s.now);
    }
  }

  lemma TransferHonest(s: State, domain: string, losses: set<Address>)
    requires Inv(s) && Honest(s)
    ensures Honest(TransferDomainStep(s, domain, losses)) <==> !Strands(s, TransferDomain(domain, losses))
  {
    var ids := InDomain(s.rows, domain);
    var keys := LiveAddresses(s.rows - ids, s.now, domain) - losses;
    assert keys == {};
    DropHonest(s, ids, keys);
  }

  predicate AllActive(s: State) {
    forall id :: id in s.rows ==> s.rows[id].active
  }

  /** Inboxes are created active, and nothing that runs clears the flag of an inbox that stays. */
  lemma StepKeepsActive(s: State, op: Op)
    requires AllActive(s)
    ensures AllActive(Step(s, op).0)
  {
  }

  /** The keys stay honest over a step exactly when the step strands none. */
  lemma StepHonestExactly(s: State, op: Op)
    requires Inv(s) && AllActive(s) && Honest(s)
    ensures Honest(Step(s, op).0) <==> !Strands(s, op)
  {
    match op
    case Tick(d) => TickHonest(s, d);
    case AddDomain(domain) =>
      assert forall a :: HonestKey(Step(s, op).0, a) <==> HonestKey(s, a);
    case Create(alias, domain, owner, g, ttl, c, lost) =>
      if CreateOk(s, alias, domain, owner, g, ttl, c) { CreateHonest(s, alias, domain, owner, CreateTtl(ttl, c), lost); }
    case Extend(id, user, extension, c, lost) =>
      if ExtendOk(s, id, user, extension, c) { ExtendHonest(s, id, Extension(s.rows[id], extension, c), lost); }
    case Delete(id, user, lost) => DeleteHonest(s, id, user, lost);
    case Cleanup => CleanupHonest(s);
    case Cascade(ids) => DropHonest(s, ids, {}); assert s.cache - {} == s.cache;
    case Evict(a) => DropHonest(s, {}, {a}); assert s.rows - {} == s.rows;
    case DeleteDomain(domain, losses) => DeleteDomainHonest(s, domain, losses);
    case TransferDomain(domain, losses) => TransferHonest(s, domain, losses);
    case Reconcile(misses, losses) => ReconcileHonest(s, misses, losses);
    case Process(to, unread, lost) => ProcessHonest(s, to, unread, lost);
    case Corrupt(a) => assert !HonestKey(Step(s, op).0, a);
  }

  lemma DeleteHonest(s: State, id: Id, user: nat, lost: bool)
    requires Inv(s) && Honest(s)
    ensures Honest(Step(s, Delete(id, user, lost)).0) <==> !Strands(s, Delete(id, user, lost))
  {
    if id in s.rows && s.rows[id].owner == user {
      DropHonest(s, {id}, if lost then {} else {s.rows[id].address});
      assert s.cache - {} == s.cache;
    }
  }

  lemma CleanupHonest(s: State)
    requires Inv(s) && Honest(s)
    ensures Honest(Step(s, Cleanup).0)
  {
    var ids := Expired(s.rows, s.now);
    DropHonest(s, ids, {});
    assert s.cache - {} == s.cache;
    forall id | id in ids ensures !KeyOf(s, id) { assert HonestKey(s, s.rows[id].address); }
  }

  ghost predicate NeverStrands(s: State, ops: seq<Op>)
    decreases |ops|
  {
    ops != [] ==> !Strands(s, ops[0]) && NeverStrands(Step(s, ops[0]).0, ops[1..])
  }

  ghost predicate HonestThroughout(s: State, ops: seq<Op>)
    decreases |ops|
  {
    Honest(s) && (ops != [] ==> HonestThroughout(Step(s, ops[0]).0, ops[1..]))
  }

  /** Over a run, no key is ever stranded if and only if no step strands one; and then the router's answer is exact in
      the final state for every recipient. */
  lemma {:induction false} RouterExact(s: State, ops: seq<Op>, to: string, unread: bool)
    requires Inv(s) && AllActive(s) && Honest(s)
    ensures HonestThroughout(s, ops) <==> NeverStrands(s, ops)
    ensures NeverStrands(s, ops) ==>
              var t := Run(s, ops);
              CanAccept(t, to, unread) <==> exists id :: LiveAt(t.rows, t.now, Normalize(to), id)
    decreases |ops|
  {
    if ops == [] {
      HonestRouter(s, to, unread);
    } else {
      StepHonestExactly(s, ops[0]);
      if !Strands(s, ops[0]) {
        StepKeeps(s, ops[0]);
        StepKeepsActive(s, ops[0]);
        RouterExact(Step(s, ops[0]).0, ops[1..], to, unread);
      }
    }
  }

  /** A transfer strands the key of every live inbox of the domain that has one: the router goes on accepting the
      address although the inbox is gone. */
  lemma TransferStrandsKey(s: State, domain: string, losses: set<Address>, id: Id, to: string)
    requires Inv(s) && KeyOf(s, id) && s.rows[id].domain == domain && Normalize(to) == s.rows[id].address
    ensures var t := Step(s, TransferDomain(domain, losses)).0;
            CanAccept(t, to, false) && forall i :: !LiveAt(t.rows, t.now, Normalize(to), i)
  {
    var t := Step(s, TransferDomain(domain, losses)).0;
    assert LiveAddresses(t.rows, s.now, domain) == {};
  }
}
