/** The services that write the inbox table and its cache, as objects that update both step by step. */
module InboxService {
  import opened Common
  import opened InboxCache
  import opened InboxSettings
  import opened Text

  /** Addresses are unique, so a live inbox is what the lookup by its address finds. */
  lemma LookupFinds(s: State, a: Address, id: Id)
    requires Inv(s) && LiveAt(s.rows, s.now, a, id)
    ensures Lookup(s.rows, s.now, a) == Some(id)
  {
  }

  function EntryAt(cache: map<Address, Entry>, a: Address): Option<Entry> {
    if a in cache then Some(cache[a]) else None
  }

  /** The key at `a` when all live inboxes but `ids` have been visited. */
  ghost function Partial(s: State, misses: set<Address>, losses: set<Address>, ids: set<Id>, a: Address): Option<Entry> {
    var row := Lookup(s.rows, s.now, a);
    if row.Some? && row.value !in ids then Reconciled(s, misses, losses, a) else EntryAt(s.cache, a)
  }

  lemma AllVisited(s: State, misses: set<Address>, losses: set<Address>, cache: map<Address, Entry>)
    requires forall a :: EntryAt(cache, a) == Partial(s, misses, losses, {}, a)
    ensures cache == ReconcileStep(s, misses, losses).cache
  {
    var done := ReconcileStep(s, misses, losses).cache;
    forall a ensures EntryAt(cache, a) == EntryAt(done, a) {
      assert EntryAt(cache, a) == Partial(s, misses, losses, {}, a);
    }
    assert forall a :: a in cache <==> EntryAt(cache, a).Some?;
    assert forall a :: a in done <==> EntryAt(done, a).Some?;
    assert cache.Keys == done.Keys;
    forall a | a in cache ensures cache[a] == done[a] {
      assert EntryAt(cache, a) == EntryAt(done, a);
    }
  }

  /** Visiting one live inbox. */
  lemma Visited(s: State, misses: set<Address>, losses: set<Address>, ids: set<Id>, id: Id,
                before: map<Address, Entry>, after: map<Address, Entry>)
    requires Inv(s) && id in ids && id in s.rows
    requires forall a :: EntryAt(before, a) == Partial(s, misses, losses, ids, a)
    requires forall a :: a != s.rows[id].address ==> EntryAt(after, a) == EntryAt(before, a)
    requires if LiveRow(s.rows[id], s.now)
             then EntryAt(after, s.rows[id].address) == Reconciled(s, misses, losses, s.rows[id].address)
             else after == before
    ensures forall a :: EntryAt(after, a) == Partial(s, misses, losses, ids - {id}, a)
  {
    var here := s.rows[id].address;
    if LiveRow(s.rows[id], s.now) {
      LookupFinds(s, here, id);
    }
    forall a ensures EntryAt(after, a) == Partial(s, misses, losses, ids - {id}, a) {
      assert EntryAt(before, a) == Partial(s, misses, losses, ids, a);
      if a != here {
        assert Lookup(s.rows, s.now, a) != Some(id);
      }
    }
  }

  class Store {
    var now: int
    var domains: set<string>
    var rows: map<Id, Row>
    var cache: map<Address, Entry>
    var next: Id

    ghost function View(): State
      reads this
    {
      State(now, domains, rows, cache, next)
    }

    constructor ()
      ensures View() == EMPTY && Inv(View())
    {
      now, domains, rows, cache, next := 0, {}, map[], map[], 0;
    }

    method RedisGet(a: Address) returns (v: Option<Value>)
      ensures v == Cached(cache, now, a)
    {
      if a in cache && Visible(cache[a], now) {
        v := Some(cache[a].value);
      } else {
        v := None;
      }
    }

    method RedisSet(a: Address, id: Id, ttl: int, lost: bool)
      modifies this`cache
      ensures cache == if lost then old(cache) else SetKey(old(cache), now, a, id, ttl)
      ensures !lost ==> Cached(cache, now, a) == Some(Inbox(id))
      ensures forall b, t :: b != a ==> Cached(cache, t, b) == Cached(old(cache), t, b)
    {
      if !lost {
        var expiry: Option<int> := None;
        if ttl > 0 {
          expiry := Some(now + ttl);
        } else if ttl == -1 && a in cache && Visible(cache[a], now) {
          expiry := cache[a].expiry;
        }
        cache := cache[a := Entry(Inbox(id), expiry)];
      }
    }

    method GetByFullAddress(a: Address) returns (found: Option<Id>)
      requires Inv(View())
      ensures found == Lookup(rows, now, a)
    {
      var ids := rows.Keys;
      while ids != {}
        invariant ids <= rows.Keys
        invariant forall id :: LiveAt(rows, now, a, id) ==> id in ids
        decreases |ids|
      {
        var id :| id in ids;
        if rows[id].address == a && LiveRow(rows[id], now) {
          LookupFinds(View(), a, id);
          return Some(id);
        }
        ids := ids - {id};
      }
      return None;
    }

    method AddressTaken(a: Address) returns (taken: bool)
      ensures taken == Taken(rows, a)
    {
      var ids := rows.Keys;
      while ids != {}
        invariant ids <= rows.Keys
        invariant forall id :: id in rows && rows[id].address == a ==> id in ids
        decreases |ids|
      {
        var id :| id in ids;
        if rows[id].address == a {
          return true;
        }
        ids := ids - {id};
      }
      return false;
    }

    /** The conditions of a creation, in order. */
    method MayCreate(alias: string, domain: string, owner: nat, g: Gate, ttl: Ttl, c: Settings) returns (ok: bool)
      ensures ok == CreateOk(View(), alias, domain, owner, g, ttl, c)
    {
      if !g.hasAssignment || g.readOnly || domain !in domains || !g.mxVerified {
        return false;
      }
      var live := |LiveIn(rows, now, domain)|;
      if live >= g.perDomain {
        return false;
      }
      if |LiveOf(rows, now, owner)| >= MAX_PER_USER {
        return false;
      }
      if !AliasOk(alias) {
        return false;
      }
      if g.perTeam.Some? && live >= g.perTeam.value {
        return false;
      }
      if ttl.Explicit? && (ttl.ttl < MINUTE || ttl.ttl > ResolveMax(c)) {
        return false;
      }
      var taken := AddressTaken(FullAddress(alias, domain));
      return !taken;
    }

    method CreateInbox(alias: string, domain: string, owner: nat, g: Gate, ttl: Ttl, c: Settings, lost: bool)
      returns (outcome: Outcome)
      requires Inv(View())
      modifies this`rows, this`cache, this`next
      ensures (View(), outcome) == Step(old(View()), Create(alias, domain, owner, g, ttl, c, lost)) && Inv(View())
    {
      StepKeeps(View(), Create(alias, domain, owner, g, ttl, c, lost));
      var ok := MayCreate(alias, domain, owner, g, ttl, c);
      if !ok {
        return Failed;
      }
      var lifetime := if ttl.Explicit? then ttl.ttl else ResolveDefaultWithTeam(c);
      InsertInbox(alias, domain, owner, lifetime, lost);
      return Done;
    }

    method InsertInbox(alias: string, domain: string, owner: nat, lifetime: int, lost: bool)
      modifies this`rows, this`cache, this`next
      ensures View() == CreateStep(old(View()), alias, domain, owner, lifetime, lost)
    {
      var a, id := FullAddress(alias, domain), next;
      rows := rows[id := Row(a, domain, owner, true, now, now + lifetime, Some(lifetime))];
      next := next + 1;
      RedisSet(a, id, lifetime, lost);
    }

    method ExtendTtl(id: Id, user: nat, extension: Option<int>, c: Settings, lost: bool) returns (outcome: Outcome)
      requires Inv(View())
      modifies this`rows, this`cache
      ensures (View(), outcome) == Step(old(View()), Extend(id, user, extension, c, lost)) && Inv(View())
    {
      StepKeeps(View(), Extend(id, user, extension, c, lost));
      if id !in rows || rows[id].owner != user {
        return Failed;
      }
      var inbox := rows[id];
      var ext: int;
      if extension.None? {
        ext := Renewal(c, inbox.originalTtl);
      } else {
        ext := extension.value;
      }
      var newExpiry := now + ext;
      if newExpiry > inbox.createdAt + ResolveMax(c) {
        return Failed;
      }
      rows := rows[id := inbox.(expiresAt := newExpiry)];
      RedisSet(inbox.address, id, newExpiry - now, lost);
      return Done;
    }

    method DeleteInbox(id: Id, user: nat, lost: bool) returns (outcome: Outcome)
      requires Inv(View())
      modifies this`rows, this`cache
      ensures (View(), outcome) == Step(old(View()), Delete(id, user, lost)) && Inv(View())
    {
      StepKeeps(View(), Delete(id, user, lost));
      if id !in rows || rows[id].owner != user {
        return Failed;
      }
      var a := rows[id].address;
      rows := rows - {id};
      if !lost {
        cache := cache - {a};
      }
      return Done;
    }

    method ListActiveAddressesByDomain(domain: string) returns (addresses: seq<Address>)
      ensures forall a :: a in addresses <==> a in LiveAddresses(rows, now, domain)
    {
      addresses := [];
      var ids := rows.Keys;
      while ids != {}
        invariant ids <= rows.Keys
        invariant forall a :: a in addresses <==>
          exists id :: id in rows.Keys - ids && rows[id].domain == domain && LiveRow(rows[id], now) && rows[id].address == a
        decreases |ids|
      {
        var id :| id in ids;
        ghost var seen, before := rows.Keys - ids, addresses;
        if rows[id].domain == domain && LiveRow(rows[id], now) {
          addresses := addresses + [rows[id].address];
        }
        ids := ids - {id};
        assert rows.Keys - ids == seen + {id};
      }
    }

    /** The loop over the domain's addresses that deletes their keys. */
    method DropKeys(addresses: seq<Address>, losses: set<Address>)
      modifies this`cache
      ensures cache == old(cache) - ((set a | a in addresses) - losses)
    {
      for i := 0 to |addresses|
        invariant cache == old(cache) - ((set a | a in addresses[..i]) - losses)
      {
        assert addresses[..i + 1] == addresses[..i] + [addresses[i]];
        if addresses[i] !in losses {
          cache := cache - {addresses[i]};
        }
      }
      assert addresses[..|addresses|] == addresses;
    }

    method DeleteDomain(domain: string, losses: set<Address>)
      requires Inv(View())
      modifies this`domains, this`rows, this`cache
      ensures View() == DeleteDomainStep(old(View()), domain, losses) && Inv(View())
    {
      DeleteDomainKeeps(View(), domain, losses);
      var addresses := ListActiveAddressesByDomain(domain);
      DropKeys(addresses, losses);
      assert (set a | a in addresses) == LiveAddresses(rows, now, domain);
      rows := rows - InDomain(rows, domain);
      domains := domains - {domain};
    }

    method TransferDomain(domain: string, losses: set<Address>)
      requires Inv(View())
      modifies this`rows, this`cache
      ensures View() == TransferDomainStep(old(View()), domain, losses) && Inv(View())
    {
      TransferDomainKeeps(View(), domain, losses);
      rows := rows - InDomain(rows, domain);
      var addresses := ListActiveAddressesByDomain(domain);
      DropKeys(addresses, losses);
      assert (set a | a in addresses) == LiveAddresses(rows, now, domain);
    }

    /** Give a live inbox its key if it has none that can be read. */
    method FillKey(id: Id, misses: set<Address>, losses: set<Address>, ghost s: State)
      requires s.now == now && s.rows == rows && id in rows && LiveRow(rows[id], now)
      requires Lookup(rows, now, rows[id].address) == Some(id)
      requires EntryAt(cache, rows[id].address) == EntryAt(s.cache, rows[id].address)
      modifies this`cache
      ensures EntryAt(cache, rows[id].address) == Reconciled(s, misses, losses, rows[id].address)
      ensures forall a :: a != rows[id].address ==> EntryAt(cache, a) == EntryAt(old(cache), a)
    {
      var inbox := rows[id];
      var existing := RedisGet(inbox.address);
      if existing.None? || inbox.address in misses {
        RedisSet(inbox.address, id, inbox.expiresAt - now, inbox.address in losses);
      }
    }

    /** The reconciler's pass over the live inboxes. */
    method ReconcileOnce(misses: set<Address>, losses: set<Address>)
      requires Inv(View())
      modifies this`cache
      ensures View() == ReconcileStep(old(View()), misses, losses)
    {
      ghost var s := View();
      var ids := rows.Keys;
      while ids != {}
        invariant ids <= rows.Keys
        invariant forall a :: EntryAt(cache, a) == Partial(s, misses, losses, ids, a)
        decreases |ids|
      {
        var id :| id in ids;
        ghost var before := cache;
        if LiveRow(rows[id], now) {
          LookupFinds(s, rows[id].address, id);
          assert EntryAt(cache, rows[id].address) == Partial(s, misses, losses, ids, rows[id].address);
          FillKey(id, misses, losses, s);
        }
        Visited(s, misses, losses, ids, id, before, cache);
        ids := ids - {id};
      }
      AllVisited(s, misses, losses, cache);
    }

    method ProcessMail(to: string, unread: bool, lost: bool) returns (outcome: Outcome)
      requires Inv(View())
      modifies this`cache
      ensures (View(), outcome) == ProcessStep(old(View()), to, unread, lost) && Inv(View())
    {
      ProcessKeeps(View(), to, unread, lost);
      var a := Normalize(to);
      var key: Option<Value> := None;
      if !unread {
        key := RedisGet(a);
      }
      var id: Id;
      if key.Some? && key.value.Inbox? {
        id := key.value.id;
        if id !in rows {
          return Rejected;
        }
      } else {
        var found := GetByFullAddress(a);
        if found.None? {
          return Rejected;
        }
        id := found.value;
        var remaining := rows[id].expiresAt - now;
        if remaining > 0 {
          RedisSet(a, id, remaining, lost);
        }
      }
      if !LiveRow(rows[id], now) {
        return Rejected;
      }
      return Stored(id);
    }

    method RouterCanAccept(to: string, unread: bool) returns (ok: bool)
      requires Inv(View())
      ensures ok == CanAccept(View(), to, unread)
    {
      var a := Normalize(to);
      var domain := DomainOf(a);
      if domain.None? || domain.value !in domains {
        return false;
      }
      if !unread {
        var key := RedisGet(a);
        if key.Some? {
          return true;
        }
      }
      var found := GetByFullAddress(a);
      return found.Some?;
    }
  }
}
