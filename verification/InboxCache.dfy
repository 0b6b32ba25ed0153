/** The inbox table and the Redis cache of addresses in front of it. Redis calls may fail, each on its own; a step that
    a service method performs is atomic. */
module InboxCache {
  import opened Common
  import opened InboxSettings
  import opened Text

  type Address = string
  type Id = nat

  datatype Row = Row(address: Address, domain: string, owner: nat, active: bool,
                     createdAt: int, expiresAt: int, originalTtl: Option<int>)

  /** What a key holds: an inbox id, or text that does not parse as one. */
  datatype Value = Inbox(id: Id) | Garbage

  datatype Entry = Entry(value: Value, expiry: Option<int>)

  datatype State = State(now: int, domains: set<string>, rows: map<Id, Row>, cache: map<Address, Entry>, next: Id)

  datatype Ttl = Explicit(ttl: int) | Default

  /** The other conditions of a creation: the domain is assigned to the team, with more than read access, and receives
      mail; and the quotas of live inboxes. */
  datatype Gate = Gate(hasAssignment: bool, readOnly: bool, mxVerified: bool, perDomain: int, perTeam: Option<int>)

  const MAX_PER_USER := 50

  /** Failing Redis calls: `lost` and `losses` say which writes and deletes of the step fail, `unread` and `misses`
      which reads. */
  datatype Op =
    | Tick(d: nat)
    | AddDomain(domain: string)
    | Create(alias: string, domain: string, owner: nat, gate: Gate, ttl: Ttl, settings: Settings, lost: bool)
    | Extend(id: Id, user: nat, extension: Option<int>, settings: Settings, lost: bool)
    | Delete(id: Id, user: nat, lost: bool)
    | Cleanup
    | DeleteDomain(domain: string, losses: set<Address>)
    | TransferDomain(domain: string, losses: set<Address>)
    | Cascade(ids: set<Id>)  // rows removed by a foreign key, as when an assignment or a team goes
    | Reconcile(misses: set<Address>, losses: set<Address>)
    | Process(to: string, unread: bool, lost: bool)
    | Evict(address: Address)
    | Corrupt(address: Address)

  datatype Outcome = Done | Failed | Stored(id: Id) | Rejected

  // ---- Redis ----

  predicate Visible(e: Entry, now: int) {
    e.expiry.None? || now < e.expiry.value
  }

  function Cached(cache: map<Address, Entry>, now: int, a: Address): Option<Value> {
    if a in cache && Visible(cache[a], now) then Some(cache[a].value) else None
  }

  /** SET with a time to live: a positive one expires the key, -1 keeps the expiry it has, and any other value that is
      not positive stores the key without one. */
  function SetKey(cache: map<Address, Entry>, now: int, a: Address, id: Id, ttl: int): map<Address, Entry> {
    var expiry := if ttl > 0 then Some(now + ttl)
                  else if ttl == -1 && a in cache && Visible(cache[a], now) then cache[a].expiry
                  else None;
    cache[a := Entry(Inbox(id), expiry)]
  }

  /** A key that was written reads back as the inbox that was written, from then until its time to live is over if it
      was positive, or until the expiry that was kept, or for good; and no other key reads differently. */
  lemma WriteReadsBack(cache: map<Address, Entry>, now: int, a: Address, id: Id, ttl: int, later: int)
    requires now <= later
    ensures var after := SetKey(cache, now, a, id, ttl);
            && Cached(after, now, a) == Some(Inbox(id))
            && (Cached(after, later, a).Some? ==> Cached(after, later, a) == Some(Inbox(id)))
            && (Cached(after, later, a).Some? <==>
                  if ttl > 0 then later < now + ttl
                  else ttl == -1 && Cached(cache, now, a).Some? ==> Cached(cache, later, a).Some?)
            && forall b :: b != a ==> Cached(after, later, b) == Cached(cache, later, b)
  {
  }

  // ---- The table ----

  predicate LiveRow(r: Row, now: int) {
    r.active && r.expiresAt > now
  }

  predicate LiveAt(rows: map<Id, Row>, now: int, a: Address, id: Id) {
    id in rows && rows[id].address == a && LiveRow(rows[id], now)
  }

  /** The plain lookup by address. */
  ghost function Lookup(rows: map<Id, Row>, now: int, a: Address): (r: Option<Id>)
    ensures r.Some? ==> LiveAt(rows, now, a, r.value)
    ensures r.None? ==> forall id :: !LiveAt(rows, now, a, id)
  {
    if exists id :: LiveAt(rows, now, a, id) then
      var id :| LiveAt(rows, now, a, id); Some(id)
    else None
  }

  predicate Taken(rows: map<Id, Row>, a: Address) {
    exists id :: id in rows && rows[id].address == a
  }

  function InDomain(rows: map<Id, Row>, domain: string): set<Id> {
    set id | id in rows && rows[id].domain == domain
  }

  /** Addresses of a domain's live inboxes. */
  function LiveAddresses(rows: map<Id, Row>, now: int, domain: string): set<Address> {
    set id | id in rows && rows[id].domain == domain && LiveRow(rows[id], now) :: rows[id].address
  }

  function LiveIn(rows: map<Id, Row>, now: int, domain: string): set<Id> {
    set id | id in rows && rows[id].domain == domain && LiveRow(rows[id], now)
  }

  function LiveOf(rows: map<Id, Row>, now: int, owner: nat): set<Id> {
    set id | id in rows && rows[id].owner == owner && LiveRow(rows[id], now)
  }

  function Expired(rows: map<Id, Row>, now: int): set<Id> {
    set id | id in rows && rows[id].expiresAt < now
  }

  // ---- Addresses ----

  predicate AlphaNum(c: char) {
    'a' <= c <= 'z' || '0' <= c <= '9'
  }

  /** An alias of 2 to 64 lower-case letters, digits, dots, dashes and underscores, with no punctuation at its ends. */
  predicate AliasOk(s: string) {
    && 2 <= |s| <= 64 && AlphaNum(s[0]) && AlphaNum(s[|s| - 1])
    && forall i :: 0 <= i < |s| ==> AlphaNum(s[i]) || s[i] in "._-"
  }

  function FullAddress(alias: string, domain: string): Address {
    alias + "@" + domain
  }

  /** What follows the first '@'. */
  function DomainOf(a: Address): Option<string> {
    var i := IndexByte(a, '@');
    if i < |a| then Some(a[i + 1..]) else None
  }

  // ---- Steps ----

  predicate Admitted(s: State, domain: string, owner: nat, g: Gate) {
    var live := |LiveIn(s.rows, s.now, domain)|;
    && g.hasAssignment && !g.readOnly && g.mxVerified && live < g.perDomain && (g.perTeam.Some? ==> live < g.perTeam.value)
    && |LiveOf(s.rows, s.now, owner)| < MAX_PER_USER
  }

  predicate CreateOk(s: State, alias: string, domain: string, owner: nat, g: Gate, ttl: Ttl, c: Settings) {
    && domain in s.domains && AliasOk(alias) && Admitted(s, domain, owner, g)
    && (ttl.Explicit? ==> MINUTE <= ttl.ttl <= ResolveMax(c))
    && !Taken(s.rows, FullAddress(alias, domain))
  }

  function CreateTtl(ttl: Ttl, c: Settings): int {
    if ttl.Explicit? then ttl.ttl else ResolveDefaultWithTeam(c)
  }

  function CreateStep(s: State, alias: string, domain: string, owner: nat, ttl: int, lost: bool): State {
    var a := FullAddress(alias, domain);
    s.(rows := s.rows[s.next := Row(a, domain, owner, true, s.now, s.now + ttl, Some(ttl))],
       cache := if lost then s.cache else SetKey(s.cache, s.now, a, s.next, ttl),
       next := s.next + 1)
  }

  function Extension(r: Row, extension: Option<int>, c: Settings): int {
    if extension.Some? then extension.value else Renewal(c, r.originalTtl)
  }

  predicate ExtendOk(s: State, id: Id, user: nat, extension: Option<int>, c: Settings) {
    && id in s.rows && s.rows[id].owner == user
    && s.now + Extension(s.rows[id], extension, c) <= s.rows[id].createdAt + ResolveMax(c)
  }

  function ExtendStep(s: State, id: Id, ext: int, lost: bool): State
    requires id in s.rows
  {
    s.(rows := s.rows[id := s.rows[id].(expiresAt := s.now + ext)],
       cache := if lost then s.cache else SetKey(s.cache, s.now, s.rows[id].address, id, ext))
  }

  function DeleteStep(s: State, id: Id, lost: bool): State
    requires id in s.rows
  {
    s.(rows := s.rows - {id}, cache := if lost then s.cache else s.cache - {s.rows[id].address})
  }

  /** The keys of live inboxes are deleted, then the domain, whose inboxes go with it. */
  function DeleteDomainStep(s: State, domain: string, losses: set<Address>): State {
    s.(domains := s.domains - {domain}, rows := s.rows - InDomain(s.rows, domain),
       cache := s.cache - (LiveAddresses(s.rows, s.now, domain) - losses))
  }

  /** The assignments go first and take the inboxes along, so that when the keys are to be deleted no live inbox of the
      domain is left to list. */
  function TransferDomainStep(s: State, domain: string, losses: set<Address>): State {
    var rows := s.rows - InDomain(s.rows, domain);
    s.(rows := rows, cache := s.cache - (LiveAddresses(rows, s.now, domain) - losses))
  }

  /** The key a reconciler pass leaves at `a`. */
  ghost function Reconciled(s: State, misses: set<Address>, losses: set<Address>, a: Address): Option<Entry> {
    var row := Lookup(s.rows, s.now, a);
    if row.Some? && a !in losses && (a in misses || Cached(s.cache, s.now, a).None?) then
      Some(Entry(Inbox(row.value), Some(s.rows[row.value].expiresAt)))
    else if a in s.cache then Some(s.cache[a])
    else None
  }

  ghost function ReconcileStep(s: State, misses: set<Address>, losses: set<Address>): State {
    var addresses := s.cache.Keys + set id | id in s.rows :: s.rows[id].address;
    s.(cache := map a | a in addresses && Reconciled(s, misses, losses, a).Some? :: Reconciled(s, misses, losses, a).value)
  }

  ghost function ProcessStep(s: State, to: string, unread: bool, lost: bool): (State, Outcome) {
    var a := Normalize(to);
    var cached := if unread then None else Cached(s.cache, s.now, a);
    if cached.Some? && cached.value.Inbox? then
      var id := cached.value.id;
      (s, if id in s.rows && LiveRow(s.rows[id], s.now) then Stored(id) else Rejected)
    else match Lookup(s.rows, s.now, a)
         case None => (s, Rejected)
         case Some(id) =>
           var ttl := s.rows[id].expiresAt - s.now;
           (if lost then s else s.(cache := SetKey(s.cache, s.now, a, id, ttl)), Stored(id))
  }

  ghost function Step(s: State, op: Op): (State, Outcome) {
    match op
    case Tick(d) => (s.(now := s.now + d), Done)
    case AddDomain(domain) => (s.(domains := s.domains + {domain}), Done)
    case Create(alias, domain, owner, g, ttl, c, lost) =>
      if CreateOk(s, alias, domain, owner, g, ttl, c) then (CreateStep(s, alias, domain, owner, CreateTtl(ttl, c), lost), Done)
      else (s, Failed)
    case Extend(id, user, extension, c, lost) =>
      if ExtendOk(s, id, user, extension, c) then
        (ExtendStep(s, id, Extension(s.rows[id], extension, c), lost), Done)
      else (s, Failed)
    case Delete(id, user, lost) =>
      if id in s.rows && s.rows[id].owner == user then (DeleteStep(s, id, lost), Done) else (s, Failed)
    case Cleanup => (s.(rows := s.rows - Expired(s.rows, s.now)), Done)
    case DeleteDomain(domain, losses) => (DeleteDomainStep(s, domain, losses), Done)
    case TransferDomain(domain, losses) => (TransferDomainStep(s, domain, losses), Done)
    case Cascade(ids) => (s.(rows := s.rows - ids), Done)
    case Reconcile(misses, losses) => (ReconcileStep(s, misses, losses), Done)
    case Process(to, unread, lost) => ProcessStep(s, to, unread, lost)
    case Evict(a) => (s.(cache := s.cache - {a}), Done)
    case Corrupt(a) => (s.(cache := s.cache[a := Entry(Garbage, None)]), Done)
  }

  ghost function Run(s: State, ops: seq<Op>): State
    decreases |ops|
  {
    if ops == [] then s else Run(Step(s, ops[0]).0, ops[1..])
  }

  const EMPTY := State(0, {}, map[], map[], 0)

  // ---- Any faults ----

  /** Addresses are unique, ids are fresh, inboxes belong to known domains, and a key that names an inbox that still
      exists is that inbox's own address. */
  predicate Inv(s: State) {
    Unique(s.rows) && RowsOk(s.rows, s.domains, s.next) && KeysOk(s.rows, s.next, s.cache)
  }

  predicate Unique(rows: map<Id, Row>) {
    forall i, j :: i in rows && j in rows && rows[i].address == rows[j].address ==> i == j
  }

  predicate RowOk(r: Row, domains: set<string>) {
    r.domain in domains && DomainOf(r.address) == Some(r.domain)
  }

  predicate RowsOk(rows: map<Id, Row>, domains: set<string>, next: Id) {
    forall id :: id in rows ==> id < next && RowOk(rows[id], domains)
  }

  predicate KeysOk(rows: map<Id, Row>, next: Id, cache: map<Address, Entry>) {
    forall a :: a in cache ==> KeyOk(rows, next, a, cache[a].value)
  }

  predicate KeyOk(rows: map<Id, Row>, next: Id, a: Address, v: Value) {
    v.Inbox? ==> v.id < next && (v.id in rows ==> rows[v.id].address == a)
  }

  lemma AliasDomain(alias: string, domain: string)
    requires AliasOk(alias)
    ensures DomainOf(FullAddress(alias, domain)) == Some(domain)
  {
    assert '@' !in alias;
    IndexByteSkip(alias, '@', domain);
    assert FullAddress(alias, domain)[|alias| + 1..] == domain;
  }

  lemma CreateKeeps(s: State, alias: string, domain: string, owner: nat, ttl: int, lost: bool)
    requires Inv(s) && domain in s.domains && AliasOk(alias) && !Taken(s.rows, FullAddress(alias, domain))
    ensures Inv(CreateStep(s, alias, domain, owner, ttl, lost))
  {
    AliasDomain(alias, domain);
  }

  lemma DropKeeps(s: State, ids: set<Id>, keys: set<Address>)
    requires Inv(s)
    ensures Inv(s.(rows := s.rows - ids, cache := s.cache - keys))
  {
  }

  lemma KeyKeeps(s: State, a: Address, id: Id, ttl: int)
    requires Inv(s) && KeyOk(s.rows, s.next, a, Inbox(id))
    ensures Inv(s.(cache := SetKey(s.cache, s.now, a, id, ttl)))
  {
  }

  lemma RowKeeps(s: State, id: Id, r: Row)
    requires Inv(s) && id in s.rows && r.address == s.rows[id].address && r.domain == s.rows[id].domain
    ensures Inv(s.(rows := s.rows[id := r]))
  {
    SameAddresses(s.rows, id, r);
    SameKeys(s.rows, id, r, s.next, s.cache);
  }

  lemma SameAddresses(rows: map<Id, Row>, id: Id, r: Row)
    requires Unique(rows) && id in rows && r.address == rows[id].address
    ensures Unique(rows[id := r])
  {
  }

  lemma SameKeys(rows: map<Id, Row>, id: Id, r: Row, next: Id, cache: map<Address, Entry>)
    requires KeysOk(rows, next, cache) && id in rows && r.address == rows[id].address
    ensures KeysOk(rows[id := r], next, cache)
  {
  }

  lemma ExtendKeeps(s: State, id: Id, ext: int, lost: bool)
    requires Inv(s) && id in s.rows
    ensures Inv(ExtendStep(s, id, ext, lost))
  {
    var r := s.rows[id].(expiresAt := s.now + ext);
    RowKeeps(s, id, r);
    if !lost {
      KeyKeeps(s.(rows := s.rows[id := r]), r.address, id, ext);
    }
  }

  lemma DeleteKeeps(s: State, id: Id, lost: bool)
    requires Inv(s) && id in s.rows
    ensures Inv(DeleteStep(s, id, lost))
  {
    DropKeeps(s, {id}, if lost then {} else {s.rows[id].address});
    assert s.cache - {} == s.cache;
  }

  lemma DeleteDomainKeeps(s: State, domain: string, losses: set<Address>)
    requires Inv(s)
    ensures Inv(DeleteDomainStep(s, domain, losses))
  {
    DropKeeps(s, InDomain(s.rows, domain), LiveAddresses(s.rows, s.now, domain) - losses);
  }

  lemma TransferDomainKeeps(s: State, domain: string, losses: set<Address>)
    requires Inv(s)
    ensures Inv(TransferDomainStep(s, domain, losses))
  {
    var ids := InDomain(s.rows, domain);
    DropKeeps(s, ids, LiveAddresses(s.rows - ids, s.now, domain) - losses);
  }

  lemma ReconcileKeeps(s: State, misses: set<Address>, losses: set<Address>)
    requires Inv(s)
    ensures Inv(ReconcileStep(s, misses, losses))
  {
  }

  lemma ProcessKeeps(s: State, to: string, unread: bool, lost: bool)
    requires Inv(s)
    ensures Inv(ProcessStep(s, to, unread, lost).0)
  {
  }

  /** Steps that remove rows or keys, or touch neither. */
  lemma PlainKeeps(s: State, op: Op)
    requires Inv(s) && (op.Tick? || op.AddDomain? || op.Cleanup? || op.Cascade? || op.Evict? || op.Corrupt?)
    ensures Inv(Step(s, op).0)
  {
    assert s.cache - {} == s.cache && s.rows - {} == s.rows;
    match op
    case Cleanup => DropKeeps(s, Expired(s.rows, s.now), {});
    case Cascade(ids) => DropKeeps(s, ids, {});
    case Evict(a) => DropKeeps(s, {}, {a});
    case _ =>
  }

  lemma StepKeeps(s: State, op: Op)
    requires Inv(s)
    ensures Inv(Step(s, op).0)
  {
    match op
    case Create(alias, domain, owner, g, ttl, c, lost) =>
      if CreateOk(s, alias, domain, owner, g, ttl, c) { CreateKeeps(s, alias, domain, owner, CreateTtl(ttl, c), lost); }
    case Extend(id, user, extension, c, lost) =>
      if ExtendOk(s, id, user, extension, c) { ExtendKeeps(s, id, Extension(s.rows[id], extension, c), lost); }
    case Delete(id, user, lost) => if id in s.rows { DeleteKeeps(s, id, lost); }
    case DeleteDomain(domain, losses) => DeleteDomainKeeps(s, domain, losses);
    case TransferDomain(domain, losses) => TransferDomainKeeps(s, domain, losses);
    case Reconcile(misses, losses) => ReconcileKeeps(s, misses, losses);
    case Process(to, unread, lost) => ProcessKeeps(s, to, unread, lost);
    case _ => PlainKeeps(s, op);
  }

  lemma {:induction false} RunKeeps(s: State, ops: seq<Op>)
    requires Inv(s)
    ensures Inv(Run(s, ops))
    decreases |ops|
  {
    if ops == [] {
    } else {
      StepKeeps(s, ops[0]);
      RunKeeps(Step(s, ops[0]).0, ops[1..]);
    }
  }

  /** When a mail is stored, and where: in the live inbox whose address is the normalised recipient, unless the address
      has a readable key that names another inbox. */
  lemma ProcessExactly(s: State, to: string, unread: bool, lost: bool, id: Id)
    requires Inv(s)
    ensures var a := Normalize(to);
            var key := Cached(s.cache, s.now, a);
            ProcessStep(s, to, unread, lost).1 == Stored(id) <==>
              (LiveAt(s.rows, s.now, a, id) && (unread || key.None? || key == Some(Garbage) || key == Some(Inbox(id))))
  {
  }

  /** Over every run and under any pattern of failing Redis calls, mail is stored only in a live inbox of that very
      address, and the router refuses no live inbox. */
  lemma SafeUnderAnyFaults(ops: seq<Op>, to: string, unread: bool, lost: bool, id: Id)
    ensures var s := Run(EMPTY, ops);
            && (ProcessStep(s, to, unread, lost).1 == Stored(id) ==> LiveAt(s.rows, s.now, Normalize(to), id))
            && (LiveAt(s.rows, s.now, Normalize(to), id) ==> CanAccept(s, to, unread))
  {
    RunKeeps(EMPTY, ops);
    ProcessExactly(Run(EMPTY, ops), to, unread, lost, id);
  }

  // ---- The router ----

  /** The decision made on RCPT TO: any readable key is enough. */
  ghost predicate CanAccept(s: State, to: string, unread: bool) {
    var a := Normalize(to);
    && DomainOf(a).Some? && DomainOf(a).value in s.domains
    && ((!unread && Cached(s.cache, s.now, a).Some?) || Lookup(s.rows, s.now, a).Some?)
  }

  // ---- Agreement with the table ----

  /** No readable key names another inbox than the one that has the address. */
  predicate AgreesAt(s: State, id: Id)
    requires id in s.rows
  {
    var key := Cached(s.cache, s.now, s.rows[id].address);
    key.None? || key.value == Garbage || key.value == Inbox(id)
  }

  predicate Agrees(s: State) {
    forall id :: id in s.rows ==> AgreesAt(s, id)
  }

  /** What a plain table lookup would do with the mail. */
  ghost function Direct(s: State, to: string): Outcome {
    match Lookup(s.rows, s.now, Normalize(to))
    case None => Rejected
    case Some(id) => Stored(id)
  }

  lemma AgreementMeansRefinement(s: State, to: string, unread: bool, lost: bool)
    requires Inv(s) && Agrees(s)
    ensures ProcessStep(s, to, unread, lost).1 == Direct(s, to)
  {
    var a := Normalize(to);
    var direct := Lookup(s.rows, s.now, a);
    var key := Cached(s.cache, s.now, a);
    if direct.Some? {
      assert AgreesAt(s, direct.value);
    } else if key.Some? && key.value.Inbox? {
      assert KeyOk(s.rows, s.next, a, key.value) && !LiveAt(s.rows, s.now, a, key.value.id);
    }
  }

  /** The inbox can be reached by mail: its address is in normal form. */
  predicate Addressable(s: State, id: Id)
    requires id in s.rows
  {
    LiveRow(s.rows[id], s.now) && Normalize(s.rows[id].address) == s.rows[id].address
  }

  /** The two-level lookup gives the answer of the plain one for every recipient exactly when every live inbox with an
      address in normal form agrees with its key. */
  lemma RefinementExactly(s: State, lost: bool)
    requires Inv(s)
    ensures (forall to :: ProcessStep(s, to, false, lost).1 == Direct(s, to))
       <==> (forall id :: id in s.rows && Addressable(s, id) ==> AgreesAt(s, id))
  {
    if forall id :: id in s.rows && Addressable(s, id) ==> AgreesAt(s, id) {
      forall to ensures ProcessStep(s, to, false, lost).1 == Direct(s, to) {
        AgreeingAddress(s, to, lost);
      }
    } else {
      var id :| id in s.rows && Addressable(s, id) && !AgreesAt(s, id);
      var to := s.rows[id].address;
      assert LiveAt(s.rows, s.now, Normalize(to), id);
      assert Direct(s, to) == Stored(id);
      ProcessExactly(s, to, false, lost, id);
    }
  }

  lemma AgreeingAddress(s: State, to: string, lost: bool)
    requires Inv(s) && forall id :: id in s.rows && Addressable(s, id) ==> AgreesAt(s, id)
    ensures ProcessStep(s, to, false, lost).1 == Direct(s, to)
  {
    var a := Normalize(to);
    NormalizeTwice(to);
    var direct := Lookup(s.rows, s.now, a);
    var key := Cached(s.cache, s.now, a);
    if direct.Some? {
      assert Addressable(s, direct.value);
    } else if key.Some? && key.value.Inbox? {
      assert KeyOk(s.rows, s.next, a, key.value) && !LiveAt(s.rows, s.now, a, key.value.id);
    }
  }

  /** The only step that can break the agreement: a new inbox whose key cannot be written, at an address where a key of
      an earlier inbox is still readable. */
  predicate LeavesStaleKey(s: State, op: Op) {
    op.Create? && op.lost && CreateOk(s, op.alias, op.domain, op.owner, op.gate, op.ttl, op.settings)
    && var key := Cached(s.cache, s.now, FullAddress(op.alias, op.domain)); key.Some? && key.value.Inbox?
  }

  lemma DropAgrees(s: State, ids: set<Id>, keys: set<Address>)
    requires Agrees(s)
    ensures Agrees(s.(rows := s.rows - ids, cache := s.cache - keys))
  {
    var t := s.(rows := s.rows - ids, cache := s.cache - keys);
    forall id | id in t.rows ensures AgreesAt(t, id) { assert AgreesAt(s, id); }
  }

  lemma CreateAgrees(s: State, alias: string, domain: string, owner: nat, ttl: int, lost: bool)
    requires Inv(s) && Agrees(s) && !Taken(s.rows, FullAddress(alias, domain))
    ensures var key := Cached(s.cache, s.now, FullAddress(alias, domain));
            Agrees(CreateStep(s, alias, domain, owner, ttl, lost)) <==> !(lost && key.Some? && key.value.Inbox?)
  {
    var t := CreateStep(s, alias, domain, owner, ttl, lost);
    assert forall id :: id in s.rows ==> t.rows[id] == s.rows[id] && (AgreesAt(s, id) <==> AgreesAt(t, id));
    assert Agrees(t) <==> AgreesAt(t, s.next);
  }

  lemma ExtendAgrees(s: State, id: Id, ext: int, lost: bool)
    requires Inv(s) && Agrees(s) && id in s.rows
    ensures Agrees(ExtendStep(s, id, ext, lost))
  {
    var t := ExtendStep(s, id, ext, lost);
    forall i | i in t.rows ensures AgreesAt(t, i) { assert AgreesAt(s, i); }
  }

  lemma ReconcileAgrees(s: State, misses: set<Address>, losses: set<Address>)
    requires Inv(s) && Agrees(s)
    ensures Agrees(ReconcileStep(s, misses, losses))
  {
    var t := ReconcileStep(s, misses, losses);
    forall i | i in t.rows ensures AgreesAt(t, i) { assert AgreesAt(s, i); }
  }

  lemma ProcessAgrees(s: State, to: string, unread: bool, lost: bool)
    requires Inv(s) && Agrees(s)
    ensures Agrees(ProcessStep(s, to, unread, lost).0)
  {
    var t := ProcessStep(s, to, unread, lost).0;
    forall i | i in t.rows ensures AgreesAt(t, i) { assert AgreesAt(s, i); }
  }

  lemma PlainAgrees(s: State, op: Op)
    requires Agrees(s) && (op.Tick? || op.AddDomain? || op.Corrupt?)
    ensures Agrees(Step(s, op).0)
  {
    var t := Step(s, op).0;
    forall i | i in t.rows ensures AgreesAt(t, i) { assert AgreesAt(s, i); }
  }

  lemma StepAgreesExactly(s: State, op: Op)
    requires Inv(s) && Agrees(s)
    ensures Agrees(Step(s, op).0) <==> !LeavesStaleKey(s, op)
  {
    match op
    case Create(alias, domain, owner, g, ttl, c, lost) =>
      if CreateOk(s, alias, domain, owner, g, ttl, c) { CreateAgrees(s, alias, domain, owner, CreateTtl(ttl, c), lost); }
    case Extend(id, user, extension, c, lost) =>
      if ExtendOk(s, id, user, extension, c) { ExtendAgrees(s, id, Extension(s.rows[id], extension, c), lost); }
    case Delete(id, user, lost) =>
      if id in s.rows { DropAgrees(s, {id}, if lost then {} else {s.rows[id].address}); }
      assert s.cache - {} == s.cache;
    case Cleanup => DropAgrees(s, Expired(s.rows, s.now), {}); assert s.cache - {} == s.cache;
    case Cascade(ids) => DropAgrees(s, ids, {}); assert s.cache - {} == s.cache;
    case Evict(a) => DropAgrees(s, {}, {a}); assert s.rows - {} == s.rows;
    case DeleteDomain(domain, losses) =>
      DropAgrees(s, InDomain(s.rows, domain), LiveAddresses(s.rows, s.now, domain) - losses);
    case TransferDomain(domain, losses) =>
      var ids := InDomain(s.rows, domain);
      DropAgrees(s, ids, LiveAddresses(s.rows - ids, s.now, domain) - losses);
    case Reconcile(misses, losses) => ReconcileAgrees(s, misses, losses);
    case Process(to, unread, lost) => ProcessAgrees(s, to, unread, lost);
    case _ => PlainAgrees(s, op);
  }

  ghost predicate AgreesThroughout(s: State, ops: seq<Op>)
    decreases |ops|
  {
    Agrees(s) && (ops != [] ==> AgreesThroughout(Step(s, ops[0]).0, ops[1..]))
  }

  ghost predicate NeverStale(s: State, ops: seq<Op>)
    decreases |ops|
  {
    ops != [] ==> !LeavesStaleKey(s, ops[0]) && NeverStale(Step(s, ops[0]).0, ops[1..])
  }

  /** The cache agrees with the table throughout a run if and only if no creation leaves a stale key behind. */
  lemma {:induction false} RunAgreesExactly(s: State, ops: seq<Op>)
    requires Inv(s) && Agrees(s)
    ensures AgreesThroughout(s, ops) <==> NeverStale(s, ops)
    decreases |ops|
  {
    if ops == [] {
    } else {
      StepKeeps(s, ops[0]);
      StepAgreesExactly(s, ops[0]);
      if !LeavesStaleKey(s, ops[0]) {
        RunAgreesExactly(Step(s, ops[0]).0, ops[1..]);
      }
    }
  }

  lemma {:induction false} WritesSucceed(s: State, ops: seq<Op>)
    requires forall op <- ops :: op.Create? ==> !op.lost
    ensures NeverStale(s, ops)
    decreases |ops|
  {
    if ops == [] {
    } else {
      assert ops[0] in ops && forall op <- ops[1..] :: op in ops;
      WritesSucceed(Step(s, ops[0]).0, ops[1..]);
    }
  }

  lemma {:induction false} AgreesAtEnd(s: State, ops: seq<Op>)
    requires AgreesThroughout(s, ops)
    ensures Agrees(Run(s, ops))
    decreases |ops|
  {
    if ops == [] {
    } else {
      AgreesAtEnd(Step(s, ops[0]).0, ops[1..]);
    }
  }

  /** Refinement: as long as the key of a new inbox gets written, every run leaves the two-level lookup with the answer of
      the plain table lookup, for every recipient, whatever reads, deletes and other writes have failed. */
  lemma CacheRefinesTable(ops: seq<Op>, to: string, unread: bool, lost: bool)
    requires forall op <- ops :: op.Create? ==> !op.lost
    ensures var s := Run(EMPTY, ops); ProcessStep(s, to, unread, lost).1 == Direct(s, to)
  {
    WritesSucceed(EMPTY, ops);
    RunAgreesExactly(EMPTY, ops);
    AgreesAtEnd(EMPTY, ops);
    RunKeeps(EMPTY, ops);
    AgreementMeansRefinement(Run(EMPTY, ops), to, unread, lost);
  }

  /** Why the write matters: a domain is transferred, its key survives, and the address is taken again while Redis does
      not take the new key. The plain lookup finds the new inbox; mail for it is turned away. */
  lemma StaleKeyTurnsMailAway(c: Settings, alias: string, domain: string)
    requires AliasOk(alias) && Normalize(FullAddress(alias, domain)) == FullAddress(alias, domain)
    requires ResolveMax(c) >= MINUTE
    ensures var a := FullAddress(alias, domain);
            var s := Run(EMPTY, StaleKeyRun(c, alias, domain));
            Direct(s, a) == Stored(1) && ProcessStep(s, a, false, false).1 == Rejected
  {
    var a := FullAddress(alias, domain);
    var ops := StaleKeyRun(c, alias, domain);
    var s1 := EMPTY.(domains := {domain});
    assert Step(EMPTY, ops[0]).0 == s1;
    NothingLive(s1, domain, 0);
    var s2 := CreateStep(s1, alias, domain, 0, MINUTE, false);
    assert Step(s1, ops[1]).0 == s2;
    var s3 := s2.(rows := map[]);
    assert TransferDomainStep(s2, domain, {}) == s3 by {
      assert s2.rows - InDomain(s2.rows, domain) == map[];
      assert LiveAddresses(map[], s2.now, domain) == {};
      assert s2.cache - ({} - {}) == s2.cache;
    }
    assert Step(s2, ops[2]).0 == s3;
    NothingLive(s3, domain, 0);
    var s4 := CreateStep(s3, alias, domain, 0, MINUTE, true);
    assert Step(s3, ops[3]).0 == s4;
    Unroll(ops);
    assert Run(EMPTY, ops) == s4;
    assert LiveAt(s4.rows, s4.now, a, 1);
    assert Cached(s4.cache, s4.now, a) == Some(Inbox(0));
  }

  lemma NothingLive(s: State, domain: string, owner: nat)
    requires s.rows == map[]
    ensures Admitted(s, domain, owner, Gate(true, false, true, 1, None))
  {
    assert LiveIn(s.rows, s.now, domain) == {} && LiveOf(s.rows, s.now, owner) == {};
  }

  function StaleKeyRun(c: Settings, alias: string, domain: string): seq<Op> {
    var ttl, gate := Explicit(MINUTE), Gate(true, false, true, 1, None);
    [AddDomain(domain), Create(alias, domain, 0, gate, ttl, c, false), TransferDomain(domain, {}),
     Create(alias, domain, 0, gate, ttl, c, true)]
  }

  lemma Unroll(ops: seq<Op>)
    requires |ops| == 4
    ensures Run(EMPTY, ops)
         == Step(Step(Step(Step(EMPTY, ops[0]).0, ops[1]).0, ops[2]).0, ops[3]).0
  {
    var s1 := Step(EMPTY, ops[0]).0;
    var s2 := Step(s1, ops[1]).0;
    var s3 := Step(s2, ops[2]).0;
    var s4 := Step(s3, ops[3]).0;
    assert Run(s3, ops[3..]) == Run(s4, ops[4..]) == s4 by { assert ops[3..][1..] == ops[4..] == []; }
    assert Run(s2, ops[2..]) == Run(s3, ops[3..]) by { assert ops[2..][1..] == ops[3..]; }
    assert Run(s1, ops[1..]) == Run(s2, ops[2..]) by { assert ops[1..][1..] == ops[2..]; }
  }
}
