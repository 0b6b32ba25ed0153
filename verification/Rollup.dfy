/** Analytics counters: all-time totals, and the daily, hourly and per-name tables kept beside them. */
module Rollup {
  import opened Common

  datatype Counts = Counts(emails: int, inboxes: int, bytes: int)

  const ZERO := Counts(0, 0, 0)

  function Plus(a: Counts, b: Counts): Counts {
    Counts(a.emails + b.emails, a.inboxes + b.inboxes, a.bytes + b.bytes)
  }

  /** The counter tables: totals and daily rows of organizations and teams, and an organization's mails by hour, by
      receiving domain and by sender domain. */
  datatype Kind = OrgTotal | OrgDay | OrgHour | OrgDomain | OrgSender | TeamTotal | TeamDay

  datatype Bucket = Always | Day(day: int) | Hour(day: int, hour: int) | Name(day: int, name: string)

  /** A row: its table, the organization or team it belongs to, and the rest of its primary key. */
  datatype Key = Key(kind: Kind, owner: nat, bucket: Bucket)

  type Tables = map<Key, Counts>

  function At(t: Tables, k: Key): Counts {
    if k in t then t[k] else ZERO
  }

  /** INSERT … ON CONFLICT DO UPDATE that adds. */
  function Upsert(t: Tables, k: Key, d: Counts): Tables {
    t[k := Plus(At(t, k), d)]
  }

  // ---- Events ----

  /** What reaches the bridge and the inbox service. A missing organization or team is None; the day is the database's
      own. */
  datatype Event =
    | Received(org: Option<nat>, team: Option<nat>, size: int, hour: int, domain: string, sender: string, day: int)
    | InboxCreated(owner: nat, ownerTeam: nat, day: int)
    | Other(day: int)  // any other message type, such as an expiry notice

  datatype Posting = Posting(key: Key, delta: Counts)

  const ONE := Counts(1, 0, 0)

  /** The hourly table refuses other hours, and negative ones are not even tried. */
  predicate HourOk(hour: int) {
    0 <= hour <= 23
  }

  function PostIf(on: bool, key: Key, delta: Counts): seq<Posting> {
    if on then [Posting(key, delta)] else []
  }

  function TeamPostings(team: Option<nat>, day: int, c: Counts): seq<Posting> {
    if team.None? then []
    else [Posting(Key(TeamTotal, team.value, Always), c), Posting(Key(TeamDay, team.value, Day(day)), c)]
  }

  /** The additions an event makes, in order. */
  function Postings(e: Event): seq<Posting> {
    match e
    case Received(Some(org), team, size, hour, domain, sender, day) =>
      var c := Counts(1, 0, size);
      [Posting(Key(OrgTotal, org, Always), c), Posting(Key(OrgDay, org, Day(day)), c)]
      + PostIf(HourOk(hour), Key(OrgHour, org, Hour(day, hour)), ONE)
      + PostIf(domain != "", Key(OrgDomain, org, Name(day, domain)), ONE)
      + PostIf(sender != "", Key(OrgSender, org, Name(day, sender)), ONE)
      + TeamPostings(team, day, c)
    case InboxCreated(org, team, day) =>
      var c := Counts(0, 1, 0);
      [Posting(Key(OrgTotal, org, Always), c), Posting(Key(OrgDay, org, Day(day)), c)]
      + TeamPostings(Some(team), day, c)
    case _ => []
  }

  function Post(t: Tables, ps: seq<Posting>): Tables
    decreases |ps|
  {
    if ps == [] then t else Post(Upsert(t, ps[0].key, ps[0].delta), ps[1..])
  }

  function Run(t: Tables, es: seq<Event>): Tables
    decreases |es|
  {
    if es == [] then t else Run(Post(t, Postings(es[0])), es[1..])
  }

  // ---- Sums of rows ----

  datatype Column = Emails | Inboxes | Bytes

  /** A question to the books: one column of one table, for one organization or team. */
  datatype Query = Query(kind: Kind, owner: nat, column: Column)

  function Get(c: Counts, column: Column): int {
    match column
    case Emails => c.emails
    case Inboxes => c.inboxes
    case Bytes => c.bytes
  }

  function Share(k: Key, c: Counts, q: Query): int {
    if k.kind == q.kind && k.owner == q.owner then Get(c, q.column) else 0
  }

  ghost function Pick(keys: set<Key>): (k: Key)
    requires keys != {}
    ensures k in keys
  {
    var k :| k in keys; k
  }

  ghost function SumOver(t: Tables, keys: set<Key>, q: Query): int {
    if keys == {} then 0
    else
      var k := Pick(keys);
      Share(k, At(t, k), q) + SumOver(t, keys - {k}, q)
  }

  /** The sum of the rows a query is about. */
  ghost function Sum(t: Tables, q: Query): int {
    SumOver(t, t.Keys, q)
  }

  lemma {:induction false} SumOut(t: Tables, keys: set<Key>, k: Key, q: Query)
    requires k in keys
    ensures SumOver(t, keys, q) == Share(k, At(t, k), q) + SumOver(t, keys - {k}, q)
  {
    var j := Pick(keys);
    if j != k {
      SumOut(t, keys - {j}, k, q);
      SumOut(t, keys - {k}, j, q);
      assert keys - {j} - {k} == keys - {k} - {j};
    }
  }

  lemma {:induction false} SumFrame(t: Tables, u: Tables, keys: set<Key>, q: Query)
    requires forall k <- keys :: At(t, k) == At(u, k)
    ensures SumOver(t, keys, q) == SumOver(u, keys, q)
  {
    if keys == {} {
    } else {
      SumFrame(t, u, keys - {Pick(keys)}, q);
    }
  }

  lemma UpsertAdds(t: Tables, k: Key, d: Counts, q: Query)
    ensures Sum(Upsert(t, k, d), q) == Sum(t, q) + Share(k, d, q)
  {
    var u := Upsert(t, k, d);
    var others := t.Keys - {k};
    SumOut(u, u.Keys, k, q);
    assert u.Keys - {k} == others;
    SumFrame(t, u, others, q);
    if k in t {
      SumOut(t, t.Keys, k, q);
    } else {
      assert others == t.Keys;
    }
  }

  /** What a list of postings adds. */
  function Amount(ps: seq<Posting>, q: Query): int {
    if ps == [] then 0 else Share(ps[0].key, ps[0].delta, q) + Amount(ps[1..], q)
  }

  lemma {:induction false} PostAdds(t: Tables, ps: seq<Posting>, q: Query)
    ensures Sum(Post(t, ps), q) == Sum(t, q) + Amount(ps, q)
    decreases |ps|
  {
    if ps == [] {
    } else {
      UpsertAdds(t, ps[0].key, ps[0].delta, q);
      PostAdds(Upsert(t, ps[0].key, ps[0].delta), ps[1..], q);
    }
  }

  // ---- What the events amount to ----

  function If(on: bool, n: int): int {
    if on then n else 0
  }

  /** What one event is worth to a query, said without any rows. */
  function Worth(e: Event, q: Query): int {
    match e
    case Received(Some(org), team, size, hour, domain, sender, _) =>
      var all := match q.column { case Emails => 1 case Inboxes => 0 case Bytes => size };
      var mail := if q.column == Emails then 1 else 0;
      (match q.kind
       case OrgTotal => If(org == q.owner, all)
       case OrgDay => If(org == q.owner, all)
       case OrgHour => If(org == q.owner && HourOk(hour), mail)
       case OrgDomain => If(org == q.owner && domain != "", mail)
       case OrgSender => If(org == q.owner && sender != "", mail)
       case TeamTotal => If(team == Some(q.owner), all)
       case TeamDay => If(team == Some(q.owner), all))
    case InboxCreated(org, team, _) =>
      var inbox := if q.column == Inboxes then 1 else 0;
      (match q.kind
       case OrgTotal => If(org == q.owner, inbox)
       case OrgDay => If(org == q.owner, inbox)
       case TeamTotal => If(team == q.owner, inbox)
       case TeamDay => If(team == q.owner, inbox)
       case _ => 0)
    case _ => 0
  }

  lemma {:induction false} AmountAppend(a: seq<Posting>, b: seq<Posting>, q: Query)
    ensures Amount(a + b, q) == Amount(a, q) + Amount(b, q)
    decreases |a|
  {
    if a == [] {
      assert a + b == b;
    } else {
      AmountAppend(a[1..], b, q);
      assert (a + b)[1..] == a[1..] + b;
    }
  }

  lemma AmountTwo(j: Key, k: Key, d: Counts, q: Query)
    ensures Amount([Posting(j, d), Posting(k, d)], q) == Share(j, d, q) + Share(k, d, q)
  {
    var ps := [Posting(j, d), Posting(k, d)];
    assert ps[1..] == [Posting(k, d)] && [Posting(k, d)][1..] == [];
    assert Amount([Posting(k, d)], q) == Share(k, d, q);
  }

  lemma AmountIf(on: bool, k: Key, d: Counts, q: Query)
    ensures Amount(PostIf(on, k, d), q) == If(on, Share(k, d, q))
  {
    assert on ==> PostIf(on, k, d)[1..] == [];
  }

  lemma AmountTeam(team: Option<nat>, day: int, c: Counts, q: Query)
    ensures Amount(TeamPostings(team, day, c), q)
         == If((q.kind == TeamTotal || q.kind == TeamDay) && team == Some(q.owner), Get(c, q.column))
  {
    if team.Some? {
      AmountTwo(Key(TeamTotal, team.value, Always), Key(TeamDay, team.value, Day(day)), c, q);
    }
  }

  lemma ReceivedWorth(e: Event, q: Query)
    requires e.Received? && e.org.Some?
    ensures Amount(Postings(e), q) == Worth(e, q)
  {
    var org, c := e.org.value, Counts(1, 0, e.size);
    var total, day := Key(OrgTotal, org, Always), Key(OrgDay, org, Day(e.day));
    var both := [Posting(total, c), Posting(day, c)];
    var hours := PostIf(HourOk(e.hour), Key(OrgHour, org, Hour(e.day, e.hour)), ONE);
    var domains := PostIf(e.domain != "", Key(OrgDomain, org, Name(e.day, e.domain)), ONE);
    var senders := PostIf(e.sender != "", Key(OrgSender, org, Name(e.day, e.sender)), ONE);
    AmountAppend(both, hours, q);
    AmountAppend(both + hours, domains, q);
    AmountAppend(both + hours + domains, senders, q);
    AmountAppend(both + hours + domains + senders, TeamPostings(e.team, e.day, c), q);
    AmountTwo(total, day, c, q);
    AmountIf(HourOk(e.hour), Key(OrgHour, org, Hour(e.day, e.hour)), ONE, q);
    AmountIf(e.domain != "", Key(OrgDomain, org, Name(e.day, e.domain)), ONE, q);
    AmountIf(e.sender != "", Key(OrgSender, org, Name(e.day, e.sender)), ONE, q);
    AmountTeam(e.team, e.day, c, q);
  }

  lemma CreatedWorth(org: nat, team: nat, day: int, q: Query)
    ensures Amount(Postings(InboxCreated(org, team, day)), q) == Worth(InboxCreated(org, team, day), q)
  {
    var c := Counts(0, 1, 0);
    var total, daily := Key(OrgTotal, org, Always), Key(OrgDay, org, Day(day));
    AmountAppend([Posting(total, c), Posting(daily, c)], TeamPostings(Some(team), day, c), q);
    AmountTwo(total, daily, c, q);
    AmountTeam(Some(team), day, c, q);
  }

  lemma PostingsWorth(e: Event, q: Query)
    ensures Amount(Postings(e), q) == Worth(e, q)
  {
    match e
    case Received(Some(org), _, _, _, _, _, _) => ReceivedWorth(e, q);
    case InboxCreated(org, team, day) => CreatedWorth(org, team, day, q);
    case _ =>
  }

  function Worths(es: seq<Event>, q: Query): int {
    if es == [] then 0 else Worth(es[0], q) + Worths(es[1..], q)
  }

  /** Whatever rows a table spreads an owner's counts over, they add up to what the events were worth. */
  lemma {:induction false} RowsAddUp(t: Tables, es: seq<Event>, q: Query)
    ensures Sum(Run(t, es), q) == Sum(t, q) + Worths(es, q)
    decreases |es|
  {
    if es == [] {
    } else {
      PostAdds(t, Postings(es[0]), q);
      PostingsWorth(es[0], q);
      RowsAddUp(Post(t, Postings(es[0])), es[1..], q);
    }
  }

  // ---- The laws ----

  /** Received mails of an organization that the hourly table, or a table of names, leaves out. */
  function LeftOut(es: seq<Event>, kind: Kind, org: nat): nat {
    if es == [] then 0
    else
      var e := es[0];
      (if e.Received? && e.org == Some(org)
          && ((kind == OrgHour && !HourOk(e.hour)) || (kind == OrgDomain && e.domain == "")
              || (kind == OrgSender && e.sender == "")) then 1 else 0)
      + LeftOut(es[1..], kind, org)
  }

  lemma {:induction false} SameWorth(es: seq<Event>, owner: nat, column: Column)
    ensures Worths(es, Query(OrgTotal, owner, column)) == Worths(es, Query(OrgDay, owner, column))
    ensures Worths(es, Query(TeamTotal, owner, column)) == Worths(es, Query(TeamDay, owner, column))
  {
    if es == [] {
    } else {
      SameWorth(es[1..], owner, column);
    }
  }

  lemma {:induction false} PartialWorth(es: seq<Event>, kind: Kind, org: nat)
    requires kind == OrgHour || kind == OrgDomain || kind == OrgSender
    ensures Worths(es, Query(OrgTotal, org, Emails)) == Worths(es, Query(kind, org, Emails)) + LeftOut(es, kind, org)
  {
    if es == [] {
    } else {
      PartialWorth(es[1..], kind, org);
    }
  }

  /** An all-time row is the only row of its owner. */
  lemma TotalIsSum(t: Tables, owner: nat, kind: Kind, column: Column)
    requires kind == OrgTotal || kind == TeamTotal
    requires forall k <- t :: k.kind == kind ==> k.bucket == Always
    ensures Sum(t, Query(kind, owner, column)) == Get(At(t, Key(kind, owner, Always)), column)
  {
    var k := Key(kind, owner, Always);
    var q := Query(kind, owner, column);
    if k in t {
      SumOut(t, t.Keys, k, q);
      NothingElse(t, t.Keys - {k}, q);
    } else {
      NothingElse(t, t.Keys, q);
    }
  }

  lemma {:induction false} NothingElse(t: Tables, keys: set<Key>, q: Query)
    requires forall k <- keys :: !(k.kind == q.kind && k.owner == q.owner)
    ensures SumOver(t, keys, q) == 0
  {
    if keys == {} {
    } else {
      NothingElse(t, keys - {Pick(keys)}, q);
    }
  }

  predicate TotalsAreTotals(t: Tables) {
    forall k <- t :: k.kind == OrgTotal || k.kind == TeamTotal ==> k.bucket == Always
  }

  lemma {:induction false} PostKeepsTotals(t: Tables, ps: seq<Posting>)
    requires TotalsAreTotals(t)
    requires forall p <- ps :: p.key.kind == OrgTotal || p.key.kind == TeamTotal ==> p.key.bucket == Always
    ensures TotalsAreTotals(Post(t, ps))
    decreases |ps|
  {
    if ps == [] {
    } else {
      assert ps[0] in ps;
      PostKeepsTotals(Upsert(t, ps[0].key, ps[0].delta), ps[1..]);
    }
  }

  lemma {:induction false} RunKeepsTotals(t: Tables, es: seq<Event>)
    requires TotalsAreTotals(t)
    ensures TotalsAreTotals(Run(t, es))
    decreases |es|
  {
    if es == [] {
    } else {
      PostKeepsTotals(t, Postings(es[0]));
      RunKeepsTotals(Post(t, Postings(es[0])), es[1..]);
    }
  }

  /** Roll-up conservation, after any events in any order: an organization's all-time emails, inboxes and bytes are the
      sums of its daily rows, and so are a team's. */
  lemma DailyRowsAddUp(es: seq<Event>, owner: nat, column: Column)
    ensures var t := Run(map[], es);
            && Get(At(t, Key(OrgTotal, owner, Always)), column) == Sum(t, Query(OrgDay, owner, column))
            && Get(At(t, Key(TeamTotal, owner, Always)), column) == Sum(t, Query(TeamDay, owner, column))
  {
    var t := Run(map[], es);
    RunKeepsTotals(map[], es);
    TotalIsSum(t, owner, OrgTotal, column);
    TotalIsSum(t, owner, TeamTotal, column);
    RowsAddUp(map[], es, Query(OrgTotal, owner, column));
    RowsAddUp(map[], es, Query(OrgDay, owner, column));
    RowsAddUp(map[], es, Query(TeamTotal, owner, column));
    RowsAddUp(map[], es, Query(TeamDay, owner, column));
    SameWorth(es, owner, column);
  }

  /** The hourly rows, and the rows by domain name, add up to the organization's all-time emails less exactly the mails
      that came without a valid hour or without the name. */
  lemma PartialRowsAddUp(es: seq<Event>, kind: Kind, org: nat)
    requires kind == OrgHour || kind == OrgDomain || kind == OrgSender
    ensures var t := Run(map[], es);
            At(t, Key(OrgTotal, org, Always)).emails == Sum(t, Query(kind, org, Emails)) + LeftOut(es, kind, org)
  {
    RunKeepsTotals(map[], es);
    TotalIsSum(Run(map[], es), org, OrgTotal, Emails);
    RowsAddUp(map[], es, Query(OrgTotal, org, Emails));
    RowsAddUp(map[], es, Query(kind, org, Emails));
    PartialWorth(es, kind, org);
  }

  // ---- The repository object ----

  class CounterRepo {
    var tables: Tables

    constructor ()
      ensures tables == map[]
    {
      tables := map[];
    }

    method Add(k: Key, d: Counts)
      modifies this
      ensures tables == Upsert(old(tables), k, d)
    {
      var row := if k in tables then tables[k] else ZERO;
      tables := tables[k := Counts(row.emails + d.emails, row.inboxes + d.inboxes, row.bytes + d.bytes)];
    }

    method IncrementTeam(team: nat, day: int, c: Counts)
      modifies this
      ensures tables == Post(old(tables), TeamPostings(Some(team), day, c))
    {
      PostTwo(tables, Key(TeamTotal, team, Always), Key(TeamDay, team, Day(day)), c);
      Add(Key(TeamTotal, team, Always), c);
      Add(Key(TeamDay, team, Day(day)), c);
    }

    /** The counter branch of the bridge, for one message. */
    method HandleEvent(e: Event)
      requires !e.InboxCreated?
      modifies this
      ensures tables == Post(old(tables), Postings(e))
    {
      if e.Received? && e.org.Some? {
        var org, c := e.org.value, Counts(1, 0, e.size);
        ghost var both := [Posting(Key(OrgTotal, org, Always), c), Posting(Key(OrgDay, org, Day(e.day)), c)];
        PostTwo(tables, both[0].key, both[1].key, c);
        Add(Key(OrgTotal, org, Always), c);
        Add(Key(OrgDay, org, Day(e.day)), c);
        ghost var done := both;
        assert tables == Post(old(tables), done);
        if HourOk(e.hour) {
          Add(Key(OrgHour, org, Hour(e.day, e.hour)), ONE);
        }
        done := Extend(old(tables), done, HourOk(e.hour), Key(OrgHour, org, Hour(e.day, e.hour)), ONE);
        if e.domain != "" {
          Add(Key(OrgDomain, org, Name(e.day, e.domain)), ONE);
        }
        done := Extend(old(tables), done, e.domain != "", Key(OrgDomain, org, Name(e.day, e.domain)), ONE);
        if e.sender != "" {
          Add(Key(OrgSender, org, Name(e.day, e.sender)), ONE);
        }
        done := Extend(old(tables), done, e.sender != "", Key(OrgSender, org, Name(e.day, e.sender)), ONE);
        PostAppend(old(tables), done, TeamPostings(e.team, e.day, c));
        if e.team.Some? {
          IncrementTeam(e.team.value, e.day, c);
        }
      }
    }

    /** The counters of a new inbox. */
    method CountInbox(org: nat, team: nat, day: int)
      modifies this
      ensures tables == Post(old(tables), Postings(InboxCreated(org, team, day)))
    {
      var c := Counts(0, 1, 0);
      ghost var both := [Posting(Key(OrgTotal, org, Always), c), Posting(Key(OrgDay, org, Day(day)), c)];
      PostTwo(tables, both[0].key, both[1].key, c);
      PostAppend(tables, both, TeamPostings(Some(team), day, c));
      Add(Key(OrgTotal, org, Always), c);
      Add(Key(OrgDay, org, Day(day)), c);
      IncrementTeam(team, day, c);
    }
  }

  lemma PostOne(t: Tables, k: Key, c: Counts)
    ensures Post(t, [Posting(k, c)]) == Upsert(t, k, c)
  {
    assert [Posting(k, c)][1..] == [];
  }

  lemma PostTwo(t: Tables, j: Key, k: Key, c: Counts)
    ensures Post(t, [Posting(j, c), Posting(k, c)]) == Upsert(Upsert(t, j, c), k, c)
  {
    assert [Posting(j, c), Posting(k, c)][1..] == [Posting(k, c)];
    PostOne(Upsert(t, j, c), k, c);
  }

  lemma {:induction false} PostAppend(t: Tables, a: seq<Posting>, b: seq<Posting>)
    ensures Post(t, a + b) == Post(Post(t, a), b)
    decreases |a|
  {
    if a == [] {
      assert a + b == b;
    } else {
      PostAppend(Upsert(t, a[0].key, a[0].delta), a[1..], b);
      assert (a + b)[1..] == a[1..] + b;
    }
  }

  lemma Extend(t: Tables, done: seq<Posting>, on: bool, k: Key, d: Counts) returns (more: seq<Posting>)
    ensures more == done + PostIf(on, k, d)
    ensures Post(t, more) == if on then Upsert(Post(t, done), k, d) else Post(t, done)
  {
    more := done + PostIf(on, k, d);
    PostAppend(t, done, PostIf(on, k, d));
    PostOne(Post(t, done), k, d);
  }
}
