/** What every single row of the counter tables holds, said of the events' own fields. */
module RollupRows {
  import opened Common
  import opened Rollup

  /** A mail that belongs in the row: of its organization or team, of its day, hour, receiving domain or sender domain. */
  predicate MailIn(e: Event, k: Key) {
    && e.Received? && e.org.Some?
    && match k.kind
       case OrgTotal => k == Key(OrgTotal, e.org.value, Always)
       case OrgDay => k == Key(OrgDay, e.org.value, Day(e.day))
       case OrgHour => k == Key(OrgHour, e.org.value, Hour(e.day, e.hour)) && 0 <= e.hour <= 23
       case OrgDomain => k == Key(OrgDomain, e.org.value, Name(e.day, e.domain)) && e.domain != ""
       case OrgSender => k == Key(OrgSender, e.org.value, Name(e.day, e.sender)) && e.sender != ""
       case TeamTotal => e.team.Some? && k == Key(TeamTotal, e.team.value, Always)
       case TeamDay => e.team.Some? && k == Key(TeamDay, e.team.value, Day(e.day))
  }

  /** A new inbox that belongs in the row: all-time and daily rows of its organization and team. */
  predicate InboxIn(e: Event, k: Key) {
    && e.InboxCreated?
    && (|| k == Key(OrgTotal, e.owner, Always) || k == Key(OrgDay, e.owner, Day(e.day))
        || k == Key(TeamTotal, e.ownerTeam, Always) || k == Key(TeamDay, e.ownerTeam, Day(e.day)))
  }

  /** Sizes are kept in the all-time and daily rows only. */
  predicate HasBytes(k: Key) {
    k.kind == OrgTotal || k.kind == OrgDay || k.kind == TeamTotal || k.kind == TeamDay
  }

  /** What one event puts into a column of the row: a mail counts one and its bytes, a new inbox one. */
  function Part(e: Event, k: Key, column: Column): int {
    match column
    case Emails => if MailIn(e, k) then 1 else 0
    case Inboxes => if InboxIn(e, k) then 1 else 0
    case Bytes => if HasBytes(k) && MailIn(e, k) then e.size else 0
  }

  function Parts(es: seq<Event>, k: Key, column: Column): int {
    if es == [] then 0 else Part(es[0], k, column) + Parts(es[1..], k, column)
  }

  predicate Belongs(es: seq<Event>, k: Key) {
    exists i :: 0 <= i < |es| && (MailIn(es[i], k) || InboxIn(es[i], k))
  }

  // ---- One row ----

  /** What one addition, and what a list of them, puts into a column of one row. */
  function Hit(on: bool, c: Counts, column: Column): int {
    if on then Get(c, column) else 0
  }

  function Added(ps: seq<Posting>, k: Key, column: Column): int {
    if ps == [] then 0 else Hit(ps[0].key == k, ps[0].delta, column) + Added(ps[1..], k, column)
  }

  predicate Mentions(ps: seq<Posting>, k: Key) {
    exists i :: 0 <= i < |ps| && ps[i].key == k
  }

  lemma UpsertAt(t: Tables, j: Key, d: Counts, k: Key, column: Column)
    ensures Get(At(Upsert(t, j, d), k), column) == Get(At(t, k), column) + Hit(j == k, d, column)
    ensures k in Upsert(t, j, d) <==> k in t || j == k
  {
  }

  lemma {:induction false} PostAt(t: Tables, ps: seq<Posting>, k: Key, column: Column)
    ensures Get(At(Post(t, ps), k), column) == Get(At(t, k), column) + Added(ps, k, column)
    ensures k in Post(t, ps) <==> k in t || Mentions(ps, k)
    decreases |ps|
  {
    if ps == [] {
    } else {
      UpsertAt(t, ps[0].key, ps[0].delta, k, column);
      PostAt(Upsert(t, ps[0].key, ps[0].delta), ps[1..], k, column);
      MentionsAppend([ps[0]], ps[1..], k);
      MentionsOne(ps[0], k);
      assert [ps[0]] + ps[1..] == ps;
    }
  }

  lemma MentionsOne(p: Posting, k: Key)
    ensures Mentions([p], k) <==> p.key == k
  {
    assert [p][0] == p;
  }

  lemma MentionsAppend(a: seq<Posting>, b: seq<Posting>, k: Key)
    ensures Mentions(a + b, k) <==> Mentions(a, k) || Mentions(b, k)
  {
    if Mentions(a, k) {
      var i :| 0 <= i < |a| && a[i].key == k;
      assert (a + b)[i].key == k;
    }
    if Mentions(b, k) {
      var i :| 0 <= i < |b| && b[i].key == k;
      assert (a + b)[|a| + i].key == k;
    }
  }

  lemma {:induction false} AddedAppend(a: seq<Posting>, b: seq<Posting>, k: Key, column: Column)
    ensures Added(a + b, k, column) == Added(a, k, column) + Added(b, k, column)
    ensures Mentions(a + b, k) <==> Mentions(a, k) || Mentions(b, k)
    decreases |a|
  {
    MentionsAppend(a, b, k);
    if a == [] {
      assert a + b == b;
    } else {
      AddedAppend(a[1..], b, k, column);
      assert (a + b)[1..] == a[1..] + b;
    }
  }

  lemma AddedTwo(p: Posting, q: Posting, k: Key, column: Column)
    ensures Added([p, q], k, column) == Hit(p.key == k, p.delta, column) + Hit(q.key == k, q.delta, column)
    ensures Mentions([p, q], k) <==> p.key == k || q.key == k
  {
    var ps := [p, q];
    assert ps[1..] == [q] && [q][1..] == [] && ps[0] == p && ps[1] == q;
    assert Added([q], k, column) == Hit(q.key == k, q.delta, column);
  }

  lemma AddedIf(on: bool, key: Key, delta: Counts, k: Key, column: Column)
    ensures Added(PostIf(on, key, delta), k, column) == Hit(on && key == k, delta, column)
    ensures Mentions(PostIf(on, key, delta), k) <==> on && key == k
  {
    if on {
      MentionsOne(Posting(key, delta), k);
      assert [Posting(key, delta)][1..] == [];
    }
  }

  predicate TeamHit(team: Option<nat>, day: int, k: Key) {
    team.Some? && (k == Key(TeamTotal, team.value, Always) || k == Key(TeamDay, team.value, Day(day)))
  }

  lemma AddedTeam(team: Option<nat>, day: int, c: Counts, k: Key, column: Column)
    ensures Added(TeamPostings(team, day, c), k, column) == Hit(TeamHit(team, day, k), c, column)
    ensures Mentions(TeamPostings(team, day, c), k) <==> TeamHit(team, day, k)
  {
    if team.Some? {
      AddedTwo(Posting(Key(TeamTotal, team.value, Always), c), Posting(Key(TeamDay, team.value, Day(day)), c), k, column);
    }
  }

  // ---- One event ----

  predicate TotalHit(e: Event, k: Key)
    requires e.Received? && e.org.Some?
  {
    k == Key(OrgTotal, e.org.value, Always) || k == Key(OrgDay, e.org.value, Day(e.day))
  }

  predicate HourHit(e: Event, k: Key)
    requires e.Received? && e.org.Some?
  {
    HourOk(e.hour) && Key(OrgHour, e.org.value, Hour(e.day, e.hour)) == k
  }

  predicate DomainHit(e: Event, k: Key)
    requires e.Received? && e.org.Some?
  {
    e.domain != "" && Key(OrgDomain, e.org.value, Name(e.day, e.domain)) == k
  }

  predicate SenderHit(e: Event, k: Key)
    requires e.Received? && e.org.Some?
  {
    e.sender != "" && Key(OrgSender, e.org.value, Name(e.day, e.sender)) == k
  }

  /** The five groups of additions a mail makes. */
  lemma MailGroups(e: Event, k: Key, column: Column)
    returns (totals: seq<Posting>, hours: seq<Posting>, domains: seq<Posting>, senders: seq<Posting>, teams: seq<Posting>)
    requires e.Received? && e.org.Some?
    ensures Postings(e) == totals + hours + domains + senders + teams
    ensures var c := Counts(1, 0, e.size);
            && Added(totals, k, column) == Hit(TotalHit(e, k), c, column) && (Mentions(totals, k) <==> TotalHit(e, k))
            && Added(hours, k, column) == Hit(HourHit(e, k), ONE, column) && (Mentions(hours, k) <==> HourHit(e, k))
            && Added(domains, k, column) == Hit(DomainHit(e, k), ONE, column) && (Mentions(domains, k) <==> DomainHit(e, k))
            && Added(senders, k, column) == Hit(SenderHit(e, k), ONE, column) && (Mentions(senders, k) <==> SenderHit(e, k))
            && Added(teams, k, column) == Hit(TeamHit(e.team, e.day, k), c, column)
            && (Mentions(teams, k) <==> TeamHit(e.team, e.day, k))
  {
    var org, c := e.org.value, Counts(1, 0, e.size);
    var p, q := Posting(Key(OrgTotal, org, Always), c), Posting(Key(OrgDay, org, Day(e.day)), c);
    totals := [p, q];
    hours := PostIf(HourOk(e.hour), Key(OrgHour, org, Hour(e.day, e.hour)), ONE);
    domains := PostIf(e.domain != "", Key(OrgDomain, org, Name(e.day, e.domain)), ONE);
    senders := PostIf(e.sender != "", Key(OrgSender, org, Name(e.day, e.sender)), ONE);
    teams := TeamPostings(e.team, e.day, c);
    AddedTwo(p, q, k, column);
    AddedIf(HourOk(e.hour), Key(OrgHour, org, Hour(e.day, e.hour)), ONE, k, column);
    AddedIf(e.domain != "", Key(OrgDomain, org, Name(e.day, e.domain)), ONE, k, column);
    AddedIf(e.sender != "", Key(OrgSender, org, Name(e.day, e.sender)), ONE, k, column);
    AddedTeam(e.team, e.day, c, k, column);
  }

  lemma AddedFive(a: seq<Posting>, b: seq<Posting>, c: seq<Posting>, d: seq<Posting>, e: seq<Posting>, k: Key, column: Column)
    ensures Added(a + b + c + d + e, k, column)
         == Added(a, k, column) + Added(b, k, column) + Added(c, k, column) + Added(d, k, column) + Added(e, k, column)
    ensures Mentions(a + b + c + d + e, k) <==>
              Mentions(a, k) || Mentions(b, k) || Mentions(c, k) || Mentions(d, k) || Mentions(e, k)
  {
    AddedAppend(a, b, k, column);
    AddedAppend(a + b, c, k, column);
    AddedAppend(a + b + c, d, k, column);
    AddedAppend(a + b + c + d, e, k, column);
  }

  lemma MailPart(e: Event, k: Key, column: Column)
    requires e.Received? && e.org.Some?
    ensures var c := Counts(1, 0, e.size);
            Part(e, k, column) == Hit(TotalHit(e, k), c, column) + Hit(HourHit(e, k), ONE, column)
                                  + Hit(DomainHit(e, k), ONE, column) + Hit(SenderHit(e, k), ONE, column)
                                  + Hit(TeamHit(e.team, e.day, k), c, column)
    ensures MailIn(e, k) <==>
              TotalHit(e, k) || HourHit(e, k) || DomainHit(e, k) || SenderHit(e, k) || TeamHit(e.team, e.day, k)
  {
  }

  lemma ReceivedAt(e: Event, k: Key, column: Column)
    requires e.Received? && e.org.Some?
    ensures Added(Postings(e), k, column) == Part(e, k, column) && (Mentions(Postings(e), k) <==> MailIn(e, k))
  {
    var totals, hours, domains, senders, teams := MailGroups(e, k, column);
    AddedFive(totals, hours, domains, senders, teams, k, column);
    MailPart(e, k, column);
  }

  lemma CreatedAt(e: Event, k: Key, column: Column)
    requires e.InboxCreated?
    ensures Added(Postings(e), k, column) == Part(e, k, column) && (Mentions(Postings(e), k) <==> InboxIn(e, k))
  {
    var c := Counts(0, 1, 0);
    var p, q := Posting(Key(OrgTotal, e.owner, Always), c), Posting(Key(OrgDay, e.owner, Day(e.day)), c);
    AddedTwo(p, q, k, column);
    AddedAppend([p, q], TeamPostings(Some(e.ownerTeam), e.day, c), k, column);
    AddedTeam(Some(e.ownerTeam), e.day, c, k, column);
  }

  /** An event adds to exactly the rows it belongs in, and makes them if they are not there. */
  lemma EventAt(t: Tables, e: Event, k: Key, column: Column)
    ensures var u := Post(t, Postings(e));
            && Get(At(u, k), column) == Get(At(t, k), column) + Part(e, k, column)
            && (k in u <==> k in t || MailIn(e, k) || InboxIn(e, k))
  {
    PostAt(t, Postings(e), k, column);
    match e
    case Received(Some(_), _, _, _, _, _, _) => ReceivedAt(e, k, column);
    case InboxCreated(_, _, _) => CreatedAt(e, k, column);
    case _ =>
  }

  // ---- All events ----

  lemma BelongsFirst(es: seq<Event>, k: Key)
    requires es != []
    ensures Belongs(es, k) <==> MailIn(es[0], k) || InboxIn(es[0], k) || Belongs(es[1..], k)
  {
    if Belongs(es, k) {
      var i :| 0 <= i < |es| && (MailIn(es[i], k) || InboxIn(es[i], k));
      if i > 0 { assert es[1..][i - 1] == es[i]; }
    }
    if Belongs(es[1..], k) {
      var i :| 0 <= i < |es[1..]| && (MailIn(es[1..][i], k) || InboxIn(es[1..][i], k));
      assert es[i + 1] == es[1..][i];
    }
  }

  /** After any events, every column of every row of every table holds exactly what the events that belong in the row put
      there: the number of mails, the number of new inboxes, and the bytes of the mails where sizes are kept. There is a row
      exactly where something belongs. */
  lemma {:induction false} RowExactly(t: Tables, es: seq<Event>, k: Key, column: Column)
    ensures Get(At(Run(t, es), k), column) == Get(At(t, k), column) + Parts(es, k, column)
    ensures k in Run(t, es) <==> k in t || Belongs(es, k)
    decreases |es|
  {
    if es == [] {
    } else {
      EventAt(t, es[0], k, column);
      BelongsFirst(es, k);
      RowExactly(Post(t, Postings(es[0])), es[1..], k, column);
    }
  }

  /** For instance, one mail: the receiving domain and the sender's have a row each, in their own tables. */
  lemma DomainsApart(org: nat, size: int, hour: int, domain: string, sender: string, day: int)
    requires domain != "" && sender != "" && domain != sender
    ensures var t := Run(map[], [Received(Some(org), None, size, hour, domain, sender, day)]);
            && At(t, Key(OrgDomain, org, Name(day, domain))).emails == 1 && At(t, Key(OrgDomain, org, Name(day, sender))).emails == 0
            && At(t, Key(OrgSender, org, Name(day, sender))).emails == 1 && At(t, Key(OrgSender, org, Name(day, domain))).emails == 0
  {
    var e := Received(Some(org), None, size, hour, domain, sender, day);
    OneMail(e, Key(OrgDomain, org, Name(day, domain)));
    OneMail(e, Key(OrgDomain, org, Name(day, sender)));
    OneMail(e, Key(OrgSender, org, Name(day, sender)));
    OneMail(e, Key(OrgSender, org, Name(day, domain)));
  }

  lemma OneMail(e: Event, k: Key)
    ensures At(Run(map[], [e]), k).emails == if MailIn(e, k) then 1 else 0
  {
    assert [e][1..] == [];
    RowExactly(map[], [e], k, Emails);
  }
}
