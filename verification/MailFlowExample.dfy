/** One mail on its way, from the bytes of a connection to an inbox: the premises of the theorems about the whole platform
    can be met. */
module MailFlowExample {
  import opened Common
  import opened MailFlow
  import opened SmtpClient
  import I = InboxCache
  import M = SmtpSession
  import Q = IngestQueue
  import SmtpCommand
  import SmtpWire
  import T = Text
  import opened InboxSettings

  lemma {:induction false} RunAppend(s: State, a: seq<Op>, b: seq<Op>)
    ensures Run(s, a + b) == Run(Run(s, a), b)
    decreases |a|
  {
    if a == [] {
      assert a + b == b;
    } else {
      RunAppend(Step(s, a[0]), a[1..], b);
      assert (a + b)[1..] == a[1..] + b;
    }
  }

  lemma RunOne(s: State, x: Op)
    ensures Run(s, [x]) == Step(s, x)
  {
    assert [x][1..] == [];
    assert Run(Step(s, x), []) == Step(s, x);
  }

  lemma RunTwo(s: State, x: Op, y: Op)
    ensures Run(s, [x, y]) == Step(Step(s, x), y)
  {
    RunOne(Step(s, x), y);
    assert [x, y][1..] == [y];
  }

  lemma AppendFirst<T>(c: nat, x: T)
    ensures Append(map[], c, x) == map[c := [x]]
  {
    assert [] + [x] == [x];
  }

  // ---- The inbox ----

  function Gate(): I.Gate {
    I.Gate(true, false, true, 1, None)
  }

  function SetUp(alias: string, domain: string, c: Settings): seq<Op> {
    [Inbox(I.AddDomain(domain)), Inbox(I.Create(alias, domain, 0, Gate(), I.Explicit(MINUTE), c, false))]
  }

  function WithInbox(alias: string, domain: string): I.State {
    I.CreateStep(I.EMPTY.(domains := {domain}), alias, domain, 0, MINUTE, false)
  }

  lemma SetsUp(alias: string, domain: string, c: Settings)
    requires I.AliasOk(alias) && ResolveMax(c) >= MINUTE
    ensures Run(Start(1, {0}), SetUp(alias, domain, c)) == Start(1, {0}).(inboxes := WithInbox(alias, domain))
  {
    var s1 := I.EMPTY.(domains := {domain});
    I.NothingLive(s1, domain, 0);
    RunTwo(Start(1, {0}), SetUp(alias, domain, c)[0], SetUp(alias, domain, c)[1]);
  }

  // ---- The router and the queue ----

  function Accepting(to: string, mail: Q.Mail): seq<Op> {
    [Ask(0, to, false), Queue(Q.Check(0, mail)), Queue(Q.Offer(0))]
  }

  function Accepted(inboxes: I.State, to: string, mail: Q.Mail): State {
    State(Q.Start(1, {0}).(queue := [mail], accepted := [mail]), inboxes,
          map[0 := [Answer(to, true, true, false)]], map[0 := [Handed(mail, Some(0))]], [], false, {})
  }

  lemma Accepts(inboxes: I.State, to: string, mail: Q.Mail)
    requires HasLive(inboxes, to) && I.CanAccept(inboxes, to, false)
    ensures Run(Start(1, {0}).(inboxes := inboxes), Accepting(to, mail)) == Accepted(inboxes, to, mail)
  {
    var ops := Accepting(to, mail);
    var s0 := Start(1, {0}).(inboxes := inboxes);
    var s1 := s0.(asked := map[0 := [Answer(to, true, true, false)]]);
    assert Step(s0, ops[0]) == s1 by { AppendFirst(0, Answer(to, true, true, false)); }
    var s2 := s1.(queue := s1.queue.(checked := map[0 := mail]));
    assert Step(s1, ops[1]) == s2;
    assert Step(s2, ops[2]) == Accepted(inboxes, to, mail) by {
      assert s2.queue.checked - {0} == map[];
      AppendFirst(0, Handed(mail, Some(0)));
    }
    assert ops == [ops[0]] + [ops[1], ops[2]];
    RunOne(s0, ops[0]);
    RunAppend(s0, [ops[0]], [ops[1], ops[2]]);
    RunTwo(s1, ops[1], ops[2]);
  }

  // ---- The worker and the shutdown ----

  const WORKING: seq<Op> := [Queue(Q.Take(0)), Work(0, false, false)]
  const CLOSING: seq<Op> := [Queue(Q.Stop), Queue(Q.Close)]
  const LEAVING: seq<Op> := [Queue(Q.Exit(0)), Queue(Q.Return)]

  function Worked(s: State, mail: Q.Mail): State
  {
    s.(queue := s.queue.(queue := [], taken := 1, processed := [Q.Job(0, mail)]),
       results := [Result(I.Stored(0), I.Stored(0), false)])
  }

  lemma Works(inboxes: I.State, to: string, mail: Q.Mail)
    requires mail.to == to && I.ProcessStep(inboxes, to, false, false) == (inboxes, I.Stored(0))
    requires I.Direct(inboxes, to) == I.Stored(0)
    ensures var s := Accepted(inboxes, to, mail); Run(s, WORKING) == Worked(s, mail)
  {
    var s := Accepted(inboxes, to, mail);
    var s1 := s.(queue := s.queue.(queue := [], busy := map[0 := Q.Job(0, mail)], taken := 1));
    assert Step(s, WORKING[0]) == s1;
    assert s1.queue.busy - {0} == map[];
    assert Step(s1, WORKING[1]) == Worked(s, mail);
    RunTwo(s, WORKING[0], WORKING[1]);
  }

  lemma ShutsDown(s: State)
    requires s.queue.phase == Q.Running && s.queue.live == {0} && s.queue.busy == map[] && s.queue.queue == []
    requires !s.queue.panicked
    requires s.cancelled
    ensures Run(Run(s, CLOSING), LEAVING) == s.(queue := s.queue.(phase := Q.Returned, live := {}))
  {
    var q := s.queue;
    Moves(s, Q.Stop, Q.Close, q.(phase := Q.Closed));
    var t := s.(queue := q.(phase := Q.Closed));
    assert q.live - {0} == {};
    Moves(t, Q.Exit(0), Q.Return, q.(phase := Q.Returned, live := {}));
  }

  /** Two moves that only touch the queue. */
  lemma Moves(s: State, x: Q.Op, y: Q.Op, q: Q.State)
    requires s.cancelled && !x.Check? && !x.Offer? && !x.Take? && !x.Finish?
    requires !y.Check? && !y.Offer? && !y.Take? && !y.Finish?
    requires Q.Step(Q.Step(s.queue, x), y) == q
    ensures Run(s, [Queue(x), Queue(y)]) == s.(queue := q)
  {
    RunTwo(s, Queue(x), Queue(y));
  }

  // ---- The conversation ----

  function EnvFor(body: string): M.Env {
    M.Env(M.Parse, (n, to) => true, n => true, false, |body|)
  }

  predicate Deliverable(from: string, to: string, body: string) {
    SmtpCommand.IsAddress(from) && from != "" && SmtpCommand.IsAddress(to) && to != "" && SmtpWire.IsLines(body)
  }

  function Bytes(from: string, to: string, body: string): string {
    Script(Transaction(Message(from, [to], body)))
  }

  function Log(from: string, to: string, body: string): seq<M.Event> {
    [M.Replied(M.Mail(from), 250), M.Replied(M.Rcpt(to), 250), M.Delivered(body, true)]
  }

  lemma AfterThree(from: string, to: string, body: string)
    requires Deliverable(from, to, body)
    ensures var env, items := EnvFor(body), Transaction(Message(from, [to], body));
            && AllReady(env, M.FRESH, items)
            && AfterAll(env, M.FRESH, items) == M.State("", [], 1, [M.Email(from, to, body)], Log(from, to, body))
  {
    var env, m := EnvFor(body), Message(from, [to], body);
    assert RcptItems([to]) == [Say(M.Rcpt(to))] by { assert [to][1..] == []; }
    var rcpt, send := Say(M.Rcpt(to)), Send(body);
    assert Transaction(m) == [Say(M.Mail(from))] + ([rcpt] + [send]);
    AfterFirst(env, M.FRESH, Say(M.Mail(from)), [rcpt] + [send]);
    var s1 := M.MailStep(M.FRESH, from);
    AfterFirst(env, s1, rcpt, [send]);
    var s2 := M.RcptStep(env, s1, to);
    assert s2.rcptTo == [to] && s2.from == from;
    AfterFirst(env, s2, send, []);
    assert [send] + [] == [send];
    assert M.Copies(from, [to], body) == [M.Email(from, to, body)];
    var s3 := M.Deliver(env, s2, body);
    assert s3.log == Log(from, to, body);
  }

  lemma Converses(from: string, to: string, body: string)
    requires Deliverable(from, to, body)
    ensures var env := EnvFor(body);
            M.Serve(env, M.Conn(M.FRESH, M.Input(Bytes(from, to, body), []), true)).state
            == M.State("", [], 1, [M.Email(from, to, body)], Log(from, to, body))
  {
    var env, m := EnvFor(body), Message(from, [to], body);
    AfterThree(from, to, body);
    forall i <- Transaction(m) ensures Legible(env, i) { TransactionLegible(env, m, i); }
    ScriptEnds(env, Transaction(m));
  }

  lemma AskedInLog(from: string, to: string, body: string)
    ensures AskedIn(Log(from, to, body)) == [(to, true)]
  {
    var log := Log(from, to, body);
    assert log[..2][..1] == log[..1] && log[..1][..0] == [];
    assert AskedIn(log[..1]) == [];
    assert AskedIn(log[..2]) == [(to, true)];
  }

  // ---- All of it ----

  function Day(alias: string, domain: string, c: Settings, mail: Q.Mail): seq<Op> {
    SetUp(alias, domain, c) + (Accepting(mail.to, mail) + (WORKING + ENDING))
  }

  lemma InboxAnswers(alias: string, domain: string)
    requires I.AliasOk(alias) && T.Normalize(I.FullAddress(alias, domain)) == I.FullAddress(alias, domain)
    ensures var s, to := WithInbox(alias, domain), I.FullAddress(alias, domain);
            && HasLive(s, to) && I.CanAccept(s, to, false) && I.Direct(s, to) == I.Stored(0)
            && I.ProcessStep(s, to, false, false) == (s, I.Stored(0))
  {
    var s, to := WithInbox(alias, domain), I.FullAddress(alias, domain);
    assert I.LiveAt(s.rows, s.now, to, 0);
    assert I.Lookup(s.rows, s.now, to) == Some(0);
    I.AliasDomain(alias, domain);
  }

  /** For any alias, domain, sender and text: a run in which the bytes of one message are confirmed, and the mail is
      processed and stored in the inbox of its address before the server returns. */
  lemma OneMailArrives(alias: string, domain: string, c: Settings, from: string, body: string)
    requires I.AliasOk(alias) && ResolveMax(c) >= MINUTE
    requires var to := I.FullAddress(alias, domain); T.Normalize(to) == to && Deliverable(from, to, body)
    ensures var to := I.FullAddress(alias, domain);
            var mail := M.Email(from, to, body);
            var s := Run(Start(1, {0}), Day(alias, domain, c, mail));
            var conv := M.Serve(EnvFor(body), M.Conn(M.FRESH, M.Input(Bytes(from, to, body), []), true)).state;
            && Matches(s, 0, EnvFor(body), conv) && conv.log == Log(from, to, body)
            && s.queue.phase == Q.Returned && s.queue.processed == [Q.Job(0, mail)]
            && s.results == [Result(I.Stored(0), I.Stored(0), false)]
  {
    var to := I.FullAddress(alias, domain);
    var mail := M.Email(from, to, body);
    DayEnds(alias, domain, c, mail);
    Converses(from, to, body);
    AskedInLog(from, to, body);
  }

  lemma DayEnds(alias: string, domain: string, c: Settings, mail: Q.Mail)
    requires I.AliasOk(alias) && ResolveMax(c) >= MINUTE && mail.to == I.FullAddress(alias, domain)
    requires T.Normalize(mail.to) == mail.to
    ensures var s := Accepted(WithInbox(alias, domain), mail.to, mail);
            var w := Worked(s, mail).(cancelled := true);
            Run(Start(1, {0}), Day(alias, domain, c, mail)) == w.(queue := w.queue.(phase := Q.Returned, live := {}))
  {
    var inboxes := WithInbox(alias, domain);
    InboxAnswers(alias, domain);
    SetsUp(alias, domain, c);
    Accepts(inboxes, mail.to, mail);
    var s := Accepted(inboxes, mail.to, mail);
    Works(inboxes, mail.to, mail);
    var w := Worked(s, mail);
    Ends(w);
    var rest2 := WORKING + ENDING;
    var rest1 := Accepting(mail.to, mail) + rest2;
    RunAppend(Start(1, {0}), SetUp(alias, domain, c), rest1);
    RunAppend(Start(1, {0}).(inboxes := inboxes), Accepting(mail.to, mail), rest2);
    RunAppend(s, WORKING, ENDING);
  }

  const ENDING: seq<Op> := [Cancel] + (CLOSING + LEAVING)

  lemma Ends(s: State)
    requires s.queue.phase == Q.Running && s.queue.live == {0} && s.queue.busy == map[] && s.queue.queue == []
    requires !s.queue.panicked
    ensures Run(s, ENDING) == s.(queue := s.queue.(phase := Q.Returned, live := {}), cancelled := true)
  {
    var t := s.(cancelled := true);
    RunOne(s, Cancel);
    ShutsDown(t);
    RunAppend(s, [Cancel], CLOSING + LEAVING);
    RunAppend(t, CLOSING, LEAVING);
  }

  // ---- What the shutdown cuts off ----

  /** A recipient with a live inbox, asked about after the shutdown began, is refused. */
  lemma ShutdownRefusesLive(alias: string, domain: string, c: Settings)
    requires I.AliasOk(alias) && ResolveMax(c) >= MINUTE
    requires T.Normalize(I.FullAddress(alias, domain)) == I.FullAddress(alias, domain)
    ensures var to := I.FullAddress(alias, domain);
            var s := Run(Start(1, {0}), SetUp(alias, domain, c) + [Cancel, Ask(0, to, false)]);
            s.asked == map[0 := [Answer(to, false, true, true)]]
  {
    var to := I.FullAddress(alias, domain);
    var s := Start(1, {0}).(inboxes := WithInbox(alias, domain));
    InboxAnswers(alias, domain);
    SetsUp(alias, domain, c);
    RunAppend(Start(1, {0}), SetUp(alias, domain, c), [Cancel, Ask(0, to, false)]);
    AsksLate(s, to);
  }

  lemma AsksLate(s: State, to: string)
    requires s.asked == map[] && HasLive(s.inboxes, to)
    ensures Run(s, [Cancel, Ask(0, to, false)]).asked == map[0 := [Answer(to, false, true, true)]]
  {
    RunTwo(s, Cancel, Ask(0, to, false));
    AppendFirst(0, Answer(to, false, true, true));
  }

  const CUTTING: seq<Op> := [Queue(Q.Take(0)), Cancel] + [Work(0, false, false)]

  lemma CutsWorker(inboxes: I.State, to: string, mail: Q.Mail)
    requires mail.to == to && I.Direct(inboxes, to) == I.Stored(0)
    ensures var s := Run(Accepted(inboxes, to, mail), CUTTING);
            s.queue.processed == [Q.Job(0, mail)] && s.results == [Result(I.Rejected, I.Stored(0), true)]
  {
    var s := Accepted(inboxes, to, mail);
    var s2 := s.(queue := s.queue.(queue := [], busy := map[0 := Q.Job(0, mail)], taken := 1), cancelled := true);
    assert Step(Step(s, Queue(Q.Take(0))), Cancel) == s2;
    RunTwo(s, Queue(Q.Take(0)), Cancel);
    RunOne(s2, Work(0, false, false));
    RunAppend(s, [Queue(Q.Take(0)), Cancel], [Work(0, false, false)]);
  }

  /** An accepted mail that a worker holds when the shutdown begins is turned away from its live inbox. */
  lemma ShutdownCutsWorker(alias: string, domain: string, c: Settings, mail: Q.Mail)
    requires I.AliasOk(alias) && ResolveMax(c) >= MINUTE && mail.to == I.FullAddress(alias, domain)
    requires T.Normalize(mail.to) == mail.to
    ensures var s := Run(Start(1, {0}), SetUp(alias, domain, c) + (Accepting(mail.to, mail) + CUTTING));
            s.queue.processed == [Q.Job(0, mail)] && s.results == [Result(I.Rejected, I.Stored(0), true)]
  {
    var inboxes := WithInbox(alias, domain);
    InboxAnswers(alias, domain);
    SetsUp(alias, domain, c);
    Accepts(inboxes, mail.to, mail);
    CutsWorker(inboxes, mail.to, mail);
    RunAppend(Start(1, {0}), SetUp(alias, domain, c), Accepting(mail.to, mail) + CUTTING);
    RunAppend(Start(1, {0}).(inboxes := inboxes), Accepting(mail.to, mail), CUTTING);
  }
}
