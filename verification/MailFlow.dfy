/** The way of a mail through the whole platform: SMTP conversations, the router, the ingest queue with its workers, and the
    inbox table with its cache, interleaved. A conversation is proved elsewhere for any answers of router and queue; here
    the answers are those the others give. */
module MailFlow {
  import opened Common
  import I = InboxCache
  import M = SmtpSession
  import Q = IngestQueue
  import opened Text

  /** The router's answer to a connection, whether a live inbox had the address at that moment, and whether the question was
      cut off by the shutdown. */
  datatype Answer = Answer(to: string, accepted: bool, live: bool, cut: bool)

  /** A finished Enqueue call of a connection: the mail, and its place in the order of acceptance if it was accepted. */
  datatype Handed = Handed(mail: Q.Mail, ticket: Option<nat>)

  /** What a worker did with a mail, what a plain table lookup would have done at that moment, and whether the worker's
      lookups were cut off by the shutdown. */
  datatype Result = Result(outcome: I.Outcome, direct: I.Outcome, cut: bool)

  /** `asked` and `handed` are histories by connection; `results` goes with the jobs the queue counts as processed. The
      context that connections and workers share is cancelled by the shutdown; `late` holds the workers that took their
      mail after that, and so have a context of their own. */
  datatype State = State(queue: Q.State, inboxes: I.State, asked: map<nat, seq<Answer>>, handed: map<nat, seq<Handed>>,
                         results: seq<Result>, cancelled: bool, late: set<nat>)

  datatype Op =
    | Inbox(op: I.Op)                                  // any step but the processing of a mail
    | Ask(conn: nat, to: string, unread: bool)         // a connection asks the router
    | Queue(move: Q.Op)                                // any step but Finish; calls are named after connections
    | Work(worker: nat, unread: bool, lost: bool)      // a worker processes its mail and finishes
    | Cancel                                           // the shutdown begins; only then can Start raise the stop flag

  function List<T>(m: map<nat, seq<T>>, c: nat): seq<T> {
    if c in m then m[c] else []
  }

  function Append<T>(m: map<nat, seq<T>>, c: nat, x: T): map<nat, seq<T>> {
    m[c := List(m, c) + [x]]
  }

  ghost predicate HasLive(s: I.State, to: string) {
    I.Direct(s, to) != I.Rejected
  }

  function OfferTicket(q: Q.State, c: nat): Option<nat>
    requires c in q.checked
  {
    if |Q.OfferStep(q, c).accepted| > |q.accepted| then Some(|q.accepted|) else None
  }

  function QueueStep(s: State, op: Q.Op): State {
    var t := s.(queue := Q.Step(s.queue, op));
    match op
    case Check(c, mail) =>
      if Q.Enabled(s.queue, op) && s.queue.phase != Q.Running then t.(handed := Append(s.handed, c, Handed(mail, None))) else t
    case Offer(c) =>
      if Q.Enabled(s.queue, op) then
        t.(handed := Append(s.handed, c, Handed(s.queue.checked[c], OfferTicket(s.queue, c))))
      else t
    case Take(w) =>
      if Q.Enabled(s.queue, op) then t.(late := if s.cancelled then s.late + {w} else s.late - {w}) else t
    case Finish(_) => s
    case Stop => if s.cancelled then t else s
    case _ => t
  }

  /** The worker looks up under the cancelled context. */
  predicate CutOff(s: State, w: nat) {
    s.cancelled && w !in s.late
  }

  ghost function WorkStep(s: State, w: nat, unread: bool, lost: bool): State {
    if !Q.Enabled(s.queue, Q.Finish(w)) then s
    else
      var to := s.queue.busy[w].mail.to;
      var (inboxes, outcome) :=
        if CutOff(s, w) then (s.inboxes, I.Rejected) else I.Step(s.inboxes, I.Process(to, unread, lost));
      s.(queue := Q.Step(s.queue, Q.Finish(w)), inboxes := inboxes,
         results := s.results + [Result(outcome, I.Direct(s.inboxes, to), CutOff(s, w))])
  }

  ghost function Step(s: State, op: Op): State {
    match op
    case Inbox(o) => if o.Process? then s else s.(inboxes := I.Step(s.inboxes, o).0)
    case Ask(c, to, unread) =>
      var accepted := !s.cancelled && I.CanAccept(s.inboxes, to, unread);
      s.(asked := Append(s.asked, c, Answer(to, accepted, HasLive(s.inboxes, to), s.cancelled)))
    case Queue(o) => QueueStep(s, o)
    case Work(w, unread, lost) => WorkStep(s, w, unread, lost)
    case Cancel => s.(cancelled := true)
  }

  ghost function Run(s: State, ops: seq<Op>): State
    decreases |ops|
  {
    if ops == [] then s else Run(Step(s, ops[0]), ops[1..])
  }

  function Start(capacity: nat, workers: set<nat>): State {
    State(Q.Start(capacity, workers), I.EMPTY, map[], map[], [], false, {})
  }

  // ---- Invariant ----

  function TicketAt(handed: map<nat, seq<Handed>>, c: nat, k: nat): Option<nat> {
    if c in handed && k < |handed[c]| then handed[c][k].ticket else None
  }

  /** A ticket stands for the mail it was given for. */
  ghost predicate TicketsOk(handed: map<nat, seq<Handed>>, accepted: seq<Q.Mail>) {
    forall c, k: nat :: TicketAt(handed, c, k).Some? ==>
      TicketAt(handed, c, k).value < |accepted| && accepted[TicketAt(handed, c, k).value] == handed[c][k].mail
  }

  /** No ticket is given twice. */
  ghost predicate OneEach(handed: map<nat, seq<Handed>>) {
    forall c, k: nat, d, l: nat ::
      TicketAt(handed, c, k).Some? && TicketAt(handed, c, k) == TicketAt(handed, d, l) ==> c == d && k == l
  }

  /** Of those with a live inbox exactly the ones cut off were refused; whoever was cut off was. */
  predicate AnswerOk(a: Answer, cancelled: bool) {
    (a.live ==> (a.accepted <==> !a.cut)) && (a.cut ==> cancelled && !a.accepted)
  }

  predicate AskedOk(asked: map<nat, seq<Answer>>, cancelled: bool) {
    forall c, k :: c in asked && 0 <= k < |asked[c]| ==> AnswerOk(asked[c][k], cancelled)
  }

  ghost predicate Inv(s: State) {
    && Q.Inv(s.queue) && I.Inv(s.inboxes) && |s.results| == |s.queue.processed|
    && TicketsOk(s.handed, s.queue.accepted) && OneEach(s.handed) && AskedOk(s.asked, s.cancelled)
    && (s.queue.phase != Q.Running ==> s.cancelled)
    && (forall j :: 0 <= j < |s.results| && s.results[j].cut ==> s.cancelled)
  }

  lemma AppendTicket(m: map<nat, seq<Handed>>, c: nat, x: Handed, d: nat, k: nat)
    ensures TicketAt(Append(m, c, x), d, k) == if d == c && k == |List(m, c)| then x.ticket else TicketAt(m, d, k)
  {
  }

  /** One more call, with a ticket no other call has. */
  lemma HandedKeeps(m: map<nat, seq<Handed>>, before: seq<Q.Mail>, c: nat, x: Handed, after: seq<Q.Mail>)
    requires TicketsOk(m, before) && OneEach(m) && before <= after
    requires x.ticket.Some? ==> |before| <= x.ticket.value < |after| && after[x.ticket.value] == x.mail
    ensures TicketsOk(Append(m, c, x), after) && OneEach(Append(m, c, x))
  {
    var m' := Append(m, c, x);
    forall d, k: nat | TicketAt(m', d, k).Some?
      ensures TicketAt(m', d, k).value < |after| && after[TicketAt(m', d, k).value] == m'[d][k].mail
    {
      AppendTicket(m, c, x, d, k);
    }
    forall d, k: nat, e, l: nat | TicketAt(m', d, k).Some? && TicketAt(m', d, k) == TicketAt(m', e, l) ensures d == e && k == l {
      AppendTicket(m, c, x, d, k);
      AppendTicket(m, c, x, e, l);
    }
  }

  /** Only an accepted offer adds to what was accepted, and only a worker to what was processed. */
  lemma QueueFrame(q: Q.State, op: Q.Op)
    ensures !op.Offer? ==> Q.Step(q, op).accepted == q.accepted
    ensures !op.Finish? ==> Q.Step(q, op).processed == q.processed
  {
  }

  lemma OfferKeeps(s: State, c: nat)
    requires Inv(s) && Q.Enabled(s.queue, Q.Offer(c))
    ensures var t := QueueStep(s, Q.Offer(c)); TicketsOk(t.handed, t.queue.accepted) && OneEach(t.handed)
  {
    var q := Q.OfferStep(s.queue, c);
    HandedKeeps(s.handed, s.queue.accepted, c, Handed(s.queue.checked[c], OfferTicket(s.queue, c)), q.accepted);
  }

  lemma QueueKeeps(s: State, op: Q.Op)
    requires Inv(s)
    ensures Inv(QueueStep(s, op))
  {
    Q.StepKeeps(s.queue, op);
    QueueFrame(s.queue, op);
    match op
    case Check(c, mail) => HandedKeeps(s.handed, s.queue.accepted, c, Handed(mail, None), s.queue.accepted);
    case Offer(c) => if Q.Enabled(s.queue, op) { OfferKeeps(s, c); }
    case _ =>
  }

  lemma AskKeeps(s: State, c: nat, to: string, unread: bool)
    requires Inv(s)
    ensures Inv(Step(s, Ask(c, to, unread)))
  {
    LiveAccepted(s.inboxes, to, unread);
  }

  lemma LiveAccepted(s: I.State, to: string, unread: bool)
    requires I.Inv(s)
    ensures HasLive(s, to) ==> I.CanAccept(s, to, unread)
  {
  }

  lemma WorkKeeps(s: State, w: nat, unread: bool, lost: bool)
    requires Inv(s)
    ensures Inv(WorkStep(s, w, unread, lost))
  {
    if Q.Enabled(s.queue, Q.Finish(w)) {
      Q.StepKeeps(s.queue, Q.Finish(w));
      QueueFrame(s.queue, Q.Finish(w));
      I.StepKeeps(s.inboxes, I.Process(s.queue.busy[w].mail.to, unread, lost));
    }
  }

  lemma StepKeeps(s: State, op: Op)
    requires Inv(s)
    ensures Inv(Step(s, op))
  {
    match op
    case Inbox(o) => I.StepKeeps(s.inboxes, o);
    case Ask(c, to, unread) => AskKeeps(s, c, to, unread);
    case Queue(o) => QueueKeeps(s, o);
    case Work(w, unread, lost) => WorkKeeps(s, w, unread, lost);
    case Cancel =>
  }

  lemma {:induction false} RunKeeps(s: State, ops: seq<Op>)
    requires Inv(s)
    ensures Inv(Run(s, ops))
    decreases |ops|
  {
    if ops == [] {
    } else {
      StepKeeps(s, ops[0]);
      RunKeeps(Step(s, ops[0]), ops[1..]);
    }
  }

  lemma StartInv(capacity: nat, workers: set<nat>)
    requires workers != {}
    ensures Inv(Start(capacity, workers))
  {
  }

  // ---- Workers do what a plain lookup would ----

  /** What a plain lookup would do, unless the worker was cut off: then the mail is turned away. */
  predicate AllRight(results: seq<Result>) {
    forall j :: 0 <= j < |results| ==> results[j].outcome == if results[j].cut then I.Rejected else results[j].direct
  }

  predicate KeyWritten(op: Op) {
    op.Inbox? && op.op.Create? ==> !op.op.lost
  }

  lemma WorkRight(s: State, w: nat, unread: bool, lost: bool)
    requires Inv(s) && I.Agrees(s.inboxes) && AllRight(s.results) && Q.Enabled(s.queue, Q.Finish(w))
    ensures var t := WorkStep(s, w, unread, lost); I.Agrees(t.inboxes) && AllRight(t.results)
  {
    var to := s.queue.busy[w].mail.to;
    if !CutOff(s, w) {
      I.StepAgreesExactly(s.inboxes, I.Process(to, unread, lost));
      I.AgreementMeansRefinement(s.inboxes, to, unread, lost);
    }
  }

  lemma StepRight(s: State, op: Op)
    requires Inv(s) && I.Agrees(s.inboxes) && AllRight(s.results) && KeyWritten(op)
    ensures I.Agrees(Step(s, op).inboxes) && AllRight(Step(s, op).results)
  {
    match op
    case Inbox(o) => I.StepAgreesExactly(s.inboxes, o);
    case Work(w, unread, lost) =>
      if Q.Enabled(s.queue, Q.Finish(w)) {
        WorkRight(s, w, unread, lost);
      }
    case _ => OtherRight(s, op);
  }

  lemma OtherRight(s: State, op: Op)
    requires op.Ask? || op.Queue? || op.Cancel?
    ensures Step(s, op).inboxes == s.inboxes && Step(s, op).results == s.results
  {
  }

  /** As long as keys of new inboxes get written, every mail is treated as a plain lookup at that moment would treat it,
      except exactly those whose worker was cut off. */
  lemma {:induction false} RunRight(s: State, ops: seq<Op>)
    requires Inv(s) && I.Agrees(s.inboxes) && AllRight(s.results) && forall op <- ops :: KeyWritten(op)
    ensures AllRight(Run(s, ops).results)
    decreases |ops|
  {
    if ops == [] {
    } else {
      assert ops[0] in ops && forall op <- ops[1..] :: op in ops;
      StepKeeps(s, ops[0]);
      StepRight(s, ops[0]);
      RunRight(Step(s, ops[0]), ops[1..]);
    }
  }

  // ---- A conversation among the others ----

  /** The recipients the transcript says the router was asked about, with its answers. */
  function AskedIn(log: seq<M.Event>): seq<(string, bool)> {
    if log == [] then []
    else
      var e := log[|log| - 1];
      AskedIn(log[..|log| - 1])
      + if e.Replied? && e.command.Rcpt? && e.code in {250, 550} then [(e.command.to, e.code == 250)] else []
  }

  /** A state some turn of the conversation reaches, or its end. */
  ghost predicate InConversation(env: M.Env, input: M.Input, conv: M.State) {
    var c := M.Conn(M.FRESH, input, true);
    conv == M.Serve(env, c).state || exists n: nat :: conv == M.Turns(env, c, n).state
  }

  lemma ConversationInv(env: M.Env, input: M.Input, conv: M.State)
    requires InConversation(env, input, conv)
    ensures M.Inv(env, conv)
  {
    var c := M.Conn(M.FRESH, input, true);
    M.ServeKeeps(env, c, 0);
    if conv != M.Serve(env, c).state {
      var n: nat :| conv == M.Turns(env, c, n).state;
      M.ServeKeeps(env, c, n);
    }
  }

  /** The conversation's questions and offers are those recorded for its connection, and it got the answers recorded. */
  predicate Matches(s: State, c: nat, env: M.Env, conv: M.State) {
    var handed, asked := List(s.handed, c), List(s.asked, c);
    && |handed| == |conv.offered|
    && (forall n :: 0 <= n < |handed| ==>
          handed[n].mail == conv.offered[n] && (handed[n].ticket.Some? <==> env.queueTakes(n)))
    && |asked| == |AskedIn(conv.log)|
    && (forall n :: 0 <= n < |asked| ==> (asked[n].to, asked[n].accepted) == AskedIn(conv.log)[n])
  }

  lemma {:induction false} JustifiedAt(env: M.Env, log: seq<M.Event>, k: nat)
    requires M.AllJustified(env, log) && k < |log|
    ensures M.Justified(env, log[..k], log[k])
    decreases |log|
  {
    if k == |log| - 1 {
    } else {
      JustifiedAt(env, log[..|log| - 1], k);
      assert log[..|log| - 1][..k] == log[..k];
    }
  }

  lemma {:induction false} DeliveriesPrefix(log: seq<M.Event>, k: nat)
    requires k <= |log|
    ensures M.Deliveries(log[..k]) <= M.Deliveries(log)
    decreases |log|
  {
    if k == |log| {
      assert log[..k] == log;
    } else {
      DeliveriesPrefix(log[..|log| - 1], k);
      assert log[..|log| - 1][..k] == log[..k];
    }
  }

  lemma DeliveryAdds(log: seq<M.Event>, k: nat)
    requires k < |log| && log[k].Delivered?
    ensures M.Deliveries(log[..k + 1])
         == M.Deliveries(log[..k]) + M.Copies(M.Sender(log[..k]), M.Recipients(log[..k]), log[k].data)
  {
    var upTo := log[..k + 1];
    assert upTo[..k] == log[..k] && upTo[k] == log[k];
  }

  lemma CopyAt(earlier: seq<M.Email>, from: string, to: seq<string>, data: string, upTo: seq<M.Email>, all: seq<M.Email>, i: nat)
    requires upTo == earlier + M.Copies(from, to, data) && upTo <= all && i < |to|
    ensures |earlier| + i < |all| && all[|earlier| + i] == M.Email(from, to[i], data)
  {
    assert all[|earlier| + i] == upTo[|earlier| + i];
  }

  /** Which offers a delivery made. */
  lemma DeliveryAt(log: seq<M.Event>, k: nat, i: nat)
    requires k < |log| && log[k].Delivered? && i < |M.Recipients(log[..k])|
    ensures var before, start := log[..k], |M.Deliveries(log[..k])|;
            && start + i < |M.Deliveries(log)|
            && M.Deliveries(log)[start + i] == M.Email(M.Sender(before), M.Recipients(before)[i], log[k].data)
  {
    var upTo := UpTo(log, k);
    CopyAt(M.Deliveries(log[..k]), M.Sender(log[..k]), M.Recipients(log[..k]), log[k].data, upTo, M.Deliveries(log), i);
  }

  lemma UpTo(log: seq<M.Event>, k: nat) returns (upTo: seq<M.Email>)
    requires k < |log| && log[k].Delivered?
    ensures upTo == M.Deliveries(log[..k]) + M.Copies(M.Sender(log[..k]), M.Recipients(log[..k]), log[k].data)
    ensures upTo <= M.Deliveries(log)
  {
    upTo := M.Deliveries(log[..k + 1]);
    DeliveriesPrefix(log, k + 1);
    DeliveryAdds(log, k);
  }

  /** The conversation's n-th offer is the copy of its k-th transcript entry, a delivery, for the i-th recipient of the
      envelope then open. */
  predicate IsCopy(log: seq<M.Event>, k: nat, i: nat, n: nat, mail: M.Email) {
    && k < |log| && log[k].Delivered?
    && var before := log[..k];
       i < |M.Recipients(before)| && n == |M.Deliveries(before)| + i
       && mail == M.Email(M.Sender(before), M.Recipients(before)[i], log[k].data)
  }

  /** The offer of a confirmed copy was taken. */
  lemma OfferTaken(env: M.Env, log: seq<M.Event>, k: nat, i: nat, n: nat, mail: M.Email)
    requires M.AllJustified(env, log) && IsCopy(log, k, i, n, mail) && log[k].queued
    ensures n < |M.Deliveries(log)| && M.Deliveries(log)[n] == mail && env.queueTakes(n)
  {
    DeliveryAt(log, k, i);
    JustifiedAt(env, log, k);
    TakenAt(env, |M.Deliveries(log[..k])|, |M.Recipients(log[..k])|, i);
  }

  lemma TakenAt(env: M.Env, start: nat, count: nat, i: nat)
    requires M.AllTaken(env, start, count) && i < count
    ensures env.queueTakes(start + i)
  {
  }

  /** An offer that was taken has a ticket. */
  lemma TakenHasTicket(s: State, c: nat, env: M.Env, conv: M.State, n: nat) returns (t: nat)
    requires TicketsOk(s.handed, s.queue.accepted) && Matches(s, c, env, conv) && n < |conv.offered| && env.queueTakes(n)
    ensures t < |s.queue.accepted| && s.queue.accepted[t] == conv.offered[n] && TicketAt(s.handed, c, n) == Some(t)
  {
    var h := List(s.handed, c)[n];
    assert h.mail == conv.offered[n] && h.ticket.Some?;
    t := h.ticket.value;
    assert TicketAt(s.handed, c, n) == Some(t);
  }

  /** So it is in every conversation. */
  lemma ConfirmedTaken(env: M.Env, input: M.Input, conv: M.State, k: nat, i: nat, n: nat, mail: M.Email)
    requires InConversation(env, input, conv) && IsCopy(conv.log, k, i, n, mail) && conv.log[k].queued
    ensures n < |conv.offered| && conv.offered[n] == mail && env.queueTakes(n)
  {
    ConversationInv(env, input, conv);
    OfferTaken(env, conv.log, k, i, n, mail);
  }

  /** What becomes of an offer that was taken. */
  ghost predicate Fate(s: State, ops: seq<Op>, c: nat, n: nat, mail: M.Email, t: nat, j: nat) {
    && t < |s.queue.accepted| && s.queue.accepted[t] == mail && TicketAt(s.handed, c, n) == Some(t)
    && (s.queue.phase == Q.Returned ==>
          && j < |s.queue.processed| == |s.results| && s.queue.processed[j] == Q.Job(t, mail)
          && (forall l :: 0 <= l < |s.queue.processed| && s.queue.processed[l].ticket == t ==> l == j)
          && ((forall op <- ops :: KeyWritten(op)) ==>
                s.results[j].outcome == if s.results[j].cut then I.Rejected else s.results[j].direct))
  }

  lemma TakenFate(capacity: nat, workers: set<nat>, ops: seq<Op>, c: nat, env: M.Env, conv: M.State, n: nat)
    returns (t: nat, j: nat)
    requires workers != {} && Matches(Run(Start(capacity, workers), ops), c, env, conv)
    requires n < |conv.offered| && env.queueTakes(n)
    ensures Fate(Run(Start(capacity, workers), ops), ops, c, n, conv.offered[n], t, j)
  {
    var s := Run(Start(capacity, workers), ops);
    StartInv(capacity, workers);
    RunKeeps(Start(capacity, workers), ops);
    t := TakenHasTicket(s, c, env, conv, n);
    j := 0;
    if s.queue.phase == Q.Returned {
      j := ProcessedOnce(s.queue, t);
      if forall op <- ops :: KeyWritten(op) {
        RunRight(Start(capacity, workers), ops);
      }
    }
  }

  /** Two copies, of one delivery or of two, on one connection or on two, never share a ticket. */
  lemma TicketsDistinct(capacity: nat, workers: set<nat>, ops: seq<Op>, c: nat, m: nat, d: nat, n: nat)
    requires workers != {} && (c, m) != (d, n) && TicketAt(Run(Start(capacity, workers), ops).handed, c, m).Some?
    ensures var handed := Run(Start(capacity, workers), ops).handed; TicketAt(handed, c, m) != TicketAt(handed, d, n)
  {
    StartInv(capacity, workers);
    RunKeeps(Start(capacity, workers), ops);
  }

  /** At any moment, an accepted mail has been processed exactly when it is neither queued nor in a worker's hands. The
      process does not wait for the server to return, so the others are lost when it ends. */
  lemma ProcessedExactly(capacity: nat, workers: set<nat>, ops: seq<Op>, t: nat)
    requires workers != {} && t < |Run(Start(capacity, workers), ops).queue.accepted|
    ensures var q := Run(Start(capacity, workers), ops).queue;
            Q.Finished(q.processed, t) <==> t < q.taken && !Q.InHand(q.busy, t)
  {
    StartInv(capacity, workers);
    RunKeeps(Start(capacity, workers), ops);
    var q := Run(Start(capacity, workers), ops).queue;
    if Q.Finished(q.processed, t) {
      var i :| 0 <= i < |q.processed| && q.processed[i].ticket == t;
      assert Q.IsTicket(q, q.processed[i]);
    }
  }

  /** The platform's promise, over every interleaving of connections, workers, inbox operations and shutdown, at any point
      of a conversation: each copy of a message whose DATA was confirmed was accepted by the queue under a ticket of its
      own; once the server has returned it has been processed, by one worker, once; and if keys of new inboxes got written,
      it went where a plain table lookup at that moment would have put it, unless the shutdown cut the worker off. */
  lemma ConfirmedIsProcessedOnce(capacity: nat, workers: set<nat>, ops: seq<Op>, c: nat, env: M.Env, input: M.Input,
                                 conv: M.State, k: nat, i: nat, n: nat, mail: M.Email) returns (t: nat, j: nat)
    requires workers != {} && InConversation(env, input, conv) && Matches(Run(Start(capacity, workers), ops), c, env, conv)
    requires IsCopy(conv.log, k, i, n, mail) && conv.log[k].queued
    ensures Fate(Run(Start(capacity, workers), ops), ops, c, n, mail, t, j)
  {
    ConfirmedTaken(env, input, conv, k, i, n, mail);
    t, j := TakenFate(capacity, workers, ops, c, env, conv, n);
  }

  lemma ProcessedOnce(q: Q.State, t: nat) returns (j: nat)
    requires Q.Inv(q) && q.phase == Q.Returned && t < |q.accepted|
    ensures j < |q.processed| && q.processed[j] == Q.Job(t, q.accepted[t])
    ensures forall l :: 0 <= l < |q.processed| && q.processed[l].ticket == t ==> l == j
  {
    assert q.busy == map[] by { assert forall w :: w in q.busy ==> w in q.live; }
    assert q.queue == [];
    assert Q.Finished(q.processed, t);
    j :| 0 <= j < |q.processed| && q.processed[j].ticket == t;
    assert Q.IsTicket(q, q.processed[j]);
  }

  lemma {:induction false} AskedAt(log: seq<M.Event>, k: nat) returns (n: nat)
    requires k < |log| && log[k].Replied? && log[k].command.Rcpt? && log[k].code in {250, 550}
    ensures n < |AskedIn(log)| && AskedIn(log)[n] == (log[k].command.to, log[k].code == 250)
    decreases |log|
  {
    if k == |log| - 1 {
      n := |AskedIn(log)| - 1;
    } else {
      n := AskedAt(log[..|log| - 1], k);
    }
  }

  /** And its counterpart: a recipient that a conversation turned away had no live inbox when the router was asked, whatever
      Redis calls failed, unless the shutdown had begun. */
  lemma RefusedHadNoInbox(capacity: nat, workers: set<nat>, ops: seq<Op>, c: nat, env: M.Env, conv: M.State, k: nat)
    returns (n: nat)
    requires workers != {} && Matches(Run(Start(capacity, workers), ops), c, env, conv)
    requires k < |conv.log| && conv.log[k].Replied? && conv.log[k].command.Rcpt? && conv.log[k].code == 550
    ensures var s := Run(Start(capacity, workers), ops);
            && n < |List(s.asked, c)|
            && var a := List(s.asked, c)[n];
               a.to == conv.log[k].command.to && !a.accepted && (a.live ==> a.cut) && (a.cut ==> s.cancelled)
  {
    var s := Run(Start(capacity, workers), ops);
    StartInv(capacity, workers);
    RunKeeps(Start(capacity, workers), ops);
    n := AskedAt(conv.log, k);
    assert n < |List(s.asked, c)|;
    var a := List(s.asked, c)[n];
    assert (a.to, a.accepted) == AskedIn(conv.log)[n];
    assert AnswerOk(a, s.cancelled);
  }

  /** In every run, of the recipients with a live inbox exactly those asked about after the shutdown began are refused. */
  lemma LiveRefusedExactly(capacity: nat, workers: set<nat>, ops: seq<Op>, c: nat, n: nat)
    requires workers != {}
    requires var asked := List(Run(Start(capacity, workers), ops).asked, c); n < |asked| && asked[n].live
    ensures var a := List(Run(Start(capacity, workers), ops).asked, c)[n]; !a.accepted <==> a.cut
  {
    StartInv(capacity, workers);
    RunKeeps(Start(capacity, workers), ops);
    assert AnswerOk(List(Run(Start(capacity, workers), ops).asked, c)[n], Run(Start(capacity, workers), ops).cancelled);
  }

  // ---- What the histories record ----

  /** A live inbox has the address of this recipient. */
  predicate LiveFor(s: I.State, to: string, id: nat) {
    id in s.rows && s.rows[id].active && s.now < s.rows[id].expiresAt && s.rows[id].address == Normalize(to)
  }

  /** Every question to the router is recorded with its answer, with whether a live inbox had the address, and with whether
      the shutdown had begun, in which case it was refused. */
  lemma AskRecorded(s: State, c: nat, to: string, unread: bool)
    ensures var asked, t := List(s.asked, c), List(Step(s, Ask(c, to, unread)).asked, c);
            && |t| == |asked| + 1 && t[..|asked|] == asked && t[|asked|].to == to
            && (t[|asked|].live <==> exists id :: LiveFor(s.inboxes, to, id))
            && t[|asked|].cut == s.cancelled
            && (t[|asked|].accepted <==> !s.cancelled && I.CanAccept(s.inboxes, to, unread))
  {
    FoundLive(s.inboxes, to);
  }

  lemma FoundLive(s: I.State, to: string)
    ensures I.Direct(s, to) == I.Rejected <==> forall id :: !LiveFor(s, to, id)
    ensures forall id :: I.Direct(s, to) == I.Stored(id) ==> LiveFor(s, to, id)
  {
    forall id ensures LiveFor(s, to, id) <==> I.LiveAt(s.rows, s.now, Normalize(to), id) {}
  }

  /** Every mail that is worked off is recorded with its outcome and with what the table said at that moment: an inbox that
      was live under the recipient's address, or that there was none. Under the cancelled context it is turned away and
      nothing else happens; otherwise it is processed. */
  lemma WorkRecorded(s: State, w: nat, unread: bool, lost: bool)
    requires Q.Enabled(s.queue, Q.Finish(w))
    ensures var to, t := s.queue.busy[w].mail.to, Step(s, Work(w, unread, lost));
            var r := t.results[|t.results| - 1];
            && t.results == s.results + [r] && r.cut == CutOff(s, w)
            && (r.direct == I.Rejected <==> forall id :: !LiveFor(s.inboxes, to, id))
            && (forall id :: r.direct == I.Stored(id) ==> LiveFor(s.inboxes, to, id))
            && (r.cut ==> r.outcome == I.Rejected && t.inboxes == s.inboxes)
            && (!r.cut ==> (t.inboxes, r.outcome) == I.Step(s.inboxes, I.Process(to, unread, lost)))
  {
    FoundLive(s.inboxes, s.queue.busy[w].mail.to);
  }

  lemma {:induction false} LateStays(s: State, ops: seq<Op>, w: nat)
    requires forall op <- ops :: op != Queue(Q.Take(w))
    ensures w in Run(s, ops).late <==> w in s.late
    ensures s.cancelled ==> Run(s, ops).cancelled
    decreases |ops|
  {
    if ops == [] {
    } else {
      assert ops[0] in ops && forall op <- ops[1..] :: op in ops;
      LateStays(Step(s, ops[0]), ops[1..], w);
    }
  }

  /** Over any run between a worker's taking a mail and its working it off, its lookups are cut off exactly when the shutdown
      begins in that time: a mail taken before and still in hand. What is taken later has a context of its own. */
  lemma CutOffExactly(s: State, w: nat, ops: seq<Op>)
    requires Q.Enabled(s.queue, Q.Take(w)) && forall op <- ops :: op != Queue(Q.Take(w))
    ensures var t := Run(Step(s, Queue(Q.Take(w))), ops); CutOff(t, w) <==> !s.cancelled && t.cancelled
  {
    LateStays(Step(s, Queue(Q.Take(w))), ops, w);
  }
}
