/** One SMTP conversation: the command loop, the envelope it collects, and what it hands to the ingest queue. */
module SmtpSession {
  import opened Common
  import opened SmtpCommand
  import opened SmtpWire

  const MAX_RECIPIENTS := 100

  /** What a conversation depends on: how command lines are read, whether the router accepts the n-th queried
      recipient, whether the queue takes the n-th mail offered, and how the listener is configured. The listener
      itself reads commands with `Parse`; what does not depend on the command syntax is proved for any reading. */
  datatype Env = Env(parse: string -> Command, routes: (nat, string) -> bool, queueTakes: nat -> bool,
                     tls: bool, maxSize: nat)

  datatype Command =
    | Helo | Ehlo | StartTls | Mail(from: string) | Rcpt(to: string) | Data
    | Rset | Noop | Vrfy | Quit | Unknown

  datatype Email = Email(from: string, to: string, data: string)

  /** A handled command with its reply code; a DATA whose message went to the queue; a failed TLS handshake. */
  datatype Event = Replied(command: Command, code: nat) | Delivered(data: string, queued: bool) | TlsFailed

  datatype State = State(from: string, rcptTo: seq<string>, queries: nat, offered: seq<Email>, log: seq<Event>)

  /** Bytes on the current connection, and the clear text behind each further TLS handshake that succeeds. */
  datatype Input = Input(bytes: string, secured: seq<string>)

  datatype Conn = Conn(state: State, input: Input, open: bool)

  const FRESH := State("", [], 0, [], [])

  function Interpret(verb: string, arg: string): Command {
    if verb == "HELO" then Helo
    else if verb == "EHLO" then Ehlo
    else if verb == "STARTTLS" then StartTls
    else if verb == "MAIL" then Mail(ExtractMailParam(arg, "FROM"))
    else if verb == "RCPT" then Rcpt(ExtractMailParam(arg, "TO"))
    else if verb == "DATA" then Data
    else if verb == "RSET" then Rset
    else if verb == "NOOP" then Noop
    else if verb == "VRFY" then Vrfy
    else if verb == "QUIT" then Quit
    else Unknown
  }

  function Parse(line: string): Command {
    Interpret(ParseCommand(line).0, ParseCommand(line).1)
  }

  function Reply(s: State, c: Command, code: nat): State {
    s.(log := s.log + [Replied(c, code)])
  }

  function Clear(s: State): State {
    s.(from := "", rcptTo := [])
  }

  /** One copy of the message per recipient, in order. */
  function Copies(from: string, rcptTo: seq<string>, data: string): seq<Email> {
    seq(|rcptTo|, i requires 0 <= i < |rcptTo| => Email(from, rcptTo[i], data))
  }

  predicate AllTaken(env: Env, start: nat, count: nat) {
    forall i | start <= i < start + count :: env.queueTakes(i)
  }

  function Deliver(env: Env, s: State, data: string): State {
    var queued := AllTaken(env, |s.offered|, |s.rcptTo|);
    Clear(s.(offered := s.offered + Copies(s.from, s.rcptTo, data), log := s.log + [Delivered(data, queued)]))
  }

  function MailStep(s: State, from: string): State {
    if from == "" then Reply(s, Mail(from), 501)
    else Reply(s.(from := from, rcptTo := []), Mail(from), 250)
  }

  function RcptStep(env: Env, s: State, to: string): State {
    if s.from == "" then Reply(s, Rcpt(to), 503)
    else if to == "" then Reply(s, Rcpt(to), 501)
    else if |s.rcptTo| >= MAX_RECIPIENTS then Reply(s, Rcpt(to), 452)
    else
      var q := s.(queries := s.queries + 1);
      if env.routes(s.queries, to) then Reply(q.(rcptTo := s.rcptTo + [to]), Rcpt(to), 250)
      else Reply(q, Rcpt(to), 550)
  }

  function DataStep(env: Env, s: State, input: Input): Conn {
    if s.from == "" || s.rcptTo == [] then Conn(Reply(s, Data, 503), input, true)
    else match ReadBody(input.bytes, env.maxSize, "")
         case Message(data, rest) => Conn(Deliver(env, s, data), input.(bytes := rest), true)
         case TooLarge(rest) => Conn(Reply(s, Data, 451), input.(bytes := rest), true)
         case Disconnected => Conn(Reply(s, Data, 451), input.(bytes := ""), true)
  }

  function StartTlsStep(env: Env, s: State, input: Input): Conn {
    if !env.tls then Conn(Reply(s, StartTls, 502), input, true)
    else if input.secured == [] then Conn(s.(log := s.log + [TlsFailed]), input, false)
    else Conn(Reply(Clear(s), StartTls, 220), Input(input.secured[0], input.secured[1..]), true)
  }

  /** Replies that do not depend on the envelope. */
  function PlainCode(c: Command): nat {
    match c
    case Vrfy => 252
    case Quit => 221
    case Unknown => 502
    case _ => 250
  }

  function Handle(env: Env, s: State, c: Command, input: Input): Conn {
    match c
    case StartTls => StartTlsStep(env, s, input)
    case Mail(from) => Conn(MailStep(s, from), input, true)
    case Rcpt(to) => Conn(RcptStep(env, s, to), input, true)
    case Data => DataStep(env, s, input)
    case Rset => Conn(Reply(Clear(s), c, 250), input, true)
    case _ => Conn(Reply(s, c, PlainCode(c)), input, c != Quit)
  }

  datatype Received = Eof | Blank(rest: string) | Line(command: Command, rest: string)

  function Receive(env: Env, bytes: string): Received {
    match ReadLine(bytes)
    case None => Eof
    case Some((line, rest)) => if TrimEol(line) == "" then Blank(rest) else Line(env.parse(TrimEol(line)), rest)
  }

  function Act(env: Env, c: Conn, r: Received): Conn {
    match r
    case Eof => c.(input := c.input.(bytes := ""), open := false)
    case Blank(rest) => c.(input := c.input.(bytes := rest))
    case Line(command, rest) => Handle(env, c.state, command, c.input.(bytes := rest))
  }

  /** Read one line and act on it. */
  function Step(env: Env, c: Conn): Conn {
    Act(env, c, Receive(env, c.input.bytes))
  }

  lemma {:induction false} BodyShrinks(stream: string, maxSize: nat, buf: string)
    ensures match ReadBody(stream, maxSize, buf)
            case Message(_, rest) => |rest| < |stream|
            case TooLarge(rest) => |rest| < |stream|
            case Disconnected => true
    decreases |stream|
  {
    if ReadLine(stream).Some? {
      var (line, rest) := ReadLine(stream).value;
      BodyShrinks(rest, maxSize, buf + Unstuff(line));
    }
  }

  predicate Smaller(d: Conn, c: Conn) {
    !d.open || |d.input.secured| < |c.input.secured|
    || (|d.input.secured| == |c.input.secured| && |d.input.bytes| < |c.input.bytes|)
  }

  lemma DataProgress(env: Env, s: State, input: Input)
    ensures var d := DataStep(env, s, input).input; d.secured == input.secured && |d.bytes| <= |input.bytes|
  {
    BodyShrinks(input.bytes, env.maxSize, "");
  }

  lemma HandleProgress(env: Env, s: State, c: Command, input: Input)
    ensures var d := Handle(env, s, c, input);
            !d.open || |d.input.secured| < |input.secured|
            || (|d.input.secured| == |input.secured| && |d.input.bytes| <= |input.bytes|)
  {
    match c
    case Data => DataProgress(env, s, input);
    case _ =>
  }

  lemma ActProgress(env: Env, c: Conn, r: Received)
    requires !r.Eof? ==> |r.rest| < |c.input.bytes|
    ensures Smaller(Act(env, c, r), c)
  {
    if r.Line? {
      HandleProgress(env, c.state, r.command, c.input.(bytes := r.rest));
    }
  }

  lemma ReceiveShrinks(env: Env, bytes: string)
    ensures !Receive(env, bytes).Eof? ==> |Receive(env, bytes).rest| < |bytes|
  {
  }

  /** Every step uses up input or ends the conversation. */
  lemma StepProgress(env: Env, c: Conn)
    ensures Smaller(Step(env, c), c)
  {
    ReceiveShrinks(env, c.input.bytes);
    ActProgress(env, c, Receive(env, c.input.bytes));
  }

  /** The whole conversation. */
  function Serve(env: Env, c: Conn): Conn
    decreases |c.input.secured|, |c.input.bytes|, c.open
  {
    if !c.open then c else StepProgress(env, c); Serve(env, Step(env, c))
  }

  // ---- The envelope as the transcript tells it ----

  /** Events that start a new envelope or throw the old one away. */
  predicate Boundary(e: Event) {
    e.Delivered? || e == Replied(Rset, 250) || e == Replied(StartTls, 220)
    || (e.Replied? && e.command.Mail? && e.code == 250)
  }

  /** One past the last boundary. */
  function LastBoundary(log: seq<Event>): (k: nat)
    ensures k <= |log| && (k > 0 ==> Boundary(log[k - 1]))
    ensures forall i :: k <= i < |log| ==> !Boundary(log[i])
  {
    if log == [] then 0
    else if Boundary(log[|log| - 1]) then |log|
    else LastBoundary(log[..|log| - 1])
  }

  /** The sender of the open envelope, "" when none is open. */
  function Sender(log: seq<Event>): string {
    var k := LastBoundary(log);
    if k > 0 && log[k - 1].Replied? && log[k - 1].command.Mail? then log[k - 1].command.from else ""
  }

  /** Addresses of the accepted RCPT commands, in order. */
  function AcceptedRcpts(log: seq<Event>): seq<string> {
    if log == [] then []
    else
      var e := log[|log| - 1];
      AcceptedRcpts(log[..|log| - 1])
      + (if e.Replied? && e.command.Rcpt? && e.code == 250 then [e.command.to] else [])
  }

  function Recipients(log: seq<Event>): seq<string> {
    AcceptedRcpts(log[LastBoundary(log)..])
  }

  /** Every mail the transcript accounts for: at each delivery, one copy for each recipient of the envelope then
      open. */
  function Deliveries(log: seq<Event>): seq<Email> {
    if log == [] then []
    else
      var before := log[..|log| - 1];
      Deliveries(before) + match log[|log| - 1]
                           case Delivered(data, _) => Copies(Sender(before), Recipients(before), data)
                           case _ => []
  }

  /** How many recipients the router was asked about. */
  function Queries(log: seq<Event>): nat {
    if log == [] then 0
    else
      var e := log[|log| - 1];
      Queries(log[..|log| - 1]) + if e.Replied? && e.command.Rcpt? && e.code in {250, 550} then 1 else 0
  }

  /** The facts behind one transcript entry: a delivery holds one message of legal size for at least one recipient,
      and was confirmed to the client exactly when the queue took every copy; a recipient was accepted or rejected
      inside an open envelope with room left, and as the router said; a sender was accepted unless empty; DATA was
      refused outright exactly when the envelope lacked a sender or a recipient. */
  predicate Justified(env: Env, before: seq<Event>, e: Event) {
    match e
    case Delivered(data, queued) =>
      && |data| <= env.maxSize && Sender(before) != "" && Recipients(before) != []
      && (queued <==> AllTaken(env, |Deliveries(before)|, |Recipients(before)|))
    case Replied(Rcpt(to), code) =>
      && (code == 503 <==> Sender(before) == "")
      && (code == 501 ==> to == "")
      && (code == 452 ==> |Recipients(before)| == MAX_RECIPIENTS)
      && (code == 250 ==> to != "" && |Recipients(before)| < MAX_RECIPIENTS && env.routes(Queries(before), to))
      && (code == 550 ==> to != "" && |Recipients(before)| < MAX_RECIPIENTS && !env.routes(Queries(before), to))
      && code in {250, 452, 501, 503, 550}
    case Replied(Mail(from), code) => code == if from == "" then 501 else 250
    case Replied(Data, code) => code == if Sender(before) == "" || Recipients(before) == [] then 503 else 451
    case _ => true
  }

  /** Every entry of the transcript is justified by what came before it. */
  predicate AllJustified(env: Env, log: seq<Event>) {
    log == []
    || (AllJustified(env, log[..|log| - 1]) && Justified(env, log[..|log| - 1], log[|log| - 1]))
  }

  /** The session's variables are exactly what its transcript says. */
  predicate Inv(env: Env, s: State) {
    && s.from == Sender(s.log)
    && s.rcptTo == Recipients(s.log)
    && s.queries == Queries(s.log)
    && s.offered == Deliveries(s.log)
    && |s.rcptTo| <= MAX_RECIPIENTS
    && (s.from == "" ==> s.rcptTo == [])
    && AllJustified(env, s.log)
  }

  // ---- Extending a transcript ----

  function Added(e: Event): seq<string> {
    if e.Replied? && e.command.Rcpt? && e.code == 250 then [e.command.to] else []
  }

  lemma ExtendSender(log: seq<Event>, e: Event)
    ensures Sender(log + [e]) == if !Boundary(e) then Sender(log)
                                 else if e.Replied? && e.command.Mail? then e.command.from else ""
  {
    assert (log + [e])[..|log|] == log;
  }

  lemma ExtendRecipients(log: seq<Event>, e: Event)
    ensures Recipients(log + [e]) == if Boundary(e) then [] else Recipients(log) + Added(e)
  {
    var next := log + [e];
    assert next[..|log|] == log;
    var k := LastBoundary(next);
    if !Boundary(e) {
      assert next[k..] == log[k..] + [e];
      assert (log[k..] + [e])[..|log| - k] == log[k..];
    }
  }

  lemma ExtendRest(env: Env, log: seq<Event>, e: Event)
    ensures Deliveries(log + [e]) == Deliveries(log) + (if e.Delivered? then Copies(Sender(log), Recipients(log), e.data) else [])
    ensures Queries(log + [e]) == Queries(log) + if e.Replied? && e.command.Rcpt? && e.code in {250, 550} then 1 else 0
    ensures AllJustified(env, log) && Justified(env, log, e) ==> AllJustified(env, log + [e])
  {
    assert (log + [e])[..|log|] == log;
  }

  /** Replies that neither open, extend nor close an envelope. */
  lemma PlainReplyKeeps(env: Env, s: State, c: Command, code: nat)
    requires Inv(env, s)
    requires !Boundary(Replied(c, code)) && Justified(env, s.log, Replied(c, code)) && (c.Rcpt? ==> code !in {250, 550})
    ensures Inv(env, Reply(s, c, code))
  {
    ExtendAll(env, s.log, Replied(c, code));
  }

  lemma ExtendAll(env: Env, log: seq<Event>, e: Event)
    requires AllJustified(env, log) && Justified(env, log, e)
    ensures Sender(log + [e]) == if !Boundary(e) then Sender(log)
                                 else if e.Replied? && e.command.Mail? then e.command.from else ""
    ensures Recipients(log + [e]) == if Boundary(e) then [] else Recipients(log) + Added(e)
    ensures Deliveries(log + [e]) == Deliveries(log) + (if e.Delivered? then Copies(Sender(log), Recipients(log), e.data) else [])
    ensures Queries(log + [e]) == Queries(log) + if e.Replied? && e.command.Rcpt? && e.code in {250, 550} then 1 else 0
    ensures AllJustified(env, log + [e])
  {
    ExtendSender(log, e);
    ExtendRecipients(log, e);
    ExtendRest(env, log, e);
  }

  lemma ResetKeeps(env: Env, s: State, c: Command, code: nat)
    requires Inv(env, s) && ((c == Rset && code == 250) || (c == StartTls && code == 220))
    ensures Inv(env, Reply(Clear(s), c, code))
  {
    ExtendAll(env, s.log, Replied(c, code));
  }

  lemma DeliverKeeps(env: Env, s: State, data: string)
    requires Inv(env, s) && s.from != "" && s.rcptTo != [] && |data| <= env.maxSize
    ensures Inv(env, Deliver(env, s, data))
  {
    ExtendAll(env, s.log, Delivered(data, AllTaken(env, |s.offered|, |s.rcptTo|)));
  }

  lemma MailKeeps(env: Env, s: State, from: string)
    requires Inv(env, s)
    ensures Inv(env, MailStep(s, from))
  {
    ExtendAll(env, s.log, Replied(Mail(from), if from == "" then 501 else 250));
  }

  lemma RoutedKeeps(env: Env, s: State, to: string)
    requires Inv(env, s) && s.from != "" && to != "" && |s.rcptTo| < MAX_RECIPIENTS
    ensures Inv(env, RcptStep(env, s, to))
  {
    ExtendAll(env, s.log, Replied(Rcpt(to), if env.routes(s.queries, to) then 250 else 550));
  }

  lemma RcptKeeps(env: Env, s: State, to: string)
    requires Inv(env, s)
    ensures Inv(env, RcptStep(env, s, to))
  {
    if s.from == "" {
      PlainReplyKeeps(env, s, Rcpt(to), 503);
    } else if to == "" {
      PlainReplyKeeps(env, s, Rcpt(to), 501);
    } else if |s.rcptTo| >= MAX_RECIPIENTS {
      PlainReplyKeeps(env, s, Rcpt(to), 452);
    } else {
      RoutedKeeps(env, s, to);
    }
  }

  lemma DataKeeps(env: Env, s: State, input: Input)
    requires Inv(env, s)
    ensures Inv(env, DataStep(env, s, input).state)
  {
    LimitIsExact(input.bytes, env.maxSize, "");
    var r := ReadBody(input.bytes, env.maxSize, "");
    if s.from == "" || s.rcptTo == [] {
      PlainReplyKeeps(env, s, Data, 503);
    } else if r.Message? {
      DeliverKeeps(env, s, r.data);
    } else {
      PlainReplyKeeps(env, s, Data, 451);
    }
  }

  lemma StartTlsKeeps(env: Env, s: State, input: Input)
    requires Inv(env, s)
    ensures Inv(env, StartTlsStep(env, s, input).state)
  {
    if !env.tls {
      PlainReplyKeeps(env, s, StartTls, 502);
    } else if input.secured == [] {
      ExtendAll(env, s.log, TlsFailed);
    } else {
      ResetKeeps(env, s, StartTls, 220);
    }
  }

  lemma HandleKeeps(env: Env, s: State, c: Command, input: Input)
    requires Inv(env, s)
    ensures Inv(env, Handle(env, s, c, input).state)
  {
    match c
    case StartTls => StartTlsKeeps(env, s, input);
    case Mail(from) => MailKeeps(env, s, from);
    case Rcpt(to) => RcptKeeps(env, s, to);
    case Data => DataKeeps(env, s, input);
    case Rset => ResetKeeps(env, s, Rset, 250);
    case _ => PlainReplyKeeps(env, s, c, PlainCode(c));
  }

  lemma ActKeeps(env: Env, c: Conn, r: Received)
    requires Inv(env, c.state)
    ensures Inv(env, Act(env, c, r).state)
  {
    if r.Line? {
      HandleKeeps(env, c.state, r.command, c.input.(bytes := r.rest));
    }
  }

  /** The connection after so many turns. */
  function Turns(env: Env, c: Conn, n: nat): Conn
    decreases n
  {
    if n == 0 || !c.open then c else Turns(env, Step(env, c), n - 1)
  }

  /** What every turn keeps holds after any number of turns, and at the end. */
  lemma {:induction false} TurnsInduct(env: Env, c: Conn, n: nat, p: Conn -> bool)
    requires p(c) && forall d: Conn :: d.open && p(d) ==> p(Step(env, d))
    ensures p(Turns(env, c, n))
    decreases n
  {
    if n > 0 && c.open {
      TurnsInduct(env, Step(env, c), n - 1, p);
    }
  }

  lemma NextTurn(env: Env, c: Conn, p: Conn -> bool) returns (d: Conn)
    requires c.open && p(c) && forall d: Conn :: d.open && p(d) ==> p(Step(env, d))
    ensures p(d) && Smaller(d, c) && Serve(env, c) == Serve(env, d)
  {
    d := Step(env, c);
    StepProgress(env, c);
  }

  lemma {:induction false} ServeInduct(env: Env, c: Conn, p: Conn -> bool)
    requires p(c) && forall d: Conn :: d.open && p(d) ==> p(Step(env, d))
    ensures p(Serve(env, c))
    decreases |c.input.secured|, |c.input.bytes|, c.open
  {
    if c.open {
      var d := NextTurn(env, c, p);
      if d.open { ServeInduct(env, d, p); }
    }
  }

  /** Every turn keeps the session's variables what its transcript says: the sender and the recipients accepted since the
      last MAIL, RSET, STARTTLS or delivery. */
  lemma StepKeeps(env: Env, c: Conn)
    requires Inv(env, c.state)
    ensures Inv(env, Step(env, c).state)
  {
    ActKeeps(env, c, Receive(env, c.input.bytes));
  }

  lemma ServeKeeps(env: Env, c: Conn, n: nat)
    requires Inv(env, c.state)
    ensures Inv(env, Turns(env, c, n).state) && Inv(env, Serve(env, c).state)
  {
    var p := (d: Conn) => Inv(env, d.state);
    forall d: Conn | d.open && p(d) ensures p(Step(env, d)) {
      StepKeeps(env, d);
    }
    TurnsInduct(env, c, n, p);
    ServeInduct(env, c, p);
  }

  /** Whatever bytes a client sends and whatever the router and the queue answer, the mails offered to the queue are
      exactly those the transcript accounts for, and every entry of the transcript is justified. */
  lemma EveryConversation(env: Env, input: Input)
    ensures var s := Serve(env, Conn(FRESH, input, true)).state;
            s.offered == Deliveries(s.log) && AllJustified(env, s.log) && |s.rcptTo| <= MAX_RECIPIENTS
  {
    ServeKeeps(env, Conn(FRESH, input, true), 0);
  }

  // ---- Ways to serve ----

  /** A function that gives the same for a connection and for what one turn makes of it. */
  ghost predicate Follows(env: Env, serve: Conn -> Conn) {
    forall c: Conn {:trigger Step(env, c)} :: c.open ==> serve(c) == serve(Step(env, c))
  }

  lemma ServeFollows(env: Env)
    ensures Follows(env, c => Serve(env, c))
  {
  }
}
