/** A well-behaved client: what its bytes mean to the listener, from the wire to the ingest queue. */
module SmtpClient {
  import opened SmtpCommand
  import opened SmtpSession
  import opened SmtpWire

  datatype Message = Message(from: string, to: seq<string>, body: string)

  /** A command line as a client writes it. */
  function CommandLine(text: string): string {
    text + "\r\n"
  }

  predicate IsText(text: string) {
    text != "" && '\n' !in text && text[|text| - 1] != '\r'
  }

  lemma {:induction false} TextIsLine(text: string)
    requires '\n' !in text
    ensures IsLine(CommandLine(text))
  {
    if text != "" {
      TextIsLine(text[1..]);
      assert CommandLine(text)[1..] == CommandLine(text[1..]);
    }
  }

  lemma TextTrims(text: string)
    requires IsText(text)
    ensures TrimEol(CommandLine(text)) == text
  {
    var line := CommandLine(text);
    var half := text + "\r";
    assert line[..|line| - 1] == half && half[..|half| - 1] == text;
    assert half[|half| - 1] in "\r\n" && line[|line| - 1] in "\r\n";
    assert text[|text| - 1] in text && text[|text| - 1] !in "\r\n";
    assert TrimEol(line) == TrimEol(half) == TrimEol(text) == text;
  }

  predicate Understood(env: Env, text: string, c: Command) {
    IsText(text) && env.parse(text) == c
  }

  /** A command line followed by any bytes is handled as that command, and those bytes remain. */
  lemma StepCommand(env: Env, s: State, text: string, c: Command, tail: string, secured: seq<string>)
    requires Understood(env, text, c)
    ensures Serve(env, Conn(s, Input(CommandLine(text) + tail, secured), true))
         == Serve(env, Handle(env, s, c, Input(tail, secured)))
  {
    TextIsLine(text);
    TextTrims(text);
    ReadLineOf(CommandLine(text), tail);
  }

  /** The argument that carries an address, as in "FROM:<a@b>". */
  function Argument(word: string, addr: string): string {
    word + ":" + ("<" + addr + ">")
  }

  lemma ArgumentParses(word: string, addr: string)
    requires IsVerb(word) && IsAddress(addr)
    ensures ExtractMailParam(Argument(word, addr), word) == addr
  {
    ExtractBracketed(word, addr, "");
    assert "<" + addr + ">" + "" == "<" + addr + ">";
  }

  lemma ArgumentIsText(word: string, addr: string)
    requires IsVerb(word) && IsAddress(addr)
    ensures IsText(Argument(word, addr))
  {
    var rest := "<" + addr + ">";
    assert '\n' !in rest;
    assert '\n' !in word + ":";
    assert Argument(word, addr)[|Argument(word, addr)| - 1] == '>';
  }

  lemma VerbIsText(verb: string, arg: string)
    requires IsVerb(verb) && IsText(arg)
    ensures IsText(verb + " " + arg)
  {
    assert '\n' !in verb + " ";
    assert (verb + " " + arg)[|verb + " " + arg| - 1] == arg[|arg| - 1];
  }

  function MailText(from: string): string {
    "MAIL" + " " + Argument("FROM", from)
  }

  function RcptText(to: string): string {
    "RCPT" + " " + Argument("TO", to)
  }

  lemma AddressCommand(verb: string, word: string, addr: string)
    requires IsVerb(verb) && IsVerb(word) && IsAddress(addr)
    ensures var text := verb + " " + Argument(word, addr);
            IsText(text) && Parse(text) == Interpret(verb, Argument(word, addr))
    ensures ExtractMailParam(Argument(word, addr), word) == addr
  {
    ArgumentParses(word, addr);
    ArgumentIsText(word, addr);
    VerbIsText(verb, Argument(word, addr));
    ParseVerb(verb, Argument(word, addr));
  }

  lemma FirstDiffers(a: string, b: string)
    requires a != "" && b != "" && a[0] != b[0]
    ensures a != b
  {
  }

  /** None of the commands in front of MAIL. */
  lemma NotEarly(verb: string)
    requires verb != "" && verb[0] !in "HES"
    ensures verb != "HELO" && verb != "EHLO" && verb != "STARTTLS"
  {
    FirstDiffers(verb, "HELO");
    FirstDiffers(verb, "EHLO");
    FirstDiffers(verb, "STARTTLS");
  }

  lemma InterpretMail(arg: string)
    ensures Interpret("MAIL", arg) == Mail(ExtractMailParam(arg, "FROM"))
  {
    NotEarly("MAIL");
  }

  lemma InterpretRcpt(arg: string)
    ensures Interpret("RCPT", arg) == Rcpt(ExtractMailParam(arg, "TO"))
  {
    NotEarly("RCPT");
    FirstDiffers("RCPT", "MAIL");
  }

  lemma InterpretData(arg: string)
    ensures Interpret("DATA", arg) == Data
  {
    NotEarly("DATA");
    FirstDiffers("DATA", "MAIL");
    FirstDiffers("DATA", "RCPT");
  }

  lemma MailParses(from: string)
    requires IsAddress(from)
    ensures IsText(MailText(from)) && Parse(MailText(from)) == Mail(from)
  {
    AddressCommand("MAIL", "FROM", from);
    InterpretMail(Argument("FROM", from));
  }

  lemma RcptParses(to: string)
    requires IsAddress(to)
    ensures IsText(RcptText(to)) && Parse(RcptText(to)) == Rcpt(to)
  {
    AddressCommand("RCPT", "TO", to);
    InterpretRcpt(Argument("TO", to));
  }

  lemma BareVerb(verb: string)
    requires IsVerb(verb) && verb != ""
    ensures IsText(verb) && Parse(verb) == Interpret(verb, "")
  {
    ParseVerb(verb, "");
    assert verb[|verb| - 1] in verb;
  }

  lemma DataParses()
    ensures IsText("DATA") && Parse("DATA") == Data
  {
    BareVerb("DATA");
    InterpretData("");
  }

  // ---- Scripts ----

  /** One thing a client sends: a MAIL or RCPT line, or a DATA line with the message that follows it. */
  datatype Item = Say(command: Command) | Send(body: string)

  function TextOf(c: Command): string {
    match c
    case Mail(from) => MailText(from)
    case Rcpt(to) => RcptText(to)
    case _ => "DATA"
  }

  function Bytes(i: Item): string {
    match i
    case Say(c) => CommandLine(TextOf(c))
    case Send(body) => CommandLine(TextOf(Data)) + (if IsLines(body) then Encode(body) else "")
  }

  function Script(items: seq<Item>): string {
    if items == [] then "" else Bytes(items[0]) + Script(items[1..])
  }

  predicate Legible(env: Env, i: Item) {
    match i
    case Say(c) => (c.Mail? || c.Rcpt?) && Understood(env, TextOf(c), c)
    case Send(body) => Understood(env, TextOf(Data), Data) && IsLines(body)
  }

  function After(env: Env, s: State, i: Item): State {
    match i
    case Say(Mail(from)) => MailStep(s, from)
    case Say(Rcpt(to)) => RcptStep(env, s, to)
    case Say(_) => s
    case Send(body) => Deliver(env, s, body)
  }

  function AfterAll(env: Env, s: State, items: seq<Item>): State
    decreases |items|
  {
    if items == [] then s else AfterAll(env, After(env, s, items[0]), items[1..])
  }

  /** A message is sent only with an open envelope and within the limit. */
  predicate Ready(env: Env, s: State, i: Item) {
    i.Send? ==> |i.body| <= env.maxSize && s.from != "" && s.rcptTo != []
  }

  predicate AllReady(env: Env, s: State, items: seq<Item>)
    decreases |items|
  {
    items == [] || (Ready(env, s, items[0]) && AllReady(env, After(env, s, items[0]), items[1..]))
  }

  lemma BodyArrives(env: Env, s: State, body: string, tail: string, secured: seq<string>)
    requires IsLines(body) && |body| <= env.maxSize && s.from != "" && s.rcptTo != []
    ensures DataStep(env, s, Input(Encode(body) + tail, secured)) == Conn(Deliver(env, s, body), Input(tail, secured), true)
  {
    RoundTrip(body, tail, env.maxSize);
  }

  lemma SendArrives(env: Env, s: State, text: string, body: string, tail: string, secured: seq<string>)
    requires Understood(env, text, Data) && IsLines(body) && Ready(env, s, Send(body))
    ensures Serve(env, Conn(s, Input(CommandLine(text) + Encode(body) + tail, secured), true))
         == Serve(env, Conn(Deliver(env, s, body), Input(tail, secured), true))
  {
    Associative(CommandLine(text), Encode(body), tail);
    StepCommand(env, s, text, Data, Encode(body) + tail, secured);
    BodyArrives(env, s, body, tail, secured);
  }

  lemma ItemArrives(env: Env, s: State, i: Item, tail: string, secured: seq<string>)
    requires Legible(env, i) && Ready(env, s, i)
    ensures Serve(env, Conn(s, Input(Bytes(i) + tail, secured), true))
         == Serve(env, Conn(After(env, s, i), Input(tail, secured), true))
  {
    match i
    case Say(c) => StepCommand(env, s, TextOf(c), c, tail, secured);
    case Send(body) => SendArrives(env, s, TextOf(Data), body, tail, secured);
  }

  lemma ScriptFirst(i: Item, more: seq<Item>)
    ensures Script([i] + more) == Bytes(i) + Script(more)
  {
    assert ([i] + more)[1..] == more;
  }

  /** Handling the first of the items. */
  lemma FirstArrives(env: Env, s: State, i: Item, more: seq<Item>, tail: string, secured: seq<string>)
    requires Legible(env, i) && Ready(env, s, i)
    ensures Serve(env, Conn(s, Input(Script([i] + more) + tail, secured), true))
         == Serve(env, Conn(After(env, s, i), Input(Script(more) + tail, secured), true))
  {
    ScriptFirst(i, more);
    Associative(Bytes(i), Script(more), tail);
    ItemArrives(env, s, i, Script(more) + tail, secured);
  }

  /** Whatever a client sends in order is handled in order, and what follows remains to be read. */
  lemma {:induction false} PrefixArrives(env: Env, s: State, items: seq<Item>, more: seq<Item>, tail: string,
                                         secured: seq<string>)
    requires AllReady(env, s, items) && forall i <- items :: Legible(env, i)
    ensures Serve(env, Conn(s, Input(Script(items + more) + tail, secured), true))
         == Serve(env, Conn(AfterAll(env, s, items), Input(Script(more) + tail, secured), true))
    decreases |items|
  {
    if items == [] {
      assert items + more == more;
    } else {
      assert items + more == [items[0]] + (items[1..] + more);
      FirstArrives(env, s, items[0], items[1..] + more, tail, secured);
      PrefixArrives(env, After(env, s, items[0]), items[1..], more, tail, secured);
    }
  }

  lemma ScriptArrives(env: Env, s: State, items: seq<Item>, tail: string, secured: seq<string>)
    requires AllReady(env, s, items) && forall i <- items :: Legible(env, i)
    ensures Serve(env, Conn(s, Input(Script(items) + tail, secured), true))
         == Serve(env, Conn(AfterAll(env, s, items), Input(tail, secured), true))
  {
    PrefixArrives(env, s, items, [], tail, secured);
    assert items + [] == items && Script([]) + tail == tail;
  }

  // ---- Whole transactions ----

  function RcptItems(to: seq<string>): seq<Item> {
    if to == [] then [] else [Say(Rcpt(to[0]))] + RcptItems(to[1..])
  }

  /** Everything a client sends for one message. */
  function Transaction(m: Message): seq<Item> {
    [Say(Mail(m.from))] + (RcptItems(m.to) + [Send(m.body)])
  }

  predicate Sendable(m: Message) {
    && IsAddress(m.from) && m.from != ""
    && |m.to| <= MAX_RECIPIENTS && (forall i :: 0 <= i < |m.to| ==> IsAddress(m.to[i]) && m.to[i] != "")
    && IsLines(m.body)
  }

  /** The recipients the router accepts, when the first is its n-th query. */
  function Approved(env: Env, n: nat, to: seq<string>): seq<string>
    decreases |to|
  {
    if to == [] then []
    else (if env.routes(n, to[0]) then [to[0]] else []) + Approved(env, n + 1, to[1..])
  }

  lemma {:induction false} AfterAppend(env: Env, s: State, a: seq<Item>, b: seq<Item>)
    ensures AfterAll(env, s, a + b) == AfterAll(env, AfterAll(env, s, a), b)
    ensures AllReady(env, s, a + b) <==> AllReady(env, s, a) && AllReady(env, AfterAll(env, s, a), b)
    decreases |a|
  {
    if a == [] {
      assert a + b == b;
    } else {
      AfterAppend(env, After(env, s, a[0]), a[1..], b);
      assert (a + b)[1..] == a[1..] + b;
    }
  }

  lemma AfterFirst(env: Env, s: State, i: Item, more: seq<Item>)
    ensures AfterAll(env, s, [i] + more) == AfterAll(env, After(env, s, i), more)
    ensures AllReady(env, s, [i] + more) <==> Ready(env, s, i) && AllReady(env, After(env, s, i), more)
  {
    assert ([i] + more)[1..] == more;
  }

  /** An envelope with these recipients accepted. */
  predicate Extended(s: State, to: seq<string>, asked: nat, t: State) {
    t.from == s.from && t.rcptTo == s.rcptTo + to && t.queries == s.queries + asked && t.offered == s.offered
  }

  lemma AfterRcpt(env: Env, s: State, to: string, more: seq<Item>) returns (next: State)
    requires to != "" && s.from != "" && |s.rcptTo| < MAX_RECIPIENTS
    ensures Extended(s, if env.routes(s.queries, to) then [to] else [], 1, next)
    ensures AfterAll(env, s, [Say(Rcpt(to))] + more) == AfterAll(env, next, more)
    ensures AllReady(env, s, [Say(Rcpt(to))] + more) <==> AllReady(env, next, more)
  {
    next := RcptStep(env, s, to);
    AfterFirst(env, s, Say(Rcpt(to)), more);
  }

  lemma ExtendedTwice(s: State, a: seq<string>, m: nat, t: State, b: seq<string>, n: nat, u: State)
    requires Extended(s, a, m, t) && Extended(t, b, n, u)
    ensures Extended(s, a + b, m + n, u)
  {
    Associative(s.rcptTo, a, b);
  }

  lemma {:induction false} AfterRcpts(env: Env, s: State, to: seq<string>)
    requires forall i :: 0 <= i < |to| ==> to[i] != ""
    requires s.from != "" && |s.rcptTo| + |to| <= MAX_RECIPIENTS
    ensures AllReady(env, s, RcptItems(to))
    ensures Extended(s, Approved(env, s.queries, to), |to|, AfterAll(env, s, RcptItems(to)))
    decreases |to|
  {
    if to == [] {
    } else {
      var rest := RcptItems(to[1..]);
      var next := AfterRcpt(env, s, to[0], rest);
      AfterRcpts(env, next, to[1..]);
      ApprovedFirst(env, s, to, next, AfterAll(env, next, rest));
    }
  }

  /** The answer to the first recipient, and the answers to the others. */
  lemma ApprovedFirst(env: Env, s: State, to: seq<string>, next: State, last: State)
    requires to != [] && Extended(s, if env.routes(s.queries, to[0]) then [to[0]] else [], 1, next)
    requires Extended(next, Approved(env, next.queries, to[1..]), |to| - 1, last)
    ensures Extended(s, Approved(env, s.queries, to), |to|, last)
  {
    var first := if env.routes(s.queries, to[0]) then [to[0]] else [];
    ExtendedTwice(s, first, 1, next, Approved(env, s.queries + 1, to[1..]), |to| - 1, last);
  }

  /** A message of legal size with a recipient the router accepts, sent at any point of a conversation: the queue is
      offered exactly one copy for each accepted recipient, in order, with the sender and the body that were sent;
      the last reply confirms it exactly when the queue took every copy; and the envelope is closed again. */
  lemma AfterTransaction(env: Env, s: State, m: Message)
    requires Sendable(m) && |m.body| <= env.maxSize && Approved(env, s.queries, m.to) != []
    ensures AllReady(env, s, Transaction(m))
    ensures Closed(env, s, m, AfterAll(env, s, Transaction(m)))
  {
    var rcpts, send := RcptItems(m.to), Send(m.body);
    var mailed := MailStep(s, m.from);
    AfterFirst(env, s, Say(Mail(m.from)), rcpts + [send]);
    AfterRcpts(env, mailed, m.to);
    AfterAppend(env, mailed, rcpts, [send]);
    var ready := AfterAll(env, mailed, rcpts);
    AfterFirst(env, ready, send, []);
    assert [send] + [] == [send];
    DeliverCloses(env, s, m, ready);
  }

  /** What one delivered message leaves behind. */
  predicate Closed(env: Env, s: State, m: Message, after: State) {
    var copies := Copies(m.from, Approved(env, s.queries, m.to), m.body);
    && after.from == "" && after.rcptTo == [] && after.queries == s.queries + |m.to|
    && after.offered == s.offered + copies
    && after.log != []
    && after.log[|after.log| - 1] == Delivered(m.body, AllTaken(env, |s.offered|, |copies|))
  }

  lemma DeliverCloses(env: Env, s: State, m: Message, ready: State)
    requires ready.from == m.from && ready.rcptTo == Approved(env, s.queries, m.to)
    requires ready.queries == s.queries + |m.to| && ready.offered == s.offered
    ensures Closed(env, s, m, Deliver(env, ready, m.body))
  {
  }

  // ---- The listener's parser reads what the client writes ----

  lemma RcptItemsAre(to: seq<string>, i: Item)
    requires i in RcptItems(to)
    ensures exists k :: 0 <= k < |to| && i == Say(Rcpt(to[k]))
  {
    if i == Say(Rcpt(to[0])) {
      assert i == Say(Rcpt(to[0]));
    } else {
      RcptItemsAre(to[1..], i);
      var k :| 0 <= k < |to[1..]| && i == Say(Rcpt(to[1..][k]));
      assert i == Say(Rcpt(to[k + 1]));
    }
  }

  lemma MailLegible(env: Env, from: string)
    requires env.parse == Parse && IsAddress(from)
    ensures Legible(env, Say(Mail(from)))
  {
    MailParses(from);
  }

  lemma RcptLegible(env: Env, to: string)
    requires env.parse == Parse && IsAddress(to)
    ensures Legible(env, Say(Rcpt(to)))
  {
    RcptParses(to);
  }

  lemma SendLegible(env: Env, body: string)
    requires env.parse == Parse && IsLines(body)
    ensures Legible(env, Send(body))
  {
    DataParses();
  }

  lemma TransactionLegible(env: Env, m: Message, i: Item)
    requires env.parse == Parse && Sendable(m) && i in Transaction(m)
    ensures Legible(env, i)
  {
    if i == Say(Mail(m.from)) {
      MailLegible(env, m.from);
    } else if i == Send(m.body) {
      SendLegible(env, m.body);
    } else {
      RcptItemsAre(m.to, i);
      var k :| 0 <= k < |m.to| && i == Say(Rcpt(m.to[k]));
      RcptLegible(env, m.to[k]);
    }
  }

  lemma AtEnd(env: Env, s: State)
    ensures Serve(env, Conn(s, Input("", []), true)).state == s
  {
    assert Step(env, Conn(s, Input("", []), true)) == Conn(s, Input("", []), false);
  }

  /** A conversation that consists of these items alone. */
  lemma ScriptEnds(env: Env, items: seq<Item>)
    requires AllReady(env, FRESH, items) && forall i <- items :: Legible(env, i)
    ensures Serve(env, Conn(FRESH, Input(Script(items), []), true)).state == AfterAll(env, FRESH, items)
  {
    ScriptArrives(env, FRESH, items, "", []);
    assert Script(items) + "" == Script(items);
    AtEnd(env, AfterAll(env, FRESH, items));
  }
}
