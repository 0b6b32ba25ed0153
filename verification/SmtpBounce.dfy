/** Two departures from RFC 5321, from the bytes on: the null reverse-path of bounces is refused (section 4.5.5 asks for it
    to be taken), and a greeting does not clear the envelope (section 4.1.4 asks for that). */
module SmtpBounce {
  import opened SmtpClient
  import opened SmtpCommand
  import opened SmtpOversize
  import opened SmtpSession
  import opened SmtpWire

  /** A line `MAIL FROM:<address>` opens an envelope exactly when the address is not empty; what follows remains. */
  lemma MailLineExactly(env: Env, s: State, from: string, tail: string, secured: seq<string>) returns (next: State)
    requires env.parse == Parse && IsAddress(from)
    ensures Serve(env, Conn(s, Input(CommandLine(MailText(from)) + tail, secured), true))
         == Serve(env, Conn(next, Input(tail, secured), true))
    ensures next.log == s.log + [Replied(Mail(from), if from == "" then 501 else 250)]
    ensures from != "" ==> next.from == from && next.rcptTo == []
    ensures from == "" ==> next == Reply(s, Mail(""), 501)
  {
    MailParses(from);
    StepCommand(env, s, MailText(from), Mail(from), tail, secured);
    next := MailStep(s, from);
  }

  /** Without an envelope recipients are refused before the router is asked. */
  predicate Untouched(s: State, t: State) {
    t.from == s.from && t.rcptTo == s.rcptTo && t.queries == s.queries && t.offered == s.offered
  }

  lemma {:induction false} ClosedRcpts(env: Env, s: State, to: seq<string>)
    requires s.from == ""
    ensures AllReady(env, s, RcptItems(to)) && Untouched(s, AfterAll(env, s, RcptItems(to)))
    decreases |to|
  {
    if to == [] {
    } else {
      AfterFirst(env, s, Say(Rcpt(to[0])), RcptItems(to[1..]));
      ClosedRcpts(env, RcptStep(env, s, to[0]), to[1..]);
    }
  }

  lemma BounceHeader(env: Env, s: State, m: Message) returns (ready: State)
    requires s.from == "" && m.from == ""
    ensures AllReady(env, s, Header(m)) && AfterAll(env, s, Header(m)) == ready && Untouched(s, ready)
  {
    var mailed := MailStep(s, "");
    AfterFirst(env, s, Say(Mail("")), RcptItems(m.to));
    ClosedRcpts(env, mailed, m.to);
    ready := AfterAll(env, s, Header(m));
  }

  lemma BounceLegible(env: Env, m: Message, i: Item)
    requires env.parse == Parse && m.from == "" && (forall k :: 0 <= k < |m.to| ==> IsAddress(m.to[k]))
    requires i in Header(m)
    ensures Legible(env, i)
  {
    if i == Say(Mail(m.from)) {
      MailLegible(env, m.from);
    } else {
      RcptItemsAre(m.to, i);
      var k :| 0 <= k < |m.to| && i == Say(Rcpt(m.to[k]));
      RcptLegible(env, m.to[k]);
    }
  }

  /** A bounce, that is any message with the null reverse-path, sent while no envelope is open: the router is not asked, the
      queue is offered nothing, and the message itself is read as commands. */
  lemma BounceReadAsCommands(env: Env, s: State, m: Message, tail: string, secured: seq<string>) returns (next: State)
    requires env.parse == Parse && s.from == "" && m.from == "" && IsLines(m.body)
    requires forall k :: 0 <= k < |m.to| ==> IsAddress(m.to[k])
    ensures Serve(env, Conn(s, Input(Script(Transaction(m)) + tail, secured), true))
         == Serve(env, Conn(next, Input(Encode(m.body) + tail, secured), true))
    ensures Untouched(s, next)
  {
    var ready := BounceHeader(env, s, m);
    assert Transaction(m) == Header(m) + [Send(m.body)];
    forall i <- Header(m) ensures Legible(env, i) { BounceLegible(env, m, i); }
    PrefixArrives(env, s, Header(m), [Send(m.body)], tail, secured);
    SendLegible(env, m.body);
    DataLineArrives(env, ready, m.body, tail, secured);
    next := Reply(ready, Data, 503);
  }

  // ---- Greetings ----

  lemma GreetingParses(verb: string, arg: string)
    requires (verb == "HELO" || verb == "EHLO") && IsText(arg)
    ensures var text := verb + " " + arg; IsText(text) && Parse(text) == if verb == "HELO" then Helo else Ehlo
  {
    VerbIsText(verb, arg);
    ParseVerb(verb, arg);
    FirstDiffers("HELO", "EHLO");
  }

  /** A greeting line keeps the envelope, so it does what a reset would exactly when none was open. */
  lemma GreetingKeepsEnvelope(env: Env, s: State, verb: string, arg: string, tail: string, secured: seq<string>)
    returns (c: Command)
    requires env.parse == Parse && Inv(env, s) && (verb == "HELO" || verb == "EHLO") && IsText(arg)
    ensures Serve(env, Conn(s, Input(CommandLine(verb + " " + arg) + tail, secured), true))
         == Serve(env, Conn(Reply(s, c, 250), Input(tail, secured), true))
    ensures Reply(s, c, 250) == Reply(Clear(s), c, 250) <==> s.from == ""
  {
    GreetingParses(verb, arg);
    c := if verb == "HELO" then Helo else Ehlo;
    StepCommand(env, s, verb + " " + arg, c, tail, secured);
  }
}
