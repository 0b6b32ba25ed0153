/** What becomes of every message a client may send, also of one without an accepted recipient or over the limit: the
    listener does not read it, or stops in the middle of it, and takes the rest for commands. */
module SmtpOversize {
  import opened SmtpClient
  import opened SmtpCommand
  import opened SmtpSession
  import opened SmtpWire

  /** A message is read to its end exactly when an envelope is open and the message fits; it is then handed over. Without
      an envelope the reply is 503 and all of it is left to be read as commands. A message that does not fit is answered
      with 451, the envelope stays, and what follows the line that passed the limit is left. */
  lemma BodyConsumedExactly(env: Env, s: State, body: string, tail: string, secured: seq<string>)
    returns (read: string, more: string)
    requires IsLines(body)
    ensures IsLines(more) && body == read + more
    ensures var c := DataStep(env, s, Input(Encode(body) + tail, secured));
            var envelope := s.from != "" && s.rcptTo != [];
            && (c.input.bytes == tail <==> envelope && |body| <= env.maxSize)
            && c == (if !envelope then Conn(Reply(s, Data, 503), Input(Encode(more) + tail, secured), true)
                     else if |body| <= env.maxSize then Conn(Deliver(env, s, body), Input(tail, secured), true)
                     else Conn(Reply(s, Data, 451), Input(Encode(more) + tail, secured), true))
            && (!envelope ==> read == "") && (envelope ==> read != "" || body == "")
  {
    if s.from == "" || s.rcptTo == [] {
      read, more := "", body;
      assert |Encode(more) + tail| > |tail|;
    } else if |body| <= env.maxSize {
      read, more := body, "";
      BodyArrives(env, s, body, tail, secured);
    } else {
      read, more := OversizeLeavesRest(body, tail, env.maxSize, "");
      var rest := Encode(more) + tail;
      DataStops(env, s, Encode(body) + tail, rest, secured);
      assert |rest| > |tail|;
    }
  }

  lemma DataStops(env: Env, s: State, bytes: string, rest: string, secured: seq<string>)
    requires s.from != "" && s.rcptTo != [] && ReadBody(bytes, env.maxSize, "") == TooLarge(rest)
    ensures DataStep(env, s, Input(bytes, secured)) == Conn(Reply(s, Data, 451), Input(rest, secured), true)
  {
  }

  // ---- Every well-formed transaction ----

  /** The envelope of a transaction, before its DATA line. */
  function Header(m: Message): seq<Item> {
    [Say(Mail(m.from))] + RcptItems(m.to)
  }

  lemma AfterHeader(env: Env, s: State, m: Message) returns (ready: State)
    requires Sendable(m)
    ensures AllReady(env, s, Header(m)) && AfterAll(env, s, Header(m)) == ready
    ensures ready.from == m.from && ready.rcptTo == Approved(env, s.queries, m.to)
    ensures ready.queries == s.queries + |m.to| && ready.offered == s.offered
  {
    var mailed := MailStep(s, m.from);
    AfterFirst(env, s, Say(Mail(m.from)), RcptItems(m.to));
    AfterRcpts(env, mailed, m.to);
    ready := AfterAll(env, s, Header(m));
  }

  /** Up to its DATA line every well-formed transaction is handled as sent, whatever follows. */
  lemma HeaderArrives(env: Env, s: State, m: Message, tail: string, secured: seq<string>) returns (ready: State)
    requires env.parse == Parse && Sendable(m)
    ensures ready.from == m.from && ready.rcptTo == Approved(env, s.queries, m.to)
    ensures ready.queries == s.queries + |m.to| && ready.offered == s.offered
    ensures Serve(env, Conn(s, Input(Script(Transaction(m)) + tail, secured), true))
         == Serve(env, DataStep(env, ready, Input(Encode(m.body) + tail, secured)))
  {
    ready := AfterHeader(env, s, m);
    assert Transaction(m) == Header(m) + [Send(m.body)];
    forall i <- Transaction(m) ensures Legible(env, i) { TransactionLegible(env, m, i); }
    PrefixArrives(env, s, Header(m), [Send(m.body)], tail, secured);
    assert Send(m.body) in Transaction(m);
    DataLineArrives(env, ready, m.body, tail, secured);
  }

  lemma DataLineArrives(env: Env, s: State, body: string, tail: string, secured: seq<string>)
    requires Legible(env, Send(body))
    ensures Serve(env, Conn(s, Input(Script([Send(body)]) + tail, secured), true))
         == Serve(env, DataStep(env, s, Input(Encode(body) + tail, secured)))
  {
    ScriptOne(Send(body));
    Associative(CommandLine(TextOf(Data)), Encode(body), tail);
    StepCommand(env, s, TextOf(Data), Data, Encode(body) + tail, secured);
  }

  /** The whole of it, for every well-formed message at any point of a conversation: the bytes of the transaction are used
      up, and the message handed over, exactly when the router accepts a recipient and the message fits. Otherwise
      nothing is offered to the queue by the DATA line, and the bytes of the message from `more` on are read as commands. */
  lemma TransactionArrivesExactly(env: Env, s: State, m: Message, tail: string, secured: seq<string>)
    returns (next: Conn, more: string)
    requires env.parse == Parse && Sendable(m)
    ensures Serve(env, Conn(s, Input(Script(Transaction(m)) + tail, secured), true)) == Serve(env, next)
    ensures next.open && next.input.secured == secured && next.state.queries == s.queries + |m.to|
    ensures IsLines(more) && |more| <= |m.body| && m.body[|m.body| - |more|..] == more
    ensures var accepted, fits := Approved(env, s.queries, m.to) != [], |m.body| <= env.maxSize;
            && (next.input.bytes == tail <==> accepted && fits)
            && (accepted && fits ==> Closed(env, s, m, next.state))
            && (!accepted ==> more == m.body)
            && (accepted && !fits ==> |more| < |m.body|)
            && (!(accepted && fits) ==>
                  && next.input.bytes == Encode(more) + tail && next.state.offered == s.offered
                  && next.state.from == m.from && next.state.rcptTo == Approved(env, s.queries, m.to))
  {
    var ready := HeaderArrives(env, s, m, tail, secured);
    var read;
    read, more := BodyConsumedExactly(env, ready, m.body, tail, secured);
    next := DataStep(env, ready, Input(Encode(m.body) + tail, secured));
    DeliverCloses(env, s, m, ready);
  }

  // ---- A message within a message ----

  /** RCPT lines in front of other text. */
  function RcptsThen(to: seq<string>, last: string): string {
    if to == [] then last else CommandLine(RcptText(to[0])) + RcptsThen(to[1..], last)
  }

  /** A transaction written out as message text. */
  function AsText(m: Message): string {
    CommandLine(MailText(m.from)) + RcptsThen(m.to, CommandLine(TextOf(Data)) + m.body)
  }

  /** A command line in a message is not stuffed. */
  lemma EncodeCommand(text: string, more: string)
    requires IsText(text) && text[0] != '.' && IsLines(more)
    ensures IsLines(CommandLine(text) + more) && Encode(CommandLine(text) + more) == CommandLine(text) + Encode(more)
  {
    TextIsLine(text);
    EncodeLine(CommandLine(text), more);
    assert CommandLine(text)[0] == text[0];
  }

  lemma DataTextEncodes(body: string)
    requires IsLines(body)
    ensures IsLines(CommandLine(TextOf(Data)) + body)
    ensures Encode(CommandLine(TextOf(Data)) + body) == Bytes(Send(body))
  {
    assert IsText("DATA");
    EncodeCommand(TextOf(Data), body);
  }

  /** One more command line in front. */
  lemma EncodeItem(text: string, more: string, i: Item, items: seq<Item>)
    requires IsText(text) && text[0] != '.' && Bytes(i) == CommandLine(text)
    requires IsLines(more) && Encode(more) == Script(items)
    ensures IsLines(CommandLine(text) + more) && Encode(CommandLine(text) + more) == Script([i] + items)
  {
    EncodeCommand(text, more);
    ScriptFirst(i, items);
  }

  lemma {:induction false} RcptsEncode(to: seq<string>, last: string, items: seq<Item>)
    requires IsLines(last) && Encode(last) == Script(items) && forall i :: 0 <= i < |to| ==> IsAddress(to[i])
    ensures IsLines(RcptsThen(to, last)) && Encode(RcptsThen(to, last)) == Script(RcptItems(to) + items)
    decreases |to|
  {
    if to == [] {
      assert RcptItems(to) + items == items;
    } else {
      RcptsEncode(to[1..], last, items);
      RcptStarts(to[0]);
      EncodeItem(RcptText(to[0]), RcptsThen(to[1..], last), Say(Rcpt(to[0])), RcptItems(to[1..]) + items);
      FirstRcpt(to, items);
    }
  }

  lemma FirstRcpt(to: seq<string>, items: seq<Item>)
    requires to != []
    ensures RcptItems(to) + items == [Say(Rcpt(to[0]))] + (RcptItems(to[1..]) + items)
  {
  }

  lemma ScriptOne(i: Item)
    ensures Script([i]) == Bytes(i)
  {
    assert [i][1..] == [];
  }

  lemma CommandStarts(verb: string, word: string, addr: string)
    requires IsVerb(verb) && verb != "" && IsVerb(word) && IsAddress(addr)
    ensures var text := verb + " " + Argument(word, addr); IsText(text) && text[0] == verb[0]
  {
    ArgumentIsText(word, addr);
    VerbIsText(verb, Argument(word, addr));
  }

  lemma RcptStarts(to: string)
    requires IsAddress(to)
    ensures IsText(RcptText(to)) && RcptText(to)[0] == 'R'
  {
    CommandStarts("RCPT", "TO", to);
  }

  lemma MailStarts(from: string)
    requires IsAddress(from)
    ensures IsText(MailText(from)) && MailText(from)[0] == 'M'
  {
    CommandStarts("MAIL", "FROM", from);
  }

  /** Dot-stuffing the text of a transaction gives the bytes of that transaction. */
  lemma TextEncodes(m: Message)
    requires Sendable(m)
    ensures IsLines(AsText(m)) && Encode(AsText(m)) == Script(Transaction(m))
  {
    var last := CommandLine(TextOf(Data)) + m.body;
    DataTextEncodes(m.body);
    ScriptOne(Send(m.body));
    RcptsEncode(m.to, last, [Send(m.body)]);
    MailStarts(m.from);
    EncodeItem(MailText(m.from), RcptsThen(m.to, last), Say(Mail(m.from)), RcptItems(m.to) + [Send(m.body)]);
  }

  /** A well-formed message whose first line is over the limit and whose other lines spell a transaction: the listener
      refuses the message and performs the transaction. */
  lemma InjectedTransaction(env: Env, s: State, first: string, m: Message, tail: string) returns (after: State)
    requires env.parse == Parse && s.from != "" && s.rcptTo != []
    requires IsLine(first) && |first| > env.maxSize
    requires Sendable(m) && |m.body| <= env.maxSize && Approved(env, s.queries, m.to) != []
    ensures IsLines(first + AsText(m))
    ensures var refused := Reply(s, Data, 451);
            && Serve(env, DataStep(env, s, Input(Encode(first + AsText(m)) + tail, [])))
               == Serve(env, Conn(after, Input(tail, []), true))
            && Closed(env, refused, m, after)
  {
    TextEncodes(m);
    EncodeLine(first, AsText(m));
    FirstLineOver(env, s, first, AsText(m), tail);
    var refused, items := Reply(s, Data, 451), Transaction(m);
    AfterTransaction(env, refused, m);
    forall i <- items ensures Legible(env, i) { TransactionLegible(env, m, i); }
    ScriptArrives(env, refused, items, tail, []);
    after := AfterAll(env, refused, items);
  }

  lemma FirstLineOver(env: Env, s: State, first: string, more: string, tail: string)
    requires s.from != "" && s.rcptTo != [] && IsLine(first) && |first| > env.maxSize && IsLines(more)
    ensures IsLines(first + more)
    ensures DataStep(env, s, Input(Encode(first + more) + tail, []))
         == Conn(Reply(s, Data, 451), Input(Encode(more) + tail, []), true)
  {
    ReadFirst(first, more, tail, env.maxSize, "");
    DataStops(env, s, Encode(first + more) + tail, Encode(more) + tail, []);
  }
}
