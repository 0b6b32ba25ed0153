/** What each operation of the hub does to every client: whether it is registered, whether its channel is open, what the
    channel holds and what has been taken out. */
module HubEffects {
  import opened Hub

  /** A client is registered after a registration that finds fewer than five connections of its user, until it is
      unregistered or the hub shuts down. */
  lemma RegisteredAfter(s: State, op: Op, c: Client)
    requires Filed(s)
    ensures Registered(Step(s, op), c) <==>
              match op
              case Register(d) => Registered(s, c) || (c == d && Conns(s, c.user) < 5)
              case Unregister(d) => Registered(s, c) && c != d
              case CloseAll => false
              case _ => Registered(s, c)
  {
  }

  /** The operation closes this client's channel: its registration is refused, it is unregistered, or it is registered when
      the hub shuts down. */
  predicate Closes(s: State, op: Op, c: Client) {
    match op
    case Register(d) => c == d && Conns(s, c.user) >= 5
    case Unregister(d) => c == d
    case CloseAll => Registered(s, c)
    case _ => false
  }

  /** A message goes to the clients registered for the inbox whose channel has room for one more of its 256. */
  predicate Reaches(s: State, op: Op, c: Client)
    requires c in s.channels
  {
    op.Broadcast? && Registered(s, c) && c.inbox == op.inbox && |s.channels[c].buffer| < 256
  }

  predicate Takes(s: State, op: Op, c: Client)
    requires c in s.channels
  {
    op == Receive(c) && s.channels[c].buffer != []
  }

  ghost predicate ChannelIs(s: State, op: Op, c: Client, t: State)
    requires c in s.channels
  {
    var ch := s.channels[c];
    && c in t.channels
    && (t.channels[c].open <==> ch.open && !Closes(s, op, c))
    && t.channels[c].buffer == (if Reaches(s, op, c) then ch.buffer + [op.m]
                                else if Takes(s, op, c) then ch.buffer[1..] else ch.buffer)
    && t.channels[c].received == (if Takes(s, op, c) then ch.received + [ch.buffer[0]] else ch.received)
  }

  lemma BroadcastChannel(s: State, inbox: Inbox, m: Message, c: Client)
    requires Filed(s) && c in s.channels
    ensures ChannelIs(s, Broadcast(inbox, m), c, BroadcastStep(s, inbox, m))
  {
  }

  lemma CloseAllChannel(s: State, c: Client)
    requires Filed(s) && c in s.channels
    ensures ChannelIs(s, CloseAll, c, CloseAllStep(s))
  {
  }

  /** Every channel after every operation: closed by exactly those operations and never opened again, with a message that
      reaches it at the end, and its oldest message moved out by a receive. */
  lemma ChannelAfter(s: State, op: Op, c: Client)
    requires Filed(s) && c in s.channels
    ensures ChannelIs(s, op, c, Step(s, op))
  {
    match op
    case Broadcast(inbox, m) => BroadcastChannel(s, inbox, m, c);
    case CloseAll => CloseAllChannel(s, c);
    case _ =>
  }

  /** A channel comes with a connection, open and empty. */
  lemma NewChannelAfter(s: State, op: Op, c: Client)
    requires Filed(s) && c !in s.channels
    ensures var t := Step(s, op);
            (c in t.channels <==> op == Connect(c)) && (c in t.channels ==> t.channels[c] == Channel(true, [], []))
  {
  }

  /** A broadcast panics exactly when it has a registered client whose channel is closed. */
  lemma PanicAfter(s: State, op: Op)
    ensures Step(s, op).panicked <==>
              || s.panicked
              || (op.Broadcast? && exists c :: c in ClientsOf(s, op.inbox) && c in s.channels && !s.channels[c].open)
  {
  }

  // ---- A client's life ----

  /** An unregistered client is closed for good: nothing reaches it any more, and it can only take out what it holds. */
  predicate Gone(s: State, c: Client) {
    c in s.channels && !s.channels[c].open && !Registered(s, c)
  }

  predicate NotAgain(ops: seq<Op>, c: Client) {
    forall op <- ops :: op != Register(c)
  }

  lemma UnregisterEnds(s: State, c: Client)
    requires Inv(s) && c in s.channels
    ensures Gone(Step(s, Unregister(c)), c) && Inv(Step(s, Unregister(c)))
  {
    StepKeepsExactly(s, Unregister(c));
  }

  /** From then on, over every run that does not register it again: what it has taken out and what it still holds, one
      after the other, stay the same. */
  lemma {:induction false} NothingAfterLeaving(s: State, ops: seq<Op>, c: Client)
    requires Inv(s) && AllFit(s, ops) && Gone(s, c) && NotAgain(ops, c)
    ensures var t := Run(s, ops);
            && Gone(t, c)
            && t.channels[c].received + t.channels[c].buffer == s.channels[c].received + s.channels[c].buffer
    decreases |ops|
  {
    if ops == [] {
    } else {
      var t := Step(s, ops[0]);
      assert ops[0] in ops && forall op <- ops[1..] :: op in ops;
      RegisteredAfter(s, ops[0], c);
      ChannelAfter(s, ops[0], c);
      StepKeepsExactly(s, ops[0]);
      NothingAfterLeaving(t, ops[1..], c);
    }
  }
}
