/** Messages sent back to back on one connection, without waiting for replies. */
module SmtpPipeline {
  import opened SmtpClient
  import opened SmtpCommand
  import opened SmtpOversize
  import opened SmtpSession
  import opened SmtpWire

  /** The bytes of the messages, one after the other. */
  function Pipeline(ms: seq<Message>): string {
    if ms == [] then "" else Script(Transaction(ms[0])) + Pipeline(ms[1..])
  }

  /** The recipients named by the messages. */
  function Named(ms: seq<Message>): nat {
    if ms == [] then 0 else |ms[0].to| + Named(ms[1..])
  }

  /** The copies for the queue, when the router's next query is its n-th. */
  function AllCopies(env: Env, n: nat, ms: seq<Message>): seq<Email>
    decreases |ms|
  {
    if ms == [] then []
    else Copies(ms[0].from, Approved(env, n, ms[0].to), ms[0].body) + AllCopies(env, n + |ms[0].to|, ms[1..])
  }

  /** The message fits and has a recipient the router accepts. */
  predicate Acceptable(env: Env, n: nat, m: Message) {
    |m.body| <= env.maxSize && Approved(env, n, m.to) != []
  }

  predicate AllAcceptable(env: Env, n: nat, ms: seq<Message>)
    decreases |ms|
  {
    ms == [] || (Acceptable(env, n, ms[0]) && AllAcceptable(env, n + |ms[0].to|, ms[1..]))
  }

  /** What the queue was offered for messages that were all acceptable. */
  predicate Arrived(env: Env, s: State, sent: seq<Message>, t: State) {
    AllAcceptable(env, s.queries, sent) && t.offered == s.offered + AllCopies(env, s.queries, sent)
  }

  /** A message that is not acceptable: the envelope stays as far as it got, and the rest of the message is still to be
      read, in front of what follows. */
  predicate Stopped(env: Env, n: nat, m: Message, following: string, more: string, next: Conn) {
    && !Acceptable(env, n, m)
    && IsLines(more) && |more| <= |m.body| && m.body[|m.body| - |more|..] == more
    && next.state.from == m.from && next.state.rcptTo == Approved(env, n, m.to)
    && next.input.bytes == Encode(more) + following
  }

  /** The first of the messages. */
  lemma OneMessage(env: Env, c: Conn, ms: seq<Message>) returns (next: Conn, more: string)
    requires env.parse == Parse && ms != [] && Sendable(ms[0]) && c.open && c.input.bytes == Pipeline(ms)
    ensures Serve(env, c) == Serve(env, next) && next.open && next.input.secured == c.input.secured
    ensures Acceptable(env, c.state.queries, ms[0]) ==>
              next.input.bytes == Pipeline(ms[1..]) && Closed(env, c.state, ms[0], next.state)
    ensures !Acceptable(env, c.state.queries, ms[0]) ==>
              Stopped(env, c.state.queries, ms[0], Pipeline(ms[1..]), more, next) && next.state.offered == c.state.offered
  {
    next, more := TransactionArrivesExactly(env, c.state, ms[0], Pipeline(ms[1..]), c.input.secured);
    assert c == Conn(c.state, Input(Script(Transaction(ms[0])) + Pipeline(ms[1..]), c.input.secured), true);
  }

  lemma ArrivedOneMore(env: Env, s: State, m: Message, t: State, sent: seq<Message>, u: State)
    requires Acceptable(env, s.queries, m) && Closed(env, s, m, t) && Arrived(env, t, sent, u)
    ensures Arrived(env, s, [m] + sent, u) && s.queries + Named([m] + sent) == t.queries + Named(sent)
  {
    assert ([m] + sent)[1..] == sent;
    Associative(s.offered, Copies(m.from, Approved(env, s.queries, m.to), m.body), AllCopies(env, t.queries, sent));
  }

  /** How the conversation goes on: with nothing, or in the middle of the first of the other messages. */
  predicate GoesOn(env: Env, n: nat, rest: seq<Message>, more: string, next: Conn) {
    if rest == [] then next.input.bytes == "" else Stopped(env, n, rest[0], Pipeline(rest[1..]), more, next)
  }

  /** The messages that arrived, and the others. */
  predicate Outcome(env: Env, s: State, ms: seq<Message>, sent: seq<Message>, rest: seq<Message>, more: string, next: Conn) {
    ms == sent + rest && Arrived(env, s, sent, next.state) && GoesOn(env, s.queries + Named(sent), rest, more, next)
  }

  lemma FirstOf(ms: seq<Message>, sent: seq<Message>, rest: seq<Message>)
    requires ms != [] && ms[1..] == sent + rest
    ensures ms == ([ms[0]] + sent) + rest
  {
  }

  lemma OutcomeOneMore(env: Env, s: State, ms: seq<Message>, t: State, sent: seq<Message>, rest: seq<Message>, more: string,
                       next: Conn)
    requires ms != [] && Arrived(env, s, [ms[0]] + sent, next.state)
    requires s.queries + Named([ms[0]] + sent) == t.queries + Named(sent)
    requires Outcome(env, t, ms[1..], sent, rest, more, next)
    ensures Outcome(env, s, ms, [ms[0]] + sent, rest, more, next)
  {
    FirstOf(ms, sent, rest);
  }

  lemma OutcomeNone(env: Env, s: State, ms: seq<Message>, more: string, next: Conn)
    requires next.state.offered == s.offered && GoesOn(env, s.queries, ms, more, next)
    ensures Outcome(env, s, ms, [], ms, more, next)
  {
    assert s.offered + [] == s.offered && [] + ms == ms;
  }

  lemma {:induction false} AcceptableAt(env: Env, n: nat, sent: seq<Message>, rest: seq<Message>)
    requires AllAcceptable(env, n, sent + rest) && rest != []
    ensures Acceptable(env, n + Named(sent), rest[0])
    decreases |sent|
  {
    if sent == [] {
      assert sent + rest == rest;
    } else {
      assert (sent + rest)[1..] == sent[1..] + rest;
      AcceptableAt(env, n + |sent[0].to|, sent[1..], rest);
    }
  }

  /** All of them arrived exactly when every one is acceptable. */
  lemma OutcomeExactly(env: Env, s: State, ms: seq<Message>, sent: seq<Message>, rest: seq<Message>, more: string, next: Conn)
    requires Outcome(env, s, ms, sent, rest, more, next)
    ensures rest == [] <==> AllAcceptable(env, s.queries, ms)
  {
    if rest == [] {
      assert ms == sent;
    } else if AllAcceptable(env, s.queries, ms) {
      AcceptableAt(env, s.queries, sent, rest);
      assert false;
    }
  }

  /** From bytes to queue, for any well-formed messages at any point of a conversation: the messages up to the first that
      does not fit or has no accepted recipient are offered, in order, each once for every accepted recipient, with nothing
      lost, duplicated or mixed between envelopes. That is all of them exactly when every message is acceptable. What is
      left of the first one that is not, and the bytes of the messages after it, are read as commands. */
  lemma {:induction false} PipelinedExactly(env: Env, c: Conn, ms: seq<Message>)
    returns (sent: seq<Message>, rest: seq<Message>, more: string, next: Conn)
    requires env.parse == Parse && (forall i :: 0 <= i < |ms| ==> Sendable(ms[i])) && c.open && c.input.bytes == Pipeline(ms)
    ensures Serve(env, c) == Serve(env, next) && next.open && next.input.secured == c.input.secured
    ensures Outcome(env, c.state, ms, sent, rest, more, next)
    ensures rest == [] <==> AllAcceptable(env, c.state.queries, ms)
    decreases |ms|
  {
    if ms == [] {
      sent, rest, more, next := [], [], "", c;
      OutcomeNone(env, c.state, ms, more, next);
    } else {
      var first, left := OneMessage(env, c, ms);
      if Acceptable(env, c.state.queries, ms[0]) {
        var later;
        later, rest, more, next := PipelinedExactly(env, first, ms[1..]);
        ArrivedOneMore(env, c.state, ms[0], first.state, later, next.state);
        OutcomeOneMore(env, c.state, ms, first.state, later, rest, more, next);
        sent := [ms[0]] + later;
      } else {
        sent, rest, more, next := [], ms, left, first;
        OutcomeNone(env, c.state, ms, more, next);
      }
    }
    OutcomeExactly(env, c.state, ms, sent, rest, more, next);
  }

  /** So a conversation of acceptable messages alone offers exactly their copies. */
  lemma AllArrive(env: Env, ms: seq<Message>)
    requires env.parse == Parse && (forall i :: 0 <= i < |ms| ==> Sendable(ms[i])) && AllAcceptable(env, 0, ms)
    ensures Serve(env, Conn(FRESH, Input(Pipeline(ms), []), true)).state.offered == AllCopies(env, 0, ms)
  {
    var sent, rest, more, next := PipelinedExactly(env, Conn(FRESH, Input(Pipeline(ms), []), true), ms);
    assert sent + [] == sent && FRESH.offered + AllCopies(env, 0, ms) == AllCopies(env, 0, ms);
    assert next == Conn(next.state, Input("", []), true);
    AtEnd(env, next.state);
  }
}
