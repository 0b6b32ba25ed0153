/** The hub with broadcasts that overlap: a broadcast holds the lock for reading only, so several may be under way at once,
    each sending to one client after the other in any order. Everything that changes the hub's maps waits for them. */
module HubOverlap {
  import H = Hub

  /** A broadcast that has begun; it is named by its place in the order of beginnings. */
  datatype Cast = Cast(inbox: H.Inbox, m: H.Message)

  /** `active` gives, for each broadcast under way, the clients it has yet to send to. `got` lists, for each client, the
      broadcasts whose message its channel took. */
  datatype State = State(hub: H.State, begun: seq<Cast>, active: map<nat, set<H.Client>>, got: map<H.Client, seq<nat>>)

  datatype Op =
    | Locked(op: H.Op)                     // Register, Unregister and CloseAll, which wait; Connect and Receive, which do not
    | Begin(inbox: H.Inbox, m: H.Message)
    | Send(cast: nat, client: H.Client)
    | End(cast: nat)

  const EMPTY := State(H.EMPTY, [], map[], map[])

  function Got(s: State, c: H.Client): seq<nat> {
    if c in s.got then s.got[c] else []
  }

  predicate Waits(op: H.Op) {
    op.Register? || op.Unregister? || op.CloseAll?
  }

  predicate CanSend(s: State, b: nat, c: H.Client) {
    b in s.active && b < |s.begun| && c in s.active[b] && c in s.hub.channels
  }

  /** The channel has room for the message. */
  predicate Taken(s: State, b: nat, c: H.Client) {
    CanSend(s, b, c) && |s.hub.channels[c].buffer| < H.BUFFER
  }

  /** A send on a closed channel panics, one on a full channel is skipped. */
  function SendStep(s: State, b: nat, c: H.Client): State
    requires CanSend(s, b, c)
  {
    var ch := s.hub.channels[c];
    s.(hub := s.hub.(channels := s.hub.channels[c := H.Deliver(ch, s.begun[b].m)], panicked := s.hub.panicked || !ch.open),
       active := s.active[b := s.active[b] - {c}],
       got := if Taken(s, b, c) then s.got[c := Got(s, c) + [b]] else s.got)
  }

  /** Steps that cannot be made change nothing. */
  function Step(s: State, op: Op): State {
    match op
    case Locked(o) =>
      if o.Broadcast? || (Waits(o) && s.active != map[]) then s else s.(hub := H.Step(s.hub, o))
    case Begin(inbox, m) =>
      s.(begun := s.begun + [Cast(inbox, m)], active := s.active[|s.begun| := H.ClientsOf(s.hub, inbox)])
    case Send(b, c) => if CanSend(s, b, c) then SendStep(s, b, c) else s
    case End(b) => if b in s.active && s.active[b] == {} then s.(active := s.active - {b}) else s
  }

  function Run(s: State, ops: seq<Op>): State
    decreases |ops|
  {
    if ops == [] then s else Run(Step(s, ops[0]), ops[1..])
  }

  // ---- Invariant ----

  function Messages(begun: seq<Cast>, bs: seq<nat>): seq<H.Message>
    requires forall i :: 0 <= i < |bs| ==> bs[i] < |begun|
  {
    seq(|bs|, i requires 0 <= i < |bs| => begun[bs[i]].m)
  }

  function Content(ch: H.Channel): seq<H.Message> {
    ch.received + ch.buffer
  }

  /** A broadcast under way sends to registered clients of its inbox. */
  predicate ActiveOk(s: State) {
    forall b :: b in s.active ==> b < |s.begun| && s.active[b] <= H.ClientsOf(s.hub, s.begun[b].inbox)
  }

  /** The client took broadcasts to its own inbox, each once, and none that has yet to be sent to it. */
  predicate GotOk(s: State, c: H.Client) {
    var got := Got(s, c);
    && (forall i :: 0 <= i < |got| ==>
          && got[i] < |s.begun| && s.begun[got[i]].inbox == c.inbox
          && (got[i] in s.active ==> c !in s.active[got[i]]))
    && (forall i, j :: 0 <= i < j < |got| ==> got[i] != got[j])
  }

  /** What went through the client's channel is what it took, in the order it took it. */
  predicate HoldsGot(s: State, c: H.Client)
    requires GotOk(s, c)
  {
    if c in s.hub.channels then Content(s.hub.channels[c]) == Messages(s.begun, Got(s, c)) else Got(s, c) == []
  }

  ghost predicate Inv(s: State) {
    H.Inv(s.hub) && ActiveOk(s) && forall c :: GotOk(s, c) && HoldsGot(s, c)
  }

  /** A registration that is let through is of a fit client. */
  predicate Fit(s: State, op: Op) {
    op.Locked? && op.op.Register? && s.active == map[] ==> H.FitToRegister(s.hub, op.op.c)
  }

  lemma SameContent(hub: H.State, op: H.Op, c: H.Client)
    requires !op.Broadcast?
    ensures var t := H.Step(hub, op);
            && (c in hub.channels ==> c in t.channels && Content(t.channels[c]) == Content(hub.channels[c]))
            && (c !in hub.channels && c in t.channels ==> Content(t.channels[c]) == [])
  {
    if op.Receive? && op.c == c && c in hub.channels && hub.channels[c].buffer != [] {
      var ch := hub.channels[c];
      assert ch.received + [ch.buffer[0]] + ch.buffer[1..] == ch.received + ch.buffer;
    }
  }

  lemma LockedKeeps(s: State, op: H.Op)
    requires Inv(s) && !op.Broadcast? && (Waits(op) ==> s.active == map[])
    requires op.Register? ==> H.FitToRegister(s.hub, op.c)
    ensures Inv(s.(hub := H.Step(s.hub, op)))
  {
    var t := s.(hub := H.Step(s.hub, op));
    H.StepKeepsExactly(s.hub, op);
    forall c ensures GotOk(t, c) && HoldsGot(t, c) {
      assert GotOk(s, c) && HoldsGot(s, c);
      SameContent(s.hub, op, c);
    }
  }

  lemma BeginKeeps(s: State, inbox: H.Inbox, m: H.Message)
    requires Inv(s)
    ensures Inv(Step(s, Begin(inbox, m)))
  {
    var t := Step(s, Begin(inbox, m));
    forall c ensures GotOk(t, c) && HoldsGot(t, c) {
      assert GotOk(s, c) && HoldsGot(s, c);
      assert Messages(t.begun, Got(s, c)) == Messages(s.begun, Got(s, c));
    }
  }

  lemma EndKeeps(s: State, b: nat)
    requires Inv(s)
    ensures Inv(Step(s, End(b)))
  {
    var t := Step(s, End(b));
    forall c ensures GotOk(t, c) && HoldsGot(t, c) { assert GotOk(s, c) && HoldsGot(s, c); }
  }

  lemma SendHub(s: State, b: nat, c: H.Client)
    requires Inv(s) && CanSend(s, b, c)
    ensures H.Inv(SendStep(s, b, c).hub) && ActiveOk(SendStep(s, b, c))
  {
    H.FrameKeeps(s.hub, SendStep(s, b, c).hub);
  }

  lemma SendGotOk(s: State, b: nat, c: H.Client, d: H.Client)
    requires CanSend(s, b, c) && c.inbox == s.begun[b].inbox && GotOk(s, d)
    ensures GotOk(SendStep(s, b, c), d)
  {
    var t := SendStep(s, b, c);
    var got: seq<nat> := Got(s, d);
    var got': seq<nat> := Got(t, d);
    assert got' == if d == c && Taken(s, b, c) then got + [b] else got;
    assert d == c ==> forall i :: 0 <= i < |got| ==> got[i] != b;
    forall i | 0 <= i < |got'|
      ensures got'[i] < |t.begun| && t.begun[got'[i]].inbox == d.inbox && (got'[i] in t.active ==> d !in t.active[got'[i]])
    {
      if i < |got| { assert got'[i] == got[i]; }
    }
    forall i, j | 0 <= i < j < |got'| ensures got'[i] != got'[j] {
      assert got'[i] == got[i];
    }
  }

  lemma MessagesSnoc(begun: seq<Cast>, bs: seq<nat>, b: nat)
    requires (forall i :: 0 <= i < |bs| ==> bs[i] < |begun|) && b < |begun|
    ensures Messages(begun, bs + [b]) == Messages(begun, bs) + [begun[b].m]
  {
  }

  lemma DeliverContent(ch: H.Channel, m: H.Message)
    ensures Content(H.Deliver(ch, m)) == if |ch.buffer| < H.BUFFER then Content(ch) + [m] else Content(ch)
  {
  }

  lemma SendGot(s: State, b: nat, c: H.Client, d: H.Client)
    requires CanSend(s, b, c) && c.inbox == s.begun[b].inbox && GotOk(s, d) && HoldsGot(s, d)
    ensures var t := SendStep(s, b, c); GotOk(t, d) && HoldsGot(t, d)
  {
    SendGotOk(s, b, c, d);
    if d == c {
      DeliverContent(s.hub.channels[c], s.begun[b].m);
      MessagesSnoc(s.begun, Got(s, c), b);
    }
  }

  /** Every step keeps the hub sound and each client's channel in step with what was broadcast, if and only if it does not
      register an unfit client. */
  lemma StepKeepsExactly(s: State, op: Op)
    requires Inv(s)
    ensures Inv(Step(s, op)) <==> Fit(s, op)
  {
    match op
    case Locked(o) =>
      if !o.Broadcast? && (Waits(o) ==> s.active == map[]) {
        H.StepKeepsExactly(s.hub, o);
        if Fit(s, op) { LockedKeeps(s, o); }
      }
    case Begin(inbox, m) => BeginKeeps(s, inbox, m);
    case Send(b, c) =>
      if CanSend(s, b, c) {
        SendHub(s, b, c);
        assert c.inbox == s.begun[b].inbox;
        forall d ensures GotOk(SendStep(s, b, c), d) && HoldsGot(SendStep(s, b, c), d) { SendGot(s, b, c, d); }
      }
    case End(b) => EndKeeps(s, b);
  }

  predicate AllFit(s: State, ops: seq<Op>)
    decreases |ops|
  {
    ops != [] ==> Fit(s, ops[0]) && AllFit(Step(s, ops[0]), ops[1..])
  }

  ghost predicate SoundThroughout(s: State, ops: seq<Op>)
    decreases |ops|
  {
    Inv(s) && (ops != [] ==> SoundThroughout(Step(s, ops[0]), ops[1..]))
  }

  /** Over every interleaving, overlapping broadcasts included, the hub stays sound in every state if and only if every
      registration was of a fit client. */
  lemma {:induction false} RunSoundExactly(s: State, ops: seq<Op>)
    requires Inv(s)
    ensures SoundThroughout(s, ops) <==> AllFit(s, ops)
    decreases |ops|
  {
    if ops == [] {
    } else {
      StepKeepsExactly(s, ops[0]);
      if Fit(s, ops[0]) { RunSoundExactly(Step(s, ops[0]), ops[1..]); }
    }
  }

  lemma {:induction false} SoundAtEnd(s: State, ops: seq<Op>)
    requires SoundThroughout(s, ops)
    ensures Inv(Run(s, ops))
    decreases |ops|
  {
    if ops == [] {
    } else {
      SoundAtEnd(Step(s, ops[0]), ops[1..]);
    }
  }

  lemma EmptyInv()
    ensures Inv(EMPTY)
  {
    assert forall u :: H.OfUser(H.EMPTY, u) == {};
    assert forall u :: H.Counted(H.EMPTY, u);
  }

  /** What every client can rely on, over every interleaving of fit registrations: no send meets a closed channel, and what
      it has received and will receive are messages broadcast to its inbox, each broadcast at most once. */
  lemma EachAtMostOnce(ops: seq<Op>, c: H.Client)
    requires AllFit(EMPTY, ops)
    ensures var s := Run(EMPTY, ops);
            && !s.hub.panicked && GotOk(s, c)
            && (c in s.hub.channels ==> Content(s.hub.channels[c]) == Messages(s.begun, Got(s, c)))
  {
    EmptyInv();
    RunSoundExactly(EMPTY, ops);
    SoundAtEnd(EMPTY, ops);
    var s := Run(EMPTY, ops);
    assert GotOk(s, c) && HoldsGot(s, c);
  }

  // ---- Order ----

  predicate Ascending(bs: seq<nat>) {
    forall i, j :: 0 <= i < j < |bs| ==> bs[i] < bs[j]
  }

  /** The client takes a broadcast after one that began later. */
  predicate Overtaken(s: State, op: Op, c: H.Client) {
    op.Send? && op.client == c && Taken(s, op.cast, c) && exists b :: b in Got(s, c) && b > op.cast
  }

  lemma StepOrderExactly(s: State, op: Op, c: H.Client)
    requires GotOk(s, c) && Ascending(Got(s, c))
    ensures Ascending(Got(Step(s, op), c)) <==> !Overtaken(s, op, c)
  {
    if op.Send? && op.client == c && Taken(s, op.cast, c) {
      var b, got := op.cast, Got(s, c);
      assert Got(Step(s, op), c) == got + [b];
      assert b !in got;
      SnocAscending(got, b);
    }
  }

  lemma SnocAscending(bs: seq<nat>, b: nat)
    requires Ascending(bs) && b !in bs
    ensures Ascending(bs + [b]) <==> !exists a :: a in bs && a > b
  {
    if a :| a in bs && a > b {
      var i :| 0 <= i < |bs| && bs[i] == a;
      assert (bs + [b])[i] > (bs + [b])[|bs|];
    } else {
      assert forall i :: 0 <= i < |bs| ==> bs[i] in bs && bs[i] < b;
    }
  }

  predicate NeverOvertaken(s: State, ops: seq<Op>, c: H.Client)
    decreases |ops|
  {
    ops != [] ==> !Overtaken(s, ops[0], c) && NeverOvertaken(Step(s, ops[0]), ops[1..], c)
  }

  predicate InOrderThroughout(s: State, ops: seq<Op>, c: H.Client)
    decreases |ops|
  {
    Ascending(Got(s, c)) && (ops != [] ==> InOrderThroughout(Step(s, ops[0]), ops[1..], c))
  }

  /** A client receives its messages in the order in which the broadcasts began, throughout a run, if and only if none of
      them reaches it after a later one. */
  lemma {:induction false} RunInOrderExactly(s: State, ops: seq<Op>, c: H.Client)
    requires Inv(s) && AllFit(s, ops) && Ascending(Got(s, c))
    ensures InOrderThroughout(s, ops, c) <==> NeverOvertaken(s, ops, c)
    decreases |ops|
  {
    if ops == [] {
    } else {
      assert GotOk(s, c);
      StepKeepsExactly(s, ops[0]);
      StepOrderExactly(s, ops[0], c);
      if !Overtaken(s, ops[0], c) { RunInOrderExactly(Step(s, ops[0]), ops[1..], c); }
    }
  }

  /** A broadcast begins only when none to the same inbox is under way, as when one goroutine makes them all. */
  predicate Serial(s: State, op: Op) {
    op.Begin? ==> forall b :: b in s.active && b < |s.begun| ==> s.begun[b].inbox != op.inbox
  }

  predicate AllSerial(s: State, ops: seq<Op>)
    decreases |ops|
  {
    ops != [] ==> Serial(s, ops[0]) && AllSerial(Step(s, ops[0]), ops[1..])
  }

  /** The broadcast under way is the last one to its inbox. */
  predicate Latest(s: State) {
    forall a, b: nat :: a in s.active && a < |s.begun| && b < |s.begun| && s.begun[b].inbox == s.begun[a].inbox ==> b <= a
  }

  lemma StepLatest(s: State, op: Op)
    requires ActiveOk(s) && Latest(s) && Serial(s, op)
    ensures Latest(Step(s, op))
  {
  }

  lemma LatestNotOvertaken(s: State, op: Op, c: H.Client)
    requires Inv(s) && Latest(s)
    ensures !Overtaken(s, op, c)
  {
    assert GotOk(s, c);
    if op.Send? && op.client == c && Taken(s, op.cast, c) {
      assert c.inbox == s.begun[op.cast].inbox;
      forall b | b in Got(s, c) ensures b <= op.cast {
        var i :| 0 <= i < |Got(s, c)| && Got(s, c)[i] == b;
      }
    }
  }

  /** So with one broadcast at a time to each inbox every client receives in order. */
  lemma {:induction false} SerialInOrder(s: State, ops: seq<Op>, c: H.Client)
    requires Inv(s) && Latest(s) && AllFit(s, ops) && AllSerial(s, ops)
    ensures NeverOvertaken(s, ops, c)
    decreases |ops|
  {
    if ops == [] {
    } else {
      StepKeepsExactly(s, ops[0]);
      StepLatest(s, ops[0]);
      LatestNotOvertaken(s, ops[0], c);
      SerialInOrder(Step(s, ops[0]), ops[1..], c);
    }
  }

  // ---- One broadcast, uninterrupted ----

  function Sends(b: nat, cs: seq<H.Client>): seq<Op> {
    if cs == [] then [] else [Send(b, cs[0])] + Sends(b, cs[1..])
  }

  predicate Distinct(cs: seq<H.Client>) {
    forall i, j :: 0 <= i < j < |cs| ==> cs[i] != cs[j]
  }

  function Members(cs: seq<H.Client>): set<H.Client> {
    set c | c in cs
  }

  lemma DeliverOneMore(channels: map<H.Client, H.Channel>, c: H.Client, rest: set<H.Client>, m: H.Message)
    requires c in channels && c !in rest
    ensures H.DeliverTo(channels[c := H.Deliver(channels[c], m)], rest, m) == H.DeliverTo(channels, {c} + rest, m)
  {
  }

  /** Sending to distinct clients one after the other does what delivering to all of them at once would. */
  lemma {:induction false} SendsDeliver(s: State, b: nat, cs: seq<H.Client>)
    requires b in s.active && b < |s.begun| && Distinct(cs) && Members(cs) == s.active[b] <= s.hub.channels.Keys
    ensures var t := Run(s, Sends(b, cs));
            && t.hub.channels == H.DeliverTo(s.hub.channels, Members(cs), s.begun[b].m)
            && t.hub.clients == s.hub.clients && t.hub.userConns == s.hub.userConns
            && t.active == s.active[b := {}] && t.begun == s.begun
    decreases |cs|
  {
    if cs == [] {
      assert Members(cs) == {} && s.active == s.active[b := {}];
    } else {
      var c, rest := cs[0], cs[1..];
      assert c in Members(cs);
      var t := SendStep(s, b, c);
      assert Sends(b, cs)[1..] == Sends(b, rest);
      RestMembers(cs);
      SendsDeliver(t, b, rest);
      DeliverOneMore(s.hub.channels, c, Members(rest), s.begun[b].m);
    }
  }

  lemma RestMembers(cs: seq<H.Client>)
    requires cs != [] && Distinct(cs)
    ensures Distinct(cs[1..]) && cs[0] !in Members(cs[1..]) && Members(cs) == {cs[0]} + Members(cs[1..])
    ensures Members(cs[1..]) == Members(cs) - {cs[0]}
  {
    assert forall i :: 0 <= i < |cs[1..]| ==> cs[1..][i] == cs[i + 1];
  }

  /** A broadcast that is not interrupted, in whatever order it visits the clients, is the single step of the hub. */
  lemma UninterruptedIsOneStep(s: State, inbox: H.Inbox, m: H.Message, cs: seq<H.Client>)
    requires Inv(s) && Distinct(cs) && Members(cs) == H.ClientsOf(s.hub, inbox)
    ensures var b := |s.begun|;
            var t := Step(Run(Step(s, Begin(inbox, m)), Sends(b, cs)), End(b));
            var one := H.BroadcastStep(s.hub, inbox, m);
            t.hub.channels == one.channels && t.hub.clients == one.clients && t.hub.userConns == one.userConns
            && t.active == s.active
  {
    var b := |s.begun|;
    assert b !in s.active;
    SendsDeliver(Step(s, Begin(inbox, m)), b, cs);
  }

  // ---- Two clients, opposite orders ----

  /** Two registered clients of an inbox and two overlapping broadcasts: each client gets both, in opposite orders. */
  lemma OppositeOrders(s: State, c: H.Client, d: H.Client, x: H.Message, y: H.Message)
    requires c != d && c.inbox == d.inbox && s.begun == [] && s.active == map[] && s.got == map[]
    requires H.ClientsOf(s.hub, c.inbox) == {c, d} && {c, d} <= s.hub.channels.Keys
    requires s.hub.channels[c].buffer == s.hub.channels[d].buffer == []
    ensures var ops := [Begin(c.inbox, x), Begin(c.inbox, y), Send(0, c), Send(1, d), Send(1, c), Send(0, d)];
            Got(Run(s, ops), c) == [0, 1] && Got(Run(s, ops), d) == [1, 0]
  {
    var ops := [Begin(c.inbox, x), Begin(c.inbox, y), Send(0, c), Send(1, d), Send(1, c), Send(0, d)];
    var s2 := Step(Step(s, ops[0]), ops[1]);
    assert s2 == s.(begun := [Cast(c.inbox, x), Cast(c.inbox, y)], active := map[0 := {c, d}, 1 := {c, d}]);
    var s3 := Step(s2, ops[2]);
    SendTakes(s2, 0, c, d);
    var s4 := Step(s3, ops[3]);
    SendTakes(s3, 1, d, c);
    var s5 := Step(s4, ops[4]);
    SendTakes(s4, 1, c, d);
    SendTakes(s5, 0, d, c);
    Unroll(s, ops);
  }

  /** A send with room, and a client it does not concern. */
  lemma SendTakes(s: State, b: nat, c: H.Client, d: H.Client)
    requires Taken(s, b, c) && d != c && d in s.hub.channels
    ensures var t := Step(s, Send(b, c));
            && Got(t, c) == Got(s, c) + [b] && Got(t, d) == Got(s, d)
            && c in t.hub.channels && |t.hub.channels[c].buffer| == |s.hub.channels[c].buffer| + 1
            && d in t.hub.channels && t.hub.channels[d] == s.hub.channels[d]
            && t.active == s.active[b := s.active[b] - {c}] && t.begun == s.begun
  {
  }

  lemma Unroll(s: State, ops: seq<Op>)
    requires |ops| == 6
    ensures Run(s, ops) == Step(Step(Step(Step(Step(Step(s, ops[0]), ops[1]), ops[2]), ops[3]), ops[4]), ops[5])
  {
    var s1 := Step(s, ops[0]);
    var s2 := Step(s1, ops[1]);
    var s3 := Step(s2, ops[2]);
    var s4 := Step(s3, ops[3]);
    var s5 := Step(s4, ops[4]);
    var s6 := Step(s5, ops[5]);
    assert Run(s5, ops[5..]) == s6 by { assert ops[5..][1..] == []; }
    assert Run(s4, ops[4..]) == s6 by { assert ops[4..][1..] == ops[5..]; }
    assert Run(s3, ops[3..]) == s6 by { assert ops[3..][1..] == ops[4..]; }
    assert Run(s2, ops[2..]) == s6 by { assert ops[2..][1..] == ops[3..]; }
    assert Run(s1, ops[1..]) == s6 by { assert ops[1..][1..] == ops[2..]; }
  }

  /** A step panics exactly when it sends to a client whose channel is closed. */
  lemma PanicExactly(s: State, op: Op)
    ensures Step(s, op).hub.panicked <==>
              || s.hub.panicked
              || (op.Send? && CanSend(s, op.cast, op.client) && !s.hub.channels[op.client].open)
  {
    if op.Locked? && !op.op.Broadcast? { LockedNeverPanics(s.hub, op.op); }
  }

  lemma LockedNeverPanics(hub: H.State, op: H.Op)
    requires !op.Broadcast?
    ensures H.Step(hub, op).panicked == hub.panicked
  {
  }
}
