/** The WebSocket hub: clients by inbox, connection counts by user, and the channels that messages go out on.
    Every operation runs under the hub's lock and is one step. Broadcast holds the lock for reading only; broadcasts that
    overlap are in HubOverlap. */
module Hub {
  const MAX_CONNECTIONS := 5
  const BUFFER := 256

  type Inbox = nat
  type User = nat
  type Message = string

  /** A client's identity and fixed fields. */
  datatype Client = Client(id: nat, inbox: Inbox, user: User)

  /** A client's channel: what it buffers, and what its writer has taken out so far. */
  datatype Channel = Channel(open: bool, buffer: seq<Message>, received: seq<Message>)

  datatype State = State(clients: map<Inbox, set<Client>>, userConns: map<User, int>, channels: map<Client, Channel>,
                         sent: map<Inbox, seq<Message>>, panicked: bool)

  datatype Op = Connect(c: Client) | Register(c: Client) | Unregister(c: Client)
              | Broadcast(inbox: Inbox, m: Message) | Receive(c: Client) | CloseAll

  const EMPTY := State(map[], map[], map[], map[], false)

  // ---- Queries ----

  function ClientsOf(s: State, inbox: Inbox): set<Client> {
    if inbox in s.clients then s.clients[inbox] else {}
  }

  predicate Registered(s: State, c: Client) {
    c in ClientsOf(s, c.inbox)
  }

  function Conns(s: State, u: User): int {
    if u in s.userConns then s.userConns[u] else 0
  }

  function Sent(s: State, inbox: Inbox): seq<Message> {
    if inbox in s.sent then s.sent[inbox] else []
  }

  /** All registered clients of a user, across inboxes. */
  function OfUser(s: State, u: User): set<Client> {
    set i, c | i in s.clients && c in s.clients[i] && c.user == u :: c
  }

  // ---- Steps ----

  function Close(channels: map<Client, Channel>, c: Client): map<Client, Channel> {
    if c in channels then channels[c := channels[c].(open := false)] else channels
  }

  function RegisterStep(s: State, c: Client): (State, bool) {
    if Conns(s, c.user) >= MAX_CONNECTIONS then (s.(channels := Close(s.channels, c)), false)
    else
      (s.(clients := s.clients[c.inbox := ClientsOf(s, c.inbox) + {c}],
          userConns := s.userConns[c.user := Conns(s, c.user) + 1]), true)
  }

  function Leave(s: State, c: Client): State {
    var rest := ClientsOf(s, c.inbox) - {c};
    var conns := Conns(s, c.user) - 1;
    s.(clients := if rest == {} then s.clients - {c.inbox} else s.clients[c.inbox := rest],
       userConns := if conns <= 0 then s.userConns - {c.user} else s.userConns[c.user := conns])
  }

  function UnregisterStep(s: State, c: Client): State {
    var t := if Registered(s, c) then Leave(s, c)
             else if c.inbox in s.clients && s.clients[c.inbox] == {} then s.(clients := s.clients - {c.inbox})
             else s;
    t.(channels := Close(s.channels, c))
  }

  /** A send that does not block: a full buffer is skipped. */
  function Deliver(ch: Channel, m: Message): Channel {
    if |ch.buffer| < BUFFER then ch.(buffer := ch.buffer + [m]) else ch
  }

  function DeliverTo(channels: map<Client, Channel>, to: set<Client>, m: Message): map<Client, Channel> {
    map c | c in channels :: if c in to then Deliver(channels[c], m) else channels[c]
  }

  function BroadcastStep(s: State, inbox: Inbox, m: Message): State {
    var to := ClientsOf(s, inbox);
    s.(channels := DeliverTo(s.channels, to, m),
       sent := s.sent[inbox := Sent(s, inbox) + [m]],
       panicked := s.panicked || exists c :: c in to && c in s.channels && !s.channels[c].open)
  }

  function ReceiveStep(s: State, c: Client): State {
    if c in s.channels && s.channels[c].buffer != [] then
      var ch := s.channels[c];
      s.(channels := s.channels[c := ch.(buffer := ch.buffer[1..], received := ch.received + [ch.buffer[0]])])
    else s
  }

  function ClientsIn(clients: map<Inbox, set<Client>>, inboxes: set<Inbox>): set<Client> {
    set i, c | i in inboxes && i in clients && c in clients[i] :: c
  }

  function CloseThese(channels: map<Client, Channel>, these: set<Client>): map<Client, Channel> {
    map c | c in channels :: if c in these then channels[c].(open := false) else channels[c]
  }

  function CloseAllStep(s: State): State {
    s.(clients := map[], userConns := map[],
       channels := CloseThese(s.channels, ClientsIn(s.clients, s.clients.Keys)))
  }

  function Step(s: State, op: Op): State {
    match op
    case Connect(c) => if c in s.channels then s else s.(channels := s.channels[c := Channel(true, [], [])])
    case Register(c) => RegisterStep(s, c).0
    case Unregister(c) => UnregisterStep(s, c)
    case Broadcast(inbox, m) => BroadcastStep(s, inbox, m)
    case Receive(c) => ReceiveStep(s, c)
    case CloseAll => CloseAllStep(s)
  }

  function Run(s: State, ops: seq<Op>): State
    decreases |ops|
  {
    if ops == [] then s else Run(Step(s, ops[0]), ops[1..])
  }

  // ---- The invariant ----

  /** Clients are filed under their own inbox, no inbox is left with none, and a registered client can be sent to. */
  predicate Filed(s: State) {
    && (forall i :: i in s.clients ==> s.clients[i] != {})
    && (forall i, c :: i in s.clients && c in s.clients[i] ==> c.inbox == i && c in s.channels && s.channels[c].open)
  }

  /** A user's count is the number of that user's registered clients, at most five, and absent when zero. */
  predicate Counted(s: State, u: User) {
    && Conns(s, u) == |OfUser(s, u)| <= MAX_CONNECTIONS
    && (u in s.userConns <==> OfUser(s, u) != {})
  }

  ghost predicate Inv(s: State) {
    Filed(s) && (forall u :: Counted(s, u)) && !s.panicked
  }

  /** What a caller of Register has to respect: the client is not registered yet, and unless the user has too many
      connections its channel is open. */
  predicate FitToRegister(s: State, c: Client) {
    !Registered(s, c) && (Conns(s, c.user) >= MAX_CONNECTIONS || (c in s.channels && s.channels[c].open))
  }

  lemma RegisterCounts(s: State, c: Client)
    requires Inv(s) && Conns(s, c.user) < MAX_CONNECTIONS
    ensures var t := RegisterStep(s, c).0;
            OfUser(t, c.user) == OfUser(s, c.user) + {c} && forall u :: u != c.user ==> OfUser(t, u) == OfUser(s, u)
    ensures c in OfUser(s, c.user) <==> Registered(s, c)
  {
    var t := RegisterStep(s, c).0;
    forall u ensures OfUser(t, u) == if u == c.user then OfUser(s, u) + {c} else OfUser(s, u) {
      forall d ensures d in OfUser(t, u) <==> d in (if u == c.user then OfUser(s, u) + {c} else OfUser(s, u)) {
        assert d in OfUser(t, u) <==> Registered(t, d) && d.user == u by { MemberOf(t, u, d); }
        assert d in OfUser(s, u) <==> Registered(s, d) && d.user == u by { MemberOf(s, u, d); }
      }
    }
    MemberOf(s, c.user, c);
  }

  lemma MemberOf(s: State, u: User, d: Client)
    requires forall i, c :: i in s.clients && c in s.clients[i] ==> c.inbox == i
    ensures d in OfUser(s, u) <==> Registered(s, d) && d.user == u
  {
  }

  lemma AdmitFiled(s: State, c: Client)
    requires Filed(s) && Conns(s, c.user) < MAX_CONNECTIONS && c in s.channels && s.channels[c].open
    ensures Filed(RegisterStep(s, c).0)
  {
  }

  lemma AdmitCounted(s: State, t: State, c: Client, u: User)
    requires Counted(s, u) && Conns(s, c.user) < MAX_CONNECTIONS
    requires t.userConns == s.userConns[c.user := Conns(s, c.user) + 1]
    requires OfUser(t, u) == if u == c.user then OfUser(s, u) + {c} else OfUser(s, u)
    requires c !in OfUser(s, c.user)
    ensures Counted(t, u)
  {
    if u == c.user {
      assert |OfUser(t, u)| == |OfUser(s, u)| + 1;
    }
  }

  lemma AdmitKeeps(s: State, c: Client)
    requires Inv(s) && Conns(s, c.user) < MAX_CONNECTIONS && FitToRegister(s, c)
    ensures Inv(RegisterStep(s, c).0)
  {
    RegisterCounts(s, c);
    AdmitFiled(s, c);
    forall u ensures Counted(RegisterStep(s, c).0, u) {
      AdmitCounted(s, RegisterStep(s, c).0, c, u);
    }
  }

  lemma AdmitBreaks(s: State, c: Client)
    requires Inv(s) && Conns(s, c.user) < MAX_CONNECTIONS && !FitToRegister(s, c)
    ensures !Inv(RegisterStep(s, c).0)
  {
    var t := RegisterStep(s, c).0;
    RegisterCounts(s, c);
    assert Counted(s, c.user);
    if Registered(s, c) {
      assert OfUser(s, c.user) + {c} == OfUser(s, c.user);
      assert !Counted(t, c.user);
    } else {
      assert c in t.clients[c.inbox];
    }
  }

  lemma RefuseExactly(s: State, c: Client)
    requires Inv(s) && Conns(s, c.user) >= MAX_CONNECTIONS
    ensures Inv(RegisterStep(s, c).0) <==> !Registered(s, c)
  {
    var t := RegisterStep(s, c).0;
    forall u ensures Counted(t, u) {
      assert Counted(s, u) && OfUser(t, u) == OfUser(s, u);
    }
    if Registered(s, c) {
      assert c in t.clients[c.inbox] && !t.channels[c].open;
    }
  }

  /** Registering keeps the hub sound exactly when the client was fit to register. */
  lemma RegisterKeepsExactly(s: State, c: Client)
    requires Inv(s)
    ensures Inv(Step(s, Register(c))) <==> FitToRegister(s, c)
  {
    if Conns(s, c.user) >= MAX_CONNECTIONS {
      RefuseExactly(s, c);
    } else if FitToRegister(s, c) {
      AdmitKeeps(s, c);
    } else {
      AdmitBreaks(s, c);
    }
  }

  lemma LeaveCounts(s: State, c: Client, u: User)
    requires Filed(s) && Registered(s, c)
    ensures OfUser(Leave(s, c), u) == OfUser(s, u) - {c} && (c.user != u ==> OfUser(Leave(s, c), u) == OfUser(s, u))
    ensures c in OfUser(s, c.user)
  {
    var t := Leave(s, c);
    forall d ensures d in OfUser(t, u) <==> d in OfUser(s, u) && d != c {
      MemberOf(t, u, d);
      MemberOf(s, u, d);
    }
    MemberOf(s, c.user, c);
  }

  lemma LeaveKeeps(s: State, c: Client)
    requires Inv(s) && Registered(s, c)
    ensures Inv(Leave(s, c))
  {
    var t := Leave(s, c);
    forall u ensures Counted(t, u) {
      assert Counted(s, u);
      LeaveCounts(s, c, u);
    }
  }

  lemma CloseKeeps(s: State, c: Client)
    requires Inv(s) && !Registered(s, c)
    ensures Inv(s.(channels := Close(s.channels, c)))
  {
    var t := s.(channels := Close(s.channels, c));
    forall u ensures Counted(t, u) { assert Counted(s, u) && OfUser(t, u) == OfUser(s, u); }
  }

  lemma UnregisterKeeps(s: State, c: Client)
    requires Inv(s)
    ensures Inv(UnregisterStep(s, c))
  {
    if Registered(s, c) {
      LeaveKeeps(s, c);
      CloseKeeps(Leave(s, c), c);
    } else {
      CloseKeeps(s, c);
    }
  }

  lemma FrameKeeps(s: State, t: State)
    requires Inv(s) && t.clients == s.clients && t.userConns == s.userConns && !t.panicked
    requires forall c :: c in s.channels ==> c in t.channels && t.channels[c].open == s.channels[c].open
    ensures Inv(t)
  {
    forall u ensures Counted(t, u) { assert Counted(s, u) && OfUser(t, u) == OfUser(s, u); }
  }

  lemma BroadcastKeeps(s: State, inbox: Inbox, m: Message)
    requires Inv(s)
    ensures Inv(BroadcastStep(s, inbox, m))
  {
    assert forall c :: c in ClientsOf(s, inbox) ==> s.channels[c].open;
    FrameKeeps(s, BroadcastStep(s, inbox, m));
  }

  lemma CloseAllKeeps(s: State)
    requires Inv(s)
    ensures Inv(CloseAllStep(s))
  {
    var t := CloseAllStep(s);
    forall u ensures Counted(t, u) { assert OfUser(t, u) == {}; }
  }

  lemma StepKeepsExactly(s: State, op: Op)
    requires Inv(s)
    ensures Inv(Step(s, op)) <==> (op.Register? ==> FitToRegister(s, op.c))
  {
    match op
    case Connect(c) => FrameKeeps(s, Step(s, op));
    case Register(c) => RegisterKeepsExactly(s, c);
    case Unregister(c) => UnregisterKeeps(s, c);
    case Broadcast(inbox, m) => BroadcastKeeps(s, inbox, m);
    case Receive(c) => FrameKeeps(s, Step(s, op));
    case CloseAll => CloseAllKeeps(s);
  }

  /** Every registration of the run is fit. */
  predicate AllFit(s: State, ops: seq<Op>)
    decreases |ops|
  {
    ops != [] ==> (ops[0].Register? ==> FitToRegister(s, ops[0].c)) && AllFit(Step(s, ops[0]), ops[1..])
  }

  ghost predicate SoundThroughout(s: State, ops: seq<Op>)
    decreases |ops|
  {
    Inv(s) && (ops != [] ==> SoundThroughout(Step(s, ops[0]), ops[1..]))
  }

  /** Under every interleaving of the locked operations the hub stays sound, so that no broadcast ever sends on a closed
      channel, if and only if every registration was of a fit client. */
  lemma {:induction false} RunSoundExactly(s: State, ops: seq<Op>)
    requires Inv(s)
    ensures SoundThroughout(s, ops) <==> AllFit(s, ops)
    decreases |ops|
  {
    if ops == [] {
    } else {
      StepKeepsExactly(s, ops[0]);
      if Inv(Step(s, ops[0])) { RunSoundExactly(Step(s, ops[0]), ops[1..]); }
    }
  }

  // ---- What clients receive ----

  predicate Subsequence(a: seq<Message>, b: seq<Message>)
    decreases |b|
  {
    a == [] || (b != [] && (if a[0] == b[0] then Subsequence(a[1..], b[1..]) else Subsequence(a, b[1..])))
  }

  lemma {:induction false} SubsequenceGrows(a: seq<Message>, b: seq<Message>, m: Message)
    requires Subsequence(a, b)
    ensures Subsequence(a, b + [m]) && Subsequence(a + [m], b + [m])
    decreases |b|
  {
    if b == [] {
      assert b + [m] == [m] && a + [m] == [m];
      assert Subsequence([], []) && [m][1..] == [];
    } else {
      assert (b + [m])[1..] == b[1..] + [m];
      if a == [] {
        SubsequenceGrows(a, b[1..], m);
        assert a + [m] == [m];
        if m == b[0] { assert [m][1..] == []; }
      } else if a[0] == b[0] {
        SubsequenceGrows(a[1..], b[1..], m);
        assert (a + [m])[1..] == a[1..] + [m];
      } else {
        SubsequenceGrows(a, b[1..], m);
        assert (a + [m])[0] == a[0];
      }
    }
  }

  /** What a client has received and will receive was broadcast to its inbox, in that order, and fits the buffer. */
  predicate InOrder(s: State, c: Client) {
    c in s.channels ==>
      |s.channels[c].buffer| <= BUFFER
      && Subsequence(s.channels[c].received + s.channels[c].buffer, Sent(s, c.inbox))
  }

  lemma BroadcastInOrder(s: State, inbox: Inbox, m: Message, c: Client)
    requires Filed(s) && InOrder(s, c)
    ensures InOrder(BroadcastStep(s, inbox, m), c)
  {
    if c in s.channels && inbox == c.inbox {
      var ch := s.channels[c];
      SubsequenceGrows(ch.received + ch.buffer, Sent(s, inbox), m);
      assert ch.received + ch.buffer + [m] == ch.received + (ch.buffer + [m]);
    }
  }

  lemma ReceiveInOrder(s: State, d: Client, c: Client)
    requires InOrder(s, c)
    ensures InOrder(ReceiveStep(s, d), c)
  {
    if d == c && c in s.channels && s.channels[c].buffer != [] {
      var ch := s.channels[c];
      assert ch.received + [ch.buffer[0]] + ch.buffer[1..] == ch.received + ch.buffer;
    }
  }

  lemma StepInOrder(s: State, op: Op, c: Client)
    requires Filed(s) && InOrder(s, c)
    ensures InOrder(Step(s, op), c)
  {
    match op
    case Broadcast(inbox, m) => BroadcastInOrder(s, inbox, m, c);
    case Receive(d) => ReceiveInOrder(s, d, c);
    case _ =>
  }

  /** In every run of fit registrations each client receives an in-order subsequence of its inbox's broadcasts, and
      nothing else. */
  lemma {:induction false} ReceivesInOrder(s: State, ops: seq<Op>, c: Client)
    requires Inv(s) && AllFit(s, ops) && InOrder(s, c)
    ensures InOrder(Run(s, ops), c) && Inv(Run(s, ops))
    decreases |ops|
  {
    if ops == [] {
    } else {
      StepKeepsExactly(s, ops[0]);
      StepInOrder(s, ops[0], c);
      ReceivesInOrder(Step(s, ops[0]), ops[1..], c);
    }
  }

  // ---- The hub object ----

  lemma CloseMore(channels: map<Client, Channel>, a: set<Client>, b: set<Client>)
    ensures CloseThese(CloseThese(channels, a), b) == CloseThese(channels, a + b)
  {
  }

  lemma OneMoreInbox(clients: map<Inbox, set<Client>>, inboxes: set<Inbox>, i: Inbox)
    requires i in clients
    ensures ClientsIn(clients, inboxes + {i}) == ClientsIn(clients, inboxes) + clients[i]
  {
  }

  class ClientHub {
    var clients: map<Inbox, set<Client>>
    var userConns: map<User, int>
    var channels: map<Client, Channel>
    ghost var sent: map<Inbox, seq<Message>>

    ghost function View(): State
      reads this
    {
      State(clients, userConns, channels, sent, false)
    }

    constructor ()
      ensures View() == EMPTY && Inv(View())
    {
      clients, userConns, channels, sent := map[], map[], map[], map[];
      new;
      assert forall u :: OfUser(EMPTY, u) == {};
      assert forall u :: Counted(EMPTY, u);
    }

    method CloseClient(c: Client)
      modifies this`channels
      ensures channels == Close(old(channels), c)
    {
      if c in channels {
        channels := channels[c := channels[c].(open := false)];
      }
    }

    /** Any client is taken; the hub stays sound exactly when it was fit. */
    method RegisterClient(c: Client) returns (ok: bool)
      requires Inv(View())
      modifies this`clients, this`userConns, this`channels
      ensures (View(), ok) == RegisterStep(old(View()), c)
      ensures Inv(View()) <==> FitToRegister(old(View()), c)
    {
      RegisterKeepsExactly(View(), c);
      var conns := if c.user in userConns then userConns[c.user] else 0;
      if conns >= MAX_CONNECTIONS {
        CloseClient(c);
        return false;
      }
      if c.inbox !in clients {
        clients := clients[c.inbox := {}];
      }
      clients := clients[c.inbox := clients[c.inbox] + {c}];
      userConns := userConns[c.user := conns + 1];
      assert clients == old(clients)[c.inbox := ClientsOf(old(View()), c.inbox) + {c}];
      return true;
    }

    method RemoveClient(c: Client)
      requires Registered(View(), c)
      modifies this`clients, this`userConns
      ensures View() == Leave(old(View()), c)
    {
      clients := clients[c.inbox := clients[c.inbox] - {c}];
      var conns := (if c.user in userConns then userConns[c.user] else 0) - 1;
      userConns := userConns[c.user := conns];
      if conns <= 0 {
        userConns := userConns - {c.user};
        assert userConns == old(userConns) - {c.user};
      }
      if clients[c.inbox] == {} {
        clients := clients - {c.inbox};
        assert clients == old(clients) - {c.inbox};
      }
    }

    method UnregisterClient(c: Client)
      requires Inv(View())
      modifies this`clients, this`userConns, this`channels
      ensures View() == UnregisterStep(old(View()), c) && Inv(View())
    {
      UnregisterKeeps(View(), c);
      if c.inbox in clients && c in clients[c.inbox] {
        RemoveClient(c);
      }
      CloseClient(c);
    }

    method BroadcastMessage(inbox: Inbox, m: Message)
      requires Inv(View())
      modifies this`channels, this`sent
      ensures View() == BroadcastStep(old(View()), inbox, m) && Inv(View())
    {
      BroadcastKeeps(View(), inbox, m);
      ghost var after := BroadcastStep(View(), inbox, m);
      SendTo(if inbox in clients then clients[inbox] else {}, m);
      sent := after.sent;
      assert View() == after;
    }

    method SendTo(to: set<Client>, m: Message)
      requires forall c :: c in to ==> c in channels && channels[c].open  // a send on a closed channel would panic
      modifies this`channels
      ensures channels == DeliverTo(old(channels), to, m)
    {
      var pending := to;
      while pending != {}
        invariant pending <= to
        invariant channels == DeliverTo(old(channels), to - pending, m)
        decreases |pending|
      {
        var c :| c in pending;
        if |channels[c].buffer| < BUFFER {
          channels := channels[c := channels[c].(buffer := channels[c].buffer + [m])];
        }
        assert to - (pending - {c}) == (to - pending) + {c};
        pending := pending - {c};
      }
      assert to - pending == to;
    }

    method CloseEverything()
      requires Inv(View())
      modifies this`clients, this`userConns, this`channels
      ensures View() == CloseAllStep(old(View())) && Inv(View())
    {
      CloseAllKeeps(View());
      CloseChannels();
      clients := map[];
      userConns := map[];
    }

    method CloseChannels()
      modifies this`channels
      ensures channels == CloseThese(old(channels), ClientsIn(clients, clients.Keys))
    {
      var inboxes := clients.Keys;
      ghost var visited: set<Inbox> := {};
      assert ClientsIn(clients, visited) == {};
      while inboxes != {}
        invariant inboxes <= clients.Keys && visited == clients.Keys - inboxes
        invariant channels == CloseThese(old(channels), ClientsIn(clients, visited))
        decreases |inboxes|
      {
        var i :| i in inboxes;
        CloseInbox(clients[i]);
        CloseMore(old(channels), ClientsIn(clients, visited), clients[i]);
        OneMoreInbox(clients, visited, i);
        inboxes, visited := inboxes - {i}, visited + {i};
      }
      assert visited == clients.Keys;
    }

    method CloseInbox(these: set<Client>)
      modifies this`channels
      ensures channels == CloseThese(old(channels), these)
    {
      var pending := these;
      while pending != {}
        invariant pending <= these
        invariant channels == CloseThese(old(channels), these - pending)
        decreases |pending|
      {
        var c :| c in pending;
        CloseClient(c);
        assert these - (pending - {c}) == (these - pending) + {c};
        pending := pending - {c};
      }
      assert these - pending == these;
    }
  }
}
