/** The bounded ingest queue between SMTP connections and workers, as an interleaving of atomic steps. */
module IngestQueue {
  import SmtpSession

  type Mail = SmtpSession.Email

  /** Start runs, has raised the stop flag, has closed the channel, or has returned. */
  datatype Phase = Running | Stopping | Closed | Returned

  /** A mail in a worker's hands, with its position in the order of acceptance. */
  datatype Job = Job(ticket: nat, mail: Mail)

  /** `checked` holds the Enqueue calls that have passed the stop check and not yet sent. `accepted` lists the mails
      for which Enqueue returned true, `processed` the jobs that workers have finished. */
  datatype State = State(
    capacity: nat, workers: set<nat>, phase: Phase, queue: seq<Mail>, checked: map<nat, Mail>,
    live: set<nat>, busy: map<nat, Job>,
    accepted: seq<Mail>, taken: nat, processed: seq<Job>, panicked: bool)

  datatype Op =
    | Check(call: nat, mail: Mail)  // Enqueue reads the stop flag
    | Offer(call: nat)              // Enqueue offers the mail to the channel, without blocking
    | Take(worker: nat)             // a worker receives from the channel
    | Finish(worker: nat)           // a worker has processed its mail
    | Exit(worker: nat)             // a worker finds the channel closed and drained
    | Stop | Close | Return         // Start, once its context is cancelled

  predicate Enabled(s: State, op: Op) {
    && !s.panicked
    && match op
       case Check(call, _) => call !in s.checked
       case Offer(call) => call in s.checked
       case Take(w) => w in s.live && w !in s.busy && s.queue != []
       case Finish(w) => w in s.busy
       case Exit(w) => w in s.live && w !in s.busy && s.queue == [] && s.phase == Closed
       case Stop => s.phase == Running
       case Close => s.phase == Stopping
       case Return => s.phase == Closed && s.live == {}
  }

  /** Sending on a closed channel panics; sending on a full one gives up. */
  function OfferStep(s: State, call: nat): State
    requires call in s.checked
  {
    var t := s.(checked := s.checked - {call});
    if s.phase == Closed || s.phase == Returned then t.(panicked := true)
    else if |s.queue| < s.capacity then
      t.(queue := s.queue + [s.checked[call]], accepted := s.accepted + [s.checked[call]])
    else t
  }

  /** Steps that are not enabled change nothing. */
  function Step(s: State, op: Op): State {
    if !Enabled(s, op) then s
    else match op
         case Check(call, mail) => if s.phase == Running then s.(checked := s.checked[call := mail]) else s
         case Offer(call) => OfferStep(s, call)
         case Take(w) =>
           s.(queue := s.queue[1..], busy := s.busy[w := Job(s.taken, s.queue[0])], taken := s.taken + 1)
         case Finish(w) => s.(processed := s.processed + [s.busy[w]], busy := s.busy - {w})
         case Exit(w) => s.(live := s.live - {w})
         case Stop => s.(phase := Stopping)
         case Close => s.(phase := Closed)
         case Return => s.(phase := Returned)
  }

  function Run(s: State, ops: seq<Op>): State
    decreases |ops|
  {
    if ops == [] then s else Run(Step(s, ops[0]), ops[1..])
  }

  function Start(capacity: nat, workers: set<nat>): State {
    State(capacity, workers, Running, [], map[], workers, map[], [], 0, [], false)
  }

  // ---- Every interleaving ----

  /** First in, first out: what was taken and what is queued are, in order, all that was accepted. */
  predicate Fifo(s: State) {
    s.taken <= |s.accepted| && s.queue == s.accepted[s.taken..] && |s.queue| <= s.capacity
  }

  /** A finished or current job is an accepted mail under its own ticket. */
  predicate IsTicket(s: State, j: Job) {
    j.ticket < s.taken <= |s.accepted| && j.mail == s.accepted[j.ticket]
  }

  predicate Tickets(s: State) {
    && (forall w :: w in s.busy ==> w in s.live && IsTicket(s, s.busy[w]))
    && (forall i :: 0 <= i < |s.processed| ==> IsTicket(s, s.processed[i]))
  }

  /** No mail is handed out twice. */
  predicate Distinct(busy: map<nat, Job>, processed: seq<Job>) {
    && (forall v, w :: v in busy && w in busy && busy[v].ticket == busy[w].ticket ==> v == w)
    && (forall i, j :: 0 <= i < j < |processed| ==> processed[i].ticket != processed[j].ticket)
    && (forall i, w :: 0 <= i < |processed| && w in busy ==> processed[i].ticket != busy[w].ticket)
  }

  predicate Finished(processed: seq<Job>, t: nat) {
    exists i :: 0 <= i < |processed| && processed[i].ticket == t
  }

  predicate InHand(busy: map<nat, Job>, t: nat) {
    exists w :: w in busy && busy[w].ticket == t
  }

  /** No mail that was taken is forgotten. */
  predicate Complete(s: State) {
    forall t :: 0 <= t < s.taken ==> Finished(s.processed, t) || InHand(s.busy, t)
  }

  /** Workers leave, and Start returns, only when the channel is closed and drained. */
  predicate Draining(s: State) {
    && (s.phase == Returned ==> s.live == {})
    && (s.live != s.workers ==> (s.phase == Closed || s.phase == Returned) && s.queue == [])
    && (s.panicked ==> s.phase == Closed || s.phase == Returned)
  }

  predicate Inv(s: State) {
    s.workers != {} && Fifo(s) && Tickets(s) && Distinct(s.busy, s.processed) && Complete(s) && Draining(s)
  }

  lemma OfferKeeps(s: State, call: nat)
    requires Inv(s) && Enabled(s, Offer(call))
    ensures Inv(Step(s, Offer(call)))
  {
    var t := Step(s, Offer(call));
    assert forall j :: IsTicket(s, j) ==> IsTicket(t, j);
  }

  lemma TakeKeeps(s: State, w: nat)
    requires Inv(s) && Enabled(s, Take(w))
    ensures Inv(Step(s, Take(w)))
  {
    var t := Step(s, Take(w));
    assert forall j :: IsTicket(s, j) ==> IsTicket(t, j);
    assert t.busy[w].ticket == s.taken;
    forall k | 0 <= k < t.taken ensures Finished(t.processed, k) || InHand(t.busy, k) {
      if k < s.taken && InHand(s.busy, k) {
        var v :| v in s.busy && s.busy[v].ticket == k;
        assert t.busy[v].ticket == k;
      }
    }
  }

  lemma FinishKeeps(s: State, w: nat)
    requires Inv(s) && Enabled(s, Finish(w))
    ensures Inv(Step(s, Finish(w)))
  {
    FinishComplete(s, w);
  }

  lemma FinishComplete(s: State, w: nat)
    requires Complete(s) && Enabled(s, Finish(w))
    ensures Complete(Step(s, Finish(w)))
  {
    var t := Step(s, Finish(w));
    forall k | 0 <= k < t.taken ensures Finished(t.processed, k) || InHand(t.busy, k) {
      if Finished(s.processed, k) {
        var i :| 0 <= i < |s.processed| && s.processed[i].ticket == k;
        assert t.processed[i].ticket == k;
      } else {
        var v :| v in s.busy && s.busy[v].ticket == k;
        if v == w {
          assert t.processed[|s.processed|].ticket == k;
        } else {
          assert t.busy[v].ticket == k;
        }
      }
    }
  }

  lemma StepKeeps(s: State, op: Op)
    requires Inv(s)
    ensures Inv(Step(s, op))
  {
    if Enabled(s, op) {
      match op
      case Offer(call) => OfferKeeps(s, call);
      case Take(w) => TakeKeeps(s, w);
      case Finish(w) => FinishKeeps(s, w);
      case _ =>
    }
  }

  lemma {:induction false} RunKeeps(s: State, ops: seq<Op>)
    requires Inv(s)
    ensures Inv(Run(s, ops))
    decreases |ops|
  {
    if ops == [] {
    } else {
      StepKeeps(s, ops[0]);
      RunKeeps(Step(s, ops[0]), ops[1..]);
    }
  }

  /** Under every interleaving of producers, workers and shutdown: the queue never exceeds its capacity and is served
      in order, and once Start has returned every mail that Enqueue accepted has been processed, once. */
  lemma DrainedExactlyOnce(capacity: nat, workers: set<nat>, ops: seq<Op>)
    requires workers != {}
    ensures var s := Run(Start(capacity, workers), ops);
            && |s.queue| <= capacity
            && |s.queue| <= |s.accepted| && s.queue == s.accepted[|s.accepted| - |s.queue|..]
            && (forall i :: 0 <= i < |s.processed| ==>
                  s.processed[i].ticket < |s.accepted| && s.processed[i].mail == s.accepted[s.processed[i].ticket])
            && (forall i, j :: 0 <= i < j < |s.processed| ==> s.processed[i].ticket != s.processed[j].ticket)
            && (s.phase == Returned ==> forall t :: 0 <= t < |s.accepted| ==> Finished(s.processed, t))
  {
    RunKeeps(Start(capacity, workers), ops);
    Constants(Start(capacity, workers), ops);
    var s := Run(Start(capacity, workers), ops);
    assert forall i :: 0 <= i < |s.processed| ==> IsTicket(s, s.processed[i]);
    if s.phase == Returned {
      assert s.busy == map[] by { assert forall w :: w in s.busy ==> w in s.live; }
    }
  }

  lemma {:induction false} Constants(s: State, ops: seq<Op>)
    ensures Run(s, ops).capacity == s.capacity && Run(s, ops).workers == s.workers
    decreases |ops|
  {
    if ops == [] {
    } else {
      Constants(Step(s, ops[0]), ops[1..]);
    }
  }

  // ---- Draining always ends ----

  /** Work left once the channel is closed. */
  function Left(s: State): nat {
    2 * |s.queue| + |s.busy.Keys| + |s.live|
  }

  /** After the channel is closed some worker can move as long as anything is left, and when nothing is left Start
      can return. */
  lemma DrainNeverStalls(s: State)
    requires Inv(s) && s.phase == Closed && !s.panicked
    ensures Left(s) == 0 <==> Enabled(s, Return)
    ensures Left(s) > 0 ==> exists w :: Enabled(s, Take(w)) || Enabled(s, Finish(w)) || Enabled(s, Exit(w))
  {
    if s.live == {} {
      assert s.busy == map[];
    } else if s.busy != map[] {
      var w :| w in s.busy;
      assert Enabled(s, Finish(w));
    } else {
      var w :| w in s.live;
      assert Enabled(s, Take(w)) || Enabled(s, Exit(w));
    }
  }

  /** Every move of a worker leaves less to do, so draining ends. */
  lemma DrainShrinks(s: State, w: nat)
    ensures Enabled(s, Take(w)) ==> Left(Step(s, Take(w))) == Left(s) - 1
    ensures Enabled(s, Finish(w)) ==> Left(Step(s, Finish(w))) == Left(s) - 1
    ensures Enabled(s, Exit(w)) ==> Left(Step(s, Exit(w))) == Left(s) - 1
  {
    if Enabled(s, Take(w)) {
      assert Step(s, Take(w)).busy.Keys == s.busy.Keys + {w};
    }
    if Enabled(s, Finish(w)) {
      assert Step(s, Finish(w)).busy.Keys == s.busy.Keys - {w};
    }
  }

  // ---- Sending on a closed channel ----

  lemma {:induction false} NoCallsNoPanic(s: State, ops: seq<Op>)
    requires s.phase == Closed || s.phase == Returned
    requires !s.panicked && s.checked == map[]
    ensures !Run(s, ops).panicked && Run(s, ops).accepted == s.accepted
    decreases |ops|
  {
    if ops == [] {
    } else {
      NoCallsNoPanic(Step(s, ops[0]), ops[1..]);
    }
  }

  /** The stop flag is read and the channel is written in two steps. After the channel is closed the process can still
      panic exactly when some Enqueue call had read the flag before it was raised and had not yet sent. */
  lemma PanicExactly(s: State)
    requires !s.panicked && (s.phase == Closed || s.phase == Returned)
    ensures (exists ops :: Run(s, ops).panicked) <==> s.checked != map[]
  {
    if s.checked == map[] {
      forall ops ensures !Run(s, ops).panicked { NoCallsNoPanic(s, ops); }
    } else {
      var call :| call in s.checked;
      var ops := [Offer(call)];
      assert ops[1..] == [];
      var t := Step(s, ops[0]);
      assert Run(s, ops) == Run(t, ops[1..]) == t;
      assert Run(s, ops).panicked;
    }
  }

  // ---- Which interleavings panic ----

  /** The stop flag has been raised by then. */
  predicate StoppedAt(ops: seq<Op>, n: nat)
    requires n <= |ops|
  {
    exists i :: 0 <= i < n && ops[i] == Stop
  }

  /** So has the channel been closed: Close has come after Stop. */
  predicate ClosedAt(ops: seq<Op>, n: nat)
    requires n <= |ops|
  {
    exists j :: 0 <= j < n && ops[j] == Close && StoppedAt(ops, j)
  }

  /** The call read the flag before it was raised, and has not sent since. */
  predicate PassedAt(ops: seq<Op>, i: nat, n: nat, call: nat)
    requires i < n <= |ops|
  {
    ops[i].Check? && ops[i].call == call && !StoppedAt(ops, i) && forall k :: i < k < n ==> ops[k] != Offer(call)
  }

  predicate OpenAt(ops: seq<Op>, n: nat, call: nat)
    requires n <= |ops|
  {
    exists i :: 0 <= i < n && PassedAt(ops, i, n, call)
  }

  /** A call sends on the closed channel. */
  predicate LateOffer(ops: seq<Op>, j: nat)
    requires j < |ops|
  {
    ops[j].Offer? && ClosedAt(ops, j) && OpenAt(ops, j, ops[j].call)
  }

  predicate LateBy(ops: seq<Op>, n: nat)
    requires n <= |ops|
  {
    exists j :: 0 <= j < n && LateOffer(ops, j)
  }

  /** What the interleaving so far says about the state. */
  ghost predicate Tracks(s: State, ops: seq<Op>, n: nat)
    requires n <= |ops|
  {
    && (s.phase == Running <==> !StoppedAt(ops, n))
    && (s.phase == Closed || s.phase == Returned <==> ClosedAt(ops, n))
    && (forall call :: call in s.checked <==> OpenAt(ops, n, call))
  }

  lemma PhaseTracks(s: State, ops: seq<Op>, n: nat)
    requires n < |ops| && !s.panicked && Tracks(s, ops, n) && !Step(s, ops[n]).panicked
    ensures var t := Step(s, ops[n]);
            && (t.phase == Running <==> !StoppedAt(ops, n + 1))
            && (t.phase == Closed || t.phase == Returned <==> ClosedAt(ops, n + 1))
  {
    assert StoppedAt(ops, n + 1) <==> StoppedAt(ops, n) || ops[n] == Stop;
    assert ClosedAt(ops, n + 1) <==> ClosedAt(ops, n) || (ops[n] == Close && StoppedAt(ops, n));
  }

  lemma OpenStep(ops: seq<Op>, n: nat, call: nat)
    requires n < |ops|
    ensures OpenAt(ops, n + 1, call) <==>
              ((OpenAt(ops, n, call) && ops[n] != Offer(call))
               || (ops[n].Check? && ops[n].call == call && !StoppedAt(ops, n)))
  {
    if OpenAt(ops, n, call) && ops[n] != Offer(call) {
      var i :| 0 <= i < n && PassedAt(ops, i, n, call);
      assert PassedAt(ops, i, n + 1, call);
    }
    if ops[n].Check? && ops[n].call == call && !StoppedAt(ops, n) {
      assert PassedAt(ops, n, n + 1, call);
    }
    if OpenAt(ops, n + 1, call) {
      var i :| 0 <= i < n + 1 && PassedAt(ops, i, n + 1, call);
      assert i < n ==> PassedAt(ops, i, n, call);
    }
  }

  lemma CallsTrack(s: State, ops: seq<Op>, n: nat, call: nat)
    requires n < |ops| && !s.panicked && Tracks(s, ops, n) && !Step(s, ops[n]).panicked
    ensures call in Step(s, ops[n]).checked <==> OpenAt(ops, n + 1, call)
  {
    OpenStep(ops, n, call);
    assert call in s.checked <==> OpenAt(ops, n, call);
  }

  lemma StepTracks(s: State, ops: seq<Op>, n: nat)
    requires n < |ops| && !s.panicked && Tracks(s, ops, n)
    ensures Step(s, ops[n]).panicked <==> LateOffer(ops, n)
    ensures !Step(s, ops[n]).panicked ==> Tracks(Step(s, ops[n]), ops, n + 1)
  {
    if ops[n].Offer? {
      assert ops[n].call in s.checked <==> OpenAt(ops, n, ops[n].call);
    }
    if !Step(s, ops[n]).panicked {
      PhaseTracks(s, ops, n);
      forall call ensures call in Step(s, ops[n]).checked <==> OpenAt(ops, n + 1, call) {
        CallsTrack(s, ops, n, call);
      }
    }
  }

  lemma {:induction false} RunSnoc(s: State, ops: seq<Op>, op: Op)
    ensures Run(s, ops + [op]) == Step(Run(s, ops), op)
    decreases |ops|
  {
    if ops == [] {
      assert ops + [op] == [op] && [op][1..] == [];
    } else {
      RunSnoc(Step(s, ops[0]), ops[1..], op);
      assert (ops + [op])[1..] == ops[1..] + [op];
    }
  }

  lemma {:induction false} PrefixTracks(capacity: nat, workers: set<nat>, ops: seq<Op>, n: nat)
    requires n <= |ops|
    ensures var s := Run(Start(capacity, workers), ops[..n]);
            (s.panicked <==> LateBy(ops, n)) && (!s.panicked ==> Tracks(s, ops, n))
    decreases n
  {
    if n == 0 {
    } else {
      PrefixTracks(capacity, workers, ops, n - 1);
      LastStep(Start(capacity, workers), ops, n);
      LateStep(ops, n - 1);
      var s := Run(Start(capacity, workers), ops[..n - 1]);
      if !s.panicked {
        StepTracks(s, ops, n - 1);
      }
    }
  }

  lemma LastStep(s: State, ops: seq<Op>, n: nat)
    requires 0 < n <= |ops|
    ensures Run(s, ops[..n]) == Step(Run(s, ops[..n - 1]), ops[n - 1])
  {
    assert ops[..n] == ops[..n - 1] + [ops[n - 1]];
    RunSnoc(s, ops[..n - 1], ops[n - 1]);
  }

  lemma LateStep(ops: seq<Op>, n: nat)
    requires n < |ops|
    ensures LateBy(ops, n + 1) <==> LateBy(ops, n) || LateOffer(ops, n)
  {
  }

  /** A run from Start panics exactly when some call that read the stop flag before it was raised, and did not send in
      between, sends after the channel was closed. */
  lemma RunPanicsExactly(capacity: nat, workers: set<nat>, ops: seq<Op>)
    ensures Run(Start(capacity, workers), ops).panicked <==> LateBy(ops, |ops|)
  {
    PrefixTracks(capacity, workers, ops, |ops|);
    assert ops[..|ops|] == ops;
  }

  /** Such a run: one call, interrupted by the shutdown between its two steps. */
  lemma ShutdownPanics(capacity: nat, workers: set<nat>, mail: Mail)
    ensures Run(Start(capacity, workers), [Check(0, mail), Stop, Close, Offer(0)]).panicked
  {
    var ops := [Check(0, mail), Stop, Close, Offer(0)];
    assert ops[1] == Stop && StoppedAt(ops, 2);
    assert ops[2] == Close && ClosedAt(ops, 3);
    assert PassedAt(ops, 0, 3, 0);
    assert LateOffer(ops, 3);
    RunPanicsExactly(capacity, workers, ops);
  }

  // ---- The server object ----

  /** The server, run by one goroutine at a time: an Enqueue call that is not interrupted between its two steps, and a
      worker that ranges over the closed channel. */
  class Server {
    const capacity: nat
    var queue: seq<Mail>
    var stopped: bool
    var processed: seq<Mail>

    constructor (queueSize: int)
      ensures capacity == (if queueSize <= 0 then 1000 else queueSize) && queue == [] && !stopped && processed == []
    {
      capacity := if queueSize <= 0 then 1000 else queueSize;
      queue, stopped, processed := [], false, [];
    }

    /** The same effect and answer as the two steps of an interleaved call. */
    method Enqueue(mail: Mail, ghost s: State, ghost call: nat) returns (ok: bool)
      requires Enabled(s, Check(call, mail)) && s.queue == queue && s.capacity == capacity
      requires if stopped then s.phase != Running else s.phase == Running
      modifies this`queue
      ensures var t := Step(Step(s, Check(call, mail)), Offer(call));
              && t.queue == queue && t.checked == s.checked
              && t.accepted == s.accepted + if ok then [mail] else []
      ensures ok <==> !stopped && |old(queue)| < capacity
    {
      assert s.checked[call := mail] - {call} == s.checked;
      if stopped {
        return false;
      }
      if |queue| < capacity {
        queue := queue + [mail];
        return true;
      }
      return false;
    }

    /** A worker on the closed channel handles everything that was queued, in order. */
    method DrainClosed()
      modifies this`queue, this`processed
      ensures queue == [] && processed == old(processed) + old(queue)
    {
      while |queue| > 0
        invariant processed + queue == old(processed) + old(queue)
      {
        processed := processed + [queue[0]];
        queue := queue[1..];
      }
    }
  }
}
