/** The listener's side of one conversation, as it runs: a session object that is updated command by command. */
module SmtpListener {
  import opened Common
  import opened SmtpSession
  import opened SmtpWire

  class Session {
    const env: Env
    var reader: Reader
    var secured: seq<string>
    var from: string
    var rcptTo: seq<string>
    var queries: nat
    var offered: seq<Email>
    var log: seq<Event>

    ghost predicate Valid()
      reads this, reader
    {
      reader.maxSize == env.maxSize
    }

    ghost function Snapshot(): State
      reads this
    {
      State(from, rcptTo, queries, offered, log)
    }

    ghost function Remaining(): Input
      reads this, reader
    {
      Input(reader.stream, secured)
    }

    constructor (env: Env, input: Input)
      ensures Valid() && fresh(reader) && Snapshot() == FRESH && Remaining() == input && this.env == env
    {
      this.env := env;
      this.reader := new Reader(input.bytes, env.maxSize);
      this.secured := input.secured;
      this.from, this.rcptTo, this.queries, this.offered, this.log := "", [], 0, [], [];
    }

    method Write(c: Command, code: nat)
      modifies this`log
      ensures Snapshot() == Reply(old(Snapshot()), c, code)
    {
      log := log + [Replied(c, code)];
    }

    /** Offer one copy of the message to the queue for each recipient. */
    method ProcessData(data: string) returns (allOk: bool)
      modifies this`offered
      ensures offered == old(offered) + Copies(from, rcptTo, data)
      ensures allOk == AllTaken(env, |old(offered)|, |rcptTo|)
    {
      allOk := true;
      for i := 0 to |rcptTo|
        invariant offered == old(offered) + Copies(from, rcptTo[..i], data)
        invariant allOk == AllTaken(env, |old(offered)|, i)
      {
        var taken := env.queueTakes(|offered|);
        offered := offered + [Email(from, rcptTo[i], data)];
        if !taken {
          allOk := false;
        }
        assert Copies(from, rcptTo[..i + 1], data) == Copies(from, rcptTo[..i], data) + [Email(from, rcptTo[i], data)];
      }
      assert rcptTo[..|rcptTo|] == rcptTo;
    }

    method OnMail(address: string)
      modifies this`from, this`rcptTo, this`log
      ensures Snapshot() == MailStep(old(Snapshot()), address)
    {
      if address == "" {
        Write(Mail(address), 501);
        return;
      }
      from := address;
      rcptTo := [];
      Write(Mail(address), 250);
    }

    method OnRcpt(to: string)
      modifies this`rcptTo, this`queries, this`log
      ensures Snapshot() == RcptStep(env, old(Snapshot()), to)
    {
      if from == "" {
        Write(Rcpt(to), 503);
        return;
      }
      if to == "" {
        Write(Rcpt(to), 501);
        return;
      }
      if |rcptTo| >= MAX_RECIPIENTS {
        Write(Rcpt(to), 452);
        return;
      }
      var accepted := env.routes(queries, to);
      queries := queries + 1;
      if !accepted {
        Write(Rcpt(to), 550);
        return;
      }
      rcptTo := rcptTo + [to];
      Write(Rcpt(to), 250);
    }

    method OnData()
      requires Valid()
      modifies this`from, this`rcptTo, this`offered, this`log, reader
      ensures Valid()
      ensures Conn(Snapshot(), Remaining(), true) == DataStep(env, old(Snapshot()), old(Remaining()))
    {
      if from == "" || |rcptTo| == 0 {
        Write(Data, 503);
        return;
      }
      LimitIsExact(reader.stream, env.maxSize, "");
      var data := reader.ReadData();
      if data.None? {
        Write(Data, 451);
        return;
      }
      // Reading stops as soon as the limit is passed, so the size check that follows in the source never fires.
      assert |data.value| <= env.maxSize;
      var queued := ProcessData(data.value);
      log := log + [Delivered(data.value, queued)];
      from := "";
      rcptTo := [];
    }

    method OnStartTls() returns (open: bool)
      requires Valid()
      modifies this`reader, this`secured, this`from, this`rcptTo, this`log
      ensures Valid() && (reader == old(reader) || fresh(reader))
      ensures Conn(Snapshot(), Remaining(), open) == StartTlsStep(env, old(Snapshot()), old(Remaining()))
    {
      if !env.tls {
        Write(StartTls, 502);
        return true;
      }
      if |secured| == 0 {
        log := log + [TlsFailed];
        return false;
      }
      reader := new Reader(secured[0], env.maxSize);
      secured := secured[1..];
      from := "";
      rcptTo := [];
      Write(StartTls, 220);
      return true;
    }

    method Dispatch(c: Command) returns (open: bool)
      requires Valid()
      modifies this, reader
      ensures Valid() && (reader == old(reader) || fresh(reader))
      ensures Conn(Snapshot(), Remaining(), open) == Handle(env, old(Snapshot()), c, old(Remaining()))
    {
      open := true;
      match c
      case StartTls => open := OnStartTls();
      case Mail(address) => OnMail(address);
      case Rcpt(to) => OnRcpt(to);
      case Data => OnData();
      case Rset => from := ""; rcptTo := []; Write(Rset, 250);
      case Vrfy => Write(Vrfy, 252);
      case Quit => Write(Quit, 221); open := false;
      case Unknown => Write(Unknown, 502);
      case _ => Write(c, 250);
    }

    ghost function Here(open: bool): Conn
      reads this, reader
    {
      Conn(Snapshot(), Remaining(), open)
    }

    /** One turn of the loop: read a line and act on it. */
    method ServeLine() returns (open: bool)
      requires Valid()
      modifies this, reader
      ensures Valid() && (reader == old(reader) || fresh(reader))
      ensures Here(open) == Step(env, old(Here(true)))
    {
      open := true;
      var next := reader.ReadString();
      if next.None? {
        open := false;
      } else {
        var line := TrimEol(next.value);
        if line != "" {
          open := Dispatch(env.parse(line));
        }
      }
    }

    method ServeOne(ghost serve: Conn -> Conn) returns (open: bool)
      requires Valid() && Follows(env, serve)
      modifies this, reader
      ensures Valid() && (reader == old(reader) || fresh(reader))
      ensures serve(Here(open)) == serve(old(Here(true))) && Smaller(Here(open), old(Here(true)))
    {
      StepProgress(env, Here(true));
      open := ServeLine();
    }

    method ServeLoop(ghost serve: Conn -> Conn)
      requires Valid() && Follows(env, serve)
      modifies this, reader
      ensures serve(Here(false)) == serve(old(Here(true)))
    {
      var open := true;
      while open
        invariant Valid() && (reader == old(reader) || fresh(reader))
        invariant serve(Here(open)) == serve(old(Here(true)))
        decreases open, |secured|, |reader.stream|
      {
        open := ServeOne(serve);
      }
    }

    /** The command loop: it serves the whole conversation. */
    method HandleConn()
      requires Valid()
      modifies this, reader
      ensures Snapshot() == Serve(env, Conn(old(Snapshot()), old(Remaining()), true)).state
    {
      ServeFollows(env);
      ServeLoop(c => Serve(env, c));
    }
  }
}
