/** What every command line means, from its bytes on and in any letter case. */
module SmtpVerbs {
  import opened Common
  import opened SmtpClient
  import opened SmtpCommand
  import opened SmtpSession
  import opened SmtpWire
  import opened Text

  // ---- Lines ----

  /** A line that starts with this word, in any letter case, and has this argument behind a space, or none. */
  ghost predicate IsLineOf(line: string, verb: string, arg: string) {
    exists w :: SameText(w, verb) && (line == w + " " + arg || (line == w && arg == ""))
  }

  lemma SpelledHasNoSpace(w: string, verb: string)
    requires IsVerb(verb) && SameText(w, verb)
    ensures ' ' !in w && ToUpper(w) == verb
  {
    forall i | 0 <= i < |verb| ensures IsUpper(verb[i]) && w[i] != ' ' { assert verb[i] in verb; }
    UpperText(w, verb);
  }

  lemma SplitLine(line: string, verb: string, arg: string)
    requires IsVerb(verb) && IsLineOf(line, verb, arg)
    ensures ParseCommand(line) == (verb, arg)
  {
    var w :| SameText(w, verb) && (line == w + " " + arg || (line == w && arg == ""));
    SpelledHasNoSpace(w, verb);
    if line == w + " " + arg {
      IndexByteSkip(w, ' ', arg);
      assert line[..|w|] == w && line[|w| + 1..] == arg;
    } else {
      assert IndexByte(line, ' ') == |w| && line[..|w|] == w;
    }
  }

  // ---- Verbs ----

  lemma DiffersAt(a: string, b: string, i: nat)
    requires i < |a| && i < |b| && a[i] != b[i]
    ensures a != b
  {
  }

  /** None of the address verbs and those in front of them, and not DATA. */
  lemma NotAddress(verb: string)
    requires |verb| > 1 && verb[0] !in "HESMD" && (verb[0] == 'R' ==> verb[1] != 'C')
    ensures verb != "HELO" && verb != "EHLO" && verb != "STARTTLS" && verb != "MAIL" && verb != "RCPT" && verb != "DATA"
  {
    NotEarly(verb);
    DiffersAt(verb, "MAIL", 0);
    DiffersAt(verb, "DATA", 0);
    DiffersAt(verb, "RCPT", if verb[0] == 'R' then 1 else 0);
  }

  lemma ResetVerb(arg: string)
    ensures IsVerb("RSET") && Interpret("RSET", arg) == Rset
  {
    NotAddress("RSET");
  }

  lemma NoopVerb(arg: string)
    ensures IsVerb("NOOP") && Interpret("NOOP", arg) == Noop
  {
    NotAddress("NOOP");
    DiffersAt("NOOP", "RSET", 0);
  }

  lemma VrfyVerb(arg: string)
    ensures IsVerb("VRFY") && Interpret("VRFY", arg) == Vrfy
  {
    NotAddress("VRFY");
    DiffersAt("VRFY", "RSET", 0);
    DiffersAt("VRFY", "NOOP", 0);
  }

  lemma QuitVerb(arg: string)
    ensures IsVerb("QUIT") && Interpret("QUIT", arg) == Quit
  {
    NotAddress("QUIT");
    DiffersAt("QUIT", "RSET", 0);
    DiffersAt("QUIT", "NOOP", 0);
    DiffersAt("QUIT", "VRFY", 0);
  }

  lemma StartTlsVerb(arg: string)
    ensures IsVerb("STARTTLS") && Interpret("STARTTLS", arg) == StartTls
  {
    DiffersAt("STARTTLS", "HELO", 0);
    DiffersAt("STARTTLS", "EHLO", 0);
  }

  lemma GreetingVerbs(arg: string)
    ensures IsVerb("HELO") && Interpret("HELO", arg) == Helo && IsVerb("EHLO") && Interpret("EHLO", arg) == Ehlo
  {
    DiffersAt("EHLO", "HELO", 0);
  }

  predicate Known(verb: string) {
    || verb == "HELO" || verb == "EHLO" || verb == "STARTTLS" || verb == "MAIL" || verb == "RCPT" || verb == "DATA"
    || verb == "RSET" || verb == "NOOP" || verb == "VRFY" || verb == "QUIT"
  }

  lemma UnknownVerb(verb: string, arg: string)
    requires !Known(verb)
    ensures Interpret(verb, arg) == Unknown
  {
  }

  // ---- What each line does ----

  /** A line with this command is handled, and what follows it remains. */
  lemma LineHandled(env: Env, s: State, line: string, verb: string, arg: string, c: Command, tail: string,
                    secured: seq<string>)
    requires env.parse == Parse && IsText(line) && IsVerb(verb) && IsLineOf(line, verb, arg) && Interpret(verb, arg) == c
    ensures Serve(env, Conn(s, Input(CommandLine(line) + tail, secured), true))
         == Serve(env, Handle(env, s, c, Input(tail, secured)))
  {
    SplitLine(line, verb, arg);
    StepCommand(env, s, line, c, tail, secured);
  }

  predicate SameEnvelope(s: State, t: State) {
    t.from == s.from && t.rcptTo == s.rcptTo && t.queries == s.queries && t.offered == s.offered
  }

  predicate RepliedWith(s: State, t: State, code: nat) {
    |t.log| == |s.log| + 1 && t.log[..|s.log|] == s.log && t.log[|s.log|].Replied? && t.log[|s.log|].code == code
  }

  /** RSET throws the envelope away, whatever stands behind it, and is answered 250. */
  lemma ResetLine(env: Env, s: State, line: string, arg: string, tail: string, secured: seq<string>) returns (t: State)
    requires env.parse == Parse && IsText(line) && IsLineOf(line, "RSET", arg)
    ensures Serve(env, Conn(s, Input(CommandLine(line) + tail, secured), true))
         == Serve(env, Conn(t, Input(tail, secured), true))
    ensures t.from == "" && t.rcptTo == [] && t.queries == s.queries && t.offered == s.offered && RepliedWith(s, t, 250)
  {
    ResetVerb(arg);
    LineHandled(env, s, line, "RSET", arg, Rset, tail, secured);
    t := Reply(Clear(s), Rset, 250);
  }

  /** NOOP and VRFY change nothing but the transcript, and are answered 250 and 252. */
  lemma NoopLine(env: Env, s: State, line: string, arg: string, tail: string, secured: seq<string>) returns (t: State)
    requires env.parse == Parse && IsText(line) && IsLineOf(line, "NOOP", arg)
    ensures Serve(env, Conn(s, Input(CommandLine(line) + tail, secured), true))
         == Serve(env, Conn(t, Input(tail, secured), true))
    ensures SameEnvelope(s, t) && RepliedWith(s, t, 250)
  {
    NoopVerb(arg);
    LineHandled(env, s, line, "NOOP", arg, Noop, tail, secured);
    t := Reply(s, Noop, 250);
  }

  lemma VrfyLine(env: Env, s: State, line: string, arg: string, tail: string, secured: seq<string>) returns (t: State)
    requires env.parse == Parse && IsText(line) && IsLineOf(line, "VRFY", arg)
    ensures Serve(env, Conn(s, Input(CommandLine(line) + tail, secured), true))
         == Serve(env, Conn(t, Input(tail, secured), true))
    ensures SameEnvelope(s, t) && RepliedWith(s, t, 252)
  {
    VrfyVerb(arg);
    LineHandled(env, s, line, "VRFY", arg, Vrfy, tail, secured);
    t := Reply(s, Vrfy, 252);
  }

  /** QUIT is answered 221 and ends the conversation, whatever was sent behind it. */
  lemma QuitLine(env: Env, s: State, line: string, arg: string, tail: string, secured: seq<string>) returns (t: State)
    requires env.parse == Parse && IsText(line) && IsLineOf(line, "QUIT", arg)
    ensures Serve(env, Conn(s, Input(CommandLine(line) + tail, secured), true)) == Conn(t, Input(tail, secured), false)
    ensures SameEnvelope(s, t) && RepliedWith(s, t, 221)
  {
    QuitVerb(arg);
    LineHandled(env, s, line, "QUIT", arg, Quit, tail, secured);
    t := Reply(s, Quit, 221);
  }

  /** STARTTLS without TLS is answered 502 and changes nothing. With TLS and a handshake that succeeds, the rest of the
      clear text is dropped, the envelope is thrown away, and reading goes on behind the handshake. With one that fails the
      conversation ends. */
  lemma StartTlsLine(env: Env, s: State, line: string, arg: string, tail: string, secured: seq<string>) returns (next: Conn)
    requires env.parse == Parse && IsText(line) && IsLineOf(line, "STARTTLS", arg)
    ensures Serve(env, Conn(s, Input(CommandLine(line) + tail, secured), true)) == Serve(env, next)
    ensures !env.tls ==>
              next.input == Input(tail, secured) && next.open && SameEnvelope(s, next.state) && RepliedWith(s, next.state, 502)
    ensures env.tls && secured != [] ==>
              && next.input == Input(secured[0], secured[1..]) && next.open && RepliedWith(s, next.state, 220)
              && next.state.from == "" && next.state.rcptTo == [] && next.state.offered == s.offered
    ensures env.tls && secured == [] ==> !next.open && SameEnvelope(s, next.state)
  {
    StartTlsVerb(arg);
    LineHandled(env, s, line, "STARTTLS", arg, StartTls, tail, secured);
    next := Handle(env, s, StartTls, Input(tail, secured));
  }

  /** HELO and EHLO are answered 250 and change nothing else. */
  lemma GreetingLine(env: Env, s: State, line: string, arg: string, tail: string, secured: seq<string>) returns (t: State)
    requires env.parse == Parse && IsText(line) && (IsLineOf(line, "HELO", arg) || IsLineOf(line, "EHLO", arg))
    ensures Serve(env, Conn(s, Input(CommandLine(line) + tail, secured), true))
         == Serve(env, Conn(t, Input(tail, secured), true))
    ensures SameEnvelope(s, t) && RepliedWith(s, t, 250)
  {
    GreetingVerbs(arg);
    if IsLineOf(line, "HELO", arg) {
      LineHandled(env, s, line, "HELO", arg, Helo, tail, secured);
      t := Reply(s, Helo, 250);
    } else {
      LineHandled(env, s, line, "EHLO", arg, Ehlo, tail, secured);
      t := Reply(s, Ehlo, 250);
    }
  }

  /** A line whose first word is none of the ten verbs, in any letter case, is answered 502 and changes nothing else. */
  lemma UnknownLine(env: Env, s: State, line: string, tail: string, secured: seq<string>) returns (t: State)
    requires env.parse == Parse && IsText(line) && forall verb, arg :: Known(verb) ==> !IsLineOf(line, verb, arg)
    ensures Serve(env, Conn(s, Input(CommandLine(line) + tail, secured), true))
         == Serve(env, Conn(t, Input(tail, secured), true))
    ensures SameEnvelope(s, t) && RepliedWith(s, t, 502)
  {
    UnknownParses(line);
    t := UnknownAnswered(env, s, line, tail, secured);
  }

  lemma UnknownAnswered(env: Env, s: State, line: string, tail: string, secured: seq<string>) returns (t: State)
    requires env.parse == Parse && IsText(line) && Parse(line) == Unknown
    ensures Serve(env, Conn(s, Input(CommandLine(line) + tail, secured), true))
         == Serve(env, Conn(t, Input(tail, secured), true))
    ensures SameEnvelope(s, t) && RepliedWith(s, t, 502)
  {
    StepCommand(env, s, line, Unknown, tail, secured);
    t := Reply(s, Unknown, 502);
  }

  /** Every line is one of its verb and argument, if the verb is all letters. */
  lemma ParsedLine(line: string)
    ensures var (verb, arg) := ParseCommand(line); IsVerb(verb) ==> IsLineOf(line, verb, arg)
  {
    var (verb, arg) := ParseCommand(line);
    var i := IndexByte(line, ' ');
    var w := line[..i];
    if IsVerb(verb) {
      forall k | 0 <= k < |verb| ensures IsUpper(verb[k]) { assert verb[k] in verb; }
      UpperText(w, verb);
      if i < |line| {
        assert line == w + " " + arg;
      } else {
        assert line == w;
      }
    }
  }

  lemma UnknownParses(line: string)
    requires forall verb, arg :: Known(verb) ==> !IsLineOf(line, verb, arg)
    ensures Parse(line) == Unknown
  {
    var (verb, arg) := ParseCommand(line);
    ParsedLine(line);
    if Known(verb) {
      KnownVerbs(verb);
      assert false;
    }
    UnknownVerb(verb, arg);
  }

  lemma KnownVerbs(verb: string)
    requires Known(verb)
    ensures IsVerb(verb)
  {
  }

  /** An empty line is passed over without an answer. */
  lemma EmptyLine(env: Env, s: State, tail: string, secured: seq<string>)
    ensures Serve(env, Conn(s, Input("\r\n" + tail, secured), true)) == Serve(env, Conn(s, Input(tail, secured), true))
  {
    var line := "\r\n";
    assert IsLine(line) by { TextIsLine(""); assert CommandLine("") == line; }
    ReadLineOf(line, tail);
    assert TrimEol(line) == TrimEol("\r") == TrimEol("") == "" by {
      assert line[..1] == "\r" && "\r"[..0] == "";
    }
    assert Step(env, Conn(s, Input(line + tail, secured), true)) == Conn(s, Input(tail, secured), true);
  }

  // ---- Addresses ----

  /** The argument of MAIL or RCPT: the word FROM or TO in any letter case, a colon, and what follows. */
  lemma AfterSpelled(f: string, word: string, after: string)
    requires IsVerb(word) && SameText(f, word)
    ensures AfterVerb(f + ":" + after, word) == after
  {
    var arg := f + ":" + after;
    SpelledHasNoSpace(f, word);
    forall i | 0 <= i < |word| ensures ToUpper(arg)[i] == word[i] { assert arg[i] == f[i]; }
    assert ToUpper(arg)[..|word| + 1] == word + ":";
    assert arg[|word| + 1..] == after;
  }

  /** An address in angle brackets, whatever stands in front of them but a bracket, and whatever behind. */
  lemma SpelledBracketed(f: string, word: string, addr: string, params: string)
    requires IsVerb(word) && SameText(f, word) && IsAddress(addr)
    ensures ExtractMailParam(f + ":" + ("<" + addr + ">" + params), word) == addr
  {
    AfterSpelled(f, word, "<" + addr + ">" + params);
    var tail := TrimBracketed(addr, params);
    BracketedIs(addr, tail);
    TrimAddress(addr);
  }

  lemma AddressIs(arg: string, f: string, word: string, addr: string, params: string)
    requires IsVerb(word) && SameText(f, word) && IsAddress(addr) && arg == f + ":" + ("<" + addr + ">" + params)
    ensures ExtractMailParam(arg, word) == addr
  {
    SpelledBracketed(f, word, addr, params);
  }

  /** An address without brackets ends at the first space. */
  lemma SpelledBare(f: string, word: string, addr: string, params: string)
    requires IsVerb(word) && SameText(f, word) && IsAddress(addr) && addr != ""
    requires '<' !in params && params != "" && !IsSpace(params[|params| - 1])
    ensures ExtractMailParam(f + ":" + addr, word) == addr
    ensures ExtractMailParam(f + ":" + (addr + " " + params), word) == addr
  {
    TrimAddress(addr);
    AfterSpelled(f, word, addr);
    BareIs(addr);
    var after := addr + " " + params;
    AfterSpelled(f, word, after);
    assert Trimmed(after) by { assert addr[0] in addr && after[|after| - 1] == params[|params| - 1]; }
    TrimSpaceTrims(after);
    BareThen(addr, params);
  }

  lemma NotFound(s: string, c: char)
    requires c !in s
    ensures IndexByte(s, c) == |s|
  {
  }

  lemma NoBracket(s: string)
    requires '<' !in s
    ensures Bracketed(s) == s[..IndexByte(s, ' ')]
  {
    NotFound(s, '<');
  }

  lemma BareIs(addr: string)
    requires IsAddress(addr)
    ensures Bracketed(addr) == addr
  {
    NoBracket(addr);
    NotFound(addr, ' ');
    assert addr[..|addr|] == addr;
  }

  lemma BareThen(addr: string, params: string)
    requires IsAddress(addr) && '<' !in params
    ensures Bracketed(addr + " " + params) == addr
  {
    var s := addr + " " + params;
    NoBracket(s);
    IndexByteSkip(addr, ' ', params);
    assert s[..|addr|] == addr;
  }

  lemma ColonFound(s: string, word: string)
    ensures Index(ToUpper(s), word + ":").Some? ==> ':' in s
  {
    var i := Index(ToUpper(s), word + ":");
    if i.Some? {
      LastOf(ToUpper(s), word, i.value);
      UpperColon(s, i.value + |word|);
    }
  }

  lemma LastOf(s: string, word: string, i: nat)
    requires i + |word| < |s| && s[i..i + |word| + 1] == word + ":"
    ensures s[i + |word|] == ':'
  {
    assert s[i..i + |word| + 1][|word|] == ':';
  }

  lemma UpperColon(s: string, k: nat)
    requires k < |s| && ToUpper(s)[k] == ':'
    ensures ':' in s
  {
    assert s[k] == ':';
  }

  /** Without FROM or TO and its colon, the whole argument is looked at. */
  lemma NoPrefix(word: string, addr: string)
    requires IsAddress(addr) && ':' !in addr
    ensures ExtractMailParam("<" + addr + ">", word) == addr
  {
    var arg := "<" + addr + ">";
    ColonFound(arg, word);
    assert Trimmed(arg);
    TrimSpaceTrims(arg);
    BracketedIs(addr, "");
    assert arg + "" == arg;
    TrimAddress(addr);
  }

  /** What MAIL leaves: 250 and a new envelope exactly when the address is not empty, and otherwise 501. */
  predicate MailEffect(s: State, from: string, t: State) {
    && t.offered == s.offered && t.queries == s.queries && RepliedWith(s, t, if from == "" then 501 else 250)
    && t.from == (if from == "" then s.from else from) && t.rcptTo == (if from == "" then s.rcptTo else [])
  }

  lemma MailDoes(s: State, from: string)
    ensures MailEffect(s, from, MailStep(s, from))
  {
  }

  lemma MailParsed(arg: string, f: string, from: string, params: string)
    requires SameText(f, "FROM") && IsAddress(from) && arg == f + ":" + ("<" + from + ">" + params)
    ensures IsVerb("MAIL") && Interpret("MAIL", arg) == Mail(from)
  {
    AddressIs(arg, f, "FROM", from, params);
    InterpretMail(arg);
  }

  lemma MailAnswered(env: Env, s: State, line: string, verb: string, arg: string, from: string, tail: string,
                     secured: seq<string>) returns (t: State)
    requires env.parse == Parse && IsText(line) && IsVerb(verb) && IsLineOf(line, verb, arg)
    requires Interpret(verb, arg) == Mail(from)
    ensures Serve(env, Conn(s, Input(CommandLine(line) + tail, secured), true))
         == Serve(env, Conn(t, Input(tail, secured), true))
    ensures MailEffect(s, from, t)
  {
    LineHandled(env, s, line, verb, arg, Mail(from), tail, secured);
    t := MailStep(s, from);
    MailDoes(s, from);
  }

  /** MAIL with a bracketed address, in any letter case and with any parameters behind it. */
  lemma MailLine(env: Env, s: State, line: string, f: string, from: string, params: string, tail: string,
                 secured: seq<string>) returns (t: State)
    requires env.parse == Parse && IsText(line) && SameText(f, "FROM") && IsAddress(from)
    requires IsLineOf(line, "MAIL", f + ":" + ("<" + from + ">" + params))
    ensures Serve(env, Conn(s, Input(CommandLine(line) + tail, secured), true))
         == Serve(env, Conn(t, Input(tail, secured), true))
    ensures MailEffect(s, from, t)
  {
    var arg := f + ":" + ("<" + from + ">" + params);
    MailParsed(arg, f, from, params);
    t := MailAnswered(env, s, line, "MAIL", arg, from, tail, secured);
  }

  /** What RCPT leaves: 503 without an envelope, 501 for an empty address, 452 behind a hundred recipients, and otherwise
      as the router says, 250 with the recipient added, or 550. */
  predicate RcptEffect(env: Env, s: State, to: string, t: State) {
    && t.from == s.from && t.offered == s.offered
    && var asked := s.from != "" && to != "" && |s.rcptTo| < 100;
       && t.queries == s.queries + (if asked then 1 else 0)
       && t.rcptTo == s.rcptTo + (if asked && env.routes(s.queries, to) then [to] else [])
       && RepliedWith(s, t, if s.from == "" then 503 else if to == "" then 501 else if |s.rcptTo| >= 100 then 452
                            else if env.routes(s.queries, to) then 250 else 550)
  }

  lemma RcptDoes(env: Env, s: State, to: string)
    ensures RcptEffect(env, s, to, RcptStep(env, s, to))
  {
    assert s.rcptTo + [] == s.rcptTo;
  }

  lemma RcptParsed(arg: string, f: string, to: string, params: string)
    requires SameText(f, "TO") && IsAddress(to) && arg == f + ":" + ("<" + to + ">" + params)
    ensures IsVerb("RCPT") && Interpret("RCPT", arg) == Rcpt(to)
  {
    AddressIs(arg, f, "TO", to, params);
    InterpretRcpt(arg);
  }

  lemma RcptAnswered(env: Env, s: State, line: string, verb: string, arg: string, to: string, tail: string,
                     secured: seq<string>) returns (t: State)
    requires env.parse == Parse && IsText(line) && IsVerb(verb) && IsLineOf(line, verb, arg)
    requires Interpret(verb, arg) == Rcpt(to)
    ensures Serve(env, Conn(s, Input(CommandLine(line) + tail, secured), true))
         == Serve(env, Conn(t, Input(tail, secured), true))
    ensures RcptEffect(env, s, to, t)
  {
    LineHandled(env, s, line, verb, arg, Rcpt(to), tail, secured);
    t := RcptStep(env, s, to);
    RcptDoes(env, s, to);
  }

  /** RCPT with a bracketed address, likewise. */
  lemma RcptLine(env: Env, s: State, line: string, f: string, to: string, params: string, tail: string,
                 secured: seq<string>) returns (t: State)
    requires env.parse == Parse && IsText(line) && SameText(f, "TO") && IsAddress(to)
    requires IsLineOf(line, "RCPT", f + ":" + ("<" + to + ">" + params))
    ensures Serve(env, Conn(s, Input(CommandLine(line) + tail, secured), true))
         == Serve(env, Conn(t, Input(tail, secured), true))
    ensures RcptEffect(env, s, to, t)
  {
    var arg := f + ":" + ("<" + to + ">" + params);
    RcptParsed(arg, f, to, params);
    t := RcptAnswered(env, s, line, "RCPT", arg, to, tail, secured);
  }

  /** DATA in any letter case, and whatever stands behind it, starts reading a message. */
  lemma DataLine(env: Env, s: State, line: string, arg: string, tail: string, secured: seq<string>)
    requires env.parse == Parse && IsText(line) && IsLineOf(line, "DATA", arg)
    ensures Serve(env, Conn(s, Input(CommandLine(line) + tail, secured), true))
         == Serve(env, DataStep(env, s, Input(tail, secured)))
  {
    InterpretData(arg);
    LineHandled(env, s, line, "DATA", arg, Data, tail, secured);
    HandleData(env, s, Input(tail, secured));
  }

  lemma HandleData(env: Env, s: State, input: Input)
    ensures Handle(env, s, Data, input) == DataStep(env, s, input)
  {
  }

  // ---- A message that is cut off ----

  /** No line of the stream is a single dot. */
  ghost predicate Unended(stream: string) {
    forall before, line, after ::
      IsPart(stream, before, line, after) ==> TrimEol(line) != "."
  }

  /** The stream is made of complete lines, this line, and more. */
  predicate IsPart(stream: string, before: string, line: string, after: string) {
    stream == before + line + after && IsLines(before) && IsLine(line)
  }

  lemma FirstPart(stream: string)
    requires ReadLine(stream).Some?
    ensures var (line, rest) := ReadLine(stream).value; IsPart(stream, "", line, rest)
  {
    LfIndexTake(stream);
    var (line, rest) := ReadLine(stream).value;
    assert "" + line == line;
  }

  lemma LaterPart(first: string, rest: string, before: string, line: string, after: string)
    requires IsLine(first) && IsPart(rest, before, line, after)
    ensures IsPart(first + rest, first + before, line, after)
  {
    assert first + (before + line + after) == (first + before) + line + after;
  }

  lemma UnendedRest(stream: string)
    requires Unended(stream) && ReadLine(stream).Some?
    ensures var (line, rest) := ReadLine(stream).value; TrimEol(line) != "." && Unended(rest)
  {
    var (line, rest) := ReadLine(stream).value;
    FirstPart(stream);
    forall before, l, after | IsPart(rest, before, l, after) ensures TrimEol(l) != "." {
      LaterPart(line, rest, before, l, after);
    }
  }

  lemma {:induction false} BodyUnended(stream: string, maxSize: nat, buf: string)
    requires Unended(stream) && |buf| + |stream| <= maxSize
    ensures ReadBody(stream, maxSize, buf) == Disconnected
    decreases |stream|
  {
    if ReadLine(stream).Some? {
      var (line, rest) := ReadLine(stream).value;
      UnendedRest(stream);
      BodyUnended(rest, maxSize, buf + Unstuff(line));
    }
  }

  /** The peer goes away before the line with the dot: the message is answered 451, no part of it is offered to the queue,
      and the conversation is over. */
  lemma MessageCutOff(env: Env, s: State, line: string, arg: string, tail: string, secured: seq<string>) returns (t: State)
    requires env.parse == Parse && IsText(line) && IsLineOf(line, "DATA", arg) && s.from != "" && s.rcptTo != []
    requires Unended(tail) && |tail| <= env.maxSize
    ensures Serve(env, Conn(s, Input(CommandLine(line) + tail, secured), true)) == Conn(t, Input("", secured), false)
    ensures SameEnvelope(s, t) && RepliedWith(s, t, 451)
  {
    DataLine(env, s, line, arg, tail, secured);
    BodyUnended(tail, env.maxSize, "");
    t := Reply(s, Data, 451);
    assert ReadLine("").None?;
  }

  /** Without a sender or a recipient DATA is answered 503, and what follows is read as commands. */
  lemma DataRefused(env: Env, s: State, line: string, arg: string, tail: string, secured: seq<string>) returns (t: State)
    requires env.parse == Parse && IsText(line) && IsLineOf(line, "DATA", arg) && (s.from == "" || s.rcptTo == [])
    ensures Serve(env, Conn(s, Input(CommandLine(line) + tail, secured), true))
         == Serve(env, Conn(t, Input(tail, secured), true))
    ensures SameEnvelope(s, t) && RepliedWith(s, t, 503)
  {
    DataLine(env, s, line, arg, tail, secured);
    t := Reply(s, Data, 503);
  }

  // ---- An abandoned message ----

  /** Whatever was collected before, an RSET line makes a following DATA line be refused, and nothing is offered. */
  lemma ResetAbandons(env: Env, s: State, reset: string, data: string, tail: string, secured: seq<string>) returns (t: State)
    requires env.parse == Parse && IsText(reset) && IsLineOf(reset, "RSET", "") && IsText(data) && IsLineOf(data, "DATA", "")
    ensures Serve(env, Conn(s, Input(CommandLine(reset) + (CommandLine(data) + tail), secured), true))
         == Serve(env, Conn(t, Input(tail, secured), true))
    ensures t.offered == s.offered && t.from == "" && t.rcptTo == [] && t.log != [] && t.log[|t.log| - 1] == Replied(Data, 503)
  {
    var u := ResetLine(env, s, reset, "", CommandLine(data) + tail, secured);
    DataLine(env, u, data, "", tail, secured);
    t := Reply(u, Data, 503);
  }
}
