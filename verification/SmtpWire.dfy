/** Bytes on an SMTP connection: reading lines, and the dot-stuffed message body of section 4.5.2 of RFC 5321.
    A stream is the sequence of bytes that will arrive before the peer closes the connection. */
module SmtpWire {
  import opened Common

  /** Index of the first line feed, or the length when there is none. */
  function LfIndex(s: string): (i: nat)
    ensures i <= |s|
    ensures forall j :: 0 <= j < i ==> s[j] != '\n'
    ensures i < |s| ==> s[i] == '\n'
  {
    if s == "" || s[0] == '\n' then 0 else 1 + LfIndex(s[1..])
  }

  /** A line together with its line feed, and what follows it; None when the stream ends first. */
  function ReadLine(stream: string): (r: Option<(string, string)>)
    ensures r.Some? ==> r.value.0 + r.value.1 == stream && |r.value.0| > 0
  {
    var i := LfIndex(stream);
    if i == |stream| then None else Some((stream[..i + 1], stream[i + 1..]))
  }

  /** strings.TrimRight(line, "\r\n") */
  function TrimEol(s: string): (r: string)
    ensures r <= s
  {
    if s != "" && s[|s| - 1] in "\r\n" then TrimEol(s[..|s| - 1]) else s
  }

  datatype DataResult = Message(data: string, rest: string) | TooLarge(rest: string) | Disconnected

  /** The body line that a wire line stands for: a leading dot is removed. */
  function Unstuff(line: string): string {
    if |TrimEol(line)| > 0 && TrimEol(line)[0] == '.' then line[1..] else line
  }

  /** Read a message body into `buf` until the line holding a single dot, giving up as soon as it would outgrow
      `maxSize`. */
  function ReadBody(stream: string, maxSize: nat, buf: string): DataResult
    decreases |stream|
  {
    match ReadLine(stream)
    case None => Disconnected
    case Some((line, rest)) =>
      if TrimEol(line) == "." then Message(buf, rest)
      else if |buf| + |Unstuff(line)| > maxSize then TooLarge(rest)
      else ReadBody(rest, maxSize, buf + Unstuff(line))
  }

  // ---- The sender's side ----

  /** Empty, or made of complete lines. */
  predicate IsLines(body: string) {
    body == "" || body[|body| - 1] == '\n'
  }

  /** A body line as written on the wire: a leading dot is doubled. */
  function Wire(line: string): string
    requires line != ""
  {
    if line[0] == '.' then "." + line else line
  }

  /** Dot-stuffing: every line that begins with a dot gets another one. */
  function Stuff(body: string): string
    requires IsLines(body)
    decreases |body|
  {
    if body == "" then ""
    else
      var i := LfIndex(body);
      Wire(body[..i + 1]) + Stuff(body[i + 1..])
  }

  /** What a client sends after the 354 reply. */
  function Encode(body: string): string
    requires IsLines(body)
  {
    Stuff(body) + ".\r\n"
  }

  // ---- Lines ----

  /** One line with its line feed. */
  predicate IsLine(line: string) {
    line != "" && LfIndex(line) == |line| - 1
  }

  lemma {:induction false} LfIndexAppend(s: string, tail: string)
    requires LfIndex(s) < |s|
    ensures LfIndex(s + tail) == LfIndex(s)
  {
    if s[0] != '\n' {
      LfIndexAppend(s[1..], tail);
      assert (s + tail)[1..] == s[1..] + tail;
    }
  }

  lemma {:induction false} LfIndexTake(s: string)
    requires LfIndex(s) < |s|
    ensures LfIndex(s[..LfIndex(s) + 1]) == LfIndex(s)
  {
    if s[0] != '\n' {
      LfIndexTake(s[1..]);
      assert s[..LfIndex(s) + 1][1..] == s[1..][..LfIndex(s[1..]) + 1];
    }
  }

  /** Reading gives back a line that was written, whatever follows. */
  lemma ReadLineOf(line: string, tail: string)
    requires IsLine(line)
    ensures ReadLine(line + tail) == Some((line, tail))
  {
    LfIndexAppend(line, tail);
    assert (line + tail)[..|line|] == line && (line + tail)[|line|..] == tail;
  }

  lemma {:induction false} TrimEolKeepsHead(s: string, k: nat)
    requires k < |s| && s[k] !in "\r\n"
    ensures |TrimEol(s)| > k && TrimEol(s)[k] == s[k]
    decreases |s|
  {
    if s[|s| - 1] in "\r\n" {
      TrimEolKeepsHead(s[..|s| - 1], k);
    }
  }

  lemma {:induction false} TrimEolHead(s: string)
    ensures TrimEol(s) != "" ==> s != "" && TrimEol(s)[0] == s[0]
    decreases |s|
  {
    if s != "" && s[|s| - 1] in "\r\n" { TrimEolHead(s[..|s| - 1]); }
  }

  /** A stuffed line is never taken for the terminator and unstuffs to the line it came from. */
  lemma StuffedLine(line: string)
    requires line != "" && line[|line| - 1] == '\n'
    ensures TrimEol(Wire(line)) != "." && Unstuff(Wire(line)) == line
  {
    var wire := Wire(line);
    if line[0] == '.' {
      TrimEolKeepsHead(wire, 0);
      TrimEolKeepsHead(wire, 1);
    } else {
      TrimEolHead(wire);
    }
  }

  lemma Terminator(tail: string)
    ensures ReadLine(".\r\n" + tail) == Some((".\r\n", tail)) && TrimEol(".\r\n") == "."
  {
    ReadLineOf(".\r\n", tail);
    assert ".\r\n"[..2] == ".\r" && ".\r"[..1] == ".";
  }

  lemma WireIsLine(line: string)
    requires IsLine(line)
    ensures IsLine(Wire(line))
  {
    assert ("." + line)[1..] == line;
  }

  /** Stuffing works line by line. */
  lemma StuffLine(line: string, more: string)
    requires IsLine(line) && IsLines(more)
    ensures IsLines(line + more) && Stuff(line + more) == Wire(line) + Stuff(more)
  {
    var body := line + more;
    LfIndexAppend(line, more);
    assert body[..|line|] == line && body[|line|..] == more;
  }

  lemma EncodeLine(line: string, more: string)
    requires IsLine(line) && IsLines(more)
    ensures IsLines(line + more) && Encode(line + more) == Wire(line) + Encode(more)
  {
    StuffLine(line, more);
    Associative(Wire(line), Stuff(more), ".\r\n");
  }

  /** Split the first line off a body. */
  lemma FirstLine(body: string) returns (line: string, more: string)
    requires IsLines(body) && body != ""
    ensures IsLine(line) && IsLines(more) && body == line + more
  {
    var i := LfIndex(body);
    line, more := body[..i + 1], body[i + 1..];
    LfIndexTake(body);
  }

  /** Reading one line of an encoded body. */
  lemma ReadFirst(line: string, more: string, tail: string, maxSize: nat, buf: string)
    requires IsLine(line) && IsLines(more)
    ensures IsLines(line + more)
    ensures ReadBody(Encode(line + more) + tail, maxSize, buf)
         == if |buf| + |line| > maxSize then TooLarge(Encode(more) + tail)
            else ReadBody(Encode(more) + tail, maxSize, buf + line)
  {
    var wire, rest := Wire(line), Encode(more) + tail;
    EncodeLine(line, more);
    assert Encode(line + more) + tail == wire + rest by { Associative(wire, Encode(more), tail); }
    WireIsLine(line);
    ReadLineOf(wire, rest);
    StuffedLine(line);
  }

  /** The whole framing law: reading an encoded body, in any line-structured form and followed by any bytes,
      returns exactly that body and leaves exactly those bytes when the body fits, and reports that it is too
      large when it does not. */
  lemma {:induction false} ReadEncoded(body: string, tail: string, maxSize: nat, buf: string)
    requires IsLines(body) && |buf| <= maxSize
    ensures var r := ReadBody(Encode(body) + tail, maxSize, buf);
            if |buf| + |body| <= maxSize then r == Message(buf + body, tail) else r.TooLarge?
    decreases |body|
  {
    if body == "" {
      Terminator(tail);
      assert Encode(body) + tail == ".\r\n" + tail;
      assert buf + body == buf;
    } else {
      var line, more := FirstLine(body);
      ReadFirst(line, more, tail, maxSize, buf);
      if |buf| + |line| <= maxSize {
        ReadEncoded(more, tail, maxSize, buf + line);
        Associative(buf, line, more);
      }
    }
  }

  /** Where reading stops when the body does not fit: behind the line that passed the limit. What is left of the body is
      still on the stream, with its terminator. */
  lemma {:induction false} OversizeLeavesRest(body: string, tail: string, maxSize: nat, buf: string)
    returns (read: string, more: string)
    requires IsLines(body) && |buf| <= maxSize < |buf| + |body|
    ensures IsLines(more) && body == read + more && read != ""
    ensures ReadBody(Encode(body) + tail, maxSize, buf) == TooLarge(Encode(more) + tail)
    decreases |body|
  {
    var line, rest := FirstLine(body);
    ReadFirst(line, rest, tail, maxSize, buf);
    if |buf| + |line| <= maxSize {
      var next;
      next, more := OversizeLeavesRest(rest, tail, maxSize, buf + line);
      read := line + next;
      Associative(line, next, more);
    } else {
      read, more := line, rest;
    }
  }

  /** Dot-stuffing round trip, at top level: a body is delivered if and only if it fits. */
  lemma RoundTrip(body: string, tail: string, maxSize: nat)
    requires IsLines(body)
    ensures ReadBody(Encode(body) + tail, maxSize, "") == Message(body, tail) <==> |body| <= maxSize
    ensures |body| > maxSize ==> ReadBody(Encode(body) + tail, maxSize, "").TooLarge?
  {
    ReadEncoded(body, tail, maxSize, "");
    assert "" + body == body;
  }

  // ---- Arbitrary input ----

  /** The message at the head of a stream, with no limit on its size. */
  function Unlimited(stream: string): Option<(string, string)>
    decreases |stream|
  {
    match ReadLine(stream)
    case None => None
    case Some((line, rest)) =>
      if TrimEol(line) == "." then Some(("", rest))
      else match Unlimited(rest)
           case None => None
           case Some((data, tail)) => Some((Unstuff(line) + data, tail))
  }

  /** On every input, checking the size while reading accepts exactly the messages that fit, and with the same
      contents and the same remaining bytes as reading without a limit. */
  lemma {:induction false} LimitIsExact(stream: string, maxSize: nat, buf: string)
    requires |buf| <= maxSize
    ensures var r := ReadBody(stream, maxSize, buf);
            var u := Unlimited(stream);
            r.Message? <==> u.Some? && |buf| + |u.value.0| <= maxSize
    ensures var r := ReadBody(stream, maxSize, buf);
            var u := Unlimited(stream);
            r.Message? ==> r.data == buf + u.value.0 && r.rest == u.value.1 && |r.data| <= maxSize
    decreases |stream|
  {
    if ReadLine(stream).Some? {
      var (line, rest) := ReadLine(stream).value;
      var part := Unstuff(line);
      if TrimEol(line) != "." && |buf| + |part| <= maxSize {
        LimitIsExact(rest, maxSize, buf + part);
        if Unlimited(rest).Some? {
          Associative(buf, part, Unlimited(rest).value.0);
        }
      }
    }
  }

  lemma Associative<T>(a: seq<T>, b: seq<T>, c: seq<T>)
    ensures a + b + c == a + (b + c)
  {
  }

  lemma {:induction false} ReadsWholeLines(stream: string, maxSize: nat, buf: string)
    requires IsLines(buf)
    ensures ReadBody(stream, maxSize, buf).Message? ==> IsLines(ReadBody(stream, maxSize, buf).data)
    decreases |stream|
  {
    if ReadLine(stream).Some? {
      var (line, rest) := ReadLine(stream).value;
      assert line[|line| - 1] == '\n';
      if TrimEol(line) != "." && |buf| + |Unstuff(line)| <= maxSize {
        TrimEolHead(line);
        ReadsWholeLines(rest, maxSize, buf + Unstuff(line));
      }
    }
  }

  /** Whatever form a message arrived in, sending what was read in canonical form reads back the same. */
  lemma Canonical(stream: string, maxSize: nat)
    requires ReadBody(stream, maxSize, "").Message?
    ensures var r := ReadBody(stream, maxSize, ""); IsLines(r.data) && ReadBody(Encode(r.data) + r.rest, maxSize, "") == r
  {
    LimitIsExact(stream, maxSize, "");
    ReadsWholeLines(stream, maxSize, "");
    var r := ReadBody(stream, maxSize, "");
    RoundTrip(r.data, r.rest, maxSize);
  }

  /** The reading loop of a session. */
  class Reader {
    var stream: string
    const maxSize: nat

    constructor (stream: string, maxSize: nat)
      ensures this.stream == stream && this.maxSize == maxSize
    {
      this.stream := stream;
      this.maxSize := maxSize;
    }

    method ReadString() returns (line: Option<string>)
      modifies this
      ensures match ReadLine(old(stream))
              case None => line.None? && stream == ""
              case Some((l, rest)) => line == Some(l) && stream == rest
    {
      var n := 0;
      while n < |stream| && stream[n] != '\n'
        invariant n <= LfIndex(stream)
      {
        n := n + 1;
      }
      if n == |stream| {
        line, stream := None, "";
      } else {
        line, stream := Some(stream[..n + 1]), stream[n + 1..];
      }
    }

    method ReadData() returns (data: Option<string>)
      modifies this
      ensures match ReadBody(old(stream), maxSize, "")
              case Message(d, rest) => data == Some(d) && stream == rest
              case TooLarge(rest) => data.None? && stream == rest
              case Disconnected => data.None? && stream == ""
    {
      var buf := "";
      ghost var start := stream;
      while true
        invariant ReadBody(start, maxSize, "") == ReadBody(stream, maxSize, buf)
        decreases |stream|
      {
        var next := ReadString();
        if next.None? {
          return None;
        }
        var line := next.value;
        var trimmed := TrimEol(line);
        if trimmed == "." {
          return Some(buf);
        }
        if |trimmed| > 0 && trimmed[0] == '.' {
          line := line[1..];
        }
        if |buf| + |line| > maxSize {
          return None;
        }
        buf := buf + line;
      }
    }
  }
}
