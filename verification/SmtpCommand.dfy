/** Parsing of SMTP command lines. */
module SmtpCommand {
  import opened Common
  import opened Text

  /** The verb, folded to upper case, and the rest of the line after the first space. */
  function ParseCommand(line: string): (string, string) {
    var i := IndexByte(line, ' ');
    (ToUpper(line[..i]), if i < |line| then line[i + 1..] else "")
  }

  /** What follows "FROM:" or "TO:", or the whole argument when the prefix is missing. */
  function AfterVerb(arg: string, verb: string): string {
    match Index(ToUpper(arg), verb + ":")
    case None => arg
    case Some(i) => arg[i + |verb| + 1..]
  }

  /** The text between the first '<' and the '>' after it, or up to the first space. */
  function Bracketed(a: string): string {
    var start := IndexByte(a, '<');
    var end := IndexByte(a[start..], '>');
    if start < |a| && start + end < |a| then a[start + 1..start + end] else a[..IndexByte(a, ' ')]
  }

  /** The address after "FROM:" or "TO:", with or without angle brackets; ESMTP parameters are dropped. */
  function ExtractMailParam(arg: string, verb: string): string {
    TrimSpace(Bracketed(TrimSpace(AfterVerb(arg, verb))))
  }

  // ---- Well-formed commands are understood ----

  /** An address as it may appear between angle brackets. */
  predicate IsAddress(addr: string) {
    forall c <- addr :: c != '<' && c != '>' && !IsSpace(c)
  }

  predicate IsVerb(verb: string) {
    forall c <- verb :: 'A' <= c <= 'Z'
  }

  lemma UpperVerb(verb: string, tail: string)
    requires IsVerb(verb)
    ensures verb + ":" <= ToUpper(verb + ":" + tail)
  {
    var s := verb + ":" + tail;
    forall i | 0 <= i < |verb| ensures ToUpper(s)[i] == verb[i] {
      assert s[i] == verb[i] && verb[i] in verb;
    }
    assert ToUpper(s)[..|verb| + 1] == verb + ":";
  }

  lemma {:induction false} TrimRightKeeps(s: string, k: nat)
    requires k < |s| && !IsSpace(s[k])
    ensures TrimRight(s) <= s && |TrimRight(s)| > k
    decreases |s|
  {
    if IsSpace(s[|s| - 1]) {
      TrimRightKeeps(s[..|s| - 1], k);
    }
  }

  lemma TrimAddress(addr: string)
    requires IsAddress(addr)
    ensures TrimSpace(addr) == addr
  {
    if addr != "" {
      assert addr[0] in addr && addr[|addr| - 1] in addr;
    }
  }

  lemma BracketedIs(addr: string, tail: string)
    requires IsAddress(addr)
    ensures Bracketed("<" + addr + ">" + tail) == addr
  {
    IndexByteSkip("<" + addr, '>', tail);
    var a := "<" + addr + ">" + tail;
    assert a[0..] == a;
    assert a[1..|addr| + 1] == addr;
  }

  lemma TrimBracketed(addr: string, params: string) returns (tail: string)
    ensures TrimSpace("<" + addr + ">" + params) == "<" + addr + ">" + tail
  {
    var a := "<" + addr + ">";
    TrimRightKeeps(a + params, |addr| + 1);
    var trimmed := TrimRight(a + params);
    tail := trimmed[|a|..];
    assert trimmed[..|a|] == (a + params)[..|a|] == a;
  }

  /** A bracketed address is extracted exactly, whatever parameters follow the bracket. */
  lemma ExtractBracketed(verb: string, addr: string, params: string)
    requires IsVerb(verb) && IsAddress(addr)
    ensures ExtractMailParam(verb + ":" + ("<" + addr + ">" + params), verb) == addr
  {
    var after := "<" + addr + ">" + params;
    UpperVerb(verb, after);
    assert AfterVerb(verb + ":" + after, verb) == after;
    var tail := TrimBracketed(addr, params);
    BracketedIs(addr, tail);
    TrimAddress(addr);
  }

  /** A command line splits into its verb and its argument. */
  lemma ParseVerb(verb: string, arg: string)
    requires IsVerb(verb)
    ensures ParseCommand(verb + " " + arg) == (verb, arg) && ParseCommand(verb) == (verb, "")
  {
    assert forall c <- verb :: c != ' ';
    IndexByteSkip(verb, ' ', arg);
    assert (verb + " " + arg)[..|verb|] == verb && (verb + " " + arg)[|verb| + 1..] == arg;
    UpperIsIdentity(verb);
    assert IndexByte(verb, ' ') == |verb|;
    assert verb[..|verb|] == verb;
  }

  lemma UpperIsIdentity(verb: string)
    requires IsVerb(verb)
    ensures ToUpper(verb) == verb
  {
    forall i | 0 <= i < |verb| ensures ToUpper(verb)[i] == verb[i] {
      assert verb[i] in verb;
    }
  }
}
