/** Mail finds an inbox under every spelling of its address: in either case of its letters, with white space around it. */
module InboxSpelling {
  import opened Common
  import opened InboxCache
  import opened Text

  /** An address as it is stored: no capital letter, and no white space at its ends. */
  predicate Plain(a: Address) {
    Trimmed(a) && forall i :: 0 <= i < |a| ==> !IsUpper(a[i])
  }

  lemma PlainNormal(a: Address, to: string)
    requires Plain(a)
    ensures Normalize(to) == a <==> exists core :: Padded(to, core) && SameText(core, a)
  {
    NormalFormExactly(to, a);
  }

  /** Router and worker treat two spellings of one address alike, in every state and whatever Redis calls fail. */
  lemma SpellingIrrelevant(s: State, a: string, b: string, unread: bool, lost: bool)
    requires SameAddress(a, b)
    ensures CanAccept(s, a, unread) <==> CanAccept(s, b, unread)
    ensures ProcessStep(s, a, unread, lost) == ProcessStep(s, b, unread, lost)
  {
    SameAddressExactly(a, b);
  }

  /** Over every run: a live inbox with a plain address is accepted by the router under every spelling of it, and a worker
      stores mail in it exactly when the recipient is a spelling of it and no readable key names another inbox. */
  lemma EverySpelling(ops: seq<Op>, id: Id, to: string, unread: bool, lost: bool)
    requires var s := Run(EMPTY, ops); id in s.rows && LiveRow(s.rows[id], s.now) && Plain(s.rows[id].address)
    ensures var s := Run(EMPTY, ops);
            var spelled := exists core :: Padded(to, core) && SameText(core, s.rows[id].address);
            var key := Cached(s.cache, s.now, s.rows[id].address);
            && (spelled ==> CanAccept(s, to, unread))
            && (ProcessStep(s, to, unread, lost).1 == Stored(id) <==>
                  spelled && (unread || key.None? || key == Some(Garbage) || key == Some(Inbox(id))))
  {
    var s := Run(EMPTY, ops);
    RunKeeps(EMPTY, ops);
    PlainNormal(s.rows[id].address, to);
    ProcessExactly(s, to, unread, lost, id);
    SafeUnderAnyFaults(ops, to, unread, lost, id);
  }

  lemma AliasPlain(alias: string, domain: string)
    requires AliasOk(alias) && Plain(domain) && domain != ""
    ensures Plain(FullAddress(alias, domain))
  {
    var a := FullAddress(alias, domain);
    forall i | 0 <= i < |a| ensures !IsUpper(a[i]) {
      if i < |alias| { assert a[i] == alias[i]; } else if i > |alias| { assert a[i] == domain[i - |alias| - 1]; }
    }
    assert a[0] == alias[0] && a[|a| - 1] == domain[|domain| - 1];
  }

  /** An inbox created in a domain with a plain name has a plain address, so this covers all of them. */
  lemma CreatedPlain(s: State, op: Op)
    requires op.Create? && Step(s, op).1 == Done && Plain(op.domain) && op.domain != ""
    ensures var t := Step(s, op).0; s.next in t.rows && Plain(t.rows[s.next].address)
  {
    AliasPlain(op.alias, op.domain);
  }
}
