/** How a bulk invitation sorts its addresses. */
module BulkInvite {
  import opened Text

  /** What the rest of the system says about an address: its domain takes mail, it belongs to a member, an invitation
      is pending, its row can be written. */
  datatype Checks = Checks(deliverable: string -> bool, member: string -> bool, invited: string -> bool,
                           writable: string -> bool)

  datatype Verdict = Created | Duplicate | AlreadyMember | AlreadyInvited | Undeliverable | NotWritten

  datatype Item = Item(email: string, verdict: Verdict)

  const MAX_EMAILS := 100

  const SKIPS := {Duplicate, AlreadyMember, AlreadyInvited}
  const PASSING := {Created, NotWritten}
  const FAILURES := {Undeliverable, NotWritten}

  /** The addresses of a request in normal form, blank lines left out. */
  function NonBlank(raw: seq<string>): seq<string> {
    if raw == [] then []
    else
      var before, e := raw[..|raw| - 1], Normalize(raw[|raw| - 1]);
      if e == "" then NonBlank(before) else NonBlank(before) + [e]
  }

  /** The address passes the first pass. */
  predicate Passes(c: Checks, e: string) {
    c.deliverable(e) && !c.member(e) && !c.invited(e)
  }

  predicate Qualified(c: Checks, e: string) {
    Passes(c, e) && c.writable(e)
  }

  function VerdictOn(c: Checks, before: seq<string>, e: string): Verdict {
    if e in before then Duplicate
    else if !c.deliverable(e) then Undeliverable
    else if c.member(e) then AlreadyMember
    else if c.invited(e) then AlreadyInvited
    else if !c.writable(e) then NotWritten
    else Created
  }

  /** Every address with its verdict; only the first of equal ones is looked at. */
  function Judged(c: Checks, es: seq<string>): (r: seq<Item>)
    ensures |r| == |es|
  {
    if es == [] then []
    else
      var before, e := es[..|es| - 1], es[|es| - 1];
      Judged(c, before) + [Item(e, VerdictOn(c, before, e))]
  }

  /** The items with one of the given verdicts, in order. */
  function Select(items: seq<Item>, vs: set<Verdict>): seq<Item> {
    if items == [] then []
    else
      var front, last := items[..|items| - 1], items[|items| - 1];
      if last.verdict in vs then Select(front, vs) + [last] else Select(front, vs)
  }

  function Emails(items: seq<Item>): (r: seq<string>)
    ensures |r| == |items|
  {
    if items == [] then [] else Emails(items[..|items| - 1]) + [items[|items| - 1].email]
  }

  // ---- The partition ----

  lemma SelectAppend(items: seq<Item>, i: Item, vs: set<Verdict>)
    ensures Select(items + [i], vs) == if i.verdict in vs then Select(items, vs) + [i] else Select(items, vs)
  {
    assert (items + [i])[..|items|] == items;
  }

  lemma EmailsAppend(items: seq<Item>, i: Item)
    ensures Emails(items + [i]) == Emails(items) + [i.email]
  {
    assert (items + [i])[..|items|] == items;
  }

  lemma JudgedAppend(c: Checks, es: seq<string>, e: string)
    ensures Judged(c, es + [e]) == Judged(c, es) + [Item(e, VerdictOn(c, es, e))]
  {
    assert (es + [e])[..|es|] == es;
  }

  function Count(s: seq<string>, e: string): nat {
    if s == [] then 0 else Count(s[..|s| - 1], e) + if s[|s| - 1] == e then 1 else 0
  }

  /** How often an address has one of the given verdicts. */
  function Tally(items: seq<Item>, vs: set<Verdict>, e: string): nat {
    if items == [] then 0
    else
      var last := items[|items| - 1];
      Tally(items[..|items| - 1], vs, e) + if last.verdict in vs && last.email == e then 1 else 0
  }

  lemma {:induction false} SelectTally(items: seq<Item>, vs: set<Verdict>, e: string)
    ensures Count(Emails(Select(items, vs)), e) == Tally(items, vs, e)
  {
    if items == [] {
    } else {
      var front, last := items[..|items| - 1], items[|items| - 1];
      SelectTally(front, vs, e);
      if last.verdict in vs {
        EmailsAppend(Select(front, vs), last);
        CountAppend(Emails(Select(front, vs)), last.email, e);
      }
    }
  }

  lemma CountAppend(s: seq<string>, x: string, e: string)
    ensures Count(s + [x], e) == Count(s, e) + if x == e then 1 else 0
  {
    assert (s + [x])[..|s|] == s;
  }

  /** Every judged address is in exactly one of the three groups, as often as it was given. */
  lemma {:induction false} Partition(c: Checks, es: seq<string>, e: string)
    ensures var items := Judged(c, es);
            Tally(items, {Created}, e) + Tally(items, SKIPS, e) + Tally(items, FAILURES, e) == Count(es, e)
  {
    if es == [] {
    } else {
      var before, last := es[..|es| - 1], es[|es| - 1];
      Partition(c, before, e);
      var items, i := Judged(c, before), Item(last, VerdictOn(c, before, last));
      assert Judged(c, es)[..|items|] == items;
    }
  }

  predicate Distinct(s: seq<string>) {
    forall i, j :: 0 <= i < j < |s| ==> s[i] != s[j]
  }

  /** Verdicts of addresses that pass the first pass, or the second as well. */
  function Good(written: bool): set<Verdict> {
    if written then {Created} else PASSING
  }

  predicate Meets(c: Checks, e: string, written: bool) {
    Passes(c, e) && (written ==> c.writable(e))
  }

  lemma GoodVerdict(c: Checks, before: seq<string>, e: string, written: bool)
    ensures VerdictOn(c, before, e) in Good(written) <==> e !in before && Meets(c, e, written)
  {
  }

  /** What holds of the selected addresses so far. */
  ghost predicate ExactList(c: Checks, es: seq<string>, written: bool, l: seq<string>) {
    Distinct(l) && forall e :: e in l <==> e in es && Meets(c, e, written)
  }

  lemma ExactGrows(c: Checks, es: seq<string>, e: string, written: bool, l: seq<string>)
    requires ExactList(c, es, written, l)
    ensures ExactList(c, es + [e], written, if e !in es && Meets(c, e, written) then l + [e] else l)
  {
  }

  /** Exactly the addresses that meet the checks are selected, each once, however often it was given. */
  lemma {:induction false} SelectedExactly(c: Checks, es: seq<string>, written: bool)
    ensures ExactList(c, es, written, Emails(Select(Judged(c, es), Good(written))))
  {
    if es == [] {
    } else {
      var before, e := es[..|es| - 1], es[|es| - 1];
      var items, i := Judged(c, before), Item(e, VerdictOn(c, before, e));
      SelectedExactly(c, before, written);
      ExactGrows(c, before, e, written, Emails(Select(items, Good(written))));
      GoodVerdict(c, before, e, written);
      assert es == before + [e];
      SelectedAppend(items, i, Good(written));
      JudgedAppend(c, before, e);
    }
  }

  lemma SelectedAppend(items: seq<Item>, i: Item, vs: set<Verdict>)
    ensures Emails(Select(items + [i], vs))
         == if i.verdict in vs then Emails(Select(items, vs)) + [i.email] else Emails(Select(items, vs))
  {
    SelectAppend(items, i, vs);
    if i.verdict in vs { EmailsAppend(Select(items, vs), i); }
  }

  /** Exactly the qualified addresses are created, each once, however often it was given. */
  lemma CreatedExactly(c: Checks, es: seq<string>)
    ensures var created := Emails(Select(Judged(c, es), {Created}));
            Distinct(created) && forall e :: e in created <==> e in es && Qualified(c, e)
  {
    SelectedExactly(c, es, true);
  }

  /** The addresses the first pass lets through, for the second to write. */
  function ToWrite(c: Checks, raw: seq<string>): seq<string> {
    Emails(Select(Judged(c, NonBlank(raw)), PASSING))
  }

  lemma ToWriteExactly(c: Checks, raw: seq<string>)
    ensures Distinct(ToWrite(c, raw)) && forall e :: e in ToWrite(c, raw) <==> e in NonBlank(raw) && Passes(c, e)
  {
    SelectedExactly(c, NonBlank(raw), false);
  }

  /** A row that cannot be written aborts the transaction, so the batch takes effect only when all can. */
  predicate Commits(c: Checks, raw: seq<string>) {
    forall e <- ToWrite(c, raw) :: c.writable(e)
  }

  lemma {:induction false} SelectTwice(items: seq<Item>, vs: set<Verdict>, ws: set<Verdict>)
    requires ws <= vs
    ensures Select(Select(items, vs), ws) == Select(items, ws)
  {
    if items == [] {
    } else {
      var front, i := items[..|items| - 1], items[|items| - 1];
      SelectTwice(front, vs, ws);
      if i.verdict in vs {
        SelectAppend(Select(front, vs), i, ws);
      }
    }
  }

  // ---- The two passes ----

  lemma NonBlankAppend(raw: seq<string>, r: string)
    ensures NonBlank(raw + [r]) == if Normalize(r) == "" then NonBlank(raw) else NonBlank(raw) + [Normalize(r)]
  {
    assert (raw + [r])[..|raw|] == raw;
  }

  /** What the first pass has put aside after the addresses `es`: those it will try to write, those it skips, those it
      reports as failed. */
  predicate Sorted(c: Checks, es: seq<string>, valid: seq<string>, skipped: seq<Item>, failed: seq<Item>) {
    var items := Judged(c, es);
    && valid == Emails(Select(items, PASSING))
    && skipped == Select(items, SKIPS)
    && failed == Select(items, {Undeliverable})
  }

  lemma SortedGrows(c: Checks, es: seq<string>, e: string, valid: seq<string>, skipped: seq<Item>, failed: seq<Item>)
    requires Sorted(c, es, valid, skipped, failed)
    ensures var v := VerdictOn(c, es, e);
            && (v in SKIPS ==> Sorted(c, es + [e], valid, skipped + [Item(e, v)], failed))
            && (v == Undeliverable ==> Sorted(c, es + [e], valid, skipped, failed + [Item(e, v)]))
            && (v == Created || v == NotWritten ==> Sorted(c, es + [e], valid + [e], skipped, failed))
  {
    var items, i := Judged(c, es), Item(e, VerdictOn(c, es, e));
    JudgedAppend(c, es, e);
    SelectAppend(items, i, PASSING);
    SelectAppend(items, i, SKIPS);
    SelectAppend(items, i, {Undeliverable});
    EmailsAppend(Select(items, PASSING), i);
  }

  /** First pass: every address is looked at once, with a set of those seen. */
  method Validate(c: Checks, raw: seq<string>) returns (valid: seq<string>, skipped: seq<Item>, failed: seq<Item>)
    ensures Sorted(c, NonBlank(raw), valid, skipped, failed)
  {
    var seen: set<string> := {};
    valid, skipped, failed := [], [], [];
    ghost var es: seq<string> := [];
    for k := 0 to |raw|
      invariant es == NonBlank(raw[..k]) && forall e :: e in seen <==> e in es
      invariant Sorted(c, es, valid, skipped, failed)
    {
      assert raw[..k + 1] == raw[..k] + [raw[k]];
      NonBlankAppend(raw[..k], raw[k]);
      var email := Normalize(raw[k]);
      if email != "" {
        SortedGrows(c, es, email, valid, skipped, failed);
        if email in seen {
          skipped := skipped + [Item(email, Duplicate)];
        } else if !c.deliverable(email) {
          failed := failed + [Item(email, Undeliverable)];
        } else if c.member(email) {
          skipped := skipped + [Item(email, AlreadyMember)];
        } else if c.invited(email) {
          skipped := skipped + [Item(email, AlreadyInvited)];
        } else {
          valid := valid + [email];
        }
        seen := seen + {email};
        es := es + [email];
      }
    }
    assert raw[..|raw|] == raw;
  }

  lemma {:induction false} FailuresSplit(items: seq<Item>, e: string)
    ensures Tally(items, {Undeliverable}, e) + Tally(items, {NotWritten}, e) == Tally(items, FAILURES, e)
  {
    if items == [] {
    } else {
      FailuresSplit(items[..|items| - 1], e);
    }
  }

  /** What passes the first pass is judged by the second. */
  lemma {:induction false} ValidVerdicts(c: Checks, es: seq<string>)
    ensures forall i <- Select(Judged(c, es), PASSING) ::
              i.verdict == if c.writable(i.email) then Created else NotWritten
  {
    if es == [] {
    } else {
      ValidVerdicts(c, es[..|es| - 1]);
    }
  }

  predicate Written(done: seq<Item>, created: seq<string>, failed: seq<Item>) {
    created == Emails(Select(done, {Created})) && failed == Select(done, {NotWritten})
  }

  lemma WrittenGrows(done: seq<Item>, i: Item, created: seq<string>, failed: seq<Item>)
    requires Written(done, created, failed)
    ensures i.verdict == Created ==> Written(done + [i], created + [i.email], failed)
    ensures i.verdict == NotWritten ==> Written(done + [i], created, failed + [i])
  {
    SelectAppend(done, i, {Created});
    SelectAppend(done, i, {NotWritten});
    EmailsAppend(Select(done, {Created}), i);
  }

  /** Second pass, one transaction: rows are written, and those that cannot be are reported as failed. */
  method WriteAll(c: Checks, ghost vs: seq<Item>, valid: seq<string>) returns (created: seq<string>, failed: seq<Item>)
    requires valid == Emails(vs)
    requires forall i <- vs :: i.verdict == if c.writable(i.email) then Created else NotWritten
    ensures Written(vs, created, failed) && (failed == [] <==> forall e <- valid :: c.writable(e))
  {
    EmailsAt(vs);
    created, failed := [], [];
    ghost var done: seq<Item> := [];
    for k := 0 to |valid|
      invariant done == vs[..k] && Written(done, created, failed)
      invariant failed == [] <==> forall j :: 0 <= j < k ==> c.writable(valid[j])
    {
      assert vs[..k + 1] == done + [vs[k]] && vs[k] in vs;
      WrittenGrows(done, vs[k], created, failed);
      if c.writable(valid[k]) {
        created := created + [valid[k]];
      } else {
        failed := failed + [Item(valid[k], NotWritten)];
      }
      done := done + [vs[k]];
    }
    assert done == vs;
  }

  lemma {:induction false} EmailsAt(items: seq<Item>)
    ensures forall k :: 0 <= k < |items| ==> Emails(items)[k] == items[k].email
  {
    if items == [] {
    } else {
      EmailsAt(items[..|items| - 1]);
    }
  }

  lemma SplitLast(a: seq<Item>, b: seq<Item>) returns (front: seq<Item>, i: Item)
    requires b != []
    ensures b == front + [i] && a + b == (a + front) + [i]
  {
    front, i := b[..|b| - 1], b[|b| - 1];
  }

  lemma CountItem(items: seq<Item>, i: Item, e: string)
    ensures Count(Emails(items + [i]), e) == Count(Emails(items), e) + if i.email == e then 1 else 0
  {
    EmailsAppend(items, i);
    CountAppend(Emails(items), i.email, e);
  }

  lemma {:induction false} CountConcat(a: seq<Item>, b: seq<Item>, e: string)
    ensures Count(Emails(a + b), e) == Count(Emails(a), e) + Count(Emails(b), e)
    decreases |b|
  {
    if b == [] {
      assert a + b == a;
    } else {
      var front, i := SplitLast(a, b);
      CountConcat(a, front, e);
      CountItem(a + front, i, e);
      CountItem(front, i, e);
    }
  }

  /** A bulk invitation either fails as a whole, because it is too long or a row could not be written, or lands every
      non-blank address in exactly one of created, skipped and failed, as often as it was given. Created are then exactly
      the qualified addresses, each once, and failed only those whose domain takes no mail. */
  method BulkInviteMembers(c: Checks, raw: seq<string>)
    returns (ok: bool, created: seq<string>, skipped: seq<Item>, failed: seq<Item>)
    ensures ok == (|raw| <= MAX_EMAILS && Commits(c, raw))
    ensures ok ==>
      && (forall e :: Count(created, e) + Count(Emails(skipped), e) + Count(Emails(failed), e) == Count(NonBlank(raw), e))
      && |created| + |skipped| + |failed| == |NonBlank(raw)|
      && Distinct(created) && (forall e :: e in created <==> e in NonBlank(raw) && Passes(c, e))
      && skipped == Select(Judged(c, NonBlank(raw)), SKIPS) && failed == Select(Judged(c, NonBlank(raw)), {Undeliverable})
    ensures !ok ==> created == [] && skipped == [] && failed == []
  {
    if |raw| > MAX_EMAILS {
      return false, [], [], [];
    }
    ghost var es := NonBlank(raw);
    ghost var items := Judged(c, es);
    var valid, unwritten;
    valid, skipped, failed := Validate(c, raw);
    ValidVerdicts(c, es);
    created, unwritten := WriteAll(c, Select(items, PASSING), valid);
    if unwritten != [] {
      return false, [], [], [];
    }
    ok := true;
    SelectTwice(items, PASSING, {Created});
    SelectTwice(items, PASSING, {NotWritten});
    CreatedExactly(c, es);
    ToWriteExactly(c, raw);
    Sizes(items);
    forall e ensures Count(created, e) + Count(Emails(skipped), e) + Count(Emails(failed), e) == Count(es, e) {
      AllCounted(c, es, failed, unwritten, e);
      assert failed + [] == failed;
    }
  }

  lemma {:induction false} Sizes(items: seq<Item>)
    ensures |Select(items, {Created})| + |Select(items, SKIPS)| + |Select(items, {Undeliverable})|
            + |Select(items, {NotWritten})| == |items|
  {
    if items == [] {
    } else {
      Sizes(items[..|items| - 1]);
      var v := items[|items| - 1].verdict;
      assert v in SKIPS <==> v != Created && v != Undeliverable && v != NotWritten;
    }
  }

  lemma AllCounted(c: Checks, es: seq<string>, invalid: seq<Item>, unwritten: seq<Item>, e: string)
    requires invalid == Select(Judged(c, es), {Undeliverable}) && unwritten == Select(Judged(c, es), {NotWritten})
    ensures var items := Judged(c, es);
            Count(Emails(Select(items, {Created})), e) + Count(Emails(Select(items, SKIPS)), e)
            + Count(Emails(invalid + unwritten), e) == Count(es, e)
  {
    var items := Judged(c, es);
    Partition(c, es, e);
    FailuresSplit(items, e);
    SelectTally(items, {Created}, e);
    SelectTally(items, SKIPS, e);
    SelectTally(items, {Undeliverable}, e);
    SelectTally(items, {NotWritten}, e);
    CountConcat(invalid, unwritten, e);
  }
}
