/** What each operation does to every invitation and team, with its conditions spelled out; and how a bulk request judges
    each of its addresses. */
module InviteEffects {
  import opened BulkInvite
  import opened Common
  import opened Invites
  import opened Text

  // ---- The words ----

  /** No team twice, and each is a team of the organization, not archived, with a role that is one. */
  predicate GoodAssignments(s: State, org: OrgId, assignments: seq<Assignment>) {
    forall i :: 0 <= i < |assignments| ==>
      var a := assignments[i];
      && a.roleOk && a.team in s.teams && s.teams[a.team].org == org && !s.teams[a.team].archived
      && forall j :: 0 <= j < i ==> assignments[j].team != a.team
  }

  /** No legacy team is named, or one of the organization's with a role that is one. */
  predicate GoodLegacy(s: State, org: OrgId, legacy: Option<Legacy>) {
    legacy.Some? ==>
      var team := legacy.value.team;
      legacy.value.roleOk && team.Some? && team.value in s.teams && s.teams[team.value].org == org
  }

  predicate PassesChecks(op: Op, s: State) {
    match op
    case Send(org, _, valid, _, assignments, _) => valid && GoodAssignments(s, org, assignments)
    case BulkSend(org, r) => BulkAccepted(s, org, r)
    case _ => false
  }

  predicate HasTeam(s: State, org: OrgId, team: TeamId) {
    team in s.teams && s.teams[team].org == org
  }

  predicate OpenFor(i: Invite, org: OrgId, email: string) {
    i.org == org && i.email == email && !i.accepted
  }

  /** A bulk request writes a row for this address: it is asked for, its domain takes mail, it is no member's, and no
      organization has a pending invitation for it. */
  predicate BulkWrites(s: State, r: Request, e: string) {
    && e in NonBlank(r.raw) && r.deliverable(e) && !r.member(e)
    && forall id :: id in s.invites && s.invites[id].email == e ==> s.invites[id].accepted || s.invites[id].expiresAt <= s.now
  }

  predicate Open(s: State, i: Invite) {
    !i.accepted && i.expiresAt > s.now
  }

  /** The operation removes this invitation. */
  predicate Goes(s: State, op: Op, i: Invite, id: Id) {
    match op
    case Send(org, email, _, _, _, _) => PassesChecks(op, s) && OpenFor(i, org, Normalize(email))
    case BulkSend(org, r) => PassesChecks(op, s) && OpenFor(i, org, i.email) && BulkWrites(s, r, i.email)
    case Revoke(org, k) => k == id && i.org == org
    case DeleteExpired => !i.accepted && i.expiresAt < s.now
    case Archive(org, team) =>
      HasTeam(s, org, team) && !s.teams[team].archived
      && ((Open(s, i) && i.teams == {team}) || (!i.accepted && i.legacy == Some(team)))
    case DeleteTeam(org, team) => HasTeam(s, org, team) && ((Open(s, i) && i.teams == {team}) || i.legacy == Some(team))
    case _ => false
  }

  /** An invitation is accepted while it has not expired, by whom it is for. */
  predicate Accepts(s: State, op: Op, i: Invite, id: Id) {
    op.Accept? && op.id == id && op.addressMatches && !i.accepted && s.now <= i.expiresAt
  }

  /** The assignments left: archiving takes the team out of pending invitations, deleting it out of all. */
  function TeamsLeft(s: State, op: Op, i: Invite): set<TeamId> {
    match op
    case Archive(org, team) =>
      if HasTeam(s, org, team) && !s.teams[team].archived && Open(s, i) then i.teams - {team} else i.teams
    case DeleteTeam(org, team) => if HasTeam(s, org, team) then i.teams - {team} else i.teams
    case _ => i.teams
  }

  lemma SameChecks(s: State, op: Op)
    requires op.Send?
    ensures AssignmentsOk(s.teams, op.org, op.assignments) <==> GoodAssignments(s, op.org, op.assignments)
    ensures LegacyFits(s, op.org, op.legacy) <==> GoodLegacy(s, op.org, op.legacy)
  {
    if AssignmentsOk(s.teams, op.org, op.assignments) {
      forall i | 0 <= i < |op.assignments| ensures op.assignments[i] in op.assignments {}
    }
  }

  lemma SameBulk(s: State, r: Request, e: string)
    ensures e in ToWrite(ChecksFor(s, r), r.raw) <==> BulkWrites(s, r, e)
  {
    ToWriteExactly(ChecksFor(s, r), r.raw);
  }

  // ---- Invitations ----

  predicate InviteIs(s: State, op: Op, id: Id, t: State)
    requires id in s.invites
  {
    var i := s.invites[id];
    && (id in t.invites <==> !Goes(s, op, i, id))
    && (id in t.invites ==>
          t.invites[id] == i.(accepted := i.accepted || Accepts(s, op, i, id), teams := TeamsLeft(s, op, i)))
  }

  lemma SendInvite(s: State, op: Op, id: Id)
    requires op.Send? && id in s.invites && id < s.next
    ensures InviteIs(s, op, id, Step(s, op))
  {
    SameChecks(s, op);
  }

  lemma {:induction false} WriteRowsDrop(s: State, org: OrgId, emails: seq<string>, r: Request, id: Id)
    requires id < s.next && (id in s.invites ==> OpenFor(s.invites[id], org, s.invites[id].email) && s.invites[id].email in emails)
    ensures id !in WriteRows(s, org, emails, r).invites
    decreases |emails|
  {
    if emails == [] {
    } else {
      WriteRowsDrop(AddInvite(s, org, emails[0], None, Asked(r.assignments), r.expiry), org, emails[1..], r, id);
    }
  }

  lemma BulkInvitation(s: State, op: Op, id: Id)
    requires Inv(s) && op.BulkSend? && id in s.invites
    ensures InviteIs(s, op, id, Step(s, op))
  {
    var i, emails := s.invites[id], ToWrite(ChecksFor(s, op.request), op.request.raw);
    SameBulk(s, op.request, i.email);
    if i.org == op.org && !i.accepted && i.email in emails {
      WriteRowsDrop(s, op.org, emails, op.request, id);
    } else {
      WriteRowsFrame(s, op.org, emails, op.request, id);
    }
  }

  lemma LessTeam(teams: set<TeamId>, team: TeamId)
    requires team !in teams
    ensures teams - {team} == teams
  {
  }

  lemma ArchiveInvite(s: State, org: OrgId, team: TeamId, id: Id)
    requires id in s.invites && HasTeam(s, org, team) && !s.teams[team].archived
    ensures InviteIs(s, Archive(org, team), id, Step(s, Archive(org, team)))
  {
    CascadeExactly(s.invites, s.now, team, id);
    var i := s.invites[id];
    if team !in i.teams { LessTeam(i.teams, team); }
  }

  lemma DeleteInvite(s: State, org: OrgId, team: TeamId, id: Id)
    requires id in s.invites && HasTeam(s, org, team)
    ensures InviteIs(s, DeleteTeam(org, team), id, Step(s, DeleteTeam(org, team)))
  {
    CascadeExactly(s.invites, s.now, team, id);
    var i, cascaded := s.invites[id], Cascade(s.invites, s.now, team);
    assert Step(s, DeleteTeam(org, team)).invites == ForeignKeys(cascaded, team);
    if id in cascaded { assert cascaded[id].teams - {team} == i.teams - {team}; }
  }

  /** Every invitation after every operation: removed by exactly these, accepted, or with a team taken out, and otherwise as
      it was. */
  lemma InviteAfter(s: State, op: Op, id: Id)
    requires Inv(s) && id in s.invites
    ensures InviteIs(s, op, id, Step(s, op))
  {
    match op
    case Send(_, _, _, _, _, _) => SendInvite(s, op, id);
    case BulkSend(_, _) => BulkInvitation(s, op, id);
    case Archive(org, team) => if HasTeam(s, org, team) && !s.teams[team].archived { ArchiveInvite(s, org, team, id); }
    case DeleteTeam(org, team) => if HasTeam(s, org, team) { DeleteInvite(s, org, team, id); }
    case _ =>
  }

  /** A single invitation that passes all checks is the one new invitation: for the address in normal form, open, until its
      expiry counted from now, with the teams asked for. No operation but the sending ones adds any. */
  lemma NewInviteAfter(s: State, op: Op, id: Id)
    requires id !in s.invites && !op.BulkSend?
    ensures var t := Step(s, op);
            && (id in t.invites <==> op.Send? && id == s.next && PassesChecks(op, s) && GoodLegacy(s, op.org, op.legacy))
            && (id in t.invites ==>
                  t.invites[id] == Invite(op.org, Normalize(op.email), false, s.now + op.expiry,
                                          if op.legacy.Some? then op.legacy.value.team else None,
                                          set a | a in op.assignments :: a.team))
  {
    if op.Send? {
      SameChecks(s, op);
    }
  }

  // ---- Teams ----

  /** A team is archived and restored, moved while it is not archived, and deleted, by its own organization only. */
  lemma TeamAfter(s: State, op: Op, team: TeamId)
    requires team in s.teams
    ensures var after, own := Step(s, op).teams, s.teams[team];
            && (team in after <==> op != DeleteTeam(own.org, team))
            && (team in after ==>
                  && (after[team].archived <==>
                        op == Archive(own.org, team) || (own.archived && op != Restore(own.org, team)))
                  && after[team].org == if op.TransferTeam? && op.org == own.org && op.team == team && !own.archived
                                        then op.target else own.org)
  {
    if op.BulkSend? && BulkAccepted(s, op.org, op.request) {
      WriteRowsTeams(s, op.org, ToWrite(ChecksFor(s, op.request), op.request.raw), op.request);
    }
  }

  lemma {:induction false} WriteRowsTeams(s: State, org: OrgId, emails: seq<string>, r: Request)
    ensures WriteRows(s, org, emails, r).teams == s.teams
    decreases |emails|
  {
    if emails == [] {
    } else {
      WriteRowsTeams(AddInvite(s, org, emails[0], None, Asked(r.assignments), r.expiry), org, emails[1..], r);
    }
  }

  // ---- The verdicts of a bulk request ----

  lemma {:induction false} JudgedAt(c: Checks, es: seq<string>, k: nat)
    requires k < |es|
    ensures Judged(c, es)[k] == Item(es[k], VerdictOn(c, es[..k], es[k]))
  {
    var n := |es| - 1;
    if k < n {
      JudgedAt(c, es[..n], k);
      assert es[..n][..k] == es[..k];
    }
  }

  /** The verdict on each address of a request: a duplicate if it came before; otherwise the first of these that applies: its
      domain takes no mail, it is a member's, it is invited, its row cannot be written; otherwise created. */
  lemma VerdictExactly(c: Checks, es: seq<string>, k: nat)
    requires k < |es|
    ensures var e, v := es[k], Judged(c, es)[k].verdict;
            && Judged(c, es)[k].email == e
            && (v == Duplicate <==> exists j :: 0 <= j < k && es[j] == e)
            && (v != Duplicate ==>
                  && (v == Undeliverable <==> !c.deliverable(e))
                  && (v == AlreadyMember <==> c.deliverable(e) && c.member(e))
                  && (v == AlreadyInvited <==> c.deliverable(e) && !c.member(e) && c.invited(e))
                  && (v == NotWritten <==> c.deliverable(e) && !c.member(e) && !c.invited(e) && !c.writable(e))
                  && (v == Created <==> c.deliverable(e) && !c.member(e) && !c.invited(e) && c.writable(e)))
  {
    JudgedAt(c, es, k);
    assert es[k] in es[..k] <==> exists j :: 0 <= j < k && es[j] == es[k];
  }

  /** The lines at which an address is given. */
  function LinesOf(raw: seq<string>, e: string): set<nat> {
    set k: nat | k < |raw| && Normalize(raw[k]) == e
  }

  lemma LinesGrow(raw: seq<string>, line: string, e: string)
    ensures |LinesOf(raw + [line], e)| == |LinesOf(raw, e)| + if Normalize(line) == e then 1 else 0
  {
    var all := raw + [line];
    if Normalize(line) == e {
      assert LinesOf(all, e) == LinesOf(raw, e) + {|raw|};
    } else {
      assert LinesOf(all, e) == LinesOf(raw, e);
    }
  }

  lemma JudgedGrow(raw: seq<string>, line: string, e: string)
    ensures Count(NonBlank(raw + [line]), e) == Count(NonBlank(raw), e) + if Normalize(line) == e != "" then 1 else 0
  {
    NonBlankAppend(raw, line);
    CountAppend(NonBlank(raw), Normalize(line), e);
  }

  /** Every address is judged as often as some line has it for its normal form; blank lines are never judged. */
  lemma {:induction false} NonBlankExactly(raw: seq<string>, e: string)
    ensures Count(NonBlank(raw), e) == if e == "" then 0 else |LinesOf(raw, e)|
  {
    if raw == [] {
      assert LinesOf(raw, e) == {};
    } else {
      var front, line := raw[..|raw| - 1], raw[|raw| - 1];
      assert raw == front + [line];
      NonBlankExactly(front, e);
      JudgedGrow(front, line, e);
      LinesGrow(front, line, e);
    }
  }
}
