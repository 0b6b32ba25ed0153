/** Invitations to an organization and its teams, and what happens to them when a team is archived or deleted. */
module Invites {
  import opened BulkInvite
  import opened Common
  import opened Text

  type Id = nat
  type OrgId = nat
  type TeamId = nat

  datatype Team = Team(org: OrgId, archived: bool)

  /** `legacy` is the old single-team column; `teams` are the rows of the assignment table, unique per team. */
  datatype Invite = Invite(org: OrgId, email: string, accepted: bool, expiresAt: int,
                           legacy: Option<TeamId>, teams: set<TeamId>)

  datatype State = State(now: int, teams: map<TeamId, Team>, invites: map<Id, Invite>, next: Id)

  /** A requested assignment, and whether its role is one. */
  datatype Assignment = Assignment(team: TeamId, roleOk: bool)

  /** A requested legacy team: None when the id does not parse. */
  datatype Legacy = Legacy(team: Option<TeamId>, roleOk: bool)

  /** A bulk request, with what DNS, the membership table and the database say about its addresses. */
  datatype Request = Request(raw: seq<string>, deliverable: string -> bool, member: string -> bool,
                             writable: string -> bool, assignments: seq<Assignment>, expiry: int)

  /** `valid` stands for the checks of a single invitation that come first: address, domain, role and auth methods. */
  datatype Op =
    | Tick(d: nat)
    | CreateTeam(team: TeamId, org: OrgId)
    | Send(org: OrgId, email: string, valid: bool, legacy: Option<Legacy>, assignments: seq<Assignment>, expiry: int)
    | BulkSend(org: OrgId, request: Request)
    | Accept(id: Id, addressMatches: bool)
    | Revoke(org: OrgId, id: Id)
    | DeleteExpired
    | Archive(org: OrgId, team: TeamId)
    | Restore(org: OrgId, team: TeamId)
    | DeleteTeam(org: OrgId, team: TeamId)
    | TransferTeam(org: OrgId, team: TeamId, target: OrgId)

  predicate Pending(i: Invite, now: int) {
    !i.accepted && i.expiresAt > now
  }

  // ---- Sending ----

  predicate Owns(s: State, org: OrgId, team: TeamId) {
    team in s.teams && s.teams[team].org == org
  }

  function Asked(assignments: seq<Assignment>): set<TeamId> {
    set a | a in assignments :: a.team
  }

  /** No team twice, and every team exists, belongs to the organization, is not archived and comes with a valid role. */
  predicate AssignmentsOk(teams: map<TeamId, Team>, org: OrgId, assignments: seq<Assignment>) {
    && (forall i, j :: 0 <= i < j < |assignments| ==> assignments[i].team != assignments[j].team)
    && (forall a <- assignments :: a.team in teams && teams[a.team].org == org && !teams[a.team].archived && a.roleOk)
  }

  /** The legacy team is a team of the organization and comes with a valid role. It may be archived. */
  predicate LegacyFits(s: State, org: OrgId, legacy: Option<Legacy>) {
    legacy.Some? ==> legacy.value.team.Some? && Owns(s, org, legacy.value.team.value) && legacy.value.roleOk
  }

  function LegacyTeam(legacy: Option<Legacy>): Option<TeamId> {
    if legacy.Some? then legacy.value.team else None
  }

  /** Unaccepted invitations of one address, expired ones included. */
  function SameAddress(invites: map<Id, Invite>, org: OrgId, email: string): set<Id> {
    set id | id in invites && invites[id].org == org && invites[id].email == email && !invites[id].accepted
  }

  function DropSameAddress(s: State, org: OrgId, email: string): State {
    s.(invites := s.invites - SameAddress(s.invites, org, email))
  }

  function AddInvite(s: State, org: OrgId, email: string, legacy: Option<TeamId>, teams: set<TeamId>, expiry: int): State {
    var t := DropSameAddress(s, org, email);
    t.(invites := t.invites[t.next := Invite(org, email, false, s.now + expiry, legacy, teams)], next := t.next + 1)
  }

  /** The old invitation goes before the legacy team is checked, so a request that fails on that team has already
      withdrawn it. */
  function SendStep(s: State, org: OrgId, email: string, legacy: Option<Legacy>, assignments: seq<Assignment>, expiry: int): State {
    if !AssignmentsOk(s.teams, org, assignments) then s
    else if !LegacyFits(s, org, legacy) then DropSameAddress(s, org, email)
    else AddInvite(s, org, email, LegacyTeam(legacy), Asked(assignments), expiry)
  }

  /** Whether any organization has a pending invitation for the address. */
  predicate PendingAnywhere(s: State, email: string) {
    exists id :: id in s.invites && Pending(s.invites[id], s.now) && s.invites[id].email == email
  }

  predicate PendingIn(s: State, org: OrgId, email: string) {
    exists id :: id in s.invites && Pending(s.invites[id], s.now) && s.invites[id].email == email && s.invites[id].org == org
  }

  /** The checks of a bulk request: the lookup of pending invitations is by address alone. */
  function ChecksFor(s: State, r: Request): Checks {
    Checks(r.deliverable, r.member, e => PendingAnywhere(s, e), r.writable)
  }

  /** The transaction of a bulk request: for each address the old invitation goes and the new one is written. */
  function WriteRows(s: State, org: OrgId, emails: seq<string>, r: Request): State
    decreases |emails|
  {
    if emails == [] then s
    else
      WriteRows(AddInvite(s, org, emails[0], None, Asked(r.assignments), r.expiry), org, emails[1..], r)
  }

  /** The request is valid and its transaction commits. */
  predicate BulkAccepted(s: State, org: OrgId, r: Request) {
    |r.raw| <= MAX_EMAILS && AssignmentsOk(s.teams, org, r.assignments) && Commits(ChecksFor(s, r), r.raw)
  }

  // ---- The cascade ----

  predicate Affected(i: Invite, now: int, team: TeamId) {
    Pending(i, now) && team in i.teams
  }

  /** Invitations for this team alone go, and so does every unaccepted one that names it in the legacy column. */
  predicate Revoked(i: Invite, now: int, team: TeamId) {
    (Affected(i, now, team) && |i.teams| <= 1) || (i.legacy == Some(team) && !i.accepted)
  }

  function Cascade(invites: map<Id, Invite>, now: int, team: TeamId): map<Id, Invite> {
    map id | id in invites && !Revoked(invites[id], now, team) ::
      if Affected(invites[id], now, team) then invites[id].(teams := invites[id].teams - {team}) else invites[id]
  }

  /** Deleting a team takes its assignment rows and the invitations of its legacy column along. */
  function ForeignKeys(invites: map<Id, Invite>, team: TeamId): map<Id, Invite> {
    map id | id in invites && invites[id].legacy != Some(team) :: invites[id].(teams := invites[id].teams - {team})
  }

  // ---- Steps ----

  function Step(s: State, op: Op): State {
    match op
    case Tick(d) => s.(now := s.now + d)
    case CreateTeam(team, org) => if team in s.teams then s else s.(teams := s.teams[team := Team(org, false)])
    case Send(org, email, valid, legacy, assignments, expiry) =>
      if valid then SendStep(s, org, Normalize(email), legacy, assignments, expiry) else s
    case BulkSend(org, r) =>
      if BulkAccepted(s, org, r) then WriteRows(s, org, ToWrite(ChecksFor(s, r), r.raw), r) else s
    case Accept(id, matches) =>
      if id in s.invites && !s.invites[id].accepted && s.now <= s.invites[id].expiresAt && matches then
        s.(invites := s.invites[id := s.invites[id].(accepted := true)])
      else s
    case Revoke(org, id) => if id in s.invites && s.invites[id].org == org then s.(invites := s.invites - {id}) else s
    case DeleteExpired =>
      s.(invites := map id | id in s.invites && (s.invites[id].accepted || s.now <= s.invites[id].expiresAt) :: s.invites[id])
    case Archive(org, team) =>
      if Owns(s, org, team) && !s.teams[team].archived then
        s.(teams := s.teams[team := Team(org, true)], invites := Cascade(s.invites, s.now, team))
      else s
    case Restore(org, team) =>
      if Owns(s, org, team) && s.teams[team].archived then s.(teams := s.teams[team := Team(org, false)]) else s
    case DeleteTeam(org, team) =>
      if Owns(s, org, team) then
        s.(teams := s.teams - {team}, invites := ForeignKeys(Cascade(s.invites, s.now, team), team))
      else s
    case TransferTeam(org, team, target) =>
      if Owns(s, org, team) && !s.teams[team].archived then s.(teams := s.teams[team := Team(target, false)]) else s
  }

  function Run(s: State, ops: seq<Op>): State
    decreases |ops|
  {
    if ops == [] then s else Run(Step(s, ops[0]), ops[1..])
  }

  const EMPTY := State(0, map[], map[], 0)

  // ---- The cascade, exactly ----

  /** After the cascade no pending invitation is assigned to the team; legacy sweep apart, an invitation is revoked
      exactly when the team was its only assignment; every survivor keeps all its other assignments, and one that was
      affected keeps at least one. */
  lemma CascadeExactly(invites: map<Id, Invite>, now: int, team: TeamId, id: Id)
    requires id in invites
    ensures var i, after := invites[id], Cascade(invites, now, team);
            && (id in after ==> !Affected(after[id], now, team))
            && (i.legacy != Some(team) ==> (id !in after <==> Pending(i, now) && i.teams == {team}))
            && (id in after ==> after[id].teams - {team} == i.teams - {team} && after[id] == i.(teams := after[id].teams))
            && (id in after && Affected(i, now, team) ==> after[id].teams != {})
            && (id in after && !Affected(i, now, team) ==> after[id] == i)
  {
    var i := invites[id];
    if team in i.teams {
      if |i.teams| <= 1 {
        OnlyOne(i.teams, team);
      } else {
        assert i.teams - {team} != {} by { assert |i.teams - {team}| == |i.teams| - 1; }
      }
    }
  }

  lemma OnlyOne(s: set<TeamId>, t: TeamId)
    requires t in s && |s| <= 1
    ensures s == {t}
  {
    assert |s - {t}| == 0;
  }

  // ---- Every run ----

  /** A pending invitation is assigned to no team that is archived or gone. */
  predicate Clean(s: State, i: Invite) {
    Pending(i, s.now) ==> forall t <- i.teams :: t in s.teams && !s.teams[t].archived
  }

  predicate SameOpen(a: Invite, b: Invite) {
    !a.accepted && !b.accepted && a.org == b.org && a.email == b.email
  }

  /** An address has at most one unaccepted invitation in an organization. */
  predicate OnePerAddress(invites: map<Id, Invite>) {
    forall i, j :: i in invites && j in invites && SameOpen(invites[i], invites[j]) ==> i == j
  }

  predicate Inv(s: State) {
    && (forall id :: id in s.invites ==> id < s.next && Clean(s, s.invites[id]))
    && OnePerAddress(s.invites)
  }

  lemma DropKeeps(s: State, org: OrgId, email: string)
    requires Inv(s)
    ensures Inv(DropSameAddress(s, org, email))
  {
    var t := DropSameAddress(s, org, email);
    assert forall id :: id in t.invites ==> id in s.invites && t.invites[id] == s.invites[id];
    assert forall i :: Clean(s, i) <==> Clean(t, i);
  }

  lemma AddKeeps(s: State, org: OrgId, email: string, legacy: Option<TeamId>, teams: set<TeamId>, expiry: int)
    requires Inv(s) && forall t <- teams :: t in s.teams && !s.teams[t].archived
    ensures Inv(AddInvite(s, org, email, legacy, teams, expiry))
  {
    DropKeeps(s, org, email);
    var d := DropSameAddress(s, org, email);
    var t := AddInvite(s, org, email, legacy, teams, expiry);
    forall id | id in t.invites ensures id < t.next && Clean(t, t.invites[id]) {
      if id != d.next { assert Clean(d, d.invites[id]); }
    }
    assert forall id :: id in d.invites ==> !(d.invites[id].org == org && d.invites[id].email == email && !d.invites[id].accepted);
  }

  lemma {:induction false} WriteRowsKeep(s: State, org: OrgId, emails: seq<string>, r: Request)
    requires Inv(s) && forall t <- Asked(r.assignments) :: t in s.teams && !s.teams[t].archived
    ensures Inv(WriteRows(s, org, emails, r))
    decreases |emails|
  {
    if emails == [] {
    } else {
      AddKeeps(s, org, emails[0], None, Asked(r.assignments), r.expiry);
      WriteRowsKeep(AddInvite(s, org, emails[0], None, Asked(r.assignments), r.expiry), org, emails[1..], r);
    }
  }

  lemma SendKeeps(s: State, org: OrgId, email: string, legacy: Option<Legacy>, assignments: seq<Assignment>, expiry: int)
    requires Inv(s)
    ensures Inv(SendStep(s, org, email, legacy, assignments, expiry))
  {
    if AssignmentsOk(s.teams, org, assignments) {
      DropKeeps(s, org, email);
      AddKeeps(s, org, email, LegacyTeam(legacy), Asked(assignments), expiry);
    }
  }

  /** Invitations that shrink: fewer rows, fewer teams, other fields alike. */
  predicate Shrunk(before: map<Id, Invite>, after: map<Id, Invite>) {
    forall id :: id in after ==>
      id in before && after[id] == before[id].(teams := after[id].teams) && after[id].teams <= before[id].teams
  }

  lemma ShrunkOne(before: map<Id, Invite>, after: map<Id, Invite>)
    requires Shrunk(before, after) && OnePerAddress(before)
    ensures OnePerAddress(after)
  {
  }

  lemma ArchiveKeeps(s: State, org: OrgId, team: TeamId)
    requires Inv(s) && Owns(s, org, team)
    ensures Inv(s.(teams := s.teams[team := Team(org, true)], invites := Cascade(s.invites, s.now, team)))
  {
    var t := s.(teams := s.teams[team := Team(org, true)], invites := Cascade(s.invites, s.now, team));
    ShrunkOne(s.invites, t.invites);
    forall id | id in t.invites ensures id < t.next && Clean(t, t.invites[id]) {
      CascadeExactly(s.invites, s.now, team, id);
      assert Clean(s, s.invites[id]);
    }
  }

  lemma DeleteKeeps(s: State, org: OrgId, team: TeamId)
    requires Inv(s) && Owns(s, org, team)
    ensures Inv(s.(teams := s.teams - {team}, invites := ForeignKeys(Cascade(s.invites, s.now, team), team)))
  {
    var cascaded := Cascade(s.invites, s.now, team);
    var t := s.(teams := s.teams - {team}, invites := ForeignKeys(cascaded, team));
    ShrunkOne(s.invites, cascaded);
    ShrunkOne(cascaded, t.invites);
    forall id | id in t.invites ensures id < t.next && Clean(t, t.invites[id]) {
      CascadeExactly(s.invites, s.now, team, id);
      assert Clean(s, s.invites[id]);
    }
  }

  lemma PlainKeeps(s: State, op: Op)
    requires Inv(s) && (op.Tick? || op.CreateTeam? || op.Accept? || op.Revoke? || op.DeleteExpired? || op.Restore?
                         || op.TransferTeam?)
    ensures Inv(Step(s, op))
  {
    var t := Step(s, op);
    forall id | id in t.invites ensures id < t.next && Clean(t, t.invites[id]) { assert Clean(s, s.invites[id]); }
  }

  lemma StepKeeps(s: State, op: Op)
    requires Inv(s)
    ensures Inv(Step(s, op))
  {
    match op
    case Send(org, email, valid, legacy, assignments, expiry) =>
      SendKeeps(s, org, Normalize(email), legacy, assignments, expiry);
    case BulkSend(org, r) =>
      if BulkAccepted(s, org, r) { WriteRowsKeep(s, org, ToWrite(ChecksFor(s, r), r.raw), r); }
    case Archive(org, team) => if Owns(s, org, team) { ArchiveKeeps(s, org, team); }
    case DeleteTeam(org, team) => if Owns(s, org, team) { DeleteKeeps(s, org, team); }
    case _ => PlainKeeps(s, op);
  }

  lemma {:induction false} RunKeeps(s: State, ops: seq<Op>)
    requires Inv(s)
    ensures Inv(Run(s, ops))
    decreases |ops|
  {
    if ops == [] {
    } else {
      StepKeeps(s, ops[0]);
      RunKeeps(Step(s, ops[0]), ops[1..]);
    }
  }

  /** Over every run, from the first invitation on: no pending invitation is assigned to an archived or deleted team, and
      no address has two unaccepted invitations in one organization. */
  lemma NoInviteToArchivedTeam(ops: seq<Op>, id: Id)
    ensures var s := Run(EMPTY, ops); id in s.invites ==> Clean(s, s.invites[id])
    ensures OnePerAddress(Run(EMPTY, ops).invites)
  {
    RunKeeps(EMPTY, ops);
  }

  // ---- The legacy column ----

  predicate LegacyOk(s: State, i: Invite) {
    !i.accepted && i.legacy.Some? ==> i.legacy.value in s.teams && !s.teams[i.legacy.value].archived
  }

  predicate LegacyClean(s: State) {
    forall id :: id in s.invites ==> id < s.next && LegacyOk(s, s.invites[id])
  }

  /** An invitation that names an archived team in the legacy column: nothing refuses it. */
  predicate NamesArchived(s: State, op: Op) {
    && op.Send? && op.valid && AssignmentsOk(s.teams, op.org, op.assignments) && LegacyFits(s, op.org, op.legacy)
    && op.legacy.Some? && s.teams[op.legacy.value.team.value].archived
  }

  lemma AddLegacy(s: State, org: OrgId, email: string, legacy: Option<TeamId>, teams: set<TeamId>, expiry: int)
    requires LegacyClean(s)
    ensures LegacyClean(AddInvite(s, org, email, legacy, teams, expiry))
       <==> (legacy.Some? ==> legacy.value in s.teams && !s.teams[legacy.value].archived)
  {
    var t := AddInvite(s, org, email, legacy, teams, expiry);
    forall id | id in t.invites && id != s.next ensures id < t.next && LegacyOk(t, t.invites[id]) {
      assert LegacyOk(s, s.invites[id]);
    }
    assert LegacyClean(t) <==> LegacyOk(t, t.invites[s.next]);
  }

  lemma DropLegacy(s: State, org: OrgId, email: string)
    requires LegacyClean(s)
    ensures LegacyClean(DropSameAddress(s, org, email))
  {
    var d := DropSameAddress(s, org, email);
    forall id | id in d.invites ensures id < d.next && LegacyOk(d, d.invites[id]) { assert LegacyOk(s, s.invites[id]); }
  }

  lemma {:induction false} WriteRowsLegacy(s: State, org: OrgId, emails: seq<string>, r: Request)
    requires LegacyClean(s)
    ensures LegacyClean(WriteRows(s, org, emails, r))
    decreases |emails|
  {
    if emails == [] {
    } else {
      AddLegacy(s, org, emails[0], None, Asked(r.assignments), r.expiry);
      WriteRowsLegacy(AddInvite(s, org, emails[0], None, Asked(r.assignments), r.expiry), org, emails[1..], r);
    }
  }

  lemma PlainLegacy(s: State, op: Op)
    requires LegacyClean(s) && !op.Send? && !op.BulkSend?
    ensures LegacyClean(Step(s, op))
  {
    var t := Step(s, op);
    forall id | id in t.invites ensures id < t.next && LegacyOk(t, t.invites[id]) { assert LegacyOk(s, s.invites[id]); }
  }

  /** The legacy column stays free of archived teams over a step exactly when the step does not send such an
      invitation: archiving sweeps the column, sending does not look at it. */
  lemma StepLegacyExactly(s: State, op: Op)
    requires LegacyClean(s)
    ensures LegacyClean(Step(s, op)) <==> !NamesArchived(s, op)
  {
    match op
    case Send(org, email, valid, legacy, assignments, expiry) =>
      AddLegacy(s, org, Normalize(email), LegacyTeam(legacy), Asked(assignments), expiry);
      DropLegacy(s, org, Normalize(email));
    case BulkSend(org, r) => WriteRowsLegacy(s, org, ToWrite(ChecksFor(s, r), r.raw), r);
    case _ => PlainLegacy(s, op);
  }

  predicate NeverNamesArchived(s: State, ops: seq<Op>)
    decreases |ops|
  {
    ops != [] ==> !NamesArchived(s, ops[0]) && NeverNamesArchived(Step(s, ops[0]), ops[1..])
  }

  predicate LegacyCleanThroughout(s: State, ops: seq<Op>)
    decreases |ops|
  {
    LegacyClean(s) && (ops != [] ==> LegacyCleanThroughout(Step(s, ops[0]), ops[1..]))
  }

  /** Over a run it is free of them in every state exactly when no step of the run is such an invitation. */
  lemma {:induction false} RunLegacyExactly(s: State, ops: seq<Op>)
    requires LegacyClean(s)
    ensures LegacyCleanThroughout(s, ops) <==> NeverNamesArchived(s, ops)
    decreases |ops|
  {
    if ops == [] {
    } else {
      StepLegacyExactly(s, ops[0]);
      if !NamesArchived(s, ops[0]) {
        RunLegacyExactly(Step(s, ops[0]), ops[1..]);
      }
    }
  }

  /** For instance: a team is created and archived, and an invitation names it. */
  lemma ArchivedLegacyReached(email: string, expiry: nat)
    ensures var ops := [CreateTeam(0, 1), Archive(1, 0), Send(1, email, true, Some(Legacy(Some(0), true)), [], expiry)];
            !LegacyClean(Run(EMPTY, ops))
  {
    var ops := [CreateTeam(0, 1), Archive(1, 0), Send(1, email, true, Some(Legacy(Some(0), true)), [], expiry)];
    var s1 := Step(EMPTY, ops[0]);
    var s2 := Step(s1, ops[1]);
    var s3 := Step(s2, ops[2]);
    StepLegacyExactly(s2, ops[2]);
    assert Run(s2, ops[2..]) == s3 by { assert ops[2..][1..] == []; }
    assert Run(s1, ops[1..]) == s3 by { assert ops[1..][1..] == ops[2..]; }
  }

  // ---- Refused invitations ----

  /** A single invitation goes out. */
  predicate Accepted(s: State, op: Op)
    requires op.Send?
  {
    op.valid && AssignmentsOk(s.teams, op.org, op.assignments) && LegacyFits(s, op.org, op.legacy)
  }

  /** A refused invitation changes the store exactly when the refusal came after the withdrawal, that is on the legacy
      team or its role, and there was an open invitation to withdraw. Then exactly that one is gone. */
  lemma RefusedSendExactly(s: State, op: Op)
    requires op.Send? && !Accepted(s, op)
    ensures var t, open := Step(s, op), SameAddress(s.invites, op.org, Normalize(op.email));
            && (t != s <==> op.valid && AssignmentsOk(s.teams, op.org, op.assignments) && open != {})
            && (t != s ==> t == s.(invites := s.invites - open))
  {
    var open := SameAddress(s.invites, op.org, Normalize(op.email));
    if open == {} {
      assert s.invites - open == s.invites;
    } else {
      var id :| id in open;
      assert id in s.invites && id !in s.invites - open;
    }
  }

  /** For instance: an invitation, and then another for the same address with a legacy team that does not parse. */
  lemma RefusedResendWithdraws(email: string, expiry: nat)
    ensures var first := Send(1, email, true, None, [], expiry);
            var again := Send(1, email, true, Some(Legacy(None, true)), [], expiry);
            var s := Run(EMPTY, [first]);
            !Accepted(s, again) && s.invites.Keys == {0} && Step(s, again).invites == map[]
  {
    var first := Send(1, email, true, None, [], expiry);
    var s := Step(EMPTY, first);
    assert Run(EMPTY, [first]) == s by { assert [first][1..] == []; }
    assert s.invites == map[0 := Invite(1, Normalize(email), false, expiry, None, {})] by { assert Asked([]) == {}; }
  }

  /** An accepted one leaves the address with exactly one open invitation, the new one. */
  lemma AcceptedSendReplaces(s: State, op: Op)
    requires Inv(s) && op.Send? && Accepted(s, op)
    ensures var t := Step(s, op);
            && SameAddress(t.invites, op.org, Normalize(op.email)) == {s.next}
            && t.invites[s.next].teams == Asked(op.assignments)
            && (forall id :: id in s.invites && id !in SameAddress(s.invites, op.org, Normalize(op.email)) ==>
                  id in t.invites && t.invites[id] == s.invites[id])
  {
  }

  // ---- Bulk invitations ----

  /** A pending invitation of any organization makes the bulk check skip an address that would pass otherwise. The skip is
      what this organization's own invitations call for exactly when one of them is pending, or none of anyone's is. */
  lemma SkipRightExactly(s: State, org: OrgId, r: Request, before: seq<string>, e: string)
    requires e !in before && r.deliverable(e) && !r.member(e)
    ensures var skipped := VerdictOn(ChecksFor(s, r), before, e) == AlreadyInvited;
            && (skipped <==> PendingAnywhere(s, e))
            && ((skipped <==> PendingIn(s, org, e)) <==> PendingIn(s, org, e) || !PendingAnywhere(s, e))
  {
  }

  /** For instance: two organizations, and the first has invited the address. The second's bulk request leaves it out. The
      service creates one organization only, so this presupposes a database with another. */
  lemma SkippedForForeignInvite(email: string, expiry: nat)
    requires Normalize(email) == email != "" && expiry > 0
    ensures var r := Request([email], e => true, e => false, e => true, [], expiry);
            var s := Run(EMPTY, [Send(1, email, true, None, [], expiry), BulkSend(2, r)]);
            PendingIn(s, 1, email) && !PendingIn(s, 2, email)
  {
    var r := Request([email], e => true, e => false, e => true, [], expiry);
    var ops := [Send(1, email, true, None, [], expiry), BulkSend(2, r)];
    var s1 := Step(EMPTY, ops[0]);
    assert s1.invites == map[0 := Invite(1, email, false, expiry, None, {})] by {
      assert Asked([]) == {};
    }
    assert 0 in s1.invites && PendingAnywhere(s1, email);
    var c := ChecksFor(s1, r);
    assert !Passes(c, email);
    OnlyAddress(c, email);
    assert Step(s1, ops[1]) == s1;
    assert Run(s1, ops[1..]) == s1 by { assert ops[1..][1..] == []; }
  }

  lemma OnlyAddress(c: Checks, email: string)
    requires Normalize(email) == email != "" && !Passes(c, email)
    ensures ToWrite(c, [email]) == []
  {
    NonBlankAppend([], email);
    JudgedAppend(c, [], email);
    GoodVerdict(c, [], email, false);
    SelectAppend([], Item(email, VerdictOn(c, [], email)), PASSING);
    assert [] + [email] == [email] && [] + [Item(email, VerdictOn(c, [], email))] == [Item(email, VerdictOn(c, [], email))];
  }

  /** Other invitations stay as they are. */
  lemma {:induction false} WriteRowsFrame(s: State, org: OrgId, emails: seq<string>, r: Request, id: Id)
    requires id in s.invites && id < s.next
    requires s.invites[id].org == org && !s.invites[id].accepted ==> s.invites[id].email !in emails
    ensures var t := WriteRows(s, org, emails, r); id in t.invites && t.invites[id] == s.invites[id]
    decreases |emails|
  {
    if emails == [] {
    } else {
      var t := AddInvite(s, org, emails[0], None, Asked(r.assignments), r.expiry);
      assert emails[0] in emails;
      WriteRowsFrame(t, org, emails[1..], r, id);
    }
  }

  /** An open invitation as the request asks for. */
  predicate Invited(s: State, org: OrgId, e: string, r: Request, at: int) {
    exists id :: id in s.invites && s.invites[id] == Invite(org, e, false, at + r.expiry, None, Asked(r.assignments))
  }

  lemma {:induction false} WriteRowsCreate(s: State, org: OrgId, emails: seq<string>, r: Request, e: string)
    requires Distinct(emails) && e in emails
    ensures Invited(WriteRows(s, org, emails, r), org, e, r, s.now)
    decreases |emails|
  {
    var first, more := emails[0], emails[1..];
    var t := AddInvite(s, org, first, None, Asked(r.assignments), r.expiry);
    assert Distinct(more) by { assert forall k :: 0 <= k < |more| ==> more[k] == emails[k + 1]; }
    if e == first {
      assert e !in more by { assert forall k :: 0 <= k < |more| ==> more[k] == emails[k + 1]; }
      WriteRowsFrame(t, org, more, r, s.next);
      assert s.next in WriteRows(s, org, emails, r).invites;
    } else {
      WriteRowsCreate(t, org, more, r, e);
    }
  }

  /** A bulk request that is refused, or that meets a row it cannot write, changes nothing. Any other ends with an open
      invitation, as asked for, for every address that passes the checks, and leaves every invitation of another
      organization, of another address or already accepted as it was. */
  lemma BulkSendExactly(s: State, org: OrgId, r: Request, e: string, id: Id)
    requires Inv(s)
    ensures var t, c := Step(s, BulkSend(org, r)), ChecksFor(s, r);
            && (!BulkAccepted(s, org, r) ==> t == s)
            && (BulkAccepted(s, org, r) && e in NonBlank(r.raw) && Passes(c, e) ==> Invited(t, org, e, r, s.now))
            && (id in s.invites && !(id in SameAddress(s.invites, org, s.invites[id].email)
                                     && s.invites[id].email in NonBlank(r.raw) && Passes(c, s.invites[id].email)) ==>
                  id in t.invites && t.invites[id] == s.invites[id])
  {
    var c := ChecksFor(s, r);
    var emails := ToWrite(c, r.raw);
    ToWriteExactly(c, r.raw);
    if e in emails {
      WriteRowsCreate(s, org, emails, r, e);
    }
    if id in s.invites && !(s.invites[id].org == org && !s.invites[id].accepted && s.invites[id].email in emails) {
      WriteRowsFrame(s, org, emails, r, id);
    }
  }

  // ---- Transferred teams ----

  /** The teams of a pending invitation belong to its organization. */
  predicate OwnTeams(s: State, i: Invite) {
    Pending(i, s.now) ==> forall t <- i.teams :: t in s.teams && s.teams[t].org == i.org
  }

  predicate AllOwnTeams(s: State) {
    forall id :: id in s.invites ==> OwnTeams(s, s.invites[id])
  }

  /** A transfer of a team that a pending invitation is assigned to, to another organization. */
  predicate MovesInvitedTeam(s: State, op: Op) {
    && op.TransferTeam? && Owns(s, op.org, op.team) && !s.teams[op.team].archived && op.target != op.org
    && exists id :: id in s.invites && Pending(s.invites[id], s.now) && op.team in s.invites[id].teams
  }

  lemma AddOwnTeams(s: State, org: OrgId, email: string, legacy: Option<TeamId>, teams: set<TeamId>, expiry: int)
    requires AllOwnTeams(s) && forall t <- teams :: t in s.teams && s.teams[t].org == org
    ensures AllOwnTeams(AddInvite(s, org, email, legacy, teams, expiry))
    ensures AllOwnTeams(DropSameAddress(s, org, email))
  {
    var t := AddInvite(s, org, email, legacy, teams, expiry);
    forall id | id in t.invites && id != s.next ensures OwnTeams(t, t.invites[id]) { assert OwnTeams(s, s.invites[id]); }
    var d := DropSameAddress(s, org, email);
    forall id | id in d.invites ensures OwnTeams(d, d.invites[id]) { assert OwnTeams(s, s.invites[id]); }
  }

  lemma {:induction false} WriteRowsOwnTeams(s: State, org: OrgId, emails: seq<string>, r: Request)
    requires AllOwnTeams(s) && forall t <- Asked(r.assignments) :: t in s.teams && s.teams[t].org == org
    ensures AllOwnTeams(WriteRows(s, org, emails, r))
    decreases |emails|
  {
    if emails == [] {
    } else {
      AddOwnTeams(s, org, emails[0], None, Asked(r.assignments), r.expiry);
      WriteRowsOwnTeams(AddInvite(s, org, emails[0], None, Asked(r.assignments), r.expiry), org, emails[1..], r);
    }
  }

  lemma TransferOwnTeams(s: State, org: OrgId, team: TeamId, target: OrgId)
    requires AllOwnTeams(s)
    ensures AllOwnTeams(Step(s, TransferTeam(org, team, target))) <==> !MovesInvitedTeam(s, TransferTeam(org, team, target))
  {
    var t := Step(s, TransferTeam(org, team, target));
    if MovesInvitedTeam(s, TransferTeam(org, team, target)) {
      var id :| id in s.invites && Pending(s.invites[id], s.now) && team in s.invites[id].teams;
      assert OwnTeams(s, s.invites[id]) && !OwnTeams(t, t.invites[id]);
    } else {
      forall id | id in t.invites ensures OwnTeams(t, t.invites[id]) { assert OwnTeams(s, s.invites[id]); }
    }
  }

  lemma PlainOwnTeams(s: State, op: Op)
    requires AllOwnTeams(s) && !op.Send? && !op.BulkSend? && !op.TransferTeam? && !op.DeleteTeam?
    ensures AllOwnTeams(Step(s, op))
  {
    var t := Step(s, op);
    forall id | id in t.invites ensures OwnTeams(t, t.invites[id]) { assert OwnTeams(s, s.invites[id]); }
  }

  lemma DeleteOwnTeams(s: State, org: OrgId, team: TeamId)
    requires AllOwnTeams(s)
    ensures AllOwnTeams(Step(s, DeleteTeam(org, team)))
  {
    var t := Step(s, DeleteTeam(org, team));
    forall id | id in t.invites ensures OwnTeams(t, t.invites[id]) { assert OwnTeams(s, s.invites[id]); }
  }

  /** Pending invitations stay with teams of their own organization over a step exactly when it does not move an invited
      team elsewhere: a transfer does not look at invitations. */
  lemma StepOwnTeamsExactly(s: State, op: Op)
    requires AllOwnTeams(s)
    ensures AllOwnTeams(Step(s, op)) <==> !MovesInvitedTeam(s, op)
  {
    match op
    case Send(org, email, valid, legacy, assignments, expiry) =>
      if AssignmentsOk(s.teams, org, assignments) {
        AddOwnTeams(s, org, Normalize(email), LegacyTeam(legacy), Asked(assignments), expiry);
      }
    case BulkSend(org, r) =>
      if BulkAccepted(s, org, r) { WriteRowsOwnTeams(s, org, ToWrite(ChecksFor(s, r), r.raw), r); }
    case TransferTeam(org, team, target) => TransferOwnTeams(s, org, team, target);
    case DeleteTeam(org, team) => DeleteOwnTeams(s, org, team);
    case _ => PlainOwnTeams(s, op);
  }

  predicate NeverMovesInvited(s: State, ops: seq<Op>)
    decreases |ops|
  {
    ops != [] ==> !MovesInvitedTeam(s, ops[0]) && NeverMovesInvited(Step(s, ops[0]), ops[1..])
  }

  predicate OwnTeamsThroughout(s: State, ops: seq<Op>)
    decreases |ops|
  {
    AllOwnTeams(s) && (ops != [] ==> OwnTeamsThroughout(Step(s, ops[0]), ops[1..]))
  }

  /** Over a run they stay there in every state exactly when no step of the run moves an invited team. */
  lemma {:induction false} RunOwnTeamsExactly(s: State, ops: seq<Op>)
    requires AllOwnTeams(s)
    ensures OwnTeamsThroughout(s, ops) <==> NeverMovesInvited(s, ops)
    decreases |ops|
  {
    if ops == [] {
    } else {
      StepOwnTeamsExactly(s, ops[0]);
      if !MovesInvitedTeam(s, ops[0]) {
        RunOwnTeamsExactly(Step(s, ops[0]), ops[1..]);
      }
    }
  }

  /** For instance: a team is created, someone is invited to it, and it is transferred. This too presupposes a database with
      a second organization. */
  lemma TransferLeavesInvite(email: string, expiry: nat)
    requires expiry > 0
    ensures var ops := [CreateTeam(0, 1), Send(1, email, true, None, [Assignment(0, true)], expiry), TransferTeam(1, 0, 2)];
            !AllOwnTeams(Run(EMPTY, ops))
  {
    var ops := [CreateTeam(0, 1), Send(1, email, true, None, [Assignment(0, true)], expiry), TransferTeam(1, 0, 2)];
    var s1 := Step(EMPTY, ops[0]);
    var s2 := Step(s1, ops[1]);
    var s3 := Step(s2, ops[2]);
    assert Asked([Assignment(0, true)]) == {0} by { assert Assignment(0, true) in [Assignment(0, true)]; }
    assert 0 in s3.invites && !OwnTeams(s3, s3.invites[0]);
    assert Run(s2, ops[2..]) == s3 by { assert ops[2..][1..] == []; }
    assert Run(s1, ops[1..]) == s3 by { assert ops[1..][1..] == ops[2..]; }
  }

  // ---- The service object ----

  class OrgService {
    var now: int
    var teams: map<TeamId, Team>
    var invites: map<Id, Invite>

    /** Rejects a team named twice, unknown, foreign or archived, and a role that is none. */
    method ValidateTeamAssignments(org: OrgId, assignments: seq<Assignment>) returns (ok: bool)
      ensures ok == AssignmentsOk(teams, org, assignments)
    {
      var seen: set<TeamId> := {};
      for i := 0 to |assignments|
        invariant forall t :: t in seen <==> exists k :: 0 <= k < i && assignments[k].team == t
        invariant AssignmentsOk(teams, org, assignments[..i])
      {
        var a := assignments[i];
        if a.team in seen {
          var k :| 0 <= k < i && assignments[k].team == a.team;
          return false;
        }
        assert a in assignments;
        if a.team !in teams || teams[a.team].org != org || teams[a.team].archived {
          return false;
        }
        if !a.roleOk {
          return false;
        }
        seen := seen + {a.team};
        assert assignments[..i + 1] == assignments[..i] + [a];
      }
      assert assignments[..|assignments|] == assignments;
      return true;
    }

    method FindPendingInvitesWithTeamAssignment(team: TeamId) returns (ids: set<Id>)
      ensures forall id :: id in ids <==> id in invites && Affected(invites[id], now, team)
    {
      ids := set id | id in invites && Affected(invites[id], now, team);
    }

    /** The loop over the affected invitations, and the legacy sweep. */
    method CascadeTeamInviteRevocation(team: TeamId)
      modifies this`invites
      ensures invites == Cascade(old(invites), now, team)
    {
      var affected := FindPendingInvitesWithTeamAssignment(team);
      ReviseAll(affected, team);
      VisitedAll(old(invites), now, team, affected);
      invites := Swept(invites, team);
    }

    /** The loop over the affected invitations. */
    method ReviseAll(affected: set<Id>, team: TeamId)
      requires affected <= invites.Keys
      modifies this`invites
      ensures invites == Visited(old(invites), team, affected)
    {
      var left := affected;
      ghost var done: set<Id> := {};
      while left != {}
        invariant left <= affected && done == affected - left
        invariant invites == Visited(old(invites), team, done)
        decreases |left|
      {
        var id :| id in left;
        VisitOne(old(invites), team, done, id);
        Revise(id, team);
        left, done := left - {id}, done + {id};
      }
      assert done == affected;
    }

    /** Revoke an invitation for this team alone, or take the team off it. */
    method Revise(id: Id, team: TeamId)
      requires id in invites
      modifies this`invites
      ensures invites == Revised(old(invites), id, team)
    {
      if |invites[id].teams| <= 1 {
        invites := invites - {id};
      } else {
        invites := invites[id := invites[id].(teams := invites[id].teams - {team})];
      }
    }
  }

  function Revised(invites: map<Id, Invite>, id: Id, team: TeamId): map<Id, Invite>
    requires id in invites
  {
    if |invites[id].teams| <= 1 then invites - {id}
    else invites[id := invites[id].(teams := invites[id].teams - {team})]
  }

  /** Invitations after the loop has dealt with `done`. */
  function Visited(invites: map<Id, Invite>, team: TeamId, done: set<Id>): map<Id, Invite> {
    map id | id in invites && !(id in done && |invites[id].teams| <= 1) ::
      if id in done then invites[id].(teams := invites[id].teams - {team}) else invites[id]
  }

  /** DELETE of the unaccepted invitations that name the team in the legacy column. */
  function Swept(invites: map<Id, Invite>, team: TeamId): map<Id, Invite> {
    map id | id in invites && !(invites[id].legacy == Some(team) && !invites[id].accepted) :: invites[id]
  }

  lemma VisitOne(invites: map<Id, Invite>, team: TeamId, done: set<Id>, id: Id)
    requires id in invites && id !in done
    ensures var before, after := Visited(invites, team, done), Visited(invites, team, done + {id});
            id in before && after == Revised(before, id, team)
  {
  }

  lemma VisitedAll(invites: map<Id, Invite>, now: int, team: TeamId, affected: set<Id>)
    requires forall id :: id in affected <==> id in invites && Affected(invites[id], now, team)
    ensures Swept(Visited(invites, team, affected), team) == Cascade(invites, now, team)
  {
  }
}
