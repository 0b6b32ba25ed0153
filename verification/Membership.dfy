/** Team and organization membership, and the guards that keep the last lead and the last owner. */
module Membership {
  import opened Common

  const MAX_BULK := 100

  type User = nat
  type TeamId = nat
  type OrgId = nat

  datatype TeamRole = Lead | TeamMember
  datatype OrgRole = Owner | Admin | OrgMember

  type Members = map<User, TeamRole>

  type Roles = map<User, OrgRole>

  datatype Team = Team(org: OrgId, archived: bool, members: Members)

  /** The organizations with their members, and the teams. */
  datatype State = State(orgs: map<OrgId, Roles>, teams: map<TeamId, Team>)

  /** A requested member: a user that could be resolved, and a role that is one. */
  datatype Candidate = Candidate(user: Option<User>, role: Option<TeamRole>)

  datatype Op =
    | AddMember(team: TeamId, candidate: Candidate)
    | BulkAdd(team: TeamId, candidates: seq<Candidate>)
    | Leave(team: TeamId, user: User)
    | Remove(team: TeamId, user: User)
    | BulkRemove(team: TeamId, users: seq<User>, failing: set<nat>)  // positions of deletes that fail
    | ChangeTeamRole(team: TeamId, user: User, role: Option<TeamRole>)
    | SetArchived(team: TeamId, archived: bool)
    | CreateTeam(team: TeamId, org: OrgId, user: User)
    | Transfer(team: TeamId, target: OrgId, room: bool)  // whether the target is below its team limit
    | DeleteTeam(team: TeamId)
    | CreateOrg(org: OrgId, user: User)
    | JoinOrg(org: OrgId, user: User, orgRole: OrgRole)
    | ChangeOrgRole(org: OrgId, user: User, newRole: Option<OrgRole>)
    | Deactivate(org: OrgId, user: User)
    | DeleteOrg(org: OrgId)
    | DeleteUser(user: User)

  // ---- Teams ----

  function Leads(m: Members): set<User> {
    set u | u in m && m[u] == Lead
  }

  function Owners(org: Roles): set<User> {
    set u | u in org && org[u] == Owner
  }

  /** A member cannot be added twice. */
  function Added(m: Members, c: Candidate): Members {
    if c.role.None? || c.user.None? || c.user.value in m then m else m[c.user.value := c.role.value]
  }

  function AddedAll(m: Members, cs: seq<Candidate>): Members
    decreases |cs|
  {
    if cs == [] then m else AddedAll(Added(m, cs[0]), cs[1..])
  }

  /** The one rule of single removals and demotions: not the last lead. */
  predicate MayLose(m: Members, u: User) {
    u in m && (m[u] == Lead ==> |Leads(m)| > 1)
  }

  /** The requested users that are members, in order and with repetitions. */
  function Removable(m: Members, users: seq<User>): seq<User> {
    if users == [] then []
    else (if users[0] in m then [users[0]] else []) + Removable(m, users[1..])
  }

  /** How often a lead is asked to be removed. */
  function LeadRequests(m: Members, users: seq<User>): nat {
    if users == [] then 0
    else (if users[0] in m && m[users[0]] == Lead then 1 else 0) + LeadRequests(m, users[1..])
  }

  predicate BulkRemoveOk(m: Members, users: seq<User>) {
    |users| <= MAX_BULK && |Leads(m)| - LeadRequests(m, users) > 0
  }

  function Removed(m: Members, users: seq<User>, failing: set<nat>): Members {
    m - set i | 0 <= i < |users| && i !in failing :: users[i]
  }

  function TeamStep(t: Team, op: Op): Team {
    match op
    case AddMember(_, c) => if t.archived then t else t.(members := Added(t.members, c))
    case BulkAdd(_, cs) => if t.archived || |cs| > MAX_BULK then t else t.(members := AddedAll(t.members, cs))
    case Leave(_, u) => if MayLose(t.members, u) then t.(members := t.members - {u}) else t
    case Remove(_, u) => if !t.archived && MayLose(t.members, u) then t.(members := t.members - {u}) else t
    case BulkRemove(_, users, failing) =>
      if !t.archived && BulkRemoveOk(t.members, users) then
        t.(members := Removed(t.members, Removable(t.members, users), failing))
      else t
    case ChangeTeamRole(_, u, role) =>
      if !t.archived && role.Some? && u in t.members && (role.value != Lead ==> MayLose(t.members, u)) then
        t.(members := t.members[u := role.value])
      else t
    case SetArchived(_, archived) => t.(archived := archived)
    case _ => t
  }

  // ---- Organizations ----

  predicate MayLoseOwner(org: Roles, u: User) {
    u in org && (org[u] == Owner ==> |Owners(org)| > 1)
  }

  function WithRole(org: Roles, u: User, role: OrgRole): Roles {
    org[u := role]
  }

  /** Only members of the target organization stay in the team. */
  function Kept(m: Members, known: set<User>): Members {
    m - (m.Keys - known)
  }

  predicate TransferOk(s: State, t: TeamId, target: OrgId, room: bool) {
    t in s.teams && !s.teams[t].archived && target in s.orgs && room
  }

  function TransferStep(s: State, t: TeamId, target: OrgId, room: bool): State {
    if TransferOk(s, t, target, room) then
      s.(teams := s.teams[t := Team(target, false, Kept(s.teams[t].members, s.orgs[target].Keys))])
    else s
  }

  predicate DeactivateOk(s: State, org: OrgId, u: User) {
    org in s.orgs && MayLoseOwner(s.orgs[org], u)
  }

  /** The user goes from the organization and all its teams, without a look at the teams' leads. */
  function DeactivateStep(s: State, org: OrgId, u: User): State {
    if DeactivateOk(s, org, u) then
      State(s.orgs[org := s.orgs[org] - {u}],
            map t | t in s.teams :: if s.teams[t].org == org then s.teams[t].(members := s.teams[t].members - {u}) else s.teams[t])
    else s
  }

  /** Deleting an account takes its membership rows along, in every organization and team. Nothing is asked. */
  function DeleteUserStep(s: State, u: User): State {
    State(map o | o in s.orgs :: s.orgs[o] - {u}, map t | t in s.teams :: s.teams[t].(members := s.teams[t].members - {u}))
  }

  function Step(s: State, op: Op): State {
    match op
    case Transfer(t, target, room) => TransferStep(s, t, target, room)
    case DeleteTeam(t) => s.(teams := s.teams - {t})
    case CreateOrg(o, u) => if s.orgs != map[] then s else s.(orgs := map[o := map[u := Owner]])  // a single one
    case CreateTeam(t, o, u) =>
      if t in s.teams || o !in s.orgs then s else s.(teams := s.teams[t := Team(o, false, map[u := Lead])])
    case JoinOrg(o, u, role) => if o !in s.orgs || u in s.orgs[o] then s else s.(orgs := s.orgs[o := WithRole(s.orgs[o], u, role)])
    case ChangeOrgRole(o, u, role) =>
      if role.Some? && o in s.orgs && u in s.orgs[o] && (role.value != Owner ==> MayLoseOwner(s.orgs[o], u)) then
        s.(orgs := s.orgs[o := WithRole(s.orgs[o], u, role.value)])
      else s
    case Deactivate(o, u) => DeactivateStep(s, o, u)
    case DeleteOrg(o) => State(s.orgs - {o}, map t | t in s.teams && s.teams[t].org != o :: s.teams[t])
    case DeleteUser(u) => DeleteUserStep(s, u)
    case _ => if op.team in s.teams then s.(teams := s.teams[op.team := TeamStep(s.teams[op.team], op)]) else s
  }

  function Run(s: State, ops: seq<Op>): State
    decreases |ops|
  {
    if ops == [] then s else Run(Step(s, ops[0]), ops[1..])
  }

  // ---- Leads ----

  lemma AnotherIn(s: set<User>, u: User) returns (v: User)
    requires |s| > 1
    ensures v in s && v != u
  {
    if s <= {u} {
      SubsetSize(s, {u});
      assert false;
    }
    v :| v in s && v != u;
  }

  lemma {:induction false} SubsetSize(a: set<User>, b: set<User>)
    requires a <= b
    ensures |a| <= |b|
  {
    if a == {} {
    } else {
      var x :| x in a;
      SubsetSize(a - {x}, b - {x});
    }
  }

  function Asked(users: seq<User>): set<User> {
    set u | u in users
  }

  lemma OneMore(leads: set<User>, users: seq<User>)
    requires users != []
    ensures var before, after := leads * Asked(users[1..]), leads * Asked(users);
            |after| == |before| + if users[0] in leads && users[0] !in users[1..] then 1 else 0
  {
    var before, after := leads * Asked(users[1..]), leads * Asked(users);
    assert Asked(users) == Asked(users[1..]) + {users[0]};
    if users[0] in leads && users[0] !in users[1..] {
      assert after == before + {users[0]};
    } else {
      assert after == before;
    }
  }

  /** Every lead that is asked for is counted at least once. */
  lemma {:induction false} RequestsCover(m: Members, users: seq<User>)
    ensures |Leads(m) * Asked(users)| <= LeadRequests(m, users)
  {
    if users == [] {
      assert Leads(m) * Asked(users) == {};
    } else {
      RequestsCover(m, users[1..]);
      OneMore(Leads(m), users);
    }
  }

  predicate NoDuplicates(users: seq<User>) {
    users == [] || (users[0] !in users[1..] && NoDuplicates(users[1..]))
  }

  lemma {:induction false} RequestsExact(m: Members, users: seq<User>)
    requires NoDuplicates(users)
    ensures |Leads(m) * Asked(users)| == LeadRequests(m, users)
  {
    if users == [] {
      assert Leads(m) * Asked(users) == {};
    } else {
      RequestsExact(m, users[1..]);
      OneMore(Leads(m), users);
    }
  }

  /** A bulk removal that passes the check leaves a lead that nobody asked to remove. */
  lemma LeadNotAsked(m: Members, users: seq<User>) returns (u: User)
    requires BulkRemoveOk(m, users)
    ensures u in Leads(m) && u !in users
  {
    RequestsCover(m, users);
    assert Leads(m) <= Asked(users) ==> Leads(m) * Asked(users) == Leads(m);
    u :| u in Leads(m) && u !in Asked(users);
  }

  lemma {:induction false} RemovableIn(m: Members, users: seq<User>)
    ensures forall u <- Removable(m, users) :: u in users && u in m
  {
    if users == [] {
    } else {
      RemovableIn(m, users[1..]);
    }
  }

  lemma BulkRemoveKeepsLead(m: Members, users: seq<User>, failing: set<nat>)
    requires BulkRemoveOk(m, users)
    ensures Leads(Removed(m, Removable(m, users), failing)) != {}
  {
    var u := LeadNotAsked(m, users);
    RemovableIn(m, users);
    assert u in Leads(Removed(m, Removable(m, users), failing));
  }

  lemma {:induction false} AddedAllKeeps(m: Members, cs: seq<Candidate>, u: User)
    requires u in Leads(m)
    ensures u in Leads(AddedAll(m, cs))
    decreases |cs|
  {
    if cs == [] {
    } else {
      AddedAllKeeps(Added(m, cs[0]), cs[1..], u);
    }
  }

  lemma TeamStepKeepsLead(t: Team, op: Op)
    requires Leads(t.members) != {}
    ensures Leads(TeamStep(t, op).members) != {}
  {
    var m := t.members;
    var u :| u in Leads(m);
    match op
    case AddMember(_, c) => assert u in Leads(Added(m, c));
    case BulkAdd(_, cs) => AddedAllKeeps(m, cs, u);
    case Leave(_, v) => KeepsAfterLoss(m, v);
    case Remove(_, v) => KeepsAfterLoss(m, v);
    case BulkRemove(_, users, failing) =>
      if BulkRemoveOk(m, users) { BulkRemoveKeepsLead(m, users, failing); }
    case ChangeTeamRole(_, v, role) => if role.Some? { KeepsAfterRole(m, v, role.value); }
    case _ =>
  }

  lemma KeepsAfterLoss(m: Members, v: User)
    requires Leads(m) != {}
    ensures MayLose(m, v) ==> Leads(m - {v}) != {}
  {
    if MayLose(m, v) {
      var w: User;
      if m[v] == Lead { w := AnotherIn(Leads(m), v); } else { w :| w in Leads(m); }
      assert w in Leads(m - {v});
    }
  }

  lemma KeepsAfterRole(m: Members, v: User, role: TeamRole)
    requires Leads(m) != {}
    ensures v in m && (role != Lead ==> MayLose(m, v)) ==> Leads(m[v := role]) != {}
  {
    if v in m && (role != Lead ==> MayLose(m, v)) {
      if role == Lead {
        assert v in Leads(m[v := role]);
      } else {
        var w: User;
        if m[v] == Lead { w := AnotherIn(Leads(m), v); } else { w :| w in Leads(m); }
        assert w in Leads(m[v := role]);
      }
    }
  }

  /** The team, as long as there is one, has a lead. */
  predicate HasLead(s: State, t: TeamId) {
    t in s.teams ==> Leads(s.teams[t].members) != {}
  }

  /** The steps that can strip a team of its last lead: deactivating the only one in the team's organization, deleting that
      account, and transferring the team to an organization none of its leads belongs to. */
  predicate StripsLead(s: State, t: TeamId, op: Op) {
    && t in s.teams
    && var leads := Leads(s.teams[t].members);
       match op
       case Deactivate(o, u) => DeactivateOk(s, o, u) && s.teams[t].org == o && leads == {u}
       case DeleteUser(u) => leads == {u}
       case Transfer(team, target, room) => team == t && TransferOk(s, t, target, room) && leads * s.orgs[target].Keys == {}
       case _ => false
  }

  lemma KeptLeads(m: Members, known: set<User>)
    ensures Leads(Kept(m, known)) == Leads(m) * known
  {
  }

  lemma RemovedLead(m: Members, u: User)
    ensures Leads(m - {u}) == Leads(m) - {u}
  {
  }

  lemma StepKeepsLeadExactly(s: State, t: TeamId, op: Op)
    requires HasLead(s, t)
    ensures HasLead(Step(s, op), t) <==> !StripsLead(s, t, op)
  {
    if t in s.teams {
      var m := s.teams[t].members;
      match op
      case Deactivate(_, u) => RemovedLead(m, u);
      case DeleteUser(u) => RemovedLead(m, u);
      case Transfer(_, target, _) => if target in s.orgs { KeptLeads(m, s.orgs[target].Keys); }
      case CreateTeam(_, _, _) =>
      case DeleteTeam(_) =>
      case CreateOrg(_, _) =>
      case JoinOrg(_, _, _) =>
      case ChangeOrgRole(_, _, _) =>
      case DeleteOrg(_) =>
      case _ => TeamStepKeepsLead(s.teams[t], op);
    } else if op.CreateTeam? {
      assert op.user in Leads(map[op.user := Lead]);
    }
  }

  /** For instance, an ordinary member of the organization who leads a team alone. */
  lemma DeactivationStripsLead(o: OrgId, owner: User, u: User, t: TeamId)
    requires owner != u
    ensures var s := State(map[o := map[owner := Owner, u := OrgMember]], map[t := Team(o, false, map[u := Lead])]);
            Leads(s.teams[t].members) == {u} && Leads(Step(s, Deactivate(o, u)).teams[t].members) == {}
  {
  }

  const EMPTY := State(map[], map[])

  /** Or a team that was created by somebody outside the organization, and is transferred to the organization it is in. */
  lemma TransferStripsLead(o: OrgId, u: User, v: User, t: TeamId)
    requires u != v
    ensures var s := Run(EMPTY, [CreateOrg(o, u), CreateTeam(t, o, v)]);
            && s.teams == map[t := Team(o, false, map[v := Lead])]
            && Step(s, Transfer(t, o, true)).teams == map[t := Team(o, false, map[])]
  {
    var ops := [CreateOrg(o, u), CreateTeam(t, o, v)];
    var s1 := Step(EMPTY, ops[0]);
    var s2 := Step(s1, ops[1]);
    assert Run(s1, ops[1..]) == s2 by { assert ops[1..][1..] == []; }
  }

  /** No run of the service has two organizations. */
  lemma {:induction false} SingleOrg(s: State, ops: seq<Op>)
    requires |s.orgs.Keys| <= 1
    ensures |Run(s, ops).orgs.Keys| <= 1
    decreases |ops|
  {
    if ops == [] {
    } else {
      StepSingleOrg(s, ops[0]);
      SingleOrg(Step(s, ops[0]), ops[1..]);
    }
  }

  lemma StepSingleOrg(s: State, op: Op)
    requires |s.orgs.Keys| <= 1
    ensures |Step(s, op).orgs.Keys| <= 1
  {
    var t := Step(s, op);
    if op.CreateOrg? && s.orgs == map[] {
      assert t.orgs.Keys == {op.org};
    } else {
      assert t.orgs.Keys <= s.orgs.Keys;
      SubsetSize(t.orgs.Keys, s.orgs.Keys);
    }
  }

  predicate NeverStrips(s: State, t: TeamId, ops: seq<Op>)
    decreases |ops|
  {
    ops != [] ==> !StripsLead(s, t, ops[0]) && NeverStrips(Step(s, ops[0]), t, ops[1..])
  }

  predicate LeadThroughout(s: State, t: TeamId, ops: seq<Op>)
    decreases |ops|
  {
    HasLead(s, t) && (ops != [] ==> LeadThroughout(Step(s, ops[0]), t, ops[1..]))
  }

  /** A team that has a lead keeps one, as long as it exists, through any run of adds, leaves, removals, bulk removals with
      duplicates and failing deletes, role changes and archiving; it loses the last one exactly when that user is
      deactivated or the account deleted, or the team is transferred away from all its leads. */
  lemma {:induction false} RunKeepsLeadExactly(s: State, t: TeamId, ops: seq<Op>)
    requires HasLead(s, t)
    ensures LeadThroughout(s, t, ops) <==> NeverStrips(s, t, ops)
    decreases |ops|
  {
    if ops == [] {
    } else {
      StepKeepsLeadExactly(s, t, ops[0]);
      if !StripsLead(s, t, ops[0]) {
        RunKeepsLeadExactly(Step(s, ops[0]), t, ops[1..]);
      }
    }
  }

  // ---- Owners ----

  /** The organization, as long as there is one, has an owner. */
  predicate HasOwner(s: State, o: OrgId) {
    o in s.orgs ==> Owners(s.orgs[o]) != {}
  }

  /** The one step that takes the last owner: deleting that account. */
  predicate StripsOwner(s: State, o: OrgId, op: Op) {
    op.DeleteUser? && o in s.orgs && Owners(s.orgs[o]) == {op.user}
  }

  lemma JoinKeepsOwner(org: Roles, u: User, role: OrgRole)
    requires Owners(org) != {} && u !in org
    ensures Owners(org[u := role]) != {}
  {
    var o :| o in Owners(org);
    assert o in Owners(org[u := role]);
  }

  lemma RoleKeepsOwner(org: Roles, u: User, role: OrgRole)
    requires Owners(org) != {} && u in org && (role != Owner ==> MayLoseOwner(org, u))
    ensures Owners(org[u := role]) != {}
  {
    if role == Owner {
      assert u in Owners(org[u := role]);
    } else {
      var w: User;
      if org[u] == Owner { w := AnotherIn(Owners(org), u); } else { w :| w in Owners(org); }
      assert w in Owners(org[u := role]);
    }
  }

  lemma LossKeepsOwner(org: Roles, u: User)
    requires Owners(org) != {}
    ensures Owners(org - {u}) == Owners(org) - {u}
    ensures MayLoseOwner(org, u) ==> Owners(org - {u}) != {}
  {
    if MayLoseOwner(org, u) {
      var w: User;
      if org[u] == Owner { w := AnotherIn(Owners(org), u); } else { w :| w in Owners(org); }
      assert w in Owners(org - {u});
    }
  }

  lemma StepKeepsOwnerExactly(s: State, o: OrgId, op: Op)
    requires HasOwner(s, o)
    ensures HasOwner(Step(s, op), o) <==> !StripsOwner(s, o, op)
  {
    if o in s.orgs {
      var org := s.orgs[o];
      match op
      case JoinOrg(_, u, role) => if u !in org { JoinKeepsOwner(org, u, role); }
      case ChangeOrgRole(_, u, role) =>
        if role.Some? && u in org && (role.value != Owner ==> MayLoseOwner(org, u)) {
          RoleKeepsOwner(org, u, role.value);
        }
      case Deactivate(_, u) => LossKeepsOwner(org, u);
      case DeleteUser(u) => LossKeepsOwner(org, u);
      case _ =>
    } else if op.CreateOrg? {
      assert op.user in Owners(map[op.user := Owner]);
    }
  }

  predicate NeverStripsOwner(s: State, o: OrgId, ops: seq<Op>)
    decreases |ops|
  {
    ops != [] ==> !StripsOwner(s, o, ops[0]) && NeverStripsOwner(Step(s, ops[0]), o, ops[1..])
  }

  predicate OwnerThroughout(s: State, o: OrgId, ops: seq<Op>)
    decreases |ops|
  {
    HasOwner(s, o) && (ops != [] ==> OwnerThroughout(Step(s, ops[0]), o, ops[1..]))
  }

  /** An organization that has an owner, or is yet to be created, has one as long as it exists through a run exactly when no
      step deletes the account of the only one. */
  lemma {:induction false} RunKeepsOwnerExactly(s: State, o: OrgId, ops: seq<Op>)
    requires HasOwner(s, o)
    ensures OwnerThroughout(s, o, ops) <==> NeverStripsOwner(s, o, ops)
    decreases |ops|
  {
    if ops == [] {
    } else {
      StepKeepsOwnerExactly(s, o, ops[0]);
      if !StripsOwner(s, o, ops[0]) {
        RunKeepsOwnerExactly(Step(s, ops[0]), o, ops[1..]);
      }
    }
  }

  /** For instance, the founder of an organization who leads its team deletes the account: both are left without. */
  lemma DeletionStripsBoth(o: OrgId, u: User, t: TeamId)
    ensures var s := State(map[o := map[u := Owner]], map[t := Team(o, false, map[u := Lead])]);
            var s' := Step(s, DeleteUser(u));
            && Owners(s.orgs[o]) == Leads(s.teams[t].members) == {u}
            && Owners(s'.orgs[o]) == {} && Leads(s'.teams[t].members) == {}
  {
  }

  // ---- How strict the bulk check is ----

  /** The check is right: it passes exactly the requests that leave a lead. */
  predicate CheckRight(m: Members, users: seq<User>) {
    BulkRemoveOk(m, users) <==> Leads(m) - Asked(users) != {}
  }

  /** On any list the check is right exactly when no lead would be left anyway, or the repeated requests for leads are
      fewer than the leads that stay. It never lets through a request that leaves none. */
  lemma BulkCheckExact(m: Members, users: seq<User>)
    requires |users| <= MAX_BULK
    ensures CheckRight(m, users) <==>
              (Leads(m) - Asked(users) == {}
               || LeadRequests(m, users) - |Leads(m) * Asked(users)| < |Leads(m) - Asked(users)|)
    ensures BulkRemoveOk(m, users) ==> Leads(m) - Asked(users) != {}
  {
    RequestsCover(m, users);
    var stay, go := Leads(m) - Asked(users), Leads(m) * Asked(users);
    assert stay + go == Leads(m) && stay * go == {};
  }

  /** Without duplicates it is always right. */
  lemma DistinctCheckRight(m: Members, users: seq<User>)
    requires NoDuplicates(users) && |users| <= MAX_BULK
    ensures CheckRight(m, users)
  {
    RequestsExact(m, users);
    BulkCheckExact(m, users);
  }

  /** With duplicates it may refuse a harmless request: the same lead asked for twice, when there is another. */
  lemma DuplicateRefused(m: Members, u: User)
    requires |Leads(m)| == 2 && u in Leads(m)
    ensures !CheckRight(m, [u, u]) && !BulkRemoveOk(m, [u, u])
  {
    assert [u, u][1..] == [u] && [u][1..] == [];
    assert LeadRequests(m, [u]) == 1 && LeadRequests(m, [u, u]) == 2;
    var v := AnotherIn(Leads(m), u);
    assert v in Leads(m) - Asked([u, u]);
  }

  // ---- The service object ----

  lemma {:induction false} RemovableAppend(m: Members, users: seq<User>, u: User)
    ensures Removable(m, users + [u]) == Removable(m, users) + if u in m then [u] else []
    ensures LeadRequests(m, users + [u]) == LeadRequests(m, users) + if u in m && m[u] == Lead then 1 else 0
  {
    if users == [] {
      assert [u][1..] == [] && users + [u] == [u];
    } else {
      RemovableAppend(m, users[1..], u);
      assert (users + [u])[1..] == users[1..] + [u];
    }
  }

  lemma {:induction false} AddedAllAppend(m: Members, cs: seq<Candidate>, c: Candidate)
    ensures AddedAll(m, cs + [c]) == Added(AddedAll(m, cs), c)
    decreases |cs|
  {
    if cs == [] {
      assert [c][1..] == [] && cs + [c] == [c];
    } else {
      AddedAllAppend(Added(m, cs[0]), cs[1..], c);
      assert (cs + [c])[1..] == cs[1..] + [c];
    }
  }

  /** One team's service, working on its membership rows. */
  class TeamService {
    var org: OrgId
    var archived: bool
    var members: Members

    ghost function View(): Team
      reads this
    {
      Team(org, archived, members)
    }

    /** SELECT COUNT(*) … WHERE role = 'lead' */
    method CountLeads() returns (count: nat)
      ensures count == |Leads(members)|
    {
      var leads := set u | u in members && members[u] == Lead;
      assert leads == Leads(members);
      count := |leads|;
    }

    /** Removes the members unknown to the target organization, and reports them. */
    method TransferTeam(target: OrgId, known: Option<set<User>>, room: bool) returns (ok: bool, removed: set<User>)
      modifies this
      ensures ok == (!old(archived) && known.Some? && room)
      ensures View() == if ok then Team(target, false, Kept(old(members), known.value)) else old(View())
      ensures ok ==> removed == old(members).Keys - members.Keys && members.Keys <= known.value
    {
      if archived || known.None? || !room {
        return false, {};
      }
      removed := Strangers(known.value);
      members := members - removed;
      org := target;
      return true, removed;
    }

    /** Looks every member up in the target organization. */
    method Strangers(known: set<User>) returns (strangers: set<User>)
      ensures strangers == members.Keys - known
    {
      strangers := {};
      var left := members.Keys;
      while left != {}
        invariant left <= members.Keys && strangers == (members.Keys - left) - known
        decreases |left|
      {
        var u :| u in left;
        left := left - {u};
        if u !in known {
          strangers := strangers + {u};
        }
      }
    }

    method LeaveTeam(t: TeamId, u: User) returns (ok: bool)
      modifies this`members
      ensures View() == TeamStep(old(View()), Leave(t, u)) && ok == MayLose(old(members), u)
    {
      if u !in members {
        return false;
      }
      if members[u] == Lead {
        var leads := CountLeads();
        if leads <= 1 {
          return false;
        }
      }
      members := members - {u};
      return true;
    }

    method RemoveMember(t: TeamId, u: User) returns (ok: bool)
      modifies this`members
      ensures View() == TeamStep(old(View()), Remove(t, u)) && ok == (!archived && MayLose(old(members), u))
    {
      if archived {
        return false;
      }
      ok := LeaveTeam(t, u);
    }

    method ChangeRole(t: TeamId, u: User, role: Option<TeamRole>) returns (ok: bool)
      modifies this`members
      ensures View() == TeamStep(old(View()), ChangeTeamRole(t, u, role))
      ensures ok ==> role.Some? && u in members && members[u] == role.value
      ensures !ok ==> members == old(members)
    {
      if archived || role.None? || u !in members {
        return false;
      }
      if members[u] == Lead && role.value != Lead {
        var leads := CountLeads();
        if leads <= 1 {
          return false;
        }
      }
      members := members[u := role.value];
      return true;
    }

    method BulkAddMembers(t: TeamId, cs: seq<Candidate>) returns (added: nat, skipped: nat, failed: nat)
      modifies this`members
      ensures View() == TeamStep(old(View()), BulkAdd(t, cs))
      ensures !archived && |cs| <= MAX_BULK ==> added + skipped + failed == |cs| && |members| == |old(members)| + added
    {
      added, skipped, failed := 0, 0, 0;
      if archived || |cs| > MAX_BULK {
        return;
      }
      for i := 0 to |cs|
        invariant members == AddedAll(old(members), cs[..i])
        invariant added + skipped + failed == i && |members| == |old(members)| + added
      {
        AddedAllAppend(old(members), cs[..i], cs[i]);
        assert cs[..i + 1] == cs[..i] + [cs[i]];
        if cs[i].role.None? || cs[i].user.None? {
          failed := failed + 1;
        } else if cs[i].user.value in members {
          skipped := skipped + 1;
        } else {
          assert members[cs[i].user.value := cs[i].role.value].Keys == members.Keys + {cs[i].user.value};
          members := members[cs[i].user.value := cs[i].role.value];
          added := added + 1;
        }
      }
      assert cs[..|cs|] == cs;
    }

    /** Every requested id ends up in exactly one place: skipped because it is not a member, failed, or removed. */
    method BulkRemoveMembers(t: TeamId, users: seq<User>, failing: set<nat>)
      returns (ok: bool, removed: nat, skipped: seq<User>, failed: seq<User>)
      modifies this`members
      ensures View() == TeamStep(old(View()), BulkRemove(t, users, failing))
      ensures ok == (!archived && BulkRemoveOk(old(members), users))
      ensures ok ==>
        && removed + |skipped| + |failed| == |users|
        && (forall u <- skipped :: u !in old(members))
        && (forall u <- failed :: u in old(members))
    {
      removed, skipped, failed := 0, [], [];
      if |users| > MAX_BULK || archived {
        return false, 0, [], [];
      }
      var leads: int := CountLeads();
      var toRemove: seq<User>, leadsToRemove: int := [], 0;
      for i := 0 to |users|
        invariant members == old(members)
        invariant toRemove == Removable(members, users[..i]) && leadsToRemove == LeadRequests(members, users[..i])
        invariant |toRemove| + |skipped| == i && (forall u <- skipped :: u !in members) && (forall u <- toRemove :: u in members)
      {
        RemovableAppend(members, users[..i], users[i]);
        assert users[..i + 1] == users[..i] + [users[i]];
        if users[i] !in members {
          skipped := skipped + [users[i]];
        } else {
          if members[users[i]] == Lead {
            leadsToRemove := leadsToRemove + 1;
          }
          toRemove := toRemove + [users[i]];
        }
      }
      assert users[..|users|] == users;
      if leads - leadsToRemove <= 0 {
        return false, 0, [], [];
      }
      removed, failed := RemoveAll(toRemove, failing);
      ok := true;
    }

    method RemoveAll(toRemove: seq<User>, failing: set<nat>) returns (removed: nat, failed: seq<User>)
      modifies this`members
      ensures members == Removed(old(members), toRemove, failing)
      ensures removed + |failed| == |toRemove| && forall u <- failed :: u in toRemove
    {
      removed, failed := 0, [];
      for i := 0 to |toRemove|
        invariant members == Removed(old(members), toRemove[..i], failing)
        invariant removed + |failed| == i && forall u <- failed :: u in toRemove
      {
        ghost var gone := set k | 0 <= k < i && k !in failing :: toRemove[..i][k];
        assert (set k | 0 <= k < i + 1 && k !in failing :: toRemove[..i + 1][k])
            == gone + if i in failing then {} else {toRemove[i]} by {
          assert forall k :: 0 <= k < i ==> toRemove[..i + 1][k] == toRemove[..i][k];
        }
        if i in failing {
          failed := failed + [toRemove[i]];
        } else {
          members := members - {toRemove[i]};
          removed := removed + 1;
        }
      }
      assert toRemove[..|toRemove|] == toRemove;
    }
  }
}
