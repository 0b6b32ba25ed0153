/** What each operation does to every team and organization, member by member, with the guards spelled out. */
module MembershipEffects {
  import opened Common
  import opened Membership

  // ---- The words ----

  predicate AnotherLead(m: Members, u: User) {
    exists w :: w in m && w != u && m[w] == Lead
  }

  predicate AnotherOwner(org: Roles, u: User) {
    exists w :: w in org && w != u && org[w] == Owner
  }

  lemma TwoIn(s: set<User>, u: User)
    requires u in s
    ensures |s| > 1 <==> exists w :: w in s && w != u
  {
    if |s| > 1 {
      var w := AnotherIn(s, u);
    }
    if w :| w in s && w != u { SubsetSize({u, w}, s); }
  }

  lemma MayLoseIs(m: Members, u: User)
    ensures MayLose(m, u) <==> u in m && (m[u] == Lead ==> AnotherLead(m, u))
  {
    if u in m && m[u] == Lead {
      TwoIn(Leads(m), u);
      if w :| w in m && w != u && m[w] == Lead { assert w in Leads(m); }
    }
  }

  lemma MayLoseOwnerIs(org: Roles, u: User)
    ensures MayLoseOwner(org, u) <==> u in org && (org[u] == Owner ==> AnotherOwner(org, u))
  {
    if u in org && org[u] == Owner {
      TwoIn(Owners(org), u);
      if w :| w in org && w != u && org[w] == Owner { assert w in Owners(org); }
    }
  }

  /** The positions at which a lead is asked to be removed. */
  function LeadPositions(m: Members, users: seq<User>): set<nat> {
    set i: nat | i < |users| && users[i] in m && m[users[i]] == Lead
  }

  lemma {:induction false} RequestsAppend(m: Members, users: seq<User>, u: User)
    ensures LeadRequests(m, users + [u]) == LeadRequests(m, users) + if u in m && m[u] == Lead then 1 else 0
  {
    if users == [] {
    } else {
      RequestsAppend(m, users[1..], u);
      assert (users + [u])[1..] == users[1..] + [u];
    }
  }

  lemma {:induction false} RequestsArePositions(m: Members, users: seq<User>)
    ensures LeadRequests(m, users) == |LeadPositions(m, users)|
  {
    if users == [] {
    } else {
      var n := |users| - 1;
      RequestsArePositions(m, users[..n]);
      RequestsAppend(m, users[..n], users[n]);
      assert users == users[..n] + [users[n]];
      assert LeadPositions(m, users)
          == LeadPositions(m, users[..n]) + if users[n] in m && m[users[n]] == Lead then {n} else {};
    }
  }

  /** The requested members keep their number of repetitions; others are dropped. */
  lemma {:induction false} RemovableExactly(m: Members, users: seq<User>, u: User)
    ensures multiset(Removable(m, users))[u] == if u in m then multiset(users)[u] else 0
  {
    if users == [] {
    } else {
      RemovableExactly(m, users[1..], u);
      assert users == [users[0]] + users[1..];
    }
  }

  // ---- Members of a team ----

  /** A bulk removal is allowed: not archived, at most a hundred, and fewer requests for a lead than there are leads. */
  predicate Allows(team: Team, users: seq<User>) {
    !team.archived && |users| <= 100 && |LeadPositions(team.members, users)| < |Leads(team.members)|
  }

  predicate Moves(s: State, op: Op, t: TeamId) {
    op.Transfer? && op.team == t && t in s.teams && !s.teams[t].archived && op.target in s.orgs && op.room
  }

  predicate Deactivates(s: State, op: Op, o: OrgId, u: User) {
    && op == Deactivate(o, u) && o in s.orgs && u in s.orgs[o]
    && (s.orgs[o][u] == Owner ==> AnotherOwner(s.orgs[o], u))
  }

  /** The operation takes this member out of the team. */
  predicate Loses(s: State, op: Op, t: TeamId, u: User)
    requires t in s.teams && u in s.teams[t].members
  {
    var team := s.teams[t];
    match op
    case Leave(_, v) => op.team == t && v == u && (team.members[u] == Lead ==> AnotherLead(team.members, u))
    case Remove(_, v) =>
      op.team == t && v == u && !team.archived && (team.members[u] == Lead ==> AnotherLead(team.members, u))
    case BulkRemove(_, users, failing) =>
      op.team == t && Allows(team, users)
      && exists i :: 0 <= i < |Removable(team.members, users)| && i !in failing && Removable(team.members, users)[i] == u
    case Transfer(_, target, _) => Moves(s, op, t) && u !in s.orgs[target]
    case Deactivate(o, v) => Deactivates(s, op, o, u) && team.org == o
    case DeleteUser(v) => v == u
    case _ => false
  }

  /** The first of the candidates that names the user with a role names it with this one. */
  predicate Names(cs: seq<Candidate>, u: User, role: TeamRole) {
    exists i :: 0 <= i < |cs| && cs[i] == Candidate(Some(u), Some(role))
                && forall j :: 0 <= j < i ==> !(cs[j].user == Some(u) && cs[j].role.Some?)
  }

  /** The operation brings this user into the team with this role. */
  predicate Joins(s: State, op: Op, t: TeamId, u: User, role: TeamRole)
    requires t in s.teams && u !in s.teams[t].members
  {
    match op
    case AddMember(_, c) => op.team == t && !s.teams[t].archived && c == Candidate(Some(u), Some(role))
    case BulkAdd(_, cs) => op.team == t && !s.teams[t].archived && |cs| <= 100 && Names(cs, u, role)
    case _ => false
  }

  /** The operation gives this member the role asked for. */
  predicate Reassigns(s: State, op: Op, t: TeamId, u: User)
    requires t in s.teams && u in s.teams[t].members
  {
    var team := s.teams[t];
    && op.ChangeTeamRole? && op.team == t && op.user == u && op.role.Some? && !team.archived
    && (op.role == Some(TeamMember) && team.members[u] == Lead ==> AnotherLead(team.members, u))
  }

  /** What an operation that keeps the team has made of one member. */
  ghost predicate MemberIs(s: State, op: Op, t: TeamId, u: User, after: Members)
    requires t in s.teams
  {
    var m := s.teams[t].members;
    if u in m then
      && (u in after <==> !Loses(s, op, t, u))
      && (u in after ==> after[u] == if Reassigns(s, op, t, u) then op.role.value else m[u])
    else forall role :: (u in after && after[u] == role) <==> Joins(s, op, t, u, role)
  }

  lemma {:induction false} AddedAllIs(m: Members, cs: seq<Candidate>, u: User, role: TeamRole)
    ensures var after := AddedAll(m, cs);
            (u in after && after[u] == role) <==> if u in m then m[u] == role else Names(cs, u, role)
    decreases |cs|
  {
    if cs == [] {
    } else {
      var next := Added(m, cs[0]);
      AddedAllIs(next, cs[1..], u, role);
      if u !in m { FirstNamed(cs, u, role); }
    }
  }

  lemma FirstNamed(cs: seq<Candidate>, u: User, role: TeamRole)
    requires cs != []
    ensures Names(cs, u, role) <==> if cs[0].user == Some(u) && cs[0].role.Some? then cs[0].role == Some(role)
                                    else Names(cs[1..], u, role)
  {
    if cs[0].user == Some(u) && cs[0].role.Some? {
      assert cs[0].role == Some(role) ==> cs[0] == Candidate(Some(u), Some(role));
    } else {
      if Names(cs, u, role) {
        var i :| 0 <= i < |cs| && cs[i] == Candidate(Some(u), Some(role))
                 && forall j :: 0 <= j < i ==> !(cs[j].user == Some(u) && cs[j].role.Some?);
        assert cs[1..][i - 1] == cs[i];
        assert forall j :: 0 <= j < i - 1 ==> cs[1..][j] == cs[j + 1];
      }
      if Names(cs[1..], u, role) {
        var i :| 0 <= i < |cs[1..]| && cs[1..][i] == Candidate(Some(u), Some(role))
                 && forall j :: 0 <= j < i ==> !(cs[1..][j].user == Some(u) && cs[1..][j].role.Some?);
        assert cs[i + 1] == cs[1..][i];
        assert forall j :: 1 <= j < i + 1 ==> cs[j] == cs[1..][j - 1];
      }
    }
  }

  lemma BulkAddMember(s: State, op: Op, t: TeamId, u: User)
    requires t in s.teams && op.BulkAdd?
    ensures MemberIs(s, op, t, u, Step(s, op).teams[t].members)
  {
    var m, after := s.teams[t].members, Step(s, op).teams[t].members;
    if u in m {
      AddedAllIs(m, op.candidates, u, m[u]);
    } else {
      forall role ensures (u in after && after[u] == role) <==> Joins(s, op, t, u, role) {
        AddedAllIs(m, op.candidates, u, role);
      }
    }
  }

  lemma BulkRemoveMember(s: State, op: Op, t: TeamId, u: User)
    requires t in s.teams && op.BulkRemove?
    ensures MemberIs(s, op, t, u, Step(s, op).teams[t].members)
  {
    RequestsArePositions(s.teams[t].members, op.users);
  }

  lemma SingleMember(s: State, op: Op, t: TeamId, u: User)
    requires t in s.teams && (op.AddMember? || op.Leave? || op.Remove? || op.ChangeTeamRole? || op.SetArchived?)
    ensures MemberIs(s, op, t, u, Step(s, op).teams[t].members)
  {
    MayLoseIs(s.teams[t].members, u);
  }

  lemma OrgMember(s: State, op: Op, t: TeamId, u: User)
    requires t in s.teams && (op.Transfer? || op.Deactivate? || op.DeleteUser?)
    ensures t in Step(s, op).teams && MemberIs(s, op, t, u, Step(s, op).teams[t].members)
  {
    if op.Deactivate? && op.org in s.orgs { MayLoseOwnerIs(s.orgs[op.org], op.user); }
  }

  /** Every member of every team after every operation: gone exactly if the operation takes the member out, with a new role
      exactly if it gives one, otherwise as before; and in the team anew exactly if it brings the user in. */
  lemma MemberAfter(s: State, op: Op, t: TeamId, u: User)
    requires t in s.teams && t in Step(s, op).teams
    ensures MemberIs(s, op, t, u, Step(s, op).teams[t].members)
  {
    match op
    case AddMember(_, _) => SingleMember(s, op, t, u);
    case Leave(_, _) => SingleMember(s, op, t, u);
    case Remove(_, _) => SingleMember(s, op, t, u);
    case ChangeTeamRole(_, _, _) => SingleMember(s, op, t, u);
    case SetArchived(_, _) => SingleMember(s, op, t, u);
    case BulkAdd(_, _) => BulkAddMember(s, op, t, u);
    case BulkRemove(_, _, _) => BulkRemoveMember(s, op, t, u);
    case Transfer(_, _, _) => OrgMember(s, op, t, u);
    case Deactivate(_, _) => OrgMember(s, op, t, u);
    case DeleteUser(_) => OrgMember(s, op, t, u);
    case _ =>
  }

  // ---- Teams ----

  /** A team goes with its own deletion or its organization's, changes organization by a transfer that goes through, and is
      archived as last set. */
  lemma TeamAfter(s: State, op: Op, t: TeamId)
    requires t in s.teams
    ensures var after := Step(s, op).teams;
            && (t !in after <==> op == DeleteTeam(t) || op == DeleteOrg(s.teams[t].org))
            && (t in after ==> after[t].org == if Moves(s, op, t) then op.target else s.teams[t].org)
            && (t in after ==> after[t].archived == if op.SetArchived? && op.team == t then op.archived else s.teams[t].archived)
  {
  }

  /** A team comes with its creator as its lead and only member. */
  lemma NewTeamAfter(s: State, op: Op, t: TeamId)
    requires t !in s.teams
    ensures var after := Step(s, op).teams;
            && (t in after <==> op.CreateTeam? && op.team == t && op.org in s.orgs)
            && (t in after ==> after[t] == Team(op.org, false, map[op.user := Lead]))
  {
  }

  // ---- Organizations ----

  predicate ReassignsOrg(s: State, op: Op, o: OrgId, u: User)
    requires o in s.orgs && u in s.orgs[o]
  {
    && op.ChangeOrgRole? && op.org == o && op.user == u && op.newRole.Some?
    && (op.newRole.value != Owner && s.orgs[o][u] == Owner ==> AnotherOwner(s.orgs[o], u))
  }

  /** Every role in every organization after every operation. */
  lemma OrgRoleAfter(s: State, op: Op, o: OrgId, u: User)
    requires o in s.orgs && u in s.orgs[o]
    ensures var after := Step(s, op).orgs;
            && (o in after <==> op != DeleteOrg(o))
            && (o in after ==> (u in after[o] <==> !Deactivates(s, op, o, u) && op != DeleteUser(u)))
            && (o in after && u in after[o] ==>
                  after[o][u] == if ReassignsOrg(s, op, o, u) then op.newRole.value else s.orgs[o][u])
  {
    MayLoseOwnerIs(s.orgs[o], u);
  }

  /** A user joins with the role asked for; the first organization, and no second one, comes with its creator as owner. */
  lemma NewOrgRoleAfter(s: State, op: Op, o: OrgId, u: User)
    requires o in s.orgs ==> u !in s.orgs[o]
    ensures var after := Step(s, op).orgs;
            forall role :: (o in after && u in after[o] && after[o][u] == role) <==>
              || (op == JoinOrg(o, u, role) && o in s.orgs)
              || (op == CreateOrg(o, u) && s.orgs == map[] && role == Owner)
  {
  }
}
