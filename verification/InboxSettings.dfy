/** The settings cascade behind inbox lifetimes. Durations are in nanoseconds; a level that is unset or does not parse
    is None. */
module InboxSettings {
  import opened Common

  const MINUTE := 60_000_000_000

  datatype Policy = Original | Fixed | UseDefault

  datatype Settings = Settings(
    assignmentFound: bool, domainFound: bool,
    assignmentMax: Option<int>, domainMax: Option<int>, orgMax: Option<int>, systemMax: int,
    teamDefault: Option<int>, domainDefault: Option<int>, orgDefault: Option<int>, systemDefault: int,
    policy: Policy, fixed: Option<int>)

  /** assignment, domain, organization, system */
  function ResolveMax(c: Settings): int {
    if !c.assignmentFound then c.systemMax
    else if c.assignmentMax.Some? then c.assignmentMax.value
    else if !c.domainFound then c.systemMax
    else if c.domainMax.Some? then c.domainMax.value
    else if c.orgMax.Some? then c.orgMax.value
    else c.systemMax
  }

  /** domain, organization, system */
  function ResolveDefault(c: Settings): int {
    if !c.assignmentFound || !c.domainFound then c.systemDefault
    else if c.domainDefault.Some? then c.domainDefault.value
    else if c.orgDefault.Some? then c.orgDefault.value
    else c.systemDefault
  }

  function ResolveDefaultWithTeam(c: Settings): int {
    if c.teamDefault.Some? then c.teamDefault.value else ResolveDefault(c)
  }

  /** How long a renewal without an explicit extension lasts. */
  function Renewal(c: Settings, originalTtl: Option<int>): int {
    match c.policy
    case Original => if originalTtl.Some? && originalTtl.value > 0 then originalTtl.value else ResolveDefault(c)
    case Fixed => if c.fixed.Some? && c.fixed.value > 0 then c.fixed.value else ResolveDefault(c)
    case UseDefault => ResolveDefault(c)
  }

  // ---- The nearest level wins ----

  /** The value of the first level that has one, or the last resort. */
  function FirstSet(levels: seq<Option<int>>, lastResort: int): int {
    if levels == [] then lastResort
    else if levels[0].Some? then levels[0].value
    else FirstSet(levels[1..], lastResort)
  }

  /** What that means: every level in front of the one that decides has no value. */
  lemma {:induction false} FirstSetIs(levels: seq<Option<int>>, lastResort: int)
    ensures || (FirstSet(levels, lastResort) == lastResort && forall i :: 0 <= i < |levels| ==> levels[i].None?)
            || exists k :: 0 <= k < |levels| && levels[k] == Some(FirstSet(levels, lastResort))
                           && forall i :: 0 <= i < k ==> levels[i].None?
  {
    if levels == [] {
    } else if levels[0].None? {
      FirstSetIs(levels[1..], lastResort);
      if k :| 0 <= k < |levels[1..]| && levels[1..][k] == Some(FirstSet(levels[1..], lastResort))
              && forall i :: 0 <= i < k ==> levels[1..][i].None? {
        assert levels[k + 1] == Some(FirstSet(levels, lastResort));
        assert forall i :: 1 <= i < k + 1 ==> levels[i] == levels[1..][i - 1];
      } else {
        assert forall i :: 1 <= i < |levels| ==> levels[i] == levels[1..][i - 1];
      }
    }
  }

  /** The maximum is that of the assignment, or else of the domain, or else of the organization, or else of the system. When
      the assignment or the domain cannot be loaded, the levels behind it are skipped. */
  lemma MaxIsNearest(c: Settings)
    ensures ResolveMax(c) == FirstSet(if !c.assignmentFound then [] else if !c.domainFound then [c.assignmentMax]
                                      else [c.assignmentMax, c.domainMax, c.orgMax], c.systemMax)
  {
    Three(c.assignmentMax, c.domainMax, c.orgMax, c.systemMax);
  }

  lemma Three(a: Option<int>, b: Option<int>, c: Option<int>, lastResort: int)
    ensures FirstSet([a], lastResort) == if a.Some? then a.value else lastResort
    ensures FirstSet([a, b, c], lastResort)
         == if a.Some? then a.value else if b.Some? then b.value else if c.Some? then c.value else lastResort
  {
    assert [a][1..] == [] && [a, b, c][1..] == [b, c] && [b, c][1..] == [c] && [c][1..] == [];
    assert FirstSet([c], lastResort) == if c.Some? then c.value else lastResort;
  }

  /** The default is that of the team, if one is asked for, or else of the domain, of the organization, or of the system. */
  lemma DefaultIsNearest(c: Settings)
    requires c.assignmentFound && c.domainFound
    ensures ResolveDefaultWithTeam(c) == FirstSet([c.teamDefault, c.domainDefault, c.orgDefault], c.systemDefault)
    ensures ResolveDefault(c) == FirstSet([c.domainDefault, c.orgDefault], c.systemDefault)
  {
    Three(c.teamDefault, c.domainDefault, c.orgDefault, c.systemDefault);
    Three(None, c.domainDefault, c.orgDefault, c.systemDefault);
    assert [None, c.domainDefault, c.orgDefault][1..] == [c.domainDefault, c.orgDefault];
  }

  lemma DefaultWithoutDomain(c: Settings)
    requires !c.assignmentFound || !c.domainFound
    ensures ResolveDefault(c) == c.systemDefault
    ensures ResolveDefaultWithTeam(c) == FirstSet([c.teamDefault], c.systemDefault)
  {
    Three(c.teamDefault, None, None, c.systemDefault);
  }

  /** A renewal lasts as long as the first lifetime or the fixed time, as the policy says, if that is set and positive, and
      otherwise as long as the default without the team's. */
  lemma RenewalIs(c: Settings, originalTtl: Option<int>)
    ensures var wanted := match c.policy { case Original => originalTtl case Fixed => c.fixed case UseDefault => None };
            Renewal(c, originalTtl) == FirstSet([if wanted.Some? && wanted.value > 0 then wanted else None], ResolveDefault(c))
  {
    var wanted := match c.policy { case Original => originalTtl case Fixed => c.fixed case UseDefault => None };
    Three(if wanted.Some? && wanted.value > 0 then wanted else None, None, None, ResolveDefault(c));
  }

  /** A renewal by default agrees with the default of a new inbox exactly when the team has none or it makes no difference:
      the team's level is left out. */
  lemma RenewalLeavesTeamOut(c: Settings, originalTtl: Option<int>)
    requires c.policy == UseDefault
    ensures Renewal(c, originalTtl) == ResolveDefaultWithTeam(c) <==>
              FirstSet([c.teamDefault], ResolveDefault(c)) == ResolveDefault(c)
  {
    Three(c.teamDefault, None, None, ResolveDefault(c));
  }
}
