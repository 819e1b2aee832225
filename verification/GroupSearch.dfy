/** Directory groups of a user: the direct ones, their parents up to five levels, and the role they map to. */
module GroupSearch {
  import opened Common

  const MAX_DEPTH: int := 5

  datatype Group = Group(dn: string, name: string)

  /** What the server answers: groups holding a user, and groups holding a group. None is a failed search. */
  datatype Directory = Directory(ofUser: string -> Option<seq<Group>>, ofGroup: string -> Option<seq<Group>>)

  datatype Config = Config(groupBaseDN: string, nestedGroups: bool)
  datatype Error = LDAPUnavailable

  // ---- Reachability -----------------------------------------------------------------------

  /** The groups directly holding a group; a failed search shows none. */
  function Holders(d: Directory, dn: string): (gs: seq<Group>) {
    match d.ofGroup(dn) case Some(gs) => gs case None => []
  }

  function DNs(gs: seq<Group>): (s: set<string>) {
    set i | 0 <= i < |gs| :: gs[i].dn
  }

  function Parents(d: Directory, s: set<string>): (p: set<string>) {
    set dn, i | dn in s && 0 <= i < |Holders(d, dn)| :: Holders(d, dn)[i].dn
  }

  /** Everything at most n parent steps above s. */
  function Reach(d: Directory, s: set<string>, n: nat): (r: set<string>)
    decreases n
  {
    if n == 0 then s else Reach(d, s + Parents(d, s), n - 1)
  }

  /** Exactly n parent steps lead from a to b. */
  ghost predicate StepsUp(d: Directory, a: string, b: string, n: nat)
    decreases n
  {
    if n == 0 then a == b
    else exists m :: m in DNs(Holders(d, a)) && StepsUp(d, m, b, n - 1)
  }

  lemma ParentOf(d: Directory, s: set<string>, a: string, m: string)
    requires a in s && m in DNs(Holders(d, a))
    ensures m in Parents(d, s)
  {
    var i :| 0 <= i < |Holders(d, a)| && Holders(d, a)[i].dn == m;
    assert a in s && 0 <= i < |Holders(d, a)|;
  }

  /** Some path of at most n parent steps leads from s to x. */
  ghost predicate Below(d: Directory, s: set<string>, n: nat, x: string) {
    exists a, k: nat :: a in s && k <= n && StepsUp(d, a, x, k)
  }

  /** The reachable set is exactly the groups some path of at most n parent steps leads to. */
  lemma {:induction false} ReachIsPaths(d: Directory, s: set<string>, n: nat, x: string)
    ensures x in Reach(d, s, n) <==> Below(d, s, n, x)
    decreases n
  {
    if n == 0 {
      if x in s { assert StepsUp(d, x, x, 0); }
    } else {
      var up := s + Parents(d, s);
      ReachIsPaths(d, up, n - 1, x);
      if Below(d, s, n, x) {
        var a, k: nat :| a in s && k <= n && StepsUp(d, a, x, k);
        PathFromAbove(d, s, n, a, k, x);
      }
      if Below(d, up, n - 1, x) {
        var a, k: nat :| a in up && k <= n - 1 && StepsUp(d, a, x, k);
        PathFromBelow(d, s, n, a, k, x);
      }
    }
  }

  lemma PathFromAbove(d: Directory, s: set<string>, n: nat, a: string, k: nat, x: string)
    requires n > 0 && a in s && k <= n && StepsUp(d, a, x, k)
    ensures Below(d, s + Parents(d, s), n - 1, x)
  {
    if k == 0 {
      assert StepsUp(d, x, x, 0);
    } else {
      var m :| m in DNs(Holders(d, a)) && StepsUp(d, m, x, k - 1);
      ParentOf(d, s, a, m);
    }
  }

  lemma PathFromBelow(d: Directory, s: set<string>, n: nat, a: string, k: nat, x: string)
    requires a in s + Parents(d, s) && k < n && StepsUp(d, a, x, k)
    ensures Below(d, s, n, x)
  {
    if a !in s {
      var dn, i :| dn in s && 0 <= i < |Holders(d, dn)| && Holders(d, dn)[i].dn == a;
      assert a in DNs(Holders(d, dn));
      assert StepsUp(d, dn, x, k + 1);
    }
  }

  lemma {:induction false} ReachFixed(d: Directory, s: set<string>, n: nat)
    requires Parents(d, s) <= s
    ensures Reach(d, s, n) == s
  {
    if n > 0 {
      assert s + Parents(d, s) == s;
      ReachFixed(d, s, n - 1);
    }
  }

  lemma {:induction false} ReachGrows(d: Directory, s: set<string>, n: nat)
    ensures s <= Reach(d, s, n)
    decreases n
  {
    if n > 0 {
      ReachGrows(d, s + Parents(d, s), n - 1);
    }
  }

  // ---- The search -------------------------------------------------------------------------

  /** The map of distinguished names already found, shared by the whole recursion. */
  class Seen {
    var dns: set<string>

    constructor ()
      ensures dns == {}
    {
      dns := {};
    }
  }

  ghost predicate Distinct(gs: seq<Group>) {
    forall i, j :: 0 <= i < j < |gs| ==> gs[i].dn != gs[j].dn
  }

  ghost predicate NoFailure(d: Directory, s: set<string>) {
    forall dn :: dn in s ==> d.ofGroup(dn).Some?
  }

  /** Every member search that n levels above s may issue is answered. */
  ghost predicate Answered(d: Directory, s: set<string>, n: nat) {
    n > 0 ==> NoFailure(d, Reach(d, s, n - 1))
  }

  /**
   * A search of n levels from s ended with t: never more than reachable, and all of it when every search was
   * answered.
   */
  ghost predicate Searched(d: Directory, s: set<string>, t: set<string>, n: nat) {
    s <= t <= Reach(d, s, n) && (Answered(d, s, n) ==> t == Reach(d, s, n))
  }

  /** A member search for one of these groups returned the entry g. */
  ghost predicate Listed(d: Directory, s: set<string>, g: Group) {
    exists dn :: dn in s && g in Holders(d, dn)
  }

  lemma DNsAppend(gs: seq<Group>, g: Group)
    ensures DNs(gs + [g]) == DNs(gs) + {g.dn}
  {
    var t := gs + [g];
    forall x | x in DNs(gs) + {g.dn} ensures x in DNs(t) {
      if x == g.dn { assert t[|gs|].dn == x; }
      else {
        var i :| 0 <= i < |gs| && gs[i].dn == x;
        assert t[i].dn == x;
      }
    }
  }

  lemma DNsConcat(a: seq<Group>, b: seq<Group>)
    ensures DNs(a + b) == DNs(a) + DNs(b)
  {
    var t := a + b;
    forall x | x in DNs(a) + DNs(b) ensures x in DNs(t) {
      if x in DNs(a) {
        var i :| 0 <= i < |a| && a[i].dn == x;
        assert t[i].dn == x;
      } else {
        var i :| 0 <= i < |b| && b[i].dn == x;
        assert t[|a| + i].dn == x;
      }
    }
  }

  /** Adds the entries not seen before, marking each as seen; the loop both searches share. */
  method AddUnseen(entries: seq<Group>, seen: Seen, found: seq<Group>) returns (r: seq<Group>)
    requires Distinct(found) && DNs(found) <= seen.dns
    modifies seen
    ensures seen.dns == old(seen.dns) + DNs(entries)
    ensures Distinct(r) && found <= r && DNs(r) == DNs(found) + (DNs(entries) - old(seen.dns))
    ensures forall g :: g in r ==> g in found || g in entries
  {
    r := found;
    for i := 0 to |entries|
      invariant seen.dns == old(seen.dns) + DNs(entries[..i])
      invariant Distinct(r) && found <= r && DNs(r) == DNs(found) + (DNs(entries[..i]) - old(seen.dns))
      invariant forall g :: g in r ==> g in found || g in entries
    {
      var e := entries[i];
      assert entries[..i + 1] == entries[..i] + [e];
      DNsAppend(entries[..i], e);
      if e.dn !in seen.dns {
        assert e.dn !in DNs(r);
        DNsAppend(r, e);
        seen.dns := seen.dns + {e.dn};
        r := r + [e];
      }
    }
    assert entries[..|entries|] == entries;
  }

  /** The member search on one level, for each of the given groups; stops at the first failed search. */
  method SearchLevel(d: Directory, groups: seq<Group>, seen: Seen) returns (found: seq<Group>, complete: bool)
    modifies seen
    ensures complete <==> NoFailure(d, DNs(groups))
    ensures old(seen.dns) <= seen.dns <= old(seen.dns) + Parents(d, DNs(groups))
    ensures complete ==> seen.dns == old(seen.dns) + Parents(d, DNs(groups))
    ensures Distinct(found) && DNs(found) == seen.dns - old(seen.dns)
    ensures forall g :: g in found ==> Listed(d, DNs(groups), g)
  {
    found := [];
    for i := 0 to |groups|
      invariant NoFailure(d, DNs(groups[..i]))
      invariant seen.dns == old(seen.dns) + Parents(d, DNs(groups[..i]))
      invariant Distinct(found) && DNs(found) == seen.dns - old(seen.dns)
      invariant forall g :: g in found ==> Listed(d, DNs(groups), g)
    {
      var dn := groups[i].dn;
      assert dn in DNs(groups);
      LevelStep(d, groups, i);
      var sr := d.ofGroup(dn);
      if sr.None? {
        return found, false;
      }
      ghost var before := found;
      found := AddUnseen(sr.value, seen, found);
      LevelSets(old(seen.dns), Parents(d, DNs(groups[..i])), DNs(sr.value), DNs(before), DNs(found));
      ListedStep(d, DNs(groups), dn, before, found);
    }
    assert groups[..|groups|] == groups;
    complete := true;
  }

  lemma LevelSets(s0: set<string>, p: set<string>, h: set<string>, before: set<string>, after: set<string>)
    requires before == (s0 + p) - s0 && after == before + (h - (s0 + p))
    ensures s0 + p + h == s0 + (p + h) && after == (s0 + (p + h)) - s0
  {
  }

  lemma ListedStep(d: Directory, s: set<string>, dn: string, before: seq<Group>, found: seq<Group>)
    requires dn in s && (forall g :: g in before ==> Listed(d, s, g))
    requires forall g :: g in found ==> g in before || g in Holders(d, dn)
    ensures forall g :: g in found ==> Listed(d, s, g)
  {
  }

  lemma LevelStep(d: Directory, groups: seq<Group>, i: nat)
    requires i < |groups|
    ensures DNs(groups[..i + 1]) == DNs(groups[..i]) + {groups[i].dn}
    ensures Parents(d, DNs(groups[..i + 1])) == Parents(d, DNs(groups[..i])) + DNs(Holders(d, groups[i].dn))
    ensures Parents(d, DNs(groups[..i])) <= Parents(d, DNs(groups))
  {
    var dn := groups[i].dn;
    assert groups[..i + 1] == groups[..i] + [groups[i]];
    DNsAppend(groups[..i], groups[i]);
    ParentsAdd(d, DNs(groups[..i]), dn);
    assert groups == groups[..i] + groups[i..];
    DNsConcat(groups[..i], groups[i..]);
  }

  lemma ParentsAdd(d: Directory, s: set<string>, dn: string)
    ensures Parents(d, s + {dn}) == Parents(d, s) + DNs(Holders(d, dn))
  {
    forall x | x in DNs(Holders(d, dn)) ensures x in Parents(d, s + {dn}) {
      ParentOf(d, s + {dn}, dn, x);
    }
  }

  /**
   * The recursive parent search. Everything seen outside the current frontier is already closed under
   * parents, so the remaining levels reach exactly what the remaining depth allows.
   */
  method SearchParentGroups(d: Directory, groups: seq<Group>, seen: Seen, depth: nat) returns (result: seq<Group>)
    requires DNs(groups) <= seen.dns && Parents(d, seen.dns - DNs(groups)) <= seen.dns
    modifies seen
    ensures Searched(d, old(seen.dns), seen.dns, Levels(depth))
    ensures Distinct(result) && DNs(result) == seen.dns - old(seen.dns)
    ensures forall g :: g in result ==> Listed(d, seen.dns, g)
    decreases Levels(depth)
  {
    if depth >= MAX_DEPTH {
      return [];
    }
    if |groups| == 0 {
      assert seen.dns - DNs(groups) == seen.dns;
      ReachFixed(d, seen.dns, Levels(depth));
      return [];
    }
    ghost var s0 := seen.dns;
    var found, complete := SearchLevel(d, groups, seen);
    ghost var s1 := seen.dns;
    if !complete {
      SearchedPartly(d, s0, DNs(groups), s1, Levels(depth));
      JoinLevels(d, found, [], DNs(groups), s0, s1, s1);
      assert found + [] == found;
      return found;
    }
    FrontierParents(d, s0, DNs(groups));
    assert s1 - DNs(found) == s0;
    var deeper := SearchParentGroups(d, found, seen, depth + 1);
    SearchedStep(d, s0, DNs(groups), seen.dns, Levels(depth));
    JoinLevels(d, found, deeper, DNs(groups), s0, s1, seen.dns);
    return found + deeper;
  }

  /** The groups of one level and those found above it, together. */
  lemma JoinLevels(d: Directory, found: seq<Group>, deeper: seq<Group>, f: set<string>, s0: set<string>,
                   s1: set<string>, s2: set<string>)
    requires Distinct(found) && Distinct(deeper) && f <= s0 <= s1 <= s2 && DNs(found) == s1 - s0
    requires DNs(deeper) == s2 - s1
    requires (forall g :: g in found ==> Listed(d, f, g)) && (forall g :: g in deeper ==> Listed(d, s2, g))
    ensures Distinct(found + deeper) && DNs(found + deeper) == s2 - s0
    ensures forall g :: g in found + deeper ==> Listed(d, s2, g)
  {
    DNsConcat(found, deeper);
    DistinctConcat(found, deeper);
    forall g | g in found + deeper ensures Listed(d, s2, g) {
      if g in found { ListedMore(d, f, s2, g); }
    }
  }

  lemma ListedMore(d: Directory, s: set<string>, t: set<string>, g: Group)
    requires s <= t && Listed(d, s, g)
    ensures Listed(d, t, g)
  {
  }

  function Levels(depth: nat): (n: nat) { if depth >= MAX_DEPTH then 0 else MAX_DEPTH - depth }

  /** A level that broke off stays inside the reachable set, and did so because a search failed. */
  lemma SearchedPartly(d: Directory, s: set<string>, f: set<string>, t: set<string>, n: nat)
    requires f <= s && Parents(d, s - f) <= s && s <= t <= s + Parents(d, f) && n > 0 && !NoFailure(d, f)
    ensures Searched(d, s, t, n)
  {
    FrontierParents(d, s, f);
    ReachGrows(d, s + Parents(d, f), n - 1);
    ReachGrows(d, s, n - 1);
  }

  /** A whole level is the first step of the reachable set; the rest is the search from there. */
  lemma SearchedStep(d: Directory, s: set<string>, f: set<string>, t: set<string>, n: nat)
    requires f <= s && Parents(d, s - f) <= s && n > 0 && Searched(d, s + Parents(d, f), t, n - 1)
    ensures Searched(d, s, t, n)
  {
    FrontierParents(d, s, f);
    assert Reach(d, s, n) == Reach(d, s + Parents(d, s), n - 1);
  }

  lemma FrontierParents(d: Directory, s: set<string>, f: set<string>)
    requires f <= s && Parents(d, s - f) <= s
    ensures s + Parents(d, f) == s + Parents(d, s)
  {
    forall x | x in Parents(d, s) ensures x in s + Parents(d, f) {
      var dn, i :| dn in s && 0 <= i < |Holders(d, dn)| && Holders(d, dn)[i].dn == x;
      assert x in DNs(Holders(d, dn));
      if dn in f { ParentOf(d, f, dn, x); } else { ParentOf(d, s - f, dn, x); }
    }
    forall x | x in Parents(d, f) ensures x in Parents(d, s) {
      var dn, i :| dn in f && 0 <= i < |Holders(d, dn)| && Holders(d, dn)[i].dn == x;
      assert x in DNs(Holders(d, dn));
      ParentOf(d, s, dn, x);
    }
  }

  lemma DistinctConcat(a: seq<Group>, b: seq<Group>)
    requires Distinct(a) && Distinct(b) && DNs(a) !! DNs(b)
    ensures Distinct(a + b)
  {
    forall i, j | 0 <= i < |a| && 0 <= j < |b| ensures a[i].dn != b[j].dn {
      assert a[i].dn in DNs(a) && b[j].dn in DNs(b);
    }
  }

  /** The direct groups, and with nesting enabled every group up to five parent steps above them, once each. */
  method SearchGroups(cfg: Config, d: Directory, userDN: string) returns (r: Result<seq<Group>, Error>)
    ensures r.Err? <==> cfg.groupBaseDN != "" && d.ofUser(userDN).None?
    ensures cfg.groupBaseDN == "" ==> r == Ok([])
    ensures r.Ok? ==> Distinct(r.value)
    ensures cfg.groupBaseDN != "" && r.Ok? ==>
              var direct := DNs(d.ofUser(userDN).value);
              && direct <= DNs(r.value) <= Reach(d, direct, 5)
              && (!cfg.nestedGroups ==> DNs(r.value) == direct)
              && (cfg.nestedGroups && Answered(d, direct, 5) ==> DNs(r.value) == Reach(d, direct, 5))
    ensures r.Ok? ==> forall g :: g in r.value ==>
              (d.ofUser(userDN).Some? && g in d.ofUser(userDN).value) || Listed(d, DNs(r.value), g)
  {
    if cfg.groupBaseDN == "" {
      return Ok([]);
    }
    var result := d.ofUser(userDN);
    if result.None? {
      return Err(LDAPUnavailable);
    }
    var seen := new Seen();
    var groups := AddUnseen(result.value, seen, []);
    ghost var direct := DNs(result.value);
    ReachGrows(d, direct, MAX_DEPTH);
    assert seen.dns == direct == DNs(groups);
    if cfg.nestedGroups && |groups| > 0 {
      assert seen.dns - DNs(groups) == {};
      var nested := SearchParentGroups(d, groups, seen, 0);
      DNsConcat(groups, nested);
      DistinctConcat(groups, nested);
      groups := groups + nested;
    } else if cfg.nestedGroups {
      ReachFixed(d, direct, MAX_DEPTH);
    }
    return Ok(groups);
  }

  // ---- Roles ------------------------------------------------------------------------------

  datatype DNMapping = DNMapping(dn: string, role: string)

  /** `fold` is case-insensitive equality of distinguished names. */
  datatype RoleConfig = RoleConfig(dnMappings: seq<DNMapping>, nameMappings: map<string, string>, defaultRole: string,
                                   fold: (string, string) -> bool)

  function Priority(role: string): (p: nat) {
    if role == "admin" then 3 else if role == "viewer" then 2 else if role == "inference" then 1 else 0
  }

  /** Some mapping gives this group this role. */
  predicate Grants(cfg: RoleConfig, g: Group, role: string) {
    || (exists i :: 0 <= i < |cfg.dnMappings| && cfg.fold(g.dn, cfg.dnMappings[i].dn) && cfg.dnMappings[i].role == role)
    || (g.name in cfg.nameMappings && cfg.nameMappings[g.name] == role)
  }

  /** best is the highest role granted to any of the groups, or empty when none of the three is granted. */
  ghost predicate Highest(cfg: RoleConfig, groups: seq<Group>, best: string) {
    && (best != "" ==> Priority(best) > 0 && exists g :: g in groups && Grants(cfg, g, best))
    && (forall g, role :: g in groups && Grants(cfg, g, role) ==> Priority(role) <= Priority(best))
  }

  method ResolveRole(cfg: RoleConfig, groups: seq<Group>) returns (role: string, matched: bool)
    ensures cfg.dnMappings == [] && cfg.nameMappings == map[] ==> role == "" && matched
    ensures !(cfg.dnMappings == [] && cfg.nameMappings == map[]) ==>
              exists best :: Highest(cfg, groups, best) &&
                role == (if best != "" then best else cfg.defaultRole) && matched == (role != "")
  {
    if cfg.dnMappings == [] && cfg.nameMappings == map[] {
      return "", true;
    }
    var best := "";
    for i := 0 to |groups|
      invariant Highest(cfg, groups[..i], best)
    {
      var g := groups[i];
      best := RaiseByGroup(cfg, groups[..i], g, best);
      assert groups[..i + 1] == groups[..i] + [g];
    }
    assert groups[..|groups|] == groups;
    assert Highest(cfg, groups, best);
    if best != "" { return best, true; }
    if cfg.defaultRole != "" { return cfg.defaultRole, true; }
    return "", false;
  }

  /** One group's contribution: its distinguished-name mappings, then its name mapping. */
  method RaiseByGroup(cfg: RoleConfig, ghost before: seq<Group>, g: Group, best: string) returns (r: string)
    requires Highest(cfg, before, best)
    ensures Highest(cfg, before + [g], r)
  {
    r := best;
    ghost var all := before + [g];
    for j := 0 to |cfg.dnMappings|
      invariant Priority(r) >= Priority(best)
      invariant r != "" ==> Priority(r) > 0 && exists h :: h in all && Grants(cfg, h, r)
      invariant forall k :: 0 <= k < j && cfg.fold(g.dn, cfg.dnMappings[k].dn) ==>
                  Priority(cfg.dnMappings[k].role) <= Priority(r)
    {
      var dm := cfg.dnMappings[j];
      if cfg.fold(g.dn, dm.dn) && Priority(dm.role) > Priority(r) {
        r := dm.role;
        assert g in all && Grants(cfg, g, r);
      }
    }
    if g.name in cfg.nameMappings && Priority(cfg.nameMappings[g.name]) > Priority(r) {
      r := cfg.nameMappings[g.name];
      assert g in all && Grants(cfg, g, r);
    }
  }

  /** A distinguished-name mapping or the name mapping gives this role to one of the groups. */
  ghost predicate Given(cfg: RoleConfig, groups: seq<Group>, role: string) {
    exists i :: 0 <= i < |groups| && GivenTo(cfg, groups[i], role)
  }

  ghost predicate GivenTo(cfg: RoleConfig, g: Group, role: string) {
    || (g.name in cfg.nameMappings && cfg.nameMappings[g.name] == role)
    || exists m :: m in cfg.dnMappings && cfg.fold(g.dn, m.dn) && m.role == role
  }

  /** The highest role, written out: admin before viewer before inference, and nothing else counts. */
  lemma HighestMeans(cfg: RoleConfig, groups: seq<Group>, best: string)
    requires Highest(cfg, groups, best)
    ensures best == if Given(cfg, groups, "admin") then "admin"
                    else if Given(cfg, groups, "viewer") then "viewer"
                    else if Given(cfg, groups, "inference") then "inference" else ""
  {
    forall role ensures Given(cfg, groups, role) <==> exists g :: g in groups && Grants(cfg, g, role) {
      GivenIsGranted(cfg, groups, role);
    }
    assert Priority("admin") == 3 && Priority("viewer") == 2 && Priority("inference") == 1 && Priority("") == 0;
  }

  lemma GivenIsGranted(cfg: RoleConfig, groups: seq<Group>, role: string)
    ensures Given(cfg, groups, role) <==> exists g :: g in groups && Grants(cfg, g, role)
  {
    forall g ensures GivenTo(cfg, g, role) <==> Grants(cfg, g, role) {
      if m :| m in cfg.dnMappings && cfg.fold(g.dn, m.dn) && m.role == role {
        var i :| 0 <= i < |cfg.dnMappings| && cfg.dnMappings[i] == m;
      }
      if i :| 0 <= i < |cfg.dnMappings| && cfg.fold(g.dn, cfg.dnMappings[i].dn) && cfg.dnMappings[i].role == role {
        assert cfg.dnMappings[i] in cfg.dnMappings;
      }
    }
    if g :| g in groups && Grants(cfg, g, role) {
      var i :| 0 <= i < |groups| && groups[i] == g;
      assert GivenTo(cfg, groups[i], role);
    }
  }

  /** The role depends only on which groups were found, not on their order or multiplicity. */
  lemma HighestUnique(cfg: RoleConfig, gs: seq<Group>, hs: seq<Group>, a: string, b: string)
    requires (forall g :: g in gs <==> g in hs) && Highest(cfg, gs, a) && Highest(cfg, hs, b)
    ensures a == b
  {
    if a != "" {
      var g :| g in gs && Grants(cfg, g, a);
      assert g in hs;
    }
    if b != "" {
      var h :| h in hs && Grants(cfg, h, b);
      assert h in gs;
    }
  }
}
