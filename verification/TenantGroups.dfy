/** Tenants and their optimised groups (or_query_builder.go: optimizeGroups). */
module TenantGroups {
  import opened Lists

  datatype Tenant = Tenant(account: string, project: string)
  {
    predicate IsWildcard() {
      project == ".*" || project == ""
    }

    /** Whether the tenant grants access to a (account, project) pair. */
    predicate Permits(useProjectID: bool, a: string, p: string) {
      account == a && (useProjectID ==> IsWildcard() || project == p)
    }
  }

  datatype Group = Group(account: string, projects: seq<string>, wildcard: bool)
  {
    predicate FiltersProject(useProjectID: bool) {
      useProjectID && !wildcard && |projects| > 0
    }

    predicate Permits(useProjectID: bool, a: string, p: string) {
      account == a && (FiltersProject(useProjectID) ==> p in projects)
    }
  }

  // ----- the canonical groups of a set of tenants

  ghost function Accounts(T: set<Tenant>): set<string> {
    set t | t in T :: t.account
  }

  ghost predicate HasWildcard(T: set<Tenant>, a: string) {
    exists t :: t in T && t.account == a && t.IsWildcard()
  }

  ghost function Projects(T: set<Tenant>, a: string): set<string> {
    set t | t in T && t.account == a && !t.IsWildcard() :: t.project
  }

  /** One group per account: everything when a wildcard is present, otherwise the listed
      projects in order. */
  ghost function CanonicalGroup(T: set<Tenant>, a: string): Group {
    if HasWildcard(T, a) then Group(a, [], true) else Group(a, SortedList(Projects(T, a)), false)
  }

  /** The groups of a set of tenants. It depends on the set alone: order and repetition of
      the tenants cannot show. */
  ghost function Canonical(T: set<Tenant>): (groups: seq<Group>)
    ensures |groups| == |SortedList(Accounts(T))|
    ensures forall i :: 0 <= i < |groups| ==> groups[i] == CanonicalGroup(T, SortedList(Accounts(T))[i])
  {
    var accounts := SortedList(Accounts(T));
    seq(|accounts|, i requires 0 <= i < |accounts| => CanonicalGroup(T, accounts[i]))
  }

  ghost predicate TenantsPermit(T: set<Tenant>, useProjectID: bool, a: string, p: string) {
    exists t :: t in T && t.Permits(useProjectID, a, p)
  }

  ghost predicate GroupsPermit(groups: seq<Group>, useProjectID: bool, a: string, p: string) {
    exists i :: 0 <= i < |groups| && groups[i].Permits(useProjectID, a, p)
  }

  lemma SortedMember(s: set<string>, x: string)
    ensures x in SortedList(s) <==> x in s
  {
  }

  /** A group permits exactly the pairs that some tenant of its account permits. */
  lemma {:induction false} GroupMeaning(T: set<Tenant>, a: string, useProjectID: bool, p: string)
    requires a in Accounts(T)
    ensures CanonicalGroup(T, a).Permits(useProjectID, a, p) <==> TenantsPermit(T, useProjectID, a, p)
  {
    var t0 :| t0 in T && t0.account == a;
    var g := CanonicalGroup(T, a);
    if HasWildcard(T, a) {
      var t :| t in T && t.account == a && t.IsWildcard();
      assert t.Permits(useProjectID, a, p);
    } else {
      SortedMember(Projects(T, a), p);
      SortedMember(Projects(T, a), t0.project);
      assert t0.project in Projects(T, a);
      assert |g.projects| > 0;
      if useProjectID {
        assert g.Permits(useProjectID, a, p) <==> p in Projects(T, a);
        if p in Projects(T, a) {
          var t :| t in T && t.account == a && !t.IsWildcard() && t.project == p;
          assert t.Permits(useProjectID, a, p);
        }
      } else {
        assert t0.Permits(useProjectID, a, p);
      }
    }
  }

  /** Group optimisation preserves access: the groups permit exactly what the tenants permit. */
  lemma {:induction false} GroupsPreserveAccess(T: set<Tenant>, useProjectID: bool, a: string, p: string)
    ensures GroupsPermit(Canonical(T), useProjectID, a, p) <==> TenantsPermit(T, useProjectID, a, p)
  {
    var accounts := SortedList(Accounts(T));
    SortedMember(Accounts(T), a);
    if a in Accounts(T) {
      GroupMeaning(T, a, useProjectID, p);
      var i :| 0 <= i < |accounts| && accounts[i] == a;
      assert Canonical(T)[i] == CanonicalGroup(T, a);
    }
  }

  /** Each account appears once, in strictly sorted order, with strictly increasing projects. */
  lemma {:induction false} CanonicalShape(T: set<Tenant>)
    ensures forall i, j :: 0 <= i < j < |Canonical(T)| ==>
      Below(Canonical(T)[i].account, Canonical(T)[j].account)
    ensures forall i :: 0 <= i < |Canonical(T)| ==>
      var g := Canonical(T)[i];
      && StrictlySorted(g.projects)
      && (g.wildcard <==> g.projects == [])
    ensures Canonical(T) == [] <==> T == {}
  {
    var accounts := SortedList(Accounts(T));
    forall i | 0 <= i < |accounts|
      ensures var g := Canonical(T)[i]; StrictlySorted(g.projects) && (g.wildcard <==> g.projects == [])
    {
      assert accounts[i] in Elements(accounts);
      var t :| t in T && t.account == accounts[i];
      if !HasWildcard(T, accounts[i]) {
        SortedMember(Projects(T, accounts[i]), t.project);
      }
    }
    if T != {} {
      var t :| t in T;
      SortedMember(Accounts(T), t.account);
    }
    if accounts != [] {
      assert accounts[0] in Elements(accounts);
    }
  }

  // ----- the code

  /** deduplicateStrings: the loop over a seen-map. */
  method DeduplicateStrings(input: seq<string>) returns (result: seq<string>)
    ensures result == FirstOccurrences(input)
  {
    var seen: set<string> := {};
    result := [];
    for i := 0 to |input|
      invariant seen == Elements(input[..i]) && result == FirstOccurrences(input[..i])
    {
      assert input[..i + 1] == input[..i] + [input[i]];
      assert input[i] in seen <==> input[i] in input[..i];
      if input[i] !in seen {
        seen := seen + {input[i]};
        result := result + [input[i]];
      }
    }
    assert input[..|input|] == input;
  }

  lemma {:induction false} FirstOccurrencesSorted(s: seq<string>)
    requires SortedBy(s, (x: string) => x)
    ensures StrictlySorted(FirstOccurrences(s))
  {
    if s != [] {
      var rest, x := s[..|s| - 1], s[|s| - 1];
      FirstOccurrencesSorted(rest);
      var r := FirstOccurrences(rest);
      if x !in rest {
        forall k | 0 <= k < |r|
          ensures Below(r[k], x)
        {
          assert r[k] in Elements(r);
          var i :| 0 <= i < |rest| && rest[i] == r[k];
          assert Leq(s[i], s[|s| - 1]);
        }
      }
    }
  }

  /** Sorting and removing repetitions yields the sorted list of the set of elements. */
  lemma {:induction false} SortThenDeduplicate(s: seq<string>)
    ensures FirstOccurrences(Sort(s, (x: string) => x)) == SortedList(Elements(s))
  {
    var sorted := Sort(s, (x: string) => x);
    SortSorts(s, (x: string) => x);
    FirstOccurrencesSorted(sorted);
    assert Elements(sorted) == Elements(s) by {
      assert forall x :: x in sorted <==> x in multiset(sorted);
      assert forall x :: x in s <==> x in multiset(s);
    }
    SortedUnique(FirstOccurrences(sorted), SortedList(Elements(s)));
  }

  /** The projects listed per account and the wildcard accounts, as the first loop builds them. */
  ghost predicate Collected(T: set<Tenant>, listed: map<string, seq<string>>, wild: set<string>) {
    && (forall a :: a in wild <==> HasWildcard(T, a))
    && (forall a :: a in listed ==> a in Accounts(T))
    && (forall a :: a in Accounts(T) && a !in wild ==>
      a in listed && Elements(listed[a]) == Projects(T, a))
  }

  /** Distinct accounts, each with its canonical group. */
  ghost predicate Gathered(T: set<Tenant>, groups: seq<Group>) {
    && (forall i :: 0 <= i < |groups| ==>
      groups[i].account in Accounts(T) && groups[i] == CanonicalGroup(T, groups[i].account))
    && (forall i, j :: 0 <= i < j < |groups| ==> groups[i].account != groups[j].account)
  }

  ghost function AccountsOf(groups: seq<Group>): set<string> {
    set i | 0 <= i < |groups| :: groups[i].account
  }

  /** optimizeGroups. The two loops over Go maps visit their keys in arbitrary order. */
  method OptimizeGroups(tenants: seq<Tenant>) returns (groups: seq<Group>)
    ensures groups == Canonical(Elements(tenants))
  {
    var listed, wild := CollectTenants(tenants);
    ghost var T := Elements(tenants);
    groups := [];
    var left := wild;
    while left != {}
      invariant left <= wild && Gathered(T, groups) && AccountsOf(groups) == wild - left
    {
      var a :| a in left;
      Append(T, groups, Group(a, [], true));
      groups := groups + [Group(a, [], true)];
      left := left - {a};
    }
    left := listed.Keys;
    while left != {}
      invariant left <= listed.Keys && Gathered(T, groups)
      invariant AccountsOf(groups) == wild + (listed.Keys - left - wild)
    {
      var a :| a in left;
      if a !in wild {
        var projects := Sort(listed[a], (x: string) => x);
        SortThenDeduplicate(listed[a]);
        projects := DeduplicateStrings(projects);
        Append(T, groups, Group(a, projects, false));
        groups := groups + [Group(a, projects, false)];
      }
      left := left - {a};
    }
    assert AccountsOf(groups) == Accounts(T);
    SortGathered(T, groups);
    groups := Sort(groups, (g: Group) => g.account);
  }

  method CollectTenants(tenants: seq<Tenant>) returns (listed: map<string, seq<string>>, wild: set<string>)
    ensures Collected(Elements(tenants), listed, wild)
    ensures wild <= Accounts(Elements(tenants))
  {
    listed, wild := map[], {};
    for i := 0 to |tenants|
      invariant Collected(Elements(tenants[..i]), listed, wild)
    {
      var t := tenants[i];
      assert tenants[..i + 1] == tenants[..i] + [t];
      assert Elements(tenants[..i + 1]) == Elements(tenants[..i]) + {t};
      if t.project == ".*" || t.project == "" {
        CollectWildcard(Elements(tenants[..i]), listed, wild, t);
        wild := wild + {t.account};
      } else if t.account in wild {
        CollectCovered(Elements(tenants[..i]), listed, wild, t);
      } else {
        CollectProject(Elements(tenants[..i]), listed, wild, t);
        listed := listed[t.account := (if t.account in listed then listed[t.account] else []) + [t.project]];
      }
    }
    assert tenants[..|tenants|] == tenants;
  }

  lemma AddTenant(T: set<Tenant>, t: Tenant)
    ensures Accounts(T + {t}) == Accounts(T) + {t.account}
    ensures forall a :: HasWildcard(T + {t}, a) <==> HasWildcard(T, a) || (a == t.account && t.IsWildcard())
    ensures forall a ::
      Projects(T + {t}, a) == Projects(T, a) + if a == t.account && !t.IsWildcard() then {t.project} else {}
  {
  }

  /** One iteration of the first loop, on a wildcard. */
  lemma CollectWildcard(T: set<Tenant>, listed: map<string, seq<string>>, wild: set<string>, t: Tenant)
    requires Collected(T, listed, wild) && t.IsWildcard()
    ensures Collected(T + {t}, listed, wild + {t.account})
  {
  }

  /** One iteration of the first loop, on a project that a wildcard already covers. */
  lemma CollectCovered(T: set<Tenant>, listed: map<string, seq<string>>, wild: set<string>, t: Tenant)
    requires Collected(T, listed, wild) && !t.IsWildcard() && t.account in wild
    ensures Collected(T + {t}, listed, wild)
  {
  }

  /** One iteration of the first loop, on any other project. */
  lemma {:induction false} CollectProject(T: set<Tenant>, listed: map<string, seq<string>>, wild: set<string>,
                                          t: Tenant)
    requires Collected(T, listed, wild) && !t.IsWildcard() && t.account !in wild
    ensures Collected(T + {t},
                      listed[t.account := (if t.account in listed then listed[t.account] else []) + [t.project]],
                      wild)
  {
    AddTenant(T, t);
    var before := if t.account in listed then listed[t.account] else [];
    assert Elements(before + [t.project]) == Elements(before) + {t.project};
    if t.account !in Accounts(T) {
      assert Projects(T, t.account) == {};
    }
  }

  lemma {:induction false} Append(T: set<Tenant>, groups: seq<Group>, g: Group)
    requires Gathered(T, groups) && g.account !in AccountsOf(groups)
    requires g.account in Accounts(T) && g == CanonicalGroup(T, g.account)
    ensures Gathered(T, groups + [g])
    ensures AccountsOf(groups + [g]) == AccountsOf(groups) + {g.account}
  {
    forall i | 0 <= i < |groups|
      ensures groups[i].account != g.account
    {
      assert groups[i].account in AccountsOf(groups);
    }
    var gs := groups + [g];
    assert forall i :: 0 <= i < |groups| ==> gs[i] == groups[i];
    assert gs[|groups|] == g;
  }

  /** Whatever order the groups were gathered in, sorting them yields the canonical list. */
  lemma {:induction false} SortGathered(T: set<Tenant>, groups: seq<Group>)
    requires Gathered(T, groups) && AccountsOf(groups) == Accounts(T)
    ensures Sort(groups, (g: Group) => g.account) == Canonical(T)
  {
    var r := Sort(groups, (g: Group) => g.account);
    SortSorts(groups, (g: Group) => g.account);
    PermutationGathered(T, groups, r);
    SortedIsCanonical(T, r);
  }

  lemma {:induction false} PermutationGathered(T: set<Tenant>, groups: seq<Group>, r: seq<Group>)
    requires Gathered(T, groups) && multiset(r) == multiset(groups)
    ensures Gathered(T, r) && AccountsOf(r) == AccountsOf(groups)
  {
    PermutationDistinct(groups, r);
    forall g
      ensures g in r <==> g in groups
    {
      assert g in r <==> g in multiset(r);
      assert g in groups <==> g in multiset(groups);
    }
    forall i | 0 <= i < |r|
      ensures r[i].account in Accounts(T) && r[i] == CanonicalGroup(T, r[i].account)
    {
      assert r[i] in groups;
    }
    forall a
      ensures a in AccountsOf(r) <==> a in AccountsOf(groups)
    {
      if a in AccountsOf(r) {
        var i :| 0 <= i < |r| && r[i].account == a;
        assert r[i] in groups;
      }
      if a in AccountsOf(groups) {
        var i :| 0 <= i < |groups| && groups[i].account == a;
        assert groups[i] in r;
      }
    }
  }

  lemma {:induction false} SortedIsCanonical(T: set<Tenant>, r: seq<Group>)
    requires Gathered(T, r) && AccountsOf(r) == Accounts(T)
    requires SortedBy(r, (g: Group) => g.account)
    ensures r == Canonical(T)
  {
    var key := (g: Group) => g.account;
    var names := seq(|r|, i requires 0 <= i < |r| => r[i].account);
    forall i, j | 0 <= i < j < |names|
      ensures Below(names[i], names[j])
    {
      assert Leq(key(r[i]), key(r[j]));
    }
    assert Elements(names) == AccountsOf(r) by {
      assert forall i :: 0 <= i < |r| ==> names[i] == r[i].account;
    }
    SortedUnique(names, SortedList(Accounts(T)));
  }
}
