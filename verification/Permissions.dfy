/** From a user's groups to their tenants (internal/services/auth/service.go), and on to what
    their rewritten queries can read. */
module Permissions {
  import opened Lists
  import opened TenantGroups
  import opened PromQL
  import opened TenantIsolation
  import opened Regexp

  datatype Mapping = Mapping(groups: seq<string>, tenants: seq<Tenant>, permissions: seq<string>)

  // ----- tenant identifiers

  /** VMTenant.String. */
  function TenantString(t: Tenant): string {
    if t.project != "" then t.account + ":" + t.project else t.account
  }

  /** The account of t goes on where the account of u ends, and u spells the rest as its project. */
  predicate Covers(t: Tenant, u: Tenant) {
    && u.project != ""
    && u.account + ":" <= t.account
    && u.project == t.account[|u.account| + 1..] + if t.project != "" then ":" + t.project else ""
  }

  lemma {:induction false} CoveredShares(t: Tenant, u: Tenant)
    requires Covers(t, u)
    ensures TenantString(t) == TenantString(u) && t.account != u.account
  {
    assert t.account == u.account + ":" + t.account[|u.account| + 1..];
  }

  lemma {:induction false} SharersCover(t: Tenant, u: Tenant)
    requires TenantString(t) == TenantString(u) && |t.account| > |u.account|
    ensures Covers(t, u)
  {
    var s, n := TenantString(t), |u.account|;
    assert t.account == s[..|t.account|];
    assert s == u.account + ":" + u.project;
    assert s[n + 1..] == u.project;
    assert s[n + 1..] == t.account[n + 1..] + if t.project != "" then ":" + t.project else "";
  }

  /** Exactly when two tenants have one identifier. */
  lemma {:induction false} TenantStringIff(t: Tenant, u: Tenant)
    ensures TenantString(t) == TenantString(u) <==> t == u || Covers(t, u) || Covers(u, t)
  {
    if Covers(t, u) {
      CoveredShares(t, u);
    } else if Covers(u, t) {
      CoveredShares(u, t);
    } else if TenantString(t) == TenantString(u) {
      if |t.account| > |u.account| {
        SharersCover(t, u);
      } else if |t.account| < |u.account| {
        SharersCover(u, t);
      } else {
        var s, n := TenantString(t), |t.account|;
        assert t.account == s[..n] == u.account;
        assert t.project != "" ==> t.project == s[n + 1..];
        assert u.project != "" ==> u.project == s[n + 1..];
      }
    }
  }

  /** No listed tenant covers another. */
  ghost predicate Unambiguous(ts: seq<Tenant>) {
    forall t, u :: t in ts && u in ts ==> !Covers(t, u)
  }

  /** Account IDs without colons are enough. */
  lemma {:induction false} ColonFreeUnambiguous(ts: seq<Tenant>)
    requires forall t :: t in ts ==> ':' !in t.account
    ensures Unambiguous(ts)
  {
    forall t, u | t in ts && u in ts
      ensures !Covers(t, u)
    {
      CoversColon(t, u);
    }
  }

  lemma {:induction false} CoversColon(t: Tenant, u: Tenant)
    ensures Covers(t, u) ==> ':' in t.account
  {
    if Covers(t, u) {
      assert t.account[|u.account|] == (u.account + ":")[|u.account|];
    }
  }

  // ----- the code

  function Strings(ts: seq<Tenant>): set<string> {
    set t | t in ts :: TenantString(t)
  }

  /** The list with every tenant dropped whose identifier occurred before. */
  function FirstByString(ts: seq<Tenant>): seq<Tenant> {
    if ts == [] then [] else
      var rest, t := ts[..|ts| - 1], ts[|ts| - 1];
      if TenantString(t) in Strings(rest) then FirstByString(rest) else FirstByString(rest) + [t]
  }

  method RemoveDuplicateVMTenants(ts: seq<Tenant>) returns (r: seq<Tenant>)
    ensures r == FirstByString(ts)
  {
    var keys: set<string> := {};
    r := [];
    for i := 0 to |ts|
      invariant keys == Strings(ts[..i]) && r == FirstByString(ts[..i])
    {
      assert ts[..i + 1][..i] == ts[..i];
      assert Strings(ts[..i + 1]) == Strings(ts[..i]) + {TenantString(ts[i])} by {
        assert ts[..i + 1] == ts[..i] + [ts[i]];
      }
      var key := TenantString(ts[i]);
      if key !in keys {
        keys := keys + {key};
        r := r + [ts[i]];
      }
    }
    assert ts[..|ts|] == ts;
  }

  ghost predicate HasMatch(userGroups: seq<string>, required: seq<string>) {
    exists i :: 0 <= i < |userGroups| && userGroups[i] in required
  }

  method HasGroupMatch(userGroups: seq<string>, required: seq<string>) returns (b: bool)
    ensures b == HasMatch(userGroups, required)
    ensures b <==> exists g :: g in userGroups && g in required
  {
    for i := 0 to |userGroups|
      invariant forall j :: 0 <= j < i ==> userGroups[j] !in required
    {
      if userGroups[i] in required {
        return true;
      }
    }
    return false;
  }

  /** All tenants of the mappings that match the user's groups, in configuration order. */
  ghost function MatchedTenants(maps: seq<Mapping>, userGroups: seq<string>): seq<Tenant> {
    if maps == [] then [] else
      var rest, m := maps[..|maps| - 1], maps[|maps| - 1];
      MatchedTenants(rest, userGroups) + if HasMatch(userGroups, m.groups) then m.tenants else []
  }

  /** Some mapping that lists a group of the user lists the tenant. */
  ghost predicate Granted(maps: seq<Mapping>, userGroups: seq<string>, t: Tenant) {
    exists m, g :: m in maps && g in userGroups && g in m.groups && t in m.tenants
  }

  method DetermineUserPermissions(maps: seq<Mapping>, userGroups: seq<string>)
    returns (tenants: seq<Tenant>, readOnly: bool)
    ensures tenants == FirstByString(MatchedTenants(maps, userGroups))
    ensures readOnly <==>
      exists m, g :: m in maps && g in userGroups && g in m.groups && "write" !in m.permissions
  {
    tenants, readOnly := [], false;
    for i := 0 to |maps|
      invariant tenants == MatchedTenants(maps[..i], userGroups)
      invariant readOnly <==>
        exists m, g :: m in maps[..i] && g in userGroups && g in m.groups && "write" !in m.permissions
    {
      assert maps[..i + 1][..i] == maps[..i];
      assert maps[..i + 1] == maps[..i] + [maps[i]];
      var matched := HasGroupMatch(userGroups, maps[i].groups);
      if matched {
        tenants := tenants + maps[i].tenants;
        if "write" !in maps[i].permissions {
          readOnly := true;
        }
      }
    }
    assert maps[..|maps|] == maps;
    tenants := RemoveDuplicateVMTenants(tenants);
  }

  // ----- what the user ends up with

  lemma {:induction false} MatchedAreGranted(maps: seq<Mapping>, userGroups: seq<string>, t: Tenant)
    ensures t in MatchedTenants(maps, userGroups) <==> Granted(maps, userGroups, t)
  {
    if maps != [] {
      var k := |maps| - 1;
      var rest := maps[..k];
      MatchedAreGranted(rest, userGroups, t);
      assert maps == rest + [maps[k]];
      assert HasMatch(userGroups, maps[k].groups) <==> exists g :: g in userGroups && g in maps[k].groups;
    }
  }

  /** Deduplication never invents a tenant, and keeps every identifier. */
  lemma {:induction false} DeduplicationKeeps(ts: seq<Tenant>)
    ensures forall t :: t in FirstByString(ts) ==> t in ts
    ensures Strings(FirstByString(ts)) == Strings(ts)
  {
    if ts != [] {
      var rest, t := ts[..|ts| - 1], ts[|ts| - 1];
      assert ts == rest + [t];
      DeduplicationKeeps(rest);
      assert Strings(ts) == Strings(rest) + {TenantString(t)};
      var r := FirstByString(rest);
      assert Strings(r + [t]) == Strings(r) + {TenantString(t)};
    }
  }

  lemma {:induction false} UnambiguousDeduplication(ts: seq<Tenant>)
    requires Unambiguous(ts)
    ensures FirstByString(ts) == FirstOccurrences(ts)
  {
    if ts != [] {
      var rest, t := ts[..|ts| - 1], ts[|ts| - 1];
      assert ts == rest + [t];
      UnambiguousDeduplication(rest);
      forall u | u in rest
        ensures TenantString(u) == TenantString(t) <==> u == t
      {
        TenantStringIff(u, t);
      }
      assert TenantString(t) in Strings(rest) <==> t in rest;
    }
  }

  ghost predicate DistinctIdentifiers(r: seq<Tenant>) {
    forall i, j :: 0 <= i < j < |r| ==> TenantString(r[i]) != TenantString(r[j])
  }

  lemma {:induction false} IdentifiersDiffer(ts: seq<Tenant>)
    ensures DistinctIdentifiers(FirstByString(ts))
  {
    if ts != [] {
      var rest := ts[..|ts| - 1];
      IdentifiersDiffer(rest);
      DeduplicationKeeps(rest);
      var r := FirstByString(rest);
      assert forall i :: 0 <= i < |r| ==> TenantString(r[i]) in Strings(r);
    }
  }

  lemma {:induction false} SameIdentifier(r: seq<Tenant>, t: Tenant, u: Tenant)
    requires DistinctIdentifiers(r) && TenantString(t) == TenantString(u)
    ensures t in r && u in r ==> t == u
  {
    if t in r && u in r {
      var i :| 0 <= i < |r| && r[i] == t;
      var j :| 0 <= j < |r| && r[j] == u;
      assert i == j;
    }
  }

  /** Exactly when the user's tenants are the first occurrences of the tenants of all matching
      mappings, so that none is lost: no listed tenant covers another. */
  lemma {:induction false} DeduplicationExact(ts: seq<Tenant>)
    ensures FirstByString(ts) == FirstOccurrences(ts) <==> Unambiguous(ts)
  {
    if Unambiguous(ts) {
      UnambiguousDeduplication(ts);
    } else {
      var t, u :| t in ts && u in ts && Covers(t, u);
      var r := FirstByString(ts);
      CoveredShares(t, u);
      IdentifiersDiffer(ts);
      SameIdentifier(r, t, u);
      assert t in Elements(ts) && u in Elements(ts) && t.account != u.account;
      assert t in Elements(r) <==> t in r;
      assert u in Elements(r) <==> u in r;
    }
  }

  /** The pairs a user may read: those that a tenant of some matching mapping permits. */
  ghost predicate MayRead(maps: seq<Mapping>, userGroups: seq<string>, useProjectID: bool, a: string, p: string) {
    exists t :: Granted(maps, userGroups, t) && t.Permits(useProjectID, a, p)
  }

  /** Permission mapping end to end: unless granted tenants cover one another, the groups built
      from a user's tenants permit exactly the union of what the matching mappings grant. */
  lemma {:induction false} GroupsPermitUnion(maps: seq<Mapping>, userGroups: seq<string>, useProjectID: bool,
                                             a: string, p: string)
    requires Unambiguous(MatchedTenants(maps, userGroups))
    ensures
      var T := Elements(FirstByString(MatchedTenants(maps, userGroups)));
      GroupsPermit(Canonical(T), useProjectID, a, p) <==> MayRead(maps, userGroups, useProjectID, a, p)
  {
    var ts := MatchedTenants(maps, userGroups);
    var T := Elements(FirstByString(ts));
    DeduplicationExact(ts);
    GroupsPreserveAccess(T, useProjectID, a, p);
    forall t
      ensures t in T <==> Granted(maps, userGroups, t)
    {
      MatchedAreGranted(maps, userGroups, t);
      assert t in T <==> t in Elements(ts);
    }
  }

  /** A kept tenant grants all that t grants. */
  ghost predicate Subsumed(T: set<Tenant>, useProjectID: bool, t: Tenant) {
    exists u :: u in T && u.account == t.account
      && (useProjectID ==> u.IsWildcard() || (!t.IsWildcard() && u.project == t.project))
  }

  lemma {:induction false} LongerThanAll(T: set<Tenant>) returns (p: string)
    ensures forall t :: t in T ==> |t.project| < |p|
  {
    if T == {} {
      p := "";
    } else {
      var t :| t in T;
      var q := LongerThanAll(T - {t});
      p := q + t.project + ".";
      assert forall u :: u in T && u != t ==> u in T - {t};
    }
  }

  lemma {:induction false} PermittedSubsumes(T: set<Tenant>, useProjectID: bool, t: Tenant)
    requires forall p :: t.Permits(useProjectID, t.account, p) ==> TenantsPermit(T, useProjectID, t.account, p)
    ensures Subsumed(T, useProjectID, t)
  {
    var longer := LongerThanAll(T);
    var p := if t.IsWildcard() then longer else t.project;
    assert t.Permits(useProjectID, t.account, p);
    var u :| u in T && u.Permits(useProjectID, t.account, p);
  }

  /** Exactly when a user can read all that the matching mappings grant, and no more: every
      granted tenant that deduplication drops is subsumed by one it keeps. */
  lemma {:induction false} UnionIff(maps: seq<Mapping>, userGroups: seq<string>, useProjectID: bool)
    ensures
      var T := Elements(FirstByString(MatchedTenants(maps, userGroups)));
      (forall a, p :: GroupsPermit(Canonical(T), useProjectID, a, p) <==> MayRead(maps, userGroups, useProjectID, a, p))
      <==> forall t :: Granted(maps, userGroups, t) ==> Subsumed(T, useProjectID, t)
  {
    var ts := MatchedTenants(maps, userGroups);
    var T := Elements(FirstByString(ts));
    DeduplicationKeeps(ts);
    forall t | t in T
      ensures Granted(maps, userGroups, t)
    {
      MatchedAreGranted(maps, userGroups, t);
    }
    forall a, p
      ensures GroupsPermit(Canonical(T), useProjectID, a, p) <==> TenantsPermit(T, useProjectID, a, p)
    {
      GroupsPreserveAccess(T, useProjectID, a, p);
    }
    if forall a, p ::
      GroupsPermit(Canonical(T), useProjectID, a, p) <==> MayRead(maps, userGroups, useProjectID, a, p)
    {
      forall t | Granted(maps, userGroups, t)
        ensures Subsumed(T, useProjectID, t)
      {
        assert forall p :: t.Permits(useProjectID, t.account, p) ==>
          MayRead(maps, userGroups, useProjectID, t.account, p);
        PermittedSubsumes(T, useProjectID, t);
      }
    }
  }

  /** When one tenant covers another, the one that a mapping lists second is lost: its user may
      not read what the mapping grants. */
  lemma {:induction false} AccessLost(g: string, permissions: seq<string>, t: Tenant, u: Tenant, useProjectID: bool)
    requires Covers(t, u) || Covers(u, t)
    ensures
      var maps := [Mapping([g], [t, u], permissions)];
      var T := Elements(FirstByString(MatchedTenants(maps, [g])));
      && MayRead(maps, [g], useProjectID, u.account, u.project)
      && !GroupsPermit(Canonical(T), useProjectID, u.account, u.project)
  {
    var maps, ts := [Mapping([g], [t, u], permissions)], [t, u];
    assert t.account != u.account && TenantString(t) == TenantString(u) by {
      if Covers(t, u) { CoveredShares(t, u); } else { CoveredShares(u, t); }
    }
    assert [g][0] in maps[0].groups;
    assert MatchedTenants(maps, [g]) == ts by {
      assert maps[..0] == [];
    }
    SecondDropped(ts);
    assert Granted(maps, [g], u) by { assert u in maps[0].tenants; }
    GroupsPreserveAccess(Elements([t]), useProjectID, u.account, u.project);
  }

  lemma {:induction false} SecondDropped(ts: seq<Tenant>)
    requires |ts| == 2 && TenantString(ts[0]) == TenantString(ts[1])
    ensures FirstByString(ts) == [ts[0]]
  {
    var one := ts[..1];
    assert one == [ts[0]] && one[..0] == [];
    assert FirstByString(one) == [ts[0]];
    assert one[0] in one && TenantString(one[0]) in Strings(one);
  }

  /** A tenant whose account ID holds a colon, and one it covers. */
  lemma TenantStringClash()
    ensures Covers(Tenant("a:b", ""), Tenant("a", "b"))
    ensures TenantString(Tenant("a:b", "")) == TenantString(Tenant("a", "b"))
  {
  }

  /** Isolation end to end, for any account IDs and for project IDs without metacharacters:
      databases that agree on what the user's matching mappings grant give the user's rewritten
      query the same value. */
  lemma {:induction false} UserIsolation<V>(maps: seq<Mapping>, userGroups: seq<string>, sem: Semantics<V>,
                                            e: Expr<Selector>,
                         cfg: LabelConfig, db: set<Series>, db': set<Series>)
    requires IsEngine(sem.regex) && PlainProjects(Elements(MatchedTenants(maps, userGroups)))
    requires var T := Elements(FirstByString(MatchedTenants(maps, userGroups)));
      T != {} && Confined(sem.regex, e, T, cfg)
    requires forall s :: Readable(maps, userGroups, cfg, s) ==> (s in db <==> s in db')
    ensures Canonical(Elements(FirstByString(MatchedTenants(maps, userGroups)))) != []
    ensures
      var T := Elements(FirstByString(MatchedTenants(maps, userGroups)));
      Eval(sem, Rewritten(e, Canonical(T), cfg), db) == Eval(sem, Rewritten(e, Canonical(T), cfg), db')
  {
    var ts := MatchedTenants(maps, userGroups);
    var T := Elements(FirstByString(ts));
    DeduplicationKeeps(ts);
    PlainReadsAll(sem.regex, T);
    forall s | s in PermittedPart(db, T, cfg) || s in PermittedPart(db', T, cfg)
      ensures Readable(maps, userGroups, cfg, s)
    {
      var t :| t in T && Grants(t, cfg, s.labels);
      MatchedAreGranted(maps, userGroups, t);
    }
    QueryDependence(sem, e, T, cfg, db, db');
  }

  /** A tenant that a matching mapping lists grants access to the series. */
  ghost predicate Readable(maps: seq<Mapping>, userGroups: seq<string>, cfg: LabelConfig, s: Series) {
    exists t :: Granted(maps, userGroups, t) && Grants(t, cfg, s.labels)
  }
}
