/** What the rewritten query means: it is the original query over the permitted series. */
module TenantIsolation {
  import opened Lists
  import opened TenantGroups
  import opened PromQL
  import opened Regexp

  predicate SeriesPermitted(g: Group, cfg: LabelConfig, labels: Labels) {
    g.Permits(cfg.useProjectID, Label(labels, cfg.AccountLabel()), Label(labels, cfg.ProjectLabel()))
  }

  /** The series of a database that a group permits. */
  function Restrict(db: set<Series>, g: Group, cfg: LabelConfig): set<Series> {
    set s | s in db && SeriesPermitted(g, cfg, s.labels)
  }

  /** A tenant grants access to series with these labels: the configured account label carries
      its account and, when projects are in use, the configured project label carries its
      project unless it names all of them. */
  predicate Grants(t: Tenant, cfg: LabelConfig, labels: Labels) {
    && Carries(labels, if cfg.account == "" then "vm_account_id" else cfg.account, t.account)
    && (cfg.useProjectID ==>
      || t.project == "" || t.project == ".*"
      || Carries(labels, if cfg.project == "" then "vm_project_id" else cfg.project, t.project))
  }

  ghost predicate LabelsPermitted(T: set<Tenant>, cfg: LabelConfig, labels: Labels) {
    exists t :: t in T && Grants(t, cfg, labels)
  }

  lemma GrantsIsPermits(t: Tenant, cfg: LabelConfig, labels: Labels)
    ensures Grants(t, cfg, labels) <==>
      t.Permits(cfg.useProjectID, Label(labels, cfg.AccountLabel()), Label(labels, cfg.ProjectLabel()))
  {
  }

  lemma {:induction false} PermittedByTenants(T: set<Tenant>, cfg: LabelConfig, labels: Labels)
    ensures LabelsPermitted(T, cfg, labels) <==>
      TenantsPermit(T, cfg.useProjectID, Label(labels, cfg.AccountLabel()), Label(labels, cfg.ProjectLabel()))
  {
    forall t
      ensures Grants(t, cfg, labels) <==>
        t.Permits(cfg.useProjectID, Label(labels, cfg.AccountLabel()), Label(labels, cfg.ProjectLabel()))
    {
      GrantsIsPermits(t, cfg, labels);
    }
  }

  /** The series of a database that some tenant permits. */
  ghost function PermittedPart(db: set<Series>, T: set<Tenant>, cfg: LabelConfig): set<Series> {
    set s | s in db && LabelsPermitted(T, cfg, s.labels)
  }

  /** The regular-expression engine reads the alternation of these project IDs as literals. */
  ghost predicate ReadsLiterally(regex: (string, string) -> bool, ps: seq<string>) {
    |ps| >= 2 ==> forall v :: regex(Pattern(ps), v) <==> v in ps
  }

  ghost predicate ReadsAllLiterally(regex: (string, string) -> bool, groups: seq<Group>) {
    forall i :: 0 <= i < |groups| ==> ReadsLiterally(regex, groups[i].projects)
  }

  ghost predicate NoTenantLabel(e: Expr<Selector>, labelName: string) {
    forall s :: s in Leaves(e) ==> !Names(s.matchers, labelName)
  }

  /** Selectors that name the tenant label themselves, and so are left alone by injection, match
      permitted series only. */
  ghost predicate Confined(regex: (string, string) -> bool, e: Expr<Selector>, T: set<Tenant>, cfg: LabelConfig) {
    forall s, labels :: s in Leaves(e) && Names(s.matchers, cfg.AccountLabel()) && Matches(regex, s.matchers, labels)
      ==> LabelsPermitted(T, cfg, labels)
  }

  // ----- one group

  /** The injected matchers accept exactly the series of the group. */
  lemma {:induction false} InjectedMatches(regex: (string, string) -> bool, ms: seq<Matcher>, g: Group,
                                           cfg: LabelConfig, labels: Labels)
    requires !Names(ms, cfg.AccountLabel()) && ReadsLiterally(regex, g.projects)
    ensures Matches(regex, InjectGroup(ms, g, cfg), labels)
            <==> Matches(regex, ms, labels) && SeriesPermitted(g, cfg, labels)
  {
    var account := Matcher(MatchEqual, cfg.AccountLabel(), g.account);
    MatchesAppend(regex, ms, account, labels);
    if g.FiltersProject(cfg.useProjectID) {
      MatchesAppend(regex, ms + [account], ProjectMatcher(g.projects, cfg.ProjectLabel()), labels);
    }
  }

  /** The same over the configuration's own fields: the account label, `vm_account_id` unless
      configured, must carry the group's account; the project label, `vm_project_id` unless
      configured, one of its projects when these are filtered. */
  lemma {:induction false} InjectedByFields(regex: (string, string) -> bool, ms: seq<Matcher>, g: Group,
                                            cfg: LabelConfig, labels: Labels)
    requires !Names(ms, if cfg.account == "" then "vm_account_id" else cfg.account)
    requires ReadsLiterally(regex, g.projects)
    ensures Matches(regex, InjectGroup(ms, g, cfg), labels) <==>
      && Matches(regex, ms, labels)
      && Carries(labels, if cfg.account == "" then "vm_account_id" else cfg.account, g.account)
      && (cfg.useProjectID && !g.wildcard && g.projects != [] ==>
        exists p :: p in g.projects
          && Carries(labels, if cfg.project == "" then "vm_project_id" else cfg.project, p))
  {
    InjectedMatches(regex, ms, g, cfg, labels);
    var project := Label(labels, cfg.ProjectLabel());
    assert Carries(labels, cfg.ProjectLabel(), project);
  }

  /** And for the single-tenant injector. */
  lemma {:induction false} SingleByFields(regex: (string, string) -> bool, ms: seq<Matcher>, t: Tenant,
                                          cfg: LabelConfig, labels: Labels)
    requires !Names(ms, if cfg.account == "" then "vm_account_id" else cfg.account)
    ensures Matches(regex, InjectTenant(ms, t, cfg), labels) <==> Matches(regex, ms, labels) && Grants(t, cfg, labels)
  {
    var account := Matcher(MatchEqual, cfg.AccountLabel(), t.account);
    MatchesAppend(regex, ms, account, labels);
    MatchesAppend(regex, ms + [account], Matcher(MatchEqual, cfg.ProjectLabel(), t.project), labels);
  }

  lemma {:induction false} MatchesAppend(regex: (string, string) -> bool, ms: seq<Matcher>, m: Matcher, labels: Labels)
    ensures Matches(regex, ms + [m], labels) <==> Matches(regex, ms, labels) && Accepts(regex, m, labels)
  {
    var r := ms + [m];
    assert r[|ms|] == m;
    assert forall i :: 0 <= i < |ms| ==> r[i] == ms[i];
  }

  /** What selectors fetch after injection: those that already name the tenant label are left
      alone and read everything, all others read only the group's series. */
  function FetchInjected(regex: (string, string) -> bool, db: set<Series>, g: Group, cfg: LabelConfig)
    : Selector -> set<Series>
  {
    (s: Selector) =>
      Matched(regex, s.matchers, if Names(s.matchers, cfg.AccountLabel()) then db else Restrict(db, g, cfg))
  }

  lemma {:induction false} FetchedByInjected(regex: (string, string) -> bool, s: Selector, g: Group,
                                             cfg: LabelConfig, db: set<Series>)
    requires ReadsLiterally(regex, g.projects)
    ensures Matched(regex, InjectGroup(s.matchers, g, cfg), db) == FetchInjected(regex, db, g, cfg)(s)
  {
    if !Names(s.matchers, cfg.AccountLabel()) {
      forall x | x in db
        ensures Matches(regex, InjectGroup(s.matchers, g, cfg), x.labels)
                <==> Matches(regex, s.matchers, x.labels) && SeriesPermitted(g, cfg, x.labels)
      {
        InjectedMatches(regex, s.matchers, g, cfg, x.labels);
      }
    }
  }

  /** The meaning of injection, for every expression whatsoever. */
  lemma {:induction false} InjectionReads<V>(sem: Semantics<V>, e: Expr<Selector>, g: Group, cfg: LabelConfig,
                                             db: set<Series>)
    requires ReadsLiterally(sem.regex, g.projects)
    ensures Eval(sem, Inject(e, g, cfg), db) == EvalWith(sem, e, FetchInjected(sem.regex, db, g, cfg))
  {
    var f := (s: Selector) => s.(matchers := InjectGroup(s.matchers, g, cfg));
    forall s | s in Leaves(e)
      ensures Fetch(sem.regex, db)(f(s)) == FetchInjected(sem.regex, db, g, cfg)(s)
    {
      FetchedByInjected(sem.regex, s, g, cfg, db);
    }
    EvalMapped(sem, e, f, Fetch(sem.regex, db), FetchInjected(sem.regex, db, g, cfg));
  }

  lemma {:induction false} EvalAgrees<V>(sem: Semantics<V>, e: Expr<Selector>,
                                         read: Selector -> set<Series>, read': Selector -> set<Series>)
    requires forall s :: s in Leaves(e) ==> read(s) == read'(s)
    ensures EvalWith(sem, e, read) == EvalWith(sem, e, read')
  {
    match e
    case Node(op, children) =>
      forall i | 0 <= i < |children|
        ensures EvalWith(sem, children[i], read) == EvalWith(sem, children[i], read')
      {
        assert forall s :: s in Leaves(children[i]) ==> s in Leaves(e);
        EvalAgrees(sem, children[i], read, read');
      }
      assert seq(|children|, i requires 0 <= i < |children| => EvalWith(sem, children[i], read))
          == seq(|children|, i requires 0 <= i < |children| => EvalWith(sem, children[i], read'));
    case _ =>
  }

  /** Meaning of injection: evaluating the injected expression equals evaluating the original
      on the database restricted to the group's series. */
  lemma {:induction false} InjectionMeaning<V>(sem: Semantics<V>, e: Expr<Selector>, g: Group, cfg: LabelConfig,
                                               db: set<Series>)
    requires NoTenantLabel(e, cfg.AccountLabel()) && ReadsLiterally(sem.regex, g.projects)
    ensures Eval(sem, Inject(e, g, cfg), db) == Eval(sem, e, Restrict(db, g, cfg))
  {
    InjectionReads(sem, e, g, cfg, db);
    EvalAgrees(sem, e, FetchInjected(sem.regex, db, g, cfg), Fetch(sem.regex, Restrict(db, g, cfg)));
  }

  // ----- the whole query

  /** A group of the tenants sees only permitted series. */
  lemma {:induction false} GroupSeesPermitted(db: set<Series>, T: set<Tenant>, i: nat, cfg: LabelConfig)
    requires i < |Canonical(T)|
    ensures Restrict(db, Canonical(T)[i], cfg) == Restrict(PermittedPart(db, T, cfg), Canonical(T)[i], cfg)
  {
    forall s | s in Restrict(db, Canonical(T)[i], cfg)
      ensures s in PermittedPart(db, T, cfg)
    {
      var a, p := Label(s.labels, cfg.AccountLabel()), Label(s.labels, cfg.ProjectLabel());
      PermittedByTenants(T, cfg, s.labels);
      assert GroupsPermit(Canonical(T), cfg.useProjectID, a, p);
      GroupsPreserveAccess(T, cfg.useProjectID, a, p);
    }
  }

  lemma {:induction false} OrTreeAgrees<V>(sem: Semantics<V>, es: seq<Expr<Selector>>, db: set<Series>,
                                           db': set<Series>)
    requires es != [] && forall i :: 0 <= i < |es| ==> Eval(sem, es[i], db) == Eval(sem, es[i], db')
    ensures Eval(sem, OrTree(es), db) == Eval(sem, OrTree(es), db')
  {
    var k := |es| - 1;
    if k > 0 {
      OrTreeAgrees(sem, es[..k], db, db');
      EvalOr(sem, OrTree(es[..k]), es[k], db);
      EvalOr(sem, OrTree(es[..k]), es[k], db');
    }
  }

  lemma {:induction false} EvalOr<V>(sem: Semantics<V>, l: Expr<Selector>, r: Expr<Selector>, db: set<Series>)
    ensures Eval(sem, Node(Or, [l, r]), db) == sem.apply(Or, [Eval(sem, l, db), Eval(sem, r, db)])
  {
    var read := Fetch(sem.regex, db);
    var cs := [l, r];
    assert seq(|cs|, i requires 0 <= i < |cs| => EvalWith(sem, cs[i], read))
        == [EvalWith(sem, l, read), EvalWith(sem, r, read)];
  }

  /** The value of the rewritten query depends on the permitted series alone. */
  ghost predicate Isolates<V(!new)>(sem: Semantics<V>, e: Expr<Selector>, T: set<Tenant>, cfg: LabelConfig)
    requires Canonical(T) != []
  {
    forall db, db' :: PermittedPart(db, T, cfg) == PermittedPart(db', T, cfg) ==>
      Eval(sem, Rewritten(e, Canonical(T), cfg), db) == Eval(sem, Rewritten(e, Canonical(T), cfg), db')
  }

  lemma {:induction false} ReadsPermitted(regex: (string, string) -> bool, e: Expr<Selector>, T: set<Tenant>, i: nat,
                                          cfg: LabelConfig, db: set<Series>, db': set<Series>, s: Selector)
    requires i < |Canonical(T)| && Confined(regex, e, T, cfg) && s in Leaves(e)
    requires PermittedPart(db, T, cfg) == PermittedPart(db', T, cfg)
    ensures FetchInjected(regex, db, Canonical(T)[i], cfg)(s) == FetchInjected(regex, db', Canonical(T)[i], cfg)(s)
  {
    if Names(s.matchers, cfg.AccountLabel()) {
      assert Matched(regex, s.matchers, db) == Matched(regex, s.matchers, PermittedPart(db, T, cfg));
      assert Matched(regex, s.matchers, db') == Matched(regex, s.matchers, PermittedPart(db', T, cfg));
    } else {
      GroupSeesPermitted(db, T, i, cfg);
      GroupSeesPermitted(db', T, i, cfg);
    }
  }

  /** Whole-query dependence: databases that agree on the permitted series give the rewritten
      query the same value, whatever the operators and functions mean. */
  lemma {:induction false} QueryDependence<V>(sem: Semantics<V>, e: Expr<Selector>, T: set<Tenant>, cfg: LabelConfig,
                           db: set<Series>, db': set<Series>)
    requires T != {} && Confined(sem.regex, e, T, cfg)
    requires ReadsAllLiterally(sem.regex, Canonical(T))
    requires PermittedPart(db, T, cfg) == PermittedPart(db', T, cfg)
    ensures Canonical(T) != []
    ensures Eval(sem, Rewritten(e, Canonical(T), cfg), db) == Eval(sem, Rewritten(e, Canonical(T), cfg), db')
  {
    CanonicalShape(T);
    var groups := Canonical(T);
    var es := Disjuncts(e, groups, cfg);
    forall i | 0 <= i < |es|
      ensures Eval(sem, es[i], db) == Eval(sem, es[i], db')
    {
      InjectionReads(sem, e, groups[i], cfg, db);
      InjectionReads(sem, e, groups[i], cfg, db');
      forall s | s in Leaves(e)
        ensures FetchInjected(sem.regex, db, groups[i], cfg)(s) == FetchInjected(sem.regex, db', groups[i], cfg)(s)
      {
        ReadsPermitted(sem.regex, e, T, i, cfg, db, db', s);
      }
      EvalAgrees(sem, e, FetchInjected(sem.regex, db, groups[i], cfg), FetchInjected(sem.regex, db', groups[i], cfg));
    }
    OrTreeAgrees(sem, es, db, db');
  }

  // ----- confinement is needed

  /** Values that record everything an evaluation reads and applies. */
  datatype Term =
    | NumberTerm(n: real)
    | TextTerm(text: string)
    | VectorTerm(name: string, offset: int, S: set<Series>)
    | MatrixTerm(name: string, offset: int, range: int, S: set<Series>)
    | Applied(op: Operator, args: seq<Term>)

  function FreeSemantics(regex: (string, string) -> bool): Semantics<Term> {
    Semantics(
      regex,
      (n: real) => NumberTerm(n),
      (text: string) => TextTerm(text),
      (name: string, offset: int, S: set<Series>) => VectorTerm(name, offset, S),
      (name: string, offset: int, range: int, S: set<Series>) => MatrixTerm(name, offset, range, S),
      (op: Operator, args: seq<Term>) => Applied(op, args))
  }

  lemma {:induction false} FreeDistinguishes(regex: (string, string) -> bool, e: Expr<Selector>, s: Selector,
                                             read: Selector -> set<Series>, read': Selector -> set<Series>)
    requires s in Leaves(e) && read(s) != read'(s)
    ensures EvalWith(FreeSemantics(regex), e, read) != EvalWith(FreeSemantics(regex), e, read')
  {
    match e
    case Node(op, children) =>
      var i :| 0 <= i < |children| && s in Leaves(children[i]);
      FreeDistinguishes(regex, children[i], s, read, read');
      assert EvalWith(FreeSemantics(regex), e, read).args[i] != EvalWith(FreeSemantics(regex), e, read').args[i];
    case _ =>
  }

  lemma {:induction false} LastDisjunctShows(regex: (string, string) -> bool, e: Expr<Selector>, groups: seq<Group>,
                                             cfg: LabelConfig, db: set<Series>, db': set<Series>)
    requires groups != []
    requires var last := Inject(e, groups[|groups| - 1], cfg);
      Eval(FreeSemantics(regex), last, db) != Eval(FreeSemantics(regex), last, db')
    ensures Eval(FreeSemantics(regex), Rewritten(e, groups, cfg), db)
            != Eval(FreeSemantics(regex), Rewritten(e, groups, cfg), db')
  {
    var es := Disjuncts(e, groups, cfg);
    if |es| > 1 {
      EvalRewritten(FreeSemantics(regex), e, groups, cfg, db);
      EvalRewritten(FreeSemantics(regex), e, groups, cfg, db');
    }
  }

  /** A selector that names the tenant label and matches a series nobody granted lets that
      series through to the query's value. */
  lemma {:induction false} UnconfinedLeaks(regex: (string, string) -> bool, e: Expr<Selector>, T: set<Tenant>,
                                           cfg: LabelConfig, s: Selector, labels: Labels)
    requires Canonical(T) != [] && ReadsAllLiterally(regex, Canonical(T))
    requires s in Leaves(e) && Names(s.matchers, cfg.AccountLabel())
    requires Matches(regex, s.matchers, labels) && !LabelsPermitted(T, cfg, labels)
    ensures !Isolates(FreeSemantics(regex), e, T, cfg)
  {
    var x := Series(labels, []);
    var db: set<Series>, db': set<Series> := {x}, {};
    var groups, sem := Canonical(T), FreeSemantics(regex);
    var g := groups[|groups| - 1];
    assert PermittedPart(db, T, cfg) == PermittedPart(db', T, cfg);
    InjectionReads(sem, e, g, cfg, db);
    InjectionReads(sem, e, g, cfg, db');
    assert x in FetchInjected(regex, db, g, cfg)(s) && x !in FetchInjected(regex, db', g, cfg)(s);
    FreeDistinguishes(regex, e, s, FetchInjected(regex, db, g, cfg), FetchInjected(regex, db', g, cfg));
    LastDisjunctShows(regex, e, groups, cfg, db, db');
  }

  /** Exactly when a rewritten query is isolated: its selectors that already name the tenant
      label match permitted series only. Sufficient under every semantics (`QueryDependence`),
      necessary under the one whose values forget nothing. */
  lemma {:induction false} IsolationIff(regex: (string, string) -> bool, e: Expr<Selector>, T: set<Tenant>,
                                        cfg: LabelConfig)
    requires T != {} && ReadsAllLiterally(regex, Canonical(T))
    ensures Canonical(T) != []
    ensures Isolates(FreeSemantics(regex), e, T, cfg) <==> Confined(regex, e, T, cfg)
  {
    CanonicalShape(T);
    if Confined(regex, e, T, cfg) {
      forall db, db' | PermittedPart(db, T, cfg) == PermittedPart(db', T, cfg)
        ensures Eval(FreeSemantics(regex), Rewritten(e, Canonical(T), cfg), db)
                == Eval(FreeSemantics(regex), Rewritten(e, Canonical(T), cfg), db')
      {
        QueryDependence(FreeSemantics(regex), e, T, cfg, db, db');
      }
    } else {
      var s, labels :| s in Leaves(e) && Names(s.matchers, cfg.AccountLabel())
        && Matches(regex, s.matchers, labels) && !LabelsPermitted(T, cfg, labels);
      UnconfinedLeaks(regex, e, T, cfg, s, labels);
    }
  }

  /** The plainest leak: a query that asks for an account by name is not filtered, so it reads
      any account that no tenant of the user has. */
  lemma {:induction false} NamedAccountLeaks(regex: (string, string) -> bool, T: set<Tenant>, cfg: LabelConfig,
                                             metric: string, account: string)
    requires T != {} && ReadsAllLiterally(regex, Canonical(T)) && account !in Accounts(T)
    ensures Canonical(T) != []
    ensures var s := Selector(metric, [Matcher(MatchEqual, cfg.AccountLabel(), account)], 0);
      !Isolates(FreeSemantics(regex), Vector(s), T, cfg)
  {
    CanonicalShape(T);
    var s := Selector(metric, [Matcher(MatchEqual, cfg.AccountLabel(), account)], 0);
    var labels := map[cfg.AccountLabel() := account];
    assert s.matchers[0].name == cfg.AccountLabel();
    assert Accepts(regex, s.matchers[0], labels);
    UnconfinedLeaks(regex, Vector(s), T, cfg, s, labels);
  }

  // ----- a bare selector: nothing permitted is lost

  datatype Point = Absent | Point(value: real)

  datatype Element = Element(labels: Labels, value: real)

  function InstantVector(point: (int, Series) -> Point, offset: int, S: set<Series>): set<Element> {
    set s | s in S && point(offset, s).Point? :: Element(s.labels, point(offset, s).value)
  }

  /** The label set by which vector operators match elements: all but the metric name. */
  function Signature(labels: Labels): Labels {
    labels - {"__name__"}
  }

  /** The vector operator `or`: elements of the right side whose signature the left side lacks
      are added to the left side. */
  function VectorOr(l: set<Element>, r: set<Element>): set<Element> {
    l + set x | x in r && forall y :: y in l ==> Signature(y.labels) != Signature(x.labels)
  }

  /** Instant vectors: selection and `or` as Prometheus defines them, all else arbitrary. */
  function InstantSemantics(regex: (string, string) -> bool, point: (int, Series) -> Point,
                            other: (Operator, seq<set<Element>>) -> set<Element>): Semantics<set<Element>>
  {
    Semantics(
      regex,
      (n: real) => {},
      (text: string) => {},
      (name: string, offset: int, S: set<Series>) => InstantVector(point, offset, S),
      (name: string, offset: int, range: int, S: set<Series>) => {},
      (op: Operator, vs: seq<set<Element>>) =>
        if op.Or? && |vs| == 2 then VectorOr(vs[0], vs[1]) else other(op, vs))
  }

  ghost function PartOf(db: set<Series>, groups: seq<Group>, cfg: LabelConfig): set<Series> {
    set s | s in db && exists i :: 0 <= i < |groups| && SeriesPermitted(groups[i], cfg, s.labels)
  }

  /** `or` drops nothing between vectors whose elements differ in a label that signatures keep. */
  lemma {:induction false} OrIsUnion(l: set<Element>, r: set<Element>, labelName: string)
    requires labelName != "__name__"
    requires forall x, y :: x in l && y in r ==> Label(x.labels, labelName) != Label(y.labels, labelName)
    ensures VectorOr(l, r) == l + r
  {
    forall x, y | x in l && y in r
      ensures Signature(x.labels) != Signature(y.labels)
    {
      assert Label(Signature(x.labels), labelName) == Label(x.labels, labelName);
      assert Label(Signature(y.labels), labelName) == Label(y.labels, labelName);
    }
  }

  lemma {:induction false} BareUnion(regex: (string, string) -> bool, point: (int, Series) -> Point,
                                     other: (Operator, seq<set<Element>>) -> set<Element>,
                                     s: Selector, groups: seq<Group>, cfg: LabelConfig, db: set<Series>)
    requires groups != [] && !Names(s.matchers, cfg.AccountLabel()) && cfg.AccountLabel() != "__name__"
    requires ReadsAllLiterally(regex, groups)
    requires forall i, j :: 0 <= i < j < |groups| ==> groups[i].account != groups[j].account
    ensures Eval(InstantSemantics(regex, point, other), Rewritten(Vector(s), groups, cfg), db)
            == InstantVector(point, s.offset, Matched(regex, s.matchers, PartOf(db, groups, cfg)))
  {
    var k, sem := |groups| - 1, InstantSemantics(regex, point, other);
    var rest, last := groups[..k], groups[k];
    InjectionMeaning(sem, Vector(s), last, cfg, db);
    if k == 0 {
      assert PartOf(db, groups, cfg) == Restrict(db, last, cfg);
      assert Disjuncts(Vector(s), groups, cfg) == [Inject(Vector(s), last, cfg)];
    } else {
      BareUnion(regex, point, other, s, rest, cfg, db);
      EvalRewritten(sem, Vector(s), groups, cfg, db);
      DifferentAccounts(regex, point, s, groups, cfg, db);
      OrIsUnion(InstantVector(point, s.offset, Matched(regex, s.matchers, PartOf(db, rest, cfg))),
                InstantVector(point, s.offset, Matched(regex, s.matchers, Restrict(db, last, cfg))),
                cfg.AccountLabel());
      SplitPart(db, groups, cfg);
      VectorUnion(regex, point, s, PartOf(db, rest, cfg), Restrict(db, last, cfg));
    }
  }

  /** The last disjunct of a rewritten query. */
  lemma {:induction false} EvalRewritten<V>(sem: Semantics<V>, e: Expr<Selector>, groups: seq<Group>,
                                            cfg: LabelConfig, db: set<Series>)
    requires |groups| >= 2
    ensures var k := |groups| - 1;
      Eval(sem, Rewritten(e, groups, cfg), db)
      == sem.apply(Or, [Eval(sem, Rewritten(e, groups[..k], cfg), db), Eval(sem, Inject(e, groups[k], cfg), db)])
  {
    var k, es := |groups| - 1, Disjuncts(e, groups, cfg);
    assert es[..k] == Disjuncts(e, groups[..k], cfg);
    EvalOr(sem, OrTree(es[..k]), es[k], db);
  }

  lemma DifferentAccounts(regex: (string, string) -> bool, point: (int, Series) -> Point,
                          s: Selector, groups: seq<Group>, cfg: LabelConfig, db: set<Series>)
    requires groups != []
    requires forall i, j :: 0 <= i < j < |groups| ==> groups[i].account != groups[j].account
    ensures var k := |groups| - 1;
      var l := InstantVector(point, s.offset, Matched(regex, s.matchers, PartOf(db, groups[..k], cfg)));
      var r := InstantVector(point, s.offset, Matched(regex, s.matchers, Restrict(db, groups[k], cfg)));
      forall x, y :: x in l && y in r ==>
        Label(x.labels, cfg.AccountLabel()) != Label(y.labels, cfg.AccountLabel())
  {
  }

  lemma VectorUnion(regex: (string, string) -> bool, point: (int, Series) -> Point, s: Selector,
                    A: set<Series>, B: set<Series>)
    ensures InstantVector(point, s.offset, Matched(regex, s.matchers, A + B))
            == InstantVector(point, s.offset, Matched(regex, s.matchers, A))
             + InstantVector(point, s.offset, Matched(regex, s.matchers, B))
  {
  }

  lemma SplitPart(db: set<Series>, groups: seq<Group>, cfg: LabelConfig)
    requires groups != []
    ensures PartOf(db, groups, cfg)
            == PartOf(db, groups[..|groups| - 1], cfg) + Restrict(db, groups[|groups| - 1], cfg)
  {
  }

  /** For a bare selector the rewritten query yields exactly the original result limited to the
      permitted series: none is lost, none is added, none appears twice. */
  lemma {:induction false} BareSelectorExact(regex: (string, string) -> bool, point: (int, Series) -> Point,
                          other: (Operator, seq<set<Element>>) -> set<Element>,
                          s: Selector, T: set<Tenant>, cfg: LabelConfig, db: set<Series>)
    requires T != {} && !Names(s.matchers, cfg.AccountLabel())
    requires cfg.AccountLabel() != "__name__" && ReadsAllLiterally(regex, Canonical(T))
    ensures Canonical(T) != []
    ensures Eval(InstantSemantics(regex, point, other), Rewritten(Vector(s), Canonical(T), cfg), db)
            == InstantVector(point, s.offset, Matched(regex, s.matchers, PermittedPart(db, T, cfg)))
  {
    CanonicalShape(T);
    BareUnion(regex, point, other, s, Canonical(T), cfg, db);
    forall x | x in db
      ensures x in PartOf(db, Canonical(T), cfg) <==> x in PermittedPart(db, T, cfg)
    {
      PermittedByTenants(T, cfg, x.labels);
      GroupsPreserveAccess(T, cfg.useProjectID,
        Label(x.labels, cfg.AccountLabel()), Label(x.labels, cfg.ProjectLabel()));
    }
    assert PartOf(db, Canonical(T), cfg) == PermittedPart(db, T, cfg);
  }

  // ----- when the pattern of several projects is read literally

  /** Exactly when an engine reads the projects of a group literally: none has a metacharacter. */
  lemma {:induction false} ReadsLiterallyIff(regex: (string, string) -> bool, ps: seq<string>)
    requires IsEngine(regex) && |ps| >= 2 && WellFormed(Pattern(ps))
    ensures ReadsLiterally(regex, ps) <==> AllPlain(ps)
  {
    LiteralIff(ps);
  }

  predicate PlainProjects(T: set<Tenant>) {
    forall t :: t in T ==> t.IsWildcard() || Plain(t.project)
  }

  lemma {:induction false} PlainReadsAll(regex: (string, string) -> bool, T: set<Tenant>)
    requires IsEngine(regex) && PlainProjects(T)
    ensures ReadsAllLiterally(regex, Canonical(T))
  {
    var groups := Canonical(T);
    forall i | 0 <= i < |groups|
      ensures ReadsLiterally(regex, groups[i].projects)
    {
      var ps := groups[i].projects;
      forall j | 0 <= j < |ps|
        ensures Plain(ps[j])
      {
        assert ps[j] in Elements(ps);
      }
      if ps != [] {
        PlainIsLiteral(ps);
      }
    }
  }

  /** A dot in a project ID lets in every project that differs from it there. */
  lemma {:induction false} DotLeak(regex: (string, string) -> bool, g: Group, cfg: LabelConfig, i: nat, v: string)
    requires IsEngine(regex) && g.FiltersProject(cfg.useProjectID) && cfg.AccountLabel() != cfg.ProjectLabel()
    requires 2 <= |g.projects| && AllWellFormed(g.projects) && i < |g.projects|
    requires PlainOrDots(g.projects[i]) && Fits(g.projects[i], v) && v !in g.projects
    ensures var labels := map[cfg.AccountLabel() := g.account, cfg.ProjectLabel() := v];
      !SeriesPermitted(g, cfg, labels) && Matches(regex, InjectGroup([], g, cfg), labels)
  {
    var labels := map[cfg.AccountLabel() := g.account, cfg.ProjectLabel() := v];
    var account, project :=
      Matcher(MatchEqual, cfg.AccountLabel(), g.account), ProjectMatcher(g.projects, cfg.ProjectLabel());
    PatternMeaning(g.projects);
    MatchWord(g.projects[i], v);
    assert InjectGroup([], g, cfg) == [account, project];
    assert Accepts(regex, account, labels) && Accepts(regex, project, labels);
  }

  lemma {:induction false} TwoProjects(account: string, T: set<Tenant>)
    requires T == {Tenant(account, "1.2"), Tenant(account, "3")}
    ensures Canonical(T) == [Group(account, ["1.2", "3"], false)]
  {
    assert Accounts(T) == {account};
    SingletonList(account);
    assert !HasWildcard(T, account);
    assert Projects(T, account) == {"1.2", "3"} by {
      assert Tenant(account, "1.2") in T && Tenant(account, "3") in T;
    }
    var ps := ["1.2", "3"];
    assert Below(ps[0], ps[1]);
    assert Elements(ps) == {"1.2", "3"};
    SortedUnique(SortedList(Projects(T, account)), ps);
  }

  /** A series nobody granted that the injected matchers accept shows in a plain query. */
  lemma {:induction false} AcceptedShows(regex: (string, string) -> bool, metric: string, cfg: LabelConfig,
                                         T: set<Tenant>, g: Group, labels: Labels)
    requires Canonical(T) == [g] && !LabelsPermitted(T, cfg, labels)
    requires Matches(regex, InjectGroup([], g, cfg), labels)
    ensures !Isolates(FreeSemantics(regex), Vector(Selector(metric, [], 0)), T, cfg)
  {
    var e, x := Vector(Selector(metric, [], 0)), Series(labels, []);
    var db: set<Series>, db': set<Series> := {x}, {};
    assert PermittedPart(db, T, cfg) == PermittedPart(db', T, cfg);
    assert x in Matched(regex, InjectGroup([], g, cfg), db);
    assert Eval(FreeSemantics(regex), Inject(e, g, cfg), db) != Eval(FreeSemantics(regex), Inject(e, g, cfg), db');
    LastDisjunctShows(regex, e, [g], cfg, db, db');
  }

  lemma {:induction false} DotFits(p: string, q: string, v: string)
    requires p == "1.2" && q == "3" && v == "1x2"
    ensures PlainOrDots(p) && Fits(p, v) && WellFormed(p) && WellFormed(q)
  {
    MatchWord(p, v);
    MatchWord(q, v);
  }

  /** With projects 1.2 and 3 granted, a plain query for a metric also reads project 1x2. */
  lemma {:induction false} GrantedDotLeaks(regex: (string, string) -> bool, account: string, metric: string,
                                           cfg: LabelConfig, T: set<Tenant>, p: string, q: string, v: string)
    requires IsEngine(regex) && cfg.useProjectID && cfg.AccountLabel() != cfg.ProjectLabel()
    requires p == "1.2" && q == "3" && v == "1x2" && T == {Tenant(account, p), Tenant(account, q)}
    ensures Canonical(T) != [] && !Isolates(FreeSemantics(regex), Vector(Selector(metric, [], 0)), T, cfg)
  {
    var g := Group(account, [p, q], false);
    TwoProjects(account, T);
    DotFits(p, q, v);
    DotLeak(regex, g, cfg, 0, v);
    AcceptedShows(regex, metric, cfg, T, g, map[cfg.AccountLabel() := account, cfg.ProjectLabel() := v]);
  }
}
