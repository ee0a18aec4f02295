/** PromQL expressions, tenant injection into them, and their meaning over a database of
    series (or_query_builder.go, promql_parser.go). */
module PromQL {
  import opened TenantGroups

  // ----- expressions

  datatype MatchType = MatchEqual | MatchNotEqual | MatchRegexp | MatchNotRegexp

  datatype Matcher = Matcher(kind: MatchType, name: string, value: string)

  /** A vector selector as a value. */
  datatype Selector = Selector(name: string, matchers: seq<Matcher>, offset: int)

  datatype Operator =
    | Or
    | BinaryOperator(symbol: string)
    | UnaryOperator(symbol: string)
    | Parentheses
    | Aggregation(symbol: string, labels: seq<string>, without: bool)
    | FunctionCall(symbol: string)
    | Subquery(range: int, step: int)

  /** An expression over selectors of type S. `children` are the nodes that the parser's
      Inspect visits below an operator. */
  datatype Expr<S> =
    | Number(n: real)
    | Text(text: string)
    | Vector(selector: S)
    | Matrix(selector: S, range: int)
    | Node(op: Operator, children: seq<Expr<S>>)

  /** Rewrite every selector. */
  function Map<S, T>(e: Expr<S>, f: S -> T): Expr<T> {
    match e
    case Number(n) => Number(n)
    case Text(text) => Text(text)
    case Vector(s) => Vector(f(s))
    case Matrix(s, range) => Matrix(f(s), range)
    case Node(op, children) =>
      Node(op, seq(|children|, i requires 0 <= i < |children| => Map(children[i], f)))
  }

  /** The selectors of an expression. */
  ghost function Leaves<S>(e: Expr<S>): set<S> {
    match e
    case Number(_) => {}
    case Text(_) => {}
    case Vector(s) => {s}
    case Matrix(s, _) => {s}
    case Node(_, children) => set i, s | 0 <= i < |children| && s in Leaves(children[i]) :: s
  }

  // ----- injection

  datatype LabelConfig = LabelConfig(account: string, project: string, useProjectID: bool)
  {
    function AccountLabel(): string {
      if account == "" then "vm_account_id" else account
    }

    function ProjectLabel(): string {
      if project == "" then "vm_project_id" else project
    }
  }

  predicate Names(ms: seq<Matcher>, labelName: string) {
    exists i :: 0 <= i < |ms| && ms[i].name == labelName
  }

  function Join(ps: seq<string>): string {
    if ps == [] then "" else if |ps| == 1 then ps[0] else ps[0] + "|" + Join(ps[1..])
  }

  /** The alternation the code builds for several projects of one account. */
  function Pattern(ps: seq<string>): string {
    "(" + Join(ps) + ")"
  }

  function ProjectMatcher(ps: seq<string>, labelName: string): Matcher
    requires |ps| > 0
  {
    if |ps| == 1 then Matcher(MatchEqual, labelName, ps[0]) else Matcher(MatchRegexp, labelName, Pattern(ps))
  }

  /** injectTenantToVectorSelector on the matcher list. */
  function InjectGroup(ms: seq<Matcher>, g: Group, cfg: LabelConfig): (r: seq<Matcher>)
    ensures Names(r, cfg.AccountLabel())
    ensures Names(ms, cfg.AccountLabel()) ==> r == ms
  {
    if Names(ms, cfg.AccountLabel()) then ms else
      var account := Matcher(MatchEqual, cfg.AccountLabel(), g.account);
      var r := ms + [account];
      assert r[|ms|].name == cfg.AccountLabel();
      if g.FiltersProject(cfg.useProjectID) then
        var r' := r + [ProjectMatcher(g.projects, cfg.ProjectLabel())];
        assert r'[|ms|].name == cfg.AccountLabel();
        r'
      else r
  }

  /** injectTenantLabelsToVectorSelector on the matcher list, for its one tenant. */
  function InjectTenant(ms: seq<Matcher>, t: Tenant, cfg: LabelConfig): (r: seq<Matcher>)
    ensures Names(r, cfg.AccountLabel())
    ensures Names(ms, cfg.AccountLabel()) ==> r == ms
  {
    if Names(ms, cfg.AccountLabel()) then ms else
      var r := ms + [Matcher(MatchEqual, cfg.AccountLabel(), t.account)];
      assert r[|ms|].name == cfg.AccountLabel();
      if cfg.useProjectID && t.project != "" && t.project != ".*" then
        var r' := r + [Matcher(MatchEqual, cfg.ProjectLabel(), t.project)];
        assert r'[|ms|].name == cfg.AccountLabel();
        r'
      else r
  }

  function Inject(e: Expr<Selector>, g: Group, cfg: LabelConfig): Expr<Selector> {
    Map(e, (s: Selector) => s.(matchers := InjectGroup(s.matchers, g, cfg)))
  }

  function InjectSingle(e: Expr<Selector>, t: Tenant, cfg: LabelConfig): Expr<Selector> {
    Map(e, (s: Selector) => s.(matchers := InjectTenant(s.matchers, t, cfg)))
  }

  /** The left-leaning OR tree. */
  function OrTree<S>(es: seq<Expr<S>>): Expr<S>
    requires es != []
  {
    var k := |es| - 1;
    if k == 0 then es[0] else Node(Or, [OrTree(es[..k]), es[k]])
  }

  /** One injected copy of the query per group. */
  function Disjuncts(e: Expr<Selector>, groups: seq<Group>, cfg: LabelConfig): (r: seq<Expr<Selector>>)
    ensures |r| == |groups|
    ensures forall i :: 0 <= i < |r| ==> r[i] == Inject(e, groups[i], cfg)
  {
    seq(|groups|, i requires 0 <= i < |groups| => Inject(e, groups[i], cfg))
  }

  /** The rewritten query: the copies joined by OR. */
  function Rewritten(e: Expr<Selector>, groups: seq<Group>, cfg: LabelConfig): Expr<Selector>
    requires groups != []
  {
    OrTree(Disjuncts(e, groups, cfg))
  }

  lemma {:induction false} MapAgrees<S, T>(e: Expr<S>, f: S -> T, g: S -> T)
    requires forall s :: s in Leaves(e) ==> f(s) == g(s)
    ensures Map(e, f) == Map(e, g)
  {
    match e
    case Node(op, children) =>
      forall i | 0 <= i < |children|
        ensures Map(children[i], f) == Map(children[i], g)
      {
        assert forall s :: s in Leaves(children[i]) ==> s in Leaves(e);
        MapAgrees(children[i], f, g);
      }
      assert Map(e, f).children == Map(e, g).children;
    case _ =>
  }

  lemma {:induction false} MapTwice<S, T, U>(e: Expr<S>, f: S -> T, g: T -> U, h: S -> U)
    requires forall s :: s in Leaves(e) ==> g(f(s)) == h(s)
    ensures Map(Map(e, f), g) == Map(e, h)
  {
    match e
    case Node(op, children) =>
      forall i | 0 <= i < |children|
        ensures Map(Map(children[i], f), g) == Map(children[i], h)
      {
        assert forall s :: s in Leaves(children[i]) ==> s in Leaves(e);
        MapTwice(children[i], f, g, h);
      }
      assert Map(Map(e, f), g).children == Map(e, h).children;
    case _ =>
  }

  /** A second injection, of whatever group, changes nothing. */
  lemma {:induction false} InjectOnce(e: Expr<Selector>, g: Group, g': Group, cfg: LabelConfig)
    ensures Inject(Inject(e, g, cfg), g', cfg) == Inject(e, g, cfg)
  {
    var f := (s: Selector) => s.(matchers := InjectGroup(s.matchers, g, cfg));
    var f' := (s: Selector) => s.(matchers := InjectGroup(s.matchers, g', cfg));
    MapTwice(e, f, f', f);
  }

  /** The group of a list that holds only copies of one tenant. */
  lemma {:induction false} SingletonGroup(t: Tenant)
    ensures Canonical({t}) ==
      [if t.IsWildcard() then Group(t.account, [], true) else Group(t.account, [t.project], false)]
  {
    assert Accounts({t}) == {t.account};
    SingletonList(t.account);
    if t.IsWildcard() {
      assert HasWildcard({t}, t.account);
    } else {
      assert Projects({t}, t.account) == {t.project};
      SingletonList(t.project);
    }
  }

  lemma SingletonList(x: string)
    ensures Lists.SortedList({x}) == [x]
  {
  }

  /** The two implementations agree: the single-tenant injector yields what the group path
      yields on any list holding only copies of that tenant. */
  lemma {:induction false} ImplementationsAgree(e: Expr<Selector>, t: Tenant, cfg: LabelConfig)
    ensures |Canonical({t})| == 1
    ensures InjectSingle(e, t, cfg) == Rewritten(e, Canonical({t}), cfg)
  {
    SingletonGroup(t);
    var g := Canonical({t})[0];
    var f := (s: Selector) => s.(matchers := InjectTenant(s.matchers, t, cfg));
    var f' := (s: Selector) => s.(matchers := InjectGroup(s.matchers, g, cfg));
    forall s | s in Leaves(e)
      ensures f(s) == f'(s)
    {
    }
    MapAgrees(e, f, f');
  }

  // ----- meaning

  type Labels = map<string, string>

  datatype Series = Series(labels: Labels, samples: seq<(int, real)>)

  /** An absent label reads as the empty string. */
  function Label(labels: Labels, name: string): string {
    if name in labels then labels[name] else ""
  }

  predicate Carries(labels: Labels, name: string, v: string) {
    if name in labels then labels[name] == v else v == ""
  }

  /** The meaning of everything but selection: `V` may be scalars, vectors, or functions of
      the evaluation time; no law is assumed of the operators. */
  datatype Semantics<!V> = Semantics(
    regex: (string, string) -> bool,
    number: real -> V,
    text: string -> V,
    vector: (string, int, set<Series>) -> V,
    matrix: (string, int, int, set<Series>) -> V,
    apply: (Operator, seq<V>) -> V)

  predicate Accepts(regex: (string, string) -> bool, m: Matcher, labels: Labels) {
    var v := Label(labels, m.name);
    match m.kind
    case MatchEqual => v == m.value
    case MatchNotEqual => v != m.value
    case MatchRegexp => regex(m.value, v)
    case MatchNotRegexp => !regex(m.value, v)
  }

  predicate Matches(regex: (string, string) -> bool, ms: seq<Matcher>, labels: Labels) {
    forall i :: 0 <= i < |ms| ==> Accepts(regex, ms[i], labels)
  }

  function Matched(regex: (string, string) -> bool, ms: seq<Matcher>, db: set<Series>): set<Series> {
    set s | s in db && Matches(regex, ms, s.labels)
  }

  /** What a selector fetches from a database. */
  function Fetch(regex: (string, string) -> bool, db: set<Series>): Selector -> set<Series> {
    (s: Selector) => Matched(regex, s.matchers, db)
  }

  /** The value of an expression, given what each selector fetches. */
  function EvalWith<V>(sem: Semantics<V>, e: Expr<Selector>, read: Selector -> set<Series>): V {
    match e
    case Number(n) => sem.number(n)
    case Text(text) => sem.text(text)
    case Vector(s) => sem.vector(s.name, s.offset, read(s))
    case Matrix(s, range) => sem.matrix(s.name, s.offset, range, read(s))
    case Node(op, children) =>
      sem.apply(op, seq(|children|, i requires 0 <= i < |children| => EvalWith(sem, children[i], read)))
  }

  function Eval<V>(sem: Semantics<V>, e: Expr<Selector>, db: set<Series>): V {
    EvalWith(sem, e, Fetch(sem.regex, db))
  }

  /** Two expressions of the same shape mean the same when their selectors fetch the same. */
  lemma {:induction false} EvalMapped<V>(sem: Semantics<V>, e: Expr<Selector>, f: Selector -> Selector,
                                         read: Selector -> set<Series>, read': Selector -> set<Series>)
    requires forall s :: s in Leaves(e) ==>
      f(s).name == s.name && f(s).offset == s.offset && read(f(s)) == read'(s)
    ensures EvalWith(sem, Map(e, f), read) == EvalWith(sem, e, read')
  {
    match e
    case Node(op, children) =>
      var cs := Map(e, f).children;
      forall i | 0 <= i < |children|
        ensures EvalWith(sem, cs[i], read) == EvalWith(sem, children[i], read')
      {
        assert forall s :: s in Leaves(children[i]) ==> s in Leaves(e);
        EvalMapped(sem, children[i], f, read, read');
      }
      assert seq(|cs|, i requires 0 <= i < |cs| => EvalWith(sem, cs[i], read))
          == seq(|children|, i requires 0 <= i < |children| => EvalWith(sem, children[i], read'));
    case _ =>
  }
}
