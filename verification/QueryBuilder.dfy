/** The query builder as the code runs it: selectors are heap nodes whose matcher lists are
    appended to in place (or_query_builder.go, promql_parser.go). */
module QueryBuilder {
  import opened Lists
  import opened TenantGroups
  import opened PromQL

  class SelectorNode {
    const name: string
    const offset: int
    var matchers: seq<Matcher>

    constructor (name: string, matchers: seq<Matcher>, offset: int)
      ensures this.name == name && this.matchers == matchers && this.offset == offset
    {
      this.name, this.matchers, this.offset := name, matchers, offset;
    }

    ghost function View(): Selector
      reads this
    {
      Selector(name, matchers, offset)
    }

    /** The search loop for an existing tenant matcher. */
    method HasLabel(labelName: string) returns (found: bool)
      ensures found == Names(matchers, labelName)
    {
      for i := 0 to |matchers|
        invariant forall j :: 0 <= j < i ==> matchers[j].name != labelName
      {
        if matchers[i].name == labelName {
          return true;
        }
      }
      return false;
    }

    method InjectGroup(g: Group, cfg: LabelConfig)
      modifies this
      ensures matchers == PromQL.InjectGroup(old(matchers), g, cfg)
    {
      var found := HasLabel(cfg.AccountLabel());
      if found {
        return;
      }
      matchers := matchers + [Matcher(MatchEqual, cfg.AccountLabel(), g.account)];
      if cfg.useProjectID && !g.wildcard && |g.projects| > 0 {
        if |g.projects| == 1 {
          matchers := matchers + [Matcher(MatchEqual, cfg.ProjectLabel(), g.projects[0])];
        } else {
          matchers := matchers + [Matcher(MatchRegexp, cfg.ProjectLabel(), Pattern(g.projects))];
        }
      }
    }

    method InjectTenant(t: Tenant, cfg: LabelConfig)
      modifies this
      ensures matchers == PromQL.InjectTenant(old(matchers), t, cfg)
    {
      var found := HasLabel(cfg.AccountLabel());
      if found {
        return;
      }
      matchers := matchers + [Matcher(MatchEqual, cfg.AccountLabel(), t.account)];
      if cfg.useProjectID && t.project != "" && t.project != ".*" {
        matchers := matchers + [Matcher(MatchEqual, cfg.ProjectLabel(), t.project)];
      }
    }
  }

  type Ast = Expr<SelectorNode>

  /** The expression an AST currently stands for. */
  ghost function View(e: Ast): Expr<Selector>
    reads Leaves(e)
  {
    match e
    case Number(n) => Number(n)
    case Text(text) => Text(text)
    case Vector(s) => Vector(s.View())
    case Matrix(s, range) => Matrix(s.View(), range)
    case Node(op, children) =>
      Node(op, seq(|children|, i requires 0 <= i < |children| reads Leaves(e) => View(children[i])))
  }

  /** The selectors of a set of nodes at some moment. */
  type Snapshot = map<SelectorNode, Selector>

  ghost function Take(nodes: set<SelectorNode>): Snapshot
    reads nodes
  {
    map n | n in nodes :: n.View()
  }

  ghost function Lookup(m: Snapshot): SelectorNode -> Selector {
    (n: SelectorNode) => if n in m then m[n] else Selector("", [], 0)
  }

  lemma {:induction false} ViewFromSnapshot(e: Ast, m: Snapshot)
    requires forall n :: n in Leaves(e) ==> n in m && m[n] == n.View()
    ensures View(e) == Map(e, Lookup(m))
  {
    match e
    case Node(op, children) =>
      forall i | 0 <= i < |children|
        ensures View(children[i]) == Map(children[i], Lookup(m))
      {
        assert forall n :: n in Leaves(children[i]) ==> n in Leaves(e);
        ViewFromSnapshot(children[i], m);
      }
      assert View(e).children == Map(e, Lookup(m)).children;
    case _ =>
  }

  /** When every node went through f once since a snapshot, the expression went through f. */
  lemma {:induction false} ViewRewritten(e: Ast, before: Snapshot, f: Selector -> Selector)
    requires forall n :: n in Leaves(e) ==> n in before && n.View() == f(before[n])
    ensures View(e) == Map(Map(e, Lookup(before)), f)
  {
    ghost var after := Take(Leaves(e));
    ViewFromSnapshot(e, after);
    MapTwice(e, Lookup(before), f, Lookup(after));
  }

  /** The callback that Inspect runs on every vector selector. */
  datatype Visitor = ForGroup(g: Group) | ForTenant(t: Tenant)
  {
    function Rewrite(ms: seq<Matcher>, cfg: LabelConfig): (r: seq<Matcher>)
      ensures Names(r, cfg.AccountLabel())
      ensures Names(ms, cfg.AccountLabel()) ==> r == ms
    {
      match this
      case ForGroup(g) => InjectGroup(ms, g, cfg)
      case ForTenant(t) => InjectTenant(ms, t, cfg)
    }

    method Visit(n: SelectorNode, cfg: LabelConfig)
      modifies n
      ensures n.matchers == Rewrite(old(n.matchers), cfg)
    {
      match this
      case ForGroup(g) => n.InjectGroup(g, cfg);
      case ForTenant(t) => n.InjectTenant(t, cfg);
    }
  }

  ghost predicate Visited(n: SelectorNode, before: Snapshot, v: Visitor, cfg: LabelConfig)
    reads n
  {
    n in before && n.matchers == v.Rewrite(before[n].matchers, cfg)
  }

  /** A node is as in the snapshot, or was visited since. */
  ghost predicate AtMostVisited(n: SelectorNode, before: Snapshot, v: Visitor, cfg: LabelConfig)
    reads n
  {
    n in before && (n.matchers == before[n].matchers || Visited(n, before, v, cfg))
  }

  /** The parser's Inspect. Nodes may be shared: meeting one again changes nothing more. */
  method Inspect(e: Ast, v: Visitor, cfg: LabelConfig, ghost before: Snapshot)
    requires forall n :: n in Leaves(e) ==> AtMostVisited(n, before, v, cfg)
    modifies Leaves(e)
    ensures forall n :: n in Leaves(e) ==> Visited(n, before, v, cfg)
    decreases e
  {
    match e
    case Number(_) =>
    case Text(_) =>
    case Vector(s) => v.Visit(s, cfg);
    case Matrix(s, _) => v.Visit(s, cfg);
    case Node(_, children) =>
      InspectAll(children, v, cfg, before, Leaves(e));
  }

  method InspectAll(children: seq<Ast>, v: Visitor, cfg: LabelConfig, ghost before: Snapshot,
                    ghost nodes: set<SelectorNode>)
    requires forall j :: 0 <= j < |children| ==> Leaves(children[j]) <= nodes
    requires forall n :: n in nodes ==> AtMostVisited(n, before, v, cfg)
    modifies nodes
    ensures forall j :: 0 <= j < |children| ==> forall n :: n in Leaves(children[j]) ==> Visited(n, before, v, cfg)
    decreases children
  {
    ghost var done: set<SelectorNode> := {};
    for i := 0 to |children|
      invariant forall n :: n in nodes ==> AtMostVisited(n, before, v, cfg)
      invariant forall n :: n in done ==> Visited(n, before, v, cfg)
      invariant forall j :: 0 <= j < i ==> Leaves(children[j]) <= done
    {
      Inspect(children[i], v, cfg, before);
      done := done + Leaves(children[i]);
    }
  }

  /** injectTenantToExpression: the AST afterwards is the pure injection of the AST before. */
  method InjectTenantToExpression(e: Ast, g: Group, cfg: LabelConfig)
    modifies Leaves(e)
    ensures View(e) == Inject(old(View(e)), g, cfg)
  {
    ghost var before := Take(Leaves(e));
    ViewFromSnapshot(e, before);
    Inspect(e, ForGroup(g), cfg, before);
    ViewRewritten(e, before, (s: Selector) => s.(matchers := InjectGroup(s.matchers, g, cfg)));
  }

  /** The single-tenant injector, likewise. */
  method InjectTenantLabels(e: Ast, t: Tenant, cfg: LabelConfig)
    modifies Leaves(e)
    ensures View(e) == InjectSingle(old(View(e)), t, cfg)
  {
    ghost var before := Take(Leaves(e));
    ViewFromSnapshot(e, before);
    Inspect(e, ForTenant(t), cfg, before);
    ViewRewritten(e, before, (s: Selector) => s.(matchers := InjectTenant(s.matchers, t, cfg)));
  }

  /** The selectors of an AST, which all exist already. */
  lemma {:induction false} NodesOf(e: Ast) returns (nodes: set<SelectorNode>)
    ensures nodes == Leaves(e)
  {
    nodes := Leaves(e);
  }

  /** cloneExpression: printing and parsing again yields a structural copy of fresh nodes. */
  method Clone(e: Ast) returns (c: Ast)
    ensures fresh(Leaves(c)) && View(c) == View(e)
    decreases e
  {
    match e
    case Number(n) => c := Number(n);
    case Text(text) => c := Text(text);
    case Vector(s) =>
      var n := new SelectorNode(s.name, s.matchers, s.offset);
      c := Vector(n);
    case Matrix(s, range) =>
      var n := new SelectorNode(s.name, s.matchers, s.offset);
      c := Matrix(n, range);
    case Node(op, children) =>
      var cs: seq<Ast> := [];
      ghost var made: set<SelectorNode> := {};
      ghost var input := NodesOf(e);
      assert forall j :: 0 <= j < |children| ==> Leaves(children[j]) <= input;
      for i := 0 to |children|
        invariant |cs| == i && fresh(made)
        invariant forall j :: 0 <= j < i ==> Leaves(cs[j]) <= made && View(cs[j]) == View(children[j])
      {
        var child := Clone(children[i]);
        cs := cs + [child];
        ghost var nodes := NodesOf(child);
        made := made + nodes;
      }
      c := Node(op, cs);
      assert View(c).children == View(e).children;
  }

  lemma {:induction false} ViewOrTree(es: seq<Ast>, views: seq<Expr<Selector>>)
    requires es != [] && |views| == |es|
    requires forall i :: 0 <= i < |es| ==> View(es[i]) == views[i]
    ensures View(OrTree(es)) == OrTree(views)
  {
    var k := |es| - 1;
    if k > 0 {
      ViewOrTree(es[..k], views[..k]);
      assert View(OrTree(es)).children == [OrTree(views[..k]), views[k]];
    }
  }

  /** createSecureORExpression. With one group the parsed query itself is injected; with more,
      every disjunct is the injection of its own group alone and the parsed query is intact. */
  method CreateSecureOr(e: Ast, tenants: seq<Tenant>, cfg: LabelConfig) returns (r: Ast)
    requires tenants != []
    modifies Leaves(e)
    ensures Canonical(Elements(tenants)) != []
    ensures View(r) == Rewritten(old(View(e)), Canonical(Elements(tenants)), cfg)
    ensures |Canonical(Elements(tenants))| >= 2 ==> View(e) == old(View(e))
  {
    ghost var input := NodesOf(e);
    ghost var q := View(e);
    var groups := OptimizeGroups(tenants);
    assert View(e) == q;
    CanonicalShape(Elements(tenants));
    assert tenants[0] in Elements(tenants);
    ghost var views := Disjuncts(q, groups, cfg);
    if |groups| == 1 {
      InjectTenantToExpression(e, groups[0], cfg);
      assert View(e) == views[0] == OrTree(views);
      return e;
    }
    var disjuncts := InjectClones(e, groups, cfg);
    r := JoinByOr(disjuncts, views);
  }

  method JoinByOr(es: seq<Ast>, ghost views: seq<Expr<Selector>>) returns (r: Ast)
    requires es != [] && |views| == |es| && forall i :: 0 <= i < |es| ==> View(es[i]) == views[i]
    ensures View(r) == OrTree(views)
  {
    r := es[0];
    assert es[..1] == [es[0]];
    for i := 1 to |es|
      invariant r == OrTree(es[..i])
    {
      assert es[..i + 1][..i] == es[..i];
      r := Node(Or, [r, es[i]]);
    }
    assert es[..|es|] == es;
    ViewOrTree(es, views);
  }

  method InjectClones(e: Ast, groups: seq<Group>, cfg: LabelConfig) returns (r: seq<Ast>)
    ensures |r| == |groups|
    ensures forall i :: 0 <= i < |r| ==> fresh(Leaves(r[i])) && View(r[i]) == Inject(View(e), groups[i], cfg)
    ensures View(e) == old(View(e))
  {
    r := [];
    ghost var input := NodesOf(e);
    ghost var made: set<SelectorNode> := {};
    for i := 0 to |groups|
      invariant |r| == i && fresh(made)
      invariant View(e) == old(View(e))
      invariant forall j :: 0 <= j < i ==> Leaves(r[j]) <= made && View(r[j]) == Inject(View(e), groups[j], cfg)
    {
      var c := Clone(e);
      InjectTenantToExpression(c, groups[i], cfg);
      r := r + [c];
      ghost var nodes := NodesOf(c);
      made := made + nodes;
    }
  }

  datatype Rewrite = Query(q: Ast) | NoTenants | ParseError

  datatype Parsed = Parsed(e: Ast) | Unparsable

  /** BuildSecureQuery, between the parser and the printer: nothing is produced without a
      tenant; otherwise the query is the rewriting for the set of tenants. */
  method BuildSecureQuery(parsed: Parsed, tenants: seq<Tenant>, cfg: LabelConfig) returns (r: Rewrite)
    modifies if parsed.Parsed? then Leaves(parsed.e) else {}
    ensures r == NoTenants <==> tenants == []
    ensures r == ParseError <==> tenants != [] && parsed.Unparsable?
    ensures r.Query? ==> Canonical(Elements(tenants)) != []
    ensures r.Query? ==> View(r.q) == Rewritten(old(View(parsed.e)), Canonical(Elements(tenants)), cfg)
  {
    if |tenants| == 0 {
      return NoTenants;
    }
    if parsed.Unparsable? {
      return ParseError;
    }
    if |tenants| == 1 {
      assert Elements(tenants) == {tenants[0]};
      ImplementationsAgree(View(parsed.e), tenants[0], cfg);
      InjectTenantLabels(parsed.e, tenants[0], cfg);
      return Query(parsed.e);
    }
    var q := CreateSecureOr(parsed.e, tenants, cfg);
    r := Query(q);
  }
}
