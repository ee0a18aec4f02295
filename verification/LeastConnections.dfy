/** Least-connections balancing (internal/services/loadbalancer/least_connections.go). */
module LeastConnections {
  import opened Sums
  import opened Backends
  import opened Division
  import opened Schedules
  import Int32

  /** First candidate with the fewest connections. */
  function ArgMin(v: seq<int>, idxs: seq<nat>): (m: nat)
    requires InRange(idxs, |v|) && idxs != []
    ensures m in idxs
  {
    var k := |idxs| - 1;
    if k == 0 then idxs[0] else
      var m := ArgMin(v, idxs[..k]);
      if v[idxs[k]] < v[m] then idxs[k] else m
  }

  lemma {:induction false} ArgMinIsLeast(v: seq<int>, idxs: seq<nat>, j: nat)
    requires InRange(idxs, |v|) && j < |idxs|
    ensures v[ArgMin(v, idxs)] <= v[idxs[j]]
  {
    var k := |idxs| - 1;
    if k > 0 {
      ArgMinIsLeast(v, idxs[..k], if j < k then j else 0);
    }
  }

  /** Ties go to the smallest index. */
  lemma {:induction false} ArgMinIsFirst(v: seq<int>, idxs: seq<nat>, j: nat)
    requires Increasing(idxs, |v|) && j < |idxs| && v[ArgMin(v, idxs)] == v[idxs[j]]
    ensures ArgMin(v, idxs) <= idxs[j]
  {
    var k := |idxs| - 1;
    if k > 0 {
      var p := idxs[..k];
      if j < k {
        ArgMinIsLeast(v, p, j);
        ArgMinIsFirst(v, p, j);
      }
    }
  }

  /** Who is chosen: the first candidate with the fewest connections. */
  function Choose(bs: seq<Backend>, closed: bool, conns: seq<int>): (r: Outcome)
    requires |bs| == |conns|
    ensures r.Chosen? ==> r.index < |conns| && r.index in Selectable(bs)
    ensures r != Crashed
  {
    if closed || Selectable(bs) == [] then NoHealthyBackends else Chosen(ArgMin(conns, Selectable(bs)))
  }

  /** The chosen backend is a candidate, no candidate has fewer connections, and none with as
      few comes before it. */
  ghost predicate LeastLoaded(bs: seq<Backend>, conns: seq<int>, i: nat) {
    && |bs| == |conns| && i in Selectable(bs)
    && forall j :: j in Selectable(bs) ==> conns[i] < conns[j] || (conns[i] == conns[j] && i <= j)
  }

  lemma {:induction false} ChoosesLeast(bs: seq<Backend>, conns: seq<int>)
    requires |bs| == |conns| && Selectable(bs) != []
    ensures Choose(bs, false, conns).Chosen? && LeastLoaded(bs, conns, Choose(bs, false, conns).index)
  {
    var idxs := Selectable(bs);
    forall j | j in idxs
      ensures var i := ArgMin(conns, idxs); conns[i] < conns[j] || (conns[i] == conns[j] && i <= j)
    {
      var k :| 0 <= k < |idxs| && idxs[k] == j;
      ArgMinIsLeast(conns, idxs, k);
      if conns[ArgMin(conns, idxs)] == conns[j] {
        ArgMinIsFirst(conns, idxs, k);
      }
    }
  }

  /** The connection counts after a selection. */
  function Opened(conns: seq<int>, r: Outcome): (c: seq<int>)
    requires r.Chosen? ==> r.index < |conns|
    ensures |c| == |conns|
  {
    if r.Chosen? then conns[r.index := Int32.Wrap(conns[r.index] + 1)] else conns
  }

  /** The request totals after a selection. */
  function Counted(totals: seq<int>, r: Outcome): (t: seq<int>)
    requires r.Chosen? ==> r.index < |totals|
    ensures |t| == |totals|
  {
    if r.Chosen? then totals[r.index := totals[r.index] + 1] else totals
  }

  class LeastConnectionsBalancer {
    var backends: seq<Backend>
    const activeConns: array<int>
    const totalRequests: array<int>
    var closed: bool

    ghost predicate Valid()
      reads this
    {
      |backends| == activeConns.Length == totalRequests.Length && activeConns != totalRequests
    }

    constructor (bs: seq<Backend>)
      ensures Valid() && fresh(activeConns) && fresh(totalRequests)
      ensures backends == bs && !closed
      ensures activeConns[..] == totalRequests[..] == Zeros(|bs|)
    {
      backends := bs;
      activeConns := new int[|bs|](_ => 0);
      totalRequests := new int[|bs|](_ => 0);
      closed := false;
    }

    method NextBackend() returns (r: Outcome)
      requires Valid()
      modifies activeConns, totalRequests
      ensures Valid()
      ensures r == Choose(backends, closed, old(activeConns[..]))
      ensures r.Chosen? <==> !closed && Selectable(backends) != []
      ensures r.Chosen? ==> LeastLoaded(backends, old(activeConns[..]), r.index)
      ensures activeConns[..] == Opened(old(activeConns[..]), r)
      ensures totalRequests[..] == Counted(old(totalRequests[..]), r)
    {
      if closed {
        return NoHealthyBackends;
      }
      var idxs := Candidates(backends);
      if |idxs| == 0 {
        return NoHealthyBackends;
      }
      ChoosesLeast(backends, activeConns[..]);
      var selected := idxs[0];
      if |idxs| > 1 {
        selected := FewestConnections(idxs);
      }
      Open(selected);
      r := Chosen(selected);
    }

    method Open(i: nat)
      requires Valid() && i < |backends|
      modifies activeConns, totalRequests
      ensures activeConns[..] == Opened(old(activeConns[..]), Chosen(i))
      ensures totalRequests[..] == Counted(old(totalRequests[..]), Chosen(i))
    {
      activeConns[i] := Int32.Wrap(activeConns[i] + 1);
      totalRequests[i] := totalRequests[i] + 1;
    }

    method FewestConnections(idxs: seq<nat>) returns (m: nat)
      requires InRange(idxs, activeConns.Length) && idxs != []
      ensures m == ArgMin(activeConns[..], idxs)
    {
      m := idxs[0];
      var fewest := activeConns[m];
      for k := 1 to |idxs|
        invariant m < activeConns.Length && m == ArgMin(activeConns[..], idxs[..k])
        invariant fewest == activeConns[m]
      {
        assert idxs[..k + 1][..k] == idxs[..k];
        if activeConns[idxs[k]] < fewest {
          fewest := activeConns[idxs[k]];
          m := idxs[k];
        }
      }
      assert idxs[..|idxs|] == idxs;
    }

    method ReportResult(url: string)
      requires Valid()
      modifies activeConns
      ensures Valid()
      ensures activeConns[..] == Reported(backends, old(activeConns[..]), url)
    {
      var i := FindUrl(backends, url);
      if i < |backends| && activeConns[i] > 0 {
        activeConns[i] := activeConns[i] - 1;
      }
    }

    method UpdateBackendState(url: string, s: BackendState)
      requires Valid()
      modifies `backends
      ensures Valid() && backends == WithState(old(backends), url, s)
    {
      var i := FindUrl(backends, url);
      if i < |backends| {
        backends := backends[i := backends[i].(state := s)];
      }
    }
  }

  /** The connection counts after a result for the backend with this URL is reported. */
  function Reported(bs: seq<Backend>, conns: seq<int>, url: string): (r: seq<int>)
    requires |bs| == |conns|
    ensures |r| == |conns|
  {
    var i := IndexOfUrl(bs, url);
    if i < |bs| && conns[i] > 0 then conns[i := conns[i] - 1] else conns
  }

  // ----- even spreading

  /** NextBackend over fixed backends with no completions, as a rule. */
  function Least(bs: seq<Backend>): Rule {
    (c: seq<int>) =>
      if |c| == |bs| && Selectable(bs) != [] then Next(c, Choose(bs, false, c)) else Selection(c, -1)
  }

  function Next(c: seq<int>, r: Outcome): Selection
    requires r.Chosen? ==> r.index < |c|
  {
    if r.Chosen? then OpenAt(c, r.index) else Selection(c, -1)
  }

  function OpenAt(c: seq<int>, i: nat): Selection
    requires i < |c|
  {
    Selection(Opened(c, Chosen(i)), i)
  }

  /** The first r candidates hold q + 1 connections, the others q. */
  ghost predicate Dealt(c: seq<int>, idxs: seq<nat>, q: nat, r: nat) {
    && Increasing(idxs, |c|) && r < |idxs|
    && forall j :: 0 <= j < |idxs| ==> c[idxs[j]] == if j < r then q + 1 else q
  }

  lemma DealtArgMin(c: seq<int>, idxs: seq<nat>, q: nat, r: nat)
    requires Dealt(c, idxs, q, r)
    ensures ArgMin(c, idxs) == idxs[r]
  {
  }

  /** A rule that deals round the candidates among n backends. */
  ghost predicate Deals(step: Rule, n: nat, idxs: seq<nat>) {
    forall c, q: nat, r: nat :: |c| == n && Dealt(c, idxs, q, r) && q < Int32.MAX ==>
      step(c) == OpenAt(c, idxs[r])
  }

  lemma {:induction false} LeastDeals(bs: seq<Backend>)
    requires Selectable(bs) != []
    ensures Deals(Least(bs), |bs|, Selectable(bs))
  {
    var idxs := Selectable(bs);
    forall c, q: nat, r: nat | |c| == |bs| && Dealt(c, idxs, q, r) && q < Int32.MAX
      ensures Least(bs)(c) == OpenAt(c, idxs[r])
    {
      DealtArgMin(c, idxs, q, r);
    }
  }

  lemma {:induction false} RunDealt(step: Rule, size: nat, idxs: seq<nat>, k: nat, q: nat, r: nat)
    requires Deals(step, size, idxs) && Increasing(idxs, size)
    requires r < |idxs| && q < Int32.MAX && k == |idxs| * q + r
    ensures |Run(step, Zeros(size), k)| == size && Dealt(Run(step, Zeros(size), k), idxs, q, r)
  {
    if k == 0 {
      assert q == 0 && r == 0 by { MulSign(|idxs|, q); }
    } else {
      var q', r' := Previous(|idxs|, k, q, r);
      RunDealt(step, size, idxs, k - 1, q', r');
    }
  }

  lemma {:induction false} Previous(n: nat, k: nat, q: nat, r: nat) returns (q': nat, r': nat)
    requires k == n * q + r && r < n && k > 0
    ensures r' < n && k - 1 == n * q' + r'
    ensures if r > 0 then q' == q && r' == r - 1 else q' == q - 1 && r' == n - 1
  {
    if r > 0 {
      q', r' := q, r - 1;
    } else {
      assert q > 0 by { assert q == 0 ==> n * q == 0; }
      q', r' := q - 1, n - 1;
      assert n * q == n * q' + n;
    }
  }

  lemma {:induction false} CountDealt(step: Rule, size: nat, idxs: seq<nat>, k: nat, q: nat, r: nat, j: nat)
    requires Deals(step, size, idxs) && Increasing(idxs, size)
    requires r < |idxs| && q < Int32.MAX && k == |idxs| * q + r && j < |idxs|
    ensures Count(Picks(step, Zeros(size)), 0, k, idxs[j]) == if j < r then q + 1 else q
  {
    if k == 0 {
      assert q == 0 && r == 0 by { MulSign(|idxs|, q); }
    } else {
      var q', r' := Previous(|idxs|, k, q, r);
      CountDealt(step, size, idxs, k - 1, q', r', j);
      RunDealt(step, size, idxs, k - 1, q', r');
      CountNext(Picks(step, Zeros(size)), k, idxs, j, r');
    }
  }

  lemma CountNext(pick: nat -> int, k: nat, idxs: seq<nat>, j: nat, r: nat)
    requires k > 0 && j < |idxs| && r < |idxs| && Increasing(idxs, idxs[|idxs| - 1] + 1)
    requires pick(k - 1) == idxs[r]
    ensures Count(pick, 0, k, idxs[j]) == Count(pick, 0, k - 1, idxs[j]) + if j == r then 1 else 0
  {
  }

  /** Even spreading: of the first k selections of a new balancer, each candidate receives the
      floor of k/n, or one more when its position is below k mod n. */
  lemma {:induction false} EvenSpreading(bs: seq<Backend>, k: nat, j: nat)
    requires j < |Selectable(bs)| && k / |Selectable(bs)| < Int32.MAX
    ensures var n := |Selectable(bs)|;
      Count(Picks(Least(bs), Zeros(|bs|)), 0, k, Selectable(bs)[j]) == k / n + if j < k % n then 1 else 0
  {
    LeastDeals(bs);
    SharesDealt(Least(bs), |bs|, Selectable(bs), k, j);
  }

  lemma {:induction false} SharesDealt(step: Rule, size: nat, idxs: seq<nat>, k: nat, j: nat)
    requires Deals(step, size, idxs) && Increasing(idxs, size) && j < |idxs| && k / |idxs| < Int32.MAX
    ensures Count(Picks(step, Zeros(size)), 0, k, idxs[j])
            == k / |idxs| + if j < k % |idxs| then 1 else 0
  {
    CountDealt(step, size, idxs, k, k / |idxs|, k % |idxs|, j);
  }
}
