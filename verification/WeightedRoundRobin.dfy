/** Smooth weighted round-robin (internal/services/loadbalancer/weighted_round_robin.go).

    `Step` is the algorithm over unbounded integers, `Step32` the same step as the Go code
    runs it, with its `int32` guards and wrap-around; `WeightedBalancer` is the object. */
module WeightedRoundRobin {
  import opened Sums
  import opened Schedules
  import opened Backends
  import Int32

  const DEFAULT_WEIGHT := 1

  // ----- one selection over unbounded integers

  /** Weights of the selected backends, zero elsewhere. */
  function Effective(w: seq<int>, idxs: seq<nat>): (e: seq<int>)
    requires InRange(idxs, |w|)
    ensures |e| == |w|
  {
    if idxs == [] then Zeros(|w|) else
      var k := |idxs| - 1;
      Effective(w, idxs[..k])[idxs[k] := w[idxs[k]]]
  }

  function Bumped(w: seq<int>, cur: seq<int>, idxs: seq<nat>): seq<int>
    requires |w| == |cur| && InRange(idxs, |w|)
  {
    Plus(cur, Effective(w, idxs))
  }

  /** The first backend of largest value among those above -1; -1 when there is none. */
  function Pick(v: seq<int>, idxs: seq<nat>): (b: int)
    requires InRange(idxs, |v|)
    ensures -1 <= b < |v|
  {
    if idxs == [] then -1 else
      var k := |idxs| - 1;
      var b := Pick(v, idxs[..k]);
      var best := if b == -1 then -1 else v[b];
      if v[idxs[k]] > best then idxs[k] as int else b
  }

  /** One selection over the weights e of the candidates idxs. */
  function StepOn(e: seq<int>, cur: seq<int>, idxs: seq<nat>): (r: Selection)
    requires |e| == |cur| && InRange(idxs, |e|)
    ensures |r.cur| == |cur| && -1 <= r.best < |cur|
  {
    var v := Plus(cur, e);
    var b := Pick(v, idxs);
    Selection(Charge(v, b, Sum(e)), b)
  }

  function Step(w: seq<int>, cur: seq<int>, idxs: seq<nat>): (r: Selection)
    requires |w| == |cur| && InRange(idxs, |w|)
    ensures |r.cur| == |cur| && -1 <= r.best < |cur|
  {
    StepOn(Effective(w, idxs), cur, idxs)
  }

  /** The winner pays the total weight. */
  function Charge(v: seq<int>, b: int, total: int): (r: seq<int>)
    requires -1 <= b < |v|
    ensures |r| == |v|
  {
    if b == -1 then v else v[b := v[b] - total]
  }

  // ----- the same selection in the code's arithmetic

  /** An addition of the code: guarded against overflow by falling back to the default
      weight, which at the very top still wraps. */
  function Add32(x: int, weight: int): (r: int)
    ensures Int32.Fits(r)
    ensures Int32.Fits(x + weight) && x + weight <= Int32.MAX ==> r == x + weight
  {
    Int32.Wrap(x + if x > Int32.MAX - weight then DEFAULT_WEIGHT else weight)
  }

  /** The code's first loop. A weight that does not convert to int32 is skipped. */
  function Total32(w: seq<int>, idxs: seq<nat>): int
    requires InRange(idxs, |w|)
  {
    if idxs == [] then 0 else
      var k := |idxs| - 1;
      var t := Total32(w, idxs[..k]);
      if w[idxs[k]] > Int32.MAX then t else Add32(t, w[idxs[k]])
  }

  /** The code's second loop: bump every selected weight, remember the first largest. */
  function Scan32(w: seq<int>, cur: seq<int>, idxs: seq<nat>): (r: Selection)
    requires |w| == |cur| && InRange(idxs, |w|)
    ensures |r.cur| == |cur| && -1 <= r.best < |cur|
  {
    if idxs == [] then Selection(cur, -1) else
      var k := |idxs| - 1;
      var s, i := Scan32(w, cur, idxs[..k]), idxs[k];
      if w[i] > Int32.MAX then s else
        var c := Add32(s.cur[i], w[i]);
        var best := if s.best == -1 then -1 else s.cur[s.best];
        Selection(s.cur[i := c], if c > best then i else s.best)
  }

  function Step32(w: seq<int>, cur: seq<int>, idxs: seq<nat>): (r: Selection)
    requires |w| == |cur| && InRange(idxs, |w|)
    ensures |r.cur| == |cur| && -1 <= r.best < |cur|
  {
    Charge32(Scan32(w, cur, idxs), Total32(w, idxs))
  }

  function Charge32(s: Selection, total: int): (r: Selection)
    requires -1 <= s.best < |s.cur|
    ensures |r.cur| == |s.cur| && r.best == s.best
  {
    if s.best == -1 then s else s.(cur := s.cur[s.best := Int32.Wrap(s.cur[s.best] - total)])
  }

  // ----- the balancer object

  /** What NextBackend does among candidates: a single one is taken as it is. */
  function Turn(w: seq<int>, cur: seq<int>, idxs: seq<nat>): (r: Selection)
    requires |w| == |cur| && InRange(idxs, |w|) && idxs != []
    ensures |r.cur| == |cur| && -1 <= r.best < |cur|
  {
    if |idxs| == 1 then Selection(cur, idxs[0]) else Step32(w, cur, idxs)
  }

  function ConfiguredWeight(weight: int): int {
    if weight <= 0 then DEFAULT_WEIGHT else weight
  }

  function ConfiguredWeights(bs: seq<Backend>): (w: seq<int>)
    ensures |w| == |bs| && forall i :: 0 <= i < |bs| ==> w[i] >= 1
  {
    seq(|bs|, i requires 0 <= i < |bs| => ConfiguredWeight(bs[i].weight))
  }

  class WeightedBalancer {
    var backends: seq<Backend>
    const weights: seq<int>
    const totalWeight: int
    const currentWeights: array<int>
    var closed: bool

    ghost predicate Valid()
      reads this
    {
      |backends| == |weights| == currentWeights.Length
    }

    constructor (bs: seq<Backend>)
      ensures Valid() && fresh(currentWeights)
      ensures backends == bs && weights == ConfiguredWeights(bs) && !closed
      ensures currentWeights[..] == Zeros(|bs|)
      ensures Sum(weights) <= Int32.MAX ==> totalWeight == Sum(weights)
    {
      var ws, total := [], 0;
      for i := 0 to |bs|
        invariant ws == ConfiguredWeights(bs[..i])
        invariant Sum(ws) <= Int32.MAX ==> 0 <= total == Sum(ws)
      {
        var weight := if bs[i].weight <= 0 then DEFAULT_WEIGHT else bs[i].weight;
        assert (ws + [weight])[..i] == ws;
        ws := ws + [weight];
        total := Add32(total, if weight > Int32.MAX then DEFAULT_WEIGHT else weight);
      }
      assert bs[..|bs|] == bs;
      backends := bs;
      weights := ws;
      totalWeight := total;
      currentWeights := new int[|bs|](_ => 0);
      closed := false;
    }

    method NextBackend() returns (r: Outcome)
      requires Valid()
      modifies currentWeights
      ensures Valid()
      ensures r == NoHealthyBackends <==> closed || Selectable(backends) == []
      ensures r.Chosen? ==> r.index in Selectable(backends)
      ensures r == NoHealthyBackends ==> currentWeights[..] == old(currentWeights[..])
      ensures !closed && Selectable(backends) != [] ==>
        var s := Turn(weights, old(currentWeights[..]), Selectable(backends));
        && currentWeights[..] == s.cur
        && r == if s.best == -1 then Crashed else Chosen(s.best)
    {
      if closed {
        return NoHealthyBackends;
      }
      var idxs := Candidates(backends);
      if |idxs| == 0 {
        return NoHealthyBackends;
      }
      if |idxs| == 1 {
        return Chosen(idxs[0]);
      }
      var best := SelectByWeight(idxs);
      r := if best == -1 then Crashed else Chosen(best);
    }

    method SelectByWeight(idxs: seq<nat>) returns (best: int)
      requires Valid() && Increasing(idxs, |weights|)
      modifies currentWeights
      ensures Valid()
      ensures var s := Step32(weights, old(currentWeights[..]), idxs);
        currentWeights[..] == s.cur && best == s.best
      ensures best == -1 || best in idxs
    {
      var total := HealthyWeight(idxs);
      best := BumpAndFind(idxs);
      if best != -1 {
        currentWeights[best] := Int32.Wrap(currentWeights[best] - total);
      }
    }

    method HealthyWeight(idxs: seq<nat>) returns (total: int)
      requires InRange(idxs, |weights|)
      ensures total == Total32(weights, idxs)
    {
      total := 0;
      for k := 0 to |idxs|
        invariant total == Total32(weights, idxs[..k])
      {
        assert idxs[..k + 1][..k] == idxs[..k];
        if weights[idxs[k]] > Int32.MAX {
          continue;
        }
        total := Add32(total, weights[idxs[k]]);
      }
      assert idxs[..|idxs|] == idxs;
    }

    method BumpAndFind(idxs: seq<nat>) returns (best: int)
      requires Valid() && Increasing(idxs, |weights|)
      modifies currentWeights
      ensures Valid()
      ensures Selection(currentWeights[..], best) == Scan32(weights, old(currentWeights[..]), idxs)
      ensures best == -1 || best in idxs
    {
      best := -1;
      var maxCurrent := -1;
      for k := 0 to |idxs|
        invariant Selection(currentWeights[..], best) == Scan32(weights, old(currentWeights[..]), idxs[..k])
        invariant -1 <= best < currentWeights.Length && (best == -1 || best in idxs[..k])
        invariant maxCurrent == if best == -1 then -1 else currentWeights[best]
      {
        assert idxs[..k + 1][..k] == idxs[..k];
        var i := idxs[k];
        if weights[i] > Int32.MAX {
          continue;
        }
        currentWeights[i] := Add32(currentWeights[i], weights[i]);
        if currentWeights[i] > maxCurrent {
          maxCurrent := currentWeights[i];
          best := i;
        }
      }
      assert idxs[..|idxs|] == idxs;
    }

    method UpdateBackendState(url: string, s: BackendState)
      requires Valid()
      modifies `backends
      ensures Valid() && backends == WithState(old(backends), url, s)
    {
      var i := FindUrl(backends, url);
      if i < |backends| {
        backends := backends[i := backends[i].(state := s)];
      }
    }

    method Close()
      modifies `closed
      ensures closed
    {
      closed := true;
    }
  }

  lemma {:induction false} PickMember(v: seq<int>, idxs: seq<nat>)
    requires InRange(idxs, |v|)
    ensures Pick(v, idxs) != -1 ==> Pick(v, idxs) in idxs
  {
    if idxs != [] {
      PickMember(v, idxs[..|idxs| - 1]);
    }
  }

  lemma {:induction false} PickAgrees(v: seq<int>, v': seq<int>, idxs: seq<nat>)
    requires |v| == |v'| && InRange(idxs, |v|)
    requires forall k :: 0 <= k < |idxs| ==> v[idxs[k]] == v'[idxs[k]]
    ensures Pick(v, idxs) == Pick(v', idxs)
  {
    if idxs != [] {
      PickAgrees(v, v', idxs[..|idxs| - 1]);
      PickMember(v, idxs[..|idxs| - 1]);
    }
  }

  lemma {:induction false} EffectiveAt(w: seq<int>, idxs: seq<nat>, i: nat)
    requires InRange(idxs, |w|) && i < |w|
    ensures Effective(w, idxs)[i] == if i in idxs then w[i] else 0
  {
    if idxs != [] {
      EffectiveAt(w, idxs[..|idxs| - 1], i);
    }
  }

  /** b is the first index of largest value among the candidates above -1, or -1 when there
      is no such candidate. */
  ghost predicate IsFirstMax(v: seq<int>, idxs: seq<nat>, b: int)
    requires InRange(idxs, |v|)
  {
    if b == -1 then
      forall k :: 0 <= k < |idxs| ==> v[idxs[k]] <= -1
    else
      && b in idxs && v[b] > -1
      && forall k :: 0 <= k < |idxs| ==> v[idxs[k]] < v[b] || (v[idxs[k]] == v[b] && b <= idxs[k])
  }

  lemma {:induction false} PickIsFirstMax(v: seq<int>, idxs: seq<nat>)
    requires Increasing(idxs, |v|)
    ensures IsFirstMax(v, idxs, Pick(v, idxs))
  {
    if idxs != [] {
      var k := |idxs| - 1;
      PickIsFirstMax(v, idxs[..k]);
      var b := Pick(v, idxs[..k]);
      assert b != -1 ==> b in idxs[..k];
    }
  }
}
