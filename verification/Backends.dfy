/** Upstream backends, their states, and which of them a balancer may choose. */
module Backends {

  datatype BackendState = Healthy | Unhealthy | RateLimited | Maintenance
  {
    predicate IsAvailable() {
      this == Healthy
    }

    predicate IsAvailableWithFallback() {
      this == Healthy || this == RateLimited
    }
  }

  datatype Backend = Backend(url: string, weight: int, state: BackendState)

  /** What NextBackend returns. `Crashed` is an index-out-of-range panic. */
  datatype Outcome = Chosen(index: nat) | NoHealthyBackends | Crashed

  predicate InRange(idxs: seq<nat>, n: nat) {
    forall k :: 0 <= k < |idxs| ==> idxs[k] < n
  }

  predicate Increasing(idxs: seq<nat>, n: nat) {
    && InRange(idxs, n)
    && (forall j, k :: 0 <= j < k < |idxs| ==> idxs[j] < idxs[k])
  }

  ghost predicate DistinctUrls(bs: seq<Backend>) {
    forall i, j :: 0 <= i < j < |bs| ==> bs[i].url != bs[j].url
  }

  /** Indices of the backends whose state satisfies a test, in order. */
  function IndicesOf(bs: seq<Backend>, test: BackendState -> bool): (r: seq<nat>)
    ensures Increasing(r, |bs|)
    ensures forall i :: 0 <= i < |bs| ==> (i in r <==> test(bs[i].state))
  {
    if bs == [] then [] else
      var n := |bs| - 1;
      var rest := IndicesOf(bs[..n], test);
      assert forall i :: 0 <= i < n ==> bs[..n][i] == bs[i];
      if test(bs[n].state) then rest + [n] else rest
  }

  const HealthyTest: BackendState -> bool := (s: BackendState) => s.IsAvailable()
  const FallbackTest: BackendState -> bool :=
    (s: BackendState) => s.IsAvailableWithFallback() && !s.IsAvailable()

  /** The candidates of every strategy: the healthy backends or, when there are none, the
      rate-limited ones. */
  function Selectable(bs: seq<Backend>): (r: seq<nat>)
    ensures Increasing(r, |bs|)
    ensures forall i :: i in r ==> bs[i].state == Healthy || bs[i].state == RateLimited
    ensures forall i :: 0 <= i < |bs| && bs[i].state == Healthy ==> i in r
    ensures forall i :: 0 <= i < |bs| && bs[i].state == RateLimited ==>
      (i in r <==> forall j :: 0 <= j < |bs| ==> bs[j].state != Healthy)
    ensures r == [] <==> forall i :: 0 <= i < |bs| ==> bs[i].state != Healthy && bs[i].state != RateLimited
  {
    var healthy := IndicesOf(bs, HealthyTest);
    if healthy != [] then
      assert healthy[0] in healthy;
      healthy
    else
      var fallback := IndicesOf(bs, FallbackTest);
      assert fallback != [] ==> fallback[0] in fallback;
      fallback
  }

  /** Position of the first backend with the given URL, or the length when there is none. */
  function IndexOfUrl(bs: seq<Backend>, url: string): (i: nat)
    ensures i <= |bs|
    ensures i < |bs| ==> bs[i].url == url
    ensures forall j :: 0 <= j < i ==> bs[j].url != url
  {
    if bs == [] || bs[0].url == url then 0 else 1 + IndexOfUrl(bs[1..], url)
  }

  /** What every balancer's UpdateBackendState does: the first backend with the URL gets the
      new state, an unknown URL changes nothing. */
  function WithState(bs: seq<Backend>, url: string, s: BackendState): (r: seq<Backend>)
    ensures |r| == |bs|
    ensures forall i :: 0 <= i < |bs| ==> r[i].url == bs[i].url && r[i].weight == bs[i].weight
    ensures forall i :: 0 <= i < |bs| ==>
      r[i].state == if i == IndexOfUrl(bs, url) then s else bs[i].state
  {
    var i := IndexOfUrl(bs, url);
    if i < |bs| then bs[i := bs[i].(state := s)] else bs
  }

  /** The filtering loop behind getHealthyBackendIndices and getFallbackBackendIndices. */
  method CollectIndices(bs: seq<Backend>, test: BackendState -> bool) returns (r: seq<nat>)
    ensures r == IndicesOf(bs, test)
  {
    r := [];
    for i := 0 to |bs|
      invariant r == IndicesOf(bs[..i], test)
    {
      assert bs[..i + 1][..i] == bs[..i];
      if test(bs[i].state) {
        r := r + [i];
      }
    }
    assert bs[..|bs|] == bs;
  }

  /** The search loop of UpdateBackendState, ReportResult and recordHealthCheck. */
  method FindUrl(bs: seq<Backend>, url: string) returns (i: nat)
    ensures i == IndexOfUrl(bs, url)
  {
    i := 0;
    while i < |bs| && bs[i].url != url
      invariant i <= |bs| && IndexOfUrl(bs, url) == i + IndexOfUrl(bs[i..], url)
    {
      i := i + 1;
    }
  }

  /** The candidate choice at the head of every NextBackend. */
  method Candidates(bs: seq<Backend>) returns (r: seq<nat>)
    ensures r == Selectable(bs)
  {
    r := CollectIndices(bs, HealthyTest);
    if |r| == 0 {
      r := CollectIndices(bs, FallbackTest);
    }
  }
}
