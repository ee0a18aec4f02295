/** Concurrent forwards over a least-connections balancer: every interleaving of their atomic
    balancer calls keeps the connection ledger (enhanced_service.go, least_connections.go). */
module Ledger {
  import opened Sums
  import opened Backends
  import opened LeastConnections
  import Int32

  /** How far an attempt has come with the backend it holds. */
  datatype Stage = Selected | Built | Answered

  datatype Phase = Idle | Holding(index: nat, stage: Stage)

  datatype System = System(backends: seq<Backend>, conns: seq<int>, totals: seq<int>, phases: seq<Phase>)

  /** `Advance(p, ok, seen)` lets forward p take its next step, with a good or a bad outcome. A
      selection is made among the candidates of `seen`, the backends as some earlier moment
      showed them: the code collects candidates before it locks the counts. A closed balancer
      is one that shows no candidates. */
  datatype Event = Advance(p: nat, ok: bool, seen: seq<Backend>) | Update(url: string, state: BackendState)

  datatype Call = NoCall | Selects(index: nat) | Reports(index: nat)

  /** The balancer call made by forward p's next step: selectBackend when idle; otherwise every
      failure of createBackendRequest and executeBackendRequest, and every response, reports. */
  function CallOf(s: System, ev: Event): Call {
    if !ev.Advance? || ev.p >= |s.phases| then NoCall else
      match s.phases[ev.p]
      case Idle =>
        if |ev.seen| != |s.conns| then NoCall else
          var r := Choose(ev.seen, false, s.conns);
          if r.Chosen? then Selects(r.index) else NoCall
      case Holding(i, stage) =>
        if !ev.ok || stage == Answered then Reports(i) else NoCall
  }

  function NextPhase(ph: Phase, call: Call): Phase {
    match call
    case Selects(i) => Holding(i, Selected)
    case Reports(_) => Idle
    case NoCall =>
      if ph.Holding? then ph.(stage := if ph.stage == Selected then Built else Answered) else Idle
  }

  predicate Shaped(s: System) {
    && |s.backends| == |s.conns| == |s.totals|
    && forall p :: 0 <= p < |s.phases| && s.phases[p].Holding? ==> s.phases[p].index < |s.backends|
  }

  function Step(s: System, ev: Event): (r: System)
    requires Shaped(s)
    ensures Shaped(r) && |r.backends| == |s.backends| && |r.phases| == |s.phases|
  {
    match ev
    case Update(url, state) => s.(backends := WithState(s.backends, url, state))
    case Advance(p, _, _) =>
      if p >= |s.phases| then s else
        var call := CallOf(s, ev);
        var s' := s.(phases := s.phases[p := NextPhase(s.phases[p], call)]);
        match call
        case NoCall => s'
        case Selects(i) =>
          s'.(conns := Opened(s.conns, Chosen(i)), totals := Counted(s.totals, Chosen(i)))
        case Reports(i) =>
          s'.(conns := Reported(s.backends, s.conns, s.backends[i].url))
  }

  function Start(bs: seq<Backend>, forwards: nat): System {
    System(bs, Zeros(|bs|), Zeros(|bs|), seq(forwards, _ => Idle))
  }

  function Run(s: System, evs: seq<Event>): (r: System)
    requires Shaped(s)
    ensures Shaped(r) && |r.backends| == |s.backends| && |r.phases| == |s.phases|
  {
    if evs == [] then s else Step(Run(s, evs[..|evs| - 1]), evs[|evs| - 1])
  }

  // ----- the ledger

  function Holds(ph: Phase, i: nat): int {
    if ph.Holding? && ph.index == i then 1 else 0
  }

  function HoldsAll(phases: seq<Phase>, i: nat): (r: seq<int>)
    ensures |r| == |phases| && forall p :: 0 <= p < |r| ==> r[p] == Holds(phases[p], i)
  {
    seq(|phases|, p requires 0 <= p < |phases| => Holds(phases[p], i))
  }

  /** Attempts in flight on backend i. */
  function InFlight(phases: seq<Phase>, i: nat): int {
    Sum(HoldsAll(phases, i))
  }

  lemma {:induction false} InFlightUpdate(phases: seq<Phase>, p: nat, ph: Phase, i: nat)
    requires p < |phases|
    ensures InFlight(phases[p := ph], i) == InFlight(phases, i) - Holds(phases[p], i) + Holds(ph, i)
  {
    assert HoldsAll(phases[p := ph], i) == HoldsAll(phases, i)[p := Holds(ph, i)];
    SumUpdate(HoldsAll(phases, i), p, Holds(ph, i));
  }

  lemma {:induction false} InFlightBounds(phases: seq<Phase>, i: nat, p: nat)
    requires p < |phases|
    ensures Holds(phases[p], i) <= InFlight(phases, i) <= |phases| - 1 + Holds(phases[p], i)
  {
    var h := HoldsAll(phases, i);
    SumAtLeast(h, 0, p);
    SumAtMostOne(h, p);
  }

  lemma {:induction false} SumAtMostOne(h: seq<int>, p: nat)
    requires p < |h| && forall k :: 0 <= k < |h| ==> h[k] <= 1
    ensures Sum(h) <= |h| - 1 + h[p]
  {
    var n := |h| - 1;
    if n > 0 {
      SumAtMostOne(h[..n], if p < n then p else 0);
    }
  }

  /** Distinct URLs, and every connection count equals the attempts in flight. */
  ghost predicate Consistent(s: System) {
    && Shaped(s) && DistinctUrls(s.backends) && |s.phases| <= Int32.MAX
    && forall i :: 0 <= i < |s.conns| ==> s.conns[i] == InFlight(s.phases, i)
  }

  lemma OwnIndex(bs: seq<Backend>, i: nat)
    requires DistinctUrls(bs) && i < |bs|
    ensures IndexOfUrl(bs, bs[i].url) == i
  {
  }

  /** In a consistent system the `> 0` guard never suppresses the decrement of a report. */
  lemma {:induction false} ReportIsBooked(s: System, ev: Event)
    requires Consistent(s) && CallOf(s, ev).Reports?
    ensures CallOf(s, ev).index < |s.conns|
    ensures var i := CallOf(s, ev).index;
      s.conns[i] > 0 && Step(s, ev).conns == s.conns[i := s.conns[i] - 1]
  {
    var i := CallOf(s, ev).index;
    OwnIndex(s.backends, i);
    InFlightBounds(s.phases, i, ev.p);
  }

  lemma {:induction false} ConsistentStep(s: System, ev: Event)
    requires Consistent(s)
    ensures Consistent(Step(s, ev))
  {
    var s' := Step(s, ev);
    if ev.Advance? && ev.p < |s.phases| {
      var call := CallOf(s, ev);
      var ph := NextPhase(s.phases[ev.p], call);
      assert s'.phases == s.phases[ev.p := ph];
      if call.Reports? {
        ReportIsBooked(s, ev);
      }
      forall i | 0 <= i < |s.conns|
        ensures s'.conns[i] == InFlight(s'.phases, i)
      {
        InFlightUpdate(s.phases, ev.p, ph, i);
        InFlightBounds(s.phases, i, ev.p);
      }
    }
  }

  /** Calls of one kind made in a run. */
  function CallCount(s: System, evs: seq<Event>, call: Call): nat
    requires Shaped(s)
  {
    if evs == [] then 0 else
      var rest := evs[..|evs| - 1];
      CallCount(s, rest, call) + if CallOf(Run(s, rest), evs[|evs| - 1]) == call then 1 else 0
  }

  lemma {:induction false} TotalsStep(s: System, ev: Event, i: nat)
    requires Consistent(s) && i < |s.totals|
    ensures Step(s, ev).totals[i] == s.totals[i] + if CallOf(s, ev) == Selects(i) then 1 else 0
    ensures Step(s, ev).conns[i] == s.conns[i]
      + (if CallOf(s, ev) == Selects(i) then 1 else 0) - (if CallOf(s, ev) == Reports(i) then 1 else 0)
  {
    if CallOf(s, ev).Reports? {
      ReportIsBooked(s, ev);
    }
    if CallOf(s, ev) == Selects(i) {
      InFlightBounds(s.phases, i, ev.p);
    }
  }

  /** Connection ledger: in every interleaving of forwards and state updates, the active
      connections of a backend are its attempts in flight, its total counts its
      selections, and selections exceed reports by exactly the attempts in flight. */
  lemma {:induction false} LedgerBalances(bs: seq<Backend>, forwards: nat, evs: seq<Event>, i: nat)
    requires DistinctUrls(bs) && forwards <= Int32.MAX && i < |bs|
    ensures Shaped(Start(bs, forwards))
    ensures Consistent(Run(Start(bs, forwards), evs))
    ensures var s0, s := Start(bs, forwards), Run(Start(bs, forwards), evs);
      && s.conns[i] == InFlight(s.phases, i)
      && s.totals[i] == CallCount(s0, evs, Selects(i))
      && CallCount(s0, evs, Selects(i)) == CallCount(s0, evs, Reports(i)) + InFlight(s.phases, i)
  {
    var s0 := Start(bs, forwards);
    if evs == [] {
      forall j | 0 <= j < |bs|
        ensures InFlight(s0.phases, j) == 0
      {
        assert HoldsAll(s0.phases, j) == Zeros(forwards);
        SumZeros(forwards);
      }
    } else {
      var rest, last := evs[..|evs| - 1], evs[|evs| - 1];
      LedgerBalances(bs, forwards, rest, i);
      ConsistentStep(Run(s0, rest), last);
      TotalsStep(Run(s0, rest), last, i);
    }
  }

  /** A forward that has come to rest has reported exactly what it selected: when every forward
      is idle, all connection counts are zero. */
  lemma {:induction false} QuiescentIsZero(bs: seq<Backend>, forwards: nat, evs: seq<Event>, i: nat)
    requires DistinctUrls(bs) && forwards <= Int32.MAX && i < |bs| && Shaped(Start(bs, forwards))
    requires forall p :: 0 <= p < forwards ==> Run(Start(bs, forwards), evs).phases[p] == Idle
    ensures Run(Start(bs, forwards), evs).conns[i] == 0
  {
    LedgerBalances(bs, forwards, evs, i);
    var s := Run(Start(bs, forwards), evs);
    assert HoldsAll(s.phases, i) == Zeros(forwards);
    SumZeros(forwards);
  }

  /** Progress: an idle forward that sees a candidate selects the least loaded one and holds it. */
  lemma {:induction false} IdleSelects(s: System, p: nat, ok: bool, seen: seq<Backend>)
    requires Consistent(s) && p < |s.phases| && s.phases[p] == Idle
    requires |seen| == |s.conns| && Selectable(seen) != []
    ensures var ev := Advance(p, ok, seen);
      && CallOf(s, ev).Selects? && LeastLoaded(seen, s.conns, CallOf(s, ev).index)
      && Step(s, ev).phases == s.phases[p := Holding(CallOf(s, ev).index, Selected)]
      && Step(s, ev).conns == s.conns[CallOf(s, ev).index := s.conns[CallOf(s, ev).index] + 1]
  {
    ChoosesLeast(seen, s.conns);
    var i := Choose(seen, false, s.conns).index;
    assert CallOf(s, Advance(p, ok, seen)) == Selects(i);
    SelectStep(s, p, ok, seen, i);
  }

  lemma {:induction false} SelectStep(s: System, p: nat, ok: bool, seen: seq<Backend>, i: nat)
    requires Consistent(s) && p < |s.phases| && s.phases[p] == Idle && i < |s.conns|
    requires CallOf(s, Advance(p, ok, seen)) == Selects(i)
    ensures var s' := Step(s, Advance(p, ok, seen));
      && s'.phases == s.phases[p := Holding(i, Selected)]
      && s'.conns == s.conns[i := s.conns[i] + 1]
  {
    InFlightBounds(s.phases, i, p);
  }

  /** A forward that holds a backend reports it within three steps of its own, at once when a
      step fails. */
  lemma {:induction false} HolderReports(s: System, p: nat, a: Event, b: Event, c: Event)
    requires Shaped(s) && p < |s.phases| && s.phases[p].Holding?
    requires a.Advance? && b.Advance? && c.Advance? && a.p == b.p == c.p == p
    ensures var i := s.phases[p].index;
      || CallOf(s, a) == Reports(i)
      || CallOf(Step(s, a), b) == Reports(i)
      || CallOf(Step(Step(s, a), b), c) == Reports(i)
    ensures !a.ok ==> CallOf(s, a) == Reports(s.phases[p].index) && Step(s, a).phases[p] == Idle
  {
    var s1 := Step(s, a);
    if CallOf(s, a) == NoCall {
      assert s1.phases[p] == NextPhase(s.phases[p], NoCall);
    }
  }

  /** Exactly when a report is booked on the backend it is about: no earlier backend shares its
      URL. */
  lemma {:induction false} BookedIff(bs: seq<Backend>, conns: seq<int>, i: nat)
    requires |bs| == |conns| && i < |bs| && conns[i] > 0
    ensures Reported(bs, conns, bs[i].url) == conns[i := conns[i] - 1]
            <==> forall j :: 0 <= j < i ==> bs[j].url != bs[i].url
  {
    var r, j := Reported(bs, conns, bs[i].url), IndexOfUrl(bs, bs[i].url);
    if j != i {
      assert r[i] == conns[i];
    }
  }
}
