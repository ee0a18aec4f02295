/** The health checker's threshold machine (internal/services/health/checker.go) and its
    mirror in the load balancer (internal/services/proxy/enhanced_service.go). */
module HealthChecker {
  import opened Backends
  import opened WeightedRoundRobin

  datatype Counters = Counters(successes: nat, failures: nat, totalChecks: nat, totalFailures: nat)

  datatype Thresholds = Thresholds(healthy: int, unhealthy: int)
  {
    function For(ok: bool): int {
      if ok then healthy else unhealthy
    }
  }

  /** NewChecker's defaults. */
  function WithDefaults(healthy: int, unhealthy: int): Thresholds {
    Thresholds(if healthy == 0 then 2 else healthy, if unhealthy == 0 then 3 else unhealthy)
  }

  function Verdict(ok: bool): BackendState {
    if ok then Healthy else Unhealthy
  }

  // ----- one backend

  datatype Monitor = Monitor(c: Counters, state: BackendState)

  function Tally(c: Counters, ok: bool): Counters {
    if ok then Counters(c.successes + 1, 0, c.totalChecks + 1, c.totalFailures)
    else Counters(0, c.failures + 1, c.totalChecks + 1, c.totalFailures + 1)
  }

  /** The state after a check, given the counters that include it. */
  function Decide(th: Thresholds, c: Counters, current: BackendState, ok: bool): BackendState {
    if current == Maintenance then current
    else if ok && c.successes >= th.healthy then Healthy
    else if !ok && c.failures >= th.unhealthy then Unhealthy
    else current
  }

  function Observe(th: Thresholds, m: Monitor, ok: bool): Monitor {
    var c := Tally(m.c, ok);
    Monitor(c, Decide(th, c, m.state, ok))
  }

  const Fresh := Counters(0, 0, 0, 0)

  /** The monitor of a backend after a history of check results. */
  function After(th: Thresholds, s0: BackendState, hist: seq<bool>): Monitor {
    if hist == [] then Monitor(Fresh, s0)
    else Observe(th, After(th, s0, hist[..|hist| - 1]), hist[|hist| - 1])
  }

  // ----- what the machine computes

  /** Length of the longest suffix of results that all equal b. */
  function TrailingRun(hist: seq<bool>, b: bool): (r: nat)
    ensures r <= |hist|
    ensures forall i :: |hist| - r <= i < |hist| ==> hist[i] == b
    ensures r < |hist| ==> hist[|hist| - r - 1] != b
  {
    if hist == [] || hist[|hist| - 1] != b then 0 else 1 + TrailingRun(hist[..|hist| - 1], b)
  }

  function Failures(hist: seq<bool>): nat {
    |set i | 0 <= i < |hist| && !hist[i]|
  }

  lemma {:induction false} FailuresNext(hist: seq<bool>)
    requires hist != []
    ensures Failures(hist) == Failures(hist[..|hist| - 1]) + if hist[|hist| - 1] then 0 else 1
  {
    var k := |hist| - 1;
    var before := set i | 0 <= i < k && !hist[..k][i];
    var now := set i | 0 <= i < |hist| && !hist[i];
    if hist[k] {
      assert now == before;
    } else {
      assert now == before + {k};
    }
  }

  /** The counters are the trailing success and failure runs and the totals of the history. */
  lemma {:induction false} CountersExact(th: Thresholds, s0: BackendState, hist: seq<bool>)
    ensures After(th, s0, hist).c
            == Counters(TrailingRun(hist, true), TrailingRun(hist, false), |hist|, Failures(hist))
  {
    if hist != [] {
      CountersExact(th, s0, hist[..|hist| - 1]);
      FailuresNext(hist);
    }
  }

  /** The k-th check completes a run that reaches its threshold. */
  ghost predicate Reaches(th: Thresholds, hist: seq<bool>, k: nat)
    requires 0 < k <= |hist|
  {
    TrailingRun(hist[..k], hist[k - 1]) >= th.For(hist[k - 1])
  }

  lemma {:induction false} StateStep(th: Thresholds, s0: BackendState, hist: seq<bool>, k: nat)
    requires 0 < k <= |hist| && s0 != Maintenance && After(th, s0, hist[..k - 1]).state != Maintenance
    ensures After(th, s0, hist[..k]).state
            == if Reaches(th, hist, k) then Verdict(hist[k - 1]) else After(th, s0, hist[..k - 1]).state
    ensures After(th, s0, hist[..k]).state != Maintenance
  {
    assert hist[..k][..k - 1] == hist[..k - 1];
    CountersExact(th, s0, hist[..k]);
  }

  /** Health checks never enter or leave maintenance. */
  lemma {:induction false} MaintenanceIsManual(th: Thresholds, s0: BackendState, hist: seq<bool>)
    ensures After(th, s0, hist).state == Maintenance <==> s0 == Maintenance
  {
    if hist != [] {
      MaintenanceIsManual(th, s0, hist[..|hist| - 1]);
    }
  }

  /** The state is decided by the last run that reached its threshold: `last` is its position,
      or 0 when no run did. */
  lemma {:induction false} LastRunDecides(th: Thresholds, s0: BackendState, hist: seq<bool>, k: nat, last: nat)
    requires s0 != Maintenance && last <= k <= |hist|
    requires last > 0 ==> Reaches(th, hist, last)
    requires forall j :: last < j <= k ==> !Reaches(th, hist, j)
    ensures After(th, s0, hist[..k]).state == if last == 0 then s0 else Verdict(hist[last - 1])
  {
    if k > 0 {
      MaintenanceIsManual(th, s0, hist[..k - 1]);
      StateStep(th, s0, hist, k);
      if last < k {
        LastRunDecides(th, s0, hist, k - 1, last);
      }
    }
  }

  ghost predicate Flips(th: Thresholds, s0: BackendState, hist: seq<bool>, k: nat)
    requires 0 < k <= |hist|
  {
    After(th, s0, hist[..k]).state != After(th, s0, hist[..k - 1]).state
  }

  /** While the results agree with the verdict, the state stays. */
  lemma {:induction false} StaysPut(th: Thresholds, s0: BackendState, hist: seq<bool>, b: bool, i: nat, m: nat)
    requires i <= m <= |hist| && s0 != Maintenance
    requires After(th, s0, hist[..i]).state == Verdict(b)
    requires forall j :: i <= j < m ==> hist[j] == b
    ensures After(th, s0, hist[..m]).state == Verdict(b)
  {
    if i < m {
      StaysPut(th, s0, hist, b, i, m - 1);
      StateStep(th, s0, hist, m);
    }
  }

  /** Hysteresis: a flip comes at least its threshold in checks after any earlier flip; even,
      its whole run of agreeing checks lies after that flip. */
  lemma {:induction false} FlipSpacing(th: Thresholds, s0: BackendState, hist: seq<bool>, i: nat, j: nat)
    requires 0 < i < j <= |hist| && s0 != Maintenance
    requires Flips(th, s0, hist, i) && Flips(th, s0, hist, j)
    ensures After(th, s0, hist[..j]).state == Verdict(hist[j - 1])
    ensures j - i >= TrailingRun(hist[..j], hist[j - 1]) >= th.For(hist[j - 1])
  {
    MaintenanceIsManual(th, s0, hist[..i - 1]);
    MaintenanceIsManual(th, s0, hist[..j - 1]);
    StateStep(th, s0, hist, i);
    StateStep(th, s0, hist, j);
    var b := hist[j - 1];
    var run := TrailingRun(hist[..j], b);
    if j - i < run {
      forall x | i - 1 <= x < j
        ensures hist[x] == b
      {
        assert hist[..j][x] == b;
      }
      StaysPut(th, s0, hist, b, i, j - 1);
    }
  }

  // ----- the checker object

  datatype Change = NoChange | Changed(before: BackendState, now: BackendState)

  datatype CheckerState = CheckerState(backends: seq<Backend>, counters: map<string, Counters>)

  function Urls(bs: seq<Backend>): set<string> {
    set b | b in bs :: b.url
  }

  function Initial(bs: seq<Backend>): CheckerState {
    CheckerState(bs, map u | u in Urls(bs) :: Fresh)
  }

  /** recordHealthCheck on the checker's state. */
  function Record(th: Thresholds, st: CheckerState, url: string, ok: bool): CheckerState {
    if url !in st.counters then st else
      var c := Tally(st.counters[url], ok);
      var i := IndexOfUrl(st.backends, url);
      CheckerState(
        if i == |st.backends| then st.backends
        else WithState(st.backends, url, Decide(th, c, st.backends[i].state, ok)),
        st.counters[url := c])
  }

  class Checker {
    const th: Thresholds
    var backends: seq<Backend>
    var counters: map<string, Counters>

    ghost function State(): CheckerState
      reads this
    {
      CheckerState(backends, counters)
    }

    constructor (healthy: int, unhealthy: int, bs: seq<Backend>)
      ensures th == WithDefaults(healthy, unhealthy) && State() == Initial(bs)
    {
      th := WithDefaults(healthy, unhealthy);
      backends := bs;
      var cs: map<string, Counters> := map[];
      for i := 0 to |bs|
        invariant cs == Initial(bs[..i]).counters
      {
        assert bs[..i + 1] == bs[..i] + [bs[i]];
        cs := cs[bs[i].url := Fresh];
      }
      assert bs[..|bs|] == bs;
      counters := cs;
    }

    /** The callback is returned: `Changed` is exactly when the code notifies. */
    method RecordHealthCheck(url: string, ok: bool) returns (change: Change)
      modifies this
      ensures State() == Record(th, old(State()), url, ok)
      ensures change.Changed? <==> backends != old(backends)
      ensures change.Changed? ==>
        var i := IndexOfUrl(old(backends), url);
        && i < |old(backends)| && change.before == old(backends)[i].state != change.now
        && backends == WithState(old(backends), url, change.now)
    {
      if url !in counters {
        return NoChange;
      }
      counters := counters[url := Tally(counters[url], ok)];
      var c := counters[url];
      var i := FindUrl(backends, url);
      if i == |backends| || backends[i].state == Maintenance {
        assert i < |backends| ==> WithState(backends, url, backends[i].state) == backends;
        return NoChange;
      }
      var current := backends[i].state;
      var now := current;
      if ok && c.successes >= th.healthy {
        now := Healthy;
      } else if !ok && c.failures >= th.unhealthy {
        now := Unhealthy;
      }
      if now == current {
        assert WithState(backends, url, now) == backends;
        return NoChange;
      }
      backends := backends[i := backends[i].(state := now)];
      change := Changed(current, now);
    }
  }

  // ----- whole runs

  datatype Check = Check(url: string, ok: bool)

  function Run(th: Thresholds, bs: seq<Backend>, checks: seq<Check>): CheckerState {
    if checks == [] then Initial(bs) else
      var last := checks[|checks| - 1];
      Record(th, Run(th, bs, checks[..|checks| - 1]), last.url, last.ok)
  }

  /** The results of the checks of one URL. */
  function History(checks: seq<Check>, url: string): seq<bool> {
    if checks == [] then [] else
      var last := checks[|checks| - 1];
      History(checks[..|checks| - 1], url) + if last.url == url then [last.ok] else []
  }

  /** URLs never change, and every backend URL has counters. */
  lemma {:induction false} RunKeepsUrls(th: Thresholds, bs: seq<Backend>, checks: seq<Check>, url: string)
    ensures var st := Run(th, bs, checks);
      && |st.backends| == |bs|
      && IndexOfUrl(st.backends, url) == IndexOfUrl(bs, url)
      && (url in st.counters <==> IndexOfUrl(bs, url) < |bs|)
  {
    var i := IndexOfUrl(bs, url);
    if checks == [] {
      assert i < |bs| ==> bs[i] in bs;
    } else {
      RunKeepsUrls(th, bs, checks[..|checks| - 1], url);
      var before, st := Run(th, bs, checks[..|checks| - 1]), Run(th, bs, checks);
      assert forall j :: 0 <= j < |bs| ==> st.backends[j].url == before.backends[j].url;
      IndexByUrls(st.backends, before.backends, url);
      RunKeepsUrls(th, bs, checks[..|checks| - 1], checks[|checks| - 1].url);
    }
  }

  lemma IndexByUrls(a: seq<Backend>, b: seq<Backend>, url: string)
    requires |a| == |b| && forall j :: 0 <= j < |a| ==> a[j].url == b[j].url
    ensures IndexOfUrl(a, url) == IndexOfUrl(b, url)
  {
  }

  /** In every run, each backend is monitored by its own machine: counters and state are those
      of the history of its own checks. */
  lemma {:induction false} RunIsPerBackend(th: Thresholds, bs: seq<Backend>, checks: seq<Check>, url: string)
    requires IndexOfUrl(bs, url) < |bs|
    ensures url in Run(th, bs, checks).counters && IndexOfUrl(bs, url) < |Run(th, bs, checks).backends|
    ensures
      var i, st := IndexOfUrl(bs, url), Run(th, bs, checks);
      Monitor(st.counters[url], st.backends[i].state) == After(th, bs[i].state, History(checks, url))
  {
    RunKeepsUrls(th, bs, checks, url);
    if checks != [] {
      var rest, last := checks[..|checks| - 1], checks[|checks| - 1];
      RunIsPerBackend(th, bs, rest, url);
      RunKeepsUrls(th, bs, rest, url);
      RunKeepsUrls(th, bs, rest, last.url);
      var h := History(rest, url);
      if last.url == url {
        assert (h + [last.ok])[..|h|] == h;
      } else {
        OtherUrl(Run(th, bs, rest).backends, url, last.url);
        assert History(checks, url) == h + [] == h;
      }
    }
  }

  lemma OtherUrl(bs: seq<Backend>, url: string, other: string)
    requires url != other && IndexOfUrl(bs, url) < |bs|
    ensures IndexOfUrl(bs, url) != IndexOfUrl(bs, other)
  {
  }

  // ----- the configured thresholds

  function Repeat(b: bool, n: nat): seq<bool> {
    seq(n, _ => b)
  }

  lemma {:induction false} TrailingRepeat(hist: seq<bool>, b: bool, n: nat)
    requires hist == [] || hist[|hist| - 1] != b
    ensures TrailingRun(hist + Repeat(b, n), b) == n
  {
    if n == 0 {
      assert hist + Repeat(b, 0) == hist;
    } else {
      var all := hist + Repeat(b, n);
      TrailingRepeat(hist, b, n - 1);
      assert all[..|all| - 1] == hist + Repeat(b, n - 1) && all[|all| - 1] == b;
    }
  }

  /** One more check. */
  lemma {:induction false} NextCheck(th: Thresholds, s0: BackendState, hist: seq<bool>, b: bool)
    requires s0 != Maintenance
    ensures After(th, s0, hist + [b]).state
            == if TrailingRun(hist + [b], b) < th.For(b) then After(th, s0, hist).state else Verdict(b)
  {
    var all := hist + [b];
    assert all[..|all|] == all && all[..|hist|] == hist;
    MaintenanceIsManual(th, s0, hist);
    StateStep(th, s0, all, |all|);
  }

  lemma {:induction false} RunFlips(th: Thresholds, s0: BackendState, hist: seq<bool>, b: bool, n: nat)
    requires s0 != Maintenance && n > 0 && (hist == [] || hist[|hist| - 1] != b)
    ensures After(th, s0, hist + Repeat(b, n)).state
            == if n < th.For(b) then After(th, s0, hist).state else Verdict(b)
  {
    var before := hist + Repeat(b, n - 1);
    assert hist + Repeat(b, n) == before + [b];
    TrailingRepeat(hist, b, n);
    NextCheck(th, s0, before, b);
    if n > 1 {
      RunFlips(th, s0, hist, b, n - 1);
    } else {
      assert before == hist;
    }
  }

  /** After n checks in a row with the result b the backend has the state of that result exactly
      when n has reached the configured number: for successes the healthy threshold, 2 unless
      configured, for failures the unhealthy threshold, 3 unless configured. Before that it
      keeps its state. */
  lemma {:induction false} RepeatFlips(healthy: int, unhealthy: int, s0: BackendState, hist: seq<bool>, b: bool, n: nat)
    requires s0 != Maintenance && n > 0 && (hist == [] || hist[|hist| - 1] != b)
    ensures
      var needed := if b then (if healthy == 0 then 2 else healthy) else (if unhealthy == 0 then 3 else unhealthy);
      After(WithDefaults(healthy, unhealthy), s0, hist + Repeat(b, n)).state
      == if n < needed then After(WithDefaults(healthy, unhealthy), s0, hist).state
         else if b then Healthy else Unhealthy
  {
    RunFlips(WithDefaults(healthy, unhealthy), s0, hist, b, n);
  }

  /** The same for a new checker and any interleaving of its backends' checks. */
  lemma {:induction false} CheckerFlips(healthy: int, unhealthy: int, bs: seq<Backend>, checks: seq<Check>, url: string,
                                        hist: seq<bool>, b: bool, n: nat)
    requires IndexOfUrl(bs, url) < |bs| && bs[IndexOfUrl(bs, url)].state != Maintenance
    requires History(checks, url) == hist + Repeat(b, n) && n > 0 && (hist == [] || hist[|hist| - 1] != b)
    ensures
      var needed := if b then (if healthy == 0 then 2 else healthy) else (if unhealthy == 0 then 3 else unhealthy);
      var i, st := IndexOfUrl(bs, url), Run(WithDefaults(healthy, unhealthy), bs, checks);
      && i < |st.backends|
      && (n >= needed ==> st.backends[i].state == if b then Healthy else Unhealthy)
      && (n < needed && hist == [] ==> st.backends[i].state == bs[i].state)
  {
    RunIsPerBackend(WithDefaults(healthy, unhealthy), bs, checks, url);
    RepeatFlips(healthy, unhealthy, bs[IndexOfUrl(bs, url)].state, hist, b, n);
  }

  // ----- the mirror in the balancer

  /** The balancer's backends after a run: every notified change is applied to them. */
  function Mirrored(th: Thresholds, bs: seq<Backend>, checks: seq<Check>): seq<Backend> {
    if checks == [] then bs else
      var rest, last := checks[..|checks| - 1], checks[|checks| - 1];
      Notify(Mirrored(th, bs, rest), Run(th, bs, rest), Run(th, bs, checks), last.url)
  }

  /** onBackendStateChange: the balancer hears of a URL only when its state differs. */
  function Notify(lb: seq<Backend>, before: CheckerState, now: CheckerState, url: string): seq<Backend> {
    var i := IndexOfUrl(before.backends, url);
    if i < |before.backends| == |now.backends| && before.backends[i].state != now.backends[i].state
    then WithState(lb, url, now.backends[i].state)
    else lb
  }

  /** Mirror agreement: in every run the balancer holds the checker's states. */
  lemma {:induction false} MirrorAgrees(th: Thresholds, bs: seq<Backend>, checks: seq<Check>)
    ensures Mirrored(th, bs, checks) == Run(th, bs, checks).backends
  {
    if checks != [] {
      var rest, url := checks[..|checks| - 1], checks[|checks| - 1].url;
      MirrorAgrees(th, bs, rest);
      var before, now := Run(th, bs, rest), Run(th, bs, checks);
      var i := IndexOfUrl(before.backends, url);
      if url in before.counters && i < |before.backends| {
        assert now.backends == WithState(before.backends, url, now.backends[i].state);
        assert before.backends[i].state == now.backends[i].state ==> now.backends == before.backends;
      }
    }
  }

  /** So no strategy ever picks a backend that the checker holds unhealthy or in maintenance,
      and a rate-limited one only when the checker holds none healthy. */
  lemma {:induction false} PicksRespectChecker(th: Thresholds, bs: seq<Backend>, checks: seq<Check>, i: nat)
    requires i in Selectable(Mirrored(th, bs, checks))
    ensures i < |Run(th, bs, checks).backends|
    ensures var held := Run(th, bs, checks).backends;
      && (held[i].state == Healthy || held[i].state == RateLimited)
      && (held[i].state == RateLimited ==> forall j :: 0 <= j < |held| ==> held[j].state != Healthy)
  {
    MirrorAgrees(th, bs, checks);
  }

  /** One recorded check with the service's callback wired to a balancer, as one atomic step. */
  method CheckAndNotify(checker: Checker, lb: WeightedBalancer, url: string, ok: bool)
    requires lb.Valid() && checker.backends == lb.backends
    modifies checker, lb`backends
    ensures lb.Valid() && checker.backends == lb.backends
    ensures checker.State() == Record(checker.th, old(checker.State()), url, ok)
  {
    var change := checker.RecordHealthCheck(url, ok);
    if change.Changed? {
      lb.UpdateBackendState(url, change.now);
    }
  }
}
