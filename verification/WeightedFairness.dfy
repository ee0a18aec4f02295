/** What smooth weighted round-robin achieves over whole runs on a fixed set of backends: exact
    proportionality. */
module WeightedFairness {
  import opened Sums
  import opened Backends
  import opened Schedules
  import opened WeightedRoundRobin

  ghost predicate Positive(w: seq<int>) {
    forall i :: 0 <= i < |w| ==> w[i] >= 1
  }

  /** The weight W over which a set of backends is proportioned. */
  function Total(w: seq<int>, idxs: seq<nat>): int
    requires InRange(idxs, |w|)
  {
    Sum(Effective(w, idxs))
  }

  lemma {:induction false} TotalBounds(w: seq<int>, idxs: seq<nat>)
    requires InRange(idxs, |w|) && Positive(w)
    ensures 0 <= Total(w, idxs) <= Sum(w)
    ensures idxs != [] ==> Total(w, idxs) >= 1
  {
    var e := Effective(w, idxs);
    forall i | 0 <= i < |w|
      ensures 0 <= e[i] <= w[i]
    {
      EffectiveAt(w, idxs, i);
    }
    SumMonotone(e, w);
    SumZeros(|w|);
    SumMonotone(Zeros(|w|), e);
    if idxs != [] {
      EffectiveAt(w, idxs, idxs[0]);
      SumAtLeast(e, 0, idxs[0]);
    }
  }

  // ----- fair rules

  /** All entries move by e; the chosen one then pays the sum of e. */
  ghost predicate Pays(e: seq<int>, cur: seq<int>, b: nat, next: seq<int>) {
    && |cur| == |e| == |next| && b < |e|
    && next == Charge(Plus(cur, e), b, Sum(e))
  }

  /** Balanced around zero, bounded below, and zero where nothing is added. */
  ghost predicate Balanced(e: seq<int>, cur: seq<int>) {
    && |cur| == |e|
    && Sum(cur) == 0
    && forall i :: 0 <= i < |e| ==> (e[i] == 0 ==> cur[i] == 0) && cur[i] > -Sum(e)
  }

  lemma {:induction false} PaysConserves(e: seq<int>, cur: seq<int>, b: nat, next: seq<int>)
    requires Pays(e, cur, b, next)
    ensures Sum(next) == Sum(cur)
  {
    SumPlus(cur, e);
    SumUpdate(Plus(cur, e), b, Plus(cur, e)[b] - Sum(e));
  }

  lemma {:induction false} BalancedNext(e: seq<int>, cur: seq<int>, b: nat, next: seq<int>)
    requires forall i :: 0 <= i < |e| ==> e[i] >= 0
    requires Balanced(e, cur) && Pays(e, cur, b, next) && e[b] > 0
    requires cur[b] + e[b] >= 1
    ensures Balanced(e, next)
  {
    PaysConserves(e, cur, b, next);
  }

  /** The chosen entry takes part, is positive after its bump, and pays. */
  ghost predicate Serves(e: seq<int>, cur: seq<int>, s: Selection) {
    && 0 <= s.best < |e| == |cur| && e[s.best] > 0 && cur[s.best] + e[s.best] >= 1
    && Pays(e, cur, s.best, s.cur)
  }

  /** A rule that, from balanced values, always serves somebody. */
  ghost predicate Fair(step: Rule, e: seq<int>) {
    && (forall i :: 0 <= i < |e| ==> e[i] >= 0)
    && Sum(e) >= 1
    && forall cur :: Balanced(e, cur) ==> Serves(e, cur, step(cur))
  }

  lemma {:induction false} RunBalanced(step: Rule, e: seq<int>, k: nat)
    requires Fair(step, e)
    ensures Balanced(e, Run(step, Zeros(|e|), k))
  {
    if k == 0 {
      SumZeros(|e|);
    } else {
      var cur := Run(step, Zeros(|e|), k - 1);
      RunBalanced(step, e, k - 1);
      BalancedNext(e, cur, step(cur).best, step(cur).cur);
    }
  }

  /** After k selections from zero, entry i stands at k·e[i] − W·count[i]. */
  lemma {:induction false} Standing(step: Rule, e: seq<int>, k: nat, i: nat)
    requires Fair(step, e) && i < |e|
    ensures |Run(step, Zeros(|e|), k)| == |e|
    ensures Run(step, Zeros(|e|), k)[i]
            == k * e[i] - Sum(e) * Count(Picks(step, Zeros(|e|)), 0, k, i)
  {
    var pick := Picks(step, Zeros(|e|));
    if k == 0 {
      assert Count(pick, 0, 0, i) == 0;
    } else {
      var cur := Run(step, Zeros(|e|), k - 1);
      Standing(step, e, k - 1, i);
      RunBalanced(step, e, k - 1);
      assert Serves(e, cur, step(cur));
      PaysAt(e, cur, step(cur).best, step(cur).cur, i);
      Distribute(k - 1, e[i], Sum(e), Count(pick, 0, k - 1, i));
    }
  }

  lemma PaysAt(e: seq<int>, cur: seq<int>, b: nat, next: seq<int>, i: nat)
    requires Pays(e, cur, b, next) && i < |e|
    ensures next[i] == cur[i] + e[i] - if b == i then Sum(e) else 0
  {
  }

  lemma Distribute(k: int, weight: int, W: int, c: int)
    ensures (k + 1) * weight == k * weight + weight
    ensures W * (c + 1) == W * c + W
  {
  }

  /** Prefix fairness: nobody is ever ahead of its share by a whole selection, and nobody is
      behind it by more than n − 1. */
  lemma {:induction false} ShareBounds(step: Rule, e: seq<int>, k: nat, i: nat)
    requires Fair(step, e) && i < |e|
    ensures |Run(step, Zeros(|e|), k)| == |e| && Sum(Run(step, Zeros(|e|), k)) == 0
    ensures var c := Count(Picks(step, Zeros(|e|)), 0, k, i);
      && -Sum(e) < Run(step, Zeros(|e|), k)[i] == k * e[i] - Sum(e) * c
      && k * e[i] - (|e| - 1) * Sum(e) <= Sum(e) * c < k * e[i] + Sum(e)
  {
    Standing(step, e, k, i);
    RunBalanced(step, e, k);
    SumAtLeast(Run(step, Zeros(|e|), k), -Sum(e), i);
    Negate(|e| - 1, Sum(e));
  }

  lemma Negate(n: int, x: int)
    ensures n * -x == -(n * x)
  {
  }

  /** After W selections from zero everybody was chosen exactly as often as its weight, and
      all values are back at zero. */
  lemma {:induction false} FullPeriod(step: Rule, e: seq<int>)
    requires Fair(step, e)
    ensures Counts(Picks(step, Zeros(|e|)), Sum(e), |e|) == e
    ensures Run(step, Zeros(|e|), Sum(e)) == Zeros(|e|)
  {
    ExactCounts(step, e);
    var W, end := Sum(e), Run(step, Zeros(|e|), Sum(e));
    RunBalanced(step, e, W);
    forall i | 0 <= i < |e|
      ensures end[i] == 0
    {
      Standing(step, e, W, i);
      assert Counts(Picks(step, Zeros(|e|)), W, |e|)[i] == e[i];
    }
  }

  lemma {:induction false} ExactCounts(step: Rule, e: seq<int>)
    requires Fair(step, e)
    ensures Counts(Picks(step, Zeros(|e|)), Sum(e), |e|) == e
  {
    var W, pick := Sum(e), Picks(step, Zeros(|e|));
    var c := Counts(pick, W, |e|);
    forall j: nat
      ensures 0 <= pick(j) < |e|
    {
      RunBalanced(step, e, j);
    }
    CountsSum(pick, W, |e|);
    forall i | 0 <= i < |e|
      ensures c[i] <= e[i]
    {
      Standing(step, e, W, i);
      RunBalanced(step, e, W);
      AtMostShare(W, e[i], c[i]);
    }
    SumSqueeze(c, e);
  }

  lemma {:induction false} AtMostShare(W: int, weight: int, c: int)
    requires W >= 1 && W * weight - W * c > -W
    ensures c <= weight
  {
    var d := c - weight;
    assert W * c == W * (weight + d) == W * weight + W * d;
    if d >= 1 {
      MulAtLeast(W, d);
    }
  }

  lemma MulAtLeast(x: int, d: int)
    requires x >= 0 && d >= 1
    ensures x * d >= x
  {
  }

  /** Any W consecutive selections, wherever the window starts, choose i exactly e[i] times. */
  lemma {:induction false} Window(step: Rule, e: seq<int>, start: nat, i: nat)
    requires Fair(step, e) && i < |e|
    ensures Sum(e) >= 1 && Run(step, Zeros(|e|), Sum(e)) == Zeros(|e|)
    ensures Count(Picks(step, Zeros(|e|)), start, start + Sum(e), i) == e[i]
  {
    FullPeriod(step, e);
    var pick := Picks(step, Zeros(|e|));
    forall k: nat
      ensures pick(k + Sum(e)) == pick(k)
    {
      Repeats(step, Zeros(|e|), Sum(e), k);
    }
    WindowShift(pick, Sum(e), start, i);
    assert Counts(pick, Sum(e), |e|)[i] == Count(pick, 0, Sum(e), i);
  }

  // ----- the balancer's rule is fair

  /** selectByWeight on a fixed set of backends, as a rule. */
  function Smooth(w: seq<int>, idxs: seq<nat>): Rule
    requires InRange(idxs, |w|)
  {
    (cur: seq<int>) => if |cur| == |w| then Step(w, cur, idxs) else Selection(cur, -1)
  }

  lemma {:induction false} StepFinds(w: seq<int>, cur: seq<int>, idxs: seq<nat>)
    requires |w| == |cur| && Increasing(idxs, |w|)
    requires Step(w, cur, idxs).best != -1
    ensures var b := Step(w, cur, idxs).best; b in idxs && cur[b] + w[b] >= 0
  {
    var v := Bumped(w, cur, idxs);
    var b := Pick(v, idxs);
    assert b in idxs && v[b] > -1 by { PickIsFirstMax(v, idxs); }
    EffectiveAt(w, idxs, b);
    PlusAt(cur, Effective(w, idxs), b);
  }

  /** A selection that finds a backend bumps every candidate and charges the winner. */
  lemma {:induction false} StepPays(w: seq<int>, cur: seq<int>, idxs: seq<nat>)
    requires |w| == |cur| && InRange(idxs, |w|)
    requires Step(w, cur, idxs).best != -1
    ensures Pays(Effective(w, idxs), cur, Step(w, cur, idxs).best, Step(w, cur, idxs).cur)
  {
    StepOnPays(Effective(w, idxs), cur, idxs);
  }

  lemma StepOnPays(e: seq<int>, cur: seq<int>, idxs: seq<nat>)
    requires |e| == |cur| && InRange(idxs, |e|)
    requires StepOn(e, cur, idxs).best != -1
    ensures Pays(e, cur, StepOn(e, cur, idxs).best, StepOn(e, cur, idxs).cur)
  {
  }

  /** From a balanced state a selection always finds a backend, with a positive value. */
  lemma {:induction false} BalancedFinds(w: seq<int>, cur: seq<int>, idxs: seq<nat>)
    requires |w| == |cur| && Increasing(idxs, |w|) && idxs != [] && Positive(w)
    requires Balanced(Effective(w, idxs), cur)
    ensures var b := Step(w, cur, idxs).best; b != -1 && b in idxs && cur[b] + w[b] >= 1
  {
    var e, v := Effective(w, idxs), Bumped(w, cur, idxs);
    SumPlus(cur, e);
    TotalBounds(w, idxs);
    var i := PositiveEntry(v);
    EffectiveAt(w, idxs, i);
    assert i in idxs;
    PickIsFirstMax(v, idxs);
    var k :| 0 <= k < |idxs| && idxs[k] == i;
    var b := Pick(v, idxs);
    assert v[idxs[k]] <= v[b];
    EffectiveAt(w, idxs, b);
  }

  lemma {:induction false} SmoothIsFair(w: seq<int>, idxs: seq<nat>)
    requires Increasing(idxs, |w|) && idxs != [] && Positive(w)
    ensures Fair(Smooth(w, idxs), Effective(w, idxs))
  {
    var e, step := Effective(w, idxs), Smooth(w, idxs);
    TotalBounds(w, idxs);
    forall i | 0 <= i < |w|
      ensures e[i] >= 0
    {
      EffectiveAt(w, idxs, i);
    }
    forall cur | Balanced(e, cur)
      ensures Serves(e, cur, step(cur))
    {
      BalancedFinds(w, cur, idxs);
      StepPays(w, cur, idxs);
      EffectiveAt(w, idxs, Step(w, cur, idxs).best);
    }
  }

  /** Progress: in every run from zero, every selection finds a backend of the set. */
  lemma {:induction false} AlwaysFinds(w: seq<int>, idxs: seq<nat>, k: nat)
    requires Increasing(idxs, |w|) && idxs != [] && Positive(w)
    ensures Picks(Smooth(w, idxs), Zeros(|w|))(k) in idxs
  {
    SmoothIsFair(w, idxs);
    RunBalanced(Smooth(w, idxs), Effective(w, idxs), k);
    BalancedFinds(w, Run(Smooth(w, idxs), Zeros(|w|), k), idxs);
  }

  /** Prefix fairness of the balancer. */
  lemma {:induction false} PrefixFairness(w: seq<int>, idxs: seq<nat>, k: nat, i: nat)
    requires Increasing(idxs, |w|) && Positive(w) && i in idxs
    ensures |Run(Smooth(w, idxs), Zeros(|w|), k)| == |w| && Sum(Run(Smooth(w, idxs), Zeros(|w|), k)) == 0
    ensures
      var W, c := Total(w, idxs), Count(Picks(Smooth(w, idxs), Zeros(|w|)), 0, k, i);
      && -W < Run(Smooth(w, idxs), Zeros(|w|), k)[i] == k * w[i] - W * c
      && k * w[i] - (|w| - 1) * W <= W * c < k * w[i] + W
  {
    var step, e := Smooth(w, idxs), Effective(w, idxs);
    SmoothIsFair(w, idxs);
    EffectiveAt(w, idxs, i);
    ShareBounds(step, e, k, i);
  }

  /** Exact weighted fairness: any W consecutive selections of a run from zero, wherever the
      window starts, choose backend i exactly w[i] times, and W selections restore zero. */
  lemma {:induction false} WindowFairness(w: seq<int>, idxs: seq<nat>, start: nat, i: nat)
    requires Increasing(idxs, |w|) && Positive(w) && i in idxs
    ensures Total(w, idxs) >= 1
    ensures Run(Smooth(w, idxs), Zeros(|w|), Total(w, idxs)) == Zeros(|w|)
    ensures Count(Picks(Smooth(w, idxs), Zeros(|w|)), start, start + Total(w, idxs), i) == w[i]
  {
    SmoothIsFair(w, idxs);
    EffectiveAt(w, idxs, i);
    Window(Smooth(w, idxs), Effective(w, idxs), start, i);
  }
}
