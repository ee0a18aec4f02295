/** Smooth weighted round-robin as coded, across arbitrary health changes: int32 safety, when a
    selection finds nothing, and how long that can last. */
module WeightedOverflow {
  import opened Sums
  import opened Backends
  import opened Schedules
  import opened WeightedRoundRobin
  import opened WeightedFairness
  import opened WeightedBounds
  import Int32

  ghost predicate Sets(sets: seq<seq<nat>>, n: nat) {
    forall k :: 0 <= k < |sets| ==> Increasing(sets[k], n)
  }

  /** Selections over an arbitrary sequence of candidate sets, as health changes produce. */
  function RunSets(w: seq<int>, cur: seq<int>, sets: seq<seq<nat>>): (r: seq<int>)
    requires |w| == |cur| && Sets(sets, |w|)
    ensures |r| == |w|
  {
    if sets == [] then cur else
      var k := |sets| - 1;
      Step(w, RunSets(w, cur, sets[..k]), sets[k]).cur
  }

  /** The same run in the code's arithmetic. */
  function RunSets32(w: seq<int>, cur: seq<int>, sets: seq<seq<nat>>): (r: seq<int>)
    requires |w| == |cur| && Sets(sets, |w|)
    ensures |r| == |w|
  {
    if sets == [] then cur else
      var k := |sets| - 1;
      Step32(w, RunSets32(w, cur, sets[..k]), sets[k]).cur
  }

  /** Every selection of the code's run found a backend. */
  ghost predicate AllFound(w: seq<int>, cur: seq<int>, sets: seq<seq<nat>>)
    requires |w| == |cur| && Sets(sets, |w|)
  {
    sets == [] ||
    var k := |sets| - 1;
    AllFound(w, cur, sets[..k]) && Step32(w, RunSets32(w, cur, sets[..k]), sets[k]).best != -1
  }

  /** Every entry in [−W, (n−1)·W] for W the weight of all backends. */
  ghost predicate Bounded(w: seq<int>, cur: seq<int>) {
    && |cur| == |w|
    && forall i :: 0 <= i < |cur| ==> -Sum(w) <= cur[i] <= (|w| - 1) * Sum(w)
  }

  /** What every selection keeps. */
  ghost predicate Kept(w: seq<int>, cur: seq<int>) {
    Capped(w, cur) && forall i :: 0 <= i < |cur| ==> cur[i] >= -Sum(w)
  }

  lemma {:induction false} KeptBounded(w: seq<int>, cur: seq<int>)
    requires Kept(w, cur)
    ensures Bounded(w, cur)
  {
    forall i | 0 <= i < |cur|
      ensures cur[i] <= (|w| - 1) * Sum(w)
    {
      CappedEntry(w, cur, i);
    }
  }

  lemma {:induction false} ZerosKept(w: seq<int>)
    requires Positive(w)
    ensures Kept(w, Zeros(|w|))
  {
    TotalBounds(w, []);
    ZerosCapped(w);
  }

  lemma {:induction false} KeptStep(w: seq<int>, cur: seq<int>, idxs: seq<nat>)
    requires Positive(w) && Kept(w, cur) && Increasing(idxs, |w|)
    ensures Kept(w, Step(w, cur, idxs).cur)
  {
    var e, s := Effective(w, idxs), Step(w, cur, idxs);
    CappedStep(w, cur, idxs);
    TotalBounds(w, idxs);
    if s.best != -1 {
      StepFinds(w, cur, idxs);
      StepPays(w, cur, idxs);
    }
    forall i | 0 <= i < |w|
      ensures s.cur[i] >= -Sum(w)
    {
      EffectiveAt(w, idxs, i);
      PlusAt(cur, e, i);
      if s.best != -1 {
        PaysAt(e, cur, s.best, s.cur, i);
      }
    }
  }

  lemma {:induction false} FoundConserves(w: seq<int>, cur: seq<int>, idxs: seq<nat>)
    requires |cur| == |w| && InRange(idxs, |w|) && Step(w, cur, idxs).best != -1
    ensures Sum(Step(w, cur, idxs).cur) == Sum(cur)
  {
    var s := Step(w, cur, idxs);
    StepPays(w, cur, idxs);
    PaysConserves(Effective(w, idxs), cur, s.best, s.cur);
  }

  // ----- the int32 code refines unbounded integers

  lemma SumBounds(w: seq<int>)
    requires Positive(w) && w != []
    ensures 1 <= Sum(w) <= |w| * Sum(w)
    ensures forall i :: 0 <= i < |w| ==> w[i] <= Sum(w)
  {
  }

  lemma {:induction false} Total32Exact(w: seq<int>, idxs: seq<nat>)
    requires Increasing(idxs, |w|) && Positive(w) && Sum(w) <= Int32.MAX
    ensures Total32(w, idxs) == Total(w, idxs)
  {
    if idxs == [] {
      SumZeros(|w|);
    } else {
      var p, i := idxs[..|idxs| - 1], idxs[|idxs| - 1];
      Total32Exact(w, p);
      SumBounds(w);
      EffectiveAt(w, p, i);
      assert i !in p;
      SumUpdate(Effective(w, p), i, w[i]);
      TotalBounds(w, p);
      TotalBounds(w, idxs);
    }
  }

  lemma {:induction false} Scan32Exact(w: seq<int>, cur: seq<int>, idxs: seq<nat>)
    requires Positive(w) && |cur| == |w| && Increasing(idxs, |w|)
    requires forall i :: 0 <= i < |w| ==> Int32.MIN <= cur[i] + w[i] <= Int32.MAX && w[i] <= Int32.MAX
    ensures Scan32(w, cur, idxs) == Found(Bumped(w, cur, idxs), idxs)
  {
    if idxs == [] {
      assert Bumped(w, cur, idxs) == cur;
    } else {
      Scan32Exact(w, cur, idxs[..|idxs| - 1]);
      BumpedNext(w, cur, idxs);
      FoundNext(w, cur, idxs, Bumped(w, cur, idxs[..|idxs| - 1]));
    }
  }

  /** Bumped weights with the one to choose. */
  function Found(v: seq<int>, idxs: seq<nat>): Selection
    requires InRange(idxs, |v|)
  {
    Selection(v, Pick(v, idxs))
  }

  lemma {:induction false} FoundNext(w: seq<int>, cur: seq<int>, idxs: seq<nat>, v: seq<int>)
    requires |cur| == |w| == |v| && InRange(idxs, |w|) && idxs != []
    requires idxs[|idxs| - 1] !in idxs[..|idxs| - 1]
    requires var p, i := idxs[..|idxs| - 1], idxs[|idxs| - 1];
      && Scan32(w, cur, p) == Found(v, p)
      && v[i] == cur[i] && Int32.MIN <= cur[i] + w[i] <= Int32.MAX && w[i] <= Int32.MAX
    ensures var i := idxs[|idxs| - 1]; Scan32(w, cur, idxs) == Found(v[i := cur[i] + w[i]], idxs)
  {
    var i := idxs[|idxs| - 1];
    Scan32Next(w, cur, idxs, v);
    PickNext(v, idxs, cur[i] + w[i]);
  }

  lemma {:induction false} BumpedNext(w: seq<int>, cur: seq<int>, idxs: seq<nat>)
    requires |cur| == |w| && Increasing(idxs, |w|) && idxs != []
    ensures var p, i := idxs[..|idxs| - 1], idxs[|idxs| - 1];
      && i !in p
      && Bumped(w, cur, p)[i] == cur[i]
      && Bumped(w, cur, idxs) == Bumped(w, cur, p)[i := cur[i] + w[i]]
  {
    var p, i := idxs[..|idxs| - 1], idxs[|idxs| - 1];
    EffectiveAt(w, p, i);
    assert i !in p;
    PlusAt(cur, Effective(w, p), i);
    BumpOne(cur, Effective(w, p), i, w[i]);
  }

  lemma Scan32Next(w: seq<int>, cur: seq<int>, idxs: seq<nat>, v: seq<int>)
    requires |cur| == |w| == |v| && InRange(idxs, |w|) && idxs != []
    requires var p, i := idxs[..|idxs| - 1], idxs[|idxs| - 1];
      && Scan32(w, cur, p) == Selection(v, Pick(v, p))
      && v[i] == cur[i] && Int32.MIN <= cur[i] + w[i] <= Int32.MAX && w[i] <= Int32.MAX
    ensures var p, i := idxs[..|idxs| - 1], idxs[|idxs| - 1];
      var b := Pick(v, p);
      Scan32(w, cur, idxs) == Selection(v[i := cur[i] + w[i]],
        if cur[i] + w[i] > (if b == -1 then -1 else v[b]) then i else b)
  {
  }

  lemma {:induction false} PickNext(v: seq<int>, idxs: seq<nat>, x: int)
    requires InRange(idxs, |v|) && idxs != [] && idxs[|idxs| - 1] !in idxs[..|idxs| - 1]
    ensures var p, i := idxs[..|idxs| - 1], idxs[|idxs| - 1];
      var b := Pick(v, p);
      Pick(v[i := x], idxs) == if x > (if b == -1 then -1 else v[b]) then i else b
  {
    var p, i := idxs[..|idxs| - 1], idxs[|idxs| - 1];
    assert forall k :: 0 <= k < |p| ==> p[k] != i;
    PickAgrees(v, v[i := x], p);
    PickMember(v, p);
  }

  lemma BumpOne(cur: seq<int>, e: seq<int>, i: nat, x: int)
    requires |cur| == |e| && i < |e| && e[i] == 0
    ensures Plus(cur, e[i := x]) == Plus(cur, e)[i := cur[i] + x]
  {
  }

  /** While bounded, the guards never fire and nothing wraps: the code's step is the step
      over unbounded integers. */
  lemma {:induction false} StepRefines(w: seq<int>, cur: seq<int>, idxs: seq<nat>)
    requires Positive(w) && Bounded(w, cur) && Increasing(idxs, |w|)
    requires |w| * Sum(w) <= Int32.MAX
    ensures Step32(w, cur, idxs) == Step(w, cur, idxs)
  {
    if w != [] {
      SumBounds(w);
      Split(|w|, Sum(w));
      Total32Exact(w, idxs);
      Scan32Exact(w, cur, idxs);
      Charge32Exact(w, cur, idxs);
    }
  }

  lemma Split(n: int, x: int)
    ensures n * x == (n - 1) * x + x
  {
  }

  lemma {:induction false} Charge32Exact(w: seq<int>, cur: seq<int>, idxs: seq<nat>)
    requires Positive(w) && Bounded(w, cur) && Increasing(idxs, |w|) && Sum(w) <= Int32.MAX
    requires forall i :: 0 <= i < |w| ==> cur[i] + w[i] <= Int32.MAX
    ensures var v := Bumped(w, cur, idxs);
      var b := Pick(v, idxs);
      Charge32(Selection(v, b), Total(w, idxs)) == Selection(Charge(v, b, Total(w, idxs)), b)
  {
    var v := Bumped(w, cur, idxs);
    var b := Pick(v, idxs);
    if b != -1 {
      StepFinds(w, cur, idxs);
      EffectiveAt(w, idxs, b);
      PlusAt(cur, Effective(w, idxs), b);
      TotalBounds(w, idxs);
    }
  }

  /** Across every run of health changes, also through selections that find nothing, the int32
      code computes what unbounded integers would and the weights stay within their bounds; as
      long as every selection finds a backend they sum to zero. */
  lemma {:induction false} NoOverflowEver(w: seq<int>, sets: seq<seq<nat>>)
    requires Positive(w) && |w| * Sum(w) <= Int32.MAX && Sets(sets, |w|)
    ensures RunSets32(w, Zeros(|w|), sets) == RunSets(w, Zeros(|w|), sets)
    ensures Kept(w, RunSets32(w, Zeros(|w|), sets)) && Bounded(w, RunSets32(w, Zeros(|w|), sets))
    ensures AllFound(w, Zeros(|w|), sets) ==> Sum(RunSets32(w, Zeros(|w|), sets)) == 0
  {
    if sets == [] {
      SumZeros(|w|);
      ZerosKept(w);
    } else {
      var k := |sets| - 1;
      var cur := RunSets32(w, Zeros(|w|), sets[..k]);
      NoOverflowEver(w, sets[..k]);
      StepRefines(w, cur, sets[k]);
      KeptStep(w, cur, sets[k]);
      if Step(w, cur, sets[k]).best != -1 {
        FoundConserves(w, cur, sets[k]);
      }
    }
    KeptBounded(w, RunSets32(w, Zeros(|w|), sets));
  }

  /** selectByWeight as the code computes it, as a rule. */
  function Smooth32(w: seq<int>, idxs: seq<nat>): Rule
    requires InRange(idxs, |w|)
  {
    (cur: seq<int>) => if |cur| == |w| then Step32(w, cur, idxs) else Selection(cur, -1)
  }

  lemma {:induction false} Run32Exact(w: seq<int>, idxs: seq<nat>, k: nat)
    requires Increasing(idxs, |w|) && Positive(w) && |w| * Sum(w) <= Int32.MAX
    ensures Run(Smooth32(w, idxs), Zeros(|w|), k) == Run(Smooth(w, idxs), Zeros(|w|), k)
    ensures Kept(w, Run(Smooth(w, idxs), Zeros(|w|), k))
  {
    if k == 0 {
      ZerosKept(w);
    } else {
      var cur := Run(Smooth(w, idxs), Zeros(|w|), k - 1);
      Run32Exact(w, idxs, k - 1);
      KeptBounded(w, cur);
      SmoothRefines(w, cur, idxs);
      KeptStep(w, cur, idxs);
    }
  }

  lemma {:induction false} SmoothRefines(w: seq<int>, cur: seq<int>, idxs: seq<nat>)
    requires Positive(w) && Bounded(w, cur) && Increasing(idxs, |w|) && |w| * Sum(w) <= Int32.MAX
    ensures Smooth32(w, idxs)(cur) == Smooth(w, idxs)(cur) == Step(w, cur, idxs)
  {
    StepRefines(w, cur, idxs);
  }

  lemma {:induction false} Picks32Exact(w: seq<int>, idxs: seq<nat>, k: nat)
    requires Increasing(idxs, |w|) && Positive(w) && |w| * Sum(w) <= Int32.MAX
    ensures Picks(Smooth32(w, idxs), Zeros(|w|))(k) == Picks(Smooth(w, idxs), Zeros(|w|))(k)
  {
    Run32Exact(w, idxs, k);
    KeptBounded(w, Run(Smooth(w, idxs), Zeros(|w|), k));
    SmoothRefines(w, Run(Smooth(w, idxs), Zeros(|w|), k), idxs);
  }

  /** Exact weighted fairness of the int32 code, and its return to zero. */
  lemma {:induction false} CodeFairness(w: seq<int>, idxs: seq<nat>, start: nat, i: nat)
    requires Increasing(idxs, |w|) && Positive(w) && i in idxs && |w| * Sum(w) <= Int32.MAX
    ensures Total(w, idxs) >= 1
    ensures Run(Smooth32(w, idxs), Zeros(|w|), Total(w, idxs)) == Zeros(|w|)
    ensures Count(Picks(Smooth32(w, idxs), Zeros(|w|)), start, start + Total(w, idxs), i) == w[i]
  {
    WindowFairness(w, idxs, start, i);
    Run32Exact(w, idxs, Total(w, idxs));
    Counts32Exact(w, idxs, start, start + Total(w, idxs), i);
  }

  /** Prefix fairness and progress of the int32 code: it never finds nothing, nobody is ever a
      whole selection ahead of its share, and nobody more than n − 1 behind. */
  lemma {:induction false} CodePrefixFairness(w: seq<int>, idxs: seq<nat>, k: nat, i: nat)
    requires Increasing(idxs, |w|) && Positive(w) && i in idxs && |w| * Sum(w) <= Int32.MAX
    ensures Picks(Smooth32(w, idxs), Zeros(|w|))(k) in idxs
    ensures |Run(Smooth32(w, idxs), Zeros(|w|), k)| == |w| && Sum(Run(Smooth32(w, idxs), Zeros(|w|), k)) == 0
    ensures
      var W, c := Total(w, idxs), Count(Picks(Smooth32(w, idxs), Zeros(|w|)), 0, k, i);
      && -W < Run(Smooth32(w, idxs), Zeros(|w|), k)[i] == k * w[i] - W * c
      && k * w[i] - (|w| - 1) * W <= W * c < k * w[i] + W
  {
    PrefixFairness(w, idxs, k, i);
    AlwaysFinds(w, idxs, k);
    Run32Exact(w, idxs, k);
    Picks32Exact(w, idxs, k);
    Counts32Exact(w, idxs, 0, k, i);
  }

  lemma {:induction false} Counts32Exact(w: seq<int>, idxs: seq<nat>, from: nat, to: nat, i: int)
    requires from <= to && Increasing(idxs, |w|) && Positive(w) && |w| * Sum(w) <= Int32.MAX
    ensures Count(Picks(Smooth32(w, idxs), Zeros(|w|)), from, to, i)
            == Count(Picks(Smooth(w, idxs), Zeros(|w|)), from, to, i)
  {
    forall k: nat
      ensures Picks(Smooth32(w, idxs), Zeros(|w|))(k) == Picks(Smooth(w, idxs), Zeros(|w|))(k)
    {
      Picks32Exact(w, idxs, k);
    }
    SameCount(Picks(Smooth32(w, idxs), Zeros(|w|)), Picks(Smooth(w, idxs), Zeros(|w|)), from, to, i);
  }

  // ----- the configured balancer

  /** What each backend is due, from its configured weight: nothing unless it is a candidate, and
      at least one. */
  function Due(bs: seq<Backend>): (d: seq<int>)
    ensures |d| == |bs|
    ensures forall i :: 0 <= i < |bs| ==>
      d[i] == if i !in Selectable(bs) then 0 else if bs[i].weight <= 0 then 1 else bs[i].weight
  {
    seq(|bs|, i requires 0 <= i < |bs| =>
      if i !in Selectable(bs) then 0 else if bs[i].weight <= 0 then 1 else bs[i].weight)
  }

  /** NextBackend among fixed candidates, as a rule. */
  function Turns(w: seq<int>, idxs: seq<nat>): Rule
    requires InRange(idxs, |w|) && idxs != []
  {
    (cur: seq<int>) => if |cur| == |w| then Turn(w, cur, idxs) else Selection(cur, -1)
  }

  lemma {:induction false} DueIsEffective(bs: seq<Backend>)
    ensures Effective(ConfiguredWeights(bs), Selectable(bs)) == Due(bs)
  {
    var w := ConfiguredWeights(bs);
    forall i | 0 <= i < |bs|
      ensures Effective(w, Selectable(bs))[i] == Due(bs)[i]
    {
      EffectiveAt(w, Selectable(bs), i);
    }
  }

  /** Fairness of the configured balancer, as long as some backend is up: over any Sum(Due)
      consecutive selections of a new balancer every backend is chosen exactly as often as its
      configuration says. */
  lemma {:induction false} ConfiguredFairness(bs: seq<Backend>, start: nat, i: nat, up: nat)
    requires i < |bs| && |bs| * Sum(ConfiguredWeights(bs)) <= Int32.MAX
    requires up < |bs| && (bs[up].state == Healthy || bs[up].state == RateLimited)
    ensures Sum(Due(bs)) >= 1
    ensures Count(Picks(Turns(ConfiguredWeights(bs), Selectable(bs)), Zeros(|bs|)), start, start + Sum(Due(bs)), i)
            == Due(bs)[i]
  {
    DueIsEffective(bs);
    TurnsDue(ConfiguredWeights(bs), Selectable(bs), Due(bs), start, i);
  }

  lemma {:induction false} TurnsDue(w: seq<int>, idxs: seq<nat>, due: seq<int>, start: nat, i: nat)
    requires Increasing(idxs, |w|) && idxs != [] && Positive(w) && i < |w| && |w| * Sum(w) <= Int32.MAX
    requires Effective(w, idxs) == due
    ensures Sum(due) >= 1
    ensures Count(Picks(Turns(w, idxs), Zeros(|w|)), start, start + Sum(due), i) == due[i]
  {
    TurnsFair(w, idxs, start, i);
  }

  lemma {:induction false} TurnsFair(w: seq<int>, idxs: seq<nat>, start: nat, i: nat)
    requires Increasing(idxs, |w|) && idxs != [] && Positive(w) && i < |w| && |w| * Sum(w) <= Int32.MAX
    ensures Total(w, idxs) >= 1
    ensures Count(Picks(Turns(w, idxs), Zeros(|w|)), start, start + Total(w, idxs), i) == Effective(w, idxs)[i]
  {
    TotalBounds(w, idxs);
    if |idxs| == 1 {
      SingleFair(w, idxs, start, i);
    } else {
      forall k: nat
        ensures Picks(Turns(w, idxs), Zeros(|w|))(k) == Picks(Smooth32(w, idxs), Zeros(|w|))(k)
      {
        TurnsRun(w, idxs, k);
      }
      LikeSmooth32(w, idxs, Picks(Turns(w, idxs), Zeros(|w|)), start, i);
    }
  }

  /** A schedule that is the int32 code's has its fairness, also for backends that are not
      candidates. */
  lemma {:induction false} LikeSmooth32(w: seq<int>, idxs: seq<nat>, pick: nat -> int, start: nat, i: nat)
    requires Increasing(idxs, |w|) && idxs != [] && Positive(w) && i < |w| && |w| * Sum(w) <= Int32.MAX
    requires forall k: nat :: pick(k) == Picks(Smooth32(w, idxs), Zeros(|w|))(k)
    ensures Total(w, idxs) >= 1
    ensures Count(pick, start, start + Total(w, idxs), i) == Effective(w, idxs)[i]
  {
    SmoothWindow(w, idxs, start, i);
    LikeCounts(w, idxs, pick, start, start + Total(w, idxs), i);
  }

  lemma {:induction false} SmoothWindow(w: seq<int>, idxs: seq<nat>, start: nat, i: nat)
    requires Increasing(idxs, |w|) && idxs != [] && Positive(w) && i < |w|
    ensures Total(w, idxs) >= 1
    ensures Count(Picks(Smooth(w, idxs), Zeros(|w|)), start, start + Total(w, idxs), i) == Effective(w, idxs)[i]
  {
    SmoothIsFair(w, idxs);
    Window(Smooth(w, idxs), Effective(w, idxs), start, i);
  }

  lemma {:induction false} LikeCounts(w: seq<int>, idxs: seq<nat>, pick: nat -> int, from: nat, to: nat, i: int)
    requires from <= to && Increasing(idxs, |w|) && Positive(w) && |w| * Sum(w) <= Int32.MAX
    requires forall k: nat :: pick(k) == Picks(Smooth32(w, idxs), Zeros(|w|))(k)
    ensures Count(pick, from, to, i) == Count(Picks(Smooth(w, idxs), Zeros(|w|)), from, to, i)
  {
    Counts32Exact(w, idxs, from, to, i);
    SameCount(pick, Picks(Smooth32(w, idxs), Zeros(|w|)), from, to, i);
  }

  lemma {:induction false} TurnsRun(w: seq<int>, idxs: seq<nat>, k: nat)
    requires InRange(idxs, |w|) && |idxs| >= 2
    ensures Run(Turns(w, idxs), Zeros(|w|), k) == Run(Smooth32(w, idxs), Zeros(|w|), k)
    ensures |Run(Turns(w, idxs), Zeros(|w|), k)| == |w|
    ensures Picks(Turns(w, idxs), Zeros(|w|))(k) == Picks(Smooth32(w, idxs), Zeros(|w|))(k)
  {
    if k > 0 {
      TurnsRun(w, idxs, k - 1);
    }
  }

  lemma {:induction false} SingleFair(w: seq<int>, idxs: seq<nat>, start: nat, i: nat)
    requires InRange(idxs, |w|) && |idxs| == 1 && i < |w| && Total(w, idxs) >= 0
    ensures Count(Picks(Turns(w, idxs), Zeros(|w|)), start, start + Total(w, idxs), i) == Effective(w, idxs)[i]
  {
    var e := Effective(w, idxs);
    assert idxs[0] in idxs;
    forall j | 0 <= j < |e|
      ensures e[j] == if j == idxs[0] then w[j] else 0
    {
      EffectiveAt(w, idxs, j);
    }
    SingleDue(e, idxs[0]);
    SinglePicks(w, idxs, start, start + Sum(e), i);
  }

  lemma {:induction false} SinglePicks(w: seq<int>, idxs: seq<nat>, from: nat, to: nat, i: nat)
    requires InRange(idxs, |w|) && |idxs| == 1 && from <= to
    ensures Count(Picks(Turns(w, idxs), Zeros(|w|)), from, to, i) == if i == idxs[0] then to - from else 0
  {
    if from < to {
      SinglePicks(w, idxs, from, to - 1, i);
      SingleRun(w, idxs, to - 1);
    }
  }

  lemma {:induction false} SingleRun(w: seq<int>, idxs: seq<nat>, k: nat)
    requires InRange(idxs, |w|) && |idxs| == 1
    ensures Run(Turns(w, idxs), Zeros(|w|), k) == Zeros(|w|)
    ensures Picks(Turns(w, idxs), Zeros(|w|))(k) == idxs[0]
  {
    if k > 0 {
      SingleRun(w, idxs, k - 1);
    }
  }

  lemma {:induction false} SingleDue(d: seq<int>, i: nat)
    requires i < |d| && forall j :: 0 <= j < |d| && j != i ==> d[j] == 0
    ensures Sum(d) == d[i]
  {
    assert d == Zeros(|d|)[i := d[i]];
    SumZeros(|d|);
    SumUpdate(Zeros(|d|), i, d[i]);
  }

  lemma SameCount(pick: nat -> int, pick': nat -> int, from: nat, to: nat, i: int)
    requires from <= to && forall k: nat :: pick(k) == pick'(k)
    ensures Count(pick, from, to, i) == Count(pick', from, to, i)
  {
  }

  // ----- when a selection finds nothing

  ghost predicate AllFit(cur: seq<int>) {
    forall i :: 0 <= i < |cur| ==> Int32.Fits(cur[i])
  }

  /** The bump brings backend i to zero or above. A weight beyond int32 is skipped, and a
      current weight at the maximum wraps to the minimum. */
  predicate Lifts(w: seq<int>, cur: seq<int>, i: nat)
    requires |w| == |cur| && i < |w|
  {
    w[i] <= Int32.MAX && cur[i] < Int32.MAX && cur[i] + w[i] >= 0
  }

  lemma {:induction false} LiftsIff(w: seq<int>, cur: seq<int>, i: nat)
    requires |w| == |cur| && i < |w| && w[i] >= 1 && Int32.Fits(cur[i])
    ensures Lifts(w, cur, i) <==> w[i] <= Int32.MAX && Add32(cur[i], w[i]) > -1
  {
    if cur[i] == Int32.MAX {
      assert Int32.Wrap(Int32.MAX + 1) == Int32.MIN;
    }
  }

  /** The second loop bumps every candidate once and leaves the others alone. */
  lemma {:induction false} ScanBumps(w: seq<int>, cur: seq<int>, idxs: seq<nat>, i: nat)
    requires |w| == |cur| && Increasing(idxs, |w|) && i < |w|
    ensures Scan32(w, cur, idxs).cur[i] == if i in idxs && w[i] <= Int32.MAX then Add32(cur[i], w[i]) else cur[i]
  {
    if idxs != [] {
      var p, last := idxs[..|idxs| - 1], idxs[|idxs| - 1];
      assert idxs == p + [last] && last !in p;
      ScanBumps(w, cur, p, i);
    }
  }

  ghost predicate SomeLifts(w: seq<int>, cur: seq<int>, idxs: seq<nat>)
    requires |w| == |cur| && InRange(idxs, |w|)
  {
    exists k :: 0 <= k < |idxs| && Lifts(w, cur, idxs[k])
  }

  lemma {:induction false} SomeLiftsNext(w: seq<int>, cur: seq<int>, idxs: seq<nat>)
    requires |w| == |cur| && InRange(idxs, |w|) && idxs != []
    ensures SomeLifts(w, cur, idxs) <==>
      SomeLifts(w, cur, idxs[..|idxs| - 1]) || Lifts(w, cur, idxs[|idxs| - 1])
  {
    var n := |idxs| - 1;
    var p := idxs[..n];
    if SomeLifts(w, cur, p) {
      var k :| 0 <= k < |p| && Lifts(w, cur, p[k]);
      assert idxs[k] == p[k];
    }
    if SomeLifts(w, cur, idxs) {
      var k :| 0 <= k < |idxs| && Lifts(w, cur, idxs[k]);
      assert k < n ==> p[k] == idxs[k];
    }
  }

  /** What one round of the second loop finds. */
  lemma ScanNext(w: seq<int>, cur: seq<int>, idxs: seq<nat>)
    requires |w| == |cur| && InRange(idxs, |w|) && idxs != []
    requires var p, i := idxs[..|idxs| - 1], idxs[|idxs| - 1];
      var s := Scan32(w, cur, p);
      && s.cur[i] == cur[i] && i !in p
      && (s.best != -1 ==> s.best in p && s.cur[s.best] > -1)
    ensures var i := idxs[|idxs| - 1];
      var s, s' := Scan32(w, cur, idxs[..|idxs| - 1]), Scan32(w, cur, idxs);
      && (s'.best == s.best || s'.best == i)
      && (s'.best != -1 ==> s'.cur[s'.best] > -1)
      && (s'.best != -1 <==> s.best != -1 || (w[i] <= Int32.MAX && Add32(cur[i], w[i]) > -1))
  {
  }

  lemma {:induction false} ScanFinds(w: seq<int>, cur: seq<int>, idxs: seq<nat>)
    requires Positive(w) && |w| == |cur| && AllFit(cur) && Increasing(idxs, |w|)
    ensures var s := Scan32(w, cur, idxs);
      && (s.best != -1 ==> s.best in idxs && s.cur[s.best] > -1)
      && (s.best != -1 <==> SomeLifts(w, cur, idxs))
  {
    if idxs != [] {
      var p, i := idxs[..|idxs| - 1], idxs[|idxs| - 1];
      ScanFinds(w, cur, p);
      ScanBumps(w, cur, p, i);
      assert i !in p;
      ScanNext(w, cur, idxs);
      LiftsIff(w, cur, i);
      SomeLiftsNext(w, cur, idxs);
    }
  }

  /** Exactly when the code's selection finds a backend, from any int32 weights whatsoever: the
      bump brings some candidate to zero or above. Otherwise NextBackend indexes the backend
      list at -1. */
  lemma {:induction false} FindsIff(w: seq<int>, cur: seq<int>, idxs: seq<nat>)
    requires Positive(w) && |w| == |cur| && AllFit(cur) && Increasing(idxs, |w|)
    ensures Step32(w, cur, idxs).best != -1 <==>
      exists k :: 0 <= k < |idxs| && Lifts(w, cur, idxs[k])
  {
    ScanFinds(w, cur, idxs);
  }

  /** A reachable crash: weights 2, 2, 5; after three selections the heavy backend goes down,
      and the next selection among the two others finds nothing above -1. */
  lemma {:induction false} StuckAfterHealthChange(w: seq<int>, z: seq<int>, n: nat)
    requires w == [2, 2, 5] && z == [0, 0, 0] && n == 3
    ensures AllFound(w, z, Rounds(n))
    ensures Step32(w, RunSets32(w, z, Rounds(n)), [0, 1]).best == -1
  {
    AfterTwo(w, z, n - 1);
    EvalNext(w, z, n - 1, [-5, 4, 1], 1, [-3, -3, 6]);
    EvalStuck(w, RunSets32(w, z, Rounds(n)));
  }

  lemma {:induction false} AfterTwo(w: seq<int>, z: seq<int>, n: nat)
    requires w == [2, 2, 5] && z == [0, 0, 0] && n == 2
    ensures RunSets32(w, z, Rounds(n)) == [-5, 4, 1] && AllFound(w, z, Rounds(n))
  {
    EvalNext(w, z, n - 2, z, 2, [2, 2, -4]);
    EvalNext(w, z, n - 1, [2, 2, -4], 0, [-5, 4, 1]);
  }

  /** n selections with all three backends healthy. */
  function Rounds(n: nat): (sets: seq<seq<nat>>)
    ensures |sets| == n && Sets(sets, 3)
  {
    seq(n, _ => [0, 1, 2])
  }

  lemma {:induction false} EvalNext(w: seq<int>, z: seq<int>, n: nat, cur: seq<int>, best: nat, next: seq<int>)
    requires w == [2, 2, 5] && |z| == 3 && Evaluates(cur, best, next)
    requires RunSets32(w, z, Rounds(n)) == cur && AllFound(w, z, Rounds(n))
    ensures RunSets32(w, z, Rounds(n + 1)) == next && AllFound(w, z, Rounds(n + 1))
  {
    assert Rounds(n + 1)[..n] == Rounds(n) && Rounds(n + 1)[n] == [0, 1, 2];
    EvalStep(w, cur, best, next);
  }

  /** One selection among three backends of weights 2, 2, 5, worked out by hand. */
  predicate Evaluates(cur: seq<int>, best: nat, next: seq<int>) {
    && |cur| == 3 && best < 3 && (forall i :: 0 <= i < 3 ==> -100 < cur[i] < 100)
    && var v := [cur[0] + 2, cur[1] + 2, cur[2] + 5];
      && v[best] > -1
      && (forall i :: 0 <= i < 3 ==> v[i] <= v[best])
      && (forall i :: 0 <= i < best ==> v[i] < v[best])
      && next == v[best := v[best] - 9]
  }

  lemma {:induction false} EvalStep(w: seq<int>, cur: seq<int>, best: nat, next: seq<int>)
    requires w == [2, 2, 5] && Evaluates(cur, best, next)
    ensures Step32(w, cur, [0, 1, 2]) == Selection(next, best)
  {
    EvalTotal(w);
    EvalScan(w, cur);
  }

  lemma {:induction false} EvalTotal(w: seq<int>)
    requires w == [2, 2, 5]
    ensures Total32(w, [0, 1, 2]) == 9
  {
    var none: seq<nat>, one: seq<nat>, two: seq<nat>, three: seq<nat> := [], [0], [0, 1], [0, 1, 2];
    assert one[..0] == none && two[..1] == one && three[..2] == two;
    assert Total32(w, none) == 0;
    assert Total32(w, one) == 2;
    assert Total32(w, two) == 4;
  }

  lemma {:induction false} EvalScan(w: seq<int>, cur: seq<int>)
    requires w == [2, 2, 5] && |cur| == 3 && forall i :: 0 <= i < 3 ==> -100 < cur[i] < 100
    ensures var s, a, b, c := Scan32(w, cur, [0, 1, 2]), cur[0] + 2, cur[1] + 2, cur[2] + 5;
      && s.cur == [a, b, c]
      && s.best == if a > -1 && a >= b && a >= c then 0 else if b > -1 && b >= c then 1 else if c > -1 then 2 else -1
  {
    var none: seq<nat>, one: seq<nat>, two: seq<nat>, three: seq<nat> := [], [0], [0, 1], [0, 1, 2];
    assert one[..0] == none && two[..1] == one && three[..2] == two;
    var a := cur[0] + 2;
    assert Scan32(w, cur, none) == Selection(cur, -1);
    assert Scan32(w, cur, one) == Selection(cur[0 := a], if a > -1 then 0 else -1);
    assert Scan32(w, cur, two).cur == [a, cur[1] + 2, cur[2]];
  }

  lemma {:induction false} EvalStuck(w: seq<int>, cur: seq<int>)
    requires w == [2, 2, 5] && cur == [-3, -3, 6]
    ensures Step32(w, cur, [0, 1]).best == -1
  {
    assert [0, 1][..1] == [0] && [0][..0] == [];
    assert Scan32(w, cur, [0]) == Selection([-1, -3, 6], -1);
  }

  lemma {:induction false} FruitlessBumps(w: seq<int>, cur: seq<int>, idxs: seq<nat>, i: nat)
    requires Positive(w) && |w| == |cur| && AllFit(cur) && Increasing(idxs, |w|) && i in idxs
    requires w[i] <= Int32.MAX && cur[i] < Int32.MAX && Step32(w, cur, idxs).best == -1
    ensures AllFit(Step32(w, cur, idxs).cur)
    ensures Step32(w, cur, idxs).cur[i] == cur[i] + w[i] <= -1
  {
    FindsIff(w, cur, idxs);
    forall j | 0 <= j < |w|
      ensures Int32.Fits(Step32(w, cur, idxs).cur[j])
    {
      ScanBumps(w, cur, idxs, j);
    }
    ScanBumps(w, cur, idxs, i);
    var k :| 0 <= k < |idxs| && idxs[k] == i;
    assert !Lifts(w, cur, idxs[k]);
  }

  /** A stuck balancer recovers, from any int32 weights: every fruitless selection still bumps
      the weights, so as long as some candidate owes at most `debt`, at most `debt` selections
      in a row can fail. */
  lemma {:induction false} RecoversWithin(w: seq<int>, cur: seq<int>, idxs: seq<nat>, i: nat,
                                          debt: nat) returns (k: nat)
    requires Positive(w) && |w| == |cur| && AllFit(cur) && Increasing(idxs, |w|) && i in idxs
    requires w[i] <= Int32.MAX && cur[i] < Int32.MAX && cur[i] + debt >= 0
    ensures k <= debt && Picks(Smooth32(w, idxs), cur)(k) != -1
    decreases debt
  {
    if Step32(w, cur, idxs).best != -1 {
      k := 0;
      assert Run(Smooth32(w, idxs), cur, k) == cur;
    } else {
      FruitlessBumps(w, cur, idxs, i);
      var rest := RecoversWithin(w, Step32(w, cur, idxs).cur, idxs, i, debt - 1);
      OneLater(Smooth32(w, idxs), cur, rest);
      k := rest + 1;
    }
  }

  /** However health has changed before, a stable set of candidates is served again after at
      most W fruitless selections. */
  lemma {:induction false} RecoversAlways(w: seq<int>, sets: seq<seq<nat>>, idxs: seq<nat>) returns (k: nat)
    requires Positive(w) && |w| * Sum(w) <= Int32.MAX && Sets(sets, |w|) && Increasing(idxs, |w|) && idxs != []
    ensures k <= Sum(w) && Picks(Smooth32(w, idxs), RunSets32(w, Zeros(|w|), sets))(k) != -1
  {
    var cur := RunSets32(w, Zeros(|w|), sets);
    NoOverflowEver(w, sets);
    SumBounds(w);
    Split(|w|, Sum(w));
    k := RecoversWithin(w, cur, idxs, idxs[0], Sum(w));
  }

  lemma {:induction false} OneLater(step: Rule, cur: seq<int>, k: nat)
    ensures Picks(step, cur)(k + 1) == Picks(step, step(cur).cur)(k)
  {
    assert Run(step, cur, 1) == step(Run(step, cur, 0)).cur;
    RunCompose(step, cur, 1, k);
  }
}
