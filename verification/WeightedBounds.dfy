/** How far the current weights of smooth weighted round-robin can move over arbitrary sequences
    of candidate sets, fruitless selections included.

    One entry alone cannot be bounded step by step, nor is the sum kept: a fruitless selection
    raises it. What every step keeps is a bound on the sum of any k of the n entries, concave
    in k. */
module WeightedBounds {
  import opened Sums
  import opened Backends
  import opened WeightedRoundRobin
  import opened WeightedFairness

  // ----- sums over some of the entries

  ghost predicate Within(T: set<nat>, n: nat) {
    forall i :: i in T ==> i < n
  }

  ghost function SumOver(v: seq<int>, T: set<nat>): int {
    if v == [] then 0 else
      var k := |v| - 1;
      SumOver(v[..k], T) + if k in T then v[k] else 0
  }

  lemma {:induction false} SumOverPlus(a: seq<int>, b: seq<int>, T: set<nat>)
    requires |a| == |b|
    ensures SumOver(Plus(a, b), T) == SumOver(a, T) + SumOver(b, T)
  {
    if a != [] {
      var k := |a| - 1;
      assert Plus(a, b)[..k] == Plus(a[..k], b[..k]);
      SumOverPlus(a[..k], b[..k], T);
    }
  }

  lemma {:induction false} SumOverAgrees(a: seq<int>, b: seq<int>, T: set<nat>)
    requires |a| == |b| && forall i :: 0 <= i < |a| && i in T ==> a[i] == b[i]
    ensures SumOver(a, T) == SumOver(b, T)
  {
    if a != [] {
      SumOverAgrees(a[..|a| - 1], b[..|a| - 1], T);
    }
  }

  lemma {:induction false} SumOverOutside(v: seq<int>, T: set<nat>, b: nat)
    requires b >= |v|
    ensures SumOver(v, T) == SumOver(v, T - {b}) == SumOver(v, T + {b})
  {
    if v != [] {
      SumOverOutside(v[..|v| - 1], T, b);
    }
  }

  lemma {:induction false} SumOverAdd(v: seq<int>, T: set<nat>, b: nat)
    requires b < |v| && b !in T
    ensures SumOver(v, T + {b}) == SumOver(v, T) + v[b]
  {
    var k := |v| - 1;
    if b == k {
      SumOverOutside(v[..k], T, b);
    } else {
      SumOverAdd(v[..k], T, b);
    }
  }

  lemma {:induction false} SumOverUpdate(v: seq<int>, T: set<nat>, b: nat, x: int)
    requires b < |v|
    ensures SumOver(v[b := x], T) == SumOver(v, T) + if b in T then x - v[b] else 0
  {
    var k := |v| - 1;
    if b == k {
      assert v[b := x][..k] == v[..k];
    } else {
      assert v[b := x][..k] == v[..k][b := x];
      SumOverUpdate(v[..k], T, b, x);
    }
  }

  lemma {:induction false} SumOverSplit(v: seq<int>, T: set<nat>, S: set<nat>)
    ensures SumOver(v, T) == SumOver(v, T * S) + SumOver(v, T - S)
  {
    if v != [] {
      SumOverSplit(v[..|v| - 1], T, S);
    }
  }

  lemma {:induction false} SumOverAtMost(v: seq<int>, T: set<nat>, m: int)
    requires Within(T, |v|) && forall i :: i in T ==> v[i] <= m
    ensures SumOver(v, T) <= |T| * m
    decreases |T|
  {
    if T == {} {
      SumOverNone(v);
    } else {
      var b :| b in T;
      var rest := T - {b};
      SumOverAtMost(v, rest, m);
      SumOverAdd(v, rest, b);
      assert T == rest + {b};
      assert |T| * m == |rest| * m + m by { assert |T| == |rest| + 1; }
    }
  }

  lemma {:induction false} SumOverNone(v: seq<int>)
    ensures SumOver(v, {}) == 0
  {
    if v != [] {
      SumOverNone(v[..|v| - 1]);
    }
  }

  lemma {:induction false} SumOverPart(e: seq<int>, T: set<nat>)
    requires forall i :: 0 <= i < |e| ==> e[i] >= 0
    ensures SumOver(e, T) <= Sum(e)
  {
    if e != [] {
      SumOverPart(e[..|e| - 1], T);
    }
  }

  lemma {:induction false} WithinSize(T: set<nat>, n: nat)
    requires Within(T, n)
    ensures |T| <= n
  {
    if n > 0 {
      WithinSize(T - {n - 1}, n - 1);
      assert T <= (T - {n - 1}) + {n - 1};
      if n - 1 in T {
        assert T == (T - {n - 1}) + {n - 1};
      } else {
        assert T == T - {n - 1};
      }
    } else {
      assert T == {};
    }
  }

  // ----- the bound

  /** Twice the bound on the sum of any k of n entries, for a total weight of W. */
  function Cap(n: int, W: int): int -> int {
    (k: int) => W * (k * (2 * n - 1 - k))
  }

  /** Any k entries sum to at most half of cap(k). */
  ghost predicate Under(cap: int -> int, cur: seq<int>) {
    forall T :: Within(T, |cur|) ==> 2 * SumOver(cur, T) <= cap(|T|)
  }

  ghost predicate Capped(w: seq<int>, cur: seq<int>) {
    |cur| == |w| && Under(Cap(|w|, Sum(w)), cur)
  }

  /** The bound absorbs what j of k entries can gain on one that wins. */
  ghost predicate Absorbs(cap: int -> int, W: int, k: int, j: nat) {
    cap(k - j) + j * cap(k + 1) + 2 * (j * W) <= (j + 1) * cap(k)
  }

  /** What a bound needs to be kept: it grows up to n entries, and is concave enough. */
  ghost predicate Roomy(cap: int -> int, n: nat, W: int) {
    && (forall j, k :: 0 <= j <= k <= n ==> cap(j) <= cap(k))
    && (forall k: int, j: nat :: Absorbs(cap, W, k, j))
  }

  lemma {:induction false} CapMonotone(n: nat, W: int, j: nat, k: nat)
    requires W >= 0 && j <= k <= n
    ensures 0 <= Cap(n, W)(j) <= Cap(n, W)(k)
  {
    if j < k {
      CapMonotone(n, W, j, k - 1);
      assert k * (2 * n - 1 - k) == (k - 1) * (2 * n - 1 - (k - 1)) + 2 * (n - k);
      Grows(W, (k - 1) * (2 * n - 1 - (k - 1)), k * (2 * n - 1 - k));
    } else {
      assert j * (2 * n - 1 - j) >= 0 by { if j > 0 { Product(j, 2 * n - 1 - j); } }
      Product(W, j * (2 * n - 1 - j));
    }
  }

  lemma Product(x: int, y: int)
    requires x >= 0 && y >= 0
    ensures x * y >= 0
  {
  }

  lemma Grows(x: int, y: int, z: int)
    requires x >= 0 && y <= z
    ensures x * y <= x * z
  {
  }

  lemma {:induction false} CapRoomy(n: nat, W: int)
    requires W >= 0
    ensures Roomy(Cap(n, W), n, W)
  {
    forall j, k | 0 <= j <= k <= n
      ensures Cap(n, W)(j) <= Cap(n, W)(k)
    {
      CapMonotone(n, W, j, k);
    }
    forall k: int, j: nat
      ensures Absorbs(Cap(n, W), W, k, j)
    {
      CapAbsorbs(n, W, k, j);
    }
  }

  lemma {:induction false} CapAbsorbs(n: int, W: int, k: int, j: nat)
    requires W >= 0
    ensures Absorbs(Cap(n, W), W, k, j)
  {
    var c := 2 * n - 1;
    ConcaveFactor(c, k, j);
    Scaled(W, j, (k - j) * (c - (k - j)), (k + 1) * (c - (k + 1)), k * (c - k));
  }

  lemma {:induction false} ConcaveFactor(c: int, k: int, j: nat)
    ensures (k - j) * (c - (k - j)) + j * ((k + 1) * (c - (k + 1))) + 2 * j <= (j + 1) * (k * (c - k))
  {
    assert (k - j) * (c - (k - j)) == k * (c - k) + k * j - j * (c - k) - j * j;
    assert (k + 1) * (c - (k + 1)) == k * (c - k) - k + (c - k) - 1;
    assert j * ((k + 1) * (c - (k + 1))) == j * (k * (c - k)) - j * k + j * (c - k) - j;
    assert j * j >= j;
  }

  lemma {:induction false} Scaled(W: int, j: nat, before: int, next: int, here: int)
    requires W >= 0 && before + j * next + 2 * j <= (j + 1) * here
    ensures W * before + j * (W * next) + 2 * (j * W) <= (j + 1) * (W * here)
  {
    Grows(W, before + j * next + 2 * j, (j + 1) * here);
    Swap(W, j, next);
    Swap(W, j + 1, here);
    Spread(W, before, j * next, j);
  }

  lemma Swap(x: int, y: int, z: int)
    ensures x * (y * z) == y * (x * z)
  {
  }

  lemma Spread(W: int, a: int, b: int, j: int)
    ensures W * (a + b + 2 * j) == W * a + W * b + 2 * (j * W)
  {
  }

  /** From the two ways to bound a sum x of k entries of which j gain on the winner's m. */
  lemma {:induction false} Combine(before: int, next: int, here: int, W: int, j: nat, m: int, x: int)
    requires before + j * next + 2 * (j * W) <= (j + 1) * here
    requires 2 * x <= before + 2 * (j * m)
    requires 2 * (x + m) <= next + 2 * W
    ensures 2 * x <= here
  {
    Grows(j, 2 * (x + m), next + 2 * W);
    Pair(j, x, m);
    Pair'(j, next, W);
    assert (j + 1) * (2 * x) == 2 * (j * x) + 2 * x;
    Cancel(j + 1, 2 * x, here);
  }

  lemma Pair(j: int, x: int, m: int)
    ensures j * (2 * (x + m)) == 2 * (j * x) + 2 * (j * m)
  {
  }

  lemma Pair'(j: int, x: int, m: int)
    ensures j * (x + 2 * m) == j * x + 2 * (j * m)
  {
  }

  lemma Cancel(d: int, x: int, y: int)
    requires d >= 1 && d * x <= d * y
    ensures x <= y
  {
  }

  // ----- every step keeps it

  /** The candidates' entries are bumped by e, the others are not. */
  ghost predicate Bumps(w: seq<int>, e: seq<int>, S: set<nat>) {
    && |e| == |w| && 0 <= Sum(e) <= Sum(w)
    && forall i :: 0 <= i < |e| ==> e[i] >= 0 && (i !in S ==> e[i] == 0)
  }

  lemma {:induction false} FruitlessKeeps(cap: int -> int, w: seq<int>, cur: seq<int>, e: seq<int>, S: set<nat>,
                                          T: set<nat>)
    requires |cur| == |w| && Under(cap, cur) && Roomy(cap, |w|, Sum(w)) && Bumps(w, e, S) && Within(T, |w|)
    requires forall i :: 0 <= i < |w| && i in S ==> Plus(cur, e)[i] <= -1
    ensures 2 * SumOver(Plus(cur, e), T) <= cap(|T|)
  {
    var v := Plus(cur, e);
    SumOverSplit(v, T, S);
    SumOverAtMost(v, T * S, 0);
    SumOverAgrees(v, cur, T - S);
    WithinSize(T, |w|);
    Smaller(T - S, T);
  }

  lemma {:induction false} Smaller(A: set<nat>, B: set<nat>)
    requires A <= B
    ensures |A| <= |B|
  {
    assert B == A + (B - A);
  }

  lemma {:induction false} LoserKeeps(cap: int -> int, w: seq<int>, cur: seq<int>, e: seq<int>, S: set<nat>,
                                      b: nat, T: set<nat>)
    requires |cur| == |w| && Under(cap, cur) && Roomy(cap, |w|, Sum(w)) && Bumps(w, e, S) && Within(T, |w|)
    requires b < |w| && b !in T
    requires forall i :: 0 <= i < |w| && i in S ==> Plus(cur, e)[i] <= Plus(cur, e)[b]
    ensures 2 * SumOver(Plus(cur, e), T) <= cap(|T|)
  {
    var v, j := Plus(cur, e), |T * S|;
    var x := SumOver(v, T);
    assert 2 * x <= cap(|T| - j) + 2 * (j * v[b]) by { GainBound(cap, cur, e, S, b, T); }
    assert 2 * (x + v[b]) <= cap(|T| + 1) + 2 * Sum(w) by { WithWinner(cap, w, cur, e, S, b, T); }
    assert Absorbs(cap, Sum(w), |T|, j);
    Combine(cap(|T| - j), cap(|T| + 1), cap(|T|), Sum(w), j, v[b], x);
  }

  /** Entries that were not bumped are as before, the others are at most the winner's. */
  lemma {:induction false} GainBound(cap: int -> int, cur: seq<int>, e: seq<int>, S: set<nat>, b: nat, T: set<nat>)
    requires |cur| == |e| && Under(cap, cur) && Within(T, |cur|) && b < |cur|
    requires forall i :: 0 <= i < |e| && i !in S ==> e[i] == 0
    requires forall i :: 0 <= i < |e| && i in S ==> Plus(cur, e)[i] <= Plus(cur, e)[b]
    ensures 2 * SumOver(Plus(cur, e), T) <= cap(|T| - |T * S|) + 2 * (|T * S| * Plus(cur, e)[b])
  {
    var v := Plus(cur, e);
    SumOverSplit(v, T, S);
    SumOverAtMost(v, T * S, v[b]);
    SumOverAgrees(v, cur, T - S);
    assert |T - S| == |T| - |T * S| by { assert T == (T - S) + T * S; }
  }

  /** Together with the winner, the entries gain at most the total weight. */
  lemma {:induction false} WithWinner(cap: int -> int, w: seq<int>, cur: seq<int>, e: seq<int>, S: set<nat>,
                                      b: nat, T: set<nat>)
    requires |cur| == |w| && Under(cap, cur) && Bumps(w, e, S) && Within(T, |w|) && b < |w| && b !in T
    ensures 2 * (SumOver(Plus(cur, e), T) + Plus(cur, e)[b]) <= cap(|T| + 1) + 2 * Sum(w)
  {
    var T' := T + {b};
    SumOverAdd(Plus(cur, e), T, b);
    SumOverPlus(cur, e, T');
    SumOverPart(e, T');
    assert |T'| == |T| + 1 && Within(T', |w|);
  }

  lemma {:induction false} WinnerKeeps(cap: int -> int, w: seq<int>, cur: seq<int>, e: seq<int>, S: set<nat>,
                                       T: set<nat>)
    requires |cur| == |w| && Under(cap, cur) && Bumps(w, e, S) && Within(T, |w|)
    ensures 2 * (SumOver(Plus(cur, e), T) - Sum(e)) <= cap(|T|)
  {
    SumOverPlus(cur, e, T);
    SumOverPart(e, T);
  }

  lemma {:induction false} UnderStep(cap: int -> int, w: seq<int>, cur: seq<int>, idxs: seq<nat>)
    requires Positive(w) && |cur| == |w| && Under(cap, cur) && Roomy(cap, |w|, Sum(w)) && Increasing(idxs, |w|)
    ensures Under(cap, Step(w, cur, idxs).cur)
  {
    var e, v, s := Effective(w, idxs), Bumped(w, cur, idxs), Step(w, cur, idxs);
    var S := set i | i in idxs;
    BumpsCandidates(w, idxs, S);
    PickIsFirstMax(v, idxs);
    forall T | Within(T, |w|)
      ensures 2 * SumOver(s.cur, T) <= cap(|T|)
    {
      if s.best == -1 {
        FruitlessKeeps(cap, w, cur, e, S, T);
      } else {
        SumOverUpdate(v, T, s.best, v[s.best] - Sum(e));
        if s.best in T {
          WinnerKeeps(cap, w, cur, e, S, T);
        } else {
          LoserKeeps(cap, w, cur, e, S, s.best, T);
        }
      }
    }
  }

  /** Whatever the candidates, and whether or not one is found, a selection keeps the bound. */
  lemma {:induction false} CappedStep(w: seq<int>, cur: seq<int>, idxs: seq<nat>)
    requires Positive(w) && Capped(w, cur) && Increasing(idxs, |w|)
    ensures Capped(w, Step(w, cur, idxs).cur)
  {
    TotalBounds(w, idxs);
    CapRoomy(|w|, Sum(w));
    UnderStep(Cap(|w|, Sum(w)), w, cur, idxs);
  }

  lemma {:induction false} BumpsCandidates(w: seq<int>, idxs: seq<nat>, S: set<nat>)
    requires Positive(w) && InRange(idxs, |w|) && S == set i | i in idxs
    ensures Bumps(w, Effective(w, idxs), S)
  {
    TotalBounds(w, idxs);
    forall i | 0 <= i < |w|
      ensures Effective(w, idxs)[i] == if i in S then w[i] else 0
    {
      EffectiveAt(w, idxs, i);
    }
  }

  lemma {:induction false} CappedEntry(w: seq<int>, cur: seq<int>, i: nat)
    requires Capped(w, cur) && i < |w|
    ensures cur[i] <= (|w| - 1) * Sum(w)
  {
    SumOverNone(cur);
    SumOverAdd(cur, {}, i);
    assert {} + {i} == {i} && |{i}| == 1;
    assert 2 * SumOver(cur, {i}) <= Cap(|w|, Sum(w))(1);
    assert Cap(|w|, Sum(w))(1) == 2 * ((|w| - 1) * Sum(w));
  }

  lemma {:induction false} ZerosCapped(w: seq<int>)
    requires Sum(w) >= 0
    ensures Capped(w, Zeros(|w|))
  {
    forall T | Within(T, |w|)
      ensures 2 * SumOver(Zeros(|w|), T) <= Cap(|w|, Sum(w))(|T|)
    {
      SumOverAtMost(Zeros(|w|), T, 0);
      WithinSize(T, |w|);
      CapMonotone(|w|, Sum(w), |T|, |T|);
    }
  }
}
