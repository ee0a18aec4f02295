/** Runs of a balancing rule on a fixed set of backends, and counting over the infinite
    schedules they produce: `pick(k)` is the backend chosen by call number k. */
module Schedules {
  import opened Sums

  /** One selection: the counters afterwards and the chosen backend. */
  datatype Selection = Selection(cur: seq<int>, best: int)

  type Rule = seq<int> -> Selection

  /** Values after k selections. */
  function Run(step: Rule, cur: seq<int>, k: nat): seq<int> {
    if k == 0 then cur else step(Run(step, cur, k - 1)).cur
  }

  /** The schedule: who is chosen by each selection. */
  function Picks(step: Rule, cur: seq<int>): nat -> int {
    (k: nat) => step(Run(step, cur, k)).best
  }

  lemma {:induction false} RunCompose(step: Rule, cur: seq<int>, a: nat, b: nat)
    ensures Run(step, cur, a + b) == Run(step, Run(step, cur, a), b)
  {
    if b > 0 {
      RunCompose(step, cur, a, b - 1);
    }
  }

  /** From values that recur after P selections, the schedule has period P. */
  lemma {:induction false} Repeats(step: Rule, cur: seq<int>, P: nat, k: nat)
    requires Run(step, cur, P) == cur
    ensures Picks(step, cur)(k + P) == Picks(step, cur)(k)
  {
    RunCompose(step, cur, P, k);
    assert Run(step, cur, k + P) == Run(step, cur, k);
  }

  // ----- counting

  /** How often backend i is chosen by the calls numbered from..to-1. */
  function Count(pick: nat -> int, from: nat, to: nat, i: int): nat
    requires from <= to
  {
    if from == to then 0 else Count(pick, from, to - 1, i) + if pick(to - 1) == i then 1 else 0
  }

  function Counts(pick: nat -> int, k: nat, n: nat): (c: seq<int>)
    ensures |c| == n && forall i :: 0 <= i < n ==> c[i] == Count(pick, 0, k, i)
  {
    seq(n, i requires 0 <= i < n => Count(pick, 0, k, i))
  }

  lemma {:induction false} CountsSum(pick: nat -> int, k: nat, n: nat)
    requires forall j: nat :: j < k ==> 0 <= pick(j) < n
    ensures Sum(Counts(pick, k, n)) == k
  {
    if k == 0 {
      assert Counts(pick, 0, n) == Zeros(n);
      SumZeros(n);
    } else {
      CountsSum(pick, k - 1, n);
      var c, b := Counts(pick, k - 1, n), pick(k - 1);
      assert Counts(pick, k, n) == c[b := c[b] + 1];
      SumUpdate(c, b, c[b] + 1);
    }
  }

  lemma {:induction false} CountFirst(pick: nat -> int, from: nat, to: nat, i: int)
    requires from < to
    ensures Count(pick, from, to, i)
            == (if pick(from) == i then 1 else 0) + Count(pick, from + 1, to, i)
  {
    if from + 1 < to {
      CountFirst(pick, from, to - 1, i);
    }
  }

  /** In a schedule of period P, a window of P calls counts the same wherever it starts. */
  lemma {:induction false} WindowShift(pick: nat -> int, P: nat, start: nat, i: int)
    requires P >= 1 && forall k: nat :: pick(k + P) == pick(k)
    ensures Count(pick, start, start + P, i) == Count(pick, 0, P, i)
  {
    if start > 0 {
      WindowShift(pick, P, start - 1, i);
      CountFirst(pick, start - 1, start - 1 + P, i);
      assert pick(start - 1 + P) == pick(start - 1);
    }
  }

  /** Counting only looks at the calls in the window; a common offset does not matter. */
  lemma {:induction false} CountAgrees(pick: nat -> int, from: nat, to: nat, pick': nat -> int, offset: nat, i: int)
    requires from <= to
    requires forall k: nat :: from <= k < to ==> pick(k) == pick'(k + offset)
    ensures Count(pick, from, to, i) == Count(pick', from + offset, to + offset, i)
  {
    if from < to {
      CountAgrees(pick, from, to - 1, pick', offset, i);
    }
  }
}
