/** Plain round-robin with its wrapping int32 counter
    (internal/services/loadbalancer/round_robin.go). */
module RoundRobin {
  import opened Backends
  import opened Division
  import opened Schedules
  import Int32

  class RoundRobinBalancer {
    var backends: seq<Backend>
    var current: int
    var closed: bool

    constructor (bs: seq<Backend>)
      ensures backends == bs && current == -1 && !closed
    {
      backends := bs;
      current := -1;
      closed := false;
    }

    method NextBackend() returns (r: Outcome)
      modifies `current
      ensures r.Chosen? ==> r.index in Selectable(backends)
      ensures closed || Selectable(backends) == [] || |Selectable(backends)| > Int32.MAX ==> r == NoHealthyBackends
      ensures !closed && |Selectable(backends)| == 1 ==> r == Chosen(Selectable(backends)[0])
      ensures closed || |Selectable(backends)| < 2 || |Selectable(backends)| > Int32.MAX ==> current == old(current)
      ensures !closed && 2 <= |Selectable(backends)| <= Int32.MAX ==>
        var s := Selectable(backends);
        var index := Turn(old(current), |s|);
        && current == Int32.Wrap(old(current) + 1)
        && r == if index < 0 then Crashed else Chosen(s[index])
    {
      if closed {
        return NoHealthyBackends;
      }
      var candidates := Candidates(backends);
      if |candidates| == 0 {
        return NoHealthyBackends;
      }
      if |candidates| == 1 {
        return Chosen(candidates[0]);
      }
      if |candidates| > Int32.MAX {
        return NoHealthyBackends;
      }
      current := Int32.Wrap(current + 1);
      var index := Int32.TruncRem(current, |candidates|);
      r := if index < 0 then Crashed else Chosen(candidates[index]);
    }

    method UpdateBackendState(url: string, s: BackendState)
      modifies `backends
      ensures backends == WithState(old(backends), url, s)
    {
      var i := FindUrl(backends, url);
      if i < |backends| {
        backends := backends[i := backends[i].(state := s)];
      }
    }
  }

  /** The position chosen among n candidates by a call that finds the counter at `current`. */
  function Turn(current: int, n: nat): (index: int)
    requires n > 0
    ensures index < n
  {
    Int32.TruncRem(Int32.Wrap(current + 1), n)
  }

  /** Positions chosen by consecutive calls that start at counter c. */
  function Turns(c: int, n: nat): nat -> int
    requires n > 0
  {
    (k: nat) => Turn(Int32.Wrap(c + k), n)
  }

  lemma {:induction false} EachOnce(pick: nat -> int, k: nat, t: int)
    requires forall j: nat :: j < k ==> pick(j) == j
    ensures Count(pick, 0, k, t) == if 0 <= t < k then 1 else 0
  {
    if k > 0 {
      EachOnce(pick, k - 1, t);
    }
  }

  /** While the counter does not reach its maximum, any n consecutive calls choose each of the
      n candidates exactly once. */
  lemma {:induction false} EvenTurns(c: int, n: nat, start: nat, t: nat)
    requires t < n && -1 <= c && c + start + n <= Int32.MAX
    ensures Count(Turns(c, n), start, start + n, t) == 1
  {
    ResidueOnce(n, start + c + 1, t);
    forall k: nat | start <= k < start + n
      ensures Turns(c, n)(k) == Residues(n)(k + (c + 1))
    {
      TurnIsResidue(c, n, k);
    }
    CountAgrees(Turns(c, n), start, start + n, Residues(n), c + 1, t);
  }

  lemma {:induction false} TurnIsResidue(c: int, n: nat, k: nat)
    requires n > 0 && -1 <= c && c + k < Int32.MAX
    ensures Turns(c, n)(k) == (k + c + 1) % n
  {
    assert Int32.Wrap(c + k) == c + k && Int32.Wrap(c + k + 1) == c + k + 1;
    assert Turn(c + k, n) == (c + k + 1) % n;
  }

  function Residues(n: nat): nat -> int
    requires n > 0
  {
    (k: nat) => k % n
  }

  lemma {:induction false} ResidueOnce(n: nat, start: nat, t: nat)
    requires t < n
    ensures Count(Residues(n), start, start + n, t) == 1
  {
    forall k: nat
      ensures Residues(n)(k + n) == Residues(n)(k)
    {
      AddPeriod(k, n);
    }
    EachOnce(Residues(n), n, t);
    WindowShift(Residues(n), n, start, t);
  }

  /** Exactly when a call crashes: it advances the counter to a negative value, that is, it
      finds the counter at its maximum or already below -1, and n does not divide that value. */
  lemma CrashIff(current: int, n: nat)
    requires Int32.Fits(current) && n >= 2
    ensures Turn(current, n) < 0 <==>
      || (current == Int32.MAX && 0x8000_0000 % n != 0)
      || (current < -1 && (-(current + 1)) % n != 0)
  {
  }

  /** With three candidates the call after the counter's maximum crashes. */
  lemma WrapCrashes()
    ensures Turn(Int32.MAX, 3) == -2
  {
  }
}
