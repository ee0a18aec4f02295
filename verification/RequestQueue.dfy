/** The bounded in-memory request queue (internal/services/queue/memory_queue.go).

    Where Go's select finds several ready cases it chooses freely; the choice is an argument. */
module RequestQueue {

  /** What a caller gets back. `Waits` is a Dequeue that blocks on its second select; `Phantom`
      is a receive from a closed empty channel: it reads nil, is counted, and panics.
      `SendPanics` is a send on a closed channel. */
  datatype Outcome<T> =
    | Enqueued | Full | SendPanics
    | Dequeued(request: T) | Empty | Timeout | Waits | Phantom
    | Cancelled | Closed

  /** What a caller's environment shows at a select, and the case preferred among ready ones. */
  datatype Ready = Ready(contextDone: bool, timerFired: bool, prefersItem: bool, prefersTimer: bool)

  /** The queue's fields, together with everything ever accepted and handed out. */
  datatype Queue<T> = Queue(
    buffer: seq<T>, maxSize: nat, hasTimeout: bool,
    enqueued: int, dequeued: int, dropped: int, closed: bool,
    accepted: seq<T>, delivered: seq<T>, phantoms: nat)

  function Empties<T>(maxSize: nat, hasTimeout: bool): Queue<T> {
    Queue([], maxSize, hasTimeout, 0, 0, 0, false, [], [], 0)
  }

  // ----- the operations

  function Offer<T>(q: Queue<T>, x: T, env: Ready): (Queue<T>, Outcome<T>) {
    if q.closed then (q, Closed) else Send(q, x, env)
  }

  /** The select of Enqueue. The code has given up its lock by then, so it can also meet a
      channel that was closed since. */
  function Send<T>(q: Queue<T>, x: T, env: Ready): (Queue<T>, Outcome<T>) {
    if q.closed then (q, if env.contextDone && !env.prefersItem then Cancelled else SendPanics)
    else if |q.buffer| < q.maxSize && (env.prefersItem || !env.contextDone) then
      (q.(buffer := q.buffer + [x], enqueued := q.enqueued + 1, accepted := q.accepted + [x]), Enqueued)
    else if env.contextDone then (q, Cancelled)
    else (q.(dropped := q.dropped + 1), Full)
  }

  function Take<T>(q: Queue<T>): (Queue<T>, Outcome<T>)
    requires q.buffer != []
  {
    (q.(buffer := q.buffer[1..], dequeued := q.dequeued + 1, delivered := q.delivered + [q.buffer[0]]),
     Dequeued(q.buffer[0]))
  }

  function Interrupted<T>(env: Ready, hasTimeout: bool): Outcome<T>
  {
    if env.contextDone && !(hasTimeout && env.timerFired && env.prefersTimer) then Cancelled else Timeout
  }

  /** The first select of Dequeue. */
  function Poll<T>(q: Queue<T>, env: Ready): (Queue<T>, Outcome<T>) {
    var interrupted := env.contextDone || (q.hasTimeout && env.timerFired);
    if q.closed then (q, Closed)
    else if q.buffer != [] && (env.prefersItem || !interrupted) then Take(q)
    else if interrupted then (q, Interrupted(env, q.hasTimeout))
    else if !q.hasTimeout then (q, Empty)
    else (q, Waits)
  }

  /** The second, blocking select, at the moment one of its cases is ready; also the first one
      when it meets a channel that was closed since the check. */
  function Wake<T>(q: Queue<T>, env: Ready): (Queue<T>, Outcome<T>) {
    var interrupted := env.contextDone || env.timerFired;
    if q.buffer != [] && (env.prefersItem || !interrupted) then Take(q)
    else if interrupted && !(env.prefersItem && q.closed && q.buffer == []) then
      (q, Interrupted(env, true))
    else if q.closed then (q.(dequeued := q.dequeued + 1, phantoms := q.phantoms + 1), Phantom)
    else (q, Waits)
  }

  function Shut<T>(q: Queue<T>): Queue<T> {
    q.(closed := true)
  }

  class MemoryQueue<T> {
    var buffer: seq<T>
    const maxSize: nat
    const hasTimeout: bool
    var enqueued: int
    var dequeued: int
    var dropped: int
    var closed: bool
    ghost var accepted: seq<T>
    ghost var delivered: seq<T>
    ghost var phantoms: nat

    ghost function View(): Queue<T>
      reads this
    {
      Queue(buffer, maxSize, hasTimeout, enqueued, dequeued, dropped, closed, accepted, delivered, phantoms)
    }

    constructor (maxSize: nat, hasTimeout: bool)
      ensures View() == Empties(maxSize, hasTimeout)
    {
      buffer, enqueued, dequeued, dropped, closed := [], 0, 0, 0, false;
      this.maxSize, this.hasTimeout := maxSize, hasTimeout;
      accepted, delivered, phantoms := [], [], 0;
    }

    method Enqueue(x: T, env: Ready) returns (r: Outcome<T>)
      modifies this
      ensures (View(), r) == Offer(old(View()), x, env)
    {
      if closed {
        return Closed;
      }
      r := Select(x, env);
    }

    method Select(x: T, env: Ready) returns (r: Outcome<T>)
      modifies this
      ensures (View(), r) == Send(old(View()), x, env)
    {
      if closed {
        return if env.contextDone && !env.prefersItem then Cancelled else SendPanics;
      }
      if |buffer| < maxSize && (env.prefersItem || !env.contextDone) {
        buffer := buffer + [x];
        enqueued := enqueued + 1;
        accepted := accepted + [x];
        return Enqueued;
      }
      if env.contextDone {
        return Cancelled;
      }
      dropped := dropped + 1;
      return Full;
    }

    method Dequeue(env: Ready) returns (r: Outcome<T>)
      modifies this
      ensures (View(), r) == Poll(old(View()), env)
    {
      if closed {
        return Closed;
      }
      var interrupted := env.contextDone || (hasTimeout && env.timerFired);
      if buffer != [] && (env.prefersItem || !interrupted) {
        r := Receive();
      } else if interrupted {
        r := Interrupted(env, hasTimeout);
      } else if !hasTimeout {
        r := Empty;
      } else {
        r := Waits;
      }
    }

    method Await(env: Ready) returns (r: Outcome<T>)
      modifies this
      ensures (View(), r) == Wake(old(View()), env)
    {
      var interrupted := env.contextDone || env.timerFired;
      if buffer != [] && (env.prefersItem || !interrupted) {
        r := Receive();
      } else if interrupted && !(env.prefersItem && closed && buffer == []) {
        r := Interrupted(env, true);
      } else if closed {
        dequeued := dequeued + 1;
        phantoms := phantoms + 1;
        r := Phantom;
      } else {
        r := Waits;
      }
    }

    method Receive() returns (r: Outcome<T>)
      requires buffer != []
      modifies this
      ensures (View(), r) == Take(old(View()))
    {
      r := Dequeued(buffer[0]);
      delivered := delivered + [buffer[0]];
      buffer := buffer[1..];
      dequeued := dequeued + 1;
    }

    method Close()
      modifies this
      ensures View() == Shut(old(View()))
    {
      closed := true;
    }
  }

  // ----- every run

  datatype Event<T> =
    | Enqueues(x: T, env: Ready)
    | SendsLate(x: T, env: Ready)
    | Dequeues(env: Ready)
    | Awaits(env: Ready)
    | Closes

  function Step<T>(q: Queue<T>, ev: Event<T>): Queue<T> {
    match ev
    case Enqueues(x, env) => Offer(q, x, env).0
    case SendsLate(x, env) => Send(q, x, env).0
    case Dequeues(env) => Poll(q, env).0
    case Awaits(env) => Wake(q, env).0
    case Closes => Shut(q)
  }

  function Run<T>(q: Queue<T>, evs: seq<Event<T>>): Queue<T> {
    if evs == [] then q else Step(Run(q, evs[..|evs| - 1]), evs[|evs| - 1])
  }

  /** Bounded, first in first out, and every count accounted for. */
  ghost predicate Lawful<T>(q: Queue<T>) {
    && |q.buffer| <= q.maxSize
    && q.accepted == q.delivered + q.buffer
    && q.enqueued == |q.accepted|
    && q.dequeued == |q.delivered| + q.phantoms
    && (q.phantoms > 0 ==> q.closed)
  }

  /** Nothing that was accepted or delivered is forgotten. */
  ghost predicate Extends<T>(q: Queue<T>, q': Queue<T>) {
    q.accepted <= q'.accepted && q.delivered <= q'.delivered
  }

  lemma TakeLawful<T>(q: Queue<T>)
    requires Lawful(q) && q.buffer != []
    ensures Lawful(Take(q).0) && Extends(q, Take(q).0)
  {
  }

  lemma SendLawful<T>(q: Queue<T>, x: T, env: Ready)
    requires Lawful(q)
    ensures Lawful(Send(q, x, env).0) && Extends(q, Send(q, x, env).0)
  {
  }

  lemma {:induction false} StepLawful<T>(q: Queue<T>, ev: Event<T>)
    requires Lawful(q)
    ensures Lawful(Step(q, ev)) && Extends(q, Step(q, ev))
  {
    if ev.Enqueues? || ev.SendsLate? {
      SendLawful(q, ev.x, ev.env);
    } else if q.buffer != [] {
      TakeLawful(q);
    }
  }

  /** The k-th event is a blocked receive that a closed channel wakes although nothing is left
      in it: the queue was closed before, is empty, and no timer or context wins. */
  ghost predicate WokenByClose<T>(q: Queue<T>, evs: seq<Event<T>>, k: nat)
    requires k < |evs|
  {
    && evs[k].Awaits? && Closes in evs[..k] && Run(q, evs[..k]).buffer == []
    && (evs[k].env.prefersItem || !(evs[k].env.contextDone || evs[k].env.timerFired))
  }

  lemma StepCloses<T>(q: Queue<T>, ev: Event<T>)
    ensures Step(q, ev).closed <==> q.closed || ev == Closes
  {
  }

  lemma StepAfterClose<T>(q: Queue<T>, ev: Event<T>)
    requires q.closed
    ensures var r := Step(q, ev);
      r.accepted == q.accepted && r.enqueued == q.enqueued && r.dropped == q.dropped
  {
  }

  lemma RunLast<T>(q: Queue<T>, evs: seq<Event<T>>)
    requires evs != []
    ensures Run(q, evs) == Step(Run(q, evs[..|evs| - 1]), evs[|evs| - 1])
    ensures Closes in evs <==> Closes in evs[..|evs| - 1] || evs[|evs| - 1] == Closes
  {
  }

  lemma {:induction false} ClosedByEvents<T>(q: Queue<T>, evs: seq<Event<T>>)
    ensures Run(q, evs).closed <==> q.closed || Closes in evs
  {
    if evs != [] {
      var k := |evs| - 1;
      ClosedByEvents(q, evs[..k]);
      RunLast(q, evs);
      StepCloses(Run(q, evs[..k]), evs[k]);
    }
  }

  lemma StepPhantom<T>(q: Queue<T>, ev: Event<T>)
    ensures Step(q, ev).phantoms == q.phantoms +
      if ev.Awaits? && q.closed && q.buffer == [] && (ev.env.prefersItem || !(ev.env.contextDone || ev.env.timerFired))
      then 1 else 0
  {
  }

  /** The last event is counted without a request exactly when it is such a receive. */
  lemma {:induction false} LastWoken<T>(q: Queue<T>, evs: seq<Event<T>>)
    requires evs != [] && !q.closed
    ensures var k := |evs| - 1;
      Run(q, evs).phantoms == Run(q, evs[..k]).phantoms + if WokenByClose(q, evs, k) then 1 else 0
  {
    var k := |evs| - 1;
    ClosedByEvents(q, evs[..k]);
    RunLast(q, evs);
    StepPhantom(Run(q, evs[..k]), evs[k]);
  }

  lemma {:induction false} WokenPrefix<T>(q: Queue<T>, evs: seq<Event<T>>, k: nat)
    requires k < |evs| - 1
    ensures WokenByClose(q, evs, k) <==> WokenByClose(q, evs[..|evs| - 1], k)
  {
    assert evs[..|evs| - 1][..k] == evs[..k];
  }

  lemma {:induction false} PhantomsIff<T>(q: Queue<T>, evs: seq<Event<T>>)
    requires !q.closed && q.phantoms == 0
    ensures Run(q, evs).phantoms == 0 <==> forall k :: 0 <= k < |evs| ==> !WokenByClose(q, evs, k)
  {
    if evs != [] {
      var n := |evs| - 1;
      PhantomsIff(q, evs[..n]);
      LastWoken(q, evs);
      forall k | 0 <= k < n
        ensures WokenByClose(q, evs, k) <==> WokenByClose(q, evs[..n], k)
      {
        WokenPrefix(q, evs, k);
      }
    }
  }

  lemma {:induction false} RunLawful<T>(maxSize: nat, hasTimeout: bool, evs: seq<Event<T>>)
    ensures Lawful(Run(Empties(maxSize, hasTimeout), evs))
  {
    if evs != [] {
      var k := |evs| - 1;
      RunLawful(maxSize, hasTimeout, evs[..k]);
      StepLawful(Run(Empties(maxSize, hasTimeout), evs[..k]), evs[k]);
    }
  }

  /** In every run the size is bounded and the output is a prefix of the input; enqueued minus
      dequeued is the size exactly when no receive is woken by the closing of an empty queue. */
  lemma {:induction false} RunLaws<T>(maxSize: nat, hasTimeout: bool, evs: seq<Event<T>>)
    ensures var q0: Queue<T> := Empties(maxSize, hasTimeout);
      var q := Run(q0, evs);
      && Lawful(q)
      && q.delivered <= q.accepted
      && (q.enqueued - q.dequeued == |q.buffer| <==> forall k :: 0 <= k < |evs| ==> !WokenByClose(q0, evs, k))
  {
    RunLawful(maxSize, hasTimeout, evs);
    PhantomsIff(Empties(maxSize, hasTimeout), evs);
    var q := Run(Empties<T>(maxSize, hasTimeout), evs);
    assert q.accepted == q.delivered + q.buffer;
  }

  /** Closing an empty queue under a blocked receive: one dequeue is counted, and none was
      enqueued. */
  lemma {:induction false} MiscountedRun<T>(maxSize: nat, hasTimeout: bool)
    ensures var evs: seq<Event<T>> := [Closes, Awaits(Ready(false, false, true, false))];
      var q := Run(Empties(maxSize, hasTimeout), evs);
      q.buffer == [] && q.enqueued - q.dequeued == -1
  {
    var evs: seq<Event<T>> := [Closes, Awaits(Ready(false, false, true, false))];
    var q0, one := Empties<T>(maxSize, hasTimeout), evs[..1];
    assert one == [Closes] && one[..0] == [];
    assert Run(q0, one) == Shut(q0);
    assert Run(q0, evs) == Step(Shut(q0), evs[1]);
  }

  /** Once closed, a queue accepts, drops and counts no further request, whatever the senders
      do; what it holds stays in order. */
  lemma {:induction false} ClosedIsFinal<T>(q: Queue<T>, before: seq<Event<T>>, after: seq<Event<T>>)
    requires Closes in before
    ensures var q1, q2 := Run(q, before), Run(q, before + after);
      q2.accepted == q1.accepted && q2.enqueued == q1.enqueued && q2.dropped == q1.dropped
  {
    if after == [] {
      assert before + after == before;
    } else {
      var k, evs := |after| - 1, before + after;
      ClosedIsFinal(q, before, after[..k]);
      var rest := before + after[..k];
      assert evs[..|evs| - 1] == rest && evs[|evs| - 1] == after[k];
      ClosedByEvents(q, rest);
      RunLast(q, evs);
      StepAfterClose(Run(q, rest), after[k]);
    }
  }

  // ----- what callers get, from the history alone

  lemma StepConfig<T>(q: Queue<T>, ev: Event<T>)
    ensures Step(q, ev).maxSize == q.maxSize && Step(q, ev).hasTimeout == q.hasTimeout
  {
  }

  /** How a run shows in the queue: its configuration, whether it is closed, and what waits. */
  lemma {:induction false} RunShows<T>(maxSize: nat, hasTimeout: bool, evs: seq<Event<T>>)
    ensures var q := Run(Empties<T>(maxSize, hasTimeout), evs);
      && q.maxSize == maxSize && q.hasTimeout == hasTimeout
      && (q.closed <==> Closes in evs)
      && |q.buffer| == Waiting(q) <= maxSize
      && (q.buffer != [] ==> q.buffer[0] == q.accepted[|q.delivered|])
  {
    var q0 := Empties<T>(maxSize, hasTimeout);
    if evs != [] {
      var k := |evs| - 1;
      RunShows(maxSize, hasTimeout, evs[..k]);
      RunLast(q0, evs);
      StepConfig(Run(q0, evs[..k]), evs[k]);
    }
    RunLawful(maxSize, hasTimeout, evs);
    ClosedByEvents(q0, evs);
    var q := Run(q0, evs);
    assert q.accepted == q.delivered + q.buffer;
  }

  /** Requests accepted and not handed out yet. */
  function Waiting<T>(q: Queue<T>): int {
    |q.accepted| - |q.delivered|
  }

  /** Who is accepted: after any run, on an open queue and with a live context, exactly when
      fewer than maxSize requests wait; then it is the last one and nothing is dropped. A
      refusal happens exactly at maxSize and is counted. */
  lemma {:induction false} OfferDecides<T>(maxSize: nat, hasTimeout: bool, evs: seq<Event<T>>, x: T, env: Ready)
    ensures
      var q := Run(Empties<T>(maxSize, hasTimeout), evs);
      var (q', r) := Offer(q, x, env);
      && (Closes in evs ==> r == Closed && q' == q)
      && (Closes !in evs && !env.contextDone ==>
        && (r == Enqueued <==> Waiting(q) < maxSize)
        && (r == Full <==> Waiting(q) == maxSize)
        && q'.accepted == (if r == Enqueued then q.accepted + [x] else q.accepted)
        && q'.buffer == (if r == Enqueued then q.buffer + [x] else q.buffer)
        && q'.dropped == q.dropped + if r == Full then 1 else 0)
      && (Closes !in evs && env.contextDone && r != Enqueued ==> r == Cancelled && q' == q)
  {
    RunShows(maxSize, hasTimeout, evs);
  }

  /** Who is handed out: after any run, on an open queue with nothing interrupting, the request
      that was accepted first among those waiting. */
  lemma {:induction false} DequeueDecides<T>(maxSize: nat, hasTimeout: bool, evs: seq<Event<T>>, env: Ready)
    ensures
      var q := Run(Empties<T>(maxSize, hasTimeout), evs);
      var (q', r) := Poll(q, env);
      var timer := hasTimeout && env.timerFired;
      && (Closes in evs ==> r == Closed && q' == q)
      && (Closes !in evs && !env.contextDone && !timer && Waiting(q) > 0 ==> Hands(q, q', r))
      && (Closes !in evs && !env.contextDone && !timer && Waiting(q) == 0 ==>
        q' == q && r == if hasTimeout then Waits else Empty)
      && (Closes !in evs && (env.contextDone || timer) ==> Hands(q, q', r) || q' == q)
      && (Closes !in evs && env.contextDone && !timer && Waiting(q) == 0 ==> r == Cancelled)
      && (Closes !in evs && !env.contextDone && timer && Waiting(q) == 0 ==> r == Timeout)
  {
    RunShows(maxSize, hasTimeout, evs);
  }

  /** The oldest waiting request is handed out. */
  ghost predicate Hands<T>(q: Queue<T>, q': Queue<T>, r: Outcome<T>) {
    && 0 <= |q.delivered| < |q.accepted|
    && r == Dequeued(q.accepted[|q.delivered|])
    && q'.delivered == q.delivered + [q.accepted[|q.delivered|]] && q'.accepted == q.accepted
  }

  /** The same for a receive that was blocked, which also a closed queue still serves. */
  lemma {:induction false} AwaitDecides<T>(maxSize: nat, hasTimeout: bool, evs: seq<Event<T>>, env: Ready)
    ensures
      var q := Run(Empties<T>(maxSize, hasTimeout), evs);
      var (q', r) := Wake(q, env);
      && (!env.contextDone && !env.timerFired && Waiting(q) > 0 ==> Hands(q, q', r))
      && (!env.contextDone && !env.timerFired && Waiting(q) == 0 ==> r == if Closes in evs then Phantom else Waits)
      && (Closes !in evs && env.contextDone && !env.timerFired && Waiting(q) == 0 ==> r == Cancelled && q' == q)
      && (Closes !in evs && !env.contextDone && env.timerFired && Waiting(q) == 0 ==> r == Timeout && q' == q)
  {
    RunShows(maxSize, hasTimeout, evs);
  }
}
