/** The forwarding loops (internal/services/proxy/enhanced_service.go). The outcomes of HTTP
    calls, clocks and contexts are arguments; `k`-indexed ones give the k-th outcome. */
module Forwarding {
  import opened Sums
  import opened Backends
  import opened LeastConnections
  import opened RequestQueue
  import Int32

  const CHECK_INTERVAL: nat := 100  // milliseconds

  const SERVER_ERROR: int := 500

  /** What happens to one attempt after a backend was selected. */
  datatype Attempt = Attempt(urlParses: bool, requestBuilds: bool, sends: bool, bodyReads: bool, status: int)
  {
    predicate Succeeds() {
      urlParses && requestBuilds && sends && bodyReads && status < 500
    }
  }

  /** `Panicked` is a nil dereference: the last error of a loop that never ran, or the request
      of a receive woken by Close. */
  datatype Result = Response(status: int) | Failed | Panicked

  /** The outcomes of a forward's attempts and of its context during the backoffs. */
  datatype World = World(attempt: nat -> Attempt, cancelled: nat -> bool)

  ghost predicate NoneSucceeds(w: World, n: nat) {
    forall b: nat :: b < n ==> !w.attempt(b).Succeeds()
  }

  /** Attempt a is the first to succeed, and no backoff up to it is cancelled. */
  ghost predicate FirstSuccess(w: World, a: nat) {
    && w.attempt(a).Succeeds() && NoneSucceeds(w, a)
    && forall b: nat :: 0 < b <= a ==> !w.cancelled(b)
  }

  /** After n attempts without a response, none of their backoffs was cancelled. */
  ghost predicate Pending(w: World, selects: bool, n: nat) {
    && (selects ==> NoneSucceeds(w, n))
    && forall b: nat :: 0 < b < n ==> !w.cancelled(b)
  }

  /** The attempts end without a response after c of them: the next backoff is cancelled, or no
      attempt is left. */
  ghost predicate GivesUp(w: World, retries: int, selects: bool, c: nat) {
    0 < c <= retries && Pending(w, selects, c) && (c < retries ==> w.cancelled(c))
  }

  /** The retry loop ends at n: attempt n answers, or the loop is given up after n attempts. */
  ghost predicate Tried(w: World, retries: int, pause: nat -> nat, selects: bool,
                        r: Result, selections: nat, waited: nat, n: nat)
  {
    if r.Response? then
      && selects && n < retries && FirstSuccess(w, n) && r.status == w.attempt(n).status
      && selections == n + 1 && waited == Total(pause, n + 1)
    else
      && r == Failed && GivesUp(w, retries, selects, n) && selections == (if selects then n else 0)
      && waited == Total(pause, if n < retries then n + 1 else n)
  }

  /** The retry loop before attempt n. */
  ghost predicate Trying(w: World, pause: nat -> nat, selects: bool, selections: nat, waited: nat, n: nat) {
    Pending(w, selects, n) && selections == (if selects then n else 0) && waited == Total(pause, n)
  }

  lemma TryingNext(w: World, retries: int, pause: nat -> nat, selects: bool, selections: nat, waited: nat, n: nat)
    requires Trying(w, pause, selects, selections, waited, n) && n < retries && (n > 0 ==> !w.cancelled(n))
    ensures if selects && w.attempt(n).Succeeds()
      then Tried(w, retries, pause, selects, Response(w.attempt(n).status), selections + 1, waited + pause(n), n)
      else Trying(w, pause, selects, selections + if selects then 1 else 0, waited + pause(n), n + 1)
  {
  }

  lemma TryingEnds(w: World, retries: int, pause: nat -> nat, selects: bool, selections: nat, waited: nat, n: nat)
    requires Trying(w, pause, selects, selections, waited, n) && 0 < n <= retries && (n < retries ==> w.cancelled(n))
    ensures Tried(w, retries, pause, selects, Failed, selections, if n < retries then waited + pause(n) else waited, n)
  {
  }

  /** Attempts that are given up after c have no answer and end nowhere else. */
  lemma {:induction false} GivesUpOnce(w: World, retries: int, selects: bool, c: nat)
    requires GivesUp(w, retries, selects, c)
    ensures selects ==> forall a: nat :: a < retries ==> !FirstSuccess(w, a)
    ensures forall d: nat :: GivesUp(w, retries, selects, d) ==> d == c
  {
    forall d: nat | GivesUp(w, retries, selects, d)
      ensures d == c
    {
    }
  }

  /** Attempts that are answered have one answer, and are not given up. */
  lemma {:induction false} AnsweredOnce(w: World, retries: int, a: nat)
    requires a < retries && FirstSuccess(w, a)
    ensures forall b: nat :: FirstSuccess(w, b) ==> b == a
    ensures forall c: nat :: !GivesUp(w, retries, true, c)
  {
    forall c: nat
      ensures !GivesUp(w, retries, true, c)
    {
      if GivesUp(w, retries, true, c) {
        GivesUpOnce(w, retries, true, c);
      }
    }
  }

  /** What a direct forward comes to: the first success if its backoffs are not cancelled, else a
      failure; r after n selections. Without retries it crashes. */
  ghost predicate Forwarded(w: World, retries: int, selects: bool, r: Result, n: nat) {
    if retries <= 0 then r == Panicked && n == 0
    else if r.Response? then
      selects && 0 < n <= retries && FirstSuccess(w, n - 1) && r.status == w.attempt(n - 1).status
    else r == Failed && exists c: nat :: GivesUp(w, retries, selects, c) && n == if selects then c else 0
  }

  lemma TriedForwards(w: World, retries: int, pause: nat -> nat, selects: bool,
                      r: Result, selections: nat, waited: nat, n: nat)
    requires retries > 0 && Tried(w, retries, pause, selects, r, selections, waited, n)
    ensures Forwarded(w, retries, selects, r, selections)
    ensures r == Failed || (r.Response? && waited == Total(pause, selections))
  {
  }

  /** If attempt a is the first to succeed, its response is the result. */
  lemma {:induction false} FirstSuccessAnswers(w: World, retries: int, selects: bool, r: Result, n: nat, a: nat)
    requires Forwarded(w, retries, selects, r, n) && selects && a < retries && FirstSuccess(w, a)
    ensures r == Response(w.attempt(a).status) && n == a + 1
  {
    AnsweredOnce(w, retries, a);
  }

  /** If no attempt is, the forward fails. */
  lemma NoSuccessFails(w: World, retries: int, selects: bool, r: Result, n: nat)
    requires Forwarded(w, retries, selects, r, n) && retries > 0
    requires selects ==> forall a: nat :: a < retries ==> !FirstSuccess(w, a)
    ensures r == Failed
  {
  }

  lemma {:induction false} TriedWaits(w: World, retries: int, backoff: nat, selects: bool,
                                      r: Result, selections: nat, waited: nat, n: nat)
    requires Tried(w, retries, Pauses(backoff), selects, r, selections, waited, n)
    ensures selections <= retries && waited <= Total(Pauses(backoff), retries)
    ensures r == Failed ==> forall c: nat :: GivesUp(w, retries, selects, c) ==>
      waited == Total(Pauses(backoff), if c < retries then c + 1 else c)
  {
    if r == Failed {
      GivesUpOnce(w, retries, selects, n);
    }
    TotalMonotone(Pauses(backoff), if r.Response? || n < retries then n + 1 else n, retries);
  }

  /** The outcomes of waiting in the queue; `clock(k)` is the time since the start, in
      milliseconds, at the k-th check of the loop; `closes` says that the queue is closed while
      a receive is blocked on it. */
  datatype QueueWorld = QueueWorld(
    clock: nat -> int, healthy: nat -> bool, cancelled: nat -> bool,
    dequeue: Ready, closes: bool, wake: Ready, requeue: Ready, lateClock: int, world: World)
  {
    /** A blocked receive is woken at the latest by its timer, its context or the closing. */
    predicate Wakes() {
      wake.timerFired || wake.contextDone || closes
    }
  }

  /** Each pause of the wait loop lasts at least the check interval of 100 milliseconds. */
  ghost predicate Progresses(w: QueueWorld) {
    && w.clock(0) >= 0
    && (forall k: nat :: w.clock(k + 1) >= w.clock(k) + 100)
    && w.Wakes()
  }

  /** The k-th check of the wait loop is in time and the first to find a healthy backend, and no
      pause before it is cancelled. */
  ghost predicate TurnsHealthy(w: QueueWorld, maxWait: int, k: nat) {
    && (forall j: nat :: j <= k ==> w.clock(j) < maxWait)
    && (forall j: nat :: j < k ==> !w.healthy(j) && !w.cancelled(j))
    && w.healthy(k)
  }

  /** Where a request goes that was received and could not be forwarded: back to the queue, if
      there is room and time. */
  function Requeued(q: Queue<nat>, x: nat, w: QueueWorld, maxWait: int): Queue<nat> {
    if |q.buffer| < q.maxSize && w.lateClock < maxWait then Offer(q, x, w.requeue).0 else q
  }

  /** Dequeue through both of its selects, with whatever happens between them. */
  function Received(q: Queue<nat>, w: QueueWorld): (Queue<nat>, RequestQueue.Outcome<nat>) {
    var (polled, r) := Poll(q, w.dequeue);
    if r != Waits then (polled, r) else Wake(if w.closes then Shut(polled) else polled, w.wake)
  }

  /** The receive blocks on an empty open queue, the queue is closed meanwhile, and the closed
      channel is what the second select goes by. */
  predicate ClosedUnderneath(q: Queue<nat>, w: QueueWorld) {
    && !q.closed && q.hasTimeout && q.buffer == [] && !w.dequeue.contextDone && !w.dequeue.timerFired
    && w.closes && (w.wake.prefersItem || !(w.wake.contextDone || w.wake.timerFired))
  }

  /** The receive leads to a forward: of the request it got, or of the caller's own when a queue
      without timeout is empty. */
  predicate LeadsToForward(q: Queue<nat>, w: QueueWorld) {
    var r := Received(q, w).1;
    r.Dequeued? || r == Empty
  }

  /** With nothing interrupting, an open queue leads to a forward: of its oldest request or, when
      it is empty and has no timeout, of the caller's own. */
  lemma ReceiveLeads(q: Queue<nat>, w: QueueWorld)
    requires !q.closed && !w.dequeue.contextDone && !(q.hasTimeout && w.dequeue.timerFired)
    requires q.buffer != [] || !q.hasTimeout
    ensures LeadsToForward(q, w)
    ensures Received(q, w).1 == if q.buffer != [] then Dequeued(q.buffer[0]) else Empty
  {
  }

  /** Going back to the queue never counts a drop; with room, time and a live context the
      request becomes the last one, and otherwise nothing is added. */
  lemma RequeueKeeps(q: Queue<nat>, x: nat, w: QueueWorld, maxWait: int)
    ensures var r := Requeued(q, x, w, maxWait);
      && r.dropped == q.dropped
      && (!q.closed && |q.buffer| < q.maxSize && w.lateClock < maxWait && !w.requeue.contextDone ==>
        r.buffer == q.buffer + [x])
      && (q.closed || |q.buffer| >= q.maxSize || w.lateClock >= maxWait ==> r == q)
  {
  }

  /** The backoff before attempt k. */
  function Pauses(backoff: nat): nat -> nat {
    (k: nat) => k * backoff
  }

  /** The backoffs before the first n attempts together. */
  function Total(pause: nat -> nat, n: nat): nat {
    if n == 0 then 0 else Total(pause, n - 1) + pause(n - 1)
  }

  /** The backoffs before n attempts add up to backoff · n · (n − 1) / 2. */
  lemma {:induction false} TotalClosed(b: nat, n: nat)
    ensures 2 * Total(Pauses(b), n) == b * (n * (n - 1))
  {
    if n > 0 {
      TotalClosed(b, n - 1);
      assert n * (n - 1) == (n - 1) * (n - 2) + 2 * (n - 1);
      Spread(b, (n - 1) * (n - 2), n - 1);
    }
  }

  lemma Spread(b: int, x: int, y: int)
    ensures b * (x + 2 * y) == b * x + 2 * (y * b)
  {
  }

  lemma {:induction false} TotalMonotone(pause: nat -> nat, m: nat, n: nat)
    requires m <= n
    ensures Total(pause, m) <= Total(pause, n)
  {
    if m < n {
      TotalMonotone(pause, m, n - 1);
    }
  }

  ghost predicate NoneHealthy(bs: seq<Backend>) {
    forall i :: 0 <= i < |bs| ==> bs[i].state != Healthy
  }

  lemma HealthySelects(bs: seq<Backend>)
    requires !NoneHealthy(bs)
    ensures Selectable(bs) != []
  {
  }

  predicate Roomy(conns: seq<int>) {
    forall i :: 0 <= i < |conns| ==> 0 <= conns[i] < Int32.MAX
  }

  ghost predicate Sound(bs: seq<Backend>, conns: seq<int>) {
    DistinctUrls(bs) && Roomy(conns)
  }

  /** A selection and its report cancel out. */
  lemma OpenThenReport(bs: seq<Backend>, conns: seq<int>, r: Backends.Outcome)
    requires |bs| == |conns| && DistinctUrls(bs) && Roomy(conns) && r.Chosen? && r.index < |bs|
    ensures Reported(bs, Opened(conns, r), bs[r.index].url) == conns
  {
  }

  lemma {:induction false} CountedSum(totals: seq<int>, i: nat)
    requires i < |totals|
    ensures Sum(Counted(totals, Chosen(i))) == Sum(totals) + 1
  {
    SumUpdate(totals, i, totals[i] + 1);
  }

  class Service {
    const retries: int
    const backoff: nat
    const maxWait: int
    const lb: LeastConnectionsBalancer
    const queue: MemoryQueue<nat>

    constructor (retries: int, backoff: nat, maxWait: int, lb: LeastConnectionsBalancer, queue: MemoryQueue<nat>)
      ensures this.retries == retries && this.backoff == backoff && this.maxWait == maxWait
      ensures this.lb == lb && this.queue == queue
    {
      this.retries, this.backoff, this.maxWait, this.lb, this.queue := retries, backoff, maxWait, lb, queue;
    }

    /** Distinct URLs, and room in every connection counter. */
    ghost predicate Valid()
      reads this, lb, lb.activeConns
    {
      lb.Valid() && Sound(lb.backends, lb.activeConns[..])
    }

    /** The balancer has a backend to offer. */
    predicate Selects()
      reads lb
    {
      !lb.closed && Selectable(lb.backends) != []
    }

    /** What processFromQueue makes of queue q: result r, n selections, and queue q'. A request
        that was received and could not be forwarded goes back to the queue. */
    ghost predicate FromQueue(q: Queue<nat>, w: QueueWorld, r: Result, n: nat, q': Queue<nat>)
      reads this, lb
    {
      var (received, got) := Received(q, w);
      if ClosedUnderneath(q, w) then r == Panicked && n == 0 && q' == received
      else if !LeadsToForward(q, w) then r == Failed && n == 0 && q' == received
      else
        && Forwarded(w.world, retries, Selects(), r, n)
        && q' == if got.Dequeued? && r == Failed then Requeued(received, got.request, w, maxWait) else received
    }

    /** What processQueuedRequest makes of queue q. */
    ghost predicate AfterWait(q: Queue<nat>, w: QueueWorld, r: Result, n: nat, q': Queue<nat>)
      reads this, lb
    {
      if exists k: nat :: TurnsHealthy(w, maxWait, k) then FromQueue(q, w, r, n, q')
      else r == Failed && n == 0 && q' == q
    }

    /** What forwardWithQueue makes of queue q once it decides to queue the request. */
    ghost predicate AfterOffer(q: Queue<nat>, request: nat, enqueue: Ready, w: QueueWorld,
                               r: Result, n: nat, q': Queue<nat>)
      reads this, lb
    {
      var (offered, put) := Offer(q, request, enqueue);
      if put == Enqueued then AfterWait(offered, w, r, n, q') else r == Failed && n == 0 && q' == offered
    }

    /** forwardToBackend and its helpers: whatever the outcome, a selection is followed by
        exactly one report, so the connection counts end where they began. */
    method ForwardToBackend(w: Attempt) returns (r: Result, selected: bool)
      requires Valid()
      modifies lb.activeConns, lb.totalRequests
      ensures Valid()
      ensures selected <==> Selects()
      ensures r == if selected && w.Succeeds() then Response(w.status) else Failed
      ensures lb.activeConns[..] == old(lb.activeConns[..])
      ensures Sum(lb.totalRequests[..]) == old(Sum(lb.totalRequests[..])) + if selected then 1 else 0
    {
      ghost var conns, totals := lb.activeConns[..], lb.totalRequests[..];
      var outcome := lb.NextBackend();
      selected := outcome.Chosen?;
      if !selected {
        return Failed, false;
      }
      CountedSum(totals, outcome.index);
      OpenThenReport(lb.backends, conns, outcome);
      r := Execute(lb.backends[outcome.index].url, w);
    }

    /** createBackendRequest, executeBackendRequest, handleRequestError and
        processBackendResponse: one report on every path. */
    method Execute(url: string, w: Attempt) returns (r: Result)
      requires lb.Valid()
      modifies lb.activeConns
      ensures r == if w.Succeeds() then Response(w.status) else Failed
      ensures lb.activeConns[..] == Reported(lb.backends, old(lb.activeConns[..]), url)
    {
      if !w.urlParses {
        lb.ReportResult(url);
        return Failed;
      }
      if !w.requestBuilds {
        lb.ReportResult(url);
        return Failed;
      }
      if !w.sends {
        lb.ReportResult(url);
        return Failed;
      }
      if !w.bodyReads {
        lb.ReportResult(url);
        return Failed;
      }
      lb.ReportResult(url);
      if w.status >= SERVER_ERROR {
        return Failed;
      }
      return Response(w.status);
    }

    /** forwardToBackendDirect: at most `retries` selections and the backoffs between
        them, whose sum is `TotalClosed`; it crashes exactly when there are no retries. A wait
        that is cancelled is counted in full. */
    method ForwardDirect(w: World) returns (r: Result, selections: nat, waited: nat)
      requires Valid()
      modifies lb.activeConns, lb.totalRequests
      ensures Valid()
      ensures Forwarded(w, retries, Selects(), r, selections)
      ensures retries <= 0 ==> waited == 0
      ensures retries > 0 ==> selections <= retries && waited <= Total(Pauses(backoff), retries)
      ensures r.Response? ==> waited == Total(Pauses(backoff), selections)
      ensures r == Failed ==> forall c: nat :: GivesUp(w, retries, Selects(), c) ==>
        waited == Total(Pauses(backoff), if c < retries then c + 1 else c)
      ensures lb.activeConns[..] == old(lb.activeConns[..])
      ensures Sum(lb.totalRequests[..]) == old(Sum(lb.totalRequests[..])) + selections
    {
      if retries <= 0 {
        return Panicked, 0, 0;
      }
      ghost var n;
      r, selections, waited, n := TryAll(w, Pauses(backoff));
      ghost var selects := Selects();
      TriedForwards(w, retries, Pauses(backoff), selects, r, selections, waited, n);
      TriedWaits(w, retries, backoff, selects, r, selections, waited, n);
    }

    /** The retry loop: attempt n answers, or the loop is given up after n attempts. */
    method TryAll(w: World, pause: nat -> nat) returns (r: Result, selections: nat, waited: nat, ghost n: nat)
      requires Valid() && retries > 0
      modifies lb.activeConns, lb.totalRequests
      ensures Valid()
      ensures Tried(w, retries, pause, Selects(), r, selections, waited, n)
      ensures lb.activeConns[..] == old(lb.activeConns[..])
      ensures Sum(lb.totalRequests[..]) == old(Sum(lb.totalRequests[..])) + selections
    {
      selections, waited := 0, 0;
      ghost var selects, conns, total := Selects(), lb.activeConns[..], Sum(lb.totalRequests[..]);
      var attempt := 0;
      while attempt < retries
        invariant 0 <= attempt <= retries && Valid()
        invariant Trying(w, pause, selects, selections, waited, attempt)
        invariant lb.activeConns[..] == conns && Sum(lb.totalRequests[..]) == total + selections
      {
        n := attempt;
        ghost var s, t := selections, waited;
        waited := waited + pause(attempt);
        if attempt > 0 && w.cancelled(attempt) {
          TryingEnds(w, retries, pause, selects, s, t, n);
          return Failed, selections, waited, n;
        }
        var selected;
        r, selected := ForwardToBackend(w.attempt(attempt));
        selections := selections + if selected then 1 else 0;
        TryingNext(w, retries, pause, selects, s, t, n);
        if r.Response? {
          return;
        }
        attempt := attempt + 1;
      }
      TryingEnds(w, retries, pause, selects, selections, waited, attempt);
      r, n := Failed, attempt;
    }

    /** processFromQueue with its error handling: at most one direct forward, whose response is
        returned; a request that it fails to forward goes back to the queue if there is room and
        time. It crashes exactly when the queue is closed underneath its receive, or when there
        are no retries. */
    method ProcessFromQueue(original: nat, w: QueueWorld) returns (r: Result, selections: nat)
      requires Valid() && Lawful(queue.View()) && w.Wakes()
      modifies lb.activeConns, lb.totalRequests, queue
      ensures Valid() && Lawful(queue.View())
      ensures FromQueue(old(queue.View()), w, r, selections, queue.View())
      ensures Extends(old(queue.View()), queue.View())
      ensures selections <= if retries > 0 then retries else 0
      ensures lb.activeConns[..] == old(lb.activeConns[..])
      ensures Sum(lb.totalRequests[..]) == old(Sum(lb.totalRequests[..])) + selections
    {
      selections := 0;
      var got := Receive(w);
      if got == Phantom {
        return Panicked, 0;
      }
      if !got.Dequeued? && got != Empty {
        return Failed, 0;
      }
      ghost var waited;
      r, selections, waited := ForwardDirect(w.world);
      if got.Dequeued? && r == Failed {
        HandleProcessingFailure(got.request, w);
      }
    }

    method HandleProcessingFailure(request: nat, w: QueueWorld)
      requires Lawful(queue.View())
      modifies queue
      ensures queue.View() == Requeued(old(queue.View()), request, w, maxWait)
      ensures Lawful(queue.View()) && Extends(old(queue.View()), queue.View())
    {
      if |queue.buffer| < queue.maxSize && w.lateClock < maxWait {
        StepLawful(queue.View(), Enqueues(request, w.requeue));
        var again := queue.Enqueue(request, w.requeue);
      }
    }

    /** Dequeue, through both of its selects. It reads a request that does not exist exactly when
        the queue is closed underneath it. */
    method Receive(w: QueueWorld) returns (got: RequestQueue.Outcome<nat>)
      requires Lawful(queue.View()) && w.Wakes()
      modifies queue
      ensures (queue.View(), got) == Received(old(queue.View()), w)
      ensures Lawful(queue.View()) && Extends(old(queue.View()), queue.View())
      ensures got == Phantom <==> ClosedUnderneath(old(queue.View()), w)
      ensures got != Waits
    {
      StepLawful(queue.View(), Dequeues(w.dequeue));
      got := queue.Dequeue(w.dequeue);
      if got == Waits {
        if w.closes {
          StepLawful(queue.View(), Closes);
          queue.Close();
        }
        StepLawful(queue.View(), Awaits(w.wake));
        got := queue.Await(w.wake);
      }
    }

    /** processQueuedRequest: the wait loop is entered at most ⌈maxWait / interval⌉ times. */
    method ProcessQueued(original: nat, w: QueueWorld) returns (r: Result, selections: nat, rounds: nat)
      requires Valid() && Lawful(queue.View()) && Progresses(w)
      modifies lb.activeConns, lb.totalRequests, queue
      ensures Valid() && Lawful(queue.View())
      ensures rounds > 0 ==> (rounds - 1) * 100 < maxWait
      ensures Extends(old(queue.View()), queue.View())
      ensures AfterWait(old(queue.View()), w, r, selections, queue.View())
      ensures selections <= if retries > 0 then retries else 0
      ensures lb.activeConns[..] == old(lb.activeConns[..])
      ensures Sum(lb.totalRequests[..]) == old(Sum(lb.totalRequests[..])) + selections
    {
      selections, rounds := 0, 0;
      while w.clock(rounds) < maxWait
        invariant w.clock(rounds) >= rounds * CHECK_INTERVAL
        invariant rounds > 0 ==> (rounds - 1) * CHECK_INTERVAL < maxWait
        invariant lb.activeConns[..] == old(lb.activeConns[..]) && lb.totalRequests[..] == old(lb.totalRequests[..])
        invariant Valid() && queue.View() == old(queue.View())
        invariant forall j: nat :: j < rounds ==> w.clock(j) < maxWait && !w.healthy(j) && !w.cancelled(j)
        decreases maxWait - w.clock(rounds)
      {
        rounds := rounds + 1;
        if w.healthy(rounds - 1) {
          assert TurnsHealthy(w, maxWait, rounds - 1);
          r, selections := ProcessFromQueue(original, w);
          return;
        }
        if w.cancelled(rounds - 1) {
          return Failed, 0, rounds;
        }
        assert w.clock(rounds) >= w.clock(rounds - 1) + CHECK_INTERVAL;
      }
      r := Failed;
    }

    /** Enqueueing a request and waiting for it to be processed. */
    method QueueRequest(request: nat, enqueue: Ready, w: QueueWorld) returns (r: Result, selections: nat)
      requires Valid() && Lawful(queue.View()) && Progresses(w)
      modifies lb.activeConns, lb.totalRequests, queue
      ensures Valid() && Lawful(queue.View())
      ensures AfterOffer(old(queue.View()), request, enqueue, w, r, selections, queue.View())
      ensures selections <= if retries > 0 then retries else 0
      ensures lb.activeConns[..] == old(lb.activeConns[..])
      ensures Sum(lb.totalRequests[..]) == old(Sum(lb.totalRequests[..])) + selections
    {
      StepLawful(queue.View(), Enqueues(request, enqueue));
      var put := queue.Enqueue(request, enqueue);
      if put != Enqueued {
        return Failed, 0;
      }
      var rounds;
      r, selections, rounds := ProcessQueued(request, w);
    }

    /** The count of healthy backends at the head of forwardWithQueue. */
    method AvailableBackends() returns (available: nat)
      ensures available == 0 <==> NoneHealthy(lb.backends)
    {
      available := 0;
      for i := 0 to |lb.backends|
        invariant available == 0 <==> NoneHealthy(lb.backends[..i])
      {
        assert lb.backends[..i + 1] == lb.backends[..i] + [lb.backends[i]];
        if lb.backends[i].state == Healthy {
          available := available + 1;
          assert lb.backends[..i + 1][i].state == Healthy;
        }
      }
      assert lb.backends[..|lb.backends|] == lb.backends;
    }

    /** forwardWithQueue: with a healthy backend the request is forwarded at once, and queued only
        when that fails and the queue has room; without one it is queued. `direct` and `early`
        are the result and the selections of the forward at once, `late` are the selections
        after queueing. */
    method ForwardWithQueue(request: nat, enqueue: Ready, first: World, w: QueueWorld)
      returns (r: Result, selections: nat, ghost direct: Result, ghost early: nat, ghost late: nat)
      requires Valid() && Lawful(queue.View()) && Progresses(w)
      modifies lb.activeConns, lb.totalRequests, queue
      ensures Valid() && Lawful(queue.View())
      ensures selections == early + late <= if retries > 0 then 2 * retries else 0
      ensures if NoneHealthy(lb.backends) then direct == Failed && early == 0
        else Forwarded(first, retries, Selects(), direct, early)
      ensures direct != Failed || (!NoneHealthy(lb.backends) && |old(queue.buffer)| >= queue.maxSize) ==>
        r == direct && late == 0 && queue.View() == old(queue.View())
      ensures direct == Failed && (NoneHealthy(lb.backends) || |old(queue.buffer)| < queue.maxSize) ==>
        AfterOffer(old(queue.View()), request, enqueue, w, r, late, queue.View())
      ensures !NoneHealthy(lb.backends) && !lb.closed ==> forall a: nat :: a < retries && FirstSuccess(first, a) ==>
        r == Response(first.attempt(a).status) && selections == a + 1 && queue.View() == old(queue.View())
      ensures lb.activeConns[..] == old(lb.activeConns[..])
      ensures Sum(lb.totalRequests[..]) == old(Sum(lb.totalRequests[..])) + selections
    {
      direct, early := Failed, 0;
      late := 0;
      var available := AvailableBackends();
      selections := 0;
      if available > 0 {
        var waited;
        r, selections, waited := ForwardDirect(first);
        direct, early := r, selections;
        HealthySelects(lb.backends);
        forall a: nat | Selects() && a < retries && FirstSuccess(first, a)
          ensures r == Response(first.attempt(a).status) && selections == a + 1
        {
          FirstSuccessAnswers(first, retries, Selects(), r, selections, a);
        }
        if r != Failed || |queue.buffer| >= queue.maxSize {
          return;
        }
      }
      var more;
      r, more := QueueRequest(request, enqueue, w);
      selections, late := selections + more, more;
    }
  }
}
