/** Watch channels of the local storage (internal/services/statestorage/local_storage.go). */
module Watchers {
  import opened Lists

  const CAPACITY: nat := 100

  datatype StateEvent = StateEvent(isSet: bool, key: string, value: seq<int>)

  /** A channel, known by its index: whether it is open, what waits in its buffer and what its
      consumer took, and the prefix it was made for. */
  datatype Chan = Chan(prefix: string, open: bool, buffer: seq<StateEvent>, received: seq<StateEvent>)

  /** `panicked` is set by closing a closed channel or sending on one. */
  datatype Hub = Hub(
    watches: map<string, seq<nat>>, closedChans: set<nat>, closed: bool, chans: seq<Chan>, panicked: bool)

  const Quiet := Hub(map[], {}, false, [], false)

  predicate HasPrefix(s: string, p: string) {
    p <= s
  }

  // ----- the operations

  /** The channel is listed under its prefix. */
  predicate Registered(h: Hub, c: nat) {
    c < |h.chans| && h.chans[c].prefix in h.watches && c in h.watches[h.chans[c].prefix]
  }

  function Watched(h: Hub, prefix: string): Hub {
    var list := if prefix in h.watches then h.watches[prefix] else [];
    h.(watches := h.watches[prefix := list + [|h.chans|]],
       chans := h.chans + [Chan(prefix, true, [], [])])
  }

  /** A non-blocking send: dropped when the buffer is full. */
  function Sent(ch: Chan, e: StateEvent): Chan {
    if |ch.buffer| < CAPACITY then ch.(buffer := ch.buffer + [e]) else ch
  }

  predicate Hears(h: Hub, c: nat, e: StateEvent) {
    Registered(h, c) && HasPrefix(e.key, h.chans[c].prefix)
  }

  /** notifyWatchers. */
  function Notified(h: Hub, e: StateEvent): Hub {
    if h.closed then h else
      h.(chans := seq(|h.chans|, c requires 0 <= c < |h.chans| =>
           if Hears(h, c, e) then Sent(h.chans[c], e) else h.chans[c]),
         panicked := h.panicked || exists c :: 0 <= c < |h.chans| && Hears(h, c, e) && !h.chans[c].open)
  }

  function Without(list: seq<nat>, c: nat): seq<nat> {
    if list == [] then [] else if list[0] == c then list[1..] else [list[0]] + Without(list[1..], c)
  }

  function Unlisted(watches: map<string, seq<nat>>, prefix: string, c: nat): map<string, seq<nat>>
    requires prefix in watches
  {
    var list := Without(watches[prefix], c);
    if list == [] then watches - {prefix} else watches[prefix := list]
  }

  /** closeChannelSafely. */
  function SafelyClosed(h: Hub, c: nat): Hub
    requires c < |h.chans|
  {
    if c in h.closedChans then h else
      h.(closedChans := h.closedChans + {c},
         chans := h.chans[c := h.chans[c].(open := false)],
         panicked := h.panicked || !h.chans[c].open)
  }

  /** removeWatcherAndClose, run when the watch's context ends. */
  function Cancelled(h: Hub, c: nat): Hub
    requires c < |h.chans|
  {
    var prefix := h.chans[c].prefix;
    if prefix !in h.watches then h
    else SafelyClosed(h.(watches := Unlisted(h.watches, prefix, c)), c)
  }

  /** Close: it closes the registered channels and forgets which channels are closed. */
  function ShutDown(h: Hub): Hub {
    if h.closed then h else
      Hub(map[], {}, true,
        seq(|h.chans|, c requires 0 <= c < |h.chans| =>
          if Registered(h, c) && c !in h.closedChans then h.chans[c].(open := false) else h.chans[c]),
        h.panicked || exists c :: 0 <= c < |h.chans| && Registered(h, c) && c !in h.closedChans && !h.chans[c].open)
  }

  /** The consumer takes the oldest buffered event; a closed channel still drains. */
  function Taken(h: Hub, c: nat): Hub
    requires c < |h.chans|
  {
    var ch := h.chans[c];
    if ch.buffer == [] then h else
      h.(chans := h.chans[c := ch.(buffer := ch.buffer[1..], received := ch.received + [ch.buffer[0]])])
  }

  // ----- runs

  datatype Action = Watches(prefix: string) | Notifies(e: StateEvent) | Cancels(c: nat) | Takes(c: nat) | Closes

  /** A panic in the watch goroutine ends the process. */
  function Step(h: Hub, a: Action): Hub {
    if h.panicked then h else
      match a
      case Watches(prefix) => Watched(h, prefix)
      case Notifies(e) => Notified(h, e)
      case Cancels(c) => if c < |h.chans| then Cancelled(h, c) else h
      case Takes(c) => if c < |h.chans| then Taken(h, c) else h
      case Closes => ShutDown(h)
  }

  function Run(acts: seq<Action>): Hub {
    if acts == [] then Quiet else Step(Run(acts[..|acts| - 1]), acts[|acts| - 1])
  }

  // ----- the life cycle

  /** Exactly the open channels are registered, each once and under its own prefix, and closed
      channels are remembered until Close. */
  ghost predicate Healthy(h: Hub) {
    && (forall p :: p in h.watches ==>
      && h.watches[p] != [] && NoDuplicates(h.watches[p])
      && forall k :: 0 <= k < |h.watches[p]| ==>
        var c := h.watches[p][k]; c < |h.chans| && h.chans[c].prefix == p && h.chans[c].open)
    && (forall c :: 0 <= c < |h.chans| && h.chans[c].open ==> Registered(h, c))
    && (forall c :: c in h.closedChans ==> c < |h.chans| && !h.chans[c].open)
    && (!h.closed ==> forall c :: 0 <= c < |h.chans| && !h.chans[c].open ==> c in h.closedChans)
  }

  lemma RegisteredIsOpen(h: Hub, c: nat)
    requires Healthy(h) && Registered(h, c)
    ensures h.chans[c].open && c !in h.closedChans
  {
  }

  /** Notifications never send on a closed channel. */
  lemma NotifySafe(h: Hub, e: StateEvent)
    requires Healthy(h)
    ensures Notified(h, e).panicked == h.panicked && Healthy(Notified(h, e))
  {
  }

  /** Health looks only at prefixes and openness of channels. */
  lemma SameRegistration(h: Hub, h': Hub)
    requires Healthy(h) && |h'.chans| == |h.chans|
    requires h'.watches == h.watches && h'.closedChans == h.closedChans && h'.closed == h.closed
    requires forall c :: 0 <= c < |h.chans| ==>
      h'.chans[c].prefix == h.chans[c].prefix && h'.chans[c].open == h.chans[c].open
    ensures Healthy(h')
  {
  }

  lemma WatchKeeps(h: Hub, prefix: string)
    requires Healthy(h)
    ensures Healthy(Watched(h, prefix))
  {
  }

  lemma ShutDownKeeps(h: Hub)
    requires Healthy(h)
    ensures Healthy(ShutDown(h)) && ShutDown(h).panicked == h.panicked
  {
  }

  lemma {:induction false} WithoutMembers(list: seq<nat>, c: nat)
    requires NoDuplicates(list)
    ensures NoDuplicates(Without(list, c))
    ensures forall d :: d in Without(list, c) <==> d in list && d != c
  {
    if list != [] {
      var rest := list[1..];
      assert list == [list[0]] + rest;
      WithoutMembers(rest, c);
      if list[0] != c {
        var r := Without(rest, c);
        forall k | 0 <= k < |r|
          ensures r[k] != list[0]
        {
          assert r[k] in rest;
        }
      }
    }
  }

  /** Exactly when cancelling a watch panics: its channel was closed by Close, which forgot it,
      and its prefix is watched again. */
  lemma CancelPanicsIff(h: Hub, c: nat)
    requires Healthy(h) && !h.panicked && c < |h.chans|
    ensures Cancelled(h, c).panicked <==>
      !h.chans[c].open && c !in h.closedChans && h.chans[c].prefix in h.watches
    ensures Cancelled(h, c).panicked ==> h.closed
  {
  }

  lemma ListedUnderPrefix(h: Hub, p: string, c: nat)
    requires Healthy(h)
    ensures p in h.watches && c in h.watches[p] ==> c < |h.chans| && h.chans[c].prefix == p
  {
  }

  /** The end of an open watch closes its channel and takes it off the list; all other channels
      and their registration are as before. */
  lemma {:induction false} CancelEnds(h: Hub, c: nat)
    requires Healthy(h) && c < |h.chans| && h.chans[c].open
    ensures var h' := Cancelled(h, c);
      && h'.chans == h.chans[c := h.chans[c].(open := false)]
      && !Registered(h', c) && c in h'.closedChans && h'.panicked == h.panicked && h'.closed == h.closed
      && (forall p :: p in h'.watches ==> c !in h'.watches[p])
      && forall d :: 0 <= d < |h.chans| && d != c ==> (Registered(h', d) <==> Registered(h, d))
  {
    var prefix := h.chans[c].prefix;
    assert Registered(h, c);
    WithoutMembers(h.watches[prefix], c);
    var h' := Cancelled(h, c);
    forall p | p in h'.watches
      ensures c !in h'.watches[p]
    {
      ListedUnderPrefix(h, p, c);
    }
  }

  /** Close ends every open watch. */
  lemma CloseEnds(h: Hub)
    requires Healthy(h) && !h.closed
    ensures var h' := ShutDown(h);
      && h'.closed && h'.watches == map[] && |h'.chans| == |h.chans|
      && forall c :: 0 <= c < |h.chans| ==> h'.chans[c] == h.chans[c].(open := false)
  {
  }

  lemma {:induction false} CancelKeeps(h: Hub, c: nat)
    requires Healthy(h) && c < |h.chans| && !Cancelled(h, c).panicked
    ensures Healthy(Cancelled(h, c))
  {
    var prefix := h.chans[c].prefix;
    if prefix in h.watches {
      var list := h.watches[prefix];
      WithoutMembers(list, c);
      var h' := Cancelled(h, c);
      assert h'.watches == Unlisted(h.watches, prefix, c);
      assert !h'.chans[c].open && c in h'.closedChans;
      forall p, k | p in h'.watches && 0 <= k < |h'.watches[p]|
        ensures var d := h'.watches[p][k]; d < |h'.chans| && h'.chans[d].prefix == p && h'.chans[d].open
      {
        var d := h'.watches[p][k];
        assert d in h'.watches[p];
        assert d in h.watches[p] && d != c by {
          if p != prefix {
            assert h'.watches[p] == h.watches[p];
            var j :| 0 <= j < |h.watches[p]| && h.watches[p][j] == d;
          }
        }
        var j :| 0 <= j < |h.watches[p]| && h.watches[p][j] == d;
      }
      forall d | 0 <= d < |h'.chans| && h'.chans[d].open
        ensures Registered(h', d)
      {
        assert d != c && Registered(h, d);
        if h.chans[d].prefix == prefix {
          assert d in Without(list, c);
        }
      }
    }
  }

  /** No Watch follows a Close. */
  predicate NoLateWatch(acts: seq<Action>) {
    acts == [] ||
    var rest, a := acts[..|acts| - 1], acts[|acts| - 1];
    NoLateWatch(rest) && (a.Watches? ==> Closes !in rest)
  }

  lemma {:induction false} StepKeeps(h: Hub, a: Action)
    requires Healthy(h) && !Step(h, a).panicked
    ensures Healthy(Step(h, a))
  {
    match a
    case Watches(prefix) => WatchKeeps(h, prefix);
    case Notifies(e) => NotifySafe(h, e);
    case Cancels(c) => if c < |h.chans| { CancelKeeps(h, c); }
    case Takes(c) => if c < |h.chans| { SameRegistration(h, Step(h, a)); }
    case Closes => ShutDownKeeps(h);
  }

  /** In every run, exactly the open channels are registered for as long as nothing panics. */
  lemma {:induction false} HealthyThroughout(acts: seq<Action>)
    ensures Run(acts).panicked || Healthy(Run(acts))
  {
    if acts != [] {
      HealthyThroughout(acts[..|acts| - 1]);
      if !Run(acts).panicked {
        StepKeeps(Run(acts[..|acts| - 1]), acts[|acts| - 1]);
      }
    }
  }

  /** In every run the only step that can panic is the end of a watch whose channel Close closed,
      at a time when the same prefix is watched again. */
  lemma {:induction false} PanicCause(acts: seq<Action>, a: Action)
    requires !Run(acts).panicked && Step(Run(acts), a).panicked
    ensures var h := Run(acts);
      && h.closed && a.Cancels? && a.c < |h.chans|
      && !h.chans[a.c].open && a.c !in h.closedChans && h.chans[a.c].prefix in h.watches
  {
    var h := Run(acts);
    HealthyThroughout(acts);
    match a
    case Watches(_) =>
    case Notifies(e) => NotifySafe(h, e);
    case Cancels(c) => if c < |h.chans| { CancelPanicsIff(h, c); }
    case Takes(_) =>
    case Closes => ShutDownKeeps(h);
  }

  lemma {:induction false} ClosedLeavesNone(acts: seq<Action>)
    requires NoLateWatch(acts) && !Run(acts).panicked
    ensures Run(acts).closed <==> Closes in acts
    ensures Run(acts).closed ==> Run(acts).watches == map[]
  {
    if acts != [] {
      var rest, a := acts[..|acts| - 1], acts[|acts| - 1];
      assert acts == rest + [a];
      ClosedLeavesNone(rest);
    }
  }

  /** Watcher life cycle: in every run with no Watch after Close, no channel is closed twice or
      sent to after closing, and exactly the open channels are registered. */
  lemma {:induction false} LifeCycle(acts: seq<Action>)
    requires NoLateWatch(acts)
    ensures !Run(acts).panicked && Healthy(Run(acts))
  {
    if acts != [] {
      var rest, a := acts[..|acts| - 1], acts[|acts| - 1];
      LifeCycle(rest);
      ClosedLeavesNone(rest);
      if Run(acts).panicked {
        PanicCause(rest, a);
      }
      HealthyThroughout(acts);
    }
  }

  /** With a Watch after Close, ending the first watch closes its channel a second time. */
  lemma {:induction false} DoubleClose(p: string, acts: seq<Action>)
    requires acts == [Watches(p), Closes, Watches(p), Cancels(0)]
    ensures Run(acts).panicked
  {
    var h1 := Hub(map[p := [0]], {}, false, [Chan(p, true, [], [])], false);
    var h2 := Hub(map[], {}, true, [Chan(p, false, [], [])], false);
    var h3 := Hub(map[p := [1]], {}, true, [Chan(p, false, [], []), Chan(p, true, [], [])], false);
    assert acts[..1][..0] == [] && acts[..2][..1] == acts[..1] && acts[..3][..2] == acts[..2];
    assert Run([]) == Quiet;
    WatchUnwatched(Quiet, p);
    WatchUnwatched(h2, p);
    assert h1.chans == Quiet.chans + [Chan(p, true, [], [])];
    assert h3.chans == h2.chans + [Chan(p, true, [], [])];
    assert Run(acts[..1]) == Watched(Quiet, p) == h1;
    assert Registered(h1, 0);
    assert ShutDown(h1).chans == h2.chans;
    assert Run(acts[..2]) == ShutDown(h1) == h2;
    assert Run(acts[..3]) == Watched(h2, p) == h3;
  }

  lemma {:induction false} WatchUnwatched(h: Hub, p: string)
    requires h.watches == map[]
    ensures Watched(h, p).watches == map[p := [|h.chans|]]
  {
    assert Watched(h, p).watches[p] == [|h.chans|];
  }

  // ----- delivery

  /** Everything a channel was ever given. */
  function Stream(ch: Chan): seq<StateEvent> {
    ch.received + ch.buffer
  }

  datatype Offer = Offer(e: StateEvent, full: bool)

  /** The events offered to channel c in a run: those with its prefix that were notified while
      it and the storage were open, each with whether its buffer was full at that moment. */
  function Offered(acts: seq<Action>, c: nat): seq<Offer> {
    if acts == [] then [] else
      var rest, a := acts[..|acts| - 1], acts[|acts| - 1];
      var h := Run(rest);
      Offered(rest, c) +
      if Offers(h, a, c) then [Offer(a.e, |h.chans[c].buffer| == 100)] else []
  }

  /** An event whose key begins with the channel's prefix is notified while the channel and the
      storage are open. */
  predicate Offers(h: Hub, a: Action, c: nat) {
    !h.panicked && !h.closed && a.Notifies? && c < |h.chans| && h.chans[c].open &&
    var prefix := h.chans[c].prefix;
    |prefix| <= |a.e.key| && a.e.key[..|prefix|] == prefix
  }

  function Accepted(offers: seq<Offer>): seq<StateEvent> {
    if offers == [] then [] else
      var rest, o := offers[..|offers| - 1], offers[|offers| - 1];
      Accepted(rest) + if o.full then [] else [o.e]
  }

  lemma AcceptedNext(offers: seq<Offer>, o: Offer)
    ensures Accepted(offers + [o]) == Accepted(offers) + if o.full then [] else [o.e]
  {
  }

  /** A new watch hears of every key that continues its prefix, and of no other; the other
      channels are as before. */
  lemma {:induction false} WatchHears(h: Hub, prefix: string, rest: string, other: string, isSet: bool, value: seq<int>)
    requires Healthy(h) && !h.closed && !(prefix <= other)
    ensures var c, h' := |h.chans|, Watched(h, prefix);
      var e, e' := StateEvent(isSet, prefix + rest, value), StateEvent(isSet, other, value);
      && |h'.chans| == c + 1 && h'.chans[..c] == h.chans && !h'.closed && h'.panicked == h.panicked
      && h'.chans[c].prefix == prefix && h'.chans[c].open && h'.chans[c].buffer == []
      && Notified(h', e).chans[c].buffer == [e] && Notified(h', e').chans[c].buffer == []
  {
    var c, h' := |h.chans|, Watched(h, prefix);
    assert h'.watches[prefix][|h'.watches[prefix]| - 1] == c;
    assert Registered(h', c);
    assert prefix <= prefix + rest;
  }

  /** In-order delivery: in every run a channel has been given exactly the events offered to it,
      in order, except those that arrived while its buffer was full; and its buffer never
      exceeds its capacity. */
  lemma {:induction false} Delivery(acts: seq<Action>, c: nat)
    ensures if c < |Run(acts).chans|
      then Stream(Run(acts).chans[c]) == Accepted(Offered(acts, c)) && |Run(acts).chans[c].buffer| <= 100
      else Offered(acts, c) == []
  {
    if acts != [] {
      var rest, a := acts[..|acts| - 1], acts[|acts| - 1];
      Delivery(rest, c);
      HealthyThroughout(rest);
      DeliveryStep(Run(rest), a, c, Offered(rest, c));
    }
  }

  lemma {:induction false} DeliveryStep(h: Hub, a: Action, c: nat, offers: seq<Offer>)
    requires h.panicked || Healthy(h)
    requires if c < |h.chans|
      then Stream(h.chans[c]) == Accepted(offers) && |h.chans[c].buffer| <= 100
      else offers == []
    ensures
      var offers' := offers + if Offers(h, a, c) then [Offer(a.e, |h.chans[c].buffer| == 100)] else [];
      if c < |Step(h, a).chans|
      then Stream(Step(h, a).chans[c]) == Accepted(offers') && |Step(h, a).chans[c].buffer| <= 100
      else offers' == []
  {
    assert offers + [] == offers;
    if Offers(h, a, c) {
      var ch := h.chans[c];
      assert Registered(h, c);
      AcceptedNext(offers, Offer(a.e, |ch.buffer| == 100));
      assert ch.received + (ch.buffer + [a.e]) == Stream(ch) + [a.e];
      assert Accepted(offers) + [] == Accepted(offers);
    } else if a.Notifies? && !h.panicked && Registered(h, c) {
      RegisteredIsOpen(h, c);
    } else if a.Takes? && a.c == c && c < |h.chans| && h.chans[c].buffer != [] {
      var ch := h.chans[c];
      assert (ch.received + [ch.buffer[0]]) + ch.buffer[1..] == ch.received + ch.buffer;
    }
  }
}
