/** The in-memory state storage (internal/services/statestorage/local_storage.go). */
module LocalStorage {
  import opened Lists
  import opened TimedMap
  import opened Watchers

  /** The watchers after notifications of the items under some keys, one after the other. */
  ghost function NotifiedOfAll(h: Hub, items: map<string, Bytes>, order: seq<string>): Hub
    requires Elements(order) <= items.Keys
  {
    if order == [] then h else
      var rest, k := order[..|order| - 1], order[|order| - 1];
      assert k in Elements(order) && forall x :: x in rest ==> x in Elements(order);
      Notified(NotifiedOfAll(h, items, rest), StateEvent(true, k, items[k]))
  }

  class Storage {
    var data: Data
    var watches: map<string, seq<nat>>
    var closedChans: set<nat>
    var closed: bool
    var chans: seq<Chan>
    var panicked: bool

    ghost function Hub(): Hub
      reads this
    {
      Watchers.Hub.Hub(watches, closedChans, closed, chans, panicked)
    }

    ghost predicate Valid()
      reads this
    {
      Healthy(Hub()) && !panicked
    }

    constructor ()
      ensures Valid() && data == map[] && Hub() == Quiet
    {
      data, watches, closedChans, closed, chans, panicked := map[], map[], {}, false, [], false;
    }

    method Get(key: string, now: int) returns (r: Option<Bytes>)
      modifies `data
      ensures r == ReadAt(old(data), key, now)
      ensures r.Some? <==>
        && key in old(data)
        && (old(data)[key].ttl == 0 || now <= old(data)[key].createdAt + old(data)[key].ttl)
      ensures r.Some? ==> r.value == old(data)[key].value && data == old(data)
      ensures r.None? ==> data == old(data) - {key}
      ensures data == Cleaned(old(data), key, now)
    {
      if key in data {
        if !data[key].Expired(now) {
          return Some(data[key].value);
        }
        data := data - {key};
      }
      return None;
    }

    /** The keys that read as present; expired ones may be dropped, nothing else changes. */
    method GetMultiple(keys: seq<string>, now: int) returns (result: map<string, Bytes>)
      modifies `data
      ensures forall k :: k in result <==> k in keys && ReadAt(old(data), k, now).Some?
      ensures forall k :: k in result ==> Some(result[k]) == ReadAt(old(data), k, now)
      ensures forall k, t :: t >= now ==> ReadAt(data, k, t) == ReadAt(old(data), k, t)
    {
      result := map[];
      for i := 0 to |keys|
        invariant forall k :: k in result <==> k in keys[..i] && ReadAt(old(data), k, now).Some?
        invariant forall k :: k in result ==> Some(result[k]) == ReadAt(old(data), k, now)
        invariant forall k, t :: t >= now ==> ReadAt(data, k, t) == ReadAt(old(data), k, t)
      {
        assert keys[..i + 1] == keys[..i] + [keys[i]];
        var v := Get(keys[i], now);
        if v.Some? {
          result := result[keys[i] := v.value];
        }
      }
      assert keys[..|keys|] == keys;
    }

    method Set(key: string, value: Bytes, ttl: int, now: int)
      requires Valid()
      modifies this
      ensures Valid()
      ensures data == Written(old(data), Put(key, Item(value, now, ttl))) == old(data)[key := Item(value, now, ttl)]
      ensures Hub() == Notified(old(Hub()), StateEvent(true, key, value))
    {
      data := data[key := Item(value, now, ttl)];
      NotifyWatchers(StateEvent(true, key, value));
    }

    method Delete(key: string)
      requires Valid()
      modifies this
      ensures Valid()
      ensures data == Written(old(data), Remove(key)) == old(data) - {key}
      ensures Hub() == Notified(old(Hub()), StateEvent(false, key, []))
    {
      data := data - {key};
      NotifyWatchers(StateEvent(false, key, []));
    }

    /** The loop over the Go map of items visits its keys in arbitrary order: `order`. Watchers
        are notified of every item once, in that order. */
    method SetMultiple(items: map<string, Bytes>, ttl: int, now: int) returns (ghost order: seq<string>)
      requires Valid()
      modifies this
      ensures Valid()
      ensures data == old(data) + Bulk(items, now, ttl)
      ensures NoDuplicates(order) && Elements(order) == items.Keys
      ensures Hub() == NotifiedOfAll(old(Hub()), items, order)
    {
      var left := items.Keys;
      order := [];
      assert data == data + BulkExcept(items, left, now, ttl);
      while left != {}
        invariant left <= items.Keys && Valid()
        invariant data == old(data) + BulkExcept(items, left, now, ttl)
        invariant NoDuplicates(order) && Elements(order) == items.Keys - left
        invariant Hub() == NotifiedOfAll(old(Hub()), items, order)
      {
        var k :| k in left;
        BulkProgress(old(data), items, left, k, now, ttl);
        Set(k, items[k], ttl, now);
        left := left - {k};
        assert k !in Elements(order) && (order + [k])[..|order|] == order;
        assert Elements(order + [k]) == Elements(order) + {k};
        order := order + [k];
      }
      assert BulkExcept(items, {}, now, ttl) == Bulk(items, now, ttl);
    }

    method Watch(prefix: string) returns (c: nat)
      requires Valid()
      modifies `watches, `chans
      ensures Valid()
      ensures c == |old(chans)| && Hub() == Watched(old(Hub()), prefix)
    {
      WatchKeeps(Hub(), prefix);
      c := |chans|;
      chans := chans + [Chan(prefix, true, [], [])];
      watches := watches[prefix := (if prefix in watches then watches[prefix] else []) + [c]];
    }

    /** The end of a watch's context. */
    method RemoveWatcherAndClose(c: nat)
      requires Valid() && c < |chans|
      modifies `watches, `chans, `closedChans, `panicked
      ensures Hub() == Cancelled(old(Hub()), c)
      ensures !panicked ==> Valid()
    {
      ghost var h := Hub();
      var prefix := chans[c].prefix;
      if prefix in watches {
        var list := RemoveChannel(watches[prefix], c);
        if |list| == 0 {
          watches := watches - {prefix};
        } else {
          watches := watches[prefix := list];
        }
        if c !in closedChans {
          closedChans := closedChans + {c};
          panicked := panicked || !chans[c].open;
          chans := chans[c := chans[c].(open := false)];
        }
      }
      if !panicked {
        CancelKeeps(h, c);
      }
    }

    method RemoveChannel(list: seq<nat>, c: nat) returns (r: seq<nat>)
      ensures r == Without(list, c)
    {
      var i := 0;
      while i < |list| && list[i] != c
        invariant i <= |list| && Without(list, c) == list[..i] + Without(list[i..], c)
      {
        assert list[i..][1..] == list[i + 1..];
        i := i + 1;
      }
      if i < |list| {
        r := list[..i] + list[i + 1..];
        assert list[i..][1..] == list[i + 1..];
      } else {
        r := list;
      }
    }

    method Close()
      requires Valid()
      modifies this
      ensures Valid() && Hub() == ShutDown(old(Hub()))
      ensures data == if old(closed) then old(data) else map[]
    {
      ShutDownKeeps(Hub());
      if closed {
        return;
      }
      closed := true;
      CloseChannels();
      closedChans := {};
      data := map[];
      assert chans == ShutDown(old(Hub())).chans;
    }

    /** The loops of Close over all prefixes and their channels. */
    method CloseChannels()
      requires Healthy(Hub().(closed := false)) && !panicked
      modifies `watches, `chans, `closedChans, `panicked
      ensures watches == map[] && !panicked && |chans| == |old(chans)|
      ensures forall c :: 0 <= c < |chans| ==>
        chans[c] == if Registered(old(Hub()), c) then old(chans)[c].(open := false) else old(chans)[c]
    {
      ghost var h := Hub();
      while watches != map[]
        invariant watches.Keys <= h.watches.Keys && forall p :: p in watches ==> watches[p] == h.watches[p]
        invariant !panicked && |chans| == |h.chans|
        invariant forall c :: 0 <= c < |chans| ==>
          chans[c] == if Registered(h, c) && h.chans[c].prefix !in watches
                      then h.chans[c].(open := false) else h.chans[c]
        invariant forall c :: c in closedChans ==> c < |chans| && !chans[c].open
        decreases watches.Keys
      {
        var p :| p in watches;
        ghost var before := chans;
        CloseList(watches[p]);
        forall c | 0 <= c < |chans|
          ensures c in h.watches[p] <==> Registered(h, c) && h.chans[c].prefix == p
        {
          if c in h.watches[p] {
            var k :| 0 <= k < |h.watches[p]| && h.watches[p][k] == c;
          }
        }
        watches := watches - {p};
      }
    }

    method CloseList(list: seq<nat>)
      requires NoDuplicates(list) && !panicked
      requires forall k :: 0 <= k < |list| ==> list[k] < |chans| && chans[list[k]].open
      requires forall c :: c in closedChans ==> c < |chans| && !chans[c].open
      modifies `chans, `closedChans, `panicked
      ensures !panicked && |chans| == |old(chans)|
      ensures forall c :: 0 <= c < |chans| ==>
        chans[c] == if c in list then old(chans)[c].(open := false) else old(chans)[c]
      ensures forall c :: c in closedChans ==> c < |chans| && !chans[c].open
    {
      for i := 0 to |list|
        invariant !panicked && |chans| == |old(chans)|
        invariant forall c :: 0 <= c < |chans| ==>
          chans[c] == if c in list[..i] then old(chans)[c].(open := false) else old(chans)[c]
        invariant forall c :: c in closedChans ==> c < |chans| && !chans[c].open
      {
        var c := list[i];
        assert c !in list[..i];
        assert list[..i + 1] == list[..i] + [c];
        if c !in closedChans {
          closedChans := closedChans + {c};
          panicked := panicked || !chans[c].open;
          chans := chans[c := chans[c].(open := false)];
        }
      }
      assert list[..|list|] == list;
    }

    /** The loops over all prefixes and their channels, in arbitrary order. */
    method NotifyWatchers(e: StateEvent)
      requires Valid()
      modifies `chans, `panicked
      ensures Valid() && Hub() == Notified(old(Hub()), e)
    {
      NotifySafe(Hub(), e);
      if closed {
        return;
      }
      ghost var h := Hub();
      var left := watches.Keys;
      while left != {}
        invariant left <= watches.Keys && !panicked && |chans| == |h.chans|
        invariant forall c :: 0 <= c < |chans| ==>
          chans[c] == if Hears(h, c, e) && h.chans[c].prefix !in left then Sent(h.chans[c], e) else h.chans[c]
      {
        var p :| p in left;
        forall c | 0 <= c < |chans|
          ensures c in h.watches[p] <==> Registered(h, c) && h.chans[c].prefix == p
        {
          if c in h.watches[p] {
            var k :| 0 <= k < |h.watches[p]| && h.watches[p][k] == c;
          }
        }
        if HasPrefix(e.key, p) {
          SendAll(watches[p], e);
        }
        left := left - {p};
      }
      assert chans == Notified(h, e).chans;
    }

    method SendAll(list: seq<nat>, e: StateEvent)
      requires NoDuplicates(list) && !panicked
      requires forall k :: 0 <= k < |list| ==> list[k] < |chans| && chans[list[k]].open
      modifies `chans, `panicked
      ensures !panicked && |chans| == |old(chans)|
      ensures forall c :: 0 <= c < |chans| ==> chans[c] == if c in list then Sent(old(chans)[c], e) else old(chans)[c]
    {
      for i := 0 to |list|
        invariant !panicked && |chans| == |old(chans)|
        invariant forall c :: 0 <= c < |chans| ==>
          chans[c] == if c in list[..i] then Sent(old(chans)[c], e) else old(chans)[c]
      {
        var c := list[i];
        assert c !in list[..i];
        assert list[..i + 1] == list[..i] + [c];
        panicked := panicked || !chans[c].open;
        chans := chans[c := Sent(chans[c], e)];
      }
      assert list[..|list|] == list;
    }
  }
}
