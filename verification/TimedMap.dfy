/** Maps whose entries expire, with expired entries dropped lazily on reads
    (local_storage.go, raft_storage.go). */
module TimedMap {

  type Bytes = seq<int>

  datatype Option<T> = None | Some(value: T)

  /** storageItem. */
  datatype Item = Item(value: Bytes, createdAt: int, ttl: int)
  {
    predicate Expired(now: int) {
      ttl != 0 && now - createdAt > ttl
    }
  }

  type Data = map<string, Item>

  /** What a read returns, without looking at cleanup. */
  function ReadAt(data: Data, key: string, now: int): Option<Bytes> {
    if key in data && !data[key].Expired(now) then Some(data[key].value) else None
  }

  /** The lazy cleanup of a read: an expired entry is dropped. */
  function Cleaned(data: Data, key: string, now: int): Data {
    if key in data && data[key].Expired(now) then data - {key} else data
  }

  // ----- the simple timed map: the last write decides

  datatype Write = Put(key: string, item: Item) | Remove(key: string) | Clear

  function Written(data: Data, w: Write): Data {
    match w
    case Put(key, item) => data[key := item]
    case Remove(key) => data - {key}
    case Clear => map[]
  }

  /** The item the last write to a key prescribes. */
  function LastWrite(log: seq<Write>, key: string): Option<Item> {
    if log == [] then None else
      var rest := LastWrite(log[..|log| - 1], key);
      match log[|log| - 1]
      case Put(k, item) => if k == key then Some(item) else rest
      case Remove(k) => if k == key then None else rest
      case Clear => None
  }

  function Prescribed(log: seq<Write>, key: string, now: int): Option<Bytes> {
    match LastWrite(log, key)
    case None => None
    case Some(item) => if item.Expired(now) then None else Some(item.value)
  }

  // ----- runs of writes, reads and cleanups

  /** `Cleans` is a cleanup that comes after its read, as a separate step: it deletes the key
      whatever the key holds by then. */
  datatype Access = Writes(w: Write) | Reads(key: string, now: int) | Cleans(key: string, now: int)

  function Accessed(data: Data, a: Access): Data {
    match a
    case Writes(w) => Written(data, w)
    case Reads(key, now) => Cleaned(data, key, now)
    case Cleans(key, _) => data - {key}
  }

  function Run(acts: seq<Access>): Data {
    if acts == [] then map[] else Accessed(Run(acts[..|acts| - 1]), acts[|acts| - 1])
  }

  function LogOf(acts: seq<Access>): seq<Write> {
    if acts == [] then [] else
      LogOf(acts[..|acts| - 1]) + if acts[|acts| - 1].Writes? then [acts[|acts| - 1].w] else []
  }

  /** Reads and cleanups happen at non-decreasing times, none later than `now`. */
  ghost predicate ClockedBy(acts: seq<Access>, now: int) {
    acts == [] ||
    var a := acts[|acts| - 1];
    if a.Writes? then ClockedBy(acts[..|acts| - 1], now)
    else a.now <= now && ClockedBy(acts[..|acts| - 1], a.now)
  }

  /** Every late cleanup finds its key gone or expired. */
  ghost predicate CleansExpired(acts: seq<Access>) {
    acts == [] ||
    var data, a := Run(acts[..|acts| - 1]), acts[|acts| - 1];
    && CleansExpired(acts[..|acts| - 1])
    && (a.Cleans? && a.key in data ==> data[a.key].Expired(a.now))
  }

  /** The stored entry of a key is what the last write prescribes, unless that has expired and
      was dropped. */
  ghost predicate Agrees(data: Data, last: Option<Item>, key: string, now: int) {
    match last
    case None => key !in data
    case Some(item) => if key in data then data[key] == item else item.Expired(now)
  }

  lemma {:induction false} RunAgrees(acts: seq<Access>, key: string, now: int)
    requires ClockedBy(acts, now) && CleansExpired(acts)
    ensures Agrees(Run(acts), LastWrite(LogOf(acts), key), key, now)
  {
    if acts != [] {
      var rest, a := acts[..|acts| - 1], acts[|acts| - 1];
      var log := LogOf(rest);
      if a.Writes? {
        RunAgrees(rest, key, now);
        assert (log + [a.w])[..|log|] == log;
      } else {
        RunAgrees(rest, key, a.now);
        assert LogOf(acts) == log + [] == log;
      }
    }
  }

  /** Timed-map refinement: after every sequence of writes, reads and cleanups of expired
      entries under a non-decreasing clock, a read returns what the last write to its key
      prescribes; lazy deletion is never observable. */
  lemma {:induction false} ReadsSeeLastWrite(acts: seq<Access>, key: string, now: int)
    requires ClockedBy(acts, now) && CleansExpired(acts)
    ensures ReadAt(Run(acts), key, now) == Prescribed(LogOf(acts), key, now)
  {
    RunAgrees(acts, key, now);
  }

  /** The write decides about the key. */
  predicate Touches(w: Write, key: string) {
    w.Clear? || w.key == key
  }

  lemma {:induction false} LaterWrites(log: seq<Write>, more: seq<Write>, key: string)
    requires forall i :: 0 <= i < |more| ==> !Touches(more[i], key)
    ensures LastWrite(log + more, key) == LastWrite(log, key)
  {
    if more == [] {
      assert log + more == log;
    } else {
      var k, all := |more| - 1, log + more;
      assert all[..|all| - 1] == log + more[..k] && all[|all| - 1] == more[k];
      LaterWrites(log, more[..k], key);
    }
  }

  /** Lifetimes: in every run, a value put at time t with lifetime d reads back until t + d and
      not after, and with lifetime 0 at every later time, until the key is written again. */
  lemma {:induction false} LivesUntil(acts: seq<Access>, log: seq<Write>, more: seq<Write>,
                                      key: string, value: Bytes, t: int, d: int, now: int)
    requires ClockedBy(acts, now) && CleansExpired(acts)
    requires LogOf(acts) == log + [Put(key, Item(value, t, d))] + more
    requires forall i :: 0 <= i < |more| ==> !Touches(more[i], key)
    ensures ReadAt(Run(acts), key, now) == if d == 0 || now <= t + d then Some(value) else None
  {
    var put := log + [Put(key, Item(value, t, d))];
    assert put[..|put| - 1] == log && put[|put| - 1] == Put(key, Item(value, t, d));
    ReadsSeeLastWrite(acts, key, now);
    LaterWrites(put, more, key);
  }

  /** A removed key reads as absent until it is written again. */
  lemma {:induction false} GoneAfterRemove(acts: seq<Access>, log: seq<Write>, more: seq<Write>, key: string, now: int)
    requires ClockedBy(acts, now) && CleansExpired(acts) && LogOf(acts) == log + [Remove(key)] + more
    requires forall i :: 0 <= i < |more| ==> !Touches(more[i], key)
    ensures ReadAt(Run(acts), key, now) == None
  {
    var removed := log + [Remove(key)];
    assert removed[..|removed| - 1] == log && removed[|removed| - 1] == Remove(key);
    ReadsSeeLastWrite(acts, key, now);
    LaterWrites(removed, more, key);
  }

  /** Exactly when a late cleanup is unobservable: its key is gone or expired by then. */
  lemma {:induction false} LateCleanupIff(data: Data, key: string, now: int)
    ensures (forall t :: t >= now ==> ReadAt(Accessed(data, Cleans(key, now)), key, t) == ReadAt(data, key, t))
            <==> (key in data ==> data[key].Expired(now))
  {
    var data' := Accessed(data, Cleans(key, now));
    if key in data && !data[key].Expired(now) {
      assert ReadAt(data', key, now) != ReadAt(data, key, now);
    } else {
      forall t | t >= now
        ensures ReadAt(data', key, t) == ReadAt(data, key, t)
      {
      }
    }
  }

  /** A write between a read and its late cleanup is lost. */
  lemma {:induction false} LostWrite(key: string, stale: Item, update: Item, now: int, acts: seq<Access>)
    requires stale.Expired(now) && !update.Expired(now)
    requires acts == [Writes(Put(key, stale)), Reads(key, now), Writes(Put(key, update)), Cleans(key, now)]
    ensures ReadAt(Run(acts), key, now) == None && Prescribed(LogOf(acts), key, now) == Some(update.value)
  {
    var rest := acts[..3];
    assert LogOf(acts) == LogOf(rest) + [] == LogOf(rest);
    var log := LogOf(acts[..2]);
    assert rest[..2] == acts[..2];
    assert LogOf(rest) == log + [Put(key, update)] && (log + [Put(key, update)])[..|log|] == log;
  }

  /** Two stores that saw the same writes give the same reads, whatever they cleaned up. */
  lemma {:induction false} SameWritesSameReads(acts: seq<Access>, acts': seq<Access>, key: string, now: int)
    requires ClockedBy(acts, now) && CleansExpired(acts) && ClockedBy(acts', now) && CleansExpired(acts')
    requires LogOf(acts) == LogOf(acts')
    ensures ReadAt(Run(acts), key, now) == ReadAt(Run(acts'), key, now)
  {
    ReadsSeeLastWrite(acts, key, now);
    ReadsSeeLastWrite(acts', key, now);
  }

  // ----- bulk writes and snapshots

  /** All items of a bulk write, under one timestamp and lifetime. */
  function Bulk(items: map<string, Bytes>, createdAt: int, ttl: int): Data {
    map k | k in items :: Item(items[k], createdAt, ttl)
  }

  /** The part of a bulk write that is done while some keys are left. */
  function BulkExcept(items: map<string, Bytes>, left: set<string>, createdAt: int, ttl: int): Data {
    map k | k in items && k !in left :: Item(items[k], createdAt, ttl)
  }

  lemma BulkProgress(data: Data, items: map<string, Bytes>, left: set<string>, k: string, createdAt: int, ttl: int)
    requires k in left && left <= items.Keys
    ensures (data + BulkExcept(items, left, createdAt, ttl))[k := Item(items[k], createdAt, ttl)]
            == data + BulkExcept(items, left - {k}, createdAt, ttl)
  {
  }

  /** Single writes, one after the other. */
  function PutAll(data: Data, items: map<string, Bytes>, createdAt: int, ttl: int, order: seq<string>): Data
    requires forall k :: k in order ==> k in items
  {
    if order == [] then data else
      var k := order[|order| - 1];
      Written(PutAll(data, items, createdAt, ttl, order[..|order| - 1]), Put(k, Item(items[k], createdAt, ttl)))
  }

  lemma {:induction false} PutAllAt(data: Data, items: map<string, Bytes>, createdAt: int, ttl: int,
                                    order: seq<string>, key: string)
    requires forall k :: k in order ==> k in items
    ensures var d := PutAll(data, items, createdAt, ttl, order);
      if key in order then key in d && d[key] == Item(items[key], createdAt, ttl)
      else if key in data then key in d && d[key] == data[key]
      else key !in d
  {
    if order != [] {
      PutAllAt(data, items, createdAt, ttl, order[..|order| - 1], key);
    }
  }

  /** A bulk write is its single writes, in any order that covers its keys. */
  lemma {:induction false} BulkInAnyOrder(data: Data, items: map<string, Bytes>, createdAt: int, ttl: int,
                                          order: seq<string>)
    requires forall k :: k in order <==> k in items
    ensures PutAll(data, items, createdAt, ttl, order) == data + Bulk(items, createdAt, ttl)
  {
    var d, d' := PutAll(data, items, createdAt, ttl, order), data + Bulk(items, createdAt, ttl);
    forall key
      ensures (key in d <==> key in d') && (key in d ==> d[key] == d'[key])
    {
      PutAllAt(data, items, createdAt, ttl, order, key);
    }
  }

  /** The entries a snapshot at time t keeps. */
  function Live(data: Data, t: int): Data {
    map k | k in data && !data[k].Expired(t) :: data[k]
  }

  /** A snapshot reads like the live map, for every key and at every later time. */
  lemma SnapshotReadsAlike(data: Data, t: int, key: string, now: int)
    requires t <= now
    ensures ReadAt(Live(data, t), key, now) == ReadAt(data, key, now)
  {
  }
}
