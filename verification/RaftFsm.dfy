/** The Raft state machine's data (raftFSM in internal/services/statestorage/raft_storage.go). */
module RaftFsm {
  import opened TimedMap

  /** A log entry after decoding; `Malformed` is one that does not unmarshal. */
  datatype Command =
    | SetCommand(key: string, value: Bytes, ttl: int, timestamp: int)
    | DeleteCommand(key: string)
    | SetMultipleCommand(items: map<string, Bytes>, ttl: int, timestamp: int)
    | UnknownCommand
    | Malformed

  function Applied(data: Data, cmd: Command): Data {
    match cmd
    case SetCommand(key, value, ttl, timestamp) => Written(data, Put(key, Item(value, timestamp, ttl)))
    case DeleteCommand(key) => Written(data, Remove(key))
    case SetMultipleCommand(items, ttl, timestamp) => data + Bulk(items, timestamp, ttl)
    case UnknownCommand => data
    case Malformed => data
  }

  class Fsm {
    var data: Data

    constructor ()
      ensures data == map[]
    {
      data := map[];
    }

    /** Apply. The loop over a bulk command's Go map visits its keys in arbitrary order. */
    method Apply(cmd: Command) returns (ok: bool)
      modifies this
      ensures data == Applied(old(data), cmd)
      ensures ok <==> !cmd.UnknownCommand? && !cmd.Malformed?
    {
      match cmd
      case SetCommand(key, value, ttl, timestamp) =>
        data := data[key := Item(value, timestamp, ttl)];
        ok := true;
      case DeleteCommand(key) =>
        data := data - {key};
        ok := true;
      case SetMultipleCommand(items, ttl, timestamp) =>
        var left := items.Keys;
        assert data == data + BulkExcept(items, left, timestamp, ttl);
        while left != {}
          invariant left <= items.Keys
          invariant data == old(data) + BulkExcept(items, left, timestamp, ttl)
        {
          var k :| k in left;
          BulkProgress(old(data), items, left, k, timestamp, ttl);
          data := data[k := Item(items[k], timestamp, ttl)];
          left := left - {k};
        }
        assert BulkExcept(items, {}, timestamp, ttl) == Bulk(items, timestamp, ttl);
        ok := true;
      case UnknownCommand => ok := false;
      case Malformed => ok := false;
    }

    /** get, with its cleanup as part of the read. */
    method Get(key: string, now: int) returns (r: Option<Bytes>)
      modifies this
      ensures r == ReadAt(old(data), key, now)
      ensures r.Some? <==>
        && key in old(data)
        && (old(data)[key].ttl == 0 || now <= old(data)[key].createdAt + old(data)[key].ttl)
      ensures r.Some? ==> r.value == old(data)[key].value
      ensures data == Cleaned(old(data), key, now)
    {
      if key !in data || data[key].Expired(now) {
        if key in data {
          data := data - {key};
        }
        return None;
      }
      return Some(data[key].value);
    }

    /** Snapshot: the copying loop. */
    method Snapshot(now: int) returns (copy: Data)
      ensures copy == Live(data, now)
      ensures forall k :: k in copy <==>
        && k in data
        && (data[k].ttl == 0 || now <= data[k].createdAt + data[k].ttl)
      ensures forall k :: k in copy ==> copy[k] == data[k]
    {
      copy := map[];
      var left := data.Keys;
      while left != {}
        invariant left <= data.Keys
        invariant copy == map k | k in data && k !in left && !data[k].Expired(now) :: data[k]
      {
        var k :| k in left;
        if !data[k].Expired(now) {
          copy := copy[k := data[k]];
        }
        left := left - {k};
      }
    }
  }

  function FoldFrom(data: Data, log: seq<Command>): Data {
    if log == [] then data else Applied(FoldFrom(data, log[..|log| - 1]), log[|log| - 1])
  }

  function Fold(log: seq<Command>): Data {
    FoldFrom(map[], log)
  }

  /** The item the last command that touches a key prescribes. */
  function LastCommand(log: seq<Command>, key: string): Option<Item> {
    if log == [] then None else
      var rest := LastCommand(log[..|log| - 1], key);
      match log[|log| - 1]
      case SetCommand(k, value, ttl, timestamp) => if k == key then Some(Item(value, timestamp, ttl)) else rest
      case DeleteCommand(k) => if k == key then None else rest
      case SetMultipleCommand(items, ttl, timestamp) =>
        if key in items then Some(Item(items[key], timestamp, ttl)) else rest
      case UnknownCommand => rest
      case Malformed => rest
  }

  /** Folded over any log, the state machine reads what the last command to the key prescribes. */
  lemma {:induction false} FoldSeesLastCommand(log: seq<Command>, key: string, now: int)
    ensures LastCommand(log, key) == if key in Fold(log) then Some(Fold(log)[key]) else None
    ensures ReadAt(Fold(log), key, now) ==
      match LastCommand(log, key)
      case None => None
      case Some(item) => if item.Expired(now) then None else Some(item.value)
  {
    if log != [] {
      FoldSeesLastCommand(log[..|log| - 1], key, now);
    }
  }

  /** A set value reads back until its timestamp plus its lifetime, a deleted key not at all. */
  lemma {:induction false} SetThenRead(log: seq<Command>, key: string, value: Bytes, ttl: int, timestamp: int, now: int)
    ensures ReadAt(Fold(log + [SetCommand(key, value, ttl, timestamp)]), key, now)
            == if ttl == 0 || now <= timestamp + ttl then Some(value) else None
    ensures ReadAt(Fold(log + [DeleteCommand(key)]), key, now) == None
  {
    assert (log + [SetCommand(key, value, ttl, timestamp)])[..|log|] == log;
    assert (log + [DeleteCommand(key)])[..|log|] == log;
  }

  /** A replica that starts from a snapshot and applies the rest of the log reads, at every
      later time, what a replica with the whole log reads. */
  lemma {:induction false} SnapshotThenRest(log: seq<Command>, rest: seq<Command>, t: int, key: string, now: int)
    requires t <= now
    ensures ReadAt(FoldFrom(Live(Fold(log), t), rest), key, now) == ReadAt(FoldFrom(Fold(log), rest), key, now)
  {
    if rest == [] {
      SnapshotReadsAlike(Fold(log), t, key, now);
    } else {
      SnapshotThenRest(log, rest[..|rest| - 1], t, key, now);
    }
  }
}
