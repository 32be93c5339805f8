/** One versioned slot of the cache (src/cache/hash_slot.cpp): the map, its write log and its counters. */
module HashSlot {
  import opened Core
  import opened Binlog
  import opened Numbers

  /** What a command's mutator decides about one key. */
  datatype MutationResult = MutationResult(changed: bool, stored: Option<Object>, record: Option<seq<string>>)

  /** A write that commits: the next map and the record that explains it. */
  datatype Change = Change(objects: ObjectMap, args: seq<string>, deadline: u64)

  /** The fields of a slot, as a value. */
  datatype SlotState = SlotState(objects: ObjectMap, log: seq<Record>, slotSeq: nat, published: nat, logWrites: bool)

  const EMPTY_SLOT := SlotState(map[], [], 0, 0, true)

  function Mutation(m: ObjectMap, key: string, args: seq<string>, now: u64, result: MutationResult): Option<Change> {
    var log := if result.record.Some? then result.record.value else args;
    if !result.changed then None
    else if result.stored.Some? then
      Some(Change(m[key := result.stored.value], log, result.stored.value.deadline))
    else if Live(m, key, now).None? then None
    else Some(Change(m - {key}, log, 0))
  }

  function Deletion(m: ObjectMap, key: string, now: u64): Option<Change> {
    if Live(m, key, now).None? then None else Some(Change(m - {key}, ["DEL", key], 0))
  }

  /** Physical removal of a key whose deadline has passed; it is logged as an ordinary DEL. */
  function Expiry(m: ObjectMap, key: string, now: u64): Option<Change> {
    if key in m && m[key].Expired(now) then Some(Change(m - {key}, ["DEL", key], 0)) else None
  }

  const MICROS_PER_SECOND: nat := 1_000_000

  function SaturatingTtl(seconds: nat): u64 {
    if seconds > U64_MAX / MICROS_PER_SECOND then U64_MAX else seconds * MICROS_PER_SECOND
  }

  function SaturatingDeadline(now: u64, ttl: u64): u64 {
    if ttl > U64_MAX - now then U64_MAX else now + ttl
  }

  function Expiration(m: ObjectMap, key: string, seconds: int, now: u64): Option<Change> {
    if seconds <= 0 then Deletion(m, key, now)
    else
      var deadline := SaturatingDeadline(now, SaturatingTtl(seconds));
      match Live(m, key, now)
      case None => None
      case Some(found) =>
        Some(Change(m[key := found.(deadline := deadline)], ["EXPIRE", key, DecimalOfInt(seconds)], deadline))
  }

  function NextRecord(s: SlotState, c: Change, now: u64): Record {
    Record(s.slotSeq + 1, c.args, now, c.deadline)
  }

  /** The slot after a write: map, log and both counters move together. */
  function Apply(s: SlotState, c: Option<Change>, now: u64): SlotState {
    match c
    case None => s
    case Some(change) =>
      SlotState(change.objects, if s.logWrites then s.log + [NextRecord(s, change, now)] else s.log,
                s.slotSeq + 1, s.slotSeq + 1, s.logWrites)
  }

  function Trim(s: SlotState, through: nat): SlotState {
    s.(log := TrimThrough(s.log, through))
  }

  function ExpireKeys(s: SlotState, keys: seq<string>, now: u64): SlotState {
    if keys == [] then s
    else
      var before := ExpireKeys(s, keys[..|keys| - 1], now);
      Apply(before, Expiry(before.objects, keys[|keys| - 1], now), now)
  }

  function Elements(keys: seq<string>): set<string> {
    set k | k in keys
  }

  /** Expired keys of the map, each once and at most maxKeys; all of them if there are fewer. */
  ghost predicate ListsExpired(keys: seq<string>, m: ObjectMap, maxKeys: nat, now: u64) {
    && |keys| <= maxKeys && (forall i, j :: 0 <= i < j < |keys| ==> keys[i] != keys[j])
    && (forall k :: k in keys ==> k in m && m[k].Expired(now))
    && (|keys| < maxKeys ==> forall k :: k in m && m[k].Expired(now) ==> k in keys)
  }

  /** The walk over a copy of the map that picks the keys to remove. */
  method FindExpired(m: ObjectMap, maxKeys: nat, now: u64) returns (keys: seq<string>)
    ensures ListsExpired(keys, m, maxKeys, now)
  {
    keys := [];
    var rest := set k | k in m && m[k].Expired(now);
    while rest != {} && |keys| < maxKeys
      invariant |keys| <= maxKeys && forall i, j :: 0 <= i < j < |keys| ==> keys[i] != keys[j]
      invariant forall k :: k in keys ==> k in m && m[k].Expired(now) && k !in rest
      invariant forall k :: k in rest ==> k in m && m[k].Expired(now)
      invariant forall k :: k in m && m[k].Expired(now) ==> k in keys || k in rest
      decreases |rest|
    {
      var key :| key in rest;
      keys := keys + [key];
      rest := rest - {key};
    }
  }

  /** The next picked key is still there and still expired, and goes. */
  lemma NextExpired(keys: seq<string>, m: ObjectMap, maxKeys: nat, now: u64, i: nat, s: SlotState)
    requires ListsExpired(keys, m, maxKeys, now) && i < |keys| && s.objects == m - Elements(keys[..i])
    ensures Expiry(s.objects, keys[i], now).Some?
    ensures Apply(s, Expiry(s.objects, keys[i], now), now).objects == m - Elements(keys[..i + 1])
  {
    assert keys[i] in keys && keys[i] !in keys[..i];
    assert keys[..i + 1] == keys[..i] + [keys[i]];
  }

  /** Only expired objects went; everything else is as it was. */
  ghost predicate KeepsLive(before: ObjectMap, after: ObjectMap, now: u64) {
    && (forall k :: k in after ==> k in before && after[k] == before[k])
    && (forall k :: k in before && !before[k].Expired(now) ==> k in after)
  }

  lemma {:induction false} ElementsCount(keys: seq<string>)
    requires forall i, j :: 0 <= i < j < |keys| ==> keys[i] != keys[j]
    ensures |Elements(keys)| == |keys|
  {
    if keys == [] {
    } else {
      var front, last := keys[..|keys| - 1], keys[|keys| - 1];
      assert keys == front + [last] && Elements(keys) == Elements(front) + {last};
      ElementsCount(front);
    }
  }

  /** What a sweep means for the objects: none of those that live is touched, and each removed one counts. */
  lemma SweepKeepsLive(keys: seq<string>, m: ObjectMap, maxKeys: nat, now: u64)
    requires ListsExpired(keys, m, maxKeys, now)
    ensures var after := m - Elements(keys);
            && KeepsLive(m, after, now) && |after| + |keys| == |m|
            && (|keys| < maxKeys ==> forall k :: k in after ==> !after[k].Expired(now))
  {
    ElementsCount(keys);
    assert (m - Elements(keys)).Keys == m.Keys - Elements(keys) && Elements(keys) <= m.Keys;
  }

  function WithDeadline(m: ObjectMap, key: string, deadline: u64): ObjectMap {
    if key in m then m[key := m[key].(deadline := deadline)] else m
  }

  /** The object is there and its deadline, if it has one, lies ahead. */
  predicate Alive(m: ObjectMap, key: string, now: u64) {
    key in m && (m[key].deadline == 0 || now < m[key].deadline)
  }

  /**
   * One write happened: these objects are published under the next number, and the record is logged if logging is on.
   */
  predicate OneWrite(s: SlotState, s': SlotState, objects: ObjectMap, args: seq<string>, now: u64, deadline: u64) {
    s' == SlotState(objects, if s.logWrites then s.log + [Record(s.slotSeq + 1, args, now, deadline)] else s.log,
                    s.slotSeq + 1, s.slotSeq + 1, s.logWrites)
  }

  /** The deadline that EXPIRE sets: so many seconds ahead, or the largest 64-bit number. */
  function DeadlineAhead(seconds: nat, now: u64): u64 {
    Min(U64_MAX, now + seconds * 1_000_000)
  }

  lemma SaturatedDeadline(seconds: nat, now: u64)
    ensures SaturatingDeadline(now, SaturatingTtl(seconds)) == DeadlineAhead(seconds, now)
  {
    var most := U64_MAX / MICROS_PER_SECOND;
    assert most * MICROS_PER_SECOND <= U64_MAX < (most + 1) * MICROS_PER_SECOND;
    if seconds > most {
      assert seconds * MICROS_PER_SECOND >= (most + 1) * MICROS_PER_SECOND;
    } else {
      assert seconds * MICROS_PER_SECOND <= most * MICROS_PER_SECOND;
    }
  }

  class HashSlot {
    const binlog: BinlogBuffer
    var objects: ObjectMap
    var slotSeq: nat
    var publishedSeq: nat
    var logWrites: bool

    ghost predicate Valid()
      reads this, binlog
    {
      binlog.Valid()
    }

    ghost function State(): SlotState
      reads this, binlog
    {
      SlotState(objects, binlog.records, slotSeq, publishedSeq, logWrites)
    }

    constructor ()
      ensures Valid() && State() == EMPTY_SLOT && fresh(this) && fresh(binlog)
    {
      binlog := new BinlogBuffer();
      objects := map[];
      slotSeq := 0;
      publishedSeq := 0;
      logWrites := true;
    }

    method AppendLog(record: Record)
      requires Valid()
      modifies binlog
      ensures Valid()
      ensures binlog.records == if logWrites then old(binlog.records) + [record] else old(binlog.records)
    {
      if logWrites {
        binlog.Append(record);
      }
    }

    /** The tail that every committing write shares: log, number, then publish map and number together. */
    method Commit(change: Change, now: u64)
      requires Valid()
      modifies this, binlog
      ensures Valid() && State() == Apply(old(State()), Some(change), now)
      ensures OneWrite(old(State()), State(), change.objects, change.args, now, change.deadline)
    {
      var nextSeq := slotSeq + 1;
      AppendLog(Record(nextSeq, change.args, now, change.deadline));
      slotSeq := nextSeq;
      objects := change.objects;
      publishedSeq := nextSeq;
    }

    method Mutate(key: string, mutator: Option<Object> -> MutationResult, args: seq<string>, now: u64)
      returns (changed: bool, created: bool)
      requires Valid()
      modifies this, binlog
      ensures Valid()
      ensures var result := mutator(Live(old(objects), key, now));
              var change := Mutation(old(objects), key, args, now, result);
              && State() == Apply(old(State()), change, now)
              && changed == change.Some?
              && created == (changed && Live(old(objects), key, now).None?)
      ensures var result := mutator(if Alive(old(objects), key, now) then Some(old(objects)[key]) else None);
              var log := if result.record.Some? then result.record.value else args;
              && (changed <==> result.changed && (result.stored.Some? || Alive(old(objects), key, now)))
              && (created <==> changed && !Alive(old(objects), key, now))
              && if !changed then State() == old(State())
                 else if result.stored.Some? then
                   OneWrite(old(State()), State(), old(objects)[key := result.stored.value], log, now,
                            result.stored.value.deadline)
                 else OneWrite(old(State()), State(), old(objects) - {key}, log, now, 0)
    {
      var existing := Live(objects, key, now);
      var mutation := mutator(existing);
      if !mutation.changed {
        return false, false;
      }
      var log := if mutation.record.Some? then mutation.record.value else args;
      if mutation.stored.Some? {
        Commit(Change(objects[key := mutation.stored.value], log, mutation.stored.value.deadline), now);
        return true, existing.None?;
      }
      if existing.None? {
        return false, false;
      }
      Commit(Change(objects - {key}, log, 0), now);
      return true, false;
    }

    method Del(key: string, now: u64) returns (changed: bool)
      requires Valid()
      modifies this, binlog
      ensures Valid()
      ensures State() == Apply(old(State()), Deletion(old(objects), key, now), now)
      ensures changed == Deletion(old(objects), key, now).Some?
      ensures changed <==> Alive(old(objects), key, now)
      ensures if !changed then State() == old(State())
              else OneWrite(old(State()), State(), old(objects) - {key}, ["DEL", key], now, 0)
    {
      if key !in objects || objects[key].Expired(now) {
        return false;
      }
      Commit(Change(objects - {key}, ["DEL", key], 0), now);
      return true;
    }

    method Expire(key: string, seconds: int, now: u64) returns (changed: bool)
      requires Valid()
      modifies this, binlog
      ensures Valid()
      ensures State() == Apply(old(State()), Expiration(old(objects), key, seconds, now), now)
      ensures changed == Expiration(old(objects), key, seconds, now).Some?
      ensures changed <==> Alive(old(objects), key, now)
      ensures if !changed then State() == old(State())
              else if seconds <= 0 then OneWrite(old(State()), State(), old(objects) - {key}, ["DEL", key], now, 0)
              else
                var deadline := DeadlineAhead(seconds, now);
                OneWrite(old(State()), State(), old(objects)[key := Object(old(objects)[key].value, deadline)],
                         ["EXPIRE", key, DecimalOfInt(seconds)], now, deadline)
    {
      if seconds <= 0 {
        changed := Del(key, now);
        return;
      }
      SaturatedDeadline(seconds, now);
      var deadline := SaturatingDeadline(now, SaturatingTtl(seconds));
      if key !in objects || objects[key].Expired(now) {
        return false;
      }
      Commit(Change(objects[key := objects[key].(deadline := deadline)],
                    ["EXPIRE", key, DecimalOfInt(seconds)], deadline), now);
      return true;
    }

    /** One expired key, looked at again under the lock. */
    method DeleteIfExpired(key: string, now: u64) returns (deleted: bool)
      requires Valid()
      modifies this, binlog
      ensures Valid() && State() == Apply(old(State()), Expiry(old(objects), key, now), now)
      ensures deleted == Expiry(old(objects), key, now).Some?
      ensures deleted <==> key in old(objects) && !Alive(old(objects), key, now)
      ensures if !deleted then State() == old(State())
              else OneWrite(old(State()), State(), old(objects) - {key}, ["DEL", key], now, 0)
    {
      if key !in objects || !objects[key].Expired(now) {
        return false;
      }
      Commit(Change(objects - {key}, ["DEL", key], 0), now);
      return true;
    }

    method Snapshot() returns (map': ObjectMap, seqNo: nat)
      ensures map' == objects && seqNo == publishedSeq
    {
      return objects, publishedSeq;
    }

    method InstallReplicaSnapshot(map': ObjectMap, seqNo: nat)
      modifies this, binlog
      ensures Valid() && State() == SlotState(map', [], seqNo, seqNo, old(logWrites))
    {
      binlog.Clear();
      slotSeq := seqNo;
      objects := map';
      publishedSeq := seqNo;
    }

    method MarkReplicaAppliedSeq(seqNo: nat)
      requires Valid()
      modifies this
      ensures Valid()
      ensures State() == old(State()).(
        slotSeq := Max(old(slotSeq), seqNo),
        published := if seqNo <= old(slotSeq) then old(publishedSeq) else Max(old(publishedSeq), seqNo))
    {
      if seqNo <= slotSeq {
        return;
      }
      slotSeq := seqNo;
      if seqNo > publishedSeq {
        publishedSeq := seqNo;
      }
    }

    method SetReplicaDeadline(key: string, deadline: u64)
      requires Valid()
      modifies this
      ensures Valid() && State() == old(State()).(objects := WithDeadline(old(objects), key, deadline))
    {
      if key in objects {
        objects := objects[key := objects[key].(deadline := deadline)];
      }
    }

    method SetLogWrites(enabled: bool)
      requires Valid()
      modifies this, binlog
      ensures Valid()
      ensures State() == old(State()).(logWrites := enabled, log := if enabled then old(binlog.records) else [])
    {
      logWrites := enabled;
      if !enabled {
        binlog.Clear();
      }
    }

    method CopyLogsAfter(seqNo: nat, limit: nat, maxBytes: nat) returns (logs: seq<Record>)
      ensures logs == LogAfter(binlog.records, seqNo, limit, maxBytes)
    {
      logs := binlog.CopyAfter(seqNo, limit, maxBytes);
    }

    method AckLogsThroughAndCountBytes(through: nat) returns (removed: nat)
      requires Valid()
      modifies binlog
      ensures Valid() && State() == Trim(old(State()), through)
      ensures removed + binlog.retainedBytes == old(binlog.retainedBytes)
    {
      removed := binlog.AckThroughAndCountBytes(through);
    }
  }
}
