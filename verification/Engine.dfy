/** The slots of one node's cache (src/cache/cache_engine.cpp), each an object of its own, and commands on them. */
module Engine {
  import opened Core
  import opened Numbers
  import opened Binlog
  import opened HashSlot
  import opened Commands
  import Replay

  type Slots = seq<HashSlot>

  function Binlogs(slots: Slots): (logs: set<BinlogBuffer>)
    ensures forall i :: 0 <= i < |slots| ==> slots[i].binlog in logs
  {
    set s: HashSlot | s in slots :: s.binlog
  }

  /** Slots share nothing, and each is valid. */
  ghost predicate Valid(slots: Slots)
    reads slots, Binlogs(slots)
  {
    && (forall i :: 0 <= i < |slots| ==> slots[i].Valid())
    && (forall i, j :: 0 <= i < j < |slots| ==> slots[i] != slots[j] && slots[i].binlog != slots[j].binlog)
  }

  /** The slots as values. */
  ghost function States(slots: Slots): (states: seq<SlotState>)
    reads slots, Binlogs(slots)
    ensures |states| == |slots| && forall i :: 0 <= i < |slots| ==> states[i] == slots[i].State()
  {
    seq(|slots|, i requires 0 <= i < |slots| reads slots, Binlogs(slots) => slots[i].State())
  }

  /** Trims one slot's log, and touches no other slot. */
  method TrimSlot(slots: Slots, i: nat, through: nat) returns (removed: nat)
    requires Valid(slots) && i < |slots|
    modifies slots[i].binlog
    ensures Valid(slots) && slots[i].State() == Trim(old(slots[i].State()), through)
    ensures forall j :: 0 <= j < |slots| && j != i ==> slots[j].State() == old(slots[j].State())
    ensures removed + TotalBytes(slots[i].State().log) == TotalBytes(old(slots[i].State()).log)
  {
    hide TotalBytes, Trim;
    assert forall j :: 0 <= j < |slots| && j != i ==> slots[j].binlog != slots[i].binlog;
    removed := slots[i].AckLogsThroughAndCountBytes(through);
  }

  /** Removes a key that has expired from one slot, and touches no other slot. */
  method DeleteIfExpired(slots: Slots, i: nat, key: string, now: u64) returns (gone: bool)
    requires Valid(slots) && i < |slots|
    modifies slots[i], slots[i].binlog
    ensures Valid(slots) && States(slots) == old(States(slots))[i := slots[i].State()]
    ensures slots[i].State() == Apply(old(slots[i].State()), Expiry(old(slots[i].objects), key, now), now)
    ensures gone == Expiry(old(slots[i].objects), key, now).Some?
  {
    hide Apply, Expiry;
    assert forall j :: 0 <= j < |slots| && j != i ==> slots[j] != slots[i] && slots[j].binlog != slots[i].binlog;
    gone := slots[i].DeleteIfExpired(key, now);
  }

  lemma FailureChangesNothing(sc: Scoring, choose: Choice, args: seq<string>, now: u64, m: ObjectMap)
    ensures Run(sc, choose, args, now, m).failed ==> Run(sc, choose, args, now, m).change == None
  {
    if |args| >= 2 && IsWriteCommand(args[0]) && ArityOk(Upper(args[0]), |args|)
      && Upper(args[0]) !in {"DEL", "EXPIRE"} {
      Replay.ChangeMeansSuccess(sc, choose, Upper(args[0]), args[1], args[2..], now, Live(m, args[1], now));
    }
  }

  /** A write command on the slot of its key, at a given time. */
  method Execute(slot: HashSlot, sc: Scoring, choose: Choice, args: seq<string>, now: u64) returns (failed: bool)
    requires slot.Valid() && |args| >= 2 && IsWriteCommand(args[0]) && Upper(args[0]) != "DEL"
    modifies slot, slot.binlog
    ensures slot.Valid()
    ensures var outcome := Run(sc, choose, args, now, old(slot.objects));
            slot.State() == Apply(old(slot.State()), outcome.change, now) && failed == outcome.failed
  {
    hide MutatorEffect, Mutation, Expiration, Upper;
    var name := Upper(args[0]);
    if !ArityOk(name, |args|) {
      return true;
    }
    if name == "EXPIRE" {
      var seconds := ParseInt64(args[2]);
      if seconds.None? {
        return true;
      }
      var _ := slot.Expire(args[1], seconds.value, now);
      return false;
    }
    var key, words := args[1], args[2..];
    failed := MutatorEffect(sc, choose, name, key, words, now, Live(slot.objects, key, now)).failed;
    var _, _ := slot.Mutate(key, existing => MutatorEffect(sc, choose, name, key, words, now, existing).result,
                            DefaultRecord(args), now);
  }
}
