/** The replica's replicator as an object over the slots it fills (src/repl/slave_replicator.cpp). */
module SlaveReplicator {
  import opened Core
  import opened HashSlot
  import opened Commands
  import Replay
  import opened SnapshotCodec
  import opened FrameCodec
  import opened Slave
  import opened Engine

  /** ApplyRecord: the slot moves as the record says, or stays as it is when the record is refused. */
  method ApplyRecord(cx: Replay.Context, slotId: nat, slot: HashSlot, r: Record) returns (ok: bool)
    requires slot.Valid()
    modifies slot, slot.binlog
    ensures slot.Valid()
    ensures match Replay.ApplyRecord(cx, slotId, old(slot.State()), r)
            case None => !ok && slot.State() == old(slot.State())
            case Some(after) => ok && slot.State() == after
  {
    hide Run, Upper, IsWriteCommand;
    if |r.args| < 2 || cx.slotOf(r.args[1]) != slotId || !IsWriteCommand(r.args[0]) {
      return false;
    }
    if Upper(r.args[0]) == "DEL" {
      if |r.args| != 2 {
        return false;
      }
      var _ := slot.Del(r.args[1], 0);
      return true;
    }
    var time := if r.writtenAt != 0 then r.writtenAt else cx.clock;
    FailureChangesNothing(cx.sc, cx.choose, r.args, time, slot.objects);
    var failed := Execute(slot, cx.sc, cx.choose, r.args, time);
    if failed {
      return false;
    }
    if r.writtenAt != 0 {
      slot.SetReplicaDeadline(r.args[1], r.deadline);
    }
    return true;
  }

  /** The replication state of one slot, without the engine slot behind it. */
  datatype SlotStatus = SlotStatus(status: Status, applied: nat, needSnapshot: bool)

  const NEW_STATUS := SlotStatus(Offline, 0, false)

  function WithEngine(st: SlotStatus, s: SlotState): ReplicaSlot {
    ReplicaSlot(st.status, st.applied, st.needSnapshot, s)
  }

  /** Whether every key of a decoded map belongs to the slot. */
  method KeysBelong(m: ObjectMap, slotOf: string -> nat, slot: nat) returns (valid: bool)
    ensures valid <==> !exists k :: k in m && slotOf(k) != slot
  {
    valid := true;
    var keys := m.Keys;
    while keys != {}
      invariant keys <= m.Keys && (valid <==> forall k :: k in m && k !in keys ==> slotOf(k) == slot)
      decreases |keys|
    {
      var key :| key in keys;
      if slotOf(key) != slot {
        valid := false;
      }
      keys := keys - {key};
    }
  }

  function Unlogged(s: SlotState): SlotState {
    s.(logWrites := false, log := [])
  }

  /** A replica's slots keep no log. */
  method DisableBinlog(slots: Slots)
    requires Engine.Valid(slots)
    modifies slots, Binlogs(slots)
    ensures Engine.Valid(slots) && forall i :: 0 <= i < |slots| ==> slots[i].State() == Unlogged(old(slots[i].State()))
  {
    for i := 0 to |slots|
      invariant Engine.Valid(slots)
      invariant forall j :: 0 <= j < i ==> slots[j].State() == Unlogged(old(slots[j].State()))
      invariant forall j :: i <= j < |slots| ==> slots[j].State() == old(slots[j].State())
    {
      assert forall j :: 0 <= j < |slots| && j != i ==> slots[j] != slots[i] && slots[j].binlog != slots[i].binlog;
      slots[i].SetLogWrites(false);
    }
  }

  class SlaveReplicator {
    const slots: Slots
    const env: Env
    var states: seq<SlotStatus>
    var session: string

    ghost predicate Valid()
      reads this, slots, Binlogs(slots)
    {
      Engine.Valid(slots) && |states| == |slots|
    }

    /** The replica as a value. */
    ghost function Value(): (r: Replica)
      requires |states| == |slots|
      reads this, slots, Binlogs(slots)
      ensures r.session == session && |r.slots| == |slots|
      ensures forall i :: 0 <= i < |slots| ==> r.slots[i] == WithEngine(states[i], slots[i].State())
    {
      var known := states;
      Replica(session,
              seq(|slots|, i requires 0 <= i < |slots| reads slots, Binlogs(slots) =>
                WithEngine(known[i], slots[i].State())))
    }

    constructor (slots: Slots, env: Env)
      requires Engine.Valid(slots)
      modifies slots, Binlogs(slots)
      ensures Valid() && this.slots == slots && this.env == env && session == ""
              && states == seq(|slots|, _ => NEW_STATUS)
      ensures forall i :: 0 <= i < |slots| ==> slots[i].State() == Unlogged(old(slots[i].State()))
    {
      this.slots := slots;
      this.env := env;
      states := seq(|slots|, _ => NEW_STATUS);
      session := "";
      new;
      DisableBinlog(slots);
    }

    /** Slot i alone moved. */
    twostate predicate OnlySlot(i: nat)
      requires i < |slots|
      reads this, slots, Binlogs(slots)
    {
      && |states| == |slots| && |old(states)| == |slots| && session == old(session)
      && forall j :: 0 <= j < |slots| && j != i ==>
           states[j] == old(states)[j] && slots[j].State() == old(slots[j].State())
    }

    method ApplyLog(i: nat, r: Record, here: Local) returns (ok: bool)
      requires Valid() && i < |slots|
      modifies this`states, slots[i], slots[i].binlog
      ensures Valid() && OnlySlot(i)
      ensures (WithEngine(states[i], slots[i].State()), ok) ==
              Slave.ApplyLog(env, here, i, WithEngine(old(states)[i], old(slots[i].State())), r)
    {
      hide Replay.ApplyRecord;
      assert forall j :: 0 <= j < |slots| && j != i ==> slots[j] != slots[i] && slots[j].binlog != slots[i].binlog;
      if states[i].needSnapshot {
        return false;
      }
      if r.seqNo <= states[i].applied {
        return true;
      }
      var applied := false;
      if r.seqNo == states[i].applied + 1 {
        applied := ApplyRecord(Replay.Context(env.slotOf, env.sc, here.choose, here.clock), i, slots[i], r);
      }
      if !applied {
        states := states[i := states[i].(needSnapshot := true, status := Offline)];
        return false;
      }
      states := states[i := states[i].(applied := r.seqNo)];
      slots[i].MarkReplicaAppliedSeq(r.seqNo);
      states := states[i := states[i].(status := CatchingUp)];
      return true;
    }

    method ApplySnapshot(i: nat, base: nat, payload: string) returns (ok: bool)
      requires Valid() && i < |slots|
      modifies this`states, slots[i], slots[i].binlog
      ensures Valid() && OnlySlot(i)
      ensures (WithEngine(states[i], slots[i].State()), ok) ==
              Slave.ApplySnapshot(env, i, WithEngine(old(states)[i], old(slots[i].State())), base, payload)
    {
      assert forall j :: 0 <= j < |slots| && j != i ==> slots[j] != slots[i] && slots[j].binlog != slots[i].binlog;
      states := states[i := states[i].(status := Snapshotting)];
      var decoded := DecodeSnapshotPayload(env.sc.parse, env.unpack, payload);
      var valid := decoded.Some?;
      if decoded.Some? {
        valid := KeysBelong(decoded.value, env.slotOf, i);
      }
      if !valid {
        states := states[i := states[i].(status := Offline, needSnapshot := true)];
        return false;
      }
      slots[i].InstallReplicaSnapshot(decoded.value, base);
      states := states[i := SlotStatus(CatchingUp, base, false)];
      return true;
    }

    method ResetOne(i: nat)
      requires Valid() && i < |slots|
      modifies this`states, slots[i], slots[i].binlog
      ensures Valid() && OnlySlot(i)
      ensures WithEngine(states[i], slots[i].State()) == Reset(WithEngine(old(states)[i], old(slots[i].State())))
    {
      assert forall j :: 0 <= j < |slots| && j != i ==> slots[j] != slots[i] && slots[j].binlog != slots[i].binlog;
      states := states[i := NEW_STATUS];
      slots[i].InstallReplicaSnapshot(map[], 0);
    }

    /** BEGIN with reset: every slot starts over. */
    method ResetSlots()
      requires Valid()
      modifies this`states, slots, Binlogs(slots)
      ensures Valid() && Value().slots == ResetAll(old(Value()).slots)
    {
      hide ResetAll, Reset, WithEngine;
      ghost var before := Value().slots;
      for i := 0 to |slots|
        invariant Valid()
        invariant forall j :: 0 <= j < i ==> Value().slots[j] == Reset(before[j])
        invariant session == old(session) && forall j :: i <= j < |slots| ==> Value().slots[j] == before[j]
      {
        ResetOne(i);
      }
    }

    method MarkOne(i: nat, target: nat)
      requires Valid() && i < |slots|
      modifies this`states
      ensures Valid() && states == old(states)[i := states[i]]
      ensures WithEngine(states[i], slots[i].State()) == MarkDone(WithEngine(old(states)[i], slots[i].State()), target)
    {
      if !states[i].needSnapshot {
        states := states[i := states[i].(status := if states[i].applied >= target then Online else CatchingUp)];
      }
    }

    /** DONE: slots that reached their announced number become readable, up to a slot that does not exist. */
    method Done(positions: seq<Position>) returns (ok: bool)
      requires Valid()
      modifies this`states
      ensures Valid() && (Value().slots, ok) == ApplyDone(old(Value()).slots, positions)
    {
      hide MarkDone;
      ghost var before := Value().slots;
      assert positions[0..] == positions;
      for k := 0 to |positions|
        invariant Valid() && forall j :: 0 <= j < |slots| ==> slots[j].State() == old(slots[j].State())
        invariant ApplyDone(Value().slots, positions[k..]) == ApplyDone(before, positions)
      {
        assert positions[k..][0] == positions[k] && positions[k..][1..] == positions[k + 1..];
        ghost var now := Value().slots;
        if positions[k].0 >= |slots| {
          return false;
        }
        MarkOne(positions[k].0, positions[k].1);
        assert Value().slots == now[positions[k].0 := MarkDone(now[positions[k].0], positions[k].1)];
      }
      return true;
    }

    /** A snapshot or a log record of one slot. */
    method ApplyData(f: Frame, here: Local) returns (ok: bool)
      requires Valid() && (f.Snapshot? || f.Log?)
      modifies this`states, slots, Binlogs(slots)
      ensures Valid() && (Value(), ok) == ApplyToSlot(env, here, old(Value()), f)
    {
      hide Slave.ApplyLog, Slave.ApplySnapshot, WithEngine;
      if f.slot >= |slots| {
        return false;
      }
      ghost var before := Value().slots;
      if f.Snapshot? {
        ok := ApplySnapshot(f.slot, f.base, f.payload);
      } else {
        ok := ApplyLog(f.slot, f.record, here);
      }
      assert Value().slots == before[f.slot := WithEngine(states[f.slot], slots[f.slot].State())];
    }

    /** One frame from the link. */
    method EnqueueFrame(f: Frame, here: Local) returns (ok: bool)
      requires Valid()
      modifies this`states, this`session, slots, Binlogs(slots)
      ensures Valid() && (Value(), ok) == Enqueue(env, here, old(Value()), f)
    {
      hide ResetAll, ApplyDone, ApplyToSlot, WithEngine;
      if f.Begin? {
        if f.session == "" || (!f.reset && f.session != session) {
          return false;
        }
        if f.reset {
          ResetSlots();
        }
        ghost var begun := Value().slots;
        session := f.session;
        assert Value().slots == begun;
        return true;
      }
      if session == "" || f.session != session {
        return false;
      }
      if f.Done? {
        ok := Done(f.positions);
      } else if f.Snapshot? || f.Log? {
        ok := ApplyData(f, here);
      } else {
        ok := false;
      }
    }

    /** What the replica reports in its HELLO. */
    method Positions() returns (positions: seq<Position>)
      requires Valid()
      ensures positions == Slave.Positions(Value())
    {
      positions := [];
      for i := 0 to |slots|
        invariant |positions| == i
        invariant forall j :: 0 <= j < i ==> positions[j] == Slave.Positions(Value())[j]
      {
        positions := positions + [(i, if states[i].needSnapshot then U64_MAX else states[i].applied)];
      }
    }
  }
}
