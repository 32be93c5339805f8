/** The replica's state machine (src/repl/slave_replicator.cpp), as a function of values. */
module Slave {
  import opened Core
  import opened HashSlot
  import opened Commands
  import opened Replay
  import opened SnapshotCodec
  import opened FrameCodec

  datatype Status = Offline | Snapshotting | CatchingUp | Online

  /** The replication state of one slot together with the engine slot behind it. */
  datatype ReplicaSlot = ReplicaSlot(status: Status, applied: nat, needSnapshot: bool, engine: SlotState)

  datatype Replica = Replica(session: string, slots: seq<ReplicaSlot>)

  /** What every node agrees on, and the codecs that they share. */
  datatype Env = Env(slotOf: string -> nat, sc: Scoring, unpack: Unpacker, lay: Layout)

  /** The replica's own random choices and clock at one step. */
  datatype Local = Local(choose: Choice, clock: u64)

  const EMPTY_REPLICA_SLOT := ReplicaSlot(Offline, 0, false, EMPTY_SLOT.(logWrites := false))

  function Reset(s: ReplicaSlot): ReplicaSlot {
    ReplicaSlot(Offline, 0, false, SlotState(map[], [], 0, 0, s.engine.logWrites))
  }

  function ResetAll(slots: seq<ReplicaSlot>): (r: seq<ReplicaSlot>)
    ensures |r| == |slots| && forall i :: 0 <= i < |slots| ==> r[i] == Reset(slots[i])
  {
    if slots == [] then [] else [Reset(slots[0])] + ResetAll(slots[1..])
  }

  function MarkApplied(s: SlotState, n: nat): SlotState {
    s.(slotSeq := Max(s.slotSeq, n), published := if n <= s.slotSeq then s.published else Max(s.published, n))
  }

  /** In-order apply: replayed is the engine slot after the record, unless the record is refused. */
  function AcceptLog(s: ReplicaSlot, r: Record, replayed: Option<SlotState>): (ReplicaSlot, bool) {
    if s.needSnapshot then (s, false)
    else if r.seqNo <= s.applied then (s, true)
    else if r.seqNo != s.applied + 1 || replayed.None? then (s.(needSnapshot := true, status := Offline), false)
    else (ReplicaSlot(CatchingUp, r.seqNo, false, MarkApplied(replayed.value, r.seqNo)), true)
  }

  function ApplyLog(env: Env, here: Local, slot: nat, s: ReplicaSlot, r: Record): (ReplicaSlot, bool) {
    AcceptLog(s, r, ApplyRecord(Context(env.slotOf, env.sc, here.choose, here.clock), slot, s.engine, r))
  }

  function ApplySnapshot(env: Env, slot: nat, s: ReplicaSlot, base: nat, payload: string): (ReplicaSlot, bool) {
    var decoded := DecodePayload(env.sc.parse, env.unpack, payload);
    if decoded.None? || exists k :: k in decoded.value && env.slotOf(k) != slot
    then (s.(status := Offline, needSnapshot := true), false)
    else (ReplicaSlot(CatchingUp, base, false, SlotState(decoded.value, [], base, base, s.engine.logWrites)), true)
  }

  /** A slot that does not wait for a snapshot is readable once it has reached the announced number. */
  function MarkDone(s: ReplicaSlot, target: nat): ReplicaSlot {
    if s.needSnapshot then s else s.(status := if s.applied >= target then Online else CatchingUp)
  }

  /** DONE positions in order, up to the first slot number that does not exist. */
  function ApplyDone(slots: seq<ReplicaSlot>, positions: seq<Position>): (r: (seq<ReplicaSlot>, bool))
    ensures |r.0| == |slots|
    decreases |positions|
  {
    if positions == [] then (slots, true)
    else if positions[0].0 >= |slots| then (slots, false)
    else ApplyDone(slots[positions[0].0 := MarkDone(slots[positions[0].0], positions[0].1)], positions[1..])
  }

  /** DONE changes nothing but statuses. */
  lemma {:induction false} DoneLeavesSlots(slots: seq<ReplicaSlot>, positions: seq<Position>)
    ensures forall i :: 0 <= i < |slots| ==>
              var s := ApplyDone(slots, positions).0[i];
              s.applied == slots[i].applied && s.needSnapshot == slots[i].needSnapshot && s.engine == slots[i].engine
    decreases |positions|
  {
    if positions == [] {
    } else if positions[0].0 < |slots| {
      DoneLeavesSlots(slots[positions[0].0 := MarkDone(slots[positions[0].0], positions[0].1)], positions[1..]);
    }
  }

  function ApplyToSlot(env: Env, here: Local, r: Replica, f: Frame): (Replica, bool)
    requires f.Snapshot? || f.Log?
  {
    if f.slot >= |r.slots| then (r, false)
    else
      var (s, ok) := if f.Snapshot? then ApplySnapshot(env, f.slot, r.slots[f.slot], f.base, f.payload)
                     else ApplyLog(env, here, f.slot, r.slots[f.slot], f.record);
      (r.(slots := r.slots[f.slot := s]), ok)
  }

  /** EnqueueFrame: the next state, and whether the frame was accepted. */
  function Enqueue(env: Env, here: Local, r: Replica, f: Frame): (result: (Replica, bool))
    ensures |result.0.slots| == |r.slots|
  {
    if f.Begin? then
      if f.session == "" || (!f.reset && f.session != r.session) then (r, false)
      else (Replica(f.session, if f.reset then ResetAll(r.slots) else r.slots), true)
    else if r.session == "" || f.session != r.session then (r, false)
    else
      match f
      case Done(_, positions) => var (slots, ok) := ApplyDone(r.slots, positions); (r.(slots := slots), ok)
      case Snapshot(_, _, _, _) => ApplyToSlot(env, here, r, f)
      case Log(_, _, _) => ApplyToSlot(env, here, r, f)
      case _ => (r, false)
  }

  /** The positions that the replica reports: a slot that waits for a snapshot reports the largest number. */
  function Positions(r: Replica): (positions: seq<Position>)
    ensures |positions| == |r.slots|
    ensures forall i :: 0 <= i < |r.slots| ==>
              positions[i] == (i, if r.slots[i].needSnapshot then U64_MAX else r.slots[i].applied)
  {
    seq(|r.slots|, i requires 0 <= i < |r.slots| =>
      (i, if r.slots[i].needSnapshot then U64_MAX else r.slots[i].applied))
  }
}
