/** What a replica refuses, frame by frame (src/repl/slave_replicator.cpp:18-107), and how a slot stops waiting. */
module Refusals {
  import opened Core
  import opened HashSlot
  import opened Commands
  import opened Replay
  import opened SnapshotCodec
  import opened FrameCodec
  import opened Slave
  import opened Delivery

  /** The frame belongs to the session in which the replica is. */
  predicate InSession(r: Replica, f: Frame) {
    !f.Hello? && f.session == r.session != ""
  }

  /** A replica outside the frame's session, and a HELLO or an unknown slot number, changes nothing. */
  lemma ForeignFrameIsRefused(env: Env, here: Local, r: Replica, f: Frame)
    requires f.Hello? || (f.Begin? && (f.session == "" || (!f.reset && f.session != r.session)))
             || (!f.Hello? && !f.Begin? && (r.session == "" || f.session != r.session))
             || ((f.Log? || f.Snapshot?) && f.slot >= |r.slots|)
    ensures Enqueue(env, here, r, f) == (r, false)
  {
  }

  /** BEGIN opens the session; with reset every slot starts over, empty, Offline and waiting for nothing. */
  lemma BeginOpensSession(env: Env, here: Local, r: Replica, f: Frame)
    requires f.Begin? && f.session != "" && (f.reset || f.session == r.session)
    ensures var (r', ok) := Enqueue(env, here, r, f);
            && ok && r'.session == f.session && |r'.slots| == |r.slots|
            && forall i :: 0 <= i < |r.slots| ==>
                 if !f.reset then r'.slots[i] == r.slots[i]
                 else
                   && r'.slots[i].status == Offline && r'.slots[i].applied == 0 && !r'.slots[i].needSnapshot
                   && r'.slots[i].engine.objects == map[] && r'.slots[i].engine.published == 0
  {
  }

  /** The slot is as it was, but Offline and waiting for a snapshot. */
  predicate Flagged(s: ReplicaSlot, s': ReplicaSlot) {
    s'.status == Offline && s'.needSnapshot && s'.applied == s.applied && s'.engine == s.engine
  }

  predicate OthersStay(r: Replica, r': Replica, i: nat) {
    && r'.session == r.session && |r'.slots| == |r.slots|
    && forall j :: 0 <= j < |r.slots| && j != i ==> r'.slots[j] == r.slots[j]
  }

  /**
   * A log record of the session to a slot that exists. A waiting slot refuses it; one that is applied already is
   * accepted and changes nothing; one behind a gap, or that does not replay, is refused and flags the slot; the next
   * one moves the slot to its number.
   */
  lemma LogIsTakenInOrder(env: Env, here: Local, r: Replica, f: Frame)
    requires f.Log? && InSession(r, f) && f.slot < |r.slots|
    ensures var (r', ok) := Enqueue(env, here, r, f); var s, s' := r.slots[f.slot], r'.slots[f.slot];
            var replayed := ApplyRecord(Context(env.slotOf, env.sc, here.choose, here.clock), f.slot, s.engine,
                                        f.record);
            && OthersStay(r, r', f.slot)
            && (s.needSnapshot ==> !ok && s' == s)
            && (!s.needSnapshot && f.record.seqNo <= s.applied ==> ok && s' == s)
            && (!s.needSnapshot && f.record.seqNo > s.applied + 1 ==> !ok && Flagged(s, s'))
            && (!s.needSnapshot && f.record.seqNo == s.applied + 1 && replayed == None ==> !ok && Flagged(s, s'))
            && (!s.needSnapshot && f.record.seqNo == s.applied + 1 && replayed != None ==>
                  && ok && s'.status == CatchingUp && s'.applied == s.applied + 1 && !s'.needSnapshot
                  && s'.engine.objects == replayed.value.objects && s'.engine.log == replayed.value.log
                  && (replayed.value.slotSeq >= f.record.seqNo ==> s'.engine == replayed.value)
                  && (replayed.value.slotSeq < f.record.seqNo ==>
                        s'.engine.slotSeq == f.record.seqNo <= s'.engine.published))
  {
    hide ApplyRecord;
  }

  /**
   * A record replays unless it is malformed, belongs to another slot, is no write, is a DEL of several keys, or its
   * command answers with an error.
   */
  lemma RecordIsRefused(cx: Context, slot: nat, s: SlotState, r: Record)
    ensures ApplyRecord(cx, slot, s, r) == None <==>
            || |r.args| < 2 || cx.slotOf(r.args[1]) != slot || Upper(r.args[0]) !in WRITE_COMMANDS
            || (Upper(r.args[0]) == "DEL" && |r.args| > 2)
            || (Upper(r.args[0]) != "DEL"
                && Run(cx.sc, cx.choose, r.args, if r.writtenAt != 0 then r.writtenAt else cx.clock, s.objects).failed)
  {
    hide Run, Upper, Deletion;
  }

  /** An image of the session: if it decodes to keys of this slot it is installed, otherwise the slot is flagged. */
  lemma ImageIsInstalledOrRefused(env: Env, here: Local, r: Replica, f: Frame)
    requires f.Snapshot? && InSession(r, f) && f.slot < |r.slots|
    ensures var (r', ok) := Enqueue(env, here, r, f); var s, s' := r.slots[f.slot], r'.slots[f.slot];
            var decoded := DecodePayload(env.sc.parse, env.unpack, f.payload);
            && OthersStay(r, r', f.slot)
            && (ok <==> decoded != None && forall k :: k in decoded.value ==> env.slotOf(k) == f.slot)
            && (ok ==>
                  && s'.status == CatchingUp && s'.applied == f.base && !s'.needSnapshot
                  && s'.engine.objects == decoded.value && s'.engine.published == s'.engine.slotSeq == f.base)
            && (!ok ==> Flagged(s, s'))
  {
    hide DecodePayload;
  }

  /** DONE decides about each slot that it names: readable exactly if it does not wait and reached its last number. */
  lemma {:induction false} DoneMarksNamed(slots: seq<ReplicaSlot>, positions: seq<Position>, j: nat)
    requires j < |slots| && forall q :: q in positions ==> q.0 < |slots|
    ensures var (slots', ok) := ApplyDone(slots, positions);
            && ok && slots'[j].applied == slots[j].applied && slots'[j].needSnapshot == slots[j].needSnapshot
            && slots'[j].engine == slots[j].engine
            && (slots[j].needSnapshot || (forall q :: q in positions ==> q.0 != j) ==> slots'[j] == slots[j])
            && forall k :: 0 <= k < |positions| && positions[k].0 == j && !slots[j].needSnapshot
                           && (forall i :: k < i < |positions| ==> positions[i].0 != j) ==>
                 slots'[j].status == if slots[j].applied >= positions[k].1 then Online else CatchingUp
    decreases |positions|
  {
    if positions == [] {
    } else {
      var q := positions[0];
      var next := slots[q.0 := MarkDone(slots[q.0], q.1)];
      assert forall q' :: q' in positions[1..] ==> q' in positions;
      DoneMarksNamed(next, positions[1..], j);
      forall k | 0 <= k < |positions| && positions[k].0 == j && !slots[j].needSnapshot
                 && (forall i :: k < i < |positions| ==> positions[i].0 != j)
        ensures ApplyDone(slots, positions).0[j].status
                == if slots[j].applied >= positions[k].1 then Online else CatchingUp
      {
        if k > 0 {
          assert positions[1..][k - 1] == positions[k];
        } else {
          forall q' | q' in positions[1..]
            ensures q'.0 != j
          {
            var i :| 0 <= i < |positions[1..]| && positions[1..][i] == q';
            assert positions[i + 1] == q';
          }
        }
      }
    }
  }

  lemma {:induction false} DoneIsTakenIffSlotsExist(slots: seq<ReplicaSlot>, positions: seq<Position>)
    ensures ApplyDone(slots, positions).1 <==> forall q :: q in positions ==> q.0 < |slots|
    decreases |positions|
  {
    if positions == [] {
    } else {
      assert positions[0] in positions && forall q :: q in positions <==> q == positions[0] || q in positions[1..];
      if positions[0].0 < |slots| {
        DoneIsTakenIffSlotsExist(slots[positions[0].0 := MarkDone(slots[positions[0].0], positions[0].1)],
                                 positions[1..]);
      }
    }
  }

  /** DONE of the session, as far as its slots exist. */
  lemma DoneIsTaken(env: Env, here: Local, r: Replica, f: Frame)
    requires f.Done? && InSession(r, f)
    ensures var (r', ok) := Enqueue(env, here, r, f);
            && r'.session == r.session && (ok <==> forall q :: q in f.positions ==> q.0 < |r.slots|)
            && (ok ==> r'.slots == ApplyDone(r.slots, f.positions).0)
  {
    DoneIsTakenIffSlotsExist(r.slots, f.positions);
  }

  /** The frame installs an image in slot j, or starts every slot over. */
  ghost predicate Frees(env: Env, here: Local, r: Replica, f: Frame, j: nat) {
    Enqueue(env, here, r, f).1 && ((f.Snapshot? && f.slot == j) || (f.Begin? && f.reset))
  }

  lemma {:induction false} WaitingThroughDone(slots: seq<ReplicaSlot>, positions: seq<Position>, j: nat)
    requires j < |slots| && slots[j].needSnapshot
    ensures ApplyDone(slots, positions).0[j] == slots[j]
    decreases |positions|
  {
    if positions == [] {
    } else if positions[0].0 < |slots| {
      WaitingThroughDone(slots[positions[0].0 := MarkDone(slots[positions[0].0], positions[0].1)], positions[1..], j);
    }
  }

  /** A waiting slot stays as it is through every other frame. */
  lemma WaitingSlotStays(env: Env, here: Local, r: Replica, f: Frame, j: nat)
    requires j < |r.slots| && r.slots[j].needSnapshot && r.slots[j].status == Offline && !Frees(env, here, r, f, j)
    ensures Enqueue(env, here, r, f).0.slots[j] == r.slots[j]
  {
    hide ApplyRecord, DecodePayload, ApplyDone;
    if f.Done? {
      WaitingThroughDone(r.slots, f.positions, j);
    }
  }

  /**
   * Once a slot waits it is not readable, and stays so through any frames, in any order and number, until one of them
   * installs an image in it or starts the session over.
   */
  lemma {:induction false} WaitsUntilFreed(env: Env, heres: Locals, r: Replica, frames: seq<Frame>, j: nat)
    requires j < |r.slots| && r.slots[j].needSnapshot && r.slots[j].status == Offline
    requires forall k {:trigger frames[k]} :: 0 <= k < |frames| ==>
               !Frees(env, heres(k), Delivered(env, heres, r, frames[..k]), frames[k], j)
    ensures Delivered(env, heres, r, frames).slots[j] == r.slots[j]
    decreases |frames|
  {
    hide Enqueue;
    if frames == [] {
    } else {
      var last := |frames| - 1;
      forall k {:trigger frames[..last][k]} | 0 <= k < last
        ensures !Frees(env, heres(k), Delivered(env, heres, r, frames[..last][..k]), frames[..last][k], j)
      {
        assert frames[..last][..k] == frames[..k] && frames[..last][k] == frames[k];
      }
      WaitsUntilFreed(env, heres, r, frames[..last], j);
      assert frames[last] == frames[last];
      WaitingSlotStays(env, heres(last), Delivered(env, heres, r, frames[..last]), frames[last], j);
    }
  }

  /** A waiting slot is never Online: whatever frames arrive, from the start on. */
  ghost predicate WaitersAreOffline(r: Replica) {
    forall j :: 0 <= j < |r.slots| && r.slots[j].needSnapshot ==> r.slots[j].status == Offline
  }

  lemma {:induction false} WaitersStayOffline(env: Env, heres: Locals, r: Replica, frames: seq<Frame>)
    requires WaitersAreOffline(r)
    ensures WaitersAreOffline(Delivered(env, heres, r, frames))
    decreases |frames|
  {
    hide ApplyRecord, DecodePayload, ApplyDone;
    if frames == [] {
    } else {
      var last := |frames| - 1;
      WaitersStayOffline(env, heres, r, frames[..last]);
      var before := Delivered(env, heres, r, frames[..last]);
      if frames[last].Done? {
        forall j | 0 <= j < |before.slots| && before.slots[j].needSnapshot
          ensures ApplyDone(before.slots, frames[last].positions).0[j] == before.slots[j]
        {
          WaitingThroughDone(before.slots, frames[last].positions, j);
        }
        DoneLeavesSlots(before.slots, frames[last].positions);
      }
    }
  }
}
