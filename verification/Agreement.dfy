/** One replica slot against the history of its primary's slot: every true frame keeps them in agreement. */
module Agreement {
  import opened Core
  import opened HashSlot
  import opened Replay
  import opened SnapshotCodec
  import opened Order
  import opened FrameCodec
  import opened Slave
  import opened History

  /**
   * The stored map is the primary's map right after write number `applied`, and the engine slot carries that number.
   */
  ghost predicate AgreesSlot(c: seq<Commit>, s: ReplicaSlot) {
    && s.applied <= |c|
    && s.engine == SlotState(MapAt(c, s.applied), [], s.applied, s.applied, false)
  }

  ghost predicate Agrees(cs: seq<seq<Commit>>, r: Replica) {
    |cs| == |r.slots| && forall i :: 0 <= i < |cs| ==> AgreesSlot(cs[i], r.slots[i])
  }

  ghost predicate AllSound(env: Env, cs: seq<seq<Commit>>)
    requires Valid(env)
  {
    forall i :: 0 <= i < |cs| ==> Sound(env, i, cs[i])
  }

  /** What the frame says is true of these histories. */
  ghost predicate FrameTrue(env: Env, cs: seq<seq<Commit>>, f: Frame)
    requires Valid(env)
  {
    match f
    case Log(_, slot, r) => slot < |cs| && 1 <= r.seqNo <= |cs[slot]| && r == cs[slot][r.seqNo - 1].record
    case Snapshot(_, slot, base, payload) =>
      slot < |cs| && base <= |cs[slot]| && payload == Wire(SnapshotCodec.Encode(env.lay, MapAt(cs[slot], base)))
    case Begin(_, _) => true
    case Done(_, positions) => forall p :: p in positions ==> p.0 < |cs| && p.1 <= |cs[p.0]|
    case Hello(_, _, _, _) => false
  }

  /** Histories only grow. */
  ghost predicate Grown(cs: seq<seq<Commit>>, cs': seq<seq<Commit>>) {
    |cs| == |cs'| && forall i :: 0 <= i < |cs| ==> cs[i] <= cs'[i]
  }

  lemma GrownKeepsTruth(env: Env, cs: seq<seq<Commit>>, cs': seq<seq<Commit>>, f: Frame)
    requires Valid(env) && Grown(cs, cs') && FrameTrue(env, cs, f)
    ensures FrameTrue(env, cs', f)
  {
    hide Wire, SnapshotCodec.Encode, IsVisitOrder, UnpacksWire;
  }

  lemma GrownKeepsAgreement(cs: seq<seq<Commit>>, cs': seq<seq<Commit>>, r: Replica)
    requires Grown(cs, cs') && Agrees(cs, r)
    ensures Agrees(cs', r)
  {
  }

  lemma NextRecordReplays(env: Env, here: Local, slot: nat, c: seq<Commit>, s: ReplicaSlot)
    requires Valid(env) && Sound(env, slot, c) && AgreesSlot(c, s) && s.applied < |c|
    ensures ApplyRecord(Context(env.slotOf, env.sc, here.choose, here.clock), slot, s.engine, c[s.applied].record)
            == Some(SlotState(MapAt(c, s.applied + 1), [], s.applied + 1, s.applied + 1, false))
  {
    hide ApplyRecord;
    assert Replays(env.slotOf, env.sc, slot, MapAt(c, s.applied), c[s.applied].record, c[s.applied].after);
  }

  lemma AcceptKeepsAgreement(c: seq<Commit>, s: ReplicaSlot, r: Record, replayed: Option<SlotState>)
    requires AgreesSlot(c, s) && 1 <= r.seqNo <= |c|
    requires r.seqNo == s.applied + 1 ==> replayed == Some(SlotState(MapAt(c, r.seqNo), [], r.seqNo, r.seqNo, false))
    ensures var (s', ok) := AcceptLog(s, r, replayed);
            && AgreesSlot(c, s') && s'.applied >= s.applied
            && (!s.needSnapshot && r.seqNo <= s.applied + 1 ==>
                  ok && !s'.needSnapshot && s'.applied == Max(s.applied, r.seqNo))
            && (s'.status == Online ==> s' == s)
  {
  }

  lemma LogKeepsAgreement(env: Env, here: Local, slot: nat, c: seq<Commit>, s: ReplicaSlot, r: Record)
    requires Valid(env) && Sound(env, slot, c) && AgreesSlot(c, s)
    requires 1 <= r.seqNo <= |c| && r == c[r.seqNo - 1].record
    ensures var (s', ok) := ApplyLog(env, here, slot, s, r);
            && AgreesSlot(c, s') && s'.applied >= s.applied
            && (!s.needSnapshot && r.seqNo <= s.applied + 1 ==>
                  ok && !s'.needSnapshot && s'.applied == Max(s.applied, r.seqNo))
            && (s'.status == Online ==> s' == s)
  {
    hide ApplyRecord, AcceptLog, AgreesSlot, Sound, Valid;
    var replayed := ApplyRecord(Context(env.slotOf, env.sc, here.choose, here.clock), slot, s.engine, r);
    if r.seqNo == s.applied + 1 {
      NextRecordReplays(env, here, slot, c, s);
    }
    AcceptKeepsAgreement(c, s, r, replayed);
  }

  lemma MapAtIsCarried(env: Env, slot: nat, c: seq<Commit>, n: nat)
    requires Valid(env) && Sound(env, slot, c) && n <= |c|
    ensures Carried(env, slot, MapAt(c, n))
  {
    if n == 0 {
      EmptyMapIsCarried(env, slot);
    } else {
      assert Carried(env, slot, c[n - 1].after);
    }
  }

  lemma SnapshotKeepsAgreement(env: Env, slot: nat, c: seq<Commit>, s: ReplicaSlot, base: nat, payload: string)
    requires Valid(env) && Sound(env, slot, c) && AgreesSlot(c, s)
    requires base <= |c| && payload == Wire(SnapshotCodec.Encode(env.lay, MapAt(c, base)))
    ensures ApplySnapshot(env, slot, s, base, payload)
            == (ReplicaSlot(CatchingUp, base, false, SlotState(MapAt(c, base), [], base, base, false)), true)
  {
    MapAtIsCarried(env, slot, c, base);
    SnapshotRoundTrip(env.sc.parse, env.unpack, env.lay, MapAt(c, base));
  }

  lemma DoneKeepsAgreement(cs: seq<seq<Commit>>, slots: seq<ReplicaSlot>, positions: seq<Position>, session: string)
    requires Agrees(cs, Replica(session, slots))
    ensures Agrees(cs, Replica(session, ApplyDone(slots, positions).0))
  {
    DoneLeavesSlots(slots, positions);
  }

  lemma ReplacedSlotAgrees(cs: seq<seq<Commit>>, r: Replica, slot: nat, s: ReplicaSlot)
    requires Agrees(cs, r) && slot < |cs| && AgreesSlot(cs[slot], s)
    ensures Agrees(cs, r.(slots := r.slots[slot := s]))
  {
  }

  /** A true frame of the session's primary, in whatever order it arrives, keeps every slot in agreement. */
  lemma TrueFrameKeepsAgreement(env: Env, here: Local, cs: seq<seq<Commit>>, r: Replica, f: Frame)
    requires Valid(env) && AllSound(env, cs) && Agrees(cs, r) && FrameTrue(env, cs, f)
    ensures Agrees(cs, Enqueue(env, here, r, f).0)
  {
    hide ApplyLog, ApplySnapshot, ApplyDone, Sound, Valid;
    match f
    case Begin(_, _) =>
    case Done(_, positions) => DoneKeepsAgreement(cs, r.slots, positions, r.session);
    case Log(_, slot, record) =>
      LogKeepsAgreement(env, here, slot, cs[slot], r.slots[slot], record);
      ReplacedSlotAgrees(cs, r, slot, ApplyLog(env, here, slot, r.slots[slot], record).0);
    case Snapshot(_, slot, base, payload) =>
      SnapshotKeepsAgreement(env, slot, cs[slot], r.slots[slot], base, payload);
      ReplacedSlotAgrees(cs, r, slot, ApplySnapshot(env, slot, r.slots[slot], base, payload).0);
  }
}
