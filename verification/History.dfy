/** The committed writes of a primary slot, and what a poll can see of them while writers go on. */
module History {
  import opened Core
  import opened Binlog
  import opened HashSlot
  import opened Order
  import Commands
  import opened Replay
  import opened ScoreText
  import opened SnapshotCodec
  import opened Master
  import opened Slave

  /** One committed write: its record and the map right after it. */
  datatype Commit = Commit(record: Record, after: ObjectMap)

  function MapAt(c: seq<Commit>, n: nat): ObjectMap
    requires n <= |c|
  {
    if n == 0 then map[] else c[n - 1].after
  }

  /** The state of a slot whose history is c and whose retained log starts after write t. */
  ghost predicate Backs(c: seq<Commit>, t: nat, s: SlotState) {
    && s.logWrites && s.slotSeq == s.published == |c| && s.objects == MapAt(c, |c|)
    && t <= |c| && |s.log| == |c| - t && forall j :: 0 <= j < |s.log| ==> s.log[j] == c[t + j].record
  }

  /** A map that its slot's snapshot can carry. */
  ghost predicate Carried(env: Env, slot: nat, m: ObjectMap)
    requires IsVisitOrder(env.lay.order)
  {
    && (forall k :: k in m ==> env.slotOf(k) == slot)
    && Printable(env.sc.parse, env.lay.show, m) && SafeScores(env.sc.parse, env.lay.show, m)
    && |SnapshotCodec.Encode(env.lay, m)| <= MAX_SNAPSHOT_ELEMENTS
  }

  /** What every write of the history guarantees: its number, its exact replay, and a map that a snapshot can carry. */
  ghost predicate Sound(env: Env, slot: nat, c: seq<Commit>)
    requires IsVisitOrder(env.lay.order)
  {
    && |c| < U64_MAX
    && forall n {:trigger c[n]} :: 0 <= n < |c| ==>
         && c[n].record.seqNo == n + 1
         && Replays(env.slotOf, env.sc, slot, MapAt(c, n), c[n].record, c[n].after)
         && Carried(env, slot, c[n].after)
  }

  lemma EmptyMapIsCarried(env: Env, slot: nat)
    requires IsVisitOrder(env.lay.order)
    ensures Carried(env, slot, map[])
  {
    var m: ObjectMap := map[];
    assert Lists(env.lay.order(m.Keys), m.Keys);
    ListLength(env.lay.order(m.Keys), m.Keys);
  }

  ghost predicate Valid(env: Env) {
    IsVisitOrder(env.lay.order) && UnpacksWire(env.unpack)
  }

  /**
   * Whatever the hash function, the scores and their printing are, a reader, a visiting order and a
   * choice to go with them exist.
   */
  lemma ValidCanBeMet(slotOf: string -> nat, sc: Commands.Scoring, show: real -> Printed)
    returns (env: Env, choose: Commands.Choice)
    ensures Valid(env) && env.slotOf == slotOf && env.sc == sc && env.lay.show == show && Commands.FairChoice(choose)
  {
    choose := Commands.FairChoiceExists();
    var unpack := UnpackerExists();
    var order := VisitOrderExists();
    env := Env(slotOf, sc, unpack, Layout(order, show));
  }

  /** A state seen during a poll is the slot as some prefix of the history left it; nothing is trimmed meanwhile. */
  ghost predicate Seen(c: seq<Commit>, t: nat, s: SlotState) {
    s.published <= |c| && Backs(c[..s.published], t, s)
  }

  /** Five looks at a slot in time order. */
  ghost predicate SeenInOrder(c: seq<Commit>, t: nat, v: View) {
    && Seen(c, t, v.first) && Seen(c, t, v.min) && Seen(c, t, v.max) && Seen(c, t, v.second) && Seen(c, t, v.last)
    && v.first.published <= v.min.published <= v.max.published <= v.second.published <= v.last.published
  }

  lemma BackedLog(env: Env, slot: nat, c: seq<Commit>, t: nat, s: SlotState)
    requires IsVisitOrder(env.lay.order) && Sound(env, slot, c) && Backs(c, t, s)
    ensures forall j :: 0 <= j < |s.log| ==> s.log[j] == c[t + j].record && s.log[j].seqNo == t + j + 1
  {
    forall j | 0 <= j < |s.log|
      ensures s.log[j].seqNo == t + j + 1
    {
      assert s.log[j] == c[t + j].record;
    }
  }

  lemma SeenLog(env: Env, slot: nat, c: seq<Commit>, t: nat, s: SlotState)
    requires IsVisitOrder(env.lay.order) && Sound(env, slot, c) && Seen(c, t, s)
    ensures t <= s.published <= |c| && Contiguous(s.log) && |s.log| == s.published - t
    ensures s.objects == MapAt(c, s.published)
    ensures forall j :: 0 <= j < |s.log| ==> s.log[j] == c[t + j].record && s.log[j].seqNo == t + j + 1
    ensures MinSeqNo(s.log) == if t == s.published then 0 else t + 1
    ensures MaxSeqNo(s.log) == if t == s.published then 0 else s.published
    ensures forall q :: t <= q <= s.published ==> Skipped(s.log, q) == q - t
  {
    var d := c[..s.published];
    forall k | 0 <= k < |d|
      ensures MapAt(d, k) == MapAt(c, k)
    {
    }
    assert Sound(env, slot, d);
    BackedLog(env, slot, d, t, s);
    hide Sound;
  }

  /** Every published record from number seqNo on is retained. */
  predicate Retained(t: nat, seqNo: nat) {
    t < seqNo
  }

  /**
   * HasBacklog answers whether every published record from seqNo on is retained, unless the log was empty at the first
   * look and a writer got in before the last: then it may miss a gap (an empty log turning non-empty between the two
   * log looks) or take a caught-up replica for one that is behind (a write between the log looks and the last).
   */
  lemma HasBacklogIsExactUnlessRaced(env: Env, slot: nat, c: seq<Commit>, t: nat, v: View, seqNo: nat)
    requires IsVisitOrder(env.lay.order) && Sound(env, slot, c) && SeenInOrder(c, t, v)
    requires 1 <= seqNo <= v.min.published + 1
    ensures (HasBacklog(v, seqNo) <==> Retained(t, seqNo)) <==>
            !(v.min.log == [] && ((v.max.log != [] && seqNo <= v.min.published)
                                  || (v.max.log == [] && v.second.published > v.min.published
                                      && seqNo == v.min.published + 1)))
  {
    SeenLog(env, slot, c, t, v.min);
    SeenLog(env, slot, c, t, v.max);
  }

  /** On a slot at rest the answer is always right. */
  lemma HasBacklogIsExactAtRest(env: Env, slot: nat, c: seq<Commit>, t: nat, s: SlotState, seqNo: nat)
    requires IsVisitOrder(env.lay.order) && Sound(env, slot, c) && Backs(c, t, s)
    requires 1 <= seqNo <= |c| + 1
    ensures HasBacklog(AtRest(s), seqNo) <==> Retained(t, seqNo)
  {
    assert c[..|c|] == c;
    HasBacklogIsExactUnlessRaced(env, slot, c, t, AtRest(s), seqNo);
  }

  /** The race: with an emptied log and a write between the two log looks, a lost record counts as retained. */
  lemma RacedBacklogMissesAGap(c: seq<Commit>, s: SlotState, s': SlotState)
    requires |c| == 2 && c[0].record.seqNo == 1 && c[1].record.seqNo == 2
    requires Backs(c[..1], 1, s) && Backs(c, 1, s')
    ensures SeenInOrder(c, 1, View(s, s, s', s', s'))
    ensures HasBacklog(View(s, s, s', s', s'), 1) && !Retained(1, 1)
  {
    assert c[..2] == c;
    assert s'.log == [c[1].record];
  }
}
