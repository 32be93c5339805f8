/**
 * What maintenance takes from a log, record by record (src/repl/master_replicator.cpp:182-222): what every session has
 * acknowledged, and what eviction drops.
 */
module Collection {
  import opened Core
  import opened Binlog
  import opened HashSlot
  import Commands
  import opened Order
  import opened SnapshotCodec
  import opened Master
  import opened Slave
  import opened History
  import opened Primary
  import opened SlotWrites
  import opened Moments
  import opened Calls

  /**
   * The record was there when collection took the lock and every session had acknowledged it, or it is no later than
   * the last one that eviction saw.
   */
  predicate Taken(replicas: seq<Session>, id: nat, count: nat, look: Upkeep, evicted: bool, r: Record)
    requires SlotsTracked(replicas, count) && id < count
  {
    || (r.seqNo <= look.collect.published && AllAcked(replicas, id, count, r.seqNo))
    || (evicted && look.max.log != [] && r.seqNo <= look.max.published)
  }

  lemma LastIsPublished(c: seq<Commit>, t: nat, s: SlotState)
    requires Numbered(c) && Seen(c, t, s) && s.log != []
    ensures MaxSeqNo(s.log) == s.published
  {
    var d := c[..s.published];
    assert s.log[|s.log| - 1] == d[t + |s.log| - 1].record;
  }

  lemma GoneIffTaken(env: Env, c: seq<Commit>, t: nat, replicas: seq<Session>, id: nat, count: nat, look: Upkeep,
                     evicted: bool, r: Record)
    requires Numbered(c) && Seen(c, t, look.max)
    requires SlotsTracked(replicas, count) && id < count && r.seqNo > 0
    ensures r.seqNo <= GoneThrough(CollectThrough(replicas, id, count), look, evicted)
            <==> Taken(replicas, id, count, look, evicted, r)
  {
    hide AllAcked, CollectThrough;
    CollectedIffAcked(replicas, id, count, r.seqNo);
    if look.max.log != [] {
      LastIsPublished(c, t, look.max);
    }
  }

  lemma BackedRises(c: seq<Commit>, t: nat, s: SlotState)
    requires Numbered(c) && Backs(c, t, s)
    ensures Increasing(s.log) && forall r :: r in s.log ==> 0 < r.seqNo <= |c|
  {
    assert forall j :: 0 <= j < |s.log| ==> s.log[j] == c[t + j].record && s.log[j].seqNo == t + j + 1;
  }

  /**
   * In the model: of the records that are there at the end, counting those that writers append meanwhile, maintenance
   * has taken exactly those that every session had acknowledged when the slot was collected, and those that eviction
   * saw.
   */
  lemma MaintenanceTakesExactly(env: Env, n: nat, p: Primary, call: MaintainCall, j: nat, r: Record)
    requires History.Valid(env) && PrimaryOk(env, n, p) && MaintainRuns(env, p, call) && j < n
    ensures var w, p' := ApplyWrites(env, p, call.during), MaintainPrimary(env, p, call);
            var evicted := j < EnforceBudget(p.replicas, call.looks, p.budget).evicted;
            && |p'.states| == |w.states| == n
            && (r in p'.states[j].log <==>
                r in w.states[j].log && !Taken(p.replicas, j, n, call.looks[j], evicted, r))
  {
    hide ApplyWrites, SlotOk, Backs, EvictFrom, CountedBytes, CollectThrough, Taken, Increasing, Numbered, IsVisitOrder,
         UnpacksWire, TrimThrough, GoneThrough;
    var w, k := ApplyWrites(env, p, call.during), EnforceBudget(p.replicas, call.looks, p.budget).evicted;
    WritesKeepPrimary(env, n, p, call.during);
    var c, s, look := w.commits[j], w.states[j], call.looks[j];
    SoundIsNumbered(env, j, c, s);
    BackedRises(c, Dropped(c, s), s);
    var gone := GoneThrough(CollectThrough(p.replicas, j, n), look, j < k);
    TrimTakesUpTo(s.log, gone, r);
    if r in s.log {
      var through := CollectThrough(p.replicas, j, n);
      GoneIffTaken(env, c, CollectedTo(Dropped(c, s), through, look), p.replicas, j, n, look, j < k, r);
    }
  }

  lemma ChronicleIsNumbered(sc: Commands.Scoring, c: seq<Commit>, t: nat, m: Moment, m': Moment)
    requires Backs(c, t, m.state) && Numbered(c)
    ensures Numbered(Chronicle(sc, c, m, m'))
  {
    hide Backs, Numbered;
    WorkIsBacked(sc, c, t, m.state, Between(m, m'));
  }

  lemma BackedHolds(c: seq<Commit>, t: nat, s: SlotState, i: nat)
    requires Numbered(c) && Backs(c, t, s) && i < |c|
    ensures c[i].record in s.log <==> i >= t
  {
    if i >= t {
      assert s.log[i - t] == c[i].record;
    }
  }

  lemma CollectHolds(c: seq<Commit>, t: nat, s: SlotState, i: nat)
    requires Seen(c, t, s) && t <= i < |c|
    ensures i < s.published ==> c[i].record in s.log
  {
    if i < s.published {
      assert s.log[i - t] == c[..s.published][i].record;
    }
  }

  /** The same of the object: it keeps exactly the records, of all that its clients wrote, that are not taken. */
  lemma MaintainTakesExactly(crowd: Crowd, env: Env, c: seq<Commit>, t: nat, a: Node, looks: seq<Upkeep>, b: Node,
                             j: nat, i: nat)
    requires SlotsTracked(a.replicas, |a.slots|) && MaintainDoes(crowd, a, looks, b) && j < |a.slots|
    requires Computes(crowd, env.sc) && Backs(c, t, a.slots[j].state) && Numbered(c)
    requires t <= i < |Chronicle(env.sc, c, a.slots[j], b.slots[j])|
    ensures var r := Chronicle(env.sc, c, a.slots[j], b.slots[j])[i].record;
            var evicted := j < EnforceBudget(a.replicas, looks, a.budget).evicted;
            && r.seqNo == i + 1
            && (r in b.slots[j].state.log <==> !Taken(a.replicas, j, |a.slots|, looks[j], evicted, r))
            && (i < looks[j].collect.published ==> r in looks[j].collect.log)
  {
    hide EvictFrom, CountedBytes, CollectThrough, Taken, Chronicle, UpkeepBetween, GoneThrough;
    var evicted := j < EnforceBudget(a.replicas, looks, a.budget).evicted;
    UpkeepIsSeen(crowd, env.sc, c, t, a.slots[j], a.replicas, j, |a.slots|, looks[j], evicted, b.slots[j]);
    var c', s := Chronicle(env.sc, c, a.slots[j], b.slots[j]), b.slots[j].state;
    ChronicleIsNumbered(env.sc, c, t, a.slots[j], b.slots[j]);
    var through := CollectThrough(a.replicas, j, |a.slots|);
    var gone := GoneThrough(through, looks[j], evicted);
    GoneIffTaken(env, c', CollectedTo(t, through, looks[j]), a.replicas, j, |a.slots|, looks[j], evicted, c'[i].record);
    BackedHolds(c', Max(t, Min(gone, |c'|)), s, i);
    CollectHolds(c', t, looks[j].collect, i);
  }

  lemma SlowestSession(replicas: seq<Session>, id: nat, count: nat) returns (k: nat)
    requires SlotsTracked(replicas, count) && id < count
    requires exists m :: 0 <= m < |replicas| && replicas[m].slots[id].acked < U64_MAX
    ensures k < |replicas| && forall seqNo: nat :: !AllAcked(replicas, id, count, seqNo) ==>
              seqNo > replicas[k].slots[id].acked
  {
    var low := MinAck(replicas, id, count);
    k :| 0 <= k < |replicas| && low == replicas[k].slots[id].acked;
  }

  lemma SeenRises(c: seq<Commit>, t: nat, s: SlotState)
    requires Numbered(c) && Seen(c, t, s)
    ensures forall r :: r in s.log ==> 0 < r.seqNo <= s.published
  {
    hide Backs;
    BackedRises(c[..s.published], t, s);
  }

  /**
   * Collection never stands still: of what was in a slot's log when it was collected, only records remain that one and
   * the same session, the slowest, has not acknowledged.
   */
  lemma WhatIsLeftIsNeeded(env: Env, n: nat, p: Primary, call: MaintainCall, j: nat) returns (k: nat)
    requires History.Valid(env) && PrimaryOk(env, n, p) && MaintainRuns(env, p, call) && j < n
    requires exists m :: 0 <= m < |p.replicas| && p.replicas[m].slots[j].acked < U64_MAX
    ensures k < |p.replicas| && |MaintainPrimary(env, p, call).states| == n
    ensures forall r :: r in MaintainPrimary(env, p, call).states[j].log && r in call.looks[j].collect.log ==>
              r.seqNo > p.replicas[k].slots[j].acked
  {
    hide ApplyWrites, SlotOk, Seen, EvictFrom, CountedBytes, CollectThrough, AllAcked, MaintainPrimary, IsVisitOrder,
         UnpacksWire, Numbered;
    k := SlowestSession(p.replicas, j, n);
    var w := ApplyWrites(env, p, call.during);
    WritesKeepPrimary(env, n, p, call.during);
    SoundIsNumbered(env, j, w.commits[j], w.states[j]);
    SeenRises(w.commits[j], Dropped(w.commits[j], w.states[j]), call.looks[j].collect);
    MaintenanceKeepsPrimary(env, n, p, call);
    forall r | r in MaintainPrimary(env, p, call).states[j].log && r in call.looks[j].collect.log
      ensures r.seqNo > p.replicas[k].slots[j].acked
    {
      MaintenanceTakesExactly(env, n, p, call, j, r);
    }
  }
}
