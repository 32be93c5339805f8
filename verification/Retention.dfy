/**
 * Log retention: in every run, the records that a session relies on are kept, or the session is flagged for a snapshot.
 */
module Retention {
  import opened Core
  import opened Binlog
  import opened HashSlot
  import opened Order
  import opened SnapshotCodec
  import opened Master
  import opened Slave
  import opened History
  import opened Primary
  import opened Budget
  import opened Delivery
  import opened Visits
  import opened Convergence

  predicate Ordered(size: nat, q: Progress) {
    q.acked <= q.sent <= size
  }

  /** A slot that is not flagged for a snapshot still has every record after `sent`, and acked <= sent <= published. */
  ghost predicate Kept(size: nat, dropped: int, q: Progress) {
    Ordered(size, q) && (!q.needSnapshot ==> dropped <= q.sent)
  }

  /**
   * HELLO leaves a slot kept exactly when no writer slipped in between the two looks at an emptied log that the
   * replica has not read to its end.
   */
  lemma HelloKeepsUnlessRaced(env: Env, slot: nat, c: seq<Commit>, t: nat, v: View, reset: bool, position: nat)
    requires Valid(env) && Sound(env, slot, c) && SeenInOrder(c, t, v)
    ensures Kept(|c|, t, GreetSlot(reset, position, v)) <==>
            !((reset || position <= v.first.published) && MissedGap(v, if reset then 0 else position))
  {
    hide Sound, IsVisitOrder, UnpacksWire;
    SeenLog(env, slot, c, t, v.min);
    SeenLog(env, slot, c, t, v.max);
    var acked := if reset then 0 else position;
    if acked <= v.first.published {
      HasBacklogIsExactUnlessRaced(env, slot, c, t, v, acked + 1);
    }
  }

  lemma {:induction false} OffersStayKept(b: Build, session: string, id: nat, logs: seq<Record>, target: nat, size: nat,
                                          t: nat)
    requires id < |b.slots| && Kept(size, t, b.slots[id]) && !b.slots[id].needSnapshot && target <= size
    ensures var b' := OfferLogs(b, session, id, logs, target);
            && Kept(size, t, b'.slots[id]) && b'.slots[id].acked == b.slots[id].acked
            && forall j :: 0 <= j < |b.slots| && j != id ==> b'.slots[j] == b.slots[j]
    decreases logs
  {
    hide RecordBytes;
    if logs != [] && logs[0].seqNo <= target && logs[0].seqNo == b.slots[id].sent + 1 && Fits(b, RecordBytes(logs[0])) {
      OffersStayKept(SendLog(b, session, id, logs[0]), session, id, logs[1..], target, size, t);
    }
  }

  /** The visit leaves an unkept slot alone: what was copied lies above the number that the poll announces. */
  lemma UnkeptSlotGetsNothing(env: Env, c: seq<Commit>, t: nat, b: Build, session: string, id: nat, v: View,
                              maxFrames: nat)
    requires Valid(env) && id < |b.slots| && Sound(env, id, c) && SeenInOrder(c, t, v) && WithinLimits(b, maxFrames)
    requires HasRoom(b, maxFrames) && !WantsSnapshot(b, id, v) && b.slots[id].sent < t
    ensures OfferLogs(b, session, id, CopiedLogs(b, id, v, maxFrames), v.first.published) == b
  {
    hide Sound, Seen, RecordBytes, TotalBytes, BatchBytes, LogAfter, HasBacklog, IsVisitOrder, UnpacksWire, OfferLogs;
    var q := b.slots[id];
    if q.sent < v.first.published {
      DueSlotIsRetainedUnlessRaced(env, id, c, t, q, v);
    }
    CopiedLogsAreRecords(env, id, c, t, v.last, q.sent, Min(MAX_LOGS_PER_SLOT, maxFrames - |b.frames|),
                         MAX_BATCH_BYTES - b.bytes);
    NothingBelowTarget(b, session, id, CopiedLogs(b, id, v, maxFrames), v.first.published);
  }

  /** A visit keeps what was kept, and makes up for a record that is gone exactly by sending the slot's image. */
  lemma VisitKeeps(env: Env, c: seq<Commit>, t: nat, b: Build, session: string, id: nat, v: View, maxFrames: nat)
    requires Valid(env) && id < |b.slots| && Sound(env, id, c) && SeenInOrder(c, t, v) && WithinLimits(b, maxFrames)
    requires Ordered(|c|, b.slots[id]) && b.slots[id].acked <= v.last.published
    ensures var q, q' := b.slots[id], Visit(b, session, env.lay, id, v, maxFrames).slots[id];
            && Ordered(|c|, q') && q'.acked == q.acked
            && (Kept(|c|, t, q') <==> Kept(|c|, t, q) || SendsImage(env.lay, b, id, v, maxFrames))
  {
    hide Sound, RecordBytes, TotalBytes, BatchBytes, LogAfter, HasBacklog, Wire, SnapshotCodec.Encode, IsVisitOrder,
         UnpacksWire, OfferLogs;
    SeenLog(env, id, c, t, v.last);
    if HasRoom(b, maxFrames) && !WantsSnapshot(b, id, v) {
      if t <= b.slots[id].sent {
        OffersStayKept(b, session, id, CopiedLogs(b, id, v, maxFrames), v.first.published, |c|, t);
      } else {
        UnkeptSlotGetsNothing(env, c, t, b, session, id, v, maxFrames);
      }
    }
  }

  // ---- every step of a primary keeps the records its sessions rely on

  ghost predicate SessionKept(cs: seq<seq<Commit>>, states: seq<SlotState>, replica: Session) {
    |cs| == |states| == |replica.slots| &&
    forall j :: 0 <= j < |cs| ==> Kept(|cs[j]|, Dropped(cs[j], states[j]), replica.slots[j])
  }

  /** Whatever sessions go by the replica's name are kept. */
  ghost predicate KeptFor(p: Primary, replicaId: string) {
    forall m :: 0 <= m < |p.replicas| && p.replicas[m].replicaId == replicaId ==>
      SessionKept(p.commits, p.states, p.replicas[m])
  }

  lemma WriteKeepsRetention(env: Env, n: nat, p: Primary, w: Write, replicaId: string)
    requires Valid(env) && PrimaryOk(env, n, p) && KeptFor(p, replicaId)
    ensures KeptFor(ApplyWrite(env, p, w), replicaId)
  {
    hide ApplyWrite, SlotOk;
    WriteKeepsPrimary(env, n, p, w);
  }

  lemma WritesKeepSession(env: Env, n: nat, p: Primary, ws: seq<Write>, replica: Session)
    requires Valid(env) && PrimaryOk(env, n, p) && SessionKept(p.commits, p.states, replica)
    ensures var p' := ApplyWrites(env, p, ws); SessionKept(p'.commits, p'.states, replica)
  {
    hide ApplyWrites, SlotOk;
    WritesKeepPrimary(env, n, p, ws);
  }

  lemma CollectsOnlyAcked(replicas: seq<Session>, id: nat, count: nat, m: nat)
    requires SlotsTracked(replicas, count) && id < count && m < |replicas|
    ensures CollectThrough(replicas, id, count) <= replicas[m].slots[id].acked
  {
  }

  /** Collection takes only what was acknowledged, and eviction flags whoever still needed what it took. */
  lemma MaintainedSlotIsKept(size: nat, size': nat, dropped: int, dropped': int, through: nat, look: Upkeep,
                             evicted: bool, q: Progress)
    requires Kept(size, dropped, q) && size <= size' && through <= q.acked
    requires dropped' == Max(dropped, Min(GoneThrough(through, look, evicted), size'))
    ensures Kept(size', dropped',
                 if evicted && q.acked < DropThrough(look) then Progress(q.acked, q.acked, true) else q)
  {
    hide DropThrough;
  }

  /** Whatever writers do meanwhile, maintenance keeps the records that unflagged sessions rely on. */
  lemma MaintenanceKeepsRetention(env: Env, n: nat, p: Primary, call: MaintainCall, replicaId: string)
    requires Valid(env) && PrimaryOk(env, n, p) && KeptFor(p, replicaId)
    ensures KeptFor(MaintainPrimary(env, p, call), replicaId)
  {
    hide SlotOk, EvictFrom, Kept, ApplyWrites, UpkeepSeen, CountedBytes, Trim, GoneThrough, CollectThrough, DropThrough;
    if MaintainRuns(env, p, call) {
      var w, p' := ApplyWrites(env, p, call.during), MaintainPrimary(env, p, call);
      var k := EnforceBudget(p.replicas, call.looks, p.budget).evicted;
      WritesKeepPrimary(env, n, p, call.during);
      EvictionFlagsWhoeverNeedsIt(env, n, p, call);
      MaintenanceKeepsPrimary(env, n, p, call);
      forall m, j | 0 <= m < |p'.replicas| && p'.replicas[m].replicaId == replicaId && 0 <= j < n
        ensures Kept(|p'.commits[j]|, Dropped(p'.commits[j], p'.states[j]), p'.replicas[m].slots[j])
      {
        var through, look, q := CollectThrough(p.replicas, j, n), call.looks[j], p.replicas[m].slots[j];
        assert SameSession(p.replicas[m], p'.replicas[m]) && SessionKept(p.commits, p.states, p.replicas[m]);
        CollectsOnlyAcked(p.replicas, j, n, m);
        TrimKeepsSlot(env, j, w.commits[j], w.states[j], GoneThrough(through, look, j < k));
        MaintainedSlotIsKept(|p.commits[j]|, |p'.commits[j]|, Dropped(p.commits[j], p.states[j]),
                             Dropped(p'.commits[j], p'.states[j]), through, look, j < k, q);
      }
    }
  }

  /**
   * The HELLO leaves the slot without a record that it relies on: it names the slot and a writer hides the gap, or it
   * does not name the slot and the slot lacked the record before.
   */
  ghost predicate Hurts(p: Primary, call: PollCall, j: nat)
    requires call.hello.Hello? && |call.greetViews| == |call.hello.positions|
    requires j < |p.commits| == |p.states| == |SessionOf(p, call.hello.replicaId).slots|
  {
    var i, replica := LastNamed(call.hello.positions, j), SessionOf(p, call.hello.replicaId);
    if i < |call.hello.positions| then
      var reset, position, v := NeedsReset(replica, call.hello.session), call.hello.positions[i].1, call.greetViews[i];
      (reset || position <= v.first.published) && MissedGap(v, if reset then 0 else position)
    else !Kept(|p.commits[j]|, Dropped(p.commits[j], p.states[j]), replica.slots[j])
  }

  /** What the HELLO does not name is in order in the session. */
  ghost predicate UnnamedOrdered(n: nat, p: Primary, call: PollCall)
    requires call.hello.Hello? && |p.commits| == |SessionOf(p, call.hello.replicaId).slots| == n
  {
    forall j :: 0 <= j < n && !Names(call.hello, j) ==>
      Ordered(|p.commits[j]|, SessionOf(p, call.hello.replicaId).slots[j])
  }

  lemma GreetedSlotIsOrdered(size: nat, reset: bool, position: nat, v: View)
    requires v.first.published <= size
    ensures Ordered(size, GreetSlot(reset, position, v)) && GreetSlot(reset, position, v).acked <= v.first.published
  {
  }

  /** The HELLO leaves a slot kept exactly unless it hurts the slot. */
  lemma GreetedSlotIsKept(env: Env, n: nat, p: Primary, call: PollCall, j: nat)
    requires Valid(env) && PrimaryOk(env, n, p) && PollRuns(env, p, call) && UnnamedOrdered(n, p, call) && j < n
    ensures var w, q := ApplyWrites(env, p, call.during), Greeted(p, call).slots[j];
            && |w.commits| == |w.states| == n && Ordered(|w.commits[j]|, q)
            && (Kept(|w.commits[j]|, Dropped(w.commits[j], w.states[j]), q) <==> !Hurts(p, call, j))
            && forall k :: 0 <= k < n && VisitedSlot(Greeted(p, call).nextSlot, k, n) == j ==>
                 q.acked <= call.buildViews[k].last.published
  {
    hide ApplyWrites, SlotOk, Sound, Backs, SessionName, IsVisitOrder, UnpacksWire, GreetSlots, GreetSlot, VisitedSlot,
         FindReplica, MissedGap;
    var w, g, replica := ApplyWrites(env, p, call.during), Greeted(p, call), SessionOf(p, call.hello.replicaId);
    WritesKeepPrimary(env, n, p, call.during);
    var ts := PrimaryIsSound(env, n, w);
    var i := LastNamed(call.hello.positions, j);
    LastNamingGreets(replica.slots, g.reset, call.hello.positions, call.greetViews, j);
    if i < |call.hello.positions| {
      var position, v := call.hello.positions[i].1, call.greetViews[i];
      assert PollView(p, w, j, v);
      HelloKeepsUnlessRaced(env, j, w.commits[j], ts[j], v, g.reset, position);
      GreetedSlotIsOrdered(|w.commits[j]|, g.reset, position, v);
    }
    forall k | 0 <= k < n && VisitedSlot(g.nextSlot, k, n) == j
      ensures g.slots[j].acked <= call.buildViews[k].last.published
    {
      assert PollView(p, w, j, call.buildViews[k]);
    }
  }

  lemma BatchHoldsImage(session: string, reset: bool, b: Build, j: nat)
    ensures HasImage(Batch(session, reset, b), j) <==> HasImage(b.frames, j)
  {
    forall f | f in b.frames
      ensures f in Batch(session, reset, b)
    {
    }
  }

  /** A poll leaves a slot kept exactly if its answer holds the slot's image or its HELLO does not hurt the slot. */
  lemma PolledSlotIsKept(env: Env, n: nat, p: Primary, call: PollCall, j: nat)
    requires Valid(env) && PrimaryOk(env, n, p) && PollRuns(env, p, call) && UnnamedOrdered(n, p, call) && j < n
    ensures var (session, frames) := PollAnswer(env, p, call); var p' := PollPrimary(env, p, call).0;
            && |session.slots| == |p'.commits| == |p'.states| == n
            && (Kept(|p'.commits[j]|, Dropped(p'.commits[j], p'.states[j]), session.slots[j]) <==>
                HasImage(frames, j) || !Hurts(p, call, j))
  {
    hide ApplyWrites, SlotOk, Sound, SeenInOrder, SessionName, IsVisitOrder, UnpacksWire, Kept, FindReplica, GreetSlots,
         VisitedSlot, Hurts, HasImage, SendsImage, Visit, WithinLimits;
    var w, g := ApplyWrites(env, p, call.during), Greeted(p, call);
    WritesKeepPrimary(env, n, p, call.during);
    var ts := PrimaryIsSound(env, n, w);
    GreetedSlotIsKept(env, n, p, call, j);
    var k := VisitedAtLast(g.nextSlot, j, n);
    assert PollView(p, w, j, call.buildViews[k]);
    var b := BuildUpTo(g, env.lay, call.buildViews, call.maxFrames, k);
    SlotMovesOnce(env.lay, g, call.buildViews, call.maxFrames, k, k);
    SlotMovesOnce(env.lay, g, call.buildViews, call.maxFrames, n, k);
    VisitKeeps(env, w.commits[j], ts[j], b, g.sessionId, j, call.buildViews[k], call.maxFrames);
    BatchHoldsImage(g.sessionId, g.reset, BuildUpTo(g, env.lay, call.buildViews, call.maxFrames, n), j);
  }

  lemma PolledIsNamed(env: Env, p: Primary, call: PollCall)
    requires Valid(env) && PollRuns(env, p, call)
    ensures PollAnswer(env, p, call).0.replicaId == call.hello.replicaId
  {
    hide ApplyWrites, BuildUpTo, SessionName, GreetSlots, PollSees;
  }

  /** Each slot that the HELLO hurts gets its image in the same answer. */
  ghost predicate CleanPoll(env: Env, n: nat, p: Primary, call: PollCall)
    requires Valid(env) && PollRuns(env, p, call)
  {
    |p.commits| == |p.states| == |SessionOf(p, call.hello.replicaId).slots| == n
    && forall j :: 0 <= j < n ==> HasImage(PollAnswer(env, p, call).1, j) || !Hurts(p, call, j)
  }

  lemma PolledSessionIsKept(env: Env, n: nat, p: Primary, call: PollCall)
    requires Valid(env) && PrimaryOk(env, n, p) && PollRuns(env, p, call) && UnnamedOrdered(n, p, call)
    ensures var p' := PollPrimary(env, p, call).0;
            SessionKept(p'.commits, p'.states, PollAnswer(env, p, call).0) <==> CleanPoll(env, n, p, call)
  {
    hide ApplyWrites, PollView, PollAnswer, PollPrimary, Kept, UnnamedOrdered, Hurts, HasImage, SlotOk;
    forall j | 0 <= j < n
      ensures var (session, frames) := PollAnswer(env, p, call); var p' := PollPrimary(env, p, call).0;
              && |session.slots| == |p'.commits| == |p'.states| == n
              && (Kept(|p'.commits[j]|, Dropped(p'.commits[j], p'.states[j]), session.slots[j]) <==>
                  HasImage(frames, j) || !Hurts(p, call, j))
    {
      PolledSlotIsKept(env, n, p, call, j);
    }
    PolledSlotIsKept(env, n, p, call, 0);
  }

  lemma KeptSessionIsOrdered(env: Env, n: nat, p: Primary, call: PollCall)
    requires Valid(env) && PrimaryOk(env, n, p) && PollRuns(env, p, call) && KeptFor(p, call.hello.replicaId)
    ensures UnnamedOrdered(n, p, call)
  {
    hide ApplyWrites, PollSees, SlotOk, Names;
    var r := FindReplica(p.replicas, call.hello.replicaId);
    if r < |p.replicas| {
      assert SessionKept(p.commits, p.states, p.replicas[r]);
    }
  }

  /** A poll of one replica keeps what the others rely on; its own session stays kept exactly if the poll is clean. */
  lemma PollKeepsRetention(env: Env, n: nat, p: Primary, call: PollCall, replicaId: string)
    requires Valid(env) && PrimaryOk(env, n, p) && KeptFor(p, replicaId) && PollRuns(env, p, call)
    ensures KeptFor(PollPrimary(env, p, call).0, replicaId) <==>
            (call.hello.replicaId == replicaId ==> CleanPoll(env, n, p, call))
  {
    hide ApplyWrites, PollAnswer, PollSees, SlotOk, CleanPoll, SessionKept;
    if call.hello.replicaId == replicaId {
      KeptSessionIsOrdered(env, n, p, call);
      PolledSessionIsKept(env, n, p, call);
    }
    PolledIsNamed(env, p, call);
    var p', session := PollPrimary(env, p, call).0, PollAnswer(env, p, call).0;
    var r := FindReplica(p.replicas, call.hello.replicaId);
    assert p'.replicas[r] == session;
    forall m | 0 <= m < |p'.replicas| && p'.replicas[m].replicaId == replicaId && m != r
      ensures SessionKept(p'.commits, p'.states, p'.replicas[m])
    {
      WritesKeepSession(env, n, p, call.during, p.replicas[m]);
    }
  }

  // ---- whole runs of a primary

  /** Every poll of this replica is clean. */
  ghost predicate CleanRun(env: Env, n: nat, p: Primary, events: seq<PrimaryEvent>, replicaId: string)
    requires Valid(env)
    decreases |events|
  {
    events != [] ==>
      && (events[0].Polled? && PollRuns(env, p, events[0].call) && events[0].call.hello.replicaId == replicaId ==>
            CleanPoll(env, n, p, events[0].call))
      && CleanRun(env, n, PrimaryNext(env, p, events[0]).0, events[1..], replicaId)
  }

  /** What the replica's session relies on is kept at every point of the run. */
  ghost predicate AlwaysKept(env: Env, p: Primary, events: seq<PrimaryEvent>, replicaId: string)
    requires Valid(env)
    decreases |events|
  {
    KeptFor(p, replicaId) && (events != [] ==> AlwaysKept(env, PrimaryNext(env, p, events[0]).0, events[1..],
                                                          replicaId))
  }

  lemma RefusedPoll(env: Env, p: Primary, call: PollCall)
    requires Valid(env) && !PollRuns(env, p, call)
    ensures PollPrimary(env, p, call) == (p, [])
  {
    hide PollRuns;
  }

  lemma EventKeepsRetention(env: Env, n: nat, p: Primary, e: PrimaryEvent, replicaId: string)
    requires Valid(env) && PrimaryOk(env, n, p) && KeptFor(p, replicaId)
    ensures KeptFor(PrimaryNext(env, p, e).0, replicaId) <==>
            (e.Polled? && PollRuns(env, p, e.call) && e.call.hello.replicaId == replicaId ==>
               CleanPoll(env, n, p, e.call))
  {
    hide PrimaryOk, SessionKept, ApplyWrite, MaintainPrimary, PollPrimary, CleanPoll, PollRuns;
    match e
    case Wrote(write) => WriteKeepsRetention(env, n, p, write, replicaId);
    case Maintained(upkeep) => MaintenanceKeepsRetention(env, n, p, upkeep, replicaId);
    case Polled(call) =>
      if PollRuns(env, p, call) {
        PollKeepsRetention(env, n, p, call, replicaId);
      } else {
        RefusedPoll(env, p, call);
      }
    case Budgeted(_) =>
  }

  /**
   * In every run of a primary, with writers inside polls and maintenance, and whatever happens to other replicas: a
   * replica finds, at every point and in every slot that does not wait for a snapshot, all the records after its `sent`
   * number retained, and acked <= sent <= published, exactly if its own polls are clean.
   */
  lemma {:induction false} RunKeepsRetention(env: Env, n: nat, p: Primary, events: seq<PrimaryEvent>, replicaId: string)
    requires Valid(env) && PrimaryOk(env, n, p) && SessionsOwned(p) && KeptFor(p, replicaId)
    ensures AlwaysKept(env, p, events, replicaId) <==> CleanRun(env, n, p, events, replicaId)
    decreases |events|
  {
    hide PrimaryOk, SessionsOwned, KeptFor, PrimaryNext, CleanPoll, PollRuns;
    if events == [] {
    } else {
      EventKeepsPrimary(env, n, p, events[0]);
      EventKeepsRetention(env, n, p, events[0], replicaId);
      if KeptFor(PrimaryNext(env, p, events[0]).0, replicaId) {
        RunKeepsRetention(env, n, PrimaryNext(env, p, events[0]).0, events[1..], replicaId);
      }
    }
  }

  /** A primary starts with nothing to keep. */
  lemma FreshPrimaryIsKept(env: Env, n: nat, epoch: string, budget: nat, replicaId: string)
    requires Valid(env) && n > 0
    ensures var p := FreshPrimary(epoch, n, budget);
            PrimaryOk(env, n, p) && SessionsOwned(p) && KeptFor(p, replicaId)
  {
  }

  /**
   * So in every run from a new primary, a replica relies only on records that are there exactly if its polls are clean.
   */
  lemma NewPrimaryKeepsRetention(env: Env, n: nat, epoch: string, budget: nat, events: seq<PrimaryEvent>,
                                 replicaId: string)
    requires Valid(env) && n > 0
    ensures var p := FreshPrimary(epoch, n, budget);
            AlwaysKept(env, p, events, replicaId) <==> CleanRun(env, n, p, events, replicaId)
  {
    hide AlwaysKept, CleanRun, PrimaryOk, SessionsOwned, KeptFor;
    FreshPrimaryIsKept(env, n, epoch, budget, replicaId);
    RunKeepsRetention(env, n, FreshPrimary(epoch, n, budget), events, replicaId);
  }
}
