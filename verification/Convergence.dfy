/** Convergence: once writes stop, every fully delivered poll brings the replica closer, until every slot is Online. */
module Convergence {
  import opened Core
  import opened Binlog
  import opened HashSlot
  import opened Order
  import opened SnapshotCodec
  import opened FrameCodec
  import opened Master
  import opened Slave
  import opened History
  import opened Agreement
  import opened Primary
  import opened Delivery

  /** What a slot still has to receive: the writes it misses, and one more if it waits for a snapshot. */
  function Pending(c: seq<Commit>, s: ReplicaSlot): nat {
    Max(0, |c| - s.applied) + (if s.needSnapshot then 1 else 0)
  }

  function Lag(cs: seq<seq<Commit>>, slots: seq<ReplicaSlot>): nat
    requires |cs| == |slots|
  {
    if cs == [] then 0
    else
      var last := |cs| - 1;
      Lag(cs[..last], slots[..last]) + Pending(cs[last], slots[last])
  }

  lemma {:induction false} LagOfUpdate(cs: seq<seq<Commit>>, slots: seq<ReplicaSlot>, id: nat, s: ReplicaSlot)
    requires |cs| == |slots| && id < |cs|
    ensures Lag(cs, slots[id := s]) == Lag(cs, slots) - Pending(cs[id], slots[id]) + Pending(cs[id], s)
  {
    var last := |cs| - 1;
    if id == last {
      assert slots[id := s][..last] == slots[..last];
    } else {
      assert slots[id := s][..last] == slots[..last][id := s];
      LagOfUpdate(cs[..last], slots[..last], id, s);
    }
  }

  lemma {:induction false} NoLagNoPending(cs: seq<seq<Commit>>, slots: seq<ReplicaSlot>)
    requires |cs| == |slots|
    ensures Lag(cs, slots) == 0 <==> forall j :: 0 <= j < |cs| ==> Pending(cs[j], slots[j]) == 0
  {
    if cs == [] {
    } else {
      NoLagNoPending(cs[..|cs| - 1], slots[..|cs| - 1]);
    }
  }

  // ---- quiet polls

  /** No writer is at work: every look finds the slot as it is. */
  ghost predicate Quiet(p: Primary, call: PollCall)
    requires call.hello.Hello?
  {
    && call.during == []
    && |call.greetViews| == |call.hello.positions| && |call.buildViews| == |p.states|
    && (forall k :: 0 <= k < |call.greetViews| && call.hello.positions[k].0 < |p.states| ==>
          call.greetViews[k] == AtRest(p.states[call.hello.positions[k].0]))
    && (forall i :: 0 <= i < |call.buildViews| ==>
          call.buildViews[i] ==
            AtRest(p.states[VisitedSlot(SessionOf(p, call.hello.replicaId).nextSlot, i, |p.states|)]))
  }

  lemma RestIsSeenInOrder(env: Env, slot: nat, c: seq<Commit>, s: SlotState)
    requires Valid(env) && SlotOk(env, slot, c, s)
    ensures SeenInOrder(c, Dropped(c, s), AtRest(s)) && s.published == |c|
  {
    hide SlotOk, Seen;
    BackedIsSeen(env, slot, c, s);
  }

  lemma DroppedIsNat(env: Env, slot: nat, c: seq<Commit>, s: SlotState)
    requires Valid(env) && SlotOk(env, slot, c, s)
    ensures 0 <= Dropped(c, s)
  {
    hide Sound;
  }

  /** A quiet poll is one of the polls that can happen. */
  lemma QuietPollRuns(env: Env, n: nat, p: Primary, call: PollCall)
    requires Valid(env) && PrimaryOk(env, n, p) && call.hello.Hello? && Quiet(p, call) && SessionsOwned(p)
    requires call.hello.version == PROTOCOL_VERSION && call.hello.replicaId != ""
    ensures PollRuns(env, p, call) && ApplyWrites(env, p, call.during) == p
  {
    hide SlotOk, Backs, Sound, SeenInOrder, FindReplica, IsVisitOrder, UnpacksWire, SessionsOwned, VisitedSlot;
    SessionOfIsTracked(env, n, p, call.hello.replicaId);
    forall j | 0 <= j < n
      ensures PollView(p, p, j, AtRest(p.states[j]))
    {
      RestIsSeenInOrder(env, j, p.commits[j], p.states[j]);
      DroppedIsNat(env, j, p.commits[j], p.states[j]);
    }
  }

  // ---- one visit

  /** How a quiet HELLO leaves a slot: mirrored, and due an image exactly when its next record is gone. */
  ghost predicate Offered(c: seq<Commit>, st: SlotState, q: Progress, s: ReplicaSlot) {
    Mirrors(q, s) && s.applied <= |c| && (q.needSnapshot <==> s.needSnapshot || Dropped(c, st) > s.applied)
  }

  lemma QuietGreeting(env: Env, slot: nat, c: seq<Commit>, st: SlotState, reset: bool, s: ReplicaSlot)
    requires Valid(env) && SlotOk(env, slot, c, st) && |c| < U64_MAX && Begun(reset, s).applied <= |c|
    ensures Offered(c, st, GreetSlot(reset, if s.needSnapshot then U64_MAX else s.applied, AtRest(st)), Begun(reset, s))
  {
    hide Sound, HasBacklog, IsVisitOrder, UnpacksWire;
    HasBacklogIsExactAtRest(env, slot, c, Dropped(c, st), st, Begun(reset, s).applied + 1);
  }

  lemma {:induction false} OffersAdvance(b: Build, session: string, id: nat, logs: seq<Record>, target: nat)
    requires id < |b.slots|
    ensures var b' := OfferLogs(b, session, id, logs, target);
            && |b'.frames| - |b.frames| == b'.slots[id].sent - b.slots[id].sent >= 0
            && (b'.full ==> b.full || b.frames != [] || b'.frames != [])
            && (logs != [] && logs[0].seqNo == b.slots[id].sent + 1 <= target && Fits(b, RecordBytes(logs[0])) ==>
                  |b'.frames| > |b.frames|)
            && (logs == [] ==> b' == b)
    decreases logs
  {
    hide RecordBytes;
    if logs != [] && logs[0].seqNo <= target && logs[0].seqNo == b.slots[id].sent + 1 && Fits(b, RecordBytes(logs[0])) {
      OffersAdvance(SendLog(b, session, id, logs[0]), session, id, logs[1..], target);
    }
  }

  /** The batch only ends early when it carries something. */
  predicate FullWithFrames(b: Build) {
    b.full ==> b.frames != []
  }

  /** What a quiet visit that offers logs does. */
  lemma QuietLogs(env: Env, c: seq<Commit>, st: SlotState, b: Build, session: string, id: nat, maxFrames: nat,
                  s: ReplicaSlot)
    requires Valid(env) && id < |b.slots| && SlotOk(env, id, c, st) && WithinLimits(b, maxFrames)
             && HasRoom(b, maxFrames)
    requires Offered(c, st, b.slots[id], s) && !WantsSnapshot(b, id, AtRest(st))
    ensures var b' := Serve(b, session, env.lay, id, AtRest(st), maxFrames);
            && |b'.frames| - |b.frames| == b'.slots[id].sent - b.slots[id].sent >= 0
            && (b.frames == [] && s.applied < |c| ==> b'.frames != [])
            && (s.applied == |c| ==> b' == b)
            && (FullWithFrames(b) ==> FullWithFrames(b'))
            && !s.needSnapshot
  {
    hide Sound, HasBacklog, IsVisitOrder, UnpacksWire, LogAfter, RecordBytes, TotalBytes, BatchBytes, OfferLogs, Backs,
         Seen;
    RestIsSeenInOrder(env, id, c, st);
    var limit, room := Min(MAX_LOGS_PER_SLOT, maxFrames - |b.frames|), MAX_BATCH_BYTES - b.bytes;
    CopiedLogsAreRecords(env, id, c, Dropped(c, st), st, b.slots[id].sent, limit, room);
    OffersAdvance(b, session, id, CopiedLogs(b, id, AtRest(st), maxFrames), st.published);
  }

  lemma WantsImage(env: Env, id: nat, c: seq<Commit>, st: SlotState, b: Build, s: ReplicaSlot)
    requires Valid(env) && id < |b.slots| && SlotOk(env, id, c, st) && Offered(c, st, b.slots[id], s)
    ensures WantsSnapshot(b, id, AtRest(st)) <==> s.needSnapshot || Dropped(c, st) > s.applied
    ensures Dropped(c, st) <= |c|
  {
    hide Sound, HasBacklog, IsVisitOrder, UnpacksWire;
    if !b.slots[id].needSnapshot {
      HasBacklogIsExactAtRest(env, id, c, Dropped(c, st), st, s.applied + 1);
    }
  }

  /**
   * A quiet visit: every frame it sends lowers what is pending, and a pending slot gets a frame while there are none.
   */
  lemma QuietVisit(env: Env, c: seq<Commit>, st: SlotState, b: Build, session: string, id: nat, maxFrames: nat,
                   s: ReplicaSlot, s': ReplicaSlot)
    requires Valid(env) && id < |b.slots| && SlotOk(env, id, c, st) && WithinLimits(b, maxFrames)
    requires Offered(c, st, b.slots[id], s)
    requires var b' := Visit(b, session, env.lay, id, AtRest(st), maxFrames);
             Mirrors(b'.slots[id], s') && s'.applied <= |c|
               && (if b'.frames == b.frames then s' == s else !s'.needSnapshot)
    ensures var b' := Visit(b, session, env.lay, id, AtRest(st), maxFrames);
            && Pending(c, s') + |b'.frames| <= Pending(c, s) + |b.frames| && |b.frames| <= |b'.frames|
            && (maxFrames > 0 && FullWithFrames(b) ==> FullWithFrames(b'))
            && (maxFrames > 0 && b.frames == [] && !b.full && Pending(c, s) > 0 ==> b'.frames != [])
            && (Pending(c, s) == 0 ==> b'.completed == b.completed + [(id, |c|)] && b'.frames == b.frames)
  {
    hide Sound, HasBacklog, IsVisitOrder, UnpacksWire, LogAfter, RecordBytes, TotalBytes, BatchBytes, OfferLogs, Backs,
         Seen, Wire, SnapshotCodec.Encode;
    RestIsSeenInOrder(env, id, c, st);
    DroppedIsNat(env, id, c, st);
    WantsImage(env, id, c, st, b, s);
    if HasRoom(b, maxFrames) && !WantsSnapshot(b, id, AtRest(st)) {
      QuietLogs(env, c, st, b, session, id, maxFrames, s);
      OffersKeepTargets(b, session, id, CopiedLogs(b, id, AtRest(st), maxFrames), st.published);
    }
  }

  // ---- a whole quiet batch

  /** Views, greeting and replica at the start of a quiet batch, after BEGIN. */
  ghost predicate QuietStart(env: Env, heres: Locals, n: nat, p: Primary, r: Replica, first: Frame, g: Session,
                             views: seq<View>)
    requires Valid(env)
  {
    && PrimaryOk(env, n, p) && |g.slots| == |views| == n == |r.slots|
    && (forall k :: 0 <= k < n ==> views[k] == AtRest(p.states[VisitedSlot(g.nextSlot, k, n)]))
    && InStep(env, heres, p.commits, r, [first], g.slots, g.sessionId)
    && forall j :: 0 <= j < n ==>
         Offered(p.commits[j], p.states[j], g.slots[j], Delivered(env, heres, r, [first]).slots[j])
  }

  lemma QuietStartSees(env: Env, heres: Locals, n: nat, p: Primary, r: Replica, first: Frame, g: Session,
                       views: seq<View>)
    returns (ts: seq<nat>)
    requires Valid(env) && QuietStart(env, heres, n, p, r, first, g, views)
    ensures AllSound(env, p.commits) && BatchSees(p.commits, ts, Lengths(p.commits), g.nextSlot, views)
    ensures NotAhead(Lengths(p.commits), Delivered(env, heres, r, [first]))
  {
    hide SlotOk, Sound, SeenInOrder, IsVisitOrder, UnpacksWire, InStep, Delivered, VisitedSlot, Mirrors;
    ts := PrimaryIsSound(env, n, p);
    forall k {:trigger views[k]} | 0 <= k < n
      ensures var id := VisitedSlot(g.nextSlot, k, n);
              SeenInOrder(p.commits[id], ts[id], views[k]) && |p.commits[id]| <= views[k].first.published
    {
      var id := VisitedSlot(g.nextSlot, k, n);
      RestIsSeenInOrder(env, id, p.commits[id], p.states[id]);
    }
  }

  /** What holds after i rounds of a quiet batch. */
  ghost predicate QuietUpTo(env: Env, heres: Locals, n: nat, p: Primary, r: Replica, first: Frame, g: Session,
                            views: seq<View>, maxFrames: nat, i: nat)
    requires Valid(env) && i <= n == |views| == |g.slots| == |p.commits| == |r.slots|
  {
    var b := BuildUpTo(g, env.lay, views, maxFrames, i);
    var r0, r' := Delivered(env, heres, r, [first]), Delivered(env, heres, r, [first] + b.frames);
    && Lag(p.commits, r'.slots) + |b.frames| <= Lag(p.commits, r0.slots)
    && (maxFrames > 0 ==> FullWithFrames(b))
    && (maxFrames > 0 && b.frames == [] ==>
          forall k :: 0 <= k < i ==>
            var id := VisitedSlot(g.nextSlot, k, n); Pending(p.commits[id], r0.slots[id]) == 0)
    && (Lag(p.commits, r0.slots) == 0 ==>
          |b.completed| == i && forall k :: 0 <= k < i ==>
            var id := VisitedSlot(g.nextSlot, k, n); b.completed[k] == (id, |p.commits[id]|))
  }

  /** What round i adds. */
  ghost predicate QuietRound(env: Env, heres: Locals, n: nat, p: Primary, r: Replica, first: Frame, g: Session,
                             views: seq<View>, maxFrames: nat, i: nat)
    requires Valid(env) && 0 < i <= n == |views| == |g.slots| == |p.commits| == |r.slots|
  {
    var b0, b := BuildUpTo(g, env.lay, views, maxFrames, i - 1), BuildUpTo(g, env.lay, views, maxFrames, i);
    var r0 := Delivered(env, heres, r, [first]);
    var before, after := Delivered(env, heres, r, [first] + b0.frames), Delivered(env, heres, r, [first] + b.frames);
    var id := VisitedSlot(g.nextSlot, i - 1, n);
    && Lag(p.commits, after.slots) + |b.frames| <= Lag(p.commits, before.slots) + |b0.frames|
    && |b0.frames| <= |b.frames|
    && (maxFrames > 0 && FullWithFrames(b0) ==> FullWithFrames(b))
    && (maxFrames > 0 && b0.frames == [] && !b0.full && b.frames == [] ==> Pending(p.commits[id], r0.slots[id]) == 0)
    && (Pending(p.commits[id], r0.slots[id]) == 0 ==> b.completed == b0.completed + [(id, |p.commits[id]|)])
  }

  lemma QuietUpToNext(env: Env, heres: Locals, n: nat, p: Primary, r: Replica, first: Frame, g: Session,
                      views: seq<View>, maxFrames: nat, i: nat)
    requires Valid(env) && 0 < i <= n == |views| == |g.slots| == |p.commits| == |r.slots|
    requires QuietUpTo(env, heres, n, p, r, first, g, views, maxFrames, i - 1)
    requires QuietRound(env, heres, n, p, r, first, g, views, maxFrames, i)
    requires var slots := Delivered(env, heres, r, [first]).slots;
             Lag(p.commits, slots) == 0 ==> forall j :: 0 <= j < n ==> Pending(p.commits[j], slots[j]) == 0
    ensures QuietUpTo(env, heres, n, p, r, first, g, views, maxFrames, i)
  {
    hide Delivered, VisitedSlot, Pending, Lag, BuildUpTo, IsVisitOrder, UnpacksWire;
  }

  lemma AgreedIsNotAhead(cs: seq<seq<Commit>>, r: Replica, j: nat)
    requires Agrees(cs, r) && j < |cs|
    ensures r.slots[j].applied <= |cs[j]|
  {
  }

  lemma MirroredAt(slots: seq<Progress>, r: Replica, j: nat)
    requires MirrorsAll(slots, r) && j < |slots|
    ensures Mirrors(slots[j], r.slots[j])
  {
  }

  /** Round i of a quiet batch. */
  lemma QuietBuildStep(env: Env, heres: Locals, n: nat, p: Primary, r: Replica, first: Frame, g: Session,
                       views: seq<View>, maxFrames: nat, i: nat)
    requires Valid(env) && QuietStart(env, heres, n, p, r, first, g, views) && 0 < i <= n
    ensures QuietRound(env, heres, n, p, r, first, g, views, maxFrames, i)
  {
    hide SlotOk, Sound, SeenInOrder, IsVisitOrder, UnpacksWire, Delivered, VisitedSlot, Mirrors, Visit, Smooth,
         BatchBytes, Pending, Lag, AgreesSlot;
    var ts := QuietStartSees(env, heres, n, p, r, first, g, views);
    BuildIsAccepted(env, heres, p.commits, ts, Lengths(p.commits), r, first, g, views, maxFrames, i - 1);
    var b0 := BuildUpTo(g, env.lay, views, maxFrames, i - 1);
    var id := VisitedSlot(g.nextSlot, i - 1, n);
    assert SeenInOrder(p.commits[id], ts[id], views[i - 1]);
    var before := Delivered(env, heres, r, [first] + b0.frames);
    VisitIsAccepted(env, heres, p.commits, ts[id], r, first, b0, g.sessionId, id, views[i - 1], maxFrames);
    var b := Visit(b0, g.sessionId, env.lay, id, views[i - 1], maxFrames);
    var after := Delivered(env, heres, r, [first] + b.frames);
    assert SlotOk(env, id, p.commits[id], p.states[id]);
    AgreedIsNotAhead(p.commits, after, id);
    MirroredAt(b.slots, after, id);
    QuietVisit(env, p.commits[id], p.states[id], b0, g.sessionId, id, maxFrames, before.slots[id], after.slots[id]);
    assert after.slots == before.slots[id := after.slots[id]];
    LagOfUpdate(p.commits, before.slots, id, after.slots[id]);
  }

  lemma {:induction false} QuietBuild(env: Env, heres: Locals, n: nat, p: Primary, r: Replica, first: Frame, g: Session,
                                      views: seq<View>, maxFrames: nat, i: nat)
    requires Valid(env) && QuietStart(env, heres, n, p, r, first, g, views) && i <= n
    ensures QuietUpTo(env, heres, n, p, r, first, g, views, maxFrames, i)
  {
    hide Delivered, VisitedSlot, Pending, Lag, Visit, InStep, SlotOk, IsVisitOrder, UnpacksWire, Mirrors, WithinLimits;
    if i == 0 {
      assert [first] + [] == [first];
    } else {
      QuietBuild(env, heres, n, p, r, first, g, views, maxFrames, i - 1);
      QuietBuildStep(env, heres, n, p, r, first, g, views, maxFrames, i);
      NoLagNoPending(p.commits, Delivered(env, heres, r, [first]).slots);
      QuietUpToNext(env, heres, n, p, r, first, g, views, maxFrames, i);
    }
  }

  // ---- polls

  /** The slots that BEGIN leaves: all empty when the session starts over. */
  function AfterBegin(p: Primary, replicaId: string, r: Replica): seq<ReplicaSlot> {
    if r.session == SessionOf(p, replicaId).sessionId != "" then r.slots else ResetAll(r.slots)
  }

  /** How far the replica is behind, counted from what its session lets it keep. */
  function Behind(p: Primary, replicaId: string, r: Replica): nat
    requires |p.commits| == |r.slots|
  {
    Lag(p.commits, AfterBegin(p, replicaId, r))
  }

  /** Every slot is readable and holds exactly the primary's map. */
  ghost predicate AllOnline(cs: seq<seq<Commit>>, r: Replica) {
    |cs| == |r.slots| && forall j :: 0 <= j < |cs| ==>
      r.slots[j].status == Online && r.slots[j].engine.objects == MapAt(cs[j], |cs[j]|)
  }

  lemma SoundIsShort(env: Env, slot: nat, c: seq<Commit>)
    requires Valid(env) && Sound(env, slot, c)
    ensures |c| < U64_MAX
  {
  }

  lemma QuietPollStarts(env: Env, heres: Locals, n: nat, p: Primary, call: PollCall, r: Replica)
    requires Valid(env) && PrimaryOk(env, n, p) && SessionsOwned(p) && OwnHello(r, call.hello) && Quiet(p, call)
    requires call.hello.version == PROTOCOL_VERSION && call.hello.replicaId != ""
    requires FitsSession(p.commits, SessionOf(p, call.hello.replicaId).sessionId, r)
    ensures var g := Greeted(p, call); var first := Begin(g.sessionId, g.reset);
            && QuietStart(env, heres, n, p, r, first, g, call.buildViews)
            && Delivered(env, heres, r, [first]).slots == AfterBegin(p, call.hello.replicaId, r)
  {
    hide SlotOk, Sound, Backs, SeenInOrder, IsVisitOrder, UnpacksWire, VisitedSlot, GreetSlot, SessionName, ApplyWrites,
         FindReplica, Mirrors, AgreesSlot, HasBacklog, GreetSlots, Offered;
    QuietPollRuns(env, n, p, call);
    BeginIsAccepted(env, heres, n, p, call, r);
    BeginMirrors(env, n, p, p, call, r);
    var replica, g := SessionOf(p, call.hello.replicaId), Greeted(p, call);
    var _ := PrimaryIsSound(env, n, p);
    GreetSlotsInOrder(replica.slots, g.reset, call.hello.positions, call.greetViews);
    var first := Begin(g.sessionId, g.reset);
    var r0 := Delivered(env, heres, r, [first]);
    forall j | 0 <= j < n
      ensures Offered(p.commits[j], p.states[j], g.slots[j], r0.slots[j])
    {
      assert call.hello.positions[j].0 == j;
      AgreedIsNotAhead(p.commits, r0, j);
      SoundIsShort(env, j, p.commits[j]);
      QuietGreeting(env, j, p.commits[j], p.states[j], g.reset, r.slots[j]);
    }
  }

  lemma {:induction false} DoneMarksAll(slots: seq<ReplicaSlot>, positions: seq<Position>)
    requires forall q :: q in positions ==> q.0 < |slots| && !slots[q.0].needSnapshot && q.1 <= slots[q.0].applied
    ensures var slots' := ApplyDone(slots, positions).0;
            && (forall j :: 0 <= j < |slots| && slots[j].status == Online ==> slots'[j] == slots[j])
            && (forall j :: 0 <= j < |slots| ==> slots'[j].engine == slots[j].engine)
            && (forall q :: q in positions ==> slots'[q.0].status == Online)
    decreases |positions|
  {
    if positions == [] {
    } else {
      var q := positions[0];
      DoneMarksAll(slots[q.0 := MarkDone(slots[q.0], q.1)], positions[1..]);
      assert forall q' :: q' in positions ==> q' == q || q' in positions[1..];
    }
  }

  lemma RemainderIs(x: nat, q: nat, j: nat, n: nat)
    requires x == q * n + j && j < n
    ensures x % n == j
  {
    var q', j' := x / n, x % n;
    assert x == q' * n + j';
    MultipleIsFar(q - q', n);
    MultipleIsFar(q' - q, n);
    assert (q - q') * n == q * n - q' * n && (q' - q) * n == q' * n - q * n;
  }

  /** A visited slot for every slot number. */
  lemma VisitedAtLast(start: nat, j: nat, n: nat) returns (k: nat)
    requires j < n
    ensures k < n && VisitedSlot(start, k, n) == j
  {
    var a := start % n;
    k := if j >= a then j - a else j + n - a;
    var q := start / n;
    assert start + k == q * n + a + k;
    if j >= a {
      RemainderIs(start + k, q, j, n);
    } else {
      assert (q + 1) * n == q * n + n;
      RemainderIs(start + k, q + 1, j, n);
    }
  }

  lemma {:induction false} LagOfSame(cs: seq<seq<Commit>>, a: seq<ReplicaSlot>, b: seq<ReplicaSlot>)
    requires |cs| == |a| == |b|
    requires forall j :: 0 <= j < |a| ==> a[j].applied == b[j].applied && a[j].needSnapshot == b[j].needSnapshot
    ensures Lag(cs, a) == Lag(cs, b)
  {
    if cs == [] {
    } else {
      LagOfSame(cs[..|cs| - 1], a[..|a| - 1], b[..|b| - 1]);
    }
  }

  /** With nothing behind, DONE names every slot with its last number, and every slot turns Online. */
  lemma DoneOpensAll(cs: seq<seq<Commit>>, r: Replica, start: nat, completed: seq<Position>)
    requires Agrees(cs, r) && Lag(cs, r.slots) == 0 && |completed| == |cs|
    requires forall k :: 0 <= k < |cs| ==> var id := VisitedSlot(start, k, |cs|); completed[k] == (id, |cs[id]|)
    ensures AllOnline(cs, r.(slots := ApplyDone(r.slots, completed).0))
  {
    hide ApplyDone, VisitedSlot;
    NoLagNoPending(cs, r.slots);
    forall q | q in completed
      ensures q.0 < |r.slots| && !r.slots[q.0].needSnapshot && q.1 <= r.slots[q.0].applied
    {
      var k :| 0 <= k < |completed| && completed[k] == q;
      assert Pending(cs[q.0], r.slots[q.0]) == 0;
    }
    DoneMarksAll(r.slots, completed);
    forall j | 0 <= j < |cs|
      ensures var s := ApplyDone(r.slots, completed).0[j];
              s.status == Online && s.engine.objects == MapAt(cs[j], |cs[j]|)
    {
      var k := VisitedAtLast(start, j, |cs|);
      assert completed[k].0 == j && completed[k] in completed;
      assert Pending(cs[j], r.slots[j]) == 0 && AgreesSlot(cs[j], r.slots[j]);
    }
  }

  /** The end of a quiet poll: DONE moves no slot, and opens them all when nothing is missing. */
  lemma QuietAnswer(env: Env, heres: Locals, n: nat, p: Primary, call: PollCall, r: Replica, g: Session, b: Build)
    requires Valid(env) && |p.commits| == |call.buildViews| == |g.slots| == |r.slots| == n
    requires call.hello.Hello? && |call.greetViews| == |call.hello.positions| && g == Greeted(p, call)
    requires b == BuildUpTo(g, env.lay, call.buildViews, call.maxFrames, n)
    requires var first := Begin(g.sessionId, g.reset);
             && QuietUpTo(env, heres, n, p, r, first, g, call.buildViews, call.maxFrames, n)
             && QuietStart(env, heres, n, p, r, first, g, call.buildViews)
             && Delivered(env, heres, r, [first]).slots == AfterBegin(p, call.hello.replicaId, r)
             && Smooth(env, heres, r, Batch(g.sessionId, g.reset, b))
             && Delivered(env, heres, r, Batch(g.sessionId, g.reset, b)).session == g.sessionId
             && Agrees(p.commits, Delivered(env, heres, r, Batch(g.sessionId, g.reset, b)))
    ensures var frames := Batch(g.sessionId, g.reset, b); var r' := Delivered(env, heres, r, frames);
            && Lag(p.commits, r'.slots) + (|frames| - 2) <= Behind(p, call.hello.replicaId, r)
            && (call.maxFrames > 0 && Behind(p, call.hello.replicaId, r) > 0 ==> |frames| > 2)
            && (Behind(p, call.hello.replicaId, r) == 0 ==> AllOnline(p.commits, r'))
  {
    hide BuildUpTo, SessionName, IsVisitOrder, UnpacksWire, GreetSlots, FindReplica, Delivered, AgreesSlot, SlotOk,
         MirrorsAll, Agrees, Lag, VisitedSlot, ApplyDone, AllOnline, AfterBegin, Offered, Greet, Climbs, Pending;
    var first, frames := Begin(g.sessionId, g.reset), Batch(g.sessionId, g.reset, b);
    var before := Delivered(env, heres, r, [first] + b.frames);
    DeliveredSnoc(env, heres, r, [first] + b.frames, Done(g.sessionId, b.completed));
    DoneLeavesSlots(before.slots, b.completed);
    var r' := Delivered(env, heres, r, frames);
    assert r'.slots == ApplyDone(before.slots, b.completed).0;
    LagOfSame(p.commits, before.slots, r'.slots);
    NoLagNoPending(p.commits, AfterBegin(p, call.hello.replicaId, r));
    if Behind(p, call.hello.replicaId, r) == 0 {
      assert [first] + [] == [first];
      DoneOpensAll(p.commits, before, g.nextSlot, b.completed);
    } else if call.maxFrames > 0 && b.frames == [] {
      forall j | 0 <= j < n
        ensures Pending(p.commits[j], AfterBegin(p, call.hello.replicaId, r)[j]) == 0
      {
        var k := VisitedAtLast(g.nextSlot, j, n);
      }
      assert false;
    }
  }

  /**
   * A quiet poll, fully delivered: each data frame brings the replica one step closer; there is such a frame while
   * anything is missing; and when nothing is, every slot is Online with exactly the primary's map.
   */
  lemma QuietPollCatchesUp(env: Env, heres: Locals, n: nat, p: Primary, call: PollCall, r: Replica)
    requires Valid(env) && PrimaryOk(env, n, p) && SessionsOwned(p) && OwnHello(r, call.hello) && Quiet(p, call)
    requires call.hello.version == PROTOCOL_VERSION && call.hello.replicaId != ""
    requires FitsSession(p.commits, SessionOf(p, call.hello.replicaId).sessionId, r)
    ensures PollRuns(env, p, call)
    ensures var (session, frames) := PollAnswer(env, p, call); var r' := Delivered(env, heres, r, frames);
            && |frames| >= 2 && Agrees(p.commits, r') && r'.session == session.sessionId != ""
            && Lag(p.commits, r'.slots) + (|frames| - 2) <= Behind(p, call.hello.replicaId, r)
            && (call.maxFrames > 0 && Behind(p, call.hello.replicaId, r) > 0 ==> |frames| > 2)
            && (Behind(p, call.hello.replicaId, r) == 0 ==> AllOnline(p.commits, r'))
  {
    hide SlotOk, Sound, BuildUpTo, SessionName, IsVisitOrder, UnpacksWire, GreetSlots, FindReplica, Delivered, Smooth,
         AgreesSlot, MirrorsAll, ApplyWrites, Lag, VisitedSlot, ApplyDone, FitsSession, SessionsOwned, Quiet,
         QuietStart, AllOnline, AfterBegin, Offered;
    QuietPollRuns(env, n, p, call);
    PollIsAccepted(env, heres, n, p, call, r);
    QuietPollStarts(env, heres, n, p, call, r);
    var g := Greeted(p, call);
    var first := Begin(g.sessionId, g.reset);
    QuietBuild(env, heres, n, p, r, first, g, call.buildViews, call.maxFrames, n);
    QuietAnswer(env, heres, n, p, call, r, g, BuildUpTo(g, env.lay, call.buildViews, call.maxFrames, n));
  }

  // ---- rounds

  /** One round without writers: perhaps maintenance, then a poll whose whole answer reaches the replica. */
  datatype Round = Round(maintain: bool, call: PollCall, heres: Locals)

  datatype Pair = Pair(primary: Primary, replica: Replica)

  ghost function Prepared(env: Env, p: Primary, round: Round): Primary
    requires Valid(env) && SlotsTracked(p.replicas, |p.states|)
  {
    if round.maintain then MaintainPrimary(env, p, RestCall(p)) else p
  }

  /** The round is a quiet poll with the replica's own HELLO. */
  ghost predicate RoundRuns(env: Env, replicaId: string, x: Pair, round: Round)
    requires Valid(env) && SlotsTracked(x.primary.replicas, |x.primary.states|)
  {
    && OwnHello(x.replica, round.call.hello) && round.call.hello.version == PROTOCOL_VERSION
    && round.call.hello.replicaId == replicaId != "" && round.call.maxFrames > 0
    && Quiet(Prepared(env, x.primary, round), round.call)
  }

  ghost function AfterRound(env: Env, x: Pair, round: Round): Pair
    requires Valid(env) && SlotsTracked(x.primary.replicas, |x.primary.states|)
  {
    var (p, frames) := PollPrimary(env, Prepared(env, x.primary, round), round.call);
    Pair(p, Delivered(env, round.heres, x.replica, frames))
  }

  ghost predicate PairOk(env: Env, n: nat, replicaId: string, x: Pair)
    requires Valid(env)
  {
    && PrimaryOk(env, n, x.primary) && SessionsOwned(x.primary)
    && FitsSession(x.primary.commits, SessionOf(x.primary, replicaId).sessionId, x.replica)
  }

  // ---- sessions are found again

  lemma {:induction false} FoundBySameName(a: seq<Session>, b: seq<Session>, replicaId: string)
    requires SameSessions(a, b)
    ensures FindReplica(a, replicaId) == FindReplica(b, replicaId)
  {
    if a == [] {
    } else {
      FoundBySameName(a[1..], b[1..], replicaId);
    }
  }

  lemma MaintenanceKeepsSession(env: Env, n: nat, p: Primary, call: MaintainCall, replicaId: string)
    requires Valid(env) && PrimaryOk(env, n, p)
    ensures var p' := MaintainPrimary(env, p, call);
            && SessionOf(p', replicaId).sessionId == SessionOf(p, replicaId).sessionId
            && SessionOf(p', replicaId).nextSlot == SessionOf(p, replicaId).nextSlot
            && (call.during == [] ==> p'.commits == p.commits)
  {
    hide EvictFrom, TrimSlots, MaintainRuns, SlotOk;
    MaintenanceKeepsPrimary(env, n, p, call);
    FoundBySameName(p.replicas, MaintainPrimary(env, p, call).replicas, replicaId);
  }

  lemma PolledSessionIsFound(env: Env, p: Primary, call: PollCall)
    requires Valid(env) && PollRuns(env, p, call)
    ensures SessionOf(PollPrimary(env, p, call).0, call.hello.replicaId) == PollAnswer(env, p, call).0
  {
    hide ApplyWrites, BuildUpTo, SessionName, GreetSlots, PollSees, IsVisitOrder, UnpacksWire;
    FoundAgain(p.replicas, call.hello.replicaId, PollAnswer(env, p, call).0);
  }

  lemma PreparedIsOk(env: Env, n: nat, p: Primary, round: Round)
    requires Valid(env) && PrimaryOk(env, n, p) && SessionsOwned(p)
    ensures PrimaryOk(env, n, Prepared(env, p, round)) && SessionsOwned(Prepared(env, p, round))
  {
    hide SlotOk, SessionsOwned, MaintainPrimary;
    EventKeepsPrimary(env, n, p, Maintained(RestCall(p)));
  }

  /** One round: the replica gets closer, or every slot is Online with the primary's map. */
  lemma RoundCatchesUp(env: Env, n: nat, replicaId: string, x: Pair, round: Round)
    requires Valid(env) && PairOk(env, n, replicaId, x) && RoundRuns(env, replicaId, x, round)
    ensures var x' := AfterRound(env, x, round);
            && PairOk(env, n, replicaId, x') && x'.primary.commits == x.primary.commits
            && (Behind(x.primary, replicaId, x.replica) > 0 ==>
                  Behind(x'.primary, replicaId, x'.replica) < Behind(x.primary, replicaId, x.replica))
            && (Behind(x.primary, replicaId, x.replica) == 0 ==>
                  Behind(x'.primary, replicaId, x'.replica) == 0 && AllOnline(x.primary.commits, x'.replica))
  {
    hide MaintainPrimary, PollAnswer, SessionsOwned, SlotOk, Quiet, ApplyWrites, Delivered, FindReplica, Lag, AllOnline,
         IsVisitOrder, UnpacksWire, PollSees;
    var p := Prepared(env, x.primary, round);
    PreparedIsOk(env, n, x.primary, round);
    MaintenanceKeepsSession(env, n, x.primary, RestCall(x.primary), replicaId);
    QuietPollRuns(env, n, p, round.call);
    QuietPollCatchesUp(env, round.heres, n, p, round.call, x.replica);
    PolledSessionIsFound(env, p, round.call);
    PollIsTrue(env, n, p, round.call);
  }

  /** The round leads from x to x'. */
  ghost predicate RoundLeads(env: Env, replicaId: string, x: Pair, round: Round, x': Pair)
    requires Valid(env)
  {
    && SlotsTracked(x.primary.replicas, |x.primary.states|)
    && RoundRuns(env, replicaId, x, round) && x' == AfterRound(env, x, round)
  }

  /** xs are the states before, between and after the rounds. */
  ghost predicate RoundsLead(env: Env, replicaId: string, xs: seq<Pair>, rounds: seq<Round>)
    requires Valid(env)
  {
    |xs| == |rounds| + 1 && forall i {:trigger rounds[i]} :: 0 <= i < |rounds| ==>
      RoundLeads(env, replicaId, xs[i], rounds[i], xs[i + 1])
  }

  /**
   * Convergence: without writers, whatever maintenance does, once there were more fully delivered polls than the
   * replica was behind, every slot is Online and holds exactly the primary's map.
   */
  lemma {:induction false} RoundsConverge(env: Env, n: nat, replicaId: string, xs: seq<Pair>, rounds: seq<Round>)
    requires Valid(env) && RoundsLead(env, replicaId, xs, rounds) && PairOk(env, n, replicaId, xs[0])
    requires |rounds| > Behind(xs[0].primary, replicaId, xs[0].replica)
    ensures AllOnline(xs[0].primary.commits, xs[|rounds|].replica)
    decreases |rounds|
  {
    hide AfterRound, SlotOk, FitsSession, SessionsOwned, RoundRuns, Behind, AllOnline;
    assert RoundLeads(env, replicaId, xs[0], rounds[0], xs[1]);
    RoundCatchesUp(env, n, replicaId, xs[0], rounds[0]);
    if |rounds| > 1 {
      var rest := rounds[1..];
      forall i {:trigger rest[i]} | 0 <= i < |rest|
        ensures RoundLeads(env, replicaId, xs[1..][i], rest[i], xs[1..][i + 1])
      {
        assert rest[i] == rounds[i + 1] && RoundLeads(env, replicaId, xs[i + 1], rounds[i + 1], xs[i + 2]);
      }
      RoundsConverge(env, n, replicaId, xs[1..], rounds[1..]);
    }
  }

  /** A quiet round is always possible: the hypotheses of convergence can be met from every reachable state. */
  lemma QuietRoundExists(env: Env, n: nat, replicaId: string, x: Pair, maintain: bool, heres: Locals)
    returns (round: Round)
    requires Valid(env) && PairOk(env, n, replicaId, x) && replicaId != ""
    ensures RoundRuns(env, replicaId, x, round) && round.maintain == maintain && round.heres == heres
  {
    hide MaintainPrimary, SlotOk, SessionsOwned, FindReplica, VisitedSlot;
    var hello := Hello(replicaId, PROTOCOL_VERSION, x.replica.session, Slave.Positions(x.replica));
    var p := if maintain then MaintainPrimary(env, x.primary, RestCall(x.primary)) else x.primary;
    PreparedIsOk(env, n, x.primary, Round(maintain, PollCall(hello, [], [], [], 1), heres));
    var greetViews := seq(n, k requires 0 <= k < n => AtRest(p.states[k]));
    var start := SessionOf(p, replicaId).nextSlot;
    var buildViews := seq(n, k requires 0 <= k < n => AtRest(p.states[VisitedSlot(start, k, n)]));
    round := Round(maintain, PollCall(hello, [], greetViews, buildViews, 1), heres);
  }
}
