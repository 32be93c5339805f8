/** One poll without writers: a slot is Online after it, unless one of the limits of a batch cut its records off. */
module QuietPolls {
  import opened Core
  import opened Binlog
  import opened HashSlot
  import opened Order
  import opened SnapshotCodec
  import opened FrameCodec
  import opened Master
  import opened Slave
  import opened History
  import opened Agreement
  import opened Primary
  import opened Delivery
  import opened Visits
  import opened Convergence
  import opened Rotation

  // ---- one visit to a slot at rest

  lemma ImageIsWanted(env: Env, id: nat, c: seq<Commit>, s: SlotState, b: Build)
    requires Valid(env) && id < |b.slots| && SlotOk(env, id, c, s) && b.slots[id].sent <= |c|
    ensures WantsSnapshot(b, id, AtRest(s)) <==> b.slots[id].needSnapshot || Dropped(c, s) > b.slots[id].sent
    ensures 0 <= Dropped(c, s) <= |c| && SeenInOrder(c, Dropped(c, s), AtRest(s)) && s.published == |c|
    ensures s.objects == MapAt(c, |c|)
  {
    hide Sound, HasBacklog, IsVisitOrder, UnpacksWire;
    RestIsSeenInOrder(env, id, c, s);
    if !b.slots[id].needSnapshot {
      HasBacklogIsExactAtRest(env, id, c, Dropped(c, s), s, b.slots[id].sent + 1);
    }
  }

  lemma SlotIsSound(env: Env, id: nat, c: seq<Commit>, s: SlotState)
    requires Valid(env) && SlotOk(env, id, c, s)
    ensures Sound(env, id, c)
  {
  }

  lemma RestPublished(c: seq<Commit>, t: nat, s: SlotState)
    requires SeenInOrder(c, t, AtRest(s))
    ensures s.published <= |c|
  {
  }

  /**
   * A visit with room to a slot at rest that is not flagged and whose next records are retained sends all that fits of
   * what is pending, and announces the slot's last number.
   */
  lemma RestVisitSendsAllThatFits(env: Env, c: seq<Commit>, s: SlotState, b: Build, session: string, id: nat,
                                  maxFrames: nat) returns (j: nat)
    requires Valid(env) && id < |b.slots| && SlotOk(env, id, c, s) && WithinLimits(b, maxFrames)
    requires !b.full && |b.frames| < maxFrames
    requires !b.slots[id].needSnapshot && |c| - |s.log| <= b.slots[id].sent <= |c|
    ensures var b' := Visit(b, session, env.lay, id, AtRest(s), maxFrames);
            && SendsAllThatFits(b, b', session, id, c, j, |c| - b.slots[id].sent, maxFrames)
            && b'.completed == b.completed + [(id, |c|)]
  {
    hide SlotOk, SeenInOrder, Sound, Visit, WithinLimits, IsVisitOrder, UnpacksWire, SendsAllThatFits;
    ImageIsWanted(env, id, c, s, b);
    SlotIsSound(env, id, c, s);
    RestPublished(c, Dropped(c, s), s);
    j := VisitSendsAllThatFits(env, c, Dropped(c, s), b, session, id, AtRest(s), maxFrames);
  }

  /** If it is flagged, or its next record is gone, it gets its image, unless that does not fit behind other frames. */
  lemma RestVisitSendsImage(env: Env, c: seq<Commit>, s: SlotState, b: Build, session: string, id: nat, maxFrames: nat)
    requires Valid(env) && id < |b.slots| && SlotOk(env, id, c, s) && WithinLimits(b, maxFrames)
    requires !b.full && |b.frames| < maxFrames && b.slots[id].sent <= |c|
    requires b.slots[id].needSnapshot || |c| - |s.log| > b.slots[id].sent
    ensures var b', q := Visit(b, session, env.lay, id, AtRest(s), maxFrames), b.slots[id];
            var payload := Wire(SnapshotCodec.Encode(env.lay, MapAt(c, |c|)));
            if b.frames != [] && b.bytes + |payload| > 16 * 1024 * 1024
            then b'.frames == b.frames && b'.slots == b.slots && b'.full && b'.nextSlot == id
            else
              && b'.frames == b.frames + [Snapshot(session, id, |c|, payload)]
              && b'.slots == b.slots[id := Progress(q.acked, |c|, false)]
              && b'.completed == b.completed + [(id, |c|)]
  {
    hide SlotOk, Sound, HasBacklog, Wire, SnapshotCodec.Encode, BatchBytes, IsVisitOrder, UnpacksWire, MapAt;
    ImageIsWanted(env, id, c, s, b);
  }

  // ---- a whole poll

  /** What a batch announces of slots at rest: their last numbers, and every visited slot that is not flagged. */
  ghost predicate AnnouncesRest(cs: seq<seq<Commit>>, completed: seq<Position>) {
    forall q :: q in completed ==> q.0 < |cs| && q.1 == |cs[q.0]|
  }

  lemma VisitAnnouncesRest(env: Env, c: seq<Commit>, s: SlotState, b: Build, session: string, id: nat, maxFrames: nat)
    requires Valid(env) && id < |b.slots| && SlotOk(env, id, c, s) && WithinLimits(b, maxFrames)
    ensures var b' := Visit(b, session, env.lay, id, AtRest(s), maxFrames);
            if b'.slots[id].needSnapshot then b'.completed == b.completed else b'.completed == b.completed + [(id, |c|)]
  {
    hide Sound, HasBacklog, Wire, SnapshotCodec.Encode, BatchBytes, RecordBytes, LogAfter, TotalBytes, IsVisitOrder,
         UnpacksWire, OfferLogs;
    if HasRoom(b, maxFrames) && !WantsSnapshot(b, id, AtRest(s)) {
      OffersKeepTargets(b, session, id, CopiedLogs(b, id, AtRest(s), maxFrames), s.published);
    }
  }

  lemma {:induction false} BatchAnnouncesRest(env: Env, n: nat, p: Primary, g: Session, views: seq<View>,
                                              maxFrames: nat, i: nat, k: nat)
    requires Valid(env) && PrimaryOk(env, n, p) && |g.slots| == |views| == n && i <= n && k < n
    requires forall m :: 0 <= m < n ==> views[m] == AtRest(p.states[VisitedSlot(g.nextSlot, m, n)])
    ensures var completed := BuildUpTo(g, env.lay, views, maxFrames, i).completed;
            var id := VisitedSlot(g.nextSlot, k, n);
            && AnnouncesRest(p.commits, completed)
            && (k < i && !BuildUpTo(g, env.lay, views, maxFrames, k + 1).slots[id].needSnapshot ==>
                  (id, |p.commits[id]|) in completed)
  {
    hide Visit, VisitedSlot, WithinLimits, SlotOk, IsVisitOrder, UnpacksWire;
    if i == 0 {
    } else {
      BatchAnnouncesRest(env, n, p, g, views, maxFrames, i - 1, k);
      var id := VisitedSlot(g.nextSlot, i - 1, n);
      assert SlotOk(env, id, p.commits[id], p.states[id]);
      VisitAnnouncesRest(env, p.commits[id], p.states[id], BuildUpTo(g, env.lay, views, maxFrames, i - 1), g.sessionId,
                         id,
                         maxFrames);
    }
  }

  /** A slot that is announced by numbers that it has reached, and only by such, turns Online. */
  lemma {:induction false} DoneOpens(slots: seq<ReplicaSlot>, positions: seq<Position>, j: nat)
    requires j < |slots| && !slots[j].needSnapshot && forall q :: q in positions ==> q.0 < |slots|
    requires forall q :: q in positions && q.0 == j ==> q.1 <= slots[j].applied
    requires slots[j].status == Online || exists q :: q in positions && q.0 == j
    ensures ApplyDone(slots, positions).0[j] == slots[j].(status := Online)
    decreases |positions|
  {
    if positions == [] {
    } else {
      var q := positions[0];
      var next := slots[q.0 := MarkDone(slots[q.0], q.1)];
      forall q' | q' in positions[1..]
        ensures q' in positions
      {
      }
      if next[j].status != Online {
        var q' :| q' in positions && q'.0 == j;
        assert q' in positions[1..];
      }
      DoneOpens(next, positions[1..], j);
    }
  }

  /** Data frames cost no less once more follow. */
  lemma {:induction false} MoreFramesCostMore(a: seq<Frame>, b: seq<Frame>)
    requires a <= b
    ensures BatchBytes(a) <= BatchBytes(b)
    decreases |b|
  {
    if |a| == |b| {
      assert a == b;
    } else {
      assert a <= b[..|b| - 1];
      MoreFramesCostMore(a, b[..|b| - 1]);
    }
  }

  lemma StartIsVisited(start: nat, d: nat, n: nat)
    requires d < n && VisitedSlot(start, d, n) == start
    ensures d == 0
  {
    RemainderIs(start, 0, start, n);
    assert VisitedSlot(start, 0, n) == start;
    VisitedOnce(start, 0, d, n);
  }

  lemma {:induction false} FullStays(lay: Layout, g: Session, views: seq<View>, maxFrames: nat, k: nat, i: nat)
    requires k <= i <= |views| == |g.slots| && IsVisitOrder(lay.order) && BuildUpTo(g, lay, views, maxFrames, k).full
    ensures var b, b' := BuildUpTo(g, lay, views, maxFrames, k), BuildUpTo(g, lay, views, maxFrames, i);
            b'.full && b'.nextSlot == b.nextSlot
    decreases i - k
  {
    hide Visit, VisitedSlot, WithinLimits, IsVisitOrder;
    if k == i {
    } else {
      FullStays(lay, g, views, maxFrames, k, i - 1);
      FullVisitStays(BuildUpTo(g, lay, views, maxFrames, i - 1), g.sessionId, lay,
                     VisitedSlot(g.nextSlot, i - 1, |views|),
                     views[i - 1], maxFrames);
    }
  }

  /** The batch did not end before visit k if in the end the cursor is where it was. */
  lemma CursorStayedSoRoom(env: Env, n: nat, p: Primary, g: Session, views: seq<View>, maxFrames: nat, k: nat)
    requires Valid(env) && PrimaryOk(env, n, p) && |g.slots| == |views| == n && k < n && maxFrames > 0
    requires forall m :: 0 <= m < n ==> views[m] == AtRest(p.states[VisitedSlot(g.nextSlot, m, n)])
    requires BuildUpTo(g, env.lay, views, maxFrames, n).nextSlot == g.nextSlot
    ensures HasRoom(BuildUpTo(g, env.lay, views, maxFrames, k), maxFrames)
    ensures var b' := BuildUpTo(g, env.lay, views, maxFrames, k + 1);
            b'.full && b'.nextSlot == VisitedSlot(g.nextSlot, k, n) ==> k == 0
  {
    hide Visit, VisitedSlot, WithinLimits, SlotOk, Sound, SeenInOrder, IsVisitOrder, UnpacksWire, TakesTurn;
    var ts := PrimaryIsSound(env, n, p);
    forall m {:trigger views[m]} | 0 <= m < n
      ensures var id := VisitedSlot(g.nextSlot, m, n); SeenInOrder(p.commits[id], ts[id], views[m])
    {
      var id := VisitedSlot(g.nextSlot, m, n);
      RestIsSeenInOrder(env, id, p.commits[id], p.states[id]);
    }
    var d := BatchRotates(env, p.commits, ts, g, views, maxFrames, k);
    if BuildUpTo(g, env.lay, views, maxFrames, k).full {
      FullStays(env.lay, g, views, maxFrames, k, n);
      StartIsVisited(g.nextSlot, d, n);
    }
    var b' := BuildUpTo(g, env.lay, views, maxFrames, k + 1);
    if b'.full && b'.nextSlot == VisitedSlot(g.nextSlot, k, n) {
      FullStays(env.lay, g, views, maxFrames, k + 1, n);
      StartIsVisited(g.nextSlot, k, n);
    }
  }

  /** The records of the slot were not cut off by a limit of the batch. */
  ghost predicate CutOff(c: seq<Commit>, from: nat, to: nat, frames: seq<Frame>, maxFrames: nat) {
    && to < |c|
    && (to == from + 128 || |frames| >= maxFrames || BatchBytes(frames) + RecordBytes(c[to].record) > 16 * 1024 * 1024)
  }

  lemma BatchServesSlot(env: Env, n: nat, p: Primary, g: Session, views: seq<View>, maxFrames: nat, k: nat)
    requires Valid(env) && PrimaryOk(env, n, p) && |g.slots| == |views| == n && k < n && maxFrames > 0
    requires forall m :: 0 <= m < n ==> views[m] == AtRest(p.states[VisitedSlot(g.nextSlot, m, n)])
    requires BuildUpTo(g, env.lay, views, maxFrames, n).nextSlot == g.nextSlot
    requires var id := VisitedSlot(g.nextSlot, k, n); g.slots[id].sent <= |p.commits[id]|
    ensures var b, id := BuildUpTo(g, env.lay, views, maxFrames, n), VisitedSlot(g.nextSlot, k, n);
            var c, q, q' := p.commits[id], g.slots[id], b.slots[id];
            && !q'.needSnapshot && (id, |c|) in b.completed && AnnouncesRest(p.commits, b.completed)
            && (q'.sent == |c|
                || (!q.needSnapshot && |c| - |p.states[id].log| <= q.sent
                    && CutOff(c, q.sent, q'.sent, b.frames, maxFrames)))
  {
    hide Visit, VisitedSlot, SlotOk, IsVisitOrder, UnpacksWire, SendsImage, HasImage, LogFrames, RecordBytes,
         AnnouncesRest;
    var id := VisitedSlot(g.nextSlot, k, n);
    var c, s, q := p.commits[id], p.states[id], g.slots[id];
    var b0, b1 := BuildUpTo(g, env.lay, views, maxFrames, k), BuildUpTo(g, env.lay, views, maxFrames, k + 1);
    var b := BuildUpTo(g, env.lay, views, maxFrames, n);
    CursorStayedSoRoom(env, n, p, g, views, maxFrames, k);
    SlotMovesOnce(env.lay, g, views, maxFrames, k, k);
    SlotMovesOnce(env.lay, g, views, maxFrames, n, k);
    BatchAnnouncesRest(env, n, p, g, views, maxFrames, n, k);
    assert SlotOk(env, id, c, s);
    if q.needSnapshot || |c| - |s.log| > q.sent {
      RestVisitSendsImage(env, c, s, b0, g.sessionId, id, maxFrames);
    } else {
      var j := RestVisitSendsAllThatFits(env, c, s, b0, g.sessionId, id, maxFrames);
      BatchGrows(env.lay, g, views, maxFrames, k + 1, n);
      MoreFramesCostMore(b1.frames, b.frames);
    }
  }

  lemma RestPublishes(env: Env, id: nat, c: seq<Commit>, s: SlotState)
    requires Valid(env) && SlotOk(env, id, c, s)
    ensures s.published == |c|
  {
  }

  lemma GreetedIsWithin(reset: bool, position: nat, s: SlotState)
    ensures GreetSlot(reset, position, AtRest(s)).sent <= s.published
  {
  }

  /** A quiet HELLO leaves no slot ahead of the primary, and finds it as BEGIN leaves the replica. */
  lemma GreetedWithin(env: Env, heres: Locals, n: nat, p: Primary, call: PollCall, r: Replica, j: nat)
    requires Valid(env) && PrimaryOk(env, n, p) && OwnHello(r, call.hello) && Quiet(p, call) && j < n == |r.slots|
    requires var g := Greeted(p, call);
             QuietStart(env, heres, n, p, r, Begin(g.sessionId, g.reset), g, call.buildViews)
    ensures var g := Greeted(p, call); var s := Delivered(env, heres, r, [Begin(g.sessionId, g.reset)]).slots[j];
            && g.slots[j].sent <= |p.commits[j]|
            && (g.slots[j].needSnapshot <==> s.needSnapshot || |p.commits[j]| - |p.states[j].log| > s.applied)
            && (!g.slots[j].needSnapshot ==> g.slots[j].sent == s.applied)
  {
    hide SlotOk, SessionName, IsVisitOrder, UnpacksWire, GreetSlots, GreetSlot, FindReplica, Delivered, InStep,
         VisitedSlot;
    var g := Greeted(p, call);
    GreetSlotsInOrder(SessionOf(p, call.hello.replicaId).slots, g.reset, call.hello.positions, call.greetViews);
    assert call.hello.positions[j].0 == j;
    RestPublishes(env, j, p.commits[j], p.states[j]);
    GreetedIsWithin(g.reset, call.hello.positions[j].1, p.states[j]);
  }

  /** After DONE a slot that was announced by its last number is Online if that number was sent. */
  lemma DeliveredDone(env: Env, heres: Locals, cs: seq<seq<Commit>>, r: Replica, g: Session, b: Build, j: nat)
    requires InStep(env, heres, cs, r, Batch(g.sessionId, g.reset, b), b.slots, g.sessionId) && j < |b.slots| == |cs|
    requires !b.slots[j].needSnapshot && AnnouncesRest(cs, b.completed) && (j, |cs[j]|) in b.completed
    ensures var s' := Delivered(env, heres, r, Batch(g.sessionId, g.reset, b)).slots[j];
            && s'.applied == b.slots[j].sent && s'.engine.objects == MapAt(cs[j], s'.applied)
            && (s'.applied == |cs[j]| ==> s'.status == Online)
  {
    hide Delivered, ApplyDone, MapAt;
    var sent, done := [Begin(g.sessionId, g.reset)] + b.frames, Done(g.sessionId, b.completed);
    DeliveredSnoc(env, heres, r, sent, done);
    var before, r' := Delivered(env, heres, r, sent), Delivered(env, heres, r, sent + [done]);
    DoneLeavesSlots(before.slots, b.completed);
    assert Mirrors(b.slots[j], r'.slots[j]) && AgreesSlot(cs[j], r'.slots[j]);
    if b.slots[j].sent == |cs[j]| {
      DoneOpens(before.slots, b.completed, j);
    }
  }

  /**
   * One poll without writers, delivered whole, after which the cursor is where it was: every slot is Online with
   * exactly the primary's map, or its records were cut off by 128, by the number of frames or by 16 MiB.
   */
  lemma QuietPollServesSlot(env: Env, heres: Locals, n: nat, p: Primary, call: PollCall, r: Replica, j: nat)
    requires Valid(env) && PrimaryOk(env, n, p) && SessionsOwned(p) && OwnHello(r, call.hello) && Quiet(p, call)
    requires call.hello.version == PROTOCOL_VERSION && call.hello.replicaId != "" && call.maxFrames > 0 && j < n
    requires FitsSession(p.commits, SessionOf(p, call.hello.replicaId).sessionId, r) && PollRuns(env, p, call)
    requires PollAnswer(env, p, call).0.nextSlot == SessionOf(p, call.hello.replicaId).nextSlot
    ensures var frames := PollAnswer(env, p, call).1; var r' := Delivered(env, heres, r, frames);
            var c, s, s' := p.commits[j], AfterBegin(p, call.hello.replicaId, r)[j], r'.slots[j];
            && |frames| >= 2
            && ((s'.status == Online && s'.applied == |c| && s'.engine.objects == MapAt(c, |c|))
                || (!s.needSnapshot && |c| - |p.states[j].log| <= s.applied
                    && CutOff(c, s.applied, s'.applied, frames[1..|frames| - 1], call.maxFrames)))
  {
    hide SlotOk, Sound, BuildUpTo, SessionName, IsVisitOrder, UnpacksWire, GreetSlots, FindReplica, Delivered, Smooth,
         AgreesSlot, ApplyWrites, VisitedSlot, ApplyDone, FitsSession, SessionsOwned, Quiet, AfterBegin, CutOff,
         PollView, AnnouncesRest;
    QuietPollRuns(env, n, p, call);
    PollIsAccepted(env, heres, n, p, call, r);
    QuietPollStarts(env, heres, n, p, call, r);
    var g := Greeted(p, call);
    var k := VisitedAtLast(g.nextSlot, j, n);
    GreetedWithin(env, heres, n, p, call, r, j);
    BatchServesSlot(env, n, p, g, call.buildViews, call.maxFrames, k);
    var b := BuildUpTo(g, env.lay, call.buildViews, call.maxFrames, n);
    assert PollAnswer(env, p, call).1 == Batch(g.sessionId, g.reset, b);
    DeliveredDone(env, heres, p.commits, r, g, b, j);
  }

  // ---- when one poll is enough

  /** The bytes of the records from index `from` on. */
  function BytesFrom(c: seq<Commit>, from: nat): nat
    decreases |c| - from
  {
    if from >= |c| then 0 else RecordBytes(c[from].record) + BytesFrom(c, from + 1)
  }

  /** How many records the slots still miss, and what they cost. */
  function Missing(cs: seq<seq<Commit>>, slots: seq<Progress>): (int, nat)
    requires |cs| == |slots|
  {
    if cs == [] then (0, 0)
    else
      var last := |cs| - 1;
      var (records, bytes) := Missing(cs[..last], slots[..last]);
      (records + |cs[last]| - slots[last].sent, bytes + BytesFrom(cs[last], slots[last].sent))
  }

  lemma {:induction false} MissingOfUpdate(cs: seq<seq<Commit>>, slots: seq<Progress>, id: nat, q: Progress)
    requires |cs| == |slots| && id < |cs|
    ensures var (records, bytes) := Missing(cs, slots); var (records', bytes') := Missing(cs, slots[id := q]);
            && records' == records + slots[id].sent - q.sent
            && bytes' == bytes - BytesFrom(cs[id], slots[id].sent) + BytesFrom(cs[id], q.sent)
            && bytes >= BytesFrom(cs[id], slots[id].sent)
  {
    var last := |cs| - 1;
    if id == last {
      assert slots[id := q][..last] == slots[..last];
    } else {
      assert slots[id := q][..last] == slots[..last][id := q];
      MissingOfUpdate(cs[..last], slots[..last], id, q);
    }
  }

  lemma {:induction false} NoneMissesLess(cs: seq<seq<Commit>>, slots: seq<Progress>)
    requires |cs| == |slots| && forall j :: 0 <= j < |cs| ==> slots[j].sent <= |cs[j]|
    ensures Missing(cs, slots).0 >= 0
  {
    if cs == [] {
    } else {
      NoneMissesLess(cs[..|cs| - 1], slots[..|cs| - 1]);
    }
  }

  lemma NextBytes(c: seq<Commit>, from: nat)
    requires from < |c|
    ensures BytesFrom(c, from) == RecordBytes(c[from].record) + BytesFrom(c, from + 1)
  {
  }

  lemma {:induction false} LogFramesCost(frames: seq<Frame>, session: string, id: nat, c: seq<Commit>, sent: nat,
                                         j: nat)
    requires sent + j <= |c|
    ensures BatchBytes(frames + LogFrames(session, id, c, sent, j)) + BytesFrom(c, sent + j)
            == BatchBytes(frames) + BytesFrom(c, sent)
    decreases j
  {
    hide RecordBytes, BatchBytes, BytesFrom, LogFrames;
    if j == 0 {
      assert frames + LogFrames(session, id, c, sent, 0) == frames;
    } else {
      NextBytes(c, sent);
      NextLogFrame(frames, session, id, c, sent, j);
      BatchBytesSnoc(frames, Log(session, id, c[sent].record));
      LogFramesCost(frames + [Log(session, id, c[sent].record)], session, id, c, sent + 1, j - 1);
    }
  }

  /** Every slot misses few records that are all retained, and all of them fit into one batch. */
  ghost predicate FitsOneBatch(p: Primary, slots: seq<Progress>, maxFrames: nat) {
    && |slots| == |p.commits| == |p.states|
    && (forall j :: 0 <= j < |slots| ==>
          !slots[j].needSnapshot && |p.commits[j]| - |p.states[j].log| <= slots[j].sent <= |p.commits[j]|
          && |p.commits[j]| - slots[j].sent <= 128)
    && Missing(p.commits, slots).0 < maxFrames && Missing(p.commits, slots).1 < 16 * 1024 * 1024
  }

  /** Such a batch goes on to its last slot. */
  ghost predicate Unhindered(p: Primary, g: Session, b: Build) {
    && |b.slots| == |g.slots| == |p.commits| && !b.full && b.nextSlot == g.nextSlot
    && (forall j :: 0 <= j < |b.slots| ==> b.slots[j].sent <= |p.commits[j]|)
    && |b.frames| + Missing(p.commits, b.slots).0 == Missing(p.commits, g.slots).0
    && BatchBytes(b.frames) + Missing(p.commits, b.slots).1 == Missing(p.commits, g.slots).1
  }

  lemma NextCosts(c: seq<Commit>, from: nat)
    ensures from < |c| ==> BytesFrom(c, from) >= RecordBytes(c[from].record)
  {
  }

  lemma UnhinderedVisit(env: Env, n: nat, p: Primary, g: Session, b: Build, id: nat, maxFrames: nat)
    requires Valid(env) && PrimaryOk(env, n, p) && |g.slots| == n && id < n && FitsOneBatch(p, g.slots, maxFrames)
    requires Unhindered(p, g, b) && WithinLimits(b, maxFrames) && b.slots[id] == g.slots[id]
    ensures Unhindered(p, g, Visit(b, g.sessionId, env.lay, id, AtRest(p.states[id]), maxFrames))
  {
    hide SlotOk, IsVisitOrder, UnpacksWire, LogFrames, RecordBytes, BatchBytes, BytesFrom, Missing, Visit;
    var c, q := p.commits[id], b.slots[id];
    NoneMissesLess(p.commits, b.slots);
    assert SlotOk(env, id, c, p.states[id]);
    var b' := Visit(b, g.sessionId, env.lay, id, AtRest(p.states[id]), maxFrames);
    VisitKeepsLimits(b, g.sessionId, env.lay, id, AtRest(p.states[id]), maxFrames);
    var j := RestVisitSendsAllThatFits(env, c, p.states[id], b, g.sessionId, id, maxFrames);
    LogFramesCost(b.frames, g.sessionId, id, c, q.sent, j);
    MissingOfUpdate(p.commits, b.slots, id, q.(sent := q.sent + j));
    MissingOfUpdate(p.commits, b'.slots, id, b'.slots[id]);
    NoneMissesLess(p.commits, b'.slots);
    NextCosts(c, q.sent + j);
  }

  lemma FreshBatchIsUnhindered(p: Primary, g: Session, maxFrames: nat)
    requires FitsOneBatch(p, g.slots, maxFrames)
    ensures Unhindered(p, g, StartBuild(g))
  {
  }

  lemma {:induction false} UnhinderedBatch(env: Env, n: nat, p: Primary, g: Session, views: seq<View>, maxFrames: nat,
                                           i: nat)
    requires Valid(env) && PrimaryOk(env, n, p) && |g.slots| == |views| == n && i <= n
    requires FitsOneBatch(p, g.slots, maxFrames)
    requires forall m :: 0 <= m < n ==> views[m] == AtRest(p.states[VisitedSlot(g.nextSlot, m, n)])
    ensures Unhindered(p, g, BuildUpTo(g, env.lay, views, maxFrames, i))
  {
    hide Visit, VisitedSlot, WithinLimits, SlotOk, IsVisitOrder, UnpacksWire, Unhindered, FitsOneBatch, SendsImage,
         HasImage;
    if i == 0 {
      FreshBatchIsUnhindered(p, g, maxFrames);
    } else {
      UnhinderedBatch(env, n, p, g, views, maxFrames, i - 1);
      SlotMovesOnce(env.lay, g, views, maxFrames, i - 1, i - 1);
      UnhinderedVisit(env, n, p, g, BuildUpTo(g, env.lay, views, maxFrames, i - 1), VisitedSlot(g.nextSlot, i - 1, n),
                      maxFrames);
    }
  }

  /** The slots of the replica as its HELLO reports them. */
  function Reported(slots: seq<ReplicaSlot>): (r: seq<Progress>)
    ensures |r| == |slots|
    ensures forall j :: 0 <= j < |slots| ==> r[j] == Progress(slots[j].applied, slots[j].applied, slots[j].needSnapshot)
  {
    seq(|slots|, j requires 0 <= j < |slots| => Progress(slots[j].applied, slots[j].applied, slots[j].needSnapshot))
  }

  lemma {:induction false} MissingOfSame(cs: seq<seq<Commit>>, a: seq<Progress>, b: seq<Progress>)
    requires |cs| == |a| == |b| && forall j :: 0 <= j < |cs| ==> a[j].sent == b[j].sent
    ensures Missing(cs, a) == Missing(cs, b)
  {
    if cs == [] {
    } else {
      MissingOfSame(cs[..|cs| - 1], a[..|a| - 1], b[..|b| - 1]);
    }
  }

  /**
   * One poll is enough: if no slot waits for an image or misses more than 128 writes, all of them retained, and
   * together they are fewer than the poll asks for and take less than 16 MiB, then after one poll without writers,
   * delivered whole, every slot is Online with exactly the primary's map.
   */
  lemma OnePollIsEnough(env: Env, heres: Locals, n: nat, p: Primary, call: PollCall, r: Replica)
    requires Valid(env) && PrimaryOk(env, n, p) && SessionsOwned(p) && OwnHello(r, call.hello) && Quiet(p, call)
    requires call.hello.version == PROTOCOL_VERSION && call.hello.replicaId != ""
    requires FitsSession(p.commits, SessionOf(p, call.hello.replicaId).sessionId, r)
    requires FitsOneBatch(p, Reported(AfterBegin(p, call.hello.replicaId, r)), call.maxFrames)
    ensures PollRuns(env, p, call) && AllOnline(p.commits, Delivered(env, heres, r, PollAnswer(env, p, call).1))
  {
    hide SlotOk, Sound, BuildUpTo, SessionName, IsVisitOrder, UnpacksWire, GreetSlots, FindReplica, Delivered, Smooth,
         AgreesSlot, ApplyWrites, VisitedSlot, ApplyDone, FitsSession, SessionsOwned, Quiet, AfterBegin, PollView,
         AnnouncesRest, Missing, BatchBytes, BytesFrom, RecordBytes;
    QuietPollRuns(env, n, p, call);
    PollIsAccepted(env, heres, n, p, call, r);
    QuietPollStarts(env, heres, n, p, call, r);
    var g, slots := Greeted(p, call), AfterBegin(p, call.hello.replicaId, r);
    forall j | 0 <= j < n
      ensures g.slots[j].sent == slots[j].applied && !g.slots[j].needSnapshot
    {
      GreetedWithin(env, heres, n, p, call, r, j);
    }
    MissingOfSame(p.commits, g.slots, Reported(slots));
    NoneMissesLess(p.commits, g.slots);
    UnhinderedBatch(env, n, p, g, call.buildViews, call.maxFrames, n);
    var b := BuildUpTo(g, env.lay, call.buildViews, call.maxFrames, n);
    assert PollAnswer(env, p, call).1 == Batch(g.sessionId, g.reset, b);
    forall j | 0 <= j < n
      ensures var s' := Delivered(env, heres, r, Batch(g.sessionId, g.reset, b)).slots[j];
              s'.status == Online && s'.engine.objects == MapAt(p.commits[j], |p.commits[j]|)
    {
      var k := VisitedAtLast(g.nextSlot, j, n);
      BatchServesSlot(env, n, p, g, call.buildViews, call.maxFrames, k);
      MissingOfUpdate(p.commits, b.slots, j, b.slots[j]);
      NoneMissesLess(p.commits, b.slots);
      NextCosts(p.commits[j], b.slots[j].sent);
      DeliveredDone(env, heres, p.commits, r, g, b, j);
    }
  }
}
