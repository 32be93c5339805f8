/** Starvation freedom: the rotating cursor gives every slot its turn within as many polls as there are slots. */
module Rotation {
  import opened Order
  import opened SnapshotCodec
  import opened FrameCodec
  import opened Master
  import opened Slave
  import opened History
  import opened Agreement
  import opened Primary
  import opened Delivery
  import opened Visits
  import opened Convergence

  // ---- batches

  /** In visit k of the batch its slot has its turn. */
  ghost predicate TurnAt(env: Env, cs: seq<seq<Commit>>, g: Session, views: seq<View>, maxFrames: nat, k: nat)
    requires Valid(env) && k < |views| == |g.slots| == |cs|
  {
    var id := VisitedSlot(g.nextSlot, k, |views|);
    TakesTurn(env, cs[id], BuildUpTo(g, env.lay, views, maxFrames, k), BuildUpTo(g, env.lay, views, maxFrames, k + 1),
              g.sessionId, id, views[k])
  }

  /** After i visits: the first d slots had their turn; a batch that ended early left the cursor right behind them. */
  ghost predicate TurnsUpTo(env: Env, cs: seq<seq<Commit>>, g: Session, views: seq<View>, maxFrames: nat, i: nat,
                            d: nat)
    requires Valid(env) && i <= |views| == |g.slots| == |cs| && 0 < |views|
  {
    var b := BuildUpTo(g, env.lay, views, maxFrames, i);
    && d <= i && (forall k :: 0 <= k < d ==> TurnAt(env, cs, g, views, maxFrames, k))
    && (d == 0 ==> b.frames == [])
    && if b.full then 0 < d && b.nextSlot == VisitedSlot(g.nextSlot, d, |views|)
       else d == i && b.nextSlot == g.nextSlot && |b.frames| < maxFrames
  }

  lemma NextRemainder(x: nat, n: nat)
    requires n > 0
    ensures (x % n + 1) % n == (x + 1) % n
  {
    var q, r := x / n, x % n;
    var full := q * n;
    assert x == full + r;
    assert (q + 1) * n == full + n;
    if r + 1 < n {
      RemainderIs(x + 1, q, r + 1, n);
      RemainderIs(r + 1, 0, r + 1, n);
    } else {
      RemainderIs(x + 1, q + 1, 0, n);
      RemainderIs(n, 1, 0, n);
    }
  }

  lemma NextVisited(start: nat, i: nat, n: nat)
    requires n > 0
    ensures (VisitedSlot(start, i, n) + 1) % n == VisitedSlot(start, i + 1, n)
  {
    NextRemainder(start + i, n);
  }

  lemma FullVisitStays(b: Build, session: string, lay: Layout, id: nat, v: View, maxFrames: nat)
    requires id < |b.slots| && IsVisitOrder(lay.order) && b.full
    ensures var b' := Visit(b, session, lay, id, v, maxFrames);
            b'.full && b'.nextSlot == b.nextSlot && b'.frames == b.frames
  {
  }

  lemma {:induction false} BatchRotates(env: Env, cs: seq<seq<Commit>>, ts: seq<nat>, g: Session, views: seq<View>,
                                        maxFrames: nat, i: nat) returns (d: nat)
    requires Valid(env) && AllSound(env, cs) && 0 < |cs| == |ts| == |views| == |g.slots| && i <= |cs| && maxFrames > 0
    requires forall k {:trigger views[k]} :: 0 <= k < |views| ==>
               var id := VisitedSlot(g.nextSlot, k, |cs|); SeenInOrder(cs[id], ts[id], views[k])
    ensures TurnsUpTo(env, cs, g, views, maxFrames, i, d) && (i > 0 ==> d > 0)
  {
    hide Visit, Sound, SeenInOrder, VisitedSlot, IsVisitOrder, UnpacksWire, BatchBytes, TakesTurn;
    if i == 0 {
      return 0;
    }
    d := BatchRotates(env, cs, ts, g, views, maxFrames, i - 1);
    var b := BuildUpTo(g, env.lay, views, maxFrames, i - 1);
    var id := VisitedSlot(g.nextSlot, i - 1, |views|);
    if b.full {
      FullVisitStays(b, g.sessionId, env.lay, id, views[i - 1], maxFrames);
    } else {
      assert SeenInOrder(cs[id], ts[id], views[i - 1]);
      VisitTakesTurn(env, cs[id], ts[id], b, g.sessionId, id, views[i - 1], maxFrames);
      NextVisited(g.nextSlot, i - 1, |views|);
      var b' := BuildUpTo(g, env.lay, views, maxFrames, i);
      if !b'.full || b'.nextSlot != id || b.frames == [] {
        assert TurnAt(env, cs, g, views, maxFrames, i - 1);
        d := i;
      }
    }
  }

  // ---- runs of a primary

  /** A poll of this replica that runs and may send something. */
  ghost predicate PollsFor(env: Env, p: Primary, e: PrimaryEvent, replicaId: string)
    requires Valid(env)
  {
    e.Polled? && PollRuns(env, p, e.call) && e.call.hello.replicaId == replicaId && e.call.maxFrames > 0
  }

  /**
   * In visit k of the poll slot j has its turn: as HELLO left it, it gets a frame if it is due, exactly unless it is
   * passed over; and if the HELLO names it, it is never passed over.
   */
  ghost predicate TurnInVisit(env: Env, n: nat, p: Primary, call: PollCall, j: nat, k: nat)
    requires Valid(env) && PollRuns(env, p, call)
  {
    var w, g := ApplyWrites(env, p, call.during), Greeted(p, call);
    && k < n == |g.slots| == |call.buildViews| == |w.commits| && VisitedSlot(g.nextSlot, k, n) == j
    && TurnAt(env, w.commits, g, call.buildViews, call.maxFrames, k)
    && BuildUpTo(g, env.lay, call.buildViews, call.maxFrames, k).slots[j] == g.slots[j]
    && (Names(call.hello, j) ==> !PassedOver(g.slots[j], call.buildViews[k]))
  }

  ghost predicate HasTurn(env: Env, n: nat, p: Primary, call: PollCall, j: nat)
    requires Valid(env) && PollRuns(env, p, call)
  {
    exists k :: TurnInVisit(env, n, p, call, j, k)
  }

  /** The image of the slot if it is flagged or its next record may be gone, and its next record otherwise. */
  ghost predicate Answered(env: Env, c: seq<Commit>, q: Progress, v: View, session: string, j: nat, frames: seq<Frame>)
    requires IsVisitOrder(env.lay.order)
  {
    if q.needSnapshot || !HasBacklog(v, q.sent + 1)
    then Snapshot(session, j, v.last.published, Wire(SnapshotCodec.Encode(env.lay, v.last.objects))) in frames
    else q.sent < |c| && Log(session, j, c[q.sent].record) in frames
  }

  /** In visit k the poll looks at slot j; if the slot is due, as HELLO left it, the answer holds a frame of it. */
  ghost predicate ServedInVisit(env: Env, n: nat, p: Primary, call: PollCall, j: nat, k: nat)
    requires Valid(env) && PollRuns(env, p, call)
  {
    var w, g := ApplyWrites(env, p, call.during), Greeted(p, call);
    && k < n == |g.slots| == |call.buildViews| == |w.commits| && VisitedSlot(g.nextSlot, k, n) == j
    && (Due(g.slots[j], call.buildViews[k]) ==>
          Answered(env, w.commits[j], g.slots[j], call.buildViews[k], g.sessionId, j, PollAnswer(env, p, call).1))
  }

  ghost predicate ServesSlot(env: Env, n: nat, p: Primary, call: PollCall, j: nat)
    requires Valid(env) && PollRuns(env, p, call)
  {
    exists k :: ServedInVisit(env, n, p, call, j, k)
  }

  lemma FrameIsAnswered(env: Env, c: seq<Commit>, g: Session, views: seq<View>, maxFrames: nat, j: nat, k: nat)
    requires Valid(env) && k < |views| == |g.slots| && VisitedSlot(g.nextSlot, k, |views|) == j
    requires var b := BuildUpTo(g, env.lay, views, maxFrames, k);
             && b.slots[j] == g.slots[j]
             && GetsFrame(env, c, b, BuildUpTo(g, env.lay, views, maxFrames, k + 1), g.sessionId, j, views[k])
    ensures Answered(env, c, g.slots[j], views[k], g.sessionId, j,
                     Batch(g.sessionId, g.reset, BuildUpTo(g, env.lay, views, maxFrames, |views|)))
  {
    hide BuildUpTo, VisitedSlot, Wire, SnapshotCodec.Encode, HasBacklog, IsVisitOrder, UnpacksWire;
    var b', all := BuildUpTo(g, env.lay, views, maxFrames, k + 1), BuildUpTo(g, env.lay, views, maxFrames, |views|);
    var at := |BuildUpTo(g, env.lay, views, maxFrames, k).frames|;
    BatchGrows(env.lay, g, views, maxFrames, k + 1, |views|);
    assert b'.frames[at] == all.frames[at] && all.frames[at] in all.frames;
  }

  lemma NamedTurnServes(env: Env, n: nat, p: Primary, call: PollCall, j: nat)
    requires Valid(env) && PollRuns(env, p, call) && HasTurn(env, n, p, call, j) && Names(call.hello, j)
    ensures ServesSlot(env, n, p, call, j)
  {
    hide ApplyWrites, BuildUpTo, GetsFrame, Answered, PassedOver, VisitedSlot, PollView, Names, GreetSlots, SessionName,
         IsVisitOrder, UnpacksWire;
    var k: nat :| TurnInVisit(env, n, p, call, j, k);
    var w, g := ApplyWrites(env, p, call.during), Greeted(p, call);
    if Due(g.slots[j], call.buildViews[k]) {
      FrameIsAnswered(env, w.commits[j], g, call.buildViews, call.maxFrames, j, k);
    }
    assert ServedInVisit(env, n, p, call, j, k);
  }

  /** How many polls of the replica the run contains. */
  ghost function PollCount(env: Env, p: Primary, events: seq<PrimaryEvent>, replicaId: string): nat
    requires Valid(env)
    decreases |events|
  {
    if events == [] then 0
    else (if PollsFor(env, p, events[0], replicaId) then 1 else 0)
         + PollCount(env, PrimaryNext(env, p, events[0]).0, events[1..], replicaId)
  }

  /** Slot j has its turn in some poll of the replica in the run. */
  ghost predicate RunHasTurn(env: Env, n: nat, p: Primary, events: seq<PrimaryEvent>, replicaId: string, j: nat)
    requires Valid(env)
    decreases |events|
  {
    events != [] &&
    ((PollsFor(env, p, events[0], replicaId) && HasTurn(env, n, p, events[0].call, j))
     || RunHasTurn(env, n, PrimaryNext(env, p, events[0]).0, events[1..], replicaId, j))
  }

  /** Some poll of the replica in the run serves slot j. */
  ghost predicate RunServes(env: Env, n: nat, p: Primary, events: seq<PrimaryEvent>, replicaId: string, j: nat)
    requires Valid(env)
    decreases |events|
  {
    events != [] &&
    ((PollsFor(env, p, events[0], replicaId) && ServesSlot(env, n, p, events[0].call, j))
     || RunServes(env, n, PrimaryNext(env, p, events[0]).0, events[1..], replicaId, j))
  }

  /** No poll of the replica asks for 0 frames; such a poll would move the cursor on and send nothing. */
  ghost predicate AsksForFrames(events: seq<PrimaryEvent>, replicaId: string) {
    forall e :: e in events && e.Polled? && e.call.hello.Hello? && e.call.hello.replicaId == replicaId ==>
      e.call.maxFrames > 0
  }

  /** Every HELLO of the replica names the slot. */
  ghost predicate AlwaysNames(events: seq<PrimaryEvent>, replicaId: string, j: nat) {
    forall e :: e in events && e.Polled? && e.call.hello.Hello? && e.call.hello.replicaId == replicaId ==>
      Names(e.call.hello, j)
  }

  /** A named slot is greeted before it is visited, and so not passed over. */
  lemma GreetedSlotIsNotPassedOver(env: Env, n: nat, p: Primary, call: PollCall, k: nat)
    requires Valid(env) && PrimaryOk(env, n, p) && SessionsOwned(p) && PollRuns(env, p, call) && k < n
    ensures var g := Greeted(p, call); var j := VisitedSlot(g.nextSlot, k, n);
            |g.slots| == |call.buildViews| == n
            && (Names(call.hello, j) ==> !PassedOver(g.slots[j], call.buildViews[k]))
  {
    hide ApplyWrites, SlotOk, Sound, SeenInOrder, SessionName, IsVisitOrder, UnpacksWire, GreetSlots, GreetSlot,
         VisitedSlot, FindReplica, PassedOver;
    var w, g, replica := ApplyWrites(env, p, call.during), Greeted(p, call), SessionOf(p, call.hello.replicaId);
    var j := VisitedSlot(g.nextSlot, k, n);
    WritesKeepPrimary(env, n, p, call.during);
    SessionOfIsTracked(env, n, p, call.hello.replicaId);
    var ts := PrimaryIsSound(env, n, w);
    var i := LastNamed(call.hello.positions, j);
    LastNamingGreets(replica.slots, g.reset, call.hello.positions, call.greetViews, j);
    if i < |call.hello.positions| {
      assert PollView(p, w, j, call.greetViews[i]) && PollView(p, w, j, call.buildViews[k]);
      NamedSlotIsNotPassedOver(env, j, w.commits[j], ts[j], call.greetViews[i], call.buildViews[k], g.reset,
                               call.hello.positions[i].1);
    }
  }

  /** A poll gives the slots from the cursor on their turn, and leaves the cursor on the first that has none. */
  lemma PollRotates(env: Env, n: nat, p: Primary, call: PollCall) returns (d: nat)
    requires Valid(env) && PrimaryOk(env, n, p) && SessionsOwned(p) && PollRuns(env, p, call) && call.maxFrames > 0
    ensures var start := SessionOf(p, call.hello.replicaId).nextSlot;
            && 0 < d <= n && (forall k :: 0 <= k < d ==> HasTurn(env, n, p, call, VisitedSlot(start, k, n)))
            && (d < n ==> PollAnswer(env, p, call).0.nextSlot == VisitedSlot(start, d, n))
  {
    hide ApplyWrites, SlotOk, Sound, SeenInOrder, SessionName, IsVisitOrder, UnpacksWire, GreetSlots, VisitedSlot,
         BuildUpTo, FindReplica, TurnAt, PassedOver, HasImage, Names;
    var w, g := ApplyWrites(env, p, call.during), Greeted(p, call);
    WritesKeepPrimary(env, n, p, call.during);
    var ts := PrimaryIsSound(env, n, w);
    SessionOfIsTracked(env, n, p, call.hello.replicaId);
    forall k {:trigger call.buildViews[k]} | 0 <= k < n
      ensures var id := VisitedSlot(g.nextSlot, k, n); SeenInOrder(w.commits[id], ts[id], call.buildViews[k])
    {
      assert PollView(p, w, VisitedSlot(g.nextSlot, k, n), call.buildViews[k]);
    }
    d := BatchRotates(env, w.commits, ts, g, call.buildViews, call.maxFrames, n);
    forall k | 0 <= k < d
      ensures HasTurn(env, n, p, call, VisitedSlot(g.nextSlot, k, n))
    {
      SlotMovesOnce(env.lay, g, call.buildViews, call.maxFrames, k, k);
      GreetedSlotIsNotPassedOver(env, n, p, call, k);
      assert TurnInVisit(env, n, p, call, VisitedSlot(g.nextSlot, k, n), k);
    }
  }

  /** A session placed for one replica leaves every other replica's session where it is found. */
  lemma OthersAreFound(replicas: seq<Session>, replicaId: string, session: Session, other: string)
    requires session.replicaId == replicaId != other
    ensures var r := FindReplica(replicas, replicaId);
            var next := if r < |replicas| then replicas[r := session] else replicas + [session];
            var o := FindReplica(replicas, other);
            if o < |replicas| then FindReplica(next, other) == o && next[o] == replicas[o]
            else FindReplica(next, other) == |next|
  {
    hide FindReplica;
    var r, o := FindReplica(replicas, replicaId), FindReplica(replicas, other);
    var next := if r < |replicas| then replicas[r := session] else replicas + [session];
    FoundFirst(next, other, if o < |replicas| then o else |next|);
  }

  lemma OtherPollKeepsSession(env: Env, n: nat, p: Primary, call: PollCall, other: string)
    requires Valid(env) && PrimaryOk(env, n, p) && PollRuns(env, p, call) && call.hello.replicaId != other
    ensures SessionOf(PollPrimary(env, p, call).0, other) == SessionOf(p, other)
  {
    hide ApplyWrites, SlotOk, BuildUpTo, SessionName, GreetSlots, PollSees, IsVisitOrder, UnpacksWire;
    WritesKeepPrimary(env, n, p, call.during);
    OthersAreFound(p.replicas, call.hello.replicaId, PollAnswer(env, p, call).0, other);
  }

  /**
   * Nothing but the replica's own polls moves its cursor: no refused HELLO, no write, no maintenance and no poll of
   * another replica. Its own poll moves it to where the batch ended.
   */
  lemma OnlyOwnPollsMoveCursor(env: Env, n: nat, p: Primary, e: PrimaryEvent, replicaId: string)
    requires Valid(env) && PrimaryOk(env, n, p)
    ensures var p' := PrimaryNext(env, p, e).0;
            SessionOf(p', replicaId).nextSlot ==
              if e.Polled? && PollRuns(env, p, e.call) && e.call.hello.replicaId == replicaId
              then PollAnswer(env, p, e.call).0.nextSlot else SessionOf(p, replicaId).nextSlot
  {
    hide ApplyWrite, MaintainPrimary, SlotOk, FindReplica, ApplyWrites, PollSees, PollAnswer;
    match e
    case Wrote(write) => WriteKeepsPrimary(env, n, p, write);
    case Maintained(upkeep) => MaintenanceKeepsSession(env, n, p, upkeep, replicaId);
    case Polled(call) =>
      if PollRuns(env, p, call) {
        if call.hello.replicaId == replicaId {
          PolledSessionIsFound(env, p, call);
        } else {
          OtherPollKeepsSession(env, n, p, call, replicaId);
        }
      }
    case Budgeted(_) =>
  }

  lemma AddRemainder(x: nat, y: nat, n: nat)
    requires n > 0
    ensures (x % n + y) % n == (x + y) % n
  {
    var q, r := x / n, x % n;
    var q', r' := (r + y) / n, (r + y) % n;
    assert x == q * n + r && r + y == q' * n + r';
    assert (q + q') * n == q * n + q' * n;
    RemainderIs(x + y, q + q', r', n);
  }

  lemma VisitedFrom(start: nat, start': nat, d: nat, k: nat, n: nat)
    requires d <= k < n && start' == VisitedSlot(start, d, n)
    ensures VisitedSlot(start', k - d, n) == VisitedSlot(start, k, n)
  {
    AddRemainder(start + d, k - d, n);
  }

  lemma OtherEvent(env: Env, p: Primary, e: PrimaryEvent, replicaId: string)
    requires Valid(env) && AsksForFrames([e], replicaId) && !PollsFor(env, p, e, replicaId)
    ensures !(e.Polled? && PollRuns(env, p, e.call) && e.call.hello.replicaId == replicaId)
  {
    hide ApplyWrites;
    assert e in [e];
  }

  /** The slot that lies k places after the cursor has had its turn after k + 1 polls of the replica. */
  lemma {:induction false} TurnComes(env: Env, n: nat, p: Primary, events: seq<PrimaryEvent>, replicaId: string, j: nat,
                                     k: nat)
    requires Valid(env) && PrimaryOk(env, n, p) && SessionsOwned(p) && AsksForFrames(events, replicaId)
    requires k < n && VisitedSlot(SessionOf(p, replicaId).nextSlot, k, n) == j
             && PollCount(env, p, events, replicaId) > k
    ensures RunHasTurn(env, n, p, events, replicaId, j)
    decreases |events|
  {
    hide VisitedSlot, HasTurn, PrimaryNext, PollRuns, PollAnswer, PrimaryOk, SessionOf, SessionsOwned;
    var e, p' := events[0], PrimaryNext(env, p, events[0]).0;
    assert AsksForFrames(events[1..], replicaId);
    EventKeepsPrimary(env, n, p, e);
    OnlyOwnPollsMoveCursor(env, n, p, e, replicaId);
    if PollsFor(env, p, e, replicaId) {
      var d := PollRotates(env, n, p, e.call);
      if k >= d {
        VisitedFrom(SessionOf(p, replicaId).nextSlot, SessionOf(p', replicaId).nextSlot, d, k, n);
        TurnComes(env, n, p', events[1..], replicaId, j, k - d);
      }
    } else {
      OtherEvent(env, p, e, replicaId);
      TurnComes(env, n, p', events[1..], replicaId, j, k);
    }
  }

  lemma {:induction false} NamedTurnsServe(env: Env, n: nat, p: Primary, events: seq<PrimaryEvent>, replicaId: string,
                                           j: nat)
    requires Valid(env) && RunHasTurn(env, n, p, events, replicaId, j) && AlwaysNames(events, replicaId, j)
    ensures RunServes(env, n, p, events, replicaId, j)
    decreases |events|
  {
    hide HasTurn, ServesSlot, PrimaryNext, ApplyWrites, PollSees, Names;
    var e := events[0];
    assert e in events && AlwaysNames(events[1..], replicaId, j);
    if PollsFor(env, p, e, replicaId) && HasTurn(env, n, p, e.call, j) {
      NamedTurnServes(env, n, p, e.call, j);
    } else {
      NamedTurnsServe(env, n, PrimaryNext(env, p, e).0, events[1..], replicaId, j);
    }
  }

  /**
   * In every run of a primary that contains n polls of a replica over n slots, whatever is written, maintained and
   * polled by others meanwhile and whatever its HELLOs name, each slot has its turn in one of those polls.
   */
  lemma EveryTurnComes(env: Env, n: nat, p: Primary, events: seq<PrimaryEvent>, replicaId: string, j: nat)
    requires Valid(env) && PrimaryOk(env, n, p) && SessionsOwned(p) && AsksForFrames(events, replicaId)
    requires PollCount(env, p, events, replicaId) >= n && j < n
    ensures RunHasTurn(env, n, p, events, replicaId, j)
  {
    hide HasTurn, PollCount, PrimaryOk, SessionOf, SessionsOwned;
    var k := VisitedAtLast(SessionOf(p, replicaId).nextSlot, j, n);
    TurnComes(env, n, p, events, replicaId, j, k);
  }

  /** If its HELLOs name the slot, as a replica's do, the slot is served: if it is due, a frame of it is sent. */
  lemma NoSlotStarves(env: Env, n: nat, p: Primary, events: seq<PrimaryEvent>, replicaId: string, j: nat)
    requires Valid(env) && PrimaryOk(env, n, p) && SessionsOwned(p) && AsksForFrames(events, replicaId)
    requires AlwaysNames(events, replicaId, j) && PollCount(env, p, events, replicaId) >= n && j < n
    ensures RunServes(env, n, p, events, replicaId, j)
  {
    hide RunHasTurn, RunServes, PollCount, PrimaryOk, SessionsOwned;
    EveryTurnComes(env, n, p, events, replicaId, j);
    NamedTurnsServe(env, n, p, events, replicaId, j);
  }
}
