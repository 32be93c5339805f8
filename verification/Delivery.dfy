/**
 * The link (src/repl/replication_link.cpp:96-107): the frames of one batch reach the replica in order, up to a cut.
 * Every frame of a batch that answers the replica's own HELLO is accepted, and no slot ever moves back.
 */
module Delivery {
  import opened Core
  import opened Binlog
  import opened HashSlot
  import opened Order
  import opened SnapshotCodec
  import opened FrameCodec
  import opened Master
  import opened Slave
  import opened History
  import opened Agreement
  import opened Primary

  /** The replica's clock and random choices as frame i of a batch arrives. */
  type Locals = nat -> Local

  /** The replica after the frames, one after the other. */
  ghost function Delivered(env: Env, heres: Locals, r: Replica, frames: seq<Frame>): (r': Replica)
    ensures |r'.slots| == |r.slots|
    decreases |frames|
  {
    if frames == [] then r
    else
      var last := |frames| - 1;
      Enqueue(env, heres(last), Delivered(env, heres, r, frames[..last]), frames[last]).0
  }

  /** No slot falls behind. */
  ghost predicate Climbs(r: Replica, r': Replica) {
    |r.slots| == |r'.slots| && forall i :: 0 <= i < |r.slots| ==> r.slots[i].applied <= r'.slots[i].applied
  }

  /** Every frame is accepted, and after the BEGIN no frame moves a slot back. */
  ghost predicate Smooth(env: Env, heres: Locals, r: Replica, frames: seq<Frame>)
    decreases |frames|
  {
    frames != [] ==>
      var last := |frames| - 1;
      var before := Delivered(env, heres, r, frames[..last]);
      var (after, ok) := Enqueue(env, heres(last), before, frames[last]);
      Smooth(env, heres, r, frames[..last]) && ok && (frames[last].Begin? || Climbs(before, after))
  }

  lemma {:induction false} SmoothUpToACut(env: Env, heres: Locals, r: Replica, frames: seq<Frame>, cut: nat)
    requires cut <= |frames| && Smooth(env, heres, r, frames)
    ensures Smooth(env, heres, r, frames[..cut])
    decreases |frames|
  {
    if cut < |frames| {
      SmoothUpToACut(env, heres, r, frames[..|frames| - 1], cut);
      assert frames[..|frames| - 1][..cut] == frames[..cut];
    } else {
      assert frames[..cut] == frames;
    }
  }

  /** The primary's view of a slot matches the replica's: its number, or that it needs an image. */
  ghost predicate Mirrors(p: Progress, s: ReplicaSlot) {
    if s.needSnapshot then p.needSnapshot else p.sent == s.applied
  }

  ghost predicate MirrorsAll(slots: seq<Progress>, r: Replica) {
    |slots| == |r.slots| && forall i :: 0 <= i < |slots| ==> Mirrors(slots[i], r.slots[i])
  }

  // ---- HELLO and BEGIN

  lemma {:induction false} GreetSlotsInOrder(slots: seq<Progress>, reset: bool, positions: seq<Position>,
                                             views: seq<View>)
    requires |views| == |positions| <= |slots| && forall i :: 0 <= i < |positions| ==> positions[i].0 == i
    ensures var r := GreetSlots(slots, reset, positions, views);
            && (forall i :: 0 <= i < |positions| ==> r[i] == GreetSlot(reset, positions[i].1, views[i]))
            && (forall i :: |positions| <= i < |slots| ==> r[i] == slots[i])
    decreases |positions|
  {
    if positions == [] {
    } else {
      GreetSlotsInOrder(slots, reset, positions[..|positions| - 1], views[..|positions| - 1]);
    }
  }

  /** A HELLO that carries the replica's session and all its positions. */
  predicate OwnHello(r: Replica, hello: Frame) {
    hello.Hello? && hello.session == r.session && hello.positions == Slave.Positions(r)
  }

  /** A slot as BEGIN leaves it. */
  function Begun(reset: bool, s: ReplicaSlot): ReplicaSlot {
    if reset then Reset(s) else s
  }

  lemma GreetingMirrors(reset: bool, c: seq<Commit>, s: ReplicaSlot, v: View)
    requires |c| < U64_MAX && AgreesSlot(c, Begun(reset, s)) && |c| <= v.first.published < U64_MAX
    ensures Mirrors(GreetSlot(reset, if s.needSnapshot then U64_MAX else s.applied, v), Begun(reset, s))
  {
  }

  // ---- data frames

  /** Everything sent so far was accepted, and the primary's view of every slot matches the replica. */
  ghost predicate InStep(env: Env, heres: Locals, cs: seq<seq<Commit>>, r: Replica, sent: seq<Frame>,
                         slots: seq<Progress>, session: string)
  {
    var r' := Delivered(env, heres, r, sent);
    Smooth(env, heres, r, sent) && Agrees(cs, r') && MirrorsAll(slots, r') && r'.session == session != ""
  }

  lemma DeliveredSnoc(env: Env, heres: Locals, r: Replica, sent: seq<Frame>, f: Frame)
    ensures Delivered(env, heres, r, sent + [f]) == Enqueue(env, heres(|sent|), Delivered(env, heres, r, sent), f).0
    ensures Smooth(env, heres, r, sent + [f]) <==>
              Smooth(env, heres, r, sent)
              && Enqueue(env, heres(|sent|), Delivered(env, heres, r, sent), f).1
              && (f.Begin? || Climbs(Delivered(env, heres, r, sent), Delivered(env, heres, r, sent + [f])))
  {
    assert (sent + [f])[..|sent|] == sent;
  }

  /** One accepted data frame: only its slot changes. */
  lemma FrameSteps(env: Env, heres: Locals, cs: seq<seq<Commit>>, r: Replica, sent: seq<Frame>, slots: seq<Progress>,
                   session: string, f: Frame, s': ReplicaSlot, q: Progress)
    requires InStep(env, heres, cs, r, sent, slots, session) && (f.Log? || f.Snapshot?) && f.session == session
    requires f.slot < |slots| == |cs|
    requires var s := Delivered(env, heres, r, sent).slots[f.slot];
             && (if f.Snapshot? then ApplySnapshot(env, f.slot, s, f.base, f.payload)
                 else ApplyLog(env, heres(|sent|), f.slot, s, f.record)) == (s', true)
             && s'.applied >= s.applied
    requires AgreesSlot(cs[f.slot], s') && Mirrors(q, s')
    ensures InStep(env, heres, cs, r, sent + [f], slots[f.slot := q], session)
    ensures Delivered(env, heres, r, sent + [f]).slots == Delivered(env, heres, r, sent).slots[f.slot := s']
  {
    hide ApplyLog, ApplySnapshot, ApplyDone, AgreesSlot, Mirrors;
    DeliveredSnoc(env, heres, r, sent, f);
  }

  /** The two sides after a visit, slot id aside, are as before. */
  ghost predicate OnlySlotMoved(slots: seq<Progress>, slots': seq<Progress>, r: Replica, r': Replica, id: nat) {
    && |slots| == |slots'| == |r.slots| == |r'.slots|
    && forall j :: 0 <= j < |slots| && j != id ==> slots'[j] == slots[j] && r'.slots[j] == r.slots[j]
  }

  lemma {:induction false} OffersAreAccepted(env: Env, heres: Locals, cs: seq<seq<Commit>>, r: Replica, first: Frame,
                                             b: Build, session: string, id: nat, logs: seq<Record>, target: nat)
    requires Valid(env) && id < |b.slots| == |cs| && Sound(env, id, cs[id]) && !b.slots[id].needSnapshot
    requires InStep(env, heres, cs, r, [first] + b.frames, b.slots, session)
    requires forall k :: 0 <= k < |logs| ==>
               1 <= logs[k].seqNo <= |cs[id]| && logs[k] == cs[id][logs[k].seqNo - 1].record
    ensures var b' := OfferLogs(b, session, id, logs, target);
            && InStep(env, heres, cs, r, [first] + b'.frames, b'.slots, session)
            && OnlySlotMoved(b.slots, b'.slots, Delivered(env, heres, r, [first] + b.frames),
                             Delivered(env, heres, r, [first] + b'.frames), id)
            && !Delivered(env, heres, r, [first] + b'.frames).slots[id].needSnapshot
    decreases logs
  {
    hide Sound, Valid, ApplyLog, Delivered, Smooth, RecordBytes, AgreesSlot;
    var sent := [first] + b.frames;
    var now := Delivered(env, heres, r, sent);
    if logs != [] && logs[0].seqNo <= target && logs[0].seqNo != b.slots[id].sent + 1 {
      assert MirrorsAll(b.slots[id := b.slots[id].(needSnapshot := true)], now);
    } else if logs != [] && logs[0].seqNo <= target && Fits(b, RecordBytes(logs[0])) {
      var next := SendLog(b, session, id, logs[0]);
      var f := Log(session, id, logs[0]);
      assert Mirrors(b.slots[id], now.slots[id]) && AgreesSlot(cs[id], now.slots[id]);
      LogKeepsAgreement(env, heres(|sent|), id, cs[id], now.slots[id], logs[0]);
      var (s', ok) := ApplyLog(env, heres(|sent|), id, now.slots[id], logs[0]);
      FrameSteps(env, heres, cs, r, sent, b.slots, session, f, s', next.slots[id]);
      assert sent + [f] == [first] + next.frames;
      OffersAreAccepted(env, heres, cs, r, first, next, session, id, logs[1..], target);
    }
  }

  lemma NumberedFrom(log: seq<Record>, t: nat, seqNo: nat)
    requires forall j :: 0 <= j < |log| ==> log[j].seqNo == t + j + 1
    ensures Contiguous(log) && Skipped(log, seqNo) == Min(|log|, Max(t, seqNo) - t)
  {
  }

  lemma BudgetedIsPrefix(r: seq<Record>, log: seq<Record>, limit: nat, maxBytes: nat)
    requires BudgetedPrefix(r, log, limit, maxBytes)
    ensures |r| <= |log| && (log != [] ==> r != []) && forall k :: 0 <= k < |r| ==> r[k] == log[k]
  {
    hide TotalBytes;
  }

  /** A budgeted copy of the log that follows write t. */
  lemma CopiedStretch(log: seq<Record>, t: nat, seqNo: nat, limit: nat, maxBytes: nat)
    requires limit > 0 && forall j :: 0 <= j < |log| ==> log[j].seqNo == t + j + 1
    ensures var logs, from := LogAfter(log, seqNo, limit, maxBytes), Min(|log|, Max(t, seqNo) - t);
            && |logs| <= |log| - from
            && (forall k :: 0 <= k < |logs| ==> logs[k] == log[from..][k])
            && (from < |log| ==> logs != [])
  {
    hide TotalBytes, LogAfter, BudgetedPrefix, Contiguous, Skipped;
    NumberedFrom(log, t, seqNo);
    LogAfterIsBudgetedStretch(log, seqNo, limit, maxBytes);
    BudgetedIsPrefix(LogAfter(log, seqNo, limit, maxBytes), log[Skipped(log, seqNo)..], limit, maxBytes);
  }

  lemma CopiedLogsAreRecords(env: Env, slot: nat, c: seq<Commit>, t: nat, s: SlotState, seqNo: nat, limit: nat,
                             maxBytes: nat)
    requires IsVisitOrder(env.lay.order) && Sound(env, slot, c) && Seen(c, t, s) && limit > 0
    ensures var logs := LogAfter(s.log, seqNo, limit, maxBytes);
            && (forall k :: 0 <= k < |logs| ==> 1 <= logs[k].seqNo <= |c| && logs[k] == c[logs[k].seqNo - 1].record)
            && (forall k :: 0 <= k < |logs| ==> logs[k].seqNo == Max(t, seqNo) + 1 + k)
            && (Max(t, seqNo) < s.published ==> logs != [])
  {
    hide Sound, Seen, TotalBytes, LogAfter, Contiguous, Skipped;
    SeenLog(env, slot, c, t, s);
    CopiedStretch(s.log, t, seqNo, limit, maxBytes);
    var logs := LogAfter(s.log, seqNo, limit, maxBytes);
    forall k | 0 <= k < |logs|
      ensures logs[k].seqNo == Max(t, seqNo) + 1 + k <= |c| && logs[k] == c[logs[k].seqNo - 1].record
    {
      var from := Min(|s.log|, Max(t, seqNo) - t);
      assert logs[k] == s.log[from..][k] == s.log[from + k];
    }
  }

  /**
   * Copied records that are not above the announced number follow `sent` without a gap, whatever writers do between the
   * looks: the branch that flags a slot because of a gap is never taken.
   */
  lemma NoGapBelowTarget(env: Env, id: nat, c: seq<Commit>, t: nat, b: Build, v: View, maxFrames: nat)
    requires Valid(env) && id < |b.slots| && Sound(env, id, c) && SeenInOrder(c, t, v)
    requires WithinLimits(b, maxFrames) && HasRoom(b, maxFrames) && !WantsSnapshot(b, id, v)
    ensures var logs := CopiedLogs(b, id, v, maxFrames);
            forall k :: 0 <= k < |logs| && logs[k].seqNo <= v.first.published ==>
              logs[k].seqNo == b.slots[id].sent + 1 + k
  {
    hide Sound, Seen, RecordBytes, TotalBytes, BatchBytes, LogAfter, IsVisitOrder, UnpacksWire;
    var limit, room := Min(MAX_LOGS_PER_SLOT, maxFrames - |b.frames|), MAX_BATCH_BYTES - b.bytes;
    SeenLog(env, id, c, t, v.min);
    CopiedLogsAreRecords(env, id, c, t, v.last, b.slots[id].sent, limit, room);
  }

  /** One visit: whatever it sends is accepted, and only its slot changes on either side. */
  lemma VisitIsAccepted(env: Env, heres: Locals, cs: seq<seq<Commit>>, t: nat, r: Replica, first: Frame, b: Build,
                        session: string, id: nat, v: View, maxFrames: nat)
    requires Valid(env) && id < |b.slots| == |cs| && Sound(env, id, cs[id]) && SeenInOrder(cs[id], t, v)
    requires InStep(env, heres, cs, r, [first] + b.frames, b.slots, session) && WithinLimits(b, maxFrames)
    requires Delivered(env, heres, r, [first] + b.frames).slots[id].applied <= v.first.published
    ensures var b' := Visit(b, session, env.lay, id, v, maxFrames);
            && InStep(env, heres, cs, r, [first] + b'.frames, b'.slots, session)
            && OnlySlotMoved(b.slots, b'.slots, Delivered(env, heres, r, [first] + b.frames),
                             Delivered(env, heres, r, [first] + b'.frames), id)
            && (b'.frames != b.frames ==> !Delivered(env, heres, r, [first] + b'.frames).slots[id].needSnapshot)
  {
    hide Sound, Seen, ApplyLog, ApplySnapshot, Delivered, Smooth, RecordBytes, TotalBytes, BatchBytes, LogAfter,
         HasBacklog, Wire, SnapshotCodec.Encode, IsVisitOrder, UnpacksWire, OfferLogs;
    var sent := [first] + b.frames;
    var now := Delivered(env, heres, r, sent);
    if HasRoom(b, maxFrames) && WantsSnapshot(b, id, v) {
      SeenLog(env, id, cs[id], t, v.last);
      var payload := Wire(SnapshotCodec.Encode(env.lay, v.last.objects));
      if Fits(b, |payload|) {
        var f := Snapshot(session, id, v.last.published, payload);
        SnapshotKeepsAgreement(env, id, cs[id], now.slots[id], v.last.published, payload);
        var (s', ok) := ApplySnapshot(env, id, now.slots[id], v.last.published, payload);
        FrameSteps(env, heres, cs, r, sent, b.slots, session, f, s',
                   Progress(b.slots[id].acked, v.last.published, false));
        assert sent + [f] == [first] + (b.frames + [f]);
      }
    } else if HasRoom(b, maxFrames) {
      var limit := Min(MAX_LOGS_PER_SLOT, maxFrames - |b.frames|);
      CopiedLogsAreRecords(env, id, cs[id], t, v.last, b.slots[id].sent, limit, MAX_BATCH_BYTES - b.bytes);
      OffersAreAccepted(env, heres, cs, r, first, b, session, id, CopiedLogs(b, id, v, maxFrames), v.first.published);
    }
  }

  // ---- whole batches

  lemma MultipleIsFar(d: int, n: nat)
    ensures if d <= 0 then d * n <= 0 else d * n >= n
  {
    if d > 0 {
      assert d * n == (d - 1) * n + n;
    }
  }

  lemma RemaindersDiffer(a: nat, b: nat, n: nat)
    requires a < b < a + n
    ensures a % n != b % n
  {
    var q, q' := a / n, b / n;
    var d := q' - q;
    assert b - a == d * n + (b % n - a % n) by {
      assert a == q * n + a % n && b == q' * n + b % n;
      assert (q' - q) * n == q' * n - q * n;
    }
    MultipleIsFar(d, n);
  }

  lemma VisitedOnce(start: nat, i: nat, k: nat, n: nat)
    requires i < n && k < n && VisitedSlot(start, i, n) == VisitedSlot(start, k, n)
    ensures i == k
  {
    if i < k {
      RemaindersDiffer(start + i, start + k, n);
    } else if k < i {
      RemaindersDiffer(start + k, start + i, n);
    }
  }

  /**
   * What the batch sees of each slot it visits: a moment between the histories `base` long, when the poll began, and
   * cs, when it ended.
   */
  ghost predicate BatchSees(cs: seq<seq<Commit>>, ts: seq<nat>, base: seq<nat>, start: nat, views: seq<View>) {
    && 0 < |cs| == |ts| == |base| == |views|
    && forall k {:trigger views[k]} :: 0 <= k < |views| ==>
         var id := VisitedSlot(start, k, |cs|);
         SeenInOrder(cs[id], ts[id], views[k]) && base[id] <= views[k].first.published
  }

  /** No slot of the replica is ahead of the history it had when the poll began. */
  ghost predicate NotAhead(base: seq<nat>, r: Replica) {
    |base| == |r.slots| && forall j :: 0 <= j < |base| ==> r.slots[j].applied <= base[j]
  }

  ghost predicate UntouchedFrom(i: nat, start: nat, slots: seq<Progress>, slots': seq<Progress>, r: Replica,
                                r': Replica)
  {
    && |slots| == |slots'| == |r.slots| == |r'.slots|
    && forall k :: i <= k < |slots| ==>
         var id := VisitedSlot(start, k, |slots|); slots'[id] == slots[id] && r'.slots[id] == r.slots[id]
  }

  lemma VisitTouchesOne(i: nat, start: nat, slots: seq<Progress>, mid: seq<Progress>, slots': seq<Progress>, r: Replica,
                        rMid: Replica, r': Replica)
    requires i < |slots| && UntouchedFrom(i, start, slots, mid, r, rMid)
    requires OnlySlotMoved(mid, slots', rMid, r', VisitedSlot(start, i, |slots|))
    ensures UntouchedFrom(i + 1, start, slots, slots', r, r')
  {
    var n := |slots|;
    forall k | i + 1 <= k < n
      ensures var id := VisitedSlot(start, k, n); slots'[id] == slots[id] && r'.slots[id] == r.slots[id]
    {
      if VisitedSlot(start, k, n) == VisitedSlot(start, i, n) {
        VisitedOnce(start, i, k, n);
      }
    }
  }

  lemma {:induction false} BuildIsAccepted(env: Env, heres: Locals, cs: seq<seq<Commit>>, ts: seq<nat>, base: seq<nat>,
                                           r: Replica, first: Frame, replica: Session, views: seq<View>, maxFrames: nat,
                                           i: nat)
    requires Valid(env) && AllSound(env, cs) && BatchSees(cs, ts, base, replica.nextSlot, views)
             && i <= |replica.slots| == |cs|
    requires InStep(env, heres, cs, r, [first], replica.slots, replica.sessionId)
    requires NotAhead(base, Delivered(env, heres, r, [first]))
    ensures var b := BuildUpTo(replica, env.lay, views, maxFrames, i);
            && InStep(env, heres, cs, r, [first] + b.frames, b.slots, replica.sessionId)
            && UntouchedFrom(i, replica.nextSlot, replica.slots, b.slots, Delivered(env, heres, r, [first]),
                             Delivered(env, heres, r, [first] + b.frames))
  {
    hide SeenInOrder, Sound, Delivered, IsVisitOrder, UnpacksWire, Visit, OnlySlotMoved, VisitedSlot, InStep,
         WithinLimits;
    if i == 0 {
      assert [first] + [] == [first];
    } else {
      BuildIsAccepted(env, heres, cs, ts, base, r, first, replica, views, maxFrames, i - 1);
      var before := BuildUpTo(replica, env.lay, views, maxFrames, i - 1);
      var id := VisitedSlot(replica.nextSlot, i - 1, |cs|);
      var v := views[i - 1];
      assert SeenInOrder(cs[id], ts[id], v);
      VisitIsAccepted(env, heres, cs, ts[id], r, first, before, replica.sessionId, id, v, maxFrames);
      var b := BuildUpTo(replica, env.lay, views, maxFrames, i);
      VisitTouchesOne(i - 1, replica.nextSlot, replica.slots, before.slots, b.slots, Delivered(env, heres, r, [first]),
                      Delivered(env, heres, r, [first] + before.frames), Delivered(env, heres, r, [first] + b.frames));
    }
  }

  // ---- BEGIN and DONE

  lemma {:induction false} DoneOnlyMarks(slots: seq<ReplicaSlot>, positions: seq<Position>)
    requires forall q :: q in positions ==> q.0 < |slots|
    ensures var (slots', ok) := ApplyDone(slots, positions);
            ok && forall i :: 0 <= i < |slots| ==> slots'[i] == slots[i].(status := slots'[i].status)
    decreases |positions|
  {
    if positions == [] {
    } else {
      DoneOnlyMarks(slots[positions[0].0 := MarkDone(slots[positions[0].0], positions[0].1)], positions[1..]);
    }
  }

  lemma DoneIsAccepted(env: Env, heres: Locals, cs: seq<seq<Commit>>, r: Replica, sent: seq<Frame>,
                       slots: seq<Progress>, session: string, positions: seq<Position>)
    requires InStep(env, heres, cs, r, sent, slots, session) && forall q :: q in positions ==> q.0 < |slots|
    ensures InStep(env, heres, cs, r, sent + [Done(session, positions)], slots, session)
  {
    hide Delivered, Smooth, AgreesSlot, ApplyDone, Agrees;
    DeliveredSnoc(env, heres, r, sent, Done(session, positions));
    DoneOnlyMarks(Delivered(env, heres, r, sent).slots, positions);
    DoneKeepsAgreement(cs, Delivered(env, heres, r, sent).slots, positions, session);
  }

  /** The replica agrees with the primary as far as the session goes on, and it never logs. */
  ghost predicate FitsSession(cs: seq<seq<Commit>>, sessionId: string, r: Replica) {
    && |r.slots| == |cs| && (forall i :: 0 <= i < |r.slots| ==> !r.slots[i].engine.logWrites)
    && (r.session == sessionId != "" ==> Agrees(cs, r))
  }

  lemma OwnedIsNamed(p: Primary, session: string)
    requires Owns(p, session)
    ensures session != ""
  {
  }

  /** The sessions that HELLO leaves and that BEGIN announces. */
  ghost function Greeted(p: Primary, call: PollCall): Session
    requires call.hello.Hello? && |call.greetViews| == |call.hello.positions|
  {
    Greet(SessionOf(p, call.hello.replicaId), call.hello.session, call.hello.positions,
          SessionName(p.epoch, call.hello.replicaId, p.issued), call.greetViews)
  }

  lemma BeginIsAccepted(env: Env, heres: Locals, n: nat, p: Primary, call: PollCall, r: Replica)
    requires Valid(env) && PrimaryOk(env, n, p) && SessionsOwned(p) && PollRuns(env, p, call) && OwnHello(r, call.hello)
    requires FitsSession(p.commits, SessionOf(p, call.hello.replicaId).sessionId, r)
    ensures var g := Greeted(p, call); var begin := Begin(g.sessionId, g.reset);
            && Enqueue(env, heres(0), r, begin) ==
                 (Replica(g.sessionId, if g.reset then ResetAll(r.slots) else r.slots), true)
            && (!g.reset ==> r.session == g.sessionId) && g.sessionId != ""
            && Smooth(env, heres, r, [begin])
            && Delivered(env, heres, r, [begin]) == Replica(g.sessionId, if g.reset then ResetAll(r.slots) else r.slots)
  {
    hide SessionName, ApplyWrites, PollView, SlotOk, Agrees, GreetSlots;
    var replica, g := SessionOf(p, call.hello.replicaId), Greeted(p, call);
    var begin := Begin(g.sessionId, g.reset);
    SessionOfIsTracked(env, n, p, call.hello.replicaId);
    var next := SessionName(p.epoch, call.hello.replicaId, p.issued);
    assert Owns(p.(issued := p.issued + 1), next);
    OwnedIsNamed(p.(issued := p.issued + 1), next);
    DeliveredSnoc(env, heres, r, [], begin);
    assert [] + [begin] == [begin];
  }

  function Lengths(cs: seq<seq<Commit>>): (r: seq<nat>)
    ensures |r| == |cs| && forall i :: 0 <= i < |cs| ==> r[i] == |cs[i]|
  {
    seq(|cs|, i requires 0 <= i < |cs| => |cs[i]|)
  }

  lemma BeginMirrors(env: Env, n: nat, p: Primary, w: Primary, call: PollCall, r: Replica)
    requires Valid(env) && PrimaryOk(env, n, p) && PrimaryOk(env, n, w) && Grown(p.commits, w.commits)
    requires OwnHello(r, call.hello) && FitsSession(p.commits, SessionOf(p, call.hello.replicaId).sessionId, r)
    requires PollSees(p, w, call, SessionOf(p, call.hello.replicaId).nextSlot)
             && |SessionOf(p, call.hello.replicaId).slots| == n
    ensures var g := Greeted(p, call); var r0 := Replica(g.sessionId, if g.reset then ResetAll(r.slots) else r.slots);
            MirrorsAll(g.slots, r0) && Agrees(w.commits, r0) && NotAhead(Lengths(p.commits), r0)
  {
    hide SessionName, SlotOk, Backs, GreetSlot, FindReplica;
    var g := Greeted(p, call);
    var r0 := Replica(g.sessionId, if g.reset then ResetAll(r.slots) else r.slots);
    var _ := PrimaryIsSound(env, n, w);
    assert Agrees(p.commits, r0);
    GrownKeepsAgreement(p.commits, w.commits, r0);
    var replica := SessionOf(p, call.hello.replicaId);
    GreetSlotsInOrder(replica.slots, g.reset, call.hello.positions, call.greetViews);
    forall i | 0 <= i < n
      ensures Mirrors(g.slots[i], r0.slots[i])
    {
      assert call.hello.positions[i].0 == i && PollView(p, w, i, call.greetViews[i]);
      assert Sound(env, i, w.commits[i]);
      GreetingMirrors(g.reset, p.commits[i], r.slots[i], call.greetViews[i]);
    }
  }

  lemma BatchIsAccepted(env: Env, heres: Locals, cs: seq<seq<Commit>>, ts: seq<nat>, base: seq<nat>, r: Replica,
                        g: Session, views: seq<View>, maxFrames: nat)
    requires Valid(env) && AllSound(env, cs) && BatchSees(cs, ts, base, g.nextSlot, views) && |g.slots| == |cs|
    requires InStep(env, heres, cs, r, [Begin(g.sessionId, g.reset)], g.slots, g.sessionId)
    requires NotAhead(base, Delivered(env, heres, r, [Begin(g.sessionId, g.reset)]))
    ensures var b := BuildUpTo(g, env.lay, views, maxFrames, |g.slots|);
            InStep(env, heres, cs, r, Batch(g.sessionId, g.reset, b), b.slots, g.sessionId)
  {
    hide BuildUpTo, InStep, SeenInOrder, Sound, IsVisitOrder, UnpacksWire, Delivered;
    var b := BuildUpTo(g, env.lay, views, maxFrames, |g.slots|);
    BuildIsAccepted(env, heres, cs, ts, base, r, Begin(g.sessionId, g.reset), g, views, maxFrames, |cs|);
    forall k {:trigger views[k]} | 0 <= k < |views|
      ensures var id := VisitedSlot(g.nextSlot, k, |cs|); SeenInOrder(cs[id], ts[id], views[k])
    {
    }
    BuildIsTrue(env, cs, ts, g, views, maxFrames, |cs|);
    DoneIsAccepted(env, heres, cs, r, [Begin(g.sessionId, g.reset)] + b.frames, b.slots, g.sessionId, b.completed);
  }

  /**
   * Every frame of the batch that answers the replica's own HELLO is accepted, none moves a slot back, and at the end
   * the primary's `sent` numbers are the replica's `applied` numbers.
   */
  lemma PollIsAccepted(env: Env, heres: Locals, n: nat, p: Primary, call: PollCall, r: Replica)
    requires Valid(env) && PrimaryOk(env, n, p) && SessionsOwned(p) && PollRuns(env, p, call) && OwnHello(r, call.hello)
    requires FitsSession(p.commits, SessionOf(p, call.hello.replicaId).sessionId, r)
    ensures var (session, frames) := PollAnswer(env, p, call);
            InStep(env, heres, ApplyWrites(env, p, call.during).commits, r, frames, session.slots, session.sessionId)
  {
    hide ApplyWrites, SlotOk, Sound, SeenInOrder, BuildUpTo, SessionName, IsVisitOrder, UnpacksWire, GreetSlots,
         FindReplica, Delivered, Smooth, AgreesSlot, Mirrors;
    var w := ApplyWrites(env, p, call.during);
    var g := Greeted(p, call);
    WritesKeepPrimary(env, n, p, call.during);
    BeginIsAccepted(env, heres, n, p, call, r);
    BeginMirrors(env, n, p, w, call, r);
    var ts := PrimaryIsSound(env, n, w);
    forall k {:trigger call.buildViews[k]} | 0 <= k < n
      ensures var id := VisitedSlot(g.nextSlot, k, n);
              SeenInOrder(w.commits[id], ts[id], call.buildViews[k])
                && |p.commits[id]| <= call.buildViews[k].first.published
    {
      assert PollView(p, w, VisitedSlot(g.nextSlot, k, n), call.buildViews[k]);
    }
    BatchIsAccepted(env, heres, w.commits, ts, Lengths(p.commits), r, g, call.buildViews, call.maxFrames);
  }

  // ---- currency

  /** What a slot must show to turn Online: a DONE that names it with a number it has reached. */
  lemma {:induction false} DoneTurnsOnline(slots: seq<ReplicaSlot>, positions: seq<Position>, j: nat)
    requires j < |slots| && slots[j].status != Online && ApplyDone(slots, positions).0[j].status == Online
    ensures exists q :: q in positions && q.0 == j && q.1 <= slots[j].applied
    decreases |positions|
  {
    var q := positions[0];
    if q.0 < |slots| {
      var next := slots[q.0 := MarkDone(slots[q.0], q.1)];
      if q.0 != j || next[j].status != Online {
        DoneTurnsOnline(next, positions[1..], j);
      }
    }
  }

  /** Only DONE turns a slot Online, and only one that reached the announced number. */
  lemma TurningOnlineNeedsDone(env: Env, here: Local, r: Replica, f: Frame, j: nat)
    requires j < |r.slots| && r.slots[j].status != Online && Enqueue(env, here, r, f).0.slots[j].status == Online
    ensures f.Done? && exists q :: q in f.positions && q.0 == j && q.1 <= r.slots[j].applied
  {
    hide DecodePayload, ApplyDone;
    if f.Done? {
      DoneTurnsOnline(r.slots, f.positions, j);
    }
  }

  /** No announced number lies below the history that the slot had when the poll began. */
  ghost predicate TargetsReach(base: seq<nat>, completed: seq<Position>) {
    forall q :: q in completed ==> q.0 < |base| && base[q.0] <= q.1
  }

  lemma {:induction false} OffersKeepTargets(b: Build, session: string, id: nat, logs: seq<Record>, target: nat)
    requires id < |b.slots|
    ensures OfferLogs(b, session, id, logs, target).completed == b.completed
    decreases logs
  {
    hide RecordBytes;
    if logs != [] && logs[0].seqNo <= target && logs[0].seqNo == b.slots[id].sent + 1 && Fits(b, RecordBytes(logs[0])) {
      OffersKeepTargets(SendLog(b, session, id, logs[0]), session, id, logs[1..], target);
    }
  }

  /** A visit announces at most one number: at least what the slot had published when the visit began. */
  lemma VisitAnnounces(b: Build, session: string, lay: Layout, id: nat, v: View, maxFrames: nat)
    requires id < |b.slots| && IsVisitOrder(lay.order) && WithinLimits(b, maxFrames)
             && v.first.published <= v.last.published
    ensures var b' := Visit(b, session, lay, id, v, maxFrames);
            if b'.slots[id].needSnapshot then b'.completed == b.completed
            else exists target :: b'.completed == b.completed + [(id, target)] && target >= v.first.published
  {
    hide Wire, SnapshotCodec.Encode, HasBacklog, LogAfter, TotalBytes, BatchBytes, IsVisitOrder, RecordBytes;
    if HasRoom(b, maxFrames) && !WantsSnapshot(b, id, v) {
      OffersKeepTargets(b, session, id, CopiedLogs(b, id, v, maxFrames), v.first.published);
    }
  }

  lemma {:induction false} TargetsAreCurrent(lay: Layout, cs: seq<seq<Commit>>, ts: seq<nat>, base: seq<nat>,
                                             replica: Session, views: seq<View>, maxFrames: nat, i: nat)
    requires BatchSees(cs, ts, base, replica.nextSlot, views) && i <= |replica.slots| == |cs| && IsVisitOrder(lay.order)
    ensures TargetsReach(base, BuildUpTo(replica, lay, views, maxFrames, i).completed)
  {
    hide Visit, Seen, IsVisitOrder, WithinLimits, VisitedSlot;
    if i == 0 {
    } else {
      TargetsAreCurrent(lay, cs, ts, base, replica, views, maxFrames, i - 1);
      var id := VisitedSlot(replica.nextSlot, i - 1, |cs|);
      var before, v := BuildUpTo(replica, lay, views, maxFrames, i - 1), views[i - 1];
      assert SeenInOrder(cs[id], ts[id], v) && base[id] <= v.first.published <= v.last.published;
      VisitAnnounces(before, replica.sessionId, lay, id, v, maxFrames);
    }
  }

  /**
   * Frame f is an image, or a log record no higher than the number its slot had published when the batch reached it.
   */
  ghost predicate BelowTarget(start: nat, views: seq<View>, i: nat, f: Frame)
    requires i <= |views|
  {
    f.Snapshot? || (f.Log? && exists k :: 0 <= k < i && f.slot == VisitedSlot(start, k, |views|)
                                         && f.record.seqNo <= views[k].first.published)
  }

  lemma {:induction false} OffersStayBelowTarget(b: Build, session: string, id: nat, logs: seq<Record>, target: nat)
    requires id < |b.slots|
    ensures forall f :: f in OfferLogs(b, session, id, logs, target).frames ==>
              f in b.frames || (f.Log? && f.slot == id && f.record.seqNo <= target)
    decreases logs
  {
    hide RecordBytes;
    if logs != [] && logs[0].seqNo <= target && logs[0].seqNo == b.slots[id].sent + 1 && Fits(b, RecordBytes(logs[0])) {
      OffersStayBelowTarget(SendLog(b, session, id, logs[0]), session, id, logs[1..], target);
    }
  }

  /** No record above the number read for its slot is ever sent. */
  lemma {:induction false} BatchStaysBelowTarget(lay: Layout, replica: Session, views: seq<View>, maxFrames: nat,
                                                 i: nat)
    requires i <= |views| == |replica.slots| && IsVisitOrder(lay.order)
    ensures forall f :: f in BuildUpTo(replica, lay, views, maxFrames, i).frames ==>
            BelowTarget(replica.nextSlot, views, i, f)
  {
    hide Wire, SnapshotCodec.Encode, HasBacklog, LogAfter, TotalBytes, BatchBytes, IsVisitOrder, RecordBytes;
    if i == 0 {
    } else {
      BatchStaysBelowTarget(lay, replica, views, maxFrames, i - 1);
      var id := VisitedSlot(replica.nextSlot, i - 1, |views|);
      var before, v := BuildUpTo(replica, lay, views, maxFrames, i - 1), views[i - 1];
      if HasRoom(before, maxFrames) && !WantsSnapshot(before, id, v) {
        OffersStayBelowTarget(before, replica.sessionId, id, CopiedLogs(before, id, v, maxFrames), v.first.published);
      }
    }
  }

  lemma OnlyTheEndIsDone(session: string, reset: bool, b: Build, k: nat)
    requires (forall f :: f in b.frames ==> f.Snapshot? || f.Log?) && k < |b.frames| + 2
    ensures Batch(session, reset, b)[k].Done? ==> Batch(session, reset, b)[k] == Done(session, b.completed)
  {
    if 0 < k <= |b.frames| {
      assert Batch(session, reset, b)[k] == b.frames[k - 1] && b.frames[k - 1] in b.frames;
    } else if k > 0 {
      assert Batch(session, reset, b)[k] == Done(session, b.completed);
    }
  }

  lemma FramesOfBatch(b: Build, session: string, reset: bool, start: nat, views: seq<View>, i: nat, k: nat)
    requires i <= |views| && (forall f :: f in b.frames ==> BelowTarget(start, views, i, f))
             && k < |Batch(session, reset, b)|
    ensures Batch(session, reset, b)[k].Done? ==> Batch(session, reset, b)[k].positions == b.completed
  {
    OnlyTheEndIsDone(session, reset, b, k);
  }

  lemma AppliedStays(env: Env, here: Local, r: Replica, f: Frame, j: nat)
    requires f.Done? && j < |r.slots|
    ensures Enqueue(env, here, r, f).0.slots[j].applied == r.slots[j].applied
  {
    hide ApplyDone;
    DoneLeavesSlots(r.slots, f.positions);
  }

  /**
   * A slot turns Online, at whatever frame of the answer, only when its map includes every write that the primary had
   * published before the poll began.
   */
  lemma OnlineIsCurrent(env: Env, heres: Locals, n: nat, p: Primary, call: PollCall, r: Replica, k: nat, j: nat)
    requires Valid(env) && PrimaryOk(env, n, p) && SessionsOwned(p) && PollRuns(env, p, call) && OwnHello(r, call.hello)
    requires FitsSession(p.commits, SessionOf(p, call.hello.replicaId).sessionId, r)
    requires k < |PollAnswer(env, p, call).1| && j < n
    requires var frames := PollAnswer(env, p, call).1;
             && Delivered(env, heres, r, frames[..k]).slots[j].status != Online
             && Delivered(env, heres, r, frames[..k + 1]).slots[j].status == Online
    ensures var s := Delivered(env, heres, r, PollAnswer(env, p, call).1[..k + 1]).slots[j];
            |p.commits[j]| <= s.applied
  {
    hide ApplyWrites, SlotOk, Sound, SeenInOrder, BuildUpTo, SessionName, IsVisitOrder, UnpacksWire, GreetSlots,
         FindReplica, AgreesSlot, Mirrors, Enqueue, BelowTarget, Batch;
    var w := ApplyWrites(env, p, call.during);
    var g := Greeted(p, call);
    WritesKeepPrimary(env, n, p, call.during);
    var ts := PrimaryIsSound(env, n, w);
    forall i {:trigger call.buildViews[i]} | 0 <= i < n
      ensures var id := VisitedSlot(g.nextSlot, i, n);
              SeenInOrder(w.commits[id], ts[id], call.buildViews[i])
                && |p.commits[id]| <= call.buildViews[i].first.published
    {
      assert PollView(p, w, VisitedSlot(g.nextSlot, i, n), call.buildViews[i]);
    }
    TargetsAreCurrent(env.lay, w.commits, ts, Lengths(p.commits), g, call.buildViews, call.maxFrames, n);
    BatchStaysBelowTarget(env.lay, g, call.buildViews, call.maxFrames, n);
    var b := BuildUpTo(g, env.lay, call.buildViews, call.maxFrames, n);
    var frames := PollAnswer(env, p, call).1;
    FramesOfBatch(b, g.sessionId, g.reset, g.nextSlot, call.buildViews, n, k);
    var before := Delivered(env, heres, r, frames[..k]);
    assert frames[..k + 1] == frames[..k] + [frames[k]];
    DeliveredSnoc(env, heres, r, frames[..k], frames[k]);
    TurningOnlineNeedsDone(env, heres(k), before, frames[k], j);
    AppliedStays(env, heres(k), before, frames[k], j);
  }
}
