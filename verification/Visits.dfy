/** One visit of a batch to one slot (src/repl/master_replicator.cpp:109-151): what the slot gets, exactly. */
module Visits {
  import opened Core
  import opened Binlog
  import opened HashSlot
  import opened Order
  import opened SnapshotCodec
  import opened FrameCodec
  import opened Master
  import opened Slave
  import opened History
  import opened Delivery

  /** Some look found the log empty and a later one not, while a record that the replica misses was already gone. */
  predicate MissedGap(v: View, acked: nat) {
    v.min.log == [] && v.max.log != [] && acked < v.min.published
  }

  /** The slot is flagged, or something that it has published was not sent yet. */
  predicate Due(q: Progress, v: View) {
    q.needSnapshot || q.sent < v.first.published
  }

  /** A due slot that gets nothing: it is not flagged, and the race hides that its next record is gone. */
  predicate PassedOver(q: Progress, v: View) {
    !q.needSnapshot && q.sent < v.first.published && MissedGap(v, q.sent)
  }

  /** The visit sends the slot's image if it wants one, and its next record otherwise. */
  ghost predicate GetsFrame(env: Env, c: seq<Commit>, b: Build, b': Build, session: string, id: nat, v: View)
    requires id < |b.slots| && IsVisitOrder(env.lay.order)
  {
    && |b.frames| < |b'.frames|
    && if WantsSnapshot(b, id, v)
       then b'.frames[|b.frames|] ==
              Snapshot(session, id, v.last.published, Wire(SnapshotCodec.Encode(env.lay, v.last.objects)))
       else b.slots[id].sent < |c| && b'.frames[|b.frames|] == Log(session, id, c[b.slots[id].sent].record)
  }

  /** The slot has its turn: if it is due it gets a frame, exactly unless it is passed over, and then nothing moves. */
  ghost predicate TakesTurn(env: Env, c: seq<Commit>, b: Build, b': Build, session: string, id: nat, v: View)
    requires id < |b.slots| && IsVisitOrder(env.lay.order)
  {
    && (WantsSnapshot(b, id, v) ==> GetsFrame(env, c, b, b', session, id, v))
    && (Due(b.slots[id], v) ==> (GetsFrame(env, c, b, b', session, id, v) <==> !PassedOver(b.slots[id], v)))
    && (PassedOver(b.slots[id], v) ==> b'.frames == b.frames && b'.slots == b.slots)
  }

  /** The batch ends before the slot: nothing that it has to offer fits behind earlier frames. */
  predicate EndsBefore(b: Build, b': Build, id: nat) {
    b'.full && b'.nextSlot == id && b'.frames == b.frames != []
  }

  lemma {:induction false} OffersAllFit(b: Build, session: string, id: nat, logs: seq<Record>, target: nat)
    requires id < |b.slots| && b.bytes + TotalBytes(logs) <= MAX_BATCH_BYTES
    ensures var b' := OfferLogs(b, session, id, logs, target); b'.full == b.full && b'.nextSlot == b.nextSlot
    decreases logs
  {
    if logs != [] && logs[0].seqNo <= target && logs[0].seqNo == b.slots[id].sent + 1 {
      OffersAllFit(SendLog(b, session, id, logs[0]), session, id, logs[1..], target);
    }
  }

  lemma {:induction false} OffersExtend(b: Build, session: string, id: nat, logs: seq<Record>, target: nat)
    requires id < |b.slots|
    ensures b.frames <= OfferLogs(b, session, id, logs, target).frames
    decreases logs
  {
    hide RecordBytes;
    if logs != [] && logs[0].seqNo <= target && logs[0].seqNo == b.slots[id].sent + 1 && Fits(b, RecordBytes(logs[0])) {
      OffersExtend(SendLog(b, session, id, logs[0]), session, id, logs[1..], target);
    }
  }

  lemma FirstFitsOrNone(b: Build, session: string, id: nat, logs: seq<Record>, target: nat)
    requires id < |b.slots| && (b.bytes + TotalBytes(logs) <= MAX_BATCH_BYTES || |logs| == 1)
    ensures logs != [] && logs[0].seqNo == b.slots[id].sent + 1 <= target && !Fits(b, RecordBytes(logs[0])) ==>
              OfferLogs(b, session, id, logs, target) == b.(nextSlot := id, full := true) && b.frames != []
    ensures b.frames <= OfferLogs(b, session, id, logs, target).frames
    ensures |logs| == 1 && Fits(b, RecordBytes(logs[0])) ==>
              OfferLogs(b, session, id, logs, target).full == b.full
                && OfferLogs(b, session, id, logs, target).nextSlot == b.nextSlot
  {
    OffersExtend(b, session, id, logs, target);
  }

  /** What copied logs do to the batch: the first goes out, or nothing fits behind earlier frames. */
  lemma CopiedLogsTakeTheirTurn(b: Build, session: string, id: nat, logs: seq<Record>, target: nat)
    requires id < |b.slots| && (b.bytes + TotalBytes(logs) <= MAX_BATCH_BYTES || |logs| == 1) && !b.full
    ensures var b' := OfferLogs(b, session, id, logs, target);
            if b'.full then b.frames != [] && b'.nextSlot == id && b'.frames == b.frames
            else b'.nextSlot == b.nextSlot && b.frames <= b'.frames
                 && (logs != [] && logs[0].seqNo == b.slots[id].sent + 1 <= target ==>
                       |b.frames| < |b'.frames| && b'.frames[|b.frames|] == Log(session, id, logs[0]))
  {
    hide RecordBytes, TotalBytes;
    if b.bytes + TotalBytes(logs) <= MAX_BATCH_BYTES {
      OffersAllFit(b, session, id, logs, target);
    }
    if logs != [] && logs[0].seqNo == b.slots[id].sent + 1 <= target && Fits(b, RecordBytes(logs[0])) {
      var sent := SendLog(b, session, id, logs[0]);
      OffersExtend(sent, session, id, logs[1..], target);
      assert sent.frames[|b.frames|] == Log(session, id, logs[0]);
    }
    FirstFitsOrNone(b, session, id, logs, target);
  }

  lemma NothingBelowTarget(b: Build, session: string, id: nat, logs: seq<Record>, target: nat)
    requires id < |b.slots| && (logs == [] || logs[0].seqNo > target)
    ensures OfferLogs(b, session, id, logs, target) == b
  {
  }

  lemma CopyFitsTheBudget(log: seq<Record>, t: nat, seqNo: nat, limit: nat, maxBytes: nat)
    requires limit > 0 && forall j :: 0 <= j < |log| ==> log[j].seqNo == t + j + 1
    ensures var logs := LogAfter(log, seqNo, limit, maxBytes); TotalBytes(logs) <= maxBytes || |logs| == 1
  {
    hide TotalBytes, LogAfter;
    LogAfterIsBudgetedStretch(log, seqNo, limit, maxBytes);
  }

  /** With room and no flag, the three looks are wrong about a due slot exactly when they miss a gap. */
  lemma DueSlotIsRetainedUnlessRaced(env: Env, id: nat, c: seq<Commit>, t: nat, q: Progress, v: View)
    requires Valid(env) && Sound(env, id, c) && SeenInOrder(c, t, v) && !q.needSnapshot && q.sent < v.first.published
    ensures MissedGap(v, q.sent) <==> HasBacklog(v, q.sent + 1) && t > q.sent
    ensures MissedGap(v, q.sent) ==> t >= v.first.published
  {
    hide Sound, IsVisitOrder, UnpacksWire;
    SeenLog(env, id, c, t, v.min);
    SeenLog(env, id, c, t, v.max);
    HasBacklogIsExactUnlessRaced(env, id, c, t, v, q.sent + 1);
  }

  /**
   * A visit with room: the slot has its turn and the batch goes on, or ends right behind it; or the batch ends before
   * the slot and the cursor stays on it.
   */
  lemma VisitTakesTurn(env: Env, c: seq<Commit>, t: nat, b: Build, session: string, id: nat, v: View, maxFrames: nat)
    requires Valid(env) && id < |b.slots| && Sound(env, id, c) && SeenInOrder(c, t, v)
    requires WithinLimits(b, maxFrames) && HasRoom(b, maxFrames)
    ensures var b' := Visit(b, session, env.lay, id, v, maxFrames);
            || EndsBefore(b, b', id)
            || (&& TakesTurn(env, c, b, b', session, id, v)
                && b'.nextSlot == (if b'.full then (id + 1) % |b.slots| else b.nextSlot)
                && (!b'.full ==> |b'.frames| < maxFrames))
  {
    hide Sound, Seen, RecordBytes, TotalBytes, BatchBytes, LogAfter, HasBacklog, Wire, SnapshotCodec.Encode,
         IsVisitOrder, UnpacksWire, OfferLogs;
    var q := b.slots[id];
    if !q.needSnapshot && q.sent < v.first.published {
      DueSlotIsRetainedUnlessRaced(env, id, c, t, q, v);
    }
    if !WantsSnapshot(b, id, v) {
      var limit, room := Min(MAX_LOGS_PER_SLOT, maxFrames - |b.frames|), MAX_BATCH_BYTES - b.bytes;
      SeenLog(env, id, c, t, v.last);
      CopyFitsTheBudget(v.last.log, t, q.sent, limit, room);
      CopiedLogsAreRecords(env, id, c, t, v.last, q.sent, limit, room);
      var logs := CopiedLogs(b, id, v, maxFrames);
      CopiedLogsTakeTheirTurn(b, session, id, logs, v.first.published);
      if logs == [] || logs[0].seqNo > v.first.published {
        NothingBelowTarget(b, session, id, logs, v.first.published);
      }
    }
  }

  /**
   * A slot that the HELLO of the same poll named is never passed over: if a gap was missed as it was greeted, the log
   * is not empty any more when it is visited.
   */
  lemma NamedSlotIsNotPassedOver(env: Env, id: nat, c: seq<Commit>, t: nat, g: View, v: View, reset: bool,
                                 position: nat)
    requires Valid(env) && Sound(env, id, c) && SeenInOrder(c, t, g) && SeenInOrder(c, t, v)
    requires g.second.published <= v.first.published
    ensures !PassedOver(GreetSlot(reset, position, g), v)
  {
    hide Sound, IsVisitOrder, UnpacksWire;
    var q := GreetSlot(reset, position, g);
    SeenLog(env, id, c, t, v.min);
    SeenLog(env, id, c, t, g.min);
    SeenLog(env, id, c, t, g.max);
    if !q.needSnapshot && q.sent < v.first.published {
      DueSlotIsRetainedUnlessRaced(env, id, c, t, q, v);
      HasBacklogIsExactUnlessRaced(env, id, c, t, g, q.sent + 1);
    }
  }

  // ---- how much a visit sends

  /** The j records of the history that follow number `sent`, as frames. */
  ghost function LogFrames(session: string, id: nat, c: seq<Commit>, sent: nat, j: nat): (frames: seq<Frame>)
    requires sent + j <= |c|
    ensures |frames| == j && forall i :: 0 <= i < j ==> frames[i] == Log(session, id, c[sent + i].record)
  {
    seq(j, i requires 0 <= i < j => Log(session, id, c[sent + i].record))
  }

  lemma RecordsCost(r: Record)
    ensures RecordBytes(r) >= 48
  {
  }

  lemma NextLogFrame(frames: seq<Frame>, session: string, id: nat, c: seq<Commit>, sent: nat, j: nat)
    requires j > 0 && sent + j <= |c|
    ensures (frames + [Log(session, id, c[sent].record)]) + LogFrames(session, id, c, sent + 1, j - 1)
            == frames + LogFrames(session, id, c, sent, j)
  {
  }

  /** The records are those of the history from number sent + 1 on. */
  ghost predicate Follows(logs: seq<Record>, c: seq<Commit>, sent: nat) {
    sent + |logs| <= |c| && forall k :: 0 <= k < |logs| ==>
      logs[k] == c[sent + k].record && logs[k].seqNo == sent + 1 + k
  }

  lemma NextFollows(logs: seq<Record>, c: seq<Commit>, sent: nat)
    requires logs != [] && Follows(logs, c, sent)
    ensures Follows(logs[1..], c, sent + 1) && logs[0] == c[sent].record && logs[0].seqNo == sent + 1
  {
  }

  lemma LeadingTotal(logs: seq<Record>, j: nat)
    requires 0 < j <= |logs|
    ensures TotalBytes(logs[..j]) == RecordBytes(logs[0]) + TotalBytes(logs[1..][..j - 1])
    ensures TotalBytes(logs) == RecordBytes(logs[0]) + TotalBytes(logs[1..])
  {
    hide RecordBytes;
    assert logs[..j][1..] == logs[1..][..j - 1];
  }

  /** What a batch becomes by the next j records of the slot. */
  ghost predicate SentOn(b: Build, session: string, id: nat, c: seq<Commit>, j: nat, bytes: nat, b': Build) {
    && id < |b.slots| && b.slots[id].sent + j <= |c|
    && b' == b.(slots := b.slots[id := b.slots[id].(sent := b.slots[id].sent + j)],
                frames := b.frames + LogFrames(session, id, c, b.slots[id].sent, j), bytes := b.bytes + bytes)
  }

  lemma FollowsWithin(logs: seq<Record>, c: seq<Commit>, sent: nat)
    requires Follows(logs, c, sent)
    ensures sent + |logs| <= |c|
  {
  }

  lemma NoRecords()
    ensures TotalBytes([]) == 0
  {
  }

  lemma NothingGoesOut(b: Build, session: string, id: nat, c: seq<Commit>, logs: seq<Record>)
    requires id < |b.slots| && b.slots[id].sent <= |c|
    ensures SentOn(b, session, id, c, 0, TotalBytes(logs[..0]), b)
  {
    NoRecords();
    assert logs[..0] == [] && b.frames + LogFrames(session, id, c, b.slots[id].sent, 0) == b.frames;
    assert b.slots[id := b.slots[id].(sent := b.slots[id].sent)] == b.slots;
  }

  /** Records that all fit are all sent, up to the announced number. */
  lemma {:induction false} OffersGoOut(b: Build, session: string, id: nat, logs: seq<Record>, target: nat,
                                       c: seq<Commit>)
    requires id < |b.slots| && b.bytes + TotalBytes(logs) <= MAX_BATCH_BYTES && Follows(logs, c, b.slots[id].sent)
    ensures var j := Min(|logs|, Max(0, target - b.slots[id].sent));
            SentOn(b, session, id, c, j, TotalBytes(logs[..j]), OfferLogs(b, session, id, logs, target))
    decreases logs
  {
    hide RecordBytes, Follows, TotalBytes, LogFrames;
    var sent := b.slots[id].sent;
    FollowsWithin(logs, c, sent);
    if logs != [] {
      NextFollows(logs, c, sent);
    }
    var j := Min(|logs|, Max(0, target - sent));
    if j == 0 {
      NothingGoesOut(b, session, id, c, logs);
    } else {
      RecordsCost(logs[0]);
      LeadingTotal(logs, j);
      OffersGoOut(SendLog(b, session, id, logs[0]), session, id, logs[1..], target, c);
      NextLogFrame(b.frames, session, id, c, sent, j);
    }
  }

  lemma OversizedGoesAlone(b: Build, session: string, id: nat, r: Record, target: nat, c: seq<Commit>)
    requires id < |b.slots| && !b.full && b.bytes + RecordBytes(r) > MAX_BATCH_BYTES
             && (b.frames == [] ==> b.bytes == 0)
    requires Follows([r], c, b.slots[id].sent)
    ensures var b' := OfferLogs(b, session, id, [r], target);
            if b.slots[id].sent + 1 > target then b' == b
            else if b.frames != [] then b' == b.(nextSlot := id, full := true)
            else SentOn(b, session, id, c, 1, RecordBytes(r), b')
  {
    hide RecordBytes;
    assert [r][1..] == [];
  }

  /** What the visit copies: the next records, cut off only by the two limits or because the next one does not fit. */
  lemma CopyIsCutByLimits(env: Env, id: nat, c: seq<Commit>, t: nat, s: SlotState, sent: nat, limit: nat, room: nat)
    requires Valid(env) && Sound(env, id, c) && Seen(c, t, s) && t <= sent && limit > 0
    ensures var logs := LogAfter(s.log, sent, limit, room);
            && sent + |logs| <= Max(sent, s.published) && s.published <= |c| && |logs| <= limit
            && (sent <= |c| ==> Follows(logs, c, sent)) && (sent < s.published ==> logs != [])
            && (TotalBytes(logs) <= room || |logs| == 1)
            && (|logs| < limit && sent + |logs| < s.published ==>
                  TotalBytes(logs) + RecordBytes(c[sent + |logs|].record) > room)
  {
    hide Sound, Seen, TotalBytes, LogAfter, RecordBytes, IsVisitOrder, UnpacksWire, Contiguous, Skipped;
    SeenLog(env, id, c, t, s);
    CopiedLogsAreRecords(env, id, c, t, s, sent, limit, room);
    LogAfterIsBudgetedStretch(s.log, sent, limit, room);
    NumberedFrom(s.log, t, sent);
    var logs, from := LogAfter(s.log, sent, limit, room), Skipped(s.log, sent);
    var rest := s.log[from..];
    if |logs| < |rest| {
      assert rest[|logs|] == s.log[from + |logs|] == c[sent + |logs|].record;
      TotalBytesSnoc(logs, rest[|logs|]);
      RecordsCost(rest[|logs|]);
    }
  }

  /**
   * The batch goes on with exactly the next j records of the slot, in order: 128 of them or all that are pending,
   * unless it reaches its number of frames or the next record does not fit in what is left of 16 MiB. If not even the
   * first one fits, the batch ends and the cursor stays on the slot.
   */
  ghost predicate SendsAllThatFits(b: Build, b': Build, session: string, id: nat, c: seq<Commit>, j: nat, pending: int,
                                   maxFrames: nat)
  {
    && id < |b.slots| && b.slots[id].sent + j <= |c|
    && var q := b.slots[id];
       && j <= 128 && j <= Max(0, pending)
       && b'.frames == b.frames + LogFrames(session, id, c, q.sent, j)
       && b'.slots == b.slots[id := q.(sent := q.sent + j)]
       && (j < 128 && j < pending && |b'.frames| < maxFrames && q.sent + j < |c| ==>
             b'.frames != [] && b'.bytes + RecordBytes(c[q.sent + j].record) > 16 * 1024 * 1024)
       && (j == 0 < pending ==> b'.full && b'.nextSlot == id)
       && (j > 0 || pending <= 0 ==>
             (b'.full <==> |b'.frames| >= maxFrames || b'.bytes >= 16 * 1024 * 1024)
             && b'.nextSlot == if b'.full then (id + 1) % |b.slots| else b.nextSlot)
  }

  lemma OneTotal(r: Record)
    ensures TotalBytes([r]) == RecordBytes(r)
  {
    TotalBytesSnoc([], r);
    assert [] + [r] == [r];
  }

  lemma NoBytes()
    ensures BatchBytes([]) == 0
  {
  }

  /**
   * A visit with room to an unflagged slot whose next records are there sends all that fits up to the announced number,
   * whatever writers do between its looks.
   */
  lemma VisitSendsAllThatFits(env: Env, c: seq<Commit>, t: nat, b: Build, session: string, id: nat, v: View,
                              maxFrames: nat) returns (j: nat)
    requires Valid(env) && id < |b.slots| && Sound(env, id, c) && SeenInOrder(c, t, v)
    requires WithinLimits(b, maxFrames) && HasRoom(b, maxFrames) && !WantsSnapshot(b, id, v)
    requires t <= b.slots[id].sent <= |c|
    ensures var b' := Visit(b, session, env.lay, id, v, maxFrames);
            && SendsAllThatFits(b, b', session, id, c, j, v.first.published - b.slots[id].sent, maxFrames)
            && b'.completed == b.completed + [(id, v.first.published)]
  {
    hide Sound, Seen, RecordBytes, TotalBytes, BatchBytes, LogAfter, HasBacklog, Wire, SnapshotCodec.Encode,
         IsVisitOrder, UnpacksWire, OfferLogs;
    var sent, target := b.slots[id].sent, v.first.published;
    var limit, room := Min(MAX_LOGS_PER_SLOT, maxFrames - |b.frames|), MAX_BATCH_BYTES - b.bytes;
    CopyIsCutByLimits(env, id, c, t, v.last, sent, limit, room);
    var logs := CopiedLogs(b, id, v, maxFrames);
    if TotalBytes(logs) <= room {
      OffersGoOut(b, session, id, logs, target, c);
      j := Min(|logs|, Max(0, v.first.published - b.slots[id].sent));
      assert j == |logs| ==> logs[..j] == logs;
    } else {
      assert logs == [logs[0]];
      OneTotal(logs[0]);
      NoBytes();
      OversizedGoesAlone(b, session, id, logs[0], target, c);
      j := if target > sent && b.frames == [] then 1 else 0;
      assert b.frames + LogFrames(session, id, c, sent, 0) == b.frames;
    }
  }

  // ---- what a batch does to each slot

  ghost predicate HasImage(frames: seq<Frame>, id: nat) {
    exists f :: f in frames && f.Snapshot? && f.slot == id
  }

  /** The visit sends the slot's image. */
  ghost predicate SendsImage(lay: Layout, b: Build, id: nat, v: View, maxFrames: nat)
    requires id < |b.slots| && IsVisitOrder(lay.order)
  {
    HasRoom(b, maxFrames) && WantsSnapshot(b, id, v) && Fits(b, |Wire(SnapshotCodec.Encode(lay, v.last.objects))|)
  }

  lemma OneMoreFrame(frames: seq<Frame>, f: Frame)
    ensures forall j :: HasImage(frames + [f], j) <==> HasImage(frames, j) || (f.Snapshot? && f.slot == j)
  {
    assert f in frames + [f];
    assert forall f' :: f' in frames + [f] <==> f' in frames || f' == f;
  }

  lemma {:induction false} OffersHoldNoImage(b: Build, session: string, id: nat, logs: seq<Record>, target: nat)
    requires id < |b.slots|
    ensures var b' := OfferLogs(b, session, id, logs, target);
            && (forall j :: HasImage(b'.frames, j) <==> HasImage(b.frames, j))
            && forall j :: 0 <= j < |b.slots| && j != id ==> b'.slots[j] == b.slots[j]
    decreases logs
  {
    hide RecordBytes, HasImage;
    if logs != [] && logs[0].seqNo <= target && logs[0].seqNo == b.slots[id].sent + 1 && Fits(b, RecordBytes(logs[0])) {
      OneMoreFrame(b.frames, Log(session, id, logs[0]));
      OffersHoldNoImage(SendLog(b, session, id, logs[0]), session, id, logs[1..], target);
    }
  }

  /** A visit moves no other slot, and holds an image of its own slot exactly if it sends one. */
  lemma VisitMovesOneSlot(lay: Layout, b: Build, session: string, id: nat, v: View, maxFrames: nat)
    requires id < |b.slots| && IsVisitOrder(lay.order) && WithinLimits(b, maxFrames)
    ensures var b' := Visit(b, session, lay, id, v, maxFrames);
            && (forall j :: 0 <= j < |b.slots| && j != id ==> b'.slots[j] == b.slots[j])
            && (forall j :: HasImage(b'.frames, j) <==>
                  HasImage(b.frames, j) || (j == id && SendsImage(lay, b, id, v, maxFrames)))
            && (SendsImage(lay, b, id, v, maxFrames) ==>
                  b'.slots[id] == Progress(b.slots[id].acked, v.last.published, false))
  {
    hide HasBacklog, Wire, SnapshotCodec.Encode, OfferLogs, BatchBytes, RecordBytes, TotalBytes, LogAfter, IsVisitOrder,
         HasImage;
    if HasRoom(b, maxFrames) && !WantsSnapshot(b, id, v) {
      OffersHoldNoImage(b, session, id, CopiedLogs(b, id, v, maxFrames), v.first.published);
    } else if SendsImage(lay, b, id, v, maxFrames) {
      OneMoreFrame(b.frames, Snapshot(session, id, v.last.published, Wire(SnapshotCodec.Encode(lay, v.last.objects))));
    }
  }

  lemma NoImages()
    ensures forall j :: !HasImage([], j)
  {
  }

  /** Before its visit a slot is as the batch found it, and after it as the visit left it. */
  lemma {:induction false} SlotMovesOnce(lay: Layout, g: Session, views: seq<View>, maxFrames: nat, i: nat, k: nat)
    requires i <= |views| == |g.slots| && k < |views| && IsVisitOrder(lay.order)
    ensures var id := VisitedSlot(g.nextSlot, k, |views|);
            var b, before := BuildUpTo(g, lay, views, maxFrames, i), BuildUpTo(g, lay, views, maxFrames, k);
            if i <= k then b.slots[id] == g.slots[id] && !HasImage(b.frames, id)
            else
              && b.slots[id] == BuildUpTo(g, lay, views, maxFrames, k + 1).slots[id]
              && (HasImage(b.frames, id) <==> SendsImage(lay, before, id, views[k], maxFrames))
    decreases i
  {
    hide Visit, VisitedSlot, WithinLimits, SendsImage, HasImage, IsVisitOrder;
    if i == 0 {
      NoImages();
    } else {
      var id := VisitedSlot(g.nextSlot, i - 1, |views|);
      SlotMovesOnce(lay, g, views, maxFrames, i - 1, k);
      VisitMovesOneSlot(lay, BuildUpTo(g, lay, views, maxFrames, i - 1), g.sessionId, id, views[i - 1], maxFrames);
      if VisitedSlot(g.nextSlot, k, |views|) == id {
        VisitedOnce(g.nextSlot, k, i - 1, |views|);
      }
    }
  }

  lemma VisitExtends(lay: Layout, b: Build, session: string, id: nat, v: View, maxFrames: nat)
    requires id < |b.slots| && IsVisitOrder(lay.order) && WithinLimits(b, maxFrames)
    ensures b.frames <= Visit(b, session, lay, id, v, maxFrames).frames
  {
    hide HasBacklog, Wire, SnapshotCodec.Encode, OfferLogs, BatchBytes, RecordBytes, TotalBytes, LogAfter, IsVisitOrder;
    if HasRoom(b, maxFrames) && !WantsSnapshot(b, id, v) {
      OffersExtend(b, session, id, CopiedLogs(b, id, v, maxFrames), v.first.published);
    }
  }

  /** What a visit sent stays in the batch. */
  lemma {:induction false} BatchGrows(lay: Layout, g: Session, views: seq<View>, maxFrames: nat, k: nat, i: nat)
    requires k <= i <= |views| == |g.slots| && IsVisitOrder(lay.order)
    ensures BuildUpTo(g, lay, views, maxFrames, k).frames <= BuildUpTo(g, lay, views, maxFrames, i).frames
    decreases i - k
  {
    hide Visit, VisitedSlot, WithinLimits, IsVisitOrder;
    if k == i {
    } else {
      BatchGrows(lay, g, views, maxFrames, k, i - 1);
      VisitExtends(lay, BuildUpTo(g, lay, views, maxFrames, i - 1), g.sessionId,
                   VisitedSlot(g.nextSlot, i - 1, |views|), views[i - 1], maxFrames);
    }
  }

  // ---- what a HELLO does to each slot

  /** The last position that names the slot; the number of positions if none does. */
  function LastNamed(positions: seq<Position>, id: nat): (k: nat)
    ensures k <= |positions| && (k < |positions| ==> positions[k].0 == id)
    ensures forall i :: (if k < |positions| then k + 1 else 0) <= i < |positions| ==> positions[i].0 != id
  {
    if positions == [] then 0
    else if positions[|positions| - 1].0 == id then |positions| - 1
    else
      var k := LastNamed(positions[..|positions| - 1], id);
      if k == |positions| - 1 then |positions| else k
  }

  /** The HELLO names the slot. */
  predicate Names(hello: Frame, id: nat)
    requires hello.Hello?
  {
    LastNamed(hello.positions, id) < |hello.positions|
  }

  /** The last position that names a slot decides how it is greeted; a slot that none names stays as it was. */
  lemma {:induction false} LastNamingGreets(slots: seq<Progress>, reset: bool, positions: seq<Position>,
                                            views: seq<View>, id: nat)
    requires |views| == |positions| && id < |slots|
    ensures var k := LastNamed(positions, id);
            GreetSlots(slots, reset, positions, views)[id] ==
              if k < |positions| then GreetSlot(reset, positions[k].1, views[k]) else slots[id]
    decreases |positions|
  {
    hide GreetSlot;
    if positions == [] {
    } else {
      LastNamingGreets(slots, reset, positions[..|positions| - 1], views[..|positions| - 1], id);
    }
  }

  /** The HELLO of a replica names every slot that it has. */
  lemma OwnHelloNamesAll(r: Replica, hello: Frame, id: nat)
    requires OwnHello(r, hello) && id < |r.slots|
    ensures Names(hello, id)
  {
    assert hello.positions[id].0 == id;
  }
}
