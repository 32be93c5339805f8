/** Sessions, batches and log retention of the primary (src/repl/master_replicator.cpp), as functions of values. */
module Master {
  import opened Core
  import opened Numbers
  import opened Binlog
  import opened HashSlot
  import opened Order
  import opened SnapshotCodec
  import opened FrameCodec

  const MAX_BATCH_BYTES: nat := 16 * 1024 * 1024
  const MAX_LOGS_PER_SLOT: nat := 128

  /** What the primary knows about one slot of one replica. */
  datatype Progress = Progress(acked: nat, sent: nat, needSnapshot: bool)

  datatype Session = Session(replicaId: string, sessionId: string, slots: seq<Progress>, nextSlot: nat, reset: bool)

  /**
   * The states of one slot at the five moments at which a poll looks at it: the published number, the lowest and the
   * highest retained log number, the published number again, and finally the image or the logs themselves. Each
   * look takes the slot's locks anew, so writers may commit in between.
   */
  datatype View = View(first: SlotState, min: SlotState, max: SlotState, second: SlotState, last: SlotState)

  /** A slot that no writer touches during the poll. */
  function AtRest(s: SlotState): View {
    View(s, s, s, s, s)
  }

  predicate HasBacklog(v: View, seqNo: nat) {
    if seqNo == 0 then true
    else if MinSeqNo(v.min.log) == 0 && MaxSeqNo(v.max.log) == 0 then seqNo > v.second.published
    else MinSeqNo(v.min.log) <= seqNo <= MaxSeqNo(v.max.log) + 1
  }

  // ---- HELLO

  function SessionName(epoch: string, replicaId: string, n: nat): string {
    epoch + "-" + replicaId + "-" + Decimal(n)
  }

  function NewSession(replicaId: string, count: nat): Session {
    Session(replicaId, "", seq(count, i => Progress(0, 0, false)), 0, false)
  }

  function GreetSlot(reset: bool, position: nat, v: View): Progress {
    var acked := if reset then 0 else position;
    var need := acked > v.first.published || !HasBacklog(v, acked + 1);
    if acked > v.first.published then Progress(0, 0, need) else Progress(acked, acked, need)
  }

  function GreetSlots(slots: seq<Progress>, reset: bool, positions: seq<Position>, views: seq<View>): (r: seq<Progress>)
    requires |views| == |positions|
    ensures |r| == |slots|
  {
    if positions == [] then slots
    else
      var last := |positions| - 1;
      var before := GreetSlots(slots, reset, positions[..last], views[..last]);
      var (slot, position) := positions[last];
      if slot >= |slots| then before else before[slot := GreetSlot(reset, position, views[last])]
  }

  function NeedsReset(replica: Session, session: string): bool {
    replica.sessionId == "" || session != replica.sessionId
  }

  function Greet(replica: Session, session: string, positions: seq<Position>, fresh': string, views: seq<View>): Session
    requires |views| == |positions|
  {
    var reset := NeedsReset(replica, session);
    replica.(reset := reset,
             sessionId := if reset then fresh' else replica.sessionId,
             slots := GreetSlots(replica.slots, reset, positions, views))
  }

  // ---- batches

  datatype Build = Build(slots: seq<Progress>, nextSlot: nat, frames: seq<Frame>, bytes: nat, full: bool,
                         completed: seq<Position>)

  predicate Fits(b: Build, size: nat) {
    b.frames == [] || (b.bytes < MAX_BATCH_BYTES && size <= MAX_BATCH_BYTES - b.bytes)
  }

  ghost function OfferSnapshot(b: Build, session: string, lay: Layout, id: nat, image: SlotState): Build
    requires id < |b.slots| && IsVisitOrder(lay.order)
  {
    var payload := Wire(SnapshotCodec.Encode(lay, image.objects));
    if !Fits(b, |payload|) then b.(nextSlot := id, full := true)
    else b.(slots := b.slots[id := Progress(b.slots[id].acked, image.published, false)],
            frames := b.frames + [Snapshot(session, id, image.published, payload)],
            bytes := b.bytes + |payload|)
  }

  function SendLog(b: Build, session: string, id: nat, r: Record): (sent: Build)
    requires id < |b.slots|
    ensures |sent.slots| == |b.slots|
  {
    b.(slots := b.slots[id := b.slots[id].(sent := r.seqNo)],
       frames := b.frames + [Log(session, id, r)],
       bytes := b.bytes + RecordBytes(r))
  }

  function OfferLogs(b: Build, session: string, id: nat, logs: seq<Record>, target: nat): (r: Build)
    requires id < |b.slots|
    ensures |r.slots| == |b.slots|
    decreases logs
  {
    if logs == [] || logs[0].seqNo > target then b
    else if logs[0].seqNo != b.slots[id].sent + 1 then b.(slots := b.slots[id := b.slots[id].(needSnapshot := true)])
    else if !Fits(b, RecordBytes(logs[0])) then b.(nextSlot := id, full := true)
    else OfferLogs(SendLog(b, session, id, logs[0]), session, id, logs[1..], target)
  }

  /** The logs that the poll copies for a slot, given what room is left. */
  function CopiedLogs(b: Build, id: nat, v: View, maxFrames: nat): seq<Record>
    requires id < |b.slots| && |b.frames| <= maxFrames && b.bytes <= MAX_BATCH_BYTES
  {
    LogAfter(v.last.log, b.slots[id].sent, Min(MAX_LOGS_PER_SLOT, maxFrames - |b.frames|), MAX_BATCH_BYTES - b.bytes)
  }

  predicate HasRoom(b: Build, maxFrames: nat) {
    !b.full && |b.frames| < maxFrames
  }

  predicate WantsSnapshot(b: Build, id: nat, v: View)
    requires id < |b.slots|
  {
    b.slots[id].needSnapshot || !HasBacklog(v, b.slots[id].sent + 1)
  }

  ghost function Serve(b: Build, session: string, lay: Layout, id: nat, v: View, maxFrames: nat): (r: Build)
    requires id < |b.slots| && IsVisitOrder(lay.order)
    requires HasRoom(b, maxFrames) ==> b.bytes <= MAX_BATCH_BYTES
    ensures |r.slots| == |b.slots|
  {
    if !HasRoom(b, maxFrames) then b
    else if WantsSnapshot(b, id, v) then OfferSnapshot(b, session, lay, id, v.last)
    else OfferLogs(b, session, id, CopiedLogs(b, id, v, maxFrames), v.first.published)
  }

  /** The number that DONE will announce for the slot. */
  function Target(before: Build, after: Build, id: nat, v: View, maxFrames: nat): nat
    requires id < |before.slots| == |after.slots|
  {
    if HasRoom(before, maxFrames) && WantsSnapshot(before, id, v) && !after.full then after.slots[id].sent
      else v.first.published
  }

  function CloseIfFull(b: Build, id: nat, maxFrames: nat): Build
    requires |b.slots| > 0
  {
    if !b.full && (|b.frames| >= maxFrames || b.bytes >= MAX_BATCH_BYTES)
    then b.(nextSlot := (id + 1) % |b.slots|, full := true) else b
  }

  ghost function Visit(b: Build, session: string, lay: Layout, id: nat, v: View, maxFrames: nat): (r: Build)
    requires id < |b.slots| && IsVisitOrder(lay.order)
    requires HasRoom(b, maxFrames) ==> b.bytes <= MAX_BATCH_BYTES
    ensures |r.slots| == |b.slots|
  {
    var served := Serve(b, session, lay, id, v, maxFrames);
    var closed := CloseIfFull(served, id, maxFrames);
    if closed.slots[id].needSnapshot then closed
    else closed.(completed := closed.completed + [(id, Target(b, served, id, v, maxFrames))])
  }

  /** The slot visited in round i of a batch that starts at slot `start`. */
  function VisitedSlot(start: nat, i: nat, count: nat): (id: nat)
    requires count > 0
    ensures id < count
  {
    (start + i) % count
  }

  function StartBuild(replica: Session): Build {
    Build(replica.slots, replica.nextSlot, [], 0, false, [])
  }

  /** The size that a frame counts against the byte limit. */
  function FrameBytes(f: Frame): nat {
    match f
    case Snapshot(_, _, _, payload) => |payload|
    case Log(_, _, record) => RecordBytes(record)
    case _ => 0
  }

  function BatchBytes(frames: seq<Frame>): nat {
    if frames == [] then 0 else BatchBytes(frames[..|frames| - 1]) + FrameBytes(frames[|frames| - 1])
  }

  /** At most maxFrames frames, and at most MAX_BATCH_BYTES bytes unless the batch is a single frame. */
  predicate Capped(b: Build, maxFrames: nat) {
    && |b.frames| <= maxFrames
    && b.bytes == BatchBytes(b.frames)
    && (b.bytes <= MAX_BATCH_BYTES || |b.frames| == 1)
  }

  lemma BatchBytesSnoc(frames: seq<Frame>, f: Frame)
    ensures BatchBytes(frames + [f]) == BatchBytes(frames) + FrameBytes(f)
  {
    assert (frames + [f])[..|frames|] == frames;
  }

  predicate WithinLimits(b: Build, maxFrames: nat) {
    Capped(b, maxFrames) && (!b.full ==> b.bytes < MAX_BATCH_BYTES)
  }

  lemma SendLogKeepsLimits(b: Build, session: string, id: nat, r: Record, maxFrames: nat)
    requires id < |b.slots| && Capped(b, maxFrames) && |b.frames| < maxFrames && Fits(b, RecordBytes(r))
    ensures Capped(SendLog(b, session, id, r), maxFrames)
  {
    BatchBytesSnoc(b.frames, Log(session, id, r));
  }

  lemma {:induction false} OfferLogsKeepsLimits(b: Build, session: string, id: nat, logs: seq<Record>, target: nat,
                                                maxFrames: nat)
    requires id < |b.slots| && Capped(b, maxFrames) && |b.frames| + |logs| <= maxFrames
    ensures Capped(OfferLogs(b, session, id, logs, target), maxFrames)
    decreases logs
  {
    hide RecordBytes, BatchBytes;
    if logs != [] && logs[0].seqNo <= target && logs[0].seqNo == b.slots[id].sent + 1 && Fits(b, RecordBytes(logs[0])) {
      SendLogKeepsLimits(b, session, id, logs[0], maxFrames);
      OfferLogsKeepsLimits(SendLog(b, session, id, logs[0]), session, id, logs[1..], target, maxFrames);
    }
  }

  lemma VisitKeepsLimits(b: Build, session: string, lay: Layout, id: nat, v: View, maxFrames: nat)
    requires id < |b.slots| && IsVisitOrder(lay.order) && WithinLimits(b, maxFrames)
    ensures WithinLimits(Visit(b, session, lay, id, v, maxFrames), maxFrames)
  {
    if HasRoom(b, maxFrames) && WantsSnapshot(b, id, v) {
      BatchBytesSnoc(b.frames, Snapshot(session, id, v.last.published,
                                        Wire(SnapshotCodec.Encode(lay, v.last.objects))));
    } else if HasRoom(b, maxFrames) {
      var limit := Min(MAX_LOGS_PER_SLOT, maxFrames - |b.frames|);
      CopyRespectsLimit(v.last.log, b.slots[id].sent, limit, MAX_BATCH_BYTES - b.bytes, []);
      OfferLogsKeepsLimits(b, session, id, CopiedLogs(b, id, v, maxFrames), v.first.published, maxFrames);
    }
  }

  ghost function BuildUpTo(replica: Session, lay: Layout, views: seq<View>, maxFrames: nat, i: nat): (b: Build)
    requires i <= |views| == |replica.slots| && IsVisitOrder(lay.order)
    ensures |b.slots| == |replica.slots| && WithinLimits(b, maxFrames)
  {
    if i == 0 then StartBuild(replica)
    else
      var before := BuildUpTo(replica, lay, views, maxFrames, i - 1);
      var id := VisitedSlot(replica.nextSlot, i - 1, |replica.slots|);
      VisitKeepsLimits(before, replica.sessionId, lay, id, views[i - 1], maxFrames);
      Visit(before, replica.sessionId, lay, id, views[i - 1], maxFrames)
  }

  // ---- polls

  function FindReplica(replicas: seq<Session>, replicaId: string): (r: nat)
    ensures r <= |replicas| && (r < |replicas| ==> replicas[r].replicaId == replicaId)
    ensures forall k :: 0 <= k < r ==> replicas[k].replicaId != replicaId
  {
    if replicas == [] || replicas[0].replicaId == replicaId then 0 else 1 + FindReplica(replicas[1..], replicaId)
  }

  lemma {:induction false} FoundFirst(replicas: seq<Session>, replicaId: string, r: nat)
    requires r <= |replicas| && (r < |replicas| ==> replicas[r].replicaId == replicaId)
    requires forall k :: 0 <= k < r ==> replicas[k].replicaId != replicaId
    ensures FindReplica(replicas, replicaId) == r
  {
    if r == 0 {
    } else {
      FoundFirst(replicas[1..], replicaId, r - 1);
    }
  }

  /** A session put where its replica is found, or at the end, is found again. */
  lemma FoundAgain(replicas: seq<Session>, replicaId: string, session: Session)
    requires session.replicaId == replicaId
    ensures var r := FindReplica(replicas, replicaId);
            FindReplica(if r < |replicas| then replicas[r := session] else replicas + [session], replicaId) == r
  {
    hide FindReplica;
    var r := FindReplica(replicas, replicaId);
    FoundFirst(if r < |replicas| then replicas[r := session] else replicas + [session], replicaId, r);
  }

  /** The batch that answers a HELLO: BEGIN, the data frames, DONE with the slots that need no snapshot. */
  function Batch(sessionId: string, reset: bool, b: Build): seq<Frame> {
    [Begin(sessionId, reset)] + b.frames + [Done(sessionId, b.completed)]
  }

  ghost function PollSession(replica: Session, session: string, positions: seq<Position>, fresh': string,
                             greetViews: seq<View>, lay: Layout, buildViews: seq<View>, maxFrames: nat)
      : (r: (Session, seq<Frame>))
    requires |greetViews| == |positions| && |buildViews| == |replica.slots| && IsVisitOrder(lay.order)
  {
    var greeted := Greet(replica, session, positions, fresh', greetViews);
    var b := BuildUpTo(greeted, lay, buildViews, maxFrames, |greeted.slots|);
    (greeted.(slots := b.slots, nextSlot := b.nextSlot), Batch(greeted.sessionId, greeted.reset, b))
  }

  // ---- retention

  /** Every replica tracks this many slots. */
  predicate SlotsTracked(replicas: seq<Session>, count: nat) {
    forall k :: 0 <= k < |replicas| ==> |replicas[k].slots| == count
  }

  /** The lowest number that every replica has acknowledged for the slot. */
  function MinAck(replicas: seq<Session>, id: nat, count: nat): (low: nat)
    requires replicas != [] && SlotsTracked(replicas, count) && id < count
    ensures forall k :: 0 <= k < |replicas| ==> low <= replicas[k].slots[id].acked
    ensures exists k :: 0 <= k < |replicas| && low == replicas[k].slots[id].acked
  {
    var last := |replicas| - 1;
    var acked := replicas[last].slots[id].acked;
    if last == 0 then acked
    else
      var rest := MinAck(replicas[..last], id, count);
      if acked < rest then acked else rest
  }

  /** Collection trims a slot's log through the lowest acknowledged number; the largest number stands for none. */
  predicate Collects(replicas: seq<Session>, id: nat, count: nat)
    requires SlotsTracked(replicas, count) && id < count
  {
    replicas != [] && MinAck(replicas, id, count) < U64_MAX
  }

  /** The number through which collection trims; 0 trims nothing. */
  function CollectThrough(replicas: seq<Session>, id: nat, count: nat): nat
    requires SlotsTracked(replicas, count) && id < count
  {
    if Collects(replicas, id, count) then MinAck(replicas, id, count) else 0
  }

  function RetainedBytes(states: seq<SlotState>): nat {
    if states == [] then 0 else RetainedBytes(states[..|states| - 1]) + TotalBytes(states[|states| - 1].log)
  }

  function FlagReplica(replica: Session, id: nat, through: nat): Session
    requires id < |replica.slots|
  {
    var p := replica.slots[id];
    if p.acked < through then replica.(slots := replica.slots[id := Progress(p.acked, p.acked, true)]) else replica
  }

  function FlagReplicas(replicas: seq<Session>, id: nat, through: nat, count: nat): (r: seq<Session>)
    requires SlotsTracked(replicas, count) && id < count
    ensures SlotsTracked(r, count) && |r| == |replicas|
    ensures forall k :: 0 <= k < |r| ==> r[k] == FlagReplica(replicas[k], id, through)
  {
    seq(|replicas|, k requires 0 <= k < |replicas| => FlagReplica(replicas[k], id, through))
  }

  /**
   * The states of one slot at the four moments at which maintenance takes its lock: as collection trims its log, as its
   * bytes are counted, as its highest number is read, and as its log is dropped through that number. Writers may commit
   * in between.
   */
  datatype Upkeep = Upkeep(collect: SlotState, sum: SlotState, max: SlotState, trim: SlotState)

  /** The bytes that maintenance counts, slot by slot. */
  function CountedBytes(looks: seq<Upkeep>): nat {
    if looks == [] then 0 else CountedBytes(looks[..|looks| - 1]) + TotalBytes(looks[|looks| - 1].sum.log)
  }

  /** The number through which the log of a slot is dropped if the slot is evicted. */
  function DropThrough(look: Upkeep): nat {
    MaxSeqNo(look.max.log)
  }

  /** The bytes of the leading records numbered at most through. */
  function LeadingBytes(log: seq<Record>, through: nat): nat {
    TotalBytes(log[..|log| - |TrimThrough(log, through)|])
  }

  /** The bytes that evicting the slot frees. */
  function FreedBytes(look: Upkeep): nat {
    LeadingBytes(look.trim.log, DropThrough(look))
  }

  /** The sessions after an eviction, and how many slots, from the first on, lost their log. */
  datatype Eviction = Eviction(replicas: seq<Session>, evicted: nat)

  /** Eviction slot by slot from i on, until the running total meets the budget. */
  function EvictFrom(replicas: seq<Session>, looks: seq<Upkeep>, budget: nat, total: nat, i: nat): (r: Eviction)
    requires i <= |looks| && SlotsTracked(replicas, |looks|)
    ensures |r.replicas| == |replicas| && SlotsTracked(r.replicas, |looks|) && i <= r.evicted <= |looks|
    decreases |looks| - i
  {
    if i == |looks| || total <= budget then Eviction(replicas, i)
    else
      EvictFrom(FlagReplicas(replicas, i, DropThrough(looks[i]), |looks|), looks, budget,
                total - Min(total, FreedBytes(looks[i])), i + 1)
  }

  function EnforceBudget(replicas: seq<Session>, looks: seq<Upkeep>, budget: nat): (r: Eviction)
    requires SlotsTracked(replicas, |looks|)
    ensures |r.replicas| == |replicas| && SlotsTracked(r.replicas, |looks|) && r.evicted <= |looks|
  {
    EvictFrom(replicas, looks, budget, CountedBytes(looks), 0)
  }
}
