/** A primary with its histories: writes, maintenance and polls, with writers at work during each poll. */
module Primary {
  import opened Core
  import opened Binlog
  import opened HashSlot
  import opened Order
  import opened Commands
  import opened Replay
  import opened SnapshotCodec
  import opened FrameCodec
  import opened Master
  import opened Slave
  import opened History
  import opened Agreement

  datatype Primary = Primary(
    epoch: string, states: seq<SlotState>, commits: seq<seq<Commit>>, replicas: seq<Session>, issued: nat, budget: nat)

  /** One write: a command or a sweep on one slot, at a time, with the random choice it makes. */
  datatype Write = Write(slot: nat, op: Op, choose: Choice, now: u64)

  /** The number of writes of the slot whose records are gone. */
  function Dropped(c: seq<Commit>, s: SlotState): int {
    |c| - |s.log|
  }

  ghost predicate SlotOk(env: Env, slot: nat, c: seq<Commit>, s: SlotState)
    requires Valid(env)
  {
    Sound(env, slot, c) && |s.log| <= |c| && Backs(c, Dropped(c, s), s)
  }

  ghost predicate PrimaryOk(env: Env, n: nat, p: Primary)
    requires Valid(env)
  {
    && n > 0 && |p.states| == |p.commits| == n && SlotsTracked(p.replicas, n)
    && forall i :: 0 <= i < n ==> SlotOk(env, i, p.commits[i], p.states[i])
  }

  function FreshPrimary(epoch: string, n: nat, budget: nat): Primary {
    Primary(epoch, seq(n, i => EMPTY_SLOT), seq(n, i => []), [], 1, budget)
  }

  // ---- writes

  /** A write that commits: it is on the slot's own key, at a real time, and leaves a map that a snapshot can carry. */
  ghost predicate Commits(env: Env, p: Primary, w: Write)
    requires Valid(env)
  {
    && w.slot < |p.states| == |p.commits| && env.slotOf(OpKey(w.op)) == w.slot && w.now != 0 && FairChoice(w.choose)
    && |p.commits[w.slot]| + 1 < U64_MAX
    && var c := OpChange(env.sc, w.choose, w.op, w.now, p.states[w.slot].objects);
       c.Some? && Carried(env, w.slot, c.value.objects)
  }

  ghost function ApplyWrite(env: Env, p: Primary, w: Write): Primary
    requires Valid(env)
  {
    if !Commits(env, p, w) then p
    else
      var s := p.states[w.slot];
      var c := OpChange(env.sc, w.choose, w.op, w.now, s.objects);
      p.(states := p.states[w.slot := Apply(s, c, w.now)],
         commits := p.commits[w.slot := p.commits[w.slot] + [Commit(NextRecord(s, c.value, w.now), c.value.objects)]])
  }

  ghost function ApplyWrites(env: Env, p: Primary, ws: seq<Write>): Primary
    requires Valid(env)
    decreases |ws|
  {
    if ws == [] then p else ApplyWrites(env, ApplyWrite(env, p, ws[0]), ws[1..])
  }

  lemma SoundExtends(env: Env, slot: nat, c: seq<Commit>, commit: Commit)
    requires Valid(env) && Sound(env, slot, c) && |c| + 1 < U64_MAX
    requires commit.record.seqNo == |c| + 1 && Carried(env, slot, commit.after)
    requires Replays(env.slotOf, env.sc, slot, MapAt(c, |c|), commit.record, commit.after)
    ensures Sound(env, slot, c + [commit])
  {
    hide Replays, Carried;
    var c' := c + [commit];
    forall k {:trigger c'[k]} | 0 <= k < |c'|
      ensures c'[k].record.seqNo == k + 1 && Replays(env.slotOf, env.sc, slot, MapAt(c', k), c'[k].record, c'[k].after)
      ensures Carried(env, slot, c'[k].after)
    {
      assert MapAt(c', k) == MapAt(c, k);
      if k < |c| {
        assert c'[k] == c[k];
      }
    }
  }

  lemma BacksExtends(c: seq<Commit>, t: nat, s: SlotState, change: Change, now: u64)
    requires Backs(c, t, s)
    ensures Backs(c + [Commit(NextRecord(s, change, now), change.objects)], t, Apply(s, Some(change), now))
  {
  }

  lemma WriteKeepsSlot(env: Env, slot: nat, c: seq<Commit>, s: SlotState, op: Op, choose: Choice, now: u64)
    requires Valid(env) && SlotOk(env, slot, c, s) && env.slotOf(OpKey(op)) == slot && now != 0 && FairChoice(choose)
    requires |c| + 1 < U64_MAX
    requires var change := OpChange(env.sc, choose, op, now, s.objects);
             change.Some? && Carried(env, slot, change.value.objects)
    ensures var change := OpChange(env.sc, choose, op, now, s.objects);
            var c' := c + [Commit(NextRecord(s, change.value, now), change.value.objects)];
            SlotOk(env, slot, c', Apply(s, change, now)) && Dropped(c', Apply(s, change, now)) == Dropped(c, s)
  {
    hide OpChange, Replays, Carried, Sound, FairChoice, IsVisitOrder, UnpacksWire;
    var change := OpChange(env.sc, choose, op, now, s.objects);
    ReplayIsExact(env.slotOf, env.sc, choose, slot, s.objects, op, |c| + 1, now);
    assert NextRecord(s, change.value, now) == LoggedAs(change.value, |c| + 1, now);
    SoundExtends(env, slot, c, Commit(NextRecord(s, change.value, now), change.value.objects));
    BacksExtends(c, Dropped(c, s), s, change.value, now);
  }

  lemma WriteKeepsPrimary(env: Env, n: nat, p: Primary, w: Write)
    requires Valid(env) && PrimaryOk(env, n, p)
    ensures var p' := ApplyWrite(env, p, w);
            && PrimaryOk(env, n, p') && Grown(p.commits, p'.commits)
            && (forall i :: 0 <= i < n ==> Dropped(p'.commits[i], p'.states[i]) == Dropped(p.commits[i], p.states[i]))
            && p' == p.(states := p'.states, commits := p'.commits)
  {
    if Commits(env, p, w) {
      WriteKeepsSlot(env, w.slot, p.commits[w.slot], p.states[w.slot], w.op, w.choose, w.now);
      hide OpChange, SlotOk, Carried;
    }
  }

  lemma {:induction false} WritesKeepPrimary(env: Env, n: nat, p: Primary, ws: seq<Write>)
    requires Valid(env) && PrimaryOk(env, n, p)
    ensures var p' := ApplyWrites(env, p, ws);
            && PrimaryOk(env, n, p') && Grown(p.commits, p'.commits)
            && (forall i :: 0 <= i < n ==> Dropped(p'.commits[i], p'.states[i]) == Dropped(p.commits[i], p.states[i]))
            && p' == p.(states := p'.states, commits := p'.commits)
    decreases |ws|
  {
    if ws == [] {
    } else {
      WriteKeepsPrimary(env, n, p, ws[0]);
      hide ApplyWrite, SlotOk;
      WritesKeepPrimary(env, n, ApplyWrite(env, p, ws[0]), ws[1..]);
    }
  }

  // ---- maintenance

  lemma TrimKeepsBacking(c: seq<Commit>, t: nat, s: SlotState, through: nat)
    requires Backs(c, t, s) && forall j :: 0 <= j < |s.log| ==> s.log[j].seqNo == t + j + 1
    ensures Backs(c, Max(t, Min(through, |c|)), Trim(s, through))
  {
    hide TrimThrough, MapAt;
    TrimLeavesSuffix(s.log, through);
    var rest := TrimThrough(s.log, through);
    var d := |s.log| - |rest|;
    assert forall j :: 0 <= j < |rest| ==> rest[j] == s.log[d + j] == c[t + d + j].record;
    if rest != [] {
      assert rest[0].seqNo == t + d + 1;
    }
    if d > 0 {
      assert s.log[d - 1].seqNo == t + d <= through;
    }
  }

  lemma TrimKeepsSlot(env: Env, slot: nat, c: seq<Commit>, s: SlotState, through: nat)
    requires Valid(env) && SlotOk(env, slot, c, s)
    ensures SlotOk(env, slot, c, Trim(s, through))
    ensures Dropped(c, Trim(s, through)) == Max(Dropped(c, s), Min(through, |c|))
  {
    hide Sound, TrimThrough, IsVisitOrder, UnpacksWire;
    BackedLog(env, slot, c, Dropped(c, s), s);
    TrimKeepsBacking(c, Dropped(c, s), s, through);
  }

  /** Maintenance: the writes that commit while it runs, and what it sees of each slot. */
  datatype MaintainCall = MaintainCall(during: seq<Write>, looks: seq<Upkeep>)

  /** How many records of the slot are gone after collection. */
  function CollectedTo(t: nat, through: nat, look: Upkeep): nat {
    Max(t, Min(through, look.collect.published))
  }

  /**
   * What maintenance sees of a slot with history c at its start and c' at its end: four looks in time order, the first
   * before collection trims the log and the others after it.
   */
  ghost predicate UpkeepSeen(c: seq<Commit>, c': seq<Commit>, t: nat, through: nat, look: Upkeep) {
    && |c| <= look.collect.published <= look.sum.published <= look.max.published <= look.trim.published
    && Seen(c', t, look.collect)
    && var rest := CollectedTo(t, through, look);
       Seen(c', rest, look.sum) && Seen(c', rest, look.max) && Seen(c', rest, look.trim)
  }

  /** The last number that maintenance takes from the slot's log. */
  function GoneThrough(through: nat, look: Upkeep, evicted: bool): nat {
    Max(Min(through, look.collect.published), if evicted then DropThrough(look) else 0)
  }

  function TrimSlots(states: seq<SlotState>, replicas: seq<Session>, looks: seq<Upkeep>, evicted: nat)
      : (r: seq<SlotState>)
    requires |states| == |looks| && SlotsTracked(replicas, |states|)
    ensures |r| == |states|
    ensures forall i :: 0 <= i < |states| ==>
              r[i] == Trim(states[i], GoneThrough(CollectThrough(replicas, i, |states|), looks[i], i < evicted))
  {
    seq(|states|, i requires 0 <= i < |states| =>
      Trim(states[i], GoneThrough(CollectThrough(replicas, i, |states|), looks[i], i < evicted)))
  }

  ghost predicate MaintainRuns(env: Env, p: Primary, call: MaintainCall)
    requires Valid(env)
  {
    && |p.states| == |p.commits| == |call.looks| && SlotsTracked(p.replicas, |p.states|)
    && var p' := ApplyWrites(env, p, call.during);
       |p'.states| == |p'.commits| == |p.states| && forall i :: 0 <= i < |p.states| ==>
         0 <= Dropped(p'.commits[i], p'.states[i])
         && UpkeepSeen(p.commits[i], p'.commits[i], Dropped(p'.commits[i], p'.states[i]),
                       CollectThrough(p.replicas, i, |p.states|), call.looks[i])
  }

  ghost function MaintainPrimary(env: Env, p: Primary, call: MaintainCall): Primary
    requires Valid(env)
  {
    if !MaintainRuns(env, p, call) then p
    else
      var p' := ApplyWrites(env, p, call.during);
      var e := EnforceBudget(p.replicas, call.looks, p.budget);
      p'.(states := TrimSlots(p'.states, p.replicas, call.looks, e.evicted), replicas := e.replicas)
  }

  ghost predicate SameSession(a: Session, b: Session) {
    b == a.(slots := b.slots)
  }

  /** Sessions keep their names, their cursors and their reset marks. */
  ghost predicate SameSessions(a: seq<Session>, b: seq<Session>) {
    |a| == |b| && forall k :: 0 <= k < |a| ==> SameSession(a[k], b[k])
  }

  lemma {:induction false} EvictionKeepsSessions(replicas: seq<Session>, looks: seq<Upkeep>, budget: nat, total: nat,
                                                 i: nat)
    requires i <= |looks| && SlotsTracked(replicas, |looks|)
    ensures SameSessions(replicas, EvictFrom(replicas, looks, budget, total, i).replicas)
    decreases |looks| - i
  {
    hide FreedBytes, MaxSeqNo;
    if i < |looks| && total > budget {
      var next := FlagReplicas(replicas, i, DropThrough(looks[i]), |looks|);
      EvictionKeepsSessions(next, looks, budget, total - Min(total, FreedBytes(looks[i])), i + 1);
    }
  }

  /**
   * Maintenance extends the histories by the writes that commit meanwhile, trims logs, and keeps every session's name.
   */
  lemma MaintenanceKeepsPrimary(env: Env, n: nat, p: Primary, call: MaintainCall)
    requires Valid(env) && PrimaryOk(env, n, p)
    ensures var p' := MaintainPrimary(env, p, call);
            && PrimaryOk(env, n, p') && Grown(p.commits, p'.commits) && SameSessions(p.replicas, p'.replicas)
            && p'.epoch == p.epoch && p'.issued == p.issued
  {
    hide ApplyWrites, SlotOk, EvictFrom, CountedBytes, UpkeepSeen, GoneThrough, CollectThrough, Trim;
    if MaintainRuns(env, p, call) {
      WritesKeepPrimary(env, n, p, call.during);
      EvictionKeepsSessions(p.replicas, call.looks, p.budget, CountedBytes(call.looks), 0);
      var p' := ApplyWrites(env, p, call.during);
      var e := EnforceBudget(p.replicas, call.looks, p.budget);
      forall i | 0 <= i < n
        ensures SlotOk(env, i, p'.commits[i], TrimSlots(p'.states, p.replicas, call.looks, e.evicted)[i])
      {
        TrimKeepsSlot(env, i, p'.commits[i], p'.states[i],
                      GoneThrough(CollectThrough(p.replicas, i, n), call.looks[i], i < e.evicted));
      }
    }
  }

  // ---- maintenance without writers

  function RestLook(s: SlotState, through: nat): Upkeep {
    Upkeep(s, Trim(s, through), Trim(s, through), Trim(s, through))
  }

  function RestLooks(states: seq<SlotState>, replicas: seq<Session>): (looks: seq<Upkeep>)
    requires SlotsTracked(replicas, |states|)
    ensures |looks| == |states|
    ensures forall i :: 0 <= i < |states| ==> looks[i] == RestLook(states[i], CollectThrough(replicas, i, |states|))
  {
    seq(|states|, i requires 0 <= i < |states| => RestLook(states[i], CollectThrough(replicas, i, |states|)))
  }

  /** Maintenance while no writer is at work. */
  function RestCall(p: Primary): MaintainCall
    requires SlotsTracked(p.replicas, |p.states|)
  {
    MaintainCall([], RestLooks(p.states, p.replicas))
  }

  lemma BackedIsSeen(env: Env, slot: nat, c: seq<Commit>, s: SlotState)
    requires Valid(env) && SlotOk(env, slot, c, s)
    ensures Seen(c, Dropped(c, s), s) && s.published == |c| && 0 <= Dropped(c, s)
  {
    hide Sound, Valid;
    assert c[..|c|] == c;
  }

  /** Maintenance without writers is one of the runs of maintenance. */
  lemma RestCallRuns(env: Env, n: nat, p: Primary)
    requires Valid(env) && PrimaryOk(env, n, p)
    ensures MaintainRuns(env, p, RestCall(p))
  {
    hide SlotOk, Seen, Trim, CollectThrough;
    forall i | 0 <= i < n
      ensures 0 <= Dropped(p.commits[i], p.states[i])
      ensures UpkeepSeen(p.commits[i], p.commits[i], Dropped(p.commits[i], p.states[i]),
                         CollectThrough(p.replicas, i, n),
                         RestLooks(p.states, p.replicas)[i])
    {
      var through := CollectThrough(p.replicas, i, n);
      BackedIsSeen(env, i, p.commits[i], p.states[i]);
      TrimKeepsSlot(env, i, p.commits[i], p.states[i], through);
      BackedIsSeen(env, i, p.commits[i], Trim(p.states[i], through));
    }
  }

  // ---- polls

  /**
   * What a poll sees: every look at slot id falls between the primary's state when the poll began and the state when
   * it ended, in the order of the looks, and no log is trimmed meanwhile.
   */
  ghost predicate PollView(p: Primary, p': Primary, id: nat, v: View)
    requires id < |p.commits| == |p'.commits| == |p'.states|
  {
    0 <= Dropped(p'.commits[id], p'.states[id]) && |p.commits[id]| <= v.first.published &&
    SeenInOrder(p'.commits[id], Dropped(p'.commits[id], p'.states[id]), v)
  }

  /** A poll: the HELLO, the writes that commit while it runs, what it sees of each slot, and the frame limit. */
  datatype PollCall = PollCall(hello: Frame, during: seq<Write>, greetViews: seq<View>, buildViews: seq<View>,
                               maxFrames: nat)

  /** The views of a poll fit the writes; views of slots that HELLO names and that do not exist are not looked at. */
  ghost predicate PollSees(p: Primary, p': Primary, call: PollCall, nextSlot: nat)
    requires call.hello.Hello? && |p.commits| == |p'.commits| == |p'.states|
  {
    && |call.greetViews| == |call.hello.positions| && |call.buildViews| == |p.commits|
    && (forall k :: 0 <= k < |call.greetViews| && call.hello.positions[k].0 < |p.commits| ==>
          PollView(p, p', call.hello.positions[k].0, call.greetViews[k]))
    && (forall i :: 0 <= i < |call.buildViews| ==>
          PollView(p, p', VisitedSlot(nextSlot, i, |p.commits|), call.buildViews[i]))
    // A slot is greeted before it is served.
    && (forall k, i ::
          (0 <= k < |call.greetViews| && 0 <= i < |call.buildViews|
           && call.hello.positions[k].0 == VisitedSlot(nextSlot, i, |p.commits|)) ==>
            call.greetViews[k].second.published <= call.buildViews[i].first.published)
  }

  function SessionOf(p: Primary, replicaId: string): Session {
    var r := FindReplica(p.replicas, replicaId);
    if r < |p.replicas| then p.replicas[r] else NewSession(replicaId, |p.states|)
  }

  ghost predicate PollRuns(env: Env, p: Primary, call: PollCall)
    requires Valid(env)
  {
    && call.hello.Hello? && call.hello.version == PROTOCOL_VERSION && call.hello.replicaId != ""
    && var p' := ApplyWrites(env, p, call.during);
       |p.commits| == |p'.commits| == |p'.states| && PollSees(p, p', call, SessionOf(p, call.hello.replicaId).nextSlot)
       && |SessionOf(p, call.hello.replicaId).slots| == |p.commits|
  }

  ghost function PollAnswer(env: Env, p: Primary, call: PollCall): (Session, seq<Frame>)
    requires Valid(env) && PollRuns(env, p, call)
  {
    var id := call.hello.replicaId;
    PollSession(SessionOf(p, id), call.hello.session, call.hello.positions, SessionName(p.epoch, id, p.issued),
                call.greetViews, env.lay, call.buildViews, call.maxFrames)
  }

  ghost function PollPrimary(env: Env, p: Primary, call: PollCall): (Primary, seq<Frame>)
    requires Valid(env)
  {
    if !PollRuns(env, p, call) then (p, [])
    else
      var p' := ApplyWrites(env, p, call.during);
      var (session, frames) := PollAnswer(env, p, call);
      var r := FindReplica(p.replicas, call.hello.replicaId);
      (p'.(replicas := if r < |p.replicas| then p.replicas[r := session] else p.replicas + [session],
           issued := p.issued + (if session.reset then 1 else 0)),
       frames)
  }

  /** The primary issued this session name. */
  ghost predicate Owns(p: Primary, session: string) {
    exists id, k: nat :: k < p.issued && session == SessionName(p.epoch, id, k)
  }

  ghost predicate SessionsOwned(p: Primary) {
    forall k :: 0 <= k < |p.replicas| ==> p.replicas[k].sessionId == "" || Owns(p, p.replicas[k].sessionId)
  }

  lemma SeenFrameIsTrue(env: Env, id: nat, cs: seq<seq<Commit>>, t: nat, s: SlotState, session: string)
    requires Valid(env) && id < |cs| && Sound(env, id, cs[id]) && Seen(cs[id], t, s)
    ensures FrameTrue(env, cs, Snapshot(session, id, s.published, Wire(SnapshotCodec.Encode(env.lay, s.objects))))
    ensures forall r :: r in s.log ==> FrameTrue(env, cs, Log(session, id, r))
  {
    hide Sound, Seen, Wire, SnapshotCodec.Encode, Contiguous, Skipped, MinSeqNo, MaxSeqNo, MapAt, IsVisitOrder,
         UnpacksWire;
    SeenLog(env, id, cs[id], t, s);
    forall r | r in s.log
      ensures FrameTrue(env, cs, Log(session, id, r))
    {
      var j :| 0 <= j < |s.log| && s.log[j] == r;
      assert r.seqNo == t + j + 1;
    }
  }

  /** Frames of one session, all true of these histories. */
  ghost predicate FramesTrue(env: Env, cs: seq<seq<Commit>>, session: string, frames: seq<Frame>)
    requires Valid(env)
  {
    forall f :: f in frames ==> !f.Hello? && f.session == session && FrameTrue(env, cs, f)
  }

  lemma {:induction false} OfferLogsIsTrue(env: Env, cs: seq<seq<Commit>>, b: Build, session: string, id: nat,
                                           logs: seq<Record>, target: nat)
    requires Valid(env) && id < |b.slots| && FramesTrue(env, cs, session, b.frames)
    requires forall r :: r in logs ==> FrameTrue(env, cs, Log(session, id, r))
    ensures FramesTrue(env, cs, session, OfferLogs(b, session, id, logs, target).frames)
    ensures OfferLogs(b, session, id, logs, target).completed == b.completed
    decreases logs
  {
    hide FrameTrue, RecordBytes;
    if logs != [] && logs[0].seqNo <= target && logs[0].seqNo == b.slots[id].sent + 1 && Fits(b, RecordBytes(logs[0])) {
      OfferLogsIsTrue(env, cs, SendLog(b, session, id, logs[0]), session, id, logs[1..], target);
    }
  }

  lemma VisitIsTrue(env: Env, cs: seq<seq<Commit>>, t: nat, b: Build, session: string, id: nat, v: View, maxFrames: nat)
    requires Valid(env) && id < |b.slots| == |cs| && Sound(env, id, cs[id]) && SeenInOrder(cs[id], t, v)
    requires WithinLimits(b, maxFrames) && FramesTrue(env, cs, session, b.frames)
    requires forall q :: q in b.completed ==> q.0 < |cs| && q.1 <= |cs[q.0]|
    ensures var r := Visit(b, session, env.lay, id, v, maxFrames);
            FramesTrue(env, cs, session, r.frames) && forall q :: q in r.completed ==> q.0 < |cs| && q.1 <= |cs[q.0]|
  {
    hide FrameTrue, Wire, SnapshotCodec.Encode, HasBacklog, LogAfter, TotalBytes, BatchBytes, Sound, Seen, IsVisitOrder;
    SeenFrameIsTrue(env, id, cs, t, v.last, session);
    SeenLog(env, id, cs[id], t, v.last);
    if HasRoom(b, maxFrames) && !WantsSnapshot(b, id, v) {
      var logs := CopiedLogs(b, id, v, maxFrames);
      LogAfterIsBudgetedStretch(v.last.log, b.slots[id].sent, Min(MAX_LOGS_PER_SLOT, maxFrames - |b.frames|),
                                MAX_BATCH_BYTES - b.bytes);
      forall r | r in logs
        ensures r in v.last.log
      {
        assert r in v.last.log[Skipped(v.last.log, b.slots[id].sent)..];
      }
      OfferLogsIsTrue(env, cs, b, session, id, logs, v.first.published);
    }
  }

  lemma {:induction false} BuildIsTrue(env: Env, cs: seq<seq<Commit>>, ts: seq<nat>, replica: Session, views: seq<View>,
                                       maxFrames: nat, i: nat)
    requires Valid(env) && AllSound(env, cs) && i <= |views| == |replica.slots| == |cs| == |ts|
    requires forall k {:trigger views[k]} :: 0 <= k < |views| ==>
               var id := VisitedSlot(replica.nextSlot, k, |cs|); SeenInOrder(cs[id], ts[id], views[k])
    ensures var b := BuildUpTo(replica, env.lay, views, maxFrames, i);
            && FramesTrue(env, cs, replica.sessionId, b.frames)
            && forall q :: q in b.completed ==> q.0 < |cs| && q.1 <= |cs[q.0]|
  {
    hide Visit, FrameTrue, Seen, Sound, IsVisitOrder;
    if i == 0 {
    } else {
      BuildIsTrue(env, cs, ts, replica, views, maxFrames, i - 1);
      var id := VisitedSlot(replica.nextSlot, i - 1, |cs|);
      var before := BuildUpTo(replica, env.lay, views, maxFrames, i - 1);
      assert SeenInOrder(cs[id], ts[id], views[i - 1]);
      VisitIsTrue(env, cs, ts[id], before, replica.sessionId, id, views[i - 1], maxFrames);
    }
  }

  lemma SessionOfIsTracked(env: Env, n: nat, p: Primary, replicaId: string)
    requires Valid(env) && PrimaryOk(env, n, p) && SessionsOwned(p)
    ensures var s := SessionOf(p, replicaId); |s.slots| == n && (s.sessionId == "" || Owns(p, s.sessionId))
  {
  }

  /** The session after HELLO: a fresh name when it starts over, its old name otherwise. */
  lemma GreetedSessionIsOwned(p: Primary, p': Primary, replica: Session, id: string, session: string,
                              positions: seq<Position>, views: seq<View>)
    requires |views| == |positions| && (replica.sessionId == "" || Owns(p, replica.sessionId))
    requires p'.epoch == p.epoch && p'.issued == p.issued + (if NeedsReset(replica, session) then 1 else 0)
    ensures Owns(p', Greet(replica, session, positions, SessionName(p.epoch, id, p.issued), views).sessionId)
  {
    hide SessionName;
    if NeedsReset(replica, session) {
      assert p.issued < p'.issued;
    } else {
      var id', k: nat :| k < p.issued && replica.sessionId == SessionName(p.epoch, id', k);
      assert k < p'.issued;
    }
  }

  lemma PrimaryIsSound(env: Env, n: nat, p: Primary) returns (ts: seq<nat>)
    requires Valid(env) && PrimaryOk(env, n, p)
    ensures AllSound(env, p.commits) && |ts| == n
    ensures forall i :: 0 <= i < n ==> ts[i] == Dropped(p.commits[i], p.states[i])
  {
    hide Sound;
    assert forall i :: 0 <= i < n ==> SlotOk(env, i, p.commits[i], p.states[i]);
    ts := seq(n, i requires 0 <= i < n => |p.commits[i]| - |p.states[i].log|);
  }

  lemma BatchIsTrue(env: Env, cs: seq<seq<Commit>>, session: string, reset: bool, b: Build)
    requires Valid(env) && FramesTrue(env, cs, session, b.frames)
    requires forall q :: q in b.completed ==> q.0 < |cs| && q.1 <= |cs[q.0]|
    ensures FramesTrue(env, cs, session, Batch(session, reset, b))
  {
  }

  lemma PollAnswerIsTrue(env: Env, n: nat, p: Primary, call: PollCall)
    requires Valid(env) && PrimaryOk(env, n, p) && SessionsOwned(p) && PollRuns(env, p, call)
    requires PrimaryOk(env, n, ApplyWrites(env, p, call.during))
    ensures var (session, frames) := PollAnswer(env, p, call);
            && |session.slots| == n
            && FramesTrue(env, ApplyWrites(env, p, call.during).commits, session.sessionId, frames)
  {
    hide ApplyWrites, SlotOk, Sound, AllSound, SeenInOrder, FrameTrue, FramesTrue, BuildUpTo, SessionName, IsVisitOrder,
         UnpacksWire;
    var w := ApplyWrites(env, p, call.during);
    var id := call.hello.replicaId;
    var replica := SessionOf(p, id);
    var greeted := Greet(replica, call.hello.session, call.hello.positions, SessionName(p.epoch, id, p.issued),
                         call.greetViews);
    var ts := PrimaryIsSound(env, n, w);
    forall k {:trigger call.buildViews[k]} | 0 <= k < n
      ensures var slot := VisitedSlot(greeted.nextSlot, k, n);
              SeenInOrder(w.commits[slot], ts[slot], call.buildViews[k])
    {
      assert PollView(p, w, VisitedSlot(replica.nextSlot, k, n), call.buildViews[k]);
    }
    BuildIsTrue(env, w.commits, ts, greeted, call.buildViews, call.maxFrames, n);
    BatchIsTrue(env, w.commits, greeted.sessionId, greeted.reset,
                BuildUpTo(greeted, env.lay, call.buildViews, call.maxFrames, n));
  }

  lemma OwnsMore(p: Primary, p': Primary, session: string)
    requires p'.epoch == p.epoch && p.issued <= p'.issued && Owns(p, session)
    ensures Owns(p', session)
  {
    hide SessionName;
    var id, k: nat :| k < p.issued && session == SessionName(p.epoch, id, k);
    assert k < p'.issued;
  }

  lemma PollSessionIsOwned(env: Env, n: nat, p: Primary, call: PollCall)
    requires Valid(env) && PrimaryOk(env, n, p) && SessionsOwned(p) && PollRuns(env, p, call)
    ensures var p' := PollPrimary(env, p, call).0;
            SessionsOwned(p') && Owns(p', PollAnswer(env, p, call).0.sessionId) && p.issued <= p'.issued
  {
    hide ApplyWrites, SlotOk, Sound, SeenInOrder, BuildUpTo, SessionName, IsVisitOrder, UnpacksWire, Owns;
    var p' := PollPrimary(env, p, call).0;
    var replica := SessionOf(p, call.hello.replicaId);
    SessionOfIsTracked(env, n, p, call.hello.replicaId);
    WritesKeepPrimary(env, n, p, call.during);
    GreetedSessionIsOwned(p, p', replica, call.hello.replicaId, call.hello.session, call.hello.positions,
                          call.greetViews);
    forall k | 0 <= k < |p'.replicas|
      ensures p'.replicas[k].sessionId == "" || Owns(p', p'.replicas[k].sessionId)
    {
      if k < |p.replicas| && p.replicas[k].sessionId != "" {
        OwnsMore(p, p', p.replicas[k].sessionId);
      }
    }
  }

  /** Whatever writers do meanwhile, a poll sends only frames that are true of the primary's history. */
  lemma PollIsTrue(env: Env, n: nat, p: Primary, call: PollCall)
    requires Valid(env) && PrimaryOk(env, n, p) && SessionsOwned(p)
    ensures var (p', frames) := PollPrimary(env, p, call);
            && PrimaryOk(env, n, p') && SessionsOwned(p') && p'.epoch == p.epoch && p.issued <= p'.issued
            && Grown(p.commits, p'.commits)
            && (forall f :: f in frames ==> !f.Hello? && Owns(p', f.session) && FrameTrue(env, p'.commits, f))
  {
    hide ApplyWrites, SlotOk, Sound, SeenInOrder, FrameTrue, PollSession, SessionName, IsVisitOrder, UnpacksWire;
    if PollRuns(env, p, call) {
      WritesKeepPrimary(env, n, p, call.during);
      PollAnswerIsTrue(env, n, p, call);
      PollSessionIsOwned(env, n, p, call);
    }
  }

  // ---- steps

  datatype PrimaryEvent =
    | Wrote(write: Write)
    | Maintained(upkeep: MaintainCall)
    | Polled(call: PollCall)
    | Budgeted(bytes: nat)

  /** What an event does to a primary, and the frames that it sends. */
  ghost function PrimaryNext(env: Env, p: Primary, e: PrimaryEvent): (Primary, seq<Frame>)
    requires Valid(env)
  {
    match e
    case Wrote(write) => (ApplyWrite(env, p, write), [])
    case Maintained(upkeep) => (MaintainPrimary(env, p, upkeep), [])
    case Polled(call) => PollPrimary(env, p, call)
    case Budgeted(bytes) => (p.(budget := bytes), [])
  }

  ghost function After(env: Env, p: Primary, events: seq<PrimaryEvent>): Primary
    requires Valid(env)
    decreases |events|
  {
    if events == [] then p else After(env, PrimaryNext(env, p, events[0]).0, events[1..])
  }

  /** The primary moved on: it issued more names and committed more writes. */
  ghost predicate MovedOn(p: Primary, p': Primary) {
    p'.epoch == p.epoch && p.issued <= p'.issued && Grown(p.commits, p'.commits)
  }

  lemma RenamedNowhere(p: Primary, p': Primary)
    requires SessionsOwned(p) && p'.epoch == p.epoch && p.issued <= p'.issued && SameSessions(p.replicas, p'.replicas)
    ensures SessionsOwned(p')
  {
    hide Owns;
    forall k | 0 <= k < |p'.replicas|
      ensures p'.replicas[k].sessionId == "" || Owns(p', p'.replicas[k].sessionId)
    {
      assert SameSession(p.replicas[k], p'.replicas[k]);
      if p.replicas[k].sessionId != "" {
        OwnsMore(p, p', p.replicas[k].sessionId);
      }
    }
  }

  /** Every event keeps the histories sound and the names owned, and sends only true frames. */
  lemma EventKeepsPrimary(env: Env, n: nat, p: Primary, e: PrimaryEvent)
    requires Valid(env) && PrimaryOk(env, n, p) && SessionsOwned(p)
    ensures var (p', frames) := PrimaryNext(env, p, e);
            && PrimaryOk(env, n, p') && SessionsOwned(p') && MovedOn(p, p')
            && (forall f :: f in frames ==> !f.Hello? && Owns(p', f.session) && FrameTrue(env, p'.commits, f))
  {
    hide SlotOk, SessionsOwned, ApplyWrite, MaintainPrimary, PollPrimary, Owns, FrameTrue;
    match e
    case Wrote(write) =>
      WriteKeepsPrimary(env, n, p, write);
      RenamedNowhere(p, ApplyWrite(env, p, write));
    case Maintained(upkeep) =>
      MaintenanceKeepsPrimary(env, n, p, upkeep);
      RenamedNowhere(p, MaintainPrimary(env, p, upkeep));
    case Polled(call) => PollIsTrue(env, n, p, call);
    case Budgeted(bytes) => RenamedNowhere(p, p.(budget := bytes));
  }
}
