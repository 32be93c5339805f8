/**
 * What one call of the primary's replicator does to the node, clients at work meanwhile
 * (src/repl/master_replicator.cpp), and why each call is a step of the primary's model.
 */
module Calls {
  import opened HashSlot
  import opened Order
  import opened SnapshotCodec
  import opened FrameCodec
  import opened Master
  import opened Slave
  import opened History
  import opened Primary
  import opened SlotWrites
  import opened Moments

  /** The slots at one moment, and the fields of the replicator. */
  datatype Node = Node(slots: seq<Moment>, replicas: seq<Session>, issued: nat, budget: nat)

  /** The known session of a replica, or a new one. */
  function Known(replicas: seq<Session>, replicaId: string, count: nat): Session {
    var r := FindReplica(replicas, replicaId);
    if r < |replicas| then replicas[r] else NewSession(replicaId, count)
  }

  function Placed(replicas: seq<Session>, replicaId: string, s: Session): seq<Session> {
    var r := FindReplica(replicas, replicaId);
    if r < |replicas| then replicas[r := s] else replicas + [s]
  }

  predicate Refused(hello: Frame) {
    !hello.Hello? || hello.version != PROTOCOL_VERSION || hello.replicaId == ""
  }

  /**
   * A poll from node a to node b: it greets up to `mid` and builds the batch from there on; the slots only move by what
   * the others write.
   */
  ghost predicate PollDoes(crowd: Crowd, epoch: string, lay: Layout, a: Node, hello: Frame, maxFrames: nat,
                           frames: seq<Frame>, greetViews: seq<View>, mid: seq<Moment>, buildViews: seq<View>, b: Node)
    requires IsVisitOrder(lay.order) && SlotsTracked(a.replicas, |a.slots|)
  {
    if Refused(hello) then frames == [] && b == a
    else
      var known := Known(a.replicas, hello.replicaId, |a.slots|);
      && AllReach(crowd, a.slots, mid) && AllReach(crowd, mid, b.slots)
      && GreetingBetween(crowd, a.slots, hello.positions, greetViews, mid)
      && BatchBetween(crowd, mid, known.nextSlot, buildViews, |a.slots|, b.slots)
      && b.budget == a.budget
      && var (session, answer) := PollSession(known, hello.session, hello.positions,
                                              SessionName(epoch, hello.replicaId, a.issued), greetViews, lay,
                                                buildViews,
                                              maxFrames);
         && frames == answer && b.replicas == Placed(a.replicas, hello.replicaId, session)
         && b.issued == a.issued + (if session.reset then 1 else 0)
  }

  /** Maintenance from node a to node b: looks[j] is what it saw of slot j. */
  ghost predicate MaintainDoes(crowd: Crowd, a: Node, looks: seq<Upkeep>, b: Node)
    requires SlotsTracked(a.replicas, |a.slots|)
  {
    && |looks| == |a.slots| == |b.slots| && b.issued == a.issued && b.budget == a.budget
    && var e := EnforceBudget(a.replicas, looks, a.budget);
       && b.replicas == e.replicas
       && forall j :: 0 <= j < |looks| ==>
            UpkeepBetween(crowd, a.slots[j], a.replicas, j, |looks|, looks[j], j < e.evicted, b.slots[j])
  }

  // ---- refinement

  /** The primary of the model and the node are in the same state. */
  ghost predicate Represents(p: Primary, epoch: string, a: Node) {
    && p.epoch == epoch && p.states == StatesOf(a.slots) && p.replicas == a.replicas && p.issued == a.issued
    && p.budget == a.budget
  }

  /** What the others wrote between the two moments either commits or changes nothing. */
  ghost predicate Tame(env: Env, a: seq<Moment>, b: seq<Moment>)
    requires History.Valid(env)
  {
    |a| == |b| && forall j :: 0 <= j < |a| ==> AllSuit(env, j, a[j].state, Between(a[j], b[j]))
  }

  function WritesBetween(a: seq<Moment>, b: seq<Moment>): seq<Write>
    requires |a| == |b|
  {
    Together(seq(|a|, j requires 0 <= j < |a| => Between(a[j], b[j])))
  }

  /** As writes of the model, what the others wrote leads to the histories that they left. */
  lemma WritesBetweenApply(env: Env, n: nat, p: Primary, a: seq<Moment>, b: seq<Moment>)
    requires History.Valid(env) && PrimaryOk(env, n, p) && p.states == StatesOf(a) && Tame(env, a, b)
    ensures var p' := ApplyWrites(env, p, WritesBetween(a, b));
            && PrimaryOk(env, n, p') && p' == p.(states := p'.states, commits := p'.commits)
            && forall j :: 0 <= j < n ==>
                 && p'.states[j] == Worked(env.sc, p.states[j], Between(a[j], b[j]))
                 && p'.commits[j] == Chronicle(env.sc, p.commits[j], a[j], b[j]) && p.commits[j] <= p'.commits[j]
                 && Dropped(p'.commits[j], p'.states[j]) == Dropped(p.commits[j], p.states[j])
  {
    hide ApplyWrites, SlotOk, AllSuit, Worked, AllRecorded, IsVisitOrder, UnpacksWire;
    var wss := seq(n, j requires 0 <= j < n => Between(a[j], b[j]));
    TogetherApplies(env, n, p, wss);
    WritesKeepPrimary(env, n, p, Together(wss));
  }

  lemma SoundIsNumbered(env: Env, id: nat, c: seq<Commit>, s: SlotState)
    requires History.Valid(env) && SlotOk(env, id, c, s)
    ensures Numbered(c) && Backs(c, Dropped(c, s), s) && 0 <= Dropped(c, s)
  {
    hide Carried;
  }

  lemma ViewIsPollView(crowd: Crowd, env: Env, n: nat, p: Primary, a: seq<Moment>, b: seq<Moment>, id: nat, v: View)
    requires History.Valid(env) && PrimaryOk(env, n, p) && p.states == StatesOf(a) && Tame(env, a, b)
    requires Computes(crowd, env.sc) && id < n && ViewBetween(crowd, a[id], v, b[id])
    ensures var p' := ApplyWrites(env, p, WritesBetween(a, b));
            |p'.commits| == |p'.states| == n && PollView(p, p', id, v)
  {
    hide ApplyWrites, SlotOk, Backs, Seen, ViewBetween, Chronicle, WritesBetween, AllSuit, IsVisitOrder, UnpacksWire;
    WritesBetweenApply(env, n, p, a, b);
    SoundIsNumbered(env, id, p.commits[id], p.states[id]);
    ViewIsSeen(crowd, env.sc, p.commits[id], Dropped(p.commits[id], p.states[id]), a[id], v, b[id]);
  }

  /** Whatever a poll sees, of every slot, is what the model lets a poll see. */
  lemma PollSeesInOrder(crowd: Crowd, env: Env, n: nat, p: Primary, a: seq<Moment>, hello: Frame, maxFrames: nat,
                        greetViews: seq<View>, mid: seq<Moment>, buildViews: seq<View>, b: seq<Moment>, start: nat)
    requires History.Valid(env) && PrimaryOk(env, n, p) && p.states == StatesOf(a) && Tame(env, a, b) && hello.Hello?
    requires Computes(crowd, env.sc) && AllReach(crowd, a, mid) && AllReach(crowd, mid, b)
    requires GreetingBetween(crowd, a, hello.positions, greetViews, mid)
             && BatchBetween(crowd, mid, start, buildViews, n, b)
    ensures var p' := ApplyWrites(env, p, WritesBetween(a, b));
            && |p'.commits| == |p'.states| == n
            && PollSees(p, p', PollCall(hello, WritesBetween(a, b), greetViews, buildViews, maxFrames), start)
  {
    hide ApplyWrites, SlotOk, Backs, SeenInOrder, ViewBetween, Chronicle, WritesBetween, AllSuit, IsVisitOrder,
         UnpacksWire, Reaches, PollView, VisitedSlot, Numbered;
    var p' := ApplyWrites(env, p, WritesBetween(a, b));
    WritesBetweenApply(env, n, p, a, b);
    forall k | 0 <= k < |greetViews| && hello.positions[k].0 < n
      ensures PollView(p, p', hello.positions[k].0, greetViews[k])
    {
      var id := hello.positions[k].0;
      ReachesSelf(crowd, a[id]);
      ViewWidens(crowd, a[id], a[id], greetViews[k], mid[id], b[id]);
      ViewIsPollView(crowd, env, n, p, a, b, id, greetViews[k]);
    }
    forall i | 0 <= i < n
      ensures PollView(p, p', VisitedSlot(start, i, n), buildViews[i])
    {
      var id := VisitedSlot(start, i, n);
      ReachesSelf(crowd, b[id]);
      ViewWidens(crowd, a[id], mid[id], buildViews[i], b[id], b[id]);
      ViewIsPollView(crowd, env, n, p, a, b, id, buildViews[i]);
    }
    forall k, i | 0 <= k < |greetViews| && 0 <= i < n && hello.positions[k].0 == VisitedSlot(start, i, n)
      ensures greetViews[k].second.published <= buildViews[i].first.published
    {
      var id := VisitedSlot(start, i, n);
      SoundIsNumbered(env, id, p.commits[id], p.states[id]);
      PolledSlotIsSeen(crowd, env.sc, p.commits[id], Dropped(p.commits[id], p.states[id]), a[id], greetViews[k],
                       mid[id],
                       buildViews[i], b[id]);
    }
  }

  lemma StatesMatch(env: Env, n: nat, p: Primary, a: seq<Moment>, b: seq<Moment>, crowd: Crowd)
    requires History.Valid(env) && PrimaryOk(env, n, p) && p.states == StatesOf(a) && Tame(env, a, b)
    requires Computes(crowd, env.sc) && AllReach(crowd, a, b)
    ensures ApplyWrites(env, p, WritesBetween(a, b)).states == StatesOf(b)
  {
    hide ApplyWrites, SlotOk, Backs, Chronicle, WritesBetween, AllSuit, IsVisitOrder, UnpacksWire, Reaches, Worked;
    WritesBetweenApply(env, n, p, a, b);
    forall j | 0 <= j < n
      ensures b[j].state == Worked(env.sc, a[j].state, Between(a[j], b[j]))
    {
      SoundIsNumbered(env, j, p.commits[j], p.states[j]);
      ReachedIsBacked(crowd, env.sc, p.commits[j], Dropped(p.commits[j], p.states[j]), a[j], b[j]);
    }
  }

  /** The call of the model that a poll is. */
  function PollCallOf(a: Node, hello: Frame, greetViews: seq<View>, buildViews: seq<View>, maxFrames: nat, b: Node)
      : PollCall
    requires |a.slots| == |b.slots|
  {
    PollCall(hello, WritesBetween(a.slots, b.slots), greetViews, buildViews, maxFrames)
  }

  /**
   * Every poll of the replicator, over all slots and with its clients at work, is a poll of the model: the model makes
   * the clients' writes, gives the same answer and reaches the same state.
   */
  lemma PollRefines(crowd: Crowd, env: Env, n: nat, p: Primary, a: Node, hello: Frame, maxFrames: nat,
                    frames: seq<Frame>, greetViews: seq<View>, mid: seq<Moment>, buildViews: seq<View>, b: Node)
    requires History.Valid(env) && PrimaryOk(env, n, p) && Represents(p, p.epoch, a) && Computes(crowd, env.sc)
    requires PollDoes(crowd, p.epoch, env.lay, a, hello, maxFrames, frames, greetViews, mid, buildViews, b)
    requires Tame(env, a.slots, b.slots)
    ensures var call := PollCallOf(a, hello, greetViews, buildViews, maxFrames, b);
            && (PollRuns(env, p, call) <==> !Refused(hello))
            && PollPrimary(env, p, call).1 == frames && Represents(PollPrimary(env, p, call).0, p.epoch, b)
  {
    hide ApplyWrites, SlotOk, Reaches, GreetingBetween, BatchBetween, PollSession, PollSees, SessionName, FindReplica,
         WritesBetween, AllSuit, IsVisitOrder, UnpacksWire;
    if !Refused(hello) {
      var start := SessionOf(p, hello.replicaId).nextSlot;
      PollSeesInOrder(crowd, env, n, p, a.slots, hello, maxFrames, greetViews, mid, buildViews, b.slots, start);
      AllReachOn(crowd, a.slots, mid, b.slots);
      StatesMatch(env, n, p, a.slots, b.slots, crowd);
      WritesBetweenApply(env, n, p, a.slots, b.slots);
    }
  }

  /** What maintenance sees of one slot is what the model lets it see, and it leaves the slot as the model does. */
  lemma SlotIsTended(crowd: Crowd, env: Env, n: nat, p: Primary, a: seq<Moment>, look: Upkeep, b: seq<Moment>, id: nat,
                     evicted: bool)
    requires History.Valid(env) && PrimaryOk(env, n, p) && p.states == StatesOf(a) && Tame(env, a, b) && id < n
    requires Computes(crowd, env.sc) && UpkeepBetween(crowd, a[id], p.replicas, id, n, look, evicted, b[id])
    ensures var p' := ApplyWrites(env, p, WritesBetween(a, b)); var through := CollectThrough(p.replicas, id, n);
            && |p'.commits| == |p'.states| == n && 0 <= Dropped(p'.commits[id], p'.states[id])
            && UpkeepSeen(p.commits[id], p'.commits[id], Dropped(p'.commits[id], p'.states[id]), through, look)
            && Trim(p'.states[id], GoneThrough(through, look, evicted)) == b[id].state
  {
    hide ApplyWrites, SlotOk, Backs, UpkeepBetween, Chronicle, WritesBetween, AllSuit, IsVisitOrder, UnpacksWire,
         UpkeepSeen, CollectThrough, GoneThrough, Trim, Worked, Numbered;
    var p', t := ApplyWrites(env, p, WritesBetween(a, b)), Dropped(p.commits[id], p.states[id]);
    WritesBetweenApply(env, n, p, a, b);
    SoundIsNumbered(env, id, p.commits[id], p.states[id]);
    UpkeepIsSeen(crowd, env.sc, p.commits[id], t, a[id], p.replicas, id, n, look, evicted, b[id]);
    var gone := GoneThrough(CollectThrough(p.replicas, id, n), look, evicted);
    TrimKeepsSlot(env, id, p'.commits[id], p'.states[id], gone);
    SoundIsNumbered(env, id, p'.commits[id], Trim(p'.states[id], gone));
    BackedAlike(p'.commits[id], Dropped(p'.commits[id], Trim(p'.states[id], gone)), Trim(p'.states[id], gone),
                b[id].state);
  }

  /** Every maintenance call of the replicator, with its clients at work, is one of the model, to the same state. */
  lemma MaintainRefines(crowd: Crowd, env: Env, n: nat, p: Primary, a: Node, looks: seq<Upkeep>, b: Node)
    requires History.Valid(env) && PrimaryOk(env, n, p) && Represents(p, p.epoch, a) && Computes(crowd, env.sc)
    requires MaintainDoes(crowd, a, looks, b) && Tame(env, a.slots, b.slots)
    ensures var call := MaintainCall(WritesBetween(a.slots, b.slots), looks);
            MaintainRuns(env, p, call) && Represents(MaintainPrimary(env, p, call), p.epoch, b)
  {
    hide ApplyWrites, SlotOk, Reaches, UpkeepBetween, EvictFrom, CountedBytes, WritesBetween, AllSuit, IsVisitOrder,
         UnpacksWire, UpkeepSeen, CollectThrough, GoneThrough, Trim;
    var w, e := ApplyWrites(env, p, WritesBetween(a.slots, b.slots)), EnforceBudget(p.replicas, looks, p.budget);
    WritesBetweenApply(env, n, p, a.slots, b.slots);
    forall j | 0 <= j < n
      ensures var through := CollectThrough(p.replicas, j, n);
              && 0 <= Dropped(w.commits[j], w.states[j])
              && UpkeepSeen(p.commits[j], w.commits[j], Dropped(w.commits[j], w.states[j]), through, looks[j])
              && Trim(w.states[j], GoneThrough(through, looks[j], j < e.evicted)) == b.slots[j].state
    {
      SlotIsTended(crowd, env, n, p, a.slots, looks[j], b.slots, j, j < e.evicted);
    }
    assert TrimSlots(w.states, p.replicas, looks, e.evicted) == StatesOf(b.slots);
  }
}
