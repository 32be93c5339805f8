/**
 * The primary's replicator as an object over the slots it serves (src/repl/master_replicator.cpp); its clients go on
 * writing between any two moments at which it takes a lock of a slot.
 */
module MasterReplicator {
  import opened Core
  import opened Numbers
  import opened Binlog
  import opened HashSlot
  import opened Order
  import opened SnapshotCodec
  import opened FrameCodec
  import opened Master
  import opened Primary
  import opened Moments
  import opened Calls
  import opened Engine
  import opened Clients

  lemma PlacedAgain(replicas: seq<Session>, replicaId: string, s: Session, t: Session)
    ensures var r := Master.FindReplica(replicas, replicaId);
            Placed(replicas, replicaId, s)[r := t] == Placed(replicas, replicaId, t)
  {
  }

  lemma FoundWherePlaced(before: seq<Session>, replicaId: string, count: nat, after: seq<Session>)
    requires exists s: Session :: s.replicaId == replicaId && after == Placed(before, replicaId, s)
    ensures Master.FindReplica(after, replicaId) == Master.FindReplica(before, replicaId) < |after|
  {
    var s: Session :| s.replicaId == replicaId && after == Placed(before, replicaId, s);
    FoundAgain(before, replicaId, s);
  }

  lemma GreetNone(slots: seq<Progress>, reset: bool)
    ensures GreetSlots(slots, reset, [], []) == slots
  {
  }

  lemma GreetNext(slots: seq<Progress>, reset: bool, positions: seq<Position>, views: seq<View>, position: Position,
                  v: View)
    requires |views| == |positions|
    ensures var before := GreetSlots(slots, reset, positions, views);
            GreetSlots(slots, reset, positions + [position], views + [v]) ==
              if position.0 >= |slots| then before else before[position.0 := GreetSlot(reset, position.1, v)]
  {
    assert (positions + [position])[..|positions|] == positions && (views + [v])[..|views|] == views;
  }

  lemma NextGreeting(crowd: Crowd, s0: seq<Moment>, positions: seq<Position>, views: seq<View>, s1: seq<Moment>,
                     position: Position, v: View, s2: seq<Moment>)
    requires GreetingBetween(crowd, s0, positions, views, s1) && AllReach(crowd, s0, s1) && AllReach(crowd, s1, s2)
    requires position.0 < |s0| ==> ViewBetween(crowd, s1[position.0], v, s2[position.0])
    ensures GreetingBetween(crowd, s0, positions + [position], views + [v], s2) && AllReach(crowd, s0, s2)
  {
    hide Reaches, ViewBetween;
    AllReachOn(crowd, s0, s1, s2);
    GreetingWidens(crowd, s0, positions, views, s1, s2);
    if position.0 < |s0| {
      ReachesSelf(crowd, s2[position.0]);
      ViewWidens(crowd, s0[position.0], s1[position.0], v, s2[position.0], s2[position.0]);
    }
  }

  lemma GreetingStarts(crowd: Crowd, s: seq<Moment>)
    ensures AllReach(crowd, s, s) && GreetingBetween(crowd, s, [], [], s)
  {
    AllReachSelf(crowd, s);
  }

  lemma BatchStarts(crowd: Crowd, s: seq<Moment>, start: nat, views: seq<View>)
    requires |views| == |s|
    ensures AllReach(crowd, s, s) && BatchBetween(crowd, s, start, views, 0, s)
  {
    AllReachSelf(crowd, s);
  }

  lemma NextVisit(crowd: Crowd, s0: seq<Moment>, start: nat, views: seq<View>, i: nat, s1: seq<Moment>, v: View,
                  s2: seq<Moment>)
    requires BatchBetween(crowd, s0, start, views, i, s1) && AllReach(crowd, s0, s1) && AllReach(crowd, s1, s2)
             && i < |s0|
    requires var id := VisitedSlot(start, i, |s0|); ViewBetween(crowd, s1[id], v, s2[id])
    ensures BatchBetween(crowd, s0, start, views[i := v], i + 1, s2) && AllReach(crowd, s0, s2)
  {
    hide Reaches, ViewBetween, VisitedSlot;
    AllReachOn(crowd, s0, s1, s2);
    BatchWidens(crowd, s0, start, views, i, s1, s2);
    var id := VisitedSlot(start, i, |s0|);
    ReachesSelf(crowd, s2[id]);
    ViewWidens(crowd, s0[id], s1[id], v, s2[id], s2[id]);
  }

  lemma ThreeLooks(crowd: Crowd, s0: seq<Moment>, s1: seq<Moment>, s2: seq<Moment>, s3: seq<Moment>, id: nat)
    requires AllReach(crowd, s0, s1) && AllReach(crowd, s1, s2) && AllReach(crowd, s2, s3) && id < |s0|
    ensures AllReach(crowd, s0, s3)
    ensures LooksBetween(crowd, s0[id], View(s1[id].state, s1[id].state, s2[id].state, s3[id].state, s3[id].state),
                         s3[id])
  {
    hide Reaches;
    AllReachOn(crowd, s0, s1, s2);
    AllReachOn(crowd, s0, s2, s3);
    ReachesSelf(crowd, s3[id]);
    var a, b, c := s1[id], s2[id], s3[id];
    assert Moment(a.state, a.made) == a && Moment(b.state, b.made) == b && Moment(c.state, c.made) == c;
  }

  lemma OneLook(crowd: Crowd, s0: seq<Moment>, id: nat, s1: seq<Moment>)
    requires AllReach(crowd, s0, s1) && id < |s0|
    ensures ViewBetween(crowd, s0[id], AtRest(s1[id].state), s1[id])
  {
    hide Reaches;
    var m := s1[id];
    ReachesSelf(crowd, m);
    assert Moment(m.state, m.made) == m;
    assert LooksBetween(crowd, m, AtRest(m.state), m);
  }

  lemma LastLook(crowd: Crowd, s0: seq<Moment>, id: nat, known: View, s1: seq<Moment>, v: View, s2: seq<Moment>)
    requires AllReach(crowd, s1, s2) && id < |s0| == |s1| && LooksBetween(crowd, s0[id], known, s1[id])
    requires v == known.(first := v.first, last := s2[id].state)
    ensures LooksBetween(crowd, s0[id], v, s2[id])
  {
    hide Reaches;
    var a: seq<Write>, b: seq<Write>, c: seq<Write> :|
      && Reaches(crowd, s0[id], Moment(known.min, a)) && Reaches(crowd, Moment(known.min, a), Moment(known.max, b))
      && Reaches(crowd, Moment(known.max, b), Moment(known.second, c))
      && Reaches(crowd, Moment(known.second, c), s1[id]);
    ReachesOn(crowd, Moment(known.second, c), s1[id], s2[id]);
  }

  lemma AllLooks(crowd: Crowd, s0: seq<Moment>, id: nat, s1: seq<Moment>, v: View, s2: seq<Moment>)
    requires AllReach(crowd, s0, s1) && id < |s0| == |s2| && v.first == s1[id].state && v.last == s2[id].state
    requires LooksBetween(crowd, s1[id], v, s2[id])
    ensures ViewBetween(crowd, s0[id], v, s2[id])
  {
    hide Reaches, LooksBetween;
    ReachesSelf(crowd, s2[id]);
    assert Moment(v.first, s1[id].made) == s1[id] && Moment(v.last, s2[id].made) == s2[id];
  }

  lemma GreetLooks(crowd: Crowd, s0: seq<Moment>, id: nat, s1: seq<Moment>, known: View, s2: seq<Moment>)
    requires AllReach(crowd, s0, s1) && id < |s0| == |s2| && LooksBetween(crowd, s1[id], known, s2[id])
    ensures ViewBetween(crowd, s0[id], known.(first := s1[id].state, last := s2[id].state), s2[id])
  {
    hide Reaches;
    var v := known.(first := s1[id].state, last := s2[id].state);
    assert LooksBetween(crowd, s1[id], v, s2[id]);
    AllLooks(crowd, s0, id, s1, v, s2);
  }

  lemma NothingServed(b: Build, session: string, lay: Layout, id: nat, v: View, maxFrames: nat)
    requires id < |b.slots| && IsVisitOrder(lay.order) && (HasRoom(b, maxFrames) ==> b.bytes <= MAX_BATCH_BYTES)
    ensures !HasRoom(b, maxFrames) ==>
              Serve(b, session, lay, id, v, maxFrames) == b && Target(b, b, id, v, maxFrames) == v.first.published
  {
  }

  lemma VisitByParts(b: Build, session: string, lay: Layout, id: nat, v: View, maxFrames: nat, served: Build,
                     target: nat)
    requires id < |b.slots| == |served.slots| && IsVisitOrder(lay.order) && WithinLimits(b, maxFrames)
    requires served == Serve(b, session, lay, id, v, maxFrames) && target == Target(b, served, id, v, maxFrames)
    ensures var closed := CloseIfFull(served, id, maxFrames);
            && |closed.slots| == |b.slots|
            && Visit(b, session, lay, id, v, maxFrames) ==
                 if closed.slots[id].needSnapshot then closed
                 else closed.(completed := closed.completed + [(id, target)])
  {
    hide Serve, Target, Capped, IsVisitOrder;
  }

  lemma SameBacklog(v: View, v': View, seqNo: nat)
    requires v.min == v'.min && v.max == v'.max && v.second == v'.second
    ensures Master.HasBacklog(v, seqNo) == Master.HasBacklog(v', seqNo)
  {
  }

  /** Views beyond the round play no part in it. */
  lemma {:induction false} BuildIgnoresRest(replica: Session, lay: Layout, views: seq<View>, views': seq<View>,
                                            maxFrames: nat, i: nat)
    requires i <= |views| == |views'| == |replica.slots| && IsVisitOrder(lay.order) && views[..i] == views'[..i]
    ensures BuildUpTo(replica, lay, views, maxFrames, i) == BuildUpTo(replica, lay, views', maxFrames, i)
  {
    hide Visit, WithinLimits;
    if i == 0 {
    } else {
      assert views[i - 1] == views[..i][i - 1] == views'[..i][i - 1] == views'[i - 1];
      assert views[..i - 1] == views[..i][..i - 1] == views'[..i - 1];
      BuildIgnoresRest(replica, lay, views, views', maxFrames, i - 1);
    }
  }

  // ---- collection and eviction, slot by slot

  /** Collection has reached slot i: slots before it are collected, the others only moved on. */
  ghost predicate CollectionBetween(crowd: Crowd, a: seq<Moment>, replicas: seq<Session>, collect: seq<Moment>, i: nat,
                                    b: seq<Moment>)
  {
    && i <= |a| == |collect| == |b| && SlotsTracked(replicas, |a|)
    && (forall j :: 0 <= j < i ==>
          Reaches(crowd, a[j], collect[j]) && Reaches(crowd, CollectedMoment(collect[j], replicas, j, |a|), b[j]))
    && forall j :: i <= j < |a| ==> Reaches(crowd, a[j], b[j])
  }

  lemma CollectionStarts(crowd: Crowd, s: seq<Moment>, replicas: seq<Session>)
    requires SlotsTracked(replicas, |s|)
    ensures CollectionBetween(crowd, s, replicas, s, 0, s)
    ensures replicas == [] ==> CollectionBetween(crowd, s, replicas, s, |s|, s)
  {
    AllReachSelf(crowd, s);
  }

  lemma NextCollection(crowd: Crowd, s0: seq<Moment>, replicas: seq<Session>, collect: seq<Moment>, i: nat,
                       s1: seq<Moment>, s2: seq<Moment>, s3: seq<Moment>)
    requires CollectionBetween(crowd, s0, replicas, collect, i, s1) && i < |s0| && AllReach(crowd, s1, s2)
    requires s3 == s2[i := CollectedMoment(s2[i], replicas, i, |s0|)]
    ensures CollectionBetween(crowd, s0, replicas, collect[i := s2[i]], i + 1, s3)
  {
    hide Reaches, Collected;
    forall j | 0 <= j < |s0|
      ensures j < i ==> Reaches(crowd, CollectedMoment(collect[j], replicas, j, |s0|), s3[j])
      ensures j >= i ==> Reaches(crowd, s0[j], s2[j])
    {
      ReachesOn(crowd, if j < i then CollectedMoment(collect[j], replicas, j, |s0|) else s0[j], s1[j], s2[j]);
    }
    ReachesSelf(crowd, s3[i]);
  }

  /** Counting has reached slot i: slots before it are counted, the others only moved on. */
  ghost predicate SumsBetween(crowd: Crowd, a: seq<Moment>, sums: seq<Moment>, b: seq<Moment>) {
    && |sums| <= |a| == |b|
    && (forall j :: 0 <= j < |sums| ==> Reaches(crowd, a[j], sums[j]) && Reaches(crowd, sums[j], b[j]))
    && forall j :: |sums| <= j < |a| ==> Reaches(crowd, a[j], b[j])
  }

  lemma SumsStart(crowd: Crowd, s: seq<Moment>)
    ensures SumsBetween(crowd, s, [], s)
  {
    AllReachSelf(crowd, s);
  }

  lemma NextSum(crowd: Crowd, s0: seq<Moment>, sums: seq<Moment>, s1: seq<Moment>, s2: seq<Moment>)
    requires SumsBetween(crowd, s0, sums, s1) && |sums| < |s0| && AllReach(crowd, s1, s2)
    ensures SumsBetween(crowd, s0, sums + [s2[|sums|]], s2)
  {
    hide Reaches;
    AllReachSelf(crowd, s2);
    forall j | 0 <= j < |s0|
      ensures Reaches(crowd, if j < |sums| then sums[j] else s0[j], s2[j])
    {
      ReachesOn(crowd, if j < |sums| then sums[j] else s0[j], s1[j], s2[j]);
    }
  }

  lemma SumsEnd(crowd: Crowd, a: seq<Moment>, sums: seq<Moment>, b: seq<Moment>)
    requires SumsBetween(crowd, a, sums, b) && |sums| == |a|
    ensures AllReach(crowd, a, sums) && AllReach(crowd, sums, b)
  {
    hide Reaches;
  }

  lemma NothingRetained()
    ensures RetainedBytes(StatesOf([])) == 0
  {
  }

  lemma SumSnoc(sums: seq<Moment>, m: Moment)
    ensures RetainedBytes(StatesOf(sums + [m])) == RetainedBytes(StatesOf(sums)) + TotalBytes(m.state.log)
  {
    hide TotalBytes;
    assert StatesOf(sums + [m])[..|sums|] == StatesOf(sums);
  }

  /** The slots as they were collected and counted; the rest is not seen yet. */
  function SumLooks(collect: seq<Moment>, sums: seq<Moment>): (looks: seq<Upkeep>)
    requires |collect| == |sums|
    ensures |looks| == |sums| && forall j :: 0 <= j < |sums| ==>
            looks[j] == Upkeep(collect[j].state, sums[j].state, sums[j].state, sums[j].state)
  {
    seq(|sums|, j requires 0 <= j < |sums| =>
      Upkeep(collect[j].state, sums[j].state, sums[j].state, sums[j].state))
  }

  lemma {:induction false} SumIsCounted(sums: seq<SlotState>, looks: seq<Upkeep>)
    requires |sums| == |looks| && forall j :: 0 <= j < |sums| ==> looks[j].sum == sums[j]
    ensures CountedBytes(looks) == RetainedBytes(sums)
  {
    hide TotalBytes;
    if sums == [] {
    } else {
      SumIsCounted(sums[..|sums| - 1], looks[..|sums| - 1]);
    }
  }

  lemma TrimFreesLeading(s: SlotState, through: nat)
    ensures TotalBytes(s.log) == LeadingBytes(s.log, through) + TotalBytes(Trim(s, through).log)
  {
    hide TrimThrough, TotalBytes;
    TrimLeavesSuffix(s.log, through);
    var gone := |s.log| - |TrimThrough(s.log, through)|;
    assert s.log == s.log[..gone] + s.log[gone..];
    TotalBytesConcat(s.log[..gone], s.log[gone..]);
  }

  /** The slot was counted in between. */
  ghost predicate CountedBetween(crowd: Crowd, m: Moment, sum: SlotState, m': Moment) {
    exists a: seq<Write> :: Reaches(crowd, m, Moment(sum, a)) && Reaches(crowd, Moment(sum, a), m')
  }

  lemma CountedWidens(crowd: Crowd, m: Moment, sum: SlotState, m': Moment, end: Moment)
    requires CountedBetween(crowd, m, sum, m') && Reaches(crowd, m', end)
    ensures CountedBetween(crowd, m, sum, end)
  {
    hide Reaches;
    var a: seq<Write> :| Reaches(crowd, m, Moment(sum, a)) && Reaches(crowd, Moment(sum, a), m');
    ReachesOn(crowd, Moment(sum, a), m', end);
  }

  lemma EvictionWidens(crowd: Crowd, start: Moment, m: Moment, look: Upkeep, evicted: bool, m': Moment, end: Moment)
    requires Reaches(crowd, start, m) && EvictionBetween(crowd, m, look, evicted, m') && Reaches(crowd, m', end)
    ensures EvictionBetween(crowd, start, look, evicted, end)
  {
    hide Reaches, Trim, DropThrough;
    var a: seq<Write>, b: seq<Write>, c: seq<Write> :|
      && Reaches(crowd, m, Moment(look.sum, a)) && Reaches(crowd, Moment(look.sum, a), Moment(look.max, b))
      && Reaches(crowd, Moment(look.max, b), Moment(look.trim, c))
      && Reaches(crowd, Moment(if evicted then Trim(look.trim, DropThrough(look)) else look.trim, c), m');
    ReachesOn(crowd, start, m, Moment(look.sum, a));
    ReachesOn(crowd, Moment(if evicted then Trim(look.trim, DropThrough(look)) else look.trim, c), m', end);
  }

  /** A counted slot is evicted. */
  lemma CountedThenEvicted(crowd: Crowd, m: Moment, look: Upkeep, m1: Moment, max: Moment, trim: Moment, m2: Moment)
    requires CountedBetween(crowd, m, look.sum, m1) && Reaches(crowd, m1, max) && Reaches(crowd, max, trim)
    requires look.max == max.state && look.trim == trim.state
    requires m2 == Moment(Trim(trim.state, MaxSeqNo(max.state.log)), trim.made)
    ensures EvictionBetween(crowd, m, look, true, m2)
  {
    hide Reaches, Trim, MaxSeqNo;
    var a: seq<Write> :| Reaches(crowd, m, Moment(look.sum, a)) && Reaches(crowd, Moment(look.sum, a), m1);
    ReachesOn(crowd, Moment(look.sum, a), m1, max);
    ReachesSelf(crowd, m2);
    assert Moment(look.max, max.made) == max && Moment(look.trim, trim.made) == trim;
  }

  /** A counted slot is left alone. */
  lemma CountedIsKept(crowd: Crowd, m: Moment, look: Upkeep, m': Moment)
    requires CountedBetween(crowd, m, look.sum, m') && look.max == look.trim == m'.state
    ensures EvictionBetween(crowd, m, look, false, m')
  {
    hide Reaches;
    ReachesSelf(crowd, m');
    assert Moment(look.max, m'.made) == m';
  }

  /** Eviction has reached slot i: slots before it are evicted, the others counted. */
  ghost predicate EvictionsBetween(crowd: Crowd, a: seq<Moment>, looks: seq<Upkeep>, i: nat, b: seq<Moment>) {
    && i <= |a| == |looks| == |b|
    && (forall j :: 0 <= j < i ==> EvictionBetween(crowd, a[j], looks[j], true, b[j]))
    && forall j :: i <= j < |a| ==> CountedBetween(crowd, a[j], looks[j].sum, b[j])
  }

  lemma NextEviction(crowd: Crowd, s0: seq<Moment>, looks: seq<Upkeep>, i: nat, s1: seq<Moment>, max: Moment,
                     trim: Moment, s2: seq<Moment>)
    requires EvictionsBetween(crowd, s0, looks, i, s1) && i < |s0| == |s2|
    requires Reaches(crowd, s1[i], max) && Reaches(crowd, max, trim)
             && s2[i] == Moment(Trim(trim.state, MaxSeqNo(max.state.log)), trim.made)
    requires forall j :: 0 <= j < |s0| && j != i ==> Reaches(crowd, s1[j], s2[j])
    ensures EvictionsBetween(crowd, s0, looks[i := looks[i].(max := max.state, trim := trim.state)], i + 1, s2)
  {
    hide Reaches, Trim, MaxSeqNo, CountedBetween, EvictionBetween;
    CountedThenEvicted(crowd, s0[i], looks[i].(max := max.state, trim := trim.state), s1[i], max, trim, s2[i]);
    forall j | 0 <= j < |s0| && j != i
      ensures j < i ==> EvictionBetween(crowd, s0[j], looks[j], true, s2[j])
      ensures j > i ==> CountedBetween(crowd, s0[j], looks[j].sum, s2[j])
    {
      if j < i {
        ReachesSelf(crowd, s0[j]);
        EvictionWidens(crowd, s0[j], s0[j], looks[j], true, s1[j], s2[j]);
      } else {
        CountedWidens(crowd, s0[j], looks[j].sum, s1[j], s2[j]);
      }
    }
  }

  /** Slots from k on are looked at no more. */
  function EndLooks(looks: seq<Upkeep>, k: nat, now: seq<Moment>): (r: seq<Upkeep>)
    requires |looks| == |now|
    ensures |r| == |looks|
    ensures forall j :: 0 <= j < |r| ==> r[j] == if j < k then looks[j]
            else looks[j].(max := now[j].state, trim := now[j].state)
  {
    seq(|looks|, j requires 0 <= j < |looks| =>
      if j < k then looks[j] else looks[j].(max := now[j].state, trim := now[j].state))
  }

  lemma EvictionsEnd(crowd: Crowd, a: seq<Moment>, looks: seq<Upkeep>, k: nat, b: seq<Moment>)
    requires EvictionsBetween(crowd, a, looks, k, b)
    ensures forall j :: 0 <= j < |a| ==> EvictionBetween(crowd, a[j], EndLooks(looks, k, b)[j], j < k, b[j])
  {
    hide Reaches, CountedBetween, EvictionBetween;
    forall j | 0 <= j < |a|
      ensures EvictionBetween(crowd, a[j], EndLooks(looks, k, b)[j], j < k, b[j])
    {
      if j >= k {
        CountedIsKept(crowd, a[j], EndLooks(looks, k, b)[j], b[j]);
      }
    }
  }

  lemma {:induction false} SameCount(looks: seq<Upkeep>, looks': seq<Upkeep>)
    requires |looks| == |looks'| && forall j :: 0 <= j < |looks| ==> looks[j].sum == looks'[j].sum
    ensures CountedBytes(looks) == CountedBytes(looks')
  {
    hide TotalBytes;
    if looks == [] {
    } else {
      SameCount(looks[..|looks| - 1], looks'[..|looks| - 1]);
    }
  }

  /** Whatever is seen of the slots from i on, eviction from the start goes on here. */
  ghost predicate Continues(start: seq<Session>, first: nat, looks: seq<Upkeep>, budget: nat, now: seq<Session>,
                            total: nat, i: nat)
  {
    && i <= |looks| && SlotsTracked(start, |looks|) && SlotsTracked(now, |looks|)
    && forall more: seq<Upkeep> :: |more| == |looks| && more[..i] == looks[..i] ==>
         EvictFrom(start, more, budget, first, 0) == EvictFrom(now, more, budget, total, i)
  }

  lemma EvictNext(start: seq<Session>, first: nat, looks: seq<Upkeep>, look: Upkeep, budget: nat, now: seq<Session>,
                  total: nat, i: nat)
    requires Continues(start, first, looks, budget, now, total, i) && i < |looks| && total > budget
    ensures Continues(start, first, looks[i := look], budget, FlagReplicas(now, i, DropThrough(look), |looks|),
                      total - Min(total, FreedBytes(look)), i + 1)
  {
    hide FreedBytes, DropThrough, FlagReplicas;
    var next := looks[i := look];
    forall more: seq<Upkeep> | |more| == |looks| && more[..i + 1] == next[..i + 1]
      ensures EvictFrom(start, more, budget, first, 0) ==
              EvictFrom(FlagReplicas(now, i, DropThrough(look), |looks|), more, budget,
                        total - Min(total, FreedBytes(look)), i + 1)
    {
      assert more[i] == more[..i + 1][i] == next[..i + 1][i] == look;
      assert more[..i] == more[..i + 1][..i] == next[..i + 1][..i] == looks[..i];
    }
  }

  lemma EvictEnds(start: seq<Session>, first: nat, looks: seq<Upkeep>, budget: nat, now: seq<Session>, total: nat,
                  i: nat, more: seq<Upkeep>)
    requires Continues(start, first, looks, budget, now, total, i) && (i == |looks| || total <= budget)
    requires |more| == |looks| && more[..i] == looks[..i]
    ensures EvictFrom(start, more, budget, first, 0) == Eviction(now, i)
  {
  }

  /** The whole of what eviction knows at slot i: what it saw, and that it does what the specification does. */
  ghost predicate Evicting(crowd: Crowd, a: seq<Moment>, collect: seq<Moment>, start: seq<Session>, first: nat,
                           budget: nat, looks: seq<Upkeep>, b: seq<Moment>, now: seq<Session>, total: nat, i: nat)
  {
    && EvictionsBetween(crowd, a, looks, i, b) && Continues(start, first, looks, budget, now, total, i)
      && CountedBytes(looks) == first
    && |collect| == |looks| && forall j :: 0 <= j < |looks| ==> looks[j].collect == collect[j].state
  }

  lemma EvictingStarts(crowd: Crowd, a: seq<Moment>, collect: seq<Moment>, start: seq<Session>, budget: nat,
                       sums: seq<Moment>, b: seq<Moment>)
    requires AllReach(crowd, a, sums) && AllReach(crowd, sums, b) && |collect| == |a| && SlotsTracked(start, |a|)
    ensures Evicting(crowd, a, collect, start, RetainedBytes(StatesOf(sums)), budget, SumLooks(collect, sums), b, start,
                     RetainedBytes(StatesOf(sums)), 0)
  {
    hide Reaches, RetainedBytes, CountedBytes;
    SumIsCounted(StatesOf(sums), SumLooks(collect, sums));
    forall j | 0 <= j < |a|
      ensures CountedBetween(crowd, a[j], sums[j].state, b[j])
    {
      assert Moment(sums[j].state, sums[j].made) == sums[j];
    }
  }

  lemma NextEvicting(crowd: Crowd, a: seq<Moment>, collect: seq<Moment>, start: seq<Session>, first: nat, budget: nat,
                     looks: seq<Upkeep>, b: seq<Moment>, now: seq<Session>, total: nat, i: nat, max: Moment,
                     trim: Moment, b': seq<Moment>) returns (looks': seq<Upkeep>)
    requires Evicting(crowd, a, collect, start, first, budget, looks, b, now, total, i) && i < |looks| && total > budget
    requires |b'| == |b| == |looks| && Reaches(crowd, b[i], max) && Reaches(crowd, max, trim)
             && b'[i] == Moment(Trim(trim.state, MaxSeqNo(max.state.log)), trim.made)
    requires forall j :: 0 <= j < |b| && j != i ==> Reaches(crowd, b[j], b'[j])
    ensures SlotsTracked(now, |looks|) && |looks'| == |looks|
    ensures Evicting(crowd, a, collect, start, first, budget, looks', b',
                     FlagReplicas(now, i, MaxSeqNo(max.state.log), |looks|),
                     total - Min(total, LeadingBytes(trim.state.log, MaxSeqNo(max.state.log))), i + 1)
  {
    hide Reaches, Trim, MaxSeqNo, LeadingBytes, CountedBytes, EvictionBetween, CountedBetween, EvictFrom, FlagReplicas;
    var look := looks[i].(max := max.state, trim := trim.state);
    looks' := looks[i := look];
    NextEviction(crowd, a, looks, i, b, max, trim, b');
    SameCount(looks, looks');
    EvictNext(start, first, looks, look, budget, now, total, i);
  }

  lemma EvictingEnds(crowd: Crowd, a: seq<Moment>, collect: seq<Moment>, start: seq<Session>, first: nat, budget: nat,
                     looks: seq<Upkeep>, b: seq<Moment>, now: seq<Session>, total: nat, i: nat)
    returns (looks': seq<Upkeep>)
    requires Evicting(crowd, a, collect, start, first, budget, looks, b, now, total, i)
             && (i == |looks| || total <= budget)
    ensures |looks'| == |looks| == |collect| == |a| == |b| && SlotsTracked(start, |looks|)
    ensures Master.EnforceBudget(start, looks', budget) == Eviction(now, i)
    ensures forall j :: 0 <= j < |looks| ==>
              looks'[j].collect == collect[j].state && EvictionBetween(crowd, a[j], looks'[j], j < i, b[j])
  {
    hide Reaches, EvictionBetween, EvictFrom, CountedBytes;
    EvictionsEnd(crowd, a, looks, i, b);
    looks' := EndLooks(looks, i, b);
    EvictEnds(start, first, looks, budget, now, total, i, looks');
    SameCount(looks, looks');
  }

  lemma UpkeepChains(crowd: Crowd, m: Moment, replicas: seq<Session>, id: nat, count: nat, collect: Moment,
                     look: Upkeep, mid: Moment, evicted: bool, m': Moment)
    requires SlotsTracked(replicas, count) && id < count && Reaches(crowd, m, collect) && look.collect == collect.state
    requires Reaches(crowd, CollectedMoment(collect, replicas, id, count), mid)
             && EvictionBetween(crowd, mid, look, evicted, m')
    ensures UpkeepBetween(crowd, m, replicas, id, count, look, evicted, m')
  {
    hide Reaches, Collected, EvictionBetween;
    ReachesSelf(crowd, m');
    EvictionWidens(crowd, CollectedMoment(collect, replicas, id, count), mid, look, evicted, m', m');
    assert Moment(look.collect, collect.made) == collect;
  }

  class MasterReplicator {
    const slots: Slots
    const epoch: string
    const lay: Layout
    const clients: Clients
    var replicas: seq<Session>
    var nextSessionSeq: nat
    var budget: nat

    ghost predicate Valid()
      reads this, slots, Binlogs(slots)
    {
      && Engine.Valid(slots) && IsVisitOrder(lay.order) && |slots| > 0
      && SlotsTracked(replicas, |slots|)
    }

    /** The node at this moment, as a value. */
    ghost function Here(): Node
      reads this, clients, slots, Binlogs(slots)
    {
      Node(clients.Now(slots), replicas, nextSessionSeq, budget)
    }

    constructor (slots: Slots, epoch: string, lay: Layout, clients: Clients)
      requires Engine.Valid(slots) && IsVisitOrder(lay.order) && |slots| > 0
      ensures Valid() && this.slots == slots && this.epoch == epoch && this.lay == lay && this.clients == clients
      ensures replicas == [] && nextSessionSeq == 1
    {
      this.slots := slots;
      this.epoch := epoch;
      this.lay := lay;
      this.clients := clients;
      replicas := [];
      nextSessionSeq := 1;
      budget := U64_MAX;
    }

    method FindReplica(replicaId: string) returns (r: nat)
      ensures r == Master.FindReplica(replicas, replicaId)
    {
      r := 0;
      assert replicas[0..] == replicas;
      while r < |replicas| && replicas[r].replicaId != replicaId
        invariant r <= |replicas|
        invariant Master.FindReplica(replicas, replicaId) == r + Master.FindReplica(replicas[r..], replicaId)
      {
        assert replicas[r..][1..] == replicas[r + 1..] && replicas[r..][0] == replicas[r];
        r := r + 1;
      }
      if r < |replicas| {
        assert replicas[r..][0] == replicas[r];
      }
    }

    method NewSessionId(replicaId: string) returns (name: string)
      modifies this`nextSessionSeq
      ensures name == SessionName(epoch, replicaId, old(nextSessionSeq)) && nextSessionSeq == old(nextSessionSeq) + 1
    {
      name := epoch + "-" + replicaId + "-" + Decimal(nextSessionSeq);
      nextSessionSeq := nextSessionSeq + 1;
    }

    /** The session that answers to the replica's name, a new one if there is none. */
    method FindOrCreate(replicaId: string) returns (r: nat)
      requires Valid()
      modifies this`replicas
      ensures Valid() && r == Master.FindReplica(old(replicas), replicaId) && r < |replicas|
      ensures replicas == Placed(old(replicas), replicaId, Known(old(replicas), replicaId, |slots|))
    {
      r := FindReplica(replicaId);
      if r == |replicas| {
        replicas := replicas + [NewSession(replicaId, |slots|)];
      }
    }

    /** HELLO's question whether a slot still has the records from a number on. */
    method HasBacklog(slotId: nat, seqNo: nat) returns (b: bool, ghost v: View)
      requires Valid()
      modifies clients, slots, Binlogs(slots)
      ensures Valid() && AllReach(clients.crowd, old(clients.Now(slots)), clients.Now(slots))
      ensures slotId >= |slots| ==> !b
      ensures slotId < |slots| ==>
                LooksBetween(clients.crowd, old(clients.Now(slots))[slotId], v, clients.Now(slots)[slotId])
                  && b == Master.HasBacklog(v, seqNo)
    {
      hide AllReach, LooksBetween, MinSeqNo, MaxSeqNo, IsVisitOrder, Engine.Valid, SlotsTracked;
      ghost var s0 := clients.Now(slots);
      AllReachSelf(clients.crowd, s0);
      if slotId >= |slots| {
        return false, AtRest(EMPTY_SLOT);
      }
      clients.Run(slots);
      var minSeq := MinSeqNo(slots[slotId].binlog.records);
      ghost var s1 := clients.Now(slots);
      clients.Run(slots);
      var maxSeq := MaxSeqNo(slots[slotId].binlog.records);
      ghost var s2 := clients.Now(slots);
      AllReachSelf(clients.crowd, s2);
      ThreeLooks(clients.crowd, s0, s1, s2, s2, slotId);
      v := View(s1[slotId].state, s1[slotId].state, s2[slotId].state, s2[slotId].state, s2[slotId].state);
      if seqNo == 0 {
        return true, v;
      }
      if minSeq == 0 && maxSeq == 0 {
        clients.Run(slots);
        var _, published := slots[slotId].Snapshot();
        ghost var s3 := clients.Now(slots);
        ThreeLooks(clients.crowd, s0, s1, s2, s3, slotId);
        v := View(s1[slotId].state, s1[slotId].state, s2[slotId].state, s3[slotId].state, s3[slotId].state);
        return seqNo > published, v;
      }
      return seqNo >= minSeq && seqNo <= maxSeq + 1, v;
    }

    method GreetOne(slotId: nat, position: nat, reset: bool) returns (progress: Progress, ghost v: View)
      requires Valid() && slotId < |slots|
      modifies clients, slots, Binlogs(slots)
      ensures Valid() && AllReach(clients.crowd, old(clients.Now(slots)), clients.Now(slots))
      ensures ViewBetween(clients.crowd, old(clients.Now(slots))[slotId], v, clients.Now(slots)[slotId])
      ensures progress == GreetSlot(reset, position, v)
    {
      hide AllReach, LooksBetween, ViewBetween, IsVisitOrder, Master.HasBacklog, Engine.Valid, SlotsTracked;
      ghost var s0 := clients.Now(slots);
      var acked := if reset then 0 else position;
      clients.Run(slots);
      var _, published := slots[slotId].Snapshot();
      ghost var s1 := clients.Now(slots);
      var backlog;
      backlog, v := HasBacklog(slotId, acked + 1);
      ghost var known := v;
      v := known.(first := s1[slotId].state, last := clients.Now(slots)[slotId].state);
      SameBacklog(known, v, acked + 1);
      AllReachOn(clients.crowd, s0, s1, clients.Now(slots));
      GreetLooks(clients.crowd, s0, slotId, s1, known, clients.Now(slots));
      progress := Progress(acked, acked, acked > published || !backlog);
      if acked > published {
        progress := progress.(acked := 0, sent := 0);
      }
    }

    /** One position of a HELLO; a slot that does not exist is passed over. */
    method GreetNamed(r: nat, slotId: nat, position: nat) returns (ghost v: View)
      requires Valid() && r < |replicas|
      modifies this`replicas, clients, slots, Binlogs(slots)
      ensures Valid() && AllReach(clients.crowd, old(clients.Now(slots)), clients.Now(slots))
      ensures slotId < |slots| ==> ViewBetween(clients.crowd, old(clients.Now(slots))[slotId], v,
                                               clients.Now(slots)[slotId])
      ensures var now := old(replicas[r]);
              replicas == old(replicas)[r := now.(slots :=
                if slotId >= |slots| then now.slots else now.slots[slotId := GreetSlot(now.reset, position, v)])]
    {
      hide GreetSlot, AllReach, ViewBetween, IsVisitOrder, Clients.Now;
      AllReachSelf(clients.crowd, clients.Now(slots));
      if slotId >= |replicas[r].slots| {
        return AtRest(EMPTY_SLOT);
      }
      var progress;
      progress, v := GreetOne(slotId, position, replicas[r].reset);
      replicas := replicas[r := replicas[r].(slots := replicas[r].slots[slotId := progress])];
    }

    method GreetPositions(r: nat, positions: seq<Position>) returns (ghost views: seq<View>)
      requires Valid() && r < |replicas|
      modifies this`replicas, clients, slots, Binlogs(slots)
      ensures Valid() && AllReach(clients.crowd, old(clients.Now(slots)), clients.Now(slots))
      ensures GreetingBetween(clients.crowd, old(clients.Now(slots)), positions, views, clients.Now(slots))
      ensures replicas == old(replicas)[r := old(replicas[r]).(slots :=
                GreetSlots(old(replicas[r]).slots, old(replicas[r]).reset, positions, views))]
    {
      hide GreetSlots, GreetSlot, AllReach, GreetingBetween, ViewBetween, Engine.Valid, IsVisitOrder;
      ghost var before, s0 := replicas[r], clients.Now(slots);
      GreetingStarts(clients.crowd, s0);
      views := [];
      GreetNone(before.slots, before.reset);
      assert positions[..0] == [];
      for k := 0 to |positions|
        invariant Valid() && |replicas| == |old(replicas)| && |views| == k
                  && AllReach(clients.crowd, s0, clients.Now(slots))
        invariant GreetingBetween(clients.crowd, s0, positions[..k], views, clients.Now(slots))
        invariant replicas == old(replicas)[r :=
                    before.(slots := GreetSlots(before.slots, before.reset, positions[..k], views))]
      {
        ghost var s1 := clients.Now(slots);
        ghost var seen := GreetNamed(r, positions[k].0, positions[k].1);
        GreetNext(before.slots, before.reset, positions[..k], views, positions[k], seen);
        NextGreeting(clients.crowd, s0, positions[..k], views, s1, positions[k], seen, clients.Now(slots));
        views := views + [seen];
        assert positions[..k + 1] == positions[..k] + [positions[k]];
      }
      assert positions[..|positions|] == positions;
    }

    method OnHello(hello: Frame) returns (sessionId: string, ghost views: seq<View>)
      requires Valid() && hello.Hello?
      modifies this`replicas, this`nextSessionSeq, clients, slots, Binlogs(slots)
      ensures Valid() && AllReach(clients.crowd, old(clients.Now(slots)), clients.Now(slots))
      ensures GreetingBetween(clients.crowd, old(clients.Now(slots)), hello.positions, views, clients.Now(slots))
      ensures var known := Known(old(replicas), hello.replicaId, |slots|);
              var name := SessionName(epoch, hello.replicaId, old(nextSessionSeq));
              var greeted := Greet(known, hello.session, hello.positions, name, views);
              && replicas == Placed(old(replicas), hello.replicaId, greeted) && sessionId == greeted.sessionId
              && nextSessionSeq == old(nextSessionSeq) + (if greeted.reset then 1 else 0)
    {
      hide GreetSlots, SessionName, Master.FindReplica, AllReach, GreetingBetween, Clients.Now;
      var r := FindOrCreate(hello.replicaId);
      ghost var found := replicas;
      var reset := replicas[r].sessionId == "" || hello.session != replicas[r].sessionId;
      replicas := replicas[r := replicas[r].(reset := reset)];
      if reset {
        var name := NewSessionId(hello.replicaId);
        replicas := replicas[r := replicas[r].(sessionId := name)];
      }
      views := GreetPositions(r, hello.positions);
      PlacedAgain(old(replicas), hello.replicaId, Known(old(replicas), hello.replicaId, |slots|), replicas[r]);
      assert replicas == found[r := replicas[r]];
      return replicas[r].sessionId, views;
    }

    // ---- batches

    /** The batch in progress, as a value. */
    ghost function InProgress(r: nat, frames: seq<Frame>, payloadBytes: nat, full: bool, completed: seq<Position>)
        : Build
      requires r < |replicas|
      reads this
    {
      Build(replicas[r].slots, replicas[r].nextSlot, frames, payloadBytes, full, completed)
    }

    /** Only the progress and the cursor of session r moved. */
    ghost predicate OnlyBatchMoved(r: nat, before: seq<Session>)
      reads this
    {
      && r < |replicas| == |before|
      && replicas == before[r := before[r].(slots := replicas[r].slots, nextSlot := replicas[r].nextSlot)]
    }

    method BuildSnapshotFrame(session: string, slotId: nat) returns (f: Frame)
      requires Valid() && slotId < |slots|
      ensures var s := slots[slotId].State();
              f == Snapshot(session, slotId, s.published, Wire(SnapshotCodec.Encode(lay, s.objects)))
    {
      var image, base := slots[slotId].Snapshot();
      var _, words := EncodeSnapshotPayload(lay, image);
      return Snapshot(session, slotId, base, Wire(words));
    }

    method SendSnapshot(r: nat, slotId: nat, announced: nat, frames: seq<Frame>, payloadBytes: nat,
                        ghost completed: seq<Position>)
      returns (frames': seq<Frame>, payloadBytes': nat, full: bool, target: nat)
      requires Valid() && r < |replicas| && slotId < |slots|
      modifies this`replicas
      ensures Valid() && OnlyBatchMoved(r, old(replicas))
      ensures InProgress(r, frames', payloadBytes', full, completed) ==
              OfferSnapshot(old(InProgress(r, frames, payloadBytes, false, completed)), old(replicas[r]).sessionId, lay,
                            slotId,
                            slots[slotId].State())
      ensures target == if full then announced else replicas[r].slots[slotId].sent
    {
      hide Wire, SnapshotCodec.Encode;
      frames', payloadBytes', full, target := frames, payloadBytes, false, announced;
      var frame := BuildSnapshotFrame(replicas[r].sessionId, slotId);
      var bytes := |frame.payload|;
      if frames == [] || (payloadBytes < MAX_BATCH_BYTES && bytes <= MAX_BATCH_BYTES - payloadBytes) {
        payloadBytes' := payloadBytes + bytes;
        target := frame.base;
        replicas := replicas[r := replicas[r].(slots :=
          replicas[r].slots[slotId := Progress(replicas[r].slots[slotId].acked, frame.base, false)])];
        frames' := frames + [frame];
      } else {
        replicas := replicas[r := replicas[r].(nextSlot := slotId)];
        full := true;
      }
    }

    method SendLogs(r: nat, slotId: nat, logs: seq<Record>, target: nat, frames: seq<Frame>, payloadBytes: nat,
                    ghost completed: seq<Position>)
      returns (frames': seq<Frame>, payloadBytes': nat, full: bool)
      requires Valid() && r < |replicas| && slotId < |slots|
      modifies this`replicas
      ensures Valid() && OnlyBatchMoved(r, old(replicas))
      ensures InProgress(r, frames', payloadBytes', full, completed) ==
              OfferLogs(old(InProgress(r, frames, payloadBytes, false, completed)), old(replicas[r]).sessionId, slotId,
                        logs, target)
    {
      hide RecordBytes;
      frames', payloadBytes', full := frames, payloadBytes, false;
      var session := replicas[r].sessionId;
      ghost var all := OfferLogs(InProgress(r, frames, payloadBytes, false, completed), session, slotId, logs, target);
      var k := 0;
      assert logs[0..] == logs;
      while k < |logs|
        invariant k <= |logs| && Valid() && OnlyBatchMoved(r, old(replicas)) && !full
                  && replicas[r].sessionId == session
        invariant OfferLogs(InProgress(r, frames', payloadBytes', full, completed), session, slotId, logs[k..], target)
                  == all
      {
        var log := logs[k];
        assert logs[k..][0] == log && logs[k..][1..] == logs[k + 1..];
        var state := replicas[r].slots[slotId];
        if log.seqNo > target {
          break;
        }
        if log.seqNo != state.sent + 1 {
          replicas := replicas[r := replicas[r].(slots := replicas[r].slots[slotId := state.(needSnapshot := true)])];
          break;
        }
        var bytes := RecordBytes(log);
        if !(frames' == [] || (payloadBytes' < MAX_BATCH_BYTES && bytes <= MAX_BATCH_BYTES - payloadBytes')) {
          replicas := replicas[r := replicas[r].(nextSlot := slotId)];
          full := true;
          break;
        }
        payloadBytes' := payloadBytes' + bytes;
        replicas := replicas[r := replicas[r].(slots := replicas[r].slots[slotId := state.(sent := log.seqNo)])];
        frames' := frames' + [Log(session, slotId, log)];
        k := k + 1;
      }
    }

    /** Whether the slot goes out as an image: it is flagged, or its next records may be gone. */
    method WantsImage(r: nat, slotId: nat) returns (image: bool, ghost v: View)
      requires Valid() && r < |replicas| && slotId < |slots|
      modifies clients, slots, Binlogs(slots)
      ensures Valid() && AllReach(clients.crowd, old(clients.Now(slots)), clients.Now(slots))
      ensures LooksBetween(clients.crowd, old(clients.Now(slots))[slotId], v, clients.Now(slots)[slotId])
      ensures image == (replicas[r].slots[slotId].needSnapshot
                        || !Master.HasBacklog(v, replicas[r].slots[slotId].sent + 1))
    {
      hide Master.HasBacklog, Reaches;
      if replicas[r].slots[slotId].needSnapshot {
        AllReachSelf(clients.crowd, clients.Now(slots));
        return true, AtRest(slots[slotId].State());
      }
      var backlog;
      backlog, v := HasBacklog(slotId, replicas[r].slots[slotId].sent + 1);
      return !backlog, v;
    }

    /** The image or the logs of the slot as it is now. */
    method ServeNow(r: nat, slotId: nat, image: bool, announced: nat, maxFrames: nat, frames: seq<Frame>,
                    payloadBytes: nat, ghost completed: seq<Position>, ghost v: View)
      returns (frames': seq<Frame>, payloadBytes': nat, full: bool, target: nat)
      requires Valid() && r < |replicas| && slotId < |slots| && |frames| < maxFrames
      requires WithinLimits(InProgress(r, frames, payloadBytes, false, completed), maxFrames)
      requires v.first.published == announced && v.last == slots[slotId].State()
      requires image == WantsSnapshot(InProgress(r, frames, payloadBytes, false, completed), slotId, v)
      modifies this`replicas
      ensures Valid() && OnlyBatchMoved(r, old(replicas))
      ensures var before, after := old(InProgress(r, frames, payloadBytes, false, completed)),
                                   InProgress(r, frames', payloadBytes', full, completed);
              && after == Serve(before, old(replicas[r]).sessionId, lay, slotId, v, maxFrames)
              && target == Target(before, after, slotId, v, maxFrames)
    {
      hide Wire, SnapshotCodec.Encode, OfferSnapshot, OfferLogs, LogAfter, TotalBytes, RecordBytes, BatchBytes,
           Master.HasBacklog, IsVisitOrder;
      if image {
        frames', payloadBytes', full, target := SendSnapshot(r, slotId, announced, frames, payloadBytes, completed);
      } else {
        var logs := slots[slotId].CopyLogsAfter(replicas[r].slots[slotId].sent,
                                                Min(MAX_LOGS_PER_SLOT, maxFrames - |frames|),
                                                MAX_BATCH_BYTES - payloadBytes);
        target := announced;
        frames', payloadBytes', full := SendLogs(r, slotId, logs, announced, frames, payloadBytes, completed);
      }
    }

    /** What one slot gets; `first` is the slot as its published number was read. */
    method ServeSlot(r: nat, slotId: nat, announced: nat, maxFrames: nat, frames: seq<Frame>, payloadBytes: nat,
                     ghost completed: seq<Position>, ghost first: SlotState)
      returns (frames': seq<Frame>, payloadBytes': nat, full: bool, target: nat, ghost v: View)
      requires Valid() && r < |replicas| && slotId < |slots| && |frames| < maxFrames && announced == first.published
      requires WithinLimits(InProgress(r, frames, payloadBytes, false, completed), maxFrames)
      modifies this`replicas, clients, slots, Binlogs(slots)
      ensures Valid() && OnlyBatchMoved(r, old(replicas))
              && AllReach(clients.crowd, old(clients.Now(slots)), clients.Now(slots))
      ensures v.first == first && LooksBetween(clients.crowd, old(clients.Now(slots))[slotId], v,
                                               clients.Now(slots)[slotId])
              && v.last == slots[slotId].State()
      ensures var before, after := old(InProgress(r, frames, payloadBytes, false, completed)),
                                   InProgress(r, frames', payloadBytes', full, completed);
              && after == Serve(before, old(replicas[r]).sessionId, lay, slotId, v, maxFrames)
              && target == Target(before, after, slotId, v, maxFrames)
    {
      hide Serve, Target, Master.HasBacklog, WithinLimits, IsVisitOrder, Engine.Valid, AllReach, LooksBetween;
      ghost var s0 := clients.Now(slots);
      var image, known := WantsImage(r, slotId);
      ghost var s1 := clients.Now(slots);
      clients.Run(slots);
      ghost var s2 := clients.Now(slots);
      AllReachOn(clients.crowd, s0, s1, s2);
      v := known.(first := first, last := s2[slotId].state);
      LastLook(clients.crowd, s0, slotId, known, s1, v, s2);
      SameBacklog(known, v, replicas[r].slots[slotId].sent + 1);
      frames', payloadBytes', full, target := ServeNow(r, slotId, image, announced, maxFrames, frames, payloadBytes,
                                                       completed, v);
    }

    /**
     * The end of a visit: a batch without room is closed behind the slot, and the slot is announced unless it waits.
     */
    method CloseVisit(r: nat, slotId: nat, maxFrames: nat, target: nat, ghost frames: seq<Frame>, size: nat,
                      payloadBytes: nat, full: bool, completed: seq<Position>)
      returns (full': bool, completed': seq<Position>)
      requires Valid() && r < |replicas| && slotId < |slots| && size == |frames|
      modifies this`replicas
      ensures Valid() && OnlyBatchMoved(r, old(replicas))
      ensures var closed := CloseIfFull(old(InProgress(r, frames, payloadBytes, full, completed)), slotId, maxFrames);
              InProgress(r, frames, payloadBytes, full', completed') ==
                if closed.slots[slotId].needSnapshot then closed
                else closed.(completed := closed.completed + [(slotId, target)])
    {
      full', completed' := full, completed;
      if !full' && (size >= maxFrames || payloadBytes >= MAX_BATCH_BYTES) {
        replicas := replicas[r := replicas[r].(nextSlot := (slotId + 1) % |slots|)];
        full' := true;
      }
      if !replicas[r].slots[slotId].needSnapshot {
        completed' := completed + [(slotId, target)];
      }
    }

    /** One slot of the batch. */
    method VisitSlot(r: nat, slotId: nat, maxFrames: nat, frames: seq<Frame>, payloadBytes: nat, full: bool,
                     completed: seq<Position>)
      returns (frames': seq<Frame>, payloadBytes': nat, full': bool, completed': seq<Position>, ghost v: View)
      requires Valid() && r < |replicas| && slotId < |slots|
      requires WithinLimits(InProgress(r, frames, payloadBytes, full, completed), maxFrames)
      modifies this`replicas, clients, slots, Binlogs(slots)
      ensures Valid() && OnlyBatchMoved(r, old(replicas))
              && AllReach(clients.crowd, old(clients.Now(slots)), clients.Now(slots))
      ensures ViewBetween(clients.crowd, old(clients.Now(slots))[slotId], v, clients.Now(slots)[slotId])
      ensures InProgress(r, frames', payloadBytes', full', completed') ==
              Visit(old(InProgress(r, frames, payloadBytes, full, completed)), old(replicas[r]).sessionId, lay, slotId,
                    v, maxFrames)
    {
      hide Visit, Serve, Target, CloseIfFull, IsVisitOrder, Engine.Valid, AllReach, AllLater, States, StatesOf,
           Clients.Now, ViewBetween, LooksBetween, Capped;
      frames', payloadBytes', full', completed' := frames, payloadBytes, full, completed;
      ghost var b, session := InProgress(r, frames, payloadBytes, full, completed), replicas[r].sessionId;
      ghost var s0 := clients.Now(slots);
      clients.Run(slots);
      var _, target := slots[slotId].Snapshot();
      ghost var s1 := clients.Now(slots);
      v := AtRest(s1[slotId].state);
      OneLook(clients.crowd, s0, slotId, s1);
      NothingServed(b, session, lay, slotId, v, maxFrames);
      if !full && |frames| < maxFrames {
        frames', payloadBytes', full', target, v :=
          ServeSlot(r, slotId, target, maxFrames, frames, payloadBytes, completed, s1[slotId].state);
        AllReachOn(clients.crowd, s0, s1, clients.Now(slots));
        AllLooks(clients.crowd, s0, slotId, s1, v, clients.Now(slots));
      }
      VisitByParts(b, session, lay, slotId, v, maxFrames, InProgress(r, frames', payloadBytes', full', completed),
                   target);
      full', completed' := CloseVisit(r, slotId, maxFrames, target, frames', |frames'|, payloadBytes', full',
                                      completed);
    }

    method BuildFrames(r: nat, maxFrames: nat)
      returns (frames: seq<Frame>, completed: seq<Position>, ghost views: seq<View>)
      requires Valid() && r < |replicas|
      modifies this`replicas, clients, slots, Binlogs(slots)
      ensures Valid() && AllReach(clients.crowd, old(clients.Now(slots)), clients.Now(slots))
      ensures BatchBetween(clients.crowd, old(clients.Now(slots)), old(replicas[r]).nextSlot, views, |slots|,
                           clients.Now(slots))
      ensures var b := BuildUpTo(old(replicas[r]), lay, views, maxFrames, |slots|);
              && replicas == old(replicas)[r := old(replicas[r]).(slots := b.slots, nextSlot := b.nextSlot)]
              && frames == b.frames && completed == b.completed
    {
      hide Visit, WithinLimits, VisitedSlot, AllReach, BatchBetween, ViewBetween, Engine.Valid, IsVisitOrder;
      var start := replicas[r].nextSlot;
      ghost var session, s0 := replicas[r], clients.Now(slots);
      views := seq(|slots|, _ => AtRest(EMPTY_SLOT));
      BatchStarts(clients.crowd, s0, start, views);
      var payloadBytes, full := 0, false;
      frames, completed := [], [];
      for i := 0 to |slots|
        invariant Valid() && OnlyBatchMoved(r, old(replicas)) && AllReach(clients.crowd, s0, clients.Now(slots))
                  && |views| == |slots|
        invariant BatchBetween(clients.crowd, s0, start, views, i, clients.Now(slots))
        invariant InProgress(r, frames, payloadBytes, full, completed) == BuildUpTo(session, lay, views, maxFrames, i)
      {
        var slotId := VisitedSlot(start, i, |slots|);
        ghost var s1, before, seen := clients.Now(slots), views, AtRest(EMPTY_SLOT);
        frames, payloadBytes, full, completed, seen :=
          VisitSlot(r, slotId, maxFrames, frames, payloadBytes, full, completed);
        views := views[i := seen];
        NextVisit(clients.crowd, s0, start, before, i, s1, seen, clients.Now(slots));
        BuildIgnoresRest(session, lay, before, views, maxFrames, i);
      }
    }

    /**
     * The answer to a HELLO, and what the replicator saw of the slots while it greeted and while it built the batch.
     */
    method Poll(hello: Frame, maxFrames: nat)
      returns (frames: seq<Frame>, ghost greetViews: seq<View>, ghost mid: seq<Moment>, ghost buildViews: seq<View>)
      requires Valid()
      modifies this`replicas, this`nextSessionSeq, clients, slots, Binlogs(slots)
      ensures Valid()
      ensures PollDoes(clients.crowd, epoch, lay, old(Here()), hello, maxFrames, frames, greetViews, mid, buildViews,
                       Here())
    {
      hide BuildUpTo, GreetSlots, AllReach, ViewBetween, SessionName;
      greetViews, mid, buildViews := [], [], [];
      if !hello.Hello? || hello.version != PROTOCOL_VERSION || hello.replicaId == "" {
        return [], greetViews, mid, buildViews;
      }
      var sessionId;
      sessionId, greetViews := OnHello(hello);
      mid := clients.Now(slots);
      ghost var greeted := replicas;
      var r := FindReplica(hello.replicaId);
      FoundWherePlaced(old(replicas), hello.replicaId, |slots|, greeted);
      var data, completed;
      data, completed, buildViews := BuildFrames(r, maxFrames);
      PlacedAgain(old(replicas), hello.replicaId, greeted[r], replicas[r]);
      frames := [Begin(replicas[r].sessionId, replicas[r].reset)] + data + [Done(replicas[r].sessionId, completed)];
    }

    // ---- retention

    /** The lowest acknowledged number, or the largest 64-bit number if none is lower. */
    method LowestAck(id: nat) returns (low: nat)
      requires Valid() && replicas != [] && id < |slots|
      ensures low == Min(U64_MAX, MinAck(replicas, id, |slots|))
    {
      low := U64_MAX;
      for m := 0 to |replicas|
        invariant if m == 0 then low == U64_MAX else low == Min(U64_MAX, MinAck(replicas[..m], id, |slots|))
      {
        assert replicas[..m + 1][..m] == replicas[..m];
        if replicas[m].slots[id].acked < low {
          low := replicas[m].slots[id].acked;
        }
      }
      assert replicas[..|replicas|] == replicas;
    }

    /** Trims one slot; mid are the slots right before. */
    method CollectOne(i: nat) returns (ghost mid: seq<Moment>)
      requires Valid() && replicas != [] && i < |slots|
      modifies clients, slots, Binlogs(slots)
      ensures Valid() && |mid| == |slots| && AllReach(clients.crowd, old(clients.Now(slots)), mid)
      ensures clients.Now(slots) == mid[i := CollectedMoment(mid[i], replicas, i, |slots|)]
    {
      hide Trim, MinAck, TotalBytes, AllReach, IsVisitOrder;
      clients.Run(slots);
      mid := clients.Now(slots);
      var low := LowestAck(i);
      if low != U64_MAX {
        var _ := TrimSlot(slots, i, low);
      }
    }

    /** Trims every slot through the lowest acknowledged number; collect[i] is slot i right before. */
    method CollectGarbage() returns (ghost collect: seq<Moment>)
      requires Valid()
      modifies clients, slots, Binlogs(slots)
      ensures Valid() && CollectionBetween(clients.crowd, old(clients.Now(slots)), replicas, collect, |slots|,
                                           clients.Now(slots))
    {
      hide Collected, CollectionBetween, AllReach, IsVisitOrder;
      ghost var s0 := clients.Now(slots);
      CollectionStarts(clients.crowd, s0, replicas);
      collect := s0;
      if replicas == [] {
        return;
      }
      for i := 0 to |slots|
        invariant Valid() && |collect| == |slots|
        invariant CollectionBetween(clients.crowd, s0, replicas, collect, i, clients.Now(slots))
      {
        ghost var s1 := clients.Now(slots);
        ghost var mid := CollectOne(i);
        NextCollection(clients.crowd, s0, replicas, collect, i, s1, mid, clients.Now(slots));
        collect := collect[i := mid[i]];
      }
    }

    /** The bytes retained by all slots, summed from their counters; sums[i] is slot i as it was counted. */
    method SumRetained() returns (total: nat, ghost sums: seq<Moment>)
      requires Valid()
      modifies clients, slots, Binlogs(slots)
      ensures Valid() && total == RetainedBytes(StatesOf(sums)) && |sums| == |slots|
      ensures AllReach(clients.crowd, old(clients.Now(slots)), sums)
              && AllReach(clients.crowd, sums, clients.Now(slots))
    {
      hide AllReach, SumsBetween, TotalBytes, RetainedBytes, IsVisitOrder;
      ghost var s0 := clients.Now(slots);
      SumsStart(clients.crowd, s0);
      NothingRetained();
      total, sums := 0, [];
      for i := 0 to |slots|
        invariant Valid() && |sums| == i && total == RetainedBytes(StatesOf(sums))
        invariant SumsBetween(clients.crowd, s0, sums, clients.Now(slots))
      {
        ghost var s1 := clients.Now(slots);
        clients.Run(slots);
        total := total + slots[i].binlog.retainedBytes;
        NextSum(clients.crowd, s0, sums, s1, clients.Now(slots));
        SumSnoc(sums, clients.Now(slots)[i]);
        sums := sums + [clients.Now(slots)[i]];
      }
      SumsEnd(clients.crowd, s0, sums, clients.Now(slots));
    }

    /** Sends every replica that has not acknowledged through this number to a snapshot. */
    method FlagBehind(id: nat, through: nat)
      requires Valid() && id < |slots|
      modifies this`replicas
      ensures Valid() && replicas == FlagReplicas(old(replicas), id, through, |slots|)
    {
      for m := 0 to |replicas|
        invariant Valid() && |replicas| == |old(replicas)|
        invariant forall k :: 0 <= k < m ==> replicas[k] == FlagReplica(old(replicas)[k], id, through)
        invariant forall k :: m <= k < |replicas| ==> replicas[k] == old(replicas)[k]
      {
        var state := replicas[m].slots[id];
        if state.acked < through {
          replicas := replicas[m :=
            replicas[m].(slots := replicas[m].slots[id := Progress(state.acked, state.acked, true)])];
        }
      }
    }

    /**
     * Drops the log of one slot through its highest number; max is the slot as that was read, trim right before the
     * drop.
     */
    method EvictOne(i: nat) returns (removed: nat, ghost max: Moment, ghost trim: Moment)
      requires Valid() && i < |slots|
      modifies this`replicas, clients, slots, Binlogs(slots)
      ensures Valid() && replicas == FlagReplicas(old(replicas), i, MaxSeqNo(max.state.log), |slots|)
      ensures removed == LeadingBytes(trim.state.log, MaxSeqNo(max.state.log))
      ensures Reaches(clients.crowd, old(clients.Now(slots))[i], max) && Reaches(clients.crowd, max, trim)
      ensures clients.Now(slots)[i] == Moment(Trim(trim.state, MaxSeqNo(max.state.log)), trim.made)
      ensures forall j :: 0 <= j < |slots| && j != i ==>
              Reaches(clients.crowd, old(clients.Now(slots))[j], clients.Now(slots)[j])
    {
      hide TotalBytes, Trim, MaxSeqNo, FlagReplica, LeadingBytes, Reaches;
      ghost var s0 := clients.Now(slots);
      clients.Run(slots);
      ghost var s1 := clients.Now(slots);
      max := s1[i];
      var through := MaxSeqNo(slots[i].binlog.records);
      clients.Run(slots);
      ghost var s2 := clients.Now(slots);
      trim := s2[i];
      removed := TrimSlot(slots, i, through);
      TrimFreesLeading(trim.state, through);
      FlagBehind(i, through);
      AllReachOn(clients.crowd, s0, s1, s2);
    }

    /** Eviction slot by slot until the running total meets the budget; looks[i] is what it saw of slot i. */
    method EnforceBudget(ghost collect: seq<Moment>) returns (ghost looks: seq<Upkeep>)
      requires Valid() && |collect| == |slots|
      modifies this`replicas, clients, slots, Binlogs(slots)
      ensures Valid() && |looks| == |slots| && forall j :: 0 <= j < |slots| ==> looks[j].collect == collect[j].state
      ensures var e := Master.EnforceBudget(old(replicas), looks, budget);
              && replicas == e.replicas
              && forall j :: 0 <= j < |slots| ==>
                   EvictionBetween(clients.crowd, old(clients.Now(slots))[j], looks[j], j < e.evicted,
                                   clients.Now(slots)[j])
    {
      hide Evicting, RetainedBytes, Reaches, AllReach, FlagReplicas, Trim, EvictionBetween, LeadingBytes, MaxSeqNo,
           IsVisitOrder, Master.EnforceBudget;
      ghost var s0, start := clients.Now(slots), replicas;
      var total: nat;
      ghost var sums;
      total, sums := SumRetained();
      ghost var first := total;
      looks := SumLooks(collect, sums);
      EvictingStarts(clients.crowd, s0, collect, start, budget, sums, clients.Now(slots));
      var i := 0;
      while i < |slots| && total > budget
        invariant i <= |slots| == |looks| && Valid()
        invariant Evicting(clients.crowd, s0, collect, start, first, budget, looks, clients.Now(slots), replicas, total,
                           i)
      {
        ghost var s1, now := clients.Now(slots), replicas;
        var removed: nat;
        ghost var max, trim;
        removed, max, trim := EvictOne(i);
        looks := NextEvicting(clients.crowd, s0, collect, start, first, budget, looks, s1, now, total, i, max, trim,
                              clients.Now(slots));
        total := total - Min(total, removed);
        i := i + 1;
      }
      looks := EvictingEnds(clients.crowd, s0, collect, start, first, budget, looks, clients.Now(slots), replicas,
                            total, i);
    }

    /** Collection, then eviction; looks[i] is what both saw of slot i. */
    method Maintain() returns (ghost looks: seq<Upkeep>)
      requires Valid()
      modifies this`replicas, clients, slots, Binlogs(slots)
      ensures Valid() && MaintainDoes(clients.crowd, old(Here()), looks, Here())
    {
      hide Master.EnforceBudget, Reaches, EvictionBetween, Collected;
      ghost var s0 := clients.Now(slots);
      ghost var collect := CollectGarbage();
      ghost var s1 := clients.Now(slots);
      looks := EnforceBudget(collect);
      forall j | 0 <= j < |slots|
        ensures UpkeepBetween(clients.crowd, s0[j], old(replicas), j, |slots|, looks[j],
                              j < Master.EnforceBudget(old(replicas), looks, budget).evicted, clients.Now(slots)[j])
      {
        UpkeepChains(clients.crowd, s0[j], old(replicas), j, |slots|, collect[j], looks[j], s1[j],
                     j < Master.EnforceBudget(old(replicas), looks, budget).evicted, clients.Now(slots)[j]);
      }
    }
  }
}
