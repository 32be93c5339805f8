/**
 * A slot of a primary at successive moments, whole writes of its clients in between: what its replicator sees of it is
 * what the histories say.
 */
module Moments {
  import opened Core
  import opened Binlog
  import opened HashSlot
  import opened Commands
  import opened Replay
  import opened FrameCodec
  import opened Master
  import opened History
  import opened Primary
  import opened SlotWrites

  /** Who else is at work on the slots: nobody, or clients and the sweeper, with this arithmetic of scores. */
  type Crowd = Option<Scoring>

  /** A slot at one moment, and what the others have written to it so far. */
  datatype Moment = Moment(state: SlotState, made: seq<Write>)

  /** What the others write between the two moments, and nothing else, leads from one to the other. */
  ghost predicate Reaches(crowd: Crowd, m: Moment, m': Moment) {
    match crowd
    case None => m' == m
    case Some(sc) => m.made <= m'.made && m'.state == Worked(sc, m.state, m'.made[|m.made|..])
  }

  lemma ReachesSelf(crowd: Crowd, m: Moment)
    ensures Reaches(crowd, m, m)
  {
  }

  lemma ReachesByOne(sc: Scoring, m: Moment, w: Write)
    ensures Reaches(Some(sc), m, Moment(Written(sc, m.state, w), m.made + [w]))
  {
    hide Written;
    assert (m.made + [w])[|m.made|..] == [w] && [w][1..] == [];
    assert Worked(sc, m.state, [w]) == Written(sc, m.state, w);
  }

  lemma ReachesOn(crowd: Crowd, a: Moment, b: Moment, c: Moment)
    requires Reaches(crowd, a, b) && Reaches(crowd, b, c)
    ensures Reaches(crowd, a, c)
  {
    hide Worked;
    if crowd.Some? {
      assert c.made[|a.made|..] == b.made[|a.made|..] + c.made[|b.made|..];
      WorkedOn(crowd.value, a.state, b.made[|a.made|..], c.made[|b.made|..]);
    }
  }

  /** The same for all slots. */
  ghost predicate AllReach(crowd: Crowd, a: seq<Moment>, b: seq<Moment>) {
    |a| == |b| && forall i :: 0 <= i < |a| ==> Reaches(crowd, a[i], b[i])
  }

  lemma AllReachSelf(crowd: Crowd, a: seq<Moment>)
    ensures AllReach(crowd, a, a)
  {
    hide Reaches;
    forall i | 0 <= i < |a|
      ensures Reaches(crowd, a[i], a[i])
    {
      ReachesSelf(crowd, a[i]);
    }
  }

  lemma AllReachOn(crowd: Crowd, a: seq<Moment>, b: seq<Moment>, c: seq<Moment>)
    requires AllReach(crowd, a, b) && AllReach(crowd, b, c)
    ensures AllReach(crowd, a, c)
  {
    hide Reaches;
    forall i | 0 <= i < |a|
      ensures Reaches(crowd, a[i], c[i])
    {
      ReachesOn(crowd, a[i], b[i], c[i]);
    }
  }

  // ---- states alone

  /** Some commands and sweeps of the others lead from one state of the slot to the other. */
  ghost predicate Later(crowd: Crowd, s: SlotState, s': SlotState) {
    match crowd
    case None => s' == s
    case Some(sc) => exists ws: seq<Write> :: s' == Worked(sc, s, ws)
  }

  lemma LaterSelf(crowd: Crowd, s: SlotState)
    ensures Later(crowd, s, s)
  {
    if crowd.Some? {
      assert Worked(crowd.value, s, []) == s;
    }
  }

  lemma LaterByOne(sc: Scoring, s: SlotState, w: Write)
    ensures Later(Some(sc), s, Written(sc, s, w))
  {
    hide Written;
    assert [w][1..] == [];
    assert Worked(sc, s, [w]) == Written(sc, s, w);
  }

  lemma LaterChains(crowd: Crowd, a: SlotState, b: SlotState, c: SlotState)
    requires Later(crowd, a, b) && Later(crowd, b, c)
    ensures Later(crowd, a, c)
  {
    hide Worked;
    match crowd
    case None =>
    case Some(sc) =>
      var us: seq<Write> :| b == Worked(sc, a, us);
      var vs: seq<Write> :| c == Worked(sc, b, vs);
      WorkedOn(sc, a, us, vs);
  }

  ghost predicate AllLater(crowd: Crowd, a: seq<SlotState>, b: seq<SlotState>) {
    |a| == |b| && forall i :: 0 <= i < |a| ==> Later(crowd, a[i], b[i])
  }

  /** The states of all slots. */
  function StatesOf(ms: seq<Moment>): (states: seq<SlotState>)
    ensures |states| == |ms| && forall i :: 0 <= i < |ms| ==> states[i] == ms[i].state
  {
    seq(|ms|, i requires 0 <= i < |ms| => ms[i].state)
  }

  lemma ReachedIsLater(crowd: Crowd, a: seq<Moment>, b: seq<Moment>)
    requires AllReach(crowd, a, b)
    ensures AllLater(crowd, StatesOf(a), StatesOf(b))
  {
    hide Worked;
  }

  // ---- what a poll sees

  /** The three looks of HasBacklog, in order between two moments of the slot. */
  ghost predicate LooksBetween(crowd: Crowd, m: Moment, v: View, m': Moment) {
    exists a: seq<Write>, b: seq<Write>, c: seq<Write> ::
      && Reaches(crowd, m, Moment(v.min, a)) && Reaches(crowd, Moment(v.min, a), Moment(v.max, b))
      && Reaches(crowd, Moment(v.max, b), Moment(v.second, c)) && Reaches(crowd, Moment(v.second, c), m')
  }

  /** The five looks of a poll. */
  ghost predicate ViewBetween(crowd: Crowd, m: Moment, v: View, m': Moment) {
    exists a: seq<Write>, b: seq<Write> ::
      && Reaches(crowd, m, Moment(v.first, a)) && LooksBetween(crowd, Moment(v.first, a), v, Moment(v.last, b))
      && Reaches(crowd, Moment(v.last, b), m')
  }

  lemma ViewWidens(crowd: Crowd, a: Moment, b: Moment, v: View, c: Moment, d: Moment)
    requires Reaches(crowd, a, b) && ViewBetween(crowd, b, v, c) && Reaches(crowd, c, d)
    ensures ViewBetween(crowd, a, v, d)
  {
    hide Reaches, LooksBetween;
    var x: seq<Write>, y: seq<Write> :|
      && Reaches(crowd, b, Moment(v.first, x)) && LooksBetween(crowd, Moment(v.first, x), v, Moment(v.last, y))
      && Reaches(crowd, Moment(v.last, y), c);
    ReachesOn(crowd, a, b, Moment(v.first, x));
    ReachesOn(crowd, Moment(v.last, y), c, d);
  }

  /** What a HELLO sees of the slots that it names. */
  ghost predicate GreetingBetween(crowd: Crowd, a: seq<Moment>, positions: seq<Position>, views: seq<View>,
                                  b: seq<Moment>)
  {
    && |a| == |b| && |views| == |positions|
    && forall k :: 0 <= k < |positions| && positions[k].0 < |a| ==>
      ViewBetween(crowd, a[positions[k].0], views[k], b[positions[k].0])
  }

  lemma GreetingWidens(crowd: Crowd, a: seq<Moment>, positions: seq<Position>, views: seq<View>, b: seq<Moment>,
                       c: seq<Moment>)
    requires GreetingBetween(crowd, a, positions, views, b) && AllReach(crowd, b, c)
    ensures GreetingBetween(crowd, a, positions, views, c)
  {
    hide Reaches, ViewBetween;
    forall k | 0 <= k < |positions| && positions[k].0 < |a|
      ensures ViewBetween(crowd, a[positions[k].0], views[k], c[positions[k].0])
    {
      var id := positions[k].0;
      ReachesSelf(crowd, a[id]);
      ViewWidens(crowd, a[id], a[id], views[k], b[id], c[id]);
    }
  }

  /** What the first i visits of a batch see. */
  ghost predicate BatchBetween(crowd: Crowd, a: seq<Moment>, start: nat, views: seq<View>, i: nat, b: seq<Moment>) {
    && i <= |views| == |a| == |b|
    && forall k :: 0 <= k < i ==> var id := VisitedSlot(start, k, |a|); ViewBetween(crowd, a[id], views[k], b[id])
  }

  lemma BatchWidens(crowd: Crowd, a: seq<Moment>, start: nat, views: seq<View>, i: nat, b: seq<Moment>, c: seq<Moment>)
    requires BatchBetween(crowd, a, start, views, i, b) && AllReach(crowd, b, c)
    ensures BatchBetween(crowd, a, start, views, i, c)
  {
    hide Reaches, ViewBetween, VisitedSlot;
    forall k | 0 <= k < i
      ensures var id := VisitedSlot(start, k, |a|); ViewBetween(crowd, a[id], views[k], c[id])
    {
      var id := VisitedSlot(start, k, |a|);
      ReachesSelf(crowd, a[id]);
      ViewWidens(crowd, a[id], a[id], views[k], b[id], c[id]);
    }
  }

  // ---- as histories

  /** The crowd, if there is one, computes scores like this. */
  ghost predicate Computes(crowd: Crowd, sc: Scoring) {
    crowd.Some? ==> crowd.value == sc
  }

  /** What the others wrote to the slot between the two moments. */
  function Between(m: Moment, m': Moment): seq<Write> {
    if |m.made| <= |m'.made| then m'.made[|m.made|..] else []
  }

  /** The history at the later moment. */
  function Chronicle(sc: Scoring, c: seq<Commit>, m: Moment, m': Moment): seq<Commit> {
    AllRecorded(sc, c, m.state, Between(m, m'))
  }

  lemma ReachedIsBacked(crowd: Crowd, sc: Scoring, c: seq<Commit>, t: nat, m: Moment, m': Moment)
    requires Reaches(crowd, m, m') && Computes(crowd, sc) && Backs(c, t, m.state)
    ensures var c' := Chronicle(sc, c, m, m'); c <= c' && Backs(c', t, m'.state) && (Numbered(c) ==> Numbered(c'))
    ensures m'.state == Worked(sc, m.state, Between(m, m'))
  {
    hide Backs, Numbered;
    WorkIsBacked(sc, c, t, m.state, Between(m, m'));
  }

  lemma ChronicleGoesOn(crowd: Crowd, sc: Scoring, c: seq<Commit>, a: Moment, b: Moment, d: Moment)
    requires Reaches(crowd, a, b) && Reaches(crowd, b, d) && Computes(crowd, sc)
    ensures Chronicle(sc, Chronicle(sc, c, a, b), b, d) == Chronicle(sc, c, a, d)
  {
    assert Between(a, d) == Between(a, b) + Between(b, d);
    RecordedOn(sc, c, a.state, Between(a, b), Between(b, d));
  }

  lemma PrefixIsSeen(c: seq<Commit>, t: nat, s: SlotState, later: seq<Commit>)
    requires Backs(c, t, s) && c <= later
    ensures Seen(later, t, s) && s.published == |c|
  {
    assert later[..|c|] == c;
  }

  /** One more look: the history up to it, and what it is a prefix of. */
  lemma LookIsPrefix(crowd: Crowd, sc: Scoring, c: seq<Commit>, t: nat, m: Moment, look: Moment, m': Moment)
    requires Reaches(crowd, m, look) && Reaches(crowd, look, m') && Computes(crowd, sc) && Backs(c, t, m.state)
    ensures c <= Chronicle(sc, c, m, look) <= Chronicle(sc, c, m, m')
    ensures Backs(Chronicle(sc, c, m, look), t, look.state) && Seen(Chronicle(sc, c, m, m'), t, look.state)
            && look.state.published == |Chronicle(sc, c, m, look)|
  {
    hide Backs, Reaches, Chronicle, Seen, Numbered;
    ReachedIsBacked(crowd, sc, c, t, m, look);
    ReachedIsBacked(crowd, sc, Chronicle(sc, c, m, look), t, look, m');
    ChronicleGoesOn(crowd, sc, c, m, look, m');
    PrefixIsSeen(Chronicle(sc, c, m, look), t, look.state, Chronicle(sc, c, m, m'));
  }

  /** Later looks see at least as much. */
  lemma LooksRise(crowd: Crowd, sc: Scoring, c: seq<Commit>, t: nat, m: Moment, a: Moment, b: Moment)
    requires Reaches(crowd, m, a) && Reaches(crowd, a, b) && Computes(crowd, sc) && Backs(c, t, m.state)
    ensures a.state.published <= b.state.published
  {
    hide Backs, Reaches, Chronicle, Seen, Numbered;
    ReachesOn(crowd, m, a, b);
    ReachesSelf(crowd, b);
    LookIsPrefix(crowd, sc, c, t, m, a, b);
    LookIsPrefix(crowd, sc, c, t, m, b, b);
  }

  /**
   * Whatever the clients do, a poll's five looks are looks at prefixes of the one history that they write, in order.
   */
  lemma ViewIsSeen(crowd: Crowd, sc: Scoring, c: seq<Commit>, t: nat, m: Moment, v: View, m': Moment)
    requires Computes(crowd, sc) && Backs(c, t, m.state) && ViewBetween(crowd, m, v, m')
    ensures Reaches(crowd, m, m') && SeenInOrder(Chronicle(sc, c, m, m'), t, v)
    ensures |c| <= v.first.published && v.last.published <= m'.state.published
  {
    hide Backs, Reaches, Chronicle, Seen, Numbered;
    var a: seq<Write>, b: seq<Write> :|
      && Reaches(crowd, m, Moment(v.first, a)) && LooksBetween(crowd, Moment(v.first, a), v, Moment(v.last, b))
      && Reaches(crowd, Moment(v.last, b), m');
    var first, last := Moment(v.first, a), Moment(v.last, b);
    var x: seq<Write>, y: seq<Write>, z: seq<Write> :|
      && Reaches(crowd, first, Moment(v.min, x)) && Reaches(crowd, Moment(v.min, x), Moment(v.max, y))
      && Reaches(crowd, Moment(v.max, y), Moment(v.second, z)) && Reaches(crowd, Moment(v.second, z), last);
    var min, max, second := Moment(v.min, x), Moment(v.max, y), Moment(v.second, z);
    ReachesOn(crowd, m, first, min);
    ReachesOn(crowd, m, min, max);
    ReachesOn(crowd, m, max, second);
    ReachesOn(crowd, m, second, last);
    ReachesOn(crowd, second, last, m');
    ReachesOn(crowd, max, second, m');
    ReachesOn(crowd, min, max, m');
    ReachesOn(crowd, first, min, m');
    ReachesOn(crowd, m, first, m');
    LookIsPrefix(crowd, sc, c, t, m, first, m');
    LookIsPrefix(crowd, sc, c, t, m, min, m');
    LookIsPrefix(crowd, sc, c, t, m, max, m');
    LookIsPrefix(crowd, sc, c, t, m, second, m');
    LookIsPrefix(crowd, sc, c, t, m, last, m');
    LooksRise(crowd, sc, c, t, m, first, min);
    LooksRise(crowd, sc, c, t, m, min, max);
    LooksRise(crowd, sc, c, t, m, max, second);
    LooksRise(crowd, sc, c, t, m, second, last);
    LooksRise(crowd, sc, c, t, m, last, m');
  }

  /** A slot that is greeted and then served: both views are of the one history, the greeting first. */
  lemma PolledSlotIsSeen(crowd: Crowd, sc: Scoring, c: seq<Commit>, t: nat, m: Moment, g: View, mid: Moment, v: View,
                         m': Moment)
    requires Computes(crowd, sc) && Backs(c, t, m.state) && ViewBetween(crowd, m, g, mid)
             && ViewBetween(crowd, mid, v, m')
    ensures var c' := Chronicle(sc, c, m, m'); SeenInOrder(c', t, g) && SeenInOrder(c', t, v)
    ensures |c| <= g.first.published <= g.second.published <= v.first.published
  {
    hide Backs, ViewBetween, Reaches, Chronicle, Seen, Numbered;
    var c1 := Chronicle(sc, c, m, mid);
    ViewIsSeen(crowd, sc, c, t, m, g, mid);
    ReachedIsBacked(crowd, sc, c, t, m, mid);
    NumbersBacked(c1, t, mid.state);
    ViewIsSeen(crowd, sc, c1, t, mid, v, m');
    ReachesSelf(crowd, m);
    ReachesSelf(crowd, m');
    ViewWidens(crowd, m, m, g, mid, m');
    ViewWidens(crowd, m, mid, v, m', m');
    ViewIsSeen(crowd, sc, c, t, m, g, m');
    ViewIsSeen(crowd, sc, c, t, m, v, m');
  }

  // ---- what maintenance sees

  /** The looks of eviction at a slot, in order between two moments of it. */
  ghost predicate EvictionBetween(crowd: Crowd, m: Moment, look: Upkeep, evicted: bool, m': Moment) {
    exists a: seq<Write>, b: seq<Write>, c: seq<Write> ::
      && Reaches(crowd, m, Moment(look.sum, a)) && Reaches(crowd, Moment(look.sum, a), Moment(look.max, b))
      && Reaches(crowd, Moment(look.max, b), Moment(look.trim, c))
      && Reaches(crowd, Moment(if evicted then Trim(look.trim, DropThrough(look)) else look.trim, c), m')
  }

  function Collected(s: SlotState, replicas: seq<Session>, id: nat, count: nat): SlotState
    requires SlotsTracked(replicas, count) && id < count
  {
    if Collects(replicas, id, count) then Trim(s, MinAck(replicas, id, count)) else s
  }

  function CollectedMoment(m: Moment, replicas: seq<Session>, id: nat, count: nat): Moment
    requires SlotsTracked(replicas, count) && id < count
  {
    Moment(Collected(m.state, replicas, id, count), m.made)
  }

  /** The same for all of maintenance. */
  ghost predicate UpkeepBetween(crowd: Crowd, m: Moment, replicas: seq<Session>, id: nat, count: nat, look: Upkeep,
                                evicted: bool, m': Moment)
    requires SlotsTracked(replicas, count) && id < count
  {
    exists a: seq<Write> ::
      && Reaches(crowd, m, Moment(look.collect, a))
      && EvictionBetween(crowd, CollectedMoment(Moment(look.collect, a), replicas, id, count), look, evicted, m')
  }

  lemma BackedNumbers(c: seq<Commit>, t: nat, s: SlotState)
    requires Backs(c, t, s) && Numbered(c)
    ensures forall j :: 0 <= j < |s.log| ==> s.log[j].seqNo == t + j + 1
    ensures MaxSeqNo(s.log) <= |c|
  {
  }

  lemma BackedWithin(c: seq<Commit>, t: nat, s: SlotState)
    requires Backs(c, t, s)
    ensures t <= |c| && s.published == |c|
  {
  }

  lemma CollectedIsBacked(c: seq<Commit>, t: nat, s: SlotState, replicas: seq<Session>, id: nat, count: nat)
    requires Backs(c, t, s) && Numbered(c) && SlotsTracked(replicas, count) && id < count
    ensures Backs(c, Max(t, Min(CollectThrough(replicas, id, count), |c|)), Collected(s, replicas, id, count))
  {
    hide MinAck, TrimThrough, Backs;
    BackedNumbers(c, t, s);
    BackedWithin(c, t, s);
    TrimKeepsBacking(c, t, s, CollectThrough(replicas, id, count));
  }

  /** What is written next does not depend on the log. */
  lemma {:induction false} RecordedAlike(sc: Scoring, c: seq<Commit>, s: SlotState, s': SlotState, ws: seq<Write>)
    requires s'.objects == s.objects && s'.slotSeq == s.slotSeq
    ensures AllRecorded(sc, c, s', ws) == AllRecorded(sc, c, s, ws)
    decreases |ws|
  {
    hide OpChange;
    if ws == [] {
    } else {
      RecordedAlike(sc, Recorded(sc, c, s, ws[0]), Written(sc, s, ws[0]), Written(sc, s', ws[0]), ws[1..]);
    }
  }

  lemma CollectedOnlyTrims(s: SlotState, replicas: seq<Session>, id: nat, count: nat)
    requires SlotsTracked(replicas, count) && id < count
    ensures var s' := Collected(s, replicas, id, count);
            s'.objects == s.objects && s'.slotSeq == s.slotSeq && s'.published == s.published
  {
    hide MinAck, TrimThrough;
  }

  /** A trim between two stretches does not show in the history. */
  lemma ChronicleSkipsTrim(crowd: Crowd, sc: Scoring, c: seq<Commit>, a: Moment, b: Moment, b': Moment, d: Moment)
    requires Reaches(crowd, a, b) && b'.made <= d.made && Computes(crowd, sc)
    requires b'.made == b.made && b'.state.objects == b.state.objects && b'.state.slotSeq == b.state.slotSeq
    ensures Chronicle(sc, Chronicle(sc, c, a, b), b', d) == Chronicle(sc, c, a, d)
    ensures a.made <= d.made
  {
    assert Between(a, d) == Between(a, b) + Between(b, d);
    RecordedOn(sc, c, a.state, Between(a, b), Between(b, d));
    RecordedAlike(sc, Chronicle(sc, c, a, b), b.state, b'.state, Between(b, d));
  }

  lemma TrimLeavesRest(s: SlotState, through: nat)
    ensures Trim(s, through).objects == s.objects && Trim(s, through).slotSeq == s.slotSeq
  {
  }

  lemma SeenLonger(c: seq<Commit>, t: nat, s: SlotState, later: seq<Commit>)
    requires Seen(c, t, s) && c <= later
    ensures Seen(later, t, s)
  {
    hide Backs;
    assert later[..s.published] == c[..s.published];
  }

  /** Eviction sees the slot in order, and leaves its history less what it takes. */
  lemma EvictionIsSeen(crowd: Crowd, sc: Scoring, c: seq<Commit>, t: nat, m: Moment, look: Upkeep, evicted: bool,
                       m': Moment)
    requires Computes(crowd, sc) && Backs(c, t, m.state) && Numbered(c) && EvictionBetween(crowd, m, look, evicted, m')
    ensures var c' := Chronicle(sc, c, m, m');
            && c <= c' && Seen(c', t, look.sum) && Seen(c', t, look.max) && Seen(c', t, look.trim)
            && |c| <= look.sum.published <= look.max.published <= look.trim.published
            && Backs(c', Max(t, Min(if evicted then DropThrough(look) else 0, |c'|)), m'.state)
    ensures m.made <= m'.made
  {
    hide Backs, Worked, Chronicle, Seen, Numbered, MaxSeqNo, Trim;
    var x: seq<Write>, y: seq<Write>, z: seq<Write> :|
      && Reaches(crowd, m, Moment(look.sum, x)) && Reaches(crowd, Moment(look.sum, x), Moment(look.max, y))
      && Reaches(crowd, Moment(look.max, y), Moment(look.trim, z))
      && Reaches(crowd, Moment(if evicted then Trim(look.trim, DropThrough(look)) else look.trim, z), m');
    var sum, max, trim := Moment(look.sum, x), Moment(look.max, y), Moment(look.trim, z);
    var left := Moment(if evicted then Trim(look.trim, DropThrough(look)) else look.trim, z);
    ReachesOn(crowd, m, sum, max);
    ReachesOn(crowd, m, max, trim);
    ReachesOn(crowd, sum, max, trim);
    LookIsPrefix(crowd, sc, c, t, m, sum, trim);
    LookIsPrefix(crowd, sc, c, t, m, max, trim);
    LooksRise(crowd, sc, c, t, m, sum, max);
    LooksRise(crowd, sc, c, t, m, max, trim);
    ReachedIsBacked(crowd, sc, c, t, m, max);
    ReachedIsBacked(crowd, sc, c, t, m, trim);
    var c3, c4 := Chronicle(sc, c, m, max), Chronicle(sc, c, m, trim);
    TrimLeavesRest(look.trim, DropThrough(look));
    ChronicleSkipsTrim(crowd, sc, c, m, trim, left, m');
    BackedNumbers(c3, t, look.max);
    BackedNumbers(c4, t, look.trim);
    BackedWithin(c4, t, look.trim);
    NumbersBacked(c3, t, look.max);
    TrimKeepsBacking(c4, t, look.trim, DropThrough(look));
    var end := if evicted then Max(t, Min(DropThrough(look), |c4|)) else t;
    ReachedIsBacked(crowd, sc, c4, end, left, m');
    SeenLonger(c4, t, look.sum, Chronicle(sc, c, m, m'));
    SeenLonger(c4, t, look.max, Chronicle(sc, c, m, m'));
    PrefixIsSeen(c4, t, look.trim, Chronicle(sc, c, m, m'));
  }

  /**
   * Whatever the clients do, maintenance sees a slot as the history that they write says, and leaves that history less
   * what it takes.
   */
  lemma UpkeepIsSeen(crowd: Crowd, sc: Scoring, c: seq<Commit>, t: nat, m: Moment, replicas: seq<Session>, id: nat,
                     count: nat, look: Upkeep, evicted: bool, m': Moment)
    requires Computes(crowd, sc) && Backs(c, t, m.state) && Numbered(c) && SlotsTracked(replicas, count) && id < count
    requires UpkeepBetween(crowd, m, replicas, id, count, look, evicted, m')
    ensures var c', through := Chronicle(sc, c, m, m'), CollectThrough(replicas, id, count);
            && c <= c' && UpkeepSeen(c, c', t, through, look) && m.made <= m'.made
            && Backs(c', Max(t, Min(GoneThrough(through, look, evicted), |c'|)), m'.state)
  {
    hide Backs, Reaches, Chronicle, Seen, Numbered, CollectThrough, Collected, MaxSeqNo, EvictionBetween;
    var a: seq<Write> :|
      && Reaches(crowd, m, Moment(look.collect, a))
      && EvictionBetween(crowd, CollectedMoment(Moment(look.collect, a), replicas, id, count), look, evicted, m');
    var collect := Moment(look.collect, a);
    var left, through := CollectedMoment(collect, replicas, id, count), CollectThrough(replicas, id, count);
    var c1 := Chronicle(sc, c, m, collect);
    ReachedIsBacked(crowd, sc, c, t, m, collect);
    BackedWithin(c1, t, look.collect);
    CollectedIsBacked(c1, t, look.collect, replicas, id, count);
    CollectedOnlyTrims(look.collect, replicas, id, count);
    EvictionIsSeen(crowd, sc, c1, CollectedTo(t, through, look), left, look, evicted, m');
    ChronicleSkipsTrim(crowd, sc, c, m, collect, left, m');
    PrefixIsSeen(c1, t, look.collect, Chronicle(sc, c, m, m'));
  }

  // ---- when nobody else is at work

  lemma RestIsAtRest(m: Moment, v: View, m': Moment)
    requires ViewBetween(None, m, v, m')
    ensures v == AtRest(m.state) && m' == m
  {
  }

  /** Every session has acknowledged the number, and not all of them stand for none. */
  predicate AllAcked(replicas: seq<Session>, id: nat, count: nat, seqNo: nat)
    requires SlotsTracked(replicas, count) && id < count
  {
    && replicas != [] && (forall k :: 0 <= k < |replicas| ==> seqNo <= replicas[k].slots[id].acked)
    && exists k :: 0 <= k < |replicas| && replicas[k].slots[id].acked < U64_MAX
  }

  /** Collection goes through a number from 1 on exactly if every session has acknowledged it. */
  lemma CollectedIffAcked(replicas: seq<Session>, id: nat, count: nat, seqNo: nat)
    requires SlotsTracked(replicas, count) && id < count && seqNo > 0
    ensures seqNo <= CollectThrough(replicas, id, count) <==> AllAcked(replicas, id, count, seqNo)
  {
    if replicas != [] {
      var low := MinAck(replicas, id, count);
      var k :| 0 <= k < |replicas| && low == replicas[k].slots[id].acked;
    }
  }

  predicate Increasing(log: seq<Record>) {
    forall i, j :: 0 <= i < j < |log| ==> log[i].seqNo < log[j].seqNo
  }

  lemma {:induction false} TrimTakesUpTo(log: seq<Record>, through: nat, r: Record)
    requires Increasing(log)
    ensures r in TrimThrough(log, through) <==> r in log && r.seqNo > through
  {
    if log == [] {
    } else if log[0].seqNo <= through {
      TrimTakesUpTo(log[1..], through, r);
    } else {
      assert forall i :: 0 <= i < |log| ==> log[i].seqNo > through;
    }
  }

  /** Collection leaves exactly the records that some session has not acknowledged, and eviction leaves none. */
  lemma CollectedKeepsUnacked(s: SlotState, replicas: seq<Session>, id: nat, count: nat, r: Record)
    requires SlotsTracked(replicas, count) && id < count && Increasing(s.log) && r.seqNo > 0
    ensures var left := Collected(s, replicas, id, count);
            && (r in left.log <==> r in s.log && !AllAcked(replicas, id, count, r.seqNo))
            && r !in Trim(left, MaxSeqNo(left.log)).log
  {
    hide MinAck, AllAcked, TrimThrough;
    var left := Collected(s, replicas, id, count).log;
    CollectedIffAcked(replicas, id, count, r.seqNo);
    TrimLeavesSuffix(s.log, CollectThrough(replicas, id, count));
    TrimTakesUpTo(s.log, CollectThrough(replicas, id, count), r);
    TrimTakesUpTo(left, MaxSeqNo(left), r);
  }

  /**
   * Maintenance at rest sees each slot as it is, before and after collection. An evicted slot keeps no record, and any
   * other exactly those that some session has not acknowledged.
   */
  lemma UpkeepAtRest(m: Moment, replicas: seq<Session>, id: nat, count: nat, look: Upkeep, evicted: bool, m': Moment)
    requires SlotsTracked(replicas, count) && id < count
             && UpkeepBetween(None, m, replicas, id, count, look, evicted, m')
    ensures var left := Collected(m.state, replicas, id, count);
            && look == Upkeep(m.state, left, left, left)
            && m'.state == if evicted then Trim(left, MaxSeqNo(left.log)) else left
    ensures Increasing(m.state.log) ==> forall r: Record :: r.seqNo > 0 ==>
              (r in m'.state.log <==> r in m.state.log && !evicted && !AllAcked(replicas, id, count, r.seqNo))
  {
    hide Collected, Trim, MaxSeqNo, AllAcked, Increasing;
    if Increasing(m.state.log) {
      forall r: Record | r.seqNo > 0
        ensures var left := Collected(m.state, replicas, id, count);
                && (r in left.log <==> r in m.state.log && !AllAcked(replicas, id, count, r.seqNo))
                && r !in Trim(left, MaxSeqNo(left.log)).log
      {
        CollectedKeepsUnacked(m.state, replicas, id, count, r);
      }
    }
  }
}
