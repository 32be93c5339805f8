/** Primaries, a replica and a network between them: in every run the replica agrees with the primary of its session. */
module World {
  import opened Numbers
  import opened FrameCodec
  import opened Master
  import opened Slave
  import opened History
  import opened Agreement
  import opened Primary

  // ---- session names

  /** An epoch is two numbers with a dash between them. */
  ghost predicate IsEpoch(epoch: string) {
    exists a: nat, b: nat :: epoch == Decimal(a) + "-" + Decimal(b)
  }

  predicate NoDash(text: string) {
    forall i :: 0 <= i < |text| ==> text[i] != '-'
  }

  lemma FirstDashSplits(a: string, x: string, b: string, y: string)
    requires NoDash(a) && NoDash(b) && a + "-" + x == b + "-" + y
    ensures a == b && x == y
  {
    var s, t := a + "-" + x, b + "-" + y;
    assert s[|a|] == '-' && t[|b|] == '-';
    assert forall i :: 0 <= i < |a| ==> s[i] == a[i];
    assert forall i :: 0 <= i < |b| ==> t[i] == b[i];
    assert |a| == |b|;
    assert s[..|a|] == a && t[..|b|] == b && s[|a| + 1..] == x && t[|b| + 1..] == y;
  }

  lemma LastDashSplits(a: string, x: string, b: string, y: string)
    requires NoDash(x) && NoDash(y) && a + "-" + x == b + "-" + y
    ensures a == b && x == y
  {
    var s, t := a + "-" + x, b + "-" + y;
    assert s[|a|] == '-' && t[|b|] == '-';
    assert forall i :: |a| < i < |s| ==> s[i] == x[i - |a| - 1];
    assert forall i :: |b| < i < |t| ==> t[i] == y[i - |b| - 1];
    assert |a| == |b|;
    assert s[..|a|] == a && t[..|b|] == b && s[|a| + 1..] == x && t[|b| + 1..] == y;
  }

  lemma NamePartsAreUnique(a: string, b: string, id: string, k: string, a': string, b': string, id': string, k': string)
    requires NoDash(a) && NoDash(b) && NoDash(k) && NoDash(a') && NoDash(b') && NoDash(k')
    requires a + "-" + b + "-" + id + "-" + k == a' + "-" + b' + "-" + id' + "-" + k'
    ensures a == a' && b == b' && id == id' && k == k'
  {
    hide NoDash;
    var tail, tail' := id + "-" + k, id' + "-" + k';
    assert a + "-" + b + "-" + id + "-" + k == a + "-" + (b + "-" + tail);
    assert a' + "-" + b' + "-" + id' + "-" + k' == a' + "-" + (b' + "-" + tail');
    FirstDashSplits(a, b + "-" + tail, a', b' + "-" + tail');
    FirstDashSplits(b, tail, b', tail');
    LastDashSplits(id, k, id', k');
  }

  /** Session names never collide: the epoch, the replica and the counter can all be read off a name. */
  lemma SessionNamesAreUnique(epoch: string, id: string, k: nat, epoch': string, id': string, k': nat)
    requires IsEpoch(epoch) && IsEpoch(epoch') && SessionName(epoch, id, k) == SessionName(epoch', id', k')
    ensures epoch == epoch' && id == id' && k == k'
  {
    var a: nat, b: nat :| epoch == Decimal(a) + "-" + Decimal(b);
    var a': nat, b': nat :| epoch' == Decimal(a') + "-" + Decimal(b');
    NamePartsAreUnique(Decimal(a), Decimal(b), id, Decimal(k), Decimal(a'), Decimal(b'), id', Decimal(k'));
    DecimalInjective(k, k');
  }

  lemma OwnersShareTheirEpoch(p: Primary, q: Primary, session: string)
    requires IsEpoch(p.epoch) && IsEpoch(q.epoch) && Owns(p, session) && Owns(q, session)
    ensures p.epoch == q.epoch
  {
    var id, k: nat :| k < p.issued && session == SessionName(p.epoch, id, k);
    var id', k': nat :| k' < q.issued && session == SessionName(q.epoch, id', k');
    SessionNamesAreUnique(p.epoch, id, k, q.epoch, id', k');
  }

  // ---- the state machine

  /**
   * Every frame that any primary ever sent stays in `emitted`: it may be delivered late, again, out of order, or never.
   */
  datatype World = World(primaries: seq<Primary>, replica: Replica, emitted: set<Frame>)

  datatype Event =
    | Replace(epoch: string, budget: nat)
    | On(p: nat, event: PrimaryEvent)
    | Deliver(frame: Frame, here: Local)
    | RestartReplica

  function EmptyReplica(n: nat): Replica {
    Replica("", seq(n, i => EMPTY_REPLICA_SLOT))
  }

  ghost function Next(env: Env, n: nat, w: World, e: Event): World
    requires Valid(env)
  {
    match e
    case Replace(epoch, budget) =>
      if IsEpoch(epoch) && (forall p :: 0 <= p < |w.primaries| ==> w.primaries[p].epoch != epoch)
      then w.(primaries := w.primaries + [FreshPrimary(epoch, n, budget)]) else w
    case On(p, event) =>
      if p < |w.primaries| then
        var (p', frames) := PrimaryNext(env, w.primaries[p], event);
        w.(primaries := w.primaries[p := p'], emitted := w.emitted + (set f | f in frames))
      else w
    case Deliver(frame, here) =>
      if frame in w.emitted then w.(replica := Enqueue(env, here, w.replica, frame).0) else w
    case RestartReplica => w.(replica := EmptyReplica(n))
  }

  ghost function Run(env: Env, n: nat, events: seq<Event>): World
    requires Valid(env)
  {
    if events == [] then World([], EmptyReplica(n), {})
    else Next(env, n, Run(env, n, events[..|events| - 1]), events[|events| - 1])
  }

  // ---- the invariant

  ghost predicate PrimariesOk(env: Env, n: nat, ps: seq<Primary>)
    requires Valid(env)
  {
    && (forall p :: 0 <= p < |ps| ==> IsEpoch(ps[p].epoch) && PrimaryOk(env, n, ps[p]) && SessionsOwned(ps[p]))
    && (forall p, q :: 0 <= p < q < |ps| ==> ps[p].epoch != ps[q].epoch)
  }

  /** Some primary owns the frame's session, and the frame is true of its history. */
  ghost predicate TrueSomewhere(env: Env, ps: seq<Primary>, f: Frame)
    requires Valid(env)
  {
    exists p :: 0 <= p < |ps| && Owns(ps[p], f.session) && FrameTrue(env, ps[p].commits, f)
  }

  /** Every slot of the replica holds its session primary's map as it was right after write number `applied`. */
  ghost predicate ReplicaAgrees(ps: seq<Primary>, r: Replica) {
    if r.session == "" then forall i :: 0 <= i < |r.slots| ==> AgreesSlot([], r.slots[i])
    else exists p :: 0 <= p < |ps| && Owns(ps[p], r.session) && Agrees(ps[p].commits, r)
  }

  ghost predicate Inv(env: Env, n: nat, w: World)
    requires Valid(env)
  {
    && n > 0 && |w.replica.slots| == n && PrimariesOk(env, n, w.primaries)
    && (forall f :: f in w.emitted ==> !f.Hello? && TrueSomewhere(env, w.primaries, f))
    && ReplicaAgrees(w.primaries, w.replica)
  }

  lemma MovingOnKeepsTruth(env: Env, ps: seq<Primary>, p: nat, p': Primary, f: Frame)
    requires Valid(env) && p < |ps| && MovedOn(ps[p], p') && TrueSomewhere(env, ps, f)
    ensures TrueSomewhere(env, ps[p := p'], f)
  {
    hide FrameTrue, Owns, Grown;
    var q :| 0 <= q < |ps| && Owns(ps[q], f.session) && FrameTrue(env, ps[q].commits, f);
    if q == p {
      OwnsMore(ps[p], p', f.session);
      GrownKeepsTruth(env, ps[p].commits, p'.commits, f);
    }
    assert 0 <= q < |ps[p := p']| && Owns(ps[p := p'][q], f.session) && FrameTrue(env, ps[p := p'][q].commits, f);
  }

  lemma MovingOnKeepsAgreement(ps: seq<Primary>, p: nat, p': Primary, r: Replica)
    requires p < |ps| && MovedOn(ps[p], p') && ReplicaAgrees(ps, r)
    ensures ReplicaAgrees(ps[p := p'], r)
  {
    hide Owns, Grown, Agrees;
    if r.session != "" {
      var q :| 0 <= q < |ps| && Owns(ps[q], r.session) && Agrees(ps[q].commits, r);
      if q == p {
        OwnsMore(ps[p], p', r.session);
        GrownKeepsAgreement(ps[p].commits, p'.commits, r);
      }
      assert 0 <= q < |ps[p := p']| && Owns(ps[p := p'][q], r.session) && Agrees(ps[p := p'][q].commits, r);
    }
  }

  lemma PrimaryStepKeepsInv(env: Env, n: nat, w: World, p: nat, p': Primary, sent: set<Frame>)
    requires Valid(env) && Inv(env, n, w) && p < |w.primaries| && MovedOn(w.primaries[p], p')
    requires PrimaryOk(env, n, p') && SessionsOwned(p')
    requires forall f :: f in sent ==> !f.Hello? && Owns(p', f.session) && FrameTrue(env, p'.commits, f)
    ensures Inv(env, n, w.(primaries := w.primaries[p := p'], emitted := w.emitted + sent))
  {
    hide FrameTrue, Owns, Grown, PrimaryOk, SessionsOwned, ReplicaAgrees, IsEpoch;
    MovingOnKeepsAgreement(w.primaries, p, p', w.replica);
    var ps' := w.primaries[p := p'];
    forall f | f in w.emitted + sent
      ensures !f.Hello? && TrueSomewhere(env, ps', f)
    {
      if f in sent {
        assert Owns(ps'[p], f.session) && FrameTrue(env, ps'[p].commits, f);
      } else {
        MovingOnKeepsTruth(env, w.primaries, p, p', f);
      }
    }
  }

  lemma ReplicaNeverLogs(ps: seq<Primary>, r: Replica)
    requires ReplicaAgrees(ps, r)
    ensures forall i :: 0 <= i < |r.slots| ==> !r.slots[i].engine.logWrites
  {
  }

  lemma ResetAgrees(cs: seq<seq<Commit>>, r: Replica, before: seq<ReplicaSlot>)
    requires r.slots == ResetAll(before) && |cs| == |before| && forall i :: 0 <= i < |before| ==>
             !before[i].engine.logWrites
    ensures Agrees(cs, r)
  {
  }

  lemma DeliveryKeepsAgreement(env: Env, n: nat, w: World, f: Frame, here: Local)
    requires Valid(env) && Inv(env, n, w) && f in w.emitted
    ensures ReplicaAgrees(w.primaries, Enqueue(env, here, w.replica, f).0)
  {
    hide FrameTrue, Owns, Sound, IsEpoch, SessionsOwned, ApplyLog, ApplySnapshot, ApplyDone, AgreesSlot;
    var r, r' := w.replica, Enqueue(env, here, w.replica, f).0;
    var p :| 0 <= p < |w.primaries| && Owns(w.primaries[p], f.session) && FrameTrue(env, w.primaries[p].commits, f);
    if r' != r {
      var _ := PrimaryIsSound(env, n, w.primaries[p]);
      if f.Begin? && f.reset {
        ReplicaNeverLogs(w.primaries, r);
        ResetAgrees(w.primaries[p].commits, r', r.slots);
      } else {
        var q :| 0 <= q < |w.primaries| && Owns(w.primaries[q], r.session) && Agrees(w.primaries[q].commits, r);
        OwnersShareTheirEpoch(w.primaries[p], w.primaries[q], r.session);
        TrueFrameKeepsAgreement(env, here, w.primaries[p].commits, r, f);
      }
      assert Owns(w.primaries[p], r'.session) && Agrees(w.primaries[p].commits, r');
    }
  }

  lemma NewPrimaryKeepsInv(env: Env, n: nat, w: World, epoch: string, budget: nat)
    requires Valid(env) && Inv(env, n, w)
    ensures Inv(env, n, Next(env, n, w, Replace(epoch, budget)))
  {
    hide Owns, FrameTrue, Grown, Agrees, AgreesSlot, IsEpoch;
    var w' := Next(env, n, w, Replace(epoch, budget));
    if w' != w {
      var ps, ps' := w.primaries, w'.primaries;
      forall f | f in w.emitted
        ensures TrueSomewhere(env, ps', f)
      {
        var p :| 0 <= p < |ps| && Owns(ps[p], f.session) && FrameTrue(env, ps[p].commits, f);
        assert Owns(ps'[p], f.session) && FrameTrue(env, ps'[p].commits, f);
      }
      if w.replica.session != "" {
        var p :| 0 <= p < |ps| && Owns(ps[p], w.replica.session) && Agrees(ps[p].commits, w.replica);
        assert Owns(ps'[p], w.replica.session) && Agrees(ps'[p].commits, w.replica);
      }
    }
  }

  lemma EmptyReplicaAgrees(n: nat)
    ensures |EmptyReplica(n).slots| == n && forall ps :: ReplicaAgrees(ps, EmptyReplica(n))
  {
  }

  lemma StepKeepsInv(env: Env, n: nat, w: World, e: Event)
    requires Valid(env) && Inv(env, n, w)
    ensures Inv(env, n, Next(env, n, w, e))
  {
    hide Owns, FrameTrue, Grown, Agrees, AgreesSlot, IsEpoch, SessionsOwned, PrimaryOk, PrimaryNext;
    match e
    case Replace(epoch, budget) => NewPrimaryKeepsInv(env, n, w, epoch, budget);
    case On(p, event) =>
      if p < |w.primaries| {
        EventKeepsPrimary(env, n, w.primaries[p], event);
        var (p', frames) := PrimaryNext(env, w.primaries[p], event);
        PrimaryStepKeepsInv(env, n, w, p, p', set f | f in frames);
      }
    case Deliver(frame, here) =>
      if frame in w.emitted {
        DeliveryKeepsAgreement(env, n, w, frame, here);
      }
    case RestartReplica => EmptyReplicaAgrees(n);
  }

  /**
   * Agreement in every run: whatever primaries come and go, whatever they write, trim and poll, with writers inside
   * maintenance and polls, and whatever sent frames reach the replica, in any order and number, each replica slot holds
   * exactly the map that its session's primary had right after write number `applied`, and the engine carries that
   * number.
   */
  lemma {:induction false} RunKeepsAgreement(env: Env, n: nat, events: seq<Event>)
    requires Valid(env) && n > 0
    ensures Inv(env, n, Run(env, n, events))
  {
    if events == [] {
      EmptyReplicaAgrees(n);
    } else {
      hide Inv, Next;
      RunKeepsAgreement(env, n, events[..|events| - 1]);
      StepKeepsInv(env, n, Run(env, n, events[..|events| - 1]), events[|events| - 1]);
    }
  }
}
