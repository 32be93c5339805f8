/** Runs in which every batch travels over a link: in order, cut anywhere, never duplicated or late. */
module Link {
  import opened Core
  import opened Order
  import opened SnapshotCodec
  import opened FrameCodec
  import opened Master
  import opened Slave
  import opened History
  import opened Agreement
  import opened Primary
  import opened World
  import opened Delivery
  import opened Convergence

  /** A pull: the replica greets primary p, and the first `cut` frames of the answer reach it. */
  datatype Step = Other(event: Event) | Pull(p: nat, call: PollCall, cut: nat, heres: Locals)

  ghost predicate PullRuns(env: Env, w: World, s: Step)
    requires Valid(env) && s.Pull?
  {
    s.p < |w.primaries| && PollRuns(env, w.primaries[s.p], s.call) && OwnHello(w.replica, s.call.hello)
  }

  ghost function PullAnswer(env: Env, w: World, s: Step): seq<Frame>
    requires Valid(env) && s.Pull? && PullRuns(env, w, s)
  {
    PollAnswer(env, w.primaries[s.p], s.call).1
  }

  /** Frames reach the replica through pulls only; other replicas poll, and late HELLOs arrive, as they like. */
  ghost function LinkNext(env: Env, n: nat, w: World, s: Step): World
    requires Valid(env)
  {
    match s
    case Other(event) => if event.Deliver? then w else Next(env, n, w, event)
    case Pull(p, call, cut, heres) =>
      if !PullRuns(env, w, s) then w
      else
        var frames := PullAnswer(env, w, s);
        Next(env, n, w, On(p, Polled(call))).(replica := Delivered(env, heres, w.replica, frames[..Min(cut, |frames|)]))
  }

  ghost function LinkRun(env: Env, n: nat, steps: seq<Step>): World
    requires Valid(env)
  {
    if steps == [] then Run(env, n, [])
    else LinkNext(env, n, LinkRun(env, n, steps[..|steps| - 1]), steps[|steps| - 1])
  }

  /** No slot of the replica waits for a snapshot. */
  predicate Whole(r: Replica) {
    forall i :: 0 <= i < |r.slots| ==> !r.slots[i].needSnapshot
  }

  lemma AcceptedKeepsWhole(env: Env, here: Local, r: Replica, f: Frame)
    requires Whole(r) && Enqueue(env, here, r, f).1
    ensures Whole(Enqueue(env, here, r, f).0)
  {
    hide ApplyDone;
    if f.Done? {
      DoneLeavesSlots(r.slots, f.positions);
    }
  }

  lemma {:induction false} SmoothKeepsWhole(env: Env, heres: Locals, r: Replica, frames: seq<Frame>)
    requires Whole(r) && Smooth(env, heres, r, frames)
    ensures Whole(Delivered(env, heres, r, frames))
    decreases |frames|
  {
    hide Enqueue;
    if frames == [] {
    } else {
      var last := |frames| - 1;
      SmoothKeepsWhole(env, heres, r, frames[..last]);
      AcceptedKeepsWhole(env, heres(last), Delivered(env, heres, r, frames[..last]), frames[last]);
    }
  }

  ghost predicate LinkInv(env: Env, n: nat, w: World)
    requires Valid(env)
  {
    Inv(env, n, w) && Whole(w.replica)
  }

  lemma InvFitsSession(env: Env, n: nat, w: World, p: nat, replicaId: string)
    requires Valid(env) && Inv(env, n, w) && p < |w.primaries|
    ensures FitsSession(w.primaries[p].commits, SessionOf(w.primaries[p], replicaId).sessionId, w.replica)
  {
    hide SessionName, IsEpoch, SlotOk, FrameTrue;
    var id := SessionOf(w.primaries[p], replicaId).sessionId;
    ReplicaNeverLogs(w.primaries, w.replica);
    SessionOfIsTracked(env, n, w.primaries[p], replicaId);
    if w.replica.session == id != "" {
      var q :| 0 <= q < |w.primaries| && Owns(w.primaries[q], id) && Agrees(w.primaries[q].commits, w.replica);
      OwnersShareTheirEpoch(w.primaries[p], w.primaries[q], id);
    }
  }

  lemma {:induction false} DeliveringKeepsInv(env: Env, heres: Locals, n: nat, w: World, frames: seq<Frame>)
    requires Valid(env) && Inv(env, n, w) && forall f :: f in frames ==> f in w.emitted
    ensures Inv(env, n, w.(replica := Delivered(env, heres, w.replica, frames)))
    decreases |frames|
  {
    hide Enqueue, Inv;
    if frames == [] {
    } else {
      var last := |frames| - 1;
      DeliveringKeepsInv(env, heres, n, w, frames[..last]);
      var w' := w.(replica := Delivered(env, heres, w.replica, frames[..last]));
      StepKeepsInv(env, n, w', Deliver(frames[last], heres(last)));
    }
  }

  /** If frame k of the answer turns slot j Online, the slot has every write published before the poll began. */
  ghost predicate OnlineOnlyIfCurrent(env: Env, w: World, s: Step, k: nat, j: nat)
    requires Valid(env) && s.Pull? && PullRuns(env, w, s) && k < |PullAnswer(env, w, s)|
  {
    j < |w.replica.slots| && j < |w.primaries[s.p].commits| &&
    var before := Delivered(env, s.heres, w.replica, PullAnswer(env, w, s)[..k]).slots[j];
    var after := Delivered(env, s.heres, w.replica, PullAnswer(env, w, s)[..k + 1]).slots[j];
    before.status != Online && after.status == Online ==> |w.primaries[s.p].commits[j]| <= after.applied
  }

  /** Every pull of a reachable state is smooth, and whatever it turns Online is current. */
  lemma PullIsSmooth(env: Env, n: nat, w: World, s: Step)
    requires Valid(env) && LinkInv(env, n, w) && s.Pull? && PullRuns(env, w, s)
    ensures Smooth(env, s.heres, w.replica, PullAnswer(env, w, s))
    ensures forall k, j :: 0 <= k < |PullAnswer(env, w, s)| && 0 <= j < n ==>
              OnlineOnlyIfCurrent(env, w, s, k, j)
  {
    hide PollAnswer, SlotOk, SessionsOwned, PollRuns, FitsSession, Enqueue, Delivered, Smooth, ApplyWrites;
    InvFitsSession(env, n, w, s.p, s.call.hello.replicaId);
    PollIsAccepted(env, s.heres, n, w.primaries[s.p], s.call, w.replica);
    forall k, j | 0 <= k < |PullAnswer(env, w, s)| && 0 <= j < n
      ensures OnlineOnlyIfCurrent(env, w, s, k, j)
    {
      if Delivered(env, s.heres, w.replica, PullAnswer(env, w, s)[..k]).slots[j].status != Online
        && Delivered(env, s.heres, w.replica, PullAnswer(env, w, s)[..k + 1]).slots[j].status == Online {
        OnlineIsCurrent(env, s.heres, n, w.primaries[s.p], s.call, w.replica, k, j);
      }
    }
  }

  lemma PullKeepsLinkInv(env: Env, n: nat, w: World, s: Step)
    requires Valid(env) && LinkInv(env, n, w) && s.Pull? && PullRuns(env, w, s)
    ensures LinkInv(env, n, LinkNext(env, n, w, s))
  {
    hide PollAnswer, PollRuns, Enqueue, Delivered, Smooth, ApplyWrites, Inv, OnlineOnlyIfCurrent;
    var frames := PullAnswer(env, w, s);
    var cut := Min(s.cut, |frames|);
    var w' := Next(env, n, w, On(s.p, Polled(s.call)));
    PullIsSmooth(env, n, w, s);
    StepKeepsInv(env, n, w, On(s.p, Polled(s.call)));
    assert forall f :: f in frames[..cut] ==> f in w'.emitted;
    DeliveringKeepsInv(env, s.heres, n, w', frames[..cut]);
    SmoothUpToACut(env, s.heres, w.replica, frames, cut);
    SmoothKeepsWhole(env, s.heres, w.replica, frames[..cut]);
  }

  lemma EmptyReplicaIsWhole(env: Env, n: nat)
    requires Valid(env)
    ensures Whole(Run(env, n, []).replica)
  {
  }

  lemma OtherStepsKeepWhole(env: Env, n: nat, w: World, event: Event)
    requires Valid(env) && Whole(w.replica) && !event.Deliver?
    ensures Whole(Next(env, n, w, event).replica)
  {
    hide PrimaryNext;
  }

  /**
   * Over links, in every run, the replica agrees with the primary of its session and no slot ever waits for a
   * snapshot that was not offered: together with PullIsSmooth, no frame of any answer is ever refused.
   */
  lemma {:induction false} LinkRunKeepsInv(env: Env, n: nat, steps: seq<Step>)
    requires Valid(env) && n > 0
    ensures LinkInv(env, n, LinkRun(env, n, steps))
  {
    hide Inv, Next, PullRuns, PullAnswer;
    if steps == [] {
      RunKeepsAgreement(env, n, []);
      EmptyReplicaIsWhole(env, n);
    } else {
      var w, s := LinkRun(env, n, steps[..|steps| - 1]), steps[|steps| - 1];
      LinkRunKeepsInv(env, n, steps[..|steps| - 1]);
      match s
      case Other(event) =>
        if !event.Deliver? {
          StepKeepsInv(env, n, w, event);
          OtherStepsKeepWhole(env, n, w, event);
        }
      case Pull(_, _, _, _) =>
        if PullRuns(env, w, s) {
          PullKeepsLinkInv(env, n, w, s);
        }
    }
  }

  // ---- within a session nothing moves back

  lemma {:induction false} SmoothClimbs(env: Env, heres: Locals, r: Replica, frames: seq<Frame>)
    requires frames != [] && Smooth(env, heres, r, frames) && forall k :: 1 <= k < |frames| ==> !frames[k].Begin?
    ensures Climbs(Delivered(env, heres, r, frames[..1]), Delivered(env, heres, r, frames))
    decreases |frames|
  {
    hide Enqueue;
    if |frames| == 1 {
      assert frames[..1] == frames;
    } else {
      var front := frames[..|frames| - 1];
      assert front[..1] == frames[..1] && forall k :: 0 <= k < |front| ==> front[k] == frames[k];
      SmoothClimbs(env, heres, r, front);
    }
  }

  lemma DataIsNoBegin(start: nat, views: seq<View>, i: nat, frames: seq<Frame>)
    requires i <= |views| && forall f :: f in frames ==> BelowTarget(start, views, i, f)
    ensures forall f :: f in frames ==> !f.Begin?
  {
  }

  /** Only the first frame of an answer is a BEGIN. */
  lemma OneBegin(env: Env, p: Primary, call: PollCall, k: nat)
    requires Valid(env) && PollRuns(env, p, call) && k < |PollAnswer(env, p, call).1|
    ensures PollAnswer(env, p, call).1[k].Begin? <==> k == 0
    ensures PollAnswer(env, p, call).1[0] == Begin(Greeted(p, call).sessionId, Greeted(p, call).reset)
  {
    hide ApplyWrites, BuildUpTo, GreetSlots, SessionName, PollView, IsVisitOrder, UnpacksWire, BelowTarget;
    var g := Greeted(p, call);
    BatchStaysBelowTarget(env.lay, g, call.buildViews, call.maxFrames, |g.slots|);
    var b := BuildUpTo(g, env.lay, call.buildViews, call.maxFrames, |g.slots|);
    DataIsNoBegin(g.nextSlot, call.buildViews, |g.slots|, b.frames);
    if 0 < k <= |b.frames| {
      assert PollAnswer(env, p, call).1[k] == b.frames[k - 1] && b.frames[k - 1] in b.frames;
    }
  }

  /** A name that a primary is about to issue is not the replica's. */
  lemma FreshNameIsNew(env: Env, n: nat, w: World, p: nat, replicaId: string)
    requires Valid(env) && Inv(env, n, w) && p < |w.primaries|
    ensures SessionName(w.primaries[p].epoch, replicaId, w.primaries[p].issued) != w.replica.session
  {
    hide IsEpoch, PrimaryOk, SessionsOwned, FrameTrue, Agrees, SessionName;
    var fresh' := SessionName(w.primaries[p].epoch, replicaId, w.primaries[p].issued);
    if w.replica.session == fresh' {
      assert Owns(w.primaries[p].(issued := w.primaries[p].issued + 1), fresh');
      OwnedIsNamed(w.primaries[p].(issued := w.primaries[p].issued + 1), fresh');
      var q :| 0 <= q < |w.primaries| && Owns(w.primaries[q], w.replica.session)
        && Agrees(w.primaries[q].commits, w.replica);
      var id, k: nat :| k < w.primaries[q].issued && w.replica.session == SessionName(w.primaries[q].epoch, id, k);
      SessionNamesAreUnique(w.primaries[p].epoch, replicaId, w.primaries[p].issued, w.primaries[q].epoch, id, k);
    }
  }

  lemma NothingDelivered(env: Env, heres: Locals, r: Replica, frames: seq<Frame>)
    requires frames == []
    ensures Delivered(env, heres, r, frames) == r
  {
  }

  lemma InvParts(env: Env, n: nat, w: World, p: nat)
    requires Valid(env) && Inv(env, n, w) && p < |w.primaries|
    ensures PrimaryOk(env, n, w.primaries[p]) && SessionsOwned(w.primaries[p])
  {
    hide PrimaryOk, SessionsOwned, IsEpoch, FrameTrue, Agrees;
  }

  lemma OnlyBeginRenames(env: Env, here: Local, r: Replica, f: Frame)
    requires !f.Begin?
    ensures Enqueue(env, here, r, f).0.session == r.session
  {
    hide ApplyLog, ApplySnapshot, ApplyDone;
  }

  lemma {:induction false} SessionStays(env: Env, heres: Locals, r: Replica, frames: seq<Frame>)
    requires frames != [] && forall k :: 1 <= k < |frames| ==> !frames[k].Begin?
    ensures Delivered(env, heres, r, frames).session == Delivered(env, heres, r, frames[..1]).session
    decreases |frames|
  {
    hide ApplyToSlot, ApplyDone;
    if |frames| == 1 {
      assert frames[..1] == frames;
    } else {
      var front := frames[..|frames| - 1];
      assert front[..1] == frames[..1] && forall k :: 0 <= k < |front| ==> front[k] == frames[k];
      SessionStays(env, heres, r, front);
      OnlyBeginRenames(env, heres(|frames| - 1), Delivered(env, heres, r, front), frames[|frames| - 1]);
    }
  }

  /** If the session stays, BEGIN was no reset and left every slot alone. */
  lemma FirstFrameKeepsSlots(env: Env, n: nat, w: World, s: Step)
    requires Valid(env) && LinkInv(env, n, w) && s.Pull? && PullRuns(env, w, s) && |PullAnswer(env, w, s)| > 0
             && s.cut > 0
    requires LinkNext(env, n, w, s).replica.session == w.replica.session
    ensures Delivered(env, s.heres, w.replica, PullAnswer(env, w, s)[..1]) == w.replica
  {
    hide PollAnswer, PrimaryOk, SessionsOwned, FitsSession, Smooth, ApplyWrites, Inv, OnlineOnlyIfCurrent, Enqueue,
         SessionName, GreetSlots, PollView, Delivered, SlotOk;
    var p := w.primaries[s.p];
    var frames := PullAnswer(env, w, s);
    var cut := Min(s.cut, |frames|);
    var g := Greeted(p, s.call);
    InvParts(env, n, w, s.p);
    OneBegin(env, p, s.call, 0);
    InvFitsSession(env, n, w, s.p, s.call.hello.replicaId);
    BeginIsAccepted(env, s.heres, n, p, s.call, w.replica);
    assert frames[..1] == [frames[0]];
    PullIsSmooth(env, n, w, s);
    SmoothUpToACut(env, s.heres, w.replica, frames, cut);
    forall k | 1 <= k < cut
      ensures !frames[k].Begin?
    {
      OneBegin(env, p, s.call, k);
    }
    assert frames[..cut][..1] == frames[..1];
    SessionStays(env, s.heres, w.replica, frames[..cut]);
    FreshNameIsNew(env, n, w, s.p, s.call.hello.replicaId);
  }

  /** A pull that does not change the session, wherever it is cut, moves no slot back. */
  lemma PullNeverMovesBack(env: Env, n: nat, w: World, s: Step)
    requires Valid(env) && LinkInv(env, n, w) && s.Pull? && PullRuns(env, w, s)
    requires LinkNext(env, n, w, s).replica.session == w.replica.session
    ensures Climbs(w.replica, LinkNext(env, n, w, s).replica)
  {
    hide PollAnswer, PrimaryOk, SessionsOwned, FitsSession, Smooth, ApplyWrites, Inv, OnlineOnlyIfCurrent, PollRuns,
         Enqueue, SessionOf, Delivered, Greeted, SessionName;
    var p := w.primaries[s.p];
    var frames := PullAnswer(env, w, s);
    var cut := Min(s.cut, |frames|);
    if cut == 0 {
      NothingDelivered(env, s.heres, w.replica, frames[..cut]);
    } else {
      PullIsSmooth(env, n, w, s);
      SmoothUpToACut(env, s.heres, w.replica, frames, cut);
      forall k | 1 <= k < cut
        ensures !frames[k].Begin?
      {
        OneBegin(env, p, s.call, k);
      }
      SmoothClimbs(env, s.heres, w.replica, frames[..cut]);
      assert frames[..cut][..1] == frames[..1];
      FirstFrameKeepsSlots(env, n, w, s);
    }
  }

  // ---- catching up from wherever a run has led

  lemma ReachedPairIsOk(env: Env, n: nat, w: World, p: nat, replicaId: string)
    requires Valid(env) && Inv(env, n, w) && p < |w.primaries|
    ensures PairOk(env, n, replicaId, Pair(w.primaries[p], w.replica))
  {
    hide Inv, PrimaryOk, SessionsOwned, FitsSession, SessionOf;
    InvParts(env, n, w, p);
    InvFitsSession(env, n, w, p, replicaId);
  }

  lemma TrackedSessions(env: Env, n: nat, p: Primary)
    requires Valid(env) && PrimaryOk(env, n, p)
    ensures SlotsTracked(p.replicas, |p.states|)
  {
  }

  /** Quiet rounds can follow each other for as long as one likes. */
  lemma {:induction false} RoundsExist(env: Env, n: nat, replicaId: string, x: Pair, maintain: bool, heres: Locals,
                                       count: nat)
    returns (xs: seq<Pair>, rounds: seq<Round>)
    requires Valid(env) && PairOk(env, n, replicaId, x) && replicaId != ""
    ensures |rounds| == count && RoundsLead(env, replicaId, xs, rounds) && xs[0] == x
    ensures forall i :: 0 <= i < count ==> rounds[i].maintain == maintain && rounds[i].heres == heres
    decreases count
  {
    hide AfterRound, PrimaryOk, SessionsOwned, FitsSession, RoundRuns, Behind, AllOnline, SessionOf;
    if count == 0 {
      return [x], [];
    }
    var round := QuietRoundExists(env, n, replicaId, x, maintain, heres);
    RoundCatchesUp(env, n, replicaId, x, round);
    TrackedSessions(env, n, x.primary);
    var rest, more := RoundsExist(env, n, replicaId, AfterRound(env, x, round), maintain, heres, count - 1);
    xs, rounds := [x] + rest, [round] + more;
    forall i {:trigger rounds[i]} | 0 <= i < count
      ensures RoundLeads(env, replicaId, xs[i], rounds[i], xs[i + 1])
    {
      if i > 0 {
        assert RoundLeads(env, replicaId, rest[i - 1], more[i - 1], rest[i]);
      }
    }
  }

  lemma SameCounts(env: Env, n: nat, w: World, p: nat)
    requires Valid(env) && Inv(env, n, w) && p < |w.primaries|
    ensures |w.primaries[p].commits| == |w.replica.slots| == n
  {
    InvParts(env, n, w, p);
  }

  /**
   * From every state that any run reaches, whichever primary the replica polls, quiet rounds are possible, and one more
   * of them than the replica was behind turn every slot Online with exactly that primary's map.
   */
  lemma ReachedStateCatchesUp(env: Env, n: nat, events: seq<Event>, p: nat, replicaId: string, maintain: bool,
                              heres: Locals)
    returns (xs: seq<Pair>, rounds: seq<Round>)
    requires Valid(env) && n > 0 && p < |Run(env, n, events).primaries| && replicaId != ""
    ensures var w := Run(env, n, events);
            && |w.primaries[p].commits| == |w.replica.slots|
            && |rounds| == Behind(w.primaries[p], replicaId, w.replica) + 1
            && RoundsLead(env, replicaId, xs, rounds) && xs[0] == Pair(w.primaries[p], w.replica)
            && AllOnline(w.primaries[p].commits, xs[|rounds|].replica)
  {
    hide Inv, PrimaryOk, SessionsOwned, RoundLeads, AllOnline, SessionOf, Run, Lag;
    var w := Run(env, n, events);
    RunKeepsAgreement(env, n, events);
    ReachedPairIsOk(env, n, w, p, replicaId);
    SameCounts(env, n, w, p);
    xs, rounds := RoundsExist(env, n, replicaId, Pair(w.primaries[p], w.replica), maintain, heres,
                              Behind(w.primaries[p], replicaId, w.replica) + 1);
    RoundsConverge(env, n, replicaId, xs, rounds);
  }
}
