/** What a HELLO settles and what DONE announces (src/repl/master_replicator.cpp:40-65, 92-168), writers included. */
module Greetings {
  import opened Core
  import opened Numbers
  import opened Binlog
  import opened HashSlot
  import opened Order
  import opened SnapshotCodec
  import opened FrameCodec
  import opened Master
  import opened Slave
  import opened History
  import opened Agreement
  import opened Primary
  import opened Delivery
  import opened Visits
  import opened Convergence

  // ---- HELLO

  /**
   * A session goes on exactly if the HELLO names the one that the primary has for the replica; otherwise a new one
   * starts. A slot that the HELLO names is acknowledged and sent through the number that it names, from 0 in a new
   * session; a number that was never published starts over from 0 and wants an image. What it does not name stays.
   */
  lemma HelloSettlesSlots(replica: Session, session: string, positions: seq<Position>, fresh': string, views: seq<View>,
                          j: nat)
    requires |views| == |positions| && j < |replica.slots|
    ensures var g, i := Greet(replica, session, positions, fresh', views), LastNamed(positions, j);
            && g.replicaId == replica.replicaId && g.nextSlot == replica.nextSlot && |g.slots| == |replica.slots|
            && (g.reset <==> replica.sessionId == "" || session != replica.sessionId)
            && g.sessionId == (if g.reset then fresh' else session)
            && g.slots[j] ==
               if i == |positions| then replica.slots[j]
               else
                 var n, v := if g.reset then 0 else positions[i].1, views[i];
                 if n > v.first.published then Progress(0, 0, true) else Progress(n, n, !HasBacklog(v, n + 1))
  {
    hide HasBacklog;
    LastNamingGreets(replica.slots, NeedsReset(replica, session), positions, views, j);
  }

  /** On a slot at rest an image is wanted exactly if the number was never published or a record behind it is gone. */
  lemma RestHelloFlags(env: Env, id: nat, c: seq<Commit>, s: SlotState, reset: bool, position: nat)
    requires Valid(env) && SlotOk(env, id, c, s)
    ensures var n := if reset then 0 else position;
            GreetSlot(reset, position, AtRest(s)) ==
              if n > |c| then Progress(0, 0, true) else Progress(n, n, n < |c| - |s.log|)
  {
    hide Sound, HasBacklog, IsVisitOrder, UnpacksWire;
    RestIsSeenInOrder(env, id, c, s);
    var n := if reset then 0 else position;
    if n <= |c| {
      HasBacklogIsExactAtRest(env, id, c, Dropped(c, s), s, n + 1);
    }
  }

  /** A replica that the primary has not seen yet gets a new session that starts at slot 0 with nothing sent. */
  lemma NewReplicaStartsOver(p: Primary, replicaId: string)
    requires forall k :: 0 <= k < |p.replicas| ==> p.replicas[k].replicaId != replicaId
    ensures var replica := SessionOf(p, replicaId);
            && replica.replicaId == replicaId && replica.sessionId == "" && replica.nextSlot == 0
            && |replica.slots| == |p.states|
            && forall j :: 0 <= j < |p.states| ==> replica.slots[j] == Progress(0, 0, false)
  {
  }

  /** The answer opens with the session and whether it is new, and closes with DONE of the same session. */
  lemma AnswerIsFramed(env: Env, p: Primary, call: PollCall)
    requires Valid(env) && PollRuns(env, p, call)
    ensures var (session, frames) := PollAnswer(env, p, call); var g := Greeted(p, call);
            && |frames| >= 2 && session.sessionId == g.sessionId
            && frames[0] == Begin(g.sessionId, g.reset)
            && frames[|frames| - 1].Done? && frames[|frames| - 1].session == g.sessionId
            && forall i :: 1 <= i < |frames| - 1 ==> frames[i] == frames[1..|frames| - 1][i - 1]
  {
    hide BuildUpTo, Greet, SessionName, PollSees, ApplyWrites;
  }

  // ---- DONE

  lemma {:induction false} OffersKeepFrames(b: Build, session: string, id: nat, logs: seq<Record>, target: nat)
    requires id < |b.slots|
    ensures b.frames <= OfferLogs(b, session, id, logs, target).frames
    decreases logs
  {
    hide RecordBytes;
    if logs != [] && logs[0].seqNo <= target && logs[0].seqNo == b.slots[id].sent + 1 && Fits(b, RecordBytes(logs[0])) {
      OffersKeepFrames(SendLog(b, session, id, logs[0]), session, id, logs[1..], target);
    }
  }

  lemma {:induction false} OffersAreLogs(b: Build, session: string, id: nat, logs: seq<Record>, target: nat)
    requires id < |b.slots|
    ensures var b' := OfferLogs(b, session, id, logs, target);
            && b'.completed == b.completed && |b'.frames| >= |b.frames|
            && (|b'.frames| > |b.frames| ==> b'.frames[|b.frames|].Log?)
    decreases logs
  {
    hide RecordBytes;
    if logs != [] && logs[0].seqNo <= target && logs[0].seqNo == b.slots[id].sent + 1 && Fits(b, RecordBytes(logs[0])) {
      var sent := SendLog(b, session, id, logs[0]);
      OffersAreLogs(sent, session, id, logs[1..], target);
      OffersKeepFrames(sent, session, id, logs[1..], target);
    }
  }

  /**
   * A visit announces its slot exactly if the slot is not flagged after it: with the number of the image if it sent
   * one, and otherwise with the number that was published as the visit began.
   */
  lemma VisitAnnouncesNumber(b: Build, session: string, lay: Layout, id: nat, v: View, maxFrames: nat)
    requires id < |b.slots| && IsVisitOrder(lay.order) && WithinLimits(b, maxFrames)
    ensures var b' := Visit(b, session, lay, id, v, maxFrames);
            var image := |b'.frames| > |b.frames| && b'.frames[|b.frames|].Snapshot?;
            && (b'.slots[id].needSnapshot ==> b'.completed == b.completed)
            && (!b'.slots[id].needSnapshot ==>
                  b'.completed == b.completed + [(id, if image then b'.frames[|b.frames|].base else v.first.published)])
            && (image ==> b'.slots[id].sent == b'.frames[|b.frames|].base == v.last.published
                          && !b'.slots[id].needSnapshot)
  {
    hide HasBacklog, Wire, SnapshotCodec.Encode, BatchBytes;
    if HasRoom(b, maxFrames) && !WantsSnapshot(b, id, v) {
      var logs := CopiedLogs(b, id, v, maxFrames);
      OffersAreLogs(b, session, id, logs, v.first.published);
    }
  }
}
