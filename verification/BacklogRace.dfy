/** A writer hides a gap: a concrete run in which a due slot that no HELLO names has its turn and gets nothing. */
module BacklogRace {
  import opened Binlog
  import opened HashSlot
  import opened Order
  import opened Commands
  import opened Replay
  import opened SnapshotCodec
  import opened FrameCodec
  import opened Master
  import opened Slave
  import opened History
  import opened Primary
  import opened Budget
  import opened Delivery
  import opened Visits
  import opened Rotation
  import opened RepeatedSets

  /** One slot after one SET, whose record is gone. */
  function Emptied(epoch: string): Primary {
    Primary(epoch, [SetSlot("a", 1, 1)], [SetHistory("a", 1)], [], 1, 0)
  }

  function Written(epoch: string): Primary {
    Primary(epoch, [SetSlot("a", 0, 1)], [SetHistory("a", 1)], [], 1, 0)
  }

  /** A write, and maintenance with a budget of 0 bytes. */
  function Prelude(epoch: string, choose: Choice): seq<PrimaryEvent> {
    [Wrote(SetWrite(0, "a", choose)), Maintained(RestCall(Written(epoch)))]
  }

  /** What the poll sees: the second SET commits between its two looks at the log. */
  const RACED := View(SetSlot("a", 1, 1), SetSlot("a", 1, 1), SetSlot("a", 1, 2), SetSlot("a", 1, 2),
                      SetSlot("a", 1, 2))

  /** A first HELLO that names no slot. */
  function RacedPoll(choose: Choice): PollCall {
    PollCall(Hello("r", PROTOCOL_VERSION, "", []), [SetWrite(0, "a", choose)], [], [RACED], 1)
  }

  lemma FirstWrite(env: Env, epoch: string, choose: Choice)
    requires Valid(env) && env.slotOf("a") == 0 && FairChoice(choose)
    ensures ApplyWrite(env, FreshPrimary(epoch, 1, 0), SetWrite(0, "a", choose)) == Written(epoch)
    ensures PrimaryOk(env, 1, Written(epoch))
  {
    hide FairChoice, IsVisitOrder, UnpacksWire, ApplyWrite;
    EmptyHistory("a");
    SetCommits(env, 1, FreshPrimary(epoch, 1, 0), 0, "a", 0, 0, choose);
    WriteKeepsPrimary(env, 1, FreshPrimary(epoch, 1, 0), SetWrite(0, "a", choose));
  }

  lemma NothingLeft(states: seq<SlotState>)
    requires |states| == 1 && RetainedBytes(states) == 0
    ensures states[0].log == []
  {
    assert states[..0] == [];
  }

  lemma LogGoes(env: Env, epoch: string, choose: Choice)
    requires Valid(env) && env.slotOf("a") == 0 && FairChoice(choose)
    ensures MaintainPrimary(env, Written(epoch), RestCall(Written(epoch))) == Emptied(epoch)
  {
    hide FairChoice, IsVisitOrder, UnpacksWire, TotalBytes, EvictFrom, CountedBytes, TrimThrough, CountedFrom;
    FirstWrite(env, epoch, choose);
    var p := Written(epoch);
    RestCallRuns(env, 1, p);
    var k := BudgetIsMet(env, 1, p);
    var p' := MaintainPrimary(env, p, RestCall(p));
    MaintenanceKeepsPrimary(env, 1, p, RestCall(p));
    NothingLeft(p'.states);
  }

  lemma PreludeLeadsHere(env: Env, epoch: string, choose: Choice)
    requires Valid(env) && env.slotOf("a") == 0 && FairChoice(choose)
    ensures After(env, FreshPrimary(epoch, 1, 0), Prelude(epoch, choose)) == Emptied(epoch)
  {
    hide FairChoice, IsVisitOrder, UnpacksWire, ApplyWrite, MaintainPrimary;
    FirstWrite(env, epoch, choose);
    LogGoes(env, epoch, choose);
    var events := Prelude(epoch, choose);
    assert events[1..] == [Maintained(RestCall(Written(epoch)))] && events[1..][1..] == [];
    assert After(env, Emptied(epoch), []) == Emptied(epoch);
    assert After(env, Written(epoch), events[1..]) == Emptied(epoch);
  }

  lemma SecondWrite(env: Env, epoch: string, choose: Choice)
    requires Valid(env) && env.slotOf("a") == 0 && FairChoice(choose)
    ensures ApplyWrites(env, Emptied(epoch), RacedPoll(choose).during) ==
            Primary(epoch, [SetSlot("a", 1, 2)], [SetHistory("a", 2)], [], 1, 0)
  {
    hide FairChoice, IsVisitOrder, UnpacksWire, ApplyWrite;
    SetCommits(env, 1, Emptied(epoch), 0, "a", 1, 1, choose);
    assert RacedPoll(choose).during[1..] == [];
  }

  lemma RacedPollRuns(env: Env, epoch: string, choose: Choice)
    requires Valid(env) && env.slotOf("a") == 0 && FairChoice(choose)
    ensures PollRuns(env, Emptied(epoch), RacedPoll(choose))
    ensures SeenInOrder(SetHistory("a", 2), 1, RACED)
    ensures SessionOf(Emptied(epoch), "r") == NewSession("r", 1)
  {
    hide FairChoice, IsVisitOrder, UnpacksWire, ApplyWrites, Seen;
    SecondWrite(env, epoch, choose);
    SetHistoryIsSeen("a", 1, 2, 1);
    SetHistoryIsSeen("a", 1, 2, 2);
  }

  /**
   * The visit finds the slot unflagged, takes its next record for retained, copies the one behind it, and sends
   * nothing.
   */
  lemma VisitSendsNothing(env: Env, g: Session)
    requires Valid(env) && g.slots == [Progress(0, 0, false)] && g.nextSlot == 0
    ensures BuildUpTo(g, env.lay, [RACED], 1, 1) == Build(g.slots, 0, [], 0, false, [(0, 1)])
  {
    hide IsVisitOrder, UnpacksWire, WithinLimits, RecordBytes;
    var b := StartBuild(g);
    assert BuildUpTo(g, env.lay, [RACED], 1, 0) == b;
    assert HasBacklog(RACED, 1);
    var log := SetLog("a", 1, 2);
    assert log[0] == SetRecord("a", 2) && log[1..] == [];
    var logs := CopiedLogs(b, 0, RACED, 1);
    assert logs == [log[0]];
    NothingBelowTarget(b, g.sessionId, 0, logs, RACED.first.published);
    assert Visit(b, g.sessionId, env.lay, 0, RACED, 1) == Build(g.slots, 0, [], 0, false, [(0, 1)]);
  }

  /**
   * The race: after a SET whose record was evicted, a first poll whose HELLO names no slot looks at the log, a second
   * SET commits, and it looks again. Its test of the log passes although record 1 is gone; the slot has its turn, with
   * a record and an image to be had, and gets neither, nor is it flagged.
   */
  lemma WriterHidesGap(env: Env, epoch: string, choose: Choice)
    requires Valid(env) && env.slotOf("a") == 0 && FairChoice(choose)
    ensures After(env, FreshPrimary(epoch, 1, 0), Prelude(epoch, choose)) == Emptied(epoch)
    ensures PollRuns(env, Emptied(epoch), RacedPoll(choose))
    ensures SeenInOrder(SetHistory("a", 2), 1, RACED) && HasBacklog(RACED, 1) && !Retained(1, 1)
    ensures var (session, frames) := PollAnswer(env, Emptied(epoch), RacedPoll(choose));
            && frames == [Begin(session.sessionId, true), Done(session.sessionId, [(0, 1)])]
            && session.slots == [Progress(0, 0, false)] && PassedOver(session.slots[0], RACED)
  {
    hide FairChoice, IsVisitOrder, UnpacksWire, ApplyWrites, ApplyWrite, MaintainPrimary, SeenInOrder, SessionName,
         BuildUpTo;
    PreludeLeadsHere(env, epoch, choose);
    RacedPollRuns(env, epoch, choose);
    VisitSendsNothing(env, Greeted(Emptied(epoch), RacedPoll(choose)));
  }

  /** So without a HELLO that names the slot, a poll of every slot need not serve every slot. */
  lemma UnnamedSlotStarves(env: Env, epoch: string, choose: Choice)
    requires Valid(env) && env.slotOf("a") == 0 && FairChoice(choose)
    ensures var p, events := Emptied(epoch), [Polled(RacedPoll(choose))];
            && PrimaryOk(env, 1, p) && SessionsOwned(p) && AsksForFrames(events, "r")
            && PollCount(env, p, events, "r") == 1 && !RunServes(env, 1, p, events, "r", 0)
  {
    hide FairChoice, IsVisitOrder, UnpacksWire, ApplyWrites, MaintainPrimary, SeenInOrder, SessionName, BuildUpTo,
         PollPrimary, PollView, Carried, Replays;
    var p, call := Emptied(epoch), RacedPoll(choose);
    var events := [Polled(call)];
    FirstWrite(env, epoch, choose);
    LogGoes(env, epoch, choose);
    MaintenanceKeepsPrimary(env, 1, Written(epoch), RestCall(Written(epoch)));
    RacedPollRuns(env, epoch, choose);
    var g := Greeted(p, call);
    VisitSendsNothing(env, g);
    assert events[1..] == [];
    forall k
      ensures !ServedInVisit(env, 1, p, call, 0, k)
    {
    }
  }
}
