/** A writer defeats the byte budget: a concrete run of maintenance that leaves more than its budget allows. */
module BudgetRace {
  import opened Core
  import opened Binlog
  import opened Order
  import opened Commands
  import opened SnapshotCodec
  import opened Master
  import opened Slave
  import opened History
  import opened Primary
  import opened Budget
  import opened RepeatedSets

  /** Two slots that each retain one SET, and a budget of 148 bytes. */
  function Before(epoch: string): Primary {
    Primary(epoch, [SetSlot("a", 0, 1), SetSlot("b", 0, 1)], [SetHistory("a", 1), SetHistory("b", 1)], [], 1, 148)
  }

  /** A second SET on slot 0 commits after the bytes were counted and before the highest number is read. */
  function Race(choose: Choice): MaintainCall {
    MaintainCall([SetWrite(0, "a", choose)],
                 [Upkeep(SetSlot("a", 0, 1), SetSlot("a", 0, 1), SetSlot("a", 0, 2), SetSlot("a", 0, 2)),
                  Upkeep(SetSlot("b", 0, 1), SetSlot("b", 0, 1), SetSlot("b", 0, 1), SetSlot("b", 0, 1))])
  }

  lemma BeforeIsReached(env: Env, epoch: string, choose: Choice)
    requires Valid(env) && env.slotOf("a") == 0 && env.slotOf("b") == 1 && FairChoice(choose)
    ensures ApplyWrites(env, FreshPrimary(epoch, 2, 148), [SetWrite(0, "a", choose), SetWrite(1, "b", choose)])
            == Before(epoch)
    ensures PrimaryOk(env, 2, Before(epoch))
  {
    hide FairChoice, IsVisitOrder, UnpacksWire, ApplyWrite;
    var fresh' := FreshPrimary(epoch, 2, 148);
    EmptyHistory("a");
    EmptyHistory("b");
    var wa, wb := SetWrite(0, "a", choose), SetWrite(1, "b", choose);
    SetCommits(env, 2, fresh', 0, "a", 0, 0, choose);
    var p := ApplyWrite(env, fresh', wa);
    SetCommits(env, 2, p, 1, "b", 0, 0, choose);
    var ws := [wa, wb];
    assert ws[1..] == [wb] && ws[1..][1..] == [];
    assert ApplyWrites(env, p, [wb]) == ApplyWrite(env, p, wb);
    WritesKeepPrimary(env, 2, fresh', ws);
  }

  lemma RaceRuns(env: Env, epoch: string, choose: Choice)
    requires Valid(env) && env.slotOf("a") == 0 && env.slotOf("b") == 1 && FairChoice(choose)
    ensures MaintainRuns(env, Before(epoch), Race(choose))
    ensures ApplyWrites(env, Before(epoch), Race(choose).during).commits == [SetHistory("a", 2), SetHistory("b", 1)]
  {
    hide FairChoice, IsVisitOrder, UnpacksWire, ApplyWrite, Seen;
    var p := Before(epoch);
    SetCommits(env, 2, p, 0, "a", 0, 1, choose);
    var p' := ApplyWrite(env, p, SetWrite(0, "a", choose));
    assert [SetWrite(0, "a", choose)][1..] == [];
    assert ApplyWrites(env, p, Race(choose).during) == p';
    SetHistoryIsSeen("a", 0, 2, 1);
    SetHistoryIsSeen("a", 0, 2, 2);
    SetHistoryIsSeen("b", 0, 1, 1);
    assert p'.commits == [SetHistory("a", 2), SetHistory("b", 1)]
           && p'.states == [SetSlot("a", 0, 2), SetSlot("b", 0, 1)];
  }

  lemma RaceAppends(env: Env, epoch: string, choose: Choice)
    requires Valid(env) && env.slotOf("a") == 0 && env.slotOf("b") == 1 && FairChoice(choose)
    requires MaintainRuns(env, Before(epoch), Race(choose))
    ensures AppendedDuring(env, Before(epoch), Race(choose)) == 149
  {
    hide FairChoice, IsVisitOrder, UnpacksWire, ApplyWrites, UpkeepSeen, TotalBytes;
    RaceRuns(env, epoch, choose);
    var looks := Race(choose).looks;
    var cs := [SetHistory("a", 2), SetHistory("b", 1)];
    assert cs[..1] == [SetHistory("a", 2)] && looks[..1][..0] == [] && cs[..1][..0] == [];
    assert Stretch(SetHistory("a", 2), 1, 2) == [SetRecord("a", 2)];
    assert [SetRecord("a", 2)] == [] + [SetRecord("a", 2)];
    TotalBytesSnoc([], SetRecord("a", 2));
    SetTakes149Bytes("a", 2);
    SetLogBytes("a", 0, 0);
    assert SetLog("a", 0, 0) == [];
    NoStretch(SetHistory("b", 1), 1);
    assert Appended(cs[..1], looks[..1]) == AppendedSince(SetHistory("a", 2), looks[0]);
  }

  lemma TwoRecordsGo(log: seq<Record>, look: Upkeep)
    requires |log| == 2 && log[0].seqNo == 1 && log[1].seqNo == 2 && look.max.log == look.trim.log == log
    ensures FreedBytes(look) == TotalBytes(log)
  {
    hide TotalBytes;
    assert log[1..][1..] == [];
    assert TrimThrough(log[1..], 2) == [];
    assert TrimThrough(log, 2) == [];
    assert log[..2] == log;
  }

  lemma RunningTotal(looks: seq<Upkeep>)
    requires |looks| == 2 && CountedBytes(looks) == 298 && FreedBytes(looks[0]) == 298
    ensures FreedDuring(Before(""), MaintainCall([], looks)) == 298
  {
    hide FreedBytes, CountedBytes, MaxSeqNo;
    var next := FlagReplicas([], 0, DropThrough(looks[0]), 2);
    assert EvictFrom(next, looks, 148, 0, 1).evicted == 1;
    assert EvictFrom([], looks, 148, 298, 0) == EvictFrom(next, looks, 148, 0, 1);
    assert FreedFirst(looks, 1) == FreedFirst(looks, 0) + FreedBytes(looks[0]);
  }

  lemma RaceBytes(choose: Choice)
    ensures CountedBytes(Race(choose).looks) == 298 && FreedDuring(Before(""), Race(choose)) == 298
  {
    hide TotalBytes, TrimThrough, FreedBytes;
    var looks := Race(choose).looks;
    SetLogBytes("a", 0, 1);
    SetLogBytes("a", 0, 2);
    SetLogBytes("b", 0, 1);
    assert looks[..1] == [looks[0]] && looks[..1][..0] == [];
    assert CountedBytes([looks[0]]) == 149;
    assert CountedBytes(looks) == 298;
    TwoRecordsGo(SetLog("a", 0, 2), looks[0]);
    RunningTotal(looks);
  }

  /**
   * The race: after two SETs, maintenance with that writer frees 298 bytes of slot 0, believes that nothing is left,
   * and leaves the 149 bytes of slot 1 behind, one more than the budget; nothing appended meanwhile is among them.
   */
  lemma WriterDefeatsBudget(env: Env, epoch: string, choose: Choice)
    requires Valid(env) && env.slotOf("a") == 0 && env.slotOf("b") == 1 && FairChoice(choose)
    ensures ApplyWrites(env, FreshPrimary(epoch, 2, 148), [SetWrite(0, "a", choose), SetWrite(1, "b", choose)])
            == Before(epoch)
    ensures MaintainRuns(env, Before(epoch), Race(choose))
    ensures CountedBytes(Race(choose).looks) == 298 && FreedDuring(Before(epoch), Race(choose)) == 298
    ensures RetainedBytes(MaintainPrimary(env, Before(epoch), Race(choose)).states) == 149 > Before(epoch).budget
  {
    hide FairChoice, IsVisitOrder, UnpacksWire, ApplyWrite, SlotOk, TotalBytes, MaintainPrimary;
    var p, call := Before(epoch), Race(choose);
    RaceRuns(env, epoch, choose);
    BeforeIsReached(env, epoch, choose);
    RaceBytes(choose);
    RaceAppends(env, epoch, choose);
    MaintenanceBalances(env, 2, p, call);
  }
}
