/**
 * The byte budget of the retained logs (src/repl/master_replicator.cpp:197-222), with writers at work between the three
 * looks that eviction takes at each slot.
 */
module Budget {
  import opened Core
  import opened Binlog
  import opened HashSlot
  import opened Commands
  import opened Replay
  import opened Master
  import opened Slave
  import opened History
  import opened Primary

  // ---- the bytes of a stretch of a history

  /** The records of writes from+1 to `to`. */
  function Stretch(c: seq<Commit>, from: nat, to: nat): (r: seq<Record>)
    requires from <= to <= |c|
    ensures |r| == to - from && forall i :: 0 <= i < |r| ==> r[i] == c[from + i].record
  {
    seq(to - from, i requires 0 <= i < to - from => c[from + i].record)
  }

  function StretchBytes(c: seq<Commit>, from: nat, to: nat): nat
    requires from <= to <= |c|
  {
    TotalBytes(Stretch(c, from, to))
  }

  lemma StretchesAdd(c: seq<Commit>, from: nat, mid: nat, to: nat)
    requires from <= mid <= to <= |c|
    ensures StretchBytes(c, from, to) == StretchBytes(c, from, mid) + StretchBytes(c, mid, to)
  {
    assert Stretch(c, from, to) == Stretch(c, from, mid) + Stretch(c, mid, to);
    TotalBytesConcat(Stretch(c, from, mid), Stretch(c, mid, to));
  }

  lemma NoStretch(c: seq<Commit>, at: nat)
    requires at <= |c|
    ensures StretchBytes(c, at, at) == 0
  {
    assert Stretch(c, at, at) == [];
  }

  lemma SeenBytes(env: Env, slot: nat, c: seq<Commit>, t: nat, s: SlotState)
    requires Valid(env) && Sound(env, slot, c) && Seen(c, t, s)
    ensures t <= s.published <= |c| && TotalBytes(s.log) == StretchBytes(c, t, s.published)
  {
    SeenLog(env, slot, c, t, s);
    assert s.log == Stretch(c, t, s.published);
  }

  // ---- one slot

  /** The bytes that writers append to the slot after its bytes were counted. */
  function AppendedSince(c: seq<Commit>, look: Upkeep): nat
    requires look.sum.published <= |c|
  {
    StretchBytes(c, look.sum.published, |c|)
  }

  lemma LeadingStretch(log: seq<Record>, c: seq<Commit>, from: nat, to: nat, through: nat, mid: nat)
    requires from <= mid <= to <= |c| && log == Stretch(c, from, to)
    requires forall j :: 0 <= j < |log| ==> log[j].seqNo == from + j + 1
    requires through == if mid == from then 0 else mid
    ensures LeadingBytes(log, through) == StretchBytes(c, from, mid)
  {
    hide TotalBytes, TrimThrough;
    TrimLeavesSuffix(log, through);
    var rest := TrimThrough(log, through);
    var d := |log| - |rest|;
    if rest != [] {
      assert rest[0] == log[d] && log[d].seqNo == from + d + 1;
    }
    if d > 0 {
      assert log[d - 1].seqNo == from + d;
    }
    assert d == mid - from;
    assert log[..d] == Stretch(c, from, mid);
  }

  /** Eviction of a slot frees at least what was counted of it: all records up to the number read, and no others. */
  lemma FreedStretch(env: Env, slot: nat, c0: seq<Commit>, c: seq<Commit>, t: nat, through: nat, look: Upkeep)
    requires Valid(env) && Sound(env, slot, c) && UpkeepSeen(c0, c, t, through, look)
    ensures CollectedTo(t, through, look) <= look.sum.published <= look.max.published <= |c|
    ensures FreedBytes(look) == StretchBytes(c, CollectedTo(t, through, look), look.max.published)
    ensures DropThrough(look) == if look.max.published == CollectedTo(t, through, look) then 0 else look.max.published
    ensures FreedBytes(look) >= TotalBytes(look.sum.log)
  {
    hide Sound, Seen, TotalBytes, StretchBytes, TrimThrough;
    var rest, m := CollectedTo(t, through, look), look.max.published;
    SeenLog(env, slot, c, rest, look.max);
    SeenLog(env, slot, c, rest, look.trim);
    SeenBytes(env, slot, c, rest, look.sum);
    StretchesAdd(c, rest, look.sum.published, m);
    LeadingStretch(look.trim.log, c, rest, look.trim.published, DropThrough(look), m);
  }

  /** The bytes of a slot balance: what is left and what was freed is what was counted and what was appended since. */
  lemma SlotBalances(env: Env, slot: nat, c0: seq<Commit>, c: seq<Commit>, s: SlotState, through: nat, look: Upkeep,
                     evicted: bool)
    requires Valid(env) && SlotOk(env, slot, c, s) && 0 <= Dropped(c, s)
             && UpkeepSeen(c0, c, Dropped(c, s), through, look)
    ensures look.sum.published <= |c|
    ensures TotalBytes(Trim(s, GoneThrough(through, look, evicted)).log) + (if evicted then FreedBytes(look) else 0)
            == TotalBytes(look.sum.log) + AppendedSince(c, look)
  {
    hide Sound, Seen, TotalBytes, StretchBytes, TrimThrough, FreedBytes, Trim;
    var t := Dropped(c, s);
    var rest := CollectedTo(t, through, look);
    FreedStretch(env, slot, c0, c, t, through, look);
    SeenBytes(env, slot, c, rest, look.sum);
    var gone := GoneThrough(through, look, evicted);
    TrimKeepsSlot(env, slot, c, s, gone);
    var s' := Trim(s, gone);
    BackedIsSeen(env, slot, c, s');
    var d := Dropped(c, s');
    SeenBytes(env, slot, c, d, s');
    StretchesAdd(c, rest, look.sum.published, |c|);
    if evicted {
      StretchesAdd(c, rest, look.max.published, |c|);
    }
  }

  // ---- all slots

  /** The bytes freed by evicting the first k slots. */
  function FreedFirst(looks: seq<Upkeep>, k: nat): nat
    requires k <= |looks|
  {
    if k == 0 then 0 else FreedFirst(looks, k - 1) + FreedBytes(looks[k - 1])
  }

  /** The bytes appended anywhere after the slot's bytes were counted. */
  function Appended(cs: seq<seq<Commit>>, looks: seq<Upkeep>): nat
    requires |cs| == |looks| && forall i :: 0 <= i < |cs| ==> looks[i].sum.published <= |cs[i]|
  {
    if cs == [] then 0
    else
      var last := |cs| - 1;
      Appended(cs[..last], looks[..last]) + AppendedSince(cs[last], looks[last])
  }

  /** Each slot of a maintenance that evicts the first k, as it was after the writes and before the trimming. */
  ghost predicate AllSeen(env: Env, cs0: seq<seq<Commit>>, cs: seq<seq<Commit>>, states: seq<SlotState>,
                          throughs: seq<nat>, looks: seq<Upkeep>)
    requires Valid(env)
  {
    && |cs0| == |cs| == |states| == |throughs| == |looks|
    && forall i :: 0 <= i < |cs| ==>
         && SlotOk(env, i, cs[i], states[i]) && 0 <= Dropped(cs[i], states[i])
         && UpkeepSeen(cs0[i], cs[i], Dropped(cs[i], states[i]), throughs[i], looks[i])
  }

  /** The slots after maintenance. */
  function Trimmed(states: seq<SlotState>, throughs: seq<nat>, looks: seq<Upkeep>, k: nat): (r: seq<SlotState>)
    requires |states| == |throughs| == |looks|
    ensures |r| == |states|
    ensures forall i :: 0 <= i < |states| ==> r[i] == Trim(states[i], GoneThrough(throughs[i], looks[i], i < k))
  {
    seq(|states|, i requires 0 <= i < |states| => Trim(states[i], GoneThrough(throughs[i], looks[i], i < k)))
  }

  lemma AllSeenFront(env: Env, cs0: seq<seq<Commit>>, cs: seq<seq<Commit>>, states: seq<SlotState>, throughs: seq<nat>,
                     looks: seq<Upkeep>, n: nat)
    requires Valid(env) && AllSeen(env, cs0, cs, states, throughs, looks) && n <= |cs|
    ensures AllSeen(env, cs0[..n], cs[..n], states[..n], throughs[..n], looks[..n])
  {
    hide SlotOk, UpkeepSeen;
  }

  lemma {:induction false} FreedOfFront(looks: seq<Upkeep>, k: nat, n: nat)
    requires k <= n <= |looks|
    ensures FreedFirst(looks[..n], k) == FreedFirst(looks, k)
  {
    hide FreedBytes;
    if k == 0 {
    } else {
      FreedOfFront(looks, k - 1, n);
    }
  }

  lemma CountedBeforeEnd(env: Env, cs0: seq<seq<Commit>>, cs: seq<seq<Commit>>, states: seq<SlotState>,
                         throughs: seq<nat>, looks: seq<Upkeep>)
    requires Valid(env) && AllSeen(env, cs0, cs, states, throughs, looks)
    ensures forall i :: 0 <= i < |cs| ==> looks[i].sum.published <= |cs[i]|
  {
    hide SlotOk;
  }

  lemma TrimmedFront(states: seq<SlotState>, throughs: seq<nat>, looks: seq<Upkeep>, k: nat, n: nat)
    requires |states| == |throughs| == |looks| && n <= |states|
    ensures Trimmed(states, throughs, looks, k)[..n] == Trimmed(states[..n], throughs[..n], looks[..n], Min(k, n))
  {
    hide Trim, GoneThrough;
  }

  /** Over all slots: what is left and what was freed is what was counted and what was appended since. */
  lemma {:induction false} BytesBalance(env: Env, cs0: seq<seq<Commit>>, cs: seq<seq<Commit>>, states: seq<SlotState>,
                                        throughs: seq<nat>, looks: seq<Upkeep>, k: nat)
    requires Valid(env) && AllSeen(env, cs0, cs, states, throughs, looks) && k <= |looks|
    ensures forall i :: 0 <= i < |cs| ==> looks[i].sum.published <= |cs[i]|
    ensures RetainedBytes(Trimmed(states, throughs, looks, k)) + FreedFirst(looks, k)
            == CountedBytes(looks) + Appended(cs, looks)
    decreases |cs|
  {
    hide SlotOk, UpkeepSeen, TotalBytes, FreedBytes, AppendedSince, Trim, GoneThrough, Trimmed;
    CountedBeforeEnd(env, cs0, cs, states, throughs, looks);
    if cs == [] {
    } else {
      var n := |cs| - 1;
      SlotBalances(env, n, cs0[n], cs[n], states[n], throughs[n], looks[n], n < k);
      AllSeenFront(env, cs0, cs, states, throughs, looks, n);
      BytesBalance(env, cs0[..n], cs[..n], states[..n], throughs[..n], looks[..n], Min(k, n));
      FreedOfFront(looks, Min(k, n), n);
      TrimmedFront(states, throughs, looks, k, n);
    }
  }

  // ---- the loop

  /** The bytes counted of the slots from i on. */
  function CountedFrom(looks: seq<Upkeep>, i: nat): nat
    requires i <= |looks|
    decreases |looks| - i
  {
    if i == |looks| then 0 else TotalBytes(looks[i].sum.log) + CountedFrom(looks, i + 1)
  }

  lemma {:induction false} CountedSplits(looks: seq<Upkeep>, i: nat)
    requires i <= |looks|
    ensures CountedBytes(looks) == CountedBytes(looks[..i]) + CountedFrom(looks, i)
    decreases |looks| - i
  {
    hide TotalBytes;
    if i == |looks| {
      assert looks[..i] == looks;
    } else {
      CountedSplits(looks, i + 1);
      assert looks[..i + 1][..i] == looks[..i];
    }
  }

  /**
   * The loop stops as soon as the running total, which is what was counted less what was freed, is within the budget;
   * and it always gets there, because each slot frees at least what was counted of it.
   */
  lemma {:induction false} LoopMeetsBudget(replicas: seq<Session>, looks: seq<Upkeep>, budget: nat, total: nat, i: nat)
    requires i <= |looks| && SlotsTracked(replicas, |looks|)
    requires forall j :: 0 <= j < |looks| ==> FreedBytes(looks[j]) >= TotalBytes(looks[j].sum.log)
    requires total == Max(0, CountedBytes(looks) - FreedFirst(looks, i))
    requires CountedBytes(looks) - FreedFirst(looks, i) <= CountedFrom(looks, i)
    ensures var k := EvictFrom(replicas, looks, budget, total, i).evicted;
            && CountedBytes(looks) - FreedFirst(looks, k) <= budget
            && (k > i ==> CountedBytes(looks) - FreedFirst(looks, k - 1) > budget)
    decreases |looks| - i
  {
    hide FreedBytes, TotalBytes, MaxSeqNo, FlagReplicas;
    if i < |looks| && total > budget {
      var next := FlagReplicas(replicas, i, DropThrough(looks[i]), |looks|);
      LoopMeetsBudget(next, looks, budget, total - Min(total, FreedBytes(looks[i])), i + 1);
    }
  }

  /** What eviction does to the sessions when slots i up to k are evicted. */
  ghost predicate FlaggedBetween(replicas: seq<Session>, replicas': seq<Session>, looks: seq<Upkeep>, i: nat, k: nat)
    requires SlotsTracked(replicas, |looks|) && SlotsTracked(replicas', |looks|) && |replicas| == |replicas'|
  {
    forall m, j {:trigger replicas'[m].slots[j]} :: 0 <= m < |replicas| && 0 <= j < |looks| ==>
      var q := replicas[m].slots[j];
      replicas'[m].slots[j] ==
        if i <= j < k && q.acked < DropThrough(looks[j]) then Progress(q.acked, q.acked, true) else q
  }

  lemma FlagsCompose(before: seq<Session>, after: seq<Session>, looks: seq<Upkeep>, i: nat, k: nat)
    requires i < |looks| && i < k && |before| == |after| && SlotsTracked(before, |looks|)
             && SlotsTracked(after, |looks|)
    requires FlaggedBetween(FlagReplicas(before, i, DropThrough(looks[i]), |looks|), after, looks, i + 1, k)
    ensures FlaggedBetween(before, after, looks, i, k)
  {
    hide DropThrough;
    var mid := FlagReplicas(before, i, DropThrough(looks[i]), |looks|);
    forall m, j {:trigger after[m].slots[j]} | 0 <= m < |before| && 0 <= j < |looks|
      ensures after[m].slots[j] ==
              (var q := before[m].slots[j];
               if i <= j < k && q.acked < DropThrough(looks[j]) then Progress(q.acked, q.acked, true) else q)
    {
      assert mid[m] == FlagReplica(before[m], i, DropThrough(looks[i]));
      assert j != i ==> mid[m].slots[j] == before[m].slots[j];
    }
  }

  lemma NothingFlagged(replicas: seq<Session>, looks: seq<Upkeep>, i: nat)
    requires SlotsTracked(replicas, |looks|)
    ensures FlaggedBetween(replicas, replicas, looks, i, i)
  {
  }

  lemma {:induction false} LoopFlags(replicas: seq<Session>, looks: seq<Upkeep>, budget: nat, total: nat, i: nat)
    requires i <= |looks| && SlotsTracked(replicas, |looks|)
    ensures var e := EvictFrom(replicas, looks, budget, total, i);
            FlaggedBetween(replicas, e.replicas, looks, i, e.evicted)
    decreases |looks| - i
  {
    hide FreedBytes, DropThrough, FlaggedBetween;
    if i < |looks| && total > budget {
      var next := FlagReplicas(replicas, i, DropThrough(looks[i]), |looks|);
      LoopFlags(next, looks, budget, total - Min(total, FreedBytes(looks[i])), i + 1);
      FlagsCompose(replicas, EvictFrom(replicas, looks, budget, total, i).replicas, looks, i,
                   EvictFrom(replicas, looks, budget, total, i).evicted);
    } else {
      NothingFlagged(replicas, looks, i);
    }
  }

  // ---- the budget

  function Throughs(replicas: seq<Session>, count: nat): (r: seq<nat>)
    requires SlotsTracked(replicas, count)
    ensures |r| == count && forall i :: 0 <= i < count ==> r[i] == CollectThrough(replicas, i, count)
  {
    seq(count, i requires 0 <= i < count => CollectThrough(replicas, i, count))
  }

  /** What a run of maintenance sees, slot by slot. */
  lemma RunIsSeen(env: Env, n: nat, p: Primary, call: MaintainCall)
    requires Valid(env) && PrimaryOk(env, n, p) && MaintainRuns(env, p, call)
    ensures var p' := ApplyWrites(env, p, call.during); var throughs := Throughs(p.replicas, n);
            && AllSeen(env, p.commits, p'.commits, p'.states, throughs, call.looks)
            && MaintainPrimary(env, p, call).states
               == Trimmed(p'.states, throughs, call.looks, EnforceBudget(p.replicas, call.looks, p.budget).evicted)
            && MaintainPrimary(env, p, call).commits == p'.commits
  {
    hide ApplyWrites, SlotOk, UpkeepSeen, EnforceBudget, Trim, GoneThrough, CollectThrough;
    WritesKeepPrimary(env, n, p, call.during);
  }

  lemma SlotIsSound(env: Env, slot: nat, c: seq<Commit>, s: SlotState)
    requires Valid(env) && SlotOk(env, slot, c, s)
    ensures Sound(env, slot, c)
  {
  }

  lemma EachSlotFreesItsCount(env: Env, cs0: seq<seq<Commit>>, cs: seq<seq<Commit>>, states: seq<SlotState>,
                              throughs: seq<nat>, looks: seq<Upkeep>)
    requires Valid(env) && AllSeen(env, cs0, cs, states, throughs, looks)
    ensures forall j :: 0 <= j < |looks| ==> FreedBytes(looks[j]) >= TotalBytes(looks[j].sum.log)
  {
    hide SlotOk, UpkeepSeen, FreedBytes, TotalBytes;
    forall j | 0 <= j < |looks|
      ensures FreedBytes(looks[j]) >= TotalBytes(looks[j].sum.log)
    {
      SlotIsSound(env, j, cs[j], states[j]);
      FreedStretch(env, j, cs0[j], cs[j], Dropped(cs[j], states[j]), throughs[j], looks[j]);
    }
  }

  lemma OneWriteIgnoresBudget(env: Env, p: Primary, w: Write, budget: nat)
    requires Valid(env)
    ensures ApplyWrite(env, p.(budget := budget), w) == ApplyWrite(env, p, w).(budget := budget)
  {
    hide OpChange, Carried, FairChoice, Apply;
  }

  lemma {:induction false} WritesIgnoreBudget(env: Env, p: Primary, ws: seq<Write>, budget: nat)
    requires Valid(env)
    ensures ApplyWrites(env, p.(budget := budget), ws) == ApplyWrites(env, p, ws).(budget := budget)
    decreases |ws|
  {
    if ws == [] {
    } else {
      OneWriteIgnoresBudget(env, p, ws[0], budget);
      hide ApplyWrite;
      WritesIgnoreBudget(env, ApplyWrite(env, p, ws[0]), ws[1..], budget);
    }
  }

  lemma LooksArePast(env: Env, p: Primary, call: MaintainCall)
    requires Valid(env) && MaintainRuns(env, p, call)
    ensures var cs := ApplyWrites(env, p, call.during).commits;
            |cs| == |call.looks| && forall i :: 0 <= i < |cs| ==> call.looks[i].sum.published <= |cs[i]|
  {
    hide ApplyWrites, Backs;
  }

  /** The bytes that writers append to counted slots while maintenance runs; they do not depend on the budget. */
  ghost function AppendedDuring(env: Env, p: Primary, call: MaintainCall): nat
    requires Valid(env) && MaintainRuns(env, p, call)
  {
    var cs := ApplyWrites(env, p, call.during).commits;
    LooksArePast(env, p, call);
    Appended(cs, call.looks)
  }

  /** The bytes that eviction frees. */
  function FreedDuring(p: Primary, call: MaintainCall): nat
    requires SlotsTracked(p.replicas, |call.looks|)
  {
    FreedFirst(call.looks, EnforceBudget(p.replicas, call.looks, p.budget).evicted)
  }

  lemma MaintenanceBalances(env: Env, n: nat, p: Primary, call: MaintainCall)
    requires Valid(env) && PrimaryOk(env, n, p) && MaintainRuns(env, p, call)
    ensures RetainedBytes(MaintainPrimary(env, p, call).states) + FreedDuring(p, call)
            == CountedBytes(call.looks) + AppendedDuring(env, p, call)
  {
    hide ApplyWrites, SlotOk, AllSeen, EvictFrom, RetainedBytes, Trimmed, CountedBytes, FreedFirst, Appended,
         MaintainPrimary, UpkeepSeen;
    var p', throughs := ApplyWrites(env, p, call.during), Throughs(p.replicas, n);
    RunIsSeen(env, n, p, call);
    BytesBalance(env, p.commits, p'.commits, p'.states, throughs, call.looks,
                 EnforceBudget(p.replicas, call.looks, p.budget).evicted);
  }

  lemma NothingCounted(looks: seq<Upkeep>)
    ensures CountedBytes(looks[..0]) == 0 && FreedFirst(looks, 0) == 0
  {
  }

  lemma EvictionFreesEnough(env: Env, n: nat, p: Primary, call: MaintainCall)
    requires Valid(env) && PrimaryOk(env, n, p) && MaintainRuns(env, p, call)
    ensures CountedBytes(call.looks) <= p.budget + FreedDuring(p, call)
    ensures CountedBytes(call.looks) <= p.budget ==> FreedDuring(p, call) == 0
  {
    hide ApplyWrites, SlotOk, AllSeen, FreedBytes, TotalBytes, MaintainPrimary, UpkeepSeen, Trimmed, CountedBytes,
         CountedFrom;
    var p', throughs := ApplyWrites(env, p, call.during), Throughs(p.replicas, n);
    RunIsSeen(env, n, p, call);
    EachSlotFreesItsCount(env, p.commits, p'.commits, p'.states, throughs, call.looks);
    CountedSplits(call.looks, 0);
    NothingCounted(call.looks);
    LoopMeetsBudget(p.replicas, call.looks, p.budget, CountedBytes(call.looks), 0);
  }

  /**
   * After maintenance the retained bytes exceed the budget by no more than what writers appended to slots whose bytes
   * had been counted; and they are within the budget exactly when what was counted and appended is within the budget
   * and what eviction freed.
   */
  lemma BudgetIsMetUnlessAppended(env: Env, n: nat, p: Primary, call: MaintainCall)
    requires Valid(env) && PrimaryOk(env, n, p) && MaintainRuns(env, p, call)
    ensures var retained, appended := RetainedBytes(MaintainPrimary(env, p, call).states), AppendedDuring(env, p, call);
            && retained <= p.budget + appended
            && (retained <= p.budget <==> CountedBytes(call.looks) + appended <= p.budget + FreedDuring(p, call))
  {
    hide AppendedDuring, MaintainPrimary, RetainedBytes, UpkeepSeen, ApplyWrites, FreedDuring, CountedBytes, SlotOk;
    MaintenanceBalances(env, n, p, call);
    EvictionFreesEnough(env, n, p, call);
  }

  /**
   * Maintenance meets the budget, whatever the budget is, exactly when no writer appends to a slot between the moment
   * its bytes are counted and the end of the call.
   */
  lemma BudgetIsMetIffNothingAppended(env: Env, n: nat, p: Primary, call: MaintainCall)
    requires Valid(env) && PrimaryOk(env, n, p) && MaintainRuns(env, p, call)
    ensures (forall budget: nat ::
               RetainedBytes(MaintainPrimary(env, p.(budget := budget), call).states) <= budget)
            <==> AppendedDuring(env, p, call) == 0
  {
    hide ApplyWrites, SlotOk, UpkeepSeen, RetainedBytes, Appended, MaintainPrimary, CountedBytes, EnforceBudget,
         FreedFirst;
    forall budget: nat
      ensures RetainedBytes(MaintainPrimary(env, p.(budget := budget), call).states)
              <= budget + AppendedDuring(env, p, call)
    {
      WritesIgnoreBudget(env, p, call.during, budget);
      BudgetIsMetUnlessAppended(env, n, p.(budget := budget), call);
    }
    var counted := CountedBytes(call.looks);
    var q := p.(budget := counted);
    WritesIgnoreBudget(env, p, call.during, counted);
    MaintenanceBalances(env, n, q, call);
    EvictionFreesEnough(env, n, q, call);
    assert RetainedBytes(MaintainPrimary(env, p.(budget := counted), call).states)
           == counted + AppendedDuring(env, p, call);
  }

  /** Every replica that had not acknowledged what eviction dropped is flagged, and no other changes. */
  lemma EvictionFlagsWhoeverNeedsIt(env: Env, n: nat, p: Primary, call: MaintainCall)
    requires Valid(env) && PrimaryOk(env, n, p) && MaintainRuns(env, p, call)
    ensures var p' := MaintainPrimary(env, p, call);
            && |p'.replicas| == |p.replicas| && SlotsTracked(p'.replicas, n) && |call.looks| == n
            && FlaggedBetween(p.replicas, p'.replicas, call.looks, 0,
                              EnforceBudget(p.replicas, call.looks, p.budget).evicted)
  {
    hide ApplyWrites, SlotOk, UpkeepSeen, EvictFrom, FlaggedBetween, CountedBytes;
    WritesKeepPrimary(env, n, p, call.during);
    LoopFlags(p.replicas, call.looks, p.budget, CountedBytes(call.looks), 0);
  }

  // ---- maintenance without writers

  lemma RestFreesItsCount(env: Env, n: nat, p: Primary, j: nat)
    requires Valid(env) && PrimaryOk(env, n, p) && j < n
    ensures var look := RestCall(p).looks[j]; FreedBytes(look) == TotalBytes(look.sum.log)
    ensures Trim(p.states[j], GoneThrough(CollectThrough(p.replicas, j, n), RestCall(p).looks[j], true)).log == []
  {
    hide SlotOk, Sound, Seen, TotalBytes, StretchBytes, FreedBytes, Trim, CollectThrough;
    RestCallRuns(env, n, p);
    var c, s, look := p.commits[j], p.states[j], RestCall(p).looks[j];
    var through := CollectThrough(p.replicas, j, n);
    assert ApplyWrites(env, p, []) == p;
    SlotIsSound(env, j, c, s);
    FreedStretch(env, j, c, c, Dropped(c, s), through, look);
    SeenBytes(env, j, c, CollectedTo(Dropped(c, s), through, look), look.sum);
    TrimKeepsSlot(env, j, c, s, GoneThrough(through, look, true));
  }

  lemma {:induction false} RestFreesWhatItCounts(looks: seq<Upkeep>, k: nat)
    requires k <= |looks| && forall j :: 0 <= j < |looks| ==> FreedBytes(looks[j]) == TotalBytes(looks[j].sum.log)
    ensures FreedFirst(looks, k) == CountedBytes(looks[..k])
  {
    hide FreedBytes, TotalBytes;
    if k == 0 {
    } else {
      RestFreesWhatItCounts(looks, k - 1);
      assert looks[..k][..k - 1] == looks[..k - 1];
    }
  }

  lemma SameBacking(c: seq<Commit>, t: int, s: SlotState, s': SlotState)
    requires 0 <= t && Backs(c, t, s) && Backs(c, t, s')
    ensures s == s'
  {
    assert s.log == s'.log;
  }

  lemma RestCollects(env: Env, n: nat, p: Primary, j: nat)
    requires Valid(env) && PrimaryOk(env, n, p) && j < n
    ensures var through := CollectThrough(p.replicas, j, n);
            Trim(p.states[j], GoneThrough(through, RestCall(p).looks[j], false)) == RestCall(p).looks[j].sum
  {
    hide Sound, TrimThrough, CollectThrough;
    var c, s, through := p.commits[j], p.states[j], CollectThrough(p.replicas, j, n);
    assert SlotOk(env, j, c, s);
    TrimKeepsSlot(env, j, c, s, through);
    TrimKeepsSlot(env, j, c, s, Min(through, |c|));
    SameBacking(c, Dropped(c, Trim(s, through)), Trim(s, through), Trim(s, Min(through, |c|)));
  }

  lemma RestLookIsCurrent(env: Env, n: nat, p: Primary, i: nat)
    requires Valid(env) && PrimaryOk(env, n, p) && i < n
    ensures RestCall(p).looks[i].sum.published == |p.commits[i]|
  {
    hide Sound, TrimThrough, CollectThrough;
    assert SlotOk(env, i, p.commits[i], p.states[i]);
  }

  lemma {:induction false} NothingAppended(cs: seq<seq<Commit>>, looks: seq<Upkeep>)
    requires |cs| == |looks| && forall i :: 0 <= i < |cs| ==> looks[i].sum.published <= |cs[i]|
    requires forall i :: 0 <= i < |cs| ==> AppendedSince(cs[i], looks[i]) == 0
    ensures Appended(cs, looks) == 0
  {
    hide AppendedSince;
    if cs == [] {
    } else {
      NothingAppended(cs[..|cs| - 1], looks[..|cs| - 1]);
    }
  }

  lemma NothingAppendedAtRest(env: Env, n: nat, p: Primary)
    requires Valid(env) && PrimaryOk(env, n, p) && MaintainRuns(env, p, RestCall(p))
    ensures AppendedDuring(env, p, RestCall(p)) == 0
  {
    hide SlotOk, Seen, TotalBytes, Trim, CollectThrough, StretchBytes;
    var looks := RestCall(p).looks;
    assert ApplyWrites(env, p, []) == p;
    forall i | 0 <= i < n
      ensures looks[i].sum.published == |p.commits[i]| && AppendedSince(p.commits[i], looks[i]) == 0
    {
      RestLookIsCurrent(env, n, p, i);
      NoStretch(p.commits[i], |p.commits[i]|);
    }
    NothingAppended(p.commits, looks);
  }

  /**
   * Without writers the retained bytes are within the budget after maintenance; the logs that went are those of the
   * fewest first slots that made room, and the others were only collected.
   */
  lemma BudgetIsMet(env: Env, n: nat, p: Primary) returns (k: nat)
    requires Valid(env) && PrimaryOk(env, n, p)
    ensures var states, looks := MaintainPrimary(env, p, RestCall(p)).states, RestCall(p).looks;
            && RetainedBytes(states) <= p.budget
            && k <= |states| == n
            && (forall i :: 0 <= i < k ==> states[i].log == [])
            && (forall i :: k <= i < n ==> states[i].log == looks[i].sum.log)
            && (k > 0 ==> CountedFrom(looks, k - 1) > p.budget)
  {
    hide SlotOk, Sound, Seen, TotalBytes, FreedBytes, TrimThrough, CollectThrough, CountedBytes, CountedFrom,
         FreedFirst, RetainedBytes;
    RestCallRuns(env, n, p);
    var call := RestCall(p);
    var looks := call.looks;
    assert ApplyWrites(env, p, []) == p;
    forall j | 0 <= j < n
      ensures FreedBytes(looks[j]) == TotalBytes(looks[j].sum.log)
      ensures Trim(p.states[j], GoneThrough(CollectThrough(p.replicas, j, n), looks[j], true)).log == []
      ensures Trim(p.states[j], GoneThrough(CollectThrough(p.replicas, j, n), looks[j], false)) == looks[j].sum
    {
      RestFreesItsCount(env, n, p, j);
      RestCollects(env, n, p, j);
    }
    BudgetIsMetUnlessAppended(env, n, p, call);
    MaintenanceBalances(env, n, p, call);
    EvictionFreesEnough(env, n, p, call);
    k := EnforceBudget(p.replicas, looks, p.budget).evicted;
    RestFreesWhatItCounts(looks, k);
    CountedSplits(looks, 0);
    NothingCounted(looks);
    LoopMeetsBudget(p.replicas, looks, p.budget, CountedBytes(looks), 0);
    NothingAppendedAtRest(env, n, p);
    if k > 0 {
      RestFreesWhatItCounts(looks, k - 1);
      CountedSplits(looks, k - 1);
    }
  }
}
