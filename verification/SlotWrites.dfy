/** The writes of one slot, and those of all slots together: a slot only ever sees its own. */
module SlotWrites {
  import opened Core
  import opened HashSlot
  import opened Commands
  import opened Replay
  import opened Slave
  import opened History
  import opened Primary

  function Written(sc: Scoring, s: SlotState, w: Write): SlotState {
    Apply(s, OpChange(sc, w.choose, w.op, w.now, s.objects), w.now)
  }

  function Worked(sc: Scoring, s: SlotState, ws: seq<Write>): SlotState
    decreases |ws|
  {
    if ws == [] then s else Worked(sc, Written(sc, s, ws[0]), ws[1..])
  }

  /** The history of the slot after one write. */
  function Recorded(sc: Scoring, c: seq<Commit>, s: SlotState, w: Write): seq<Commit> {
    match OpChange(sc, w.choose, w.op, w.now, s.objects)
    case None => c
    case Some(change) => c + [Commit(NextRecord(s, change, w.now), change.objects)]
  }

  function AllRecorded(sc: Scoring, c: seq<Commit>, s: SlotState, ws: seq<Write>): seq<Commit>
    decreases |ws|
  {
    if ws == [] then c else AllRecorded(sc, Recorded(sc, c, s, ws[0]), Written(sc, s, ws[0]), ws[1..])
  }

  lemma {:induction false} WorkedOn(sc: Scoring, s: SlotState, a: seq<Write>, b: seq<Write>)
    ensures Worked(sc, Worked(sc, s, a), b) == Worked(sc, s, a + b)
    decreases |a|
  {
    hide Written;
    if a == [] {
      assert a + b == b;
    } else {
      assert (a + b)[1..] == a[1..] + b;
      WorkedOn(sc, Written(sc, s, a[0]), a[1..], b);
    }
  }

  lemma {:induction false} RecordedOn(sc: Scoring, c: seq<Commit>, s: SlotState, a: seq<Write>, b: seq<Write>)
    ensures AllRecorded(sc, AllRecorded(sc, c, s, a), Worked(sc, s, a), b) == AllRecorded(sc, c, s, a + b)
    decreases |a|
  {
    hide Written, Recorded;
    if a == [] {
      assert a + b == b;
    } else {
      assert (a + b)[1..] == a[1..] + b;
      RecordedOn(sc, Recorded(sc, c, s, a[0]), Written(sc, s, a[0]), a[1..], b);
    }
  }

  lemma NumbersBacked(c: seq<Commit>, t: nat, s: SlotState)
    requires Backs(c, t, s)
    ensures s.slotSeq == s.published == |c|
  {
  }

  /** Write n of the history carries number n. */
  predicate Numbered(c: seq<Commit>) {
    forall i :: 0 <= i < |c| ==> c[i].record.seqNo == i + 1
  }

  lemma NothingApplied(s: SlotState, now: u64)
    ensures Apply(s, None, now) == s
  {
  }

  /** The slot holds what its history says, whatever is written. */
  lemma {:induction false} WorkIsBacked(sc: Scoring, c: seq<Commit>, t: nat, s: SlotState, ws: seq<Write>)
    requires Backs(c, t, s)
    ensures var c' := AllRecorded(sc, c, s, ws);
            c <= c' && Backs(c', t, Worked(sc, s, ws)) && (Numbered(c) ==> Numbered(c'))
    decreases |ws|
  {
    hide OpChange, Apply, Backs;
    if ws == [] {
    } else {
      var w := ws[0];
      var change := OpChange(sc, w.choose, w.op, w.now, s.objects);
      if change.Some? {
        BacksExtends(c, t, s, change.value, w.now);
        NumbersBacked(c, t, s);
      } else {
        NothingApplied(s, w.now);
      }
      WorkIsBacked(sc, Recorded(sc, c, s, w), t, Written(sc, s, w), ws[1..]);
    }
  }

  // ---- as writes of a primary

  /** A write of this slot that commits, or changes nothing. */
  ghost predicate Suits(env: Env, id: nat, s: SlotState, w: Write)
    requires Valid(env)
  {
    && w.slot == id
    && var change := OpChange(env.sc, w.choose, w.op, w.now, s.objects);
       change.Some? ==>
         && env.slotOf(OpKey(w.op)) == id && w.now != 0 && FairChoice(w.choose) && s.published + 1 < U64_MAX
         && Carried(env, id, change.value.objects)
  }

  ghost predicate AllSuit(env: Env, id: nat, s: SlotState, ws: seq<Write>)
    requires Valid(env)
    decreases |ws|
  {
    ws != [] ==> Suits(env, id, s, ws[0]) && AllSuit(env, id, Written(env.sc, s, ws[0]), ws[1..])
  }

  /** The primary with another state and history of one slot. */
  function WithSlot(p: Primary, id: nat, s: SlotState, c: seq<Commit>): Primary
    requires id < |p.states| == |p.commits|
  {
    p.(states := p.states[id := s], commits := p.commits[id := c])
  }

  lemma SuitsApplies(env: Env, n: nat, p: Primary, id: nat, w: Write)
    requires Valid(env) && PrimaryOk(env, n, p) && id < n && Suits(env, id, p.states[id], w)
    ensures ApplyWrite(env, p, w) ==
            WithSlot(p, id, Written(env.sc, p.states[id], w), Recorded(env.sc, p.commits[id], p.states[id], w))
  {
    hide OpChange, Carried, Sound, FairChoice;
    assert SlotOk(env, id, p.commits[id], p.states[id]);
    if !Commits(env, p, w) {
      NothingApplied(p.states[id], w.now);
    }
  }

  lemma {:induction false} SlotWritesApply(env: Env, n: nat, p: Primary, id: nat, ws: seq<Write>)
    requires Valid(env) && PrimaryOk(env, n, p) && id < n && AllSuit(env, id, p.states[id], ws)
    ensures ApplyWrites(env, p, ws) ==
            WithSlot(p, id, Worked(env.sc, p.states[id], ws), AllRecorded(env.sc, p.commits[id], p.states[id], ws))
    decreases |ws|
  {
    hide ApplyWrite, SlotOk, Written, Recorded, Suits;
    if ws == [] {
    } else {
      SuitsApplies(env, n, p, id, ws[0]);
      WriteKeepsPrimary(env, n, p, ws[0]);
      SlotWritesApply(env, n, ApplyWrite(env, p, ws[0]), id, ws[1..]);
    }
  }

  /** The writes of the slots from 0 on, one slot after the other. */
  function Together(wss: seq<seq<Write>>): seq<Write> {
    if wss == [] then [] else Together(wss[..|wss| - 1]) + wss[|wss| - 1]
  }

  lemma {:induction false} WritesChain(env: Env, p: Primary, a: seq<Write>, b: seq<Write>)
    requires Valid(env)
    ensures ApplyWrites(env, ApplyWrites(env, p, a), b) == ApplyWrites(env, p, a + b)
    decreases |a|
  {
    hide ApplyWrite;
    if a == [] {
      assert a + b == b;
    } else {
      assert (a + b)[1..] == a[1..] + b;
      WritesChain(env, ApplyWrite(env, p, a[0]), a[1..], b);
    }
  }

  lemma NoWrites(env: Env, p: Primary)
    requires Valid(env)
    ensures ApplyWrites(env, p, []) == p
  {
  }

  /** Made together, the writes of all slots leave each slot as its own writes leave it. */
  lemma {:induction false} TogetherApplies(env: Env, n: nat, p: Primary, wss: seq<seq<Write>>)
    requires Valid(env) && PrimaryOk(env, n, p) && |wss| <= n
    requires forall j :: 0 <= j < |wss| ==> AllSuit(env, j, p.states[j], wss[j])
    ensures var p' := ApplyWrites(env, p, Together(wss));
            && PrimaryOk(env, n, p') && p' == p.(states := p'.states, commits := p'.commits)
            && (forall j :: 0 <= j < |wss| ==>
                  p'.states[j] == Worked(env.sc, p.states[j], wss[j])
                  && p'.commits[j] == AllRecorded(env.sc, p.commits[j], p.states[j], wss[j]))
            && (forall j :: |wss| <= j < n ==> p'.states[j] == p.states[j] && p'.commits[j] == p.commits[j])
            && (forall j :: 0 <= j < n ==> Dropped(p'.commits[j], p'.states[j]) == Dropped(p.commits[j], p.states[j]))
  {
    hide ApplyWrites, SlotOk, AllSuit, Worked, AllRecorded;
    WritesKeepPrimary(env, n, p, Together(wss));
    if wss == [] {
      NoWrites(env, p);
    } else {
      var last := |wss| - 1;
      TogetherApplies(env, n, p, wss[..last]);
      SlotWritesApply(env, n, ApplyWrites(env, p, Together(wss[..last])), last, wss[last]);
      WritesChain(env, p, Together(wss[..last]), wss[last]);
    }
  }

  /** A history and what is gone of it determine the slot. */
  lemma BackedAlike(c: seq<Commit>, t: nat, a: SlotState, b: SlotState)
    requires Backs(c, t, a) && Backs(c, t, b)
    ensures a == b
  {
    assert a.log == b.log;
  }
}
