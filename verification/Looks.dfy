/**
 * What polls and maintenance see of a slot whose writers work lock by lock (src/repl/master_replicator.cpp looks at it,
 * src/cache/hash_slot.cpp locks it): the looks fall in order between whole writes of one history.
 */
module Looks {
  import opened Core
  import opened Binlog
  import opened HashSlot
  import opened Order
  import opened SnapshotCodec
  import opened FrameCodec
  import opened Commands
  import opened Replay
  import opened Master
  import opened Slave
  import opened History
  import opened Primary
  import opened SlotWrites
  import opened StagedWrites

  function CommitNext(sc: Scoring, c: seq<Commit>, task: Task): seq<Commit> {
    match ChangeOf(sc, task, MapAt(c, |c|))
    case None => c
    case Some(change) => c + [Commit(Record(|c| + 1, change.args, task.now, change.deadline), change.objects)]
  }

  /** The committed writes that the published tasks are, made one after the other. */
  function CommitsOf(sc: Scoring, history: seq<Task>): (c: seq<Commit>)
    ensures |c| <= |history|
  {
    if history == [] then []
    else
      var before := CommitsOf(sc, history[..|history| - 1]);
      CommitNext(sc, before, history[|history| - 1])
  }

  /** How many writes of the slot are no longer in its log. */
  function Gone(x: Slot): int {
    x.published - |Atomic(x).log|
  }

  /** The slot's atomic state is what its published writes leave, less the records that were trimmed. */
  ghost predicate Fits(sc: Scoring, x: Slot) {
    && StagedWrites.Inv(sc, x) && 0 <= Gone(x) && |CommitsOf(sc, x.history)| == |x.history|
    && Backs(CommitsOf(sc, x.history), Gone(x), Atomic(x))
  }

  lemma FreshFits(sc: Scoring, threads: nat)
    ensures Fits(sc, Fresh(threads))
  {
  }

  lemma BackedNumbers(sc: Scoring, x: Slot)
    requires Fits(sc, x)
    ensures forall j :: 0 <= j < |Atomic(x).log| ==> Atomic(x).log[j].seqNo == Gone(x) + j + 1
  {
    hide Atomic, PhaseFits;
  }

  lemma PublishedAtomically(x: Slot)
    ensures Atomic(x).published == Atomic(x).slotSeq == x.published && Atomic(x).objects == x.objects
            && Atomic(x).logWrites
  {
  }

  /** What one step does to the history and to the log. */
  lemma StepFits(sc: Scoring, x: Slot, e: Event)
    requires Fits(sc, x)
    ensures var x' := Next(sc, x, e);
            && Fits(sc, x') && x.history <= x'.history && CommitsOf(sc, x.history) <= CommitsOf(sc, x'.history)
            && (if e.TrimLog? && LockFree(x)
                then Gone(x') == Max(Gone(x), Min(e.through, x.published)) && x'.history == x.history
                else Gone(x') == Gone(x))
  {
    hide StagedWrites.Inv, Next, ChangeOf, TrimThrough, LockFree, Atomic;
    StepRefines(sc, x, e);
    var x', c := Next(sc, x, e), CommitsOf(sc, x.history);
    PublishedAtomically(x);
    PublishedAtomically(x');
    if e.TrimLog? && LockFree(x) {
      BackedNumbers(sc, x);
      TrimKeepsBacking(c, Gone(x), Atomic(x), e.through);
    } else if Atomic(x') != Atomic(x) || x'.history != x.history {
      var task := x.threads[e.t].task;
      assert x'.history[..|x.history|] == x.history;
      BacksExtends(c, Gone(x), Atomic(x), ChangeOf(sc, task, x.objects).value, task.now);
    }
  }

  /** In every interleaving of every number of threads, trims included. */
  lemma {:induction false} RunFits(sc: Scoring, threads: nat, events: seq<Event>)
    ensures Fits(sc, StagedWrites.Run(sc, threads, events))
  {
    hide Fits, Next;
    if events == [] {
      FreshFits(sc, threads);
    } else {
      RunFits(sc, threads, events[..|events| - 1]);
      StepFits(sc, StagedWrites.Run(sc, threads, events[..|events| - 1]), events[|events| - 1]);
    }
  }

  /** Steps in which nobody trims the log. */
  ghost predicate NoTrims(events: seq<Event>) {
    forall e :: e in events ==> !e.TrimLog?
  }

  lemma {:induction false} StepsFit(sc: Scoring, x: Slot, events: seq<Event>)
    requires Fits(sc, x) && NoTrims(events)
    ensures var x' := Steps(sc, x, events);
            && Fits(sc, x') && x.history <= x'.history && CommitsOf(sc, x.history) <= CommitsOf(sc, x'.history)
            && Gone(x') == Gone(x)
  {
    hide Fits, Next, CommitsOf, Gone;
    if events == [] {
    } else {
      StepsFit(sc, x, events[..|events| - 1]);
      StepFits(sc, Steps(sc, x, events[..|events| - 1]), events[|events| - 1]);
    }
  }

  /** A look at the atomic slot is a look at a prefix of any later history. */
  lemma LookIsSeen(sc: Scoring, x: Slot, later: seq<Commit>)
    requires Fits(sc, x) && CommitsOf(sc, x.history) <= later
    ensures Atomic(x).published == |CommitsOf(sc, x.history)| && 0 <= Gone(x) && Seen(later, Gone(x), Atomic(x))
  {
    hide StagedWrites.Inv, ChangeOf, Atomic;
    assert later[..|CommitsOf(sc, x.history)|] == CommitsOf(sc, x.history);
  }

  // ---- moments

  /** The slot at a later moment; nobody trimmed the log meanwhile. */
  ghost predicate Leads(sc: Scoring, x: Slot, x': Slot) {
    exists events :: NoTrims(events) && x' == Steps(sc, x, events)
  }

  lemma LaterFits(sc: Scoring, x: Slot, x': Slot)
    requires Fits(sc, x) && Leads(sc, x, x')
    ensures Fits(sc, x') && x.history <= x'.history && CommitsOf(sc, x.history) <= CommitsOf(sc, x'.history)
    ensures Gone(x') == Gone(x)
  {
    hide Fits, CommitsOf, Gone, NoTrims;
    var events :| NoTrims(events) && x' == Steps(sc, x, events);
    StepsFit(sc, x, events);
  }

  /** The lock is free, so the log is the one that the atomic slot shows. */
  lemma FreeLogIsAtomic(x: Slot)
    requires LockFree(x)
    ensures Atomic(x).log == x.log
  {
    hide LockFree;
    FreeHasNoneUnpublished(x);
  }

  /**
   * The five looks of a poll, the two at the log while the write lock is free, see the slot in order between whole
   * writes of its history, whatever its writers do in between.
   */
  lemma PollLooksAreInOrder(sc: Scoring, start: Slot, x1: Slot, x2: Slot, x3: Slot, x4: Slot, x5: Slot, end: Slot)
    requires Fits(sc, start) && Leads(sc, start, x1) && Leads(sc, x1, x2) && Leads(sc, x2, x3) && Leads(sc, x3, x4)
    requires Leads(sc, x4, x5) && Leads(sc, x5, end) && LockFree(x2) && LockFree(x3)
    ensures var v := View(Atomic(x1), Atomic(x2), Atomic(x3), Atomic(x4), Atomic(x5));
            && 0 <= Gone(end) == Gone(start) && start.history <= end.history
            && SeenInOrder(CommitsOf(sc, end.history), Gone(end), v)
              && |CommitsOf(sc, start.history)| <= v.first.published
            && v.first.published == x1.published && v.min.log == x2.log && v.max.log == x3.log
            && v.second.published == x4.published && v.last.objects == x5.objects && v.last.published == x5.published
            && (LockFree(x5) ==> v.last.log == x5.log)
  {
    hide Fits, CommitsOf, Gone, Leads, Seen, LockFree;
    var c := CommitsOf(sc, end.history);
    LaterFits(sc, start, x1);
    LaterFits(sc, x1, x2);
    LaterFits(sc, x2, x3);
    LaterFits(sc, x3, x4);
    LaterFits(sc, x4, x5);
    LaterFits(sc, x5, end);
    LookIsSeen(sc, start, c);
    LookIsSeen(sc, x1, c);
    LookIsSeen(sc, x2, c);
    LookIsSeen(sc, x3, c);
    LookIsSeen(sc, x4, c);
    LookIsSeen(sc, x5, c);
    FreeLogIsAtomic(x2);
    FreeLogIsAtomic(x3);
    if LockFree(x5) {
      FreeLogIsAtomic(x5);
    }
  }

  /** The slot right after its log is trimmed; a trim through 0 takes nothing. */
  function TrimmedAt(sc: Scoring, x: Slot, through: nat): Slot {
    if through == 0 then x else Next(sc, x, TrimLog(through))
  }

  lemma TrimFits(sc: Scoring, x: Slot, through: nat)
    requires Fits(sc, x) && LockFree(x)
    ensures var x' := TrimmedAt(sc, x, through);
            && Fits(sc, x') && x'.history == x.history && Gone(x') == Max(Gone(x), Min(through, x.published))
  {
    hide CommitsOf, Gone, Next, StagedWrites.Inv, LockFree, Atomic;
    StepFits(sc, x, TrimLog(through));
  }

  lemma GoneIsLess(x: Slot)
    ensures Gone(x) + |Atomic(x).log| == x.published
  {
  }

  lemma LastNumber(sc: Scoring, x: Slot)
    requires Fits(sc, x) && LockFree(x)
    ensures MaxSeqNo(x.log) <= x.published
  {
    hide CommitsOf, StagedWrites.Inv, LockFree, Gone;
    BackedNumbers(sc, x);
    FreeLogIsAtomic(x);
    var log := Atomic(x).log;
    if log != [] {
      assert log[|log| - 1].seqNo == Gone(x) + |log|;
      GoneIsLess(x);
    }
  }

  lemma EndIsBacked(sc: Scoring, x: Slot)
    requires Fits(sc, x)
    ensures Backs(CommitsOf(sc, x.history), Gone(x), Atomic(x))
  {
  }

  /**
   * The looks of maintenance, each while the write lock is free: they see the slot in order, before and after
   * collection, and at the end its log is its history less what maintenance takes.
   */
  lemma UpkeepLooksAreInOrder(sc: Scoring, start: Slot, x1: Slot, through: nat, x2: Slot, x3: Slot, x4: Slot,
                              evicted: bool, end: Slot)
    requires Fits(sc, start) && Leads(sc, start, x1) && Leads(sc, TrimmedAt(sc, x1, through), x2)
    requires Leads(sc, x2, x3) && Leads(sc, x3, x4)
    requires Leads(sc, if evicted then TrimmedAt(sc, x4, MaxSeqNo(x3.log)) else x4, end)
    requires LockFree(x1) && LockFree(x2) && LockFree(x3) && LockFree(x4)
    ensures var look := Upkeep(Atomic(x1), Atomic(x2), Atomic(x3), Atomic(x4)); var c := CommitsOf(sc, end.history);
            && look.collect.log == x1.log && look.sum.log == x2.log && look.max.log == x3.log && look.trim.log == x4.log
            && 0 <= Gone(start) && UpkeepSeen(CommitsOf(sc, start.history), c, Gone(start), through, look)
            && Backs(c, Max(Gone(start), Min(GoneThrough(through, look, evicted), |c|)), Atomic(end))
  {
    hide Fits, CommitsOf, Gone, Leads, Seen, LockFree, TrimmedAt, Next, Backs, MaxSeqNo;
    var y1, y4 := TrimmedAt(sc, x1, through), if evicted then TrimmedAt(sc, x4, MaxSeqNo(x3.log)) else x4;
    var c := CommitsOf(sc, end.history);
    LaterFits(sc, start, x1);
    TrimFits(sc, x1, through);
    LaterFits(sc, y1, x2);
    LaterFits(sc, x2, x3);
    LaterFits(sc, x3, x4);
    TrimFits(sc, x4, MaxSeqNo(x3.log));
    LaterFits(sc, y4, end);
    LookIsSeen(sc, start, c);
    LookIsSeen(sc, x1, c);
    LookIsSeen(sc, x2, c);
    LookIsSeen(sc, x3, c);
    LookIsSeen(sc, x4, c);
    LastNumber(sc, x3);
    FreeLogIsAtomic(x1);
    FreeLogIsAtomic(x2);
    FreeLogIsAtomic(x3);
    FreeLogIsAtomic(x4);
    EndIsBacked(sc, end);
    PublishedAtomically(x1);
    PublishedAtomically(x3);
    PublishedAtomically(x4);
  }

  // ---- all slots together

  function WritesOf(id: nat, tasks: seq<Task>): (ws: seq<Write>)
    ensures |ws| == |tasks| && forall i :: 0 <= i < |ws| ==>
            ws[i] == Write(id, tasks[i].op, tasks[i].choose, tasks[i].now)
  {
    seq(|tasks|, i requires 0 <= i < |tasks| => Write(id, tasks[i].op, tasks[i].choose, tasks[i].now))
  }

  /** What the slot published between two moments: tasks on its own keys, in real time, to maps a snapshot can carry. */
  ghost predicate Proper(env: Env, id: nat, history: seq<Task>, tasks: seq<Task>)
    requires History.Valid(env)
  {
    && |history| + |tasks| < U64_MAX
    && (forall t :: t in tasks ==> env.slotOf(OpKey(t.op)) == id && t.now != 0 && FairChoice(t.choose))
    && var c := CommitsOf(env.sc, history + tasks);
       |c| == |history| + |tasks| && forall k :: |history| <= k < |c| ==> Carried(env, id, c[k].after)
  }

  lemma {:induction false} CommitsGrow(sc: Scoring, history: seq<Task>, tasks: seq<Task>)
    ensures CommitsOf(sc, history) <= CommitsOf(sc, history + tasks)
            && |CommitsOf(sc, history + tasks)| <= |CommitsOf(sc, history)| + |tasks|
    decreases |tasks|
  {
    hide ChangeOf;
    if tasks == [] {
      assert history + tasks == history;
    } else {
      assert (history + tasks)[..|history + tasks| - 1] == history + tasks[..|tasks| - 1];
      CommitsGrow(sc, history, tasks[..|tasks| - 1]);
    }
  }

  lemma NextCommits(sc: Scoring, history: seq<Task>, task: Task)
    ensures CommitsOf(sc, history + [task]) == CommitNext(sc, CommitsOf(sc, history), task)
  {
    assert (history + [task])[..|history|] == history;
  }

  /** One published task is one write of the atomic model. */
  lemma TaskSuits(env: Env, id: nat, history: seq<Task>, t: nat, s: SlotState, task: Task)
    requires History.Valid(env) && Proper(env, id, history, [task])
    requires |CommitsOf(env.sc, history)| == |history| && Backs(CommitsOf(env.sc, history), t, s)
    ensures var w := Write(id, task.op, task.choose, task.now);
            && Suits(env, id, s, w)
            && Recorded(env.sc, CommitsOf(env.sc, history), s, w) == CommitsOf(env.sc, history + [task])
            && Backs(CommitsOf(env.sc, history + [task]), t, Written(env.sc, s, w))
  {
    hide OpChange, Carried, CommitsOf, FairChoice, IsVisitOrder, UnpacksWire;
    var c, next := CommitsOf(env.sc, history), CommitsOf(env.sc, history + [task]);
    NextCommits(env.sc, history, task);
    assert task in [task];
    var change := OpChange(env.sc, task.choose, task.op, task.now, s.objects);
    BacksExtends(c, t, s, change.value, task.now);
    assert next[|history|].after == change.value.objects;
  }

  lemma ProperSplits(env: Env, id: nat, history: seq<Task>, tasks: seq<Task>)
    requires History.Valid(env) && tasks != [] && Proper(env, id, history, tasks)
    requires |CommitsOf(env.sc, history)| == |history|
    ensures Proper(env, id, history, [tasks[0]]) && Proper(env, id, history + [tasks[0]], tasks[1..])
  {
    hide CommitsOf, Carried, FairChoice, IsVisitOrder, UnpacksWire;
    assert history + tasks == history + [tasks[0]] + tasks[1..];
    CommitsGrow(env.sc, history, [tasks[0]]);
    CommitsGrow(env.sc, history + [tasks[0]], tasks[1..]);
  }

  lemma CommitCount(env: Env, id: nat, history: seq<Task>, task: Task)
    requires History.Valid(env) && Proper(env, id, history, [task])
    ensures |CommitsOf(env.sc, history + [task])| == |history + [task]|
  {
  }

  /** What the threads published is what the atomic writes commit, in the same order. */
  lemma {:induction false} TasksAreWrites(env: Env, id: nat, history: seq<Task>, t: nat, s: SlotState, tasks: seq<Task>)
    requires History.Valid(env) && Proper(env, id, history, tasks)
    requires |CommitsOf(env.sc, history)| == |history| && Backs(CommitsOf(env.sc, history), t, s)
    ensures AllSuit(env, id, s, WritesOf(id, tasks))
    ensures AllRecorded(env.sc, CommitsOf(env.sc, history), s, WritesOf(id, tasks))
            == CommitsOf(env.sc, history + tasks)
    decreases |tasks|
  {
    hide CommitsOf, Proper, Suits, Written, Recorded, Backs, IsVisitOrder, UnpacksWire;
    if tasks == [] {
      assert history + tasks == history;
    } else {
      var w := WritesOf(id, tasks)[0];
      ProperSplits(env, id, history, tasks);
      TaskSuits(env, id, history, t, s, tasks[0]);
      CommitCount(env, id, history, tasks[0]);
      assert WritesOf(id, tasks)[1..] == WritesOf(id, tasks[1..]);
      assert history + tasks == history + [tasks[0]] + tasks[1..];
      TasksAreWrites(env, id, history + [tasks[0]], t, Written(env.sc, s, w), tasks[1..]);
    }
  }

  /** The slots of a primary at two moments of a run lock by lock, each with its own threads. */
  ghost predicate Staged(env: Env, n: nat, p: Primary, starts: seq<Slot>, ends: seq<Slot>)
    requires History.Valid(env)
  {
    && |starts| == |ends| == |p.commits| == |p.states| == n
    && forall j :: 0 <= j < n ==>
      && Fits(env.sc, starts[j]) && p.states[j] == Atomic(starts[j])
      && p.commits[j] == CommitsOf(env.sc, starts[j].history) && starts[j].history <= ends[j].history
      && Proper(env, j, starts[j].history, ends[j].history[|starts[j].history|..])
  }

  ghost function SlotWritesOf(id: nat, start: Slot, end: Slot): seq<Write> {
    if start.history <= end.history then WritesOf(id, end.history[|start.history|..]) else []
  }

  /** What all slots published, as writes. */
  ghost function During(starts: seq<Slot>, ends: seq<Slot>): seq<Write>
    requires |starts| == |ends|
  {
    Together(seq(|starts|, j requires 0 <= j < |starts| => SlotWritesOf(j, starts[j], ends[j])))
  }

  lemma SlotTasksAreWrites(env: Env, id: nat, start: Slot, end: Slot)
    requires History.Valid(env) && Fits(env.sc, start) && start.history <= end.history
    requires Proper(env, id, start.history, end.history[|start.history|..])
    ensures AllSuit(env, id, Atomic(start), SlotWritesOf(id, start, end))
    ensures AllRecorded(env.sc, CommitsOf(env.sc, start.history), Atomic(start), SlotWritesOf(id, start, end))
            == CommitsOf(env.sc, end.history)
  {
    hide CommitsOf, Proper, Backs, AllSuit, AllRecorded, StagedWrites.Inv, Atomic, IsVisitOrder, UnpacksWire;
    var tasks := end.history[|start.history|..];
    assert start.history + tasks == end.history;
    TasksAreWrites(env, id, start.history, Gone(start), Atomic(start), tasks);
  }

  /** Made one after the other, the published writes lead to the histories that the threads left. */
  lemma PublishedWritesApply(env: Env, n: nat, p: Primary, starts: seq<Slot>, ends: seq<Slot>)
    requires History.Valid(env) && PrimaryOk(env, n, p) && Staged(env, n, p, starts, ends)
    ensures var p' := ApplyWrites(env, p, During(starts, ends));
            && PrimaryOk(env, n, p') && p' == p.(states := p'.states, commits := p'.commits)
            && forall j :: 0 <= j < n ==>
                 p'.commits[j] == CommitsOf(env.sc, ends[j].history) && p.commits[j] <= p'.commits[j]
                 && Dropped(p'.commits[j], p'.states[j]) == Gone(starts[j])
  {
    hide CommitsOf, Proper, AllSuit, AllRecorded, Worked, ApplyWrites, SlotOk, Atomic, IsVisitOrder, UnpacksWire;
    var wss := seq(n, j requires 0 <= j < n => SlotWritesOf(j, starts[j], ends[j]));
    forall j | 0 <= j < n
      ensures AllSuit(env, j, p.states[j], wss[j])
              && AllRecorded(env.sc, p.commits[j], p.states[j], wss[j]) == CommitsOf(env.sc, ends[j].history)
              && Dropped(p.commits[j], p.states[j]) == Gone(starts[j])
    {
      SlotTasksAreWrites(env, j, starts[j], ends[j]);
      PublishedAtomically(starts[j]);
    }
    TogetherApplies(env, n, p, wss);
    WritesKeepPrimary(env, n, p, Together(wss));
  }

  /** The five moments at which a poll looks at a slot. */
  datatype Glances = Glances(first: Slot, min: Slot, max: Slot, second: Slot, last: Slot)

  function SeenAt(g: Glances): View {
    View(Atomic(g.first), Atomic(g.min), Atomic(g.max), Atomic(g.second), Atomic(g.last))
  }

  function AllSeenAt(gs: seq<Glances>): (views: seq<View>)
    ensures |views| == |gs| && forall k :: 0 <= k < |gs| ==> views[k] == SeenAt(gs[k])
  {
    seq(|gs|, k requires 0 <= k < |gs| => SeenAt(gs[k]))
  }

  ghost predicate Glanced(sc: Scoring, start: Slot, g: Glances, end: Slot) {
    && Leads(sc, start, g.first) && Leads(sc, g.first, g.min) && Leads(sc, g.min, g.max) && Leads(sc, g.max, g.second)
    && Leads(sc, g.second, g.last) && Leads(sc, g.last, end) && LockFree(g.min) && LockFree(g.max)
  }

  lemma GlancesFit(sc: Scoring, start: Slot, g: Glances, end: Slot)
    requires Fits(sc, start) && Glanced(sc, start, g, end)
    ensures Fits(sc, g.second) && Fits(sc, g.last) && Gone(end) == Gone(start)
  {
    hide Fits, Leads, CommitsOf, Gone, LockFree;
    LaterFits(sc, start, g.first);
    LaterFits(sc, g.first, g.min);
    LaterFits(sc, g.min, g.max);
    LaterFits(sc, g.max, g.second);
    LaterFits(sc, g.second, g.last);
    LaterFits(sc, g.last, end);
  }

  lemma PublishedGrows(sc: Scoring, x: Slot, x': Slot)
    requires Fits(sc, x) && Leads(sc, x, x')
    ensures Atomic(x).published <= Atomic(x').published
  {
    hide Fits, Leads, CommitsOf, Gone, Atomic;
    LaterFits(sc, x, x');
    LookIsSeen(sc, x, CommitsOf(sc, x'.history));
    LookIsSeen(sc, x', CommitsOf(sc, x'.history));
  }

  lemma GlanceIsPollView(env: Env, n: nat, p: Primary, starts: seq<Slot>, ends: seq<Slot>, id: nat, g: Glances)
    requires History.Valid(env) && PrimaryOk(env, n, p) && Staged(env, n, p, starts, ends) && id < n
    requires Glanced(env.sc, starts[id], g, ends[id])
    ensures var p' := ApplyWrites(env, p, During(starts, ends));
            |p'.commits| == |p'.states| == n && PollView(p, p', id, SeenAt(g))
  {
    hide Fits, CommitsOf, Gone, Leads, SeenInOrder, LockFree, ApplyWrites, SlotOk, Atomic, Proper, During;
    PollLooksAreInOrder(env.sc, starts[id], g.first, g.min, g.max, g.second, g.last, ends[id]);
    PublishedWritesApply(env, n, p, starts, ends);
  }

  lemma GreetedFirst(sc: Scoring, start: Slot, g: Glances, b: Glances, end: Slot)
    requires Fits(sc, start) && Glanced(sc, start, g, end) && Leads(sc, g.last, b.first)
    ensures SeenAt(g).second.published <= SeenAt(b).first.published
  {
    hide Fits, Leads, Atomic, LockFree;
    GlancesFit(sc, start, g, end);
    PublishedGrows(sc, g.second, g.last);
    PublishedGrows(sc, g.last, b.first);
  }

  /**
   * A poll lock by lock, with any threads at work on every slot, is a poll of the atomic model: the writes are those
   * that were published, and every look at every slot is one that the model allows.
   */
  lemma LooksArePoll(env: Env, n: nat, p: Primary, starts: seq<Slot>, ends: seq<Slot>, hello: Frame,
                     greets: seq<Glances>, builds: seq<Glances>, maxFrames: nat)
    requires History.Valid(env) && PrimaryOk(env, n, p) && Staged(env, n, p, starts, ends)
    requires hello.Hello? && hello.version == PROTOCOL_VERSION && hello.replicaId != ""
    requires |greets| == |hello.positions| && |builds| == n
    requires forall k :: 0 <= k < |greets| && hello.positions[k].0 < n ==>
               Glanced(env.sc, starts[hello.positions[k].0], greets[k], ends[hello.positions[k].0])
    requires forall i :: 0 <= i < n ==>
               var id := VisitedSlot(SessionOf(p, hello.replicaId).nextSlot, i, n);
               Glanced(env.sc, starts[id], builds[i], ends[id])
    requires forall k, i :: 0 <= k < |greets| && 0 <= i < n
                            && hello.positions[k].0 == VisitedSlot(SessionOf(p, hello.replicaId).nextSlot, i, n) ==>
               Leads(env.sc, greets[k].last, builds[i].first)
    ensures PollRuns(env, p, PollCall(hello, During(starts, ends), AllSeenAt(greets), AllSeenAt(builds), maxFrames))
    ensures forall j :: 0 <= j < n ==>
              ApplyWrites(env, p, During(starts, ends)).commits[j] == CommitsOf(env.sc, ends[j].history)
  {
    hide Fits, CommitsOf, Gone, Leads, PollView, LockFree, ApplyWrites, SlotOk, Atomic, Proper, During, VisitedSlot,
         FindReplica, SeenAt, Glanced, IsVisitOrder, UnpacksWire;
    PublishedWritesApply(env, n, p, starts, ends);
    var p', next := ApplyWrites(env, p, During(starts, ends)), SessionOf(p, hello.replicaId).nextSlot;
    forall k | 0 <= k < |greets| && hello.positions[k].0 < n
      ensures PollView(p, p', hello.positions[k].0, SeenAt(greets[k]))
    {
      GlanceIsPollView(env, n, p, starts, ends, hello.positions[k].0, greets[k]);
    }
    forall i | 0 <= i < n
      ensures PollView(p, p', VisitedSlot(next, i, n), SeenAt(builds[i]))
    {
      GlanceIsPollView(env, n, p, starts, ends, VisitedSlot(next, i, n), builds[i]);
    }
    forall k, i | 0 <= k < |greets| && 0 <= i < n && hello.positions[k].0 == VisitedSlot(next, i, n)
      ensures SeenAt(greets[k]).second.published <= SeenAt(builds[i]).first.published
    {
      var id := VisitedSlot(next, i, n);
      GreetedFirst(env.sc, starts[id], greets[k], builds[i], ends[id]);
    }
  }

  /** The four moments at which maintenance looks at a slot. */
  datatype Rounds = Rounds(collect: Slot, sum: Slot, max: Slot, trim: Slot)

  function TendedAt(r: Rounds): Upkeep {
    Upkeep(Atomic(r.collect), Atomic(r.sum), Atomic(r.max), Atomic(r.trim))
  }

  function AllTendedAt(rs: seq<Rounds>): (looks: seq<Upkeep>)
    ensures |looks| == |rs| && forall j :: 0 <= j < |rs| ==> looks[j] == TendedAt(rs[j])
  {
    seq(|rs|, j requires 0 <= j < |rs| => TendedAt(rs[j]))
  }

  ghost predicate Tended(sc: Scoring, start: Slot, through: nat, r: Rounds, evicted: bool, end: Slot) {
    && Leads(sc, start, r.collect) && Leads(sc, TrimmedAt(sc, r.collect, through), r.sum) && Leads(sc, r.sum, r.max)
    && Leads(sc, r.max, r.trim)
    && Leads(sc, if evicted then TrimmedAt(sc, r.trim, MaxSeqNo(r.max.log)) else r.trim, end)
    && LockFree(r.collect) && LockFree(r.sum) && LockFree(r.max) && LockFree(r.trim)
  }

  lemma RoundIsUpkeep(env: Env, id: nat, start: Slot, through: nat, r: Rounds, evicted: bool, end: Slot, c: seq<Commit>,
                      s: SlotState)
    requires History.Valid(env) && Fits(env.sc, start) && Tended(env.sc, start, through, r, evicted, end)
    requires c == CommitsOf(env.sc, end.history) && SlotOk(env, id, c, s) && Dropped(c, s) == Gone(start)
    ensures 0 <= Gone(start) && UpkeepSeen(CommitsOf(env.sc, start.history), c, Gone(start), through, TendedAt(r))
    ensures Trim(s, GoneThrough(through, TendedAt(r), evicted)) == Atomic(end)
  {
    hide Fits, CommitsOf, Gone, Leads, UpkeepSeen, LockFree, Atomic, TrimmedAt, MaxSeqNo, GoneThrough, Trim, Sound,
         Backs, IsVisitOrder, UnpacksWire;
    UpkeepLooksAreInOrder(env.sc, start, r.collect, through, r.sum, r.max, r.trim, evicted, end);
    var gone := GoneThrough(through, TendedAt(r), evicted);
    TrimKeepsSlot(env, id, c, s, gone);
    BackedAlike(c, Dropped(c, Trim(s, gone)), Trim(s, gone), Atomic(end));
  }

  /** Maintenance lock by lock is maintenance of the atomic model, and leaves every slot as the model says. */
  lemma LooksAreMaintenance(env: Env, n: nat, p: Primary, starts: seq<Slot>, ends: seq<Slot>, rounds: seq<Rounds>)
    requires History.Valid(env) && PrimaryOk(env, n, p) && Staged(env, n, p, starts, ends) && |rounds| == n
    requires forall j :: 0 <= j < n ==>
               Tended(env.sc, starts[j], CollectThrough(p.replicas, j, n), rounds[j],
                      j < EnforceBudget(p.replicas, AllTendedAt(rounds), p.budget).evicted, ends[j])
    ensures var call := MaintainCall(During(starts, ends), AllTendedAt(rounds)); var p' :=
            MaintainPrimary(env, p, call);
            && MaintainRuns(env, p, call) && |p'.states| == |p'.commits| == n
            && forall j :: 0 <= j < n ==>
                 p'.states[j] == Atomic(ends[j]) && p'.commits[j] == CommitsOf(env.sc, ends[j].history)
  {
    hide Fits, CommitsOf, Gone, Leads, UpkeepSeen, LockFree, ApplyWrites, SlotOk, Atomic, Proper, During,
         CollectThrough, EvictFrom, CountedBytes, IsVisitOrder, UnpacksWire, TrimmedAt, MaxSeqNo, Backs, GoneThrough,
         Trim, TendedAt;
    PublishedWritesApply(env, n, p, starts, ends);
    var w, looks := ApplyWrites(env, p, During(starts, ends)), AllTendedAt(rounds);
    var k := EnforceBudget(p.replicas, looks, p.budget).evicted;
    forall j | 0 <= j < n
      ensures var through := CollectThrough(p.replicas, j, n);
              && 0 <= Gone(starts[j]) && UpkeepSeen(p.commits[j], w.commits[j], Gone(starts[j]), through, looks[j])
              && Trim(w.states[j], GoneThrough(through, looks[j], j < k)) == Atomic(ends[j])
    {
      RoundIsUpkeep(env, j, starts[j], CollectThrough(p.replicas, j, n), rounds[j], j < k, ends[j], w.commits[j],
                    w.states[j]);
    }
  }
}
