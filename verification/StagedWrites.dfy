/**
 * Writes at the granularity of the slot's locks (src/cache/hash_slot.cpp): many threads, each taking the write lock,
 * reading the map, appending to the log, raising the slot number and publishing map and number together.
 */
module StagedWrites {
  import opened Core
  import opened Binlog
  import opened HashSlot
  import opened Commands
  import opened Replay

  /** A write that a thread wants to make. */
  datatype Task = Task(op: Op, choose: Choice, now: u64)

  /** How far the holder of the write lock has come. */
  datatype Phase =
    | Idle
    | Locked(task: Task)
    | HasRead(task: Task, seen: ObjectMap)
    | Decided(task: Task, change: Change, seqNo: nat)
    | Logged(task: Task, change: Change, seqNo: nat)
    | Numbered(task: Task, change: Change, seqNo: nat)
    | Finished

  /** The fields of a primary's slot, the threads that write it, and the writes published so far. */
  datatype Slot = Slot(objects: ObjectMap, log: seq<Record>, slotSeq: nat, published: nat, threads: seq<Phase>,
                       history: seq<Task>)

  datatype Event =
    | Acquire(t: nat, task: Task)
    | Read(t: nat)
    | Decide(t: nat)
    | Append(t: nat)
    | Number(t: nat)
    | Publish(t: nat)
    | Release(t: nat)
    | TrimLog(through: nat)

  predicate LockFree(x: Slot) {
    forall t :: 0 <= t < |x.threads| ==> x.threads[t] == Idle
  }

  function ChangeOf(sc: Scoring, task: Task, m: ObjectMap): Option<Change> {
    OpChange(sc, task.choose, task.op, task.now, m)
  }

  function Moved(x: Slot, t: nat, p: Phase): Slot
    requires t < |x.threads|
  {
    x.(threads := x.threads[t := p])
  }

  /** One step of one thread; a step that is not enabled changes nothing. */
  function Next(sc: Scoring, x: Slot, e: Event): Slot {
    if e.TrimLog? then
      // Trimming takes the write lock, and touches nothing but the log.
      if LockFree(x) then x.(log := TrimThrough(x.log, e.through)) else x
    else if e.t >= |x.threads| then x
    else if e.Acquire? then (if LockFree(x) then Moved(x, e.t, Locked(e.task)) else x)
    else
      match x.threads[e.t]
      case Locked(task) => if e.Read? then Moved(x, e.t, HasRead(task, x.objects)) else x
      case HasRead(task, seen) =>
        if !e.Decide? then x
        else
          (match ChangeOf(sc, task, seen)
           case None => Moved(x, e.t, Finished)
           case Some(change) => Moved(x, e.t, Decided(task, change, x.slotSeq + 1)))
      case Decided(task, change, seqNo) =>
        if e.Append? then
          Moved(x.(log := x.log + [Record(seqNo, change.args, task.now, change.deadline)]), e.t,
                Logged(task, change, seqNo))
        else x
      case Logged(task, change, seqNo) =>
        if e.Number? then Moved(x.(slotSeq := seqNo), e.t, Numbered(task, change, seqNo)) else x
      case Numbered(task, change, seqNo) =>
        if e.Publish? then
          Moved(x.(objects := change.objects, published := seqNo, history := x.history + [task]), e.t, Finished)
        else x
      case Finished => if e.Release? then Moved(x, e.t, Idle) else x
      case Idle => x
  }

  // ---- the atomic slot behind it

  /** A record is in the log whose write is not published yet. */
  predicate Unpublished(x: Slot) {
    exists t :: 0 <= t < |x.threads| && (x.threads[t].Logged? || x.threads[t].Numbered?)
  }

  /** The slot as the atomic model sees it: without the record of a write that is still under way. */
  function Atomic(x: Slot): SlotState {
    SlotState(x.objects, if Unpublished(x) && x.log != [] then x.log[..|x.log| - 1]
              else x.log, x.published, x.published, true)
  }

  ghost predicate PhaseFits(sc: Scoring, x: Slot, p: Phase) {
    match p
    case Idle => true
    case Locked(_) => x.slotSeq == x.published
    case Finished => x.slotSeq == x.published
    case HasRead(_, seen) => x.slotSeq == x.published && seen == x.objects
    case Decided(task, change, seqNo) =>
      x.slotSeq == x.published && seqNo == x.published + 1 && ChangeOf(sc, task, x.objects) == Some(change)
    case Logged(task, change, seqNo) =>
      x.slotSeq == x.published && seqNo == x.published + 1 && ChangeOf(sc, task, x.objects) == Some(change)
      && x.log != [] && x.log[|x.log| - 1] == Record(seqNo, change.args, task.now, change.deadline)
    case Numbered(task, change, seqNo) =>
      x.slotSeq == seqNo == x.published + 1 && ChangeOf(sc, task, x.objects) == Some(change)
      && x.log != [] && x.log[|x.log| - 1] == Record(seqNo, change.args, task.now, change.deadline)
  }

  /** Consecutive numbers, the last one `end`. */
  predicate NumbersEndAt(log: seq<Record>, end: nat) {
    |log| <= end && forall i :: 0 <= i < |log| ==> log[i].seqNo == end - |log| + i + 1
  }

  /** Only one thread is past Acquire, and what it holds fits the slot. */
  ghost predicate Inv(sc: Scoring, x: Slot) {
    && (forall t, u :: 0 <= t < u < |x.threads| ==> x.threads[t] == Idle || x.threads[u] == Idle)
    && (forall t :: 0 <= t < |x.threads| ==> PhaseFits(sc, x, x.threads[t]))
    && (LockFree(x) ==> x.slotSeq == x.published)
    && NumbersEndAt(Atomic(x).log, x.published)
    && (Unpublished(x) ==> x.log != [] && x.log[|x.log| - 1].seqNo == x.published + 1)
  }

  /** What a step does to the atomic slot: nothing, one whole write at its publication, or a trim. */
  ghost predicate Refines(sc: Scoring, x: Slot, x': Slot, e: Event) {
    match e
    case Publish(t) =>
      (Atomic(x') == Atomic(x) && x'.history == x.history) ||
      (t < |x.threads| && x.threads[t].Numbered?
       && var task := x.threads[t].task;
          ChangeOf(sc, task, x.objects).Some?
          && Atomic(x') == Apply(Atomic(x), ChangeOf(sc, task, x.objects), task.now)
            && x'.history == x.history + [task])
    case TrimLog(through) => x'.history == x.history && Atomic(x') == if LockFree(x) then Trim(Atomic(x), through)
      else Atomic(x)
    case _ => Atomic(x') == Atomic(x) && x'.history == x.history
  }

  lemma MovedThreads(x: Slot, x': Slot, t: nat, p: Phase)
    requires t < |x.threads| && x'.threads == x.threads[t := p]
    requires forall u :: 0 <= u < |x.threads| && u != t ==> x.threads[u] == Idle
    ensures Unpublished(x') <==> p.Logged? || p.Numbered?
    ensures Unpublished(x) <==> x.threads[t].Logged? || x.threads[t].Numbered?
    ensures LockFree(x') <==> p == Idle
    ensures forall u :: 0 <= u < |x.threads| && u != t ==> x'.threads[u] == Idle
  {
    assert x'.threads[t] == p;
  }

  lemma OthersAreIdle(sc: Scoring, x: Slot, t: nat)
    requires Inv(sc, x) && t < |x.threads| && (x.threads[t] != Idle || LockFree(x))
    ensures forall u :: 0 <= u < |x.threads| && u != t ==> x.threads[u] == Idle
  {
  }

  lemma SuffixKeepsNumbers(log: seq<Record>, end: nat, k: nat)
    requires NumbersEndAt(log, end) && k <= |log|
    ensures NumbersEndAt(log[k..], end)
  {
    var rest := log[k..];
    forall i | 0 <= i < |rest|
      ensures rest[i].seqNo == end - |rest| + i + 1
    {
      assert rest[i] == log[k + i];
    }
  }

  lemma TrimKeepsNumbers(log: seq<Record>, end: nat, through: nat)
    requires NumbersEndAt(log, end)
    ensures NumbersEndAt(TrimThrough(log, through), end)
  {
    hide TrimThrough, NumbersEndAt;
    TrimLeavesSuffix(log, through);
    SuffixKeepsNumbers(log, end, |log| - |TrimThrough(log, through)|);
  }

  lemma FreeHasNoneUnpublished(x: Slot)
    requires LockFree(x)
    ensures !Unpublished(x)
  {
  }

  lemma TrimStepRefines(sc: Scoring, x: Slot, through: nat)
    requires Inv(sc, x) && LockFree(x)
    ensures var x' := x.(log := TrimThrough(x.log, through)); Inv(sc, x') && Atomic(x') == Trim(Atomic(x), through)
  {
    hide OpChange, TrimThrough, NumbersEndAt, Unpublished;
    FreeHasNoneUnpublished(x);
    FreeHasNoneUnpublished(x.(log := TrimThrough(x.log, through)));
    TrimKeepsNumbers(x.log, x.published, through);
  }

  lemma LockFreeIffIdle(x: Slot, t: nat)
    requires t < |x.threads| && forall u :: 0 <= u < |x.threads| && u != t ==> x.threads[u] == Idle
    ensures LockFree(x) <==> x.threads[t] == Idle
  {
  }

  /** What the invariant says of a slot in which only thread t may be past Idle. */
  ghost predicate HolderOk(sc: Scoring, x: Slot, p: Phase) {
    && PhaseFits(sc, x, p) && (p == Idle ==> x.slotSeq == x.published)
    && NumbersEndAt(Atomic(x).log, x.published)
    && (p.Logged? || p.Numbered? ==> x.log != [] && x.log[|x.log| - 1].seqNo == x.published + 1)
  }

  lemma HolderFits(sc: Scoring, x: Slot, t: nat)
    requires Inv(sc, x) && t < |x.threads| && forall u :: 0 <= u < |x.threads| && u != t ==> x.threads[u] == Idle
    ensures HolderOk(sc, x, x.threads[t])
  {
    hide PhaseFits, NumbersEndAt, Atomic;
    LockFreeIffIdle(x, t);
  }

  lemma InvFromHolder(sc: Scoring, x: Slot, t: nat)
    requires t < |x.threads| && forall u :: 0 <= u < |x.threads| && u != t ==> x.threads[u] == Idle
    requires HolderOk(sc, x, x.threads[t])
    ensures Inv(sc, x)
  {
    hide NumbersEndAt, Atomic;
    LockFreeIffIdle(x, t);
  }

  /** Before publication a thread changes nothing that the atomic slot shows. */
  lemma AtomicStays(sc: Scoring, x: Slot, e: Event)
    requires !e.TrimLog? && e.t < |x.threads| && Next(sc, x, e) != x && !x.threads[e.t].Numbered?
    requires forall u :: 0 <= u < |x.threads| && u != e.t ==> x.threads[u] == Idle
    requires HolderOk(sc, x, x.threads[e.t])
    ensures var x' := Next(sc, x, e);
            Atomic(x') == Atomic(x) && x'.history == x.history && HolderOk(sc, x', x'.threads[e.t])
  {
    hide OpChange, Unpublished, LockFree, NumbersEndAt;
    var x' := Next(sc, x, e);
    LockFreeIffIdle(x, e.t);
    MovedThreads(x, x', e.t, x'.threads[e.t]);
    if x.threads[e.t].Decided? {
      assert x'.log[..|x'.log| - 1] == x.log;
    }
  }

  lemma PublishedNumbers(log: seq<Record>, end: nat)
    requires log != [] && log[|log| - 1].seqNo == end + 1 && NumbersEndAt(log[..|log| - 1], end)
    ensures NumbersEndAt(log, end + 1)
  {
    assert forall i :: 0 <= i < |log| - 1 ==> log[..|log| - 1][i] == log[i];
  }

  /** Publication is the moment at which the whole write happens. */
  lemma PublishRefines(sc: Scoring, x: Slot, t: nat)
    requires t < |x.threads| && x.threads[t].Numbered? && HolderOk(sc, x, x.threads[t])
    requires forall u :: 0 <= u < |x.threads| && u != t ==> x.threads[u] == Idle
    ensures var p := x.threads[t]; var x' := Next(sc, x, Publish(t));
            && ChangeOf(sc, p.task, x.objects) == Some(p.change)
            && Atomic(x') == Apply(Atomic(x), Some(p.change), p.task.now)
            && HolderOk(sc, x', Finished)
  {
    hide OpChange, NumbersEndAt, Unpublished;
    MovedThreads(x, Next(sc, x, Publish(t)), t, Finished);
    PublishedNumbers(x.log, x.published);
    assert x.log == x.log[..|x.log| - 1] + [x.log[|x.log| - 1]];
  }

  /** A thread's step from phase p, in a slot where every other thread is idle. */
  lemma ThreadStepRefines(sc: Scoring, x: Slot, e: Event)
    requires Inv(sc, x) && !e.TrimLog? && e.t < |x.threads| && Next(sc, x, e) != x
    requires forall u :: 0 <= u < |x.threads| && u != e.t ==> x.threads[u] == Idle
    ensures Inv(sc, Next(sc, x, e)) && Refines(sc, x, Next(sc, x, e), e)
  {
    hide OpChange, Unpublished, LockFree, NumbersEndAt, Apply, Inv, PhaseFits, Atomic;
    var x' := Next(sc, x, e);
    var p, p' := x.threads[e.t], x'.threads[e.t];
    LockFreeIffIdle(x, e.t);
    MovedThreads(x, x', e.t, p');
    HolderFits(sc, x, e.t);
    if p.Numbered? {
      PublishRefines(sc, x, e.t);
    } else {
      AtomicStays(sc, x, e);
    }
    InvFromHolder(sc, x', e.t);
  }

  /** Every step, of whichever thread, keeps the invariant and refines the atomic slot. */
  lemma StepRefines(sc: Scoring, x: Slot, e: Event)
    requires Inv(sc, x)
    ensures Inv(sc, Next(sc, x, e)) && Refines(sc, x, Next(sc, x, e), e)
  {
    hide OpChange, TrimThrough, PhaseFits, NumbersEndAt, Atomic;
    if e.TrimLog? {
      if LockFree(x) {
        TrimStepRefines(sc, x, e.through);
      }
    } else if Next(sc, x, e) != x {
      OthersAreIdle(sc, x, e.t);
      ThreadStepRefines(sc, x, e);
    }
  }

  // ---- runs

  function Fresh(threads: nat): Slot {
    Slot(map[], [], 0, 0, seq(threads, _ => Idle), [])
  }

  function Steps(sc: Scoring, x: Slot, events: seq<Event>): Slot {
    if events == [] then x else Next(sc, Steps(sc, x, events[..|events| - 1]), events[|events| - 1])
  }

  function Run(sc: Scoring, threads: nat, events: seq<Event>): Slot {
    Steps(sc, Fresh(threads), events)
  }

  /** The map that the writes leave when they are made one after the other; None if one of them would not commit. */
  function Serial(sc: Scoring, history: seq<Task>): Option<ObjectMap> {
    if history == [] then Some(map[])
    else
      var before := Serial(sc, history[..|history| - 1]);
      if before.None? then None
      else
        match ChangeOf(sc, history[|history| - 1], before.value)
        case None => None
        case Some(change) => Some(change.objects)
  }

  lemma HistoryGrows(sc: Scoring, x: Slot, e: Event)
    requires Inv(sc, x) && Serial(sc, x.history) == Some(x.objects) && x.published == |x.history|
    ensures var x' := Next(sc, x, e); Serial(sc, x'.history) == Some(x'.objects) && x'.published == |x'.history|
  {
    hide OpChange, TrimThrough, Unpublished;
    var x' := Next(sc, x, e);
    if x'.history != x.history {
      assert PhaseFits(sc, x, x.threads[e.t]);
      assert x'.history[..|x'.history| - 1] == x.history;
    }
  }

  lemma LogIsContiguous(sc: Scoring, x: Slot)
    requires Inv(sc, x)
    ensures Contiguous(x.log)
    ensures x.log != [] ==> MaxSeqNo(x.log) == if Unpublished(x) then x.published + 1 else x.published
  {
    hide PhaseFits, LockFree;
    var clean := Atomic(x).log;
    assert forall i :: 0 <= i < |clean| ==> clean[i] == x.log[i];
  }

  /**
   * In every interleaving of every number of threads, at every moment, the pair that Snapshot reads is the result of
   * exactly the first `published` committed writes made one after the other; the retained numbers are contiguous; and
   * the last of them is `published`, or one more while a write is under way.
   */
  lemma {:induction false} RunIsSerial(sc: Scoring, threads: nat, events: seq<Event>)
    ensures var x := Run(sc, threads, events);
            && Inv(sc, x)
            && Serial(sc, x.history) == Some(x.objects) && x.published == |x.history|
            && Contiguous(x.log)
            && (x.log != [] ==> MaxSeqNo(x.log) == if Unpublished(x) then x.published + 1 else x.published)
            && (LockFree(x) ==> Atomic(x) == SlotState(x.objects, x.log, x.slotSeq, x.published, true))
  {
    if events == [] {
    } else {
      RunIsSerial(sc, threads, events[..|events| - 1]);
      var x, e := Run(sc, threads, events[..|events| - 1]), events[|events| - 1];
      StepRefines(sc, x, e);
      HistoryGrows(sc, x, e);
    }
    LogIsContiguous(sc, Run(sc, threads, events));
  }
}
