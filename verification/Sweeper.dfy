/**
 * The background sweep of expired objects (src/expire/expire_sweeper.cpp and DeleteExpired in src/cache/hash_slot.cpp):
 * a few slots per tick, round robin, each expired key looked at again before it goes.
 */
module Sweeper {
  import opened Core
  import opened HashSlot
  import opened Replay
  import opened Master
  import opened Primary
  import opened SlotWrites
  import opened Moments
  import opened Engine
  import opened Clients
  import opened Convergence
  import Mutators
  import Rotation

  const MAX_EXPIRED_KEYS_PER_SLOT: nat := 64

  /** The slot after an expired object under the key is removed; a live object stays. */
  function Removed(s: SlotState, key: string, now: u64): SlotState {
    Apply(s, Expiry(s.objects, key, now), now)
  }

  /**
   * A sweep of one slot: the slot as its map was copied, the keys picked from the copy, and the slot before each
   * removal.
   */
  datatype Sweeping = Sweeping(seen: SlotState, keys: seq<string>, befores: seq<SlotState>)

  function AfterRemovals(w: Sweeping, k: nat, now: u64): SlotState
    requires k <= |w.befores| <= |w.keys|
  {
    if k == 0 then w.seen else Removed(w.befores[k - 1], w.keys[k - 1], now)
  }

  /** How many of the first k picked keys were still there and expired. */
  function RemovedCount(w: Sweeping, k: nat, now: u64): nat
    requires k <= |w.befores| <= |w.keys|
  {
    if k == 0 then 0
    else RemovedCount(w, k - 1, now) + (if Expiry(w.befores[k - 1].objects, w.keys[k - 1], now).Some? then 1 else 0)
  }

  /** Sweeps at this time, and what the others do meanwhile, lead from one state of the slot to the other. */
  ghost predicate Tidied(crowd: Crowd, now: u64, s: SlotState, s': SlotState) {
    match crowd
    case None => exists keys: seq<string> :: s' == ExpireKeys(s, keys, now)
    case Some(_) => Later(crowd, s, s')
  }

  /** The sweep up to its k-th picked key: others write between the copy and the removals, and between removals. */
  ghost predicate SweptUpTo(crowd: Crowd, w: Sweeping, k: nat, maxKeys: nat, now: u64) {
    && k == |w.befores| <= |w.keys| && ListsExpired(w.keys, w.seen.objects, maxKeys, now)
    && forall j :: 0 <= j < k ==> Later(crowd, AfterRemovals(w, j, now), w.befores[j])
  }

  /** The whole sweep, between two states of the slot. */
  ghost predicate SweptBetween(crowd: Crowd, s: SlotState, w: Sweeping, maxKeys: nat, now: u64, s': SlotState) {
    && SweptUpTo(crowd, w, |w.keys|, maxKeys, now)
    && Tidied(crowd, now, s, w.seen) && Tidied(crowd, now, AfterRemovals(w, |w.keys|, now), s')
  }

  // ---- what a sweep means

  /** A removal touches no live object, whoever wrote it and whenever. */
  lemma RemovalSparesTheLive(s: SlotState, key: string, now: u64)
    ensures KeepsLive(s.objects, Removed(s, key, now).objects, now)
    ensures key in Removed(s, key, now).objects ==> !Removed(s, key, now).objects[key].Expired(now)
  {
  }

  /**
   * A sweep that stays under its quota gets rid of every object that it finds expired: right after the key's removal
   * nothing is under it, or an object that somebody wrote meanwhile and that lives.
   */
  lemma SweepMissesNothing(crowd: Crowd, s: SlotState, w: Sweeping, maxKeys: nat, now: u64, s': SlotState, key: string)
    returns (k: nat)
    requires SweptBetween(crowd, s, w, maxKeys, now, s') && |w.keys| < maxKeys
    requires key in w.seen.objects && w.seen.objects[key].Expired(now)
    ensures k < |w.keys| == |w.befores| && w.keys[k] == key
    ensures Live(AfterRemovals(w, k + 1, now).objects, key, now).Some? || key !in AfterRemovals(w, k + 1, now).objects
  {
    hide Later, Tidied, Apply;
    assert key in w.keys;
    k :| 0 <= k < |w.keys| && w.keys[k] == key;
    RemovalSparesTheLive(w.befores[k], key, now);
  }

  /** What a sweep at rest leaves of a slot: no expired object, or at least a full quota fewer objects. */
  ghost predicate Swept(before: ObjectMap, after: ObjectMap, maxKeys: nat, now: u64) {
    (forall k :: k in after ==> !after[k].Expired(now)) || |after| + maxKeys <= |before|
  }

  lemma {:induction false} SubsetIsNoLarger(s: set<string>, t: set<string>)
    requires s <= t
    ensures |s| <= |t|
  {
    if s == {} {
    } else {
      var x :| x in s;
      SubsetIsNoLarger(s - {x}, t - {x});
    }
  }

  lemma KeptIsNoLarger(a: ObjectMap, b: ObjectMap, now: u64)
    requires KeepsLive(a, b, now)
    ensures |b| <= |a|
  {
    assert b.Keys <= a.Keys;
    SubsetIsNoLarger(b.Keys, a.Keys);
  }

  lemma {:induction false} TidyingKeepsLive(s: SlotState, keys: seq<string>, now: u64)
    ensures KeepsLive(s.objects, ExpireKeys(s, keys, now).objects, now)
  {
    if keys == [] {
    } else {
      TidyingKeepsLive(s, keys[..|keys| - 1], now);
      RemovalSparesTheLive(ExpireKeys(s, keys[..|keys| - 1], now), keys[|keys| - 1], now);
    }
  }

  lemma NoneRemoved(w: Sweeping)
    ensures w.seen.objects - Elements(w.keys[..0]) == w.seen.objects
  {
    assert Elements(w.keys[..0]) == {};
  }

  lemma {:induction false} RestRemovals(w: Sweeping, k: nat, maxKeys: nat, now: u64)
    requires SweptUpTo(None, w, |w.keys|, maxKeys, now) && k <= |w.keys|
    ensures AfterRemovals(w, k, now).objects == w.seen.objects - Elements(w.keys[..k]) && RemovedCount(w, k, now) == k
    decreases k
  {
    hide ListsExpired, Apply, Expiry, Elements;
    if k == 0 {
      NoneRemoved(w);
    } else {
      RestRemovals(w, k - 1, maxKeys, now);
      assert w.keys[..k][..k - 1] == w.keys[..k - 1] && w.befores[k - 1] == AfterRemovals(w, k - 1, now);
      NextExpired(w.keys, w.seen.objects, maxKeys, now, k - 1, w.befores[k - 1]);
    }
  }

  lemma SweptAround(a: ObjectMap, b: ObjectMap, c: ObjectMap, d: ObjectMap, maxKeys: nat, now: u64)
    requires KeepsLive(a, b, now) && KeepsLive(b, c, now) && KeepsLive(c, d, now) && Swept(b, c, maxKeys, now)
    ensures KeepsLive(a, d, now) && Swept(a, d, maxKeys, now)
  {
    KeptIsNoLarger(a, b, now);
    KeptIsNoLarger(c, d, now);
  }

  lemma QuotaIsKept(w: Sweeping, maxKeys: nat, now: u64)
    requires SweptUpTo(None, w, |w.keys|, maxKeys, now)
    ensures var after := AfterRemovals(w, |w.keys|, now).objects;
            KeepsLive(w.seen.objects, after, now) && Swept(w.seen.objects, after, maxKeys, now)
    ensures RemovedCount(w, |w.keys|, now) == |w.keys|
  {
    hide AfterRemovals;
    RestRemovals(w, |w.keys|, maxKeys, now);
    assert w.keys[..|w.keys|] == w.keys;
    SweepKeepsLive(w.keys, w.seen.objects, maxKeys, now);
  }

  /** Without others a sweep keeps every live object, and leaves no expired one or removes its full quota. */
  lemma SweepAtRest(s: SlotState, w: Sweeping, maxKeys: nat, now: u64, s': SlotState)
    requires SweptBetween(None, s, w, maxKeys, now, s')
    ensures KeepsLive(s.objects, s'.objects, now) && Swept(s.objects, s'.objects, maxKeys, now)
    ensures RemovedCount(w, |w.keys|, now) == |w.keys|
  {
    hide ExpireKeys, AfterRemovals, KeepsLive, Swept, RemovedCount;
    var swept := AfterRemovals(w, |w.keys|, now);
    var us: seq<string> :| w.seen == ExpireKeys(s, us, now);
    var vs: seq<string> :| s' == ExpireKeys(swept, vs, now);
    TidyingKeepsLive(s, us, now);
    TidyingKeepsLive(swept, vs, now);
    QuotaIsKept(w, maxKeys, now);
    SweptAround(s.objects, w.seen.objects, swept.objects, s'.objects, maxKeys, now);
  }

  // ---- tidying chains

  lemma TidiedSelf(crowd: Crowd, now: u64, s: SlotState)
    ensures Tidied(crowd, now, s, s)
  {
    assert ExpireKeys(s, [], now) == s;
    LaterSelf(crowd, s);
  }

  lemma {:induction false} TidiedOn(s: SlotState, a: seq<string>, b: seq<string>, now: u64)
    ensures ExpireKeys(ExpireKeys(s, a, now), b, now) == ExpireKeys(s, a + b, now)
    decreases |b|
  {
    hide Apply, Expiry;
    if b == [] {
      assert a + b == a;
    } else {
      assert (a + b)[..|a + b| - 1] == a + b[..|b| - 1];
      TidiedOn(s, a, b[..|b| - 1], now);
    }
  }

  lemma TidiedChains(crowd: Crowd, now: u64, a: SlotState, b: SlotState, c: SlotState)
    requires Tidied(crowd, now, a, b) && Tidied(crowd, now, b, c)
    ensures Tidied(crowd, now, a, c)
  {
    hide ExpireKeys, Later;
    match crowd
    case None =>
      var us: seq<string> :| b == ExpireKeys(a, us, now);
      var vs: seq<string> :| c == ExpireKeys(b, vs, now);
      TidiedOn(a, us, vs, now);
    case Some(_) => LaterChains(crowd, a, b, c);
  }

  lemma LaterIsTidied(crowd: Crowd, now: u64, s: SlotState, s': SlotState)
    requires Later(crowd, s, s')
    ensures Tidied(crowd, now, s, s')
  {
    hide Worked;
    if crowd.None? {
      TidiedSelf(crowd, now, s);
    }
  }

  lemma RemovedIsTidied(crowd: Crowd, now: u64, s: SlotState, key: string)
    ensures Tidied(crowd, now, s, Removed(s, key, now))
  {
    hide Apply, Expiry;
    match crowd
    case None =>
      assert [key][..0] == [];
      assert ExpireKeys(s, [key], now) == Removed(s, key, now);
    case Some(sc) => LaterByOne(sc, s, Write(0, Sweep(key), (_, _) => [], now));
  }

  lemma {:induction false} SweptIsTidied(crowd: Crowd, w: Sweeping, k: nat, maxKeys: nat, now: u64)
    requires SweptUpTo(crowd, w, |w.befores|, maxKeys, now) && k <= |w.befores|
    ensures Tidied(crowd, now, w.seen, AfterRemovals(w, k, now))
    decreases k
  {
    hide Tidied, Later, ListsExpired, Removed;
    TidiedSelf(crowd, now, w.seen);
    if k == 0 {
    } else {
      SweptIsTidied(crowd, w, k - 1, maxKeys, now);
      LaterIsTidied(crowd, now, AfterRemovals(w, k - 1, now), w.befores[k - 1]);
      RemovedIsTidied(crowd, now, w.befores[k - 1], w.keys[k - 1]);
      TidiedChains(crowd, now, w.seen, AfterRemovals(w, k - 1, now), w.befores[k - 1]);
      TidiedChains(crowd, now, w.seen, w.befores[k - 1], AfterRemovals(w, k, now));
    }
  }

  // ---- ticks

  /** A tick that sweeps from slot `start` on: every slot is only tidied, and each run is the sweep of its slot. */
  ghost predicate TickDoes(crowd: Crowd, a: seq<SlotState>, start: nat, runs: seq<Sweeping>, now: u64,
                           b: seq<SlotState>)
  {
    && 0 < |a| == |b| && (forall j :: 0 <= j < |a| ==> Tidied(crowd, now, a[j], b[j]))
    && forall k :: 0 <= k < |runs| ==>
         var id := VisitedSlot(start, k, |a|); SweptBetween(crowd, a[id], runs[k], MAX_EXPIRED_KEYS_PER_SLOT, now,
                                                            b[id])
  }

  function TickCount(runs: seq<Sweeping>, now: u64): nat
    requires forall k :: 0 <= k < |runs| ==> |runs[k].befores| == |runs[k].keys|
  {
    if runs == [] then 0
    else
      var last := runs[|runs| - 1];
      TickCount(runs[..|runs| - 1], now) + RemovedCount(last, |last.keys|, now)
  }

  lemma TickStarts(crowd: Crowd, a: seq<SlotState>, start: nat, now: u64)
    requires a != []
    ensures TickDoes(crowd, a, start, [], now, a)
  {
    hide Tidied;
    forall j | 0 <= j < |a|
      ensures Tidied(crowd, now, a[j], a[j])
    {
      TidiedSelf(crowd, now, a[j]);
    }
  }

  lemma SweptTidies(crowd: Crowd, s: SlotState, w: Sweeping, maxKeys: nat, now: u64, s': SlotState)
    requires SweptBetween(crowd, s, w, maxKeys, now, s')
    ensures Tidied(crowd, now, s, s')
  {
    hide Tidied, Later, ListsExpired, AfterRemovals;
    var swept := AfterRemovals(w, |w.keys|, now);
    SweptIsTidied(crowd, w, |w.keys|, maxKeys, now);
    TidiedChains(crowd, now, s, w.seen, swept);
    TidiedChains(crowd, now, s, swept, s');
  }

  lemma RunsAreWhole(crowd: Crowd, a: seq<SlotState>, start: nat, runs: seq<Sweeping>, now: u64, b: seq<SlotState>)
    requires TickDoes(crowd, a, start, runs, now, b)
    ensures forall k :: 0 <= k < |runs| ==> |runs[k].befores| == |runs[k].keys|
  {
    hide Tidied, Later, VisitedSlot, ListsExpired;
    forall k | 0 <= k < |runs|
      ensures |runs[k].befores| == |runs[k].keys|
    {
      var id := VisitedSlot(start, k, |a|);
    }
  }

  /** Every slot but one moved on by what others wrote. */
  ghost predicate OthersLater(crowd: Crowd, a: seq<SlotState>, i: nat, b: seq<SlotState>) {
    |a| == |b| && forall j :: 0 <= j < |a| && j != i ==> Later(crowd, a[j], b[j])
  }

  /** The next slot of a tick: it is swept, and the others only move on. */
  lemma TickGoesOn(crowd: Crowd, a: seq<SlotState>, start: nat, runs: seq<Sweeping>, now: u64, b: seq<SlotState>,
                   w: Sweeping, c: seq<SlotState>)
    requires TickDoes(crowd, a, start, runs, now, b) && |c| == |b|
    requires var id := VisitedSlot(start, |runs|, |a|);
             && SweptBetween(crowd, b[id], w, MAX_EXPIRED_KEYS_PER_SLOT, now, c[id])
             && OthersLater(crowd, b, id, c)
    ensures TickDoes(crowd, a, start, runs + [w], now, c)
  {
    hide Later, ListsExpired, Tidied, AfterRemovals, VisitedSlot;
    var id := VisitedSlot(start, |runs|, |a|);
    RunsAreWhole(crowd, a, start, runs, now, b);
    forall j | 0 <= j < |a|
      ensures Tidied(crowd, now, b[j], c[j]) && Tidied(crowd, now, a[j], c[j])
    {
      if j == id {
        SweptTidies(crowd, b[id], w, MAX_EXPIRED_KEYS_PER_SLOT, now, c[id]);
      } else {
        LaterIsTidied(crowd, now, b[j], c[j]);
      }
      TidiedChains(crowd, now, a[j], b[j], c[j]);
    }
    forall k | 0 <= k < |runs + [w]|
      ensures var i := VisitedSlot(start, k, |a|);
              SweptBetween(crowd, a[i], (runs + [w])[k], MAX_EXPIRED_KEYS_PER_SLOT, now, c[i])
    {
      var i, run := VisitedSlot(start, k, |a|), (runs + [w])[k];
      if k < |runs| {
        TidiedChains(crowd, now, AfterRemovals(run, |run.keys|, now), b[i], c[i]);
      } else {
        TidiedChains(crowd, now, a[i], b[i], w.seen);
      }
    }
  }

  lemma OthersGoOn(crowd: Crowd, a: seq<SlotState>, i: nat, b: seq<SlotState>, c: seq<SlotState>, s: SlotState)
    requires OthersLater(crowd, a, i, b) && AllLater(crowd, b, c) && i < |a|
    ensures OthersLater(crowd, a, i, c[i := s])
  {
    hide Later;
    forall j | 0 <= j < |a| && j != i
      ensures Later(crowd, a[j], c[j])
    {
      LaterChains(crowd, a[j], b[j], c[j]);
    }
  }

  lemma {:induction false} LongerSweep(w: Sweeping, s: SlotState, k: nat, now: u64)
    requires k <= |w.befores| < |w.keys|
    ensures var w' := w.(befores := w.befores + [s]);
            AfterRemovals(w', k, now) == AfterRemovals(w, k, now) && RemovedCount(w', k, now) == RemovedCount(w, k, now)
    decreases k
  {
    hide Removed, Expiry;
    if k == 0 {
    } else {
      LongerSweep(w, s, k - 1, now);
    }
  }

  /** The next picked key: others wrote, and then it was looked at again. */
  lemma SweepGoesOn(crowd: Crowd, w: Sweeping, maxKeys: nat, now: u64, s: SlotState)
    requires SweptUpTo(crowd, w, |w.befores|, maxKeys, now) && |w.befores| < |w.keys|
    requires Later(crowd, AfterRemovals(w, |w.befores|, now), s)
    ensures var k, w' := |w.befores|, w.(befores := w.befores + [s]);
            && SweptUpTo(crowd, w', k + 1, maxKeys, now) && AfterRemovals(w', k + 1, now) == Removed(s, w.keys[k], now)
            && RemovedCount(w', k + 1, now) == RemovedCount(w, k, now) + (if Expiry(s.objects, w.keys[k], now).Some?
                then 1 else 0)
  {
    hide Later, ListsExpired, Removed, Expiry;
    var k, w' := |w.befores|, w.(befores := w.befores + [s]);
    LongerSweep(w, s, k, now);
    forall j | 0 <= j < k + 1
      ensures Later(crowd, AfterRemovals(w', j, now), w'.befores[j])
    {
      LongerSweep(w, s, j, now);
    }
  }

  lemma SweepStarts(crowd: Crowd, s0: seq<SlotState>, i: nat, w: Sweeping, maxKeys: nat, now: u64, s1: seq<SlotState>)
    requires AllLater(crowd, s0, s1) && i < |s0| && w.seen == s1[i] && w.befores == []
    requires ListsExpired(w.keys, w.seen.objects, maxKeys, now)
    ensures SweptUpTo(crowd, w, 0, maxKeys, now) && AfterRemovals(w, 0, now) == s1[i] && RemovedCount(w, 0, now) == 0
    ensures OthersLater(crowd, s0, i, s1) && Later(crowd, s0[i], w.seen)
  {
    hide Later, ListsExpired;
  }

  lemma AtSlot(crowd: Crowd, a: seq<SlotState>, b: seq<SlotState>, i: nat)
    requires AllLater(crowd, a, b) && i < |a|
    ensures Later(crowd, a[i], b[i])
  {
  }

  lemma SweepEnds(crowd: Crowd, s: SlotState, w: Sweeping, maxKeys: nat, now: u64)
    requires SweptUpTo(crowd, w, |w.keys|, maxKeys, now) && Later(crowd, s, w.seen)
    ensures SweptBetween(crowd, s, w, maxKeys, now, AfterRemovals(w, |w.keys|, now))
  {
    hide Later, ListsExpired, Tidied, Removed;
    LaterIsTidied(crowd, now, s, w.seen);
    TidiedSelf(crowd, now, AfterRemovals(w, |w.keys|, now));
  }

  /** A tick so far, and what it counted. */
  ghost predicate TickSoFar(crowd: Crowd, a: seq<SlotState>, start: nat, runs: seq<Sweeping>, now: u64,
                            b: seq<SlotState>, deleted: nat)
  {
    && TickDoes(crowd, a, start, runs, now, b)
    && (forall k :: 0 <= k < |runs| ==> |runs[k].befores| == |runs[k].keys|) && deleted == TickCount(runs, now)
  }

  lemma NoSweep(crowd: Crowd, a: seq<SlotState>, start: nat, now: u64)
    requires a != []
    ensures TickSoFar(crowd, a, start, [], now, a, 0)
  {
    TickStarts(crowd, a, start, now);
  }

  lemma SweepIsWhole(crowd: Crowd, s: SlotState, w: Sweeping, maxKeys: nat, now: u64, s': SlotState)
    requires SweptBetween(crowd, s, w, maxKeys, now, s')
    ensures |w.befores| == |w.keys|
  {
    hide Later, ListsExpired, Tidied, AfterRemovals;
  }

  lemma NextSweep(crowd: Crowd, a: seq<SlotState>, start: nat, runs: seq<Sweeping>, now: u64, b: seq<SlotState>,
                  w: Sweeping, c: seq<SlotState>, deleted: nat)
    requires TickSoFar(crowd, a, start, runs, now, b, deleted) && |c| == |b|
    requires var id := VisitedSlot(start, |runs|, |a|);
             SweptBetween(crowd, b[id], w, MAX_EXPIRED_KEYS_PER_SLOT, now, c[id]) && OthersLater(crowd, b, id, c)
    ensures |w.befores| == |w.keys| && TickSoFar(crowd, a, start, runs + [w], now, c,
                                                 deleted + RemovedCount(w, |w.keys|, now))
  {
    hide Tidied, SweptBetween, OthersLater, VisitedSlot, RemovedCount;
    var id := VisitedSlot(start, |runs|, |a|);
    TickGoesOn(crowd, a, start, runs, now, b, w, c);
    SweepIsWhole(crowd, b[id], w, MAX_EXPIRED_KEYS_PER_SLOT, now, c[id]);
    assert (runs + [w])[..|runs|] == runs;
  }

  lemma SweepsAreWhole(crowd: Crowd, a: seq<SlotState>, start: nat, runs: seq<Sweeping>, now: u64, b: seq<SlotState>,
                       deleted: nat)
    requires TickSoFar(crowd, a, start, runs, now, b, deleted)
    ensures TickDoes(crowd, a, start, runs, now, b)
    ensures (forall k :: 0 <= k < |runs| ==> |runs[k].befores| == |runs[k].keys|) && deleted == TickCount(runs, now)
  {
    hide TickDoes;
  }

  lemma VisitStarts(start: nat, n: nat)
    requires start < n
    ensures VisitedSlot(start, 0, n) == start
  {
  }

  /** A tick: its time, the slots before it, the sweeps it makes in turn, and the slots after it. */
  datatype Tick = Tick(now: u64, before: seq<SlotState>, runs: seq<Sweeping>, after: seq<SlotState>)

  /** The slot at which tick i begins. */
  function TickStart(start: nat, i: nat, slotsPerTick: nat, n: nat): (id: nat)
    requires n > 0
    ensures id < n
  {
    VisitedSlot(start, i * slotsPerTick, n)
  }

  lemma NextTickStart(start: nat, i: nat, slotsPerTick: nat, n: nat)
    requires n > 0
    ensures VisitedSlot(TickStart(start, i, slotsPerTick, n), slotsPerTick, n)
            == TickStart(start, i + 1, slotsPerTick, n)
  {
    assert (i + 1) * slotsPerTick == i * slotsPerTick + slotsPerTick;
    Rotation.AddRemainder(start + i * slotsPerTick, slotsPerTick, n);
  }

  /** Each tick goes on at the slot where the one before it stopped; others write in between. */
  ghost predicate TicksInARow(crowd: Crowd, n: nat, start: nat, slotsPerTick: nat, ticks: seq<Tick>)
    requires n > 0
  {
    && (forall i {:trigger ticks[i]} :: 0 <= i < |ticks| ==>
          && |ticks[i].before| == n && |ticks[i].runs| == slotsPerTick
          && TickDoes(crowd, ticks[i].before, TickStart(start, i, slotsPerTick, n), ticks[i].runs, ticks[i].now,
                      ticks[i].after))
    && forall i :: 0 < i < |ticks| ==> AllLater(crowd, ticks[i - 1].after, ticks[i].before)
  }

  lemma NoTick(crowd: Crowd, n: nat, start: nat, slotsPerTick: nat)
    requires start < n
    ensures TicksInARow(crowd, n, start, slotsPerTick, []) && TickStart(start, 0, slotsPerTick, n) == start
  {
  }

  lemma NextTick(crowd: Crowd, n: nat, start: nat, slotsPerTick: nat, ticks: seq<Tick>, tick: Tick)
    requires n > 0 && TicksInARow(crowd, n, start, slotsPerTick, ticks) && |tick.before| == n
             && |tick.runs| == slotsPerTick
    requires ticks != [] ==> AllLater(crowd, ticks[|ticks| - 1].after, tick.before)
    requires TickDoes(crowd, tick.before, TickStart(start, |ticks|, slotsPerTick, n), tick.runs, tick.now, tick.after)
    ensures TicksInARow(crowd, n, start, slotsPerTick, ticks + [tick])
  {
    hide TickDoes, AllLater, TickStart;
  }

  /** Some sweep of the tick is one of slot j. */
  ghost predicate TickSweeps(crowd: Crowd, tick: Tick, j: nat)
    requires j < |tick.before| == |tick.after|
  {
    exists k :: 0 <= k < |tick.runs|
      && SweptBetween(crowd, tick.before[j], tick.runs[k], MAX_EXPIRED_KEYS_PER_SLOT, tick.now, tick.after[j])
  }

  lemma TurnOf(start: nat, slotsPerTick: nat, n: nat, ticks: nat, j: nat) returns (tick: nat, i: nat)
    requires slotsPerTick > 0 && j < n && ticks * slotsPerTick >= n
    ensures tick < ticks && i < slotsPerTick
    ensures VisitedSlot(TickStart(start, tick, slotsPerTick, n), i, n) == j
  {
    var m := VisitedAtLast(start, j, n);
    tick, i := m / slotsPerTick, m % slotsPerTick;
    assert m == tick * slotsPerTick + i;
    assert tick < ticks by {
      Mutators.QuotientBounds(ticks, slotsPerTick, m);
    }
    Rotation.AddRemainder(start + tick * slotsPerTick, i, n);
  }

  /** Ticks that together cover as many slots as there are sweep every slot. */
  lemma EverySlotIsSwept(crowd: Crowd, n: nat, start: nat, slotsPerTick: nat, ticks: seq<Tick>, j: nat) returns (i: nat)
    requires n > 0 && TicksInARow(crowd, n, start, slotsPerTick, ticks)
    requires slotsPerTick > 0 && j < n && |ticks| * slotsPerTick >= n
    ensures i < |ticks| && |ticks[i].before| == |ticks[i].after| == n && TickSweeps(crowd, ticks[i], j)
  {
    hide SweptBetween, Tidied, VisitedSlot, AllLater;
    var k;
    i, k := TurnOf(start, slotsPerTick, n, |ticks|, j);
    var tick := ticks[i];
    assert VisitedSlot(TickStart(start, i, slotsPerTick, n), k, n) == j;
    assert SweptBetween(crowd, tick.before[j], tick.runs[k], MAX_EXPIRED_KEYS_PER_SLOT, tick.now, tick.after[j]);
  }

  /** Without others a tick touches no live object in any slot, and sweeps each of its slots up to the quota. */
  lemma TickAtRest(a: seq<SlotState>, start: nat, runs: seq<Sweeping>, now: u64, b: seq<SlotState>)
    requires TickDoes(None, a, start, runs, now, b)
    ensures forall j :: 0 <= j < |a| ==> KeepsLive(a[j].objects, b[j].objects, now)
    ensures forall k :: 0 <= k < |runs| ==>
              var id := VisitedSlot(start, k, |a|); Swept(a[id].objects, b[id].objects, MAX_EXPIRED_KEYS_PER_SLOT, now)
  {
    hide KeepsLive, Swept, SweptBetween, VisitedSlot, ExpireKeys;
    forall j | 0 <= j < |a|
      ensures KeepsLive(a[j].objects, b[j].objects, now)
    {
      var keys: seq<string> :| b[j] == ExpireKeys(a[j], keys, now);
      TidyingKeepsLive(a[j], keys, now);
    }
    forall k | 0 <= k < |runs|
      ensures var id := VisitedSlot(start, k, |a|); Swept(a[id].objects, b[id].objects, MAX_EXPIRED_KEYS_PER_SLOT, now)
    {
      var id := VisitedSlot(start, k, |a|);
      SweepAtRest(a[id], runs[k], MAX_EXPIRED_KEYS_PER_SLOT, now, b[id]);
    }
  }

  class ExpireSweeper {
    const slots: Slots
    const slotsPerTick: nat
    const clients: Clients
    var nextSlot: nat

    ghost predicate Valid()
      reads this, slots, Binlogs(slots)
    {
      Engine.Valid(slots) && |slots| > 0 && nextSlot < |slots|
    }

    constructor (slots: Slots, slotsPerTick: nat, clients: Clients)
      requires Engine.Valid(slots) && |slots| > 0
      ensures Valid() && this.slots == slots && this.slotsPerTick == slotsPerTick && this.clients == clients
              && nextSlot == 0
    {
      this.slots := slots;
      this.slotsPerTick := slotsPerTick;
      this.clients := clients;
      nextSlot := 0;
    }

    /** One expired key, looked at again under the lock; before are the slots right then. */
    method DeleteOne(i: nat, key: string, now: u64) returns (gone: bool, ghost before: seq<SlotState>)
      requires Valid() && i < |slots|
      modifies clients, slots, Binlogs(slots)
      ensures Valid() && |before| == |slots| && AllLater(clients.crowd, old(States(slots)), before)
      ensures States(slots) == before[i := Removed(before[i], key, now)]
      ensures gone == Expiry(before[i].objects, key, now).Some?
    {
      hide AllLater, States, Engine.Valid, Apply, Expiry;
      clients.Run(slots);
      before := States(slots);
      gone := DeleteIfExpired(slots, i, key, now);
    }

    /**
     * One slot: its map is copied, up to maxKeys expired keys are picked, and each is looked at again before it goes.
     */
    method DeleteExpired(i: nat, maxKeys: nat, now: u64) returns (deleted: nat, ghost w: Sweeping)
      requires Valid() && i < |slots|
      modifies clients, slots, Binlogs(slots)
      ensures Valid() && SweptBetween(clients.crowd, old(States(slots))[i], w, maxKeys, now, States(slots)[i])
      ensures deleted == RemovedCount(w, |w.keys|, now)
      ensures OthersLater(clients.crowd, old(States(slots)), i, States(slots))
    {
      hide Later, AllLater, OthersLater, States, SweptUpTo, SweptBetween, AfterRemovals, RemovedCount, ListsExpired,
           Removed, Expiry;
      ghost var s0 := States(slots);
      clients.Run(slots);
      var seen, _ := slots[i].Snapshot();
      ghost var s1 := States(slots);
      var expiredKeys := FindExpired(seen, maxKeys, now);
      w := Sweeping(s1[i], expiredKeys, []);
      SweepStarts(clients.crowd, s0, i, w, maxKeys, now, s1);
      deleted := 0;
      for k := 0 to |expiredKeys|
        invariant Valid() && w.seen == s1[i] && w.keys == expiredKeys && |w.befores| == k
        invariant SweptUpTo(clients.crowd, w, k, maxKeys, now) && OthersLater(clients.crowd, s0, i, States(slots))
        invariant States(slots)[i] == AfterRemovals(w, k, now) && deleted == RemovedCount(w, k, now)
      {
        ghost var now0 := States(slots);
        var gone;
        ghost var before;
        gone, before := DeleteOne(i, expiredKeys[k], now);
        AtSlot(clients.crowd, now0, before, i);
        SweepGoesOn(clients.crowd, w, maxKeys, now, before[i]);
        OthersGoOn(clients.crowd, s0, i, now0, before, States(slots)[i]);
        w := w.(befores := w.befores + [before[i]]);
        if gone {
          deleted := deleted + 1;
        }
      }
      SweepEnds(clients.crowd, s0[i], w, maxKeys, now);
    }

    /** One tick: the next slots in turn are swept, and every slot is only tidied. */
    method SweepOnce(now: u64) returns (deleted: nat, ghost runs: seq<Sweeping>)
      requires Valid()
      modifies this`nextSlot, clients, slots, Binlogs(slots)
      ensures Valid() && nextSlot == VisitedSlot(old(nextSlot), slotsPerTick, |slots|)
      ensures |runs| == slotsPerTick && TickDoes(clients.crowd, old(States(slots)), old(nextSlot), runs, now,
                                                 States(slots))
      ensures (forall k :: 0 <= k < |runs| ==> |runs[k].befores| == |runs[k].keys|) && deleted == TickCount(runs, now)
    {
      hide TickSoFar, VisitedSlot, SweptBetween, OthersLater, States, RemovedCount, Engine.Valid;
      ghost var s0, start := States(slots), nextSlot;
      VisitStarts(nextSlot, |slots|);
      NoSweep(clients.crowd, s0, start, now);
      deleted, runs := 0, [];
      for i := 0 to slotsPerTick
        invariant Valid() && nextSlot == VisitedSlot(start, i, |slots|) && |runs| == i
        invariant TickSoFar(clients.crowd, s0, start, runs, now, States(slots), deleted)
      {
        ghost var s1 := States(slots);
        var more;
        ghost var w;
        more, w := DeleteExpired(nextSlot, MAX_EXPIRED_KEYS_PER_SLOT, now);
        NextSweep(clients.crowd, s0, start, runs, now, s1, w, States(slots), deleted);
        runs := runs + [w];
        deleted := deleted + more;
        Rotation.NextVisited(start, i, |slots|);
        nextSlot := (nextSlot + 1) % |slots|;
      }
      SweepsAreWhole(clients.crowd, s0, start, runs, now, States(slots), deleted);
    }

    /** The background thread: one tick after the other, at these times; others write in between. */
    method RunTicks(nows: seq<u64>) returns (ghost ticks: seq<Tick>)
      requires Valid()
      modifies this`nextSlot, clients, slots, Binlogs(slots)
      ensures Valid() && TicksInARow(clients.crowd, |slots|, old(nextSlot), slotsPerTick, ticks)
      ensures |ticks| == |nows| && forall i :: 0 <= i < |ticks| ==> ticks[i].now == nows[i]
    {
      hide TickDoes, TicksInARow, TickStart, VisitedSlot, States, AllLater, Engine.Valid;
      ghost var start := nextSlot;
      ticks := [];
      NoTick(clients.crowd, |slots|, start, slotsPerTick);
      for i := 0 to |nows|
        invariant Valid() && |ticks| == i && nextSlot == TickStart(start, i, slotsPerTick, |slots|)
        invariant TicksInARow(clients.crowd, |slots|, start, slotsPerTick, ticks)
        invariant forall k :: 0 <= k < |ticks| ==> ticks[k].now == nows[k]
        invariant i > 0 ==> ticks[i - 1].after == States(slots)
      {
        clients.Run(slots);
        ghost var s0 := States(slots);
        var _, runs := SweepOnce(nows[i]);
        ghost var tick := Tick(nows[i], s0, runs, States(slots));
        NextTick(clients.crowd, |slots|, start, slotsPerTick, ticks, tick);
        NextTickStart(start, i, slotsPerTick, |slots|);
        ticks := ticks + [tick];
      }
    }
  }
}
