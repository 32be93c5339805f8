/** The client threads and the sweeper of a node at work on its slots between two looks of its replicator. */
module Clients {
  import opened Core
  import opened HashSlot
  import opened Commands
  import opened Primary
  import opened SlotWrites
  import opened Moments
  import opened Engine

  lemma UnknownChangesNothing(sc: Scoring, choose: Choice, args: seq<string>, now: u64, s: SlotState)
    requires |args| < 2 || !IsWriteCommand(args[0])
    ensures Apply(s, Commands.Run(sc, choose, args, now, s.objects).change, now) == s
  {
  }

  lemma DelDeletes(sc: Scoring, choose: Choice, args: seq<string>, now: u64, m: ObjectMap)
    requires |args| >= 2 && IsWriteCommand(args[0]) && Upper(args[0]) == "DEL"
    ensures Commands.Run(sc, choose, args, now, m).change == Deletion(m, args[1], now)
  {
  }

  /** One write of a client or of the sweeper. */
  method Perform(slot: HashSlot, sc: Scoring, w: Write)
    requires slot.Valid()
    modifies slot, slot.binlog
    ensures slot.Valid() && slot.State() == Written(sc, old(slot.State()), w)
  {
    hide Commands.Run, Upper, Apply;
    match w.op
    case Sweep(key) => var _ := slot.DeleteIfExpired(key, w.now);
    case Command(args) =>
      if |args| < 2 || !IsWriteCommand(args[0]) {
        UnknownChangesNothing(sc, w.choose, args, w.now, slot.State());
      } else if Upper(args[0]) == "DEL" {
        DelDeletes(sc, w.choose, args, w.now, slot.objects);
        var _ := slot.Del(args[1], w.now);
      } else {
        var _ := Execute(slot, sc, w.choose, args, w.now);
      }
  }

  class Clients {
    /** None if nobody is there. */
    const crowd: Crowd

    /** What they will write, one batch at a time. */
    var todo: seq<seq<Write>>

    /** What they have written to each slot. */
    ghost var made: nat -> seq<Write>

    constructor (crowd: Crowd, todo: seq<seq<Write>>)
      ensures this.crowd == crowd && this.todo == todo && forall id :: made(id) == []
    {
      this.crowd := crowd;
      this.todo := todo;
      made := _ => [];
    }

    /** The slots at this moment. */
    ghost function Now(slots: Slots): (ms: seq<Moment>)
      reads this, slots, Binlogs(slots)
      ensures |ms| == |slots| && StatesOf(ms) == States(slots)
      ensures forall i :: 0 <= i < |slots| ==> ms[i] == Moment(slots[i].State(), made(i))
    {
      seq(|slots|, i requires 0 <= i < |slots| reads this, slots, Binlogs(slots) => Moment(slots[i].State(), made(i)))
    }

    method OneWrite(slots: Slots, w: Write)
      requires Engine.Valid(slots) && w.slot < |slots| && crowd.Some?
      modifies `made, slots[w.slot], slots[w.slot].binlog
      ensures Engine.Valid(slots) && AllReach(crowd, old(Now(slots)), Now(slots))
    {
      hide Reaches, Written;
      assert forall j :: 0 <= j < |slots| && j != w.slot ==>
             slots[j] != slots[w.slot] && slots[j].binlog != slots[w.slot].binlog;
      ghost var before, was := Now(slots), made;
      AllReachSelf(crowd, before);
      ReachesByOne(crowd.value, before[w.slot], w);
      Perform(slots[w.slot], crowd.value, w);
      made := (id: nat) => if id == w.slot then was(id) + [w] else was(id);
    }

    /** The next batch: whole writes, each to a slot of its own. */
    method Run(slots: Slots)
      requires Engine.Valid(slots)
      modifies this, slots, Binlogs(slots)
      ensures Engine.Valid(slots) && AllReach(crowd, old(Now(slots)), Now(slots))
      ensures AllLater(crowd, old(States(slots)), States(slots))
    {
      hide Reaches, Later, Written, States, Now;
      AllReachSelf(crowd, Now(slots));
      ghost var s0 := Now(slots);
      if crowd.Some? && todo != [] {
        var batch := todo[0];
        todo := todo[1..];
        for i := 0 to |batch|
          invariant Engine.Valid(slots) && AllReach(crowd, s0, Now(slots))
        {
          if batch[i].slot < |slots| {
            ghost var before := Now(slots);
            OneWrite(slots, batch[i]);
            AllReachOn(crowd, s0, before, Now(slots));
          }
        }
      }
      ReachedIsLater(crowd, s0, Now(slots));
    }
  }
}
