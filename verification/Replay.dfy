/** Replay of a logged write on a replica slot (src/repl/slave_replicator.cpp, ApplyRecord), and its exactness. */
module Replay {
  import opened Core
  import opened HashSlot
  import opened Commands
  import opened Numbers

  /** What a replica needs to know to replay: the slot function, score rules, its own random choice and clock. */
  datatype Context = Context(slotOf: string -> nat, sc: Scoring, choose: Choice, clock: u64)

  /** The slot after one record, or None when the replica must refuse it. */
  function ApplyRecord(cx: Context, slot: nat, s: SlotState, r: Record): Option<SlotState> {
    if |r.args| < 2 || cx.slotOf(r.args[1]) != slot || !IsWriteCommand(r.args[0]) then None
    else if Upper(r.args[0]) == "DEL" then
      if |r.args| != 2 then None else Some(Apply(s, Deletion(s.objects, r.args[1], 0), 0))
    else
      var time := if r.writtenAt != 0 then r.writtenAt else cx.clock;
      var outcome := Run(cx.sc, cx.choose, r.args, time, s.objects);
      if outcome.failed then None
      else
        var after := Apply(s, outcome.change, time);
        if r.writtenAt == 0 then Some(after)
        else Some(after.(objects := WithDeadline(after.objects, r.args[1], r.deadline)))
  }

  /** The ways a primary slot is written: a command on its key, or the physical removal of an expired key. */
  datatype Op = Command(args: seq<string>) | Sweep(key: string)

  function OpKey(op: Op): string {
    match op
    case Command(args) => if |args| >= 2 then args[1] else ""
    case Sweep(key) => key
  }

  function OpChange(sc: Scoring, choose: Choice, op: Op, now: u64, m: ObjectMap): Option<Change> {
    match op
    case Command(args) => Run(sc, choose, args, now, m).change
    case Sweep(key) => Expiry(m, key, now)
  }

  /** Replaying r on a slot that holds `before` gives `after`, one number further, on any replica and at any clock. */
  ghost predicate Replays(slotOf: string -> nat, sc: Scoring, slot: nat, before: ObjectMap, r: Record, after: ObjectMap)
  {
    forall choose: Choice, clock: u64, s: SlotState
      {:trigger ApplyRecord(Context(slotOf, sc, choose, clock), slot, s, r)} ::
      s.objects == before && !s.logWrites && s.slotSeq == s.published ==>
        ApplyRecord(Context(slotOf, sc, choose, clock), slot, s, r)
        == Some(SlotState(after, s.log, s.slotSeq + 1, s.slotSeq + 1, false))
  }

  /** The record that the slot logs for this change. */
  function LoggedAs(c: Change, seqNo: nat, now: u64): Record {
    Record(seqNo, c.args, now, c.deadline)
  }

  lemma WriteNames(name: string)
    requires name in {"DEL", "EXPIRE", "SREM"}
    ensures Upper(name) == name && IsWriteCommand(name)
  {
    assert Upper("DEL") == "DEL" && Upper("EXPIRE") == "EXPIRE" && Upper("SREM") == "SREM";
  }

  lemma DelReplays(slotOf: string -> nat, sc: Scoring, slot: nat, m: ObjectMap, key: string, seqNo: nat, now: u64)
    requires slotOf(key) == slot && key in m
    ensures Replays(slotOf, sc, slot, m, Record(seqNo, ["DEL", key], now, 0), m - {key})
  {
    WriteNames("DEL");
  }

  lemma ExpireReplays(slotOf: string -> nat, sc: Scoring, slot: nat, m: ObjectMap, key: string, seconds: int,
                      seqNo: nat, now: u64)
    requires slotOf(key) == slot && 0 < seconds <= I64_MAX && now != 0
    requires Live(m, key, now).Some?
    ensures var c := Expiration(m, key, seconds, now).value;
            Replays(slotOf, sc, slot, m, LoggedAs(c, seqNo, now), c.objects)
  {
    WriteNames("EXPIRE");
    ParseInt64OfDecimal(seconds);
    var c := Expiration(m, key, seconds, now).value;
    assert WithDeadline(c.objects, key, c.deadline) == c.objects;
  }

  /** A deadline that the record repeats is already on the stored object. */
  lemma DeadlineRepeats(m: ObjectMap, key: string, args: seq<string>, now: u64, result: MutationResult)
    ensures var c := Mutation(m, key, args, now, result);
            c.Some? ==> WithDeadline(c.value.objects, key, c.value.deadline) == c.value.objects
  {
  }

  /** SPOP is the only command that depends on the random choice, and the only one whose mutator names its record. */
  lemma EffectIgnoresChoice(sc: Scoring, choose: Choice, choose': Choice, name: string, key: string, words: seq<string>,
                            now: u64, existing: Option<Object>)
    requires ArityOk(name, |words| + 2) && name != "SPOP"
    ensures MutatorEffect(sc, choose', name, key, words, now, existing)
            == MutatorEffect(sc, choose, name, key, words, now, existing)
    ensures MutatorEffect(sc, choose, name, key, words, now, existing).result.record == None
  {
  }

  /** A command that its mutator changes the object by never answers with an error. */
  lemma ChangeMeansSuccess(sc: Scoring, choose: Choice, name: string, key: string, words: seq<string>, now: u64,
                           existing: Option<Object>)
    requires ArityOk(name, |words| + 2)
    ensures var e := MutatorEffect(sc, choose, name, key, words, now, existing); e.result.changed ==> !e.failed
  {
  }

  /** If the logged words run to the same change under every choice, the record replays. */
  lemma RunReplays(slotOf: string -> nat, sc: Scoring, slot: nat, m: ObjectMap, args: seq<string>, c: Change,
                   seqNo: nat, now: u64)
    requires |args| >= 2 && slotOf(args[1]) == slot && now != 0
    requires IsWriteCommand(args[0]) && Upper(args[0]) != "DEL"
    requires forall choose: Choice {:trigger Run(sc, choose, args, now, m)} ::
               Run(sc, choose, args, now, m) == Outcome(Some(c), false)
    requires WithDeadline(c.objects, args[1], c.deadline) == c.objects
    ensures Replays(slotOf, sc, slot, m, Record(seqNo, args, now, c.deadline), c.objects)
  {
  }

  lemma SremRuns(sc: Scoring, choose: Choice, m: ObjectMap, key: string, picked: seq<string>, now: u64)
    requires Live(m, key, now).Some? && m[key].value.Members? && picked != []
    requires forall x :: x in picked ==> x in m[key].value.members
    ensures var next := m[key].value.members - WordSet(picked);
            Run(sc, choose, ["SREM", key] + picked, now, m) == Outcome(Some(
              if next == {} then Change(m - {key}, ["SREM", key] + picked, 0)
              else Change(m[key := Object(Members(next), m[key].deadline)], ["SREM", key] + picked, m[key].deadline)),
                false)
  {
    WriteNames("SREM");
    var args := ["SREM", key] + picked;
    assert args[0] == "SREM" && args[1] == key && args[2..] == picked && DefaultRecord(args) == args;
    assert picked[0] in m[key].value.members && picked[0] in WordSet(picked);
    var members := m[key].value.members;
    assert members - WordSet(picked) != members;
    var effect := SetRemEffect(picked, Some(m[key]));
    assert MutatorEffect(sc, choose, "SREM", key, picked, now, Some(m[key])) == effect;
  }

  /** The removal that SPOP logs, replayed, erases exactly the members that were popped. */
  lemma PopReplays(slotOf: string -> nat, sc: Scoring, choose: Choice, slot: nat, m: ObjectMap, key: string, count: nat,
                   args: seq<string>, seqNo: nat, now: u64)
    requires slotOf(key) == slot && now != 0 && count > 0 && FairChoice(choose)
    ensures var c := Mutation(m, key, args, now, PopEffect(choose, key, count, Live(m, key, now)).result);
            c.Some? ==> Replays(slotOf, sc, slot, m, LoggedAs(c.value, seqNo, now), c.value.objects)
  {
    var effect := PopEffect(choose, key, count, Live(m, key, now));
    var c := Mutation(m, key, args, now, effect.result);
    if c.Some? {
      WriteNames("SREM");
      var picked := choose(m[key].value.members, count);
      var logged := ["SREM", key] + picked;
      assert logged[0] == "SREM" && logged[1] == key;
      forall choose': Choice
        ensures Run(sc, choose', logged, now, m) == Outcome(c, false)
      {
        SremRuns(sc, choose', m, key, picked, now);
      }
      DeadlineRepeats(m, key, args, now, effect.result);
      RunReplays(slotOf, sc, slot, m, logged, c.value, seqNo, now);
    }
  }

  lemma RunAgain(sc: Scoring, choose: Choice, choose': Choice, m: ObjectMap, args: seq<string>, now: u64)
    requires |args| >= 2 && Upper(args[0]) !in {"DEL", "EXPIRE", "SPOP"}
    ensures var c := Run(sc, choose, args, now, m).change;
            c.Some? ==>
              c.value.args == DefaultRecord(args) && Run(sc, choose', DefaultRecord(args), now, m) == Outcome(c, false)
  {
    hide MutatorEffect, Expiration, Deletion;
    var c := Run(sc, choose, args, now, m).change;
    if c.Some? {
      var logged := DefaultRecord(args);
      var name, existing := Upper(args[0]), Live(m, args[1], now);
      UpperTwice(args[0]);
      assert logged[1] == args[1] && logged[2..] == args[2..] && DefaultRecord(logged) == logged;
      ChangeMeansSuccess(sc, choose, name, args[1], args[2..], now, existing);
      EffectIgnoresChoice(sc, choose, choose', name, args[1], args[2..], now, existing);
    }
  }

  /** Any other command is logged as itself and, run again at the same time on the same map, does the same. */
  lemma CommandReplays(slotOf: string -> nat, sc: Scoring, choose: Choice, slot: nat, m: ObjectMap, args: seq<string>,
                       seqNo: nat, now: u64)
    requires |args| >= 2 && slotOf(args[1]) == slot && now != 0 && Upper(args[0]) !in {"DEL", "EXPIRE", "SPOP"}
    ensures var c := Run(sc, choose, args, now, m).change;
            c.Some? ==> Replays(slotOf, sc, slot, m, LoggedAs(c.value, seqNo, now), c.value.objects)
  {
    var c := Run(sc, choose, args, now, m).change;
    if c.Some? {
      var logged := DefaultRecord(args);
      UpperTwice(args[0]);
      forall choose': Choice
        ensures Run(sc, choose', logged, now, m) == Outcome(c, false) && c.value.args == logged
      {
        RunAgain(sc, choose, choose', m, args, now);
      }
      var effect := MutatorEffect(sc, choose, Upper(args[0]), args[1], args[2..], now, Live(m, args[1], now));
      DeadlineRepeats(m, args[1], DefaultRecord(args), now, effect.result);
      assert c.value.args == logged by { RunAgain(sc, choose, choose, m, args, now); }
      RunReplays(slotOf, sc, slot, m, logged, c.value, seqNo, now);
    }
  }

  /**
   * Replay exactness: whatever a primary slot commits, its record takes any replica that holds the same map to
   * the same next map, deadlines included, whatever the replica's clock and random choices.
   */
  lemma ReplayIsExact(slotOf: string -> nat, sc: Scoring, choose: Choice, slot: nat, m: ObjectMap, op: Op, seqNo: nat,
                      now: u64)
    requires slotOf(OpKey(op)) == slot && now != 0 && FairChoice(choose)
    ensures var c := OpChange(sc, choose, op, now, m);
            c.Some? ==> Replays(slotOf, sc, slot, m, LoggedAs(c.value, seqNo, now), c.value.objects)
  {
    var c := OpChange(sc, choose, op, now, m);
    if c.Some? {
      match op
      case Sweep(key) => DelReplays(slotOf, sc, slot, m, key, seqNo, now);
      case Command(args) =>
        var name := Upper(args[0]);
        if name == "DEL" {
          DelReplays(slotOf, sc, slot, m, args[1], seqNo, now);
        } else if name == "EXPIRE" {
          var seconds := ParseInt64(args[2]).value;
          if seconds <= 0 {
            DelReplays(slotOf, sc, slot, m, args[1], seqNo, now);
          } else {
            ExpireReplays(slotOf, sc, slot, m, args[1], seconds, seqNo, now);
          }
        } else if name == "SPOP" {
          var count := (if args[2..] == [] then Some(1) else ParseInt64(args[2])).value;
          PopReplays(slotOf, sc, choose, slot, m, args[1], count, DefaultRecord(args), seqNo, now);
        } else {
          CommandReplays(slotOf, sc, choose, slot, m, args, seqNo, now);
        }
    }
  }

  /** Every write at this time, on every map, replays exactly. */
  ghost predicate ExactAt(slotOf: string -> nat, sc: Scoring, slot: nat, now: u64) {
    forall choose: Choice, m: ObjectMap, op: Op, seqNo: nat {:trigger OpChange(sc, choose, op, now, m), LoggedAs(
      OpChange(sc, choose, op, now, m).value, seqNo, now)} ::
      FairChoice(choose) && slotOf(OpKey(op)) == slot && OpChange(sc, choose, op, now, m).Some? ==>
        var c := OpChange(sc, choose, op, now, m).value;
        Replays(slotOf, sc, slot, m, LoggedAs(c, seqNo, now), c.objects)
  }

  lemma TimedSetRuns(sc: Scoring, choose: Choice, key: string, t: u64)
    requires t <= 1
    ensures var args := ["SET", key, "v", "EX", "1"];
            Run(sc, choose, args, t, map[]) ==
            Outcome(Some(Change(map[key := Object(Text("v"), t + 1_000_000)], args, t + 1_000_000)), false)
  {
    var args := ["SET", key, "v", "EX", "1"];
    var words := args[2..];
    assert Upper("SET") == "SET" && Upper("EX") == "EX" && words[1..] == ["EX", "1"] && words[1..][2..] == [];
    assert Decimal(1) == "1" && DecimalOfInt(1) == "1";
    ParseInt64OfDecimal(1);
    assert DefaultRecord(args) == args;
    assert ExpiryDeadline("EX", "1", t) == Some(t + 1_000_000);
    assert SetOptionsFrom(["EX", "1"], t, false, NO_SET_OPTIONS) == Some(NO_SET_OPTIONS.(deadline := t + 1_000_000));
    assert MutatorEffect(sc, choose, "SET", key, words, t, None) == Store(Text("v"), t + 1_000_000);
  }

  /** SET key v EX 1 at time 0 is replayed on the replica's clock, which moves the deadline. */
  lemma UntimedSetDiverges(slotOf: string -> nat, sc: Scoring, choose: Choice, slot: nat, key: string)
    requires slotOf(key) == slot
    ensures var c := OpChange(sc, choose, Command(["SET", key, "v", "EX", "1"]), 0, map[]);
            c.Some? && !Replays(slotOf, sc, slot, map[], LoggedAs(c.value, 1, 0), c.value.objects)
  {
    hide Run;
    var args := ["SET", key, "v", "EX", "1"];
    TimedSetRuns(sc, choose, key, 0);
    TimedSetRuns(sc, choose, key, 1);
    assert Upper("SET") == "SET";
    var c := OpChange(sc, choose, Command(args), 0, map[]).value;
    var s := SlotState(map[], [], 0, 0, false);
    var after := ApplyRecord(Context(slotOf, sc, choose, 1), slot, s, LoggedAs(c, 1, 0));
    assert after.value.objects[key].deadline == 1_000_001 != c.objects[key].deadline;
  }

  /** Replay is exact for every write at a given time exactly when that time is not 0. */
  lemma ReplayIsExactIffTimed(slotOf: string -> nat, sc: Scoring, choose: Choice, slot: nat, key: string, now: u64)
    requires slotOf(key) == slot && FairChoice(choose)
    ensures ExactAt(slotOf, sc, slot, now) <==> now != 0
  {
    if now == 0 {
      UntimedSetDiverges(slotOf, sc, choose, slot, key);
      var op := Command(["SET", key, "v", "EX", "1"]);
      assert OpKey(op) == key;
      var c := OpChange(sc, choose, op, now, map[]);
      var r := LoggedAs(c.value, 1, now);
    } else {
      forall choose': Choice, m: ObjectMap, op: Op, seqNo: nat
        ensures FairChoice(choose') && slotOf(OpKey(op)) == slot && OpChange(sc, choose', op, now, m).Some? ==>
                  var c := OpChange(sc, choose', op, now, m).value;
                  Replays(slotOf, sc, slot, m, LoggedAs(c, seqNo, now), c.objects)
      {
        if FairChoice(choose') && slotOf(OpKey(op)) == slot {
          ReplayIsExact(slotOf, sc, choose', slot, m, op, seqNo, now);
        }
      }
    }
  }

  /** A write changes no key but its own. */
  lemma ChangeStaysOnKey(sc: Scoring, choose: Choice, op: Op, now: u64, m: ObjectMap, k: string)
    requires OpChange(sc, choose, op, now, m).Some? && k != OpKey(op)
    ensures var after := OpChange(sc, choose, op, now, m).value.objects;
            (k in after <==> k in m) && (k in m ==> after[k] == m[k])
  {
  }
}
