/** Slots whose only key is SET to the same value again and again: the runs of the two races are made of them. */
module RepeatedSets {
  import opened Core
  import opened Binlog
  import opened HashSlot
  import opened Order
  import opened Commands
  import opened Replay
  import opened SnapshotCodec
  import opened Slave
  import opened History
  import opened Primary

  const STORED := Object(Text("v"), 0)

  function SetArgs(key: string): seq<string> {
    ["SET", key, "v"]
  }

  function SetRecord(key: string, seqNo: nat): Record {
    Record(seqNo, SetArgs(key), 1, 0)
  }

  function SetWrite(slot: nat, key: string, choose: Choice): Write {
    Write(slot, Command(SetArgs(key)), choose, 1)
  }

  lemma SetChanges(sc: Scoring, choose: Choice, key: string, m: ObjectMap)
    ensures OpChange(sc, choose, Command(SetArgs(key)), 1, m) == Some(Change(m[key := STORED], SetArgs(key), 0))
  {
    var args := SetArgs(key);
    assert Upper("SET") == "SET" && args[0] == "SET" && args[1] == key && args[2..] == ["v"] && args[2..][1..] == [];
    assert DefaultRecord(args) == args;
    assert SetEffect(["v"], 1, Live(m, key, 1)) == Store(Text("v"), 0);
    assert MutatorEffect(sc, choose, "SET", key, ["v"], 1, Live(m, key, 1)) == Store(Text("v"), 0);
  }

  lemma SetTakes149Bytes(key: string, seqNo: nat)
    requires |key| == 1
    ensures RecordBytes(SetRecord(key, seqNo)) == 149
  {
    var args := SetArgs(key);
    assert args[1..] == [key, "v"] && args[1..][1..] == ["v"] && args[1..][1..][1..] == [];
    assert ArgBytes(["v"]) == 33;
    assert ArgBytes([key, "v"]) == 66;
    assert ArgBytes(args) == 101;
  }

  lemma OneObjectIsCarried(env: Env, slot: nat, key: string)
    requires Valid(env) && env.slotOf(key) == slot
    ensures Carried(env, slot, map[key := STORED])
  {
    var m: ObjectMap := map[key := STORED];
    var keys := env.lay.order(m.Keys);
    assert m.Keys == {key} && Lists(keys, m.Keys);
    ListLength(keys, m.Keys);
    assert keys[0] == key && keys[1..] == [];
    assert ValueWords(env.lay, STORED.value) == ["v"];
    assert ObjectsWords(env.lay, keys, m) == ObjectWords(env.lay, key, STORED) + [];
  }

  function SetLog(key: string, t: nat, n: nat): (log: seq<Record>)
    requires t <= n
    ensures |log| == n - t && forall i :: 0 <= i < |log| ==> log[i] == SetRecord(key, t + i + 1)
  {
    seq(n - t, i requires 0 <= i < n - t => SetRecord(key, t + i + 1))
  }

  /** The slot after the n-th SET of its only key, the first t records being gone. */
  function SetSlot(key: string, t: nat, n: nat): SlotState
    requires t <= n
  {
    SlotState(if n == 0 then map[] else map[key := STORED], SetLog(key, t, n), n, n, true)
  }

  function SetHistory(key: string, n: nat): (c: seq<Commit>)
    ensures |c| == n && forall i :: 0 <= i < n ==> c[i] == Commit(SetRecord(key, i + 1), map[key := STORED])
  {
    seq(n, i requires 0 <= i < n => Commit(SetRecord(key, i + 1), map[key := STORED]))
  }

  /** One more SET. */
  lemma SetCommits(env: Env, n: nat, p: Primary, slot: nat, key: string, t: nat, count: nat, choose: Choice)
    requires Valid(env) && slot < n == |p.states| == |p.commits| && env.slotOf(key) == slot && FairChoice(choose)
             && t <= count < 10
    requires p.states[slot] == SetSlot(key, t, count) && p.commits[slot] == SetHistory(key, count)
    ensures ApplyWrite(env, p, SetWrite(slot, key, choose)) ==
            p.(states := p.states[slot := SetSlot(key, t, count + 1)],
               commits := p.commits[slot := SetHistory(key, count + 1)])
  {
    hide OpChange, Carried, FairChoice, IsVisitOrder, UnpacksWire;
    var m := p.states[slot].objects;
    SetChanges(env.sc, choose, key, m);
    assert m[key := STORED] == map[key := STORED];
    OneObjectIsCarried(env, slot, key);
    assert SetLog(key, t, count) + [SetRecord(key, count + 1)] == SetLog(key, t, count + 1);
    assert SetHistory(key, count) + [Commit(SetRecord(key, count + 1), map[key := STORED])]
           == SetHistory(key, count + 1);
  }

  lemma SetHistoryIsSeen(key: string, t: nat, n: nat, k: nat)
    requires t <= k <= n
    ensures Seen(SetHistory(key, n), t, SetSlot(key, t, k))
  {
    assert SetHistory(key, n)[..k] == SetHistory(key, k);
  }

  lemma SetLogBytes(key: string, t: nat, n: nat)
    requires |key| == 1 && t <= n
    ensures TotalBytes(SetLog(key, t, n)) == 149 * (n - t)
  {
    if n == t {
      assert SetLog(key, t, t) == [];
    } else {
      SetLogBytes(key, t, n - 1);
      SetTakes149Bytes(key, n);
      assert SetLog(key, t, n) == SetLog(key, t, n - 1) + [SetRecord(key, n)];
      TotalBytesSnoc(SetLog(key, t, n - 1), SetRecord(key, n));
    }
  }

  lemma EmptyHistory(key: string)
    ensures SetHistory(key, 0) == [] && SetSlot(key, 0, 0) == EMPTY_SLOT
  {
  }
}
