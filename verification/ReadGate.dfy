/** Reads on a replica (src/command/command_dispatcher.cpp:117-136): only Online slots can show in an answer. */
module ReadGate {
  import opened Core
  import opened Order
  import opened Commands
  import opened Scan
  import opened Slave
  import opened History
  import opened Agreement

  /** The registered commands that only read. */
  const READ_COMMANDS: set<string> := {
    "GET", "MGET", "STRLEN", "HGET", "HEXISTS", "HLEN", "HSTRLEN", "HMGET", "HGETALL", "HKEYS", "HVALS", "SISMEMBER",
    "SCARD", "SMEMBERS", "SMISMEMBER", "SRANDMEMBER", "ZSCORE", "ZCARD", "ZRANK", "ZREVRANK", "ZCOUNT", "ZRANGE",
    "EXISTS", "TYPE", "PTTL", "SCAN", "TTL" }

  predicate ReadArityOk(name: string, n: nat) {
    if name == "MGET" || name == "EXISTS" || name == "SCAN" then n >= 2
    else if name == "HMGET" || name == "SMISMEMBER" then n >= 3
    else if name == "ZRANGE" then n >= 4
    else if name == "ZCOUNT" then n == 4
    else if name == "SRANDMEMBER" then n == 2 || n == 3
    else if name in {"HGET", "HEXISTS", "HSTRLEN", "SISMEMBER", "ZSCORE", "ZRANK", "ZREVRANK"} then n == 3
    else n == 2
  }

  /** The registry's flag: every argument is a key. */
  predicate MultiKey(name: string) {
    name == "MGET" || name == "EXISTS"
  }

  /** The keys that the command's code looks up. */
  function LookedUp(name: string, args: seq<string>): seq<string>
    requires |args| >= 2
  {
    if name == "MGET" || name == "EXISTS" then args[1..] else [args[1]]
  }

  function LiveObjects(slotOf: string -> nat, views: seq<ObjectMap>, keys: seq<string>, now: u64): seq<Option<Object>>
    requires forall k :: k in keys ==> slotOf(k) < |views|
  {
    if keys == [] then []
    else [Live(views[slotOf(keys[0])], keys[0], now)] + LiveObjects(slotOf, views, keys[1..], now)
  }

  datatype Answer =
    | EmptyCommand | UnknownCommand | ReadOnlyReplica | WrongArity | TryAgain | BadScan
    | Scanned(cursor: nat, keys: seq<string>)
    | Read(reply: string)

  /** What a read command answers from its arguments, its time and the live objects of its keys. */
  type Reader = (seq<string>, u64, seq<Option<Object>>) -> string

  datatype Engine = Engine(slotOf: string -> nat, order: VisitOrder, reader: Reader)

  ghost predicate SlotsExist(e: Engine, n: nat) {
    forall k {:trigger e.slotOf(k)} :: e.slotOf(k) < n
  }

  /** A SCAN call that stops at the first slot that may not be read; `found` are the keys of the slots before. */
  function GatedScan(order: VisitOrder, views: seq<ObjectMap>, o: ScanOptions, now: u64, slot: nat, scanned: nat,
                     canRead: nat -> bool, found: seq<string>): Answer
    requires slot < |views|
    decreases |views| - slot
  {
    if !canRead(slot) then TryAgain
    else
      var keys := order(views[slot].Keys);
      var seen := scanned + LiveAmong(views[slot], keys, now);
      var more := found + WantedAmong(o, views[slot], keys, now);
      if slot + 1 == |views| then Scanned(0, more)
      else if seen >= o.count then Scanned(slot + 1, more)
      else GatedScan(order, views, o, now, slot + 1, seen, canRead, more)
  }

  function ScanAnswer(order: VisitOrder, views: seq<ObjectMap>, words: seq<string>, now: u64, canRead: nat -> bool)
      : Answer
    requires words != []
  {
    match ParseScan(words, |views|)
    case None => BadScan
    case Some(o) => GatedScan(order, views, o, now, o.cursor, 0, canRead, [])
  }

  /** The gated call is the call of the SCAN command, refused when it would visit a slot that may not be read. */
  lemma {:induction false} GatedScanIsScan(order: VisitOrder, views: seq<ObjectMap>, o: ScanOptions, now: u64,
                                           slot: nat, scanned: nat, canRead: nat -> bool, found: seq<string>)
    requires slot < |views|
    ensures var (stop, keys) := ScanFrom(order, views, o, now, slot, scanned);
            GatedScan(order, views, o, now, slot, scanned, canRead, found) ==
              if exists s :: slot <= s < stop && !canRead(s) then TryAgain
              else Scanned(if stop == |views| then 0 else stop, found + keys)
    decreases |views| - slot
  {
    hide LiveAmong, WantedAmong, ScanFrom;
    ScanRound(order, views, o, now, slot, scanned);
    var keys := order(views[slot].Keys);
    var seen := scanned + LiveAmong(views[slot], keys, now);
    var here := WantedAmong(o, views[slot], keys, now);
    if canRead(slot) && slot + 1 < |views| && seen < o.count {
      GatedScanIsScan(order, views, o, now, slot + 1, seen, canRead, found + here);
      var (stop, rest) := ScanFrom(order, views, o, now, slot + 1, seen);
      assert found + (here + rest) == (found + here) + rest;
    }
  }

  ghost predicate Gated(slotOf: string -> nat, keys: seq<string>, canRead: nat -> bool) {
    forall k :: k in keys ==> canRead(slotOf(k))
  }

  /** ExecuteReadOnly. */
  ghost function ReadOnly(e: Engine, views: seq<ObjectMap>, args: seq<string>, now: u64, canRead: nat -> bool): Answer
    requires SlotsExist(e, |views|)
  {
    if args == [] then EmptyCommand
    else
      var name := Upper(args[0]);
      if name in WRITE_COMMANDS then ReadOnlyReplica
      else if name !in READ_COMMANDS then UnknownCommand
      else if !ReadArityOk(name, |args|) then WrongArity
      else if name == "SCAN" then ScanAnswer(e.order, views, args[1..], now, canRead)
      else if !Gated(e.slotOf, args[1..if MultiKey(name) then |args| else 2], canRead) then TryAgain
      else Read(e.reader(args, now, LiveObjects(e.slotOf, views, LookedUp(name, args), now)))
  }

  method RunScan(order: VisitOrder, views: seq<ObjectMap>, words: seq<string>, now: u64, canRead: nat -> bool)
    returns (answer: Answer)
    requires words != []
    ensures answer == ScanAnswer(order, views, words, now, canRead)
  {
    hide GatedScan, ScanFrom;
    var o := ParseOptions(words, |views|);
    if o.None? {
      return BadScan;
    }
    var reply := ExecuteScan(order, views, o.value, now, canRead);
    GatedScanIsScan(order, views, o.value, now, o.value.cursor, 0, canRead, []);
    assert [] + ScanFrom(order, views, o.value, now, o.value.cursor, 0).1
           == ScanFrom(order, views, o.value, now, o.value.cursor, 0).1;
    return if reply.Syncing? then TryAgain else Scanned(reply.cursor, reply.keys);
  }

  lemma ArityLeavesAKey(name: string, n: nat)
    ensures ReadArityOk(name, n) ==> n >= 2
  {
  }

  /** The dispatcher's loop: the keys in order, up to the first whose slot may not be read. */
  method ExecuteReadOnly(e: Engine, views: seq<ObjectMap>, args: seq<string>, now: u64, canRead: nat -> bool)
    returns (answer: Answer)
    requires SlotsExist(e, |views|)
    ensures answer == ReadOnly(e, views, args, now, canRead)
  {
    hide Upper, LiveObjects, ReadArityOk, GatedScan;
    if args == [] {
      return EmptyCommand;
    }
    var name := Upper(args[0]);
    if name in WRITE_COMMANDS {
      return ReadOnlyReplica;
    }
    if name !in READ_COMMANDS {
      return UnknownCommand;
    }
    if !ReadArityOk(name, |args|) {
      return WrongArity;
    }
    ArityLeavesAKey(name, |args|);
    if name == "SCAN" {
      answer := RunScan(e.order, views, args[1..], now, canRead);
      return;
    }
    var end := if MultiKey(name) then |args| else 2;
    var i := 1;
    while i < end
      invariant 1 <= i <= end && forall j :: 1 <= j < i ==> canRead(e.slotOf(args[j]))
    {
      if !canRead(e.slotOf(args[i])) {
        assert args[i] == args[1..end][i - 1] && args[i] in args[1..end];
        return TryAgain;
      }
      i := i + 1;
    }
    return Read(e.reader(args, now, LiveObjects(e.slotOf, views, LookedUp(name, args), now)));
  }

  // ---- only readable slots show

  /** The two engines hold the same in every slot that may be read. */
  ghost predicate SameReadable(views: seq<ObjectMap>, views': seq<ObjectMap>, canRead: nat -> bool) {
    |views| == |views'| && forall s :: 0 <= s < |views| && canRead(s) ==> views[s] == views'[s]
  }

  lemma {:induction false} SameLookups(slotOf: string -> nat, views: seq<ObjectMap>, views': seq<ObjectMap>,
                                       keys: seq<string>, now: u64, canRead: nat -> bool)
    requires SameReadable(views, views', canRead) && forall k :: k in keys ==> slotOf(k) < |views| && canRead(slotOf(k))
    ensures LiveObjects(slotOf, views, keys, now) == LiveObjects(slotOf, views', keys, now)
  {
    if keys == [] {
    } else {
      SameLookups(slotOf, views, views', keys[1..], now, canRead);
    }
  }

  lemma {:induction false} SameScan(order: VisitOrder, views: seq<ObjectMap>, views': seq<ObjectMap>, o: ScanOptions,
                                    now: u64, slot: nat, scanned: nat, canRead: nat -> bool, found: seq<string>)
    requires SameReadable(views, views', canRead) && slot < |views|
    ensures GatedScan(order, views, o, now, slot, scanned, canRead, found)
            == GatedScan(order, views', o, now, slot, scanned, canRead, found)
    decreases |views| - slot
  {
    hide LiveAmong, WantedAmong;
    var keys := order(views[slot].Keys);
    var seen := scanned + LiveAmong(views[slot], keys, now);
    if canRead(slot) && slot + 1 < |views| && seen < o.count {
      SameScan(order, views, views', o, now, slot + 1, seen, canRead, found + WantedAmong(o, views[slot], keys, now));
    }
  }

  /** Two engines that agree on every readable slot give the same answer to every command. */
  lemma ReadsShowOnlyReadableSlots(e: Engine, views: seq<ObjectMap>, views': seq<ObjectMap>, args: seq<string>,
                                   now: u64, canRead: nat -> bool)
    requires SlotsExist(e, |views|) && SameReadable(views, views', canRead)
    ensures ReadOnly(e, views, args, now, canRead) == ReadOnly(e, views', args, now, canRead)
  {
    hide Upper, LiveObjects, GatedScan, Wanted;
    if args != [] {
      var name := Upper(args[0]);
      if name !in WRITE_COMMANDS && name in READ_COMMANDS && ReadArityOk(name, |args|) {
        ArityLeavesAKey(name, |args|);
        if name == "SCAN" {
          var o := ParseScan(args[1..], |views|);
          if o.Some? {
            SameScan(e.order, views, views', o.value, now, o.value.cursor, 0, canRead, []);
          }
        } else {
          var keys := LookedUp(name, args);
          assert args[1..2] == [args[1]] && args[1..|args|] == args[1..];
          assert keys == args[1..if MultiKey(name) then |args| else 2];
          if Gated(e.slotOf, keys, canRead) {
            SameLookups(e.slotOf, views, views', keys, now, canRead);
          }
        }
      }
    }
  }

  // ---- what a replica answers

  function EngineMaps(r: Replica): (views: seq<ObjectMap>)
    ensures |views| == |r.slots| && forall i :: 0 <= i < |r.slots| ==> views[i] == r.slots[i].engine.objects
  {
    seq(|r.slots|, i requires 0 <= i < |r.slots| => r.slots[i].engine.objects)
  }

  predicate CanReadSlot(r: Replica, slot: nat) {
    slot < |r.slots| && r.slots[slot].status == Online
  }

  /** The primary itself may read every slot. */
  predicate Anywhere(slot: nat) {
    true
  }

  /** A gate only ever refuses: an answer that it lets through is the answer without it. */
  lemma GateOnlyRefuses(e: Engine, views: seq<ObjectMap>, args: seq<string>, now: u64, canRead: nat -> bool)
    requires SlotsExist(e, |views|)
    ensures var answer := ReadOnly(e, views, args, now, canRead);
            answer == TryAgain || answer == ReadOnly(e, views, args, now, Anywhere)
  {
    hide Upper, LiveObjects, GatedScan, ScanFrom, ReadArityOk;
    if args != [] && Upper(args[0]) == "SCAN" && |args| >= 2 {
      var o := ParseScan(args[1..], |views|);
      if o.Some? {
        GatedScanIsScan(e.order, views, o.value, now, o.value.cursor, 0, canRead, []);
        GatedScanIsScan(e.order, views, o.value, now, o.value.cursor, 0, Anywhere, []);
      }
    } else if args != [] {
      ArityLeavesAKey(Upper(args[0]), |args|);
    }
  }

  /**
   * Whatever a replica that agrees with its primary answers is what the primary itself would have answered, ungated,
   * with every slot taken right after some write of its own, no matter what the slots that are not Online hold; or it
   * is the refusal of a slot that is not readable yet.
   */
  lemma ReplicaAnswersFromHistory(e: Engine, cs: seq<seq<Commit>>, r: Replica, past: seq<ObjectMap>, args: seq<string>,
                                  now: u64)
    requires SlotsExist(e, |r.slots|) && Agrees(cs, r) && |past| == |cs|
    requires forall i :: 0 <= i < |cs| && r.slots[i].status == Online ==> past[i] == MapAt(cs[i], r.slots[i].applied)
    ensures var answer := ReadOnly(e, EngineMaps(r), args, now, (s: nat) => CanReadSlot(r, s));
            answer == TryAgain || answer == ReadOnly(e, past, args, now, Anywhere)
  {
    hide ReadOnly;
    ReadsShowOnlyReadableSlots(e, EngineMaps(r), past, args, now, (s: nat) => CanReadSlot(r, s));
    GateOnlyRefuses(e, past, args, now, (s: nat) => CanReadSlot(r, s));
  }
}
