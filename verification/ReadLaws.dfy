/** What reads see, told by their words and what is stored: one-key and many-key reads and SCAN. */
module ReadLaws {
  import opened Core
  import opened Numbers
  import opened Order
  import opened Commands
  import opened Scan
  import opened ReadGate
  import opened Glob
  import HashSlot

  // ---- reads by key

  /** What a reader is to find of a key: the object in the key's own slot, unless its deadline has passed. */
  function Visible(e: Engine, views: seq<ObjectMap>, key: string, now: u64): Option<Object>
    requires e.slotOf(key) < |views|
  {
    var m := views[e.slotOf(key)];
    if HashSlot.Alive(m, key, now) then Some(m[key]) else None
  }

  /** The object of each key, in the order of the keys. */
  lemma {:induction false} EachKeyIsLookedUp(e: Engine, views: seq<ObjectMap>, keys: seq<string>, now: u64)
    requires SlotsExist(e, |views|)
    ensures LiveObjects(e.slotOf, views, keys, now)
            == seq(|keys|, i requires 0 <= i < |keys| => Visible(e, views, keys[i], now))
  {
    if keys == [] {
    } else {
      EachKeyIsLookedUp(e, views, keys[1..], now);
    }
  }

  lemma SingleLookup(e: Engine, views: seq<ObjectMap>, key: string, now: u64)
    requires SlotsExist(e, |views|)
    ensures LiveObjects(e.slotOf, views, [key], now) == [Visible(e, views, key, now)]
  {
    EachKeyIsLookedUp(e, views, [key], now);
  }

  predicate NamesOneKeyRead(name: string, n: nat) {
    || (n == 2 && name in {"GET", "STRLEN", "HLEN", "HGETALL", "HKEYS", "HVALS", "SCARD", "SMEMBERS", "SRANDMEMBER",
                           "ZCARD", "TYPE", "TTL", "PTTL"})
    || (n == 3 && name in {"HGET", "HEXISTS", "HSTRLEN", "SISMEMBER", "SRANDMEMBER", "ZSCORE", "ZRANK", "ZREVRANK"})
    || (n == 4 && name == "ZCOUNT")
    || (n >= 3 && name in {"HMGET", "SMISMEMBER"})
    || (n >= 4 && name == "ZRANGE")
  }

  /** The reads of one key, each with as many words as it takes. */
  predicate ReadsOneKey(args: seq<string>) {
    args != [] && NamesOneKeyRead(Upper(args[0]), |args|)
  }

  predicate ReadsManyKeys(args: seq<string>) {
    |args| >= 2 && Upper(args[0]) in {"MGET", "EXISTS"}
  }

  lemma OneKeyIsTaken(name: string, n: nat)
    requires NamesOneKeyRead(name, n)
    ensures name !in WRITE_COMMANDS && name in READ_COMMANDS && ReadArityOk(name, n) && n >= 2
    ensures name !in {"SCAN", "MGET", "EXISTS"}
  {
  }

  /** A read of one key receives the living object of that key, or is told to try again if its slot is not readable. */
  lemma OneKeyReadSeesObject(e: Engine, views: seq<ObjectMap>, args: seq<string>, now: u64, canRead: nat -> bool)
    requires SlotsExist(e, |views|) && ReadsOneKey(args)
    ensures ReadOnly(e, views, args, now, canRead) ==
            if canRead(e.slotOf(args[1])) then Read(e.reader(args, now, [Visible(e, views, args[1], now)]))
              else TryAgain
  {
    hide Upper, LiveObjects, Visible, NamesOneKeyRead, ReadArityOk, ScanAnswer;
    OneKeyIsTaken(Upper(args[0]), |args|);
    SingleLookup(e, views, args[1], now);
    assert args[1..2] == [args[1]];
  }

  /** MGET and EXISTS receive the living object of every key in order, if all their slots are readable. */
  lemma ManyKeyReadSeesObjects(e: Engine, views: seq<ObjectMap>, args: seq<string>, now: u64, canRead: nat -> bool)
    requires SlotsExist(e, |views|) && ReadsManyKeys(args)
    ensures ReadOnly(e, views, args, now, canRead) ==
            if forall i :: 1 <= i < |args| ==> canRead(e.slotOf(args[i]))
            then Read(e.reader(args, now, seq(|args| - 1, i requires 0 <= i < |args| - 1 =>
                                                Visible(e, views, args[i + 1], now))))
            else TryAgain
  {
    hide Upper, LiveObjects;
    var keys := args[1..];
    EachKeyIsLookedUp(e, views, keys, now);
    assert seq(|args| - 1, i requires 0 <= i < |args| - 1 => Visible(e, views, args[i + 1], now))
           == seq(|keys|, i requires 0 <= i < |keys| => Visible(e, views, keys[i], now));
    assert args[1..|args|] == keys;
    assert forall i :: 1 <= i < |args| ==> args[i] == keys[i - 1];
  }

  /** Everything but a read with the words it takes is refused, and why. */
  lemma OthersAreRefused(e: Engine, views: seq<ObjectMap>, args: seq<string>, now: u64, canRead: nat -> bool)
    requires SlotsExist(e, |views|) && !ReadsOneKey(args) && !ReadsManyKeys(args)
    requires args != [] ==> Upper(args[0]) != "SCAN" || |args| < 2
    ensures ReadOnly(e, views, args, now, canRead) ==
            if args == [] then EmptyCommand
            else if IsWriteCommand(args[0]) then ReadOnlyReplica
            else if Upper(args[0]) in {
                "GET", "MGET", "STRLEN", "HGET", "HEXISTS", "HLEN", "HSTRLEN", "HMGET", "HGETALL", "HKEYS", "HVALS",
                "SISMEMBER", "SCARD", "SMEMBERS", "SMISMEMBER", "SRANDMEMBER", "ZSCORE", "ZCARD", "ZRANK", "ZREVRANK",
                "ZCOUNT", "ZRANGE", "EXISTS", "TYPE", "PTTL", "SCAN", "TTL"} then WrongArity
            else UnknownCommand
  {
    hide Upper;
  }

  // ---- what a SCAN call returns

  /** The kind of value that the words of TYPE name. */
  predicate IsOfType(v: Value, kind: string) {
    match v
    case Text(_) => kind == "string"
    case Hash(_) => kind == "hash"
    case Members(_) => kind == "set"
    case Scores(_) => kind == "zset"
  }

  /** The key is stored alive, is of the type asked for and matches the pattern asked for. */
  predicate AskedFor(kind: Option<string>, pattern: Option<string>, m: ObjectMap, key: string, now: u64) {
    && HashSlot.Alive(m, key, now)
    && (kind.None? || IsOfType(m[key].value, kind.value))
    && (pattern.None? || Matches(Tokens(pattern.value, 0), key))
  }

  /**
   * A call that visits the slots from `slot` up to `stop` returns each key of theirs that is asked for once, and no
   * other.
   */
  lemma CallReturnsWhatIsAskedFor(e: Engine, views: seq<ObjectMap>, o: ScanOptions, now: u64, slot: nat, scanned: nat,
                                  key: string)
    requires IsVisitOrder(e.order) && Placed(e.slotOf, views) && slot < |views|
    ensures var (stop, keys) := ScanFrom(e.order, views, o, now, slot, scanned);
            multiset(keys)[key] ==
              if slot <= e.slotOf(key) < stop && AskedFor(o.kind, o.pattern, views[e.slotOf(key)], key, now) then 1
                else 0
  {
    hide ScanFrom, Tokens, Matches, Placed;
    CallReturnsOnce(e.slotOf, e.order, views, o, now, slot, scanned, key);
  }

  // ---- where a SCAN call stops

  function LiveKeys(m: ObjectMap, now: u64): set<string> {
    set key | key in m && HashSlot.Alive(m, key, now)
  }

  /** The number of living keys in the slots from..to. */
  function LiveIn(views: seq<ObjectMap>, from: nat, to: nat, now: u64): nat
    requires from <= to <= |views|
    decreases |views| - from
  {
    if from == to then 0 else |LiveKeys(views[from], now)| + LiveIn(views, from + 1, to, now)
  }

  function LiveOf(m: ObjectMap, keys: seq<string>, now: u64): set<string> {
    set key | key in keys && HashSlot.Alive(m, key, now)
  }

  lemma NoneLives(m: ObjectMap, now: u64)
    ensures LiveOf(m, [], now) == {}
  {
  }

  lemma OneMoreLives(m: ObjectMap, front: seq<string>, last: string, now: u64)
    requires last !in front
    ensures |LiveOf(m, front + [last], now)| == |LiveOf(m, front, now)| + if HashSlot.Alive(m, last, now) then 1 else 0
  {
    hide HashSlot.Alive;
    var alive := LiveOf(m, front, now);
    assert LiveOf(m, front + [last], now) == if HashSlot.Alive(m, last, now) then alive + {last} else alive;
  }

  lemma {:induction false} LiveAmongCounts(m: ObjectMap, keys: seq<string>, now: u64)
    requires Distinct(keys)
    ensures LiveAmong(m, keys, now) == |LiveOf(m, keys, now)|
  {
    hide LiveOf;
    if keys == [] {
      NoneLives(m, now);
    } else {
      var front, last := keys[..|keys| - 1], keys[|keys| - 1];
      LiveAmongCounts(m, front, now);
      assert keys == front + [last];
      OneMoreLives(m, front, last, now);
    }
  }

  lemma SlotCounts(order: VisitOrder, m: ObjectMap, now: u64)
    requires IsVisitOrder(order)
    ensures LiveAmong(m, order(m.Keys), now) == |LiveKeys(m, now)|
  {
    var keys := order(m.Keys);
    assert Lists(keys, m.Keys);
    LiveAmongCounts(m, keys, now);
    assert LiveOf(m, keys, now) == LiveKeys(m, now);
  }

  /** A call stops behind the first slot at which it has come to COUNT living keys, or behind the last slot. */
  lemma {:induction false} CallStopsAtCount(order: VisitOrder, views: seq<ObjectMap>, o: ScanOptions, now: u64,
                                            slot: nat, scanned: nat)
    requires IsVisitOrder(order) && slot < |views|
    ensures var stop := ScanFrom(order, views, o, now, slot, scanned).0;
            && (stop < |views| ==> scanned + LiveIn(views, slot, stop, now) >= o.count)
            && forall s :: slot < s < stop ==> scanned + LiveIn(views, slot, s, now) < o.count
    decreases |views| - slot
  {
    hide ScanFrom, LiveAmong, WantedAmong, LiveKeys;
    ScanRound(order, views, o, now, slot, scanned);
    SlotCounts(order, views[slot], now);
    var seen := scanned + |LiveKeys(views[slot], now)|;
    assert LiveIn(views, slot, slot + 1, now) == |LiveKeys(views[slot], now)|;
    if seen < o.count && slot + 1 < |views| {
      CallStopsAtCount(order, views, o, now, slot + 1, seen);
      var stop := ScanFrom(order, views, o, now, slot + 1, seen).0;
      forall s | slot < s <= stop
        ensures scanned + LiveIn(views, slot, s, now) == seen + LiveIn(views, slot + 1, s, now)
      {
      }
    }
  }

  // ---- the words of SCAN

  /** The words behind the cursor: options and values in turn. */
  predicate ScanWordsOk(words: seq<string>) {
    |words| % 2 == 0
    && forall i :: 0 <= i < |words| && i % 2 == 1 ==>
         || Upper(words[i - 1]) == "MATCH"
         || (Upper(words[i - 1]) == "COUNT" && ParseInt64(words[i]).Some? && ParseInt64(words[i]).value >= 0)
         || (Upper(words[i - 1]) == "TYPE" && Lower(words[i]) in {"string", "hash", "set", "zset"})
  }

  /** The value of the last option of this name. */
  function LastOf(words: seq<string>, option: string): Option<string> {
    if |words| < 2 then None
    else
      match LastOf(words[2..], option)
      case Some(text) => Some(text)
      case None => if Upper(words[0]) == option then Some(words[1]) else None
  }

  function CountOf(text: Option<string>, otherwise: nat): nat {
    if text.Some? && ParseInt64(text.value).Some? && ParseInt64(text.value).value >= 0 then ParseInt64(text.value).value
    else otherwise
  }

  function KindOf(text: Option<string>): Option<string> {
    if text.Some? then Some(Lower(text.value)) else None
  }

  function FirstSome(a: Option<string>, b: Option<string>): Option<string> {
    if a.Some? then a else b
  }

  lemma RestIsOk(words: seq<string>)
    requires |words| >= 2
    ensures ScanWordsOk(words) <==>
              && ScanWordsOk(words[2..])
              && (|| Upper(words[0]) == "MATCH"
                  || (Upper(words[0]) == "COUNT" && ParseInt64(words[1]).Some? && ParseInt64(words[1]).value >= 0)
                  || (Upper(words[0]) == "TYPE" && Lower(words[1]) in {"string", "hash", "set", "zset"}))
  {
    hide Upper, Lower, ParseInt64;
    var rest := words[2..];
    if ScanWordsOk(words) {
      assert forall i :: 0 <= i < |rest| ==> rest[i] == words[i + 2];
      forall i | 0 <= i < |rest| && i % 2 == 1
        ensures rest[i - 1] == words[i + 1] && rest[i] == words[i + 2] && (i + 2) % 2 == 1
      {
      }
    }
    if ScanWordsOk(rest) {
      forall i | 2 <= i < |words| && i % 2 == 1
        ensures words[i - 1] == rest[i - 3] && words[i] == rest[i - 2] && (i - 2) % 2 == 1
      {
      }
    }
  }

  lemma {:induction false} LastCounts(words: seq<string>)
    requires ScanWordsOk(words)
    ensures LastOf(words, "COUNT").Some? ==>
              var n := ParseInt64(LastOf(words, "COUNT").value); n.Some? && n.value >= 0
  {
    hide Upper, Lower, ParseInt64;
    if |words| >= 2 {
      RestIsOk(words);
      LastCounts(words[2..]);
    }
  }

  /** The options are taken exactly if every pair of words is in order; the last of each kind counts. */
  lemma {:induction false} OptionsAreRead(words: seq<string>, o: ScanOptions)
    ensures OptionsFrom(words, o) ==
            if !ScanWordsOk(words) then None
            else Some(ScanOptions(o.cursor, CountOf(LastOf(words, "COUNT"), o.count),
                                  FirstSome(LastOf(words, "MATCH"), o.pattern),
                                  FirstSome(KindOf(LastOf(words, "TYPE")), o.kind)))
  {
    hide Upper, Lower, ParseInt64;
    if |words| >= 2 {
      RestIsOk(words);
      var option, rest := Upper(words[0]), words[2..];
      if ScanWordsOk(rest) {
        LastCounts(rest);
      }
      if option == "MATCH" {
        OptionsAreRead(rest, o.(pattern := Some(words[1])));
      } else if option == "COUNT" {
        if ParseSize(words[1]).Some? {
          OptionsAreRead(rest, o.(count := ParseSize(words[1]).value));
        }
      } else if option == "TYPE" && IsTypeName(Lower(words[1])) {
        OptionsAreRead(rest, o.(kind := Some(Lower(words[1]))));
      }
    }
  }

  /**
   * SCAN takes a cursor below the number of slots and options in order; COUNT is 1000 unless it is given, and the last
   * option of each kind counts.
   */
  lemma ScanReadsWords(words: seq<string>, slotCount: nat)
    requires words != []
    ensures var cursor, rest := ParseInt64(words[0]), words[1..];
            ParseScan(words, slotCount) ==
              if cursor.None? || cursor.value < 0 || cursor.value >= slotCount || !ScanWordsOk(rest) then None
              else Some(ScanOptions(cursor.value, CountOf(LastOf(rest, "COUNT"), 1000), LastOf(rest, "MATCH"),
                                    KindOf(LastOf(rest, "TYPE"))))
  {
    hide Upper, Lower, ParseInt64, OptionsFrom, LastOf, ScanWordsOk;
    var cursor := ParseSize(words[0]);
    if cursor.Some? {
      OptionsAreRead(words[1..], ScanOptions(cursor.value, DEFAULT_COUNT, None, None));
    }
  }

  /**
   * SCAN answers with the keys of the slots it visits and the slot to go on with, 0 after the last one; it is told to
   * try again if it would visit a slot that is not readable.
   */
  lemma ScanIsAnswered(e: Engine, views: seq<ObjectMap>, args: seq<string>, now: u64, canRead: nat -> bool)
    requires SlotsExist(e, |views|) && |args| >= 2 && Upper(args[0]) == "SCAN"
    ensures var o, answer := ParseScan(args[1..], |views|), ReadOnly(e, views, args, now, canRead);
            if o.None? then answer == BadScan
            else
              var (stop, keys) := ScanFrom(e.order, views, o.value, now, o.value.cursor, 0);
              answer == if exists s :: o.value.cursor <= s < stop && !canRead(s) then TryAgain
                        else Scanned(if stop == |views| then 0 else stop, keys)
  {
    hide Upper, ParseScan, GatedScan, ScanFrom;
    var o := ParseScan(args[1..], |views|);
    if o.Some? {
      GatedScanIsScan(e.order, views, o.value, now, o.value.cursor, 0, canRead, []);
    }
  }
}
