/** SCAN (src/command/scan_cmd.cpp): a cursor over slots, and what a whole iteration returns. */
module Scan {
  import opened Core
  import opened Numbers
  import opened Order
  import opened Commands
  import opened SnapshotCodec
  import opened Glob

  const DEFAULT_COUNT: nat := 1000

  datatype ScanOptions = ScanOptions(cursor: nat, count: nat, pattern: Option<string>, kind: Option<string>)

  function LowerChar(c: char): char {
    if 'A' <= c <= 'Z' then 'a' + (c - 'A') else c
  }

  /** ToLowerAscii. */
  function Lower(text: string): string {
    seq(|text|, i requires 0 <= i < |text| => LowerChar(text[i]))
  }

  function ParseSize(text: string): Option<nat> {
    match ParseInt64(text)
    case None => None
    case Some(n) => if n < 0 then None else Some(n)
  }

  predicate IsTypeName(kind: string) {
    kind == "string" || kind == "hash" || kind == "set" || kind == "zset"
  }

  /** The options in the remaining words; a later option replaces an earlier one of its kind. */
  function OptionsFrom(words: seq<string>, o: ScanOptions): (r: Option<ScanOptions>)
    ensures r.Some? ==> r.value.cursor == o.cursor
  {
    if words == [] then Some(o)
    else if |words| < 2 then None
    else
      var option := Upper(words[0]);
      if option == "MATCH" then OptionsFrom(words[2..], o.(pattern := Some(words[1])))
      else if option == "COUNT" then
        match ParseSize(words[1])
        case None => None
        case Some(count) => OptionsFrom(words[2..], o.(count := count))
      else if option == "TYPE" && IsTypeName(Lower(words[1]))
        then OptionsFrom(words[2..], o.(kind := Some(Lower(words[1]))))
      else None
  }

  /** SCAN cursor [option value]...; the words follow the command's name. */
  function ParseScan(words: seq<string>, slotCount: nat): (r: Option<ScanOptions>)
    requires words != []
    ensures r.Some? ==> r.value.cursor < slotCount
  {
    match ParseSize(words[0])
    case None => None
    case Some(cursor) =>
      if cursor >= slotCount then None else OptionsFrom(words[1..], ScanOptions(cursor, DEFAULT_COUNT, None, None))
  }

  method ParseOptions(words: seq<string>, slotCount: nat) returns (r: Option<ScanOptions>)
    requires words != []
    ensures r == ParseScan(words, slotCount)
  {
    hide Upper, Lower, ParseInt64;
    var cursor := ParseSize(words[0]);
    if cursor.None? || cursor.value >= slotCount {
      return None;
    }
    var o := ScanOptions(cursor.value, DEFAULT_COUNT, None, None);
    var index := 1;
    while index < |words|
      invariant 1 <= index <= |words|
      invariant OptionsFrom(words[index..], o) == ParseScan(words, slotCount)
    {
      ghost var rest := words[index..];
      assert rest[0] == words[index];
      if index + 1 < |words| {
        assert rest[1] == words[index + 1] && rest[2..] == words[index + 2..];
      }
      var option := Upper(words[index]);
      if option == "MATCH" {
        if index + 1 >= |words| {
          return None;
        }
        o := o.(pattern := Some(words[index + 1]));
        index := index + 2;
      } else if option == "COUNT" {
        if index + 1 >= |words| {
          return None;
        }
        var count := ParseSize(words[index + 1]);
        if count.None? {
          return None;
        }
        o := o.(count := count.value);
        index := index + 2;
      } else if option == "TYPE" {
        if index + 1 >= |words| {
          return None;
        }
        var kind := Lower(words[index + 1]);
        if !IsTypeName(kind) {
          return None;
        }
        o := o.(kind := Some(kind));
        index := index + 2;
      } else {
        return None;
      }
    }
    return Some(o);
  }

  // ---- one call

  /** The key is live, of the right type, and matches the pattern. */
  predicate Wanted(o: ScanOptions, m: ObjectMap, key: string, now: u64) {
    && key in m && !m[key].Expired(now)
    && (o.kind.Some? ==> TypeName(m[key].value) == o.kind.value)
    && (o.pattern.Some? ==> Matches(Tokens(o.pattern.value, 0), key))
  }

  function LiveAmong(m: ObjectMap, keys: seq<string>, now: u64): nat {
    if keys == [] then 0
    else LiveAmong(m, keys[..|keys| - 1], now) + (if Live(m, keys[|keys| - 1], now).Some? then 1 else 0)
  }

  function WantedAmong(o: ScanOptions, m: ObjectMap, keys: seq<string>, now: u64): seq<string> {
    if keys == [] then []
    else
      WantedAmong(o, m, keys[..|keys| - 1], now)
      + (if Wanted(o, m, keys[|keys| - 1], now) then [keys[|keys| - 1]] else [])
  }

  /** Where the call stops and what it returns, from `slot` on: whole slots, until enough live keys were seen. */
  function ScanFrom(order: VisitOrder, views: seq<ObjectMap>, o: ScanOptions, now: u64, slot: nat, scanned: nat)
      : (r: (nat, seq<string>))
    requires slot < |views|
    ensures slot < r.0 <= |views|
    decreases |views| - slot
  {
    var keys := order(views[slot].Keys);
    var seen := scanned + LiveAmong(views[slot], keys, now);
    var found := WantedAmong(o, views[slot], keys, now);
    if seen >= o.count || slot + 1 == |views| then (slot + 1, found)
    else
      var (stop, rest) := ScanFrom(order, views, o, now, slot + 1, seen);
      (stop, found + rest)
  }

  lemma ScanRound(order: VisitOrder, views: seq<ObjectMap>, o: ScanOptions, now: u64, slot: nat, scanned: nat)
    requires slot < |views|
    ensures var keys := order(views[slot].Keys);
            var seen := scanned + LiveAmong(views[slot], keys, now);
            var found := WantedAmong(o, views[slot], keys, now);
            ScanFrom(order, views, o, now, slot, scanned) ==
              if seen >= o.count || slot + 1 == |views| then (slot + 1, found)
              else (ScanFrom(order, views, o, now, slot + 1, seen).0,
                    found + ScanFrom(order, views, o, now, slot + 1, seen).1)
  {
    hide LiveAmong, WantedAmong;
  }

  datatype ScanReply = Syncing | Reply(cursor: nat, keys: seq<string>)

  method KeyMatches(pattern: Option<string>, key: string) returns (matched: bool)
    ensures matched <==> (pattern.Some? ==> Matches(Tokens(pattern.value, 0), key))
  {
    if pattern.None? {
      return true;
    }
    var answer, _ := MatchAt(pattern.value, key);
    return answer;
  }

  /** One slot of a call. */
  method ScanSlot(order: VisitOrder, m: ObjectMap, o: ScanOptions, now: u64) returns (live: nat, found: seq<string>)
    ensures live == LiveAmong(m, order(m.Keys), now) && found == WantedAmong(o, m, order(m.Keys), now)
  {
    var keys := order(m.Keys);
    live, found := 0, [];
    for i := 0 to |keys|
      invariant live == LiveAmong(m, keys[..i], now) && found == WantedAmong(o, m, keys[..i], now)
    {
      assert keys[..i + 1][..i] == keys[..i];
      var key := keys[i];
      if Live(m, key, now).Some? {
        live := live + 1;
        var matched := KeyMatches(o.pattern, key);
        if matched && (o.kind.None? || TypeName(m[key].value) == o.kind.value) {
          found := found + [key];
        }
      }
    }
    assert keys[..|keys|] == keys;
  }

  /** A call on slots that may all be read, or on a replica up to the first slot that may not. */
  method ExecuteScan(order: VisitOrder, views: seq<ObjectMap>, o: ScanOptions, now: u64, canRead: nat -> bool)
    returns (reply: ScanReply)
    requires o.cursor < |views|
    ensures var (stop, keys) := ScanFrom(order, views, o, now, o.cursor, 0);
            reply == if exists s :: o.cursor <= s < stop && !canRead(s) then Syncing
                     else Reply(if stop == |views| then 0 else stop, keys)
  {
    hide LiveAmong, WantedAmong, ScanFrom;
    var slot: nat, scanned: nat := o.cursor, 0;
    var keys: seq<string> := [];
    ghost var stop, all := ScanFrom(order, views, o, now, o.cursor, 0).0, ScanFrom(order, views, o, now, o.cursor, 0).1;
    while slot < |views|
      invariant o.cursor <= slot <= stop
      invariant if slot == |views| then stop == |views| && keys == all
                else
                  var (s, rest) := ScanFrom(order, views, o, now, slot, scanned);
                  s == stop && keys + rest == all
      invariant forall s :: o.cursor <= s < slot ==> canRead(s)
      decreases |views| - slot
    {
      if !canRead(slot) {
        return Syncing;
      }
      ScanRound(order, views, o, now, slot, scanned);
      var live, found := ScanSlot(order, views[slot], o, now);
      scanned := scanned + live;
      ghost var rest := if slot + 1 < |views| then ScanFrom(order, views, o, now, slot + 1, scanned).1 else [];
      assert keys + (found + rest) == (keys + found) + rest;
      keys := keys + found;
      slot := slot + 1;
      if scanned >= o.count {
        break;
      }
    }
    return Reply(if slot == |views| then 0 else slot, keys);
  }

  // ---- whole iterations

  /** Every key is stored in its own slot. */
  ghost predicate Placed(slotOf: string -> nat, views: seq<ObjectMap>) {
    forall s, k :: 0 <= s < |views| && k in views[s] ==> slotOf(k) == s
  }

  lemma {:induction false} WantedOnce(o: ScanOptions, m: ObjectMap, keys: seq<string>, now: u64, key: string)
    requires Distinct(keys)
    ensures multiset(WantedAmong(o, m, keys, now))[key] == if key in keys && Wanted(o, m, key, now) then 1 else 0
  {
    if keys == [] {
    } else {
      var last := keys[|keys| - 1];
      WantedOnce(o, m, keys[..|keys| - 1], now, key);
      assert keys == keys[..|keys| - 1] + [last];
    }
  }

  lemma WantedIsPresent(o: ScanOptions, m: ObjectMap, key: string, now: u64)
    ensures Wanted(o, m, key, now) ==> key in m
  {
  }

  /** A call returns a key once if it stops behind the key's slot and found it wanted there, and never otherwise. */
  lemma {:induction false} CallReturnsOnce(slotOf: string -> nat, order: VisitOrder, views: seq<ObjectMap>,
                                           o: ScanOptions, now: u64, slot: nat, scanned: nat, key: string)
    requires IsVisitOrder(order) && Placed(slotOf, views) && slot < |views|
    ensures var (stop, keys) := ScanFrom(order, views, o, now, slot, scanned);
            multiset(keys)[key] ==
              if slot <= slotOf(key) < stop && Wanted(o, views[slotOf(key)], key, now) then 1 else 0
    decreases |views| - slot
  {
    hide Wanted, WantedAmong, LiveAmong, ScanFrom;
    ScanRound(order, views, o, now, slot, scanned);
    var keys := order(views[slot].Keys);
    assert Lists(keys, views[slot].Keys);
    WantedOnce(o, views[slot], keys, now, key);
    WantedIsPresent(o, views[slot], key, now);
    var seen := scanned + LiveAmong(views[slot], keys, now);
    if seen < o.count && slot + 1 < |views| {
      CallReturnsOnce(slotOf, order, views, o, now, slot + 1, seen, key);
    }
  }

  /** One call of an iteration: the slots as it finds them, its time and its COUNT. */
  datatype Call = Call(views: seq<ObjectMap>, now: u64, count: nat)

  ghost predicate CallsOk(slotOf: string -> nat, n: nat, calls: seq<Call>) {
    forall i {:trigger calls[i]} :: 0 <= i < |calls| ==> |calls[i].views| == n && Placed(slotOf, calls[i].views)
  }

  function CallOptions(o: ScanOptions, c: Call): ScanOptions {
    o.(count := c.count)
  }

  function Stop(order: VisitOrder, o: ScanOptions, c: Call, cursor: nat): nat
    requires cursor < |c.views|
  {
    ScanFrom(order, c.views, CallOptions(o, c), c.now, cursor, 0).0
  }

  function Found(order: VisitOrder, o: ScanOptions, c: Call, cursor: nat): seq<string>
    requires cursor < |c.views|
  {
    ScanFrom(order, c.views, CallOptions(o, c), c.now, cursor, 0).1
  }

  /** The calls follow the cursors from `cursor` on until 0 comes back, and end there. */
  ghost predicate Complete(order: VisitOrder, n: nat, o: ScanOptions, calls: seq<Call>, cursor: nat)
    decreases |calls|
  {
    && calls != [] && cursor < n && |calls[0].views| == n
    && var stop := Stop(order, o, calls[0], cursor);
       if stop == n then |calls| == 1 else Complete(order, n, o, calls[1..], stop)
  }

  function AllFound(order: VisitOrder, n: nat, o: ScanOptions, calls: seq<Call>, cursor: nat): seq<string>
    decreases |calls|
  {
    if calls == [] || cursor >= n || |calls[0].views| != n then []
    else Found(order, o, calls[0], cursor) + AllFound(order, n, o, calls[1..], Stop(order, o, calls[0], cursor))
  }

  /** The call that visits slot s. */
  ghost function Visitor(order: VisitOrder, n: nat, o: ScanOptions, calls: seq<Call>, cursor: nat, s: nat): (i: nat)
    requires Complete(order, n, o, calls, cursor) && cursor <= s < n
    ensures i < |calls|
    decreases |calls|
  {
    var stop := Stop(order, o, calls[0], cursor);
    if s < stop then 0 else 1 + Visitor(order, n, o, calls[1..], stop, s)
  }

  /**
   * Over a whole iteration each slot is visited by one call, and a key is returned once if that call found it wanted,
   * and never otherwise.
   */
  lemma {:induction false} IterationReturns(slotOf: string -> nat, order: VisitOrder, n: nat, o: ScanOptions,
                                            calls: seq<Call>, cursor: nat, key: string)
    requires IsVisitOrder(order) && Complete(order, n, o, calls, cursor) && slotOf(key) < n && CallsOk(slotOf, n, calls)
    ensures multiset(AllFound(order, n, o, calls, cursor))[key] ==
              if cursor <= slotOf(key)
                && (var c := calls[Visitor(order, n, o, calls, cursor, slotOf(key))];
                    Wanted(CallOptions(o, c), c.views[slotOf(key)], key, c.now))
              then 1 else 0
    decreases |calls|
  {
    hide Wanted, ScanFrom, Placed;
    var c, stop := calls[0], Stop(order, o, calls[0], cursor);
    CallReturnsOnce(slotOf, order, c.views, CallOptions(o, c), c.now, cursor, 0, key);
    if stop < n {
      IterationReturns(slotOf, order, n, o, calls[1..], stop, key);
    } else {
      assert AllFound(order, n, o, calls[1..], stop) == [];
    }
  }

  lemma {:induction false} CompleteIsShort(order: VisitOrder, n: nat, o: ScanOptions, calls: seq<Call>, cursor: nat)
    requires Complete(order, n, o, calls, cursor)
    ensures |calls| <= n - cursor
    decreases |calls|
  {
    if Stop(order, o, calls[0], cursor) < n {
      CompleteIsShort(order, n, o, calls[1..], Stop(order, o, calls[0], cursor));
    }
  }

  /**
   * Following the cursors from 0 until 0 comes back takes at most as many calls as there are slots, whatever the COUNTs
   * and the writes in between; a key that stays live and matching throughout is returned exactly once, and a key that
   * never is, never.
   */
  lemma FullIteration(slotOf: string -> nat, order: VisitOrder, n: nat, o: ScanOptions, calls: seq<Call>, key: string)
    requires IsVisitOrder(order) && Complete(order, n, o, calls, 0) && slotOf(key) < n && CallsOk(slotOf, n, calls)
    ensures |calls| <= n
    ensures (forall i :: 0 <= i < |calls| ==> Wanted(o, calls[i].views[slotOf(key)], key, calls[i].now)) ==>
              multiset(AllFound(order, n, o, calls, 0))[key] == 1
    ensures (forall i :: 0 <= i < |calls| ==> !Wanted(o, calls[i].views[slotOf(key)], key, calls[i].now)) ==>
              multiset(AllFound(order, n, o, calls, 0))[key] == 0
  {
    hide AllFound, Complete, Placed;
    CompleteIsShort(order, n, o, calls, 0);
    IterationReturns(slotOf, order, n, o, calls, 0, key);
  }

  /** Enough calls always complete an iteration: each one moves the cursor on, even with COUNT 0. */
  lemma {:induction false} IterationEnds(order: VisitOrder, n: nat, o: ScanOptions, calls: seq<Call>, cursor: nat)
    returns (m: nat)
    requires cursor < n && |calls| >= n - cursor && forall i :: 0 <= i < |calls| ==> |calls[i].views| == n
    ensures m <= |calls| && Complete(order, n, o, calls[..m], cursor)
    decreases |calls|
  {
    var stop := Stop(order, o, calls[0], cursor);
    if stop == n {
      m := 1;
    } else {
      m := IterationEnds(order, n, o, calls[1..], stop);
      m := m + 1;
      assert calls[..m][1..] == calls[1..][..m - 1];
    }
  }
}
