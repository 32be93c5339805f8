/**
 * What each write command does to the map, told by its words and the object under its key
 * (src/command/{string,hash,set, zset,key}_cmd.cpp): what is stored with which deadline, what is logged, and when the
 * command answers with an error.
 */
module WriteLaws {
  import opened Core
  import opened Numbers
  import opened HashSlot
  import opened Order
  import opened Commands
  import opened Mutators

  // ---- the four outcomes

  predicate Refuses(o: Outcome) {
    o == Outcome(None, true)
  }

  predicate Stays(o: Outcome) {
    o == Outcome(None, false)
  }

  predicate Puts(o: Outcome, m: ObjectMap, key: string, value: Value, deadline: u64, logged: seq<string>) {
    o == Outcome(Some(Change(m[key := Object(value, deadline)], logged, deadline)), false)
  }

  predicate Erases(o: Outcome, m: ObjectMap, key: string, logged: seq<string>) {
    o == Outcome(Some(Change(m - {key}, logged, 0)), false)
  }

  /** The deadline of the living object, or none. */
  function Kept(m: ObjectMap, key: string, now: u64): u64 {
    if Alive(m, key, now) then m[key].deadline else 0
  }

  lemma LivesIffAlive(m: ObjectMap, key: string, now: u64)
    ensures Live(m, key, now) == if Alive(m, key, now) then Some(m[key]) else None
  {
  }

  // ---- names

  /** A word is taken as a command in whatever case its letters are. */
  lemma NamesIgnoreCase(word: string, i: nat)
    requires i < |word|
    ensures |Upper(word)| == |word|
    ensures Upper(word)[i] == if 'a' <= word[i] <= 'z' then ((word[i] as int - 32) as char) else word[i]
  {
  }

  lemma UnknownIsRefused(sc: Scoring, choose: Choice, args: seq<string>, now: u64, m: ObjectMap)
    requires args == [] || Upper(args[0]) !in {
               "SET", "SETNX", "GETSET", "APPEND", "INCR", "DECR", "INCRBY", "DECRBY", "HSET", "HMSET", "HDEL",
               "HINCRBY", "SADD", "SREM", "SPOP", "ZADD", "ZREM", "ZINCRBY", "DEL", "EXPIRE"}
    ensures Refuses(Run(sc, choose, args, now, m))
  {
  }

  // ---- keys

  /** DEL of a living key erases it; of any other it changes nothing. */
  lemma DelErases(sc: Scoring, choose: Choice, args: seq<string>, now: u64, m: ObjectMap)
    requires args != [] && Upper(args[0]) == "DEL"
    ensures var o := Run(sc, choose, args, now, m);
            if |args| < 2 then Refuses(o)
            else if !Alive(m, args[1], now) then Stays(o)
            else Erases(o, m, args[1], ["DEL", args[1]])
  {
  }

  /** EXPIRE gives a living object its deadline, or erases it if the time is not positive; it never touches another. */
  lemma ExpireSetsDeadline(sc: Scoring, choose: Choice, args: seq<string>, now: u64, m: ObjectMap)
    requires args != [] && Upper(args[0]) == "EXPIRE"
    ensures var o := Run(sc, choose, args, now, m);
            if |args| != 3 || ParseInt64(args[2]).None? then Refuses(o)
            else if !Alive(m, args[1], now) then Stays(o)
            else
              var key, seconds := args[1], ParseInt64(args[2]).value;
              if seconds <= 0 then Erases(o, m, key, ["DEL", key])
              else Puts(o, m, key, m[key].value, DeadlineAhead(seconds, now), ["EXPIRE", key, DecimalOfInt(seconds)])
  {
    hide ParseInt64, DecimalOfInt, SaturatingDeadline, SaturatingTtl, DeadlineAhead;
    if |args| == 3 && ParseInt64(args[2]).Some? && ParseInt64(args[2]).value > 0 {
      SaturatedDeadline(ParseInt64(args[2]).value, now);
    }
  }

  // ---- what runs through a mutator

  /** What a mutator's effect becomes. */
  lemma EffectBecomes(sc: Scoring, choose: Choice, args: seq<string>, now: u64, m: ObjectMap)
    requires |args| >= 2 && Upper(args[0]) in WRITE_COMMANDS && Upper(args[0]) !in {"DEL", "EXPIRE"}
    ensures var o := Run(sc, choose, args, now, m); var name, key := Upper(args[0]), args[1];
            if !ArityOk(name, |args|) then Refuses(o)
            else
              var existing := if Alive(m, key, now) then Some(m[key]) else None;
              var e := MutatorEffect(sc, choose, name, key, args[2..], now, existing);
              var logged := if e.result.record.Some? then e.result.record.value else [name] + args[1..];
              && o.failed == e.failed
              && (!e.result.changed ==> o.change == None)
              && (e.result.changed && e.result.stored.Some? ==>
                    o.change == Some(Change(m[key := e.result.stored.value], logged, e.result.stored.value.deadline)))
              && (e.result.changed && e.result.stored.None? && Alive(m, key, now) ==>
                    o.change == Some(Change(m - {key}, logged, 0)))
  {
    hide MutatorEffect, Upper, ArityOk;
    LivesIffAlive(m, args[1], now);
  }

  // ---- strings

  lemma SetNxStoresOnce(sc: Scoring, choose: Choice, args: seq<string>, now: u64, m: ObjectMap)
    requires |args| >= 2 && Upper(args[0]) == "SETNX"
    ensures var o := Run(sc, choose, args, now, m);
            if |args| != 3 then Refuses(o)
            else if Alive(m, args[1], now) then Stays(o)
            else Puts(o, m, args[1], Text(args[2]), 0, ["SETNX"] + args[1..])
  {
    hide Run, Upper;
    EffectBecomes(sc, choose, args, now, m);
  }

  lemma GetSetReplaces(sc: Scoring, choose: Choice, args: seq<string>, now: u64, m: ObjectMap)
    requires |args| >= 2 && Upper(args[0]) == "GETSET"
    ensures var o := Run(sc, choose, args, now, m);
            if |args| != 3 || (Alive(m, args[1], now) && !m[args[1]].value.Text?) then Refuses(o)
            else Puts(o, m, args[1], Text(args[2]), 0, ["GETSET"] + args[1..])
  {
    hide Run, Upper;
    EffectBecomes(sc, choose, args, now, m);
  }

  lemma AppendExtends(sc: Scoring, choose: Choice, args: seq<string>, now: u64, m: ObjectMap)
    requires |args| >= 2 && Upper(args[0]) == "APPEND"
    ensures var o, key := Run(sc, choose, args, now, m), args[1];
            if |args| != 3 || (Alive(m, key, now) && !m[key].value.Text?) then Refuses(o)
            else
              var before := if Alive(m, key, now) then m[key].value.text else "";
              Puts(o, m, key, Text(before + args[2]), Kept(m, key, now), ["APPEND"] + args[1..])
  {
    hide Run, Upper;
    EffectBecomes(sc, choose, args, now, m);
    if |args| == 3 {
      assert "" + args[2] == args[2];
    }
  }

  /** The whole number under the key; a missing key counts as 0. */
  function NumberAt(m: ObjectMap, key: string, now: u64): Option<int> {
    if !Alive(m, key, now) then Some(0) else if m[key].value.Text? then ParseInt64(m[key].value.text) else None
  }

  /** By how much the command counts, if it is well-formed. */
  function Step(args: seq<string>): Option<int>
    requires |args| >= 2
  {
    var name := Upper(args[0]);
    if name == "INCR" || name == "DECR" then
      if |args| != 2 then None else Some(if name == "INCR" then 1 else -1)
    else if |args| != 3 || ParseInt64(args[2]).None? then None
    else Some(if name == "INCRBY" then ParseInt64(args[2]).value else -ParseInt64(args[2]).value)
  }

  lemma CounterMutates(sc: Scoring, choose: Choice, name: string, key: string, words: seq<string>, now: u64,
                       existing: Option<Object>)
    requires name in {"INCR", "DECR", "INCRBY", "DECRBY"}
    ensures ArityOk(name, |words| + 2) <==> |words| == if name in {"INCR", "DECR"} then 0 else 1
    ensures ArityOk(name, |words| + 2) ==>
              MutatorEffect(sc, choose, name, key, words, now, existing) ==
                if name == "INCR" then AddEffect(1, existing)
                else if name == "DECR" then AddEffect(-1, existing)
                else if ParseInt64(words[0]).None? then FAIL
                else if name == "INCRBY" then AddEffect(ParseInt64(words[0]).value, existing)
                else AddEffect(-ParseInt64(words[0]).value, existing)
  {
    hide ParseInt64;
  }

  /** INCR and its kin store the sum as text and keep the deadline; they refuse what is no number or leaves 64 bits. */
  lemma CountersAdd(sc: Scoring, choose: Choice, args: seq<string>, now: u64, m: ObjectMap)
    requires |args| >= 2 && Upper(args[0]) in {"INCR", "DECR", "INCRBY", "DECRBY"}
    ensures var o, key := Run(sc, choose, args, now, m), args[1];
            var step, number := Step(args), NumberAt(m, key, now);
            if step.None? || number.None? || !(I64_MIN <= number.value + step.value <= I64_MAX) then Refuses(o)
            else Puts(o, m, key, Text(DecimalOfInt(number.value + step.value)), Kept(m, key, now),
                      [Upper(args[0])] + args[1..])
  {
    hide Run, Upper, ParseInt64, DecimalOfInt, MutatorEffect;
    EffectBecomes(sc, choose, args, now, m);
    CounterMutates(sc, choose, Upper(args[0]), args[1], args[2..], now,
                   if Alive(m, args[1], now) then Some(m[args[1]]) else None);
  }

  // ---- hashes

  function FieldsAt(m: ObjectMap, key: string, now: u64): Option<map<string, string>> {
    if !Alive(m, key, now) then Some(map[]) else if m[key].value.Hash? then Some(m[key].value.fields) else None
  }

  /** HSET and HMSET give each named field the value of its last pair; the other fields and the deadline stay. */
  lemma HashSetStoresPairs(sc: Scoring, choose: Choice, args: seq<string>, now: u64, m: ObjectMap)
    returns (after: map<string, string>)
    requires |args| >= 2 && Upper(args[0]) in {"HSET", "HMSET"}
    ensures var o, key := Run(sc, choose, args, now, m), args[1]; var before := FieldsAt(m, key, now);
            if |args| < 4 || |args| % 2 != 0 || before.None? then Refuses(o)
            else
              && Puts(o, m, key, Hash(after), Kept(m, key, now), [Upper(args[0])] + args[1..])
              && forall f ::
                   match LastValue(args[2..], f)
                   case Some(value) => f in after && after[f] == value
                   case None => (f in after <==> f in before.value) && (f in after ==> after[f] == before.value[f])
  {
    hide Run, Upper, StorePairs, LastValue;
    EffectBecomes(sc, choose, args, now, m);
    var before := FieldsAt(m, args[1], now);
    after := if before.Some? then StorePairs(args[2..], before.value) else map[];
    if |args| >= 4 && |args| % 2 == 0 && before.Some? {
      forall f
        ensures match LastValue(args[2..], f)
                case Some(value) => f in after && after[f] == value
                case None => (f in after <==> f in before.value) && (f in after ==> after[f] == before.value[f])
      {
        LastPairWins(args[2..], before.value, f);
      }
    }
  }

  /** What is left of a map without the named keys. */
  function Without<V>(fields: map<string, V>, words: seq<string>): map<string, V> {
    map f | f in fields && f !in words :: fields[f]
  }

  lemma WithoutWords<V>(fields: map<string, V>, words: seq<string>)
    ensures fields - WordSet(words) == Without(fields, words)
  {
  }

  /** HDEL erases the named fields, and the key with its last one. */
  lemma HashDelErasesFields(sc: Scoring, choose: Choice, args: seq<string>, now: u64, m: ObjectMap)
    requires |args| >= 2 && Upper(args[0]) == "HDEL"
    ensures var o, key := Run(sc, choose, args, now, m), args[1];
            if |args| < 3 || (Alive(m, key, now) && !m[key].value.Hash?) then Refuses(o)
            else if !Alive(m, key, now) then Stays(o)
            else
              var rest := Without(m[key].value.fields, args[2..]);
              if rest == m[key].value.fields then Stays(o)
              else if rest == map[] then Erases(o, m, key, ["HDEL"] + args[1..])
              else Puts(o, m, key, Hash(rest), m[key].deadline, ["HDEL"] + args[1..])
  {
    hide Run, Upper, Without, WordSet;
    EffectBecomes(sc, choose, args, now, m);
    if Alive(m, args[1], now) && m[args[1]].value.Hash? {
      WithoutWords(m[args[1]].value.fields, args[2..]);
    }
  }

  /** HINCRBY adds to one field, which counts as 0 while it is missing, and keeps the others and the deadline. */
  lemma HashIncrAdds(sc: Scoring, choose: Choice, args: seq<string>, now: u64, m: ObjectMap)
    requires |args| >= 2 && Upper(args[0]) == "HINCRBY"
    ensures var o, key := Run(sc, choose, args, now, m), args[1]; var fields := FieldsAt(m, key, now);
            if |args| != 4 || ParseInt64(args[3]).None? || fields.None? then Refuses(o)
            else
              var f, step := args[2], ParseInt64(args[3]).value;
              var number := if f in fields.value then ParseInt64(fields.value[f]) else Some(0);
              if number.None? || !(I64_MIN <= number.value + step <= I64_MAX) then Refuses(o)
              else Puts(o, m, key, Hash(fields.value[f := DecimalOfInt(number.value + step)]), Kept(m, key, now),
                        ["HINCRBY"] + args[1..])
  {
    hide Run, Upper, ParseInt64, DecimalOfInt;
    EffectBecomes(sc, choose, args, now, m);
  }

  // ---- sets

  /** SADD adds its words and keeps the deadline; if it adds none, nothing changes. */
  lemma SetAddAdds(sc: Scoring, choose: Choice, args: seq<string>, now: u64, m: ObjectMap)
    requires |args| >= 2 && Upper(args[0]) == "SADD"
    ensures var o, key := Run(sc, choose, args, now, m), args[1];
            if |args| < 3 || (Alive(m, key, now) && !m[key].value.Members?) then Refuses(o)
            else
              var before := if Alive(m, key, now) then m[key].value.members else {};
              if forall w :: w in args[2..] ==> w in before then Stays(o)
              else Puts(o, m, key, Members(before + (set w | w in args[2..])), Kept(m, key, now), ["SADD"] + args[1..])
  {
    hide Run, Upper;
    EffectBecomes(sc, choose, args, now, m);
  }

  /** What is left of a set without the named members. */
  function Left(members: set<string>, words: seq<string>): set<string> {
    set x | x in members && x !in words
  }

  /** SREM removes its words, and the key with the last member. */
  lemma SetRemRemoves(sc: Scoring, choose: Choice, args: seq<string>, now: u64, m: ObjectMap)
    requires |args| >= 2 && Upper(args[0]) == "SREM"
    ensures var o, key := Run(sc, choose, args, now, m), args[1];
            if |args| < 3 || (Alive(m, key, now) && !m[key].value.Members?) then Refuses(o)
            else if !Alive(m, key, now) then Stays(o)
            else
              var rest := Left(m[key].value.members, args[2..]);
              if rest == m[key].value.members then Stays(o)
              else if rest == {} then Erases(o, m, key, ["SREM"] + args[1..])
              else Puts(o, m, key, Members(rest), m[key].deadline, ["SREM"] + args[1..])
  {
    hide Run, Upper;
    EffectBecomes(sc, choose, args, now, m);
    if Alive(m, args[1], now) && m[args[1]].value.Members? {
      assert m[args[1]].value.members - WordSet(args[2..]) == Left(m[args[1]].value.members, args[2..]);
    }
  }

  /** SPOP removes what the random choice picks, one member unless it is told a number, and is logged as that SREM. */
  lemma PopRemovesPicked(sc: Scoring, choose: Choice, args: seq<string>, now: u64, m: ObjectMap)
    requires |args| >= 2 && Upper(args[0]) == "SPOP"
    ensures var o, key := Run(sc, choose, args, now, m), args[1];
            var count := if |args| == 2 then Some(1) else ParseInt64(args[2]);
            if |args| > 3 || count.None? || count.value < 0 || (Alive(m, key, now) && !m[key].value.Members?)
            then Refuses(o)
            else if !Alive(m, key, now) || count.value == 0 || m[key].value.members == {} then Stays(o)
            else
              var picked := choose(m[key].value.members, count.value);
              var rest := Left(m[key].value.members, picked);
              if rest == {} then Erases(o, m, key, ["SREM", key] + picked)
              else Puts(o, m, key, Members(rest), m[key].deadline, ["SREM", key] + picked)
  {
    hide Run, Upper, ParseInt64;
    EffectBecomes(sc, choose, args, now, m);
    if Alive(m, args[1], now) && m[args[1]].value.Members? {
      var members := m[args[1]].value.members;
      forall picked: seq<string>
        ensures members - WordSet(picked) == Left(members, picked)
      {
      }
    }
  }

  // ---- sorted sets

  function ScoresAt(m: ObjectMap, key: string, now: u64): Option<map<string, real>> {
    if !Alive(m, key, now) then Some(map[]) else if m[key].value.Scores? then Some(m[key].value.scores) else None
  }

  /** ZREM erases the named members, and the key with the last one. */
  lemma SortedSetRemRemoves(sc: Scoring, choose: Choice, args: seq<string>, now: u64, m: ObjectMap)
    requires |args| >= 2 && Upper(args[0]) == "ZREM"
    ensures var o, key := Run(sc, choose, args, now, m), args[1];
            if |args| < 3 || (Alive(m, key, now) && !m[key].value.Scores?) then Refuses(o)
            else if !Alive(m, key, now) then Stays(o)
            else
              var rest := Without(m[key].value.scores, args[2..]);
              if rest == m[key].value.scores then Stays(o)
              else if rest == map[] then Erases(o, m, key, ["ZREM"] + args[1..])
              else Puts(o, m, key, Scores(rest), m[key].deadline, ["ZREM"] + args[1..])
  {
    hide Run, Upper, Without, WordSet;
    EffectBecomes(sc, choose, args, now, m);
    if Alive(m, args[1], now) && m[args[1]].value.Scores? {
      WithoutWords(m[args[1]].value.scores, args[2..]);
    }
  }

  /** ZINCRBY adds to one score, which counts as 0 while it is missing; a sum that changes nothing is not stored. */
  lemma SortedSetIncrAdds(sc: Scoring, choose: Choice, args: seq<string>, now: u64, m: ObjectMap)
    requires |args| >= 2 && Upper(args[0]) == "ZINCRBY"
    ensures var o, key := Run(sc, choose, args, now, m), args[1]; var scores := ScoresAt(m, key, now);
            if |args| != 4 || sc.parse(args[2]).None? || scores.None? then Refuses(o)
            else
              var member := args[3];
              var before := if member in scores.value then scores.value[member] else 0.0;
              var sum := sc.add(before, sc.parse(args[2]).value);
              if sum.None? then Refuses(o)
              else if member in scores.value && sum.value == before then Stays(o)
              else Puts(o, m, key, Scores(scores.value[member := sum.value]), Kept(m, key, now),
                        ["ZINCRBY"] + args[1..])
  {
    hide Run, Upper;
    EffectBecomes(sc, choose, args, now, m);
  }

  // ---- option words

  /** One of the first n words spells the option, in whatever case. */
  predicate Has(words: seq<string>, n: nat, option: string)
    requires n <= |words|
  {
    exists i :: 0 <= i < n && Upper(words[i]) == option
  }

  lemma HasNext(words: seq<string>, n: nat, option: string)
    requires n < |words|
    ensures Has(words, n + 1, option) <==> Has(words, n, option) || Upper(words[n]) == option
  {
    hide Upper;
  }

  predicate IsZAddOption(word: string) {
    Upper(word) in {"NX", "XX", "GT", "LT", "CH", "INCR"}
  }

  /** The options that the first n words spell. */
  function ZAddOptionsOf(words: seq<string>, n: nat): ZAddOptions
    requires n <= |words|
  {
    ZAddOptions(Has(words, n, "NX"), Has(words, n, "XX"), Has(words, n, "GT"), Has(words, n, "LT"), Has(words, n, "CH"),
                Has(words, n, "INCR"))
  }

  /** Some option is spelled twice among the first n words. */
  predicate Repeats(words: seq<string>, n: nat)
    requires n <= |words|
  {
    exists i, j :: 0 <= i < j < n && Upper(words[i]) == Upper(words[j])
  }

  lemma ZAddOptionsNext(words: seq<string>, n: nat)
    requires n < |words| && IsZAddOption(words[n])
    ensures var o, option := ZAddOptionsOf(words, n), Upper(words[n]);
            ZAddOptionsOf(words, n + 1) ==
              if option == "NX" then o.(nx := true)
              else if option == "XX" then o.(xx := true)
              else if option == "GT" then o.(gt := true)
              else if option == "LT" then o.(lt := true)
              else if option == "CH" then o.(ch := true)
              else o.(incr := true)
  {
    hide Upper, Has;
    HasNext(words, n, "NX");
    HasNext(words, n, "XX");
    HasNext(words, n, "GT");
    HasNext(words, n, "LT");
    HasNext(words, n, "CH");
    HasNext(words, n, "INCR");
  }

  /** ZADD's options are the option words in front, each at most once. */
  lemma {:induction false} ZAddReadsOptions(words: seq<string>, i: nat, k: nat)
    requires i <= k <= |words| && !Repeats(words, i) && (forall j :: 0 <= j < k ==> IsZAddOption(words[j]))
    requires k < |words| ==> !IsZAddOption(words[k])
    ensures ZAddOptionsFrom(words[i..], ZAddOptionsOf(words, i)) ==
            if Repeats(words, k) then BadOption else OptionsRead(ZAddOptionsOf(words, k), words[k..])
    decreases k - i
  {
    hide Upper;
    if i == k {
      if k < |words| {
        assert words[k..][0] == words[k];
      }
    } else {
      var rest := words[i..];
      assert rest[0] == words[i] && rest[1..] == words[i + 1..] && IsZAddOption(words[i]);
      ZAddOptionsNext(words, i);
      if Has(words, i, Upper(words[i])) {
        var j :| 0 <= j < i && Upper(words[j]) == Upper(words[i]);
        assert Repeats(words, k);
      } else {
        assert !Repeats(words, i + 1);
        ZAddReadsOptions(words, i + 1, k);
      }
    }
  }

  lemma NothingRepeated(words: seq<string>)
    ensures ZAddOptionsOf(words, 0) == NO_ZADD_OPTIONS && !Repeats(words, 0) && words[0..] == words
  {
  }

  /** Score and member pairs: all scores must be readable. */
  lemma {:induction false} PairsAreRead(sc: Scoring, words: seq<string>)
    requires |words| % 2 == 0
    ensures var inputs := ScoredPairs(sc, words);
            && (inputs.None? <==> exists i :: 0 <= i < |words| && i % 2 == 0 && sc.parse(words[i]).None?)
            && (inputs.Some? ==>
                  && |inputs.value| == |words| / 2
                  && forall i {:trigger inputs.value[i]} :: 0 <= i < |words| / 2 ==>
                       Some(inputs.value[i].score) == sc.parse(words[2 * i])
                       && inputs.value[i].member == words[2 * i + 1])
    decreases |words|
  {
    if words == [] {
    } else {
      var rest := words[2..];
      PairsAreRead(sc, rest);
      assert forall i {:trigger rest[i]} :: 0 <= i < |rest| ==> rest[i] == words[i + 2];
      assert forall i {:trigger words[i]} :: 2 <= i < |words| ==> words[i] == rest[i - 2];
      if ScoredPairs(sc, words).None? {
        if sc.parse(words[0]).None? {
          assert 0 % 2 == 0;
        } else {
          var i :| 0 <= i < |rest| && i % 2 == 0 && sc.parse(rest[i]).None?;
          assert (i + 2) % 2 == 0 && sc.parse(words[i + 2]).None?;
        }
      } else {
        forall i | 0 <= i < |words| && i % 2 == 0
          ensures sc.parse(words[i]).Some?
        {
          assert i >= 2 ==> (i - 2) % 2 == 0 && words[i] == rest[i - 2];
        }
      }
    }
  }

  /** The scores that the member had and is given, in order. */
  function Candidates(inputs: seq<ScoredMember>, before: map<string, real>, member: string): seq<real> {
    if inputs == [] then (if member in before then [before[member]] else [])
    else
      var last := inputs[|inputs| - 1];
      Candidates(inputs[..|inputs| - 1], before, member) + (if last.member == member then [last.score] else [])
  }

  /**
   * Which of them the member ends with: under NX the first, under GT the highest, under LT the lowest, otherwise the
   * last; under XX a member that was not there stays away.
   */
  ghost predicate Settles(o: ZAddOptions, candidates: seq<real>, present: bool, after: Option<real>) {
    if candidates == [] || (o.xx && !present) then after == None
    else
      && after.Some? && after.value in candidates
      && (o.nx ==> after.value == candidates[0])
      && (!o.nx && o.gt ==> forall c :: c in candidates ==> c <= after.value)
      && (!o.nx && !o.gt && o.lt ==> forall c :: c in candidates ==> c >= after.value)
      && (!o.nx && !o.gt && !o.lt ==> after.value == candidates[|candidates| - 1])
  }

  function ScoreOf(scores: map<string, real>, member: string): Option<real> {
    if member in scores then Some(scores[member]) else None
  }

  /** The input changes nothing in the scores as they were. */
  predicate IdleInput(o: ZAddOptions, before: map<string, real>, input: ScoredMember) {
    if input.member in before then
      var had := before[input.member];
      o.nx || input.score == had || (o.gt && input.score < had) || (o.lt && input.score > had)
    else o.xx
  }

  lemma OneInputSettles(o: ZAddOptions, input: ScoredMember, st: ZAddState, candidates: seq<real>, present: bool,
                        member: string)
    requires !(o.gt && o.lt) && Settles(o, candidates, present, ScoreOf(st.scores, member))
    requires present ==> candidates != []
    ensures Settles(o, candidates + (if input.member == member then [input.score] else []), present,
                    ScoreOf(ZAddOne(o, input, st).scores, member))
  {
    if input.member == member {
      var next := candidates + [input.score];
      assert next[|candidates|] == input.score && forall c :: c in next <==> c in candidates || c == input.score;
      if candidates != [] {
        assert next[0] == candidates[0];
      }
    } else {
      assert candidates + [] == candidates;
    }
  }

  lemma {:induction false} ZAddSettles(o: ZAddOptions, inputs: seq<ScoredMember>, before: map<string, real>,
                                       member: string)
    requires !(o.gt && o.lt)
    ensures var st := ZAddAll(o, inputs, ZAddState(before, 0, 0));
            Settles(o, Candidates(inputs, before, member), member in before, ScoreOf(st.scores, member))
    ensures member in before ==> Candidates(inputs, before, member) != []
  {
    if inputs == [] {
    } else {
      hide Settles, ScoreOf, ZAddOne;
      var front := inputs[..|inputs| - 1];
      ZAddSettles(o, front, before, member);
      OneInputSettles(o, inputs[|inputs| - 1], ZAddAll(o, front, ZAddState(before, 0, 0)),
                      Candidates(front, before, member), member in before, member);
    }
  }

  lemma {:induction false} ZAddIsIdle(o: ZAddOptions, inputs: seq<ScoredMember>, before: map<string, real>)
    ensures var st := ZAddAll(o, inputs, ZAddState(before, 0, 0));
            && (st.added + st.updated == 0 <==> forall i :: 0 <= i < |inputs| ==> IdleInput(o, before, inputs[i]))
            && (st.added + st.updated == 0 ==> st == ZAddState(before, 0, 0))
  {
    if inputs == [] {
    } else {
      ZAddIsIdle(o, inputs[..|inputs| - 1], before);
    }
  }

  /** Some score behind the k option words cannot be read. */
  ghost predicate HasBadScore(sc: Scoring, words: seq<string>, k: nat) {
    exists i :: k <= i < |words| && (i - k) % 2 == 0 && sc.parse(words[i]).None?
  }

  /** The words of ZADD after its key: k option words, then pairs. */
  ghost predicate ZAddMalformed(sc: Scoring, words: seq<string>, k: nat)
    requires k <= |words|
  {
    var o := ZAddOptionsOf(words, k);
    || Repeats(words, k) || (o.nx && (o.xx || o.gt || o.lt)) || (o.gt && o.lt)
    || |words| - k < 2 || (|words| - k) % 2 != 0 || (o.incr && |words| - k != 2)
    || HasBadScore(sc, words, k)
  }

  /** How many option words lead. */
  function OptionRun(words: seq<string>): (k: nat)
    ensures k <= |words| && (forall j :: 0 <= j < k ==> IsZAddOption(words[j]))
    ensures k < |words| ==> !IsZAddOption(words[k])
  {
    if words == [] || !IsZAddOption(words[0]) then 0 else 1 + OptionRun(words[1..])
  }

  /** The pairs behind the option words, as ZADD takes them. */
  ghost predicate TakesPairs(sc: Scoring, words: seq<string>, k: nat, inputs: seq<ScoredMember>) {
    && k <= |words| && (|words| - k) % 2 == 0 && |inputs| == (|words| - k) / 2
    && forall i {:trigger inputs[i]} :: 0 <= i < |inputs| ==>
         Some(inputs[i].score) == sc.parse(words[k + 2 * i]) && inputs[i].member == words[k + 2 * i + 1]
  }

  lemma PairsBehind(sc: Scoring, words: seq<string>, k: nat)
    requires k <= |words| && (|words| - k) % 2 == 0
    ensures var inputs := ScoredPairs(sc, words[k..]);
            && (inputs.None? <==> HasBadScore(sc, words, k))
            && (inputs.Some? ==> TakesPairs(sc, words, k, inputs.value))
  {
    hide ScoredPairs;
    var rest := words[k..];
    PairsAreRead(sc, rest);
    assert forall i {:trigger words[i]} :: k <= i < |words| ==> words[i] == rest[i - k];
    assert forall i {:trigger rest[i]} :: 0 <= i < |rest| ==> rest[i] == words[k + i];
    if i :| 0 <= i < |rest| && i % 2 == 0 && sc.parse(rest[i]).None? {
      assert (k + i - k) % 2 == 0 && sc.parse(words[k + i]).None?;
    }
  }

  lemma ZAddIsParsed(sc: Scoring, words: seq<string>)
    ensures var k, parsed := OptionRun(words), ParseZAdd(sc, words);
            && (parsed.BadZAdd? <==> ZAddMalformed(sc, words, k))
            && (!parsed.BadZAdd? ==>
                  && parsed.options == ZAddOptionsOf(words, k) && parsed.inputs != []
                  && TakesPairs(sc, words, k, parsed.inputs))
  {
    hide ZAddOptionsFrom, Has, Repeats, Upper, ScoredPairs, HasBadScore;
    var k := OptionRun(words);
    NothingRepeated(words);
    ZAddReadsOptions(words, 0, k);
    if (|words| - k) % 2 == 0 {
      PairsBehind(sc, words, k);
    }
  }

  lemma ZAddMutates(sc: Scoring, choose: Choice, key: string, words: seq<string>, now: u64, existing: Option<Object>)
    requires |words| >= 2
    ensures ArityOk("ZADD", |words| + 2)
    ensures MutatorEffect(sc, choose, "ZADD", key, words, now, existing) == ZAddEffect(sc, words, existing)
  {
  }

  lemma FewWordsAreMalformed(sc: Scoring, words: seq<string>, k: nat)
    requires k <= |words| < 2
    ensures ZAddMalformed(sc, words, k)
  {
  }

  lemma WellFormedOptions(sc: Scoring, words: seq<string>, k: nat)
    requires k <= |words| && !ZAddMalformed(sc, words, k)
    ensures var o := ZAddOptionsOf(words, k); !(o.gt && o.lt)
  {
  }

  /**
   * ZADD without INCR: every member ends with the score that the options choose among the one it had and those it is
   * given; the deadline stays; and nothing is stored if no input changes anything.
   */
  lemma SortedSetAddSettles(sc: Scoring, choose: Choice, args: seq<string>, now: u64, m: ObjectMap)
    returns (inputs: seq<ScoredMember>, after: map<string, real>)
    requires |args| >= 2 && Upper(args[0]) == "ZADD" && !Has(args[2..], OptionRun(args[2..]), "INCR")
    ensures var o, key, words := Run(sc, choose, args, now, m), args[1], args[2..];
            var k, before := OptionRun(words), ScoresAt(m, key, now);
            if ZAddMalformed(sc, words, k) || before.None? then Refuses(o)
            else
              && TakesPairs(sc, words, k, inputs)
              && (if forall i :: 0 <= i < |inputs| ==> IdleInput(ZAddOptionsOf(words, k), before.value, inputs[i])
                  then Stays(o)
                  else Puts(o, m, key, Scores(after), Kept(m, key, now), ["ZADD"] + args[1..]))
              && forall member ::
                   Settles(ZAddOptionsOf(words, k), Candidates(inputs, before.value, member), member in before.value,
                           ScoreOf(after, member))
  {
    hide Run, Upper, Settles, Candidates, OptionRun, ZAddMalformed, ParseZAdd, ZAddAll, IdleInput, ScoreOf, Has,
         TakesPairs, MutatorEffect;
    EffectBecomes(sc, choose, args, now, m);
    var words, before := args[2..], ScoresAt(m, args[1], now);
    var k, parsed := OptionRun(words), ParseZAdd(sc, words);
    ZAddIsParsed(sc, words);
    inputs, after := [], map[];
    if |words| < 2 {
      FewWordsAreMalformed(sc, words, k);
    } else {
      ZAddMutates(sc, choose, args[1], words, now, if Alive(m, args[1], now) then Some(m[args[1]]) else None);
    }
    if !parsed.BadZAdd? && before.Some? {
      inputs := parsed.inputs;
      after := ZAddAll(parsed.options, inputs, ZAddState(before.value, 0, 0)).scores;
      ZAddIsIdle(parsed.options, inputs, before.value);
      WellFormedOptions(sc, words, k);
      forall member
        ensures Settles(ZAddOptionsOf(words, k), Candidates(inputs, before.value, member), member in before.value,
                        ScoreOf(after, member))
      {
        ZAddSettles(parsed.options, inputs, before.value, member);
      }
    }
  }

  lemma OnePair(sc: Scoring, words: seq<string>, k: nat, inputs: seq<ScoredMember>)
    requires TakesPairs(sc, words, k, inputs) && |words| - k == 2
    ensures |inputs| == 1 && Some(inputs[0].score) == sc.parse(words[k]) && inputs[0].member == words[k + 1]
  {
  }

  /** ZADD with INCR adds to one score, as ZINCRBY does, if the options let it. */
  lemma SortedSetAddIncrements(sc: Scoring, choose: Choice, args: seq<string>, now: u64, m: ObjectMap)
    requires |args| >= 2 && Upper(args[0]) == "ZADD" && Has(args[2..], OptionRun(args[2..]), "INCR")
    ensures var o, key, words := Run(sc, choose, args, now, m), args[1], args[2..];
            var k, scores := OptionRun(words), ScoresAt(m, key, now); var options := ZAddOptionsOf(words, k);
            if ZAddMalformed(sc, words, k) || scores.None? then Refuses(o)
            else
              && |words| == k + 2 && sc.parse(words[k]).Some?
              && var step, member := sc.parse(words[k]).value, words[k + 1];
                 var present := member in scores.value;
                 var before := if present then scores.value[member] else 0.0;
                 var sum := sc.add(before, step);
                 if (present && options.nx) || (!present && options.xx) then Stays(o)
                 else if sum.None? then Refuses(o)
                 else if present && (sum.value == before || (options.gt && sum.value < before)
                                     || (options.lt && sum.value > before)) then Stays(o)
                 else Puts(o, m, key, Scores(scores.value[member := sum.value]), Kept(m, key, now),
                           ["ZADD"] + args[1..])
  {
    hide Run, Upper, OptionRun, ParseZAdd, ZAddAll, Has, Repeats, HasBadScore, MutatorEffect, TakesPairs;
    EffectBecomes(sc, choose, args, now, m);
    var words := args[2..];
    var k, parsed := OptionRun(words), ParseZAdd(sc, words);
    ZAddIsParsed(sc, words);
    if |words| < 2 {
      FewWordsAreMalformed(sc, words, k);
    } else {
      ZAddMutates(sc, choose, args[1], words, now, if Alive(m, args[1], now) then Some(m[args[1]]) else None);
    }
    if !parsed.BadZAdd? {
      OnePair(sc, words, k, parsed.inputs);
    }
  }

  // ---- SET

  predicate IsExpiryWord(word: string) {
    Upper(word) in {"EX", "PX", "EXAT", "PXAT"}
  }

  /** The word is the amount of the expiry option before it. */
  predicate IsAmount(words: seq<string>, i: nat)
    requires i < |words|
  {
    i > 0 && IsExpiryWord(words[i - 1])
  }

  /** The deadline in microseconds: EX and EXAT count seconds, PX and PXAT milliseconds, EX and PX from now on. */
  function DeadlineOfOption(option: string, amount: int, now: u64): int {
    amount * (if Upper(option) in {"EX", "EXAT"} then 1_000_000 else 1_000)
    + (if Upper(option) in {"EX", "PX"} then now else 0)
  }

  predicate AmountOk(words: seq<string>, i: nat, now: u64)
    requires 0 < i < |words|
  {
    && ParseInt64(words[i]).Some? && ParseInt64(words[i]).value > 0
    && DeadlineOfOption(words[i - 1], ParseInt64(words[i]).value, now) <= U64_MAX
  }

  /** The word may stand where it stands. */
  predicate SetWordOk(words: seq<string>, i: nat, now: u64)
    requires i < |words|
  {
    if IsAmount(words, i) then AmountOk(words, i, now)
    else Upper(words[i]) in {"NX", "XX", "GET", "KEEPTTL"} || (IsExpiryWord(words[i]) && i + 1 < |words|)
  }

  /** Which options exclude each other: NX and XX, KEEPTTL and any expiry, NX and GET, and each itself. */
  predicate Clash(a: string, b: string) {
    || (Upper(a) in {"NX", "XX"} && Upper(b) in {"NX", "XX"})
    || (Upper(a) == "GET" && Upper(b) == "GET")
    || (Upper(a) in {"KEEPTTL", "EX", "PX", "EXAT", "PXAT"} && Upper(b) in {"KEEPTTL", "EX", "PX", "EXAT", "PXAT"})
  }

  /** The option words of SET are accepted. */
  predicate SetWordsOk(words: seq<string>, now: u64) {
    && (forall i :: 0 <= i < |words| ==> SetWordOk(words, i, now))
    && (forall i, j :: 0 <= i < j < |words| ==> !Clash(words[i], words[j]))
    && !(Has(words, |words|, "NX") && Has(words, |words|, "GET"))
  }

  /** The first n words name a way to set or keep the deadline. */
  predicate HasTtl(words: seq<string>, n: nat)
    requires n <= |words|
  {
    exists i :: 0 <= i < n && Upper(words[i]) in {"KEEPTTL", "EX", "PX", "EXAT", "PXAT"}
  }

  /** The deadline that they give, if any. */
  function GivenDeadline(words: seq<string>, n: nat, now: u64): int
    requires n <= |words|
  {
    if n < 2 then 0
    else if IsExpiryWord(words[n - 2]) && ParseInt64(words[n - 1]).Some?
    then DeadlineOfOption(words[n - 2], ParseInt64(words[n - 1]).value, now)
    else GivenDeadline(words, n - 1, now)
  }

  /** A number is no option. */
  lemma NumbersAreNoOptions(word: string)
    requires ParseInt64(word).Some?
    ensures word != "" && Upper(word) != "" && !('A' <= Upper(word)[0] <= 'Z')
    ensures !IsExpiryWord(word) && Upper(word) !in {"NX", "XX", "GET", "KEEPTTL"}
  {
    var c := CText(word);
    assert c[0] == word[0];
    assert word[0] == '-' || word[0] == '+' || IsDigit(word[0]);
    assert Upper(word)[0] == word[0];
  }

  /** The options that the first n words spell. */
  function SetOptionsOf(words: seq<string>, n: nat, now: u64): SetOptions
    requires n <= |words| && 0 <= GivenDeadline(words, n, now) <= U64_MAX
  {
    SetOptions(Has(words, n, "NX"), Has(words, n, "XX"), Has(words, n, "GET"), Has(words, n, "KEEPTTL"),
               GivenDeadline(words, n, now))
  }

  /** The first n words are accepted so far, and the next one starts an option. */
  predicate SetPrefixOk(words: seq<string>, n: nat, now: u64) {
    && n <= |words| && (n == 0 || !IsExpiryWord(words[n - 1])) && 0 <= GivenDeadline(words, n, now) <= U64_MAX
    && (forall i :: 0 <= i < n ==> SetWordOk(words, i, now))
    && (forall i, j :: 0 <= i < j < n ==> !Clash(words[i], words[j]))
  }

  lemma HasAfter(words: seq<string>, n: nat)
    requires n < |words|
    ensures Has(words, n + 1, "NX") <==> Has(words, n, "NX") || Upper(words[n]) == "NX"
    ensures Has(words, n + 1, "XX") <==> Has(words, n, "XX") || Upper(words[n]) == "XX"
    ensures Has(words, n + 1, "GET") <==> Has(words, n, "GET") || Upper(words[n]) == "GET"
    ensures Has(words, n + 1, "KEEPTTL") <==> Has(words, n, "KEEPTTL") || Upper(words[n]) == "KEEPTTL"
    ensures HasTtl(words, n + 1) <==>
              HasTtl(words, n) || Upper(words[n]) in {"KEEPTTL", "EX", "PX", "EXAT", "PXAT"}
  {
    hide Upper, Has;
    HasNext(words, n, "NX");
    HasNext(words, n, "XX");
    HasNext(words, n, "GET");
    HasNext(words, n, "KEEPTTL");
  }

  /** A word that is no expiry option goes on. */
  lemma SetPrefixNext(words: seq<string>, n: nat, now: u64)
    requires SetPrefixOk(words, n, now) && n < |words| && Upper(words[n]) in {"NX", "XX", "GET", "KEEPTTL"}
    requires forall i :: 0 <= i < n ==> !Clash(words[i], words[n])
    ensures SetPrefixOk(words, n + 1, now)
    ensures var o, option := SetOptionsOf(words, n, now), Upper(words[n]);
            SetOptionsOf(words, n + 1, now) ==
              if option == "NX" then o.(nx := true)
              else if option == "XX" then o.(xx := true)
              else if option == "GET" then o.(get := true)
              else o.(keepTtl := true)
  {
    hide Upper, Has, Clash, ParseInt64;
    HasAfter(words, n);
  }

  /** An expiry option goes on with its amount. */
  lemma SetPrefixTimed(words: seq<string>, n: nat, now: u64)
    requires SetPrefixOk(words, n, now) && n + 1 < |words| && IsExpiryWord(words[n]) && AmountOk(words, n + 1, now)
    requires forall i :: 0 <= i < n ==> !Clash(words[i], words[n])
    ensures SetPrefixOk(words, n + 2, now)
    ensures SetOptionsOf(words, n + 2, now) ==
            SetOptionsOf(words, n, now).(
              deadline := DeadlineOfOption(words[n], ParseInt64(words[n + 1]).value, now))
    ensures HasTtl(words, n + 2)
  {
    hide Upper, Has, ParseInt64;
    HasAfter(words, n);
    HasAfter(words, n + 1);
    NumbersAreNoOptions(words[n + 1]);
    assert Upper(words[n + 1]) !in {"EX", "PX", "EXAT", "PXAT"};
  }

  lemma OptionDeadline(word: string, text: string, now: u64)
    requires IsExpiryWord(word)
    ensures ExpiryDeadline(Upper(word), text, now) ==
            if ParseInt64(text).None? || ParseInt64(text).value <= 0
              || DeadlineOfOption(word, ParseInt64(text).value, now) > U64_MAX then None
            else Some(DeadlineOfOption(word, ParseInt64(text).value, now))
  {
    hide ParseInt64, Upper;
  }

  lemma ClashedIsRefused(words: seq<string>, i: nat, n: nat, now: u64)
    requires SetPrefixOk(words, n, now) && i < n < |words| && Clash(words[i], words[n])
    ensures SetOptionsFrom(words[n..], now, HasTtl(words, n), SetOptionsOf(words, n, now)).None?
            && !SetWordsOk(words, now)
  {
    hide Upper, ParseInt64, GivenDeadline, ExpiryDeadline;
    var rest := words[n..];
    assert rest[0] == words[n] && rest[1..] == words[n + 1..];
  }

  /** The option words are taken exactly if they are in order, and mean what they spell. */
  lemma {:induction false} SetReadsOptions(words: seq<string>, n: nat, now: u64)
    requires SetPrefixOk(words, n, now)
    ensures var r := SetOptionsFrom(words[n..], now, HasTtl(words, n), SetOptionsOf(words, n, now));
            && (r.Some? <==> SetWordsOk(words, now))
            && (r.Some? ==> SetPrefixOk(words, |words|, now) && r.value == SetOptionsOf(words, |words|, now))
    decreases |words| - n
  {
    hide Upper, ParseInt64, GivenDeadline, ExpiryDeadline;
    if n < |words| {
      var rest, option := words[n..], Upper(words[n]);
      assert rest[0] == words[n] && rest[1..] == words[n + 1..];
      if i :| 0 <= i < n && Clash(words[i], words[n]) {
        ClashedIsRefused(words, i, n, now);
      } else if option in {"NX", "XX", "GET", "KEEPTTL"} {
        HasAfter(words, n);
        SetPrefixNext(words, n, now);
        SetReadsOptions(words, n + 1, now);
      } else if IsExpiryWord(words[n]) && n + 1 < |words| {
        assert rest[1] == words[n + 1] && rest[2..] == words[n + 2..];
        OptionDeadline(words[n], words[n + 1], now);
        if AmountOk(words, n + 1, now) {
          SetPrefixTimed(words, n, now);
          SetReadsOptions(words, n + 2, now);
        } else {
          assert !SetWordOk(words, n + 1, now);
        }
      } else {
        assert !SetWordOk(words, n, now);
      }
    }
  }

  lemma NoSetOptions(words: seq<string>, now: u64)
    ensures SetPrefixOk(words, 0, now) && SetOptionsOf(words, 0, now) == NO_SET_OPTIONS && !HasTtl(words, 0)
    ensures words[0..] == words
  {
  }

  lemma SetMutates(sc: Scoring, choose: Choice, key: string, words: seq<string>, now: u64, existing: Option<Object>)
    requires |words| >= 1
    ensures ArityOk("SET", |words| + 2)
    ensures MutatorEffect(sc, choose, "SET", key, words, now, existing) == SetEffect(words, now, existing)
  {
  }

  /** An accepted deadline is not 0. */
  lemma GivenDeadlineIsSet(words: seq<string>, n: nat, now: u64)
    requires n <= |words| && SetWordsOk(words, now)
    ensures GivenDeadline(words, n, now) >= 0
    ensures GivenDeadline(words, n, now) == 0 <==> forall i :: 0 <= i < n - 1 ==> !IsExpiryWord(words[i])
  {
    hide Upper, ParseInt64, Clash;
    if n >= 2 {
      GivenDeadlineIsSet(words, n - 1, now);
      assert SetWordOk(words, n - 1, now);
    }
  }

  lemma SetPrefixGives(words: seq<string>, now: u64)
    requires SetPrefixOk(words, |words|, now)
    ensures 0 <= GivenDeadline(words, |words|, now) <= U64_MAX
  {
  }

  /**
   * SET stores its word as text: under NX exactly if the key is not alive, under XX exactly if it is, and otherwise
   * always. The deadline is the one it is given, the old one under KEEPTTL, and none otherwise. It refuses option words
   * that are out of order, and under GET a living object of another type.
   */
  lemma SetStores(sc: Scoring, choose: Choice, args: seq<string>, now: u64, m: ObjectMap)
    requires |args| >= 2 && Upper(args[0]) == "SET"
    ensures var o, key, alive := Run(sc, choose, args, now, m), args[1], Alive(m, args[1], now);
            if |args| < 3 || !SetWordsOk(args[3..], now) then Refuses(o)
            else
              var words := args[3..];
              if Has(words, |words|, "GET") && alive && !m[key].value.Text? then Refuses(o)
              else if (Has(words, |words|, "NX") && alive) || (Has(words, |words|, "XX") && !alive) then Stays(o)
              else
                var given := GivenDeadline(words, |words|, now);
                0 <= given <= U64_MAX &&
                Puts(o, m, key, Text(args[2]),
                     if given != 0 then given else if Has(words, |words|, "KEEPTTL") then Kept(m, key, now) else 0,
                     ["SET"] + args[1..])
  {
    hide Run, Upper, Has, GivenDeadline, SetWordsOk, SetOptionsFrom, MutatorEffect, SetPrefixOk;
    EffectBecomes(sc, choose, args, now, m);
    if |args| >= 3 {
      var words, rest := args[2..], args[3..];
      assert words[1..] == rest;
      SetMutates(sc, choose, args[1], words, now, if Alive(m, args[1], now) then Some(m[args[1]]) else None);
      NoSetOptions(rest, now);
      SetReadsOptions(rest, 0, now);
      if SetWordsOk(rest, now) {
        SetPrefixGives(rest, now);
      }
    }
  }
}
