/** The loops and the guarded arithmetic inside the command mutators, against what the commands mean. */
module Mutators {
  import opened Core
  import opened Numbers
  import opened Order
  import opened HashSlot
  import opened Commands

  // ---- 64-bit arithmetic

  /** A signed 64-bit number: every intermediate value below must be one, too. */
  type i64 = x: int | I64_MIN <= x <= I64_MAX

  /** The sum, or None exactly when it is no 64-bit number; no guard overflows on the way. */
  method CheckedAddInt64(left: i64, right: i64) returns (sum: Option<i64>)
    ensures if I64_MIN <= left + right <= I64_MAX then sum == Some(left + right) else sum == None
  {
    if right > 0 {
      var most: i64 := I64_MAX - right;
      if left > most {
        return None;
      }
    }
    if right < 0 {
      var least: i64 := I64_MIN - right;
      if left < least {
        return None;
      }
    }
    return Some(left + right);
  }

  method CheckedSubtractInt64(left: i64, right: i64) returns (difference: Option<i64>)
    ensures if I64_MIN <= left - right <= I64_MAX then difference == Some(left - right) else difference == None
  {
    if right > 0 {
      var least: i64 := I64_MIN + right;
      if left < least {
        return None;
      }
    }
    if right < 0 {
      var most: i64 := I64_MAX + right;
      if left > most {
        return None;
      }
    }
    return Some(left - right);
  }

  method AddWouldOverflow(value: i64, increment: i64) returns (overflow: bool)
    ensures overflow <==> !(I64_MIN <= value + increment <= I64_MAX)
  {
    if increment > 0 {
      var most: i64 := I64_MAX - increment;
      return value > most;
    }
    if increment < 0 {
      var least: i64 := I64_MIN - increment;
      return value < least;
    }
    return false;
  }

  lemma QuotientBounds(value: nat, multiplier: nat, max: nat)
    requires multiplier > 0
    ensures value > max / multiplier <==> value * multiplier > max
  {
    var q := max / multiplier;
    assert max == q * multiplier + max % multiplier;
    if value > q {
      assert value * multiplier >= (q + 1) * multiplier;
    } else {
      assert value * multiplier <= q * multiplier;
    }
  }

  method CheckedMultiply(value: u64, multiplier: u64) returns (product: Option<u64>)
    requires multiplier > 0
    ensures if value * multiplier <= U64_MAX then product == Some(value * multiplier) else product == None
  {
    QuotientBounds(value, multiplier, U64_MAX);
    if value > U64_MAX / multiplier {
      return None;
    }
    return Some(value * multiplier);
  }

  method CheckedAdd(left: u64, right: u64) returns (sum: Option<u64>)
    ensures if left + right <= U64_MAX then sum == Some(left + right) else sum == None
  {
    var most: u64 := U64_MAX - left;
    if right > most {
      return None;
    }
    return Some(left + right);
  }

  method ComputeDeadline(option: string, amount: u64, now: u64) returns (deadline: Option<u64>)
    requires IsExpiryOption(option)
    ensures deadline == Commands.ComputeDeadline(option, amount, now)
  {
    var unit := if option == "EX" || option == "EXAT" then 1_000_000 else 1_000;
    deadline := CheckedMultiply(amount, unit);
    if deadline.None? {
      return;
    }
    if option == "EX" || option == "PX" {
      deadline := CheckedAdd(now, deadline.value);
    }
  }

  // ---- SET options

  lemma ParsedFits(text: string)
    ensures ParseInt64(text).Some? ==> I64_MIN <= ParseInt64(text).value <= I64_MAX
  {
  }

  method ParseSetOptions(words: seq<string>, now: u64) returns (r: Option<SetOptions>)
    ensures r == SetOptionsFrom(words, now, false, NO_SET_OPTIONS)
  {
    hide Upper, ParseInt64, Commands.ComputeDeadline;
    var o, hasExpiry := NO_SET_OPTIONS, false;
    var i := 0;
    assert words[0..] == words;
    while i < |words|
      invariant i <= |words| && SetOptionsFrom(words[i..], now, hasExpiry, o)
                == SetOptionsFrom(words, now, false, NO_SET_OPTIONS)
    {
      ghost var rest := words[i..];
      assert rest[0] == words[i] && rest[1..] == words[i + 1..];
      var option := Upper(words[i]);
      if option == "NX" || option == "XX" {
        if o.nx || o.xx {
          return None;
        }
        o := if option == "NX" then o.(nx := true) else o.(xx := true);
        i := i + 1;
      } else if option == "GET" {
        if o.get {
          return None;
        }
        o := o.(get := true);
        i := i + 1;
      } else if option == "KEEPTTL" {
        if hasExpiry {
          return None;
        }
        hasExpiry, o := true, o.(keepTtl := true);
        i := i + 1;
      } else if IsExpiryOption(option) {
        if hasExpiry || i + 1 >= |words| {
          return None;
        }
        assert rest[1] == words[i + 1] && rest[2..] == words[i + 2..];
        var amount := ParseInt64(words[i + 1]);
        if amount.None? || amount.value <= 0 {
          return None;
        }
        ParsedFits(words[i + 1]);
        var deadline := ComputeDeadline(option, amount.value, now);
        if deadline.None? {
          return None;
        }
        hasExpiry, o := true, o.(deadline := deadline.value);
        i := i + 2;
      } else {
        return None;
      }
    }
    return if o.nx && o.get then None else Some(o);
  }

  // ---- sets

  lemma NoWords(words: seq<string>)
    ensures WordSet(words[..0]) == {} && words[..|words|] == words
  {
  }

  lemma WordSetSnoc(words: seq<string>, i: nat)
    requires i < |words|
    ensures WordSet(words[..i + 1]) == WordSet(words[..i]) + {words[i]}
  {
    assert words[..i + 1] == words[..i] + [words[i]];
  }

  /** SADD's loop: the union, and how many members are new. */
  method AddMembers(members: set<string>, words: seq<string>) returns (next: set<string>, added: nat)
    ensures next == members + WordSet(words) && added == |next| - |members|
    ensures added == 0 <==> next == members
  {
    hide WordSet;
    NoWords(words);
    next, added := members, 0;
    for i := 0 to |words|
      invariant next == members + WordSet(words[..i]) && added == |next| - |members|
      invariant added == 0 ==> next == members
    {
      WordSetSnoc(words, i);
      if words[i] !in next {
        next := next + {words[i]};
        added := added + 1;
      }
    }
  }

  /** SREM's loop: what is left, and how many members went. */
  method RemoveMembers(members: set<string>, words: seq<string>) returns (next: set<string>, removed: nat)
    ensures next == members - WordSet(words) && removed == |members| - |next|
    ensures removed == 0 <==> next == members
  {
    hide WordSet;
    NoWords(words);
    next, removed := members, 0;
    for i := 0 to |words|
      invariant next == members - WordSet(words[..i]) && removed == |members| - |next|
      invariant removed == 0 ==> next == members
    {
      WordSetSnoc(words, i);
      if words[i] in next {
        next := next - {words[i]};
        removed := removed + 1;
      }
    }
  }

  method SetAdd(words: seq<string>, existing: Option<Object>) returns (effect: Effect, added: nat)
    ensures effect == SetAddEffect(words, existing)
  {
    if existing.Some? && !existing.value.value.Members? {
      return FAIL, 0;
    }
    var next;
    next, added := AddMembers(if existing.None? then {} else existing.value.value.members, words);
    if added == 0 {
      return KEEP, 0;
    }
    return Store(Members(next), DeadlineOf(existing)), added;
  }

  method SetRemove(words: seq<string>, existing: Option<Object>) returns (effect: Effect, removed: nat)
    ensures effect == SetRemEffect(words, existing)
  {
    if existing.None? {
      return KEEP, 0;
    }
    if !existing.value.value.Members? {
      return FAIL, 0;
    }
    var next;
    next, removed := RemoveMembers(existing.value.value.members, words);
    if removed == 0 {
      return KEEP, 0;
    }
    if next == {} {
      return ERASE, removed;
    }
    return Store(Members(next), existing.value.deadline), removed;
  }

  /** SPOP: the chosen members go, one by one, and are logged as an SREM. */
  method Pop(choose: Choice, key: string, count: nat, existing: Option<Object>)
    returns (effect: Effect, picked: seq<string>)
    ensures effect == PopEffect(choose, key, count, existing)
  {
    if existing.None? {
      return KEEP, [];
    }
    if !existing.value.value.Members? {
      return FAIL, [];
    }
    var members := existing.value.value.members;
    if members == {} {
      return KEEP, [];
    }
    picked := choose(members, count);
    var next, _ := RemoveMembers(members, picked);
    var stored := if next == {} then None else Some(Object(Members(next), existing.value.deadline));
    return Effect(MutationResult(true, stored, Some(["SREM", key] + picked)), false), picked;
  }

  // ---- hashes and sorted sets

  lemma WithoutOneMore<V>(m: map<string, V>, gone: set<string>, key: string)
    ensures m - (gone + {key}) == if key in m - gone then (m - gone) - {key} else m - gone
  {
  }

  lemma SizeWithout<V>(m: map<string, V>, key: string)
    requires key in m
    ensures |m - {key}| == |m| - 1
  {
    assert (m - {key}).Keys == m.Keys - {key};
  }

  /** HDEL's and ZREM's loop. */
  method RemoveKeys<V(==)>(fields: map<string, V>, words: seq<string>) returns (rest: map<string, V>, removed: nat)
    ensures rest == fields - WordSet(words) && removed == |fields| - |rest|
    ensures removed == 0 <==> rest == fields
  {
    hide WordSet;
    NoWords(words);
    rest, removed := fields, 0;
    for i := 0 to |words|
      invariant rest == fields - WordSet(words[..i]) && removed == |fields| - |rest|
      invariant removed == 0 ==> rest == fields
    {
      WordSetSnoc(words, i);
      if words[i] !in rest {
        WithoutOneMore(fields, WordSet(words[..i]), words[i]);
      } else {
        SizeWithout(rest, words[i]);
        WithoutOneMore(fields, WordSet(words[..i]), words[i]);
        rest := rest - {words[i]};
        removed := removed + 1;
      }
    }
  }

  lemma SizeWith<V>(m: map<string, V>, key: string, value: V)
    ensures |m[key := value]| == if key in m then |m| else |m| + 1
  {
    assert m[key := value].Keys == m.Keys + {key};
  }

  method HashDelete(words: seq<string>, existing: Option<Object>) returns (effect: Effect, removed: nat)
    ensures effect == HashDelEffect(words, existing)
  {
    if existing.None? {
      return KEEP, 0;
    }
    if !existing.value.value.Hash? {
      return FAIL, 0;
    }
    var rest;
    rest, removed := RemoveKeys(existing.value.value.fields, words);
    if removed == 0 {
      return KEEP, 0;
    }
    if |rest| == 0 {
      return ERASE, removed;
    }
    return Store(Hash(rest), existing.value.deadline), removed;
  }

  method SortedSetRemove(words: seq<string>, existing: Option<Object>) returns (effect: Effect, removed: nat)
    ensures effect == ZRemEffect(words, existing)
  {
    if existing.None? {
      return KEEP, 0;
    }
    if !existing.value.value.Scores? {
      return FAIL, 0;
    }
    var rest;
    rest, removed := RemoveKeys(existing.value.value.scores, words);
    if removed == 0 {
      return KEEP, 0;
    }
    if |rest| == 0 {
      return ERASE, removed;
    }
    return Store(Scores(rest), existing.value.deadline), removed;
  }

  /** HSET's loop: the fields after all pairs, and how many fields are new. */
  method ApplyFieldValuePairs(words: seq<string>, before: map<string, string>)
    returns (fields: map<string, string>, added: nat)
    requires |words| % 2 == 0
    ensures fields == StorePairs(words, before) && added == |fields| - |before|
  {
    fields, added := before, 0;
    var i := 0;
    assert words[0..] == words;
    while i < |words|
      invariant i <= |words| && i % 2 == 0
      invariant StorePairs(words[i..], fields) == StorePairs(words, before) && added == |fields| - |before|
    {
      assert words[i..][0] == words[i] && words[i..][1] == words[i + 1] && words[i..][2..] == words[i + 2..];
      SizeWith(fields, words[i], words[i + 1]);
      if words[i] !in fields {
        added := added + 1;
      }
      fields := fields[words[i] := words[i + 1]];
      i := i + 2;
    }
  }

  /** The value of the last pair that names the field. */
  function LastValue(words: seq<string>, f: string): Option<string> {
    if |words| < 2 then None
    else if words[|words| - 2] == f then Some(words[|words| - 1])
    else LastValue(words[..|words| - 2], f)
  }

  lemma {:induction false} PairsThenPair(words: seq<string>, fields: map<string, string>)
    requires |words| >= 2 && |words| % 2 == 0
    ensures StorePairs(words, fields)
            == StorePairs(words[..|words| - 2], fields)[words[|words| - 2] := words[|words| - 1]]
    decreases |words|
  {
    if |words| > 2 {
      assert words[2..][..|words| - 4] == words[..|words| - 2][2..];
      PairsThenPair(words[2..], fields[words[0] := words[1]]);
    }
  }

  /** The last pair of a field wins; a field without a pair keeps what it had. */
  lemma {:induction false} LastPairWins(words: seq<string>, fields: map<string, string>, f: string)
    requires |words| % 2 == 0
    ensures var r := StorePairs(words, fields);
            match LastValue(words, f)
            case Some(value) => f in r && r[f] == value
            case None => (f in r <==> f in fields) && (f in fields ==> r[f] == fields[f])
    decreases |words|
  {
    if |words| >= 2 {
      PairsThenPair(words, fields);
      LastPairWins(words[..|words| - 2], fields, f);
    }
  }

  /** ZADD's loop. */
  method AddScores(o: ZAddOptions, inputs: seq<ScoredMember>, before: map<string, real>)
    returns (scores: map<string, real>, added: nat, updated: nat)
    ensures ZAddState(scores, added, updated) == ZAddAll(o, inputs, ZAddState(before, 0, 0))
    ensures added == |scores| - |before|
  {
    scores, added, updated := before, 0, 0;
    for i := 0 to |inputs|
      invariant ZAddState(scores, added, updated) == ZAddAll(o, inputs[..i], ZAddState(before, 0, 0))
      invariant added == |scores| - |before|
    {
      assert inputs[..i + 1][..i] == inputs[..i];
      var input := inputs[i];
      SizeWith(scores, input.member, input.score);
      if input.member !in scores {
        if o.xx {
          continue;
        }
        scores := scores[input.member := input.score];
        added := added + 1;
        continue;
      }
      var found := scores[input.member];
      if o.nx || (o.gt && !(input.score > found)) || (o.lt && !(input.score < found)) || input.score == found {
        continue;
      }
      scores := scores[input.member := input.score];
      updated := updated + 1;
    }
    assert inputs[..|inputs|] == inputs;
  }

  /**
   * What ZADD's options promise for every member, whatever is repeated in the arguments: NX leaves present members
   * alone, XX adds none, GT never lowers and LT never raises a score; no member goes; and counts of 0 mean no change.
   */
  lemma {:induction false} ZAddKeepsPromises(o: ZAddOptions, inputs: seq<ScoredMember>, before: map<string, real>,
                                             m: string)
    ensures var st := ZAddAll(o, inputs, ZAddState(before, 0, 0)); var after := st.scores;
            && (m in before ==> m in after)
            && (m in before && o.nx ==> after[m] == before[m])
            && (m in before && o.gt ==> after[m] >= before[m])
            && (m in before && o.lt ==> after[m] <= before[m])
            && (m !in before && o.xx ==> m !in after)
            && (st.added + st.updated == 0 ==> after == before)
  {
    if inputs == [] {
    } else {
      ZAddKeepsPromises(o, inputs[..|inputs| - 1], before, m);
    }
  }

  method ParseZAddOptions(words: seq<string>) returns (r: ZAddOptionsRead)
    ensures r == ZAddOptionsFrom(words, NO_ZADD_OPTIONS)
  {
    hide Upper;
    var o := NO_ZADD_OPTIONS;
    var i := 0;
    assert words[0..] == words;
    while i < |words|
      invariant i <= |words| && ZAddOptionsFrom(words[i..], o) == ZAddOptionsFrom(words, NO_ZADD_OPTIONS)
    {
      assert words[i..][0] == words[i] && words[i..][1..] == words[i + 1..];
      var option := Upper(words[i]);
      if option == "NX" {
        if o.nx {
          return BadOption;
        }
        o := o.(nx := true);
      } else if option == "XX" {
        if o.xx {
          return BadOption;
        }
        o := o.(xx := true);
      } else if option == "GT" {
        if o.gt {
          return BadOption;
        }
        o := o.(gt := true);
      } else if option == "LT" {
        if o.lt {
          return BadOption;
        }
        o := o.(lt := true);
      } else if option == "CH" {
        if o.ch {
          return BadOption;
        }
        o := o.(ch := true);
      } else if option == "INCR" {
        if o.incr {
          return BadOption;
        }
        o := o.(incr := true);
      } else {
        break;
      }
      i := i + 1;
    }
    return OptionsRead(o, words[i..]);
  }

  // ---- what the commands promise

  /** Accepted SET options never contradict each other, whatever their order and spelling. */
  lemma {:induction false} SetOptionsAreCompatible(words: seq<string>, now: u64, hasExpiry: bool, o: SetOptions)
    requires !(o.nx && o.xx) && !(o.keepTtl && o.deadline != 0) && (o.keepTtl || o.deadline != 0 ==> hasExpiry)
    ensures SetOptionsFrom(words, now, hasExpiry, o).Some? ==>
              var r := SetOptionsFrom(words, now, hasExpiry, o).value;
              !(r.nx && r.xx) && !(r.nx && r.get) && !(r.keepTtl && r.deadline != 0)
  {
    hide Upper, ParseInt64, Commands.ComputeDeadline, ExpiryDeadline;
    if words == [] {
    } else {
      var option := Upper(words[0]);
      if option == "NX" && !o.nx && !o.xx {
        SetOptionsAreCompatible(words[1..], now, hasExpiry, o.(nx := true));
      } else if option == "XX" && !o.nx && !o.xx {
        SetOptionsAreCompatible(words[1..], now, hasExpiry, o.(xx := true));
      } else if option == "GET" && !o.get {
        SetOptionsAreCompatible(words[1..], now, hasExpiry, o.(get := true));
      } else if option == "KEEPTTL" && !hasExpiry {
        SetOptionsAreCompatible(words[1..], now, true, o.(keepTtl := true));
      } else if IsExpiryOption(option) && !hasExpiry && |words| >= 2 && ExpiryDeadline(option, words[1], now).Some? {
        SetOptionsAreCompatible(words[2..], now, true, o.(deadline := ExpiryDeadline(option, words[1], now).value));
      }
    }
  }

  /**
   * An increment that succeeded is undone by the opposite decrement: the number comes back, and so does its deadline.
   */
  lemma IncrementIsUndone(delta: int, existing: Option<Object>)
    requires I64_MIN < delta <= I64_MAX && !AddEffect(delta, existing).failed
    ensures var stored := AddEffect(delta, existing).result.stored;
            && stored.Some? && !AddEffect(-delta, stored).failed
            && var back := AddEffect(-delta, stored).result.stored.value;
               back.deadline == DeadlineOf(existing)
               && ParseInt64(back.value.text)
                  == (if existing.Some? then ParseInt64(existing.value.value.text) else Some(0))
  {
    hide ParseInt64, DecimalOfInt;
    var current := if existing.None? then 0 else ParseInt64(existing.value.value.text).value;
    if existing.Some? {
      ParsedFits(existing.value.value.text);
    }
    ParseInt64OfDecimal(current + delta);
    ParseInt64OfDecimal(current);
  }

  /** SPOP removes exactly as many members as asked for, or all of them, and logs exactly those. */
  lemma PopTakesWhatItLogs(choose: Choice, key: string, count: nat, existing: Object)
    requires FairChoice(choose) && count > 0 && existing.value.Members? && existing.value.members != {}
    ensures var members := existing.value.members;
            var result := PopEffect(choose, key, count, Some(existing)).result;
            var left := if result.stored.Some? then result.stored.value.value.members else {};
            && result.changed && result.record == Some(["SREM", key] + choose(members, count))
            && left + WordSet(choose(members, count)) == members && left !! WordSet(choose(members, count))
            && |members| - |left| == Min(count, |members|)
  {
    var members := existing.value.members;
    var picked := choose(members, count);
    assert picked != [];
    assert Lists(picked, WordSet(picked));
    ListLength(picked, WordSet(picked));
    assert WordSet(picked) <= members;
    assert |members| == |members - WordSet(picked)| + |WordSet(picked)| by {
      assert members == (members - WordSet(picked)) + WordSet(picked);
    }
  }

  /**
   * EXPIRE with a positive time leaves the object alive at the moment of the command, and expired once it has passed.
   */
  lemma ExpireWaits(m: ObjectMap, key: string, seconds: int, now: u64)
    requires seconds > 0 && now < U64_MAX && Live(m, key, now).Some?
    ensures var after := Expiration(m, key, seconds, now).value.objects[key];
            && after.value == m[key].value && !after.Expired(now)
            && (now + seconds * MICROS_PER_SECOND <= U64_MAX ==>
                  forall t: u64 :: after.Expired(t) <==> t >= now + seconds * MICROS_PER_SECOND)
  {
    if seconds > U64_MAX / MICROS_PER_SECOND {
      QuotientBounds(seconds, MICROS_PER_SECOND, U64_MAX);
    }
  }
}
