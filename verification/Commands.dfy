/** What the write commands do to one key (src/command/{string,hash,set,zset,key}_cmd.cpp). */
module Commands {
  import opened Core
  import opened HashSlot
  import opened Numbers
  import opened Order

  /** Score text and score addition; both are deterministic and may reject. */
  datatype Scoring = Scoring(parse: string -> Option<real>, add: (real, real) -> Option<real>)

  /** The random choice that SPOP makes: members of the set, no more than the count asked for. */
  type Choice = (set<string>, nat) -> seq<string>

  ghost predicate FairChoice(choose: Choice) {
    forall s: set<string>, n: nat {:trigger choose(s, n)} ::
      s != {} && n > 0 ==>
        && choose(s, n) != [] && Distinct(choose(s, n)) && (forall x :: x in choose(s, n) ==> x in s)
        && |choose(s, n)| == Min(n, |s|)
  }

  lemma FairChoiceExists() returns (choose: Choice)
    ensures FairChoice(choose)
  {
    choose := (s: set<string>, n: nat) => Listing(s)[..Min(n, |s|)];
    assert forall s: set<string> :: s != {} ==> |s| > 0;
  }

  function UpperChar(c: char): char {
    if 'a' <= c <= 'z' then 'A' + (c - 'a') else c
  }

  /** ToUpperAscii. */
  function Upper(text: string): (upper: string)
    ensures |upper| == |text|
  {
    seq(|text|, i requires 0 <= i < |text| => UpperChar(text[i]))
  }

  lemma UpperTwice(text: string)
    ensures Upper(Upper(text)) == Upper(text)
  {
  }

  /** The outcome of a mutator: the slot's instruction, and whether the command answers with an error. */
  datatype Effect = Effect(result: MutationResult, failed: bool)

  const KEEP := Effect(MutationResult(false, None, None), false)
  const FAIL := Effect(MutationResult(false, None, None), true)

  function Store(value: Value, deadline: u64): Effect {
    Effect(MutationResult(true, Some(Object(value, deadline)), None), false)
  }

  const ERASE := Effect(MutationResult(true, None, None), false)

  function DeadlineOf(existing: Option<Object>): u64 {
    if existing.Some? then existing.value.deadline else 0
  }

  // ---- strings

  datatype SetOptions = SetOptions(nx: bool, xx: bool, get: bool, keepTtl: bool, deadline: u64)

  const NO_SET_OPTIONS := SetOptions(false, false, false, false, 0)

  function ComputeDeadline(option: string, amount: nat, now: u64): Option<u64> {
    var scaled: nat := amount * (if option == "EX" || option == "EXAT" then 1_000_000 else 1_000);
    var deadline: nat := scaled + (if option == "EX" || option == "PX" then now else 0);
    if scaled > U64_MAX || deadline > U64_MAX then None else Some(deadline)
  }

  predicate IsExpiryOption(option: string) {
    option == "EX" || option == "PX" || option == "EXAT" || option == "PXAT"
  }

  function ExpiryDeadline(option: string, text: string, now: u64): Option<u64> {
    match ParseInt64(text)
    case None => None
    case Some(amount) => if amount <= 0 then None else ComputeDeadline(option, amount, now)
  }

  /** The options in the remaining words; None is a syntax, number or expiry error. */
  function SetOptionsFrom(words: seq<string>, now: u64, hasExpiry: bool, o: SetOptions): Option<SetOptions> {
    if words == [] then (if o.nx && o.get then None else Some(o))
    else
      var option := Upper(words[0]);
      if option == "NX" then
        if o.nx || o.xx then None else SetOptionsFrom(words[1..], now, hasExpiry, o.(nx := true))
      else if option == "XX" then
        if o.nx || o.xx then None else SetOptionsFrom(words[1..], now, hasExpiry, o.(xx := true))
      else if option == "GET" then
        if o.get then None else SetOptionsFrom(words[1..], now, hasExpiry, o.(get := true))
      else if option == "KEEPTTL" then
        if hasExpiry then None else SetOptionsFrom(words[1..], now, true, o.(keepTtl := true))
      else if IsExpiryOption(option) then
        if hasExpiry || |words| < 2 then None
        else
          match ExpiryDeadline(option, words[1], now)
          case None => None
          case Some(deadline) => SetOptionsFrom(words[2..], now, true, o.(deadline := deadline))
      else None
  }

  /** SET with the words after its key: the value, then the options. */
  function SetEffect(words: seq<string>, now: u64, existing: Option<Object>): Effect
    requires |words| >= 1
  {
    match SetOptionsFrom(words[1..], now, false, NO_SET_OPTIONS)
    case None => FAIL
    case Some(o) =>
      if o.get && existing.Some? && !existing.value.value.Text? then FAIL
      else if (o.nx && existing.Some?) || (o.xx && existing.None?) then KEEP
      else Store(Text(words[0]), if o.deadline != 0 then o.deadline else if o.keepTtl then DeadlineOf(existing) else 0)
  }

  function AppendEffect(suffix: string, existing: Option<Object>): Effect {
    if existing.None? then Store(Text(suffix), 0)
    else if !existing.value.value.Text? then FAIL
    else Store(Text(existing.value.value.text + suffix), existing.value.deadline)
  }

  /** INCR, DECR, INCRBY and DECRBY, delta being the signed amount. */
  function AddEffect(delta: int, existing: Option<Object>): Effect {
    if existing.Some? && !existing.value.value.Text? then FAIL
    else
      match (if existing.None? then Some(0) else ParseInt64(existing.value.value.text))
      case None => FAIL
      case Some(current) =>
        if I64_MIN <= current + delta <= I64_MAX
        then Store(Text(DecimalOfInt(current + delta)), DeadlineOf(existing))
        else FAIL
  }

  // ---- hashes

  /** The fields after the field-value pairs were stored in order. */
  function StorePairs(words: seq<string>, fields: map<string, string>): map<string, string> {
    if |words| < 2 then fields else StorePairs(words[2..], fields[words[0] := words[1]])
  }

  function WordSet(words: seq<string>): set<string> {
    set w | w in words
  }

  function FieldsOf(existing: Option<Object>): Option<map<string, string>> {
    if existing.None? then Some(map[])
    else if existing.value.value.Hash? then Some(existing.value.value.fields) else None
  }

  function HashSetEffect(words: seq<string>, existing: Option<Object>): Effect {
    match FieldsOf(existing)
    case None => FAIL
    case Some(fields) => Store(Hash(StorePairs(words, fields)), DeadlineOf(existing))
  }

  function HashDelEffect(words: seq<string>, existing: Option<Object>): Effect {
    if existing.None? then KEEP
    else if !existing.value.value.Hash? then FAIL
    else
      var fields := existing.value.value.fields;
      var rest := fields - WordSet(words);
      if rest == fields then KEEP else if rest == map[] then ERASE else Store(Hash(rest), existing.value.deadline)
  }

  function HashIncrEffect(field: string, increment: int, existing: Option<Object>): Effect {
    match FieldsOf(existing)
    case None => FAIL
    case Some(fields) =>
      match (if field in fields then ParseInt64(fields[field]) else Some(0))
      case None => FAIL
      case Some(current) =>
        if I64_MIN <= current + increment <= I64_MAX
        then Store(Hash(fields[field := DecimalOfInt(current + increment)]), DeadlineOf(existing))
        else FAIL
  }

  // ---- sets

  function SetAddEffect(words: seq<string>, existing: Option<Object>): Effect {
    if existing.Some? && !existing.value.value.Members? then FAIL
    else
      var members := if existing.None? then {} else existing.value.value.members;
      var next := members + WordSet(words);
      if next == members then KEEP else Store(Members(next), DeadlineOf(existing))
  }

  function SetRemEffect(words: seq<string>, existing: Option<Object>): Effect {
    if existing.None? then KEEP
    else if !existing.value.value.Members? then FAIL
    else
      var members := existing.value.value.members;
      var next := members - WordSet(words);
      if next == members then KEEP else if next == {} then ERASE else Store(Members(next), existing.value.deadline)
  }

  /** SPOP logs the members it chose, as an SREM. */
  function PopEffect(choose: Choice, key: string, count: nat, existing: Option<Object>): Effect {
    if existing.None? then KEEP
    else if !existing.value.value.Members? then FAIL
    else if existing.value.value.members == {} then KEEP
    else
      var members := existing.value.value.members;
      var picked := choose(members, count);
      var next := members - WordSet(picked);
      var stored := if next == {} then None else Some(Object(Members(next), existing.value.deadline));
      Effect(MutationResult(true, stored, Some(["SREM", key] + picked)), false)
  }

  // ---- sorted sets

  datatype ZAddOptions = ZAddOptions(nx: bool, xx: bool, gt: bool, lt: bool, ch: bool, incr: bool)

  const NO_ZADD_OPTIONS := ZAddOptions(false, false, false, false, false, false)

  datatype ZAddOptionsRead = BadOption | OptionsRead(options: ZAddOptions, rest: seq<string>)

  /** Option words up to the first other word; a repeated option is an error. */
  function ZAddOptionsFrom(words: seq<string>, o: ZAddOptions): ZAddOptionsRead {
    if words == [] then OptionsRead(o, words)
    else
      var option := Upper(words[0]);
      if option == "NX" then if o.nx then BadOption else ZAddOptionsFrom(words[1..], o.(nx := true))
      else if option == "XX" then if o.xx then BadOption else ZAddOptionsFrom(words[1..], o.(xx := true))
      else if option == "GT" then if o.gt then BadOption else ZAddOptionsFrom(words[1..], o.(gt := true))
      else if option == "LT" then if o.lt then BadOption else ZAddOptionsFrom(words[1..], o.(lt := true))
      else if option == "CH" then if o.ch then BadOption else ZAddOptionsFrom(words[1..], o.(ch := true))
      else if option == "INCR" then if o.incr then BadOption else ZAddOptionsFrom(words[1..], o.(incr := true))
      else OptionsRead(o, words)
  }

  datatype ScoredMember = ScoredMember(score: real, member: string)

  function ScoredPairs(sc: Scoring, words: seq<string>): Option<seq<ScoredMember>> {
    if |words| < 2 then Some([])
    else
      match (sc.parse(words[0]), ScoredPairs(sc, words[2..]))
      case (Some(score), Some(rest)) => Some([ScoredMember(score, words[1])] + rest)
      case (_, _) => None
  }

  datatype ZAddParse = BadZAdd | ZAddParse(options: ZAddOptions, inputs: seq<ScoredMember>)

  function ParseZAdd(sc: Scoring, words: seq<string>): ZAddParse {
    match ZAddOptionsFrom(words, NO_ZADD_OPTIONS)
    case BadOption => BadZAdd
    case OptionsRead(o, rest) =>
      if (o.nx && (o.xx || o.gt || o.lt)) || (o.gt && o.lt) then BadZAdd
      else if |rest| < 2 || |rest| % 2 != 0 || (o.incr && |rest| != 2) then BadZAdd
      else
        match ScoredPairs(sc, rest)
        case None => BadZAdd
        case Some(inputs) => ZAddParse(o, inputs)
  }

  datatype ZAddState = ZAddState(scores: map<string, real>, added: nat, updated: nat)

  function ZAddOne(o: ZAddOptions, input: ScoredMember, st: ZAddState): ZAddState {
    if input.member !in st.scores then
      if o.xx then st else ZAddState(st.scores[input.member := input.score], st.added + 1, st.updated)
    else
      var old' := st.scores[input.member];
      if o.nx || (o.gt && !(input.score > old')) || (o.lt && !(input.score < old')) || input.score == old' then st
      else ZAddState(st.scores[input.member := input.score], st.added, st.updated + 1)
  }

  function ZAddAll(o: ZAddOptions, inputs: seq<ScoredMember>, st: ZAddState): ZAddState {
    if inputs == [] then st else ZAddOne(o, inputs[|inputs| - 1], ZAddAll(o, inputs[..|inputs| - 1], st))
  }

  function ScoresOf(existing: Option<Object>): Option<map<string, real>> {
    if existing.None? then Some(map[])
    else if existing.value.value.Scores? then Some(existing.value.value.scores) else None
  }

  function ZIncrEffect(sc: Scoring, o: ZAddOptions, increment: real, member: string, existing: Option<Object>): Effect {
    match ScoresOf(existing)
    case None => FAIL
    case Some(scores) =>
      var present := member in scores;
      if (present && o.nx) || (!present && o.xx) then KEEP
      else
        var old' := if present then scores[member] else 0.0;
        match sc.add(old', increment)
        case None => FAIL
        case Some(next) =>
          if present && ((o.gt && !(next > old')) || (o.lt && !(next < old')) || next == old') then KEEP
          else Store(Scores(scores[member := next]), DeadlineOf(existing))
  }

  function ZAddEffect(sc: Scoring, words: seq<string>, existing: Option<Object>): Effect {
    match ParseZAdd(sc, words)
    case BadZAdd => FAIL
    case ZAddParse(o, inputs) =>
      if o.incr && inputs != [] then ZIncrEffect(sc, o, inputs[0].score, inputs[0].member, existing)
      else
        match ScoresOf(existing)
        case None => FAIL
        case Some(scores) =>
          var end := ZAddAll(o, inputs, ZAddState(scores, 0, 0));
          if end.added + end.updated == 0 then KEEP else Store(Scores(end.scores), DeadlineOf(existing))
  }

  function ZRemEffect(words: seq<string>, existing: Option<Object>): Effect {
    if existing.None? then KEEP
    else if !existing.value.value.Scores? then FAIL
    else
      var scores := existing.value.value.scores;
      var rest := scores - WordSet(words);
      if rest == scores then KEEP else if rest == map[] then ERASE else Store(Scores(rest), existing.value.deadline)
  }

  // ---- dispatch

  /** The registered write commands with their arity checks; the name is in upper case. */
  predicate ArityOk(name: string, n: nat) {
    if name == "SET" || name == "SADD" || name == "SREM" || name == "HDEL" || name == "ZREM" then n >= 3
    else if name == "SETNX" || name == "GETSET" || name == "APPEND" || name == "INCRBY" || name == "DECRBY" then n == 3
    else if name == "INCR" || name == "DECR" then n == 2
    else if name == "HSET" || name == "HMSET" then n >= 4 && n % 2 == 0
    else if name == "HINCRBY" || name == "ZINCRBY" then n == 4
    else if name == "SPOP" then n == 2 || n == 3
    else if name == "ZADD" then n >= 4
    else if name == "DEL" then n >= 2
    else name == "EXPIRE" && n == 3
  }

  const WRITE_COMMANDS: set<string> := {
    "SET", "SETNX", "GETSET", "APPEND", "INCR", "DECR", "INCRBY", "DECRBY", "HSET", "HDEL", "HMSET", "HINCRBY",
    "SADD", "SREM", "SPOP", "ZADD", "ZREM", "ZINCRBY", "DEL", "EXPIRE" }

  predicate IsWriteCommand(command: string) {
    Upper(command) in WRITE_COMMANDS
  }

  /** The mutator of every write command that goes through HashSlot::Mutate or Update; words follow the key. */
  function MutatorEffect(sc: Scoring, choose: Choice, name: string, key: string, words: seq<string>, now: u64,
                         existing: Option<Object>): Effect
    requires ArityOk(name, |words| + 2)
  {
    if name == "SET" then SetEffect(words, now, existing)
    else if name == "SETNX" then (if existing.Some? then KEEP else Store(Text(words[0]), 0))
    else if name == "GETSET" then
      (if existing.Some? && !existing.value.value.Text? then FAIL else Store(Text(words[0]), 0))
    else if name == "APPEND" then AppendEffect(words[0], existing)
    else if name == "INCR" then AddEffect(1, existing)
    else if name == "DECR" then AddEffect(-1, existing)
    else if name == "INCRBY" then
      (match ParseInt64(words[0]) case None => FAIL case Some(delta) => AddEffect(delta, existing))
    else if name == "DECRBY" then
      (match ParseInt64(words[0]) case None => FAIL case Some(delta) => AddEffect(-delta, existing))
    else if name == "HSET" || name == "HMSET" then HashSetEffect(words, existing)
    else if name == "HDEL" then HashDelEffect(words, existing)
    else if name == "HINCRBY" then
      (match ParseInt64(words[1]) case None => FAIL case Some(delta) => HashIncrEffect(words[0], delta, existing))
    else if name == "SADD" then SetAddEffect(words, existing)
    else if name == "SREM" then SetRemEffect(words, existing)
    else if name == "SPOP" then
      (match (if words == [] then Some(1) else ParseInt64(words[0]))
       case None => FAIL
       case Some(count) =>
         if count < 0 then FAIL
         else if count == 0 then (if existing.Some? && !existing.value.value.Members? then FAIL else KEEP)
         else PopEffect(choose, key, count, existing))
    else if name == "ZADD" then ZAddEffect(sc, words, existing)
    else if name == "ZINCRBY" then
      (match sc.parse(words[0])
       case None => FAIL
       case Some(increment) => ZIncrEffect(sc, NO_ZADD_OPTIONS, increment, words[1], existing))
    else if name == "ZREM" then ZRemEffect(words, existing)
    else FAIL
  }

  /** The record a command leaves unless its mutator supplies one: its upper-case name and its arguments. */
  function DefaultRecord(args: seq<string>): seq<string>
    requires args != []
  {
    [Upper(args[0])] + args[1..]
  }

  datatype Outcome = Outcome(change: Option<Change>, failed: bool)

  /** A write command on one slot; DEL here removes its first key only (each further key is a write of its own). */
  function Run(sc: Scoring, choose: Choice, args: seq<string>, now: u64, m: ObjectMap): Outcome {
    if |args| < 2 || !IsWriteCommand(args[0]) || !ArityOk(Upper(args[0]), |args|) then Outcome(None, true)
    else if Upper(args[0]) == "DEL" then Outcome(Deletion(m, args[1], now), false)
    else if Upper(args[0]) == "EXPIRE" then
      match ParseInt64(args[2])
      case None => Outcome(None, true)
      case Some(seconds) => Outcome(Expiration(m, args[1], seconds, now), false)
    else
      var effect := MutatorEffect(sc, choose, Upper(args[0]), args[1], args[2..], now, Live(m, args[1], now));
      Outcome(Mutation(m, args[1], DefaultRecord(args), now, effect.result), effect.failed)
  }
}
