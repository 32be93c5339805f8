/** The snapshot payload of a whole slot (src/repl/snapshot_codec.cpp), as the list of its bulk strings. */
module SnapshotCodec {
  import opened Core
  import opened Numbers
  import opened Order
  import opened ScoreText
  import opened Commands

  const MAGIC := "CACHE.SNAPSHOT.V1"
  const MAX_SNAPSHOT_ELEMENTS: nat := 1_000_000

  /** How containers are visited and how scores are printed. */
  datatype Layout = Layout(order: VisitOrder, show: real -> Printed)

  // ---- encoding

  function PairWords(keys: seq<string>, fields: map<string, string>): seq<string>
    requires forall k :: k in keys ==> k in fields
  {
    if keys == [] then [] else [keys[0], fields[keys[0]]] + PairWords(keys[1..], fields)
  }

  function ScoreTexts(show: real -> Printed, scores: map<string, real>): map<string, string> {
    map k | k in scores :: FormatScore(show, scores[k])
  }

  function TypeName(v: Value): string {
    match v
    case Text(_) => "string"
    case Hash(_) => "hash"
    case Members(_) => "set"
    case Scores(_) => "zset"
  }

  ghost function ValueWords(lay: Layout, v: Value): seq<string>
    requires IsVisitOrder(lay.order)
  {
    match v
    case Text(text) => [text]
    case Hash(fields) => PairWords(lay.order(fields.Keys), fields)
    case Members(members) => lay.order(members)
    case Scores(scores) => PairWords(lay.order(scores.Keys), ScoreTexts(lay.show, scores))
  }

  ghost function ObjectWords(lay: Layout, key: string, o: Object): seq<string>
    requires IsVisitOrder(lay.order)
  {
    [key, Decimal(o.deadline), TypeName(o.value), Decimal(|ValueWords(lay, o.value)|)] + ValueWords(lay, o.value)
  }

  ghost function ObjectsWords(lay: Layout, keys: seq<string>, m: ObjectMap): seq<string>
    requires IsVisitOrder(lay.order) && forall k :: k in keys ==> k in m
  {
    if keys == [] then [] else ObjectWords(lay, keys[0], m[keys[0]]) + ObjectsWords(lay, keys[1..], m)
  }

  /** Expired objects are included: a write that began before the expiry may still extend them. */
  ghost function Encode(lay: Layout, m: ObjectMap): seq<string>
    requires IsVisitOrder(lay.order)
  {
    [MAGIC, Decimal(|m|)] + ObjectsWords(lay, lay.order(m.Keys), m)
  }

  // ---- the wire text: "*<count>" and "$<length>" with each part ended by CR LF

  const CRLF := "\r\n"

  function Bulk(word: string): string {
    "$" + Decimal(|word|) + CRLF + word + CRLF
  }

  function Bulks(words: seq<string>): string {
    if words == [] then "" else Bulk(words[0]) + Bulks(words[1..])
  }

  function Wire(words: seq<string>): string {
    "*" + Decimal(|words|) + CRLF + Bulks(words)
  }

  lemma {:induction false} BulksAreLargeEnough(words: seq<string>)
    ensures 6 * |words| <= |Bulks(words)|
  {
    if words == [] {
    } else {
      BulksAreLargeEnough(words[1..]);
    }
  }

  function LineEnd(text: string, i: nat): Option<nat>
    decreases |text| - i
  {
    if i + 1 >= |text| then None
    else if text[i] == '\r' && text[i + 1] == '\n' then Some(i)
    else LineEnd(text, i + 1)
  }

  lemma {:induction false} LineEndAfterDigits(text: string, i: nat, end: nat)
    requires i <= end && end + 1 < |text| && text[end] == '\r' && text[end + 1] == '\n'
    requires forall k :: i <= k < end ==> IsDigit(text[k]) || text[k] == '*'
    ensures LineEnd(text, i) == Some(end)
    decreases end - i
  {
    if i < end {
      LineEndAfterDigits(text, i + 1, end);
    }
  }

  lemma HeaderEnds(digits: string, body: string)
    requires AllDigits(digits)
    ensures var payload, end := "*" + digits + CRLF + body, 1 + |digits|;
            && payload[0] == '*' && LineEnd(payload, 0) == Some(end) && payload[1..end] == digits
            && |payload| - end - 2 == |body|
  {
    var payload, end := "*" + digits + CRLF + body, 1 + |digits|;
    assert forall k :: 1 <= k < end ==> payload[k] == digits[k - 1];
    assert payload[end] == '\r' && payload[end + 1] == '\n';
    LineEndAfterDigits(payload, 0, end);
  }

  lemma WireHeader(words: seq<string>)
    ensures var payload, end := Wire(words), 1 + |Decimal(|words|)|;
            && payload[0] == '*' && LineEnd(payload, 0) == Some(end) && payload[1..end] == Decimal(|words|)
            && |payload| - end - 2 == |Bulks(words)|
  {
    HeaderEnds(Decimal(|words|), Bulks(words));
  }

  // ---- decoding

  function ReadScores(parse: string -> Option<real>, words: seq<string>, scores: map<string, real>)
      : Option<map<string, real>>
  {
    if |words| < 2 then Some(scores)
    else
      match parse(words[1])
      case None => None
      case Some(score) => ReadScores(parse, words[2..], scores[words[0] := score])
  }

  function DecodeValue(parse: string -> Option<real>, kind: string, words: seq<string>): Option<Value> {
    if kind == "string" then (if |words| == 1 then Some(Text(words[0])) else None)
    else if kind == "hash" then (if |words| % 2 == 0 then Some(Hash(StorePairs(words, map[]))) else None)
    else if kind == "set" then Some(Members(WordSet(words)))
    else if kind == "zset" && |words| % 2 == 0 then
      match ReadScores(parse, words, map[])
      case None => None
      case Some(scores) => Some(Scores(scores))
    else None
  }

  function DecodeObjects(parse: string -> Option<real>, words: seq<string>, count: nat, m: ObjectMap): Option<ObjectMap>
    decreases |words|
  {
    if count == 0 then (if words == [] then Some(m) else None)
    else if |words| < 4 then None
    else
      var deadline, n := ParseU64(words[1]), ParseU64(words[3]);
      if deadline.None? || n.None? || n.value > |words| - 4 then None
      else
        match DecodeValue(parse, words[2], words[4..4 + n.value])
        case None => None
        case Some(value) =>
          DecodeObjects(parse, words[4 + n.value..], count - 1, m[words[0] := Object(value, deadline.value)])
  }

  function Decode(parse: string -> Option<real>, words: seq<string>): Option<ObjectMap> {
    if |words| < 2 || words[0] != MAGIC then None
    else
      match ParseU64(words[1])
      case None => None
      case Some(count) => DecodeObjects(parse, words[2..], count, map[])
  }

  /** The RESP reader of the library that is not part of this model, on arrays of bulk strings. */
  type Unpacker = string -> Option<seq<string>>

  ghost predicate UnpacksWire(unpack: Unpacker) {
    forall words: seq<string> {:trigger Wire(words)} :: unpack(Wire(words)) == Some(words)
  }

  /** The element count in the header bounds what is allocated before anything is read. */
  function DecodePayload(parse: string -> Option<real>, unpack: Unpacker, payload: string): Option<ObjectMap> {
    var end := LineEnd(payload, 0);
    if payload == "" || payload[0] != '*' || end.None? || end.value < 1 || end.value > |payload| - 2 then None
    else
      var count := ParseU64(payload[1..end.value]);
      if count.None? || count.value > MAX_SNAPSHOT_ELEMENTS || count.value > (|payload| - end.value - 2) / 6 then None
      else
        match unpack(payload)
        case None => None
        case Some(words) => Decode(parse, words)
  }

  // ---- the encoder and the decoder, loop by loop

  method PackPairs(keys: seq<string>, fields: map<string, string>, before: seq<string>) returns (out: seq<string>)
    requires forall k :: k in keys ==> k in fields
    ensures out == before + PairWords(keys, fields)
  {
    out := before;
    for i := 0 to |keys|
      invariant out + PairWords(keys[i..], fields) == before + PairWords(keys, fields)
    {
      assert keys[i..][0] == keys[i] && keys[i..][1..] == keys[i + 1..];
      assert out + PairWords(keys[i..], fields)
             == (out + [keys[i], fields[keys[i]]]) + PairWords(keys[i + 1..], fields);
      out := out + [keys[i], fields[keys[i]]];
    }
  }

  lemma {:induction false} PairWordsLength(keys: seq<string>, fields: map<string, string>)
    requires forall k :: k in keys ==> k in fields
    ensures |PairWords(keys, fields)| == 2 * |keys|
  {
    if keys == [] {
    } else {
      PairWordsLength(keys[1..], fields);
    }
  }

  /** Appends the body of one object; `size` is the number of words that its header announces. */
  method PackValue(lay: Layout, v: Value, before: seq<string>) returns (size: nat, out: seq<string>)
    requires IsVisitOrder(lay.order)
    ensures size == |ValueWords(lay, v)| && out == before + ValueWords(lay, v)
  {
    out := before;
    match v
    case Text(text) =>
      size, out := 1, out + [text];
    case Hash(fields) =>
      var keys := lay.order(fields.Keys);
      assert Lists(keys, fields.Keys);
      ListLength(keys, fields.Keys);
      PairWordsLength(keys, fields);
      size := |fields| * 2;
      out := PackPairs(keys, fields, out);
    case Members(members) =>
      var keys := lay.order(members);
      assert Lists(keys, members);
      ListLength(keys, members);
      size := |members|;
      for i := 0 to |keys|
        invariant out == before + keys[..i]
      {
        out := out + [keys[i]];
      }
      assert keys[..|keys|] == keys;
    case Scores(scores) =>
      var keys := lay.order(scores.Keys);
      assert Lists(keys, scores.Keys);
      ListLength(keys, scores.Keys);
      PairWordsLength(keys, ScoreTexts(lay.show, scores));
      size := |scores| * 2;
      out := PackPairs(keys, ScoreTexts(lay.show, scores), out);
  }

  method PackObject(lay: Layout, key: string, o: Object) returns (size: nat, words: seq<string>)
    requires IsVisitOrder(lay.order)
    ensures words == ObjectWords(lay, key, o) && size == |words|
  {
    var body;
    size, body := PackValue(lay, o.value, []);
    words := [key, Decimal(o.deadline), TypeName(o.value), Decimal(size)] + body;
    size := size + 4;
  }

  lemma Concat3(a: seq<string>, b: seq<string>, c: seq<string>)
    ensures a + (b + c) == (a + b) + c
  {
  }

  /** The payload, and the element count that its array header announces before any element is written. */
  method EncodeSnapshotPayload(lay: Layout, m: ObjectMap) returns (elements: nat, out: seq<string>)
    requires IsVisitOrder(lay.order)
    ensures out == Encode(lay, m) && elements == |out|
  {
    var keys := lay.order(m.Keys);
    assert Lists(keys, m.Keys);
    elements, out := 2, [MAGIC, Decimal(|m|)];
    assert keys[0..] == keys;
    for i := 0 to |keys|
      invariant elements == |out|
      invariant Encode(lay, m) == out + ObjectsWords(lay, keys[i..], m)
    {
      assert keys[i..][0] == keys[i] && keys[i..][1..] == keys[i + 1..];
      var size, words := PackObject(lay, keys[i], m[keys[i]]);
      Concat3(out, words, ObjectsWords(lay, keys[i + 1..], m));
      out := out + words;
      elements := elements + size;
    }
  }

  method UnpackPairs(words: seq<string>) returns (fields: map<string, string>)
    requires |words| % 2 == 0
    ensures fields == StorePairs(words, map[])
  {
    fields := map[];
    var i := 0;
    while i < |words|
      invariant 0 <= i <= |words| && i % 2 == 0
      invariant StorePairs(words[i..], fields) == StorePairs(words, map[])
    {
      assert words[i..][0] == words[i] && words[i..][1] == words[i + 1] && words[i..][2..] == words[i + 2..];
      fields := fields[words[i] := words[i + 1]];
      i := i + 2;
    }
  }

  method UnpackScores(parse: string -> Option<real>, words: seq<string>) returns (r: Option<map<string, real>>)
    requires |words| % 2 == 0
    ensures r == ReadScores(parse, words, map[])
  {
    var scores: map<string, real> := map[];
    var i := 0;
    while i < |words|
      invariant 0 <= i <= |words| && i % 2 == 0
      invariant ReadScores(parse, words[i..], scores) == ReadScores(parse, words, map[])
    {
      assert words[i..][0] == words[i] && words[i..][1] == words[i + 1] && words[i..][2..] == words[i + 2..];
      var score := parse(words[i + 1]);
      if score.None? {
        return None;
      }
      scores := scores[words[i] := score.value];
      i := i + 2;
    }
    return Some(scores);
  }

  method UnpackValue(parse: string -> Option<real>, kind: string, words: seq<string>) returns (r: Option<Value>)
    ensures r == DecodeValue(parse, kind, words)
  {
    if kind == "string" {
      return if |words| == 1 then Some(Text(words[0])) else None;
    } else if kind == "hash" {
      if |words| % 2 != 0 {
        return None;
      }
      var fields := UnpackPairs(words);
      return Some(Hash(fields));
    } else if kind == "set" {
      var members := {};
      for i := 0 to |words|
        invariant members == WordSet(words[..i])
      {
        assert words[..i + 1] == words[..i] + [words[i]];
        members := members + {words[i]};
      }
      assert words[..|words|] == words;
      return Some(Members(members));
    } else if kind == "zset" && |words| % 2 == 0 {
      var scores := UnpackScores(parse, words);
      return if scores.Some? then Some(Scores(scores.value)) else None;
    }
    return None;
  }

  /** The header that starts at index, when it is complete and its numbers fit. */
  function Header(words: seq<string>, index: nat): Option<(u64, nat)> {
    if index + 4 > |words| then None
    else
      var deadline, n := ParseU64(words[index + 1]), ParseU64(words[index + 3]);
      if deadline.None? || n.None? || n.value > |words| - (index + 4) then None else Some((deadline.value, n.value))
  }

  /** One round of the decoder, on the words from index on. */
  lemma DecodeRound(parse: string -> Option<real>, words: seq<string>, index: nat, count: nat, m: ObjectMap)
    requires index <= |words| && count > 0
    ensures DecodeObjects(parse, words[index..], count, m) ==
            match Header(words, index)
            case None => None
            case Some((deadline, n)) =>
              match DecodeValue(parse, words[index + 2], words[index + 4..index + 4 + n])
              case None => None
              case Some(value) =>
                DecodeObjects(parse, words[index + 4 + n..], count - 1, m[words[index] := Object(value, deadline)])
  {
    hide ParseU64, DecodeValue;
    var rest := words[index..];
    if index + 4 <= |words| {
      assert rest[0] == words[index] && rest[1] == words[index + 1] && rest[2] == words[index + 2]
             && rest[3] == words[index + 3];
      if Header(words, index).Some? {
        var n := Header(words, index).value.1;
        assert rest[4..4 + n] == words[index + 4..index + 4 + n] && rest[4 + n..] == words[index + 4 + n..];
      }
    }
  }

  method UnpackObject(parse: string -> Option<real>, words: seq<string>, index: nat, ghost count: nat, m: ObjectMap)
    returns (failed: bool, index': nat, m': ObjectMap)
    requires index <= |words| && count > 0
    ensures index' <= |words|
    ensures DecodeObjects(parse, words[index..], count, m)
            == if failed then None else DecodeObjects(parse, words[index'..], count - 1, m')
  {
    hide ParseU64, DecodeValue, DecodeObjects;
    failed, index', m' := true, index, m;
    DecodeRound(parse, words, index, count, m);
    if index + 4 > |words| {
      return;
    }
    var deadline, fieldCount := ParseU64(words[index + 1]), ParseU64(words[index + 3]);
    if deadline.None? || fieldCount.None? || fieldCount.value > |words| - (index + 4) {
      return;
    }
    index' := index + 4 + fieldCount.value;
    var value := UnpackValue(parse, words[index + 2], words[index + 4..index']);
    if value.Some? {
      failed, m' := false, m[words[index] := Object(value.value, deadline.value)];
    }
  }

  method UnpackObjects(parse: string -> Option<real>, words: seq<string>, start: nat, count: nat)
    returns (r: Option<ObjectMap>)
    requires start <= |words|
    ensures r == DecodeObjects(parse, words[start..], count, map[])
  {
    hide ParseU64, DecodeValue;
    ghost var result := DecodeObjects(parse, words[start..], count, map[]);
    var m: ObjectMap := map[];
    var index, objectIndex, failed := start, 0, false;
    while objectIndex < count
      invariant 0 <= index <= |words| && 0 <= objectIndex <= count
      invariant DecodeObjects(parse, words[index..], count - objectIndex, m) == result
    {
      failed, index, m := UnpackObject(parse, words, index, count - objectIndex, m);
      if failed {
        return None;
      }
      objectIndex := objectIndex + 1;
    }
    return if index == |words| then Some(m) else None;
  }

  method UnpackWords(parse: string -> Option<real>, words: seq<string>) returns (r: Option<ObjectMap>)
    ensures r == Decode(parse, words)
  {
    if |words| < 2 || words[0] != MAGIC {
      return None;
    }
    var objectCount := ParseU64(words[1]);
    if objectCount.None? {
      return None;
    }
    r := UnpackObjects(parse, words, 2, objectCount.value);
  }

  /** The position of the first line end. */
  method FindLineEnd(text: string) returns (at: Option<nat>)
    ensures at == LineEnd(text, 0)
  {
    var i := 0;
    while i + 1 < |text|
      invariant LineEnd(text, 0) == LineEnd(text, i)
    {
      if text[i] == '\r' && text[i + 1] == '\n' {
        return Some(i);
      }
      i := i + 1;
    }
    return None;
  }

  method DecodeSnapshotPayload(parse: string -> Option<real>, unpack: Unpacker, payload: string)
    returns (r: Option<ObjectMap>)
    ensures r == DecodePayload(parse, unpack, payload)
  {
    var lineEnd := FindLineEnd(payload);
    if payload == "" || payload[0] != '*' || lineEnd.None? || lineEnd.value < 1 || lineEnd.value > |payload| - 2 {
      return None;
    }
    var count := ParseU64(payload[1..lineEnd.value]);
    if count.None? || count.value > MAX_SNAPSHOT_ELEMENTS || count.value > (|payload| - lineEnd.value - 2) / 6 {
      return None;
    }
    var words := unpack(payload);
    if words.None? {
      return None;
    }
    r := UnpackWords(parse, words.value);
  }

  // ---- round trip

  /** What a stored score becomes after one trip through its text. */
  function Reread(parse: string -> Option<real>, show: real -> Printed, score: real): real {
    var text := FormatScore(show, score);
    if parse(text).Some? then parse(text).value else score
  }

  function RereadScores(parse: string -> Option<real>, show: real -> Printed, scores: map<string, real>)
      : map<string, real>
  {
    map k | k in scores :: Reread(parse, show, scores[k])
  }

  function RereadValue(parse: string -> Option<real>, show: real -> Printed, v: Value): Value {
    match v
    case Scores(scores) => Scores(RereadScores(parse, show, scores))
    case _ => v
  }

  function RereadMap(parse: string -> Option<real>, show: real -> Printed, m: ObjectMap): ObjectMap {
    map k | k in m :: Object(RereadValue(parse, show, m[k].value), m[k].deadline)
  }

  /** Printing and reading are fair to every score in the map. */
  ghost predicate Printable(parse: string -> Option<real>, show: real -> Printed, m: ObjectMap) {
    forall k :: k in m && m[k].value.Scores? ==>
      forall j :: j in m[k].value.scores ==> PrintsFairly(parse, show, m[k].value.scores[j])
  }

  predicate SafeValue(parse: string -> Option<real>, show: real -> Printed, v: Value) {
    v.Scores? ==> forall k :: k in v.scores ==> Survives(parse, show, v.scores[k])
  }

  /** The guard: every score in the map has a text that survives zero stripping and that the reader takes. */
  predicate SafeScores(parse: string -> Option<real>, show: real -> Printed, m: ObjectMap) {
    forall k :: k in m ==> SafeValue(parse, show, m[k].value)
  }

  /** The decoder can read every score of the value. */
  predicate ReadableValue(parse: string -> Option<real>, show: real -> Printed, v: Value) {
    v.Scores? ==> forall k :: k in v.scores ==> parse(FormatScore(show, v.scores[k])).Some?
  }

  /** acc with the images of the listed keys stored on top. */
  function Stored<V>(keys: seq<string>, image: map<string, V>, acc: map<string, V>): map<string, V>
    requires forall k :: k in keys ==> k in image
  {
    acc + (map k | k in keys :: image[k])
  }

  lemma StoredStep<V>(keys: seq<string>, image: map<string, V>, acc: map<string, V>)
    requires forall k :: k in keys ==> k in image
    ensures keys == [] ==> Stored(keys, image, acc) == acc
    ensures keys != [] ==> Stored(keys, image, acc) == Stored(keys[1..], image, acc[keys[0] := image[keys[0]]])
  {
  }

  lemma StoredAll<V>(keys: seq<string>, image: map<string, V>)
    requires Lists(keys, image.Keys)
    ensures Stored(keys, image, map[]) == image
  {
  }

  lemma {:induction false} PairsComeBack(keys: seq<string>, fields: map<string, string>, acc: map<string, string>)
    requires forall k :: k in keys ==> k in fields
    ensures StorePairs(PairWords(keys, fields), acc) == Stored(keys, fields, acc)
  {
    StoredStep(keys, fields, acc);
    if keys == [] {
    } else {
      PairsComeBack(keys[1..], fields, acc[keys[0] := fields[keys[0]]]);
      assert PairWords(keys, fields)[2..] == PairWords(keys[1..], fields);
    }
  }

  lemma {:induction false} ScoresComeBack(parse: string -> Option<real>, keys: seq<string>, texts: map<string, string>,
                                          values: map<string, real>, acc: map<string, real>)
    requires forall k :: k in keys ==> k in texts && k in values && parse(texts[k]) == Some(values[k])
    ensures ReadScores(parse, PairWords(keys, texts), acc) == Some(Stored(keys, values, acc))
  {
    StoredStep(keys, values, acc);
    if keys == [] {
    } else {
      ScoresComeBack(parse, keys[1..], texts, values, acc[keys[0] := values[keys[0]]]);
      assert PairWords(keys, texts)[2..] == PairWords(keys[1..], texts);
    }
  }

  lemma {:induction false} ScoresRefused(parse: string -> Option<real>, keys: seq<string>, texts: map<string, string>,
                                         acc: map<string, real>, bad: string)
    requires (forall k :: k in keys ==> k in texts) && bad in keys && parse(texts[bad]).None?
    ensures ReadScores(parse, PairWords(keys, texts), acc) == None
  {
    var words := PairWords(keys, texts);
    assert words[2..] == PairWords(keys[1..], texts);
    if keys[0] != bad && parse(words[1]).Some? {
      ScoresRefused(parse, keys[1..], texts, acc[words[0] := parse(words[1]).value], bad);
    }
  }

  lemma ListedScoresComeBack(parse: string -> Option<real>, keys: seq<string>, texts: map<string, string>,
                             values: map<string, real>)
    requires Lists(keys, values.Keys) && texts.Keys == values.Keys
    requires forall k :: k in values ==> parse(texts[k]) == Some(values[k])
    ensures |PairWords(keys, texts)| % 2 == 0
    ensures ReadScores(parse, PairWords(keys, texts), map[]) == Some(values)
  {
    PairWordsLength(keys, texts);
    ScoresComeBack(parse, keys, texts, values, map[]);
    StoredAll(keys, values);
  }

  lemma ScoresComeBackIfReadable(parse: string -> Option<real>, lay: Layout, scores: map<string, real>)
    requires IsVisitOrder(lay.order)
    ensures |ValueWords(lay, Scores(scores))| % 2 == 0
    ensures ReadScores(parse, ValueWords(lay, Scores(scores)), map[]) ==
            if ReadableValue(parse, lay.show, Scores(scores)) then Some(RereadScores(parse, lay.show, scores)) else None
  {
    hide FormatScore, PairWords, ReadScores, DecodeValue;
    var keys, texts := lay.order(scores.Keys), ScoreTexts(lay.show, scores);
    var values := RereadScores(parse, lay.show, scores);
    assert Lists(keys, scores.Keys) && values.Keys == scores.Keys == texts.Keys;
    hide Lists;
    PairWordsLength(keys, texts);
    if ReadableValue(parse, lay.show, Scores(scores)) {
      ListedScoresComeBack(parse, keys, texts, values);
    } else {
      var bad :| bad in scores && parse(FormatScore(lay.show, scores[bad])).None?;
      ScoresRefused(parse, keys, texts, map[], bad);
    }
  }

  lemma ValueComesBack(parse: string -> Option<real>, lay: Layout, v: Value)
    requires IsVisitOrder(lay.order)
    ensures DecodeValue(parse, TypeName(v), ValueWords(lay, v)) ==
            if ReadableValue(parse, lay.show, v) then Some(RereadValue(parse, lay.show, v)) else None
  {
    match v
    case Text(_) =>
    case Hash(fields) =>
      var keys := lay.order(fields.Keys);
      assert Lists(keys, fields.Keys);
      PairWordsLength(keys, fields);
      PairsComeBack(keys, fields, map[]);
      StoredAll(keys, fields);
    case Members(members) =>
      assert Lists(lay.order(members), members);
      assert WordSet(lay.order(members)) == members;
    case Scores(scores) => ScoresComeBackIfReadable(parse, lay, scores);
  }

  lemma ObjectComesBack(parse: string -> Option<real>, lay: Layout, key: string, o: Object, rest: seq<string>,
                        count: nat, acc: ObjectMap)
    requires IsVisitOrder(lay.order) && |ValueWords(lay, o.value)| <= U64_MAX
    ensures DecodeObjects(parse, ObjectWords(lay, key, o) + rest, count + 1, acc) ==
            if !ReadableValue(parse, lay.show, o.value) then None
            else DecodeObjects(parse, rest, count,
                               acc[key := Object(RereadValue(parse, lay.show, o.value), o.deadline)])
  {
    var body := ValueWords(lay, o.value);
    var words := ObjectWords(lay, key, o) + rest;
    assert words[0] == key && words[1] == Decimal(o.deadline) && words[2] == TypeName(o.value)
           && words[3] == Decimal(|body|);
    assert words[4..4 + |body|] == body && words[4 + |body|..] == rest;
    ParseU64OfDecimal(o.deadline);
    ParseU64OfDecimal(|body|);
    ValueComesBack(parse, lay, o.value);
  }

  /** The decoder can read every score under the listed keys. */
  predicate ReadableKeys(parse: string -> Option<real>, show: real -> Printed, keys: seq<string>, m: ObjectMap)
    requires forall k :: k in keys ==> k in m
  {
    forall k :: k in keys ==> ReadableValue(parse, show, m[k].value)
  }

  lemma {:induction false} ObjectsComeBack(parse: string -> Option<real>, lay: Layout, keys: seq<string>, m: ObjectMap,
                                           acc: ObjectMap)
    requires IsVisitOrder(lay.order) && forall k :: k in keys ==> k in m
    requires |ObjectsWords(lay, keys, m)| <= U64_MAX
    ensures DecodeObjects(parse, ObjectsWords(lay, keys, m), |keys|, acc) ==
            if ReadableKeys(parse, lay.show, keys, m) then Some(Stored(keys, RereadMap(parse, lay.show, m), acc))
              else None
  {
    hide ReadableValue, RereadValue;
    var image := RereadMap(parse, lay.show, m);
    StoredStep(keys, image, acc);
    if keys == [] {
    } else {
      ObjectComesBack(parse, lay, keys[0], m[keys[0]], ObjectsWords(lay, keys[1..], m), |keys| - 1, acc);
      ObjectsComeBack(parse, lay, keys[1..], m, acc[keys[0] := image[keys[0]]]);
      assert forall k :: k in keys <==> k == keys[0] || k in keys[1..];
    }
  }

  lemma RereadValueWhenSafe(parse: string -> Option<real>, show: real -> Printed, v: Value)
    requires v.Scores? ==> forall j :: j in v.scores ==> PrintsFairly(parse, show, v.scores[j])
    ensures ReadableValue(parse, show, v) && RereadValue(parse, show, v) == v <==> SafeValue(parse, show, v)
  {
    hide PrintsFairly, Survives, FormatScore;
    if v.Scores? {
      var again := RereadValue(parse, show, v).scores;
      forall k | k in v.scores
        ensures parse(FormatScore(show, v.scores[k])) == Some(v.scores[k]) <==> Survives(parse, show, v.scores[k])
      {
        ScoreRoundTrip(parse, show, v.scores[k]);
      }
      if again != v.scores {
        assert exists k :: k in v.scores && again[k] != v.scores[k];
      }
    }
  }

  lemma RereadIsIdentityWhenSafe(parse: string -> Option<real>, show: real -> Printed, m: ObjectMap)
    requires Printable(parse, show, m)
    ensures (forall k :: k in m ==> ReadableValue(parse, show, m[k].value)) && RereadMap(parse, show, m) == m
            <==> SafeScores(parse, show, m)
  {
    hide PrintsFairly, Survives, FormatScore;
    forall k | k in m
      ensures ReadableValue(parse, show, m[k].value) && RereadValue(parse, show, m[k].value) == m[k].value
              <==> SafeValue(parse, show, m[k].value)
    {
      RereadValueWhenSafe(parse, show, m[k].value);
    }
    hide ReadableValue, RereadValue, SafeValue, Printable;
    if RereadMap(parse, show, m) == m {
      forall k | k in m
        ensures RereadValue(parse, show, m[k].value) == m[k].value
      {
        assert RereadMap(parse, show, m)[k] == m[k];
      }
    }
  }

  lemma {:induction false} KeysFewerThanWords(lay: Layout, keys: seq<string>, m: ObjectMap)
    requires IsVisitOrder(lay.order) && forall k :: k in keys ==> k in m
    ensures |keys| <= |ObjectsWords(lay, keys, m)|
  {
    if keys == [] {
    } else {
      KeysFewerThanWords(lay, keys[1..], m);
    }
  }

  lemma WordsComeBack(parse: string -> Option<real>, lay: Layout, m: ObjectMap)
    requires IsVisitOrder(lay.order) && |Encode(lay, m)| <= MAX_SNAPSHOT_ELEMENTS
    ensures Decode(parse, Encode(lay, m)) ==
            if forall k :: k in m ==> ReadableValue(parse, lay.show, m[k].value)
              then Some(RereadMap(parse, lay.show, m)) else None
  {
    hide ReadableValue, RereadValue;
    var words, keys := Encode(lay, m), lay.order(m.Keys);
    assert Lists(keys, m.Keys);
    ListLength(keys, m.Keys);
    assert words[2..] == ObjectsWords(lay, keys, m);
    KeysFewerThanWords(lay, keys, m);
    ParseU64OfDecimal(|m|);
    ObjectsComeBack(parse, lay, keys, m, map[]);
    StoredAll(keys, RereadMap(parse, lay.show, m));
  }

  /**
   * Decoding an encoded slot gives the same map, for all four types, deadlines and expired objects, exactly when the
   * payload has at most a million elements, no score's printed exponent ends in 0 after a point, and the reader refuses
   * no printed score. In particular the size guard on the header never rejects a payload of fewer elements.
   */
  lemma SnapshotRoundTrip(parse: string -> Option<real>, unpack: Unpacker, lay: Layout, m: ObjectMap)
    requires IsVisitOrder(lay.order) && UnpacksWire(unpack) && Printable(parse, lay.show, m)
    ensures DecodePayload(parse, unpack, Wire(Encode(lay, m))) == Some(m) <==>
            |Encode(lay, m)| <= MAX_SNAPSHOT_ELEMENTS && SafeScores(parse, lay.show, m)
  {
    var words := Encode(lay, m);
    WireHeader(words);
    BulksAreLargeEnough(words);
    ParseU64OfDecimal(|words|);
    if |words| <= MAX_SNAPSHOT_ELEMENTS {
      WordsComeBack(parse, lay, m);
      RereadIsIdentityWhenSafe(parse, lay.show, m);
    }
  }

  /** One score that the reader refuses loses the image of the whole slot. */
  lemma RefusedScoreLosesTheImage(parse: string -> Option<real>, unpack: Unpacker, lay: Layout, m: ObjectMap,
                                  key: string, member: string)
    requires IsVisitOrder(lay.order) && UnpacksWire(unpack) && |Encode(lay, m)| <= MAX_SNAPSHOT_ELEMENTS
    requires key in m && m[key].value.Scores? && member in m[key].value.scores
    requires parse(FormatScore(lay.show, m[key].value.scores[member])).None?
    ensures DecodePayload(parse, unpack, Wire(Encode(lay, m))) == None
  {
    hide FormatScore, Decode;
    var words := Encode(lay, m);
    WireHeader(words);
    BulksAreLargeEnough(words);
    ParseU64OfDecimal(|words|);
    WordsComeBack(parse, lay, m);
    assert !ReadableValue(parse, lay.show, m[key].value);
  }

  // ---- a reader of the wire exists

  lemma LineSplits(a: string, x: string, b: string, y: string)
    requires AllDigits(a) && AllDigits(b) && a + CRLF + x == b + CRLF + y
    ensures a == b && x == y
  {
    var s, t := a + CRLF + x, b + CRLF + y;
    assert s[|a|] == '\r' && t[|b|] == '\r';
    assert forall i :: 0 <= i < |a| ==> s[i] == a[i];
    assert forall i :: 0 <= i < |b| ==> t[i] == b[i];
    assert |a| == |b|;
    assert s[..|a|] == a && t[..|b|] == b && s[|a| + 2..] == x && t[|b| + 2..] == y;
  }

  lemma BulkSplits(a: string, x: string, b: string, y: string)
    requires Bulk(a) + x == Bulk(b) + y
    ensures a == b && x == y
  {
    var s, t := Bulk(a) + x, Bulk(b) + y;
    var tail, tail' := a + (CRLF + x), b + (CRLF + y);
    assert s[1..] == Decimal(|a|) + CRLF + tail && t[1..] == Decimal(|b|) + CRLF + tail';
    LineSplits(Decimal(|a|), tail, Decimal(|b|), tail');
    DecimalInjective(|a|, |b|);
    assert tail[..|a|] == a && tail'[..|b|] == b && tail[|a| + 2..] == x && tail'[|b| + 2..] == y;
  }

  lemma {:induction false} BulksAreInjective(a: seq<string>, b: seq<string>)
    requires Bulks(a) == Bulks(b)
    ensures a == b
  {
    hide Bulk;
    BulksAreLargeEnough(a);
    BulksAreLargeEnough(b);
    if a == [] || b == [] {
    } else {
      BulkSplits(a[0], Bulks(a[1..]), b[0], Bulks(b[1..]));
      BulksAreInjective(a[1..], b[1..]);
    }
  }

  /** Different lists of words have different wire texts. */
  lemma WireIsInjective(a: seq<string>, b: seq<string>)
    requires Wire(a) == Wire(b)
    ensures a == b
  {
    hide Bulks;
    assert Wire(a)[1..] == Decimal(|a|) + CRLF + Bulks(a) && Wire(b)[1..] == Decimal(|b|) + CRLF + Bulks(b);
    LineSplits(Decimal(|a|), Bulks(a), Decimal(|b|), Bulks(b));
    BulksAreInjective(a, b);
  }

  ghost function UnpackedWire(payload: string): Option<seq<string>> {
    if exists words: seq<string> :: Wire(words) == payload then
      var words: seq<string> :| Wire(words) == payload;
      Some(words)
    else None
  }

  lemma UnpackerExists() returns (unpack: Unpacker)
    ensures UnpacksWire(unpack)
  {
    unpack := (payload: string) => UnpackedWire(payload);
    forall words: seq<string>
      ensures unpack(Wire(words)) == Some(words)
    {
      WireIsInjective(words, UnpackedWire(Wire(words)).value);
    }
  }
}
