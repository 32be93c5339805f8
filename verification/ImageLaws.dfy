/** Which word lists are images of a slot, and of which map (src/repl/snapshot_codec.cpp:126-220). */
module ImageLaws {
  import opened Core
  import opened Numbers
  import opened SnapshotCodec
  import opened Commands
  import opened Mutators

  /** One object as it is written, its deadline and its number of words still being text. */
  datatype Block = Block(key: string, deadline: string, kind: string, size: string, words: seq<string>)

  function BlockText(b: Block): seq<string> {
    [b.key, b.deadline, b.kind, b.size] + b.words
  }

  function BlocksText(blocks: seq<Block>): seq<string> {
    if blocks == [] then [] else BlockText(blocks[0]) + BlocksText(blocks[1..])
  }

  /** The words that the kind of value takes: one of a string, pairs of a hash and of a sorted set, any of a set. */
  predicate TakesWords(parse: string -> Option<real>, kind: string, words: seq<string>) {
    || (kind == "string" && |words| == 1)
    || (kind == "hash" && |words| % 2 == 0)
    || kind == "set"
    || (kind == "zset" && |words| % 2 == 0 && forall i :: 0 <= i < |words| && i % 2 == 1 ==> parse(words[i]).Some?)
  }

  predicate WellFormed(parse: string -> Option<real>, b: Block) {
    ParseU64(b.deadline).Some? && ParseU64(b.size) == Some(|b.words|) && TakesWords(parse, b.kind, b.words)
  }

  ghost predicate AreBlocks(parse: string -> Option<real>, words: seq<string>, blocks: seq<Block>) {
    words == BlocksText(blocks) && forall b :: b in blocks ==> WellFormed(parse, b)
  }

  // ---- values

  /** What the words of a value say; the last pair of a name counts. */
  ghost predicate Means(parse: string -> Option<real>, b: Block, v: Value) {
    match v
    case Text(text) => b.kind == "string" && b.words == [text]
    case Hash(fields) =>
      b.kind == "hash" && forall f :: if f in fields then LastValue(b.words, f) == Some(fields[f])
                                                     else LastValue(b.words, f) == None
    case Members(members) => b.kind == "set" && forall w :: w in members <==> w in b.words
    case Scores(scores) =>
      b.kind == "zset" && forall m :: if m in scores then LastValue(b.words, m).Some?
                                                          && parse(LastValue(b.words, m).value) == Some(scores[m])
                                                     else LastValue(b.words, m) == None
  }

  /** The scores are what the texts read as. */
  ghost predicate Reads(parse: string -> Option<real>, texts: map<string, string>, scores: map<string, real>) {
    texts.Keys == scores.Keys && forall m :: m in texts ==> parse(texts[m]) == Some(scores[m])
  }

  lemma OddOnes(parse: string -> Option<real>, words: seq<string>)
    requires |words| >= 2
    ensures (forall i :: 0 <= i < |words| && i % 2 == 1 ==> parse(words[i]).Some?) <==>
              parse(words[1]).Some?
              && forall i :: 0 <= i < |words[2..]| && i % 2 == 1 ==> parse(words[2..][i]).Some?
  {
    forall i | 0 <= i < |words[2..]|
      ensures words[2..][i] == words[i + 2] && (i + 2) % 2 == i % 2
    {
    }
    forall i | 2 <= i < |words|
      ensures words[i] == words[2..][i - 2] && (i - 2) % 2 == i % 2
    {
    }
  }

  lemma {:induction false} ScoresAreRead(parse: string -> Option<real>, words: seq<string>, texts: map<string, string>,
                                         scores: map<string, real>)
    requires |words| % 2 == 0 && Reads(parse, texts, scores)
    ensures ReadScores(parse, words, scores).Some? <==>
              forall i :: 0 <= i < |words| && i % 2 == 1 ==> parse(words[i]).Some?
    ensures ReadScores(parse, words, scores).Some? ==>
              Reads(parse, StorePairs(words, texts), ReadScores(parse, words, scores).value)
  {
    if words == [] {
    } else {
      var rest := words[2..];
      assert forall i :: 2 <= i < |words| ==> words[i] == rest[i - 2];
      if parse(words[1]).Some? {
        ScoresAreRead(parse, rest, texts[words[0] := words[1]], scores[words[0] := parse(words[1]).value]);
        OddOnes(parse, words);
      }
    }
  }

  /** A value is read exactly if its kind takes its words, and then it is what they mean. */
  lemma ValueIsRead(parse: string -> Option<real>, b: Block)
    ensures DecodeValue(parse, b.kind, b.words).Some? <==> TakesWords(parse, b.kind, b.words)
    ensures DecodeValue(parse, b.kind, b.words).Some? ==> Means(parse, b, DecodeValue(parse, b.kind, b.words).value)
  {
    hide StorePairs, ReadScores;
    if |b.words| % 2 == 0 {
      forall f
        ensures match LastValue(b.words, f)
                case Some(value) => f in StorePairs(b.words, map[]) && StorePairs(b.words, map[])[f] == value
                case None => f !in StorePairs(b.words, map[])
      {
        LastPairWins(b.words, map[], f);
      }
      ScoresAreRead(parse, b.words, map[], map[]);
    }
  }

  // ---- whole images

  function LastBlock(blocks: seq<Block>, key: string): Option<Block> {
    if blocks == [] then None
    else
      match LastBlock(blocks[1..], key)
      case Some(b) => Some(b)
      case None => if blocks[0].key == key then Some(blocks[0]) else None
  }

  /** Every key that the blocks name has what its last block means, and every other key what it had before. */
  ghost predicate Holds(parse: string -> Option<real>, blocks: seq<Block>, before: ObjectMap, after: ObjectMap) {
    forall key ::
      match LastBlock(blocks, key)
      case Some(b) =>
        key in after && Some(after[key].deadline) == ParseU64(b.deadline) && Means(parse, b, after[key].value)
      case None => (key in after <==> key in before) && (key in before ==> after[key] == before[key])
  }

  lemma HoldsOn(parse: string -> Option<real>, b: Block, rest: seq<Block>, m: ObjectMap, o: Object, after: ObjectMap)
    requires Some(o.deadline) == ParseU64(b.deadline) && Means(parse, b, o.value)
    requires Holds(parse, rest, m[b.key := o], after)
    ensures Holds(parse, [b] + rest, m, after)
  {
    hide Means, ParseU64;
    assert ([b] + rest)[1..] == rest;
  }

  lemma {:induction false} ObjectsAreBlocks(parse: string -> Option<real>, words: seq<string>, count: nat, m: ObjectMap)
    returns (blocks: seq<Block>)
    requires DecodeObjects(parse, words, count, m).Some?
    ensures |blocks| == count && AreBlocks(parse, words, blocks)
    ensures Holds(parse, blocks, m, DecodeObjects(parse, words, count, m).value)
    decreases count
  {
    hide DecodeValue, Means, TakesWords;
    if count == 0 {
      blocks := [];
    } else {
      var n := ParseU64(words[3]).value;
      var b := Block(words[0], words[1], words[2], words[3], words[4..4 + n]);
      ValueIsRead(parse, b);
      var o := Object(DecodeValue(parse, b.kind, b.words).value, ParseU64(b.deadline).value);
      var rest := ObjectsAreBlocks(parse, words[4 + n..], count - 1, m[b.key := o]);
      blocks := [b] + rest;
      assert blocks[1..] == rest;
      assert words == BlockText(b) + words[4 + n..];
      HoldsOn(parse, b, rest, m, o, DecodeObjects(parse, words, count, m).value);
    }
  }

  lemma OneBlockIsRead(parse: string -> Option<real>, b: Block, rest: seq<string>, count: nat, m: ObjectMap)
    returns (o: Object)
    requires WellFormed(parse, b)
    ensures DecodeObjects(parse, BlockText(b) + rest, count + 1, m) == DecodeObjects(parse, rest, count, m[b.key := o])
  {
    hide DecodeValue, TakesWords;
    ValueIsRead(parse, b);
    var words := BlockText(b) + rest;
    assert words[4..4 + |b.words|] == b.words && words[4 + |b.words|..] == rest;
    o := Object(DecodeValue(parse, b.kind, b.words).value, ParseU64(b.deadline).value);
  }

  lemma {:induction false} BlocksAreObjects(parse: string -> Option<real>, blocks: seq<Block>, m: ObjectMap)
    requires forall b :: b in blocks ==> WellFormed(parse, b)
    ensures DecodeObjects(parse, BlocksText(blocks), |blocks|, m).Some?
  {
    hide BlockText, WellFormed;
    if blocks == [] {
    } else {
      hide DecodeObjects;
      var b, rest := blocks[0], blocks[1..];
      assert b in blocks && forall x :: x in rest ==> x in blocks;
      var o := OneBlockIsRead(parse, b, BlocksText(rest), |rest|, m);
      BlocksAreObjects(parse, rest, m[b.key := o]);
    }
  }

  /** A word list is only taken for an image if it is one, block by block, and then the map is what the blocks mean. */
  lemma ImageIsItsBlocks(parse: string -> Option<real>, words: seq<string>) returns (blocks: seq<Block>)
    requires Decode(parse, words).Some?
    ensures |words| >= 2 && words[0] == "CACHE.SNAPSHOT.V1" && ParseU64(words[1]) == Some(|blocks|)
    ensures AreBlocks(parse, words[2..], blocks) && Holds(parse, blocks, map[], Decode(parse, words).value)
  {
    blocks := ObjectsAreBlocks(parse, words[2..], ParseU64(words[1]).value, map[]);
  }

  /** Every list of that form is an image. */
  lemma BlocksAreAnImage(parse: string -> Option<real>, words: seq<string>, blocks: seq<Block>)
    requires |words| >= 2 && words[0] == "CACHE.SNAPSHOT.V1" && ParseU64(words[1]) == Some(|blocks|)
    requires AreBlocks(parse, words[2..], blocks)
    ensures Decode(parse, words).Some?
  {
    hide ParseU64, WellFormed;
    BlocksAreObjects(parse, blocks, map[]);
  }
}
