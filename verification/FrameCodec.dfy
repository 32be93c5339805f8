/** Replication frames and their argument lists (src/repl/repl_frame.cpp). */
module FrameCodec {
  import opened Core
  import opened Numbers

  const PROTOCOL_VERSION: nat := 2

  /** A slot number with a write number. */
  type Position = (nat, nat)

  datatype Frame =
    | Hello(replicaId: string, version: nat, session: string, positions: seq<Position>)
    | Snapshot(session: string, slot: nat, base: nat, payload: string)
    | Log(session: string, slot: nat, record: Record)
    | Begin(session: string, reset: bool)
    | Done(session: string, positions: seq<Position>)

  function PositionArgs(positions: seq<Position>): seq<string> {
    if positions == [] then []
    else [Decimal(positions[0].0), Decimal(positions[0].1)] + PositionArgs(positions[1..])
  }

  function Encode(f: Frame): seq<string> {
    ["CACHE.REPL"] +
    match f
    case Hello(id, version, session, positions) =>
      ["HELLO", id, Decimal(version), session, Decimal(|positions|)] + PositionArgs(positions)
    case Snapshot(session, slot, base, payload) => ["SNAPSHOT", session, Decimal(slot), Decimal(base), payload]
    case Log(session, slot, r) =>
      ["LOG", session, Decimal(slot), Decimal(r.seqNo), Decimal(r.writtenAt), Decimal(r.deadline),
       Decimal(|r.args|)] + r.args
    case Begin(session, reset) => ["BEGIN", session, if reset then "1" else "0"]
    case Done(session, positions) => ["DONE", session, Decimal(|positions|)] + PositionArgs(positions)
  }

  /** Slot and number pairs up to the end of the list. */
  function PairsFrom(args: seq<string>): Option<seq<Position>> {
    if |args| < 2 then Some([])
    else
      var slot, number := ParseU64(args[0]), ParseU64(args[1]);
      var rest := PairsFrom(args[2..]);
      if slot.None? || number.None? || rest.None? then None else Some([(slot.value, number.value)] + rest.value)
  }

  /** A counted position list that fills the whole of args. */
  function Positions(args: seq<string>): Option<seq<Position>> {
    if args == [] || ParseU64(args[0]).None? || (|args| - 1) % 2 != 0 || ParseU64(args[0]).value != (|args| - 1) / 2
      then None
    else PairsFrom(args[1..])
  }

  function DecodeHello(args: seq<string>): Option<Frame> {
    if |args| < 6 || ParseU64(args[3]) != Some(PROTOCOL_VERSION) || Positions(args[5..]).None? then None
    else Some(Hello(args[2], PROTOCOL_VERSION, args[4], Positions(args[5..]).value))
  }

  function DecodeSnapshot(args: seq<string>): Option<Frame> {
    if |args| != 6 || ParseU64(args[3]).None? || ParseU64(args[4]).None? then None
    else Some(Snapshot(args[2], ParseU64(args[3]).value, ParseU64(args[4]).value, args[5]))
  }

  function DecodeLog(args: seq<string>): Option<Frame> {
    if |args| < 8 || ParseU64(args[3]).None? || ParseU64(args[4]).None? || ParseU64(args[5]).None?
      || ParseU64(args[6]).None? || ParseU64(args[7]).None? || ParseU64(args[7]).value != |args| - 8 then None
    else Some(Log(args[2], ParseU64(args[3]).value,
                  Record(ParseU64(args[4]).value, args[8..], ParseU64(args[5]).value, ParseU64(args[6]).value)))
  }

  function DecodeBegin(args: seq<string>): Option<Frame> {
    if |args| != 4 || (args[3] != "0" && args[3] != "1") || args[2] == "" then None
      else Some(Begin(args[2], args[3] == "1"))
  }

  function DecodeDone(args: seq<string>): Option<Frame> {
    if |args| < 3 || Positions(args[3..]).None? then None else Some(Done(args[2], Positions(args[3..]).value))
  }

  function Decode(args: seq<string>): Option<Frame> {
    if |args| < 3 || args[0] != "CACHE.REPL" then None
    else if args[1] == "HELLO" then DecodeHello(args)
    else if args[1] == "SNAPSHOT" then DecodeSnapshot(args)
    else if args[1] == "LOG" then DecodeLog(args)
    else if args[1] == "BEGIN" then DecodeBegin(args)
    else if args[1] == "DONE" then DecodeDone(args)
    else None
  }

  // ---- the loops

  method EncodePositions(positions: seq<Position>) returns (args: seq<string>)
    ensures args == [Decimal(|positions|)] + PositionArgs(positions)
  {
    args := [Decimal(|positions|)];
    for i := 0 to |positions|
      invariant args + PositionArgs(positions[i..]) == [Decimal(|positions|)] + PositionArgs(positions)
    {
      var item := positions[i];
      assert positions[i..][0] == item && positions[i..][1..] == positions[i + 1..];
      assert args + PositionArgs(positions[i..])
             == (args + [Decimal(item.0), Decimal(item.1)]) + PositionArgs(positions[i + 1..]);
      args := args + [Decimal(item.0), Decimal(item.1)];
    }
  }

  function Prepend(front: seq<Position>, rest: Option<seq<Position>>): Option<seq<Position>> {
    if rest.None? then None else Some(front + rest.value)
  }

  lemma PairsRound(args: seq<string>, i: nat, front: seq<Position>)
    requires i + 2 <= |args|
    ensures var slot, number := ParseU64(args[i]), ParseU64(args[i + 1]);
            Prepend(front, PairsFrom(args[i..])) ==
              if slot.None? || number.None? then None
              else Prepend(front + [(slot.value, number.value)], PairsFrom(args[i + 2..]))
  {
    assert args[i..][0] == args[i] && args[i..][1] == args[i + 1] && args[i..][2..] == args[i + 2..];
    var slot, number, rest := ParseU64(args[i]), ParseU64(args[i + 1]), PairsFrom(args[i + 2..]);
    if slot.Some? && number.Some? && rest.Some? {
      assert front + ([(slot.value, number.value)] + rest.value) == (front + [(slot.value, number.value)]) + rest.value;
    }
  }

  method DecodePairs(args: seq<string>, start: nat) returns (out: Option<seq<Position>>)
    requires start <= |args| && (|args| - start) % 2 == 0
    ensures out == PairsFrom(args[start..])
  {
    ghost var result := PairsFrom(args[start..]);
    var positions: seq<Position> := [];
    var i := start;
    assert result.Some? ==> [] + result.value == result.value;
    while i < |args|
      invariant start <= i <= |args| && (|args| - i) % 2 == 0
      invariant Prepend(positions, PairsFrom(args[i..])) == result
    {
      hide PairsFrom, ParseU64;
      PairsRound(args, i, positions);
      var slot, number := ParseU64(args[i]), ParseU64(args[i + 1]);
      if slot.None? || number.None? {
        return None;
      }
      positions := positions + [(slot.value, number.value)];
      i := i + 2;
    }
    assert positions + [] == positions;
    return Some(positions);
  }

  method DecodePositions(args: seq<string>, start: nat) returns (out: Option<seq<Position>>)
    requires start <= |args|
    ensures out == Positions(args[start..])
  {
    if start >= |args| {
      return None;
    }
    var count := ParseU64(args[start]);
    assert args[start..][0] == args[start] && args[start..][1..] == args[start + 1..];
    if count.None? || (|args| - start - 1) % 2 != 0 || count.value != (|args| - start - 1) / 2 {
      return None;
    }
    out := DecodePairs(args, start + 1);
  }

  // ---- round trip

  predicate FitsU64(positions: seq<Position>) {
    |positions| <= U64_MAX && forall p :: p in positions ==> p.0 <= U64_MAX && p.1 <= U64_MAX
  }

  /** The numbers in the frame are 64-bit numbers, as the source's types make them. */
  predicate FrameFits(f: Frame) {
    match f
    case Hello(_, version, _, positions) => version <= U64_MAX && FitsU64(positions)
    case Snapshot(_, slot, base, _) => slot <= U64_MAX && base <= U64_MAX
    case Log(_, slot, r) => slot <= U64_MAX && r.seqNo <= U64_MAX && |r.args| <= U64_MAX
    case Begin(_, _) => true
    case Done(_, positions) => FitsU64(positions)
  }

  lemma {:induction false} PairsComeBack(positions: seq<Position>)
    requires forall p :: p in positions ==> p.0 <= U64_MAX && p.1 <= U64_MAX
    ensures |PositionArgs(positions)| == 2 * |positions| && PairsFrom(PositionArgs(positions)) == Some(positions)
  {
    if positions == [] {
    } else {
      PairsComeBack(positions[1..]);
      ParseU64OfDecimal(positions[0].0);
      ParseU64OfDecimal(positions[0].1);
      assert PositionArgs(positions)[2..] == PositionArgs(positions[1..]);
      assert [positions[0]] + positions[1..] == positions;
    }
  }

  lemma HalfOfDouble(n: nat)
    ensures (2 * n) % 2 == 0 && (2 * n) / 2 == n
  {
  }

  lemma CountedPairs(args: seq<string>, n: nat)
    requires |args| == 1 + 2 * n && ParseU64(args[0]) == Some(n)
    ensures Positions(args) == PairsFrom(args[1..])
  {
    hide PairsFrom, ParseU64;
    HalfOfDouble(n);
  }

  lemma PositionsComeBack(positions: seq<Position>)
    requires FitsU64(positions)
    ensures Positions([Decimal(|positions|)] + PositionArgs(positions)) == Some(positions)
  {
    hide Positions, PairsFrom, PositionArgs, ParseU64;
    PairsComeBack(positions);
    ParseU64OfDecimal(|positions|);
    var pairs := PositionArgs(positions);
    var args := [Decimal(|positions|)] + pairs;
    assert args[1..] == pairs;
    CountedPairs(args, |positions|);
  }

  lemma LogComesBack(session: string, slot: nat, r: Record)
    requires FrameFits(Log(session, slot, r))
    ensures Decode(Encode(Log(session, slot, r))) == Some(Log(session, slot, r))
  {
    hide ParseU64;
    var args := Encode(Log(session, slot, r));
    ParseU64OfDecimal(slot);
    ParseU64OfDecimal(r.seqNo);
    ParseU64OfDecimal(r.writtenAt);
    ParseU64OfDecimal(r.deadline);
    ParseU64OfDecimal(|r.args|);
    assert args[8..] == r.args;
  }

  /**
   * A frame comes back from its argument list exactly when its HELLO speaks version 2 and its BEGIN names a session.
   */
  lemma FrameRoundTrip(f: Frame)
    requires FrameFits(f)
    ensures Decode(Encode(f)) == Some(f) <==>
            (f.Hello? ==> f.version == PROTOCOL_VERSION) && (f.Begin? ==> f.session != "")
  {
    var args := Encode(f);
    match f
    case Hello(id, version, session, positions) =>
      ParseU64OfDecimal(version);
      PositionsComeBack(positions);
      assert args[5..] == [Decimal(|positions|)] + PositionArgs(positions);
    case Snapshot(session, slot, base, payload) =>
      ParseU64OfDecimal(slot);
      ParseU64OfDecimal(base);
    case Log(session, slot, r) => LogComesBack(session, slot, r);
    case Begin(session, reset) =>
    case Done(session, positions) =>
      PositionsComeBack(positions);
      assert args[3..] == [Decimal(|positions|)] + PositionArgs(positions);
  }

  /** The two word lists are the same, up to the way in which 64-bit numbers are written. */
  predicate SameWords(args: seq<string>, args': seq<string>) {
    |args| == |args'|
    && forall i :: 0 <= i < |args| ==>
         args[i] == args'[i] || (ParseU64(args[i]).Some? && ParseU64(args[i]) == ParseU64(args'[i]))
  }

  lemma ReadsAfter(args: seq<string>, front: seq<string>, back: seq<string>, k: nat)
    requires k <= |args| && SameWords(args[..k], front) && SameWords(args[k..], back)
    ensures SameWords(args, front + back)
  {
    hide ParseU64;
    assert forall i :: 0 <= i < k ==> args[i] == args[..k][i];
    assert forall i :: k <= i < |args| ==> args[i] == args[k..][i - k];
  }

  /** The number that was read is written as a number that reads the same. */
  lemma NumberReads(text: string)
    ensures ParseU64(text).Some? ==> ParseU64(Decimal(ParseU64(text).value)) == ParseU64(text)
  {
    if ParseU64(text).Some? {
      ParseU64OfDecimal(ParseU64(text).value);
    }
  }

  lemma {:induction false} PairsAreWhatWasRead(args: seq<string>)
    requires |args| % 2 == 0 && PairsFrom(args).Some?
    ensures SameWords(args, PositionArgs(PairsFrom(args).value))
    ensures |PairsFrom(args).value| == |args| / 2
  {
    if |args| < 2 {
    } else {
      hide ParseU64;
      var rest, pairs := args[2..], PairsFrom(args).value;
      PairsAreWhatWasRead(rest);
      NumberReads(args[0]);
      NumberReads(args[1]);
      assert pairs[1..] == PairsFrom(rest).value;
      hide PairsFrom;
      var front := [Decimal(pairs[0].0), Decimal(pairs[0].1)];
      assert SameWords(args[..2], front);
      ReadsAfter(args, front, PositionArgs(pairs[1..]), 2);
    }
  }

  lemma PositionsAreWhatWasRead(args: seq<string>)
    requires Positions(args).Some?
    ensures var positions := Positions(args).value;
            SameWords(args, [Decimal(|positions|)] + PositionArgs(positions))
  {
    hide PairsFrom, ParseU64;
    PairsAreWhatWasRead(args[1..]);
    NumberReads(args[0]);
    var words := [Decimal(|Positions(args).value|)] + PositionArgs(Positions(args).value);
    assert words[1..] == PositionArgs(Positions(args).value);
    assert forall i :: 1 <= i < |args| ==> args[i] == args[1..][i - 1] && words[i] == words[1..][i - 1];
  }

  lemma HelloWasEncoded(args: seq<string>)
    requires DecodeHello(args).Some? && args[0] == "CACHE.REPL" && args[1] == "HELLO"
    ensures SameWords(args, Encode(DecodeHello(args).value))
    ensures DecodeHello(args).value.Hello? && DecodeHello(args).value.version == 2
  {
    hide ParseU64, Positions, PositionArgs;
    var f := DecodeHello(args).value;
    var front := ["CACHE.REPL", "HELLO", f.replicaId, Decimal(f.version), f.session];
    NumberReads(args[3]);
    PositionsAreWhatWasRead(args[5..]);
    assert SameWords(args[..5], front);
    ReadsAfter(args, front, [Decimal(|f.positions|)] + PositionArgs(f.positions), 5);
    assert Encode(f) == front + ([Decimal(|f.positions|)] + PositionArgs(f.positions));
  }

  lemma DoneWasEncoded(args: seq<string>)
    requires DecodeDone(args).Some? && args[0] == "CACHE.REPL" && args[1] == "DONE"
    ensures SameWords(args, Encode(DecodeDone(args).value)) && DecodeDone(args).value.Done?
  {
    hide ParseU64, Positions, PositionArgs;
    var f := DecodeDone(args).value;
    var front := ["CACHE.REPL", "DONE", f.session];
    PositionsAreWhatWasRead(args[3..]);
    assert SameWords(args[..3], front);
    ReadsAfter(args, front, [Decimal(|f.positions|)] + PositionArgs(f.positions), 3);
    assert Encode(f) == front + ([Decimal(|f.positions|)] + PositionArgs(f.positions));
  }

  lemma LogWasEncoded(args: seq<string>)
    requires DecodeLog(args).Some? && args[0] == "CACHE.REPL" && args[1] == "LOG"
    ensures SameWords(args, Encode(DecodeLog(args).value)) && DecodeLog(args).value.Log?
  {
    hide ParseU64, Decode, Decimal;
    for i := 3 to 8
      invariant forall k :: 3 <= k < i ==> ParseU64(Decimal(ParseU64(args[k]).value)) == ParseU64(args[k])
    {
      NumberReads(args[i]);
    }
    var f := DecodeLog(args).value;
    var front := ["CACHE.REPL", "LOG", f.session, Decimal(f.slot), Decimal(f.record.seqNo), Decimal(f.record.writtenAt),
                  Decimal(f.record.deadline), Decimal(|f.record.args|)];
    assert SameWords(args[..8], front);
    ReadsAfter(args, front, f.record.args, 8);
    assert Encode(f) == front + f.record.args;
  }

  lemma SnapshotWasEncoded(args: seq<string>)
    requires DecodeSnapshot(args).Some? && args[0] == "CACHE.REPL" && args[1] == "SNAPSHOT"
    ensures SameWords(args, Encode(DecodeSnapshot(args).value)) && DecodeSnapshot(args).value.Snapshot?
  {
    hide ParseU64;
    NumberReads(args[3]);
    NumberReads(args[4]);
  }

  lemma BeginWasEncoded(args: seq<string>)
    requires DecodeBegin(args).Some? && args[0] == "CACHE.REPL" && args[1] == "BEGIN"
    ensures SameWords(args, Encode(DecodeBegin(args).value))
    ensures DecodeBegin(args).value.Begin? && DecodeBegin(args).value.session != ""
  {
  }

  /** An argument list is only taken for a frame if it says what the frame's own list says. */
  lemma DecodedFrameWasEncoded(args: seq<string>)
    requires Decode(args).Some?
    ensures SameWords(args, Encode(Decode(args).value))
    ensures Decode(args).value.Hello? ==> Decode(args).value.version == 2
    ensures Decode(args).value.Begin? ==> Decode(args).value.session != ""
  {
    hide SameWords, Encode, DecodeHello, DecodeDone, DecodeLog, DecodeSnapshot, DecodeBegin;
    if args[1] == "HELLO" {
      HelloWasEncoded(args);
    } else if args[1] == "SNAPSHOT" {
      SnapshotWasEncoded(args);
    } else if args[1] == "LOG" {
      LogWasEncoded(args);
    } else if args[1] == "DONE" {
      DoneWasEncoded(args);
    } else {
      BeginWasEncoded(args);
    }
  }
}
