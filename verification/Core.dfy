/** Values shared by every component: cached objects, write records and 64-bit numbers. */
module Core {
  datatype Option<+T> = None | Some(value: T)

  const U64_MAX: nat := 0xFFFF_FFFF_FFFF_FFFF

  /** An unsigned 64-bit number: a time or a deadline in microseconds. */
  type u64 = x: int | 0 <= x <= U64_MAX

  datatype Value =
    | Text(text: string)
    | Hash(fields: map<string, string>)
    | Members(members: set<string>)
    | Scores(scores: map<string, real>)

  /** A stored object; deadline 0 means that the object never expires. */
  datatype Object = Object(value: Value, deadline: u64) {
    predicate Expired(now: u64) {
      deadline != 0 && now >= deadline
    }
  }

  type ObjectMap = map<string, Object>

  /** One replicated write: its number in the slot, the command, and the primary's clock and deadline. */
  datatype Record = Record(seqNo: nat, args: seq<string>, writtenAt: u64, deadline: u64)

  /** The live object under key, as a command started at now sees it. */
  function Live(m: ObjectMap, key: string, now: u64): Option<Object> {
    if key in m && !m[key].Expired(now) then Some(m[key]) else None
  }

  function Min(a: int, b: int): int {
    if a <= b then a else b
  }

  function Max(a: int, b: int): int {
    if a <= b then b else a
  }
}
