/** Ranks and ranges of sorted sets (src/command/zset_cmd.cpp). */
module SortedSets {
  import opened Core
  import opened Numbers
  import opened Order
  import opened Commands

  datatype Entry = Entry(member: string, score: real)

  type Before = (Entry, Entry) -> bool

  function ByMember(): Before {
    (a: Entry, b: Entry) => Less(a.member, b.member)
  }

  /** By score, then by member in binary order. */
  function ByScore(): Before {
    (a: Entry, b: Entry) => a.score < b.score || (a.score == b.score && Less(a.member, b.member))
  }

  /** A strict order that ranks entries of different members. */
  ghost predicate Ranks(before: Before) {
    && (forall a: Entry, b: Entry, c: Entry {:trigger before(a, b), before(b, c)} :: before(a, b) && before(b, c) ==>
        before(a, c))
    && (forall a: Entry, b: Entry {:trigger before(a, b)} :: before(a, b) ==> !before(b, a))
    && (forall a: Entry, b: Entry {:trigger before(a, b)} :: a.member != b.member ==> before(a, b) || before(b, a))
  }

  lemma BothOrdersRank()
    ensures Ranks(ByMember()) && Ranks(ByScore())
  {
    forall a: string, b: string, c: string
      ensures Less(a, b) && Less(b, c) ==> Less(a, c)
    {
      if Less(a, b) && Less(b, c) {
        LessIsTransitive(a, b, c);
      }
    }
    forall a: string, b: string
      ensures Less(a, b) ==> !Less(b, a)
      ensures a != b ==> Less(a, b) || Less(b, a)
    {
      LessIsTotal(a, b);
      if Less(a, b) {
        LessIsStrict(a, b);
      }
    }
  }

  predicate Sorted(s: seq<Entry>, before: Before) {
    forall i, j :: 0 <= i < j < |s| ==> before(s[i], s[j])
  }

  /** s lists exactly the members of the set with their scores. */
  predicate ListsScores(s: seq<Entry>, scores: map<string, real>) {
    && (forall e :: e in s ==> e.member in scores && scores[e.member] == e.score)
    && (forall m :: m in scores ==> Entry(m, scores[m]) in s)
  }

  predicate DistinctMembers(s: seq<Entry>) {
    forall i, j :: 0 <= i < j < |s| ==> s[i].member != s[j].member
  }

  lemma EmptyTogether(s: seq<Entry>, t: seq<Entry>)
    requires forall e :: e in s <==> e in t
    ensures s == [] <==> t == []
  {
    if s != [] {
      assert s[0] in t;
    }
    if t != [] {
      assert t[0] in s;
    }
  }

  lemma TailLacksHead(before: Before, s: seq<Entry>)
    requires Ranks(before) && Sorted(s, before) && s != []
    ensures forall e :: e in s[1..] <==> e in s && e != s[0]
  {
    forall e | e in s && e != s[0]
      ensures e in s[1..]
    {
      var i :| 0 <= i < |s| && s[i] == e;
      assert s[1..][i - 1] == e;
    }
    forall e | e in s[1..]
      ensures e in s && e != s[0]
    {
      var i :| 0 <= i < |s[1..]| && s[1..][i] == e;
      assert s[i + 1] == e && before(s[0], s[i + 1]);
    }
  }

  /** The sorted listing of a set is unique: neither the container's order nor the sorting method shows. */
  lemma {:induction false} SortedListingIsUnique(before: Before, s: seq<Entry>, t: seq<Entry>)
    requires Ranks(before) && Sorted(s, before) && Sorted(t, before)
    requires forall e :: e in s <==> e in t
    ensures s == t
  {
    EmptyTogether(s, t);
    if s == [] {
    } else {
      assert s[0] in t;
      var i :| 0 <= i < |t| && t[i] == s[0];
      assert t[0] in s;
      var j :| 0 <= j < |s| && s[j] == t[0];
      assert s[0] == t[0];
      forall e
        ensures e in s[1..] <==> e in t[1..]
      {
        TailLacksHead(before, s);
        TailLacksHead(before, t);
      }
      SortedListingIsUnique(before, s[1..], t[1..]);
      assert s == [s[0]] + s[1..] && t == [t[0]] + t[1..];
    }
  }

  // ---- listing and sorting

  method Sort(entries: seq<Entry>, before: Before) returns (s: seq<Entry>)
    requires Ranks(before) && DistinctMembers(entries)
    ensures Sorted(s, before) && |s| == |entries| && forall e :: e in s <==> e in entries
  {
    s := [];
    for i := 0 to |entries|
      invariant Sorted(s, before) && |s| == i && forall e :: e in s <==> e in entries[..i]
    {
      var e := entries[i];
      assert forall k :: 0 <= k < i ==> entries[k].member != e.member;
      var p := 0;
      while p < |s| && before(s[p], e)
        invariant p <= |s| && forall q :: 0 <= q < p ==> before(s[q], e)
      {
        p := p + 1;
      }
      assert forall q :: p <= q < |s| ==> before(e, s[q]) by {
        if p < |s| {
          assert s[p] in entries[..i] && before(e, s[p]);
        }
      }
      assert entries[..i + 1] == entries[..i] + [e];
      s := s[..p] + [e] + s[p..];
    }
    assert entries[..|entries|] == entries;
  }

  /** The entries in the order in which the container visits them. */
  method Visit(order: VisitOrder, scores: map<string, real>) returns (entries: seq<Entry>)
    requires IsVisitOrder(order)
    ensures DistinctMembers(entries) && ListsScores(entries, scores) && |entries| == |scores|
  {
    var members := order(scores.Keys);
    assert Lists(members, scores.Keys);
    ListLength(members, scores.Keys);
    entries := [];
    for i := 0 to |members|
      invariant |entries| == i
      invariant forall k :: 0 <= k < i ==> entries[k] == Entry(members[k], scores[members[k]])
    {
      entries := entries + [Entry(members[i], scores[members[i]])];
    }
    forall m | m in scores
      ensures Entry(m, scores[m]) in entries
    {
      var k :| 0 <= k < |members| && members[k] == m;
      assert entries[k] == Entry(m, scores[m]);
    }
  }

  method EntriesByLex(order: VisitOrder, scores: map<string, real>) returns (s: seq<Entry>)
    requires IsVisitOrder(order)
    ensures Sorted(s, ByMember()) && ListsScores(s, scores) && |s| == |scores|
  {
    BothOrdersRank();
    var entries := Visit(order, scores);
    s := Sort(entries, ByMember());
  }

  lemma SortedMembersDiffer(s: seq<Entry>, before: Before, scores: map<string, real>)
    requires Ranks(before) && Sorted(s, before) && ListsScores(s, scores)
    ensures DistinctMembers(s)
  {
    forall i, j | 0 <= i < j < |s|
      ensures s[i].member != s[j].member
    {
      assert before(s[i], s[j]) && s[i] in s && s[j] in s;
    }
  }

  method EntriesByScore(order: VisitOrder, scores: map<string, real>) returns (s: seq<Entry>)
    requires IsVisitOrder(order)
    ensures Sorted(s, ByScore()) && ListsScores(s, scores) && |s| == |scores|
  {
    BothOrdersRank();
    var entries := EntriesByLex(order, scores);
    SortedMembersDiffer(entries, ByMember(), scores);
    s := Sort(entries, ByScore());
  }

  function Reverse(s: seq<Entry>): (r: seq<Entry>)
    ensures |r| == |s| && forall i :: 0 <= i < |s| ==> r[i] == s[|s| - 1 - i]
  {
    seq(|s|, i requires 0 <= i < |s| => s[|s| - 1 - i])
  }

  // ---- ranks

  /** The members that come before a given one. */
  ghost function Ahead(before: Before, scores: map<string, real>, member: string): set<string>
    requires member in scores
  {
    set m | m in scores && before(Entry(m, scores[m]), Entry(member, scores[member]))
  }

  function Members(s: seq<Entry>): (r: seq<string>)
    ensures |r| == |s| && forall i :: 0 <= i < |s| ==> r[i] == s[i].member
  {
    seq(|s|, i requires 0 <= i < |s| => s[i].member)
  }

  lemma OrderGivesPosition(before: Before, s: seq<Entry>, k: nat, i: nat)
    requires Ranks(before) && Sorted(s, before) && k < |s| && i < |s| && before(s[k], s[i])
    ensures k < i
  {
  }

  /** The position of a member in the sorted listing is the number of members that come before it. */
  lemma PositionCountsAhead(before: Before, s: seq<Entry>, scores: map<string, real>, i: nat)
    requires Ranks(before) && Sorted(s, before) && ListsScores(s, scores) && i < |s|
    ensures s[i] in s && i == |Ahead(before, scores, s[i].member)|
  {
    SortedMembersDiffer(s, before, scores);
    var front := Members(s[..i]);
    assert forall k :: 0 <= k < |s| ==> s[k] in s && s[k] == Entry(s[k].member, scores[s[k].member]);
    forall m
      ensures m in front <==> m in Ahead(before, scores, s[i].member)
    {
      if m in front {
        var k :| 0 <= k < i && front[k] == m;
        assert before(s[k], s[i]);
      }
      if m in Ahead(before, scores, s[i].member) {
        var k :| 0 <= k < |s| && s[k] == Entry(m, scores[m]);
        OrderGivesPosition(before, s, k, i);
        assert front[k] == m;
      }
    }
    ListLength(front, Ahead(before, scores, s[i].member));
  }

  /** The position of a member, or the length of the list. */
  method Find(entries: seq<Entry>, member: string) returns (index: nat)
    ensures index <= |entries| && (index < |entries| ==> entries[index].member == member)
    ensures index == |entries| ==> forall e :: e in entries ==> e.member != member
  {
    index := 0;
    while index < |entries| && entries[index].member != member
      invariant index <= |entries| && forall k :: 0 <= k < index ==> entries[k].member != member
    {
      index := index + 1;
    }
  }

  lemma ReverseHoldsTheSame(s: seq<Entry>)
    ensures forall e :: e in Reverse(s) <==> e in s
  {
    forall e | e in s
      ensures e in Reverse(s)
    {
      var k :| 0 <= k < |s| && s[k] == e;
      assert Reverse(s)[|s| - 1 - k] == e;
    }
  }

  lemma ListedIffPresent(s: seq<Entry>, scores: map<string, real>, member: string)
    requires ListsScores(s, scores)
    ensures member in scores <==> exists e :: e in s && e.member == member
  {
    if member in scores {
      assert Entry(member, scores[member]) in s;
    }
  }

  /** ZRANK and ZREVRANK: how many members come before, or behind, this one. */
  method Rank(order: VisitOrder, scores: map<string, real>, member: string, reverse: bool) returns (rank: Option<nat>)
    requires IsVisitOrder(order)
    ensures rank.Some? <==> member in scores
    ensures member in scores ==>
              var ahead := |Ahead(ByScore(), scores, member)|;
              ahead < |scores| && rank.value == if reverse then |scores| - 1 - ahead else ahead
  {
    hide Ahead, Sorted, ListsScores, Ranks, ByScore, IsVisitOrder;
    BothOrdersRank();
    var sorted := EntriesByScore(order, scores);
    ListedIffPresent(sorted, scores, member);
    if reverse {
      ReverseHoldsTheSame(sorted);
      var index := Find(Reverse(sorted), member);
      if index == |sorted| {
        return None;
      }
      assert sorted[|sorted| - 1 - index] in sorted;
      PositionCountsAhead(ByScore(), sorted, scores, |sorted| - 1 - index);
      return Some(index);
    }
    var index := Find(sorted, member);
    if index == |sorted| {
      return None;
    }
    assert sorted[index] in sorted;
    PositionCountsAhead(ByScore(), sorted, scores, index);
    return Some(index);
  }

  // ---- ranges

  /** The entries at positions from..to that exist, the last included. */
  function Clipped(s: seq<Entry>, from: int, to: int): seq<Entry> {
    var lo, hi := Max(0, from), Min(|s| - 1, to);
    if lo <= hi then s[lo..hi + 1] else []
  }

  /** A negative index counts from the end. */
  function Position(s: seq<Entry>, index: int): int {
    if index < 0 then index + |s| else index
  }

  function RankRange(s: seq<Entry>, start: int, stop: int): seq<Entry> {
    Clipped(s, Position(s, start), Position(s, stop))
  }

  method ApplyRankRange(entries: seq<Entry>, start: int, stop: int) returns (r: seq<Entry>)
    ensures r == RankRange(entries, start, stop)
  {
    var size := |entries|;
    if size == 0 {
      return [];
    }
    var from, to := start, stop;
    if from < 0 {
      from := from + size;
    }
    if to < 0 {
      to := to + size;
    }
    if from < 0 {
      from := 0;
    }
    if to < 0 || from >= size {
      return [];
    }
    if to >= size {
      to := size - 1;
    }
    if from > to {
      return [];
    }
    return entries[from..to + 1];
  }

  /** At most count entries from offset on; a negative count means all of them, a negative offset none. */
  function Limited(s: seq<Entry>, offset: int, count: int): seq<Entry> {
    if offset < 0 || offset >= |s| then []
    else if count < 0 || offset + count >= |s| then s[offset..]
    else s[offset..offset + count]
  }

  method ApplyLimit(entries: seq<Entry>, offset: int, count: int) returns (r: seq<Entry>)
    ensures r == Limited(entries, offset, count)
  {
    if offset < 0 || count == 0 {
      return [];
    }
    var size := |entries|;
    if offset >= size {
      return [];
    }
    var end := size;
    if count > 0 && count < size - offset {
      end := offset + count;
    }
    if end <= offset {
      return [];
    }
    return entries[offset..end];
  }

  lemma ListedWithScore(s: seq<Entry>, scores: map<string, real>, k: nat)
    requires ListsScores(s, scores) && k < |s|
    ensures s[k].member in scores && s[k] == Entry(s[k].member, scores[s[k].member])
  {
    assert s[k] in s;
  }

  /** ZRANGE and ZRANK are inverse: the range of a single rank is the member of that rank. */
  lemma RangeInvertsRank(s: seq<Entry>, scores: map<string, real>, member: string, i: nat)
    requires Sorted(s, ByScore()) && ListsScores(s, scores) && member in scores && |s| == |scores|
    ensures RankRange(s, i, i) == [Entry(member, scores[member])] <==> i == |Ahead(ByScore(), scores, member)|
  {
    hide Ahead, Sorted, ListsScores;
    BothOrdersRank();
    ListedIffPresent(s, scores, member);
    var e :| e in s && e.member == member;
    var k :| 0 <= k < |s| && s[k] == e;
    PositionCountsAhead(ByScore(), s, scores, k);
    ListedWithScore(s, scores, k);
    if i < |s| {
      assert s[i..i + 1] == [s[i]];
      PositionCountsAhead(ByScore(), s, scores, i);
      ListedWithScore(s, scores, i);
    }
  }

  /** Position p of `size` lies between two indices, each compared from the front or, if negative, from the end. */
  predicate Selected(size: nat, start: int, stop: int, p: nat) {
    (if start >= 0 then start <= p else start <= p - size) && (if stop >= 0 then p <= stop else p - size <= stop)
  }

  /**
   * Whatever the two indices are, before the start, past the end or crossed, the range is the stretch of exactly the
   * positions between them; and an index from the end selects what the same position counted from the front does.
   */
  lemma NegativeIndicesAreASlice(s: seq<Entry>, start: int, stop: int) returns (lo: nat, hi: nat)
    ensures lo <= hi <= |s| && RankRange(s, start, stop) == s[lo..hi]
    ensures forall p :: 0 <= p < |s| ==> (lo <= p < hi <==> Selected(|s|, start, stop, p))
    ensures 0 <= start < |s| ==> RankRange(s, start - |s|, stop) == RankRange(s, start, stop)
    ensures 0 <= stop < |s| ==> RankRange(s, start, stop - |s|) == RankRange(s, start, stop)
  {
    var from, to := Max(0, Position(s, start)), Min(|s| - 1, Position(s, stop));
    if from <= to {
      lo, hi := from, to + 1;
    } else {
      lo, hi := 0, 0;
    }
  }

  /** A reversed range is the mirrored range of the sorted listing, reversed. */
  lemma ReverseRangeMirrors(s: seq<Entry>, start: nat, stop: nat)
    ensures RankRange(Reverse(s), start, stop) == Reverse(Clipped(s, |s| - 1 - stop, |s| - 1 - start))
  {
    var r := RankRange(Reverse(s), start, stop);
    var t := Reverse(Clipped(s, |s| - 1 - stop, |s| - 1 - start));
    assert |r| == |t|;
    assert forall k :: 0 <= k < |r| ==> r[k] == t[k];
  }

  // ---- score bounds

  datatype Limit<T> = NegInf | PosInf | At(value: T)

  datatype Bound<T> = Bound(limit: Limit<T>, inclusive: bool)

  predicate AboveLower(score: real, lower: Bound<real>) {
    match lower.limit
    case NegInf => true
    case PosInf => false
    case At(v) => if lower.inclusive then score >= v else score > v
  }

  predicate BelowUpper(score: real, upper: Bound<real>) {
    match upper.limit
    case NegInf => false
    case PosInf => true
    case At(v) => if upper.inclusive then score <= v else score < v
  }

  predicate ScoreInRange(score: real, lower: Bound<real>, upper: Bound<real>) {
    AboveLower(score, lower) && BelowUpper(score, upper)
  }

  function InScores(lower: Bound<real>, upper: Bound<real>): Entry -> bool {
    (e: Entry) => ScoreInRange(e.score, lower, upper)
  }

  /** The entries inside, in their order. */
  function Filter(s: seq<Entry>, inside: Entry -> bool): seq<Entry> {
    if s == [] then []
    else Filter(s[..|s| - 1], inside) + (if inside(s[|s| - 1]) then [s[|s| - 1]] else [])
  }

  /** FilterByScore and FilterByLex. */
  method FilterEntries(entries: seq<Entry>, inside: Entry -> bool) returns (r: seq<Entry>)
    ensures r == Filter(entries, inside)
  {
    r := [];
    for i := 0 to |entries|
      invariant r == Filter(entries[..i], inside)
    {
      assert entries[..i + 1][..i] == entries[..i];
      if inside(entries[i]) {
        r := r + [entries[i]];
      }
    }
    assert entries[..|entries|] == entries;
  }

  lemma {:induction false} FilterKeepsInside(s: seq<Entry>, inside: Entry -> bool)
    requires forall k :: 0 <= k < |s| ==> inside(s[k])
    ensures Filter(s, inside) == s
  {
    if s == [] {
    } else {
      FilterKeepsInside(s[..|s| - 1], inside);
    }
  }

  lemma {:induction false} FilterDropsOutside(s: seq<Entry>, t: seq<Entry>, inside: Entry -> bool)
    requires forall k :: 0 <= k < |t| ==> !inside(t[k])
    ensures Filter(s + t, inside) == Filter(s, inside)
  {
    if t != [] {
      assert (s + t)[..|s + t| - 1] == s + t[..|t| - 1];
      FilterDropsOutside(s, t[..|t| - 1], inside);
    } else {
      assert s + t == s;
    }
  }

  lemma {:induction false} FilterSplits(s: seq<Entry>, t: seq<Entry>, inside: Entry -> bool)
    ensures Filter(s + t, inside) == Filter(s, inside) + Filter(t, inside)
  {
    if t != [] {
      assert (s + t)[..|s + t| - 1] == s + t[..|t| - 1];
      FilterSplits(s, t[..|t| - 1], inside);
    } else {
      assert s + t == s;
    }
  }

  /** The first position from `from` on whose entry is not inside. */
  function EndOf(s: seq<Entry>, from: nat, inside: Entry -> bool): (end: nat)
    requires from <= |s|
    ensures from <= end <= |s| && (forall k :: from <= k < end ==> inside(s[k])) && (end < |s| ==> !inside(s[end]))
    decreases |s| - from
  {
    if from == |s| || !inside(s[from]) then from else EndOf(s, from + 1, inside)
  }

  /** Along the sorted listing scores never fall. */
  lemma ScoresRise(s: seq<Entry>, k: nat, l: nat)
    requires Sorted(s, ByScore()) && k <= l < |s|
    ensures s[k].score <= s[l].score
  {
    assert k < l ==> ByScore()(s[k], s[l]);
  }

  lemma PartsFilter(front: seq<Entry>, middle: seq<Entry>, back: seq<Entry>, inside: Entry -> bool)
    requires forall k :: 0 <= k < |front| ==> !inside(front[k])
    requires forall k :: 0 <= k < |middle| ==> inside(middle[k])
    requires forall k :: 0 <= k < |back| ==> !inside(back[k])
    ensures Filter((front + middle) + back, inside) == middle
  {
    hide Filter;
    FilterDropsOutside(front + middle, back, inside);
    FilterSplits(front, middle, inside);
    FilterKeepsInside(middle, inside);
    FilterSplits([], front, inside);
    FilterDropsOutside([], front, inside);
    FilterKeepsInside([], inside);
    assert [] + front == front && [] + middle == middle;
  }

  lemma StretchFilters(s: seq<Entry>, i: nat, j: nat, inside: Entry -> bool)
    requires i <= j <= |s| && forall k :: 0 <= k < |s| ==> (inside(s[k]) <==> i <= k < j)
    ensures Filter(s, inside) == s[i..j]
  {
    hide Filter;
    PartsFilter(s[..i], s[i..j], s[j..], inside);
    assert s == (s[..i] + s[i..j]) + s[j..];
  }

  /**
   * ZRANGE BYSCORE returns one stretch of the sorted listing: what follows the entries below it and precedes those
   * above.
   */
  lemma ScoreRangeIsAStretch(s: seq<Entry>, lower: Bound<real>, upper: Bound<real>) returns (i: nat, j: nat)
    requires Sorted(s, ByScore())
    ensures i <= j <= |s| && Filter(s, InScores(lower, upper)) == s[i..j]
    ensures forall k :: 0 <= k < i ==> !AboveLower(s[k].score, lower)
    ensures forall k :: j <= k < |s| ==> !BelowUpper(s[k].score, upper)
  {
    hide Sorted, Filter;
    i := EndOf(s, 0, (e: Entry) => !AboveLower(e.score, lower));
    j := EndOf(s, i, (e: Entry) => BelowUpper(e.score, upper));
    forall k | i <= k < |s|
      ensures AboveLower(s[k].score, lower)
    {
      ScoresRise(s, i, k);
    }
    forall k | j <= k < |s|
      ensures !BelowUpper(s[k].score, upper)
    {
      ScoresRise(s, j, k);
    }
    StretchFilters(s, i, j, InScores(lower, upper));
  }

  // ---- member bounds

  predicate MemberAbove(member: string, lower: Bound<string>) {
    match lower.limit
    case NegInf => true
    case PosInf => false
    case At(v) => Less(v, member) || (lower.inclusive && member == v)
  }

  predicate MemberBelow(member: string, upper: Bound<string>) {
    match upper.limit
    case NegInf => false
    case PosInf => true
    case At(v) => Less(member, v) || (upper.inclusive && member == v)
  }

  function InMembers(lower: Bound<string>, upper: Bound<string>): Entry -> bool {
    (e: Entry) => MemberAbove(e.member, lower) && MemberBelow(e.member, upper)
  }

  lemma MembersRise(s: seq<Entry>, k: nat, l: nat, lower: Bound<string>, upper: Bound<string>)
    requires Sorted(s, ByMember()) && k <= l < |s|
    ensures MemberAbove(s[k].member, lower) ==> MemberAbove(s[l].member, lower)
    ensures MemberBelow(s[l].member, upper) ==> MemberBelow(s[k].member, upper)
  {
    if k < l {
      assert ByMember()(s[k], s[l]);
      if lower.limit.At? && Less(lower.limit.value, s[k].member) {
        LessIsTransitive(lower.limit.value, s[k].member, s[l].member);
      }
      if upper.limit.At? && Less(s[l].member, upper.limit.value) {
        LessIsTransitive(s[k].member, s[l].member, upper.limit.value);
      }
    }
  }

  /** ZRANGE BYLEX returns one stretch of the members in binary order. */
  lemma LexRangeIsAStretch(s: seq<Entry>, lower: Bound<string>, upper: Bound<string>) returns (i: nat, j: nat)
    requires Sorted(s, ByMember())
    ensures i <= j <= |s| && Filter(s, InMembers(lower, upper)) == s[i..j]
    ensures forall k :: 0 <= k < i ==> !MemberAbove(s[k].member, lower)
    ensures forall k :: j <= k < |s| ==> !MemberBelow(s[k].member, upper)
  {
    hide Sorted, Filter, MemberAbove, MemberBelow;
    i := EndOf(s, 0, (e: Entry) => !MemberAbove(e.member, lower));
    j := EndOf(s, i, (e: Entry) => MemberBelow(e.member, upper));
    forall k | i <= k < |s|
      ensures MemberAbove(s[k].member, lower)
    {
      MembersRise(s, i, k, lower, upper);
    }
    forall k | j <= k < |s|
      ensures !MemberBelow(s[k].member, upper)
    {
      MembersRise(s, j, k, lower, upper);
    }
    StretchFilters(s, i, j, InMembers(lower, upper));
  }

  // ---- ZCOUNT

  ghost function InRange(scores: map<string, real>, lower: Bound<real>, upper: Bound<real>): set<string> {
    set m | m in scores && ScoreInRange(scores[m], lower, upper)
  }

  lemma {:induction false} FilterMembers(s: seq<Entry>, lower: Bound<real>, upper: Bound<real>)
    requires DistinctMembers(s)
    ensures DistinctMembers(Filter(s, InScores(lower, upper)))
    ensures forall e :: e in Filter(s, InScores(lower, upper)) <==> e in s && ScoreInRange(e.score, lower, upper)
  {
    if s == [] {
    } else {
      FilterMembers(s[..|s| - 1], lower, upper);
      var last := s[|s| - 1];
      assert s == s[..|s| - 1] + [last];
      assert forall e :: e in s[..|s| - 1] ==> e.member != last.member;
    }
  }

  /** Any listing of the set, in any order, holds as many entries in the range as the set has members there. */
  lemma FilterCountsMembers(s: seq<Entry>, scores: map<string, real>, lower: Bound<real>, upper: Bound<real>)
    requires DistinctMembers(s) && ListsScores(s, scores)
    ensures |Filter(s, InScores(lower, upper))| == |InRange(scores, lower, upper)|
  {
    FilterMembers(s, lower, upper);
    var members := Members(Filter(s, InScores(lower, upper)));
    forall m
      ensures m in members <==> m in InRange(scores, lower, upper)
    {
      if m in members {
        var k :| 0 <= k < |members| && members[k] == m;
        assert Filter(s, InScores(lower, upper))[k] in s;
      }
      if m in InRange(scores, lower, upper) {
        assert Entry(m, scores[m]) in Filter(s, InScores(lower, upper));
        var k :| 0 <= k < |members| && Filter(s, InScores(lower, upper))[k] == Entry(m, scores[m]);
        assert members[k] == m;
      }
    }
    ListLength(members, InRange(scores, lower, upper));
  }

  /** ZCOUNT counts in the container's order. */
  method Count(order: VisitOrder, scores: map<string, real>, lower: Bound<real>, upper: Bound<real>)
    returns (count: nat)
    requires IsVisitOrder(order)
    ensures count == |InRange(scores, lower, upper)|
  {
    var entries := Visit(order, scores);
    count := 0;
    for i := 0 to |entries|
      invariant count == |Filter(entries[..i], InScores(lower, upper))|
    {
      assert entries[..i + 1][..i] == entries[..i];
      if ScoreInRange(entries[i].score, lower, upper) {
        count := count + 1;
      }
    }
    assert entries[..|entries|] == entries;
    FilterCountsMembers(entries, scores, lower, upper);
  }

  /** ZCOUNT is the length of ZRANGE BYSCORE with the same bounds. */
  lemma CountIsRangeLength(s: seq<Entry>, scores: map<string, real>, lower: Bound<real>, upper: Bound<real>)
    requires Sorted(s, ByScore()) && ListsScores(s, scores)
    ensures |Filter(s, InScores(lower, upper))| == |InRange(scores, lower, upper)|
  {
    BothOrdersRank();
    SortedMembersDiffer(s, ByScore(), scores);
    FilterCountsMembers(s, scores, lower, upper);
  }

  // ---- the ZRANGE command

  datatype Mode = RankMode | ScoreMode | LexMode

  datatype RangeOptions = RangeOptions(mode: Mode, rev: bool, withScores: bool, limit: Option<(int, int)>)

  const NO_RANGE_OPTIONS := RangeOptions(RankMode, false, false, None)

  /** The options in the remaining words, each at most once and one mode only; LIMIT needs a mode. */
  function RangeOptionsFrom(words: seq<string>, o: RangeOptions): Option<RangeOptions> {
    if words == [] then (if o.limit.Some? && o.mode.RankMode? then None else Some(o))
    else
      var option := Upper(words[0]);
      if option == "BYSCORE" || option == "BYLEX" then
        if !o.mode.RankMode? then None
        else RangeOptionsFrom(words[1..], o.(mode := if option == "BYSCORE" then ScoreMode else LexMode))
      else if option == "REV" then
        if o.rev then None else RangeOptionsFrom(words[1..], o.(rev := true))
      else if option == "WITHSCORES" then
        if o.withScores then None else RangeOptionsFrom(words[1..], o.(withScores := true))
      else if option == "LIMIT" then
        if o.limit.Some? || |words| < 3 || ParseInt64(words[1]).None? || ParseInt64(words[2]).None? then None
        else RangeOptionsFrom(words[3..], o.(limit := Some((ParseInt64(words[1]).value, ParseInt64(words[2]).value))))
      else None
  }

  method ParseRangeOptions(words: seq<string>) returns (r: Option<RangeOptions>)
    ensures r == RangeOptionsFrom(words, NO_RANGE_OPTIONS)
  {
    hide Upper, ParseInt64;
    var o := NO_RANGE_OPTIONS;
    var index := 0;
    assert words[0..] == words;
    while index < |words|
      invariant index <= |words| && RangeOptionsFrom(words[index..], o) == RangeOptionsFrom(words, NO_RANGE_OPTIONS)
    {
      ghost var rest := words[index..];
      assert rest[0] == words[index] && rest[1..] == words[index + 1..];
      var option := Upper(words[index]);
      if option == "BYSCORE" || option == "BYLEX" {
        if !o.mode.RankMode? {
          return None;
        }
        o := o.(mode := if option == "BYSCORE" then ScoreMode else LexMode);
      } else if option == "REV" {
        if o.rev {
          return None;
        }
        o := o.(rev := true);
      } else if option == "WITHSCORES" {
        if o.withScores {
          return None;
        }
        o := o.(withScores := true);
      } else if option == "LIMIT" {
        if o.limit.Some? || index + 2 >= |words| {
          return None;
        }
        assert rest[1] == words[index + 1] && rest[2] == words[index + 2] && rest[3..] == words[index + 3..];
        var offset, count := ParseInt64(words[index + 1]), ParseInt64(words[index + 2]);
        if offset.None? || count.None? {
          return None;
        }
        o := o.(limit := Some((offset.value, count.value)));
        index := index + 2;
      } else {
        return None;
      }
      index := index + 1;
    }
    return if o.limit.Some? && o.mode.RankMode? then None else Some(o);
  }

  /** The named infinities, or a finite score; an opening parenthesis excludes the bound itself. */
  function ScoreLimit(sc: Scoring, text: string): Option<Limit<real>> {
    if Upper(text) in {"+INF", "INF", "+INFINITY", "INFINITY"} then Some(PosInf)
    else if Upper(text) in {"-INF", "-INFINITY"} then Some(NegInf)
    else
      match sc.parse(text)
      case None => None
      case Some(score) => Some(At(score))
  }

  function ScoreBound(sc: Scoring, text: string): Option<Bound<real>> {
    var open := text != "" && text[0] == '(';
    var rest := if open then text[1..] else text;
    if rest == "" then None
    else
      match ScoreLimit(sc, rest)
      case None => None
      case Some(limit) => Some(Bound(limit, !open))
  }

  function LexBound(text: string): Option<Bound<string>> {
    if text == "-" then Some(Bound(NegInf, true))
    else if text == "+" then Some(Bound(PosInf, true))
    else if text != "" && (text[0] == '[' || text[0] == '(') then Some(Bound(At(text[1..]), text[0] == '['))
    else None
  }

  datatype Query =
    | RankQuery(start: int, stop: int)
    | ScoreQuery(low: Bound<real>, high: Bound<real>)
    | LexQuery(from: Bound<string>, to: Bound<string>)

  /** The two range arguments; REV names the upper bound first. */
  function RangeQuery(sc: Scoring, first: string, second: string, o: RangeOptions): Option<Query> {
    var lower, upper := if o.rev then second else first, if o.rev then first else second;
    match o.mode
    case RankMode =>
      if ParseInt64(first).None? || ParseInt64(second).None? then None
      else Some(RankQuery(ParseInt64(first).value, ParseInt64(second).value))
    case ScoreMode =>
      if ScoreBound(sc, lower).None? || ScoreBound(sc, upper).None? then None
      else Some(ScoreQuery(ScoreBound(sc, lower).value, ScoreBound(sc, upper).value))
    case LexMode =>
      if LexBound(lower).None? || LexBound(upper).None? then None
      else Some(LexQuery(LexBound(lower).value, LexBound(upper).value))
  }

  /** What ZRANGE returns of a set whose listings by score and by member these are. */
  function RangeOf(byScore: seq<Entry>, byMember: seq<Entry>, query: Query, o: RangeOptions): seq<Entry> {
    if query.RankQuery? then RankRange(if o.rev then Reverse(byScore) else byScore, query.start, query.stop)
    else
      var found := if query.ScoreQuery? then Filter(byScore, InScores(query.low, query.high))
                   else Filter(byMember, InMembers(query.from, query.to));
      var turned := if o.rev then Reverse(found) else found;
      if o.limit.Some? then Limited(turned, o.limit.value.0, o.limit.value.1) else turned
  }

  /** s and t are the sorted listings of the set; there is exactly one of each. */
  ghost predicate Listings(scores: map<string, real>, s: seq<Entry>, t: seq<Entry>) {
    Sorted(s, ByScore()) && ListsScores(s, scores) && Sorted(t, ByMember()) && ListsScores(t, scores)
  }

  lemma OneListing(scores: map<string, real>, before: Before, s: seq<Entry>, t: seq<Entry>)
    requires before == ByMember() || before == ByScore()
    requires Sorted(s, before) && ListsScores(s, scores) && Sorted(t, before) && ListsScores(t, scores)
    ensures s == t
  {
    BothOrdersRank();
    SortedListingIsUnique(before, s, t);
  }

  /** ZRANGE on a stored set: the answer depends on the set alone, not on how its container is visited. */
  method Range(order: VisitOrder, scores: map<string, real>, query: Query, o: RangeOptions) returns (r: seq<Entry>)
    requires IsVisitOrder(order)
    ensures forall s, t :: Listings(scores, s, t) ==> r == RangeOf(s, t, query, o)
  {
    ghost var byMember := [];
    ghost var byScore := [];
    if query.LexQuery? {
      var entries := EntriesByLex(order, scores);
      byMember := entries;
      r := FilterEntries(entries, InMembers(query.from, query.to));
    } else {
      var entries := EntriesByScore(order, scores);
      byScore := entries;
      if query.RankQuery? {
        r := ApplyRankRange(if o.rev then Reverse(entries) else entries, query.start, query.stop);
      } else {
        r := FilterEntries(entries, InScores(query.low, query.high));
      }
    }
    if !query.RankQuery? {
      if o.rev {
        r := Reverse(r);
      }
      if o.limit.Some? {
        r := ApplyLimit(r, o.limit.value.0, o.limit.value.1);
      }
    }
    forall s, t | Listings(scores, s, t)
      ensures query.LexQuery? ==> t == byMember
      ensures !query.LexQuery? ==> s == byScore
    {
      if query.LexQuery? {
        OneListing(scores, ByMember(), t, byMember);
      } else {
        OneListing(scores, ByScore(), s, byScore);
      }
    }
  }

  datatype RangeReply = BadRange | NoSet | NotASet | Found(entries: seq<Entry>, withScores: bool)

  /** ZRANGE: options before bounds, bounds before the look at the key, and then what the set alone determines. */
  method ZRange(sc: Scoring, order: VisitOrder, words: seq<string>, existing: Option<Object>)
    returns (reply: RangeReply)
    requires IsVisitOrder(order) && |words| >= 2
    ensures match RangeOptionsFrom(words[2..], NO_RANGE_OPTIONS)
            case None => reply == BadRange
            case Some(o) =>
              match RangeQuery(sc, words[0], words[1], o)
              case None => reply == BadRange
              case Some(query) =>
                if existing.None? then reply == NoSet
                else if !existing.value.value.Scores? then reply == NotASet
                else reply.Found? && reply.withScores == o.withScores
                     && forall s, t :: Listings(existing.value.value.scores, s, t) ==>
                       reply.entries == RangeOf(s, t, query, o)
  {
    hide RangeOptionsFrom, RangeQuery, RangeOf, Listings;
    var o := ParseRangeOptions(words[2..]);
    if o.None? {
      return BadRange;
    }
    var query := RangeQuery(sc, words[0], words[1], o.value);
    if query.None? {
      return BadRange;
    }
    if existing.None? {
      return NoSet;
    }
    if !existing.value.value.Scores? {
      return NotASet;
    }
    var entries := Range(order, existing.value.value.scores, query.value, o.value);
    return Found(entries, o.value.withScores);
  }
}
