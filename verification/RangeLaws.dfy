/** What ZRANGE selects and in which order, told by its words and the set (src/command/zset_cmd.cpp). */
module RangeLaws {
  import opened Core
  import opened Numbers
  import opened Order
  import opened Commands
  import opened SortedSets
  import opened WriteLaws

  // ---- order

  /** In binary order: the first character that differs decides, and a shorter string comes before its extensions. */
  predicate InFront(a: string, b: string) {
    exists n :: 0 <= n <= |a| && n < |b| && a[..n] == b[..n] && (n == |a| || a[n] < b[n])
  }

  lemma InFrontOnTails(a: string, b: string)
    requires a != [] && b != [] && a[0] == b[0]
    ensures InFront(a, b) <==> InFront(a[1..], b[1..])
  {
    if n :| 0 <= n <= |a| && n < |b| && a[..n] == b[..n] && (n == |a| || a[n] < b[n]) {
      assert n > 0;
      assert a[1..][..n - 1] == a[..n][1..] == b[..n][1..] == b[1..][..n - 1];
    }
    var x, y := a[1..], b[1..];
    if n :| 0 <= n <= |x| && n < |y| && x[..n] == y[..n] && (n == |x| || x[n] < y[n]) {
      assert a[..n + 1] == [a[0]] + x[..n] == [b[0]] + y[..n] == b[..n + 1];
    }
  }

  lemma {:induction false} LessIsInFront(a: string, b: string)
    ensures Less(a, b) <==> InFront(a, b)
  {
    if a == [] {
      assert b != [] ==> a[..0] == b[..0];
    } else if b != [] {
      if a[0] == b[0] {
        LessIsInFront(a[1..], b[1..]);
        InFrontOnTails(a, b);
      } else {
        assert a[..0] == b[..0];
        if n :| 0 <= n <= |a| && n < |b| && a[..n] == b[..n] && (n == |a| || a[n] < b[n]) {
          assert n > 0 ==> a[..n][0] == b[..n][0];
        }
      }
    }
  }

  /** Lower scores first, and equal scores in binary order of the members. */
  predicate ComesFirst(a: Entry, b: Entry) {
    a.score < b.score || (a.score == b.score && InFront(a.member, b.member))
  }

  /** The listing holds every member once with its score, in this order. */
  ghost predicate IsListing(s: seq<Entry>, scores: map<string, real>, byMember: bool) {
    && (forall e :: e in s <==> e.member in scores && scores[e.member] == e.score)
    && (forall i, j :: 0 <= i < j < |s| ==> if byMember then InFront(s[i].member, s[j].member)
        else ComesFirst(s[i], s[j]))
  }

  lemma HoldsTheSet(s: seq<Entry>, scores: map<string, real>)
    ensures ListsScores(s, scores) <==> forall e :: e in s <==> e.member in scores && scores[e.member] == e.score
  {
    if ListsScores(s, scores) {
      forall e
        ensures e in s <==> e.member in scores && scores[e.member] == e.score
      {
        assert e.member in scores ==> Entry(e.member, scores[e.member]) in s;
        assert e == Entry(e.member, e.score);
      }
    }
    if forall e :: e in s <==> e.member in scores && scores[e.member] == e.score {
      forall m | m in scores
        ensures Entry(m, scores[m]) in s
      {
        var e := Entry(m, scores[m]);
        assert e.member == m && e.score == scores[m];
      }
    }
  }

  lemma ListingsAreListings(scores: map<string, real>, s: seq<Entry>, t: seq<Entry>)
    ensures Listings(scores, s, t) <==> IsListing(s, scores, false) && IsListing(t, scores, true)
  {
    hide Less, InFront;
    forall a, b
      ensures Less(a, b) <==> InFront(a, b)
    {
      LessIsInFront(a, b);
    }
    HoldsTheSet(s, scores);
    HoldsTheSet(t, scores);
  }

  // ---- bounds as they are written

  predicate IsPlusInfinity(text: string) {
    Upper(text) in {"+INF", "INF", "+INFINITY", "INFINITY"}
  }

  predicate IsMinusInfinity(text: string) {
    Upper(text) in {"-INF", "-INFINITY"}
  }

  predicate IsOpen(text: string) {
    text != "" && text[0] == '('
  }

  /** A score bound without its parenthesis. */
  function Digits(text: string): string {
    if IsOpen(text) then text[1..] else text
  }

  predicate ScoreWordOk(sc: Scoring, text: string) {
    var number := Digits(text);
    number != "" && (IsPlusInfinity(number) || IsMinusInfinity(number) || sc.parse(number).Some?)
  }

  /** The score lies at or above the lower bound that the word spells; strictly above it behind a parenthesis. */
  predicate FromWord(sc: Scoring, text: string, score: real) {
    var number := Digits(text);
    if IsPlusInfinity(number) then false
    else if IsMinusInfinity(number) then true
    else
      match sc.parse(number)
      case None => false
      case Some(bound) => bound < score || (bound == score && !IsOpen(text))
  }

  /** The score lies at or below the upper bound that the word spells; strictly below it behind a parenthesis. */
  predicate ToWord(sc: Scoring, text: string, score: real) {
    var number := Digits(text);
    if IsPlusInfinity(number) then true
    else if IsMinusInfinity(number) then false
    else
      match sc.parse(number)
      case None => false
      case Some(bound) => score < bound || (bound == score && !IsOpen(text))
  }

  predicate MemberWordOk(text: string) {
    text == "-" || text == "+" || (text != "" && (text[0] == '[' || text[0] == '('))
  }

  /** The member stands at or behind the lower bound that the word spells: "-" is before and "+" behind every member. */
  predicate FromMember(text: string, member: string) {
    || text == "-"
    || (text != "" && text[0] == '[' && (member == text[1..] || InFront(text[1..], member)))
    || (text != "" && text[0] == '(' && InFront(text[1..], member))
  }

  predicate ToMember(text: string, member: string) {
    || text == "+"
    || (text != "" && text[0] == '[' && (member == text[1..] || InFront(member, text[1..])))
    || (text != "" && text[0] == '(' && InFront(member, text[1..]))
  }

  lemma ScoreBoundIsWord(sc: Scoring, text: string, score: real)
    ensures var bound := ScoreBound(sc, text);
            (bound.Some? <==> ScoreWordOk(sc, text))
            && (bound.Some? ==> && (AboveLower(score, bound.value) <==> FromWord(sc, text, score))
                                && (BelowUpper(score, bound.value) <==> ToWord(sc, text, score)))
  {
    hide Upper;
  }

  lemma LexBoundIsWord(text: string, member: string)
    ensures var bound := LexBound(text);
            (bound.Some? <==> MemberWordOk(text))
            && (bound.Some? ==> && (MemberAbove(member, bound.value) <==> FromMember(text, member))
                                && (MemberBelow(member, bound.value) <==> ToMember(text, member)))
  {
    hide Less, InFront;
    if text != "" {
      LessIsInFront(text[1..], member);
      LessIsInFront(member, text[1..]);
    }
  }

  // ---- what ZRANGE takes and selects

  /** The two range words are in order for this mode. */
  predicate BoundsOk(sc: Scoring, first: string, second: string, mode: Mode) {
    match mode
    case RankMode => ParseInt64(first).Some? && ParseInt64(second).Some?
    case ScoreMode => ScoreWordOk(sc, first) && ScoreWordOk(sc, second)
    case LexMode => MemberWordOk(first) && MemberWordOk(second)
  }

  /** An entry lies between the bounds; REV names the upper bound first. */
  predicate Between(sc: Scoring, first: string, second: string, o: RangeOptions, e: Entry) {
    var lower, upper := if o.rev then second else first, if o.rev then first else second;
    if o.mode.ScoreMode? then FromWord(sc, lower, e.score) && ToWord(sc, upper, e.score)
    else FromMember(lower, e.member) && ToMember(upper, e.member)
  }

  lemma BoundsAreTaken(sc: Scoring, first: string, second: string, o: RangeOptions)
    ensures RangeQuery(sc, first, second, o).Some? <==> BoundsOk(sc, first, second, o.mode)
  {
    hide ScoreBound, LexBound, ParseInt64, ScoreWordOk, MemberWordOk, FromWord, ToWord, FromMember, ToMember;
    ScoreBoundIsWord(sc, first, 0.0);
    ScoreBoundIsWord(sc, second, 0.0);
    LexBoundIsWord(first, "");
    LexBoundIsWord(second, "");
  }

  /** The test that the range makes of an entry. */
  function Inside(query: Query): Entry -> bool
    requires !query.RankQuery?
  {
    if query.ScoreQuery? then InScores(query.low, query.high) else InMembers(query.from, query.to)
  }

  lemma InsideIsBetween(sc: Scoring, first: string, second: string, o: RangeOptions, e: Entry)
    requires !o.mode.RankMode? && BoundsOk(sc, first, second, o.mode)
    ensures var query := RangeQuery(sc, first, second, o);
            query.Some? && query.value.ScoreQuery? == o.mode.ScoreMode? && !query.value.RankQuery?
            && (Inside(query.value)(e) <==> Between(sc, first, second, o, e))
  {
    hide ScoreBound, LexBound, ScoreWordOk, MemberWordOk, FromWord, ToWord, FromMember, ToMember, MemberAbove,
         MemberBelow, AboveLower, BelowUpper;
    ScoreBoundIsWord(sc, first, e.score);
    ScoreBoundIsWord(sc, second, e.score);
    LexBoundIsWord(first, e.member);
    LexBoundIsWord(second, e.member);
  }

  /** r lists exactly the entries of the set between the bounds: by score or by member, backwards under REV. */
  ghost predicate IsRange(sc: Scoring, r: seq<Entry>, scores: map<string, real>, first: string, second: string,
                          o: RangeOptions)
  {
    && (forall e :: e in r <==>
          e.member in scores && scores[e.member] == e.score && Between(sc, first, second, o, e))
    && forall i, j :: 0 <= i < j < |r| ==>
         var a, b := if o.rev then r[j] else r[i], if o.rev then r[i] else r[j];
         if o.mode.ScoreMode? then ComesFirst(a, b) else InFront(a.member, b.member)
  }

  lemma {:induction false} FilterHolds(s: seq<Entry>, inside: Entry -> bool, e: Entry)
    ensures e in Filter(s, inside) <==> e in s && inside(e)
  {
    if s == [] {
    } else {
      FilterHolds(s[..|s| - 1], inside, e);
      assert s == s[..|s| - 1] + [s[|s| - 1]];
    }
  }

  lemma SortedGrows(s: seq<Entry>, last: Entry, before: Before)
    requires Sorted(s, before) && forall e :: e in s ==> before(e, last)
    ensures Sorted(s + [last], before)
  {
  }

  lemma {:induction false} FilterIsSorted(s: seq<Entry>, before: Before, inside: Entry -> bool)
    requires Sorted(s, before)
    ensures Sorted(Filter(s, inside), before)
  {
    if s == [] {
    } else {
      var front, last := s[..|s| - 1], s[|s| - 1];
      FilterIsSorted(front, before, inside);
      forall e | e in Filter(front, inside)
        ensures before(e, last)
      {
        FilterHolds(front, inside, e);
        var i :| 0 <= i < |front| && front[i] == e;
        assert s[i] == e;
      }
      hide Sorted;
      SortedGrows(Filter(front, inside), last, before);
    }
  }

  /** What LIMIT cuts out: up to count entries from offset on, all that follow if count is negative. */
  predicate IsCut(r: seq<Entry>, all: seq<Entry>, offset: int, count: int) {
    && (offset < 0 || offset >= |all| ==> r == [])
    && (0 <= offset < |all| ==>
          && |r| == (if count < 0 then |all| - offset else Min(count, |all| - offset))
          && forall i :: 0 <= i < |r| ==> r[i] == all[offset + i])
  }

  lemma LimitCuts(s: seq<Entry>, offset: int, count: int)
    ensures IsCut(Limited(s, offset, count), s, offset, count)
  {
  }

  /** A sorted list of the entries between the bounds, turned under REV. */
  lemma TurnedIsRange(sc: Scoring, found: seq<Entry>, scores: map<string, real>, first: string, second: string,
                      o: RangeOptions)
    requires Sorted(found, if o.mode.ScoreMode? then ByScore() else ByMember())
    requires forall e :: e in found <==>
                           e.member in scores && scores[e.member] == e.score && Between(sc, first, second, o, e)
    ensures IsRange(sc, if o.rev then Reverse(found) else found, scores, first, second, o)
  {
    hide Less, InFront, Between;
    ReverseHoldsTheSame(found);
    forall a, b
      ensures Less(a, b) <==> InFront(a, b)
    {
      LessIsInFront(a, b);
    }
  }

  lemma RangeFilters(s: seq<Entry>, t: seq<Entry>, query: Query, o: RangeOptions)
    requires !query.RankQuery?
    ensures var found := Filter(if query.ScoreQuery? then s else t, Inside(query));
            var turned := if o.rev then Reverse(found) else found;
            RangeOf(s, t, query, o)
            == if o.limit.Some? then Limited(turned, o.limit.value.0, o.limit.value.1) else turned
  {
  }

  /**
   * ZRANGE BYSCORE and BYLEX return the entries between the bounds as they are written, in order, and of these what
   * LIMIT cuts out.
   */
  lemma RangeIsBetween(sc: Scoring, scores: map<string, real>, s: seq<Entry>, t: seq<Entry>, first: string,
                       second: string, o: RangeOptions) returns (all: seq<Entry>)
    requires Listings(scores, s, t) && !o.mode.RankMode? && BoundsOk(sc, first, second, o.mode)
    ensures IsRange(sc, all, scores, first, second, o)
    ensures var query := RangeQuery(sc, first, second, o);
            && query.Some?
            && var r := RangeOf(s, t, query.value, o);
               if o.limit.Some? then IsCut(r, all, o.limit.value.0, o.limit.value.1) else r == all
  {
    hide RangeQuery, RangeOf, Between, BoundsOk, Filter, Limited, ListsScores, Inside, IsRange, IsCut, Sorted;
    InsideIsBetween(sc, first, second, o, Entry("", 0.0));
    var query := RangeQuery(sc, first, second, o).value;
    var listing := if query.ScoreQuery? then s else t;
    var found := Filter(listing, Inside(query));
    all := if o.rev then Reverse(found) else found;
    HoldsTheSet(listing, scores);
    forall e
      ensures e in found <==> e.member in scores && scores[e.member] == e.score && Between(sc, first, second, o, e)
    {
      FilterHolds(listing, Inside(query), e);
      InsideIsBetween(sc, first, second, o, e);
    }
    FilterIsSorted(listing, if o.mode.ScoreMode? then ByScore() else ByMember(), Inside(query));
    TurnedIsRange(sc, found, scores, first, second, o);
    RangeFilters(s, t, query, o);
    if o.limit.Some? {
      LimitCuts(all, o.limit.value.0, o.limit.value.1);
    }
  }

  /** ZRANGE by rank returns the stretch of the positions between its two numbers, counted backwards under REV. */
  lemma RankRangeIsAStretch(sc: Scoring, s: seq<Entry>, t: seq<Entry>, first: string, second: string, o: RangeOptions)
    returns (lo: nat, hi: nat)
    requires o.mode.RankMode? && BoundsOk(sc, first, second, o.mode)
    ensures var query := RangeQuery(sc, first, second, o);
            && query.Some? && lo <= hi <= |s|
            && (forall p :: 0 <= p < |s| ==>
                  (lo <= p < hi <==> Selected(|s|, ParseInt64(first).value, ParseInt64(second).value, p)))
            && var r := RangeOf(s, t, query.value, o);
               && |r| == hi - lo
               && forall i :: 0 <= i < |r| ==> r[i] == if o.rev then s[|s| - 1 - lo - i] else s[lo + i]
  {
    hide ParseInt64;
    var listing := if o.rev then Reverse(s) else s;
    lo, hi := NegativeIndicesAreASlice(listing, ParseInt64(first).value, ParseInt64(second).value);
  }

  /** ZRANK counts the members that come before this one. */
  lemma AheadComesFirst(scores: map<string, real>, member: string)
    requires member in scores
    ensures Ahead(ByScore(), scores, member)
            == set m | m in scores && ComesFirst(Entry(m, scores[m]), Entry(member, scores[member]))
  {
    hide Less, InFront;
    forall m
      ensures Less(m, member) <==> InFront(m, member)
    {
      LessIsInFront(m, member);
    }
  }

  /** ZCOUNT counts the members whose score lies between its words. */
  lemma CountIsBetween(sc: Scoring, scores: map<string, real>, first: string, second: string)
    requires ScoreWordOk(sc, first) && ScoreWordOk(sc, second)
    ensures ScoreBound(sc, first).Some? && ScoreBound(sc, second).Some?
    ensures InRange(scores, ScoreBound(sc, first).value, ScoreBound(sc, second).value)
            == set m | m in scores && FromWord(sc, first, scores[m]) && ToWord(sc, second, scores[m])
  {
    hide ScoreBound, ScoreWordOk, FromWord, ToWord, AboveLower, BelowUpper;
    ScoreBoundIsWord(sc, first, 0.0);
    ScoreBoundIsWord(sc, second, 0.0);
    forall m | m in scores
      ensures AboveLower(scores[m], ScoreBound(sc, first).value) <==> FromWord(sc, first, scores[m])
      ensures BelowUpper(scores[m], ScoreBound(sc, second).value) <==> ToWord(sc, second, scores[m])
    {
      ScoreBoundIsWord(sc, first, scores[m]);
      ScoreBoundIsWord(sc, second, scores[m]);
    }
  }

  // ---- the option words

  /** The word is one of the two numbers of a LIMIT. */
  predicate IsLimitNumber(words: seq<string>, i: nat)
    requires i < |words|
  {
    (i >= 1 && Upper(words[i - 1]) == "LIMIT") || (i >= 2 && Upper(words[i - 2]) == "LIMIT")
  }

  /** The word may stand where it stands. */
  predicate RangeWordOk(words: seq<string>, i: nat)
    requires i < |words|
  {
    if IsLimitNumber(words, i) then ParseInt64(words[i]).Some?
    else
      Upper(words[i]) in {"BYSCORE", "BYLEX", "REV", "WITHSCORES"} || (Upper(words[i]) == "LIMIT" && i + 2 < |words|)
  }

  /** No option stands twice, nor BYSCORE together with BYLEX. */
  predicate RangeClash(a: string, b: string) {
    (Upper(a) in {"BYSCORE", "BYLEX"} && Upper(b) in {"BYSCORE", "BYLEX"})
    || (Upper(a) == Upper(b) && Upper(a) in {"REV", "WITHSCORES", "LIMIT"})
  }

  /** The option words of ZRANGE are accepted; LIMIT is not without BYSCORE or BYLEX. */
  predicate RangeWordsOk(words: seq<string>) {
    && (forall i :: 0 <= i < |words| ==> RangeWordOk(words, i))
    && (forall i, j :: 0 <= i < j < |words| ==> !RangeClash(words[i], words[j]))
    && (Has(words, |words|, "LIMIT") ==> Has(words, |words|, "BYSCORE") || Has(words, |words|, "BYLEX"))
  }

  /** The two numbers behind LIMIT. */
  function LimitOf(words: seq<string>, n: nat): Option<(int, int)>
    requires n <= |words|
  {
    if n < 3 then None
    else if Upper(words[n - 3]) == "LIMIT" && ParseInt64(words[n - 2]).Some? && ParseInt64(words[n - 1]).Some?
    then Some((ParseInt64(words[n - 2]).value, ParseInt64(words[n - 1]).value))
    else LimitOf(words, n - 1)
  }

  /** The options that the first n words spell. */
  function OptionsOf(words: seq<string>, n: nat): RangeOptions
    requires n <= |words|
  {
    RangeOptions(if Has(words, n, "BYSCORE") then ScoreMode else if Has(words, n, "BYLEX") then LexMode else RankMode,
                 Has(words, n, "REV"), Has(words, n, "WITHSCORES"), LimitOf(words, n))
  }

  /** The first n words are accepted so far, and the next one starts an option. */
  predicate RangePrefixOk(words: seq<string>, n: nat) {
    && n <= |words| && (n >= 1 ==> Upper(words[n - 1]) != "LIMIT") && (n >= 2 ==> Upper(words[n - 2]) != "LIMIT")
    && (forall i :: 0 <= i < n ==> RangeWordOk(words, i))
    && (forall i, j :: 0 <= i < j < n ==> !RangeClash(words[i], words[j]))
    && (LimitOf(words, n).Some? <==> Has(words, n, "LIMIT"))
  }

  lemma HasAfterRange(words: seq<string>, n: nat)
    requires n < |words|
    ensures Has(words, n + 1, "BYSCORE") <==> Has(words, n, "BYSCORE") || Upper(words[n]) == "BYSCORE"
    ensures Has(words, n + 1, "BYLEX") <==> Has(words, n, "BYLEX") || Upper(words[n]) == "BYLEX"
    ensures Has(words, n + 1, "REV") <==> Has(words, n, "REV") || Upper(words[n]) == "REV"
    ensures Has(words, n + 1, "WITHSCORES") <==> Has(words, n, "WITHSCORES") || Upper(words[n]) == "WITHSCORES"
    ensures Has(words, n + 1, "LIMIT") <==> Has(words, n, "LIMIT") || Upper(words[n]) == "LIMIT"
  {
    hide Upper, Has;
    HasNext(words, n, "BYSCORE");
    HasNext(words, n, "BYLEX");
    HasNext(words, n, "REV");
    HasNext(words, n, "WITHSCORES");
    HasNext(words, n, "LIMIT");
  }

  /** An option of one word goes on. */
  lemma RangePrefixNext(words: seq<string>, n: nat)
    requires RangePrefixOk(words, n) && n < |words| && Upper(words[n]) in {"BYSCORE", "BYLEX", "REV", "WITHSCORES"}
    requires forall i :: 0 <= i < n ==> !RangeClash(words[i], words[n])
    ensures RangePrefixOk(words, n + 1)
    ensures var o, option := OptionsOf(words, n), Upper(words[n]);
            OptionsOf(words, n + 1) ==
              if option == "BYSCORE" then o.(mode := ScoreMode)
              else if option == "BYLEX" then o.(mode := if Has(words, n, "BYSCORE") then ScoreMode else LexMode)
              else if option == "REV" then o.(rev := true)
              else o.(withScores := true)
  {
    hide Upper, Has, RangeClash, ParseInt64;
    HasAfterRange(words, n);
  }

  lemma NumberIsNoOption(word: string)
    requires ParseInt64(word).Some?
    ensures Upper(word) !in {"BYSCORE", "BYLEX", "REV", "WITHSCORES", "LIMIT"}
  {
    hide Upper;
    NumbersAreNoOptions(word);
  }

  /** LIMIT goes on with its two numbers. */
  lemma RangePrefixLimit(words: seq<string>, n: nat)
    requires RangePrefixOk(words, n) && n + 2 < |words| && Upper(words[n]) == "LIMIT"
    requires ParseInt64(words[n + 1]).Some? && ParseInt64(words[n + 2]).Some?
    requires forall i :: 0 <= i < n ==> !RangeClash(words[i], words[n])
    ensures RangePrefixOk(words, n + 3)
    ensures OptionsOf(words, n + 3) ==
            OptionsOf(words, n).(limit := Some((ParseInt64(words[n + 1]).value, ParseInt64(words[n + 2]).value)))
  {
    hide Upper, Has, ParseInt64;
    HasAfterRange(words, n);
    HasAfterRange(words, n + 1);
    HasAfterRange(words, n + 2);
    NumberIsNoOption(words[n + 1]);
    NumberIsNoOption(words[n + 2]);
  }

  lemma ClashedIsRefused(words: seq<string>, i: nat, n: nat)
    requires RangePrefixOk(words, n) && i < n < |words| && RangeClash(words[i], words[n])
    ensures RangeOptionsFrom(words[n..], OptionsOf(words, n)).None? && !RangeWordsOk(words)
  {
    hide Upper, ParseInt64, LimitOf;
    var rest := words[n..];
    assert rest[0] == words[n];
    assert Has(words, n, Upper(words[i]));
  }

  /** The option words are taken exactly if they are in order, and mean what they spell. */
  lemma {:induction false} RangeReadsOptions(words: seq<string>, n: nat)
    requires RangePrefixOk(words, n)
    ensures var r := RangeOptionsFrom(words[n..], OptionsOf(words, n));
            && (r.Some? <==> RangeWordsOk(words))
            && (r.Some? ==> r.value == OptionsOf(words, |words|))
    decreases |words| - n
  {
    hide Upper, ParseInt64, LimitOf;
    if n < |words| {
      var rest, option := words[n..], Upper(words[n]);
      assert rest[0] == words[n] && rest[1..] == words[n + 1..];
      if i :| 0 <= i < n && RangeClash(words[i], words[n]) {
        ClashedIsRefused(words, i, n);
      } else if option in {"BYSCORE", "BYLEX", "REV", "WITHSCORES"} {
        HasAfterRange(words, n);
        RangePrefixNext(words, n);
        RangeReadsOptions(words, n + 1);
      } else if option == "LIMIT" && n + 2 < |words| {
        assert rest[1] == words[n + 1] && rest[2] == words[n + 2] && rest[3..] == words[n + 3..];
        if ParseInt64(words[n + 1]).Some? && ParseInt64(words[n + 2]).Some? {
          RangePrefixLimit(words, n);
          RangeReadsOptions(words, n + 3);
        } else {
          assert !RangeWordOk(words, n + 1) || !RangeWordOk(words, n + 2);
        }
      } else {
        assert !RangeWordOk(words, n);
      }
    }
  }

  lemma NoRangeOptions(words: seq<string>)
    ensures RangePrefixOk(words, 0) && OptionsOf(words, 0) == NO_RANGE_OPTIONS && words[0..] == words
  {
  }

  /** ZRANGE takes its option words in any order, each at most once, and one mode only. */
  lemma RangeReadsWords(words: seq<string>)
    ensures RangeOptionsFrom(words, NO_RANGE_OPTIONS) ==
            if RangeWordsOk(words) then Some(OptionsOf(words, |words|)) else None
  {
    hide Upper, RangeOptionsFrom, RangeWordsOk, RangePrefixOk, OptionsOf;
    NoRangeOptions(words);
    RangeReadsOptions(words, 0);
  }
}
