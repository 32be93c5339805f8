/** Glob patterns (src/common/glob_match.cpp): the matcher that backtracks to the last star only, and its meaning. */
module Glob {
  import opened Core

  type Range = (char, char)

  datatype Token =
    | Star
    | AnyOne
    | Class(negate: bool, ranges: seq<Range>)
    | Unclosed
    | Literal(c: char)

  // ---- tokens

  datatype Atom = NoAtom | Atom(c: char, escaped: bool, next: nat)

  /** One member of a class; a bracket closes the class unless it comes first or ends a range. */
  function ParseClassAtom(pattern: string, index: nat, first: nat, allowClosing: bool): (atom: Atom)
    ensures atom.Atom? ==> index < atom.next <= |pattern|
    ensures index < |pattern| && (pattern[index] != ']' || index == first || allowClosing) ==> atom.Atom?
  {
    if index >= |pattern| || (pattern[index] == ']' && index != first && !allowClosing) then NoAtom
    else if pattern[index] == '\\' && index + 1 < |pattern| then Atom(pattern[index + 1], true, index + 2)
    else Atom(pattern[index], false, index + 1)
  }

  datatype ClassBody = Open | Closed(ranges: seq<Range>, end: nat)

  function OrderedRange(a: char, b: char): Range {
    if a > b then (b, a) else (a, b)
  }

  function Prepend(r: Range, body: ClassBody): ClassBody {
    match body
    case Open => Open
    case Closed(ranges, end) => Closed([r] + ranges, end)
  }

  /** The members of a class from index on, up to its closing bracket. */
  function ClassFrom(pattern: string, index: nat, first: nat): (body: ClassBody)
    ensures body.Closed? ==> index < body.end <= |pattern|
    decreases |pattern| - index
  {
    if index >= |pattern| then Open
    else if pattern[index] == ']' && index != first then Closed([], index + 1)
    else
      var atom := ParseClassAtom(pattern, index, first, false);
      if !atom.escaped && atom.next + 1 < |pattern| && pattern[atom.next] == '-' then
        var last := ParseClassAtom(pattern, atom.next + 1, first, true);
        var range := OrderedRange(atom.c, last.c);
        if !last.escaped && last.c == ']' then Closed([range], last.next)
        else Prepend(range, ClassFrom(pattern, last.next, first))
      else Prepend((atom.c, atom.c), ClassFrom(pattern, atom.next, first))
  }

  /** The token at i, and where the next one starts; an unclosed class swallows the rest of the pattern. */
  function TokenAt(pattern: string, i: nat): (r: (Token, nat))
    requires i < |pattern|
    ensures i < r.1 <= |pattern|
  {
    if pattern[i] == '*' then (Star, i + 1)
    else if pattern[i] == '?' then (AnyOne, i + 1)
    else if pattern[i] == '[' then
      var negate := i + 1 < |pattern| && pattern[i + 1] == '^';
      var first := if negate then i + 2 else i + 1;
      match ClassFrom(pattern, first, first)
      case Open => (Unclosed, |pattern|)
      case Closed(ranges, end) => (Class(negate, ranges), end)
    else if pattern[i] == '\\' && i + 1 < |pattern| then (Literal(pattern[i + 1]), i + 2)
    else (Literal(pattern[i]), i + 1)
  }

  function Tokens(pattern: string, i: nat): seq<Token>
    decreases |pattern| - i
  {
    if i >= |pattern| then [] else [TokenAt(pattern, i).0] + Tokens(pattern, TokenAt(pattern, i).1)
  }

  // ---- meaning

  predicate InRanges(ranges: seq<Range>, c: char) {
    exists k :: 0 <= k < |ranges| && ranges[k].0 <= c <= ranges[k].1
  }

  /** Whether the token takes this character; an unclosed class takes none. */
  predicate Accepts(t: Token, c: char) {
    match t
    case Star => false
    case AnyOne => true
    case Class(negate, ranges) => negate != InRanges(ranges, c)
    case Unclosed => false
    case Literal(l) => l == c
  }

  /** A star stands for any string, every other token for one character. */
  predicate Matches(tokens: seq<Token>, value: string)
    decreases |tokens| + |value|
  {
    if tokens == [] then value == []
    else if tokens[0].Star? then Matches(tokens[1..], value) || (value != [] && Matches(tokens, value[1..]))
    else value != [] && Accepts(tokens[0], value[0]) && Matches(tokens[1..], value[1..])
  }

  /** The pattern from index p on matches the value from index v on. */
  predicate MatchesFrom(pattern: string, p: nat, value: string, v: nat)
    requires v <= |value|
  {
    Matches(Tokens(pattern, p), value[v..])
  }

  /** The pattern from p on matches some end of the value that starts at v or later. */
  ghost predicate MatchesSomewhere(pattern: string, p: nat, value: string, v: nat)
    requires v <= |value|
  {
    exists k :: v <= k <= |value| && MatchesFrom(pattern, p, value, k)
  }

  /** A star matches any string: the rest of the pattern may go on anywhere. */
  lemma {:induction false} StarStep(pattern: string, p: nat, value: string, v: nat)
    requires p < |pattern| && pattern[p] == '*' && v <= |value|
    ensures MatchesFrom(pattern, p, value, v) <==> MatchesSomewhere(pattern, p + 1, value, v)
    decreases |value| - v
  {
    assert Tokens(pattern, p) == [Star] + Tokens(pattern, p + 1);
    assert Tokens(pattern, p)[1..] == Tokens(pattern, p + 1);
    if v < |value| {
      assert value[v..][1..] == value[v + 1..];
      StarStep(pattern, p, value, v + 1);
    }
    if MatchesFrom(pattern, p + 1, value, v) {
    } else if MatchesSomewhere(pattern, p + 1, value, v) {
      var k :| v <= k <= |value| && MatchesFrom(pattern, p + 1, value, k);
      assert v + 1 <= k && MatchesSomewhere(pattern, p + 1, value, v + 1);
    }
  }

  lemma TokenStep(pattern: string, p: nat, value: string, v: nat)
    requires p < |pattern| && pattern[p] != '*' && v <= |value|
    ensures MatchesFrom(pattern, p, value, v) <==>
              v < |value| && Accepts(TokenAt(pattern, p).0, value[v])
                && MatchesFrom(pattern, TokenAt(pattern, p).1, value, v + 1)
  {
    var tokens := Tokens(pattern, p);
    assert tokens[1..] == Tokens(pattern, TokenAt(pattern, p).1);
    if v < |value| {
      assert value[v..][1..] == value[v + 1..];
    }
  }

  /** Where n tokens, none of them a star, lead from p. */
  function Walk(pattern: string, p: nat, n: nat): Option<nat>
    decreases n
  {
    if n == 0 then Some(p)
    else if p >= |pattern| || pattern[p] == '*' then None
    else Walk(pattern, TokenAt(pattern, p).1, n - 1)
  }

  lemma {:induction false} WalkOn(pattern: string, p: nat, n: nat)
    requires Walk(pattern, p, n).Some? && Walk(pattern, p, n).value < |pattern|
             && pattern[Walk(pattern, p, n).value] != '*'
    ensures Walk(pattern, p, n + 1) == Some(TokenAt(pattern, Walk(pattern, p, n).value).1)
    decreases n
  {
    if n == 0 {
    } else {
      WalkOn(pattern, TokenAt(pattern, p).1, n - 1);
    }
  }

  /** A stretch without stars takes one character per token, wherever it starts. */
  lemma {:induction false} WalkConsumes(pattern: string, p: nat, n: nat, value: string, v: nat)
    requires v <= |value| && Walk(pattern, p, n).Some? && MatchesFrom(pattern, p, value, v)
    ensures v + n <= |value| && MatchesFrom(pattern, Walk(pattern, p, n).value, value, v + n)
    decreases n
  {
    if n == 0 {
    } else {
      TokenStep(pattern, p, value, v);
      WalkConsumes(pattern, TokenAt(pattern, p).1, n - 1, value, v + 1);
    }
  }

  // ---- the matcher

  /** One round of the class parser. */
  lemma ClassRound(pattern: string, index: nat, first: nat)
    requires index < |pattern|
    ensures ClassFrom(pattern, index, first) ==
            if pattern[index] == ']' && index != first then Closed([], index + 1)
            else
              var atom := ParseClassAtom(pattern, index, first, false);
              if !atom.escaped && atom.next + 1 < |pattern| && pattern[atom.next] == '-' then
                var last := ParseClassAtom(pattern, atom.next + 1, first, true);
                Prepend(OrderedRange(atom.c, last.c),
                        if !last.escaped && last.c == ']' then Closed([], last.next)
                          else ClassFrom(pattern, last.next, first))
              else Prepend((atom.c, atom.c), ClassFrom(pattern, atom.next, first))
  {
  }

  function Appended(seen: seq<Range>, body: ClassBody): ClassBody {
    match body
    case Open => Open
    case Closed(ranges, end) => Closed(seen + ranges, end)
  }

  lemma ClassEnds(pattern: string, index: nat, first: nat, seen: seq<Range>)
    ensures index >= |pattern| ==> Appended(seen, ClassFrom(pattern, index, first)) == Open
  {
  }

  lemma AppendedNone(body: ClassBody)
    ensures Appended([], body) == body
  {
    if body.Closed? {
      assert [] + body.ranges == body.ranges;
    }
  }

  lemma AppendedClosed(seen: seq<Range>, end: nat)
    ensures Appended(seen, Closed([], end)) == Closed(seen, end)
  {
    assert seen + [] == seen;
  }

  lemma AppendedPrepend(seen: seq<Range>, r: Range, body: ClassBody)
    ensures Appended(seen, Prepend(r, body)) == Appended(seen + [r], body)
  {
    if body.Closed? {
      assert seen + ([r] + body.ranges) == (seen + [r]) + body.ranges;
    }
  }

  lemma NoRanges(c: char)
    ensures !InRanges([], c)
  {
  }

  lemma InRangesSnoc(seen: seq<Range>, r: Range, c: char)
    ensures InRanges(seen + [r], c) <==> InRanges(seen, c) || r.0 <= c <= r.1
  {
    var all := seen + [r];
    assert all[|seen|] == r && forall k :: 0 <= k < |seen| ==> all[k] == seen[k];
  }

  method MatchClass(pattern: string, start: nat, value: char) returns (matched: bool, next: nat)
    requires start <= |pattern|
    ensures start <= next <= |pattern|
    ensures var negate := start < |pattern| && pattern[start] == '^';
            var first := if negate then start + 1 else start;
            match ClassFrom(pattern, first, first)
            case Open => !matched && next == start
            case Closed(ranges, end) => matched == (negate != InRanges(ranges, value)) && next == end
  {
    hide InRanges, ClassFrom, Appended, Prepend, ParseClassAtom;
    NoRanges(value);
    var index := start;
    var negate := false;
    if index < |pattern| && pattern[index] == '^' {
      negate := true;
      index := index + 1;
    }
    var first := index;
    var found, closed := false, false;
    ghost var seen: seq<Range> := [];
    ghost var body := ClassFrom(pattern, first, first);
    AppendedNone(body);
    while index < |pattern| && !closed
      invariant first <= index <= |pattern| && found == InRanges(seen, value)
      invariant if closed then body == Closed(seen, index) else body == Appended(seen, ClassFrom(pattern, index, first))
      decreases |pattern| - index, !closed
    {
      ClassRound(pattern, index, first);
      if pattern[index] == ']' && index != first {
        closed := true;
        index := index + 1;
        AppendedClosed(seen, index);
        break;
      }
      var atom := ParseClassAtom(pattern, index, first, false);
      ghost var at := index;
      index := atom.next;
      if !atom.escaped && index + 1 < |pattern| && pattern[index] == '-' {
        // A range; its end may be the bracket that closes the class.
        var last := ParseClassAtom(pattern, index + 1, first, true);
        var range := OrderedRange(atom.c, last.c);
        InRangesSnoc(seen, range, value);
        AppendedPrepend(seen, range, if !last.escaped && last.c == ']' then Closed([], last.next)
          else ClassFrom(pattern, last.next, first));
        found := found || (range.0 <= value <= range.1);
        seen := seen + [range];
        index := last.next;
        if !last.escaped && last.c == ']' {
          closed := true;
          AppendedClosed(seen, index);
        }
      } else {
        InRangesSnoc(seen, (atom.c, atom.c), value);
        AppendedPrepend(seen, (atom.c, atom.c), ClassFrom(pattern, atom.next, first));
        found := found || atom.c == value;
        seen := seen + [(atom.c, atom.c)];
      }
    }
    ClassEnds(pattern, index, first, seen);
    if !closed {
      return false, start;
    }
    return negate != found, index;
  }

  /** Whether the token at p, which is no star, takes the character; if so, where the next token starts. */
  method MatchOne(pattern: string, p: nat, value: char) returns (matched: bool, next: nat)
    requires p < |pattern|
    ensures matched == Accepts(TokenAt(pattern, p).0, value) && next == (if matched then TokenAt(pattern, p).1 else p)
  {
    hide ClassFrom, InRanges;
    var token := pattern[p];
    if token == '*' {
      return false, p;
    }
    if token == '?' {
      return true, p + 1;
    }
    if token == '[' {
      var matched, end := MatchClass(pattern, p + 1, value);
      return matched, if matched then end else p;
    }
    next := p;
    var literal := token;
    if literal == '\\' && next + 1 < |pattern| {
      next := next + 1;
      literal := pattern[next];
    }
    if literal != value {
      return false, p;
    }
    return true, next + 1;
  }

  /** What the matcher knows: the answer, in terms of the last star if there is one. */
  ghost predicate Reduced(pattern: string, value: string, p: nat, v: nat, star: Option<nat>, starValue: nat)
    requires v <= |value|
  {
    var all := MatchesFrom(pattern, 0, value, 0);
    match star
    case None => starValue == 0 && (all <==> MatchesFrom(pattern, p, value, v))
    case Some(from) =>
      && starValue <= v && Walk(pattern, from, v - starValue) == Some(p)
      && (all <==> MatchesSomewhere(pattern, from, value, starValue))
      && (MatchesFrom(pattern, from, value, starValue) <==> MatchesFrom(pattern, p, value, v))
  }

  lemma ReducedAtStar(pattern: string, value: string, p: nat, v: nat, star: Option<nat>, starValue: nat)
    requires v <= |value| && Reduced(pattern, value, p, v, star, starValue) && p < |pattern| && pattern[p] == '*'
    ensures Reduced(pattern, value, p + 1, v, Some(p + 1), v)
  {
    hide Tokens, TokenAt, Matches, MatchesFrom, Accepts;
    StarStep(pattern, p, value, v);
    if star.Some? && MatchesSomewhere(pattern, star.value, value, starValue) {
      var k :| starValue <= k <= |value| && MatchesFrom(pattern, star.value, value, k);
      WalkConsumes(pattern, star.value, v - starValue, value, k);
      StarStep(pattern, p, value, k + (v - starValue));
      var j :| k + (v - starValue) <= j <= |value| && MatchesFrom(pattern, p + 1, value, j);
      assert MatchesSomewhere(pattern, p + 1, value, v);
    }
  }

  lemma ReducedAfterToken(pattern: string, value: string, p: nat, v: nat, star: Option<nat>, starValue: nat)
    requires v < |value| && Reduced(pattern, value, p, v, star, starValue) && p < |pattern| && pattern[p] != '*'
    requires Accepts(TokenAt(pattern, p).0, value[v])
    ensures Reduced(pattern, value, TokenAt(pattern, p).1, v + 1, star, starValue)
  {
    TokenStep(pattern, p, value, v);
    if star.Some? {
      WalkOn(pattern, star.value, v - starValue);
    }
  }

  /** Nothing matches here: the value goes on while the pattern ends, or its token refuses the character. */
  predicate Stuck(pattern: string, value: string, p: nat, v: nat) {
    v < |value| && (p >= |pattern| || (pattern[p] != '*' && !Accepts(TokenAt(pattern, p).0, value[v])))
  }

  lemma StuckFails(pattern: string, value: string, p: nat, v: nat)
    requires Stuck(pattern, value, p, v)
    ensures !MatchesFrom(pattern, p, value, v)
  {
    if p < |pattern| {
      TokenStep(pattern, p, value, v);
    }
  }

  lemma ReducedAfterBacktrack(pattern: string, value: string, p: nat, v: nat, star: nat, starValue: nat)
    requires Stuck(pattern, value, p, v) && Reduced(pattern, value, p, v, Some(star), starValue)
    ensures Reduced(pattern, value, star, starValue + 1, Some(star), starValue + 1)
  {
    StuckFails(pattern, value, p, v);
    if MatchesSomewhere(pattern, star, value, starValue) {
      var k :| starValue <= k <= |value| && MatchesFrom(pattern, star, value, k);
      assert k != starValue && MatchesSomewhere(pattern, star, value, starValue + 1);
    }
  }

  lemma ReducedAtEnd(pattern: string, value: string, p: nat, star: Option<nat>, starValue: nat)
    requires Reduced(pattern, value, p, |value|, star, starValue)
    ensures MatchesFrom(pattern, 0, value, 0) <==> MatchesFrom(pattern, p, value, |value|)
  {
    if star.Some? && MatchesSomewhere(pattern, star.value, value, starValue) {
      var k :| starValue <= k <= |value| && MatchesFrom(pattern, star.value, value, k);
      WalkConsumes(pattern, star.value, |value| - starValue, value, k);
    }
  }

  /** At the end of the value only stars may be left. */
  lemma EndOfValue(pattern: string, p: nat, value: string)
    ensures MatchesFrom(pattern, p, value, |value|) <==>
              p >= |pattern| || (pattern[p] == '*' && MatchesFrom(pattern, p + 1, value, |value|))
  {
    if p < |pattern| {
      if pattern[p] == '*' {
        StarStep(pattern, p, value, |value|);
      } else {
        TokenStep(pattern, p, value, |value|);
      }
    } else {
      assert value[|value|..] == [];
    }
  }

  lemma RowsOfSteps(rows: nat, width: nat, column: nat, steps: nat)
    requires steps <= rows * width + column && column < width
    ensures steps + 1 <= (rows + 1) * width
  {
  }

  lemma MoreRows(rows: nat, more: nat, width: nat)
    requires rows <= more
    ensures rows * width <= more * width
  {
  }

  lemma AllFromStart(pattern: string, value: string)
    ensures MatchesFrom(pattern, 0, value, 0) == Matches(Tokens(pattern, 0), value)
    ensures Reduced(pattern, value, 0, 0, None, 0)
  {
    assert value[0..] == value;
  }

  /**
   * The matcher answers whether the pattern matches under the recursive meaning, so backtracking to the last star
   * only loses no match; and its loop runs at most (|value| + 1) * (|pattern| + 1) times.
   */
  method MatchAt(pattern: string, value: string) returns (matched: bool, ghost steps: nat)
    ensures matched == Matches(Tokens(pattern, 0), value)
    ensures steps <= (|value| + 1) * (|pattern| + 1)
  {
    hide Tokens, TokenAt, Matches, MatchesFrom, MatchesSomewhere, Walk, Accepts;
    var p: nat, v: nat := 0, 0;
    var star: Option<nat>, starValue: nat := None, 0;
    steps := 0;
    ghost var width := |pattern| + 1;
    AllFromStart(pattern, value);
    while v < |value|
      invariant p <= |pattern| && starValue <= v <= |value|
      invariant star.Some? ==> star.value <= |pattern|
      invariant Reduced(pattern, value, p, v, star, starValue)
      invariant steps <= starValue * width + p
      decreases |value| - starValue, |pattern| - p, |value| - v
    {
      if p < |pattern| && pattern[p] == '*' {
        ReducedAtStar(pattern, value, p, v, star, starValue);
        MoreRows(starValue, v, width);
        steps := steps + 1;
        p := p + 1;
        while p < |pattern| && pattern[p] == '*'
          invariant p <= |pattern| && Reduced(pattern, value, p, v, Some(p), v) && steps <= v * width + p
        {
          ReducedAtStar(pattern, value, p, v, Some(p), v);
          p := p + 1;
        }
        star, starValue := Some(p), v;
        continue;
      }
      if p < |pattern| {
        var taken, next := MatchOne(pattern, p, value[v]);
        if taken {
          ReducedAfterToken(pattern, value, p, v, star, starValue);
          steps := steps + 1;
          p, v := next, v + 1;
          continue;
        }
      }
      if star.None? {
        StuckFails(pattern, value, p, v);
        RowsOfSteps(starValue, width, p, steps);
        MoreRows(starValue + 1, |value| + 1, width);
        return false, steps + 1;
      }
      ReducedAfterBacktrack(pattern, value, p, v, star.value, starValue);
      RowsOfSteps(starValue, width, p, steps);
      steps := steps + 1;
      starValue := starValue + 1;
      v := starValue;
      p := star.value;
    }
    ReducedAtEnd(pattern, value, p, star, starValue);
    RowsOfSteps(starValue, width, p, steps);
    MoreRows(starValue + 1, |value| + 1, width);
    EndOfValue(pattern, p, value);
    while p < |pattern| && pattern[p] == '*'
      invariant p <= |pattern| && (MatchesFrom(pattern, 0, value, 0) <==> MatchesFrom(pattern, p, value, |value|))
    {
      EndOfValue(pattern, p, value);
      p := p + 1;
    }
    EndOfValue(pattern, p, value);
    return p == |pattern|, steps;
  }

  // ---- patterns without wildcards

  /** A pattern that spells a string out, every character behind a backslash. */
  function Escape(text: string): string {
    if text == [] then [] else ['\\', text[0]] + Escape(text[1..])
  }

  function Literals(text: string): seq<Token> {
    if text == [] then [] else [Literal(text[0])] + Literals(text[1..])
  }

  lemma {:induction false} EscapedLength(text: string)
    ensures |Escape(text)| == 2 * |text|
  {
    if text == [] {
    } else {
      EscapedLength(text[1..]);
    }
  }

  lemma {:induction false} EscapedAt(text: string, i: nat)
    requires i < |text|
    ensures |Escape(text)| == 2 * |text| && Escape(text)[2 * i] == '\\' && Escape(text)[2 * i + 1] == text[i]
  {
    EscapedLength(text);
    if i == 0 {
    } else {
      EscapedAt(text[1..], i - 1);
      assert Escape(text)[2 * i] == Escape(text[1..])[2 * (i - 1)];
    }
  }

  lemma {:induction false} EscapedTokens(text: string, i: nat)
    requires i <= |text|
    ensures Tokens(Escape(text), 2 * i) == Literals(text[i..])
    decreases |text| - i
  {
    EscapedLength(text);
    if i < |text| {
      EscapedAt(text, i);
      EscapedTokens(text, i + 1);
      assert text[i..][0] == text[i] && text[i..][1..] == text[i + 1..];
    }
  }

  lemma {:induction false} LiteralsMatch(text: string, value: string)
    ensures Matches(Literals(text), value) <==> value == text
  {
    if text == [] {
    } else {
      assert Literals(text)[1..] == Literals(text[1..]);
      if value != [] {
        LiteralsMatch(text[1..], value[1..]);
        assert value == [value[0]] + value[1..] && text == [text[0]] + text[1..];
      }
    }
  }

  /** An escaped string matches itself and nothing else, whatever wildcards it holds. */
  lemma EscapedMatchesItself(text: string, value: string)
    ensures Matches(Tokens(Escape(text), 0), value) <==> value == text
  {
    hide Tokens, Matches, Literals, Escape;
    EscapedTokens(text, 0);
    LiteralsMatch(text, value);
    assert text[0..] == text;
  }
}
