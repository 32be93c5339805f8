/**
 * What patterns match, piece by piece (src/common/glob_match.cpp): each kind of piece in front of any other pattern.
 */
module GlobLaws {
  import opened Glob

  predicate MatchesAll(pattern: string, value: string) {
    Matches(Tokens(pattern, 0), value)
  }

  // ---- a pattern means the same wherever it stands

  /** From index k on, x reads y to its end. */
  ghost predicate EndsWith(x: string, y: string, k: nat) {
    |x| == k + |y| && forall i :: 0 <= i < |y| ==> x[k + i] == y[i]
  }

  lemma AtomShifts(x: string, y: string, k: nat, index: nat, first: nat, allowClosing: bool)
    requires EndsWith(x, y, k)
    ensures var atom, moved := ParseClassAtom(y, index, first, allowClosing),
                               ParseClassAtom(x, k + index, k + first, allowClosing);
            moved == if atom.NoAtom? then NoAtom else atom.(next := k + atom.next)
  {
    if index < |y| {
      assert x[k + index] == y[index];
      if index + 1 < |y| {
        assert x[k + (index + 1)] == y[index + 1];
      }
    }
  }

  function Moved(body: ClassBody, shift: nat): ClassBody {
    match body
    case Open => Open
    case Closed(ranges, end) => Closed(ranges, end + shift)
  }

  lemma PrependMoves(r: Range, body: ClassBody, shift: nat)
    ensures Moved(Prepend(r, body), shift) == Prepend(r, Moved(body, shift))
  {
  }

  lemma ClassEndsShifted(x: string, y: string, k: nat, index: nat, first: nat)
    requires EndsWith(x, y, k) && (index >= |y| || (y[index] == ']' && index != first))
    ensures ClassFrom(x, k + index, k + first) == Moved(ClassFrom(y, index, first), k)
  {
    assert index < |y| ==> x[k + index] == y[index];
  }

  lemma RoundShifts(x: string, y: string, k: nat, index: nat, first: nat)
    requires EndsWith(x, y, k) && index < |y| && (y[index] == ']' ==> index == first)
    ensures x[k + index] == ']' ==> index == first
    ensures var atom, moved := ParseClassAtom(y, index, first, false),
                               ParseClassAtom(x, k + index, k + first, false);
            atom.Atom? && moved == atom.(next := k + atom.next) && (atom.next < |y| ==> x[moved.next] == y[atom.next])
  {
    hide ParseClassAtom;
    assert x[k + index] == y[index];
    AtomShifts(x, y, k, index, first, false);
  }

  lemma SingleRoundShifts(x: string, y: string, k: nat, index: nat, first: nat)
    requires EndsWith(x, y, k) && index < |y| && (y[index] == ']' ==> index == first)
    requires var atom := ParseClassAtom(y, index, first, false);
             (atom.escaped || atom.next + 1 >= |y| || y[atom.next] != '-')
             && ClassFrom(x, k + atom.next, k + first) == Moved(ClassFrom(y, atom.next, first), k)
    ensures ClassFrom(x, k + index, k + first) == Moved(ClassFrom(y, index, first), k)
  {
    hide ClassFrom, ParseClassAtom, Prepend, Moved;
    RoundShifts(x, y, k, index, first);
    ClassRound(x, k + index, k + first);
    ClassRound(y, index, first);
    var atom := ParseClassAtom(y, index, first, false);
    PrependMoves((atom.c, atom.c), ClassFrom(y, atom.next, first), k);
  }

  lemma EndMoves(ranges: seq<Range>, end: nat, shift: nat)
    ensures Moved(Closed(ranges, end), shift) == Closed(ranges, end + shift)
  {
  }

  lemma SpanShifts(x: string, y: string, k: nat, atom: Atom, first: nat)
    requires EndsWith(x, y, k) && atom.Atom? && atom.next + 1 < |y|
    ensures var last, moved := ParseClassAtom(y, atom.next + 1, first, true),
                               ParseClassAtom(x, k + atom.next + 1, k + first, true);
            last.Atom? && moved == last.(next := k + last.next)
  {
    hide ParseClassAtom;
    AtomShifts(x, y, k, atom.next + 1, first, true);
  }

  lemma SpanRoundShifts(x: string, y: string, k: nat, index: nat, first: nat)
    requires EndsWith(x, y, k) && index < |y| && (y[index] == ']' ==> index == first)
    requires var atom := ParseClassAtom(y, index, first, false);
             !atom.escaped && atom.next + 1 < |y| && y[atom.next] == '-'
             && var last := ParseClassAtom(y, atom.next + 1, first, true);
                (last.escaped || last.c != ']' ==>
                   ClassFrom(x, k + last.next, k + first) == Moved(ClassFrom(y, last.next, first), k))
    ensures ClassFrom(x, k + index, k + first) == Moved(ClassFrom(y, index, first), k)
  {
    hide ClassFrom, ParseClassAtom, Prepend, OrderedRange, Moved;
    RoundShifts(x, y, k, index, first);
    var atom := ParseClassAtom(y, index, first, false);
    SpanShifts(x, y, k, atom, first);
    ClassRound(x, k + index, k + first);
    ClassRound(y, index, first);
    var last := ParseClassAtom(y, atom.next + 1, first, true);
    var rest := if !last.escaped && last.c == ']' then Closed([], last.next) else ClassFrom(y, last.next, first);
    PrependMoves(OrderedRange(atom.c, last.c), rest, k);
    EndMoves([], last.next, k);
  }

  lemma {:induction false} ClassShifts(x: string, y: string, k: nat, index: nat, first: nat)
    requires EndsWith(x, y, k)
    ensures ClassFrom(x, k + index, k + first) == Moved(ClassFrom(y, index, first), k)
    decreases |y| - index
  {
    hide ClassFrom, ParseClassAtom, Prepend, OrderedRange, Moved;
    if index >= |y| || (y[index] == ']' && index != first) {
      ClassEndsShifted(x, y, k, index, first);
    } else {
      var atom := ParseClassAtom(y, index, first, false);
      if !atom.escaped && atom.next + 1 < |y| && y[atom.next] == '-' {
        var last := ParseClassAtom(y, atom.next + 1, first, true);
        if last.escaped || last.c != ']' {
          ClassShifts(x, y, k, last.next, first);
        }
        SpanRoundShifts(x, y, k, index, first);
      } else {
        ClassShifts(x, y, k, atom.next, first);
        SingleRoundShifts(x, y, k, index, first);
      }
    }
  }

  lemma TokenShifts(x: string, y: string, k: nat, i: nat)
    requires EndsWith(x, y, k) && i < |y|
    ensures TokenAt(x, k + i) == (TokenAt(y, i).0, k + TokenAt(y, i).1)
  {
    hide ClassFrom;
    assert x[k + i] == y[i];
    if i + 1 < |y| {
      assert x[k + (i + 1)] == y[i + 1];
    }
    var first := if i + 1 < |y| && y[i + 1] == '^' then i + 2 else i + 1;
    ClassShifts(x, y, k, first, first);
  }

  lemma {:induction false} TokensShift(x: string, y: string, k: nat, i: nat)
    requires EndsWith(x, y, k)
    ensures Tokens(x, k + i) == Tokens(y, i)
    decreases |y| - i
  {
    hide TokenAt;
    if i < |y| {
      TokenShifts(x, y, k, i);
      TokensShift(x, y, k, TokenAt(y, i).1);
    }
  }

  /** A piece that is one token in front of a pattern. */
  lemma PieceInFront(piece: string, p: string, t: Token)
    requires piece != "" && TokenAt(piece + p, 0) == (t, |piece|)
    ensures Tokens(piece + p, 0) == [t] + Tokens(p, 0)
  {
    TokensShift(piece + p, p, |piece|, 0);
  }

  /** A piece that takes one character in front of a pattern. */
  lemma PieceTakesOne(piece: string, p: string, t: Token, value: string)
    requires piece != "" && TokenAt(piece + p, 0) == (t, |piece|) && !t.Star?
    ensures MatchesAll(piece + p, value) <==> value != "" && Accepts(t, value[0]) && MatchesAll(p, value[1..])
  {
    hide TokenAt;
    PieceInFront(piece, p, t);
    assert Tokens(piece + p, 0)[1..] == Tokens(p, 0);
  }

  // ---- the pieces

  /** The empty pattern matches the empty string only. */
  lemma NothingMatchesNothing(value: string)
    ensures MatchesAll("", value) <==> value == ""
  {
  }

  /** A question mark takes every character. */
  lemma QuestionMarkTakesAny(p: string, value: string)
    ensures MatchesAll("?" + p, value) <==> value != "" && MatchesAll(p, value[1..])
  {
    hide Tokens, Matches;
    assert ("?" + p)[0] == '?';
    PieceTakesOne("?", p, AnyOne, value);
  }

  /** A star takes any number of characters. */
  lemma StarTakesAnyNumber(p: string, value: string)
    ensures MatchesAll("*" + p, value) <==> exists k :: 0 <= k <= |value| && MatchesAll(p, value[k..])
  {
    hide Tokens, Matches;
    var pattern := "*" + p;
    assert pattern[0] == '*' && value[0..] == value;
    StarStep(pattern, 0, value, 0);
    TokensShift(pattern, p, 1, 0);
    if MatchesAll(pattern, value) {
      assert MatchesSomewhere(pattern, 1, value, 0);
      var k :| 0 <= k <= |value| && MatchesFrom(pattern, 1, value, k);
      assert MatchesAll(p, value[k..]);
    }
    if k :| 0 <= k <= |value| && MatchesAll(p, value[k..]) {
      assert MatchesFrom(pattern, 1, value, k);
      assert MatchesSomewhere(pattern, 1, value, 0);
    }
  }

  /** An ordinary character takes itself, whatever its case. */
  lemma CharacterTakesItself(c: char, p: string, value: string)
    requires c !in "*?[\\"
    ensures MatchesAll([c] + p, value) <==> value != "" && value[0] == c && MatchesAll(p, value[1..])
  {
    hide Tokens, Matches;
    assert ([c] + p)[0] == c && c != '*' && c != '?' && c != '[' && c != '\\' by {
      assert "*?[\\"[0] == '*' && "*?[\\"[1] == '?' && "*?[\\"[2] == '[' && "*?[\\"[3] == '\\';
    }
    PieceTakesOne([c], p, Literal(c), value);
  }

  /** Behind a backslash every character takes itself; a backslash at the end takes a backslash. */
  lemma BackslashTakesNext(c: char, p: string, value: string)
    ensures MatchesAll(['\\', c] + p, value) <==> value != "" && value[0] == c && MatchesAll(p, value[1..])
    ensures MatchesAll("\\", value) <==> value == "\\"
  {
    hide Tokens, Matches;
    assert (['\\', c] + p)[0] == '\\' && (['\\', c] + p)[1] == c;
    PieceTakesOne(['\\', c], p, Literal(c), value);
    assert "\\" + "" == "\\";
    PieceTakesOne("\\", "", Literal('\\'), value);
    if value != "" {
      NothingMatchesNothing(value[1..]);
      assert value == [value[0]] + value[1..];
    }
    assert "\\" == ['\\'];
  }

  // ---- classes

  /** A member of a class as it is written: a character, one behind a backslash, or a range. */
  datatype Item = One(c: char) | Escaped(c: char) | Span(a: char, b: char)

  /** A character that may stand for itself in a class. */
  predicate Plain(c: char) {
    c != '\\' && c != ']' && c != '-'
  }

  predicate Written(item: Item) {
    match item
    case One(c) => Plain(c)
    case Escaped(_) => true
    case Span(a, b) => Plain(a) && b != '\\' && b != ']'
  }

  function ItemText(item: Item): string {
    match item
    case One(c) => [c]
    case Escaped(c) => ['\\', c]
    case Span(a, b) => [a, '-', b]
  }

  function ItemsText(items: seq<Item>): string {
    if items == [] then "" else ItemText(items[0]) + ItemsText(items[1..])
  }

  /** A range holds what lies between its ends, in whichever order they are written. */
  predicate Holds(item: Item, c: char) {
    match item
    case One(d) => c == d
    case Escaped(d) => c == d
    case Span(a, b) => a <= c <= b || b <= c <= a
  }

  function RangeOf(item: Item): Range {
    match item
    case One(c) => (c, c)
    case Escaped(c) => (c, c)
    case Span(a, b) => OrderedRange(a, b)
  }

  function RangesOf(items: seq<Item>): seq<Range> {
    if items == [] then [] else [RangeOf(items[0])] + RangesOf(items[1..])
  }

  lemma InRangesCons(r: Range, rest: seq<Range>, c: char)
    ensures InRanges([r] + rest, c) <==> r.0 <= c <= r.1 || InRanges(rest, c)
  {
    var all := [r] + rest;
    assert all[0] == r && forall k :: 0 < k < |all| ==> all[k] == rest[k - 1];
    if k :| 0 <= k < |rest| && rest[k].0 <= c <= rest[k].1 {
      assert all[k + 1] == rest[k];
    }
  }

  lemma HeldByFirstOrRest(items: seq<Item>, c: char)
    requires items != []
    ensures (exists item :: item in items && Holds(item, c)) <==>
              Holds(items[0], c) || exists item :: item in items[1..] && Holds(item, c)
  {
    hide Holds;
    assert items[0] in items;
    assert forall item :: item in items <==> item == items[0] || item in items[1..];
  }

  lemma {:induction false} RangesHold(items: seq<Item>, c: char)
    ensures InRanges(RangesOf(items), c) <==> exists item :: item in items && Holds(item, c)
  {
    if items == [] {
      NoRanges(c);
    } else {
      hide InRanges;
      RangesHold(items[1..], c);
      InRangesCons(RangeOf(items[0]), RangesOf(items[1..]), c);
      HeldByFirstOrRest(items, c);
    }
  }

  /** The pattern reads this text at the index. */
  ghost predicate TextAt(pattern: string, index: nat, text: string) {
    index + |text| <= |pattern| && forall i :: 0 <= i < |text| ==> pattern[index + i] == text[i]
  }

  lemma TextAtSplits(pattern: string, index: nat, a: string, b: string)
    requires TextAt(pattern, index, a + b)
    ensures TextAt(pattern, index, a) && TextAt(pattern, index + |a|, b)
  {
    assert forall i :: 0 <= i < |a| ==> a[i] == (a + b)[i];
    assert forall i :: 0 <= i < |b| ==> b[i] == (a + b)[|a| + i];
  }

  /** The class parser takes one member as it is written, if no dash follows. */
  lemma ItemReads(pattern: string, index: nat, item: Item, first: nat)
    requires Written(item) && TextAt(pattern, index, ItemText(item)) && first <= index
    requires var end := index + |ItemText(item)|; end < |pattern| && pattern[end] != '-'
    ensures ClassFrom(pattern, index, first) ==
            Prepend(RangeOf(item), ClassFrom(pattern, index + |ItemText(item)|, first))
  {
    hide ClassFrom;
    ClassRound(pattern, index, first);
    var text := ItemText(item);
    assert pattern[index + 0] == text[0];
    if |text| > 1 {
      assert pattern[index + 1] == text[1];
    }
    if |text| > 2 {
      assert pattern[index + 2] == text[2];
    }
  }

  lemma BracketReads(pattern: string, index: nat, first: nat)
    requires first < index && TextAt(pattern, index, ItemsText([]) + "]")
    ensures ClassFrom(pattern, index, first) == Closed(RangesOf([]), index + |ItemsText([])| + 1)
  {
    assert (ItemsText([]) + "]")[0] == ']' == pattern[index + 0];
  }

  lemma ItemIsText(item: Item)
    ensures ItemText(item) != ""
  {
  }

  lemma JoinsInAnyOrder(a: string, b: string, c: string)
    ensures (a + b) + c == a + (b + c)
  {
  }

  lemma ItemsReadOn(items: seq<Item>, index: nat)
    requires items != []
    ensures var item, rest := items[0], items[1..];
            ItemText(item) != "" && ItemsText(items) + "]" == ItemText(item) + (ItemsText(rest) + "]")
            && Prepend(RangeOf(item), Closed(RangesOf(rest), index + |ItemText(item)| + |ItemsText(rest)| + 1))
               == Closed(RangesOf(items), index + |ItemsText(items)| + 1)
  {
    hide RangeOf, ItemText;
    ItemIsText(items[0]);
    JoinsInAnyOrder(ItemText(items[0]), ItemsText(items[1..]), "]");
  }

  lemma NextIsNoDash(pattern: string, index: nat, items: seq<Item>)
    requires TextAt(pattern, index, ItemsText(items) + "]") && forall item :: item in items ==> Written(item)
    ensures index < |pattern| && pattern[index] != '-'
  {
    var text := ItemsText(items) + "]";
    if items != [] {
      assert items[0] in items;
    }
    assert text != "" && text[0] != '-' && pattern[index + 0] == text[0];
  }

  lemma {:induction false} ClassReads(pattern: string, index: nat, items: seq<Item>, first: nat)
    requires first <= index && (items == [] ==> first < index) && forall item :: item in items ==> Written(item)
    requires TextAt(pattern, index, ItemsText(items) + "]")
    ensures ClassFrom(pattern, index, first) == Closed(RangesOf(items), index + |ItemsText(items)| + 1)
    decreases items
  {
    hide ClassFrom, Written, ItemText, ItemsText, RangesOf, RangeOf, TextAt, Prepend;
    if items == [] {
      BracketReads(pattern, index, first);
    } else {
      var item, rest := items[0], items[1..];
      assert item in items && forall i :: i in rest ==> i in items;
      ItemsReadOn(items, index);
      TextAtSplits(pattern, index, ItemText(item), ItemsText(rest) + "]");
      NextIsNoDash(pattern, index + |ItemText(item)|, rest);
      ItemReads(pattern, index, item, first);
      ClassReads(pattern, index + |ItemText(item)|, rest, first);
    }
  }

  function ClassText(negate: bool, items: seq<Item>): string {
    "[" + (if negate then "^" else "") + ItemsText(items) + "]"
  }

  lemma ClassStarts(negate: bool, items: seq<Item>, p: string)
    requires items != [] && (!negate ==> ItemText(items[0])[0] != '^')
    ensures var pre, pattern := if negate then "[^" else "[", ClassText(negate, items) + p;
            pattern == pre + (ItemsText(items) + "]") + p && pattern[0] == '['
            && pattern[1] == if negate then '^' else ItemText(items[0])[0]
  {
    hide ItemText;
    var pre, pattern := if negate then "[^" else "[", ClassText(negate, items) + p;
    ItemIsText(items[0]);
    assert pattern == pre + (ItemsText(items) + "]") + p;
    assert ItemsText(items)[0] == ItemText(items[0])[0];
  }

  lemma ClassIsToken(negate: bool, items: seq<Item>, p: string)
    requires items != [] && (forall item :: item in items ==> Written(item))
    requires !negate ==> ItemText(items[0])[0] != '^'
    ensures TokenAt(ClassText(negate, items) + p, 0) == (Class(negate, RangesOf(items)), |ClassText(negate, items)|)
  {
    hide ClassFrom, Written, RangesOf, ItemsText, ItemText;
    var pre, pattern := if negate then "[^" else "[", ClassText(negate, items) + p;
    ClassStarts(negate, items, p);
    assert TextAt(pattern, |pre|, ItemsText(items) + "]");
    ClassReads(pattern, |pre|, items, |pre|);
  }

  /**
   * A class takes the characters that one of its members holds; with a caret in front, those that none holds.
   */
  lemma ClassTakesMembers(negate: bool, items: seq<Item>, p: string, value: string)
    requires items != [] && (forall item :: item in items ==> Written(item))
    requires !negate ==> ItemText(items[0])[0] != '^'
    ensures var piece := "[" + (if negate then "^" else "") + ItemsText(items) + "]";
            MatchesAll(piece + p, value) <==>
              value != "" && MatchesAll(p, value[1..])
              && (negate != exists item :: item in items && Holds(item, value[0]))
  {
    hide Tokens, Matches, InRanges, Holds, ItemsText, ItemText, TokenAt, RangesOf, Written, MatchesAll;
    ClassIsToken(negate, items, p);
    PieceTakesOne(ClassText(negate, items), p, Class(negate, RangesOf(items)), value);
    if value != "" {
      RangesHold(items, value[0]);
    }
  }

  lemma {:induction false} NeverCloses(pattern: string, index: nat, first: nat)
    requires forall i :: index <= i < |pattern| ==> pattern[i] != ']' && pattern[i] != '\\'
    ensures ClassFrom(pattern, index, first) == Open
    decreases |pattern| - index
  {
    if index < |pattern| {
      var atom := ParseClassAtom(pattern, index, first, false);
      if atom.next + 1 < |pattern| && pattern[atom.next] == '-' {
        NeverCloses(pattern, ParseClassAtom(pattern, atom.next + 1, first, true).next, first);
      } else {
        NeverCloses(pattern, atom.next, first);
      }
    }
  }

  /** A class that is not closed matches nothing. */
  lemma OpenClassMatchesNothing(s: string, value: string)
    requires forall i :: 0 <= i < |s| ==> s[i] != ']' && s[i] != '\\'
    ensures !MatchesAll("[" + s, value)
  {
    var pattern := "[" + s;
    var first := if s != "" && s[0] == '^' then 2 else 1;
    assert forall i :: 1 <= i < |pattern| ==> pattern[i] == s[i - 1];
    NeverCloses(pattern, first, first);
    assert Tokens(pattern, 0)[0] == Unclosed;
  }

  /** A bracket right behind the opening one is a member, and one behind a dash ends its range and the class. */
  lemma BracketsInClasses(a: char, p: string, value: string)
    requires Plain(a) && a != '^'
    ensures MatchesAll("[]]" + p, value) <==> value != "" && value[0] == ']' && MatchesAll(p, value[1..])
    ensures MatchesAll(['[', a, '-', ']'] + p, value) <==>
              value != "" && (a <= value[0] <= ']' || ']' <= value[0] <= a) && MatchesAll(p, value[1..])
  {
    hide Tokens, Matches;
    var x, y := "[]]" + p, ['[', a, '-', ']'] + p;
    assert x[0] == '[' && x[1] == ']' && x[2] == ']';
    assert ClassFrom(x, 2, 1) == Closed([], 3);
    assert ClassFrom(x, 1, 1) == Closed([(']', ']')], 3);
    PieceTakesOne("[]]", p, Class(false, [(']', ']')]), value);
    assert y[0] == '[' && y[1] == a && y[2] == '-' && y[3] == ']';
    assert ClassFrom(y, 1, 1) == Closed([OrderedRange(a, ']')], 4);
    PieceTakesOne(['[', a, '-', ']'], p, Class(false, [OrderedRange(a, ']')]), value);
    if value != "" {
      NoRanges(value[0]);
      InRangesCons((']', ']'), [], value[0]);
      InRangesCons(OrderedRange(a, ']'), [], value[0]);
      assert [(']', ']')] == [(']', ']')] + [] && [OrderedRange(a, ']')] == [OrderedRange(a, ']')] + [];
    }
  }
}
