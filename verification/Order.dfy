/** Binary string order (CompareBinaryLex in src/command/zset_cmd.cpp) and the ascending listing of a set. */
module Order {
  /** memcmp on the shared prefix, then the shorter string first. */
  predicate Less(a: string, b: string) {
    if a == [] then b != []
    else if b == [] then false
    else a[0] < b[0] || (a[0] == b[0] && Less(a[1..], b[1..]))
  }

  lemma {:induction false} LessIsTotal(a: string, b: string)
    ensures Less(a, b) || a == b || Less(b, a)
  {
    if a != [] && b != [] && a[0] == b[0] {
      LessIsTotal(a[1..], b[1..]);
      assert a[1..] == b[1..] ==> a == [a[0]] + a[1..] == [b[0]] + b[1..] == b;
    }
  }

  lemma {:induction false} LessIsStrict(a: string, b: string)
    requires Less(a, b)
    ensures !Less(b, a) && a != b
  {
    if a != [] && a[0] == b[0] {
      LessIsStrict(a[1..], b[1..]);
    }
  }

  lemma {:induction false} LessIsTransitive(a: string, b: string, c: string)
    requires Less(a, b) && Less(b, c)
    ensures Less(a, c)
  {
    if a != [] && a[0] == b[0] && b[0] == c[0] {
      LessIsTransitive(a[1..], b[1..], c[1..]);
    }
  }

  predicate Distinct<T(==)>(s: seq<T>) {
    forall i, j :: 0 <= i < j < |s| ==> s[i] != s[j]
  }

  /** s lists exactly the elements of the set, each once. */
  predicate Lists<T(==)>(s: seq<T>, elements: set<T>) {
    Distinct(s) && (forall x :: x in elements ==> x in s) && (forall x :: x in s ==> x in elements)
  }

  lemma {:induction false} ListLength<T>(s: seq<T>, elements: set<T>)
    requires Lists(s, elements)
    ensures |s| == |elements|
  {
    if s == [] {
      assert elements == {};
    } else {
      assert Lists(s[1..], elements - {s[0]});
      ListLength(s[1..], elements - {s[0]});
    }
  }

  /** The order in which a container visits its elements: some order, fixed by what it holds. */
  type VisitOrder = set<string> -> seq<string>

  ghost predicate IsVisitOrder(order: VisitOrder) {
    forall elements: set<string> {:trigger order(elements)} :: Lists(order(elements), elements)
  }

  ghost function Listing(elements: set<string>): (s: seq<string>)
    ensures Lists(s, elements) && |s| == |elements|
  {
    if elements == {} then []
    else
      var x :| x in elements;
      [x] + Listing(elements - {x})
  }

  lemma VisitOrderExists() returns (order: VisitOrder)
    ensures IsVisitOrder(order)
  {
    order := (elements: set<string>) => Listing(elements);
  }
}
