/**
 Byte-wise string order and what it means to sort.

 Go compares strings byte by byte. For valid UTF-8 that agrees with comparing code points,
 so the order is defined once on integer sequences and reused for strings and byte strings.
 */
module Sorting {

  // ----- Lexicographic order -----

  predicate Less(a: seq<int>, b: seq<int>) {
    && |b| > 0
    && (|a| == 0 || a[0] < b[0] || (a[0] == b[0] && Less(a[1..], b[1..])))
  }

  predicate LexLeq(a: seq<int>, b: seq<int>) {
    a == b || Less(a, b)
  }

  /** a comes before b: it is a proper prefix, or smaller at the first position where they differ. */
  ghost predicate ComesBefore(a: seq<int>, b: seq<int>) {
    exists k :: 0 <= k <= |a| && k < |b| && a[..k] == b[..k] && (k == |a| || a[k] < b[k])
  }

  lemma {:induction false} LessMeaning(a: seq<int>, b: seq<int>)
    ensures Less(a, b) <==> ComesBefore(a, b)
  {
    if a == [] || b == [] {
      if b != [] {
        assert a[..0] == b[..0];
      }
    } else {
      LessMeaning(a[1..], b[1..]);
      if a[0] < b[0] {
        assert a[..0] == b[..0];
      }
      if a[0] == b[0] && ComesBefore(a[1..], b[1..]) {
        var k :| 0 <= k <= |a[1..]| && k < |b[1..]| && a[1..][..k] == b[1..][..k] && (k == |a[1..]| || a[1..][k] < b[1..][k]);
        assert a[..k + 1] == [a[0]] + a[1..][..k] && b[..k + 1] == [b[0]] + b[1..][..k];
      }
      if k :| 0 <= k <= |a| && k < |b| && a[..k] == b[..k] && (k == |a| || a[k] < b[k]) {
        if k > 0 {
          assert a[0] == a[..k][0] && b[0] == b[..k][0];
          assert a[1..][..k - 1] == a[..k][1..] && b[1..][..k - 1] == b[..k][1..];
        }
      }
    }
  }

  lemma {:induction false} LessIsIrreflexive(a: seq<int>)
    ensures !Less(a, a)
  {
    if a == [] {
    } else {
      LessIsIrreflexive(a[1..]);
    }
  }

  lemma {:induction false} LessIsTransitive(a: seq<int>, b: seq<int>, c: seq<int>)
    requires Less(a, b) && Less(b, c)
    ensures Less(a, c)
    decreases |a|
  {
    if a == [] || a[0] != b[0] || b[0] != c[0] {
    } else {
      LessIsTransitive(a[1..], b[1..], c[1..]);
    }
  }

  lemma {:induction false} LessIsTotal(a: seq<int>, b: seq<int>)
    ensures Less(a, b) || a == b || Less(b, a)
  {
    if a == [] || b == [] || a[0] != b[0] {
    } else {
      LessIsTotal(a[1..], b[1..]);
      assert a == [a[0]] + a[1..] && b == [b[0]] + b[1..];
    }
  }

  lemma LessIsAsymmetric(a: seq<int>, b: seq<int>)
    requires Less(a, b)
    ensures !Less(b, a) && a != b
  {
    LessIsIrreflexive(a);
    if Less(b, a) {
      LessIsTransitive(a, b, a);
    }
  }

  // ----- Strings -----

  function Codes(s: string): (r: seq<int>)
    ensures |r| == |s|
    ensures forall i :: 0 <= i < |s| ==> r[i] == s[i] as int
  {
    seq(|s|, i requires 0 <= i < |s| => s[i] as int)
  }

  lemma CodesInjective(a: string, b: string)
    requires Codes(a) == Codes(b)
    ensures a == b
  {
    forall i | 0 <= i < |a|
      ensures a[i] == b[i]
    {
      assert Codes(a)[i] == Codes(b)[i];
    }
  }

  predicate StringLess(a: string, b: string) {
    Less(Codes(a), Codes(b))
  }

  lemma StringLessTotal(a: string, b: string)
    ensures StringLess(a, b) || a == b || StringLess(b, a)
  {
    LessIsTotal(Codes(a), Codes(b));
    if Codes(a) == Codes(b) {
      CodesInjective(a, b);
    }
  }

  lemma StringLessTransitive(a: string, b: string, c: string)
    requires StringLess(a, b) && StringLess(b, c)
    ensures StringLess(a, c)
  {
    LessIsTransitive(Codes(a), Codes(b), Codes(c));
  }

  lemma StringLessAsymmetric(a: string, b: string)
    requires StringLess(a, b)
    ensures !StringLess(b, a) && a != b
  {
    LessIsAsymmetric(Codes(a), Codes(b));
  }

  // ----- Sets of strings in sorted order -----

  predicate StrictlySorted(s: seq<string>) {
    forall i, j :: 0 <= i < j < |s| ==> StringLess(s[i], s[j])
  }

  lemma {:induction false} StrictlySortedIsUnique(a: seq<string>, b: seq<string>)
    requires StrictlySorted(a) && StrictlySorted(b)
    requires forall x :: x in a <==> x in b
    ensures a == b
  {
    assert b != [] ==> b[0] in b;
    if a == [] {
    } else {
      assert a[0] in b;
      assert b[0] in a;
      var i :| 0 <= i < |b| && b[i] == a[0];
      var j :| 0 <= j < |a| && a[j] == b[0];
      if i > 0 && j > 0 {
        StringLessAsymmetric(b[0], b[i]);
      }
      assert a[0] == b[0];
      forall x
        ensures x in a[1..] <==> x in b[1..]
      {
        NotInTail(a, x);
        NotInTail(b, x);
      }
      StrictlySortedIsUnique(a[1..], b[1..]);
      assert a == [a[0]] + a[1..] && b == [b[0]] + b[1..];
    }
  }

  lemma NotInTail(a: seq<string>, x: string)
    requires a != [] && StrictlySorted(a)
    ensures x in a[1..] <==> (x in a && x != a[0])
  {
    if x in a[1..] {
      var i :| 0 <= i < |a[1..]| && a[1..][i] == x;
      assert a[i + 1] == x;
      StringLessAsymmetric(a[0], a[i + 1]);
    }
    if x in a && x != a[0] {
      var i :| 0 <= i < |a| && a[i] == x;
      assert a[1..][i - 1] == x;
    }
  }

  // ----- Sorting by an arbitrary total preorder -----

  ghost predicate TotalPreorder<T(!new)>(le: (T, T) -> bool) {
    && (forall x, y :: le(x, y) || le(y, x))
    && (forall x, y, z :: le(x, y) && le(y, z) ==> le(x, z))
  }

  ghost predicate SortedBy<T>(s: seq<T>, le: (T, T) -> bool) {
    forall i, j :: 0 <= i < j < |s| ==> le(s[i], s[j])
  }

  function InsertSorted<T>(x: T, s: seq<T>, le: (T, T) -> bool): seq<T> {
    if s == [] then [x]
    else if le(x, s[0]) then [x] + s
    else [s[0]] + InsertSorted(x, s[1..], le)
  }

  function Sort<T>(s: seq<T>, le: (T, T) -> bool): seq<T> {
    if s == [] then [] else InsertSorted(s[0], Sort(s[1..], le), le)
  }

  lemma {:induction false} InsertSortedKeepsAll<T>(x: T, s: seq<T>, le: (T, T) -> bool)
    ensures multiset(InsertSorted(x, s, le)) == multiset{x} + multiset(s)
  {
    if s == [] || le(x, s[0]) {
    } else {
      InsertSortedKeepsAll(x, s[1..], le);
      assert s == [s[0]] + s[1..];
    }
  }

  lemma {:induction false} InsertSortedIsSorted<T(!new)>(x: T, s: seq<T>, le: (T, T) -> bool)
    requires TotalPreorder(le) && SortedBy(s, le)
    ensures SortedBy(InsertSorted(x, s, le), le)
  {
    if s == [] {
    } else if le(x, s[0]) {
      forall j | 0 <= j < |s|
        ensures le(x, s[j])
      {
        assert le(s[0], s[j]) || j == 0;
      }
    } else {
      var t := InsertSorted(x, s[1..], le);
      InsertSortedIsSorted(x, s[1..], le);
      InsertSortedKeepsAll(x, s[1..], le);
      forall j | 0 <= j < |t|
        ensures le(s[0], t[j])
      {
        assert t[j] in multiset(t);
        if t[j] != x {
          assert t[j] in s[1..];
        }
      }
    }
  }

  /** Sorting reorders and orders: nothing is lost, duplicated or left out of place. */
  lemma {:induction false} SortSorts<T(!new)>(s: seq<T>, le: (T, T) -> bool)
    requires TotalPreorder(le)
    ensures SortedBy(Sort(s, le), le)
    ensures multiset(Sort(s, le)) == multiset(s)
    ensures |Sort(s, le)| == |s|
  {
    if s == [] {
    } else {
      SortSorts(s[1..], le);
      InsertSortedIsSorted(s[0], Sort(s[1..], le), le);
      InsertSortedKeepsAll(s[0], Sort(s[1..], le), le);
      assert s == [s[0]] + s[1..];
    }
    assert |multiset(Sort(s, le))| == |multiset(s)|;
  }

  lemma RemoveFirst<T>(s: seq<T>)
    requires s != []
    ensures s == [s[0]] + s[1..] && multiset(s[1..]) == multiset(s) - multiset{s[0]}
  {
    assert s == [s[0]] + s[1..];
  }

  lemma SmallestFirst<T>(a: seq<T>, b: seq<T>, le: (T, T) -> bool)
    requires a != [] && SortedBy(a, le) && b != [] && b[0] in a
    ensures le(a[0], b[0]) || a[0] == b[0]
  {
    var i :| 0 <= i < |a| && a[i] == b[0];
  }

  /** Two sorted arrangements of the same elements coincide when ties are equal. */
  lemma {:induction false} SortedIsUnique<T(!new)>(a: seq<T>, b: seq<T>, le: (T, T) -> bool)
    requires SortedBy(a, le) && SortedBy(b, le)
    requires multiset(a) == multiset(b)
    requires forall x, y :: x in a && y in a && le(x, y) && le(y, x) ==> x == y
    ensures a == b
  {
    assert |multiset(a)| == |multiset(b)|;
    if a == [] {
    } else {
      assert a[0] in multiset(b) && b[0] in multiset(a);
      SmallestFirst(a, b, le);
      SmallestFirst(b, a, le);
      assert a[0] == b[0];
      RemoveFirst(a);
      RemoveFirst(b);
      assert forall x :: x in a[1..] ==> x in a;
      SortedIsUnique(a[1..], b[1..], le);
    }
  }

  // ----- The sorted listing of a set of strings -----

  predicate StringLeq(a: string, b: string) {
    a == b || StringLess(a, b)
  }

  lemma {:induction false} InsertKeepsStrictOrder(x: string, s: seq<string>)
    requires StrictlySorted(s) && x !in s
    ensures StrictlySorted(InsertSorted(x, s, StringLeq))
    ensures forall y :: y in InsertSorted(x, s, StringLeq) <==> y == x || y in s
  {
    if s == [] {
    } else if StringLess(x, s[0]) {
      forall j | 0 < j < |s|
        ensures StringLess(x, s[j])
      {
        StringLessTransitive(x, s[0], s[j]);
      }
    } else {
      StringLessTotal(x, s[0]);
      var t := InsertSorted(x, s[1..], StringLeq);
      InsertKeepsStrictOrder(x, s[1..]);
      assert s == [s[0]] + s[1..];
      forall j | 0 <= j < |t|
        ensures StringLess(s[0], t[j])
      {
        assert t[j] in t;
      }
    }
  }

  ghost predicate Lists(r: seq<string>, s: set<string>) {
    StrictlySorted(r) && forall x :: x in r <==> x in s
  }

  /** slices.Sorted(maps.Keys(m)): whatever order the elements are taken in, the listing is the same. */
  method SortedElements(s: set<string>) returns (r: seq<string>)
    ensures r == SortedListing(s)
  {
    r := [];
    var todo := s;
    while todo != {}
      invariant todo <= s
      invariant Lists(r, s - todo)
    {
      var x :| x in todo;
      InsertKeepsStrictOrder(x, r);
      r := InsertSorted(x, r, StringLeq);
      todo := todo - {x};
    }
    StrictlySortedIsUnique(r, SortedListing(s));
  }

  lemma {:induction false} ListingExists(s: set<string>)
    ensures exists r :: Lists(r, s)
  {
    if s == {} {
      assert Lists([], s);
    } else {
      var x :| x in s;
      ListingExists(s - {x});
      var r :| Lists(r, s - {x});
      InsertKeepsStrictOrder(x, r);
      assert Lists(InsertSorted(x, r, StringLeq), s);
    }
  }

  ghost function SortedListing(s: set<string>): (r: seq<string>)
    ensures Lists(r, s)
  {
    ListingExists(s);
    var r :| Lists(r, s);
    r
  }
}
