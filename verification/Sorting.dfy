/** Stable sorting, as Python's sorted() and list.sort() do it, and the orders the server sorts by. */
module Sorting {

  ghost predicate TotalPreorder<T(!new)>(le: (T, T) -> bool) {
    && (forall x, y :: le(x, y) || le(y, x))
    && (forall x, y, z :: le(x, y) && le(y, z) ==> le(x, z))
  }

  ghost predicate Antisymmetric<T(!new)>(le: (T, T) -> bool) {
    forall x, y :: le(x, y) && le(y, x) ==> x == y
  }

  ghost predicate SortedBy<T>(le: (T, T) -> bool, s: seq<T>) {
    forall i, j :: 0 <= i < j < |s| ==> le(s[i], s[j])
  }

  ghost predicate Distinct<T>(s: seq<T>) {
    forall i, j :: 0 <= i < j < |s| ==> s[i] != s[j]
  }

  /** Places x behind every element of the sorted s that is not greater. */
  function Insert<T>(le: (T, T) -> bool, x: T, s: seq<T>): seq<T> {
    if s == [] then [x]
    else if le(s[0], x) then [s[0]] + Insert(le, x, s[1..])
    else [x] + s
  }

  /** The stable sort of s. */
  function SortBy<T>(le: (T, T) -> bool, s: seq<T>): seq<T> {
    if s == [] then [] else Insert(le, s[|s| - 1], SortBy(le, s[..|s| - 1]))
  }

  lemma {:induction false} InsertContents<T>(le: (T, T) -> bool, x: T, s: seq<T>)
    ensures multiset(Insert(le, x, s)) == multiset(s) + multiset{x}
    ensures |Insert(le, x, s)| == |s| + 1
  {
    if s != [] {
      assert s == [s[0]] + s[1..];
      if le(s[0], x) {
        InsertContents(le, x, s[1..]);
      }
    }
  }

  lemma SortedTail<T(!new)>(le: (T, T) -> bool, head: T, tail: seq<T>)
    requires SortedBy(le, tail)
    requires forall y :: y in tail ==> le(head, y)
    ensures SortedBy(le, [head] + tail)
  {
    var s := [head] + tail;
    forall i, j | 0 <= i < j < |s|
      ensures le(s[i], s[j])
    {
      assert s[j] == tail[j - 1];
      if 0 < i {
        assert s[i] == tail[i - 1];
      }
    }
  }

  lemma {:induction false} InsertSorted<T(!new)>(le: (T, T) -> bool, x: T, s: seq<T>)
    requires TotalPreorder(le) && SortedBy(le, s)
    ensures SortedBy(le, Insert(le, x, s))
  {
    if s != [] {
      if le(s[0], x) {
        InsertSorted(le, x, s[1..]);
        InsertContents(le, x, s[1..]);
        forall y | y in Insert(le, x, s[1..])
          ensures le(s[0], y)
        {
          assert y in multiset(Insert(le, x, s[1..]));
          assert y == x || y in s[1..];
        }
        SortedTail(le, s[0], Insert(le, x, s[1..]));
      } else {
        forall y | y in s
          ensures le(x, y)
        {
          assert le(x, s[0]);
        }
        SortedTail(le, x, s);
      }
    }
  }

  /** Sorting yields a sorted permutation. */
  lemma {:induction false} SortCorrect<T(!new)>(le: (T, T) -> bool, s: seq<T>)
    requires TotalPreorder(le)
    ensures SortedBy(le, SortBy(le, s))
    ensures multiset(SortBy(le, s)) == multiset(s)
    ensures |SortBy(le, s)| == |s|
  {
    if s != [] {
      var front := s[..|s| - 1];
      SortCorrect(le, front);
      InsertSorted(le, s[|s| - 1], SortBy(le, front));
      InsertContents(le, s[|s| - 1], SortBy(le, front));
      assert s == front + [s[|s| - 1]];
    }
  }

  lemma {:induction false} InsertLast<T>(le: (T, T) -> bool, x: T, s: seq<T>)
    requires forall y :: y in s ==> le(y, x)
    ensures Insert(le, x, s) == s + [x]
  {
    if s != [] {
      InsertLast(le, x, s[1..]);
      assert s + [x] == [s[0]] + (s[1..] + [x]);
    }
  }

  /** A sorted list is left as it is. */
  lemma {:induction false} SortFixed<T>(le: (T, T) -> bool, s: seq<T>)
    requires SortedBy(le, s)
    ensures SortBy(le, s) == s
  {
    if s != [] {
      var front := s[..|s| - 1];
      SortFixed(le, front);
      InsertLast(le, s[|s| - 1], front);
      assert s == front + [s[|s| - 1]];
    }
  }

  lemma SplitFirst<T>(a: seq<T>)
    requires a != []
    ensures multiset(a) == multiset{a[0]} + multiset(a[1..])
    ensures a[0] in multiset(a)
  {
    assert a == [a[0]] + a[1..];
  }

  lemma FirstIsLeast<T(!new)>(le: (T, T) -> bool, a: seq<T>, x: T)
    requires TotalPreorder(le) && SortedBy(le, a) && x in multiset(a)
    ensures a != [] && le(a[0], x)
  {
    var i :| 0 <= i < |a| && a[i] == x;
    assert le(a[0], a[0]);
  }

  /** With an antisymmetric order, the elements alone decide the sorted list. */
  lemma {:induction false} SortedUnique<T(!new)>(le: (T, T) -> bool, a: seq<T>, b: seq<T>)
    requires TotalPreorder(le) && Antisymmetric(le)
    requires SortedBy(le, a) && SortedBy(le, b) && multiset(a) == multiset(b)
    ensures a == b
  {
    if a == [] {
      assert |multiset(b)| == 0;
    } else {
      SplitFirst(a);
      FirstIsLeast(le, b, a[0]);
      SplitFirst(b);
      FirstIsLeast(le, a, b[0]);
      assert a[0] == b[0];
      assert multiset(a[1..]) == multiset(a) - multiset{a[0]};
      assert multiset(b[1..]) == multiset(b) - multiset{b[0]};
      SortedUnique(le, a[1..], b[1..]);
      assert a == [a[0]] + a[1..] && b == [b[0]] + b[1..];
    }
  }

  /** Lists that were built in a different order sort to the same list. */
  lemma SortIgnoresOrder<T(!new)>(le: (T, T) -> bool, a: seq<T>, b: seq<T>)
    requires TotalPreorder(le) && Antisymmetric(le) && multiset(a) == multiset(b)
    ensures SortBy(le, a) == SortBy(le, b)
  {
    SortCorrect(le, a);
    SortCorrect(le, b);
    SortedUnique(le, SortBy(le, a), SortBy(le, b));
  }

  // ---------------------------------------------------------------- sorting the keys of a dictionary

  ghost function Listing<T>(s: set<T>): seq<T>
    decreases |s|
  {
    if s == {} then []
    else
      var x :| x in s;
      Listing(s - {x}) + [x]
  }

  /** The elements of s in ascending order. */
  ghost function Arrange<T>(le: (T, T) -> bool, s: set<T>): seq<T> {
    SortBy(le, Listing(s))
  }

  lemma {:induction false} ListingContents<T>(s: set<T>)
    ensures multiset(Listing(s)) == multiset(s)
    decreases |s|
  {
    if s != {} {
      var x :| x in s && Listing(s) == Listing(s - {x}) + [x];
      ListingContents(s - {x});
      assert s == (s - {x}) + {x};
    }
  }

  lemma RepeatCounts<T>(s: seq<T>, i: nat, j: nat)
    requires i < j < |s| && s[i] == s[j]
    ensures 2 <= multiset(s)[s[i]]
  {
    assert s == s[..i] + [s[i]] + s[i + 1..j] + [s[j]] + s[j + 1..];
  }

  lemma NoRepeats<T>(s: seq<T>, contents: set<T>)
    requires multiset(s) == multiset(contents)
    ensures Distinct(s)
    ensures forall x :: x in s <==> x in contents
  {
    forall x
      ensures x in s <==> x in contents
    {
      assert x in multiset(s) <==> x in multiset(contents);
    }
    forall i, j | 0 <= i < j < |s|
      ensures s[i] != s[j]
    {
      if s[i] == s[j] {
        RepeatCounts(s, i, j);
      }
    }
  }

  /** The arrangement is sorted and lists every element once. */
  lemma Arranged<T(!new)>(le: (T, T) -> bool, s: set<T>)
    requires TotalPreorder(le)
    ensures SortedBy(le, Arrange(le, s)) && Distinct(Arrange(le, s))
    ensures multiset(Arrange(le, s)) == multiset(s) && |Arrange(le, s)| == |s|
    ensures forall x :: x in Arrange(le, s) <==> x in s
  {
    ListingContents(s);
    SortCorrect(le, Listing(s));
    assert |multiset(Arrange(le, s))| == |Arrange(le, s)|;
    NoRepeats(Arrange(le, s), s);
  }

  /** sorted(s): whatever order the elements are met in, the result is the same list. */
  method ArrangeSet<T(==,!new)>(le: (T, T) -> bool, s: set<T>) returns (order: seq<T>)
    requires TotalPreorder(le) && Antisymmetric(le)
    ensures order == Arrange(le, s)
  {
    order := [];
    var remaining := s;
    while remaining != {}
      invariant remaining <= s
      invariant SortedBy(le, order) && multiset(order) == multiset(s - remaining)
      decreases |remaining|
    {
      var x :| x in remaining;
      InsertSorted(le, x, order);
      InsertContents(le, x, order);
      order := Insert(le, x, order);
      assert s - (remaining - {x}) == (s - remaining) + {x};
      remaining := remaining - {x};
    }
    assert s - {} == s;
    Arranged(le, s);
    SortedUnique(le, order, Arrange(le, s));
  }

  // ---------------------------------------------------------------- order of strings

  /** Comparison of strings by code points. */
  predicate TextLe(a: string, b: string) {
    a == [] || (b != [] && (a[0] < b[0] || (a[0] == b[0] && TextLe(a[1..], b[1..]))))
  }

  lemma {:induction false} TextTotal(a: string, b: string)
    ensures TextLe(a, b) || TextLe(b, a)
    ensures TextLe(a, b) && TextLe(b, a) ==> a == b
  {
    if a != [] && b != [] && a[0] == b[0] {
      TextTotal(a[1..], b[1..]);
      assert a == [a[0]] + a[1..] && b == [b[0]] + b[1..];
    }
  }

  lemma {:induction false} TextTransitive(a: string, b: string, c: string)
    requires TextLe(a, b) && TextLe(b, c)
    ensures TextLe(a, c)
  {
    if a != [] && a[0] == b[0] && b[0] == c[0] {
      TextTransitive(a[1..], b[1..], c[1..]);
    }
  }

  lemma TextOrder()
    ensures TotalPreorder(TextLe) && Antisymmetric(TextLe)
  {
    forall a, b
      ensures TextLe(a, b) || TextLe(b, a)
      ensures TextLe(a, b) && TextLe(b, a) ==> a == b
    {
      TextTotal(a, b);
    }
    forall a, b, c | TextLe(a, b) && TextLe(b, c)
      ensures TextLe(a, c)
    {
      TextTransitive(a, b, c);
    }
  }

  /** a and b agree on their first k characters, and then a ends, or has the smaller character. */
  ghost predicate SmallerAt(a: string, b: string, k: int) {
    && 0 <= k <= |a| && k < |b| && a[..k] == b[..k]
    && (k < |a| ==> a[k] < b[k])
  }

  /** a is a proper prefix of b, or has the smaller code point where they first differ. */
  ghost predicate CodePointLess(a: string, b: string) {
    exists k :: SmallerAt(a, b, k)
  }

  lemma {:induction false} SmallerWhere(a: string, b: string) returns (k: int)
    requires TextLe(a, b) && a != b
    ensures SmallerAt(a, b, k)
  {
    k := 0;
    if a != [] && a[0] == b[0] {
      assert a == [a[0]] + a[1..] && b == [b[0]] + b[1..];
      var j := SmallerWhere(a[1..], b[1..]);
      k := j + 1;
      assert a[..k] == [a[0]] + a[1..][..j] && b[..k] == [b[0]] + b[1..][..j];
    }
  }

  lemma {:induction false} SmallerIsLe(a: string, b: string, k: int)
    requires SmallerAt(a, b, k)
    ensures TextLe(a, b) && a != b
    decreases |a|
  {
    if 0 < k {
      assert a[..k][0] == a[0] && b[..k][0] == b[0];
      assert a[1..][..k - 1] == a[..k][1..] && b[1..][..k - 1] == b[..k][1..];
      SmallerIsLe(a[1..], b[1..], k - 1);
    }
  }

  /** The order of strings is the order by code points. */
  lemma TextLeMeans(a: string, b: string)
    ensures TextLe(a, b) <==> a == b || CodePointLess(a, b)
  {
    TextTotal(a, b);
    if TextLe(a, b) && a != b {
      var k := SmallerWhere(a, b);
    }
    if CodePointLess(a, b) {
      var k :| SmallerAt(a, b, k);
      SmallerIsLe(a, b, k);
    }
  }

  /** No string is smaller than itself, and of two different ones exactly one is smaller. */
  lemma CodePointOrder(a: string, b: string)
    ensures a != b ==> (CodePointLess(a, b) <==> !CodePointLess(b, a))
    ensures !CodePointLess(a, a)
  {
    TextTotal(a, b);
    TextLeMeans(a, b);
    TextLeMeans(b, a);
    forall x, y, k | SmallerAt(x, y, k)
      ensures TextLe(x, y) && x != y
    {
      SmallerIsLe(x, y, k);
    }
    hide TextLe, SmallerAt;
  }
}
