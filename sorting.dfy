/** Python's `sorted(xs, key=k, reverse=r)`, `xs.sort(...)` and a database
    `order_by(...)`, as one stable insertion sort parameterised by the
    "may come first" relation `le`. */
module Sorting {

  /** `le` relates every pair one way or the other. */
  ghost predicate Total<T(!new)>(le: (T, T) -> bool) {
    forall a, b :: le(a, b) || le(b, a)
  }

  ghost predicate Transitive<T(!new)>(le: (T, T) -> bool) {
    forall a, b, c :: le(a, b) && le(b, c) ==> le(a, c)
  }

  /** Every element may come before its successor. */
  predicate SortedBy<T>(s: seq<T>, le: (T, T) -> bool) {
    forall i :: 0 < i < |s| ==> le(s[i - 1], s[i])
  }

  /** Puts `x` in front of the first element it may precede. */
  function Insert<T>(x: T, s: seq<T>, le: (T, T) -> bool): (r: seq<T>)
    ensures |r| == |s| + 1
    ensures multiset(r) == multiset(s) + multiset{x}
    ensures r[0] == x || (s != [] && r[0] == s[0])
  {
    if s == [] || le(x, s[0]) then [x] + s
    else
      assert s == [s[0]] + s[1..];
      [s[0]] + Insert(x, s[1..], le)
  }

  /** The sorted list. An element is inserted in front of the elements it
      ties with, all of which come later in the input, so the sort is stable. */
  function SortBy<T>(s: seq<T>, le: (T, T) -> bool): (r: seq<T>)
    ensures |r| == |s|
    ensures multiset(r) == multiset(s)
  {
    if s == [] then []
    else
      assert s == [s[0]] + s[1..];
      Insert(s[0], SortBy(s[1..], le), le)
  }

  lemma {:induction false} InsertSorted<T(!new)>(x: T, s: seq<T>, le: (T, T) -> bool)
    requires Total(le)
    requires SortedBy(s, le)
    ensures SortedBy(Insert(x, s, le), le)
    decreases |s|
  {
    if s != [] && !le(x, s[0]) {
      assert le(s[0], x);
      var rest := Insert(x, s[1..], le);
      InsertSorted(x, s[1..], le);
      assert rest[0] == x || rest[0] == s[1];
    }
  }

  lemma {:induction false} SortBySorted<T(!new)>(s: seq<T>, le: (T, T) -> bool)
    requires Total(le)
    ensures SortedBy(SortBy(s, le), le)
    decreases |s|
  {
    if s != [] {
      SortBySorted(s[1..], le);
      InsertSorted(s[0], SortBy(s[1..], le), le);
    }
  }

  lemma SortByMembers<T>(s: seq<T>, le: (T, T) -> bool, x: T)
    ensures x in SortBy(s, le) <==> x in s
  {
    var r := SortBy(s, le);
    assert x in r <==> x in multiset(r);
    assert x in s <==> x in multiset(s);
  }

  /** A prefix of a sorted list is sorted. */
  lemma SortedPrefix<T>(s: seq<T>, n: nat, le: (T, T) -> bool)
    requires SortedBy(s, le) && n <= |s|
    ensures SortedBy(s[..n], le)
  {
  }

  /** Appending an element that may follow the last keeps the order. */
  lemma SortedAppend<T>(s: seq<T>, x: T, le: (T, T) -> bool)
    requires SortedBy(s, le)
    requires s != [] ==> le(s[|s| - 1], x)
    ensures SortedBy(s + [x], le)
  {
    var t := s + [x];
    forall i | 0 < i < |t| ensures le(t[i - 1], t[i]) {
      if i < |s| {
        assert t[i - 1] == s[i - 1] && t[i] == s[i];
      }
    }
  }

  /** `xs[:n]`. */
  function Take<T>(s: seq<T>, n: nat): (r: seq<T>)
    ensures |r| <= n && |r| <= |s|
    ensures |r| == if |s| < n then |s| else n
    ensures forall i :: 0 <= i < |r| ==> r[i] == s[i]
  {
    if |s| <= n then s else s[..n]
  }

  lemma TakeSorted<T>(s: seq<T>, n: nat, le: (T, T) -> bool)
    requires SortedBy(s, le)
    ensures SortedBy(Take(s, n), le)
  {
  }

  /** With a transitive relation, adjacent order is order of every pair. */
  lemma {:induction false} SortedPairs<T(!new)>(s: seq<T>, le: (T, T) -> bool, i: nat, j: nat)
    requires Transitive(le) && SortedBy(s, le)
    requires i <= j < |s|
    ensures i == j || le(s[i], s[j])
    decreases j - i
  {
    if i < j - 1 {
      SortedPairs(s, le, i, j - 1);
    }
  }

  predicate Distinct<T(==)>(s: seq<T>) {
    forall i, j :: 0 <= i < j < |s| ==> s[i] != s[j]
  }

  lemma {:induction false} DistinctMultiset<T>(s: seq<T>)
    ensures Distinct(s) <==> forall x :: multiset(s)[x] <= 1
    decreases |s|
  {
    if s != [] {
      var t := s[1..];
      assert s == [s[0]] + t;
      DistinctMultiset(t);
      if Distinct(s) {
        assert Distinct(t) by {
          forall i, j | 0 <= i < j < |t| ensures t[i] != t[j] {
            assert t[i] == s[i + 1] && t[j] == s[j + 1];
          }
        }
      } else {
        var i, j :| 0 <= i < j < |s| && s[i] == s[j];
        if i == 0 {
          assert s[j] in t;
          assert multiset(s)[s[0]] >= 2;
        } else {
          assert t[i - 1] == t[j - 1];
          assert !Distinct(t);
          var x :| multiset(t)[x] > 1;
          assert multiset(s)[x] > 1;
        }
      }
    }
  }

  lemma SortByDistinct<T>(s: seq<T>, le: (T, T) -> bool)
    requires Distinct(s)
    ensures Distinct(SortBy(s, le))
  {
    DistinctMultiset(s);
    DistinctMultiset(SortBy(s, le));
  }

  predicate IntLe(a: int, b: int) {
    a <= b
  }

  lemma IntLeOrder()
    ensures Total(IntLe) && Transitive(IntLe)
  {
  }

  predicate StrictlyIncreasing(s: seq<int>) {
    forall i :: 0 < i < |s| ==> s[i - 1] < s[i]
  }

  /** `sorted(keys)` of distinct keys: ascending with no repeats, and the
      same keys. */
  lemma SortedKeys(s: seq<int>)
    requires Distinct(s)
    ensures StrictlyIncreasing(SortBy(s, IntLe))
    ensures forall x :: x in SortBy(s, IntLe) <==> x in s
  {
    IntLeOrder();
    SortBySorted(s, IntLe);
    SortByDistinct(s, IntLe);
    forall x ensures x in SortBy(s, IntLe) <==> x in s {
      SortByMembers(s, IntLe, x);
    }
  }

  /** Sorting keys that are already ascending changes nothing. */
  lemma {:induction false} SortIncreasingIdentity(s: seq<int>)
    requires StrictlyIncreasing(s)
    ensures SortBy(s, IntLe) == s
    decreases |s|
  {
    if s != [] {
      var t := s[1..];
      SortIncreasingIdentity(t);
      assert s == [s[0]] + t;
    }
  }
}
