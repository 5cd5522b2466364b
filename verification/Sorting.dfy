/// A stable sort by a numeric key, and its laws. JavaScript's `Array.prototype.sort` and SQL's
/// `ORDER BY` (with row order as the tie-breaker) are modelled by it.
module Sorting {
  /// Places x after every element whose key is not larger.
  function Insert<T>(s: seq<T>, x: T, key: T -> real): seq<T> {
    if s == [] then [x]
    else if key(s[|s| - 1]) <= key(x) then s + [x]
    else Insert(s[..|s| - 1], x, key) + [s[|s| - 1]]
  }

  function Sort<T>(s: seq<T>, key: T -> real): seq<T> {
    if s == [] then [] else Insert(Sort(s[..|s| - 1], key), s[|s| - 1], key)
  }

  function Filter<T>(s: seq<T>, p: T -> bool): seq<T> {
    if s == [] then []
    else if p(s[|s| - 1]) then Filter(s[..|s| - 1], p) + [s[|s| - 1]]
    else Filter(s[..|s| - 1], p)
  }

  function Map<A, B>(s: seq<A>, f: A -> B): (r: seq<B>)
    ensures |r| == |s| && forall i :: 0 <= i < |s| ==> r[i] == f(s[i])
  {
    seq(|s|, i requires 0 <= i < |s| => f(s[i]))
  }

  ghost predicate Sorted<T>(s: seq<T>, key: T -> real) {
    forall i, j :: 0 <= i < j < |s| ==> key(s[i]) <= key(s[j])
  }

  // ---------- unfolding at the end ----------

  lemma FilterSnoc<T>(s: seq<T>, x: T, p: T -> bool)
    ensures Filter(s + [x], p) == if p(x) then Filter(s, p) + [x] else Filter(s, p)
  {
  }

  lemma InsertSnoc<T>(s: seq<T>, last: T, x: T, key: T -> real)
    ensures Insert(s + [last], x, key) == if key(last) <= key(x) then (s + [last]) + [x] else Insert(s, x, key) + [last]
  {
  }

  // ---------- same elements ----------

  lemma {:induction false} FilterMember<T>(s: seq<T>, p: T -> bool, x: T)
    ensures x in Filter(s, p) <==> x in s && p(x)
  {
    if s != [] {
      var front, last := s[..|s| - 1], s[|s| - 1];
      assert s == front + [last];
      FilterMember(front, p, x);
    }
  }

  /// Positions in rising order.
  ghost predicate Ascending(at: seq<nat>) {
    forall i, j :: 0 <= i < j < |at| ==> at[i] < at[j]
  }

  /// The elements of f are those of s at these rising positions, which are exactly where the test holds.
  ghost predicate PositionsOf<T>(s: seq<T>, p: T -> bool, f: seq<T>, at: seq<nat>) {
    && Ascending(at) && |f| == |at| && (forall k :: 0 <= k < |at| ==> at[k] < |s| && f[k] == s[at[k]])
    && (forall i: nat :: i in at <==> i < |s| && p(s[i]))
  }

  /// A filter keeps exactly the elements that pass, in their order.
  lemma {:induction false} FilterPositions<T>(s: seq<T>, p: T -> bool) returns (at: seq<nat>)
    ensures PositionsOf(s, p, Filter(s, p), at)
  {
    at := [];
    if s != [] {
      var front, last := s[..|s| - 1], s[|s| - 1];
      at := FilterPositions(front, p);
      assert s == front + [last];
      FilterSnoc(front, last, p);
      PositionsSnoc(front, last, p, Filter(front, p), at);
      if p(last) {
        at := at + [|front|];
      }
    }
  }

  lemma PositionsSnoc<T>(s: seq<T>, x: T, p: T -> bool, f: seq<T>, at: seq<nat>)
    requires PositionsOf(s, p, f, at)
    ensures if p(x) then PositionsOf(s + [x], p, f + [x], at + [|s|]) else PositionsOf(s + [x], p, f, at)
  {
    forall k | 0 <= k < |at| ensures at[k] < |s| && (s + [x])[at[k]] == s[at[k]] {
      assert at[k] in at;
    }
    if p(x) {
      forall i: nat ensures i in at + [|s|] <==> i in at || i == |s| {
      }
    }
  }

  lemma {:induction false} FilterAll<T>(s: seq<T>, p: T -> bool)
    requires forall x :: x in s ==> p(x)
    ensures Filter(s, p) == s
  {
    if s != [] {
      FilterAll(s[..|s| - 1], p);
    }
  }

  lemma {:induction false} FilterNone<T>(s: seq<T>, p: T -> bool)
    requires forall x :: x in s ==> !p(x)
    ensures Filter(s, p) == []
  {
    if s != [] {
      FilterNone(s[..|s| - 1], p);
    }
  }

  lemma {:induction false} InsertMember<T>(s: seq<T>, x: T, key: T -> real, y: T)
    ensures y in Insert(s, x, key) <==> y in s || y == x
    ensures |Insert(s, x, key)| == |s| + 1
  {
    if s != [] {
      var front, last := s[..|s| - 1], s[|s| - 1];
      assert s == front + [last];
      InsertMember(front, x, key, y);
    }
  }

  lemma {:induction false} SortMember<T>(s: seq<T>, key: T -> real, y: T)
    ensures y in Sort(s, key) <==> y in s
    ensures |Sort(s, key)| == |s|
  {
    if s != [] {
      var front, last := s[..|s| - 1], s[|s| - 1];
      assert s == front + [last];
      SortMember(front, key, y);
      InsertMember(Sort(front, key), last, key, y);
    }
  }

  lemma {:induction false} InsertMultiset<T>(s: seq<T>, x: T, key: T -> real)
    ensures multiset(Insert(s, x, key)) == multiset(s) + multiset{x}
  {
    if s != [] {
      var front, last := s[..|s| - 1], s[|s| - 1];
      assert s == front + [last];
      InsertMultiset(front, x, key);
    }
  }

  lemma {:induction false} SortMultiset<T>(s: seq<T>, key: T -> real)
    ensures multiset(Sort(s, key)) == multiset(s)
  {
    if s != [] {
      var front, last := s[..|s| - 1], s[|s| - 1];
      assert s == front + [last];
      SortMultiset(front, key);
      InsertMultiset(Sort(front, key), last, key);
    }
  }

  // ---------- no repetition ----------

  ghost predicate Distinct<T, K>(s: seq<T>, f: T -> K) {
    forall i, j :: 0 <= i < j < |s| ==> f(s[i]) != f(s[j])
  }

  ghost predicate NoRepeat<T>(s: seq<T>) {
    forall i, j :: 0 <= i < j < |s| ==> s[i] != s[j]
  }

  lemma {:induction false} FilterDistinct<T, K>(s: seq<T>, p: T -> bool, f: T -> K)
    requires Distinct(s, f)
    ensures Distinct(Filter(s, p), f)
  {
    if s != [] {
      var front, last := s[..|s| - 1], s[|s| - 1];
      FilterDistinct(front, p, f);
      forall x | x in Filter(front, p) ensures f(x) != f(last) {
        FilterMember(front, p, x);
      }
    }
  }

  lemma {:induction false} InsertDistinct<T, K>(s: seq<T>, x: T, key: T -> real, f: T -> K)
    requires Distinct(s, f) && forall y :: y in s ==> f(y) != f(x)
    ensures Distinct(Insert(s, x, key), f)
  {
    if s != [] {
      var front, last := s[..|s| - 1], s[|s| - 1];
      assert last in s && forall y :: y in front ==> y in s;
      InsertDistinct(front, x, key, f);
      forall y | y in Insert(front, x, key) ensures f(y) != f(last) {
        InsertMember(front, x, key, y);
      }
    }
  }

  lemma {:induction false} SortDistinct<T, K>(s: seq<T>, key: T -> real, f: T -> K)
    requires Distinct(s, f)
    ensures Distinct(Sort(s, key), f)
  {
    if s != [] {
      var front, last := s[..|s| - 1], s[|s| - 1];
      SortDistinct(front, key, f);
      forall y | y in Sort(front, key) ensures f(y) != f(last) {
        SortMember(front, key, y);
      }
      InsertDistinct(Sort(front, key), last, key, f);
    }
  }

  lemma {:induction false} NoRepeatCount<T>(s: seq<T>, x: T)
    requires NoRepeat(s)
    ensures multiset(s)[x] == if x in s then 1 else 0
  {
    if s != [] {
      var front, last := s[..|s| - 1], s[|s| - 1];
      assert s == front + [last];
      NoRepeatCount(front, x);
    }
  }

  /// Two lists without repetition and with the same members are permutations of each other.
  lemma SameMembers<T(!new)>(a: seq<T>, b: seq<T>)
    requires NoRepeat(a) && NoRepeat(b) && forall x :: x in a <==> x in b
    ensures multiset(a) == multiset(b)
  {
    forall x ensures multiset(a)[x] == multiset(b)[x] {
      NoRepeatCount(a, x);
      NoRepeatCount(b, x);
    }
  }

  // ---------- order ----------

  lemma {:induction false} InsertSorted<T>(s: seq<T>, x: T, key: T -> real)
    requires Sorted(s, key)
    ensures Sorted(Insert(s, x, key), key)
  {
    if s != [] {
      var front, last := s[..|s| - 1], s[|s| - 1];
      assert s == front + [last];
      InsertSnoc(front, last, x, key);
      if key(last) <= key(x) {
      } else {
        hide Insert;
        InsertSorted(front, x, key);
        forall y | y in Insert(front, x, key) ensures key(y) <= key(last) {
          InsertMember(front, x, key, y);
        }
      }
    }
  }

  lemma {:induction false} SortSorted<T>(s: seq<T>, key: T -> real)
    ensures Sorted(Sort(s, key), key)
  {
    if s != [] {
      SortSorted(s[..|s| - 1], key);
      InsertSorted(Sort(s[..|s| - 1], key), s[|s| - 1], key);
    }
  }

  /// Filtering commutes with insertion: this is where stability comes from.
  lemma {:induction false} FilterInsert<T>(s: seq<T>, x: T, key: T -> real, p: T -> bool)
    requires Sorted(s, key)
    ensures Filter(Insert(s, x, key), p) == if p(x) then Insert(Filter(s, p), x, key) else Filter(s, p)
  {
    if s == [] {
      FilterSnoc([], x, p);
      assert [] + [x] == [x];
    } else {
      var front, last := s[..|s| - 1], s[|s| - 1];
      assert s == front + [last];
      InsertSnoc(front, last, x, key);
      FilterSnoc(front, last, p);
      if key(last) <= key(x) {
        FilterSnoc(s, x, p);
        InsertLast(Filter(s, p), x, key) by {
          forall y | y in Filter(s, p) ensures key(y) <= key(x) {
            FilterMember(s, p, y);
          }
        }
      } else {
        hide Insert, Filter;
        FilterInsert(front, x, key, p);
        FilterSnoc(Insert(front, x, key), last, p);
        InsertSnoc(Filter(front, p), last, x, key);
      }
    }
  }

  lemma InsertLast<T>(s: seq<T>, x: T, key: T -> real)
    requires forall y :: y in s ==> key(y) <= key(x)
    ensures Insert(s, x, key) == s + [x]
  {
  }

  /// Filtering commutes with sorting: the sort is stable.
  lemma {:induction false} FilterSort<T>(s: seq<T>, key: T -> real, p: T -> bool)
    ensures Filter(Sort(s, key), p) == Sort(Filter(s, p), key)
  {
    if s != [] {
      var front, last := s[..|s| - 1], s[|s| - 1];
      assert s == front + [last];
      FilterSort(front, key, p);
      SortSorted(front, key);
      FilterSnoc(front, last, p);
      hide Sort, Filter, Insert;
      FilterInsert(Sort(front, key), last, key, p);
    }
  }

  /// Ordered by key and, among equal keys, by position.
  ghost predicate Ranked<T>(s: seq<T>, key: T -> real, position: T -> int) {
    forall i, j :: 0 <= i < j < |s| ==> key(s[i]) <= key(s[j]) && (key(s[i]) == key(s[j]) ==> position(s[i]) < position(s[j]))
  }

  lemma {:induction false} InsertRanked<T>(s: seq<T>, x: T, key: T -> real, position: T -> int)
    requires Ranked(s, key, position) && forall y :: y in s ==> position(y) < position(x)
    ensures Ranked(Insert(s, x, key), key, position)
  {
    if s != [] {
      hide Insert, Ranked;
      var front, last := s[..|s| - 1], s[|s| - 1];
      assert s == front + [last];
      RankedFront(front, last, key, position);
      InsertSnoc(front, last, x, key);
      if key(last) > key(x) {
        InsertRanked(front, x, key, position);
        forall y | y in Insert(front, x, key)
          ensures key(y) <= key(last) && (key(y) == key(last) ==> position(y) < position(last))
        {
          InsertMember(front, x, key, y);
        }
        RankedSnoc(Insert(front, x, key), last, key, position);
      } else {
        RankedSnoc(s, x, key, position);
      }
    }
  }

  lemma RankedFront<T>(front: seq<T>, last: T, key: T -> real, position: T -> int)
    requires Ranked(front + [last], key, position)
    ensures Ranked(front, key, position)
    ensures forall y :: y in front ==> key(y) <= key(last) && (key(y) == key(last) ==> position(y) < position(last))
  {
    var s := front + [last];
    forall i, j | 0 <= i < j < |front|
      ensures key(front[i]) <= key(front[j]) && (key(front[i]) == key(front[j]) ==> position(front[i]) < position(front[j]))
    {
      assert s[i] == front[i] && s[j] == front[j];
    }
    forall y | y in front ensures key(y) <= key(last) && (key(y) == key(last) ==> position(y) < position(last)) {
      var i :| 0 <= i < |front| && front[i] == y;
      assert s[i] == y && s[|front|] == last;
    }
  }

  lemma RankedSnoc<T>(s: seq<T>, last: T, key: T -> real, position: T -> int)
    requires Ranked(s, key, position)
    requires forall y :: y in s ==> key(y) <= key(last) && (key(y) == key(last) ==> position(y) < position(last))
    ensures Ranked(s + [last], key, position)
  {
    assert forall i :: 0 <= i < |s| ==> s[i] in s;
  }

  /// Elements of equal keys stay in the order of their positions.
  lemma {:induction false} SortRanked<T>(s: seq<T>, key: T -> real, position: T -> int)
    requires forall i, j :: 0 <= i < j < |s| ==> position(s[i]) < position(s[j])
    ensures Ranked(Sort(s, key), key, position)
  {
    if s != [] {
      var front, last := s[..|s| - 1], s[|s| - 1];
      SortRanked(front, key, position);
      forall y | y in Sort(front, key) ensures position(y) < position(last) {
        SortMember(front, key, y);
      }
      InsertRanked(Sort(front, key), last, key, position);
    }
  }

  lemma {:induction false} InsertHead<T>(s: seq<T>, x: T, key: T -> real)
    requires Sorted(s, key)
    ensures Insert(s, x, key) != [] && Insert(s, x, key)[0] == if s == [] || key(s[0]) > key(x) then x else s[0]
  {
    if s != [] && key(s[|s| - 1]) > key(x) {
      var front := s[..|s| - 1];
      InsertHead(front, x, key);
      if front != [] {
        assert front[0] == s[0];
      }
    }
  }

  /// The head of a sorted sequence is the first of its least elements.
  lemma {:induction false} SortHead<T>(s: seq<T>, key: T -> real, i: nat)
    requires i < |s|
    requires forall k :: 0 <= k < |s| ==> key(s[i]) <= key(s[k])
    requires forall k :: 0 <= k < i ==> key(s[k]) > key(s[i])
    ensures Sort(s, key) != [] && Sort(s, key)[0] == s[i]
  {
    var front, last := s[..|s| - 1], s[|s| - 1];
    SortSorted(front, key);
    InsertHead(Sort(front, key), last, key);
    if i < |s| - 1 {
      SortHead(front, key, i);
    } else if Sort(front, key) != [] {
      SortMember(front, key, Sort(front, key)[0]);
    }
  }

  /// The first of the elements that pass a test and whose key is least among those.
  ghost predicate FirstLeast<T>(s: seq<T>, p: T -> bool, key: T -> real, k: nat) {
    && k < |s| && p(s[k])
    && forall j :: 0 <= j < |s| && p(s[j]) ==> key(s[k]) <= key(s[j]) && (j < k ==> key(s[k]) < key(s[j]))
  }

  lemma {:induction false} FindFirstLeast<T>(s: seq<T>, p: T -> bool, key: T -> real) returns (k: nat)
    requires exists x :: x in s && p(x)
    ensures FirstLeast(s, p, key, k)
  {
    var front, last := s[..|s| - 1], s[|s| - 1];
    assert s == front + [last];
    k := |s| - 1;
    if x :| x in front && p(x) {
      var i := FindFirstLeast(front, p, key);
      if !p(last) || key(front[i]) <= key(last) {
        k := i;
      }
    } else {
      assert forall j :: 0 <= j < |front| ==> front[j] in front;
    }
  }

  /// That is the head of the sorted ones.
  lemma SortedHead<T>(s: seq<T>, p: T -> bool, key: T -> real, k: nat)
    requires FirstLeast(s, p, key, k)
    ensures Filter(s, p) != [] && Sort(Filter(s, p), key) != [] && Sort(Filter(s, p), key)[0] == s[k]
  {
    var before, after := Filter(s[..k], p), Filter(s[k + 1..], p);
    assert s == (s[..k] + [s[k]]) + s[k + 1..];
    FilterConcat(s[..k] + [s[k]], s[k + 1..], p);
    FilterSnoc(s[..k], s[k], p);
    hide Filter, Sort;
    assert Filter(s, p) == before + [s[k]] + after;
    forall j | 0 <= j < |before| ensures key(before[j]) > key(s[k]) {
      FilterMember(s[..k], p, before[j]);
      assert before[j] in before;
    }
    forall j | 0 <= j < |after| ensures key(after[j]) >= key(s[k]) {
      FilterMember(s[k + 1..], p, after[j]);
      assert after[j] in after;
    }
    SortHead(before + [s[k]] + after, key, |before|);
  }

  function Constant<T>(): T -> real {
    (x: T) => 0.0
  }

  /// The head of a filtered sequence is the first element that passes.
  lemma FilteredHead<T>(s: seq<T>, p: T -> bool) returns (k: nat)
    requires exists x :: x in s && p(x)
    ensures k < |s| && p(s[k]) && (forall j :: 0 <= j < k ==> !p(s[j]))
    ensures Filter(s, p) != [] && Filter(s, p)[0] == s[k]
  {
    k := FindFirstLeast(s, p, Constant());
    SortedHead(s, p, Constant(), k);
    SortIdentity(Filter(s, p), Constant());
  }

  /// Sorting a sorted sequence changes nothing.
  lemma {:induction false} SortIdentity<T>(s: seq<T>, key: T -> real)
    requires Sorted(s, key)
    ensures Sort(s, key) == s
  {
    if s != [] {
      SortIdentity(s[..|s| - 1], key);
    }
  }

  lemma {:induction false} FilterConcat<T>(a: seq<T>, b: seq<T>, p: T -> bool)
    ensures Filter(a + b, p) == Filter(a, p) + Filter(b, p)
  {
    if b == [] {
      assert a + b == a;
    } else {
      var front, last := b[..|b| - 1], b[|b| - 1];
      assert a + b == (a + front) + [last];
      FilterConcat(a, front, p);
      FilterSnoc(a + front, last, p);
    }
  }
}
