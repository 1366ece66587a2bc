/** Stable sorting by a comparison, and what sorting, filtering and mapping do to the elements. */
module Sorting {

  function Insert<T>(x: T, s: seq<T>, leq: (T, T) -> bool): seq<T> {
    if s == [] then [x]
    else if leq(x, s[0]) then [x] + s
    else [s[0]] + Insert(x, s[1..], leq)
  }

  /** Stable: an element is inserted before the later elements that compare equal. */
  function Sort<T>(s: seq<T>, leq: (T, T) -> bool): seq<T> {
    if s == [] then [] else Insert(s[0], Sort(s[1..], leq), leq)
  }

  function Filter<T>(s: seq<T>, keep: T -> bool): seq<T> {
    if s == [] then []
    else (if keep(s[0]) then [s[0]] else []) + Filter(s[1..], keep)
  }

  function Map<T, U>(s: seq<T>, f: T -> U): (r: seq<U>)
    ensures |r| == |s| && forall i :: 0 <= i < |s| ==> r[i] == f(s[i])
  {
    if s == [] then [] else [f(s[0])] + Map(s[1..], f)
  }

  /** The elements of `s`, each once, in order of first appearance. */
  function Distinct<T(==)>(s: seq<T>): seq<T> {
    if s == [] then []
    else
      var front := Distinct(s[..|s| - 1]);
      var last := s[|s| - 1];
      if last in front then front else front + [last]
  }

  ghost predicate TotalPreorder<T(!new)>(leq: (T, T) -> bool) {
    && (forall x, y :: leq(x, y) || leq(y, x))
    && (forall x, y, z :: leq(x, y) && leq(y, z) ==> leq(x, z))
  }

  ghost predicate SortedBy<T>(s: seq<T>, leq: (T, T) -> bool) {
    forall i, j :: 0 <= i < j < |s| ==> leq(s[i], s[j])
  }

  ghost predicate AntisymmetricOn<T>(leq: (T, T) -> bool, s: seq<T>) {
    forall x, y :: x in s && y in s && leq(x, y) && leq(y, x) ==> x == y
  }

  ghost predicate NoDuplicates<T>(s: seq<T>) {
    forall i, j :: 0 <= i < j < |s| ==> s[i] != s[j]
  }

  lemma {:induction false} InsertElements<T(!new)>(x: T, s: seq<T>, leq: (T, T) -> bool)
    ensures multiset(Insert(x, s, leq)) == multiset(s) + multiset{x}
  {
    if s != [] && !leq(x, s[0]) {
      InsertElements(x, s[1..], leq);
      assert s == [s[0]] + s[1..];
    }
  }

  lemma {:induction false} InsertSorted<T(!new)>(x: T, s: seq<T>, leq: (T, T) -> bool)
    requires TotalPreorder(leq) && SortedBy(s, leq)
    ensures SortedBy(Insert(x, s, leq), leq)
  {
    if s != [] && !leq(x, s[0]) {
      var tail := Insert(x, s[1..], leq);
      InsertSorted(x, s[1..], leq);
      InsertElements(x, s[1..], leq);
      forall y | y in tail ensures leq(s[0], y) {
        assert y in multiset(tail);
      }
    } else if s != [] {
      forall y | y in s ensures leq(x, y) {
        var k :| 0 <= k < |s| && s[k] == y;
        assert leq(x, s[0]) && (k == 0 || leq(s[0], s[k]));
      }
    }
  }

  lemma {:induction false} SortElements<T(!new)>(s: seq<T>, leq: (T, T) -> bool)
    ensures multiset(Sort(s, leq)) == multiset(s)
    ensures |Sort(s, leq)| == |s|
    ensures forall x :: x in Sort(s, leq) <==> x in s
  {
    if s != [] {
      SortElements(s[1..], leq);
      InsertElements(s[0], Sort(s[1..], leq), leq);
      assert s == [s[0]] + s[1..];
    }
    SameElements(Sort(s, leq), s);
  }

  lemma SameElements<T(!new)>(a: seq<T>, b: seq<T>)
    requires multiset(a) == multiset(b)
    ensures |a| == |b|
    ensures forall x :: x in a <==> x in b
  {
    assert |multiset(a)| == |a| && |multiset(b)| == |b|;
    forall x ensures x in a <==> x in b {
      assert x in a <==> x in multiset(a);
      assert x in b <==> x in multiset(b);
    }
  }

  lemma {:induction false} SortSorted<T(!new)>(s: seq<T>, leq: (T, T) -> bool)
    requires TotalPreorder(leq)
    ensures SortedBy(Sort(s, leq), leq)
  {
    if s != [] {
      SortSorted(s[1..], leq);
      InsertSorted(s[0], Sort(s[1..], leq), leq);
    }
  }

  lemma SortedHeads<T(!new)>(a: seq<T>, b: seq<T>, leq: (T, T) -> bool)
    requires TotalPreorder(leq) && SortedBy(a, leq) && SortedBy(b, leq)
    requires a != [] && multiset(a) == multiset(b) && AntisymmetricOn(leq, a)
    ensures b != [] && a[0] == b[0]
  {
    SameElements(a, b);
    assert a[0] in b && b[0] in a;
    var i :| 0 <= i < |b| && b[i] == a[0];
    var j :| 0 <= j < |a| && a[j] == b[0];
    assert leq(a[0], a[0]);
    assert leq(a[0], b[0]) && leq(b[0], a[0]);
  }

  lemma TailElements<T(!new)>(s: seq<T>)
    requires s != []
    ensures multiset(s[1..]) == multiset(s) - multiset{s[0]}
  {
    assert s == [s[0]] + s[1..];
  }

  lemma SortedTail<T(!new)>(s: seq<T>, leq: (T, T) -> bool)
    requires s != [] && SortedBy(s, leq)
    ensures SortedBy(s[1..], leq)
  {
  }

  lemma AntisymmetricTail<T(!new)>(s: seq<T>, leq: (T, T) -> bool)
    requires s != [] && AntisymmetricOn(leq, s)
    ensures AntisymmetricOn(leq, s[1..])
  {
  }

  /** A sorted arrangement is unique when the comparison tells the elements apart. */
  lemma {:induction false} SortedUnique<T(!new)>(a: seq<T>, b: seq<T>, leq: (T, T) -> bool)
    requires TotalPreorder(leq) && SortedBy(a, leq) && SortedBy(b, leq)
    requires multiset(a) == multiset(b) && AntisymmetricOn(leq, a)
    ensures a == b
  {
    if a == [] {
      SameElements(a, b);
    } else {
      SortedHeads(a, b, leq);
      TailElements(a);
      TailElements(b);
      SortedTail(a, leq);
      SortedTail(b, leq);
      AntisymmetricTail(a, leq);
      SortedUnique(a[1..], b[1..], leq);
      assert a == [a[0]] + a[1..] && b == [b[0]] + b[1..];
    }
  }

  /** Sorting forgets the order of its input. */
  lemma SortForgetsOrder<T(!new)>(a: seq<T>, b: seq<T>, leq: (T, T) -> bool)
    requires TotalPreorder(leq) && multiset(a) == multiset(b) && AntisymmetricOn(leq, a)
    ensures Sort(a, leq) == Sort(b, leq)
  {
    SortElements(a, leq);
    SortElements(b, leq);
    SortSorted(a, leq);
    SortSorted(b, leq);
    SortedUnique(Sort(a, leq), Sort(b, leq), leq);
  }

  lemma {:induction false} FilterMembers<T(!new)>(s: seq<T>, keep: T -> bool)
    ensures forall x :: x in Filter(s, keep) <==> x in s && keep(x)
    ensures |Filter(s, keep)| <= |s|
  {
    if s != [] {
      FilterMembers(s[1..], keep);
    }
  }

  lemma {:induction false} FilterCount<T(!new)>(s: seq<T>, keep: T -> bool, x: T)
    ensures multiset(Filter(s, keep))[x] == if keep(x) then multiset(s)[x] else 0
  {
    if s != [] {
      FilterCount(s[1..], keep, x);
      assert s == [s[0]] + s[1..];
    }
  }

  lemma FilterForgetsOrder<T(!new)>(a: seq<T>, b: seq<T>, keep: T -> bool)
    requires multiset(a) == multiset(b)
    ensures multiset(Filter(a, keep)) == multiset(Filter(b, keep))
  {
    var left, right := multiset(Filter(a, keep)), multiset(Filter(b, keep));
    forall x ensures left[x] == right[x] {
      FilterCount(a, keep, x);
      FilterCount(b, keep, x);
    }
    assert left == right;
  }

  lemma {:induction false} FilterSame<T(!new)>(s: seq<T>, p: T -> bool, q: T -> bool)
    requires forall x :: x in s ==> p(x) == q(x)
    ensures Filter(s, p) == Filter(s, q)
  {
    if s != [] {
      FilterSame(s[1..], p, q);
    }
  }

  lemma {:induction false} FilterAll<T(!new)>(s: seq<T>, keep: T -> bool)
    requires forall x :: x in s ==> keep(x)
    ensures Filter(s, keep) == s
  {
    if s != [] {
      FilterAll(s[1..], keep);
    }
  }

  lemma {:induction false} FilterConcat<T(!new)>(a: seq<T>, b: seq<T>, keep: T -> bool)
    ensures Filter(a + b, keep) == Filter(a, keep) + Filter(b, keep)
  {
    if a == [] {
      assert a + b == b;
    } else {
      var all, head := a + b, if keep(a[0]) then [a[0]] else [];
      var left, right := Filter(a[1..], keep), Filter(b, keep);
      FilterConcat(a[1..], b, keep);
      assert all[0] == a[0] && all[1..] == a[1..] + b;
      calc {
        Filter(all, keep);
        head + Filter(all[1..], keep);
        head + (left + right);
        head + left + right;
        Filter(a, keep) + right;
      }
    }
  }

  lemma {:induction false} FilterSorted<T(!new)>(s: seq<T>, keep: T -> bool, leq: (T, T) -> bool)
    requires SortedBy(s, leq)
    ensures SortedBy(Filter(s, keep), leq)
  {
    if s != [] {
      FilterSorted(s[1..], keep, leq);
      FilterMembers(s[1..], keep);
      var rest := Filter(s[1..], keep);
      forall j | 0 <= j < |rest| ensures leq(s[0], rest[j]) {
        assert rest[j] in rest && rest[j] in s[1..];
        var k :| 0 <= k < |s[1..]| && s[1..][k] == rest[j];
        assert leq(s[0], s[k + 1]);
      }
    }
  }

  function RemoveFirst<T(==)>(s: seq<T>, x: T): seq<T>
    requires x in s
  {
    if s[0] == x then s[1..] else [s[0]] + RemoveFirst(s[1..], x)
  }

  function Hits<T, U(==)>(f: T -> U, y: U): T -> bool {
    (x: T) => f(x) == y
  }

  lemma {:induction false} MapCount<T(!new), U(!new)>(s: seq<T>, f: T -> U, y: U)
    ensures multiset(Map(s, f))[y] == |Filter(s, Hits(f, y))|
  {
    if s != [] {
      MapCount(s[1..], f, y);
      assert Map(s, f) == [f(s[0])] + Map(s[1..], f);
    }
  }

  lemma MapForgetsOrder<T(!new), U(!new)>(a: seq<T>, b: seq<T>, f: T -> U)
    requires multiset(a) == multiset(b)
    ensures multiset(Map(a, f)) == multiset(Map(b, f))
  {
    var left, right := multiset(Map(a, f)), multiset(Map(b, f));
    forall y ensures left[y] == right[y] {
      MapCount(a, f, y);
      MapCount(b, f, y);
      FilterForgetsOrder(a, b, Hits(f, y));
      SameElements(Filter(a, Hits(f, y)), Filter(b, Hits(f, y)));
    }
    assert left == right;
  }

  lemma {:induction false} RemoveFirstElements<T(!new)>(s: seq<T>, x: T)
    requires x in s
    ensures multiset(s) == multiset{x} + multiset(RemoveFirst(s, x))
  {
    assert s == [s[0]] + s[1..];
    if s[0] != x {
      RemoveFirstElements(s[1..], x);
    }
  }

  lemma MapElements<T(!new), U(!new)>(s: seq<T>, f: T -> U, x: T)
    requires x in s
    ensures multiset(Map(s, f)) == multiset{f(x)} + multiset(Map(RemoveFirst(s, x), f))
  {
    var rest := RemoveFirst(s, x);
    RemoveFirstElements(s, x);
    MapForgetsOrder(s, [x] + rest, f);
    assert ([x] + rest)[1..] == rest;
    assert Map([x] + rest, f) == [f(x)] + Map(rest, f);
  }

  lemma {:induction false} DistinctElements<T(!new)>(s: seq<T>)
    ensures NoDuplicates(Distinct(s))
    ensures forall x :: x in Distinct(s) <==> x in s
  {
    if s != [] {
      DistinctElements(s[..|s| - 1]);
      assert s == s[..|s| - 1] + [s[|s| - 1]];
    }
  }

  lemma {:induction false} DistinctOfDistinct<T(!new)>(s: seq<T>)
    requires NoDuplicates(s)
    ensures Distinct(s) == s
  {
    if s != [] {
      var front := s[..|s| - 1];
      DistinctOfDistinct(front);
      assert s == front + [s[|s| - 1]];
    }
  }

  lemma NoDuplicatesTail<T(!new)>(s: seq<T>)
    requires s != [] && NoDuplicates(s)
    ensures NoDuplicates(s[1..]) && s[0] !in s[1..]
  {
  }

  lemma {:induction false} NoDuplicatesSize<T(!new)>(s: seq<T>)
    requires NoDuplicates(s)
    ensures |set x | x in s| == |s|
  {
    if s != [] {
      NoDuplicatesTail(s);
      NoDuplicatesSize(s[1..]);
      assert s == [s[0]] + s[1..];
      assert (set x | x in s) == {s[0]} + set x | x in s[1..];
    }
  }

  lemma {:induction false} NoDuplicatesCount<T(!new)>(s: seq<T>, x: T)
    requires NoDuplicates(s) && x in s
    ensures multiset(s)[x] == 1
  {
    NoDuplicatesTail(s);
    assert s == [s[0]] + s[1..];
    if x == s[0] {
      assert x !in multiset(s[1..]);
    } else {
      NoDuplicatesCount(s[1..], x);
    }
  }

  lemma NoDuplicatesCardinality<T(!new)>(s: seq<T>)
    requires NoDuplicates(s)
    ensures |set x | x in s| == |s|
    ensures forall x :: x in s ==> multiset(s)[x] == 1
  {
    NoDuplicatesSize(s);
    forall x | x in s ensures multiset(s)[x] == 1 {
      NoDuplicatesCount(s, x);
    }
  }

  lemma {:induction false} CountsBoundDuplicates<T(!new)>(s: seq<T>)
    requires forall x :: multiset(s)[x] <= 1
    ensures NoDuplicates(s)
  {
    if s != [] {
      assert s == [s[0]] + s[1..];
      forall x ensures multiset(s[1..])[x] <= 1 {
        assert multiset(s)[x] <= 1;
      }
      CountsBoundDuplicates(s[1..]);
      assert multiset(s)[s[0]] <= 1;
      assert s[0] !in multiset(s[1..]);
      assert s[0] !in s[1..];
    }
  }

  lemma NoDuplicatesForgetsOrder<T(!new)>(a: seq<T>, b: seq<T>)
    requires NoDuplicates(a) && multiset(a) == multiset(b)
    ensures NoDuplicates(b)
  {
    NoDuplicatesCardinality(a);
    forall x ensures multiset(b)[x] <= 1 {
      assert x in a <==> x in multiset(a);
    }
    CountsBoundDuplicates(b);
  }

  /** Two duplicate-free sequences with the same members are rearrangements of each other. */
  lemma NoDuplicatesSameMembers<T(!new)>(a: seq<T>, b: seq<T>)
    requires NoDuplicates(a) && NoDuplicates(b) && forall x :: x in a <==> x in b
    ensures multiset(a) == multiset(b)
  {
    NoDuplicatesCardinality(a);
    NoDuplicatesCardinality(b);
    forall x ensures multiset(a)[x] == multiset(b)[x] {
      assert x in a <==> x in multiset(a);
      assert x in b <==> x in multiset(b);
    }
  }

  lemma {:induction false} FilterNoDuplicates<T(!new)>(s: seq<T>, keep: T -> bool)
    requires NoDuplicates(s)
    ensures NoDuplicates(Filter(s, keep))
  {
    if s != [] {
      FilterNoDuplicates(s[1..], keep);
      FilterMembers(s[1..], keep);
      assert s[0] !in s[1..];
    }
  }
}
