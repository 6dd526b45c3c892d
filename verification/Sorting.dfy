/** The stable sort the planners and exporters order their output with. The library
    routine is modelled by insertion: on a list that the comparison orders weakly the stable
    arrangement is unique (`StableArrangementIsSort`), so every stable sort returns the same.
    On other lists a stable sort promises no order; results that speak of one ask for IDs the
    comparison orders, and where three rows are shown to be out of order they are few enough
    for the library to sort by insertion (`LibrarySort`). */
module Sorting {

  /** Moves `x` left past every element it is less than. */
  function Insert<T>(less: (T, T) -> bool, s: seq<T>, x: T): seq<T> {
    if s == [] || !less(x, s[|s| - 1]) then s + [x]
    else Insert(less, s[..|s| - 1], x) + [s[|s| - 1]]
  }

  function Sort<T>(less: (T, T) -> bool, s: seq<T>): seq<T> {
    if s == [] then [] else Insert(less, Sort(less, s[..|s| - 1]), s[|s| - 1])
  }

  function Filter<T>(keep: T -> bool, s: seq<T>): seq<T> {
    if s == [] then []
    else Filter(keep, s[..|s| - 1]) + if keep(s[|s| - 1]) then [s[|s| - 1]] else []
  }

  ghost predicate Asymmetric<T(!new)>(less: (T, T) -> bool) {
    forall x, y :: less(x, y) ==> !less(y, x)
  }

  ghost predicate Splits<T>(less: (T, T) -> bool, x: T, y: T, z: T) {
    less(x, z) ==> less(x, y) || less(y, z)
  }

  /** On the elements of `s`, being incomparable is transitive as well. */
  ghost predicate WeakOrderOn<T(!new)>(less: (T, T) -> bool, s: seq<T>) {
    forall x, y, z {:trigger Splits(less, x, y, z)} :: x in s && y in s && z in s ==> Splits(less, x, y, z)
  }

  /** No element is less than its left neighbour. */
  ghost predicate Chain<T>(less: (T, T) -> bool, s: seq<T>) {
    forall i {:trigger s[i]} :: 0 < i < |s| ==> !less(s[i], s[i - 1])
  }

  ghost predicate InOrder<T>(less: (T, T) -> bool, s: seq<T>, i: int, j: int) {
    0 <= i < j < |s| ==> !less(s[j], s[i])
  }

  /** No element is less than any earlier one. */
  ghost predicate Sorted<T>(less: (T, T) -> bool, s: seq<T>) {
    forall i, j {:trigger InOrder(less, s, i, j)} :: InOrder(less, s, i, j)
  }

  lemma {:induction false} InsertPermutes<T>(less: (T, T) -> bool, s: seq<T>, x: T)
    ensures multiset(Insert(less, s, x)) == multiset(s) + multiset{x}
  {
    if s != [] && less(x, s[|s| - 1]) {
      InsertPermutes(less, s[..|s| - 1], x);
      assert s == s[..|s| - 1] + [s[|s| - 1]];
    }
  }

  lemma {:induction false} SortPermutes<T>(less: (T, T) -> bool, s: seq<T>)
    ensures multiset(Sort(less, s)) == multiset(s)
    ensures |Sort(less, s)| == |s|
    ensures forall x :: x in Sort(less, s) <==> x in s
  {
    if s != [] {
      SortPermutes(less, s[..|s| - 1]);
      InsertPermutes(less, Sort(less, s[..|s| - 1]), s[|s| - 1]);
      assert s == s[..|s| - 1] + [s[|s| - 1]];
    }
    assert |multiset(Sort(less, s))| == |multiset(s)|;
    forall x
      ensures x in Sort(less, s) <==> x in s
    {
      assert x in Sort(less, s) <==> x in multiset(Sort(less, s));
      assert x in s <==> x in multiset(s);
    }
  }

  lemma SortMember<T>(less: (T, T) -> bool, s: seq<T>, x: T)
    ensures x in Sort(less, s) <==> x in s
  {
    SortPermutes(less, s);
  }

  lemma {:induction false} InsertChains<T(!new)>(less: (T, T) -> bool, s: seq<T>, x: T)
    requires Asymmetric(less) && Chain(less, s)
    ensures Chain(less, Insert(less, s, x))
    ensures Insert(less, s, x) != []
    ensures var last := Insert(less, s, x)[|Insert(less, s, x)| - 1]; last == x || (s != [] && last == s[|s| - 1])
  {
    if s != [] && less(x, s[|s| - 1]) {
      InsertChains(less, s[..|s| - 1], x);
    }
  }

  /** Whatever the comparison, no neighbours come out in the wrong order. */
  lemma {:induction false} SortChains<T(!new)>(less: (T, T) -> bool, s: seq<T>)
    requires Asymmetric(less)
    ensures Chain(less, Sort(less, s))
  {
    if s != [] {
      SortChains(less, s[..|s| - 1]);
      InsertChains(less, Sort(less, s[..|s| - 1]), s[|s| - 1]);
    }
  }

  /** A sequence in order is left alone. */
  lemma {:induction false} SortOfChain<T>(less: (T, T) -> bool, s: seq<T>)
    requires Chain(less, s)
    ensures Sort(less, s) == s
  {
    if s != [] {
      SortOfChain(less, s[..|s| - 1]);
      assert s == s[..|s| - 1] + [s[|s| - 1]];
    }
  }

  lemma ChainSorted<T(!new)>(less: (T, T) -> bool, s: seq<T>)
    requires Asymmetric(less) && WeakOrderOn(less, s) && Chain(less, s)
    ensures Sorted(less, s)
  {
    forall i, j
      ensures InOrder(less, s, i, j)
    {
      if 0 <= i < j < |s| {
        ChainSpan(less, s, i, j);
      }
    }
  }

  lemma {:induction false} ChainSpan<T(!new)>(less: (T, T) -> bool, s: seq<T>, i: nat, j: nat)
    requires Asymmetric(less) && WeakOrderOn(less, s) && Chain(less, s)
    requires i < j < |s|
    ensures !less(s[j], s[i])
    decreases j
  {
    if i + 1 < j {
      ChainSpan(less, s, i, j - 1);
      assert Splits(less, s[j], s[j - 1], s[i]);
    }
  }

  lemma SortSorts<T(!new)>(less: (T, T) -> bool, s: seq<T>)
    requires Asymmetric(less) && WeakOrderOn(less, s)
    ensures Sorted(less, Sort(less, s))
  {
    SortChains(less, s);
    SortPermutes(less, s);
    ChainSorted(less, Sort(less, s));
  }

  // ---- filtering ----

  lemma {:induction false} FilterMember<T>(keep: T -> bool, s: seq<T>, x: T)
    ensures x in Filter(keep, s) <==> x in s && keep(x)
  {
    if s != [] {
      FilterMember(keep, s[..|s| - 1], x);
      assert s == s[..|s| - 1] + [s[|s| - 1]];
    }
  }

  lemma {:induction false} FilterAll<T>(keep: T -> bool, s: seq<T>)
    requires forall x :: x in s ==> keep(x)
    ensures Filter(keep, s) == s
  {
    if s != [] {
      assert s == s[..|s| - 1] + [s[|s| - 1]];
      FilterAll(keep, s[..|s| - 1]);
    }
  }

  lemma {:induction false} FilterNone<T>(keep: T -> bool, s: seq<T>)
    requires forall x :: x in s ==> !keep(x)
    ensures Filter(keep, s) == []
  {
    if s != [] {
      assert s == s[..|s| - 1] + [s[|s| - 1]];
      FilterNone(keep, s[..|s| - 1]);
    }
  }

  lemma FilterLast<T>(keep: T -> bool, s: seq<T>, x: T)
    ensures Filter(keep, s + [x]) == if keep(x) then Filter(keep, s) + [x] else Filter(keep, s)
  {
    assert (s + [x])[..|s|] == s;
  }

  lemma {:induction false} FilterConcat<T>(keep: T -> bool, a: seq<T>, b: seq<T>)
    ensures Filter(keep, a + b) == Filter(keep, a) + Filter(keep, b)
  {
    if b == [] {
      assert a + b == a;
    } else {
      var front, last := b[..|b| - 1], b[|b| - 1];
      assert a + b == (a + front) + [last];
      FilterConcat(keep, a, front);
      FilterLast(keep, a + front, last);
    }
  }

  lemma {:induction false} FilterInsertPermutes<T>(less: (T, T) -> bool, keep: T -> bool, s: seq<T>, x: T)
    ensures multiset(Filter(keep, Insert(less, s, x)))
         == multiset(Filter(keep, s)) + if keep(x) then multiset{x} else multiset{}
  {
    if s == [] || !less(x, s[|s| - 1]) {
      FilterLast(keep, s, x);
    } else {
      FilterInsertPermutes(less, keep, s[..|s| - 1], x);
      FilterLast(keep, Insert(less, s[..|s| - 1], x), s[|s| - 1]);
    }
  }

  /** Whatever the comparison, sorting loses and repeats none of the kept elements. */
  lemma {:induction false} FilterSortPermutes<T>(less: (T, T) -> bool, keep: T -> bool, s: seq<T>)
    ensures multiset(Filter(keep, Sort(less, s))) == multiset(Filter(keep, s))
  {
    if s != [] {
      var front, last := s[..|s| - 1], s[|s| - 1];
      assert s == front + [last];
      FilterSortPermutes(less, keep, front);
      FilterInsertPermutes(less, keep, Sort(less, front), last);
      FilterLast(keep, front, last);
    }
  }

  lemma WeakOrderSubset<T(!new)>(less: (T, T) -> bool, s: seq<T>, t: seq<T>)
    requires WeakOrderOn(less, s) && forall x :: x in t ==> x in s
    ensures WeakOrderOn(less, t)
  {
  }

  lemma SortedFront<T>(less: (T, T) -> bool, s: seq<T>, n: nat)
    requires Sorted(less, s) && n <= |s|
    ensures Sorted(less, s[..n])
  {
    forall i, j
      ensures InOrder(less, s[..n], i, j)
    {
      assert InOrder(less, s, i, j);
    }
  }

  lemma InsertAppends<T(!new)>(less: (T, T) -> bool, keep: T -> bool, s: seq<T>, x: T)
    requires Sorted(less, s) && WeakOrderOn(less, s + [x])
    requires s == [] || !less(x, s[|s| - 1])
    ensures Insert(less, Filter(keep, s), x) == Filter(keep, s) + [x]
  {
    var kept := Filter(keep, s);
    if kept != [] {
      FilterMember(keep, s, kept[|kept| - 1]);
      LastBound(less, s, x, kept[|kept| - 1]);
    }
  }

  lemma InsertLast<T>(less: (T, T) -> bool, s: seq<T>, x: T, last: T)
    requires less(x, last)
    ensures Insert(less, s + [last], x) == Insert(less, s, x) + [last]
  {
    assert (s + [last])[..|s|] == s;
  }

  /** What is kept of a prefix is a prefix of what is kept. */
  lemma {:induction false} FilterPrefix<T>(keep: T -> bool, s: seq<T>, n: nat)
    requires n <= |s|
    ensures |Filter(keep, s[..n])| <= |Filter(keep, s)|
    ensures Filter(keep, s[..n]) == Filter(keep, s)[..|Filter(keep, s[..n])|]
  {
    if n < |s| {
      FilterPrefix(keep, s[..|s| - 1], n);
      assert s[..|s| - 1][..n] == s[..n];
    } else {
      assert s[..n] == s;
    }
  }

  /** Inserting and then filtering is filtering and then inserting. */
  lemma {:induction false} FilterInsert<T(!new)>(less: (T, T) -> bool, keep: T -> bool, s: seq<T>, x: T)
    requires Sorted(less, s) && WeakOrderOn(less, s + [x])
    ensures Filter(keep, Insert(less, s, x))
         == if keep(x) then Insert(less, Filter(keep, s), x) else Filter(keep, s)
  {
    if s == [] || !less(x, s[|s| - 1]) {
      FilterLast(keep, s, x);
      InsertAppends(less, keep, s, x);
    } else {
      var front, last := s[..|s| - 1], s[|s| - 1];
      assert Insert(less, s, x) == Insert(less, front, x) + [last];
      SortedFront(less, s, |s| - 1);
      WeakOrderSubset(less, s + [x], front + [x]);
      FilterInsert(less, keep, front, x);
      FilterLast(keep, Insert(less, front, x), last);
      InsertLast(less, Filter(keep, front), x, last);
      assert Filter(keep, s) == if keep(last) then Filter(keep, front) + [last] else Filter(keep, front);
    }
  }

  lemma LastBound<T(!new)>(less: (T, T) -> bool, s: seq<T>, x: T, e: T)
    requires Sorted(less, s) && WeakOrderOn(less, s + [x])
    requires s != [] && !less(x, s[|s| - 1]) && e in s
    ensures !less(x, e)
  {
    var i :| 0 <= i < |s| && s[i] == e;
    var last := s[|s| - 1];
    assert Splits(less, x, last, e);
    assert InOrder(less, s, i, |s| - 1);
  }

  /** Sorting commutes with dropping elements. */
  lemma {:induction false} FilterSort<T(!new)>(less: (T, T) -> bool, keep: T -> bool, s: seq<T>)
    requires Asymmetric(less) && WeakOrderOn(less, s)
    ensures Filter(keep, Sort(less, s)) == Sort(less, Filter(keep, s))
  {
    if s != [] {
      var front, last := s[..|s| - 1], s[|s| - 1];
      assert s == front + [last];
      FilterLast(keep, front, last);
      WeakOrderSubset(less, s, front);
      FilterSort(less, keep, front);
      SortSorts(less, front);
      SortPermutes(less, front);
      WeakOrderSubset(less, s, Sort(less, front) + [last]);
      FilterInsert(less, keep, Sort(less, front), last);
      if keep(last) {
        SortAppend(less, Filter(keep, front), last);
      }
    }
  }

  lemma SortAppend<T>(less: (T, T) -> bool, s: seq<T>, x: T)
    ensures Sort(less, s + [x]) == Insert(less, Sort(less, s), x)
  {
    assert (s + [x])[..|s|] == s;
  }

  // ---- one arrangement only ----

  ghost predicate TotalOn<T(!new)>(less: (T, T) -> bool, s: seq<T>) {
    forall x, y {:trigger less(x, y)} :: x in s && y in s && x != y ==> less(x, y) || less(y, x)
  }

  lemma SameLast<T(!new)>(less: (T, T) -> bool, s: seq<T>, t: seq<T>)
    requires TotalOn(less, s) && s != [] && t != []
    requires Sorted(less, s) && Sorted(less, t) && multiset(s) == multiset(t)
    ensures s[|s| - 1] == t[|t| - 1]
  {
    var x, y := s[|s| - 1], t[|t| - 1];
    assert x in multiset(t) && y in multiset(s);
    assert x in t && y in s;
    var i :| 0 <= i < |t| && t[i] == x;
    var j :| 0 <= j < |s| && s[j] == y;
    assert InOrder(less, t, i, |t| - 1) && InOrder(less, s, j, |s| - 1);
  }

  lemma WithoutLast<T>(s: seq<T>)
    requires s != []
    ensures s == s[..|s| - 1] + [s[|s| - 1]]
    ensures multiset(s[..|s| - 1]) == multiset(s) - multiset{s[|s| - 1]}
  {
    assert s == s[..|s| - 1] + [s[|s| - 1]];
  }

  /** Under a strict total order two sorted arrangements of the same elements agree. */
  lemma {:induction false} SortedUnique<T(!new)>(less: (T, T) -> bool, s: seq<T>, t: seq<T>)
    requires TotalOn(less, s)
    requires Sorted(less, s) && Sorted(less, t) && multiset(s) == multiset(t)
    ensures s == t
  {
    assert |s| == |multiset(s)| == |multiset(t)| == |t|;
    if s != [] {
      SameLast(less, s, t);
      var n := |s| - 1;
      WithoutLast(s);
      WithoutLast(t);
      SortedFront(less, s, n);
      SortedFront(less, t, n);
      SortedUnique(less, s[..n], t[..n]);
    }
  }

  /** Under a strict total order the arrival order of the elements is forgotten. */
  lemma SortForgetsOrder<T(!new)>(less: (T, T) -> bool, s: seq<T>, t: seq<T>)
    requires Asymmetric(less) && WeakOrderOn(less, s) && TotalOn(less, s)
    requires multiset(s) == multiset(t)
    ensures Sort(less, s) == Sort(less, t)
  {
    forall x
      ensures x in s <==> x in t
    {
      assert x in s <==> x in multiset(s);
      assert x in t <==> x in multiset(t);
    }
    SortSorts(less, s);
    SortSorts(less, t);
    SortPermutes(less, s);
    SortPermutes(less, t);
    SortedUnique(less, Sort(less, s), Sort(less, t));
  }

  // ---- changing elements in place ----

  function Mapped<T, U>(f: T -> U, s: seq<T>): seq<U> {
    if s == [] then [] else Mapped(f, s[..|s| - 1]) + [f(s[|s| - 1])]
  }

  lemma MappedLast<T, U>(f: T -> U, s: seq<T>, x: T)
    ensures Mapped(f, s + [x]) == Mapped(f, s) + [f(x)]
  {
    assert (s + [x])[..|s|] == s;
  }

  lemma {:induction false} MappedConcat<T, U>(f: T -> U, s: seq<T>, t: seq<T>)
    ensures Mapped(f, s + t) == Mapped(f, s) + Mapped(f, t)
  {
    if t == [] {
      assert s + t == s;
    } else {
      var front, last := t[..|t| - 1], t[|t| - 1];
      assert s + t == (s + front) + [last];
      MappedConcat(f, s, front);
      MappedLast(f, s + front, last);
    }
  }

  lemma {:induction false} MappedAt<T, U>(f: T -> U, s: seq<T>)
    ensures |Mapped(f, s)| == |s| && forall i :: 0 <= i < |s| ==> Mapped(f, s)[i] == f(s[i])
  {
    if s != [] {
      MappedAt(f, s[..|s| - 1]);
    }
  }

  /** The one comparison orders images as the other orders what they are images of. */
  ghost predicate Mirrors<T(!new), U>(less: (T, T) -> bool, lessU: (U, U) -> bool, f: T -> U) {
    forall x, y :: lessU(f(x), f(y)) == less(x, y)
  }

  lemma {:induction false} InsertMapped<T(!new), U>(less: (T, T) -> bool, lessU: (U, U) -> bool, f: T -> U, s: seq<T>,
                                                    x: T)
    requires Mirrors(less, lessU, f)
    ensures Insert(lessU, Mapped(f, s), f(x)) == Mapped(f, Insert(less, s, x))
  {
    if s == [] || !less(x, s[|s| - 1]) {
      MappedLast(f, s, x);
    } else {
      InsertMapped(less, lessU, f, s[..|s| - 1], x);
      var m := Mapped(f, s);
      assert m[..|m| - 1] == Mapped(f, s[..|s| - 1]) && m[|m| - 1] == f(s[|s| - 1]);
      MappedLast(f, Insert(less, s[..|s| - 1], x), s[|s| - 1]);
    }
  }

  lemma {:induction false} SortMapped<T(!new), U>(less: (T, T) -> bool, lessU: (U, U) -> bool, f: T -> U, s: seq<T>)
    requires Mirrors(less, lessU, f)
    ensures Sort(lessU, Mapped(f, s)) == Mapped(f, Sort(less, s))
  {
    if s != [] {
      SortMapped(less, lessU, f, s[..|s| - 1]);
      InsertMapped(less, lessU, f, Sort(less, s[..|s| - 1]), s[|s| - 1]);
    }
  }

  lemma BetweenMultiset<T>(a: seq<T>, x: T, b: seq<T>)
    ensures multiset((a + [x]) + b) == multiset(a + b) + multiset{x}
  {
  }

  lemma BetweenMapped<T, U>(f: T -> U, a: seq<T>, x: T, b: seq<T>)
    ensures multiset(Mapped(f, (a + [x]) + b)) == multiset(Mapped(f, a + b)) + multiset{f(x)}
  {
    MappedConcat(f, a, b);
    MappedConcat(f, a + [x], b);
    MappedLast(f, a, x);
    BetweenMultiset(Mapped(f, a), f(x), Mapped(f, b));
  }

  /** The images of a permutation are a permutation of the images. */
  lemma {:induction false} MapPermutes<T, U>(f: T -> U, s: seq<T>, t: seq<T>)
    requires multiset(s) == multiset(t)
    ensures multiset(Mapped(f, s)) == multiset(Mapped(f, t))
    decreases |s|
  {
    assert |s| == |multiset(s)| == |multiset(t)| == |t|;
    if s != [] {
      var last := s[|s| - 1];
      assert last in multiset(t);
      var i :| 0 <= i < |t| && t[i] == last;
      var a, b := t[..i], t[i + 1..];
      assert t == (a + [last]) + b;
      BetweenMultiset(a, last, b);
      WithoutLast(s);
      MapPermutes(f, s[..|s| - 1], a + b);
      BetweenMapped(f, a, last, b);
    }
  }

  // ---- what a stable sort promises ----

  function Peer<T>(less: (T, T) -> bool, x: T): T -> bool {
    y => !less(x, y) && !less(y, x)
  }

  ghost predicate SamePeers<T>(less: (T, T) -> bool, s: seq<T>, t: seq<T>, x: T) {
    Filter(Peer(less, x), s) == Filter(Peer(less, x), t)
  }

  /** `t` keeps every group of incomparable elements of `s` in its order. */
  ghost predicate KeepsPeers<T(!new)>(less: (T, T) -> bool, s: seq<T>, t: seq<T>) {
    forall x :: x in s ==> SamePeers(less, s, t, x)
  }

  /** The same elements, in order, equal ones in order of arrival. */
  ghost predicate StableArrangement<T(!new)>(less: (T, T) -> bool, s: seq<T>, t: seq<T>) {
    multiset(s) == multiset(t) && Sorted(less, t) && KeepsPeers(less, s, t)
  }

  ghost predicate StableOn<T(!new)>(less: (T, T) -> bool, sort: seq<T> -> seq<T>, s: seq<T>) {
    multiset(sort(s)) == multiset(s) && (WeakOrderOn(less, s) ==> StableArrangement(less, s, sort(s)))
  }

  /** What a library promises of its stable sort: a permutation, and the stable arrangement
      of any list on which the comparison is a weak order. Of other lists it promises no more. */
  ghost predicate Stable<T(!new)>(less: (T, T) -> bool, sort: seq<T> -> seq<T>) {
    forall s {:trigger StableOn(less, sort, s)} :: StableOn(less, sort, s)
  }

  lemma PeersFilter<T(!new)>(less: (T, T) -> bool, s: seq<T>, x: T)
    requires Asymmetric(less) && WeakOrderOn(less, s) && x in s
    ensures SamePeers(less, s, Sort(less, s), x)
  {
    var peers := Filter(Peer(less, x), s);
    FilterSort(less, Peer(less, x), s);
    forall i | 0 < i < |peers|
      ensures !less(peers[i], peers[i - 1])
    {
      FilterMember(Peer(less, x), s, peers[i]);
      FilterMember(Peer(less, x), s, peers[i - 1]);
      assert Splits(less, peers[i], x, peers[i - 1]);
    }
    SortOfChain(less, peers);
  }

  /** `Sort` keeps the promise. */
  lemma SortIsStable<T(!new)>(less: (T, T) -> bool, s: seq<T>)
    requires Asymmetric(less) && WeakOrderOn(less, s)
    ensures StableArrangement(less, s, Sort(less, s))
  {
    SortPermutes(less, s);
    SortSorts(less, s);
    forall x | x in s
      ensures SamePeers(less, s, Sort(less, s), x)
    {
      PeersFilter(less, s, x);
    }
  }

  /** The last elements of two orderings of the same elements are not comparable. */
  lemma LastsArePeers<T(!new)>(less: (T, T) -> bool, s: seq<T>, t: seq<T>)
    requires Sorted(less, s) && Sorted(less, t) && multiset(s) == multiset(t) && s != [] && t != []
    requires Asymmetric(less)
    ensures Peer(less, s[|s| - 1])(t[|t| - 1]) && Peer(less, s[|s| - 1])(s[|s| - 1])
  {
    var x, y := s[|s| - 1], t[|t| - 1];
    assert x in multiset(t) && y in multiset(s);
    var i :| 0 <= i < |t| && t[i] == x;
    var j :| 0 <= j < |s| && s[j] == y;
    assert InOrder(less, t, i, |t| - 1) && InOrder(less, s, j, |s| - 1);
  }

  lemma FilterEnds<T>(keep: T -> bool, s: seq<T>)
    requires s != [] && keep(s[|s| - 1])
    ensures var f := Filter(keep, s); f != [] && f[|f| - 1] == s[|s| - 1]
  {
  }

  lemma StableLast<T(!new)>(less: (T, T) -> bool, s: seq<T>, t: seq<T>)
    requires Asymmetric(less) && Sorted(less, s) && s != [] && StableArrangement(less, s, t)
    ensures t != [] && s[|s| - 1] == t[|t| - 1]
  {
    assert |s| == |multiset(s)| == |multiset(t)| == |t|;
    var x := s[|s| - 1];
    LastsArePeers(less, s, t);
    assert SamePeers(less, s, t, x);
    FilterEnds(Peer(less, x), s);
    FilterEnds(Peer(less, x), t);
  }

  lemma PeersInFronts<T>(less: (T, T) -> bool, s: seq<T>, t: seq<T>, x: T)
    requires s != [] && t != [] && s[|s| - 1] == t[|t| - 1] && SamePeers(less, s, t, x)
    ensures SamePeers(less, s[..|s| - 1], t[..|t| - 1], x)
  {
    var front, back, last := s[..|s| - 1], t[..|t| - 1], s[|s| - 1];
    WithoutLast(s);
    WithoutLast(t);
    FilterLast(Peer(less, x), front, last);
    FilterLast(Peer(less, x), back, last);
    var f, g := Filter(Peer(less, x), front), Filter(Peer(less, x), back);
    assert f == (f + [last])[..|f|] && g == (g + [last])[..|g|];
  }

  lemma FrontsStable<T(!new)>(less: (T, T) -> bool, s: seq<T>, t: seq<T>)
    requires s != [] && t != [] && s[|s| - 1] == t[|t| - 1] && StableArrangement(less, s, t)
    ensures StableArrangement(less, s[..|s| - 1], t[..|t| - 1])
  {
    WithoutLast(s);
    WithoutLast(t);
    SortedFront(less, t, |t| - 1);
    var front, back := s[..|s| - 1], t[..|t| - 1];
    forall x | x in front
      ensures SamePeers(less, front, back, x)
    {
      assert x in s && SamePeers(less, s, t, x);
      PeersInFronts(less, s, t, x);
    }
  }

  lemma {:induction false} SortedStable<T(!new)>(less: (T, T) -> bool, s: seq<T>, t: seq<T>)
    requires Asymmetric(less) && Sorted(less, s) && StableArrangement(less, s, t)
    ensures s == t
    decreases |s|
  {
    assert |s| == |multiset(s)| == |multiset(t)| == |t|;
    if s != [] {
      StableLast(less, s, t);
      FrontsStable(less, s, t);
      SortedFront(less, s, |s| - 1);
      SortedStable(less, s[..|s| - 1], t[..|t| - 1]);
      WithoutLast(s);
      WithoutLast(t);
    }
  }

  /** On a list that the comparison orders weakly, the stable arrangement is unique: it is
      the one `Sort` returns. */
  lemma StableArrangementIsSort<T(!new)>(less: (T, T) -> bool, s: seq<T>, t: seq<T>)
    requires Asymmetric(less) && WeakOrderOn(less, s) && StableArrangement(less, s, t)
    ensures t == Sort(less, s)
  {
    var u := Sort(less, s);
    SortIsStable(less, s);
    forall x | x in u
      ensures SamePeers(less, u, t, x)
    {
      assert x in multiset(u) && x in s;
      assert SamePeers(less, s, t, x) && SamePeers(less, s, u, x);
    }
    SortedStable(less, u, t);
  }

  lemma StableIsSort<T(!new)>(less: (T, T) -> bool, sort: seq<T> -> seq<T>, s: seq<T>)
    requires Asymmetric(less) && WeakOrderOn(less, s) && Stable(less, sort)
    ensures sort(s) == Sort(less, s)
  {
    assert StableOn(less, sort, s);
    StableArrangementIsSort(less, s, sort(s));
  }
}
