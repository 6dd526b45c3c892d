/** Sequences without repetition. */
module Sequences {
  import opened Sorting

  ghost predicate Distinct<T>(s: seq<T>) {
    forall i, j :: 0 <= i < j < |s| ==> s[i] != s[j]
  }

  function AddNew<T(==)>(s: seq<T>, x: T): seq<T> {
    if x in s then s else s + [x]
  }

  lemma FreshAt<T>(s: seq<T>, n: nat)
    requires Distinct(s) && n < |s|
    ensures s[n] !in s[..n]
    ensures s[..n + 1] == s[..n] + [s[n]]
  {
  }

  lemma DistinctConcat<T>(s: seq<T>, t: seq<T>)
    requires Distinct(s) && Distinct(t) && forall x :: x in s ==> x !in t
    ensures Distinct(s + t)
  {
    forall i, j | 0 <= i < j < |s + t|
      ensures (s + t)[i] != (s + t)[j]
    {
      if i < |s| {
        assert s[i] in s;
      }
    }
  }

  lemma {:induction false} DistinctCount<T>(s: seq<T>, x: T)
    requires Distinct(s)
    ensures multiset(s)[x] <= 1
  {
    if s != [] {
      DistinctCount(s[..|s| - 1], x);
      assert s == s[..|s| - 1] + [s[|s| - 1]];
    }
  }

  lemma TwiceCounts<T>(t: seq<T>, i: nat, j: nat)
    requires i < j < |t| && t[i] == t[j]
    ensures multiset(t)[t[i]] >= 2
  {
    assert t == t[..i] + [t[i]] + t[i + 1..j] + [t[j]] + t[j + 1..];
  }

  lemma DistinctSort<T(!new)>(less: (T, T) -> bool, s: seq<T>)
    requires Distinct(s)
    ensures Distinct(Sort(less, s))
  {
    var t := Sort(less, s);
    SortPermutes(less, s);
    forall i, j | 0 <= i < j < |t|
      ensures t[i] != t[j]
    {
      if t[i] == t[j] {
        DistinctCount(s, t[i]);
        TwiceCounts(t, i, j);
        assert false;
      }
    }
  }

  function Without<T>(t: seq<T>, i: nat): seq<T>
    requires i < |t|
  {
    t[..i] + t[i + 1..]
  }

  lemma WithoutMember<T>(t: seq<T>, i: nat, y: T)
    requires Distinct(t) && i < |t|
    ensures y in Without(t, i) <==> y in t && y != t[i]
  {
    var rest := Without(t, i);
    if y in rest {
      var k :| 0 <= k < |rest| && rest[k] == y;
      assert y == if k < i then t[k] else t[k + 1];
    }
    if y in t && y != t[i] {
      var k :| 0 <= k < |t| && t[k] == y;
      assert y == if k < i then rest[k] else rest[k - 1];
    }
  }

  lemma WithoutDistinct<T>(t: seq<T>, i: nat)
    requires Distinct(t) && i < |t|
    ensures Distinct(Without(t, i))
    ensures multiset(t) == multiset(Without(t, i)) + multiset{t[i]}
  {
    assert t == t[..i] + [t[i]] + t[i + 1..];
  }

  lemma EmptyOrInhabited<T>(t: seq<T>)
    ensures t == [] || exists x :: x in t
  {
    if t != [] {
      assert t[0] in t;
    }
  }

  /** Two repetition-free sequences of the same elements are permutations. */
  lemma {:induction false} SameElements<T>(s: seq<T>, t: seq<T>)
    requires Distinct(s) && Distinct(t) && forall x :: x in s <==> x in t
    ensures multiset(s) == multiset(t)
    decreases |s|
  {
    if s == [] {
      EmptyOrInhabited(t);
    } else {
      var n := |s| - 1;
      assert s[n] in t;
      var i :| 0 <= i < |t| && t[i] == s[n];
      WithoutDistinct(s, n);
      WithoutDistinct(t, i);
      forall y
        ensures y in Without(s, n) <==> y in Without(t, i)
      {
        WithoutMember(s, n, y);
        WithoutMember(t, i, y);
      }
      SameElements(Without(s, n), Without(t, i));
    }
  }

  // ---- the order of first appearance ----

  /** The elements once each, as they first appear. */
  function Firsts<T(==)>(s: seq<T>): seq<T> {
    if s == [] then [] else AddNew(Firsts(s[..|s| - 1]), s[|s| - 1])
  }

  lemma {:induction false} FirstsMember<T>(s: seq<T>, x: T)
    ensures x in Firsts(s) <==> x in s
  {
    if s != [] {
      assert s == s[..|s| - 1] + [s[|s| - 1]];
      FirstsMember(s[..|s| - 1], x);
    }
  }

  /** Whatever comes earlier among them appeared earlier. */
  lemma {:induction false} FirstsInOrder<T>(s: seq<T>, a: nat, b: nat, y: nat)
    requires a < b < |Firsts(s)| && y < |s| && s[y] == Firsts(s)[b]
    ensures exists x :: 0 <= x < y && s[x] == Firsts(s)[a]
  {
    var front, last := s[..|s| - 1], s[|s| - 1];
    FirstsMember(front, last);
    if y < |front| {
      assert front[y] in front;
      FirstsMember(front, front[y]);
      FirstsOnce(s);
      FirstsInOrder(front, a, b, y);
      var x :| 0 <= x < y && front[x] == Firsts(front)[a];
      assert s[x] == front[x];
    } else {
      FirstsOnce(s);
      FirstsMember(front, Firsts(s)[a]);
      var x :| 0 <= x < |front| && front[x] == Firsts(s)[a];
      assert s[x] == front[x];
    }
  }

  lemma {:induction false} FirstsOnce<T>(s: seq<T>)
    ensures Distinct(Firsts(s))
  {
    if s != [] {
      FirstsOnce(s[..|s| - 1]);
    }
  }

  lemma FirstsLast<T>(s: seq<T>, x: T)
    ensures Firsts(s + [x]) == AddNew(Firsts(s), x)
  {
    assert (s + [x])[..|s|] == s;
  }
}
