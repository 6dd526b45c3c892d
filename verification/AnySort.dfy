/** A stable sort at its most contrary, to tell what only insertion does from what every
    stable sort does. */
module AnySort {
  import opened Sorting
  import opened Sequences

  function Reversed<T>(s: seq<T>): seq<T> {
    seq(|s|, i requires 0 <= i < |s| => s[|s| - 1 - i])
  }

  lemma {:induction false} ReversedPermutes<T>(s: seq<T>)
    ensures multiset(Reversed(s)) == multiset(s)
  {
    if s != [] {
      ReversedPermutes(s[..|s| - 1]);
      assert Reversed(s) == [s[|s| - 1]] + Reversed(s[..|s| - 1]);
      assert s == s[..|s| - 1] + [s[|s| - 1]];
    }
  }

  /** A sort that keeps the promise and turns every list around that it promises nothing of. */
  ghost function Contrary<T(!new)>(less: (T, T) -> bool): seq<T> -> seq<T> {
    s => if WeakOrderOn(less, s) then Sort(less, s) else Reversed(s)
  }

  lemma ContraryIsStable<T(!new)>(less: (T, T) -> bool)
    requires Asymmetric(less)
    ensures Stable(less, Contrary(less))
  {
    forall s
      ensures StableOn(less, Contrary(less), s)
    {
      if WeakOrderOn(less, s) {
        SortIsStable(less, s);
      } else {
        ReversedPermutes(s);
      }
    }
  }

  lemma ReversedKeeps<T>(s: seq<T>)
    ensures Reversed(Reversed(s)) == s && forall x :: x in Reversed(s) <==> x in s
    ensures Distinct(s) ==> Distinct(Reversed(s))
  {
    forall x | x in s
      ensures x in Reversed(s)
    {
      var i :| 0 <= i < |s| && s[i] == x;
      assert Reversed(s)[|s| - 1 - i] == x;
    }
  }
}
