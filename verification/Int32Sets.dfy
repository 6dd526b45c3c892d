/** Source sets of a matrix target, carried as lists of 32-bit numbers. */
module Int32Sets {
  import opened Sorting
  import opened Sequences

  newtype int32 = x: int | -0x8000_0000 <= x < 0x8000_0000

  /** Narrowing to 32 bits wraps around. */
  function ToInt32(n: int): int32 {
    ((n + 0x8000_0000) % 0x1_0000_0000 - 0x8000_0000) as int32
  }

  function ToSet(s: seq<int32>): set<int32> {
    set x | x in s
  }

  lemma ToSetAppend(s: seq<int32>, x: int32)
    ensures ToSet(s + [x]) == ToSet(s) + {x}
  {
  }

  predicate Less(a: int32, b: int32) {
    a < b
  }

  function Unique(s: seq<int32>): seq<int32> {
    if s == [] then [] else AddNew(Unique(s[..|s| - 1]), s[|s| - 1])
  }

  /** The sorted list of a set of numbers. */
  function Canon(s: seq<int32>): seq<int32> {
    Sort(Less, Unique(s))
  }

  method Dedup(s: seq<int32>) returns (out: seq<int32>)
    ensures out == Canon(s)
  {
    out := [];
    var seen: set<int32> := {};
    for i := 0 to |s|
      invariant out == Unique(s[..i]) && seen == ToSet(out)
    {
      assert s[..i + 1][..i] == s[..i];
      if s[i] !in seen {
        seen := seen + {s[i]};
        out := out + [s[i]];
      }
    }
    assert s[..|s|] == s;
    out := Sort(Less, out);
  }

  function Outside(b: seq<int32>): int32 -> bool {
    x => x !in b
  }

  /** The numbers of `a` that are not in `b`, in order. */
  function Minus(a: seq<int32>, b: seq<int32>): seq<int32> {
    Filter(Outside(b), a)
  }

  method Subtract(a: seq<int32>, b: seq<int32>) returns (out: seq<int32>)
    ensures out == Minus(a, b)
  {
    out := [];
    for i := 0 to |a|
      invariant out == Minus(a[..i], b)
    {
      assert a[..i + 1][..i] == a[..i];
      if a[i] !in b {
        out := out + [a[i]];
      }
    }
    assert a[..|a|] == a;
  }

  method EqualSorted(a: seq<int32>, b: seq<int32>) returns (same: bool)
    ensures same <==> a == b
  {
    if |a| != |b| {
      return false;
    }
    for i := 0 to |a|
      invariant a[..i] == b[..i]
    {
      if a[i] != b[i] {
        return false;
      }
    }
    return true;
  }

  lemma {:induction false} UniqueSet(s: seq<int32>)
    ensures ToSet(Unique(s)) == ToSet(s) && Distinct(Unique(s))
  {
    if s != [] {
      var front, last := s[..|s| - 1], s[|s| - 1];
      UniqueSet(front);
      assert s == front + [last];
      ToSetAppend(front, last);
      ToSetAppend(Unique(front), last);
      assert last in ToSet(Unique(front)) <==> last in Unique(front);
    }
  }

  lemma CanonSet(s: seq<int32>)
    ensures ToSet(Canon(s)) == ToSet(s) && Distinct(Canon(s))
  {
    UniqueSet(s);
    SortPermutes(Less, Unique(s));
    DistinctSort(Less, Unique(s));
  }

  /** Canonical lists are equal exactly when the sets are. */
  lemma CanonEqualIff(s: seq<int32>, t: seq<int32>)
    ensures Canon(s) == Canon(t) <==> ToSet(s) == ToSet(t)
  {
    CanonSet(s);
    CanonSet(t);
    if ToSet(s) == ToSet(t) {
      UniqueSet(s);
      UniqueSet(t);
      forall x
        ensures x in Unique(s) <==> x in Unique(t)
      {
        assert x in Unique(s) <==> x in ToSet(Unique(s));
        assert x in Unique(t) <==> x in ToSet(Unique(t));
      }
      SameElements(Unique(s), Unique(t));
      SortForgetsOrder(Less, Unique(s), Unique(t));
    }
  }

  lemma MinusSet(a: seq<int32>, b: seq<int32>)
    ensures ToSet(Minus(a, b)) == ToSet(a) - ToSet(b)
  {
    forall x
      ensures x in ToSet(Minus(a, b)) <==> x in ToSet(a) - ToSet(b)
    {
      FilterMember(Outside(b), a, x);
    }
  }

  lemma {:induction false} SetNotLarger(s: seq<int32>)
    ensures |ToSet(s)| <= |s|
  {
    if s != [] {
      var front, last := s[..|s| - 1], s[|s| - 1];
      assert s == front + [last];
      SetNotLarger(front);
      ToSetAppend(front, last);
    }
  }

  lemma SubsetSize(a: set<int32>, b: set<int32>)
    requires a <= b
    ensures |a| <= |b|
  {
    assert b == a + (b - a);
  }
}
