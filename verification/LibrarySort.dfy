/** The library's stable sort on lists of up to 21 elements: it sorts blocks of 20 by
    insertion and merges a block of one into the block before it by binary search. */
module LibrarySort {
  import opened Sorting

  /** Where the search between `i` and `j` finds the first element `x` is less than; right
      when the elements are ordered. */
  function Position<T>(less: (T, T) -> bool, s: seq<T>, x: T, i: nat, j: nat): (p: nat)
    requires i <= j <= |s|
    ensures i <= p <= j
    decreases j - i
  {
    if i == j then i
    else
      var h := (i + j) / 2;
      if !less(x, s[h]) then Position(less, s, x, h + 1, j) else Position(less, s, x, i, h)
  }

  function PutAt<T>(s: seq<T>, x: T, p: nat): seq<T>
    requires p <= |s|
  {
    s[..p] + [x] + s[p..]
  }

  function StableSort<T>(less: (T, T) -> bool, s: seq<T>): seq<T>
    requires |s| <= 21
  {
    if |s| <= 20 then Sort(less, s)
    else
      SortPermutes(less, s[..20]);
      var block := Sort(less, s[..20]);
      PutAt(block, s[20], Position(less, block, s[20], 0, 20))
  }

  lemma {:induction false} PositionAfter<T>(less: (T, T) -> bool, s: seq<T>, x: T, i: nat, j: nat)
    requires i <= j <= |s| && forall k :: i <= k < j ==> !less(x, s[k])
    ensures Position(less, s, x, i, j) == j
    decreases j - i
  {
    if i < j {
      PositionAfter(less, s, x, (i + j) / 2 + 1, j);
    }
  }

  /** A list of 21 whose first 20 have no neighbours out of order, and whose last element is
      less than the eleventh: the last element is moved somewhere before the eleventh. */
  lemma MovesLast<T(!new)>(less: (T, T) -> bool, s: seq<T>)
    requires |s| == 21 && Chain(less, s[..20]) && less(s[20], s[10])
    ensures exists p :: 0 <= p <= 10 && StableSort(less, s) == PutAt(s[..20], s[20], p)
    ensures (forall k :: 0 <= k < 10 ==> !less(s[20], s[k])) ==> StableSort(less, s) == PutAt(s[..20], s[20], 10)
  {
    var block, x := s[..20], s[20];
    SortOfChain(less, block);
    assert block[10] == s[10];
    var p := Position(less, block, x, 0, 10);
    assert Position(less, block, x, 0, 20) == p;
    assert StableSort(less, s) == PutAt(block, x, p);
    if forall k :: 0 <= k < 10 ==> !less(x, s[k]) {
      PositionAfter(less, block, x, 0, 10);
    }
  }

  function Bent<T>(s: seq<T>): seq<T>
    requires |s| == 21
  {
    PutAt(s[..20], s[20], 10)
  }

  lemma BentAt<T>(s: seq<T>, i: nat)
    requires |s| == 21 && i < 21
    ensures |Bent(s)| == 21
    ensures Bent(s)[i] == if i < 10 then s[i] else if i == 10 then s[20] else s[i - 1]
  {
  }

  function Came(i: nat): nat {
    if i < 10 then i else if i == 10 then 20 else i - 1
  }

  lemma BentKeeps<T>(s: seq<T>)
    requires |s| == 21 && forall i, j :: 0 <= i < j < 21 ==> s[i] != s[j]
    ensures |Bent(s)| == 21 && forall i, j :: 0 <= i < j < 21 ==> Bent(s)[i] != Bent(s)[j]
    ensures forall x :: x in Bent(s) ==> x in s
  {
    BentAt(s, 0);
    forall i | 0 <= i < 21
      ensures Bent(s)[i] == s[Came(i)]
    {
      BentAt(s, i);
    }
    forall i, j | 0 <= i < j < 21
      ensures Bent(s)[i] != Bent(s)[j]
    {
      assert Came(i) != Came(j);
    }
  }

  lemma ChainFront<T>(less: (T, T) -> bool, s: seq<T>)
    requires |s| == 21 && Chain(less, s)
    ensures Chain(less, s[..20])
  {
    forall i {:trigger s[..20][i]} | 0 < i < 20
      ensures !less(s[..20][i], s[..20][i - 1])
    {
      assert !less(s[i], s[i - 1]);
    }
  }

  lemma BentFrontChains<T>(less: (T, T) -> bool, s: seq<T>)
    requires |s| == 21 && Chain(less, s)
    requires !less(s[20], s[9]) && !less(s[10], s[20])
    ensures |Bent(s)| == 21 && Chain(less, Bent(s)[..20])
  {
    var r := Bent(s);
    BentAt(s, 0);
    forall i {:trigger r[..20][i]} | 0 < i < 20
      ensures !less(r[..20][i], r[..20][i - 1])
    {
      BentAt(s, i);
      BentAt(s, i - 1);
      if i < 10 {
        assert !less(s[i], s[i - 1]);
      } else if i > 11 {
        assert !less(s[i - 1], s[i - 2]);
      }
    }
  }

  lemma PutElsewhere<T>(s: seq<T>, p: nat)
    requires |s| == 21 && p <= 10 && forall i, j :: 0 <= i < j < 21 ==> s[i] != s[j]
    ensures PutAt(Bent(s)[..20], Bent(s)[20], p) != Bent(s)
  {
    BentAt(s, 20);
    BentAt(s, p);
    assert PutAt(Bent(s)[..20], Bent(s)[20], p)[p] == s[19];
  }

  /** Sorting twice is not sorting once. The list is a chain that bends back on itself: its
      last element belongs, by the comparison, both at the end and before the eleventh. */
  lemma TwiceDiffers<T(!new)>(less: (T, T) -> bool, s: seq<T>)
    requires |s| == 21 && Chain(less, s) && forall i, j :: 0 <= i < j < 21 ==> s[i] != s[j]
    requires less(s[20], s[10]) && forall k :: 0 <= k < 10 ==> !less(s[20], s[k])
    requires !less(s[10], s[20]) && less(s[19], s[20])
    ensures StableSort(less, s) == Bent(s)
    ensures |Bent(s)| == 21 && StableSort(less, Bent(s)) != Bent(s)
  {
    ChainFront(less, s);
    MovesLast(less, s);
    BentFrontChains(less, s);
    BentAt(s, 10);
    BentAt(s, 20);
    MovesLast(less, Bent(s));
    var p :| 0 <= p <= 10 && StableSort(less, Bent(s)) == PutAt(Bent(s)[..20], Bent(s)[20], p);
    PutElsewhere(s, p);
  }
}
