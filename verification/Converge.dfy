/** What one connection action makes of a target's sources. */
module Converge {
  import opened Sorting
  import opened Int32Sets

  datatype Op = Absolute | Connect | Disconnect

  function Outcome(op: Op, current: set<int32>, named: set<int32>): set<int32> {
    match op
    case Absolute => named
    case Connect => current + named
    case Disconnect => current - named
  }

  method Union(a: seq<int32>, b: seq<int32>) returns (out: seq<int32>)
    ensures ToSet(out) == ToSet(a) + ToSet(b) && a <= out
  {
    out := a;
    var seen := ToSet(a);
    for i := 0 to |b|
      invariant seen == ToSet(out) == ToSet(a) + ToSet(b[..i]) && a <= out
    {
      if b[i] !in seen {
        out := out + [b[i]];
        seen := seen + {b[i]};
      }
    }
  }

  method Difference(a: seq<int32>, remove: seq<int32>) returns (out: seq<int32>)
    ensures ToSet(out) == ToSet(a) - ToSet(remove)
  {
    out := [];
    for i := 0 to |a|
      invariant ToSet(out) == ToSet(a[..i]) - ToSet(remove)
    {
      assert a[..i + 1] == a[..i] + [a[i]];
      ToSetAppend(a[..i], a[i]);
      if a[i] !in remove {
        ToSetAppend(out, a[i]);
        out := out + [a[i]];
      }
    }
  }

  /** Equality of sets decided by their sizes and one inclusion. */
  method SetEqual(a: seq<int32>, b: seq<int32>) returns (same: bool)
    ensures same <==> ToSet(a) == ToSet(b)
  {
    var sa, sb := ToSet(a), ToSet(b);
    if |sa| != |sb| {
      return false;
    }
    for i := 0 to |a|
      invariant forall j :: 0 <= j < i ==> a[j] in sb
    {
      if a[i] !in sb {
        return false;
      }
    }
    if sa != sb {
      ProperSubsetSmaller(sa, sb);
    }
    return true;
  }

  lemma ProperSubsetSmaller(a: set<int32>, b: set<int32>)
    requires a <= b && a != b
    ensures |a| < |b|
  {
    assert exists x :: x in b && x !in a;
    var x :| x in b && x !in a;
    SubsetSize(a, b - {x});
  }

  /** Whether an action is needed, and the sources it leaves. */
  method MatrixConverge(current: seq<int32>, desired: seq<int32>, op: Op) returns (changed: bool, projected: seq<int32>)
    ensures ToSet(projected) == Outcome(op, ToSet(current), ToSet(desired))
    ensures op == Absolute ==> ToSet(projected) == ToSet(desired)
    ensures op == Connect ==> forall s :: s in projected <==> s in current || s in desired
    ensures op == Disconnect ==> forall s :: s in projected <==> s in current && s !in desired
    ensures changed <==> ToSet(projected) != ToSet(current)
  {
    match op {
      case Connect =>
        projected := Union(current, desired);
      case Disconnect =>
        projected := Difference(current, desired);
      case Absolute =>
        projected := desired;
    }
    assert forall s :: s in projected <==> s in ToSet(projected);
    var same := SetEqual(current, projected);
    changed := !same;
  }
}
