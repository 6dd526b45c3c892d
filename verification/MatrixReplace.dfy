/** Replacing one source by another on every target of a matrix that carries it. */
module MatrixReplace {
  import opened Sorting
  import opened Int32Sets
  import opened Converge
  import opened Connections
  import opened MatrixPlan

  function Swapped(s: seq<int32>, from: int32, to: int32): seq<int32> {
    seq(|s|, i requires 0 <= i < |s| => if s[i] == from then to else s[i])
  }

  /** The actions of one target; NtoM connects and disconnects, every other rule takes the
      new sources whole. */
  function StepsOf(behavior: Behavior, ts: TargetState, from: int32, to: int32): seq<XpointChange> {
    var have := Canon(ts.sources);
    var want := Canon(Swapped(have, from, to));
    if from !in ts.sources then []
    else if behavior == NToM then Incremental(ts.target, want, have)
    else Take(ts.target, want, have)
  }

  function RawPlan(behavior: Behavior, snap: seq<TargetState>, from: int32, to: int32): seq<XpointChange> {
    if snap == [] then []
    else RawPlan(behavior, snap[..|snap| - 1], from, to) + StepsOf(behavior, snap[|snap| - 1], from, to)
  }

  predicate TargetLess(a: XpointChange, b: XpointChange) {
    a.target < b.target
  }

  function ReplacePlan(behavior: Behavior, snap: seq<TargetState>, from: int32, to: int32): seq<XpointChange> {
    Sort(TargetLess, RawPlan(behavior, snap, from, to))
  }

  method Contains(xs: seq<int32>, v: int32) returns (found: bool)
    ensures found <==> v in xs
  {
    for i := 0 to |xs|
      invariant v !in xs[..i]
    {
      if xs[i] == v {
        return true;
      }
    }
    return false;
  }

  method ReplaceTarget(behavior: Behavior, ts: TargetState, from: int32, to: int32) returns (steps: seq<XpointChange>)
    ensures steps == StepsOf(behavior, ts, from, to)
  {
    var carried := Contains(ts.sources, from);
    if !carried {
      return [];
    }
    var have := Dedup(ts.sources);
    var want: seq<int32> := [];
    for i := 0 to |have|
      invariant want == Swapped(have[..i], from, to)
    {
      var s := have[i];
      if s == from {
        s := to;
      }
      want := want + [s];
    }
    assert have[..|have|] == have;
    want := Dedup(want);
    if behavior == NToM {
      steps := IncrementalSteps(ts.target, want, have);
    } else {
      steps := [XpointChange(ts.target, want, Absolute, have, want)];
    }
  }

  method PlanReplace(behavior: Behavior, snap: seq<TargetState>, from: int32, to: int32)
    returns (out: seq<XpointChange>)
    ensures out == ReplacePlan(behavior, snap, from, to)
  {
    out := [];
    for i := 0 to |snap|
      invariant out == RawPlan(behavior, snap[..i], from, to)
    {
      assert snap[..i + 1][..i] == snap[..i];
      var steps := ReplaceTarget(behavior, snap[i], from, to);
      out := out + steps;
    }
    assert snap[..|snap|] == snap;
    out := Sort(TargetLess, out);
  }

  // ---- what the plan does ----

  /** The sources with `from` replaced by `to`; without `from`, as they are. */
  function SwappedSet(s: set<int32>, from: int32, to: int32): set<int32> {
    if from in s then s - {from} + {to} else s
  }

  lemma SwappedSetOf(s: seq<int32>, from: int32, to: int32)
    ensures ToSet(Swapped(s, from, to)) == SwappedSet(ToSet(s), from, to)
  {
    var w := Swapped(s, from, to);
    forall x
      ensures x in ToSet(w) <==> x in SwappedSet(ToSet(s), from, to)
    {
      if x in w {
        var i :| 0 <= i < |w| && w[i] == x;
        assert s[i] in s;
      }
      if x in s && x != from {
        var i :| 0 <= i < |s| && s[i] == x;
        assert w[i] == x;
      }
      if from in s && x == to {
        var i :| 0 <= i < |s| && s[i] == from;
        assert w[i] == x;
      }
    }
  }

  ghost predicate DistinctTargets(snap: seq<TargetState>) {
    forall i, j :: 0 <= i < j < |snap| ==> snap[i].target != snap[j].target
  }

  lemma StepsTarget(behavior: Behavior, ts: TargetState, from: int32, to: int32, a: XpointChange)
    requires a in StepsOf(behavior, ts, from, to)
    ensures a.target == ts.target
  {
    var have := Canon(ts.sources);
    if behavior == NToM {
      IncrementalTarget(ts.target, Canon(Swapped(have, from, to)), have, a);
    }
  }

  lemma StepsShare(behavior: Behavior, ts: TargetState, from: int32, to: int32, t: int32)
    ensures var steps := StepsOf(behavior, ts, from, to);
      Filter(On(t), steps) == if t == ts.target then steps else []
  {
    forall a | a in StepsOf(behavior, ts, from, to)
      ensures a.target == ts.target
    {
      StepsTarget(behavior, ts, from, to, a);
    }
    OneTargetShare(StepsOf(behavior, ts, from, to), ts.target, t);
  }

  lemma {:induction false} RawShare(behavior: Behavior, snap: seq<TargetState>, from: int32, to: int32, t: int32)
    requires DistinctTargets(snap)
    ensures Filter(On(t), RawPlan(behavior, snap, from, to))
      == StepsOf(behavior, TargetState(t, ListOf(snap, t)), from, to)
  {
    if snap != [] {
      var front, last := snap[..|snap| - 1], snap[|snap| - 1];
      RawShare(behavior, front, from, to, t);
      StepsShare(behavior, last, from, to, t);
      FilterConcat(On(t), RawPlan(behavior, front, from, to), StepsOf(behavior, last, from, to));
      if last.target == t {
        NotListed(front, t);
      }
    }
  }

  lemma {:induction false} NotListed(snap: seq<TargetState>, t: int32)
    requires forall i :: 0 <= i < |snap| ==> snap[i].target != t
    ensures ListOf(snap, t) == []
  {
    if snap != [] {
      NotListed(snap[..|snap| - 1], t);
    }
  }

  /** Ordering the plan by target keeps each target's actions, in their order. */
  lemma PlanShareOf(behavior: Behavior, snap: seq<TargetState>, from: int32, to: int32, t: int32)
    requires DistinctTargets(snap)
    ensures Filter(On(t), ReplacePlan(behavior, snap, from, to))
      == StepsOf(behavior, TargetState(t, ListOf(snap, t)), from, to)
  {
    var raw := RawPlan(behavior, snap, from, to);
    RawShare(behavior, snap, from, to, t);
    FilterSort(TargetLess, On(t), raw);
    SortOfChain(TargetLess, Filter(On(t), raw));
  }

  /** The stages of a target's actions. */
  lemma SwapStages(behavior: Behavior, t: int32, held: seq<int32>, from: int32, to: int32, m: nat)
    requires m <= |StepsOf(behavior, TargetState(t, held), from, to)|
    ensures var steps := StepsOf(behavior, TargetState(t, held), from, to);
      var s := RunSet(ToSet(held), steps[..m]);
      && (m == |steps| ==> s == SwappedSet(ToSet(held), from, to))
      && (m == 0 ==> s == ToSet(held))
      && (s == ToSet(held) || s == ToSet(held) + SwappedSet(ToSet(held), from, to)
        || s == SwappedSet(ToSet(held), from, to))
      && (m > 0 && from != to ==> s != RunSet(ToSet(held), steps[..m - 1]))
  {
    var have := Canon(held);
    var want := Canon(Swapped(have, from, to));
    CanonSet(held);
    CanonSet(Swapped(have, from, to));
    SwappedSetOf(have, from, to);
    assert from in held <==> from in ToSet(held);
    var steps := StepsOf(behavior, TargetState(t, held), from, to);
    assert steps[..0] == [];
    if from in held {
      assert from != to ==> from !in SwappedSet(ToSet(held), from, to);
      if behavior == NToM {
        IncrementalStages(t, want, have, m);
      } else if m > 0 {
        assert steps[..1] == steps;
        assert steps[..1][..0] == [];
      }
    }
  }

  /** Under every rule of the matrix the run replaces `from` by `to` on the targets that
      carried it and leaves the others alone; at every point of it the sources that stay
      are connected. */
  lemma ReplaceConverges(behavior: Behavior, snap: seq<TargetState>, from: int32, to: int32, c: Conns, t: int32)
    requires DistinctTargets(snap) && Shows(snap, c)
    ensures var plan := ReplacePlan(behavior, snap, from, to);
      && Sources(Run(c, plan), t) == SwappedSet(Sources(c, t), from, to)
      && (forall n :: 0 <= n <= |plan| ==> Sources(c, t) - {from} <= Sources(Run(c, plan[..n]), t))
  {
    var plan := ReplacePlan(behavior, snap, from, to);
    PlanShareOf(behavior, snap, from, to, t);
    assert plan[..|plan|] == plan;
    forall n | 0 <= n <= |plan|
      ensures Sources(c, t) - {from} <= Sources(Run(c, plan[..n]), t)
      ensures n == |plan| ==> Sources(Run(c, plan[..n]), t) == SwappedSet(Sources(c, t), from, to)
    {
      PartWay(c, plan, n, t);
      SwapStages(behavior, t, ListOf(snap, t), from, to, |Filter(On(t), plan[..n])|);
    }
    assert 0 <= |plan| <= |plan|;
  }

  /** The rule of the matrix decides how the sources are replaced, not what they become. */
  lemma BehaviorIndependent(a: Behavior, b: Behavior, snap: seq<TargetState>, from: int32, to: int32, c: Conns,
                            t: int32)
    requires DistinctTargets(snap) && Shows(snap, c)
    ensures Sources(Run(c, ReplacePlan(a, snap, from, to)), t) == Sources(Run(c, ReplacePlan(b, snap, from, to)), t)
  {
    ReplaceConverges(a, snap, from, to, c, t);
    ReplaceConverges(b, snap, from, to, c, t);
  }

  /** The action changes the sources of its target at the point it is sent. */
  ghost predicate Acts(c: Conns, plan: seq<XpointChange>, n: nat)
    requires n < |plan|
  {
    Sources(Run(c, plan[..n + 1]), plan[n].target) != Sources(Run(c, plan[..n]), plan[n].target)
  }

  lemma ReplaceActs(behavior: Behavior, snap: seq<TargetState>, from: int32, to: int32, c: Conns, n: nat)
    requires DistinctTargets(snap) && Shows(snap, c) && from != to && n < |ReplacePlan(behavior, snap, from, to)|
    ensures Acts(c, ReplacePlan(behavior, snap, from, to), n)
  {
    var plan := ReplacePlan(behavior, snap, from, to);
    var t := plan[n].target;
    NextOnTarget(plan, n);
    PlanShareOf(behavior, snap, from, to, t);
    PartWay(c, plan, n, t);
    PartWay(c, plan, n + 1, t);
    SwapStages(behavior, t, ListOf(snap, t), from, to, |Filter(On(t), plan[..n + 1])|);
  }

  lemma IdleTake(behavior: Behavior, snap: seq<TargetState>, same: int32, c: Conns, n: nat)
    requires DistinctTargets(snap) && Shows(snap, c) && n < |ReplacePlan(behavior, snap, same, same)|
    ensures !Acts(c, ReplacePlan(behavior, snap, same, same), n)
  {
    var plan := ReplacePlan(behavior, snap, same, same);
    var t := plan[n].target;
    PlanShareOf(behavior, snap, same, same, t);
    PartWay(c, plan, n, t);
    PartWay(c, plan, n + 1, t);
    SameThroughout(behavior, t, ListOf(snap, t), same, |Filter(On(t), plan[..n])|);
    SameThroughout(behavior, t, ListOf(snap, t), same, |Filter(On(t), plan[..n + 1])|);
  }

  lemma SameThroughout(behavior: Behavior, t: int32, held: seq<int32>, same: int32, m: nat)
    requires m <= |StepsOf(behavior, TargetState(t, held), same, same)|
    ensures RunSet(ToSet(held), StepsOf(behavior, TargetState(t, held), same, same)[..m]) == ToSet(held)
  {
    SwapStages(behavior, t, held, same, same, m);
    assert SwappedSet(ToSet(held), same, same) == ToSet(held);
  }

  /** The narrowed numbers decide: actions that change nothing are sent exactly when the two
      are one and something is sent at all. */
  lemma EveryReplaceActsIff(behavior: Behavior, snap: seq<TargetState>, from: int32, to: int32, c: Conns)
    requires DistinctTargets(snap) && Shows(snap, c)
    ensures var plan := ReplacePlan(behavior, snap, from, to);
      (forall n :: 0 <= n < |plan| ==> Acts(c, plan, n)) <==> from != to || plan == []
  {
    var plan := ReplacePlan(behavior, snap, from, to);
    if from != to {
      forall n | 0 <= n < |plan|
        ensures Acts(c, plan, n)
      {
        ReplaceActs(behavior, snap, from, to, c, n);
      }
    } else if plan != [] {
      IdleTake(behavior, snap, from, c, 0);
    }
  }

  lemma StepsEmptyIff(behavior: Behavior, ts: TargetState, from: int32, to: int32)
    ensures StepsOf(behavior, ts, from, to) == [] <==> from !in ts.sources || (behavior == NToM && from == to)
  {
    if from in ts.sources && behavior == NToM {
      var have := Canon(ts.sources);
      var want := Canon(Swapped(have, from, to));
      CanonSet(ts.sources);
      CanonSet(Swapped(have, from, to));
      SwappedSetOf(have, from, to);
      assert from in ToSet(ts.sources);
      if from == to {
        MinusSet(want, have);
        MinusSet(have, want);
        NonEmptySet(Minus(want, have));
        NonEmptySet(Minus(have, want));
      } else {
        assert from !in ToSet(want);
        IncrementalStages(ts.target, want, have, |Incremental(ts.target, want, have)|);
        IncrementalStages(ts.target, want, have, 0);
      }
    }
  }

  /** No target carries the source. */
  ghost predicate NoneCarries(snap: seq<TargetState>, from: int32) {
    forall i :: 0 <= i < |snap| ==> from !in snap[i].sources
  }

  lemma {:induction false} RawNothing(behavior: Behavior, snap: seq<TargetState>, from: int32, to: int32)
    requires (behavior == NToM && from == to) || NoneCarries(snap, from)
    ensures RawPlan(behavior, snap, from, to) == []
  {
    if snap != [] {
      RawNothing(behavior, snap[..|snap| - 1], from, to);
      StepsEmptyIff(behavior, snap[|snap| - 1], from, to);
    }
  }

  lemma {:induction false} RawSomething(behavior: Behavior, snap: seq<TargetState>, from: int32, to: int32, i: nat)
    requires !(behavior == NToM && from == to) && i < |snap| && from in snap[i].sources
    ensures RawPlan(behavior, snap, from, to) != []
  {
    if i == |snap| - 1 {
      StepsEmptyIff(behavior, snap[i], from, to);
    } else {
      RawSomething(behavior, snap[..|snap| - 1], from, to, i);
    }
  }

  lemma RawEmptyIff(behavior: Behavior, snap: seq<TargetState>, from: int32, to: int32)
    ensures RawPlan(behavior, snap, from, to) == [] <==> (behavior == NToM && from == to) || NoneCarries(snap, from)
  {
    if (behavior == NToM && from == to) || NoneCarries(snap, from) {
      RawNothing(behavior, snap, from, to);
    } else {
      var i :| 0 <= i < |snap| && from in snap[i].sources;
      RawSomething(behavior, snap, from, to, i);
    }
  }

  ghost predicate CarriedBy(c: Conns, from: int32) {
    exists t :: from in Sources(c, t)
  }

  lemma CarriedIff(snap: seq<TargetState>, c: Conns, from: int32)
    requires DistinctTargets(snap) && Shows(snap, c)
    ensures CarriedBy(c, from) <==> !NoneCarries(snap, from)
  {
    if t :| from in Sources(c, t) {
      assert from in ToSet(ListOf(snap, t));
      ListedSomewhere(snap, t);
    }
    if i :| 0 <= i < |snap| && from in snap[i].sources {
      ListedOnce(snap, i);
      assert from in ToSet(ListOf(snap, snap[i].target));
    }
  }

  lemma {:induction false} ListedSomewhere(snap: seq<TargetState>, t: int32)
    requires ListOf(snap, t) != []
    ensures exists i :: 0 <= i < |snap| && snap[i].target == t && snap[i].sources == ListOf(snap, t)
  {
    if snap[|snap| - 1].target != t {
      ListedSomewhere(snap[..|snap| - 1], t);
    }
  }

  /** A second run, from any new snapshot, is empty exactly when the narrowed numbers differ,
      or the matrix is many-to-many, or nothing carried the source. */
  lemma ReplaceRunTwiceIsZeroIff(behavior: Behavior, snap: seq<TargetState>, from: int32, to: int32, c: Conns,
                                 again: seq<TargetState>)
    requires DistinctTargets(snap) && Shows(snap, c)
    requires DistinctTargets(again) && Shows(again, Run(c, ReplacePlan(behavior, snap, from, to)))
    ensures ReplacePlan(behavior, again, from, to) == [] <==> from != to || behavior == NToM || !CarriedBy(c, from)
  {
    PlanEmptyIff(behavior, again, from, to, Run(c, ReplacePlan(behavior, snap, from, to)));
    StillCarriedIff(behavior, snap, from, to, c);
  }

  lemma PlanEmptyIff(behavior: Behavior, snap: seq<TargetState>, from: int32, to: int32, c: Conns)
    requires DistinctTargets(snap) && Shows(snap, c)
    ensures ReplacePlan(behavior, snap, from, to) == [] <==> (behavior == NToM && from == to) || !CarriedBy(c, from)
  {
    SortPermutes(TargetLess, RawPlan(behavior, snap, from, to));
    assert |ReplacePlan(behavior, snap, from, to)| == |RawPlan(behavior, snap, from, to)|;
    RawEmptyIff(behavior, snap, from, to);
    CarriedIff(snap, c, from);
  }

  lemma StillCarriedIff(behavior: Behavior, snap: seq<TargetState>, from: int32, to: int32, c: Conns)
    requires DistinctTargets(snap) && Shows(snap, c)
    ensures CarriedBy(Run(c, ReplacePlan(behavior, snap, from, to)), from) <==> from == to && CarriedBy(c, from)
  {
    var after := Run(c, ReplacePlan(behavior, snap, from, to));
    forall t
      ensures from in Sources(after, t) <==> from == to && from in Sources(c, t)
    {
      ReplaceConverges(behavior, snap, from, to, c, t);
    }
  }

  // ---- the numbers of the command line ----

  const SPAN := 0x1_0000_0000

  lemma SameNumberIff(a: int, b: int)
    ensures ToInt32(a) == ToInt32(b) <==> (a - b) % SPAN == 0
  {
    var x, y := (a + 0x8000_0000) % SPAN, (b + 0x8000_0000) % SPAN;
    var m, n := (a + 0x8000_0000) / SPAN, (b + 0x8000_0000) / SPAN;
    assert a - b == (m - n) * SPAN + (x - y);
    if x == y {
      MultipleOfSpan(m - n);
    } else if (a - b) % SPAN == 0 {
      var k := (a - b) / SPAN;
      assert x - y == (k - (m - n)) * SPAN;
      OnlyZero(k - (m - n), x - y);
    }
  }

  lemma MultipleOfSpan(k: int)
    ensures (k * SPAN) % SPAN == 0
  {
  }

  lemma OnlyZero(k: int, d: int)
    requires d == k * SPAN && -SPAN < d < SPAN
    ensures d == 0
  {
  }

  /** The source numbers with `from` replaced by `to`, none of them narrowed. */
  function WideSwapped(s: set<int>, from: int, to: int): set<int> {
    if from in s then s - {from} + {to} else s
  }

  /** Replacing the numbers as they are given does to a target what the command says. */
  ghost predicate ReplacedAsAsked(behavior: Behavior, snap: seq<TargetState>, from: int, to: int, c: Conns, t: int32) {
    DistinctTargets(snap) && Shows(snap, c) ==>
      Wide(Sources(Run(c, ReplacePlan(behavior, snap, ToInt32(from), ToInt32(to))), t))
        == WideSwapped(Wide(Sources(c, t)), from, to)
  }

  lemma WideSwap(s: set<int32>, from: int32, to: int32)
    ensures Wide(SwappedSet(s, from, to)) == WideSwapped(Wide(s), from as int, to as int)
  {
    forall n
      ensures n in Wide(SwappedSet(s, from, to)) <==> n in WideSwapped(Wide(s), from as int, to as int)
    {
      WideMember(SwappedSet(s, from, to), n);
      WideMember(s, n);
      WideMember(s, from as int);
    }
  }

  /** On every matrix the command replaces just the source it names by the one it names
      exactly when both numbers fit 32 bits, or the first does not and they differ by a
      multiple of 2^32: then nothing changes, as nothing carried it. */
  lemma ReplaceCommandConvergesIff(from: int, to: int)
    requires 0 <= from && 0 <= to && from != to
    ensures (InRange(from) && InRange(to)) || (!InRange(from) && (from - to) % SPAN == 0)
       <==> forall behavior, snap, c, t :: ReplacedAsAsked(behavior, snap, from, to, c, t)
  {
    NarrowKeepsIff(from);
    NarrowKeepsIff(to);
    SameNumberIff(from, to);
    if (InRange(from) && InRange(to)) || (!InRange(from) && (from - to) % SPAN == 0) {
      forall behavior, snap, c, t
        ensures ReplacedAsAsked(behavior, snap, from, to, c, t)
      {
        AskedWithinRange(behavior, snap, from, to, c, t);
      }
    } else {
      LoneSourceMissed(from, to);
    }
  }

  lemma AskedWithinRange(behavior: Behavior, snap: seq<TargetState>, from: int, to: int, c: Conns, t: int32)
    requires (InRange(from) && InRange(to)) || (!InRange(from) && ToInt32(from) == ToInt32(to))
    ensures ReplacedAsAsked(behavior, snap, from, to, c, t)
  {
    if DistinctTargets(snap) && Shows(snap, c) {
      ReplaceConverges(behavior, snap, ToInt32(from), ToInt32(to), c, t);
      NarrowKeepsIff(from);
      NarrowKeepsIff(to);
      if InRange(from) {
        WideSwap(Sources(c, t), ToInt32(from), ToInt32(to));
      } else {
        WideMember(Sources(c, t), from);
        assert SwappedSet(Sources(c, t), ToInt32(from), ToInt32(from)) == Sources(c, t);
      }
    }
  }

  /** A target that takes the narrowed number shows the difference. */
  lemma LoneSourceMissed(from: int, to: int)
    requires !(InRange(from) && InRange(to)) && (InRange(from) || ToInt32(from) != ToInt32(to))
    ensures !ReplacedAsAsked(OneToN, [TargetState(0, [ToInt32(from)])], from, to, map[0 := {ToInt32(from)}], 0)
  {
    var f, u := ToInt32(from), ToInt32(to);
    OneTargetShows(0, f);
    ReplaceConverges(OneToN, [TargetState(0, [f])], f, u, map[0 := {f}], 0);
    NarrowKeepsIff(from);
    NarrowKeepsIff(to);
    assert SwappedSet({f}, f, u) == {u};
    WideMember({u}, u as int);
    WideMember({u}, to);
    WideMember({f}, u as int);
    WideMember({f}, from);
  }

  /** The command compares the numbers before they are narrowed. Of two that it accepts as
      different, every action changes something, unless there is none, exactly when they do
      not differ by a multiple of 2^32; a second run sends nothing exactly when they do not,
      or the matrix is many-to-many, or nothing carried the source. */
  lemma ReplaceCommandSettlesIff(behavior: Behavior, snap: seq<TargetState>, from: int, to: int, c: Conns,
                                 again: seq<TargetState>)
    requires 0 <= from && 0 <= to && from != to
    requires DistinctTargets(snap) && Shows(snap, c)
    requires DistinctTargets(again) && Shows(again, Run(c, ReplacePlan(behavior, snap, ToInt32(from), ToInt32(to))))
    ensures var plan := ReplacePlan(behavior, snap, ToInt32(from), ToInt32(to));
      (forall n :: 0 <= n < |plan| ==> Acts(c, plan, n)) <==> (from - to) % SPAN != 0 || plan == []
    ensures ReplacePlan(behavior, again, ToInt32(from), ToInt32(to)) == []
       <==> (from - to) % SPAN != 0 || behavior == NToM || !CarriedBy(c, ToInt32(from))
  {
    SameNumberIff(from, to);
    EveryReplaceActsIff(behavior, snap, ToInt32(from), ToInt32(to), c);
    ReplaceRunTwiceIsZeroIff(behavior, snap, ToInt32(from), ToInt32(to), c, again);
  }

  /** Where target 0 takes only `from`, replacing it by itself sends an action that does
      nothing. */
  lemma OneTargetIdles(t: int32, from: int32)
    ensures var snap := [TargetState(t, [from])];
      var plan := ReplacePlan(OneToN, snap, from, from);
      |plan| > 0 && !Acts(map[t := {from}], plan, 0) && Shows(snap, map[t := {from}])
  {
    var snap, c := [TargetState(t, [from])], map[t := {from}];
    OneTargetShows(t, from);
    assert from in Sources(c, t);
    PlanEmptyIff(OneToN, snap, from, from, c);
    IdleTake(OneToN, snap, from, c, 0);
  }

  lemma OneTargetShows(t: int32, s: int32)
    ensures Shows([TargetState(t, [s])], map[t := {s}]) && DistinctTargets([TargetState(t, [s])])
  {
    var snap := [TargetState(t, [s])];
    assert snap[..0] == [] && ToSet([s]) == {s};
    forall u
      ensures ToSet(ListOf(snap, u)) == Sources(map[t := {s}], u)
    {
      assert ListOf([], u) == [];
    }
  }

  /** Replacing 1 by 4294967297 on a target that takes 1: the command takes the two for
      different sources and sends an action that does nothing. */
  lemma FarNumberIdles()
    ensures var plan := ReplacePlan(OneToN, [TargetState(0, [1])], ToInt32(1), ToInt32(4294967297));
      |plan| > 0 && !Acts(map[0 := {1}], plan, 0)
  {
    assert ToInt32(1) == 1 && ToInt32(4294967297) == 1;
    OneTargetIdles(0, 1);
  }

  lemma {:induction false} ListedOnce(snap: seq<TargetState>, i: nat)
    requires DistinctTargets(snap) && i < |snap|
    ensures ListOf(snap, snap[i].target) == snap[i].sources
  {
    if i < |snap| - 1 {
      assert snap[..|snap| - 1][i] == snap[i];
      ListedOnce(snap[..|snap| - 1], i);
    }
  }
}
