/** The connections of a matrix and what a list of connection actions does to them, seen
    target by target. */
module Connections {
  import opened Sorting
  import opened Int32Sets
  import opened Converge

  datatype TargetState = TargetState(target: int32, sources: seq<int32>)

  /** One converging action; `have` and `want` are the source sets it stands between. */
  datatype XpointChange = XpointChange(target: int32, sources: seq<int32>, op: Op, have: seq<int32>, want: seq<int32>)

  type Conns = map<int32, set<int32>>

  function Sources(c: Conns, t: int32): set<int32> {
    if t in c then c[t] else {}
  }

  /** The source list a snapshot gives a target; of two rows of one target the later counts. */
  function ListOf(live: seq<TargetState>, t: int32): seq<int32> {
    if live == [] then []
    else if live[|live| - 1].target == t then live[|live| - 1].sources
    else ListOf(live[..|live| - 1], t)
  }

  /** The connections a snapshot shows. */
  ghost predicate Shows(live: seq<TargetState>, c: Conns) {
    forall t :: ToSet(ListOf(live, t)) == Sources(c, t)
  }

  function Step(c: Conns, a: XpointChange): Conns {
    c[a.target := Outcome(a.op, Sources(c, a.target), ToSet(a.sources))]
  }

  function Run(c: Conns, plan: seq<XpointChange>): Conns {
    if plan == [] then c else Step(Run(c, plan[..|plan| - 1]), plan[|plan| - 1])
  }

  function RunSet(s: set<int32>, plan: seq<XpointChange>): set<int32> {
    if plan == [] then s
    else
      var a := plan[|plan| - 1];
      Outcome(a.op, RunSet(s, plan[..|plan| - 1]), ToSet(a.sources))
  }

  function On(t: int32): XpointChange -> bool {
    (a: XpointChange) => a.target == t
  }

  /** A target sees only its own actions. */
  lemma {:induction false} TargetView(c: Conns, plan: seq<XpointChange>, t: int32)
    ensures Sources(Run(c, plan), t) == RunSet(Sources(c, t), Filter(On(t), plan))
  {
    if plan != [] {
      var front, last := plan[..|plan| - 1], plan[|plan| - 1];
      TargetView(c, front, t);
      assert plan == front + [last];
      FilterLast(On(t), front, last);
      if last.target == t {
        var mine := Filter(On(t), front);
        assert (mine + [last])[..|mine|] == mine;
      }
    }
  }

  /** Part way through a plan a target has seen a prefix of its own actions. */
  lemma PartWay(c: Conns, plan: seq<XpointChange>, n: nat, t: int32)
    requires n <= |plan|
    ensures var m := |Filter(On(t), plan[..n])|;
      && m <= |Filter(On(t), plan)|
      && Sources(Run(c, plan[..n]), t) == RunSet(Sources(c, t), Filter(On(t), plan)[..m])
  {
    FilterPrefix(On(t), plan, n);
    TargetView(c, plan[..n], t);
  }

  /** Every stage of a target's own actions is the state after some prefix of the plan. */
  lemma {:induction false} StageReached(plan: seq<XpointChange>, t: int32, m: nat)
    requires m <= |Filter(On(t), plan)|
    ensures exists n :: 0 <= n <= |plan| && |Filter(On(t), plan[..n])| == m
  {
    if m == |Filter(On(t), plan)| {
      assert plan[..|plan|] == plan;
    } else {
      var front := plan[..|plan| - 1];
      StageReached(front, t, m);
      var n :| 0 <= n <= |front| && |Filter(On(t), front[..n])| == m;
      assert front[..n] == plan[..n];
    }
  }

  // ---- the actions of one target ----

  /** Connect what is missing, then disconnect what is surplus. */
  function Incremental(t: int32, want: seq<int32>, have: seq<int32>): seq<XpointChange> {
    var add, del := Minus(want, have), Minus(have, want);
    (if add != [] then [XpointChange(t, add, Connect, have, want)] else [])
    + (if del != [] then [XpointChange(t, del, Disconnect, have, want)] else [])
  }

  method IncrementalSteps(t: int32, want: seq<int32>, have: seq<int32>) returns (steps: seq<XpointChange>)
    ensures steps == Incremental(t, want, have)
  {
    steps := [];
    var add := Subtract(want, have);
    var del := Subtract(have, want);
    if |add| > 0 {
      steps := steps + [XpointChange(t, add, Connect, have, want)];
    }
    if |del| > 0 {
      steps := steps + [XpointChange(t, del, Disconnect, have, want)];
    }
  }

  lemma IncrementalTarget(t: int32, want: seq<int32>, have: seq<int32>, a: XpointChange)
    requires a in Incremental(t, want, have)
    ensures a.target == t
  {
    var add, del := Minus(want, have), Minus(have, want);
    assert a == XpointChange(t, add, Connect, have, want) || a == XpointChange(t, del, Disconnect, have, want);
  }

  function Take(t: int32, want: seq<int32>, have: seq<int32>): seq<XpointChange> {
    [XpointChange(t, want, Absolute, have, want)]
  }

  /** After `k` of its actions an incremental target has the old and the new sources. */
  ghost predicate AllConnected(t: int32, want: seq<int32>, have: seq<int32>, k: nat)
    requires k <= |Incremental(t, want, have)|
  {
    RunSet(ToSet(have), Incremental(t, want, have)[..k]) == ToSet(have) + ToSet(want)
  }

  /** The stages of an incremental target: as it was, with the missing sources, as wanted. */
  lemma IncrementalStages(t: int32, want: seq<int32>, have: seq<int32>, m: nat)
    requires m <= |Incremental(t, want, have)|
    ensures var s := RunSet(ToSet(have), Incremental(t, want, have)[..m]);
      && (m == |Incremental(t, want, have)| ==> s == ToSet(want))
      && (m == 0 ==> s == ToSet(have))
      && (s == ToSet(have) || s == ToSet(have) + ToSet(want) || s == ToSet(want))
      && (m > 0 ==> s != RunSet(ToSet(have), Incremental(t, want, have)[..m - 1]))
    ensures exists k :: 0 <= k <= |Incremental(t, want, have)| && AllConnected(t, want, have, k)
  {
    MinusSet(want, have);
    MinusSet(have, want);
    var add, del := Minus(want, have), Minus(have, want);
    NonEmptySet(add);
    NonEmptySet(del);
    var steps := Incremental(t, want, have);
    assert steps[..0] == [];
    var w, h := ToSet(want), ToSet(have);
    assert h + (w - h) == h + w && (h + w) - (h - w) == w;
    assert add == [] ==> h - (h - w) == w && h + w == h;
    if |steps| > 0 {
      assert steps[..1][..0] == [];
      assert steps[..1] == [steps[0]];
      assert RunSet(h, steps[..1]) == Outcome(steps[0].op, h, ToSet(steps[0].sources));
    }
    if |steps| > 1 {
      assert steps[..2][..1] == steps[..1];
      assert RunSet(h, steps[..2]) == Outcome(steps[1].op, RunSet(h, steps[..1]), ToSet(steps[1].sources));
    }
    assert AllConnected(t, want, have, if add == [] then 0 else 1);
  }

  lemma NonEmptySet(s: seq<int32>)
    ensures s == [] <==> ToSet(s) == {}
  {
    if s != [] {
      assert s[0] in ToSet(s);
    }
  }
}
