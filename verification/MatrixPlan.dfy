/** The Ember+ crosspoint leg: the actions that take a matrix to the sources its file
    lists, under the rule of the matrix. */
module MatrixPlan {
  import opened Wrappers
  import opened Text
  import opened Sorting
  import opened Sequences
  import opened Int32Sets
  import opened Converge
  import opened Connections
  import opened Xpoint

  datatype Behavior = OneToOne | OneToN | NToM | Dynamic

  /** `maxPerTarget` counts only when positive. */
  datatype MatrixDesc = MatrixDesc(behavior: Behavior, maxPerTarget: int)

  datatype MatrixError = BadLevels(dest: string) | BadTarget(dest: string) | BadSource(srce: string) | TooManySources

  datatype Pair = Pair(target: int32, source: int32)

  // ---- the file ----

  function RowPair(row: XpointRow): Result<Pair, MatrixError> {
    if row.levels != ["0"] then Err(BadLevels(row.dest))
    else if Atoi(row.dest).None? then Err(BadTarget(row.dest))
    else if Atoi(row.srce).None? then Err(BadSource(row.srce))
    else Ok(Pair(ToInt32(Atoi(row.dest).value), ToInt32(Atoi(row.srce).value)))
  }

  /** The pairs of the rows, up to the first row that is not one. */
  function PairsOf(rows: seq<XpointRow>): Result<seq<Pair>, MatrixError> {
    if rows == [] then Ok([])
    else
      match PairsOf(rows[..|rows| - 1])
      case Err(e) => Err(e)
      case Ok(before) =>
        match RowPair(rows[|rows| - 1])
        case Err(e) => Err(e)
        case Ok(p) => Ok(before + [p])
  }

  /** The sources the pairs list for a target, repetitions included. */
  function Listed(pairs: seq<Pair>, t: int32): seq<int32> {
    if pairs == [] then []
    else
      var p, before := pairs[|pairs| - 1], Listed(pairs[..|pairs| - 1], t);
      if p.target == t then before + [p.source] else before
  }

  /** The targets of the pairs, in order of first appearance. */
  function Targets(pairs: seq<Pair>): seq<int32> {
    if pairs == [] then [] else AddNew(Targets(pairs[..|pairs| - 1]), pairs[|pairs| - 1].target)
  }

  /** How many rows the rule of the matrix grants one target. */
  predicate Allowed(desc: MatrixDesc, count: nat) {
    match desc.behavior
    case OneToOne => count <= 1
    case OneToN => count <= 1
    case NToM => desc.maxPerTarget > 0 ==> count <= desc.maxPerTarget
    case Dynamic => true
  }

  function StepsFor(desc: MatrixDesc, t: int32, want: seq<int32>, have: seq<int32>): seq<XpointChange> {
    if desc.behavior == NToM then Incremental(t, want, have)
    else if want != have then Take(t, want, have)
    else []
  }

  function PlanOver(desc: MatrixDesc, live: seq<TargetState>, pairs: seq<Pair>,
                    targets: seq<int32>): seq<XpointChange> {
    if targets == [] then []
    else
      var t := targets[|targets| - 1];
      PlanOver(desc, live, pairs, targets[..|targets| - 1])
      + StepsFor(desc, t, Canon(Listed(pairs, t)), Canon(ListOf(live, t)))
  }

  function PlanOf(desc: MatrixDesc, live: seq<TargetState>, pairs: seq<Pair>): seq<XpointChange> {
    PlanOver(desc, live, pairs, Targets(pairs))
  }

  function Planned(desc: MatrixDesc, live: seq<TargetState>,
                   rows: seq<XpointRow>): Result<seq<XpointChange>, MatrixError> {
    match PairsOf(rows)
    case Err(e) => Err(e)
    case Ok(pairs) =>
      if forall t :: t in Targets(pairs) ==> Allowed(desc, |Listed(pairs, t)|)
      then Ok(PlanOf(desc, live, pairs))
      else Err(TooManySources)
  }

  /** The accumulators after some pairs: the targets in order, the sources of each. */
  ghost predicate Collected(pairs: seq<Pair>, order: seq<int32>, desired: map<int32, seq<int32>>) {
    && order == Targets(pairs)
    && desired.Keys == (set t | t in order)
    && forall t :: Listed(pairs, t) == if t in desired then desired[t] else []
  }

  lemma CollectStep(pairs: seq<Pair>, p: Pair, order: seq<int32>, desired: map<int32, seq<int32>>)
    requires Collected(pairs, order, desired)
    ensures var before := if p.target in desired then desired[p.target] else [];
      Collected(pairs + [p], AddNew(order, p.target), desired[p.target := before + [p.source]])
  {
    assert (pairs + [p])[..|pairs|] == pairs;
  }

  method AddPair(order0: seq<int32>, desired0: map<int32, seq<int32>>, p: Pair)
    returns (order: seq<int32>, desired: map<int32, seq<int32>>)
    requires desired0.Keys == set t | t in order0
    ensures order == AddNew(order0, p.target)
    ensures desired == desired0[p.target := (if p.target in desired0 then desired0[p.target] else []) + [p.source]]
  {
    order, desired := order0, desired0;
    if p.target !in desired {
      order := order + [p.target];
      desired := desired[p.target := []];
    }
    desired := desired[p.target := desired[p.target] + [p.source]];
  }

  method CollectPairs(rows: seq<XpointRow>, ghost pairs: seq<Pair>)
    returns (res: Result<(seq<int32>, map<int32, seq<int32>>), MatrixError>)
    requires PairsOf(rows).Ok? ==> PairsOf(rows).value == pairs
    ensures match PairsOf(rows)
      case Err(e) => res == Err(e)
      case Ok(_) => res.Ok? && Collected(pairs, res.value.0, res.value.1)
  {
    var desired: map<int32, seq<int32>> := map[];
    var order: seq<int32> := [];
    ghost var soFar: seq<Pair> := [];
    for i := 0 to |rows|
      invariant PairsOf(rows[..i]) == Ok(soFar)
      invariant Collected(soFar, order, desired)
    {
      assert rows[..i + 1][..i] == rows[..i];
      match RowPair(rows[i]) {
        case Err(e) =>
          FirstError(rows, i);
          return Err(e);
        case Ok(p) =>
          CollectStep(soFar, p, order, desired);
          soFar := soFar + [p];
          order, desired := AddPair(order, desired, p);
      }
    }
    assert rows[..|rows|] == rows;
    return Ok((order, desired));
  }

  lemma {:induction false} FirstError(rows: seq<XpointRow>, i: nat)
    requires i < |rows| && PairsOf(rows[..i]).Ok? && RowPair(rows[i]).Err?
    ensures PairsOf(rows) == Err(RowPair(rows[i]).error)
  {
    if i < |rows| - 1 {
      assert rows[..|rows| - 1][..i] == rows[..i];
      FirstError(rows[..|rows| - 1], i);
    }
  }

  method PlanTarget(desc: MatrixDesc, t: int32, wanted: seq<int32>, held: seq<int32>) returns (steps: seq<XpointChange>)
    ensures steps == StepsFor(desc, t, Canon(wanted), Canon(held))
  {
    var want := Dedup(wanted);
    var have := Dedup(held);
    steps := [];
    if desc.behavior == NToM {
      steps := IncrementalSteps(t, want, have);
    } else {
      var same := EqualSorted(want, have);
      if !same {
        steps := [XpointChange(t, want, Absolute, have, want)];
      }
    }
  }

  method Validate(desc: MatrixDesc, order: seq<int32>, desired: map<int32, seq<int32>>, ghost pairs: seq<Pair>)
    returns (ok: bool)
    requires Collected(pairs, order, desired)
    ensures ok <==> forall t :: t in Targets(pairs) ==> Allowed(desc, |Listed(pairs, t)|)
  {
    for i := 0 to |order|
      invariant forall j :: 0 <= j < i ==> Allowed(desc, |Listed(pairs, order[j])|)
    {
      var t := order[i];
      assert t in Targets(pairs) && t in desired && Listed(pairs, t) == desired[t];
      if !Allowed(desc, |desired[t]|) {
        assert !Allowed(desc, |Listed(pairs, t)|);
        return false;
      }
    }
    return true;
  }

  method DiffMatrix(desc: MatrixDesc, live: seq<TargetState>, rows: seq<XpointRow>)
    returns (res: Result<seq<XpointChange>, MatrixError>)
    ensures res == Planned(desc, live, rows)
  {
    ghost var pairs := if PairsOf(rows).Ok? then PairsOf(rows).value else [];
    var collected := CollectPairs(rows, pairs);
    if collected.Err? {
      return Err(collected.error);
    }
    var (order, desired) := collected.value;
    var ok := Validate(desc, order, desired, pairs);
    if !ok {
      return Err(TooManySources);
    }
    var out := PlanTargets(desc, live, order, desired, pairs);
    return Ok(out);
  }

  lemma PlanOverStep(desc: MatrixDesc, live: seq<TargetState>, pairs: seq<Pair>, targets: seq<int32>, i: nat)
    requires i < |targets|
    ensures PlanOver(desc, live, pairs, targets[..i + 1])
         == PlanOver(desc, live, pairs, targets[..i])
            + StepsFor(desc, targets[i], Canon(Listed(pairs, targets[i])), Canon(ListOf(live, targets[i])))
  {
    assert targets[..i + 1][..i] == targets[..i];
  }

  method PlanTargets(desc: MatrixDesc, live: seq<TargetState>, order: seq<int32>, desired: map<int32, seq<int32>>,
                     ghost pairs: seq<Pair>)
    returns (out: seq<XpointChange>)
    requires forall t :: t in order ==> t in desired && desired[t] == Listed(pairs, t)
    ensures out == PlanOver(desc, live, pairs, order)
  {
    var cur := CollectLive(live);
    out := [];
    for i := 0 to |order|
      invariant out == PlanOver(desc, live, pairs, order[..i])
    {
      var t := order[i];
      assert t in order;
      PlanOverStep(desc, live, pairs, order, i);
      var held := if t in cur then cur[t] else [];
      var steps := PlanTarget(desc, t, desired[t], held);
      out := out + steps;
    }
    assert order[..|order|] == order;
  }

  method CollectLive(live: seq<TargetState>) returns (cur: map<int32, seq<int32>>)
    ensures forall t :: ListOf(live, t) == if t in cur then cur[t] else []
  {
    cur := map[];
    for i := 0 to |live|
      invariant forall t :: ListOf(live[..i], t) == if t in cur then cur[t] else []
    {
      assert live[..i + 1][..i] == live[..i];
      cur := cur[live[i].target := live[i].sources];
    }
    assert live[..|live|] == live;
  }

  // ---- what the plan does ----

  /** The sources a file asks of a target; a target it does not list keeps its own. */
  function Goal(live: seq<TargetState>, pairs: seq<Pair>, t: int32): set<int32> {
    if t in Targets(pairs) then ToSet(Listed(pairs, t)) else ToSet(ListOf(live, t))
  }

  lemma {:induction false} TargetsDistinct(pairs: seq<Pair>)
    ensures Distinct(Targets(pairs))
  {
    if pairs != [] {
      TargetsDistinct(pairs[..|pairs| - 1]);
    }
  }

  lemma OneTargetShare(steps: seq<XpointChange>, t: int32, u: int32)
    requires forall a :: a in steps ==> a.target == t
    ensures Filter(On(u), steps) == if u == t then steps else []
  {
    if u == t {
      FilterAll(On(u), steps);
    } else {
      FilterNone(On(u), steps);
    }
  }

  lemma StepsOn(desc: MatrixDesc, t: int32, want: seq<int32>, have: seq<int32>, u: int32)
    ensures var steps := StepsFor(desc, t, want, have);
      Filter(On(u), steps) == if u == t then steps else []
  {
    forall a | a in StepsFor(desc, t, want, have)
      ensures a.target == t
    {
      if desc.behavior == NToM {
        IncrementalTarget(t, want, have, a);
      }
    }
    OneTargetShare(StepsFor(desc, t, want, have), t, u);
  }

  /** A listed target's share of the plan is its own steps, in order; no other target has one. */
  lemma {:induction false} PlanShare(desc: MatrixDesc, live: seq<TargetState>, pairs: seq<Pair>, targets: seq<int32>,
                                     u: int32)
    requires Distinct(targets)
    ensures Filter(On(u), PlanOver(desc, live, pairs, targets))
         == if u in targets then StepsFor(desc, u, Canon(Listed(pairs, u)), Canon(ListOf(live, u))) else []
  {
    if targets != [] {
      var front, t := targets[..|targets| - 1], targets[|targets| - 1];
      assert targets == front + [t];
      FreshAt(targets, |targets| - 1);
      PlanShare(desc, live, pairs, front, u);
      var steps := StepsFor(desc, t, Canon(Listed(pairs, t)), Canon(ListOf(live, t)));
      StepsOn(desc, t, Canon(Listed(pairs, t)), Canon(ListOf(live, t)), u);
      FilterConcat(On(u), PlanOver(desc, live, pairs, front), steps);
    }
  }

  /** The stages of one target's share: its last is the goal, each step moves it, and in
      between it has its old sources, its new ones, or both. */
  lemma ShareStages(desc: MatrixDesc, t: int32, wanted: seq<int32>, held: seq<int32>, m: nat)
    requires m <= |StepsFor(desc, t, Canon(wanted), Canon(held))|
    ensures var steps := StepsFor(desc, t, Canon(wanted), Canon(held));
      var s := RunSet(ToSet(held), steps[..m]);
      && (m == |steps| ==> s == ToSet(wanted))
      && (m == 0 ==> s == ToSet(held))
      && (s == ToSet(held) || s == ToSet(held) + ToSet(wanted) || s == ToSet(wanted))
      && (m > 0 ==> s != RunSet(ToSet(held), steps[..m - 1]))
  {
    var want, have := Canon(wanted), Canon(held);
    CanonSet(wanted);
    CanonSet(held);
    if desc.behavior == NToM {
      IncrementalStages(t, want, have, m);
    } else {
      CanonEqualIff(wanted, held);
      var steps := StepsFor(desc, t, want, have);
      assert steps[..0] == [];
      if m > 0 {
        assert steps[..1] == steps;
        assert steps[..1][..0] == [];
      }
    }
  }

  lemma ListedStage(desc: MatrixDesc, live: seq<TargetState>, pairs: seq<Pair>, plan: seq<XpointChange>, c: Conns,
                    n: nat, t: int32)
    requires Shows(live, c) && n <= |plan|
    requires Filter(On(t), plan) == StepsFor(desc, t, Canon(Listed(pairs, t)), Canon(ListOf(live, t)))
    ensures var s, goal := Sources(Run(c, plan[..n]), t), ToSet(Listed(pairs, t));
      && (s == Sources(c, t) || s == Sources(c, t) + goal || s == goal)
      && (n == |plan| ==> s == goal)
  {
    PartWay(c, plan, n, t);
    assert plan[..|plan|] == plan;
    ShareStages(desc, t, Listed(pairs, t), ListOf(live, t), |Filter(On(t), plan[..n])|);
  }

  lemma UnlistedStage(plan: seq<XpointChange>, c: Conns, n: nat, t: int32)
    requires n <= |plan| && Filter(On(t), plan) == []
    ensures Sources(Run(c, plan[..n]), t) == Sources(c, t)
  {
    PartWay(c, plan, n, t);
  }

  /** After any part of the plan each target has what it had, what is wanted, or both. */
  lemma AnyStage(desc: MatrixDesc, live: seq<TargetState>, pairs: seq<Pair>, c: Conns, n: nat, t: int32)
    requires Shows(live, c) && n <= |PlanOf(desc, live, pairs)|
    ensures var plan := PlanOf(desc, live, pairs);
      var s := Sources(Run(c, plan[..n]), t);
      && (s == Sources(c, t) || s == Sources(c, t) + Goal(live, pairs, t) || s == Goal(live, pairs, t))
      && (n == |plan| ==> s == Goal(live, pairs, t))
  {
    TargetsDistinct(pairs);
    PlanShare(desc, live, pairs, Targets(pairs), t);
    if t in Targets(pairs) {
      ListedStage(desc, live, pairs, PlanOf(desc, live, pairs), c, n, t);
    } else {
      UnlistedStage(PlanOf(desc, live, pairs), c, n, t);
    }
  }

  /** The plan makes every listed target's sources those of the file and leaves every
      unlisted target as it was; on the way no source that stays is ever disconnected. */
  lemma MatrixConverges(desc: MatrixDesc, live: seq<TargetState>, pairs: seq<Pair>, c: Conns, t: int32)
    requires Shows(live, c)
    ensures var plan := PlanOf(desc, live, pairs);
      && Sources(Run(c, plan), t) == Goal(live, pairs, t)
      && (forall n :: 0 <= n <= |plan| ==> Sources(c, t) * Goal(live, pairs, t) <= Sources(Run(c, plan[..n]), t))
      && (t !in Targets(pairs) ==> forall n :: 0 <= n <= |plan| ==> Sources(Run(c, plan[..n]), t) == Sources(c, t))
  {
    var plan := PlanOf(desc, live, pairs);
    assert plan[..|plan|] == plan;
    AnyStage(desc, live, pairs, c, |plan|, t);
    forall n | 0 <= n <= |plan|
      ensures Sources(c, t) * Goal(live, pairs, t) <= Sources(Run(c, plan[..n]), t)
      ensures t !in Targets(pairs) ==> Sources(Run(c, plan[..n]), t) == Sources(c, t)
    {
      AnyStage(desc, live, pairs, c, n, t);
    }
  }

  // ---- the numbers of the file ----

  predicate InRange(n: int) {
    -0x8000_0000 <= n < 0x8000_0000
  }

  lemma NarrowKeepsIff(n: int)
    ensures ToInt32(n) as int == n <==> InRange(n)
  {
  }

  function Number(text: string): int {
    if Atoi(text).Some? then Atoi(text).value else 0
  }

  predicate RowInRange(row: XpointRow) {
    InRange(Number(row.dest)) && InRange(Number(row.srce))
  }

  /** A pair carries the numbers of its row exactly when both fit 32 bits. */
  lemma PairKeepsIff(row: XpointRow)
    requires RowPair(row).Ok?
    ensures var p := RowPair(row).value;
      RowInRange(row) <==> p.target as int == Number(row.dest) && p.source as int == Number(row.srce)
  {
    NarrowKeepsIff(Number(row.dest));
    NarrowKeepsIff(Number(row.srce));
  }

  /** The source numbers the rows of the file give for a target number. */
  function FileSources(rows: seq<XpointRow>, t: int): set<int> {
    set row | row in rows && Number(row.dest) == t :: Number(row.srce)
  }

  function Wide(s: set<int32>): set<int> {
    set x | x in s :: x as int
  }

  lemma WideMember(s: set<int32>, n: int)
    ensures n in Wide(s) <==> InRange(n) && n as int32 in s
  {
    if n in Wide(s) {
      var x :| x in s && x as int == n;
    }
  }

  /** The source numbers connected to a target number. */
  function Connected(c: Conns, t: int): set<int> {
    if InRange(t) then Wide(Sources(c, t as int32)) else {}
  }

  /** After the run the target number has the sources of its rows; without one it has what
      it had. */
  ghost predicate EndsAsListed(rows: seq<XpointRow>, desc: MatrixDesc, live: seq<TargetState>, c: Conns, t: int) {
    Planned(desc, live, rows).Ok? && Shows(live, c) ==>
      Connected(Run(c, Planned(desc, live, rows).value), t)
        == if FileSources(rows, t) == {} then Connected(c, t) else FileSources(rows, t)
  }

  lemma {:induction false} PairMember(rows: seq<XpointRow>, p: Pair)
    requires PairsOf(rows).Ok?
    ensures p in PairsOf(rows).value <==> exists row :: row in rows && RowPair(row) == Ok(p)
    ensures forall row :: row in rows ==> RowPair(row).Ok?
  {
    if rows != [] {
      var front, last := rows[..|rows| - 1], rows[|rows| - 1];
      assert rows == front + [last];
      PairMember(front, p);
      assert PairsOf(rows).value == PairsOf(front).value + [RowPair(last).value];
    }
  }

  lemma {:induction false} ListedMember(pairs: seq<Pair>, t: int32, s: int32)
    ensures s in Listed(pairs, t) <==> Pair(t, s) in pairs
  {
    if pairs != [] {
      var front, last := pairs[..|pairs| - 1], pairs[|pairs| - 1];
      assert pairs == front + [last];
      ListedMember(front, t, s);
      assert last == Pair(last.target, last.source);
    }
  }

  lemma {:induction false} TargetMember(pairs: seq<Pair>, t: int32)
    ensures t in Targets(pairs) <==> exists s :: Pair(t, s) in pairs
  {
    if pairs != [] {
      var front, last := pairs[..|pairs| - 1], pairs[|pairs| - 1];
      assert pairs == front + [last];
      TargetMember(front, t);
      assert last == Pair(last.target, last.source);
    }
  }

  lemma InRangePairs(rows: seq<XpointRow>, t: int32, s: int32)
    requires PairsOf(rows).Ok? && forall row :: row in rows ==> RowInRange(row)
    ensures Pair(t, s) in PairsOf(rows).value <==> s as int in FileSources(rows, t as int)
  {
    PairMember(rows, Pair(t, s));
    forall row | row in rows
      ensures RowPair(row) == Ok(Pair(t, s)) <==> Number(row.dest) == t as int && Number(row.srce) == s as int
    {
      PairKeepsIff(row);
    }
  }

  lemma FileTarget(rows: seq<XpointRow>, t: int32, n: int)
    requires PairsOf(rows).Ok? && forall row :: row in rows ==> RowInRange(row)
    ensures var pairs := PairsOf(rows).value;
      && (n in Wide(ToSet(Listed(pairs, t))) <==> n in FileSources(rows, t as int))
      && (n in FileSources(rows, t as int) ==> t in Targets(pairs))
  {
    var pairs := PairsOf(rows).value;
    WideMember(ToSet(Listed(pairs, t)), n);
    if InRange(n) {
      ListedMember(pairs, t, n as int32);
      InRangePairs(rows, t, n as int32);
      TargetMember(pairs, t);
    }
  }

  lemma UnnamedTarget(rows: seq<XpointRow>, t: int32)
    requires PairsOf(rows).Ok? && (forall row :: row in rows ==> RowInRange(row)) && FileSources(rows, t as int) == {}
    ensures t !in Targets(PairsOf(rows).value)
  {
    TargetMember(PairsOf(rows).value, t);
    if s :| Pair(t, s) in PairsOf(rows).value {
      InRangePairs(rows, t, s);
    }
  }

  lemma InRangeEnds(rows: seq<XpointRow>, desc: MatrixDesc, live: seq<TargetState>, c: Conns, t: int)
    requires forall row :: row in rows ==> RowInRange(row)
    ensures EndsAsListed(rows, desc, live, c, t)
  {
    if Planned(desc, live, rows).Ok? && Shows(live, c) && InRange(t) {
      var pairs, u := PairsOf(rows).value, t as int32;
      MatrixConverges(desc, live, pairs, c, u);
      forall n
        ensures n in Wide(ToSet(Listed(pairs, u))) <==> n in FileSources(rows, t)
      {
        FileTarget(rows, u, n);
      }
      if FileSources(rows, t) == {} {
        UnnamedTarget(rows, u);
      } else {
        var n :| n in FileSources(rows, t);
        FileTarget(rows, u, n);
      }
    }
  }

  /** Whatever the matrix and its state, every target number ends with the sources the file
      lists for it and every other one as it was, exactly when all numbers of the file fit
      32 bits. */
  lemma RowsConvergeIff(rows: seq<XpointRow>)
    requires PairsOf(rows).Ok?
    ensures (forall row :: row in rows ==> RowInRange(row))
       <==> forall desc, live, c, t :: EndsAsListed(rows, desc, live, c, t)
  {
    if forall row :: row in rows ==> RowInRange(row) {
      forall desc, live, c, t
        ensures EndsAsListed(rows, desc, live, c, t)
      {
        InRangeEnds(rows, desc, live, c, t);
      }
    } else {
      var row :| row in rows && !RowInRange(row);
      FarRowMisses(rows, row);
    }
  }

  /** No matrix can end with a number that does not fit 32 bits. */
  lemma FarRowMisses(rows: seq<XpointRow>, row: XpointRow)
    requires PairsOf(rows).Ok? && row in rows && !RowInRange(row)
    ensures !EndsAsListed(rows, MatrixDesc(Dynamic, 0), [], map[], Number(row.dest))
  {
    var desc, t := MatrixDesc(Dynamic, 0), Number(row.dest);
    assert forall u :: ToSet(ListOf([], u)) == {};
    assert Shows([], map[]) && Planned(desc, [], rows).Ok?;
    var s := Connected(Run(map[], Planned(desc, [], rows).value), t);
    assert Number(row.srce) in FileSources(rows, t);
    assert Number(row.srce) !in s;
  }

  /** The number of target 0 and 4294967296 are one after narrowing: a file that names only
      the second changes target 0. */
  lemma FarTargetHits(c: Conns, live: seq<TargetState>)
    requires Shows(live, c)
    ensures var rows := [XpointRow("4294967296", "7", ["0"], "")];
      && FileSources(rows, 0) == {}
      && Planned(MatrixDesc(Dynamic, 0), live, rows).Ok?
      && Sources(Run(c, Planned(MatrixDesc(Dynamic, 0), live, rows).value), 0) == {7}
  {
    FarPair();
    OtherTargetHit(XpointRow("4294967296", "7", ["0"], ""), Pair(0, 7), c, live);
  }

  lemma OtherTargetHit(row: XpointRow, p: Pair, c: Conns, live: seq<TargetState>)
    requires RowPair(row) == Ok(p) && Number(row.dest) != p.target as int && Shows(live, c)
    ensures FileSources([row], p.target as int) == {}
    ensures var res := Planned(MatrixDesc(Dynamic, 0), live, [row]);
      res.Ok? && Sources(Run(c, res.value), p.target) == {p.source}
  {
    OneRow(row, p);
    OnePlanned(row, p, live);
    MatrixConverges(MatrixDesc(Dynamic, 0), live, [p], c, p.target);
  }

  lemma OnePlanned(row: XpointRow, p: Pair, live: seq<TargetState>)
    requires RowPair(row) == Ok(p)
    ensures Planned(MatrixDesc(Dynamic, 0), live, [row]) == Ok(PlanOf(MatrixDesc(Dynamic, 0), live, [p]))
  {
    OneRow(row, p);
  }

  lemma FarPair()
    ensures var row := XpointRow("4294967296", "7", ["0"], ""); RowPair(row) == Ok(Pair(0, 7)) && Number(row.dest) != 0
  {
    FarNumber();
  }

  lemma OneRow(row: XpointRow, p: Pair)
    requires RowPair(row) == Ok(p)
    ensures PairsOf([row]) == Ok([p])
    ensures ToSet(Listed([p], p.target)) == {p.source} && Targets([p]) == [p.target]
  {
    assert [row][..0] == [] && [p][..0] == [];
    assert PairsOf([]) == Ok([]);
    assert [] + [p] == [p];
    assert Listed([p], p.target) == [p.source];
  }

  lemma FarNumber()
    ensures Atoi("4294967296") == Some(4294967296) && Atoi("7") == Some(7)
  {
    var a := "42949";
    FiveDigits('4', '2', '9', '4', '9');
    assert Decimal(a) == 42949;
    DecimalOn(a, '6');
    DecimalOn(a + "6", '7');
    DecimalOn(a + "6" + "7", '2');
    DecimalOn(a + "6" + "7" + "2", '9');
    DecimalOn(a + "6" + "7" + "2" + "9", '6');
    assert "4294967296" == a + "6" + "7" + "2" + "9" + "6";
    assert "7"[..0] == [];
    assert Decimal("7") == 7;
  }

  lemma ThreeDigits(a: char, b: char, c: char)
    requires IsDigit(a) && IsDigit(b) && IsDigit(c)
    ensures AllDigits([a, b, c])
    ensures Decimal([a, b, c]) == 100 * (a as int - '0' as int) + 10 * (b as int - '0' as int) + (c as int - '0' as int)
  {
    DecimalOn([], a);
    DecimalOn([a], b);
    DecimalOn([a, b], c);
    assert [] + [a] == [a] && [a] + [b] == [a, b] && [a, b] + [c] == [a, b, c];
  }

  lemma FiveDigits(a: char, b: char, c: char, d: char, e: char)
    requires IsDigit(a) && IsDigit(b) && IsDigit(c) && IsDigit(d) && IsDigit(e)
    ensures AllDigits([a, b, c, d, e])
    ensures Decimal([a, b, c, d, e]) ==
      10000 * (a as int - '0' as int) + 1000 * (b as int - '0' as int) + 100 * (c as int - '0' as int)
      + 10 * (d as int - '0' as int) + (e as int - '0' as int)
  {
    ThreeDigits(a, b, c);
    DecimalOn([a, b, c], d);
    DecimalOn([a, b, c, d], e);
    assert [a, b, c] + [d] == [a, b, c, d] && [a, b, c, d] + [e] == [a, b, c, d, e];
  }

  lemma NextOnTarget(plan: seq<XpointChange>, n: nat)
    requires n < |plan|
    ensures var t := plan[n].target;
      && |Filter(On(t), plan[..n + 1])| == |Filter(On(t), plan[..n])| + 1
      && |Filter(On(t), plan[..n + 1])| <= |Filter(On(t), plan)|
  {
    var t := plan[n].target;
    assert plan[..n + 1] == plan[..n] + [plan[n]];
    FilterLast(On(t), plan[..n], plan[n]);
    FilterPrefix(On(t), plan, n + 1);
  }

  /** No action is idle: each one changes the sources of its target at the point it is sent. */
  lemma EveryActionActs(desc: MatrixDesc, live: seq<TargetState>, pairs: seq<Pair>, c: Conns, n: nat)
    requires Shows(live, c) && n < |PlanOf(desc, live, pairs)|
    ensures var plan := PlanOf(desc, live, pairs);
      Sources(Run(c, plan[..n + 1]), plan[n].target) != Sources(Run(c, plan[..n]), plan[n].target)
  {
    var plan := PlanOf(desc, live, pairs);
    var t := plan[n].target;
    NextOnTarget(plan, n);
    TargetsDistinct(pairs);
    PlanShare(desc, live, pairs, Targets(pairs), t);
    PartWay(c, plan, n, t);
    PartWay(c, plan, n + 1, t);
    ShareStages(desc, t, Listed(pairs, t), ListOf(live, t), |Filter(On(t), plan[..n + 1])|);
  }

  /** A second run plans nothing, whatever the order in which the new snapshot lists things. */
  lemma MatrixRunTwiceIsZero(desc: MatrixDesc, live: seq<TargetState>, rows: seq<XpointRow>, c: Conns,
                             again: seq<TargetState>)
    requires Planned(desc, live, rows).Ok? && Shows(live, c) && Shows(again, Run(c, Planned(desc, live, rows).value))
    ensures Planned(desc, again, rows) == Ok([])
  {
    var pairs := PairsOf(rows).value;
    forall t | t in Targets(pairs)
      ensures ToSet(ListOf(again, t)) == ToSet(Listed(pairs, t))
    {
      MatrixConverges(desc, live, pairs, c, t);
    }
    NothingToDo(desc, again, pairs, Targets(pairs));
  }

  lemma {:induction false} NothingToDo(desc: MatrixDesc, live: seq<TargetState>, pairs: seq<Pair>, targets: seq<int32>)
    requires forall t :: t in targets ==> ToSet(ListOf(live, t)) == ToSet(Listed(pairs, t))
    ensures PlanOver(desc, live, pairs, targets) == []
  {
    if targets != [] {
      var front, t := targets[..|targets| - 1], targets[|targets| - 1];
      assert targets == front + [t];
      NothingToDo(desc, live, pairs, front);
      var want := Canon(Listed(pairs, t));
      CanonEqualIff(Listed(pairs, t), ListOf(live, t));
      MinusSet(want, want);
      NonEmptySet(Minus(want, want));
    }
  }

  // ---- the limit of the matrix ----

  /** An accepted file leaves every listed target within the limit of its rule. */
  lemma FinalWithinLimit(desc: MatrixDesc, live: seq<TargetState>, rows: seq<XpointRow>, c: Conns, t: int32)
    requires Planned(desc, live, rows).Ok? && Shows(live, c) && t in Targets(PairsOf(rows).value)
    ensures var after := |Sources(Run(c, Planned(desc, live, rows).value), t)|;
      && (desc.behavior == OneToOne || desc.behavior == OneToN ==> after <= 1)
      && (desc.behavior == NToM && desc.maxPerTarget > 0 ==> after <= desc.maxPerTarget)
  {
    MatrixConverges(desc, live, PairsOf(rows).value, c, t);
    SetNotLarger(Listed(PairsOf(rows).value, t));
  }

  ghost predicate Fits(c: Conns, plan: seq<XpointChange>, n: int, t: int32, limit: nat) {
    0 <= n <= |plan| ==> |Sources(Run(c, plan[..n]), t)| <= limit
  }

  ghost predicate WithinAll(c: Conns, plan: seq<XpointChange>, limit: nat) {
    forall n, t :: Fits(c, plan, n, t, limit)
  }

  /** The new sources are connected before the old ones go, so on the way an NtoM target can
      hold more than either: the run keeps within a limit from start to end exactly when
      every target could hold its old and its new sources together. */
  lemma LimitKeptOnTheWayIff(desc: MatrixDesc, live: seq<TargetState>, pairs: seq<Pair>, c: Conns, limit: nat)
    requires desc.behavior == NToM && Shows(live, c)
    ensures WithinAll(c, PlanOf(desc, live, pairs), limit)
       <==> forall t :: |Sources(c, t) + Goal(live, pairs, t)| <= limit
  {
    var plan := PlanOf(desc, live, pairs);
    if forall t :: |Sources(c, t) + Goal(live, pairs, t)| <= limit {
      forall n, t
        ensures Fits(c, plan, n, t, limit)
      {
        if 0 <= n <= |plan| {
          AnyStage(desc, live, pairs, c, n, t);
          SubsetSize(Sources(Run(c, plan[..n]), t), Sources(c, t) + Goal(live, pairs, t));
        }
      }
    }
    if WithinAll(c, plan, limit) {
      forall t
        ensures |Sources(c, t) + Goal(live, pairs, t)| <= limit
      {
        BothReached(desc, live, pairs, c, t);
        var n :| 0 <= n <= |plan| && Sources(Run(c, plan[..n]), t) == Sources(c, t) + Goal(live, pairs, t);
        assert Fits(c, plan, n, t, limit);
      }
    }
  }

  lemma BothReached(desc: MatrixDesc, live: seq<TargetState>, pairs: seq<Pair>, c: Conns, t: int32)
    requires desc.behavior == NToM && Shows(live, c)
    ensures var plan := PlanOf(desc, live, pairs);
      exists n :: 0 <= n <= |plan| && Sources(Run(c, plan[..n]), t) == Sources(c, t) + Goal(live, pairs, t)
  {
    var plan := PlanOf(desc, live, pairs);
    if t !in Targets(pairs) {
      assert plan[..0] == [];
      assert Sources(Run(c, plan[..0]), t) == Sources(c, t) + Goal(live, pairs, t);
    } else {
      var wanted, held := Listed(pairs, t), ListOf(live, t);
      TargetsDistinct(pairs);
      PlanShare(desc, live, pairs, Targets(pairs), t);
      CanonSet(wanted);
      CanonSet(held);
      IncrementalStages(t, Canon(wanted), Canon(held), 0);
      var k :| 0 <= k <= |Incremental(t, Canon(wanted), Canon(held))| && AllConnected(t, Canon(wanted), Canon(held), k);
      StageReached(plan, t, k);
      var n :| 0 <= n <= |plan| && |Filter(On(t), plan[..n])| == k;
      PartWay(c, plan, n, t);
    }
  }

  /** Moving the only source of a target of a matrix limited to one passes the check of the
      limit, and the run breaks it on the way. */
  lemma LimitBrokenOnTheWay(live: seq<TargetState>, c: Conns)
    requires Shows(live, c) && Sources(c, 0) == {1}
    ensures Allowed(MatrixDesc(NToM, 1), |Listed([Pair(0, 2)], 0)|)
    ensures !WithinAll(c, PlanOf(MatrixDesc(NToM, 1), live, [Pair(0, 2)]), 1)
  {
    OneMove(live);
    OverLimit(MatrixDesc(NToM, 1), live, [Pair(0, 2)], c, 1, 0);
  }

  lemma OverLimit(desc: MatrixDesc, live: seq<TargetState>, pairs: seq<Pair>, c: Conns, limit: nat, t: int32)
    requires desc.behavior == NToM && Shows(live, c) && |Sources(c, t) + Goal(live, pairs, t)| > limit
    ensures !WithinAll(c, PlanOf(desc, live, pairs), limit)
  {
    LimitKeptOnTheWayIff(desc, live, pairs, c, limit);
  }

  lemma OneMove(live: seq<TargetState>)
    ensures |Listed([Pair(0, 2)], 0)| == 1 && |{1} + Goal(live, [Pair(0, 2)], 0)| == 2
  {
    assert [Pair(0, 2)][..0] == [];
    assert Targets([Pair(0, 2)]) == [0] && Listed([Pair(0, 2)], 0) == [2];
    assert {1} + Goal(live, [Pair(0, 2)], 0) == {1, 2};
  }
}
