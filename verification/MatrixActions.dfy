/** Which actions each kind of matrix gets, of the rows of the file, the numbers of the snapshot
    and the fields of the actions alone. */
module MatrixActions {
  import opened Wrappers
  import opened Text
  import opened Sorting
  import opened Sequences
  import opened Int32Sets
  import opened Converge
  import opened Connections
  import opened Xpoint
  import opened MatrixPlan
  import opened MatrixReplace

  // ---- lists ----

  ghost predicate Ascends(s: seq<int32>) {
    forall i, j :: 0 <= i < j < |s| ==> s[i] < s[j]
  }

  lemma CanonAscends(s: seq<int32>)
    ensures Ascends(Canon(s)) && ToSet(Canon(s)) == ToSet(s)
  {
    CanonSet(s);
    SortSorts(Less, Unique(s));
    var t := Canon(s);
    forall i, j | 0 <= i < j < |t|
      ensures t[i] < t[j]
    {
      assert InOrder(Less, t, i, j);
    }
  }

  lemma AscendsOn(s: seq<int32>, x: int32)
    requires Ascends(s) && forall y :: y in s ==> y < x
    ensures Ascends(s + [x])
  {
    forall i, j | 0 <= i < j < |s + [x]|
      ensures (s + [x])[i] < (s + [x])[j]
    {
      assert s[i] in s;
    }
  }

  lemma {:induction false} FilterAscends(keep: int32 -> bool, s: seq<int32>)
    requires Ascends(s)
    ensures Ascends(Filter(keep, s)) && forall x :: x in Filter(keep, s) ==> x in s
  {
    if s != [] {
      var front, last := s[..|s| - 1], s[|s| - 1];
      assert s == front + [last];
      FilterAscends(keep, front);
      FilterLast(keep, front, last);
      forall y | y in Filter(keep, front)
        ensures y < last
      {
        var i :| 0 <= i < |front| && front[i] == y;
        assert s[i] < s[|s| - 1];
      }
      AscendsOn(Filter(keep, front), last);
    }
  }

  /** The element at `i` of a list, and where it stands among those of its kind. */
  lemma KeptAt<T>(keep: T -> bool, s: seq<T>, i: nat)
    requires i < |s| && keep(s[i])
    ensures var k := |Filter(keep, s[..i])|;
      k < |Filter(keep, s)| && Filter(keep, s)[k] == s[i] && |Filter(keep, s[..i + 1])| == k + 1
  {
    assert s[..i + 1] == s[..i] + [s[i]];
    FilterLast(keep, s[..i], s[i]);
    FilterPrefix(keep, s, i + 1);
  }

  lemma KeptLater<T>(keep: T -> bool, s: seq<T>, i: nat, j: nat)
    requires i < j < |s| && keep(s[i]) && keep(s[j])
    ensures |Filter(keep, s[..i])| < |Filter(keep, s[..j])|
  {
    KeptAt(keep, s, i);
    FilterPrefix(keep, s[..j], i + 1);
    assert s[..j][..i + 1] == s[..i + 1];
  }

  // ---- the snapshot and the file ----

  /** The last row of a target counts. */
  lemma {:induction false} LastRowCounts(live: seq<TargetState>, i: nat)
    requires i < |live| && forall j :: i < j < |live| ==> live[j].target != live[i].target
    ensures ListOf(live, live[i].target) == live[i].sources
  {
    if i < |live| - 1 {
      assert live[|live| - 1].target != live[i].target;
      LastRowCounts(live[..|live| - 1], i);
    }
  }

  /** The row is about target `t`, its number narrowed to 32 bits. */
  predicate Naming(t: int32, row: XpointRow) {
    ToInt32(Number(row.dest)) == t
  }

  /** The sources the rows of a target list, their numbers narrowed to 32 bits. */
  function Wanted(rows: seq<XpointRow>, t: int32): set<int32> {
    set row | row in rows && Naming(t, row) :: ToInt32(Number(row.srce))
  }

  function PairFor(row: XpointRow): Pair {
    Pair(ToInt32(Number(row.dest)), ToInt32(Number(row.srce)))
  }

  lemma PairRead(row: XpointRow)
    requires RowPair(row).Ok?
    ensures RowPair(row).value == PairFor(row)
  {
  }

  lemma {:induction false} PairAt(rows: seq<XpointRow>, i: nat)
    requires PairsOf(rows).Ok? && i < |rows|
    ensures |PairsOf(rows).value| == |rows| && PairsOf(rows).value[i] == PairFor(rows[i])
  {
    var front, last := rows[..|rows| - 1], rows[|rows| - 1];
    assert PairsOf(rows).value == PairsOf(front).value + [RowPair(last).value];
    if front != [] {
      PairAt(front, if i < |front| then i else 0);
    }
    if i == |front| {
      PairRead(last);
    }
  }

  lemma PairIn(rows: seq<XpointRow>, p: Pair)
    requires PairsOf(rows).Ok?
    ensures p in PairsOf(rows).value <==> exists row :: row in rows && PairFor(row) == p
  {
    PairMember(rows, p);
    forall row | row in rows
      ensures RowPair(row).Ok? && RowPair(row).value == PairFor(row)
    {
      PairRead(row);
    }
  }

  lemma WantedIsListed(rows: seq<XpointRow>, t: int32)
    requires PairsOf(rows).Ok?
    ensures ToSet(Listed(PairsOf(rows).value, t)) == Wanted(rows, t)
    ensures t in Targets(PairsOf(rows).value) <==> exists row :: row in rows && Naming(t, row)
  {
    var pairs := PairsOf(rows).value;
    forall s
      ensures s in ToSet(Listed(pairs, t)) <==> s in Wanted(rows, t)
    {
      ListedMember(pairs, t, s);
      PairIn(rows, Pair(t, s));
      assert s in Wanted(rows, t) <==> exists row :: row in rows && Naming(t, row) && s == PairFor(row).source;
    }
    TargetMember(pairs, t);
    if row :| row in rows && Naming(t, row) {
      PairIn(rows, PairFor(row));
    }
    if s :| Pair(t, s) in pairs {
      PairIn(rows, Pair(t, s));
    }
  }

  // ---- what one action says ----

  /** A many-to-many matrix is told what is missing or what is surplus, any other the whole
      wanted set. */
  ghost predicate Says(behavior: Behavior, a: XpointChange, wanted: set<int32>, held: set<int32>) {
    && Ascends(a.sources) && Ascends(a.have) && Ascends(a.want) && ToSet(a.have) == held && ToSet(a.want) == wanted
    && if behavior != NToM then a.op == Absolute && ToSet(a.sources) == wanted
       else
         || (a.op == Connect && ToSet(a.sources) == wanted - held != {})
         || (a.op == Disconnect && ToSet(a.sources) == held - wanted != {})
  }

  /** The actions of one target: on a many-to-many matrix at most one connection and, behind
      it, at most one disconnection, on any other at most one action. */
  ghost predicate Few(behavior: Behavior, steps: seq<XpointChange>) {
    if behavior != NToM then |steps| <= 1
    else |steps| <= 1 || (|steps| == 2 && steps[0].op == Connect && steps[1].op == Disconnect)
  }

  lemma MissingSet(a: seq<int32>, b: seq<int32>)
    requires Ascends(a)
    ensures Ascends(Minus(a, b)) && ToSet(Minus(a, b)) == ToSet(a) - ToSet(b)
    ensures Minus(a, b) == [] <==> ToSet(a) - ToSet(b) == {}
  {
    FilterAscends(Outside(b), a);
    MinusSet(a, b);
    NonEmptySet(Minus(a, b));
  }

  lemma IncrementalMember(t: int32, want: seq<int32>, have: seq<int32>, a: XpointChange)
    requires a in Incremental(t, want, have)
    ensures a.target == t && a.have == have && a.want == want
    ensures || (a.op == Connect && a.sources == Minus(want, have) != [])
            || (a.op == Disconnect && a.sources == Minus(have, want) != [])
  {
  }

  lemma IncrementalFew(t: int32, want: seq<int32>, have: seq<int32>)
    ensures Few(NToM, Incremental(t, want, have))
    ensures Incremental(t, want, have) == [] <==> Minus(want, have) == [] && Minus(have, want) == []
  {
  }

  lemma IncrementalSays(t: int32, wanted: seq<int32>, held: seq<int32>)
    ensures var steps := Incremental(t, Canon(wanted), Canon(held));
      && Few(NToM, steps)
      && (forall a :: a in steps ==> a.target == t && Says(NToM, a, ToSet(wanted), ToSet(held)))
      && (steps == [] <==> ToSet(wanted) == ToSet(held))
  {
    var want, have := Canon(wanted), Canon(held);
    CanonAscends(wanted);
    CanonAscends(held);
    MissingSet(want, have);
    MissingSet(have, want);
    IncrementalFew(t, want, have);
    forall a | a in Incremental(t, want, have)
      ensures a.target == t && Says(NToM, a, ToSet(wanted), ToSet(held))
    {
      IncrementalMember(t, want, have, a);
    }
    NothingEitherWay(ToSet(wanted), ToSet(held));
  }

  lemma NothingEitherWay(a: set<int32>, b: set<int32>)
    ensures a == b <==> a - b == {} && b - a == {}
  {
    if a - b == {} && b - a == {} {
      forall x
        ensures x in a <==> x in b
      {
        assert x !in a - b && x !in b - a;
      }
    }
  }

  lemma StepsSay(desc: MatrixDesc, t: int32, wanted: seq<int32>, held: seq<int32>)
    ensures var steps := StepsFor(desc, t, Canon(wanted), Canon(held));
      && Few(desc.behavior, steps)
      && (forall a :: a in steps ==>
            a.target == t && Says(desc.behavior, a, ToSet(wanted), ToSet(held)) && ToSet(wanted) != ToSet(held))
      && (ToSet(wanted) != ToSet(held) ==> steps != [])
  {
    if desc.behavior == NToM {
      IncrementalSays(t, wanted, held);
    } else {
      CanonAscends(wanted);
      CanonAscends(held);
      CanonEqualIff(wanted, held);
    }
  }

  // ---- the plan of a file ----

  lemma ShareOf(desc: MatrixDesc, live: seq<TargetState>, pairs: seq<Pair>, n: nat)
    requires n < |PlanOf(desc, live, pairs)|
    ensures var plan := PlanOf(desc, live, pairs);
      var t := plan[n].target;
      && t in Targets(pairs)
      && Filter(On(t), plan) == StepsFor(desc, t, Canon(Listed(pairs, t)), Canon(ListOf(live, t)))
      && plan[n] in Filter(On(t), plan)
  {
    var plan := PlanOf(desc, live, pairs);
    TargetsDistinct(pairs);
    PlanShare(desc, live, pairs, Targets(pairs), plan[n].target);
    FilterMember(On(plan[n].target), plan, plan[n]);
  }

  /** Every action is about a target some row names that does not hold what its rows list, and
      says so in the way of the matrix. */
  lemma ActionsPlain(desc: MatrixDesc, live: seq<TargetState>, rows: seq<XpointRow>, n: nat)
    requires Planned(desc, live, rows).Ok? && n < |Planned(desc, live, rows).value|
    ensures var a := Planned(desc, live, rows).value[n];
      var wanted, held := Wanted(rows, a.target), ToSet(ListOf(live, a.target));
      && (exists row :: row in rows && Naming(a.target, row))
      && wanted != held && Says(desc.behavior, a, wanted, held)
  {
    var pairs := PairsOf(rows).value;
    var t := PlanOf(desc, live, pairs)[n].target;
    ShareOf(desc, live, pairs, n);
    WantedIsListed(rows, t);
    StepsSay(desc, t, Listed(pairs, t), ListOf(live, t));
  }

  lemma SomeOn(plan: seq<XpointChange>, t: int32)
    requires Filter(On(t), plan) != []
    ensures exists n :: 0 <= n < |plan| && plan[n].target == t
  {
    var a := Filter(On(t), plan)[0];
    FilterMember(On(t), plan, a);
    var n :| 0 <= n < |plan| && plan[n] == a;
    assert plan[n].target == t;
  }

  /** Every target that does not hold what its rows list has an action. */
  lemma EveryNeedPlanned(desc: MatrixDesc, live: seq<TargetState>, rows: seq<XpointRow>, row: XpointRow)
    requires Planned(desc, live, rows).Ok? && row in rows
    ensures var t, plan := ToInt32(Number(row.dest)), Planned(desc, live, rows).value;
      Wanted(rows, t) != ToSet(ListOf(live, t)) ==> exists n :: 0 <= n < |plan| && plan[n].target == t
  {
    var pairs, t, plan := PairsOf(rows).value, ToInt32(Number(row.dest)), Planned(desc, live, rows).value;
    WantedIsListed(rows, t);
    assert Naming(t, row);
    TargetsDistinct(pairs);
    PlanShare(desc, live, pairs, Targets(pairs), t);
    StepsSay(desc, t, Listed(pairs, t), ListOf(live, t));
    if Filter(On(t), plan) != [] {
      SomeOn(plan, t);
    }
  }

  /** Two actions on one target: only on a many-to-many matrix, and there the sources that are
      missing are connected first. */
  lemma TwoOnTarget(behavior: Behavior, plan: seq<XpointChange>, i: nat, j: nat)
    requires i < j < |plan| && plan[i].target == plan[j].target && Few(behavior, Filter(On(plan[i].target), plan))
    ensures behavior == NToM && plan[i].op == Connect && plan[j].op == Disconnect
  {
    var on := On(plan[i].target);
    KeptAt(on, plan, i);
    KeptAt(on, plan, j);
    KeptLater(on, plan, i, j);
    TwoOfFew(behavior, Filter(on, plan), |Filter(on, plan[..i])|, |Filter(on, plan[..j])|);
  }

  lemma TwoOfFew(behavior: Behavior, steps: seq<XpointChange>, k: nat, l: nat)
    requires k < l < |steps| && Few(behavior, steps)
    ensures behavior == NToM && steps[k].op == Connect && steps[l].op == Disconnect
  {
    assert k == 0 && l == 1;
  }

  lemma OneActionEach(desc: MatrixDesc, live: seq<TargetState>, rows: seq<XpointRow>, i: nat, j: nat)
    requires Planned(desc, live, rows).Ok? && i < j < |Planned(desc, live, rows).value|
    ensures var plan := Planned(desc, live, rows).value;
      plan[i].target == plan[j].target ==> desc.behavior == NToM && plan[i].op == Connect && plan[j].op == Disconnect
  {
    var pairs, plan := PairsOf(rows).value, Planned(desc, live, rows).value;
    if plan[i].target == plan[j].target {
      ShareOf(desc, live, pairs, i);
      StepsSay(desc, plan[i].target, Listed(pairs, plan[i].target), ListOf(live, plan[i].target));
      TwoOnTarget(desc.behavior, plan, i, j);
    }
  }

  // ---- a target of one source ----

  /** On a matrix that is not many-to-many a target has its old sources or its new ones, and
      never both, at every stage of the run. */
  lemma OldOrNew(desc: MatrixDesc, live: seq<TargetState>, rows: seq<XpointRow>, c: Conns, n: nat, t: int32)
    requires desc.behavior != NToM && Shows(live, c)
    requires Planned(desc, live, rows).Ok? && n <= |Planned(desc, live, rows).value|
    ensures var s := Sources(Run(c, Planned(desc, live, rows).value[..n]), t);
      s == Sources(c, t) || (s == Wanted(rows, t) && exists row :: row in rows && Naming(t, row))
  {
    var pairs, plan := PairsOf(rows).value, Planned(desc, live, rows).value;
    TargetsDistinct(pairs);
    PlanShare(desc, live, pairs, Targets(pairs), t);
    WantedIsListed(rows, t);
    StepsSay(desc, t, Listed(pairs, t), ListOf(live, t));
    PartWay(c, plan, n, t);
    TakenAtOnce(Sources(c, t), Filter(On(t), plan), |Filter(On(t), plan[..n])|, Wanted(rows, t));
  }

  lemma TakenAtOnce(held: set<int32>, mine: seq<XpointChange>, m: nat, wanted: set<int32>)
    requires m <= |mine| <= 1 && forall a :: a in mine ==> a.op == Absolute && ToSet(a.sources) == wanted
    ensures RunSet(held, mine[..m]) == if m == 0 then held else wanted
  {
    if m > 0 {
      assert mine[..m] == mine && mine[0] in mine && mine[..0] == [];
    }
  }

  /** A target that holds at most one source never holds two while a one-source file is
      imported. */
  lemma NeverTwo(desc: MatrixDesc, live: seq<TargetState>, rows: seq<XpointRow>, c: Conns, n: nat, t: int32)
    requires desc.behavior == OneToOne || desc.behavior == OneToN
    requires Planned(desc, live, rows).Ok? && n <= |Planned(desc, live, rows).value|
    requires Shows(live, c) && |Sources(c, t)| <= 1
    ensures |Sources(Run(c, Planned(desc, live, rows).value[..n]), t)| <= 1
  {
    var pairs := PairsOf(rows).value;
    OldOrNew(desc, live, rows, c, n, t);
    WantedIsListed(rows, t);
    if t in Targets(pairs) {
      SetNotLarger(Listed(pairs, t));
    }
  }

  // ---- the order of the plan ----

  lemma {:induction false} OverOrder(desc: MatrixDesc, live: seq<TargetState>, pairs: seq<Pair>, targets: seq<int32>,
                                     i: nat, j: nat)
    returns (a: nat, b: nat)
    requires i <= j < |PlanOver(desc, live, pairs, targets)|
    ensures a <= b < |targets|
    ensures var plan := PlanOver(desc, live, pairs, targets);
      plan[i].target == targets[a] && plan[j].target == targets[b]
  {
    var front, t := targets[..|targets| - 1], targets[|targets| - 1];
    var before := PlanOver(desc, live, pairs, front);
    if i < |before| {
      a, b := OverOrder(desc, live, pairs, front, i, if j < |before| then j else i);
    } else {
      a := |targets| - 1;
      LastTarget(desc, live, pairs, targets, i);
    }
    if j >= |before| {
      b := |targets| - 1;
      LastTarget(desc, live, pairs, targets, j);
    }
  }

  lemma LastTarget(desc: MatrixDesc, live: seq<TargetState>, pairs: seq<Pair>, targets: seq<int32>, i: nat)
    requires targets != [] && i < |PlanOver(desc, live, pairs, targets)|
    requires i >= |PlanOver(desc, live, pairs, targets[..|targets| - 1])|
    ensures PlanOver(desc, live, pairs, targets)[i].target == targets[|targets| - 1]
  {
    var t := targets[|targets| - 1];
    var steps := StepsFor(desc, t, Canon(Listed(pairs, t)), Canon(ListOf(live, t)));
    StepsSay(desc, t, Listed(pairs, t), ListOf(live, t));
    assert steps[i - |PlanOver(desc, live, pairs, targets[..|targets| - 1])|] in steps;
  }

  lemma SeenTarget(pairs: seq<Pair>, y: nat)
    requires y < |pairs|
    ensures pairs[y].target in Targets(pairs)
  {
    TargetMember(pairs, pairs[y].target);
    assert pairs[y] == Pair(pairs[y].target, pairs[y].source);
  }

  lemma {:induction false} FirstSeen(pairs: seq<Pair>, a: nat, b: nat, y: nat)
    requires a <= b < |Targets(pairs)| && y < |pairs| && pairs[y].target == Targets(pairs)[b]
    ensures exists x :: 0 <= x <= y && pairs[x].target == Targets(pairs)[a]
  {
    var front, last := pairs[..|pairs| - 1], pairs[|pairs| - 1];
    TargetsDistinct(pairs);
    if y < |front| {
      assert front[y] == pairs[y];
      SeenTarget(front, y);
      FirstSeen(front, a, b, y);
      var x :| 0 <= x <= y && front[x].target == Targets(front)[a];
      assert pairs[x] == front[x];
    } else if a < |Targets(front)| {
      TargetMember(front, Targets(pairs)[a]);
      var s :| Pair(Targets(pairs)[a], s) in front;
      var x :| 0 <= x < |front| && front[x] == Pair(Targets(pairs)[a], s);
      assert pairs[x] == front[x];
    }
  }

  /** The targets are planned in the order in which the rows first name them. */
  lemma OrderPlain(desc: MatrixDesc, live: seq<TargetState>, rows: seq<XpointRow>, i: nat, j: nat, y: nat)
    requires Planned(desc, live, rows).Ok? && i <= j < |Planned(desc, live, rows).value|
    requires y < |rows| && Naming(Planned(desc, live, rows).value[j].target, rows[y])
    ensures exists x :: 0 <= x <= y && Naming(Planned(desc, live, rows).value[i].target, rows[x])
  {
    var pairs := PairsOf(rows).value;
    var a, b := OverOrder(desc, live, pairs, Targets(pairs), i, j);
    PairAt(rows, y);
    FirstSeen(pairs, a, b, y);
    var x :| 0 <= x <= y && pairs[x].target == Targets(pairs)[a];
    PairAt(rows, x);
    assert Naming(Planned(desc, live, rows).value[i].target, rows[x]);
  }

  // ---- the files that are refused ----

  ghost predicate Readable(row: XpointRow) {
    row.levels == ["0"] && Atoi(row.dest).Some? && Atoi(row.srce).Some?
  }

  /** Why a row is refused: the levels first, then the destination, then the source. */
  ghost predicate Refused(row: XpointRow, e: MatrixError) {
    if row.levels != ["0"] then e == BadLevels(row.dest)
    else if Atoi(row.dest).None? then e == BadTarget(row.dest)
    else Atoi(row.srce).None? && e == BadSource(row.srce)
  }

  function RowsOn(t: int32): XpointRow -> bool {
    (row: XpointRow) => Naming(t, row)
  }

  lemma {:induction false} ListedOf(read: XpointRow -> Pair, on: XpointRow -> bool, rows: seq<XpointRow>, t: int32)
    requires forall row :: on(row) <==> read(row).target == t
    ensures |Listed(Mapped(read, rows), t)| == |Filter(on, rows)|
  {
    if rows != [] {
      var front, last := rows[..|rows| - 1], rows[|rows| - 1];
      ListedOf(read, on, front, t);
      assert rows == front + [last];
      FilterLast(on, front, last);
      MappedLast(read, front, last);
      OneMoreListed(Mapped(read, front), read(last), t);
    }
  }

  function Reading(): XpointRow -> Pair {
    (row: XpointRow) => PairFor(row)
  }

  lemma ListedRows(rows: seq<XpointRow>, t: int32)
    requires PairsOf(rows).Ok?
    ensures |Listed(PairsOf(rows).value, t)| == |Filter(RowsOn(t), rows)|
  {
    var pairs := PairsOf(rows).value;
    MappedAt(Reading(), rows);
    forall i | 0 <= i < |rows|
      ensures |pairs| == |rows| && pairs[i] == Mapped(Reading(), rows)[i]
    {
      PairAt(rows, i);
    }
    assert pairs == Mapped(Reading(), rows);
    ListedOf(Reading(), RowsOn(t), rows, t);
  }

  lemma OneMoreListed(pairs: seq<Pair>, p: Pair, t: int32)
    ensures |Listed(pairs + [p], t)| == |Listed(pairs, t)| + if p.target == t then 1 else 0
  {
    assert (pairs + [p])[..|pairs|] == pairs;
  }

  /** Row `i` is the first that is refused. */
  ghost predicate FirstRefused(rows: seq<XpointRow>, i: nat, e: MatrixError) {
    i < |rows| && Refused(rows[i], e) && forall j :: 0 <= j < i ==> Readable(rows[j])
  }

  lemma PairIff(row: XpointRow)
    ensures if Readable(row) then RowPair(row).Ok? else RowPair(row).Err? && Refused(row, RowPair(row).error)
  {
  }

  lemma {:induction false} ErrorAt(rows: seq<XpointRow>) returns (i: nat)
    requires PairsOf(rows).Err?
    ensures i < |rows| && PairsOf(rows[..i]).Ok? && RowPair(rows[i]) == Err(PairsOf(rows).error)
  {
    var front := rows[..|rows| - 1];
    i := |front|;
    if PairsOf(front).Err? {
      i := ErrorAt(front);
      assert front[..i] == rows[..i];
    }
  }

  lemma RowsRead(rows: seq<XpointRow>)
    requires PairsOf(rows).Ok?
    ensures forall row :: row in rows ==> Readable(row)
  {
    PairMember(rows, Pair(0, 0));
    forall row | row in rows
      ensures Readable(row)
    {
      PairIff(row);
    }
  }

  lemma ReadRowsIff(rows: seq<XpointRow>)
    ensures if forall row :: row in rows ==> Readable(row) then PairsOf(rows).Ok?
            else PairsOf(rows).Err? && exists i: nat :: FirstRefused(rows, i, PairsOf(rows).error)
  {
    if PairsOf(rows).Ok? {
      RowsRead(rows);
    } else {
      var i := ErrorAt(rows);
      RowsRead(rows[..i]);
      PairIff(rows[i]);
      assert forall j :: 0 <= j < i ==> rows[j] in rows[..i];
      assert FirstRefused(rows, i, PairsOf(rows).error);
      assert rows[i] in rows;
    }
  }

  /** How many rows one target may have. */
  ghost predicate Grants(desc: MatrixDesc, count: nat) {
    && (desc.behavior in {OneToOne, OneToN} ==> count <= 1)
    && (desc.behavior == NToM && desc.maxPerTarget > 0 ==> count <= desc.maxPerTarget)
  }

  /** A file is planned exactly when every row is on level "0" with two numbers and no target
      has more rows than the matrix grants; the first row that is not such decides the error,
      and too many rows are reported only when there is none. */
  lemma AcceptedPlain(desc: MatrixDesc, live: seq<TargetState>, rows: seq<XpointRow>)
    ensures Planned(desc, live, rows).Ok?
       <==> (forall row :: row in rows ==> Readable(row)) && forall t :: Grants(desc, |Filter(RowsOn(t), rows)|)
    ensures Planned(desc, live, rows).Err? ==>
      var e := Planned(desc, live, rows).error;
      if forall row :: row in rows ==> Readable(row) then e == TooManySources
      else exists i: nat :: FirstRefused(rows, i, e)
  {
    ReadRowsIff(rows);
    if PairsOf(rows).Ok? {
      var pairs := PairsOf(rows).value;
      forall t
        ensures Grants(desc, |Filter(RowsOn(t), rows)|) <==> t !in Targets(pairs) || Allowed(desc, |Listed(pairs, t)|)
      {
        ListedRows(rows, t);
        UnlistedTarget(pairs, t);
      }
    }
  }

  lemma UnlistedTarget(pairs: seq<Pair>, t: int32)
    ensures t !in Targets(pairs) ==> Listed(pairs, t) == []
  {
    if t !in Targets(pairs) && Listed(pairs, t) != [] {
      var s := Listed(pairs, t)[0];
      ListedMember(pairs, t, s);
      TargetMember(pairs, t);
    }
  }

  // ---- the plan of a replacement ----

  lemma ReplaceSteps(behavior: Behavior, ts: TargetState, from: int32, to: int32)
    ensures var steps := StepsOf(behavior, ts, from, to);
      var held := ToSet(ts.sources);
      && Few(behavior, steps)
      && forall a :: a in steps ==>
           && a.target == ts.target && from in held
           && Says(behavior, a, held - {from} + {to}, held)
  {
    var have := Canon(ts.sources);
    CanonAscends(ts.sources);
    SwappedSetOf(have, from, to);
    assert from in ts.sources <==> from in ToSet(ts.sources);
    if from in ts.sources {
      if behavior == NToM {
        CanonAgain(ts.sources);
        IncrementalSays(ts.target, Swapped(have, from, to), have);
      } else {
        CanonAscends(Swapped(have, from, to));
      }
    }
  }

  lemma CanonAgain(s: seq<int32>)
    ensures Canon(Canon(s)) == Canon(s)
  {
    CanonSet(s);
    CanonEqualIff(Canon(s), s);
  }

  /** Every action of a replacement is about a target that carries the old source and says, in
      the way of the matrix, that it is to take the new one instead; the targets come in
      ascending order, one action each but for the two of a many-to-many matrix. */
  lemma ReplaceActionsPlain(behavior: Behavior, snap: seq<TargetState>, from: int32, to: int32, i: nat)
    requires DistinctTargets(snap) && i < |ReplacePlan(behavior, snap, from, to)|
    ensures var plan := ReplacePlan(behavior, snap, from, to);
      var held := ToSet(ListOf(snap, plan[i].target));
      && from in held && Says(behavior, plan[i], held - {from} + {to}, held)
      && forall j :: i < j < |plan| ==>
           || plan[i].target < plan[j].target
           || (plan[i].target == plan[j].target
               && behavior == NToM && plan[i].op == Connect && plan[j].op == Disconnect)
  {
    var plan := ReplacePlan(behavior, snap, from, to);
    var t := plan[i].target;
    PlanShareOf(behavior, snap, from, to, t);
    FilterMember(On(t), plan, plan[i]);
    ReplaceSteps(behavior, TargetState(t, ListOf(snap, t)), from, to);
    SortSorts(TargetLess, RawPlan(behavior, snap, from, to));
    forall j | i < j < |plan|
      ensures plan[i].target <= plan[j].target
      ensures plan[i].target == plan[j].target ==>
        behavior == NToM && plan[i].op == Connect && plan[j].op == Disconnect
    {
      assert InOrder(TargetLess, plan, i, j);
      if plan[i].target == plan[j].target {
        TwoOnTarget(behavior, plan, i, j);
      }
    }
  }
}
