/** The crosspoint leg: the plan that takes the live routing to the desired one, and
    what running it, wholly or in part, does to the server's cells. */
module Routes {
  import opened Wrappers
  import opened Text
  import opened Sorting
  import opened Ids

  /** One route: `srce` feeds `dest` on `level`. `srceLevel` is the level of the source
      when it is another one, "" otherwise. */
  datatype RouteSpec = RouteSpec(dest: string, srce: string, level: string, srceLevel: string)

  datatype Cell = Cell(dest: string, level: string)

  datatype Held = Held(srce: string, srceLevel: string)

  /** The routing of the server: what each fed cell holds. */
  type Cells = map<Cell, Held>

  datatype RouteChange = RouteChange(dest: string, level: string, from: string, to: string, srceLevel: string)
  {
    function Target(): Cell {
      Cell(dest, level)
    }

    function ToText(): string {
      RouteSource(to, srceLevel)
    }
  }

  function CellOf(r: RouteSpec): Cell {
    Cell(r.dest, r.level)
  }

  function CrossLevelSource(destLevel: string, srceLevel: string): string {
    if destLevel == "" || srceLevel == destLevel then "" else srceLevel
  }

  /** A source as the plan compares it, with its level on a cross-level route. */
  function RouteSource(srce: string, srceLevel: string): string {
    if srce == "" || srceLevel == "" then srce else srce + "@lvl" + srceLevel
  }

  /** The cells a snapshot describes; a later row of the same cell wins. */
  function CellsOf(live: seq<RouteSpec>): Cells {
    if live == [] then map[]
    else
      var r := live[|live| - 1];
      CellsOf(live[..|live| - 1])[CellOf(r) := Held(r.srce, r.srceLevel)]
  }

  function Shown(cells: Cells, k: Cell): string {
    if k in cells then RouteSource(cells[k].srce, cells[k].srceLevel) else ""
  }

  // ---- what a snapshot leaves out ----

  /** An ID the server puts where no source is: none, "0", or the top page of the 32-bit
      numbers. */
  predicate NoRoute(srce: string) {
    srce == "" || srce == "0" || (AllDigits(srce) && 0xFFFF_FF00 <= Decimal(srce) < 0x1_0000_0000)
  }

  /** The cells a snapshot of the server tells of. */
  function Reported(srv: Cells): Cells {
    map k | k in srv && !NoRoute(srv[k].srce) :: srv[k]
  }

  /** The rows are a snapshot of the server. */
  ghost predicate Reports(live: seq<RouteSpec>, srv: Cells) {
    CellsOf(live) == Reported(srv)
  }

  /** What a desired row wants its cell to show. */
  function Goal(d: RouteSpec): string {
    RouteSource(d.srce, CrossLevelSource(d.level, d.srceLevel))
  }

  function Wanted(d: RouteSpec): Held {
    Held(d.srce, CrossLevelSource(d.level, d.srceLevel))
  }

  function ChangeFor(cells: Cells, d: RouteSpec): RouteChange {
    RouteChange(d.dest, d.level, Shown(cells, CellOf(d)), d.srce, CrossLevelSource(d.level, d.srceLevel))
  }

  predicate ChangeLess(a: RouteChange, b: RouteChange) {
    var c := CmpId(a.dest, b.dest);
    if c != 0 then c < 0 else CmpId(a.level, b.level) < 0
  }

  function RawDiff(cells: Cells, desired: seq<RouteSpec>): seq<RouteChange> {
    if desired == [] then []
    else
      var d := desired[|desired| - 1];
      var before := RawDiff(cells, desired[..|desired| - 1]);
      if Shown(cells, CellOf(d)) != Goal(d) then before + [ChangeFor(cells, d)] else before
  }

  function RouteDiff(live: seq<RouteSpec>, desired: seq<RouteSpec>): seq<RouteChange> {
    Sort(ChangeLess, RawDiff(CellsOf(live), desired))
  }

  method DiffRoutes(live: seq<RouteSpec>, desired: seq<RouteSpec>) returns (out: seq<RouteChange>)
    ensures out == RouteDiff(live, desired)
  {
    var cur: map<Cell, string> := map[];
    for i := 0 to |live|
      invariant cur.Keys == CellsOf(live[..i]).Keys
      invariant forall k :: k in cur ==> cur[k] == Shown(CellsOf(live[..i]), k)
    {
      var r := live[i];
      assert live[..i + 1][..i] == live[..i];
      cur := cur[CellOf(r) := RouteSource(r.srce, r.srceLevel)];
    }
    assert live[..|live|] == live;
    out := [];
    for i := 0 to |desired|
      invariant out == RawDiff(CellsOf(live), desired[..i])
    {
      var d := desired[i];
      assert desired[..i + 1][..i] == desired[..i];
      var have := if CellOf(d) in cur then cur[CellOf(d)] else "";
      var change := RouteChange(d.dest, d.level, have, d.srce, CrossLevelSource(d.level, d.srceLevel));
      if have != change.ToText() {
        out := out + [change];
      }
    }
    assert desired[..|desired|] == desired;
    out := Sort(ChangeLess, out);
  }

  // ---- running a plan ----

  /** One ROUTE action: the cell takes the new source. */
  function Apply(cells: Cells, c: RouteChange): Cells {
    cells[c.Target() := Held(c.to, c.srceLevel)]
  }

  /** The plan sent in order; a refused action leaves the server as it was and the run
      goes on with the next. */
  function Run(cells: Cells, plan: seq<RouteChange>, accepts: RouteChange -> bool): Cells {
    if plan == [] then cells
    else
      var before := Run(cells, plan[..|plan| - 1], accepts);
      if accepts(plan[|plan| - 1]) then Apply(before, plan[|plan| - 1]) else before
  }

  function Everything(): RouteChange -> bool {
    c => true
  }

  /** No cell is asked to show two different sources. */
  ghost predicate Consistent(desired: seq<RouteSpec>) {
    forall d, e :: d in desired && e in desired && CellOf(d) == CellOf(e) ==> Goal(d) == Goal(e)
  }

  /** The rows of one cell ask for one source and source level; a file may name a cell twice. */
  ghost predicate Agreed(desired: seq<RouteSpec>) {
    forall d, e :: d in desired && e in desired && CellOf(d) == CellOf(e) ==>
      d.srce == e.srce && CrossLevelSource(d.level, d.srceLevel) == CrossLevelSource(e.level, e.srceLevel)
  }

  lemma {:induction false} RawDiffMember(cells: Cells, desired: seq<RouteSpec>, c: RouteChange)
    ensures c in RawDiff(cells, desired)
       <==> exists d :: d in desired && Shown(cells, CellOf(d)) != Goal(d) && c == ChangeFor(cells, d)
  {
    if desired != [] {
      var front, last := desired[..|desired| - 1], desired[|desired| - 1];
      RawDiffMember(cells, front, c);
      assert desired == front + [last];
    }
  }

  /** The plan holds one change for every desired row whose cell shows something else,
      and nothing more. */
  lemma PlanMember(live: seq<RouteSpec>, desired: seq<RouteSpec>, c: RouteChange)
    ensures c in RouteDiff(live, desired)
       <==> exists d :: d in desired && Shown(CellsOf(live), CellOf(d)) != Goal(d) && c == ChangeFor(CellsOf(live), d)
  {
    SortMember(ChangeLess, RawDiff(CellsOf(live), desired), c);
    RawDiffMember(CellsOf(live), desired, c);
  }

  lemma {:induction false} RunElsewhere(cells: Cells, plan: seq<RouteChange>, accepts: RouteChange -> bool, k: Cell)
    requires forall c :: c in plan && accepts(c) ==> c.Target() != k
    ensures k in Run(cells, plan, accepts) <==> k in cells
    ensures k in cells ==> Run(cells, plan, accepts)[k] == cells[k]
  {
    if plan != [] {
      assert plan == plan[..|plan| - 1] + [plan[|plan| - 1]];
      RunElsewhere(cells, plan[..|plan| - 1], accepts, k);
    }
  }

  /** A cell some accepted change aims at shows what the changes of that cell agree on. */
  lemma {:induction false} RunShows(cells: Cells, plan: seq<RouteChange>, accepts: RouteChange -> bool, c: RouteChange)
    requires c in plan && accepts(c)
    requires forall e :: e in plan && e.Target() == c.Target() ==> e.ToText() == c.ToText()
    ensures Shown(Run(cells, plan, accepts), c.Target()) == c.ToText()
  {
    var front, last := plan[..|plan| - 1], plan[|plan| - 1];
    assert plan == front + [last];
    if !(accepts(last) && last.Target() == c.Target()) {
      RunShows(cells, front, accepts, c);
    }
  }

  lemma PlanAgrees(live: seq<RouteSpec>, desired: seq<RouteSpec>)
    requires Consistent(desired)
    ensures forall c, e :: c in RouteDiff(live, desired) && e in RouteDiff(live, desired) && c.Target() == e.Target()
              ==> c.ToText() == e.ToText()
  {
    forall c, e | c in RouteDiff(live, desired) && e in RouteDiff(live, desired) && c.Target() == e.Target()
      ensures c.ToText() == e.ToText()
    {
      PlanMember(live, desired, c);
      PlanMember(live, desired, e);
    }
  }

  /** Every row names a source; the file's parser sees to that. */
  ghost predicate Sourced(desired: seq<RouteSpec>) {
    forall d :: d in desired ==> d.srce != ""
  }

  /** Running the whole plan on the server makes every desired cell show its goal and leaves
      every cell the file does not name exactly as it was. */
  lemma RoutesConverge(srv: Cells, live: seq<RouteSpec>, desired: seq<RouteSpec>)
    requires Reports(live, srv) && Consistent(desired) && Sourced(desired)
    ensures var after := Run(srv, RouteDiff(live, desired), Everything());
      && (forall d :: d in desired ==> Shown(after, CellOf(d)) == Goal(d))
      && (forall k :: (forall d :: d in desired ==> CellOf(d) != k) ==>
            (k in after <==> k in srv) && (k in after ==> after[k] == srv[k]))
  {
    forall d | d in desired
      ensures Shown(Run(srv, RouteDiff(live, desired), Everything()), CellOf(d)) == Goal(d)
    {
      CellConverges(srv, live, desired, d);
    }
    forall k | forall d :: d in desired ==> CellOf(d) != k
      ensures k in Run(srv, RouteDiff(live, desired), Everything()) <==> k in srv
      ensures k in srv ==> Run(srv, RouteDiff(live, desired), Everything())[k] == srv[k]
    {
      UnnamedCell(srv, live, desired, Everything(), k);
    }
  }

  lemma CellConverges(srv: Cells, live: seq<RouteSpec>, desired: seq<RouteSpec>, d: RouteSpec)
    requires Reports(live, srv) && Consistent(desired) && Sourced(desired) && d in desired
    ensures Shown(Run(srv, RouteDiff(live, desired), Everything()), CellOf(d)) == Goal(d)
  {
    var plan, mine := RouteDiff(live, desired), ChangeFor(CellsOf(live), d);
    PlanAgrees(live, desired);
    PlanMember(live, desired, mine);
    if mine in plan {
      RunShows(srv, plan, Everything(), mine);
    } else {
      forall c | c in plan
        ensures c.Target() != CellOf(d)
      {
        PlanMember(live, desired, c);
      }
      RunElsewhere(srv, plan, Everything(), CellOf(d));
    }
  }

  /** However much of the plan is accepted, a cell the file does not name is left alone. */
  lemma UnnamedCell(srv: Cells, live: seq<RouteSpec>, desired: seq<RouteSpec>, accepts: RouteChange -> bool, k: Cell)
    requires forall d :: d in desired ==> CellOf(d) != k
    ensures var after := Run(srv, RouteDiff(live, desired), accepts);
      (k in after <==> k in srv) && (k in after ==> after[k] == srv[k])
  {
    forall c | c in RouteDiff(live, desired)
      ensures c.Target() != k
    {
      PlanMember(live, desired, c);
    }
    RunElsewhere(srv, RouteDiff(live, desired), accepts, k);
  }

  // ---- what each cell holds, and what the next snapshot tells ----

  lemma {:induction false} RunHolds(cells: Cells, plan: seq<RouteChange>, accepts: RouteChange -> bool, c: RouteChange)
    requires c in plan && accepts(c) && forall e :: e in plan && e.Target() == c.Target() ==> e == c
    ensures c.Target() in Run(cells, plan, accepts)
    ensures Run(cells, plan, accepts)[c.Target()] == Held(c.to, c.srceLevel)
  {
    var front, last := plan[..|plan| - 1], plan[|plan| - 1];
    assert plan == front + [last];
    if last != c {
      RunHolds(cells, front, accepts, c);
    }
  }

  /** The row's change is planned. */
  ghost predicate Planned(live: seq<RouteSpec>, d: RouteSpec) {
    Shown(CellsOf(live), CellOf(d)) != Goal(d)
  }

  /** Where the cell of a row stands after a run that accepted some of the plan: it holds
      what the row wants when a change was needed and accepted, and what it held before
      otherwise. */
  lemma CellAfter(srv: Cells, live: seq<RouteSpec>, desired: seq<RouteSpec>, accepts: RouteChange -> bool, d: RouteSpec)
    requires Agreed(desired) && d in desired
    ensures var after, k := Run(srv, RouteDiff(live, desired), accepts), CellOf(d);
      if Planned(live, d) && accepts(ChangeFor(CellsOf(live), d)) then k in after && after[k] == Wanted(d)
      else (k in after <==> k in srv) && (k in srv ==> after[k] == srv[k])
  {
    var plan, mine := RouteDiff(live, desired), ChangeFor(CellsOf(live), d);
    PlanMember(live, desired, mine);
    forall e | e in plan && e.Target() == CellOf(d)
      ensures e == mine
    {
      PlanMember(live, desired, e);
    }
    if mine in plan && accepts(mine) {
      RunHolds(srv, plan, accepts, mine);
    } else {
      RunElsewhere(srv, plan, accepts, CellOf(d));
    }
  }

  /** What the next snapshot tells of the cell: a source that is no route is not told. */
  lemma ToldAfter(srv: Cells, live: seq<RouteSpec>, desired: seq<RouteSpec>, accepts: RouteChange -> bool, d: RouteSpec)
    requires Reports(live, srv) && Agreed(desired) && d in desired
    ensures var told := Shown(Reported(Run(srv, RouteDiff(live, desired), accepts)), CellOf(d));
      told == if Planned(live, d) && accepts(ChangeFor(CellsOf(live), d))
              then (if NoRoute(d.srce) then "" else Goal(d))
              else Shown(CellsOf(live), CellOf(d))
  {
    CellAfter(srv, live, desired, accepts, d);
  }

  lemma {:induction false} RawDiffEmpty(cells: Cells, desired: seq<RouteSpec>)
    ensures RawDiff(cells, desired) == [] <==> forall d :: d in desired ==> Shown(cells, CellOf(d)) == Goal(d)
  {
    if desired != [] {
      RawDiffEmpty(cells, desired[..|desired| - 1]);
      assert desired == desired[..|desired| - 1] + [desired[|desired| - 1]];
    }
  }

  lemma PlanEmpty(live: seq<RouteSpec>, desired: seq<RouteSpec>)
    ensures RouteDiff(live, desired) == [] <==> forall d :: d in desired ==> Shown(CellsOf(live), CellOf(d)) == Goal(d)
  {
    SortPermutes(ChangeLess, RawDiff(CellsOf(live), desired));
    RawDiffEmpty(CellsOf(live), desired);
  }

  /** Rows of one cell that read alike name one source. */
  ghost predicate Telling(desired: seq<RouteSpec>) {
    forall d, e :: d in desired && e in desired && CellOf(d) == CellOf(e) && Goal(d) == Goal(e) ==> d.srce == e.srce
  }

  lemma AgreedIff(desired: seq<RouteSpec>)
    requires Telling(desired) && Sourced(desired)
    ensures Agreed(desired) <==> Consistent(desired)
  {
    if Consistent(desired) {
      forall d, e | d in desired && e in desired && CellOf(d) == CellOf(e)
        ensures d.srce == e.srce && CrossLevelSource(d.level, d.srceLevel) == CrossLevelSource(e.level, e.srceLevel)
      {
        assert Goal(d) == Goal(e);
        SameSourceSameLevel(Wanted(d), Wanted(e));
      }
    }
  }

  lemma SameSourceSameLevel(a: Held, b: Held)
    requires a.srce == b.srce != "" && RouteSource(a.srce, a.srceLevel) == RouteSource(b.srce, b.srceLevel)
    ensures a == b
  {
    var t, n := RouteSource(a.srce, a.srceLevel), |a.srce| + 4;
    assert a.srceLevel != "" ==> a.srceLevel == t[n..];
    assert b.srceLevel != "" ==> b.srceLevel == t[n..];
  }

  /** The action of the plan that is sent last to a cell. */
  function LastOn(plan: seq<RouteChange>, k: Cell): Option<RouteChange> {
    if plan == [] then None
    else if plan[|plan| - 1].Target() == k then Some(plan[|plan| - 1])
    else LastOn(plan[..|plan| - 1], k)
  }

  lemma {:induction false} LastDecides(cells: Cells, plan: seq<RouteChange>, k: Cell)
    ensures var after := Run(cells, plan, Everything());
      match LastOn(plan, k)
      case None => (k in after <==> k in cells) && (k in cells ==> after[k] == cells[k])
      case Some(c) => c in plan && c.Target() == k && k in after && after[k] == Held(c.to, c.srceLevel)
    ensures LastOn(plan, k).None? ==> forall c :: c in plan ==> c.Target() != k
  {
    if plan != [] {
      assert plan == plan[..|plan| - 1] + [plan[|plan| - 1]];
      LastDecides(cells, plan[..|plan| - 1], k);
    }
  }

  /** The cell is not left by the plan on a source that no snapshot tells of. */
  predicate LeftTold(plan: seq<RouteChange>, k: Cell) {
    LastOn(plan, k).Some? ==> !NoRoute(LastOn(plan, k).value.to)
  }

  lemma CellSettlesIff(srv: Cells, live: seq<RouteSpec>, desired: seq<RouteSpec>, again: seq<RouteSpec>, d: RouteSpec)
    requires Reports(live, srv) && Sourced(desired) && Consistent(desired) && d in desired
    requires Reports(again, Run(srv, RouteDiff(live, desired), Everything()))
    ensures Shown(CellsOf(again), CellOf(d)) == Goal(d) <==> LeftTold(RouteDiff(live, desired), CellOf(d))
  {
    CellConverges(srv, live, desired, d);
    LastDecides(srv, RouteDiff(live, desired), CellOf(d));
    PlanMember(live, desired, ChangeFor(CellsOf(live), d));
    assert Goal(d) != "";
  }

  /** A second run plans nothing exactly when the file asks no cell for two sources and the
      plan leaves no cell on a source that is no route. `live` and `again` are any snapshots
      of the server before and after the first run. */
  lemma RunTwiceIsZeroIff(srv: Cells, live: seq<RouteSpec>, desired: seq<RouteSpec>, again: seq<RouteSpec>)
    requires Reports(live, srv) && Sourced(desired)
    requires Reports(again, Run(srv, RouteDiff(live, desired), Everything()))
    ensures RouteDiff(again, desired) == []
       <==> Consistent(desired) && forall k :: LeftTold(RouteDiff(live, desired), k)
  {
    var plan := RouteDiff(live, desired);
    PlanEmpty(again, desired);
    if Consistent(desired) {
      forall d | d in desired
        ensures Shown(CellsOf(again), CellOf(d)) == Goal(d) <==> LeftTold(plan, CellOf(d))
      {
        CellSettlesIff(srv, live, desired, again, d);
      }
      forall k
        ensures LeftTold(plan, k) || exists d :: d in desired && CellOf(d) == k
      {
        OnlyNamedCells(srv, live, desired, k);
      }
    }
  }

  lemma OnlyNamedCells(srv: Cells, live: seq<RouteSpec>, desired: seq<RouteSpec>, k: Cell)
    ensures LastOn(RouteDiff(live, desired), k).Some? ==>
      exists d :: d in desired && CellOf(d) == k && d.srce == LastOn(RouteDiff(live, desired), k).value.to
  {
    LastDecides(srv, RouteDiff(live, desired), k);
    if LastOn(RouteDiff(live, desired), k).Some? {
      PlanMember(live, desired, LastOn(RouteDiff(live, desired), k).value);
    }
  }

  /** A row for a source that is no route: the cell is never told, and every run plans it. */
  lemma NoRouteNeverSettles(level: string)
    ensures var desired := [RouteSpec("1", "0", level, "")];
      && Reports([], map[]) && Consistent(desired)
      && |RouteDiff([], desired)| == 1
      && Reports([], Run(map[], RouteDiff([], desired), Everything()))
  {
    var d := RouteSpec("1", "0", level, "");
    var c := ChangeFor(map[], d);
    assert [d][..0] == [];
    assert RawDiff(map[], [d]) == [c];
    assert [c][..0] == [];
    assert CellsOf([]) == map[];
    SortOfChain(ChangeLess, [c]);
    assert Run(map[], [], Everything()) == map[];
    assert Run(map[], [c], Everything()) == map[CellOf(d) := Held("0", "")];
  }

  /** Two rows of one cell: whatever stands there, something is planned. */
  lemma ConflictNeverSettles(live: seq<RouteSpec>)
    ensures RouteDiff(live, [RouteSpec("1", "5", "1", ""), RouteSpec("1", "6", "1", "")]) != []
  {
    var d, e := RouteSpec("1", "5", "1", ""), RouteSpec("1", "6", "1", "");
    PlanEmpty(live, [d, e]);
    assert d in [d, e] && e in [d, e] && Goal(d)[0] != Goal(e)[0];
  }

  // ---- resuming a run some of whose actions were refused ----

  /** What the next plan has of a change: refused ones, and those no snapshot tells of. */
  function Stays(accepts: RouteChange -> bool): RouteChange -> bool {
    c => !accepts(c) || NoRoute(c.to)
  }

  /** A change that was carried out and is not told comes from an empty cell the next time. */
  function Anew(accepts: RouteChange -> bool): RouteChange -> RouteChange {
    c => if accepts(c) then c.(from := "") else c
  }

  /** What the next snapshot shows of a desired cell. */
  predicate ShownNext(cells: Cells, after: Cells, accepts: RouteChange -> bool, d: RouteSpec) {
    Shown(after, CellOf(d)) ==
      if Shown(cells, CellOf(d)) == Goal(d) || !accepts(ChangeFor(cells, d)) then Shown(cells, CellOf(d))
      else if NoRoute(d.srce) then ""
      else Goal(d)
  }

  function OneDiff(cells: Cells, d: RouteSpec): seq<RouteChange> {
    if Shown(cells, CellOf(d)) != Goal(d) then [ChangeFor(cells, d)] else []
  }

  lemma ResumeOne(cells: Cells, after: Cells, accepts: RouteChange -> bool, d: RouteSpec)
    requires Sourced([d]) && ShownNext(cells, after, accepts, d)
    ensures OneDiff(after, d) == Mapped(Anew(accepts), Filter(Stays(accepts), OneDiff(cells, d)))
  {
    assert d in [d];
    var c := ChangeFor(cells, d);
    FilterLast(Stays(accepts), [], c);
    MappedLast(Anew(accepts), [], c);
    assert [] + [c] == [c] && [] + [Anew(accepts)(c)] == [Anew(accepts)(c)];
  }

  lemma {:induction false} RawResume(cells: Cells, after: Cells, desired: seq<RouteSpec>, accepts: RouteChange -> bool)
    requires Sourced(desired) && forall d :: d in desired ==> ShownNext(cells, after, accepts, d)
    ensures RawDiff(after, desired) == Mapped(Anew(accepts), Filter(Stays(accepts), RawDiff(cells, desired)))
  {
    if desired != [] {
      var front, last := desired[..|desired| - 1], desired[|desired| - 1];
      assert desired == front + [last];
      RawResume(cells, after, front, accepts);
      ResumeOne(cells, after, accepts, last);
      FilterConcat(Stays(accepts), RawDiff(cells, front), OneDiff(cells, last));
      MappedConcat(Anew(accepts), Filter(Stays(accepts), RawDiff(cells, front)),
        Filter(Stays(accepts), OneDiff(cells, last)));
      assert RawDiff(cells, desired) == RawDiff(cells, front) + OneDiff(cells, last);
      assert RawDiff(after, desired) == RawDiff(after, front) + OneDiff(after, last);
    }
  }

  /** The destinations and the levels a file names are comparable. */
  ghost predicate ComparableNames(desired: seq<RouteSpec>) {
    Comparable(set d | d in desired :: d.dest) && Comparable(set d | d in desired :: d.level)
  }

  lemma ChangeOrder(changes: seq<RouteChange>, dests: set<string>, levels: set<string>)
    requires Comparable(dests) && Comparable(levels)
    requires forall c :: c in changes ==> c.dest in dests && c.level in levels
    ensures Asymmetric(ChangeLess) && WeakOrderOn(ChangeLess, changes)
  {
    forall a, b | ChangeLess(a, b)
      ensures !ChangeLess(b, a)
    {
      CmpIdSign(a.dest, b.dest);
      CmpIdSign(a.level, b.level);
    }
    forall a, b, c | a in changes && b in changes && c in changes
      ensures Splits(ChangeLess, a, b, c)
    {
      CmpIdSplits(dests, a.dest, b.dest, c.dest);
      CmpIdSplits(levels, a.level, b.level, c.level);
    }
  }

  /** After a run that accepted only some actions, the next plan is made of the refused
      ones, and of those to a source no snapshot tells of: nothing is lost, nothing else is
      repeated. With comparable IDs they also come in the same order. */
  lemma RunResumes(srv: Cells, live: seq<RouteSpec>, desired: seq<RouteSpec>, again: seq<RouteSpec>,
                   accepts: RouteChange -> bool)
    requires Reports(live, srv) && Agreed(desired) && Sourced(desired)
    requires Reports(again, Run(srv, RouteDiff(live, desired), accepts))
    ensures var rest := Mapped(Anew(accepts), Filter(Stays(accepts), RouteDiff(live, desired)));
      && multiset(RouteDiff(again, desired)) == multiset(rest)
      && (ComparableNames(desired) ==> RouteDiff(again, desired) == rest)
  {
    var raw := RawDiff(CellsOf(live), desired);
    var f, keep := Anew(accepts), Stays(accepts);
    forall d | d in desired
      ensures ShownNext(CellsOf(live), CellsOf(again), accepts, d)
    {
      ToldAfter(srv, live, desired, accepts, d);
    }
    RawResume(CellsOf(live), CellsOf(again), desired, accepts);
    SortMapped(ChangeLess, ChangeLess, f, Filter(keep, raw));
    SortPermutes(ChangeLess, Filter(keep, raw));
    FilterSortPermutes(ChangeLess, keep, raw);
    MapPermutes(f, Sort(ChangeLess, Filter(keep, raw)), Filter(keep, RouteDiff(live, desired)));
    if ComparableNames(desired) {
      RawOrder(live, desired);
      FilterSort(ChangeLess, keep, raw);
    }
  }

  lemma RawOrder(live: seq<RouteSpec>, desired: seq<RouteSpec>)
    requires ComparableNames(desired)
    ensures Asymmetric(ChangeLess) && WeakOrderOn(ChangeLess, RawDiff(CellsOf(live), desired))
  {
    var raw := RawDiff(CellsOf(live), desired);
    forall c | c in raw
      ensures c.dest in (set d | d in desired :: d.dest) && c.level in (set d | d in desired :: d.level)
    {
      RawDiffMember(CellsOf(live), desired, c);
    }
    ChangeOrder(raw, set d | d in desired :: d.dest, set d | d in desired :: d.level);
  }

  /** With comparable IDs every stable sort gives the plan its order. */
  lemma AnyStableSortPlans(live: seq<RouteSpec>, desired: seq<RouteSpec>, sort: seq<RouteChange> -> seq<RouteChange>)
    requires ComparableNames(desired)
    requires Stable(ChangeLess, sort)
    ensures sort(RawDiff(CellsOf(live), desired)) == RouteDiff(live, desired)
  {
    RawOrder(live, desired);
    StableIsSort(ChangeLess, sort, RawDiff(CellsOf(live), desired));
  }
}
