/** The category leg of an import: the definitions of the three files, one after another, each
    planned against the grids that were live before any of them was sent. */
module CategoryImport {
  import opened Wrappers
  import opened Text
  import opened Categories
  import opened CategoryFile
  import opened CategorySides
  import Sequences
  import Sorting

  type Details = CategoryFile.Details

  /** A listed category that gave no details is there and empty. */
  function LiveOf(names: seq<string>, details: Details, cat: string): Option<seq<LiveItem>> {
    if cat !in names then None
    else if cat in details && details[cat].Some? then details[cat]
    else Some([])
  }

  function ImportPlan(names: seq<string>, details: Details, defs: seq<CatDef>): seq<CatChange> {
    if defs == [] then []
    else
      var d := defs[|defs| - 1];
      ImportPlan(names, details, defs[..|defs| - 1]) + CatDiff(d.name, LiveOf(names, details, d.name), d.items)
  }

  method PlanImport(names: seq<string>, details: Details, defs: seq<CatDef>) returns (out: seq<CatChange>)
    ensures out == ImportPlan(names, details, defs)
  {
    out := [];
    for i := 0 to |defs|
      invariant out == ImportPlan(names, details, defs[..i])
    {
      assert defs[..i + 1][..i] == defs[..i];
      var live := LiveOf(names, details, defs[i].name);
      var changes := DiffCategory(defs[i].name, live, defs[i].items);
      out := out + changes;
    }
    assert defs[..|defs|] == defs;
  }

  /** A file found beside the others may hold no row: categories are then out of scope. A file
      the caller named must hold one. */
  function Loaded(file: FileKind, data: string, named: bool): Result<seq<CatDef>, At<CatError>> {
    match Parsed(file, data)
    case Err(e) => if e.error == NoRows && !named then Ok([]) else Err(e)
    case Ok(defs) => Ok(defs)
  }

  // ---- an untouched export ----

  lemma {:induction false} NothingPlanned(names: seq<string>, details: Details, defs: seq<CatDef>)
    requires forall d :: d in defs ==> CatDiff(d.name, LiveOf(names, details, d.name), d.items) == []
    ensures ImportPlan(names, details, defs) == []
  {
    if defs != [] {
      assert defs == defs[..|defs| - 1] + [defs[|defs| - 1]];
      NothingPlanned(names, details, defs[..|defs| - 1]);
    }
  }

  /** The text of one file of the split. */
  ghost function Exported(file: FileKind, names: seq<string>, details: Details): string {
    Printed(DefsFromLive(names, Picked(file, names, details), details))
  }

  ghost predicate InVocabulary(names: seq<string>, details: Details) {
    && Sequences.Distinct(names) && (forall cat :: cat in names ==> Spellable(details, cat))
    && forall cat, i :: cat in names && i in ItemsOf(details, cat) ==> Blank(i.item) || Spelled(i.item)
  }

  lemma NoSlotsNoRows(file: FileKind, names: seq<string>, pick: set<string>, details: Details)
    requires Writable(names, pick, details) && NonEmpty(DefsFromLive(names, pick, details)) == []
    ensures Parsed(file, Printed(DefsFromLive(names, pick, details))) == Err(At(0, NoRows))
  {
    var defs := DefsFromLive(names, pick, details);
    NoRowsIff(defs);
    BodyReads(file, Rows(defs));
    FileReads(file, Rows(defs));
  }

  /** Each file of the split loads, and none of its definitions plans anything. */
  lemma FileSettled(file: FileKind, names: seq<string>, details: Details)
    requires InVocabulary(names, details)
    ensures var res := Loaded(file, Exported(file, names, details), false);
      res.Ok? && forall d :: d in res.value ==> CatDiff(d.name, LiveOf(names, details, d.name), d.items) == []
  {
    var pick := Picked(file, names, details);
    var defs := DefsFromLive(names, pick, details);
    SpellableWritable(names, pick, details);
    if NonEmpty(defs) == [] {
      NoSlotsNoRows(file, names, pick, details);
    } else {
      SplitReadsBack(file, names, details);
      CategoryExportImportIff(file, names, pick, details);
      forall d | d in UpperDefs(NonEmpty(defs))
        ensures CatDiff(d.name, LiveOf(names, details, d.name), d.items) == []
      {
        ReadDefSettled(names, pick, details, d);
        PlanEmptyIff(d.name, details[d.name], d.items);
      }
    }
  }

  /** The three files of an untouched export load together and plan nothing. */
  lemma JointImportIsZero(names: seq<string>, details: Details)
    requires InVocabulary(names, details)
    ensures var src := Loaded(SrcFile, Exported(SrcFile, names, details), false);
      var dst := Loaded(DstFile, Exported(DstFile, names, details), false);
      var mixed := Loaded(MixedFile, Exported(MixedFile, names, details), false);
      src.Ok? && dst.Ok? && mixed.Ok? && ImportPlan(names, details, src.value + dst.value + mixed.value) == []
  {
    FileSettled(SrcFile, names, details);
    FileSettled(DstFile, names, details);
    FileSettled(MixedFile, names, details);
    NothingPlanned(names, details,
      Loaded(SrcFile, Exported(SrcFile, names, details), false).value
      + Loaded(DstFile, Exported(DstFile, names, details), false).value
      + Loaded(MixedFile, Exported(MixedFile, names, details), false).value);
  }

  // ---- one category in two files ----

  function WantAt(items: seq<Item>, j: int): Item {
    if 1 <= j <= |items| then items[j - 1] else Item("BLANK", "")
  }

  predicate SameItem(a: Item, b: Item) {
    (Blank(a) && Blank(b)) || (!Blank(a) && !Blank(b) && EqualFold(a.kind, b.kind) && a.value == b.value)
  }

  /** The two lists ask for one grid: trailing BLANKs and letter case of types aside, they
      are the same. */
  ghost predicate SameGrid(a: seq<Item>, b: seq<Item>) {
    forall j :: j >= 1 ==> SameItem(WantAt(a, j), WantAt(b, j))
  }

  lemma MatchesMeans(g: Grid, items: seq<Item>)
    ensures Matches(g, items) <==> forall j :: j >= 1 ==> Holds(g, j, WantAt(items, j))
  {
    assert Blank(Item("BLANK", ""));
    if forall j :: j >= 1 ==> Holds(g, j, WantAt(items, j)) {
      forall i | 0 <= i < |items|
        ensures Holds(g, i + 1, items[i])
      {
        assert WantAt(items, i + 1) == items[i];
      }
      forall j | j > |items|
        ensures Empty(g, j)
      {
        assert Holds(g, j, WantAt(items, j));
      }
    }
  }

  lemma HoldsAlike(g: Grid, j: int, a: Item, b: Item)
    requires SameItem(a, b)
    ensures Holds(g, j, a) <==> Holds(g, j, b)
  {
  }

  lemma HoldsBoth(g: Grid, j: int, a: Item, b: Item)
    requires Holds(g, j, a) && Holds(g, j, b)
    ensures SameItem(a, b)
  {
  }

  lemma SameGridMatches(g: Grid, a: seq<Item>, b: seq<Item>)
    requires SameGrid(a, b)
    ensures Matches(g, a) <==> Matches(g, b)
  {
    MatchesMeans(g, a);
    MatchesMeans(g, b);
    forall j | j >= 1
      ensures Holds(g, j, WantAt(a, j)) <==> Holds(g, j, WantAt(b, j))
    {
      HoldsAlike(g, j, WantAt(a, j), WantAt(b, j));
    }
  }

  lemma MatchesBothSame(g: Grid, a: seq<Item>, b: seq<Item>)
    requires Matches(g, a) && Matches(g, b)
    ensures SameGrid(a, b)
  {
    MatchesMeans(g, a);
    MatchesMeans(g, b);
    forall j | j >= 1
      ensures SameItem(WantAt(a, j), WantAt(b, j))
    {
      HoldsBoth(g, j, WantAt(a, j), WantAt(b, j));
    }
  }

  lemma ReportMatches(items: seq<LiveItem>, g: Grid, desired: seq<Item>)
    requires Reports(items, g)
    ensures Matches(GridOf(items), desired) <==> Matches(g, desired)
  {
    MatchesMeans(GridOf(items), desired);
    MatchesMeans(g, desired);
    forall j | j >= 1
      ensures Holds(GridOf(items), j, WantAt(desired, j)) <==> Holds(g, j, WantAt(desired, j))
    {
      assert Empty(GridOf(items), j) <==> Empty(g, j);
      BlankFolds(g, j, WantAt(desired, j));
      BlankFolds(GridOf(items), j, WantAt(desired, j));
    }
  }

  /** The plans of several definitions of one category, each made from what was live before. */
  function Plans(cat: string, live: Option<seq<LiveItem>>, defs: seq<seq<Item>>): seq<CatChange> {
    if defs == [] then [] else Plans(cat, live, defs[..|defs| - 1]) + CatDiff(cat, live, defs[|defs| - 1])
  }

  /** The definitions ask for one grid. */
  ghost predicate AllSame(defs: seq<seq<Item>>) {
    forall a, b :: a in defs && b in defs ==> SameGrid(a, b)
  }

  /** Every definition writes BLANK to the slot, where an item stands, and that is refused. */
  ghost predicate StuckAt(p: Policy, g: Grid, defs: seq<seq<Item>>, j: int) {
    !p.takesBlank && !Empty(g, j) && forall d :: d in defs ==> j <= |d| && Blank(WantAt(d, j))
  }

  ghost predicate NoneStuck(p: Policy, g: Grid, defs: seq<seq<Item>>) {
    forall j :: j >= 1 ==> !StuckAt(p, g, defs, j)
  }

  /** The report is of this state. */
  ghost predicate Told(live: Option<seq<LiveItem>>, state: Option<Grid>) {
    match live
    case None => state.None?
    case Some(items) => state.Some? && Reports(items, state.value)
  }

  /** What one plan does to whether a slot holds what is wanted. */
  lemma PlanAt(p: Policy, cat: string, live: Option<seq<LiveItem>>, mid: Grid, d: seq<Item>, j: int)
    requires Lawful(p) && j >= 1 && forall m :: m > |d| && Empty(Before(live), m) ==> Empty(mid, m)
    ensures var after := Run(p, Some(mid), CatDiff(cat, live, d));
      && after.Some?
      && (Holds(after.value, j, WantAt(d, j)) <==>
            j > |d| || (!Holds(Before(live), j, d[j - 1]) && (p.takesBlank || !Blank(d[j - 1])))
              || Holds(mid, j, d[j - 1]))
  {
    AfterPlanOn(p, cat, live, mid, d, j);
    assert Blank(Item("BLANK", ""));
    if j <= |d| {
      HoldsUnlessNeeds(Before(live), j, d[j - 1]);
    }
  }

  lemma ReportHolds(items: seq<LiveItem>, g: Grid, j: int, want: Item)
    requires Reports(items, g)
    ensures Holds(GridOf(items), j, want) <==> Holds(g, j, want)
  {
    assert Empty(GridOf(items), j) <==> Empty(g, j);
    BlankFolds(g, j, want);
    BlankFolds(GridOf(items), j, want);
  }

  /** Where the plans start: an absent category is created empty. */
  function Start(state: Option<Grid>): Grid {
    if state.Some? then state.value else map[]
  }

  lemma FirstRun(p: Policy, cat: string, live: Option<seq<LiveItem>>, state: Option<Grid>, d: seq<Item>)
    requires Told(live, state)
    ensures Run(p, state, CatDiff(cat, live, d)) == Run(p, Some(Start(state)), CatDiff(cat, live, d))
  {
    if live.None? {
      RunFirst(p, None, Create(cat), Modifies(cat, map[], d));
      RunFirst(p, Some(map[]), Create(cat), Modifies(cat, map[], d));
    }
  }

  lemma StartHolds(live: Option<seq<LiveItem>>, state: Option<Grid>, j: int, want: Item)
    requires Told(live, state)
    ensures Holds(Start(state), j, want) <==> Holds(Before(live), j, want)
    ensures Empty(Start(state), j) <==> Empty(Before(live), j)
  {
    if live.Some? {
      ReportHolds(live.value, state.value, j, want);
      assert Empty(GridOf(live.value), j) <==> Empty(state.value, j);
    }
  }

  /** After all plans a slot holds what is wanted, unless every definition was refused a BLANK
      there. */
  lemma {:induction false} ManyAt(p: Policy, cat: string, live: Option<seq<LiveItem>>, state: Option<Grid>,
                                  defs: seq<seq<Item>>, j: int)
    requires Lawful(p) && Told(live, state) && AllSame(defs) && defs != [] && j >= 1
    ensures var after := Run(p, state, Plans(cat, live, defs));
      after.Some? && ReachedAt(p, Before(live), after.value, defs, defs[0], j)
    decreases |defs|
  {
    var front, d := defs[..|defs| - 1], defs[|defs| - 1];
    RunConcat(p, state, Plans(cat, live, front), CatDiff(cat, live, d));
    if front == [] {
      assert defs == [d];
      assert [] + CatDiff(cat, live, d) == CatDiff(cat, live, d);
      OneAt(p, cat, live, state, d, j);
    } else {
      FrontSame(defs);
      PlansCreate(p, cat, live, state, front);
      var mid := Run(p, state, Plans(cat, live, front)).value;
      forall m | m >= 1
        ensures ReachedAt(p, Before(live), mid, front, front[0], m)
      {
        ManyAt(p, cat, live, state, front, m);
      }
      NextAt(p, cat, live, mid, front, d, front[0], j);
      assert defs == front + [d];
    }
  }

  /** The slot holds what is wanted unless all definitions were refused a BLANK there. */
  ghost predicate ReachedAt(p: Policy, g: Grid, now: Grid, defs: seq<seq<Item>>, first: seq<Item>, j: int) {
    Holds(now, j, WantAt(first, j)) <==> !StuckAt(p, g, defs, j)
  }

  lemma FrontSame(defs: seq<seq<Item>>)
    requires AllSame(defs) && |defs| > 1
    ensures AllSame(defs[..|defs| - 1]) && defs[0] in defs[..|defs| - 1]
      && defs == defs[..|defs| - 1] + [defs[|defs| - 1]]
  {
    assert defs[..|defs| - 1][0] == defs[0];
  }

  lemma StartEmpty(live: Option<seq<LiveItem>>, state: Option<Grid>, n: int)
    requires Told(live, state)
    ensures forall m :: m > n && Empty(Before(live), m) ==> Empty(Start(state), m)
  {
    forall m | m > n && Empty(Before(live), m)
      ensures Empty(Start(state), m)
    {
      StartHolds(live, state, m, Item("BLANK", ""));
    }
  }

  /** A slot misses what is wanted after one plan exactly when it was refused a BLANK. */
  lemma MissesIff(p: Policy, g: Grid, d: seq<Item>, j: int)
    requires j >= 1
    ensures StuckAt(p, g, [d], j)
       <==> !(j > |d| || (!Holds(g, j, d[j - 1]) && (p.takesBlank || !Blank(d[j - 1]))) || Holds(g, j, d[j - 1]))
  {
    assert d in [d] && forall e :: e in [d] ==> e == d;
  }

  lemma OneAt(p: Policy, cat: string, live: Option<seq<LiveItem>>, state: Option<Grid>, d: seq<Item>, j: int)
    requires Lawful(p) && Told(live, state) && j >= 1
    ensures var after := Run(p, state, CatDiff(cat, live, d));
      after.Some? && ReachedAt(p, Before(live), after.value, [d], d, j)
  {
    FirstRun(p, cat, live, state, d);
    StartEmpty(live, state, |d|);
    PlanAt(p, cat, live, Start(state), d, j);
    StartHolds(live, state, j, WantAt(d, j));
    MissesIff(p, Before(live), d, j);
  }

  lemma NextAt(p: Policy, cat: string, live: Option<seq<LiveItem>>, mid: Grid, front: seq<seq<Item>>, d: seq<Item>,
               first: seq<Item>, j: int)
    requires Lawful(p) && j >= 1 && front != [] && AllSame(front + [d]) && first in front
    requires forall m :: m >= 1 ==> ReachedAt(p, Before(live), mid, front, first, m)
    ensures var after := Run(p, Some(mid), CatDiff(cat, live, d));
      after.Some? && ReachedAt(p, Before(live), after.value, front + [d], first, j)
  {
    var g := Before(live);
    assert d in front + [d] && first in front + [d];
    forall m | m > |d| && Empty(g, m)
      ensures Empty(mid, m)
    {
      assert SameItem(WantAt(first, m), WantAt(d, m)) && !StuckAt(p, g, front, m)
        && ReachedAt(p, g, mid, front, first, m);
      assert Holds(mid, m, WantAt(first, m));
    }
    PlanAt(p, cat, live, mid, d, j);
    assert SameItem(WantAt(first, j), WantAt(d, j)) && ReachedAt(p, g, mid, front, first, j);
    HoldsAlike(mid, j, WantAt(first, j), WantAt(d, j));
    HoldsAlike(Run(p, Some(mid), CatDiff(cat, live, d)).value, j, WantAt(first, j), WantAt(d, j));
    StuckNext(p, g, front, d, first, j);
  }

  lemma StuckNext(p: Policy, g: Grid, front: seq<seq<Item>>, d: seq<Item>, first: seq<Item>, j: int)
    requires AllSame(front + [d]) && first in front && j >= 1
    ensures StuckAt(p, g, front + [d], j) <==> StuckAt(p, g, front, j) && j <= |d| && Blank(WantAt(d, j))
    ensures StuckAt(p, g, front, j) ==> Blank(WantAt(d, j)) && !Empty(g, j) && !p.takesBlank
  {
    assert first in front + [d] && d in front + [d];
    assert SameItem(WantAt(first, j), WantAt(d, j));
    assert forall e :: e in front + [d] <==> e in front || e == d;
  }

  /** Several definitions of one category, in one file or in three, of a category that is live
      or not: a second run plans nothing for any of them exactly when they ask for one grid
      and not all of them write BLANK where an item stands, to a server that refuses that. */
  lemma ManyFilesIff(p: Policy, cat: string, live: Option<seq<LiveItem>>, state: Option<Grid>, defs: seq<seq<Item>>,
                     again: seq<LiveItem>)
    requires Lawful(p) && Told(live, state) && defs != []
    requires var after := Run(p, state, Plans(cat, live, defs)); after.Some? && Reports(again, after.value)
    ensures (forall d :: d in defs ==> CatDiff(cat, Some(again), d) == [])
       <==> AllSame(defs) && NoneStuck(p, Before(live), defs)
  {
    var after := Run(p, state, Plans(cat, live, defs)).value;
    forall d
      ensures CatDiff(cat, Some(again), d) == [] <==> Matches(after, d)
    {
      PlanEmptyIff(cat, Some(again), d);
      ReportMatches(again, after, d);
    }
    if forall d :: d in defs ==> Matches(after, d) {
      forall a, b | a in defs && b in defs
        ensures SameGrid(a, b)
      {
        MatchesBothSame(after, a, b);
      }
    }
    if AllSame(defs) {
      AllMatchIff(p, cat, live, state, defs);
    }
  }

  lemma AllMatchIff(p: Policy, cat: string, live: Option<seq<LiveItem>>, state: Option<Grid>, defs: seq<seq<Item>>)
    requires Lawful(p) && Told(live, state) && defs != [] && AllSame(defs)
    ensures var after := Run(p, state, Plans(cat, live, defs));
      after.Some? && ((forall d :: d in defs ==> Matches(after.value, d)) <==> NoneStuck(p, Before(live), defs))
  {
    ManyAt(p, cat, live, state, defs, 1);
    var after := Run(p, state, Plans(cat, live, defs)).value;
    assert defs[0] in defs;
    MatchesMeans(after, defs[0]);
    forall j | j >= 1
      ensures Holds(after, j, WantAt(defs[0], j)) <==> !StuckAt(p, Before(live), defs, j)
    {
      ManyAt(p, cat, live, state, defs, j);
    }
    forall d | d in defs
      ensures Matches(after, d) <==> Matches(after, defs[0])
    {
      SameGridMatches(after, d, defs[0]);
    }
  }

  // ---- the whole import ----

  type Server = map<string, Grid>

  function StateIn(srv: Server, cat: string): Option<Grid> {
    if cat in srv then Some(srv[cat]) else None
  }

  function StepAll(p: Policy, srv: Server, c: CatChange): Server {
    match Step(p, StateIn(srv, c.cat), c)
    case None => srv
    case Some(g) => srv[c.cat := g]
  }

  function RunAll(p: Policy, srv: Server, plan: seq<CatChange>): Server {
    if plan == [] then srv else StepAll(p, RunAll(p, srv, plan[..|plan| - 1]), plan[|plan| - 1])
  }

  function Of(cat: string): CatChange -> bool {
    (c: CatChange) => c.cat == cat
  }

  /** A category sees only its own actions. */
  lemma {:induction false} CategoryView(p: Policy, srv: Server, plan: seq<CatChange>, cat: string)
    ensures StateIn(RunAll(p, srv, plan), cat) == Run(p, StateIn(srv, cat), Sorting.Filter(Of(cat), plan))
  {
    if plan != [] {
      var front, c := plan[..|plan| - 1], plan[|plan| - 1];
      assert plan == front + [c];
      CategoryView(p, srv, front, cat);
      Sorting.FilterLast(Of(cat), front, c);
      if c.cat == cat {
        RunLast(p, StateIn(srv, cat), Sorting.Filter(Of(cat), front), c);
        assert Step(p, StateIn(RunAll(p, srv, front), cat), c).None? ==> StateIn(RunAll(p, srv, front), cat).None?;
      }
    }
  }

  /** The definitions of one category, in order. */
  function DefsOf(defs: seq<CatDef>, cat: string): seq<seq<Item>> {
    if defs == [] then []
    else
      var d, before := defs[|defs| - 1], DefsOf(defs[..|defs| - 1], cat);
      if d.name == cat then before + [d.items] else before
  }

  lemma {:induction false} DefsOfMember(defs: seq<CatDef>, cat: string, items: seq<Item>)
    ensures items in DefsOf(defs, cat) <==> CatDef(cat, items) in defs
  {
    if defs != [] {
      var front, last := defs[..|defs| - 1], defs[|defs| - 1];
      assert defs == front + [last];
      DefsOfMember(front, cat, items);
      assert last == CatDef(last.name, last.items);
    }
  }

  lemma {:induction false} ModifiesOf(cat: string, g: Grid, desired: seq<Item>, c: CatChange)
    requires c in Modifies(cat, g, desired)
    ensures c.cat == cat
  {
    if c in Modifies(cat, g, desired[..|desired| - 1]) {
      ModifiesOf(cat, g, desired[..|desired| - 1], c);
    }
  }

  lemma {:induction false} DeletesOf(cat: string, g: Grid, n: nat, slot: nat, c: CatChange)
    requires c in Deletes(cat, g, n, slot)
    ensures c.cat == cat
    decreases slot
  {
    if c in Deletes(cat, g, n, slot - 1) {
      DeletesOf(cat, g, n, slot - 1, c);
    }
  }

  lemma DiffOf(cat: string, live: Option<seq<LiveItem>>, desired: seq<Item>, c: CatChange)
    requires c in CatDiff(cat, live, desired)
    ensures c.cat == cat
  {
    match live
    case None =>
      if c in Modifies(cat, map[], desired) {
        ModifiesOf(cat, map[], desired, c);
      }
    case Some(items) =>
      if c in Modifies(cat, GridOf(items), desired) {
        ModifiesOf(cat, GridOf(items), desired, c);
      } else {
        DeletesOf(cat, GridOf(items), |desired|, MaxIndex(items), c);
      }
  }

  /** A category's share of the import plan are the plans of its own definitions. */
  lemma {:induction false} PlanShare(names: seq<string>, details: Details, defs: seq<CatDef>, cat: string)
    ensures Sorting.Filter(Of(cat), ImportPlan(names, details, defs))
      == Plans(cat, LiveOf(names, details, cat), DefsOf(defs, cat))
  {
    if defs != [] {
      var front, d := defs[..|defs| - 1], defs[|defs| - 1];
      var mine := CatDiff(d.name, LiveOf(names, details, d.name), d.items);
      PlanShare(names, details, front, cat);
      Sorting.FilterConcat(Of(cat), ImportPlan(names, details, front), mine);
      forall c | c in mine
        ensures c.cat == d.name
      {
        DiffOf(d.name, LiveOf(names, details, d.name), d.items, c);
      }
      if d.name == cat {
        Sorting.FilterAll(Of(cat), mine);
        var before := DefsOf(front, cat);
        assert (before + [d.items])[..|before|] == before;
      } else {
        Sorting.FilterNone(Of(cat), mine);
      }
    }
  }

  /** A listing with details is of this server. */
  ghost predicate Lists(names: seq<string>, details: Details, srv: Server) {
    forall cat :: Told(LiveOf(names, details, cat), StateIn(srv, cat))
  }

  lemma {:induction false} ImportEmptyIff(names: seq<string>, details: Details, defs: seq<CatDef>)
    ensures ImportPlan(names, details, defs) == []
       <==> forall d :: d in defs ==> CatDiff(d.name, LiveOf(names, details, d.name), d.items) == []
  {
    if defs != [] {
      assert defs == defs[..|defs| - 1] + [defs[|defs| - 1]];
      ImportEmptyIff(names, details, defs[..|defs| - 1]);
    }
  }

  /** An import leaves every category it does not name as it was. */
  lemma UnnamedStays(p: Policy, srv: Server, names: seq<string>, details: Details, defs: seq<CatDef>, cat: string)
    requires forall d :: d in defs ==> d.name != cat
    ensures StateIn(RunAll(p, srv, ImportPlan(names, details, defs)), cat) == StateIn(srv, cat)
  {
    CategoryView(p, srv, ImportPlan(names, details, defs), cat);
    PlanShare(names, details, defs, cat);
    if DefsOf(defs, cat) != [] {
      DefsOfMember(defs, cat, DefsOf(defs, cat)[0]);
    }
  }

  /** The definitions of one category ask for one grid and are not all refused a BLANK. */
  ghost predicate Settles(p: Policy, live: Option<seq<LiveItem>>, defs: seq<seq<Item>>) {
    AllSame(defs) && NoneStuck(p, Before(live), defs)
  }

  lemma CategorySettlesIff(p: Policy, srv: Server, names: seq<string>, details: Details, defs: seq<CatDef>,
                           names': seq<string>, details': Details, cat: string)
    requires Lawful(p) && Lists(names, details, srv) && DefsOf(defs, cat) != []
    requires Lists(names', details', RunAll(p, srv, ImportPlan(names, details, defs)))
    ensures (forall items :: items in DefsOf(defs, cat) ==> CatDiff(cat, LiveOf(names', details', cat), items) == [])
       <==> Settles(p, LiveOf(names, details, cat), DefsOf(defs, cat))
  {
    var live, mine := LiveOf(names, details, cat), DefsOf(defs, cat);
    CategoryView(p, srv, ImportPlan(names, details, defs), cat);
    PlanShare(names, details, defs, cat);
    assert Told(live, StateIn(srv, cat));
    PlansCreate(p, cat, live, StateIn(srv, cat), mine);
    assert Told(LiveOf(names', details', cat), StateIn(RunAll(p, srv, ImportPlan(names, details, defs)), cat));
    ManyFilesIff(p, cat, live, StateIn(srv, cat), mine, LiveOf(names', details', cat).value);
  }

  lemma {:induction false} PlansCreate(p: Policy, cat: string, live: Option<seq<LiveItem>>, state: Option<Grid>,
                                       defs: seq<seq<Item>>)
    requires Lawful(p) && Told(live, state) && defs != []
    ensures Run(p, state, Plans(cat, live, defs)).Some?
  {
    var front, d := defs[..|defs| - 1], defs[|defs| - 1];
    RunConcat(p, state, Plans(cat, live, front), CatDiff(cat, live, d));
    if front == [] {
      FirstRun(p, cat, live, state, d);
      StaysSome(p, Start(state), CatDiff(cat, live, d));
    } else {
      PlansCreate(p, cat, live, state, front);
      StaysSome(p, Run(p, state, Plans(cat, live, front)).value, CatDiff(cat, live, d));
    }
  }

  lemma {:induction false} StaysSome(p: Policy, g: Grid, plan: seq<CatChange>)
    ensures Run(p, Some(g), plan).Some?
  {
    if plan != [] {
      StaysSome(p, g, plan[..|plan| - 1]);
    }
  }

  /** A second import plans nothing exactly when, for every category it names, the definitions
      ask for one grid and are not all refused a BLANK where an item stands. The listings are
      any of the server before and after the first import. */
  lemma ImportRunTwiceIsZeroIff(p: Policy, srv: Server, names: seq<string>, details: Details, defs: seq<CatDef>,
                                names': seq<string>, details': Details)
    requires Lawful(p) && Lists(names, details, srv)
    requires Lists(names', details', RunAll(p, srv, ImportPlan(names, details, defs)))
    ensures ImportPlan(names', details', defs) == []
       <==> forall d :: d in defs ==> Settles(p, LiveOf(names, details, d.name), DefsOf(defs, d.name))
  {
    ImportEmptyIff(names', details', defs);
    forall d | d in defs
      ensures Settles(p, LiveOf(names, details, d.name), DefsOf(defs, d.name))
         <==> forall e :: e in defs && e.name == d.name ==>
           CatDiff(d.name, LiveOf(names', details', d.name), e.items) == []
    {
      NamedSettlesIff(p, srv, names, details, defs, names', details', d);
    }
  }

  lemma NamedSettlesIff(p: Policy, srv: Server, names: seq<string>, details: Details, defs: seq<CatDef>,
                        names': seq<string>, details': Details, d: CatDef)
    requires Lawful(p) && Lists(names, details, srv) && d in defs
    requires Lists(names', details', RunAll(p, srv, ImportPlan(names, details, defs)))
    ensures Settles(p, LiveOf(names, details, d.name), DefsOf(defs, d.name))
       <==> forall e :: e in defs && e.name == d.name ==>
         CatDiff(d.name, LiveOf(names', details', d.name), e.items) == []
  {
    assert d == CatDef(d.name, d.items);
    DefsOfMember(defs, d.name, d.items);
    CategorySettlesIff(p, srv, names, details, defs, names', details', d.name);
    forall items
      ensures items in DefsOf(defs, d.name) <==> CatDef(d.name, items) in defs
    {
      DefsOfMember(defs, d.name, items);
    }
    forall e | e in defs && e.name == d.name
      ensures e == CatDef(d.name, e.items)
    {
    }
  }

  // ---- the same in plain terms ----

  function PlanOfOne(names: seq<string>, details: Details, d: CatDef): seq<CatChange> {
    CatDiff(d.name, LiveOf(names, details, d.name), d.items)
  }

  /** One definition after another. */
  lemma PlanInOrder(names: seq<string>, details: Details, front: seq<CatDef>, d: CatDef)
    ensures ImportPlan(names, details, []) == []
    ensures ImportPlan(names, details, front + [d]) == ImportPlan(names, details, front) + PlanOfOne(names, details, d)
  {
    assert (front + [d])[..|front|] == front;
  }

  /** Each against the report of its category: none when the category is not listed, an empty
      one when it is listed without details. */
  lemma PlanPlain(names: seq<string>, details: Details, d: CatDef)
    ensures d.name !in names ==> PlanOfOne(names, details, d) == CatDiff(d.name, None, d.items)
    ensures d.name in names && d.name in details && details[d.name].Some? ==>
      PlanOfOne(names, details, d) == CatDiff(d.name, Some(details[d.name].value), d.items)
    ensures d.name in names && (d.name !in details || details[d.name].None?) ==>
      PlanOfOne(names, details, d) == CatDiff(d.name, Some([]), d.items)
  {
  }

  /** A file without rows is passed over unless the caller named it. */
  lemma LoadedPlain(file: FileKind, data: string)
    ensures Loaded(file, data, true) == Parsed(file, data)
    ensures Parsed(file, data).Ok? ==> Loaded(file, data, false) == Parsed(file, data)
    ensures Parsed(file, data).Err? ==>
      Loaded(file, data, false) == if Parsed(file, data).error.error.NoRows? then Ok([]) else Parsed(file, data)
  {
  }
}
