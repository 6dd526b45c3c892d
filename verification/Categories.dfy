/** The category leg: the writes that take a live category grid to the listed one, on a
    server whose delete semantics are not known beforehand. */
module Categories {
  import opened Wrappers
  import opened Text

  /** One desired slot; row order is slot order. */
  datatype Item = Item(kind: string, value: string)

  /** One slot as the server reports it. */
  datatype LiveItem = LiveItem(index: int, item: Item)

  type Grid = map<int, Item>

  datatype CatChange =
    | Create(cat: string)
    | ModifyItem(cat: string, index: int, item: Item, from: Option<Item>)
    | DeleteItem(cat: string, index: int, was: Item)

  predicate Blank(i: Item) {
    EqualFold(i.kind, "BLANK")
  }

  function Look(g: Grid, slot: int): Option<Item> {
    if slot in g then Some(g[slot]) else None
  }

  /** Nothing to see in the slot: absent, or there as BLANK. */
  predicate Empty(g: Grid, slot: int) {
    slot in g ==> Blank(g[slot])
  }

  /** The slots of a report; of two rows of one slot the later counts. */
  function GridOf(items: seq<LiveItem>): Grid {
    if items == [] then map[]
    else GridOf(items[..|items| - 1])[items[|items| - 1].index := items[|items| - 1].item]
  }

  function MaxIndex(items: seq<LiveItem>): nat {
    if items == [] then 0
    else
      var before, last := MaxIndex(items[..|items| - 1]), items[|items| - 1].index;
      if last > before then last else before
  }

  // ---- the plan ----

  /** The slot does not hold what is wanted. An empty slot holds a wanted BLANK. */
  predicate Needs(g: Grid, slot: int, want: Item) {
    if Blank(want) && Empty(g, slot) then false
    else !(slot in g && EqualFold(g[slot].kind, want.kind) && g[slot].value == want.value)
  }

  function Modifies(cat: string, g: Grid, desired: seq<Item>): seq<CatChange> {
    if desired == [] then []
    else
      var slot, want := |desired|, desired[|desired| - 1];
      var before := Modifies(cat, g, desired[..|desired| - 1]);
      if Needs(g, slot, want) then before + [ModifyItem(cat, slot, want, Look(g, slot))] else before
  }

  /** Removals of the filled slots beyond `n`, from `slot` downwards. */
  function Deletes(cat: string, g: Grid, n: nat, slot: nat): seq<CatChange>
    decreases slot
  {
    if slot <= n then []
    else (if Empty(g, slot) then [] else [DeleteItem(cat, slot, g[slot])]) + Deletes(cat, g, n, slot - 1)
  }

  function CatDiff(cat: string, live: Option<seq<LiveItem>>, desired: seq<Item>): seq<CatChange> {
    match live
    case None => [Create(cat)] + Modifies(cat, map[], desired)
    case Some(items) => Modifies(cat, GridOf(items), desired) + Deletes(cat, GridOf(items), |desired|, MaxIndex(items))
  }

  method CollectGrid(items: seq<LiveItem>) returns (byIndex: Grid, maxLive: nat)
    ensures byIndex == GridOf(items) && maxLive == MaxIndex(items)
  {
    byIndex, maxLive := map[], 0;
    for i := 0 to |items|
      invariant byIndex == GridOf(items[..i]) && maxLive == MaxIndex(items[..i])
    {
      assert items[..i + 1][..i] == items[..i];
      byIndex := byIndex[items[i].index := items[i].item];
      if items[i].index > maxLive {
        maxLive := items[i].index;
      }
    }
    assert items[..|items|] == items;
  }

  method DiffSlots(cat: string, byIndex: Grid, desired: seq<Item>) returns (out: seq<CatChange>)
    ensures out == Modifies(cat, byIndex, desired)
  {
    out := [];
    for i := 0 to |desired|
      invariant out == Modifies(cat, byIndex, desired[..i])
    {
      assert desired[..i + 1][..i] == desired[..i];
      var slot, want := i + 1, desired[i];
      if Blank(want) && (slot !in byIndex || Blank(byIndex[slot])) {
        continue;
      }
      if slot in byIndex && EqualFold(byIndex[slot].kind, want.kind) && byIndex[slot].value == want.value {
        continue;
      }
      var from := if slot in byIndex then Some(byIndex[slot]) else None;
      out := out + [ModifyItem(cat, slot, want, from)];
    }
    assert desired[..|desired|] == desired;
  }

  method DeleteSlots(cat: string, byIndex: Grid, n: nat, maxLive: nat) returns (out: seq<CatChange>)
    ensures out == Deletes(cat, byIndex, n, maxLive)
  {
    out := [];
    var slot := maxLive;
    while slot > n
      invariant 0 <= slot
      invariant Deletes(cat, byIndex, n, maxLive) == out + Deletes(cat, byIndex, n, slot)
    {
      ghost var rest := Deletes(cat, byIndex, n, slot - 1);
      if slot in byIndex && !Blank(byIndex[slot]) {
        var d := DeleteItem(cat, slot, byIndex[slot]);
        assert out + ([d] + rest) == (out + [d]) + rest;
        out := out + [d];
      } else {
        assert [] + rest == rest;
      }
      slot := slot - 1;
    }
  }

  method DiffCategory(cat: string, live: Option<seq<LiveItem>>, desired: seq<Item>) returns (out: seq<CatChange>)
    ensures out == CatDiff(cat, live, desired)
  {
    match live {
      case None =>
        var writes := DiffSlots(cat, map[], desired);
        out := [Create(cat)] + writes;
      case Some(items) =>
        var byIndex, maxLive := CollectGrid(items);
        var writes := DiffSlots(cat, byIndex, desired);
        var removals := DeleteSlots(cat, byIndex, |desired|, maxLive);
        out := writes + removals;
    }
  }

  // ---- the server ----

  /** What a server does with the writes it may treat either way: how DELETE_ITEM closes the
      gap, and whether it accepts a BLANK write. */
  datatype Policy = Policy(remove: (Grid, int) -> Grid, takesBlank: bool)

  /** A removal clears its slot, leaving it out or BLANK, and touches nothing below it; what
      else it leaves at or above the slot stood above it before, wherever it moved. */
  ghost predicate Removes(g: Grid, slot: int, after: Grid) {
    && (forall j :: j < slot ==> Look(after, j) == Look(g, j))
    && (forall j :: j >= slot && j in after ==> Blank(after[j]) || exists m :: m > slot && m in g && g[m] == after[j])
  }

  ghost predicate LawfulAt(p: Policy, g: Grid, slot: int) {
    Removes(g, slot, p.remove(g, slot))
  }

  ghost predicate Lawful(p: Policy) {
    forall g, slot :: LawfulAt(p, g, slot)
  }

  /** One action; a server refuses writes to a category it does not have. */
  function Step(p: Policy, s: Option<Grid>, c: CatChange): Option<Grid> {
    match c
    case Create(_) => if s.None? then Some(map[]) else s
    case ModifyItem(_, index, item, _) =>
      if s.None? || (Blank(item) && !p.takesBlank) then s else Some(s.value[index := item])
    case DeleteItem(_, index, _) =>
      if s.None? then s else Some(p.remove(s.value, index))
  }

  function Run(p: Policy, s: Option<Grid>, plan: seq<CatChange>): Option<Grid> {
    if plan == [] then s else Step(p, Run(p, s, plan[..|plan| - 1]), plan[|plan| - 1])
  }

  lemma {:induction false} RunConcat(p: Policy, s: Option<Grid>, a: seq<CatChange>, b: seq<CatChange>)
    ensures Run(p, s, a + b) == Run(p, Run(p, s, a), b)
  {
    if b == [] {
      assert a + b == a;
    } else {
      assert (a + b)[..|a + b| - 1] == a + b[..|b| - 1];
      RunConcat(p, s, a, b[..|b| - 1]);
    }
  }

  lemma RunFirst(p: Policy, s: Option<Grid>, c: CatChange, rest: seq<CatChange>)
    ensures Run(p, s, [c] + rest) == Run(p, Step(p, s, c), rest)
  {
    RunConcat(p, s, [c], rest);
    assert [c][..0] == [];
  }

  lemma RunLast(p: Policy, s: Option<Grid>, plan: seq<CatChange>, c: CatChange)
    ensures Run(p, s, plan + [c]) == Step(p, Run(p, s, plan), c)
  {
    assert (plan + [c])[..|plan|] == plan;
  }

  function StateOf(live: Option<seq<LiveItem>>): Option<Grid> {
    match live
    case None => None
    case Some(items) => Some(GridOf(items))
  }

  /** The slot holds what the file says. */
  predicate Holds(g: Grid, slot: int, want: Item) {
    if Blank(want) then Empty(g, slot)
    else slot in g && EqualFold(g[slot].kind, want.kind) && g[slot].value == want.value
  }

  ghost predicate Matches(g: Grid, desired: seq<Item>) {
    && (forall i :: 0 <= i < |desired| ==> Holds(g, i + 1, desired[i]))
    && (forall j :: j > |desired| ==> Empty(g, j))
  }

  /** Somewhere the file wants BLANK where the grid holds an item. */
  ghost predicate Blanks(g: Grid, desired: seq<Item>) {
    exists i :: 0 <= i < |desired| && Blank(desired[i]) && !Empty(g, i + 1)
  }

  lemma HoldsUnlessNeeds(g: Grid, slot: int, want: Item)
    ensures Needs(g, slot, want) <==> !Holds(g, slot, want)
  {
  }

  /** What writes planned from `g` make of a slot of the grid that stands. */
  function Written(p: Policy, g: Grid, now: Grid, desired: seq<Item>, j: int): Option<Item> {
    if 1 <= j <= |desired| && Needs(g, j, desired[j - 1]) && (p.takesBlank || !Blank(desired[j - 1]))
    then Some(desired[j - 1]) else Look(now, j)
  }

  lemma WrittenEarlier(p: Policy, g: Grid, now: Grid, desired: seq<Item>, j: int)
    requires desired != []
    ensures j != |desired| ==> Written(p, g, now, desired, j) == Written(p, g, now, desired[..|desired| - 1], j)
    ensures Written(p, g, now, desired[..|desired| - 1], |desired|) == Look(now, |desired|)
  {
  }

  lemma WriteLooks(p: Policy, now: Grid, cat: string, n: int, want: Item, from: Option<Item>, j: int)
    ensures var after := Step(p, Some(now), ModifyItem(cat, n, want, from));
      after.Some? && Look(after.value, j) ==
        if j == n && (p.takesBlank || !Blank(want)) then Some(want) else Look(now, j)
  {
  }

  lemma RunModifies(p: Policy, cat: string, g: Grid, now: Grid, desired: seq<Item>)
    requires desired != []
    ensures var n := |desired|;
      var before := Run(p, Some(now), Modifies(cat, g, desired[..n - 1]));
      Run(p, Some(now), Modifies(cat, g, desired))
        == if Needs(g, n, desired[n - 1]) then Step(p, before, ModifyItem(cat, n, desired[n - 1], Look(g, n)))
           else before
  {
    var n := |desired|;
    RunLast(p, Some(now), Modifies(cat, g, desired[..n - 1]), ModifyItem(cat, n, desired[n - 1], Look(g, n)));
  }

  /** After the writes each slot they concern holds its item, unless the write was a refused
      BLANK; nothing else has moved. */
  lemma {:induction false} AfterModifies(p: Policy, cat: string, g: Grid, now: Grid, desired: seq<Item>, j: int)
    ensures var after := Run(p, Some(now), Modifies(cat, g, desired));
      after.Some? && Look(after.value, j) == Written(p, g, now, desired, j)
  {
    if desired == [] {
      assert Modifies(cat, g, desired) == [];
    } else {
      var front, n := desired[..|desired| - 1], |desired|;
      AfterModifies(p, cat, g, now, front, j);
      RunModifies(p, cat, g, now, desired);
      WriteLooks(p, Run(p, Some(now), Modifies(cat, g, front)).value, cat, n, desired[n - 1], Look(g, n), j);
      WrittenEarlier(p, g, now, desired, j);
    }
  }

  /** Only the slots from 1 to `slot` are still filled. */
  ghost predicate EmptyAbove(g: Grid, slot: int) {
    forall j :: j > slot ==> Empty(g, j)
  }

  ghost predicate SameUpTo(a: Grid, b: Grid, slot: int) {
    forall j :: j <= slot ==> Look(a, j) == Look(b, j)
  }

  /** Between `n` and `slot` nothing stands that the plan did not know of. */
  ghost predicate KnownBetween(now: Grid, g: Grid, n: int, slot: int) {
    forall j :: n < j <= slot && Empty(g, j) ==> Empty(now, j)
  }

  lemma OneRemoval(p: Policy, g: Grid, now: Grid, n: nat, slot: nat)
    requires Lawful(p) && n < slot && KnownBetween(now, g, n, slot) && EmptyAbove(now, slot)
    ensures var next := p.remove(now, slot);
      SameUpTo(next, now, n) && KnownBetween(next, g, n, slot - 1) && EmptyAbove(next, slot - 1)
  {
    RemovedRest(p, now, slot);
    var next := p.remove(now, slot);
    forall j | n < j <= slot - 1 && Empty(g, j)
      ensures Empty(next, j)
    {
      assert Look(next, j) == Look(now, j);
    }
  }

  lemma RunDeletes(p: Policy, cat: string, g: Grid, now: Grid, n: nat, slot: nat)
    requires n < slot
    ensures var rest := Deletes(cat, g, n, slot - 1);
      Run(p, Some(now), Deletes(cat, g, n, slot))
        == if Empty(g, slot) then Run(p, Some(now), rest) else Run(p, Some(p.remove(now, slot)), rest)
  {
    var rest := Deletes(cat, g, n, slot - 1);
    if Empty(g, slot) {
      assert [] + rest == rest;
    } else {
      RunFirst(p, Some(now), DeleteItem(cat, slot, g[slot]), rest);
    }
  }

  lemma SameUpToJoins(a: Grid, b: Grid, c: Grid, n: int)
    requires SameUpTo(a, b, n) && SameUpTo(b, c, n)
    ensures SameUpTo(a, c, n)
  {
    forall j | j <= n
      ensures Look(a, j) == Look(c, j)
    {
      assert Look(a, j) == Look(b, j);
    }
  }

  /** The removals, run from the last slot down on any lawful server: no slot up to `n` is
      ever moved, and nothing is left beyond it. */
  lemma {:induction false} AfterDeletes(p: Policy, cat: string, g: Grid, now: Grid, n: nat, slot: nat)
    requires Lawful(p) && n <= slot
    requires KnownBetween(now, g, n, slot) && EmptyAbove(now, slot)
    ensures var after := Run(p, Some(now), Deletes(cat, g, n, slot));
      after.Some? && SameUpTo(after.value, now, n) && EmptyAbove(after.value, n)
    decreases slot
  {
    if slot > n {
      RunDeletes(p, cat, g, now, n, slot);
      if Empty(g, slot) {
        assert EmptyAbove(now, slot - 1) && KnownBetween(now, g, n, slot - 1);
        AfterDeletes(p, cat, g, now, n, slot - 1);
      } else {
        var next := p.remove(now, slot);
        OneRemoval(p, g, now, n, slot);
        AfterDeletes(p, cat, g, next, n, slot - 1);
        SameUpToJoins(Run(p, Some(next), Deletes(cat, g, n, slot - 1)).value, next, now, n);
      }
    }
  }

  lemma RemovedRest(p: Policy, now: Grid, slot: int)
    requires Lawful(p) && EmptyAbove(now, slot)
    ensures SameUpTo(p.remove(now, slot), now, slot - 1) && EmptyAbove(p.remove(now, slot), slot - 1)
  {
    var after := p.remove(now, slot);
    assert LawfulAt(p, now, slot);
    forall j | j >= slot && j in after
      ensures Blank(after[j])
    {
      if m :| m > slot && m in now && now[m] == after[j] {
        assert Empty(now, m);
      }
    }
  }

  lemma {:induction false} MaxBounds(items: seq<LiveItem>, j: int)
    requires j in GridOf(items)
    ensures j <= MaxIndex(items)
  {
    if j != items[|items| - 1].index {
      MaxBounds(items[..|items| - 1], j);
    }
  }

  /** The grid the plan starts from. */
  function Before(live: Option<seq<LiveItem>>): Grid {
    match live
    case None => map[]
    case Some(items) => GridOf(items)
  }

  /** What a plan leaves when it is run on a grid where beyond its slots nothing stands that
      it did not know of. */
  lemma AfterPlanOn(p: Policy, cat: string, live: Option<seq<LiveItem>>, now: Grid, desired: seq<Item>, j: int)
    requires Lawful(p) && forall m :: m > |desired| && Empty(Before(live), m) ==> Empty(now, m)
    ensures var after := Run(p, Some(now), CatDiff(cat, live, desired));
      && after.Some?
      && (j > |desired| ==> Empty(after.value, j))
      && (j <= |desired| ==> Look(after.value, j) == Written(p, Before(live), now, desired, j))
  {
    AfterModifies(p, cat, Before(live), now, desired, j);
    match live {
      case None =>
        RunFirst(p, Some(now), Create(cat), Modifies(cat, map[], desired));
        if j > |desired| {
          assert Empty(Before(live), j) && Empty(now, j);
        }
      case Some(items) =>
        AfterRemovals(p, cat, items, now, desired, j);
    }
  }

  lemma AfterRemovals(p: Policy, cat: string, items: seq<LiveItem>, now: Grid, desired: seq<Item>, j: int)
    requires Lawful(p) && forall m :: m > |desired| && Empty(GridOf(items), m) ==> Empty(now, m)
    ensures var after := Run(p, Some(now), CatDiff(cat, Some(items), desired));
      && after.Some?
      && (j > |desired| ==> Empty(after.value, j))
      && (j <= |desired| ==> Look(after.value, j) == Written(p, GridOf(items), now, desired, j))
  {
    var g := GridOf(items);
    var mods := Modifies(cat, g, desired);
    AfterModifies(p, cat, g, now, desired, j);
    RunConcat(p, Some(now), mods, Deletes(cat, g, |desired|, MaxIndex(items)));
    var next := Run(p, Some(now), mods).value;
    forall m | m > |desired|
      ensures Look(next, m) == Look(now, m)
      ensures m > MaxIndex(items) ==> Empty(now, m)
    {
      AfterModifies(p, cat, g, now, desired, m);
      if m in g {
        MaxBounds(items, m);
      }
    }
    if MaxIndex(items) > |desired| {
      Untouched(g, now, next, |desired|, MaxIndex(items));
      AfterDeletes(p, cat, g, next, |desired|, MaxIndex(items));
    }
  }

  lemma Untouched(g: Grid, now: Grid, next: Grid, n: nat, slot: nat)
    requires n < slot && (forall m :: m > n ==> Look(next, m) == Look(now, m))
    requires (forall m :: m > n && Empty(g, m) ==> Empty(now, m)) && forall m :: m > slot ==> Empty(now, m)
    ensures KnownBetween(next, g, n, slot) && EmptyAbove(next, slot)
  {
    forall m | m > n
      ensures Empty(next, m) <==> Empty(now, m)
    {
      assert Look(next, m) == Look(now, m);
    }
  }

  lemma AfterPlan(p: Policy, cat: string, live: Option<seq<LiveItem>>, desired: seq<Item>, j: int)
    requires Lawful(p)
    ensures var after := Run(p, StateOf(live), CatDiff(cat, live, desired));
      && after.Some?
      && (j > |desired| ==> Empty(after.value, j))
      && (j <= |desired| ==> Look(after.value, j) == Written(p, Before(live), Before(live), desired, j))
  {
    match live {
      case None =>
        RunFirst(p, None, Create(cat), Modifies(cat, map[], desired));
        AfterModifies(p, cat, map[], map[], desired, j);
      case Some(items) =>
        AfterPlanOn(p, cat, live, GridOf(items), desired, j);
    }
  }

  /** A written slot holds its item unless the write was a refused BLANK. */
  lemma WrittenHolds(p: Policy, g: Grid, after: Grid, desired: seq<Item>, i: nat)
    requires i < |desired| && Look(after, i + 1) == Written(p, g, g, desired, i + 1)
    ensures Holds(after, i + 1, desired[i]) <==> p.takesBlank || !(Blank(desired[i]) && !Empty(g, i + 1))
  {
    HoldsUnlessNeeds(g, i + 1, desired[i]);
  }

  /** Whatever the delete semantics, the run leaves exactly the listed grid, with nothing
      beyond it and the slots below 1 untouched, precisely when the server accepts BLANK
      writes or the file wants none where an item stands. */
  lemma CategoryConvergesIff(p: Policy, cat: string, live: Option<seq<LiveItem>>, desired: seq<Item>)
    requires Lawful(p)
    ensures var after := Run(p, StateOf(live), CatDiff(cat, live, desired));
      && after.Some?
      && (Matches(after.value, desired) <==> p.takesBlank || !Blanks(Before(live), desired))
      && (forall j :: j < 1 ==> Look(after.value, j) == Look(Before(live), j))
  {
    var g := Before(live);
    AfterPlan(p, cat, live, desired, 0);
    var after := Run(p, StateOf(live), CatDiff(cat, live, desired)).value;
    forall j
      ensures j > |desired| ==> Empty(after, j)
      ensures j < 1 ==> Look(after, j) == Look(g, j)
    {
      AfterPlan(p, cat, live, desired, j);
    }
    forall i | 0 <= i < |desired|
      ensures Holds(after, i + 1, desired[i]) <==> p.takesBlank || !(Blank(desired[i]) && !Empty(g, i + 1))
    {
      AfterPlan(p, cat, live, desired, i + 1);
      WrittenHolds(p, g, after, desired, i);
    }
  }

  lemma {:induction false} ModifiesEmptyIff(cat: string, g: Grid, desired: seq<Item>)
    ensures Modifies(cat, g, desired) == [] <==> forall i :: 0 <= i < |desired| ==> Holds(g, i + 1, desired[i])
  {
    if desired != [] {
      ModifiesEmptyIff(cat, g, desired[..|desired| - 1]);
      HoldsUnlessNeeds(g, |desired|, desired[|desired| - 1]);
    }
  }

  lemma {:induction false} DeletesEmptyIff(cat: string, g: Grid, n: nat, slot: nat)
    ensures Deletes(cat, g, n, slot) == [] <==> forall j :: n < j <= slot ==> Empty(g, j)
    decreases slot
  {
    if slot > n {
      DeletesEmptyIff(cat, g, n, slot - 1);
    }
  }

  /** Nothing is planned exactly when the category is there and its grid is the listed one. */
  lemma PlanEmptyIff(cat: string, live: Option<seq<LiveItem>>, desired: seq<Item>)
    ensures CatDiff(cat, live, desired) == [] <==> live.Some? && Matches(Before(live), desired)
  {
    if live.Some? {
      var g := GridOf(live.value);
      ModifiesEmptyIff(cat, g, desired);
      DeletesEmptyIff(cat, g, |desired|, MaxIndex(live.value));
      forall j | j in g
        ensures j <= MaxIndex(live.value)
      {
        MaxBounds(live.value, j);
      }
    }
  }

  /** A report of the grid, which may leave BLANK slots out. */
  ghost predicate Reports(items: seq<LiveItem>, g: Grid) {
    forall j :: (Empty(GridOf(items), j) <==> Empty(g, j)) && (!Empty(g, j) ==> GridOf(items)[j] == g[j])
  }

  /** A second run plans nothing exactly on the same condition, from any report of the grid
      the first run left. */
  lemma CategoryRunTwiceIsZeroIff(p: Policy, cat: string, live: Option<seq<LiveItem>>, desired: seq<Item>,
                                  again: seq<LiveItem>)
    requires Lawful(p)
    requires var after := Run(p, StateOf(live), CatDiff(cat, live, desired)); after.Some? && Reports(again, after.value)
    ensures CatDiff(cat, Some(again), desired) == [] <==> p.takesBlank || !Blanks(Before(live), desired)
  {
    var after := Run(p, StateOf(live), CatDiff(cat, live, desired)).value;
    CategoryConvergesIff(p, cat, live, desired);
    PlanEmptyIff(cat, Some(again), desired);
    forall i | 0 <= i < |desired|
      ensures Holds(GridOf(again), i + 1, desired[i]) <==> Holds(after, i + 1, desired[i])
    {
      assert Empty(GridOf(again), i + 1) <==> Empty(after, i + 1);
      BlankFolds(after, i + 1, desired[i]);
      BlankFolds(GridOf(again), i + 1, desired[i]);
    }
  }

  lemma BlankFolds(g: Grid, slot: int, want: Item)
    ensures Holds(g, slot, want) && !Blank(want) ==> !Empty(g, slot)
  {
  }

  // ---- the two delete semantics met ----

  /** DELETE_ITEM as measured: every later item moves down one. */
  function Shift(g: Grid, slot: int): Grid {
    map j | j in ShiftedSlots(g, slot) :: g[Origin(slot, j)]
  }

  function Origin(slot: int, j: int): int {
    if j < slot then j else j + 1
  }

  function ShiftedSlots(g: Grid, slot: int): (slots: set<int>)
    ensures forall j :: j in slots <==> Origin(slot, j) in g
  {
    var slots := set k | k in g && k != slot :: if k < slot then k else k - 1;
    assert forall j :: Origin(slot, j) in g ==> Origin(slot, j) != slot;
    slots
  }

  /** DELETE_ITEM that only empties its slot. */
  function Clear(g: Grid, slot: int): Grid {
    g - {slot}
  }

  /** DELETE_ITEM that leaves a BLANK in its slot. */
  function Whiten(g: Grid, slot: int): Grid {
    g[slot := Item("BLANK", "")]
  }

  lemma AllLawful(takesBlank: bool)
    ensures Lawful(Policy(Shift, takesBlank)) && Lawful(Policy(Clear, takesBlank)) && Lawful(Policy(Whiten, takesBlank))
  {
    forall g, slot
      ensures LawfulAt(Policy(Shift, takesBlank), g, slot)
      ensures LawfulAt(Policy(Clear, takesBlank), g, slot)
      ensures LawfulAt(Policy(Whiten, takesBlank), g, slot)
    {
      ShiftRemoves(g, slot);
      ClearRemoves(g, slot);
      WhitenRemoves(g, slot);
    }
  }

  lemma ShiftRemoves(g: Grid, slot: int)
    ensures Removes(g, slot, Shift(g, slot))
  {
    var s := Shift(g, slot);
    forall j | j >= slot && j in s
      ensures exists m :: m > slot && m in g && g[m] == s[j]
    {
      assert Origin(slot, j) in g && g[Origin(slot, j)] == s[j];
    }
  }

  lemma ClearRemoves(g: Grid, slot: int)
    ensures Removes(g, slot, Clear(g, slot))
  {
    forall j | j >= slot && j in Clear(g, slot)
      ensures exists m :: m > slot && m in g && g[m] == Clear(g, slot)[j]
    {
      assert j > slot && j in g && g[j] == Clear(g, slot)[j];
    }
  }

  lemma WhitenRemoves(g: Grid, slot: int)
    ensures Removes(g, slot, Whiten(g, slot))
  {
    var w := Whiten(g, slot);
    assert Blank(w[slot]);
    forall j | j > slot && j in w
      ensures exists m :: m > slot && m in g && g[m] == w[j]
    {
      assert j in g && g[j] == w[j];
    }
  }

  // ---- actions the server refuses ----

  /** The plan sent in order; a refused action leaves the grid as it was. */
  function RunSome(p: Policy, s: Option<Grid>, plan: seq<CatChange>, accepts: CatChange -> bool): Option<Grid> {
    if plan == [] then s
    else
      var before, c := RunSome(p, s, plan[..|plan| - 1], accepts), plan[|plan| - 1];
      if accepts(c) then Step(p, before, c) else before
  }

  lemma {:induction false} SomeConcat(p: Policy, s: Option<Grid>, a: seq<CatChange>, b: seq<CatChange>,
                                      accepts: CatChange -> bool)
    ensures RunSome(p, s, a + b, accepts) == RunSome(p, RunSome(p, s, a, accepts), b, accepts)
  {
    if b == [] {
      assert a + b == a;
    } else {
      assert (a + b)[..|a + b| - 1] == a + b[..|b| - 1];
      SomeConcat(p, s, a, b[..|b| - 1], accepts);
    }
  }

  /** Removals beyond `n`, whichever of them are refused, move nothing up to `n`. */
  lemma {:induction false} SomeRemovals(p: Policy, now: Grid, plan: seq<CatChange>, accepts: CatChange -> bool, n: int)
    requires Lawful(p) && forall c :: c in plan ==> c.DeleteItem? && c.index > n
    ensures var after := RunSome(p, Some(now), plan, accepts); after.Some? && SameUpTo(after.value, now, n)
  {
    if plan != [] {
      var front, c := plan[..|plan| - 1], plan[|plan| - 1];
      assert plan == front + [c];
      SomeRemovals(p, now, front, accepts, n);
      var before := RunSome(p, Some(now), front, accepts).value;
      assert LawfulAt(p, before, c.index);
    }
  }

  lemma {:induction false} DeletesBeyond(cat: string, g: Grid, n: nat, slot: nat, c: CatChange)
    requires c in Deletes(cat, g, n, slot)
    ensures c.DeleteItem? && c.index > n
    decreases slot
  {
    if c in Deletes(cat, g, n, slot - 1) {
      DeletesBeyond(cat, g, n, slot - 1, c);
    }
  }

  /** What the accepted writes make of a slot. */
  function Accepted(p: Policy, cat: string, g: Grid, desired: seq<Item>, accepts: CatChange -> bool,
                    j: int): Option<Item> {
    if 1 <= j <= |desired| && !accepts(ModifyItem(cat, j, desired[j - 1], Look(g, j))) then Look(g, j)
    else Written(p, g, g, desired, j)
  }

  lemma SomeModifies(p: Policy, cat: string, g: Grid, desired: seq<Item>, accepts: CatChange -> bool)
    requires desired != []
    ensures var n := |desired|;
      var before := RunSome(p, Some(g), Modifies(cat, g, desired[..n - 1]), accepts);
      var c := ModifyItem(cat, n, desired[n - 1], Look(g, n));
      RunSome(p, Some(g), Modifies(cat, g, desired), accepts)
        == if Needs(g, n, desired[n - 1]) && accepts(c) then Step(p, before, c) else before
  {
    var n := |desired|;
    SomeStep(p, Some(g), Modifies(cat, g, desired[..n - 1]), ModifyItem(cat, n, desired[n - 1], Look(g, n)), accepts);
  }

  lemma {:induction false} SomeWrites(p: Policy, cat: string, g: Grid, desired: seq<Item>, accepts: CatChange -> bool,
                                      j: int)
    ensures var after := RunSome(p, Some(g), Modifies(cat, g, desired), accepts);
      after.Some? && Look(after.value, j) == Accepted(p, cat, g, desired, accepts, j)
  {
    if desired != [] {
      var front, n := desired[..|desired| - 1], |desired|;
      SomeWrites(p, cat, g, front, accepts, j);
      SomeModifies(p, cat, g, desired, accepts);
      WriteLooks(p, RunSome(p, Some(g), Modifies(cat, g, front), accepts).value, cat, n, desired[n - 1], Look(g, n), j);
      AcceptedEarlier(p, cat, g, desired, accepts, j);
    }
  }

  lemma AcceptedEarlier(p: Policy, cat: string, g: Grid, desired: seq<Item>, accepts: CatChange -> bool, j: int)
    requires desired != []
    ensures var front, n := desired[..|desired| - 1], |desired|;
      && (j != n ==> Accepted(p, cat, g, desired, accepts, j) == Accepted(p, cat, g, front, accepts, j))
      && Accepted(p, cat, g, front, accepts, n) == Look(g, n)
  {
  }

  lemma SomeStep(p: Policy, s: Option<Grid>, plan: seq<CatChange>, c: CatChange, accepts: CatChange -> bool)
    ensures RunSome(p, s, plan + [c], accepts)
         == if accepts(c) then Step(p, RunSome(p, s, plan, accepts), c) else RunSome(p, s, plan, accepts)
  {
    assert (plan + [c])[..|plan|] == plan;
  }

  /** Whichever actions the server refuses, each slot of the desired grid holds its item when
      its own write was accepted and what it held before otherwise: no removal moves it. */
  lemma RefusalsKeepGrid(p: Policy, cat: string, items: seq<LiveItem>, desired: seq<Item>, accepts: CatChange -> bool,
                         j: int)
    requires Lawful(p) && j <= |desired|
    ensures var after := RunSome(p, Some(GridOf(items)), CatDiff(cat, Some(items), desired), accepts);
      after.Some? && Look(after.value, j) == Accepted(p, cat, GridOf(items), desired, accepts, j)
  {
    var g := GridOf(items);
    var mods, dels := Modifies(cat, g, desired), Deletes(cat, g, |desired|, MaxIndex(items));
    SomeConcat(p, Some(g), mods, dels, accepts);
    SomeWrites(p, cat, g, desired, accepts, j);
    forall c | c in dels
      ensures c.DeleteItem? && c.index > |desired|
    {
      DeletesBeyond(cat, g, |desired|, MaxIndex(items), c);
    }
    SomeRemovals(p, RunSome(p, Some(g), mods, accepts).value, dels, accepts, |desired|);
  }

  /** A file that wants slot 1 BLANK where an item stands, on a server that refuses that. */
  lemma RefusedBlankStays()
    ensures var items, desired := [LiveItem(1, Item("TEXT", "x"))], [Item("BLANK", "")];
      var after := Run(Policy(Shift, false), Some(GridOf(items)), CatDiff("c", Some(items), desired));
      Lawful(Policy(Shift, false)) && after == Some(GridOf(items)) && CatDiff("c", Some(items), desired) != []
  {
    var items, desired := [LiveItem(1, Item("TEXT", "x"))], [Item("BLANK", "")];
    AllLawful(false);
    OneItem(LiveItem(1, Item("TEXT", "x")));
    var c := ModifyItem("c", 1, desired[0], Some(Item("TEXT", "x")));
    assert !EqualFold("TEXT", "BLANK");
    assert desired[..0] == [] && Modifies("c", GridOf(items), []) == [];
    assert Modifies("c", GridOf(items), desired) == [] + [c];
    assert CatDiff("c", Some(items), desired) == [c] + [];
    assert [c][..0] == [];
    assert Run(Policy(Shift, false), Some(GridOf(items)), []) == Some(GridOf(items));
  }

  lemma OneItem(i: LiveItem)
    requires i.index == 1
    ensures GridOf([i]) == map[1 := i.item] && MaxIndex([i]) == 1
  {
    assert [i][..0] == [] && MaxIndex([]) == 0;
  }

  // ---- the same in plain terms ----

  /** The row of a report that counts for a slot: its last. */
  ghost predicate LastRow(items: seq<LiveItem>, i: int, slot: int) {
    0 <= i < |items| && items[i].index == slot && forall j :: i < j < |items| ==> items[j].index != slot
  }

  /** The type is BLANK, in any case. */
  predicate Hidden(i: Item) {
    ToUpper(i.kind) == "BLANK"
  }

  lemma HiddenIff(i: Item)
    ensures Hidden(i) <==> Blank(i)
  {
    EqualFoldPlain(i.kind, "BLANK");
    assert ToUpper("BLANK") == "BLANK";
  }

  lemma LastRowOf(front: seq<LiveItem>, last: LiveItem, i: int, slot: int)
    ensures LastRow(front + [last], i, slot) <==> if last.index == slot then i == |front| else LastRow(front, i, slot)
  {
    var items := front + [last];
    assert items[|front|] == last && forall j :: 0 <= j < |front| ==> items[j] == front[j];
  }

  lemma {:induction false} GridPlain(items: seq<LiveItem>, slot: int)
    ensures slot in GridOf(items) <==> exists i :: LastRow(items, i, slot)
    ensures forall i :: LastRow(items, i, slot) ==> slot in GridOf(items) && GridOf(items)[slot] == items[i].item
  {
    if items != [] {
      var front, last := items[..|items| - 1], items[|items| - 1];
      assert items == front + [last];
      GridPlain(front, slot);
      forall i
        ensures LastRow(items, i, slot) <==> if last.index == slot then i == |front| else LastRow(front, i, slot)
      {
        LastRowOf(front, last, i, slot);
      }
      assert last.index == slot ==> LastRow(items, |front|, slot);
    }
  }

  /** The slot is filled. */
  ghost predicate Filled(items: seq<LiveItem>, slot: int) {
    exists i :: LastRow(items, i, slot) && !Hidden(items[i].item)
  }

  /** The slot shows what is wanted: nothing for a BLANK, otherwise an item of the type, in any
      case, and the very value. */
  ghost predicate ShowsItem(items: seq<LiveItem>, slot: int, want: Item) {
    if Hidden(want) then !Filled(items, slot)
    else exists i ::
      LastRow(items, i, slot) && ToUpper(items[i].item.kind) == ToUpper(want.kind) && items[i].item.value == want.value
  }

  lemma FilledIff(items: seq<LiveItem>, slot: int)
    ensures Filled(items, slot) <==> !Empty(GridOf(items), slot)
  {
    GridPlain(items, slot);
    if slot in GridOf(items) {
      HiddenIff(GridOf(items)[slot]);
    }
  }

  lemma ShowsIff(items: seq<LiveItem>, slot: int, want: Item)
    ensures ShowsItem(items, slot, want) <==> Holds(GridOf(items), slot, want)
  {
    GridPlain(items, slot);
    FilledIff(items, slot);
    HiddenIff(want);
    if slot in GridOf(items) {
      EqualFoldPlain(GridOf(items)[slot].kind, want.kind);
    }
  }

  /** The writes: one for each listed slot that does not show its item, slots ascending. */
  lemma {:induction false} WritesPlain(cat: string, g: Grid, desired: seq<Item>)
    ensures forall c :: c in Modifies(cat, g, desired) <==>
      && c.ModifyItem? && c.cat == cat && 1 <= c.index <= |desired| && c.item == desired[c.index - 1]
      && !Holds(g, c.index, c.item) && c.from == Look(g, c.index)
    ensures forall i, j :: 0 <= i < j < |Modifies(cat, g, desired)| ==>
      Modifies(cat, g, desired)[i].index < Modifies(cat, g, desired)[j].index
  {
    if desired != [] {
      var front, n := desired[..|desired| - 1], |desired|;
      WritesPlain(cat, g, front);
      HoldsUnlessNeeds(g, n, desired[n - 1]);
      var before := Modifies(cat, g, front);
      forall i | 0 <= i < |before|
        ensures before[i].ModifyItem? && before[i].index < n
      {
        assert before[i] in before;
      }
    }
  }

  /** The removals: one for each filled slot beyond the list, slots descending. */
  lemma {:induction false} RemovalsPlain(cat: string, g: Grid, n: nat, slot: nat)
    ensures forall c :: c in Deletes(cat, g, n, slot) <==>
      && c.DeleteItem? && c.cat == cat && n < c.index <= slot && !Empty(g, c.index) && c.was == g[c.index]
    ensures forall i, j :: 0 <= i < j < |Deletes(cat, g, n, slot)| ==>
      Deletes(cat, g, n, slot)[i].index > Deletes(cat, g, n, slot)[j].index
    decreases slot
  {
    if slot > n {
      RemovalsPlain(cat, g, n, slot - 1);
      var rest := Deletes(cat, g, n, slot - 1);
      forall i | 0 <= i < |rest|
        ensures rest[i].DeleteItem? && rest[i].index < slot
      {
        assert rest[i] in rest;
      }
    }
  }

  lemma {:induction false} NothingAboveMax(items: seq<LiveItem>, slot: int)
    requires slot > MaxIndex(items)
    ensures slot !in GridOf(items)
  {
    if items != [] {
      NothingAboveMax(items[..|items| - 1], slot);
    }
  }

  ghost predicate WriteAsked(cat: string, items: seq<LiveItem>, desired: seq<Item>, c: CatChange) {
    && c.ModifyItem? && c.cat == cat && 1 <= c.index <= |desired| && c.item == desired[c.index - 1]
    && !ShowsItem(items, c.index, c.item) && ReadsFrom(items, c.index, c.from)
  }

  /** What the report has of the slot. */
  ghost predicate ReadsFrom(items: seq<LiveItem>, slot: int, from: Option<Item>) {
    if from.None? then !exists i :: LastRow(items, i, slot)
    else exists i :: LastRow(items, i, slot) && from == Some(items[i].item)
  }

  ghost predicate RemovalAsked(cat: string, items: seq<LiveItem>, desired: seq<Item>, c: CatChange) {
    && c.DeleteItem? && c.cat == cat && c.index > |desired| && Filled(items, c.index)
    && exists i :: LastRow(items, i, c.index) && c.was == items[i].item
  }

  /** The plan of a live category: a write for every listed slot that does not show its item
      and a removal for every filled slot beyond the list. */
  lemma PlanPlain(cat: string, items: seq<LiveItem>, desired: seq<Item>)
    ensures forall c :: c in CatDiff(cat, Some(items), desired) <==>
      WriteAsked(cat, items, desired, c) || RemovalAsked(cat, items, desired, c)
  {
    forall c
      ensures WriteAsked(cat, items, desired, c) <==> c in Modifies(cat, GridOf(items), desired)
      ensures RemovalAsked(cat, items, desired, c) <==> c in Deletes(cat, GridOf(items), |desired|, MaxIndex(items))
    {
      WriteIff(cat, items, desired, c);
      RemovalIff(cat, items, desired, c);
    }
  }

  lemma WriteIff(cat: string, items: seq<LiveItem>, desired: seq<Item>, c: CatChange)
    ensures WriteAsked(cat, items, desired, c) <==> c in Modifies(cat, GridOf(items), desired)
  {
    WritesPlain(cat, GridOf(items), desired);
    if c.ModifyItem? {
      ShowsIff(items, c.index, c.item);
      GridPlain(items, c.index);
    }
  }

  lemma RemovalIff(cat: string, items: seq<LiveItem>, desired: seq<Item>, c: CatChange)
    ensures RemovalAsked(cat, items, desired, c) <==> c in Deletes(cat, GridOf(items), |desired|, MaxIndex(items))
  {
    RemovalsPlain(cat, GridOf(items), |desired|, MaxIndex(items));
    if c.DeleteItem? {
      FilledIff(items, c.index);
      GridPlain(items, c.index);
      if c.index > MaxIndex(items) {
        NothingAboveMax(items, c.index);
      }
    }
  }

  /** A category that is not there is created first; then come the writes, slots ascending,
      then the removals, slots descending. */
  lemma OrderPlain(cat: string, live: Option<seq<LiveItem>>, desired: seq<Item>, i: nat, j: nat)
    requires i < j < |CatDiff(cat, live, desired)|
    ensures var a, b := CatDiff(cat, live, desired)[i], CatDiff(cat, live, desired)[j];
      || (a.Create? && i == 0 && live.None?)
      || (a.ModifyItem? && b.ModifyItem? && a.index < b.index)
      || (a.ModifyItem? && b.DeleteItem?)
      || (a.DeleteItem? && b.DeleteItem? && a.index > b.index)
  {
    var g := if live.Some? then GridOf(live.value) else map[];
    WritesPlain(cat, g, desired);
    var writes := Modifies(cat, g, desired);
    assert forall k :: 0 <= k < |writes| ==> writes[k] in writes;
    if live.Some? {
      RemovalsPlain(cat, g, |desired|, MaxIndex(live.value));
      var removals := Deletes(cat, g, |desired|, MaxIndex(live.value));
      assert forall k :: 0 <= k < |removals| ==> removals[k] in removals;
    }
  }

  /** Of a new category every listed slot is written that is not BLANK. */
  lemma NewPlain(cat: string, desired: seq<Item>)
    ensures var plan := CatDiff(cat, None, desired);
      && plan != [] && plan[0] == Create(cat)
      && forall c :: c in plan[1..] <==>
           && c.ModifyItem? && c.cat == cat && 1 <= c.index <= |desired| && c.item == desired[c.index - 1]
           && !Hidden(c.item) && c.from == None
  {
    WritesPlain(cat, map[], desired);
    forall c: CatChange | c.ModifyItem?
      ensures Hidden(c.item) <==> Blank(c.item)
    {
      HiddenIff(c.item);
    }
    assert CatDiff(cat, None, desired)[1..] == Modifies(cat, map[], desired);
  }
}
