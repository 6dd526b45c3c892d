/** The crosspoint plan in plain terms: of the rows of the snapshot and the file, their levels
    written out. */
module RouteLevels {
  import opened Wrappers
  import opened Text
  import opened Sorting
  import opened Ids
  import opened Routes
  import opened RouteText

  // ---- what a snapshot says of a cell ----

  /** Row `i` is the last of its cell. */
  ghost predicate LastRow(live: seq<RouteSpec>, i: int, dest: string, level: string) {
    && 0 <= i < |live| && live[i].dest == dest && live[i].level == level
    && forall j :: i < j < |live| ==> live[j].dest != dest || live[j].level != level
  }

  lemma {:induction false} CellPlain(live: seq<RouteSpec>, dest: string, level: string)
    ensures Cell(dest, level) in CellsOf(live) <==> exists i :: LastRow(live, i, dest, level)
    ensures forall i :: LastRow(live, i, dest, level) ==>
      Cell(dest, level) in CellsOf(live) && CellsOf(live)[Cell(dest, level)] == Held(live[i].srce, live[i].srceLevel)
  {
    if live != [] {
      var front, last := live[..|live| - 1], live[|live| - 1];
      CellPlain(front, dest, level);
      if last.dest == dest && last.level == level {
        assert LastRow(live, |live| - 1, dest, level);
      } else {
        forall i
          ensures LastRow(live, i, dest, level) <==> LastRow(front, i, dest, level)
        {
          assert 0 <= i < |front| ==> front[i] == live[i];
          assert forall j :: 0 <= j < |front| ==> front[j] == live[j];
        }
      }
    }
  }

  /** An ID of digits is no route when it is the digit 0 or lies in the top 256 of the 32-bit
      numbers; of the others only the empty one is. */
  lemma NoRoutePlain(srce: string)
    ensures (forall c :: c in srce ==> '0' <= c <= '9') ==>
      && AllDigits(srce)
      && (NoRoute(srce) <==> srce == "" || srce == "0" || 4294967040 <= Decimal(srce) <= 4294967295)
    ensures (exists c :: c in srce && !('0' <= c <= '9')) ==> !NoRoute(srce)
  {
    if forall c :: c in srce ==> '0' <= c <= '9' {
      forall i | 0 <= i < |srce|
        ensures IsDigit(srce[i])
      {
        assert srce[i] in srce;
      }
    }
    if c :| c in srce && !('0' <= c <= '9') {
      var i :| 0 <= i < |srce| && srce[i] == c;
      assert !IsDigit(srce[i]);
      assert srce == "0" ==> i == 0;
    }
  }

  /** The rows are a snapshot exactly when the last row of each cell tells what the cell holds,
      and just the cells whose source is a route have one. */
  lemma ReportsPlain(live: seq<RouteSpec>, srv: Cells)
    ensures Reports(live, srv) <==> forall k :: Tells(live, srv, k)
  {
    forall k
      ensures Tells(live, srv, k) <==>
        (k in CellsOf(live) <==> k in Reported(srv)) && (k in CellsOf(live) ==> CellsOf(live)[k] == Reported(srv)[k])
    {
      CellPlain(live, k.dest, k.level);
    }
    if forall k :: Tells(live, srv, k) {
      assert forall k :: k in CellsOf(live) <==> k in Reported(srv);
      assert CellsOf(live) == Reported(srv);
    }
  }

  ghost predicate Tells(live: seq<RouteSpec>, srv: Cells, k: Cell) {
    && ((exists i :: LastRow(live, i, k.dest, k.level)) <==> k in srv && !NoRoute(srv[k].srce))
    && forall i :: LastRow(live, i, k.dest, k.level) ==> k in srv && srv[k] == Held(live[i].srce, live[i].srceLevel)
  }

  // ---- the plan ----

  /** A source as text: its ID, and its level behind a mark when it has one. */
  ghost predicate Reads(text: string, srce: string, srceLevel: string) {
    text == if srce != "" && srceLevel != "" then srce + "@lvl" + srceLevel else srce
  }

  /** What the snapshot shows of a cell; nothing of a cell it does not tell of. */
  ghost predicate ReadsAt(live: seq<RouteSpec>, dest: string, level: string, text: string) {
    && (forall i :: LastRow(live, i, dest, level) ==> Reads(text, live[i].srce, live[i].srceLevel))
    && ((exists i :: LastRow(live, i, dest, level)) || text == "")
  }

  /** The change a desired row asks for: its source, with its source level if that is another
      level than its own, where the snapshot shows something else. */
  ghost predicate Asks(live: seq<RouteSpec>, d: RouteSpec, c: RouteChange) {
    && c.dest == d.dest && c.level == d.level && c.to == d.srce
    && (d.level == "" || d.srceLevel == d.level || d.srceLevel == "" ==> c.srceLevel == "")
    && (d.level != "" && d.srceLevel != d.level ==> c.srceLevel == d.srceLevel)
    && ReadsAt(live, d.dest, d.level, c.from) && !Reads(c.from, c.to, c.srceLevel)
  }

  lemma ShownPlain(live: seq<RouteSpec>, dest: string, level: string, text: string)
    ensures ReadsAt(live, dest, level, text) <==> Shown(CellsOf(live), Cell(dest, level)) == text
  {
    CellPlain(live, dest, level);
  }

  lemma AsksIff(live: seq<RouteSpec>, d: RouteSpec, c: RouteChange)
    ensures Asks(live, d, c)
       <==> Shown(CellsOf(live), CellOf(d)) != Goal(d) && c == ChangeFor(CellsOf(live), d)
  {
    ShownPlain(live, d.dest, d.level, c.from);
  }

  /** The plan holds exactly the changes the rows of the file ask for. */
  lemma PlanPlain(live: seq<RouteSpec>, desired: seq<RouteSpec>, c: RouteChange)
    ensures c in RouteDiff(live, desired) <==> exists d :: d in desired && Asks(live, d, c)
  {
    PlanMember(live, desired, c);
    forall d
      ensures Asks(live, d, c) <==> Shown(CellsOf(live), CellOf(d)) != Goal(d) && c == ChangeFor(CellsOf(live), d)
    {
      AsksIff(live, d, c);
    }
  }

  /** The plan is in the order of the destinations and, at one destination, of the levels. */
  lemma OrderPlain(live: seq<RouteSpec>, desired: seq<RouteSpec>, i: nat, j: nat)
    requires ComparableNames(desired) && i < j < |RouteDiff(live, desired)|
    ensures var a, b := RouteDiff(live, desired)[i], RouteDiff(live, desired)[j];
      CmpId(a.dest, b.dest) < 0 || (CmpId(a.dest, b.dest) == 0 && CmpId(a.level, b.level) <= 0)
  {
    RawOrder(live, desired);
    SortSorts(ChangeLess, RawDiff(CellsOf(live), desired));
    assert InOrder(ChangeLess, RouteDiff(live, desired), i, j);
    CmpIdSign(RouteDiff(live, desired)[i].dest, RouteDiff(live, desired)[j].dest);
    CmpIdSign(RouteDiff(live, desired)[i].level, RouteDiff(live, desired)[j].level);
  }

  // ---- rows whose source is on their own level ----

  /** The row names no source level, or its own. */
  predicate OwnLevel(d: RouteSpec) {
    d.srceLevel == "" || d.srceLevel == d.level
  }

  /** Two rows of one cell name one source, both on their own level or both on one other. */
  ghost predicate RowsAgree(desired: seq<RouteSpec>) {
    forall d, e :: d in desired && e in desired && d.dest == e.dest && d.level == e.level ==>
      && d.srce == e.srce
      && (d.srceLevel == e.srceLevel || (OwnLevel(d) && OwnLevel(e)) || d.level == "")
  }

  lemma RowsAgreeIff(desired: seq<RouteSpec>)
    ensures RowsAgree(desired) <==> Agreed(desired)
  {
  }

  /** A row asks for nothing where its cell holds its source: on the row's own level, or on
      the other level it names. */
  lemma NothingAsked(live: seq<RouteSpec>, e: RouteSpec, i: nat, c: RouteChange)
    requires LastRow(live, i, e.dest, e.level) && live[i].srce == e.srce
    requires if OwnLevel(e) || e.level == "" then live[i].srceLevel == "" else live[i].srceLevel == e.srceLevel
    ensures !Asks(live, e, c)
  {
    assert Asks(live, e, c) ==> Reads(c.from, live[i].srce, live[i].srceLevel);
  }

  /** A row whose source stands in its cell, on the row's own level, plans nothing. */
  lemma OwnLevelQuiet(live: seq<RouteSpec>, desired: seq<RouteSpec>, d: RouteSpec, i: nat, c: RouteChange)
    requires RowsAgree(desired) && d in desired && OwnLevel(d)
    requires LastRow(live, i, d.dest, d.level) && live[i].srce == d.srce && live[i].srceLevel == ""
    ensures c in RouteDiff(live, desired) ==> c.dest != d.dest || c.level != d.level
  {
    PlanPlain(live, desired, c);
    forall e | e in desired && e.dest == d.dest && e.level == d.level
      ensures !Asks(live, e, c)
    {
      NothingAsked(live, e, i, c);
    }
  }

  /** A row of another level plans nothing where its source stands on that level. */
  lemma OtherLevelQuiet(live: seq<RouteSpec>, desired: seq<RouteSpec>, d: RouteSpec, i: nat, c: RouteChange)
    requires RowsAgree(desired) && d in desired && !OwnLevel(d) && d.level != ""
    requires LastRow(live, i, d.dest, d.level) && live[i].srce == d.srce && live[i].srceLevel == d.srceLevel
    ensures c in RouteDiff(live, desired) ==> c.dest != d.dest || c.level != d.level
  {
    PlanPlain(live, desired, c);
    forall e | e in desired && e.dest == d.dest && e.level == d.level
      ensures !Asks(live, e, c)
    {
      NothingAsked(live, e, i, c);
    }
  }

  /** After the run the cell of every row holds its source: without a source level when the row
      names none or its own, from the level it names when that is another one. */
  lemma LevelsHold(srces: set<string>, srv: Cells, live: seq<RouteSpec>, desired: seq<RouteSpec>, d: RouteSpec)
    requires "" !in srces && Unextended(srces) && WrittenFrom(srces, live) && WrittenFrom(srces, desired)
    requires Reports(live, srv) && RowsAgree(desired) && d in desired
    ensures var after := Run(srv, RouteDiff(live, desired), Everything());
      && Cell(d.dest, d.level) in after
      && (OwnLevel(d) ==> after[Cell(d.dest, d.level)] == Held(d.srce, ""))
      && (!OwnLevel(d) && d.level != "" ==> after[Cell(d.dest, d.level)] == Held(d.srce, d.srceLevel))
  {
    RowsAgreeIff(desired);
    RoutesHold(srces, srv, live, desired, d);
  }
}
