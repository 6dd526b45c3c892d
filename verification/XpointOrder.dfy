/** What the order of the exported rows can be relied on for, under any stable sort. */
module XpointOrder {
  import opened Wrappers
  import opened Text
  import opened Sorting
  import opened Sequences
  import opened Ids
  import opened Routes
  import opened Xpoint
  import opened AnySort
  import LibrarySort

  /** The IDs the well-formed routes are written with. */
  ghost predicate WrittenWith(routes: seq<RouteSpec>, ids: set<string>) {
    forall r :: r in routes && WellFormed(r) ==>
      r.dest in ids && r.srce in ids && r.level in ids && (r.srceLevel != "" ==> r.srceLevel in ids)
  }

  ghost predicate RowsWrittenWith(rows: seq<XpointRow>, ids: set<string>) {
    forall row :: row in rows ==> row.dest in ids && row.srce in ids && (row.srceLevel != "" ==> row.srceLevel in ids)
  }

  /** Rows written with comparable IDs have one stable arrangement. */
  lemma RowsWeak(ids: set<string>, rows: seq<XpointRow>)
    requires Comparable(ids) && RowsWrittenWith(rows, ids)
    ensures Asymmetric(RowLess) && WeakOrderOn(RowLess, rows)
  {
    RowLessAsymmetric();
    EmptyIdHarmless(ids);
    forall a, b, c | a in rows && b in rows && c in rows
      ensures Splits(RowLess, a, b, c)
    {
      CmpIdSplits(ids, a.dest, b.dest, c.dest);
      CmpIdSplits(ids, a.srce, b.srce, c.srce);
      CmpIdSplits(ids + {""}, a.srceLevel, b.srceLevel, c.srceLevel);
    }
  }

  lemma LevelsWritten(ids: set<string>, routes: seq<RouteSpec>, k: Key)
    requires WrittenWith(routes, ids)
    ensures forall x :: x in LevelsOf(routes, k) ==> x in ids
  {
    forall x | x in LevelsOf(routes, k)
      ensures x in ids
    {
      LevelsMember(routes, k, x);
    }
  }

  lemma KeysWritten(ids: set<string>, routes: seq<RouteSpec>, k: Key)
    requires WrittenWith(routes, ids) && k in Keys(routes)
    ensures k.dest in ids && k.srce in ids && (k.srceLevel != "" ==> k.srceLevel in ids)
  {
    KeysMember(routes, k);
  }

  lemma RawWritten(ids: set<string>, routes: seq<RouteSpec>)
    requires WrittenWith(routes, ids)
    ensures RowsWrittenWith(RowsOf(routes, Keys(routes)), ids)
  {
    var keys := Keys(routes);
    forall i | 0 <= i < |keys|
      ensures keys[i].dest in ids && keys[i].srce in ids && (keys[i].srceLevel != "" ==> keys[i].srceLevel in ids)
    {
      KeysWritten(ids, routes, keys[i]);
    }
  }

  // ---- collapsing with any stable sort ----

  type RowSort = seq<XpointRow> -> seq<XpointRow>
  type IdSort = seq<string> -> seq<string>

  function RawBy(sortIds: IdSort, routes: seq<RouteSpec>): seq<XpointRow> {
    var keys := Keys(routes);
    seq(|keys|, i requires 0 <= i < |keys| =>
      XpointRow(keys[i].dest, keys[i].srce, sortIds(LevelsOf(routes, keys[i])), keys[i].srceLevel))
  }

  function CollapsedBy(sortRows: RowSort, sortIds: IdSort, routes: seq<RouteSpec>): seq<XpointRow> {
    sortRows(RawBy(sortIds, routes))
  }

  lemma RawByIsRows(ids: set<string>, routes: seq<RouteSpec>, sortIds: IdSort)
    requires Comparable(ids) && WrittenWith(routes, ids) && Stable(IdLess, sortIds)
    ensures RawBy(sortIds, routes) == RowsOf(routes, Keys(routes)) && RowsWrittenWith(RawBy(sortIds, routes), ids)
  {
    var keys := Keys(routes);
    forall i | 0 <= i < |keys|
      ensures sortIds(LevelsOf(routes, keys[i])) == Sort(IdLess, LevelsOf(routes, keys[i]))
      ensures keys[i].dest in ids && keys[i].srce in ids && (keys[i].srceLevel != "" ==> keys[i].srceLevel in ids)
    {
      LevelsWritten(ids, routes, keys[i]);
      KeysWritten(ids, routes, keys[i]);
      IdsWeak(ids, LevelsOf(routes, keys[i]));
      StableIsSort(IdLess, sortIds, LevelsOf(routes, keys[i]));
    }
  }

  /** With comparable IDs every stable sort collapses a snapshot to the same rows. */
  lemma AnyStableSortCollapses(ids: set<string>, routes: seq<RouteSpec>, sortRows: RowSort, sortIds: IdSort)
    requires Comparable(ids) && WrittenWith(routes, ids) && Stable(RowLess, sortRows) && Stable(IdLess, sortIds)
    ensures CollapsedBy(sortRows, sortIds, routes) == Collapsed(routes)
  {
    RawByIsRows(ids, routes, sortIds);
    RowsWeak(ids, RawBy(sortIds, routes));
    StableIsSort(RowLess, sortRows, RawBy(sortIds, routes));
  }

  // ---- collapsing what a collapse describes ----

  lemma LevelsSorted(ids: set<string>, routes: seq<RouteSpec>, row: XpointRow)
    requires Comparable(ids) && WrittenWith(routes, ids) && row in Collapsed(routes)
    ensures CanonicalRow(row) && Sort(IdLess, row.levels) == row.levels
  {
    var levels := LevelsOf(routes, RowKey(row));
    CollapsedCanonical(routes, row);
    CollapsedRow(routes, row);
    LevelsWritten(ids, routes, RowKey(row));
    IdsWeak(ids, levels);
    SortChains(IdLess, levels);
    SortOfChain(IdLess, row.levels);
  }

  lemma RowsSorted(ids: set<string>, routes: seq<RouteSpec>)
    requires Comparable(ids) && WrittenWith(routes, ids)
    ensures Sort(RowLess, Collapsed(routes)) == Collapsed(routes)
  {
    RowLessAsymmetric();
    SortChains(RowLess, RowsOf(routes, Keys(routes)));
    SortOfChain(RowLess, Collapsed(routes));
  }

  lemma CollapseFixed(ids: set<string>, routes: seq<RouteSpec>)
    requires Comparable(ids) && WrittenWith(routes, ids)
    ensures Collapsed(Expanded(Collapsed(routes))) == Collapsed(routes)
  {
    var rows := Collapsed(routes);
    CollapsedKeys(routes);
    forall row | row in rows
      ensures CanonicalRow(row) && Sort(IdLess, row.levels) == row.levels
    {
      LevelsSorted(ids, routes, row);
    }
    ExpandedGroups(rows);
    assert RowsOf(Expanded(rows), Keys(Expanded(rows))) == rows;
    RowsSorted(ids, routes);
  }

  ghost predicate Fixed(ids: set<string>, routes: seq<RouteSpec>, sortRows: RowSort, sortIds: IdSort) {
    WrittenWith(routes, ids) && Stable(RowLess, sortRows) && Stable(IdLess, sortIds) ==>
      var rows := CollapsedBy(sortRows, sortIds, routes);
      CollapsedBy(sortRows, sortIds, Expanded(rows)) == rows
  }

  /** Exporting what an export describes gives the same rows in the same order, under every
      stable sort, when the IDs are comparable. */
  lemma CollapseIdempotent(ids: set<string>, routes: seq<RouteSpec>, sortRows: RowSort, sortIds: IdSort)
    requires Comparable(ids)
    ensures Fixed(ids, routes, sortRows, sortIds)
  {
    if WrittenWith(routes, ids) && Stable(RowLess, sortRows) && Stable(IdLess, sortIds) {
      AnyStableSortCollapses(ids, routes, sortRows, sortIds);
      CollapseFixed(ids, routes);
      ExpandCollapse(routes);
      AnyStableSortCollapses(ids, Expanded(Collapsed(routes)), sortRows, sortIds);
    }
  }

  /** One source on one level, feeding each of some destinations. */
  function RowsTo(dests: seq<string>, srce: string): seq<XpointRow> {
    seq(|dests|, i requires 0 <= i < |dests| => XpointRow(dests[i], srce, [srce], ""))
  }

  /** Canonical rows whose levels a sort leaves alone are what it groups their routes into. */
  lemma GroupsBack(rows: seq<XpointRow>, sortIds: IdSort)
    requires DistinctKeys(rows) && forall row :: row in rows ==> CanonicalRow(row) && sortIds(row.levels) == row.levels
    ensures RawBy(sortIds, Expanded(rows)) == rows
  {
    ExpandedGroups(rows);
    assert forall i :: 0 <= i < |rows| ==> rows[i] in rows;
  }

  lemma RowsToCanonical(dests: seq<string>, srce: string)
    requires srce != "" && Distinct(dests) && "" !in dests
    ensures var rows := RowsTo(dests, srce);
      DistinctKeys(rows) && forall row :: row in rows ==> CanonicalRow(row) && row.levels == [srce]
  {
    assert forall i :: 0 <= i < |dests| ==> dests[i] in dests && RowsTo(dests, srce)[i].dest == dests[i];
  }

  lemma RowsToGroup(dests: seq<string>, srce: string, sortIds: IdSort)
    requires srce != "" && Distinct(dests) && "" !in dests && Stable(IdLess, sortIds)
    ensures RawBy(sortIds, Expanded(RowsTo(dests, srce))) == RowsTo(dests, srce)
  {
    RowsToCanonical(dests, srce);
    SingletonSorts(sortIds, srce);
    GroupsBack(RowsTo(dests, srce), sortIds);
  }

  lemma RowsToRows(dests: seq<string>, srce: string)
    requires srce != "" && Distinct(dests) && "" !in dests
    ensures var routes := Expanded(RowsTo(dests, srce)); RowsOf(routes, Keys(routes)) == RowsTo(dests, srce)
  {
    RowsToCanonical(dests, srce);
    SortOfChain(IdLess, [srce]);
    ExpandedGroups(RowsTo(dests, srce));
  }

  lemma SingletonSorts(sortIds: IdSort, x: string)
    requires Stable(IdLess, sortIds)
    ensures sortIds([x]) == [x]
  {
    assert StableOn(IdLess, sortIds, [x]);
    var t := sortIds([x]);
    assert |t| == |multiset(t)| == |multiset([x])| == 1;
    assert t[0] in multiset(t);
  }

  lemma BentRows(x: string, y: string, z: string, rows: seq<XpointRow>)
    requires Straddled(x, y, z)
    requires XpointRow(x, x, [x], "") in rows && XpointRow(y, x, [x], "") in rows && XpointRow(z, x, [x], "") in rows
    ensures !WeakOrderOn(RowLess, rows)
  {
    StraddleCycles(x, y, z);
    CmpIdSign(x, z);
    CmpIdSign(y, x);
    CmpIdSign(z, y);
    CmpIdSign(x, x);
    CmpIdSign("", "");
    assert !Splits(RowLess, XpointRow(z, x, [x], ""), XpointRow(y, x, [x], ""), XpointRow(x, x, [x], ""));
  }

  lemma WrittenRowsTo(ids: set<string>, dests: seq<string>, srce: string)
    requires srce in ids && forall d :: d in dests ==> d in ids
    ensures WrittenWith(Expanded(RowsTo(dests, srce)), ids)
  {
    forall r | r in Expanded(RowsTo(dests, srce))
      ensures r.dest in ids && r.srce in ids && r.level in ids && r.srceLevel == ""
    {
      ExpandedMember(RowsTo(dests, srce), r);
    }
  }

  lemma ReversedRowsTo(dests: seq<string>, srce: string)
    ensures Reversed(RowsTo(dests, srce)) == RowsTo(Reversed(dests), srce)
  {
  }

  /** Rows that nothing is promised of are turned around by the contrary sort. */
  lemma Turned(dests: seq<string>, x: string, y: string, z: string)
    requires Straddled(x, y, z) && x in dests && y in dests && z in dests
    ensures Contrary(RowLess)(RowsTo(dests, x)) == RowsTo(Reversed(dests), x)
  {
    forall d | d in dests
      ensures XpointRow(d, x, [x], "") in RowsTo(dests, x)
    {
      var i :| 0 <= i < |dests| && dests[i] == d;
      assert RowsTo(dests, x)[i].dest == d;
    }
    BentRows(x, y, z, RowsTo(dests, x));
    ReversedRowsTo(dests, x);
  }

  lemma ContraryCollapse(dests: seq<string>, x: string, y: string, z: string)
    requires Straddled(x, y, z) && x in dests && y in dests && z in dests && Distinct(dests) && "" !in dests
    ensures CollapsedBy(Contrary(RowLess), Contrary(IdLess), Expanded(RowsTo(dests, x))) == RowsTo(Reversed(dests), x)
  {
    IdLessAsymmetric();
    ContraryIsStable(IdLess);
    RowsToGroup(dests, x, Contrary(IdLess));
    Turned(dests, x, y, z);
  }

  lemma TurnsBack(ids: set<string>, dests: seq<string>, x: string, y: string, z: string)
    requires Straddled(x, y, z) && x in dests && y in dests && z in dests && Distinct(dests) && "" !in dests
    requires (forall d :: d in dests ==> d in ids) && dests[0] != dests[|dests| - 1]
    ensures !Fixed(ids, Expanded(RowsTo(dests, x)), Contrary(RowLess), Contrary(IdLess))
  {
    RowLessAsymmetric();
    IdLessAsymmetric();
    ContraryIsStable(RowLess);
    ContraryIsStable(IdLess);
    WrittenRowsTo(ids, dests, x);
    ReversedKeeps(dests);
    ContraryCollapse(dests, x, y, z);
    ContraryCollapse(Reversed(dests), x, y, z);
    assert RowsTo(dests, x)[0].dest != RowsTo(Reversed(dests), x)[0].dest;
  }

  lemma StraddledTurns(ids: set<string>, x: string, y: string, z: string) returns (routes: seq<RouteSpec>)
    requires x in ids && y in ids && z in ids && Straddled(x, y, z)
    ensures !Fixed(ids, routes, Contrary(RowLess), Contrary(IdLess))
  {
    StraddleCycles(x, y, z);
    EmptyIsNoNumeral();
    var dests := [x, y, z];
    routes := Expanded(RowsTo(dests, x));
    TurnsBack(ids, dests, x, y, z);
  }

  /** A stable sort promises that the export of an export is the same exactly on comparable
      IDs. */
  lemma CollapseIdempotentIff(ids: set<string>)
    ensures Comparable(ids) <==> forall routes, sortRows, sortIds :: Fixed(ids, routes, sortRows, sortIds)
  {
    if Comparable(ids) {
      forall routes, sortRows, sortIds
        ensures Fixed(ids, routes, sortRows, sortIds)
      {
        CollapseIdempotent(ids, routes, sortRows, sortIds);
      }
    } else {
      var x, y, z :| x in ids && y in ids && z in ids && Straddled(x, y, z);
      var routes := StraddledTurns(ids, x, y, z);
    }
  }

  // ---- an export the library changes ----

  /** "0" to "9", "100", "1a" to "1i", "20". */
  function BentIds(): seq<string> {
    seq(21, i requires 0 <= i < 21 => BentId(i))
  }

  function BentId(i: nat): string
    requires i < 21
  {
    if i < 10 then ['0' + i as char]
    else if i == 10 then "100"
    else if i < 20 then ['1', 'a' + (i - 11) as char]
    else "20"
  }

  lemma DigitId(i: nat)
    requires i < 10
    ensures Atoi(Trim(BentId(i))) == Some(i)
  {
    var s := BentId(i);
    assert s[..0] == [];
    assert Decimal(s) == i;
  }

  lemma LetterId(i: nat)
    requires 10 < i < 20
    ensures !Numeral(BentId(i))
  {
    assert !IsDigit(BentId(i)[1]);
  }

  lemma HundredId()
    ensures Atoi(Trim("100")) == Some(100) && Atoi(Trim("20")) == Some(20)
  {
    assert Decimal("1") == 1 && Decimal("10") == 10 && Decimal("100") == 100;
    assert Decimal("2") == 2 && Decimal("20") == 20;
  }

  lemma BentKinds(i: nat)
    requires i < 21
    ensures i < 10 ==> Atoi(Trim(BentId(i))) == Some(i)
    ensures i == 10 ==> Atoi(Trim(BentId(i))) == Some(100)
    ensures 10 < i < 20 ==> !Numeral(BentId(i))
    ensures i == 20 ==> Atoi(Trim(BentId(i))) == Some(20)
  {
    if i < 10 {
      DigitId(i);
    } else if 10 < i < 20 {
      LetterId(i);
    } else {
      HundredId();
    }
  }

  lemma LettersInOrder(i: nat)
    requires 11 < i < 20
    ensures StrCmp(BentId(i), BentId(i - 1)) >= 0
  {
    var a, b := BentId(i), BentId(i - 1);
    assert a[1..] == [a[1]] && b[1..] == [b[1]];
    assert StrCmp(a, b) == StrCmp(a[1..], b[1..]);
  }

  lemma FirstLetter()
    ensures StrCmp(BentId(11), BentId(10)) >= 0
  {
    var a, b := BentId(11), BentId(10);
    assert StrCmp(a, b) == StrCmp(a[1..], b[1..]);
    assert a[1..][0] == 'a' && b[1..][0] == '0';
  }

  lemma BentNeighbours(i: nat)
    requires 0 < i < 21
    ensures CmpId(BentId(i), BentId(i - 1)) >= 0
  {
    BentKinds(i);
    BentKinds(i - 1);
    if i == 11 {
      FirstLetter();
    } else if 11 < i < 20 {
      LettersInOrder(i);
    }
  }

  lemma LastLetter()
    ensures StrCmp(BentId(19), BentId(20)) < 0
  {
    assert BentId(19)[0] == '1' && BentId(20)[0] == '2';
  }

  lemma NumeralsCompare(a: string, b: string, m: int, n: int)
    requires Atoi(Trim(a)) == Some(m) && Atoi(Trim(b)) == Some(n)
    ensures CmpId(a, b) < 0 <==> m < n
  {
  }

  lemma BentEnds(i: nat)
    requires i < 10
    ensures CmpId(BentId(20), BentId(10)) < 0 && CmpId(BentId(19), BentId(20)) < 0
    ensures CmpId(BentId(20), BentId(i)) >= 0
  {
    BentKinds(10);
    BentKinds(19);
    BentKinds(20);
    BentKinds(i);
    NumeralsCompare(BentId(20), BentId(10), 20, 100);
    NumeralsCompare(BentId(20), BentId(i), 20, i);
    LastLetter();
  }

  lemma BentDistinct()
    ensures Distinct(BentIds()) && "" !in BentIds()
  {
    forall i, j | 0 <= i < j < 21
      ensures BentId(i) != BentId(j)
    {
      BentKinds(i);
      BentKinds(j);
      if 10 < i && j < 20 {
        assert BentId(i)[1] != BentId(j)[1];
      }
    }
  }

  lemma RowsToLess(dests: seq<string>, srce: string, i: nat, j: nat)
    requires i < |dests| && j < |dests|
    ensures RowLess(RowsTo(dests, srce)[i], RowsTo(dests, srce)[j]) <==> CmpId(dests[i], dests[j]) < 0
  {
    CmpIdSign(srce, srce);
    CmpIdSign("", "");
  }

  lemma BentChain()
    ensures Chain(RowLess, RowsTo(BentIds(), "1"))
  {
    var rows := RowsTo(BentIds(), "1");
    forall i | 0 < i < 21
      ensures !RowLess(rows[i], rows[i - 1])
    {
      BentNeighbours(i);
      RowsToLess(BentIds(), "1", i, i - 1);
    }
  }

  lemma BentRowsEnds()
    ensures var rows := RowsTo(BentIds(), "1");
      && RowLess(rows[20], rows[10]) && !RowLess(rows[10], rows[20]) && RowLess(rows[19], rows[20])
      && (forall k :: 0 <= k < 10 ==> !RowLess(rows[20], rows[k]))
      && forall i, j :: 0 <= i < j < 21 ==> rows[i] != rows[j]
  {
    var rows := RowsTo(BentIds(), "1");
    BentEnds(0);
    CmpIdSign(BentId(20), BentId(10));
    RowsToLess(BentIds(), "1", 20, 10);
    RowsToLess(BentIds(), "1", 10, 20);
    RowsToLess(BentIds(), "1", 19, 20);
    forall k | 0 <= k < 10
      ensures !RowLess(rows[20], rows[k])
    {
      BentEnds(k);
      RowsToLess(BentIds(), "1", 20, k);
    }
    BentDistinct();
    forall i, j | 0 <= i < j < 21
      ensures rows[i] != rows[j]
    {
      assert BentIds()[i] != BentIds()[j];
    }
  }

  lemma BentRowsTo(dests: seq<string>, srce: string)
    requires |dests| == 21
    ensures |LibrarySort.Bent(dests)| == 21
    ensures RowsTo(LibrarySort.Bent(dests), srce) == LibrarySort.Bent(RowsTo(dests, srce))
  {
    LibrarySort.BentAt(dests, 0);
    LibrarySort.BentAt(RowsTo(dests, srce), 0);
    forall i | 0 <= i < 21
      ensures RowsTo(LibrarySort.Bent(dests), srce)[i] == LibrarySort.Bent(RowsTo(dests, srce))[i]
    {
      LibrarySort.BentAt(dests, i);
      LibrarySort.BentAt(RowsTo(dests, srce), i);
    }
  }

  lemma BentGroups()
    ensures var first := LibrarySort.Bent(RowsTo(BentIds(), "1"));
      RowsOf(Expanded(first), Keys(Expanded(first))) == first
  {
    BentDistinct();
    LibrarySort.BentKeeps(BentIds());
    BentRowsTo(BentIds(), "1");
    RowsToRows(LibrarySort.Bent(BentIds()), "1");
  }

  /** The export of 21 destinations of one source. Exported again, the rows come out of the
      library's own sort in another order. */
  lemma LibraryMovesRows()
    ensures var routes := Expanded(RowsTo(BentIds(), "1"));
      var raw := RowsOf(routes, Keys(routes));
      && |raw| == 21
      && var first := LibrarySort.StableSort(RowLess, raw);
      var again := RowsOf(Expanded(first), Keys(Expanded(first)));
      |again| == 21 && LibrarySort.StableSort(RowLess, again) != first
  {
    BentDistinct();
    RowsToRows(BentIds(), "1");
    BentChain();
    BentRowsEnds();
    LibrarySort.TwiceDiffers(RowLess, RowsTo(BentIds(), "1"));
    BentGroups();
  }

  // ---- the order of arrival is forgotten exactly on ordered IDs ----

  /** Two snapshots of the same routes, in any order and with any repetition. */
  ghost predicate SameRoutes(a: seq<RouteSpec>, b: seq<RouteSpec>) {
    forall r :: WellFormed(r) ==> (r in a <==> r in b)
  }

  lemma IdOrder(ids: set<string>, s: seq<string>)
    requires Comparable(ids) && NoTwins(ids) && forall x :: x in s ==> x in ids
    ensures Asymmetric(IdLess) && WeakOrderOn(IdLess, s) && TotalOn(IdLess, s)
  {
    IdsWeak(ids, s);
    forall a, b | a in s && b in s && a != b
      ensures IdLess(a, b) || IdLess(b, a)
    {
      CmpIdSign(a, b);
      StrCmpSign(a, b);
      assert !Twins(a, b);
    }
  }

  lemma LevelsForgetOrder(a: seq<RouteSpec>, b: seq<RouteSpec>, ids: set<string>, k: Key)
    requires SameRoutes(a, b) && WrittenWith(a, ids) && Comparable(ids) && NoTwins(ids)
    ensures RowOf(a, k) == RowOf(b, k)
  {
    var la, lb := LevelsOf(a, k), LevelsOf(b, k);
    forall x
      ensures x in la <==> x in lb
      ensures x in la ==> x in ids
    {
      LevelsMember(a, k, x);
      LevelsMember(b, k, x);
      assert WellFormed(RouteSpec(k.dest, k.srce, x, k.srceLevel)) <==> k.dest != "" && k.srce != "" && x != "";
    }
    LevelsMember(a, k, "");
    LevelsMember(b, k, "");
    SameElements(la, lb);
    IdOrder(ids, la);
    SortForgetsOrder(IdLess, la, lb);
  }

  lemma RowsTotal(ids: set<string>, rows: seq<XpointRow>)
    requires NoTwins(ids) && RowsWrittenWith(rows, ids)
    requires forall row, other :: row in rows && other in rows && RowKey(row) == RowKey(other) ==> row == other
    ensures TotalOn(RowLess, rows)
  {
    forall a, b | a in rows && b in rows && a != b
      ensures RowLess(a, b) || RowLess(b, a)
    {
      assert RowKey(a) != RowKey(b);
      EmptyIdHarmless(ids);
      CmpIdApart(ids + {""}, a.dest, b.dest);
      CmpIdApart(ids + {""}, a.srce, b.srce);
      CmpIdApart(ids + {""}, a.srceLevel, b.srceLevel);
    }
  }

  lemma CmpIdApart(ids: set<string>, a: string, b: string)
    requires NoTwins(ids) && a in ids && b in ids
    ensures CmpId(a, b) == -CmpId(b, a)
    ensures CmpId(a, b) == 0 <==> a == b
  {
    CmpIdSign(a, b);
    StrCmpSign(a, b);
    assert !Twins(a, b);
  }

  lemma CollapseForgetsOrder(a: seq<RouteSpec>, b: seq<RouteSpec>, ids: set<string>)
    requires SameRoutes(a, b) && WrittenWith(a, ids) && Comparable(ids) && NoTwins(ids)
    ensures Collapsed(a) == Collapsed(b)
  {
    var ra, rb := RowsOf(a, Keys(a)), RowsOf(b, Keys(b));
    KeysMember(a, Key("", "", ""));
    KeysMember(b, Key("", "", ""));
    RawRowsApart(a);
    RawRowsApart(b);
    forall row
      ensures row in ra <==> row in rb
      ensures row in ra ==> row.dest in ids && row.srce in ids && (row.srceLevel != "" ==> row.srceLevel in ids)
    {
      RawRow(a, row);
      RawRow(b, row);
      KeysMember(a, RowKey(row));
      KeysMember(b, RowKey(row));
      LevelsForgetOrder(a, b, ids, RowKey(row));
    }
    SameElements(ra, rb);
    forall row, other | row in ra && other in ra && RowKey(row) == RowKey(other)
      ensures row == other
    {
      RawRow(a, row);
      RawRow(a, other);
    }
    RowsWeak(ids, ra);
    RowsTotal(ids, ra);
    SortForgetsOrder(RowLess, ra, rb);
  }

  lemma RawRow(routes: seq<RouteSpec>, row: XpointRow)
    ensures row in RowsOf(routes, Keys(routes)) <==> RowKey(row) in Keys(routes) && row == RowOf(routes, RowKey(row))
  {
    SortPermutes(RowLess, RowsOf(routes, Keys(routes)));
    CollapsedRow(routes, row);
  }

  lemma RawRowsApart(routes: seq<RouteSpec>)
    ensures Distinct(RowsOf(routes, Keys(routes)))
  {
    var keys, raw := Keys(routes), RowsOf(routes, Keys(routes));
    KeysMember(routes, Key("", "", ""));
    forall i, j | 0 <= i < j < |raw|
      ensures raw[i] != raw[j]
    {
      assert RowKey(raw[i]) == keys[i] && RowKey(raw[j]) == keys[j];
    }
  }

  /** One source feeding destinations none of which is less than its neighbour before: the
      rows stand in order of arrival. */
  lemma ChainCollapses(dests: seq<string>, srce: string)
    requires srce != "" && Distinct(dests) && "" !in dests
    requires forall i :: 0 < i < |dests| ==> CmpId(dests[i], dests[i - 1]) >= 0
    ensures Collapsed(Expanded(RowsTo(dests, srce))) == RowsTo(dests, srce)
  {
    var rows := RowsTo(dests, srce);
    RowsToRows(dests, srce);
    forall i | 0 < i < |rows|
      ensures !RowLess(rows[i], rows[i - 1])
    {
      RowsToLess(dests, srce, i, i - 1);
    }
    SortOfChain(RowLess, rows);
  }

  lemma RowsToSame(ids: set<string>, a: seq<string>, b: seq<string>, srce: string)
    requires srce in ids && (forall d :: d in a ==> d in ids) && forall d :: d in a <==> d in b
    ensures SameRoutes(Expanded(RowsTo(a, srce)), Expanded(RowsTo(b, srce)))
    ensures WrittenWith(Expanded(RowsTo(a, srce)), ids)
  {
    WrittenRowsTo(ids, a, srce);
    forall r
      ensures r in Expanded(RowsTo(a, srce)) <==> r in Expanded(RowsTo(b, srce))
    {
      RouteTo(a, srce, r);
      RouteTo(b, srce, r);
    }
  }

  lemma RouteTo(dests: seq<string>, srce: string, r: RouteSpec)
    ensures r in Expanded(RowsTo(dests, srce)) <==> r.dest in dests && r == RouteSpec(r.dest, srce, srce, "")
  {
    var rows := RowsTo(dests, srce);
    ExpandedMember(rows, r);
    if r.dest in dests {
      var i :| 0 <= i < |dests| && dests[i] == r.dest;
      assert rows[i] in rows && RowKey(rows[i]) == Key(r.dest, srce, "");
    }
  }

  ghost predicate OrderForgotten(ids: set<string>, a: seq<RouteSpec>, b: seq<RouteSpec>) {
    SameRoutes(a, b) && WrittenWith(a, ids) ==> Collapsed(a) == Collapsed(b)
  }

  /** Some two snapshots of one routing are exported differently. */
  ghost predicate Unstable(ids: set<string>) {
    exists a, b :: !OrderForgotten(ids, a, b)
  }

  lemma ShowUnstable(ids: set<string>, a: seq<RouteSpec>, b: seq<RouteSpec>)
    requires SameRoutes(a, b) && WrittenWith(a, ids) && Collapsed(a) != Collapsed(b)
    ensures Unstable(ids)
  {
    assert !OrderForgotten(ids, a, b);
  }

  /** Two chains over the same destinations that start differently. */
  lemma ChainsUnstable(ids: set<string>, a: seq<string>, b: seq<string>)
    requires a != [] && b != [] && Distinct(a) && Distinct(b) && a[0] != b[0]
    requires (forall d :: d in a <==> d in b) && forall d :: d in a ==> d in ids && d != ""
    requires forall i :: 0 < i < |a| ==> CmpId(a[i], a[i - 1]) >= 0
    requires forall i :: 0 < i < |b| ==> CmpId(b[i], b[i - 1]) >= 0
    ensures Unstable(ids)
  {
    var srce := a[0];
    RowsToSame(ids, a, b, srce);
    ChainCollapses(a, srce);
    ChainCollapses(b, srce);
    assert RowsTo(a, srce)[0].dest != RowsTo(b, srce)[0].dest;
    ShowUnstable(ids, Expanded(RowsTo(a, srce)), Expanded(RowsTo(b, srce)));
  }

  lemma TwinsUnstable(ids: set<string>, x: string, y: string)
    requires x != "" && y != "" && x in ids && y in ids && x != y && CmpId(x, y) == CmpId(y, x) == 0
    ensures Unstable(ids)
  {
    ChainsUnstable(ids, [x, y], [y, x]);
  }

  lemma CycleUnstable(ids: set<string>, x: string, y: string, z: string)
    requires x != "" && y != "" && z != "" && x in ids && y in ids && z in ids && x != y && y != z && x != z
    requires CmpId(y, x) >= 0 && CmpId(z, y) >= 0 && CmpId(x, z) >= 0
    ensures Unstable(ids)
  {
    ChainsUnstable(ids, [x, y, z], [y, z, x]);
  }

  lemma UnorderedUnstable(ids: set<string>)
    requires !(Comparable(ids) && NoTwins(ids))
    ensures Unstable(ids)
  {
    if x, y :| x in ids && y in ids && Twins(x, y) {
      CmpIdSign(x, y);
      EmptyIsNoNumeral();
      TwinsUnstable(ids, x, y);
    } else {
      assert NoTwins(ids);
      StraddleUnstable(ids);
    }
  }

  /** The three rows are few enough for the library to sort them by plain insertion, as
      `Sort` does (`LibrarySort.StableSort`). */
  lemma StraddleUnstable(ids: set<string>)
    requires !Comparable(ids)
    ensures Unstable(ids)
  {
    var x, y, z :| x in ids && y in ids && z in ids && Straddled(x, y, z);
    StraddleCycles(x, y, z);
    EmptyIsNoNumeral();
    CycleUnstable(ids, x, y, z);
  }

  /** Exports of one routing are byte-stable, whatever the order and repetition of the
      snapshot rows, exactly when no ID of the plant is straddled and none are twins. */
  lemma ByteStableIff(ids: set<string>)
    ensures Comparable(ids) && NoTwins(ids) <==> forall a, b :: OrderForgotten(ids, a, b)
  {
    if Comparable(ids) && NoTwins(ids) {
      forall a, b
        ensures OrderForgotten(ids, a, b)
      {
        if SameRoutes(a, b) && WrittenWith(a, ids) {
          CollapseForgetsOrder(a, b, ids);
        }
      }
    } else {
      UnorderedUnstable(ids);
    }
  }
}
