/** Routes collapsed into the multi-level rows of the crosspoint file, and back. */
module Xpoint {
  import opened Wrappers
  import opened Text
  import opened Sorting
  import opened Sequences
  import opened Ids
  import opened Routes

  datatype XpointRow = XpointRow(dest: string, srce: string, levels: seq<string>, srceLevel: string)

  // ---- grouping ----

  /** What makes two routes share a row. */
  datatype Key = Key(dest: string, srce: string, srceLevel: string)

  predicate WellFormed(r: RouteSpec) {
    r.dest != "" && r.srce != "" && r.level != ""
  }

  function KeyOf(r: RouteSpec): Key {
    Key(r.dest, r.srce, r.srceLevel)
  }

  /** The keys of the well-formed routes, in order of first appearance. */
  function Keys(routes: seq<RouteSpec>): seq<Key> {
    if routes == [] then []
    else
      var r, before := routes[|routes| - 1], Keys(routes[..|routes| - 1]);
      if WellFormed(r) then AddNew(before, KeyOf(r)) else before
  }

  /** The levels on which the routes carry key `k`, in order of first appearance. */
  function LevelsOf(routes: seq<RouteSpec>, k: Key): seq<string> {
    if routes == [] then []
    else
      var r, before := routes[|routes| - 1], LevelsOf(routes[..|routes| - 1], k);
      if WellFormed(r) && KeyOf(r) == k then AddNew(before, r.level) else before
  }

  function RowOf(routes: seq<RouteSpec>, k: Key): XpointRow {
    XpointRow(k.dest, k.srce, Sort(IdLess, LevelsOf(routes, k)), k.srceLevel)
  }

  function RowsOf(routes: seq<RouteSpec>, keys: seq<Key>): seq<XpointRow> {
    seq(|keys|, i requires 0 <= i < |keys| => RowOf(routes, keys[i]))
  }

  predicate RowLess(a: XpointRow, b: XpointRow) {
    var c := CmpId(a.dest, b.dest);
    if c != 0 then c < 0
    else
      var d := CmpId(a.srce, b.srce);
      if d != 0 then d < 0 else CmpId(a.srceLevel, b.srceLevel) < 0
  }

  function Collapsed(routes: seq<RouteSpec>): seq<XpointRow> {
    Sort(RowLess, RowsOf(routes, Keys(routes)))
  }

  lemma KeysStep(routes: seq<RouteSpec>, r: RouteSpec)
    ensures Keys(routes + [r]) == if WellFormed(r) then AddNew(Keys(routes), KeyOf(r)) else Keys(routes)
  {
    assert (routes + [r])[..|routes|] == routes;
  }

  lemma LevelsStep(routes: seq<RouteSpec>, r: RouteSpec, k: Key)
    ensures LevelsOf(routes + [r], k)
         == if WellFormed(r) && KeyOf(r) == k then AddNew(LevelsOf(routes, k), r.level) else LevelsOf(routes, k)
  {
    assert (routes + [r])[..|routes|] == routes;
  }

  /** The accumulators after some routes: the keys in order, the levels of each. */
  ghost predicate Grouped(routes: seq<RouteSpec>, order: seq<Key>, groups: map<Key, seq<string>>) {
    && order == Keys(routes)
    && groups.Keys == (set k | k in order)
    && forall k :: LevelsOf(routes, k) == if k in groups then groups[k] else []
  }

  lemma GroupedStep(routes: seq<RouteSpec>, r: RouteSpec, order: seq<Key>, groups: map<Key, seq<string>>)
    requires Grouped(routes, order, groups)
    ensures !WellFormed(r) ==> Grouped(routes + [r], order, groups)
    ensures WellFormed(r) ==>
      var before := if KeyOf(r) in groups then groups[KeyOf(r)] else [];
      Grouped(routes + [r], AddNew(order, KeyOf(r)), groups[KeyOf(r) := AddNew(before, r.level)])
  {
    KeysStep(routes, r);
    forall k {
      LevelsStep(routes, r, k);
    }
  }

  method AddRoute(order0: seq<Key>, groups0: map<Key, seq<string>>, r: RouteSpec)
    returns (order: seq<Key>, groups: map<Key, seq<string>>)
    requires groups0.Keys == set k | k in order0
    ensures order == AddNew(order0, KeyOf(r))
    ensures groups
      == groups0[KeyOf(r) := AddNew(if KeyOf(r) in groups0 then groups0[KeyOf(r)] else [], r.level)]
  {
    order, groups := order0, groups0;
    var k := KeyOf(r);
    if k !in groups {
      groups := groups[k := []];
      order := order + [k];
    }
    if r.level !in groups[k] {
      groups := groups[k := groups[k] + [r.level]];
    }
  }

  method GroupRoutes(routes: seq<RouteSpec>) returns (order: seq<Key>, groups: map<Key, seq<string>>)
    ensures Grouped(routes, order, groups)
  {
    groups := map[];
    order := [];
    for i := 0 to |routes|
      invariant Grouped(routes[..i], order, groups)
    {
      var r := routes[i];
      ghost var before := routes[..i];
      GroupedStep(before, r, order, groups);
      assert routes[..i + 1] == before + [r];
      if WellFormed(r) {
        order, groups := AddRoute(order, groups, r);
      }
    }
    assert routes[..|routes|] == routes;
  }

  method CollapseRoutes(routes: seq<RouteSpec>) returns (rows: seq<XpointRow>)
    ensures rows == Collapsed(routes)
  {
    var order, groups := GroupRoutes(routes);
    rows := [];
    for i := 0 to |order|
      invariant rows == RowsOf(routes, order[..i])
    {
      var k := order[i];
      rows := rows + [XpointRow(k.dest, k.srce, Sort(IdLess, groups[k]), k.srceLevel)];
    }
    assert order[..|order|] == order;
    rows := Sort(RowLess, rows);
  }

  // ---- expanding ----

  function RowRoutes(row: XpointRow): seq<RouteSpec> {
    seq(|row.levels|, i requires 0 <= i < |row.levels| => RouteSpec(row.dest, row.srce, row.levels[i], row.srceLevel))
  }

  function Expanded(rows: seq<XpointRow>): seq<RouteSpec> {
    if rows == [] then [] else Expanded(rows[..|rows| - 1]) + RowRoutes(rows[|rows| - 1])
  }

  method ExpandRows(rows: seq<XpointRow>) returns (out: seq<RouteSpec>)
    ensures out == Expanded(rows)
  {
    out := [];
    for i := 0 to |rows|
      invariant out == Expanded(rows[..i])
    {
      assert rows[..i + 1][..i] == rows[..i];
      var r := rows[i];
      ghost var before := out;
      for j := 0 to |r.levels|
        invariant out == before + RowRoutes(r)[..j]
      {
        out := out + [RouteSpec(r.dest, r.srce, r.levels[j], r.srceLevel)];
      }
    }
    assert rows[..|rows|] == rows;
  }

  // ---- what a collapse holds ----

  lemma {:induction false} KeysMember(routes: seq<RouteSpec>, k: Key)
    ensures k in Keys(routes) <==> exists r :: r in routes && WellFormed(r) && KeyOf(r) == k
    ensures Distinct(Keys(routes))
  {
    if routes != [] {
      KeysMember(routes[..|routes| - 1], k);
      assert routes == routes[..|routes| - 1] + [routes[|routes| - 1]];
    }
  }

  lemma {:induction false} LevelsMember(routes: seq<RouteSpec>, k: Key, level: string)
    ensures level in LevelsOf(routes, k)
       <==> level != "" && k.dest != "" && k.srce != "" && RouteSpec(k.dest, k.srce, level, k.srceLevel) in routes
    ensures Distinct(LevelsOf(routes, k))
  {
    if routes != [] {
      LevelsMember(routes[..|routes| - 1], k, level);
      assert routes == routes[..|routes| - 1] + [routes[|routes| - 1]];
    }
  }

  function RowKey(row: XpointRow): Key {
    Key(row.dest, row.srce, row.srceLevel)
  }

  /** The rows of a collapse: one per key, each with the levels of its key. */
  lemma CollapsedRow(routes: seq<RouteSpec>, row: XpointRow)
    ensures row in Collapsed(routes) <==> RowKey(row) in Keys(routes) && row == RowOf(routes, RowKey(row))
  {
    var keys := Keys(routes);
    var raw := RowsOf(routes, keys);
    SortPermutes(RowLess, raw);
    if row in raw {
      var i :| 0 <= i < |raw| && raw[i] == row;
      assert RowKey(row) == keys[i];
    }
    if RowKey(row) in keys && row == RowOf(routes, RowKey(row)) {
      var i :| 0 <= i < |keys| && keys[i] == RowKey(row);
      assert raw[i] == row;
    }
  }

  ghost predicate DistinctKeys(rows: seq<XpointRow>) {
    forall i, j :: 0 <= i < j < |rows| ==> RowKey(rows[i]) != RowKey(rows[j])
  }

  lemma CollapsedKeys(routes: seq<RouteSpec>)
    ensures DistinctKeys(Collapsed(routes))
  {
    var keys, raw, rows := Keys(routes), RowsOf(routes, Keys(routes)), Collapsed(routes);
    KeysMember(routes, Key("", "", ""));
    forall i, j | 0 <= i < j < |raw|
      ensures raw[i] != raw[j]
    {
      assert RowKey(raw[i]) == keys[i] && RowKey(raw[j]) == keys[j];
    }
    DistinctSort(RowLess, raw);
    forall i, j | 0 <= i < j < |rows|
      ensures RowKey(rows[i]) != RowKey(rows[j])
    {
      CollapsedRow(routes, rows[i]);
      CollapsedRow(routes, rows[j]);
    }
  }

  lemma {:induction false} ExpandedMember(rows: seq<XpointRow>, r: RouteSpec)
    ensures r in Expanded(rows) <==> exists row :: row in rows && RowKey(row) == KeyOf(r) && r.level in row.levels
  {
    if rows != [] {
      var front, last := rows[..|rows| - 1], rows[|rows| - 1];
      ExpandedMember(front, r);
      assert rows == front + [last];
      RowRoutesMember(last, r);
    }
  }

  lemma RowRoutesMember(row: XpointRow, r: RouteSpec)
    ensures r in RowRoutes(row) <==> RowKey(row) == KeyOf(r) && r.level in row.levels
  {
    if RowKey(row) == KeyOf(r) && r.level in row.levels {
      var i :| 0 <= i < |row.levels| && row.levels[i] == r.level;
      assert RowRoutes(row)[i] == r;
    }
  }

  lemma RowRoutesDistinct(row: XpointRow)
    requires Distinct(row.levels)
    ensures Distinct(RowRoutes(row))
  {
    var rr := RowRoutes(row);
    forall i, j | 0 <= i < j < |rr|
      ensures rr[i] != rr[j]
    {
      assert rr[i].level == row.levels[i] && rr[j].level == row.levels[j];
    }
  }

  lemma {:induction false} ExpandedDistinct(rows: seq<XpointRow>)
    requires DistinctKeys(rows) && forall row :: row in rows ==> Distinct(row.levels)
    ensures Distinct(Expanded(rows))
  {
    if rows != [] {
      var front, last := rows[..|rows| - 1], rows[|rows| - 1];
      assert rows == front + [last];
      ExpandedDistinct(front);
      forall r | r in Expanded(front)
        ensures r !in RowRoutes(last)
      {
        ExpandedMember(front, r);
        RowRoutesMember(last, r);
      }
      assert last in rows;
      RowRoutesDistinct(last);
      DistinctConcat(Expanded(front), RowRoutes(last));
    }
  }

  /** Expanding a collapse gives back every well-formed route, once each. */
  lemma ExpandCollapse(routes: seq<RouteSpec>)
    ensures forall r :: r in Expanded(Collapsed(routes)) <==> r in routes && WellFormed(r)
    ensures Distinct(Expanded(Collapsed(routes)))
  {
    var rows := Collapsed(routes);
    forall r
      ensures r in Expanded(rows) <==> r in routes && WellFormed(r)
    {
      ExpandedMember(rows, r);
      KeysMember(routes, KeyOf(r));
      CollapsedRow(routes, RowOf(routes, KeyOf(r)));
      SortPermutes(IdLess, LevelsOf(routes, KeyOf(r)));
      LevelsMember(routes, KeyOf(r), r.level);
      if r in Expanded(rows) {
        var row :| row in rows && RowKey(row) == KeyOf(r) && r.level in row.levels;
        CollapsedRow(routes, row);
      }
    }
    CollapsedKeys(routes);
    forall row | row in rows
      ensures Distinct(row.levels)
    {
      CollapsedRow(routes, row);
      LevelsMember(routes, RowKey(row), "");
      DistinctSort(IdLess, LevelsOf(routes, RowKey(row)));
    }
    ExpandedDistinct(rows);
  }

  // ---- a collapse is a canonical form ----

  ghost predicate CanonicalRow(row: XpointRow) {
    row.dest != "" && row.srce != "" && row.levels != [] && "" !in row.levels && Distinct(row.levels)
  }

  lemma RowPrefix(routes: seq<RouteSpec>, row: XpointRow, n: nat)
    requires CanonicalRow(row) && 0 < n <= |row.levels|
    ensures var r := RowRoutes(row)[n - 1];
      && routes + RowRoutes(row)[..n] == (routes + RowRoutes(row)[..n - 1]) + [r]
      && WellFormed(r) && KeyOf(r) == RowKey(row) && r.level == row.levels[n - 1]
  {
    assert row.levels[n - 1] in row.levels;
  }

  lemma {:induction false} KeysOfRow(routes: seq<RouteSpec>, row: XpointRow, n: nat)
    requires CanonicalRow(row) && RowKey(row) !in Keys(routes) && n <= |row.levels|
    ensures Keys(routes + RowRoutes(row)[..n]) == if n == 0 then Keys(routes) else Keys(routes) + [RowKey(row)]
  {
    if n == 0 {
      assert routes + RowRoutes(row)[..0] == routes;
    } else {
      var s, r := routes + RowRoutes(row)[..n - 1], RowRoutes(row)[n - 1];
      KeysOfRow(routes, row, n - 1);
      RowPrefix(routes, row, n);
      KeysStep(s, r);
      assert Keys(s + [r]) == AddNew(Keys(s), RowKey(row));
    }
  }

  lemma {:induction false} LevelsOfRow(routes: seq<RouteSpec>, row: XpointRow, n: nat, k: Key)
    requires CanonicalRow(row) && n <= |row.levels|
    requires k == RowKey(row) ==> LevelsOf(routes, k) == []
    ensures LevelsOf(routes + RowRoutes(row)[..n], k)
         == if k == RowKey(row) then row.levels[..n] else LevelsOf(routes, k)
  {
    if n == 0 {
      assert routes + RowRoutes(row)[..0] == routes;
    } else {
      LevelsOfRow(routes, row, n - 1, k);
      RowPrefix(routes, row, n);
      LevelsStep(routes + RowRoutes(row)[..n - 1], RowRoutes(row)[n - 1], k);
      FreshAt(row.levels, n - 1);
    }
  }

  function RowKeys(rows: seq<XpointRow>): seq<Key> {
    if rows == [] then [] else RowKeys(rows[..|rows| - 1]) + [RowKey(rows[|rows| - 1])]
  }

  lemma {:induction false} RowKeysAt(rows: seq<XpointRow>)
    ensures |RowKeys(rows)| == |rows|
    ensures forall i :: 0 <= i < |rows| ==> RowKeys(rows)[i] == RowKey(rows[i])
  {
    if rows != [] {
      RowKeysAt(rows[..|rows| - 1]);
    }
  }

  lemma NewKey(front: seq<XpointRow>, last: XpointRow)
    requires DistinctKeys(front + [last])
    ensures RowKey(last) !in RowKeys(front)
  {
    var rows := front + [last];
    RowKeysAt(front);
    forall i | 0 <= i < |front|
      ensures RowKeys(front)[i] != RowKey(last)
    {
      assert RowKey(rows[i]) != RowKey(rows[|front|]);
    }
  }

  lemma {:induction false} ExpandedKeys(rows: seq<XpointRow>)
    requires DistinctKeys(rows) && forall row :: row in rows ==> CanonicalRow(row)
    ensures Keys(Expanded(rows)) == RowKeys(rows)
  {
    if rows != [] {
      var front, last := rows[..|rows| - 1], rows[|rows| - 1];
      assert rows == front + [last];
      assert last in rows && forall row :: row in front ==> row in rows;
      ExpandedKeys(front);
      NewKey(front, last);
      assert RowRoutes(last)[..|last.levels|] == RowRoutes(last);
      KeysOfRow(Expanded(front), last, |last.levels|);
    }
  }

  lemma LevelsOfLast(front: seq<XpointRow>, last: XpointRow, k: Key)
    requires DistinctKeys(front + [last]) && CanonicalRow(last) && forall r :: r in front ==> CanonicalRow(r)
    ensures LevelsOf(Expanded(front + [last]), k)
         == if k == RowKey(last) then last.levels else LevelsOf(Expanded(front), k)
  {
    assert (front + [last])[..|front|] == front;
    assert RowRoutes(last)[..|last.levels|] == RowRoutes(last);
    assert last.levels[..|last.levels|] == last.levels;
    if k == RowKey(last) {
      KeysStayDistinct(front, last);
      ExpandedKeys(front);
      NewKey(front, last);
      LevelsAbsent(Expanded(front), k);
    }
    LevelsOfRow(Expanded(front), last, |last.levels|, k);
  }

  lemma KeysStayDistinct(front: seq<XpointRow>, last: XpointRow)
    requires DistinctKeys(front + [last])
    ensures DistinctKeys(front)
  {
    var rows := front + [last];
    forall i, j | 0 <= i < j < |front|
      ensures RowKey(front[i]) != RowKey(front[j])
    {
      assert RowKey(rows[i]) != RowKey(rows[j]);
    }
  }

  lemma {:induction false} ExpandedLevels(rows: seq<XpointRow>, i: nat)
    requires DistinctKeys(rows) && i < |rows| && forall r :: r in rows ==> CanonicalRow(r)
    ensures LevelsOf(Expanded(rows), RowKey(rows[i])) == rows[i].levels
  {
    var front, last := rows[..|rows| - 1], rows[|rows| - 1];
    assert rows == front + [last];
    assert last in rows && forall r :: r in front ==> r in rows;
    LevelsOfLast(front, last, RowKey(rows[i]));
    if i < |front| {
      assert RowKey(rows[i]) != RowKey(rows[|rows| - 1]);
      KeysStayDistinct(front, last);
      ExpandedLevels(front, i);
    }
  }

  lemma LevelsAbsent(routes: seq<RouteSpec>, k: Key)
    requires k !in Keys(routes)
    ensures LevelsOf(routes, k) == []
  {
    if LevelsOf(routes, k) != [] {
      LevelsMember(routes, k, LevelsOf(routes, k)[0]);
      KeysMember(routes, k);
    }
  }

  lemma RowLessAsymmetric()
    ensures Asymmetric(RowLess)
  {
    forall a, b | RowLess(a, b)
      ensures !RowLess(b, a)
    {
      CmpIdSign(a.dest, b.dest);
      CmpIdSign(a.srce, b.srce);
      CmpIdSign(a.srceLevel, b.srceLevel);
    }
  }

  lemma CollapsedCanonical(routes: seq<RouteSpec>, row: XpointRow)
    requires row in Collapsed(routes)
    ensures CanonicalRow(row)
  {
    var k := RowKey(row);
    CollapsedRow(routes, row);
    KeysMember(routes, k);
    var r :| r in routes && WellFormed(r) && KeyOf(r) == k;
    LevelsMember(routes, k, r.level);
    LevelsMember(routes, k, "");
    SortPermutes(IdLess, LevelsOf(routes, k));
    assert r.level in row.levels;
    DistinctSort(IdLess, LevelsOf(routes, k));
  }

  /** What canonical rows expand to is grouped under their keys, in their order. */
  lemma ExpandedGroups(rows: seq<XpointRow>)
    requires DistinctKeys(rows) && forall row :: row in rows ==> CanonicalRow(row)
    ensures |Keys(Expanded(rows))| == |rows|
    ensures forall i :: 0 <= i < |rows| ==>
      Keys(Expanded(rows))[i] == RowKey(rows[i]) && LevelsOf(Expanded(rows), RowKey(rows[i])) == rows[i].levels
  {
    ExpandedKeys(rows);
    RowKeysAt(rows);
    forall i | 0 <= i < |rows|
      ensures LevelsOf(Expanded(rows), RowKey(rows[i])) == rows[i].levels
    {
      ExpandedLevels(rows, i);
    }
  }

  // ---- the same in plain terms ----

  /** A row of a collapse: its levels are those of the routes of its destination, source and
      source level, once each; no other row is about the three. */
  lemma RowPlain(routes: seq<RouteSpec>, i: nat)
    requires i < |Collapsed(routes)|
    ensures var rows, row := Collapsed(routes), Collapsed(routes)[i];
      && row.dest != "" && row.srce != "" && row.levels != [] && Distinct(row.levels)
      && (forall l :: l in row.levels <==> l != "" && RouteSpec(row.dest, row.srce, l, row.srceLevel) in routes)
      && forall j :: 0 <= j < |rows| && j != i ==>
           rows[j].dest != row.dest || rows[j].srce != row.srce || rows[j].srceLevel != row.srceLevel
  {
    var rows, row := Collapsed(routes), Collapsed(routes)[i];
    var k := RowKey(row);
    CollapsedRow(routes, row);
    KeysMember(routes, k);
    LevelsMember(routes, k, "");
    DistinctSort(IdLess, LevelsOf(routes, k));
    forall l
      ensures l in row.levels <==> l != "" && RouteSpec(row.dest, row.srce, l, row.srceLevel) in routes
    {
      LevelsMember(routes, k, l);
      SortMember(IdLess, LevelsOf(routes, k), l);
    }
    var r :| r in routes && WellFormed(r) && KeyOf(r) == k;
    assert r.level in row.levels;
    CollapsedKeys(routes);
    assert forall j :: 0 <= j < |rows| && j != i ==> RowKey(rows[j]) != k;
  }

  /** Every route that names a destination, a source and a level is in a row. */
  lemma RoutePlain(routes: seq<RouteSpec>, r: RouteSpec)
    requires r in routes && r.dest != "" && r.srce != "" && r.level != ""
    ensures exists row ::
      && row in Collapsed(routes) && row.dest == r.dest && row.srce == r.srce && row.srceLevel == r.srceLevel
      && r.level in row.levels
  {
    var row := RowOf(routes, KeyOf(r));
    KeysMember(routes, KeyOf(r));
    CollapsedRow(routes, row);
    LevelsMember(routes, KeyOf(r), r.level);
    SortMember(IdLess, LevelsOf(routes, KeyOf(r)), r.level);
  }

  /** Row after row, and of a row level after level. */
  lemma {:induction false} ExpandedPlain(row: XpointRow, rest: seq<XpointRow>)
    ensures Expanded([]) == []
    ensures Expanded([row] + rest) == RowRoutes(row) + Expanded(rest)
    ensures |RowRoutes(row)| == |row.levels|
    ensures forall i :: 0 <= i < |row.levels| ==>
      RowRoutes(row)[i] == RouteSpec(row.dest, row.srce, row.levels[i], row.srceLevel)
  {
    if rest == [] {
      assert [row] + rest == [] + [row];
      ExpandedLast([], row);
    } else {
      var front, last := rest[..|rest| - 1], rest[|rest| - 1];
      ExpandedPlain(row, front);
      assert [row] + rest == ([row] + front) + [last] && rest == front + [last];
      ExpandedLast([row] + front, last);
      ExpandedLast(front, last);
    }
  }

  lemma ExpandedLast(rows: seq<XpointRow>, row: XpointRow)
    ensures Expanded(rows + [row]) == Expanded(rows) + RowRoutes(row)
  {
    assert (rows + [row])[..|rows|] == rows;
  }

  function Complete(): RouteSpec -> bool {
    (r: RouteSpec) => r.dest != "" && r.srce != "" && r.level != ""
  }

  function Keying(): RouteSpec -> Key {
    (r: RouteSpec) => Key(r.dest, r.srce, r.srceLevel)
  }

  /** The rows are made, before they are sorted, in the order in which the routes first have
      their destination, source and source level. */
  lemma {:induction false} KeysPlain(routes: seq<RouteSpec>)
    ensures Keys(routes) == Firsts(Mapped(Keying(), Filter(Complete(), routes)))
  {
    if routes != [] {
      var front, last := routes[..|routes| - 1], routes[|routes| - 1];
      KeysPlain(front);
      assert routes == front + [last];
      FilterLast(Complete(), front, last);
      MappedLast(Keying(), Filter(Complete(), front), last);
      FirstsLast(Mapped(Keying(), Filter(Complete(), front)), KeyOf(last));
    }
  }
}
