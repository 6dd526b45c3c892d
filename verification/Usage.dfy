/** Usage rows: where each source is assigned, levels collapsed, chains resolved. */
module Usage {
  import opened Wrappers
  import opened Text
  import opened Sorting
  import opened Sequences
  import opened Ids
  import opened Routes
  import opened Virtuals
  import Xpoint

  datatype UsageRow = UsageRow(srce: string, dest: string, levels: seq<string>, res: Resolution)

  /** What two assignments share when they share a row; the hops are compared by their
      ';'-joined text. */
  datatype UsageKey = UsageKey(srce: string, dest: string, effective: string, hops: string, mark: Mark)

  function KeyFor(r: RouteSpec, res: Resolution): UsageKey {
    UsageKey(r.srce, r.dest, res.effective, Join(res.via, ';'), res.mark)
  }

  function KeyOfRow(row: UsageRow): UsageKey {
    UsageKey(row.srce, row.dest, row.res.effective, Join(row.res.via, ';'), row.res.mark)
  }

  /** The resolution a usage run attaches to a route; without `resolve` there is none. */
  ghost function Attached(feed: Feed, virtuals: set<string>, resolve: bool, srce: string, level: string): Resolution {
    if resolve then ResolutionOf(feed, virtuals, srce, level) else Resolution("", [], Plain)
  }

  /** The resolution attached to a source on a level. */
  type Rule = (string, string) -> Resolution

  ghost function Attaching(feed: Feed, virtuals: set<string>, resolve: bool): Rule {
    (srce, level) => Attached(feed, virtuals, resolve, srce, level)
  }

  predicate Lists(row: UsageRow, r: RouteSpec) {
    row.srce == r.srce && row.dest == r.dest && r.level in row.levels
  }

  // ---- when the joined text of the hops tells chains apart ----

  /** A chain the virtual resources can form. */
  ghost predicate ChainIn(virtuals: set<string>, via: seq<string>) {
    via != [] && NoRepeat(via) && forall v :: v in via ==> v in virtuals
  }

  ghost predicate SameText(a: seq<string>, b: seq<string>) {
    a != [] && b != [] && a[0] == b[0] && Join(a, ';') == Join(b, ';')
  }

  /** No two chains of the virtual resources from one source read alike once joined. */
  ghost predicate ChainsApart(virtuals: set<string>) {
    forall a, b :: ToldApart(virtuals, a, b)
  }

  ghost predicate ToldApart(virtuals: set<string>, a: seq<string>, b: seq<string>) {
    ChainIn(virtuals, a) && ChainIn(virtuals, b) && SameText(a, b) ==> a == b
  }

  ghost predicate SameKeyPart(a: Resolution, b: Resolution) {
    a.effective == b.effective && Join(a.via, ';') == Join(b.via, ';') && a.mark == b.mark
  }

  /** IDs without the separator keep chains apart. */
  lemma SeparatorFreeApart(virtuals: set<string>)
    requires forall v :: v in virtuals ==> ';' !in v
    ensures ChainsApart(virtuals)
  {
    forall a, b
      ensures ToldApart(virtuals, a, b)
    {
      if ChainIn(virtuals, a) && ChainIn(virtuals, b) && SameText(a, b) {
        SplitJoin(a, ';', {';'});
        SplitJoin(b, ';', {';'});
      }
    }
  }

  /** Feeds that lead along a chain and end there. */
  lemma LeadsAlong(virtuals: set<string>, a: seq<string>, level: string, feed: Feed)
    requires ChainIn(virtuals, a) && Linked(feed, level, a) && Cell(a[|a| - 1], level) !in feed
    ensures ResolutionOf(feed, virtuals, a[0], level) == Resolution("", a, Unfed)
  {
    ResolutionUnique(feed, virtuals, a[0], level, Resolution("", a, Unfed), ResolutionOf(feed, virtuals, a[0], level));
  }

  ghost predicate KeyTells(feed: Feed, virtuals: set<string>, srce: string, level: string, other: string) {
    var a, b := ResolutionOf(feed, virtuals, srce, level), ResolutionOf(feed, virtuals, srce, other);
    SameKeyPart(a, b) ==> a == b
  }

  lemma ApartTells(feed: Feed, virtuals: set<string>, srce: string, level: string, other: string)
    requires ChainsApart(virtuals)
    ensures KeyTells(feed, virtuals, srce, level, other)
  {
    var a, b := ResolutionOf(feed, virtuals, srce, level), ResolutionOf(feed, virtuals, srce, other);
    FirstHop(feed, virtuals, srce, level);
    FirstHop(feed, virtuals, srce, other);
    if SameKeyPart(a, b) && srce in virtuals {
      assert ToldApart(virtuals, a.via, b.via);
    }
  }

  // ---- the accumulators ----

  /** The keys of the well-formed routes, in order of first appearance. */
  ghost function KeysOf(routes: seq<RouteSpec>, at: Rule): seq<UsageKey> {
    if routes == [] then []
    else
      var r, before := routes[|routes| - 1], KeysOf(routes[..|routes| - 1], at);
      if Xpoint.WellFormed(r) then AddNew(before, KeyFor(r, at(r.srce, r.level))) else before
  }

  lemma KeysStep(routes: seq<RouteSpec>, r: RouteSpec, at: Rule)
    ensures KeysOf(routes + [r], at)
         == if Xpoint.WellFormed(r) then AddNew(KeysOf(routes, at), KeyFor(r, at(r.srce, r.level)))
           else KeysOf(routes, at)
  {
    assert (routes + [r])[..|routes|] == routes;
  }

  /** One accumulator per key, listing only levels whose routes have that key and carrying
      the resolution of one of them; every well-formed route is listed under its key. */
  ghost predicate Accumulated(routes: seq<RouteSpec>, at: Rule, order: seq<UsageKey>, groups: map<UsageKey, UsageRow>) {
    && order == KeysOf(routes, at) && Distinct(order) && (forall k :: k in groups <==> k in order)
    && AllSound(routes, at, groups) && AllCovered(routes, at, groups)
  }

  ghost predicate AllSound(routes: seq<RouteSpec>, at: Rule, groups: map<UsageKey, UsageRow>) {
    forall k :: k in groups ==> Sound(routes, at, k, groups[k])
  }

  ghost predicate AllCovered(routes: seq<RouteSpec>, at: Rule, groups: map<UsageKey, UsageRow>) {
    forall r :: r in routes && Xpoint.WellFormed(r) ==> Covered(at, groups, r)
  }

  /** The route is listed under its own key. */
  ghost predicate Covered(at: Rule, groups: map<UsageKey, UsageRow>, r: RouteSpec) {
    var k := KeyFor(r, at(r.srce, r.level));
    k in groups && Lists(groups[k], r)
  }

  ghost predicate Sound(routes: seq<RouteSpec>, at: Rule, k: UsageKey, row: UsageRow) {
    && KeyOfRow(row) == k && row.levels != [] && Distinct(row.levels)
    && Carried(routes, at, row)
    && forall l :: l in row.levels ==> Genuine(routes, at, row, l)
  }

  /** The row shows the resolution of a route it lists. */
  ghost predicate Carried(routes: seq<RouteSpec>, at: Rule, row: UsageRow) {
    exists r :: r in routes && Xpoint.WellFormed(r) && Lists(row, r) && row.res == at(r.srce, r.level)
  }

  /** The level stands for a well-formed route of the row's key. */
  ghost predicate Genuine(routes: seq<RouteSpec>, at: Rule, row: UsageRow, level: string) {
    exists r :: r in routes && Xpoint.WellFormed(r) && Lists(row, r) && r.level == level
      && KeyFor(r, at(r.srce, r.level)) == KeyOfRow(row)
  }

  lemma SoundWithMore(routes: seq<RouteSpec>, r: RouteSpec, at: Rule, k: UsageKey, row: UsageRow)
    requires Sound(routes, at, k, row)
    ensures Sound(routes + [r], at, k, row)
  {
    forall l | l in row.levels
      ensures Genuine(routes + [r], at, row, l)
    {
      assert Genuine(routes, at, row, l);
      var q :| q in routes && Xpoint.WellFormed(q) && Lists(row, q) && q.level == l
        && KeyFor(q, at(q.srce, q.level)) == KeyOfRow(row);
      assert q in routes + [r];
    }
    var q :| q in routes && Xpoint.WellFormed(q) && Lists(row, q) && row.res == at(q.srce, q.level);
    assert q in routes + [r];
  }

  /** What one more route does to the accumulators. */
  ghost function NextGroups(groups: map<UsageKey, UsageRow>, r: RouteSpec, res: Resolution): map<UsageKey, UsageRow> {
    var k := KeyFor(r, res);
    var row := if k in groups then groups[k] else UsageRow(r.srce, r.dest, [], res);
    groups[k := row.(levels := AddNew(row.levels, r.level))]
  }

  lemma CoveredStill(at: Rule, groups: map<UsageKey, UsageRow>, r: RouteSpec, q: RouteSpec)
    requires q == r || Covered(at, groups, q)
    requires var k := KeyFor(r, at(r.srce, r.level)); k in groups ==> KeyOfRow(groups[k]) == k
    ensures Covered(at, NextGroups(groups, r, at(r.srce, r.level)), q)
  {
  }

  lemma SoundAdd(routes: seq<RouteSpec>, r: RouteSpec, at: Rule, row: UsageRow)
    requires Xpoint.WellFormed(r)
    requires var k := KeyFor(r, at(r.srce, r.level)); Sound(routes, at, k, row)
    ensures Sound(routes + [r], at, KeyOfRow(row), row.(levels := AddNew(row.levels, r.level)))
  {
    var next := row.(levels := AddNew(row.levels, r.level));
    var k := KeyOfRow(row);
    SoundWithMore(routes, r, at, k, row);
    forall l | l in next.levels
      ensures Genuine(routes + [r], at, next, l)
    {
      if l == r.level {
        assert r in routes + [r] && Lists(next, r);
      } else {
        assert Genuine(routes + [r], at, row, l);
        var q :| q in routes + [r] && Xpoint.WellFormed(q) && Lists(row, q) && q.level == l
          && KeyFor(q, at(q.srce, q.level)) == k;
        assert Lists(next, q);
      }
    }
    var q :| q in routes + [r] && Xpoint.WellFormed(q) && Lists(row, q) && row.res == at(q.srce, q.level);
    assert Lists(next, q);
  }

  lemma SoundFirst(routes: seq<RouteSpec>, r: RouteSpec, at: Rule)
    requires Xpoint.WellFormed(r)
    ensures var res := at(r.srce, r.level);
      Sound(routes + [r], at, KeyFor(r, res), UsageRow(r.srce, r.dest, [r.level], res))
  {
    var row := UsageRow(r.srce, r.dest, [r.level], at(r.srce, r.level));
    assert r in routes + [r] && Lists(row, r);
  }

  lemma AccumulateSkip(routes: seq<RouteSpec>, r: RouteSpec, at: Rule, order: seq<UsageKey>,
                       groups: map<UsageKey, UsageRow>)
    requires Accumulated(routes, at, order, groups) && !Xpoint.WellFormed(r)
    ensures Accumulated(routes + [r], at, order, groups)
  {
    KeysStep(routes, r, at);
    forall k | k in groups
      ensures Sound(routes + [r], at, k, groups[k])
    {
      SoundWithMore(routes, r, at, k, groups[k]);
    }
  }

  lemma SoundNext(routes: seq<RouteSpec>, r: RouteSpec, at: Rule, groups: map<UsageKey, UsageRow>)
    requires Xpoint.WellFormed(r) && AllSound(routes, at, groups)
    ensures AllSound(routes + [r], at, NextGroups(groups, r, at(r.srce, r.level)))
  {
    var mine, next := KeyFor(r, at(r.srce, r.level)), NextGroups(groups, r, at(r.srce, r.level));
    forall k | k in next
      ensures Sound(routes + [r], at, k, next[k])
    {
      if k != mine {
        SoundWithMore(routes, r, at, k, groups[k]);
      } else if k in groups {
        SoundAdd(routes, r, at, groups[k]);
      } else {
        SoundFirst(routes, r, at);
      }
    }
  }

  lemma CoveredNext(routes: seq<RouteSpec>, r: RouteSpec, at: Rule, groups: map<UsageKey, UsageRow>)
    requires AllSound(routes, at, groups) && AllCovered(routes, at, groups)
    ensures AllCovered(routes + [r], at, NextGroups(groups, r, at(r.srce, r.level)))
  {
    var k := KeyFor(r, at(r.srce, r.level));
    assert k in groups ==> Sound(routes, at, k, groups[k]);
    forall q | q in routes + [r] && Xpoint.WellFormed(q)
      ensures Covered(at, NextGroups(groups, r, at(r.srce, r.level)), q)
    {
      CoveredStill(at, groups, r, q);
    }
  }

  lemma AccumulateStep(routes: seq<RouteSpec>, r: RouteSpec, at: Rule, order: seq<UsageKey>,
                       groups: map<UsageKey, UsageRow>)
    requires Accumulated(routes, at, order, groups) && Xpoint.WellFormed(r)
    ensures var res := at(r.srce, r.level);
      Accumulated(routes + [r], at, AddNew(order, KeyFor(r, res)), NextGroups(groups, r, res))
  {
    KeysStep(routes, r, at);
    SoundNext(routes, r, at, groups);
    CoveredNext(routes, r, at, groups);
  }

  // ---- the rows ----

  /** There is one row per key, in order of first appearance; every well-formed route is
      listed, no two rows list the same route, each level of a row stands for a route of the
      row's key, and the row shows the chain of one of them. */
  ghost predicate Partition(routes: seq<RouteSpec>, at: Rule, rows: seq<UsageRow>) {
    && (forall r :: r in routes && Xpoint.WellFormed(r) ==> Listed(rows, r))
    && ListedOnce(rows) && KeyedBy(rows, KeysOf(routes, at))
    && (forall i :: 0 <= i < |rows| ==> RowBacked(routes, at, rows[i]))
  }

  ghost predicate KeyedBy(rows: seq<UsageRow>, keys: seq<UsageKey>) {
    |rows| == |keys| && forall i :: 0 <= i < |rows| ==> KeyOfRow(rows[i]) == keys[i]
  }

  ghost predicate ListedOnce(rows: seq<UsageRow>) {
    forall i, j, r :: 0 <= i < j < |rows| && Lists(rows[i], r) ==> !Lists(rows[j], r)
  }

  ghost predicate Listed(rows: seq<UsageRow>, r: RouteSpec) {
    exists i :: 0 <= i < |rows| && Lists(rows[i], r)
  }

  /** In order wherever the comparison of the levels is an order. */
  ghost predicate InIdOrder(levels: seq<string>) {
    WeakOrderOn(IdLess, levels) ==> Sorted(IdLess, levels)
  }

  ghost predicate RowBacked(routes: seq<RouteSpec>, at: Rule, row: UsageRow) {
    && Sound(routes, at, KeyOfRow(row), row) && InIdOrder(row.levels)
  }

  /** Each row shows the resolution of every route it lists. */
  ghost predicate Truthful(at: Rule, rows: seq<UsageRow>) {
    forall i, r :: 0 <= i < |rows| && Lists(rows[i], r) ==> rows[i].res == at(r.srce, r.level)
  }

  lemma RowTruthful(routes: seq<RouteSpec>, feed: Feed, virtuals: set<string>, resolve: bool, row: UsageRow,
                    r: RouteSpec)
    requires ChainsApart(virtuals) && Lists(row, r)
    requires Carried(routes, Attaching(feed, virtuals, resolve), row)
    requires Genuine(routes, Attaching(feed, virtuals, resolve), row, r.level)
    ensures row.res == Attached(feed, virtuals, resolve, r.srce, r.level)
  {
    var at := Attaching(feed, virtuals, resolve);
    var q :| q in routes && Lists(row, q) && row.res == at(q.srce, q.level);
    ApartTells(feed, virtuals, r.srce, r.level, q.level);
  }

  /** With virtual IDs that keep joined chains apart, no route is listed under another's chain. */
  lemma PartitionTruthful(routes: seq<RouteSpec>, feed: Feed, virtuals: set<string>, resolve: bool, rows: seq<UsageRow>)
    requires Partition(routes, Attaching(feed, virtuals, resolve), rows) && ChainsApart(virtuals)
    ensures Truthful(Attaching(feed, virtuals, resolve), rows)
  {
    forall i, r | 0 <= i < |rows| && Lists(rows[i], r)
      ensures rows[i].res == Attached(feed, virtuals, resolve, r.srce, r.level)
    {
      assert RowBacked(routes, Attaching(feed, virtuals, resolve), rows[i]);
      RowTruthful(routes, feed, virtuals, resolve, rows[i], r);
    }
  }

  method BuildFeed(routes: seq<RouteSpec>) returns (feed: Feed)
    ensures feed == FeedOf(routes)
  {
    feed := map[];
    for i := 0 to |routes|
      invariant feed == FeedOf(routes[..i])
    {
      assert routes[..i + 1][..i] == routes[..i];
      feed := feed[CellOf(routes[i]) := routes[i].srce];
    }
    assert routes[..|routes|] == routes;
  }

  method Attach(feed: Feed, virtuals: set<string>, resolve: bool, r: RouteSpec) returns (res: Resolution)
    ensures res == Attached(feed, virtuals, resolve, r.srce, r.level)
  {
    res := Resolution("", [], Plain);
    if resolve {
      var effective, via, mark := ResolveSource(r.srce, r.level, feed, virtuals);
      res := Resolution(effective, via, mark);
      ResolutionUnique(feed, virtuals, r.srce, r.level, res, ResolutionOf(feed, virtuals, r.srce, r.level));
    }
  }

  method AddRoute(order0: seq<UsageKey>, groups0: map<UsageKey, UsageRow>, r: RouteSpec, res: Resolution)
    returns (order: seq<UsageKey>, groups: map<UsageKey, UsageRow>)
    requires forall k :: k in groups0 <==> k in order0
    ensures order == AddNew(order0, KeyFor(r, res)) && groups == NextGroups(groups0, r, res)
  {
    order, groups := order0, groups0;
    var k := KeyFor(r, res);
    if k !in groups {
      groups := groups[k := UsageRow(r.srce, r.dest, [], res)];
      order := order + [k];
    }
    var row := groups[k];
    if r.level !in row.levels {
      groups := groups[k := row.(levels := row.levels + [r.level])];
    }
  }

  method Accumulate(routes: seq<RouteSpec>, feed: Feed, virtuals: set<string>, resolve: bool)
    returns (order: seq<UsageKey>, groups: map<UsageKey, UsageRow>)
    ensures Accumulated(routes, Attaching(feed, virtuals, resolve), order, groups)
  {
    ghost var at := Attaching(feed, virtuals, resolve);
    groups := map[];
    order := [];
    for i := 0 to |routes|
      invariant Accumulated(routes[..i], at, order, groups)
    {
      var r := routes[i];
      assert routes[..i + 1] == routes[..i] + [r];
      if !Xpoint.WellFormed(r) {
        AccumulateSkip(routes[..i], r, at, order, groups);
      } else {
        AccumulateStep(routes[..i], r, at, order, groups);
        var res := Attach(feed, virtuals, resolve, r);
        order, groups := AddRoute(order, groups, r, res);
      }
    }
    assert routes[..|routes|] == routes;
  }

  method WriteRows(order: seq<UsageKey>, groups: map<UsageKey, UsageRow>) returns (rows: seq<UsageRow>)
    requires forall k :: k in order ==> k in groups
    ensures Written(order, groups, rows)
  {
    rows := [];
    for i := 0 to |order|
      invariant |rows| == i && forall j :: 0 <= j < i ==> rows[j] == SortedRow(groups[order[j]])
    {
      var row := groups[order[i]];
      rows := rows + [row.(levels := Sort(IdLess, row.levels))];
    }
  }

  method BuildUsage(routes: seq<RouteSpec>, virtuals: set<string>, resolve: bool) returns (rows: seq<UsageRow>)
    ensures Partition(routes, Attaching(FeedOf(routes), virtuals, resolve), rows)
    ensures ChainsApart(virtuals) ==> Truthful(Attaching(FeedOf(routes), virtuals, resolve), rows)
  {
    var feed := BuildFeed(routes);
    var order, groups := Accumulate(routes, feed, virtuals, resolve);
    rows := WriteRows(order, groups);
    PartitionOfGroups(routes, Attaching(feed, virtuals, resolve), order, groups, rows);
    if ChainsApart(virtuals) {
      PartitionTruthful(routes, feed, virtuals, resolve, rows);
    }
  }

  function SortedRow(row: UsageRow): UsageRow {
    row.(levels := Sort(IdLess, row.levels))
  }

  lemma SortedRowLists(row: UsageRow, r: RouteSpec)
    ensures Lists(SortedRow(row), r) <==> Lists(row, r)
  {
    SortMember(IdLess, row.levels, r.level);
  }

  lemma SortedRowSound(routes: seq<RouteSpec>, at: Rule, k: UsageKey, row: UsageRow)
    requires Sound(routes, at, k, row)
    ensures Sound(routes, at, k, SortedRow(row)) && InIdOrder(SortedRow(row).levels)
  {
    IdLessAsymmetric();
    SortPermutes(IdLess, row.levels);
    if WeakOrderOn(IdLess, SortedRow(row).levels) {
      WeakOrderSubset(IdLess, SortedRow(row).levels, row.levels);
      SortSorts(IdLess, row.levels);
    }
    DistinctSort(IdLess, row.levels);
    forall l | l in SortedRow(row).levels
      ensures Genuine(routes, at, SortedRow(row), l)
    {
      assert Genuine(routes, at, row, l);
      var q :| q in routes && Xpoint.WellFormed(q) && Lists(row, q) && q.level == l
        && KeyFor(q, at(q.srce, q.level)) == KeyOfRow(row);
      SortedRowLists(row, q);
    }
    var q :| q in routes && Xpoint.WellFormed(q) && Lists(row, q) && row.res == at(q.srce, q.level);
    SortedRowLists(row, q);
  }

  ghost predicate Written(order: seq<UsageKey>, groups: map<UsageKey, UsageRow>, rows: seq<UsageRow>) {
    |rows| == |order| && forall j :: 0 <= j < |order| ==> order[j] in groups && rows[j] == SortedRow(groups[order[j]])
  }

  lemma RowSound(routes: seq<RouteSpec>, at: Rule, order: seq<UsageKey>, groups: map<UsageKey, UsageRow>,
                 rows: seq<UsageRow>, i: nat)
    requires AllSound(routes, at, groups) && Written(order, groups, rows) && i < |rows|
    ensures RowBacked(routes, at, rows[i]) && KeyOfRow(rows[i]) == order[i]
  {
    SortedRowSound(routes, at, order[i], groups[order[i]]);
  }

  lemma NoneTwice(routes: seq<RouteSpec>, at: Rule, order: seq<UsageKey>, groups: map<UsageKey, UsageRow>,
                  rows: seq<UsageRow>)
    requires AllSound(routes, at, groups) && Written(order, groups, rows) && Distinct(order)
    ensures ListedOnce(rows)
  {
    forall i, j, r | 0 <= i < j < |rows| && Lists(rows[i], r)
      ensures !Lists(rows[j], r)
    {
      if Lists(rows[j], r) {
        RowSound(routes, at, order, groups, rows, i);
        RowSound(routes, at, order, groups, rows, j);
        assert false;
      }
    }
  }

  lemma RouteListed(routes: seq<RouteSpec>, at: Rule, order: seq<UsageKey>, groups: map<UsageKey, UsageRow>,
                    rows: seq<UsageRow>, r: RouteSpec)
    requires Accumulated(routes, at, order, groups) && r in routes && Xpoint.WellFormed(r)
      && Written(order, groups, rows)
    ensures Listed(rows, r)
  {
    assert Covered(at, groups, r);
    var k := KeyFor(r, at(r.srce, r.level));
    var i :| 0 <= i < |order| && order[i] == k;
    SortedRowLists(groups[k], r);
  }

  lemma PartitionOfGroups(routes: seq<RouteSpec>, at: Rule, order: seq<UsageKey>, groups: map<UsageKey, UsageRow>,
                          rows: seq<UsageRow>)
    requires Accumulated(routes, at, order, groups) && Written(order, groups, rows)
    ensures Partition(routes, at, rows)
  {
    forall i | 0 <= i < |rows|
      ensures RowBacked(routes, at, rows[i]) && KeyOfRow(rows[i]) == order[i]
    {
      RowSound(routes, at, order, groups, rows, i);
    }
    forall r | r in routes && Xpoint.WellFormed(r)
      ensures Listed(rows, r)
    {
      RouteListed(routes, at, order, groups, rows, r);
    }
    NoneTwice(routes, at, order, groups, rows);
  }

  // ---- the same in plain terms ----

  /** Two routes share a row: source and destination, and of their chains the end, the mark and
      the text of the hops joined by semicolons. */
  ghost predicate Together(r: RouteSpec, q: RouteSpec, a: Resolution, b: Resolution) {
    && r.srce == q.srce && r.dest == q.dest
    && a.effective == b.effective && a.mark == b.mark && Join(a.via, ';') == Join(b.via, ';')
  }

  /** The routes a row lists. */
  ghost predicate InRow(rows: seq<UsageRow>, i: int, r: RouteSpec) {
    0 <= i < |rows| && rows[i].srce == r.srce && rows[i].dest == r.dest && r.level in rows[i].levels
  }

  lemma RowShared(routes: seq<RouteSpec>, at: Rule, rows: seq<UsageRow>, i: int, r: RouteSpec)
    requires Partition(routes, at, rows) && r in routes && Xpoint.WellFormed(r) && InRow(rows, i, r)
    ensures KeyFor(r, at(r.srce, r.level)) == KeyOfRow(rows[i])
  {
    assert RowBacked(routes, at, rows[i]);
    assert Genuine(routes, at, rows[i], r.level);
    var q :| q in routes && Xpoint.WellFormed(q) && Lists(rows[i], q) && q.level == r.level
      && KeyFor(q, at(q.srce, q.level)) == KeyOfRow(rows[i]);
  }

  lemma KeyedOnce(rows: seq<UsageRow>, keys: seq<UsageKey>, i: nat, j: nat)
    requires KeyedBy(rows, keys) && Distinct(keys) && i < |rows| && j < |rows| && KeyOfRow(rows[i]) == KeyOfRow(rows[j])
    ensures i == j
  {
    assert keys[i] == keys[j];
  }

  lemma OneRowPerKey(routes: seq<RouteSpec>, at: Rule, rows: seq<UsageRow>, i: nat, j: nat)
    requires Partition(routes, at, rows) && i < |rows| && j < |rows| && KeyOfRow(rows[i]) == KeyOfRow(rows[j])
    ensures i == j
  {
    KeysOnce(routes, at);
    KeyedOnce(rows, KeysOf(routes, at), i, j);
  }

  lemma RowOfRoute(routes: seq<RouteSpec>, at: Rule, rows: seq<UsageRow>, r: RouteSpec) returns (i: nat)
    requires Partition(routes, at, rows) && r in routes && Xpoint.WellFormed(r)
    ensures InRow(rows, i, r) && KeyOfRow(rows[i]) == KeyFor(r, at(r.srce, r.level))
  {
    assert Listed(rows, r);
    i :| 0 <= i < |rows| && Lists(rows[i], r);
    RowShared(routes, at, rows, i, r);
  }

  lemma TogetherIff(r: RouteSpec, q: RouteSpec, a: Resolution, b: Resolution)
    ensures Together(r, q, a, b) <==> KeyFor(r, a) == KeyFor(q, b)
  {
  }

  lemma ShareIff(routes: seq<RouteSpec>, at: Rule, rows: seq<UsageRow>, r: RouteSpec, q: RouteSpec)
    requires Partition(routes, at, rows) && r in routes && q in routes && Xpoint.WellFormed(r) && Xpoint.WellFormed(q)
    ensures (exists i :: InRow(rows, i, r) && InRow(rows, i, q))
       <==> KeyFor(r, at(r.srce, r.level)) == KeyFor(q, at(q.srce, q.level))
  {
    if k :| InRow(rows, k, r) && InRow(rows, k, q) {
      RowShared(routes, at, rows, k, r);
      RowShared(routes, at, rows, k, q);
    }
    if KeyFor(r, at(r.srce, r.level)) == KeyFor(q, at(q.srce, q.level)) {
      var i := RowOfRoute(routes, at, rows, r);
      var j := RowOfRoute(routes, at, rows, q);
      OneRowPerKey(routes, at, rows, i, j);
      assert InRow(rows, i, r) && InRow(rows, i, q);
    }
  }

  /** Two routes are in one row exactly when they share one. */
  lemma RowsPlain(routes: seq<RouteSpec>, at: Rule, rows: seq<UsageRow>, r: RouteSpec, q: RouteSpec)
    requires Partition(routes, at, rows) && r in routes && q in routes
    requires r.dest != "" && r.srce != "" && r.level != "" && q.dest != "" && q.srce != "" && q.level != ""
    ensures (exists i :: InRow(rows, i, r) && InRow(rows, i, q))
       <==> Together(r, q, at(r.srce, r.level), at(q.srce, q.level))
  {
    ShareIff(routes, at, rows, r, q);
    TogetherIff(r, q, at(r.srce, r.level), at(q.srce, q.level));
  }

  lemma {:induction false} KeysOnce(routes: seq<RouteSpec>, at: Rule)
    ensures Distinct(KeysOf(routes, at))
  {
    if routes != [] {
      KeysOnce(routes[..|routes| - 1], at);
    }
  }

  lemma UnresolvedRow(routes: seq<RouteSpec>, feed: Feed, virtuals: set<string>, rows: seq<UsageRow>, i: nat)
    requires Partition(routes, Attaching(feed, virtuals, false), rows) && i < |rows|
    ensures rows[i].res == Resolution("", [], Plain)
  {
    assert RowBacked(routes, Attaching(feed, virtuals, false), rows[i]);
    assert Carried(routes, Attaching(feed, virtuals, false), rows[i]);
  }

  /** Without resolving, a row is a source and a destination with the levels of its routes, and
      shows no chain. */
  lemma UnresolvedPlain(routes: seq<RouteSpec>, feed: Feed, virtuals: set<string>, rows: seq<UsageRow>, i: nat, j: nat)
    requires Partition(routes, Attaching(feed, virtuals, false), rows) && i < |rows| && j < |rows|
    ensures rows[i].res == Resolution("", [], Plain)
    ensures rows[i].srce == rows[j].srce && rows[i].dest == rows[j].dest ==> i == j
  {
    UnresolvedRow(routes, feed, virtuals, rows, i);
    UnresolvedRow(routes, feed, virtuals, rows, j);
    if rows[i].srce == rows[j].srce && rows[i].dest == rows[j].dest {
      OneRowPerKey(routes, Attaching(feed, virtuals, false), rows, i, j);
    }
  }

  /** A level of a row is that of a route from its source to its destination. */
  lemma LevelPlain(routes: seq<RouteSpec>, at: Rule, rows: seq<UsageRow>, i: nat, l: string)
    requires Partition(routes, at, rows) && i < |rows| && l in rows[i].levels
    ensures l != "" && rows[i].srce != "" && rows[i].dest != ""
    ensures exists r :: r in routes && r.srce == rows[i].srce && r.dest == rows[i].dest && r.level == l
  {
    assert RowBacked(routes, at, rows[i]) && Genuine(routes, at, rows[i], l);
  }

  /** With it, a row shows the chain of one of its routes, as the snapshot has it. */
  lemma ResolvedPlain(routes: seq<RouteSpec>, feed: Feed, virtuals: set<string>, rows: seq<UsageRow>, i: nat)
    requires Partition(routes, Attaching(feed, virtuals, true), rows) && i < |rows|
    ensures exists r :: r in routes && InRow(rows, i, r) && Resolves(feed, virtuals, r.srce, r.level, rows[i].res)
  {
    var at := Attaching(feed, virtuals, true);
    assert RowBacked(routes, at, rows[i]) && Carried(routes, at, rows[i]);
    var r :| r in routes && Xpoint.WellFormed(r) && Lists(rows[i], r) && rows[i].res == at(r.srce, r.level);
    assert InRow(rows, i, r);
  }

  function Complete(): RouteSpec -> bool {
    (r: RouteSpec) => r.dest != "" && r.srce != "" && r.level != ""
  }

  ghost function Keying(at: Rule): RouteSpec -> UsageKey {
    (r: RouteSpec) => KeyFor(r, at(r.srce, r.level))
  }

  /** The rows come in the order in which the routes first have their key. */
  lemma {:induction false} KeysPlain(routes: seq<RouteSpec>, at: Rule)
    ensures KeysOf(routes, at) == Firsts(Mapped(Keying(at), Filter(Complete(), routes)))
  {
    if routes != [] {
      var front, last := routes[..|routes| - 1], routes[|routes| - 1];
      KeysPlain(front, at);
      assert routes == front + [last];
      FilterLast(Complete(), front, last);
      MappedLast(Keying(at), Filter(Complete(), front), last);
      FirstsLast(Mapped(Keying(at), Filter(Complete(), front)), KeyFor(last, at(last.srce, last.level)));
    }
  }

  lemma RowsInOrder(routes: seq<RouteSpec>, at: Rule, rows: seq<UsageRow>)
    requires Partition(routes, at, rows)
    ensures var keys := Firsts(Mapped(Keying(at), Filter(Complete(), routes)));
      |rows| == |keys| && forall i :: 0 <= i < |rows| ==> KeyOfRow(rows[i]) == keys[i]
  {
    KeysPlain(routes, at);
  }
}
