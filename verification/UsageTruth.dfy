/** When every usage row shows the chain of each route it lists. */
module UsageTruth {
  import opened Wrappers
  import opened Text
  import opened Sorting
  import opened Sequences
  import opened Routes
  import opened Virtuals
  import opened Usage
  import Xpoint

  // ---- the rows exist and keep one row per key ----

  lemma {:induction false} GroupsExist(routes: seq<RouteSpec>, at: Rule)
    returns (order: seq<UsageKey>, groups: map<UsageKey, UsageRow>)
    ensures Accumulated(routes, at, order, groups)
  {
    if routes == [] {
      order, groups := [], map[];
    } else {
      var front, last := routes[..|routes| - 1], routes[|routes| - 1];
      assert routes == front + [last];
      order, groups := GroupsExist(front, at);
      if Xpoint.WellFormed(last) {
        AccumulateStep(front, last, at, order, groups);
        var res := at(last.srce, last.level);
        order, groups := AddNew(order, KeyFor(last, res)), NextGroups(groups, last, res);
      } else {
        AccumulateSkip(front, last, at, order, groups);
      }
    }
  }

  lemma RowsExist(routes: seq<RouteSpec>, at: Rule) returns (rows: seq<UsageRow>)
    ensures Partition(routes, at, rows)
  {
    var order, groups := GroupsExist(routes, at);
    rows := seq(|order|, i requires 0 <= i < |order| =>
      if order[i] in groups then SortedRow(groups[order[i]]) else UsageRow("", "", [], Resolution("", [], Plain)));
    assert forall i :: 0 <= i < |order| ==> order[i] in order;
    PartitionOfGroups(routes, at, order, groups, rows);
  }

  lemma {:induction false} KeysDistinct(routes: seq<RouteSpec>, at: Rule)
    ensures Distinct(KeysOf(routes, at))
  {
    if routes != [] {
      KeysDistinct(routes[..|routes| - 1], at);
    }
  }

  /** The row that lists a route has the route's key. */
  lemma ListedKey(routes: seq<RouteSpec>, at: Rule, rows: seq<UsageRow>, i: nat, r: RouteSpec)
    requires Partition(routes, at, rows) && i < |rows| && Lists(rows[i], r)
    ensures KeyOfRow(rows[i]) == KeyFor(r, at(r.srce, r.level))
  {
    assert RowBacked(routes, at, rows[i]);
    assert Genuine(routes, at, rows[i], r.level);
  }

  lemma SameKeyRow(rows: seq<UsageRow>, keys: seq<UsageKey>, i: nat, j: nat)
    requires KeyedBy(rows, keys) && Distinct(keys) && i < |rows| && j < |rows| && KeyOfRow(rows[i]) == KeyOfRow(rows[j])
    ensures i == j
  {
    assert keys[i] == keys[j];
  }

  lemma RowOf(routes: seq<RouteSpec>, at: Rule, rows: seq<UsageRow>, r: RouteSpec) returns (i: nat)
    requires Partition(routes, at, rows) && r in routes && Xpoint.WellFormed(r)
    ensures i < |rows| && Lists(rows[i], r) && KeyOfRow(rows[i]) == KeyFor(r, at(r.srce, r.level))
  {
    assert Listed(rows, r);
    i :| 0 <= i < |rows| && Lists(rows[i], r);
    ListedKey(routes, at, rows, i, r);
  }

  /** Routes of one key stand in one row. */
  lemma OneRow(routes: seq<RouteSpec>, at: Rule, rows: seq<UsageRow>, r: RouteSpec, q: RouteSpec) returns (i: nat)
    requires Partition(routes, at, rows) && r in routes && q in routes && Xpoint.WellFormed(r) && Xpoint.WellFormed(q)
    requires KeyFor(r, at(r.srce, r.level)) == KeyFor(q, at(q.srce, q.level))
    ensures i < |rows| && Lists(rows[i], r) && Lists(rows[i], q)
  {
    i := RowOf(routes, at, rows, r);
    var j := RowOf(routes, at, rows, q);
    KeysDistinct(routes, at);
    SameKeyRow(rows, KeysOf(routes, at), i, j);
  }

  // ---- a snapshot that leads along two chains ----

  /** Routes that lead along a chain on one level. */
  function LeadRoutes(a: seq<string>, level: string): seq<RouteSpec>
    requires a != []
  {
    seq(|a| - 1, i requires 0 <= i < |a| - 1 => RouteSpec(a[i], a[i + 1], level, ""))
  }

  /** One destination fed by the head of `a` on level 1 and by the head of `b` on level 2. */
  function TwoChains(a: seq<string>, b: seq<string>, dest: string): seq<RouteSpec>
    requires a != [] && b != []
  {
    LeadRoutes(a, "1") + LeadRoutes(b, "2") + [RouteSpec(dest, a[0], "1", ""), RouteSpec(dest, b[0], "2", "")]
  }

  lemma LeadMember(a: seq<string>, level: string, r: RouteSpec)
    requires a != []
    ensures r in LeadRoutes(a, level) <==> exists i :: 0 <= i < |a| - 1 && r == RouteSpec(a[i], a[i + 1], level, "")
  {
    if i :| 0 <= i < |a| - 1 && r == RouteSpec(a[i], a[i + 1], level, "") {
      assert LeadRoutes(a, level)[i] == r;
    }
  }

  /** Among the routes, `a` is what stands on the level, beside one other destination. */
  ghost predicate StandsOn(routes: seq<RouteSpec>, a: seq<string>, level: string, dest: string)
    requires a != []
  {
    && (forall r :: r in LeadRoutes(a, level) ==> r in routes)
    && forall r :: r in routes && r.level == level && r.dest != dest ==> r in LeadRoutes(a, level)
  }

  lemma EndUnfed(virtuals: set<string>, routes: seq<RouteSpec>, a: seq<string>, level: string, dest: string)
    requires ChainIn(virtuals, a) && dest !in a && StandsOn(routes, a, level, dest)
    ensures Cell(a[|a| - 1], level) !in FeedOf(routes)
  {
    var last := a[|a| - 1];
    assert last in a;
    forall q | q in routes
      ensures CellOf(q) != Cell(last, level)
    {
      LeadMember(a, level, q);
    }
    if Cell(last, level) in FeedOf(routes) {
      FeedHasRow(routes, Cell(last, level));
    }
  }

  lemma LeadFeed(virtuals: set<string>, routes: seq<RouteSpec>, a: seq<string>, level: string, dest: string)
    requires ChainIn(virtuals, a) && dest !in a && StandsOn(routes, a, level, dest)
    ensures ResolutionOf(FeedOf(routes), virtuals, a[0], level) == Resolution("", a, Unfed)
  {
    var feed, n := FeedOf(routes), |a| - 1;
    forall i | 0 <= i < n
      ensures Cell(a[i], level) in feed && feed[Cell(a[i], level)] == a[i + 1]
    {
      var r := RouteSpec(a[i], a[i + 1], level, "");
      LeadMember(a, level, r);
      forall q | q in routes && CellOf(q) == CellOf(r)
        ensures q.srce == r.srce
      {
        assert a[i] in a;
        LeadMember(a, level, q);
      }
      FeedHolds(routes, r);
    }
    EndUnfed(virtuals, routes, a, level, dest);
    LeadsAlong(virtuals, a, level, feed);
  }

  lemma TwoChainsStand(a: seq<string>, b: seq<string>, dest: string)
    requires a != [] && b != []
    ensures StandsOn(TwoChains(a, b, dest), a, "1", dest) && StandsOn(TwoChains(a, b, dest), b, "2", dest)
  {
    assert "1"[0] != "2"[0];
    forall r | r in TwoChains(a, b, dest)
      ensures r in LeadRoutes(a, "1") || r in LeadRoutes(b, "2") || r.dest == dest
      ensures r in LeadRoutes(a, "1") ==> r.level == "1"
      ensures r in LeadRoutes(b, "2") ==> r.level == "2"
    {
      LeadMember(a, "1", r);
      LeadMember(b, "2", r);
    }
  }

  /** One usage row lists the destination on both levels, though the chains differ. */
  ghost predicate OneForBoth(rows: seq<UsageRow>, at: Rule, dest: string, srce: string) {
    && at(srce, "1") != at(srce, "2")
    && exists i ::
         && 0 <= i < |rows|
         && Lists(rows[i], RouteSpec(dest, srce, "1", "")) && Lists(rows[i], RouteSpec(dest, srce, "2", ""))
  }

  lemma SharesRow(routes: seq<RouteSpec>, at: Rule, rows: seq<UsageRow>, dest: string, srce: string)
    requires Partition(routes, at, rows) && dest != "" && srce != ""
    requires RouteSpec(dest, srce, "1", "") in routes && RouteSpec(dest, srce, "2", "") in routes
    requires SameKeyPart(at(srce, "1"), at(srce, "2")) && at(srce, "1") != at(srce, "2")
    ensures OneForBoth(rows, at, dest, srce)
  {
    var i := OneRow(routes, at, rows, RouteSpec(dest, srce, "1", ""), RouteSpec(dest, srce, "2", ""));
  }

  lemma BothResolve(virtuals: set<string>, a: seq<string>, b: seq<string>, dest: string)
    requires !ToldApart(virtuals, a, b) && dest !in a && dest !in b
    ensures var at := Attaching(FeedOf(TwoChains(a, b, dest)), virtuals, true);
      SameKeyPart(at(a[0], "1"), at(a[0], "2")) && at(a[0], "1") != at(a[0], "2")
  {
    TwoChainsStand(a, b, dest);
    LeadFeed(virtuals, TwoChains(a, b, dest), a, "1", dest);
    LeadFeed(virtuals, TwoChains(a, b, dest), b, "2", dest);
  }

  lemma Confuses(virtuals: set<string>, a: seq<string>, b: seq<string>, dest: string, rows: seq<UsageRow>)
    requires !ToldApart(virtuals, a, b) && dest != "" && dest !in a && dest !in b && a[0] != ""
    requires var routes := TwoChains(a, b, dest); Partition(routes, Attaching(FeedOf(routes), virtuals, true), rows)
    ensures OneForBoth(rows, Attaching(FeedOf(TwoChains(a, b, dest)), virtuals, true), dest, a[0])
  {
    var routes := TwoChains(a, b, dest);
    BothResolve(virtuals, a, b, dest);
    assert routes[|routes| - 2] == RouteSpec(dest, a[0], "1", "")
      && routes[|routes| - 1] == RouteSpec(dest, b[0], "2", "");
    SharesRow(routes, Attaching(FeedOf(routes), virtuals, true), rows, dest, a[0]);
  }

  lemma OneForBothIsWrong(rows: seq<UsageRow>, at: Rule, dest: string, srce: string)
    requires OneForBoth(rows, at, dest, srce)
    ensures !Truthful(at, rows)
  {
    var i :| 0 <= i < |rows| && Lists(rows[i], RouteSpec(dest, srce, "1", ""))
      && Lists(rows[i], RouteSpec(dest, srce, "2", ""));
    assert rows[i].res != at(srce, "1") || rows[i].res != at(srce, "2");
  }

  // ---- exactly when ----

  function Flat(s: seq<string>): string {
    if s == [] then "x" else Flat(s[..|s| - 1]) + s[|s| - 1]
  }

  lemma {:induction false} FlatIsFresh(s: seq<string>)
    ensures Flat(s) != "" && forall v :: v in s ==> |v| < |Flat(s)|
  {
    if s != [] {
      FlatIsFresh(s[..|s| - 1]);
      assert s == s[..|s| - 1] + [s[|s| - 1]];
    }
  }

  /** The grouping key tells the resolutions of a source on two levels apart, whatever the
      feeds, exactly when no two chains of the virtual IDs read alike once joined. */
  lemma KeyTellsResolutionIff(virtuals: set<string>)
    ensures ChainsApart(virtuals) <==> forall feed, srce, level, other :: KeyTells(feed, virtuals, srce, level, other)
  {
    if ChainsApart(virtuals) {
      forall feed, srce, level, other
        ensures KeyTells(feed, virtuals, srce, level, other)
      {
        ApartTells(feed, virtuals, srce, level, other);
      }
    } else {
      var a, b :| !ToldApart(virtuals, a, b);
      var dest := FreshFor(a, b);
      BothResolve(virtuals, a, b, dest);
      assert !KeyTells(FeedOf(TwoChains(a, b, dest)), virtuals, a[0], "1", "2");
    }
  }

  lemma FreshFor(a: seq<string>, b: seq<string>) returns (dest: string)
    ensures dest != "" && dest !in a && dest !in b
  {
    dest := Flat(a + b);
    FlatIsFresh(a + b);
    assert (forall v :: v in a ==> v in a + b) && forall v :: v in b ==> v in a + b;
  }

  ghost predicate RowsTruthful(virtuals: set<string>, routes: seq<RouteSpec>, rows: seq<UsageRow>) {
    var at := Attaching(FeedOf(routes), virtuals, true);
    Partition(routes, at, rows) ==> Truthful(at, rows)
  }

  lemma SomeRowWrong(virtuals: set<string>, a: seq<string>, b: seq<string>)
    returns (routes: seq<RouteSpec>, rows: seq<UsageRow>)
    requires "" !in virtuals && !ToldApart(virtuals, a, b)
    ensures !RowsTruthful(virtuals, routes, rows)
  {
    var dest := FreshFor(a, b);
    routes := TwoChains(a, b, dest);
    var at := Attaching(FeedOf(routes), virtuals, true);
    rows := RowsExist(routes, at);
    assert a[0] in a;
    Confuses(virtuals, a, b, dest, rows);
    OneForBothIsWrong(rows, at, dest, a[0]);
  }

  /** Every usage row of every snapshot shows the chain of each route it lists exactly when
      no two chains of the virtual IDs read alike once joined. */
  lemma RowsTruthfulIff(virtuals: set<string>)
    requires "" !in virtuals
    ensures ChainsApart(virtuals) <==> forall routes, rows :: RowsTruthful(virtuals, routes, rows)
  {
    if ChainsApart(virtuals) {
      forall routes, rows
        ensures RowsTruthful(virtuals, routes, rows)
      {
        if Partition(routes, Attaching(FeedOf(routes), virtuals, true), rows) {
          PartitionTruthful(routes, FeedOf(routes), virtuals, true, rows);
        }
      }
    } else {
      var a, b :| !ToldApart(virtuals, a, b);
      var routes, rows := SomeRowWrong(virtuals, a, b);
    }
  }

  lemma ReadAlike()
    ensures !ToldApart({"a", "b;c", "b", "c"}, ["a", "b;c"], ["a", "b", "c"])
  {
    var x, y := ["a", "b;c"], ["a", "b", "c"];
    assert |x[1]| == 3;
    assert x[1..] == ["b;c"] && y[1..] == ["b", "c"] && y[1..][1..] == ["c"];
    assert Join(x, ';') == "a;b;c" == Join(y, ';');
    assert |x| != |y|;
  }

  lemma TwoRoutes(x: string, y: string, level: string)
    ensures LeadRoutes([x, y], level) == [RouteSpec(x, y, level, "")]
  {
  }

  lemma ThreeRoutes(x: string, y: string, z: string, level: string)
    ensures LeadRoutes([x, y, z], level) == [RouteSpec(x, y, level, ""), RouteSpec(y, z, level, "")]
  {
  }

  /** Destination "d" takes "a" on two levels, which leads over "b;c" on the one and over "b"
      and "c" on the other. */
  lemma ConfusingRoutes()
    ensures TwoChains(["a", "b;c"], ["a", "b", "c"], "d")
         == [RouteSpec("a", "b;c", "1", ""), RouteSpec("a", "b", "2", ""), RouteSpec("b", "c", "2", ""),
             RouteSpec("d", "a", "1", ""), RouteSpec("d", "a", "2", "")]
  {
    TwoRoutes("a", "b;c", "1");
    ThreeRoutes("a", "b", "c", "2");
  }

  /** With those four virtual IDs the usage list of that snapshot, whatever else, holds one
      row for both levels. */
  lemma SeparatorConfuses(rows: seq<UsageRow>)
    requires var routes := TwoChains(["a", "b;c"], ["a", "b", "c"], "d");
      Partition(routes, Attaching(FeedOf(routes), {"a", "b;c", "b", "c"}, true), rows)
    ensures var routes := TwoChains(["a", "b;c"], ["a", "b", "c"], "d");
      OneForBoth(rows, Attaching(FeedOf(routes), {"a", "b;c", "b", "c"}, true), "d", "a")
  {
    var virtuals, x, y := {"a", "b;c", "b", "c"}, ["a", "b;c"], ["a", "b", "c"];
    ReadAlike();
    NotInChains();
    Confuses(virtuals, x, y, "d", rows);
  }

  lemma NotInChains()
    ensures "d" !in ["a", "b;c"] && "d" !in ["a", "b", "c"]
  {
    assert "a"[0] == 'a' && "b"[0] == 'b' && "b;c"[0] == 'b' && "c"[0] == 'c' && "d"[0] == 'd';
  }
}
