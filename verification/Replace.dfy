/** Replacing one source by another on every cell that carries it. */
module Replace {
  import opened Wrappers
  import opened Text
  import opened Sorting
  import opened Routes
  import opened Virtuals

  /** The levels a replacement is about: one, or all of them. */
  predicate InScope(scope: Option<string>, level: string) {
    scope.None? || scope.value == level
  }

  function Substituted(scope: Option<string>, from: string, to: string, r: RouteSpec): RouteSpec {
    if InScope(scope, r.level) && r.srce == from then r.(srce := to) else r
  }

  /** The routing with the source replaced on every cell of the scope that carries it. */
  function Replaced(routes: seq<RouteSpec>, scope: Option<string>, from: string, to: string): seq<RouteSpec> {
    if routes == [] then []
    else Replaced(routes[..|routes| - 1], scope, from, to) + [Substituted(scope, from, to, routes[|routes| - 1])]
  }

  /** One ROUTE action per carrying cell, in snapshot order; the source level is kept. */
  function ReplacePlan(routes: seq<RouteSpec>, scope: Option<string>, from: string, to: string): seq<RouteChange> {
    if routes == [] then []
    else
      var r, before := routes[|routes| - 1], ReplacePlan(routes[..|routes| - 1], scope, from, to);
      if InScope(scope, r.level) && r.srce == from then before + [RouteChange(r.dest, r.level, from, to, r.srceLevel)]
      else before
  }

  method ReplaceCells(routes: seq<RouteSpec>, scope: Option<string>, from: string, to: string)
    returns (plan: seq<RouteChange>)
    ensures plan == ReplacePlan(routes, scope, from, to)
    ensures plan == Mapped(Rerouting(to), Filter(Carrying(scope, from), routes))
  {
    PlanPlain(routes, scope, from, to);
    plan := [];
    for i := 0 to |routes|
      invariant plan == ReplacePlan(routes[..i], scope, from, to)
    {
      var r := routes[i];
      assert routes[..i + 1][..i] == routes[..i];
      if InScope(scope, r.level) && r.srce == from {
        plan := plan + [RouteChange(r.dest, r.level, from, to, r.srceLevel)];
      }
    }
    assert routes[..|routes|] == routes;
  }

  lemma {:induction false} ReplacedAt(routes: seq<RouteSpec>, scope: Option<string>, from: string, to: string)
    ensures |Replaced(routes, scope, from, to)| == |routes|
    ensures forall i :: 0 <= i < |routes| ==>
      Replaced(routes, scope, from, to)[i] == Substituted(scope, from, to, routes[i])
  {
    if routes != [] {
      ReplacedAt(routes[..|routes| - 1], scope, from, to);
    }
  }

  lemma {:induction false} ReplacedFeed(routes: seq<RouteSpec>, scope: Option<string>, from: string, to: string,
                                        k: Cell)
    ensures k in FeedOf(Replaced(routes, scope, from, to)) <==> k in FeedOf(routes)
    ensures k in FeedOf(routes) ==>
      FeedOf(Replaced(routes, scope, from, to))[k]
        == if InScope(scope, k.level) && FeedOf(routes)[k] == from then to else FeedOf(routes)[k]
  {
    if routes != [] {
      var front, last := routes[..|routes| - 1], routes[|routes| - 1];
      ReplacedFeed(front, scope, from, to, k);
      var all := Replaced(routes, scope, from, to);
      assert all[..|all| - 1] == Replaced(front, scope, from, to);
    }
  }

  /** What a replacement does to the resolution of a cell of the level. */
  function Renamed(scope: Option<string>, from: string, to: string, level: string, r: Resolution): Resolution {
    if InScope(scope, level) && r.mark == Plain && r.effective == from then r.(effective := to) else r
  }

  /** The cell's hops and mark are those it had, and its effective source is the
      replacement where it was the replaced one. */
  ghost predicate Commutes(routes: seq<RouteSpec>, virtuals: set<string>, scope: Option<string>, from: string,
                           to: string, r: RouteSpec) {
    CommutesIn(Replaced(routes, scope, from, to), routes, virtuals, scope, from, to, r)
  }

  /** The same, of any routing that comes after. */
  ghost predicate CommutesIn(next: seq<RouteSpec>, routes: seq<RouteSpec>, virtuals: set<string>,
                             scope: Option<string>, from: string, to: string, r: RouteSpec) {
    ResolutionOf(FeedOf(next), virtuals, Substituted(scope, from, to, r).srce, r.level)
      == Renamed(scope, from, to, r.level, ResolutionOf(FeedOf(routes), virtuals, r.srce, r.level))
  }

  lemma PhysicalCommutes(routes: seq<RouteSpec>, virtuals: set<string>, scope: Option<string>, from: string,
                         to: string, r: RouteSpec)
    requires from !in virtuals && to !in virtuals
    ensures Commutes(routes, virtuals, scope, from, to, r)
  {
    var feed, feed' := FeedOf(routes), FeedOf(Replaced(routes, scope, from, to));
    var after := Substituted(scope, from, to, r);
    var before := ResolutionOf(feed, virtuals, r.srce, r.level);
    var via := before.via;
    forall i | 0 <= i < |via|
      ensures via[i] in virtuals
      ensures Cell(via[i], r.level) in feed' <==> Cell(via[i], r.level) in feed
      ensures Cell(via[i], r.level) in feed ==>
        feed'[Cell(via[i], r.level)]
          == if InScope(scope, r.level) && feed[Cell(via[i], r.level)] == from then to else feed[Cell(via[i], r.level)]
    {
      assert via[i] in via;
      ReplacedFeed(routes, scope, from, to, Cell(via[i], r.level));
    }
    forall i | 0 <= i < |via| - 1
      ensures Cell(via[i], r.level) in feed' && feed'[Cell(via[i], r.level)] == via[i + 1]
    {
      assert feed[Cell(via[i], r.level)] == via[i + 1];
      assert via[i + 1] in virtuals;
    }
    assert Crosses(feed', virtuals, after.srce, r.level, via);
    assert Resolves(feed', virtuals, after.srce, r.level, Renamed(scope, from, to, r.level, before));
    ResolutionUnique(feed', virtuals, after.srce, r.level,
      Renamed(scope, from, to, r.level, before), ResolutionOf(feed', virtuals, after.srce, r.level));
  }

  /** Replacing `from` by `to` only renames effective sources, on every cell, exactly when
      both are physical or no cell of the scope carries `from`. */
  lemma ReplaceCommutesIff(routes: seq<RouteSpec>, virtuals: set<string>, scope: Option<string>, from: string,
                           to: string)
    requires from != to
    ensures (forall r :: r in routes ==> Commutes(routes, virtuals, scope, from, to, r))
       <==> (from !in virtuals && to !in virtuals) || !Carried(routes, scope, from)
  {
    if from !in virtuals && to !in virtuals {
      forall r | r in routes
        ensures Commutes(routes, virtuals, scope, from, to, r)
      {
        PhysicalCommutes(routes, virtuals, scope, from, to, r);
      }
    } else if Carried(routes, scope, from) {
      var r :| r in routes && InScope(scope, r.level) && r.srce == from;
      FirstHop(FeedOf(routes), virtuals, from, r.level);
      FirstHop(FeedOf(Replaced(routes, scope, from, to)), virtuals, to, r.level);
      assert !Commutes(routes, virtuals, scope, from, to, r);
    } else {
      NothingToReplace(routes, scope, from, to);
      forall r | r in routes
        ensures Commutes(routes, virtuals, scope, from, to, r)
      {
        NotEffective(routes, virtuals, scope, from, r);
      }
    }
  }

  lemma NotEffective(routes: seq<RouteSpec>, virtuals: set<string>, scope: Option<string>, from: string, r: RouteSpec)
    requires r in routes && !Carried(routes, scope, from)
    ensures var res := ResolutionOf(FeedOf(routes), virtuals, r.srce, r.level);
      !(InScope(scope, r.level) && res.mark == Plain && res.effective == from)
  {
    var res := ResolutionOf(FeedOf(routes), virtuals, r.srce, r.level);
    if res.via != [] && res.mark == Plain {
      FeedHasRow(routes, Cell(res.via[|res.via| - 1], r.level));
    }
  }

  /** Some cell of the scope is fed by `from`. */
  ghost predicate Carried(routes: seq<RouteSpec>, scope: Option<string>, from: string) {
    exists r :: r in routes && InScope(scope, r.level) && r.srce == from
  }

  lemma NothingToReplace(routes: seq<RouteSpec>, scope: Option<string>, from: string, to: string)
    requires !Carried(routes, scope, from)
    ensures Replaced(routes, scope, from, to) == routes
  {
    ReplacedAt(routes, scope, from, to);
    forall i | 0 <= i < |routes|
      ensures Replaced(routes, scope, from, to)[i] == routes[i]
    {
      assert routes[i] in routes;
    }
  }

  /** The resolutions stand still only if nothing is carried: a replaced source that is
      virtual takes its hop away with it, a virtual replacement adds its own. */
  lemma VirtualReplacementChangesHops()
    ensures var routes := [RouteSpec("d", "v", "1", ""), RouteSpec("v", "s", "1", "")];
      && ResolutionOf(FeedOf(routes), {"v"}, "v", "1").via == ["v"]
      && ResolutionOf(FeedOf(Replaced(routes, None, "v", "t")), {"v"}, "t", "1").via == []
  {
    var routes := [RouteSpec("d", "v", "1", ""), RouteSpec("v", "s", "1", "")];
    assert FeedOf(routes) == map[Cell("d", "1") := "v", Cell("v", "1") := "s"];
    assert Resolves(FeedOf(routes), {"v"}, "v", "1", Resolution("s", ["v"], Plain));
    ResolutionUnique(FeedOf(routes), {"v"}, "v", "1", Resolution("s", ["v"], Plain),
      ResolutionOf(FeedOf(routes), {"v"}, "v", "1"));
    FirstHop(FeedOf(Replaced(routes, None, "v", "t")), {"v"}, "t", "1");
  }

  // ---- the actions on the server ----

  /** Rows of one cell agree. */
  ghost predicate OneSource(routes: seq<RouteSpec>) {
    forall r, q :: r in routes && q in routes && CellOf(r) == CellOf(q) ==> r == q
  }

  lemma {:induction false} PlanMembers(routes: seq<RouteSpec>, scope: Option<string>, from: string, to: string,
                                       c: RouteChange)
    ensures c in ReplacePlan(routes, scope, from, to)
       <==> exists r ::
              && r in routes && InScope(scope, r.level) && r.srce == from
              && c == RouteChange(r.dest, r.level, from, to, r.srceLevel)
  {
    if routes != [] {
      PlanMembers(routes[..|routes| - 1], scope, from, to, c);
      assert routes == routes[..|routes| - 1] + [routes[|routes| - 1]];
    }
  }

  lemma {:induction false} RowHeld(routes: seq<RouteSpec>, r: RouteSpec)
    requires r in routes && OneSource(routes)
    ensures CellOf(r) in CellsOf(routes) && CellsOf(routes)[CellOf(r)] == Held(r.srce, r.srceLevel)
  {
    var front, last := routes[..|routes| - 1], routes[|routes| - 1];
    assert routes == front + [last];
    if r != last {
      RowHeld(front, r);
    }
  }

  lemma {:induction false} CellHasRow(routes: seq<RouteSpec>, k: Cell)
    requires k in CellsOf(routes)
    ensures exists r :: r in routes && CellOf(r) == k
  {
    var front, last := routes[..|routes| - 1], routes[|routes| - 1];
    assert routes == front + [last];
    if CellOf(last) != k {
      CellHasRow(front, k);
    }
  }

  /** The one change a plan can hold for a cell. */
  lemma ChangeOfCell(routes: seq<RouteSpec>, scope: Option<string>, from: string, to: string, r: RouteSpec,
                     c: RouteChange)
    requires OneSource(routes) && r in routes && c.Target() == CellOf(r)
    ensures c in ReplacePlan(routes, scope, from, to)
       <==> InScope(scope, r.level) && r.srce == from && c == RouteChange(r.dest, r.level, from, to, r.srceLevel)
  {
    PlanMembers(routes, scope, from, to, c);
    if q :|
      && q in routes && InScope(scope, q.level) && q.srce == from
      && c == RouteChange(q.dest, q.level, from, to, q.srceLevel) {
      assert CellOf(q) == CellOf(r);
    }
  }

  /** Where a cell stands on the server after the replacement. */
  lemma ReplacedCell(srv: Cells, routes: seq<RouteSpec>, scope: Option<string>, from: string, to: string, r: RouteSpec)
    requires Reports(routes, srv) && OneSource(routes) && r in routes
    ensures var after := Run(srv, ReplacePlan(routes, scope, from, to), Everything());
      CellOf(r) in after && after[CellOf(r)] == Held(Substituted(scope, from, to, r).srce, r.srceLevel)
  {
    var plan := ReplacePlan(routes, scope, from, to);
    var c := RouteChange(r.dest, r.level, from, to, r.srceLevel);
    RowHeld(routes, r);
    forall e: RouteChange | e.Target() == CellOf(r)
      ensures e in plan <==> InScope(scope, r.level) && r.srce == from && e == c
    {
      ChangeOfCell(routes, scope, from, to, r, e);
    }
    if InScope(scope, r.level) && r.srce == from {
      RunHolds(srv, plan, Everything(), c);
    } else {
      RunElsewhere(srv, plan, Everything(), CellOf(r));
    }
  }

  lemma RanCell(srv: Cells, routes: seq<RouteSpec>, scope: Option<string>, from: string, to: string, k: Cell)
    requires Reports(routes, srv) && k in Reported(Run(srv, ReplacePlan(routes, scope, from, to), Everything()))
    ensures exists r :: r in routes && CellOf(r) == k
  {
    var plan := ReplacePlan(routes, scope, from, to);
    if c :| c in plan && c.Target() == k {
      PlanMembers(routes, scope, from, to, c);
    } else {
      RunElsewhere(srv, plan, Everything(), k);
      CellHasRow(routes, k);
    }
  }

  lemma ReplacedMember(routes: seq<RouteSpec>, scope: Option<string>, from: string, to: string, q: RouteSpec)
    ensures q in Replaced(routes, scope, from, to) <==> exists r :: r in routes && q == Substituted(scope, from, to, r)
  {
    ReplacedAt(routes, scope, from, to);
    if r :| r in routes && q == Substituted(scope, from, to, r) {
      var i :| 0 <= i < |routes| && routes[i] == r;
      assert Replaced(routes, scope, from, to)[i] == q;
    }
  }

  lemma ToldRow(srv: Cells, routes: seq<RouteSpec>, scope: Option<string>, from: string, to: string,
                again: seq<RouteSpec>, r: RouteSpec)
    requires Reports(routes, srv) && OneSource(routes) && OneSource(again) && r in routes
    requires Reports(again, Run(srv, ReplacePlan(routes, scope, from, to), Everything()))
    ensures Substituted(scope, from, to, r) in again <==> !NoRoute(Substituted(scope, from, to, r).srce)
    ensures forall q :: q in again && CellOf(q) == CellOf(r) ==> q == Substituted(scope, from, to, r)
  {
    var k := CellOf(r);
    ReplacedCell(srv, routes, scope, from, to, r);
    if k in CellsOf(again) {
      CellHasRow(again, k);
    }
    forall q | q in again && CellOf(q) == k
      ensures q == Substituted(scope, from, to, r)
    {
      RowHeld(again, q);
    }
    if Substituted(scope, from, to, r) in again {
      RowHeld(again, Substituted(scope, from, to, r));
    }
  }

  /** Running the actions carries out the replacement, cell by cell and with every source
      level kept: the next snapshot tells of the rewritten routing, less the cells that now
      hold no route. A second run sends nothing. */
  lemma ReplaceConverges(srv: Cells, routes: seq<RouteSpec>, scope: Option<string>, from: string, to: string,
                         again: seq<RouteSpec>)
    requires Reports(routes, srv) && OneSource(routes) && OneSource(again) && from != to
    requires Reports(again, Run(srv, ReplacePlan(routes, scope, from, to), Everything()))
    ensures forall r :: r in again <==> r in Replaced(routes, scope, from, to) && !NoRoute(r.srce)
    ensures ReplacePlan(again, scope, from, to) == []
  {
    forall q
      ensures q in again <==> q in Replaced(routes, scope, from, to) && !NoRoute(q.srce)
    {
      ReplacedMember(routes, scope, from, to, q);
      if q in again {
        RowHeld(again, q);
        RanCell(srv, routes, scope, from, to, CellOf(q));
        var r :| r in routes && CellOf(r) == CellOf(q);
        ToldRow(srv, routes, scope, from, to, again, r);
      }
      if r :| r in routes && q == Substituted(scope, from, to, r) {
        ToldRow(srv, routes, scope, from, to, again, r);
      }
    }
    if ReplacePlan(again, scope, from, to) != [] {
      var c := ReplacePlan(again, scope, from, to)[0];
      PlanMembers(again, scope, from, to, c);
      var q :| q in again && InScope(scope, q.level) && q.srce == from;
      ReplacedMember(routes, scope, from, to, q);
    }
  }

  // ---- the resolutions of the next snapshot ----

  /** The feeds of the rewritten routing, less those that are no route. */
  ghost predicate Thinned(next: Feed, full: Feed) {
    forall k :: (k in next <==> k in full && !NoRoute(full[k])) && (k in next ==> next[k] == full[k])
  }

  lemma AgainThinned(routes: seq<RouteSpec>, scope: Option<string>, from: string, to: string, again: seq<RouteSpec>)
    requires OneSource(routes) && OneSource(again)
    requires forall r :: r in again <==> r in Replaced(routes, scope, from, to) && !NoRoute(r.srce)
    ensures Thinned(FeedOf(again), FeedOf(Replaced(routes, scope, from, to)))
  {
    var all := Replaced(routes, scope, from, to);
    forall k
      ensures k in FeedOf(again) <==> k in FeedOf(all) && !NoRoute(FeedOf(all)[k])
      ensures k in FeedOf(again) ==> FeedOf(again)[k] == FeedOf(all)[k]
    {
      if k in FeedOf(again) {
        FeedHasRow(again, k);
        var r :| r in again && CellOf(r) == k;
        FeedHolds(again, r);
        ReplacedFeeds(routes, scope, from, to, r);
      }
      if k in FeedOf(all) {
        FeedHasRow(all, k);
        var r :| r in all && CellOf(r) == k && r.srce == FeedOf(all)[k];
        if !NoRoute(r.srce) {
          FeedHolds(again, r);
        }
      }
    }
  }

  lemma ReplacedFeeds(routes: seq<RouteSpec>, scope: Option<string>, from: string, to: string, r: RouteSpec)
    requires OneSource(routes) && r in Replaced(routes, scope, from, to)
    ensures var feed := FeedOf(Replaced(routes, scope, from, to)); CellOf(r) in feed && feed[CellOf(r)] == r.srce
  {
    ReplacedMember(routes, scope, from, to, r);
    forall q | q in Replaced(routes, scope, from, to) && CellOf(q) == CellOf(r)
      ensures q.srce == r.srce
    {
      ReplacedMember(routes, scope, from, to, q);
    }
    FeedHolds(Replaced(routes, scope, from, to), r);
  }

  /** The cell reaches `from` through a virtual resource. */
  ghost predicate Through(routes: seq<RouteSpec>, virtuals: set<string>, scope: Option<string>, from: string,
                          r: RouteSpec) {
    var res := ResolutionOf(FeedOf(routes), virtuals, r.srce, r.level);
    InScope(scope, r.level) && res.mark == Plain && res.effective == from && res.via != []
  }

  /** Every feed of the routing is a source. */
  ghost predicate AllTold(routes: seq<RouteSpec>) {
    forall k :: k in FeedOf(routes) ==> !NoRoute(FeedOf(routes)[k])
  }

  lemma ReportedTold(routes: seq<RouteSpec>, srv: Cells)
    requires Reports(routes, srv) && OneSource(routes)
    ensures AllTold(routes)
  {
    forall k | k in FeedOf(routes)
      ensures !NoRoute(FeedOf(routes)[k])
    {
      FeedHasRow(routes, k);
      var r :| r in routes && CellOf(r) == k && r.srce == FeedOf(routes)[k];
      RowHeld(routes, r);
    }
  }

  /** One hop of a chain of virtuals, in the routing and in the next snapshot. */
  lemma HopKept(routes: seq<RouteSpec>, next: Feed, virtuals: set<string>, scope: Option<string>, from: string,
                to: string, k: Cell)
    requires AllTold(routes) && Thinned(next, FeedOf(Replaced(routes, scope, from, to)))
    ensures k in FeedOf(routes) && !(InScope(scope, k.level) && FeedOf(routes)[k] == from) ==>
      k in next && next[k] == FeedOf(routes)[k]
    ensures k in FeedOf(routes) && InScope(scope, k.level) && FeedOf(routes)[k] == from ==>
      (k in next <==> !NoRoute(to)) && (k in next ==> next[k] == to)
    ensures k !in FeedOf(routes) ==> k !in next
  {
    ReplacedFeed(routes, scope, from, to, k);
  }

  /** Up to its last hop a chain of virtuals stays as it was. */
  lemma ChainKept(routes: seq<RouteSpec>, next: Feed, virtuals: set<string>, scope: Option<string>, from: string,
                  to: string, r: RouteSpec)
    requires from !in virtuals && AllTold(routes) && Thinned(next, FeedOf(Replaced(routes, scope, from, to)))
    requires r.srce in virtuals
    ensures Crosses(next, virtuals, r.srce, r.level, ResolutionOf(FeedOf(routes), virtuals, r.srce, r.level).via)
  {
    var feed := FeedOf(routes);
    var via := ResolutionOf(feed, virtuals, r.srce, r.level).via;
    forall i | 0 <= i < |via| - 1
      ensures Cell(via[i], r.level) in next && next[Cell(via[i], r.level)] == via[i + 1]
    {
      assert Cell(via[i], r.level) in feed && feed[Cell(via[i], r.level)] == via[i + 1];
      assert via[i + 1] in via;
      HopKept(routes, next, virtuals, scope, from, to, Cell(via[i], r.level));
    }
  }

  lemma VirtualCommutesIff(routes: seq<RouteSpec>, again: seq<RouteSpec>, virtuals: set<string>, scope: Option<string>,
                           from: string, to: string, r: RouteSpec)
    requires from !in virtuals && to !in virtuals && r.srce in virtuals
    requires AllTold(routes) && Thinned(FeedOf(again), FeedOf(Replaced(routes, scope, from, to)))
    ensures CommutesIn(again, routes, virtuals, scope, from, to, r)
       <==> !(NoRoute(to) && Through(routes, virtuals, scope, from, r))
  {
    var next := FeedOf(again);
    var res := ResolutionOf(FeedOf(routes), virtuals, r.srce, r.level);
    FirstHop(FeedOf(routes), virtuals, r.srce, r.level);
    var expected := if NoRoute(to) && Through(routes, virtuals, scope, from, r) then Resolution("", res.via, Unfed)
                    else Renamed(scope, from, to, r.level, res);
    ExpectedResolves(routes, next, virtuals, scope, from, to, r, expected);
    ResolutionUnique(next, virtuals, r.srce, r.level, expected, ResolutionOf(next, virtuals, r.srce, r.level));
  }

  lemma ExpectedResolves(routes: seq<RouteSpec>, next: Feed, virtuals: set<string>, scope: Option<string>,
                         from: string, to: string, r: RouteSpec, expected: Resolution)
    requires from !in virtuals && to !in virtuals && r.srce in virtuals
    requires AllTold(routes) && Thinned(next, FeedOf(Replaced(routes, scope, from, to)))
    requires var res := ResolutionOf(FeedOf(routes), virtuals, r.srce, r.level);
      expected == if NoRoute(to) && Through(routes, virtuals, scope, from, r) then Resolution("", res.via, Unfed)
                  else Renamed(scope, from, to, r.level, res)
    ensures Resolves(next, virtuals, r.srce, r.level, expected)
  {
    var res := ResolutionOf(FeedOf(routes), virtuals, r.srce, r.level);
    FirstHop(FeedOf(routes), virtuals, r.srce, r.level);
    ChainKept(routes, next, virtuals, scope, from, to, r);
    HopKept(routes, next, virtuals, scope, from, to, Cell(res.via[|res.via| - 1], r.level));
  }

  lemma PhysicalRowCommutes(routes: seq<RouteSpec>, again: seq<RouteSpec>, virtuals: set<string>,
                            scope: Option<string>, from: string, to: string, r: RouteSpec)
    requires from !in virtuals && to !in virtuals && r.srce !in virtuals
    ensures CommutesIn(again, routes, virtuals, scope, from, to, r) && !Through(routes, virtuals, scope, from, r)
  {
    FirstHop(FeedOf(routes), virtuals, r.srce, r.level);
    FirstHop(FeedOf(again), virtuals, Substituted(scope, from, to, r).srce, r.level);
  }

  /** The resolutions of the snapshot taken after the run: each affected cell's effective
      source is the replacement, every other effective source, every list of hops and every
      mark is as before, exactly when both sources are physical and no virtual is left
      without a feed, or nothing was carried. */
  lemma ReplacedSnapshotCommutesIff(srv: Cells, routes: seq<RouteSpec>, virtuals: set<string>, scope: Option<string>,
                                    from: string, to: string, again: seq<RouteSpec>)
    requires Reports(routes, srv) && OneSource(routes) && OneSource(again) && from != to
    requires Reports(again, Run(srv, ReplacePlan(routes, scope, from, to), Everything()))
    ensures (forall r :: r in routes ==> CommutesIn(again, routes, virtuals, scope, from, to, r))
       <==> (from !in virtuals && to !in virtuals
             && (!NoRoute(to) || forall r :: r in routes ==> !Through(routes, virtuals, scope, from, r)))
            || !Carried(routes, scope, from)
  {
    ReplaceConverges(srv, routes, scope, from, to, again);
    ReportedTold(routes, srv);
    AgainThinned(routes, scope, from, to, again);
    if !Carried(routes, scope, from) {
      NothingToReplace(routes, scope, from, to);
      SameFeed(FeedOf(again), FeedOf(routes));
      forall r | r in routes
        ensures CommutesIn(again, routes, virtuals, scope, from, to, r)
      {
        NotEffective(routes, virtuals, scope, from, r);
      }
    } else if from !in virtuals && to !in virtuals {
      forall r | r in routes
        ensures CommutesIn(again, routes, virtuals, scope, from, to, r)
           <==> !(NoRoute(to) && Through(routes, virtuals, scope, from, r))
      {
        if r.srce in virtuals {
          VirtualCommutesIff(routes, again, virtuals, scope, from, to, r);
        } else {
          PhysicalRowCommutes(routes, again, virtuals, scope, from, to, r);
        }
      }
    } else {
      var r :| r in routes && InScope(scope, r.level) && r.srce == from;
      FirstHop(FeedOf(routes), virtuals, from, r.level);
      FirstHop(FeedOf(again), virtuals, to, r.level);
      assert !CommutesIn(again, routes, virtuals, scope, from, to, r);
    }
  }

  lemma SameFeed(next: Feed, full: Feed)
    requires Thinned(next, full) && forall k :: k in full ==> !NoRoute(full[k])
    ensures next == full
  {
  }

  /** Cells the next snapshot no longer tells of at all. */
  lemma CellsStayToldIff(srv: Cells, routes: seq<RouteSpec>, scope: Option<string>, from: string, to: string,
                         again: seq<RouteSpec>)
    requires Reports(routes, srv) && OneSource(routes) && OneSource(again) && from != to
    requires Reports(again, Run(srv, ReplacePlan(routes, scope, from, to), Everything()))
    ensures (forall r :: r in routes ==> Substituted(scope, from, to, r) in again)
       <==> !NoRoute(to) || !Carried(routes, scope, from)
  {
    forall r | r in routes
      ensures Substituted(scope, from, to, r) in again <==> !(NoRoute(to) && InScope(scope, r.level) && r.srce == from)
    {
      ToldRow(srv, routes, scope, from, to, again, r);
      RowHeld(routes, r);
    }
  }

  lemma TwoRows(r: RouteSpec, q: RouteSpec)
    requires CellOf(r) != CellOf(q)
    ensures CellsOf([r]) == map[CellOf(r) := Held(r.srce, r.srceLevel)]
    ensures CellsOf([r, q]) == CellsOf([r])[CellOf(q) := Held(q.srce, q.srceLevel)]
    ensures FeedOf([r]) == map[CellOf(r) := r.srce] && FeedOf([r, q]) == FeedOf([r])[CellOf(q) := q.srce]
  {
    assert [r, q][..1] == [r] && [r][..0] == [];
    assert CellsOf([]) == map[] && FeedOf([]) == map[];
  }

  lemma SecondReplaced(r: RouteSpec, q: RouteSpec, to: string)
    requires r.srce != q.srce
    ensures ReplacePlan([r, q], None, q.srce, to) == [RouteChange(q.dest, q.level, q.srce, to, q.srceLevel)]
  {
    assert [r, q][..1] == [r] && [r][..0] == [];
    assert ReplacePlan([], None, q.srce, to) == [] && ReplacePlan([r], None, q.srce, to) == [];
  }

  /** A row whose source is replaced by a no-route one drops out of the snapshot. */
  lemma SecondDropsOut(r: RouteSpec, q: RouteSpec, to: string)
    requires CellOf(r) != CellOf(q) && r.srce != q.srce && NoRoute(to) && !NoRoute(r.srce) && !NoRoute(q.srce)
    ensures Reports([r, q], CellsOf([r, q]))
    ensures Reports([r], Run(CellsOf([r, q]), ReplacePlan([r, q], None, q.srce, to), Everything()))
  {
    var cells, k := CellsOf([r]), CellOf(q);
    TwoRows(r, q);
    SecondReplaced(r, q, to);
    var c := RouteChange(q.dest, q.level, q.srce, to, q.srceLevel);
    RunOne(CellsOf([r, q]), c);
    assert Reported(cells) == cells;
    OneMoreCell(cells, k, Held(q.srce, q.srceLevel));
    OneMoreCell(cells, k, Held(to, q.srceLevel));
    assert Apply(CellsOf([r, q]), c) == cells[k := Held(to, q.srceLevel)];
  }

  lemma OneMoreCell(cells: Cells, k: Cell, held: Held)
    requires k !in cells && Reported(cells) == cells
    ensures Reported(cells[k := held]) == if NoRoute(held.srce) then cells else cells[k := held]
  {
    assert forall j :: j in cells ==> j in Reported(cells) && !NoRoute(cells[j].srce);
  }

  lemma RunOne(cells: Cells, c: RouteChange)
    ensures Run(cells, [c], Everything()) == Apply(cells, c)
  {
    assert [c][..0] == [] && Run(cells, [], Everything()) == cells;
  }

  lemma PlainIds()
    ensures !NoRoute("v") && !NoRoute("5") && NoRoute("0")
  {
    assert !IsDigit("v"[0]);
    assert "5"[..0] == [] && Decimal("5") == 5;
  }

  /** Destination d takes the virtual v, which takes 5; replacing 5 by 0 leaves v without a
      feed in the next snapshot. */
  lemma NoRouteUnfeeds()
    ensures var routes := [RouteSpec("d", "v", "1", ""), RouteSpec("v", "5", "1", "")];
      var again := [RouteSpec("d", "v", "1", "")];
      && Reports(routes, CellsOf(routes))
      && Reports(again, Run(CellsOf(routes), ReplacePlan(routes, None, "5", "0"), Everything()))
      && ResolutionOf(FeedOf(routes), {"v"}, "v", "1") == Resolution("5", ["v"], Plain)
      && ResolutionOf(FeedOf(again), {"v"}, "v", "1") == Resolution("", ["v"], Unfed)
  {
    var r, q := RouteSpec("d", "v", "1", ""), RouteSpec("v", "5", "1", "");
    PlainIds();
    SecondDropsOut(r, q, "0");
    TwoRows(r, q);
    OneHop(FeedOf([r, q]), "v", "1");
    OneHop(FeedOf([r]), "v", "1");
  }

  lemma OneHop(feed: Feed, v: string, level: string)
    requires Cell(v, level) in feed ==> feed[Cell(v, level)] != v
    ensures ResolutionOf(feed, {v}, v, level) ==
      if Cell(v, level) in feed then Resolution(feed[Cell(v, level)], [v], Plain) else Resolution("", [v], Unfed)
  {
    var r := if Cell(v, level) in feed then Resolution(feed[Cell(v, level)], [v], Plain)
             else Resolution("", [v], Unfed);
    assert Resolves(feed, {v}, v, level, r);
    ResolutionUnique(feed, {v}, v, level, r, ResolutionOf(feed, {v}, v, level));
  }

  // ---- a snapshot with stale rows ----

  /** What the cell is to hold after the replacement. */
  function Exchanged(scope: Option<string>, from: string, to: string, k: Cell, held: Held): Held {
    if InScope(scope, k.level) && held.srce == from then Held(to, held.srceLevel) else held
  }

  ghost predicate CellExchanged(srv: Cells, routes: seq<RouteSpec>, scope: Option<string>, from: string, to: string,
                                k: Cell) {
    var after := Run(srv, ReplacePlan(routes, scope, from, to), Everything());
    && (k in after <==> k in srv)
    && (k in srv ==> after[k] == if k in Reported(srv) then Exchanged(scope, from, to, k, srv[k]) else srv[k])
  }

  /** The last action on a cell was read off its current row, or sets what the cell holds. */
  predicate LastIsCurrent(srv: Cells, plan: seq<RouteChange>, k: Cell) {
    match LastOn(plan, k)
    case None => true
    case Some(c) => k in srv && (srv[k].srce == c.from || srv[k] == Held(c.to, c.srceLevel))
  }

  /** The last action on a cell whose current row carries the source keeps its source level. */
  lemma {:induction false} CurrentRowLast(routes: seq<RouteSpec>, scope: Option<string>, from: string, to: string,
                                          k: Cell)
    requires k in CellsOf(routes) && InScope(scope, k.level) && CellsOf(routes)[k].srce == from
    ensures LastOn(ReplacePlan(routes, scope, from, to), k)
         == Some(RouteChange(k.dest, k.level, from, to, CellsOf(routes)[k].srceLevel))
  {
    var front, last := routes[..|routes| - 1], routes[|routes| - 1];
    var before := ReplacePlan(front, scope, from, to);
    if CellOf(last) != k {
      CurrentRowLast(front, scope, from, to, k);
      var c := RouteChange(last.dest, last.level, from, to, last.srceLevel);
      assert (before + [c])[..|before|] == before;
    }
  }

  /** A snapshot may list a cell several times, the last row being the current one. The
      replacement then exchanges the source of just the cells that carry it exactly when no
      cell is left with an action read off a stale row. */
  lemma ReplaceExchangesIff(srv: Cells, routes: seq<RouteSpec>, scope: Option<string>, from: string, to: string)
    requires Reports(routes, srv)
    ensures (forall k :: CellExchanged(srv, routes, scope, from, to, k))
       <==> forall k :: LastIsCurrent(srv, ReplacePlan(routes, scope, from, to), k)
  {
    var plan := ReplacePlan(routes, scope, from, to);
    if k :| !LastIsCurrent(srv, plan, k) {
      CellExchangedIff(srv, routes, scope, from, to, k);
      assert !CellExchanged(srv, routes, scope, from, to, k);
    } else {
      forall k
        ensures CellExchanged(srv, routes, scope, from, to, k)
      {
        CellExchangedIff(srv, routes, scope, from, to, k);
        assert LastIsCurrent(srv, plan, k);
      }
    }
  }

  lemma CellExchangedIff(srv: Cells, routes: seq<RouteSpec>, scope: Option<string>, from: string, to: string, k: Cell)
    requires Reports(routes, srv)
    ensures CellExchanged(srv, routes, scope, from, to, k)
       <==> LastIsCurrent(srv, ReplacePlan(routes, scope, from, to), k)
  {
    var plan := ReplacePlan(routes, scope, from, to);
    LastDecides(srv, plan, k);
    if LastOn(plan, k).Some? {
      PlanMembers(routes, scope, from, to, LastOn(plan, k).value);
      var r :| r in routes && CellOf(r) == k && InScope(scope, r.level);
      RowTold(routes, r);
    }
    if k in Reported(srv) && InScope(scope, k.level) && srv[k].srce == from {
      CurrentRowLast(routes, scope, from, to, k);
    }
  }

  lemma {:induction false} RowTold(routes: seq<RouteSpec>, r: RouteSpec)
    requires r in routes
    ensures CellOf(r) in CellsOf(routes)
  {
    var front, last := routes[..|routes| - 1], routes[|routes| - 1];
    assert routes == front + [last];
    if r != last {
      RowTold(front, r);
    }
  }

  /** A cell that went from 5 to 7 while the snapshot was taken: replacing 5 by 9 takes 7
      from it. */
  lemma StaleRowReplaced()
    ensures var routes, k := [RouteSpec("1", "5", "1", ""), RouteSpec("1", "7", "1", "")], Cell("1", "1");
      var srv := map[k := Held("7", "")];
      && Reports(routes, srv)
      && Run(srv, ReplacePlan(routes, None, "5", "9"), Everything()) == map[k := Held("9", "")]
  {
    SevenIsRoute();
    StaleReplaced(RouteSpec("1", "5", "1", ""), RouteSpec("1", "7", "1", ""), "9");
  }

  lemma SevenIsRoute()
    ensures !NoRoute("7")
  {
    assert "7"[..0] == [] && Decimal("7") == 7;
  }

  lemma StaleReplaced(r: RouteSpec, q: RouteSpec, to: string)
    requires CellOf(r) == CellOf(q) && r.srce != q.srce && !NoRoute(q.srce)
    ensures var srv := map[CellOf(r) := Held(q.srce, q.srceLevel)];
      && Reports([r, q], srv)
      && Run(srv, ReplacePlan([r, q], None, r.srce, to), Everything()) == map[CellOf(r) := Held(to, r.srceLevel)]
  {
    StaleCells(r, q);
    FirstReplaced(r, q, to);
    RunOne(map[CellOf(r) := Held(q.srce, q.srceLevel)], RouteChange(r.dest, r.level, r.srce, to, r.srceLevel));
  }

  lemma StaleCells(r: RouteSpec, q: RouteSpec)
    requires CellOf(r) == CellOf(q)
    ensures CellsOf([r, q]) == map[CellOf(r) := Held(q.srce, q.srceLevel)]
  {
    assert [r, q][..1] == [r] && [r][..0] == [] && CellsOf([]) == map[];
  }

  lemma FirstReplaced(r: RouteSpec, q: RouteSpec, to: string)
    requires r.srce != q.srce
    ensures ReplacePlan([r, q], None, r.srce, to) == [RouteChange(r.dest, r.level, r.srce, to, r.srceLevel)]
  {
    assert [r, q][..1] == [r] && [r][..0] == [];
    assert ReplacePlan([], None, r.srce, to) == [];
  }

  // ---- the same in plain terms ----

  function Carrying(scope: Option<string>, from: string): RouteSpec -> bool {
    (r: RouteSpec) => r.srce == from && (scope == None || scope == Some(r.level))
  }

  function Rerouting(to: string): RouteSpec -> RouteChange {
    (r: RouteSpec) => RouteChange(r.dest, r.level, r.srce, to, r.srceLevel)
  }

  /** One action for every row with the source, on the one level or on any, in order. */
  lemma {:induction false} PlanPlain(routes: seq<RouteSpec>, scope: Option<string>, from: string, to: string)
    ensures ReplacePlan(routes, scope, from, to) == Mapped(Rerouting(to), Filter(Carrying(scope, from), routes))
  {
    if routes != [] {
      var front, last := routes[..|routes| - 1], routes[|routes| - 1];
      PlanPlain(front, scope, from, to);
      assert routes == front + [last];
      FilterLast(Carrying(scope, from), front, last);
      MappedLast(Rerouting(to), Filter(Carrying(scope, from), front), last);
    }
  }
}
