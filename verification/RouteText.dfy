/** The plan compares sources by their text: what the text says about the source. */
module RouteText {
  import opened Text
  import opened Routes

  predicate MarkAt(s: string, i: nat) {
    i + 4 <= |s| && s[i..i + 4] == "@lvl"
  }

  /** A same-level source has a second, cross-level reading exactly when "@lvl" stands
      strictly inside it. */
  lemma SecondReadingIff(srce: string)
    ensures (exists i: nat :: 0 < i && i + 4 < |srce| && MarkAt(srce, i))
       <==> exists s, l :: s != "" && l != "" && RouteSource(s, l) == srce
  {
    forall i: nat | 0 < i && i + 4 < |srce| && MarkAt(srce, i)
      ensures exists s, l :: s != "" && l != "" && RouteSource(s, l) == srce
    {
      assert srce == srce[..i] + "@lvl" + srce[i + 4..];
      assert RouteSource(srce[..i], srce[i + 4..]) == srce;
    }
    forall s, l | s != "" && l != "" && RouteSource(s, l) == srce
      ensures exists i: nat :: 0 < i && i + 4 < |srce| && MarkAt(srce, i)
    {
      assert MarkAt(srce, |s|);
    }
  }

  // ---- when the text tells sources apart ----

  /** `t` begins with `s` and the level mark. */
  predicate Extends(s: string, t: string) {
    s + "@lvl" <= t
  }

  ghost predicate Unextended(srces: set<string>) {
    forall s, t :: s in srces && t in srces ==> !Extends(s, t)
  }

  ghost predicate ToldApart(srces: set<string>, a: Held, b: Held) {
    a.srce in srces && b.srce in srces && RouteSource(a.srce, a.srceLevel) == RouteSource(b.srce, b.srceLevel) ==>
      a == b
  }

  lemma ShorterExtended(a: Held, b: Held)
    requires a.srce != "" && b.srce != "" && |a.srce| < |b.srce|
    requires RouteSource(a.srce, a.srceLevel) == RouteSource(b.srce, b.srceLevel)
    ensures Extends(a.srce, b.srce)
  {
    var t := RouteSource(a.srce, a.srceLevel);
    var n, m := |a.srce|, |b.srce|;
    assert a.srceLevel != "" && t[..n] == a.srce && t[..m] == b.srce;
    assert t == a.srce + "@lvl" + a.srceLevel;
    assert t[n] == '@' && t[n + 1] == 'l' && t[n + 2] == 'v' && t[n + 3] == 'l';
    if b.srceLevel != "" {
      assert t[m] == '@';
    }
    assert m >= n + 4;
    assert b.srce[..n] == a.srce && b.srce[n..n + 4] == "@lvl";
    assert b.srce == (a.srce + "@lvl") + b.srce[n + 4..];
  }

  lemma SameLength(a: Held, b: Held)
    requires a.srce != "" && b.srce != "" && |a.srce| == |b.srce|
    requires RouteSource(a.srce, a.srceLevel) == RouteSource(b.srce, b.srceLevel)
    ensures a == b
  {
    var t := RouteSource(a.srce, a.srceLevel);
    assert a.srce == t[..|a.srce|] && b.srce == t[..|b.srce|];
    if a.srceLevel != "" {
      assert a.srceLevel == t[|a.srce| + 4..];
    }
    if b.srceLevel != "" {
      assert b.srceLevel == t[|b.srce| + 4..];
    }
  }

  lemma ExtensionCollides(s: string, t: string) returns (a: Held, b: Held)
    requires s != "" && Extends(s, t)
    ensures a.srce == t && b.srce == s && a != b && RouteSource(a.srce, a.srceLevel) == RouteSource(b.srce, b.srceLevel)
  {
    var rest := t[|s| + 4..];
    assert t == s + "@lvl" + rest;
    if rest != "" {
      a, b := Held(t, ""), Held(s, rest);
    } else {
      a, b := Held(t, "x"), Held(s, "@lvlx");
      assert s + "@lvl" + "" + "@lvl" + "x" == s + "@lvl" + "@lvlx";
    }
  }

  /** The text tells all sources apart, on whatever source level, exactly when no source ID
      begins with another and the level mark. */
  lemma TextTellsIff(srces: set<string>)
    requires "" !in srces
    ensures Unextended(srces) <==> forall a, b :: ToldApart(srces, a, b)
  {
    if Unextended(srces) {
      forall a, b
        ensures ToldApart(srces, a, b)
      {
        TextTells(srces, a, b);
      }
    } else {
      var s, t :| s in srces && t in srces && Extends(s, t);
      var a, b := ExtensionCollides(s, t);
      assert !ToldApart(srces, a, b);
    }
  }

  lemma TextTells(srces: set<string>, a: Held, b: Held)
    requires "" !in srces && Unextended(srces)
    ensures ToldApart(srces, a, b)
  {
    if a.srce in srces && b.srce in srces && RouteSource(a.srce, a.srceLevel) == RouteSource(b.srce, b.srceLevel) {
      if |a.srce| < |b.srce| {
        ShorterExtended(a, b);
      } else if |b.srce| < |a.srce| {
        ShorterExtended(b, a);
      } else {
        SameLength(a, b);
      }
    }
  }

  // ---- what a run leaves in the cells ----

  /** A cell that shows its goal holds exactly the desired source and source level. */
  lemma ShownIsHeld(srces: set<string>, cells: Cells, d: RouteSpec)
    requires "" !in srces && Unextended(srces)
    requires d.srce in srces && forall k :: k in cells ==> cells[k].srce in srces
    requires Shown(cells, CellOf(d)) == Goal(d)
    ensures CellOf(d) in cells && cells[CellOf(d)] == Wanted(d)
  {
    if CellOf(d) in cells {
      TextTells(srces, cells[CellOf(d)], Wanted(d));
      assert ToldApart(srces, cells[CellOf(d)], Wanted(d));
    }
  }

  ghost predicate WrittenFrom(srces: set<string>, rows: seq<RouteSpec>) {
    forall r :: r in rows ==> r.srce in srces
  }

  lemma {:induction false} CellsFrom(srces: set<string>, live: seq<RouteSpec>)
    requires WrittenFrom(srces, live)
    ensures forall k :: k in CellsOf(live) ==> CellsOf(live)[k].srce in srces
  {
    if live != [] {
      assert live == live[..|live| - 1] + [live[|live| - 1]];
      CellsFrom(srces, live[..|live| - 1]);
    }
  }

  /** After a run of the whole plan the cell of the row holds what the row wants. */
  ghost predicate HeldAfter(srv: Cells, live: seq<RouteSpec>, desired: seq<RouteSpec>, d: RouteSpec) {
    var after := Run(srv, RouteDiff(live, desired), Everything());
    CellOf(d) in after && after[CellOf(d)] == Wanted(d)
  }

  lemma TextAgrees(srces: set<string>, desired: seq<RouteSpec>)
    requires "" !in srces && Unextended(srces) && WrittenFrom(srces, desired)
    ensures Telling(desired) && Sourced(desired)
  {
    forall d, e | d in desired && e in desired && CellOf(d) == CellOf(e) && Goal(d) == Goal(e)
      ensures d.srce == e.srce
    {
      TextTells(srces, Wanted(d), Wanted(e));
      assert ToldApart(srces, Wanted(d), Wanted(e));
    }
  }

  /** With such IDs in the snapshot and the file, every desired cell ends up holding exactly
      its source, from exactly its source level. */
  lemma RoutesHold(srces: set<string>, srv: Cells, live: seq<RouteSpec>, desired: seq<RouteSpec>, d: RouteSpec)
    requires "" !in srces && Unextended(srces) && WrittenFrom(srces, live) && WrittenFrom(srces, desired)
    requires Reports(live, srv) && Consistent(desired) && d in desired
    ensures HeldAfter(srv, live, desired, d)
  {
    TextAgrees(srces, desired);
    AgreedIff(desired);
    CellAfter(srv, live, desired, Everything(), d);
    if !Planned(live, d) {
      CellsFrom(srces, live);
      ShownIsHeld(srces, CellsOf(live), d);
    }
  }

  /** Over such IDs a second run plans nothing exactly when the file asks no cell for two
      sources and names no source that is no route. */
  lemma SettlesIff(srces: set<string>, srv: Cells, live: seq<RouteSpec>, desired: seq<RouteSpec>, again: seq<RouteSpec>)
    requires "" !in srces && Unextended(srces) && WrittenFrom(srces, live) && WrittenFrom(srces, desired)
    requires Reports(live, srv) && Reports(again, Run(srv, RouteDiff(live, desired), Everything()))
    ensures RouteDiff(again, desired) == [] <==> Consistent(desired) && forall d :: d in desired ==> !NoRoute(d.srce)
  {
    RunTwiceIsZeroIff(srv, live, desired, again);
    if Consistent(desired) {
      TextAgrees(srces, desired);
      AgreedIff(desired);
      forall k
        ensures LastOn(RouteDiff(live, desired), k).Some? ==>
          exists d :: d in desired && CellOf(d) == k && d.srce == LastOn(RouteDiff(live, desired), k).value.to
      {
        OnlyNamedCells(srv, live, desired, k);
      }
      forall d | d in desired && NoRoute(d.srce)
        ensures !LeftTold(RouteDiff(live, desired), CellOf(d))
      {
        NoRoutePlanned(srces, srv, live, desired, d);
      }
    }
  }

  lemma NoRoutePlanned(srces: set<string>, srv: Cells, live: seq<RouteSpec>, desired: seq<RouteSpec>, d: RouteSpec)
    requires "" !in srces && Unextended(srces) && WrittenFrom(srces, live) && WrittenFrom(srces, desired)
    requires Reports(live, srv) && Agreed(desired) && d in desired && NoRoute(d.srce)
    ensures !LeftTold(RouteDiff(live, desired), CellOf(d))
  {
    if !Planned(live, d) {
      CellsFrom(srces, live);
      ShownIsHeld(srces, CellsOf(live), d);
    }
    PlanMember(live, desired, ChangeFor(CellsOf(live), d));
    LastDecides(srv, RouteDiff(live, desired), CellOf(d));
    OnlyNamedCells(srv, live, desired, CellOf(d));
  }

  ghost predicate AlwaysHeld(srces: set<string>, srv: Cells, live: seq<RouteSpec>, desired: seq<RouteSpec>,
                             d: RouteSpec) {
    && WrittenFrom(srces, live) && WrittenFrom(srces, desired)
    && Reports(live, srv) && Consistent(desired) && d in desired
    ==> HeldAfter(srv, live, desired, d)
  }

  /** One cell that holds `a` where the file wants `b`, which reads the same. */
  lemma ReadsTheSame(a: Held, b: Held) returns (live: seq<RouteSpec>, d: RouteSpec)
    requires a != b && RouteSource(a.srce, a.srceLevel) == RouteSource(b.srce, b.srceLevel) && !NoRoute(a.srce)
    ensures live == [RouteSpec("1", a.srce, d.level, a.srceLevel)] && d.srce == b.srce
    ensures Reports(live, CellsOf(live)) && RouteDiff(live, [d]) == [] && !HeldAfter(CellsOf(live), live, [d], d)
  {
    var level := b.srceLevel + "0";
    live, d := [RouteSpec("1", a.srce, level, a.srceLevel)], RouteSpec("1", b.srce, level, b.srceLevel);
    assert live[..0] == [];
    assert CellsOf(live) == map[Cell("1", level) := a];
    assert |level| != |b.srceLevel| && Wanted(d) == b;
    PlanEmpty(live, [d]);
  }

  /** Every run over a set of source IDs leaves what was wanted, not only what reads like it,
      exactly when no ID begins with another and the level mark. */
  lemma RoutesHoldIff(srces: set<string>)
    requires "" !in srces
    ensures Unextended(srces) <==> forall srv, live, desired, d :: AlwaysHeld(srces, srv, live, desired, d)
  {
    if Unextended(srces) {
      forall srv, live, desired, d
        ensures AlwaysHeld(srces, srv, live, desired, d)
      {
        if WrittenFrom(srces, live) && WrittenFrom(srces, desired) && Reports(live, srv) && Consistent(desired)
          && d in desired {
          RoutesHold(srces, srv, live, desired, d);
        }
      }
    } else {
      var s, t :| s in srces && t in srces && Extends(s, t);
      var a, b := ExtensionCollides(s, t);
      assert t[|s|] == '@' && !IsDigit(t[|s|]);
      var live, d := ReadsTheSame(a, b);
      assert !AlwaysHeld(srces, CellsOf(live), live, [d], d);
    }
  }

  /** A concrete snapshot and file: nothing is planned, and the cell holds something else. */
  lemma SameTextOtherSource()
    ensures var live := [RouteSpec("1", "5@lvl2", "1", "")];
      var desired := [RouteSpec("1", "5", "1", "2")];
      RouteDiff(live, desired) == [] && CellsOf(live)[Cell("1", "1")] != Held("5", "2")
  {
    var live := [RouteSpec("1", "5@lvl2", "1", "")];
    var desired := [RouteSpec("1", "5", "1", "2")];
    assert CellsOf(live) == map[Cell("1", "1") := Held("5@lvl2", "")];
    assert RouteSource("5", "2") == "5@lvl2";
    PlanEmpty(live, desired);
  }
}
