/** Source usage: following a source upstream through virtual resources, and replacing one
    source by another without disturbing that. */
module Virtuals {
  import opened Wrappers
  import opened Routes

  datatype Mnemonic = Mnemonic(id: string, name: string)

  /** Marks how a chain ends when it does not end at a physical source. */
  datatype Mark = Plain | Loop | Unfed

  datatype Resolution = Resolution(effective: string, via: seq<string>, mark: Mark)

  /** Which source feeds each cell. */
  type Feed = map<Cell, string>

  /** What feeds each cell of a snapshot. */
  function FeedOf(routes: seq<RouteSpec>): Feed {
    if routes == [] then map[]
    else
      var r := routes[|routes| - 1];
      FeedOf(routes[..|routes| - 1])[CellOf(r) := r.srce]
  }

  lemma {:induction false} FeedHasRow(routes: seq<RouteSpec>, k: Cell)
    requires k in FeedOf(routes)
    ensures exists r :: r in routes && CellOf(r) == k && r.srce == FeedOf(routes)[k]
  {
    var front, last := routes[..|routes| - 1], routes[|routes| - 1];
    assert routes == front + [last];
    if CellOf(last) == k {
      assert last in routes;
    } else {
      FeedHasRow(front, k);
    }
  }

  /** What feeds a cell that all its rows agree on. */
  lemma {:induction false} FeedHolds(routes: seq<RouteSpec>, r: RouteSpec)
    requires r in routes && forall q :: q in routes && CellOf(q) == CellOf(r) ==> q.srce == r.srce
    ensures CellOf(r) in FeedOf(routes) && FeedOf(routes)[CellOf(r)] == r.srce
  {
    var front, last := routes[..|routes| - 1], routes[|routes| - 1];
    assert routes == front + [last];
    if CellOf(last) != CellOf(r) {
      FeedHolds(front, r);
    }
  }

  // ---- which IDs are virtual ----

  /** The name a list of labels gives an ID: that of its last complete row. */
  function NameIn(rows: seq<Mnemonic>, id: string): Option<string> {
    if rows == [] then None
    else
      var r := rows[|rows| - 1];
      if r.id == id && r.id != "" && r.name != "" then Some(r.name) else NameIn(rows[..|rows| - 1], id)
  }

  /** An ID is virtual when the destination side names it as the source side does. */
  ghost predicate IsVirtual(src: seq<Mnemonic>, dst: seq<Mnemonic>, id: string) {
    exists i :: 0 <= i < |dst| && dst[i].id == id && dst[i].name != "" && NameIn(src, id) == Some(dst[i].name)
  }

  lemma {:induction false} NoNameForEmpty(rows: seq<Mnemonic>)
    ensures NameIn(rows, "") == None
  {
    if rows != [] {
      NoNameForEmpty(rows[..|rows| - 1]);
    }
  }

  method DetectVirtuals(src: seq<Mnemonic>, dst: seq<Mnemonic>) returns (out: set<string>)
    ensures forall id :: id in out <==> IsVirtual(src, dst, id)
  {
    var names: map<string, string> := map[];
    for i := 0 to |src|
      invariant forall id :: NameIn(src[..i], id) == if id in names then Some(names[id]) else None
    {
      var r := src[i];
      assert src[..i + 1][..i] == src[..i];
      if r.id != "" && r.name != "" {
        names := names[r.id := r.name];
      }
    }
    assert src[..|src|] == src;
    NoNameForEmpty(src);
    out := {};
    for i := 0 to |dst|
      invariant forall id :: id in out <==>
        exists j :: 0 <= j < i && dst[j].id == id && dst[j].name != "" && NameIn(src, id) == Some(dst[j].name)
    {
      var r := dst[i];
      if r.id == "" || r.name == "" {
        continue;
      }
      if r.id in names && names[r.id] == r.name {
        out := out + {r.id};
      }
    }
  }

  // ---- following a chain ----

  /** Each hop is fed by the next on the level. */
  ghost predicate Linked(feed: Feed, level: string, via: seq<string>) {
    forall i :: 0 <= i < |via| - 1 ==> Cell(via[i], level) in feed && feed[Cell(via[i], level)] == via[i + 1]
  }

  ghost predicate NoRepeat(s: seq<string>) {
    forall i, j :: 0 <= i < j < |s| ==> s[i] != s[j]
  }

  /** What stands upstream of the last hop; the source itself when there is no hop. */
  function Upstream(feed: Feed, level: string, srce: string, via: seq<string>): Option<string> {
    if via == [] then Some(srce)
    else
      var last := Cell(via[|via| - 1], level);
      if last in feed then Some(feed[last]) else None
  }

  /** `via` is a duplicate-free chain of virtuals from `srce` on the level. */
  ghost predicate Crosses(feed: Feed, virtuals: set<string>, srce: string, level: string, via: seq<string>) {
    && (via != [] ==> via[0] == srce)
    && (forall v :: v in via ==> v in virtuals)
    && NoRepeat(via) && Linked(feed, level, via)
  }

  /** The meaning of a resolution: the chain ends at the first source that is not virtual,
      or at a virtual without a feed, or where it meets itself again. */
  ghost predicate Resolves(feed: Feed, virtuals: set<string>, srce: string, level: string, r: Resolution) {
    && Crosses(feed, virtuals, srce, level, r.via)
    && var up := Upstream(feed, level, srce, r.via);
    match r.mark
    case Plain => up == Some(r.effective) && r.effective !in virtuals
    case Unfed => up == None && r.effective == ""
    case Loop => up.Some? && up.value in r.via && r.effective == ""
  }

  lemma DistinctWithin(via: seq<string>, virtuals: set<string>)
    requires NoRepeat(via) && forall v :: v in via ==> v in virtuals
    ensures |via| <= |virtuals|
  {
    if via != [] {
      var front, last := via[..|via| - 1], via[|via| - 1];
      assert last in via && forall v :: v in front ==> v in via && v != last;
      DistinctWithin(front, virtuals - {last});
    }
  }

  /** Whatever the feeds, even looping ones, the walk ends with the resolution. */
  method ResolveSource(srce: string, level: string, feed: Feed, virtuals: set<string>)
    returns (effective: string, via: seq<string>, mark: Mark)
    ensures Resolves(feed, virtuals, srce, level, Resolution(effective, via, mark))
  {
    var cur := srce;
    var seen: set<string> := {};
    via := [];
    while cur in virtuals
      invariant Crosses(feed, virtuals, srce, level, via)
      invariant seen == set v | v in via
      invariant Upstream(feed, level, srce, via) == Some(cur)
      decreases |virtuals| - |via|
    {
      if cur in seen {
        return "", via, Loop;
      }
      seen := seen + {cur};
      via := via + [cur];
      DistinctWithin(via, virtuals);
      if Cell(cur, level) !in feed {
        return "", via, Unfed;
      }
      cur := feed[Cell(cur, level)];
    }
    return cur, via, Plain;
  }

  lemma {:induction false} SameHops(feed: Feed, virtuals: set<string>, srce: string, level: string, a: seq<string>,
                                    b: seq<string>, n: nat)
    requires Crosses(feed, virtuals, srce, level, a) && Crosses(feed, virtuals, srce, level, b)
    requires n <= |a| && n <= |b|
    ensures a[..n] == b[..n]
  {
    if n > 0 {
      SameHops(feed, virtuals, srce, level, a, b, n - 1);
      if n > 1 {
        assert a[n - 2] == a[..n - 1][n - 2] && b[n - 2] == b[..n - 1][n - 2];
        assert feed[Cell(a[n - 2], level)] == a[(n - 2) + 1];
        assert feed[Cell(b[n - 2], level)] == b[(n - 2) + 1];
      }
      assert a[..n] == a[..n - 1] + [a[n - 1]] && b[..n] == b[..n - 1] + [b[n - 1]];
    }
  }

  /** A longer crossing passes through whatever stands upstream of the shorter. */
  lemma Continues(feed: Feed, virtuals: set<string>, srce: string, level: string, a: seq<string>, b: seq<string>)
    requires Crosses(feed, virtuals, srce, level, a) && Crosses(feed, virtuals, srce, level, b)
    requires |a| < |b|
    ensures Upstream(feed, level, srce, a) == Some(b[|a|]) && b[|a|] in virtuals && b[|a|] !in a
  {
    var n := |a|;
    SameHops(feed, virtuals, srce, level, a, b, n);
    assert a == b[..n];
    assert b[n] in b;
    if n > 0 {
      assert a[n - 1] == b[n - 1];
      assert feed[Cell(b[n - 1], level)] == b[(n - 1) + 1];
    }
  }

  /** A source has one resolution only: the effective source, the hops and the mark are
      functions of the feeds. */
  lemma ResolutionUnique(feed: Feed, virtuals: set<string>, srce: string, level: string, a: Resolution, b: Resolution)
    requires Resolves(feed, virtuals, srce, level, a) && Resolves(feed, virtuals, srce, level, b)
    ensures a == b
  {
    if |a.via| < |b.via| {
      Continues(feed, virtuals, srce, level, a.via, b.via);
    } else if |b.via| < |a.via| {
      Continues(feed, virtuals, srce, level, b.via, a.via);
    } else {
      SameHops(feed, virtuals, srce, level, a.via, b.via, |a.via|);
      assert a.via == a.via[..|a.via|] && b.via == b.via[..|b.via|];
    }
  }

  lemma Resolvable(feed: Feed, virtuals: set<string>, srce: string, level: string, via: seq<string>, cur: string)
    returns (r: Resolution)
    requires Crosses(feed, virtuals, srce, level, via) && Upstream(feed, level, srce, via) == Some(cur)
    ensures Resolves(feed, virtuals, srce, level, r)
    decreases |virtuals| - |via|
  {
    if cur !in virtuals {
      r := Resolution(cur, via, Plain);
    } else if cur in via {
      r := Resolution("", via, Loop);
    } else {
      DistinctWithin(via + [cur], virtuals);
      if Cell(cur, level) !in feed {
        r := Resolution("", via + [cur], Unfed);
      } else {
        r := Resolvable(feed, virtuals, srce, level, via + [cur], feed[Cell(cur, level)]);
      }
    }
  }

  ghost function ResolutionOf(feed: Feed, virtuals: set<string>, srce: string, level: string): (r: Resolution)
    ensures Resolves(feed, virtuals, srce, level, r)
  {
    assert exists r :: Resolves(feed, virtuals, srce, level, r) by {
      var r := Resolvable(feed, virtuals, srce, level, [], srce);
    }
    var r :| Resolves(feed, virtuals, srce, level, r);
    r
  }

  lemma FirstHop(feed: Feed, virtuals: set<string>, srce: string, level: string)
    ensures var r := ResolutionOf(feed, virtuals, srce, level);
      if srce in virtuals then r.via != [] && r.via[0] == srce else r == Resolution(srce, [], Plain)
  {
    var r := ResolutionOf(feed, virtuals, srce, level);
    assert r.via != [] ==> r.via[0] in r.via;
  }

  // ---- marks, seen along the orbit ----

  /** The `n`-th source met going upstream from `srce`; a source that is not virtual, or
      has no feed, has nothing upstream. */
  function Orbit(feed: Feed, virtuals: set<string>, srce: string, level: string, n: nat): Option<string> {
    if n == 0 then Some(srce)
    else
      match Orbit(feed, virtuals, srce, level, n - 1)
      case None => None
      case Some(v) => if v in virtuals && Cell(v, level) in feed then Some(feed[Cell(v, level)]) else None
  }

  lemma {:induction false} OrbitFollowsVia(feed: Feed, virtuals: set<string>, srce: string, level: string,
                                           via: seq<string>, n: nat)
    requires Crosses(feed, virtuals, srce, level, via) && n < |via|
    ensures Orbit(feed, virtuals, srce, level, n) == Some(via[n])
    ensures n == |via| - 1 ==> Orbit(feed, virtuals, srce, level, n + 1) == Upstream(feed, level, srce, via)
  {
    assert via[n] in via;
    if n > 0 {
      OrbitFollowsVia(feed, virtuals, srce, level, via, n - 1);
      assert feed[Cell(via[n - 1], level)] == via[(n - 1) + 1];
    }
  }

  lemma {:induction false} OrbitStaysInLoop(feed: Feed, virtuals: set<string>, srce: string, level: string,
                                            r: Resolution, n: nat)
    requires Resolves(feed, virtuals, srce, level, r) && r.mark == Loop
    ensures Orbit(feed, virtuals, srce, level, n).Some? && Orbit(feed, virtuals, srce, level, n).value in r.via
  {
    if n == 0 {
      assert r.via[0] in r.via;
    } else {
      OrbitStaysInLoop(feed, virtuals, srce, level, r, n - 1);
      var v := Orbit(feed, virtuals, srce, level, n - 1).value;
      var i :| 0 <= i < |r.via| && r.via[i] == v;
      if i < |r.via| - 1 {
        assert feed[Cell(r.via[i], level)] == r.via[i + 1];
      }
    }
  }

  /** How an orbit can end, if it does. */
  ghost predicate EndsAt(feed: Feed, virtuals: set<string>, srce: string, level: string, n: nat, v: string) {
    Orbit(feed, virtuals, srce, level, n) == Some(v) && Orbit(feed, virtuals, srce, level, n + 1) == None
  }

  lemma ResolutionEnds(feed: Feed, virtuals: set<string>, srce: string, level: string, r: Resolution)
    requires Resolves(feed, virtuals, srce, level, r) && r.mark != Loop
    ensures r.mark == Plain ==> EndsAt(feed, virtuals, srce, level, |r.via|, r.effective)
    ensures r.mark == Unfed ==> r.via != [] && EndsAt(feed, virtuals, srce, level, |r.via| - 1, r.via[|r.via| - 1])
  {
    if r.via != [] {
      OrbitFollowsVia(feed, virtuals, srce, level, r.via, |r.via| - 1);
    }
  }

  lemma {:induction false} OrbitEndUnique(feed: Feed, virtuals: set<string>, srce: string, level: string, n: nat,
                                          m: nat)
    requires n < m && Orbit(feed, virtuals, srce, level, n + 1) == None
    ensures Orbit(feed, virtuals, srce, level, m) == None
    decreases m
  {
    if n + 1 < m {
      OrbitEndUnique(feed, virtuals, srce, level, n, m - 1);
    }
  }

  lemma SameEnd(feed: Feed, virtuals: set<string>, srce: string, level: string, n: nat, v: string, m: nat, w: string)
    requires EndsAt(feed, virtuals, srce, level, n, v) && EndsAt(feed, virtuals, srce, level, m, w)
    ensures n == m && v == w
  {
    if n < m {
      OrbitEndUnique(feed, virtuals, srce, level, n, m);
    } else if m < n {
      OrbitEndUnique(feed, virtuals, srce, level, m, n);
    }
  }

  ghost predicate Forever(feed: Feed, virtuals: set<string>, srce: string, level: string) {
    forall n: nat :: Orbit(feed, virtuals, srce, level, n).Some?
  }

  /** The three outcomes, told apart by the orbit alone: "loop" exactly when it never leaves
      the virtuals, "unfed" exactly when it stops at a virtual, an effective source exactly
      when it stops at that physical source. */
  lemma MarksByOrbit(feed: Feed, virtuals: set<string>, srce: string, level: string, r: Resolution)
    requires Resolves(feed, virtuals, srce, level, r)
    ensures r.mark == Loop <==> Forever(feed, virtuals, srce, level)
    ensures r.mark == Unfed <==> exists n: nat, v :: EndsAt(feed, virtuals, srce, level, n, v) && v in virtuals
    ensures forall v :: (r.mark == Plain && r.effective == v)
                    <==> exists n: nat :: EndsAt(feed, virtuals, srce, level, n, v) && v !in virtuals
  {
    if r.mark == Loop {
      forall n: nat
        ensures Orbit(feed, virtuals, srce, level, n).Some?
      {
        OrbitStaysInLoop(feed, virtuals, srce, level, r, n);
      }
      forall n: nat, v
        ensures !EndsAt(feed, virtuals, srce, level, n, v)
      {
        assert Orbit(feed, virtuals, srce, level, n + 1).Some?;
      }
    } else {
      ResolutionEnds(feed, virtuals, srce, level, r);
      var n := if r.mark == Plain then |r.via| else |r.via| - 1;
      var v := if r.mark == Plain then r.effective else r.via[|r.via| - 1];
      assert EndsAt(feed, virtuals, srce, level, n, v);
      assert r.mark == Unfed ==> v in r.via;
      forall m: nat, w | EndsAt(feed, virtuals, srce, level, m, w)
        ensures w == v
      {
        SameEnd(feed, virtuals, srce, level, n, v, m, w);
      }
    }
  }

  // ---- the same in plain terms ----

  /** A label row that names something. */
  predicate Names(r: Mnemonic, id: string) {
    r.id == id && r.id != "" && r.name != ""
  }

  /** The last row that names the ID gives its name. */
  lemma {:induction false} NamePlain(rows: seq<Mnemonic>, id: string)
    ensures NameIn(rows, id).None? <==> forall r :: r in rows ==> !Names(r, id)
    ensures forall i ::
      0 <= i < |rows| && Names(rows[i], id) && (forall j :: i < j < |rows| ==> !Names(rows[j], id)) ==>
        NameIn(rows, id) == Some(rows[i].name)
  {
    if rows != [] {
      var front, last := rows[..|rows| - 1], rows[|rows| - 1];
      assert rows == front + [last];
      NamePlain(front, id);
      forall i | 0 <= i < |rows| && Names(rows[i], id) && forall j :: i < j < |rows| ==> !Names(rows[j], id)
        ensures NameIn(rows, id) == Some(rows[i].name)
      {
        if i < |front| {
          assert front[i] == rows[i] && forall j :: i < j < |front| ==> front[j] == rows[j];
          assert !Names(rows[|rows| - 1], id);
        }
      }
    }
  }

  /** Row `i` is the last of its cell. */
  ghost predicate LastRow(routes: seq<RouteSpec>, i: int, dest: string, level: string) {
    && 0 <= i < |routes| && routes[i].dest == dest && routes[i].level == level
    && forall j :: i < j < |routes| ==> routes[j].dest != dest || routes[j].level != level
  }

  /** The last row of a cell tells what feeds it. */
  lemma {:induction false} FeedPlain(routes: seq<RouteSpec>, dest: string, level: string)
    ensures Cell(dest, level) in FeedOf(routes) <==> exists r :: r in routes && r.dest == dest && r.level == level
    ensures forall i :: LastRow(routes, i, dest, level) ==>
      Cell(dest, level) in FeedOf(routes) && FeedOf(routes)[Cell(dest, level)] == routes[i].srce
  {
    if routes != [] {
      var front, last := routes[..|routes| - 1], routes[|routes| - 1];
      assert routes == front + [last];
      FeedPlain(front, dest, level);
      forall i | LastRow(routes, i, dest, level)
        ensures Cell(dest, level) in FeedOf(routes) && FeedOf(routes)[Cell(dest, level)] == routes[i].srce
      {
        if i < |front| {
          assert front[i] == routes[i] && forall j :: i < j < |front| ==> front[j] == routes[j];
          assert LastRow(front, i, dest, level);
          assert routes[|routes| - 1].dest != dest || routes[|routes| - 1].level != level;
        }
      }
    }
  }
}
