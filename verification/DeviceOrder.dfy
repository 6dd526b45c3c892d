/** Devices that list the same rows in another order, walked from the same groups in another
    order: when all of those walks find exactly the leaves of the tree. */
module DeviceOrder {
  import opened Wrappers
  import opened Sequences
  import opened Reach
  import opened DeviceTree
  import opened DeviceWalk

  // ---- reordering ----

  ghost predicate SameAnswer(a: Answer, b: Answer) {
    match a
    case Refused => b.Refused?
    case Rows(rows) => b.Rows? && multiset(b.rows) == multiset(rows)
  }

  /** The same answers, their rows in any order. */
  ghost predicate Reordered(device: Device, other: Device) {
    forall g :: SameAnswer(device(g), other(g))
  }

  lemma SameRows(a: seq<ObjectRow>, b: seq<ObjectRow>)
    requires multiset(a) == multiset(b)
    ensures |a| == |b| && (forall ov :: ov in a <==> ov in b) && (|a| == 1 ==> a == b)
  {
    assert |a| == |multiset(a)| == |multiset(b)| == |b|;
    forall ov
      ensures ov in a <==> ov in b
    {
      assert ov in a <==> ov in multiset(a);
      assert ov in b <==> ov in multiset(b);
    }
    if |a| == 1 {
      assert a[0] in a;
    }
  }

  lemma SameGroup(device: Device, other: Device, g: string)
    requires SameAnswer(device(g), other(g))
    ensures SelfEcho(device, g) <==> SelfEcho(other, g)
    ensures SelfEcho(device, g) ==> device(g) == other(g)
    ensures forall ov :: ChildRow(device, g, ov) <==> ChildRow(other, g, ov)
    ensures forall ov :: LeafRow(device, g, ov) <==> LeafRow(other, g, ov)
    ensures forall c :: Probes(device, g, c) <==> Probes(other, g, c)
  {
    if device(g).Rows? {
      SameRows(device(g).rows, other(g).rows);
    }
  }

  lemma SameReach(device: Device, other: Device, a: string, b: string)
    requires Reordered(device, other) && Reaches(Probing(device), a, b)
    ensures Reaches(Probing(other), a, b)
  {
    var p :| |p| > 0 && p[0] == a && p[|p| - 1] == b && Reach.Walk(Probing(device), p);
    forall i | 0 <= i < |p| - 1
      ensures Probing(other)(p[i], p[i + 1])
    {
      assert Probing(device)(p[i], p[i + 1]);
      assert SameAnswer(device(p[i]), other(p[i]));
      SameGroup(device, other, p[i]);
    }
    assert Reach.Walk(Probing(other), p);
  }

  lemma ReorderedBack(device: Device, other: Device)
    requires Reordered(device, other)
    ensures Reordered(other, device)
  {
    forall g
      ensures SameAnswer(other(g), device(g))
    {
      assert SameAnswer(device(g), other(g));
    }
  }

  lemma SameStarts(starts: seq<string>, order: seq<string>)
    requires multiset(starts) == multiset(order)
    ensures |starts| == |order| && forall s :: s in starts <==> s in order
  {
    assert |starts| == |multiset(starts)| == |multiset(order)| == |order|;
    forall s
      ensures s in starts <==> s in order
    {
      assert s in starts <==> s in multiset(starts);
      assert s in order <==> s in multiset(order);
    }
  }

  /** The tree is read in another order: still the same tree. */
  ghost predicate Rearranged(device: Device, starts: seq<string>, other: Device, order: seq<string>) {
    Reordered(device, other) && multiset(starts) == multiset(order)
  }

  lemma SameTree(device: Device, starts: seq<string>, other: Device, order: seq<string>, g: string)
    requires Rearranged(device, starts, other, order)
    ensures InTree(device, starts, g) <==> InTree(other, order, g)
  {
    SameStarts(starts, order);
    ReorderedBack(device, other);
    if InTree(device, starts, g) {
      var s :| s in starts && Reaches(Probing(device), s, g);
      SameReach(device, other, s, g);
      assert s in order;
    }
    if InTree(other, order, g) {
      var s :| s in order && Reaches(Probing(other), s, g);
      SameReach(other, device, s, g);
      assert s in starts;
    }
  }

  lemma SameNodes(device: Device, starts: seq<string>, other: Device, order: seq<string>, c: string)
    requires Rearranged(device, starts, other, order) && NodeIn(device, starts, c)
    ensures NodeIn(other, order, c)
  {
    var g :| InTree(device, starts, g) && Probes(device, g, c);
    SameTree(device, starts, other, order, g);
    assert SameAnswer(device(g), other(g));
    SameGroup(device, other, g);
  }

  lemma SameLeaves(device: Device, starts: seq<string>, other: Device, order: seq<string>, ov: ObjectRow)
    requires Rearranged(device, starts, other, order) && LeafIn(device, starts, ov)
    ensures LeafIn(other, order, ov)
  {
    var g :| InTree(device, starts, g) && LeafRow(device, g, ov);
    SameTree(device, starts, other, order, g);
    assert SameAnswer(device(g), other(g));
    SameGroup(device, other, g);
  }

  lemma RearrangedBack(device: Device, starts: seq<string>, other: Device, order: seq<string>)
    requires Rearranged(device, starts, other, order)
    ensures Rearranged(other, order, device, starts)
  {
    ReorderedBack(device, other);
  }

  lemma SameEchoes(device: Device, starts: seq<string>, other: Device, order: seq<string>)
    requires Rearranged(device, starts, other, order) && EchoesAlike(device, starts)
    ensures EchoesAlike(other, order)
  {
    RearrangedBack(device, starts, other, order);
    forall g, ov | InTree(other, order, g) && PlainLeaf(other, g, ov) && NodeIn(other, order, ov.path)
      ensures Echoes(other, ov)
    {
      SameTree(device, starts, other, order, g);
      SameNodes(other, order, device, starts, ov.path);
      assert SameAnswer(device(g), other(g)) && SameAnswer(device(ov.path), other(ov.path));
      SameGroup(device, other, g);
      SameGroup(device, other, ov.path);
      assert PlainLeaf(device, g, ov) && Echoes(device, ov);
    }
  }

  // ---- enough budget, no refusals ----

  /** Every group of the tree is answered, and the nodes of the tree are among these. */
  ghost predicate Answers(device: Device, starts: seq<string>, nodes: set<string>) {
    && (forall g :: InTree(device, starts, g) ==> device(g).Rows?)
    && (forall c :: NodeIn(device, starts, c) ==> c in nodes)
  }

  lemma {:induction false} GroupOk(device: Device, maxRequests: int, group: string, t: Tour)
    requires forall x :: Reaches(Probing(device), group, x) ==> device(x).Rows?
    ensures var r := GroupWalk(device, maxRequests, group, t);
      r.ok && (r.tour.truncated ==> t.truncated || |r.tour.asked| >= maxRequests)
    decreases maxRequests - |t.asked|, 0, 0
  {
    ReachesSelf(Probing(device), group);
    if |t.asked| < maxRequests && !SelfEcho(device, group) {
      assert device(group).rows + [] == device(group).rows;
      RowsOk(device, maxRequests, group, device(group).rows, t.(asked := t.asked + [group]));
    }
  }

  lemma {:induction false} RowsOk(device: Device, maxRequests: int, group: string, rows: seq<ObjectRow>, t: Tour)
    requires forall x :: Reaches(Probing(device), group, x) ==> device(x).Rows?
    requires device(group).Rows? && !SelfEcho(device, group) && forall ov :: ov in rows ==> ov in device(group).rows
    ensures var r := RowsWalk(device, maxRequests, group, rows, t);
      r.ok && (r.tour.truncated ==> t.truncated || |r.tour.asked| >= maxRequests)
    decreases maxRequests - |t.asked|, 1, |rows|
  {
    if rows != [] {
      var ov := rows[0];
      if ov.path == "" || ov.path == group || ov.path in t.probed {
        RowsOk(device, maxRequests, group, rows[1..], t);
      } else if !Node(ov) {
        RowsOk(device, maxRequests, group, rows[1..], t.(leaves := t.leaves + [ov]));
      } else {
        assert ChildRow(device, group, ov);
        forall x | Reaches(Probing(device), ov.path, x)
          ensures device(x).Rows?
        {
          assert Probing(device)(group, ov.path);
          ReachesFrom(Probing(device), group, ov.path, x);
        }
        var probing := t.(probed := t.probed + [ov.path]);
        GroupOk(device, maxRequests, ov.path, probing);
        RowsOk(device, maxRequests, group, rows[1..], GroupWalk(device, maxRequests, ov.path, probing).tour);
      }
    }
  }

  lemma {:induction false} StartsOk(device: Device, maxRequests: int, starts: seq<string>)
    requires forall g :: InTree(device, starts, g) ==> device(g).Rows?
    ensures var r := StartsWalk(device, maxRequests, starts);
      r.ok && (r.tour.truncated ==> |r.tour.asked| >= maxRequests)
  {
    if starts != [] {
      var front, last := starts[..|starts| - 1], starts[|starts| - 1];
      assert starts == front + [last] && last in starts;
      forall g | InTree(device, front, g)
        ensures device(g).Rows?
      {
        var s :| s in front && Reaches(Probing(device), s, g);
        assert s in starts && InTree(device, starts, g);
      }
      StartsOk(device, maxRequests, front);
      forall x | Reaches(Probing(device), last, x)
        ensures device(x).Rows?
      {
        assert InTree(device, starts, x);
      }
      GroupOk(device, maxRequests, last, StartsWalk(device, maxRequests, front).tour);
    }
  }

  lemma {:induction false} DistinctIn(s: seq<string>, nodes: set<string>)
    requires Distinct(s) && forall x :: x in s ==> x in nodes
    ensures |s| <= |nodes|
  {
    if s != [] {
      var front, last := s[..|s| - 1], s[|s| - 1];
      assert last in s && forall x :: x in front ==> x in s && x != last;
      DistinctIn(front, nodes - {last});
    }
  }

  /** Such a walk is not cut short. */
  lemma Completes(device: Device, starts: seq<string>, nodes: set<string>, maxRequests: int)
    requires Answers(device, starts, nodes) && maxRequests > |starts| + |nodes|
    ensures var r := StartsWalk(device, maxRequests, starts); r.ok && !r.tour.truncated
  {
    var tour := StartsWalk(device, maxRequests, starts).tour;
    StartsOk(device, maxRequests, starts);
    WithinBudget(device, maxRequests, starts);
    WalkCovers(device, maxRequests, starts);
    forall c | c in tour.probed
      ensures c in nodes
    {
      assert c in TraceOf(tour).visited;
    }
    DistinctIn(tour.probed, nodes);
  }

  lemma SameAnswers(device: Device, starts: seq<string>, nodes: set<string>, other: Device, order: seq<string>)
    requires Rearranged(device, starts, other, order) && Answers(device, starts, nodes)
    ensures Answers(other, order, nodes)
  {
    RearrangedBack(device, starts, other, order);
    forall g | InTree(other, order, g)
      ensures other(g).Rows?
    {
      SameTree(device, starts, other, order, g);
      assert SameAnswer(device(g), other(g));
    }
    forall c | NodeIn(other, order, c)
      ensures c in nodes
    {
      SameNodes(other, order, device, starts, c);
    }
  }

  /** The walk is neither refused nor cut short and records exactly the leaves of the tree. */
  ghost predicate FindsLeaves(device: Device, starts: seq<string>, other: Device, order: seq<string>,
                              maxRequests: int) {
    var r := StartsWalk(other, maxRequests, order);
    r.ok && !r.tour.truncated && forall ov :: ov in r.tour.leaves <==> LeafIn(device, starts, ov)
  }

  lemma EchoesSuffice(device: Device, starts: seq<string>, nodes: set<string>, other: Device, order: seq<string>,
                      maxRequests: int)
    requires Answers(device, starts, nodes) && EchoesAlike(device, starts)
    requires Rearranged(device, starts, other, order) && maxRequests > |starts| + |nodes|
    ensures FindsLeaves(device, starts, other, order, maxRequests)
  {
    SameStarts(starts, order);
    SameAnswers(device, starts, nodes, other, order);
    Completes(other, order, nodes, maxRequests);
    WalkCovers(other, maxRequests, order);
    SameEchoes(device, starts, other, order);
    var leaves := StartsWalk(other, maxRequests, order).tour.leaves;
    ExactLeaves(other, order, leaves);
    RearrangedBack(device, starts, other, order);
    forall ov
      ensures LeafIn(other, order, ov) <==> LeafIn(device, starts, ov)
    {
      if LeafIn(device, starts, ov) {
        SameLeaves(device, starts, other, order, ov);
      }
      if LeafIn(other, order, ov) {
        SameLeaves(other, order, device, starts, ov);
      }
    }
  }

  // ---- a leaf that is kept out ----

  /** The path of the row has been asked for as a node, and the row is not recorded. */
  ghost predicate Out(t: Tour, ov: ObjectRow) {
    ov.path in t.probed && ov !in t.leaves
  }

  lemma {:induction false} GroupKeepsOut(device: Device, maxRequests: int, group: string, t: Tour, ov: ObjectRow)
    requires Out(t, ov) && !Echoes(device, ov)
    ensures Out(GroupWalk(device, maxRequests, group, t).tour, ov)
    decreases maxRequests - |t.asked|, 0, 0
  {
    if |t.asked| < maxRequests && device(group).Rows? && !SelfEcho(device, group) {
      RowsKeepOut(device, maxRequests, group, device(group).rows, t.(asked := t.asked + [group]), ov);
    }
  }

  lemma {:induction false} RowsKeepOut(device: Device, maxRequests: int, group: string, rows: seq<ObjectRow>, t: Tour,
                                       ov: ObjectRow)
    requires Out(t, ov) && !Echoes(device, ov)
    ensures Out(RowsWalk(device, maxRequests, group, rows, t).tour, ov)
    decreases maxRequests - |t.asked|, 1, |rows|
  {
    if rows != [] {
      var row := rows[0];
      if row.path == "" || row.path == group || row.path in t.probed {
        RowsKeepOut(device, maxRequests, group, rows[1..], t, ov);
      } else if !Node(row) {
        RowsKeepOut(device, maxRequests, group, rows[1..], t.(leaves := t.leaves + [row]), ov);
      } else {
        var probing := t.(probed := t.probed + [row.path]);
        GroupKeepsOut(device, maxRequests, row.path, probing, ov);
        var below := GroupWalk(device, maxRequests, row.path, probing);
        if below.ok {
          RowsKeepOut(device, maxRequests, group, rows[1..], below.tour, ov);
        }
      }
    }
  }

  lemma {:induction false} StartsKeepOut(device: Device, maxRequests: int, starts: seq<string>, n: nat, ov: ObjectRow)
    requires 0 < n <= |starts| && !Echoes(device, ov) && Out(StartsWalk(device, maxRequests, starts[..1]).tour, ov)
    ensures Out(StartsWalk(device, maxRequests, starts[..n]).tour, ov)
  {
    if n > 1 {
      StartsKeepOut(device, maxRequests, starts, n - 1, ov);
      assert starts[..n][..n - 1] == starts[..n - 1];
      var before := StartsWalk(device, maxRequests, starts[..n - 1]);
      if before.ok {
        GroupKeepsOut(device, maxRequests, starts[n - 1], before.tour, ov);
      }
    }
  }

  // ---- going straight down to a node ----

  /** A way from a start down to the node, through nodes. */
  ghost predicate Way(device: Device, starts: seq<string>, q: seq<string>) {
    |q| >= 2 && q[0] in starts && Reach.Walk(Probing(device), q)
  }

  /** No group comes twice, and the node at the end is none of the nodes before. */
  ghost predicate Straight(q: seq<string>) {
    && |q| >= 2
    && (forall i, j :: 0 <= i < j < |q| - 1 ==> q[i] != q[j])
    && (forall i :: 1 <= i < |q| - 1 ==> q[i] != q[|q| - 1])
  }

  lemma WayCut(device: Device, starts: seq<string>, q: seq<string>, i: nat, j: nat)
    requires Way(device, starts, q) && i < j < |q| - 1 && q[i] == q[j]
    ensures var r := q[..i + 1] + q[j + 1..];
      Way(device, starts, r) && |r| < |q| && r[|r| - 1] == q[|q| - 1]
  {
    var r := q[..i + 1] + q[j + 1..];
    forall k | 0 <= k < |r| - 1
      ensures Probing(device)(r[k], r[k + 1])
    {
      if k < i {
        assert Probing(device)(q[k], q[k + 1]);
      } else {
        assert Probing(device)(q[k - i + j], q[k - i + j + 1]);
      }
    }
  }

  lemma WayStop(device: Device, starts: seq<string>, q: seq<string>, i: nat)
    requires Way(device, starts, q) && 1 <= i < |q| - 1
    ensures Way(device, starts, q[..i + 1])
  {
    var r := q[..i + 1];
    forall k | 0 <= k < |r| - 1
      ensures Probing(device)(r[k], r[k + 1])
    {
      assert Probing(device)(q[k], q[k + 1]);
    }
  }

  lemma {:induction false} StraightWay(device: Device, starts: seq<string>, q: seq<string>) returns (r: seq<string>)
    requires Way(device, starts, q)
    ensures Way(device, starts, r) && Straight(r) && r[|r| - 1] == q[|q| - 1]
    decreases |q|
  {
    if i, j :| 0 <= i < j < |q| - 1 && q[i] == q[j] {
      WayCut(device, starts, q, i, j);
      r := StraightWay(device, starts, q[..i + 1] + q[j + 1..]);
    } else if i :| 1 <= i < |q| - 1 && q[i] == q[|q| - 1] {
      WayStop(device, starts, q, i);
      r := StraightWay(device, starts, q[..i + 1]);
    } else {
      r := q;
    }
  }

  lemma WalkOn(device: Device, p: seq<string>, c: string)
    requires |p| > 0 && Reach.Walk(Probing(device), p) && Probing(device)(p[|p| - 1], c)
    ensures Reach.Walk(Probing(device), p + [c])
  {
    forall i | 0 <= i < |p|
      ensures Probing(device)((p + [c])[i], (p + [c])[i + 1])
    {
      assert i < |p| - 1 ==> Probing(device)(p[i], p[i + 1]);
    }
  }

  lemma WayTo(device: Device, starts: seq<string>, c: string) returns (q: seq<string>)
    requires NodeIn(device, starts, c)
    ensures Way(device, starts, q) && Straight(q) && q[|q| - 1] == c
  {
    var h :| InTree(device, starts, h) && Probes(device, h, c);
    var s :| s in starts && Reaches(Probing(device), s, h);
    var p :| |p| > 0 && p[0] == s && p[|p| - 1] == h && Reach.Walk(Probing(device), p);
    WalkOn(device, p, c);
    q := StraightWay(device, starts, p + [c]);
  }

  // ---- an order that goes straight down ----

  function ToFront(rows: seq<ObjectRow>, i: nat): seq<ObjectRow>
    requires i < |rows|
  {
    [rows[i]] + Without(rows, i)
  }

  /** The row is a node row of the group that leads to the path. */
  predicate LeadsTo(device: Device, g: string, c: string, i: nat) {
    device(g).Rows? && i < |device(g).rows| && ChildRow(device, g, device(g).rows[i]) && Node(device(g).rows[i])
    && device(g).rows[i].path == c
  }

  ghost predicate OnWay(device: Device, q: seq<string>, g: string, k: nat, i: nat) {
    k < |q| - 1 && q[k] == g && LeadsTo(device, g, q[k + 1], i)
  }

  ghost function StraightAnswer(device: Device, q: seq<string>, g: string): Answer {
    if k: nat, i: nat :| OnWay(device, q, g, k, i) then Rows(ToFront(device(g).rows, i)) else device(g)
  }

  /** The device with the rows of the way in front. */
  ghost function StraightDevice(device: Device, q: seq<string>): Device {
    g => StraightAnswer(device, q, g)
  }

  lemma ToFrontPermutes(rows: seq<ObjectRow>, i: nat)
    requires i < |rows|
    ensures multiset(ToFront(rows, i)) == multiset(rows)
  {
    assert rows == rows[..i] + [rows[i]] + rows[i + 1..];
  }

  lemma StraightReorders(device: Device, q: seq<string>)
    ensures Reordered(device, StraightDevice(device, q))
  {
    forall g
      ensures SameAnswer(device(g), StraightDevice(device, q)(g))
    {
      if k: nat, i: nat :| OnWay(device, q, g, k, i) {
        forall i: nat | device(g).Rows? && i < |device(g).rows| {
          ToFrontPermutes(device(g).rows, i);
        }
      }
    }
  }

  /** The first row of the group is a node row that leads to the path. */
  predicate FirstLeadsTo(device: Device, g: string, c: string) {
    LeadsTo(device, g, c, 0)
  }

  lemma OnePlace(q: seq<string>, k: nat, l: nat)
    requires Straight(q) && k < |q| - 1 && l < |q| - 1 && q[k] == q[l]
    ensures k == l
  {
  }

  lemma StraightPick(device: Device, q: seq<string>, g: string, k: nat, i: nat) returns (l: nat, j: nat)
    requires OnWay(device, q, g, k, i)
    ensures l < |q| - 1 && q[l] == g && LeadsTo(device, g, q[l + 1], j)
    ensures StraightAnswer(device, q, g) == Rows(ToFront(device(g).rows, j))
  {
    l, j :| OnWay(device, q, g, l, j) && StraightAnswer(device, q, g) == Rows(ToFront(device(g).rows, j));
    assert OnWay(device, q, g, l, j) && LeadsTo(device, g, q[l + 1], j);
  }

  lemma StraightLeads(device: Device, starts: seq<string>, q: seq<string>, k: nat)
    requires Way(device, starts, q) && Straight(q) && k < |q| - 1
    ensures FirstLeadsTo(StraightDevice(device, q), q[k], q[k + 1])
  {
    var g := q[k];
    assert Probing(device)(q[k], q[k + 1]);
    var ov :| ChildRow(device, g, ov) && Node(ov) && ov.path == q[k + 1];
    var i: nat :| i < |device(g).rows| && device(g).rows[i] == ov;
    assert OnWay(device, q, g, k, i);
    var l, j := StraightPick(device, q, g, k, i);
    OnePlace(q, k, l);
    StraightReorders(device, q);
    assert SameAnswer(device(g), StraightDevice(device, q)(g));
    SameGroup(device, StraightDevice(device, q), g);
    assert ToFront(device(g).rows, j)[0] == device(g).rows[j];
  }

  /** Going down the way nothing is recorded before the node at its end is asked for. */
  lemma {:induction false} GoesDown(device: Device, q: seq<string>, i: nat, t: Tour, maxRequests: int, ov: ObjectRow)
    requires Straight(q) && i < |q| - 1 && forall k :: 0 <= k < |q| - 1 ==> FirstLeadsTo(device, q[k], q[k + 1])
    requires ov.path == q[|q| - 1] && !Echoes(device, ov)
    requires t.probed == q[1..i + 1] && t.leaves == [] && |t.asked| + (|q| - 1 - i) <= maxRequests
    ensures Out(GroupWalk(device, maxRequests, q[i], t).tour, ov)
    decreases |q| - i
  {
    assert FirstLeadsTo(device, q[i], q[i + 1]);
    var asking := t.(asked := t.asked + [q[i]]);
    var rows := device(q[i]).rows;
    assert q[i + 1] !in q[1..i + 1];
    var probing := asking.(probed := asking.probed + [q[i + 1]]);
    assert probing.probed == q[1..i + 2];
    var below := GroupWalk(device, maxRequests, q[i + 1], probing);
    if i + 1 < |q| - 1 {
      GoesDown(device, q, i + 1, probing, maxRequests, ov);
    } else {
      GroupKeepsOut(device, maxRequests, q[i + 1], probing, ov);
    }
    if below.ok {
      RowsKeepOut(device, maxRequests, q[i], rows[1..], below.tour, ov);
    }
  }

  function StartFirst(starts: seq<string>, i: nat): seq<string>
    requires i < |starts|
  {
    [starts[i]] + Without(starts, i)
  }

  lemma StartFirstPermutes(starts: seq<string>, i: nat)
    requires i < |starts|
    ensures multiset(StartFirst(starts, i)) == multiset(starts)
  {
    assert starts == starts[..i] + [starts[i]] + starts[i + 1..];
  }

  lemma EchoesNeither(device: Device, other: Device, ov: ObjectRow)
    requires Reordered(device, other) && !Echoes(device, ov)
    ensures !Echoes(other, ov)
  {
    assert SameAnswer(device(ov.path), other(ov.path));
    SameGroup(device, other, ov.path);
  }

  /** An order of rows and starts in which the leaf of an ambiguous path that does not echo
      alike is never recorded. */
  lemma LeafOut(device: Device, starts: seq<string>, ov: ObjectRow)
    returns (other: Device, order: seq<string>, enough: nat)
    requires NodeIn(device, starts, ov.path) && !Echoes(device, ov)
    ensures Rearranged(device, starts, other, order)
    ensures forall maxRequests :: maxRequests >= enough ==> ov !in StartsWalk(other, maxRequests, order).tour.leaves
  {
    var q := WayTo(device, starts, ov.path);
    var s: nat :| s < |starts| && starts[s] == q[0];
    other, order, enough := StraightDevice(device, q), StartFirst(starts, s), |q|;
    StartFirstPermutes(starts, s);
    StraightReorders(device, q);
    EchoesNeither(device, other, ov);
    forall k | 0 <= k < |q| - 1
      ensures FirstLeadsTo(other, q[k], q[k + 1])
    {
      StraightLeads(device, starts, q, k);
    }
    forall maxRequests | maxRequests >= enough
      ensures ov !in StartsWalk(other, maxRequests, order).tour.leaves
    {
      FirstStart(other, q, order, maxRequests, ov);
    }
  }

  lemma FirstStart(device: Device, q: seq<string>, order: seq<string>, maxRequests: int, ov: ObjectRow)
    requires Straight(q) && forall k :: 0 <= k < |q| - 1 ==> FirstLeadsTo(device, q[k], q[k + 1])
    requires ov.path == q[|q| - 1] && !Echoes(device, ov) && order != [] && order[0] == q[0] && maxRequests >= |q|
    ensures ov !in StartsWalk(device, maxRequests, order).tour.leaves
  {
    var t := Tour([], [], [], false);
    assert order[..1][..0] == [] && q[1..1] == [];
    assert StartsWalk(device, maxRequests, order[..1]) == GroupWalk(device, maxRequests, q[0], t);
    GoesDown(device, q, 0, t, maxRequests, ov);
    StartsKeepOut(device, maxRequests, order, |order|, ov);
    assert order[..|order|] == order;
  }

  // ---- exactly when ----

  ghost predicate AnyOrder(device: Device, starts: seq<string>, nodes: set<string>, other: Device, order: seq<string>,
                           maxRequests: int) {
    Rearranged(device, starts, other, order) && maxRequests > |starts| + |nodes| ==>
      FindsLeaves(device, starts, other, order, maxRequests)
  }

  lemma SomeOrderLoses(device: Device, starts: seq<string>, nodes: set<string>)
    returns (other: Device, order: seq<string>, maxRequests: int)
    requires !EchoesAlike(device, starts)
    ensures !AnyOrder(device, starts, nodes, other, order, maxRequests)
  {
    var g, ov :| InTree(device, starts, g) && PlainLeaf(device, g, ov) && NodeIn(device, starts, ov.path)
      && !Echoes(device, ov);
    var enough: nat;
    other, order, enough := LeafOut(device, starts, ov);
    maxRequests := enough + |starts| + |nodes| + 1;
    assert LeafRow(device, g, ov) && LeafIn(device, starts, ov);
  }

  /** A device that answers every group of its finite tree is walked to exactly its leaves,
      in every order of rows and starts and with any sufficient budget, exactly when each
      path that stands as a plain leaf and as a node echoes that very leaf. */
  lemma ExactInAnyOrderIff(device: Device, starts: seq<string>, nodes: set<string>)
    requires Answers(device, starts, nodes)
    ensures EchoesAlike(device, starts)
       <==> forall other, order, maxRequests :: AnyOrder(device, starts, nodes, other, order, maxRequests)
  {
    if EchoesAlike(device, starts) {
      forall other, order, maxRequests
        ensures AnyOrder(device, starts, nodes, other, order, maxRequests)
      {
        if Rearranged(device, starts, other, order) && maxRequests > |starts| + |nodes| {
          EchoesSuffice(device, starts, nodes, other, order, maxRequests);
        }
      }
    } else {
      var other, order, maxRequests := SomeOrderLoses(device, starts, nodes);
    }
  }
}
