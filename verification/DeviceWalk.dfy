/** The budgeted walk of a device's object tree. */
module DeviceWalk {
  import opened Wrappers
  import opened Text
  import opened Sequences
  import opened Reach
  import opened DeviceTree
  import opened DeviceRows

  // ---- the walk as a function ----

  /** What a walk has done: every path asked for, those asked for as a child, the rows
      recorded, and whether the budget cut it short. */
  datatype Tour = Tour(asked: seq<string>, probed: seq<string>, leaves: seq<ObjectRow>, truncated: bool)

  /** `ok` says that the device refused no answer. */
  datatype Outcome = Outcome(tour: Tour, ok: bool)

  function GroupWalk(device: Device, maxRequests: int, group: string, t: Tour): (r: Outcome)
    ensures |r.tour.asked| >= |t.asked|
    decreases maxRequests - |t.asked|, 0, 0
  {
    if |t.asked| >= maxRequests then Outcome(t.(truncated := true), true)
    else
      var asking := t.(asked := t.asked + [group]);
      match device(group)
      case Refused => Outcome(asking, false)
      case Rows(rows) =>
        if SelfEcho(device, group) then Outcome(asking.(leaves := t.leaves + [rows[0]]), true)
        else RowsWalk(device, maxRequests, group, rows, asking)
  }

  function RowsWalk(device: Device, maxRequests: int, group: string, rows: seq<ObjectRow>, t: Tour): (r: Outcome)
    ensures |r.tour.asked| >= |t.asked|
    decreases maxRequests - |t.asked|, 1, |rows|
  {
    if rows == [] then Outcome(t, true)
    else
      var ov := rows[0];
      if ov.path == "" || ov.path == group || ov.path in t.probed then
        RowsWalk(device, maxRequests, group, rows[1..], t)
      else if !Node(ov) then RowsWalk(device, maxRequests, group, rows[1..], t.(leaves := t.leaves + [ov]))
      else
        var below := GroupWalk(device, maxRequests, ov.path, t.(probed := t.probed + [ov.path]));
        if !below.ok then below else RowsWalk(device, maxRequests, group, rows[1..], below.tour)
  }

  function StartsWalk(device: Device, maxRequests: int, starts: seq<string>): Outcome {
    if starts == [] then Outcome(Tour([], [], [], false), true)
    else
      var before := StartsWalk(device, maxRequests, starts[..|starts| - 1]);
      if !before.ok then before else GroupWalk(device, maxRequests, starts[|starts| - 1], before.tour)
  }

  /** A refused answer ends the walk. */
  lemma {:induction false} StopsWhenRefused(device: Device, maxRequests: int, starts: seq<string>, n: nat)
    requires n <= |starts| && !StartsWalk(device, maxRequests, starts[..n]).ok
    ensures StartsWalk(device, maxRequests, starts) == StartsWalk(device, maxRequests, starts[..n])
  {
    if n < |starts| {
      assert starts[..|starts| - 1][..n] == starts[..n];
      StopsWhenRefused(device, maxRequests, starts[..|starts| - 1], n);
    } else {
      assert starts[..n] == starts;
    }
  }

  // ---- the walk in place ----

  class Walk {
    const device: Device
    const maxRequests: int
    var requests: nat
    var visited: set<string>
    var leaves: seq<ObjectRow>
    var truncated: bool
    ghost var asked: seq<string>   // every path asked for, in order
    ghost var probed: seq<string>  // the paths asked for as a child, in order

    /** The counter counts the questions, and the set holds the paths asked for as a child. */
    ghost predicate Valid()
      reads this
    {
      requests == |asked| && forall v :: v in visited <==> v in probed
    }

    ghost function Now(): Tour
      reads this
    {
      Tour(asked, probed, leaves, truncated)
    }

    constructor (device: Device, maxRequests: int)
      ensures Valid() && this.device == device && this.maxRequests == maxRequests
      ensures Now() == Tour([], [], [], false)
    {
      this.device, this.maxRequests := device, maxRequests;
      requests, visited, leaves, truncated := 0, {}, [], false;
      asked, probed := [], [];
    }

    /** Walks one group; `ok` says that the device refused no answer. */
    method Group(group: string) returns (ok: bool)
      requires Valid()
      modifies this
      ensures Valid() && Outcome(Now(), ok) == GroupWalk(device, maxRequests, group, old(Now()))
      ensures requests >= old(requests) && (requests == old(requests) || requests <= maxRequests)
      decreases maxRequests - requests, 0, 0
    {
      if requests >= maxRequests {
        truncated := true;
        return true;
      }
      requests, asked := requests + 1, asked + [group];
      var answer := device(group);
      if answer.Refused? {
        return false;
      }
      if group != "" && |answer.rows| == 1 && answer.rows[0].path == group {
        leaves := leaves + [answer.rows[0]];
        return true;
      }
      ok := RowsOf(group, answer.rows);
    }

    /** Goes through the rows a group answered with. */
    method RowsOf(group: string, rows: seq<ObjectRow>) returns (ok: bool)
      requires Valid() && requests <= maxRequests
      modifies this
      ensures Valid() && old(requests) <= requests <= maxRequests
      ensures Outcome(Now(), ok) == RowsWalk(device, maxRequests, group, rows, old(Now()))
      decreases maxRequests - requests, 1, 0
    {
      for i := 0 to |rows|
        invariant Valid() && old(requests) <= requests <= maxRequests
        invariant RowsWalk(device, maxRequests, group, rows, old(Now()))
          == RowsWalk(device, maxRequests, group, rows[i..], Now())
      {
        var ov := rows[i];
        assert rows[i..][0] == ov && rows[i..][1..] == rows[i + 1..];
        if ov.path == "" || ov.path == group || ov.path in visited {
          continue;
        }
        if ScalarLeaf(ov) || !MaybeNode(ov) {
          leaves := leaves + [ov];
          continue;
        }
        visited, probed := visited + {ov.path}, probed + [ov.path];
        ok := Group(ov.path);
        if !ok {
          return false;
        }
      }
      return true;
    }
  }

  /** The walk of a device from its start groups, within a budget of questions: `Some` rows
      unless the device refused an answer. It never invents a leaf; and when it was not
      truncated no leaf of the tree is missing. */
  method WalkDevice(device: Device, starts: seq<string>, maxRequests: int)
    returns (leaves: Option<seq<ObjectRow>>, requests: nat, truncated: bool)
    ensures var r := StartsWalk(device, maxRequests, starts);
      && requests == |r.tour.asked| && truncated == r.tour.truncated
      && leaves == if r.ok then Some(r.tour.leaves) else None
    ensures leaves.Some? ==> Sound(device, starts, leaves.value)
    ensures leaves.Some? && !truncated ==> Complete(device, starts, leaves.value)
    ensures leaves.Some? && !truncated ==> exists asked ::
      |asked| == requests && Explored(device, starts, asked, leaves.value)
    ensures truncated ==> requests >= maxRequests
    ensures requests == 0 || requests <= maxRequests
  {
    var walk := new Walk(device, maxRequests);
    WalkCovers(device, maxRequests, starts);
    WithinBudget(device, maxRequests, starts);
    StartsHonest(device, maxRequests, starts);
    for i := 0 to |starts|
      invariant walk.Valid() && walk.device == device && walk.maxRequests == maxRequests && fresh(walk)
      invariant StartsWalk(device, maxRequests, starts[..i]) == Outcome(walk.Now(), true)
    {
      assert starts[..i + 1][..i] == starts[..i];
      var ok := walk.Group(starts[i]);
      if !ok {
        StopsWhenRefused(device, maxRequests, starts, i + 1);
        return None, walk.requests, walk.truncated;
      }
    }
    assert starts[..|starts|] == starts;
    if !walk.truncated {
      WalkExplores(device, maxRequests, starts);
    }
    return Some(walk.leaves), walk.requests, walk.truncated;
  }

  // ---- the budget ----

  /** No path was asked for twice as a child, the questions are those plus at most `extra`,
      and the budget was kept. */
  ghost predicate Kept(maxRequests: int, t: Tour, after: Tour, extra: nat) {
    && Distinct(after.probed) && |after.asked| - |t.asked| <= extra + |after.probed| - |t.probed|
    && (after.asked == t.asked || |after.asked| <= maxRequests)
  }

  lemma {:induction false} GroupKeeps(device: Device, maxRequests: int, group: string, t: Tour)
    requires Distinct(t.probed)
    ensures Kept(maxRequests, t, GroupWalk(device, maxRequests, group, t).tour, 1)
    decreases maxRequests - |t.asked|, 0, 0
  {
    if |t.asked| < maxRequests && device(group).Rows? && !SelfEcho(device, group) {
      RowsKeep(device, maxRequests, group, device(group).rows, t.(asked := t.asked + [group]));
    }
  }

  lemma {:induction false} RowsKeep(device: Device, maxRequests: int, group: string, rows: seq<ObjectRow>, t: Tour)
    requires Distinct(t.probed)
    ensures Kept(maxRequests, t, RowsWalk(device, maxRequests, group, rows, t).tour, 0)
    decreases maxRequests - |t.asked|, 1, |rows|
  {
    if rows != [] {
      var ov := rows[0];
      if ov.path == "" || ov.path == group || ov.path in t.probed {
        RowsKeep(device, maxRequests, group, rows[1..], t);
      } else if !Node(ov) {
        RowsKeep(device, maxRequests, group, rows[1..], t.(leaves := t.leaves + [ov]));
      } else {
        var probing := t.(probed := t.probed + [ov.path]);
        GroupKeeps(device, maxRequests, ov.path, probing);
        var below := GroupWalk(device, maxRequests, ov.path, probing);
        if below.ok {
          RowsKeep(device, maxRequests, group, rows[1..], below.tour);
        }
      }
    }
  }

  /** The walk ends on every device, never asks more than the budget allows, never asks for
      a path twice as a child, and asks for nothing but its starts and children. */
  lemma {:induction false} WithinBudget(device: Device, maxRequests: int, starts: seq<string>)
    ensures var tour := StartsWalk(device, maxRequests, starts).tour;
      && (tour.asked == [] || |tour.asked| <= maxRequests)
      && Distinct(tour.probed) && |tour.asked| <= |starts| + |tour.probed|
  {
    if starts != [] {
      var front := starts[..|starts| - 1];
      WithinBudget(device, maxRequests, front);
      var before := StartsWalk(device, maxRequests, front);
      if before.ok {
        GroupKeeps(device, maxRequests, starts[|starts| - 1], before.tour);
      }
    }
  }

  // ---- the leaves ----

  ghost function TraceOf(t: Tour): Trace {
    Trace((set g | g in t.asked), (set v | v in t.probed), t.leaves)
  }

  lemma {:induction false} GroupAdvances(device: Device, maxRequests: int, group: string, t: Tour)
    requires t.truncated || TraceOf(t).visited <= TraceOf(t).walked + {group}
    ensures var r := GroupWalk(device, maxRequests, group, t);
      && (t.truncated ==> r.tour.truncated)
      && Advanced(device, group, TraceOf(t), TraceOf(r.tour), r.ok && !r.tour.truncated)
    decreases maxRequests - |t.asked|, 0, 0, 0
  {
    if |t.asked| < maxRequests {
      var asking := t.(asked := t.asked + [group]);
      PartlyStart(device, group, TraceOf(t), !t.truncated);
      if device(group).Rows? {
        if SelfEcho(device, group) {
          PartlyEcho(device, group, TraceOf(t), TraceOf(asking), !t.truncated);
        } else {
          RowsAdvance(device, maxRequests, group, [], device(group).rows, TraceOf(t), asking);
        }
      }
    }
  }

  lemma {:induction false} RowsAdvance(device: Device, maxRequests: int, group: string,
                                       done: seq<ObjectRow>, rows: seq<ObjectRow>, start: Trace, t: Tour)
    requires device(group) == Rows(done + rows) && !SelfEcho(device, group)
    requires Partly(device, group, start, TraceOf(t), done, !t.truncated)
    ensures var r := RowsWalk(device, maxRequests, group, rows, t);
      && (t.truncated ==> r.tour.truncated)
      && Advanced(device, group, start, TraceOf(r.tour), r.ok && !r.tour.truncated)
    decreases maxRequests - |t.asked|, 1, |rows|, 1
  {
    if rows == [] {
      assert done + rows == done;
    } else {
      var ov := rows[0];
      assert (done + [ov]) + rows[1..] == done + rows;
      if ov.path == "" || ov.path == group || ov.path in t.probed {
        RowsAdvance(device, maxRequests, group, done + [ov], rows[1..], start, t);
      } else if !Node(ov) {
        assert ChildRow(device, group, ov);
        PartlyLeaf(device, group, start, TraceOf(t), done, ov, !t.truncated);
        RowsAdvance(device, maxRequests, group, done + [ov], rows[1..], start, t.(leaves := t.leaves + [ov]));
      } else {
        assert ChildRow(device, group, ov);
        ChildAdvances(device, maxRequests, group, done, rows, start, t);
      }
    }
  }

  lemma LeafFirst(device: Device, maxRequests: int, group: string, rows: seq<ObjectRow>, t: Tour)
    requires rows != [] && rows[0].path !in t.probed && rows[0].path != "" && rows[0].path != group && !Node(rows[0])
    ensures RowsWalk(device, maxRequests, group, rows, t)
         == RowsWalk(device, maxRequests, group, rows[1..], t.(leaves := t.leaves + [rows[0]]))
  {
  }

  lemma SkipFirst(device: Device, maxRequests: int, group: string, rows: seq<ObjectRow>, t: Tour)
    requires rows != [] && (rows[0].path in t.probed || rows[0].path == "" || rows[0].path == group)
    ensures RowsWalk(device, maxRequests, group, rows, t) == RowsWalk(device, maxRequests, group, rows[1..], t)
  {
  }

  lemma {:induction false} ChildAdvances(device: Device, maxRequests: int, group: string,
                                         done: seq<ObjectRow>, rows: seq<ObjectRow>, start: Trace, t: Tour)
    requires rows != [] && device(group) == Rows((done + [rows[0]]) + rows[1..]) && !SelfEcho(device, group)
    requires ChildRow(device, group, rows[0]) && Node(rows[0]) && rows[0].path !in t.probed
    requires Partly(device, group, start, TraceOf(t), done, !t.truncated)
    ensures var r := RowsWalk(device, maxRequests, group, rows, t);
      && (t.truncated ==> r.tour.truncated)
      && Advanced(device, group, start, TraceOf(r.tour), r.ok && !r.tour.truncated)
    decreases maxRequests - |t.asked|, 1, |rows|, 0
  {
    var ov := rows[0];
    var probing := t.(probed := t.probed + [ov.path]);
    GroupAdvances(device, maxRequests, ov.path, probing);
    var below := GroupWalk(device, maxRequests, ov.path, probing);
    PartlyChild(device, group, start, TraceOf(t), TraceOf(below.tour), done, ov,
                !t.truncated, below.ok && !below.tour.truncated);
    if below.ok {
      RowsAdvance(device, maxRequests, group, done + [ov], rows[1..], start, below.tour);
    } else {
      PartlyCut(device, group, start, TraceOf(below.tour), done + [ov]);
    }
  }

  lemma PartlyCut(device: Device, group: string, s: Trace, t: Trace, done: seq<ObjectRow>)
    requires Partly(device, group, s, t, done, false)
    ensures Advanced(device, group, s, t, false)
  {
  }

  /** A walk that the device did not refuse never invents a leaf, and when the budget did
      not cut it short it has recorded every leaf of the tree whose path was not asked for
      as a node. */
  lemma {:induction false} WalkCovers(device: Device, maxRequests: int, starts: seq<string>)
    ensures var r := StartsWalk(device, maxRequests, starts);
      && (r.ok ==> Covers(device, starts, TraceOf(r.tour), !r.tour.truncated))
      && (r.ok ==> Sound(device, starts, r.tour.leaves))
      && (r.ok && !r.tour.truncated ==> Complete(device, starts, r.tour.leaves))
  {
    var r := StartsWalk(device, maxRequests, starts);
    if starts != [] && r.ok {
      var front, last := starts[..|starts| - 1], starts[|starts| - 1];
      assert front + [last] == starts;
      WalkCovers(device, maxRequests, front);
      var before := StartsWalk(device, maxRequests, front);
      GroupAdvances(device, maxRequests, last, before.tour);
    }
    if r.ok && !r.tour.truncated {
      CoversAll(device, starts, TraceOf(r.tour));
    }
  }

  // ---- the order of rows ----

  lemma EmptyGroup(device: Device, maxRequests: int, path: string, t: Tour)
    requires device(path) == Rows([]) && |t.asked| < maxRequests
    ensures GroupWalk(device, maxRequests, path, t) == Outcome(t.(asked := t.asked + [path]), true)
  {
  }

  lemma OneGroup(device: Device, maxRequests: int, rows: seq<ObjectRow>)
    requires device("g") == Rows(rows) && !SelfEcho(device, "g") && maxRequests > 0
    ensures StartsWalk(device, maxRequests, ["g"])
      == RowsWalk(device, maxRequests, "g", rows, Tour(["g"], [], [], false))
  {
    assert ["g"][..0] == [];
    assert StartsWalk(device, maxRequests, []) == Outcome(Tour([], [], [], false), true);
    assert [] + ["g"] == ["g"];
  }

  /** Two rows of one path, a node and a plain leaf, in a device that has nothing below them. */
  ghost predicate Ambiguous(device: Device, node: ObjectRow, leaf: ObjectRow) {
    Node(node) && !Node(leaf) && node.path == leaf.path == "x" && device("x") == Rows([])
  }

  /** The leaf is lost when the node comes first, although nothing was truncated. */
  lemma LeafLost(device: Device, node: ObjectRow, leaf: ObjectRow, maxRequests: int)
    requires Ambiguous(device, node, leaf) && device("g") == Rows([node, leaf]) && maxRequests >= 2
    ensures LeafIn(device, ["g"], leaf)
    ensures StartsWalk(device, maxRequests, ["g"]) == Outcome(Tour(["g"] + ["x"], ["x"], [], false), true)
  {
    var rows, t := [node, leaf], Tour(["g"], [], [], false);
    assert rows[1] == leaf;
    OneStart(device, leaf);
    OneGroup(device, maxRequests, rows);
    EmptyGroup(device, maxRequests, "x", t.(probed := t.probed + ["x"]));
    assert rows[1..] == [leaf];
    SkipFirst(device, maxRequests, "g", [leaf], Tour(["g"] + ["x"], [] + ["x"], [], false));
  }

  /** The same rows the other way round: the leaf is kept. */
  lemma LeafKept(device: Device, node: ObjectRow, leaf: ObjectRow, maxRequests: int)
    requires Ambiguous(device, node, leaf) && device("g") == Rows([leaf, node]) && maxRequests >= 2
    ensures LeafIn(device, ["g"], leaf)
    ensures StartsWalk(device, maxRequests, ["g"]) == Outcome(Tour(["g"] + ["x"], ["x"], [leaf], false), true)
  {
    var rows, t := [leaf, node], Tour(["g"], [], [], false);
    assert rows[0] == leaf;
    OneStart(device, leaf);
    OneGroup(device, maxRequests, rows);
    LeafFirst(device, maxRequests, "g", rows, t);
    assert rows[1..] == [node];
    var kept := t.(leaves := t.leaves + [leaf]);
    EmptyGroup(device, maxRequests, "x", kept.(probed := kept.probed + ["x"]));
  }

  lemma OneStart(device: Device, leaf: ObjectRow)
    requires LeafRow(device, "g", leaf)
    ensures LeafIn(device, ["g"], leaf)
  {
    ReachesSelf(Probing(device), "g");
    assert "g" in ["g"] && InTree(device, ["g"], "g");
  }

  // ---- the same in plain terms ----

  /** A walk from `t` asked for the group and for paths it asked for as children. */
  ghost predicate AsksChildren(device: Device, group: string, t: Tour, r: Outcome) {
    && (forall a :: a in r.tour.asked ==> a in t.asked || a == group || a in r.tour.probed)
    && (forall c :: c in t.probed ==> c in r.tour.probed)
    && (r.ok ==> forall a :: a in r.tour.asked ==> a in t.asked || device(a).Rows?)
  }

  lemma {:induction false} GroupAsks(device: Device, maxRequests: int, group: string, t: Tour)
    ensures AsksChildren(device, group, t, GroupWalk(device, maxRequests, group, t))
    decreases maxRequests - |t.asked|, 0, 0
  {
    if |t.asked| < maxRequests && device(group).Rows? && !SelfEcho(device, group) {
      RowsAsk(device, maxRequests, group, device(group).rows, t.(asked := t.asked + [group]));
    }
  }

  lemma {:induction false} RowsAsk(device: Device, maxRequests: int, group: string, rows: seq<ObjectRow>, t: Tour)
    ensures AsksChildren(device, group, t, RowsWalk(device, maxRequests, group, rows, t))
    decreases maxRequests - |t.asked|, 1, |rows|
  {
    if rows != [] {
      var ov := rows[0];
      if ov.path == "" || ov.path == group || ov.path in t.probed {
        RowsAsk(device, maxRequests, group, rows[1..], t);
      } else if !Node(ov) {
        RowsAsk(device, maxRequests, group, rows[1..], t.(leaves := t.leaves + [ov]));
      } else {
        ChildAsks(device, maxRequests, group, rows, t);
      }
    }
  }

  lemma {:induction false} ChildAsks(device: Device, maxRequests: int, group: string, rows: seq<ObjectRow>, t: Tour)
    requires rows != [] && rows[0].path !in t.probed && rows[0].path != "" && rows[0].path != group && Node(rows[0])
    ensures AsksChildren(device, group, t, RowsWalk(device, maxRequests, group, rows, t))
    decreases maxRequests - |t.asked|, 1, |rows|, 0
  {
    var probing := t.(probed := t.probed + [rows[0].path]);
    GroupAsks(device, maxRequests, rows[0].path, probing);
    var below := GroupWalk(device, maxRequests, rows[0].path, probing);
    if below.ok {
      RowsAsk(device, maxRequests, group, rows[1..], below.tour);
    }
  }

  lemma {:induction false} StartsAsk(device: Device, maxRequests: int, starts: seq<string>)
    ensures var r := StartsWalk(device, maxRequests, starts);
      && (forall a :: a in r.tour.asked ==> a in starts || a in r.tour.probed)
      && (r.ok ==> forall a :: a in r.tour.asked ==> device(a).Rows?)
  {
    if starts != [] {
      var front, last := starts[..|starts| - 1], starts[|starts| - 1];
      assert starts == front + [last];
      StartsAsk(device, maxRequests, front);
      var before := StartsWalk(device, maxRequests, front);
      if before.ok {
        GroupAsks(device, maxRequests, last, before.tour);
      }
    }
  }

  /** A walk that was neither refused nor cut short has explored the tree, row by row. */
  lemma WalkExplores(device: Device, maxRequests: int, starts: seq<string>)
    requires var r := StartsWalk(device, maxRequests, starts); r.ok && !r.tour.truncated
    ensures var tour := StartsWalk(device, maxRequests, starts).tour;
      Explored(device, starts, tour.asked, tour.leaves)
  {
    var tour := StartsWalk(device, maxRequests, starts).tour;
    WalkCovers(device, maxRequests, starts);
    StartsAsk(device, maxRequests, starts);
    NodesAsked(device, starts, tour);
    RowsExplored(device, starts, tour);
    LeavesExplored(device, starts, tour);
  }

  lemma NodesAsked(device: Device, starts: seq<string>, tour: Tour)
    requires Covers(device, starts, TraceOf(tour), true)
    ensures forall c :: c in tour.probed ==> HandleIn(device, tour.asked, c)
  {
    forall c | c in tour.probed
      ensures HandleIn(device, tour.asked, c)
    {
      assert NodeIn(device, starts, c);
      var g :| InTree(device, starts, g) && Probes(device, g, c);
      WalkedAll(device, starts, TraceOf(tour), g);
      HandleProbes(device, g, c);
    }
  }

  lemma RowsExplored(device: Device, starts: seq<string>, tour: Tour)
    requires Covers(device, starts, TraceOf(tour), true)
    requires forall c :: c in tour.probed ==> HandleIn(device, tour.asked, c)
    ensures forall g, ov :: g in tour.asked && Below(device, g, ov) && Handle(ov) ==> ov.path in tour.asked
    ensures forall g, ov :: g in tour.asked && Echo(device, g, ov) ==> ov in tour.leaves
    ensures forall g, ov :: g in tour.asked && Below(device, g, ov) && !Handle(ov) ==>
      ov in tour.leaves || HandleIn(device, tour.asked, ov.path)
  {
    var t := TraceOf(tour);
    forall g, ov | g in tour.asked
      ensures Below(device, g, ov) && Handle(ov) ==> ov.path in tour.asked
      ensures Echo(device, g, ov) ==> ov in tour.leaves
      ensures Below(device, g, ov) && !Handle(ov) ==> ov in tour.leaves || HandleIn(device, tour.asked, ov.path)
    {
      assert Covered(device, g, t.walked, t.visited, t.leaves);
      HandleProbes(device, g, ov.path);
      LeafRowIff(device, g, ov);
      EchoIff(device, g);
      assert LeafRow(device, g, ov) ==> Recorded(device, g, ov, t.visited, t.leaves);
    }
  }

  lemma LeavesExplored(device: Device, starts: seq<string>, tour: Tour)
    requires Covers(device, starts, TraceOf(tour), true)
    ensures forall ov :: ov in tour.leaves ==> LeafUnder(device, tour.asked, ov)
  {
    forall ov | ov in tour.leaves
      ensures LeafUnder(device, tour.asked, ov)
    {
      assert LeafIn(device, starts, ov);
      var g :| InTree(device, starts, g) && LeafRow(device, g, ov);
      WalkedAll(device, starts, TraceOf(tour), g);
      LeafRowIff(device, g, ov);
    }
  }

  /** A walk is cut short only when the budget is spent, and stopped only by an answer that the
      device refused. */
  ghost predicate Honest(device: Device, maxRequests: int, t: Tour, r: Outcome) {
    && (r.tour.truncated && !t.truncated ==> |r.tour.asked| >= maxRequests)
    && (!r.ok ==> r.tour.asked != [] && device(r.tour.asked[|r.tour.asked| - 1]).Refused?)
  }

  lemma {:induction false} GroupHonest(device: Device, maxRequests: int, group: string, t: Tour)
    ensures Honest(device, maxRequests, t, GroupWalk(device, maxRequests, group, t))
    decreases maxRequests - |t.asked|, 0, 0
  {
    if |t.asked| < maxRequests && device(group).Rows? && !SelfEcho(device, group) {
      RowsHonest(device, maxRequests, group, device(group).rows, t.(asked := t.asked + [group]));
    }
  }

  lemma {:induction false} RowsHonest(device: Device, maxRequests: int, group: string, rows: seq<ObjectRow>, t: Tour)
    ensures Honest(device, maxRequests, t, RowsWalk(device, maxRequests, group, rows, t))
    decreases maxRequests - |t.asked|, 1, |rows|
  {
    if rows != [] {
      var ov := rows[0];
      if ov.path == "" || ov.path == group || ov.path in t.probed {
        RowsHonest(device, maxRequests, group, rows[1..], t);
      } else if !Node(ov) {
        RowsHonest(device, maxRequests, group, rows[1..], t.(leaves := t.leaves + [ov]));
      } else {
        ChildHonest(device, maxRequests, group, rows, t);
      }
    }
  }

  lemma {:induction false} ChildHonest(device: Device, maxRequests: int, group: string, rows: seq<ObjectRow>, t: Tour)
    requires rows != [] && rows[0].path !in t.probed && rows[0].path != "" && rows[0].path != group && Node(rows[0])
    ensures Honest(device, maxRequests, t, RowsWalk(device, maxRequests, group, rows, t))
    decreases maxRequests - |t.asked|, 1, |rows|, 0
  {
    var probing := t.(probed := t.probed + [rows[0].path]);
    GroupHonest(device, maxRequests, rows[0].path, probing);
    var below := GroupWalk(device, maxRequests, rows[0].path, probing);
    if below.ok {
      RowsHonest(device, maxRequests, group, rows[1..], below.tour);
    }
  }

  lemma {:induction false} StartsHonest(device: Device, maxRequests: int, starts: seq<string>)
    ensures Honest(device, maxRequests, Tour([], [], [], false), StartsWalk(device, maxRequests, starts))
  {
    if starts != [] {
      var front, last := starts[..|starts| - 1], starts[|starts| - 1];
      StartsHonest(device, maxRequests, front);
      var before := StartsWalk(device, maxRequests, front);
      if before.ok {
        GroupHonest(device, maxRequests, last, before.tour);
      }
    }
  }
}
