/** The object tree of a device as its answers describe it: which groups a walk can reach,
    and which rows are leaves. */
module DeviceTree {
  import opened Text
  import opened Reach

  datatype ObjectRow = ObjectRow(path: string, dataType: string, value: string)

  /** What the device answers when a path is asked for. */
  datatype Answer = Refused | Rows(rows: seq<ObjectRow>)

  type Device = string -> Answer

  // ---- telling nodes from leaves ----

  /** A row of a scalar type is never a node. */
  predicate ScalarLeaf(ov: ObjectRow) {
    ToUpper(Trim(ov.dataType)) in {"INTEGER", "INT", "UNSIGNED", "ENUM", "BOOL", "BOOLEAN",
                                   "FLOAT", "DOUBLE", "REAL", "IDENTIFIER"}
  }

  predicate IsHex(c: char) {
    '0' <= c <= '9' || 'a' <= c <= 'f' || 'A' <= c <= 'F'
  }

  predicate LooksLikeUuid(text: string) {
    var s := Trim(text);
    |s| == 36 && forall i :: 0 <= i < 36 ==> if i in {8, 13, 18, 23} then s[i] == '-' else IsHex(s[i])
  }

  /** Worth asking: a typeless row, or a string that could be a list of child handles. */
  predicate MaybeNode(ov: ObjectRow) {
    if Trim(ov.dataType) == "" then true
    else if !EqualFold(Trim(ov.dataType), "STRING") then false
    else
      var v := Trim(ov.value);
      v == "" || ',' in v || LooksLikeUuid(v)
  }

  predicate Node(ov: ObjectRow) {
    !ScalarLeaf(ov) && MaybeNode(ov)
  }

  // ---- the graph of the device ----

  /** A path that answers with itself alone is a leaf, whatever it looked like. */
  predicate SelfEcho(device: Device, g: string) {
    var a := device(g);
    g != "" && a.Rows? && |a.rows| == 1 && a.rows[0].path == g
  }

  predicate ChildRow(device: Device, g: string, ov: ObjectRow) {
    device(g).Rows? && !SelfEcho(device, g) && ov in device(g).rows && ov.path != "" && ov.path != g
  }

  ghost predicate Probes(device: Device, g: string, c: string) {
    exists ov :: ChildRow(device, g, ov) && Node(ov) && ov.path == c
  }

  ghost function Probing(device: Device): Edges {
    (g, c) => Probes(device, g, c)
  }

  /** A row that is a leaf where it stands: an echo, or a child that cannot be a node. */
  predicate LeafRow(device: Device, g: string, ov: ObjectRow) {
    if SelfEcho(device, g) then ov == device(g).rows[0]
    else ChildRow(device, g, ov) && !Node(ov)
  }

  // ---- the part of the tree a walk has covered ----

  ghost predicate Reached(device: Device, g: string, before: set<string>, after: set<string>) {
    before <= after && forall x :: x in after && x !in before ==> Reaches(Probing(device), g, x)
  }

  /** A leaf row that has been recorded, or whose path has been asked for as a node. */
  predicate Recorded(device: Device, x: string, ov: ObjectRow, visited: set<string>, leaves: seq<ObjectRow>) {
    ov in leaves || (!SelfEcho(device, x) && ov.path in visited)
  }

  ghost predicate Covered(device: Device, x: string, walked: set<string>, visited: set<string>,
                          leaves: seq<ObjectRow>) {
    && (forall c :: Probes(device, x, c) ==> c in walked)
    && (forall ov :: LeafRow(device, x, ov) ==> Recorded(device, x, ov, visited, leaves))
  }

  /** Everything added since `before` is covered, `except` perhaps excepted. */
  ghost predicate Settled(device: Device, before: set<string>, walked: set<string>, except: set<string>,
                          visited: set<string>, leaves: seq<ObjectRow>)
  {
    forall x :: x in walked && x !in before && x !in except ==> Covered(device, x, walked, visited, leaves)
  }

  lemma CoveredStill(device: Device, x: string, walked: set<string>, visited: set<string>, leaves: seq<ObjectRow>,
                     walked': set<string>, visited': set<string>, leaves': seq<ObjectRow>)
    requires Covered(device, x, walked, visited, leaves)
    requires walked <= walked' && visited <= visited' && leaves <= leaves'
    ensures Covered(device, x, walked', visited', leaves')
  {
    forall ov | LeafRow(device, x, ov)
      ensures Recorded(device, x, ov, visited', leaves')
    {
      assert Recorded(device, x, ov, visited, leaves);
      assert ov in leaves ==> ov in leaves';
    }
  }

  /** The walk of a child joins the walk of its group. */
  lemma JoinWalk(device: Device, group: string, child: string, before: set<string>, mid: set<string>,
                 after: set<string>)
    requires Reached(device, group, before, mid) && Reached(device, child, mid, after) && Probes(device, group, child)
    ensures Reached(device, group, before, after)
  {
    forall x | x in after && x !in before
      ensures Reaches(Probing(device), group, x)
    {
      if x !in mid {
        ReachesFrom(Probing(device), group, child, x);
      }
    }
  }

  lemma JoinSettled(device: Device, before: set<string>, mid: set<string>, after: set<string>, except: set<string>,
                    visited: set<string>, leaves: seq<ObjectRow>, visited': set<string>, leaves': seq<ObjectRow>)
    requires before <= mid <= after && visited <= visited' && leaves <= leaves'
    requires Settled(device, before, mid, except, visited, leaves) && Settled(device, mid, after, {}, visited', leaves')
    ensures Settled(device, before, after, except, visited', leaves')
  {
    forall x | x in after && x !in before && x !in except
      ensures Covered(device, x, after, visited', leaves')
    {
      if x in mid {
        CoveredStill(device, x, mid, visited, leaves, after, visited', leaves');
      }
    }
  }

  /** The rows of a group handled so far. */
  ghost predicate Handled(group: string, rows: seq<ObjectRow>, walked: set<string>, visited: set<string>,
                          leaves: seq<ObjectRow>) {
    forall ov :: ov in rows && ov.path != "" && ov.path != group ==>
      if Node(ov) then ov.path in walked else ov in leaves || ov.path in visited
  }

  /** Every recorded row is a leaf of some group reachable from `g`, or was there before. */
  ghost predicate SoundFrom(device: Device, g: string, before: seq<ObjectRow>, leaves: seq<ObjectRow>) {
    forall ov :: ov in leaves && ov !in before ==> LeafOf(device, g, ov)
  }

  ghost predicate LeafOf(device: Device, g: string, ov: ObjectRow) {
    exists x :: Reaches(Probing(device), g, x) && LeafRow(device, x, ov)
  }

  lemma SoundAdd(device: Device, g: string, before: seq<ObjectRow>, leaves: seq<ObjectRow>, ov: ObjectRow)
    requires SoundFrom(device, g, before, leaves) && LeafRow(device, g, ov)
    ensures SoundFrom(device, g, before, leaves + [ov])
  {
    ReachesSelf(Probing(device), g);
    assert LeafOf(device, g, ov);
  }

  lemma SoundJoin(device: Device, group: string, child: string, before: seq<ObjectRow>, mid: seq<ObjectRow>,
                  leaves: seq<ObjectRow>)
    requires SoundFrom(device, group, before, mid) && SoundFrom(device, child, mid, leaves)
      && Probes(device, group, child)
    ensures SoundFrom(device, group, before, leaves)
  {
    forall ov | ov in leaves && ov !in before
      ensures LeafOf(device, group, ov)
    {
      if ov !in mid {
        assert LeafOf(device, child, ov);
        var x :| Reaches(Probing(device), child, x) && LeafRow(device, x, ov);
        ReachesFrom(Probing(device), group, child, x);
      }
    }
  }

  /** Every path asked for as a child since `before` stands as a node in some reachable group. */
  ghost predicate NodesFrom(device: Device, g: string, before: set<string>, visited: set<string>) {
    forall c :: c in visited && c !in before ==> NodeOf(device, g, c)
  }

  ghost predicate NodeOf(device: Device, g: string, c: string) {
    exists x :: Reaches(Probing(device), g, x) && Probes(device, x, c)
  }

  lemma NodesJoin(device: Device, group: string, child: string, before: set<string>, mid: set<string>,
                  visited: set<string>)
    requires NodesFrom(device, group, before, mid) && NodesFrom(device, child, mid + {child}, visited)
      && Probes(device, group, child)
    ensures NodesFrom(device, group, before, visited)
  {
    ReachesSelf(Probing(device), group);
    assert NodeOf(device, group, child);
    forall c | c in visited && c !in before
      ensures NodeOf(device, group, c)
    {
      if c !in mid && c != child {
        assert NodeOf(device, child, c);
        var x :| Reaches(Probing(device), child, x) && Probes(device, x, c);
        ReachesFrom(Probing(device), group, child, x);
      }
    }
  }

  // ---- steps of a walk ----

  /** What a walk has asked for, asked for as a child, and recorded. */
  datatype Trace = Trace(walked: set<string>, visited: set<string>, leaves: seq<ObjectRow>)

  ghost predicate Grows(s: Trace, t: Trace) {
    s.walked <= t.walked && s.visited <= t.visited && s.leaves <= t.leaves
  }

  /** The walk of a group, from `s` to `t`. Unless something was left out, what is new is
      covered: each node below it asked for, each leaf recorded. */
  ghost predicate Advanced(device: Device, group: string, s: Trace, t: Trace, complete: bool) {
    && Grows(s, t) && NodesFrom(device, group, s.visited, t.visited)
    && Reached(device, group, s.walked, t.walked) && SoundFrom(device, group, s.leaves, t.leaves)
    && (complete ==>
      group in t.walked && t.visited <= t.walked && Settled(device, s.walked, t.walked, {}, t.visited, t.leaves))
  }

  /** The same in the middle of the rows of a group's answer. */
  ghost predicate Partly(device: Device, group: string, s: Trace, t: Trace, done: seq<ObjectRow>, complete: bool) {
    && Grows(s, t) && group in t.walked && NodesFrom(device, group, s.visited, t.visited)
    && Reached(device, group, s.walked, t.walked) && SoundFrom(device, group, s.leaves, t.leaves)
    && (complete ==>
          && t.visited <= t.walked && Settled(device, s.walked, t.walked, {group}, t.visited, t.leaves)
          && Handled(group, done, t.walked, t.visited, t.leaves))
  }

  lemma PartlyStart(device: Device, group: string, s: Trace, complete: bool)
    requires complete ==> s.visited <= s.walked + {group}
    ensures Partly(device, group, s, s.(walked := s.walked + {group}), [], complete)
  {
    ReachesSelf(Probing(device), group);
  }

  lemma PartlyLeaf(device: Device, group: string, s: Trace, t: Trace, done: seq<ObjectRow>, ov: ObjectRow,
                   complete: bool)
    requires Partly(device, group, s, t, done, complete) && ChildRow(device, group, ov) && !Node(ov)
    ensures Partly(device, group, s, t.(leaves := t.leaves + [ov]), done + [ov], complete)
  {
    var u := t.(leaves := t.leaves + [ov]);
    SoundAdd(device, group, s.leaves, t.leaves, ov);
    if complete {
      SettledStill(device, s.walked, t.walked, {group}, t.visited, t.leaves, u.leaves);
    }
  }

  lemma SettledStill(device: Device, before: set<string>, walked: set<string>, except: set<string>,
                     visited: set<string>, leaves: seq<ObjectRow>, leaves': seq<ObjectRow>)
    requires Settled(device, before, walked, except, visited, leaves) && leaves <= leaves'
    ensures Settled(device, before, walked, except, visited, leaves')
  {
    forall x | x in walked && x !in before && x !in except
      ensures Covered(device, x, walked, visited, leaves')
    {
      CoveredStill(device, x, walked, visited, leaves, walked, visited, leaves');
    }
  }

  lemma PartlyChild(device: Device, group: string, s: Trace, t: Trace, u: Trace, done: seq<ObjectRow>, ov: ObjectRow,
                    before: bool, after: bool)
    requires Partly(device, group, s, t, done, before) && ChildRow(device, group, ov) && Node(ov)
    requires Advanced(device, ov.path, t.(visited := t.visited + {ov.path}), u, after) && (after ==> before)
    ensures Partly(device, group, s, u, done + [ov], after)
  {
    assert Probes(device, group, ov.path);
    JoinWalk(device, group, ov.path, s.walked, t.walked, u.walked);
    NodesJoin(device, group, ov.path, s.visited, t.visited, u.visited);
    SoundJoin(device, group, ov.path, s.leaves, t.leaves, u.leaves);
    if after {
      JoinSettled(device, s.walked, t.walked, u.walked, {group}, t.visited, t.leaves, u.visited, u.leaves);
    }
  }

  lemma PartlyEcho(device: Device, group: string, s: Trace, t: Trace, complete: bool)
    requires SelfEcho(device, group) && Partly(device, group, s, t, [], complete)
    ensures Advanced(device, group, s, t.(leaves := t.leaves + [device(group).rows[0]]), complete)
  {
    var row := device(group).rows[0];
    SoundAdd(device, group, s.leaves, t.leaves, row);
    if complete {
      SettledStill(device, s.walked, t.walked, {group}, t.visited, t.leaves, t.leaves + [row]);
    }
  }

  // ---- the whole tree ----

  ghost predicate InTree(device: Device, starts: seq<string>, g: string) {
    exists s :: s in starts && Reaches(Probing(device), s, g)
  }

  ghost predicate NodeIn(device: Device, starts: seq<string>, c: string) {
    exists g :: InTree(device, starts, g) && Probes(device, g, c)
  }

  ghost predicate LeafIn(device: Device, starts: seq<string>, ov: ObjectRow) {
    exists g :: InTree(device, starts, g) && LeafRow(device, g, ov)
  }

  /** The leaf row was recorded, or its path was asked for as a node instead. */
  ghost predicate Accounted(device: Device, starts: seq<string>, leaves: seq<ObjectRow>, g: string, ov: ObjectRow) {
    ov in leaves || (!SelfEcho(device, g) && NodeIn(device, starts, ov.path))
  }

  ghost predicate Sound(device: Device, starts: seq<string>, leaves: seq<ObjectRow>) {
    forall ov :: ov in leaves ==> LeafIn(device, starts, ov)
  }

  ghost predicate Complete(device: Device, starts: seq<string>, leaves: seq<ObjectRow>) {
    forall g, ov :: InTree(device, starts, g) && LeafRow(device, g, ov) ==> Accounted(device, starts, leaves, g, ov)
  }

  /** The walk of several start groups: the stages of the walks of each. */
  ghost predicate Covers(device: Device, starts: seq<string>, t: Trace, complete: bool) {
    && Sound(device, starts, t.leaves)
    && (forall c :: c in t.visited ==> NodeIn(device, starts, c))
    && (complete ==>
          && t.visited <= t.walked && (forall s :: s in starts ==> s in t.walked)
          && Settled(device, {}, t.walked, {}, t.visited, t.leaves))
  }

  /** A complete walk has covered everything the start groups reach. */
  lemma CoversAll(device: Device, starts: seq<string>, t: Trace)
    requires Covers(device, starts, t, true)
    ensures Complete(device, starts, t.leaves)
  {
    forall g, ov | InTree(device, starts, g) && LeafRow(device, g, ov)
      ensures Accounted(device, starts, t.leaves, g, ov)
    {
      WalkedAll(device, starts, t, g);
      assert Covered(device, g, t.walked, t.visited, t.leaves);
      assert Recorded(device, g, ov, t.visited, t.leaves);
    }
  }

  lemma WalkedAll(device: Device, starts: seq<string>, t: Trace, g: string)
    requires Covers(device, starts, t, true) && InTree(device, starts, g)
    ensures g in t.walked
  {
    var s :| s in starts && Reaches(Probing(device), s, g);
    forall a, b | a in t.walked && Probing(device)(a, b)
      ensures b in t.walked
    {
      assert Covered(device, a, t.walked, t.visited, t.leaves);
      assert Probes(device, a, b);
    }
    ClosedHolds(Probing(device), t.walked, s, g);
  }

  // ---- when the recorded leaves are exactly the leaves of the tree ----

  /** A path that stands as a plain leaf and as a node answers, when asked, with the very
      leaf row. */
  ghost predicate EchoesAlike(device: Device, starts: seq<string>) {
    forall g, ov :: InTree(device, starts, g) && PlainLeaf(device, g, ov) && NodeIn(device, starts, ov.path) ==>
      Echoes(device, ov)
  }

  predicate PlainLeaf(device: Device, g: string, ov: ObjectRow) {
    ChildRow(device, g, ov) && !Node(ov)
  }

  predicate Echoes(device: Device, ov: ObjectRow) {
    SelfEcho(device, ov.path) && device(ov.path).rows[0] == ov
  }

  /** A node in the tree is itself a group of the tree. */
  lemma NodeInTree(device: Device, starts: seq<string>, c: string)
    requires NodeIn(device, starts, c)
    ensures InTree(device, starts, c)
  {
    var h :| InTree(device, starts, h) && Probes(device, h, c);
    var s :| s in starts && Reaches(Probing(device), s, h);
    ReachesOn(Probing(device), s, h, c);
  }

  lemma ExactLeaves(device: Device, starts: seq<string>, leaves: seq<ObjectRow>)
    requires Sound(device, starts, leaves) && Complete(device, starts, leaves) && EchoesAlike(device, starts)
    ensures forall ov :: ov in leaves <==> LeafIn(device, starts, ov)
  {
    forall ov | LeafIn(device, starts, ov)
      ensures ov in leaves
    {
      var g :| InTree(device, starts, g) && LeafRow(device, g, ov);
      assert Accounted(device, starts, leaves, g, ov);
      if !SelfEcho(device, g) && NodeIn(device, starts, ov.path) {
        assert PlainLeaf(device, g, ov) && Echoes(device, ov);
        NodeInTree(device, starts, ov.path);
        assert LeafRow(device, ov.path, ov);
        assert Accounted(device, starts, leaves, ov.path, ov);
      }
    }
  }

  /** A path that stands as a leaf and as a node turns out to be a leaf when asked. */
  ghost predicate EchoesSettle(device: Device, starts: seq<string>) {
    forall g, ov :: InTree(device, starts, g) && LeafRow(device, g, ov) && NodeIn(device, starts, ov.path) ==>
      SelfEcho(device, ov.path)
  }

  /** With that weaker condition the leaf paths, if not every row of them, are complete. */
  lemma ExactLeafPaths(device: Device, starts: seq<string>, leaves: seq<ObjectRow>)
    requires Sound(device, starts, leaves) && Complete(device, starts, leaves) && EchoesSettle(device, starts)
    ensures forall ov :: LeafIn(device, starts, ov) ==> exists l :: l in leaves && l.path == ov.path
  {
    forall ov | LeafIn(device, starts, ov)
      ensures exists l :: l in leaves && l.path == ov.path
    {
      var g :| InTree(device, starts, g) && LeafRow(device, g, ov);
      assert Accounted(device, starts, leaves, g, ov);
      if ov !in leaves {
        NodeInTree(device, starts, ov.path);
        var echo := device(ov.path).rows[0];
        assert InTree(device, starts, ov.path) && LeafRow(device, ov.path, echo);
        assert Accounted(device, starts, leaves, ov.path, echo);
      }
    }
  }
}
