/** The lock leg: the plan that takes the live locks to the listed ones, and why it never
    clears a lock nobody asked to clear. */
module Locks {
  import opened Text

  /** One lock of a snapshot; `id` is a destination, or a source in a source-lock snapshot. */
  datatype LockSpec = LockSpec(id: string, level: string, state: string, lockedBy: string)

  datatype LockRow = LockRow(id: string, state: string, levels: seq<string>, lockedBy: string)

  datatype LockChange = LockChange(id: string, level: string, from: string, to: string)
  {
    function Target(): LockCell {
      LockCell(id, level)
    }
  }

  datatype LockCell = LockCell(id: string, level: string)

  /** The locks of the server; a cell that is absent is released. */
  type LockMap = map<LockCell, string>

  const RELEASED := "RELEASED"

  /** The states a file may ask for. */
  predicate Accepted(state: string) {
    state in {"LOCKED", "PROTECTED", "LOCKED_PATH", "PROTECTED_PATH", RELEASED}
  }

  function StateOf(l: LockSpec): string {
    var s := ToUpper(Trim(l.state));
    if s == "" then RELEASED else s
  }

  /** The locks a snapshot describes; a later row of the same cell wins. */
  function LocksOf(live: seq<LockSpec>): LockMap {
    if live == [] then map[]
    else
      var l := live[|live| - 1];
      LocksOf(live[..|live| - 1])[LockCell(l.id, l.level) := StateOf(l)]
  }

  function State(locks: LockMap, k: LockCell): string {
    if k in locks then locks[k] else RELEASED
  }

  function RowDiff(locks: LockMap, row: LockRow, levels: seq<string>): seq<LockChange> {
    if levels == [] then []
    else
      var level, before := levels[|levels| - 1], RowDiff(locks, row, levels[..|levels| - 1]);
      var from := State(locks, LockCell(row.id, level));
      if from != row.state then before + [LockChange(row.id, level, from, row.state)] else before
  }

  function LockDiff(locks: LockMap, want: seq<LockRow>): seq<LockChange> {
    if want == [] then []
    else
      var row := want[|want| - 1];
      LockDiff(locks, want[..|want| - 1]) + RowDiff(locks, row, row.levels)
  }

  method CollectLocks(live: seq<LockSpec>) returns (cur: LockMap)
    ensures cur == LocksOf(live)
  {
    cur := map[];
    for i := 0 to |live|
      invariant cur == LocksOf(live[..i])
    {
      assert live[..i + 1][..i] == live[..i];
      var state := ToUpper(Trim(live[i].state));
      if state == "" {
        state := "RELEASED";
      }
      cur := cur[LockCell(live[i].id, live[i].level) := state];
    }
    assert live[..|live|] == live;
  }

  method DiffRow(cur: LockMap, w: LockRow) returns (out: seq<LockChange>)
    ensures out == RowDiff(cur, w, w.levels)
  {
    out := [];
    for j := 0 to |w.levels|
      invariant out == RowDiff(cur, w, w.levels[..j])
    {
      assert w.levels[..j + 1][..j] == w.levels[..j];
      var k := LockCell(w.id, w.levels[j]);
      var from := if k in cur then cur[k] else "RELEASED";
      if from != w.state {
        out := out + [LockChange(w.id, w.levels[j], from, w.state)];
      }
    }
    assert w.levels[..|w.levels|] == w.levels;
  }

  method DiffLocks(live: seq<LockSpec>, want: seq<LockRow>) returns (out: seq<LockChange>)
    ensures out == LockDiff(LocksOf(live), want)
  {
    var cur := CollectLocks(live);
    out := [];
    for i := 0 to |want|
      invariant out == LockDiff(cur, want[..i])
    {
      assert want[..i + 1][..i] == want[..i];
      var changes := DiffRow(cur, want[i]);
      out := out + changes;
    }
    assert want[..|want|] == want;
  }

  // ---- running a plan ----

  /** The plan sent in order. A change to a state outside the wire's set is skipped, a
      refused one leaves the lock as it was. */
  function Run(locks: LockMap, plan: seq<LockChange>, accepts: LockChange -> bool): LockMap {
    if plan == [] then locks
    else
      var c, before := plan[|plan| - 1], Run(locks, plan[..|plan| - 1], accepts);
      if Accepted(c.to) && accepts(c) then before[c.Target() := c.to] else before
  }

  function Everything(): LockChange -> bool {
    c => true
  }

  predicate Names(row: LockRow, k: LockCell) {
    row.id == k.id && k.level in row.levels
  }

  lemma {:induction false} RowDiffMember(locks: LockMap, row: LockRow, levels: seq<string>, c: LockChange)
    ensures c in RowDiff(locks, row, levels)
       <==> c.id == row.id && c.level in levels && c.to == row.state
            && c.from == State(locks, c.Target()) && c.from != c.to
  {
    if levels != [] {
      assert levels == levels[..|levels| - 1] + [levels[|levels| - 1]];
      RowDiffMember(locks, row, levels[..|levels| - 1], c);
    }
  }

  /** The plan holds one change for every cell a row names that is in another state. */
  lemma {:induction false} PlanMember(locks: LockMap, want: seq<LockRow>, c: LockChange)
    ensures c in LockDiff(locks, want)
       <==> c.from == State(locks, c.Target()) && c.from != c.to
            && exists row :: row in want && Names(row, c.Target()) && row.state == c.to
  {
    if want != [] {
      var front, last := want[..|want| - 1], want[|want| - 1];
      assert want == front + [last];
      PlanMember(locks, front, c);
      RowDiffMember(locks, last, last.levels, c);
    }
  }

  lemma {:induction false} RunEffect(locks: LockMap, plan: seq<LockChange>, accepts: LockChange -> bool, k: LockCell)
    ensures State(Run(locks, plan, accepts), k) == State(locks, k)
         || exists c ::
              && c in plan && c.Target() == k && accepts(c) && Accepted(c.to)
              && c.to == State(Run(locks, plan, accepts), k)
  {
    if plan != [] {
      var front, last := plan[..|plan| - 1], plan[|plan| - 1];
      assert plan == front + [last];
      RunEffect(locks, front, accepts, k);
    }
  }

  /** Whatever the file and however much of the plan was sent or refused: a cell the file
      does not name keeps its lock, and a lock that was set and is now released was
      released by a row that says so. */
  lemma LocksAreSafe(locks: LockMap, want: seq<LockRow>, accepts: LockChange -> bool, n: nat, k: LockCell)
    requires n <= |LockDiff(locks, want)|
    ensures var after := State(Run(locks, LockDiff(locks, want)[..n], accepts), k);
      && ((forall row :: row in want ==> !Names(row, k)) ==> after == State(locks, k))
      && (State(locks, k) != RELEASED && after == RELEASED ==>
        exists row :: row in want && Names(row, k) && row.state == RELEASED)
  {
    var plan := LockDiff(locks, want);
    RunEffect(locks, plan[..n], accepts, k);
    if c :| c in plan[..n] && c.Target() == k && c.to == State(Run(locks, plan[..n], accepts), k) {
      assert c in plan;
      PlanMember(locks, want, c);
    }
  }

  /** No cell is asked for two states. */
  ghost predicate Consistent(want: seq<LockRow>) {
    forall v, w, k :: v in want && w in want && Names(v, k) && Names(w, k) ==> v.state == w.state
  }

  lemma {:induction false} RunReaches(locks: LockMap, plan: seq<LockChange>, c: LockChange)
    requires c in plan && Accepted(c.to)
    requires forall e :: e in plan && e.Target() == c.Target() ==> e.to == c.to
    ensures State(Run(locks, plan, Everything()), c.Target()) == c.to
  {
    var front, last := plan[..|plan| - 1], plan[|plan| - 1];
    assert plan == front + [last];
    if last.Target() != c.Target() {
      RunReaches(locks, front, c);
    }
  }

  /** The plan of a consistent file puts every named cell in its state. */
  lemma LocksConverge(locks: LockMap, want: seq<LockRow>, row: LockRow, k: LockCell)
    requires Consistent(want) && row in want && Names(row, k) && forall r :: r in want ==> Accepted(r.state)
    ensures State(Run(locks, LockDiff(locks, want), Everything()), k) == row.state
  {
    var plan := LockDiff(locks, want);
    forall e | e in plan && e.Target() == k
      ensures e.to == row.state
    {
      PlanMember(locks, want, e);
    }
    var c := LockChange(k.id, k.level, State(locks, k), row.state);
    PlanMember(locks, want, c);
    if c in plan {
      RunReaches(locks, plan, c);
    } else {
      RunEffect(locks, plan, Everything(), k);
    }
  }

  lemma PlanEmptyIff(locks: LockMap, want: seq<LockRow>)
    ensures LockDiff(locks, want) == []
       <==> forall row, k :: row in want && Names(row, k) ==> State(locks, k) == row.state
  {
    if LockDiff(locks, want) != [] {
      PlanMember(locks, want, LockDiff(locks, want)[0]);
    } else {
      forall row, k | row in want && Names(row, k)
        ensures State(locks, k) == row.state
      {
        PlanMember(locks, want, LockChange(k.id, k.level, State(locks, k), row.state));
      }
    }
  }

  /** A second run plans nothing exactly when the file asks no cell for two states; of two
      conflicting rows each run undoes the other. `again` is any snapshot of the locks the
      first run left. */
  lemma LockRunTwiceIsZeroIff(locks: LockMap, want: seq<LockRow>, again: seq<LockSpec>)
    requires forall r :: r in want ==> Accepted(r.state)
    requires forall k :: State(LocksOf(again), k) == State(Run(locks, LockDiff(locks, want), Everything()), k)
    ensures LockDiff(LocksOf(again), want) == [] <==> Consistent(want)
  {
    PlanEmptyIff(LocksOf(again), want);
    if Consistent(want) {
      forall row, k | row in want && Names(row, k)
        ensures State(LocksOf(again), k) == row.state
      {
        LocksConverge(locks, want, row, k);
      }
    }
  }

  /** Two rows of one cell: whatever its lock, something is planned. */
  lemma ConflictNeverSettles(locks: LockMap)
    ensures LockDiff(locks, [LockRow("1", "LOCKED", ["1"], ""), LockRow("1", "PROTECTED", ["1"], "")]) != []
  {
    var v, w, k := LockRow("1", "LOCKED", ["1"], ""), LockRow("1", "PROTECTED", ["1"], ""), LockCell("1", "1");
    PlanEmptyIff(locks, [v, w]);
    assert v in [v, w] && w in [v, w] && Names(v, k) && Names(w, k) && v.state[0] != w.state[0];
  }

  // ---- the same in plain terms ----

  /** Row `i` is the last of its cell. */
  ghost predicate LastRow(live: seq<LockSpec>, i: int, id: string, level: string) {
    && 0 <= i < |live| && live[i].id == id && live[i].level == level
    && forall j :: i < j < |live| ==> live[j].id != id || live[j].level != level
  }

  /** A state as the snapshot spells it: in any case, white space aside, none for released. */
  ghost predicate Spells(text: string, state: string) {
    ToUpper(Trim(text)) == state || (Trim(text) == "" && state == "RELEASED")
  }

  /** The last row of the cell tells its state; without one it is released. */
  ghost predicate InState(live: seq<LockSpec>, id: string, level: string, state: string) {
    if exists i :: LastRow(live, i, id, level) then
      state != "" && exists i :: LastRow(live, i, id, level) && Spells(live[i].state, state)
    else state == "RELEASED"
  }

  lemma LastRowOf(front: seq<LockSpec>, last: LockSpec, id: string, level: string, i: int)
    ensures LastRow(front + [last], i, id, level) <==>
      if last.id == id && last.level == level then i == |front| else LastRow(front, i, id, level)
  {
    var live := front + [last];
    assert live[|front|] == last && forall j :: 0 <= j < |front| ==> live[j] == front[j];
  }

  lemma {:induction false} LastRowCounts(live: seq<LockSpec>, id: string, level: string)
    ensures LockCell(id, level) in LocksOf(live) <==> exists i :: LastRow(live, i, id, level)
    ensures forall i :: LastRow(live, i, id, level) ==>
      LockCell(id, level) in LocksOf(live) && LocksOf(live)[LockCell(id, level)] == StateOf(live[i])
  {
    if live != [] {
      var front, last := live[..|live| - 1], live[|live| - 1];
      LastRowCounts(front, id, level);
      assert live == front + [last];
      forall i
        ensures LastRow(live, i, id, level) <==>
          if last.id == id && last.level == level then i == |front| else LastRow(front, i, id, level)
      {
        LastRowOf(front, last, id, level, i);
      }
      assert last.id == id && last.level == level ==> LastRow(live, |front|, id, level);
    }
  }

  lemma StatePlain(live: seq<LockSpec>, id: string, level: string)
    ensures InState(live, id, level, State(LocksOf(live), LockCell(id, level)))
  {
    LastRowCounts(live, id, level);
    if i :| LastRow(live, i, id, level) {
      assert Spells(live[i].state, StateOf(live[i]));
    }
  }

  /** The plan holds exactly one kind of change: of a cell a row names, from the state it is in
      to the other state that the row says. */
  lemma PlanPlain(live: seq<LockSpec>, want: seq<LockRow>, c: LockChange)
    ensures c in LockDiff(LocksOf(live), want) ==>
      && InState(live, c.id, c.level, c.from) && c.from != c.to
      && exists row :: row in want && row.id == c.id && c.level in row.levels && row.state == c.to
    ensures (exists row :: row in want && row.id == c.id && c.level in row.levels && row.state == c.to) ==>
      || InState(live, c.id, c.level, c.to)
      || exists from :: LockChange(c.id, c.level, from, c.to) in LockDiff(LocksOf(live), want)
  {
    var locks, k := LocksOf(live), LockCell(c.id, c.level);
    StatePlain(live, c.id, c.level);
    PlanMember(locks, want, c);
    var d := LockChange(c.id, c.level, State(locks, k), c.to);
    PlanMember(locks, want, d);
    assert forall row :: row in want && row.id == c.id && c.level in row.levels ==> Names(row, k);
  }

  /** A change to one of the five states is carried out, any other is passed over. */
  lemma CarriedOut(locks: LockMap, c: LockChange)
    ensures Run(locks, [c], Everything()) ==
      if c.to in {"LOCKED", "PROTECTED", "LOCKED_PATH", "PROTECTED_PATH", "RELEASED"}
      then locks[LockCell(c.id, c.level) := c.to] else locks
  {
    assert [c][..0] == [] && Run(locks, [], Everything()) == locks;
  }
}
