/** The remaining sorted outputs: with comparable IDs, the same under every stable sort. */
module StablePlans {
  import opened Text
  import opened Sorting
  import opened Ids
  import Labels
  import LockFile
  import Locks
  import MatrixReplace
  import MatrixPlan
  import Connections
  import Int32Sets

  /** The label plan. */
  lemma LabelPlanOrder(ids: set<string>, live: seq<Labels.MneRow>, desired: seq<Labels.MneRow>,
                       header: seq<Labels.AltSlot>, clear: bool, sort: seq<Labels.MneChange> -> seq<Labels.MneChange>)
    requires Comparable(ids) && (forall d :: d in desired ==> d.id in ids) && Stable(Labels.ChangeLess, sort)
    ensures sort(Labels.RawDiff(Labels.Deduped(live), desired, header, clear))
      == Labels.LabelDiff(live, desired, header, clear)
  {
    var raw := Labels.RawDiff(Labels.Deduped(live), desired, header, clear);
    forall c | c in raw
      ensures c.id in ids
    {
      Labels.RawDiffMember(Labels.Deduped(live), desired, header, clear, c);
    }
    LabelChangesWeak(ids, raw);
    StableIsSort(Labels.ChangeLess, sort, raw);
  }

  lemma LabelChangesWeak(ids: set<string>, changes: seq<Labels.MneChange>)
    requires Comparable(ids) && forall c :: c in changes ==> c.id in ids
    ensures Asymmetric(Labels.ChangeLess) && WeakOrderOn(Labels.ChangeLess, changes)
  {
    forall a, b | Labels.ChangeLess(a, b)
      ensures !Labels.ChangeLess(b, a)
    {
      CmpIdSign(a.id, b.id);
    }
    forall a, b, c | a in changes && b in changes && c in changes
      ensures Splits(Labels.ChangeLess, a, b, c)
    {
      CmpIdSplits(ids, a.id, b.id, c.id);
    }
  }

  /** The rows of a lock file. */
  lemma LockRowsOrder(ids: set<string>, live: seq<Locks.LockSpec>, sort: seq<Locks.LockRow> -> seq<Locks.LockRow>)
    requires Comparable(ids) && (forall l :: l in live ==> l.id in ids) && Stable(LockFile.RowLess, sort)
    ensures sort(LockFile.RowsOf(live, LockFile.Keys(live))) == LockFile.Grouped(live)
  {
    var raw := LockFile.RowsOf(live, LockFile.Keys(live));
    forall row | row in raw
      ensures row.id in ids
    {
      SortMember(LockFile.RowLess, raw, row);
      LockFile.GroupedRow(live, row);
      LockFile.KeysMember(live, LockFile.LockKey(row.id, row.state, row.lockedBy));
    }
    LockRowsWeak(ids, raw);
    StableIsSort(LockFile.RowLess, sort, raw);
  }

  lemma LockRowsWeak(ids: set<string>, rows: seq<Locks.LockRow>)
    requires Comparable(ids) && forall row :: row in rows ==> row.id in ids
    ensures Asymmetric(LockFile.RowLess) && WeakOrderOn(LockFile.RowLess, rows)
  {
    forall a, b | LockFile.RowLess(a, b)
      ensures !LockFile.RowLess(b, a)
    {
      CmpIdSign(a.id, b.id);
      StrCmpSign(a.state, b.state);
    }
    forall a, b, c | a in rows && b in rows && c in rows
      ensures Splits(LockFile.RowLess, a, b, c)
    {
      CmpIdSplits(ids, a.id, b.id, c.id);
      TextSplits(a.state, b.state, c.state);
    }
  }

  /** The Ember+ replace plan, whose targets are numbers, in any case. */
  lemma ReplacePlanOrder(behavior: MatrixPlan.Behavior, snap: seq<Connections.TargetState>, from: Int32Sets.int32,
                         to: Int32Sets.int32, sort: seq<Connections.XpointChange> -> seq<Connections.XpointChange>)
    requires Stable(MatrixReplace.TargetLess, sort)
    ensures sort(MatrixReplace.RawPlan(behavior, snap, from, to)) == MatrixReplace.ReplacePlan(behavior, snap, from, to)
  {
    StableIsSort(MatrixReplace.TargetLess, sort, MatrixReplace.RawPlan(behavior, snap, from, to));
  }
}
