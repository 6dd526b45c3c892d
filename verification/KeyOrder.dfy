/** The order of the sorted outputs, key by key: where the IDs are comparable, each output
    ascends in its first key and, among equals of that, in the next. */
module KeyOrder {
  import opened Text
  import opened Sorting
  import opened Ids
  import Routes
  import Xpoint
  import XpointOrder
  import Labels
  import LabelRows
  import LabelOrder
  import LockFile
  import Locks
  import StablePlans

  /** The crosspoint rows: by destination, source and source level. */
  lemma XpointRowsAscend(ids: set<string>, routes: seq<Routes.RouteSpec>, i: nat, j: nat)
    requires Comparable(ids) && XpointOrder.WrittenWith(routes, ids)
    requires i < j < |Xpoint.Collapsed(routes)|
    ensures var a, b := Xpoint.Collapsed(routes)[i], Xpoint.Collapsed(routes)[j];
      || CmpId(a.dest, b.dest) < 0
      || (CmpId(a.dest, b.dest) == 0
          && (CmpId(a.srce, b.srce) < 0
              || (CmpId(a.srce, b.srce) == 0 && CmpId(a.srceLevel, b.srceLevel) <= 0)))
  {
    var raw, rows := Xpoint.RowsOf(routes, Xpoint.Keys(routes)), Xpoint.Collapsed(routes);
    XpointOrder.RawWritten(ids, routes);
    XpointOrder.RowsWeak(ids, raw);
    SortSorts(Xpoint.RowLess, raw);
    assert InOrder(Xpoint.RowLess, rows, i, j);
    CmpIdSign(rows[i].dest, rows[j].dest);
    CmpIdSign(rows[i].srce, rows[j].srce);
    CmpIdSign(rows[i].srceLevel, rows[j].srceLevel);
  }

  /** Their levels. */
  lemma LevelsAscend(ids: set<string>, levels: seq<string>, i: nat, j: nat)
    requires Comparable(ids) && (forall l :: l in levels ==> l in ids) && i < j < |Sort(IdLess, levels)|
    ensures CmpId(Sort(IdLess, levels)[i], Sort(IdLess, levels)[j]) <= 0
  {
    IdsWeak(ids, levels);
    SortSorts(IdLess, levels);
    assert InOrder(IdLess, Sort(IdLess, levels), i, j);
    CmpIdSign(Sort(IdLess, levels)[i], Sort(IdLess, levels)[j]);
  }

  /** The label plan: by ID and slot. */
  lemma LabelPlanAscends(ids: set<string>, live: seq<Labels.MneRow>, desired: seq<Labels.MneRow>,
                         header: seq<Labels.AltSlot>, clear: bool, i: nat, j: nat)
    requires Comparable(ids) && forall d :: d in desired ==> d.id in ids
    requires i < j < |Labels.LabelDiff(live, desired, header, clear)|
    ensures var plan := Labels.LabelDiff(live, desired, header, clear);
      CmpId(plan[i].id, plan[j].id) < 0 || (CmpId(plan[i].id, plan[j].id) == 0 && plan[i].slot <= plan[j].slot)
  {
    var raw := Labels.RawDiff(Labels.Deduped(live), desired, header, clear);
    var plan := Labels.LabelDiff(live, desired, header, clear);
    forall c | c in raw
      ensures c.id in ids
    {
      Labels.RawDiffMember(Labels.Deduped(live), desired, header, clear, c);
    }
    StablePlans.LabelChangesWeak(ids, raw);
    SortSorts(Labels.ChangeLess, raw);
    assert InOrder(Labels.ChangeLess, plan, i, j);
    CmpIdSign(plan[i].id, plan[j].id);
  }

  /** The merged label rows: by ID and mnemonic. */
  lemma LabelRowsAscend(ids: set<string>, rows: seq<LabelRows.SnapRow>, i: nat, j: nat)
    requires Comparable(ids) && forall r :: r in rows ==> r.mne.id in ids
    requires i < j < |LabelRows.Condensed(rows)|
    ensures var a, b := LabelRows.Condensed(rows)[i].mne, LabelRows.Condensed(rows)[j].mne;
      CmpId(a.id, b.id) < 0 || (CmpId(a.id, b.id) == 0 && StrCmp(a.mnemonic, b.mnemonic) <= 0)
  {
    var raw, out := LabelRows.Raw(rows), LabelRows.Condensed(rows);
    forall r | r in raw
      ensures r.mne.id in ids
    {
      RawNamed(rows, r);
    }
    LabelOrder.LabelsWeak(ids, raw);
    SortSorts(LabelRows.SnapLess, raw);
    assert InOrder(LabelRows.SnapLess, out, i, j);
    CmpIdSign(out[i].mne.id, out[j].mne.id);
    StrCmpSign(out[i].mne.mnemonic, out[j].mne.mnemonic);
  }

  lemma RawNamed(rows: seq<LabelRows.SnapRow>, r: LabelRows.SnapRow)
    requires r in LabelRows.Raw(rows)
    ensures exists q :: q in rows && q.mne.id == r.mne.id
  {
    var labels := LabelRows.LabelsOf(rows);
    var names := Labels.Names(labels);
    var i :| 0 <= i < |names| && LabelRows.Raw(rows)[i] == r;
    Labels.NamesMember(labels, names[i]);
    var m :| m in labels && m.Labelled() && m.Name() == names[i];
    var k :| 0 <= k < |labels| && labels[k] == m;
    MappedAt(LabelRows.Mne(), rows);
    assert rows[k].mne == m;
  }

  /** The rows of a lock file: by ID and state. */
  lemma LockRowsAscend(ids: set<string>, live: seq<Locks.LockSpec>, i: nat, j: nat)
    requires Comparable(ids) && forall l :: l in live ==> l.id in ids
    requires i < j < |LockFile.Grouped(live)|
    ensures var a, b := LockFile.Grouped(live)[i], LockFile.Grouped(live)[j];
      CmpId(a.id, b.id) < 0 || (CmpId(a.id, b.id) == 0 && StrCmp(a.state, b.state) <= 0)
  {
    var raw, rows := LockFile.RowsOf(live, LockFile.Keys(live)), LockFile.Grouped(live);
    forall row | row in raw
      ensures row.id in ids
    {
      SortMember(LockFile.RowLess, raw, row);
      LockFile.GroupedRow(live, row);
      LockFile.KeysMember(live, LockFile.LockKey(row.id, row.state, row.lockedBy));
    }
    StablePlans.LockRowsWeak(ids, raw);
    SortSorts(LockFile.RowLess, raw);
    assert InOrder(LockFile.RowLess, rows, i, j);
    CmpIdSign(rows[i].id, rows[j].id);
    StrCmpSign(rows[i].state, rows[j].state);
  }
}
