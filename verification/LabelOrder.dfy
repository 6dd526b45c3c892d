/** What the order of merged label rows can be relied on for, under any stable sort. */
module LabelOrder {
  import opened Text
  import opened Sorting
  import opened Sequences
  import opened Ids
  import opened AnySort
  import opened Labels
  import opened LabelRows

  type RowSort = seq<SnapRow> -> seq<SnapRow>

  function DedupedBy(sortRows: RowSort, sortIds: IdSort, rows: seq<SnapRow>): seq<SnapRow> {
    sortRows(RowsOf(sortIds, rows, Names(LabelsOf(rows))))
  }

  /** The IDs of the labelled resources and of the levels they are on. */
  ghost predicate NamedWith(rows: seq<SnapRow>, ids: set<string>) {
    forall r :: r in rows && r.mne.Labelled() ==>
      r.mne.id in ids && forall l :: l in r.levels && l != "" ==> l in ids
  }

  lemma SnapLessAsymmetric()
    ensures Asymmetric(SnapLess)
  {
    RowLessAsymmetric();
    forall a, b | SnapLess(a, b)
      ensures !SnapLess(b, a)
    {
      assert RowLess(a.mne, b.mne);
    }
  }

  lemma LabelsWeak(ids: set<string>, rows: seq<SnapRow>)
    requires Comparable(ids) && forall r :: r in rows ==> r.mne.id in ids
    ensures Asymmetric(SnapLess) && WeakOrderOn(SnapLess, rows)
  {
    SnapLessAsymmetric();
    forall a, b, c | a in rows && b in rows && c in rows
      ensures Splits(SnapLess, a, b, c)
    {
      CmpIdSplits(ids, a.mne.id, b.mne.id, c.mne.id);
      TextSplits(a.mne.mnemonic, b.mne.mnemonic, c.mne.mnemonic);
    }
  }

  lemma NameWritten(ids: set<string>, rows: seq<SnapRow>, name: NameKey)
    requires NamedWith(rows, ids)
    ensures name in Names(LabelsOf(rows)) ==> name.id in ids
    ensures forall l :: l in LevelsOf(rows, name) ==> l in ids
  {
    MappedAt(Mne(), rows);
    NamesMember(LabelsOf(rows), name);
    if name in Names(LabelsOf(rows)) {
      var m :| m in LabelsOf(rows) && m.Labelled() && m.Name() == name;
      var i :| 0 <= i < |rows| && LabelsOf(rows)[i] == m;
      assert rows[i] in rows && rows[i].mne == m;
    }
    forall l | l in LevelsOf(rows, name)
      ensures l in ids
    {
      LevelsMember(rows, name, l);
      var r :| r in rows && OnLevel(r, name, l);
    }
  }

  lemma RawByIsRaw(ids: set<string>, rows: seq<SnapRow>, sortIds: IdSort)
    requires Comparable(ids) && NamedWith(rows, ids) && Stable(IdLess, sortIds)
    ensures RowsOf(sortIds, rows, Names(LabelsOf(rows))) == Raw(rows) && forall r :: r in Raw(rows) ==> r.mne.id in ids
  {
    var names := Names(LabelsOf(rows));
    forall i | 0 <= i < |names|
      ensures RowOf(sortIds, rows, names[i]) == RowOf(SortIds(), rows, names[i]) && names[i].id in ids
    {
      NameWritten(ids, rows, names[i]);
      IdsWeak(ids, LevelsOf(rows, names[i]));
      StableIsSort(IdLess, sortIds, LevelsOf(rows, names[i]));
    }
  }

  /** With comparable IDs every stable sort merges a snapshot to the same rows. */
  lemma AnyStableSortMerges(ids: set<string>, rows: seq<SnapRow>, sortRows: RowSort, sortIds: IdSort)
    requires Comparable(ids) && NamedWith(rows, ids) && Stable(SnapLess, sortRows) && Stable(IdLess, sortIds)
    ensures DedupedBy(sortRows, sortIds, rows) == Condensed(rows)
  {
    RawByIsRaw(ids, rows, sortIds);
    LabelsWeak(ids, Raw(rows));
    StableIsSort(SnapLess, sortRows, Raw(rows));
  }

  // ---- merging merged rows ----

  /** A row that needs no merging of its own. */
  ghost predicate Whole(r: SnapRow) {
    && r.mne.Labelled() && Filled(r.mne.alts) == r.mne.alts
    && Distinct(r.levels) && "" !in r.levels
    && Distinct(r.assocs) && KeysApart(r.assocs)
  }

  /** Rows that need no merging. */
  ghost predicate AllMerged(rows: seq<SnapRow>) {
    && (forall r :: r in rows ==> Whole(r))
    && forall i, j :: 0 <= i < j < |rows| ==> rows[i].mne.Name() != rows[j].mne.Name()
  }

  lemma {:induction false} LevelsKept(levels: seq<string>)
    requires Distinct(levels) && "" !in levels
    ensures AddLevels([], levels) == levels
  {
    if levels != [] {
      FreshAt(levels, |levels| - 1);
      LevelsKept(levels[..|levels| - 1]);
    }
  }

  lemma {:induction false} AssocsKept(assocs: seq<Assoc>)
    requires Distinct(assocs) && KeysApart(assocs)
    ensures AddAssocs([], assocs) == assocs
  {
    if assocs != [] {
      var front, last := assocs[..|assocs| - 1], assocs[|assocs| - 1];
      assert assocs == front + [last];
      FreshAt(assocs, |front|);
      FrontApart(front, last);
      AssocsKept(front);
    }
  }

  lemma FrontApart(front: seq<Assoc>, last: Assoc)
    requires KeysApart(front + [last]) && last !in front
    ensures KeysApart(front) && AddAssoc(front, last) == front + [last]
  {
    assert last in front + [last];
    forall b | b in front
      ensures KeyOf(b) != KeyOf(last)
    {
      assert b in front + [last];
    }
  }

  lemma {:induction false} NoneOfName(rows: seq<SnapRow>, name: NameKey)
    requires forall r :: r in rows ==> r.mne.Name() != name
    ensures LevelsOf(rows, name) == [] && AssocsOf(rows, name) == []
  {
    if rows != [] {
      NoneOfName(rows[..|rows| - 1], name);
    }
  }

  /** Merging gives a merged row back. */
  lemma {:induction false} OwnGroup(rows: seq<SnapRow>, i: nat)
    requires AllMerged(rows) && i < |rows|
    ensures LevelsOf(rows, rows[i].mne.Name()) == rows[i].levels
    ensures AssocsOf(rows, rows[i].mne.Name()) == rows[i].assocs
  {
    var front, last := rows[..|rows| - 1], rows[|rows| - 1];
    assert rows == front + [last] && Whole(last);
    if i < |front| {
      assert front[i] == rows[i];
      OwnGroup(front, i);
    } else {
      NoneOfName(front, last.mne.Name());
      LevelsKept(last.levels);
      AssocsKept(last.assocs);
    }
  }

  lemma LabelsMerged(rows: seq<SnapRow>)
    requires AllMerged(rows)
    ensures RowsFor(LabelsOf(rows), Names(LabelsOf(rows))) == LabelsOf(rows)
  {
    var labels := LabelsOf(rows);
    MappedAt(Mne(), rows);
    forall m | m in labels
      ensures m.Labelled() && Filled(m.alts) == m.alts
    {
      var i :| 0 <= i < |labels| && labels[i] == m;
      assert Whole(rows[i]);
    }
    MergedSelf(labels);
  }

  lemma SelfMerged(rows: seq<SnapRow>, sortIds: IdSort)
    requires AllMerged(rows) && forall r :: r in rows ==> sortIds(r.levels) == r.levels
    ensures RowsOf(sortIds, rows, Names(LabelsOf(rows))) == rows
  {
    var names := Names(LabelsOf(rows));
    MappedAt(Mne(), rows);
    LabelsMerged(rows);
    assert |names| == |RowsFor(LabelsOf(rows), names)| == |rows|;
    forall i | 0 <= i < |rows|
      ensures RowOf(sortIds, rows, names[i]) == rows[i]
    {
      assert RowsFor(LabelsOf(rows), names)[i] == rows[i].mne;
      OwnGroup(rows, i);
    }
  }

  lemma DedupedMerged(rows: seq<SnapRow>)
    ensures AllMerged(Condensed(rows))
    ensures forall r :: r in Condensed(rows) ==> Sort(IdLess, r.levels) == r.levels
  {
    var out := Condensed(rows);
    SameLabels(rows);
    DedupedMerges(LabelsOf(rows));
    MappedAt(Mne(), out);
    forall r | r in out
      ensures Whole(r) && Sort(IdLess, r.levels) == r.levels
    {
      var i :| 0 <= i < |out| && out[i] == r;
      assert LabelsOf(out)[i] in LabelsOf(out);
      MergedWhole(rows, r);
    }
    forall i, j | 0 <= i < j < |out|
      ensures out[i].mne.Name() != out[j].mne.Name()
    {
      assert LabelsOf(out)[i].Name() != LabelsOf(out)[j].Name();
    }
  }

  lemma MergedWhole(rows: seq<SnapRow>, r: SnapRow)
    requires r in Condensed(rows)
    ensures Distinct(r.levels) && "" !in r.levels && Sort(IdLess, r.levels) == r.levels
    ensures Distinct(r.assocs) && KeysApart(r.assocs)
  {
    MergedRow(rows, r);
    AssocsMember(rows, r.mne.Name());
    SortMember(SnapLess, Raw(rows), r);
    IdLessAsymmetric();
    SortChains(IdLess, LevelsOf(rows, r.mne.Name()));
    SortOfChain(IdLess, r.levels);
  }

  lemma MergeFixed(rows: seq<SnapRow>)
    ensures Condensed(Condensed(rows)) == Condensed(rows)
  {
    var out := Condensed(rows);
    DedupedMerged(rows);
    SelfMerged(out, SortIds());
    SnapLessAsymmetric();
    SortChains(SnapLess, Raw(rows));
    SortOfChain(SnapLess, out);
  }

  ghost predicate Fixed(ids: set<string>, rows: seq<SnapRow>, sortRows: RowSort, sortIds: IdSort) {
    NamedWith(rows, ids) && Stable(SnapLess, sortRows) && Stable(IdLess, sortIds) ==>
      DedupedBy(sortRows, sortIds, DedupedBy(sortRows, sortIds, rows)) == DedupedBy(sortRows, sortIds, rows)
  }

  lemma MergedWritten(ids: set<string>, rows: seq<SnapRow>)
    requires NamedWith(rows, ids)
    ensures NamedWith(Condensed(rows), ids)
  {
    forall r | r in Condensed(rows)
      ensures r.mne.id in ids && forall l :: l in r.levels ==> l in ids
    {
      SortMember(SnapLess, Raw(rows), r);
      var name := r.mne.Name();
      NameWritten(ids, rows, name);
      forall l | l in r.levels
        ensures l in ids
      {
        SortMember(IdLess, LevelsOf(rows, name), l);
      }
    }
  }

  /** Merging merged rows changes nothing, under every stable sort, when the IDs are
      comparable. */
  lemma DedupeIdempotent(ids: set<string>, rows: seq<SnapRow>, sortRows: RowSort, sortIds: IdSort)
    requires Comparable(ids)
    ensures Fixed(ids, rows, sortRows, sortIds)
  {
    if NamedWith(rows, ids) && Stable(SnapLess, sortRows) && Stable(IdLess, sortIds) {
      AnyStableSortMerges(ids, rows, sortRows, sortIds);
      MergedWritten(ids, rows);
      AnyStableSortMerges(ids, Condensed(rows), sortRows, sortIds);
      MergeFixed(rows);
    }
  }

  // ---- IDs that are not comparable ----

  function Plain(id: string): SnapRow {
    SnapRow(MneRow(id, "m", map[]), [], [])
  }

  lemma BentLabels(x: string, y: string, z: string, rows: seq<SnapRow>)
    requires Straddled(x, y, z) && Plain(x) in rows && Plain(y) in rows && Plain(z) in rows
    ensures !WeakOrderOn(SnapLess, rows)
  {
    StraddleCycles(x, y, z);
    CmpIdSign(x, z);
    CmpIdSign(y, x);
    CmpIdSign(z, y);
    StrCmpSign("m", "m");
    assert !Splits(SnapLess, Plain(z), Plain(y), Plain(x));
  }

  /** Merged rows that are on no level. */
  ghost predicate Bare(rows: seq<SnapRow>) {
    AllMerged(rows) && forall r :: r in rows ==> r.levels == []
  }

  lemma ContraryMerge(rows: seq<SnapRow>, x: string, y: string, z: string)
    requires Straddled(x, y, z) && Plain(x) in rows && Plain(y) in rows && Plain(z) in rows && Bare(rows)
    ensures DedupedBy(Contrary(SnapLess), Contrary(IdLess), rows) == Reversed(rows)
  {
    BentLabels(x, y, z, rows);
    assert Contrary(IdLess)([]) == [];
    SelfMerged(rows, Contrary(IdLess));
  }

  lemma ReversedBare(rows: seq<SnapRow>)
    requires Bare(rows)
    ensures Bare(Reversed(rows))
  {
    ReversedKeeps(rows);
    var back, n := Reversed(rows), |rows|;
    forall i, j | 0 <= i < j < n
      ensures back[i].mne.Name() != back[j].mne.Name()
    {
      assert back[i] == rows[n - 1 - i] && back[j] == rows[n - 1 - j];
    }
  }

  lemma TurnsBack(ids: set<string>, rows: seq<SnapRow>, x: string, y: string, z: string)
    requires Straddled(x, y, z) && Plain(x) in rows && Plain(y) in rows && Plain(z) in rows && Bare(rows)
    requires NamedWith(rows, ids) && rows[0] != rows[|rows| - 1]
    ensures !Fixed(ids, rows, Contrary(SnapLess), Contrary(IdLess))
  {
    SnapLessAsymmetric();
    ContraryIsStable(SnapLess);
    IdLessAsymmetric();
    ContraryIsStable(IdLess);
    ReversedKeeps(rows);
    ReversedBare(rows);
    ContraryMerge(rows, x, y, z);
    ContraryMerge(Reversed(rows), x, y, z);
    assert Reversed(rows)[0] == rows[|rows| - 1];
  }

  lemma StraddledTurns(ids: set<string>, x: string, y: string, z: string) returns (rows: seq<SnapRow>)
    requires x in ids && y in ids && z in ids && Straddled(x, y, z)
    ensures !Fixed(ids, rows, Contrary(SnapLess), Contrary(IdLess))
  {
    StraddleCycles(x, y, z);
    EmptyIsNoNumeral();
    rows := [Plain(x), Plain(y), Plain(z)];
    PlainBare(x, y, z);
    TurnsBack(ids, rows, x, y, z);
  }

  lemma PlainBare(x: string, y: string, z: string)
    requires x != "" && y != "" && z != "" && x != y && x != z && y != z
    ensures Bare([Plain(x), Plain(y), Plain(z)])
  {
    PlainWhole(x);
    PlainWhole(y);
    PlainWhole(z);
  }

  lemma PlainWhole(x: string)
    requires x != ""
    ensures Whole(Plain(x))
  {
    assert Filled(map[]) == map[];
  }

  /** A stable sort promises that merging twice is merging once exactly on comparable IDs, of
      resources and levels. */
  lemma DedupeIdempotentIff(ids: set<string>)
    ensures Comparable(ids) <==> forall rows, sortRows, sortIds :: Fixed(ids, rows, sortRows, sortIds)
  {
    if Comparable(ids) {
      forall rows, sortRows, sortIds
        ensures Fixed(ids, rows, sortRows, sortIds)
      {
        DedupeIdempotent(ids, rows, sortRows, sortIds);
      }
    } else {
      var x, y, z :| x in ids && y in ids && z in ids && Straddled(x, y, z);
      var rows := StraddledTurns(ids, x, y, z);
    }
  }
}
