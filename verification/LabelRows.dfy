/** Label rows as a snapshot delivers them, several for one resource, and how they are merged:
    the alternates, the levels a resource is on and its associations. */
module LabelRows {
  import opened Wrappers
  import opened Text
  import opened Sorting
  import opened Sequences
  import opened Ids
  import opened Labels

  /** A binding of a resource on one level; `binding` is all that the merging does not look at. */
  datatype Assoc = Assoc(index: int, srceId: string, destId: string, device: string, binding: string)

  /** The level, the port and the device of a binding; the two port IDs are run together. */
  datatype AssocKey = AssocKey(index: int, port: string, device: string)

  datatype SnapRow = SnapRow(mne: MneRow, levels: seq<string>, assocs: seq<Assoc>)

  function KeyOf(a: Assoc): AssocKey {
    AssocKey(a.index, a.srceId + a.destId, a.device)
  }

  function Mne(): SnapRow -> MneRow {
    (r: SnapRow) => r.mne
  }

  predicate OfName(r: SnapRow, name: NameKey) {
    r.mne.Labelled() && r.mne.Name() == name
  }

  // ---- merging ----

  function AddLevels(acc: seq<string>, levels: seq<string>): seq<string> {
    if levels == [] then acc
    else
      var l, before := levels[|levels| - 1], AddLevels(acc, levels[..|levels| - 1]);
      if l == "" then before else AddNew(before, l)
  }

  function AddAssoc(acc: seq<Assoc>, a: Assoc): seq<Assoc> {
    if exists b :: b in acc && KeyOf(b) == KeyOf(a) then acc else acc + [a]
  }

  function AddAssocs(acc: seq<Assoc>, assocs: seq<Assoc>): seq<Assoc> {
    if assocs == [] then acc else AddAssoc(AddAssocs(acc, assocs[..|assocs| - 1]), assocs[|assocs| - 1])
  }

  /** The levels of one name, in order of first appearance. */
  function LevelsOf(rows: seq<SnapRow>, name: NameKey): seq<string> {
    if rows == [] then []
    else
      var r, before := rows[|rows| - 1], LevelsOf(rows[..|rows| - 1], name);
      if OfName(r, name) then AddLevels(before, r.levels) else before
  }

  /** The associations of one name; the first of a key is kept. */
  function AssocsOf(rows: seq<SnapRow>, name: NameKey): seq<Assoc> {
    if rows == [] then []
    else
      var r, before := rows[|rows| - 1], AssocsOf(rows[..|rows| - 1], name);
      if OfName(r, name) then AddAssocs(before, r.assocs) else before
  }

  function LabelsOf(rows: seq<SnapRow>): seq<MneRow> {
    Mapped(Mne(), rows)
  }

  type IdSort = seq<string> -> seq<string>

  function RowOf(sortIds: IdSort, rows: seq<SnapRow>, name: NameKey): SnapRow {
    SnapRow(RowFor(LabelsOf(rows), name), sortIds(LevelsOf(rows, name)), AssocsOf(rows, name))
  }

  function RowsOf(sortIds: IdSort, rows: seq<SnapRow>, names: seq<NameKey>): seq<SnapRow> {
    seq(|names|, i requires 0 <= i < |names| => RowOf(sortIds, rows, names[i]))
  }

  predicate SnapLess(a: SnapRow, b: SnapRow) {
    RowLess(a.mne, b.mne)
  }

  function SortIds(): IdSort {
    (s: seq<string>) => Sort(IdLess, s)
  }

  function Raw(rows: seq<SnapRow>): seq<SnapRow> {
    RowsOf(SortIds(), rows, Names(LabelsOf(rows)))
  }

  function Condensed(rows: seq<SnapRow>): seq<SnapRow> {
    Sort(SnapLess, Raw(rows))
  }

  /** The accumulators after some rows: the names in order, and of each what is merged. */
  ghost predicate Grouped(rows: seq<SnapRow>, order: seq<NameKey>, groups: map<NameKey, SnapRow>) {
    && order == Names(LabelsOf(rows))
    && (forall k :: k in order <==> k in groups)
    && forall k :: k in groups ==> GroupOf(rows, k, groups[k])
  }

  /** What is merged for a name so far; its levels are not sorted yet. */
  ghost predicate GroupOf(rows: seq<SnapRow>, name: NameKey, g: SnapRow) {
    g == SnapRow(RowFor(LabelsOf(rows), name), LevelsOf(rows, name), AssocsOf(rows, name))
  }

  lemma {:induction false} UnnamedEmpty(rows: seq<SnapRow>, name: NameKey)
    requires name !in Names(LabelsOf(rows))
    ensures Merged(LabelsOf(rows), name) == map[] && LevelsOf(rows, name) == [] && AssocsOf(rows, name) == []
  {
    if rows != [] {
      var front, last := rows[..|rows| - 1], rows[|rows| - 1];
      assert rows == front + [last];
      MappedLast(Mne(), front, last);
      NamesStep(LabelsOf(front), last.mne, name);
      UnnamedEmpty(front, name);
    }
  }

  lemma NamesStep(labels: seq<MneRow>, r: MneRow, name: NameKey)
    ensures Names(labels + [r]) == if r.Labelled() then AddNew(Names(labels), r.Name()) else Names(labels)
    ensures Merged(labels + [r], name) ==
      if r.Labelled() && r.Name() == name then Filled(r.alts) + Merged(labels, name) else Merged(labels, name)
  {
    assert (labels + [r])[..|labels|] == labels;
  }

  /** What a row adds to a group. */
  function Joined(g: SnapRow, r: SnapRow): SnapRow {
    SnapRow(MneRow(g.mne.id, g.mne.mnemonic, Filled(r.mne.alts) + g.mne.alts),
            AddLevels(g.levels, r.levels), AddAssocs(g.assocs, r.assocs))
  }

  function Start(name: NameKey): SnapRow {
    SnapRow(MneRow(name.id, name.mnemonic, map[]), [], [])
  }

  lemma JoinedGroup(rows: seq<SnapRow>, r: SnapRow, name: NameKey, g: SnapRow)
    requires GroupOf(rows, name, g)
    ensures GroupOf(rows + [r], name, if OfName(r, name) then Joined(g, r) else g)
  {
    assert (rows + [r])[..|rows|] == rows;
    MappedLast(Mne(), rows, r);
    NamesStep(LabelsOf(rows), r.mne, name);
  }

  lemma GroupedStep(rows: seq<SnapRow>, r: SnapRow, order: seq<NameKey>, groups: map<NameKey, SnapRow>)
    requires Grouped(rows, order, groups)
    ensures !r.mne.Labelled() ==> Grouped(rows + [r], order, groups)
    ensures r.mne.Labelled() ==>
      var k := r.mne.Name();
      Grouped(rows + [r], AddNew(order, k), groups[k := Joined(if k in groups then groups[k] else Start(k), r)])
  {
    var name := r.mne.Name();
    MappedLast(Mne(), rows, r);
    NamesStep(LabelsOf(rows), r.mne, name);
    forall k | k in groups
      ensures GroupOf(rows + [r], k, if OfName(r, k) then Joined(groups[k], r) else groups[k])
    {
      JoinedGroup(rows, r, k, groups[k]);
    }
    if r.mne.Labelled() && name !in groups {
      UnnamedEmpty(rows, name);
      JoinedGroup(rows, r, name, Start(name));
    }
  }

  method MergeLevels(acc: seq<string>, levels: seq<string>) returns (out: seq<string>)
    ensures out == AddLevels(acc, levels)
  {
    out := acc;
    for i := 0 to |levels|
      invariant out == AddLevels(acc, levels[..i])
    {
      assert levels[..i + 1][..i] == levels[..i];
      if levels[i] != "" && levels[i] !in out {
        out := out + [levels[i]];
      }
    }
    assert levels[..|levels|] == levels;
  }

  method MergeAssocs(acc: seq<Assoc>, assocs: seq<Assoc>) returns (out: seq<Assoc>)
    ensures out == AddAssocs(acc, assocs)
  {
    out := acc;
    for i := 0 to |assocs|
      invariant out == AddAssocs(acc, assocs[..i])
    {
      assert assocs[..i + 1][..i] == assocs[..i];
      out := AddAssoc(out, assocs[i]);
    }
    assert assocs[..|assocs|] == assocs;
  }

  method GroupRows(rows: seq<SnapRow>) returns (order: seq<NameKey>, groups: map<NameKey, SnapRow>)
    ensures Grouped(rows, order, groups)
  {
    order, groups := [], map[];
    for i := 0 to |rows|
      invariant Grouped(rows[..i], order, groups)
    {
      var r := rows[i];
      GroupedStep(rows[..i], r, order, groups);
      assert rows[..i + 1] == rows[..i] + [r];
      if r.mne.id == "" || r.mne.mnemonic == "" {
        continue;
      }
      var k := r.mne.Name();
      var g := if k in groups then groups[k] else Start(k);
      if k !in groups {
        order := order + [k];
      }
      var levels := MergeLevels(g.levels, r.levels);
      var assocs := MergeAssocs(g.assocs, r.assocs);
      groups := groups[k := SnapRow(g.mne.(alts := Filled(r.mne.alts) + g.mne.alts), levels, assocs)];
    }
    assert rows[..|rows|] == rows;
  }

  method Dedupe(rows: seq<SnapRow>) returns (out: seq<SnapRow>)
    ensures out == Condensed(rows)
  {
    var order, groups := GroupRows(rows);
    out := [];
    for i := 0 to |order|
      invariant out == RowsOf(SortIds(), rows, order[..i])
    {
      assert order[i] in order;
      var g := groups[order[i]];
      out := out + [g.(levels := Sort(IdLess, g.levels))];
    }
    assert order[..|order|] == order;
    out := Sort(SnapLess, out);
  }

  // ---- what merging does ----

  /** The labels of the merged rows are the merged labels: the plan does not depend on levels
      and associations. */
  lemma SameLabels(rows: seq<SnapRow>)
    ensures LabelsOf(Condensed(rows)) == Labels.Deduped(LabelsOf(rows))
  {
    SortMapped(SnapLess, RowLess, Mne(), Raw(rows));
    RawLabels(SortIds(), rows, Names(LabelsOf(rows)));
  }

  lemma {:induction false} RawLabels(sortIds: IdSort, rows: seq<SnapRow>, names: seq<NameKey>)
    ensures LabelsOf(RowsOf(sortIds, rows, names)) == RowsFor(LabelsOf(rows), names)
  {
    if names != [] {
      var front, last := names[..|names| - 1], names[|names| - 1];
      RawLabels(sortIds, rows, front);
      assert RowsOf(sortIds, rows, names) == RowsOf(sortIds, rows, front) + [RowOf(sortIds, rows, last)];
      MappedLast(Mne(), RowsOf(sortIds, rows, front), RowOf(sortIds, rows, last));
    }
  }

  lemma {:induction false} AddLevelsMember(acc: seq<string>, levels: seq<string>, l: string)
    ensures l in AddLevels(acc, levels) <==> l in acc || (l in levels && l != "")
    ensures Distinct(acc) ==> Distinct(AddLevels(acc, levels))
  {
    if levels != [] {
      assert levels == levels[..|levels| - 1] + [levels[|levels| - 1]];
      AddLevelsMember(acc, levels[..|levels| - 1], l);
    }
  }

  /** A row of the name is on the level. */
  ghost predicate OnLevel(r: SnapRow, name: NameKey, l: string) {
    OfName(r, name) && l in r.levels && l != ""
  }

  lemma {:induction false} LevelsMember(rows: seq<SnapRow>, name: NameKey, l: string)
    ensures l in LevelsOf(rows, name) <==> exists r :: r in rows && OnLevel(r, name, l)
    ensures Distinct(LevelsOf(rows, name))
  {
    if rows != [] {
      var front, last := rows[..|rows| - 1], rows[|rows| - 1];
      assert rows == front + [last];
      LevelsMember(front, name, l);
      AddLevelsMember(LevelsOf(front, name), last.levels, l);
      assert last in rows && (OnLevel(last, name, l) <==> OfName(last, name) && l in last.levels && l != "");
    }
  }

  /** No two associations of one key. */
  ghost predicate KeysApart(assocs: seq<Assoc>) {
    forall a, b :: a in assocs && b in assocs && KeyOf(a) == KeyOf(b) ==> a == b
  }

  lemma {:induction false} AddAssocsMember(acc: seq<Assoc>, assocs: seq<Assoc>)
    requires KeysApart(acc) && Distinct(acc)
    ensures var out := AddAssocs(acc, assocs);
      && KeysApart(out) && Distinct(out) && (forall a :: a in out ==> a in acc || a in assocs)
      && (forall a :: a in acc ==> a in out)
      && (forall a :: a in assocs ==> exists b :: b in out && KeyOf(b) == KeyOf(a))
  {
    if assocs != [] {
      var front, last := assocs[..|assocs| - 1], assocs[|assocs| - 1];
      assert assocs == front + [last];
      AddAssocsMember(acc, front);
      AddOne(AddAssocs(acc, front), last);
    }
  }

  lemma AddOne(acc: seq<Assoc>, a: Assoc)
    requires KeysApart(acc) && Distinct(acc)
    ensures var out := AddAssoc(acc, a);
      && KeysApart(out) && Distinct(out) && (forall b :: b in out ==> b in acc || b == a)
      && (forall b :: b in acc ==> b in out) && exists b :: b in out && KeyOf(b) == KeyOf(a)
  {
    if !exists b :: b in acc && KeyOf(b) == KeyOf(a) {
      assert a in acc + [a];
    }
  }

  /** A row of the name carries the association. */
  ghost predicate Binds(r: SnapRow, name: NameKey, a: Assoc) {
    OfName(r, name) && a in r.assocs
  }

  lemma {:induction false} AssocsMember(rows: seq<SnapRow>, name: NameKey)
    ensures var out := AssocsOf(rows, name);
      && KeysApart(out) && Distinct(out) && (forall a :: a in out ==> exists r :: r in rows && Binds(r, name, a))
      && (forall a, r :: r in rows && Binds(r, name, a) ==> exists b :: b in out && KeyOf(b) == KeyOf(a))
  {
    if rows != [] {
      var front, last := rows[..|rows| - 1], rows[|rows| - 1];
      assert rows == front + [last];
      AssocsMember(front, name);
      AddAssocsMember(AssocsOf(front, name), last.assocs);
      forall a | a in AssocsOf(rows, name)
        ensures exists r :: r in rows && Binds(r, name, a)
      {
        assert a !in AssocsOf(front, name) ==> last in rows && Binds(last, name, a);
      }
    }
  }

  /** The resource has two different associations of one level, port and device. */
  ghost predicate Clash(rows: seq<SnapRow>, name: NameKey) {
    exists r, q, a, b ::
      && r in rows && q in rows && Binds(r, name, a) && Binds(q, name, b)
      && KeyOf(a) == KeyOf(b) && a != b
  }

  /** The merged row of a resource is on exactly the levels its rows are on, once each, and
      has one association for every level, port and device of theirs. */
  lemma MergedRow(rows: seq<SnapRow>, row: SnapRow)
    requires row in Condensed(rows)
    ensures var name := row.mne.Name();
      && Distinct(row.levels) && (forall l :: l in row.levels <==> exists r :: r in rows && OnLevel(r, name, l))
      && KeysApart(row.assocs) && (forall a :: a in row.assocs ==> exists r :: r in rows && Binds(r, name, a))
      && forall a, r :: r in rows && Binds(r, name, a) ==> exists b :: b in row.assocs && KeyOf(b) == KeyOf(a)
  {
    var name := row.mne.Name();
    SortMember(SnapLess, Raw(rows), row);
    var levels := LevelsOf(rows, name);
    LevelsMember(rows, name, "");
    DistinctSort(IdLess, levels);
    forall l
      ensures l in row.levels <==> exists r :: r in rows && OnLevel(r, name, l)
    {
      SortMember(IdLess, levels, l);
      LevelsMember(rows, name, l);
    }
    AssocsMember(rows, name);
  }

  /** No association is dropped exactly when no two of the resource share level, port and
      device. */
  lemma AllBoundIff(rows: seq<SnapRow>, row: SnapRow)
    requires row in Condensed(rows)
    ensures (forall a, r :: r in rows && Binds(r, row.mne.Name(), a) ==> a in row.assocs)
       <==> !Clash(rows, row.mne.Name())
  {
    var name := row.mne.Name();
    MergedRow(rows, row);
    if !Clash(rows, name) {
      forall a, r | r in rows && Binds(r, name, a)
        ensures a in row.assocs
      {
        var b :| b in row.assocs && KeyOf(b) == KeyOf(a);
        var q :| q in rows && Binds(q, name, b);
      }
    }
  }

  // ---- the same in plain terms ----

  /** The same level, the same two port IDs run together, the same device. */
  predicate SameBinding(a: Assoc, b: Assoc) {
    a.index == b.index && a.srceId + a.destId == b.srceId + b.destId && a.device == b.device
  }

  /** No two associations of a merged row are alike, and each of the resource has its like. */
  lemma BindingsPlain(rows: seq<SnapRow>, row: SnapRow)
    requires row in Condensed(rows)
    ensures forall a, b :: a in row.assocs && b in row.assocs && SameBinding(a, b) ==> a == b
    ensures forall a :: a in row.assocs ==>
      exists r :: r in rows && r.mne.id == row.mne.id && r.mne.mnemonic == row.mne.mnemonic && a in r.assocs
    ensures forall a, r ::
      r in rows && r.mne.id == row.mne.id && r.mne.mnemonic == row.mne.mnemonic && a in r.assocs ==>
        exists b :: b in row.assocs && SameBinding(a, b)
  {
    var name := row.mne.Name();
    MergedRow(rows, row);
    SameLabels(rows);
    MappedMember(Condensed(rows), row);
    DedupedMember(LabelsOf(rows), row.mne);
    assert row.mne.Labelled();
    forall a, r | r in rows && r.mne.id == row.mne.id && r.mne.mnemonic == row.mne.mnemonic && a in r.assocs
      ensures exists b :: b in row.assocs && SameBinding(a, b)
    {
      assert Binds(r, name, a);
      var b :| b in row.assocs && KeyOf(b) == KeyOf(a);
      assert SameBinding(a, b);
    }
    forall a | a in row.assocs
      ensures exists r :: r in rows && r.mne.id == row.mne.id && r.mne.mnemonic == row.mne.mnemonic && a in r.assocs
    {
      var r :| r in rows && Binds(r, name, a);
    }
  }

  lemma MappedMember(rows: seq<SnapRow>, row: SnapRow)
    requires row in rows
    ensures row.mne in LabelsOf(rows)
  {
    var i :| 0 <= i < |rows| && rows[i] == row;
    MappedAt(Mne(), rows);
    assert LabelsOf(rows)[i] == row.mne;
  }

  lemma {:induction false} AddedKept(acc: seq<Assoc>, assocs: seq<Assoc>, a: Assoc)
    requires a in acc
    ensures a in AddAssocs(acc, assocs)
  {
    if assocs != [] {
      AddedKept(acc, assocs[..|assocs| - 1], a);
    }
  }

  lemma {:induction false} AddedFrom(acc: seq<Assoc>, assocs: seq<Assoc>, a: Assoc)
    requires a in AddAssocs(acc, assocs)
    ensures a in acc || a in assocs
  {
    if assocs != [] {
      var front, last := assocs[..|assocs| - 1], assocs[|assocs| - 1];
      assert assocs == front + [last];
      if a in AddAssocs(acc, front) {
        AddedFrom(acc, front, a);
      }
    }
  }

  lemma {:induction false} AddedFirst(acc: seq<Assoc>, assocs: seq<Assoc>, p: nat)
    requires p < |assocs| && (forall b :: b in acc ==> !SameBinding(b, assocs[p]))
    requires forall q :: 0 <= q < p ==> !SameBinding(assocs[q], assocs[p])
    ensures assocs[p] in AddAssocs(acc, assocs)
  {
    var front := assocs[..|assocs| - 1];
    if p < |front| {
      AddedFirst(acc, front, p);
    } else {
      forall b | b in AddAssocs(acc, front)
        ensures KeyOf(b) != KeyOf(assocs[p])
      {
        AddedFrom(acc, front, b);
        assert !SameBinding(b, assocs[p]);
      }
    }
  }

  lemma {:induction false} AssocsFrom(rows: seq<SnapRow>, name: NameKey, a: Assoc)
    requires a in AssocsOf(rows, name)
    ensures exists j :: 0 <= j < |rows| && OfName(rows[j], name) && a in rows[j].assocs
  {
    var front, last := rows[..|rows| - 1], rows[|rows| - 1];
    if a in AssocsOf(front, name) {
      AssocsFrom(front, name, a);
      var j :| 0 <= j < |front| && OfName(front[j], name) && a in front[j].assocs;
      assert rows[j] == front[j];
    } else {
      AddedFrom(AssocsOf(front, name), last.assocs, a);
      assert rows[|rows| - 1] == last;
    }
  }

  lemma {:induction false} FirstKept(rows: seq<SnapRow>, name: NameKey, i: nat, p: nat)
    requires i < |rows| && OfName(rows[i], name) && p < |rows[i].assocs|
    requires forall j, b :: 0 <= j < i && OfName(rows[j], name) && b in rows[j].assocs ==>
      !SameBinding(b, rows[i].assocs[p])
    requires forall q :: 0 <= q < p ==> !SameBinding(rows[i].assocs[q], rows[i].assocs[p])
    ensures rows[i].assocs[p] in AssocsOf(rows, name)
  {
    var front, last := rows[..|rows| - 1], rows[|rows| - 1];
    var a := rows[i].assocs[p];
    if i < |front| {
      FirstKept(front, name, i, p);
      if OfName(last, name) {
        AddedKept(AssocsOf(front, name), last.assocs, a);
      }
    } else {
      forall b | b in AssocsOf(front, name)
        ensures !SameBinding(b, a)
      {
        AssocsFrom(front, name, b);
        var j :| 0 <= j < |front| && OfName(front[j], name) && b in front[j].assocs;
        assert rows[j] == front[j];
      }
      AddedFirst(AssocsOf(front, name), last.assocs, p);
    }
  }

  /** Of several alike the first is kept. */
  lemma FirstBindingKept(rows: seq<SnapRow>, row: SnapRow, i: nat, p: nat)
    requires row in Condensed(rows) && i < |rows| && p < |rows[i].assocs|
    requires rows[i].mne.id == row.mne.id && rows[i].mne.mnemonic == row.mne.mnemonic
    requires forall j, b ::
      0 <= j < i && rows[j].mne.id == row.mne.id && rows[j].mne.mnemonic == row.mne.mnemonic && b in rows[j].assocs ==>
        !SameBinding(b, rows[i].assocs[p])
    requires forall q :: 0 <= q < p ==> !SameBinding(rows[i].assocs[q], rows[i].assocs[p])
    ensures rows[i].assocs[p] in row.assocs
  {
    SameLabels(rows);
    MappedMember(Condensed(rows), row);
    DedupedMember(LabelsOf(rows), row.mne);
    SortMember(SnapLess, Raw(rows), row);
    FirstKept(rows, row.mne.Name(), i, p);
  }
}
