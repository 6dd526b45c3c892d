/** The label leg: a snapshot delivers a resource's label row several times; the plan takes
    the labels the server shows to the desired ones, and in clear mode empties the empty
    cells of the managed columns. */
module Labels {
  import opened Wrappers
  import opened Text
  import opened Sorting
  import opened Sequences
  import opened Ids

  type AltSlot = n: int | 1 <= n witness 1

  /** The label row of a resource: its primary mnemonic and its alternates by slot. */
  datatype MneRow = MneRow(id: string, mnemonic: string, alts: map<AltSlot, string>)
  {
    /** Slot 0 is the primary mnemonic; an absent alternate is empty. */
    function At(slot: nat): string {
      if slot == 0 then mnemonic else if slot in alts then alts[slot] else ""
    }

    predicate Labelled() {
      id != "" && mnemonic != ""
    }

    function Name(): NameKey {
      NameKey(id, mnemonic)
    }
  }

  datatype NameKey = NameKey(id: string, mnemonic: string)

  datatype MneChange = MneChange(id: string, slot: nat, from: string, to: string)

  // ---- merging the repeats of a snapshot ----

  function Filled(alts: map<AltSlot, string>): map<AltSlot, string> {
    map s | s in alts && alts[s] != "" :: alts[s]
  }

  /** The resources named, in order of first appearance. */
  function Names(rows: seq<MneRow>): seq<NameKey> {
    if rows == [] then []
    else
      var r, before := rows[|rows| - 1], Names(rows[..|rows| - 1]);
      if r.Labelled() then AddNew(before, r.Name()) else before
  }

  /** The alternates of one name; the first value of a slot wins. */
  function Merged(rows: seq<MneRow>, name: NameKey): map<AltSlot, string> {
    if rows == [] then map[]
    else
      var r, before := rows[|rows| - 1], Merged(rows[..|rows| - 1], name);
      if r.Labelled() && r.Name() == name then Filled(r.alts) + before else before
  }

  function RowFor(rows: seq<MneRow>, name: NameKey): MneRow {
    MneRow(name.id, name.mnemonic, Merged(rows, name))
  }

  function RowsFor(rows: seq<MneRow>, names: seq<NameKey>): seq<MneRow> {
    seq(|names|, i requires 0 <= i < |names| => RowFor(rows, names[i]))
  }

  predicate RowLess(a: MneRow, b: MneRow) {
    var c := CmpId(a.id, b.id);
    if c != 0 then c < 0 else StrCmp(a.mnemonic, b.mnemonic) < 0
  }

  function Deduped(rows: seq<MneRow>): seq<MneRow> {
    Sort(RowLess, RowsFor(rows, Names(rows)))
  }

  // ---- the plan ----

  /** The first row of an ID. */
  function Found(rows: seq<MneRow>, id: string): Option<MneRow> {
    if rows == [] then None
    else
      var r, before := rows[|rows| - 1], Found(rows[..|rows| - 1], id);
      if before.None? && r.id == id then Some(r) else before
  }

  /** The row the plan compares with; nothing is live on an ID without one. */
  function Current(rows: seq<MneRow>, id: string): MneRow {
    match Found(rows, id)
    case Some(r) => r
    case None => MneRow("", "", map[])
  }

  predicate Tops(s: set<AltSlot>, m: AltSlot) {
    m in s && forall x :: x in s ==> x <= m
  }

  lemma {:induction false} TopExists(s: set<AltSlot>)
    requires s != {}
    ensures exists m :: Tops(s, m)
  {
    var m :| m in s;
    var rest := s - {m};
    assert s == rest + {m};
    if rest == {} {
      assert Tops(s, m);
    } else {
      TopExists(rest);
      var n :| Tops(rest, n);
      assert Tops(s, if m <= n then n else m);
    }
  }

  function Ascending(s: set<AltSlot>): seq<nat> {
    if s == {} then []
    else
      TopExists(s);
      var m :| m in s && Tops(s, m);
      Ascending(s - {m}) + [m]
  }

  /** The slots a desired row manages: its primary, its own alternates and, in clear mode,
      every column of the file's header. */
  function Slots(d: MneRow, header: seq<AltSlot>, clear: bool): seq<nat> {
    [0] + Ascending(d.alts.Keys + if clear then set s | s in header else {})
  }

  /** One cell: an empty desired value asks for nothing unless clearing. */
  function CellDiff(live: MneRow, d: MneRow, slot: nat, clear: bool): seq<MneChange> {
    if live.At(slot) != d.At(slot) && (d.At(slot) != "" || clear)
    then [MneChange(d.id, slot, live.At(slot), d.At(slot))] else []
  }

  function RowDiff(live: MneRow, d: MneRow, slots: seq<nat>, clear: bool): seq<MneChange> {
    if slots == [] then []
    else RowDiff(live, d, slots[..|slots| - 1], clear) + CellDiff(live, d, slots[|slots| - 1], clear)
  }

  function RawDiff(cur: seq<MneRow>, desired: seq<MneRow>, header: seq<AltSlot>, clear: bool): seq<MneChange> {
    if desired == [] then []
    else
      var d := desired[|desired| - 1];
      RawDiff(cur, desired[..|desired| - 1], header, clear)
      + RowDiff(Current(cur, d.id), d, Slots(d, header, clear), clear)
  }

  predicate ChangeLess(a: MneChange, b: MneChange) {
    var c := CmpId(a.id, b.id);
    if c != 0 then c < 0 else a.slot < b.slot
  }

  function LabelDiff(live: seq<MneRow>, desired: seq<MneRow>, header: seq<AltSlot>, clear: bool): seq<MneChange> {
    Sort(ChangeLess, RawDiff(Deduped(live), desired, header, clear))
  }

  method DiffAlternates(lv: MneRow, d: MneRow, slots: seq<nat>, clear: bool) returns (out: seq<MneChange>)
    requires forall s :: s in slots ==> s >= 1
    ensures out == RowDiff(lv, d, slots, clear)
  {
    out := [];
    for i := 0 to |slots|
      invariant out == RowDiff(lv, d, slots[..i], clear)
    {
      assert slots[..i + 1][..i] == slots[..i];
      var s := slots[i];
      assert s in slots;
      var want := if s in d.alts then d.alts[s] else "";
      var have := if s in lv.alts then lv.alts[s] else "";
      if want != "" && want != have {
        out := out + [MneChange(d.id, s, have, want)];
      } else if want == "" && clear && have != "" {
        out := out + [MneChange(d.id, s, have, "")];
      }
    }
    assert slots[..|slots|] == slots;
  }

  lemma {:induction false} PrimaryFirst(live: MneRow, d: MneRow, slots: seq<nat>, clear: bool)
    ensures RowDiff(live, d, [0] + slots, clear) == CellDiff(live, d, 0, clear) + RowDiff(live, d, slots, clear)
  {
    var all := [0] + slots;
    if slots == [] {
      assert all[..|all| - 1] == [];
    } else {
      PrimaryFirst(live, d, slots[..|slots| - 1], clear);
      assert all[..|all| - 1] == [0] + slots[..|slots| - 1];
    }
  }

  method DiffLabelRow(lv: MneRow, d: MneRow, header: seq<AltSlot>, clear: bool) returns (out: seq<MneChange>)
    ensures out == RowDiff(lv, d, Slots(d, header, clear), clear)
  {
    out := [];
    if d.mnemonic != "" && d.mnemonic != lv.mnemonic {
      out := [MneChange(d.id, 0, lv.mnemonic, d.mnemonic)];
    } else if clear && d.mnemonic == "" && lv.mnemonic != "" {
      out := [MneChange(d.id, 0, lv.mnemonic, "")];
    }
    var slotSet := d.alts.Keys;
    if clear {
      slotSet := slotSet + set s | s in header;
    }
    var slots := Ascending(slotSet);
    assert slotSet == d.alts.Keys + if clear then set s | s in header else {};
    PrimaryFirst(lv, d, slots, clear);
    forall s | s in slots
      ensures s >= 1
    {
      AscendingMember(slotSet, s);
    }
    var changes := DiffAlternates(lv, d, slots, clear);
    out := out + changes;
  }

  method FirstRows(rows: seq<MneRow>) returns (cur: map<string, MneRow>)
    ensures forall id :: Found(rows, id) == if id in cur then Some(cur[id]) else None
  {
    cur := map[];
    for i := 0 to |rows|
      invariant forall id :: Found(rows[..i], id) == if id in cur then Some(cur[id]) else None
    {
      assert rows[..i + 1][..i] == rows[..i];
      if rows[i].id !in cur {
        cur := cur[rows[i].id := rows[i]];
      }
    }
    assert rows[..|rows|] == rows;
  }

  method DiffLabels(live: seq<MneRow>, desired: seq<MneRow>, header: seq<AltSlot>, clear: bool)
    returns (out: seq<MneChange>)
    ensures out == LabelDiff(live, desired, header, clear)
  {
    var rows := Deduped(live);
    var cur := FirstRows(rows);
    out := [];
    for i := 0 to |desired|
      invariant out == RawDiff(rows, desired[..i], header, clear)
    {
      assert desired[..i + 1][..i] == desired[..i];
      var d := desired[i];
      var lv := if d.id in cur then cur[d.id] else MneRow("", "", map[]);
      assert lv == Current(rows, d.id);
      var changes := DiffLabelRow(lv, d, header, clear);
      out := out + changes;
    }
    assert desired[..|desired|] == desired;
    out := Sort(ChangeLess, out);
  }

  // ---- what merging keeps ----

  lemma {:induction false} AscendingMember(s: set<AltSlot>, x: nat)
    ensures x in Ascending(s) <==> x in s
  {
    if s != {} {
      TopExists(s);
      var m :| m in s && Tops(s, m);
      AscendingMember(s - {m}, x);
    }
  }

  /** The row gives the slot of this name a value. */
  ghost predicate Carries(r: MneRow, name: NameKey, slot: AltSlot) {
    r.Labelled() && r.Name() == name && r.At(slot) != ""
  }

  lemma {:induction false} NamesMember(rows: seq<MneRow>, name: NameKey)
    ensures name in Names(rows) <==> exists r :: r in rows && r.Labelled() && r.Name() == name
    ensures Distinct(Names(rows))
  {
    if rows != [] {
      var front, last := rows[..|rows| - 1], rows[|rows| - 1];
      assert rows == front + [last];
      NamesMember(front, name);
    }
  }

  lemma {:induction false} MergedMember(rows: seq<MneRow>, name: NameKey, slot: AltSlot)
    ensures slot in Merged(rows, name) <==> exists r :: r in rows && Carries(r, name, slot)
    ensures slot in Merged(rows, name) ==>
      exists r :: r in rows && Carries(r, name, slot) && r.At(slot) == Merged(rows, name)[slot]
  {
    if rows != [] {
      var front, last := rows[..|rows| - 1], rows[|rows| - 1];
      assert rows == front + [last];
      MergedMember(front, name, slot);
      if last.Labelled() && last.Name() == name {
        assert slot in Filled(last.alts) <==> Carries(last, name, slot);
      } else {
        assert !Carries(last, name, slot);
      }
    }
  }

  /** Of the values a snapshot gives a slot, the first one is kept. */
  lemma {:induction false} MergedFirst(rows: seq<MneRow>, name: NameKey, slot: AltSlot, j: nat)
    requires j < |rows| && Carries(rows[j], name, slot) && forall i :: 0 <= i < j ==> !Carries(rows[i], name, slot)
    ensures RowFor(rows, name).At(slot) == rows[j].At(slot)
  {
    var front := rows[..|rows| - 1];
    if j < |front| {
      MergedFirst(front, name, slot, j);
      MergedMember(front, name, slot);
      assert front[j] in front;
    } else {
      MergedMember(front, name, slot);
      assert forall r :: r in front ==> !Carries(r, name, slot);
    }
  }

  /** Merging yields one row for every (ID, mnemonic) pair with both parts non-empty, and
      nothing else: an ID with two mnemonics keeps both rows. */
  lemma DedupedMember(rows: seq<MneRow>, row: MneRow)
    ensures row in Deduped(rows)
       <==> row == RowFor(rows, row.Name()) && exists r :: r in rows && r.Labelled() && r.Name() == row.Name()
  {
    var names, raw := Names(rows), RowsFor(rows, Names(rows));
    SortMember(RowLess, raw, row);
    NamesMember(rows, row.Name());
    if row in raw {
      var i :| 0 <= i < |raw| && raw[i] == row;
      assert names[i] in names;
    }
    if row == RowFor(rows, row.Name()) && row.Name() in names {
      var i :| 0 <= i < |names| && names[i] == row.Name();
      assert raw[i] == row;
    }
  }

  lemma DedupedOnce(rows: seq<MneRow>)
    ensures Distinct(Deduped(rows))
  {
    NamesMember(rows, NameKey("", ""));
    var names, raw := Names(rows), RowsFor(rows, Names(rows));
    forall i, j | 0 <= i < j < |raw|
      ensures raw[i] != raw[j]
    {
      assert raw[i].Name() == names[i] && raw[j].Name() == names[j];
    }
    DistinctSort(RowLess, raw);
  }

  /** Rows that need no merging. */
  ghost predicate Merges(rows: seq<MneRow>) {
    && (forall r :: r in rows ==> r.Labelled() && Filled(r.alts) == r.alts)
    && forall i, j :: 0 <= i < j < |rows| ==> rows[i].Name() != rows[j].Name()
  }

  lemma {:induction false} MergedAlone(rows: seq<MneRow>, name: NameKey)
    requires forall r :: r in rows ==> r.Name() != name
    ensures Merged(rows, name) == map[]
  {
    if rows != [] {
      MergedAlone(rows[..|rows| - 1], name);
    }
  }

  lemma {:induction false} MergedSelf(rows: seq<MneRow>)
    requires Merges(rows)
    ensures RowsFor(rows, Names(rows)) == rows
  {
    if rows != [] {
      var front, last := rows[..|rows| - 1], rows[|rows| - 1];
      assert rows == front + [last];
      MergedSelf(front);
      MergedAlone(front, last.Name());
      NamesMember(front, last.Name());
      assert Names(rows) == Names(front) + [last.Name()];
      assert RowFor(rows, last.Name()) == last;
      EarlierMerged(front, last);
    }
  }

  /** Another name's row does not change what the rows before it merge to. */
  lemma EarlierMerged(front: seq<MneRow>, last: MneRow)
    requires RowsFor(front, Names(front)) == front && forall r :: r in front ==> r.Name() != last.Name()
    ensures forall i :: 0 <= i < |front| ==> RowFor(front + [last], Names(front)[i]) == front[i]
  {
    assert (front + [last])[..|front|] == front;
    forall i | 0 <= i < |front|
      ensures RowFor(front + [last], Names(front)[i]) == front[i]
    {
      assert RowsFor(front, Names(front))[i] == front[i];
      assert Names(front)[i] == front[i].Name();
    }
  }

  lemma DedupedMerges(rows: seq<MneRow>)
    ensures Merges(Deduped(rows))
  {
    var out := Deduped(rows);
    forall r | r in out
      ensures r.Labelled() && Filled(r.alts) == r.alts
    {
      DedupedMember(rows, r);
      forall s | s in r.alts
        ensures r.alts[s] != ""
      {
        MergedMember(rows, r.Name(), s);
      }
    }
    DedupedOnce(rows);
    forall i, j | 0 <= i < j < |out|
      ensures out[i].Name() != out[j].Name()
    {
      DedupedMember(rows, out[i]);
      DedupedMember(rows, out[j]);
    }
  }

  lemma RowLessAsymmetric()
    ensures Asymmetric(RowLess)
  {
    forall a, b | RowLess(a, b)
      ensures !RowLess(b, a)
    {
      CmpIdSign(a.id, b.id);
      StrCmpSign(a.mnemonic, b.mnemonic);
    }
  }

  // ---- the changes of a plan ----

  /** The change is asked for by the desired row. */
  ghost predicate Asks(live: MneRow, d: MneRow, header: seq<AltSlot>, clear: bool, c: MneChange) {
    && c.id == d.id && Managed(d, header, clear, c.slot)
    && c.from == live.At(c.slot) && c.to == d.At(c.slot)
    && c.from != c.to && (c.to != "" || clear)
  }

  ghost predicate Managed(d: MneRow, header: seq<AltSlot>, clear: bool, slot: nat) {
    slot == 0 || slot in d.alts || (clear && slot in header)
  }

  lemma {:induction false} RowDiffMember(live: MneRow, d: MneRow, slots: seq<nat>, clear: bool, c: MneChange)
    ensures c in RowDiff(live, d, slots, clear) <==> c.slot in slots && c in CellDiff(live, d, c.slot, clear)
  {
    if slots != [] {
      assert slots == slots[..|slots| - 1] + [slots[|slots| - 1]];
      RowDiffMember(live, d, slots[..|slots| - 1], clear, c);
    }
  }

  lemma SlotsMember(d: MneRow, header: seq<AltSlot>, clear: bool, slot: nat)
    ensures slot in Slots(d, header, clear) <==> Managed(d, header, clear, slot)
  {
    AscendingMember(d.alts.Keys + if clear then set s | s in header else {}, slot);
  }

  lemma {:induction false} RawDiffMember(cur: seq<MneRow>, desired: seq<MneRow>, header: seq<AltSlot>, clear: bool,
                                         c: MneChange)
    ensures c in RawDiff(cur, desired, header, clear)
       <==> exists d :: d in desired && Asks(Current(cur, d.id), d, header, clear, c)
  {
    if desired != [] {
      var front, last := desired[..|desired| - 1], desired[|desired| - 1];
      assert desired == front + [last];
      RawDiffMember(cur, front, header, clear, c);
      RowDiffMember(Current(cur, last.id), last, Slots(last, header, clear), clear, c);
      SlotsMember(last, header, clear, c.slot);
    }
  }

  /** The plan holds exactly the changes some desired row asks for. */
  lemma PlanMember(live: seq<MneRow>, desired: seq<MneRow>, header: seq<AltSlot>, clear: bool, c: MneChange)
    ensures c in LabelDiff(live, desired, header, clear)
       <==> exists d :: d in desired && Asks(Current(Deduped(live), d.id), d, header, clear, c)
  {
    SortMember(ChangeLess, RawDiff(Deduped(live), desired, header, clear), c);
    RawDiffMember(Deduped(live), desired, header, clear, c);
  }

  // ---- the server ----

  datatype LabelCell = LabelCell(id: string, slot: nat)

  type Server = map<LabelCell, string>

  function Label(srv: Server, id: string, slot: nat): string {
    if LabelCell(id, slot) in srv then srv[LabelCell(id, slot)] else ""
  }

  /** A resource without a primary mnemonic shows none of its labels. */
  function Visible(srv: Server, id: string, slot: nat): string {
    if id == "" || Label(srv, id, 0) == "" then "" else Label(srv, id, slot)
  }

  ghost predicate RowTrue(srv: Server, r: MneRow) {
    r.Labelled() ==>
      r.mnemonic == Label(srv, r.id, 0)
      && forall s :: s in r.alts && r.alts[s] != "" ==> r.alts[s] == Label(srv, r.id, s)
  }

  ghost predicate Reported(live: seq<MneRow>, srv: Server, id: string, slot: nat) {
    exists r :: r in live && r.Labelled() && r.id == id && r.At(slot) == Label(srv, id, slot)
  }

  /** A snapshot of the server: every row is true, and every label that shows is in some
      row, perhaps each in another repeat. */
  ghost predicate Shows(live: seq<MneRow>, srv: Server) {
    && (forall r :: r in live ==> RowTrue(srv, r))
    && forall id, slot: nat :: Visible(srv, id, slot) != "" ==> Reported(live, srv, id, slot)
  }

  lemma {:induction false} FoundMember(rows: seq<MneRow>, id: string)
    ensures Found(rows, id).Some? ==> Found(rows, id).value in rows && Found(rows, id).value.id == id
    ensures Found(rows, id).None? ==> forall r :: r in rows ==> r.id != id
  {
    if rows != [] {
      assert rows == rows[..|rows| - 1] + [rows[|rows| - 1]];
      FoundMember(rows[..|rows| - 1], id);
    }
  }

  /** Merging the repeats recovers all of a resource's visible labels and only those. */
  lemma CurrentIsVisible(live: seq<MneRow>, srv: Server, id: string, slot: nat)
    requires Shows(live, srv)
    ensures Current(Deduped(live), id).At(slot) == Visible(srv, id, slot)
  {
    var rows := Deduped(live);
    FoundMember(rows, id);
    match Found(rows, id)
    case None =>
      if Visible(srv, id, slot) != "" {
        assert Reported(live, srv, id, slot);
        var r :| r in live && r.Labelled() && r.id == id;
        DedupedMember(live, RowFor(live, r.Name()));
        assert false;
      }
    case Some(row) =>
      DedupedMember(live, row);
      var q :| q in live && q.Labelled() && q.Name() == row.Name();
      assert RowTrue(srv, q);
      if slot > 0 {
        MergedMember(live, row.Name(), slot);
        if Visible(srv, id, slot) != "" {
          assert Reported(live, srv, id, slot);
          var r :| r in live && r.Labelled() && r.id == id && r.At(slot) == Label(srv, id, slot);
          assert RowTrue(srv, r) && Carries(r, row.Name(), slot);
        }
        if slot in row.alts {
          var r :| r in live && Carries(r, row.Name(), slot) && r.At(slot) == row.alts[slot];
          assert RowTrue(srv, r);
        }
      }
  }

  function Run(srv: Server, plan: seq<MneChange>): Server {
    if plan == [] then srv
    else
      var c := plan[|plan| - 1];
      Run(srv, plan[..|plan| - 1])[LabelCell(c.id, c.slot) := c.to]
  }

  lemma {:induction false} RunElsewhere(srv: Server, plan: seq<MneChange>, id: string, slot: nat)
    requires forall c :: c in plan ==> c.id != id || c.slot != slot
    ensures Label(Run(srv, plan), id, slot) == Label(srv, id, slot)
  {
    if plan != [] {
      assert plan == plan[..|plan| - 1] + [plan[|plan| - 1]];
      RunElsewhere(srv, plan[..|plan| - 1], id, slot);
    }
  }

  lemma {:induction false} RunReaches(srv: Server, plan: seq<MneChange>, c: MneChange)
    requires c in plan && forall e :: e in plan && e.id == c.id && e.slot == c.slot ==> e.to == c.to
    ensures Label(Run(srv, plan), c.id, c.slot) == c.to
  {
    var front, last := plan[..|plan| - 1], plan[|plan| - 1];
    assert plan == front + [last];
    if last.id != c.id || last.slot != c.slot {
      RunReaches(srv, front, c);
    }
  }

  /** The row wants the slot written: it manages it, and an empty value only wants clearing. */
  ghost predicate Wants(d: MneRow, header: seq<AltSlot>, clear: bool, slot: nat) {
    Managed(d, header, clear, slot) && (d.At(slot) != "" || clear)
  }

  /** Rows of one resource want the same of each cell. */
  ghost predicate Agree(desired: seq<MneRow>, header: seq<AltSlot>, clear: bool) {
    forall d, e, slot: nat :: d in desired && e in desired ==> !Conflict(d, e, header, clear, slot)
  }

  ghost predicate Conflict(d: MneRow, e: MneRow, header: seq<AltSlot>, clear: bool, slot: nat) {
    d.id == e.id && Wants(d, header, clear, slot) && Wants(e, header, clear, slot) && d.At(slot) != e.At(slot)
  }

  /** Where every cell the file wants written stands after a run: a non-empty label is live;
      an empty one cleared the cell if the label showed. */
  lemma AfterRun(live: seq<MneRow>, desired: seq<MneRow>, header: seq<AltSlot>, clear: bool, srv: Server, d: MneRow,
                 slot: nat)
    requires Shows(live, srv) && Agree(desired, header, clear) && d in desired && Wants(d, header, clear, slot)
    ensures var after := Run(srv, LabelDiff(live, desired, header, clear));
      Label(after, d.id, slot) ==
        if d.At(slot) != "" || Visible(srv, d.id, slot) != "" then d.At(slot) else Label(srv, d.id, slot)
  {
    var plan := LabelDiff(live, desired, header, clear);
    CurrentIsVisible(live, srv, d.id, slot);
    var c := MneChange(d.id, slot, Visible(srv, d.id, slot), d.At(slot));
    PlanMember(live, desired, header, clear, c);
    forall e | e in plan && e.id == d.id && e.slot == slot
      ensures e == c
    {
      PlanMember(live, desired, header, clear, e);
      var f :| f in desired && Asks(Current(Deduped(live), f.id), f, header, clear, e);
      assert Wants(f, header, clear, slot) && !Conflict(d, f, header, clear, slot);
    }
    if c in plan {
      RunReaches(srv, plan, c);
    } else {
      RunElsewhere(srv, plan, d.id, slot);
    }
  }

  /** Running the plan makes every non-empty desired label live. In clear mode an empty
      cell of a managed column ends empty exactly when it was empty before or its resource
      had a primary mnemonic. */
  lemma LabelsConverge(live: seq<MneRow>, desired: seq<MneRow>, header: seq<AltSlot>, clear: bool, srv: Server,
                       d: MneRow, slot: nat)
    requires Shows(live, srv) && Agree(desired, header, clear) && d in desired && d.id != ""
      && Wants(d, header, clear, slot)
    ensures var after := Run(srv, LabelDiff(live, desired, header, clear));
      && (d.At(slot) != "" ==> Label(after, d.id, slot) == d.At(slot))
      && (d.At(slot) == "" ==>
            (Label(after, d.id, slot) == "" <==> Label(srv, d.id, slot) == "" || Label(srv, d.id, 0) != ""))
  {
    AfterRun(live, desired, header, clear, srv, d, slot);
  }

  /** No run writes a cell the file does not want written: not an unmanaged column, not a
      resource it does not name, not, unless clearing, an empty cell. */
  lemma LabelsUntouched(live: seq<MneRow>, desired: seq<MneRow>, header: seq<AltSlot>, clear: bool, srv: Server,
                        id: string, slot: nat)
    requires forall d :: d in desired && d.id == id ==> !Wants(d, header, clear, slot)
    ensures Label(Run(srv, LabelDiff(live, desired, header, clear)), id, slot) == Label(srv, id, slot)
  {
    var plan := LabelDiff(live, desired, header, clear);
    forall c | c in plan
      ensures c.id != id || c.slot != slot
    {
      PlanMember(live, desired, header, clear, c);
    }
    RunElsewhere(srv, plan, id, slot);
  }

  // ---- the second run ----

  /** The cell shows what the row wants of it, if anything. */
  ghost predicate Settled(srv: Server, d: MneRow, header: seq<AltSlot>, clear: bool, slot: nat) {
    Wants(d, header, clear, slot) ==> Visible(srv, d.id, slot) == d.At(slot)
  }

  ghost predicate RowSettled(srv: Server, d: MneRow, header: seq<AltSlot>, clear: bool) {
    forall slot: nat :: Settled(srv, d, header, clear, slot)
  }

  lemma PlanEmptyIff(live: seq<MneRow>, desired: seq<MneRow>, header: seq<AltSlot>, clear: bool, srv: Server)
    requires Shows(live, srv)
    ensures LabelDiff(live, desired, header, clear) == []
       <==> forall d :: d in desired ==> RowSettled(srv, d, header, clear)
  {
    var plan := LabelDiff(live, desired, header, clear);
    if plan != [] {
      var c := plan[0];
      PlanMember(live, desired, header, clear, c);
      var d :| d in desired && Asks(Current(Deduped(live), d.id), d, header, clear, c);
      CurrentIsVisible(live, srv, d.id, c.slot);
      assert !Settled(srv, d, header, clear, c.slot);
    } else {
      forall d | d in desired
        ensures RowSettled(srv, d, header, clear)
      {
        forall slot: nat
          ensures Settled(srv, d, header, clear, slot)
        {
          CurrentIsVisible(live, srv, d.id, slot);
          PlanMember(live, desired, header, clear, MneChange(d.id, slot, Visible(srv, d.id, slot), d.At(slot)));
        }
      }
    }
  }

  /** The resource of a row ends without a primary mnemonic: the file gives it none, and the
      server has none or loses it. */
  ghost predicate EndsBare(srv: Server, desired: seq<MneRow>, clear: bool, id: string) {
    (forall d :: d in desired && d.id == id ==> d.mnemonic == "") && (clear || Label(srv, id, 0) == "")
  }

  /** The row asks for an alternate of a resource that ends without a primary mnemonic: it
      is written and never shows. */
  ghost predicate Stuck(srv: Server, desired: seq<MneRow>, clear: bool, d: MneRow) {
    EndsBare(srv, desired, clear, d.id) && exists s :: s in d.alts && d.alts[s] != ""
  }

  /** The file gives a bare resource its primary, and uncovers an alternate that this row
      had to clear and that was hidden. */
  ghost predicate Uncovers(srv: Server, desired: seq<MneRow>, header: seq<AltSlot>, clear: bool, d: MneRow) {
    && clear && Label(srv, d.id, 0) == "" && !EndsBare(srv, desired, clear, d.id)
    && exists slot: nat :: Hides(srv, d, header, slot)
  }

  ghost predicate Hides(srv: Server, d: MneRow, header: seq<AltSlot>, slot: nat) {
    slot >= 1 && Managed(d, header, true, slot) && d.At(slot) == "" && Label(srv, d.id, slot) != ""
  }

  lemma PrimaryAfter(live: seq<MneRow>, desired: seq<MneRow>, header: seq<AltSlot>, clear: bool, srv: Server, d: MneRow)
    requires Shows(live, srv) && Agree(desired, header, clear) && d in desired && d.id != ""
    ensures Label(Run(srv, LabelDiff(live, desired, header, clear)), d.id, 0) == ""
       <==> EndsBare(srv, desired, clear, d.id)
  {
    if e :| e in desired && e.id == d.id && e.mnemonic != "" {
      assert Wants(e, header, clear, 0);
      AfterRun(live, desired, header, clear, srv, e, 0);
    } else if clear {
      AfterRun(live, desired, header, clear, srv, d, 0);
    } else {
      LabelsUntouched(live, desired, header, clear, srv, d.id, 0);
    }
  }

  lemma SlotSettlesIff(live: seq<MneRow>, desired: seq<MneRow>, header: seq<AltSlot>, clear: bool, srv: Server,
                       d: MneRow, slot: nat)
    requires Shows(live, srv) && Agree(desired, header, clear) && d in desired && d.id != ""
    ensures Settled(Run(srv, LabelDiff(live, desired, header, clear)), d, header, clear, slot) <==>
      !(Wants(d, header, clear, slot) && d.At(slot) != "" && EndsBare(srv, desired, clear, d.id))
      && !(clear && Label(srv, d.id, 0) == "" && !EndsBare(srv, desired, clear, d.id) && Hides(srv, d, header, slot))
  {
    if Wants(d, header, clear, slot) {
      PrimaryAfter(live, desired, header, clear, srv, d);
      AfterRun(live, desired, header, clear, srv, d, slot);
    }
  }

  ghost predicate Blocked(srv: Server, desired: seq<MneRow>, header: seq<AltSlot>, clear: bool, d: MneRow) {
    Stuck(srv, desired, clear, d) || Uncovers(srv, desired, header, clear, d)
  }

  lemma BlockedUnsettles(live: seq<MneRow>, desired: seq<MneRow>, header: seq<AltSlot>, clear: bool, srv: Server,
                         d: MneRow)
    requires Shows(live, srv) && Agree(desired, header, clear) && d in desired && d.id != ""
    requires Blocked(srv, desired, header, clear, d)
    ensures !RowSettled(Run(srv, LabelDiff(live, desired, header, clear)), d, header, clear)
  {
    var slot: nat;
    if Stuck(srv, desired, clear, d) {
      slot :| slot in d.alts && d.alts[slot] != "";
      assert slot != 0 && Wants(d, header, clear, slot) && d.At(slot) != "";
    } else {
      slot :| Hides(srv, d, header, slot);
    }
    SlotSettlesIff(live, desired, header, clear, srv, d, slot);
    assert !Settled(Run(srv, LabelDiff(live, desired, header, clear)), d, header, clear, slot);
  }

  lemma RowSettlesIff(live: seq<MneRow>, desired: seq<MneRow>, header: seq<AltSlot>, clear: bool, srv: Server,
                      d: MneRow)
    requires Shows(live, srv) && Agree(desired, header, clear) && d in desired && d.id != ""
    ensures RowSettled(Run(srv, LabelDiff(live, desired, header, clear)), d, header, clear)
       <==> !Blocked(srv, desired, header, clear, d)
  {
    var after := Run(srv, LabelDiff(live, desired, header, clear));
    if Blocked(srv, desired, header, clear, d) {
      BlockedUnsettles(live, desired, header, clear, srv, d);
    } else {
      forall slot: nat
        ensures Settled(after, d, header, clear, slot)
      {
        SlotSettlesIff(live, desired, header, clear, srv, d, slot);
        NotBlockedAt(srv, desired, header, clear, d, slot);
      }
    }
  }

  lemma NotBlockedAt(srv: Server, desired: seq<MneRow>, header: seq<AltSlot>, clear: bool, d: MneRow, slot: nat)
    requires !Blocked(srv, desired, header, clear, d) && d in desired
    ensures !(Wants(d, header, clear, slot) && d.At(slot) != "" && EndsBare(srv, desired, clear, d.id))
    ensures !(clear && Label(srv, d.id, 0) == "" && !EndsBare(srv, desired, clear, d.id) && Hides(srv, d, header, slot))
  {
  }

  lemma OneOfTwo(srv: Server, d: MneRow, e: MneRow, header: seq<AltSlot>, clear: bool, slot: nat)
    requires Conflict(d, e, header, clear, slot)
    ensures !RowSettled(srv, d, header, clear) || !RowSettled(srv, e, header, clear)
  {
    assert !Settled(srv, d, header, clear, slot) || !Settled(srv, e, header, clear, slot);
  }

  /** A second run plans nothing exactly when the rows of each resource agree, none is stuck
      without a primary and none uncovers a hidden label. `again` is any snapshot taken after
      the first run; the file may name a resource more than once. */
  lemma LabelRunTwiceIsZeroIff(live: seq<MneRow>, desired: seq<MneRow>, header: seq<AltSlot>, clear: bool, srv: Server,
                               again: seq<MneRow>)
    requires Shows(live, srv) && forall d :: d in desired ==> d.id != ""
    requires Shows(again, Run(srv, LabelDiff(live, desired, header, clear)))
    ensures LabelDiff(again, desired, header, clear) == []
       <==> Agree(desired, header, clear)
            && forall d :: d in desired ==> !Blocked(srv, desired, header, clear, d)
  {
    var after := Run(srv, LabelDiff(live, desired, header, clear));
    PlanEmptyIff(again, desired, header, clear, after);
    if Agree(desired, header, clear) {
      forall d | d in desired
        ensures RowSettled(after, d, header, clear) <==> !Blocked(srv, desired, header, clear, d)
      {
        RowSettlesIff(live, desired, header, clear, srv, d);
      }
    } else {
      var d, e, slot: nat :| d in desired && e in desired && Conflict(d, e, header, clear, slot);
      OneOfTwo(after, d, e, header, clear, slot);
    }
  }

  lemma BareShowsNothing(d: MneRow, header: seq<AltSlot>)
    requires d.mnemonic == ""
    ensures Shows([], map[]) && Shows([], Run(map[], LabelDiff([], [d], header, false)))
  {
    forall id
      ensures Label(Run(map[], LabelDiff([], [d], header, false)), id, 0) == ""
    {
      LabelsUntouched([], [d], header, false, map[], id, 0);
    }
  }

  lemma AgreeAlone(d: MneRow, header: seq<AltSlot>, clear: bool)
    ensures Agree([d], header, clear) && d in [d]
  {
    forall e, f, slot: nat | e in [d] && f in [d]
      ensures !Conflict(e, f, header, clear, slot)
    {
      assert e == d && f == d;
    }
  }

  lemma LoneStuck(d: MneRow, header: seq<AltSlot>, slot: AltSlot, again: seq<MneRow>)
    requires d.id != "" && d.mnemonic == "" && slot in d.alts && d.alts[slot] != ""
    ensures var after := Run(map[], LabelDiff([], [d], header, false));
      && Label(after, d.id, slot) == d.alts[slot]
      && (Shows(again, after) ==> LabelDiff(again, [d], header, false) != [])
  {
    var after := Run(map[], LabelDiff([], [d], header, false));
    BareShowsNothing(d, header);
    AgreeAlone(d, header, false);
    assert Wants(d, header, false, slot);
    AfterRun([], [d], header, false, map[], d, slot);
    assert Stuck(map[], [d], false, d);
    BlockedUnsettles([], [d], header, false, map[], d);
    if Shows(again, after) {
      PlanEmptyIff(again, [d], header, false, after);
    }
  }

  /** A row stuck: the alternate of a resource without a primary is written, shows in no
      snapshot and is planned again. */
  lemma StuckNeverSettles(again: seq<MneRow>)
    ensures var desired := [MneRow("1", "", map[1 := "x"])];
      var after := Run(map[], LabelDiff([], desired, [1], false));
      && Shows([], map[]) && Label(after, "1", 1) == "x" && Shows([], after)
      && (Shows(again, after) ==> LabelDiff(again, desired, [1], false) != [])
  {
    BareShowsNothing(MneRow("1", "", map[1 := "x"]), [1]);
    LoneStuck(MneRow("1", "", map[1 := "x"]), [1], 1, again);
  }

  lemma LoneUncovers(srv: Server, d: MneRow, header: seq<AltSlot>, slot: AltSlot, again: seq<MneRow>)
    requires d.id != "" && d.mnemonic != "" && slot in d.alts && d.alts[slot] == ""
    requires Shows([], srv) && Label(srv, d.id, 0) == "" && Label(srv, d.id, slot) != ""
    ensures var after := Run(srv, LabelDiff([], [d], header, true));
      && Visible(after, d.id, slot) == Label(srv, d.id, slot)
      && (Shows(again, after) ==> LabelDiff(again, [d], header, true) != [])
  {
    var after := Run(srv, LabelDiff([], [d], header, true));
    AgreeAlone(d, header, true);
    assert Hides(srv, d, header, slot);
    AfterRun([], [d], header, true, srv, d, slot);
    AfterRun([], [d], header, true, srv, d, 0);
    assert Uncovers(srv, [d], header, true, d);
    BlockedUnsettles([], [d], header, true, srv, d);
    if Shows(again, after) {
      PlanEmptyIff(again, [d], header, true, after);
    }
  }

  /** A row that uncovers: giving the resource its primary, in clear mode, brings out the
      alternate that the run was to clear and could not see. */
  lemma UncoveredNeedsSecondRun(again: seq<MneRow>)
    ensures var srv, desired := map[LabelCell("1", 1) := "x"], [MneRow("1", "A", map[1 := ""])];
      var after := Run(srv, LabelDiff([], desired, [1], true));
      && Shows([], srv) && Visible(srv, "1", 1) == "" && Visible(after, "1", 1) == "x"
      && (Shows(again, after) ==> LabelDiff(again, desired, [1], true) != [])
  {
    LoneUncovers(map[LabelCell("1", 1) := "x"], MneRow("1", "A", map[1 := ""]), [1], 1, again);
  }

  // ---- importing an untouched export ----

  ghost predicate OneMnemonic(live: seq<MneRow>) {
    forall r, q :: r in live && q in live && r.Labelled() && q.Labelled() && r.id == q.id ==> r.mnemonic == q.mnemonic
  }

  lemma MergedIsCurrent(live: seq<MneRow>, d: MneRow)
    requires OneMnemonic(live) && d in Deduped(live)
    ensures Current(Deduped(live), d.id) == d
  {
    FoundMember(Deduped(live), d.id);
    DedupedMember(live, d);
    DedupedMember(live, Current(Deduped(live), d.id));
  }

  /** One of the two rows of an ID with two mnemonics always differs from the other. */
  lemma ConflictPlanned(live: seq<MneRow>, header: seq<AltSlot>, clear: bool, r: MneRow, q: MneRow)
    requires r in live && q in live && r.Labelled() && q.Labelled() && r.id == q.id && r.mnemonic != q.mnemonic
    ensures LabelDiff(live, Deduped(live), header, clear) != []
  {
    var rows := Deduped(live);
    var cur := Current(rows, r.id);
    var d := RowFor(live, if cur.mnemonic == r.mnemonic then q.Name() else r.Name());
    var c := MneChange(r.id, 0, cur.mnemonic, d.mnemonic);
    DedupedMember(live, d);
    PlanMember(live, rows, header, clear, c);
    assert Asks(cur, d, header, clear, c);
  }

  /** Importing the merged snapshot plans nothing, clearing or not, exactly when no ID was
      reported with two mnemonics. */
  lemma LabelExportImportIsZeroIff(live: seq<MneRow>, header: seq<AltSlot>, clear: bool)
    ensures LabelDiff(live, Deduped(live), header, clear) == [] <==> OneMnemonic(live)
  {
    var rows := Deduped(live);
    var plan := LabelDiff(live, rows, header, clear);
    if OneMnemonic(live) && plan != [] {
      PlanMember(live, rows, header, clear, plan[0]);
      var d :| d in rows && Asks(Current(rows, d.id), d, header, clear, plan[0]);
      MergedIsCurrent(live, d);
      assert false;
    }
    if r, q :| r in live && q in live && r.Labelled() && q.Labelled() && r.id == q.id && r.mnemonic != q.mnemonic {
      ConflictPlanned(live, header, clear, r, q);
    }
  }

  // ---- the same in plain terms ----

  /** Of two rows of an ID the first is found. */
  lemma {:induction false} FoundFirst(rows: seq<MneRow>, id: string, j: nat)
    requires j < |rows| && rows[j].id == id && forall i :: 0 <= i < j ==> rows[i].id != id
    ensures Found(rows, id) == Some(rows[j])
  {
    if j < |rows| - 1 {
      FoundFirst(rows[..|rows| - 1], id, j);
    } else {
      FoundMember(rows[..j], id);
    }
  }

  /** The value of a slot: the mnemonic for slot 0, nothing for an alternate the row lacks. */
  ghost predicate ValueAt(r: MneRow, slot: nat, value: string) {
    && (slot == 0 ==> value == r.mnemonic)
    && (slot != 0 && slot in r.alts ==> value == r.alts[slot])
    && (slot != 0 && slot !in r.alts ==> value == "")
  }

  /** What a cell holds: its value in the first merged row of the ID, nothing without one. */
  ghost predicate HeldAt(live: seq<MneRow>, id: string, slot: nat, value: string) {
    if exists r :: r in Deduped(live) && r.id == id then
      exists j :: 0 <= j < |Deduped(live)| && Deduped(live)[j].id == id && ValueAt(Deduped(live)[j], slot, value)
        && forall i :: 0 <= i < j ==> Deduped(live)[i].id != id
    else value == ""
  }

  lemma HeldPlain(live: seq<MneRow>, id: string, slot: nat)
    ensures HeldAt(live, id, slot, Current(Deduped(live), id).At(slot))
  {
    var rows := Deduped(live);
    FoundMember(rows, id);
    if exists r :: r in rows && r.id == id {
      var j := FirstOf(rows, id);
      FoundFirst(rows, id, j);
      assert ValueAt(rows[j], slot, rows[j].At(slot));
    }
  }

  lemma {:induction false} FirstOf(rows: seq<MneRow>, id: string) returns (j: nat)
    requires exists r :: r in rows && r.id == id
    ensures j < |rows| && rows[j].id == id && forall i :: 0 <= i < j ==> rows[i].id != id
  {
    var front, last := rows[..|rows| - 1], rows[|rows| - 1];
    assert rows == front + [last];
    if exists r :: r in front && r.id == id {
      j := FirstOf(front, id);
    } else {
      j := |front|;
      assert forall i :: 0 <= i < j ==> rows[i] in front;
    }
  }

  /** A change of the plan goes from what the cell holds to what a desired row says of it: of
      the mnemonic, of an alternate the row has or, when clearing, of a column of the file; to
      nothing only when clearing. */
  lemma PlanPlain(live: seq<MneRow>, desired: seq<MneRow>, header: seq<AltSlot>, clear: bool, c: MneChange)
    requires c in LabelDiff(live, desired, header, clear)
    ensures c.from != c.to && (c.to == "" ==> clear) && HeldAt(live, c.id, c.slot, c.from)
    ensures exists d ::
      && d in desired && d.id == c.id && ValueAt(d, c.slot, c.to)
      && (c.slot == 0 || c.slot in d.alts || (clear && c.slot in header))
  {
    PlanMember(live, desired, header, clear, c);
    var d :| d in desired && Asks(Current(Deduped(live), d.id), d, header, clear, c);
    HeldPlain(live, d.id, c.slot);
    assert ValueAt(d, c.slot, c.to);
  }

  /** Every cell a desired row manages is planned when it holds something else, an empty value
      only when clearing. */
  lemma CellPlanned(live: seq<MneRow>, desired: seq<MneRow>, header: seq<AltSlot>, clear: bool, d: MneRow, slot: nat,
                    to: string)
    requires d in desired && ValueAt(d, slot, to) && !HeldAt(live, d.id, slot, to) && (to != "" || clear)
    requires slot == 0 || slot in d.alts || (clear && slot in header)
    ensures exists c :: c in LabelDiff(live, desired, header, clear) && c.id == d.id && c.slot == slot && c.to == to
  {
    var c := MneChange(d.id, slot, Current(Deduped(live), d.id).At(slot), to);
    HeldPlain(live, d.id, slot);
    PlanMember(live, desired, header, clear, c);
  }

  /** The row gives a value to a slot of this ID and mnemonic, neither of them empty. */
  ghost predicate Gives(r: MneRow, id: string, mnemonic: string, slot: AltSlot) {
    r.id == id != "" && r.mnemonic == mnemonic != "" && slot in r.alts && r.alts[slot] != ""
  }

  ghost predicate FirstGives(rows: seq<MneRow>, j: int, id: string, mnemonic: string, slot: AltSlot) {
    && 0 <= j < |rows| && Gives(rows[j], id, mnemonic, slot)
    && forall i :: 0 <= i < j ==> !Gives(rows[i], id, mnemonic, slot)
  }

  /** A merged row has an ID and a mnemonic that some row of the snapshot has, and of each
      alternate the first value that the snapshot gives it. */
  lemma MergedPlain(rows: seq<MneRow>, row: MneRow, slot: AltSlot)
    requires row in Deduped(rows)
    ensures row.id != "" && row.mnemonic != ""
    ensures exists r :: r in rows && r.id == row.id && r.mnemonic == row.mnemonic
    ensures slot in row.alts <==> exists r :: r in rows && Gives(r, row.id, row.mnemonic, slot)
    ensures forall j :: FirstGives(rows, j, row.id, row.mnemonic, slot) ==>
      slot in row.alts && row.alts[slot] == rows[j].alts[slot]
  {
    DedupedMember(rows, row);
    MergedMember(rows, row.Name(), slot);
    forall r
      ensures Gives(r, row.id, row.mnemonic, slot) <==> Carries(r, row.Name(), slot)
    {
    }
    forall j | FirstGives(rows, j, row.id, row.mnemonic, slot)
      ensures slot in row.alts && row.alts[slot] == rows[j].alts[slot]
    {
      MergedFirst(rows, row.Name(), slot, j);
    }
  }

  /** Every row with an ID and a mnemonic is merged into one. */
  lemma EveryRowMerged(rows: seq<MneRow>, r: MneRow)
    requires r in rows && r.id != "" && r.mnemonic != ""
    ensures exists row :: row in Deduped(rows) && row.id == r.id && row.mnemonic == r.mnemonic
  {
    DedupedMember(rows, RowFor(rows, r.Name()));
  }

  function Complete(): MneRow -> bool {
    (r: MneRow) => r.id != "" && r.mnemonic != ""
  }

  function Naming(): MneRow -> NameKey {
    (r: MneRow) => NameKey(r.id, r.mnemonic)
  }

  /** The merged rows are made, before they are sorted, in the order in which the rows first
      have their ID and mnemonic. */
  lemma {:induction false} NamesPlain(rows: seq<MneRow>)
    ensures Names(rows) == Firsts(Mapped(Naming(), Filter(Complete(), rows)))
  {
    if rows != [] {
      var front, last := rows[..|rows| - 1], rows[|rows| - 1];
      NamesPlain(front);
      assert rows == front + [last];
      FilterLast(Complete(), front, last);
      MappedLast(Naming(), Filter(Complete(), front), last);
      FirstsLast(Mapped(Naming(), Filter(Complete(), front)), last.Name());
    }
  }
}
