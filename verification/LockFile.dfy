/** The lock file: the set locks of a snapshot printed, parsed and planned again. */
module LockFile {
  import opened Wrappers
  import opened Text
  import opened Sorting
  import opened Sequences
  import opened Ids
  import opened Csv
  import opened Locks

  /** Whose locks a file lists. */
  datatype Side = Destination | Source
  {
    function Column(): string {
      if this == Destination then "dest" else "srce"
    }
  }

  /** `OutOfRange` is the run-time failure of addressing a column a short row lacks. */
  datatype LockError = NoHeader | MissingColumn(name: string) | ShortRow | OutOfRange | EmptyId | BadState | EmptyLevels

  datatype LockKey = LockKey(id: string, state: string, lockedBy: string)

  // ---- printing ----

  function StateText(l: LockSpec): string {
    ToUpper(Trim(l.state))
  }

  /** Released cells are the baseline and are not written. */
  predicate Exported(l: LockSpec) {
    l.id != "" && StateText(l) != "" && StateText(l) != RELEASED
  }

  function KeyOf(l: LockSpec): LockKey {
    LockKey(l.id, StateText(l), l.lockedBy)
  }

  function Keys(live: seq<LockSpec>): seq<LockKey> {
    if live == [] then []
    else
      var l, before := live[|live| - 1], Keys(live[..|live| - 1]);
      if Exported(l) then AddNew(before, KeyOf(l)) else before
  }

  function LevelsOf(live: seq<LockSpec>, k: LockKey): seq<string> {
    if live == [] then []
    else
      var l, before := live[|live| - 1], LevelsOf(live[..|live| - 1], k);
      if Exported(l) && KeyOf(l) == k && l.level != "" then AddNew(before, l.level) else before
  }

  function RowOf(live: seq<LockSpec>, k: LockKey): LockRow {
    LockRow(k.id, k.state, Sort(IdLess, LevelsOf(live, k)), k.lockedBy)
  }

  function RowsOf(live: seq<LockSpec>, keys: seq<LockKey>): seq<LockRow> {
    seq(|keys|, i requires 0 <= i < |keys| => RowOf(live, keys[i]))
  }

  predicate RowLess(a: LockRow, b: LockRow) {
    var c := CmpId(a.id, b.id);
    if c != 0 then c < 0 else StrCmp(a.state, b.state) < 0
  }

  function Grouped(live: seq<LockSpec>): seq<LockRow> {
    Sort(RowLess, RowsOf(live, Keys(live)))
  }

  function Line(row: LockRow): string {
    Led(row.id, row.state, Join(row.levels, ';'), row.lockedBy)
  }

  function Columns(side: Side): seq<string> {
    [side.Column(), "state", "levels", "locked_by"]
  }

  function BodyLines(rows: seq<LockRow>): seq<string> {
    seq(|rows|, i requires 0 <= i < |rows| => Line(rows[i]))
  }

  function FileLines(side: Side, rows: seq<LockRow>): seq<string> {
    [Join(Columns(side), ',')] + BodyLines(rows)
  }

  function Printed(side: Side, live: seq<LockSpec>): string {
    Unlines(FileLines(side, Grouped(live)))
  }

  /** The accumulators after some locks. */
  ghost predicate Accumulated(live: seq<LockSpec>, order: seq<LockKey>, groups: map<LockKey, seq<string>>) {
    && order == Keys(live)
    && groups.Keys == (set k | k in order)
    && forall k :: LevelsOf(live, k) == if k in groups then groups[k] else []
  }

  lemma AccumulateStep(live: seq<LockSpec>, l: LockSpec, order: seq<LockKey>, groups: map<LockKey, seq<string>>)
    requires Accumulated(live, order, groups)
    ensures !Exported(l) ==> Accumulated(live + [l], order, groups)
    ensures Exported(l) ==>
      var k := KeyOf(l);
      var before := if k in groups then groups[k] else [];
      Accumulated(live + [l], AddNew(order, k), groups[k := if l.level != "" then AddNew(before, l.level) else before])
  {
    assert (live + [l])[..|live|] == live;
  }

  method AddLock(order0: seq<LockKey>, groups0: map<LockKey, seq<string>>, l: LockSpec)
    returns (order: seq<LockKey>, groups: map<LockKey, seq<string>>)
    requires groups0.Keys == set k | k in order0
    ensures order == AddNew(order0, KeyOf(l))
    ensures var before := if KeyOf(l) in groups0 then groups0[KeyOf(l)] else [];
      groups == groups0[KeyOf(l) := if l.level != "" then AddNew(before, l.level) else before]
  {
    order, groups := order0, groups0;
    var k := KeyOf(l);
    if k !in groups {
      groups := groups[k := []];
      order := order + [k];
    }
    if l.level !in groups[k] && l.level != "" {
      groups := groups[k := groups[k] + [l.level]];
    }
  }

  method GroupLocks(live: seq<LockSpec>) returns (rows: seq<LockRow>)
    ensures rows == Grouped(live)
  {
    var order: seq<LockKey> := [];
    var groups: map<LockKey, seq<string>> := map[];
    for i := 0 to |live|
      invariant Accumulated(live[..i], order, groups)
    {
      AccumulateStep(live[..i], live[i], order, groups);
      assert live[..i + 1] == live[..i] + [live[i]];
      if Exported(live[i]) {
        order, groups := AddLock(order, groups, live[i]);
      }
    }
    assert live[..|live|] == live;
    rows := [];
    for i := 0 to |order|
      invariant rows == RowsOf(live, order[..i])
    {
      var k := order[i];
      rows := rows + [LockRow(k.id, k.state, Sort(IdLess, groups[k]), k.lockedBy)];
    }
    assert order[..|order|] == order;
    rows := Sort(RowLess, rows);
  }

  method FormatLocks(side: Side, live: seq<LockSpec>) returns (b: string)
    ensures b == Printed(side, live)
  {
    var rows := GroupLocks(live);
    var header := side.Column() + "," + "state" + "," + "levels";
    JoinThree(side.Column(), "state", "levels", ',');
    JoinMore([side.Column(), "state", "levels"], ',', "locked_by");
    assert Columns(side) == [side.Column(), "state", "levels"] + ["locked_by"];
    b := header + "," + "locked_by" + "\n";
    OneLine(Join(Columns(side), ','));
    assert FileLines(side, rows[..0]) == [Join(Columns(side), ',')];
    for i := 0 to |rows|
      invariant b == Unlines(FileLines(side, rows[..i]))
    {
      var g := rows[i];
      var line := g.id + "," + g.state + "," + Join(g.levels, ';') + "," + g.lockedBy;
      LedFlat(g.id, g.state, Join(g.levels, ';'), g.lockedBy);
      LinesGrow(side, rows, i);
      b := b + line + "\n";
    }
    assert rows[..|rows|] == rows;
  }

  lemma LinesGrow(side: Side, rows: seq<LockRow>, i: nat)
    requires i < |rows|
    ensures Unlines(FileLines(side, rows[..i + 1])) == Unlines(FileLines(side, rows[..i])) + Line(rows[i]) + ['\n']
  {
    assert FileLines(side, rows[..i + 1]) == FileLines(side, rows[..i]) + [Line(rows[i])];
    UnlinesAdd(FileLines(side, rows[..i]), Line(rows[i]));
  }

  // ---- parsing ----

  datatype Places = Places(id: nat, state: nat, levels: nat, lockedBy: Option<nat>)

  function Locate(side: Side, header: seq<string>): Result<Places, LockError> {
    var idx := Index(header);
    if side.Column() !in idx then Err(MissingColumn(side.Column()))
    else if "state" !in idx then Err(MissingColumn("state"))
    else if "levels" !in idx then Err(MissingColumn("levels"))
    else Ok(Places(idx[side.Column()], idx["state"], idx["levels"],
                   if "locked_by" in idx then Some(idx["locked_by"]) else None))
  }

  /** A row needs three fields, wherever the columns stand. */
  function ReadRow(at: Places, f: seq<string>): Result<LockRow, LockError> {
    if |f| < 3 then Err(ShortRow)
    else if at.id >= |f| || at.state >= |f| || at.levels >= |f| then Err(OutOfRange)
    else
      var id, state, levels := Trim(f[at.id]), ToUpper(Trim(f[at.state])), LevelCell(f[at.levels]);
      var lockedBy := if at.lockedBy.Some? && at.lockedBy.value < |f| then Trim(f[at.lockedBy.value]) else "";
      if id == "" then Err(EmptyId)
      else if !Accepted(state) then Err(BadState)
      else if levels == [] then Err(EmptyLevels)
      else Ok(LockRow(id, state, levels, lockedBy))
  }

  function Reader(at: Places): seq<string> -> Result<LockRow, LockError> {
    f => ReadRow(at, f)
  }

  function ParsedBody(side: Side, header: seq<string>, body: seq<string>,
                      first: nat): Result<seq<LockRow>, At<LockError>> {
    match Locate(side, header)
    case Err(e) => Err(At(0, e))
    case Ok(at) => ReadRows(Reader(at), body, first)
  }

  function ParsedLines(side: Side, lines: seq<string>): Result<seq<LockRow>, At<LockError>> {
    var start := HeaderAt(lines);
    if start >= |lines| then Err(At(0, NoHeader))
    else ParsedBody(side, Header(lines[start]), lines[start + 1..], start + 2)
  }

  function Parsed(side: Side, data: string): Result<seq<LockRow>, At<LockError>> {
    ParsedLines(side, Lines(data))
  }

  method ParseLines(side: Side, lines: seq<string>) returns (res: Result<seq<LockRow>, At<LockError>>)
    ensures res == ParsedLines(side, lines)
  {
    var start := FindHeader(lines);
    if start >= |lines| {
      return Err(At(0, NoHeader));
    }
    var header, body := Header(lines[start]), lines[start + 1..];
    assert ParsedLines(side, lines) == ParsedBody(side, header, body, start + 2);
    res := ParseBody(side, header, body, start + 2);
  }

  method ParseLocks(side: Side, data: string) returns (res: Result<seq<LockRow>, At<LockError>>)
    ensures res == Parsed(side, data)
  {
    res := ParseLines(side, Lines(data));
  }

  method ParseBody(side: Side, header: seq<string>, body: seq<string>, first: nat)
    returns (res: Result<seq<LockRow>, At<LockError>>)
    ensures res == ParsedBody(side, header, body, first)
  {
    var idx := IndexColumns(header);
    if side.Column() !in idx {
      return Err(At(0, MissingColumn(side.Column())));
    }
    if "state" !in idx {
      return Err(At(0, MissingColumn("state")));
    }
    if "levels" !in idx {
      return Err(At(0, MissingColumn("levels")));
    }
    var at := Places(idx[side.Column()], idx["state"], idx["levels"],
                     if "locked_by" in idx then Some(idx["locked_by"]) else None);
    res := ReadLines(Reader(at), body, first);
  }

  lemma ReadRowAccepted(at: Places, f: seq<string>)
    ensures ReadRow(at, f).Ok? ==>
      var row := ReadRow(at, f).value;
      Accepted(row.state) && row.id != "" && row.levels != []
  {
  }

  lemma LinesAccepted(side: Side, lines: seq<string>, row: LockRow)
    requires ParsedLines(side, lines).Ok? && row in ParsedLines(side, lines).value
    ensures Accepted(row.state) && row.id != "" && row.levels != []
  {
    var at := Locate(side, Header(lines[HeaderAt(lines)])).value;
    RowsWereRead(Reader(at), lines[HeaderAt(lines) + 1..], HeaderAt(lines) + 2, row);
    var f :| Reader(at)(f) == Ok(row);
    ReadRowAccepted(at, f);
  }

  /** Every row a parser accepts asks for a state of the wire's set, on some level. */
  lemma ParsedRowsAccepted(side: Side, data: string, row: LockRow)
    requires Parsed(side, data).Ok? && row in Parsed(side, data).value
    ensures Accepted(row.state) && row.id != "" && row.levels != []
  {
    LinesAccepted(side, Lines(data), row);
  }

  // ---- the round trip ----

  function PrintedPlaces(): Places {
    Places(0, 1, 2, Some(3))
  }

  lemma ColumnNames(side: Side)
    ensures PlainNames(Columns(side))
    ensures forall n :: n in Columns(side) ==> Trimmed(n)
  {
    assert PlainName("dest") && PlainName("srce") && PlainName("state") && PlainName("levels")
      && PlainName("locked_by");
    assert Trimmed("dest") && Trimmed("srce") && Trimmed("state") && Trimmed("levels") && Trimmed("locked_by");
  }

  lemma ColumnsApart(side: Side)
    ensures forall i, j :: 0 <= i < j < 4 ==> Columns(side)[i] != Columns(side)[j]
  {
    assert |Columns(side)[0]| == 4 && |"state"| == 5 && |"levels"| == 6 && |"locked_by"| == 9;
  }

  lemma ColumnAt(side: Side, i: nat)
    requires i < 4
    ensures Columns(side)[i] in Index(Columns(side)) && Index(Columns(side))[Columns(side)[i]] == i
  {
    ColumnNames(side);
    ColumnsApart(side);
    IndexOfName(Columns(side), i);
  }

  lemma ColumnsLocated(side: Side)
    ensures Locate(side, Columns(side)) == Ok(PrintedPlaces())
  {
    ColumnAt(side, 0);
    ColumnAt(side, 1);
    ColumnAt(side, 2);
    ColumnAt(side, 3);
  }

  /** The IDs, levels and states of a row survive a file; who set the lock is free text. */
  predicate PlainLockRow(row: LockRow) {
    && row.id != "" && row.id[0] != '#' && PlainField(row.id)
    && PlainField(row.state) && UpperCase(row.state)
    && (forall l :: l in row.levels ==> PlainLevel(l))
    && PlainLine(row.lockedBy)
  }

  /** A printed row reads back, except for who set the lock, exactly when its state is one
      of the wire's set and it has a level. */
  lemma RowReads(row: LockRow)
    requires PlainLockRow(row)
    ensures !Skipped(Line(row)) && PlainLine(Line(row))
    ensures ReadRow(PrintedPlaces(), Fields(Line(row))).Ok? <==> Accepted(row.state) && row.levels != []
    ensures ReadRow(PrintedPlaces(), Fields(Line(row))).Ok? ==>
      var back := ReadRow(PrintedPlaces(), Fields(Line(row))).value;
      back.id == row.id && back.state == row.state && back.levels == row.levels
  {
    var cell := Join(row.levels, ';');
    if row.levels == [] {
      assert PlainField("") && LevelCell("") == [] by { NoLevels(); }
    } else {
      LevelCellReads(row.levels);
    }
    FreeTextRowReads(row.id, row.state, cell, row.lockedBy);
    PlainLineOf(row, cell);
    var f := Fields(Line(row));
    assert f[0] == row.id && f[1] == row.state && f[2] == cell;
    assert Trim(row.id) == row.id && Trim(row.state) == row.state;
  }

  lemma NoLevels()
    ensures LevelCell("") == []
  {
    assert SplitOn("", LEVEL_SEPARATORS) == [""];
    assert TrimmedParts([""][..0]) == [];
    assert Trim("") == "";
  }

  lemma PlainLineOf(row: LockRow, cell: string)
    requires PlainLockRow(row) && PlainField(cell) && cell == Join(row.levels, ';')
    ensures PlainLine(Line(row))
  {
    var line := Line(row);
    LedFlat(row.id, row.state, cell, row.lockedBy);
    assert '\n' !in row.id && '\n' !in row.state && '\n' !in cell;
    assert row.lockedBy != [] ==> line[|line| - 1] == row.lockedBy[|row.lockedBy| - 1];
    assert row.lockedBy == [] ==> line[|line| - 1] == ',';
  }

  /** Two readings of a row that differ at most in who set the lock. */
  predicate SameLock(a: LockRow, b: LockRow) {
    a.id == b.id && a.state == b.state && a.levels == b.levels
  }

  /** Every cell set by the snapshot can be written to a file and read back. */
  ghost predicate Writable(live: seq<LockSpec>) {
    forall l :: l in live && Exported(l) ==>
      && l.id[0] != '#' && PlainField(l.id) && PlainField(StateText(l)) && PlainLine(l.lockedBy)
      && (l.level != "" ==> PlainLevel(l.level))
  }

  /** The snapshot has the row's lock on the level. */
  ghost predicate Lists(live: seq<LockSpec>, row: LockRow, level: string) {
    exists l :: l in live && Exported(l) && KeyOf(l) == LockKey(row.id, row.state, row.lockedBy) && l.level == level
  }

  lemma {:induction false} KeysMember(live: seq<LockSpec>, k: LockKey)
    ensures k in Keys(live) <==> exists l :: l in live && Exported(l) && KeyOf(l) == k
  {
    if live != [] {
      KeysMember(live[..|live| - 1], k);
      assert live == live[..|live| - 1] + [live[|live| - 1]];
    }
  }

  lemma {:induction false} LevelsMember(live: seq<LockSpec>, k: LockKey, level: string)
    ensures level in LevelsOf(live, k)
       <==> level != "" && (exists l :: l in live && Exported(l) && KeyOf(l) == k && l.level == level)
  {
    if live != [] {
      LevelsMember(live[..|live| - 1], k, level);
      assert live == live[..|live| - 1] + [live[|live| - 1]];
    }
  }

  lemma GroupedRow(live: seq<LockSpec>, row: LockRow)
    ensures var k := LockKey(row.id, row.state, row.lockedBy);
      row in Grouped(live) <==> k in Keys(live) && row == RowOf(live, k)
  {
    var keys, raw := Keys(live), RowsOf(live, Keys(live));
    SortMember(RowLess, raw, row);
    if row in raw {
      var i :| 0 <= i < |raw| && raw[i] == row;
      assert keys[i] == LockKey(row.id, row.state, row.lockedBy);
    }
    var k := LockKey(row.id, row.state, row.lockedBy);
    if k in keys && row == RowOf(live, k) {
      var i :| 0 <= i < |keys| && keys[i] == k;
      assert raw[i] == row;
    }
  }

  lemma GroupedLevel(live: seq<LockSpec>, row: LockRow, level: string)
    requires row in Grouped(live)
    ensures level in row.levels <==> level != "" && Lists(live, row, level)
  {
    GroupedRow(live, row);
    var k := LockKey(row.id, row.state, row.lockedBy);
    SortMember(IdLess, LevelsOf(live, k), level);
    LevelsMember(live, k, level);
  }

  lemma GroupedPlain(live: seq<LockSpec>, row: LockRow)
    requires Writable(live) && row in Grouped(live)
    ensures PlainLockRow(row)
  {
    GroupedRow(live, row);
    KeysMember(live, LockKey(row.id, row.state, row.lockedBy));
    var l :| l in live && Exported(l) && KeyOf(l) == LockKey(row.id, row.state, row.lockedBy);
    assert ToUpper(row.state) == row.state by { UpperTwice(Trim(l.state)); }
    forall level | level in row.levels
      ensures PlainLevel(level)
    {
      GroupedLevel(live, row, level);
    }
  }

  lemma UpperTwice(s: string)
    ensures ToUpper(ToUpper(s)) == ToUpper(s)
  {
  }

  lemma BodyReads(rows: seq<LockRow>)
    requires forall row :: row in rows ==> PlainLockRow(row)
    ensures forall l :: l in BodyLines(rows) ==> PlainLine(l)
    ensures var res := ReadRows(Reader(PrintedPlaces()), BodyLines(rows) + [""], 2);
      && (res.Ok? <==> forall i :: 0 <= i < |rows| ==> Accepted(rows[i].state) && rows[i].levels != [])
      && (res.Ok? ==> |res.value| == |rows| && forall i :: 0 <= i < |rows| ==> SameLock(res.value[i], rows[i]))
  {
    var lines := BodyLines(rows);
    forall i | 0 <= i < |rows|
      ensures PlainLine(lines[i]) && !Skipped(lines[i])
      ensures Reader(PrintedPlaces())(Fields(lines[i])).Ok? <==> Accepted(rows[i].state) && rows[i].levels != []
      ensures Reader(PrintedPlaces())(Fields(lines[i])).Ok? ==>
        SameLock(Reader(PrintedPlaces())(Fields(lines[i])).value, rows[i])
    {
      assert rows[i] in rows;
      RowReads(rows[i]);
    }
    ReadsAll(Reader(PrintedPlaces()), lines, 2);
  }

  /** An export reads back exactly when every set cell has a state of the wire's set and
      every group of them a level; the rows are then those written. */
  lemma LockFileReadableIff(side: Side, live: seq<LockSpec>)
    requires Writable(live)
    ensures var rows, res := Grouped(live), Parsed(side, Printed(side, live));
      && (res.Ok? <==> forall i :: 0 <= i < |rows| ==> Accepted(rows[i].state) && rows[i].levels != [])
      && (res.Ok? ==> |res.value| == |rows| && forall i :: 0 <= i < |rows| ==> SameLock(res.value[i], rows[i]))
  {
    var rows := Grouped(live);
    forall row | row in rows
      ensures PlainLockRow(row)
    {
      GroupedPlain(live, row);
    }
    BodyReads(rows);
    FileReads(side, rows);
  }

  lemma FileReads(side: Side, rows: seq<LockRow>)
    requires forall l :: l in BodyLines(rows) ==> PlainLine(l)
    ensures Parsed(side, Unlines(FileLines(side, rows))) == ReadRows(Reader(PrintedPlaces()), BodyLines(rows) + [""], 2)
  {
    var lines := FileLines(side, rows);
    ColumnNames(side);
    HeaderReads(Columns(side));
    LinesOfFile(lines);
    assert (lines + [""])[0] == lines[0] && (lines + [""])[1..] == BodyLines(rows) + [""];
    BelowHeader(side, lines + [""]);
  }

  lemma BelowHeader(side: Side, lines: seq<string>)
    requires lines != [] && !Skipped(lines[0]) && Header(lines[0]) == Columns(side)
    ensures ParsedLines(side, lines) == ReadRows(Reader(PrintedPlaces()), lines[1..], 2)
  {
    ColumnsLocated(side);
  }

  /** One state per cell: rows of one cell agree. */
  ghost predicate OneState(live: seq<LockSpec>) {
    forall a, b :: a in live && b in live && a.id == b.id && a.level == b.level ==> StateOf(a) == StateOf(b)
  }

  lemma {:induction false} RowState(live: seq<LockSpec>, l: LockSpec)
    requires l in live && OneState(live)
    ensures State(LocksOf(live), LockCell(l.id, l.level)) == StateOf(l)
  {
    var front, last := live[..|live| - 1], live[|live| - 1];
    assert live == front + [last];
    if !(last.id == l.id && last.level == l.level) {
      RowState(front, l);
    }
  }

  /** Every row of the export has a level, when every set cell of the snapshot has one. */
  lemma RowHasLevel(live: seq<LockSpec>, row: LockRow)
    requires row in Grouped(live) && forall l :: l in live && Exported(l) ==> Accepted(StateText(l)) && l.level != ""
    ensures Accepted(row.state) && row.levels != []
  {
    GroupedRow(live, row);
    KeysMember(live, LockKey(row.id, row.state, row.lockedBy));
    var l :| l in live && Exported(l) && KeyOf(l) == LockKey(row.id, row.state, row.lockedBy);
    assert Lists(live, row, l.level);
    GroupedLevel(live, row, l.level);
  }

  lemma WrittenIsLive(live: seq<LockSpec>, row: LockRow, k: LockCell)
    requires OneState(live) && row in Grouped(live) && Names(row, k)
    ensures State(LocksOf(live), k) == row.state
  {
    GroupedLevel(live, row, k.level);
    var l :| l in live && Exported(l) && KeyOf(l) == LockKey(row.id, row.state, row.lockedBy) && l.level == k.level;
    RowState(live, l);
  }

  lemma ExportReadable(live: seq<LockSpec>)
    requires forall l :: l in live && Exported(l) ==> Accepted(StateText(l)) && l.level != ""
    ensures forall i :: 0 <= i < |Grouped(live)| ==> Accepted(Grouped(live)[i].state) && Grouped(live)[i].levels != []
  {
    forall i | 0 <= i < |Grouped(live)|
      ensures Accepted(Grouped(live)[i].state) && Grouped(live)[i].levels != []
    {
      RowHasLevel(live, Grouped(live)[i]);
    }
  }

  /** Rows that differ from the written ones at most in who set the lock ask for what is live. */
  lemma ReadBackSettled(live: seq<LockSpec>, back: seq<LockRow>)
    requires OneState(live) && |back| == |Grouped(live)|
    requires forall i :: 0 <= i < |back| ==> SameLock(back[i], Grouped(live)[i])
    ensures LockDiff(LocksOf(live), back) == []
  {
    PlanEmptyIff(LocksOf(live), back);
    forall row, k | row in back && Names(row, k)
      ensures State(LocksOf(live), k) == row.state
    {
      var i :| 0 <= i < |back| && back[i] == row;
      WrittenIsLive(live, Grouped(live)[i], k);
    }
  }

  /** Importing an untouched lock export plans nothing. */
  lemma LockExportImportIsZero(side: Side, live: seq<LockSpec>)
    requires Writable(live) && OneState(live)
    requires forall l :: l in live && Exported(l) ==> Accepted(StateText(l)) && l.level != ""
    ensures Parsed(side, Printed(side, live)).Ok?
    ensures LockDiff(LocksOf(live), Parsed(side, Printed(side, live)).value) == []
  {
    LockFileReadableIff(side, live);
    ExportReadable(live);
    ReadBackSettled(live, Parsed(side, Printed(side, live)).value);
  }
}
