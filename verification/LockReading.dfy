/** The lock file in plain terms: its letters as printed, and what each line says to the
    parser. */
module LockReading {
  import opened Wrappers
  import opened Text
  import opened Ids
  import opened Sorting
  import opened Sequences
  import opened Csv
  import opened Locks
  import opened LockFile

  // ---- printing ----

  /** The heading of the file's ID column. */
  function IdColumn(side: Side): string {
    if side == Source then "srce" else "dest"
  }

  lemma HeadingLetters(id: string, s: string)
    requires |id| == 4 && s == id + [','] + "state" + [','] + "levels"
    ensures s + [','] + "locked_by" == id + ",state,levels,locked_by"
  {
    assert s == id + ([','] + "state" + [','] + "levels");
    assert [','] + "state" + [','] == ",state,";
    assert [','] + "state" + [','] + "levels" == ",state,levels";
    assert ",state,levels" + [','] + "locked_by" == ",state,levels,locked_by";
  }

  lemma HeadingText(side: Side)
    ensures Join(Columns(side), ',') == IdColumn(side) + ",state,levels,locked_by"
  {
    JoinThree(side.Column(), "state", "levels", ',');
    JoinMore([side.Column(), "state", "levels"], ',', "locked_by");
    assert Columns(side) == [side.Column(), "state", "levels"] + ["locked_by"];
    HeadingLetters(IdColumn(side), Join([side.Column(), "state", "levels"], ','));
  }

  function RowTexts(rows: seq<LockRow>): string {
    if rows == [] then ""
    else
      var row := rows[0];
      row.id + "," + row.state + "," + Join(row.levels, ';') + "," + row.lockedBy + "\n" + RowTexts(rows[1..])
  }

  lemma {:induction false} LinesText(rows: seq<LockRow>)
    ensures Unlines(BodyLines(rows)) == RowTexts(rows)
  {
    if rows == [] {
      assert BodyLines(rows) == [];
    } else {
      var row := rows[0];
      LinesText(rows[1..]);
      LedFlat(row.id, row.state, Join(row.levels, ';'), row.lockedBy);
      assert BodyLines(rows) == [Line(row)] + BodyLines(rows[1..]);
      UnlinesTail(Line(row), BodyLines(rows[1..]));
    }
  }

  /** The printed file, letter by letter. */
  lemma PrintedPlain(side: Side, live: seq<LockSpec>)
    ensures Printed(side, live) == IdColumn(side) + ",state,levels,locked_by" + "\n" + RowTexts(Grouped(live))
  {
    HeadingText(side);
    LinesText(Grouped(live));
    UnlinesTail(Join(Columns(side), ','), BodyLines(Grouped(live)));
  }

  /** The snapshot has a lock of this ID, state and owner; its state is read in capitals. */
  ghost predicate Locked(live: seq<LockSpec>, l: LockSpec, id: string, state: string, lockedBy: string) {
    l in live && l.id == id && ToUpper(Trim(l.state)) == state && l.lockedBy == lockedBy
  }

  /** One row for every ID, state and owner of a set lock, with its levels once each. */
  lemma RowsPlain(live: seq<LockSpec>, row: LockRow)
    ensures row in Grouped(live) ==>
      && row.id != "" && row.state != "" && row.state != "RELEASED"
      && (exists l :: Locked(live, l, row.id, row.state, row.lockedBy))
      && forall level :: level in row.levels <==>
           level != "" && exists l :: Locked(live, l, row.id, row.state, row.lockedBy) && l.level == level
    ensures forall l :: l in live && l.id != "" && ToUpper(Trim(l.state)) !in {"", "RELEASED"} ==>
      exists r :: r in Grouped(live) && r.id == l.id && r.state == ToUpper(Trim(l.state)) && r.lockedBy == l.lockedBy
  {
    if row in Grouped(live) {
      GroupedRow(live, row);
      KeysMember(live, LockKey(row.id, row.state, row.lockedBy));
      forall level
        ensures level in row.levels <==>
          level != "" && exists l :: Locked(live, l, row.id, row.state, row.lockedBy) && l.level == level
      {
        GroupedLevel(live, row, level);
        if l :| Locked(live, l, row.id, row.state, row.lockedBy) && l.level == level {
          assert Exported(l) && KeyOf(l) == LockKey(row.id, row.state, row.lockedBy);
        }
        if l :| l in live && Exported(l) && KeyOf(l) == LockKey(row.id, row.state, row.lockedBy) && l.level == level {
          assert Locked(live, l, row.id, row.state, row.lockedBy);
        }
      }
      var l :| l in live && Exported(l) && KeyOf(l) == LockKey(row.id, row.state, row.lockedBy);
      assert Locked(live, l, row.id, row.state, row.lockedBy);
    }
    forall l | l in live && l.id != "" && ToUpper(Trim(l.state)) !in {"", "RELEASED"}
      ensures exists r ::
        r in Grouped(live) && r.id == l.id && r.state == ToUpper(Trim(l.state)) && r.lockedBy == l.lockedBy
    {
      var k := LockKey(l.id, ToUpper(Trim(l.state)), l.lockedBy);
      assert Exported(l) && KeyOf(l) == k;
      KeysMember(live, k);
      GroupedRow(live, RowOf(live, k));
    }
  }

  function IsSet(): LockSpec -> bool {
    (l: LockSpec) => l.id != "" && ToUpper(Trim(l.state)) != "" && ToUpper(Trim(l.state)) != "RELEASED"
  }

  function Keying(): LockSpec -> LockKey {
    (l: LockSpec) => LockKey(l.id, ToUpper(Trim(l.state)), l.lockedBy)
  }

  /** The rows are made, before they are sorted, in the order in which the locks first have
      their ID, state and owner. */
  lemma {:induction false} KeysPlain(live: seq<LockSpec>)
    ensures Keys(live) == Firsts(Mapped(Keying(), Filter(IsSet(), live)))
  {
    if live != [] {
      var front, last := live[..|live| - 1], live[|live| - 1];
      KeysPlain(front);
      assert live == front + [last];
      FilterLast(IsSet(), front, last);
      MappedLast(Keying(), Filter(IsSet(), front), last);
      FirstsLast(Mapped(Keying(), Filter(IsSet(), front)), KeyOf(last));
    }
  }

  // ---- parsing ----

  ghost predicate WireState(state: string) {
    state in {"LOCKED", "PROTECTED", "LOCKED_PATH", "PROTECTED_PATH", "RELEASED"}
  }

  /** What a data line says under a header line. */
  ghost predicate Says(side: Side, header: string, line: string, row: LockRow) {
    var f := Split(Trim(line), ',');
    && |f| >= 3
    && (forall i: nat :: StandsAt(header, IdColumn(side), i) ==> i < |f| && row.id == Trim(f[i]) != "")
    && (forall i: nat :: StandsAt(header, "state", i) ==>
          i < |f| && row.state == ToUpper(Trim(f[i])) && WireState(row.state))
    && (forall i: nat :: StandsAt(header, "levels", i) ==> i < |f| && row.levels == LevelCell(f[i]) != [])
    && (forall i: nat :: StandsAt(header, "locked_by", i) ==> row.lockedBy == if i < |f| then Trim(f[i]) else "")
    && (HasColumn(header, "locked_by") || row.lockedBy == "")
  }

  /** Why a data line is refused, or why the parser breaks on it. */
  ghost predicate Fails(side: Side, header: string, line: string, e: LockError) {
    var f := Split(Trim(line), ',');
    if |f| < 3 then e == ShortRow
    else if exists i: nat :: i >= |f| && Needed(side, header, i) then e == OutOfRange
    else if exists i: nat :: i < |f| && StandsAt(header, IdColumn(side), i) && Trim(f[i]) == "" then e == EmptyId
    else if exists i: nat :: i < |f| && StandsAt(header, "state", i) && !WireState(ToUpper(Trim(f[i]))) then
      e == BadState
    else e == EmptyLevels && exists i: nat :: i < |f| && StandsAt(header, "levels", i) && LevelCell(f[i]) == []
  }

  ghost predicate Needed(side: Side, header: string, i: nat) {
    StandsAt(header, IdColumn(side), i) || StandsAt(header, "state", i) || StandsAt(header, "levels", i)
  }

  lemma LocatePlain(side: Side, header: string)
    ensures match Locate(side, Header(header))
      case Err(e) => e.MissingColumn? && Lacking(side, header, e.name)
      case Ok(at) =>
        && StandsAt(header, IdColumn(side), at.id) && StandsAt(header, "state", at.state)
        && StandsAt(header, "levels", at.levels)
        && if at.lockedBy.Some? then StandsAt(header, "locked_by", at.lockedBy.value)
           else !HasColumn(header, "locked_by")
  {
    HeaderPlain(header, IdColumn(side));
    HeaderPlain(header, "state");
    HeaderPlain(header, "levels");
    HeaderPlain(header, "locked_by");
  }

  /** The first needed column that the header lacks. */
  ghost predicate Lacking(side: Side, header: string, name: string) {
    if !HasColumn(header, IdColumn(side)) then name == IdColumn(side)
    else if !HasColumn(header, "state") then name == "state"
    else name == "levels" && !HasColumn(header, "levels")
  }

  ghost predicate Headed(side: Side, header: string) {
    HasColumn(header, IdColumn(side)) && HasColumn(header, "state") && HasColumn(header, "levels")
  }

  /** Where the columns stand, and that they stand nowhere else. */
  ghost predicate Placed(side: Side, header: string, at: Places) {
    && (forall j: nat :: StandsAt(header, IdColumn(side), j) <==> j == at.id)
    && (forall j: nat :: StandsAt(header, "state", j) <==> j == at.state)
    && (forall j: nat :: StandsAt(header, "levels", j) <==> j == at.levels)
    && forall j: nat :: StandsAt(header, "locked_by", j) <==> at.lockedBy == Some(j)
  }

  lemma PlacesPlain(side: Side, header: string, at: Places)
    requires Locate(side, Header(header)) == Ok(at)
    ensures Placed(side, header, at)
  {
    LocatePlain(side, header);
    StandsOnce(header, IdColumn(side), at.id);
    StandsOnce(header, "state", at.state);
    StandsOnce(header, "levels", at.levels);
    if at.lockedBy.Some? {
      StandsOnce(header, "locked_by", at.lockedBy.value);
    }
  }

  lemma RowSays(side: Side, header: string, at: Places, line: string)
    requires Placed(side, header, at) && ReadRow(at, Split(Trim(line), ',')).Ok?
    ensures Says(side, header, line, ReadRow(at, Split(Trim(line), ',')).value)
  {
    var f := Split(Trim(line), ',');
    var row := ReadRow(at, f).value;
    FieldsRead(at, f);
    assert at.lockedBy.Some? ==> StandsAt(header, "locked_by", at.lockedBy.value);
    assert HasColumn(header, "locked_by") ==> at.lockedBy.Some?;
  }

  /** A row that is read has its fields where the columns stand. */
  lemma FieldsRead(at: Places, f: seq<string>)
    requires ReadRow(at, f).Ok?
    ensures var row := ReadRow(at, f).value;
      && |f| >= 3 && at.id < |f| && at.state < |f| && at.levels < |f|
      && row.id == Trim(f[at.id]) != "" && row.state == ToUpper(Trim(f[at.state])) && WireState(row.state)
      && row.levels == LevelCell(f[at.levels]) != []
      && row.lockedBy == match at.lockedBy case Some(i) => if i < |f| then Trim(f[i]) else "" case None => ""
  {
  }

  lemma RowFails(side: Side, header: string, at: Places, line: string)
    requires Placed(side, header, at) && ReadRow(at, Split(Trim(line), ',')).Err?
    ensures Fails(side, header, line, ReadRow(at, Split(Trim(line), ',')).error)
  {
    WhyRefused(at, Split(Trim(line), ','));
    assert Needed(side, header, at.id) && Needed(side, header, at.state) && Needed(side, header, at.levels);
    assert forall i: nat :: Needed(side, header, i) ==> i == at.id || i == at.state || i == at.levels;
  }

  /** The rules in the order in which they are tried. */
  lemma WhyRefused(at: Places, f: seq<string>)
    requires ReadRow(at, f).Err?
    ensures var e := ReadRow(at, f).error;
      if |f| < 3 then e == ShortRow
      else if at.id >= |f| || at.state >= |f| || at.levels >= |f| then e == OutOfRange
      else if Trim(f[at.id]) == "" then e == EmptyId
      else if !WireState(ToUpper(Trim(f[at.state]))) then e == BadState
      else e == EmptyLevels && LevelCell(f[at.levels]) == []
  {
  }

  ghost function Saying(side: Side, header: string): (string, LockRow) -> bool {
    (line, row) => Says(side, header, line, row)
  }

  ghost function Failing(side: Side, header: string): (string, LockError) -> bool {
    (line, e) => Fails(side, header, line, e)
  }

  /** Below a header every data line says one row, in order, or the first one that does not is
      named by its number. */
  ghost predicate BodyMeans(side: Side, header: string, says: (string, LockRow) -> bool,
                            fails: (string, LockError) -> bool, body: seq<string>, first: nat,
                            res: Result<seq<LockRow>, At<LockError>>)
  {
    match res
    case Ok(rows) =>
      && Headed(side, header)
      && EachSays(says, body, rows)
    case Err(e) =>
      if e.error.MissingColumn? then e.line == 0 && Lacking(side, header, e.error.name)
      else first <= e.line && FirstFails(says, fails, body, e.line - first, e.error)
  }

  /** The first data line of the file is its header; lines are counted from 1. */
  ghost predicate Meant(side: Side, lines: seq<string>, h: nat, res: Result<seq<LockRow>, At<LockError>>) {
    if h >= |lines| then (forall l :: l in lines ==> !Data(l)) && res == Err(At(0, NoHeader))
    else
      && HeaderLine(lines, h)
      && BodyMeans(side, lines[h], Saying(side, lines[h]), Failing(side, lines[h]), lines[h + 1..], h + 2, res)
  }

  lemma FaithfulReader(side: Side, header: string, at: Places)
    requires Locate(side, Header(header)) == Ok(at)
    ensures forall line :: ReadsFaithfully(Reader(at), Saying(side, header), Failing(side, header), line)
  {
    PlacesPlain(side, header, at);
    forall line
      ensures ReadsFaithfully(Reader(at), Saying(side, header), Failing(side, header), line)
    {
      if ReadRow(at, Split(Trim(line), ',')).Ok? {
        RowSays(side, header, at, line);
      } else {
        RowFails(side, header, at, line);
      }
    }
  }

  lemma ReasonsApart(side: Side, header: string)
    ensures forall line, e :: Failing(side, header)(line, e) ==> !e.MissingColumn? && !e.NoHeader?
  {
  }

  lemma HeadPlain(side: Side, header: string)
    ensures match Locate(side, Header(header))
      case Ok(_) => Headed(side, header)
      case Err(e) => e.MissingColumn? && Lacking(side, header, e.name)
  {
    LocatePlain(side, header);
  }

  lemma BodyMeant(side: Side, header: string, read: seq<string> -> Result<LockRow, LockError>,
                  says: (string, LockRow) -> bool, fails: (string, LockError) -> bool, body: seq<string>, first: nat)
    requires Headed(side, header) && forall line :: ReadsFaithfully(read, says, fails, line)
    requires forall line, e :: fails(line, e) ==> !e.MissingColumn?
    ensures BodyMeans(side, header, says, fails, body, first, ReadRows(read, body, first))
  {
    BodyPlain(read, says, fails, body, first);
  }

  lemma HeadedMeant(side: Side, header: string, body: seq<string>, first: nat)
    ensures BodyMeans(side, header, Saying(side, header), Failing(side, header), body, first,
                      ParsedBody(side, Header(header), body, first))
  {
    HeadPlain(side, header);
    if Locate(side, Header(header)).Ok? {
      var at := Locate(side, Header(header)).value;
      FaithfulReader(side, header, at);
      ReasonsApart(side, header);
      BodyMeant(side, header, Reader(at), Saying(side, header), Failing(side, header), body, first);
    }
  }

  /** What the parser makes of any text. */
  lemma ParsedPlain(side: Side, data: string)
    ensures exists h: nat :: Meant(side, Lines(data), h, Parsed(side, data))
  {
    var lines := Lines(data);
    var h := HeaderAt(lines);
    HeaderAtPlain(lines);
    if h < |lines| {
      HeadedMeant(side, lines[h], lines[h + 1..], h + 2);
    }
    assert Meant(side, lines, h, Parsed(side, data));
  }
}
