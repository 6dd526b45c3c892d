/** The crosspoint file in plain terms: its letters as printed, and what each line says to the
    parser. */
module XpointReading {
  import opened Wrappers
  import opened Text
  import opened Csv
  import opened Xpoint
  import opened XpointFile

  // ---- printing ----

  lemma HeadingText()
    ensures Join(Names(false), ',') == "dest,srce,levels" && Join(Names(true), ',') == "dest,srce,levels,srce_level"
  {
    JoinThree("dest", "srce", "levels", ',');
    HeadingLetters("dest" + [','] + "srce" + [','] + "levels");
    JoinMore(Names(false), ',', "srce_level");
    assert Names(true) == Names(false) + ["srce_level"];
    assert "dest,srce,levels" + [','] + "srce_level" == "dest,srce,levels,srce_level";
  }

  lemma HeadingLetters(s: string)
    requires s == "dest" + [','] + "srce" + [','] + "levels"
    ensures s == "dest,srce,levels"
  {
    assert "dest" + [','] == "dest,";
    assert "dest," + "srce" == "dest,srce" && "dest,srce" + [','] == "dest,srce,";
  }

  function RowText(cross: bool, row: XpointRow): string {
    row.dest + "," + row.srce + "," + Join(row.levels, ';') + if cross then "," + row.srceLevel else ""
  }

  function RowTexts(cross: bool, rows: seq<XpointRow>): string {
    if rows == [] then "" else RowText(cross, rows[0]) + "\n" + RowTexts(cross, rows[1..])
  }

  lemma RowTextJoins(cross: bool, row: XpointRow)
    ensures Join(RowFields(cross, row), ',') == RowText(cross, row)
  {
    JoinThree(row.dest, row.srce, Join(row.levels, ';'), ',');
    if cross {
      JoinMore(RowFields(false, row), ',', row.srceLevel);
    }
  }

  lemma {:induction false} LinesText(cross: bool, rows: seq<XpointRow>)
    ensures Unlines(seq(|rows|, i requires 0 <= i < |rows| => Join(RowFields(cross, rows[i]), ',')))
         == RowTexts(cross, rows)
  {
    var lines := seq(|rows|, i requires 0 <= i < |rows| => Join(RowFields(cross, rows[i]), ','));
    if rows != [] {
      var tail := rows[1..];
      LinesText(cross, tail);
      RowTextJoins(cross, rows[0]);
      assert lines == [lines[0]] + seq(|tail|, i requires 0 <= i < |tail| => Join(RowFields(cross, tail[i]), ','));
      UnlinesTail(lines[0], lines[1..]);
    }
  }

  /** The printed file, letter by letter. */
  lemma PrintedPlain(rows: seq<XpointRow>)
    ensures (forall row :: row in rows ==> row.srceLevel == "") ==>
      Printed(rows) == "dest,srce,levels" + "\n" + RowTexts(false, rows)
    ensures (exists row :: row in rows && row.srceLevel != "") ==>
      Printed(rows) == "dest,srce,levels,srce_level" + "\n" + RowTexts(true, rows)
  {
    var cross := CrossLevel(rows);
    HeadingText();
    LinesText(cross, rows);
    UnlinesTail(Join(Names(cross), ','),
                seq(|rows|, i requires 0 <= i < |rows| => Join(RowFields(cross, rows[i]), ',')));
  }

  /** What a data line says under a header line. */
  ghost predicate Says(header: string, line: string, row: XpointRow) {
    var f := Split(Trim(line), ',');
    && |f| >= |Split(ToLower(Trim(header)), ',')|
    && (forall i: nat :: StandsAt(header, "dest", i) ==> i < |f| && row.dest == Trim(f[i]) != "")
    && (forall i: nat :: StandsAt(header, "srce", i) ==> i < |f| && row.srce == Trim(f[i]) != "")
    && (forall i: nat :: LevelColumn(header, i) ==> i < |f| && row.levels == LevelCell(f[i]) != [])
    && (forall i: nat :: StandsAt(header, "srce_level", i) ==> i < |f| && row.srceLevel == Trim(f[i]))
    && (HasColumn(header, "srce_level") || row.srceLevel == "")
  }

  /** Where the levels stand: under "levels", or under "level" when there is no such column. */
  ghost predicate LevelColumn(header: string, i: nat) {
    if HasColumn(header, "levels") then StandsAt(header, "levels", i) else StandsAt(header, "level", i)
  }

  /** Why a data line is refused. */
  ghost predicate Fails(header: string, line: string, e: XpointError) {
    var f := Split(Trim(line), ',');
    if |f| < |Split(ToLower(Trim(header)), ',')| then e == ShortRow
    else
      && e == MissingField
      && exists i: nat ::
           && i < |f|
           && ((Trim(f[i]) == "" && (StandsAt(header, "dest", i) || StandsAt(header, "srce", i)))
               || (LevelCell(f[i]) == [] && LevelColumn(header, i)))
  }

  lemma LocatePlain(header: string)
    ensures match Locate(Header(header))
      case Err(e) =>
        && (!HasColumn(header, "dest") ==> e == MissingColumn("dest"))
        && (HasColumn(header, "dest") && !HasColumn(header, "srce") ==> e == MissingColumn("srce"))
        && (HasColumn(header, "dest") && HasColumn(header, "srce") ==>
              e == MissingColumn("levels") && !HasColumn(header, "levels") && !HasColumn(header, "level"))
      case Ok(at) =>
        && StandsAt(header, "dest", at.dest) && StandsAt(header, "srce", at.srce) && LevelColumn(header, at.levels)
        && match at.srceLevel
           case None => !HasColumn(header, "srce_level")
           case Some(x) => StandsAt(header, "srce_level", x)
  {
    HeaderPlain(header, "dest");
    HeaderPlain(header, "srce");
    HeaderPlain(header, "levels");
    HeaderPlain(header, "level");
    HeaderPlain(header, "srce_level");
  }

  /** Where the columns stand, and that they stand nowhere else. */
  ghost predicate Placed(header: string, at: Columns) {
    && (forall j: nat :: StandsAt(header, "dest", j) <==> j == at.dest)
    && (forall j: nat :: StandsAt(header, "srce", j) <==> j == at.srce)
    && (forall j: nat :: LevelColumn(header, j) <==> j == at.levels)
    && forall j: nat :: StandsAt(header, "srce_level", j) <==> at.srceLevel == Some(j)
  }

  lemma PlacesPlain(header: string, at: Columns)
    requires Locate(Header(header)) == Ok(at)
    ensures Placed(header, at)
  {
    LocatePlain(header);
    StandsOnce(header, "dest", at.dest);
    StandsOnce(header, "srce", at.srce);
    StandsOnce(header, if HasColumn(header, "levels") then "levels" else "level", at.levels);
    if at.srceLevel.Some? {
      StandsOnce(header, "srce_level", at.srceLevel.value);
    }
  }

  lemma RowSays(header: string, at: Columns, line: string)
    requires Placed(header, at) && at.Within(|Header(header)|)
    requires ReadRow(at, |Header(header)|, Split(Trim(line), ',')).Ok?
    ensures Says(header, line, ReadRow(at, |Header(header)|, Split(Trim(line), ',')).value)
  {
    FieldsRead(at, |Header(header)|, Split(Trim(line), ','));
    assert at.srceLevel.Some? ==> StandsAt(header, "srce_level", at.srceLevel.value);
    assert HasColumn(header, "srce_level") ==> at.srceLevel.Some?;
  }

  /** A row that is read has its fields where the columns stand. */
  lemma FieldsRead(at: Columns, width: nat, f: seq<string>)
    requires at.Within(width) && ReadRow(at, width, f).Ok?
    ensures var row := ReadRow(at, width, f).value;
      && |f| >= width && row.dest == Trim(f[at.dest]) != "" && row.srce == Trim(f[at.srce]) != ""
      && row.levels == LevelCell(f[at.levels]) != []
      && row.srceLevel == match at.srceLevel case Some(i) => Trim(f[i]) case None => ""
  {
  }

  lemma RowFails(header: string, at: Columns, line: string)
    requires Placed(header, at) && at.Within(|Header(header)|)
    requires ReadRow(at, |Header(header)|, Split(Trim(line), ',')).Err?
    ensures Fails(header, line, ReadRow(at, |Header(header)|, Split(Trim(line), ',')).error)
  {
    assert StandsAt(header, "dest", at.dest) && StandsAt(header, "srce", at.srce) && LevelColumn(header, at.levels);
  }

  ghost function Saying(header: string): (string, XpointRow) -> bool {
    (line, row) => Says(header, line, row)
  }

  ghost function Failing(header: string): (string, XpointError) -> bool {
    (line, e) => Fails(header, line, e)
  }

  /** The first needed column that the header lacks. */
  ghost predicate Lacking(header: string, name: string) {
    if !HasColumn(header, "dest") then name == "dest"
    else if !HasColumn(header, "srce") then name == "srce"
    else name == "levels" && !HasColumn(header, "levels") && !HasColumn(header, "level")
  }

  ghost predicate Headed(header: string) {
    && HasColumn(header, "dest") && HasColumn(header, "srce")
    && (HasColumn(header, "levels") || HasColumn(header, "level"))
  }

  /** Below a header every data line says one row, in order, or the first one that does not is
      named by its number. */
  ghost predicate BodyMeans(header: string, says: (string, XpointRow) -> bool, fails: (string, XpointError) -> bool,
                            body: seq<string>, first: nat, res: Result<seq<XpointRow>, At<XpointError>>)
  {
    match res
    case Ok(rows) => Headed(header) && EachSays(says, body, rows)
    case Err(e) =>
      if e.error.MissingColumn? then e.line == 0 && Lacking(header, e.error.name)
      else first <= e.line && FirstFails(says, fails, body, e.line - first, e.error)
  }

  /** The first data line of the file is its header; lines are counted from 1. */
  ghost predicate Meant(lines: seq<string>, h: nat, res: Result<seq<XpointRow>, At<XpointError>>) {
    if h >= |lines| then (forall l :: l in lines ==> !Data(l)) && res == Err(At(0, NoHeader))
    else
      && HeaderLine(lines, h)
      && BodyMeans(lines[h], Saying(lines[h]), Failing(lines[h]), lines[h + 1..], h + 2, res)
  }

  lemma FaithfulReader(header: string, at: Columns)
    requires Locate(Header(header)) == Ok(at)
    ensures forall line ::
      ReadsFaithfully(Reader(at, |Header(header)|), Saying(header), Failing(header), line)
  {
    PlacesPlain(header, at);
    forall line
      ensures ReadsFaithfully(Reader(at, |Header(header)|), Saying(header), Failing(header), line)
    {
      if ReadRow(at, |Header(header)|, Split(Trim(line), ',')).Ok? {
        RowSays(header, at, line);
      } else {
        RowFails(header, at, line);
      }
    }
  }

  lemma ReasonsApart(header: string)
    ensures forall line, e :: Failing(header)(line, e) ==> !e.MissingColumn?
  {
  }

  lemma HeadPlain(header: string)
    ensures match Locate(Header(header))
      case Ok(_) => Headed(header)
      case Err(e) => e.MissingColumn? && Lacking(header, e.name)
  {
    LocatePlain(header);
  }

  lemma BodyMeant(header: string, read: seq<string> -> Result<XpointRow, XpointError>,
                  says: (string, XpointRow) -> bool, fails: (string, XpointError) -> bool,
                  body: seq<string>, first: nat)
    requires Headed(header) && forall line :: ReadsFaithfully(read, says, fails, line)
    requires forall line, e :: fails(line, e) ==> !e.MissingColumn?
    ensures BodyMeans(header, says, fails, body, first, ReadRows(read, body, first))
  {
    BodyPlain(read, says, fails, body, first);
  }

  lemma HeadedMeant(header: string, body: seq<string>, first: nat)
    ensures BodyMeans(header, Saying(header), Failing(header), body, first, ParsedBody(Header(header), body, first))
  {
    HeadPlain(header);
    if Locate(Header(header)).Ok? {
      var at := Locate(Header(header)).value;
      FaithfulReader(header, at);
      ReasonsApart(header);
      BodyMeant(header, Reader(at, |Header(header)|), Saying(header), Failing(header), body, first);
    }
  }

  /** What the parser makes of any text. */
  lemma ParsedPlain(data: string)
    ensures exists h: nat :: Meant(Lines(data), h, Parsed(data))
  {
    var lines := Lines(data);
    var h := HeaderAt(lines);
    HeaderAtPlain(lines);
    if h < |lines| {
      HeadedMeant(lines[h], lines[h + 1..], h + 2);
    }
    assert Meant(lines, h, Parsed(data));
  }
}
