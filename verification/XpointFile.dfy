/** The crosspoint file: the rows of a collapse printed, parsed and planned again. */
module XpointFile {
  import opened Wrappers
  import opened Text
  import opened Csv
  import opened Routes
  import opened Xpoint

  datatype XpointError = NoHeader | MissingColumn(name: string) | ShortRow | MissingField | NoCrosspoints

  // ---- the file ----

  predicate CrossLevel(rows: seq<XpointRow>) {
    exists i :: 0 <= i < |rows| && rows[i].srceLevel != ""
  }

  function Names(cross: bool): seq<string> {
    if cross then ["dest", "srce", "levels", "srce_level"] else ["dest", "srce", "levels"]
  }

  function RowFields(cross: bool, row: XpointRow): seq<string> {
    var fields := [row.dest, row.srce, Join(row.levels, ';')];
    if cross then fields + [row.srceLevel] else fields
  }

  function FileLines(cross: bool, rows: seq<XpointRow>): seq<string> {
    [Join(Names(cross), ',')] + seq(|rows|, i requires 0 <= i < |rows| => Join(RowFields(cross, rows[i]), ','))
  }

  /** The file of the rows; the srce_level column stands there only when a route needs it. */
  function Printed(rows: seq<XpointRow>): string {
    Unlines(FileLines(CrossLevel(rows), rows))
  }

  method WriteHeader() returns (line: string)
    ensures line == Join(Names(false), ',') && line + ",srce_level" == Join(Names(true), ',')
  {
    line := "dest" + "," + "srce" + "," + "levels";
    JoinThree("dest", "srce", "levels", ',');
    JoinMore(Names(false), ',', "srce_level");
    assert Names(true) == Names(false) + ["srce_level"];
  }

  method WriteRow(cross: bool, r: XpointRow) returns (line: string)
    ensures line == Join(RowFields(cross, r), ',')
  {
    line := r.dest + "," + r.srce + "," + Join(r.levels, ';');
    JoinThree(r.dest, r.srce, Join(r.levels, ';'), ',');
    if cross {
      JoinMore(RowFields(false, r), ',', r.srceLevel);
      line := line + "," + r.srceLevel;
    }
  }

  method FormatXpoint(rows: seq<XpointRow>) returns (b: string)
    ensures b == Printed(rows)
  {
    var cross := false;
    for i := 0 to |rows|
      invariant cross <==> CrossLevel(rows[..i])
    {
      cross := cross || rows[i].srceLevel != "";
    }
    assert rows[..|rows|] == rows;
    b := WriteHeader();
    if cross {
      b := b + ",srce_level";
    }
    b := b + "\n";
    OneLine(Join(Names(cross), ','));
    assert FileLines(cross, rows[..0]) == [Join(Names(cross), ',')];
    for i := 0 to |rows|
      invariant b == Unlines(FileLines(cross, rows[..i]))
    {
      var line := WriteRow(cross, rows[i]);
      LinesGrow(cross, rows, i);
      b := b + line + "\n";
    }
  }

  lemma LinesGrow(cross: bool, rows: seq<XpointRow>, i: nat)
    requires i < |rows|
    ensures Unlines(FileLines(cross, rows[..i + 1]))
         == Unlines(FileLines(cross, rows[..i])) + Join(RowFields(cross, rows[i]), ',') + ['\n']
  {
    var line := Join(RowFields(cross, rows[i]), ',');
    assert FileLines(cross, rows[..i + 1]) == FileLines(cross, rows[..i]) + [line];
    UnlinesAdd(FileLines(cross, rows[..i]), line);
  }

  /** Where the columns stand. */
  datatype Columns = Columns(dest: nat, srce: nat, levels: nat, srceLevel: Option<nat>)
  {
    predicate Within(width: nat) {
      dest < width && srce < width && levels < width && (srceLevel.Some? ==> srceLevel.value < width)
    }
  }

  /** The needed columns of a header; a "levels" column is taken before a "level" one. */
  function Locate(header: seq<string>): (res: Result<Columns, XpointError>)
    ensures res.Ok? ==> res.value.Within(|header|)
  {
    var idx := Index(header);
    if "dest" !in idx then Err(MissingColumn("dest"))
    else if "srce" !in idx then Err(MissingColumn("srce"))
    else if "levels" !in idx && "level" !in idx then Err(MissingColumn("levels"))
    else Ok(Columns(idx["dest"], idx["srce"], if "levels" in idx then idx["levels"] else idx["level"],
                    if "srce_level" in idx then Some(idx["srce_level"]) else None))
  }

  function ReadRow(at: Columns, width: nat, f: seq<string>): Result<XpointRow, XpointError>
    requires at.Within(width)
  {
    if |f| < width then Err(ShortRow)
    else
      var dest, srce, levels := Trim(f[at.dest]), Trim(f[at.srce]), LevelCell(f[at.levels]);
      if dest == "" || srce == "" || levels == [] then Err(MissingField)
      else Ok(XpointRow(dest, srce, levels, if at.srceLevel.Some? then Trim(f[at.srceLevel.value]) else ""))
  }

  function Reader(at: Columns, width: nat): seq<string> -> Result<XpointRow, XpointError>
    requires at.Within(width)
  {
    f => ReadRow(at, width, f)
  }

  function ParsedBody(header: seq<string>, body: seq<string>, first: nat): Result<seq<XpointRow>, At<XpointError>> {
    match Locate(header)
    case Err(e) => Err(At(0, e))
    case Ok(at) => ReadRows(Reader(at, |header|), body, first)
  }

  function ParsedLines(lines: seq<string>): Result<seq<XpointRow>, At<XpointError>> {
    var start := HeaderAt(lines);
    if start >= |lines| then Err(At(0, NoHeader)) else ParsedBody(Header(lines[start]), lines[start + 1..], start + 2)
  }

  function Parsed(data: string): Result<seq<XpointRow>, At<XpointError>> {
    ParsedLines(Lines(data))
  }

  method LocateColumns(header: seq<string>) returns (res: Result<Columns, XpointError>)
    ensures res == Locate(header)
  {
    var idx := IndexColumns(header);
    if "dest" !in idx {
      return Err(MissingColumn("dest"));
    }
    if "srce" !in idx {
      return Err(MissingColumn("srce"));
    }
    var levels: nat;
    if "levels" in idx {
      levels := idx["levels"];
    } else if "level" in idx {
      levels := idx["level"];
    } else {
      return Err(MissingColumn("levels"));
    }
    res := Ok(Columns(idx["dest"], idx["srce"], levels, if "srce_level" in idx then Some(idx["srce_level"]) else None));
  }

  method ParseBody(header: seq<string>, body: seq<string>, first: nat)
    returns (res: Result<seq<XpointRow>, At<XpointError>>)
    ensures res == ParsedBody(header, body, first)
  {
    var located := LocateColumns(header);
    if located.Err? {
      return Err(At(0, located.error));
    }
    res := ReadLines(Reader(located.value, |header|), body, first);
  }

  method ParseLines(lines: seq<string>) returns (res: Result<seq<XpointRow>, At<XpointError>>)
    ensures res == ParsedLines(lines)
  {
    var start := FindHeader(lines);
    if start >= |lines| {
      return Err(At(0, NoHeader));
    }
    var header, body := Header(lines[start]), lines[start + 1..];
    assert ParsedLines(lines) == ParsedBody(header, body, start + 2);
    res := ParseBody(header, body, start + 2);
  }

  method ParseXpoint(data: string) returns (res: Result<seq<XpointRow>, At<XpointError>>)
    ensures res == Parsed(data)
  {
    res := ParseLines(Lines(data));
  }

  /** What the import takes from a file: its routes; a file without any is refused. */
  function Loaded(data: string): Result<seq<RouteSpec>, At<XpointError>> {
    match Parsed(data)
    case Err(e) => Err(e)
    case Ok(rows) => if rows == [] then Err(At(0, NoCrosspoints)) else Ok(Expanded(rows))
  }

  method LoadXpoint(data: string) returns (res: Result<seq<RouteSpec>, At<XpointError>>)
    ensures res == Loaded(data)
  {
    var parsed := ParseXpoint(data);
    if parsed.Err? {
      return Err(parsed.error);
    }
    if |parsed.value| == 0 {
      return Err(At(0, NoCrosspoints));
    }
    var routes := ExpandRows(parsed.value);
    return Ok(routes);
  }

  // ---- the round trip ----

  predicate PlainXpointRow(row: XpointRow) {
    && row.dest != "" && row.dest[0] != '#' && PlainField(row.dest)
    && row.srce != "" && PlainField(row.srce)
    && row.levels != [] && (forall l :: l in row.levels ==> PlainLevel(l))
    && PlainField(row.srceLevel)
  }

  function PrintedColumns(cross: bool): Columns {
    Columns(0, 1, 2, if cross then Some(3) else None)
  }

  lemma NamesPlain(cross: bool)
    ensures PlainNames(Names(cross)) && forall n :: n in Names(cross) ==> Trimmed(n)
  {
    forall n | n in Names(cross)
      ensures PlainName(n) && Trimmed(n)
    {
    }
  }

  lemma NamesApart(cross: bool)
    ensures forall i, j :: 0 <= i < j < |Names(cross)| ==> Names(cross)[i] != Names(cross)[j]
    ensures !cross ==> "srce_level" !in Names(cross)
  {
    assert "dest"[0] == 'd' && "srce"[0] == 's';
    assert |"dest"| == 4 && |"srce"| == 4 && |"levels"| == 6 && |"srce_level"| == 10;
  }

  lemma NameAt(cross: bool, i: nat)
    requires i < |Names(cross)|
    ensures Names(cross)[i] in Index(Names(cross)) && Index(Names(cross))[Names(cross)[i]] == i
  {
    NamesPlain(cross);
    NamesApart(cross);
    IndexOfName(Names(cross), i);
  }

  lemma NamesLocated(cross: bool)
    ensures Locate(Names(cross)) == Ok(PrintedColumns(cross))
  {
    NameAt(cross, 0);
    NameAt(cross, 1);
    NameAt(cross, 2);
    NamesPlain(cross);
    NamesApart(cross);
    if cross {
      NameAt(cross, 3);
    } else if "srce_level" in Index(Names(cross)) {
      IndexOnlyNames(Names(cross), "srce_level");
    }
  }

  lemma RowReads(cross: bool, row: XpointRow)
    requires PlainXpointRow(row) && (row.srceLevel != "" ==> cross)
    ensures var line := Join(RowFields(cross, row), ',');
      && PlainLine(line) && !Skipped(line)
      && ReadRow(PrintedColumns(cross), |RowFields(cross, row)|, Fields(line)) == Ok(row)
  {
    LevelCellReads(row.levels);
    PlainRowReads(RowFields(cross, row));
    assert Trim(row.dest) == row.dest && Trim(row.srce) == row.srce && Trim(row.srceLevel) == row.srceLevel;
  }

  lemma PrintedLines(cross: bool, rows: seq<XpointRow>)
    requires forall row :: row in rows ==> PlainXpointRow(row) && (row.srceLevel != "" ==> cross)
    ensures var lines := FileLines(cross, rows);
      && (forall l :: l in lines[1..] ==> PlainLine(l))
      && ReadRows(Reader(PrintedColumns(cross), |Names(cross)|), lines[1..] + [""], 2) == Ok(rows)
  {
    var lines := FileLines(cross, rows)[1..];
    forall i | 0 <= i < |rows|
      ensures PlainLine(lines[i]) && !Skipped(lines[i])
      ensures ReadRow(PrintedColumns(cross), |Names(cross)|, Fields(lines[i])) == Ok(rows[i])
    {
      assert rows[i] in rows;
      RowReads(cross, rows[i]);
    }
    ReadsBack(Reader(PrintedColumns(cross), |Names(cross)|), lines, rows, 2);
  }

  lemma ParsedBelowHeader(cross: bool, lines: seq<string>)
    requires lines != [] && !Skipped(lines[0]) && Header(lines[0]) == Names(cross)
    ensures ParsedLines(lines) == ReadRows(Reader(PrintedColumns(cross), |Names(cross)|), lines[1..], 2)
  {
    NamesLocated(cross);
  }

  /** The parser reads back exactly the rows the printer wrote, with and without the
      srce_level column. */
  lemma ParsePrinted(rows: seq<XpointRow>)
    requires forall row :: row in rows ==> PlainXpointRow(row)
    ensures Parsed(Printed(rows)) == Ok(rows)
  {
    var cross := CrossLevel(rows);
    var lines := FileLines(cross, rows);
    NamesPlain(cross);
    HeaderReads(Names(cross));
    PrintedLines(cross, rows);
    assert lines == [lines[0]] + lines[1..];
    LinesOfFile(lines);
    assert (lines + [""])[0] == lines[0] && (lines + [""])[1..] == lines[1..] + [""];
    ParsedBelowHeader(cross, lines + [""]);
  }

  /** The IDs of a route survive a file. */
  predicate PlainRoute(r: RouteSpec) {
    && r.dest != "" && r.dest[0] != '#' && PlainField(r.dest)
    && r.srce != "" && PlainField(r.srce)
    && PlainLevel(r.level) && PlainField(r.srceLevel)
  }

  /** As a snapshot delivers it: one source per cell, the source level given only when it
      is another one. */
  ghost predicate Settled(live: seq<RouteSpec>) {
    && (forall r :: r in live ==> r.srceLevel == CrossLevelSource(r.level, r.srceLevel))
    && Consistent(live)
  }

  lemma CollapsedPlain(live: seq<RouteSpec>)
    requires forall r :: r in live && WellFormed(r) ==> PlainRoute(r)
    ensures forall row :: row in Collapsed(live) ==> PlainXpointRow(row)
  {
    forall row | row in Collapsed(live)
      ensures PlainXpointRow(row)
    {
      CollapsedCanonical(live, row);
      forall l | l in row.levels
        ensures PlainLevel(l) && PlainRoute(RouteSpec(row.dest, row.srce, l, row.srceLevel))
      {
        var r := RouteSpec(row.dest, row.srce, l, row.srceLevel);
        ExpandedMember(Collapsed(live), r);
        ExpandCollapse(live);
      }
      assert row.levels[0] in row.levels;
    }
  }

  lemma {:induction false} LastRowShows(live: seq<RouteSpec>, r: RouteSpec)
    requires r in live && Settled(live)
    ensures Shown(CellsOf(live), CellOf(r)) == Goal(r)
  {
    var front, last := live[..|live| - 1], live[|live| - 1];
    assert live == front + [last];
    assert last in live && last.srceLevel == CrossLevelSource(last.level, last.srceLevel);
    if CellOf(last) != CellOf(r) {
      LastRowShows(front, r);
    }
  }

  /** Importing an untouched export plans nothing: the printed snapshot parses back to its
      rows, and the plan those rows ask for is empty. */
  lemma ExportImportIsZero(live: seq<RouteSpec>)
    requires forall r :: r in live && WellFormed(r) ==> PlainRoute(r)
    requires Settled(live)
    ensures Parsed(Printed(Collapsed(live))) == Ok(Collapsed(live))
    ensures RouteDiff(live, Expanded(Collapsed(live))) == []
  {
    CollapsedPlain(live);
    ParsePrinted(Collapsed(live));
    ExpandCollapse(live);
    PlanEmpty(live, Expanded(Collapsed(live)));
    forall d | d in Expanded(Collapsed(live))
      ensures Shown(CellsOf(live), CellOf(d)) == Goal(d)
    {
      LastRowShows(live, d);
    }
  }

  lemma NoRowsIff(live: seq<RouteSpec>)
    ensures Collapsed(live) == [] <==> forall r :: r in live ==> !WellFormed(r)
  {
    forall r | r in live && WellFormed(r)
      ensures Collapsed(live) != []
    {
      KeysMember(live, KeyOf(r));
      CollapsedRow(live, RowOf(live, KeyOf(r)));
    }
    if Collapsed(live) != [] {
      var row := Collapsed(live)[0];
      CollapsedRow(live, row);
      KeysMember(live, RowKey(row));
    }
  }

  /** The import takes an untouched export back exactly when the snapshot has a route at all,
      and then plans nothing; a plant without routes exports a file the import refuses. */
  lemma ExportLoadsIff(live: seq<RouteSpec>)
    requires forall r :: r in live && WellFormed(r) ==> PlainRoute(r)
    requires Settled(live)
    ensures var res := Loaded(Printed(Collapsed(live)));
      && (res.Ok? <==> exists r :: r in live && WellFormed(r))
      && (res.Err? ==> res == Err(At(0, NoCrosspoints)))
      && (res.Ok? ==> RouteDiff(live, res.value) == [])
  {
    ExportImportIsZero(live);
    NoRowsIff(live);
  }
}
