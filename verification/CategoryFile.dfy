/** The category files: live grids printed with their gaps, parsed under the rule of the
    file, and planned again. */
module CategoryFile {
  import opened Wrappers
  import opened Text
  import opened Sequences
  import opened Csv
  import opened Categories

  /** A source file takes no destination items, a destination file no source items. */
  datatype FileKind = SrcFile | DstFile | MixedFile

  datatype CatDef = CatDef(name: string, items: seq<Item>)

  datatype CatError =
    | NoHeader | MissingColumn(name: string) | ShortRow | MissingField | UnknownType | MissingValue | WrongFile
    | NoRows

  predicate KnownType(kind: string) {
    kind in {"BLANK", "SRCE", "SOURCE", "DEST", "CATEGORY", "SALVO", "INHERIT", "TEXT", "FILE", "CUSTOM"}
  }

  predicate Belongs(file: FileKind, kind: string) {
    match file
    case SrcFile => kind != "DEST"
    case DstFile => kind != "SOURCE" && kind != "SRCE"
    case MixedFile => true
  }

  // ---- the live grids as definitions ----

  /** The slots of a live grid from 1 on, gaps written as BLANK. */
  function SlotsOf(g: Grid, n: nat): seq<Item> {
    if n == 0 then []
    else SlotsOf(g, n - 1) + [if Empty(g, n) then Item("BLANK", "") else g[n]]
  }

  type Details = map<string, Option<seq<LiveItem>>>

  function DefsFromLive(names: seq<string>, pick: set<string>, details: Details): seq<CatDef> {
    if names == [] then []
    else
      var cat, before := names[|names| - 1], DefsFromLive(names[..|names| - 1], pick, details);
      if cat in pick && cat in details && details[cat].Some? then
        before + [CatDef(cat, SlotsOf(GridOf(details[cat].value), MaxIndex(details[cat].value)))]
      else before
  }

  method WriteSlots(items: seq<LiveItem>) returns (out: seq<Item>)
    ensures out == SlotsOf(GridOf(items), MaxIndex(items))
  {
    var byIndex, maxIndex := CollectGrid(items);
    out := [];
    for slot := 1 to maxIndex + 1
      invariant out == SlotsOf(byIndex, slot - 1)
    {
      if slot in byIndex && !Blank(byIndex[slot]) {
        out := out + [byIndex[slot]];
      } else {
        out := out + [Item("BLANK", "")];
      }
    }
  }

  method CategoryDefs(names: seq<string>, pick: set<string>, details: Details) returns (defs: seq<CatDef>)
    ensures defs == DefsFromLive(names, pick, details)
  {
    defs := [];
    for i := 0 to |names|
      invariant defs == DefsFromLive(names[..i], pick, details)
    {
      assert names[..i + 1][..i] == names[..i];
      var cat := names[i];
      if cat in pick && cat in details && details[cat].Some? {
        var items := WriteSlots(details[cat].value);
        defs := defs + [CatDef(cat, items)];
      }
    }
    assert names[..|names|] == names;
  }

  // ---- printing ----

  datatype CatRow = CatRow(name: string, item: Item)

  function DefRows(def: CatDef): seq<CatRow> {
    seq(|def.items|, i requires 0 <= i < |def.items| => CatRow(def.name, def.items[i]))
  }

  function Rows(defs: seq<CatDef>): seq<CatRow> {
    if defs == [] then [] else Rows(defs[..|defs| - 1]) + DefRows(defs[|defs| - 1])
  }

  function RowFields(row: CatRow): seq<string> {
    [row.name, row.item.kind, row.item.value]
  }

  function BodyLines(rows: seq<CatRow>): seq<string> {
    seq(|rows|, i requires 0 <= i < |rows| => Join(RowFields(rows[i]), ','))
  }

  const COLUMNS := ["category", "type", "value"]

  function FileLines(rows: seq<CatRow>): seq<string> {
    [Join(COLUMNS, ',')] + BodyLines(rows)
  }

  function Printed(defs: seq<CatDef>): string {
    Unlines(FileLines(Rows(defs)))
  }

  lemma SlotLine(d: CatDef, j: nat, before: seq<CatRow>)
    requires j < |d.items|
    ensures Unlines(FileLines(before + DefRows(d)[..j + 1]))
         == Unlines(FileLines(before + DefRows(d)[..j]))
            + (d.name + "," + d.items[j].kind + "," + d.items[j].value) + "\n"
  {
    var row := DefRows(d)[j];
    JoinThree(d.name, d.items[j].kind, d.items[j].value, ',');
    assert before + DefRows(d)[..j + 1] == (before + DefRows(d)[..j]) + [row];
    LinesGrow(before + DefRows(d)[..j], row);
  }

  method FormatDef(b0: string, d: CatDef, ghost before: seq<CatRow>) returns (b: string)
    requires b0 == Unlines(FileLines(before))
    ensures b == Unlines(FileLines(before + DefRows(d)))
  {
    b := b0;
    assert DefRows(d)[..0] == [] && before + [] == before;
    for j := 0 to |d.items|
      invariant b == Unlines(FileLines(before + DefRows(d)[..j]))
    {
      var it := d.items[j];
      var line := d.name + "," + it.kind + "," + it.value;
      SlotLine(d, j, before);
      b := b + line + "\n";
    }
    assert DefRows(d)[..|d.items|] == DefRows(d);
  }

  lemma LinesGrow(rows: seq<CatRow>, row: CatRow)
    ensures Unlines(FileLines(rows + [row])) == Unlines(FileLines(rows)) + Join(RowFields(row), ',') + ['\n']
  {
    assert FileLines(rows + [row]) == FileLines(rows) + [Join(RowFields(row), ',')];
    UnlinesAdd(FileLines(rows), Join(RowFields(row), ','));
  }

  method FormatCategories(defs: seq<CatDef>) returns (b: string)
    ensures b == Printed(defs)
  {
    JoinThree("category", "type", "value", ',');
    var header := "category" + "," + "type" + "," + "value";
    b := header + "\n";
    OneLine(header);
    assert FileLines(Rows(defs[..0])) == [header];
    for i := 0 to |defs|
      invariant b == Printed(defs[..i])
    {
      assert defs[..i + 1][..i] == defs[..i];
      b := FormatDef(b, defs[i], Rows(defs[..i]));
    }
    assert defs[..|defs|] == defs;
  }

  // ---- parsing ----

  datatype Places = Places(name: nat, kind: nat, value: nat)
  {
    predicate Within(width: nat) {
      name < width && kind < width && value < width
    }
  }

  function Locate(header: seq<string>): (res: Result<Places, CatError>)
    ensures res.Ok? ==> res.value.Within(|header|)
  {
    var idx := Index(header);
    if "category" !in idx then Err(MissingColumn("category"))
    else if "type" !in idx then Err(MissingColumn("type"))
    else if "value" !in idx then Err(MissingColumn("value"))
    else Ok(Places(idx["category"], idx["type"], idx["value"]))
  }

  function ReadRow(file: FileKind, at: Places, width: nat, f: seq<string>): Result<CatRow, CatError>
    requires at.Within(width)
  {
    if |f| < width then Err(ShortRow)
    else
      var name, kind, value := Trim(f[at.name]), ToUpper(Trim(f[at.kind])), Trim(f[at.value]);
      if name == "" || kind == "" then Err(MissingField)
      else if !KnownType(kind) then Err(UnknownType)
      else if value == "" && kind != "BLANK" then Err(MissingValue)
      else if !Belongs(file, kind) then Err(WrongFile)
      else Ok(CatRow(name, Item(kind, value)))
  }

  function Reader(file: FileKind, at: Places, width: nat): seq<string> -> Result<CatRow, CatError>
    requires at.Within(width)
  {
    f => ReadRow(file, at, width, f)
  }

  /** Where a name stands among the definitions; past the end when it does not. */
  function Find(defs: seq<CatDef>, name: string): (i: nat)
    ensures i <= |defs| && (i < |defs| ==> defs[i].name == name)
    ensures forall j :: 0 <= j < i ==> defs[j].name != name
  {
    if defs == [] || defs[0].name == name then 0 else 1 + Find(defs[1..], name)
  }

  /** A row joins the definition of its name, or starts one at the end. */
  function AddRow(defs: seq<CatDef>, row: CatRow): seq<CatDef> {
    var i := Find(defs, row.name);
    if i < |defs| then defs[i := CatDef(row.name, defs[i].items + [row.item])]
    else defs + [CatDef(row.name, [row.item])]
  }

  function Group(rows: seq<CatRow>): seq<CatDef> {
    if rows == [] then [] else AddRow(Group(rows[..|rows| - 1]), rows[|rows| - 1])
  }

  function GroupedOr(rows: Result<seq<CatRow>, At<CatError>>): Result<seq<CatDef>, At<CatError>> {
    match rows
    case Err(e) => Err(e)
    case Ok(rs) => if rs == [] then Err(At(0, NoRows)) else Ok(Group(rs))
  }

  function ParsedBody(file: FileKind, header: seq<string>, body: seq<string>,
                      first: nat): Result<seq<CatDef>, At<CatError>> {
    match Locate(header)
    case Err(e) => Err(At(0, e))
    case Ok(at) => GroupedOr(ReadRows(Reader(file, at, |header|), body, first))
  }

  function ParsedLines(file: FileKind, lines: seq<string>): Result<seq<CatDef>, At<CatError>> {
    var start := HeaderAt(lines);
    if start >= |lines| then Err(At(0, NoHeader))
    else ParsedBody(file, Header(lines[start]), lines[start + 1..], start + 2)
  }

  function Parsed(file: FileKind, data: string): Result<seq<CatDef>, At<CatError>> {
    ParsedLines(file, Lines(data))
  }

  /** The index the parser keeps of the names it has met. */
  ghost predicate Indexed(defs: seq<CatDef>, byName: map<string, nat>) {
    forall name :: if name in byName then byName[name] == Find(defs, name) < |defs| else Find(defs, name) == |defs|
  }

  lemma FindIs(defs: seq<CatDef>, name: string, i: nat)
    requires i <= |defs| && (i < |defs| ==> defs[i].name == name)
    requires forall j :: 0 <= j < i ==> defs[j].name != name
    ensures Find(defs, name) == i
  {
  }

  lemma FindAfter(defs: seq<CatDef>, row: CatRow, name: string)
    ensures var next := AddRow(defs, row);
      Find(next, name) == if name == row.name || Find(defs, name) < |defs| then Find(defs, name) else |next|
  {
    var next := AddRow(defs, row);
    FindIs(next, name, if name == row.name || Find(defs, name) < |defs| then Find(defs, name) else |next|);
  }

  lemma IndexedStep(defs: seq<CatDef>, byName: map<string, nat>, row: CatRow)
    requires Indexed(defs, byName)
    ensures Indexed(AddRow(defs, row), if row.name in byName then byName else byName[row.name := |defs|])
  {
    forall name {
      FindAfter(defs, row, name);
    }
  }

  method GroupRows(rows: seq<CatRow>) returns (defs: seq<CatDef>)
    ensures defs == Group(rows)
  {
    defs := [];
    var byName: map<string, nat> := map[];
    for i := 0 to |rows|
      invariant defs == Group(rows[..i]) && Indexed(defs, byName)
    {
      assert rows[..i + 1][..i] == rows[..i];
      var row := rows[i];
      IndexedStep(defs, byName, row);
      assert row.name in byName ==> byName[row.name] == Find(defs, row.name) < |defs|;
      if row.name !in byName {
        byName := byName[row.name := |defs|];
        defs := defs + [CatDef(row.name, [row.item])];
      } else {
        var k := byName[row.name];
        defs := defs[k := CatDef(row.name, defs[k].items + [row.item])];
      }
    }
    assert rows[..|rows|] == rows;
  }

  method LocateColumns(header: seq<string>) returns (res: Result<Places, CatError>)
    ensures res == Locate(header)
  {
    var idx := IndexColumns(header);
    if "category" !in idx {
      return Err(MissingColumn("category"));
    }
    if "type" !in idx {
      return Err(MissingColumn("type"));
    }
    if "value" !in idx {
      return Err(MissingColumn("value"));
    }
    return Ok(Places(idx["category"], idx["type"], idx["value"]));
  }

  method GroupRead(read: Result<seq<CatRow>, At<CatError>>) returns (res: Result<seq<CatDef>, At<CatError>>)
    ensures res == GroupedOr(read)
  {
    if read.Err? {
      return Err(read.error);
    }
    if read.value == [] {
      return Err(At(0, NoRows));
    }
    var defs := GroupRows(read.value);
    return Ok(defs);
  }

  method ParseBody(file: FileKind, header: seq<string>, body: seq<string>, first: nat)
    returns (res: Result<seq<CatDef>, At<CatError>>)
    ensures res == ParsedBody(file, header, body, first)
  {
    var located := LocateColumns(header);
    if located.Err? {
      return Err(At(0, located.error));
    }
    var read := ReadLines(Reader(file, located.value, |header|), body, first);
    res := GroupRead(read);
  }

  method ParseLines(file: FileKind, lines: seq<string>) returns (res: Result<seq<CatDef>, At<CatError>>)
    ensures res == ParsedLines(file, lines)
  {
    var start := FindHeader(lines);
    if start >= |lines| {
      return Err(At(0, NoHeader));
    }
    var header, body := Header(lines[start]), lines[start + 1..];
    assert ParsedLines(file, lines) == ParsedBody(file, header, body, start + 2);
    res := ParseBody(file, header, body, start + 2);
  }

  method ParseCategories(file: FileKind, data: string) returns (res: Result<seq<CatDef>, At<CatError>>)
    ensures res == Parsed(file, data)
  {
    res := ParseLines(file, Lines(data));
  }

  // ---- the round trip ----

  ghost predicate NamesApart(defs: seq<CatDef>) {
    forall i, j :: 0 <= i < j < |defs| ==> defs[i].name != defs[j].name
  }

  /** The definitions that have a slot at all: only those leave a row in the file. */
  function NonEmpty(defs: seq<CatDef>): seq<CatDef> {
    if defs == [] then []
    else
      var d, before := defs[|defs| - 1], NonEmpty(defs[..|defs| - 1]);
      if d.items != [] then before + [d] else before
  }

  function AddAll(defs: seq<CatDef>, rows: seq<CatRow>): seq<CatDef> {
    if rows == [] then defs else AddRow(AddAll(defs, rows[..|rows| - 1]), rows[|rows| - 1])
  }

  lemma {:induction false} GroupConcat(a: seq<CatRow>, b: seq<CatRow>)
    ensures Group(a + b) == AddAll(Group(a), b)
  {
    if b == [] {
      assert a + b == a;
    } else {
      assert (a + b)[..|a + b| - 1] == a + b[..|b| - 1];
      GroupConcat(a, b[..|b| - 1]);
    }
  }

  lemma AddRowLast(defs: seq<CatDef>, d: CatDef, item: Item)
    requires Find(defs, d.name) == |defs|
    ensures AddRow(defs, CatRow(d.name, item)) == defs + [CatDef(d.name, [item])]
    ensures AddRow(defs + [d], CatRow(d.name, item)) == defs + [CatDef(d.name, d.items + [item])]
  {
    var longer := CatDef(d.name, d.items + [item]);
    FindIs(defs + [d], d.name, |defs|);
    assert (defs + [d])[|defs|] == d && (defs + [d])[|defs| := longer] == defs + [longer];
  }

  /** The first `n` rows of one definition, met after others of different names. */
  lemma {:induction false} AddDef(defs: seq<CatDef>, d: CatDef, n: nat)
    requires 0 < n <= |d.items| && Find(defs, d.name) == |defs|
    ensures AddAll(defs, DefRows(d)[..n]) == defs + [CatDef(d.name, d.items[..n])]
  {
    var rows := DefRows(d)[..n];
    assert rows[..n - 1] == DefRows(d)[..n - 1];
    assert rows[n - 1] == CatRow(d.name, d.items[n - 1]);
    AddRowLast(defs, CatDef(d.name, d.items[..n - 1]), d.items[n - 1]);
    assert d.items[..n] == d.items[..n - 1] + [d.items[n - 1]];
    if n > 1 {
      AddDef(defs, d, n - 1);
    } else {
      assert rows[..n - 1] == [] && d.items[..1] == [d.items[0]];
    }
  }

  lemma {:induction false} NonEmptyMember(defs: seq<CatDef>, d: CatDef)
    ensures d in NonEmpty(defs) <==> d in defs && d.items != []
  {
    if defs != [] {
      NonEmptyMember(defs[..|defs| - 1], d);
      assert defs == defs[..|defs| - 1] + [defs[|defs| - 1]];
    }
  }

  /** Grouping the rows of definitions of different names gives those that have rows. */
  lemma {:induction false} GroupUndoesRows(defs: seq<CatDef>)
    requires NamesApart(defs)
    ensures Group(Rows(defs)) == NonEmpty(defs)
  {
    if defs != [] {
      var front, last := defs[..|defs| - 1], defs[|defs| - 1];
      GroupUndoesRows(front);
      forall j | 0 <= j < |NonEmpty(front)|
        ensures NonEmpty(front)[j].name != last.name
      {
        NonEmptyMember(front, NonEmpty(front)[j]);
        var i :| 0 <= i < |front| && front[i] == NonEmpty(front)[j];
        assert defs[i].name != defs[|defs| - 1].name;
      }
      FindIs(NonEmpty(front), last.name, |NonEmpty(front)|);
      GroupConcat(Rows(front), DefRows(last));
      assert DefRows(last)[..|last.items|] == DefRows(last);
      assert last.items[..|last.items|] == last.items;
      if last.items != [] {
        AddDef(NonEmpty(front), last, |last.items|);
      }
    }
  }

  /** A row whose printed line has the fields of the row. */
  predicate PlainCatRow(row: CatRow) {
    && row.name != "" && row.name[0] != '#' && PlainField(row.name)
    && PlainField(row.item.kind) && PlainField(row.item.value)
  }

  /** The type is read in upper case. */
  function Upper(i: Item): Item {
    Item(ToUpper(i.kind), i.value)
  }

  /** A file of the kind takes the item back. */
  predicate Readable(file: FileKind, i: Item) {
    && KnownType(Upper(i).kind) && Belongs(file, Upper(i).kind)
    && (i.value == "" ==> Upper(i).kind == "BLANK")
  }

  predicate Capitals(s: string) {
    s != [] && forall i :: 0 <= i < |s| ==> 'A' <= s[i] <= 'Z'
  }

  lemma CapitalsPlain(s: string)
    requires Capitals(s)
    ensures PlainField(s) && ToUpper(s) == s
  {
    assert 'A' <= s[0] <= 'Z' && 'A' <= s[|s| - 1] <= 'Z';
  }

  lemma KnownTypePlain(kind: string)
    requires KnownType(kind)
    ensures Capitals(kind) && PlainField(kind) && ToUpper(kind) == kind
  {
    assert Capitals("BLANK") && Capitals("SRCE") && Capitals("SOURCE") && Capitals("DEST") && Capitals("CATEGORY");
    assert Capitals("SALVO") && Capitals("INHERIT") && Capitals("TEXT") && Capitals("FILE") && Capitals("CUSTOM");
    CapitalsPlain(kind);
  }

  lemma RowReads(file: FileKind, row: CatRow)
    requires PlainCatRow(row)
    ensures var line := Join(RowFields(row), ',');
      var read := ReadRow(file, Places(0, 1, 2), 3, Fields(line));
      && PlainLine(line) && !Skipped(line)
      && (read.Ok? <==> Readable(file, row.item))
      && (read.Ok? ==> read.value == CatRow(row.name, Upper(row.item)))
      && (row.item.kind != "" && !KnownType(Upper(row.item).kind) ==> read == Err(UnknownType))
  {
    PlainRowReads(RowFields(row));
    assert Trim(row.name) == row.name && Trim(row.item.kind) == row.item.kind && Trim(row.item.value) == row.item.value;
  }

  lemma ColumnNames()
    ensures PlainNames(COLUMNS) && forall n :: n in COLUMNS ==> Trimmed(n)
    ensures COLUMNS[0] != COLUMNS[1] && COLUMNS[0] != COLUMNS[2] && COLUMNS[1] != COLUMNS[2]
  {
    assert PlainName("category") && PlainName("type") && PlainName("value");
    assert |"category"| == 8 && |"type"| == 4 && |"value"| == 5;
  }

  lemma ColumnsLocated()
    ensures Locate(COLUMNS) == Ok(Places(0, 1, 2))
  {
    ColumnNames();
    IndexOfName(COLUMNS, 0);
    IndexOfName(COLUMNS, 1);
    IndexOfName(COLUMNS, 2);
  }

  function UpperRows(rows: seq<CatRow>): seq<CatRow> {
    seq(|rows|, i requires 0 <= i < |rows| => CatRow(rows[i].name, Upper(rows[i].item)))
  }

  lemma BodyReads(file: FileKind, rows: seq<CatRow>)
    requires forall row :: row in rows ==> PlainCatRow(row)
    ensures forall l :: l in BodyLines(rows) ==> PlainLine(l)
    ensures var res := ReadRows(Reader(file, Places(0, 1, 2), 3), BodyLines(rows) + [""], 2);
      && (res.Ok? <==> forall row :: row in rows ==> Readable(file, row.item))
      && (res.Ok? ==> res.value == UpperRows(rows))
  {
    var lines, read := BodyLines(rows), Reader(file, Places(0, 1, 2), 3);
    forall i | 0 <= i < |rows|
      ensures PlainLine(lines[i]) && !Skipped(lines[i])
      ensures read(Fields(lines[i])).Ok? <==> Readable(file, rows[i].item)
      ensures read(Fields(lines[i])).Ok? ==> read(Fields(lines[i])).value == CatRow(rows[i].name, Upper(rows[i].item))
    {
      assert rows[i] in rows;
      RowReads(file, rows[i]);
    }
    ReadsAll(read, lines, 2);
    var res := ReadRows(read, lines + [""], 2);
    if res.Ok? {
      assert res.value == UpperRows(rows);
    }
  }

  lemma BelowHeader(file: FileKind, lines: seq<string>)
    requires lines != [] && !Skipped(lines[0]) && Header(lines[0]) == COLUMNS
    ensures ParsedLines(file, lines) == GroupedOr(ReadRows(Reader(file, Places(0, 1, 2), 3), lines[1..], 2))
  {
    ColumnsLocated();
  }

  lemma FileReads(file: FileKind, rows: seq<CatRow>)
    requires forall l :: l in BodyLines(rows) ==> PlainLine(l)
    ensures Parsed(file, Unlines(FileLines(rows)))
      == GroupedOr(ReadRows(Reader(file, Places(0, 1, 2), 3), BodyLines(rows) + [""], 2))
  {
    var lines := FileLines(rows);
    ColumnNames();
    HeaderReads(COLUMNS);
    LinesOfFile(lines);
    assert (lines + [""])[0] == lines[0] && (lines + [""])[1..] == BodyLines(rows) + [""];
    BelowHeader(file, lines + [""]);
  }

  function UpperItems(items: seq<Item>): seq<Item> {
    seq(|items|, i requires 0 <= i < |items| => Upper(items[i]))
  }

  function UpperDefs(defs: seq<CatDef>): seq<CatDef> {
    seq(|defs|, i requires 0 <= i < |defs| => CatDef(defs[i].name, UpperItems(defs[i].items)))
  }

  lemma {:induction false} UpperDefRows(defs: seq<CatDef>)
    ensures Rows(UpperDefs(defs)) == UpperRows(Rows(defs))
    ensures NonEmpty(UpperDefs(defs)) == UpperDefs(NonEmpty(defs))
  {
    if defs != [] {
      var front, last := defs[..|defs| - 1], defs[|defs| - 1];
      UpperDefRows(front);
      var upper := UpperDefs(defs);
      assert upper[..|upper| - 1] == UpperDefs(front);
      assert DefRows(upper[|upper| - 1]) == UpperRows(DefRows(last));
    }
  }

  lemma UpperApart(defs: seq<CatDef>)
    requires NamesApart(defs)
    ensures NamesApart(UpperDefs(defs))
  {
    forall i, j | 0 <= i < j < |defs|
      ensures UpperDefs(defs)[i].name != UpperDefs(defs)[j].name
    {
      assert defs[i].name != defs[j].name;
    }
  }

  /** Printed definitions of different names read back exactly when there is a slot at all
      and a file of the kind takes every item; they come back as those of them that have
      slots, types in upper case. */
  lemma ParsePrintedIff(file: FileKind, defs: seq<CatDef>)
    requires NamesApart(defs) && forall row :: row in Rows(defs) ==> PlainCatRow(row)
    ensures var res := Parsed(file, Printed(defs));
      && (res.Ok? <==> NonEmpty(defs) != [] && forall row :: row in Rows(defs) ==> Readable(file, row.item))
      && (res.Ok? ==> res.value == UpperDefs(NonEmpty(defs)))
  {
    BodyReads(file, Rows(defs));
    FileReads(file, Rows(defs));
    UpperDefRows(defs);
    UpperApart(defs);
    GroupUndoesRows(UpperDefs(defs));
    NoRowsIff(defs);
  }

  /** A first slot of a type outside the vocabulary refuses the file by that name. */
  lemma UnknownTypeRefused(file: FileKind, defs: seq<CatDef>)
    requires Rows(defs) != [] && forall row :: row in Rows(defs) ==> PlainCatRow(row)
    requires Rows(defs)[0].item.kind != "" && !KnownType(Upper(Rows(defs)[0].item).kind)
    ensures Parsed(file, Printed(defs)) == Err(At(2, UnknownType))
  {
    var rows := Rows(defs);
    BodyReads(file, rows);
    FileReads(file, rows);
    assert rows[0] in rows;
    RowReads(file, rows[0]);
    assert (BodyLines(rows) + [""])[0] == Join(RowFields(rows[0]), ',');
  }

  lemma {:induction false} NoRowsIff(defs: seq<CatDef>)
    ensures Rows(defs) == [] <==> NonEmpty(defs) == []
  {
    if defs != [] {
      NoRowsIff(defs[..|defs| - 1]);
    }
  }

  // ---- exporting a live category set and importing it again ----

  /** The names and items of the picked grids are plain fields; any type, any value. */
  ghost predicate Writable(names: seq<string>, pick: set<string>, details: Details) {
    && Distinct(names)
    && forall cat :: cat in names && cat in pick && cat in details && details[cat].Some? ==>
         && cat != "" && cat[0] != '#' && PlainField(cat)
         && forall j :: 1 <= j && !Empty(GridOf(details[cat].value), j) ==> PlainItem(GridOf(details[cat].value)[j])
  }

  predicate PlainItem(i: Item) {
    PlainField(i.kind) && PlainField(i.value)
  }

  /** Every filled slot of the picked grids is an item a file of the kind takes. */
  ghost predicate AllReadable(file: FileKind, names: seq<string>, pick: set<string>, details: Details) {
    forall cat :: cat in names && cat in pick && cat in details && details[cat].Some? ==>
      GridReadable(file, details[cat].value)
  }

  ghost predicate GridReadable(file: FileKind, items: seq<LiveItem>) {
    forall j :: 1 <= j && !Empty(GridOf(items), j) ==> Readable(file, GridOf(items)[j])
  }

  lemma {:induction false} SlotsAt(g: Grid, n: nat)
    ensures |SlotsOf(g, n)| == n
    ensures forall i :: 0 <= i < n ==> SlotsOf(g, n)[i] == if Empty(g, i + 1) then Item("BLANK", "") else g[i + 1]
  {
    if n > 0 {
      SlotsAt(g, n - 1);
    }
  }

  lemma {:induction false} DefMember(names: seq<string>, pick: set<string>, details: Details, d: CatDef)
    ensures d in DefsFromLive(names, pick, details)
       <==> d.name in names && d.name in pick && d.name in details && details[d.name].Some?
            && d.items == SlotsOf(GridOf(details[d.name].value), MaxIndex(details[d.name].value))
  {
    if names != [] {
      DefMember(names[..|names| - 1], pick, details, d);
      assert names == names[..|names| - 1] + [names[|names| - 1]];
    }
  }

  lemma {:induction false} DefNamesApart(names: seq<string>, pick: set<string>, details: Details)
    requires Distinct(names)
    ensures NamesApart(DefsFromLive(names, pick, details))
  {
    if names != [] {
      var front, last := names[..|names| - 1], names[|names| - 1];
      DefNamesApart(front, pick, details);
      var before := DefsFromLive(front, pick, details);
      forall i | 0 <= i < |before|
        ensures before[i].name != last
      {
        DefMember(front, pick, details, before[i]);
        FreshAt(names, |names| - 1);
      }
    }
  }

  lemma {:induction false} RowMember(defs: seq<CatDef>, row: CatRow)
    ensures row in Rows(defs) <==> exists d :: d in defs && d.name == row.name && row.item in d.items
  {
    if defs != [] {
      var front, last := defs[..|defs| - 1], defs[|defs| - 1];
      assert defs == front + [last];
      RowMember(front, row);
      DefRowMember(last, row);
    }
  }

  lemma DefRowMember(d: CatDef, row: CatRow)
    ensures row in DefRows(d) <==> d.name == row.name && row.item in d.items
  {
    if d.name == row.name && row.item in d.items {
      var i :| 0 <= i < |d.items| && d.items[i] == row.item;
      assert DefRows(d)[i] == row;
    }
  }

  lemma ExportRow(names: seq<string>, pick: set<string>, details: Details, row: CatRow)
    requires Writable(names, pick, details) && row in Rows(DefsFromLive(names, pick, details))
    ensures PlainCatRow(row)
    ensures row.name in names && row.name in pick && row.name in details && details[row.name].Some?
    ensures var g := GridOf(details[row.name].value);
      row.item == Item("BLANK", "") || exists j :: 1 <= j && !Empty(g, j) && g[j] == row.item
  {
    RowMember(DefsFromLive(names, pick, details), row);
    var d :| d in DefsFromLive(names, pick, details) && d.name == row.name && row.item in d.items;
    DefMember(names, pick, details, d);
    var g, n := GridOf(details[d.name].value), MaxIndex(details[d.name].value);
    SlotsAt(g, n);
    var i :| 0 <= i < |d.items| && d.items[i] == row.item;
    KnownTypePlain("BLANK");
    if !Empty(g, i + 1) {
      assert PlainItem(g[i + 1]);
    }
  }

  lemma BlankReadable(file: FileKind)
    ensures Readable(file, Item("BLANK", ""))
  {
    KnownTypePlain("BLANK");
  }

  lemma SlotRow(names: seq<string>, pick: set<string>, details: Details, cat: string, j: int)
    requires cat in names && cat in pick && cat in details && details[cat].Some?
    requires 1 <= j && !Empty(GridOf(details[cat].value), j)
    ensures CatRow(cat, GridOf(details[cat].value)[j]) in Rows(DefsFromLive(names, pick, details))
  {
    var g, n := GridOf(details[cat].value), MaxIndex(details[cat].value);
    var d := CatDef(cat, SlotsOf(g, n));
    DefMember(names, pick, details, d);
    MaxBounds(details[cat].value, j);
    SlotsAt(g, n);
    assert d.items[j - 1] == g[j];
    RowMember(DefsFromLive(names, pick, details), CatRow(cat, g[j]));
  }

  lemma RowsReadableIff(file: FileKind, names: seq<string>, pick: set<string>, details: Details)
    requires Writable(names, pick, details)
    ensures (forall row :: row in Rows(DefsFromLive(names, pick, details)) ==> Readable(file, row.item))
       <==> AllReadable(file, names, pick, details)
  {
    var rows := Rows(DefsFromLive(names, pick, details));
    if AllReadable(file, names, pick, details) {
      forall row | row in rows
        ensures Readable(file, row.item)
      {
        ExportRow(names, pick, details, row);
        BlankReadable(file);
        assert GridReadable(file, details[row.name].value);
      }
    }
    if forall row :: row in rows ==> Readable(file, row.item) {
      forall cat | cat in names && cat in pick && cat in details && details[cat].Some?
        ensures GridReadable(file, details[cat].value)
      {
        var g := GridOf(details[cat].value);
        forall j | 1 <= j && !Empty(g, j)
          ensures Readable(file, g[j])
        {
          SlotRow(names, pick, details, cat, j);
          assert CatRow(cat, g[j]) in rows;
        }
      }
    }
  }

  /** An exported grid asks for exactly the live one. */
  lemma ExportMatches(items: seq<LiveItem>)
    ensures Matches(GridOf(items), SlotsOf(GridOf(items), MaxIndex(items)))
  {
    var g, n := GridOf(items), MaxIndex(items);
    SlotsAt(g, n);
    assert Blank(Item("BLANK", ""));
    forall j | j > n
      ensures Empty(g, j)
    {
      if j in g {
        MaxBounds(items, j);
      }
    }
  }

  lemma UpperHolds(g: Grid, slot: int, want: Item)
    ensures Holds(g, slot, Upper(want)) <==> Holds(g, slot, want)
  {
  }

  lemma UpperMatches(g: Grid, items: seq<Item>)
    requires Matches(g, items)
    ensures Matches(g, UpperItems(items))
  {
    forall i | 0 <= i < |items|
      ensures Holds(g, i + 1, UpperItems(items)[i])
    {
      UpperHolds(g, i + 1, items[i]);
    }
  }

  lemma ReadDefSettled(names: seq<string>, pick: set<string>, details: Details, d: CatDef)
    requires d in UpperDefs(NonEmpty(DefsFromLive(names, pick, details)))
    ensures d.name in names && d.name in pick && d.name in details && CatDiff(d.name, details[d.name], d.items) == []
  {
    var kept := NonEmpty(DefsFromLive(names, pick, details));
    var i :| 0 <= i < |kept| && UpperDefs(kept)[i] == d;
    NonEmptyMember(DefsFromLive(names, pick, details), kept[i]);
    DefMember(names, pick, details, kept[i]);
    ExportMatches(details[d.name].value);
    UpperMatches(GridOf(details[d.name].value), kept[i].items);
    PlanEmptyIff(d.name, details[d.name], d.items);
  }

  /** The export of a live category set reads back under its kind exactly when there is a
      slot at all and every filled slot is an item the kind takes; every definition read
      then plans nothing. */
  lemma CategoryExportImportIff(file: FileKind, names: seq<string>, pick: set<string>, details: Details)
    requires Writable(names, pick, details)
    ensures var defs := DefsFromLive(names, pick, details);
      var res := Parsed(file, Printed(defs));
      && (res.Ok? <==> NonEmpty(defs) != [] && AllReadable(file, names, pick, details))
      && (res.Ok? ==> res.value == UpperDefs(NonEmpty(defs)))
      && (res.Ok? ==> forall d :: d in res.value ==>
        d.name in details && CatDiff(d.name, details[d.name], d.items) == [])
  {
    var defs := DefsFromLive(names, pick, details);
    DefNamesApart(names, pick, details);
    forall row | row in Rows(defs)
      ensures PlainCatRow(row)
    {
      ExportRow(names, pick, details, row);
    }
    ParsePrintedIff(file, defs);
    RowsReadableIff(file, names, pick, details);
    forall d | d in UpperDefs(NonEmpty(defs))
      ensures d.name in details && CatDiff(d.name, details[d.name], d.items) == []
    {
      ReadDefSettled(names, pick, details, d);
    }
  }
}
