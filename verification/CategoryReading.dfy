/** The category files in plain terms: the slots of a live grid, the letters as printed, and
    what each line says to the parser. */
module CategoryReading {
  import opened Wrappers
  import opened Text
  import opened Sorting
  import opened Csv
  import opened Categories
  import opened CategoryFile

  // ---- live grids ----

  /** The item of the report's last row of a slot. */
  ghost predicate LastItem(items: seq<LiveItem>, slot: int, item: Item) {
    exists i :: LastRow(items, i, slot) && items[i].item == item
  }

  lemma {:induction false} MaxPlain(items: seq<LiveItem>)
    ensures forall i :: 0 <= i < |items| ==> items[i].index <= MaxIndex(items)
    ensures MaxIndex(items) == 0 || exists i :: 0 <= i < |items| && items[i].index == MaxIndex(items)
  {
    if items != [] {
      var front := items[..|items| - 1];
      MaxPlain(front);
      assert forall i :: 0 <= i < |front| ==> items[i] == front[i];
    }
  }

  lemma {:induction false} SlotsPlain(g: Grid, n: nat)
    ensures |SlotsOf(g, n)| == n
    ensures forall i :: 0 <= i < n ==>
      SlotsOf(g, n)[i] == if i + 1 in g && ToUpper(g[i + 1].kind) != "BLANK" then g[i + 1] else Item("BLANK", "")
  {
    if n > 0 {
      SlotsPlain(g, n - 1);
      if n in g {
        EqualFoldPlain(g[n].kind, "BLANK");
        BlankLetters();
      }
    }
  }

  lemma BlankLetters()
    ensures ToUpper("BLANK") == "BLANK"
  {
  }

  /** The definition of a live category: as many slots as its highest index says, each as its
      last row gives it, the others BLANK. */
  ghost predicate Writes(items: seq<LiveItem>, def: seq<Item>) {
    && (forall i :: 0 <= i < |items| ==> items[i].index <= |def|)
    && (|def| == 0 || exists i :: 0 <= i < |items| && items[i].index == |def|)
    && forall i :: 0 <= i < |def| ==> WritesSlot(items, i + 1, def[i])
  }

  ghost predicate WritesSlot(items: seq<LiveItem>, slot: int, item: Item) {
    if ToUpper(item.kind) == "BLANK" then
      item == Item("BLANK", "") && forall last :: LastItem(items, slot, last) ==> ToUpper(last.kind) == "BLANK"
    else LastItem(items, slot, item)
  }

  lemma DefPlain(items: seq<LiveItem>)
    ensures Writes(items, SlotsOf(GridOf(items), MaxIndex(items)))
  {
    var def := SlotsOf(GridOf(items), MaxIndex(items));
    MaxPlain(items);
    SlotsPlain(GridOf(items), MaxIndex(items));
    forall i | 0 <= i < |def|
      ensures WritesSlot(items, i + 1, def[i])
    {
      SlotPlain(items, i + 1, def[i]);
    }
  }

  lemma SlotPlain(items: seq<LiveItem>, slot: int, item: Item)
    requires var g := GridOf(items);
      item == if slot in g && ToUpper(g[slot].kind) != "BLANK" then g[slot] else Item("BLANK", "")
    ensures WritesSlot(items, slot, item)
  {
    GridPlain(items, slot);
    BlankLetters();
  }

  /** The live definitions: of the listed categories, in order, those picked that gave
      details. */
  lemma {:induction false} DefsPlain(names: seq<string>, pick: set<string>, details: Details)
    ensures var defs := DefsFromLive(names, pick, details);
      && (forall d :: d in defs ==>
            d.name in details && details[d.name].Some? && Writes(details[d.name].value, d.items))
      && Mapped(NameOf(), defs) == Filter(Listed(pick, details), names)
  {
    if names != [] {
      var front, cat := names[..|names| - 1], names[|names| - 1];
      var before := DefsFromLive(front, pick, details);
      DefsPlain(front, pick, details);
      if cat in pick && cat in details && details[cat].Some? {
        var d := CatDef(cat, SlotsOf(GridOf(details[cat].value), MaxIndex(details[cat].value)));
        DefPlain(details[cat].value);
        MappedLast(NameOf(), before, d);
        assert DefsFromLive(names, pick, details) == before + [d];
      }
    }
  }

  function NameOf(): CatDef -> string {
    (d: CatDef) => d.name
  }

  function Listed(pick: set<string>, details: Details): string -> bool {
    cat => cat in pick && cat in details && details[cat].Some?
  }

  // ---- printing ----

  lemma HeadingText()
    ensures Join(COLUMNS, ',') == "category,type,value"
  {
    JoinThree("category", "type", "value", ',');
    assert "category" + [','] == "category,";
    assert "category," + "type" == "category,type" && "category,type" + [','] == "category,type,";
  }

  function RowTexts(rows: seq<CatRow>): string {
    if rows == [] then ""
    else rows[0].name + "," + rows[0].item.kind + "," + rows[0].item.value + "\n" + RowTexts(rows[1..])
  }

  lemma {:induction false} LinesText(rows: seq<CatRow>)
    ensures Unlines(BodyLines(rows)) == RowTexts(rows)
  {
    if rows == [] {
      assert BodyLines(rows) == [];
    } else {
      var row := rows[0];
      LinesText(rows[1..]);
      JoinThree(row.name, row.item.kind, row.item.value, ',');
      assert BodyLines(rows) == [Join(RowFields(row), ',')] + BodyLines(rows[1..]);
      UnlinesTail(Join(RowFields(row), ','), BodyLines(rows[1..]));
    }
  }

  /** One row for each slot of each definition, in order. */
  lemma {:induction false} RowsPlain(defs: seq<CatDef>)
    ensures defs == [] ==> Rows(defs) == []
    ensures defs != [] ==>
      var d := defs[0];
      Rows(defs) == seq(|d.items|, i requires 0 <= i < |d.items| => CatRow(d.name, d.items[i])) + Rows(defs[1..])
  {
    if |defs| > 1 {
      var front, last := defs[..|defs| - 1], defs[|defs| - 1];
      RowsPlain(front);
      assert defs[1..][..|defs| - 2] == front[1..];
      assert Rows(defs[1..]) == Rows(front[1..]) + DefRows(last);
      assert (DefRows(defs[0]) + Rows(front[1..])) + DefRows(last)
        == DefRows(defs[0]) + (Rows(front[1..]) + DefRows(last));
    } else if |defs| == 1 {
      assert Rows(defs[..0]) == [] && Rows(defs[1..]) == [];
    }
  }

  /** The printed file, letter by letter. */
  lemma PrintedPlain(defs: seq<CatDef>)
    ensures Printed(defs) == "category,type,value" + "\n" + RowTexts(Rows(defs))
  {
    HeadingText();
    LinesText(Rows(defs));
    UnlinesTail(Join(COLUMNS, ','), BodyLines(Rows(defs)));
  }

  // ---- parsing ----

  ghost predicate TypeName(kind: string) {
    kind in {"BLANK", "SRCE", "SOURCE", "DEST", "CATEGORY", "SALVO", "INHERIT", "TEXT", "FILE", "CUSTOM"}
  }

  /** The file of the other side. */
  ghost predicate OtherSide(file: FileKind, kind: string) {
    (file == SrcFile && kind == "DEST") || (file == DstFile && kind in {"SOURCE", "SRCE"})
  }

  /** What a data line says under a header line. */
  ghost predicate Says(file: FileKind, header: string, line: string, row: CatRow) {
    var f := Split(Trim(line), ',');
    && |f| >= |Split(ToLower(Trim(header)), ',')|
    && (forall i: nat :: StandsAt(header, "category", i) ==> i < |f| && row.name == Trim(f[i]) != "")
    && (forall i: nat :: StandsAt(header, "type", i) ==> i < |f| && row.item.kind == ToUpper(Trim(f[i])))
    && (forall i: nat :: StandsAt(header, "value", i) ==> i < |f| && row.item.value == Trim(f[i]))
    && TypeName(row.item.kind) && (row.item.value != "" || row.item.kind == "BLANK")
    && !OtherSide(file, row.item.kind)
  }

  /** Why a data line is refused: the name `n`, type `t` and value `v` stand in it. */
  ghost predicate Fails(file: FileKind, header: string, line: string, e: CatError) {
    var f := Split(Trim(line), ',');
    if |f| < |Split(ToLower(Trim(header)), ',')| then e == ShortRow
    else
      exists n: nat, t: nat, v: nat ::
        && n < |f| && t < |f| && v < |f|
        && StandsAt(header, "category", n) && StandsAt(header, "type", t) && StandsAt(header, "value", v)
        && e == Reason(file, Trim(f[n]), ToUpper(Trim(f[t])), Trim(f[v]))
  }

  ghost function Reason(file: FileKind, name: string, kind: string, value: string): (e: CatError)
    ensures !e.MissingColumn? && !e.NoRows?
  {
    if name == "" || kind == "" then MissingField
    else if !TypeName(kind) then UnknownType
    else if value == "" && kind != "BLANK" then MissingValue
    else WrongFile
  }

  lemma LocatePlain(header: string)
    ensures match Locate(Header(header))
      case Err(e) => e.MissingColumn? && Lacking(header, e.name)
      case Ok(at) =>
        && StandsAt(header, "category", at.name) && StandsAt(header, "type", at.kind)
        && StandsAt(header, "value", at.value)
  {
    HeaderPlain(header, "category");
    HeaderPlain(header, "type");
    HeaderPlain(header, "value");
  }

  /** The first needed column that the header lacks. */
  ghost predicate Lacking(header: string, name: string) {
    if !HasColumn(header, "category") then name == "category"
    else if !HasColumn(header, "type") then name == "type"
    else name == "value" && !HasColumn(header, "value")
  }

  ghost predicate Headed(header: string) {
    HasColumn(header, "category") && HasColumn(header, "type") && HasColumn(header, "value")
  }

  /** Where the columns stand, and that they stand nowhere else. */
  ghost predicate Placed(header: string, at: Places) {
    && (forall j: nat :: StandsAt(header, "category", j) <==> j == at.name)
    && (forall j: nat :: StandsAt(header, "type", j) <==> j == at.kind)
    && forall j: nat :: StandsAt(header, "value", j) <==> j == at.value
  }

  lemma PlacesPlain(header: string, at: Places)
    requires Locate(Header(header)) == Ok(at)
    ensures Placed(header, at)
  {
    LocatePlain(header);
    StandsOnce(header, "category", at.name);
    StandsOnce(header, "type", at.kind);
    StandsOnce(header, "value", at.value);
  }

  lemma RowSays(file: FileKind, header: string, at: Places, line: string)
    requires Placed(header, at) && at.Within(|Header(header)|)
    requires ReadRow(file, at, |Header(header)|, Split(Trim(line), ',')).Ok?
    ensures Says(file, header, line, ReadRow(file, at, |Header(header)|, Split(Trim(line), ',')).value)
  {
  }

  lemma RowFails(file: FileKind, header: string, at: Places, line: string)
    requires Placed(header, at) && at.Within(|Header(header)|)
    requires ReadRow(file, at, |Header(header)|, Split(Trim(line), ',')).Err?
    ensures Fails(file, header, line, ReadRow(file, at, |Header(header)|, Split(Trim(line), ',')).error)
  {
    var f := Split(Trim(line), ',');
    if |f| >= |Header(header)| {
      assert ReadRow(file, at, |Header(header)|, f).error
        == Reason(file, Trim(f[at.name]), ToUpper(Trim(f[at.kind])), Trim(f[at.value]));
    }
  }

  ghost function Saying(file: FileKind, header: string): (string, CatRow) -> bool {
    (line, row) => Says(file, header, line, row)
  }

  ghost function Failing(file: FileKind, header: string): (string, CatError) -> bool {
    (line, e) => Fails(file, header, line, e)
  }

  function Named(name: string): CatRow -> bool {
    (row: CatRow) => row.name == name
  }

  function ItemOf(): CatRow -> Item {
    (row: CatRow) => row.item
  }

  ghost predicate NamesOnce(defs: seq<CatDef>) {
    forall i, j :: 0 <= i < j < |defs| ==> defs[i].name != defs[j].name
  }

  ghost predicate Names(defs: seq<CatDef>, name: string) {
    exists i :: 0 <= i < |defs| && defs[i].name == name
  }

  /** The rows gathered by category: each category once, with all its items in order. */
  ghost predicate Gathers(rows: seq<CatRow>, defs: seq<CatDef>) {
    && NamesOnce(defs)
    && (forall row :: row in rows ==> Names(defs, row.name))
    && forall d :: d in defs ==> Holds(rows, d)
  }

  /** Below a header every data line says one row, in order, and the rows are gathered; or the
      first one that does not is named by its number. */
  ghost predicate BodyMeans(header: string, says: (string, CatRow) -> bool, fails: (string, CatError) -> bool,
                            body: seq<string>, first: nat, rows: seq<CatRow>, res: Result<seq<CatDef>, At<CatError>>)
  {
    match res
    case Ok(defs) =>
      && Headed(header)
      && EachSays(says, body, rows) && rows != [] && Gathers(rows, defs)
    case Err(e) =>
      if e.error.MissingColumn? then e.line == 0 && Lacking(header, e.error.name)
      else if e.error.NoRows? then e.line == 0 && DataLines(body) == []
      else first <= e.line && FirstFails(says, fails, body, e.line - first, e.error)
  }

  /** The first data line of the file is its header; lines are counted from 1. */
  ghost predicate Meant(file: FileKind, lines: seq<string>, h: nat, rows: seq<CatRow>,
                        res: Result<seq<CatDef>, At<CatError>>)
  {
    if h >= |lines| then (forall l :: l in lines ==> !Data(l)) && res == Err(At(0, NoHeader))
    else
      && HeaderLine(lines, h)
      && BodyMeans(lines[h], Saying(file, lines[h]), Failing(file, lines[h]), lines[h + 1..], h + 2, rows, res)
  }

  lemma GatherStep(rows: seq<CatRow>, defs: seq<CatDef>, row: CatRow)
    requires Gathers(rows, defs)
    ensures Gathers(rows + [row], AddRow(defs, row))
  {
    var next := AddRow(defs, row);
    forall k | 0 <= k < |next|
      ensures Holds(rows + [row], next[k])
    {
      GatherOne(rows, defs, row, k);
    }
    AddKeepsNames(defs, row);
  }

  lemma AddKeepsNames(defs: seq<CatDef>, row: CatRow)
    requires NamesOnce(defs)
    ensures NamesOnce(AddRow(defs, row)) && Names(AddRow(defs, row), row.name)
    ensures forall name :: Names(defs, name) ==> Names(AddRow(defs, row), name)
  {
    var next, i := AddRow(defs, row), Find(defs, row.name);
    assert next[i].name == row.name;
    forall name | Names(defs, name)
      ensures Names(next, name)
    {
      var k :| 0 <= k < |defs| && defs[k].name == name;
      assert next[k].name == name;
    }
  }

  /** All the items of a name, in the order of their rows. */
  ghost predicate Holds(rows: seq<CatRow>, d: CatDef) {
    d.items != [] && d.items == Mapped(ItemOf(), Filter(Named(d.name), rows))
  }

  lemma GatherOther(rows: seq<CatRow>, row: CatRow, d: CatDef)
    requires Holds(rows, d) && d.name != row.name
    ensures Holds(rows + [row], d)
  {
    FilterLast(Named(d.name), rows, row);
  }

  lemma GatherMore(rows: seq<CatRow>, row: CatRow, before: seq<Item>)
    requires before == Mapped(ItemOf(), Filter(Named(row.name), rows))
    ensures Holds(rows + [row], CatDef(row.name, before + [row.item]))
  {
    FilterLast(Named(row.name), rows, row);
    MappedLast(ItemOf(), Filter(Named(row.name), rows), row);
  }

  lemma GatherOne(rows: seq<CatRow>, defs: seq<CatDef>, row: CatRow, k: nat)
    requires Gathers(rows, defs) && k < |AddRow(defs, row)|
    ensures Holds(rows + [row], AddRow(defs, row)[k])
  {
    var i := Find(defs, row.name);
    if k != i {
      assert Holds(rows, defs[k]) && defs[k].name != row.name;
      GatherOther(rows, row, defs[k]);
    } else if i < |defs| {
      assert Holds(rows, defs[i]);
      GatherMore(rows, row, defs[i].items);
    } else {
      NoneGathered(rows, defs, row.name);
      GatherMore(rows, row, []);
      assert [] + [row.item] == [row.item];
    }
  }

  lemma NoneGathered(rows: seq<CatRow>, defs: seq<CatDef>, name: string)
    requires Gathers(rows, defs) && forall j :: 0 <= j < |defs| ==> defs[j].name != name
    ensures Filter(Named(name), rows) == [] && Mapped(ItemOf(), Filter(Named(name), rows)) == []
  {
    forall r | r in rows
      ensures !Named(name)(r)
    {
      assert Names(defs, r.name);
    }
    FilterNone(Named(name), rows);
  }

  lemma {:induction false} GroupPlain(rows: seq<CatRow>)
    ensures Gathers(rows, Group(rows))
  {
    if rows != [] {
      var front, last := rows[..|rows| - 1], rows[|rows| - 1];
      assert rows == front + [last];
      GroupPlain(front);
      GatherStep(front, Group(front), last);
    }
  }

  lemma FaithfulReader(file: FileKind, header: string, at: Places)
    requires Locate(Header(header)) == Ok(at)
    ensures forall line ::
      ReadsFaithfully(Reader(file, at, |Header(header)|), Saying(file, header), Failing(file, header), line)
  {
    PlacesPlain(header, at);
    forall line
      ensures ReadsFaithfully(Reader(file, at, |Header(header)|), Saying(file, header), Failing(file, header), line)
    {
      if ReadRow(file, at, |Header(header)|, Split(Trim(line), ',')).Ok? {
        RowSays(file, header, at, line);
      } else {
        RowFails(file, header, at, line);
      }
    }
  }

  lemma ReasonsApart(file: FileKind, header: string)
    ensures forall line, e :: Failing(file, header)(line, e) ==> !e.MissingColumn? && !e.NoRows?
  {
  }

  lemma HeadPlain(header: string)
    ensures match Locate(Header(header))
      case Ok(_) => Headed(header)
      case Err(e) => e.MissingColumn? && Lacking(header, e.name)
  {
    LocatePlain(header);
  }

  lemma BodyMeant(header: string, read: seq<string> -> Result<CatRow, CatError>, says: (string, CatRow) -> bool,
                  fails: (string, CatError) -> bool, body: seq<string>, first: nat)
    returns (rows: seq<CatRow>)
    requires Headed(header) && forall line :: ReadsFaithfully(read, says, fails, line)
    requires forall line, e :: fails(line, e) ==> !e.MissingColumn? && !e.NoRows?
    ensures BodyMeans(header, says, fails, body, first, rows, GroupedOr(ReadRows(read, body, first)))
  {
    rows := [];
    BodyPlain(read, says, fails, body, first);
    if ReadRows(read, body, first).Ok? {
      rows := ReadRows(read, body, first).value;
      GroupPlain(rows);
    }
  }

  lemma HeadedMeant(file: FileKind, header: string, body: seq<string>, first: nat) returns (rows: seq<CatRow>)
    ensures BodyMeans(header, Saying(file, header), Failing(file, header), body, first, rows,
                      ParsedBody(file, Header(header), body, first))
  {
    rows := [];
    HeadPlain(header);
    if Locate(Header(header)).Ok? {
      var at := Locate(Header(header)).value;
      FaithfulReader(file, header, at);
      ReasonsApart(file, header);
      rows := BodyMeant(header, Reader(file, at, |Header(header)|), Saying(file, header), Failing(file, header),
                        body, first);
    }
  }

  /** What the parser makes of any text. */
  lemma ParsedPlain(file: FileKind, data: string)
    ensures exists h: nat, rows :: Meant(file, Lines(data), h, rows, Parsed(file, data))
  {
    var lines := Lines(data);
    var h := HeaderAt(lines);
    var rows: seq<CatRow> := [];
    HeaderAtPlain(lines);
    if h < |lines| {
      rows := HeadedMeant(file, lines[h], lines[h + 1..], h + 2);
    }
    assert Meant(file, lines, h, rows, Parsed(file, data));
  }
}
