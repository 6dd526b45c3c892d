/** The line grammar the CSV files share: a header found after blank and '#' lines, columns
    addressed by name, one comma-separated row a line. */
module Csv {
  import opened Wrappers
  import opened Text
  import opened Sorting

  function DropCrLf(s: string): string {
    if |s| >= 2 && s[0] == '\r' && s[1] == '\n' then ['\n'] + DropCrLf(s[2..])
    else if s == [] then []
    else [s[0]] + DropCrLf(s[1..])
  }

  function Lines(data: string): seq<string> {
    Split(DropCrLf(data), '\n')
  }

  predicate Skipped(line: string) {
    var t := Trim(line);
    t == [] || t[0] == '#'
  }

  /** The first line that is neither blank nor a comment; past the end when there is none. */
  function HeaderAt(lines: seq<string>): (start: nat)
    ensures start <= |lines|
    ensures forall i :: 0 <= i < start ==> Skipped(lines[i])
    ensures start < |lines| ==> !Skipped(lines[start])
  {
    if lines == [] || !Skipped(lines[0]) then 0 else 1 + HeaderAt(lines[1..])
  }

  /** The line holds something, and not a remark. */
  predicate Data(line: string) {
    Trim(line) != "" && Trim(line)[0] != '#'
  }

  method FindHeader(lines: seq<string>) returns (start: nat)
    ensures start == HeaderAt(lines)
    ensures start <= |lines| && (forall i :: 0 <= i < start ==> !Data(lines[i]))
    ensures start < |lines| ==> Data(lines[start])
  {
    start := 0;
    while start < |lines| && Skipped(lines[start])
      invariant start <= |lines|
      invariant HeaderAt(lines) == start + HeaderAt(lines[start..])
    {
      start := start + 1;
    }
  }

  function Header(line: string): seq<string> {
    Split(ToLower(Trim(line)), ',')
  }

  /** Where each named column stands; of two columns of one name the later counts. */
  function Index(header: seq<string>): (idx: map<string, nat>)
    ensures forall c :: c in idx ==> idx[c] < |header| && Trim(header[idx[c]]) == c
  {
    if header == [] then map[]
    else
      var n := |header| - 1;
      Index(header[..n])[Trim(header[n]) := n]
  }

  method IndexColumns(header: seq<string>) returns (idx: map<string, nat>)
    ensures idx == Index(header)
  {
    idx := map[];
    for i := 0 to |header|
      invariant idx == Index(header[..i])
    {
      assert header[..i + 1][..i] == header[..i];
      idx := idx[Trim(header[i]) := i];
    }
    assert header[..|header|] == header;
  }

  function Fields(line: string): seq<string> {
    Split(Trim(line), ',')
  }

  /** Reads the data lines in order, up to the first row `read` rejects; `n` is the number of
      the first of them in the file. */
  function ReadRows<T, E>(read: seq<string> -> Result<T, E>, lines: seq<string>, n: nat): Result<seq<T>, At<E>> {
    if lines == [] then Ok([])
    else if Skipped(lines[0]) then ReadRows(read, lines[1..], n + 1)
    else
      match read(Fields(lines[0]))
      case Err(e) => Err(At(n, e))
      case Ok(row) =>
        match ReadRows(read, lines[1..], n + 1)
        case Err(e) => Err(e)
        case Ok(rows) => Ok([row] + rows)
  }

  /** What the rows read so far leave of the whole reading. */
  function Resume<T, E>(done: seq<T>, rest: Result<seq<T>, E>): Result<seq<T>, E> {
    match rest
    case Err(e) => Err(e)
    case Ok(rows) => Ok(done + rows)
  }

  /** One more data line read. */
  lemma ReadStep<T, E>(read: seq<string> -> Result<T, E>, lines: seq<string>, first: nat, n: nat, done: seq<T>)
    requires n < |lines|
    ensures var rest, next := ReadRows(read, lines[n..], first + n), ReadRows(read, lines[n + 1..], first + n + 1);
      && (Skipped(lines[n]) ==> rest == next)
      && (!Skipped(lines[n]) ==>
            match read(Fields(lines[n]))
            case Err(e) => Resume(done, rest) == Err(At(first + n, e))
            case Ok(row) => Resume(done, rest) == Resume(done + [row], next))
  {
    assert lines[n..][1..] == lines[n + 1..];
    if !Skipped(lines[n]) && read(Fields(lines[n])).Ok? {
      match ReadRows(read, lines[n + 1..], first + n + 1) {
        case Err(e) =>
        case Ok(rows) =>
          var row := read(Fields(lines[n])).value;
          assert done + ([row] + rows) == (done + [row]) + rows;
      }
    }
  }

  method ReadLines<T, E>(read: seq<string> -> Result<T, E>, lines: seq<string>, first: nat)
    returns (res: Result<seq<T>, At<E>>)
    ensures res == ReadRows(read, lines, first)
  {
    var out: seq<T> := [];
    ResumeEmpty(ReadRows(read, lines, first));
    assert lines[0..] == lines;
    for n := 0 to |lines|
      invariant ReadRows(read, lines, first) == Resume(out, ReadRows(read, lines[n..], first + n))
    {
      ReadStep(read, lines, first, n, out);
      if !Skipped(lines[n]) {
        match read(Fields(lines[n])) {
          case Err(e) =>
            return Err(At(first + n, e));
          case Ok(row) =>
            out := out + [row];
        }
      }
    }
    assert lines[|lines|..] == [] && out + [] == out;
    return Ok(out);
  }

  lemma ResumeEmpty<T, E>(rest: Result<seq<T>, E>)
    ensures Resume([], rest) == rest
  {
    if rest.Ok? {
      assert [] + rest.value == rest.value;
    }
  }

  /** Every row of a reading was read from some fields. */
  lemma {:induction false} RowsWereRead<T, E>(read: seq<string> -> Result<T, E>, lines: seq<string>, n: nat, row: T)
    requires ReadRows(read, lines, n).Ok? && row in ReadRows(read, lines, n).value
    ensures exists f :: read(f) == Ok(row)
  {
    if Skipped(lines[0]) || row != read(Fields(lines[0])).value {
      RowsWereRead(read, lines[1..], n + 1, row);
    } else {
      assert read(Fields(lines[0])) == Ok(row);
    }
  }

  /** A reading is refused for the first line whose fields are: that line's number, and the
      reason its fields were. */
  lemma {:induction false} ErrorWasRead<T, E>(read: seq<string> -> Result<T, E>, lines: seq<string>, n: nat)
    returns (i: nat)
    requires ReadRows(read, lines, n).Err?
    ensures i < |lines| && !Skipped(lines[i]) && read(Fields(lines[i])).Err?
    ensures ReadRows(read, lines, n).error == At(n + i, read(Fields(lines[i])).error)
    ensures forall j :: 0 <= j < i ==> Skipped(lines[j]) || read(Fields(lines[j])).Ok?
  {
    if Skipped(lines[0]) || read(Fields(lines[0])).Ok? {
      var k := ErrorWasRead(read, lines[1..], n + 1);
      i := k + 1;
      forall j | 0 <= j < i
        ensures Skipped(lines[j]) || read(Fields(lines[j])).Ok?
      {
        assert j > 0 ==> lines[1..][j - 1] == lines[j];
      }
    } else {
      i := 0;
    }
  }

  // ---- level cells ----

  const LEVEL_SEPARATORS := {';', '|', ' ', '\t'}

  function TrimmedParts(parts: seq<string>): seq<string> {
    if parts == [] then []
    else
      var p, before := Trim(parts[|parts| - 1]), TrimmedParts(parts[..|parts| - 1]);
      if p != [] then before + [p] else before
  }

  /** The levels of a ';'-list; '|' and blanks separate as well, empty parts are dropped. */
  function LevelCell(cell: string): seq<string> {
    TrimmedParts(SplitOn(cell, LEVEL_SEPARATORS))
  }

  predicate NonBlank(s: string) {
    Trim(s) != ""
  }

  lemma {:induction false} TrimmedPartsPlain(parts: seq<string>)
    ensures TrimmedParts(parts) == Mapped(Trim, Filter(NonBlank, parts))
  {
    if parts != [] {
      var front, last := parts[..|parts| - 1], parts[|parts| - 1];
      TrimmedPartsPlain(front);
      MappedConcat(Trim, Filter(NonBlank, front), if Trim(last) != "" then [last] else []);
      MappedAt(Trim, [last]);
    }
  }

  /** The parts between semicolons, bars, spaces and tabs, trimmed, the blank ones left out. */
  lemma LevelCellPlain(cell: string)
    ensures LevelCell(cell) == Mapped(Trim, Filter(NonBlank, SplitOn(cell, {';', '|', ' ', '\t'})))
  {
    TrimmedPartsPlain(SplitOn(cell, LEVEL_SEPARATORS));
  }

  method SplitLevelCell(cell: string) returns (out: seq<string>)
    ensures out == LevelCell(cell)
    ensures out == Mapped(Trim, Filter(NonBlank, SplitOn(cell, {';', '|', ' ', '\t'})))
  {
    LevelCellPlain(cell);
    var raw := SplitOn(cell, LEVEL_SEPARATORS);
    out := [];
    for i := 0 to |raw|
      invariant out == TrimmedParts(raw[..i])
    {
      assert raw[..i + 1][..i] == raw[..i];
      var s := Trim(raw[i]);
      if s != [] {
        out := out + [s];
      }
    }
    assert raw[..|raw|] == raw;
  }

  predicate PlainLevel(level: string) {
    level != [] && Lacks(level, LEVEL_SEPARATORS + {',', '\n'}) && Trimmed(level)
  }

  lemma {:induction false} TrimmedPartsAlone(parts: seq<string>)
    requires forall p :: p in parts ==> p != [] && Trimmed(p)
    ensures TrimmedParts(parts) == parts
  {
    if parts != [] {
      var front, last := parts[..|parts| - 1], parts[|parts| - 1];
      assert parts == front + [last];
      assert last in parts && Trim(last) == last;
      assert forall p :: p in front ==> p in parts;
      TrimmedPartsAlone(front);
    }
  }

  /** A printed level list is one plain field and reads back as the list. */
  lemma LevelCellReads(levels: seq<string>)
    requires levels != [] && forall l :: l in levels ==> PlainLevel(l)
    ensures LevelCell(Join(levels, ';')) == levels
    ensures PlainField(Join(levels, ';'))
  {
    forall l | l in levels
      ensures Lacks(l, LEVEL_SEPARATORS) && ',' !in l && '\n' !in l
    {
      assert PlainLevel(l);
    }
    SplitJoin(levels, ';', LEVEL_SEPARATORS);
    TrimmedPartsAlone(levels);
    JoinTrimmed(levels, ';');
    JoinLacks(levels, ';', ',');
    JoinLacks(levels, ';', '\n');
  }

  // ---- printing ----

  function Unlines(lines: seq<string>): string {
    if lines == [] then [] else Unlines(lines[..|lines| - 1]) + lines[|lines| - 1] + ['\n']
  }

  /** Each line followed by a line feed. */
  lemma {:induction false} UnlinesTail(line: string, lines: seq<string>)
    ensures Unlines([]) == "" && Unlines([line] + lines) == line + "\n" + Unlines(lines)
  {
    if lines == [] {
      assert [line] + lines == [line];
      OneLine(line);
    } else {
      var front, last := lines[..|lines| - 1], lines[|lines| - 1];
      UnlinesTail(line, front);
      assert [line] + lines == ([line] + front) + [last];
      UnlinesAdd([line] + front, last);
      assert (line + "\n" + Unlines(front)) + last + ['\n'] == line + "\n" + (Unlines(front) + last + ['\n']);
    }
  }

  lemma UnlinesAdd(lines: seq<string>, line: string)
    ensures Unlines(lines + [line]) == Unlines(lines) + line + ['\n']
  {
    assert (lines + [line])[..|lines|] == lines;
  }

  lemma OneLine(line: string)
    ensures Unlines([line]) == line + "\n"
  {
    assert [line][..0] == [];
  }

  /** A printed line: no line break inside, none half-written at its end. */
  predicate PlainLine(line: string) {
    '\n' !in line && (line != [] ==> line[|line| - 1] != '\r')
  }

  lemma {:induction false} DropKeepsLine(line: string, rest: string)
    requires PlainLine(line)
    ensures DropCrLf(line + ['\n'] + rest) == line + ['\n'] + DropCrLf(rest)
  {
    var s := line + ['\n'] + rest;
    if line == [] {
      assert s[1..] == rest;
    } else {
      assert s[1..] == line[1..] + ['\n'] + rest;
      assert line[1..] != [] ==> line[1..][|line[1..]| - 1] == line[|line| - 1];
      DropKeepsLine(line[1..], rest);
      assert |line| > 1 ==> s[1] == line[1];
      assert [line[0]] + line[1..] == line;
      assert [line[0]] + (line[1..] + ['\n'] + DropCrLf(rest)) == line + ['\n'] + DropCrLf(rest);
    }
  }

  lemma {:induction false} LinesTail(lines: seq<string>, tail: string)
    requires forall l :: l in lines ==> PlainLine(l)
    ensures Lines(Unlines(lines) + tail) == lines + Lines(tail)
  {
    if lines == [] {
      assert Unlines(lines) + tail == tail;
      assert lines + Lines(tail) == Lines(tail);
    } else {
      var front, last := lines[..|lines| - 1], lines[|lines| - 1];
      assert lines == front + [last];
      LinesTail(front, last + ['\n'] + tail);
      assert Unlines(lines) + tail == Unlines(front) + (last + ['\n'] + tail);
      DropKeepsLine(last, tail);
      SplitFirst(last, '\n', DropCrLf(tail), {'\n'});
      assert Lines(last + ['\n'] + tail) == [last] + Lines(tail);
      assert front + ([last] + Lines(tail)) == lines + Lines(tail);
    }
  }

  /** A printed file splits back into its lines. */
  lemma LinesOfFile(lines: seq<string>)
    requires forall l :: l in lines ==> PlainLine(l)
    ensures Lines(Unlines(lines)) == lines + [""]
  {
    LinesTail(lines, "");
    assert Unlines(lines) + "" == Unlines(lines);
  }

  /** A field that survives a row: no separator, no line break, no outer white space. */
  predicate PlainField(f: string) {
    Lacks(f, {',', '\n'}) && Trimmed(f)
  }

  /** A row whose printed form reads back as its fields. */
  predicate PlainRow(fields: seq<string>) {
    && |fields| >= 2
    && fields[0] != [] && fields[0][0] != '#'
    && forall f :: f in fields ==> PlainField(f)
  }

  lemma {:induction false} JoinEnds(fields: seq<string>)
    requires |fields| >= 2 && forall f :: f in fields ==> Trimmed(f)
    ensures var line := Join(fields, ','); line != [] && !IsSpace(line[|line| - 1])
  {
    assert fields[1] in fields;
    if |fields| == 2 {
      var line := Join(fields, ',');
      assert Join(fields[1..], ',') == fields[1];
      assert line == fields[0] + [','] + fields[1];
    } else {
      assert forall f :: f in fields[1..] ==> f in fields;
      JoinEnds(fields[1..]);
    }
  }

  lemma PlainRowReads(fields: seq<string>)
    requires PlainRow(fields)
    ensures var line := Join(fields, ',');
      PlainLine(line) && !Skipped(line) && Fields(line) == fields
  {
    var line := Join(fields, ',');
    JoinEnds(fields);
    assert fields[0] in fields;
    assert line[0] == fields[0][0];
    assert Trim(line) == line;
    forall f | f in fields
      ensures '\n' !in f && Lacks(f, {','})
    {
      assert PlainField(f);
    }
    JoinLacks(fields, ',', '\n');
    SplitJoin(fields, ',', {','});
  }

  /** Printed lines are read one by one: the reading succeeds exactly when each line does. */
  lemma {:induction false} ReadsAll<T, E>(read: seq<string> -> Result<T, E>, lines: seq<string>, n: nat)
    requires forall i :: 0 <= i < |lines| ==> !Skipped(lines[i])
    ensures ReadRows(read, lines + [""], n).Ok? <==> forall i :: 0 <= i < |lines| ==> read(Fields(lines[i])).Ok?
    ensures ReadRows(read, lines + [""], n).Ok? ==>
      var rows := ReadRows(read, lines + [""], n).value;
      |rows| == |lines| && forall i :: 0 <= i < |lines| ==> read(Fields(lines[i])) == Ok(rows[i])
  {
    if lines == [] {
      assert (lines + [""])[1..] == [];
      assert Trim("") == "";
    } else {
      assert (lines + [""])[1..] == lines[1..] + [""];
      ReadsAll(read, lines[1..], n + 1);
    }
  }

  /** Rows printed line by line are the rows read back. */
  lemma ReadsBack<T, E>(read: seq<string> -> Result<T, E>, lines: seq<string>, rows: seq<T>, n: nat)
    requires |lines| == |rows|
    requires forall i :: 0 <= i < |rows| ==> !Skipped(lines[i]) && read(Fields(lines[i])) == Ok(rows[i])
    ensures ReadRows(read, lines + [""], n) == Ok(rows)
  {
    ReadsAll(read, lines, n);
    assert ReadRows(read, lines + [""], n).value == rows;
  }

  /** Three fields and what follows them. */
  function Led(a: string, b: string, c: string, tail: string): string {
    a + [','] + (b + [','] + (c + [','] + tail))
  }

  lemma LedFlat(a: string, b: string, c: string, tail: string)
    ensures Led(a, b, c, tail) == a + [','] + b + [','] + c + [','] + tail
  {
  }

  lemma SplitLed(a: string, b: string, c: string, tail: string)
    requires Lacks(a, {','}) && Lacks(b, {','}) && Lacks(c, {','})
    ensures Split(Led(a, b, c, tail), ',') == [a, b, c] + Split(tail, ',')
  {
    SplitFirst(c, ',', tail, {','});
    SplitFirst(b, ',', c + [','] + tail, {','});
    SplitFirst(a, ',', b + [','] + (c + [','] + tail), {','});
    assert [a] + ([b] + ([c] + Split(tail, ','))) == [a, b, c] + Split(tail, ',');
  }

  lemma TrimLed(a: string, b: string, c: string, tail: string)
    requires a != [] && !IsSpace(a[0])
    ensures Trim(Led(a, b, c, tail)) == Led(a, b, c, TrimRight(tail))
  {
    var head := a + [','] + b + [','] + c + [','];
    LedFlat(a, b, c, tail);
    LedFlat(a, b, c, TrimRight(tail));
    assert Led(a, b, c, tail) == head + tail && (head + tail)[0] == a[0];
    TrimRightTail(head, tail);
  }

  /** A printed line ending in free text: its leading fields read back whatever the text is. */
  lemma FreeTextRowReads(a: string, b: string, c: string, tail: string)
    requires a != [] && a[0] != '#' && PlainField(a) && PlainField(b) && PlainField(c)
    ensures var line := Led(a, b, c, tail);
      !Skipped(line) && Fields(line) == [a, b, c] + Split(TrimRight(tail), ',')
  {
    TrimLed(a, b, c, tail);
    SplitLed(a, b, c, TrimRight(tail));
    assert Led(a, b, c, TrimRight(tail))[0] == a[0];
  }

  lemma {:induction false} TrimRightTail(head: string, tail: string)
    requires head != [] && !IsSpace(head[|head| - 1])
    ensures TrimRight(head + tail) == head + TrimRight(tail)
  {
    if tail != [] && IsSpace(tail[|tail| - 1]) {
      assert (head + tail)[..|head + tail| - 1] == head + tail[..|tail| - 1];
      TrimRightTail(head, tail[..|tail| - 1]);
    }
  }

  predicate NameChar(c: char) {
    'a' <= c <= 'z' || c == '_'
  }

  predicate PlainName(name: string) {
    name != [] && forall i :: 0 <= i < |name| ==> NameChar(name[i])
  }

  /** Column names as the printers write them. */
  predicate PlainNames(names: seq<string>) {
    |names| >= 2 && forall n :: n in names ==> PlainName(n)
  }

  lemma NamesArePlain(names: seq<string>)
    requires PlainNames(names)
    ensures PlainRow(names)
  {
    assert names[0] in names;
    forall n | n in names
      ensures PlainField(n)
    {
      assert NameChar(n[0]) && NameChar(n[|n| - 1]);
    }
    assert NameChar(names[0][0]);
  }

  lemma {:induction false} IndexOnlyNames(names: seq<string>, c: string)
    requires c in Index(names) && forall n :: n in names ==> Trimmed(n)
    ensures c in names
  {
    var front, last := names[..|names| - 1], names[|names| - 1];
    assert last in names && Trim(last) == last;
    if c != last {
      IndexOnlyNames(front, c);
    }
  }

  lemma {:induction false} IndexOfName(names: seq<string>, i: nat)
    requires i < |names| && forall j :: i < j < |names| ==> names[j] != names[i]
    requires forall n :: n in names ==> Trimmed(n)
    ensures names[i] in Index(names) && Index(names)[names[i]] == i
  {
    var front, last := names[..|names| - 1], names[|names| - 1];
    assert last in names && Trim(last) == last;
    if i < |names| - 1 {
      assert front[i] == names[i];
      IndexOfName(front, i);
    }
  }

  /** A printed header reads back as its column names, each at its place. */
  lemma HeaderReads(names: seq<string>)
    requires PlainNames(names)
    ensures var line := Join(names, ',');
      PlainLine(line) && !Skipped(line) && Header(line) == names
  {
    var line := Join(names, ',');
    NamesArePlain(names);
    PlainRowReads(names);
    JoinEnds(names);
    assert names[0] in names;
    assert Trim(line) == line;
    forall i | 0 <= i < |line|
      ensures LowerChar(line[i]) == line[i]
    {
      if 'A' <= line[i] <= 'Z' {
        forall n | n in names
          ensures line[i] !in n
        {
          assert PlainName(n);
        }
        JoinLacks(names, ',', line[i]);
      }
    }
    assert ToLower(line) == line;
  }

  // ---- the same in plain terms ----

  /** The last column of a name, case and outer white space of its heading aside. */
  ghost predicate StandsAt(line: string, name: string, i: nat) {
    var cells := Split(ToLower(Trim(line)), ',');
    i < |cells| && Trim(cells[i]) == name && forall j :: i < j < |cells| ==> Trim(cells[j]) != name
  }

  lemma {:induction false} IndexPlain(cells: seq<string>, name: string)
    ensures name in Index(cells) <==> exists i :: 0 <= i < |cells| && Trim(cells[i]) == name
    ensures name in Index(cells) ==>
      var i := Index(cells)[name];
      i < |cells| && Trim(cells[i]) == name && forall j :: i < j < |cells| ==> Trim(cells[j]) != name
  {
    if cells != [] {
      var front, last := cells[..|cells| - 1], cells[|cells| - 1];
      IndexPlain(front, name);
      assert cells == front + [last];
      if Trim(last) == name {
        assert cells[|cells| - 1] == last;
      } else {
        assert forall j :: 0 <= j < |front| ==> cells[j] == front[j];
      }
    }
  }

  /** A header has the column exactly where its heading stands last. */
  lemma HeaderPlain(line: string, name: string)
    ensures name in Index(Header(line)) <==> exists i: nat :: StandsAt(line, name, i)
    ensures forall i: nat :: StandsAt(line, name, i) ==> name in Index(Header(line)) && Index(Header(line))[name] == i
  {
    var cells := Header(line);
    IndexPlain(cells, name);
    if name in Index(cells) {
      assert StandsAt(line, name, Index(cells)[name]);
    }
  }

  /** The lines that hold data, in order. */
  function DataLines(lines: seq<string>): seq<string> {
    Filter(Data, lines)
  }

  lemma DataLinesHead(lines: seq<string>)
    requires lines != []
    ensures DataLines(lines) == (if Data(lines[0]) then [lines[0]] else []) + DataLines(lines[1..])
  {
    assert lines == [lines[0]] + lines[1..];
    FilterConcat(Data, [lines[0]], lines[1..]);
    FilterLast(Data, [], lines[0]);
    assert [] + [lines[0]] == [lines[0]];
  }

  lemma ReadRowsHead<T, E>(read: seq<string> -> Result<T, E>, lines: seq<string>, n: nat)
    requires lines != [] && ReadRows(read, lines, n).Ok?
    ensures ReadRows(read, lines[1..], n + 1).Ok?
    ensures var rest := ReadRows(read, lines[1..], n + 1).value;
      if Data(lines[0]) then
        read(Fields(lines[0])).Ok? && ReadRows(read, lines, n).value == [read(Fields(lines[0])).value] + rest
      else ReadRows(read, lines, n).value == rest
  {
  }

  /** The lines read one by one, off their trimmed fields. */
  ghost predicate AllRead<T, E>(read: seq<string> -> Result<T, E>, lines: seq<string>, rows: seq<T>) {
    |rows| == |lines| && forall i :: 0 <= i < |rows| ==> read(Split(Trim(lines[i]), ',')) == Ok(rows[i])
  }

  lemma AllReadOn<T, E>(read: seq<string> -> Result<T, E>, line: string, row: T, lines: seq<string>, rows: seq<T>)
    requires AllRead(read, lines, rows) && read(Fields(line)) == Ok(row)
    ensures AllRead(read, [line] + lines, [row] + rows)
  {
  }

  /** A reading that succeeds has one row for every data line. */
  lemma {:induction false} ReadRowsPlain<T, E>(read: seq<string> -> Result<T, E>, lines: seq<string>, n: nat)
    requires ReadRows(read, lines, n).Ok?
    ensures AllRead(read, DataLines(lines), ReadRows(read, lines, n).value)
  {
    if lines == [] {
      assert DataLines(lines) == [];
    } else {
      var rest := DataLines(lines[1..]);
      DataLinesHead(lines);
      ReadRowsHead(read, lines, n);
      ReadRowsPlain(read, lines[1..], n + 1);
      if Data(lines[0]) {
        var row := read(Fields(lines[0])).value;
        AllReadOn(read, lines[0], row, rest, ReadRows(read, lines[1..], n + 1).value);
      } else {
        assert [] + rest == rest;
      }
    }
  }

  /** A reading that fails names the first data line it cannot read, and what is wrong there. */
  lemma ReadErrorPlain<T, E>(read: seq<string> -> Result<T, E>, lines: seq<string>, n: nat) returns (i: nat)
    requires ReadRows(read, lines, n).Err?
    ensures i < |lines| && Data(lines[i]) && read(Split(Trim(lines[i]), ',')).Err?
    ensures ReadRows(read, lines, n).error == At(n + i, read(Split(Trim(lines[i]), ',')).error)
    ensures forall j :: 0 <= j < i && Data(lines[j]) ==> read(Split(Trim(lines[j]), ',')).Ok?
  {
    i := ErrorWasRead(read, lines, n);
  }

  /** The lines of a text whose line ends are, each, a line feed with or without a carriage
      return before it. */
  function TextOf(lines: seq<string>, crs: seq<bool>): string
    requires |crs| == |lines|
  {
    if lines == [] then []
    else lines[0] + (if crs[0] then ['\r', '\n'] else ['\n']) + TextOf(lines[1..], crs[1..])
  }

  lemma {:induction false} DropsReturn(line: string, rest: string)
    requires '\n' !in line && '\r' !in line
    ensures DropCrLf(line + ['\r', '\n'] + rest) == line + ['\n'] + DropCrLf(rest)
  {
    var s := line + ['\r', '\n'] + rest;
    if line == [] {
      assert s[2..] == rest;
    } else {
      assert s[1..] == line[1..] + ['\r', '\n'] + rest;
      DropsReturn(line[1..], rest);
      assert s[0] == line[0] && line[0] in line;
      assert [line[0]] + line[1..] == line;
      assert [line[0]] + (line[1..] + ['\n'] + DropCrLf(rest)) == line + ['\n'] + DropCrLf(rest);
    }
  }

  lemma {:induction false} LinesPlain(lines: seq<string>, crs: seq<bool>)
    requires |crs| == |lines| && forall l :: l in lines ==> '\n' !in l && '\r' !in l
    ensures Lines(TextOf(lines, crs)) == lines + [""]
  {
    if lines != [] {
      var first, rest := lines[0], TextOf(lines[1..], crs[1..]);
      assert first in lines && forall l :: l in lines[1..] ==> l in lines;
      LinesPlain(lines[1..], crs[1..]);
      if crs[0] {
        DropsReturn(first, rest);
      } else {
        DropKeepsLine(first, rest);
      }
      SplitFirst(first, '\n', DropCrLf(rest), {'\n'});
      assert [first] + (lines[1..] + [""]) == lines + [""];
    }
  }

  ghost predicate HasColumn(header: string, name: string) {
    exists i: nat :: StandsAt(header, name, i)
  }

  lemma StandsOnce(header: string, name: string, i: nat)
    requires StandsAt(header, name, i)
    ensures forall j: nat :: StandsAt(header, name, j) ==> j == i
  {
  }

  /** The header is line `h`. */
  ghost predicate HeaderLine(lines: seq<string>, h: nat) {
    h < |lines| && Data(lines[h]) && forall i :: 0 <= i < h ==> !Data(lines[i])
  }

  lemma HeaderAtPlain(lines: seq<string>)
    ensures var h := HeaderAt(lines); if h < |lines| then HeaderLine(lines, h) else forall l :: l in lines ==> !Data(l)
  {
  }

  /** Every data line says one row, in order. */
  ghost predicate EachSays<T>(says: (string, T) -> bool, lines: seq<string>, rows: seq<T>) {
    |rows| == |DataLines(lines)| && forall i :: 0 <= i < |rows| ==> says(DataLines(lines)[i], rows[i])
  }

  /** Line `i` is the first data line that says no row, and why. */
  ghost predicate FirstFails<T(!new), E>(says: (string, T) -> bool, fails: (string, E) -> bool, lines: seq<string>,
                                         i: nat, e: E)
  {
    && i < |lines| && Data(lines[i]) && fails(lines[i], e)
    && forall j :: 0 <= j < i && Data(lines[j]) ==> exists row :: says(lines[j], row)
  }

  ghost predicate ReadsFaithfully<T, E>(read: seq<string> -> Result<T, E>, says: (string, T) -> bool,
                                        fails: (string, E) -> bool, line: string)
  {
    var res := read(Split(Trim(line), ','));
    if res.Ok? then says(line, res.value) else fails(line, res.error)
  }

  /** A body read by a reader that is faithful to every line. */
  lemma BodyPlain<T(!new), E>(read: seq<string> -> Result<T, E>, says: (string, T) -> bool,
                              fails: (string, E) -> bool, lines: seq<string>, n: nat)
    requires forall line :: ReadsFaithfully(read, says, fails, line)
    ensures ReadRows(read, lines, n).Ok? ==> EachSays(says, lines, ReadRows(read, lines, n).value)
    ensures ReadRows(read, lines, n).Err? ==>
      var e := ReadRows(read, lines, n).error;
      n <= e.line && FirstFails(says, fails, lines, e.line - n, e.error)
  {
    if ReadRows(read, lines, n).Ok? {
      ReadRowsPlain(read, lines, n);
      forall i | 0 <= i < |DataLines(lines)|
        ensures says(DataLines(lines)[i], ReadRows(read, lines, n).value[i])
      {
        assert ReadsFaithfully(read, says, fails, DataLines(lines)[i]);
      }
    } else {
      var i := ReadErrorPlain(read, lines, n);
      assert ReadsFaithfully(read, says, fails, lines[i]);
      forall j | 0 <= j < i && Data(lines[j])
        ensures exists row :: says(lines[j], row)
      {
        assert ReadsFaithfully(read, says, fails, lines[j]);
      }
    }
  }

  /** A plain field has no comma and no line feed, and no white space at either end. */
  lemma PlainFieldIff(f: string)
    ensures PlainField(f) <==>
      ',' !in f && '\n' !in f && (f != "" ==> f[0] !in WHITE && f[|f| - 1] !in WHITE)
  {
  }

  /** A plain level is a plain field of something, without the separators of a level cell. */
  lemma PlainLevelIff(level: string)
    ensures PlainLevel(level) <==>
      PlainField(level) && level != "" && forall c :: c in level ==> c !in {';', '|', ' ', '\t'}
  {
  }
}
