/** The lock parser asks for three fields and addresses columns by their place in the header:
    when it addresses a field that is not there. */
module LockColumns {
  import opened Wrappers
  import opened Text
  import opened Csv
  import opened LockFile

  predicate FirstThree(at: Places) {
    at.id < 3 && at.state < 3 && at.levels < 3
  }

  lemma RowSafe(at: Places, f: seq<string>)
    requires FirstThree(at)
    ensures ReadRow(at, f) != Err(OutOfRange)
  {
  }

  /** A line of three fields, one character each. */
  function ThreeFields(): string {
    Join(["x", "y", "z"], ',')
  }

  lemma ThreeFieldsRead()
    ensures PlainLine(ThreeFields()) && !Skipped(ThreeFields()) && Fields(ThreeFields()) == ["x", "y", "z"]
  {
    PlainRowReads(["x", "y", "z"]);
  }

  lemma ShortLineFails(at: Places, rest: seq<string>, n: nat)
    requires !FirstThree(at)
    ensures ReadRows(Reader(at), [ThreeFields()] + rest, n) == Err(At(n, OutOfRange))
  {
    ThreeFieldsRead();
    assert ([ThreeFields()] + rest)[0] == ThreeFields();
  }

  predicate Panics<T>(res: Result<T, At<LockError>>) {
    res.Err? && res.error.error == OutOfRange
  }

  lemma BodySafe(at: Places, body: seq<string>, n: nat)
    requires FirstThree(at)
    ensures !Panics(ReadRows(Reader(at), body, n))
  {
    if ReadRows(Reader(at), body, n).Err? {
      var i := ErrorWasRead(Reader(at), body, n);
      RowSafe(at, Fields(body[i]));
    }
  }

  /** No body below a header makes the parser address a missing field exactly when the three
      needed columns are the first three of the header. */
  lemma BodySafeIff(side: Side, header: seq<string>, first: nat)
    requires Locate(side, header).Ok?
    ensures (forall body :: !Panics(ParsedBody(side, header, body, first))) <==> FirstThree(Locate(side, header).value)
  {
    var at := Locate(side, header).value;
    if FirstThree(at) {
      forall body
        ensures !Panics(ParsedBody(side, header, body, first))
      {
        BodySafe(at, body, first);
      }
    } else {
      ShortLineFails(at, [], first);
      assert Panics(ParsedBody(side, header, [ThreeFields()] + [], first));
    }
  }

  // ---- a file ----

  /** Three columns of other names before the needed ones. */
  function LateColumns(): seq<string> {
    ["a", "b", "c", "dest", "state", "levels"]
  }

  lemma LateNames()
    ensures PlainNames(LateColumns()) && forall n :: n in LateColumns() ==> Trimmed(n)
  {
    assert PlainName("a") && PlainName("b") && PlainName("c") && PlainName("dest") && PlainName("state")
      && PlainName("levels");
    assert Trimmed("a") && Trimmed("b") && Trimmed("c") && Trimmed("dest") && Trimmed("state") && Trimmed("levels");
  }

  lemma LateLocated()
    ensures Locate(Destination, LateColumns()).Ok? && !FirstThree(Locate(Destination, LateColumns()).value)
  {
    LateNames();
    assert |"dest"| == 4 && |"state"| == 5 && |"levels"| == 6;
    IndexOfName(LateColumns(), 3);
    IndexOfName(LateColumns(), 4);
    IndexOfName(LateColumns(), 5);
  }

  /** A file of a plain header and one data line. */
  lemma OneLineFile(side: Side, names: seq<string>, line: string)
    requires PlainNames(names) && PlainLine(line)
    ensures Parsed(side, Unlines([Join(names, ','), line])) == ParsedBody(side, names, [line, ""], 2)
  {
    var lines := [Join(names, ','), line];
    HeaderReads(names);
    LinesOfFile(lines);
    var all := lines + [""];
    assert all[0] == Join(names, ',') && all[1..] == [line, ""];
    assert HeaderAt(all) == 0;
  }

  lemma LateFileFails(side: Side, names: seq<string>)
    requires PlainNames(names) && Locate(side, names).Ok? && !FirstThree(Locate(side, names).value)
    ensures Parsed(side, Unlines([Join(names, ','), ThreeFields()])) == Err(At(2, OutOfRange))
  {
    ThreeFieldsRead();
    OneLineFile(side, names, ThreeFields());
    ShortLineFails(Locate(side, names).value, [""], 2);
    assert [ThreeFields()] + [""] == [ThreeFields(), ""];
  }

  lemma JoinFirst(a: string, rest: seq<string>)
    requires rest != []
    ensures Join([a] + rest, ',') == a + "," + Join(rest, ',')
  {
    assert ([a] + rest)[1..] == rest;
  }

  lemma JoinSix(a: string, b: string, c: string, d: string, e: string, f: string)
    ensures Join([a, b, c, d, e, f], ',') == a + "," + (b + "," + (c + "," + (d + "," + e + "," + f)))
  {
    JoinThree(d, e, f, ',');
    JoinFirst(c, [d, e, f]);
    JoinFirst(b, [c] + [d, e, f]);
    JoinFirst(a, [b] + ([c] + [d, e, f]));
    assert [a] + ([b] + ([c] + [d, e, f])) == [a, b, c, d, e, f];
  }

  lemma NeededText()
    ensures "dest" + "," + "state" + "," + "levels" == "dest,state,levels"
  {
    assert "dest" + "," == "dest," && "dest," + "state" == "dest,state" && "dest,state" + "," == "dest,state,";
  }

  lemma HeaderText(needed: string)
    requires needed == "dest,state,levels"
    ensures "a" + "," + ("b" + "," + ("c" + "," + needed)) == "a,b,c,dest,state,levels"
  {
    assert "c" + "," + needed == "c," + needed;
    assert "b" + "," + ("c," + needed) == "b,c," + needed;
  }

  lemma LateFileText()
    ensures Join(LateColumns(), ',') == "a,b,c,dest,state,levels" && ThreeFields() == "x,y,z"
  {
    JoinSix("a", "b", "c", "dest", "state", "levels");
    NeededText();
    HeaderText("dest" + "," + "state" + "," + "levels");
    JoinThree("x", "y", "z", ',');
  }

  /** A header with the needed columns after three others, over a row of three fields. */
  lemma LateColumnsFail()
    ensures Parsed(Destination, Unlines(["a,b,c,dest,state,levels", "x,y,z"])) == Err(At(2, OutOfRange))
  {
    LateNames();
    LateLocated();
    LateFileFails(Destination, LateColumns());
    LateFileText();
  }
}
