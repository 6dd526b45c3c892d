/** Which file a category belongs to: decided by its own items, or by the categories below
    it when it has none of its own. */
module CategorySides {
  import opened Wrappers
  import opened Reach
  import opened Categories
  import Csv
  import Text
  import Sequences
  import Sorting
  import CategoryFile

  type Details = CategoryFile.Details

  function ItemsOf(details: Details, cat: string): seq<LiveItem> {
    if cat in details && details[cat].Some? then details[cat].value else []
  }

  predicate SourceItem(i: LiveItem) {
    i.item.kind == "SOURCE" || i.item.kind == "SRCE"
  }

  predicate DestItem(i: LiveItem) {
    i.item.kind == "DEST" || i.item.kind == "DESTINATION"
  }

  predicate HasSource(details: Details, cat: string) {
    var items := ItemsOf(details, cat);
    exists i :: 0 <= i < |items| && SourceItem(items[i])
  }

  predicate HasDest(details: Details, cat: string) {
    var items := ItemsOf(details, cat);
    exists i :: 0 <= i < |items| && DestItem(items[i])
  }

  /** No source and no destination of its own. */
  predicate ResourceFree(details: Details, cat: string) {
    !HasSource(details, cat) && !HasDest(details, cat)
  }

  /** A resource-free category hands the question on to the categories it lists. */
  predicate Asks(details: Details, cat: string, child: string) {
    var items := ItemsOf(details, cat);
    ResourceFree(details, cat) && exists i :: 0 <= i < |items| && items[i].item == Item("CATEGORY", child)
  }

  function Asking(details: Details): Edges {
    (a, b) => Asks(details, a, b)
  }

  /** A category counts as a source category when it reaches, through resource-free
      categories only, one with a source item; itself first of all. */
  ghost predicate SourceSide(details: Details, cat: string) {
    exists v :: Reaches(Asking(details), cat, v) && HasSource(details, v)
  }

  ghost predicate DestSide(details: Details, cat: string) {
    exists v :: Reaches(Asking(details), cat, v) && HasDest(details, v)
  }

  /** A category with items of its own is judged by them alone. */
  lemma OwnItemsDecide(details: Details, cat: string)
    requires !ResourceFree(details, cat)
    ensures SourceSide(details, cat) <==> HasSource(details, cat)
    ensures DestSide(details, cat) <==> HasDest(details, cat)
  {
    ReachesSelf(Asking(details), cat);
    assert Closed(Asking(details), {cat});
    forall v | Reaches(Asking(details), cat, v)
      ensures v == cat
    {
      ClosedHolds(Asking(details), {cat}, cat, v);
    }
  }

  method Direct(details: Details, cat: string) returns (hasSrc: bool, hasDst: bool)
    ensures hasSrc == HasSource(details, cat) && hasDst == HasDest(details, cat)
  {
    hasSrc, hasDst := false, false;
    var items := ItemsOf(details, cat);
    for i := 0 to |items|
      invariant hasSrc <==> exists j :: 0 <= j < i && SourceItem(items[j])
      invariant hasDst <==> exists j :: 0 <= j < i && DestItem(items[j])
    {
      if SourceItem(items[i]) {
        hasSrc := true;
      } else if DestItem(items[i]) {
        hasDst := true;
      }
    }
  }

  /** What a search from `cat` may have added to the visited categories. */
  ghost predicate Visits(details: Details, cat: string, before: set<string>, after: set<string>) {
    before <= after && forall v :: v in after && v !in before ==> Reaches(Asking(details), cat, v)
  }

  /** Whatever the added categories ask has been visited, `cat` itself perhaps excepted. */
  ghost predicate Settled(details: Details, before: set<string>, after: set<string>, except: set<string>) {
    forall v, w :: v in after && v !in before && v !in except && Asks(details, v, w) ==> w in after
  }

  ghost predicate SourceAmong(details: Details, before: set<string>, after: set<string>) {
    exists v :: v in after && v !in before && HasSource(details, v)
  }

  ghost predicate DestAmong(details: Details, before: set<string>, after: set<string>) {
    exists v :: v in after && v !in before && HasDest(details, v)
  }

  /** A search of a child joins the search of its parent. */
  lemma JoinSearch(details: Details, cat: string, child: string, before: set<string>, mid: set<string>,
                   after: set<string>)
    requires Visits(details, cat, before, mid) && Visits(details, child, mid, after) && Asks(details, cat, child)
    requires Settled(details, before, mid, {cat}) && Settled(details, mid, after, {})
    ensures Visits(details, cat, before, after) && Settled(details, before, after, {cat})
    ensures SourceAmong(details, before, after)
       <==> SourceAmong(details, before, mid) || SourceAmong(details, mid, after)
    ensures DestAmong(details, before, after) <==> DestAmong(details, before, mid) || DestAmong(details, mid, after)
  {
    forall v | v in after && v !in before
      ensures Reaches(Asking(details), cat, v)
    {
      if v !in mid {
        ReachesFrom(Asking(details), cat, child, v);
      }
    }
  }

  lemma StartSearch(details: Details, cat: string, before: set<string>)
    requires cat !in before
    ensures Visits(details, cat, before, before + {cat}) && Settled(details, before, before + {cat}, {cat})
    ensures SourceAmong(details, before, before + {cat}) <==> HasSource(details, cat)
    ensures DestAmong(details, before, before + {cat}) <==> HasDest(details, cat)
  {
    ReachesSelf(Asking(details), cat);
  }

  /** Every category the first `n` items list has been visited. */
  ghost predicate Listed(details: Details, cat: string, n: nat, visited: set<string>)
    requires n <= |ItemsOf(details, cat)|
  {
    forall j :: 0 <= j < n && ItemsOf(details, cat)[j].item.kind == "CATEGORY" ==>
      ItemsOf(details, cat)[j].item.value in visited
  }

  lemma AllListed(details: Details, cat: string, before: set<string>, after: set<string>)
    requires Settled(details, before, after, {cat}) && Listed(details, cat, |ItemsOf(details, cat)|, after)
    ensures Settled(details, before, after, {})
  {
  }

  /** A search of `cat` under way: the answers so far are those of what it has visited. */
  ghost predicate Searching(details: Details, cat: string, before: set<string>, now: set<string>, hasSrc: bool,
                            hasDst: bool) {
    && cat in now && Visits(details, cat, before, now) && Settled(details, before, now, {cat})
    && (hasSrc <==> SourceAmong(details, before, now)) && (hasDst <==> DestAmong(details, before, now))
  }

  lemma JoinAnswers(details: Details, cat: string, child: string, before: set<string>, mid: set<string>,
                    after: set<string>, hasSrc: bool, hasDst: bool, s: bool, d: bool)
    requires Searching(details, cat, before, mid, hasSrc, hasDst) && Asks(details, cat, child)
    requires Visits(details, child, mid, after) && Settled(details, mid, after, {})
    requires (s <==> SourceAmong(details, mid, after)) && (d <==> DestAmong(details, mid, after))
    ensures Searching(details, cat, before, after, hasSrc || s, hasDst || d)
  {
    JoinSearch(details, cat, child, before, mid, after);
  }

  class Walker {
    const details: Details
    var visited: set<string>

    constructor (details: Details)
      ensures this.details == details && visited == {}
    {
      this.details := details;
      visited := {};
    }

    /** Depth-first search with one shared visited set. On every graph, cyclic or not, it
        ends; what it newly visits is reachable and closed up to what was visited before,
        and the answers are those of the newly visited categories. */
    method Subtree(cat: string) returns (hasSrc: bool, hasDst: bool)
      modifies this`visited
      ensures cat in visited && Visits(details, cat, old(visited), visited)
      ensures Settled(details, old(visited), visited, {})
      ensures hasSrc <==> SourceAmong(details, old(visited), visited)
      ensures hasDst <==> DestAmong(details, old(visited), visited)
      decreases details.Keys - visited
    {
      if cat in visited {
        return false, false;
      }
      ghost var before := visited;
      StartSearch(details, cat, before);
      visited := visited + {cat};
      hasSrc, hasDst := Direct(details, cat);
      if hasSrc || hasDst {
        return;
      }
      var items := ItemsOf(details, cat);
      for i := 0 to |items|
        invariant Searching(details, cat, before, visited, hasSrc, hasDst) && Listed(details, cat, i, visited)
      {
        if items[i].item.kind != "CATEGORY" {
          continue;
        }
        var child := items[i].item.value;
        ghost var mid := visited;
        assert items[i].item == Item("CATEGORY", child);
        var s, d := Subtree(child);
        JoinAnswers(details, cat, child, before, mid, visited, hasSrc, hasDst, s, d);
        hasSrc, hasDst := hasSrc || s, hasDst || d;
      }
      AllListed(details, cat, before, visited);
    }
  }

  method SidesOf(details: Details, cat: string) returns (hasSrc: bool, hasDst: bool)
    ensures hasSrc <==> SourceSide(details, cat)
    ensures hasDst <==> DestSide(details, cat)
    ensures hasSrc <==> HasWay(details, cat, {"SOURCE", "SRCE"})
    ensures hasDst <==> HasWay(details, cat, {"DEST", "DESTINATION"})
  {
    SidesPlain(details, cat);
    hasSrc, hasDst := Direct(details, cat);
    if hasSrc || hasDst {
      OwnItemsDecide(details, cat);
      return;
    }
    var walker := new Walker(details);
    hasSrc, hasDst := walker.Subtree(cat);
    assert Closed(Asking(details), walker.visited);
    forall v | Reaches(Asking(details), cat, v)
      ensures v in walker.visited
    {
      ClosedHolds(Asking(details), walker.visited, cat, v);
    }
  }

  /** The categories of both sides, in list order. */
  ghost function Mixed(details: Details, names: seq<string>): seq<string> {
    if names == [] then []
    else
      var cat, before := names[|names| - 1], Mixed(details, names[..|names| - 1]);
      if SourceSide(details, cat) && DestSide(details, cat) then before + [cat] else before
  }

  /** The categories the split sends to a file. */
  ghost function Picked(file: CategoryFile.FileKind, names: seq<string>, details: Details): set<string> {
    set cat | cat in names && GoesTo(file, details, cat)
  }

  ghost predicate GoesTo(file: CategoryFile.FileKind, details: Details, cat: string) {
    match file
    case SrcFile => SourceSide(details, cat) && !DestSide(details, cat)
    case DstFile => DestSide(details, cat) && !SourceSide(details, cat)
    case MixedFile => SourceSide(details, cat) && DestSide(details, cat)
  }

  lemma PickedStep(file: CategoryFile.FileKind, names: seq<string>, details: Details, cat: string)
    ensures Picked(file, names + [cat], details)
         == Picked(file, names, details) + if GoesTo(file, details, cat) then {cat} else {}
  {
  }

  lemma MixedStep(details: Details, names: seq<string>, cat: string)
    ensures Mixed(details, names + [cat])
         == if GoesTo(CategoryFile.MixedFile, details, cat) then Mixed(details, names) + [cat]
           else Mixed(details, names)
  {
    assert (names + [cat])[..|names|] == names;
  }

  method SortOut(cat: string, details: Details, src0: set<string>, dst0: set<string>, both0: seq<string>)
    returns (src: set<string>, dst: set<string>, both: seq<string>)
    ensures src == src0 + if GoesTo(CategoryFile.SrcFile, details, cat) then {cat} else {}
    ensures dst == dst0 + if GoesTo(CategoryFile.DstFile, details, cat) then {cat} else {}
    ensures both == if GoesTo(CategoryFile.MixedFile, details, cat) then both0 + [cat] else both0
  {
    src, dst, both := src0, dst0, both0;
    var hasSrc, hasDst := SidesOf(details, cat);
    if hasSrc && hasDst {
      both := both + [cat];
      return;
    }
    if hasSrc {
      src := src + {cat};
    }
    if hasDst {
      dst := dst + {cat};
    }
  }

  /** The split of a category set. */
  method Classify(names: seq<string>, details: Details) returns (src: set<string>, dst: set<string>, both: seq<string>)
    ensures src == Picked(CategoryFile.SrcFile, names, details)
    ensures dst == Picked(CategoryFile.DstFile, names, details)
    ensures both == Mixed(details, names)
    ensures forall cat :: cat in src <==>
      cat in names && HasWay(details, cat, {"SOURCE", "SRCE"}) && !HasWay(details, cat, {"DEST", "DESTINATION"})
    ensures forall cat :: cat in dst <==>
      cat in names && HasWay(details, cat, {"DEST", "DESTINATION"}) && !HasWay(details, cat, {"SOURCE", "SRCE"})
    ensures forall cat :: cat in both <==>
      cat in names && HasWay(details, cat, {"SOURCE", "SRCE"}) && HasWay(details, cat, {"DEST", "DESTINATION"})
  {
    src, dst, both := {}, {}, [];
    for i := 0 to |names|
      invariant src == Picked(CategoryFile.SrcFile, names[..i], details)
      invariant dst == Picked(CategoryFile.DstFile, names[..i], details)
      invariant both == Mixed(details, names[..i])
    {
      var cat := names[i];
      assert names[..i + 1] == names[..i] + [cat];
      PickedStep(CategoryFile.SrcFile, names[..i], details, cat);
      PickedStep(CategoryFile.DstFile, names[..i], details, cat);
      MixedStep(details, names[..i], cat);
      src, dst, both := SortOut(cat, details, src, dst, both);
    }
    assert names[..|names|] == names;
    AllSidesPlain(details);
    forall cat
      ensures cat in both <==> cat in names && SourceSide(details, cat) && DestSide(details, cat)
    {
      MixedMember(details, names, cat);
    }
  }

  lemma AllSidesPlain(details: Details)
    ensures forall cat :: SourceSide(details, cat) <==> HasWay(details, cat, {"SOURCE", "SRCE"})
    ensures forall cat :: DestSide(details, cat) <==> HasWay(details, cat, {"DEST", "DESTINATION"})
  {
    forall cat
      ensures SourceSide(details, cat) <==> HasWay(details, cat, {"SOURCE", "SRCE"})
      ensures DestSide(details, cat) <==> HasWay(details, cat, {"DEST", "DESTINATION"})
    {
      SidesPlain(details, cat);
    }
  }

  lemma {:induction false} MixedMember(details: Details, names: seq<string>, cat: string)
    ensures cat in Mixed(details, names) <==> cat in names && SourceSide(details, cat) && DestSide(details, cat)
  {
    if names != [] {
      MixedMember(details, names[..|names| - 1], cat);
      assert names == names[..|names| - 1] + [names[|names| - 1]];
    }
  }

  // ---- what the split means for the files ----

  /** The file a picked category is exported to takes every one of its items that has a type
      of the file's own vocabulary. */
  lemma PickedItemsBelong(details: Details, cat: string, i: LiveItem)
    requires i in ItemsOf(details, cat)
    ensures SourceSide(details, cat) && !DestSide(details, cat) ==>
      CategoryFile.Belongs(CategoryFile.SrcFile, i.item.kind)
    ensures DestSide(details, cat) && !SourceSide(details, cat) ==>
      CategoryFile.Belongs(CategoryFile.DstFile, i.item.kind)
  {
    var items := ItemsOf(details, cat);
    var n :| 0 <= n < |items| && items[n] == i;
    assert SourceItem(items[n]) ==> HasSource(details, cat);
    assert DestItem(items[n]) ==> HasDest(details, cat);
    if !ResourceFree(details, cat) {
      OwnItemsDecide(details, cat);
    }
  }

  /** The names and items of the set are plain fields; any type, any value. */
  ghost predicate Spellable(details: Details, cat: string) {
    && cat != "" && cat[0] != '#' && Csv.PlainField(cat)
    && forall i :: i in ItemsOf(details, cat) ==> CategoryFile.PlainItem(i.item)
  }

  lemma {:induction false} GridMember(items: seq<LiveItem>, j: int)
    requires j in GridOf(items)
    ensures LiveItem(j, GridOf(items)[j]) in items
  {
    var front, last := items[..|items| - 1], items[|items| - 1];
    assert items == front + [last];
    if j != last.index {
      GridMember(front, j);
    }
  }

  lemma SpellableWritable(names: seq<string>, pick: set<string>, details: Details)
    requires Sequences.Distinct(names) && forall cat :: cat in names ==> Spellable(details, cat)
    ensures CategoryFile.Writable(names, pick, details)
  {
    forall cat, j | cat in names && cat in details && details[cat].Some? && 1 <= j
      && !Empty(GridOf(details[cat].value), j)
      ensures CategoryFile.PlainItem(GridOf(details[cat].value)[j])
    {
      GridMember(details[cat].value, j);
    }
  }

  /** Of any live category set, each file the split exports reads back under its own kind
      exactly when it has a slot and every filled slot is an item the kind takes; importing
      it then plans nothing. */
  lemma SplitReadableIff(file: CategoryFile.FileKind, names: seq<string>, details: Details)
    requires Sequences.Distinct(names) && forall cat :: cat in names ==> Spellable(details, cat)
    ensures var pick := Picked(file, names, details);
      var defs := CategoryFile.DefsFromLive(names, pick, details);
      var res := CategoryFile.Parsed(file, CategoryFile.Printed(defs));
      && (res.Ok? <==> CategoryFile.NonEmpty(defs) != [] && CategoryFile.AllReadable(file, names, pick, details))
      && (res.Ok? ==> forall d :: d in res.value ==>
        d.name in details && CatDiff(d.name, details[d.name], d.items) == [])
  {
    SpellableWritable(names, Picked(file, names, details), details);
    CategoryFile.CategoryExportImportIff(file, names, Picked(file, names, details), details);
  }

  /** A filled item with a value and a type of the files' vocabulary, spelled in capitals. */
  predicate Spelled(i: Item) {
    CategoryFile.KnownType(i.kind) && i.value != ""
  }

  lemma SlotReadable(file: CategoryFile.FileKind, names: seq<string>, details: Details, cat: string, j: int)
    requires cat in Picked(file, names, details) && !Empty(GridOf(ItemsOf(details, cat)), j)
    requires Spelled(GridOf(ItemsOf(details, cat))[j])
    ensures CategoryFile.Readable(file, GridOf(ItemsOf(details, cat))[j])
  {
    var item := GridOf(ItemsOf(details, cat))[j];
    GridMember(ItemsOf(details, cat), j);
    PickedItemsBelong(details, cat, LiveItem(j, item));
    CategoryFile.KnownTypePlain(item.kind);
  }

  /** The split never sends an item to the file of the other side: of a set in the files'
      vocabulary every exported file with a slot reads back. */
  lemma SplitReadsBack(file: CategoryFile.FileKind, names: seq<string>, details: Details)
    requires Sequences.Distinct(names) && forall cat :: cat in names ==> Spellable(details, cat)
    requires forall cat, i :: cat in names && i in ItemsOf(details, cat) ==> Blank(i.item) || Spelled(i.item)
    ensures var defs := CategoryFile.DefsFromLive(names, Picked(file, names, details), details);
      CategoryFile.NonEmpty(defs) != [] ==> CategoryFile.Parsed(file, CategoryFile.Printed(defs)).Ok?
  {
    var pick := Picked(file, names, details);
    forall cat | cat in names && cat in pick && cat in details && details[cat].Some?
      ensures CategoryFile.GridReadable(file, details[cat].value)
    {
      forall j | 1 <= j && !Empty(GridOf(details[cat].value), j)
        ensures CategoryFile.Readable(file, GridOf(details[cat].value)[j])
      {
        GridMember(details[cat].value, j);
        SlotReadable(file, names, details, cat, j);
      }
    }
    SplitReadableIff(file, names, details);
  }

  /** The wire also spells a destination item DESTINATION. The split counts it as one and
      exports its category to the destination file, which refuses it. */
  lemma DestinationRefused(cat: string, value: string)
    requires cat != "" && cat[0] != '#' && Csv.PlainField(cat) && Csv.PlainField(value)
    ensures var details: Details := map[cat := Some([LiveItem(1, Item("DESTINATION", value))])];
      var pick := Picked(CategoryFile.DstFile, [cat], details);
      && pick == {cat}
      && CategoryFile.Parsed(CategoryFile.DstFile,
                             CategoryFile.Printed(CategoryFile.DefsFromLive([cat], pick, details)))
           == Err(At(2, CategoryFile.UnknownType))
  {
    var item := Item("DESTINATION", value);
    var items := [LiveItem(1, item)];
    var details: Details := map[cat := Some(items)];
    assert ItemsOf(details, cat) == items && DestItem(items[0]) && !SourceItem(items[0]);
    OwnItemsDecide(details, cat);
    var pick := Picked(CategoryFile.DstFile, [cat], details);
    assert pick == {cat};
    OneSlot(cat, details, item, pick);
    var defs := CategoryFile.DefsFromLive([cat], pick, details);
    assert CategoryFile.Rows(defs) == [CategoryFile.CatRow(cat, item)];
    DestinationPlain();
    CategoryFile.UnknownTypeRefused(CategoryFile.DstFile, defs);
  }

  lemma DestinationPlain()
    ensures Csv.PlainField("DESTINATION") && !CategoryFile.KnownType(Text.ToUpper("DESTINATION"))
  {
    CategoryFile.CapitalsPlain("DESTINATION");
    assert |"DESTINATION"| == 11;
  }

  lemma OneSlot(cat: string, details: Details, item: Item, pick: set<string>)
    requires cat in pick && cat in details && details[cat] == Some([LiveItem(1, item)]) && !Blank(item)
    ensures CategoryFile.Rows(CategoryFile.DefsFromLive([cat], pick, details)) == [CategoryFile.CatRow(cat, item)]
  {
    var items := [LiveItem(1, item)];
    assert items[..0] == [] && [cat][..0] == [];
    assert items[|items| - 1] == LiveItem(1, item) && MaxIndex([]) == 0;
    assert GridOf(items) == map[1 := item];
    assert MaxIndex(items) == 1;
    var g := GridOf(items);
    assert CategoryFile.SlotsOf(g, 0) == [] && CategoryFile.SlotsOf(g, 1) == [item];
    var def := CategoryFile.CatDef(cat, [item]);
    assert CategoryFile.DefsFromLive([], pick, details) == [];
    assert CategoryFile.DefsFromLive([cat], pick, details) == [def];
    assert [def][..0] == [] && CategoryFile.Rows([]) == [];
    assert CategoryFile.DefRows(def) == [CategoryFile.CatRow(cat, item)];
  }

  /** A parent without items of its own over a source and a destination category is mixed,
      by subtree alone. */
  lemma SubtreeCanMix(details: Details, parent: string, a: string, b: string)
    requires Asks(details, parent, a) && Asks(details, parent, b)
    requires HasSource(details, a) && HasDest(details, b)
    ensures ResourceFree(details, parent) && SourceSide(details, parent) && DestSide(details, parent)
  {
    ReachesSelf(Asking(details), a);
    ReachesSelf(Asking(details), b);
    ReachesFrom(Asking(details), parent, a, a);
    ReachesFrom(Asking(details), parent, b, b);
  }

  // ---- the same in plain terms ----

  /** The category was answered for and lists an item of one of the types. */
  ghost predicate Lists(details: Details, cat: string, kinds: set<string>) {
    cat in details && details[cat].Some? && exists i: LiveItem :: i in details[cat].value && i.item.kind in kinds
  }

  /** The category lists no source and no destination of its own, but the other category. */
  ghost predicate HandsOn(details: Details, cat: string, child: string) {
    && !Lists(details, cat, {"SOURCE", "SRCE", "DEST", "DESTINATION"})
    && cat in details && details[cat].Some?
    && exists i: LiveItem :: i in details[cat].value && i.item.kind == "CATEGORY" && i.item.value == child
  }

  /** A way from category to category, each handing on to the next, to one that lists an item
      of the types. */
  ghost predicate LeadsTo(details: Details, cat: string, path: seq<string>, kinds: set<string>) {
    && path != [] && path[0] == cat
    && (forall i :: 0 <= i < |path| - 1 ==> HandsOn(details, path[i], path[i + 1]))
    && Lists(details, path[|path| - 1], kinds)
  }

  ghost predicate HasWay(details: Details, cat: string, kinds: set<string>) {
    exists path :: LeadsTo(details, cat, path, kinds)
  }

  lemma ListsIff(details: Details, cat: string)
    ensures Lists(details, cat, {"SOURCE", "SRCE"}) <==> HasSource(details, cat)
    ensures Lists(details, cat, {"DEST", "DESTINATION"}) <==> HasDest(details, cat)
    ensures Lists(details, cat, {"SOURCE", "SRCE", "DEST", "DESTINATION"}) <==> !ResourceFree(details, cat)
  {
    var items := ItemsOf(details, cat);
    assert forall i :: 0 <= i < |items| ==> items[i] in items;
  }

  lemma HandsOnIff(details: Details, cat: string, child: string)
    ensures HandsOn(details, cat, child) <==> Asking(details)(cat, child)
  {
    var items := ItemsOf(details, cat);
    ListsIff(details, cat);
    if HandsOn(details, cat, child) {
      var i: LiveItem :| i in details[cat].value && i.item.kind == "CATEGORY" && i.item.value == child;
      var n :| 0 <= n < |items| && items[n] == i;
      assert items[n].item == Item("CATEGORY", child);
    }
    if Asks(details, cat, child) {
      var n :| 0 <= n < |items| && items[n].item == Item("CATEGORY", child);
      assert items[n] in details[cat].value;
    }
  }

  lemma AllHandsOn(details: Details)
    ensures forall a, b :: HandsOn(details, a, b) <==> Asking(details)(a, b)
  {
    forall a, b
      ensures HandsOn(details, a, b) <==> Asking(details)(a, b)
    {
      HandsOnIff(details, a, b);
    }
  }

  lemma AllLists(details: Details)
    ensures forall v :: Lists(details, v, {"SOURCE", "SRCE"}) <==> HasSource(details, v)
    ensures forall v :: Lists(details, v, {"DEST", "DESTINATION"}) <==> HasDest(details, v)
  {
    forall v
      ensures Lists(details, v, {"SOURCE", "SRCE"}) <==> HasSource(details, v)
      ensures Lists(details, v, {"DEST", "DESTINATION"}) <==> HasDest(details, v)
    {
      ListsIff(details, v);
    }
  }

  lemma PathIff(details: Details, cat: string, kinds: set<string>)
    ensures HasWay(details, cat, kinds)
       <==> exists v :: Reaches(Asking(details), cat, v) && Lists(details, v, kinds)
  {
    AllHandsOn(details);
    if path :| LeadsTo(details, cat, path, kinds) {
      assert Walk(Asking(details), path);
      assert Reaches(Asking(details), cat, path[|path| - 1]);
    }
    if v :| Reaches(Asking(details), cat, v) && Lists(details, v, kinds) {
      var path :| |path| > 0 && path[0] == cat && path[|path| - 1] == v && Walk(Asking(details), path);
      assert LeadsTo(details, cat, path, kinds);
    }
  }

  /** A category has a source side exactly when a way leads from it to a category that lists an
      item of type SOURCE or SRCE, and a destination side when one leads to DEST or
      DESTINATION. */
  lemma SidesPlain(details: Details, cat: string)
    ensures SourceSide(details, cat) <==> HasWay(details, cat, {"SOURCE", "SRCE"})
    ensures DestSide(details, cat) <==> HasWay(details, cat, {"DEST", "DESTINATION"})
  {
    AllLists(details);
    PathIff(details, cat, {"SOURCE", "SRCE"});
    PathIff(details, cat, {"DEST", "DESTINATION"});
  }

  /** Items of other types give no side: a category that lists none of the four types has
      exactly the sides of the categories it lists. */
  lemma OtherTypesHandOn(details: Details, cat: string)
    requires cat in details && details[cat].Some?
    requires forall i :: i in details[cat].value ==> i.item.kind !in {"SOURCE", "SRCE", "DEST", "DESTINATION"}
    ensures SourceSide(details, cat)
       <==> exists i: LiveItem ::
              i in details[cat].value && i.item.kind == "CATEGORY" && SourceSide(details, i.item.value)
    ensures DestSide(details, cat)
       <==> exists i: LiveItem ::
              i in details[cat].value && i.item.kind == "CATEGORY" && DestSide(details, i.item.value)
  {
    ListsIff(details, cat);
    forall v
      ensures Reaches(Asking(details), cat, v)
         <==> v == cat || exists child :: HandsOn(details, cat, child) && Reaches(Asking(details), child, v)
    {
      ReachesSelf(Asking(details), cat);
      AllHandsOn(details);
      ReachesVia(Asking(details), cat, v);
    }
  }

  function BothSides(both: set<string>): string -> bool {
    cat => cat in both
  }

  /** The mixed categories keep the order of the list. */
  lemma {:induction false} MixedInOrder(details: Details, names: seq<string>, both: set<string>)
    requires forall cat :: cat in names ==> (cat in both <==> SourceSide(details, cat) && DestSide(details, cat))
    ensures Mixed(details, names) == Sorting.Filter(BothSides(both), names)
  {
    if names != [] {
      var front, last := names[..|names| - 1], names[|names| - 1];
      assert names == front + [last];
      MixedInOrder(details, front, both);
      Sorting.FilterLast(BothSides(both), front, last);
    }
  }
}
