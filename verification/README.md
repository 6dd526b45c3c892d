# Desired-state reconciliation, proved

The `dhs` command line keeps a broadcast router in a wanted state. A *file* lists what should be
(crosspoints, labels, locks, category grids, Ember+ connection sets), a *snapshot* says what is, a
*planner* compares the two and emits a list of actions, and *sending* those actions is expected to
bring the server to the file, to touch nothing else, and to find nothing left to do on the next run.
Around the planners stand the file printers and parsers, a resolver for sources routed through
virtual resources, two graph searches, and a gate that refuses plans naming unknown IDs.

This project models that engine and proves those expectations, for every snapshot, every file and,
where it matters, every subset of actions the server refuses.

## How it is built

* **Code that changes things step by step stays so.** Each loop of the program is a method over
  maps, sequences and accumulators, proved equal to a specification function; the searches that
  mutate a shared visited set are classes (`CategorySides.Walker`, `DeviceWalk.Walk`). The
  theorems are about the specification functions.
* **The server is a map per leg**, each action a step on that map, and a plan is folded over it.
  A category server is a *policy*: any way of closing the gap of a deleted slot or of leaving it
  BLANK, and either answer to a BLANK write.
* **A report of the server after a run** is any snapshot that describes the new state, not the
  model's own, so "run twice" is about what the second run would really read. A snapshot tells of no
  cell whose source is no route: "", "0" or a number from 4294967040 to 4294967295.
* **Stable sort** is insertion. On a list that the comparison orders weakly the stable arrangement
  is unique (`Sorting.StableArrangementIsSort`), so every stable sort gives the same. ID comparison
  is not always a weak order (below); results about the order of output ask for comparable IDs and
  hold of every sort that keeps a stable sort's promise.
* **Nothing rests on a definition alone.** What a planner, a parser or a search shares with its
  theorems is also stated in plain terms, of fields, letters, positions and membership: the
  `…Plain` lemmas beside each component, `RouteLevels`, `MatrixActions`, `DeviceRows` and
  `KeyOrder`, and for each file a module that says what its printed and its read text mean.
* **Keys** built in the program by joining fields with a NUL character are tuples here. Hops joined
  with `;` stay joined, because that join can confuse two chains.

| modules | part of the program |
|---|---|
| `Text`, `Sequences`, `Csv`, `Wrappers` | strings, line-based files |
| `Sorting`, `Ids`, `AnySort`, `LibrarySort`, `StablePlans`, `KeyOrder` | stable sort, ID order, what each sorted output relies on and its keys |
| `Routes`, `RouteText`, `RouteLevels`, `Xpoint`, `XpointOrder`, `XpointFile`, `XpointReading` | crosspoint plan, source texts and levels, rows, file |
| `Virtuals`, `Replace`, `Usage`, `UsageTruth` | virtual chains, source replacement, usage rows |
| `Labels`, `LabelRows`, `LabelOrder` | label rows, their merging, label plan |
| `Locks`, `LockFile`, `LockReading`, `LockColumns` | lock plan and file |
| `Categories`, `CategoryFile`, `CategoryReading`, `Reach`, `CategorySides`, `CategoryImport` | category plan, files, split, import |
| `DeviceTree`, `DeviceRows`, `DeviceWalk`, `DeviceOrder`, `Focus` | device walk, focus expansion |
| `Int32Sets`, `Converge`, `Connections`, `MatrixPlan`, `MatrixReplace`, `MatrixActions`, `MatrixText` | Ember+ matrices |
| `PlanGate` | the check before anything is sent |

## What the proofs found

* ID comparison is antisymmetric for every pair, yet not transitive on mixed IDs: "9" comes before
  "10", "10" before "1a", "1a" before "9". It is transitive exactly when no non-numeral lies, as
  text, between two numerals in the wrong order.
* A stable sort promises that an export of an export is the same file exactly when that holds of the
  IDs. Otherwise it need not be: 21 destinations "0" to "9", "100", "1a" to "1i", "20" come out of
  the library's own sort in a different order the second time. Exports are byte-stable exactly when,
  besides, no two IDs are spellings of one number.
* The crosspoint plan compares sources as text. A source named `5@lvl2` and source `5` of level `2`
  look alike, so a plan can be empty while the cell holds something else. It cannot exactly when no
  source ID begins with another source ID and the level mark.
* Rows that ask one cell for different sources, locks or labels never settle: each run plans again.
* A row for a source that is no route passes the parser, and the gate if the catalogue lists its ID
  or is empty. It is sent, its cell is in no snapshot, and so every run sends it again. Replacing a
  source by such a one empties the cells, and a virtual that took the old source is left without a
  feed.
* A snapshot collects route events, so a cell that changes meanwhile has two rows. The replacement
  acts on every row, and can take from a cell a source that was not to be replaced.
* An export of a plant without routes holds no crosspoint, and the import refuses it.
* A label is hidden while its resource has no primary mnemonic. Clear mode cannot empty a hidden
  label, and the second run is empty exactly when the rows of each resource agree, no row is stuck
  without a primary and none uncovers a hidden label.
* A category import that needs a BLANK where an item stands does not converge on a server that
  refuses BLANK writes; every other import converges, whatever the delete semantics. A category
  defined several times converges when the definitions ask for one grid, unless all of them write
  such a BLANK and it is refused.
* A parent category without items of its own can be mixed by its subtree alone. The comment at
  `cmd/dhs/cmd_cerebrum_cat.go:241-243` says otherwise; the model follows the code at 292-295.
* The split counts DESTINATION items as destinations and exports their category to the destination
  file, which refuses it: unknown type, line 2. An exported file reads back exactly when it has a
  slot and each item has a type of the file's vocabulary and a value.
* A many-to-many matrix plan keeps its final sets within the validated limit but can exceed it on
  the way, since it connects before it disconnects.
* Matrix numbers are read as full integers and cut to 32 bits. A file that names target 4294967296
  changes target 0, and `replace` takes 1 and 4294967297 for different sources and sends an action
  that changes nothing, on every run. It is exact when the numbers fit 32 bits.
* The lock file parser demands three fields but addresses columns by header position; with a needed
  column further right a short row reads past its end, as under the header
  `a,b,c,dest,state,levels` the row `x,y,z` does. It cannot happen exactly when the three needed
  columns are the first three.
* The device walk omits a leaf row whose path was asked for as a node before: the comment at
  `cmd/dhs/cmd_cerebrum_tree.go:381-387` promises that no data is lost. It finds exactly the leaves
  in every order of rows and starts precisely when each such path echoes the very leaf row.
* Usage rows are grouped by hops joined with `;`. With virtual IDs that carry `;` two chains can
  read alike, and one row then lists both under one of the two chains. Every row is true of every
  snapshot exactly when no two chains of the virtual IDs read alike once joined.

## Model

| member | source | states |
|---|---|---|
| Ids.CmpIdSign | cmd/dhs/cmd_cerebrum_xpoint.go:209-223 | swapping the operands flips the sign, for every pair of IDs |
| Ids.CmpIdTransitiveIff | cmd/dhs/cmd_cerebrum_xpoint.go:209-223 | the ID order is transitive on a set of IDs exactly when no non-numeral of the set is straddled by two numerals |
| Ids.CmpIdAntisymmetricIff | cmd/dhs/cmd_cerebrum_xpoint.go:209-223 | distinct IDs compare as different exactly when no two of them spell one number |
| Ids.MixedIdsCycle | cmd/dhs/cmd_cerebrum_xpoint.go:209-223 | three concrete IDs that chase each other |
| Sorting.StableArrangementIsSort | cmd/dhs/cmd_cerebrum_xpoint.go:203-205 | on a list the comparison orders weakly, any sorted permutation that keeps equal elements in arrival order is the one modelled |
| Sorting.FilterSort | cmd/dhs/cmd_cerebrum_state.go:326-331 | sorting commutes with dropping elements under a weak order |
| Sequences.FirstsInOrder | cmd/dhs/cmd_cerebrum_xpoint.go:136-152 | of the elements listed once each, whatever is listed earlier appeared earlier |
| Csv.FindHeader | cmd/dhs/cmd_cerebrum_xpoint.go:42-51 | the header is the first line that is neither blank nor a comment |
| Csv.LinesPlain | cmd/dhs/cmd_cerebrum_xpoint.go:43 | a text is cut at its line feeds, each with or without a carriage return before it |
| Csv.HeaderPlain | cmd/dhs/cmd_cerebrum_xpoint.go:52-56 | a heading is found in any case, white space aside; of two of one name the later counts |
| Csv.SplitLevelCell | cmd/dhs/cmd_cerebrum_xpoint.go:99-108 | a level cell is read as its trimmed non-empty parts |
| Csv.LevelCellPlain | cmd/dhs/cmd_cerebrum_xpoint.go:97-108 | the levels of a cell are the parts between semicolons, bars, spaces and tabs, trimmed, without the blank ones |
| Csv.LevelCellReads | cmd/dhs/cmd_cerebrum_xpoint.go:97-108 | a printed level list is one field and reads back as the list |
| Csv.LinesOfFile | cmd/dhs/cmd_cerebrum_xpoint.go:42-46 | a printed file splits back into exactly its lines |
| Routes.DiffRoutes | cmd/dhs/cmd_cerebrum_state.go:313-333 | the in-place planner yields the specified plan |
| Routes.PlanMember | cmd/dhs/cmd_cerebrum_state.go:313-325 | the plan holds one change for every desired row whose cell shows something else, and nothing more |
| RouteLevels.PlanPlain | cmd/dhs/cmd_cerebrum_state.go:305-325 | the plan holds exactly the changes asked for: of a row whose last snapshot row reads otherwise, source and level mark written out, with its source level exactly when that is another level than its own |
| RouteLevels.OwnLevelQuiet | cmd/dhs/cmd_cerebrum_names.go:296-303 | a row that names no source level, or its own, plans nothing where its source stands on that level |
| RouteLevels.OtherLevelQuiet | cmd/dhs/cmd_cerebrum_state.go:305-325 | a row of another level plans nothing where its source stands with that level |
| RouteLevels.LevelsHold | cmd/dhs/cmd_cerebrum_state.go:313-333 | after the run the cell of a row holds its source, without a source level when the row names none or its own, from the level it names when that is another one |
| RouteLevels.ReportsPlain | cmd/dhs/cmd_cerebrum_state.go:78-85 | the rows are a snapshot exactly when the last row of each cell tells what the cell holds and just the cells on a route have one |
| RouteLevels.NoRoutePlain | cmd/dhs/cmd_cerebrum_names.go:288-294 | of the IDs made of digits, 0 and 4294967040 to 4294967295 are no routes; of the others only the empty one |
| RouteLevels.OrderPlain | cmd/dhs/cmd_cerebrum_state.go:326-331 | with comparable names the plan ascends by destination and then by level |
| Routes.RoutesConverge | cmd/dhs/cmd_cerebrum_xpoint.go:606-618 | sending the plan makes every desired cell show its goal and leaves every other cell as it was |
| RouteText.RoutesHoldIff | cmd/dhs/cmd_cerebrum_state.go:298-333 | every run leaves in each desired cell exactly its source and source level, precisely when no source ID begins with another and the level mark |
| RouteText.RoutesHold | cmd/dhs/cmd_cerebrum_state.go:298-333 | the cells of one run, for the IDs its snapshot and file are written with |
| RouteText.TextTellsIff | cmd/dhs/cmd_cerebrum_state.go:305-311 | the text tells all sources over a set of IDs apart, on whatever level, under exactly that condition |
| Routes.RunTwiceIsZeroIff | cmd/dhs/cmd_cerebrum_state.go:76-85 | from any snapshot of the new state, which tells of no cell whose source is no route, a second run plans nothing exactly when no cell is asked for two sources and the plan left no cell on a source that is no route |
| RouteText.SettlesIff | cmd/dhs/cmd_cerebrum_state.go:76-85 | for IDs none of which begins with another and the level mark: a second run plans nothing exactly when no cell is asked for two sources and no row names a source that is no route |
| Routes.NoRouteNeverSettles | cmd/dhs/cmd_cerebrum_names.go:288-294 | a file whose one row routes source 0: its plan is not empty, and the snapshot after the run is the one before |
| Routes.ConflictNeverSettles | cmd/dhs/cmd_cerebrum_state.go:313-325 | a file of two rows for one cell, which plans something from every snapshot |
| Routes.RunResumes | cmd/dhs/cmd_cerebrum_xpoint.go:606-618 | after a run in which the server refused any subset, the next plan is exactly the refused changes and, from an empty cell, those to a source that is no route, with comparable IDs in the same order; a file may name a cell twice for the same source |
| Routes.AnyStableSortPlans | cmd/dhs/cmd_cerebrum_state.go:326-331 | with comparable IDs every stable sort gives the plan its order |
| RouteText.SecondReadingIff | cmd/dhs/cmd_cerebrum_state.go:305-311 | a same-level source has a second, cross-level reading exactly when the level mark stands strictly inside it |
| RouteText.ShownIsHeld | cmd/dhs/cmd_cerebrum_state.go:305-311 | with such IDs a cell that shows its goal holds the desired source and level |
| RouteText.SameTextOtherSource | cmd/dhs/cmd_cerebrum_state.go:305-325 | a concrete snapshot and file with an empty plan and another source in the cell |
| Xpoint.CollapseRoutes | cmd/dhs/cmd_cerebrum_xpoint.go:129-169 | the grouping loop yields the specified rows |
| Xpoint.ExpandRows | cmd/dhs/cmd_cerebrum_xpoint.go:112-120 | the expanding loop yields one route per listed level |
| Xpoint.ExpandedPlain | cmd/dhs/cmd_cerebrum_xpoint.go:110-120 | row after row, and of a row level after level |
| Xpoint.ExpandCollapse | cmd/dhs/cmd_cerebrum_xpoint.go:112-169 | expanding a collapse gives every well-formed route, once each, and nothing else |
| Xpoint.RowPlain | cmd/dhs/cmd_cerebrum_xpoint.go:129-158 | a row holds exactly the levels of the routes of its destination, source and source level, once each, and no other row is about the three |
| Xpoint.RoutePlain | cmd/dhs/cmd_cerebrum_xpoint.go:137-152 | every route that names a destination, a source and a level is in a row |
| Xpoint.KeysPlain | cmd/dhs/cmd_cerebrum_xpoint.go:136-152 | before they are sorted the rows come in the order in which the routes first have their destination, source and source level |
| KeyOrder.XpointRowsAscend | cmd/dhs/cmd_cerebrum_xpoint.go:159-167 | with comparable IDs the rows ascend by destination, then source, then source level |
| KeyOrder.LevelsAscend | cmd/dhs/cmd_cerebrum_xpoint.go:201-205 | with comparable IDs a sorted list of levels ascends |
| XpointOrder.CollapseIdempotentIff | cmd/dhs/cmd_cerebrum_xpoint.go:112-169 | for a set of IDs: collapsing what a collapse describes gives the same rows in the same order, of every snapshot and under every stable sort, exactly when the IDs are comparable |
| XpointOrder.AnyStableSortCollapses | cmd/dhs/cmd_cerebrum_xpoint.go:129-169 | with comparable IDs every stable sort collapses a snapshot to the same rows |
| XpointOrder.LibraryMovesRows | cmd/dhs/cmd_cerebrum_xpoint.go:159-167 | 21 mixed IDs whose exported rows the library sorts into another order the second time |
| LibrarySort.TwiceDiffers | cmd/dhs/cmd_cerebrum_xpoint.go:159-167 | the library sorts a list of 21 twice into two orders when its neighbours are in order but its last element is less than its eleventh |
| XpointOrder.CollapseForgetsOrder | cmd/dhs/cmd_cerebrum_xpoint.go:122-169 | with comparable IDs and no twins the rows do not depend on the order or repetition of the snapshot |
| XpointOrder.ByteStableIff | cmd/dhs/cmd_cerebrum_xpoint.go:122-169 | that independence holds for all snapshots over a set of IDs exactly when no ID is straddled and none are twins |
| XpointFile.FormatXpoint | cmd/dhs/cmd_cerebrum_xpoint.go:175-199 | the printer writes the header and one line per row, with the source level column exactly when some row needs it |
| XpointFile.ParseXpoint | cmd/dhs/cmd_cerebrum_xpoint.go:42-95 | the parser meets the specified reading, errors and the lines they name included |
| XpointFile.ParsePrinted | cmd/dhs/cmd_cerebrum_xpoint.go:42-199 | printed rows of plain fields parse back to the same rows, with and without the source level column |
| XpointReading.PrintedPlain | cmd/dhs/cmd_cerebrum_xpoint.go:175-199 | the printed file letter by letter, in three columns or four |
| XpointReading.ParsedPlain | cmd/dhs/cmd_cerebrum_xpoint.go:42-95 | of any text: the first data line is the header, every data line below says one row field by field, or the first that does not is named with its number and the rule it breaks |
| XpointFile.ExportImportIsZero | cmd/dhs/cmd_cerebrum_xpoint.go:42-199 | an untouched export parses, and its rows plan nothing |
| XpointFile.LoadXpoint | cmd/dhs/cmd_cerebrum_xpoint.go:378-392 | the import reads the rows as specified and refuses a file without any |
| XpointFile.ExportLoadsIff | cmd/dhs/cmd_cerebrum_xpoint.go:378-392 | the import takes an untouched export exactly when the snapshot has a well-formed route, and then plans nothing |
| Virtuals.DetectVirtuals | cmd/dhs/cmd_cerebrum_usage.go:48-65 | an ID is virtual exactly when both sides name it alike |
| Virtuals.NamePlain | cmd/dhs/cmd_cerebrum_usage.go:48-55 | an ID has the name of its last complete label row |
| Virtuals.FeedPlain | cmd/dhs/cmd_cerebrum_usage.go:92-96 | the last row of a cell tells what feeds it |
| Virtuals.ResolveSource | cmd/dhs/cmd_cerebrum_usage.go:71-87 | the walk ends on every feed map with a duplicate-free chain of virtuals and the mark its end calls for |
| Virtuals.ResolutionUnique | cmd/dhs/cmd_cerebrum_usage.go:67-87 | effective source, hops and mark are functions of the feeds |
| Virtuals.MarksByOrbit | cmd/dhs/cmd_cerebrum_usage.go:67-87 | loop exactly when the orbit never leaves the virtuals, unfed exactly when it stops at one, an effective source exactly when it stops there |
| Replace.ReplaceCells | cmd/dhs/cmd_cerebrum_usage.go:462-468 | the selected cells are those in scope that carry the source, in snapshot order |
| Replace.PlanPlain | cmd/dhs/cmd_cerebrum_usage.go:462-468 | one action for every row with the source, on the one level or on any, source level kept, in order |
| Replace.PhysicalCommutes | cmd/dhs/cmd_cerebrum_usage.go:71-129 | replacing one physical source by another only renames effective sources: hops and marks stay |
| Replace.ReplaceCommutesIff | cmd/dhs/cmd_cerebrum_usage.go:71-129 | that holds on every cell exactly when both sources are physical or no cell in scope carries the old one |
| Replace.ReplaceConverges | cmd/dhs/cmd_cerebrum_usage.go:485-501 | the snapshot after the run holds exactly the rewritten rows, source levels kept, less those whose new source is no route; a second run sends nothing |
| Replace.CellsStayToldIff | cmd/dhs/cmd_cerebrum_state.go:76-85 | every rewritten row is in that snapshot exactly when the new source is a route or nothing was carried |
| Replace.ReplaceExchangesIff | cmd/dhs/cmd_cerebrum_usage.go:462-501 | of any snapshot, stale rows included: the run exchanges the source of just the cells that carry it exactly when the last action on each cell was read off its current row or sets what the cell holds |
| Replace.StaleRowReplaced | cmd/dhs/cmd_cerebrum_usage.go:462-468 | a snapshot with a stale row, on which replacing 5 by 9 takes 7 from a cell |
| Replace.ReplacedSnapshotCommutesIff | cmd/dhs/cmd_cerebrum_usage.go:462-501 | the resolutions of the snapshot taken after the run are the renamed ones on every cell exactly when both sources are physical and the new one is a route or no cell reached the old one through a virtual, or when nothing was carried |
| Replace.NoRouteUnfeeds | cmd/dhs/cmd_cerebrum_usage.go:71-87 | replacing 5 by 0 leaves a virtual that took 5 without a feed, though both sources are physical |
| Replace.VirtualReplacementChangesHops | cmd/dhs/cmd_cerebrum_usage.go:71-87 | a concrete replacement of a virtual source that changes the hops |
| Usage.BuildUsage | cmd/dhs/cmd_cerebrum_usage.go:92-129 | the rows partition the well-formed routes, one row per key in order of appearance; no row lists a foreign level, and each shows the resolution of its routes when chains stay apart |
| Usage.RowsPlain | cmd/dhs/cmd_cerebrum_usage.go:103-122 | two routes are in one row exactly when they have the source, the destination and of their chains the end, the mark and the joined hops in common |
| Usage.RowsInOrder | cmd/dhs/cmd_cerebrum_usage.go:102-128 | the rows come in the order in which the routes first have their key |
| Usage.UnresolvedPlain | cmd/dhs/cmd_cerebrum_usage.go:107-112 | without resolving, no row shows a chain and no two are of one source and destination |
| Usage.ResolvedPlain | cmd/dhs/cmd_cerebrum_usage.go:107-114 | with it, a row shows the chain of one of its routes |
| Usage.LevelPlain | cmd/dhs/cmd_cerebrum_usage.go:103-122 | a level of a row is that of a route from its source to its destination |
| UsageTruth.RowsTruthfulIff | cmd/dhs/cmd_cerebrum_usage.go:92-129 | every row of every snapshot shows the resolution of each route it lists exactly when no two chains of the virtual IDs read alike once joined |
| UsageTruth.SeparatorConfuses | cmd/dhs/cmd_cerebrum_usage.go:112-118 | four IDs and five routes whose usage list holds one row for two levels of different chains |
| UsageTruth.ConfusingRoutes | cmd/dhs/cmd_cerebrum_usage.go:112-118 | those five routes |
| UsageTruth.KeyTellsResolutionIff | cmd/dhs/cmd_cerebrum_usage.go:103-112 | the key tells resolutions apart on all feeds under exactly the same condition |
| Usage.SeparatorFreeApart | cmd/dhs/cmd_cerebrum_usage.go:112 | IDs without the separator keep chains apart |
| LabelRows.Dedupe | cmd/dhs/cmd_cerebrum_names.go:132-191 | the merging loop yields the specified rows, levels and associations included |
| LabelRows.SameLabels | cmd/dhs/cmd_cerebrum_names.go:132-191 | the labels of the merged rows, in order, are the merged labels, whatever the levels and associations are |
| LabelRows.MergedRow | cmd/dhs/cmd_cerebrum_names.go:151-165 | the row of a resource is on exactly the non-empty levels of its rows, once each, and has one association for every level index, port and device of theirs, and no other |
| LabelRows.BindingsPlain | cmd/dhs/cmd_cerebrum_names.go:159-165 | no two associations of a merged row agree on level index, joined port IDs and device, and each of the resource has its like |
| LabelRows.FirstBindingKept | cmd/dhs/cmd_cerebrum_names.go:159-165 | of several alike the first is kept |
| KeyOrder.LabelRowsAscend | cmd/dhs/cmd_cerebrum_names.go:184-189 | with comparable IDs the merged rows ascend by ID and then by mnemonic |
| LabelRows.AllBoundIff | cmd/dhs/cmd_cerebrum_names.go:159-165 | no association of a resource is dropped exactly when no two different ones agree on level index, port and device |
| Labels.DedupedMember | cmd/dhs/cmd_cerebrum_names.go:127-191 | one row per (ID, mnemonic) pair with both parts non-empty; an ID with two mnemonics keeps both |
| Labels.MergedFirst | cmd/dhs/cmd_cerebrum_names.go:166-177 | the first non-empty value of an alternate slot wins |
| Labels.MergedPlain | cmd/dhs/cmd_cerebrum_names.go:132-183 | a merged row has an ID and a mnemonic that a row of the snapshot has, and of each alternate the first value given it |
| Labels.NamesPlain | cmd/dhs/cmd_cerebrum_names.go:132-150 | before they are sorted the merged rows come in the order in which the rows first have their ID and mnemonic |
| Labels.EveryRowMerged | cmd/dhs/cmd_cerebrum_names.go:132-150 | every row with an ID and a mnemonic is merged into one |
| LabelOrder.DedupeIdempotentIff | cmd/dhs/cmd_cerebrum_names.go:132-191 | merging merged rows changes nothing, of every snapshot and under every stable sort of rows and levels, exactly when the IDs are comparable |
| LabelOrder.AnyStableSortMerges | cmd/dhs/cmd_cerebrum_names.go:184-189 | with comparable IDs every stable sort merges a snapshot to the same rows |
| Labels.DiffLabels | cmd/dhs/cmd_cerebrum_state.go:241-293 | the planner yields the specified plan, clear mode included |
| Labels.PlanMember | cmd/dhs/cmd_cerebrum_state.go:233-293 | the plan holds exactly the changes some managed cell asks for |
| Labels.PlanPlain | cmd/dhs/cmd_cerebrum_state.go:241-285 | a change goes from what the first merged row of the ID has to what a desired row says, of the mnemonic, an alternate it has or, when clearing, a column of the file; to nothing only when clearing |
| Labels.CellPlanned | cmd/dhs/cmd_cerebrum_state.go:241-285 | every such cell that holds something else is planned |
| KeyOrder.LabelPlanAscends | cmd/dhs/cmd_cerebrum_state.go:286-291 | with comparable IDs the plan ascends by ID and then by slot |
| Labels.CurrentIsVisible | cmd/dhs/cmd_cerebrum_state.go:242-247 | merging the repeats of a snapshot recovers exactly the labels that show |
| Labels.LabelsConverge | cmd/dhs/cmd_cerebrum_state.go:233-293 | when rows of one resource agree, non-empty desired labels are live, and a cell to clear ends empty exactly when it was empty or its resource had a primary |
| Labels.LabelsUntouched | cmd/dhs/cmd_cerebrum_state.go:233-240 | a cell no row wants written is never written: unmanaged columns, absent resources and, without clear mode, empty cells |
| Labels.LabelRunTwiceIsZeroIff | cmd/dhs/cmd_cerebrum_state.go:241-293 | of any file, a second run plans nothing exactly when the rows of each resource agree, no row is stuck without a primary and none uncovers a hidden label |
| Labels.StuckNeverSettles | cmd/dhs/cmd_cerebrum_state.go:241-293 | a row for an alternate of a resource without a primary: it is written, and every later snapshot plans it again |
| Labels.UncoveredNeedsSecondRun | cmd/dhs/cmd_cerebrum_state.go:241-293 | a row that gives a resource its primary and is to clear a hidden alternate: the run leaves the alternate showing |
| StablePlans.LabelPlanOrder | cmd/dhs/cmd_cerebrum_state.go:286-291 | with comparable IDs every stable sort gives the label plan its order |
| StablePlans.LockRowsOrder | cmd/dhs/cmd_cerebrum_lock_csv.go:87-93 | with comparable IDs every stable sort gives the lock rows their order |
| StablePlans.ReplacePlanOrder | cmd/dhs/cmd_emberplus_usage.go:96 | every stable sort gives the replace plan its order |
| Labels.LabelExportImportIsZeroIff | cmd/dhs/cmd_cerebrum_state.go:241-293 | importing the merged snapshot plans nothing exactly when no ID was reported with two mnemonics |
| Locks.DiffLocks | cmd/dhs/cmd_cerebrum_lock_csv.go:182-204 | the planner yields the specified plan |
| Locks.PlanPlain | cmd/dhs/cmd_cerebrum_lock_csv.go:182-204 | the plan takes the cells the rows name from the state of their last snapshot row, capitals and white space aside, none or no row meaning RELEASED, to the other state asked for |
| Locks.LocksAreSafe | cmd/dhs/cmd_cerebrum_lock_csv.go:174-204 | at any point of any run an unnamed cell keeps its lock and a lock is cleared only by a row that says RELEASED |
| Locks.LocksConverge | cmd/dhs/cmd_cerebrum_lock_csv.go:174-204 | a consistent file puts every named cell in its state |
| Locks.LockRunTwiceIsZeroIff | cmd/dhs/cmd_cerebrum_lock_csv.go:174-204 | from any snapshot of the new locks a second run plans nothing exactly when no cell is asked for two states |
| Locks.ConflictNeverSettles | cmd/dhs/cmd_cerebrum_lock_csv.go:174-204 | a file that asks one cell for two states, which plans something whatever the locks are |
| LockFile.FormatLocks | cmd/dhs/cmd_cerebrum_lock_csv.go:56-109 | the printer writes one line per grouped row below the header |
| LockReading.PrintedPlain | cmd/dhs/cmd_cerebrum_lock_csv.go:56-109 | the printed file letter by letter |
| LockReading.RowsPlain | cmd/dhs/cmd_cerebrum_lock_csv.go:61-86 | one row for every ID, state and owner of a set lock, with exactly its non-empty levels |
| LockReading.KeysPlain | cmd/dhs/cmd_cerebrum_lock_csv.go:61-86 | before they are sorted the rows come in the order in which the locks first have their ID, state and owner |
| KeyOrder.LockRowsAscend | cmd/dhs/cmd_cerebrum_lock_csv.go:87-93 | with comparable IDs the rows ascend by ID and then by state |
| LockFile.ParseLocks | cmd/dhs/cmd_cerebrum_lock_csv.go:123-172 | the parser meets the specified reading, errors and the lines they name included |
| LockReading.ParsedPlain | cmd/dhs/cmd_cerebrum_lock_csv.go:123-172 | of any text: what each line says or breaks, as for the crosspoint file, reading past the end of a short row included |
| LockColumns.BodySafeIff | cmd/dhs/cmd_cerebrum_lock_csv.go:131-160 | no body below a header reads past the end of a row exactly when the three needed columns are the first three |
| LockColumns.LateColumnsFail | cmd/dhs/cmd_cerebrum_lock_csv.go:146-160 | a file of two lines that does |
| LockFile.ParsedRowsAccepted | cmd/dhs/cmd_cerebrum_lock_csv.go:153-170 | every row a successful parse yields has an ID, levels and a state the wire accepts |
| LockFile.LockFileReadableIff | cmd/dhs/cmd_cerebrum_lock_csv.go:56-172 | a printed snapshot reads back exactly when every row has a level and an accepted state, and then as the same locks |
| LockFile.LockExportImportIsZero | cmd/dhs/cmd_cerebrum_lock_csv.go:56-204 | importing an untouched lock export plans nothing |
| Categories.DiffCategory | cmd/dhs/cmd_cerebrum_cat.go:160-205 | the planner yields the specified plan: slot writes upwards, removals from the last slot down |
| Categories.PlanPlain | cmd/dhs/cmd_cerebrum_cat.go:160-205 | of a live category: a write for every listed slot whose last report row is not of the type, in any case, and the value, and a removal for every filled slot beyond the list, no other action |
| Categories.NewPlain | cmd/dhs/cmd_cerebrum_cat.go:160-173 | a category that is not there is created, then every slot written that is not BLANK |
| Categories.OrderPlain | cmd/dhs/cmd_cerebrum_cat.go:174-203 | writes ascend, then removals descend |
| Categories.AfterModifies | cmd/dhs/cmd_cerebrum_cat.go:174-193 | after the writes every desired slot holds its item unless a BLANK write was refused; nothing else moved |
| Categories.AfterDeletes | cmd/dhs/cmd_cerebrum_cat.go:194-203 | on any server the removals move no slot of the desired grid and leave nothing beyond it |
| Categories.CategoryConvergesIff | cmd/dhs/cmd_cerebrum_cat.go:149-205 | a run leaves exactly the listed grid precisely when the server takes BLANK writes or none faces an item |
| Categories.PlanEmptyIff | cmd/dhs/cmd_cerebrum_cat.go:149-205 | nothing is planned exactly when the category exists and its grid is the listed one |
| Categories.CategoryRunTwiceIsZeroIff | cmd/dhs/cmd_cerebrum_cat.go:149-205 | a second run plans nothing on exactly the same condition |
| Categories.AllLawful | cmd/dhs/cmd_cerebrum_cat.go:153-159 | a server that shifts later items down, one that empties the slot and one that leaves a BLANK in it are all covered |
| Categories.RefusalsKeepGrid | cmd/dhs/cmd_cerebrum_xpoint.go:676-703 | whichever actions the server refuses, a slot of the desired grid holds its item when its write was accepted and what it held before otherwise: no removal moves it |
| Categories.RefusedBlankStays | cmd/dhs/cmd_cerebrum_cat.go:174-193 | a category of one item, listed as BLANK, is left as it was by a server that refuses that write |
| CategoryFile.CategoryDefs | cmd/dhs/cmd_cerebrum_cat.go:312-341 | a live grid is written slot by slot with its gaps as BLANK rows |
| CategoryReading.DefsPlain | cmd/dhs/cmd_cerebrum_cat.go:306-341 | of the picked categories with details, in list order: as many slots as the highest index, each as its last row gives it, BLANK where that is missing or BLANK |
| CategoryFile.FormatCategories | cmd/dhs/cmd_cerebrum_cat.go:123-137 | the printer writes one line per slot in order |
| CategoryReading.PrintedPlain | cmd/dhs/cmd_cerebrum_cat.go:123-137 | the printed file letter by letter |
| CategoryReading.RowsPlain | cmd/dhs/cmd_cerebrum_cat.go:126-135 | one line for each slot of each definition, in order |
| CategoryFile.ParseCategories | cmd/dhs/cmd_cerebrum_cat.go:51-119 | the parser meets the specified reading under each file kind, errors and the lines they name included |
| CategoryReading.ParsedPlain | cmd/dhs/cmd_cerebrum_cat.go:51-119 | of any text: what each line says or breaks, types written out; the rows of a name are gathered in order |
| CategoryFile.GroupUndoesRows | cmd/dhs/cmd_cerebrum_cat.go:106-114 | grouping the rows of differently named definitions gives those that have rows |
| CategoryFile.ParsePrintedIff | cmd/dhs/cmd_cerebrum_cat.go:51-137 | printed definitions read back exactly when there is a slot and the file kind takes every item, and then as themselves, types in upper case |
| CategoryFile.CategoryExportImportIff | cmd/dhs/cmd_cerebrum_cat.go:41-341 | exported live grids read back exactly when there is a slot and the file kind takes every filled slot; what is read plans nothing |
| CategorySides.Walker.Subtree | cmd/dhs/cmd_cerebrum_cat.go:265-291 | the search with one shared visited set ends on every graph; what it newly visits is reachable and closed, and its answers are theirs |
| CategorySides.SidesOf | cmd/dhs/cmd_cerebrum_cat.go:265-298 | a category has a source (destination) side exactly when it reaches, through resource-free categories, one with such an item |
| CategorySides.SidesPlain | cmd/dhs/cmd_cerebrum_cat.go:245-291 | a source (destination) side exactly when a way of categories without an item of type SOURCE, SRCE, DEST or DESTINATION leads to one with an item of type SOURCE or SRCE (DEST or DESTINATION) |
| CategorySides.OtherTypesHandOn | cmd/dhs/cmd_cerebrum_cat.go:239-291 | a category whose items are all of other types has exactly the sides of the categories it lists |
| CategorySides.OwnItemsDecide | cmd/dhs/cmd_cerebrum_cat.go:235-243 | a category with items of its own is judged by them alone |
| CategorySides.Classify | cmd/dhs/cmd_cerebrum_cat.go:244-304 | the source set, the destination set and the mixed list are exactly the categories with a way to a SOURCE or SRCE item only, to a DEST or DESTINATION item only, to both |
| CategorySides.MixedMember | cmd/dhs/cmd_cerebrum_cat.go:296-299 | a category is in the mixed list exactly when it has both sides |
| CategorySides.MixedInOrder | cmd/dhs/cmd_cerebrum_cat.go:292-299 | the mixed list keeps the order of the categories |
| CategorySides.PickedItemsBelong | cmd/dhs/cmd_cerebrum_cat.go:91-105 | the file a category is sorted into refuses none of its items for being of the other side |
| CategorySides.SplitReadableIff | cmd/dhs/cmd_cerebrum_cat.go:41-341 | the same of each file the split exports, for any live set of plain fields |
| CategorySides.SplitReadsBack | cmd/dhs/cmd_cerebrum_cat.go:91-105 | of a set in the vocabulary every exported file with a slot reads back: no item lands in the file of the other side |
| CategoryImport.PlanImport | cmd/dhs/cmd_cerebrum_xpoint.go:529-551 | the definitions of the three files are planned one after another against the grids live before |
| CategoryImport.PlanInOrder | cmd/dhs/cmd_cerebrum_xpoint.go:540-550 | one definition after another |
| CategoryImport.JointImportIsZero | cmd/dhs/cmd_cerebrum_xpoint.go:444-551 | the three files of an untouched export load together and plan nothing |
| CategoryImport.ManyFilesIff | cmd/dhs/cmd_cerebrum_xpoint.go:474-551 | one category defined any number of times, live or not: a second run plans nothing exactly when the definitions ask for one grid and no slot with an item is a refused BLANK in all of them |
| CategoryImport.ImportRunTwiceIsZeroIff | cmd/dhs/cmd_cerebrum_xpoint.go:529-551 | a second import of all files plans nothing exactly when that holds of the definitions of every category they name |
| CategoryImport.UnnamedStays | cmd/dhs/cmd_cerebrum_xpoint.go:676-703 | an import leaves every category it does not name as it was |
| CategorySides.DestinationRefused | cmd/dhs/cmd_cerebrum_cat.go:42-46 | a live category with a DESTINATION item is exported to the destination file, whose import is refused at line 2 as an unknown type |
| CategorySides.SubtreeCanMix | cmd/dhs/cmd_cerebrum_cat.go:292-299 | a parent without items over a source and a destination category is mixed |
| DeviceWalk.Walk.Group | cmd/dhs/cmd_cerebrum_tree.go:315-357 | the in-place walk of a group makes the specified tour |
| DeviceWalk.WalkDevice | cmd/dhs/cmd_cerebrum_tree.go:294-366 | the whole walk makes the specified tour, within the budget, inventing no leaf and, untruncated, missing none whose path was not asked for as a node |
| DeviceWalk.WithinBudget | cmd/dhs/cmd_cerebrum_tree.go:315-362 | never more questions than the budget, none twice as a child, at most one per start and child |
| DeviceWalk.StartsHonest | cmd/dhs/cmd_cerebrum_tree.go:315-362 | a walk is cut short only when the budget is spent, and stopped only by a refused answer |
| DeviceWalk.WalkCovers | cmd/dhs/cmd_cerebrum_tree.go:287-366 | soundness and completeness of the leaves against reachability |
| DeviceRows.NodeIff | cmd/dhs/cmd_cerebrum_tree.go:368-421 | a row is worth asking for exactly when its trimmed type is blank, or is STRING in any case and its trimmed value is blank, holds a comma or is one UUID of 8-4-4-4-12 hexadecimal digits |
| DeviceWalk.WalkExplores | cmd/dhs/cmd_cerebrum_tree.go:315-366 | neither refused nor cut short, the walk has asked for its starts and for every such row below an asked path that does not echo, and for no other path; its leaves are the echoes and the other rows, short of those whose path was asked for |
| DeviceWalk.LeafLost | cmd/dhs/cmd_cerebrum_tree.go:334-351 | a device on which a leaf is lost although nothing was truncated |
| DeviceWalk.LeafKept | cmd/dhs/cmd_cerebrum_tree.go:334-351 | the same rows in the other order keep it |
| DeviceOrder.ExactInAnyOrderIff | cmd/dhs/cmd_cerebrum_tree.go:315-366 | a finite tree without refusals is walked to exactly its leaves, in every order of rows and starts and with every sufficient budget, precisely when each path that is a plain leaf and a node echoes that very leaf |
| DeviceTree.ExactLeaves | cmd/dhs/cmd_cerebrum_tree.go:315-366 | under that condition any sound and complete result is exactly the leaves of the tree |
| DeviceTree.ExactLeafPaths | cmd/dhs/cmd_cerebrum_tree.go:381-397 | the leaf paths are complete when every path that is both turns out to be a leaf |
| Focus.GreedyIsShortest | cmd/dhs/cmd_cerebrum_tree.go:207-221 | the greedy match exists exactly when any does and ends no later |
| Focus.EmbedsPlain | cmd/dhs/cmd_cerebrum_tree.go:207-221 | the segments stand in a path at ascending places, each the same in capitals |
| Focus.ExpandFocus | cmd/dhs/cmd_cerebrum_tree.go:190-227 | the result is the shortest prefix of any path that holds the segments, the first of equally short ones; the input comes back when there is none |
| Converge.MatrixConverge | cmd/dhs/cmd_matrix.go:138-193 | the projected set is the union, difference or replacement and a change is reported exactly when it differs |
| Connections.TargetView | cmd/dhs/cmd_matrix.go:138-148 | a target's set after a plan depends on its own actions only |
| MatrixPlan.DiffMatrix | cmd/dhs/cmd_emberplus_xpoint.go:356-426 | the planner yields the specified plan or the specified refusal, narrowing included |
| MatrixActions.AcceptedPlain | cmd/dhs/cmd_emberplus_xpoint.go:356-391 | a file is planned exactly when every row is on level "0" with two numbers and no target has more rows than the matrix grants; otherwise the first bad row decides the error |
| MatrixActions.ActionsPlain | cmd/dhs/cmd_emberplus_xpoint.go:405-424 | each action is about a target some row names that does not hold what its rows list; on a many-to-many matrix it connects exactly what is missing or disconnects exactly what is surplus, on any other it is absolute and names the whole wanted set |
| MatrixActions.EveryNeedPlanned | cmd/dhs/cmd_emberplus_xpoint.go:405-424 | every such target has an action |
| MatrixActions.OneActionEach | cmd/dhs/cmd_emberplus_xpoint.go:405-424 | two actions on one target occur on a many-to-many matrix only, the connection first |
| MatrixActions.OldOrNew | cmd/dhs/cmd_emberplus_xpoint.go:418-423 | on any other matrix a target has its old sources or its new ones, never both, at every stage of the run |
| MatrixActions.NeverTwo | cmd/dhs/cmd_emberplus_xpoint.go:380-423 | a target that holds at most one source never holds two while a one-source file is imported |
| MatrixActions.OrderPlain | cmd/dhs/cmd_emberplus_xpoint.go:371-375 | targets are planned in the order in which the rows first name them |
| MatrixText.ListTextTells | cmd/dhs/cmd_emberplus_xpoint.go:397-403 | the printed From or To of a change tells the source list, with either separator |
| MatrixPlan.RowsConvergeIff | cmd/dhs/cmd_emberplus_xpoint.go:356-426 | every target number ends with the sources the file lists for it, and one it does not list with what it had, on every matrix in every state exactly when all numbers of the file fit 32 bits |
| MatrixPlan.PairKeepsIff | cmd/dhs/cmd_emberplus_xpoint.go:365-375 | a row is planned under its own numbers exactly when both fit 32 bits |
| MatrixPlan.FarTargetHits | cmd/dhs/cmd_emberplus_xpoint.go:371-375 | a file that names only target 4294967296 changes target 0 |
| MatrixPlan.MatrixConverges | cmd/dhs/cmd_emberplus_xpoint.go:356-426 | of the narrowed numbers: on the way a source both held and wanted is never dropped, and a target the file does not list never changes |
| MatrixPlan.EveryActionActs | cmd/dhs/cmd_emberplus_xpoint.go:399-424 | each action changes its target's set at the moment it is sent |
| MatrixPlan.MatrixRunTwiceIsZero | cmd/dhs/cmd_emberplus_xpoint.go:356-426 | a second run plans nothing |
| MatrixPlan.FinalWithinLimit | cmd/dhs/cmd_emberplus_xpoint.go:380-391 | the final sets keep the validated per-target limit |
| MatrixPlan.LimitKeptOnTheWayIff | cmd/dhs/cmd_emberplus_xpoint.go:408-417 | a many-to-many run keeps a limit throughout exactly when every target's held and wanted sources together fit it |
| MatrixPlan.LimitBrokenOnTheWay | cmd/dhs/cmd_emberplus_xpoint.go:408-417 | a validated file whose run exceeds its limit on the way |
| MatrixReplace.PlanReplace | cmd/dhs/cmd_emberplus_usage.go:67-98 | the planner yields the specified plan in target order |
| MatrixActions.ReplaceActionsPlain | cmd/dhs/cmd_emberplus_usage.go:67-98 | each action is about a target that carries the source and says in the way of the matrix that it is to take the new one instead; targets ascend, one action each but for the two of a many-to-many matrix |
| MatrixReplace.ReplaceConverges | cmd/dhs/cmd_emberplus_usage.go:67-98 | every carrying target ends with the old source exchanged for the new, others unchanged, and kept sources stay connected throughout |
| MatrixReplace.BehaviorIndependent | cmd/dhs/cmd_emberplus_usage.go:67-98 | the outcome is the same for every matrix behaviour |
| MatrixReplace.EveryReplaceActsIff | cmd/dhs/cmd_emberplus_usage.go:67-98 | each action changes its target when sent exactly when the two narrowed numbers differ or nothing is sent |
| MatrixReplace.ReplaceRunTwiceIsZeroIff | cmd/dhs/cmd_emberplus_usage.go:67-98 | a second run plans nothing exactly when the narrowed numbers differ, the matrix is many-to-many or nothing carried the source |
| MatrixReplace.ReplaceCommandConvergesIff | cmd/dhs/cmd_emberplus_usage.go:291-370 | for any two different numbers the command accepts: on every matrix just the source named is replaced by the one named exactly when both fit 32 bits, or the first does not and they narrow to one |
| MatrixReplace.ReplaceCommandSettlesIff | cmd/dhs/cmd_emberplus_usage.go:291-382 | for any two different numbers the command accepts: idle actions are sent, and sent again, exactly when the numbers differ by a multiple of 2^32 and something carries the source outside a many-to-many matrix |
| MatrixReplace.FarNumberIdles | cmd/dhs/cmd_emberplus_usage.go:297-300 | replacing 1 by 4294967297 is accepted and sends an action that changes nothing |
| PlanGate.PlanUnknown | cmd/dhs/cmd_cerebrum_plancheck.go:23-84 | the gate prints the complaints in the order of the plan |
| PlanGate.ComplaintIff | cmd/dhs/cmd_cerebrum_plancheck.go:23-84 | each kind of complaint is made of exactly the rows of the plan whose ID of that kind, trimmed, is not blank and not in the list, where there is one |
| PlanGate.GateOpensIff | cmd/dhs/cmd_cerebrum_plancheck.go:19-84 | no complaint exactly when every ID the plan names, trimmed, is blank or in its list, the list is empty, or it is a level the plan itself names |
| PlanGate.Import | cmd/dhs/cmd_cerebrum_xpoint.go:515-551 | sent exactly when every ID of the plan, trimmed, is blank or in its list (a level also when the plan names it; an empty list judges nothing); then the route, lock, label and category plans are sent, and the same is true of every ID of their route, lock and source and destination label actions |

## Left out

- Sessions, login, sockets, timers, supervisors, reconnects, mDNS: input and output only. A refused action is a parameter of the run.
- `cerebrumObtainState`: event collection and idle timers; snapshots are arbitrary values.
- Flags, help, JSON and table output, log sinks, file paths, manifests.
- Label files: their quoting is `encoding/csv`, whose source is not part of this model; labels start from parsed rows.
- LabelRows.Dedupe: what the merging does not read of an association (type, tags, reversal, IP unit and so on) is one value.
- Labels.DiffLabels: one kind (source, destination, level) per call; the kind is copied into every change.
- Categories.DiffCategory: the rendered text of what a slot held before is kept as the item itself.
- MatrixPlan.DiffMatrix: a change keeps From and To as lists, and a refusal for too many sources names no target: the program names the first that its map order meets.
- XpointFile.ParseXpoint: error values say which rule was broken and on which line, not the words of the message.
- LockFile.ParseLocks: the same, and reading past the end of a row is an error value.
- CategoryFile.ParseCategories: the same.
- DeviceWalk.WalkDevice: the device answers a path the same way every time it is asked.
- Replace.ReplaceConverges: for snapshots with one source per cell; Replace.ReplaceExchangesIff says what the others need.
- PlanGate.Import: the actions are returned, not sent one by one; the sending is the subject of the plans' own results.
- LibrarySort.TwiceDiffers: the library's sort is modelled on lists of up to 21 elements, one block of 20 and a block of one.
- Unicode: characters are code units, case folding and white space are ASCII.
- `cmd_matrix_linked.go`, bounds clamping, alarm engine, fan-out rendering: one-line rules or a copy of the route plan.
