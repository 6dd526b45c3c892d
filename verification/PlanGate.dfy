/** The gate an import passes before anything is sent: no row may name a destination, source
    or level the server does not list. */
module PlanGate {
  import opened Wrappers
  import opened Text
  import opened Routes
  import opened Locks
  import Labels
  import Categories
  import CategoryFile
  import CategoryImport

  /** What an import asks for. */
  datatype Plan = Plan(
    routes: seq<RouteSpec>, locks: seq<LockRow>, srceLocks: seq<LockRow>,
    src: seq<Labels.MneRow>, dst: seq<Labels.MneRow>, lvl: seq<Labels.MneRow>,
    categories: seq<CategoryFile.CatDef>)

  /** How its label files are read: the alternate columns of each, and clear mode. */
  datatype LabelMode = LabelMode(
    srcSlots: seq<Labels.AltSlot>, dstSlots: seq<Labels.AltSlot>, lvlSlots: seq<Labels.AltSlot>, clear: bool)

  /** The IDs the server lists. */
  datatype Catalogue = Catalogue(src: seq<string>, dst: seq<string>, lvl: seq<string>)

  /** One complaint; the row it is about and the ID the server lacks. */
  datatype Unknown =
    | RouteDest(route: RouteSpec)
    | RouteSource(route: RouteSpec)
    | RouteLevel(route: RouteSpec)
    | RouteSourceLevel(route: RouteSpec)
    | LockTarget(row: LockRow, source: bool)
    | LockLevel(row: LockRow, source: bool, level: string)
    | SourceLabel(id: string)
    | DestLabel(id: string)

  function RouteIntro(r: RouteSpec): string {
    "route " + r.dest + ":" + r.srce + ":" + r.level + ": "
  }

  function Side(source: bool): string {
    if source then "source" else "destination"
  }

  /** What the ID is and which it is. */
  function Missed(u: Unknown): (string, string) {
    match u
    case RouteDest(r) => ("destination", r.dest)
    case RouteSource(r) => ("source", r.srce)
    case RouteLevel(r) => ("level", r.level)
    case RouteSourceLevel(r) => ("source level", r.srceLevel)
    case LockTarget(row, source) => (Side(source), row.id)
    case LockLevel(_, _, level) => ("level", level)
    case SourceLabel(id) => ("source", id)
    case DestLabel(id) => ("destination", id)
  }

  /** The row a complaint is about. */
  function About(u: Unknown): string {
    match u
    case RouteDest(r) => RouteIntro(r)
    case RouteSource(r) => RouteIntro(r)
    case RouteLevel(r) => RouteIntro(r)
    case RouteSourceLevel(r) => RouteIntro(r)
    case LockTarget(row, source) => Side(source) + " lock " + row.id + ": "
    case LockLevel(row, source, _) => Side(source) + " lock " + row.id + ": "
    case SourceLabel(id) => "source label " + id + ": "
    case DestLabel(id) => "destination label " + id + ": "
  }

  function Sentence(u: Unknown): string {
    About(u) + Missed(u).0 + " " + Missed(u).1 + " does not exist"
  }

  function Sentences(bad: seq<Unknown>): seq<string> {
    seq(|bad|, i requires 0 <= i < |bad| => Sentence(bad[i]))
  }

  /** A catalogue the server did not return is not judged; neither is a blank ID. */
  predicate Known(listed: seq<string>, id: string) {
    listed == [] || Trim(id) == "" || Trim(id) in listed
  }

  function Ids(rows: seq<Labels.MneRow>): seq<string> {
    seq(|rows|, i requires 0 <= i < |rows| => rows[i].id)
  }

  /** The plan's own level rows may create levels. */
  function Levels(st: Catalogue, p: Plan): seq<string> {
    if st.lvl == [] then [] else st.lvl + Ids(p.lvl)
  }

  function RouteComplaints(st: Catalogue, levels: seq<string>, r: RouteSpec): seq<Unknown> {
    (if Known(st.dst, r.dest) then [] else [RouteDest(r)])
    + (if Known(st.src, r.srce) then [] else [Unknown.RouteSource(r)])
    + (if Known(levels, r.level) then [] else [RouteLevel(r)])
    + (if Known(levels, r.srceLevel) then [] else [RouteSourceLevel(r)])
  }

  function LevelComplaints(levels: seq<string>, row: LockRow, source: bool, asked: seq<string>): seq<Unknown> {
    if asked == [] then []
    else
      var l, before := asked[|asked| - 1], LevelComplaints(levels, row, source, asked[..|asked| - 1]);
      if Known(levels, l) then before else before + [LockLevel(row, source, l)]
  }

  function LockComplaints(listed: seq<string>, levels: seq<string>, source: bool, row: LockRow): seq<Unknown> {
    (if Known(listed, row.id) then [] else [LockTarget(row, source)]) + LevelComplaints(levels, row, source, row.levels)
  }

  function AllRoutes(st: Catalogue, levels: seq<string>, routes: seq<RouteSpec>): seq<Unknown> {
    if routes == [] then []
    else AllRoutes(st, levels, routes[..|routes| - 1]) + RouteComplaints(st, levels, routes[|routes| - 1])
  }

  function AllLocks(listed: seq<string>, levels: seq<string>, source: bool, rows: seq<LockRow>): seq<Unknown> {
    if rows == [] then []
    else AllLocks(listed, levels, source, rows[..|rows| - 1]) + LockComplaints(listed, levels, source, rows[|rows| - 1])
  }

  function AllLabels(listed: seq<string>, source: bool, ids: seq<string>): seq<Unknown> {
    if ids == [] then []
    else
      var id, before := ids[|ids| - 1], AllLabels(listed, source, ids[..|ids| - 1]);
      if Known(listed, id) then before else before + [if source then SourceLabel(id) else DestLabel(id)]
  }

  function Complaints(st: Catalogue, p: Plan): seq<Unknown> {
    var levels := Levels(st, p);
    AllRoutes(st, levels, p.routes) + AllLocks(st.dst, levels, false, p.locks)
      + AllLocks(st.src, levels, true, p.srceLocks)
    + AllLabels(st.src, true, Ids(p.src)) + AllLabels(st.dst, false, Ids(p.dst))
  }

  method CheckLevels(levels: seq<string>, row: LockRow, source: bool, asked: seq<string>) returns (bad: seq<Unknown>)
    ensures bad == LevelComplaints(levels, row, source, asked)
  {
    bad := [];
    for j := 0 to |asked|
      invariant bad == LevelComplaints(levels, row, source, asked[..j])
    {
      assert asked[..j + 1][..j] == asked[..j];
      if !Known(levels, asked[j]) {
        bad := bad + [LockLevel(row, source, asked[j])];
      }
    }
    assert asked[..|asked|] == asked;
  }

  method CheckLock(listed: seq<string>, levels: seq<string>, source: bool, row: LockRow) returns (bad: seq<Unknown>)
    ensures bad == LockComplaints(listed, levels, source, row)
  {
    bad := if Known(listed, row.id) then [] else [LockTarget(row, source)];
    var unlisted := CheckLevels(levels, row, source, row.levels);
    bad := bad + unlisted;
  }

  method CheckLocks(listed: seq<string>, levels: seq<string>, source: bool, rows: seq<LockRow>)
    returns (bad: seq<Unknown>)
    ensures bad == AllLocks(listed, levels, source, rows)
  {
    bad := [];
    for i := 0 to |rows|
      invariant bad == AllLocks(listed, levels, source, rows[..i])
    {
      assert rows[..i + 1][..i] == rows[..i];
      var found := CheckLock(listed, levels, source, rows[i]);
      bad := bad + found;
    }
    assert rows[..|rows|] == rows;
  }

  method CheckRoute(st: Catalogue, levels: seq<string>, r: RouteSpec) returns (bad: seq<Unknown>)
    ensures bad == RouteComplaints(st, levels, r)
  {
    bad := [];
    if !Known(st.dst, r.dest) {
      bad := bad + [RouteDest(r)];
    }
    if !Known(st.src, r.srce) {
      bad := bad + [Unknown.RouteSource(r)];
    }
    if !Known(levels, r.level) {
      bad := bad + [RouteLevel(r)];
    }
    if !Known(levels, r.srceLevel) {
      bad := bad + [RouteSourceLevel(r)];
    }
  }

  method CheckRoutes(st: Catalogue, levels: seq<string>, routes: seq<RouteSpec>) returns (bad: seq<Unknown>)
    ensures bad == AllRoutes(st, levels, routes)
  {
    bad := [];
    for i := 0 to |routes|
      invariant bad == AllRoutes(st, levels, routes[..i])
    {
      assert routes[..i + 1][..i] == routes[..i];
      var found := CheckRoute(st, levels, routes[i]);
      bad := bad + found;
    }
    assert routes[..|routes|] == routes;
  }

  method CheckLabels(listed: seq<string>, source: bool, ids: seq<string>) returns (bad: seq<Unknown>)
    ensures bad == AllLabels(listed, source, ids)
  {
    bad := [];
    for i := 0 to |ids|
      invariant bad == AllLabels(listed, source, ids[..i])
    {
      assert ids[..i + 1][..i] == ids[..i];
      if !Known(listed, ids[i]) {
        bad := bad + [if source then SourceLabel(ids[i]) else DestLabel(ids[i])];
      }
    }
    assert ids[..|ids|] == ids;
  }

  method PlanUnknown(st: Catalogue, p: Plan) returns (lines: seq<string>)
    ensures lines == Sentences(Complaints(st, p))
  {
    var levels := Levels(st, p);
    var bad := CheckRoutes(st, levels, p.routes);
    var locks := CheckLocks(st.dst, levels, false, p.locks);
    var srceLocks := CheckLocks(st.src, levels, true, p.srceLocks);
    var src := CheckLabels(st.src, true, Ids(p.src));
    var dst := CheckLabels(st.dst, false, Ids(p.dst));
    lines := Sentences(bad + locks + srceLocks + src + dst);
  }

  // ---- what the complaints are ----

  /** The ID is not blank and the list, if there is one, lacks it. */
  ghost predicate Lacks(listed: seq<string>, id: string) {
    listed != [] && Trim(id) != "" && forall i :: 0 <= i < |listed| ==> listed[i] != Trim(id)
  }

  /** The level is neither listed nor made by a label row of the plan. */
  ghost predicate LacksLevel(st: Catalogue, p: Plan, level: string) {
    Lacks(st.lvl, level) && forall row :: row in p.lvl ==> row.id != Trim(level)
  }

  /** The row of the complaint is in the plan, and the catalogue lacks its ID. */
  ghost predicate Misses(st: Catalogue, p: Plan, u: Unknown) {
    match u
    case RouteDest(r) => r in p.routes && Lacks(st.dst, r.dest)
    case RouteSource(r) => r in p.routes && Lacks(st.src, r.srce)
    case RouteLevel(r) => r in p.routes && LacksLevel(st, p, r.level)
    case RouteSourceLevel(r) => r in p.routes && LacksLevel(st, p, r.srceLevel)
    case LockTarget(row, true) => row in p.srceLocks && Lacks(st.src, row.id)
    case LockTarget(row, false) => row in p.locks && Lacks(st.dst, row.id)
    case LockLevel(row, source, level) =>
      row in (if source then p.srceLocks else p.locks) && level in row.levels && LacksLevel(st, p, level)
    case SourceLabel(id) => (exists row :: row in p.src && row.id == id) && Lacks(st.src, id)
    case DestLabel(id) => (exists row :: row in p.dst && row.id == id) && Lacks(st.dst, id)
  }

  lemma LacksIff(listed: seq<string>, id: string)
    ensures Lacks(listed, id) <==> !Known(listed, id)
  {
  }

  lemma IdOfRow(rows: seq<Labels.MneRow>, id: string)
    ensures id in Ids(rows) <==> exists row :: row in rows && row.id == id
  {
    if row :| row in rows && row.id == id {
      var i :| 0 <= i < |rows| && rows[i] == row;
      assert Ids(rows)[i] == id;
    }
    if id in Ids(rows) {
      var i :| 0 <= i < |rows| && Ids(rows)[i] == id;
      assert rows[i] in rows;
    }
  }

  lemma LacksLevelIff(st: Catalogue, p: Plan, level: string)
    ensures LacksLevel(st, p, level) <==> !Known(Levels(st, p), level)
  {
    IdOfRow(p.lvl, Trim(level));
    LacksIff(st.lvl, level);
  }

  lemma {:induction false} RouteComplaintMember(st: Catalogue, levels: seq<string>, routes: seq<RouteSpec>, u: Unknown)
    ensures u in AllRoutes(st, levels, routes) <==> exists r :: r in routes && u in RouteComplaints(st, levels, r)
  {
    if routes != [] {
      assert routes == routes[..|routes| - 1] + [routes[|routes| - 1]];
      RouteComplaintMember(st, levels, routes[..|routes| - 1], u);
    }
  }

  lemma {:induction false} LevelComplaintMember(levels: seq<string>, row: LockRow, source: bool, asked: seq<string>,
                                                u: Unknown)
    ensures u in LevelComplaints(levels, row, source, asked)
       <==> u.LockLevel? && u == LockLevel(row, source, u.level) && u.level in asked && !Known(levels, u.level)
  {
    if asked != [] {
      assert asked == asked[..|asked| - 1] + [asked[|asked| - 1]];
      LevelComplaintMember(levels, row, source, asked[..|asked| - 1], u);
    }
  }

  lemma {:induction false} LockComplaintMember(listed: seq<string>, levels: seq<string>, source: bool,
                                               rows: seq<LockRow>, u: Unknown)
    ensures u in AllLocks(listed, levels, source, rows)
       <==> exists w :: w in rows && u in LockComplaints(listed, levels, source, w)
  {
    if rows != [] {
      assert rows == rows[..|rows| - 1] + [rows[|rows| - 1]];
      LockComplaintMember(listed, levels, source, rows[..|rows| - 1], u);
    }
  }

  lemma {:induction false} LabelComplaintMember(listed: seq<string>, source: bool, ids: seq<string>, u: Unknown)
    ensures u in AllLabels(listed, source, ids)
       <==> exists id :: id in ids && !Known(listed, id) && u == if source then SourceLabel(id) else DestLabel(id)
  {
    if ids != [] {
      assert ids == ids[..|ids| - 1] + [ids[|ids| - 1]];
      LabelComplaintMember(listed, source, ids[..|ids| - 1], u);
    }
  }

  predicate LockMisses(listed: seq<string>, levels: seq<string>, source: bool, w: LockRow, u: Unknown) {
    || (u == LockTarget(w, source) && !Known(listed, w.id))
    || (u.LockLevel? && u == LockLevel(w, source, u.level) && u.level in w.levels && !Known(levels, u.level))
  }

  lemma LocksMiss(listed: seq<string>, levels: seq<string>, source: bool, rows: seq<LockRow>, u: Unknown)
    ensures u in AllLocks(listed, levels, source, rows)
       <==> exists w :: w in rows && LockMisses(listed, levels, source, w, u)
  {
    LockComplaintMember(listed, levels, source, rows, u);
    forall w | w in rows
      ensures u in LockComplaints(listed, levels, source, w) <==> LockMisses(listed, levels, source, w, u)
    {
      LevelComplaintMember(levels, w, source, w.levels, u);
    }
  }

  lemma RoutesMiss(st: Catalogue, levels: seq<string>, routes: seq<RouteSpec>, u: Unknown)
    ensures u in AllRoutes(st, levels, routes) <==> exists r :: r in routes && RouteMisses(st, levels, r, u)
  {
    RouteComplaintMember(st, levels, routes, u);
    forall r | r in routes
      ensures u in RouteComplaints(st, levels, r) <==> RouteMisses(st, levels, r, u)
    {
      RouteMissed(st, levels, r, u);
    }
  }

  predicate RouteMisses(st: Catalogue, levels: seq<string>, r: RouteSpec, u: Unknown) {
    || (u == RouteDest(r) && !Known(st.dst, r.dest))
    || (u == Unknown.RouteSource(r) && !Known(st.src, r.srce))
    || (u == RouteLevel(r) && !Known(levels, r.level))
    || (u == RouteSourceLevel(r) && !Known(levels, r.srceLevel))
  }

  lemma RouteMissed(st: Catalogue, levels: seq<string>, r: RouteSpec, u: Unknown)
    ensures u in RouteComplaints(st, levels, r) <==> RouteMisses(st, levels, r, u)
  {
  }

  lemma InComplaints(st: Catalogue, p: Plan, u: Unknown)
    ensures u in Complaints(st, p) <==>
      u in AllRoutes(st, Levels(st, p), p.routes)
      || u in AllLocks(st.dst, Levels(st, p), false, p.locks) || u in AllLocks(st.src, Levels(st, p), true, p.srceLocks)
      || u in AllLabels(st.src, true, Ids(p.src)) || u in AllLabels(st.dst, false, Ids(p.dst))
  {
  }

  lemma RouteWitness(st: Catalogue, levels: seq<string>, routes: seq<RouteSpec>, u: Unknown)
    ensures (exists r :: r in routes && RouteMisses(st, levels, r, u)) <==>
      (u.RouteDest? || u.RouteSource? || u.RouteLevel? || u.RouteSourceLevel?)
      && u.route in routes && RouteMisses(st, levels, u.route, u)
  {
  }

  /** The gate complains of exactly the IDs of the plan that the catalogue lacks. */
  lemma ComplaintIff(st: Catalogue, p: Plan, u: Unknown)
    ensures u in Complaints(st, p) <==> Misses(st, p, u)
  {
    ComplaintKnown(st, p, u);
    MissesIff(st, p, u);
  }

  lemma MissesIff(st: Catalogue, p: Plan, u: Unknown)
    ensures Misses(st, p, u) <==> Unmet(st, p, u)
  {
    match u
    case RouteDest(r) => LacksIff(st.dst, r.dest);
    case RouteSource(r) => LacksIff(st.src, r.srce);
    case RouteLevel(r) => LacksLevelIff(st, p, r.level);
    case RouteSourceLevel(r) => LacksLevelIff(st, p, r.srceLevel);
    case LockTarget(row, source) => LacksIff(if source then st.src else st.dst, row.id);
    case LockLevel(_, _, level) => LacksLevelIff(st, p, level);
    case SourceLabel(id) => LacksIff(st.src, id); IdOfRow(p.src, id);
    case DestLabel(id) => LacksIff(st.dst, id); IdOfRow(p.dst, id);
  }

  /** The complaint as the gate decides it. */
  predicate Unmet(st: Catalogue, p: Plan, u: Unknown) {
    match u
    case RouteDest(r) => r in p.routes && !Known(st.dst, r.dest)
    case RouteSource(r) => r in p.routes && !Known(st.src, r.srce)
    case RouteLevel(r) => r in p.routes && !Known(Levels(st, p), r.level)
    case RouteSourceLevel(r) => r in p.routes && !Known(Levels(st, p), r.srceLevel)
    case LockTarget(row, source) =>
      row in (if source then p.srceLocks else p.locks) && !Known(if source then st.src else st.dst, row.id)
    case LockLevel(row, source, level) =>
      row in (if source then p.srceLocks else p.locks) && level in row.levels && !Known(Levels(st, p), level)
    case SourceLabel(id) => id in Ids(p.src) && !Known(st.src, id)
    case DestLabel(id) => id in Ids(p.dst) && !Known(st.dst, id)
  }

  lemma ComplaintKnown(st: Catalogue, p: Plan, u: Unknown)
    ensures u in Complaints(st, p) <==> Unmet(st, p, u)
  {
    var levels := Levels(st, p);
    InComplaints(st, p, u);
    RoutesMiss(st, levels, p.routes, u);
    LocksMiss(st.dst, levels, false, p.locks, u);
    LocksMiss(st.src, levels, true, p.srceLocks, u);
    LabelComplaintMember(st.src, true, Ids(p.src), u);
    LabelComplaintMember(st.dst, false, Ids(p.dst), u);
    RouteWitness(st, levels, p.routes, u);
  }

  // ---- what an empty list means ----

  ghost predicate RouteKnown(st: Catalogue, levels: seq<string>, r: RouteSpec) {
    Known(st.dst, r.dest) && Known(st.src, r.srce) && Known(levels, r.level) && Known(levels, r.srceLevel)
  }

  ghost predicate LockKnown(listed: seq<string>, levels: seq<string>, row: LockRow) {
    Known(listed, row.id) && forall l :: l in row.levels ==> Known(levels, l)
  }

  /** Every ID of the plan, outer white space aside, is blank or listed; what the server does
      not list at all is not judged. A level may be one of the plan's own. */
  ghost predicate AllListed(st: Catalogue, p: Plan) {
    && (forall r :: r in p.routes ==>
          && (st.dst == [] || Trim(r.dest) in st.dst || Trim(r.dest) == "")
          && (st.src == [] || Trim(r.srce) in st.src || Trim(r.srce) == "")
          && LevelListed(st, p, r.level) && LevelListed(st, p, r.srceLevel))
    && (forall w :: w in p.locks ==>
          && (st.dst == [] || Trim(w.id) in st.dst || Trim(w.id) == "")
          && forall l :: l in w.levels ==> LevelListed(st, p, l))
    && (forall w :: w in p.srceLocks ==>
          && (st.src == [] || Trim(w.id) in st.src || Trim(w.id) == "")
          && forall l :: l in w.levels ==> LevelListed(st, p, l))
    && (forall row :: row in p.src ==> st.src == [] || Trim(row.id) in st.src || Trim(row.id) == "")
    && (forall row :: row in p.dst ==> st.dst == [] || Trim(row.id) in st.dst || Trim(row.id) == "")
  }

  ghost predicate LevelListed(st: Catalogue, p: Plan, l: string) {
    st.lvl == [] || Trim(l) in st.lvl || Trim(l) == "" || exists row :: row in p.lvl && row.id == Trim(l)
  }

  lemma LevelListedIff(st: Catalogue, p: Plan, l: string)
    ensures LevelListed(st, p, l) <==> Known(Levels(st, p), l)
  {
    IdOfRow(p.lvl, Trim(l));
  }

  lemma AllLevelsListedIff(st: Catalogue, p: Plan)
    ensures forall l :: LevelListed(st, p, l) <==> Known(Levels(st, p), l)
  {
    forall l
      ensures LevelListed(st, p, l) <==> Known(Levels(st, p), l)
    {
      LevelListedIff(st, p, l);
    }
  }

  lemma RowsKnownIff(listed: seq<string>, rows: seq<Labels.MneRow>)
    ensures (forall id :: id in Ids(rows) ==> Known(listed, id))
       <==> forall row :: row in rows ==> Known(listed, row.id)
  {
    forall row | row in rows
      ensures row.id in Ids(rows)
    {
      IdOfRow(rows, row.id);
    }
    forall id | id in Ids(rows)
      ensures exists row :: row in rows && row.id == id
    {
      IdOfRow(rows, id);
    }
  }

  lemma {:induction false} RoutesListedIff(st: Catalogue, levels: seq<string>, routes: seq<RouteSpec>)
    ensures AllRoutes(st, levels, routes) == [] <==> forall r :: r in routes ==> RouteKnown(st, levels, r)
  {
    if routes != [] {
      var front, last := routes[..|routes| - 1], routes[|routes| - 1];
      assert routes == front + [last];
      RoutesListedIff(st, levels, front);
      assert RouteComplaints(st, levels, last) == [] <==> RouteKnown(st, levels, last);
    }
  }

  lemma {:induction false} LevelsListedIff(levels: seq<string>, row: LockRow, source: bool, asked: seq<string>)
    ensures LevelComplaints(levels, row, source, asked) == [] <==> forall l :: l in asked ==> Known(levels, l)
  {
    if asked != [] {
      assert asked == asked[..|asked| - 1] + [asked[|asked| - 1]];
      LevelsListedIff(levels, row, source, asked[..|asked| - 1]);
    }
  }

  lemma {:induction false} LocksListedIff(listed: seq<string>, levels: seq<string>, source: bool, rows: seq<LockRow>)
    ensures AllLocks(listed, levels, source, rows) == [] <==> forall w :: w in rows ==> LockKnown(listed, levels, w)
  {
    if rows != [] {
      var front, last := rows[..|rows| - 1], rows[|rows| - 1];
      assert rows == front + [last];
      LocksListedIff(listed, levels, source, front);
      LevelsListedIff(levels, last, source, last.levels);
      assert LockComplaints(listed, levels, source, last) == [] <==> LockKnown(listed, levels, last);
    }
  }

  lemma {:induction false} LabelsListedIff(listed: seq<string>, source: bool, ids: seq<string>)
    ensures AllLabels(listed, source, ids) == [] <==> forall id :: id in ids ==> Known(listed, id)
  {
    if ids != [] {
      assert ids == ids[..|ids| - 1] + [ids[|ids| - 1]];
      LabelsListedIff(listed, source, ids[..|ids| - 1]);
    }
  }

  /** The gate complains of nothing exactly when every named ID is listed. */
  lemma GateOpensIff(st: Catalogue, p: Plan)
    ensures Complaints(st, p) == [] <==> AllListed(st, p)
  {
    var levels := Levels(st, p);
    RoutesListedIff(st, levels, p.routes);
    LocksListedIff(st.dst, levels, false, p.locks);
    LocksListedIff(st.src, levels, true, p.srceLocks);
    LabelsListedIff(st.src, true, Ids(p.src));
    LabelsListedIff(st.dst, false, Ids(p.dst));
    RowsKnownIff(st.src, p.src);
    RowsKnownIff(st.dst, p.dst);
    AllLevelsListedIff(st, p);
  }

  // ---- the import behind the gate ----

  /** The actions an import sends. */
  datatype Actions = Actions(
    routes: seq<RouteChange>, locks: seq<LockChange>, srceLocks: seq<LockChange>,
    labels: LabelActions, categories: seq<Categories.CatChange>)

  datatype LabelActions =
    LabelActions(src: seq<Labels.MneChange>, dst: seq<Labels.MneChange>, lvl: seq<Labels.MneChange>)

  datatype Snapshot = Snapshot(
    routes: seq<RouteSpec>, locks: seq<LockSpec>, srceLocks: seq<LockSpec>,
    src: seq<Labels.MneRow>, dst: seq<Labels.MneRow>, lvl: seq<Labels.MneRow>,
    categories: seq<string>, details: CategoryFile.Details)

  function LabelPlans(live: Snapshot, p: Plan, m: LabelMode): LabelActions {
    LabelActions(
      Labels.LabelDiff(live.src, p.src, m.srcSlots, m.clear),
      Labels.LabelDiff(live.dst, p.dst, m.dstSlots, m.clear),
      Labels.LabelDiff(live.lvl, p.lvl, m.lvlSlots, m.clear))
  }

  function ActionsOf(live: Snapshot, p: Plan, m: LabelMode): Actions {
    Actions(
      RouteDiff(live.routes, p.routes),
      LockDiff(LocksOf(live.locks), p.locks),
      LockDiff(LocksOf(live.srceLocks), p.srceLocks),
      LabelPlans(live, p, m),
      CategoryImport.ImportPlan(live.categories, live.details, p.categories))
  }

  /** Every destination, source and level an action names is listed; the labels' too.
      Categories name no such ID. */
  ghost predicate ActionsListed(st: Catalogue, p: Plan, a: Actions) {
    && (forall c :: c in a.routes ==>
          && (st.dst == [] || Trim(c.dest) in st.dst || Trim(c.dest) == "")
          && (st.src == [] || Trim(c.to) in st.src || Trim(c.to) == "")
          && LevelListed(st, p, c.level) && LevelListed(st, p, c.srceLevel))
    && (forall c :: c in a.locks ==>
          (st.dst == [] || Trim(c.id) in st.dst || Trim(c.id) == "") && LevelListed(st, p, c.level))
    && (forall c :: c in a.srceLocks ==>
          (st.src == [] || Trim(c.id) in st.src || Trim(c.id) == "") && LevelListed(st, p, c.level))
    && (forall c :: c in a.labels.src ==> st.src == [] || Trim(c.id) in st.src || Trim(c.id) == "")
    && (forall c :: c in a.labels.dst ==> st.dst == [] || Trim(c.id) in st.dst || Trim(c.id) == "")
  }

  method PlanLabels(live: Snapshot, p: Plan, m: LabelMode) returns (labels: LabelActions)
    ensures labels == LabelPlans(live, p, m)
  {
    var src := Labels.DiffLabels(live.src, p.src, m.srcSlots, m.clear);
    var dst := Labels.DiffLabels(live.dst, p.dst, m.dstSlots, m.clear);
    var lvl := Labels.DiffLabels(live.lvl, p.lvl, m.lvlSlots, m.clear);
    return LabelActions(src, dst, lvl);
  }

  /** All or nothing: a plan naming one unknown ID sends no action at all, and every action
      of a plan that is sent names only listed destinations, sources and levels. */
  method Import(st: Catalogue, live: Snapshot, p: Plan, m: LabelMode) returns (res: Result<Actions, seq<string>>)
    ensures res.Err? <==> !AllListed(st, p)
    ensures res.Err? ==> res.error == Sentences(Complaints(st, p)) != []
    ensures res.Ok? ==> res.value == ActionsOf(live, p, m) && ActionsListed(st, p, res.value)
    ensures res.Ok? ==>
      && res.value.routes == RouteDiff(live.routes, p.routes)
      && res.value.locks == LockDiff(LocksOf(live.locks), p.locks)
      && res.value.srceLocks == LockDiff(LocksOf(live.srceLocks), p.srceLocks)
      && res.value.labels.src == Labels.LabelDiff(live.src, p.src, m.srcSlots, m.clear)
      && res.value.labels.dst == Labels.LabelDiff(live.dst, p.dst, m.dstSlots, m.clear)
      && res.value.labels.lvl == Labels.LabelDiff(live.lvl, p.lvl, m.lvlSlots, m.clear)
      && res.value.categories == CategoryImport.ImportPlan(live.categories, live.details, p.categories)
  {
    GateOpensIff(st, p);
    var bad := PlanUnknown(st, p);
    if |bad| > 0 {
      return Err(bad);
    }
    var routes := DiffRoutes(live.routes, p.routes);
    var locks := DiffLocks(live.locks, p.locks);
    var srceLocks := DiffLocks(live.srceLocks, p.srceLocks);
    var labels := PlanLabels(live, p, m);
    var categories := CategoryImport.PlanImport(live.categories, live.details, p.categories);
    AllStayListed(st, live, p, m);
    return Ok(Actions(routes, locks, srceLocks, labels, categories));
  }

  lemma AllStayListed(st: Catalogue, live: Snapshot, p: Plan, m: LabelMode)
    requires AllListed(st, p)
    ensures ActionsListed(st, p, ActionsOf(live, p, m))
  {
    var a := ActionsOf(live, p, m);
    forall c | c in a.routes
      ensures exists r ::
        && r in p.routes && c.dest == r.dest && c.to == r.srce && c.level == r.level
        && c.srceLevel in {r.srceLevel, ""}
    {
      Routes.PlanMember(live.routes, p.routes, c);
    }
    assert Trim("") == "";
    LocksNamed(LocksOf(live.locks), p.locks);
    LocksNamed(LocksOf(live.srceLocks), p.srceLocks);
    LabelsNamed(live.src, p.src, m.srcSlots, m.clear);
    LabelsNamed(live.dst, p.dst, m.dstSlots, m.clear);
  }

  lemma LabelsNamed(live: seq<Labels.MneRow>, desired: seq<Labels.MneRow>, header: seq<Labels.AltSlot>, clear: bool)
    ensures forall c :: c in Labels.LabelDiff(live, desired, header, clear) ==>
      exists row :: row in desired && row.id == c.id
  {
    forall c | c in Labels.LabelDiff(live, desired, header, clear)
      ensures exists row :: row in desired && row.id == c.id
    {
      Labels.PlanMember(live, desired, header, clear, c);
    }
  }

  lemma LocksNamed(locks: LockMap, rows: seq<LockRow>)
    ensures forall c :: c in LockDiff(locks, rows) ==>
      exists row :: row in rows && row.id == c.id && c.level in row.levels
  {
    forall c | c in LockDiff(locks, rows)
      ensures exists row :: row in rows && row.id == c.id && c.level in row.levels
    {
      Locks.PlanMember(locks, rows, c);
      var row :| row in rows && Names(row, c.Target());
      assert row.id == c.id && c.level in row.levels;
    }
  }

  // ---- the words ----

  lemma SentencePlain(u: Unknown)
    ensures match u
      case RouteDest(r) =>
        Sentence(u) == "route " + r.dest + ":" + r.srce + ":" + r.level + ": " + "destination" + " " + r.dest
          + " does not exist"
      case RouteSource(r) =>
        Sentence(u) == "route " + r.dest + ":" + r.srce + ":" + r.level + ": " + "source" + " " + r.srce
          + " does not exist"
      case RouteLevel(r) =>
        Sentence(u) == "route " + r.dest + ":" + r.srce + ":" + r.level + ": " + "level" + " " + r.level
          + " does not exist"
      case RouteSourceLevel(r) =>
        Sentence(u) == "route " + r.dest + ":" + r.srce + ":" + r.level + ": " + "source level" + " " + r.srceLevel
          + " does not exist"
      case LockTarget(row, true) =>
        Sentence(u) == "source" + " lock " + row.id + ": " + "source" + " " + row.id + " does not exist"
      case LockTarget(row, false) =>
        Sentence(u) == "destination" + " lock " + row.id + ": " + "destination" + " " + row.id + " does not exist"
      case LockLevel(row, true, l) =>
        Sentence(u) == "source" + " lock " + row.id + ": " + "level" + " " + l + " does not exist"
      case LockLevel(row, false, l) =>
        Sentence(u) == "destination" + " lock " + row.id + ": " + "level" + " " + l + " does not exist"
      case SourceLabel(id) => Sentence(u) == "source label " + id + ": " + "source" + " " + id + " does not exist"
      case DestLabel(id) =>
        Sentence(u) == "destination label " + id + ": " + "destination" + " " + id + " does not exist"
  {
  }
}
