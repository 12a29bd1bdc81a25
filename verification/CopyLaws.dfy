/**
  Copying a version into another project (internal/db/copy.go): cloning into an existing
  project, and filling a new project from a template.
*/
module CopyLaws {
  import opened Paths
  import opened Table
  import opened Difference
  import opened Statements
  import opened LooseLaws

  /** A row of the query result: the columns that EXCEPT compares. */
  datatype Listed = Listed(path: Path, stored: Stored)

  /** The query from version 0 to `v` with an empty prefix. */
  function Listing(rows: set<Row>, project: int, v: int): set<Listed> {
    set r | r in Updated(Possible(rows, project, 0, v, false), project, 0, v) :: Listed(r.path, StoredOf(r))
  }

  function Unlisted(project: int, toRemove: set<Listed>): Row -> bool {
    (r: Row) => Live(r, project) && exists l :: l in toRemove && l.path == r.path
  }

  function CloneRow(target: int, v: int, l: Listed): Row {
    Row(target, v, None, l.path, l.stored.hash, l.stored.mode, l.stored.size, l.stored.packed)
  }

  /** The new rows: one for each source object that the target does not already have. */
  function CloneNew(closed: set<Row>, source: int, target: int, version: int, v: int): set<Row> {
    set l | l in Listing(closed, source, version) && !Conflicts(closed, CloneRow(target, v, l)) :: CloneRow(target, v, l)
  }

  /** The two statements of CloneToProject; the second one queries the table the first one left. */
  function CloneRows(rows: set<Row>, source: int, target: int, version: int, v: int): Outcome<set<Row>> {
    var toRemove := Listing(rows, target, v - 1) - Listing(rows, source, version);
    match CloseRows(rows, Unlisted(target, toRemove), v)
    case UniqueViolation => UniqueViolation
    case Done(closed) =>
      Done(closed + CloneNew(closed, source, target, version, v))
  }

  lemma ListedIsLive(rows: set<Row>, project: int, latest: int, v: int, l: Listed)
    requires Intervals(rows, project, latest)
    ensures l in Listing(rows, project, v) <==> ObjectAt(rows, project, v, l.path) == Some(l.stored)
  {
  }

  lemma UnlistedMeansMissing(mine: set<Listed>, theirs: set<Listed>, target: int, r: Row)
    requires Live(r, target) && Listed(r.path, StoredOf(r)) in mine
    requires forall m :: m in mine && m.path == r.path ==> m == Listed(r.path, StoredOf(r))
    ensures Unlisted(target, mine - theirs)(r) <==> Listed(r.path, StoredOf(r)) !in theirs
  {
  }

  /** A live row of the target is closed exactly when the source does not list it. */
  lemma ClosedUnlessListed(rows: set<Row>, source: int, target: int, ls: int, version: int, v: int, r: Row)
    requires Intervals(rows, source, ls) && Intervals(rows, target, v - 1)
    requires r in rows && Live(r, target)
    ensures var toRemove := Listing(rows, target, v - 1) - Listing(rows, source, version);
            Unlisted(target, toRemove)(r) <==> ObjectAt(rows, source, version, r.path) != Some(StoredOf(r))
  {
    OwnListing(rows, target, v, r);
    ListedIsLive(rows, source, ls, version, Listed(r.path, StoredOf(r)));
    UnlistedMeansMissing(Listing(rows, target, v - 1), Listing(rows, source, version), target, r);
  }

  /** A live row is what the target lists for its path. */
  lemma OwnListing(rows: set<Row>, target: int, v: int, r: Row)
    requires Intervals(rows, target, v - 1) && r in rows && Live(r, target)
    ensures Listed(r.path, StoredOf(r)) in Listing(rows, target, v - 1)
    ensures forall m :: m in Listing(rows, target, v - 1) && m.path == r.path ==> m == Listed(r.path, StoredOf(r))
  {
  }

  ghost predicate CloneStart(rows: set<Row>, source: int, target: int, ls: int, v: int, pk: Matcher) {
    && Good(rows, source, ls, pk) && Good(rows, target, v - 1, pk) && Indexed(rows) && v >= 1
  }

  function CloneClosed(rows: set<Row>, source: int, target: int, version: int, v: int): set<Row> {
    SetStop(rows, Unlisted(target, Listing(rows, target, v - 1) - Listing(rows, source, version)), Some(v))
  }

  /** The first statement violates no index. */
  lemma CloneCloseSucceeds(rows: set<Row>, source: int, target: int, ls: int, version: int, v: int, pk: Matcher)
    requires CloneStart(rows, source, target, ls, v, pk)
    ensures var toRemove := Listing(rows, target, v - 1) - Listing(rows, source, version);
            CloseRows(rows, Unlisted(target, toRemove), v) == Done(CloneClosed(rows, source, target, version, v))
  {
    CloneCloses(rows, source, target, ls, version, v, pk, "");
  }

  /** The first statement: it succeeds and keeps what the source lists too. */
  lemma CloneCloses(rows: set<Row>, source: int, target: int, ls: int, version: int, v: int, pk: Matcher, path: Path)
    requires CloneStart(rows, source, target, ls, v, pk)
    ensures var toRemove := Listing(rows, target, v - 1) - Listing(rows, source, version);
            var closed := CloneClosed(rows, source, target, version, v);
            && CloseRows(rows, Unlisted(target, toRemove), v) == Done(closed)
            && Good(closed, target, v, pk) && Indexed(closed) && Evolves(rows, closed, target, v)
            && ObjectAt(closed, target, v, path) ==
               if ObjectAt(rows, target, v, path) == ObjectAt(rows, source, version, path) then ObjectAt(rows, target, v, path) else None
  {
    var chosen := Unlisted(target, Listing(rows, target, v - 1) - Listing(rows, source, version));
    StartableIsGood(rows, target, v, pk);
    ClosingIsSafe(rows, chosen, target, v, pk);
    NoClashElsewhere(rows, chosen, target, v);
    CloseKeepsIndexed(rows, chosen, v);
    ClosingEvolves(rows, chosen, target, v);
    ClosedObjects(rows, chosen, target, v, pk, path);
    if HasRowAt(rows, target, v, path) {
      ClosedUnlessListed(rows, source, target, ls, version, v, RowAt(rows, target, v, path));
    }
  }

  /** Rows of other projects are untouched. */
  lemma OtherProjects(a: set<Row>, b: set<Row>, project: int, v: int, q: int, latest: int, pk: Matcher)
    requires Evolves(a, b, project, v) && q != project
    ensures forall r: Row :: r.project == q ==> (r in a <==> r in b)
    ensures Good(a, q, latest, pk) ==> Good(b, q, latest, pk)
  {
  }

  lemma OtherProjectsObjects(a: set<Row>, b: set<Row>, project: int, v: int, q: int, la: int, u: int, path: Path)
    requires Evolves(a, b, project, v) && q != project && Intervals(a, q, la) && Intervals(b, q, la)
    ensures ObjectAt(a, q, u, path) == ObjectAt(b, q, u, path)
  {
    if HasRowAt(a, q, u, path) {
      ObjectAtIs(b, q, la, u, RowAt(a, q, u, path));
    } else if HasRowAt(b, q, u, path) {
      ObjectAtIs(a, q, la, u, RowAt(b, q, u, path));
    }
  }

  /** Even when the project is cloned onto itself, the source still shows the same version. */
  lemma SourceUnchanged(rows: set<Row>, source: int, target: int, ls: int, version: int, v: int, pk: Matcher, path: Path)
    requires CloneStart(rows, source, target, ls, v, pk)
    ensures var closed := CloneClosed(rows, source, target, version, v);
            && (exists lb :: Good(closed, source, lb, pk))
            && ObjectAt(closed, source, version, path) == ObjectAt(rows, source, version, path)
  {
    var closed := CloneClosed(rows, source, target, version, v);
    CloneCloses(rows, source, target, ls, version, v, pk, path);
    if source != target {
      OtherProjects(rows, closed, target, v, source, ls, pk);
      OtherProjectsObjects(rows, closed, target, v, source, ls, version, path);
    } else if version < v {
      EvolvingGrows(rows, closed, target, v, source, v - 1);
      EarlierObjectsKept(rows, closed, source, v - 1, ls, v, version, path);
    } else {
      NothingToClose(rows, source, ls, version, v, pk);
    }
  }

  /** Cloning a project onto itself from the future closes nothing. */
  lemma NothingToClose(rows: set<Row>, project: int, ls: int, version: int, v: int, pk: Matcher)
    requires CloneStart(rows, project, project, ls, v, pk) && version >= v
    ensures CloneClosed(rows, project, project, version, v) == rows
  {
  }

  lemma NewRow(rows: set<Row>, source: int, target: int, ls: int, version: int, v: int, pk: Matcher, r: Row)
    requires CloneStart(rows, source, target, ls, v, pk)
    requires r in CloneNew(CloneClosed(rows, source, target, version, v), source, target, version, v)
    ensures r.project == target && r.start == v && r.stop == None && RowRouted(r, pk)
    ensures ObjectAt(rows, source, version, r.path) == Some(StoredOf(r))
    ensures !HasRowAt(CloneClosed(rows, source, target, version, v), target, v, r.path)
  {
    var closed := CloneClosed(rows, source, target, version, v);
    var l :| l in Listing(closed, source, version) && !Conflicts(closed, CloneRow(target, v, l)) && r == CloneRow(target, v, l);
    SourceUnchanged(rows, source, target, ls, version, v, pk, r.path);
    var lb :| Good(closed, source, lb, pk);
    ListedIsLive(closed, source, lb, version, l);
    assert RowRouted(RowAt(closed, source, version, r.path), pk);
    CloneCloses(rows, source, target, ls, version, v, pk, r.path);
    if HasRowAt(closed, target, v, r.path) {
      assert Clash(CloneRow(target, v, l), RowAt(closed, target, v, r.path));
    }
  }

  /**
    CloneToProject makes the new version of the target store exactly what the source
    stores at the requested version, whatever the target held, the source itself included.
  */
  lemma CloneEffect(rows: set<Row>, source: int, target: int, ls: int, version: int, v: int, pk: Matcher)
    requires CloneStart(rows, source, target, ls, v, pk)
    ensures CloneRows(rows, source, target, version, v).Done?
    ensures var b := CloneRows(rows, source, target, version, v).value;
            && Good(b, target, v, pk) && Indexed(b) && Evolves(rows, b, target, v)
            && forall path :: ObjectAt(b, target, v, path) == ObjectAt(rows, source, version, path)
  {
    var closed := CloneClosed(rows, source, target, version, v);
    var news := CloneNew(closed, source, target, version, v);
    CloneCloses(rows, source, target, ls, version, v, pk, "");
    var b := closed + news;
    forall r | r in news
      ensures r.project == target && r.start == v && r.stop == None && RowRouted(r, pk)
      ensures ObjectAt(rows, source, version, r.path) == Some(StoredOf(r))
      ensures !HasRowAt(closed, target, v, r.path)
    {
      NewRow(rows, source, target, ls, version, v, pk, r);
    }
    AddedRows(closed, news, target, v, pk);
    EvolvesTransitive(rows, closed, b, target, v);
    forall path ensures ObjectAt(b, target, v, path) == ObjectAt(rows, source, version, path) {
      CloneObject(rows, source, target, ls, version, v, pk, path);
    }
  }

  /** Adding fresh rows at paths that have no live row. */
  lemma AddedRows(closed: set<Row>, news: set<Row>, target: int, v: int, pk: Matcher)
    requires Good(closed, target, v, pk) && Indexed(closed) && v >= 1
    requires forall r :: r in news ==> r.project == target && r.start == v && r.stop == None && RowRouted(r, pk)
                                       && !HasRowAt(closed, target, v, r.path)
    requires forall r, s :: r in news && s in news && r.path == s.path ==> r == s
    ensures Good(closed + news, target, v, pk) && Indexed(closed + news)
    ensures Evolves(closed, closed + news, target, v)
  {
  }

  /** A source object that the target has no row for is inserted. */
  lemma CloneInserts(closed: set<Row>, source: int, target: int, lb: int, version: int, v: int, pk: Matcher, path: Path, stored: Stored)
    requires Good(closed, source, lb, pk) && Good(closed, target, v, pk)
    requires ObjectAt(closed, source, version, path) == Some(stored) && !HasRowAt(closed, target, v, path)
    ensures CloneRow(target, v, Listed(path, stored)) in CloneNew(closed, source, target, version, v)
  {
  }

  /** After the second statement the target has what the source has, at a path where it had the same or nothing. */
  lemma InsertedObject(closed: set<Row>, b: set<Row>, source: int, target: int, lb: int, version: int, v: int, pk: Matcher, path: Path)
    requires Good(closed, source, lb, pk) && Good(closed, target, v, pk) && Good(b, target, v, pk)
    requires b == closed + CloneNew(closed, source, target, version, v)
    requires ObjectAt(closed, target, v, path) in {None, ObjectAt(closed, source, version, path)}
    ensures ObjectAt(b, target, v, path) == ObjectAt(closed, source, version, path)
  {
    if HasRowAt(closed, target, v, path) {
      ObjectAtIs(b, target, v, v, RowAt(closed, target, v, path));
    } else if ObjectAt(closed, source, version, path).Some? {
      var stored := ObjectAt(closed, source, version, path).value;
      CloneInserts(closed, source, target, lb, version, v, pk, path, stored);
      ObjectAtIs(b, target, v, v, CloneRow(target, v, Listed(path, stored)));
    } else if HasRowAt(b, target, v, path) {
      var r := RowAt(b, target, v, path);
      assert r in CloneNew(closed, source, target, version, v);
      var l :| l in Listing(closed, source, version) && r == CloneRow(target, v, l);
      ListedIsLive(closed, source, lb, version, l);
    }
  }

  lemma CloneObject(rows: set<Row>, source: int, target: int, ls: int, version: int, v: int, pk: Matcher, path: Path)
    requires CloneStart(rows, source, target, ls, v, pk)
    requires var closed := CloneClosed(rows, source, target, version, v);
             Good(closed + CloneNew(closed, source, target, version, v), target, v, pk)
    ensures var closed := CloneClosed(rows, source, target, version, v);
            ObjectAt(closed + CloneNew(closed, source, target, version, v), target, v, path) == ObjectAt(rows, source, version, path)
  {
    var closed := CloneClosed(rows, source, target, version, v);
    CloneCloses(rows, source, target, ls, version, v, pk, path);
    SourceUnchanged(rows, source, target, ls, version, v, pk, path);
    var lb :| Good(closed, source, lb, pk);
    InsertedObject(closed, closed + CloneNew(closed, source, target, version, v), source, target, lb, version, v, pk, path);
  }

  lemma NothingToCloseAgain(rows: set<Row>, source: int, target: int, ls: int, version: int, v: int, pk: Matcher)
    requires CloneStart(rows, source, target, ls, v, pk)
    requires forall path :: ObjectAt(rows, target, v, path) == ObjectAt(rows, source, version, path)
    ensures CloneClosed(rows, source, target, version, v) == rows
  {
    var chosen := Unlisted(target, Listing(rows, target, v - 1) - Listing(rows, source, version));
    forall r | r in rows ensures Restop(r, chosen, Some(v)) == r {
      if chosen(r) {
        ObjectAtIs(rows, target, v - 1, v, r);
        ClosedUnlessListed(rows, source, target, ls, version, v, r);
      }
    }
  }

  lemma NothingToAddAgain(rows: set<Row>, source: int, target: int, ls: int, version: int, v: int, pk: Matcher)
    requires CloneStart(rows, source, target, ls, v, pk)
    requires forall path :: ObjectAt(rows, target, v, path) == ObjectAt(rows, source, version, path)
    ensures CloneNew(rows, source, target, version, v) == {}
  {
    forall l | l in Listing(rows, source, version) ensures Conflicts(rows, CloneRow(target, v, l)) {
      ListedIsLive(rows, source, ls, version, l);
      assert ObjectAt(rows, target, v, l.path) == ObjectAt(rows, source, version, l.path);
      var r := RowAt(rows, target, v, l.path);
      assert Clash(CloneRow(target, v, l), r);
    }
  }

  lemma NothingLeftToDo(rows: set<Row>, source: int, target: int, ls: int, version: int, v: int, pk: Matcher)
    requires CloneStart(rows, source, target, ls, v, pk)
    requires CloneClosed(rows, source, target, version, v) == rows
    requires CloneNew(rows, source, target, version, v) == {}
    ensures CloneRows(rows, source, target, version, v) == Done(rows)
  {
    CloneCloseSucceeds(rows, source, target, ls, version, v, pk);
    assert rows + {} == rows;
  }

  /** Cloning again a version the target already shows changes no row. */
  lemma CloneAgain(rows: set<Row>, source: int, target: int, ls: int, version: int, v: int, pk: Matcher)
    requires CloneStart(rows, source, target, ls, v, pk)
    requires forall path :: ObjectAt(rows, target, v, path) == ObjectAt(rows, source, version, path)
    ensures CloneRows(rows, source, target, version, v) == Done(rows)
  {
    NothingToCloseAgain(rows, source, target, ls, version, v, pk);
    NothingToAddAgain(rows, source, target, ls, version, v, pk);
    NothingLeftToDo(rows, source, target, ls, version, v, pk);
  }

  // ----- Templates -----

  /** CopyAllObjects into a project that has no rows yet. */
  function CopyRows(rows: set<Row>, source: int, target: int): set<Row> {
    rows + set r | r in rows && Live(r, source) :: r.(project := target)
  }

  /** A new project starts with the template's latest version, at the template's version number. */
  lemma CopyEffect(rows: set<Row>, source: int, target: int, latest: int, pk: Matcher)
    requires Good(rows, source, latest, pk) && Indexed(rows) && source != target
    requires forall r :: r in rows ==> r.project != target
    ensures var b := CopyRows(rows, source, target);
            && Good(b, target, latest, pk) && Indexed(b)
            && (forall r: Row :: r.project != target ==> (r in b <==> r in rows))
            && forall path :: ObjectAt(b, target, latest, path) == ObjectAt(rows, source, latest, path)
  {
    var b := CopyRows(rows, source, target);
    forall r | r in b && r.project == target ensures Live(r, target) && r.(project := source) in rows {
      var q :| q in rows && Live(q, source) && r == q.(project := target);
      assert r.(project := source) == q;
    }
    forall r, s | r in b && s in b && r != s && r.project == s.project == target && r.path == s.path ensures Disjoint(r, s) {
      assert Disjoint(r.(project := source), s.(project := source));
    }
    forall r | r in b && r.project == target ensures InBounds(r, latest) && RowRouted(r, pk) {
      assert InBounds(r.(project := source), latest) && RowRouted(r.(project := source), pk);
    }
    forall path ensures ObjectAt(b, target, latest, path) == ObjectAt(rows, source, latest, path) {
      if HasRowAt(rows, source, latest, path) {
        var r := RowAt(rows, source, latest, path);
        assert r.(project := target) in b;
        ObjectAtIs(b, target, latest, latest, r.(project := target));
      } else {
        assert forall r :: r in b && LiveAt(r, target, latest) ==> LiveAt(r.(project := source), source, latest);
      }
    }
    forall r, s | r in b && s in b && r != s ensures !Clash(r, s) {
      if r.project == s.project == target {
        IntervalsSatisfyIndexes(b, target, latest, r, s);
      }
    }
  }
}
