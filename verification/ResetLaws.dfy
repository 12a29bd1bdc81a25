/**
  Going back and throwing away: rolling a project back to a version
  (internal/db/reset.go), and deleting the rows of old versions (internal/db/gc.go).
*/
module ResetLaws {
  import opened Paths
  import opened Table
  import opened Difference
  import opened Statements
  import opened LooseLaws

  // ----- Rollback -----

  /** DELETE ... WHERE start_version > w */
  function DropAfter(rows: set<Row>, project: int, w: int): set<Row> {
    set r | r in rows && !(r.project == project && r.start > w)
  }

  function StoppedAfter(project: int, w: int): Row -> bool {
    (r: Row) => r.project == project && r.stop.Some? && r.stop.value > w
  }

  /** The two row statements of ResetProject: drop what started later, reopen what stopped later. */
  function ResetRows(rows: set<Row>, project: int, w: int): Outcome<set<Row>> {
    var kept := DropAfter(rows, project, w);
    if Violates(kept, StoppedAfter(project, w), None) then UniqueViolation
    else Done(SetStop(kept, StoppedAfter(project, w), None))
  }

  function Reopened(rows: set<Row>, project: int, w: int): set<Row> {
    SetStop(DropAfter(rows, project, w), StoppedAfter(project, w), None)
  }

  lemma ReopeningIsSafe(rows: set<Row>, project: int, latest: int, w: int, pk: Matcher)
    requires Good(rows, project, latest, pk) && Indexed(rows)
    ensures !Violates(DropAfter(rows, project, w), StoppedAfter(project, w), None)
    ensures Good(Reopened(rows, project, w), project, w, pk)
  {
    var kept, chosen := DropAfter(rows, project, w), StoppedAfter(project, w);
    forall r, s | r in kept && s in kept && r != s
      ensures !Clash(Restop(r, chosen, None), Restop(s, chosen, None))
      ensures r.project == s.project == project && r.path == s.path ==> Disjoint(Restop(r, chosen, None), Restop(s, chosen, None))
    {
      assert !Clash(r, s);
      assert r.project == s.project == project && r.path == s.path ==> Disjoint(r, s);
    }
    ReopenedGood(rows, project, latest, w, pk);
  }

  lemma ReopenedGood(rows: set<Row>, project: int, latest: int, w: int, pk: Matcher)
    requires Good(rows, project, latest, pk)
    requires var kept, chosen := DropAfter(rows, project, w), StoppedAfter(project, w);
             forall r, s :: r in kept && s in kept && r != s && r.project == s.project == project && r.path == s.path
                            ==> Disjoint(Restop(r, chosen, None), Restop(s, chosen, None))
    ensures Good(Reopened(rows, project, w), project, w, pk)
  {
  }

  lemma ResetKeepsIndexed(rows: set<Row>, project: int, w: int)
    requires ResetRows(rows, project, w).Done?
    ensures Indexed(ResetRows(rows, project, w).value)
  {
  }

  /** A rollback leaves every version up to the one it returns to as it was. */
  lemma ResetKeepsVersions(rows: set<Row>, project: int, latest: int, w: int, pk: Matcher, u: int, path: Path)
    requires Good(rows, project, latest, pk) && Indexed(rows) && u <= w
    ensures ResetRows(rows, project, w) == Done(Reopened(rows, project, w))
    ensures ObjectAt(Reopened(rows, project, w), project, u, path) == ObjectAt(rows, project, u, path)
  {
    var kept, chosen := DropAfter(rows, project, w), StoppedAfter(project, w);
    var b := Reopened(rows, project, w);
    ReopeningIsSafe(rows, project, latest, w, pk);
    forall s | s in b && LiveAt(s, project, u) ensures HasRowAt(rows, project, u, s.path) {
      var q :| q in kept && s == Restop(q, chosen, None);
      assert LiveAt(q, project, u);
    }
    if HasRowAt(rows, project, u, path) {
      var r := RowAt(rows, project, u, path);
      assert r in kept && Restop(r, chosen, None) in b;
      ObjectAtIs(b, project, w, u, Restop(r, chosen, None));
    }
  }

  /** A rollback of one project does not touch another. */
  lemma ResetSparesOthers(rows: set<Row>, project: int, w: int)
    ensures forall r: Row :: r.project != project ==> (r in Reopened(rows, project, w) <==> r in rows)
  {
    var kept, chosen := DropAfter(rows, project, w), StoppedAfter(project, w);
    forall r: Row | r.project != project ensures r in Reopened(rows, project, w) <==> r in rows {
      if r in rows {
        assert Restop(r, chosen, None) == r && r in kept;
      }
    }
  }

  // ----- Undoing everything since a version -----

  /** Rolling back to w restores exactly the rows the project had when w was its latest version. */
  lemma ResetRestores(a: set<Row>, b: set<Row>, project: int, w: int, latest: int, pk: Matcher, r: Row)
    requires Good(a, project, w, pk) && GrownFrom(a, b, project, w)
    requires Good(b, project, latest, pk) && Indexed(b)
    requires r.project == project
    ensures r in Reopened(b, project, w) <==> r in a
  {
    var kept, chosen := DropAfter(b, project, w), StoppedAfter(project, w);
    if r in a {
      assert InBounds(r, w);
      if r in b {
        assert r in kept && Restop(r, chosen, None) == r;
      } else {
        var s :| s > w && r.(stop := Some(s)) in b;
        assert r.(stop := Some(s)) in kept && Restop(r.(stop := Some(s)), chosen, None) == r;
      }
    }
    if r in Reopened(b, project, w) {
      var q :| q in kept && r == Restop(q, chosen, None);
      if q in a {
        assert InBounds(q, w);
      }
    }
  }

  // ----- Garbage collection of rows -----

  predicate Collected(r: Row, project: int, latest: int, keep: int, from: int) {
    r.project == project && r.start > from && r.stop.Some? && r.stop.value <= latest - keep
  }

  /** GcProjectObjects, for a project that exists. */
  function GcRows(rows: set<Row>, project: int, latest: int, keep: int, from: int): set<Row> {
    set r | r in rows && !Collected(r, project, latest, keep, from)
  }

  /** The versions that garbage collection promises to keep. */
  predicate Protected(u: int, latest: int, keep: int, from: int) {
    u <= from || u >= latest - keep
  }

  /** A protected version stores the same objects after the collection. */
  lemma GcKeepsVersions(rows: set<Row>, project: int, latest: int, keep: int, from: int, pk: Matcher, u: int, path: Path)
    requires Good(rows, project, latest, pk) && Protected(u, latest, keep, from)
    ensures ObjectAt(GcRows(rows, project, latest, keep, from), project, u, path) == ObjectAt(rows, project, u, path)
  {
    var b := GcRows(rows, project, latest, keep, from);
    if HasRowAt(rows, project, u, path) {
      assert RowAt(rows, project, u, path) in b;
      ObjectAtIs(b, project, latest, u, RowAt(rows, project, u, path));
    }
  }

  lemma GcKeepsSkips(rows: set<Row>, project: int, latest: int, keep: int, from: int, f: int, t: int, path: Path)
    requires Protected(t, latest, keep, from)
    ensures SkippedIn(rows, project, f, t, path) <==> SkippedIn(GcRows(rows, project, latest, keep, from), project, f, t, path)
  {
  }

  /** The difference of two protected versions is the same after the collection. */
  lemma GcKeepsDiffs(rows: set<Row>, project: int, latest: int, keep: int, from: int, f: int, t: int)
    requires StartsPositive(rows, project) && 0 <= f <= t
    requires Protected(f, latest, keep, from) && Protected(t, latest, keep, from)
    ensures Diff(GcRows(rows, project, latest, keep, from), project, f, t) == Diff(rows, project, f, t)
  {
    var b := GcRows(rows, project, latest, keep, from);
    forall c ensures c in Diff(b, project, f, t) <==> c in Diff(rows, project, f, t) {
      DiffMember(rows, project, f, t, c);
      DiffMember(b, project, f, t, c);
      forall s ensures IsRemoved(rows, project, f, t, s) <==> IsRemoved(b, project, f, t, s) {
        GcKeepsSkips(rows, project, latest, keep, from, f, t, s.path);
      }
      forall u ensures (u in rows && IsUpdated(u, project, f, t)) <==> (u in b && IsUpdated(u, project, f, t)) {
      }
    }
  }

  /** A version that is not protected can lose a file: the guard of the query is exact. */
  lemma GcMayDropUnprotected(project: int, latest: int, keep: int, from: int, u: int, path: Path, hash: Hash)
    requires keep >= 1 && from >= 0 && 1 <= u <= latest && !Protected(u, latest, keep, from)
    ensures var r := Row(project, u, Some(u + 1), path, hash, 0, 0, false);
            && Intervals({r}, project, latest)
            && ObjectAt({r}, project, u, path) == Some(StoredOf(r))
            && ObjectAt(GcRows({r}, project, latest, keep, from), project, u, path) == None
  {
  }
}
