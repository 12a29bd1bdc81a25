/**
  The row-level writes of internal/db/update.go, each as a function on the object table.
  A statement that would break a unique index fails, as it does in Postgres.
*/
module Statements {
  import opened Paths
  import opened TarFormat
  import opened PackMerge
  import opened Table
  import opened Difference

  datatype Outcome<+T> = Done(value: T) | UniqueViolation

  /** The table after a write, and whether the write reports a change of content. */
  datatype Written = Written(rows: set<Row>, changed: bool)

  /** UPDATE dl.objects SET stop_version = v WHERE chosen */
  function CloseRows(rows: set<Row>, chosen: Row -> bool, v: int): Outcome<set<Row>> {
    if Violates(rows, chosen, Some(v)) then UniqueViolation else Done(SetStop(rows, chosen, Some(v)))
  }

  function LiveAtPath(project: int, path: Path): Row -> bool {
    (r: Row) => Live(r, project) && r.path == path
  }

  function DeleteObject(rows: set<Row>, project: int, v: int, path: Path): Outcome<set<Row>> {
    CloseRows(rows, LiveAtPath(project, path), v)
  }

  function LooseRow(project: int, v: int, o: Object): Row {
    Row(project, v, None, o.path, HashContent(Loose(o.content)), o.mode, o.size, false)
  }

  predicate Conflicts(rows: set<Row>, row: Row) {
    exists r :: r in rows && Clash(row, r)
  }

  /** The rows a loose write replaces: those of the path and of the markers above it, unless this version wrote them. */
  function Replaced(project: int, v: int, path: Path): Row -> bool {
    (r: Row) => Live(r, project) && (r.path == path || IsDirAbove(r.path, path)) && r.start != v
  }

  function UpdateObject(rows: set<Row>, project: int, v: int, o: Object): Outcome<Written> {
    var row := LooseRow(project, v, o);
    if Conflicts(rows, row) then Done(Written(rows, false))
    else
      match CloseRows(rows + {row}, Replaced(project, v, o.path), v)
      case UniqueViolation => UniqueViolation
      case Done(rows') => Done(Written(rows', true))
  }

  /** One element of the object buffer. A deletion always counts as a change. */
  function LooseStep(rows: set<Row>, project: int, v: int, o: Object): Outcome<Written> {
    if o.deleted then
      match DeleteObject(rows, project, v, o.path)
      case UniqueViolation => UniqueViolation
      case Done(rows') => Done(Written(rows', true))
    else
      UpdateObject(rows, project, v, o)
  }

  /** The whole object buffer, in arrival order. */
  function LoosePhase(rows: set<Row>, project: int, v: int, ops: seq<Object>): Outcome<Written> {
    if ops == [] then Done(Written(rows, false))
    else
      var n := |ops| - 1;
      match LoosePhase(rows, project, v, ops[..n])
      case UniqueViolation => UniqueViolation
      case Done(w) =>
        match LooseStep(w.rows, project, v, ops[n])
        case UniqueViolation => UniqueViolation
        case Done(w') => Done(Written(w'.rows, w.changed || w'.changed))
  }

  // ----- Packs -----

  function LivePack(project: int, parent: Path): Row -> bool {
    (r: Row) => Live(r, project) && r.path == parent && r.packed
  }

  /** The live pack rows whose content is in the contents table (the JOIN of the query). */
  function ExistingPacks(rows: set<Row>, contents: map<Hash, Blob>, project: int, parent: Path): set<Row> {
    set r | r in rows && LivePack(project, parent)(r) && r.hash in contents
  }

  function EntriesOf(b: Blob): seq<TarEntry> {
    match b
    case Pack(entries) => entries
    case Loose(_) => []
  }

  function PackRow(project: int, v: int, parent: Path, entries: seq<TarEntry>): Row {
    Row(project, v, None, parent, HashContent(Pack(entries)), 0, PackSize(entries), true)
  }

  /** The hash that is compared with the old one; an empty pack is hashed as empty content. */
  function MergedHash(merged: seq<TarEntry>): Hash {
    HashContent(if merged == [] then Loose([]) else Pack(merged))
  }

  /** UpdatePackedObjects, given the hash and entries of the existing pack (Zero and none if there is none). */
  function PackStep(rows: set<Row>, project: int, v: int, parent: Path, hash: Hash, before: seq<TarEntry>, updates: seq<Object>): Outcome<Written> {
    var merged := Merge(before, SortByPath(updates));
    if hash == MergedHash(merged) then Done(Written(rows, false))
    else
      match CloseRows(rows, LivePack(project, parent), v)
      case UniqueViolation => UniqueViolation
      case Done(closed) =>
        var row := PackRow(project, v, parent, merged);
        if merged == [] then Done(Written(closed, true))
        else if Conflicts(closed, row) then UniqueViolation
        else Done(Written(closed + {row}, true))
  }

  // ----- How a write at version v changes the table -----

  /** Rows are only added at version v of the project, or closed at v; nothing older is touched. */
  ghost predicate Evolves(a: set<Row>, b: set<Row>, project: int, v: int) {
    && (forall r :: r in a ==> r in b || (Live(r, project) && r.(stop := Some(v)) in b))
    && (forall r :: r in b ==>
          || r in a
          || (r.project == project && r.start == v)
          || (r.project == project && r.stop == Some(v) && r.(stop := None) in a))
  }

  lemma EvolvesTransitive(a: set<Row>, b: set<Row>, c: set<Row>, project: int, v: int)
    requires Evolves(a, b, project, v) && Evolves(b, c, project, v)
    ensures Evolves(a, c, project, v)
  {
  }

  lemma ClosingEvolves(rows: set<Row>, chosen: Row -> bool, project: int, v: int)
    requires forall r :: chosen(r) ==> Live(r, project)
    ensures Evolves(rows, SetStop(rows, chosen, Some(v)), project, v)
  {
  }

  lemma AddingEvolves(rows: set<Row>, row: Row, project: int, v: int)
    requires row.project == project && row.start == v
    ensures Evolves(rows, rows + {row}, project, v)
  {
  }

  lemma LooseStepEvolves(rows: set<Row>, project: int, v: int, o: Object)
    requires LooseStep(rows, project, v, o).Done?
    ensures Evolves(rows, LooseStep(rows, project, v, o).value.rows, project, v)
  {
    if o.deleted {
      ClosingEvolves(rows, LiveAtPath(project, o.path), project, v);
    } else if !Conflicts(rows, LooseRow(project, v, o)) {
      var added := rows + {LooseRow(project, v, o)};
      AddingEvolves(rows, LooseRow(project, v, o), project, v);
      ClosingEvolves(added, Replaced(project, v, o.path), project, v);
      EvolvesTransitive(rows, added, SetStop(added, Replaced(project, v, o.path), Some(v)), project, v);
    }
  }

  lemma {:induction false} LoosePhaseEvolves(rows: set<Row>, project: int, v: int, ops: seq<Object>)
    requires LoosePhase(rows, project, v, ops).Done?
    ensures Evolves(rows, LoosePhase(rows, project, v, ops).value.rows, project, v)
  {
    if ops != [] {
      var n := |ops| - 1;
      LoosePhaseEvolves(rows, project, v, ops[..n]);
      var mid := LoosePhase(rows, project, v, ops[..n]).value.rows;
      LooseStepEvolves(mid, project, v, ops[n]);
      EvolvesTransitive(rows, mid, LooseStep(mid, project, v, ops[n]).value.rows, project, v);
    }
  }

  // ----- Earlier versions are frozen -----

  /** What writes after version w have done to the rows of a project: added later rows, closed rows later. */
  ghost predicate GrownFrom(a: set<Row>, b: set<Row>, project: int, w: int) {
    && (forall r :: r in a && r.project == project ==> r in b || (r.stop.None? && exists s :: s > w && r.(stop := Some(s)) in b))
    && (forall r :: r in b && r.project == project ==>
          || r in a
          || r.start > w
          || (r.stop.Some? && r.stop.value > w && r.(stop := None) in a))
  }

  lemma EvolvingGrows(a: set<Row>, b: set<Row>, project: int, v: int, q: int, w: int)
    requires Evolves(a, b, project, v) && (q == project ==> w < v)
    ensures GrownFrom(a, b, q, w)
  {
  }

  ghost predicate SameRowIn(a: set<Row>, b: set<Row>, q: int, u: int, path: Path) {
    exists r, s :: r in a && LiveAt(r, q, u) && s in b && LiveAt(s, q, u) && r.path == s.path == path && StoredOf(r) == StoredOf(s)
  }

  lemma EarlierRowsKept(a: set<Row>, b: set<Row>, q: int, w: int, u: int, path: Path)
    requires GrownFrom(a, b, q, w) && u <= w
    requires HasRowAt(a, q, u, path)
    ensures SameRowIn(a, b, q, u, path)
  {
  }

  lemma EarlierRowsNotAdded(a: set<Row>, b: set<Row>, q: int, w: int, u: int, path: Path)
    requires GrownFrom(a, b, q, w) && u <= w
    requires HasRowAt(b, q, u, path)
    ensures SameRowIn(a, b, q, u, path)
  {
  }

  /** Every version up to w stores the same objects. */
  lemma EarlierObjectsKept(a: set<Row>, b: set<Row>, q: int, w: int, la: int, lb: int, u: int, path: Path)
    requires GrownFrom(a, b, q, w) && u <= w
    requires Intervals(a, q, la) && Intervals(b, q, lb)
    ensures ObjectAt(a, q, u, path) == ObjectAt(b, q, u, path)
  {
    if HasRowAt(a, q, u, path) {
      EarlierRowsKept(a, b, q, w, u, path);
    }
    if HasRowAt(b, q, u, path) {
      EarlierRowsNotAdded(a, b, q, w, u, path);
    }
    if r, s :| r in a && LiveAt(r, q, u) && s in b && LiveAt(s, q, u) && r.path == s.path == path && StoredOf(r) == StoredOf(s) {
      ObjectAtIs(a, q, la, u, r);
      ObjectAtIs(b, q, lb, u, s);
    }
  }

  /** The updated rows of an earlier range are the same up to their stop. */
  lemma EarlierUpdates(a: set<Row>, b: set<Row>, q: int, w: int, f: int, t: int, r: Row)
    requires GrownFrom(a, b, q, w) && t <= w && IsUpdated(r, q, f, t)
    ensures r in a ==> exists s :: s in b && IsUpdated(s, q, f, t) && s.path == r.path && PutOf(s) == PutOf(r)
    ensures r in b ==> exists s :: s in a && IsUpdated(s, q, f, t) && s.path == r.path && PutOf(s) == PutOf(r)
  {
  }

  lemma SkipWitness(rows: set<Row>, q: int, f: int, t: int, path: Path) returns (u: Row)
    requires SkippedIn(rows, q, f, t, path)
    ensures u in rows && IsUpdated(u, q, f, t)
    ensures || (!EndsInSlash(path) && (u.path == path || path + "/" <= u.path))
            || (EndsInSlash(path) && path <= u.path)
  {
    var updated := Updated(Possible(rows, q, f, t, true), q, f, t);
    u :| u in updated && (|| (!EndsInSlash(path) && (u.path == path || path + "/" <= u.path))
                          || (EndsInSlash(path) && path <= u.path));
  }

  lemma EarlierSkips(a: set<Row>, b: set<Row>, q: int, w: int, f: int, t: int, path: Path)
    requires GrownFrom(a, b, q, w) && t <= w
    ensures SkippedIn(a, q, f, t, path) <==> SkippedIn(b, q, f, t, path)
  {
    if SkippedIn(a, q, f, t, path) {
      var u := SkipWitness(a, q, f, t, path);
      EarlierUpdates(a, b, q, w, f, t, u);
      var s :| s in b && IsUpdated(s, q, f, t) && s.path == u.path;
      UpdatedMember(b, q, f, t, true, s);
    }
    if SkippedIn(b, q, f, t, path) {
      var u := SkipWitness(b, q, f, t, path);
      EarlierUpdates(a, b, q, w, f, t, u);
      var s :| s in a && IsUpdated(s, q, f, t) && s.path == u.path;
      UpdatedMember(a, q, f, t, true, s);
    }
  }

  ghost predicate StartsPositive(rows: set<Row>, q: int) {
    forall r :: r in rows && r.project == q ==> r.start >= 1
  }

  lemma EarlierRemovals(a: set<Row>, b: set<Row>, q: int, w: int, f: int, t: int, s: Row)
    requires GrownFrom(a, b, q, w) && t <= w
    ensures IsRemoved(a, q, f, t, s) <==> IsRemoved(b, q, f, t, s)
  {
    EarlierSkips(a, b, q, w, f, t, s.path);
  }

  /** Every difference between versions up to w is the same set of changes. */
  lemma EarlierDiffsKept(a: set<Row>, b: set<Row>, q: int, w: int, f: int, t: int)
    requires GrownFrom(a, b, q, w) && 0 <= f && t <= w
    requires StartsPositive(a, q) && StartsPositive(b, q)
    ensures Diff(a, q, f, t) == Diff(b, q, f, t)
  {
    forall c ensures c in Diff(a, q, f, t) <==> c in Diff(b, q, f, t) {
      DiffMember(a, q, f, t, c);
      DiffMember(b, q, f, t, c);
      forall s ensures IsRemoved(a, q, f, t, s) <==> IsRemoved(b, q, f, t, s) {
        EarlierRemovals(a, b, q, w, f, t, s);
      }
      forall u | IsUpdated(u, q, f, t)
        ensures u in a ==> exists s :: s in b && IsUpdated(s, q, f, t) && PutOf(s) == PutOf(u)
        ensures u in b ==> exists s :: s in a && IsUpdated(s, q, f, t) && PutOf(s) == PutOf(u)
      {
        EarlierUpdates(a, b, q, w, f, t, u);
      }
    }
  }
}
