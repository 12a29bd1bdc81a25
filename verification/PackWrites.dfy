/**
  The packed half of an update: one merge per pack parent, in whatever order the pack
  buffer is iterated.
*/
module PackWrites {
  import opened Paths
  import opened TarFormat
  import opened PackMerge
  import opened PackLaws
  import opened Table
  import opened Statements
  import opened LooseLaws

  type Groups = map<Path, seq<Object>>

  /** The live pack row of a parent. */
  ghost function ExistingPack(rows: set<Row>, project: int, parent: Path): Option<Row> {
    if exists r :: r in rows && LivePack(project, parent)(r) then
      var r :| r in rows && LivePack(project, parent)(r); Some(r)
    else None
  }

  ghost function EntriesBefore(rows: set<Row>, project: int, parent: Path): seq<TarEntry> {
    match ExistingPack(rows, project, parent)
    case None => []
    case Some(r) => if r.hash.Digest? then EntriesOf(r.hash.blob) else []
  }

  ghost function PackStepAt(rows: set<Row>, project: int, v: int, parent: Path, updates: seq<Object>): Outcome<Written> {
    var existing := ExistingPack(rows, project, parent);
    PackStep(rows, project, v, parent, if existing.Some? then existing.value.hash else Zero,
             EntriesBefore(rows, project, parent), updates)
  }

  /** The packs of the buffer, taken in a given order. */
  ghost function PackPhase(rows: set<Row>, project: int, v: int, order: seq<Path>, groups: Groups): Outcome<Written>
    requires forall p :: p in order ==> p in groups
  {
    if order == [] then Done(Written(rows, false))
    else
      var n := |order| - 1;
      match PackPhase(rows, project, v, order[..n], groups)
      case UniqueViolation => UniqueViolation
      case Done(w) =>
        match PackStepAt(w.rows, project, v, order[n], groups[order[n]])
        case UniqueViolation => UniqueViolation
        case Done(w') => Done(Written(w'.rows, w.changed || w'.changed))
  }

  ghost function MergedPack(rows: set<Row>, project: int, parent: Path, updates: seq<Object>): seq<TarEntry> {
    Merge(EntriesBefore(rows, project, parent), SortByPath(updates))
  }

  /** Sent updates always count as a change when there is no pack yet, even if they only delete. */
  ghost predicate PackChanges(rows: set<Row>, project: int, parent: Path, updates: seq<Object>) {
    ExistingPack(rows, project, parent) == None
    || MergedPack(rows, project, parent, updates) != EntriesBefore(rows, project, parent)
  }

  /** What the store holds for a pack parent after its updates. */
  ghost function PackObject(rows: set<Row>, project: int, parent: Path, updates: seq<Object>): Option<Stored> {
    var merged := MergedPack(rows, project, parent, updates);
    if merged == [] then None else Some(Stored(HashContent(Pack(merged)), 0, PackSize(merged), true))
  }

  predicate RoutedTo(pk: Matcher, parent: Path, updates: seq<Object>) {
    PackParent(pk, parent) == Some(parent) && forall u :: u in updates ==> PackParent(pk, u.path) == Some(parent)
  }

  // ----- One pack -----

  /** At a pack parent, the live pack row is the stored object. */
  lemma ExistingIsStored(rows: set<Row>, project: int, v: int, pk: Matcher, parent: Path)
    requires Good(rows, project, v, pk) && PackParent(pk, parent) == Some(parent)
    ensures ExistingPack(rows, project, parent).Some? <==> HasRowAt(rows, project, v, parent)
    ensures match ExistingPack(rows, project, parent)
            case None => ObjectAt(rows, project, v, parent) == None
            case Some(r) =>
              && r in rows && Live(r, project) && r.path == parent && RowRouted(r, pk) && r.packed
              && ObjectAt(rows, project, v, parent) == Some(StoredOf(r))
  {
    if HasRowAt(rows, project, v, parent) {
      assert LivePack(project, parent)(RowAt(rows, project, v, parent));
    }
    if ExistingPack(rows, project, parent).Some? {
      ObjectAtIs(rows, project, v, v, ExistingPack(rows, project, parent).value);
    }
  }

  lemma MergedIsGood(rows: set<Row>, project: int, v: int, pk: Matcher, parent: Path, updates: seq<Object>)
    requires Good(rows, project, v, pk) && RoutedTo(pk, parent, updates)
    ensures var merged := MergedPack(rows, project, parent, updates);
            merged != [] ==> RowRouted(PackRow(project, v, parent, merged), pk)
  {
    ExistingIsStored(rows, project, v, pk, parent);
    SortKeepsElements(updates);
    MergeKeepsGood(pk, parent, EntriesBefore(rows, project, parent), SortByPath(updates));
  }

  /** The hash comparison detects exactly the merges that change the pack. */
  lemma UnchangedMeansSameHash(rows: set<Row>, project: int, v: int, pk: Matcher, parent: Path, updates: seq<Object>)
    requires Good(rows, project, v, pk) && RoutedTo(pk, parent, updates)
    ensures var existing := ExistingPack(rows, project, parent);
            var hash := if existing.Some? then existing.value.hash else Zero;
            hash == MergedHash(MergedPack(rows, project, parent, updates)) <==> !PackChanges(rows, project, parent, updates)
  {
    ExistingIsStored(rows, project, v, pk, parent);
  }

  lemma CloseThePack(rows: set<Row>, project: int, v: int, pk: Matcher, parent: Path, k: Path)
    requires Good(rows, project, v, pk) && Indexed(rows)
    requires PackParent(pk, parent) == Some(parent) && Fresh(rows, project, v, parent)
    ensures var chosen := LivePack(project, parent); var closed := SetStop(rows, chosen, Some(v));
            && CloseRows(rows, chosen, v) == Done(closed)
            && Good(closed, project, v, pk) && Indexed(closed)
            && ObjectAt(closed, project, v, k) == if k == parent then None else ObjectAt(rows, project, v, k)
  {
    var chosen := LivePack(project, parent);
    ClosingIsSafe(rows, chosen, project, v, pk);
    NoClashElsewhere(rows, chosen, project, v);
    CloseKeepsIndexed(rows, chosen, v);
    ClosedObjects(rows, chosen, project, v, pk, k);
  }

  /** One pack: the step succeeds, keeps the store good, and leaves the merged pack at its parent. */
  lemma PackStepEffect(rows: set<Row>, project: int, v: int, pk: Matcher, parent: Path, updates: seq<Object>, k: Path)
    requires Good(rows, project, v, pk) && Indexed(rows) && v >= 1
    requires RoutedTo(pk, parent, updates) && Fresh(rows, project, v, parent)
    ensures PackStepAt(rows, project, v, parent, updates).Done?
    ensures var w := PackStepAt(rows, project, v, parent, updates).value;
            && Good(w.rows, project, v, pk) && Indexed(w.rows)
            && (w.changed <==> PackChanges(rows, project, parent, updates))
            && ObjectAt(w.rows, project, v, k) ==
               if k == parent then PackObject(rows, project, parent, updates) else ObjectAt(rows, project, v, k)
  {
    ExistingIsStored(rows, project, v, pk, parent);
    UnchangedMeansSameHash(rows, project, v, pk, parent, updates);
    if PackChanges(rows, project, parent, updates) {
      var merged := MergedPack(rows, project, parent, updates);
      var closed := SetStop(rows, LivePack(project, parent), Some(v));
      CloseThePack(rows, project, v, pk, parent, k);
      CloseThePack(rows, project, v, pk, parent, parent);
      if merged != [] {
        MergedIsGood(rows, project, v, pk, parent, updates);
        InsertThePack(closed, project, v, pk, PackRow(project, v, parent, merged), k);
      }
    }
  }

  lemma InsertThePack(closed: set<Row>, project: int, v: int, pk: Matcher, row: Row, k: Path)
    requires Good(closed, project, v, pk) && Indexed(closed) && v >= 1
    requires RowRouted(row, pk) && row.project == project && row.start == v && row.stop == None
    requires ObjectAt(closed, project, v, row.path) == None
    ensures !Conflicts(closed, row)
    ensures Good(closed + {row}, project, v, pk) && Indexed(closed + {row})
    ensures ObjectAt(closed + {row}, project, v, k) == if k == row.path then Some(StoredOf(row)) else ObjectAt(closed, project, v, k)
  {
    forall r | r in closed ensures !Clash(row, r) && !Clash(r, row) {
      if r.project == project && r.path == row.path {
        assert !LiveAt(r, project, v);
      }
    }
    AddedRow(closed, row, project, v, pk, k);
  }

  lemma PackStepStarts(rows: set<Row>, project: int, v: int, parent: Path, updates: seq<Object>)
    requires PackStepAt(rows, project, v, parent, updates).Done?
    ensures var b := PackStepAt(rows, project, v, parent, updates).value.rows;
            && Evolves(rows, b, project, v)
            && forall path :: path != parent && Fresh(rows, project, v, path) ==> Fresh(b, project, v, path)
  {
    var b := PackStepAt(rows, project, v, parent, updates).value.rows;
    var chosen := LivePack(project, parent);
    var closed := SetStop(rows, chosen, Some(v));
    ClosingEvolves(rows, chosen, project, v);
    if b != rows && b != closed {
      var row := PackRow(project, v, parent, MergedPack(rows, project, parent, updates));
      AddingEvolves(closed, row, project, v);
      EvolvesTransitive(rows, closed, b, project, v);
    }
    forall path, r | path != parent && Fresh(rows, project, v, path) && r in b && r.project == project && r.path == path
      ensures r.start != v
    {
      if r in closed {
        var q :| q in rows && r == Restop(q, chosen, Some(v));
      }
    }
  }

  // ----- All packs, in any order -----

  predicate Distinct(order: seq<Path>) {
    forall i, j :: 0 <= i < j < |order| ==> order[i] != order[j]
  }

  ghost predicate AllRouted(pk: Matcher, groups: Groups) {
    forall parent :: parent in groups ==> RoutedTo(pk, parent, groups[parent])
  }

  /** What is done after the packs of `order`: each at its own parent, the rest untouched. */
  ghost predicate PacksDone(rows: set<Row>, b: set<Row>, project: int, v: int, order: seq<Path>, groups: Groups)
    requires forall p :: p in order ==> p in groups
  {
    forall k :: ObjectAt(b, project, v, k) ==
                if k in order then PackObject(rows, project, k, groups[k]) else ObjectAt(rows, project, v, k)
  }

  lemma SameObjectSamePack(a: set<Row>, b: set<Row>, project: int, v: int, pk: Matcher, parent: Path, updates: seq<Object>)
    requires Good(a, project, v, pk) && Good(b, project, v, pk) && PackParent(pk, parent) == Some(parent)
    requires ObjectAt(a, project, v, parent) == ObjectAt(b, project, v, parent)
    ensures PackObject(a, project, parent, updates) == PackObject(b, project, parent, updates)
    ensures PackChanges(a, project, parent, updates) <==> PackChanges(b, project, parent, updates)
    ensures EntriesBefore(a, project, parent) == EntriesBefore(b, project, parent)
  {
    ExistingIsStored(a, project, v, pk, parent);
    ExistingIsStored(b, project, v, pk, parent);
  }

  /** Whatever the order of the pack buffer, every pack is merged with its own updates and nothing else changes. */
  lemma {:induction false} PackPhaseEffect(rows: set<Row>, project: int, v: int, pk: Matcher, order: seq<Path>, groups: Groups)
    requires Good(rows, project, v, pk) && Indexed(rows) && v >= 1
    requires AllRouted(pk, groups) && Distinct(order) && forall p :: p in order ==> p in groups && Fresh(rows, project, v, p)
    ensures PackPhase(rows, project, v, order, groups).Done?
    ensures var w := PackPhase(rows, project, v, order, groups).value;
            && Good(w.rows, project, v, pk) && Indexed(w.rows)
            && Evolves(rows, w.rows, project, v)
            && PacksDone(rows, w.rows, project, v, order, groups)
            && (w.changed <==> exists p :: p in order && PackChanges(rows, project, p, groups[p]))
            && forall path :: path !in order && Fresh(rows, project, v, path) ==> Fresh(w.rows, project, v, path)
  {
    if order != [] {
      var n := |order| - 1;
      var parent := order[n];
      PackPhaseEffect(rows, project, v, pk, order[..n], groups);
      var mid := PackPhase(rows, project, v, order[..n], groups).value.rows;
      assert forall p :: p in order <==> p in order[..n] || p == parent;
      assert parent !in order[..n];
      var b := PackStepAt(mid, project, v, parent, groups[parent]);
      SameObjectSamePack(rows, mid, project, v, pk, parent, groups[parent]);
      PackStepEffect(mid, project, v, pk, parent, groups[parent], parent);
      forall k ensures ObjectAt(b.value.rows, project, v, k) ==
                       if k in order then PackObject(rows, project, k, groups[k]) else ObjectAt(rows, project, v, k) {
        PackStepEffect(mid, project, v, pk, parent, groups[parent], k);
      }
      PackStepStarts(mid, project, v, parent, groups[parent]);
      EvolvesTransitive(rows, mid, b.value.rows, project, v);
    }
  }
}
