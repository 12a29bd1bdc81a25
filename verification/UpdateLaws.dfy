/**
  A whole update of a project: its loose writes, then its packs. The update refines an
  edit of the directory, and it leaves every version before it alone.
*/
module UpdateLaws {
  import opened Paths
  import opened TarFormat
  import opened PackMerge
  import opened PackLaws
  import opened Table
  import opened Statements
  import opened LooseLaws
  import opened PackWrites

  // ----- Routing the batch -----

  function Select(batch: seq<Object>, keep: Object -> bool): seq<Object> {
    if batch == [] then []
    else
      var n := |batch| - 1;
      Select(batch[..n], keep) + if keep(batch[n]) then [batch[n]] else []
  }

  function IsLoose(pk: Matcher): Object -> bool {
    (o: Object) => PackParent(pk, o.path) == None
  }

  function IsRoutedTo(pk: Matcher, parent: Path): Object -> bool {
    (o: Object) => PackParent(pk, o.path) == Some(parent)
  }

  /** The object buffer: what is not packed, in arrival order. */
  function LooseOps(pk: Matcher, batch: seq<Object>): seq<Object> {
    Select(batch, IsLoose(pk))
  }

  function Parents(pk: Matcher, batch: seq<Object>): set<Path> {
    set o | o in batch && PackParent(pk, o.path).Some? :: PackParent(pk, o.path).value
  }

  /** The pack buffer: for each pack parent its updates, in arrival order. */
  function GroupsOf(pk: Matcher, batch: seq<Object>): Groups {
    map parent | parent in Parents(pk, batch) :: Select(batch, IsRoutedTo(pk, parent))
  }

  lemma {:induction false} SelectMembers(batch: seq<Object>, keep: Object -> bool)
    ensures forall o :: o in Select(batch, keep) <==> o in batch && keep(o)
  {
    if batch != [] {
      var n := |batch| - 1;
      SelectMembers(batch[..n], keep);
      assert forall o :: o in batch <==> o in batch[..n] || o == batch[n];
    }
  }

  lemma {:induction false} SelectKeepsDistinct(batch: seq<Object>, keep: Object -> bool)
    requires DistinctPaths(batch)
    ensures DistinctPaths(Select(batch, keep))
  {
    if batch != [] {
      var n := |batch| - 1;
      SelectKeepsDistinct(batch[..n], keep);
      SelectMembers(batch[..n], keep);
      var front := Select(batch[..n], keep);
      forall i | 0 <= i < |front| ensures front[i].path != batch[n].path {
        assert front[i] in batch[..n];
        var j :| 0 <= j < n && batch[j] == front[i];
      }
    }
  }

  lemma {:induction false} FindSelected(batch: seq<Object>, keep: Object -> bool, k: Path)
    requires forall o: Object :: o.path == k ==> keep(o)
    ensures FindUpdate(Select(batch, keep), k) == FindUpdate(batch, k)
  {
    if batch != [] {
      var n := |batch| - 1;
      FindSelected(batch[..n], keep, k);
      FindInConcat(Select(batch[..n], keep), if keep(batch[n]) then [batch[n]] else [], k);
      FindInConcat(batch[..n], [batch[n]], k);
      assert batch == batch[..n] + [batch[n]];
    }
  }

  lemma FindReordered(a: seq<Object>, b: seq<Object>, k: Path)
    requires DistinctPaths(a) && multiset(a) == multiset(b)
    ensures FindUpdate(a, k) == FindUpdate(b, k)
  {
    FindUpdateIsAMember(a, k);
    FindUpdateIsAMember(b, k);
    assert forall o :: o in a <==> o in multiset(a);
    assert forall o :: o in b <==> o in multiset(b);
  }

  lemma GroupsAreRouted(pk: Matcher, batch: seq<Object>)
    ensures AllRouted(pk, GroupsOf(pk, batch))
    ensures AllLoose(pk, LooseOps(pk, batch))
  {
    SelectMembers(batch, IsLoose(pk));
    forall parent | parent in GroupsOf(pk, batch) ensures RoutedTo(pk, parent, GroupsOf(pk, batch)[parent]) {
      SelectMembers(batch, IsRoutedTo(pk, parent));
      var o :| o in batch && PackParent(pk, o.path) == Some(parent);
      PackParentIsAbove(pk, o.path, parent);
    }
  }

  // ----- The transaction -----

  /** `order` iterates the pack buffer. */
  ghost predicate Iterates(order: seq<Path>, groups: Groups) {
    Distinct(order) && forall p :: p in order <==> p in groups
  }

  /** The object rows a transaction writes at version v. */
  ghost function UpdateRows(rows: set<Row>, project: int, v: int, pk: Matcher, batch: seq<Object>, order: seq<Path>): Outcome<Written>
    requires Iterates(order, GroupsOf(pk, batch))
  {
    match LoosePhase(rows, project, v, LooseOps(pk, batch))
    case UniqueViolation => UniqueViolation
    case Done(w) =>
      match PackPhase(w.rows, project, v, order, GroupsOf(pk, batch))
      case UniqueViolation => UniqueViolation
      case Done(w') => Done(Written(w'.rows, w.changed || w'.changed))
  }

  /** No pack row has been touched when the packs are merged. */
  lemma ParentsAreFresh(rows: set<Row>, project: int, v: int, pk: Matcher, ops: seq<Object>, parent: Path)
    requires WrittenByBatch(rows, project, v, ops) && AllLoose(pk, ops)
    requires PackParent(pk, parent) == Some(parent)
    ensures Fresh(rows, project, v, parent)
  {
  }

  /** A safe batch makes an update succeed, whatever the order of the packs, and keeps the store good. */
  lemma UpdateKeepsGood(rows: set<Row>, project: int, v: int, pk: Matcher, batch: seq<Object>, order: seq<Path>)
    requires Startable(rows, project, v, pk)
    requires SafeBatch(LooseOps(pk, batch)) && Iterates(order, GroupsOf(pk, batch))
    ensures UpdateRows(rows, project, v, pk, batch, order).Done?
    ensures var w := UpdateRows(rows, project, v, pk, batch, order).value;
            Good(w.rows, project, v, pk) && Indexed(w.rows) && Evolves(rows, w.rows, project, v)
  {
    var loose := LooseOps(pk, batch);
    GroupsAreRouted(pk, batch);
    SafeBatchKeepsGood(rows, project, v, pk, loose);
    LoosePhaseEvolves(rows, project, v, loose);
    var mid := LoosePhase(rows, project, v, loose).value.rows;
    forall p | p in order ensures Fresh(mid, project, v, p) {
      assert RoutedTo(pk, p, GroupsOf(pk, batch)[p]);
      ParentsAreFresh(mid, project, v, pk, loose, p);
    }
    PackPhaseEffect(mid, project, v, pk, order, GroupsOf(pk, batch));
    EvolvesTransitive(rows, mid, PackPhase(mid, project, v, order, GroupsOf(pk, batch)).value.rows, project, v);
  }

  lemma {:induction false} QuietLoosePhase(rows: set<Row>, project: int, v: int, ops: seq<Object>)
    requires LoosePhase(rows, project, v, ops).Done? && !LoosePhase(rows, project, v, ops).value.changed
    ensures LoosePhase(rows, project, v, ops).value.rows == rows
  {
    if ops != [] {
      QuietLoosePhase(rows, project, v, ops[..|ops| - 1]);
    }
  }

  lemma {:induction false} QuietPackPhase(rows: set<Row>, project: int, v: int, order: seq<Path>, groups: Groups)
    requires forall p :: p in order ==> p in groups
    requires PackPhase(rows, project, v, order, groups).Done? && !PackPhase(rows, project, v, order, groups).value.changed
    ensures PackPhase(rows, project, v, order, groups).value.rows == rows
  {
    if order != [] {
      QuietPackPhase(rows, project, v, order[..|order| - 1], groups);
    }
  }

  /** An update that reports no change has touched no row, for every batch. */
  lemma QuietUpdate(rows: set<Row>, project: int, v: int, pk: Matcher, batch: seq<Object>, order: seq<Path>)
    requires Iterates(order, GroupsOf(pk, batch))
    requires UpdateRows(rows, project, v, pk, batch, order).Done?
    requires !UpdateRows(rows, project, v, pk, batch, order).value.changed
    ensures UpdateRows(rows, project, v, pk, batch, order).value.rows == rows
  {
    QuietLoosePhase(rows, project, v, LooseOps(pk, batch));
    QuietPackPhase(rows, project, v, order, GroupsOf(pk, batch));
  }

  // ----- The effect on the files -----

  /** A marker that a changing write of the batch turns into a directory with something in it. */
  ghost predicate MarkerGone(dir: Directory, pk: Matcher, batch: seq<Object>, k: Path) {
    exists o :: o in batch && !o.deleted && PackParent(pk, o.path) == None
                && IsDirAbove(k, o.path) && Get(dir, o.path) != Some(FileOf(o))
  }

  /**
    The reference: the batch as an edit of the directory. Packed files come back in the
    normal form of a tar entry; a marker goes when something is written beneath it.
  */
  ghost function Edited(dir: Directory, pk: Matcher, batch: seq<Object>, k: Path): Option<File> {
    var loose := PackParent(pk, k) == None;
    match FindUpdate(batch, k)
    case Some(o) => if o.deleted then None else Some(FileOf(if loose then o else Normal(o)))
    case None => if loose && MarkerGone(dir, pk, batch, k) then None else Get(dir, k)
  }

  /** The batches the reference is stated for: distinct paths, and no marker set above another write. */
  predicate ProperBatch(pk: Matcher, batch: seq<Object>) {
    DistinctPaths(batch) && NoMarkerAboveWrite(LooseOps(pk, batch))
  }

  /** The objects live before the update are those of the latest version. */
  lemma LatestObjects(rows: set<Row>, project: int, v: int, pk: Matcher, path: Path)
    requires Good(rows, project, v - 1, pk)
    ensures ObjectAt(rows, project, v - 1, path) == ObjectAt(rows, project, v, path)
  {
    assert forall r :: r in rows ==> (LiveAt(r, project, v - 1) <==> LiveAt(r, project, v));
    if HasRowAt(rows, project, v, path) {
      ObjectAtIs(rows, project, v - 1, v - 1, RowAt(rows, project, v, path));
    }
  }

  lemma SameObjectSameFile(rows: set<Row>, project: int, v: int, pk: Matcher, o: Object)
    requires Good(rows, project, v - 1, pk) && PackParent(pk, o.path) == None
    ensures SameObject(ObjectAt(rows, project, v, o.path), o) <==> Get(Files(rows, project, v - 1, pk), o.path) == Some(FileOf(o))
  {
    LatestObjects(rows, project, v, pk, o.path);
    FilesGet(rows, project, v - 1, v - 1, pk, o.path);
  }

  function FileInStored(s: Option<Stored>, path: Path, k: Path): Option<File> {
    match s
    case None => None
    case Some(stored) => FileIn(stored, path, k)
  }

  lemma LooseFile(rows: set<Row>, project: int, v: int, pk: Matcher, batch: seq<Object>, k: Path)
    requires Good(rows, project, v - 1, pk) && PackParent(pk, k) == None
    ensures FileInStored(PhaseObject(rows, project, v, LooseOps(pk, batch), k), k, k)
            == Edited(Files(rows, project, v - 1, pk), pk, batch, k)
  {
    var dir, ops := Files(rows, project, v - 1, pk), LooseOps(pk, batch);
    FindSelected(batch, IsLoose(pk), k);
    SelectMembers(batch, IsLoose(pk));
    FindUpdateIsAMember(ops, k);
    LatestObjects(rows, project, v, pk, k);
    FilesGet(rows, project, v - 1, v - 1, pk, k);
    forall o | o in ops ensures SameObject(ObjectAt(rows, project, v, o.path), o) <==> Get(dir, o.path) == Some(FileOf(o)) {
      SameObjectSameFile(rows, project, v, pk, o);
    }
    assert MarkerReplaced(rows, project, v, ops, k) <==> MarkerGone(dir, pk, batch, k);
  }

  lemma PackUntouchedByLoose(rows: set<Row>, project: int, v: int, pk: Matcher, ops: seq<Object>, parent: Path)
    requires AllLoose(pk, ops) && PackParent(pk, parent) == Some(parent)
    ensures PhaseObject(rows, project, v, ops, parent) == ObjectAt(rows, project, v, parent)
  {
    FindUpdateIsAMember(ops, parent);
    forall o | o in ops ensures !IsDirAbove(parent, o.path) {
      LoosePathsAvoidPacks(pk, o.path, parent);
    }
  }

  /** What a merged pack says of a path: the batch's word if it has one, else the old pack's. */
  lemma MergedFile(rows: set<Row>, project: int, v: int, pk: Matcher, batch: seq<Object>, k: Path, parent: Path)
    requires Good(rows, project, v, pk) && DistinctPaths(batch)
    requires PackParent(pk, parent) == Some(parent) && PackParent(pk, k) == Some(parent)
    ensures var updates := Select(batch, IsRoutedTo(pk, parent));
            var before := EntriesBefore(rows, project, parent);
            Find(Merge(before, SortByPath(updates)), k) ==
            match FindUpdate(batch, k)
            case Some(u) => if u.deleted then None else Some(Encode(u))
            case None => Find(before, k)
  {
    var updates := Select(batch, IsRoutedTo(pk, parent));
    FindSelected(batch, IsRoutedTo(pk, parent), k);
    SelectKeepsDistinct(batch, IsRoutedTo(pk, parent));
    FindReordered(updates, SortByPath(updates), k);
    ExistingIsStored(rows, project, v, pk, parent);
    MergeOverrides(EntriesBefore(rows, project, parent), SortByPath(updates), k);
  }

  /** What the store says of a packed path before the update. */
  lemma PackedFileBefore(rows: set<Row>, project: int, v: int, pk: Matcher, k: Path, parent: Path)
    requires Good(rows, project, v - 1, pk) && Good(rows, project, v, pk)
    requires PackParent(pk, parent) == Some(parent) && PackParent(pk, k) == Some(parent)
    ensures Get(Files(rows, project, v - 1, pk), k) ==
            match Find(EntriesBefore(rows, project, parent), k) case None => None case Some(e) => Some(FileOf(Decode(e)))
  {
    LatestObjects(rows, project, v, pk, parent);
    FilesGet(rows, project, v - 1, v - 1, pk, k);
    ExistingIsStored(rows, project, v, pk, parent);
  }

  /** What the store holds for a pack parent after the update. */
  ghost function PackAfter(rows: set<Row>, project: int, v: int, pk: Matcher, batch: seq<Object>, parent: Path): Option<Stored> {
    if parent in Parents(pk, batch) then PackObject(rows, project, parent, Select(batch, IsRoutedTo(pk, parent)))
    else ObjectAt(rows, project, v, parent)
  }

  lemma MergedPackFile(rows: set<Row>, project: int, v: int, pk: Matcher, updates: seq<Object>, k: Path, parent: Path)
    ensures FileInStored(PackObject(rows, project, parent, updates), parent, k) ==
            match Find(MergedPack(rows, project, parent, updates), k) case None => None case Some(e) => Some(FileOf(Decode(e)))
  {
  }

  lemma PackedFile(rows: set<Row>, project: int, v: int, pk: Matcher, batch: seq<Object>, k: Path, parent: Path)
    requires Good(rows, project, v - 1, pk) && Good(rows, project, v, pk) && DistinctPaths(batch)
    requires PackParent(pk, k) == Some(parent)
    ensures FileInStored(PackAfter(rows, project, v, pk, batch, parent), parent, k)
            == Edited(Files(rows, project, v - 1, pk), pk, batch, k)
  {
    PackParentIsAbove(pk, k, parent);
    if parent in Parents(pk, batch) {
      MergedPackFile(rows, project, v, pk, Select(batch, IsRoutedTo(pk, parent)), k, parent);
      MergedFile(rows, project, v, pk, batch, k, parent);
      PackedFileBefore(rows, project, v, pk, k, parent);
    } else {
      FindUpdateIsAMember(batch, k);
      LatestObjects(rows, project, v, pk, parent);
      FilesGet(rows, project, v - 1, v - 1, pk, k);
    }
  }

  /**
    Update refines the edit of the directory: the files of the new version are the files
    of the latest one, edited by the batch, for every arrival order and every iteration
    order of the pack buffer.
  */
  lemma UpdateRefinesEdit(rows: set<Row>, project: int, v: int, pk: Matcher, batch: seq<Object>, order: seq<Path>, k: Path)
    requires Startable(rows, project, v, pk)
    requires ProperBatch(pk, batch) && Iterates(order, GroupsOf(pk, batch))
    ensures UpdateRows(rows, project, v, pk, batch, order).Done?
    ensures Get(Files(UpdateRows(rows, project, v, pk, batch, order).value.rows, project, v, pk), k)
            == Edited(Files(rows, project, v - 1, pk), pk, batch, k)
  {
    var ops, groups := LooseOps(pk, batch), GroupsOf(pk, batch);
    SelectKeepsDistinct(batch, IsLoose(pk));
    DistinctIsSafe(ops);
    UpdateKeepsGood(rows, project, v, pk, batch, order);
    GroupsAreRouted(pk, batch);
    LoosePhaseEffect(rows, project, v, pk, ops);
    SafeBatchKeepsGood(rows, project, v, pk, ops);
    var mid := LoosePhase(rows, project, v, ops).value.rows;
    var b := UpdateRows(rows, project, v, pk, batch, order).value.rows;
    PacksAfterLoose(rows, mid, project, v, pk, batch, order);
    FilesGet(b, project, v, v, pk, k);
    var path := RowPath(pk, k);
    match PackParent(pk, k)
    case None =>
      assert k !in groups;
      LooseFile(rows, project, v, pk, batch, k);
    case Some(parent) =>
      PackParentIsAbove(pk, k, parent);
      PackUntouchedByLoose(rows, project, v, pk, ops, parent);
      StartableIsGood(rows, project, v, pk);
      if parent in groups {
        SameObjectSamePack(rows, mid, project, v, pk, parent, groups[parent]);
      }
      PackedFile(rows, project, v, pk, batch, k, parent);
  }

  lemma PacksAfterLoose(rows: set<Row>, mid: set<Row>, project: int, v: int, pk: Matcher, batch: seq<Object>, order: seq<Path>)
    requires v >= 1 && Good(mid, project, v, pk) && Indexed(mid)
    requires WrittenByBatch(mid, project, v, LooseOps(pk, batch)) && Iterates(order, GroupsOf(pk, batch))
    ensures PackPhase(mid, project, v, order, GroupsOf(pk, batch)).Done?
    ensures PacksDone(mid, PackPhase(mid, project, v, order, GroupsOf(pk, batch)).value.rows, project, v, order, GroupsOf(pk, batch))
  {
    GroupsAreRouted(pk, batch);
    forall p | p in order ensures Fresh(mid, project, v, p) {
      assert RoutedTo(pk, p, GroupsOf(pk, batch)[p]);
      ParentsAreFresh(mid, project, v, pk, LooseOps(pk, batch), p);
    }
    PackPhaseEffect(mid, project, v, pk, order, GroupsOf(pk, batch));
  }

  ghost predicate IsEdit(after: Directory, before: Directory, pk: Matcher, batch: seq<Object>) {
    forall k :: Get(after, k) == Edited(before, pk, batch, k)
  }

  lemma UpdateIsEdit(rows: set<Row>, project: int, v: int, pk: Matcher, batch: seq<Object>, order: seq<Path>)
    requires Startable(rows, project, v, pk)
    requires ProperBatch(pk, batch) && Iterates(order, GroupsOf(pk, batch))
    ensures UpdateRows(rows, project, v, pk, batch, order).Done?
    ensures IsEdit(Files(UpdateRows(rows, project, v, pk, batch, order).value.rows, project, v, pk),
                   Files(rows, project, v - 1, pk), pk, batch)
  {
    UpdateRefinesEdit(rows, project, v, pk, batch, order, "");
    forall k ensures Get(Files(UpdateRows(rows, project, v, pk, batch, order).value.rows, project, v, pk), k)
                     == Edited(Files(rows, project, v - 1, pk), pk, batch, k) {
      UpdateRefinesEdit(rows, project, v, pk, batch, order, k);
    }
  }
}
