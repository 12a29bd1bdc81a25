/**
  When an update changes nothing: the exact condition for the server to answer with the version it
  already has, and for a batch that is sent again.
*/
module QuietLaws {
  import opened Paths
  import opened TarFormat
  import opened PackMerge
  import opened PackLaws
  import opened Table
  import opened Statements
  import opened LooseLaws
  import opened PackWrites
  import opened UpdateLaws
  import opened Store

  /** The version before `v` already says what the object says. A loose deletion is always news, and so is any word about a pack that is not there. */
  ghost predicate IsOldNews(rows: set<Row>, project: int, v: int, pk: Matcher, o: Object) {
    var now := Get(Files(rows, project, v - 1, pk), o.path);
    match PackParent(pk, o.path)
    case None => !o.deleted && now == Some(FileOf(o))
    case Some(parent) => HasRowAt(rows, project, v, parent) && now == if o.deleted then None else Some(FileOf(Normal(o)))
  }

  ghost predicate NothingNew(rows: set<Row>, project: int, v: int, pk: Matcher, batch: seq<Object>) {
    forall o :: o in batch ==> IsOldNews(rows, project, v, pk, o)
  }

  /** A tar entry is determined by its name and the file it shows. */
  lemma EntryFromFile(e: TarEntry, o: Object)
    requires WellFormed(e) && e.name == o.path
    ensures e == Encode(o) <==> FileOf(Decode(e)) == FileOf(Normal(o))
  {
    EncodeAfterDecode(e);
    EncodeAfterDecode(Encode(o));
  }

  /** A pack changes if and only if some of its updates are news. */
  lemma PackIsOldNews(rows: set<Row>, project: int, v: int, pk: Matcher, parent: Path, updates: seq<Object>)
    requires Good(rows, project, v - 1, pk) && Good(rows, project, v, pk)
    requires RoutedTo(pk, parent, updates) && DistinctPaths(updates) && updates != []
    ensures PackChanges(rows, project, parent, updates) <==> exists o :: o in updates && !IsOldNews(rows, project, v, pk, o)
  {
    var before := EntriesBefore(rows, project, parent);
    ExistingIsStored(rows, project, v, pk, parent);
    if ExistingPack(rows, project, parent) == None {
      assert updates[0] in updates && !IsOldNews(rows, project, v, pk, updates[0]);
    } else {
      DistinctSurvivesReordering(updates, SortByPath(updates));
      SortKeepsElements(updates);
      MergeSameIff(before, SortByPath(updates));
      forall o | o in updates ensures SaysAlready(before, o) <==> IsOldNews(rows, project, v, pk, o) {
        SaidByFile(rows, project, v, pk, parent, o);
      }
    }
  }

  lemma SaidByFile(rows: set<Row>, project: int, v: int, pk: Matcher, parent: Path, o: Object)
    requires Good(rows, project, v - 1, pk) && Good(rows, project, v, pk)
    requires PackParent(pk, parent) == Some(parent) == PackParent(pk, o.path) && ExistingPack(rows, project, parent).Some?
    ensures SaysAlready(EntriesBefore(rows, project, parent), o) <==> IsOldNews(rows, project, v, pk, o)
  {
    var before := EntriesBefore(rows, project, parent);
    ExistingIsStored(rows, project, v, pk, parent);
    PackedFileBefore(rows, project, v, pk, o.path, parent);
    FindIsAMember(before, o.path);
    if Find(before, o.path).Some? {
      EntryFromFile(Find(before, o.path).value, o);
    }
  }

  lemma LooseAreOldNews(rows: set<Row>, project: int, v: int, pk: Matcher, batch: seq<Object>)
    requires Good(rows, project, v - 1, pk)
    ensures PhaseChanges(rows, project, v, LooseOps(pk, batch)) <==>
            exists o :: o in batch && PackParent(pk, o.path) == None && !IsOldNews(rows, project, v, pk, o)
  {
    SelectMembers(batch, IsLoose(pk));
    forall o | o in LooseOps(pk, batch)
      ensures (o.deleted || !SameObject(ObjectAt(rows, project, v, o.path), o)) <==> !IsOldNews(rows, project, v, pk, o)
    {
      SameObjectSameFile(rows, project, v, pk, o);
    }
  }

  /** After the loose writes, the packs are as they were. */
  lemma PackPhaseChanges(rows: set<Row>, project: int, v: int, pk: Matcher, batch: seq<Object>, order: seq<Path>)
    requires Startable(rows, project, v, pk) && ProperBatch(pk, batch) && Iterates(order, GroupsOf(pk, batch))
    ensures LoosePhase(rows, project, v, LooseOps(pk, batch)).Done?
    ensures var mid := LoosePhase(rows, project, v, LooseOps(pk, batch)).value;
            && (mid.changed <==> PhaseChanges(rows, project, v, LooseOps(pk, batch)))
            && PackPhase(mid.rows, project, v, order, GroupsOf(pk, batch)).Done?
            && (PackPhase(mid.rows, project, v, order, GroupsOf(pk, batch)).value.changed <==>
                exists p :: p in order && PackChanges(rows, project, p, GroupsOf(pk, batch)[p]))
  {
    var ops, groups := LooseOps(pk, batch), GroupsOf(pk, batch);
    SelectKeepsDistinct(batch, IsLoose(pk));
    SelectMembers(batch, IsLoose(pk));
    DistinctIsSafe(ops);
    LoosePhaseEffect(rows, project, v, pk, ops);
    SafeBatchKeepsGood(rows, project, v, pk, ops);
    var mid := LoosePhase(rows, project, v, ops).value.rows;
    PackPhaseReports(mid, project, v, pk, batch, order);
    forall p | p in order ensures PackChanges(rows, project, p, groups[p]) <==> PackChanges(mid, project, p, groups[p]) {
      SamePackBefore(rows, mid, project, v, pk, batch, p);
    }
  }

  lemma PackPhaseReports(mid: set<Row>, project: int, v: int, pk: Matcher, batch: seq<Object>, order: seq<Path>)
    requires v >= 1 && Good(mid, project, v, pk) && Indexed(mid)
    requires WrittenByBatch(mid, project, v, LooseOps(pk, batch)) && Iterates(order, GroupsOf(pk, batch))
    ensures var w := PackPhase(mid, project, v, order, GroupsOf(pk, batch));
            w.Done? && (w.value.changed <==> exists p :: p in order && PackChanges(mid, project, p, GroupsOf(pk, batch)[p]))
  {
    GroupsAreRouted(pk, batch);
    forall p | p in order ensures Fresh(mid, project, v, p) {
      assert RoutedTo(pk, p, GroupsOf(pk, batch)[p]);
      ParentsAreFresh(mid, project, v, pk, LooseOps(pk, batch), p);
    }
    PackPhaseEffect(mid, project, v, pk, order, GroupsOf(pk, batch));
  }

  lemma SamePackBefore(rows: set<Row>, mid: set<Row>, project: int, v: int, pk: Matcher, batch: seq<Object>, p: Path)
    requires Startable(rows, project, v, pk) && Good(mid, project, v, pk) && p in GroupsOf(pk, batch)
    requires AllLoose(pk, LooseOps(pk, batch))
    requires forall k :: ObjectAt(mid, project, v, k) == PhaseObject(rows, project, v, LooseOps(pk, batch), k)
    ensures PackChanges(rows, project, p, GroupsOf(pk, batch)[p]) <==> PackChanges(mid, project, p, GroupsOf(pk, batch)[p])
  {
    GroupsAreRouted(pk, batch);
    StartableIsGood(rows, project, v, pk);
    assert RoutedTo(pk, p, GroupsOf(pk, batch)[p]);
    PackUntouchedByLoose(rows, project, v, pk, LooseOps(pk, batch), p);
    SameObjectSamePack(rows, mid, project, v, pk, p, GroupsOf(pk, batch)[p]);
  }

  /** Some pack of the buffer changes if and only if some packed object of the batch is news. */
  lemma PacksAreOldNews(rows: set<Row>, project: int, v: int, pk: Matcher, batch: seq<Object>, order: seq<Path>)
    requires Startable(rows, project, v, pk) && DistinctPaths(batch) && Iterates(order, GroupsOf(pk, batch))
    ensures (exists p :: p in order && PackChanges(rows, project, p, GroupsOf(pk, batch)[p])) <==>
            (exists o :: o in batch && PackParent(pk, o.path).Some? && !IsOldNews(rows, project, v, pk, o))
  {
    StartableIsGood(rows, project, v, pk);
    forall p | p in order
      ensures PackChanges(rows, project, p, GroupsOf(pk, batch)[p]) <==>
              exists o :: o in batch && PackParent(pk, o.path) == Some(p) && !IsOldNews(rows, project, v, pk, o)
    {
      GroupIsOldNews(rows, project, v, pk, batch, p);
    }
    forall o | o in batch && PackParent(pk, o.path).Some? ensures PackParent(pk, o.path).value in order {
      assert PackParent(pk, o.path).value in Parents(pk, batch);
    }
  }

  lemma GroupIsOldNews(rows: set<Row>, project: int, v: int, pk: Matcher, batch: seq<Object>, p: Path)
    requires Good(rows, project, v - 1, pk) && Good(rows, project, v, pk) && DistinctPaths(batch) && p in GroupsOf(pk, batch)
    ensures PackChanges(rows, project, p, GroupsOf(pk, batch)[p]) <==>
            exists o :: o in batch && PackParent(pk, o.path) == Some(p) && !IsOldNews(rows, project, v, pk, o)
  {
    var updates := GroupsOf(pk, batch)[p];
    GroupsAreRouted(pk, batch);
    SelectMembers(batch, IsRoutedTo(pk, p));
    SelectKeepsDistinct(batch, IsRoutedTo(pk, p));
    assert RoutedTo(pk, p, updates);
    assert updates != [] by {
      var o :| o in batch && PackParent(pk, o.path) == Some(p);
      assert o in updates;
    }
    PackIsOldNews(rows, project, v, pk, p, updates);
  }

  /** An update reports no change if and only if its batch brings nothing new. */
  lemma QuietIff(rows: set<Row>, project: int, v: int, pk: Matcher, batch: seq<Object>, order: seq<Path>)
    requires Startable(rows, project, v, pk) && ProperBatch(pk, batch) && Iterates(order, GroupsOf(pk, batch))
    ensures UpdateRows(rows, project, v, pk, batch, order).Done?
    ensures !UpdateRows(rows, project, v, pk, batch, order).value.changed <==> NothingNew(rows, project, v, pk, batch)
  {
    PackPhaseChanges(rows, project, v, pk, batch, order);
    LooseAreOldNews(rows, project, v, pk, batch);
    PacksAreOldNews(rows, project, v, pk, batch, order);
  }

  // ----- Requests -----

  /** The server answers with the version it already has if and only if the batch brings nothing new. */
  lemma AnswersLatestIff(a: Db, b: Db, regex: Regex, project: int, batch: seq<Object>, r: Result<int>)
    requires Valid(a, regex) && project in a.projects && ProperBatch(MatcherOf(regex, a.projects, project), batch)
    requires UpdateStep(a, b, regex, project, batch, r)
    ensures r == Ok(a.projects[project].latest) <==>
            NothingNew(a.objects, project, a.projects[project].latest + 1, MatcherOf(regex, a.projects, project), batch)
  {
    var pk, v := MatcherOf(regex, a.projects, project), a.projects[project].latest + 1;
    ProjectIsStartable(a, regex, project);
    ProperIsSafe(pk, batch);
    var order, w := UpdateOutcome(a, b, regex, project, batch, r);
    QuietIff(a.objects, project, v, pk, batch, order);
  }

  /** What makes a batch news each time it is sent: it deletes a loose path, or touches a pack that it leaves empty or finds missing. */
  ghost predicate AlwaysNews(rows: set<Row>, project: int, v: int, pk: Matcher, batch: seq<Object>) {
    exists o :: o in batch && match PackParent(pk, o.path)
                              case None => o.deleted
                              case Some(parent) => !HasRowAt(rows, project, v, parent)
  }

  /** What the update left is news to its own batch exactly if the batch always is. */
  lemma ResentIsOldNews(a: Db, b: Db, regex: Regex, project: int, batch: seq<Object>, r: Result<int>)
    requires Valid(a, regex) && project in a.projects && ProperBatch(MatcherOf(regex, a.projects, project), batch)
    requires UpdateStep(a, b, regex, project, batch, r) && r.Ok?
    ensures var pk := MatcherOf(regex, a.projects, project);
            NothingNew(b.objects, project, r.value + 1, pk, batch) <==> !AlwaysNews(b.objects, project, r.value + 1, pk, batch)
  {
    UpdateEditsLatest(a, b, regex, project, batch, r);
    EditIsOldNews(FilesOf(b, regex, project, r.value), FilesOf(a, regex, project, a.projects[project].latest), b.objects, project, r.value + 1,
                  MatcherOf(regex, a.projects, project), batch);
  }

  /** An answer with the latest version is that of an update that touched nothing. */
  lemma LatestMeansUntouched(b: Db, c: Db, regex: Regex, project: int, batch: seq<Object>, again: Result<int>)
    requires Valid(b, regex) && project in b.projects && ProperBatch(MatcherOf(regex, b.projects, project), batch)
    requires UpdateStep(b, c, regex, project, batch, again)
    ensures again == Ok(b.projects[project].latest) ==> c.objects == b.objects && c.projects == b.projects
  {
    ProperIsSafe(MatcherOf(regex, b.projects, project), batch);
    UpdateKeepsValid(b, c, regex, project, batch, again);
  }

  /** Sending a batch again answers the same version and touches no row, unless it is one of those. */
  lemma ResendIsQuietIff(a: Db, b: Db, c: Db, regex: Regex, project: int, batch: seq<Object>, r: Result<int>, again: Result<int>)
    requires Valid(a, regex) && project in a.projects && ProperBatch(MatcherOf(regex, a.projects, project), batch)
    requires UpdateStep(a, b, regex, project, batch, r) && project in b.projects && UpdateStep(b, c, regex, project, batch, again)
    ensures r.Ok? && b.projects[project].latest == r.value
    ensures again == r && c.objects == b.objects && c.projects == b.projects <==>
            !AlwaysNews(b.objects, project, r.value + 1, MatcherOf(regex, b.projects, project), batch)
  {
    UpdateEditsLatest(a, b, regex, project, batch, r);
    ResentIsOldNews(a, b, regex, project, batch, r);
    AnswersLatestIff(b, c, regex, project, batch, again);
    LatestMeansUntouched(b, c, regex, project, batch, again);
  }

  /** After the edit by a batch, only the batches that always are news are. */
  lemma EditIsOldNews(after: Directory, before: Directory, rows: set<Row>, project: int, v: int, pk: Matcher, batch: seq<Object>)
    requires IsEdit(after, before, pk, batch) && DistinctPaths(batch) && after == Files(rows, project, v - 1, pk)
    ensures NothingNew(rows, project, v, pk, batch) <==> !AlwaysNews(rows, project, v, pk, batch)
  {
    forall o | o in batch ensures Get(after, o.path) == if o.deleted then None else Some(FileOf(if PackParent(pk, o.path) == None then o else Normal(o))) {
      FindUpdateIsAMember(batch, o.path);
      var u := FindUpdate(batch, o.path).value;
      var i :| 0 <= i < |batch| && batch[i] == o;
      var j :| 0 <= j < |batch| && batch[j] == u;
      assert Get(after, o.path) == Edited(before, pk, batch, o.path);
    }
  }

  /** In particular: a batch without deletions. */
  lemma ResendIsQuiet(a: Db, b: Db, c: Db, regex: Regex, project: int, batch: seq<Object>, r: Result<int>, again: Result<int>)
    requires Valid(a, regex) && project in a.projects && ProperBatch(MatcherOf(regex, a.projects, project), batch)
    requires UpdateStep(a, b, regex, project, batch, r) && project in b.projects && UpdateStep(b, c, regex, project, batch, again)
    requires forall o :: o in batch ==> !o.deleted
    ensures again == r && c.objects == b.objects && c.projects == b.projects
  {
    ResendIsQuietIff(a, b, c, regex, project, batch, r, again);
    UpdateEditsLatest(a, b, regex, project, batch, r);
    assert GoodProject(b, regex, project);
    NotAlwaysNews(FilesOf(b, regex, project, r.value), FilesOf(a, regex, project, a.projects[project].latest), b.objects, project, r.value + 1,
                  MatcherOf(regex, a.projects, project), batch);
  }

  lemma NotAlwaysNews(after: Directory, before: Directory, rows: set<Row>, project: int, v: int, pk: Matcher, batch: seq<Object>)
    requires IsEdit(after, before, pk, batch) && after == Files(rows, project, v - 1, pk) && Good(rows, project, v - 1, pk)
    requires forall o :: o in batch ==> !o.deleted
    ensures !AlwaysNews(rows, project, v, pk, batch)
  {
    forall o | o in batch && PackParent(pk, o.path).Some? ensures HasRowAt(rows, project, v, PackParent(pk, o.path).value) {
      FindUpdateIsAMember(batch, o.path);
      assert Get(after, o.path) == Edited(before, pk, batch, o.path);
      var row := RowOfFile(rows, project, v - 1, v - 1, pk, o.path);
      assert LiveAt(row, project, v);
    }
  }
}
