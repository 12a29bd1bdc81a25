/**
  What each request does, in terms of rows, versions and contents that a reader can look
  up: what appears, what goes, and that everything else stays as it was.
*/
module RequestLaws {
  import opened Paths
  import opened TarFormat
  import opened PackLaws
  import opened Table
  import opened Statements
  import opened LooseLaws
  import opened PackWrites
  import opened UpdateLaws
  import opened CopyLaws
  import opened ResetLaws
  import opened Store

  /** The request leaves a project alone: its record and its rows. */
  ghost predicate Untouched(a: Db, b: Db, project: int) {
    && (project in a.projects <==> project in b.projects)
    && (project in a.projects ==> b.projects[project] == a.projects[project])
    && forall r: Row :: r.project == project ==> (r in b.objects <==> r in a.objects)
  }

  lemma UntouchedTwice(a: Db, b: Db, c: Db, project: int)
    requires Untouched(a, b, project) && Untouched(b, c, project)
    ensures Untouched(a, c, project)
  {
  }

  ghost predicate HasNoRows(db: Db, project: int) {
    forall r :: r in db.objects ==> r.project != project
  }

  // ----- NewProject -----

  /** A missing list of patterns is the empty list. */
  function Given(patterns: Option<seq<string>>): seq<string> {
    match patterns case None => [] case Some(list) => list
  }

  /** A new project is created exactly when its id is free and its template, if it is another project, has the same patterns. */
  lemma NewProjectSucceedsIff(a: Db, regex: Regex, id: int, patterns: Option<seq<string>>, template: Option<int>)
    requires Valid(a, regex)
    ensures NewProject(a, id, patterns, template).Ok? <==>
            && id !in a.projects
            && match template
               case None => true
               case Some(source) => source == id || (source in a.projects && Given(a.projects[source].patterns) == Given(patterns))
  {
    if id !in a.projects {
      assert HasNoRows(a, id);
      ValidIsIndexed(a, regex);
      if template.Some? {
        TemplateDoesNotClash(a.objects, template.value, id);
      }
    }
  }

  /** The live rows of one project, under another. */
  ghost predicate CopiesLiveRows(a: Db, b: Db, source: int, id: int) {
    forall r: Row :: r.project == id ==> (r in b.objects <==> r.stop == None && r.(project := source) in a.objects)
  }

  /**
    What creating a project does: the id is added with the patterns as given and nothing else changes. Without a template it
    is at version 0 and has no file; with one it is at the template's latest version and has the files the template has there.
  */
  lemma NewProjectDoes(a: Db, b: Db, regex: Regex, id: int, patterns: Option<seq<string>>, template: Option<int>)
    requires Valid(a, regex) && NewProject(a, id, patterns, template) == Ok(b)
    ensures id !in a.projects && id in b.projects && b.projects[id].patterns == patterns
    ensures b.contents == a.contents && forall q :: q != id ==> Untouched(a, b, q)
    ensures template in {None, Some(id)} ==>
              b.projects[id].latest == 0 && HasNoRows(b, id) && forall v :: FilesOf(b, regex, id, v) == map[]
    ensures template !in {None, Some(id)} ==>
              var source := template.value;
              && source in a.projects && b.projects[id].latest == a.projects[source].latest
              && CopiesLiveRows(a, b, source, id)
              && FilesOf(b, regex, id, b.projects[id].latest) == FilesOf(a, regex, source, a.projects[source].latest)
  {
    assert HasNoRows(a, id);
    NewProjectSucceedsIff(a, regex, id, patterns, template);
    if template in {None, Some(id)} {
      forall v ensures FilesOf(b, regex, id, v) == map[] {
        NoRowsNoFiles(b.objects, id, v, MatcherOf(regex, b.projects, id));
      }
    } else {
      TemplateIsCopied(a, b, regex, id, patterns, template.value);
    }
  }

  lemma NoRowsNoFiles(rows: set<Row>, project: int, v: int, pk: Matcher)
    requires forall r :: r in rows ==> r.project != project
    ensures Files(rows, project, v, pk) == map[]
  {
    assert PathsAt(rows, project, v) == {};
  }

  lemma TemplateIsCopied(a: Db, b: Db, regex: Regex, id: int, patterns: Option<seq<string>>, source: int)
    requires Valid(a, regex) && NewProject(a, id, patterns, Some(source)) == Ok(b) && source != id
    requires source in a.projects && HasNoRows(a, id)
    ensures forall q :: q != id ==> Untouched(a, b, q)
    ensures CopiesLiveRows(a, b, source, id)
    ensures FilesOf(b, regex, id, a.projects[source].latest) == FilesOf(a, regex, source, a.projects[source].latest)
  {
    var latest, pk := a.projects[source].latest, MatcherOf(regex, a.projects, source);
    assert GoodProject(a, regex, source);
    ValidIsIndexed(a, regex);
    assert b.objects == CopyRows(a.objects, source, id);
    CopyEffect(a.objects, source, id, latest, pk);
    assert MatcherOf(regex, b.projects, id) == pk;
    SameObjectsSameFiles(b.objects, a.objects, id, source, latest, latest, latest, latest, pk);
    CopiedRows(a.objects, source, id);
  }

  lemma CopiedRows(rows: set<Row>, source: int, id: int)
    requires forall r :: r in rows ==> r.project != id
    ensures forall r: Row :: r.project == id ==> (r in CopyRows(rows, source, id) <==> r.stop == None && r.(project := source) in rows)
  {
    forall r: Row | r.project == id ensures r in CopyRows(rows, source, id) <==> r.stop == None && r.(project := source) in rows {
      var s := r.(project := source);
      assert s.(project := id) == r;
      if r in CopyRows(rows, source, id) {
        var q :| q in rows && Live(q, source) && r == q.(project := id);
        assert q == s;
      }
    }
  }

  // ----- Update and clone -----

  /** A committed write changes the record and the rows of its own project only. */
  lemma CommitTouchesOne(a: Db, b: Db, project: int, v: int, q: int)
    requires project in a.projects && b.projects == SetLatest(a.projects, project, v)
    requires Evolves(a.objects, b.objects, project, v)
    ensures b.projects[project].patterns == a.projects[project].patterns
    ensures q != project ==> Untouched(a, b, q)
  {
  }

  lemma UpdateTouchesOne(a: Db, b: Db, regex: Regex, project: int, batch: seq<Object>, r: Result<int>, q: int)
    requires Valid(a, regex) && project in a.projects && SafeUpdate(a, regex, project, batch)
    requires UpdateStep(a, b, regex, project, batch, r)
    ensures ContentsGrew(a.contents, b.contents)
    ensures project in b.projects && b.projects[project].patterns == a.projects[project].patterns
    ensures q != project ==> Untouched(a, b, q)
  {
    UpdateKeepsValid(a, b, regex, project, batch, r);
    if r != Ok(a.projects[project].latest) {
      CommitTouchesOne(a, b, project, a.projects[project].latest + 1, q);
    }
  }

  /** What is stored for a loose object that is set: the old row where hash and mode agree with it, else the object's own columns. */
  ghost function SetTo(before: Option<Stored>, o: Object): Option<Stored> {
    if before.Some? && before.value.hash == HashContent(Loose(o.content)) && before.value.mode == o.mode then before
    else Some(Stored(HashContent(Loose(o.content)), o.mode, o.size, false))
  }

  lemma RowsSet(rows: set<Row>, project: int, v: int, pk: Matcher, batch: seq<Object>, order: seq<Path>, o: Object)
    requires Startable(rows, project, v, pk) && ProperBatch(pk, batch) && Iterates(order, GroupsOf(pk, batch))
    requires o in batch && !o.deleted && PackParent(pk, o.path) == None
    ensures UpdateRows(rows, project, v, pk, batch, order).Done?
    ensures ObjectAt(UpdateRows(rows, project, v, pk, batch, order).value.rows, project, v, o.path)
            == SetTo(ObjectAt(rows, project, v, o.path), o)
  {
    var ops := LooseOps(pk, batch);
    SelectKeepsDistinct(batch, IsLoose(pk));
    SelectMembers(batch, IsLoose(pk));
    FindUpdateIsAMember(ops, o.path);
    DistinctIsSafe(ops);
    GroupsAreRouted(pk, batch);
    LoosePhaseEffect(rows, project, v, pk, ops);
    SafeBatchKeepsGood(rows, project, v, pk, ops);
    var mid := LoosePhase(rows, project, v, ops).value.rows;
    PacksAfterLoose(rows, mid, project, v, pk, batch, order);
    forall p | p in order ensures p != o.path {
      assert RoutedTo(pk, p, GroupsOf(pk, batch)[p]);
    }
  }

  lemma WrittenRowsSet(a: Db, regex: Regex, project: int, batch: seq<Object>, order: seq<Path>, w: Written, o: Object)
    requires Valid(a, regex) && project in a.projects
    requires var pk, latest := MatcherOf(regex, a.projects, project), a.projects[project].latest;
             && ProperBatch(pk, batch) && Iterates(order, GroupsOf(pk, batch))
             && UpdateRows(a.objects, project, latest + 1, pk, batch, order) == Done(w)
             && o in batch && !o.deleted && PackParent(pk, o.path) == None
    ensures var latest := a.projects[project].latest;
            && ObjectAt(w.rows, project, latest + 1, o.path) == SetTo(ObjectAt(a.objects, project, latest, o.path), o)
            && ObjectAt(a.objects, project, latest, o.path) == ObjectAt(a.objects, project, latest + 1, o.path)
  {
    var pk, v := MatcherOf(regex, a.projects, project), a.projects[project].latest + 1;
    ProjectIsStartable(a, regex, project);
    RowsSet(a.objects, project, v, pk, batch, order, o);
    LatestObjects(a.objects, project, v, pk, o.path);
  }

  /** A loose object that an update sets is stored with its own hash, mode and size, which is what readers get. */
  lemma UpdateStores(a: Db, b: Db, regex: Regex, project: int, batch: seq<Object>, r: Result<int>, o: Object)
    requires Valid(a, regex) && project in a.projects
    requires ProperBatch(MatcherOf(regex, a.projects, project), batch)
    requires UpdateStep(a, b, regex, project, batch, r) && r.Ok?
    requires o in batch && !o.deleted && PackParent(MatcherOf(regex, a.projects, project), o.path) == None
    ensures ObjectAt(b.objects, project, r.value, o.path) == SetTo(ObjectAt(a.objects, project, a.projects[project].latest, o.path), o)
  {
    ProperIsSafe(MatcherOf(regex, a.projects, project), batch);
    var order, w := UpdateOutcome(a, b, regex, project, batch, r);
    WrittenRowsSet(a, regex, project, batch, order, w, o);
  }

  /** A clone writes to its target alone, and stores there what the source stores. */
  lemma CloneDoes(a: Db, regex: Regex, source: int, target: int, version: int)
    requires Valid(a, regex) && Cloneable(a, source, target)
    ensures Clone(a, source, target, version).Ok?
    ensures var (b, v) := Clone(a, source, target, version).value;
            && v == a.projects[target].latest + 1
            && b.contents == a.contents
            && target in b.projects && b.projects[target] == Project(v, a.projects[target].patterns)
            && (forall q :: q != target ==> Untouched(a, b, q))
            && forall path :: ObjectAt(b.objects, target, v, path) == ObjectAt(a.objects, source, version, path)
  {
    var b := FirstClone(a, regex, source, target, version);
    CloneCommits(a, source, target, version);
    forall q | q != target ensures Untouched(a, b, q) {
      CommitTouchesOne(a, b, target, a.projects[target].latest + 1, q);
    }
  }

  // ----- Rollback and reset -----

  /** The row as version `w` had it: what stopped later is live again. */
  function AsOf(r: Row, w: int): Row {
    if r.stop.Some? && r.stop.value > w then r.(stop := None) else r
  }

  /** The project is at `w` and has the rows that had started by then, as they were. */
  ghost predicate RolledBack(a: Db, b: Db, project: int, w: int)
    requires project in a.projects
  {
    && project in b.projects && b.projects[project] == Project(w, a.projects[project].patterns)
    && forall r: Row :: r.project == project ==>
         (r in b.objects <==> exists s :: s in a.objects && s.project == project && s.start <= w && r == AsOf(s, w))
  }

  /** A rollback makes `w` the latest version of its project, and leaves everything else alone. */
  lemma RollbackDoes(a: Db, regex: Regex, project: int, w: int)
    requires Valid(a, regex)
    ensures Rollback(a, project, w).Ok?
    ensures var b := Rollback(a, project, w).value;
            && b.contents == a.contents
            && (forall q :: q != project || q !in a.projects ==> Untouched(a, b, q))
            && (project in a.projects ==> RolledBack(a, b, project, w))
  {
    if project in a.projects {
      RollbackKeepsValidIff(a, regex, project, w);
      ResetSparesOthers(a.objects, project, w);
      ReopenedRows(a.objects, project, w);
    } else {
      RollbackOfNothing(a, regex, project, w);
    }
  }

  lemma ReopenedRows(rows: set<Row>, project: int, w: int)
    ensures forall r: Row :: r.project == project ==>
              (r in Reopened(rows, project, w) <==> exists s :: s in rows && s.project == project && s.start <= w && r == AsOf(s, w))
  {
    var kept, chosen := DropAfter(rows, project, w), StoppedAfter(project, w);
    forall r: Row | r.project == project
      ensures r in Reopened(rows, project, w) <==> exists s :: s in rows && s.project == project && s.start <= w && r == AsOf(s, w)
    {
      if r in Reopened(rows, project, w) {
        var s :| s in kept && r == Restop(s, chosen, None);
        assert r == AsOf(s, w);
      }
      if s :| s in rows && s.project == project && s.start <= w && r == AsOf(s, w) {
        assert s in kept && r == Restop(s, chosen, None);
      }
    }
  }

  /** Afterwards every version up to `w` has the files it had, and the later ones have those of `w`. */
  lemma RollbackShows(a: Db, b: Db, regex: Regex, project: int, w: int, u: int)
    requires Valid(a, regex) && project in a.projects && Rollback(a, project, w) == Ok(b)
    ensures FilesOf(b, regex, project, u) == FilesOf(a, regex, project, if u <= w then u else w)
  {
    var pk, latest, v := MatcherOf(regex, a.projects, project), a.projects[project].latest, if u <= w then u else w;
    assert GoodProject(a, regex, project);
    ValidIsIndexed(a, regex);
    ReopeningIsSafe(a.objects, project, latest, w, pk);
    assert b.objects == Reopened(a.objects, project, w) && MatcherOf(regex, b.projects, project) == pk;
    forall path ensures ObjectAt(b.objects, project, u, path) == ObjectAt(a.objects, project, v, path) {
      ResetKeepsVersions(a.objects, project, latest, w, pk, v, path);
      if u > w {
        BeyondLatest(b.objects, project, w, u, w, pk, path);
      }
    }
    SameObjectsSameFiles(b.objects, a.objects, project, project, w, latest, u, v, pk);
  }

  /** The snapshot names every project at most once. */
  predicate NamesOnce(snapshot: seq<(int, int)>) {
    forall i, j :: 0 <= i < j < |snapshot| ==> snapshot[i].0 != snapshot[j].0
  }

  /** Part of the way through: the listed projects are rolled back, and the others are as they were. */
  ghost predicate AllRolledBack(a: Db, b: Db, snapshot: seq<(int, int)>) {
    && b.contents == a.contents
    && (forall s :: s in snapshot && s.0 in a.projects ==> RolledBack(a, b, s.0, s.1))
    && (forall q :: q !in a.projects || q !in Ids(snapshot) ==> Untouched(a, b, q))
  }

  lemma {:induction false} RollbackAllDoes(a: Db, regex: Regex, snapshot: seq<(int, int)>)
    requires Valid(a, regex) && NotNegative(snapshot) && NamesOnce(snapshot)
    ensures RollbackAll(a, snapshot).Ok? && Valid(RollbackAll(a, snapshot).value, regex)
    ensures AllRolledBack(a, RollbackAll(a, snapshot).value, snapshot)
  {
    RollbackAllKeepsValid(a, regex, snapshot);
    if snapshot != [] {
      var n := |snapshot| - 1;
      RollbackAllDoes(a, regex, snapshot[..n]);
      var mid := RollbackAll(a, snapshot[..n]).value;
      RollbackDoes(mid, regex, snapshot[n].0, snapshot[n].1);
      OneMoreRollback(a, mid, RollbackAll(a, snapshot).value, snapshot);
    }
  }

  lemma OneMoreRollback(a: Db, mid: Db, b: Db, snapshot: seq<(int, int)>)
    requires snapshot != [] && NamesOnce(snapshot) && AllRolledBack(a, mid, snapshot[..|snapshot| - 1])
    requires var s := snapshot[|snapshot| - 1];
             && b.contents == mid.contents
             && (forall q :: q != s.0 || q !in mid.projects ==> Untouched(mid, b, q))
             && (s.0 in mid.projects ==> RolledBack(mid, b, s.0, s.1))
    ensures AllRolledBack(a, b, snapshot)
  {
    var n := |snapshot| - 1;
    var last := snapshot[n];
    assert last.0 !in Ids(snapshot[..n]);
    assert Ids(snapshot) == Ids(snapshot[..n]) + {last.0};
    assert Untouched(a, mid, last.0);
    forall s | s in snapshot && s.0 in a.projects ensures RolledBack(a, b, s.0, s.1) {
      if s == last {
        RolledBackSince(a, mid, b, s.0, s.1);
      } else {
        assert s in snapshot[..n] && s.0 != last.0;
        assert RolledBack(a, mid, s.0, s.1) && Untouched(mid, b, s.0);
      }
    }
    forall q | q !in a.projects || q !in Ids(snapshot) ensures Untouched(a, b, q) {
      UntouchedTwice(a, mid, b, q);
    }
  }

  lemma RolledBackSince(a: Db, mid: Db, b: Db, project: int, w: int)
    requires project in a.projects && project in mid.projects && Untouched(a, mid, project) && RolledBack(mid, b, project, w)
    ensures RolledBack(a, b, project, w)
  {
  }

  /**
    What a reset does: without projects it empties the database; otherwise each listed project is rolled back
    and every other one is gone with its rows.
  */
  lemma ResetDoes(a: Db, regex: Regex, snapshot: seq<(int, int)>)
    requires Valid(a, regex) && NotNegative(snapshot) && NamesOnce(snapshot)
    ensures Reset(a, snapshot).Ok?
    ensures var b := Reset(a, snapshot).value;
            if snapshot == [] then b.projects == map[] && b.objects == {} && b.contents == map[]
            else
              && b.contents == a.contents
              && (forall s :: s in snapshot && s.0 in a.projects ==> RolledBack(a, b, s.0, s.1))
              && (forall q :: q in b.projects <==> q in a.projects && exists s :: s in snapshot && s.0 == q)
              && (forall r :: r in b.objects ==> r.project in b.projects)
  {
    if snapshot != [] {
      RollbackAllDoes(a, regex, snapshot);
      var c, b := RollbackAll(a, snapshot).value, Reset(a, snapshot).value;
      assert b == KeepOnly(c, Ids(snapshot));
      forall s | s in snapshot && s.0 in a.projects ensures RolledBack(a, b, s.0, s.1) {
        assert s.0 in Ids(snapshot) && RolledBack(a, c, s.0, s.1);
        assert Untouched(c, b, s.0);
      }
      forall q | q in Ids(snapshot) && q !in a.projects ensures q !in c.projects {
        assert Untouched(a, c, q);
      }
    }
  }

  // ----- Deletion and collection -----

  lemma DeleteDoes(a: Db, project: int)
    ensures var b := DeleteProject(a, project);
            && project !in b.projects && HasNoRows(b, project)
            && b.contents == a.contents
            && forall q :: q != project ==> Untouched(a, b, q)
  {
  }

  /** Some version that the collection has to keep shows the row. */
  ghost predicate StillShown(r: Row, project: int, latest: int, keep: int, from: int) {
    exists u :: (u <= from || u >= latest - keep) && LiveAt(r, project, u)
  }

  /** The row collection removes exactly the rows of its project that no version it has to keep shows. */
  lemma GcRowsDoes(a: Db, regex: Regex, project: int, keep: int, from: int, r: Row)
    requires Valid(a, regex)
    ensures var b := GcRowsOnly(a, project, keep, from);
            && b.projects == a.projects && b.contents == a.contents
            && (r in b.objects <==>
                && r in a.objects
                && (keep > 0 && r.project == project ==> StillShown(r, project, a.projects[project].latest, keep, from)))
  {
    if r in a.objects && keep > 0 && r.project == project {
      assert GoodProject(a, regex, project);
      var latest := a.projects[project].latest;
      if r.start <= from || r.start >= latest - keep {
        assert LiveAt(r, project, r.start);
      } else if r.stop.None? || r.stop.value > latest - keep {
        assert LiveAt(r, project, latest - keep);
      }
    }
  }

  ghost predicate SomeRowHas(rows: set<Row>, h: Hash) {
    exists r :: r in rows && r.hash == h
  }

  /** Nothing is added or replaced; what goes is exactly what was asked for and what no row has. */
  ghost predicate LosesUnused(rows: set<Row>, before: map<Hash, Blob>, after: map<Hash, Blob>, hashes: set<Hash>) {
    && (forall h :: h in after <==> h in before && (h !in hashes || SomeRowHas(rows, h)))
    && (forall h :: h in after ==> after[h] == before[h])
  }

  lemma MissingIsUnused(rows: set<Row>, contents: map<Hash, Blob>, hashes: set<Hash>)
    ensures LosesUnused(rows, contents, contents - Missing(rows, contents, hashes), hashes)
  {
  }

  /** The content collection removes exactly the requested contents that no row has. */
  lemma GcContentsDoes(a: Db, hashes: set<Hash>)
    ensures var b := GcContents(a, hashes);
            b.projects == a.projects && b.objects == a.objects && LosesUnused(a.objects, a.contents, b.contents, hashes)
  {
    MissingIsUnused(a.objects, a.contents, hashes);
  }

  /** The contents of the rows that went are gone, unless another row has them; every other content is as it was. */
  ghost predicate LeavesNoTrace(a: Db, b: Db) {
    && (forall h :: h in b.contents <==> h in a.contents && (SomeRowHas(a.objects - b.objects, h) ==> SomeRowHas(b.objects, h)))
    && (forall h :: h in b.contents ==> b.contents[h] == a.contents[h])
  }

  /** GcProject collects the rows, and of the contents exactly those that only these rows had. */
  lemma GcProjectDoes(a: Db, project: int, keep: int, from: int)
    ensures GcProject(a, project, keep, from).Ok? <==> keep > 0
    ensures keep > 0 ==>
              var b := GcProject(a, project, keep, from).value;
              && b.projects == a.projects && b.objects == GcRowsOnly(a, project, keep, from).objects
              && LeavesNoTrace(a, b)
  {
    if keep > 0 {
      var mid := GcRowsOnly(a, project, keep, from);
      var b := GcProject(a, project, keep, from).value;
      GcContentsDoes(mid, HashesOfDeleted(a.objects, mid.objects));
      forall h ensures h in b.contents <==> h in a.contents && (SomeRowHas(a.objects - b.objects, h) ==> SomeRowHas(b.objects, h)) {
        assert b == GcContents(mid, HashesOfDeleted(a.objects, mid.objects));
      }
    }
  }
}
