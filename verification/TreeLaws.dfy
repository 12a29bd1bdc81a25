/**
  Which updates keep a directory tree-shaped, and the runs in which every version of every
  project is: what the theorems about differences assume of the version they lead to.
*/
module TreeLaws {
  import opened Paths
  import opened TarFormat
  import opened PackMerge
  import opened PackLaws
  import opened Table
  import opened Difference
  import opened Statements
  import opened UpdateLaws
  import opened ResetLaws
  import opened Store

  // ----- One update -----

  predicate SetBy(batch: seq<Object>, k: Path) {
    FindUpdate(batch, k).Some? && !FindUpdate(batch, k).value.deleted
  }

  /** A loose marker beneath which the batch sets a loose path. */
  predicate MarkerFilled(pk: Matcher, batch: seq<Object>, k: Path) {
    && PackParent(pk, k) == None
    && exists o :: o in batch && !o.deleted && PackParent(pk, o.path) == None && IsDirAbove(k, o.path)
  }

  /** What the batch neither names nor replaces. */
  predicate Stays(before: Directory, pk: Matcher, batch: seq<Object>, k: Path) {
    k in before && FindUpdate(batch, k) == None && !MarkerFilled(pk, batch, k)
  }

  /** No two paths that the batch sets lie one above the other, and none lies above or beneath what stays. */
  ghost predicate Fits(before: Directory, pk: Matcher, batch: seq<Object>) {
    && (forall p, q :: SetBy(batch, p) && SetBy(batch, q) ==> !Covers(p, q))
    && (forall p, k :: SetBy(batch, p) && Stays(before, pk, batch, k) ==> !Covers(p, k) && !Covers(k, p))
  }

  /** In a tree, a marker beneath which something is set is always replaced: nothing can have been there before. */
  lemma FilledIsGone(before: Directory, pk: Matcher, batch: seq<Object>, k: Path)
    requires TreeShaped(before) && k in before && FindUpdate(batch, k) == None && PackParent(pk, k) == None
    ensures MarkerFilled(pk, batch, k) <==> MarkerGone(before, pk, batch, k)
  {
    forall o | o in batch && !o.deleted && PackParent(pk, o.path) == None && IsDirAbove(k, o.path)
      ensures Get(before, o.path) != Some(FileOf(o))
    {
      FindUpdateIsAMember(batch, k);
      assert Covers(k, o.path);
    }
  }

  lemma AfterEdit(after: Directory, before: Directory, pk: Matcher, batch: seq<Object>, k: Path)
    requires IsEdit(after, before, pk, batch) && TreeShaped(before)
    ensures k in after <==> SetBy(batch, k) || Stays(before, pk, batch, k)
  {
    assert Get(after, k) == Edited(before, pk, batch, k);
    if k in before && FindUpdate(batch, k) == None && PackParent(pk, k) == None {
      FilledIsGone(before, pk, batch, k);
    }
  }

  /** An edit of a tree is a tree if and only if the batch fits. */
  lemma EditKeepsTreesIff(after: Directory, before: Directory, pk: Matcher, batch: seq<Object>)
    requires IsEdit(after, before, pk, batch) && TreeShaped(before)
    ensures TreeShaped(after) <==> Fits(before, pk, batch)
  {
    forall k ensures k in after <==> SetBy(batch, k) || Stays(before, pk, batch, k) {
      AfterEdit(after, before, pk, batch, k);
    }
  }

  // ----- Every version of every project -----

  ghost predicate Trees(db: Db, regex: Regex) {
    forall project, v :: project in db.projects ==> TreeAt(db, regex, project, v)
  }

  ghost predicate TreeAt(db: Db, regex: Regex, project: int, v: int) {
    TreeShaped(FilesOf(db, regex, project, v))
  }

  /** Whatever is live in one table at `v` was live in the other at `u`, and stores the same. */
  ghost predicate ShownBy(b: set<Row>, q: int, v: int, a: set<Row>, p: int, u: int) {
    forall r :: r in b && LiveAt(r, q, v) ==> HasLike(a, p, u, r)
  }

  ghost predicate HasLike(a: set<Row>, p: int, u: int, r: Row) {
    exists s :: s in a && LiveAt(s, p, u) && s.path == r.path && StoredOf(s) == StoredOf(r)
  }

  /** Part of a tree is a tree. */
  lemma PartOfATree(b: set<Row>, q: int, lb: int, v: int, a: set<Row>, p: int, la: int, u: int, pk: Matcher)
    requires Good(b, q, lb, pk) && Good(a, p, la, pk) && ShownBy(b, q, v, a, p, u)
    requires TreeShaped(Files(a, p, u, pk))
    ensures TreeShaped(Files(b, q, v, pk))
  {
    forall k | k in Files(b, q, v, pk) ensures k in Files(a, p, u, pk) {
      var r := RowOfFile(b, q, lb, v, pk, k);
      var s :| s in a && LiveAt(s, p, u) && s.path == r.path && StoredOf(s) == StoredOf(r);
      assert k in Contents(s) by { ContentsRouted(r, pk, k); ContentsRouted(s, pk, k); }
      FileFromRow(a, p, la, u, pk, s, k);
    }
  }

  lemma SameRows(a: set<Row>, b: set<Row>, q: int, v: int)
    requires forall r: Row :: r in b && r.project == q ==> r in a
    ensures ShownBy(b, q, v, a, q, v)
  {
  }

  /** A project of which no row was added stays a family of trees. */
  lemma StillTrees(a: Db, b: Db, regex: Regex, q: int, v: int)
    requires Valid(a, regex) && Valid(b, regex) && q in a.projects && q in b.projects && TreeAt(a, regex, q, v)
    requires a.projects[q].patterns == b.projects[q].patterns
    requires forall r: Row :: r in b.objects && r.project == q ==> r in a.objects
    ensures TreeAt(b, regex, q, v)
  {
    assert GoodProject(a, regex, q) && GoodProject(b, regex, q);
    assert MatcherOf(regex, a.projects, q) == MatcherOf(regex, b.projects, q);
    SameRows(a.objects, b.objects, q, v);
    PartOfATree(b.objects, q, b.projects[q].latest, v, a.objects, q, a.projects[q].latest, v, MatcherOf(regex, a.projects, q));
  }

  /** The versions from the latest one on are trees if it is. */
  lemma LaterTrees(b: Db, regex: Regex, q: int, v: int)
    requires Valid(b, regex) && q in b.projects && v >= b.projects[q].latest
    requires TreeAt(b, regex, q, b.projects[q].latest)
    ensures TreeAt(b, regex, q, v)
  {
    var latest := b.projects[q].latest;
    assert GoodProject(b, regex, q);
    assert forall r :: r in b.objects && LiveAt(r, q, v) ==> LiveAt(r, q, latest);
    PartOfATree(b.objects, q, latest, v, b.objects, q, latest, latest, MatcherOf(regex, b.projects, q));
  }

  lemma EarlierTrees(a: Db, b: Db, regex: Regex, project: int, v: int)
    requires Valid(a, regex) && Valid(b, regex) && project in a.projects && v <= a.projects[project].latest
    requires b.projects == SetLatest(a.projects, project, a.projects[project].latest + 1)
    requires Evolves(a.objects, b.objects, project, a.projects[project].latest + 1)
    requires TreeAt(a, regex, project, v)
    ensures TreeAt(b, regex, project, v)
  {
    assert MatcherOf(regex, b.projects, project) == MatcherOf(regex, a.projects, project);
    VersionStands(a, b, regex, project, v);
    SameTree(FilesOf(a, regex, project, v), FilesOf(b, regex, project, v));
  }

  lemma SameTree(a: Directory, b: Directory)
    requires a == b
    ensures TreeShaped(a) <==> TreeShaped(b)
  {
  }

  /** A commit of a new version keeps trees if the new version is one. */
  lemma CommitKeepsTrees(a: Db, b: Db, regex: Regex, project: int)
    requires Valid(a, regex) && Valid(b, regex) && Trees(a, regex) && project in a.projects
    requires b.projects == SetLatest(a.projects, project, a.projects[project].latest + 1)
    requires Evolves(a.objects, b.objects, project, a.projects[project].latest + 1)
    requires TreeAt(b, regex, project, a.projects[project].latest + 1)
    ensures Trees(b, regex)
  {
    forall q, v | q in b.projects ensures TreeAt(b, regex, q, v) {
      if q != project {
        EvolvingSparesOthers(a.objects, b.objects, project, a.projects[project].latest + 1);
        StillTrees(a, b, regex, q, v);
      } else if v <= a.projects[project].latest {
        EarlierTrees(a, b, regex, project, v);
      } else {
        LaterTrees(b, regex, project, v);
      }
    }
  }

  // ----- Requests -----

  /** Updates are proper and fit the latest version of their project. */
  ghost predicate Fitting(db: Db, regex: Regex, q: Request) {
    match q
    case UpdateRequest(project, batch) =>
      var pk := MatcherOf(regex, db.projects, project);
      project in db.projects ==>
        ProperBatch(pk, batch) && Fits(FilesOf(db, regex, project, db.projects[project].latest), pk, batch)
    case _ => true
  }

  lemma EditedTree(a: Db, b: Db, regex: Regex, project: int, batch: seq<Object>)
    requires project in a.projects && TreeAt(a, regex, project, a.projects[project].latest)
    requires var pk, latest := MatcherOf(regex, a.projects, project), a.projects[project].latest;
             && IsEdit(FilesOf(b, regex, project, latest + 1), FilesOf(a, regex, project, latest), pk, batch)
             && Fits(FilesOf(a, regex, project, latest), pk, batch)
    ensures TreeAt(b, regex, project, a.projects[project].latest + 1)
  {
    FittingEditsAreTrees(MatcherOf(regex, a.projects, project), batch);
  }

  lemma FittingEditsAreTrees(pk: Matcher, batch: seq<Object>)
    ensures forall after, before :: IsEdit(after, before, pk, batch) && TreeShaped(before) && Fits(before, pk, batch) ==> TreeShaped(after)
  {
    forall after, before | IsEdit(after, before, pk, batch) && TreeShaped(before) && Fits(before, pk, batch) ensures TreeShaped(after) {
      EditKeepsTreesIff(after, before, pk, batch);
    }
  }

  lemma UpdateKeepsTrees(a: Db, b: Db, regex: Regex, project: int, batch: seq<Object>, r: Result<int>)
    requires Valid(a, regex) && Trees(a, regex) && project in a.projects && UpdateStep(a, b, regex, project, batch, r)
    requires Fitting(a, regex, UpdateRequest(project, batch))
    ensures Trees(b, regex)
  {
    var pk, latest := MatcherOf(regex, a.projects, project), a.projects[project].latest;
    ProperIsSafe(pk, batch);
    UpdateKeepsValid(a, b, regex, project, batch, r);
    UpdateEditsLatest(a, b, regex, project, batch, r);
    if r == Ok(latest) {
      forall q, v | q in b.projects ensures TreeAt(b, regex, q, v) {
        StillTrees(a, b, regex, q, v);
      }
    } else {
      EditedTree(a, b, regex, project, batch);
      CommitKeepsTrees(a, b, regex, project);
    }
  }

  lemma ClonedTree(a: Db, b: Db, regex: Regex, source: int, target: int, version: int)
    requires Valid(a, regex) && Valid(b, regex) && Cloneable(a, source, target) && ClonedInto(a, b, source, target, version)
    requires TreeAt(a, regex, source, version)
    ensures TreeAt(b, regex, target, a.projects[target].latest + 1)
  {
    ClonedFiles(a, b, regex, source, target, version);
    SameTree(FilesOf(a, regex, source, version), FilesOf(b, regex, target, a.projects[target].latest + 1));
  }

  lemma CloneKeepsTrees(a: Db, b: Db, regex: Regex, source: int, target: int, version: int)
    requires Valid(a, regex) && Trees(a, regex) && Cloneable(a, source, target)
    requires Clone(a, source, target, version).Ok? && b == Clone(a, source, target, version).value.0
    ensures Trees(b, regex)
  {
    var c := FirstClone(a, regex, source, target, version);
    if source !in a.projects {
      NoRowsNoFiles(a, regex, source, version);
    }
    assert TreeAt(a, regex, source, version);
    ClonedTree(a, b, regex, source, target, version);
    CommitKeepsTrees(a, b, regex, target);
  }

  lemma NoRowsNoFiles(a: Db, regex: Regex, q: int, v: int)
    requires forall r :: r in a.objects ==> r.project != q
    ensures TreeAt(a, regex, q, v)
  {
    assert PathsAt(a.objects, q, v) == {};
  }

  lemma NewProjectKeepsTrees(a: Db, b: Db, regex: Regex, id: int, patterns: Option<seq<string>>, template: Option<int>)
    requires Valid(a, regex) && Trees(a, regex) && NewProject(a, id, patterns, template) == Ok(b)
    ensures Trees(b, regex)
  {
    NewProjectKeepsValid(a, regex, id, patterns, template);
    forall q, v | q in b.projects ensures TreeAt(b, regex, q, v) {
      if q != id {
        StillTrees(a, b, regex, q, v);
      } else if template == None || template == Some(id) {
        NoRowsNoFiles(b, regex, id, v);
      } else {
        TemplateTrees(a, b, regex, id, patterns, template.value, v);
      }
    }
  }

  /** Every version of a project made from a template shows part of the template's latest version. */
  lemma TemplateTrees(a: Db, b: Db, regex: Regex, id: int, patterns: Option<seq<string>>, source: int, v: int)
    requires Valid(a, regex) && Valid(b, regex) && source != id
    requires NewProject(a, id, patterns, Some(source)) == Ok(b) && TreeAt(a, regex, source, a.projects[source].latest)
    ensures TreeAt(b, regex, id, v)
  {
    var latest, pk := a.projects[source].latest, MatcherOf(regex, a.projects, source);
    assert GoodProject(a, regex, source) && GoodProject(b, regex, id);
    assert MatcherOf(regex, b.projects, id) == pk;
    forall r | r in b.objects && LiveAt(r, id, v) ensures HasLike(a.objects, source, latest, r) {
      var s := r.(project := source);
      assert s in a.objects && LiveAt(s, source, latest) && StoredOf(s) == StoredOf(r);
    }
    PartOfATree(b.objects, id, b.projects[id].latest, v, a.objects, source, latest, latest, pk);
  }

  lemma RollbackKeepsTrees(a: Db, b: Db, regex: Regex, project: int, version: int)
    requires Valid(a, regex) && Trees(a, regex) && Rollback(a, project, version) == Ok(b) && version >= 0
    ensures Valid(b, regex) && Trees(b, regex)
  {
    if project !in a.projects {
      RollbackOfNothing(a, regex, project, version);
    } else {
      RollbackKeepsValidIff(a, regex, project, version);
      ResetSparesOthers(a.objects, project, version);
      forall q, v | q in b.projects ensures TreeAt(b, regex, q, v) {
        if q != project {
          StillTrees(a, b, regex, q, v);
        } else if v <= version {
          RolledBackTrees(a, b, regex, project, version, v);
        } else {
          RolledBackTrees(a, b, regex, project, version, version);
          LaterTrees(b, regex, project, v);
        }
      }
    }
  }

  lemma RolledBackTrees(a: Db, b: Db, regex: Regex, project: int, version: int, v: int)
    requires Valid(a, regex) && Valid(b, regex) && project in a.projects && v <= version && TreeAt(a, regex, project, v)
    requires b.projects == SetLatest(a.projects, project, version) && b.objects == Reopened(a.objects, project, version)
    ensures TreeAt(b, regex, project, v)
  {
    assert GoodProject(a, regex, project) && GoodProject(b, regex, project);
    assert MatcherOf(regex, b.projects, project) == MatcherOf(regex, a.projects, project);
    forall r | r in b.objects && LiveAt(r, project, v) ensures HasLike(a.objects, project, v, r) {
      var s :| s in DropAfter(a.objects, project, version) && r == Restop(s, StoppedAfter(project, version), None);
      assert s in a.objects && LiveAt(s, project, v) && StoredOf(s) == StoredOf(r);
    }
    PartOfATree(b.objects, project, version, v, a.objects, project, a.projects[project].latest, v, MatcherOf(regex, a.projects, project));
  }

  lemma {:induction false} RollbackAllKeepsTrees(a: Db, regex: Regex, snapshot: seq<(int, int)>)
    requires Valid(a, regex) && Trees(a, regex) && NotNegative(snapshot) && RollbackAll(a, snapshot).Ok?
    ensures Valid(RollbackAll(a, snapshot).value, regex) && Trees(RollbackAll(a, snapshot).value, regex)
  {
    if snapshot != [] {
      var n := |snapshot| - 1;
      assert snapshot[n] in snapshot;
      RollbackAllKeepsTrees(a, regex, snapshot[..n]);
      RollbackKeepsTrees(RollbackAll(a, snapshot[..n]).value, RollbackAll(a, snapshot).value, regex, snapshot[n].0, snapshot[n].1);
    }
  }

  /** Fewer projects or fewer rows. */
  lemma FewerRowsKeepTrees(a: Db, b: Db, regex: Regex)
    requires Valid(a, regex) && Valid(b, regex) && Trees(a, regex)
    requires b.objects <= a.objects && forall q :: q in b.projects ==> q in a.projects && b.projects[q] == a.projects[q]
    ensures Trees(b, regex)
  {
    forall q, v | q in b.projects ensures TreeAt(b, regex, q, v) {
      StillTrees(a, b, regex, q, v);
    }
  }

  lemma StepKeepsTrees(a: Db, b: Db, regex: Regex, q: Request)
    requires Valid(a, regex) && Trees(a, regex) && RunStep(a, b, regex, q) && Fitting(a, regex, q)
    ensures Trees(b, regex)
  {
    NextKeepsValid(a, b, regex, q);
    match q
    case NewProjectRequest(id, patterns, template) =>
      if NewProject(a, id, patterns, template).Ok? {
        NewProjectKeepsTrees(a, b, regex, id, patterns, template);
      }
    case UpdateRequest(project, batch) =>
      if project in a.projects {
        var r :| UpdateStep(a, b, regex, project, batch, r);
        UpdateKeepsTrees(a, b, regex, project, batch, r);
      }
    case CloneRequest(source, target, version) =>
      CloneKeepsValid(a, regex, source, target, version);
      if Cloneable(a, source, target) {
        CloneKeepsTrees(a, b, regex, source, target, version);
      }
    case RollbackRequest(project, version) =>
      if project !in a.projects {
        RollbackOfNothing(a, regex, project, version);
      } else if Rollback(a, project, version).Ok? {
        RollbackKeepsTrees(a, b, regex, project, version);
      }
    case ResetRequest(snapshot) =>
      ResetKeepsValid(a, regex, snapshot);
      if snapshot != [] {
        RollbackAllKeepsTrees(a, regex, snapshot);
        FewerRowsKeepTrees(RollbackAll(a, snapshot).value, b, regex);
      }
    case DeleteRequest(project) => FewerRowsKeepTrees(a, b, regex);
    case GcRowsRequest(project, keep, from) => FewerRowsKeepTrees(a, b, regex);
    case GcContentsRequest(hashes) => FewerRowsKeepTrees(a, b, regex);
  }

  ghost predicate FittingRun(states: seq<Db>, regex: Regex, requests: seq<Request>) {
    && Run(states, regex, requests) && states[0] == EMPTY
    && forall i :: 0 <= i < |requests| ==> Fitting(states[i], regex, requests[i])
  }

  /** If every update fits, every version of every project is a tree, in every state of the run. */
  lemma {:induction false} FittingRunsKeepTrees(states: seq<Db>, regex: Regex, requests: seq<Request>, i: nat)
    requires FittingRun(states, regex, requests) && i < |states|
    ensures Valid(states[i], regex) && Trees(states[i], regex)
  {
    EmptyIsValid(regex);
    RunsStayValid(states, regex, requests, i);
    if i > 0 {
      FittingRunsKeepTrees(states, regex, requests, i - 1);
      assert RunStep(states[i - 1], states[i], regex, requests[i - 1]);
      StepKeepsTrees(states[i - 1], states[i], regex, requests[i - 1]);
    }
  }

  /** So every difference between two versions leads from the one to the other, with nothing assumed about their files. */
  lemma EveryDifferenceOfAFittingRun(states: seq<Db>, regex: Regex, requests: seq<Request>, i: nat, project: int, f: int, t: int, cs: seq<Change>)
    requires FittingRun(states, regex, requests) && i < |states| && project in states[i].projects && 0 <= f <= t
    requires Carries(cs, states[i].objects, project, f, t)
    ensures ApplyAll(FilesOf(states[i], regex, project, f), cs) == FilesOf(states[i], regex, project, t)
  {
    FittingRunsKeepTrees(states, regex, requests, i);
    assert TreeAt(states[i], regex, project, t);
    DifferenceToATree(states[i], regex, project, f, t, cs);
  }

  lemma DifferenceToATree(db: Db, regex: Regex, project: int, f: int, t: int, cs: seq<Change>)
    requires Valid(db, regex) && project in db.projects && 0 <= f <= t && TreeAt(db, regex, project, t)
    requires Carries(cs, db.objects, project, f, t)
    ensures ApplyAll(FilesOf(db, regex, project, f), cs) == FilesOf(db, regex, project, t)
  {
    assert GoodProject(db, regex, project);
    var pk, latest := MatcherOf(regex, db.projects, project), db.projects[project].latest;
    TreesAreUnobstructed(db.objects, project, latest, f, t, pk);
    DiffReachesTarget(db.objects, project, latest, f, t, pk, cs);
  }
}
