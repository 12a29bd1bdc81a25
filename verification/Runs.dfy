/**
  Statements about whole runs of requests: what readers of old versions see, and what a
  reset to a snapshot restores.
*/
module Runs {
  import opened Paths
  import opened TarFormat
  import opened Table
  import opened Difference
  import opened Statements
  import opened LooseLaws
  import opened ResetLaws
  import opened Store

  /** Requests that only ever add versions. */
  predicate Growing(q: Request) {
    q.NewProjectRequest? || q.UpdateRequest? || q.CloneRequest?
  }

  ghost predicate GrowingRun(states: seq<Db>, regex: Regex, requests: seq<Request>) {
    && Run(states, regex, requests)
    && Valid(states[0], regex)
    && forall q :: q in requests ==> Growing(q)
  }

  /** A project of the first state, in a later state: same patterns, later version, only later writes. */
  ghost predicate Grown(a: Db, b: Db, project: int)
    requires project in a.projects
  {
    && project in b.projects
    && b.projects[project].patterns == a.projects[project].patterns
    && b.projects[project].latest >= a.projects[project].latest
    && GrownFrom(a.objects, b.objects, project, a.projects[project].latest)
  }

  lemma GrownReflexive(a: Db, project: int)
    requires project in a.projects
    ensures Grown(a, a, project)
  {
  }

  lemma EvolvedGrown(a: Db, b: Db, changed: int, project: int)
    requires changed in a.projects && project in a.projects
    requires b.projects == SetLatest(a.projects, changed, a.projects[changed].latest + 1)
    requires Evolves(a.objects, b.objects, changed, a.projects[changed].latest + 1)
    ensures Grown(a, b, project)
  {
  }

  lemma UpdateGrows(a: Db, b: Db, regex: Regex, changed: int, batch: seq<Object>, r: Result<int>, project: int)
    requires Valid(a, regex) && changed in a.projects && project in a.projects && SafeUpdate(a, regex, changed, batch)
    requires UpdateStep(a, b, regex, changed, batch, r)
    ensures Grown(a, b, project)
  {
    UpdateKeepsValid(a, b, regex, changed, batch, r);
    if r == Ok(a.projects[changed].latest) {
      GrownReflexive(a, project);
    } else {
      EvolvedGrown(a, b, changed, project);
    }
  }

  lemma NewProjectGrows(a: Db, b: Db, id: int, patterns: Option<seq<string>>, template: Option<int>, project: int)
    requires project in a.projects && NewProject(a, id, patterns, template) == Ok(b)
    ensures Grown(a, b, project)
  {
  }

  lemma StepGrows(a: Db, b: Db, regex: Regex, q: Request, project: int)
    requires Valid(a, regex) && RunStep(a, b, regex, q) && Growing(q) && project in a.projects
    ensures Grown(a, b, project)
  {
    match q
    case NewProjectRequest(id, patterns, template) =>
      if NewProject(a, id, patterns, template).Ok? {
        NewProjectGrows(a, b, id, patterns, template, project);
      }
    case UpdateRequest(changed, batch) =>
      if changed in a.projects {
        var r :| UpdateStep(a, b, regex, changed, batch, r);
        UpdateGrows(a, b, regex, changed, batch, r, project);
      }
    case CloneRequest(source, target, version) =>
      if Cloneable(a, source, target) {
        CloneRowsGood(a, regex, source, target, version);
        CloneCommits(a, source, target, version);
        EvolvedGrown(a, b, target, project);
      } else {
        CloneKeepsValid(a, regex, source, target, version);
      }
  }

  lemma GrownTransitive(a: Db, b: Db, c: Db, project: int)
    requires project in a.projects && Grown(a, b, project) && Grown(b, c, project)
    ensures Grown(a, c, project)
  {
  }

  lemma {:induction false} RunGrows(states: seq<Db>, regex: Regex, requests: seq<Request>, i: nat, project: int)
    requires GrowingRun(states, regex, requests) && i < |states| && project in states[0].projects
    ensures Valid(states[i], regex) && Grown(states[0], states[i], project)
  {
    RunsStayValid(states, regex, requests, i);
    if i == 0 {
      GrownReflexive(states[0], project);
    } else {
      RunGrows(states, regex, requests, i - 1, project);
      assert RunStep(states[i - 1], states[i], regex, requests[i - 1]);
      StepGrows(states[i - 1], states[i], regex, requests[i - 1], project);
      GrownTransitive(states[0], states[i - 1], states[i], project);
    }
  }

  /**
    A reader that fixed its versions gets the same files and the same difference however
    many updates, clones and new projects commit between its statements.
  */
  lemma ReadersAreStable(states: seq<Db>, regex: Regex, requests: seq<Request>, i: nat, project: int, f: int, t: int)
    requires GrowingRun(states, regex, requests) && i < |states| && project in states[0].projects
    requires 0 <= f && t <= states[0].projects[project].latest
    ensures project in states[i].projects
    ensures var pk := MatcherOf(regex, states[0].projects, project);
            && MatcherOf(regex, states[i].projects, project) == pk
            && Diff(states[i].objects, project, f, t) == Diff(states[0].objects, project, f, t)
            && Files(states[i].objects, project, t, pk) == Files(states[0].objects, project, t, pk)
  {
    var a, b := states[0], states[i];
    RunGrows(states, regex, requests, i, project);
    var w, pk := a.projects[project].latest, MatcherOf(regex, a.projects, project);
    assert GoodProject(a, regex, project) && GoodProject(b, regex, project);
    assert MatcherOf(regex, b.projects, project) == pk;
    EarlierDiffsKept(a.objects, b.objects, project, w, f, t);
    forall path ensures ObjectAt(a.objects, project, t, path) == ObjectAt(b.objects, project, t, path) {
      EarlierObjectsKept(a.objects, b.objects, project, w, w, b.projects[project].latest, t, path);
    }
    SameObjectsSameFiles(a.objects, b.objects, project, project, w, b.projects[project].latest, t, t, pk);
  }

  /**
    After any run from the empty database, for every two versions of every project: applying the
    difference to the files of the first gives the files of the second, in whatever order it arrives.
  */
  lemma EveryDifferenceIsRight(states: seq<Db>, regex: Regex, requests: seq<Request>, i: nat, project: int, f: int, t: int, cs: seq<Change>)
    requires Run(states, regex, requests) && states[0] == EMPTY && i < |states| && project in states[i].projects
    requires 0 <= f <= t && TreeShaped(FilesOf(states[i], regex, project, t))
    requires Carries(cs, states[i].objects, project, f, t)
    ensures ApplyAll(FilesOf(states[i], regex, project, f), cs) == FilesOf(states[i], regex, project, t)
  {
    EmptyIsValid(regex);
    RunsStayValid(states, regex, requests, i);
    assert GoodProject(states[i], regex, project);
    var pk, latest := MatcherOf(regex, states[i].projects, project), states[i].projects[project].latest;
    TreesAreUnobstructed(states[i].objects, project, latest, f, t, pk);
    DiffReachesTarget(states[i].objects, project, latest, f, t, pk, cs);
  }

  // ----- Snapshot and reset -----

  /** Part of the way through a reset: the listed projects are restored, the others as they were. */
  ghost predicate PartlyReset(a: Db, b: Db, c: Db, done: set<int>) {
    && Indexed(c.objects)
    && (forall r: Row :: r.project in done ==> (r in c.objects <==> r in a.objects))
    && (forall r: Row :: r.project !in done ==> (r in c.objects <==> r in b.objects))
    && (forall id :: id in done ==> id in c.projects && id in a.projects && c.projects[id] == a.projects[id])
    && (forall id :: id !in done ==> (id in c.projects <==> id in b.projects))
    && (forall id :: id !in done && id in b.projects ==> c.projects[id] == b.projects[id])
  }

  lemma ResetOne(a: Db, b: Db, c: Db, regex: Regex, done: set<int>, project: int)
    requires Valid(a, regex) && Valid(b, regex) && PartlyReset(a, b, c, done) && project !in done
    requires project in a.projects && Grown(a, b, project)
    ensures Rollback(c, project, a.projects[project].latest).Ok?
    ensures PartlyReset(a, b, Rollback(c, project, a.projects[project].latest).value, done + {project})
  {
    var w, pk, latest := a.projects[project].latest, MatcherOf(regex, a.projects, project), b.projects[project].latest;
    assert GoodProject(a, regex, project) && GoodProject(b, regex, project);
    assert MatcherOf(regex, b.projects, project) == pk;
    SameRowsStayGood(b.objects, c.objects, project, latest, pk);
    assert GrownFrom(a.objects, c.objects, project, w);
    ReopeningIsSafe(c.objects, project, latest, w, pk);
    ResetKeepsIndexed(c.objects, project, w);
    ResetSparesOthers(c.objects, project, w);
    forall r: Row | r.project == project ensures r in Reopened(c.objects, project, w) <==> r in a.objects {
      ResetRestores(a.objects, c.objects, project, w, latest, pk, r);
    }
  }

  lemma SameRowsStayGood(a: set<Row>, b: set<Row>, project: int, latest: int, pk: Matcher)
    requires Good(a, project, latest, pk)
    requires forall r: Row :: r.project == project ==> (r in b <==> r in a)
    ensures Good(b, project, latest, pk)
  {
  }

  lemma {:induction false} ResetMany(a: Db, b: Db, regex: Regex, snapshot: seq<(int, int)>)
    requires Valid(a, regex) && Valid(b, regex)
    requires forall s :: s in snapshot ==> s.0 in a.projects && s.1 == a.projects[s.0].latest && Grown(a, b, s.0)
    requires forall i, j :: 0 <= i < j < |snapshot| ==> snapshot[i].0 != snapshot[j].0
    ensures RollbackAll(b, snapshot).Ok?
    ensures PartlyReset(a, b, RollbackAll(b, snapshot).value, Ids(snapshot))
  {
    if snapshot == [] {
      ValidIsIndexed(b, regex);
    } else {
      var n := |snapshot| - 1;
      ResetMany(a, b, regex, snapshot[..n]);
      assert snapshot[n] in snapshot;
      assert Ids(snapshot) == Ids(snapshot[..n]) + {snapshot[n].0};
      ResetOne(a, b, RollbackAll(b, snapshot[..n]).value, regex, Ids(snapshot[..n]), snapshot[n].0);
    }
  }

  /**
    Resetting to a snapshot after any run of new projects, updates and clones restores
    the projects and the object rows exactly.
  */
  lemma ResetUndoesTheRun(states: seq<Db>, regex: Regex, requests: seq<Request>, snapshot: seq<(int, int)>)
    requires GrowingRun(states, regex, requests) && IsSnapshot(snapshot, states[0])
    ensures var r := Reset(states[|states| - 1], snapshot);
            r.Ok? && r.value.projects == states[0].projects && r.value.objects == states[0].objects
  {
    var a, b := states[0], states[|states| - 1];
    RunsStayValid(states, regex, requests, |states| - 1);
    IdsOfSnapshot(a, snapshot);
    if snapshot == [] {
      assert a.projects.Keys == {};
      assert a.objects == {};
    } else {
      forall s | s in snapshot ensures Grown(a, b, s.0) {
        RunGrows(states, regex, requests, |states| - 1, s.0);
      }
      ResetMany(a, b, regex, snapshot);
      DropRestores(a, b, RollbackAll(b, snapshot).value, regex, Ids(snapshot));
    }
  }

  lemma IdsOfSnapshot(a: Db, snapshot: seq<(int, int)>)
    requires IsSnapshot(snapshot, a)
    ensures Ids(snapshot) == a.projects.Keys
  {
    forall id | id in a.projects ensures id in Ids(snapshot) {
      assert (id, a.projects[id].latest) in snapshot;
    }
  }

  lemma DropRestores(a: Db, b: Db, c: Db, regex: Regex, ids: set<int>)
    requires Valid(a, regex) && PartlyReset(a, b, c, ids) && ids == a.projects.Keys
    ensures KeepOnly(c, ids).projects == a.projects && KeepOnly(c, ids).objects == a.objects
  {
    var k := KeepOnly(c, ids);
    assert forall id :: id in ids ==> id in c.projects && id in k.projects;
    assert forall id :: id in k.projects ==> id in ids;
    assert k.projects.Keys == ids;
    assert forall id :: id in a.projects ==> k.projects[id] == a.projects[id];
    assert forall r: Row :: r in k.objects <==> r in a.objects;
  }
}
