/**
  The whole database and its transactions, as a state machine: what one request does to
  the projects, the object rows and the contents, and what every run of requests keeps.
*/
module Store {
  import opened Paths
  import opened TarFormat
  import opened Table
  import opened Statements
  import opened LooseLaws
  import opened UpdateLaws
  import opened CopyLaws
  import opened ResetLaws

  /** `patterns` is None where the column is NULL. */
  datatype Project = Project(latest: int, patterns: Option<seq<string>>)

  datatype Db = Db(projects: map<int, Project>, objects: set<Row>, contents: map<Hash, Blob>)

  datatype Error =
    | ProjectExists | ProjectNotFound | PatternsDiffer | MixedProjects | NullVersion | InvalidKeep | IndexViolated

  datatype Result<+T> = Ok(value: T) | Err(error: Error)

  /** Compiles a pack pattern. */
  type Regex = string -> Matcher

  /** COALESCE((SELECT pack_patterns ...), '{}') */
  function PatternsOf(projects: map<int, Project>, project: int): seq<string> {
    if project in projects && projects[project].patterns.Some? then projects[project].patterns.value else []
  }

  function Matchers(regex: Regex, patterns: seq<string>): seq<Matcher> {
    seq(|patterns|, i requires 0 <= i < |patterns| => regex(patterns[i]))
  }

  function MatcherOf(regex: Regex, projects: map<int, Project>, project: int): Matcher {
    AnyMatch(Matchers(regex, PatternsOf(projects, project)))
  }

  // ----- The invariant -----

  ghost predicate GoodProject(db: Db, regex: Regex, project: int)
    requires project in db.projects
  {
    && db.projects[project].latest >= 0
    && Good(db.objects, project, db.projects[project].latest, MatcherOf(regex, db.projects, project))
  }

  ghost predicate Valid(db: Db, regex: Regex) {
    && (forall project :: project in db.projects ==> GoodProject(db, regex, project))
    && (forall r :: r in db.objects ==> r.project in db.projects)
    && ContentsComplete(db.objects, db.contents)
  }

  /** The contents table is keyed by hash, and holds the content of every row. */
  ghost predicate ContentsComplete(rows: set<Row>, contents: map<Hash, Blob>) {
    && (forall h :: h in contents ==> h == HashContent(contents[h]))
    && (forall r :: r in rows ==> r.hash in contents)
  }

  /** A valid database violates no unique index. */
  lemma ValidIsIndexed(db: Db, regex: Regex)
    requires Valid(db, regex)
    ensures Indexed(db.objects)
  {
    forall r, s | r in db.objects && s in db.objects && r != s ensures !Clash(r, s) {
      assert GoodProject(db, regex, r.project);
    }
  }

  /** At most one live row per path, in every project: what the schema does not enforce. */
  lemma OneLiveRowPerPath(db: Db, regex: Regex, r: Row, s: Row)
    requires Valid(db, regex)
    requires r in db.objects && s in db.objects
    requires r.stop == None && s.stop == None && r.project == s.project && r.path == s.path
    ensures r == s
  {
  }

  // ----- The transactions -----

  function SetLatest(projects: map<int, Project>, project: int, version: int): map<int, Project> {
    if project in projects then projects[project := projects[project].(latest := version)] else projects
  }

  /** INSERT without ON CONFLICT. */
  predicate InsertViolates(rows: set<Row>, news: set<Row>) {
    exists r, s :: r in news && s in rows + news && r != s && Clash(r, s)
  }

  function TemplateRows(rows: set<Row>, source: int, target: int): set<Row> {
    set r | r in rows && Live(r, source) :: r.(project := target)
  }

  function NewProject(db: Db, id: int, patterns: Option<seq<string>>, template: Option<int>): Result<Db> {
    if id in db.projects then Err(ProjectExists)
    else
      var created := db.projects[id := Project(0, patterns)];
      match template
      case None => Ok(db.(projects := created))
      case Some(source) =>
        if PatternsOf(created, source) != PatternsOf(created, id) then Err(PatternsDiffer)
        else if InsertViolates(db.objects, TemplateRows(db.objects, source, id)) then Err(IndexViolated)
        else if source !in created then Err(NullVersion)
        else Ok(db.(projects := SetLatest(created, id, created[source].latest), objects := CopyRows(db.objects, source, id)))
  }

  /** The new database and the version the response carries. */
  function Clone(db: Db, source: int, target: int, version: int): Result<(Db, int)> {
    if PatternsOf(db.projects, source) != PatternsOf(db.projects, target) then Err(PatternsDiffer)
    else if target !in db.projects then Err(ProjectNotFound)
    else
      var v := db.projects[target].latest + 1;
      match CloneRows(db.objects, source, target, version, v)
      case UniqueViolation => Err(IndexViolated)
      case Done(rows) => Ok((db.(projects := SetLatest(db.projects, target, v), objects := rows), v))
  }

  function Rollback(db: Db, project: int, version: int): Result<Db> {
    match ResetRows(db.objects, project, version)
    case UniqueViolation => Err(IndexViolated)
    case Done(rows) => Ok(db.(projects := SetLatest(db.projects, project, version), objects := rows))
  }

  function RollbackAll(db: Db, snapshot: seq<(int, int)>): Result<Db> {
    if snapshot == [] then Ok(db)
    else
      var n := |snapshot| - 1;
      match RollbackAll(db, snapshot[..n])
      case Err(e) => Err(e)
      case Ok(db') => Rollback(db', snapshot[n].0, snapshot[n].1)
  }

  function Ids(snapshot: seq<(int, int)>): set<int> {
    set s | s in snapshot :: s.0
  }

  /** The response of Snapshot: every project once, with its latest version. */
  predicate IsSnapshot(snapshot: seq<(int, int)>, db: Db) {
    && (forall s :: s in snapshot ==> s.0 in db.projects && s.1 == db.projects[s.0].latest)
    && (forall id :: id in db.projects ==> (id, db.projects[id].latest) in snapshot)
    && (forall i, j :: 0 <= i < j < |snapshot| ==> snapshot[i].0 != snapshot[j].0)
  }

  /** DropOtherProjects */
  function KeepOnly(db: Db, ids: set<int>): Db {
    Db(map id | id in db.projects && id in ids :: db.projects[id],
       (set r | r in db.objects && r.project in ids),
       db.contents)
  }

  /** An empty snapshot truncates everything; another rolls its projects back and drops the rest. */
  function Reset(db: Db, snapshot: seq<(int, int)>): Result<Db> {
    if snapshot == [] then Ok(Db(map[], {}, map[]))
    else
      match RollbackAll(db, snapshot)
      case Err(e) => Err(e)
      case Ok(db') => Ok(KeepOnly(db', Ids(snapshot)))
  }

  function DeleteProject(db: Db, project: int): Db {
    db.(projects := db.projects - {project}, objects := (set r | r in db.objects && r.project != project))
  }

  /** Contents among `hashes` that no row refers to. */
  function Missing(rows: set<Row>, contents: map<Hash, Blob>, hashes: set<Hash>): set<Hash> {
    set h | h in contents && h in hashes && !exists r :: r in rows && r.hash == h
  }

  function CollectRows(db: Db, project: int, keep: int, from: int): set<Row> {
    if project in db.projects then GcRows(db.objects, project, db.projects[project].latest, keep, from) else db.objects
  }

  /** The first statement of GcProject, which commits on its own. */
  function GcRowsOnly(db: Db, project: int, keep: int, from: int): Db {
    if keep <= 0 then db else db.(objects := CollectRows(db, project, keep, from))
  }

  function GcContents(db: Db, hashes: set<Hash>): Db {
    db.(contents := db.contents - Missing(db.objects, db.contents, hashes))
  }

  /** The hashes of the rows that were deleted. */
  function HashesOfDeleted(before: set<Row>, after: set<Row>): set<Hash> {
    set r | r in before && r !in after :: r.hash
  }

  /** GcProject: collect the rows, then the contents they leave behind. */
  function GcProject(db: Db, project: int, keep: int, from: int): Result<Db> {
    if keep <= 0 then Err(InvalidKeep)
    else
      var rows := CollectRows(db, project, keep, from);
      Ok(GcContents(db.(objects := rows), HashesOfDeleted(db.objects, rows)))
  }

  // ----- Updates -----

  /** Contents are only ever added outside the transaction, under their own hash. */
  ghost predicate ContentsGrew(a: map<Hash, Blob>, b: map<Hash, Blob>) {
    && (forall h :: h in a ==> h in b && b[h] == a[h])
    && (forall h :: h in b && h !in a ==> h == HashContent(b[h]))
  }

  /** The transaction of an update whose batch was routed by `pk`, for one iteration of the pack buffer. */
  ghost predicate Updates(a: Db, b: Db, pk: Matcher, project: int, batch: seq<Object>, order: seq<Path>, r: Result<int>)
    requires project in a.projects && Iterates(order, GroupsOf(pk, batch))
  {
    var latest := a.projects[project].latest;
    match UpdateRows(a.objects, project, latest + 1, pk, batch, order)
    case UniqueViolation => r == Err(IndexViolated) && b.projects == a.projects && b.objects == a.objects
    case Done(w) =>
      if w.changed then
        r == Ok(latest + 1) && b.projects == SetLatest(a.projects, project, latest + 1) && b.objects == w.rows
      else
        r == Ok(latest) && b.projects == a.projects && b.objects == a.objects
  }

  ghost predicate UpdateStepBy(a: Db, b: Db, pk: Matcher, project: int, batch: seq<Object>, r: Result<int>)
    requires project in a.projects
  {
    && ContentsGrew(a.contents, b.contents)
    && (forall row :: row in b.objects && row !in a.objects ==> row.hash in b.contents)
    && exists order :: Iterates(order, GroupsOf(pk, batch)) && Updates(a, b, pk, project, batch, order, r)
  }

  /** An update that was received completely, and routed by the patterns of its own project. */
  ghost predicate UpdateStep(a: Db, b: Db, regex: Regex, project: int, batch: seq<Object>, r: Result<int>)
    requires project in a.projects
  {
    UpdateStepBy(a, b, MatcherOf(regex, a.projects, project), project, batch, r)
  }

  predicate SafeUpdate(db: Db, regex: Regex, project: int, batch: seq<Object>) {
    SafeBatch(LooseOps(MatcherOf(regex, db.projects, project), batch))
  }

  // ----- Requests -----

  datatype Request =
    | NewProjectRequest(id: int, patterns: Option<seq<string>>, template: Option<int>)
    | UpdateRequest(project: int, batch: seq<Object>)
    | CloneRequest(source: int, target: int, version: int)
    | RollbackRequest(project: int, version: int)
    | ResetRequest(snapshot: seq<(int, int)>)
    | DeleteRequest(project: int)
    | GcRowsRequest(project: int, keep: int, from: int)
    | GcContentsRequest(hashes: set<Hash>)

  /** One committed or failed request. A failed one changes nothing but may have added contents. */
  ghost predicate Next(a: Db, b: Db, regex: Regex, q: Request) {
    match q
    case NewProjectRequest(id, patterns, template) => Took(a, b, NewProject(a, id, patterns, template))
    case UpdateRequest(project, batch) =>
      if project in a.projects then exists r :: UpdateStep(a, b, regex, project, batch, r) else a == b
    case CloneRequest(source, target, version) =>
      (match Clone(a, source, target, version) case Err(_) => a == b case Ok(res) => b == res.0)
    case RollbackRequest(project, version) => Took(a, b, Rollback(a, project, version))
    case ResetRequest(snapshot) => Took(a, b, Reset(a, snapshot))
    case DeleteRequest(project) => b == DeleteProject(a, project)
    case GcRowsRequest(project, keep, from) => b == GcRowsOnly(a, project, keep, from)
    case GcContentsRequest(hashes) => b == GcContents(a, hashes)
  }

  ghost predicate Took(a: Db, b: Db, r: Result<Db>) {
    match r
    case Err(_) => a == b
    case Ok(db) => b == db
  }

  /** What a caller has to respect for the store to stay good. */
  ghost predicate Permitted(db: Db, regex: Regex, q: Request) {
    match q
    case UpdateRequest(project, batch) => SafeUpdate(db, regex, project, batch)
    case RollbackRequest(project, version) => project in db.projects ==> version >= 0
    case ResetRequest(snapshot) => NotNegative(snapshot)
    case _ => true
  }

  // ----- Every transaction keeps the store valid -----

  /** Changing the rows of one project only. */
  lemma OnlyOneProject(a: Db, b: Db, regex: Regex, project: int)
    requires Valid(a, regex)
    requires forall q :: q != project ==> (q in a.projects <==> q in b.projects) && (q in a.projects ==> a.projects[q] == b.projects[q])
    requires forall r: Row :: r.project != project ==> (r in a.objects <==> r in b.objects)
    requires project in b.projects ==> GoodProject(b, regex, project)
    requires forall r :: r in b.objects && r.project == project ==> project in b.projects
    requires ContentsComplete(b.objects, b.contents)
    ensures Valid(b, regex)
  {
    forall q | q in b.projects && q != project ensures GoodProject(b, regex, q) {
      OtherProjectStaysGood(a, b, regex, q);
    }
  }

  lemma OtherProjectStaysGood(a: Db, b: Db, regex: Regex, q: int)
    requires q in a.projects && q in b.projects && a.projects[q] == b.projects[q] && GoodProject(a, regex, q)
    requires forall r: Row :: r.project == q ==> (r in a.objects <==> r in b.objects)
    ensures GoodProject(b, regex, q)
  {
  }

  lemma EvolvingSparesOthers(a: set<Row>, b: set<Row>, project: int, v: int)
    requires Evolves(a, b, project, v)
    ensures forall r: Row :: r.project != project ==> (r in a <==> r in b)
  {
  }

  /** Committing rows for the next version of a project, and that version. */
  lemma CommitKeepsValid(a: Db, regex: Regex, project: int, rows: set<Row>, contents: map<Hash, Blob>)
    requires Valid(a, regex) && project in a.projects
    requires var v, pk := a.projects[project].latest + 1, MatcherOf(regex, a.projects, project);
             Good(rows, project, v, pk) && Evolves(a.objects, rows, project, v)
    requires ContentsComplete(rows, contents)
    ensures Valid(Db(SetLatest(a.projects, project, a.projects[project].latest + 1), rows, contents), regex)
  {
    var v := a.projects[project].latest + 1;
    var b := Db(SetLatest(a.projects, project, v), rows, contents);
    EvolvingSparesOthers(a.objects, rows, project, v);
    assert GoodProject(a, regex, project);
    assert MatcherOf(regex, b.projects, project) == MatcherOf(regex, a.projects, project);
    OnlyOneProject(a, b, regex, project);
  }

  lemma MoreContentsKeepValid(a: Db, regex: Regex, contents: map<Hash, Blob>)
    requires Valid(a, regex) && ContentsGrew(a.contents, contents)
    ensures Valid(a.(contents := contents), regex)
  {
  }

  /** The rows an update leaves, and the version it answers. */
  ghost predicate Outcome(a: Db, b: Db, project: int, w: Written, r: Result<int>)
    requires project in a.projects
  {
    var v := a.projects[project].latest + 1;
    && b.objects == w.rows
    && if w.changed then r == Ok(v) && b.projects == SetLatest(a.projects, project, v)
       else r == Ok(v - 1) && b.projects == a.projects && b.objects == a.objects
  }

  lemma DoneMeansOutcome(a: Db, b: Db, pk: Matcher, project: int, batch: seq<Object>, order: seq<Path>, r: Result<int>, w: Written)
    requires project in a.projects && Iterates(order, GroupsOf(pk, batch))
    requires Updates(a, b, pk, project, batch, order, r)
    requires UpdateRows(a.objects, project, a.projects[project].latest + 1, pk, batch, order) == Done(w)
    requires !w.changed ==> w.rows == a.objects
    ensures Outcome(a, b, project, w, r)
  {
  }

  lemma ProjectIsStartable(a: Db, regex: Regex, project: int)
    requires Valid(a, regex) && project in a.projects
    ensures Startable(a.objects, project, a.projects[project].latest + 1, MatcherOf(regex, a.projects, project))
  {
    assert GoodProject(a, regex, project);
    ValidIsIndexed(a, regex);
  }

  lemma UpdateOutcome(a: Db, b: Db, regex: Regex, project: int, batch: seq<Object>, r: Result<int>) returns (order: seq<Path>, w: Written)
    requires Valid(a, regex) && project in a.projects && SafeUpdate(a, regex, project, batch)
    requires UpdateStep(a, b, regex, project, batch, r)
    ensures var pk, v := MatcherOf(regex, a.projects, project), a.projects[project].latest + 1;
            && Iterates(order, GroupsOf(pk, batch))
            && UpdateRows(a.objects, project, v, pk, batch, order) == Done(w)
            && Outcome(a, b, project, w, r)
            && Good(w.rows, project, v, pk) && Evolves(a.objects, w.rows, project, v)
  {
    var pk, v := MatcherOf(regex, a.projects, project), a.projects[project].latest + 1;
    order :| Iterates(order, GroupsOf(pk, batch)) && Updates(a, b, pk, project, batch, order, r);
    ProjectIsStartable(a, regex, project);
    w := SafeRows(a.objects, project, v, pk, batch, order);
    DoneMeansOutcome(a, b, pk, project, batch, order, r, w);
  }

  lemma SafeRows(rows: set<Row>, project: int, v: int, pk: Matcher, batch: seq<Object>, order: seq<Path>) returns (w: Written)
    requires Startable(rows, project, v, pk)
    requires SafeBatch(LooseOps(pk, batch)) && Iterates(order, GroupsOf(pk, batch))
    ensures UpdateRows(rows, project, v, pk, batch, order) == Done(w)
    ensures Good(w.rows, project, v, pk) && Evolves(rows, w.rows, project, v)
    ensures !w.changed ==> w.rows == rows
  {
    UpdateKeepsGood(rows, project, v, pk, batch, order);
    w := UpdateRows(rows, project, v, pk, batch, order).value;
    if !w.changed {
      QuietUpdate(rows, project, v, pk, batch, order);
    }
  }

  lemma UpdateKeepsValid(a: Db, b: Db, regex: Regex, project: int, batch: seq<Object>, r: Result<int>)
    requires Valid(a, regex) && project in a.projects && SafeUpdate(a, regex, project, batch)
    requires UpdateStep(a, b, regex, project, batch, r)
    ensures Valid(b, regex) && r.Ok?
    ensures if r == Ok(a.projects[project].latest) then b.projects == a.projects && b.objects == a.objects
            else && r == Ok(a.projects[project].latest + 1)
                 && b.projects == SetLatest(a.projects, project, a.projects[project].latest + 1)
                 && Evolves(a.objects, b.objects, project, a.projects[project].latest + 1)
  {
    var order, w := UpdateOutcome(a, b, regex, project, batch, r);
    if r == Ok(a.projects[project].latest) {
      MoreContentsKeepValid(a, regex, b.contents);
      assert b == a.(contents := b.contents);
    } else {
      CommitKeepsValid(a, regex, project, b.objects, b.contents);
    }
  }

  lemma CloneStarts(db: Db, regex: Regex, source: int, target: int)
    requires Valid(db, regex) && target in db.projects
    requires PatternsOf(db.projects, source) == PatternsOf(db.projects, target)
    ensures var ls := if source in db.projects then db.projects[source].latest else 0;
            CloneStart(db.objects, source, target, ls, db.projects[target].latest + 1, MatcherOf(regex, db.projects, target))
  {
    ValidIsIndexed(db, regex);
    assert GoodProject(db, regex, target);
    if source in db.projects {
      assert GoodProject(db, regex, source);
    }
  }

  /** The clone keeps every row's content: its rows carry hashes that are already stored. */
  lemma CloneContents(rows: set<Row>, source: int, target: int, version: int, v: int, contents: map<Hash, Blob>)
    requires ContentsComplete(rows, contents) && CloneRows(rows, source, target, version, v).Done?
    ensures ContentsComplete(CloneRows(rows, source, target, version, v).value, contents)
  {
    var closed := CloneClosed(rows, source, target, version, v);
    var b := CloneRows(rows, source, target, version, v).value;
    var chosen := Unlisted(target, Listing(rows, target, v - 1) - Listing(rows, source, version));
    forall r | r in closed ensures r.hash in contents {
      var q :| q in rows && r == Restop(q, chosen, Some(v));
    }
    forall r | r in CloneNew(closed, source, target, version, v) ensures r.hash in contents {
      var l :| l in Listing(closed, source, version) && r == CloneRow(target, v, l);
      var q :| q in closed && l == Listed(q.path, StoredOf(q));
    }
  }

  ghost predicate Cloneable(a: Db, source: int, target: int) {
    target in a.projects && PatternsOf(a.projects, source) == PatternsOf(a.projects, target)
  }

  lemma CloneRowsGood(a: Db, regex: Regex, source: int, target: int, version: int)
    requires Valid(a, regex) && Cloneable(a, source, target)
    ensures var v, pk := a.projects[target].latest + 1, MatcherOf(regex, a.projects, target);
            && CloneRows(a.objects, source, target, version, v).Done?
            && var rows := CloneRows(a.objects, source, target, version, v).value;
            Good(rows, target, v, pk) && Evolves(a.objects, rows, target, v) && ContentsComplete(rows, a.contents)
  {
    var ls := if source in a.projects then a.projects[source].latest else 0;
    var v, pk := a.projects[target].latest + 1, MatcherOf(regex, a.projects, target);
    CloneStarts(a, regex, source, target);
    CloneEffect(a.objects, source, target, ls, version, v, pk);
    CloneContents(a.objects, source, target, version, v, a.contents);
  }

  /** What a successful clone commits. */
  lemma CloneCommits(a: Db, source: int, target: int, version: int)
    requires Cloneable(a, source, target)
    requires CloneRows(a.objects, source, target, version, a.projects[target].latest + 1).Done?
    ensures var v := a.projects[target].latest + 1;
            Clone(a, source, target, version) ==
            Ok((a.(projects := SetLatest(a.projects, target, v), objects := CloneRows(a.objects, source, target, version, v).value), v))
  {
  }

  lemma CloneKeepsValid(a: Db, regex: Regex, source: int, target: int, version: int)
    requires Valid(a, regex)
    ensures Clone(a, source, target, version).Ok? <==> Cloneable(a, source, target)
    ensures Clone(a, source, target, version) != Err(IndexViolated)
    ensures Clone(a, source, target, version).Ok? ==> CommittedClone(a, Clone(a, source, target, version).value.0, regex, target)
  {
    if Cloneable(a, source, target) {
      CloneRowsGood(a, regex, source, target, version);
      CloneCommits(a, source, target, version);
      CommitKeepsValid(a, regex, target, CloneRows(a.objects, source, target, version, a.projects[target].latest + 1).value, a.contents);
    }
  }

  ghost predicate CommittedClone(a: Db, b: Db, regex: Regex, target: int) {
    target in a.projects && Valid(b, regex) && Evolves(a.objects, b.objects, target, a.projects[target].latest + 1)
  }

  lemma NewProjectKeepsValid(a: Db, regex: Regex, id: int, patterns: Option<seq<string>>, template: Option<int>)
    requires Valid(a, regex)
    ensures NewProject(a, id, patterns, template).Ok? ==> Valid(NewProject(a, id, patterns, template).value, regex)
    ensures NewProject(a, id, patterns, template) != Err(IndexViolated)
  {
    if id !in a.projects {
      assert forall r :: r in a.objects ==> r.project != id;
      ValidIsIndexed(a, regex);
      if template.Some? {
        TemplateKeepsValid(a, regex, id, patterns, template.value);
      } else {
        OnlyOneProject(a, NewProject(a, id, patterns, template).value, regex, id);
      }
    }
  }

  lemma TemplateKeepsValid(a: Db, regex: Regex, id: int, patterns: Option<seq<string>>, source: int)
    requires Valid(a, regex) && id !in a.projects && Indexed(a.objects)
    requires forall r :: r in a.objects ==> r.project != id
    ensures NewProject(a, id, patterns, Some(source)).Ok? ==> Valid(NewProject(a, id, patterns, Some(source)).value, regex)
    ensures NewProject(a, id, patterns, Some(source)) != Err(IndexViolated)
  {
    var created := a.projects[id := Project(0, patterns)];
    TemplateDoesNotClash(a.objects, source, id);
    if source in created && PatternsOf(created, source) == PatternsOf(created, id) {
      var b := NewProject(a, id, patterns, Some(source)).value;
      assert MatcherOf(regex, b.projects, id) == MatcherOf(regex, created, source);
      if source != id {
        assert GoodProject(a, regex, source);
        assert MatcherOf(regex, a.projects, source) == MatcherOf(regex, created, source);
        CopyEffect(a.objects, source, id, created[source].latest, MatcherOf(regex, created, source));
      }
      OnlyOneProject(a, b, regex, id);
    }
  }

  lemma TemplateDoesNotClash(rows: set<Row>, source: int, id: int)
    requires Indexed(rows) && forall r :: r in rows ==> r.project != id
    ensures !InsertViolates(rows, TemplateRows(rows, source, id))
  {
  }

  /** A rollback keeps the store valid exactly when it does not go below version 0. */
  lemma RollbackKeepsValidIff(a: Db, regex: Regex, project: int, version: int)
    requires Valid(a, regex) && project in a.projects
    ensures Rollback(a, project, version).Ok?
    ensures Valid(Rollback(a, project, version).value, regex) <==> version >= 0
  {
    var pk := MatcherOf(regex, a.projects, project);
    assert GoodProject(a, regex, project);
    ValidIsIndexed(a, regex);
    ReopeningIsSafe(a.objects, project, a.projects[project].latest, version, pk);
    var b := Rollback(a, project, version).value;
    assert MatcherOf(regex, b.projects, project) == pk;
    if version >= 0 {
      ResetSparesOthers(a.objects, project, version);
      ReopenedContents(a.objects, project, version, a.contents);
      OnlyOneProject(a, b, regex, project);
    } else {
      assert !GoodProject(b, regex, project);
    }
  }

  lemma ReopenedContents(rows: set<Row>, project: int, w: int, contents: map<Hash, Blob>)
    requires ContentsComplete(rows, contents)
    ensures ContentsComplete(Reopened(rows, project, w), contents)
  {
  }

  /** Rolling back a project that does not exist does nothing. */
  lemma RollbackOfNothing(a: Db, regex: Regex, project: int, version: int)
    requires Valid(a, regex) && project !in a.projects
    ensures Rollback(a, project, version) == Ok(a)
  {
    var kept, chosen := DropAfter(a.objects, project, version), StoppedAfter(project, version);
    assert kept == a.objects;
    ValidIsIndexed(a, regex);
    assert forall r :: r in kept ==> Restop(r, chosen, None) == r;
    assert SetStop(kept, chosen, None) == a.objects;
  }

  predicate NotNegative(snapshot: seq<(int, int)>) {
    forall s :: s in snapshot ==> s.1 >= 0
  }

  lemma {:induction false} RollbackAllKeepsValid(a: Db, regex: Regex, snapshot: seq<(int, int)>)
    requires Valid(a, regex) && NotNegative(snapshot)
    ensures RollbackAll(a, snapshot).Ok? && Valid(RollbackAll(a, snapshot).value, regex)
  {
    if snapshot != [] {
      var n := |snapshot| - 1;
      assert snapshot[n] in snapshot;
      RollbackAllKeepsValid(a, regex, snapshot[..n]);
      var b := RollbackAll(a, snapshot[..n]).value;
      if snapshot[n].0 in b.projects {
        RollbackKeepsValidIff(b, regex, snapshot[n].0, snapshot[n].1);
      } else {
        RollbackOfNothing(b, regex, snapshot[n].0, snapshot[n].1);
      }
    }
  }

  lemma KeepOnlyKeepsValid(a: Db, regex: Regex, ids: set<int>)
    requires Valid(a, regex)
    ensures Valid(KeepOnly(a, ids), regex)
  {
    var b := KeepOnly(a, ids);
    forall q | q in b.projects ensures GoodProject(b, regex, q) {
      OtherProjectStaysGood(a, b, regex, q);
    }
  }

  /** A reset to versions that are not negative succeeds and keeps the store valid. */
  lemma ResetKeepsValid(a: Db, regex: Regex, snapshot: seq<(int, int)>)
    requires Valid(a, regex) && NotNegative(snapshot)
    ensures Reset(a, snapshot).Ok? && Valid(Reset(a, snapshot).value, regex)
  {
    if snapshot == [] {
      EmptyIsValid(regex);
    } else {
      RollbackAllKeepsValid(a, regex, snapshot);
      KeepOnlyKeepsValid(RollbackAll(a, snapshot).value, regex, Ids(snapshot));
    }
  }

  lemma GcRowsKeepValid(a: Db, regex: Regex, project: int, keep: int, from: int)
    requires Valid(a, regex)
    ensures Valid(GcRowsOnly(a, project, keep, from), regex)
  {
    ValidIsIndexed(a, regex);
    var b := GcRowsOnly(a, project, keep, from);
    forall q | q in b.projects ensures GoodProject(b, regex, q) {
      assert GoodProject(a, regex, q);
    }
  }

  lemma GcContentsKeepsValid(a: Db, regex: Regex, hashes: set<Hash>)
    requires Valid(a, regex)
    ensures Valid(GcContents(a, hashes), regex)
  {
    forall q | q in a.projects ensures GoodProject(GcContents(a, hashes), regex, q) {
      assert GoodProject(a, regex, q);
    }
  }

  /** GcProject is two requests, between which others may commit. */
  lemma GcProjectIsTwoRequests(a: Db, regex: Regex, project: int, keep: int, from: int)
    requires keep > 0
    ensures var mid := GcRowsOnly(a, project, keep, from);
            var hashes := HashesOfDeleted(a.objects, mid.objects);
            && Next(a, mid, regex, GcRowsRequest(project, keep, from))
            && GcProject(a, project, keep, from).Ok?
            && Next(mid, GcProject(a, project, keep, from).value, regex, GcContentsRequest(hashes))
  {
  }

  lemma GcKeepsValid(a: Db, regex: Regex, project: int, keep: int, from: int)
    requires Valid(a, regex)
    ensures GcProject(a, project, keep, from).Ok? ==> Valid(GcProject(a, project, keep, from).value, regex)
  {
    GcRowsKeepValid(a, regex, project, keep, from);
    var mid := GcRowsOnly(a, project, keep, from);
    GcContentsKeepsValid(mid, regex, HashesOfDeleted(a.objects, mid.objects));
  }

  lemma DeleteKeepsValid(a: Db, regex: Regex, project: int)
    requires Valid(a, regex)
    ensures Valid(DeleteProject(a, project), regex)
  {
    OnlyOneProject(a, DeleteProject(a, project), regex, project);
  }

  /** Every permitted request keeps the store valid. */
  lemma NextKeepsValid(a: Db, b: Db, regex: Regex, q: Request)
    requires Valid(a, regex) && Permitted(a, regex, q) && Next(a, b, regex, q)
    ensures Valid(b, regex)
  {
    match q
    case NewProjectRequest(id, patterns, template) => NewProjectKeepsValid(a, regex, id, patterns, template);
    case UpdateRequest(project, batch) =>
      if project in a.projects {
        var r :| UpdateStep(a, b, regex, project, batch, r);
        UpdateKeepsValid(a, b, regex, project, batch, r);
      }
    case CloneRequest(source, target, version) => CloneKeepsValid(a, regex, source, target, version);
    case RollbackRequest(project, version) =>
      if project in a.projects {
        RollbackKeepsValidIff(a, regex, project, version);
      } else {
        RollbackOfNothing(a, regex, project, version);
      }
    case ResetRequest(snapshot) => ResetKeepsValid(a, regex, snapshot);
    case DeleteRequest(project) => DeleteKeepsValid(a, regex, project);
    case GcRowsRequest(project, keep, from) => GcRowsKeepValid(a, regex, project, keep, from);
    case GcContentsRequest(hashes) => GcContentsKeepsValid(a, regex, hashes);
  }

  // ----- What a request does to the directories -----

  /** The directory of a version of a project. */
  ghost function FilesOf(db: Db, regex: Regex, project: int, v: int): Directory {
    Files(db.objects, project, v, MatcherOf(regex, db.projects, project))
  }

  /**
    Update, seen from outside: the version rises by exactly one or nothing changes, and
    the files of the version in the response are those of the latest one, edited.
  */
  lemma UpdateEditsLatest(a: Db, b: Db, regex: Regex, project: int, batch: seq<Object>, r: Result<int>)
    requires Valid(a, regex) && project in a.projects
    requires ProperBatch(MatcherOf(regex, a.projects, project), batch)
    requires UpdateStep(a, b, regex, project, batch, r)
    ensures Valid(b, regex) && r.Ok? && r.value in {a.projects[project].latest, a.projects[project].latest + 1}
    ensures project in b.projects && b.projects[project].latest == r.value
    ensures MatcherOf(regex, b.projects, project) == MatcherOf(regex, a.projects, project)
    ensures IsEdit(FilesOf(b, regex, project, r.value), FilesOf(a, regex, project, a.projects[project].latest),
                   MatcherOf(regex, a.projects, project), batch)
  {
    ProperIsSafe(MatcherOf(regex, a.projects, project), batch);
    UpdateKeepsValid(a, b, regex, project, batch, r);
    var w := EditedRows(a, b, regex, project, batch, r);
    OutcomeIsEdit(a, b, regex, project, batch, r, w);
  }

  lemma OutcomeIsEdit(a: Db, b: Db, regex: Regex, project: int, batch: seq<Object>, r: Result<int>, w: Written)
    requires Valid(a, regex) && project in a.projects && Outcome(a, b, project, w, r)
    requires var pk, v := MatcherOf(regex, a.projects, project), a.projects[project].latest + 1;
             IsEdit(Files(w.rows, project, v, pk), Files(a.objects, project, v - 1, pk), pk, batch)
    ensures MatcherOf(regex, b.projects, project) == MatcherOf(regex, a.projects, project)
    ensures IsEdit(FilesOf(b, regex, project, r.value), FilesOf(a, regex, project, a.projects[project].latest),
                   MatcherOf(regex, a.projects, project), batch)
  {
    var v := a.projects[project].latest + 1;
    SamePatterns(a, b, regex, project, w, r);
    assert FilesOf(b, regex, project, r.value) == Files(w.rows, project, v, MatcherOf(regex, a.projects, project)) by {
      OutcomeFiles(a, b, regex, project, w, r);
    }
  }

  lemma SamePatterns(a: Db, b: Db, regex: Regex, project: int, w: Written, r: Result<int>)
    requires project in a.projects && Outcome(a, b, project, w, r)
    ensures MatcherOf(regex, b.projects, project) == MatcherOf(regex, a.projects, project)
  {
  }

  /** The version in the response shows the rows the transaction wrote. */
  lemma OutcomeFiles(a: Db, b: Db, regex: Regex, project: int, w: Written, r: Result<int>)
    requires Valid(a, regex) && project in a.projects && Outcome(a, b, project, w, r)
    ensures FilesOf(b, regex, project, r.value)
            == Files(w.rows, project, a.projects[project].latest + 1, MatcherOf(regex, a.projects, project))
  {
    SamePatterns(a, b, regex, project, w, r);
    ProjectIsStartable(a, regex, project);
    SameBeforeAndAfter(a.objects, project, a.projects[project].latest + 1, MatcherOf(regex, a.projects, project));
  }

  lemma EditedRows(a: Db, b: Db, regex: Regex, project: int, batch: seq<Object>, r: Result<int>) returns (w: Written)
    requires Valid(a, regex) && project in a.projects
    requires ProperBatch(MatcherOf(regex, a.projects, project), batch)
    requires UpdateStep(a, b, regex, project, batch, r)
    ensures Outcome(a, b, project, w, r)
    ensures var pk, v := MatcherOf(regex, a.projects, project), a.projects[project].latest + 1;
            IsEdit(Files(w.rows, project, v, pk), Files(a.objects, project, v - 1, pk), pk, batch)
  {
    var pk, v := MatcherOf(regex, a.projects, project), a.projects[project].latest + 1;
    ProperIsSafe(pk, batch);
    var order;
    order, w := UpdateOutcome(a, b, regex, project, batch, r);
    ProjectIsStartable(a, regex, project);
    UpdateIsEdit(a.objects, project, v, pk, batch, order);
  }

  lemma ProperIsSafe(pk: Matcher, batch: seq<Object>)
    requires ProperBatch(pk, batch)
    ensures SafeBatch(LooseOps(pk, batch))
  {
    SelectKeepsDistinct(batch, IsLoose(pk));
    DistinctIsSafe(LooseOps(pk, batch));
  }

  /** Without new rows, the next version would show what the latest one shows. */
  lemma SameBeforeAndAfter(rows: set<Row>, project: int, v: int, pk: Matcher)
    requires Startable(rows, project, v, pk)
    ensures Files(rows, project, v, pk) == Files(rows, project, v - 1, pk)
  {
    StartableIsGood(rows, project, v, pk);
    forall path ensures ObjectAt(rows, project, v, path) == ObjectAt(rows, project, v - 1, path) {
      LatestObjects(rows, project, v, pk, path);
    }
    SameObjectsSameFiles(rows, rows, project, project, v, v - 1, v, v - 1, pk);
  }

  /** A commit leaves the files of earlier versions as they were. */
  lemma VersionStands(a: Db, b: Db, regex: Regex, project: int, v: int)
    requires Valid(a, regex) && Valid(b, regex) && project in a.projects && v <= a.projects[project].latest
    requires MatcherOf(regex, b.projects, project) == MatcherOf(regex, a.projects, project)
    requires project in b.projects && Evolves(a.objects, b.objects, project, a.projects[project].latest + 1)
    ensures FilesOf(b, regex, project, v) == FilesOf(a, regex, project, v)
  {
    var pk, w, lb := MatcherOf(regex, a.projects, project), a.projects[project].latest, b.projects[project].latest;
    EvolvingGrows(a.objects, b.objects, project, w + 1, project, w);
    assert GoodProject(a, regex, project) && GoodProject(b, regex, project);
    forall path ensures ObjectAt(b.objects, project, v, path) == ObjectAt(a.objects, project, v, path) {
      EarlierObjectsKept(a.objects, b.objects, project, w, w, lb, v, path);
    }
    SameObjectsSameFiles(b.objects, a.objects, project, project, lb, w, v, v, pk);
  }

  /** CloneToProject makes the target's new version show the source's files at the requested version, and keeps the others. */
  lemma CloneShowsSource(a: Db, regex: Regex, source: int, target: int, version: int)
    requires Valid(a, regex) && Cloneable(a, source, target)
    ensures Clone(a, source, target, version).Ok?
    ensures var (b, v) := Clone(a, source, target, version).value;
            && v == a.projects[target].latest + 1 == b.projects[target].latest
            && FilesOf(b, regex, target, v) == FilesOf(a, regex, source, version)
            && forall u :: u < v ==> FilesOf(b, regex, target, u) == FilesOf(a, regex, target, u)
  {
    var b := FirstClone(a, regex, source, target, version);
    ClonedFiles(a, b, regex, source, target, version);
    assert MatcherOf(regex, b.projects, target) == MatcherOf(regex, a.projects, target);
    forall u | u <= a.projects[target].latest ensures FilesOf(b, regex, target, u) == FilesOf(a, regex, target, u) {
      VersionStands(a, b, regex, target, u);
    }
  }

  lemma ClonedFiles(a: Db, b: Db, regex: Regex, source: int, target: int, version: int)
    requires Valid(a, regex) && Valid(b, regex) && Cloneable(a, source, target) && ClonedInto(a, b, source, target, version)
    ensures FilesOf(b, regex, target, a.projects[target].latest + 1) == FilesOf(a, regex, source, version)
  {
    var ls := if source in a.projects then a.projects[source].latest else 0;
    var v, pk := a.projects[target].latest + 1, MatcherOf(regex, a.projects, target);
    CloneStarts(a, regex, source, target);
    assert GoodProject(b, regex, target);
    assert MatcherOf(regex, b.projects, target) == pk == MatcherOf(regex, a.projects, source);
    SameObjectsSameFiles(b.objects, a.objects, target, source, v, ls, v, version, pk);
  }

  /** Cloning the same version again raises the version and changes no row. */
  lemma CloneTwiceChangesNothing(a: Db, regex: Regex, source: int, target: int, version: int)
    requires Valid(a, regex) && Cloneable(a, source, target)
    ensures Clone(a, source, target, version).Ok?
    ensures var b := Clone(a, source, target, version).value.0;
            && Clone(b, source, target, version).Ok?
            && Clone(b, source, target, version).value.0.objects == b.objects
  {
    var b := FirstClone(a, regex, source, target, version);
    if source != target || version <= a.projects[target].latest {
      SecondRows(a, b, regex, source, target, version);
    } else {
      FutureRows(a, regex, target, version);
      CommitsAs(a, target, target, version, a.objects);
      FutureRows(b, regex, target, version);
    }
    CommitsAs(b, source, target, version, b.objects);
  }

  /** Cloning a project onto itself at a version it has not reached changes no row, now or one version later. */
  lemma FutureRows(a: Db, regex: Regex, target: int, version: int)
    requires Valid(a, regex) && target in a.projects && version >= a.projects[target].latest
    ensures CloneRows(a.objects, target, target, version, a.projects[target].latest + 1) == Done(a.objects)
  {
    var v, pk := a.projects[target].latest + 1, MatcherOf(regex, a.projects, target);
    CloneStarts(a, regex, target, target);
    forall path ensures ObjectAt(a.objects, target, v, path) == ObjectAt(a.objects, target, version, path) {
      BeyondLatest(a.objects, target, v - 1, v, version, pk, path);
    }
    CloneAgain(a.objects, target, target, v - 1, version, v, pk);
  }

  /** All versions from the latest one on store the same objects. */
  lemma BeyondLatest(rows: set<Row>, project: int, latest: int, u: int, v: int, pk: Matcher, path: Path)
    requires Good(rows, project, latest, pk) && u >= latest && v >= latest
    ensures ObjectAt(rows, project, u, path) == ObjectAt(rows, project, v, path)
  {
    assert forall r :: r in rows ==> (LiveAt(r, project, u) <==> LiveAt(r, project, v));
    if HasRowAt(rows, project, u, path) {
      ObjectAtIs(rows, project, latest, v, RowAt(rows, project, u, path));
    }
  }

  /** `b` is `a` with a new version of the target that shows the source. */
  ghost predicate ClonedInto(a: Db, b: Db, source: int, target: int, version: int)
    requires target in a.projects
  {
    var v := a.projects[target].latest + 1;
    && b.projects == SetLatest(a.projects, target, v)
    && Evolves(a.objects, b.objects, target, v)
    && forall path :: ObjectAt(b.objects, target, v, path) == ObjectAt(a.objects, source, version, path)
  }

  lemma CommitsAs(a: Db, source: int, target: int, version: int, rows: set<Row>)
    requires Cloneable(a, source, target)
    requires CloneRows(a.objects, source, target, version, a.projects[target].latest + 1) == Done(rows)
    ensures var v := a.projects[target].latest + 1;
            Clone(a, source, target, version) == Ok((a.(projects := SetLatest(a.projects, target, v), objects := rows), v))
  {
  }

  lemma FirstClone(a: Db, regex: Regex, source: int, target: int, version: int) returns (b: Db)
    requires Valid(a, regex) && Cloneable(a, source, target)
    ensures Clone(a, source, target, version).Ok? && b == Clone(a, source, target, version).value.0
    ensures Valid(b, regex) && ClonedInto(a, b, source, target, version)
  {
    var rows := ClonedRows(a, regex, source, target, version);
    CommitsAs(a, source, target, version, rows);
    CommitKeepsValid(a, regex, target, rows, a.contents);
    b := a.(projects := SetLatest(a.projects, target, a.projects[target].latest + 1), objects := rows);
  }

  lemma ClonedRows(a: Db, regex: Regex, source: int, target: int, version: int) returns (rows: set<Row>)
    requires Valid(a, regex) && Cloneable(a, source, target)
    ensures CloneRows(a.objects, source, target, version, a.projects[target].latest + 1) == Done(rows)
    ensures var v, pk := a.projects[target].latest + 1, MatcherOf(regex, a.projects, target);
            && Good(rows, target, v, pk) && Evolves(a.objects, rows, target, v) && ContentsComplete(rows, a.contents)
            && forall path :: ObjectAt(rows, target, v, path) == ObjectAt(a.objects, source, version, path)
  {
    CloneRowsGood(a, regex, source, target, version);
    CloneObjects(a, regex, source, target, version);
    rows := CloneRows(a.objects, source, target, version, a.projects[target].latest + 1).value;
  }

  lemma CloneObjects(a: Db, regex: Regex, source: int, target: int, version: int)
    requires Valid(a, regex) && Cloneable(a, source, target)
    ensures var v := a.projects[target].latest + 1;
            && CloneRows(a.objects, source, target, version, v).Done?
            && var rows := CloneRows(a.objects, source, target, version, v).value;
            forall path :: ObjectAt(rows, target, v, path) == ObjectAt(a.objects, source, version, path)
  {
    CloneStarts(a, regex, source, target);
    CloneEffect(a.objects, source, target, if source in a.projects then a.projects[source].latest else 0, version,
                a.projects[target].latest + 1, MatcherOf(regex, a.projects, target));
  }

  /** The second clone finds nothing to close and nothing to insert. */
  lemma SecondRows(a: Db, b: Db, regex: Regex, source: int, target: int, version: int)
    requires Valid(a, regex) && Valid(b, regex) && Cloneable(a, source, target)
    requires source != target || version <= a.projects[target].latest
    requires ClonedInto(a, b, source, target, version)
    ensures Cloneable(b, source, target)
    ensures CloneRows(b.objects, source, target, version, b.projects[target].latest + 1) == Done(b.objects)
  {
    SecondCloneStarts(a, b, regex, source, target, version);
    CloneAgain(b.objects, source, target, if source in b.projects then b.projects[source].latest else 0, version,
               a.projects[target].latest + 2, MatcherOf(regex, b.projects, target));
  }

  lemma SecondCloneStarts(a: Db, b: Db, regex: Regex, source: int, target: int, version: int)
    requires Valid(a, regex) && Valid(b, regex) && Cloneable(a, source, target)
    requires source != target || version <= a.projects[target].latest
    requires ClonedInto(a, b, source, target, version)
    ensures Cloneable(b, source, target)
    ensures CloneStart(b.objects, source, target, if source in b.projects then b.projects[source].latest else 0,
                       a.projects[target].latest + 2, MatcherOf(regex, b.projects, target))
    ensures forall path :: ObjectAt(b.objects, target, a.projects[target].latest + 2, path) == ObjectAt(b.objects, source, version, path)
  {
    var v := a.projects[target].latest + 1;
    CloneStarts(b, regex, source, target);
    forall path ensures ObjectAt(b.objects, target, v + 1, path) == ObjectAt(b.objects, source, version, path) {
      assert ObjectAt(b.objects, target, v, path) == ObjectAt(a.objects, source, version, path);
      SecondShows(a, b, regex, source, target, version, path);
    }
  }

  lemma SecondShows(a: Db, b: Db, regex: Regex, source: int, target: int, version: int, path: Path)
    requires Valid(a, regex) && Valid(b, regex) && Cloneable(a, source, target)
    requires source != target || version <= a.projects[target].latest
    requires var v := a.projects[target].latest + 1;
             && b.projects == SetLatest(a.projects, target, v) && Evolves(a.objects, b.objects, target, v)
             && ObjectAt(b.objects, target, v, path) == ObjectAt(a.objects, source, version, path)
    ensures ObjectAt(b.objects, target, a.projects[target].latest + 2, path) == ObjectAt(b.objects, source, version, path)
  {
    assert GoodProject(b, regex, target);
    LatestObjects(b.objects, target, a.projects[target].latest + 2, MatcherOf(regex, b.projects, target), path);
    SourceStillShows(a, b, regex, source, target, version, path);
  }

  lemma SourceStillShows(a: Db, b: Db, regex: Regex, source: int, target: int, version: int, path: Path)
    requires Valid(a, regex) && Valid(b, regex) && Cloneable(a, source, target)
    requires source != target || version <= a.projects[target].latest
    requires b.projects == SetLatest(a.projects, target, a.projects[target].latest + 1)
    requires Evolves(a.objects, b.objects, target, a.projects[target].latest + 1)
    ensures ObjectAt(a.objects, source, version, path) == ObjectAt(b.objects, source, version, path)
  {
    var v := a.projects[target].latest + 1;
    var la := if source in a.projects then a.projects[source].latest else 0;
    var lb := if source in b.projects then b.projects[source].latest else 0;
    if source in a.projects {
      assert GoodProject(a, regex, source) && GoodProject(b, regex, source);
    }
    var w := if source == target then v - 1 else version;
    EvolvingGrows(a.objects, b.objects, target, v, source, w);
    EarlierObjectsKept(a.objects, b.objects, source, w, la, lb, version, path);
  }

  // ----- Runs -----

  /** A run of requests, each of them permitted in the state it finds. */
  ghost predicate Run(states: seq<Db>, regex: Regex, requests: seq<Request>) {
    && |states| == |requests| + 1
    && forall i :: 0 <= i < |requests| ==> RunStep(states[i], states[i + 1], regex, requests[i])
  }

  ghost predicate RunStep(a: Db, b: Db, regex: Regex, q: Request) {
    Permitted(a, regex, q) && Next(a, b, regex, q)
  }

  const EMPTY := Db(map[], {}, map[])

  /** Every state of every run is valid. */
  lemma {:induction false} RunsStayValid(states: seq<Db>, regex: Regex, requests: seq<Request>, i: nat)
    requires Run(states, regex, requests) && Valid(states[0], regex) && i < |states|
    ensures Valid(states[i], regex)
  {
    if i > 0 {
      RunsStayValid(states, regex, requests, i - 1);
      assert RunStep(states[i - 1], states[i], regex, requests[i - 1]);
      NextKeepsValid(states[i - 1], states[i], regex, requests[i - 1]);
    }
  }

  lemma EmptyIsValid(regex: Regex)
    ensures Valid(EMPTY, regex)
  {
  }
}
