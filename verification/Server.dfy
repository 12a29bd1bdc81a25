/**
  The server (pkg/api/fs.go over internal/db): the requests as methods that change the
  tables step by step. Each one is proved to be the transaction of the same name in Store.
*/
module Server {
  import opened Paths
  import opened TarFormat
  import opened PackMerge
  import opened Table
  import opened Difference
  import opened Statements
  import opened PackWrites
  import opened UpdateLaws
  import opened CopyLaws
  import opened ResetLaws
  import S = Store
  import L = RequestLaws
  import opened Store

  /** What the first phase of Update collects from the stream. */
  datatype Received = Received(project: int, objects: seq<Object>, packs: Groups)

  /** One message of the update stream. */
  datatype Message = Message(project: int, object_: Object)

  function Batch(messages: seq<Message>): (batch: seq<Object>)
    ensures |batch| == |messages|
    ensures forall i :: 0 <= i < |messages| ==> batch[i] == messages[i].object_
  {
    seq(|messages|, i requires 0 <= i < |messages| => messages[i].object_)
  }

  /** The project an update is for: the one of the token, or the first that a message names (-1 stands for none). */
  function TargetProject(messages: seq<Message>, authorized: int): int {
    if messages == [] then authorized
    else
      var n := |messages| - 1;
      var before := TargetProject(messages[..n], authorized);
      if before == -1 then messages[n].project else before
  }

  /** Every message is for the project that is settled when it arrives, and the first one names a project that exists. */
  predicate Accepted(messages: seq<Message>, authorized: int, projects: map<int, Project>) {
    AcceptedUpTo(messages, |messages|, authorized, projects)
  }

  predicate AcceptedUpTo(messages: seq<Message>, count: nat, authorized: int, projects: map<int, Project>)
    requires count <= |messages|
  {
    && (count > 0 ==> messages[0].project in projects)
    && forall i :: 0 <= i < count ==> TargetProject(messages[..i], authorized) in {-1, messages[i].project}
  }

  /** One more message. */
  lemma AcceptedNext(messages: seq<Message>, i: nat, authorized: int, projects: map<int, Project>)
    requires i < |messages|
    ensures var settled := TargetProject(messages[..i], authorized);
            && TargetProject(messages[..i + 1], authorized) == (if settled == -1 then messages[i].project else settled)
            && (AcceptedUpTo(messages, i + 1, authorized, projects) <==>
                && AcceptedUpTo(messages, i, authorized, projects)
                && settled in {-1, messages[i].project} && (i == 0 ==> messages[i].project in projects))
  {
    assert messages[..i + 1][..i] == messages[..i];
  }

  lemma AcceptedMeansUpTo(messages: seq<Message>, i: nat, authorized: int, projects: map<int, Project>)
    requires i <= |messages| && !AcceptedUpTo(messages, i, authorized, projects)
    ensures !Accepted(messages, authorized, projects)
  {
  }

  /** The patterns that route the batch are those of the first message's project. */
  function RoutingOf(regex: Regex, projects: map<int, Project>, messages: seq<Message>): Matcher
    requires messages != []
  {
    MatcherOf(regex, projects, messages[0].project)
  }

  /** The messages are accepted and the project exists. */
  predicate GoesThrough(messages: seq<Message>, authorized: int, projects: map<int, Project>) {
    messages != [] && Accepted(messages, authorized, projects) && TargetProject(messages, authorized) in projects
  }

  /** The stream names its project from the start, or never: an administrator's first message is not for -1 while a later one is for another. */
  predicate Identified(messages: seq<Message>, authorized: int)
    requires messages != []
  {
    || authorized != -1 || messages[0].project != -1
    || forall i :: 0 <= i < |messages| ==> messages[i].project == -1
  }

  /** As long as nothing is settled, every message has been for -1. */
  lemma {:induction false} Unsettled(messages: seq<Message>, authorized: int)
    ensures TargetProject(messages, authorized) == -1 <==>
            authorized == -1 && forall i :: 0 <= i < |messages| ==> messages[i].project == -1
  {
    if messages != [] {
      Unsettled(messages[..|messages| - 1], authorized);
    }
  }

  /** Once something is settled, it stays. */
  lemma {:induction false} SettledByFirst(messages: seq<Message>, authorized: int, projects: map<int, Project>)
    requires messages != [] && Accepted(messages, authorized, projects) && (authorized != -1 || messages[0].project != -1)
    ensures TargetProject(messages, authorized) == messages[0].project
  {
    var n := |messages| - 1;
    assert TargetProject(messages[..0], authorized) == authorized;
    if n > 0 {
      assert forall i :: 0 <= i < n ==> messages[..n][..i] == messages[..i];
      SettledByFirst(messages[..n], authorized, projects);
      assert messages[..n][0] == messages[0];
    }
  }

  /** All messages are for the project of the token; without one, those for -1 come first and the others agree. */
  predicate Agree(messages: seq<Message>, authorized: int) {
    if authorized != -1 then forall i :: 0 <= i < |messages| ==> messages[i].project == authorized
    else forall i, j :: 0 <= i < j < |messages| ==> messages[i].project in {-1, messages[j].project}
  }

  lemma AcceptedPrefix(messages: seq<Message>, n: nat, authorized: int, projects: map<int, Project>)
    requires n <= |messages|
    ensures AcceptedUpTo(messages, n, authorized, projects) <==> Accepted(messages[..n], authorized, projects)
  {
    assert forall i :: 0 <= i < n ==> messages[..n][..i] == messages[..i];
  }

  /** One more message agrees with those before it if it agrees with the last of them. */
  lemma AgreeNext(messages: seq<Message>, authorized: int)
    requires messages != []
    ensures var n := |messages| - 1; var settled := if n == 0 then authorized else messages[n - 1].project;
            Agree(messages, authorized) <==> Agree(messages[..n], authorized) && settled in {-1, messages[n].project}
                                             && (authorized != -1 ==> messages[n].project == authorized)
  {
    var n := |messages| - 1;
    if n > 0 && authorized == -1 && Agree(messages[..n], authorized) && messages[n - 1].project in {-1, messages[n].project} {
      forall i | 0 <= i < n ensures messages[i].project in {-1, messages[n].project} {
        assert i < n - 1 ==> messages[..n][i].project in {-1, messages[..n][n - 1].project};
      }
    }
  }

  /** The stream is accepted exactly when its messages agree and the first one names a project that exists; it is for the last one's. */
  lemma {:induction false} AcceptedIff(messages: seq<Message>, authorized: int, projects: map<int, Project>)
    ensures Accepted(messages, authorized, projects) <==>
            Agree(messages, authorized) && (messages != [] ==> messages[0].project in projects)
    ensures messages != [] && Accepted(messages, authorized, projects) ==>
              TargetProject(messages, authorized) == messages[|messages| - 1].project
  {
    if messages != [] {
      var n := |messages| - 1;
      assert messages[..n + 1] == messages;
      AcceptedNext(messages, n, authorized, projects);
      AcceptedPrefix(messages, n, authorized, projects);
      AcceptedIff(messages[..n], authorized, projects);
      AgreeNext(messages, authorized);
      assert n == 0 ==> TargetProject(messages[..n], authorized) == authorized;
    }
  }

  /** The target is the first message's project if and only if the stream is identified. */
  lemma FirstIsTargetIff(messages: seq<Message>, authorized: int, projects: map<int, Project>)
    requires messages != [] && Accepted(messages, authorized, projects)
    ensures TargetProject(messages, authorized) == messages[0].project <==> Identified(messages, authorized)
  {
    Unsettled(messages, authorized);
    if authorized != -1 || messages[0].project != -1 {
      SettledByFirst(messages, authorized, projects);
    }
  }

  /** In every database that accepts the stream, it is routed by its target's own patterns, if and only if it is identified. */
  lemma RoutedByTargetIff(messages: seq<Message>, authorized: int, accepting: map<int, Project>)
    requires messages != [] && Accepted(messages, authorized, accepting)
    ensures (forall regex, projects :: Accepted(messages, authorized, projects) ==>
                                         RoutingOf(regex, projects, messages) ==
                                         MatcherOf(regex, projects, TargetProject(messages, authorized)))
            <==> Identified(messages, authorized)
  {
    FirstIsTargetIff(messages, authorized, accepting);
    if !Identified(messages, authorized) {
      var target := TargetProject(messages, authorized);
      var regex: Regex := _ => _ => true;
      var projects := map[messages[0].project := Project(0, None), target := Project(0, Some([""]))];
      assert Accepted(messages, authorized, projects);
      assert !RoutingOf(regex, projects, messages)("x");
      assert Matchers(regex, PatternsOf(projects, target))[0]("x");
      assert MatcherOf(regex, projects, target)("x");
    }
  }

  // ----- Lemmas about the buffers -----

  lemma SelectAppend(batch: seq<Object>, o: Object, keep: Object -> bool)
    ensures Select(batch + [o], keep) == Select(batch, keep) + if keep(o) then [o] else []
  {
  }

  lemma ParentsAppend(pk: Matcher, batch: seq<Object>, o: Object)
    ensures Parents(pk, batch + [o]) ==
            Parents(pk, batch) + match PackParent(pk, o.path) case None => {} case Some(parent) => {parent}
  {
  }

  lemma SelectedHasParent(pk: Matcher, batch: seq<Object>, parent: Path)
    ensures Select(batch, IsRoutedTo(pk, parent)) != [] ==> parent in Parents(pk, batch)
  {
    SelectMembers(batch, IsRoutedTo(pk, parent));
    var selected := Select(batch, IsRoutedTo(pk, parent));
    if selected != [] {
      assert selected[0] in batch;
    }
  }

  function AddToGroup(groups: Groups, parent: Path, o: Object): Groups {
    groups[parent := (if parent in groups then groups[parent] else []) + [o]]
  }

  lemma LooseAppend(pk: Matcher, batch: seq<Object>, o: Object)
    requires PackParent(pk, o.path) == None
    ensures LooseOps(pk, batch + [o]) == LooseOps(pk, batch) + [o]
    ensures GroupsOf(pk, batch + [o]) == GroupsOf(pk, batch)
  {
    SelectAppend(batch, o, IsLoose(pk));
    ParentsAppend(pk, batch, o);
    var after, before := GroupsOf(pk, batch + [o]), GroupsOf(pk, batch);
    assert after.Keys == before.Keys;
    forall p | p in after ensures after[p] == before[p] {
      SelectAppend(batch, o, IsRoutedTo(pk, p));
    }
    assert after == before;
  }

  lemma PackedAppendAt(pk: Matcher, batch: seq<Object>, o: Object, parent: Path, p: Path)
    requires PackParent(pk, o.path) == Some(parent) && p in Parents(pk, batch) + {parent}
    ensures Select(batch + [o], IsRoutedTo(pk, p)) == AddToGroup(GroupsOf(pk, batch), parent, o)[p]
  {
    SelectAppend(batch, o, IsRoutedTo(pk, p));
    SelectedHasParent(pk, batch, p);
  }

  lemma PackedAppend(pk: Matcher, batch: seq<Object>, o: Object, parent: Path)
    requires PackParent(pk, o.path) == Some(parent)
    ensures LooseOps(pk, batch + [o]) == LooseOps(pk, batch)
    ensures GroupsOf(pk, batch + [o]) == AddToGroup(GroupsOf(pk, batch), parent, o)
  {
    SelectAppend(batch, o, IsLoose(pk));
    ParentsAppend(pk, batch, o);
    var after, expected := GroupsOf(pk, batch + [o]), AddToGroup(GroupsOf(pk, batch), parent, o);
    assert after.Keys == expected.Keys;
    forall p | p in after ensures after[p] == expected[p] {
      PackedAppendAt(pk, batch, o, parent, p);
    }
    assert after == expected;
  }

  lemma BatchAppend(messages: seq<Message>, i: nat)
    requires i < |messages|
    ensures Batch(messages[..i + 1]) == Batch(messages[..i]) + [messages[i].object_]
  {
  }

  // ----- Statements -----

  /** Two row choices that agree on the table close the same rows. */
  lemma SameChoice(rows: set<Row>, a: Row -> bool, b: Row -> bool, v: int)
    requires forall r :: r in rows ==> (a(r) <==> b(r))
    ensures CloseRows(rows, a, v) == CloseRows(rows, b, v)
  {
    assert forall r :: r in rows ==> Restop(r, a, Some(v)) == Restop(r, b, Some(v));
    assert SetStop(rows, a, Some(v)) == SetStop(rows, b, Some(v));
  }

  /** A closed row has the hash and the path of the row it was. */
  lemma ClosingKeepsContents(rows: set<Row>, chosen: Row -> bool, stop: Option<int>, contents: map<Hash, Blob>)
    requires ContentsComplete(rows, contents)
    ensures ContentsComplete(SetStop(rows, chosen, stop), contents)
  {
  }

  lemma LooseStepContents(rows: set<Row>, project: int, v: int, o: Object, contents: map<Hash, Blob>)
    requires ContentsComplete(rows, contents) && LooseStep(rows, project, v, o).Done?
    requires !o.deleted ==> HashContent(Loose(o.content)) in contents
    ensures ContentsComplete(LooseStep(rows, project, v, o).value.rows, contents)
  {
  }

  /** Closing rows and loose writes leave no live pack that was not there. */
  lemma LooseStepAddsNoPack(rows: set<Row>, project: int, v: int, o: Object)
    requires LooseStep(rows, project, v, o).Done?
    ensures NoNewPacks(rows, LooseStep(rows, project, v, o).value.rows)
  {
    if o.deleted {
      ClosingAddsNone(rows, LiveAtPath(project, o.path), v);
    } else if !Conflicts(rows, LooseRow(project, v, o)) {
      ClosingAddsNone(rows + {LooseRow(project, v, o)}, Replaced(project, v, o.path), v);
    }
  }

  ghost predicate NoNewPacks(a: set<Row>, b: set<Row>) {
    forall r :: r in b && r.packed && r.stop.None? ==> r in a
  }

  lemma ClosingAddsNone(rows: set<Row>, chosen: Row -> bool, v: int)
    ensures NoNewPacks(rows, SetStop(rows, chosen, Some(v)))
  {
  }

  lemma PackStepSparesOthers(rows: set<Row>, project: int, v: int, parent: Path, updates: seq<Object>)
    requires PackStepAt(rows, project, v, parent, updates).Done?
    ensures forall r: Row :: r.project == project && r.path != parent ==>
                               (r in PackStepAt(rows, project, v, parent, updates).value.rows <==> r in rows)
  {
    var chosen := LivePack(project, parent);
    forall r: Row | r.project == project && r.path != parent ensures r in SetStop(rows, chosen, Some(v)) <==> r in rows {
      if r in rows {
        assert Restop(r, chosen, Some(v)) == r;
      }
    }
  }

  /** Once a write of the batch fails, the whole batch fails. */
  lemma {:induction false} LooseFailsForGood(rows: set<Row>, project: int, v: int, ops: seq<Object>, n: nat)
    requires n <= |ops| && LoosePhase(rows, project, v, ops[..n]).UniqueViolation?
    ensures LoosePhase(rows, project, v, ops).UniqueViolation?
    decreases |ops| - n
  {
    if n < |ops| {
      assert ops[..n + 1][..n] == ops[..n];
      LooseFailsForGood(rows, project, v, ops, n + 1);
    } else {
      assert ops[..n] == ops;
    }
  }

  lemma LoosePhaseNext(rows: set<Row>, project: int, v: int, ops: seq<Object>, i: nat, w: Written)
    requires i < |ops| && LoosePhase(rows, project, v, ops[..i]) == Done(w)
    ensures LoosePhase(rows, project, v, ops[..i + 1]) ==
            match LooseStep(w.rows, project, v, ops[i])
            case UniqueViolation => UniqueViolation
            case Done(w') => Done(Written(w'.rows, w.changed || w'.changed))
  {
    assert ops[..i + 1][..i] == ops[..i];
  }

  lemma PackPhaseNext(rows: set<Row>, project: int, v: int, order: seq<Path>, parent: Path, groups: Groups, w: Written)
    requires parent in groups && forall p :: p in order ==> p in groups
    requires PackPhase(rows, project, v, order, groups) == Done(w)
    ensures PackPhase(rows, project, v, order + [parent], groups) ==
            match PackStepAt(w.rows, project, v, parent, groups[parent])
            case UniqueViolation => UniqueViolation
            case Done(w') => Done(Written(w'.rows, w.changed || w'.changed))
  {
  }

  lemma {:induction false} PackFailsForGood(rows: set<Row>, project: int, v: int, order: seq<Path>, rest: set<Path>, groups: Groups) returns (full: seq<Path>)
    requires Distinct(order) && (forall p :: p in order ==> p in groups && p !in rest) && rest <= groups.Keys
    requires PackPhase(rows, project, v, order, groups).UniqueViolation?
    ensures Distinct(full) && forall p :: p in full <==> p in order || p in rest
    ensures PackPhase(rows, project, v, full, groups).UniqueViolation?
    decreases rest
  {
    if rest == {} {
      full := order;
    } else {
      var p :| p in rest;
      assert (order + [p])[..|order|] == order;
      full := PackFailsForGood(rows, project, v, order + [p], rest - {p}, groups);
    }
  }

  lemma ContentsGrewTransitive(a: map<Hash, Blob>, b: map<Hash, Blob>, c: map<Hash, Blob>)
    requires ContentsGrew(a, b) && ContentsGrew(b, c)
    ensures ContentsGrew(a, c)
  {
  }

  /** The whole object buffer leaves no live pack that was not there. */
  lemma {:induction false} LoosePhaseAddsNoPack(rows: set<Row>, project: int, v: int, ops: seq<Object>)
    requires LoosePhase(rows, project, v, ops).Done?
    ensures NoNewPacks(rows, LoosePhase(rows, project, v, ops).value.rows)
  {
    if ops != [] {
      var n := |ops| - 1;
      LoosePhaseAddsNoPack(rows, project, v, ops[..n]);
      LooseStepAddsNoPack(LoosePhase(rows, project, v, ops[..n]).value.rows, project, v, ops[n]);
    }
  }

  /** At most one live pack per path, before the loose writes and after them. */
  lemma StillOnePack(before: set<Row>, rows: set<Row>, project: int, latest: int, parent: Path)
    requires Intervals(before, project, latest) && NoNewPacks(before, rows)
    ensures forall r, s :: r in rows && s in rows && LivePack(project, parent)(r) && LivePack(project, parent)(s) ==> r == s
  {
  }

  class Fs {
    const regex: Regex
    var projects: map<int, Project>
    var objects: set<Row>
    var contents: map<Hash, Blob>

    ghost function State(): Db
      reads this
    {
      Db(projects, objects, contents)
    }

    ghost predicate Valid()
      reads this
    {
      S.Valid(State(), regex)
    }

    constructor (compile: Regex)
      ensures regex == compile && State() == EMPTY && Valid()
    {
      regex := compile;
      projects, objects, contents := map[], {}, map[];
    }

    // ----- internal/db/update.go -----

    method UpdateLatestVersion(project: int, version: int)
      modifies `projects
      ensures projects == SetLatest(old(projects), project, version)
    {
      if project in projects {
        projects := projects[project := projects[project].(latest := version)];
      }
    }

    /** False when a unique index is violated. */
    method DeleteObject(project: int, version: int, path: Path) returns (ok: bool)
      modifies `objects
      ensures match Statements.DeleteObject(old(objects), project, version, path)
              case UniqueViolation => !ok && objects == old(objects)
              case Done(rows) => ok && objects == rows
    {
      var result := CloseRows(objects, (r: Row) => Live(r, project) && r.path == path, version);
      SameChoice(objects, (r: Row) => Live(r, project) && r.path == path, LiveAtPath(project, path), version);
      if result.UniqueViolation? { return false; }
      objects := result.value;
      return true;
    }

    /** INSERT INTO dl.contents ... ON CONFLICT DO NOTHING, outside the transaction. */
    method InsertContent(blob: Blob)
      requires ContentsComplete(objects, contents)
      modifies `contents
      ensures ContentsComplete(objects, contents) && ContentsGrew(old(contents), contents)
      ensures contents.Keys == old(contents).Keys + {HashContent(blob)}
    {
      if HashContent(blob) !in contents {
        contents := contents[HashContent(blob) := blob];
      }
    }

    method UpdateObject(project: int, version: int, object_: Object) returns (r: Result<bool>)
      requires ContentsComplete(objects, contents)
      modifies `objects, `contents
      ensures ContentsGrew(old(contents), contents) && HashContent(Loose(object_.content)) in contents
      ensures forall h :: h in contents ==> h == HashContent(contents[h])
      ensures match Statements.UpdateObject(old(objects), project, version, object_)
              case UniqueViolation => r == Err(IndexViolated) && objects == old(objects)
              case Done(w) => r == Ok(w.changed) && objects == w.rows
    {
      InsertContent(Loose(object_.content));
      var row := LooseRow(project, version, object_);
      if Conflicts(objects, row) {
        return Ok(false);
      }
      var previousPaths := PreviousPaths(object_.path);
      var chosen := (r: Row) => Live(r, project) && r.path in previousPaths && r.start != version;
      var result := CloseRows(objects + {row}, chosen, version);
      SameChoice(objects + {row}, chosen, Replaced(project, version, object_.path), version);
      if result.UniqueViolation? { return Err(IndexViolated); }
      objects := result.value;
      return Ok(true);
    }

    /** The pack at `parent` is stored in at most one live row. */
    ghost predicate OnePack(project: int, parent: Path)
      reads this
    {
      forall r, s :: r in objects && s in objects && LivePack(project, parent)(r) && LivePack(project, parent)(s) ==> r == s
    }

    /** SELECT ... FROM dl.objects JOIN dl.contents: the hash and entries of the existing pack. */
    method SelectPack(project: int, parent: Path) returns (hash: Hash, before: seq<TarEntry>)
      requires ContentsComplete(objects, contents) && OnePack(project, parent)
      ensures hash == match ExistingPack(objects, project, parent) case None => Zero case Some(x) => x.hash
      ensures before == EntriesBefore(objects, project, parent)
    {
      var found := ExistingPacks(objects, contents, project, parent);
      if ExistingPack(objects, project, parent).Some? {
        assert ExistingPack(objects, project, parent).value in found;
      }
      if found == {} {
        return Zero, [];
      }
      var existing :| existing in found;
      assert LivePack(project, parent)(existing);
      return existing.hash, EntriesOf(contents[existing.hash]);
    }

    method UpdatePackedObjects(project: int, version: int, parent: Path, updates: seq<Object>) returns (r: Result<bool>)
      requires ContentsComplete(objects, contents) && OnePack(project, parent)
      modifies `objects, `contents
      ensures ContentsComplete(objects, contents) && ContentsGrew(old(contents), contents)
      ensures match PackStepAt(old(objects), project, version, parent, updates)
              case UniqueViolation => r == Err(IndexViolated) && objects == old(objects)
              case Done(w) => r == Ok(w.changed) && objects == w.rows
    {
      var hash, before := SelectPack(project, parent);
      var merged := UpdateObjects(before, updates);
      var entries := match merged case EmptyPack => [] case Packed(es) => es;
      r := ReplacePack(project, version, parent, hash, before, updates, entries);
    }

    /** The writing half of UpdatePackedObjects. */
    method ReplacePack(project: int, version: int, parent: Path, hash: Hash, before: seq<TarEntry>, ghost updates: seq<Object>, entries: seq<TarEntry>)
      returns (r: Result<bool>)
      requires ContentsComplete(objects, contents) && entries == Merge(before, SortByPath(updates))
      modifies `objects, `contents
      ensures ContentsComplete(objects, contents) && ContentsGrew(old(contents), contents)
      ensures match PackStep(old(objects), project, version, parent, hash, before, updates)
              case UniqueViolation => r == Err(IndexViolated) && objects == old(objects)
              case Done(w) => r == Ok(w.changed) && objects == w.rows
    {
      if hash == MergedHash(entries) {
        return Ok(false);
      }
      var closed := CloseRows(objects, LivePack(project, parent), version);
      if entries != [] {
        InsertContent(Pack(entries));
      }
      if closed.UniqueViolation? { return Err(IndexViolated); }
      ClosingKeepsContents(objects, LivePack(project, parent), Some(version), contents);
      if entries == [] {
        objects := closed.value;
        return Ok(true);
      }
      var row := PackRow(project, version, parent, entries);
      if Conflicts(closed.value, row) { return Err(IndexViolated); }
      objects := closed.value + {row};
      return Ok(true);
    }

    // ----- pkg/api/fs.go -----

    /** Puts one object in the buffer it belongs to. */
    static method Route(matchers: seq<Matcher>, objectBuffer: seq<Object>, packedBuffer: Groups, object_: Object, ghost batch: seq<Object>)
      returns (objectBuffer': seq<Object>, packedBuffer': Groups)
      requires objectBuffer == LooseOps(AnyMatch(matchers), batch) && packedBuffer == GroupsOf(AnyMatch(matchers), batch)
      ensures objectBuffer' == LooseOps(AnyMatch(matchers), batch + [object_])
      ensures packedBuffer' == GroupsOf(AnyMatch(matchers), batch + [object_])
    {
      var parent := IsPathPacked(matchers, object_.path);
      match parent
      case Some(p) =>
        PackedAppend(AnyMatch(matchers), batch, object_, p);
        return objectBuffer, AddToGroup(packedBuffer, p, object_);
      case None =>
        LooseAppend(AnyMatch(matchers), batch, object_);
        return objectBuffer + [object_], packedBuffer;
    }

    /** A message must be for the project of the stream; the first one settles it, and the project must exist. */
    method Admit(project: int, message: Message, first: bool) returns (r: Result<int>)
      ensures r == if project != -1 && project != message.project then Err(MixedProjects)
                   else if first && message.project !in projects then Err(ProjectNotFound)
                   else Ok(message.project)
    {
      var p := project;
      if p == -1 { p := message.project; }
      if p != message.project { return Err(MixedProjects); }
      if first && p !in projects { return Err(ProjectNotFound); }
      return Ok(p);
    }

    /** The receiving half of Update: route every message to the object buffer or to its pack. */
    method Receive(messages: seq<Message>, authorized: int) returns (r: Result<Received>)
      ensures r.Ok? <==> Accepted(messages, authorized, projects)
      ensures r.Ok? && messages != [] ==>
                var pk := RoutingOf(regex, projects, messages);
                r.value == Received(TargetProject(messages, authorized), LooseOps(pk, Batch(messages)), GroupsOf(pk, Batch(messages)))
    {
      var project := authorized;
      var matchers: seq<Matcher> := [];
      var objectBuffer: seq<Object> := [];
      var packedBuffer: Groups := map[];
      ghost var pk := if messages == [] then AnyMatch([]) else RoutingOf(regex, projects, messages);
      for i := 0 to |messages|
        invariant project == TargetProject(messages[..i], authorized)
        invariant i > 0 ==> AnyMatch(matchers) == pk
        invariant AcceptedUpTo(messages, i, authorized, projects)
        invariant objectBuffer == LooseOps(pk, Batch(messages[..i]))
        invariant packedBuffer == GroupsOf(pk, Batch(messages[..i]))
      {
        var message := messages[i];
        var admitted := Admit(project, message, i == 0);
        AcceptedNext(messages, i, authorized, projects);
        if admitted.Err? {
          AcceptedMeansUpTo(messages, i + 1, authorized, projects);
          return Err(admitted.error);
        }
        project := admitted.value;
        if i == 0 {
          matchers := Matchers(regex, PatternsOf(projects, project));
        }
        BatchAppend(messages, i);
        objectBuffer, packedBuffer := Route(matchers, objectBuffer, packedBuffer, message.object_, Batch(messages[..i]));
      }
      assert messages[..|messages|] == messages;
      return Ok(Received(project, objectBuffer, packedBuffer));
    }

    /** The object buffer, one write after the other. On failure the caller rolls back. */
    method WriteObjects(project: int, version: int, buffer: seq<Object>) returns (r: Result<bool>)
      requires ContentsComplete(objects, contents)
      modifies `objects, `contents
      ensures ContentsGrew(old(contents), contents)
      ensures match LoosePhase(old(objects), project, version, buffer)
              case UniqueViolation => r == Err(IndexViolated)
              case Done(w) => r == Ok(w.changed) && objects == w.rows && ContentsComplete(objects, contents)
    {
      var changed := false;
      for i := 0 to |buffer|
        invariant ContentsComplete(objects, contents) && ContentsGrew(old(contents), contents)
        invariant LoosePhase(old(objects), project, version, buffer[..i]) == Done(Written(objects, changed))
      {
        LoosePhaseNext(old(objects), project, version, buffer, i, Written(objects, changed));
        var step := WriteObject(project, version, buffer[i]);
        if step.Err? {
          LooseFailsForGood(old(objects), project, version, buffer, i + 1);
          return Err(IndexViolated);
        }
        changed := changed || step.value;
      }
      assert buffer[..|buffer|] == buffer;
      return Ok(changed);
    }

    /** One object of the buffer: a deletion, or a write. */
    method WriteObject(project: int, version: int, object_: Object) returns (r: Result<bool>)
      requires ContentsComplete(objects, contents)
      modifies `objects, `contents
      ensures ContentsGrew(old(contents), contents)
      ensures match LooseStep(old(objects), project, version, object_)
              case UniqueViolation => r == Err(IndexViolated) && objects == old(objects)
              case Done(w) => r == Ok(w.changed) && objects == w.rows && ContentsComplete(objects, contents)
    {
      ghost var before := objects;
      if object_.deleted {
        var ok := DeleteObject(project, version, object_.path);
        r := if ok then Ok(true) else Err(IndexViolated);
      } else {
        r := UpdateObject(project, version, object_);
      }
      if r.Ok? {
        LooseStepContents(before, project, version, object_, contents);
      }
    }

    /** One pack of the buffer, after those of `order`; the other packs stay as they are. */
    method WriteOnePack(project: int, version: int, parent: Path, buffer: Groups, changed: bool, ghost start: set<Row>, ghost order: seq<Path>)
      returns (r: Result<bool>)
      requires ContentsComplete(objects, contents) && OnePack(project, parent)
      requires parent in buffer && (forall p :: p in order ==> p in buffer)
      requires PackPhase(start, project, version, order, buffer) == Done(Written(objects, changed))
      modifies `objects, `contents
      ensures ContentsComplete(objects, contents) && ContentsGrew(old(contents), contents)
      ensures match PackPhase(start, project, version, order + [parent], buffer)
              case UniqueViolation => r == Err(IndexViolated)
              case Done(w) => r == Ok(w.changed) && objects == w.rows
      ensures forall p :: p != parent && old(OnePack(project, p)) ==> OnePack(project, p)
    {
      PackPhaseNext(start, project, version, order, parent, buffer, Written(objects, changed));
      r := UpdatePackedObjects(project, version, parent, buffer[parent]);
      if r.Ok? {
        PackStepSparesOthers(old(objects), project, version, parent, buffer[parent]);
        r := Ok(changed || r.value);
      }
    }

    /** The pack buffer, in an order the map iteration picks. */
    method WritePacks(project: int, version: int, buffer: Groups) returns (r: Result<bool>, ghost order: seq<Path>)
      requires ContentsComplete(objects, contents)
      requires forall parent :: parent in buffer ==> OnePack(project, parent)
      modifies `objects, `contents
      ensures ContentsGrew(old(contents), contents) && Iterates(order, buffer)
      ensures match PackPhase(old(objects), project, version, order, buffer)
              case UniqueViolation => r == Err(IndexViolated)
              case Done(w) => r == Ok(w.changed) && objects == w.rows && ContentsComplete(objects, contents)
    {
      var changed := false;
      var remaining := buffer.Keys;
      order := [];
      while remaining != {}
        invariant remaining <= buffer.Keys && Distinct(order)
        invariant forall p :: p in order <==> p in buffer && p !in remaining
        invariant ContentsComplete(objects, contents) && ContentsGrew(old(contents), contents)
        invariant PackPhase(old(objects), project, version, order, buffer) == Done(Written(objects, changed))
        invariant forall p :: p in remaining ==> OnePack(project, p)
        decreases remaining
      {
        var parent :| parent in remaining;
        ghost var before := contents;
        var step := WriteOnePack(project, version, parent, buffer, changed, old(objects), order);
        ContentsGrewTransitive(old(contents), before, contents);
        remaining := remaining - {parent};
        order := order + [parent];
        if step.Err? {
          order := PackFailsForGood(old(objects), project, version, order, remaining, buffer);
          return Err(IndexViolated), order;
        }
        changed := step.value;
      }
      return Ok(changed), order;
    }

    /** Both buffers, at the next version. */
    method WriteUpdate(project: int, version: int, ghost pk: Matcher, ghost batch: seq<Object>, received: Received)
      returns (r: Result<bool>, ghost order: seq<Path>)
      requires ContentsComplete(objects, contents) && Intervals(objects, project, version - 1)
      requires received.objects == LooseOps(pk, batch) && received.packs == GroupsOf(pk, batch)
      modifies `objects, `contents
      ensures ContentsGrew(old(contents), contents) && Iterates(order, GroupsOf(pk, batch))
      ensures match UpdateRows(old(objects), project, version, pk, batch, order)
              case UniqueViolation => r == Err(IndexViolated)
              case Done(w) => r == Ok(w.changed) && objects == w.rows && ContentsComplete(objects, contents)
    {
      ghost var before := objects;
      var loose := WriteObjects(project, version, received.objects);
      if loose.Err? {
        order := SomeIteration(received.packs);
        return Err(IndexViolated), order;
      }
      LoosePhaseAddsNoPack(before, project, version, received.objects);
      forall parent ensures OnePack(project, parent) {
        StillOnePack(before, objects, project, version - 1, parent);
      }
      ghost var middle := contents;
      var packs;
      packs, order := WritePacks(project, version, received.packs);
      if packs.Err? { return Err(IndexViolated), order; }
      return Ok(loose.value || packs.value), order;
    }

    /** The writing half of Update: the next version if the batch changes anything, otherwise the rows as they were. */
    method UpdateTransaction(project: int, ghost pk: Matcher, ghost batch: seq<Object>, received: Received) returns (r: Result<int>)
      requires ContentsComplete(objects, contents) && project in projects && Intervals(objects, project, projects[project].latest)
      requires received.objects == LooseOps(pk, batch) && received.packs == GroupsOf(pk, batch)
      modifies this
      ensures UpdateStepBy(old(State()), State(), pk, project, batch, r)
    {
      var saved := objects;
      var latestVersion := projects[project].latest;
      var nextVersion := latestVersion + 1;
      var written, order := WriteUpdate(project, nextVersion, pk, batch, received);
      if written.Err? || !written.value {
        objects := saved;
        r := if written.Err? then Err(IndexViolated) else Ok(latestVersion);
      } else {
        UpdateLatestVersion(project, nextVersion);
        r := Ok(nextVersion);
      }
      assert Updates(old(State()), State(), pk, project, batch, order, r);
    }

    /**
      Fs.Update. An error, or a batch that changes nothing, leaves the transaction
      uncommitted; contents were inserted outside it and stay.
    */
    method Update(messages: seq<Message>, authorized: int) returns (r: Result<int>)
      requires Valid()
      modifies this
      ensures messages == [] ==> r == Ok(-1)
      ensures messages != [] && !GoesThrough(messages, authorized, old(projects)) ==> r.Err?
      ensures if GoesThrough(messages, authorized, old(projects))
              then UpdateStepBy(old(State()), State(), RoutingOf(regex, old(projects), messages),
                                TargetProject(messages, authorized), Batch(messages), r)
              else State() == old(State())
    {
      if messages == [] { return Ok(-1); }
      var received := Receive(messages, authorized);
      if received.Err? { return Err(received.error); }
      var project := received.value.project;
      if project !in projects { return Err(ProjectNotFound); }
      assert GoodProject(State(), regex, project);
      r := UpdateTransaction(project, RoutingOf(regex, projects, messages), Batch(messages), received.value);
    }

    // ----- Other requests -----

    /** internal/db/copy.go: fill a new project from a template. */
    method CopyAllObjects(source: int, target: int) returns (r: Result<()>)
      requires target in projects
      modifies `objects, `projects
      ensures r == (if PatternsOf(old(projects), source) != PatternsOf(old(projects), target) then Err(PatternsDiffer)
                    else if InsertViolates(old(objects), TemplateRows(old(objects), source, target)) then Err(IndexViolated)
                    else if source !in old(projects) then Err(NullVersion) else Ok(()))
      ensures if r.Err? then objects == old(objects) && projects == old(projects)
              else objects == CopyRows(old(objects), source, target)
                   && projects == SetLatest(old(projects), target, old(projects)[source].latest)
    {
      if PatternsOf(projects, source) != PatternsOf(projects, target) { return Err(PatternsDiffer); }
      var copies := TemplateRows(objects, source, target);
      if InsertViolates(objects, copies) { return Err(IndexViolated); }
      if source !in projects { return Err(NullVersion); }
      objects := objects + copies;
      UpdateLatestVersion(target, projects[source].latest);
      return Ok(());
    }

    method NewProject(id: int, patterns: Option<seq<string>>, template: Option<int>) returns (r: Result<()>)
      requires Valid()
      modifies this
      ensures Valid()
      ensures match S.NewProject(old(State()), id, patterns, template)
              case Err(e) => r == Err(e) && State() == old(State())
              case Ok(db) => r.Ok? && State() == db
    {
      NewProjectKeepsValid(State(), regex, id, patterns, template);
      if id in projects { return Err(ProjectExists); }
      var saved := projects;
      projects := projects[id := Project(0, patterns)];
      if template.Some? {
        r := CopyAllObjects(template.value, id);
        if r.Err? { projects := saved; }
      } else {
        r := Ok(());
      }
    }

    /** internal/db/copy.go: close what the source does not list, then insert what the target does not have. */
    method CloneObjects(source: int, target: int, version: int, newVersion: int) returns (ok: bool)
      modifies `objects
      ensures match CloneRows(old(objects), source, target, version, newVersion)
              case UniqueViolation => !ok && objects == old(objects)
              case Done(rows) => ok && objects == rows
    {
      var toRemove := Listing(objects, target, newVersion - 1) - Listing(objects, source, version);
      var closed := CloseRows(objects, Unlisted(target, toRemove), newVersion);
      if closed.UniqueViolation? { return false; }
      objects := closed.value;
      objects := objects + CloneNew(objects, source, target, version, newVersion);
      return true;
    }

    method CloneToProject(source: int, target: int, version: int) returns (r: Result<int>)
      modifies this
      ensures match S.Clone(old(State()), source, target, version)
              case Err(e) => r == Err(e) && State() == old(State())
              case Ok(res) => r == Ok(res.1) && State() == res.0
      ensures old(Valid()) ==> Valid()
    {
      r := CloneTransaction(source, target, version);
      if old(Valid()) {
        CloneKeepsValid(old(State()), regex, source, target, version);
      }
    }

    method CloneTransaction(source: int, target: int, version: int) returns (r: Result<int>)
      modifies this
      ensures match S.Clone(old(State()), source, target, version)
              case Err(e) => r == Err(e) && State() == old(State())
              case Ok(res) => r == Ok(res.1) && State() == res.0
    {
      if PatternsOf(projects, source) != PatternsOf(projects, target) { return Err(PatternsDiffer); }
      if target !in projects { return Err(ProjectNotFound); }
      var newVersion := projects[target].latest + 1;
      var ok := CloneObjects(source, target, version, newVersion);
      if !ok { return Err(IndexViolated); }
      UpdateLatestVersion(target, newVersion);
      return Ok(newVersion);
    }

    /** internal/db/reset.go: the three statements of ResetProject. */
    method ResetProject(project: int, version: int) returns (ok: bool)
      modifies `objects, `projects
      ensures match S.Rollback(old(State()), project, version)
              case Err(_) => !ok
              case Ok(db) => ok && State() == db
    {
      UpdateLatestVersion(project, version);
      objects := set r | r in objects && !(r.project == project && r.start > version);
      assert objects == DropAfter(old(objects), project, version);
      if Violates(objects, StoppedAfter(project, version), None) { return false; }
      objects := SetStop(objects, StoppedAfter(project, version), None);
      return true;
    }

    method Rollback(project: int, version: int) returns (r: Result<()>)
      modifies this
      ensures match S.Rollback(old(State()), project, version)
              case Err(e) => r == Err(e) && State() == old(State())
              case Ok(db) => r.Ok? && State() == db
      ensures old(Valid()) && (project in old(projects) ==> version >= 0) ==> Valid()
    {
      if old(Valid()) {
        if project in projects {
          RollbackKeepsValidIff(State(), regex, project, version);
        } else {
          RollbackOfNothing(State(), regex, project, version);
        }
      }
      var savedProjects, savedObjects := projects, objects;
      var ok := ResetProject(project, version);
      if !ok {
        projects, objects := savedProjects, savedObjects;
        return Err(IndexViolated);
      }
      return Ok(());
    }

    /** Lists every project with its latest version, in no particular order. */
    method Snapshot() returns (snapshot: seq<(int, int)>)
      ensures IsSnapshot(snapshot, State())
    {
      snapshot := [];
      var rest := set id | id in projects;
      while exists id :: id in rest
        invariant forall id :: id in rest ==> id in projects
        invariant forall s :: s in snapshot ==> s.0 in projects && s.0 !in rest && s.1 == projects[s.0].latest
        invariant forall id :: id in projects && id !in rest ==> (id, projects[id].latest) in snapshot
        invariant forall i, j :: 0 <= i < j < |snapshot| ==> snapshot[i].0 != snapshot[j].0
        decreases rest
      {
        var id :| id in rest;
        snapshot := snapshot + [(id, projects[id].latest)];
        rest := rest - {id};
      }
    }

    method Reset(snapshot: seq<(int, int)>) returns (r: Result<()>)
      modifies this
      ensures match S.Reset(old(State()), snapshot)
              case Err(e) => r == Err(IndexViolated) && State() == old(State())
              case Ok(db) => r.Ok? && State() == db
    {
      if snapshot == [] {
        projects, objects, contents := map[], {}, map[];
        return Ok(());
      }
      var savedProjects, savedObjects := projects, objects;
      for i := 0 to |snapshot|
        invariant RollbackAll(old(State()), snapshot[..i]) == Ok(State()) && contents == old(contents)
      {
        assert snapshot[..i + 1][..i] == snapshot[..i];
        var ok := ResetProject(snapshot[i].0, snapshot[i].1);
        if !ok {
          RollbackFailsForGood(old(State()), snapshot, i + 1);
          projects, objects := savedProjects, savedObjects;
          return Err(IndexViolated);
        }
      }
      assert snapshot[..|snapshot|] == snapshot;
      var ids := set s | s in snapshot :: s.0;
      projects := map id | id in projects && id in ids :: projects[id];
      objects := set r | r in objects && r.project in ids;
      return Ok(());
    }

    // ----- internal/db/gc.go -----

    /** Deletes the collected rows and returns their hashes, in no particular order. */
    method GcProjectObjects(project: int, keep: int, from: int) returns (hashes: seq<Hash>)
      modifies `objects
      ensures objects == CollectRows(old(State()), project, keep, from)
      ensures Elements(hashes) == HashesOfDeleted(old(objects), objects)
      ensures |hashes| == |old(objects) - objects|
    {
      var kept := if project in projects then GcRows(objects, project, projects[project].latest, keep, from) else objects;
      var deleted := objects - kept;
      objects := kept;
      hashes := [];
      ghost var all := deleted;
      while deleted != {}
        invariant deleted <= all && |hashes| + |deleted| == |all|
        invariant forall h :: h in hashes <==> exists r :: r in all && r !in deleted && r.hash == h
        decreases deleted
      {
        var row :| row in deleted;
        hashes := hashes + [row.hash];
        deleted := deleted - {row};
      }
      SameHashes(hashes, old(objects), objects);
    }

    /** Deletes the requested contents that no row refers to, 500 hashes at a time, and counts them. */
    method GcContentHashes(hashes: seq<Hash>) returns (count: nat)
      modifies `contents
      ensures var missing := Missing(objects, old(contents), Elements(hashes));
              contents == old(contents) - missing && count == |missing|
      ensures L.LosesUnused(objects, old(contents), contents, Elements(hashes)) && count == |old(contents)| - |contents|
    {
      if |hashes| == 0 {
        assert Missing(objects, contents, Elements(hashes)) == {};
        L.MissingIsUnused(objects, contents, Elements(hashes));
        return 0;
      }
      count := 0;
      var chunks := Chunk(hashes, 500);
      ghost var done: set<Hash> := {};
      assert Missing(objects, contents, {}) == {};
      for i := 0 to |chunks|
        invariant done == Elements(Flatten(chunks[..i]))
        invariant contents == old(contents) - Missing(objects, old(contents), done)
        invariant count == |Missing(objects, old(contents), done)|
      {
        var part := Elements(chunks[i]);
        var missing := Missing(objects, contents, part);
        FlattenAppend(chunks, i);
        MissingSplit(objects, old(contents), done, part);
        contents := contents - missing;
        count := count + |missing|;
        done := done + part;
      }
      assert chunks[..|chunks|] == chunks;
      RemovedCount(old(contents), Missing(objects, old(contents), Elements(hashes)));
      L.MissingIsUnused(objects, old(contents), Elements(hashes));
    }

    method GcProject(project: int, keep: int, from: Option<int>) returns (r: Result<int>)
      modifies this
      ensures match S.GcProject(old(State()), project, keep, if from.Some? then from.value else 0)
              case Err(e) => r == Err(e) && State() == old(State())
              case Ok(db) => r == Ok(|old(contents)| - |contents|) && State() == db
      ensures r.Ok? ==> L.LeavesNoTrace(old(State()), State())
      ensures old(Valid()) ==> Valid()
    {
      if keep <= 0 { return Err(InvalidKeep); }
      var start := if from.Some? then from.value else 0;
      var count := GcTransactions(project, keep, start);
      CollectedBy(old(State()), project, keep, start, objects, contents);
      L.GcProjectDoes(old(State()), project, keep, start);
      if old(Valid()) {
        GcKeepsValid(old(State()), regex, project, keep, start);
      }
      return Ok(count);
    }

    /** The two statements, each of which commits on its own. */
    method GcTransactions(project: int, keep: int, start: int) returns (count: nat)
      modifies `objects, `contents
      ensures objects == CollectRows(old(State()), project, keep, start)
      ensures contents == old(contents) - Missing(objects, old(contents), HashesOfDeleted(old(objects), objects))
      ensures count == |old(contents)| - |contents|
    {
      var hashes := GcProjectObjects(project, keep, start);
      count := GcContentHashes(hashes);
    }
  }

  lemma CollectedBy(a: Db, project: int, keep: int, from: int, rows: set<Row>, contents: map<Hash, Blob>)
    requires keep > 0 && rows == CollectRows(a, project, keep, from)
    requires contents == a.contents - Missing(rows, a.contents, HashesOfDeleted(a.objects, rows))
    ensures S.GcProject(a, project, keep, from) == Ok(Db(a.projects, rows, contents))
  {
  }

  function Elements(hashes: seq<Hash>): set<Hash> {
    set h | h in hashes
  }

  lemma SameHashes(hashes: seq<Hash>, before: set<Row>, after: set<Row>)
    requires forall h :: h in hashes <==> exists r :: r in before && r !in after && r.hash == h
    ensures Elements(hashes) == HashesOfDeleted(before, after)
  {
  }

  lemma RemovedCount(m: map<Hash, Blob>, gone: set<Hash>)
    requires gone <= m.Keys
    ensures |m - gone| == |m| - |gone|
  {
  }

  lemma {:induction false} RollbackFailsForGood(db: Db, snapshot: seq<(int, int)>, n: nat)
    requires n <= |snapshot| && RollbackAll(db, snapshot[..n]).Err?
    ensures RollbackAll(db, snapshot).Err?
    decreases |snapshot| - n
  {
    if n < |snapshot| {
      assert snapshot[..n + 1][..n] == snapshot[..n];
      RollbackFailsForGood(db, snapshot, n + 1);
    } else {
      assert snapshot[..n] == snapshot;
    }
  }

  /** chunk: pieces of the given size, the last one possibly shorter. */
  method Chunk<T>(items: seq<T>, size: nat) returns (chunks: seq<seq<T>>)
    requires size > 0
    ensures Flatten(chunks) == items && chunks != []
    ensures forall i :: 0 <= i < |chunks| - 1 ==> |chunks[i]| == size
    ensures |chunks[|chunks| - 1]| <= size
  {
    var rest := items;
    chunks := [];
    while size < |rest|
      invariant Flatten(chunks) + rest == items
      invariant forall i :: 0 <= i < |chunks| ==> |chunks[i]| == size
      decreases |rest|
    {
      FlattenSnoc(chunks, rest[..size]);
      chunks := chunks + [rest[..size]];
      rest := rest[size..];
    }
    FlattenSnoc(chunks, rest);
    chunks := chunks + [rest];
  }

  lemma {:induction false} FlattenSnoc<T>(parts: seq<seq<T>>, last: seq<T>)
    ensures Flatten(parts + [last]) == Flatten(parts) + last
  {
    if parts == [] {
      assert Flatten([last][1..]) == [];
    } else {
      assert (parts + [last])[1..] == parts[1..] + [last];
      FlattenSnoc(parts[1..], last);
    }
  }

  lemma FlattenAppend<T>(parts: seq<seq<T>>, i: nat)
    requires i < |parts|
    ensures Flatten(parts[..i + 1]) == Flatten(parts[..i]) + parts[i]
  {
    assert parts[..i + 1] == parts[..i] + [parts[i]];
    FlattenSnoc(parts[..i], parts[i]);
  }

  /** Deleting in two steps deletes the same contents once, even if a hash is in both. */
  lemma MissingSplit(rows: set<Row>, contents: map<Hash, Blob>, a: set<Hash>, b: set<Hash>)
    ensures var first := Missing(rows, contents, a);
            var second := Missing(rows, contents - first, b);
            && Missing(rows, contents, a + b) == first + second
            && first !! second
            && |Missing(rows, contents, a + b)| == |first| + |second|
            && contents - first - second == contents - Missing(rows, contents, a + b)
  {
  }

  lemma {:induction false} SomeIteration(groups: Groups) returns (order: seq<Path>)
    ensures Iterates(order, groups)
    decreases |groups|
  {
    order := [];
    var remaining := groups.Keys;
    while remaining != {}
      invariant remaining <= groups.Keys && Distinct(order)
      invariant forall p :: p in order <==> p in groups && p !in remaining
      decreases remaining
    {
      var p :| p in remaining;
      order := order + [p];
      remaining := remaining - {p};
    }
  }

  /**
    The update of an identified stream is the update of its project, and keeps the database valid if its batch is safe.
    RoutedByTargetIff says what happens to the others.
  */
  lemma UpdateIsRoutedByTarget(a: Db, b: Db, regex: Regex, messages: seq<Message>, authorized: int, r: Result<int>)
    requires Valid(a, regex) && GoesThrough(messages, authorized, a.projects)
    requires UpdateStepBy(a, b, RoutingOf(regex, a.projects, messages), TargetProject(messages, authorized), Batch(messages), r)
    ensures TargetProject(messages, authorized) == messages[0].project <==> Identified(messages, authorized)
    ensures Identified(messages, authorized) ==> UpdateStep(a, b, regex, TargetProject(messages, authorized), Batch(messages), r)
    ensures Identified(messages, authorized) && SafeUpdate(a, regex, TargetProject(messages, authorized), Batch(messages)) ==> Valid(b, regex)
  {
    FirstIsTargetIff(messages, authorized, a.projects);
    if Identified(messages, authorized) && SafeUpdate(a, regex, TargetProject(messages, authorized), Batch(messages)) {
      UpdateKeepsValid(a, b, regex, TargetProject(messages, authorized), Batch(messages), r);
    }
  }
}
