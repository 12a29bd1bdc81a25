/**
  Concrete inputs on which the program does not do what one would expect of it. Each belongs
  to a family that an if-and-only-if elsewhere describes completely; its name is given.
*/
module Examples {
  import opened Paths
  import opened TarFormat
  import opened PackMerge
  import opened Table
  import opened Difference
  import opened Statements
  import opened PackWrites
  import opened UpdateLaws
  import S = Store
  import P = ClientProtocol
  import G = GetLaws
  import O = ObjectStreams
  import C = ContentCache
  import V = Server
  import W = Transport

  /** No pattern packs anything. */
  const NO_PACKS: Matcher := (_: Path) => false

  const PACKS_A: Matcher := (p: Path) => p == "a/"

  const EMPTY_FILE := File(0, [])

  function EmptyObject(path: Path): Object {
    Object(path, 0, 0, false, [])
  }

  function EmptyRow(start: int, stop: Option<int>, path: Path): Row {
    Row(1, start, stop, path, HashContent(Loose([])), 0, 0, false)
  }

  lemma NothingPacked(pk: Matcher, p: Path)
    requires forall q :: !pk(q)
    ensures PackParent(pk, p) == None
  {
    FirstMatchIsShortest(pk, p + "/", 0);
  }

  // ----- Two writes of one path -----

  /** A batch that sets one path twice, differently, leaves two live rows: LooseLaws.SafeOnEveryStoreIff. */
  lemma SetTwice(v: int)
    ensures var a, b := EmptyObject("x"), EmptyObject("x").(mode := 1);
            LoosePhase({}, 1, v, [a, b]) == Done(Written({LooseRow(1, v, a), LooseRow(1, v, b)}, true))
  {
    var a, b := EmptyObject("x"), EmptyObject("x").(mode := 1);
    var ra, rb := LooseRow(1, v, a), LooseRow(1, v, b);
    assert [a, b][..1] == [a] && [a][..0] == [];
    NothingReplaced({ra}, v, a);
    assert {} + {ra} == {ra};
    assert LooseStep({}, 1, v, a) == Done(Written({ra}, true));
    assert LoosePhase({}, 1, v, [a]) == Done(Written({ra}, true));
    assert !Conflicts({ra}, rb);
    assert {ra} + {rb} == {ra, rb};
    NothingReplaced({ra, rb}, v, b);
  }

  /** Rows of the version that is being written are never closed. */
  lemma NothingReplaced(rows: set<Row>, v: int, o: Object)
    requires forall r :: r in rows ==> r.start == v
    requires forall r, s :: r in rows && s in rows && r != s ==> !Clash(r, s)
    ensures CloseRows(rows, Replaced(1, v, o.path), v) == Done(rows)
  {
    assert SetStop(rows, Replaced(1, v, o.path), Some(v)) == rows;
  }

  // ----- The client's shortcut -----

  /** Version 1 added "x" and "y". */
  const SHARED := S.Db(map[1 := S.Project(1, None)], {EmptyRow(1, None, "x"), EmptyRow(1, None, "y")},
                       map[HashContent(Loose([])) := Loose([])])

  /** A client at version 0 that added "x", too. */
  const OWN_X: Directory := map["x" := EMPTY_FILE]

  lemma SharedIsGood(pk: Matcher)
    requires PackParent(pk, "x") == None && PackParent(pk, "y") == None
    ensures Good(SHARED.objects, 1, 1, pk)
    ensures "y" in Files(SHARED.objects, 1, 1, pk) && Files(SHARED.objects, 1, 0, pk) == map[]
  {
    FileFromRow(SHARED.objects, 1, 1, 1, pk, EmptyRow(1, None, "y"), "y");
    VersionZeroIsEmpty(SHARED.objects, 1, 1, pk);
  }

  lemma SharedIsValid(regex: S.Regex)
    ensures S.Valid(SHARED, regex) && "y" in S.FilesOf(SHARED, regex, 1, 1) && S.FilesOf(SHARED, regex, 1, 0) == map[]
  {
    NoPatterns(SHARED.projects, regex);
    SharedIsGood(S.MatcherOf(regex, SHARED.projects, 1));
    SharedIsComplete();
    OneProject(SHARED, regex);
  }

  lemma SharedIsComplete()
    ensures SHARED.projects.Keys == {1} && SHARED.projects[1].latest == 1
    ensures forall r :: r in SHARED.objects ==> r.project == 1 && r.hash in SHARED.contents
    ensures forall h :: h in SHARED.contents ==> h == HashContent(SHARED.contents[h])
  {
  }

  lemma NoPatterns(projects: map<int, S.Project>, regex: S.Regex)
    requires 1 in projects && projects[1].patterns == None
    ensures forall p :: PackParent(S.MatcherOf(regex, projects, 1), p) == None
  {
    forall p ensures PackParent(S.MatcherOf(regex, projects, 1), p) == None {
      NothingPacked(S.MatcherOf(regex, projects, 1), p);
    }
  }

  lemma OneProject(a: S.Db, regex: S.Regex)
    requires a.projects.Keys == {1} && a.projects[1].latest == 1
    requires Good(a.objects, 1, 1, S.MatcherOf(regex, a.projects, 1))
    requires forall r :: r in a.objects ==> r.project == 1 && r.hash in a.contents
    requires forall h :: h in a.contents ==> h == HashContent(a.contents[h])
    ensures S.Valid(a, regex)
  {
  }

  /** What the client did is an edit of version 0, and brings nothing new to the server. */
  lemma OwnXIsAnEdit(a: S.Db, regex: S.Regex)
    requires 1 in a.projects && a.projects[1] == S.Project(1, None) && EmptyRow(1, None, "x") in a.objects
    requires S.FilesOf(a, regex, 1, 0) == map[]
    ensures P.EditedLocally(a, regex, 1, 0, OWN_X, [EmptyObject("x")])
    ensures S.UpdateStep(a, a, regex, 1, [EmptyObject("x")], S.Ok(1))
  {
    var pk := S.MatcherOf(regex, a.projects, 1);
    NoPatterns(a.projects, regex);
    QuietUpdateStep(a, regex, pk);
    NothingReceived();
    EditOfNothing(pk, [EmptyObject("x")], OWN_X);
  }

  lemma NothingReceived()
    ensures W.Received(map[]) == map[]
  {
  }

  /** Sending the same "x", the client records version 1 without ever getting "y": ClientProtocol.ShortcutWithoutUpdateIff. */
  lemma ShortcutMissesFile(regex: S.Regex)
    ensures S.Valid(SHARED, regex) && P.EditedLocally(SHARED, regex, 1, 0, OWN_X, [EmptyObject("x")])
    ensures S.UpdateStep(SHARED, SHARED, regex, 1, [EmptyObject("x")], S.Ok(1))
    ensures P.Finished(OWN_X, 0, 1, 1, []) == (OWN_X, 1)
    ensures "y" !in OWN_X && "y" in S.FilesOf(SHARED, regex, 1, 1)
  {
    SharedIsValid(regex);
    OwnXIsAnEdit(SHARED, regex);
  }

  lemma QuietUpdateStep(a: S.Db, regex: S.Regex, pk: Matcher)
    requires 1 in a.projects && a.projects[1].latest == 1 && EmptyRow(1, None, "x") in a.objects
    requires pk == S.MatcherOf(regex, a.projects, 1) && PackParent(pk, "x") == None
    ensures S.UpdateStep(a, a, regex, 1, [EmptyObject("x")], S.Ok(1)) && ProperBatch(pk, [EmptyObject("x")])
  {
    QuietBatch(a.objects, pk, [EmptyObject("x")]);
    assert S.Updates(a, a, pk, 1, [EmptyObject("x")], [], S.Ok(1));
  }

  lemma QuietBatch(rows: set<Row>, pk: Matcher, batch: seq<Object>)
    requires batch == [EmptyObject("x")] && EmptyRow(1, None, "x") in rows && PackParent(pk, "x") == None
    ensures LooseOps(pk, batch) == batch && GroupsOf(pk, batch) == map[] && Iterates([], GroupsOf(pk, batch))
    ensures UpdateRows(rows, 1, 2, pk, batch, []) == Done(Written(rows, false))
  {
    assert batch[..0] == [];
    assert Select(batch[..0], IsLoose(pk)) == [];
    assert Parents(pk, batch) == {};
    assert Clash(LooseRow(1, 2, batch[0]), EmptyRow(1, None, "x"));
    assert LooseStep(rows, 1, 2, batch[0]) == Done(Written(rows, false));
    assert LoosePhase(rows, 1, 2, batch[..0]) == Done(Written(rows, false));
  }

  lemma EditOfNothing(pk: Matcher, batch: seq<Object>, dir: Directory)
    requires batch == [EmptyObject("x")] && dir == map["x" := EMPTY_FILE] && PackParent(pk, "x") == None
    ensures IsEdit(dir, map[], pk, batch)
  {
    forall k ensures Get(dir, k) == Edited(map[], pk, batch, k) {
      assert FindUpdate(batch[1..], k) == None;
    }
  }

  // ----- Catching up after a later commit -----

  /**
    Version 1 added "z", a client at version 0 added "x" as version 2, and version 3 deleted "x" again before the client
    caught up: the difference from 0 to 3 does not mention "x", and the client keeps it. ClientProtocol.CatchUpIff.
  */
  lemma DeletedAgainStays(cs: seq<Change>)
    requires Carries(cs, {EmptyRow(1, None, "z"), EmptyRow(2, Some(3), "x")}, 1, 0, 3)
    ensures var rows := {EmptyRow(1, None, "z"), EmptyRow(2, Some(3), "x")};
            && Good(rows, 1, 3, NO_PACKS)
            && "x" in ApplyAll(map["x" := EMPTY_FILE], cs) && "x" !in Files(rows, 1, 3, NO_PACKS)
  {
    var z, x := EmptyRow(1, None, "z"), EmptyRow(2, Some(3), "x");
    NothingPacked(NO_PACKS, "x");
    NothingPacked(NO_PACKS, "z");
    assert Good({z, x}, 1, 3, NO_PACKS);
    FilesGet({z, x}, 1, 3, 3, NO_PACKS, "x");
    forall c | c in cs ensures c == PutFile("z", EMPTY_FILE) {
      assert c in Diff({z, x}, 1, 0, 3);
    }
    OnlyWrites(cs, "z", "x");
  }

  lemma {:induction false} OnlyWrites(cs: seq<Change>, path: Path, k: Path)
    requires !Covers(k, path) && k != path
    requires forall c :: c in cs ==> c == PutFile(path, EMPTY_FILE)
    ensures k in ApplyAll(map[k := EMPTY_FILE], cs)
  {
    if cs != [] {
      var n := |cs| - 1;
      assert forall c :: c in cs[..n] ==> c in cs;
      OnlyWrites(cs[..n], path, k);
      assert cs[n] in cs;
    }
  }

  // ----- A client without edits -----

  /** An empty project that was written to once. */
  const WRITTEN_ONCE := S.Db(map[1 := S.Project(1, None)], {}, map[])

  const DELETE_Q := [Object("q", 0, 0, true, [])]

  /**
    A client without edits: deleting what was never there makes version 2, the rebuild from 0 has nothing to say, and the
    client goes on recording version 0. Its directory is right. ClientProtocol.RecordsIff.
  */
  lemma NothingToRecord(regex: S.Regex)
    ensures S.Valid(WRITTEN_ONCE, regex) && P.EditedLocally(WRITTEN_ONCE, regex, 1, 0, map[], DELETE_Q)
    ensures var b := WRITTEN_ONCE.(projects := map[1 := S.Project(2, None)]);
            && S.UpdateStep(WRITTEN_ONCE, b, regex, 1, DELETE_Q, S.Ok(2))
            && P.Streams([], b, 1, 0) && P.Finished(map[], 0, 2, 2, []) == (map[], 0) && S.FilesOf(b, regex, 1, 2) == map[]
  {
    NothingReceived();
    NoPatterns(WRITTEN_ONCE.projects, regex);
    OneProject(WRITTEN_ONCE, regex);
    DeletingNothing(S.MatcherOf(regex, WRITTEN_ONCE.projects, 1));
    NothingWritten(regex);
  }

  lemma NothingWritten(regex: S.Regex)
    ensures var b := WRITTEN_ONCE.(projects := map[1 := S.Project(2, None)]);
            && S.FilesOf(WRITTEN_ONCE, regex, 1, 0) == map[] == S.FilesOf(b, regex, 1, 2)
            && S.UpdateStep(WRITTEN_ONCE, b, regex, 1, DELETE_Q, S.Ok(2))
            && P.Streams([], b, 1, 0)
  {
    var b := WRITTEN_ONCE.(projects := map[1 := S.Project(2, None)]);
    var pk := S.MatcherOf(regex, WRITTEN_ONCE.projects, 1);
    NoPatterns(WRITTEN_ONCE.projects, regex);
    DeletingNothing(pk);
    assert PathsAt({}, 1, 0) == {} && PathsAt({}, 1, 2) == {};
    assert S.Updates(WRITTEN_ONCE, b, pk, 1, DELETE_Q, [], S.Ok(2));
    assert Diff({}, 1, 0, 2) == {};
  }

  lemma DeletingNothing(pk: Matcher)
    requires PackParent(pk, "q") == None
    ensures IsEdit(map[], map[], pk, DELETE_Q) && ProperBatch(pk, DELETE_Q) && Iterates([], GroupsOf(pk, DELETE_Q))
    ensures UpdateRows({}, 1, 2, pk, DELETE_Q, []) == Done(Written({}, true))
  {
    DeletionIsProper(pk);
    DeletionRows(pk);
    DeletionEdit(pk);
  }

  lemma DeletionIsProper(pk: Matcher)
    requires PackParent(pk, "q") == None
    ensures ProperBatch(pk, DELETE_Q) && Iterates([], GroupsOf(pk, DELETE_Q))
  {
    DeletionIsLoose(pk);
  }

  lemma DeletionRows(pk: Matcher)
    requires PackParent(pk, "q") == None && Iterates([], GroupsOf(pk, DELETE_Q))
    ensures UpdateRows({}, 1, 2, pk, DELETE_Q, []) == Done(Written({}, true))
  {
    DeletionIsLoose(pk);
    DeletionPhase();
    NoPacksNoChange({}, GroupsOf(pk, DELETE_Q));
  }

  lemma NoPacksNoChange(rows: set<Row>, groups: Groups)
    ensures PackPhase(rows, 1, 2, [], groups) == Done(Written(rows, false))
  {
  }

  lemma DeletionEdit(pk: Matcher)
    ensures IsEdit(map[], map[], pk, DELETE_Q)
  {
    forall k ensures Edited(map[], pk, DELETE_Q, k) == None {
      assert FindUpdate(DELETE_Q[1..], k) == None;
    }
  }

  lemma DeletionIsLoose(pk: Matcher)
    requires PackParent(pk, "q") == None
    ensures LooseOps(pk, DELETE_Q) == DELETE_Q && GroupsOf(pk, DELETE_Q) == map[]
  {
    assert DELETE_Q[..0] == [] && Select(DELETE_Q[..0], IsLoose(pk)) == [];
    assert Parents(pk, DELETE_Q) == {};
  }

  lemma DeletionPhase()
    ensures LoosePhase({}, 1, 2, DELETE_Q) == Done(Written({}, true))
  {
    assert DELETE_Q[..0] == [];
    assert SetStop({}, LiveAtPath(1, "q"), Some(2)) == {};
    assert LoosePhase({}, 1, 2, DELETE_Q[..0]) == Done(Written({}, false));
  }

  // ----- Modes -----

  /** A file with the setuid bit, mode 0x0080_01ED, arrives without it: RebuildLaws.RebuildIsExactIff. */
  lemma SetuidIsLost(content: Bytes)
    ensures !Plain(0x0080_01ED, content)
    ensures W.Sent(PutFile("run", File(0x0080_01ED, content))) == PutFile("run", File(0x1ED, content))
  {
  }

  // ----- An administrator and the project -1 -----

  /** The project -1 has no patterns; project 1 packs "a/". */
  const TWO_PROJECTS := S.Db(map[-1 := S.Project(0, None), 1 := S.Project(0, Some(["a"]))], {}, map[])

  const MIXED := [V.Message(-1, EmptyObject("z")), V.Message(1, EmptyObject("a/x"))]

  const AFTER_MIXED := S.Db(map[-1 := S.Project(0, None), 1 := S.Project(1, Some(["a"]))],
                            {EmptyRow(1, None, "z"), EmptyRow(1, None, "a/x")}, map[HashContent(Loose([])) := Loose([])])

  /**
    A stream whose first message is for the project -1 is routed by that project's patterns although the rest is for
    project 1: "a/x" becomes a loose row of a project that packs "a/". Server.RoutedByTargetIff.
  */
  lemma BorrowedPatterns(regex: S.Regex)
    requires regex("a") == PACKS_A
    ensures V.GoesThrough(MIXED, -1, TWO_PROJECTS.projects) && V.TargetProject(MIXED, -1) == 1 && !V.Identified(MIXED, -1)
    ensures S.UpdateStepBy(TWO_PROJECTS, AFTER_MIXED, V.RoutingOf(regex, TWO_PROJECTS.projects, MIXED), 1, V.Batch(MIXED), S.Ok(1))
    ensures S.Valid(TWO_PROJECTS, regex) && !S.Valid(AFTER_MIXED, regex)
  {
    MixedGoesThrough();
    MixedStep(regex);
    MixedStartsValid(regex);
    MixedIsInvalid(regex);
  }

  lemma MixedStartsValid(regex: S.Regex)
    ensures S.Valid(TWO_PROJECTS, regex)
  {
  }

  lemma MixedStep(regex: S.Regex)
    ensures S.UpdateStepBy(TWO_PROJECTS, AFTER_MIXED, V.RoutingOf(regex, TWO_PROJECTS.projects, MIXED), 1, V.Batch(MIXED), S.Ok(1))
  {
    var pk := V.RoutingOf(regex, TWO_PROJECTS.projects, MIXED);
    assert V.Batch(MIXED) == [EmptyObject("z"), EmptyObject("a/x")];
    NothingPacked(pk, "z");
    NothingPacked(pk, "a/x");
    MixedUpdate(pk);
    assert S.Updates(TWO_PROJECTS, AFTER_MIXED, pk, 1, V.Batch(MIXED), [], S.Ok(1));
  }

  lemma MixedGoesThrough()
    ensures V.GoesThrough(MIXED, -1, TWO_PROJECTS.projects) && V.TargetProject(MIXED, -1) == 1
  {
    assert MIXED[..0] == [] && MIXED[..1] == [MIXED[0]] && MIXED[..1][..0] == [];
    assert V.TargetProject(MIXED[..1], -1) == -1;
  }

  lemma MixedUpdate(pk: Matcher)
    requires PackParent(pk, "z") == None && PackParent(pk, "a/x") == None
    ensures var batch := [EmptyObject("z"), EmptyObject("a/x")];
            && Iterates([], GroupsOf(pk, batch))
            && UpdateRows({}, 1, 1, pk, batch, []) == Done(Written(AFTER_MIXED.objects, true))
  {
    MixedRouting(pk);
    MixedRows();
  }

  lemma MixedRouting(pk: Matcher)
    requires PackParent(pk, "z") == None && PackParent(pk, "a/x") == None
    ensures var batch := [EmptyObject("z"), EmptyObject("a/x")]; LooseOps(pk, batch) == batch && GroupsOf(pk, batch) == map[]
  {
    var batch := [EmptyObject("z"), EmptyObject("a/x")];
    assert batch[..1] == [batch[0]] && batch[..1][..0] == [];
    assert Select(batch[..1], IsLoose(pk)) == [batch[0]];
    assert Parents(pk, batch) == {};
  }

  lemma MixedRows()
    ensures LoosePhase({}, 1, 1, [EmptyObject("z"), EmptyObject("a/x")]) == Done(Written(AFTER_MIXED.objects, true))
  {
    var z, x := EmptyObject("z"), EmptyObject("a/x");
    var rz, rx := EmptyRow(1, None, "z"), EmptyRow(1, None, "a/x");
    assert [z, x][..1] == [z] && [z][..0] == [];
    assert {} + {rz} == {rz} && {rz} + {rx} == {rz, rx};
    NothingReplaced({rz}, 1, z);
    assert LoosePhase({}, 1, 1, [z]) == Done(Written({rz}, true));
    assert !Conflicts({rz}, rx);
    NothingReplaced({rz, rx}, 1, x);
  }

  lemma MixedIsInvalid(regex: S.Regex)
    requires regex("a") == PACKS_A
    ensures !S.Valid(AFTER_MIXED, regex)
  {
    var pk := S.MatcherOf(regex, AFTER_MIXED.projects, 1);
    assert S.Matchers(regex, ["a"])[0]("a/");
    PackParentChar(pk, "a/x", "a/");
    assert !RowRouted(EmptyRow(1, None, "a/x"), pk);
    assert S.Valid(AFTER_MIXED, regex) ==> S.GoodProject(AFTER_MIXED, regex, 1);
  }

  // ----- A marker above a pack -----

  const PACKS_DP: Matcher := (p: Path) => p == "d/p/"

  /** The empty directory "d/", of version 1. */
  function Marker(): Row {
    Row(1, 1, None, "d/", HashContent(Loose([])), MODE_DIR, 0, false)
  }

  /** What version 2 adds beneath it. */
  function PackBeneath(): Row {
    PackRow(1, 2, "d/p/", [Encode(EmptyObject("d/p/x"))])
  }

  lemma MarkerIsGood()
    ensures Good({Marker(), PackBeneath()}, 1, 2, PACKS_DP)
    ensures PackParent(PACKS_DP, "d/") == None && PackParent(PACKS_DP, "d/p/x") == Some("d/p/")
  {
    assert "d/" + "/" == "d//";
    FirstMatchIsShortest(PACKS_DP, "d//", 0);
    PackParentChar(PACKS_DP, "d/p/x", "d/p/");
    PackParentChar(PACKS_DP, "d/p/", "d/p/");
    assert RowRouted(Marker(), PACKS_DP) && RowRouted(PackBeneath(), PACKS_DP);
  }

  /**
    A packed write beneath an empty directory leaves the marker: version 2 shows both "d/" and "d/p/x", and is no tree. The
    difference from version 1 puts the pack, which clears the marker: the client loses it. TreeLaws.EditKeepsTreesIff,
    Difference.EveryOrderReachesTargetIff.
  */
  lemma MarkerStaysAbovePack()
    ensures var rows, put := {Marker(), PackBeneath()}, PutPack("d/p/", [Encode(EmptyObject("d/p/x"))]);
            && Good(rows, 1, 2, PACKS_DP) && Carries([put], rows, 1, 1, 2)
            && "d/" in Files(rows, 1, 2, PACKS_DP) && "d/p/x" in Files(rows, 1, 2, PACKS_DP)
            && "d/" !in ApplyAll(Files(rows, 1, 1, PACKS_DP), [put])
  {
    var rows, put := {Marker(), PackBeneath()}, PutPack("d/p/", [Encode(EmptyObject("d/p/x"))]);
    MarkerIsGood();
    MarkerFiles();
    MarkerCarried();
    PackClearsMarker(Files(rows, 1, 1, PACKS_DP), put);
  }

  lemma MarkerCarried()
    ensures Carries([PutOf(PackBeneath())], {Marker(), PackBeneath()}, 1, 1, 2)
  {
    forall c ensures c in [PutOf(PackBeneath())] <==> c in Diff({Marker(), PackBeneath()}, 1, 1, 2) {
      MarkerDifference(c);
    }
  }

  lemma PackClearsMarker(dir: Directory, put: Change)
    requires put == PutPack("d/p/", [Encode(EmptyObject("d/p/x"))])
    ensures "d/" !in ApplyAll(dir, [put])
  {
    assert [put][..0] == [];
    assert Covers("d/", "d/p/");
  }

  lemma MarkerFiles()
    ensures var files := Files({Marker(), PackBeneath()}, 1, 2, PACKS_DP); "d/" in files && "d/p/x" in files
  {
    MarkerIsGood();
    FileFromRow({Marker(), PackBeneath()}, 1, 2, 2, PACKS_DP, Marker(), "d/");
    FileFromRow({Marker(), PackBeneath()}, 1, 2, 2, PACKS_DP, PackBeneath(), "d/p/x");
  }

  lemma MarkerDifference(c: Change)
    ensures c in Diff({Marker(), PackBeneath()}, 1, 1, 2) <==> c == PutOf(PackBeneath())
  {
    var rows := {Marker(), PackBeneath()};
    DiffMember(rows, 1, 1, 2, c);
    assert IsUpdated(PackBeneath(), 1, 1, 2) && !IsUpdated(Marker(), 1, 1, 2);
    assert forall s :: !IsRemoved(rows, 1, 1, 2, s);
  }

  /** It is what the update makes of the directory. */
  lemma MarkerUpdate()
    ensures Iterates(["d/p/"], GroupsOf(PACKS_DP, [EmptyObject("d/p/x")]))
    ensures UpdateRows({Marker()}, 1, 2, PACKS_DP, [EmptyObject("d/p/x")], ["d/p/"]) == Done(Written({Marker(), PackBeneath()}, true))
  {
    MarkerRouting();
    OnePackPhase(map["d/p/" := [EmptyObject("d/p/x")]]);
  }

  lemma OnePackPhase(groups: Groups)
    requires groups == map["d/p/" := [EmptyObject("d/p/x")]]
    ensures PackPhase({Marker()}, 1, 2, ["d/p/"], groups) == Done(Written({Marker(), PackBeneath()}, true))
  {
    OnePackedUpdate(EmptyObject("d/p/x"));
    assert ["d/p/"][..0] == [];
    assert PackPhase({Marker()}, 1, 2, [], groups) == Done(Written({Marker()}, false));
  }

  lemma MarkerRouting()
    ensures LooseOps(PACKS_DP, [EmptyObject("d/p/x")]) == []
    ensures GroupsOf(PACKS_DP, [EmptyObject("d/p/x")]) == map["d/p/" := [EmptyObject("d/p/x")]]
  {
    var o := EmptyObject("d/p/x");
    PackParentChar(PACKS_DP, "d/p/x", "d/p/");
    assert [o][..0] == [] && Select([o][..0], IsLoose(PACKS_DP)) == [] && Select([o][..0], IsRoutedTo(PACKS_DP, "d/p/")) == [];
    assert Parents(PACKS_DP, [o]) == {"d/p/"};
    assert Select([o], IsRoutedTo(PACKS_DP, "d/p/")) == [o];
  }

  lemma OnePackedUpdate(o: Object)
    requires o == EmptyObject("d/p/x")
    ensures PackStepAt({Marker()}, 1, 2, "d/p/", [o]) == Done(Written({Marker(), PackBeneath()}, true))
  {
    OneEntry(o);
    assert ExistingPack({Marker()}, 1, "d/p/") == None;
    assert SetStop({Marker()}, LivePack(1, "d/p/"), Some(2)) == {Marker()};
    assert {Marker()} + {PackBeneath()} == {Marker(), PackBeneath()};
  }

  lemma OneEntry(o: Object)
    requires !o.deleted
    ensures Merge([], SortByPath([o])) == [Encode(o)]
  {
    assert [o][1..] == [];
    assert SortByPath([o]) == [o] && WalkNew({}, [o]) == [o];
    assert Names([]) == {} && WalkOld([], [o]) == [] && [] + [o] == [o];
  }

  // ----- Get -----

  /** One file beside the directory "a/", which is packed. */
  const BESIDE := {EmptyRow(1, None, "ab")}

  lemma PrefixIsMissed()
    ensures G.Missed(PACKS_A, O.Query("a", true), "ab") && PackParent(PACKS_A, "ab") == None
  {
    assert "a" + "/" == "a/" && "ab/"[1] == 'b' && "a/"[1] == '/';
    PackParentChar(PACKS_A, "a", "a/");
    FirstMatchIsShortest(PACKS_A, "ab/", 0);
    assert "ab" + "/" == "ab/";
  }

  /** The version holds "ab", and no answer to a request for the prefix "a" does: GetLaws.GetIsRightIff. */
  lemma PrefixMissesNeighbour(ar: G.Archive, loose: C.Key -> bool, table: C.Contents, listing: seq<G.Found>)
    requires G.Lawful(ar) && G.Held(ar, loose, table, BESIDE)
    requires G.Lists(listing, BESIDE, 1, 0, 1, G.Asked(PACKS_A, O.Query("a", true)))
    ensures Good(BESIDE, 1, 1, PACKS_A) && "ab" in Files(BESIDE, 1, 1, PACKS_A)
    ensures var r := G.Returned(ar, table, listing, O.Query("a", true)); r.Some? && G.Shown(r.value, "ab") == None
  {
    PrefixIsMissed();
    FileFromRow(BESIDE, 1, 1, 1, PACKS_A, EmptyRow(1, None, "ab"), "ab");
    G.GetShows(ar, loose, table, BESIDE, 1, 1, 1, PACKS_A, O.Query("a", true), listing, "ab");
  }

  /** A row of the pack "a/" that ended with version 1. */
  function OldPack(): Row {
    Row(1, 1, Some(2), "a/", HashContent(Pack([Encode(EmptyObject("a/x"))])), 0, PackSize([Encode(EmptyObject("a/x"))]), true)
  }

  function NewPack(): Row {
    Row(1, 2, None, "a/", HashContent(Pack([Encode(EmptyObject("a/y"))])), 0, PackSize([Encode(EmptyObject("a/y"))]), true)
  }

  lemma PacksAreRouted()
    ensures Good({OldPack(), NewPack()}, 1, 2, PACKS_A) && Good({OldPack()}, 1, 2, PACKS_A)
  {
    PackParentChar(PACKS_A, "a/x", "a/");
    PackParentChar(PACKS_A, "a/y", "a/");
    PackParentChar(PACKS_A, "a/", "a/");
    assert RowRouted(OldPack(), PACKS_A) && RowRouted(NewPack(), PACKS_A);
  }

  /** A pack that went away between the two versions makes every request crash: GetLaws.CrashesIff. */
  lemma RemovedPackCrashes(ar: G.Archive, table: C.Contents, q: O.Query)
    requires G.Lawful(ar) && C.AllIntact(ar.cd, _ => false, table)
    ensures Good({OldPack()}, 1, 2, PACKS_A)
    ensures G.Lists([G.Gone(OldPack())], {OldPack()}, 1, 1, 2, G.Asked(PACKS_A, q))
    ensures G.Returned(ar, table, [G.Gone(OldPack())], q) == None
  {
    PacksAreRouted();
    assert G.UpdatedBy({OldPack()}, 1, 1, 2, G.Asked(PACKS_A, q)) == {};
    assert G.RemovedBy({OldPack()}, 1, 1, 2, G.Asked(PACKS_A, q)) == {OldPack()};
    GonePackCrashes(ar, table, q);
  }

  lemma GonePackCrashes(ar: G.Archive, table: C.Contents, q: O.Query)
    requires G.Lawful(ar) && C.AllIntact(ar.cd, _ => false, table)
    ensures G.Returned(ar, table, [G.Gone(OldPack())], q) == None
  {
    G.CrashesIffListed(ar, _ => false, table, {}, PACKS_A, q, [G.Gone(OldPack())]);
    assert [G.Gone(OldPack())][0].row.packed;
  }

  /** A pack that only changed does it too, for a request that does not select it: the skip rules see selected rows only. */
  lemma ChangedPackCrashes(ar: G.Archive, table: C.Contents)
    requires G.Lawful(ar) && C.AllIntact(ar.cd, _ => false, table)
    ensures Good({OldPack(), NewPack()}, 1, 2, PACKS_A)
    ensures G.Lists([G.Gone(OldPack())], {OldPack(), NewPack()}, 1, 1, 2, G.Asked(PACKS_A, O.Query("z", false)))
    ensures G.Returned(ar, table, [G.Gone(OldPack())], O.Query("z", false)) == None
  {
    PacksAreRouted();
    ChangedPackIsListed();
    GonePackCrashes(ar, table, O.Query("z", false));
  }

  lemma ChangedPackIsListed()
    ensures G.Lists([G.Gone(OldPack())], {OldPack(), NewPack()}, 1, 1, 2, G.Asked(PACKS_A, O.Query("z", false)))
  {
    FirstMatchIsShortest(PACKS_A, "z" + "/", 0);
    assert G.Asked(PACKS_A, O.Query("z", false)) == O.Query("z", false);
    assert G.UpdatedBy({OldPack(), NewPack()}, 1, 1, 2, O.Query("z", false)) == {};
    assert G.RemovedBy({OldPack(), NewPack()}, 1, 1, 2, O.Query("z", false)) == {OldPack()};
  }
}
