/**
  What the loose writes of one update do: they keep the store's intervals separate
  exactly as long as no path is written again after it was set, and they have the effect
  of the batch on the objects of the new version.
*/
module LooseLaws {
  import opened Paths
  import opened TarFormat
  import opened PackMerge
  import opened PackLaws
  import opened Table
  import opened Statements

  /** Nothing was written to this path at this version yet. */
  ghost predicate Fresh(rows: set<Row>, project: int, v: int, path: Path) {
    forall r :: r in rows && r.project == project && r.path == path ==> r.start != v
  }

  // ----- Closing rows -----

  lemma ClosingIsSafe(rows: set<Row>, chosen: Row -> bool, project: int, v: int, pk: Matcher)
    requires Good(rows, project, v, pk)
    requires forall r :: r in rows && chosen(r) ==> Live(r, project) && r.start < v
    ensures Good(SetStop(rows, chosen, Some(v)), project, v, pk)
    ensures forall r, s :: r in rows && s in rows && r != s ==> !Clash(Restop(r, chosen, Some(v)), Restop(s, chosen, Some(v))) || r.project != project
  {
    var b := SetStop(rows, chosen, Some(v));
    forall r, s | r in b && s in b && r != s && r.project == s.project == project && r.path == s.path ensures Disjoint(r, s) {
      var q :| q in rows && r == Restop(q, chosen, Some(v));
      var p :| p in rows && s == Restop(p, chosen, Some(v));
      ClosedPair(rows, chosen, project, v, q, p);
    }
    forall r | r in b && r.project == project ensures InBounds(r, v) && RowRouted(r, pk) {
      var q :| q in rows && r == Restop(q, chosen, Some(v));
      assert InBounds(q, v) && RowRouted(q, pk);
    }
    forall r, s | r in rows && s in rows && r != s && r.project == project
      ensures !Clash(Restop(r, chosen, Some(v)), Restop(s, chosen, Some(v)))
    {
      ClosedPair(rows, chosen, project, v, r, s);
    }
  }

  lemma ClosedPair(rows: set<Row>, chosen: Row -> bool, project: int, v: int, q: Row, p: Row)
    requires Intervals(rows, project, v) && q in rows && p in rows && q != p && q.project == project
    requires forall r :: r in rows && chosen(r) ==> Live(r, project) && r.start < v
    ensures var r, s := Restop(q, chosen, Some(v)), Restop(p, chosen, Some(v));
            !Clash(r, s) && (r.project == s.project && r.path == s.path ==> Disjoint(r, s))
  {
  }

  /** The live rows that stay, path by path. */
  lemma ClosedObjects(rows: set<Row>, chosen: Row -> bool, project: int, v: int, pk: Matcher, path: Path)
    requires Good(rows, project, v, pk) && Good(SetStop(rows, chosen, Some(v)), project, v, pk)
    requires forall r :: r in rows && chosen(r) ==> Live(r, project) && r.start < v
    ensures ObjectAt(SetStop(rows, chosen, Some(v)), project, v, path) ==
            if HasRowAt(rows, project, v, path) && !chosen(RowAt(rows, project, v, path))
            then ObjectAt(rows, project, v, path) else None
  {
    var b := SetStop(rows, chosen, Some(v));
    if HasRowAt(rows, project, v, path) && !chosen(RowAt(rows, project, v, path)) {
      var r := RowAt(rows, project, v, path);
      assert r == Restop(r, chosen, Some(v)) && r in b;
      ObjectAtIs(b, project, v, v, r);
    } else if HasRowAt(b, project, v, path) {
      var s := RowAt(b, project, v, path);
      var q :| q in rows && s == Restop(q, chosen, Some(v));
      ObjectAtIs(rows, project, v, v, q);
    }
  }

  lemma AddedRow(rows: set<Row>, row: Row, project: int, v: int, pk: Matcher, path: Path)
    requires Good(rows, project, v, pk) && RowRouted(row, pk)
    requires row.project == project && row.start == v && row.stop == None && v >= 1
    requires !HasRowAt(rows, project, v, row.path)
    ensures Good(rows + {row}, project, v, pk)
    ensures ObjectAt(rows + {row}, project, v, path) == if path == row.path then Some(StoredOf(row)) else ObjectAt(rows, project, v, path)
  {
    var b := rows + {row};
    forall r | r in rows && r.project == project && r.path == row.path ensures Disjoint(r, row) {
      assert !LiveAt(r, project, v);
    }
    if path == row.path {
      ObjectAtIs(b, project, v, v, row);
    } else if HasRowAt(rows, project, v, path) {
      ObjectAtIs(b, project, v, v, RowAt(rows, project, v, path));
    }
  }

  // ----- One write -----

  /** No two rows share a key of a unique index. */
  ghost predicate Indexed(rows: set<Row>) {
    forall r, s :: r in rows && s in rows && r != s ==> !Clash(r, s)
  }

  /** Every statement that succeeds leaves the indexes satisfied. */
  lemma CloseKeepsIndexed(rows: set<Row>, chosen: Row -> bool, v: int)
    requires CloseRows(rows, chosen, v).Done?
    ensures Indexed(CloseRows(rows, chosen, v).value)
  {
  }

  lemma NoClashElsewhere(rows: set<Row>, chosen: Row -> bool, project: int, v: int)
    requires Indexed(rows)
    requires forall r :: r in rows && chosen(r) ==> r.project == project
    requires forall r, s :: r in rows && s in rows && r != s ==> !Clash(Restop(r, chosen, Some(v)), Restop(s, chosen, Some(v))) || r.project != project
    ensures !Violates(rows, chosen, Some(v))
  {
  }

  /** The stored object is what the write asks for, as far as identical_objects_idx can tell. */
  predicate SameObject(s: Option<Stored>, o: Object) {
    s.Some? && s.value.hash == HashContent(Loose(o.content)) && s.value.mode == o.mode
  }

  lemma ConflictMeansSame(rows: set<Row>, project: int, v: int, o: Object)
    requires Intervals(rows, project, v)
    ensures Conflicts(rows, LooseRow(project, v, o)) <==> SameObject(ObjectAt(rows, project, v, o.path), o)
  {
  }

  /** When one write leaves the intervals separate. */
  ghost predicate StepSafe(rows: set<Row>, project: int, v: int, o: Object) {
    Fresh(rows, project, v, o.path) || (!o.deleted && SameObject(ObjectAt(rows, project, v, o.path), o))
  }

  /** What one write leaves at a path. */
  ghost function StepObject(rows: set<Row>, project: int, v: int, o: Object, k: Path): Option<Stored> {
    var now := ObjectAt(rows, project, v, k);
    if o.deleted then if k == o.path then None else now
    else if SameObject(ObjectAt(rows, project, v, o.path), o) then now
    else if k == o.path then Some(Stored(HashContent(Loose(o.content)), o.mode, o.size, false))
    else if IsDirAbove(k, o.path) && HasRowAt(rows, project, v, k) && RowAt(rows, project, v, k).start != v then None
    else now
  }

  lemma DeleteEffect(rows: set<Row>, project: int, v: int, pk: Matcher, o: Object, k: Path)
    requires Good(rows, project, v, pk) && Indexed(rows)
    requires o.deleted && Fresh(rows, project, v, o.path)
    ensures DeleteObject(rows, project, v, o.path) == Done(SetStop(rows, LiveAtPath(project, o.path), Some(v)))
    ensures var b := SetStop(rows, LiveAtPath(project, o.path), Some(v));
            Good(b, project, v, pk) && ObjectAt(b, project, v, k) == StepObject(rows, project, v, o, k)
  {
    var chosen := LiveAtPath(project, o.path);
    ClosingIsSafe(rows, chosen, project, v, pk);
    NoClashElsewhere(rows, chosen, project, v);
    ClosedObjects(rows, chosen, project, v, pk, k);
  }

  /** A write that changes something closes what it replaces and adds its row; the order does not matter. */
  lemma InsertThenClose(rows: set<Row>, project: int, v: int, o: Object)
    ensures var row, chosen := LooseRow(project, v, o), Replaced(project, v, o.path);
            SetStop(rows + {row}, chosen, Some(v)) == SetStop(rows, chosen, Some(v)) + {row}
  {
  }

  lemma InsertDoesNotClash(rows: set<Row>, project: int, v: int, pk: Matcher, o: Object)
    requires Good(rows, project, v, pk) && Indexed(rows)
    requires !Conflicts(rows, LooseRow(project, v, o))
    ensures !Violates(rows + {LooseRow(project, v, o)}, Replaced(project, v, o.path), Some(v))
  {
    var row, chosen := LooseRow(project, v, o), Replaced(project, v, o.path);
    forall r | r in rows ensures !Clash(row, Restop(r, chosen, Some(v))) && !Clash(Restop(r, chosen, Some(v)), row) {
      assert !Clash(row, r);
    }
    assert forall r :: r in rows && chosen(r) ==> r.start < v;
    ClosingIsSafe(rows, chosen, project, v, pk);
    NoClashElsewhere(rows, chosen, project, v);
  }

  lemma InsertEffect(rows: set<Row>, project: int, v: int, pk: Matcher, o: Object, k: Path)
    requires Good(rows, project, v, pk) && Indexed(rows) && v >= 1
    requires PackParent(pk, o.path) == None && Fresh(rows, project, v, o.path)
    requires !Conflicts(rows, LooseRow(project, v, o)) && !o.deleted
    ensures var b := SetStop(rows, Replaced(project, v, o.path), Some(v)) + {LooseRow(project, v, o)};
            && UpdateObject(rows, project, v, o) == Done(Written(b, true))
            && Good(b, project, v, pk)
            && ObjectAt(b, project, v, k) == StepObject(rows, project, v, o, k)
  {
    var row, chosen := LooseRow(project, v, o), Replaced(project, v, o.path);
    var closed := SetStop(rows, chosen, Some(v));
    InsertDoesNotClash(rows, project, v, pk, o);
    InsertThenClose(rows, project, v, o);
    ClosingIsSafe(rows, chosen, project, v, pk);
    ClosedObjects(rows, chosen, project, v, pk, o.path);
    ClosedObjects(rows, chosen, project, v, pk, k);
    ConflictMeansSame(rows, project, v, o);
    assert !HasRowAt(closed, project, v, o.path) by {
      if HasRowAt(rows, project, v, o.path) {
        assert chosen(RowAt(rows, project, v, o.path));
      }
    }
    AddedRow(closed, row, project, v, pk, k);
  }

  /** One write of the batch, when it is safe: it succeeds, keeps the store good, and has this effect. */
  lemma StepEffect(rows: set<Row>, project: int, v: int, pk: Matcher, o: Object, k: Path)
    requires Good(rows, project, v, pk) && Indexed(rows) && v >= 1
    requires PackParent(pk, o.path) == None && StepSafe(rows, project, v, o)
    ensures LooseStep(rows, project, v, o).Done?
    ensures var w := LooseStep(rows, project, v, o).value;
            && Good(w.rows, project, v, pk) && Indexed(w.rows)
            && (w.changed <==> o.deleted || !SameObject(ObjectAt(rows, project, v, o.path), o))
            && ObjectAt(w.rows, project, v, k) == StepObject(rows, project, v, o, k)
  {
    ConflictMeansSame(rows, project, v, o);
    if o.deleted {
      DeleteEffect(rows, project, v, pk, o, k);
      CloseKeepsIndexed(rows, LiveAtPath(project, o.path), v);
    } else if !Conflicts(rows, LooseRow(project, v, o)) {
      InsertEffect(rows, project, v, pk, o, k);
      CloseKeepsIndexed(rows + {LooseRow(project, v, o)}, Replaced(project, v, o.path), v);
    }
  }

  /** The rows of the new version are those the batch inserted. */
  lemma StepStarts(rows: set<Row>, project: int, v: int, pk: Matcher, o: Object, r: Row)
    requires Good(rows, project, v, pk) && StepSafe(rows, project, v, o)
    requires LooseStep(rows, project, v, o).Done?
    requires r in LooseStep(rows, project, v, o).value.rows && r.project == project && r.start == v
    ensures r in rows || (!o.deleted && r == LooseRow(project, v, o))
  {
  }

  // ----- The whole object buffer: which batches are safe -----

  predicate SameWrite(a: Object, b: Object) {
    !a.deleted && !b.deleted && a.content == b.content && a.mode == b.mode
  }

  /** Once a path is set, the batch only sets it again to the same thing. */
  predicate SafeBatch(ops: seq<Object>) {
    forall i, j :: 0 <= i < j < |ops| && ops[i].path == ops[j].path ==> ops[i].deleted || SameWrite(ops[i], ops[j])
  }

  predicate AllLoose(pk: Matcher, ops: seq<Object>) {
    forall o :: o in ops ==> PackParent(pk, o.path) == None
  }

  /** The state an update starts from: a good project whose latest version is before v. */
  ghost predicate Startable(rows: set<Row>, project: int, v: int, pk: Matcher) {
    Good(rows, project, v - 1, pk) && Indexed(rows) && v >= 1
  }

  lemma StartableIsGood(rows: set<Row>, project: int, v: int, pk: Matcher)
    requires Startable(rows, project, v, pk)
    ensures Good(rows, project, v, pk)
    ensures forall path :: Fresh(rows, project, v, path)
  {
  }

  ghost predicate KeepsGood(rows: set<Row>, project: int, v: int, pk: Matcher, ops: seq<Object>) {
    match LoosePhase(rows, project, v, ops)
    case UniqueViolation => false
    case Done(w) => Good(w.rows, project, v, pk) && Indexed(w.rows)
  }

  /** Every row of the new version is the row of some write of the batch. */
  ghost predicate WrittenByBatch(rows: set<Row>, project: int, v: int, ops: seq<Object>) {
    forall r :: r in rows && r.project == project && r.start == v ==>
                  exists o :: o in ops && !o.deleted && r == LooseRow(project, v, o)
  }

  lemma SafePrefix(ops: seq<Object>, n: nat)
    requires SafeBatch(ops) && n <= |ops|
    ensures SafeBatch(ops[..n])
  {
  }

  lemma NextStepIsSafe(rows: set<Row>, project: int, v: int, pk: Matcher, ops: seq<Object>)
    requires ops != [] && SafeBatch(ops)
    requires Good(rows, project, v, pk) && WrittenByBatch(rows, project, v, ops[..|ops| - 1])
    ensures StepSafe(rows, project, v, ops[|ops| - 1])
  {
  }

  /** A safe batch succeeds on every store and keeps it good. */
  lemma {:induction false} SafeBatchKeepsGood(rows: set<Row>, project: int, v: int, pk: Matcher, ops: seq<Object>)
    requires Startable(rows, project, v, pk) && AllLoose(pk, ops) && SafeBatch(ops)
    ensures KeepsGood(rows, project, v, pk, ops)
    ensures WrittenByBatch(LoosePhase(rows, project, v, ops).value.rows, project, v, ops)
  {
    if ops == [] {
      StartableIsGood(rows, project, v, pk);
    } else {
      var n := |ops| - 1;
      SafePrefix(ops, n);
      SafeBatchKeepsGood(rows, project, v, pk, ops[..n]);
      var mid := LoosePhase(rows, project, v, ops[..n]).value.rows;
      NextStepIsSafe(mid, project, v, pk, ops);
      StepEffect(mid, project, v, pk, ops[n], ops[n].path);
      var b := LooseStep(mid, project, v, ops[n]).value.rows;
      forall r | r in b && r.project == project && r.start == v
        ensures exists o :: o in ops && !o.deleted && r == LooseRow(project, v, o)
      {
        StepStarts(mid, project, v, pk, ops[n], r);
        if r in mid {
          var o :| o in ops[..n] && !o.deleted && r == LooseRow(project, v, o);
          assert o in ops;
        } else {
          assert ops[n] in ops;
        }
      }
    }
  }

  /** A table that no later write of the same update can repair. */
  ghost predicate Broken(rows: set<Row>, project: int, v: int) {
    || (exists r :: r in rows && r.project == project && r.start == v && r.stop == Some(v))
    || (exists r, s :: r in rows && s in rows && r != s && Live(r, project) && Live(s, project)
                       && r.path == s.path && r.start == s.start == v)
  }

  lemma BrokenIsNotGood(rows: set<Row>, project: int, v: int, pk: Matcher)
    requires Broken(rows, project, v)
    ensures !Good(rows, project, v, pk)
  {
  }

  lemma DeleteStaysBroken(rows: set<Row>, project: int, v: int, path: Path)
    requires Broken(rows, project, v)
    ensures DeleteObject(rows, project, v, path) == UniqueViolation
            || Broken(SetStop(rows, LiveAtPath(project, path), Some(v)), project, v)
  {
  }

  lemma UpdateStaysBroken(rows: set<Row>, project: int, v: int, o: Object)
    requires Broken(rows, project, v)
    ensures UpdateObject(rows, project, v, o).Done? ==> Broken(UpdateObject(rows, project, v, o).value.rows, project, v)
  {
  }

  /** After a prefix of writes to an empty project: failed, broken, or every path set so far has its row. */
  ghost predicate EmptyStart(rows: set<Row>, project: int, v: int, pk: Matcher, ops: seq<Object>) {
    && SafeBatch(ops)
    && Good(rows, project, v, pk) && Indexed(rows)
    && (forall r :: r in rows ==> r.project == project && r.start == v)
    && WrittenByBatch(rows, project, v, ops)
    && (forall o :: o in ops && !o.deleted ==> SameObject(ObjectAt(rows, project, v, o.path), o))
  }

  ghost predicate FromEmpty(project: int, v: int, pk: Matcher, ops: seq<Object>) {
    match LoosePhase({}, project, v, ops)
    case UniqueViolation => true
    case Done(w) => Broken(w.rows, project, v) || EmptyStart(w.rows, project, v, pk, ops)
  }

  lemma SafeExtend(ops: seq<Object>)
    requires ops != [] && SafeBatch(ops[..|ops| - 1])
    requires forall i :: 0 <= i < |ops| - 1 && ops[i].path == ops[|ops| - 1].path ==> ops[i].deleted || SameWrite(ops[i], ops[|ops| - 1])
    ensures SafeBatch(ops)
  {
  }

  /** The last write makes a batch unsafe: it deletes what the batch set, or sets it to something else. */
  lemma UnsafeStepBreaks(rows: set<Row>, project: int, v: int, pk: Matcher, front: seq<Object>, o: Object, i: nat)
    requires EmptyStart(rows, project, v, pk, front) && i < |front|
    requires front[i].path == o.path && !front[i].deleted && !SameWrite(front[i], o)
    ensures LooseStep(rows, project, v, o).Done? ==> Broken(LooseStep(rows, project, v, o).value.rows, project, v)
  {
    assert front[i] in front;
    var r := RowAt(rows, project, v, o.path);
    if o.deleted {
      var chosen := LiveAtPath(project, o.path);
      assert Restop(r, chosen, Some(v)) in SetStop(rows, chosen, Some(v));
    } else {
      var row, chosen := LooseRow(project, v, o), Replaced(project, v, o.path);
      ConflictMeansSame(rows, project, v, o);
      assert !Conflicts(rows, row);
      var b := SetStop(rows + {row}, chosen, Some(v));
      assert r == Restop(r, chosen, Some(v)) && row == Restop(row, chosen, Some(v));
      assert r in b && row in b && r != row;
    }
  }

  lemma SafeStepFromEmpty(rows: set<Row>, project: int, v: int, pk: Matcher, ops: seq<Object>)
    requires v >= 1 && ops != [] && AllLoose(pk, ops) && SafeBatch(ops)
    requires EmptyStart(rows, project, v, pk, ops[..|ops| - 1])
    ensures LooseStep(rows, project, v, ops[|ops| - 1]).Done?
    ensures EmptyStart(LooseStep(rows, project, v, ops[|ops| - 1]).value.rows, project, v, pk, ops)
  {
    var n := |ops| - 1;
    var o := ops[n];
    NextStepIsSafe(rows, project, v, pk, ops);
    StepEffect(rows, project, v, pk, o, o.path);
    var b := LooseStep(rows, project, v, o).value.rows;
    LooseStepEvolves(rows, project, v, o);
    forall r | r in b ensures r.project == project && r.start == v {
      assert r in rows || r.start == v || r.(stop := None) in rows;
    }
    forall r | r in b ensures exists x :: x in ops && !x.deleted && r == LooseRow(project, v, x) {
      StepStarts(rows, project, v, pk, o, r);
      if r in rows {
        var x :| x in ops[..n] && !x.deleted && r == LooseRow(project, v, x);
        assert x in ops;
      } else {
        assert o in ops;
      }
    }
    forall x | x in ops && !x.deleted ensures SameObject(ObjectAt(b, project, v, x.path), x) {
      StepEffect(rows, project, v, pk, o, x.path);
      if x != o {
        assert x in ops[..n];
        var i :| 0 <= i < n && ops[i] == x;
        assert x.path == o.path ==> SameWrite(ops[i], ops[n]);
      }
    }
  }

  lemma {:induction false} WritesFromEmpty(project: int, v: int, pk: Matcher, ops: seq<Object>)
    requires v >= 1 && AllLoose(pk, ops)
    ensures FromEmpty(project, v, pk, ops)
  {
    if ops != [] {
      var n := |ops| - 1;
      WritesFromEmpty(project, v, pk, ops[..n]);
      match LoosePhase({}, project, v, ops[..n])
      case UniqueViolation =>
      case Done(w) =>
        if Broken(w.rows, project, v) {
          DeleteStaysBroken(w.rows, project, v, ops[n].path);
          UpdateStaysBroken(w.rows, project, v, ops[n]);
        } else if i :| 0 <= i < n && ops[i].path == ops[n].path && !ops[i].deleted && !SameWrite(ops[i], ops[n]) {
          UnsafeStepBreaks(w.rows, project, v, pk, ops[..n], ops[n], i);
        } else {
          SafeExtend(ops);
          SafeStepFromEmpty(w.rows, project, v, pk, ops);
        }
    }
  }

  /**
    A batch of loose writes succeeds and keeps the store good, whatever the store holds,
    exactly when no path is deleted or changed after the batch has set it.
  */
  lemma SafeOnEveryStoreIff(project: int, v: int, pk: Matcher, ops: seq<Object>)
    requires v >= 1 && AllLoose(pk, ops)
    ensures (forall rows :: Startable(rows, project, v, pk) ==> KeepsGood(rows, project, v, pk, ops)) <==> SafeBatch(ops)
  {
    if SafeBatch(ops) {
      forall rows | Startable(rows, project, v, pk) ensures KeepsGood(rows, project, v, pk, ops) {
        SafeBatchKeepsGood(rows, project, v, pk, ops);
      }
    } else {
      WritesFromEmpty(project, v, pk, ops);
      if LoosePhase({}, project, v, ops).Done? {
        BrokenIsNotGood(LoosePhase({}, project, v, ops).value.rows, project, v, pk);
      }
      assert Startable({}, project, v, pk) && !KeepsGood({}, project, v, pk, ops);
    }
  }

  // ----- The whole object buffer: its effect -----

  /** The batch does not set a directory marker and, beneath it, something else. */
  predicate NoMarkerAboveWrite(ops: seq<Object>) {
    forall a, b :: a in ops && b in ops && !a.deleted && !b.deleted && a.path != b.path ==> !IsDirAbove(a.path, b.path)
  }

  /** Some write of the batch that changes its own path lies beneath the marker `k`. */
  ghost predicate MarkerReplaced(rows: set<Row>, project: int, v: int, ops: seq<Object>, k: Path) {
    exists o :: o in ops && !o.deleted && IsDirAbove(k, o.path) && !SameObject(ObjectAt(rows, project, v, o.path), o)
  }

  /** What a batch of distinct paths leaves at a path, in terms of the store before it. */
  ghost function PhaseObject(rows: set<Row>, project: int, v: int, ops: seq<Object>, k: Path): Option<Stored> {
    var before := ObjectAt(rows, project, v, k);
    match FindUpdate(ops, k)
    case Some(o) =>
      if o.deleted then None
      else if SameObject(before, o) then before
      else Some(Stored(HashContent(Loose(o.content)), o.mode, o.size, false))
    case None =>
      if MarkerReplaced(rows, project, v, ops, k) then None else before
  }

  /** The batch changes something: it deletes a path, or sets one to what it was not. */
  ghost predicate PhaseChanges(rows: set<Row>, project: int, v: int, ops: seq<Object>) {
    exists o :: o in ops && (o.deleted || !SameObject(ObjectAt(rows, project, v, o.path), o))
  }

  lemma DistinctIsSafe(ops: seq<Object>)
    requires DistinctPaths(ops)
    ensures SafeBatch(ops)
  {
  }

  lemma LastIsNew(ops: seq<Object>, k: Path)
    requires ops != [] && DistinctPaths(ops)
    ensures var n := |ops| - 1;
            && FindUpdate(ops[..n], ops[n].path) == None
            && FindUpdate(ops, k) == (if k == ops[n].path then Some(ops[n]) else FindUpdate(ops[..n], k))
  {
    var n := |ops| - 1;
    FindUpdateIsAMember(ops[..n], ops[n].path);
    FindInConcat(ops[..n], [ops[n]], k);
    assert ops == ops[..n] + [ops[n]];
  }

  lemma ReplacedSplit(rows: set<Row>, project: int, v: int, ops: seq<Object>, k: Path)
    requires ops != []
    ensures var n := |ops| - 1; var o := ops[n];
            MarkerReplaced(rows, project, v, ops, k) <==>
            || MarkerReplaced(rows, project, v, ops[..n], k)
            || (!o.deleted && IsDirAbove(k, o.path) && !SameObject(ObjectAt(rows, project, v, o.path), o))
  {
  }

  /** No write of a batch of distinct paths lies above another. */
  lemma WritesAreApart(ops: seq<Object>)
    requires ops != [] && DistinctPaths(ops) && NoMarkerAboveWrite(ops)
    ensures var n := |ops| - 1;
            forall o :: o in ops[..n] && !o.deleted && !ops[n].deleted ==>
                          !IsDirAbove(o.path, ops[n].path) && !IsDirAbove(ops[n].path, o.path)
  {
  }

  /** The path of the next write is as it was before the batch, for all the write can tell. */
  lemma NextPathUntouched(rows: set<Row>, project: int, v: int, ops: seq<Object>)
    requires ops != [] && DistinctPaths(ops) && NoMarkerAboveWrite(ops)
    ensures var n := |ops| - 1;
            !ops[n].deleted ==> PhaseObject(rows, project, v, ops[..n], ops[n].path) == ObjectAt(rows, project, v, ops[n].path)
  {
    LastIsNew(ops, ops[|ops| - 1].path);
    WritesAreApart(ops);
  }

  /** A row written by the batch is not a marker above the next write. */
  lemma NoNewMarkerAbove(mid: set<Row>, project: int, v: int, ops: seq<Object>, k: Path)
    requires ops != [] && DistinctPaths(ops) && NoMarkerAboveWrite(ops)
    requires WrittenByBatch(mid, project, v, ops[..|ops| - 1])
    requires !ops[|ops| - 1].deleted && IsDirAbove(k, ops[|ops| - 1].path)
    requires HasRowAt(mid, project, v, k)
    ensures RowAt(mid, project, v, k).start != v
  {
  }

  /** One more write, seen from the store before the batch. */
  lemma PhaseStep(rows: set<Row>, mid: set<Row>, project: int, v: int, pk: Matcher, ops: seq<Object>, k: Path)
    requires ops != [] && DistinctPaths(ops) && NoMarkerAboveWrite(ops)
    requires WrittenByBatch(mid, project, v, ops[..|ops| - 1])
    requires forall x :: ObjectAt(mid, project, v, x) == PhaseObject(rows, project, v, ops[..|ops| - 1], x)
    ensures StepObject(mid, project, v, ops[|ops| - 1], k) == PhaseObject(rows, project, v, ops, k)
  {
    var n := |ops| - 1;
    var o := ops[n];
    LastIsNew(ops, k);
    ReplacedSplit(rows, project, v, ops, k);
    NextPathUntouched(rows, project, v, ops);
    assert ObjectAt(mid, project, v, o.path) == PhaseObject(rows, project, v, ops[..n], o.path);
    assert ObjectAt(mid, project, v, k) == PhaseObject(rows, project, v, ops[..n], k);
    if !o.deleted && k != o.path && IsDirAbove(k, o.path) {
      FindUpdateIsAMember(ops[..n], k);
      WritesAreApart(ops);
      if HasRowAt(mid, project, v, k) {
        NoNewMarkerAbove(mid, project, v, ops, k);
      }
    }
  }

  /** The last write of a batch, after the others have had their effect. */
  lemma LastStepEffect(rows: set<Row>, mid: set<Row>, project: int, v: int, pk: Matcher, ops: seq<Object>)
    requires ops != [] && DistinctPaths(ops) && NoMarkerAboveWrite(ops) && AllLoose(pk, ops) && v >= 1
    requires Good(mid, project, v, pk) && Indexed(mid) && WrittenByBatch(mid, project, v, ops[..|ops| - 1])
    requires forall x :: ObjectAt(mid, project, v, x) == PhaseObject(rows, project, v, ops[..|ops| - 1], x)
    ensures LooseStep(mid, project, v, ops[|ops| - 1]).Done?
    ensures var w, o := LooseStep(mid, project, v, ops[|ops| - 1]).value, ops[|ops| - 1];
            && (forall k :: ObjectAt(w.rows, project, v, k) == PhaseObject(rows, project, v, ops, k))
            && (w.changed <==> o.deleted || !SameObject(ObjectAt(rows, project, v, o.path), o))
  {
    var n := |ops| - 1;
    DistinctIsSafe(ops);
    NextStepIsSafe(mid, project, v, pk, ops);
    StepEffect(mid, project, v, pk, ops[n], ops[n].path);
    var w := LooseStep(mid, project, v, ops[n]).value;
    forall k ensures ObjectAt(w.rows, project, v, k) == PhaseObject(rows, project, v, ops, k) {
      StepEffect(mid, project, v, pk, ops[n], k);
      PhaseStep(rows, mid, project, v, pk, ops, k);
    }
    NextPathUntouched(rows, project, v, ops);
  }

  lemma ChangesSplit(rows: set<Row>, project: int, v: int, ops: seq<Object>)
    requires ops != []
    ensures var n := |ops| - 1; var o := ops[n];
            PhaseChanges(rows, project, v, ops) <==>
            PhaseChanges(rows, project, v, ops[..n]) || o.deleted || !SameObject(ObjectAt(rows, project, v, o.path), o)
  {
  }

  /** A batch of distinct paths has exactly its effect on the objects of the new version. */
  lemma {:induction false} LoosePhaseEffect(rows: set<Row>, project: int, v: int, pk: Matcher, ops: seq<Object>)
    requires Startable(rows, project, v, pk) && AllLoose(pk, ops)
    requires DistinctPaths(ops) && NoMarkerAboveWrite(ops)
    ensures KeepsGood(rows, project, v, pk, ops)
    ensures var w := LoosePhase(rows, project, v, ops).value;
            && (forall k :: ObjectAt(w.rows, project, v, k) == PhaseObject(rows, project, v, ops, k))
            && (w.changed <==> PhaseChanges(rows, project, v, ops))
  {
    DistinctIsSafe(ops);
    SafeBatchKeepsGood(rows, project, v, pk, ops);
    if ops != [] {
      var n := |ops| - 1;
      LoosePhaseEffect(rows, project, v, pk, ops[..n]);
      DistinctIsSafe(ops[..n]);
      SafeBatchKeepsGood(rows, project, v, pk, ops[..n]);
      LastStepEffect(rows, LoosePhase(rows, project, v, ops[..n]).value.rows, project, v, pk, ops);
      ChangesSplit(rows, project, v, ops);
    }
  }
}
