/**
  The difference of two versions (internal/db/queryBuilder.go) and its application to a
  directory. The two SELECTs are set comprehensions over the rows. A client applies the
  resulting changes in tars, several at a time, so the theorems speak of every sequence
  in which each change occurs at least once.
*/
module Difference {
  import opened Paths
  import opened TarFormat
  import opened PackMerge
  import opened PackLaws
  import opened Table

  // ----- The query -----

  /** updated_objects: live at `t`, started after `f`. */
  predicate IsUpdated(r: Row, project: int, f: int, t: int) {
    && r.project == project
    && f < r.start <= t
    && (r.stop.None? || r.stop.value > t)
  }

  /** The removals before the skip rules: live at `f`, stopped by `t`. */
  predicate IsRemovalCandidate(r: Row, project: int, f: int, t: int) {
    && r.project == project
    && r.start <= f
    && r.stop.Some? && f < r.stop.value <= t
  }

  /** possible_objects, with and without removals. */
  function Possible(rows: set<Row>, project: int, f: int, t: int, withRemovals: bool): set<Row> {
    set r | r in rows && r.project == project &&
            (|| (f < r.start <= t && (r.stop.None? || r.stop.value > t))
             || (withRemovals && r.start <= t && r.stop.Some? && f < r.stop.value <= t))
  }

  function Updated(possible: set<Row>, project: int, f: int, t: int): set<Row> {
    set r | r in possible && IsUpdated(r, project, f, t)
  }

  /** The three rules that suppress the removal of a path. */
  ghost predicate Skipped(path: Path, updated: set<Row>) {
    || (!EndsInSlash(path) && exists u :: u in updated && u.path == path)
    || (EndsInSlash(path) && exists u :: u in updated && path <= u.path)
    || (!EndsInSlash(path) && exists u :: u in updated && path + "/" <= u.path)
  }

  ghost function Removed(possible: set<Row>, updated: set<Row>, project: int, f: int, t: int): set<Row> {
    set r | r in possible && IsRemovalCandidate(r, project, f, t) && !Skipped(r.path, updated)
  }

  // ----- Changes -----

  /** One step of the client: write a file, remove one, replace a pack's directory, remove it. */
  datatype Change =
    | PutFile(path: Path, file: File)
    | DelFile(path: Path)
    | PutPack(parent: Path, entries: seq<TarEntry>)
    | DelPack(parent: Path)

  function PutOf(r: Row): Change {
    if !r.hash.Digest? then DelFile(r.path)
    else
      match r.hash.blob
      case Pack(entries) => PutPack(r.path, entries)
      case Loose(bytes) => PutFile(r.path, File(r.mode, bytes))
  }

  function DelOf(r: Row): Change {
    if r.packed then DelPack(r.path) else DelFile(r.path)
  }

  /** queryBuilder.build: without removals from version 0, with them otherwise. */
  ghost function Diff(rows: set<Row>, project: int, f: int, t: int): set<Change> {
    if f == 0 then WithoutRemovals(rows, project, f, t) else WithRemovals(rows, project, f, t)
  }

  ghost function WithoutRemovals(rows: set<Row>, project: int, f: int, t: int): set<Change> {
    set r | r in Updated(Possible(rows, project, f, t, false), project, f, t) :: PutOf(r)
  }

  ghost function WithRemovals(rows: set<Row>, project: int, f: int, t: int): set<Change> {
    var possible := Possible(rows, project, f, t, true);
    var updated := Updated(possible, project, f, t);
    (set r | r in updated :: PutOf(r)) +
    (set r | r in Removed(possible, updated, project, f, t) :: DelOf(r))
  }

  // ----- Applying changes -----

  /** `cs` carries every change of the difference at least once, and nothing else. */
  ghost predicate Carries(cs: seq<Change>, rows: set<Row>, project: int, f: int, t: int) {
    forall c :: c in cs <==> c in Diff(rows, project, f, t)
  }

  /** What a change puts in the directory. */
  function Writes(c: Change): Directory {
    match c
    case PutFile(path, file) => map[path := file]
    case PutPack(_, entries) => map k | k in Names(entries) && Find(entries, k).Some? :: FileOf(Decode(Find(entries, k).value))
    case _ => map[]
  }

  /**
    What a change takes out of the directory. Writing beneath a file or a marker replaces
    it by a directory; a pack replaces everything at and beneath its parent.
  */
  predicate Clears(c: Change, k: Path) {
    match c
    case PutFile(path, _) => Covers(k, path)
    case DelFile(path) => k == path
    case PutPack(parent, _) => parent <= k + "/" || Covers(k, parent)
    case DelPack(parent) => parent <= k + "/"
  }

  function Apply(dir: Directory, c: Change): Directory {
    (map k | k in dir && !Clears(c, k) :: dir[k]) + Writes(c)
  }

  function ApplyAll(dir: Directory, cs: seq<Change>): Directory {
    if cs == [] then dir else Apply(ApplyAll(dir, cs[..|cs| - 1]), cs[|cs| - 1])
  }

  // ----- Order does not matter -----

  predicate WrittenBy(cs: seq<Change>, k: Path) {
    exists c :: c in cs && k in Writes(c)
  }

  predicate ClearedBy(cs: seq<Change>, k: Path) {
    exists c :: c in cs && Clears(c, k)
  }

  /** No change undoes another. */
  predicate Coherent(cs: seq<Change>) {
    forall c, d, k :: c in cs && d in cs && k in Writes(d) ==>
                        if k in Writes(c) then Writes(c)[k] == Writes(d)[k] else !Clears(c, k)
  }

  /** The effect of a coherent sequence is a union: what it writes, what it clears, the rest untouched. */
  lemma {:induction false} ApplyAllEffect(dir: Directory, cs: seq<Change>, k: Path)
    requires Coherent(cs)
    ensures forall c :: c in cs && k in Writes(c) ==> Get(ApplyAll(dir, cs), k) == Some(Writes(c)[k])
    ensures !WrittenBy(cs, k) ==> Get(ApplyAll(dir, cs), k) == if ClearedBy(cs, k) then None else Get(dir, k)
  {
    if cs != [] {
      var n := |cs| - 1;
      var front, last := cs[..n], cs[n];
      assert forall c :: c in cs <==> c in front || c == last;
      ApplyAllEffect(dir, front, k);
      assert WrittenBy(cs, k) <==> WrittenBy(front, k) || k in Writes(last);
      assert ClearedBy(cs, k) <==> ClearedBy(front, k) || Clears(last, k);
    }
  }

  // ----- What the difference contains -----

  lemma UpdatedMember(rows: set<Row>, project: int, f: int, t: int, withRemovals: bool, r: Row)
    ensures r in Updated(Possible(rows, project, f, t, withRemovals), project, f, t) <==>
            r in rows && IsUpdated(r, project, f, t)
  {
  }

  ghost predicate SkippedIn(rows: set<Row>, project: int, f: int, t: int, path: Path) {
    Skipped(path, Updated(Possible(rows, project, f, t, true), project, f, t))
  }

  ghost predicate IsRemoved(rows: set<Row>, project: int, f: int, t: int, r: Row) {
    r in rows && IsRemovalCandidate(r, project, f, t) && !SkippedIn(rows, project, f, t, r.path)
  }

  /** Every change of the difference comes from an updated row or from a removed one, and conversely. */
  lemma DiffMember(rows: set<Row>, project: int, f: int, t: int, c: Change)
    requires 0 <= f && forall r :: r in rows && r.project == project ==> r.start >= 1
    ensures c in Diff(rows, project, f, t) <==>
            || (exists u :: u in rows && IsUpdated(u, project, f, t) && c == PutOf(u))
            || (exists s :: IsRemoved(rows, project, f, t, s) && c == DelOf(s))
  {
  }

  /** At version 0 the query without removals is the general one. */
  lemma FromZeroNeedsNoRemovals(rows: set<Row>, project: int, latest: int, t: int)
    requires Intervals(rows, project, latest)
    ensures WithoutRemovals(rows, project, 0, t) == WithRemovals(rows, project, 0, t)
  {
  }

  lemma WritesOfPut(u: Row, pk: Matcher, k: Path)
    requires RowRouted(u, pk)
    ensures k in Writes(PutOf(u)) <==> k in Contents(u)
    ensures k in Writes(PutOf(u)) ==> Some(Writes(PutOf(u))[k]) == FileIn(StoredOf(u), u.path, k)
  {
    if u.packed {
      FindIsAMember(u.hash.blob.entries, k);
    }
  }

  /** A row live at the target clears no file of the target that another row provides. */
  lemma PutsSpareTheTarget(rows: set<Row>, project: int, latest: int, t: int, pk: Matcher, u: Row, k: Path)
    requires Good(rows, project, latest, pk) && TreeShaped(Files(rows, project, t, pk))
    requires u in rows && LiveAt(u, project, t)
    requires k in Files(rows, project, t, pk) && RowPath(pk, k) != u.path
    ensures !Clears(PutOf(u), k)
  {
    assert RowRouted(u, pk);
    var inside := if u.packed then EntryBeneath(u, pk) else u.path;
    assert inside in Contents(u);
    FileFromRow(rows, project, latest, t, pk, u, inside);
    if u.packed && Clears(PutOf(u), k) {
      EntryCovered(u, pk, inside, k);
    }
  }

  ghost function EntryBeneath(u: Row, pk: Matcher): (k: Path)
    requires RowRouted(u, pk) && u.packed
    ensures k in Contents(u)
  {
    u.hash.blob.entries[0].name
  }

  /** What a pack clears is routed to it, or lies above its entries. */
  lemma EntryCovered(u: Row, pk: Matcher, inside: Path, k: Path)
    requires RowRouted(u, pk) && u.packed && inside in Contents(u)
    requires Clears(PutOf(u), k) && RowPath(pk, k) != u.path
    ensures Covers(k, inside)
  {
    PackParentOfEntry(u, pk, inside);
    PackParentIsAbove(pk, u.path, u.path);
    if u.path <= k + "/" {
      BeneathAPackParent(pk, u.path, u.path, k);
    }
    CoverOfParent(k, u.path, inside);
  }

  /**
    No updated object lies beneath a file of the target that it does not itself provide.
    This is all the theorems need from the shape of the target.
  */
  ghost predicate Unobstructed(rows: set<Row>, project: int, f: int, t: int, pk: Matcher) {
    forall u, k :: u in rows && IsUpdated(u, project, f, t) && k in Files(rows, project, t, pk) && k !in Contents(u)
                   ==> !Clears(PutOf(u), k)
  }

  lemma TreesAreUnobstructed(rows: set<Row>, project: int, latest: int, f: int, t: int, pk: Matcher)
    requires Good(rows, project, latest, pk) && TreeShaped(Files(rows, project, t, pk))
    ensures Unobstructed(rows, project, f, t, pk)
  {
    forall u, k | u in rows && IsUpdated(u, project, f, t) && k in Files(rows, project, t, pk) && k !in Contents(u)
      ensures !Clears(PutOf(u), k)
    {
      var r := RowOfFile(rows, project, latest, t, pk, k);
      if u.path == r.path {
        OneLiveRow(rows, project, latest, t, u, r);
      }
      PutsSpareTheTarget(rows, project, latest, t, pk, u, k);
    }
  }

  /** A removal clears no file of the target. */
  lemma RemovalsSpareTheTarget(rows: set<Row>, project: int, latest: int, f: int, t: int, pk: Matcher, s: Row, k: Path)
    requires Good(rows, project, latest, pk) && 0 <= f <= t
    requires IsRemoved(rows, project, f, t, s)
    requires k in Files(rows, project, t, pk)
    ensures !Clears(DelOf(s), k)
  {
    if Clears(DelOf(s), k) {
      if s.packed {
        BeneathAPackParent(pk, s.path, s.path, k);
      }
      assert RowPath(pk, k) == s.path;
      var r := RowOfFile(rows, project, latest, t, pk, k);
      if r.start <= f {
        OneLiveRow(rows, project, latest, f, r, s);
      } else {
        UpdatedMember(rows, project, f, t, true, r);
        assert SkippedIn(rows, project, f, t, s.path);
      }
    }
  }

  /** A file of the target that is not written was already there, and nothing clears it. */
  lemma KeptFiles(rows: set<Row>, project: int, latest: int, f: int, t: int, pk: Matcher, k: Path, cs: seq<Change>)
    requires Good(rows, project, latest, pk) && Unobstructed(rows, project, f, t, pk) && 0 <= f <= t
    requires Carries(cs, rows, project, f, t)
    requires k in Files(rows, project, t, pk) && !WrittenBy(cs, k)
    ensures Get(Files(rows, project, f, pk), k) == Get(Files(rows, project, t, pk), k)
    ensures !ClearedBy(cs, k)
  {
    var r := RowOfFile(rows, project, latest, t, pk, k);
    if r.start > f {
      assert IsUpdated(r, project, f, t);
      DiffMember(rows, project, f, t, PutOf(r));
      WritesOfPut(r, pk, k);
    }
    FileFromRow(rows, project, latest, f, pk, r, k);
    forall c | c in cs ensures !Clears(c, k) {
      DiffMember(rows, project, f, t, c);
      if u :| u in rows && IsUpdated(u, project, f, t) && c == PutOf(u) {
        WritesOfPut(u, pk, k);
        assert PutOf(u) in cs;
      } else {
        var s :| IsRemoved(rows, project, f, t, s) && c == DelOf(s);
        RemovalsSpareTheTarget(rows, project, latest, f, t, pk, s, k);
      }
    }
  }

  /** What is written is what the target has. */
  lemma WrittenFiles(rows: set<Row>, project: int, latest: int, f: int, t: int, pk: Matcher, k: Path, c: Change)
    requires Good(rows, project, latest, pk) && 0 <= f <= t
    requires c in Diff(rows, project, f, t) && k in Writes(c)
    ensures Get(Files(rows, project, t, pk), k) == Some(Writes(c)[k])
  {
    DiffMember(rows, project, f, t, c);
    var u :| u in rows && IsUpdated(u, project, f, t) && c == PutOf(u);
    WritesOfPut(u, pk, k);
    FileFromRow(rows, project, latest, t, pk, u, k);
  }

  /** A file that is gone from the target is cleared, by its own removal or by what replaced it. */
  lemma GoneFiles(rows: set<Row>, project: int, latest: int, f: int, t: int, pk: Matcher, k: Path, cs: seq<Change>)
    requires Good(rows, project, latest, pk) && 0 <= f <= t
    requires Carries(cs, rows, project, f, t)
    requires k in Files(rows, project, f, pk) && k !in Files(rows, project, t, pk)
    ensures ClearedBy(cs, k)
  {
    var s := RowOfFile(rows, project, latest, f, pk, k);
    if LiveAt(s, project, t) {
      FileFromRow(rows, project, latest, t, pk, s, k);
    }
    if !SkippedIn(rows, project, f, t, s.path) {
      assert IsRemoved(rows, project, f, t, s);
      DiffMember(rows, project, f, t, DelOf(s));
      RemovalClears(s, pk, k);
    } else {
      var u := Replacement(rows, project, f, t, s);
      DiffMember(rows, project, f, t, PutOf(u));
      ReplacementClears(rows, project, latest, f, t, pk, s, u, k);
    }
  }

  lemma RemovalClears(s: Row, pk: Matcher, k: Path)
    requires RowRouted(s, pk) && k in Contents(s)
    ensures Clears(DelOf(s), k)
  {
    ContentsRouted(s, pk, k);
    if s.packed {
      PackParentOfEntry(s, pk, k);
    }
  }

  lemma PackParentOfEntry(s: Row, pk: Matcher, k: Path)
    requires RowRouted(s, pk) && s.packed && k in Contents(s)
    ensures PackParent(pk, k) == Some(s.path) && s.path <= k + "/"
  {
    var e :| e in s.hash.blob.entries && e.name == k;
    PackParentIsAbove(pk, k, s.path);
  }

  /** The update that made a skip rule fire. */
  lemma Replacement(rows: set<Row>, project: int, f: int, t: int, s: Row) returns (u: Row)
    requires SkippedIn(rows, project, f, t, s.path)
    ensures u in rows && IsUpdated(u, project, f, t)
    ensures u.path == s.path || DirOf(s.path) <= u.path
  {
    var updated := Updated(Possible(rows, project, f, t, true), project, f, t);
    u :| u in updated && (u.path == s.path || DirOf(s.path) <= u.path);
  }

  lemma ReplacementClears(rows: set<Row>, project: int, latest: int, f: int, t: int, pk: Matcher, s: Row, u: Row, k: Path)
    requires Good(rows, project, latest, pk)
    requires s in rows && s.project == project && k in Contents(s)
    requires u in rows && IsUpdated(u, project, f, t)
    requires u.path == s.path || DirOf(s.path) <= u.path
    requires k !in Files(rows, project, t, pk)
    ensures Clears(PutOf(u), k)
  {
    if s.packed {
      PackParentOfEntry(s, pk, k);
      PackParentIsAbove(pk, s.path, s.path);
      BeneathAPackParent(pk, s.path, s.path, u.path);
    } else if u.path == s.path {
      FileFromRow(rows, project, latest, t, pk, u, k);
    }
  }

  /** The changes of a difference never undo each other. */
  lemma DiffIsCoherent(rows: set<Row>, project: int, latest: int, f: int, t: int, pk: Matcher, cs: seq<Change>)
    requires Good(rows, project, latest, pk) && Unobstructed(rows, project, f, t, pk) && 0 <= f <= t
    requires Carries(cs, rows, project, f, t)
    ensures Coherent(cs)
  {
    forall c, d, k | c in cs && d in cs && k in Writes(d)
      ensures if k in Writes(c) then Writes(c)[k] == Writes(d)[k] else !Clears(c, k)
    {
      WrittenFiles(rows, project, latest, f, t, pk, k, d);
      if k in Writes(c) {
        WrittenFiles(rows, project, latest, f, t, pk, k, c);
      } else {
        UnwrittenIsSpared(rows, project, latest, f, t, pk, k, c);
      }
    }
  }

  lemma UnwrittenIsSpared(rows: set<Row>, project: int, latest: int, f: int, t: int, pk: Matcher, k: Path, c: Change)
    requires Good(rows, project, latest, pk) && Unobstructed(rows, project, f, t, pk) && 0 <= f <= t
    requires c in Diff(rows, project, f, t)
    requires k in Files(rows, project, t, pk) && k !in Writes(c)
    ensures !Clears(c, k)
  {
    DiffMember(rows, project, f, t, c);
    if u :| u in rows && IsUpdated(u, project, f, t) && c == PutOf(u) {
      WritesOfPut(u, pk, k);
    } else {
      var s :| IsRemoved(rows, project, f, t, s) && c == DelOf(s);
      RemovalsSpareTheTarget(rows, project, latest, f, t, pk, s, k);
    }
  }

  // ----- The main theorems -----

  /**
    Applying the difference of two versions to the older directory gives the newer one,
    in whatever order, and however often, the changes are applied.
  */
  lemma DiffReachesTarget(rows: set<Row>, project: int, latest: int, f: int, t: int, pk: Matcher, cs: seq<Change>)
    requires Good(rows, project, latest, pk) && Unobstructed(rows, project, f, t, pk) && 0 <= f <= t
    requires Carries(cs, rows, project, f, t)
    ensures ApplyAll(Files(rows, project, f, pk), cs) == Files(rows, project, t, pk)
  {
    var base, target := Files(rows, project, f, pk), Files(rows, project, t, pk);
    var result := ApplyAll(base, cs);
    DiffIsCoherent(rows, project, latest, f, t, pk, cs);
    forall k ensures Get(result, k) == Get(target, k) {
      ApplyAllEffect(base, cs, k);
      if WrittenBy(cs, k) {
        var c :| c in cs && k in Writes(c);
        WrittenFiles(rows, project, latest, f, t, pk, k, c);
      } else if k in target {
        KeptFiles(rows, project, latest, f, t, pk, k, cs);
      } else if k in base {
        GoneFiles(rows, project, latest, f, t, pk, k, cs);
      }
    }
    SameDirectory(result, target);
  }

  lemma {:induction false} SomeOrder(changes: set<Change>) returns (cs: seq<Change>)
    ensures forall c :: c in cs <==> c in changes
  {
    if changes == {} {
      cs := [];
    } else {
      var c :| c in changes;
      var rest := SomeOrder(changes - {c});
      cs := [c] + rest;
    }
  }

  /** An update beneath a file of the target that is applied last destroys that file. */
  lemma ObstructedOrder(rows: set<Row>, project: int, latest: int, f: int, t: int, pk: Matcher) returns (cs: seq<Change>)
    requires Good(rows, project, latest, pk) && 0 <= f <= t
    requires !Unobstructed(rows, project, f, t, pk)
    ensures Carries(cs, rows, project, f, t)
    ensures ApplyAll(Files(rows, project, f, pk), cs) != Files(rows, project, t, pk)
  {
    var u, k :| u in rows && IsUpdated(u, project, f, t) && k in Files(rows, project, t, pk) && k !in Contents(u) && Clears(PutOf(u), k);
    var some := SomeOrder(Diff(rows, project, f, t));
    cs := some + [PutOf(u)];
    DiffMember(rows, project, f, t, PutOf(u));
    WritesOfPut(u, pk, k);
    assert cs[..|cs| - 1] == some;
  }

  /** Every order of application reaches the target exactly when the target is unobstructed. */
  lemma EveryOrderReachesTargetIff(rows: set<Row>, project: int, latest: int, f: int, t: int, pk: Matcher)
    requires Good(rows, project, latest, pk) && 0 <= f <= t
    ensures (forall cs :: Carries(cs, rows, project, f, t) ==>
                            ApplyAll(Files(rows, project, f, pk), cs) == Files(rows, project, t, pk))
            <==> Unobstructed(rows, project, f, t, pk)
  {
    var base, target := Files(rows, project, f, pk), Files(rows, project, t, pk);
    if Unobstructed(rows, project, f, t, pk) {
      forall cs | Carries(cs, rows, project, f, t) ensures ApplyAll(base, cs) == target {
        DiffReachesTarget(rows, project, latest, f, t, pk, cs);
      }
    } else {
      var cs := ObstructedOrder(rows, project, latest, f, t, pk);
    }
  }

  function Flatten<T>(parts: seq<seq<T>>): seq<T> {
    if parts == [] then [] else parts[0] + Flatten(parts[1..])
  }

  lemma {:induction false} ApplyConcat(dir: Directory, a: seq<Change>, b: seq<Change>)
    ensures ApplyAll(dir, a + b) == ApplyAll(ApplyAll(dir, a), b)
  {
    if b == [] {
      assert a + b == a;
    } else {
      var n := |b| - 1;
      ApplyConcat(dir, a, b[..n]);
      assert (a + b)[..|a + b| - 1] == a + b[..n];
      assert (a + b)[|a + b| - 1] == b[n];
    }
  }

  /** A feed that carries one difference. */
  ghost predicate IsLeg(rows: set<Row>, project: int, pk: Matcher, f: int, t: int, feed: seq<Change>) {
    && 0 <= f <= t
    && Unobstructed(rows, project, f, t, pk)
    && Carries(feed, rows, project, f, t)
  }

  /** The feeds carry the differences along a chain of versions. */
  ghost predicate IsChain(rows: set<Row>, project: int, pk: Matcher, versions: seq<int>, feeds: seq<seq<Change>>) {
    && |versions| == |feeds| + 1
    && (feeds != [] ==>
          && IsLeg(rows, project, pk, versions[0], versions[1], feeds[0])
          && IsChain(rows, project, pk, versions[1..], feeds[1..]))
  }

  /** However many versions a client stops at on the way, it ends with the same directory. */
  lemma {:induction false} ChainReachesTarget(rows: set<Row>, project: int, latest: int, pk: Matcher, versions: seq<int>, feeds: seq<seq<Change>>)
    requires Good(rows, project, latest, pk) && IsChain(rows, project, pk, versions, feeds)
    ensures ApplyAll(Files(rows, project, versions[0], pk), Flatten(feeds)) == Files(rows, project, versions[|versions| - 1], pk)
    decreases |feeds|
  {
    if feeds != [] {
      DiffReachesTarget(rows, project, latest, versions[0], versions[1], pk, feeds[0]);
      ChainReachesTarget(rows, project, latest, pk, versions[1..], feeds[1..]);
      ApplyConcat(Files(rows, project, versions[0], pk), feeds[0], Flatten(feeds[1..]));
    }
  }

  /** Version 0 is the empty directory, so a chain from 0 is a rebuild from scratch. */
  lemma VersionZeroIsEmpty(rows: set<Row>, project: int, latest: int, pk: Matcher)
    requires Intervals(rows, project, latest)
    ensures Files(rows, project, 0, pk) == map[]
  {
  }
}
