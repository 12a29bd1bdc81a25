/**
  The client (pkg/client/client.go): it keeps a directory and the version it was rebuilt
  to, sends local edits as one batch, and then either records the new version or catches
  up with a rebuild.
*/
module ClientProtocol {
  import opened Paths
  import opened TarFormat
  import opened PackMerge
  import opened Table
  import opened PackLaws
  import opened Difference
  import opened Transport
  import opened UpdateLaws
  import opened Store
  import opened TreeLaws

  /** A directory with its .dl/version file. */
  class Client {
    var directory: Directory
    var version: int

    constructor (dir: Directory, v: int)
      ensures directory == dir && version == v
    {
      directory := dir;
      version := v;
    }

    /**
      Rebuild to a version, or to the latest one (None). The server answers for version `to` and streams changes;
      an empty stream means that there is nothing to do, and nothing is recorded.
    */
    method Rebuild(toVersion: Option<int>, to: int, stream: seq<Change>) returns (recorded: int)
      requires toVersion.Some? ==> to == toVersion.value
      modifies this
      ensures (directory, version) ==
              if toVersion == Some(old(version)) then (old(directory), old(version))
              else Rebuilt(old(directory), old(version), to, stream)
      ensures recorded == version
    {
      if toVersion == Some(version) {
        return version;
      }
      if stream == [] {
        return version;
      }
      for i := 0 to |stream|
        invariant directory == ApplyAll(old(directory), stream[..i]) && version == old(version)
      {
        assert stream[..i + 1][..i] == stream[..i];
        directory := Apply(directory, stream[i]);
      }
      assert stream[..|stream|] == stream;
      version := to;
      return version;
    }

    /** The end of Update, when the server has answered `toVersion`; `latest` and `stream` are what a rebuild would get. */
    method FinishUpdate(toVersion: int, latest: int, stream: seq<Change>) returns (recorded: int)
      modifies this
      ensures (directory, version) == Finished(old(directory), old(version), toVersion, latest, stream)
      ensures recorded == version
      ensures old(version) + 1 == toVersion ==> recorded == toVersion && directory == old(directory)
      ensures old(version) + 1 != toVersion && stream == [] ==> recorded == old(version) && directory == old(directory)
      ensures old(version) + 1 != toVersion && stream != [] ==> recorded == latest && directory == ApplyAll(old(directory), stream)
    {
      if version + 1 == toVersion {
        version := toVersion;
        return toVersion;
      }
      recorded := Rebuild(None, latest, stream);
    }

    /** The whole of it, when the server went from `a` to `b` for the client's batch and answered with a new version. */
    method CompleteUpdate(ghost a: Db, ghost b: Db, ghost regex: Regex, ghost project: int, ghost batch: seq<Object>,
                          toVersion: int, latest: int, stream: seq<Change>)
      returns (recorded: int)
      requires Valid(a, regex) && EditedLocally(a, regex, project, version, directory, batch)
      requires directory != Received(FilesOf(a, regex, project, version))
      requires Committed(a, b, regex, project, batch, toVersion, version)
      requires latest == b.projects[project].latest && Streams(stream, b, project, version)
      modifies this
      ensures directory == Received(FilesOf(b, regex, project, toVersion)) && version == toVersion == recorded
    {
      ClientEndsAtItsVersion(a, b, regex, project, batch, toVersion, version, directory, stream);
      recorded := FinishUpdate(toVersion, latest, stream);
    }
  }

  function Rebuilt(dir: Directory, v: int, to: int, stream: seq<Change>): (Directory, int) {
    if stream == [] then (dir, v) else (ApplyAll(dir, stream), to)
  }

  function Finished(dir: Directory, v: int, toVersion: int, latest: int, stream: seq<Change>): (Directory, int) {
    if v + 1 == toVersion then (dir, toVersion) else Rebuilt(dir, v, latest, stream)
  }

  // ----- Catching up with local edits in the directory -----

  /** A file of the target that the difference does not carry, because its row is as old as version `f`. */
  ghost predicate FromBefore(rows: set<Row>, project: int, f: int, t: int, pk: Matcher, k: Path) {
    k in Files(rows, project, t, pk)
    && (forall r :: r in rows && LiveAt(r, project, t) && r.path == RowPath(pk, k) ==> r.start <= f)
  }

  /** The edits agree with the target wherever the difference is silent. */
  ghost predicate EditsAgree(rows: set<Row>, project: int, f: int, t: int, pk: Matcher, dir: Directory) {
    forall k :: FromBefore(rows, project, f, t, pk, k) ==> Get(dir, k) == Get(Files(rows, project, f, pk), k)
  }

  /** Nothing the edits added has been deleted again without the difference saying so. */
  ghost predicate NoLostDeletion(rows: set<Row>, project: int, f: int, t: int, pk: Matcher, dir: Directory) {
    forall k :: k in dir && k !in Files(rows, project, f, pk) && k !in Files(rows, project, t, pk)
                ==> ClearedInDiff(rows, project, f, t, k)
  }

  ghost predicate ClearedInDiff(rows: set<Row>, project: int, f: int, t: int, k: Path) {
    exists c :: c in Diff(rows, project, f, t) && Clears(c, k)
  }

  lemma WrittenIffNotFromBefore(rows: set<Row>, project: int, latest: int, f: int, t: int, pk: Matcher, k: Path, cs: seq<Change>)
    requires Good(rows, project, latest, pk) && 0 <= f <= t && Carries(cs, rows, project, f, t)
    requires k in Files(rows, project, t, pk)
    ensures WrittenBy(cs, k) <==> !FromBefore(rows, project, f, t, pk, k)
  {
    var r := RowOfFile(rows, project, latest, t, pk, k);
    assert FromBefore(rows, project, f, t, pk, k) <==> r.start <= f by {
      forall s | s in rows && LiveAt(s, project, t) && s.path == RowPath(pk, k) ensures s == r {
        OneLiveRow(rows, project, latest, t, s, r);
      }
    }
    if r.start > f {
      DiffMember(rows, project, f, t, PutOf(r));
      WritesOfPut(r, pk, k);
      assert PutOf(r) in cs;
    }
    if WrittenBy(cs, k) {
      var c :| c in cs && k in Writes(c);
      DiffMember(rows, project, f, t, c);
      var u :| u in rows && IsUpdated(u, project, f, t) && c == PutOf(u);
      WritesOfPut(u, pk, k);
      ContentsRouted(u, pk, k);
      OneLiveRow(rows, project, latest, t, u, r);
    }
  }

  /** What the catch-up leaves at a path, for any directory it starts from. */
  lemma CaughtUpFile(rows: set<Row>, project: int, latest: int, f: int, t: int, pk: Matcher, dir: Directory, cs: seq<Change>, k: Path)
    requires Good(rows, project, latest, pk) && Unobstructed(rows, project, f, t, pk) && 0 <= f <= t
    requires Carries(cs, rows, project, f, t)
    ensures var target := Files(rows, project, t, pk);
            Get(ApplyAll(dir, cs), k) ==
            if k in target then
              if FromBefore(rows, project, f, t, pk, k) then Get(dir, k) else Get(target, k)
            else if ClearedInDiff(rows, project, f, t, k) then None
            else Get(dir, k)
    ensures FromBefore(rows, project, f, t, pk, k) ==>
              Get(Files(rows, project, f, pk), k) == Get(Files(rows, project, t, pk), k)
    ensures k in Files(rows, project, f, pk) && k !in Files(rows, project, t, pk) ==> ClearedInDiff(rows, project, f, t, k)
  {
    var target := Files(rows, project, t, pk);
    DiffIsCoherent(rows, project, latest, f, t, pk, cs);
    ApplyAllEffect(dir, cs, k);
    assert ClearedBy(cs, k) <==> ClearedInDiff(rows, project, f, t, k);
    if k in target {
      WrittenIffNotFromBefore(rows, project, latest, f, t, pk, k, cs);
      if WrittenBy(cs, k) {
        var c :| c in cs && k in Writes(c);
        WrittenFiles(rows, project, latest, f, t, pk, k, c);
      } else {
        KeptFiles(rows, project, latest, f, t, pk, k, cs);
      }
    } else {
      NotWritten(rows, project, latest, f, t, pk, k, cs);
      if k in Files(rows, project, f, pk) {
        GoneFiles(rows, project, latest, f, t, pk, k, cs);
      }
    }
  }

  lemma NotWritten(rows: set<Row>, project: int, latest: int, f: int, t: int, pk: Matcher, k: Path, cs: seq<Change>)
    requires Good(rows, project, latest, pk) && 0 <= f <= t && Carries(cs, rows, project, f, t)
    requires k !in Files(rows, project, t, pk)
    ensures !WrittenBy(cs, k)
  {
    forall c | c in cs ensures k !in Writes(c) {
      if k in Writes(c) {
        WrittenFiles(rows, project, latest, f, t, pk, k, c);
      }
    }
  }

  /**
    A directory with local edits that were made at version f catches up with version t
    exactly when the edits agree with t where the difference is silent, and no path they
    added has been deleted since without the difference saying so.
  */
  lemma CatchUpIff(rows: set<Row>, project: int, latest: int, f: int, t: int, pk: Matcher, dir: Directory, cs: seq<Change>)
    requires Good(rows, project, latest, pk) && Unobstructed(rows, project, f, t, pk) && 0 <= f <= t
    requires Carries(cs, rows, project, f, t)
    ensures ApplyAll(dir, cs) == Files(rows, project, t, pk) <==>
            EditsAgree(rows, project, f, t, pk, dir) && NoLostDeletion(rows, project, f, t, pk, dir)
  {
    var target := Files(rows, project, t, pk);
    var result := ApplyAll(dir, cs);
    if result == target {
      forall k | FromBefore(rows, project, f, t, pk, k) ensures Get(dir, k) == Get(Files(rows, project, f, pk), k) {
        CaughtUpFile(rows, project, latest, f, t, pk, dir, cs, k);
      }
      forall k | k in dir && k !in Files(rows, project, f, pk) && k !in target ensures ClearedInDiff(rows, project, f, t, k) {
        CaughtUpFile(rows, project, latest, f, t, pk, dir, cs, k);
      }
    }
    if EditsAgree(rows, project, f, t, pk, dir) && NoLostDeletion(rows, project, f, t, pk, dir) {
      forall k ensures Get(result, k) == Get(target, k) {
        CaughtUpFile(rows, project, latest, f, t, pk, dir, cs, k);
      }
      SameDirectory(result, target);
    }
  }

  /** What the catch-up with what arrives leaves at a path. */
  lemma CaughtUpAsReceived(rows: set<Row>, project: int, latest: int, f: int, t: int, pk: Matcher, dir: Directory, ws: seq<Change>, k: Path)
    requires Good(rows, project, latest, pk) && Unobstructed(rows, project, f, t, pk) && 0 <= f <= t
    requires Arrives(ws, rows, project, f, t)
    ensures var target := Files(rows, project, t, pk);
            Get(ApplyAll(dir, ws), k) ==
            if k in target then
              if FromBefore(rows, project, f, t, pk, k) then Get(dir, k) else Some(NormalFile(target[k]))
            else if ClearedInDiff(rows, project, f, t, k) then None
            else Get(dir, k)
    ensures FromBefore(rows, project, f, t, pk, k) ==>
              Get(Files(rows, project, f, pk), k) == Get(Files(rows, project, t, pk), k)
    ensures k in Files(rows, project, f, pk) && k !in Files(rows, project, t, pk) ==> ClearedInDiff(rows, project, f, t, k)
  {
    var cs := SomeOrder(Diff(rows, project, f, t));
    Ordered(rows, project, latest, f, t, pk, cs, ws);
    SentEffect(dir, cs, ws, k);
    CaughtUpFile(rows, project, latest, f, t, pk, dir, cs, k);
    if k in Files(rows, project, t, pk) {
      WrittenIffNotFromBefore(rows, project, latest, f, t, pk, k, cs);
    } else {
      NotWritten(rows, project, latest, f, t, pk, k, cs);
    }
  }

  /** The edits agree with what the target is received as wherever the difference is silent. */
  ghost predicate EditsAgreeAsReceived(rows: set<Row>, project: int, f: int, t: int, pk: Matcher, dir: Directory) {
    forall k :: FromBefore(rows, project, f, t, pk, k) ==> Get(dir, k) == Get(Received(Files(rows, project, f, pk)), k)
  }

  /**
    The same for what arrives, of files in any mode: a directory with local edits catches up with what version t is received
    as exactly when the edits agree with that where the difference is silent, and nothing they added was deleted in silence.
  */
  lemma CatchUpReceivedIff(rows: set<Row>, project: int, latest: int, f: int, t: int, pk: Matcher, dir: Directory, ws: seq<Change>)
    requires Good(rows, project, latest, pk) && Unobstructed(rows, project, f, t, pk) && 0 <= f <= t
    requires Arrives(ws, rows, project, f, t)
    ensures ApplyAll(dir, ws) == Received(Files(rows, project, t, pk)) <==>
            EditsAgreeAsReceived(rows, project, f, t, pk, dir) && NoLostDeletion(rows, project, f, t, pk, dir)
  {
    var target, result := Received(Files(rows, project, t, pk)), ApplyAll(dir, ws);
    if result == target {
      forall k | FromBefore(rows, project, f, t, pk, k) ensures Get(dir, k) == Get(Received(Files(rows, project, f, pk)), k) {
        CaughtUpAsReceived(rows, project, latest, f, t, pk, dir, ws, k);
      }
      forall k | k in dir && k !in Files(rows, project, f, pk) && k !in Files(rows, project, t, pk) ensures ClearedInDiff(rows, project, f, t, k) {
        CaughtUpAsReceived(rows, project, latest, f, t, pk, dir, ws, k);
      }
    }
    if EditsAgreeAsReceived(rows, project, f, t, pk, dir) && NoLostDeletion(rows, project, f, t, pk, dir) {
      forall k ensures Get(result, k) == Get(target, k) {
        CaughtUpAsReceived(rows, project, latest, f, t, pk, dir, ws, k);
      }
      SameDirectory(result, target);
    }
  }

  /**
    The end of an update that was answered `toVersion`, whatever others have committed since, unless the answer is the next
    version: when the difference to the latest version is not empty, that is the version recorded, and the directory is what it
    is received as exactly under the conditions of the catch-up.
  */
  lemma EndsAtLatest(rows: set<Row>, project: int, v: int, toVersion: int, latest: int, pk: Matcher, dir: Directory, stream: seq<Change>)
    requires Good(rows, project, latest, pk) && Unobstructed(rows, project, v, latest, pk) && 0 <= v <= latest
    requires toVersion <= latest && v + 1 != toVersion
    requires Arrives(stream, rows, project, v, latest) && Diff(rows, project, v, latest) != {}
    ensures var (dir', recorded) := Finished(dir, v, toVersion, latest, stream);
            && recorded == latest
            && (dir' == Received(Files(rows, project, latest, pk)) <==>
                EditsAgreeAsReceived(rows, project, v, latest, pk, dir) && NoLostDeletion(rows, project, v, latest, pk, dir))
  {
    var c :| c in Diff(rows, project, v, latest);
    assert Sent(c) in stream;
    CatchUpReceivedIff(rows, project, latest, v, latest, pk, dir, stream);
  }

  // ----- The batch has arrived -----

  /** With distinct paths, a path of the batch is decided by its one object. */
  lemma OnlyUpdate(batch: seq<Object>, o: Object)
    requires DistinctPaths(batch) && o in batch
    ensures FindUpdate(batch, o.path) == Some(o)
  {
  }

  /** A path of a tree-shaped target is not a marker above a write of the batch that made it. */
  lemma MarkersOfTarget(base: Directory, target: Directory, before: Directory, pk: Matcher, batch: seq<Object>, k: Path)
    requires IsEdit(target, before, pk, batch) && TreeShaped(target) && k in target
    requires FindUpdate(batch, k) == None && DistinctPaths(batch)
    ensures !MarkerGone(base, pk, batch, k)
  {
    forall o | o in batch && !o.deleted && PackParent(pk, o.path) == None ensures !IsDirAbove(k, o.path) {
      OnlyUpdate(batch, o);
      assert Get(target, o.path) == Edited(before, pk, batch, o.path);
      assert !Covers(k, o.path);
    }
  }

  lemma AddedStays(base: Directory, target: Directory, before: Directory, pk: Matcher, batch: seq<Object>, k: Path)
    requires IsEdit(target, before, pk, batch) && Edited(base, pk, batch, k).Some? && k !in base
    ensures k in target
  {
    assert Get(target, k) == Edited(before, pk, batch, k);
  }

  // ----- What a client with edits ends with -----

  /** The same, but for what does not travel in a tar. */
  ghost predicate Alike(a: Directory, b: Directory) {
    Received(a) == Received(b)
  }

  lemma AlikeFiles(a: Directory, b: Directory, k: Path)
    requires Alike(a, b)
    ensures k in a <==> k in b
    ensures k in a ==> NormalFile(a[k]) == NormalFile(b[k])
  {
    assert k in Received(a) <==> k in a;
    assert k in Received(b) <==> k in b;
    assert k in a ==> Received(a)[k] == NormalFile(a[k]);
    assert k in b ==> Received(b)[k] == NormalFile(b[k]);
  }

  /** What the batch sets outside the packs is plain. */
  predicate PlainBatch(pk: Matcher, batch: seq<Object>) {
    forall o :: o in batch && !o.deleted && PackParent(pk, o.path) == None ==> Plain(o.mode, o.content)
  }

  /**
    The file a client with edits may end with where version `t` has one: that file as it is sent, the one it set
    itself, or the one it had before, if that is as old as version `f`. `from` is the directory it edited.
  */
  ghost predicate EndsAs(rows: set<Row>, project: int, f: int, t: int, pk: Matcher, from: Directory, batch: seq<Object>,
                         k: Path, r: Option<File>)
  {
    var base, target := Files(rows, project, f, pk), Files(rows, project, t, pk);
    if k !in target then r == None
    else
      || (r == Some(NormalFile(target[k])) && !FromBefore(rows, project, f, t, pk, k))
      || (r == Some(target[k]) && FindUpdate(batch, k).Some?)
      || (r == Get(from, k) && k in base && base[k] == target[k])
  }

  ghost predicate Ends(rows: set<Row>, project: int, f: int, t: int, pk: Matcher, from: Directory, batch: seq<Object>, dir: Directory) {
    forall k :: EndsAs(rows, project, f, t, pk, from, batch, k, Get(dir, k))
  }

  /** A path the batch names is in both edits or in neither, and the file is the same. */
  lemma NamedAlike(a: Directory, b: Directory, x: Directory, y: Directory, pk: Matcher, batch: seq<Object>, k: Path)
    requires IsEdit(a, x, pk, batch) && IsEdit(b, y, pk, batch) && FindUpdate(batch, k).Some?
    ensures Get(a, k) == Get(b, k)
  {
    assert Get(a, k) == Edited(x, pk, batch, k);
    assert Get(b, k) == Edited(y, pk, batch, k);
  }

  /** A file of the version that the edits of an earlier one do not name, and that is as old as that. */
  lemma OldFileOfEdit(from: Directory, dir: Directory, target: Directory, before: Directory, pk: Matcher, batch: seq<Object>, k: Path)
    requires IsEdit(dir, from, pk, batch) && IsEdit(target, before, pk, batch)
    requires TreeShaped(target) && DistinctPaths(batch) && k in target && FindUpdate(batch, k) == None
    ensures Get(dir, k) == Get(from, k)
  {
    MarkersOfTarget(from, target, before, pk, batch, k);
    assert Get(dir, k) == Edited(from, pk, batch, k);
  }

  /** A catch-up with what arrives, path by path, for any directory that was edited from one like version `f`. */
  lemma RebuiltEdit(rows: set<Row>, project: int, latest: int, f: int, t: int, pk: Matcher, from: Directory, dir: Directory,
                    batch: seq<Object>, before: Directory, ws: seq<Change>, k: Path)
    requires Good(rows, project, latest, pk) && TreeShaped(Files(rows, project, t, pk)) && 0 <= f <= t
    requires Alike(from, Files(rows, project, f, pk)) && DistinctPaths(batch)
    requires IsEdit(dir, from, pk, batch) && IsEdit(Files(rows, project, t, pk), before, pk, batch)
    requires Arrives(ws, rows, project, f, t)
    ensures EndsAs(rows, project, f, t, pk, from, batch, k, Get(ApplyAll(dir, ws), k))
  {
    var base, target := Files(rows, project, f, pk), Files(rows, project, t, pk);
    var cs := SomeOrder(Diff(rows, project, f, t));
    TreesAreUnobstructed(rows, project, latest, f, t, pk);
    Ordered(rows, project, latest, f, t, pk, cs, ws);
    SentEffect(dir, cs, ws, k);
    CaughtUpFile(rows, project, latest, f, t, pk, dir, cs, k);
    AlikeFiles(from, base, k);
    if k in target {
      WrittenIffNotFromBefore(rows, project, latest, f, t, pk, k, cs);
      if FindUpdate(batch, k).Some? {
        NamedAlike(dir, target, from, before, pk, batch, k);
      } else {
        OldFileOfEdit(from, dir, target, before, pk, batch, k);
      }
    } else {
      NotWritten(rows, project, latest, f, t, pk, k, cs);
      assert Get(dir, k) == Edited(from, pk, batch, k);
      if k in dir && k !in from {
        AddedStays(from, target, before, pk, batch, k);
      }
    }
  }

  /** The shortcut: the directory is an edit like the one that made the next version. */
  lemma ShortcutEdit(rows: set<Row>, project: int, f: int, t: int, pk: Matcher, from: Directory, dir: Directory, batch: seq<Object>, k: Path)
    requires Alike(from, Files(rows, project, f, pk))
    requires TreeShaped(Files(rows, project, f, pk)) || from == Files(rows, project, f, pk)
    requires IsEdit(dir, from, pk, batch) && IsEdit(Files(rows, project, t, pk), Files(rows, project, f, pk), pk, batch)
    ensures EndsAs(rows, project, f, t, pk, from, batch, k, Get(dir, k))
  {
    var base, target := Files(rows, project, f, pk), Files(rows, project, t, pk);
    if FindUpdate(batch, k).Some? {
      NamedAlike(dir, target, from, base, pk, batch, k);
    } else {
      UnnamedAlike(from, base, dir, target, pk, batch, k);
    }
  }

  /** Two like trees lose the same paths to one batch. */
  lemma UnnamedAlike(from: Directory, base: Directory, dir: Directory, target: Directory, pk: Matcher, batch: seq<Object>, k: Path)
    requires Alike(from, base) && (TreeShaped(base) || from == base) && FindUpdate(batch, k) == None
    requires IsEdit(dir, from, pk, batch) && IsEdit(target, base, pk, batch)
    ensures k in dir <==> k in target
    ensures k in target ==> k in base && k in from && target[k] == base[k] && dir[k] == from[k]
  {
    AlikeFiles(from, base, k);
    assert Get(dir, k) == Edited(from, pk, batch, k);
    assert Get(target, k) == Edited(base, pk, batch, k);
    if from != base && k in base && PackParent(pk, k) == None {
      LikeTrees(from, base);
      FilledIsGone(from, pk, batch, k);
      FilledIsGone(base, pk, batch, k);
    }
  }

  lemma LikeTrees(a: Directory, b: Directory)
    requires Alike(a, b)
    ensures TreeShaped(a) <==> TreeShaped(b)
  {
    forall k ensures k in a <==> k in b {
      AlikeFiles(a, b, k);
    }
  }

  /** Whichever it is, it is like the version. */
  lemma EndsAlike(rows: set<Row>, project: int, f: int, t: int, pk: Matcher, from: Directory, batch: seq<Object>, dir: Directory)
    requires Alike(from, Files(rows, project, f, pk)) && Ends(rows, project, f, t, pk, from, batch, dir)
    ensures Alike(dir, Files(rows, project, t, pk))
  {
    var base, target := Files(rows, project, f, pk), Files(rows, project, t, pk);
    forall k ensures Get(Received(dir), k) == Get(Received(target), k) {
      assert EndsAs(rows, project, f, t, pk, from, batch, k, Get(dir, k));
      AlikeFiles(from, base, k);
      if k in target {
        NormalFileIff(target[k]);
      }
    }
    SameDirectory(Received(dir), Received(target));
  }

  /** From what was received, with plain edits, it is what is received. */
  lemma EndsReceived(rows: set<Row>, project: int, f: int, t: int, pk: Matcher, batch: seq<Object>, before: Directory, dir: Directory)
    requires PlainBatch(pk, batch) && IsEdit(Files(rows, project, t, pk), before, pk, batch)
    requires Ends(rows, project, f, t, pk, Received(Files(rows, project, f, pk)), batch, dir)
    ensures dir == Received(Files(rows, project, t, pk))
  {
    var base, target := Files(rows, project, f, pk), Files(rows, project, t, pk);
    forall k ensures Get(dir, k) == Get(Received(target), k) {
      assert EndsAs(rows, project, f, t, pk, Received(base), batch, k, Get(dir, k));
      if k in target && FindUpdate(batch, k).Some? {
        assert Get(target, k) == Edited(before, pk, batch, k);
        NamedIsPlain(target, before, pk, batch, k);
      }
    }
    SameDirectory(dir, Received(target));
  }

  /** What a plain batch sets, loose or packed, is plain. */
  lemma NamedIsPlain(target: Directory, before: Directory, pk: Matcher, batch: seq<Object>, k: Path)
    requires PlainBatch(pk, batch) && Get(target, k) == Edited(before, pk, batch, k) && k in target && FindUpdate(batch, k).Some?
    ensures NormalFile(target[k]) == target[k]
  {
    var o := FindUpdate(batch, k).value;
    FindUpdateIsAMember(batch, k);
    if PackParent(pk, k) == None {
      NormalFileIff(FileOf(o));
    } else {
      EntriesAreNormal(Encode(o));
    }
  }

  /** From the exact files, with plain updates, it is the exact files. */
  lemma EndsExactly(rows: set<Row>, project: int, latest: int, f: int, t: int, pk: Matcher, batch: seq<Object>, dir: Directory)
    requires Good(rows, project, latest, pk) && PlainUpdates(rows, project, f, t)
    requires Ends(rows, project, f, t, pk, Files(rows, project, f, pk), batch, dir)
    ensures dir == Files(rows, project, t, pk)
  {
    var base, target := Files(rows, project, f, pk), Files(rows, project, t, pk);
    forall k ensures Get(dir, k) == Get(target, k) {
      assert EndsAs(rows, project, f, t, pk, base, batch, k, Get(dir, k));
      if k in target && !FromBefore(rows, project, f, t, pk, k) {
        UpdatedIsPlain(rows, project, latest, f, t, pk, k);
      }
    }
    SameDirectory(dir, target);
  }

  lemma UpdatedIsPlain(rows: set<Row>, project: int, latest: int, f: int, t: int, pk: Matcher, k: Path)
    requires Good(rows, project, latest, pk) && PlainUpdates(rows, project, f, t)
    requires k in Files(rows, project, t, pk) && !FromBefore(rows, project, f, t, pk, k)
    ensures NormalFile(Files(rows, project, t, pk)[k]) == Files(rows, project, t, pk)[k]
  {
    var r := RowOfFile(rows, project, latest, t, pk, k);
    var s :| s in rows && LiveAt(s, project, t) && s.path == RowPath(pk, k) && s.start > f;
    OneLiveRow(rows, project, latest, t, r, s);
    match r.hash.blob
    case Loose(bytes) => NormalFileIff(File(r.mode, bytes));
    case Pack(entries) =>
      FindIsAMember(entries, k);
      EntriesAreNormal(Find(entries, k).value);
  }

  // ----- The protocol -----

  /** The client's directory before it sends: one like its version, edited locally, as the batch says. */
  ghost predicate EditedFrom(a: Db, regex: Regex, project: int, v: int, from: Directory, dir: Directory, batch: seq<Object>) {
    && project in a.projects && 0 <= v <= a.projects[project].latest
    && ProperBatch(MatcherOf(regex, a.projects, project), batch)
    && Alike(from, FilesOf(a, regex, project, v)) && IsEdit(dir, from, MatcherOf(regex, a.projects, project), batch)
  }

  /** The directory it has received, with edits of plain mode. */
  ghost predicate EditedLocally(a: Db, regex: Regex, project: int, v: int, dir: Directory, batch: seq<Object>) {
    && EditedFrom(a, regex, project, v, Received(FilesOf(a, regex, project, v)), dir, batch)
    && PlainBatch(MatcherOf(regex, a.projects, project), batch)
  }

  /** The server made version `w` for the batch, and nobody has committed since. The versions in question are trees. */
  ghost predicate Committed(a: Db, b: Db, regex: Regex, project: int, batch: seq<Object>, w: int, v: int) {
    && project in a.projects && project in b.projects
    && UpdateStep(a, b, regex, project, batch, Ok(w)) && w == a.projects[project].latest + 1
    && TreeShaped(FilesOf(b, regex, project, w)) && (v + 1 == w ==> TreeShaped(FilesOf(a, regex, project, v)))
  }

  /** What arrives of a rebuild from v to the latest version of b. */
  ghost predicate Streams(stream: seq<Change>, b: Db, project: int, v: int)
    requires project in b.projects
  {
    Arrives(stream, b.objects, project, v, b.projects[project].latest)
  }

  /** Version v is unchanged by the update. */
  lemma OldVersionStands(a: Db, b: Db, regex: Regex, project: int, batch: seq<Object>, r: Result<int>, v: int)
    requires Valid(a, regex) && project in a.projects && v <= a.projects[project].latest
    requires ProperBatch(MatcherOf(regex, a.projects, project), batch)
    requires UpdateStep(a, b, regex, project, batch, r)
    ensures FilesOf(b, regex, project, v) == FilesOf(a, regex, project, v)
  {
    ProperIsSafe(MatcherOf(regex, a.projects, project), batch);
    UpdateEditsLatest(a, b, regex, project, batch, r);
    UpdateKeepsValid(a, b, regex, project, batch, r);
    if r != Ok(a.projects[project].latest) {
      VersionStands(a, b, regex, project, v);
    }
  }

  /** After the update, in terms of the rows it left. */
  lemma UpdatedRows(a: Db, b: Db, regex: Regex, project: int, batch: seq<Object>, r: Result<int>, v: int)
    requires Valid(a, regex) && project in a.projects && 0 <= v <= a.projects[project].latest
    requires ProperBatch(MatcherOf(regex, a.projects, project), batch)
    requires UpdateStep(a, b, regex, project, batch, r)
    ensures r.Ok? && project in b.projects && b.projects[project].latest == r.value >= v
    ensures var pk := MatcherOf(regex, a.projects, project);
            && Good(b.objects, project, r.value, pk)
            && FilesOf(b, regex, project, v) == FilesOf(a, regex, project, v)
            && FilesOf(b, regex, project, r.value) == Files(b.objects, project, r.value, pk)
            && FilesOf(a, regex, project, v) == Files(b.objects, project, v, pk)
            && IsEdit(Files(b.objects, project, r.value, pk), FilesOf(a, regex, project, a.projects[project].latest), pk, batch)
  {
    UpdateEditsLatest(a, b, regex, project, batch, r);
    OldVersionStands(a, b, regex, project, batch, r, v);
    assert GoodProject(b, regex, project);
  }

  /** Whatever other clients committed before the batch arrived, a rebuild after it leads from anything like version v to the new version. */
  lemma RebuildEnds(a: Db, b: Db, regex: Regex, project: int, batch: seq<Object>, r: Result<int>, v: int,
                    from: Directory, dir: Directory, stream: seq<Change>)
    requires Valid(a, regex) && EditedFrom(a, regex, project, v, from, dir, batch)
    requires UpdateStep(a, b, regex, project, batch, r)
    requires r.Ok? && TreeShaped(FilesOf(b, regex, project, r.value))
    requires project in b.projects && Streams(stream, b, project, v)
    ensures Ends(b.objects, project, v, r.value, MatcherOf(regex, a.projects, project), from, batch, ApplyAll(dir, stream))
  {
    var pk, before := MatcherOf(regex, a.projects, project), FilesOf(a, regex, project, a.projects[project].latest);
    UpdatedRows(a, b, regex, project, batch, r, v);
    RebuildEndsAt(b.objects, project, v, r.value, pk, from, dir, batch, before, stream);
  }

  lemma RebuildEndsAt(rows: set<Row>, project: int, v: int, w: int, pk: Matcher, from: Directory, dir: Directory,
                      batch: seq<Object>, before: Directory, stream: seq<Change>)
    requires Good(rows, project, w, pk) && TreeShaped(Files(rows, project, w, pk)) && 0 <= v <= w
    requires Alike(from, Files(rows, project, v, pk)) && DistinctPaths(batch)
    requires IsEdit(dir, from, pk, batch) && IsEdit(Files(rows, project, w, pk), before, pk, batch)
    requires Arrives(stream, rows, project, v, w)
    ensures Ends(rows, project, v, w, pk, from, batch, ApplyAll(dir, stream))
  {
    forall k ensures EndsAs(rows, project, v, w, pk, from, batch, k, Get(ApplyAll(dir, stream), k)) {
      RebuiltEdit(rows, project, w, v, w, pk, from, dir, batch, before, stream, k);
    }
  }

  /** In particular, from what was received, with edits of plain mode, to what is received. */
  lemma RebuildAfterUpdate(a: Db, b: Db, regex: Regex, project: int, batch: seq<Object>, r: Result<int>,
                           v: int, dir: Directory, stream: seq<Change>)
    requires Valid(a, regex) && EditedLocally(a, regex, project, v, dir, batch)
    requires UpdateStep(a, b, regex, project, batch, r)
    requires r.Ok? && TreeShaped(FilesOf(b, regex, project, r.value))
    requires project in b.projects && Streams(stream, b, project, v)
    ensures b.projects[project].latest == r.value
    ensures ApplyAll(dir, stream) == Received(FilesOf(b, regex, project, r.value))
  {
    var pk, before := MatcherOf(regex, a.projects, project), FilesOf(a, regex, project, a.projects[project].latest);
    UpdatedRows(a, b, regex, project, batch, r, v);
    RebuildEnds(a, b, regex, project, batch, r, v, Received(FilesOf(a, regex, project, v)), dir, stream);
    EndsReceived(b.objects, project, v, r.value, pk, batch, before, ApplyAll(dir, stream));
  }

  /** How the update of a client ends, in terms of the rows: at the new version, unless there was nothing to stream. */
  lemma FinishEnds(rows: set<Row>, project: int, v: int, w: int, pk: Matcher, from: Directory, dir: Directory,
                   batch: seq<Object>, before: Directory, stream: seq<Change>)
    requires Good(rows, project, w, pk) && TreeShaped(Files(rows, project, w, pk)) && 0 <= v < w
    requires Alike(from, Files(rows, project, v, pk)) && DistinctPaths(batch)
    requires IsEdit(dir, from, pk, batch) && IsEdit(Files(rows, project, w, pk), before, pk, batch)
    requires v + 1 == w ==> before == Files(rows, project, v, pk) && (TreeShaped(Files(rows, project, v, pk)) || from == before)
    requires Arrives(stream, rows, project, v, w)
    ensures var (dir', recorded) := Finished(dir, v, w, w, stream);
            && Ends(rows, project, v, w, pk, from, batch, dir')
            && (recorded == w || (stream == [] && dir' == dir && Alike(dir, Files(rows, project, v, pk))))
  {
    if v + 1 == w {
      forall k ensures EndsAs(rows, project, v, w, pk, from, batch, k, Get(dir, k)) {
        ShortcutEdit(rows, project, v, w, pk, from, dir, batch, k);
      }
    } else {
      RebuildEndsAt(rows, project, v, w, pk, from, dir, batch, before, stream);
      if stream == [] {
        EndsAlike(rows, project, v, w, pk, from, batch, dir);
        NothingArrives(rows, project, v, w, pk);
      }
    }
  }

  /** Like the version, for every client. */
  lemma FinishLike(rows: set<Row>, project: int, v: int, w: int, pk: Matcher, from: Directory, dir: Directory,
                   batch: seq<Object>, before: Directory, stream: seq<Change>)
    requires Good(rows, project, w, pk) && TreeShaped(Files(rows, project, w, pk)) && 0 <= v < w
    requires Alike(from, Files(rows, project, v, pk)) && DistinctPaths(batch) && !Alike(dir, Files(rows, project, v, pk))
    requires IsEdit(dir, from, pk, batch) && IsEdit(Files(rows, project, w, pk), before, pk, batch)
    requires v + 1 == w ==> before == Files(rows, project, v, pk) && TreeShaped(Files(rows, project, v, pk))
    requires Arrives(stream, rows, project, v, w)
    ensures Alike(Finished(dir, v, w, w, stream).0, Files(rows, project, w, pk)) && Finished(dir, v, w, w, stream).1 == w
  {
    FinishEnds(rows, project, v, w, pk, from, dir, batch, before, stream);
    EndsAlike(rows, project, v, w, pk, from, batch, Finished(dir, v, w, w, stream).0);
  }

  /** Exactly as it is received, for a client that has received its version and made plain edits. */
  lemma FinishReceived(rows: set<Row>, project: int, v: int, w: int, pk: Matcher, dir: Directory,
                       batch: seq<Object>, before: Directory, stream: seq<Change>)
    requires Good(rows, project, w, pk) && TreeShaped(Files(rows, project, w, pk)) && 0 <= v < w
    requires DistinctPaths(batch) && PlainBatch(pk, batch) && dir != Received(Files(rows, project, v, pk))
    requires IsEdit(dir, Received(Files(rows, project, v, pk)), pk, batch) && IsEdit(Files(rows, project, w, pk), before, pk, batch)
    requires v + 1 == w ==> before == Files(rows, project, v, pk) && TreeShaped(Files(rows, project, v, pk))
    requires Arrives(stream, rows, project, v, w)
    ensures Finished(dir, v, w, w, stream) == (Received(Files(rows, project, w, pk)), w)
  {
    ReceivedIsLike(Files(rows, project, v, pk));
    FinishEnds(rows, project, v, w, pk, Received(Files(rows, project, v, pk)), dir, batch, before, stream);
    EndsReceived(rows, project, v, w, pk, batch, before, Finished(dir, v, w, w, stream).0);
    if stream == [] {
      NothingArrives(rows, project, v, w, pk);
    }
  }

  lemma ReceivedIsLike(dir: Directory)
    ensures Alike(Received(dir), dir)
  {
    forall k | k in dir ensures NormalFile(NormalFile(dir[k])) == NormalFile(dir[k]) {
      NormalFileIff(dir[k]);
    }
  }

  /** Two versions between which nothing arrives are alike. */
  lemma NothingArrives(rows: set<Row>, project: int, v: int, w: int, pk: Matcher)
    requires Good(rows, project, w, pk) && TreeShaped(Files(rows, project, w, pk)) && 0 <= v <= w
    requires Arrives([], rows, project, v, w)
    ensures Diff(rows, project, v, w) == {} && Files(rows, project, v, pk) == Files(rows, project, w, pk)
  {
    assert forall c :: c in Diff(rows, project, v, w) ==> Sent(c) in [];
    TreesAreUnobstructed(rows, project, w, v, w, pk);
    DiffReachesTarget(rows, project, w, v, w, pk, []);
  }

  /** Which of these are trees, in terms of the rows. */
  lemma CommittedTrees(a: Db, b: Db, regex: Regex, project: int, batch: seq<Object>, w: int, v: int)
    requires Valid(a, regex) && project in a.projects && 0 <= v <= a.projects[project].latest
    requires ProperBatch(MatcherOf(regex, a.projects, project), batch) && Committed(a, b, regex, project, batch, w, v)
    ensures var pk := MatcherOf(regex, a.projects, project);
            && TreeShaped(Files(b.objects, project, w, pk))
            && (v + 1 == w ==> TreeShaped(Files(b.objects, project, v, pk)))
  {
    UpdatedRows(a, b, regex, project, batch, Ok(w), v);
    SameTrees();
  }

  /** The shortcut: the latest version before the update is the client's. */
  lemma OwnIsLatest(a: Db, b: Db, regex: Regex, project: int, batch: seq<Object>, w: int, v: int)
    requires Valid(a, regex) && project in a.projects && 0 <= v == a.projects[project].latest
    requires ProperBatch(MatcherOf(regex, a.projects, project), batch) && UpdateStep(a, b, regex, project, batch, Ok(w))
    ensures FilesOf(a, regex, project, a.projects[project].latest) ==
            Files(b.objects, project, v, MatcherOf(regex, a.projects, project))
  {
    UpdatedRows(a, b, regex, project, batch, Ok(w), v);
  }

  lemma SameTrees()
    ensures forall x, y :: x == y && TreeShaped(x) ==> TreeShaped(y)
  {
  }

  /**
    The client's update, for every client and every mode of its files: when it has edits of its own, the server created
    version w for them, and nobody has committed since, the client ends with a directory like version w and records w.
  */
  lemma ClientEndsLike(a: Db, b: Db, regex: Regex, project: int, batch: seq<Object>, w: int, v: int,
                       from: Directory, dir: Directory, stream: seq<Change>)
    requires Valid(a, regex) && EditedFrom(a, regex, project, v, from, dir, batch) && !Alike(dir, FilesOf(a, regex, project, v))
    requires Committed(a, b, regex, project, batch, w, v) && Streams(stream, b, project, v)
    ensures var (dir', recorded) := Finished(dir, v, w, b.projects[project].latest, stream);
            Alike(dir', FilesOf(b, regex, project, w)) && recorded == w
  {
    var pk, before := MatcherOf(regex, a.projects, project), FilesOf(a, regex, project, a.projects[project].latest);
    UpdatedRows(a, b, regex, project, batch, Ok(w), v);
    CommittedTrees(a, b, regex, project, batch, w, v);
    if v + 1 == w {
      OwnIsLatest(a, b, regex, project, batch, w, v);
    }
    FinishLike(b.objects, project, v, w, pk, from, dir, batch, before, stream);
  }

  /** From the directory it has received, with edits of plain mode, the client ends with exactly what version w is received as. */
  lemma ClientEndsAtItsVersion(a: Db, b: Db, regex: Regex, project: int, batch: seq<Object>, w: int,
                               v: int, dir: Directory, stream: seq<Change>)
    requires Valid(a, regex) && EditedLocally(a, regex, project, v, dir, batch) && dir != Received(FilesOf(a, regex, project, v))
    requires Committed(a, b, regex, project, batch, w, v) && Streams(stream, b, project, v)
    ensures Finished(dir, v, w, b.projects[project].latest, stream) == (Received(FilesOf(b, regex, project, w)), w)
  {
    var pk, before := MatcherOf(regex, a.projects, project), FilesOf(a, regex, project, a.projects[project].latest);
    UpdatedRows(a, b, regex, project, batch, Ok(w), v);
    CommittedTrees(a, b, regex, project, batch, w, v);
    if v + 1 == w {
      OwnIsLatest(a, b, regex, project, batch, w, v);
    }
    FinishReceived(b.objects, project, v, w, pk, dir, batch, before, stream);
  }

  /** From the exact files, when what was written since is plain, it ends with the exact files. */
  lemma ClientEndsExactly(a: Db, b: Db, regex: Regex, project: int, batch: seq<Object>, w: int,
                          v: int, dir: Directory, stream: seq<Change>)
    requires Valid(a, regex) && EditedFrom(a, regex, project, v, FilesOf(a, regex, project, v), dir, batch)
    requires dir != FilesOf(a, regex, project, v) && PlainUpdates(b.objects, project, v, w)
    requires Committed(a, b, regex, project, batch, w, v) && Streams(stream, b, project, v)
    ensures Finished(dir, v, w, b.projects[project].latest, stream) == (FilesOf(b, regex, project, w), w)
  {
    var pk, before := MatcherOf(regex, a.projects, project), FilesOf(a, regex, project, a.projects[project].latest);
    UpdatedRows(a, b, regex, project, batch, Ok(w), v);
    CommittedTrees(a, b, regex, project, batch, w, v);
    if v + 1 == w {
      OwnIsLatest(a, b, regex, project, batch, w, v);
    }
    FinishEnds(b.objects, project, v, w, pk, FilesOf(a, regex, project, v), dir, batch, before, stream);
    EndsExactly(b.objects, project, w, v, w, pk, batch, Finished(dir, v, w, w, stream).0);
    if stream == [] && v + 1 != w {
      NothingArrives(b.objects, project, v, w, pk);
    }
  }

  /** The new version is recorded, whatever the directory, if and only if it is the next one or the difference to it is not empty. */
  lemma RecordsIff(rows: set<Row>, project: int, v: int, w: int, dir: Directory, stream: seq<Change>)
    requires v < w && Arrives(stream, rows, project, v, w)
    ensures Finished(dir, v, w, w, stream).1 == w <==> v + 1 == w || Diff(rows, project, v, w) != {}
  {
    if c :| c in Diff(rows, project, v, w) {
      assert Sent(c) in stream;
    }
    if stream != [] {
      assert stream[0] in stream;
    }
  }

  // ----- The shortcut when the server had nothing to do -----

  /** The last commit of the others touched nothing outside the batch. */
  ghost predicate NothingElseChanged(earlier: Directory, later: Directory, pk: Matcher, batch: seq<Object>) {
    forall k :: FindUpdate(batch, k) == None && !(PackParent(pk, k) == None && MarkerGone(earlier, pk, batch, k))
                ==> Get(earlier, k) == Get(later, k)
  }

  lemma EditIsReceivedAt(after: Directory, before: Directory, pk: Matcher, batch: seq<Object>, k: Path)
    requires Get(after, k) == Edited(before, pk, batch, k) && TreeShaped(before) && PlainBatch(pk, batch)
    ensures Get(Received(after), k) == Edited(Received(before), pk, batch, k)
  {
    if FindUpdate(batch, k).Some? {
      if k in after {
        NamedIsPlain(after, before, pk, batch, k);
      }
    } else if k in before && PackParent(pk, k) == None {
      ReceivedIsLike(before);
      LikeTrees(Received(before), before);
      FilledIsGone(before, pk, batch, k);
      FilledIsGone(Received(before), pk, batch, k);
    }
  }

  /** An edit of a tree, as it is received, is the edit of what is received of it. */
  lemma EditIsReceived(after: Directory, before: Directory, pk: Matcher, batch: seq<Object>)
    requires IsEdit(after, before, pk, batch) && TreeShaped(before) && PlainBatch(pk, batch)
    ensures IsEdit(Received(after), Received(before), pk, batch)
  {
    forall k ensures Get(Received(after), k) == Edited(Received(before), pk, batch, k) {
      EditIsReceivedAt(after, before, pk, batch, k);
    }
  }

  /**
    When the batch brings nothing new, the server answers with its latest version. If that
    is v + 1, somebody else's, the client takes the shortcut all the same: it records
    v + 1 without a rebuild. Its directory is then the one of v + 1 exactly when that other
    commit changed nothing outside the client's own batch.
  */
  lemma ShortcutWithoutUpdateIff(a: Db, b: Db, regex: Regex, project: int, batch: seq<Object>, v: int, dir: Directory, stream: seq<Change>)
    requires Valid(a, regex) && EditedLocally(a, regex, project, v, dir, batch)
    requires v + 1 == a.projects[project].latest
    requires UpdateStep(a, b, regex, project, batch, Ok(v + 1))
    requires TreeShaped(FilesOf(a, regex, project, v + 1))
    ensures project in b.projects && FilesOf(b, regex, project, v + 1) == FilesOf(a, regex, project, v + 1)
    ensures var (dir', recorded) := Finished(dir, v, v + 1, b.projects[project].latest, stream);
            && recorded == v + 1 && dir' == dir
            && (dir' == Received(FilesOf(b, regex, project, recorded)) <==>
                NothingElseChanged(Received(FilesOf(a, regex, project, v)), Received(FilesOf(a, regex, project, v + 1)),
                                   MatcherOf(regex, a.projects, project), batch))
  {
    var pk := MatcherOf(regex, a.projects, project);
    UpdateEditsLatest(a, b, regex, project, batch, Ok(v + 1));
    OldVersionStands(a, b, regex, project, batch, Ok(v + 1), v + 1);
    SameReceivedIff(dir, FilesOf(a, regex, project, v), FilesOf(a, regex, project, v + 1), pk, batch);
  }

  lemma SameReceivedIff(dir: Directory, earlier: Directory, later: Directory, pk: Matcher, batch: seq<Object>)
    requires IsEdit(dir, Received(earlier), pk, batch) && IsEdit(later, later, pk, batch) && PlainBatch(pk, batch)
    requires DistinctPaths(batch) && TreeShaped(later)
    ensures dir == Received(later) <==> NothingElseChanged(Received(earlier), Received(later), pk, batch)
  {
    EditIsReceived(later, later, pk, batch);
    ReceivedIsLike(later);
    LikeTrees(Received(later), later);
    SameTargetIff(dir, Received(earlier), Received(later), pk, batch);
  }

  lemma SameTargetIff(dir: Directory, earlier: Directory, later: Directory, pk: Matcher, batch: seq<Object>)
    requires IsEdit(dir, earlier, pk, batch) && IsEdit(later, later, pk, batch)
    requires DistinctPaths(batch) && TreeShaped(later)
    ensures dir == later <==> NothingElseChanged(earlier, later, pk, batch)
  {
    forall k ensures Get(dir, k) == Edited(earlier, pk, batch, k) && Get(later, k) == Edited(later, pk, batch, k) {
    }
    if NothingElseChanged(earlier, later, pk, batch) {
      forall k ensures Get(dir, k) == Get(later, k) {
        if FindUpdate(batch, k) == None && k in later {
          MarkersOfTarget(earlier, later, later, pk, batch, k);
        }
      }
      SameDirectory(dir, later);
    }
    if dir == later {
      forall k | FindUpdate(batch, k) == None && !(PackParent(pk, k) == None && MarkerGone(earlier, pk, batch, k))
        ensures Get(earlier, k) == Get(later, k)
      {
        assert Get(dir, k) == Get(later, k);
      }
    }
  }
}
