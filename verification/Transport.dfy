/**
  What becomes of a difference on its way to the client. A loose file travels as a tar entry,
  which carries its permissions and its type only, so it arrives in the normal form of a tar.
*/
module Transport {
  import opened Paths
  import opened TarFormat
  import opened PackLaws
  import opened Table
  import opened Difference

  function AsObject(path: Path, f: File): Object {
    Object(path, f.mode, |f.content|, false, f.content)
  }

  /** A file as it comes out of a tar. */
  function NormalFile(f: File): File {
    FileOf(Normal(AsObject("", f)))
  }

  predicate PlainFile(f: File) {
    Plain(f.mode, f.content)
  }

  function NormalIfAny(f: Option<File>): Option<File> {
    match f case None => None case Some(file) => Some(NormalFile(file))
  }

  /** A change as it arrives. A pack is sent as it is stored. */
  function Sent(c: Change): Change {
    match c
    case PutFile(path, file) => PutFile(path, NormalFile(file))
    case _ => c
  }

  /** A directory as a client has it that has only ever received files. */
  function Received(dir: Directory): Directory {
    map k | k in dir :: NormalFile(dir[k])
  }

  lemma NormalFileIff(f: File)
    ensures NormalFile(f) == f <==> PlainFile(f)
    ensures NormalFile(NormalFile(f)) == NormalFile(f)
  {
    PlainIff(AsObject("", f));
    NormalForm(AsObject("", f));
    NormalIgnoresSize(Normal(AsObject("", f)), AsObject("", NormalFile(f)));
  }

  lemma NormalIgnoresSize(o: Object, p: Object)
    requires o.mode == p.mode && o.content == p.content
    ensures FileOf(Normal(o)) == FileOf(Normal(p))
  {
  }

  /** The entries of a pack are in normal form already. */
  lemma EntriesAreNormal(e: TarEntry)
    requires WellFormed(e)
    ensures NormalFile(FileOf(Decode(e))) == FileOf(Decode(e))
  {
    EncodeAfterDecode(e);
    NormalIgnoresSize(Decode(e), AsObject("", FileOf(Decode(e))));
  }

  predicate WellPacked(c: Change) {
    c.PutPack? ==> AllWellFormed(c.entries)
  }

  /** A change clears what it did and writes the same paths, with the files in normal form. */
  lemma SentWrites(c: Change, k: Path)
    requires WellPacked(c)
    ensures Clears(Sent(c), k) <==> Clears(c, k)
    ensures k in Writes(Sent(c)) <==> k in Writes(c)
    ensures k in Writes(c) ==> Writes(Sent(c))[k] == NormalFile(Writes(c)[k])
  {
    if c.PutPack? && k in Writes(c) {
      FindIsAMember(c.entries, k);
      EntriesAreNormal(Find(c.entries, k).value);
    }
  }

  /** `ws` is what arrives of `cs`, in any order and number. */
  ghost predicate Conveys(ws: seq<Change>, cs: seq<Change>) {
    forall w :: w in ws <==> exists c :: c in cs && Sent(c) == w
  }

  lemma SentCoherent(cs: seq<Change>, ws: seq<Change>)
    requires Coherent(cs) && Conveys(ws, cs) && forall c :: c in cs ==> WellPacked(c)
    ensures Coherent(ws)
  {
    forall w, x, k | w in ws && x in ws && k in Writes(x)
      ensures if k in Writes(w) then Writes(w)[k] == Writes(x)[k] else !Clears(w, k)
    {
      var c :| c in cs && Sent(c) == w;
      var d :| d in cs && Sent(d) == x;
      SentWrites(c, k);
      SentWrites(d, k);
    }
  }

  lemma SentCovers(cs: seq<Change>, ws: seq<Change>, k: Path)
    requires Conveys(ws, cs) && forall c :: c in cs ==> WellPacked(c)
    ensures WrittenBy(ws, k) <==> WrittenBy(cs, k)
    ensures ClearedBy(ws, k) <==> ClearedBy(cs, k)
  {
    forall c | c in cs ensures Sent(c) in ws && (k in Writes(Sent(c)) <==> k in Writes(c)) && (Clears(Sent(c), k) <==> Clears(c, k)) {
      SentWrites(c, k);
    }
    forall w | w in ws ensures (k in Writes(w) ==> WrittenBy(cs, k)) && (Clears(w, k) ==> ClearedBy(cs, k)) {
      var c :| c in cs && Sent(c) == w;
    }
  }

  /** Path by path: what is written arrives in normal form, the rest is as the changes themselves would leave it. */
  lemma SentEffect(dir: Directory, cs: seq<Change>, ws: seq<Change>, k: Path)
    requires Coherent(cs) && Conveys(ws, cs) && forall c :: c in cs ==> WellPacked(c)
    ensures Get(ApplyAll(dir, ws), k) ==
            if WrittenBy(cs, k) then NormalIfAny(Get(ApplyAll(dir, cs), k)) else Get(ApplyAll(dir, cs), k)
    ensures !WrittenBy(cs, k) ==> Get(ApplyAll(dir, cs), k) == if ClearedBy(cs, k) then None else Get(dir, k)
  {
    SentCoherent(cs, ws);
    SentCovers(cs, ws, k);
    ApplyAllEffect(dir, cs, k);
    ApplyAllEffect(dir, ws, k);
    if WrittenBy(cs, k) {
      var c :| c in cs && k in Writes(c);
      SentWrites(c, k);
      assert Sent(c) in ws;
    }
  }

  // ----- A difference on its way -----

  /** `ws` is what arrives of the difference: every change of it, as sent, and nothing else. */
  ghost predicate Arrives(ws: seq<Change>, rows: set<Row>, project: int, f: int, t: int) {
    forall w :: w in ws <==> exists c :: c in Diff(rows, project, f, t) && Sent(c) == w
  }

  /** The loose rows that the difference updates are plain. */
  ghost predicate PlainUpdates(rows: set<Row>, project: int, f: int, t: int) {
    forall u :: u in rows && IsUpdated(u, project, f, t) && u.hash.Digest? && u.hash.blob.Loose?
                ==> Plain(u.mode, u.hash.blob.bytes)
  }

  lemma DiffIsWellPacked(rows: set<Row>, project: int, latest: int, f: int, t: int, pk: Matcher, c: Change)
    requires Good(rows, project, latest, pk) && c in Diff(rows, project, f, t) && 0 <= f <= t
    ensures WellPacked(c)
  {
    DiffMember(rows, project, f, t, c);
  }

  /** Plain updates arrive as they are. */
  lemma PlainArrives(rows: set<Row>, project: int, latest: int, f: int, t: int, pk: Matcher, ws: seq<Change>)
    requires Good(rows, project, latest, pk) && 0 <= f <= t && PlainUpdates(rows, project, f, t)
    ensures Arrives(ws, rows, project, f, t) <==> Carries(ws, rows, project, f, t)
  {
    forall c | c in Diff(rows, project, f, t) ensures Sent(c) == c {
      DiffMember(rows, project, f, t, c);
      if c.PutFile? {
        NormalFileIff(c.file);
      }
    }
  }

  /** A directory that has only received files at `f` becomes the one that has only received files at `t`, for every store. */
  lemma ArrivalReachesTarget(rows: set<Row>, project: int, latest: int, f: int, t: int, pk: Matcher, ws: seq<Change>)
    requires Good(rows, project, latest, pk) && Unobstructed(rows, project, f, t, pk) && 0 <= f <= t
    requires Arrives(ws, rows, project, f, t)
    ensures ApplyAll(Received(Files(rows, project, f, pk)), ws) == Received(Files(rows, project, t, pk))
  {
    var base, target := Files(rows, project, f, pk), Files(rows, project, t, pk);
    var cs := SomeOrder(Diff(rows, project, f, t));
    Ordered(rows, project, latest, f, t, pk, cs, ws);
    forall k ensures Get(ApplyAll(Received(base), ws), k) == Get(Received(target), k) {
      SentEffect(Received(base), cs, ws, k);
      SentEffect(base, cs, ws, k);
      if WrittenBy(cs, k) {
        var c :| c in cs && k in Writes(c);
        ApplyAllEffect(base, cs, k);
        ApplyAllEffect(Received(base), cs, k);
      }
    }
    SameDirectory(ApplyAll(Received(base), ws), Received(target));
  }

  lemma Ordered(rows: set<Row>, project: int, latest: int, f: int, t: int, pk: Matcher, cs: seq<Change>, ws: seq<Change>)
    requires Good(rows, project, latest, pk) && Unobstructed(rows, project, f, t, pk) && 0 <= f <= t
    requires Carries(cs, rows, project, f, t) && Arrives(ws, rows, project, f, t)
    ensures Coherent(cs) && Conveys(ws, cs) && (forall c :: c in cs ==> WellPacked(c))
    ensures ApplyAll(Files(rows, project, f, pk), cs) == Files(rows, project, t, pk)
  {
    DiffIsCoherent(rows, project, latest, f, t, pk, cs);
    forall c | c in cs ensures WellPacked(c) {
      DiffIsWellPacked(rows, project, latest, f, t, pk, c);
    }
    DiffReachesTarget(rows, project, latest, f, t, pk, cs);
  }

  /** From the exact files of `f` the exact files of `t` are reached if and only if the updated loose rows are plain. */
  lemma ArrivalIsExactIff(rows: set<Row>, project: int, latest: int, f: int, t: int, pk: Matcher, ws: seq<Change>)
    requires Good(rows, project, latest, pk) && Unobstructed(rows, project, f, t, pk) && 0 <= f <= t
    requires Arrives(ws, rows, project, f, t)
    ensures ApplyAll(Files(rows, project, f, pk), ws) == Files(rows, project, t, pk) <==> PlainUpdates(rows, project, f, t)
  {
    if PlainUpdates(rows, project, f, t) {
      PlainArrives(rows, project, latest, f, t, pk, ws);
      DiffReachesTarget(rows, project, latest, f, t, pk, ws);
    } else {
      var u :| u in rows && IsUpdated(u, project, f, t) && u.hash.Digest? && u.hash.blob.Loose?
               && !Plain(u.mode, u.hash.blob.bytes);
      NotPlainDiffers(rows, project, latest, f, t, pk, ws, u);
    }
  }

  lemma NotPlainDiffers(rows: set<Row>, project: int, latest: int, f: int, t: int, pk: Matcher, ws: seq<Change>, u: Row)
    requires Good(rows, project, latest, pk) && Unobstructed(rows, project, f, t, pk) && 0 <= f <= t
    requires Arrives(ws, rows, project, f, t)
    requires u in rows && IsUpdated(u, project, f, t) && u.hash.Digest? && u.hash.blob.Loose?
    requires !Plain(u.mode, u.hash.blob.bytes)
    ensures Get(ApplyAll(Files(rows, project, f, pk), ws), u.path) != Get(Files(rows, project, t, pk), u.path)
  {
    var cs := SomeOrder(Diff(rows, project, f, t));
    Ordered(rows, project, latest, f, t, pk, cs, ws);
    DiffMember(rows, project, f, t, PutOf(u));
    assert PutOf(u) in cs && u.path in Writes(PutOf(u));
    SentEffect(Files(rows, project, f, pk), cs, ws, u.path);
    WrittenFiles(rows, project, latest, f, t, pk, u.path, PutOf(u));
    NormalFileIff(File(u.mode, u.hash.blob.bytes));
  }
}
