/**
  The dl.objects table: rows with a version interval, the three unique indexes of the
  migrations, and the two ways to read a version of a project: the stored object at a
  path, and the files a client sees (with every pack expanded).
*/
module Table {
  import opened Paths
  import opened TarFormat
  import opened PackMerge
  import opened PackLaws

  /** What a content hash stands for: the bytes of one file, or the entries of one pack. */
  datatype Blob = Loose(bytes: Bytes) | Pack(entries: seq<TarEntry>)

  /** A collision-free hash, represented by what it was computed from; Zero is the all-zero hash. */
  datatype Hash = Zero | Digest(blob: Blob)

  function HashContent(b: Blob): Hash {
    Digest(b)
  }

  /** Stands for the byte length of the compressed tar; nothing depends on which function it is. */
  function PackSize(entries: seq<TarEntry>): nat {
    if entries == [] then 0 else |entries[0].name| + |entries[0].body| + PackSize(entries[1..])
  }

  /** `stop` is None where the column is NULL. */
  datatype Row = Row(project: int, start: int, stop: Option<int>, path: Path, hash: Hash, mode: int, size: int, packed: bool)

  // ----- Intervals -----

  predicate LiveAt(r: Row, project: int, v: int) {
    r.project == project && r.start <= v && (r.stop.None? || v < r.stop.value)
  }

  predicate Live(r: Row, project: int) {
    r.project == project && r.stop.None?
  }

  predicate Disjoint(r: Row, s: Row) {
    (r.stop.Some? && r.stop.value <= s.start) || (s.stop.Some? && s.stop.value <= r.start)
  }

  predicate InBounds(r: Row, latest: int) {
    1 <= r.start <= latest && (r.stop.Some? ==> r.start < r.stop.value <= latest)
  }

  /** Intervals lie within 1..latest, and those of one path never overlap. */
  ghost predicate Intervals(rows: set<Row>, project: int, latest: int) {
    && (forall r :: r in rows && r.project == project ==> InBounds(r, latest))
    && (forall r, s :: r in rows && s in rows && r != s && r.project == s.project == project && r.path == s.path
                       ==> Disjoint(r, s))
  }

  /** Packed rows sit exactly at pack parents and hold good packs; the others sit at loose paths. */
  predicate RowRouted(r: Row, pk: Matcher) {
    r.hash.Digest? &&
    if r.packed then
      && PackParent(pk, r.path) == Some(r.path)
      && r.hash.blob.Pack? && GoodPack(pk, r.path, r.hash.blob.entries)
      && r.mode == 0 && r.size == PackSize(r.hash.blob.entries)
    else
      PackParent(pk, r.path) == None && r.hash.blob.Loose?
  }

  ghost predicate Routed(rows: set<Row>, project: int, pk: Matcher) {
    forall r :: r in rows && r.project == project ==> RowRouted(r, pk)
  }

  ghost predicate Good(rows: set<Row>, project: int, latest: int, pk: Matcher) {
    Intervals(rows, project, latest) && Routed(rows, project, pk)
  }

  lemma OneLiveRow(rows: set<Row>, project: int, latest: int, v: int, r: Row, s: Row)
    requires Intervals(rows, project, latest)
    requires r in rows && s in rows && LiveAt(r, project, v) && LiveAt(s, project, v) && r.path == s.path
    ensures r == s
  {
  }

  // ----- The unique indexes -----

  /** Two rows that may not both be in the table; NULLs are distinct, so the first two indexes ignore live rows. */
  predicate Clash(r: Row, s: Row) {
    && r.project == s.project && r.path == s.path
    && if r.stop.Some? then r.stop == s.stop                                        // objects_latest_idx (implies objects_idx)
       else s.stop.None? && r.hash == s.hash && r.mode == s.mode                    // identical_objects_idx
  }

  /** UPDATE dl.objects SET stop_version = stop WHERE chosen. */
  function SetStop(rows: set<Row>, chosen: Row -> bool, stop: Option<int>): set<Row> {
    set r | r in rows :: Restop(r, chosen, stop)
  }

  function Restop(r: Row, chosen: Row -> bool, stop: Option<int>): Row {
    if chosen(r) then r.(stop := stop) else r
  }

  /** The update leaves two different rows with one index key. */
  predicate Violates(rows: set<Row>, chosen: Row -> bool, stop: Option<int>) {
    exists r, s :: r in rows && s in rows && r != s && Clash(Restop(r, chosen, stop), Restop(s, chosen, stop))
  }

  /** A table of separate intervals satisfies every unique index. */
  lemma IntervalsSatisfyIndexes(rows: set<Row>, project: int, latest: int, r: Row, s: Row)
    requires Intervals(rows, project, latest)
    requires r in rows && s in rows && r != s && r.project == project
    ensures !Clash(r, s)
  {
  }

  // ----- Reading a version -----

  /** The columns of a row that a reader gets. */
  datatype Stored = Stored(hash: Hash, mode: int, size: int, packed: bool)

  function StoredOf(r: Row): Stored {
    Stored(r.hash, r.mode, r.size, r.packed)
  }

  ghost predicate HasRowAt(rows: set<Row>, project: int, v: int, path: Path) {
    exists r :: r in rows && LiveAt(r, project, v) && r.path == path
  }

  /** The row of a path at a version. */
  ghost function RowAt(rows: set<Row>, project: int, v: int, path: Path): (r: Row)
    requires HasRowAt(rows, project, v, path)
    ensures r in rows && LiveAt(r, project, v) && r.path == path
  {
    var r :| r in rows && LiveAt(r, project, v) && r.path == path;
    r
  }

  /** The stored object at a path in a version. */
  ghost function ObjectAt(rows: set<Row>, project: int, v: int, path: Path): Option<Stored> {
    if HasRowAt(rows, project, v, path) then Some(StoredOf(RowAt(rows, project, v, path))) else None
  }

  /** The row of a path in a version is whichever live row one finds. */
  lemma ObjectAtIs(rows: set<Row>, project: int, latest: int, v: int, r: Row)
    requires Intervals(rows, project, latest)
    requires r in rows && LiveAt(r, project, v)
    ensures HasRowAt(rows, project, v, r.path) && RowAt(rows, project, v, r.path) == r
    ensures ObjectAt(rows, project, v, r.path) == Some(StoredOf(r))
  {
  }

  // ----- The files of a version -----

  /** A file, a symlink or an empty directory, as a client sees it. */
  datatype File = File(mode: int, content: Bytes)

  type Directory = map<Path, File>

  function FileOf(o: Object): File {
    File(o.mode, o.content)
  }

  function Get(dir: Directory, k: Path): Option<File> {
    if k in dir then Some(dir[k]) else None
  }

  /** The paths a row contributes: its own, or those of its pack's entries. */
  function Contents(r: Row): set<Path> {
    if r.packed && r.hash.Digest? && r.hash.blob.Pack? then Names(r.hash.blob.entries) else {r.path}
  }

  function FileIn(s: Stored, path: Path, k: Path): Option<File> {
    if !s.hash.Digest? then None
    else
      match s.hash.blob
      case Pack(entries) => (match Find(entries, k) case None => None case Some(e) => Some(FileOf(Decode(e))))
      case Loose(bytes) => if k == path then Some(File(s.mode, bytes)) else None
  }

  ghost function FileAt(rows: set<Row>, project: int, v: int, pk: Matcher, k: Path): Option<File> {
    var path := RowPath(pk, k);
    match ObjectAt(rows, project, v, path)
    case None => None
    case Some(s) => FileIn(s, path, k)
  }

  ghost function PathsAt(rows: set<Row>, project: int, v: int): set<Path> {
    set r, k | r in rows && LiveAt(r, project, v) && k in Contents(r) :: k
  }

  /** The directory a client has at a version: every loose object and every entry of every pack. */
  ghost function Files(rows: set<Row>, project: int, v: int, pk: Matcher): Directory {
    map k | k in PathsAt(rows, project, v) && FileAt(rows, project, v, pk, k).Some? :: FileAt(rows, project, v, pk, k).value
  }

  lemma ContentsRouted(r: Row, pk: Matcher, k: Path)
    requires RowRouted(r, pk)
    ensures k in Contents(r) <==> RowPath(pk, k) == r.path && FileIn(StoredOf(r), r.path, k).Some?
  {
    if r.packed {
      FindIsAMember(r.hash.blob.entries, k);
      if k in Contents(r) {
        var e :| e in r.hash.blob.entries && e.name == k;
      }
    }
  }

  /** The directory of a version, path by path. */
  lemma FilesGet(rows: set<Row>, project: int, latest: int, v: int, pk: Matcher, k: Path)
    requires Good(rows, project, latest, pk)
    ensures Get(Files(rows, project, v, pk), k) == FileAt(rows, project, v, pk, k)
  {
    if FileAt(rows, project, v, pk, k).Some? {
      ContentsRouted(RowAt(rows, project, v, RowPath(pk, k)), pk, k);
    }
  }

  lemma SameDirectory(a: Directory, b: Directory)
    requires forall k :: Get(a, k) == Get(b, k)
    ensures a == b
  {
    forall k ensures (k in a <==> k in b) && (k in a ==> a[k] == b[k]) {
      assert Get(a, k) == Get(b, k);
    }
  }

  /** The row that a file of a version comes from, and the fact that it determines the file. */
  lemma FileFromRow(rows: set<Row>, project: int, latest: int, v: int, pk: Matcher, r: Row, k: Path)
    requires Good(rows, project, latest, pk)
    requires r in rows && LiveAt(r, project, v) && k in Contents(r)
    ensures FileAt(rows, project, v, pk, k) == FileIn(StoredOf(r), r.path, k)
    ensures Get(Files(rows, project, v, pk), k) == FileIn(StoredOf(r), r.path, k)
    ensures k in Files(rows, project, v, pk) && RowPath(pk, k) == r.path
  {
    ContentsRouted(r, pk, k);
    ObjectAtIs(rows, project, latest, v, r);
    FilesGet(rows, project, latest, v, pk, k);
  }

  lemma RowOfFile(rows: set<Row>, project: int, latest: int, v: int, pk: Matcher, k: Path) returns (r: Row)
    requires Good(rows, project, latest, pk)
    requires k in Files(rows, project, v, pk)
    ensures r in rows && LiveAt(r, project, v) && k in Contents(r) && r.path == RowPath(pk, k)
    ensures Get(Files(rows, project, v, pk), k) == FileIn(StoredOf(r), r.path, k)
  {
    r := RowAt(rows, project, v, RowPath(pk, k));
    ContentsRouted(r, pk, k);
    FileFromRow(rows, project, latest, v, pk, r, k);
  }

  /** Tables that store the same objects show the same files. */
  lemma SameObjectsSameFiles(a: set<Row>, b: set<Row>, p: int, q: int, la: int, lb: int, v: int, w: int, pk: Matcher)
    requires Good(a, p, la, pk) && Good(b, q, lb, pk)
    requires forall path :: ObjectAt(a, p, v, path) == ObjectAt(b, q, w, path)
    ensures Files(a, p, v, pk) == Files(b, q, w, pk)
  {
    forall k ensures Get(Files(a, p, v, pk), k) == Get(Files(b, q, w, pk), k) {
      FilesGet(a, p, la, v, pk, k);
      FilesGet(b, q, lb, w, pk, k);
    }
    SameDirectory(Files(a, p, v, pk), Files(b, q, w, pk));
  }

  /** No file or marker has anything beneath it. */
  predicate TreeShaped(dir: Directory) {
    forall p, q :: p in dir && q in dir ==> !Covers(p, q)
  }
}
