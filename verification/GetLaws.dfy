/**
  What Get and GetUnary return: the query of GetObjects, the contents behind its rows, and
  the objects that come out of the stream, compared with the files of the version.
*/
module GetLaws {
  import opened Paths
  import opened TarFormat
  import opened PackMerge
  import opened PackLaws
  import opened Table
  import opened Difference
  import opened Chunks
  import opened ObjectStreams
  import C = ContentCache

  // ----- From rows to bytes -----

  /** Writing and reading a tar, and the hash that stands for "no content". */
  datatype Archive = Archive(cd: C.Codec, tar: seq<TarEntry> -> Bytes, untar: Untar, noHash: C.Key)

  ghost predicate Lawful(ar: Archive) {
    && C.Lawful(ar.cd)
    && (forall entries :: ar.untar(ar.tar(entries)) == entries)
    && ar.untar([]) == []
    && HashOfNothing(ar.cd, ar.noHash)
  }

  function BytesOf(ar: Archive, b: Blob): Bytes {
    match b
    case Loose(bytes) => bytes
    case Pack(entries) => ar.tar(entries)
  }

  function KeyOf(ar: Archive, h: Hash): C.Key {
    if h.Digest? then ar.cd.hash(BytesOf(ar, h.blob)) else ar.noHash
  }

  /** A row of the result: an updated object or a removed one. */
  datatype Found = Present(row: Row) | Gone(row: Row)

  function ToDb(ar: Archive, x: Found): DbObject {
    match x
    case Present(r) => DbObject(KeyOf(ar, r.hash), r.path, r.mode, r.size, false, false, r.packed)
    case Gone(r) => DbObject(ar.noHash, r.path, r.mode, 0, true, false, r.packed)
  }

  /** The content table holds every row's content, each hash as one kind. */
  ghost predicate Held(ar: Archive, loose: C.Key -> bool, table: C.Contents, rows: set<Row>) {
    && C.AllIntact(ar.cd, loose, table)
    && forall r :: r in rows && r.hash.Digest? ==> KeyOf(ar, r.hash) in table && loose(KeyOf(ar, r.hash)) == !r.packed
  }

  function DbRows(ar: Archive, listing: seq<Found>): (rows: seq<DbObject>)
    ensures |rows| == |listing|
    ensures forall i :: 0 <= i < |rows| ==> rows[i] == ToDb(ar, listing[i])
  {
    seq(|listing|, i requires 0 <= i < |listing| => ToDb(ar, listing[i]))
  }

  /** The updated rows of a listing are rows of the table. */
  ghost predicate FromRows(listing: seq<Found>, rows: set<Row>) {
    forall i :: 0 <= i < |listing| && listing[i].Present? ==> listing[i].row in rows
  }

  lemma BackedListing(ar: Archive, loose: C.Key -> bool, table: C.Contents, rows: set<Row>, listing: seq<Found>)
    requires Lawful(ar) && Held(ar, loose, table, rows) && FromRows(listing, rows)
    ensures Backed(ar.cd, loose, table, DbRows(ar, listing))
  {
  }

  function Fetch(ar: Archive, table: C.Contents, x: Found): Fetched {
    var d := ToDb(ar, x);
    Fetched(d, ContentFor(ar.cd, table, d))
  }

  function FetchAll(ar: Archive, table: C.Contents, listing: seq<Found>): (items: seq<Fetched>)
    ensures |items| == |listing|
    ensures forall i :: 0 <= i < |listing| ==> items[i] == Fetch(ar, table, listing[i])
  {
    seq(|listing|, i requires 0 <= i < |listing| => Fetch(ar, table, listing[i]))
  }

  /** The objects in a row: itself, or the entries of its pack. */
  function ObjectsIn(r: Row): seq<Object> {
    if !r.hash.Digest? then []
    else
      match r.hash.blob
      case Pack(entries) => UnpackObjects(entries)
      case Loose(bytes) => [Object(r.path, r.mode, r.size, false, bytes)]
  }

  /** There is nothing to read for a removed row. */
  lemma GoneIsEmpty(ar: Archive, loose: C.Key -> bool, table: C.Contents, rows: set<Row>, r: Row)
    requires Lawful(ar) && Held(ar, loose, table, rows)
    ensures ContentFor(ar.cd, table, ToDb(ar, Gone(r))) == []
  {
  }

  /** The stream reads back from the bytes what the row stands for. */
  lemma PresentRows(ar: Archive, loose: C.Key -> bool, table: C.Contents, rows: set<Row>, pk: Matcher, r: Row)
    requires Lawful(ar) && Held(ar, loose, table, rows) && r in rows && RowRouted(r, pk)
    ensures ObjectsOf(ar.untar, Fetch(ar, table, Present(r))) == ObjectsIn(r) != []
    ensures Servable(ar.untar, Fetch(ar, table, Present(r)))
  {
  }

  // ----- The query -----

  /** The path the query asks for: the pack's parent when the path is packed. */
  function Asked(pk: Matcher, q: Query): Query {
    q.(path := RowPath(pk, q.path))
  }

  predicate Selects(q: Query, path: Path) {
    q.path == "" || (if q.isPrefix then q.path <= path else path == q.path)
  }

  /** updated_objects with its path predicate. */
  function UpdatedBy(rows: set<Row>, project: int, f: int, t: int, q: Query): set<Row> {
    set r | r in Updated(Possible(rows, project, f, t, f != 0), project, f, t) && Selects(q, r.path)
  }

  /** removed_objects, which has none. */
  ghost function RemovedBy(rows: set<Row>, project: int, f: int, t: int, q: Query): set<Row> {
    if f == 0 then {} else Removed(Possible(rows, project, f, t, true), UpdatedBy(rows, project, f, t, q), project, f, t)
  }

  /** The listing has every row of the result once, in any order. */
  ghost predicate Lists(listing: seq<Found>, rows: set<Row>, project: int, f: int, t: int, q: Query) {
    && (forall i, j :: 0 <= i < j < |listing| ==> listing[i] != listing[j])
    && (forall x :: x in listing <==>
          match x
          case Present(r) => r in UpdatedBy(rows, project, f, t, q)
          case Gone(r) => r in RemovedBy(rows, project, f, t, q))
  }

  /** What the request returns; None where it fails. */
  function Returned(ar: Archive, table: C.Contents, listing: seq<Found>, q: Query): Option<seq<Object>> {
    Collected(ar.untar, FetchAll(ar, table, listing), q, Progress(0, []))
  }

  /** GetUnary for one query, given the rows its query returned. */
  method GetUnary(ar: Archive, lookup: C.ContentLookup, table: C.Contents, ghost loose: C.Key -> bool, ghost rows: set<Row>,
                  listing: seq<Found>, q: Query)
    returns (r: Option<seq<Object>>)
    requires Lawful(ar) && Held(ar, loose, table, rows) && FromRows(listing, rows)
    requires lookup.codec == ar.cd && C.AllIntact(ar.cd, loose, lookup.cache)
    modifies lookup`cache
    ensures r == Returned(ar, table, listing, q) && C.Refilled(old(lookup.cache), table, lookup.cache)
  {
    BackedListing(ar, loose, table, rows, listing);
    var objects := new ObjectStream(DbRows(ar, listing), table, lookup, ar.untar, q, loose);
    assert objects.Items() == FetchAll(ar, table, listing);
    ghost var cache := lookup.cache;
    r := objects.CollectAll();
    C.RefilledTwice(old(lookup.cache), table, cache, lookup.cache);
  }

  lemma ServableIff(ar: Archive, loose: C.Key -> bool, table: C.Contents, rows: set<Row>, pk: Matcher, x: Found)
    requires Lawful(ar) && Held(ar, loose, table, rows)
    requires x.Present? ==> x.row in rows && RowRouted(x.row, pk)
    ensures Servable(ar.untar, Fetch(ar, table, x)) <==> !(x.Gone? && x.row.packed)
  {
  }

  ghost predicate ListsRemovedPack(listing: seq<Found>) {
    exists i :: 0 <= i < |listing| && listing[i].Gone? && listing[i].row.packed
  }

  lemma CrashesIffListed(ar: Archive, loose: C.Key -> bool, table: C.Contents, rows: set<Row>, pk: Matcher, q: Query, listing: seq<Found>)
    requires Lawful(ar) && Held(ar, loose, table, rows)
    requires forall i :: 0 <= i < |listing| && listing[i].Present? ==> listing[i].row in rows && RowRouted(listing[i].row, pk)
    ensures Returned(ar, table, listing, q) ==
            if ListsRemovedPack(listing) then None else Some(KeptOf(ar.untar, q, FetchAll(ar, table, listing)))
  {
    var items := FetchAll(ar, table, listing);
    forall i | 0 <= i < |listing| ensures Servable(ar.untar, items[i]) <==> !(listing[i].Gone? && listing[i].row.packed) {
      ServableIff(ar, loose, table, rows, pk, listing[i]);
    }
    StreamGivesMatches(ar.untar, items, q, Progress(0, []));
    assert AllServable(ar.untar, items, 0) <==> !ListsRemovedPack(listing);
    assert items[0..] == items;
    assert Matching(ar.untar, items, q, Progress(0, [])) == KeptOf(ar.untar, q, items);
  }

  lemma ListedRows(rows: set<Row>, project: int, latest: int, f: int, t: int, pk: Matcher, q: Query, listing: seq<Found>)
    requires Good(rows, project, latest, pk) && Lists(listing, rows, project, f, t, q)
    ensures forall i :: 0 <= i < |listing| && listing[i].Present? ==>
                          listing[i].row in rows && RowRouted(listing[i].row, pk)
    ensures ListsRemovedPack(listing) <==> exists r :: r in RemovedBy(rows, project, f, t, q) && r.packed
  {
    forall i | 0 <= i < |listing| && listing[i].Present? ensures listing[i].row in rows && RowRouted(listing[i].row, pk) {
      assert listing[i] in listing;
    }
    if ListsRemovedPack(listing) {
      var i :| 0 <= i < |listing| && listing[i].Gone? && listing[i].row.packed;
      assert listing[i] in listing;
    }
    if r :| r in RemovedBy(rows, project, f, t, q) && r.packed {
      assert Gone(r) in listing;
      var i :| 0 <= i < |listing| && listing[i] == Gone(r);
    }
  }

  /** A request crashes if and only if some pack was removed between its versions, wherever that pack is. */
  lemma CrashesIff(ar: Archive, loose: C.Key -> bool, table: C.Contents, rows: set<Row>, project: int, latest: int,
                   f: int, t: int, pk: Matcher, q: Query, listing: seq<Found>)
    requires Lawful(ar) && Held(ar, loose, table, rows) && Good(rows, project, latest, pk)
    requires Lists(listing, rows, project, f, t, Asked(pk, q))
    ensures Returned(ar, table, listing, q) == None <==>
            exists r :: r in RemovedBy(rows, project, f, t, Asked(pk, q)) && r.packed
  {
    ListedRows(rows, project, latest, f, t, pk, Asked(pk, q), listing);
    CrashesIffListed(ar, loose, table, rows, pk, q, listing);
  }

  /** The pack's row is live at `f` and stopped by `t`, and no row written since, of those the query selects, lies in it. */
  ghost predicate LostPack(r: Row, rows: set<Row>, project: int, f: int, t: int, q: Query) {
    && r.packed && LiveAt(r, project, f) && r.stop.Some? && r.stop.value <= t
    && !exists u :: u in rows && LiveAt(u, project, t) && u.start > f && Selects(q, u.path) && r.path <= u.path
  }

  /** In terms of the rows: it crashes if and only if there is such a pack; never from version 0. */
  lemma CrashesOnLostPack(ar: Archive, loose: C.Key -> bool, table: C.Contents, rows: set<Row>, project: int, latest: int,
                          f: int, t: int, pk: Matcher, q: Query, listing: seq<Found>)
    requires Lawful(ar) && Held(ar, loose, table, rows) && Good(rows, project, latest, pk) && 0 <= f <= t
    requires Lists(listing, rows, project, f, t, Asked(pk, q))
    ensures Returned(ar, table, listing, q) == None <==> exists r :: r in rows && LostPack(r, rows, project, f, t, Asked(pk, q))
  {
    CrashesIff(ar, loose, table, rows, project, latest, f, t, pk, q, listing);
    forall r | r in rows && r.packed
      ensures r in RemovedBy(rows, project, f, t, Asked(pk, q)) <==> LostPack(r, rows, project, f, t, Asked(pk, q))
    {
      RemovedMeansLost(rows, project, latest, f, t, pk, Asked(pk, q), r);
    }
  }

  lemma RemovedMeansLost(rows: set<Row>, project: int, latest: int, f: int, t: int, pk: Matcher, q: Query, r: Row)
    requires Good(rows, project, latest, pk) && 0 <= f <= t && r in rows && r.packed
    ensures r in RemovedBy(rows, project, f, t, q) <==> LostPack(r, rows, project, f, t, q)
  {
    if r.project == project {
      PackParentIsAbove(pk, r.path, r.path);
    }
  }

  // ----- The objects that arrive -----

  /** The file that a sequence of objects shows at a path. */
  function Shown(objects: seq<Object>, k: Path): Option<File> {
    match FindUpdate(objects, k)
    case None => None
    case Some(o) => Some(FileOf(o))
  }

  lemma {:induction false} KeptLookup(q: Query, objects: seq<Object>, k: Path)
    ensures FindUpdate(Kept(q, objects), k) == if Matches(q, k) then FindUpdate(objects, k) else None
  {
    if objects != [] {
      var head := if Matches(q, objects[0].path) then [objects[0]] else [];
      KeptLookup(q, objects[1..], k);
      FindInConcat(head, Kept(q, objects[1..]), k);
      assert head != [] ==> head[1..] == [];
    }
  }

  lemma {:induction false} KeptDistinct(q: Query, objects: seq<Object>)
    requires DistinctPaths(objects)
    ensures DistinctPaths(Kept(q, objects))
  {
    if objects != [] {
      KeptDistinct(q, objects[1..]);
      KeptLookup(q, objects[1..], objects[0].path);
      FindUpdateIsAMember(objects[1..], objects[0].path);
      DistinctCons(if Matches(q, objects[0].path) then [objects[0]] else [], Kept(q, objects[1..]));
    }
  }

  lemma {:induction false} UnpackLookup(entries: seq<TarEntry>, k: Path)
    ensures FindUpdate(UnpackObjects(entries), k) == match Find(entries, k) case None => None case Some(e) => Some(Decode(e))
  {
    if entries != [] {
      assert UnpackObjects(entries)[1..] == UnpackObjects(entries[1..]);
      UnpackLookup(entries[1..], k);
    }
  }

  /** A row's objects show the files of the row, each once. */
  lemma RowLookup(r: Row, pk: Matcher, k: Path)
    requires RowRouted(r, pk)
    ensures DistinctPaths(ObjectsIn(r))
    ensures Shown(ObjectsIn(r), k) == FileIn(StoredOf(r), r.path, k)
    ensures Shown(ObjectsIn(r), k).Some? ==> RowPath(pk, k) == r.path
  {
    ContentsRouted(r, pk, k);
    match r.hash.blob
    case Pack(entries) =>
      UnpackLookup(entries, k);
      FindIsAMember(entries, k);
    case Loose(_) => assert FindUpdate(ObjectsIn(r)[1..], k) == None;
  }

  /** The matching objects of all rows, one row after the other. */
  function AllKept(q: Query, listing: seq<Found>): seq<Object> {
    if listing == [] then [] else Kept(q, ObjectsIn(listing[0].row)) + AllKept(q, listing[1..])
  }

  /** The row listed for a path. */
  function RowFor(listing: seq<Found>, path: Path): Option<Row> {
    if listing == [] then None
    else if listing[0].row.path == path then Some(listing[0].row)
    else RowFor(listing[1..], path)
  }

  lemma {:induction false} RowForIsListed(listing: seq<Found>, path: Path)
    ensures RowFor(listing, path).Some? <==> exists x :: x in listing && x.row.path == path
    ensures RowFor(listing, path).Some? ==> exists x :: x in listing && x.row == RowFor(listing, path).value && x.row.path == path
  {
    if listing != [] {
      RowForIsListed(listing[1..], path);
    }
  }

  /** Routed rows, one per path. */
  predicate Separate(listing: seq<Found>, pk: Matcher) {
    && (forall i :: 0 <= i < |listing| ==> RowRouted(listing[i].row, pk))
    && (forall i, j :: 0 <= i < j < |listing| ==> listing[i].row.path != listing[j].row.path)
  }

  lemma {:induction false} AllLookup(q: Query, listing: seq<Found>, pk: Matcher, k: Path)
    requires Separate(listing, pk)
    ensures Shown(AllKept(q, listing), k) ==
            if !Matches(q, k) then None
            else match RowFor(listing, RowPath(pk, k)) case None => None case Some(r) => FileIn(StoredOf(r), r.path, k)
  {
    if listing != [] {
      var r := listing[0].row;
      RowLookup(r, pk, k);
      KeptLookup(q, ObjectsIn(r), k);
      FindInConcat(Kept(q, ObjectsIn(r)), AllKept(q, listing[1..]), k);
      AllLookup(q, listing[1..], pk, k);
      RowForIsListed(listing[1..], r.path);
    }
  }

  lemma {:induction false} AllDistinct(q: Query, listing: seq<Found>, pk: Matcher)
    requires Separate(listing, pk)
    ensures DistinctPaths(AllKept(q, listing))
  {
    if listing != [] {
      var r := listing[0].row;
      var a, b := Kept(q, ObjectsIn(r)), AllKept(q, listing[1..]);
      RowLookup(r, pk, "");
      KeptDistinct(q, ObjectsIn(r));
      AllDistinct(q, listing[1..], pk);
      forall x, y | x in a && y in b ensures x.path != y.path {
        OnlyOneRowShows(q, listing, pk, x.path);
        FindUpdateIsAMember(a, x.path);
        FindUpdateIsAMember(b, x.path);
      }
      DistinctConcat(a, b);
    }
  }

  lemma OnlyOneRowShows(q: Query, listing: seq<Found>, pk: Matcher, k: Path)
    requires Separate(listing, pk) && listing != []
    ensures FindUpdate(Kept(q, ObjectsIn(listing[0].row)), k) == None || FindUpdate(AllKept(q, listing[1..]), k) == None
  {
    var r := listing[0].row;
    RowLookup(r, pk, k);
    KeptLookup(q, ObjectsIn(r), k);
    AllLookup(q, listing[1..], pk, k);
    RowForIsListed(listing[1..], r.path);
  }

  /** Reading back every row's content gives the objects of the rows. */
  lemma {:induction false} KeptOfListing(ar: Archive, loose: C.Key -> bool, table: C.Contents, rows: set<Row>, pk: Matcher,
                                         q: Query, listing: seq<Found>)
    requires Lawful(ar) && Held(ar, loose, table, rows)
    requires forall i :: 0 <= i < |listing| ==> listing[i].Present? && listing[i].row in rows && RowRouted(listing[i].row, pk)
    ensures KeptOf(ar.untar, q, FetchAll(ar, table, listing)) == AllKept(q, listing)
  {
    if listing != [] {
      PresentRows(ar, loose, table, rows, pk, listing[0].row);
      assert FetchAll(ar, table, listing)[1..] == FetchAll(ar, table, listing[1..]);
      KeptOfListing(ar, loose, table, rows, pk, q, listing[1..]);
    }
  }

  // ----- Compared with the version -----

  /** The files a prefix request misses: the path names a pack's directory without its slash, and they lie beside it. */
  predicate Missed(pk: Matcher, q: Query, k: Path) {
    && q.isPrefix && PackParent(pk, q.path) == Some(q.path + "/")
    && q.path <= k && !(q.path + "/" <= k + "/")
  }

  /** The query selects the row of a matching file, unless the file is one of those. */
  lemma SelectedUnlessMissed(pk: Matcher, q: Query, k: Path)
    requires Matches(q, k)
    ensures Selects(Asked(pk, q), RowPath(pk, k)) <==> !Missed(pk, q, k)
  {
    if !q.isPrefix || q.path == k {
      assert k + "/" <= k + "/";
    } else {
      match PackParent(pk, q.path)
      case None => SelectedLoose(pk, q, k);
      case Some(parent) => SelectedPacked(pk, q, k, parent);
    }
  }

  lemma SelectedLoose(pk: Matcher, q: Query, k: Path)
    requires PackParent(pk, q.path) == None && q.path <= k
    ensures q.path <= RowPath(pk, k)
  {
    if PackParent(pk, k).Some? {
      var parent := RowPath(pk, k);
      PackParentIsAbove(pk, k, parent);
      LoosePathsAvoidPacks(pk, q.path, parent);
      assert q.path <= k + "/" && parent <= k + "/";
    }
  }

  lemma SelectedPacked(pk: Matcher, q: Query, k: Path, parent: Path)
    requires PackParent(pk, q.path) == Some(parent) && q.path <= k
    ensures parent <= RowPath(pk, k) <==> !(parent == q.path + "/" && !(parent <= k + "/"))
  {
    PackParentIsAbove(pk, q.path, parent);
    if parent <= k + "/" {
      BeneathAPackParent(pk, q.path, parent, k);
    } else {
      assert !(parent <= q.path);
      assert |parent| == |q.path| + 1 ==> parent == q.path + "/";
      if PackParent(pk, k).Some? {
        PackParentIsAbove(pk, k, RowPath(pk, k));
      }
      assert RowPath(pk, k) <= k + "/";
    }
  }

  /** The listing of a query from version 0 has one routed row per path, and nothing is removed. */
  lemma ListingIsSeparate(rows: set<Row>, project: int, latest: int, t: int, pk: Matcher, q: Query, listing: seq<Found>)
    requires Good(rows, project, latest, pk) && Lists(listing, rows, project, 0, t, q)
    ensures Separate(listing, pk) && !ListsRemovedPack(listing)
    ensures forall i :: 0 <= i < |listing| ==>
                          && listing[i].Present? && listing[i].row in rows && RowRouted(listing[i].row, pk)
                          && LiveAt(listing[i].row, project, t) && Selects(q, listing[i].row.path)
  {
    forall i | 0 <= i < |listing|
      ensures listing[i].Present? && listing[i].row in rows && LiveAt(listing[i].row, project, t) && Selects(q, listing[i].row.path)
    {
      assert listing[i] in listing;
    }
    forall i, j | 0 <= i < j < |listing| ensures listing[i].row.path != listing[j].row.path {
      assert listing[i] != listing[j];
    }
  }

  /** The row listed for a path is the row of the version, if the query selects it. */
  lemma RowForIsRowAt(rows: set<Row>, project: int, latest: int, t: int, pk: Matcher, q: Query, listing: seq<Found>, path: Path)
    requires Good(rows, project, latest, pk) && Lists(listing, rows, project, 0, t, q)
    ensures RowFor(listing, path) ==
            if Selects(q, path) && HasRowAt(rows, project, t, path) then Some(RowAt(rows, project, t, path)) else None
  {
    ListingIsSeparate(rows, project, latest, t, pk, q, listing);
    RowForIsListed(listing, path);
    if Selects(q, path) && HasRowAt(rows, project, t, path) {
      var r := RowAt(rows, project, t, path);
      UpdatedMember(rows, project, 0, t, false, r);
      assert Present(r) in listing;
      OneLiveRow(rows, project, latest, t, r, RowFor(listing, path).value);
    }
  }

  /** At From = 0 a request succeeds, returns each path once, and shows the version at every matching path that is not missed. */
  lemma GetShows(ar: Archive, loose: C.Key -> bool, table: C.Contents, rows: set<Row>, project: int, latest: int, t: int,
                 pk: Matcher, q: Query, listing: seq<Found>, k: Path)
    requires Lawful(ar) && Held(ar, loose, table, rows) && Good(rows, project, latest, pk)
    requires Lists(listing, rows, project, 0, t, Asked(pk, q))
    ensures var r := Returned(ar, table, listing, q);
            && r.Some? && DistinctPaths(r.value)
            && Shown(r.value, k) ==
               if Matches(q, k) && !Missed(pk, q, k) then Get(Files(rows, project, t, pk), k) else None
  {
    ListingIsSeparate(rows, project, latest, t, pk, Asked(pk, q), listing);
    CrashesIffListed(ar, loose, table, rows, pk, q, listing);
    KeptOfListing(ar, loose, table, rows, pk, q, listing);
    AllDistinct(q, listing, pk);
    AllLookup(q, listing, pk, k);
    RowForIsRowAt(rows, project, latest, t, pk, Asked(pk, q), listing, RowPath(pk, k));
    FilesGet(rows, project, latest, t, pk, k);
    if Matches(q, k) {
      SelectedUnlessMissed(pk, q, k);
    }
  }

  // ----- The answer, request by request -----

  /** strings.HasPrefix */
  predicate StartsWith(s: string, start: string) {
    |start| <= |s| && forall i :: 0 <= i < |start| ==> s[i] == start[i]
  }

  /** A prefix names every path that starts with it; an exact path names itself. */
  predicate Names(q: Query, k: Path) {
    if q.isPrefix then StartsWith(k, q.path) else k == q.path
  }

  /** The objects with the paths the query names among the files, each with its file's mode and content. */
  ghost predicate Answers(objects: seq<Object>, files: Directory, q: Query) {
    && DistinctPaths(objects)
    && (forall k :: (exists o :: o in objects && o.path == k) <==> k in files && Names(q, k))
    && (forall o :: o in objects ==> !o.deleted && o.path in files && files[o.path] == File(o.mode, o.content))
  }

  /** The size that arrives: what the row stores, or the length of the content in a pack. */
  ghost predicate SizedBy(o: Object, rows: set<Row>, project: int, t: int, pk: Matcher) {
    HasRowAt(rows, project, t, RowPath(pk, o.path)) &&
    var r := RowAt(rows, project, t, RowPath(pk, o.path));
    o.size == if r.packed then |o.content| else r.size
  }

  lemma NamesMeansMatches(q: Query, k: Path)
    ensures Names(q, k) <==> Matches(q, k)
  {
    if q.isPrefix && |q.path| <= |k| && StartsWith(k, q.path) {
      assert k[..|q.path|] == q.path;
    }
  }

  lemma {:induction false} KeptComesFromARow(q: Query, listing: seq<Found>, o: Object)
    requires o in AllKept(q, listing)
    ensures exists i :: 0 <= i < |listing| && o in ObjectsIn(listing[i].row)
  {
    KeptAreMembers(q, ObjectsIn(listing[0].row));
    if o !in Kept(q, ObjectsIn(listing[0].row)) {
      KeptComesFromARow(q, listing[1..], o);
      var i :| 0 <= i < |listing[1..]| && o in ObjectsIn(listing[1..][i].row);
      assert listing[i + 1] == listing[1..][i];
    }
  }

  lemma {:induction false} KeptAreMembers(q: Query, objects: seq<Object>)
    ensures forall o :: o in Kept(q, objects) ==> o in objects
  {
    if objects != [] {
      KeptAreMembers(q, objects[1..]);
    }
  }

  lemma RowObject(r: Row, pk: Matcher, o: Object)
    requires RowRouted(r, pk) && o in ObjectsIn(r)
    ensures !o.deleted && RowPath(pk, o.path) == r.path
    ensures o.size == if r.packed then |o.content| else r.size
  {
    RowLookup(r, pk, o.path);
    FindUpdateIsAMember(ObjectsIn(r), o.path);
    match r.hash.blob
    case Loose(_) =>
    case Pack(entries) =>
      var i :| 0 <= i < |entries| && o == Decode(entries[i]);
      assert entries[i] in entries && WellFormed(entries[i]);
  }

  lemma ReturnedObject(ar: Archive, loose: C.Key -> bool, table: C.Contents, rows: set<Row>, project: int, latest: int, t: int,
                       pk: Matcher, q: Query, listing: seq<Found>, o: Object)
    requires Lawful(ar) && Held(ar, loose, table, rows) && Good(rows, project, latest, pk)
    requires Lists(listing, rows, project, 0, t, Asked(pk, q))
    requires Returned(ar, table, listing, q).Some? && o in Returned(ar, table, listing, q).value
    ensures !o.deleted && SizedBy(o, rows, project, t, pk)
  {
    ListingIsSeparate(rows, project, latest, t, pk, Asked(pk, q), listing);
    CrashesIffListed(ar, loose, table, rows, pk, q, listing);
    KeptOfListing(ar, loose, table, rows, pk, q, listing);
    KeptComesFromARow(q, listing, o);
    var i :| 0 <= i < |listing| && o in ObjectsIn(listing[i].row);
    RowObject(listing[i].row, pk, o);
    ObjectAtIs(rows, project, latest, t, listing[i].row);
  }

  /**
    What a request from version 0 returns where nothing is missed: for a prefix every file whose path starts with it, for an
    exact path the file at that path, each once with its mode, content and size.
  */
  lemma GetAnswers(ar: Archive, loose: C.Key -> bool, table: C.Contents, rows: set<Row>, project: int, latest: int, t: int,
                   pk: Matcher, q: Query, listing: seq<Found>)
    requires Lawful(ar) && Held(ar, loose, table, rows) && Good(rows, project, latest, pk)
    requires Lists(listing, rows, project, 0, t, Asked(pk, q))
    requires forall k :: k in Files(rows, project, t, pk) ==> !Missed(pk, q, k)
    ensures var r := Returned(ar, table, listing, q);
            && r.Some? && Answers(r.value, Files(rows, project, t, pk), q)
            && forall o :: o in r.value ==> SizedBy(o, rows, project, t, pk)
  {
    var files := Files(rows, project, t, pk);
    GetShows(ar, loose, table, rows, project, latest, t, pk, q, listing, "");
    var objects := Returned(ar, table, listing, q).value;
    forall o | o in objects ensures !o.deleted && SizedBy(o, rows, project, t, pk) {
      ReturnedObject(ar, loose, table, rows, project, latest, t, pk, q, listing, o);
    }
    forall k ensures Shown(objects, k) == if Names(q, k) then Get(files, k) else None {
      GetShows(ar, loose, table, rows, project, latest, t, pk, q, listing, k);
      NamesMeansMatches(q, k);
    }
    ShownIsAnswered(objects, files, q);
  }

  lemma ShownIsAnswered(objects: seq<Object>, files: Directory, q: Query)
    requires DistinctPaths(objects) && forall o :: o in objects ==> !o.deleted
    requires forall k :: Shown(objects, k) == if Names(q, k) then Get(files, k) else None
    ensures Answers(objects, files, q)
  {
    forall k ensures (exists o :: o in objects && o.path == k) <==> k in files && Names(q, k) {
      FindUpdateIsAMember(objects, k);
      assert Shown(objects, k) == if Names(q, k) then Get(files, k) else None;
    }
    forall o | o in objects ensures o.path in files && files[o.path] == File(o.mode, o.content) {
      FindUpdateIsAMember(objects, o.path);
      assert Shown(objects, o.path) == if Names(q, o.path) then Get(files, o.path) else None;
    }
  }

  lemma EverythingIsLoose(pk: Matcher, k: Path)
    requires !pk("/")
    ensures PackParent(pk, "") == None && !Missed(pk, Query("", true), k)
  {
    var d := "" + "/";
    assert d[..1] == d == "/";
    assert FirstMatch(pk, d, 0) == FirstMatch(pk, d, 1);
  }

  /** The empty prefix returns every file of the version, unless a pattern packs the root. */
  lemma GetEverything(ar: Archive, loose: C.Key -> bool, table: C.Contents, rows: set<Row>, project: int, latest: int, t: int,
                      pk: Matcher, listing: seq<Found>, k: Path)
    requires Lawful(ar) && Held(ar, loose, table, rows) && Good(rows, project, latest, pk)
    requires !pk("/") && Lists(listing, rows, project, 0, t, Asked(pk, Query("", true)))
    ensures var r := Returned(ar, table, listing, Query("", true));
            r.Some? && Shown(r.value, k) == Get(Files(rows, project, t, pk), k)
  {
    var q := Query("", true);
    EverythingIsLoose(pk, k);
    NamesMeansMatches(q, k);
    GetShows(ar, loose, table, rows, project, latest, t, pk, q, listing, k);
  }

  /** A directory with its slash names everything beneath it and nothing else. */
  lemma NamedBeneath(dir: Path, k: Path)
    ensures Names(Query(dir + "/", true), k) <==> exists below :: k == dir + "/" + below
  {
    if Names(Query(dir + "/", true), k) {
      NamesMeansMatches(Query(dir + "/", true), k);
      assert k == dir + "/" + k[|dir| + 1..];
    }
  }

  /**
    The request answers with exactly the files it names if and only if the version has no file that is missed:
    always for an exact path, a loose prefix, or a prefix that reaches into a pack.
  */
  lemma GetIsRightIff(ar: Archive, loose: C.Key -> bool, table: C.Contents, rows: set<Row>, project: int, latest: int, t: int,
                      pk: Matcher, q: Query, listing: seq<Found>)
    requires Lawful(ar) && Held(ar, loose, table, rows) && Good(rows, project, latest, pk)
    requires Lists(listing, rows, project, 0, t, Asked(pk, q))
    ensures var r, files := Returned(ar, table, listing, q), Files(rows, project, t, pk);
            && r.Some? && DistinctPaths(r.value)
            && (Answers(r.value, files, q) <==> !exists k :: k in files && Missed(pk, q, k))
  {
    var r, files := Returned(ar, table, listing, q), Files(rows, project, t, pk);
    GetShows(ar, loose, table, rows, project, latest, t, pk, q, listing, "");
    if k :| k in files && Missed(pk, q, k) {
      GetShows(ar, loose, table, rows, project, latest, t, pk, q, listing, k);
      MissedIsNotAnswered(r.value, files, pk, q, k);
    } else {
      GetAnswers(ar, loose, table, rows, project, latest, t, pk, q, listing);
    }
  }

  lemma MissedIsNotAnswered(objects: seq<Object>, files: Directory, pk: Matcher, q: Query, k: Path)
    requires k in files && Missed(pk, q, k) && Shown(objects, k) == None
    ensures !Answers(objects, files, q)
  {
    NamesMeansMatches(q, k);
    FindUpdateIsAMember(objects, k);
  }
}
