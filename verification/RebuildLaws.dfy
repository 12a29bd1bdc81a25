/**
  From the database to the directory: the difference query, the contents, the tar stream
  and the client's application of the tars, put together.
*/
module RebuildLaws {
  import opened Paths
  import opened TarFormat
  import opened Table
  import opened Difference
  import opened Transport
  import opened Chunks
  import opened GetLaws
  import O = ObjectStreams
  import T = TarStreams

  /** A whole-project query. */
  const EVERYTHING := O.Query("", true)

  // ----- What the client does with a tar -----

  /** An entry of a shared tar. What a client has in its cache is linked from there, and left out here. */
  function EntryChanges(h: T.Header): seq<Change> {
    match h
    case Live(e) => [PutFile(e.name, FileOf(Decode(e)))]
    case Removed(name, _, _) => [DelFile(name)]
    case Cached(_, _, _) => []
  }

  /** A pack's tar replaces the directory of the pack; an empty one removes it. */
  function PackChange(ar: Archive, path: Path, content: Bytes): Change {
    var entries := ar.untar(content);
    if entries == [] then DelPack(path) else PutPack(path, entries)
  }

  function SharedChanges(entries: seq<T.Header>): seq<Change> {
    if entries == [] then [] else EntryChanges(entries[0]) + SharedChanges(entries[1..])
  }

  function ChangesIn(ar: Archive, out: T.Output): seq<Change> {
    match out
    case Shared(entries) => SharedChanges(entries)
    case PackTar(path, content) => [PackChange(ar, path, content)]
    case _ => []
  }

  /** The tars one after the other. */
  function ChangesOf(ar: Archive, outs: seq<T.Output>): seq<Change> {
    if outs == [] then [] else ChangesIn(ar, outs[0]) + ChangesOf(ar, outs[1..])
  }

  predicate InShared(entries: seq<T.Header>, c: Change) {
    exists h :: h in entries && c in EntryChanges(h)
  }

  predicate InPacks(ar: Archive, packs: seq<T.Output>, c: Change) {
    exists x :: x in packs && c in ChangesIn(ar, x)
  }

  lemma {:induction false} SharedChangesAre(entries: seq<T.Header>, c: Change)
    ensures c in SharedChanges(entries) <==> InShared(entries, c)
  {
    if entries != [] {
      SharedChangesAre(entries[1..], c);
    }
  }

  lemma {:induction false} ChangesAre(ar: Archive, outs: seq<T.Output>, c: Change)
    ensures c in ChangesOf(ar, outs) <==> InShared(T.SharedIn(outs), c) || InPacks(ar, T.PacksIn(outs), c)
  {
    if outs != [] {
      ChangesAre(ar, outs[1..], c);
      if outs[0].Shared? {
        SharedChangesAre(outs[0].entries, c);
      }
    }
  }

  /** What a row of the stream turns into at the client. */
  function ItemChanges(ar: Archive, o: T.TarObject): seq<Change> {
    if T.GoesAlone(o) then [PackChange(ar, o.path, o.content)] else EntryChanges(T.HeaderOf(o))
  }

  predicate InItems(ar: Archive, items: seq<T.TarObject>, c: Change) {
    exists o :: o in items && c in ItemChanges(ar, o)
  }

  lemma {:induction false} RowsChange(ar: Archive, items: seq<T.TarObject>, c: Change)
    ensures InShared(T.Together(items), c) || InPacks(ar, T.Alone(items), c) <==> InItems(ar, items, c)
  {
    if items != [] {
      var o, rest := items[0], items[1..];
      RowsChange(ar, rest, c);
      assert InItems(ar, items, c) <==> c in ItemChanges(ar, o) || InItems(ar, rest, c);
      if T.GoesAlone(o) {
        var x := T.PackTar(o.path, o.content);
        assert x in T.Alone(items) && ChangesIn(ar, x) == ItemChanges(ar, o);
        assert InPacks(ar, T.Alone(items), c) <==> c in ChangesIn(ar, x) || InPacks(ar, T.Alone(rest), c);
        assert T.Together(items) == T.Together(rest);
      } else {
        assert T.HeaderOf(o) in T.Together(items) && T.Alone(items) == T.Alone(rest);
        assert InShared(T.Together(items), c) <==> c in EntryChanges(T.HeaderOf(o)) || InShared(T.Together(rest), c);
      }
    }
  }

  /** The stream delivers exactly the changes of its rows. */
  lemma StreamDeliversChanges(ar: Archive, items: seq<T.TarObject>, c: Change)
    requires T.AllWeigh(items)
    ensures c in ChangesOf(ar, T.Deliveries(items, T.Progress(0, []))) <==> InItems(ar, items, c)
  {
    T.WeighingRowsAreNotLost(items, T.Progress(0, []));
    T.CompleteIff(items);
    ChangesAre(ar, T.Deliveries(items, T.Progress(0, [])), c);
    RowsChange(ar, items, c);
  }

  // ----- From the query to the directory -----

  function RowChange(x: Found): Change {
    match x
    case Present(r) => PutOf(r)
    case Gone(r) => DelOf(r)
  }

  function Item(ar: Archive, table: C.Contents, x: Found): T.TarObject {
    var d := ToDb(ar, x);
    T.ToTarObject(d, ContentFor(ar.cd, table, d))
  }

  /** A row arrives as the change the difference asks for, a loose file in the normal form of a tar. */
  lemma RowArrives(ar: Archive, loose: C.Key -> bool, table: C.Contents, rows: set<Row>, pk: Matcher, x: Found)
    requires Lawful(ar) && Held(ar, loose, table, rows)
    requires x.Present? ==> x.row in rows && RowRouted(x.row, pk)
    ensures ItemChanges(ar, Item(ar, table, x)) == [Sent(RowChange(x))]
  {
    match x
    case Gone(r) =>
    case Present(r) =>
      PresentRows(ar, loose, table, rows, pk, r);
      if !r.packed {
        var bytes := r.hash.blob.bytes;
        NormalIgnoresSize(Object(r.path, r.mode, r.size, false, bytes), AsObject("", File(r.mode, bytes)));
      }
  }

  /** It arrives unchanged if and only if it is removed, is a pack, or is plain. */
  lemma RowArrivesUnchangedIff(ar: Archive, loose: C.Key -> bool, table: C.Contents, rows: set<Row>, pk: Matcher, x: Found)
    requires Lawful(ar) && Held(ar, loose, table, rows)
    requires x.Present? ==> x.row in rows && RowRouted(x.row, pk)
    ensures ItemChanges(ar, Item(ar, table, x)) == [RowChange(x)] <==>
            x.Gone? || x.row.packed || Plain(x.row.mode, x.row.hash.blob.bytes)
  {
    RowArrives(ar, loose, table, rows, pk, x);
    if x.Present? && !x.row.packed {
      NormalFileIff(File(x.row.mode, x.row.hash.blob.bytes));
    }
    assert [Sent(RowChange(x))] == [RowChange(x)] <==> Sent(RowChange(x)) == RowChange(x);
  }

  /** The rows of a whole-project query stand for the changes of the difference. */
  lemma ListingIsDiff(rows: set<Row>, project: int, f: int, t: int, listing: seq<Found>, c: Change)
    requires Lists(listing, rows, project, f, t, EVERYTHING)
    ensures (exists x :: x in listing && RowChange(x) == c) <==> c in Diff(rows, project, f, t)
  {
    var updated := UpdatedBy(rows, project, f, t, EVERYTHING);
    assert updated == Updated(Possible(rows, project, f, t, f != 0), project, f, t);
    if x :| x in listing && RowChange(x) == c {
      assert c in Diff(rows, project, f, t);
    }
    if c in Diff(rows, project, f, t) {
      if r :| r in updated && c == PutOf(r) {
        assert Present(r) in listing && RowChange(Present(r)) == c;
      } else {
        var r :| r in RemovedBy(rows, project, f, t, EVERYTHING) && c == DelOf(r);
        assert Gone(r) in listing && RowChange(Gone(r)) == c;
      }
    }
  }

  /** The tars of a request. */
  function Tars(ar: Archive, table: C.Contents, listing: seq<Found>): seq<T.Output> {
    T.Deliveries(T.ItemsFor(ar.cd, table, DbRows(ar, listing)), T.Progress(0, []))
  }

  /** GetCompress for one query, given the rows its query returned. */
  method GetCompress(ar: Archive, lookup: C.ContentLookup, table: C.Contents, ghost loose: C.Key -> bool, ghost rows: set<Row>,
                     listing: seq<Found>)
    returns (sent: seq<T.Output>)
    requires Lawful(ar) && Held(ar, loose, table, rows) && FromRows(listing, rows)
    requires lookup.codec == ar.cd && C.AllIntact(ar.cd, loose, lookup.cache)
    modifies lookup`cache
    ensures sent == Tars(ar, table, listing) && C.Refilled(old(lookup.cache), table, lookup.cache)
  {
    BackedListing(ar, loose, table, rows, listing);
    var tars := new T.TarStream(DbRows(ar, listing), table, lookup, loose);
    var calls;
    ghost var cache := lookup.cache;
    sent, calls := tars.SendAll();
    C.RefilledTwice(old(lookup.cache), table, cache, lookup.cache);
  }

  /** The row goes out alone, or has a path, or is a file that is not empty. */
  predicate Weighs(x: Found) {
    || x.row.packed || x.row.path != ""
    || (x.Present? && x.row.hash.Digest? && x.row.hash.blob.Loose? && x.row.hash.blob.bytes != []
        && TarTypeFromMode(FileMode(x.row.mode)) == Reg)
  }

  lemma WeighingItem(ar: Archive, loose: C.Key -> bool, table: C.Contents, rows: set<Row>, pk: Matcher, x: Found)
    requires Lawful(ar) && Held(ar, loose, table, rows)
    requires x.Present? ==> x.row in rows && RowRouted(x.row, pk)
    ensures var o := Item(ar, table, x); (!T.GoesAlone(o) ==> T.Weight(T.HeaderOf(o)) > 0) <==> Weighs(x)
  {
    match x
    case Present(r) => PresentRows(ar, loose, table, rows, pk, r);
    case Gone(r) => GoneIsEmpty(ar, loose, table, rows, r);
  }

  /** The tars of a whole-project request carry the difference, as it is sent. */
  lemma TarsCarryDiff(ar: Archive, loose: C.Key -> bool, table: C.Contents, rows: set<Row>, project: int, latest: int,
                      f: int, t: int, pk: Matcher, listing: seq<Found>)
    requires Lawful(ar) && Held(ar, loose, table, rows) && Good(rows, project, latest, pk)
    requires Lists(listing, rows, project, f, t, EVERYTHING)
    requires forall i :: 0 <= i < |listing| ==> Weighs(listing[i])
    ensures Arrives(ChangesOf(ar, Tars(ar, table, listing)), rows, project, f, t)
  {
    var items := T.ItemsFor(ar.cd, table, DbRows(ar, listing));
    ListedRows(rows, project, latest, f, t, pk, EVERYTHING, listing);
    forall i | 0 <= i < |listing|
      ensures ItemChanges(ar, items[i]) == [Sent(RowChange(listing[i]))]
      ensures !T.GoesAlone(items[i]) ==> T.Weight(T.HeaderOf(items[i])) > 0
    {
      assert items[i] == Item(ar, table, listing[i]);
      RowArrives(ar, loose, table, rows, pk, listing[i]);
      WeighingItem(ar, loose, table, rows, pk, listing[i]);
    }
    forall w ensures w in ChangesOf(ar, Tars(ar, table, listing)) <==> exists c :: c in Diff(rows, project, f, t) && Sent(c) == w {
      StreamDeliversChanges(ar, items, w);
      SameChanges(ar, items, listing, w);
      forall c ensures (exists x :: x in listing && RowChange(x) == c) <==> c in Diff(rows, project, f, t) {
        ListingIsDiff(rows, project, f, t, listing, c);
      }
    }
  }

  lemma SameChanges(ar: Archive, items: seq<T.TarObject>, listing: seq<Found>, w: Change)
    requires |items| == |listing| && forall i :: 0 <= i < |items| ==> ItemChanges(ar, items[i]) == [Sent(RowChange(listing[i]))]
    ensures InItems(ar, items, w) <==> exists x :: x in listing && Sent(RowChange(x)) == w
  {
    if o :| o in items && w in ItemChanges(ar, o) {
      var i :| 0 <= i < |items| && items[i] == o;
      assert listing[i] in listing && Sent(RowChange(listing[i])) == w;
    }
    if x :| x in listing && Sent(RowChange(x)) == w {
      var i :| 0 <= i < |listing| && listing[i] == x;
      assert items[i] in items && w in ItemChanges(ar, items[i]);
    }
  }

  /** The same changes, in whatever order and however the workers interleave the entries of different tars. */
  ghost predicate SameAs(written: seq<Change>, sent: seq<Change>) {
    forall c :: c in written <==> c in sent
  }

  /**
    Rebuild, end to end and for every store: a directory that was received at version `f`, patched with what the server
    sends for the difference to `t`, entry by entry in whatever order, is the one received at `t`.
  */
  lemma RebuildReachesTarget(ar: Archive, loose: C.Key -> bool, table: C.Contents, rows: set<Row>, project: int, latest: int,
                             f: int, t: int, pk: Matcher, listing: seq<Found>, written: seq<Change>)
    requires Lawful(ar) && Held(ar, loose, table, rows) && Good(rows, project, latest, pk)
    requires 0 <= f <= t && Lists(listing, rows, project, f, t, EVERYTHING)
    requires forall i :: 0 <= i < |listing| ==> Weighs(listing[i])
    requires TreeShaped(Files(rows, project, t, pk)) && SameAs(written, ChangesOf(ar, Tars(ar, table, listing)))
    ensures ApplyAll(Received(Files(rows, project, f, pk)), written) == Received(Files(rows, project, t, pk))
  {
    TarsCarryDiff(ar, loose, table, rows, project, latest, f, t, pk, listing);
    TreesAreUnobstructed(rows, project, latest, f, t, pk);
    ArrivalReachesTarget(rows, project, latest, f, t, pk, written);
  }

  /** From the exact files of `f` it gives the exact files of `t` if and only if every loose row it updates is plain. */
  lemma RebuildIsExactIff(ar: Archive, loose: C.Key -> bool, table: C.Contents, rows: set<Row>, project: int, latest: int,
                          f: int, t: int, pk: Matcher, listing: seq<Found>, written: seq<Change>)
    requires Lawful(ar) && Held(ar, loose, table, rows) && Good(rows, project, latest, pk)
    requires 0 <= f <= t && Lists(listing, rows, project, f, t, EVERYTHING)
    requires forall i :: 0 <= i < |listing| ==> Weighs(listing[i])
    requires TreeShaped(Files(rows, project, t, pk)) && SameAs(written, ChangesOf(ar, Tars(ar, table, listing)))
    ensures ApplyAll(Files(rows, project, f, pk), written) == Files(rows, project, t, pk)
            <==> PlainUpdates(rows, project, f, t)
  {
    TarsCarryDiff(ar, loose, table, rows, project, latest, f, t, pk, listing);
    TreesAreUnobstructed(rows, project, latest, f, t, pk);
    ArrivalIsExactIff(rows, project, latest, f, t, pk, written);
  }
}
