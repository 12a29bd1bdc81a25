/**
  The generator behind GetCompress (GetTars in internal/db/query.go): query rows go out as
  packs, one each, or collected into shared tars of about TARGET_TAR_SIZE.
*/
module TarStreams {
  import opened Paths
  import opened TarFormat
  import opened ContentCache
  import opened Chunks

  const TARGET_TAR_SIZE := 512 * 1024

  datatype TarObject = TarObject(path: Path, mode: int, size: int, deleted: bool, cached: bool, packed: bool, content: Bytes)

  function ToTarObject(d: DbObject, content: Bytes): TarObject {
    TarObject(d.path, d.mode, d.size, d.deleted, d.cached, d.packed, if d.cached then d.hash else content)
  }

  /** An entry of a shared tar: an ordinary one, or one of the two types of its own. */
  datatype Header = Live(entry: TarEntry) | Removed(name: Path, perm: int, body: Bytes) | Cached(name: Path, perm: int, body: Bytes)

  /** What TarWriter writes for an object. The deleted type wins over the cached one. */
  function HeaderOf(o: TarObject): Header {
    if o.deleted then Removed(o.path, FileMode(o.mode) % PERM_BITS, o.content)
    else if o.cached then Cached(o.path, FileMode(o.mode) % PERM_BITS, o.content)
    else Live(Encode(Object(o.path, o.mode, o.size, false, o.content)))
  }

  /** What an entry adds to the size of a tar: its name and its body. Directories and symlinks have no body. */
  function Weight(h: Header): nat {
    match h
    case Live(e) => |e.body| + |e.name|
    case Removed(name, _, body) => |body| + |name|
    case Cached(name, _, body) => |body| + |name|
  }

  function Total(entries: seq<Header>): nat {
    if entries == [] then 0 else Total(entries[..|entries| - 1]) + Weight(entries[|entries| - 1])
  }

  /** The tar being written, as its entries and the running size. */
  class TarWriter {
    var size: nat
    var entries: seq<Header>

    ghost predicate Valid() reads this {
      size == Total(entries)
    }

    constructor ()
      ensures Valid() && entries == []
    {
      size, entries := 0, [];
    }

    method WriteObject(o: TarObject)
      requires Valid()
      modifies this
      ensures Valid() && entries == old(entries) + [HeaderOf(o)]
    {
      var perm, kind := FileMode(o.mode) % PERM_BITS, TarTypeFromMode(FileMode(o.mode));
      var bodySize := |o.content|;
      assert o.content[..bodySize] == o.content;
      var header: Header;
      if o.deleted {
        header := Removed(o.path, perm, o.content);
      } else if o.cached {
        header := Cached(o.path, perm, o.content);
      } else if kind == Symlink {
        bodySize := 0;
        header := Live(TarEntry(o.path, perm, kind, o.content, []));
      } else {
        if kind == Dir {
          bodySize := 0;
        }
        header := Live(TarEntry(o.path, perm, kind, [], o.content[..bodySize]));
      }
      size, entries := size + bodySize + |o.path|, entries + [header];
      assert entries[..|entries| - 1] == old(entries);
    }

    method BytesAndReset() returns (tar: seq<Header>)
      requires Valid()
      modifies this
      ensures Valid() && entries == [] && tar == old(entries)
    {
      tar := entries;
      size, entries := 0, [];
    }
  }

  datatype Output = Shared(entries: seq<Header>) | PackTar(path: Path, content: Bytes) | Skip | Eof

  /** Where the generator is: the next row, and what is in the unfinished tar. */
  datatype Progress = Progress(idx: nat, pending: seq<Header>)

  predicate GoesAlone(o: TarObject) {
    o.packed && !o.cached
  }

  /** A row on its own, or one more entry in the unfinished tar, which goes out when it is full. */
  function Emitted(pending: seq<Header>, o: TarObject): (seq<Header>, Output) {
    if GoesAlone(o) then (pending, PackTar(o.path, o.content))
    else if Total(pending + [HeaderOf(o)]) > TARGET_TAR_SIZE then ([], Shared(pending + [HeaderOf(o)]))
    else (pending + [HeaderOf(o)], Skip)
  }

  /** What is left in the tar when the rows have run out. */
  function Drained(pending: seq<Header>): (seq<Header>, Output) {
    if Total(pending) > 0 then ([], Shared(pending)) else (pending, Eof)
  }

  /** One call of the generator, over rows already paired with their contents. */
  function Advance(items: seq<TarObject>, g: Progress): (Progress, Output) {
    if g.idx >= |items| then
      var (pending, out) := Drained(g.pending);
      (Progress(g.idx, pending), out)
    else
      var (pending, out) := Emitted(g.pending, items[g.idx]);
      (Progress(g.idx + 1, pending), out)
  }

  function ItemsFor(cd: Codec, table: Contents, rows: seq<DbObject>): (items: seq<TarObject>)
    ensures |items| == |rows|
  {
    seq(|rows|, i requires 0 <= i < |rows| => ToTarObject(rows[i], ContentFor(cd, table, rows[i])))
  }

  class TarStream {
    const rows: seq<DbObject>
    const table: Contents
    const lookup: ContentLookup
    ghost const loose: Key -> bool
    const tarWriter: TarWriter
    var idx: nat
    var chunkIdx: nat
    var chunk: seq<Bytes>

    ghost predicate Valid()
      reads this, lookup, tarWriter
    {
      Loading() && tarWriter.Valid()
    }

    /** The cache is shared with other requests, which keep it intact. */
    ghost predicate Loading()
      reads this, lookup
    {
      && Lawful(lookup.codec) && AllIntact(lookup.codec, loose, table) && AllIntact(lookup.codec, loose, lookup.cache)
      && Backed(lookup.codec, loose, table, rows)
      && idx <= |rows| && chunkIdx <= |chunk| && chunkIdx <= idx && idx - chunkIdx + |chunk| <= |rows|
      && (forall j :: 0 <= j < |chunk| ==> chunk[j] == ContentFor(lookup.codec, table, rows[idx - chunkIdx + j]))
    }

    ghost function Items(): seq<TarObject> {
      ItemsFor(lookup.codec, table, rows)
    }

    ghost function At(): Progress
      reads this, tarWriter
    {
      Progress(idx, tarWriter.entries)
    }

    constructor (rows: seq<DbObject>, table: Contents, lookup: ContentLookup, ghost loose: Key -> bool)
      requires Lawful(lookup.codec) && AllIntact(lookup.codec, loose, table) && AllIntact(lookup.codec, loose, lookup.cache)
      requires Backed(lookup.codec, loose, table, rows)
      modifies lookup`cache
      ensures Valid() && fresh(tarWriter) && At() == Progress(0, [])
      ensures Refilled(old(lookup.cache), table, lookup.cache)
      ensures this.rows == rows && this.table == table && this.lookup == lookup && this.loose == loose
    {
      this.rows, this.table, this.lookup, this.loose := rows, table, lookup, loose;
      var writer := new TarWriter();
      tarWriter := writer;
      idx, chunkIdx, chunk := 0, 0, [];
      new;
      chunk := LoadChunk(lookup, table, loose, rows, 0, CHUNK_SIZE);
    }

    method Reload()
      requires Loading() && idx < |rows|
      modifies `chunkIdx, `chunk, lookup`cache
      ensures Refilled(old(lookup.cache), table, lookup.cache)
      ensures Loading() && chunkIdx < |chunk|
    {
      chunkIdx := 0;
      chunk := LoadChunk(lookup, table, loose, rows, idx, CHUNK_SIZE);
    }

    /** The next row and its content, from the chunk or from a new one. */
    method Fetch() returns (o: TarObject)
      requires Loading() && idx < |rows|
      modifies `idx, `chunkIdx, `chunk, lookup`cache
      ensures Refilled(old(lookup.cache), table, lookup.cache)
      ensures Loading() && idx == old(idx) + 1
      ensures o == Items()[old(idx)]
    {
      if chunkIdx >= |chunk| {
        Reload();
      }
      var row, content := rows[idx], chunk[chunkIdx];
      idx, chunkIdx := idx + 1, chunkIdx + 1;
      o := ToTarObject(row, content);
    }

    static method Emit(writer: TarWriter, o: TarObject) returns (out: Output)
      requires writer.Valid()
      modifies writer
      ensures writer.Valid()
      ensures (writer.entries, out) == Emitted(old(writer.entries), o)
    {
      if o.packed && !o.cached {
        return PackTar(o.path, o.content);
      }
      writer.WriteObject(o);
      if writer.size > TARGET_TAR_SIZE {
        var tar := writer.BytesAndReset();
        return Shared(tar);
      }
      return Skip;
    }

    static method Drain(writer: TarWriter) returns (out: Output)
      requires writer.Valid()
      modifies writer
      ensures writer.Valid()
      ensures (writer.entries, out) == Drained(old(writer.entries))
    {
      if writer.size > 0 {
        var tar := writer.BytesAndReset();
        return Shared(tar);
      }
      return Eof;
    }

    method Next() returns (out: Output)
      requires Valid()
      modifies this, tarWriter, lookup`cache
      ensures Refilled(old(lookup.cache), table, lookup.cache)
      ensures Valid()
      ensures (At(), out) == Advance(Items(), old(At()))
    {
      if idx >= |rows| {
        out := Drain(tarWriter);
      } else {
        var o := Fetch();
        out := Emit(tarWriter, o);
      }
    }

    /** The loop of GetCompress: everything that is sent, and how many calls it takes. */
    method SendAll() returns (sent: seq<Output>, calls: nat)
      requires Valid()
      modifies this, tarWriter, lookup`cache
      ensures Refilled(old(lookup.cache), table, lookup.cache)
      ensures sent == Deliveries(Items(), old(At()))
      ensures calls <= CallsLeft(Items(), old(At()))
    {
      sent, calls := [], 0;
      ghost var items, start := Items(), At();
      var done := false;
      while !done
        invariant Valid() && Refilled(old(lookup.cache), table, lookup.cache)
        invariant sent + (if done then [] else Deliveries(items, At())) == Deliveries(items, start)
        invariant calls + (if done then 0 else CallsLeft(items, At())) <= CallsLeft(items, start)
        decreases !done, CallsLeft(items, At())
      {
        StepTowardsEnd(items, At());
        ghost var cache := lookup.cache;
        var out := Next();
        RefilledTwice(old(lookup.cache), table, cache, lookup.cache);
        calls := calls + 1;
        done := out.Eof?;
        if !out.Eof? && !out.Skip? {
          sent := sent + [out];
        }
      }
    }
  }

  /** A bound on the calls until the end of the stream. */
  ghost function CallsLeft(items: seq<TarObject>, g: Progress): nat {
    (if g.idx < |items| then |items| - g.idx + 1 else if Total(g.pending) > 0 then 1 else 0) + 1
  }

  /** Everything the generator hands out from here to the end. */
  function Deliveries(items: seq<TarObject>, g: Progress): seq<Output>
    decreases CallsLeft(items, g)
  {
    var (next, out) := Advance(items, g);
    match out
    case Eof => []
    case Skip => Deliveries(items, next)
    case _ => [out] + Deliveries(items, next)
  }

  lemma StepTowardsEnd(items: seq<TarObject>, g: Progress)
    ensures var (next, out) := Advance(items, g);
            && Deliveries(items, g) == (if out.Eof? then [] else (if out.Skip? then [] else [out]) + Deliveries(items, next))
            && (if out.Eof? then CallsLeft(items, g) == 1 else CallsLeft(items, next) < CallsLeft(items, g))
  {
  }

  // ----- What arrives -----

  /** The entries of the shared tars, in order. */
  function SharedIn(outs: seq<Output>): seq<Header> {
    if outs == [] then [] else (if outs[0].Shared? then outs[0].entries else []) + SharedIn(outs[1..])
  }

  /** The packs, in order. */
  function PacksIn(outs: seq<Output>): seq<Output> {
    if outs == [] then [] else (if outs[0].PackTar? then [outs[0]] else []) + PacksIn(outs[1..])
  }

  /** The rows that belong into shared tars, as entries. */
  function Together(items: seq<TarObject>): seq<Header> {
    if items == [] then [] else (if GoesAlone(items[0]) then [] else [HeaderOf(items[0])]) + Together(items[1..])
  }

  /** The rows that are packs, with their contents. */
  function Alone(items: seq<TarObject>): seq<Output> {
    if items == [] then [] else (if GoesAlone(items[0]) then [PackTar(items[0].path, items[0].content)] else []) + Alone(items[1..])
  }

  /** What is in the unfinished tar when the rows run out. */
  function Leftover(items: seq<TarObject>, g: Progress): seq<Header>
    decreases |items| - g.idx
  {
    if g.idx >= |items| then g.pending else Leftover(items, Advance(items, g).0)
  }

  /** An unfinished tar of size 0 is taken for an empty one, and never sent. */
  function Lost(items: seq<TarObject>, g: Progress): seq<Header> {
    if Total(Leftover(items, g)) == 0 then Leftover(items, g) else []
  }

  /** What one call and the calls after it deliver. */
  lemma InStep(items: seq<TarObject>, g: Progress)
    requires g.idx < |items|
    ensures var (next, out) := Advance(items, g); var ds, es := Deliveries(items, g), Deliveries(items, next);
            && SharedIn(ds) == (if out.Shared? then out.entries else []) + SharedIn(es)
            && PacksIn(ds) == (if out.PackTar? then [out] else []) + PacksIn(es)
            && Lost(items, g) == Lost(items, next)
  {
    var (next, out) := Advance(items, g);
    StepTowardsEnd(items, g);
    if !out.Skip? {
      assert Deliveries(items, g)[1..] == Deliveries(items, next);
    }
  }

  /** At the end of the rows: what is pending goes out, or is lost. */
  lemma AtTheEnd(items: seq<TarObject>, g: Progress)
    requires g.idx >= |items|
    ensures SharedIn(Deliveries(items, g)) + Lost(items, g) == g.pending
    ensures PacksIn(Deliveries(items, g)) == []
  {
  }

  /** Every pack goes out once and in order. */
  lemma {:induction false} PacksGoOutOnce(items: seq<TarObject>, g: Progress)
    requires g.idx <= |items|
    ensures PacksIn(Deliveries(items, g)) == Alone(items[g.idx..])
    decreases |items| - g.idx
  {
    if g.idx == |items| {
      AtTheEnd(items, g);
    } else {
      assert items[g.idx..][1..] == items[g.idx + 1..];
      InStep(items, g);
      PacksGoOutOnce(items, Advance(items, g).0);
    }
  }

  lemma Regroup(flushed: seq<Header>, kept: seq<Header>, pending: seq<Header>, added: seq<Header>,
                later: seq<Header>, lost: seq<Header>, rest: seq<Header>)
    requires flushed + kept == pending + added && later + lost == kept + rest
    ensures (flushed + later) + lost == pending + (added + rest)
  {
    assert (flushed + later) + lost == flushed + (later + lost);
    assert flushed + (kept + rest) == (flushed + kept) + rest;
  }

  /** What a call flushes and what it keeps is what was pending and the row. */
  lemma OneCall(items: seq<TarObject>, g: Progress)
    requires g.idx < |items|
    ensures var (next, out) := Advance(items, g);
            && (if out.Shared? then out.entries else []) + next.pending == g.pending + Together([items[g.idx]])
            && next.idx == g.idx + 1
  {
  }

  lemma TogetherStep(items: seq<TarObject>, i: nat)
    requires i < |items|
    ensures Together(items[i..]) == Together([items[i]]) + Together(items[i + 1..])
  {
  }

  /** Every other row goes out once and in order, except what is lost at the end. */
  lemma {:induction false} RowsGoOutOnce(items: seq<TarObject>, g: Progress)
    requires g.idx <= |items|
    ensures SharedIn(Deliveries(items, g)) + Lost(items, g) == g.pending + Together(items[g.idx..])
    decreases |items| - g.idx
  {
    if g.idx == |items| {
      AtTheEnd(items, g);
    } else {
      OneCall(items, g);
      InStep(items, g);
      TogetherStep(items, g.idx);
      var (next, out) := Advance(items, g);
      RowsGoOutOnce(items, next);
      Regroup(if out.Shared? then out.entries else [], next.pending, g.pending, Together([items[g.idx]]),
              SharedIn(Deliveries(items, next)), Lost(items, next), Together(items[g.idx + 1..]));
    }
  }

  /** From the start of a query: the packs are exact, and the shared tars hold every other row if and only if nothing is lost. */
  lemma CompleteIff(items: seq<TarObject>)
    ensures PacksIn(Deliveries(items, Progress(0, []))) == Alone(items)
    ensures SharedIn(Deliveries(items, Progress(0, []))) == Together(items) <==> Lost(items, Progress(0, [])) == []
  {
    assert items[0..] == items;
    var g := Progress(0, []);
    PacksGoOutOnce(items, g);
    RowsGoOutOnce(items, g);
    assert [] + Together(items) == Together(items);
    assert Lost(items, g) == [] ==> SharedIn(Deliveries(items, g)) + [] == SharedIn(Deliveries(items, g));
  }

  /** The entry says of the object what it is: removed, cached (by its hash), or a file in its normal form. */
  ghost predicate Tells(h: Header, o: TarObject) {
    match h
    case Removed(name, perm, body) => o.deleted && name == o.path && perm == o.mode % 512 && body == o.content
    case Cached(name, perm, body) => !o.deleted && o.cached && name == o.path && perm == o.mode % 512 && body == o.content
    case Live(e) => !o.deleted && !o.cached && Decode(e) == Normal(Object(o.path, o.mode, o.size, false, o.content))
  }

  lemma HeaderTells(o: TarObject)
    ensures Tells(HeaderOf(o), o)
  {
    ModeBits(Object(o.path, o.mode, o.size, false, o.content));
  }

  lemma {:induction false} PackIsSent(outs: seq<Output>, out: Output)
    ensures out in PacksIn(outs) <==> out in outs && out.PackTar?
  {
    if outs != [] {
      PackIsSent(outs[1..], out);
    }
  }

  lemma {:induction false} SortedOut(items: seq<TarObject>)
    ensures forall o :: o in items ==> if o.packed && !o.cached then PackTar(o.path, o.content) in Alone(items) else HeaderOf(o) in Together(items)
    ensures forall out :: out in Alone(items) ==>
                            out.PackTar? && exists o :: o in items && o.packed && !o.cached && out == PackTar(o.path, o.content)
    ensures forall h :: h in Together(items) ==> exists o :: o in items && (!o.packed || o.cached) && h == HeaderOf(o)
  {
    if items != [] {
      SortedOut(items[1..]);
    }
  }

  /** A row that is a pack goes out as that pack, unless it is cached; every other row has its entry in a shared tar, if nothing is lost. */
  lemma EveryRowGoesOut(items: seq<TarObject>, o: TarObject)
    requires o in items
    ensures var sent := Deliveries(items, Progress(0, []));
            if o.packed && !o.cached then PackTar(o.path, o.content) in sent
            else Lost(items, Progress(0, [])) == [] ==> exists h :: h in SharedIn(sent) && Tells(h, o)
  {
    CompleteIff(items);
    SortedOut(items);
    HeaderTells(o);
    PackIsSent(Deliveries(items, Progress(0, [])), PackTar(o.path, o.content));
  }

  /** Nothing else goes out. */
  lemma OnlyRowsGoOut(items: seq<TarObject>, out: Output, h: Header)
    requires out in Deliveries(items, Progress(0, []))
    ensures out.PackTar? ==> exists o :: o in items && o.packed && !o.cached && out == PackTar(o.path, o.content)
    ensures out.Shared? && h in out.entries ==> exists o :: o in items && (!o.packed || o.cached) && Tells(h, o)
  {
    var g := Progress(0, []);
    CompleteIff(items);
    SortedOut(items);
    PackIsSent(Deliveries(items, g), out);
    if out.Shared? && h in out.entries {
      EntryIsShared(Deliveries(items, g), out, h);
      RowsGoOutOnce(items, g);
      assert items[0..] == items && h in SharedIn(Deliveries(items, g)) + Lost(items, g);
      var o :| o in items && (!o.packed || o.cached) && h == HeaderOf(o);
      HeaderTells(o);
    }
  }

  lemma {:induction false} EntryIsShared(outs: seq<Output>, out: Output, h: Header)
    requires out in outs && out.Shared? && h in out.entries
    ensures h in SharedIn(outs)
  {
    if outs[0] != out {
      EntryIsShared(outs[1..], out, h);
    }
  }

  /** The bytes an object takes: its path and, for a removal, a cached object or a regular file, its content. */
  function BytesFor(o: TarObject): nat {
    |o.path| + if o.deleted || o.cached || TarTypeFromMode(FileMode(o.mode)) == Reg then |o.content| else 0
  }

  lemma WeightIsBytes(o: TarObject)
    ensures Weight(HeaderOf(o)) == BytesFor(o)
  {
  }

  /** Every row that shares a tar counts for something. */
  predicate AllWeigh(objects: seq<TarObject>) {
    forall o :: o in objects && (!o.packed || o.cached) ==> BytesFor(o) > 0
  }

  lemma {:induction false} WeighingRowsAreNotLost(items: seq<TarObject>, g: Progress)
    requires AllWeigh(items) && (forall h :: h in g.pending ==> Weight(h) > 0)
    ensures Lost(items, g) == []
    decreases |items| - g.idx
  {
    if g.idx < |items| {
      WeightIsBytes(items[g.idx]);
      WeighingRowsAreNotLost(items, Advance(items, g).0);
    } else if g.pending != [] {
      assert g.pending[|g.pending| - 1] in g.pending;
    }
  }

  /** A row that weighs nothing is lost when nothing else is in its tar. */
  lemma WeightlessRowIsLost(o: TarObject)
    requires (!o.packed || o.cached) && BytesFor(o) == 0
    ensures Lost([o], Progress(0, [])) == [HeaderOf(o)] && Deliveries([o], Progress(0, [])) == []
  {
    var h := HeaderOf(o);
    WeightIsBytes(o);
    assert Total([h]) == Total([h][..0]) + Weight(h);
    assert [] + [h] == [h];
    StepTowardsEnd([o], Progress(0, []));
    StepTowardsEnd([o], Progress(1, [h]));
    assert Advance([o], Progress(0, [])).0 == Progress(1, [h]);
    assert Leftover([o], Progress(1, [h])) == [h];
  }

  predicate Drawn(items: seq<TarObject>, allowed: TarObject -> bool) {
    forall o :: o in items ==> allowed(o)
  }

  /** Whatever rows a project may hold: no query over them loses a row if and only if each of them weighs something. */
  lemma NeverLosesIff(allowed: TarObject -> bool)
    ensures (forall items :: Drawn(items, allowed) ==> Lost(items, Progress(0, [])) == [])
            <==> (forall o :: allowed(o) && (!o.packed || o.cached) ==> BytesFor(o) > 0)
  {
    if forall items :: Drawn(items, allowed) ==> Lost(items, Progress(0, [])) == [] {
      forall o | allowed(o) && (!o.packed || o.cached) ensures BytesFor(o) > 0 {
        assert Drawn([o], allowed);
        if BytesFor(o) == 0 {
          WeightlessRowIsLost(o);
        }
      }
    }
    if forall o :: allowed(o) && (!o.packed || o.cached) ==> BytesFor(o) > 0 {
      forall items | Drawn(items, allowed) ensures Lost(items, Progress(0, [])) == [] {
        WeighingRowsAreNotLost(items, Progress(0, []));
      }
    }
  }

  /** Over the target, but not without its last entry. */
  predicate JustFull(entries: seq<Header>) {
    entries != [] && Total(entries) > TARGET_TAR_SIZE && Total(entries[..|entries| - 1]) <= TARGET_TAR_SIZE
  }

  /** A call keeps what is pending within the target, and what it flushes is just full. */
  lemma FlushedWhenFull(items: seq<TarObject>, g: Progress)
    requires Total(g.pending) <= TARGET_TAR_SIZE && g.idx < |items|
    ensures var (next, out) := Advance(items, g);
            Total(next.pending) <= TARGET_TAR_SIZE && (out.Shared? ==> JustFull(out.entries))
  {
    var pending := g.pending + [HeaderOf(items[g.idx])];
    assert pending[..|pending| - 1] == g.pending;
    assert Total([]) == 0;
  }

  /** At the end of the rows, one last tar goes out if there is anything in it. */
  lemma LastDelivery(items: seq<TarObject>, g: Progress)
    requires g.idx >= |items|
    ensures Deliveries(items, g) == if Total(g.pending) > 0 then [Shared(g.pending)] else []
  {
    StepTowardsEnd(items, g);
    StepTowardsEnd(items, g.(pending := []));
  }

  /** Every shared tar but the last delivery is just full; the last is within the target or just full, and not empty. */
  lemma {:induction false} SharedTarsAreFull(items: seq<TarObject>, g: Progress, i: nat)
    requires Total(g.pending) <= TARGET_TAR_SIZE && i < |Deliveries(items, g)| && Deliveries(items, g)[i].Shared?
    ensures var entries := Deliveries(items, g)[i].entries;
            || JustFull(entries)
            || (i == |Deliveries(items, g)| - 1 && 0 < Total(entries) <= TARGET_TAR_SIZE)
    decreases CallsLeft(items, g)
  {
    if g.idx >= |items| {
      LastDelivery(items, g);
    } else {
      var (next, out) := Advance(items, g);
      StepTowardsEnd(items, g);
      FlushedWhenFull(items, g);
      if out.Skip? {
        SharedTarsAreFull(items, next, i);
      } else if i > 0 {
        SharedTarsAreFull(items, next, i - 1);
      }
    }
  }
}
