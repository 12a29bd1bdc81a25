/**
  The generator behind Get and GetUnary (GetObjects in internal/db/query.go): query rows
  one object at a time, every pack unpacked into a buffer, filtered by the path asked for.
*/
module ObjectStreams {
  import opened Paths
  import opened TarFormat
  import opened ContentCache
  import opened Chunks

  /** Reading the entries of a tar; no bytes hold no entries. */
  type Untar = Bytes -> seq<TarEntry>

  datatype Query = Query(path: Path, isPrefix: bool)

  predicate Matches(q: Query, k: Path) {
    (q.isPrefix && q.path <= k) || k == q.path
  }

  /** Refused: the query returned a cached row. Crash: a pack without entries, whose first one is taken. */
  datatype Output = Item(value: Object) | Skip | Eof | Refused | Crash

  function FilterObject(q: Query, o: Object): Output {
    if Matches(q, o.path) then Item(o) else Skip
  }

  function UnpackObjects(entries: seq<TarEntry>): (objects: seq<Object>)
    ensures |objects| == |entries|
    ensures forall i :: 0 <= i < |entries| ==> objects[i] == Decode(entries[i])
  {
    seq(|entries|, i requires 0 <= i < |entries| => Decode(entries[i]))
  }

  /** A row with its content. */
  datatype Fetched = Fetched(row: DbObject, content: Bytes)

  function ObjectsOf(untar: Untar, f: Fetched): seq<Object> {
    if f.row.packed then UnpackObjects(untar(f.content))
    else [Object(f.row.path, f.row.mode, f.row.size, f.row.deleted, f.content)]
  }

  datatype Progress = Progress(idx: nat, buffer: seq<Object>)

  /** One call of the generator, over rows already paired with their contents. */
  function Advance(untar: Untar, items: seq<Fetched>, q: Query, g: Progress): (Progress, Output) {
    if g.buffer != [] then (g.(buffer := g.buffer[1..]), FilterObject(q, g.buffer[0]))
    else if g.idx >= |items| then (g, Eof)
    else
      var f, next := items[g.idx], g.(idx := g.idx + 1);
      if f.row.cached then (next, Refused)
      else
        var objects := ObjectsOf(untar, f);
        if objects == [] then (next, Crash)
        else (next.(buffer := objects[1..]), FilterObject(q, objects[0]))
  }

  function ItemsFor(cd: Codec, table: Contents, rows: seq<DbObject>): (items: seq<Fetched>)
    ensures |items| == |rows|
  {
    seq(|rows|, i requires 0 <= i < |rows| => Fetched(rows[i], ContentFor(cd, table, rows[i])))
  }

  class ObjectStream {
    const rows: seq<DbObject>
    const table: Contents
    const lookup: ContentLookup
    const untar: Untar
    const query: Query
    ghost const loose: Key -> bool
    var idx: nat
    var chunkIdx: nat
    var chunk: seq<Bytes>
    var packBuffer: seq<Object>

    /** The cache is shared with other requests, which keep it intact. */
    ghost predicate Valid()
      reads this, lookup
    {
      && Lawful(lookup.codec) && AllIntact(lookup.codec, loose, table) && AllIntact(lookup.codec, loose, lookup.cache)
      && Backed(lookup.codec, loose, table, rows)
      && idx <= |rows| && chunkIdx <= |chunk| && chunkIdx <= idx && idx - chunkIdx + |chunk| <= |rows|
      && (forall j :: 0 <= j < |chunk| ==> chunk[j] == ContentFor(lookup.codec, table, rows[idx - chunkIdx + j]))
    }

    ghost function Items(): seq<Fetched> {
      ItemsFor(lookup.codec, table, rows)
    }

    ghost function At(): Progress
      reads this
    {
      Progress(idx, packBuffer)
    }

    constructor (rows: seq<DbObject>, table: Contents, lookup: ContentLookup, untar: Untar, query: Query, ghost loose: Key -> bool)
      requires Lawful(lookup.codec) && AllIntact(lookup.codec, loose, table) && AllIntact(lookup.codec, loose, lookup.cache)
      requires Backed(lookup.codec, loose, table, rows)
      modifies lookup`cache
      ensures Valid() && At() == Progress(0, [])
      ensures Refilled(old(lookup.cache), table, lookup.cache)
      ensures this.rows == rows && this.table == table && this.lookup == lookup
      ensures this.untar == untar && this.query == query && this.loose == loose
    {
      this.rows, this.table, this.lookup, this.untar, this.query, this.loose := rows, table, lookup, untar, query, loose;
      idx, chunkIdx, chunk, packBuffer := 0, 0, [], [];
      new;
      chunk := LoadChunk(lookup, table, loose, rows, 0, CHUNK_SIZE);
    }

    method Reload()
      requires Valid() && idx < |rows|
      modifies `chunkIdx, `chunk, lookup`cache
      ensures Refilled(old(lookup.cache), table, lookup.cache)
      ensures Valid() && chunkIdx < |chunk|
    {
      chunkIdx := 0;
      chunk := LoadChunk(lookup, table, loose, rows, idx, CHUNK_SIZE);
    }

    /** The next row and its content, from the chunk or from a new one. */
    method Fetch() returns (f: Fetched)
      requires Valid() && idx < |rows|
      modifies `idx, `chunkIdx, `chunk, lookup`cache
      ensures Refilled(old(lookup.cache), table, lookup.cache)
      ensures Valid() && idx == old(idx) + 1
      ensures f == Items()[old(idx)]
    {
      if chunkIdx >= |chunk| {
        Reload();
      }
      f := Fetched(rows[idx], chunk[chunkIdx]);
      idx, chunkIdx := idx + 1, chunkIdx + 1;
    }

    method Next() returns (out: Output)
      requires Valid()
      modifies this, lookup`cache
      ensures Refilled(old(lookup.cache), table, lookup.cache)
      ensures Valid()
      ensures (At(), out) == Advance(untar, Items(), query, old(At()))
    {
      if |packBuffer| > 0 {
        out := FilterObject(query, packBuffer[0]);
        packBuffer := packBuffer[1..];
        return;
      }
      if idx >= |rows| {
        return Eof;
      }
      var f := Fetch();
      if f.row.cached {
        return Refused;
      }
      if f.row.packed {
        packBuffer := UnpackObjects(untar(f.content));
        if packBuffer == [] {
          return Crash;
        }
        out := FilterObject(query, packBuffer[0]);
        packBuffer := packBuffer[1..];
        return;
      }
      assert ObjectsOf(untar, f)[1..] == [];
      return FilterObject(query, Object(f.row.path, f.row.mode, f.row.size, f.row.deleted, f.content));
    }

    /** The loop of GetUnary: all objects, or None where the request fails. */
    method CollectAll() returns (r: Option<seq<Object>>)
      requires Valid()
      modifies this, lookup`cache
      ensures Refilled(old(lookup.cache), table, lookup.cache)
      ensures r == Collected(untar, Items(), query, old(At()))
    {
      var objects: seq<Object> := [];
      ghost var items, start := Items(), At();
      PrependNothing(Collected(untar, items, query, start));
      while true
        invariant Valid() && Refilled(old(lookup.cache), table, lookup.cache)
        invariant Prepend(objects, Collected(untar, items, query, At())) == Collected(untar, items, query, start)
        decreases |items| - idx, |packBuffer|
      {
        CollectedStep(untar, items, query, At());
        ghost var before := objects;
        ghost var cache := lookup.cache;
        var out := Next();
        RefilledTwice(old(lookup.cache), table, cache, lookup.cache);
        if out.Item? {
          PrependTwice(before, [out.value], Collected(untar, items, query, At()));
        }
        match out
        case Item(o) => objects := objects + [o];
        case Skip =>
        case Eof =>
          assert objects + [] == objects;
          return Some(objects);
        case _ => return None;
      }
    }
  }

  function Prepend(objects: seq<Object>, r: Option<seq<Object>>): Option<seq<Object>> {
    match r case None => None case Some(more) => Some(objects + more)
  }

  lemma PrependNothing(r: Option<seq<Object>>)
    ensures Prepend([], r) == r
  {
    assert r.Some? ==> [] + r.value == r.value;
  }

  lemma PrependTwice(a: seq<Object>, b: seq<Object>, r: Option<seq<Object>>)
    ensures Prepend(a, Prepend(b, r)) == Prepend(a + b, r)
  {
    assert r.Some? ==> a + (b + r.value) == (a + b) + r.value;
  }

  /** Everything the generator hands out from here to the end, if it gets there. */
  function Collected(untar: Untar, items: seq<Fetched>, q: Query, g: Progress): Option<seq<Object>>
    decreases |items| - g.idx, |g.buffer|
  {
    var (next, out) := Advance(untar, items, q, g);
    match out
    case Item(o) => Prepend([o], Collected(untar, items, q, next))
    case Skip => Collected(untar, items, q, next)
    case Eof => Some([])
    case _ => None
  }

  lemma CollectedStep(untar: Untar, items: seq<Fetched>, q: Query, g: Progress)
    ensures var (next, out) := Advance(untar, items, q, g);
            Collected(untar, items, q, g) ==
            match out
            case Item(o) => Prepend([o], Collected(untar, items, q, next))
            case Skip => Collected(untar, items, q, next)
            case Eof => Some([])
            case _ => None
  {
  }

  // ----- What arrives -----

  /** The row can be handed out: it is not cached and, if it is a pack, not empty. */
  predicate Servable(untar: Untar, f: Fetched) {
    !f.row.cached && ObjectsOf(untar, f) != []
  }

  function Kept(q: Query, objects: seq<Object>): seq<Object> {
    if objects == [] then [] else (if Matches(q, objects[0].path) then [objects[0]] else []) + Kept(q, objects[1..])
  }

  function KeptOf(untar: Untar, q: Query, items: seq<Fetched>): seq<Object> {
    if items == [] then [] else Kept(q, ObjectsOf(untar, items[0])) + KeptOf(untar, q, items[1..])
  }

  ghost predicate AllServable(untar: Untar, items: seq<Fetched>, first: nat) {
    forall i :: first <= i < |items| ==> Servable(untar, items[i])
  }

  /** What is still to come if nothing goes wrong. */
  function Matching(untar: Untar, items: seq<Fetched>, q: Query, g: Progress): seq<Object>
    requires g.idx <= |items|
  {
    Kept(q, g.buffer) + KeptOf(untar, q, items[g.idx..])
  }

  /** A call that hands out or skips an object takes it from the front of what is to come. */
  lemma MatchingStep(untar: Untar, items: seq<Fetched>, q: Query, g: Progress)
    requires g.idx <= |items| && Advance(untar, items, q, g).0.idx <= |items|
    ensures var (next, out) := Advance(untar, items, q, g);
            && (out.Item? ==> Matching(untar, items, q, g) == [out.value] + Matching(untar, items, q, next))
            && (out.Skip? ==> Matching(untar, items, q, g) == Matching(untar, items, q, next))
            && (out.Eof? ==> Matching(untar, items, q, g) == [])
  {
    var (next, out) := Advance(untar, items, q, g);
    if g.buffer == [] && g.idx < |items| {
      assert items[g.idx..][1..] == items[g.idx + 1..];
      var rest := KeptOf(untar, q, items[g.idx + 1..]);
      assert Matching(untar, items, q, g) == Kept(q, ObjectsOf(untar, items[g.idx])) + rest;
    }
  }

  /** The stream gives every matching object of every row, in order, if and only if every row can be handed out. */
  lemma {:induction false} StreamGivesMatches(untar: Untar, items: seq<Fetched>, q: Query, g: Progress)
    requires g.idx <= |items|
    ensures Collected(untar, items, q, g) ==
            if AllServable(untar, items, g.idx) then Some(Matching(untar, items, q, g)) else None
    decreases |items| - g.idx, |g.buffer|
  {
    var (next, out) := Advance(untar, items, q, g);
    CollectedStep(untar, items, q, g);
    MatchingStep(untar, items, q, g);
    if out.Item? || out.Skip? {
      StreamGivesMatches(untar, items, q, next);
    }
  }
}
