/**
  Rows of a query on their way to a client, and the contents loaded for them a chunk at a
  time (loadChunk in internal/db/query.go).
*/
module Chunks {
  import opened Paths
  import opened TarFormat
  import opened ContentCache

  const CHUNK_SIZE := 200

  /** A row of a query result. The hash of a removed row is one that no content has. */
  datatype DbObject = DbObject(hash: Key, path: Path, mode: int, size: int, deleted: bool, cached: bool, packed: bool)

  /** What belongs to a row: its hash if the client has the content, the content, or nothing. */
  function ContentFor(cd: Codec, table: Contents, d: DbObject): Bytes {
    if d.cached then d.hash
    else if d.hash !in table then []
    else match Read(cd, !d.packed, table[d.hash]) case Some(c) => c case None => []
  }

  /** Every row is stored, as the kind it was stored as, or has the hash of nothing at all. */
  ghost predicate Backed(cd: Codec, loose: Key -> bool, table: Contents, rows: seq<DbObject>) {
    forall i :: 0 <= i < |rows| && !rows[i].cached ==>
                  if rows[i].hash in table then loose(rows[i].hash) == !rows[i].packed else HashOfNothing(cd, rows[i].hash)
  }

  ghost predicate HashOfNothing(cd: Codec, h: Key) {
    forall c :: cd.hash(c) != h
  }

  function ChunkEnd(start: nat, count: nat, size: nat): (end: nat)
    requires start <= count
    ensures start <= end <= count
  {
    if start + size < count then start + size else count
  }

  /** Uncached hashes with their flag, each flag that of some row with this hash. */
  ghost predicate FlagsFrom(hashes: map<Key, bool>, rows: seq<DbObject>) {
    forall h :: h in hashes ==> exists i :: 0 <= i < |rows| && HasFlag(rows[i], h, hashes[h])
  }

  predicate HasFlag(d: DbObject, h: Key, encoded: bool) {
    !d.cached && d.hash == h && encoded == !d.packed
  }

  /** What a chunk takes for a row from the contents that were found. */
  function Picked(contents: Contents, d: DbObject): Bytes {
    if d.cached then d.hash else if d.hash in contents then contents[d.hash] else []
  }

  /** The hashes of a chunk; where two rows share a hash the later flag stands. */
  method ChunkHashes(rows: seq<DbObject>, start: nat, size: nat) returns (hashes: map<Key, bool>)
    requires start <= |rows|
    ensures FlagsFrom(hashes, rows)
    ensures forall j :: start <= j < ChunkEnd(start, |rows|, size) && !rows[j].cached ==> rows[j].hash in hashes
  {
    hashes := map[];
    var i := 0;
    while i < size && i + start < |rows|
      invariant 0 <= i && start + i <= ChunkEnd(start, |rows|, size)
      invariant FlagsFrom(hashes, rows)
      invariant forall j :: start <= j < start + i && !rows[j].cached ==> rows[j].hash in hashes
    {
      var row := rows[i + start];
      if !row.cached {
        assert HasFlag(row, row.hash, !row.packed);
        hashes := hashes[row.hash := !row.packed];
      }
      i := i + 1;
    }
  }

  /** The contents of a chunk, laid out row by row. */
  method LayOut(rows: seq<DbObject>, contents: Contents, start: nat, size: nat) returns (decoded: seq<Bytes>)
    requires start <= |rows|
    ensures |decoded| == ChunkEnd(start, |rows|, size) - start
    ensures forall j :: 0 <= j < |decoded| ==> decoded[j] == Picked(contents, rows[start + j])
  {
    decoded := [];
    var i := 0;
    while i < size && i + start < |rows|
      invariant 0 <= i == |decoded| && start + i <= ChunkEnd(start, |rows|, size)
      invariant forall j :: 0 <= j < i ==> decoded[j] == Picked(contents, rows[start + j])
    {
      var row := rows[i + start];
      if row.cached {
        decoded := decoded + [row.hash];
      } else {
        decoded := decoded + [if row.hash in contents then contents[row.hash] else []];
      }
      i := i + 1;
    }
  }

  /** No value is held for a hash that no content has, and the others are asked for as they were stored. */
  lemma AskedAsStored(cd: Codec, loose: Key -> bool, table: Contents, cache: Contents, rows: seq<DbObject>, hashes: map<Key, bool>)
    requires AllIntact(cd, loose, cache) && Backed(cd, loose, table, rows) && FlagsFrom(hashes, rows)
    ensures forall h :: h in hashes ==> if h in table then hashes[h] == loose(h) else h !in cache
  {
  }

  /** A lookup for these rows succeeds and finds what belongs to each. */
  lemma LookupServes(cd: Codec, loose: Key -> bool, table: Contents, cache: Contents, rows: seq<DbObject>, hashes: map<Key, bool>)
    requires Lawful(cd) && AllIntact(cd, loose, table) && AllIntact(cd, loose, cache)
    requires Backed(cd, loose, table, rows) && FlagsFrom(hashes, rows)
    ensures !Fails(cd, table, cache, hashes)
    ensures forall contents, i :: Answers(cd, table, cache, hashes, contents) && 0 <= i < |rows|
                                  && (rows[i].cached || rows[i].hash in hashes) ==>
              Picked(contents, rows[i]) == ContentFor(cd, table, rows[i])
  {
    AskedAsStored(cd, loose, table, cache, rows, hashes);
    forall contents, i | Answers(cd, table, cache, hashes, contents) && 0 <= i < |rows| && (rows[i].cached || rows[i].hash in hashes)
      ensures Picked(contents, rows[i]) == ContentFor(cd, table, rows[i])
    {
      PickedIsRight(cd, loose, table, cache, rows[i], hashes, contents);
    }
  }

  lemma PickedIsRight(cd: Codec, loose: Key -> bool, table: Contents, cache: Contents, d: DbObject,
                      hashes: map<Key, bool>, contents: Contents)
    requires Lawful(cd) && AllIntact(cd, loose, table) && AllIntact(cd, loose, cache)
    requires !d.cached && d.hash in table ==> loose(d.hash) == !d.packed
    requires d.cached || (d.hash in hashes && if d.hash in table then hashes[d.hash] == loose(d.hash) else d.hash !in cache)
    requires Answers(cd, table, cache, hashes, contents)
    ensures Picked(contents, d) == ContentFor(cd, table, d)
  {
  }

  lemma CacheStaysIntact(cd: Codec, loose: Key -> bool, table: Contents, before: Contents, after: Contents)
    requires AllIntact(cd, loose, table) && AllIntact(cd, loose, before) && Refilled(before, table, after)
    ensures AllIntact(cd, loose, after)
  {
  }

  /** Looks the hashes of a chunk up together: each row gets its own content. */
  method LoadChunk(lookup: ContentLookup, table: Contents, ghost loose: Key -> bool, rows: seq<DbObject>, start: nat, size: nat)
    returns (decoded: seq<Bytes>)
    requires Lawful(lookup.codec) && AllIntact(lookup.codec, loose, table) && AllIntact(lookup.codec, loose, lookup.cache)
    requires Backed(lookup.codec, loose, table, rows) && start <= |rows|
    modifies lookup`cache
    ensures AllIntact(lookup.codec, loose, lookup.cache) && Refilled(old(lookup.cache), table, lookup.cache)
    ensures |decoded| == ChunkEnd(start, |rows|, size) - start
    ensures forall j :: 0 <= j < |decoded| ==> decoded[j] == ContentFor(lookup.codec, table, rows[start + j])
  {
    ghost var cache := lookup.cache;
    var hashes := ChunkHashes(rows, start, size);
    LookupServes(lookup.codec, loose, table, cache, rows, hashes);
    var found := lookup.Lookup(table, hashes);
    CacheStaysIntact(lookup.codec, loose, table, cache, lookup.cache);
    decoded := LayOut(rows, found.value, start, size);
  }
}
