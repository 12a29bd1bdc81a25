/**
  The content table and the cache in front of it (internal/db/content.go), at the level of
  the stored bytes: the content of a file is stored compressed, a pack is stored as it is,
  and one cache keeps whatever the table held, for both. The cache may forget any entry at
  any moment and content may be collected and stored again.
*/
module ContentCache {
  import opened Paths
  import opened TarFormat

  /** A hash, represented by bytes. */
  type Key = Bytes

  type Contents = map<Key, Bytes>

  /** The hash function, and compression; decompressing fails on bytes that are not compressed. */
  datatype Codec = Codec(hash: Bytes -> Key, encode: Bytes -> Bytes, decode: Bytes -> Option<Bytes>)

  /** The hash has no collisions, and decompression undoes compression. */
  ghost predicate Lawful(cd: Codec) {
    && (forall c, d :: cd.hash(c) == cd.hash(d) ==> c == d)
    && (forall c :: cd.decode(cd.encode(c)) == Some(c))
  }

  function Stored(cd: Codec, encoded: bool, c: Bytes): Bytes {
    if encoded then cd.encode(c) else c
  }

  function Read(cd: Codec, encoded: bool, value: Bytes): Option<Bytes> {
    if encoded then cd.decode(value) else Some(value)
  }

  function Found(m: Contents, h: Key): Option<Bytes> {
    if h in m then Some(m[h]) else None
  }

  // ----- Lookup -----

  /** A stored or cached value that reads as `c`. */
  predicate ReadsAs(cd: Codec, m: Contents, h: Key, encoded: bool, c: Option<Bytes>) {
    h in m && Read(cd, encoded, m[h]) == c
  }

  /** Whatever was found was asked for, and comes from the table or the cache. */
  ghost predicate AllRead(cd: Codec, table: Contents, cache: Contents, hashes: map<Key, bool>, contents: Contents) {
    forall h :: h in contents ==>
      && h in hashes
      && (ReadsAs(cd, table, h, hashes[h], Some(contents[h])) || ReadsAs(cd, cache, h, hashes[h], Some(contents[h])))
  }

  /** Moreover, everything the table holds is found. */
  ghost predicate Answers(cd: Codec, table: Contents, cache: Contents, hashes: map<Key, bool>, contents: Contents) {
    && (forall h :: h in hashes && h in table ==> h in contents)
    && AllRead(cd, table, cache, hashes, contents)
  }

  /** Some value that was asked for does not decompress. */
  ghost predicate Fails(cd: Codec, table: Contents, cache: Contents, hashes: map<Key, bool>) {
    exists h :: h in hashes && (ReadsAs(cd, table, h, hashes[h], None) || ReadsAs(cd, cache, h, hashes[h], None))
  }

  /** Every cached value was cached before or comes from the table. */
  ghost predicate Refilled(before: Contents, table: Contents, after: Contents) {
    forall h :: h in after ==> (h in before && after[h] == before[h]) || (h in table && after[h] == table[h])
  }

  lemma RefilledTwice(a: Contents, table: Contents, b: Contents, c: Contents)
    ensures Refilled(a, table, b) && Refilled(b, table, c) ==> Refilled(a, table, c)
  {
  }

  class ContentLookup {
    const codec: Codec
    var cache: Contents

    constructor (cd: Codec)
      ensures codec == cd && cache == map[]
    {
      codec, cache := cd, map[];
    }

    /** The cache drops whatever it likes. */
    method Evict()
      modifies `cache
      ensures cache.Keys <= old(cache).Keys && forall h :: h in cache ==> cache[h] == old(cache)[h]
    {
      var gone: set<Key> := *;
      cache := cache - gone;
    }

    /** What the cache still holds, and the hashes it does not; None where decompression fails. */
    method FromCache(hashes: map<Key, bool>) returns (r: Option<Contents>, notFound: seq<Key>)
      modifies `cache
      ensures Refilled(old(cache), map[], cache)
      ensures forall h :: h in notFound ==> h in hashes
      ensures match r
              case Some(contents) =>
                && (forall h :: h in hashes ==> h in contents || h in notFound)
                && AllRead(codec, map[], old(cache), hashes, contents)
              case None => Fails(codec, map[], old(cache), hashes)
    {
      var contents: Contents := map[];
      notFound := [];
      var todo := hashes.Keys;
      while todo != {}
        invariant todo <= hashes.Keys
        invariant forall h :: h in hashes ==> h in todo || h in contents || h in notFound
        invariant AllRead(codec, map[], old(cache), hashes, contents)
        invariant forall h :: h in notFound ==> h in hashes
        invariant Refilled(old(cache), map[], cache)
      {
        var h :| h in todo;
        todo := todo - {h};
        Evict();
        if h in cache {
          match Read(codec, hashes[h], cache[h])
          case Some(decoded) => contents := contents[h := decoded];
          case None =>
            assert ReadsAs(codec, old(cache), h, hashes[h], None);
            return None, notFound;
        } else {
          notFound := notFound + [h];
        }
      }
      return Some(contents), notFound;
    }

    /** One query for all that was not found; what it returns goes to the cache and to the contents. */
    method FromTable(table: Contents, hashes: map<Key, bool>, notFound: seq<Key>, found: Contents, ghost before: Contents)
      returns (r: Option<Contents>)
      requires Refilled(before, map[], cache) && AllRead(codec, map[], before, hashes, found)
      requires forall h :: h in notFound ==> h in hashes
      requires forall h :: h in hashes ==> h in found || h in notFound
      modifies `cache
      ensures Refilled(before, table, cache)
      ensures match r
              case Some(contents) => Answers(codec, table, before, hashes, contents)
              case None => Fails(codec, table, before, hashes)
    {
      var contents := found;
      var rows := set h | h in table && h in notFound;
      while rows != {}
        invariant rows <= table.Keys && rows <= hashes.Keys
        invariant forall h :: h in hashes && h in table ==> h in rows || h in contents
        invariant AllRead(codec, table, before, hashes, contents)
        invariant Refilled(before, table, cache)
      {
        var h :| h in rows;
        rows := rows - {h};
        cache := cache[h := table[h]];
        Evict();
        match Read(codec, hashes[h], table[h])
        case Some(decoded) => contents := contents[h := decoded];
        case None =>
          assert ReadsAs(codec, table, h, hashes[h], None);
          return None;
      }
      return Some(contents);
    }

    /** First the cache, then the table; None where decompression fails. */
    method Lookup(table: Contents, hashes: map<Key, bool>) returns (r: Option<Contents>)
      modifies `cache
      ensures Refilled(old(cache), table, cache)
      ensures match r
              case Some(contents) => Answers(codec, table, old(cache), hashes, contents)
              case None => Fails(codec, table, old(cache), hashes)
    {
      var found, notFound := FromCache(hashes);
      if found.None? {
        assert Refilled(old(cache), table, cache);
        return None;
      }
      r := FromTable(table, hashes, notFound, found.value, old(cache));
    }
  }

  // ----- Runs -----

  datatype State = State(table: Contents, cache: Contents)

  /** A lookup copies some of the table's entries to the cache and makes the cache drop others. */
  datatype Event =
    | Store(content: Bytes, encoded: bool)
    | Collect(hashes: set<Key>)
    | Evict(hashes: set<Key>)
    | Lookup(refilled: set<Key>, dropped: set<Key>)

  /** INSERT ... ON CONFLICT DO NOTHING */
  function Insert(table: Contents, h: Key, value: Bytes): Contents {
    if h in table then table else table[h := value]
  }

  function Cached(before: Contents, table: Contents, refilled: set<Key>, dropped: set<Key>): Contents {
    (before + map h | h in table && h in refilled :: table[h]) - dropped
  }

  /** What a lookup may do to the cache is such an event. */
  lemma LookupIsAnEvent(before: Contents, table: Contents, after: Contents)
    requires Refilled(before, table, after)
    ensures exists refilled, dropped :: after == Cached(before, table, refilled, dropped)
  {
    var refilled := set h | h in after && h in table && after[h] == table[h];
    var dropped := before.Keys - after.Keys;
    assert after == Cached(before, table, refilled, dropped);
  }

  function Step(cd: Codec, s: State, e: Event): State {
    match e
    case Store(c, encoded) => s.(table := Insert(s.table, cd.hash(c), Stored(cd, encoded, c)))
    case Collect(hashes) => s.(table := s.table - hashes)
    case Evict(hashes) => s.(cache := s.cache - hashes)
    case Lookup(refilled, dropped) => s.(cache := Cached(s.cache, s.table, refilled, dropped))
  }

  /** The state after a run of events, from an empty table and an empty cache. */
  function After(cd: Codec, events: seq<Event>): State {
    if events == [] then State(map[], map[]) else Step(cd, After(cd, events[..|events| - 1]), events[|events| - 1])
  }

  /** No hash is stored both as a file and as a pack. */
  predicate OneKindPerHash(cd: Codec, loose: Key -> bool, events: seq<Event>) {
    forall i :: 0 <= i < |events| && events[i].Store? ==> events[i].encoded == loose(cd.hash(events[i].content))
  }

  /** The value is what storing the content of that hash gives. */
  predicate Intact(cd: Codec, encoded: bool, h: Key, value: Bytes) {
    match Read(cd, encoded, value)
    case None => false
    case Some(c) => cd.hash(c) == h && value == Stored(cd, encoded, c)
  }

  predicate AllIntact(cd: Codec, loose: Key -> bool, m: Contents) {
    forall h :: h in m ==> Intact(cd, loose(h), h, m[h])
  }

  lemma {:induction false} RunsStayIntact(cd: Codec, loose: Key -> bool, events: seq<Event>)
    requires Lawful(cd) && OneKindPerHash(cd, loose, events)
    ensures AllIntact(cd, loose, After(cd, events).table) && AllIntact(cd, loose, After(cd, events).cache)
  {
    if events != [] {
      RunsStayIntact(cd, loose, events[..|events| - 1]);
    }
  }

  /**
    After every run of stores, collections, evictions and lookups, a lookup cannot fail, gives for
    each stored hash what decoding the table directly gives, and never content of another hash.
  */
  lemma LookupAgreesWithTable(cd: Codec, loose: Key -> bool, events: seq<Event>, hashes: map<Key, bool>, contents: Contents)
    requires Lawful(cd) && OneKindPerHash(cd, loose, events)
    requires forall h :: h in hashes ==> hashes[h] == loose(h)
    ensures var s := After(cd, events);
            && !Fails(cd, s.table, s.cache, hashes)
            && (Answers(cd, s.table, s.cache, hashes, contents) ==>
                  && (forall h :: h in hashes && h in s.table ==> ReadsAs(cd, s.table, h, hashes[h], Found(contents, h)))
                  && (forall h :: h in contents ==> cd.hash(contents[h]) == h))
  {
    RunsStayIntact(cd, loose, events);
  }

  // ----- One hash for a file and for a pack -----

  /** The kind of the first store of a hash since it was last collected. */
  function TableKind(cd: Codec, events: seq<Event>, h: Key): Option<bool> {
    if events == [] then None
    else
      var before := TableKind(cd, events[..|events| - 1], h);
      match events[|events| - 1]
      case Store(c, encoded) => if before == None && cd.hash(c) == h then Some(encoded) else before
      case Collect(hashes) => if h in hashes then None else before
      case _ => before
  }

  /** The kind the table had when the cache last copied the hash, unless it has dropped it since. */
  function CacheKind(cd: Codec, events: seq<Event>, h: Key): Option<bool> {
    if events == [] then None
    else
      var earlier := events[..|events| - 1];
      var before := CacheKind(cd, earlier, h);
      match events[|events| - 1]
      case Evict(hashes) => if h in hashes then None else before
      case Lookup(refilled, dropped) =>
        if h in dropped then None
        else if h in refilled && TableKind(cd, earlier, h).Some? then TableKind(cd, earlier, h)
        else before
      case _ => before
  }

  /** `m` holds `c` as that kind, or not at all. */
  predicate HoldsAs(cd: Codec, m: Contents, c: Bytes, kind: Option<bool>) {
    match kind
    case None => cd.hash(c) !in m
    case Some(encoded) => cd.hash(c) in m && m[cd.hash(c)] == Stored(cd, encoded, c)
  }

  lemma {:induction false} TableKindOfRun(cd: Codec, events: seq<Event>, c: Bytes)
    requires Lawful(cd)
    ensures HoldsAs(cd, After(cd, events).table, c, TableKind(cd, events, cd.hash(c)))
  {
    if events != [] {
      TableKindOfRun(cd, events[..|events| - 1], c);
    }
  }

  lemma {:induction false} CacheKindOfRun(cd: Codec, events: seq<Event>, c: Bytes)
    requires Lawful(cd)
    ensures HoldsAs(cd, After(cd, events).cache, c, CacheKind(cd, events, cd.hash(c)))
  {
    if events != [] {
      CacheKindOfRun(cd, events[..|events| - 1], c);
      TableKindOfRun(cd, events[..|events| - 1], c);
    }
  }

  /** Compression changes every content, and bytes never decompress to themselves. */
  ghost predicate NeverItself(cd: Codec) {
    forall c :: cd.encode(c) != c && cd.decode(c) != Some(c)
  }

  /** Whatever it finds where, a lookup of `c` as that kind succeeds and gives `c`. */
  ghost predicate AlwaysGives(cd: Codec, s: State, c: Bytes, encoded: bool) {
    var hashes := map[cd.hash(c) := encoded];
    && !Fails(cd, s.table, s.cache, hashes)
    && forall contents :: Answers(cd, s.table, s.cache, hashes, contents) ==> Found(contents, cd.hash(c)) == Some(c)
  }

  /**
    With no assumption about kinds, after any run: a lookup of `c` as one kind always gives `c` if and only if that is
    the kind it was first stored as since it was last collected, and the cache has not kept it as the other one.
  */
  lemma LookupIsRightIff(cd: Codec, events: seq<Event>, c: Bytes, encoded: bool)
    requires Lawful(cd) && NeverItself(cd)
    ensures AlwaysGives(cd, After(cd, events), c, encoded) <==>
            TableKind(cd, events, cd.hash(c)) == Some(encoded) && CacheKind(cd, events, cd.hash(c)) in {None, Some(encoded)}
  {
    TableKindOfRun(cd, events, c);
    CacheKindOfRun(cd, events, c);
    KindsDecide(cd, After(cd, events), c, encoded, TableKind(cd, events, cd.hash(c)), CacheKind(cd, events, cd.hash(c)));
  }

  lemma KindsDecide(cd: Codec, s: State, c: Bytes, encoded: bool, inTable: Option<bool>, inCache: Option<bool>)
    requires Lawful(cd) && NeverItself(cd) && HoldsAs(cd, s.table, c, inTable) && HoldsAs(cd, s.cache, c, inCache)
    ensures AlwaysGives(cd, s, c, encoded) <==> inTable == Some(encoded) && inCache in {None, Some(encoded)}
  {
    if inTable == None {
      NotHeld(cd, s, c, encoded);
    } else if inTable != Some(encoded) {
      WrongKind(cd, s, c, encoded, s.table);
    } else if inCache == Some(!encoded) {
      WrongKind(cd, s, c, encoded, s.cache);
    } else {
      RightKind(cd, s, c, encoded);
    }
  }

  lemma NotHeld(cd: Codec, s: State, c: Bytes, encoded: bool)
    requires HoldsAs(cd, s.table, c, None)
    ensures !AlwaysGives(cd, s, c, encoded)
  {
    assert Answers(cd, s.table, s.cache, map[cd.hash(c) := encoded], map[]);
  }

  lemma RightKind(cd: Codec, s: State, c: Bytes, encoded: bool)
    requires Lawful(cd) && HoldsAs(cd, s.table, c, Some(encoded))
    requires HoldsAs(cd, s.cache, c, None) || HoldsAs(cd, s.cache, c, Some(encoded))
    ensures AlwaysGives(cd, s, c, encoded)
  {
    assert Read(cd, encoded, Stored(cd, encoded, c)) == Some(c);
  }

  /** A value held as the other kind fails to decompress or is given for something else. */
  lemma WrongKind(cd: Codec, s: State, c: Bytes, encoded: bool, m: Contents)
    requires Lawful(cd) && NeverItself(cd) && m in {s.table, s.cache} && HoldsAs(cd, m, c, Some(!encoded))
    ensures !AlwaysGives(cd, s, c, encoded)
  {
    var h, hashes := cd.hash(c), map[cd.hash(c) := encoded];
    var read := Read(cd, encoded, m[h]);
    assert read != Some(c) && ReadsAs(cd, m, h, hashes[h], read);
    if read.Some? {
      assert Answers(cd, s.table, s.cache, hashes, map[h := read.value]);
    }
  }

  /** The same bytes stored as a file and then as a pack: the pack reads as the compressed file. */
  lemma FirstKindWins(cd: Codec, c: Bytes, contents: Contents)
    requires Lawful(cd) && NeverItself(cd)
    ensures var s := After(cd, [Store(c, true), Store(c, false)]);
            Answers(cd, s.table, s.cache, map[cd.hash(c) := false], contents) ==>
              Found(contents, cd.hash(c)) == Some(cd.encode(c)) != Some(c)
  {
    var events := [Store(c, true), Store(c, false)];
    assert events[..1] == [Store(c, true)] && events[..1][..0] == [];
    assert After(cd, events[..1]) == State(map[cd.hash(c) := cd.encode(c)], map[]);
  }
}
