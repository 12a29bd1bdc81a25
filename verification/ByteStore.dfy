/**
  The contents of a database as bytes, and what requests for them return in every state that
  a run of requests reaches.
*/
module ByteStore {
  import opened Paths
  import opened TarFormat
  import opened Table
  import opened Difference
  import opened Transport
  import opened Store
  import opened TreeLaws
  import C = ContentCache
  import G = GetLaws
  import O = ObjectStreams
  import R = RebuildLaws
  import T = TarStreams

  /** Every content is of the kind that its key has: no file consists of the very bytes of a pack. */
  ghost predicate FitsKind(ar: G.Archive, loose: C.Key -> bool, contents: map<Hash, Blob>) {
    forall h :: h in contents ==> loose(G.KeyOf(ar, h)) == contents[h].Loose?
  }

  /** The contents table is keyed by hash. */
  ghost predicate Keyed(contents: map<Hash, Blob>) {
    forall h :: h in contents ==> h == HashContent(contents[h])
  }

  function Keys(ar: G.Archive, contents: map<Hash, Blob>): set<C.Key> {
    set h | h in contents :: G.KeyOf(ar, h)
  }

  /** Files are stored compressed, packs as they are. */
  function StoredBytes(ar: G.Archive, b: Blob): Bytes {
    C.Stored(ar.cd, b.Loose?, G.BytesOf(ar, b))
  }

  ghost function HashFor(ar: G.Archive, contents: map<Hash, Blob>, k: C.Key): (h: Hash)
    requires k in Keys(ar, contents)
    ensures h in contents && G.KeyOf(ar, h) == k
  {
    var h :| h in contents && G.KeyOf(ar, h) == k;
    h
  }

  /** The table dl.contents. */
  ghost function ByteTable(ar: G.Archive, contents: map<Hash, Blob>): C.Contents {
    map k | k in Keys(ar, contents) :: StoredBytes(ar, contents[HashFor(ar, contents, k)])
  }

  /** Different contents have different keys. */
  lemma KeysAreApart(ar: G.Archive, loose: C.Key -> bool, contents: map<Hash, Blob>, g: Hash, h: Hash)
    requires G.Lawful(ar) && Keyed(contents) && FitsKind(ar, loose, contents)
    requires g in contents && h in contents && G.KeyOf(ar, g) == G.KeyOf(ar, h)
    ensures g == h
  {
    var a, b := contents[g], contents[h];
    assert G.BytesOf(ar, a) == G.BytesOf(ar, b);
    if a.Pack? {
      assert ar.untar(ar.tar(a.entries)) == ar.untar(ar.tar(b.entries));
    }
  }

  lemma EntryOf(ar: G.Archive, loose: C.Key -> bool, contents: map<Hash, Blob>, h: Hash)
    requires G.Lawful(ar) && Keyed(contents) && FitsKind(ar, loose, contents) && h in contents
    ensures var k := G.KeyOf(ar, h);
            k in ByteTable(ar, contents) && HashFor(ar, contents, k) == h && ByteTable(ar, contents)[k] == StoredBytes(ar, contents[h])
  {
    KeysAreApart(ar, loose, contents, HashFor(ar, contents, G.KeyOf(ar, h)), h);
  }

  /** What the table holds is what storing the content of its key gives. */
  lemma TableIsIntact(ar: G.Archive, loose: C.Key -> bool, contents: map<Hash, Blob>)
    requires G.Lawful(ar) && Keyed(contents) && FitsKind(ar, loose, contents)
    ensures C.AllIntact(ar.cd, loose, ByteTable(ar, contents))
  {
    forall k | k in ByteTable(ar, contents) ensures C.Intact(ar.cd, loose(k), k, ByteTable(ar, contents)[k]) {
      var b := contents[HashFor(ar, contents, k)];
      assert C.Read(ar.cd, b.Loose?, StoredBytes(ar, b)) == Some(G.BytesOf(ar, b));
    }
  }

  /** A valid database has every row's content in the byte table, as the row's kind. */
  lemma ValidIsHeld(ar: G.Archive, loose: C.Key -> bool, db: Db, regex: Regex)
    requires G.Lawful(ar) && Valid(db, regex) && FitsKind(ar, loose, db.contents)
    ensures G.Held(ar, loose, ByteTable(ar, db.contents), db.objects)
  {
    TableIsIntact(ar, loose, db.contents);
    forall r | r in db.objects && r.hash.Digest?
      ensures G.KeyOf(ar, r.hash) in ByteTable(ar, db.contents) && loose(G.KeyOf(ar, r.hash)) == !r.packed
    {
      assert GoodProject(db, regex, r.project);
      EntryOf(ar, loose, db.contents, r.hash);
    }
  }

  // ----- The table changes as the contents do -----

  /** Storing a content is the insert of its bytes, where the bytes are already there as well. */
  lemma StoringIsAnInsert(ar: G.Archive, loose: C.Key -> bool, contents: map<Hash, Blob>, b: Blob)
    requires G.Lawful(ar) && Keyed(contents) && FitsKind(ar, loose, contents[HashContent(b) := b])
    ensures ByteTable(ar, contents[HashContent(b) := b]) ==
            C.Insert(ByteTable(ar, contents), G.KeyOf(ar, HashContent(b)), StoredBytes(ar, b))
  {
    var after, h := contents[HashContent(b) := b], HashContent(b);
    EntryOf(ar, loose, after, h);
    if h in contents {
      assert after == contents;
    } else {
      NewKey(ar, loose, contents, b);
      EntriesStay(ar, loose, contents, after);
      OneMoreEntry(ar, contents, after, G.KeyOf(ar, h), StoredBytes(ar, b));
    }
  }

  lemma NewKey(ar: G.Archive, loose: C.Key -> bool, contents: map<Hash, Blob>, b: Blob)
    requires G.Lawful(ar) && Keyed(contents) && HashContent(b) !in contents && FitsKind(ar, loose, contents[HashContent(b) := b])
    ensures G.KeyOf(ar, HashContent(b)) !in Keys(ar, contents)
    ensures Keys(ar, contents[HashContent(b) := b]) == Keys(ar, contents) + {G.KeyOf(ar, HashContent(b))}
  {
    var k := G.KeyOf(ar, HashContent(b));
    if k in Keys(ar, contents) {
      KeysAreApart(ar, loose, contents[HashContent(b) := b], HashFor(ar, contents, k), HashContent(b));
    }
  }

  lemma OneMoreEntry(ar: G.Archive, contents: map<Hash, Blob>, after: map<Hash, Blob>, k: C.Key, value: Bytes)
    requires k !in Keys(ar, contents) && Keys(ar, after) == Keys(ar, contents) + {k}
    requires ByteTable(ar, after)[k] == value
    requires forall x :: x in Keys(ar, contents) ==> ByteTable(ar, after)[x] == ByteTable(ar, contents)[x]
    ensures ByteTable(ar, after) == C.Insert(ByteTable(ar, contents), k, value)
  {
  }

  /** Contents that stay keep their entries. */
  lemma EntriesStay(ar: G.Archive, loose: C.Key -> bool, contents: map<Hash, Blob>, after: map<Hash, Blob>)
    requires G.Lawful(ar) && Keyed(after) && FitsKind(ar, loose, after)
    requires forall h :: h in contents ==> h in after && after[h] == contents[h]
    ensures forall x :: x in Keys(ar, contents) ==> x in ByteTable(ar, after) && ByteTable(ar, after)[x] == ByteTable(ar, contents)[x]
  {
    forall x | x in Keys(ar, contents) ensures x in ByteTable(ar, after) && ByteTable(ar, after)[x] == ByteTable(ar, contents)[x] {
      EntryOf(ar, loose, after, HashFor(ar, contents, x));
    }
  }

  /** Collecting contents removes the entries of their keys, and no others. */
  lemma CollectingIsARemoval(ar: G.Archive, loose: C.Key -> bool, contents: map<Hash, Blob>, gone: set<Hash>)
    requires G.Lawful(ar) && Keyed(contents) && FitsKind(ar, loose, contents) && gone <= contents.Keys
    ensures ByteTable(ar, contents - gone) == ByteTable(ar, contents) - set h | h in gone :: G.KeyOf(ar, h)
  {
    var after, keys := contents - gone, set h | h in gone :: G.KeyOf(ar, h);
    EntriesStay(ar, loose, after, contents);
    forall x ensures x in Keys(ar, after) <==> x in Keys(ar, contents) && x !in keys {
      KeptKey(ar, loose, contents, gone, x);
    }
  }

  lemma KeptKey(ar: G.Archive, loose: C.Key -> bool, contents: map<Hash, Blob>, gone: set<Hash>, x: C.Key)
    requires G.Lawful(ar) && Keyed(contents) && FitsKind(ar, loose, contents) && gone <= contents.Keys
    ensures x in Keys(ar, contents - gone) <==> x in Keys(ar, contents) && x !in set h | h in gone :: G.KeyOf(ar, h)
  {
    if x in Keys(ar, contents) {
      var h := HashFor(ar, contents, x);
      forall g | g in contents && G.KeyOf(ar, g) == x ensures g == h {
        KeysAreApart(ar, loose, contents, g, h);
      }
    }
  }

  // ----- Requests and the cache -----

  /** A request is served, the cache drops entries, or a lookup copies some to it and makes it drop others. */
  datatype Event = Serve(request: Request) | Evict(hashes: set<C.Key>) | Refill(refilled: set<C.Key>, dropped: set<C.Key>)

  ghost predicate Step(ar: G.Archive, a: Db, x: C.Contents, b: Db, y: C.Contents, regex: Regex, e: Event) {
    match e
    case Serve(q) => RunStep(a, b, regex, q) && y == x
    case Evict(hashes) => b == a && y == x - hashes
    case Refill(refilled, dropped) => b == a && y == C.Cached(x, ByteTable(ar, a.contents), refilled, dropped)
  }

  /** Databases and caches of a run from nothing, in which every key is of one kind all along. */
  ghost predicate CachedRun(ar: G.Archive, loose: C.Key -> bool, states: seq<Db>, caches: seq<C.Contents>, regex: Regex, events: seq<Event>) {
    && |states| == |caches| == |events| + 1 && states[0] == EMPTY && caches[0] == map[]
    && (forall i :: 0 <= i < |states| ==> FitsKind(ar, loose, states[i].contents))
    && forall i :: 0 <= i < |events| ==> StepAt(ar, states, caches, regex, events, i)
  }

  ghost predicate StepAt(ar: G.Archive, states: seq<Db>, caches: seq<C.Contents>, regex: Regex, events: seq<Event>, i: nat)
    requires |states| == |caches| == |events| + 1 && i < |events|
  {
    Step(ar, states[i], caches[i], states[i + 1], caches[i + 1], regex, events[i])
  }

  /** Whatever is collected, evicted and stored again: the database stays valid and the cache intact. */
  lemma {:induction false} CachedRunsAreSound(ar: G.Archive, loose: C.Key -> bool, states: seq<Db>, caches: seq<C.Contents>,
                                              regex: Regex, events: seq<Event>, i: nat)
    requires G.Lawful(ar) && CachedRun(ar, loose, states, caches, regex, events) && i < |states|
    ensures Valid(states[i], regex) && C.AllIntact(ar.cd, loose, caches[i])
  {
    EmptyIsValid(regex);
    if i > 0 {
      CachedRunsAreSound(ar, loose, states, caches, regex, events, i - 1);
      assert StepAt(ar, states, caches, regex, events, i - 1);
      if events[i - 1].Serve? {
        NextKeepsValid(states[i - 1], states[i], regex, events[i - 1].request);
      } else {
        TableIsIntact(ar, loose, states[i - 1].contents);
      }
    }
  }

  /** Every update of the run fits. */
  ghost predicate AllFit(states: seq<Db>, regex: Regex, events: seq<Event>)
    requires |states| == |events| + 1
  {
    forall i :: 0 <= i < |events| ==> FitsAt(states, regex, events, i)
  }

  ghost predicate FitsAt(states: seq<Db>, regex: Regex, events: seq<Event>, i: nat)
    requires i < |events| < |states|
  {
    events[i].Serve? ==> Fitting(states[i], regex, events[i].request)
  }

  /** Without the cache events it is a run of requests. */
  lemma {:induction false} RequestsOfRun(ar: G.Archive, loose: C.Key -> bool, states: seq<Db>, caches: seq<C.Contents>,
                                         regex: Regex, events: seq<Event>, i: nat) returns (ss: seq<Db>, rs: seq<Request>)
    requires CachedRun(ar, loose, states, caches, regex, events) && AllFit(states, regex, events) && i < |states|
    ensures FittingRun(ss, regex, rs) && ss[|ss| - 1] == states[i]
  {
    if i == 0 {
      ss, rs := [EMPTY], [];
    } else {
      ss, rs := RequestsOfRun(ar, loose, states, caches, regex, events, i - 1);
      assert StepAt(ar, states, caches, regex, events, i - 1) && FitsAt(states, regex, events, i - 1);
      if events[i - 1].Serve? {
        ss, rs := OneMoreRequest(ss, regex, rs, states[i], events[i - 1].request);
      }
    }
  }

  lemma OneMoreRequest(states: seq<Db>, regex: Regex, requests: seq<Request>, b: Db, q: Request)
    returns (ss: seq<Db>, rs: seq<Request>)
    requires FittingRun(states, regex, requests)
    requires RunStep(states[|states| - 1], b, regex, q) && Fitting(states[|states| - 1], regex, q)
    ensures FittingRun(ss, regex, rs) && ss[|ss| - 1] == b
  {
    ss, rs := states + [b], requests + [q];
    forall j | 0 <= j < |rs| ensures RunStep(ss[j], ss[j + 1], regex, rs[j]) && Fitting(ss[j], regex, rs[j]) {
      if j < |requests| {
        assert RunStep(states[j], states[j + 1], regex, requests[j]) && Fitting(states[j], regex, requests[j]);
      }
    }
  }

  /** Then every version of every project is a tree, in every state. */
  lemma CachedRunsKeepTrees(ar: G.Archive, loose: C.Key -> bool, states: seq<Db>, caches: seq<C.Contents>,
                            regex: Regex, events: seq<Event>, i: nat, project: int, v: int)
    requires CachedRun(ar, loose, states, caches, regex, events) && AllFit(states, regex, events) && i < |states|
    ensures project in states[i].projects ==> TreeAt(states[i], regex, project, v)
  {
    var ss, rs := RequestsOfRun(ar, loose, states, caches, regex, events, i);
    TreeOfRun(ss, regex, rs, project, v);
  }

  lemma TreeOfRun(states: seq<Db>, regex: Regex, requests: seq<Request>, project: int, v: int)
    requires FittingRun(states, regex, requests)
    ensures project in states[|states| - 1].projects ==> TreeAt(states[|states| - 1], regex, project, v)
  {
    FittingRunsKeepTrees(states, regex, requests, |states| - 1);
  }

  // ----- What a client gets, in every state of every run -----

  /** The answer has exactly the files the query names, if and only if none of them is missed. */
  ghost predicate AnswersFor(r: Option<seq<Object>>, files: Directory, pk: Matcher, q: O.Query) {
    r.Some? && (G.Answers(r.value, files, q) <==> !exists k :: k in files && G.Missed(pk, q, k))
  }

  /** GetUnary from version 0, in any state that is reached, with whatever the cache then holds. */
  method GetOnEveryRun(ar: G.Archive, lookup: C.ContentLookup, table: C.Contents, ghost loose: C.Key -> bool,
                       ghost states: seq<Db>, ghost caches: seq<C.Contents>, ghost regex: Regex, ghost events: seq<Event>, ghost i: nat,
                       ghost project: int, ghost t: int, q: O.Query, listing: seq<G.Found>)
    returns (r: Option<seq<Object>>)
    requires G.Lawful(ar) && CachedRun(ar, loose, states, caches, regex, events) && i < |states| && project in states[i].projects
    requires lookup.codec == ar.cd && lookup.cache == caches[i] && table == ByteTable(ar, states[i].contents)
    requires G.Lists(listing, states[i].objects, project, 0, t, G.Asked(MatcherOf(regex, states[i].projects, project), q))
    modifies lookup`cache
    ensures C.Refilled(old(lookup.cache), table, lookup.cache)
    ensures AnswersFor(r, FilesOf(states[i], regex, project, t), MatcherOf(regex, states[i].projects, project), q)
  {
    CachedRunsAreSound(ar, loose, states, caches, regex, events, i);
    GetFromValid(ar, loose, states[i], regex, project, t, q, listing);
    r := G.GetUnary(ar, lookup, table, loose, states[i].objects, listing, q);
  }

  lemma GetFromValid(ar: G.Archive, loose: C.Key -> bool, db: Db, regex: Regex, project: int, t: int, q: O.Query, listing: seq<G.Found>)
    requires G.Lawful(ar) && Valid(db, regex) && project in db.projects && FitsKind(ar, loose, db.contents)
    requires G.Lists(listing, db.objects, project, 0, t, G.Asked(MatcherOf(regex, db.projects, project), q))
    ensures G.Held(ar, loose, ByteTable(ar, db.contents), db.objects) && G.FromRows(listing, db.objects)
    ensures AnswersFor(G.Returned(ar, ByteTable(ar, db.contents), listing, q), FilesOf(db, regex, project, t),
                       MatcherOf(regex, db.projects, project), q)
  {
    ValidIsHeld(ar, loose, db, regex);
    assert GoodProject(db, regex, project);
    G.ListedRows(db.objects, project, db.projects[project].latest, 0, t, MatcherOf(regex, db.projects, project),
                 G.Asked(MatcherOf(regex, db.projects, project), q), listing);
    G.GetIsRightIff(ar, loose, ByteTable(ar, db.contents), db.objects, project, db.projects[project].latest, t,
                    MatcherOf(regex, db.projects, project), q, listing);
  }

  /**
    GetCompress in any state that a run of fitting updates reaches, with whatever the cache then holds: what it sends, written
    entry by entry in whatever order, turns the directory received at one version into the one received at another.
  */
  method RebuildOnEveryRun(ar: G.Archive, lookup: C.ContentLookup, table: C.Contents, ghost loose: C.Key -> bool,
                           ghost states: seq<Db>, ghost caches: seq<C.Contents>, ghost regex: Regex, ghost events: seq<Event>, ghost i: nat,
                           ghost project: int, ghost f: int, ghost t: int, listing: seq<G.Found>)
    returns (sent: seq<T.Output>)
    requires G.Lawful(ar) && CachedRun(ar, loose, states, caches, regex, events) && AllFit(states, regex, events)
    requires i < |states| && project in states[i].projects && 0 <= f <= t
    requires lookup.codec == ar.cd && lookup.cache == caches[i] && table == ByteTable(ar, states[i].contents)
    requires G.Lists(listing, states[i].objects, project, f, t, R.EVERYTHING)
    requires forall j :: 0 <= j < |listing| ==> R.Weighs(listing[j])
    modifies lookup`cache
    ensures C.Refilled(old(lookup.cache), table, lookup.cache)
    ensures Rebuilds(ar, sent, FilesOf(states[i], regex, project, f), FilesOf(states[i], regex, project, t))
  {
    CachedRunsAreSound(ar, loose, states, caches, regex, events, i);
    CachedRunsKeepTrees(ar, loose, states, caches, regex, events, i, project, t);
    RebuildFromValid(ar, loose, states[i], regex, project, f, t, listing);
    sent := R.GetCompress(ar, lookup, table, loose, states[i].objects, listing);
  }

  /** The changes of the tars, in whatever order, lead from what is received of one directory to what is received of another. */
  ghost predicate Rebuilds(ar: G.Archive, sent: seq<T.Output>, earlier: Directory, later: Directory) {
    forall written :: R.SameAs(written, R.ChangesOf(ar, sent)) ==> ApplyAll(Received(earlier), written) == Received(later)
  }

  lemma RebuildFromValid(ar: G.Archive, loose: C.Key -> bool, db: Db, regex: Regex, project: int, f: int, t: int, listing: seq<G.Found>)
    requires G.Lawful(ar) && Valid(db, regex) && project in db.projects && FitsKind(ar, loose, db.contents)
    requires 0 <= f <= t && TreeAt(db, regex, project, t)
    requires G.Lists(listing, db.objects, project, f, t, R.EVERYTHING)
    requires forall j :: 0 <= j < |listing| ==> R.Weighs(listing[j])
    ensures G.Held(ar, loose, ByteTable(ar, db.contents), db.objects) && G.FromRows(listing, db.objects)
    ensures Rebuilds(ar, R.Tars(ar, ByteTable(ar, db.contents), listing), FilesOf(db, regex, project, f), FilesOf(db, regex, project, t))
  {
    var pk, latest, table := MatcherOf(regex, db.projects, project), db.projects[project].latest, ByteTable(ar, db.contents);
    ValidIsHeld(ar, loose, db, regex);
    assert GoodProject(db, regex, project);
    G.ListedRows(db.objects, project, latest, f, t, pk, R.EVERYTHING, listing);
    forall written | R.SameAs(written, R.ChangesOf(ar, R.Tars(ar, table, listing)))
      ensures ApplyAll(Received(Files(db.objects, project, f, pk)), written) == Received(Files(db.objects, project, t, pk))
    {
      R.RebuildReachesTarget(ar, loose, table, db.objects, project, latest, f, t, pk, listing, written);
    }
  }
}
