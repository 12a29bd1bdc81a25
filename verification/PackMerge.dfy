/**
  Merging a batch of updates into an existing pack (internal/db/tar.go): the stream
  that walks the old pack and then the unseen updates, and the packer that drains it.
  A pack is the sequence of its tar entries.
*/
module PackMerge {
  import opened Paths
  import opened TarFormat

  // ----- Sorting the updates by path -----

  /** Go's `<` on strings. */
  predicate Less(a: string, b: string) {
    b != "" && (a == "" || a[0] < b[0] || (a[0] == b[0] && Less(a[1..], b[1..])))
  }

  lemma {:induction false} LessTransitive(a: string, b: string, c: string)
    requires Less(a, b) && Less(b, c)
    ensures Less(a, c)
  {
    if a != "" && a[0] == b[0] == c[0] {
      LessTransitive(a[1..], b[1..], c[1..]);
    }
  }

  lemma {:induction false} LessTotal(a: string, b: string)
    ensures a == b || Less(a, b) || Less(b, a)
    ensures !(Less(a, b) && Less(b, a)) && !Less(a, a)
  {
    if a != "" && b != "" && a[0] == b[0] {
      LessTotal(a[1..], b[1..]);
      assert a == [a[0]] + a[1..] && b == [b[0]] + b[1..];
    }
    if a != "" {
      LessTotal(a[1..], a[1..]);
    }
  }

  predicate SortedByPath(s: seq<Object>) {
    forall i, j :: 0 <= i < j < |s| ==> !Less(s[j].path, s[i].path)
  }

  predicate DistinctPaths(s: seq<Object>) {
    forall i, j :: 0 <= i < j < |s| ==> s[i].path != s[j].path
  }

  function Insert(o: Object, s: seq<Object>): (r: seq<Object>)
    ensures multiset(r) == multiset(s) + multiset{o}
  {
    if s == [] then [o]
    else if Less(o.path, s[0].path) then [o] + s
    else assert s == [s[0]] + s[1..]; [s[0]] + Insert(o, s[1..])
  }

  /** sort.Slice(updates, by path) */
  function SortByPath(s: seq<Object>): (r: seq<Object>)
    ensures multiset(r) == multiset(s)
  {
    if s == [] then [] else assert s == [s[0]] + s[1..]; Insert(s[0], SortByPath(s[1..]))
  }

  lemma InsertElements(o: Object, s: seq<Object>)
    ensures forall x :: x in Insert(o, s) ==> x == o || x in s
  {
  }

  lemma SortedCons(head: Object, tail: seq<Object>)
    requires SortedByPath(tail) && forall x :: x in tail ==> !Less(x.path, head.path)
    ensures SortedByPath([head] + tail)
  {
  }

  lemma {:induction false} InsertSorted(o: Object, s: seq<Object>)
    requires SortedByPath(s)
    ensures SortedByPath(Insert(o, s))
  {
    if s == [] {
    } else if Less(o.path, s[0].path) {
      forall x | x in s ensures !Less(x.path, o.path) {
        LessTotal(o.path, x.path);
        if Less(x.path, o.path) {
          LessTransitive(x.path, o.path, s[0].path);
        }
      }
      SortedCons(o, s);
    } else {
      InsertSorted(o, s[1..]);
      InsertElements(o, s[1..]);
      SortedCons(s[0], Insert(o, s[1..]));
    }
  }

  lemma {:induction false} SortSorts(s: seq<Object>)
    ensures SortedByPath(SortByPath(s))
  {
    if s != [] {
      SortSorts(s[1..]);
      InsertSorted(s[0], SortByPath(s[1..]));
    }
  }

  lemma SortKeepsElements(s: seq<Object>)
    ensures forall o :: o in SortByPath(s) <==> o in s
    ensures |SortByPath(s)| == |s|
  {
    var r := SortByPath(s);
    assert forall o :: o in r <==> o in multiset(r);
    assert |r| == |multiset(r)| == |multiset(s)| == |s|;
  }

  lemma {:induction false} OnePathCount(s: seq<Object>, o: Object)
    requires DistinctPaths(s)
    ensures multiset(s)[o] <= 1
  {
    if s != [] {
      assert s == [s[0]] + s[1..];
      OnePathCount(s[1..], o);
      assert forall j :: 0 <= j < |s[1..]| ==> s[1..][j].path != s[0].path;
    }
  }

  lemma DistinctSurvivesReordering(a: seq<Object>, b: seq<Object>)
    requires DistinctPaths(a) && multiset(a) == multiset(b)
    ensures DistinctPaths(b)
  {
    forall i, j | 0 <= i < j < |b| ensures b[i].path != b[j].path {
      assert b[i] in multiset(a) && b[j] in multiset(a);
      if b[i] == b[j] {
        assert b == b[..j] + [b[j]] + b[j + 1..];
        assert b[i] in b[..j];
        assert multiset(b)[b[j]] >= 2;
        OnePathCount(a, b[j]);
      }
    }
  }

  lemma SortedHeadsAgree(a: seq<Object>, b: seq<Object>)
    requires SortedByPath(a) && SortedByPath(b) && DistinctPaths(a)
    requires multiset(a) == multiset(b) && a != []
    ensures b != [] && a[0] == b[0]
  {
    assert a[0] in multiset(b);
    var k :| 0 <= k < |b| && b[k] == a[0];
    assert b[0] in multiset(a);
    var j :| 0 <= j < |a| && a[j] == b[0];
    LessTotal(a[0].path, b[0].path);
    assert a[j].path == a[0].path ==> j == 0;
  }

  lemma TailElements(s: seq<Object>)
    requires s != []
    ensures multiset(s[1..]) == multiset(s) - multiset{s[0]}
  {
    assert s == [s[0]] + s[1..];
  }

  /** Two sorted lists of the same distinct-path objects are the same list. */
  lemma {:induction false} SortedIsUnique(a: seq<Object>, b: seq<Object>)
    requires SortedByPath(a) && SortedByPath(b) && DistinctPaths(a)
    requires multiset(a) == multiset(b)
    ensures a == b
  {
    if a == [] {
      assert |multiset(b)| == 0;
    } else {
      SortedHeadsAgree(a, b);
      TailElements(a);
      TailElements(b);
      SortedIsUnique(a[1..], b[1..]);
      assert a == [a[0]] + a[1..] && b == [b[0]] + b[1..];
    }
  }

  // ----- What the stream yields -----

  /** findUpdate: the first update for a path. */
  function FindUpdate(updates: seq<Object>, path: Path): Option<Object> {
    if updates == [] then None
    else if updates[0].path == path then Some(updates[0])
    else FindUpdate(updates[1..], path)
  }

  function Names(entries: seq<TarEntry>): set<Path> {
    set e | e in entries :: e.name
  }

  function Visible(o: Object): seq<Object> {
    if o.deleted then [] else [o]
  }

  /** The objects yielded while the old pack is walked. */
  function WalkOld(before: seq<TarEntry>, updates: seq<Object>): seq<Object> {
    if before == [] then []
    else
      (match FindUpdate(updates, before[0].name)
       case Some(u) => Visible(u)
       case None => [Decode(before[0])])
      + WalkOld(before[1..], updates)
  }

  /** The objects yielded once the old pack is exhausted: the updates not seen yet, in order. */
  function WalkNew(seen: set<Path>, updates: seq<Object>): seq<Object>
    decreases |updates|
  {
    if updates == [] then []
    else if updates[0].path in seen then WalkNew(seen, updates[1..])
    else Visible(updates[0]) + WalkNew(seen + {updates[0].path}, updates[1..])
  }

  /** Everything the stream yields. */
  function Emitted(before: seq<TarEntry>, updates: seq<Object>): seq<Object> {
    WalkOld(before, updates) + WalkNew(Names(before), updates)
  }

  function EncodeAll(objects: seq<Object>): (r: seq<TarEntry>)
    ensures |r| == |objects|
    ensures forall i :: 0 <= i < |r| ==> r[i] == Encode(objects[i])
  {
    seq(|objects|, i requires 0 <= i < |objects| => Encode(objects[i]))
  }

  /** The pack that replaces `before` when `updates` (already sorted) are applied to it. */
  function Merge(before: seq<TarEntry>, updates: seq<Object>): seq<TarEntry> {
    EncodeAll(Emitted(before, updates))
  }

  /** Updates that are all seen yield nothing and can be stepped over. */
  lemma {:induction false} SeenPrefix(seen: set<Path>, updates: seq<Object>, n: nat)
    requires n <= |updates|
    requires forall i :: 0 <= i < n ==> updates[i].path in seen
    ensures WalkNew(seen, updates) == WalkNew(seen, updates[n..])
  {
    if n > 0 {
      SeenPrefix(seen, updates[1..], n - 1);
      assert updates[1..][n - 1..] == updates[n..];
    }
  }

  lemma FirstUnseen(seen: set<Path>, updates: seq<Object>, n: nat)
    requires n < |updates|
    requires forall i :: 0 <= i < n ==> updates[i].path in seen
    requires updates[n].path !in seen
    ensures WalkNew(seen, updates) == Visible(updates[n]) + WalkNew(seen + {updates[n].path}, updates)
  {
    SeenPrefix(seen, updates, n);
    SeenPrefix(seen + {updates[n].path}, updates, n + 1);
    assert updates[n..][1..] == updates[n + 1..];
  }

  datatype Item = Yield(value: Object) | Skip | Eof

  /** The closure that updateObjects builds, with the variables it captures. */
  class MergeStream {
    const pack: seq<TarEntry>
    const updates: seq<Object>
    var position: nat
    var readerObjectsRemaining: bool
    var seenPaths: set<Path>
    var idxHint: nat

    /** The hint never passes an update that has not been seen. */
    ghost predicate Valid()
      reads this
    {
      && position <= |pack| && idxHint <= |updates|
      && (readerObjectsRemaining ==> idxHint == 0 && seenPaths == Names(pack[..position]))
      && (forall i :: 0 <= i < idxHint ==> updates[i].path in seenPaths)
    }

    /** The objects still to come. */
    ghost function Rest(): seq<Object>
      reads this
      requires Valid()
    {
      if readerObjectsRemaining then
        WalkOld(pack[position..], updates) + WalkNew(Names(pack), updates)
      else
        WalkNew(seenPaths, updates)
    }

    /** Update paths that are still unseen. */
    ghost function Unseen(): set<Path>
      reads this
    {
      (set u | u in updates :: u.path) - seenPaths
    }

    constructor (before: seq<TarEntry>, sorted: seq<Object>)
      ensures Valid() && Rest() == Emitted(before, sorted)
      ensures pack == before && updates == sorted
    {
      pack := before;
      updates := sorted;
      position := 0;
      readerObjectsRemaining := true;
      seenPaths := {};
      idxHint := 0;
      new;
      assert pack[0..] == pack;
    }

    /** One call of the stream closure. It yields the next object, or makes progress silently. */
    method Next() returns (item: Item)
      requires Valid()
      modifies this
      ensures Valid()
      ensures match item
              case Yield(o) => old(Rest()) == [o] + Rest()
              case Skip => old(Rest()) == Rest()
              case Eof => old(Rest()) == [] && Rest() == []
      ensures item != Eof ==> Advanced()
    {
      if !readerObjectsRemaining {
        item := NextUnseen();
        return;
      }
      if position == |pack| {
        readerObjectsRemaining := false;
        assert pack[..position] == pack;
        return Skip;
      }
      var header := pack[position];
      assert pack[position..][1..] == pack[position + 1..];
      assert pack[..position + 1] == pack[..position] + [header];
      position := position + 1;
      seenPaths := seenPaths + {header.name};
      match FindUpdate(updates, header.name)
      case Some(update) =>
        if update.deleted { return Skip; }
        return Yield(update);
      case None =>
        return Yield(Decode(header));
    }

    twostate predicate Advanced()
      reads this
    {
      || (old(readerObjectsRemaining) && !readerObjectsRemaining)
      || (old(readerObjectsRemaining) && readerObjectsRemaining && position == old(position) + 1)
      || (!old(readerObjectsRemaining) && !readerObjectsRemaining && position == old(position) && Unseen() < old(Unseen()))
    }

    /** The second phase. The new hint is an index into the slice `updates[idxHint..]`. */
    method NextUnseen() returns (item: Item)
      requires Valid() && !readerObjectsRemaining
      modifies this
      ensures Valid() && !readerObjectsRemaining
      ensures match item
              case Yield(o) => old(Rest()) == [o] + Rest()
              case Skip => old(Rest()) == Rest()
              case Eof => old(Rest()) == [] && Rest() == []
      ensures item != Eof ==> position == old(position) && Unseen() < old(Unseen())
    {
      var slice := updates[idxHint..];
      for idx := 0 to |slice|
        invariant unchanged(this)
        invariant forall i :: 0 <= i < idxHint + idx ==> updates[i].path in seenPaths
      {
        var update := slice[idx];
        if update.path !in seenPaths {
          FirstUnseen(seenPaths, updates, idxHint + idx);
          assert update.path in Unseen();
          seenPaths := seenPaths + {update.path};
          idxHint := idx;
          assert update.path !in Unseen();
          if update.deleted { return Skip; }
          return Yield(update);
        }
      }
      SeenPrefix(seenPaths, updates, |updates|);
      return Eof;
    }
  }

  datatype PackResult = EmptyPack | Packed(entries: seq<TarEntry>)

  /** packObjects over the stream of updateObjects: drain it, or report that it was empty. */
  method UpdateObjects(before: seq<TarEntry>, updates: seq<Object>) returns (r: PackResult)
    ensures var merged := Merge(before, SortByPath(updates));
            r == if merged == [] then EmptyPack else Packed(merged)
  {
    var sorted := SortByPath(updates);
    var stream := new MergeStream(before, sorted);
    var written := Drain(stream);
    if written == [] {
      return EmptyPack;
    }
    return Packed(EncodeAll(written));
  }

  method Drain(stream: MergeStream) returns (written: seq<Object>)
    requires stream.Valid()
    modifies stream
    ensures written == old(stream.Rest())
  {
    written := [];
    ghost var all := stream.Rest();
    while true
      invariant stream.Valid()
      invariant written + stream.Rest() == all
      decreases stream.readerObjectsRemaining, |stream.pack| - stream.position, stream.Unseen()
    {
      var item := stream.Next();
      match item
      case Skip =>
      case Eof => return;
      case Yield(o) => written := written + [o];
    }
  }
}
