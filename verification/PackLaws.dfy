/**
  What a merged pack contains, stated without the stream: the old pack overridden by the
  updates, minus the deletions, each path once, whatever the order of the updates.
*/
module PackLaws {
  import opened Paths
  import opened TarFormat
  import opened PackMerge

  /** The entry a pack holds for a path. */
  function Find(entries: seq<TarEntry>, path: Path): Option<TarEntry> {
    if entries == [] then None
    else if entries[0].name == path then Some(entries[0])
    else Find(entries[1..], path)
  }

  predicate DistinctNames(entries: seq<TarEntry>) {
    forall i, j :: 0 <= i < j < |entries| ==> entries[i].name != entries[j].name
  }

  predicate AllWellFormed(entries: seq<TarEntry>) {
    forall e :: e in entries ==> WellFormed(e)
  }

  /** The reference: what the merged pack should hold for a path. */
  function Overridden(before: seq<TarEntry>, updates: seq<Object>, path: Path): Option<TarEntry> {
    match FindUpdate(updates, path)
    case Some(u) => if u.deleted then None else Some(Encode(u))
    case None => Find(before, path)
  }

  predicate IsDeleted(updates: seq<Object>, path: Path) {
    FindUpdate(updates, path).Some? && FindUpdate(updates, path).value.deleted
  }

  lemma {:induction false} FindUpdateIsAMember(updates: seq<Object>, path: Path)
    ensures FindUpdate(updates, path).Some? <==> exists u :: u in updates && u.path == path
    ensures FindUpdate(updates, path).Some? ==>
              FindUpdate(updates, path).value in updates && FindUpdate(updates, path).value.path == path
  {
    if updates != [] {
      FindUpdateIsAMember(updates[1..], path);
    }
  }

  lemma {:induction false} FindIsAMember(entries: seq<TarEntry>, path: Path)
    ensures Find(entries, path).Some? <==> path in Names(entries)
    ensures Find(entries, path).Some? ==>
              Find(entries, path).value in entries && Find(entries, path).value.name == path
  {
    if entries != [] {
      FindIsAMember(entries[1..], path);
    }
  }

  lemma {:induction false} FindInConcat(a: seq<Object>, b: seq<Object>, path: Path)
    ensures FindUpdate(a + b, path) == if FindUpdate(a, path).Some? then FindUpdate(a, path) else FindUpdate(b, path)
  {
    if a == [] {
      assert a + b == b;
    } else {
      assert (a + b)[1..] == a[1..] + b;
      FindInConcat(a[1..], b, path);
    }
  }

  lemma {:induction false} FindEncoded(objects: seq<Object>, path: Path)
    ensures Find(EncodeAll(objects), path) ==
            match FindUpdate(objects, path) case None => None case Some(o) => Some(Encode(o))
  {
    if objects != [] {
      assert EncodeAll(objects)[1..] == EncodeAll(objects[1..]);
      FindEncoded(objects[1..], path);
    }
  }

  lemma {:induction false} WalkOldLookup(before: seq<TarEntry>, updates: seq<Object>, path: Path)
    ensures FindUpdate(WalkOld(before, updates), path) ==
            match Find(before, path)
            case None => None
            case Some(e) =>
              match FindUpdate(updates, path)
              case None => Some(Decode(e))
              case Some(u) => if u.deleted then None else Some(u)
  {
    if before != [] {
      var head := match FindUpdate(updates, before[0].name)
        case Some(u) => Visible(u)
        case None => [Decode(before[0])];
      FindUpdateIsAMember(updates, before[0].name);
      FindInConcat(head, WalkOld(before[1..], updates), path);
      WalkOldLookup(before[1..], updates, path);
      assert head != [] ==> head[1..] == [];
    }
  }

  lemma {:induction false} WalkNewLookup(seen: set<Path>, updates: seq<Object>, path: Path)
    ensures FindUpdate(WalkNew(seen, updates), path) ==
            if path in seen then None
            else match FindUpdate(updates, path)
            case None => None
            case Some(u) => if u.deleted then None else Some(u)
    decreases |updates|
  {
    if updates != [] {
      if updates[0].path in seen {
        WalkNewLookup(seen, updates[1..], path);
      } else {
        var head := Visible(updates[0]);
        FindInConcat(head, WalkNew(seen + {updates[0].path}, updates[1..]), path);
        WalkNewLookup(seen + {updates[0].path}, updates[1..], path);
        assert head != [] ==> head[1..] == [];
      }
    }
  }

  /** The merged pack is the old pack overridden by the updates, for all inputs. */
  lemma MergeOverrides(before: seq<TarEntry>, updates: seq<Object>, path: Path)
    requires AllWellFormed(before)
    ensures Find(Merge(before, updates), path) == Overridden(before, updates, path)
  {
    var a, b := WalkOld(before, updates), WalkNew(Names(before), updates);
    FindEncoded(a + b, path);
    FindInConcat(a, b, path);
    WalkOldLookup(before, updates, path);
    WalkNewLookup(Names(before), updates, path);
    FindIsAMember(before, path);
    if Find(before, path).Some? {
      EncodeAfterDecode(Find(before, path).value);
    }
  }

  /** The pack is reported empty exactly when the overridden map is. */
  lemma EmptyIffNothingLeft(before: seq<TarEntry>, updates: seq<Object>)
    requires AllWellFormed(before)
    ensures Merge(before, updates) == [] <==> forall path :: Overridden(before, updates, path) == None
  {
    var merged := Merge(before, updates);
    forall path ensures Find(merged, path) == Overridden(before, updates, path) {
      MergeOverrides(before, updates, path);
    }
    if merged != [] {
      FindIsAMember(merged, merged[0].name);
      assert Overridden(before, updates, merged[0].name) != None;
    }
  }

  // ----- Each path at most once -----

  lemma DistinctConcat(a: seq<Object>, b: seq<Object>)
    ensures DistinctPaths(a + b) <==>
            && DistinctPaths(a) && DistinctPaths(b)
            && forall x, y :: x in a && y in b ==> x.path != y.path
  {
    var ab := a + b;
    if DistinctPaths(ab) {
      forall i, j | 0 <= i < j < |a| ensures a[i].path != a[j].path {
        assert ab[i] == a[i] && ab[j] == a[j];
      }
      forall i, j | 0 <= i < j < |b| ensures b[i].path != b[j].path {
        assert ab[|a| + i] == b[i] && ab[|a| + j] == b[j];
      }
      forall x, y | x in a && y in b ensures x.path != y.path {
        var i :| 0 <= i < |a| && a[i] == x;
        var j :| 0 <= j < |b| && b[j] == y;
        assert ab[i] == x && ab[|a| + j] == y;
      }
    }
  }

  lemma DistinctCons(head: seq<Object>, rest: seq<Object>)
    requires |head| <= 1
    ensures DistinctPaths(head + rest) <==>
            DistinctPaths(rest) && (head != [] ==> FindUpdate(rest, head[0].path) == None)
  {
    DistinctConcat(head, rest);
    if head != [] {
      FindUpdateIsAMember(rest, head[0].path);
      assert forall x :: x in head ==> x == head[0];
    }
  }

  /** The old pack repeats no name, except names the updates delete. */
  predicate SurvivorsDistinct(before: seq<TarEntry>, updates: seq<Object>) {
    forall i, j :: 0 <= i < j < |before| && before[i].name == before[j].name ==> IsDeleted(updates, before[i].name)
  }

  lemma {:induction false} WalkNewDistinct(seen: set<Path>, updates: seq<Object>)
    ensures DistinctPaths(WalkNew(seen, updates))
    decreases |updates|
  {
    if updates != [] && updates[0].path !in seen {
      var p := updates[0].path;
      var rest := WalkNew(seen + {p}, updates[1..]);
      WalkNewDistinct(seen + {p}, updates[1..]);
      WalkNewLookup(seen + {p}, updates[1..], p);
      DistinctCons(Visible(updates[0]), rest);
    } else if updates != [] {
      WalkNewDistinct(seen, updates[1..]);
    }
  }

  lemma {:induction false} WalkOldDistinct(before: seq<TarEntry>, updates: seq<Object>)
    ensures DistinctPaths(WalkOld(before, updates)) <==> SurvivorsDistinct(before, updates)
  {
    if before != [] {
      var name, tail := before[0].name, before[1..];
      var head := match FindUpdate(updates, name)
        case Some(u) => Visible(u)
        case None => [Decode(before[0])];
      var rest := WalkOld(tail, updates);
      WalkOldDistinct(tail, updates);
      DistinctCons(head, rest);
      FindUpdateIsAMember(updates, name);
      WalkOldLookup(tail, updates, name);
      FindIsAMember(tail, name);
      SurvivorsCons(before, updates);
    }
  }

  lemma SurvivorsCons(before: seq<TarEntry>, updates: seq<Object>)
    requires before != []
    ensures SurvivorsDistinct(before, updates) <==>
            && SurvivorsDistinct(before[1..], updates)
            && (before[0].name in Names(before[1..]) ==> IsDeleted(updates, before[0].name))
  {
  }

  /** Every path is emitted at most once, exactly when the old pack's surviving names are distinct. */
  lemma EachPathOnceIff(before: seq<TarEntry>, updates: seq<Object>)
    ensures DistinctNames(Merge(before, updates)) <==> SurvivorsDistinct(before, updates)
  {
    var a, b := WalkOld(before, updates), WalkNew(Names(before), updates);
    WalkOldDistinct(before, updates);
    WalkNewDistinct(Names(before), updates);
    forall x, y | x in a && y in b ensures x.path != y.path {
      FindUpdateIsAMember(a, x.path);
      WalkOldLookup(before, updates, x.path);
      FindIsAMember(before, x.path);
      FindUpdateIsAMember(b, y.path);
      WalkNewLookup(Names(before), updates, y.path);
    }
    DistinctConcat(a, b);
    assert DistinctPaths(a + b) <==> DistinctNames(EncodeAll(a + b)) by {
      var m := EncodeAll(a + b);
      assert forall i :: 0 <= i < |m| ==> m[i].name == (a + b)[i].path;
    }
  }

  /** What every pack in the store satisfies. */
  predicate GoodPack(pk: Matcher, parent: Path, entries: seq<TarEntry>) {
    && entries != []
    && DistinctNames(entries)
    && AllWellFormed(entries)
    && forall e :: e in entries ==> PackParent(pk, e.name) == Some(parent)
  }

  /** Merging routed updates into a good pack, or into none, gives a good pack or nothing. */
  lemma MergeKeepsGood(pk: Matcher, parent: Path, before: seq<TarEntry>, updates: seq<Object>)
    requires before == [] || GoodPack(pk, parent, before)
    requires forall u :: u in updates ==> PackParent(pk, u.path) == Some(parent)
    ensures Merge(before, updates) == [] || GoodPack(pk, parent, Merge(before, updates))
  {
    var merged := Merge(before, updates);
    EachPathOnceIff(before, updates);
    forall e | e in merged ensures WellFormed(e) && PackParent(pk, e.name) == Some(parent) {
      var i :| 0 <= i < |merged| && merged[i] == e;
      FindIsAMember(merged, e.name);
      MergeOverrides(before, updates, e.name);
      FindUpdateIsAMember(updates, e.name);
      FindIsAMember(before, e.name);
    }
  }

  /** A merged pack depends on the set of updates, not on the order they arrived in. */
  lemma ArrivalOrderIsIrrelevant(before: seq<TarEntry>, a: seq<Object>, b: seq<Object>)
    requires DistinctPaths(a) && multiset(a) == multiset(b)
    ensures Merge(before, SortByPath(a)) == Merge(before, SortByPath(b))
  {
    SortSorts(a);
    SortSorts(b);
    DistinctSurvivesReordering(a, SortByPath(a));
    SortedIsUnique(SortByPath(a), SortByPath(b));
  }

  /** The pack already says what the update says. */
  predicate SaysAlready(before: seq<TarEntry>, u: Object) {
    Find(before, u.path) == if u.deleted then None else Some(Encode(u))
  }

  /** Sending again what a pack already holds reproduces the very same pack. */
  lemma ResendingChangesNothing(before: seq<TarEntry>, updates: seq<Object>)
    requires AllWellFormed(before) && DistinctNames(before)
    requires forall u :: u in updates ==> SaysAlready(before, u)
    ensures Merge(before, updates) == before
  {
    forall u | u in updates ensures u.path in Names(before) || u.deleted {
      FindIsAMember(before, u.path);
    }
    NothingToAdd(Names(before), updates);
    WalkOldSame(before, before, updates);
    assert Emitted(before, updates) == WalkOld(before, updates);
  }

  /** A merge changes nothing if and only if the pack already says all that the updates say. */
  lemma MergeSameIff(before: seq<TarEntry>, updates: seq<Object>)
    requires AllWellFormed(before) && DistinctNames(before) && DistinctPaths(updates)
    ensures Merge(before, updates) == before <==> forall u :: u in updates ==> SaysAlready(before, u)
  {
    if Merge(before, updates) == before {
      forall u | u in updates ensures SaysAlready(before, u) {
        MergeOverrides(before, updates, u.path);
        FindUpdateIsAMember(updates, u.path);
        var i :| 0 <= i < |updates| && updates[i] == u;
        var j :| 0 <= j < |updates| && updates[j] == FindUpdate(updates, u.path).value;
      }
    }
    if forall u :: u in updates ==> SaysAlready(before, u) {
      ResendingChangesNothing(before, updates);
    }
  }

  lemma {:induction false} NothingToAdd(seen: set<Path>, updates: seq<Object>)
    requires forall u :: u in updates ==> u.path in seen || u.deleted
    ensures WalkNew(seen, updates) == []
    decreases |updates|
  {
    if updates != [] {
      NothingToAdd(if updates[0].path in seen then seen else seen + {updates[0].path}, updates[1..]);
    }
  }

  lemma {:induction false} WalkOldSame(all: seq<TarEntry>, before: seq<TarEntry>, updates: seq<Object>)
    requires AllWellFormed(all) && DistinctNames(all)
    requires forall e :: e in before ==> e in all
    requires forall u :: u in updates ==> SaysAlready(all, u)
    ensures EncodeAll(WalkOld(before, updates)) == before
  {
    if before != [] {
      var e := before[0];
      FindUpdateIsAMember(updates, e.name);
      OnlyEntry(all, e);
      EncodeAfterDecode(e);
      WalkOldSame(all, before[1..], updates);
    }
  }

  lemma OnlyEntry(all: seq<TarEntry>, e: TarEntry)
    requires DistinctNames(all) && e in all
    ensures Find(all, e.name) == Some(e)
  {
  }
}
