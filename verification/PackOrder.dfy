/**
  The order of the entries of a pack, which its bytes and its hash depend on, and so does the
  order in which its files are returned.
*/
module PackOrder {
  import opened Paths
  import opened TarFormat
  import opened PackMerge
  import opened PackLaws

  /** `p` is a proper prefix of `q`, or has the smaller character where they first differ. */
  predicate ComesBefore(p: string, q: string) {
    exists n :: 0 <= n <= |p| && FirstDifference(p, q, n)
  }

  predicate FirstDifference(p: string, q: string, n: nat)
    requires n <= |p|
  {
    n < |q| && p[..n] == q[..n] && (n == |p| || p[n] < q[n])
  }

  /** The comparison of the sort is that order. */
  lemma {:induction false} LessIsBefore(p: string, q: string)
    ensures Less(p, q) <==> ComesBefore(p, q)
  {
    if p != "" && q != "" && p[0] == q[0] {
      LessIsBefore(p[1..], q[1..]);
      BeforeTails(p, q);
    } else if q != "" && (p == "" || p[0] < q[0]) {
      assert FirstDifference(p, q, 0);
    }
  }

  lemma BeforeTails(p: string, q: string)
    requires p != "" && q != "" && p[0] == q[0]
    ensures ComesBefore(p, q) <==> ComesBefore(p[1..], q[1..])
  {
    if n :| 0 <= n <= |p| && FirstDifference(p, q, n) {
      assert n > 0;
      assert p[1..][..n - 1] == p[..n][1..] && q[1..][..n - 1] == q[..n][1..];
      assert FirstDifference(p[1..], q[1..], n - 1);
    }
    if n :| 0 <= n <= |p[1..]| && FirstDifference(p[1..], q[1..], n) {
      assert p[..n + 1] == [p[0]] + p[1..][..n] && q[..n + 1] == [q[0]] + q[1..][..n];
      assert FirstDifference(p, q, n + 1);
    }
  }

  /** The updates are walked in ascending order of their paths. */
  lemma UpdatesAscend(updates: seq<Object>, i: nat, j: nat)
    requires DistinctPaths(updates) && i < j < |SortByPath(updates)|
    ensures ComesBefore(SortByPath(updates)[i].path, SortByPath(updates)[j].path)
  {
    var sorted := SortByPath(updates);
    SortSorts(updates);
    DistinctSurvivesReordering(updates, sorted);
    LessTotal(sorted[i].path, sorted[j].path);
    LessIsBefore(sorted[i].path, sorted[j].path);
  }

  // ----- The entries of a merged pack -----

  function PathsOf(objects: seq<Object>): seq<Path> {
    if objects == [] then [] else [objects[0].path] + PathsOf(objects[1..])
  }

  function NamesOf(entries: seq<TarEntry>): seq<Path> {
    if entries == [] then [] else [entries[0].name] + NamesOf(entries[1..])
  }

  predicate DeletedBy(updates: seq<Object>, name: Path) {
    exists u :: u in updates && u.path == name && u.deleted
  }

  /** The names of the old pack that are not deleted, in their order. */
  function Surviving(before: seq<TarEntry>, updates: seq<Object>): seq<Path> {
    if before == [] then []
    else (if DeletedBy(updates, before[0].name) then [] else [before[0].name]) + Surviving(before[1..], updates)
  }

  lemma {:induction false} PathsOfConcat(a: seq<Object>, b: seq<Object>)
    ensures PathsOf(a + b) == PathsOf(a) + PathsOf(b)
  {
    if a == [] {
      assert a + b == b;
    } else {
      assert (a + b)[1..] == a[1..] + b;
      PathsOfConcat(a[1..], b);
    }
  }

  lemma {:induction false} EncodedNames(objects: seq<Object>)
    ensures NamesOf(EncodeAll(objects)) == PathsOf(objects)
  {
    if objects != [] {
      assert EncodeAll(objects)[1..] == EncodeAll(objects[1..]);
      EncodedNames(objects[1..]);
    }
  }

  lemma FoundIsDeleted(updates: seq<Object>, name: Path)
    requires DistinctPaths(updates)
    ensures DeletedBy(updates, name) <==> FindUpdate(updates, name).Some? && FindUpdate(updates, name).value.deleted
  {
    FindUpdateIsAMember(updates, name);
    if u :| u in updates && u.path == name && u.deleted {
      var i :| 0 <= i < |updates| && updates[i] == u;
      var j :| 0 <= j < |updates| && updates[j] == FindUpdate(updates, name).value;
    }
  }

  /** The old entries keep their places. */
  lemma {:induction false} OldKeepOrder(before: seq<TarEntry>, updates: seq<Object>)
    requires DistinctPaths(updates)
    ensures PathsOf(WalkOld(before, updates)) == Surviving(before, updates)
  {
    if before != [] {
      var head := match FindUpdate(updates, before[0].name)
        case Some(u) => Visible(u)
        case None => [Decode(before[0])];
      FindUpdateIsAMember(updates, before[0].name);
      FoundIsDeleted(updates, before[0].name);
      PathsOfConcat(head, WalkOld(before[1..], updates));
      OldKeepOrder(before[1..], updates);
      assert head != [] ==> head == [head[0]] && head[1..] == [];
    }
  }

  predicate AscendingPaths(objects: seq<Object>) {
    forall i, j :: 0 <= i < j < |objects| ==> ComesBefore(objects[i].path, objects[j].path)
  }

  /** What is new comes in ascending order. */
  lemma {:induction false} NewAscend(seen: set<Path>, updates: seq<Object>)
    requires AscendingPaths(updates)
    ensures AscendingPaths(WalkNew(seen, updates))
    ensures forall o :: o in WalkNew(seen, updates) ==> o in updates && !o.deleted && o.path !in seen
    decreases |updates|
  {
    if updates != [] {
      var tail := updates[1..];
      if updates[0].path in seen {
        NewAscend(seen, tail);
      } else {
        var rest := WalkNew(seen + {updates[0].path}, tail);
        NewAscend(seen + {updates[0].path}, tail);
        forall o | o in rest ensures ComesBefore(updates[0].path, o.path) {
          var k :| 0 <= k < |tail| && tail[k] == o;
          assert updates[k + 1] == o;
        }
      }
    }
  }

  /**
    A merged pack: first the old entries that are not deleted, in their old order, then the new ones, which no
    entry of the old pack names, in ascending order of their paths.
  */
  lemma MergedOrder(before: seq<TarEntry>, updates: seq<Object>) returns (kept: nat)
    requires DistinctPaths(updates)
    ensures var merged := Merge(before, SortByPath(updates));
            && kept <= |merged| && NamesOf(merged[..kept]) == Surviving(before, updates)
            && (forall i, j :: kept <= i < j < |merged| ==> ComesBefore(merged[i].name, merged[j].name))
            && (forall i :: kept <= i < |merged| ==>
                  merged[i].name !in Names(before) && exists u :: u in updates && u.path == merged[i].name && !u.deleted)
  {
    var sorted := SortByPath(updates);
    DistinctSurvivesReordering(updates, sorted);
    SortKeepsElements(updates);
    forall i, j | 0 <= i < j < |sorted| ensures ComesBefore(sorted[i].path, sorted[j].path) {
      UpdatesAscend(updates, i, j);
    }
    var a, b := WalkOld(before, sorted), WalkNew(Names(before), sorted);
    OldKeepOrder(before, sorted);
    NewAscend(Names(before), sorted);
    kept := |a|;
    assert Merge(before, sorted)[..kept] == EncodeAll(a);
    EncodedNames(a);
    SameSurvivors(before, updates, sorted);
    forall i | kept <= i < |a + b| ensures (a + b)[i] == b[i - kept] && b[i - kept] in b {
    }
  }

  lemma {:induction false} SameSurvivors(before: seq<TarEntry>, updates: seq<Object>, sorted: seq<Object>)
    requires forall u :: u in updates <==> u in sorted
    ensures Surviving(before, updates) == Surviving(before, sorted)
  {
    if before != [] {
      SameSurvivors(before[1..], updates, sorted);
    }
  }
}
