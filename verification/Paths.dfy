/**
  Object paths, as the server and the client read them.

  A path is a string of chunks separated by '/'. A path that ends in '/' is a
  directory: an empty-directory marker or the parent of a pack. Every notion here is
  a relation between strings; `<=` on strings is Dafny's prefix order, which is what
  `STARTS_WITH` and `strings.HasPrefix` test.
*/
module Paths {

  datatype Option<+T> = None | Some(value: T)

  type Path = string

  /** Says which directories (always passed with their final '/') some pack pattern matches. */
  type Matcher = Path -> bool

  predicate EndsInSlash(p: Path) {
    |p| > 0 && p[|p| - 1] == '/'
  }

  /** The directory a path would be if something lay beneath it. */
  function DirOf(p: Path): Path {
    if EndsInSlash(p) then p else p + "/"
  }

  /** `p` is a file or a marker and `q` is something strictly beneath it. */
  predicate Covers(p: Path, q: Path) {
    p != q && DirOf(p) <= q
  }

  /** `x` is a directory on the way to `q` (possibly `q` itself). */
  predicate IsDirAbove(x: Path, q: Path) {
    EndsInSlash(x) && x <= q
  }

  // ----- Splitting and joining on '/' -----

  function Split(s: string): (chunks: seq<string>)
    ensures |chunks| >= 1
    ensures forall i :: 0 <= i < |chunks| ==> '/' !in chunks[i]
  {
    if s == "" then [""]
    else if s[0] == '/' then [""] + Split(s[1..])
    else var rest := Split(s[1..]); [[s[0]] + rest[0]] + rest[1..]
  }

  /** strings.Join(chunks, "/") */
  function Join(chunks: seq<string>): string {
    if |chunks| == 0 then ""
    else if |chunks| == 1 then chunks[0]
    else chunks[0] + "/" + Join(chunks[1..])
  }

  /** Every chunk followed by its '/'. */
  function Terminated(chunks: seq<string>): string {
    if |chunks| == 0 then "" else chunks[0] + "/" + Terminated(chunks[1..])
  }

  lemma {:induction false} TerminatedIsJoin(chunks: seq<string>)
    requires |chunks| > 0
    ensures Terminated(chunks) == Join(chunks) + "/"
  {
    if |chunks| == 1 {
      assert Terminated(chunks[1..]) == "";
    } else {
      TerminatedIsJoin(chunks[1..]);
    }
  }

  lemma {:induction false} TerminatedAppend(chunks: seq<string>, last: string)
    ensures Terminated(chunks + [last]) == Terminated(chunks) + last + "/"
  {
    if chunks == [] {
      assert chunks + [last] == [last];
      assert Terminated([last][1..]) == "";
    } else {
      assert (chunks + [last])[1..] == chunks[1..] + [last];
      TerminatedAppend(chunks[1..], last);
    }
  }

  lemma TerminatedCons(head: string, rest: seq<string>)
    ensures Terminated([head] + rest) == head + "/" + Terminated(rest)
  {
    assert ([head] + rest)[1..] == rest;
  }

  /** A character in front of the first chunk. */
  lemma TerminatedPrefixed(c: char, chunks: seq<string>)
    requires chunks != []
    ensures Terminated([[c] + chunks[0]] + chunks[1..]) == [c] + Terminated(chunks)
  {
    TerminatedCons([c] + chunks[0], chunks[1..]);
    InFront(c, chunks[0], Terminated(chunks[1..]));
  }

  lemma InFront(c: char, a: string, b: string)
    ensures ([c] + a) + "/" + b == [c] + (a + "/" + b)
  {
  }

  /** Splitting and joining again gives the path back. */
  lemma {:induction false} SplitTerminated(s: string)
    ensures Terminated(Split(s)) == s + "/"
  {
    if s == "" {
      assert Terminated([""][1..]) == "";
    } else {
      SplitTerminated(s[1..]);
      assert s + "/" == [s[0]] + (s[1..] + "/");
      if s[0] == '/' {
        TerminatedCons("", Split(s[1..]));
      } else {
        TerminatedPrefixed(s[0], Split(s[1..]));
      }
    }
  }

  /** The directories above `s + "/"` are exactly the non-empty runs of leading chunks. */
  lemma {:induction false} DirsAreLeadingChunks(chunks: seq<string>, x: Path)
    requires forall i :: 0 <= i < |chunks| ==> '/' !in chunks[i]
    requires IsDirAbove(x, Terminated(chunks))
    ensures exists i :: 1 <= i <= |chunks| && x == Terminated(chunks[..i])
  {
    var head := chunks[0] + "/";
    assert Terminated(chunks) == head + Terminated(chunks[1..]);
    assert |head| <= |x| by {
      assert forall k :: 0 <= k < |chunks[0]| ==> Terminated(chunks)[k] == chunks[0][k];
    }
    assert x[..|head|] == head;
    if |x| == |head| {
      assert chunks[..1] == [chunks[0]];
      assert Terminated(chunks[..1][1..]) == "";
      assert x == Terminated(chunks[..1]);
    } else {
      var y := x[|head|..];
      assert x == head + y;
      DirsAreLeadingChunks(chunks[1..], y);
      var i :| 1 <= i <= |chunks[1..]| && y == Terminated(chunks[1..][..i]);
      assert chunks[..i + 1][1..] == chunks[1..][..i];
      assert x == Terminated(chunks[..i + 1]);
    }
  }

  lemma {:induction false} LeadingChunksAreDirs(chunks: seq<string>, i: nat)
    requires 1 <= i <= |chunks|
    ensures IsDirAbove(Terminated(chunks[..i]), Terminated(chunks))
  {
    assert chunks[..i][0] == chunks[0];
    assert chunks[..i][1..] == chunks[1..][..i - 1];
    if i > 1 {
      LeadingChunksAreDirs(chunks[1..], i - 1);
    } else {
      assert Terminated(chunks[..i][1..]) == "";
    }
  }

  // ----- Which pack a path belongs to -----

  /** The shortest directory above `d` that has at least `n + 1` characters and is matched. */
  function FirstMatch(pk: Matcher, d: string, n: nat): Option<Path>
    requires n <= |d|
    decreases |d| - n
  {
    if n == |d| then None
    else if d[n] == '/' && pk(d[..n + 1]) then Some(d[..n + 1])
    else FirstMatch(pk, d, n + 1)
  }

  /** The pack an object path is stored in, if any. */
  function PackParent(pk: Matcher, p: Path): Option<Path> {
    FirstMatch(pk, p + "/", 0)
  }

  /** The path of the row that stores `p`: the pack's parent or `p` itself. */
  function RowPath(pk: Matcher, p: Path): Path {
    match PackParent(pk, p)
    case None => p
    case Some(parent) => parent
  }

  lemma {:induction false} FirstMatchIsShortest(pk: Matcher, d: string, n: nat)
    requires n <= |d|
    ensures match FirstMatch(pk, d, n)
            case None => forall x :: IsDirAbove(x, d) && n < |x| ==> !pk(x)
            case Some(m) => && IsDirAbove(m, d) && pk(m) && n < |m|
                            && forall x :: IsDirAbove(x, d) && n < |x| < |m| ==> !pk(x)
    decreases |d| - n
  {
    if n < |d| && !(d[n] == '/' && pk(d[..n + 1])) {
      FirstMatchIsShortest(pk, d, n + 1);
      forall x | IsDirAbove(x, d) && |x| == n + 1 ensures !pk(x) {
        assert x == d[..n + 1];
      }
    }
  }

  /** What it means for `m` to be the pack parent of `p`, with no reference to the search. */
  predicate IsShortestMatch(pk: Matcher, m: Path, p: Path) {
    && IsDirAbove(m, p + "/") && pk(m)
    && forall n: nat :: 0 < n < |m| && m[n - 1] == '/' ==> !pk(m[..n])
  }

  lemma PackParentChar(pk: Matcher, p: Path, m: Path)
    ensures PackParent(pk, p) == Some(m) <==> IsShortestMatch(pk, m, p)
  {
    var d := p + "/";
    FirstMatchIsShortest(pk, d, 0);
    if PackParent(pk, p) == Some(m) {
      forall n: nat | 0 < n < |m| && m[n - 1] == '/' ensures !pk(m[..n]) {
        assert IsDirAbove(m[..n], d);
      }
    }
    if IsShortestMatch(pk, m, p) {
      var got := PackParent(pk, p).value;
      assert |got| <= |m|;
      assert got == m[..|got|];
      assert |got| == |m|;
      assert m == m[..|m|];
    }
  }

  /**
    Pack parents are prefix-free: everything at or beneath a pack parent, the parent
    included, is routed to that parent.
  */
  lemma BeneathAPackParent(pk: Matcher, p: Path, parent: Path, q: Path)
    requires PackParent(pk, p) == Some(parent)
    requires parent <= q + "/"
    ensures PackParent(pk, q) == Some(parent)
    ensures PackParent(pk, parent) == Some(parent)
    ensures EndsInSlash(parent) && parent <= p + "/"
  {
    PackParentChar(pk, p, parent);
    PackParentChar(pk, q, parent);
    PackParentChar(pk, parent, parent);
    assert parent <= parent + "/";
  }

  lemma PackParentIsAbove(pk: Matcher, p: Path, parent: Path)
    requires PackParent(pk, p) == Some(parent)
    ensures EndsInSlash(parent) && parent <= p + "/" && PackParent(pk, parent) == Some(parent)
  {
    PackParentChar(pk, p, parent);
    BeneathAPackParent(pk, p, parent, p);
  }

  /** Whatever covers a pack parent covers the paths routed to it, unless it is routed there itself. */
  lemma CoverOfParent(k: Path, parent: Path, e: Path)
    requires EndsInSlash(parent) && parent <= e + "/"
    requires DirOf(k) <= parent && !(parent <= k + "/")
    ensures Covers(k, e)
  {
  }

  /** No pack parent lies above another one. */
  lemma PackParentsDoNotNest(pk: Matcher, a: Path, b: Path)
    requires PackParent(pk, a) == Some(a) && PackParent(pk, b) == Some(b)
    requires a <= b
    ensures a == b
  {
    assert a <= b + "/";
    BeneathAPackParent(pk, a, a, b);
  }

  /** A loose path has no pack parent at it or above it. */
  lemma LoosePathsAvoidPacks(pk: Matcher, p: Path, parent: Path)
    requires PackParent(pk, p) == None
    requires PackParent(pk, parent) == Some(parent)
    ensures !(parent <= p + "/")
  {
    if parent <= p + "/" {
      BeneathAPackParent(pk, parent, parent, p);
    }
  }

  /** PackManager.IsPathPacked: walk the chunks, test each directory against every pattern. */
  method IsPathPacked(matchers: seq<Matcher>, path: Path) returns (parent: Option<Path>)
    ensures parent == PackParent(AnyMatch(matchers), path)
  {
    var chunks := Split(path);
    var currentPath := "";
    ghost var pk := AnyMatch(matchers);
    ghost var d := path + "/";
    SplitTerminated(path);
    for i := 0 to |chunks|
      invariant currentPath + Terminated(chunks[i..]) == d
      invariant PackParent(pk, path) == FirstMatch(pk, d, |currentPath|)
    {
      WalkOneChunk(pk, d, currentPath, chunks[i..]);
      assert chunks[i..][1..] == chunks[i + 1..];
      currentPath := currentPath + chunks[i] + "/";
      for j := 0 to |matchers|
        invariant forall k :: 0 <= k < j ==> !matchers[k](currentPath)
      {
        if matchers[j](currentPath) {
          return Some(currentPath);
        }
      }
      assert !pk(currentPath);
    }
    return None;
  }

  /** The answer: the shortest directory above the path that some pattern matches, or that no pattern matches any. */
  lemma SearchedAll(matchers: seq<Matcher>, path: Path)
    ensures match PackParent(AnyMatch(matchers), path)
            case None => forall x, k :: IsDirAbove(x, path + "/") && 0 <= k < |matchers| ==> !matchers[k](x)
            case Some(m) =>
              && IsDirAbove(m, path + "/")
              && (exists k :: 0 <= k < |matchers| && matchers[k](m))
              && forall x, k :: IsDirAbove(x, path + "/") && |x| < |m| && 0 <= k < |matchers| ==> !matchers[k](x)
  {
    FirstMatchIsShortest(AnyMatch(matchers), path + "/", 0);
  }

  lemma WalkOneChunk(pk: Matcher, d: string, current: Path, rest: seq<string>)
    requires rest != [] && '/' !in rest[0]
    requires current + Terminated(rest) == d
    ensures var next := current + rest[0] + "/";
            && next + Terminated(rest[1..]) == d
            && FirstMatch(pk, d, |current|) == if pk(next) then Some(next) else FirstMatch(pk, d, |next|)
  {
    var next := current + rest[0] + "/";
    assert next + Terminated(rest[1..]) == d;
    assert next == d[..|next|];
    assert d[|current|..|current| + |rest[0]|] == rest[0];
    StepOverChunk(pk, d, |current|, rest[0]);
  }

  function AnyMatch(matchers: seq<Matcher>): Matcher {
    (s: Path) => exists k :: 0 <= k < |matchers| && matchers[k](s)
  }

  lemma {:induction false} StepOverChunk(pk: Matcher, d: string, n: nat, chunk: string)
    requires n + |chunk| < |d| && d[n..n + |chunk|] == chunk && d[n + |chunk|] == '/'
    requires '/' !in chunk
    ensures FirstMatch(pk, d, n) ==
            if pk(d[..n + |chunk| + 1]) then Some(d[..n + |chunk| + 1])
            else FirstMatch(pk, d, n + |chunk| + 1)
    decreases |chunk|
  {
    if chunk != "" {
      assert d[n] == chunk[0];
      assert d[n + 1..n + 1 + |chunk[1..]|] == chunk[1..];
      StepOverChunk(pk, d, n + 1, chunk[1..]);
    }
  }

  /** The paths whose live row a loose write of `path` replaces: itself and the markers above it. */
  method PreviousPaths(path: Path) returns (previous: seq<Path>)
    ensures forall x :: x in previous <==> x == path || IsDirAbove(x, path)
  {
    previous := [path];
    var chunks := Split(path);
    SplitTerminated(path);
    ghost var d := path + "/";
    for i := 1 to |chunks|
      invariant forall x :: x in previous <==> x == path || exists j :: 1 <= j < i && x == Terminated(chunks[..j])
    {
      TerminatedIsJoin(chunks[..i]);
      previous := previous + [Join(chunks[..i]) + "/"];
    }
    forall x ensures x in previous <==> x == path || IsDirAbove(x, path) {
      if x in previous && x != path {
        var j :| 1 <= j < |chunks| && x == Terminated(chunks[..j]);
        LeadingChunksAreDirs(chunks, j);
        ProperLeadingIsShorter(chunks, j);
        assert x <= path;
      }
      if IsDirAbove(x, path) {
        assert IsDirAbove(x, d);
        DirsAreLeadingChunks(chunks, x);
        var j :| 1 <= j <= |chunks| && x == Terminated(chunks[..j]);
        assert chunks[..|chunks|] == chunks;
      }
    }
  }

  lemma {:induction false} ProperLeadingIsShorter(chunks: seq<string>, i: nat)
    requires i < |chunks|
    ensures |Terminated(chunks[..i])| < |Terminated(chunks)|
  {
    if i > 0 {
      assert chunks[..i][1..] == chunks[1..][..i - 1];
      ProperLeadingIsShorter(chunks[1..], i - 1);
    }
  }
}
