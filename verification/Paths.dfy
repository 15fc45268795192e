/** Repository-relative paths, ordered the way the engine's sorted sets order
    them: component by component, each component byte by byte, a parent
    directly before everything beneath it. */
module Paths {

  /** One path component; each `char` stands for one byte. */
  type Name = string

  /** A path below the repository root; the root itself is `[]`. */
  type Path = seq<Name>

  datatype Option<+T> = None | Some(value: T)

  /** `q` is `root` or lies beneath it. */
  predicate StartsWith(q: Path, root: Path) {
    root <= q
  }

  /** `a` is a directory on the way to `p`, the repository root excepted. */
  predicate ProperAncestor(a: Path, p: Path) {
    a != [] && a != p && StartsWith(p, a)
  }

  /** No path is listed twice. */
  predicate Once(s: seq<Path>) {
    forall i, j :: 0 <= i < |s| && 0 <= j < |s| && s[i] == s[j] ==> i == j
  }

  function Members(paths: seq<Path>): set<Path> {
    set p | p in paths
  }

  predicate Comparable(a: Path, b: Path) {
    StartsWith(a, b) || StartsWith(b, a)
  }

  predicate NameLess(a: Name, b: Name) {
    b != [] && (a == [] || a[0] < b[0] || (a[0] == b[0] && NameLess(a[1..], b[1..])))
  }

  predicate PathLess(a: Path, b: Path) {
    b != [] && (a == [] || NameLess(a[0], b[0]) || (a[0] == b[0] && PathLess(a[1..], b[1..])))
  }

  /** Names are ordered by the first byte in which they differ, and a name comes
      before those that go on from it. */
  lemma {:induction false} NameLessExactly(a: Name, b: Name)
    ensures NameLess(a, b) <==>
      exists k :: 0 <= k <= |a| && k < |b| && a[..k] == b[..k] && (k == |a| || a[k] < b[k])
  {
    if a != [] && b != [] && a[0] == b[0] {
      var x, y := a[1..], b[1..];
      NameLessExactly(x, y);
      assert a == [a[0]] + x && b == [b[0]] + y;
      if k :| 0 <= k <= |x| && k < |y| && x[..k] == y[..k] && (k == |x| || x[k] < y[k]) {
        assert a[..k + 1] == [a[0]] + x[..k] && b[..k + 1] == [b[0]] + y[..k];
      }
      if k :| 0 <= k <= |a| && k < |b| && a[..k] == b[..k] && (k == |a| || a[k] < b[k]) {
        assert k > 0;
        assert x[..k - 1] == a[..k][1..] && y[..k - 1] == b[..k][1..];
      }
    } else if b != [] && (a == [] || a[0] < b[0]) {
      assert a[..0] == b[..0];
    } else if b != [] {
      forall k | 0 < k <= |a| && k < |b| ensures a[..k] != b[..k] {
        assert a[..k][0] == a[0] && b[..k][0] == b[0];
      }
    }
  }

  /** Paths are ordered by the first component in which they differ, and a directory
      comes before everything beneath it. */
  lemma {:induction false} PathLessExactly(a: Path, b: Path)
    ensures PathLess(a, b) <==>
      exists k :: 0 <= k <= |a| && k < |b| && a[..k] == b[..k] && (k == |a| || NameLess(a[k], b[k]))
  {
    if a != [] && b != [] && a[0] == b[0] {
      var x, y := a[1..], b[1..];
      NameOrder(a[0], b[0]);
      PathLessExactly(x, y);
      assert a == [a[0]] + x && b == [b[0]] + y;
      if k :| 0 <= k <= |x| && k < |y| && x[..k] == y[..k] && (k == |x| || NameLess(x[k], y[k])) {
        assert a[..k + 1] == [a[0]] + x[..k] && b[..k + 1] == [b[0]] + y[..k];
      }
      if k :| 0 <= k <= |a| && k < |b| && a[..k] == b[..k] && (k == |a| || NameLess(a[k], b[k])) {
        assert k > 0;
        assert x[..k - 1] == a[..k][1..] && y[..k - 1] == b[..k][1..];
      }
    } else if b != [] && (a == [] || NameLess(a[0], b[0])) {
      assert a[..0] == b[..0];
    } else if b != [] {
      forall k | 0 < k <= |a| && k < |b| ensures a[..k] != b[..k] {
        assert a[..k][0] == a[0] && b[..k][0] == b[0];
      }
    }
  }

  lemma {:induction false} NameOrder(a: Name, b: Name)
    ensures a == b || NameLess(a, b) || NameLess(b, a)
    ensures !(NameLess(a, b) && NameLess(b, a))
    ensures a == b ==> !NameLess(a, b)
  {
    if a != [] && b != [] {
      NameOrder(a[1..], b[1..]);
      assert a == [a[0]] + a[1..] && b == [b[0]] + b[1..];
    }
  }

  lemma {:induction false} NameTransitive(a: Name, b: Name, c: Name)
    requires NameLess(a, b) && NameLess(b, c)
    ensures NameLess(a, c)
  {
    if a != [] && a[0] == b[0] && b[0] == c[0] {
      NameTransitive(a[1..], b[1..], c[1..]);
    }
  }

  /** The order is total and strict. */
  lemma {:induction false} PathOrder(a: Path, b: Path)
    ensures a == b || PathLess(a, b) || PathLess(b, a)
    ensures !(PathLess(a, b) && PathLess(b, a))
    ensures a == b ==> !PathLess(a, b)
  {
    if a != [] && b != [] {
      NameOrder(a[0], b[0]);
      PathOrder(a[1..], b[1..]);
      assert a == [a[0]] + a[1..] && b == [b[0]] + b[1..];
    }
  }

  lemma {:induction false} PathTransitive(a: Path, b: Path, c: Path)
    requires PathLess(a, b) && PathLess(b, c)
    ensures PathLess(a, c)
  {
    if a != [] {
      NameOrder(a[0], b[0]);
      NameOrder(b[0], c[0]);
      if a[0] == b[0] && b[0] == c[0] {
        PathTransitive(a[1..], b[1..], c[1..]);
      } else if NameLess(a[0], b[0]) && NameLess(b[0], c[0]) {
        NameTransitive(a[0], b[0], c[0]);
      }
    }
  }

  /** A directory sorts before everything beneath it. */
  lemma {:induction false} ParentFirst(p: Path, q: Path)
    requires StartsWith(q, p) && p != q
    ensures PathLess(p, q)
  {
    if p != [] {
      ParentFirst(p[1..], q[1..]);
    }
  }

  /** Subtrees are contiguous in the order: whatever sorts between a
      directory and something beneath it is beneath it too. */
  lemma {:induction false} SubtreesAreContiguous(root: Path, mid: Path, last: Path)
    requires StartsWith(last, root)
    requires !PathLess(mid, root) && !PathLess(last, mid)
    ensures StartsWith(mid, root)
  {
    if root != [] {
      PathOrder(mid, root);
      assert mid != [];
      NameOrder(mid[0], root[0]);
      SubtreesAreContiguous(root[1..], mid[1..], last[1..]);
      assert mid == [mid[0]] + mid[1..] && root == [root[0]] + root[1..];
    }
  }

  /** Two directories on the way to one path lie on one line. */
  lemma AncestorsAreComparable(a: Path, b: Path, p: Path)
    requires StartsWith(p, a) && StartsWith(p, b)
    ensures |a| <= |b| ==> StartsWith(b, a)
    ensures |b| <= |a| ==> StartsWith(a, b)
  {
    if |a| <= |b| {
      assert a == p[..|a|] && b == p[..|b|];
      assert b[..|a|] == a;
    } else {
      assert a == p[..|a|] && b == p[..|b|];
      assert a[..|b|] == b;
    }
  }

  // -------------------------------------------------------------------------
  // Sorted path lists: the engine's ordered sets
  // -------------------------------------------------------------------------

  /** Strictly ascending, hence free of duplicates. */
  predicate Ascending(s: seq<Path>) {
    forall i, j :: 0 <= i < j < |s| ==> PathLess(s[i], s[j])
  }

  lemma SomeMember(s: seq<Path>)
    ensures s == [] || exists p :: p in s
  {
    if s != [] {
      assert s[0] in s;
    }
  }

  /** A sorted list is determined by its members. */
  lemma {:induction false} AscendingIsCanonical(s: seq<Path>, t: seq<Path>)
    requires Ascending(s) && Ascending(t)
    requires forall p :: p in s <==> p in t
    ensures s == t
  {
    SomeMember(s);
    SomeMember(t);
    if s != [] && t != [] {
      assert s[0] in t && t[0] in s;
      PathOrder(s[0], t[0]);
      assert s[0] == t[0];
      forall p ensures p in s[1..] <==> p in t[1..] {
        PathOrder(s[0], s[0]);
        if p in s[1..] { assert p in s && p != s[0]; assert p in t; }
        if p in t[1..] { assert p in t && p != t[0]; assert p in s; }
      }
      AscendingIsCanonical(s[1..], t[1..]);
    }
  }

  /** Inserts into a sorted list, as `BTreeSet::insert` does. */
  function Insert(s: seq<Path>, p: Path): (r: seq<Path>)
    requires Ascending(s)
    ensures Ascending(r)
    ensures forall q :: q in r <==> q == p || q in s
    decreases |s|
  {
    if s == [] then [p]
    else if s[0] == p then s
    else
      PathOrder(s[0], p);
      if PathLess(p, s[0]) then
        assert forall i | 1 <= i < |s| :: PathLess(p, s[i]) by {
          forall i | 1 <= i < |s| ensures PathLess(p, s[i]) { PathTransitive(p, s[0], s[i]); }
        }
        [p] + s
      else
        var rest := Insert(s[1..], p);
        assert forall i | 0 <= i < |rest| :: PathLess(s[0], rest[i]) by {
          forall i | 0 <= i < |rest| ensures PathLess(s[0], rest[i]) { assert rest[i] in rest; }
        }
        assert s == [s[0]] + s[1..];
        [s[0]] + rest
  }

  /** The least member of a sorted list that does not sort before `p`:
      `set.range(p..).next()`. */
  function FirstFrom(s: seq<Path>, p: Path): Option<Path> {
    if s == [] then None
    else if PathLess(s[0], p) then FirstFrom(s[1..], p)
    else Some(s[0])
  }

  /** Does the list hold `p` or anything beneath it?  One probe. */
  predicate SubtreeChanged(s: seq<Path>, p: Path) {
    match FirstFrom(s, p)
    case None => false
    case Some(next) => StartsWith(next, p)
  }

  /** The one probe answers for the whole subtree. */
  lemma {:induction false} SubtreeChangedIsExact(s: seq<Path>, p: Path)
    requires Ascending(s)
    ensures SubtreeChanged(s, p) <==> exists q :: q in s && StartsWith(q, p)
  {
    if s != [] {
      SubtreeChangedIsExact(s[1..], p);
      assert s == [s[0]] + s[1..];
      if PathLess(s[0], p) {
        if StartsWith(s[0], p) {
          PathOrder(s[0], p);
          ParentFirst(p, s[0]);
        }
      } else {
        forall q | q in s && StartsWith(q, p) ensures StartsWith(s[0], p) {
          PathOrder(s[0], q);
          SubtreesAreContiguous(p, s[0], q);
        }
      }
    }
  }

  function DropBelow(s: seq<Path>, p: Path): seq<Path> {
    if s != [] && PathLess(s[0], p) then DropBelow(s[1..], p) else s
  }

  function TakeUnder(s: seq<Path>, p: Path): seq<Path> {
    if s != [] && StartsWith(s[0], p) then [s[0]] + TakeUnder(s[1..], p) else []
  }

  /** Everything strictly beneath `p`: the run of members that starts at the
      first one not below `p` and stops at the first one outside its subtree. */
  function Descendants(s: seq<Path>, p: Path): seq<Path> {
    var run := TakeUnder(DropBelow(s, p), p);
    if run != [] && run[0] == p then run[1..] else run
  }

  lemma {:induction false} TakeUnderIsPrefix(s: seq<Path>, p: Path)
    ensures TakeUnder(s, p) <= s
    ensures forall i :: 0 <= i < |TakeUnder(s, p)| ==> StartsWith(s[i], p)
  {
    if s != [] && StartsWith(s[0], p) {
      TakeUnderIsPrefix(s[1..], p);
      assert s == [s[0]] + s[1..];
    }
  }

  lemma StaysAbove(a: Path, b: Path, p: Path)
    requires !PathLess(a, p) && PathLess(a, b)
    ensures !PathLess(b, p)
  {
    if PathLess(b, p) {
      PathTransitive(a, b, p);
    }
  }

  lemma {:induction false} TakeUnderIsComplete(s: seq<Path>, p: Path, q: Path)
    requires Ascending(s) && q in s && StartsWith(q, p)
    requires !PathLess(s[0], p)
    ensures q in TakeUnder(s, p)
  {
    PathOrder(s[0], q);
    SubtreesAreContiguous(p, s[0], q);
    if q != s[0] {
      assert s == [s[0]] + s[1..];
      assert q in s[1..];
      StaysAbove(s[0], s[1], p);
      TakeUnderIsComplete(s[1..], p, q);
    }
  }

  lemma {:induction false} DropBelowKeeps(s: seq<Path>, p: Path, q: Path)
    requires Ascending(s)
    ensures var d := DropBelow(s, p);
            Ascending(d) && (d == [] || !PathLess(d[0], p)) &&
            (q in d ==> q in s) && (q in s && StartsWith(q, p) ==> q in d)
  {
    if s != [] && PathLess(s[0], p) {
      DropBelowKeeps(s[1..], p, q);
      if q == s[0] && StartsWith(q, p) {
        PathOrder(p, q);
        ParentFirst(p, q);
      }
      assert s == [s[0]] + s[1..];
    }
  }

  lemma RootComesFirst(run: seq<Path>, p: Path)
    requires Ascending(run) && p in run
    requires StartsWith(run[0], p)
    ensures run[0] == p
  {
    var i :| 0 <= i < |run| && run[i] == p;
    PathOrder(run[0], p);
    if i > 0 && run[0] != p {
      ParentFirst(p, run[0]);
    }
  }

  /** The scan yields exactly the strict descendants, in order. */
  lemma DescendantsAreExact(s: seq<Path>, p: Path)
    requires Ascending(s)
    ensures Ascending(Descendants(s, p))
    ensures forall q :: q in Descendants(s, p) <==> q in s && StartsWith(q, p) && q != p
  {
    var d := DropBelow(s, p);
    var run := TakeUnder(d, p);
    TakeUnderIsPrefix(d, p);
    DropBelowKeeps(s, p, p);
    assert forall i :: 0 <= i < |run| ==> run[i] == d[i];
    assert Ascending(run);
    forall q ensures q in Descendants(s, p) <==> q in s && StartsWith(q, p) && q != p {
      DropBelowKeeps(s, p, q);
      if q in s && StartsWith(q, p) {
        TakeUnderIsComplete(d, p, q);
      }
      if q in run { assert q in d; }
      if run != [] {
        assert run == [run[0]] + run[1..];
        PathOrder(run[0], run[0]);
        if p in run {
          RootComesFirst(run, p);
        }
      }
    }
  }

  /** Some listing of a finite set in order; there is only one. */
  ghost function Listing(s: set<Path>): (r: seq<Path>)
    ensures Ascending(r)
    ensures forall p :: p in r <==> p in s
  {
    if s == {} then [] else
      var p :| p in s;
      Insert(Listing(s - {p}), p)
  }

  /** Adds every member of `t` to the ordered set `s`. */
  function InsertAll(s: seq<Path>, t: seq<Path>): (r: seq<Path>)
    requires Ascending(s)
    ensures Ascending(r)
    ensures forall p :: p in r <==> p in s || p in t
    decreases |t|
  {
    if t == [] then s
    else
      assert t == [t[0]] + t[1..];
      InsertAll(Insert(s, t[0]), t[1..])
  }

  /** `retain`: drops what the test refuses and keeps the order. */
  function Retain(s: seq<Path>, keep: Path -> bool): (r: seq<Path>)
    ensures forall p :: p in r <==> p in s && keep(p)
  {
    if s == [] then []
    else
      assert s == [s[0]] + s[1..];
      if keep(s[0]) then [s[0]] + Retain(s[1..], keep) else Retain(s[1..], keep)
  }

  lemma {:induction false} RetainNone(s: seq<Path>, keep: Path -> bool)
    requires forall p :: p in s ==> !keep(p)
    ensures Retain(s, keep) == []
  {
    if s != [] {
      assert s[0] in s && s == [s[0]] + s[1..];
      RetainNone(s[1..], keep);
    }
  }

  lemma {:induction false} RetainKeepsOrder(s: seq<Path>, keep: Path -> bool)
    requires Ascending(s)
    ensures Ascending(Retain(s, keep))
  {
    if s != [] {
      RetainKeepsOrder(s[1..], keep);
      var rest := Retain(s[1..], keep);
      forall i | 0 <= i < |rest| ensures PathLess(s[0], rest[i]) {
        assert rest[i] in rest;
      }
    }
  }

  lemma AscendingAppend(s: seq<Path>, p: Path)
    requires Ascending(s) && forall q :: q in s ==> PathLess(q, p)
    ensures Ascending(s + [p])
  {
    forall i | 0 <= i < |s| ensures PathLess(s[i], p) {
      assert s[i] in s;
    }
  }

  // -------------------------------------------------------------------------
  // Path lists with repetitions, and their subtree roots
  // -------------------------------------------------------------------------

  predicate Sorted(s: seq<Path>) {
    forall i, j :: 0 <= i < j < |s| ==> !PathLess(s[j], s[i])
  }

  function InsertSorted(s: seq<Path>, p: Path): (r: seq<Path>)
    requires Sorted(s)
    ensures Sorted(r)
    ensures multiset(r) == multiset(s) + multiset{p}
  {
    if s == [] then [p]
    else if PathLess(s[0], p) then
      var rest := InsertSorted(s[1..], p);
      assert s == [s[0]] + s[1..];
      assert forall i | 0 <= i < |rest| :: !PathLess(rest[i], s[0]) by {
        PathOrder(s[0], p);
        forall i | 0 <= i < |rest| ensures !PathLess(rest[i], s[0]) {
          assert rest[i] in multiset(rest);
          if rest[i] != p { assert rest[i] in s[1..]; }
        }
      }
      [s[0]] + rest
    else
      assert forall i | 0 <= i < |s| :: !PathLess(s[i], p) by {
        forall i | 0 <= i < |s| ensures !PathLess(s[i], p) {
          NotAboveIsTransitive(p, s[0], s[i]);
        }
      }
      [p] + s
  }

  lemma NotAboveIsTransitive(a: Path, b: Path, c: Path)
    requires !PathLess(b, a) && (b == c || !PathLess(c, b))
    ensures !PathLess(c, a)
  {
    PathOrder(a, b);
    PathOrder(b, c);
    PathOrder(a, c);
    if a != b && b != c && c != a {
      PathTransitive(a, b, c);
    }
  }

  /** `sort` on a list of paths. */
  function Sort(s: seq<Path>): (r: seq<Path>)
    ensures Sorted(r)
    ensures multiset(r) == multiset(s)
  {
    if s == [] then []
    else
      assert s == [s[0]] + s[1..];
      InsertSorted(Sort(s[1..]), s[0])
  }

  lemma SortKeepsMembers(s: seq<Path>)
    ensures forall p :: p in Sort(s) <==> p in s
  {
    forall p ensures p in Sort(s) <==> p in s {
      assert p in s <==> p in multiset(s);
      assert p in Sort(s) <==> p in multiset(Sort(s));
    }
  }

  /** No member lies beneath another. */
  ghost predicate NoNesting(s: seq<Path>) {
    forall i, j {:trigger StartsWith(s[i], s[j])} :: 0 <= i < |s| && 0 <= j < |s| && StartsWith(s[i], s[j]) ==> i == j
  }

  ghost predicate CoveredBy(p: Path, roots: seq<Path>) {
    exists r :: r in roots && StartsWith(p, r)
  }

  ghost predicate Covers(roots: seq<Path>, paths: seq<Path>) {
    forall p {:trigger CoveredBy(p, roots)} :: p in paths ==> CoveredBy(p, roots)
  }

  /** Collapses a path list to its subtree roots. */
  method SubtreeRoots(paths: seq<Path>) returns (roots: seq<Path>)
    ensures Sorted(roots) && NoNesting(roots)
    ensures forall r :: r in roots ==> r in paths
    ensures Covers(roots, paths)
  {
    var sorted := Sort(paths);
    SortKeepsMembers(paths);
    roots := [];
    for i := 0 to |sorted|
      invariant NoNesting(roots) && Sorted(roots)
      invariant forall r :: r in roots ==> r in sorted[..i]
      invariant Covers(roots, sorted[..i])
    {
      var path := sorted[i];
      if !exists k :: 0 <= k < |roots| && StartsWith(path, roots[k]) {
        AddRoot(roots, path, sorted, i);
        roots := roots + [path];
      } else {
        var k :| 0 <= k < |roots| && StartsWith(path, roots[k]);
        assert roots[k] in roots;
        SameRoots(roots, path, sorted[..i]);
        assert sorted[..i + 1] == sorted[..i] + [path];
      }
    }
    assert sorted[..|sorted|] == sorted;
    forall p | p in paths ensures CoveredBy(p, roots) {
      assert p in sorted;
    }
  }

  lemma SameRoots(roots: seq<Path>, path: Path, done: seq<Path>)
    requires Covers(roots, done) && CoveredBy(path, roots)
    ensures Covers(roots, done + [path])
  {
    forall p | p in done + [path] ensures CoveredBy(p, roots) {
      assert p in done || p == path;
    }
  }

  lemma AddRoot(roots: seq<Path>, path: Path, sorted: seq<Path>, i: nat)
    requires Sorted(sorted) && i < |sorted| && path == sorted[i]
    requires NoNesting(roots) && Sorted(roots) && Covers(roots, sorted[..i])
    requires forall r :: r in roots ==> r in sorted[..i]
    requires forall k :: 0 <= k < |roots| ==> !StartsWith(path, roots[k])
    ensures NoNesting(roots + [path]) && Sorted(roots + [path])
    ensures Covers(roots + [path], sorted[..i + 1])
    ensures forall r :: r in roots + [path] ==> r in sorted[..i + 1]
  {
    forall k | 0 <= k < |roots| ensures !StartsWith(roots[k], path) && !PathLess(path, roots[k]) {
      assert roots[k] in roots;
      var j :| 0 <= j < i && sorted[j] == roots[k];
      PathOrder(path, roots[k]);
      if StartsWith(roots[k], path) && roots[k] != path {
        ParentFirst(path, roots[k]);
      }
    }
    assert sorted[..i + 1] == sorted[..i] + [path];
    forall p | p in sorted[..i + 1] ensures CoveredBy(p, roots + [path]) {
      if p == path {
        assert path in roots + [path];
      } else {
        assert CoveredBy(p, roots);
        var r :| r in roots && StartsWith(p, r);
        assert r in roots + [path];
      }
    }
  }

  /** The roots are determined: any list without nesting that is drawn from
      the paths and covers them has the same members. */
  lemma SubtreeRootsAreUnique(roots: seq<Path>, other: seq<Path>, paths: seq<Path>)
    requires NoNesting(roots) && Covers(roots, paths) && (forall r :: r in roots ==> r in paths)
    requires NoNesting(other) && Covers(other, paths) && (forall r :: r in other ==> r in paths)
    ensures forall r :: r in roots <==> r in other
  {
    forall r ensures r in roots ==> r in other {
      if r in roots { CoveredByItself(roots, other, paths, r); }
    }
    forall r ensures r in other ==> r in roots {
      if r in other { CoveredByItself(other, roots, paths, r); }
    }
  }

  lemma CoveredByItself(roots: seq<Path>, other: seq<Path>, paths: seq<Path>, r: Path)
    requires NoNesting(roots) && Covers(roots, paths) && r in roots && r in paths
    requires Covers(other, paths) && forall o :: o in other ==> o in paths
    ensures r in other
  {
    assert CoveredBy(r, other);
    var o :| o in other && StartsWith(r, o);
    assert CoveredBy(o, roots);
    var back :| back in roots && StartsWith(o, back);
    assert StartsWith(r, back);
    var i :| 0 <= i < |roots| && roots[i] == r;
    var j :| 0 <= j < |roots| && roots[j] == back;
    assert i == j;
    assert o == r;
  }
}
