/** Writing subtrees back, one path after the other: restoring paths into a
    working directory, and applying entries to a checkout.  Both write the
    planned paths without failing, in any order, and both arrive at the same
    tree. */
module Writing {
  import opened Paths
  import opened Trees
  import opened TextMerge
  import opened Planner
  import opened Landing

  // -------------------------------------------------------------------------
  // Restoring paths into a working directory
  // -------------------------------------------------------------------------

  datatype Restored =
    | Replaced(tree: Tree)    // the path now holds what the source holds
    | Removed(tree: Tree)     // absent in the source, removed here
    | MissingOnBothSides      // absent in the source and here
    | ParentIsNotADirectory   // something else is in the way

  predicate Failed(r: Restored) {
    r.MissingOnBothSides? || r.ParentIsNotADirectory?
  }

  predicate ParentBlocked(t: Tree, p: Path) {
    exists a :: a in ParentSet(p) && a in t && t[a] != Dir
  }

  /** What restoring one path from `src` does to `dst`. */
  function RestorePath(dst: Tree, src: Tree, p: Path): Restored {
    if ParentBlocked(dst, p) then ParentIsNotADirectory
    else if p in src then Replaced(Replace(MakeParents(dst, p), src, p))
    else if p in dst then Removed(Replace(dst, map[], p))
    else MissingOnBothSides
  }

  /** When restoring one path fails, and how. */
  lemma RestoreFails(dst: Tree, src: Tree, p: Path)
    ensures RestorePath(dst, src, p).ParentIsNotADirectory? <==>
            exists a :: ProperAncestor(a, p) && a in dst && dst[a] != Dir
    ensures RestorePath(dst, src, p).MissingOnBothSides? <==>
            p !in src && p !in dst && forall a :: ProperAncestor(a, p) && a in dst ==> dst[a] == Dir
    ensures RestorePath(dst, src, p).Replaced? ==> p in src
    ensures RestorePath(dst, src, p).Removed? ==> p !in src && p in dst
  {
    if a :| ProperAncestor(a, p) && a in dst && dst[a] != Dir {
      assert a in ParentSet(p);
    }
    if ParentBlocked(dst, p) {
      var a :| a in ParentSet(p) && a in dst && dst[a] != Dir;
      assert ProperAncestor(a, p);
    }
  }

  /** `now` is `before` with what `src` holds at `p`, the directories on the way to
      it where it is something, and nothing else changed. */
  ghost predicate HoldsFrom(before: Tree, src: Tree, p: Path, now: Tree) {
    WellFormed(now) &&
    (forall q :: StartsWith(q, p) ==> Get(now, q) == Get(src, q)) &&
    (forall q :: !StartsWith(q, p) ==>
       Get(now, q) == if p in src && ProperAncestor(q, p) then Some(Dir) else Get(before, q))
  }

  /** A restore that succeeds leaves a well-formed tree that holds the path as the
      source does. */
  lemma RestoreHolds(dst: Tree, src: Tree, p: Path)
    requires WellFormed(dst) && WellFormed(src) && !Failed(RestorePath(dst, src, p))
    ensures HoldsFrom(dst, src, p, RestorePath(dst, src, p).tree)
  {
    var now := RestorePath(dst, src, p).tree;
    RestoreFails(dst, src, p);
    forall q ensures Get(now, q) == if StartsWith(q, p) then Get(src, q)
                                    else if p in src && ProperAncestor(q, p) then Some(Dir) else Get(dst, q)
    {
      RestoredAt(dst, src, p, q);
    }
    Written(dst, src, p, now);
  }

  lemma RestoredAt(dst: Tree, src: Tree, p: Path, q: Path)
    requires WellFormed(dst) && WellFormed(src) && !Failed(RestorePath(dst, src, p))
    ensures Get(RestorePath(dst, src, p).tree, q) ==
            if StartsWith(q, p) then Get(src, q)
            else if p in src && ProperAncestor(q, p) then Some(Dir) else Get(dst, q)
  {
    if p != [] && p !in src && StartsWith(q, p) && q != p {
      assert ProperAncestor(p, q);
    }
    if ProperAncestor(q, p) {
      assert q in ParentSet(p);
      assert StartsWith(q, p) ==> p == q;
    }
  }

  /** So does writing through a mount. */
  lemma MaterializeHolds(dst: Tree, src: Tree, p: Path)
    requires WellFormed(dst) && WellFormed(src) && p != []
    ensures MaterializePath(dst, src, p).ParentIsNotADirectory? <==>
            exists a :: ProperAncestor(a, p) && a in dst && dst[a] != Dir
    ensures !Failed(MaterializePath(dst, src, p)) ==> HoldsFrom(dst, src, p, MaterializePath(dst, src, p).tree)
  {
    RestoreFails(dst, src, p);
    if !ParentBlocked(dst, p) {
      var now := MaterializePath(dst, src, p).tree;
      forall q ensures Get(now, q) == if StartsWith(q, p) then Get(src, q)
                                      else if p in src && ProperAncestor(q, p) then Some(Dir) else Get(dst, q)
      {
        MaterializedAt(dst, src, p, q);
      }
      Written(dst, src, p, now);
    }
  }

  lemma MaterializedAt(dst: Tree, src: Tree, p: Path, q: Path)
    requires WellFormed(src) && p != [] && !ParentBlocked(dst, p)
    ensures Get(MaterializePath(dst, src, p).tree, q) ==
            if StartsWith(q, p) then Get(src, q)
            else if p in src && ProperAncestor(q, p) then Some(Dir) else Get(dst, q)
  {
    if p !in src && StartsWith(q, p) && q != p {
      assert ProperAncestor(p, q);
    }
    if ProperAncestor(q, p) {
      assert q in ParentSet(p);
      assert StartsWith(q, p) ==> p == q;
    }
  }

  lemma Written(dst: Tree, src: Tree, p: Path, now: Tree)
    requires WellFormed(dst) && WellFormed(src) && p != [] && !ParentBlocked(dst, p)
    requires forall q :: StartsWith(q, p) ==> Get(now, q) == Get(src, q)
    requires forall q :: !StartsWith(q, p) ==>
      Get(now, q) == if p in src && ProperAncestor(q, p) then Some(Dir) else Get(dst, q)
    ensures HoldsFrom(dst, src, p, now)
  {
    assert Get(now, []) == Get(dst, []);
    forall q, a | q in now && ProperAncestor(a, q) ensures a in now && now[a] == Dir {
      assert Get(now, q).Some?;
      if StartsWith(q, p) {
        WrittenUnder(dst, src, p, now, q, a);
      } else {
        WrittenBeside(dst, src, p, now, q, a);
      }
    }
  }

  lemma WrittenUnder(dst: Tree, src: Tree, p: Path, now: Tree, q: Path, a: Path)
    requires WellFormed(src) && q in src && StartsWith(q, p) && ProperAncestor(a, q) && p != []
    requires forall r :: StartsWith(r, p) ==> Get(now, r) == Get(src, r)
    requires forall r :: !StartsWith(r, p) ==>
      Get(now, r) == if p in src && ProperAncestor(r, p) then Some(Dir) else Get(dst, r)
    ensures Get(now, a) == Some(Dir)
  {
    AncestorsAreComparable(a, p, q);
    if !StartsWith(a, p) {
      assert q == p || ProperAncestor(p, q);
      assert ProperAncestor(a, p) && p in src;
    }
  }

  lemma WrittenBeside(dst: Tree, src: Tree, p: Path, now: Tree, q: Path, a: Path)
    requires WellFormed(dst) && q in now && !StartsWith(q, p) && ProperAncestor(a, q)
    requires forall r :: !StartsWith(r, p) ==>
      Get(now, r) == if p in src && ProperAncestor(r, p) then Some(Dir) else Get(dst, r)
    ensures Get(now, a) == Some(Dir)
  {
    assert StartsWith(a, p) ==> StartsWith(q, p);
    assert Get(now, q).Some?;
    if p in src && ProperAncestor(q, p) {
      assert StartsWith(p, a) && |a| <= |q|;
      assert a != p;
    } else {
      assert q in dst;
    }
  }

  /** A working directory: the real tree, or a fork's workspace. */
  class WorkTree {
    var nodes: Tree

    constructor (t: Tree)
      ensures nodes == t
    {
      nodes := t;
    }

    /** Restores the paths in order and stops at the first failure, which
        leaves what was written before it. */
    method RestorePaths(src: Tree, paths: seq<Path>) returns (ok: bool)
      modifies this
      ensures (ok, nodes) == RestoreAll(old(nodes), src, paths)
    {
      for i := 0 to |paths|
        invariant RestoreAll(old(nodes), src, paths[..i]) == (true, nodes)
      {
        assert paths[..i + 1][..i] == paths[..i];
        var outcome := RestorePath(nodes, src, paths[i]);
        if Failed(outcome) {
          RestoreStopsAt(old(nodes), src, paths, i + 1);
          return false;
        }
        nodes := outcome.tree;
      }
      assert paths[..|paths|] == paths;
      ok := true;
    }

    /** Writes paths through a mounted workspace, in order, without staging;
        stops at the first failure. */
    method MaterializePaths(src: Tree, paths: seq<Path>) returns (ok: bool)
      modifies this
      ensures (ok, nodes) == MaterializeAll(old(nodes), src, paths)
    {
      for i := 0 to |paths|
        invariant MaterializeAll(old(nodes), src, paths[..i]) == (true, nodes)
      {
        assert paths[..i + 1][..i] == paths[..i];
        var outcome := MaterializePath(nodes, src, paths[i]);
        if Failed(outcome) {
          MaterializeStopsAt(old(nodes), src, paths, i + 1);
          return false;
        }
        nodes := outcome.tree;
      }
      assert paths[..|paths|] == paths;
      ok := true;
    }
  }

  /** Clears the path first and then writes what the source holds, if anything;
      a path absent here too is no failure. */
  function MaterializePath(dst: Tree, src: Tree, p: Path): Restored {
    var cleared := Replace(dst, map[], p);
    if ParentBlocked(dst, p) then ParentIsNotADirectory
    else if p !in src then Removed(cleared)
    else Replaced(Replace(MakeParents(cleared, p), src, p))
  }

  /** The paths in order: whether every one succeeded, and the tree left. */
  function MaterializeAll(dst: Tree, src: Tree, paths: seq<Path>): (bool, Tree) {
    if paths == [] then (true, dst)
    else
      var before := MaterializeAll(dst, src, paths[..|paths| - 1]);
      if !before.0 then before
      else
        var r := MaterializePath(before.1, src, paths[|paths| - 1]);
        if Failed(r) then (false, before.1) else (true, r.tree)
  }

  lemma {:induction false} MaterializedInOrder(dst: Tree, src: Tree, first: seq<Path>, rest: seq<Path>)
    ensures var done := MaterializeAll(dst, src, first);
            MaterializeAll(dst, src, first + rest) == if done.0 then MaterializeAll(done.1, src, rest) else done
  {
    if rest == [] {
      assert first + rest == first;
    } else {
      var k := |rest| - 1;
      MaterializedInOrder(dst, src, first, rest[..k]);
      assert (first + rest)[..|first + rest| - 1] == first + rest[..k];
    }
  }

  lemma {:induction false} MaterializeStopsAt(dst: Tree, src: Tree, paths: seq<Path>, i: nat)
    requires i <= |paths| && !MaterializeAll(dst, src, paths[..i]).0
    ensures MaterializeAll(dst, src, paths) == MaterializeAll(dst, src, paths[..i])
    decreases |paths|
  {
    if i == |paths| {
      assert paths[..i] == paths;
    } else {
      var k := |paths| - 1;
      assert paths[..k][..i] == paths[..i];
      MaterializeStopsAt(dst, src, paths[..k], i);
    }
  }

  /** Where restoring succeeds, writing through the mount does the same. */
  lemma {:induction false} MaterializingRefinesRestoring(dst: Tree, src: Tree, paths: seq<Path>)
    requires RestoreAll(dst, src, paths).0
    ensures MaterializeAll(dst, src, paths) == RestoreAll(dst, src, paths)
  {
    if paths != [] {
      var k := |paths| - 1;
      MaterializingRefinesRestoring(dst, src, paths[..k]);
      ClearingFirst(RestoreAll(dst, src, paths[..k]).1, src, paths[k]);
    }
  }

  lemma BlockedStaysBlocked(t: Tree, p: Path)
    ensures ParentBlocked(Replace(t, map[], p), p) <==> ParentBlocked(t, p)
  {
    forall a | a in ParentSet(p) ensures Get(Replace(t, map[], p), a) == Get(t, a) {
      ReplaceAt(t, map[], p, a);
    }
    if ParentBlocked(t, p) {
      var a :| a in ParentSet(p) && a in t && t[a] != Dir;
      assert Get(Replace(t, map[], p), a) == Get(t, a);
      assert a in Replace(t, map[], p);
    }
  }

  lemma MakeParentsAt(t: Tree, p: Path, q: Path)
    ensures Get(MakeParents(t, p), q) == if q in t then Get(t, q) else if ProperAncestor(q, p) then Some(Dir) else None
  {}

  lemma ClearingFirst(t: Tree, src: Tree, p: Path)
    ensures ParentBlocked(Replace(t, map[], p), p) <==> ParentBlocked(t, p)
    ensures Replace(MakeParents(Replace(t, map[], p), p), src, p) == Replace(MakeParents(t, p), src, p)
  {
    var cleared := Replace(t, map[], p);
    var a, b := Replace(MakeParents(cleared, p), src, p), Replace(MakeParents(t, p), src, p);
    forall q ensures Get(a, q) == Get(b, q) {
      ReplaceAt(MakeParents(cleared, p), src, p, q);
      ReplaceAt(MakeParents(t, p), src, p, q);
      ReplaceAt(t, map[], p, q);
      MakeParentsAt(cleared, p, q);
      MakeParentsAt(t, p, q);
    }
    TreesAgree(a, b);
    BlockedStaysBlocked(t, p);
  }

  /** All the paths in order: whether every one succeeded, and the tree left. */
  function RestoreAll(dst: Tree, src: Tree, paths: seq<Path>): (bool, Tree) {
    if paths == [] then (true, dst)
    else
      var before := RestoreAll(dst, src, paths[..|paths| - 1]);
      if !before.0 then before
      else
        var r := RestorePath(before.1, src, paths[|paths| - 1]);
        if Failed(r) then (false, before.1) else (true, r.tree)
  }

  /** A list is restored in order, and what is after a failure is not touched. */
  lemma {:induction false} RestoredInOrder(dst: Tree, src: Tree, first: seq<Path>, rest: seq<Path>)
    ensures var done := RestoreAll(dst, src, first);
            RestoreAll(dst, src, first + rest) == if done.0 then RestoreAll(done.1, src, rest) else done
  {
    if rest == [] {
      assert first + rest == first;
    } else {
      var k := |rest| - 1;
      RestoredInOrder(dst, src, first, rest[..k]);
      assert (first + rest)[..|first + rest| - 1] == first + rest[..k];
    }
  }

  lemma {:induction false} RestoreStopsAt(dst: Tree, src: Tree, paths: seq<Path>, i: nat)
    requires i <= |paths| && !RestoreAll(dst, src, paths[..i]).0
    ensures RestoreAll(dst, src, paths) == RestoreAll(dst, src, paths[..i])
    decreases |paths|
  {
    if i == |paths| {
      assert paths[..i] == paths;
    } else {
      var k := |paths| - 1;
      assert paths[..k][..i] == paths[..i];
      RestoreStopsAt(dst, src, paths[..k], i);
    }
  }

  ghost predicate Restorable(dst: Tree, src: Tree, p: Path) {
    ParentsInPlace(dst, p) && (p in src || p in dst)
  }

  lemma OverlayKeepsParents(dst: Tree, src: Tree, roots: set<Path>, p: Path)
    requires ParentsInPlace(dst, p)
    requires forall r :: r in roots ==> !StartsWith(p, r)
    ensures ParentsInPlace(Overlay(dst, src, roots), p)
  {
    forall a | ProperAncestor(a, p) ensures Get(Overlay(dst, src, roots), a) == Some(Dir) {
      OverlayAt(dst, src, roots, a);
      if Below(a, roots) {
        var r :| r in roots && StartsWith(a, r);
        assert StartsWith(p, r);
      }
    }
  }

  lemma NothingToReplace(dst: Tree, src: Tree, p: Path)
    requires WellFormed(src) && p != [] && p !in src
    ensures Replace(dst, map[], p) == Replace(dst, src, p)
  {
    forall q ensures Get(Replace(dst, map[], p), q) == Get(Replace(dst, src, p), q) {
      ReplaceAt(dst, map[], p, q);
      ReplaceAt(dst, src, p, q);
      if StartsWith(q, p) && q != p { NothingBelowLeaves(src, p, q); }
    }
    TreesAgree(Replace(dst, map[], p), Replace(dst, src, p));
  }

  lemma RestoreOneMore(dst: Tree, src: Tree, roots: set<Path>, p: Path)
    requires WellFormed(src) && p != []
    requires Restorable(dst, src, p) && forall r :: r in roots ==> !StartsWith(p, r)
    ensures var r := RestorePath(Overlay(dst, src, roots), src, p);
            !Failed(r) && r.tree == Overlay(dst, src, roots + {p})
  {
    var t := Overlay(dst, src, roots);
    OverlayOneMore(dst, src, roots, p);
    OverlayKeepsParents(dst, src, roots, p);
    forall a | a in ParentSet(p) ensures Get(t, a) == Some(Dir) {}
    if p in src {
      MakeParentsIsIdle(t, p);
    } else {
      OverlayAt(dst, src, roots, p);
      assert Get(t, p) == Get(dst, p);
      NothingToReplace(t, src, p);
    }
  }

  lemma LastDoesNotNest(paths: seq<Path>)
    requires NoNesting(paths) && paths != []
    ensures var k := |paths| - 1;
            NoNesting(paths[..k]) &&
            (forall r :: r in Members(paths[..k]) ==> !StartsWith(paths[k], r)) &&
            Members(paths) == Members(paths[..k]) + {paths[k]}
  {
    var k := |paths| - 1;
    var init := paths[..k];
    forall i, j | 0 <= i < k && 0 <= j < k && StartsWith(init[i], init[j]) ensures i == j {
      assert StartsWith(paths[i], paths[j]);
    }
    forall r | r in Members(init) ensures !StartsWith(paths[k], r) {
      var i :| 0 <= i < k && init[i] == r;
      assert StartsWith(paths[k], paths[i]) ==> k == i;
    }
    assert paths == init + [paths[k]];
  }

  /** Restoring paths that do not nest never fails and overlays their subtrees. */
  lemma {:induction false} RestoreAllIsOverlay(dst: Tree, src: Tree, paths: seq<Path>)
    requires WellFormed(src)
    requires NoNesting(paths) && forall p :: p in paths ==> p != [] && Restorable(dst, src, p)
    ensures RestoreAll(dst, src, paths) == (true, Overlay(dst, src, Members(paths)))
  {
    if paths == [] {
      assert Members(paths) == {};
      OverlayNothing(dst, src);
    } else {
      var k := |paths| - 1;
      var init := paths[..k];
      LastDoesNotNest(paths);
      assert forall p :: p in init ==> p in paths;
      RestoreAllIsOverlay(dst, src, init);
      assert paths[k] in paths;
      RestoreOneMore(dst, src, Members(init), paths[k]);
    }
  }

  // -------------------------------------------------------------------------
  // Applying entries to a checkout
  // -------------------------------------------------------------------------

  /** One path to write, wholesale, as `source` holds it. */
  datatype Entry = Entry(path: Path, source: Tree)

  function EntryPaths(entries: seq<Entry>): (r: seq<Path>)
    ensures |r| == |entries| && forall i :: 0 <= i < |r| ==> r[i] == entries[i].path
  {
    seq(|entries|, i requires 0 <= i < |entries| => entries[i].path)
  }

  function Put(t: Tree, e: Entry): Tree {
    Replace(MakeParents(t, e.path), e.source, e.path)
  }

  function PutAll(t: Tree, entries: seq<Entry>): Tree {
    if entries == [] then t else Put(PutAll(t, entries[..|entries| - 1]), entries[|entries| - 1])
  }

  /** Around `e.path` the entry's source holds what `src` holds. */
  ghost predicate Draws(e: Entry, src: Tree) {
    forall p :: StartsWith(p, e.path) ==> Get(e.source, p) == Get(src, p)
  }

  lemma ReplaceFromEither(dst: Tree, e: Entry, src: Tree)
    requires Draws(e, src)
    ensures Replace(dst, e.source, e.path) == Replace(dst, src, e.path)
  {
    var a, b := Replace(dst, e.source, e.path), Replace(dst, src, e.path);
    forall p ensures Get(a, p) == Get(b, p) {
      ReplaceAt(dst, e.source, e.path, p);
      ReplaceAt(dst, src, e.path, p);
    }
    TreesAgree(a, b);
  }

  lemma PutOneMore(t: Tree, src: Tree, roots: set<Path>, e: Entry)
    requires ParentsInPlace(t, e.path) && Draws(e, src)
    requires forall r :: r in roots ==> !StartsWith(e.path, r)
    ensures Put(Overlay(t, src, roots), e) == Overlay(t, src, roots + {e.path})
  {
    OverlayKeepsParents(t, src, roots, e.path);
    MakeParentsIsIdle(Overlay(t, src, roots), e.path);
    ReplaceFromEither(Overlay(t, src, roots), e, src);
    OverlayOneMore(t, src, roots, e.path);
  }

  ghost predicate Ready(t: Tree, src: Tree, e: Entry) {
    ParentsInPlace(t, e.path) && Draws(e, src)
  }

  /** Applying entries for unnested paths overlays their subtrees. */
  lemma {:induction false} PutAllIsOverlay(t: Tree, entries: seq<Entry>, src: Tree)
    requires NoNesting(EntryPaths(entries))
    requires forall i :: 0 <= i < |entries| ==> Ready(t, src, entries[i])
    ensures PutAll(t, entries) == Overlay(t, src, Members(EntryPaths(entries)))
  {
    if entries == [] {
      assert Members(EntryPaths(entries)) == {};
      OverlayNothing(t, src);
    } else {
      var k := |entries| - 1;
      var init, paths := entries[..k], EntryPaths(entries);
      assert EntryPaths(init) == paths[..k];
      LastDoesNotNest(paths);
      PutAllIsOverlay(t, init, src);
      PutOneMore(t, src, Members(paths[..k]), entries[k]);
    }
  }

  // -------------------------------------------------------------------------
  // The landing paths of a plan
  // -------------------------------------------------------------------------

  lemma {:induction false} OnceCounts(s: seq<Path>)
    requires Once(s)
    ensures forall p :: multiset(s)[p] <= 1
  {
    if s != [] {
      OnceCounts(s[1..]);
      assert s == [s[0]] + s[1..];
      assert s[0] !in s[1..];
      assert multiset(s) == multiset{s[0]} + multiset(s[1..]);
    }
  }

  lemma CountedOnce(s: seq<Path>)
    requires forall p :: multiset(s)[p] <= 1
    ensures Once(s)
  {
    forall i, j | 0 <= i < j < |s| ensures s[i] != s[j] {
      if s[i] == s[j] {
        RepeatedTwice(s, i, j);
      }
    }
  }

  lemma RepeatedTwice<T>(s: seq<T>, i: nat, j: nat)
    requires i < j < |s| && s[i] == s[j]
    ensures multiset(s)[s[i]] >= 2
  {
    var x, y := s[..j], s[j..];
    assert s == x + y && x[i] == s[i] && y[0] == s[i];
    assert s[i] in multiset(x) && s[i] in multiset(y);
    assert multiset(s) == multiset(x) + multiset(y);
  }

  lemma AscendingIsOnce(s: seq<Path>)
    requires Ascending(s)
    ensures Once(s)
  {
    forall i, j | 0 <= i < j < |s| ensures s[i] != s[j] {
      PathOrder(s[i], s[j]);
    }
  }

  lemma UnnestedList(s: seq<Path>, roots: set<Path>)
    requires Antichain(roots) && Once(s) && forall p :: p in s ==> p in roots
    ensures NoNesting(s)
  {
    forall i, j | 0 <= i < |s| && 0 <= j < |s| && StartsWith(s[i], s[j]) ensures i == j {
      assert s[i] in roots && s[j] in roots;
    }
  }

  lemma PlannedOnce(env: Env, g: Three, plan: MergePlan)
    requires IsPlan(env, g, plan)
    ensures Once(plan.takeOurs + MergedPaths(plan.merged))
  {
    var a, b := plan.takeOurs, MergedPaths(plan.merged);
    AscendingIsOnce(a);
    AscendingIsOnce(b);
    forall i, j | 0 <= i < |a| && 0 <= j < |b| ensures a[i] != b[j] {
      assert a[i] in a;
      if a[i] == b[j] { var m := MemberOfMerged(env, g, plan, b[j]); }
    }
  }

  lemma LandingPathsDoNotNest(env: Env, g: Three, plan: MergePlan)
    requires ValidThree(g) && IsPlan(env, g, plan)
    ensures NoNesting(LandingPaths(plan))
    ensures NoNesting(plan.takeOurs + MergedPaths(plan.merged))
    ensures Members(plan.takeOurs + MergedPaths(plan.merged)) == Roots(plan) == Members(LandingPaths(plan))
  {
    var all := plan.takeOurs + MergedPaths(plan.merged);
    PlannedOnce(env, g, plan);
    OnceCounts(all);
    CountedOnce(LandingPaths(plan));
    LandingRootsDoNotNest(env, g, plan);
    RootsArePlanned(plan);
    UnnestedList(LandingPaths(plan), Roots(plan));
    UnnestedList(all, Roots(plan));
  }

  /** Restoring the landing paths from what lands never fails: not for want of
      a directory, and never for a path absent on both sides. */
  lemma LandingNeverFails(env: Env, g: Three, plan: MergePlan)
    requires ValidThree(g) && IsPlan(env, g, plan)
    ensures RestoreAll(g.theirs, WithFiles(g.ours, plan.merged), LandingPaths(plan)) == (true, Landed(g, plan))
  {
    LandingRootsDoNotNest(env, g, plan);
    LandingPathsDoNotNest(env, g, plan);
    LandingSourceIsWellFormed(env, g, plan);
    forall p | p in LandingPaths(plan) ensures Restorable(g.theirs, WithFiles(g.ours, plan.merged), p) {
      assert p in Roots(plan);
      LandingParentsInPlace(env, g, plan, p);
    }
    RestoreAllIsOverlay(g.theirs, WithFiles(g.ours, plan.merged), LandingPaths(plan));
  }

  lemma OverlayTwice(dst: Tree, src: Tree, roots: set<Path>)
    ensures Overlay(dst, Overlay(dst, src, roots), roots) == Overlay(dst, src, roots)
  {
    var once := Overlay(dst, src, roots);
    forall p ensures Get(Overlay(dst, once, roots), p) == Get(once, p) {
      OverlayAt(dst, once, roots, p);
      OverlayAt(dst, src, roots, p);
    }
    TreesAgree(Overlay(dst, once, roots), once);
  }

  /** The landing source with nothing built, the fork itself, serves as well as
      the built merge: restoring from either gives the same tree. */
  lemma RestoringFromForkRefinesBuild(env: Env, g: Three, plan: MergePlan)
    requires ValidThree(g) && IsPlan(env, g, plan)
    ensures RestoreAll(g.theirs, Landed(g, plan), LandingPaths(plan)) == (true, Landed(g, plan))
    ensures plan.merged == [] ==> RestoreAll(g.theirs, g.ours, LandingPaths(plan)) == (true, Landed(g, plan))
  {
    LandingNeverFails(env, g, plan);
    LandingRootsDoNotNest(env, g, plan);
    LandingPathsDoNotNest(env, g, plan);
    LandingSourceIsWellFormed(env, g, plan);
    LandedIsWellFormed(env, g, plan);
    forall p | p in LandingPaths(plan) ensures Restorable(g.theirs, Landed(g, plan), p) {
      assert p in Roots(plan) && StartsWith(p, p);
      LandingParentsInPlace(env, g, plan, p);
      OverlayAt(g.theirs, WithFiles(g.ours, plan.merged), Roots(plan), p);
      assert p in Landed(g, plan) <==> p in g.ours;
    }
    RestoreAllIsOverlay(g.theirs, Landed(g, plan), LandingPaths(plan));
    OverlayTwice(g.theirs, WithFiles(g.ours, plan.merged), Roots(plan));
  }

  function FileEntry(p: Path, bytes: Bytes): Entry {
    Entry(p, map[p := Regular(bytes)])
  }

  function FileEntries(files: seq<MergedFile>): (r: seq<Entry>)
    ensures |r| == |files|
    ensures forall i :: 0 <= i < |r| ==> r[i] == FileEntry(files[i].path, files[i].bytes)
  {
    seq(|files|, i requires 0 <= i < |files| => FileEntry(files[i].path, files[i].bytes))
  }

  function SubtreeEntries(paths: seq<Path>, src: Tree): (r: seq<Entry>)
    ensures |r| == |paths|
    ensures forall i :: 0 <= i < |r| ==> r[i] == Entry(paths[i], src)
  {
    seq(|paths|, i requires 0 <= i < |paths| => Entry(paths[i], src))
  }

  /** The entries from which the merged generation is built. */
  function LandingEntries(ours: Tree, plan: MergePlan): seq<Entry> {
    SubtreeEntries(plan.takeOurs, ours) + FileEntries(plan.merged)
  }

  lemma SourceBelowTaken(env: Env, g: Three, plan: MergePlan, r: Path, p: Path)
    requires ValidThree(g) && IsPlan(env, g, plan) && r in plan.takeOurs && StartsWith(p, r)
    ensures Get(WithFiles(g.ours, plan.merged), p) == Get(g.ours, p)
  {
    if p in MergedPaths(plan.merged) {
      var m := MemberOfMerged(env, g, plan, p);
      DecidedPathsDoNotNest(env, g, r, p);
    }
    WithFilesElsewhere(g.ours, plan.merged, p);
  }

  lemma SourceBelowMerged(env: Env, g: Three, plan: MergePlan, i: nat, p: Path)
    requires ValidThree(g) && IsPlan(env, g, plan) && i < |plan.merged| && StartsWith(p, plan.merged[i].path)
    ensures var m := plan.merged[i];
            Get(WithFiles(g.ours, plan.merged), p) == Get(FileEntry(m.path, m.bytes).source, p)
  {
    var m := plan.merged[i];
    WithFilesAt(g.ours, plan.merged, i);
    if p != m.path {
      LandingSourceIsWellFormed(env, g, plan);
      assert m in plan.merged;
      ChangesAreInside(g, m.path);
      NothingBelowLeaves(WithFiles(g.ours, plan.merged), m.path, p);
    }
  }

  lemma TakenEntryIsReady(env: Env, g: Three, plan: MergePlan, r: Path)
    requires ValidThree(g) && IsPlan(env, g, plan) && r in plan.takeOurs
    ensures Ready(g.theirs, WithFiles(g.ours, plan.merged), Entry(r, g.ours))
  {
    RootsArePlanned(plan);
    LandingParentsInPlace(env, g, plan, r);
    forall p | StartsWith(p, r) ensures Get(g.ours, p) == Get(WithFiles(g.ours, plan.merged), p) {
      SourceBelowTaken(env, g, plan, r, p);
    }
  }

  lemma MergedEntryIsReady(env: Env, g: Three, plan: MergePlan, i: nat)
    requires ValidThree(g) && IsPlan(env, g, plan) && i < |plan.merged|
    ensures Ready(g.theirs, WithFiles(g.ours, plan.merged), FileEntry(plan.merged[i].path, plan.merged[i].bytes))
  {
    var e := FileEntry(plan.merged[i].path, plan.merged[i].bytes);
    RootsArePlanned(plan);
    assert MergedPaths(plan.merged)[i] == e.path;
    LandingParentsInPlace(env, g, plan, e.path);
    forall p | StartsWith(p, e.path) ensures Get(e.source, p) == Get(WithFiles(g.ours, plan.merged), p) {
      SourceBelowMerged(env, g, plan, i, p);
    }
  }

  ghost predicate AllReady(t: Tree, src: Tree, entries: seq<Entry>) {
    forall i :: 0 <= i < |entries| ==> Ready(t, src, entries[i])
  }

  /** No entry of an unnested, ready list finds its way blocked. */
  lemma ReadyEntriesAreUnblocked(t: Tree, src: Tree, entries: seq<Entry>, i: nat)
    requires NoNesting(EntryPaths(entries)) && AllReady(t, src, entries) && i < |entries|
    ensures !ParentBlocked(PutAll(t, entries[..i]), entries[i].path)
  {
    var upTo := entries[..i + 1];
    var paths := EntryPaths(entries);
    assert EntryPaths(upTo) == paths[..i + 1];
    assert forall k :: 0 <= k <= i ==> EntryPaths(upTo)[k] == paths[k];
    forall k, l | 0 <= k <= i && 0 <= l <= i && StartsWith(EntryPaths(upTo)[k], EntryPaths(upTo)[l]) ensures k == l {
      assert StartsWith(paths[k], paths[l]);
    }
    LastDoesNotNest(EntryPaths(upTo));
    assert EntryPaths(entries[..i]) == EntryPaths(upTo)[..i];
    PutAllIsOverlay(t, entries[..i], src);
    assert Ready(t, src, entries[i]);
    OverlayKeepsParents(t, src, Members(EntryPaths(entries[..i])), entries[i].path);
    forall a | a in ParentSet(entries[i].path) ensures Get(PutAll(t, entries[..i]), a) == Some(Dir) {}
  }

  lemma PermutedEntries(t: Tree, entries: seq<Entry>, all: seq<Entry>, src: Tree)
    requires multiset(entries) == multiset(all) && NoNesting(EntryPaths(all))
    requires AllReady(t, src, all)
    ensures PutAll(t, entries) == Overlay(t, src, Members(EntryPaths(all)))
  {
    SameEntriesSamePaths(entries, all);
    forall i | 0 <= i < |entries| ensures Ready(t, src, entries[i]) {
      assert entries[i] in multiset(entries);
      assert entries[i] in all;
    }
    PutAllIsOverlay(t, entries, src);
  }

  lemma TakenEntriesAreReady(env: Env, g: Three, plan: MergePlan)
    requires ValidThree(g) && IsPlan(env, g, plan)
    ensures AllReady(g.theirs, WithFiles(g.ours, plan.merged), SubtreeEntries(plan.takeOurs, g.ours))
  {
    forall i | 0 <= i < |plan.takeOurs|
      ensures Ready(g.theirs, WithFiles(g.ours, plan.merged), Entry(plan.takeOurs[i], g.ours))
    {
      TakenEntryIsReady(env, g, plan, plan.takeOurs[i]);
    }
  }

  lemma MergedEntriesAreReady(env: Env, g: Three, plan: MergePlan)
    requires ValidThree(g) && IsPlan(env, g, plan)
    ensures AllReady(g.theirs, WithFiles(g.ours, plan.merged), FileEntries(plan.merged))
  {
    forall i | 0 <= i < |plan.merged|
      ensures Ready(g.theirs, WithFiles(g.ours, plan.merged), FileEntry(plan.merged[i].path, plan.merged[i].bytes))
    {
      MergedEntryIsReady(env, g, plan, i);
    }
  }

  lemma LandingEntriesAreReady(env: Env, g: Three, plan: MergePlan)
    requires ValidThree(g) && IsPlan(env, g, plan)
    ensures AllReady(g.theirs, WithFiles(g.ours, plan.merged), LandingEntries(g.ours, plan))
  {
    TakenEntriesAreReady(env, g, plan);
    MergedEntriesAreReady(env, g, plan);
  }

  lemma LandingEntriesNameRoots(env: Env, g: Three, plan: MergePlan)
    requires ValidThree(g) && IsPlan(env, g, plan)
    ensures NoNesting(EntryPaths(LandingEntries(g.ours, plan)))
    ensures Members(EntryPaths(LandingEntries(g.ours, plan))) == Roots(plan)
  {
    LandingPathsDoNotNest(env, g, plan);
    assert EntryPaths(LandingEntries(g.ours, plan)) == plan.takeOurs + MergedPaths(plan.merged);
  }

  /** Building the merged generation gives what landing gives, in whatever
      order the entries are applied. */
  lemma BuildIsOrderFree(env: Env, g: Three, plan: MergePlan, entries: seq<Entry>)
    requires ValidThree(g) && IsPlan(env, g, plan)
    requires multiset(entries) == multiset(LandingEntries(g.ours, plan))
    ensures PutAll(g.theirs, entries) == Landed(g, plan)
  {
    LandingEntriesNameRoots(env, g, plan);
    LandingEntriesAreReady(env, g, plan);
    PermutedEntries(g.theirs, entries, LandingEntries(g.ours, plan), WithFiles(g.ours, plan.merged));
  }

  lemma {:induction false} PathsOfEntries(entries: seq<Entry>, p: Path)
    ensures p in EntryPaths(entries) <==> exists e :: e in entries && e.path == p
  {
    if p in EntryPaths(entries) {
      var i :| 0 <= i < |entries| && EntryPaths(entries)[i] == p;
      assert entries[i] in entries;
    }
    if exists e :: e in entries && e.path == p {
      var e :| e in entries && e.path == p;
      var i :| 0 <= i < |entries| && entries[i] == e;
      assert EntryPaths(entries)[i] == p;
    }
  }

  /** A reordering of entries for distinct, unnested paths is another such list. */
  lemma SameEntriesSamePaths(entries: seq<Entry>, all: seq<Entry>)
    requires multiset(entries) == multiset(all) && NoNesting(EntryPaths(all))
    ensures NoNesting(EntryPaths(entries))
    ensures Members(EntryPaths(entries)) == Members(EntryPaths(all))
  {
    assert forall e :: e in entries <==> e in multiset(entries);
    assert forall e :: e in all <==> e in multiset(all);
    forall p ensures p in EntryPaths(entries) <==> p in EntryPaths(all) {
      PathsOfEntries(entries, p);
      PathsOfEntries(all, p);
    }
    forall i, j | 0 <= i < |entries| && 0 <= j < |entries| && StartsWith(entries[i].path, entries[j].path)
      ensures i == j
    {
      assert entries[i] in all && entries[j] in all;
      var x :| 0 <= x < |all| && all[x] == entries[i];
      var y :| 0 <= y < |all| && all[y] == entries[j];
      assert StartsWith(EntryPaths(all)[x], EntryPaths(all)[y]);
      assert entries[i] == entries[j];
      if i != j {
        RepeatedTwice(entries, if i < j then i else j, if i < j then j else i);
        RepeatedOnce(all, x);
      }
    }
  }

  lemma RepeatedOnce(all: seq<Entry>, x: nat)
    requires NoNesting(EntryPaths(all)) && x < |all|
    ensures multiset(all)[all[x]] <= 1
  {
    var before, after := all[..x], all[x + 1..];
    assert all == before + [all[x]] + after;
    forall i | 0 <= i < x ensures before[i] != all[x] {
      assert before[i] == all[i];
      assert StartsWith(EntryPaths(all)[i], EntryPaths(all)[x]) || all[i] != all[x];
    }
    forall i | 0 <= i < |after| ensures after[i] != all[x] {
      assert after[i] == all[x + 1 + i];
      assert StartsWith(EntryPaths(all)[x + 1 + i], EntryPaths(all)[x]) || all[x + 1 + i] != all[x];
    }
    assert all[x] !in multiset(before) && all[x] !in multiset(after);
    assert multiset(all) == multiset(before) + multiset{all[x]} + multiset(after);
  }
}
