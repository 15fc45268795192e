/** A conflicting promote: the generation with conflict markers written into
    it, and the fork's workspace moved onto that generation by writing only the
    subtree roots of their difference. */
module Rebasing {
  import opened Paths
  import opened Trees
  import opened TextMerge
  import opened Planner
  import opened Landing
  import opened MergeLaws
  import opened Writing

  // -------------------------------------------------------------------------
  // Writing files over leaves
  // -------------------------------------------------------------------------

  /** A file can be put at `p`: its directories are there and nothing is below. */
  ghost predicate FileFits(t: Tree, p: Path) {
    ParentsInPlace(t, p) && p != [] && Get(t, p) != Some(Dir)
  }

  lemma PutFileIsUpdate(t: Tree, p: Path, bytes: Bytes)
    requires WellFormed(t) && FileFits(t, p)
    ensures Put(t, FileEntry(p, bytes)) == t[p := Regular(bytes)]
    ensures WellFormed(t[p := Regular(bytes)])
  {
    MakeParentsIsIdle(t, p);
    var e := FileEntry(p, bytes);
    forall q ensures Get(Put(t, e), q) == Get(t[p := Regular(bytes)], q) {
      ReplaceAt(t, e.source, p, q);
      if StartsWith(q, p) && q != p { NothingBelowLeaves(t, p, q); }
    }
    TreesAgree(Put(t, e), t[p := Regular(bytes)]);
    var u := t[p := Regular(bytes)];
    forall q, a | q in u && ProperAncestor(a, q) ensures a in u && u[a] == Dir {
      assert Get(t, a) == Some(Dir);
    }
  }

  lemma {:induction false} FileStillFits(t: Tree, files: seq<MergedFile>, p: Path)
    requires FileFits(t, p) && forall m :: m in files ==> !StartsWith(p, m.path)
    ensures FileFits(WithFiles(t, files), p)
  {
    forall a | StartsWith(p, a) ensures a !in MergedPaths(files) {
      forall i | 0 <= i < |files| ensures MergedPaths(files)[i] != a {
        assert files[i] in files;
      }
    }
    forall a | ProperAncestor(a, p) ensures Get(WithFiles(t, files), a) == Some(Dir) {
      WithFilesElsewhere(t, files, a);
      assert Get(t, a) == Some(Dir);
    }
    WithFilesElsewhere(t, files, p);
  }

  lemma LastFileIsApart(files: seq<MergedFile>)
    requires files != [] && NoNesting(MergedPaths(files))
    ensures var k := |files| - 1;
            NoNesting(MergedPaths(files[..k])) &&
            forall m :: m in files[..k] ==> m in files && !StartsWith(files[k].path, m.path)
  {
    var k := |files| - 1;
    assert MergedPaths(files[..k]) == MergedPaths(files)[..k];
    LastDoesNotNest(MergedPaths(files));
    forall m | m in files[..k] ensures m in files && !StartsWith(files[k].path, m.path) {
      var i :| 0 <= i < k && files[..k][i] == m;
      assert MergedPaths(files)[..k][i] in Members(MergedPaths(files)[..k]);
    }
  }

  /** Files written over leaves change exactly those leaves. */
  lemma {:induction false} FilesLandOnLeaves(t: Tree, files: seq<MergedFile>)
    requires WellFormed(t) && NoNesting(MergedPaths(files))
    requires forall m :: m in files ==> FileFits(t, m.path)
    ensures PutAll(t, FileEntries(files)) == WithFiles(t, files)
    ensures WellFormed(WithFiles(t, files))
  {
    if files != [] {
      var k := |files| - 1;
      var init, last := files[..k], files[k];
      LastFileIsApart(files);
      FilesLandOnLeaves(t, init);
      assert FileEntries(files)[..k] == FileEntries(init);
      assert last in files;
      FileStillFits(t, init, last.path);
      PutFileIsUpdate(WithFiles(t, init), last.path, last.bytes);
    }
  }

  // -------------------------------------------------------------------------
  // The rebased generation
  // -------------------------------------------------------------------------

  /** The conflicted files with their marked contents. */
  function Marks(files: seq<ConflictedFile>): (r: seq<MergedFile>)
    ensures |r| == |files| && forall i :: 0 <= i < |r| ==> r[i] == MergedFile(files[i].path, files[i].marked)
  {
    seq(|files|, i requires 0 <= i < |files| => MergedFile(files[i].path, files[i].marked))
  }

  /** The mainline with the fork's changes, the merged files and the markers. */
  ghost function Rebased(g: Three, plan: MergePlan, conflicts: seq<ConflictedFile>): Tree {
    WithFiles(Landed(g, plan), Marks(conflicts))
  }

  lemma ConflictFits(env: Env, g: Three, plan: MergePlan, c: ConflictedFile)
    requires ValidThree(g) && IsPlan(env, g, plan) && c in plan.conflicted
    ensures FileFits(Landed(g, plan), c.path)
    ensures Decided(env, g, c.path)
  {
    ConflictsComeFromFiles(env, g, plan, c);
    assert ReachedWith(env, g, c.path, Content(Conflicted(c.marked, c.hunks, c.kind)));
    ChangesAreInside(g, c.path);
    if c.path in g.ours {
      ParentsOfReached(env, g, c.path);
    }
    assert ParentsInPlace(g.theirs, c.path);
    forall r | r in Roots(plan) ensures !StartsWith(c.path, r) {
      LandingRootsAreDecided(env, g, plan, r);
      if StartsWith(c.path, r) {
        DecidedPathsDoNotNest(env, g, r, c.path);
        if r !in plan.takeOurs { var m := MemberOfMerged(env, g, plan, r); }
      }
    }
    OverlayKeepsParents(g.theirs, WithFiles(g.ours, plan.merged), Roots(plan), c.path);
    OverlayAt(g.theirs, WithFiles(g.ours, plan.merged), Roots(plan), c.path);
  }

  lemma {:induction false} SomeConflicts(files: seq<ConflictedFile>, ignored: seq<Path>)
    requires Ascending(ConflictedPaths(files))
    ensures Ascending(ConflictedPaths(DropConflicts(files, ignored)))
  {
    if files != [] {
      var k := |files| - 1;
      var init := files[..k];
      var kept := DropConflicts(init, ignored);
      assert ConflictedPaths(init) == ConflictedPaths(files)[..k];
      SomeConflicts(init, ignored);
      if files[k].path !in ignored {
        forall q | q in ConflictedPaths(kept) ensures PathLess(q, files[k].path) {
          var i :| 0 <= i < |kept| && kept[i].path == q;
          DropConflictsMembers(init, ignored, kept[i]);
          var j :| 0 <= j < k && files[j] == kept[i];
          assert PathLess(ConflictedPaths(files)[j], ConflictedPaths(files)[k]);
        }
        AscendingAppend(ConflictedPaths(kept), files[k].path);
        assert ConflictedPaths(DropConflicts(files, ignored)) == ConflictedPaths(kept) + [files[k].path];
      } else {
        assert DropConflicts(files, ignored) == kept;
      }
    }
  }

  lemma ConflictsDoNotNest(env: Env, g: Three, plan: MergePlan, ignored: seq<Path>)
    requires ValidThree(g) && IsPlan(env, g, plan)
    ensures var marks := Marks(DropConflicts(plan.conflicted, ignored));
            Ascending(MergedPaths(marks)) && NoNesting(MergedPaths(marks))
  {
    var conflicts := DropConflicts(plan.conflicted, ignored);
    var paths := MergedPaths(Marks(conflicts));
    SomeConflicts(plan.conflicted, ignored);
    assert paths == ConflictedPaths(conflicts);
    AscendingIsOnce(paths);
    forall i, j | 0 <= i < |paths| && 0 <= j < |paths| && StartsWith(paths[i], paths[j]) ensures i == j {
      DropConflictsMembers(plan.conflicted, ignored, conflicts[i]);
      DropConflictsMembers(plan.conflicted, ignored, conflicts[j]);
      ConflictFits(env, g, plan, conflicts[i]);
      ConflictFits(env, g, plan, conflicts[j]);
      DecidedPathsDoNotNest(env, g, paths[j], paths[i]);
    }
  }

  /** The rebased generation is well formed, holds the marked text at every
      open conflict and what would have landed everywhere else; it is what
      applying the conflict entries to the merged generation builds. */
  lemma RebasedHoldsMarks(env: Env, g: Three, plan: MergePlan, ignored: seq<Path>)
    requires ValidThree(g) && IsPlan(env, g, plan)
    ensures var conflicts := DropConflicts(plan.conflicted, ignored);
            var r := Rebased(g, plan, conflicts);
            WellFormed(r) && PutAll(Landed(g, plan), FileEntries(Marks(conflicts))) == r &&
            (forall i :: 0 <= i < |conflicts| ==> Get(r, conflicts[i].path) == Some(Regular(conflicts[i].marked))) &&
            (forall p :: p !in ConflictedPaths(conflicts) ==> Get(r, p) == Get(Landed(g, plan), p))
  {
    var conflicts := DropConflicts(plan.conflicted, ignored);
    var marks, t := Marks(conflicts), Landed(g, plan);
    LandedIsWellFormed(env, g, plan);
    ConflictsDoNotNest(env, g, plan, ignored);
    forall m | m in marks ensures FileFits(t, m.path) {
      var i :| 0 <= i < |marks| && marks[i] == m;
      DropConflictsMembers(plan.conflicted, ignored, conflicts[i]);
      ConflictFits(env, g, plan, conflicts[i]);
    }
    FilesLandOnLeaves(t, marks);
    forall i | 0 <= i < |conflicts|
      ensures Get(WithFiles(t, marks), conflicts[i].path) == Some(Regular(conflicts[i].marked))
    {
      WithFilesAt(t, marks, i);
    }
    forall p | p !in ConflictedPaths(conflicts) ensures Get(WithFiles(t, marks), p) == Get(t, p) {
      assert MergedPaths(marks) == ConflictedPaths(conflicts);
      WithFilesElsewhere(t, marks, p);
    }
  }

  // -------------------------------------------------------------------------
  // Moving a workspace onto another generation
  // -------------------------------------------------------------------------

  /** `t` holds the content of `r`, except under `.git`, which stays `f`'s. */
  ghost predicate ContentOfBoth(t: Tree, r: Tree, f: Tree) {
    forall p :: Get(t, p) == Get(if IsGitInternal(p) then f else r, p)
  }

  lemma RootIsRestorable(f: Tree, r: Tree, changed: seq<Path>, roots: seq<Path>, p: Path)
    requires WellFormed(f) && WellFormed(r)
    requires forall q :: q in changed <==> Changed(f, r, q)
    requires NoNesting(roots) && Covers(roots, changed) && p in roots && p in changed
    ensures p != [] && Restorable(f, r, p)
  {
    if p in r {
      forall a | ProperAncestor(a, p) ensures Get(f, a) == Some(Dir) {
        assert Get(r, a) == Some(Dir);
        GitIsOneSubtree(a, p);
        if Get(f, a) != Some(Dir) {
          assert a in changed && CoveredBy(a, roots);
          var s :| s in roots && StartsWith(a, s);
          var i :| 0 <= i < |roots| && roots[i] == p;
          var j :| 0 <= j < |roots| && roots[j] == s;
          assert StartsWith(roots[i], roots[j]);
        }
      }
    }
  }

  lemma ChangesAreCovered(f: Tree, r: Tree, changed: seq<Path>, roots: seq<Path>, p: Path)
    requires forall q :: q in changed <==> Changed(f, r, q)
    requires Covers(roots, changed)
    ensures Changed(f, r, p) ==> Below(p, Members(roots))
  {
    if Changed(f, r, p) {
      assert CoveredBy(p, roots);
      var s :| s in roots && StartsWith(p, s);
      assert s in Members(roots);
    }
  }

  /** None of the writes of a rebase can fail, and after any number of them the
      workspace is well formed and whole subtrees of it are the target's. */
  lemma RebaseGoesOn(f: Tree, r: Tree, changed: seq<Path>, roots: seq<Path>, n: nat)
    requires WellFormed(f) && WellFormed(r) && n <= |roots|
    requires forall q :: q in changed <==> Changed(f, r, q)
    requires NoNesting(roots) && Covers(roots, changed) && forall p :: p in roots ==> p in changed
    ensures RestoreAll(f, r, roots[..n]) == (true, Overlay(f, r, Members(roots[..n])))
    ensures WellFormed(Overlay(f, r, Members(roots[..n])))
  {
    var done := roots[..n];
    forall p | p in done ensures p != [] && Restorable(f, r, p) {
      assert p in roots;
      RootIsRestorable(f, r, changed, roots, p);
    }
    assert NoNesting(done) by {
      forall i, j | 0 <= i < n && 0 <= j < n && StartsWith(done[i], done[j]) ensures i == j {
        assert StartsWith(roots[i], roots[j]);
      }
    }
    RestoreAllIsOverlay(f, r, done);
    forall a, b | a in Members(done) && b in Members(done) && StartsWith(a, b) ensures a == b {
      var i :| 0 <= i < |done| && done[i] == a;
      var j :| 0 <= j < |done| && done[j] == b;
      assert StartsWith(done[i], done[j]);
    }
    forall p | p in Members(done) && p in r ensures ParentsInPlace(f, p) {
      assert Restorable(f, r, p);
    }
    OverlayIsWellFormed(f, r, Members(done));
  }

  /** Writing only the subtree roots of the difference makes the workspace equal
      to the target. */
  lemma RebaseReaches(f: Tree, r: Tree, changed: seq<Path>, roots: seq<Path>)
    requires WellFormed(f) && WellFormed(r)
    requires forall q :: q in changed <==> Changed(f, r, q)
    requires NoNesting(roots) && Covers(roots, changed) && forall p :: p in roots ==> p in changed
    ensures RestoreAll(f, r, roots).0
    ensures WellFormed(RestoreAll(f, r, roots).1)
    ensures ContentOfBoth(RestoreAll(f, r, roots).1, r, f)
  {
    assert roots[..|roots|] == roots;
    RebaseGoesOn(f, r, changed, roots, |roots|);
    var t := Overlay(f, r, Members(roots));
    forall p ensures Get(t, p) == Get(if IsGitInternal(p) then f else r, p) {
      OverlayAt(f, r, Members(roots), p);
      ChangesAreCovered(f, r, changed, roots, p);
      if Below(p, Members(roots)) {
        var s :| s in Members(roots) && StartsWith(p, s);
        GitIsOneSubtree(s, p);
      }
    }
  }
}
