/** What a failed promote leaves, and what promoting the fork again makes of it:
    a landing that stopped between two paths, and a conflict that was forgotten. */
module Retrying {
  import opened Paths
  import opened Trees
  import opened TextMerge
  import opened Planner
  import opened Landing
  import opened MergeLaws
  import opened FileMerges
  import opened Writing
  import opened Rebasing
  import opened Promotion

  // -------------------------------------------------------------------------
  // A landing that stopped on the way
  // -------------------------------------------------------------------------

  /** The sides of the next promote, when the paths in `done` have landed. */
  ghost function After(g: Three, plan: MergePlan, done: set<Path>): Three {
    g.(theirs := Overlay(g.theirs, WithFiles(g.ours, plan.merged), done))
  }

  /** The fork has a directory where its base had a file or a link. */
  ghost predicate TurnsIntoDir(g: Three, p: Path) {
    Get(g.ours, p) == Some(Dir) && p in g.base && g.base[p] != Dir
  }

  /** Merging the fork's file with the merged one gives the merged one again. */
  ghost predicate Repeats(env: Env, g: Three, m: MergedFile) {
    var b, f := Get(g.base, m.path), Get(g.ours, m.path);
    f == Some(Regular(m.bytes)) ||
    (b != Some(Regular(m.bytes)) &&
     MergeFile(env, ContentOf(b), ContentOf(f), Some(m.bytes)) == Ok(Merged(m.bytes)))
  }

  /** Merging them again does not merge. */
  ghost predicate MergeFails(env: Env, g: Three, m: MergedFile) {
    var b, f := Get(g.base, m.path), Get(g.ours, m.path);
    var r := MergeFile(env, ContentOf(b), ContentOf(f), Some(m.bytes));
    f != Some(Regular(m.bytes)) && b != Some(Regular(m.bytes)) && !(r.Ok? && r.value.Merged?)
  }

  /** What is contested at or beneath what has landed is ignored, and so keeps what
      landed, and every other file merged there merges to the same again. */
  ghost predicate CanBeFinished(env: Env, isIgnored: Path -> bool, g: Three, plan: MergePlan, done: set<Path>) {
    (forall p :: Below(p, done) && TurnsIntoDir(g, p) ==> isIgnored(p)) &&
    (forall m :: m in plan.merged && m.path in done ==>
       Repeats(env, g, m) || (isIgnored(m.path) && MergeFails(env, g, m)))
  }

  ghost predicate Stopped(env: Env, g: Three, plan: MergePlan, done: set<Path>) {
    ValidThree(g) && IsPlan(env, g, plan) && done <= Roots(plan) && ValidThree(After(g, plan, done))
  }

  ghost predicate IsContested(env: Env, g: Three, p: Path) {
    Reached(env, g, p) && Contested(VerdictAt(env, g, p))
  }

  /** Every contested path is ignored: the plan lands. */
  ghost predicate AllIgnored(env: Env, isIgnored: Path -> bool, g: Three) {
    forall p :: IsContested(env, g, p) ==> isIgnored(p)
  }

  /** What the mainline holds at a path that has landed. */
  lemma LandedSoFar(env: Env, g: Three, plan: MergePlan, done: set<Path>, p: Path)
    requires Stopped(env, g, plan, done) && Below(p, done)
    ensures !IsGitInternal(p)
    ensures Get(After(g, plan, done).theirs, p) == Get(Landed(g, plan), p)
    ensures p in MergedPaths(plan.merged) ==> p in done
    ensures p !in MergedPaths(plan.merged) ==> Get(Landed(g, plan), p) == Get(g.ours, p)
  {
    var src := WithFiles(g.ours, plan.merged);
    var r :| r in done && StartsWith(p, r);
    OverlayAt(g.theirs, src, done, p);
    OverlayAt(g.theirs, src, Roots(plan), p);
    assert Below(p, Roots(plan));
    LandingRootsAreDecided(env, g, plan, r);
    ChangesAreInside(g, r);
    GitIsOneSubtree(r, p);
    if p in MergedPaths(plan.merged) {
      RootsArePlanned(plan);
      LandingRootsDoNotNest(env, g, plan);
    } else {
      WithFilesElsewhere(g.ours, plan.merged, p);
    }
  }

  lemma NotLandedYet(g: Three, plan: MergePlan, done: set<Path>, p: Path)
    requires !Below(p, done)
    ensures Get(After(g, plan, done).theirs, p) == Get(g.theirs, p)
  {
    OverlayAt(g.theirs, WithFiles(g.ours, plan.merged), done, p);
  }

  /** No path lands beneath one that only the fork touched. */
  lemma NothingLandsBeneath(env: Env, g: Three, plan: MergePlan, done: set<Path>, p: Path, q: Path)
    requires Stopped(env, g, plan, done) && !Below(p, done) && StartsWith(q, p)
    requires InUnion(g, p) && Touched(g.base, g.ours, p) && !Touched(g.base, g.theirs, p)
    ensures !Below(q, done)
  {
    assert VerdictAt(env, g, p) == TakeOurs;
    forall r | r in done ensures !StartsWith(q, r) {
      LandingRootsAreDecided(env, g, plan, r);
      if StartsWith(q, r) {
        AncestorsAreComparable(p, r, q);
      }
    }
  }

  /** Above a landed path the mainline was touched before the landing too. */
  lemma NothingNewAbove(env: Env, g: Three, plan: MergePlan, done: set<Path>, p: Path)
    requires Stopped(env, g, plan, done) && !Below(p, done)
    requires InUnion(g, p) && Touched(g.base, g.ours, p) && Touched(g.base, After(g, plan, done).theirs, p)
    ensures Touched(g.base, g.theirs, p)
  {
    var q :| Changed(g.base, After(g, plan, done).theirs, q) && StartsWith(q, p);
    if !Touched(g.base, g.theirs, p) {
      NothingLandsBeneath(env, g, plan, done, p, q);
      NotLandedYet(g, plan, done, q);
    }
  }

  lemma TouchedLeaf(before: Tree, after: Tree, p: Path)
    requires WellFormed(before) && WellFormed(after) && p != [] && Touched(before, after, p)
    requires Get(before, p) != Some(Dir) && Get(after, p) != Some(Dir)
    ensures Changed(before, after, p)
  {
    var q :| Changed(before, after, q) && StartsWith(q, p);
    if q != p {
      NothingBelowLeaves(before, p, q);
      NothingBelowLeaves(after, p, q);
    }
  }

  /** A file merged by content was changed by the fork. */
  lemma MergedWasChanged(env: Env, g: Three, plan: MergePlan, m: MergedFile)
    requires ValidThree(g) && IsPlan(env, g, plan) && m in plan.merged
    ensures Changed(g.base, g.ours, m.path)
    ensures Get(g.ours, m.path).Some? && Get(g.ours, m.path).value.Regular?
    ensures Get(g.base, m.path) == None || Get(g.base, m.path).value.Regular?
  {
    MergesNeedBothSides(env, g, plan, m);
    MergedFilesAreRegular(env, g, m.path, m.bytes);
    ChangesAreInside(g, m.path);
    TouchedLeaf(g.base, g.ours, m.path);
  }

  lemma LandedFile(env: Env, g: Three, plan: MergePlan, m: MergedFile)
    requires ValidThree(g) && IsPlan(env, g, plan) && m in plan.merged
    ensures Get(Landed(g, plan), m.path) == Some(Regular(m.bytes)) && m.path in MergedPaths(plan.merged)
  {
    var i :| 0 <= i < |plan.merged| && plan.merged[i] == m;
    assert MergedPaths(plan.merged)[i] == m.path;
    WithFilesAt(g.ours, plan.merged, i);
    RootsArePlanned(plan);
    assert StartsWith(m.path, m.path);
    OverlayAt(g.theirs, WithFiles(g.ours, plan.merged), Roots(plan), m.path);
  }

  /** Repeating a merge is keeping its result as the three-way merge. */
  lemma RepeatingIsKeeping(env: Env, g: Three, plan: MergePlan, m: MergedFile)
    requires ValidThree(g) && IsPlan(env, g, plan) && m in plan.merged
    ensures Repeats(env, g, m) <==>
            ThreeWay(env, Get(g.base, m.path), Get(g.ours, m.path), Some(Regular(m.bytes)), Some(Regular(m.bytes)))
  {
    MergedWasChanged(env, g, plan, m);
  }

  /** A landed file that was merged merges again, if merging repeats. */
  lemma MergesAgain(env: Env, g: Three, plan: MergePlan, done: set<Path>, m: MergedFile)
    requires Stopped(env, g, plan, done) && m in plan.merged && m.path in done && Repeats(env, g, m)
    requires Touched(g.base, After(g, plan, done).theirs, m.path)
    ensures CompatibleAt(env, After(g, plan, done), m.path)
  {
    var p := m.path;
    MergedWasChanged(env, g, plan, m);
    HoldsMerged(env, g, plan, done, m);
    ChangesAreInside(g, p);
    TouchedLeaf(g.base, After(g, plan, done).theirs, p);
    RepeatIsCompatible(env, After(g, plan, done), m);
  }

  lemma RepeatIsCompatible(env: Env, h: Three, m: MergedFile)
    requires Get(h.theirs, m.path) == Some(Regular(m.bytes)) && Get(h.base, m.path) != Get(h.theirs, m.path)
    requires Get(h.ours, m.path).Some? && Get(h.ours, m.path).value.Regular?
    requires Get(h.base, m.path) == None || Get(h.base, m.path).value.Regular?
    requires Repeats(env, h, m)
    ensures CompatibleAt(env, h, m.path)
  {}

  lemma HoldsMerged(env: Env, g: Three, plan: MergePlan, done: set<Path>, m: MergedFile)
    requires Stopped(env, g, plan, done) && m in plan.merged && m.path in done
    ensures Get(After(g, plan, done).theirs, m.path) == Some(Regular(m.bytes)) == Get(Landed(g, plan), m.path)
  {
    assert StartsWith(m.path, m.path) && Below(m.path, done);
    LandedFile(env, g, plan, m);
    LandedSoFar(env, g, plan, done, m.path);
  }

  // What is contested, before and after.

  lemma JudgedAlike(env: Env, b: Option<Node>, f: Option<Node>, h: Option<Node>, x: seq<Path>, y: seq<Path>,
      x': seq<Path>, y': seq<Path>)
    ensures Contested(Judge(env, b, f, h, x, y)) <==> Contested(Judge(env, b, f, h, x', y'))
    ensures Settles(Judge(env, b, f, h, x, y)) <==> Settles(Judge(env, b, f, h, x', y'))
  {}

  /** Outside what has landed, where both sides touch a path, its verdict is of
      the same kind. */
  lemma SameKind(env: Env, g: Three, plan: MergePlan, done: set<Path>, p: Path)
    requires Stopped(env, g, plan, done) && !Below(p, done) && InUnion(g, p)
    requires Touched(g.base, g.ours, p) && Touched(g.base, After(g, plan, done).theirs, p)
    ensures var h := After(g, plan, done);
            Touched(g.base, g.theirs, p) &&
            (Contested(VerdictAt(env, h, p)) <==> Contested(VerdictAt(env, g, p))) &&
            (Settles(VerdictAt(env, h, p)) <==> Settles(VerdictAt(env, g, p)))
  {
    var h := After(g, plan, done);
    NothingNewAbove(env, g, plan, done, p);
    NotLandedYet(g, plan, done, p);
    JudgedAlike(env, Get(g.base, p), Get(g.ours, p), Get(g.theirs, p), Inner(g.base, g.ours, p),
      Inner(g.base, g.theirs, p), Inner(h.base, h.ours, p), Inner(h.base, h.theirs, p));
  }

  lemma SameUnion(g: Three, plan: MergePlan, done: set<Path>, p: Path)
    requires !Below(p, done)
    ensures InUnion(After(g, plan, done), p) <==> InUnion(g, p)
  {
    NotLandedYet(g, plan, done, p);
  }

  /** Above a path that both sides now touch, the walk goes on as it did. */
  lemma StillNotSettled(env: Env, g: Three, plan: MergePlan, done: set<Path>, p: Path, a: Path)
    requires Stopped(env, g, plan, done) && !Below(a, done) && StartsWith(p, a)
    requires var h := After(g, plan, done);
             Touched(h.base, h.ours, p) && Touched(h.base, h.theirs, p) && InUnion(h, a)
    ensures InUnion(g, a) && (Settles(VerdictAt(env, After(g, plan, done), a)) <==> Settles(VerdictAt(env, g, a)))
  {
    var h := After(g, plan, done);
    TouchedAbove(h.base, h.ours, a, p);
    TouchedAbove(h.base, h.theirs, a, p);
    SameUnion(g, plan, done, a);
    SameKind(env, g, plan, done, a);
  }

  lemma ContestedIsTouched(env: Env, g: Three, p: Path)
    requires Contested(VerdictAt(env, g, p))
    ensures Touched(g.base, g.ours, p) && Touched(g.base, g.theirs, p)
  {}

  lemma NotBelowEither(done: set<Path>, p: Path, a: Path)
    requires !Below(p, done) && StartsWith(p, a)
    ensures !Below(a, done)
  {
    forall r | r in done ensures !StartsWith(a, r) {
      assert StartsWith(a, r) ==> StartsWith(p, r);
    }
  }

  /** A path outside what has landed that is contested now was contested before. */
  lemma WasContested(env: Env, g: Three, plan: MergePlan, done: set<Path>, p: Path)
    requires Stopped(env, g, plan, done) && !Below(p, done) && IsContested(env, After(g, plan, done), p)
    ensures IsContested(env, g, p)
  {
    var h := After(g, plan, done);
    ContestedIsTouched(env, h, p);
    SameUnion(g, plan, done, p);
    SameKind(env, g, plan, done, p);
    forall a | InUnion(g, a) && a != p && StartsWith(p, a) ensures !Settles(VerdictAt(env, g, a)) {
      NotBelowEither(done, p, a);
      SameUnion(g, plan, done, a);
      StillNotSettled(env, g, plan, done, p, a);
    }
  }

  /** And the other way round: nothing lands beneath a contested path. */
  lemma StaysContested(env: Env, g: Three, plan: MergePlan, done: set<Path>, p: Path)
    requires Stopped(env, g, plan, done) && !Below(p, done) && IsContested(env, g, p)
    ensures IsContested(env, After(g, plan, done), p)
  {
    var h := After(g, plan, done);
    ContestedIsTouched(env, g, p);
    var q :| Changed(g.base, g.theirs, q) && StartsWith(q, p);
    NothingLandsBeneathContested(env, g, plan, done, p, q);
    NotLandedYet(g, plan, done, q);
    assert Touched(h.base, h.theirs, p);
    SameUnion(g, plan, done, p);
    SameKind(env, g, plan, done, p);
    forall a | InUnion(h, a) && a != p && StartsWith(p, a) ensures !Settles(VerdictAt(env, h, a)) {
      NotBelowEither(done, p, a);
      StillNotSettled(env, g, plan, done, p, a);
    }
  }

  lemma NothingLandsBeneathContested(env: Env, g: Three, plan: MergePlan, done: set<Path>, p: Path, q: Path)
    requires Stopped(env, g, plan, done) && !Below(p, done) && IsContested(env, g, p) && StartsWith(q, p)
    ensures !Below(q, done)
  {
    forall r | r in done ensures !StartsWith(q, r) {
      if StartsWith(q, r) {
        AncestorsAreComparable(p, r, q);
        RootsAreNotContested(env, g, plan, r, r);
      }
    }
  }

  /** What is contested at or beneath what has landed: a directory in the place of
      a file or a link, or a file that does not merge again. */
  lemma ContestedWhereLanded(env: Env, g: Three, plan: MergePlan, done: set<Path>, p: Path)
    requires Stopped(env, g, plan, done) && Below(p, done) && IsContested(env, After(g, plan, done), p)
    ensures if p in MergedPaths(plan.merged) then exists m :: m in plan.merged && m.path == p && MergeFails(env, g, m)
            else TurnsIntoDir(g, p)
  {
    var h := After(g, plan, done);
    ContestedIsTouched(env, h, p);
    ContestedExactlyWhen(env, h, p);
    LandedSoFar(env, g, plan, done, p);
    if p in MergedPaths(plan.merged) {
      var m := MemberOfMerged(env, g, plan, p);
      MergedWasChanged(env, g, plan, m);
      HoldsMerged(env, g, plan, done, m);
      ChangesAreInside(g, p);
      TouchedLeaf(h.base, h.theirs, p);
      FailsOrFits(env, h, m);
    }
  }

  lemma FailsOrFits(env: Env, h: Three, m: MergedFile)
    requires Get(h.theirs, m.path) == Some(Regular(m.bytes)) && Get(h.base, m.path) != Get(h.theirs, m.path)
    requires Get(h.ours, m.path).Some? && Get(h.ours, m.path).value.Regular?
    requires Get(h.base, m.path) == None || Get(h.base, m.path).value.Regular?
    ensures MergeFails(env, h, m) <==> !CompatibleAt(env, h, m.path)
  {}

  /** A root that has landed is still reached, if something at or beneath it is
      changed on both sides. */
  lemma RootStillReached(env: Env, g: Three, plan: MergePlan, done: set<Path>, r: Path, p: Path, a: Path)
    requires Stopped(env, g, plan, done) && r in done && StartsWith(p, r)
    requires var h := After(g, plan, done); Changed(h.base, h.ours, p) && Changed(h.base, h.theirs, p)
    requires InUnion(After(g, plan, done), a) && a != r && StartsWith(r, a)
    ensures !Settles(VerdictAt(env, After(g, plan, done), a))
  {
    var h := After(g, plan, done);
    LandingRootsAreDecided(env, g, plan, r);
    LandingRootsDoNotNest(env, g, plan);
    forall s | s in done ensures !StartsWith(a, s) {
      assert StartsWith(a, s) ==> StartsWith(r, s);
    }
    assert StartsWith(p, p);
    StillNotSettled(env, g, plan, done, p, a);
  }

  /** Both kinds are indeed contested. */
  lemma DirectoryIsContested(env: Env, g: Three, plan: MergePlan, done: set<Path>, p: Path)
    requires Stopped(env, g, plan, done) && Below(p, done) && TurnsIntoDir(g, p)
    ensures IsContested(env, After(g, plan, done), p) && p !in MergedPaths(plan.merged)
  {
    var h := After(g, plan, done);
    var r :| r in done && StartsWith(p, r);
    LandedSoFar(env, g, plan, done, p);
    if p in MergedPaths(plan.merged) {
      var m := MemberOfMerged(env, g, plan, p);
      MergedWasChanged(env, g, plan, m);
    }
    assert StartsWith(p, p) && Changed(h.base, h.ours, p) && Changed(h.base, h.theirs, p);
    ContestedExactlyWhen(env, h, p);
    forall a | InUnion(h, a) && a != p && StartsWith(p, a) ensures !Settles(VerdictAt(env, h, a)) {
      AncestorsAreComparable(a, r, p);
      if StartsWith(a, r) {
        DirectoriesAgree(env, g, plan, done, p, a);
      } else {
        RootStillReached(env, g, plan, done, r, p, a);
      }
    }
  }

  /** Between a landed root and such a directory both sides hold directories. */
  lemma DirectoriesAgree(env: Env, g: Three, plan: MergePlan, done: set<Path>, p: Path, a: Path)
    requires Stopped(env, g, plan, done) && Below(a, done) && StartsWith(p, a) && a != p && a != []
    requires TurnsIntoDir(g, p)
    ensures !Settles(VerdictAt(env, After(g, plan, done), a))
  {
    var h := After(g, plan, done);
    assert ProperAncestor(a, p);
    assert Get(g.ours, a) == Some(Dir) && Get(g.base, a) == Some(Dir);
    LandedSoFar(env, g, plan, done, a);
    if a in MergedPaths(plan.merged) {
      var m := MemberOfMerged(env, g, plan, a);
      MergedWasChanged(env, g, plan, m);
    }
    assert Below(p, done) by {
      var r :| r in done && StartsWith(a, r);
      assert StartsWith(p, r);
    }
    LandedSoFar(env, g, plan, done, p);
    if p in MergedPaths(plan.merged) {
      var m := MemberOfMerged(env, g, plan, p);
      MergedWasChanged(env, g, plan, m);
    }
    assert Changed(h.base, h.ours, p) && Changed(h.base, h.theirs, p);
    assert VerdictAt(env, h, a) == Pass;
  }

  lemma FailureIsContested(env: Env, g: Three, plan: MergePlan, done: set<Path>, m: MergedFile)
    requires Stopped(env, g, plan, done) && m in plan.merged && m.path in done && MergeFails(env, g, m)
    ensures IsContested(env, After(g, plan, done), m.path)
  {
    var h, p := After(g, plan, done), m.path;
    MergedWasChanged(env, g, plan, m);
    HoldsMerged(env, g, plan, done, m);
    assert StartsWith(p, p) && Changed(h.base, h.ours, p) && Changed(h.base, h.theirs, p);
    ContestedExactlyWhen(env, h, p);
    FailsOrFits(env, h, m);
    forall a | InUnion(h, a) && a != p && StartsWith(p, a) ensures !Settles(VerdictAt(env, h, a)) {
      RootStillReached(env, g, plan, done, p, p, a);
    }
  }

  /** A landed file that is not contested lies beneath nothing that is. */
  lemma FileStaysFree(env: Env, g: Three, plan: MergePlan, done: set<Path>, m: MergedFile)
    requires Stopped(env, g, plan, done) && m in plan.merged && m.path in done
    requires !IsContested(env, After(g, plan, done), m.path)
    ensures !UnderContested(env, After(g, plan, done), m.path)
  {
    var h, p := After(g, plan, done), m.path;
    LandingRootsDoNotNest(env, g, plan);
    forall d | IsContested(env, h, d) ensures !StartsWith(p, d) {
      if StartsWith(p, d) {
        forall s | s in done ensures !StartsWith(d, s) {
          assert StartsWith(d, s) ==> StartsWith(p, s);
        }
        WasContested(env, g, plan, done, d);
        RootsAreNotContested(env, g, plan, p, p);
      }
    }
  }

  lemma OneThreeWay(env: Env, b: Option<Node>, f: Option<Node>, h: Option<Node>, r: Option<Node>, s: Option<Node>)
    requires ThreeWay(env, b, f, h, r) && ThreeWay(env, b, f, h, s)
    ensures r == s
  {}

  /** Outside what has landed the second landing leaves what the first would have. */
  lemma SameElsewhere(env: Env, g: Three, plan: MergePlan, done: set<Path>, again: MergePlan, p: Path)
    requires Stopped(env, g, plan, done) && IsPlan(env, After(g, plan, done), again) && !Below(p, done)
    ensures Get(Landed(After(g, plan, done), again), p) == Get(Landed(g, plan), p)
  {
    var h := After(g, plan, done);
    LandingIsThreeWayMerge(env, g, plan, p);
    LandingIsThreeWayMerge(env, h, again, p);
    NotLandedYet(g, plan, done, p);
    if UnderContested(env, g, p) {
      var d :| Reached(env, g, d) && Contested(VerdictAt(env, g, d)) && StartsWith(p, d);
      NotBelowEither(done, p, d);
      StaysContested(env, g, plan, done, d);
    }
    if UnderContested(env, h, p) {
      var d :| Reached(env, h, d) && Contested(VerdictAt(env, h, d)) && StartsWith(p, d);
      NotBelowEither(done, p, d);
      WasContested(env, g, plan, done, d);
    }
    if !IsGitInternal(p) && !UnderContested(env, g, p) {
      OneThreeWay(env, Get(g.base, p), Get(g.ours, p), Get(g.theirs, p), Get(Landed(h, again), p),
        Get(Landed(g, plan), p));
    }
  }

  /** Where it has landed, it leaves that, if the landing can be finished. */
  lemma SameWhereLanded(env: Env, isIgnored: Path -> bool, g: Three, plan: MergePlan, done: set<Path>, again: MergePlan,
      p: Path)
    requires Stopped(env, g, plan, done) && IsPlan(env, After(g, plan, done), again) && Below(p, done)
    requires CanBeFinished(env, isIgnored, g, plan, done)
    ensures Get(Landed(After(g, plan, done), again), p) == Get(Landed(g, plan), p)
  {
    var h := After(g, plan, done);
    LandedSoFar(env, g, plan, done, p);
    LandingIsThreeWayMerge(env, h, again, p);
    if !UnderContested(env, h, p) {
      if p in MergedPaths(plan.merged) {
        var m := MemberOfMerged(env, g, plan, p);
        HoldsMerged(env, g, plan, done, m);
        if MergeFails(env, g, m) {
          FailureIsContested(env, g, plan, done, m);
          assert StartsWith(p, p);
        }
        RepeatingIsKeeping(env, g, plan, m);
      }
      OneThreeWay(env, Get(g.base, p), Get(g.ours, p), Get(h.theirs, p), Get(Landed(h, again), p), Get(h.theirs, p));
    }
  }

  /** Every path contested on the second promote is ignored, if the landing can be
      finished. */
  lemma StillIgnored(env: Env, isIgnored: Path -> bool, g: Three, plan: MergePlan, done: set<Path>)
    requires Stopped(env, g, plan, done) && AllIgnored(env, isIgnored, g)
    requires CanBeFinished(env, isIgnored, g, plan, done)
    ensures AllIgnored(env, isIgnored, After(g, plan, done))
  {
    var h := After(g, plan, done);
    forall p | IsContested(env, h, p) ensures isIgnored(p) {
      if !Below(p, done) {
        WasContested(env, g, plan, done, p);
      } else {
        ContestedWhereLanded(env, g, plan, done, p);
        if p in MergedPaths(plan.merged) {
          var m :| m in plan.merged && m.path == p && MergeFails(env, g, m);
          LandedSoFar(env, g, plan, done, p);
        }
      }
    }
  }

  /** What a finished landing says of one file that was merged. */
  lemma FinishedFile(env: Env, isIgnored: Path -> bool, g: Three, plan: MergePlan, done: set<Path>, again: MergePlan,
      m: MergedFile)
    requires Stopped(env, g, plan, done) && IsPlan(env, After(g, plan, done), again)
    requires AllIgnored(env, isIgnored, After(g, plan, done)) && m in plan.merged && m.path in done
    requires Landed(After(g, plan, done), again) == Landed(g, plan)
    ensures Repeats(env, g, m) || (isIgnored(m.path) && MergeFails(env, g, m))
  {
    var h, p := After(g, plan, done), m.path;
    assert StartsWith(p, p) && Below(p, done);
    HoldsMerged(env, g, plan, done, m);
    LandedFile(env, g, plan, m);
    if IsContested(env, h, p) {
      ContestedWhereLanded(env, g, plan, done, p);
      var n :| n in plan.merged && n.path == p && MergeFails(env, g, n);
      LandedFile(env, g, plan, n);
    } else {
      FileStaysFree(env, g, plan, done, m);
      LandedSoFar(env, g, plan, done, p);
      LandingIsThreeWayMerge(env, h, again, p);
      RepeatingIsKeeping(env, g, plan, m);
    }
  }

  /** A landing stops after some of its paths.  Promoting the fork again lands the
      rest, and ends where the first promote would have, exactly when every file or
      link of the base that the fork turns into a directory at or beneath what has
      landed is ignored, and every file merged there merges to the same again, or
      is ignored and does not merge. */
  lemma RetryFinishesExactlyWhen(env: Env, isIgnored: Path -> bool, g: Three, plan: MergePlan, done: set<Path>,
      again: MergePlan)
    requires Stopped(env, g, plan, done) && AllIgnored(env, isIgnored, g) && IsPlan(env, After(g, plan, done), again)
    ensures var h := After(g, plan, done);
            AllIgnored(env, isIgnored, h) && Landed(h, again) == Landed(g, plan) <==>
            CanBeFinished(env, isIgnored, g, plan, done)
  {
    var h := After(g, plan, done);
    if CanBeFinished(env, isIgnored, g, plan, done) {
      StillIgnored(env, isIgnored, g, plan, done);
      forall p ensures Get(Landed(h, again), p) == Get(Landed(g, plan), p) {
        if Below(p, done) {
          SameWhereLanded(env, isIgnored, g, plan, done, again, p);
        } else {
          SameElsewhere(env, g, plan, done, again, p);
        }
      }
      TreesAgree(Landed(h, again), Landed(g, plan));
    }
    if AllIgnored(env, isIgnored, h) && Landed(h, again) == Landed(g, plan) {
      forall p | Below(p, done) && TurnsIntoDir(g, p) ensures isIgnored(p) {
        DirectoryIsContested(env, g, plan, done, p);
      }
      forall m | m in plan.merged && m.path in done
        ensures Repeats(env, g, m) || (isIgnored(m.path) && MergeFails(env, g, m))
      {
        FinishedFile(env, isIgnored, g, plan, done, again, m);
      }
    }
  }

  /** Onto a mainline that stood still, a landing that wrote everything and then
      failed can be finished exactly when the fork turns no file or link into a
      directory but where it is ignored. */
  lemma WholeLandingRepeatsExactlyWhen(env: Env, isIgnored: Path -> bool, g: Three, plan: MergePlan)
    requires ValidThree(g) && IsPlan(env, g, plan) && g.theirs == g.base
    ensures CanBeFinished(env, isIgnored, g, plan, Roots(plan)) <==>
            forall p :: !IsGitInternal(p) && TurnsIntoDir(g, p) ==> isIgnored(p)
  {
    var src := WithFiles(g.ours, plan.merged);
    UnmovedMainlineTakesFork(env, g, plan, []);
    forall p | !IsGitInternal(p) && TurnsIntoDir(g, p) ensures Below(p, Roots(plan)) {
      UnmovedMainlineTakesFork(env, g, plan, p);
      OverlayAt(g.theirs, src, Roots(plan), p);
    }
    forall p | Below(p, Roots(plan)) ensures !IsGitInternal(p) {
      var r :| r in Roots(plan) && StartsWith(p, r);
      LandingRootsAreDecided(env, g, plan, r);
      ChangesAreInside(g, r);
      GitIsOneSubtree(r, p);
    }
  }

  lemma HaltedIsStopped(env: Env, g: Three, plan: MergePlan, n: nat)
    requires ValidThree(g) && IsPlan(env, g, plan)
    ensures Stopped(env, g, plan, Members(FirstPaths(plan, n)))
    ensures Halted(g, plan, n) == After(g, plan, Members(FirstPaths(plan, n))).theirs
  {
    LandingHalts(env, g, plan, n);
  }

  lemma NoRefusalLeft(refusals: seq<Refusal>, ignored: seq<Path>)
    ensures DropRefusals(refusals, ignored) == [] <==> forall p :: p in RefusedPaths(refusals) ==> p in ignored
  {
    var left := DropRefusals(refusals, ignored);
    if left != [] {
      DropRefusalsMembers(refusals, ignored, left[0]);
      var i :| 0 <= i < |refusals| && refusals[i] == left[0];
      assert RefusedPaths(refusals)[i] == left[0].path;
    } else {
      forall i | 0 <= i < |refusals| ensures refusals[i].path in ignored {
        DropRefusalsMembers(refusals, ignored, refusals[i]);
      }
    }
  }

  lemma NoConflictLeft(files: seq<ConflictedFile>, ignored: seq<Path>)
    ensures DropConflicts(files, ignored) == [] <==> forall p :: p in ConflictedPaths(files) ==> p in ignored
  {
    var left := DropConflicts(files, ignored);
    if left != [] {
      DropConflictsMembers(files, ignored, left[0]);
      var i :| 0 <= i < |files| && files[i] == left[0];
      assert ConflictedPaths(files)[i] == left[0].path;
    } else {
      forall i | 0 <= i < |files| ensures files[i].path in ignored {
        DropConflictsMembers(files, ignored, files[i]);
      }
    }
  }

  /** Nothing contested is left after dropping what is ignored, exactly when all of
      it is. */
  lemma LeavesNothingContested(env: Env, isIgnored: Path -> bool, g: Three, plan: MergePlan)
    requires IsPlan(env, g, plan)
    ensures var rest := WithoutIgnored(plan, ContestedPaths(isIgnored, plan));
            rest.refusals == [] && rest.conflicted == [] <==> AllIgnored(env, isIgnored, g)
  {
    var refused, conflicted, ignored :=
      RefusedPaths(plan.refusals), ConflictedPaths(plan.conflicted), ContestedPaths(isIgnored, plan);
    NoRefusalLeft(plan.refusals, ignored);
    NoConflictLeft(plan.conflicted, ignored);
    forall p ensures p in refused || p in conflicted <==> IsContested(env, g, p) {
      ListedPaths(env, g, plan, p);
    }
    assert forall p :: p in ignored <==> p in refused + conflicted && isIgnored(p);
  }

  /** The second promote after a landing stopped. */
  lemma RetryOutcome(env: Env, isIgnored: Path -> bool, f: Fork, head: Tree, plan: MergePlan, n: nat,
      again: MergePlan, r: Outcome, now: Tree)
    requires ValidFork(f) && WellFormed(head) && f.pending && f.conflict == None
    requires IsPlan(env, Sides(f, head), plan) && AllIgnored(env, isIgnored, Sides(f, head))
    requires Promoted(env, isIgnored, f, Halted(Sides(f, head), plan, n), again, None, r, now)
    ensures (r == Nothing || r.Replayed?) && now == Landed(Sides(f, head), plan) <==>
            CanBeFinished(env, isIgnored, Sides(f, head), plan, Members(FirstPaths(plan, n)))
  {
    var g, done := Sides(f, head), Members(FirstPaths(plan, n));
    HaltedIsStopped(env, g, plan, n);
    assert After(g, plan, done) == Sides(f, Halted(g, plan, n));
    RetryFinishesExactlyWhen(env, isIgnored, g, plan, done, again);
    SecondOutcome(env, isIgnored, f, Halted(g, plan, n), again, r, now);
  }

  /** A promote with nothing failing lands exactly when every contested path is
      ignored. */
  lemma SecondOutcome(env: Env, isIgnored: Path -> bool, f: Fork, head: Tree, plan: MergePlan, r: Outcome, now: Tree)
    requires ValidFork(f) && WellFormed(head) && f.pending && f.conflict == None
    requires Promoted(env, isIgnored, f, head, plan, None, r, now)
    ensures r == Nothing || r.Replayed? ==>
      AllIgnored(env, isIgnored, Sides(f, head)) && now == Landed(Sides(f, head), plan)
    ensures !(r == Nothing || r.Replayed?) ==> !AllIgnored(env, isIgnored, Sides(f, head))
  {
    LeavesNothingContested(env, isIgnored, Sides(f, head), plan);
    if r == Nothing {
      NothingToLand(Sides(f, head), plan);
    }
  }

  /** A promote stops after `written` landing paths and is made again.  The daemon
      keeps the fork as still promotable; that is so exactly when what has landed
      can be merged with the fork once more. */
  method PromoteAgainAfterStop(server: Server, id: ForkId, written: nat)
    returns (first: Outcome, second: Outcome, ghost plan: MergePlan)
    requires server.Valid() && id in server.forks && server.forks[id].conflict == None
    modifies server`forks, server.tree
    ensures server.Valid()
    ensures OutcomeFor(server.utf8, server.isIgnored, old(server.forks)[id], plan, Some(Restoring(written)), first)
    ensures old(server.forks)[id].pending ==>
      IsPlan(server.EnvFor(id), Sides(old(server.forks)[id], old(server.tree.nodes)), plan)
    ensures first == Failed ==> (second == Nothing || second.Replayed? <==> id !in server.forks)
    ensures first == Failed ==>
      var g := Sides(old(server.forks)[id], old(server.tree.nodes));
      id !in server.forks && server.tree.nodes == Landed(g, plan) <==>
      CanBeFinished(server.EnvFor(id), server.isIgnored, g, plan, Members(FirstPaths(plan, written)))
  {
    ghost var f, head := server.forks[id], server.tree.nodes;
    first, plan := server.Promote(id, Some(Restoring(written)));
    second := first;
    if first == Failed {
      assert server.forks[id] == f;
      LeavesNothingContested(server.EnvFor(id), server.isIgnored, Sides(f, head), plan);
      ghost var again;
      second, again := server.Promote(id, None);
      RetryOutcome(server.EnvFor(id), server.isIgnored, f, head, plan, written, again, second, server.tree.nodes);
    }
  }

  // -------------------------------------------------------------------------
  // A conflict that is forgotten
  // -------------------------------------------------------------------------

  /** The fork sits on the present head with marked files in it.  A promote that
      cannot even read the workspace is no refusal over markers, so the open
      conflict is dropped with the error, and the next promote lands the marked
      files.  Any other promote is refused for them, and so is the next. */
  method PromoteMarkedAfterFailure(server: Server, id: ForkId, failure: Failure)
    returns (first: Outcome, second: Outcome, ghost open: seq<Path>)
    requires server.Valid() && id in server.forks && server.forks[id].base == server.tree.nodes
    requires Unresolved(server.utf8, server.forks[id]) != []
    modifies server`forks, server.tree
    ensures server.Valid() && open == Unresolved(server.utf8, old(server.forks)[id])
    ensures id !in server.forks <==> (failure == Reading && (!old(server.forks)[id].mounted ||
                                                             old(server.forks)[id].pending))
    ensures id in server.forks ==>
      first == second == Refused(UnresolvedMarkers(open)) && server.tree.nodes == old(server.tree.nodes)
    ensures id !in server.forks ==>
      first == Failed && !second.Refused? && !second.Conflict? &&
      ContentOfBoth(server.tree.nodes, old(server.forks)[id].workspace, old(server.tree.nodes))
    ensures id !in server.forks && old(server.forks)[id].pending ==>
      forall p :: p in open && !IsGitInternal(p) ==> HoldsOpenBlock(server.utf8, server.tree.nodes, p)
  {
    ghost var f := server.forks[id];
    ghost var plan;
    open := Unresolved(server.utf8, f);
    forall p | p in open && f.pending ensures HoldsOpenBlock(server.utf8, f.workspace, p) {
      UnresolvedExactly(server.utf8, f, p);
    }
    first, plan := server.Promote(id, Some(failure));
    second := PromoteOntoUnmoved(server, id);
  }
}
