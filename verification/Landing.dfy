/** What a merge plan does to the mainline: the planned paths partition the
    changes, writing them back computes the three-way merge of every path, and
    no write can fail or leave a malformed tree. */
module Landing {
  import opened Paths
  import opened Trees
  import opened TextMerge
  import opened Planner

  /** A reached path about which the plan says something. */
  ghost predicate Decided(env: Env, g: Three, p: Path) {
    Reached(env, g, p) && VerdictAt(env, g, p) != Pass
  }

  // -------------------------------------------------------------------------
  // The decided paths partition the changes
  // -------------------------------------------------------------------------

  lemma ChangesAreInside(g: Three, p: Path)
    requires ValidThree(g) && InUnion(g, p)
    ensures p != [] && !IsGitInternal(p)
  {}

  lemma UntouchedBelow(before: Tree, after: Tree, p: Path, q: Path)
    requires !Touched(before, after, p) && p != [] && !IsGitInternal(p) && StartsWith(q, p)
    ensures Get(before, q) == Get(after, q)
  {
    GitIsOneSubtree(p, q);
    assert !Changed(before, after, q);
  }

  /** Where the plan stays silent, both sides hold the same. */
  lemma PassMeansAgreement(env: Env, g: Three, p: Path)
    requires InUnion(g, p) && VerdictAt(env, g, p) == Pass
    ensures Get(g.ours, p) == Get(g.theirs, p)
  {}

  /** A verdict about one file only is given where no side has a directory. */
  lemma SingleFileVerdicts(env: Env, g: Three, p: Path)
    requires VerdictAt(env, g, p).Content? || (VerdictAt(env, g, p).Refuse? && !Settles(VerdictAt(env, g, p)))
    ensures Get(g.ours, p) != Some(Dir) && Get(g.theirs, p) != Some(Dir)
  {}

  lemma SilentBelowLeaves(env: Env, g: Three, p: Path, q: Path)
    requires ValidThree(g) && InUnion(g, q) && p != [] && StartsWith(q, p) && q != p
    requires Get(g.ours, p) != Some(Dir) && Get(g.theirs, p) != Some(Dir)
    ensures VerdictAt(env, g, q) == Pass
    ensures q !in g.ours && q !in g.theirs
  {
    NothingBelowLeaves(g.ours, p, q);
    NothingBelowLeaves(g.theirs, p, q);
    assert Changed(g.base, g.ours, q) && Changed(g.base, g.theirs, q);
    assert StartsWith(q, q);
  }

  /** No decided path lies beneath another. */
  lemma DecidedPathsDoNotNest(env: Env, g: Three, p: Path, q: Path)
    requires ValidThree(g) && Decided(env, g, p) && Decided(env, g, q) && StartsWith(q, p)
    ensures p == q
  {
    if p != q {
      ChangesAreInside(g, p);
      SingleFileVerdicts(env, g, p);
      SilentBelowLeaves(env, g, p, q);
    }
  }

  /** Every changed path lies at or beneath a decided one, or holds the same
      on both sides. */
  lemma EveryChangeIsDecided(env: Env, g: Three, q: Path)
    requires ValidThree(g) && InUnion(g, q)
    ensures Get(g.ours, q) == Get(g.theirs, q) || exists p :: Decided(env, g, p) && StartsWith(q, p)
  {
    if Reached(env, g, q) {
      if VerdictAt(env, g, q) == Pass {
        PassMeansAgreement(env, g, q);
      } else {
        assert Decided(env, g, q) && StartsWith(q, q);
      }
    } else {
      var a := SettledAbove(env, g, q);
      assert Decided(env, g, a);
    }
  }

  // -------------------------------------------------------------------------
  // Where planned paths sit
  // -------------------------------------------------------------------------

  lemma NothingToTouch(before: Tree, after: Tree, a: Path)
    requires WellFormed(before) && WellFormed(after) && a != [] && a !in before && a !in after
    ensures !Touched(before, after, a)
  {
    forall q | StartsWith(q, a) ensures !Changed(before, after, q) {
      if q != a {
        NothingBelowLeaves(before, a, q);
        NothingBelowLeaves(after, a, q);
      }
    }
  }

  lemma AncestorIsDirectory(env: Env, g: Three, p: Path, a: Path)
    requires ValidThree(g) && Reached(env, g, p) && p in g.ours && ProperAncestor(a, p)
    ensures Get(g.theirs, a) == Some(Dir)
  {
    ChangesAreInside(g, p);
    GitIsOneSubtree(a, p);
    assert Get(g.ours, a) == Some(Dir);
    if a !in g.base && a !in g.theirs {
      NothingToTouch(g.base, g.theirs, a);
    }
    assert InUnion(g, a) ==> !Settles(VerdictAt(env, g, a));
  }

  /** Whatever the plan takes from the fork has its directories on the
      mainline already. */
  lemma ParentsOfReached(env: Env, g: Three, p: Path)
    requires ValidThree(g) && Reached(env, g, p) && p in g.ours
    ensures ParentsInPlace(g.theirs, p)
  {
    forall a | ProperAncestor(a, p) ensures Get(g.theirs, a) == Some(Dir) {
      AncestorIsDirectory(env, g, p, a);
    }
  }

  /** A path taken from the fork that the fork no longer has is still on the
      mainline, so removing it finds something to remove. */
  lemma DeletionsFindTheirTarget(env: Env, g: Three, p: Path)
    requires ValidThree(g) && ReachedWith(env, g, p, TakeOurs) && p !in g.ours
    ensures p in g.theirs
  {
    ChangesAreInside(g, p);
    assert !Touched(g.base, g.theirs, p);
    assert Touched(g.base, g.ours, p);
    var q :| Changed(g.base, g.ours, q) && StartsWith(q, p);
    if q != p {
      NothingBelowLeaves(g.ours, p, q);
      assert ProperAncestor(p, q);
    }
    assert p in g.base;
    UntouchedBelow(g.base, g.theirs, p, p);
  }

  // -------------------------------------------------------------------------
  // Dropping contested paths, and the paths that land
  // -------------------------------------------------------------------------

  function DropRefusals(refusals: seq<Refusal>, ignored: seq<Path>): seq<Refusal> {
    if refusals == [] then []
    else
      var k := |refusals| - 1;
      DropRefusals(refusals[..k], ignored) + (if refusals[k].path in ignored then [] else [refusals[k]])
  }

  lemma {:induction false} DropRefusalsMembers(refusals: seq<Refusal>, ignored: seq<Path>, x: Refusal)
    ensures x in DropRefusals(refusals, ignored) <==> x in refusals && x.path !in ignored
  {
    if refusals != [] {
      var k := |refusals| - 1;
      DropRefusalsMembers(refusals[..k], ignored, x);
      assert refusals == refusals[..k] + [refusals[k]];
    }
  }

  function DropConflicts(files: seq<ConflictedFile>, ignored: seq<Path>): seq<ConflictedFile> {
    if files == [] then []
    else
      var k := |files| - 1;
      DropConflicts(files[..k], ignored) + (if files[k].path in ignored then [] else [files[k]])
  }

  lemma {:induction false} DropConflictsMembers(files: seq<ConflictedFile>, ignored: seq<Path>, x: ConflictedFile)
    ensures x in DropConflicts(files, ignored) <==> x in files && x.path !in ignored
  {
    if files != [] {
      var k := |files| - 1;
      DropConflictsMembers(files[..k], ignored, x);
      assert files == files[..k] + [files[k]];
    }
  }

  lemma {:induction false} DropRefusalsKeepsOrder(refusals: seq<Refusal>, ignored: seq<Path>)
    requires Ascending(RefusedPaths(refusals))
    ensures Ascending(RefusedPaths(DropRefusals(refusals, ignored)))
  {
    if refusals != [] {
      var k := |refusals| - 1;
      var paths, rest := RefusedPaths(refusals), DropRefusals(refusals[..k], ignored);
      assert RefusedPaths(refusals[..k]) == paths[..k];
      DropRefusalsKeepsOrder(refusals[..k], ignored);
      forall q | q in RefusedPaths(rest) ensures PathLess(q, paths[k]) {
        var i :| 0 <= i < |rest| && rest[i].path == q;
        DropRefusalsMembers(refusals[..k], ignored, rest[i]);
        var j :| 0 <= j < k && refusals[j] == rest[i];
        assert paths[j] == q;
      }
      AscendingAppend(RefusedPaths(rest), paths[k]);
      assert RefusedPaths(rest + [refusals[k]]) == RefusedPaths(rest) + [paths[k]];
    }
  }

  lemma {:induction false} DropConflictsKeepsOrder(files: seq<ConflictedFile>, ignored: seq<Path>)
    requires Ascending(ConflictedPaths(files))
    ensures Ascending(ConflictedPaths(DropConflicts(files, ignored)))
  {
    if files != [] {
      var k := |files| - 1;
      var paths, rest := ConflictedPaths(files), DropConflicts(files[..k], ignored);
      assert ConflictedPaths(files[..k]) == paths[..k];
      DropConflictsKeepsOrder(files[..k], ignored);
      forall q | q in ConflictedPaths(rest) ensures PathLess(q, paths[k]) {
        var i :| 0 <= i < |rest| && rest[i].path == q;
        DropConflictsMembers(files[..k], ignored, rest[i]);
        var j :| 0 <= j < k && files[j] == rest[i];
        assert paths[j] == q;
      }
      AscendingAppend(ConflictedPaths(rest), paths[k]);
      assert ConflictedPaths(rest + [files[k]]) == ConflictedPaths(rest) + [paths[k]];
    }
  }

  function WithoutIgnored(plan: MergePlan, ignored: seq<Path>): MergePlan {
    plan.(refusals := DropRefusals(plan.refusals, ignored), conflicted := DropConflicts(plan.conflicted, ignored))
  }

  method RetainRefusals(refusals: seq<Refusal>, ignored: seq<Path>) returns (rest: seq<Refusal>, dropped: seq<Path>)
    ensures rest == DropRefusals(refusals, ignored)
    ensures forall p :: p in dropped <==> p in ignored && p in RefusedPaths(refusals)
  {
    rest, dropped := [], [];
    var paths := RefusedPaths(refusals);
    for i := 0 to |refusals|
      invariant rest == DropRefusals(refusals[..i], ignored)
      invariant forall p :: p in dropped <==> p in ignored && p in paths[..i]
    {
      assert refusals[..i + 1][..i] == refusals[..i];
      assert paths[..i + 1] == paths[..i] + [refusals[i].path];
      if refusals[i].path in ignored {
        dropped := dropped + [refusals[i].path];
      } else {
        rest := rest + [refusals[i]];
      }
    }
    assert paths[..|paths|] == paths && refusals[..|refusals|] == refusals;
  }

  method RetainConflicts(files: seq<ConflictedFile>, ignored: seq<Path>)
    returns (rest: seq<ConflictedFile>, dropped: seq<Path>)
    ensures rest == DropConflicts(files, ignored)
    ensures forall p :: p in dropped <==> p in ignored && p in ConflictedPaths(files)
  {
    rest, dropped := [], [];
    var paths := ConflictedPaths(files);
    for i := 0 to |files|
      invariant rest == DropConflicts(files[..i], ignored)
      invariant forall p :: p in dropped <==> p in ignored && p in paths[..i]
    {
      assert files[..i + 1][..i] == files[..i];
      assert paths[..i + 1] == paths[..i] + [files[i].path];
      if files[i].path in ignored {
        dropped := dropped + [files[i].path];
      } else {
        rest := rest + [files[i]];
      }
    }
    assert paths[..|paths|] == paths && files[..|files|] == files;
  }

  /** Drops refusals and conflicts on ignored paths and names what it dropped. */
  method KeepMainlineFor(plan: MergePlan, ignored: seq<Path>) returns (rest: MergePlan, kept: seq<Path>)
    ensures rest == WithoutIgnored(plan, ignored)
    ensures Sorted(kept)
    ensures forall p :: p in kept <==>
      p in ignored && (p in RefusedPaths(plan.refusals) || p in ConflictedPaths(plan.conflicted))
  {
    var refusals, refused := RetainRefusals(plan.refusals, ignored);
    var conflicted, conflicts := RetainConflicts(plan.conflicted, ignored);
    rest := plan.(refusals := refusals, conflicted := conflicted);
    SortKeepsMembers(refused + conflicts);
    kept := Sort(refused + conflicts);
  }

  /** The paths a landing writes. */
  function LandingPaths(plan: MergePlan): seq<Path> {
    Sort(plan.takeOurs + MergedPaths(plan.merged))
  }

  predicate LandsNothing(plan: MergePlan) {
    plan.takeOurs == [] && plan.merged == [] && plan.conflicted == []
  }

  /** The fork with the merged files in place of its own: what lands. */
  function WithFiles(t: Tree, files: seq<MergedFile>): Tree {
    if files == [] then t
    else
      var last := files[|files| - 1];
      WithFiles(t, files[..|files| - 1])[last.path := Regular(last.bytes)]
  }

  ghost function Roots(plan: MergePlan): set<Path> {
    set p | p in LandingPaths(plan)
  }

  /** The mainline after landing. */
  ghost function Landed(g: Three, plan: MergePlan): Tree {
    Overlay(g.theirs, WithFiles(g.ours, plan.merged), Roots(plan))
  }

  lemma RootsArePlanned(plan: MergePlan)
    ensures forall p :: p in Roots(plan) <==> p in plan.takeOurs || p in MergedPaths(plan.merged)
  {
    SortKeepsMembers(plan.takeOurs + MergedPaths(plan.merged));
  }

  lemma {:induction false} WithFilesElsewhere(t: Tree, files: seq<MergedFile>, p: Path)
    requires p !in MergedPaths(files)
    ensures Get(WithFiles(t, files), p) == Get(t, p)
  {
    if files != [] {
      var k := |files| - 1;
      assert MergedPaths(files)[k] == files[k].path;
      forall i | 0 <= i < k ensures MergedPaths(files[..k])[i] == MergedPaths(files)[i] {}
      assert MergedPaths(files[..k]) == MergedPaths(files)[..k];
      WithFilesElsewhere(t, files[..k], p);
    }
  }

  lemma {:induction false} WithFilesAt(t: Tree, files: seq<MergedFile>, i: nat)
    requires Ascending(MergedPaths(files)) && i < |files|
    ensures Get(WithFiles(t, files), files[i].path) == Some(Regular(files[i].bytes))
  {
    var k := |files| - 1;
    if i < k {
      assert MergedPaths(files[..k]) == MergedPaths(files)[..k];
      WithFilesAt(t, files[..k], i);
      PathOrder(MergedPaths(files)[i], MergedPaths(files)[k]);
    }
  }

  /** Only files that are regular on both sides are merged cleanly. */
  lemma MergedFilesAreRegular(env: Env, g: Three, p: Path, bytes: Bytes)
    requires VerdictAt(env, g, p) == Content(Merged(bytes))
    ensures Get(g.ours, p).Some? && Get(g.ours, p).value.Regular?
    ensures Get(g.theirs, p).Some? && Get(g.theirs, p).value.Regular?
    ensures Get(g.base, p) == None || Get(g.base, p).value.Regular?
    ensures MergeFile(env, ContentOf(Get(g.base, p)), ContentOf(Get(g.ours, p)),
        ContentOf(Get(g.theirs, p))) == Ok(Merged(bytes))
  {}

  function ContentOf(node: Option<Node>): Option<Bytes> {
    if node.Some? && node.value.Regular? then Some(node.value.bytes) else None
  }

  lemma MemberOfMerged(env: Env, g: Three, plan: MergePlan, p: Path) returns (m: MergedFile)
    requires IsPlan(env, g, plan) && p in MergedPaths(plan.merged)
    ensures m in plan.merged && m.path == p
    ensures ReachedWith(env, g, p, Content(Merged(m.bytes)))
    ensures Get(WithFiles(g.ours, plan.merged), p) == Some(Regular(m.bytes))
  {
    var i :| 0 <= i < |plan.merged| && plan.merged[i].path == p;
    m := plan.merged[i];
    assert m in plan.merged;
    WithFilesAt(g.ours, plan.merged, i);
  }

  lemma LandingRootsAreDecided(env: Env, g: Three, plan: MergePlan, r: Path)
    requires IsPlan(env, g, plan) && r in Roots(plan)
    ensures Decided(env, g, r)
    ensures r in plan.takeOurs ==> VerdictAt(env, g, r) == TakeOurs
    ensures r !in plan.takeOurs ==> r in MergedPaths(plan.merged)
  {
    RootsArePlanned(plan);
    if r !in plan.takeOurs {
      var m := MemberOfMerged(env, g, plan, r);
    }
  }

  lemma LandingRootsDoNotNest(env: Env, g: Three, plan: MergePlan)
    requires ValidThree(g) && IsPlan(env, g, plan)
    ensures Antichain(Roots(plan)) && [] !in Roots(plan)
  {
    forall r, s | r in Roots(plan) && s in Roots(plan) && StartsWith(r, s) ensures r == s {
      LandingRootsAreDecided(env, g, plan, r);
      LandingRootsAreDecided(env, g, plan, s);
      DecidedPathsDoNotNest(env, g, s, r);
    }
    if [] in Roots(plan) {
      LandingRootsAreDecided(env, g, plan, []);
      ChangesAreInside(g, []);
    }
  }

  // -------------------------------------------------------------------------
  // Landing is the three-way merge of every path
  // -------------------------------------------------------------------------

  /** `r` is the three-way merge of what one path holds. */
  ghost predicate ThreeWay(env: Env, b: Option<Node>, f: Option<Node>, h: Option<Node>, r: Option<Node>) {
    if f == b then r == h
    else if h == b then r == f
    else if f == h then r == f
    else
      r.Some? && r.value.Regular? && ContentOf(f).Some? && ContentOf(h).Some? &&
      (b == None || ContentOf(b).Some?) &&
      MergeFile(env, ContentOf(b), ContentOf(f), ContentOf(h)) == Ok(Merged(r.value.bytes))
  }

  predicate Contested(v: Verdict) {
    v.Refuse? || (v.Content? && v.outcome.Conflicted?)
  }

  /** `p` lies at or beneath a path the plan refuses or finds in conflict. */
  ghost predicate UnderContested(env: Env, g: Three, p: Path) {
    exists d :: Reached(env, g, d) && Contested(VerdictAt(env, g, d)) && StartsWith(p, d)
  }

  lemma TakenIsThreeWay(env: Env, g: Three, r: Path, p: Path)
    requires ValidThree(g) && ReachedWith(env, g, r, TakeOurs) && StartsWith(p, r)
    ensures ThreeWay(env, Get(g.base, p), Get(g.ours, p), Get(g.theirs, p), Get(g.ours, p))
  {
    ChangesAreInside(g, r);
    UntouchedBelow(g.base, g.theirs, r, p);
  }

  lemma MergedIsThreeWay(env: Env, g: Three, r: Path, bytes: Bytes, p: Path)
    requires ValidThree(g) && ReachedWith(env, g, r, Content(Merged(bytes))) && StartsWith(p, r)
    ensures p == r ==> ThreeWay(env, Get(g.base, p), Get(g.ours, p), Get(g.theirs, p), Some(Regular(bytes)))
    ensures p != r ==> ThreeWay(env, Get(g.base, p), Get(g.ours, p), Get(g.theirs, p), Get(g.ours, p))
  {
    ChangesAreInside(g, r);
    MergedFilesAreRegular(env, g, r, bytes);
    if p != r {
      NothingBelowLeaves(g.ours, r, p);
      NothingBelowLeaves(g.theirs, r, p);
    } else {
      assert Judge(env, Get(g.base, r), Get(g.ours, r), Get(g.theirs, r),
                   Inner(g.base, g.ours, r), Inner(g.base, g.theirs, r)) == Content(Merged(bytes));
    }
  }

  lemma LandedUnderRoot(env: Env, g: Three, plan: MergePlan, r: Path, p: Path)
    requires ValidThree(g) && IsPlan(env, g, plan) && r in Roots(plan) && StartsWith(p, r)
    ensures ThreeWay(env, Get(g.base, p), Get(g.ours, p), Get(g.theirs, p), Get(Landed(g, plan), p))
  {
    LandingRootsAreDecided(env, g, plan, r);
    OverlayAt(g.theirs, WithFiles(g.ours, plan.merged), Roots(plan), p);
    assert Below(p, Roots(plan));
    if p in MergedPaths(plan.merged) {
      var m := MemberOfMerged(env, g, plan, p);
      DecidedPathsDoNotNest(env, g, r, p);
      MergedIsThreeWay(env, g, p, m.bytes, p);
    } else {
      WithFilesElsewhere(g.ours, plan.merged, p);
      if r in plan.takeOurs {
        TakenIsThreeWay(env, g, r, p);
      } else {
        var m := MemberOfMerged(env, g, plan, r);
        MergedIsThreeWay(env, g, r, m.bytes, p);
      }
    }
  }

  lemma DecidedLandsOrYields(env: Env, g: Three, plan: MergePlan, d: Path)
    requires IsPlan(env, g, plan) && Decided(env, g, d)
    ensures d in Roots(plan) || VerdictAt(env, g, d) == TakeTheirs || Contested(VerdictAt(env, g, d))
  {
    match VerdictAt(env, g, d)
    case TakeOurs =>
      RootsArePlanned(plan);
      assert d in plan.takeOurs;
    case Content(Merged(bytes)) =>
      RootsArePlanned(plan);
      assert MergedFile(d, bytes) in plan.merged;
      var i :| 0 <= i < |plan.merged| && plan.merged[i] == MergedFile(d, bytes);
      assert MergedPaths(plan.merged)[i] == d;
    case _ =>
  }

  lemma OutsideRootsIsTheirs(env: Env, g: Three, plan: MergePlan, d: Path, p: Path)
    requires IsPlan(env, g, plan) && Decided(env, g, d) && StartsWith(p, d)
    requires !Below(p, Roots(plan)) && !UnderContested(env, g, p)
    ensures VerdictAt(env, g, d) == TakeTheirs
  {
    DecidedLandsOrYields(env, g, plan, d);
  }

  lemma TheirsIsUntouched(env: Env, g: Three, d: Path, p: Path)
    requires ValidThree(g) && ReachedWith(env, g, d, TakeTheirs) && StartsWith(p, d)
    ensures Get(g.ours, p) == Get(g.base, p)
  {
    ChangesAreInside(g, d);
    UntouchedBelow(g.base, g.ours, d, p);
  }

  lemma LandedOutsideRoots(env: Env, g: Three, plan: MergePlan, p: Path)
    requires ValidThree(g) && IsPlan(env, g, plan) && !Below(p, Roots(plan)) && !IsGitInternal(p)
    requires !UnderContested(env, g, p)
    ensures Get(g.ours, p) == Get(g.base, p) || Get(g.ours, p) == Get(g.theirs, p)
  {
    if InUnion(g, p) && Get(g.ours, p) != Get(g.theirs, p) {
      EveryChangeIsDecided(env, g, p);
      var d :| Decided(env, g, d) && StartsWith(p, d);
      OutsideRootsIsTheirs(env, g, plan, d, p);
      TheirsIsUntouched(env, g, d, p);
    }
  }

  lemma RootsAreNotContested(env: Env, g: Three, plan: MergePlan, r: Path, p: Path)
    requires ValidThree(g) && IsPlan(env, g, plan) && r in Roots(plan) && StartsWith(p, r)
    ensures !UnderContested(env, g, p)
  {
    LandingRootsAreDecided(env, g, plan, r);
    forall d | Reached(env, g, d) && StartsWith(p, d) && Contested(VerdictAt(env, g, d)) ensures false {
      AncestorsAreComparable(d, r, p);
      if StartsWith(d, r) { DecidedPathsDoNotNest(env, g, r, d); } else { DecidedPathsDoNotNest(env, g, d, r); }
      if r !in plan.takeOurs {
        var m := MemberOfMerged(env, g, plan, r);
      }
    }
  }

  /** Landing leaves at every path the three-way merge of what base, fork and
      mainline hold there.  Contested paths, where they were dropped as ignored,
      and everything under `.git` keep the mainline. */
  lemma LandingIsThreeWayMerge(env: Env, g: Three, plan: MergePlan, p: Path)
    requires ValidThree(g) && IsPlan(env, g, plan)
    ensures
      if IsGitInternal(p) || UnderContested(env, g, p) then
        Get(Landed(g, plan), p) == Get(g.theirs, p)
      else
        ThreeWay(env, Get(g.base, p), Get(g.ours, p), Get(g.theirs, p), Get(Landed(g, plan), p))
  {
    OverlayAt(g.theirs, WithFiles(g.ours, plan.merged), Roots(plan), p);
    if Below(p, Roots(plan)) {
      var r :| r in Roots(plan) && StartsWith(p, r);
      LandingRootsAreDecided(env, g, plan, r);
      ChangesAreInside(g, r);
      GitIsOneSubtree(r, p);
      LandedUnderRoot(env, g, plan, r, p);
      RootsAreNotContested(env, g, plan, r, p);
    } else if !IsGitInternal(p) && !UnderContested(env, g, p) {
      LandedOutsideRoots(env, g, plan, p);
    }
  }

  // -------------------------------------------------------------------------
  // Landing keeps the tree well formed
  // -------------------------------------------------------------------------

  lemma LandingSourceIsWellFormed(env: Env, g: Three, plan: MergePlan)
    requires ValidThree(g) && IsPlan(env, g, plan)
    ensures WellFormed(WithFiles(g.ours, plan.merged))
    ensures forall p :: p in WithFiles(g.ours, plan.merged) <==> p in g.ours
  {
    var src := WithFiles(g.ours, plan.merged);
    forall p
      ensures p in src <==> p in g.ours
      ensures Get(g.ours, p) == Some(Dir) ==> Get(src, p) == Some(Dir)
    {
      if p in MergedPaths(plan.merged) {
        var m := MemberOfMerged(env, g, plan, p);
        MergedFilesAreRegular(env, g, p, m.bytes);
      } else {
        WithFilesElsewhere(g.ours, plan.merged, p);
      }
      assert Get(src, p).Some? <==> Get(g.ours, p).Some?;
    }
    forall p, a | p in src && ProperAncestor(a, p) ensures a in src && src[a] == Dir {
      assert Get(g.ours, a) == Some(Dir);
    }
  }

  /** Everything that lands finds its directories on the mainline. */
  lemma LandingParentsInPlace(env: Env, g: Three, plan: MergePlan, r: Path)
    requires ValidThree(g) && IsPlan(env, g, plan) && r in Roots(plan)
    ensures r in g.ours || r in g.theirs
    ensures ParentsInPlace(g.theirs, r)
  {
    LandingRootsAreDecided(env, g, plan, r);
    if r in g.ours {
      ParentsOfReached(env, g, r);
    } else if r in plan.takeOurs {
      DeletionsFindTheirTarget(env, g, r);
    } else {
      var m := MemberOfMerged(env, g, plan, r);
      MergedFilesAreRegular(env, g, r, m.bytes);
    }
  }

  lemma LandedIsWellFormed(env: Env, g: Three, plan: MergePlan)
    requires ValidThree(g) && IsPlan(env, g, plan)
    ensures WellFormed(Landed(g, plan))
  {
    LandingSourceIsWellFormed(env, g, plan);
    LandingRootsDoNotNest(env, g, plan);
    forall r | r in Roots(plan) ensures ParentsInPlace(g.theirs, r) {
      LandingParentsInPlace(env, g, plan, r);
    }
    OverlayIsWellFormed(g.theirs, WithFiles(g.ours, plan.merged), Roots(plan));
  }
}
