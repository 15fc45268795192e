/** Laws of the planned merge that relate several plans or several trees:
    exactly when nothing is contested, what an unmoved mainline means, that
    independent forks commute, and that the planner treats its sides alike. */
module MergeLaws {
  import opened Paths
  import opened Trees
  import opened TextMerge
  import opened Planner
  import opened Landing

  // -------------------------------------------------------------------------
  // When nothing is contested
  // -------------------------------------------------------------------------

  /** Both sides hold a regular file, the base holds one or nothing, and the
      contents merge without conflict. */
  ghost predicate MergesCleanly(env: Env, b: Option<Node>, f: Option<Node>, h: Option<Node>) {
    ContentOf(f).Some? && ContentOf(h).Some? && (b == None || ContentOf(b).Some?) &&
    var r := MergeFile(env, ContentOf(b), ContentOf(f), ContentOf(h));
    r.Ok? && r.value.Merged?
  }

  /** Both sides hold the same, other than directories where the base had a
      file or a link: the table refuses those although the sides agree. */
  predicate AgreesPlainly(b: Option<Node>, f: Option<Node>, h: Option<Node>) {
    f == h && (f == Some(Dir) ==> b == None || b == Some(Dir))
  }

  ghost predicate CompatibleAt(env: Env, g: Three, p: Path) {
    AgreesPlainly(Get(g.base, p), Get(g.ours, p), Get(g.theirs, p)) ||
    MergesCleanly(env, Get(g.base, p), Get(g.ours, p), Get(g.theirs, p))
  }

  /** Wherever both sides changed something at or beneath a changed path, they
      agree plainly there or their files merge. */
  ghost predicate Compatible(env: Env, g: Three) {
    forall p :: InUnion(g, p) && Touched(g.base, g.ours, p) && Touched(g.base, g.theirs, p) ==> CompatibleAt(env, g, p)
  }

  ghost predicate Uncontested(plan: MergePlan) {
    plan.refusals == [] && plan.conflicted == []
  }

  lemma ContestedExactlyWhen(env: Env, g: Three, p: Path)
    requires Touched(g.base, g.ours, p) && Touched(g.base, g.theirs, p)
    ensures Contested(VerdictAt(env, g, p)) <==> !CompatibleAt(env, g, p)
  {
    var b, f, h := Get(g.base, p), Get(g.ours, p), Get(g.theirs, p);
    JudgedContested(env, b, f, h, Inner(g.base, g.ours, p), Inner(g.base, g.theirs, p));
  }

  lemma JudgedContested(env: Env, b: Option<Node>, f: Option<Node>, h: Option<Node>, x: seq<Path>, y: seq<Path>)
    ensures Contested(Judge(env, b, f, h, x, y)) <==> !AgreesPlainly(b, f, h) && !MergesCleanly(env, b, f, h)
  {
    if ContentOf(f).Some? && h == None {
      DeletionsNeverMerge(env, ContentOf(b), ContentOf(f).value);
    } else if ContentOf(h).Some? && f == None {
      DeletionsNeverMerge(env, ContentOf(b), ContentOf(h).value);
    } else if ContentOf(f).Some? && ContentOf(h).Some? && f != h && (b == None || ContentOf(b).Some?) {
      assert Judge(env, b, f, h, x, y) == OfMerge(MergeFile(env, ContentOf(b), ContentOf(f), ContentOf(h)));
    }
  }

  lemma ListedPaths(env: Env, g: Three, plan: MergePlan, p: Path)
    requires IsPlan(env, g, plan)
    ensures p in RefusedPaths(plan.refusals) <==> Reached(env, g, p) && VerdictAt(env, g, p).Refuse?
    ensures p in MergedPaths(plan.merged) <==>
      Reached(env, g, p) && VerdictAt(env, g, p).Content? && VerdictAt(env, g, p).outcome.Merged?
    ensures p in ConflictedPaths(plan.conflicted) <==>
      Reached(env, g, p) && VerdictAt(env, g, p).Content? && VerdictAt(env, g, p).outcome.Conflicted?
  {
    if p in RefusedPaths(plan.refusals) {
      var i :| 0 <= i < |plan.refusals| && plan.refusals[i].path == p;
      assert plan.refusals[i] in plan.refusals;
    }
    if p in MergedPaths(plan.merged) {
      var m := MemberOfMerged(env, g, plan, p);
    }
    if p in ConflictedPaths(plan.conflicted) {
      var i :| 0 <= i < |plan.conflicted| && plan.conflicted[i].path == p;
      assert plan.conflicted[i] in plan.conflicted;
    }
    if Reached(env, g, p) {
      VerdictIsListed(env, g, plan, p);
    }
  }

  lemma VerdictIsListed(env: Env, g: Three, plan: MergePlan, p: Path)
    requires IsPlan(env, g, plan) && Reached(env, g, p)
    ensures match VerdictAt(env, g, p)
            case Refuse(_, _) => p in RefusedPaths(plan.refusals)
            case Content(Merged(_)) => p in MergedPaths(plan.merged)
            case Content(Conflicted(_, _, _)) => p in ConflictedPaths(plan.conflicted)
            case _ => true
  {
    match VerdictAt(env, g, p)
    case Refuse(reason, whole) =>
      assert IsRefused(env, g, Refusal(p, reason));
      var i :| 0 <= i < |plan.refusals| && plan.refusals[i] == Refusal(p, reason);
      assert RefusedPaths(plan.refusals)[i] == p;
    case Content(Merged(bytes)) =>
      assert MergedFile(p, bytes) in plan.merged;
      var i :| 0 <= i < |plan.merged| && plan.merged[i] == MergedFile(p, bytes);
      assert MergedPaths(plan.merged)[i] == p;
    case Content(Conflicted(marked, hunks, kind)) =>
      assert ConflictedFile(p, marked, hunks, kind) in plan.conflicted;
      var i :| 0 <= i < |plan.conflicted| && plan.conflicted[i] == ConflictedFile(p, marked, hunks, kind);
      assert ConflictedPaths(plan.conflicted)[i] == p;
    case _ =>
  }

  lemma ContestedIsListed(env: Env, g: Three, plan: MergePlan, p: Path)
    requires IsPlan(env, g, plan) && Reached(env, g, p) && Contested(VerdictAt(env, g, p))
    ensures p in RefusedPaths(plan.refusals) || p in ConflictedPaths(plan.conflicted)
    ensures !Uncontested(plan)
  {
    VerdictIsListed(env, g, plan, p);
  }

  lemma ListedIsContested(env: Env, g: Three, plan: MergePlan) returns (p: Path)
    requires IsPlan(env, g, plan) && !Uncontested(plan)
    ensures Reached(env, g, p) && Contested(VerdictAt(env, g, p))
  {
    if plan.refusals != [] {
      assert plan.refusals[0] in plan.refusals;
      p := plan.refusals[0].path;
    } else {
      assert plan.conflicted[0] in plan.conflicted;
      p := plan.conflicted[0].path;
    }
  }

  lemma CompatibleMeansUncontested(env: Env, g: Three, plan: MergePlan)
    requires IsPlan(env, g, plan) && Compatible(env, g)
    ensures Uncontested(plan)
  {
    if !Uncontested(plan) {
      var p := ListedIsContested(env, g, plan);
      ContestedExactlyWhen(env, g, p);
    }
  }

  lemma UncontestedMeansCompatible(env: Env, g: Three, plan: MergePlan, p: Path)
    requires ValidThree(g) && IsPlan(env, g, plan) && Uncontested(plan)
    requires InUnion(g, p) && Touched(g.base, g.ours, p) && Touched(g.base, g.theirs, p)
    ensures CompatibleAt(env, g, p)
  {
    if Reached(env, g, p) {
      ContestedExactlyWhen(env, g, p);
      if Contested(VerdictAt(env, g, p)) { ContestedIsListed(env, g, plan, p); }
    } else {
      var a := SettledAbove(env, g, p);
      if Contested(VerdictAt(env, g, a)) { ContestedIsListed(env, g, plan, a); }
      TouchedAbove(g.base, g.ours, a, p);
      TouchedAbove(g.base, g.theirs, a, p);
    }
  }

  lemma TouchedAbove(before: Tree, after: Tree, a: Path, p: Path)
    requires Touched(before, after, p) && StartsWith(p, a)
    ensures Touched(before, after, a)
  {
    var q :| Changed(before, after, q) && StartsWith(q, p);
    assert StartsWith(q, a);
  }

  /** A plan contests nothing exactly when the sides are compatible.  The test
      asks about each changed path alone; neither the walk nor the table
      appears in it. */
  lemma UncontestedExactlyWhenCompatible(env: Env, g: Three, plan: MergePlan)
    requires ValidThree(g) && IsPlan(env, g, plan)
    ensures Uncontested(plan) <==> Compatible(env, g)
  {
    if Compatible(env, g) {
      CompatibleMeansUncontested(env, g, plan);
    }
    if Uncontested(plan) {
      forall p | InUnion(g, p) && Touched(g.base, g.ours, p) && Touched(g.base, g.theirs, p)
        ensures CompatibleAt(env, g, p)
      {
        UncontestedMeansCompatible(env, g, plan, p);
      }
    }
  }

  /** A conflict is one file whose contents clash, or that one side changed and
      the other deleted; its text is the marked one of the content merge. */
  lemma ConflictsComeFromFiles(env: Env, g: Three, plan: MergePlan, c: ConflictedFile)
    requires IsPlan(env, g, plan) && c in plan.conflicted
    ensures Reached(env, g, c.path)
    ensures Get(g.ours, c.path) != Some(Dir) && Get(g.theirs, c.path) != Some(Dir)
    ensures MergeFile(env, ContentOf(Get(g.base, c.path)), ContentOf(Get(g.ours, c.path)),
        ContentOf(Get(g.theirs, c.path)))
            == Ok(Conflicted(c.marked, c.hunks, c.kind))
    ensures c.path in g.ours || c.path in g.theirs
  {
    assert ReachedWith(env, g, c.path, Content(Conflicted(c.marked, c.hunks, c.kind)));
    ConflictVerdict(env, g, c.path);
  }

  lemma ConflictVerdict(env: Env, g: Three, p: Path)
    requires VerdictAt(env, g, p).Content?
    ensures Get(g.ours, p) != Some(Dir) && Get(g.theirs, p) != Some(Dir)
    ensures MergeFile(env, ContentOf(Get(g.base, p)), ContentOf(Get(g.ours, p)), ContentOf(Get(g.theirs, p)))
            == Ok(VerdictAt(env, g, p).outcome)
    ensures p in g.ours || p in g.theirs
  {}

  // -------------------------------------------------------------------------
  // One-sided plans
  // -------------------------------------------------------------------------

  /** At no changed path did both sides change something at or beneath it. */
  ghost predicate OneSided(g: Three) {
    forall p :: InUnion(g, p) ==> !Touched(g.base, g.ours, p) || !Touched(g.base, g.theirs, p)
  }

  lemma OneSidedPlansOnlyTake(env: Env, g: Three, plan: MergePlan)
    requires ValidThree(g) && IsPlan(env, g, plan) && OneSided(g)
    ensures Uncontested(plan) && plan.merged == []
  {
    CompatibleMeansUncontested(env, g, plan);
    if plan.merged != [] {
      MergesNeedBothSides(env, g, plan, plan.merged[0]);
    }
  }

  lemma MergesNeedBothSides(env: Env, g: Three, plan: MergePlan, m: MergedFile)
    requires IsPlan(env, g, plan) && m in plan.merged
    ensures InUnion(g, m.path) && Touched(g.base, g.ours, m.path) && Touched(g.base, g.theirs, m.path)
  {
    assert ReachedWith(env, g, m.path, Content(Merged(m.bytes)));
  }

  lemma TheirsNeedsTheirs(env: Env, g: Three, plan: MergePlan, p: Path)
    requires IsPlan(env, g, plan) && p in plan.takeTheirs
    ensures Changed(g.base, g.theirs, p)
  {
    assert ReachedWith(env, g, p, TakeTheirs);
    assert StartsWith(p, p);
    assert Changed(g.base, g.ours, p) ==> Touched(g.base, g.ours, p);
  }

  /** With no both-sided change, every path follows the side that changed it. */
  lemma OneSidedLanding(env: Env, g: Three, plan: MergePlan, p: Path)
    requires ValidThree(g) && IsPlan(env, g, plan) && OneSided(g)
    ensures Get(Landed(g, plan), p) ==
            if Changed(g.base, g.ours, p) then Get(g.ours, p) else Get(g.theirs, p)
  {
    OneSidedPlansOnlyTake(env, g, plan);
    LandingIsThreeWayMerge(env, g, plan, p);
    if UnderContested(env, g, p) {
      var d :| Reached(env, g, d) && Contested(VerdictAt(env, g, d)) && StartsWith(p, d);
      ContestedIsListed(env, g, plan, d);
    }
    if Changed(g.base, g.ours, p) && Changed(g.base, g.theirs, p) {
      assert StartsWith(p, p);
      assert Touched(g.base, g.ours, p) && Touched(g.base, g.theirs, p);
    }
  }

  /** Against an unmoved mainline the plan takes the fork's changes and nothing
      else, and landing gives exactly the fork. */
  lemma UnmovedMainlineTakesFork(env: Env, g: Three, plan: MergePlan, p: Path)
    requires ValidThree(g) && IsPlan(env, g, plan) && g.theirs == g.base
    ensures Uncontested(plan) && plan.merged == [] && plan.takeTheirs == []
    ensures Get(Landed(g, plan), p) == Get(if IsGitInternal(p) then g.theirs else g.ours, p)
  {
    assert forall q :: !Touched(g.base, g.theirs, q);
    OneSidedLanding(env, g, plan, p);
    OneSidedPlansOnlyTake(env, g, plan);
    if plan.takeTheirs != [] {
      TheirsNeedsTheirs(env, g, plan, plan.takeTheirs[0]);
    }
  }

  // -------------------------------------------------------------------------
  // Independent forks
  // -------------------------------------------------------------------------

  /** Nothing one fork changed lies at, above or beneath what the other did. */
  ghost predicate Independent(base: Tree, one: Tree, two: Tree) {
    forall p, q :: Changed(base, one, p) && Changed(base, two, q) ==> !Comparable(p, q)
  }

  /** `head` is the base with one fork landed on it. */
  ghost predicate HoldsFork(base: Tree, fork: Tree, head: Tree) {
    forall p :: Get(head, p) == Get(if IsGitInternal(p) then base else fork, p)
  }

  lemma IndependentIsOneSided(base: Tree, one: Tree, two: Tree, head: Tree)
    requires Independent(base, one, two) && HoldsFork(base, one, head)
    ensures OneSided(Three(base, head, two))
  {
    var g := Three(base, head, two);
    forall p | InUnion(g, p) && Touched(base, two, p) && Touched(base, head, p) ensures false {
      var q :| Changed(base, two, q) && StartsWith(q, p);
      var r :| Changed(base, head, r) && StartsWith(r, p);
      assert Get(head, r) == Get(one, r) && Get(head, p) == Get(if IsGitInternal(p) then base else one, p);
      assert Changed(base, one, r);
      if Changed(base, two, p) {
        assert Comparable(r, p);
      } else {
        assert Changed(base, one, p) && Comparable(p, q);
      }
    }
  }

  /** What both forks together leave at a path. */
  ghost function Together(base: Tree, one: Tree, two: Tree, p: Path): Option<Node> {
    if IsGitInternal(p) then Get(base, p)
    else if Changed(base, two, p) then Get(two, p)
    else Get(one, p)
  }

  lemma SecondLanding(env: Env, base: Tree, one: Tree, two: Tree, head: Tree, plan: MergePlan)
    requires WellFormed(base) && WellFormed(two) && WellFormed(head)
    requires Independent(base, one, two) && HoldsFork(base, one, head)
    requires IsPlan(env, Three(base, head, two), plan)
    ensures Uncontested(plan) && plan.merged == []
    ensures forall p :: Get(Landed(Three(base, head, two), plan), p) == Together(base, one, two, p)
  {
    IndependentIsOneSided(base, one, two, head);
    OneSidedPlansOnlyTake(env, Three(base, head, two), plan);
    forall p ensures Get(Landed(Three(base, head, two), plan), p) == Together(base, one, two, p) {
      OneSidedLanding(env, Three(base, head, two), plan, p);
    }
  }

  lemma FirstLanding(env: Env, base: Tree, fork: Tree, plan: MergePlan)
    requires WellFormed(base) && WellFormed(fork) && IsPlan(env, Three(base, base, fork), plan)
    ensures HoldsFork(base, fork, Landed(Three(base, base, fork), plan))
  {
    forall p ensures Get(Landed(Three(base, base, fork), plan), p) == Get(if IsGitInternal(p) then base else fork, p) {
      UnmovedMainlineTakesFork(env, Three(base, base, fork), plan, p);
    }
  }

  lemma TogetherIsSymmetric(base: Tree, one: Tree, two: Tree, p: Path)
    requires Independent(base, one, two)
    ensures Together(base, one, two, p) == Together(base, two, one, p)
  {
    assert Comparable(p, p);
  }

  ghost predicate HoldsBoth(base: Tree, one: Tree, two: Tree, end: Tree) {
    forall p :: Get(end, p) == Together(base, one, two, p)
  }

  lemma EndsAgree(base: Tree, one: Tree, two: Tree, end1: Tree, end2: Tree)
    requires Independent(base, one, two)
    requires HoldsBoth(base, one, two, end1) && HoldsBoth(base, two, one, end2)
    ensures end1 == end2
  {
    forall p ensures Get(end1, p) == Get(end2, p) {
      TogetherIsSymmetric(base, one, two, p);
    }
    TreesAgree(end1, end2);
  }

  /** `result` is the mainline after landing the planned merge of `g`. */
  ghost predicate Lands(env: Env, g: Three, plan: MergePlan, result: Tree) {
    IsPlan(env, g, plan) && result == Landed(g, plan)
  }

  lemma IndependenceIsSymmetric(base: Tree, one: Tree, two: Tree)
    requires Independent(base, one, two)
    ensures Independent(base, two, one)
  {}

  lemma OneThenTheOther(env1: Env, env2: Env, base: Tree, one: Tree, two: Tree,
                        first: MergePlan, head: Tree, second: MergePlan, end: Tree)
    requires WellFormed(base) && WellFormed(one) && WellFormed(two) && Independent(base, one, two)
    requires Lands(env1, Three(base, base, one), first, head)
    requires Lands(env2, Three(base, head, two), second, end)
    ensures Uncontested(second) && second.merged == []
    ensures HoldsBoth(base, one, two, end)
  {
    LandedIsWellFormed(env1, Three(base, base, one), first);
    FirstLanding(env1, base, one, first);
    SecondLanding(env2, base, one, two, head, second);
  }

  /** Two independent forks land in either order without text merges, conflicts
      or refusals, and both orders give the same mainline. */
  lemma IndependentForksCommute(env1: Env, env2: Env, base: Tree, one: Tree, two: Tree,
                                first1: MergePlan, head1: Tree, then2: MergePlan, end1: Tree,
                                first2: MergePlan, head2: Tree, then1: MergePlan, end2: Tree)
    requires WellFormed(base) && WellFormed(one) && WellFormed(two) && Independent(base, one, two)
    requires Lands(env1, Three(base, base, one), first1, head1) && Lands(env2, Three(base, head1, two), then2, end1)
    requires Lands(env2, Three(base, base, two), first2, head2) && Lands(env1, Three(base, head2, one), then1, end2)
    ensures Uncontested(then1) && Uncontested(then2) && then1.merged == [] && then2.merged == []
    ensures end1 == end2
  {
    OneThenTheOther(env1, env2, base, one, two, first1, head1, then2, end1);
    IndependenceIsSymmetric(base, one, two);
    OneThenTheOther(env2, env1, base, two, one, first2, head2, then1, end2);
    EndsAgree(base, one, two, end1, end2);
  }

  // -------------------------------------------------------------------------
  // The planner treats its sides alike
  // -------------------------------------------------------------------------

  function Swapped(g: Three): Three {
    Three(g.base, g.ours, g.theirs)
  }

  /** `w` says with the sides exchanged what `v` says. */
  predicate Mirrors(v: Verdict, w: Verdict) {
    match v
    case Pass => w.Pass?
    case TakeOurs => w.TakeTheirs?
    case TakeTheirs => w.TakeOurs?
    case Content(Merged(_)) => w.Content? && w.outcome.Merged?
    case Content(Conflicted(_, _, kind)) => w.Content? && w.outcome.Conflicted? && w.outcome.kind == MirrorKind(kind)
    case Refuse(_, whole) => w.Refuse? && w.wholeSubtree == whole
  }

  lemma JudgementsMirror(env: Env, b: Option<Node>, f: Option<Node>, h: Option<Node>, x: seq<Path>, y: seq<Path>)
    requires SymmetricVerdict(env.library)
    ensures Mirrors(Judge(env, b, f, h, x, y), Judge(env, b, h, f, y, x))
  {
    if ContentOf(f).Some? || ContentOf(h).Some? {
      MergeFileIsSymmetric(env, ContentOf(b), ContentOf(f), ContentOf(h));
      MergeFileIsSymmetric(env, ContentOf(b), ContentOf(h), ContentOf(f));
    }
  }

  lemma VerdictsMirror(env: Env, g: Three, p: Path)
    requires SymmetricVerdict(env.library) && InUnion(g, p)
    ensures Mirrors(VerdictAt(env, g, p), VerdictAt(env, Swapped(g), p))
  {
    assert StartsWith(p, p);
    assert Touched(g.base, g.ours, p) || Touched(g.base, g.theirs, p);
    JudgementsMirror(env, Get(g.base, p), Get(g.ours, p), Get(g.theirs, p),
                     Inner(g.base, g.ours, p), Inner(g.base, g.theirs, p));
  }

  lemma ReachedMirrors(env: Env, g: Three, p: Path)
    requires SymmetricVerdict(env.library)
    ensures Reached(env, g, p) <==> Reached(env, Swapped(g), p)
  {
    forall a | InUnion(g, a) ensures Settles(VerdictAt(env, g, a)) <==> Settles(VerdictAt(env, Swapped(g), a)) {
      VerdictsMirror(env, g, a);
    }
  }

  lemma TakesMirror(env: Env, g: Three, plan: MergePlan, mirror: MergePlan)
    requires SymmetricVerdict(env.library)
    requires IsPlan(env, g, plan) && IsPlan(env, Swapped(g), mirror)
    ensures mirror.takeOurs == plan.takeTheirs
  {
    forall p ensures p in mirror.takeOurs <==> p in plan.takeTheirs {
      ReachedMirrors(env, g, p);
      if InUnion(g, p) {
        VerdictsMirror(env, g, p);
      }
      assert p in plan.takeTheirs <==> ReachedWith(env, g, p, TakeTheirs);
      assert p in mirror.takeOurs <==> ReachedWith(env, Swapped(g), p, TakeOurs);
    }
    AscendingIsCanonical(mirror.takeOurs, plan.takeTheirs);
  }

  lemma ContentsMirror(env: Env, g: Three, plan: MergePlan, mirror: MergePlan)
    requires SymmetricVerdict(env.library)
    requires IsPlan(env, g, plan) && IsPlan(env, Swapped(g), mirror)
    ensures MergedPaths(mirror.merged) == MergedPaths(plan.merged)
    ensures ConflictedPaths(mirror.conflicted) == ConflictedPaths(plan.conflicted)
    ensures RefusedPaths(mirror.refusals) == RefusedPaths(plan.refusals)
  {
    forall p
      ensures p in MergedPaths(mirror.merged) <==> p in MergedPaths(plan.merged)
      ensures p in ConflictedPaths(mirror.conflicted) <==> p in ConflictedPaths(plan.conflicted)
      ensures p in RefusedPaths(mirror.refusals) <==> p in RefusedPaths(plan.refusals)
    {
      ListedPaths(env, g, plan, p);
      ListedPaths(env, Swapped(g), mirror, p);
      ReachedMirrors(env, g, p);
      if InUnion(g, p) {
        VerdictsMirror(env, g, p);
      }
    }
    AscendingIsCanonical(MergedPaths(mirror.merged), MergedPaths(plan.merged));
    AscendingIsCanonical(ConflictedPaths(mirror.conflicted), ConflictedPaths(plan.conflicted));
    AscendingIsCanonical(RefusedPaths(mirror.refusals), RefusedPaths(plan.refusals));
  }

  lemma ConflictAt(env: Env, g: Three, plan: MergePlan, i: nat)
    requires IsPlan(env, g, plan) && i < |plan.conflicted|
    ensures var c := plan.conflicted[i];
            ReachedWith(env, g, c.path, Content(Conflicted(c.marked, c.hunks, c.kind)))
  {
    assert plan.conflicted[i] in plan.conflicted;
  }

  /** Exchanging fork and mainline exchanges what is taken from each, keeps the
      refused, merged and conflicted paths, and mirrors the kinds of conflict,
      given a library whose verdict does not depend on the order of its sides. */
  lemma PlannerIsSideSymmetric(env: Env, g: Three, plan: MergePlan, mirror: MergePlan)
    requires SymmetricVerdict(env.library)
    requires IsPlan(env, g, plan) && IsPlan(env, Swapped(g), mirror)
    ensures mirror.takeOurs == plan.takeTheirs && mirror.takeTheirs == plan.takeOurs
    ensures MergedPaths(mirror.merged) == MergedPaths(plan.merged)
    ensures RefusedPaths(mirror.refusals) == RefusedPaths(plan.refusals)
    ensures |mirror.conflicted| == |plan.conflicted| && forall i :: 0 <= i < |plan.conflicted| ==>
      mirror.conflicted[i].path == plan.conflicted[i].path &&
      mirror.conflicted[i].kind == MirrorKind(plan.conflicted[i].kind)
  {
    TakesMirror(env, g, plan, mirror);
    assert Swapped(Swapped(g)) == g;
    TakesMirror(env, Swapped(g), mirror, plan);
    ContentsMirror(env, g, plan, mirror);
    forall i | 0 <= i < |plan.conflicted|
      ensures mirror.conflicted[i].path == plan.conflicted[i].path &&
              mirror.conflicted[i].kind == MirrorKind(plan.conflicted[i].kind)
    {
      assert ConflictedPaths(mirror.conflicted)[i] == ConflictedPaths(plan.conflicted)[i];
      ConflictAt(env, g, plan, i);
      ConflictAt(env, Swapped(g), mirror, i);
      VerdictsMirror(env, g, plan.conflicted[i].path);
    }
  }
}
