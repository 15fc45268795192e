/** Planning a three-way merge of trees: the fork (`ours`) onto the mainline
    (`theirs`) from their common base.

    `Plan` walks the sorted union of the two change sets once, with a single
    cursor that remembers the last subtree settled as a whole.  `IsPlan` says
    what the outcome is without the walk: a path is reached unless some changed
    directory above it is settled as a whole, and every reached path gets the
    verdict of the decision table. */
module Planner {
  import opened Paths
  import opened Trees
  import opened TextMerge

  datatype MergedFile = MergedFile(path: Path, bytes: Bytes)
  datatype ConflictedFile = ConflictedFile(path: Path, marked: Bytes, hunks: nat, kind: ConflictKind)
  datatype Refusal = Refusal(path: Path, reason: Reason)

  datatype MergePlan = MergePlan(
    takeOurs: seq<Path>, takeTheirs: seq<Path>,
    merged: seq<MergedFile>, conflicted: seq<ConflictedFile>, refusals: seq<Refusal>)

  const EMPTY_PLAN := MergePlan([], [], [], [], [])

  /** The generations that take part. */
  datatype Three = Three(base: Tree, theirs: Tree, ours: Tree)

  ghost predicate ValidThree(g: Three) {
    WellFormed(g.base) && WellFormed(g.theirs) && WellFormed(g.ours)
  }

  // -------------------------------------------------------------------------
  // Changes
  // -------------------------------------------------------------------------

  predicate Changed(before: Tree, after: Tree, p: Path) {
    !IsGitInternal(p) && Get(before, p) != Get(after, p)
  }

  ghost predicate Touched(before: Tree, after: Tree, p: Path) {
    exists q :: Changed(before, after, q) && StartsWith(q, p)
  }

  ghost predicate InUnion(g: Three, p: Path) {
    Changed(g.base, g.ours, p) || Changed(g.base, g.theirs, p)
  }

  /** The changed paths strictly beneath `p`, in order. */
  ghost function Inner(before: Tree, after: Tree, p: Path): seq<Path> {
    Listing(set q | q in before.Keys + after.Keys && Changed(before, after, q) && StartsWith(q, p) && q != p)
  }

  method ChangedPaths(before: Tree, after: Tree) returns (r: seq<Path>)
    ensures Ascending(r)
    ensures forall p :: p in r <==> Changed(before, after, p)
  {
    r := [];
    var todo := before.Keys;
    while todo != {}
      invariant Ascending(r) && todo <= before.Keys
      invariant forall p :: p in r <==> p in before.Keys - todo && Get(before, p) != Get(after, p)
      decreases |todo|
    {
      var p :| p in todo;
      if !(p in after && after[p] == before[p]) {
        r := Insert(r, p);
      }
      todo := todo - {p};
    }
    todo := after.Keys;
    while todo != {}
      invariant Ascending(r) && todo <= after.Keys
      invariant forall p :: p in r <==> Get(before, p) != Get(after, p) && (p in before || p in after.Keys - todo)
      decreases |todo|
    {
      var p :| p in todo;
      if p !in before {
        r := Insert(r, p);
      }
      todo := todo - {p};
    }
    var outside := (p: Path) => !IsGitInternal(p);
    RetainKeepsOrder(r, outside);
    r := Retain(r, outside);
  }

  // -------------------------------------------------------------------------
  // The decision table
  // -------------------------------------------------------------------------

  datatype Verdict =
    | Pass
    | TakeOurs
    | TakeTheirs
    | Content(outcome: ContentMerge)
    | Refuse(reason: Reason, wholeSubtree: bool)

  /** Does the verdict decide the whole subtree? */
  predicate Settles(v: Verdict) {
    v.TakeOurs? || v.TakeTheirs? || (v.Refuse? && v.wholeSubtree)
  }

  function OfMerge(r: Result<ContentMerge, Reason>): Verdict {
    match r
    case Ok(outcome) => Content(outcome)
    case Err(reason) => Refuse(reason, false)
  }

  function Judge(env: Env, b: Option<Node>, f: Option<Node>, h: Option<Node>,
                 innerOurs: seq<Path>, innerTheirs: seq<Path>): Verdict
  {
    match (b, f, h)
    case (_, None, None) => Pass
    case (None, Some(Dir), Some(Dir)) => Pass
    case (Some(Dir), Some(Dir), Some(Dir)) => Pass
    case (_, Some(Regular(x)), Some(Regular(y))) =>
      if x == y then Pass
      else (
        match b
        case None => OfMerge(MergeFile(env, None, Some(x), Some(y)))
        case Some(Regular(o)) => OfMerge(MergeFile(env, Some(o), Some(x), Some(y)))
        case Some(_) => Refuse(KindChange, false)
      )
    case (Some(Regular(o)), Some(Regular(x)), None) => OfMerge(MergeFile(env, Some(o), Some(x), None))
    case (Some(Regular(o)), None, Some(Regular(y))) => OfMerge(MergeFile(env, Some(o), None, Some(y)))
    case (Some(Dir), None, Some(Dir)) => Refuse(Ancestry(innerTheirs), true)
    case (Some(Dir), Some(Dir), None) => Refuse(Ancestry(innerOurs), true)
    case (_, Some(Symlink(x)), Some(Symlink(y))) => if x == y then Pass else Refuse(KindChange, true)
    case _ => Refuse(KindChange, true)
  }

  /** What the table says about `p`. */
  ghost function VerdictAt(env: Env, g: Three, p: Path): Verdict {
    if !Touched(g.base, g.ours, p) then TakeTheirs
    else if !Touched(g.base, g.theirs, p) then TakeOurs
    else Judge(env, Get(g.base, p), Get(g.ours, p), Get(g.theirs, p),
               Inner(g.base, g.ours, p), Inner(g.base, g.theirs, p))
  }

  /** The walk reaches a changed path unless a directory above it is settled. */
  ghost predicate Reached(env: Env, g: Three, p: Path) {
    InUnion(g, p) &&
    forall a :: InUnion(g, a) && a != p && StartsWith(p, a) ==> !Settles(VerdictAt(env, g, a))
  }

  ghost predicate ReachedWith(env: Env, g: Three, p: Path, v: Verdict) {
    Reached(env, g, p) && VerdictAt(env, g, p) == v
  }

  function MergedPaths(files: seq<MergedFile>): (r: seq<Path>)
    ensures |r| == |files| && forall i :: 0 <= i < |r| ==> r[i] == files[i].path
  {
    seq(|files|, i requires 0 <= i < |files| => files[i].path)
  }

  function ConflictedPaths(files: seq<ConflictedFile>): (r: seq<Path>)
    ensures |r| == |files| && forall i :: 0 <= i < |r| ==> r[i] == files[i].path
  {
    seq(|files|, i requires 0 <= i < |files| => files[i].path)
  }

  function RefusedPaths(refusals: seq<Refusal>): (r: seq<Path>)
    ensures |r| == |refusals| && forall i :: 0 <= i < |r| ==> r[i] == refusals[i].path
  {
    seq(|refusals|, i requires 0 <= i < |refusals| => refusals[i].path)
  }

  ghost predicate ListsInOrder(plan: MergePlan) {
    Ascending(plan.takeOurs) && Ascending(plan.takeTheirs) && Ascending(MergedPaths(plan.merged)) &&
    Ascending(ConflictedPaths(plan.conflicted)) && Ascending(RefusedPaths(plan.refusals))
  }

  ghost predicate IsRefused(env: Env, g: Three, r: Refusal) {
    ReachedWith(env, g, r.path, Refuse(r.reason, true)) || ReachedWith(env, g, r.path, Refuse(r.reason, false))
  }

  /** The plan holds exactly the verdicts on the reached paths among `done`. */
  ghost predicate IsPlanFor(env: Env, g: Three, plan: MergePlan, done: iset<Path>) {
    ListsInOrder(plan) &&
    (forall p :: p in plan.takeOurs <==> p in done && ReachedWith(env, g, p, TakeOurs)) &&
    (forall p :: p in plan.takeTheirs <==> p in done && ReachedWith(env, g, p, TakeTheirs)) &&
    (forall m: MergedFile :: m in plan.merged <==>
      m.path in done && ReachedWith(env, g, m.path, Content(Merged(m.bytes)))) &&
    (forall c: ConflictedFile :: c in plan.conflicted <==>
      c.path in done && ReachedWith(env, g, c.path, Content(Conflicted(c.marked, c.hunks, c.kind)))) &&
    (forall r: Refusal :: r in plan.refusals <==> r.path in done && IsRefused(env, g, r))
  }

  ghost function Everything(): iset<Path> {
    iset p: Path | StartsWith(p, [])
  }

  ghost predicate IsPlan(env: Env, g: Three, plan: MergePlan) {
    IsPlanFor(env, g, plan, Everything())
  }

  // -------------------------------------------------------------------------
  // The walk
  // -------------------------------------------------------------------------

  function Push(plan: MergePlan, p: Path, v: Verdict): MergePlan {
    match v
    case Pass => plan
    case TakeOurs => plan.(takeOurs := plan.takeOurs + [p])
    case TakeTheirs => plan.(takeTheirs := plan.takeTheirs + [p])
    case Content(Merged(bytes)) => plan.(merged := plan.merged + [MergedFile(p, bytes)])
    case Content(Conflicted(marked, hunks, kind)) =>
      plan.(conflicted := plan.conflicted + [ConflictedFile(p, marked, hunks, kind)])
    case Refuse(reason, _) => plan.(refusals := plan.refusals + [Refusal(p, reason)])
  }

  lemma PushKeepsOrder(env: Env, g: Three, plan: MergePlan, done: iset<Path>, p: Path, v: Verdict)
    requires IsPlanFor(env, g, plan, done)
    requires forall q :: q in done ==> PathLess(q, p)
    ensures ListsInOrder(Push(plan, p, v))
  {
    var next := Push(plan, p, v);
    match v
    case Pass =>
    case TakeOurs => AscendingAppend(plan.takeOurs, p);
    case TakeTheirs => AscendingAppend(plan.takeTheirs, p);
    case Content(Merged(bytes)) =>
      assert MergedPaths(next.merged) == MergedPaths(plan.merged) + [p];
      forall q | q in MergedPaths(plan.merged) ensures PathLess(q, p) {
        var i :| 0 <= i < |plan.merged| && plan.merged[i].path == q;
        assert plan.merged[i] in plan.merged;
      }
      AscendingAppend(MergedPaths(plan.merged), p);
    case Content(Conflicted(marked, hunks, kind)) =>
      assert ConflictedPaths(next.conflicted) == ConflictedPaths(plan.conflicted) + [p];
      forall q | q in ConflictedPaths(plan.conflicted) ensures PathLess(q, p) {
        var i :| 0 <= i < |plan.conflicted| && plan.conflicted[i].path == q;
        assert plan.conflicted[i] in plan.conflicted;
      }
      AscendingAppend(ConflictedPaths(plan.conflicted), p);
    case Refuse(reason, _) =>
      assert RefusedPaths(next.refusals) == RefusedPaths(plan.refusals) + [p];
      forall q | q in RefusedPaths(plan.refusals) ensures PathLess(q, p) {
        var i :| 0 <= i < |plan.refusals| && plan.refusals[i].path == q;
        assert plan.refusals[i] in plan.refusals;
      }
      AscendingAppend(RefusedPaths(plan.refusals), p);
  }

  lemma PushKeepsSides(env: Env, g: Three, plan: MergePlan, done: iset<Path>, p: Path, v: Verdict)
    requires IsPlanFor(env, g, plan, done) && p !in done
    requires ReachedWith(env, g, p, v)
    ensures var next, all := Push(plan, p, v), done + iset{p};
            (forall q :: q in next.takeOurs <==> q in all && ReachedWith(env, g, q, TakeOurs)) &&
            (forall q :: q in next.takeTheirs <==> q in all && ReachedWith(env, g, q, TakeTheirs))
  {}

  lemma PushKeepsMerges(env: Env, g: Three, plan: MergePlan, done: iset<Path>, p: Path, v: Verdict)
    requires IsPlanFor(env, g, plan, done) && p !in done
    requires ReachedWith(env, g, p, v)
    ensures forall m: MergedFile :: m in Push(plan, p, v).merged <==>
      m.path in done + iset{p} && ReachedWith(env, g, m.path, Content(Merged(m.bytes)))
  {}

  lemma PushKeepsConflicts(env: Env, g: Three, plan: MergePlan, done: iset<Path>, p: Path, v: Verdict)
    requires IsPlanFor(env, g, plan, done) && p !in done
    requires ReachedWith(env, g, p, v)
    ensures forall c: ConflictedFile :: c in Push(plan, p, v).conflicted <==>
      c.path in done + iset{p} && ReachedWith(env, g, c.path, Content(Conflicted(c.marked, c.hunks, c.kind)))
  {}

  lemma PushKeepsRefusals(env: Env, g: Three, plan: MergePlan, done: iset<Path>, p: Path, v: Verdict)
    requires IsPlanFor(env, g, plan, done) && p !in done
    requires ReachedWith(env, g, p, v)
    ensures var next, all := Push(plan, p, v), done + iset{p};
            forall r: Refusal :: r in next.refusals <==> r.path in all && IsRefused(env, g, r)
  {}

  lemma PushKeepsPlan(env: Env, g: Three, plan: MergePlan, done: iset<Path>, p: Path, v: Verdict)
    requires IsPlanFor(env, g, plan, done) && p !in done
    requires forall q :: q in done ==> PathLess(q, p)
    requires ReachedWith(env, g, p, v)
    ensures IsPlanFor(env, g, Push(plan, p, v), done + iset{p})
  {
    PushKeepsOrder(env, g, plan, done, p, v);
    PushKeepsSides(env, g, plan, done, p, v);
    PushKeepsMerges(env, g, plan, done, p, v);
    PushKeepsConflicts(env, g, plan, done, p, v);
    PushKeepsRefusals(env, g, plan, done, p, v);
  }

  lemma SkipKeepsPlan(env: Env, g: Three, plan: MergePlan, done: iset<Path>, p: Path)
    requires IsPlanFor(env, g, plan, done) && p !in done
    requires !Reached(env, g, p)
    ensures IsPlanFor(env, g, plan, done + iset{p})
  {}

  /** A changed path the walk does not reach lies under a reached, settled one. */
  lemma {:induction false} SettledAbove(env: Env, g: Three, p: Path) returns (a: Path)
    requires InUnion(g, p) && !Reached(env, g, p)
    ensures Reached(env, g, a) && Settles(VerdictAt(env, g, a)) && a != p && StartsWith(p, a)
    decreases |p|
  {
    a :| InUnion(g, a) && a != p && StartsWith(p, a) && Settles(VerdictAt(env, g, a));
    if !Reached(env, g, a) {
      var above := SettledAbove(env, g, a);
      a := above;
    }
  }

  /** The cursor holds the last reached path whose verdict settled a subtree. */
  ghost predicate CursorIsLast(env: Env, g: Three, cursor: Option<Path>, done: iset<Path>) {
    (cursor.Some? ==>
       cursor.value in done && Reached(env, g, cursor.value) && Settles(VerdictAt(env, g, cursor.value))) &&
    (forall q :: q in done && Reached(env, g, q) && Settles(VerdictAt(env, g, q)) ==>
      cursor.Some? && !PathLess(cursor.value, q))
  }

  /** One cursor suffices: since subtrees are contiguous in the order, a path
      lies under some settled directory exactly when it lies under the last. */
  lemma CursorDecides(env: Env, g: Three, cursor: Option<Path>, done: iset<Path>, p: Path)
    requires CursorIsLast(env, g, cursor, done) && InUnion(g, p)
    requires forall q :: q in done <==> InUnion(g, q) && PathLess(q, p)
    ensures Reached(env, g, p) <==> !(cursor.Some? && StartsWith(p, cursor.value))
  {
    PathOrder(p, p);
    if !Reached(env, g, p) {
      var a := SettledAbove(env, g, p);
      ParentFirst(a, p);
      assert a in done;
      var r := cursor.value;
      PathOrder(r, p);
      SubtreesAreContiguous(a, r, p);
      assert r == a;
    }
  }

  lemma VerdictIsComputed(env: Env, g: Three, oursChanged: seq<Path>, theirsChanged: seq<Path>, p: Path)
    requires Ascending(oursChanged) && forall q :: q in oursChanged <==> Changed(g.base, g.ours, q)
    requires Ascending(theirsChanged) && forall q :: q in theirsChanged <==> Changed(g.base, g.theirs, q)
    ensures SubtreeChanged(oursChanged, p) <==> Touched(g.base, g.ours, p)
    ensures SubtreeChanged(theirsChanged, p) <==> Touched(g.base, g.theirs, p)
    ensures Descendants(oursChanged, p) == Inner(g.base, g.ours, p)
    ensures Descendants(theirsChanged, p) == Inner(g.base, g.theirs, p)
  {
    SubtreeChangedIsExact(oursChanged, p);
    SubtreeChangedIsExact(theirsChanged, p);
    InnerIsComputed(g.base, g.ours, oursChanged, p);
    InnerIsComputed(g.base, g.theirs, theirsChanged, p);
  }

  lemma InnerIsComputed(before: Tree, after: Tree, changed: seq<Path>, p: Path)
    requires Ascending(changed) && forall q :: q in changed <==> Changed(before, after, q)
    ensures Descendants(changed, p) == Inner(before, after, p)
  {
    DescendantsAreExact(changed, p);
    forall q ensures q in Descendants(changed, p) <==> q in Inner(before, after, p) {
      assert Changed(before, after, q) ==> q in before.Keys + after.Keys;
    }
    AscendingIsCanonical(Descendants(changed, p), Inner(before, after, p));
  }

  /** State of the walk after the first `i` paths of the union. */
  ghost predicate Walked(env: Env, g: Three, union: seq<Path>, i: nat, plan: MergePlan, cursor: Option<Path>)
    requires i <= |union|
  {
    IsPlanFor(env, g, plan, Visited(union[..i])) && CursorIsLast(env, g, cursor, Visited(union[..i]))
  }

  ghost function Visited(s: seq<Path>): iset<Path> {
    iset p | p in s
  }

  ghost predicate IsUnion(g: Three, union: seq<Path>) {
    Ascending(union) && forall q :: q in union <==> InUnion(g, q)
  }

  lemma WalkDecides(env: Env, g: Three, union: seq<Path>, i: nat, plan: MergePlan, cursor: Option<Path>)
    requires IsUnion(g, union) && i < |union| && Walked(env, g, union, i, plan, cursor)
    ensures Reached(env, g, union[i]) <==> !(cursor.Some? && StartsWith(union[i], cursor.value))
  {
    DoneIsBelow(g, union, i);
    CursorDecides(env, g, cursor, Visited(union[..i]), union[i]);
  }

  lemma WalkSkips(env: Env, g: Three, union: seq<Path>, i: nat, plan: MergePlan, cursor: Option<Path>)
    requires IsUnion(g, union) && i < |union| && Walked(env, g, union, i, plan, cursor)
    requires !Reached(env, g, union[i])
    ensures Walked(env, g, union, i + 1, plan, cursor)
  {
    NextMembers(g, union, i);
    SkipKeepsPlan(env, g, plan, Visited(union[..i]), union[i]);
  }

  lemma WalkJudges(env: Env, g: Three, union: seq<Path>, i: nat, plan: MergePlan, cursor: Option<Path>, v: Verdict)
    requires IsUnion(g, union) && i < |union| && Walked(env, g, union, i, plan, cursor)
    requires ReachedWith(env, g, union[i], v)
    ensures Walked(env, g, union, i + 1, Push(plan, union[i], v), if Settles(v) then Some(union[i]) else cursor)
  {
    NextMembers(g, union, i);
    PushKeepsPlan(env, g, plan, Visited(union[..i]), union[i], v);
    CursorMoves(env, g, cursor, Visited(union[..i]), union[i]);
  }

  lemma NextMembers(g: Three, union: seq<Path>, i: nat)
    requires IsUnion(g, union) && i < |union|
    ensures Visited(union[..i + 1]) == Visited(union[..i]) + iset{union[i]}
    ensures union[i] !in Visited(union[..i])
    ensures forall q :: q in Visited(union[..i]) ==> PathLess(q, union[i])
  {
    assert union[..i + 1] == union[..i] + [union[i]];
    DoneIsBelow(g, union, i);
    PathOrder(union[i], union[i]);
  }

  /** Computes the merge plan of fork `ours` onto mainline `theirs`. */
  method Plan(env: Env, g: Three) returns (plan: MergePlan)
    ensures IsPlan(env, g, plan)
  {
    var oursChanged := ChangedPaths(g.base, g.ours);
    var theirsChanged := ChangedPaths(g.base, g.theirs);
    var union := InsertAll(oursChanged, theirsChanged);
    plan := EMPTY_PLAN;
    var decidedRoot: Option<Path> := None;
    for i := 0 to |union|
      invariant Walked(env, g, union, i, plan, decidedRoot)
    {
      var path := union[i];
      WalkDecides(env, g, union, i, plan, decidedRoot);
      if decidedRoot.Some? && StartsWith(path, decidedRoot.value) {
        WalkSkips(env, g, union, i, plan, decidedRoot);
        continue;
      }
      VerdictIsComputed(env, g, oursChanged, theirsChanged, path);
      var verdict :=
        if !SubtreeChanged(oursChanged, path) then TakeTheirs
        else if !SubtreeChanged(theirsChanged, path) then TakeOurs
        else Judge(env, Get(g.base, path), Get(g.ours, path), Get(g.theirs, path),
                   Descendants(oursChanged, path), Descendants(theirsChanged, path));
      WalkJudges(env, g, union, i, plan, decidedRoot, verdict);
      plan := Push(plan, path, verdict);
      if Settles(verdict) {
        decidedRoot := Some(path);
      }
    }
    assert union[..|union|] == union;
    PlanIsWhole(env, g, plan, Visited(union));
  }

  lemma CursorMoves(env: Env, g: Three, cursor: Option<Path>, done: iset<Path>, p: Path)
    requires CursorIsLast(env, g, cursor, done) && Reached(env, g, p)
    requires forall q :: q in done ==> PathLess(q, p)
    ensures CursorIsLast(env, g, if Settles(VerdictAt(env, g, p)) then Some(p) else cursor, done + iset{p})
  {
    forall q | q in done + iset{p} ensures !PathLess(p, q) {
      PathOrder(p, q);
    }
  }

  lemma DoneIsBelow(g: Three, union: seq<Path>, i: nat)
    requires Ascending(union) && i < |union|
    requires forall q :: q in union <==> InUnion(g, q)
    ensures forall q :: q in union[..i] <==> InUnion(g, q) && PathLess(q, union[i])
  {
    forall q ensures q in union[..i] <==> InUnion(g, q) && PathLess(q, union[i]) {
      if q in union {
        var j :| 0 <= j < |union| && union[j] == q;
        PathOrder(q, union[i]);
        if j < i { assert union[..i][j] == q; }
      }
      if q in union[..i] {
        assert q in union;
      }
    }
  }

  lemma PlanIsWhole(env: Env, g: Three, plan: MergePlan, done: iset<Path>)
    requires IsPlanFor(env, g, plan, done)
    requires forall q :: InUnion(g, q) ==> q in done
    ensures IsPlan(env, g, plan)
  {}
}
