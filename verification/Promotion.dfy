/** Promoting a fork: the daemon's state (the working tree and its forks) and
    the one request that lands a fork, refuses it, or rebases it. */
module Promotion {
  import opened Paths
  import opened Trees
  import opened TextMerge
  import opened Planner
  import opened Landing
  import opened MergeLaws
  import opened FileMerges
  import opened Writing
  import opened Rebasing
  import opened Checkouts

  type ForkId = string

  /** A fork.  `pending` says whether its overlay has mutations: those written
      through the mount, or found by capturing a copy.  Metadata is enough for
      one, so a workspace with nothing pending equals its base, but one with
      something pending may hold the same content. */
  datatype Fork = Fork(base: Tree, workspace: Tree, mounted: bool, pending: bool, conflict: Option<seq<Path>>)

  ghost predicate ValidFork(f: Fork) {
    WellFormed(f.base) && WellFormed(f.workspace) && (!f.pending ==> f.workspace == f.base)
  }

  datatype Problem =
    | NoFork
    | UnresolvedMarkers(paths: seq<Path>)
    | CannotBeMerged(refusals: seq<Refusal>)

  datatype Outcome =
    | Nothing
    | Replayed(moved: bool)
    | Conflict(files: seq<ConflictedFile>)
    | Refused(problem: Problem)
    | Failed

  /** A call of a promote that fails: reading the workspace before its markers
      are checked, publishing the head, or, after some writes, the next one into
      the workspace or into the working tree. */
  datatype Failure = Reading | AtHead | Rebasing(written: nat) | Restoring(written: nat)

  /** A text file that still holds a conflict block. */
  predicate StillMarked(utf8: Bytes -> bool, t: Tree, p: Path) {
    p in t && t[p].Regular? && utf8(t[p].bytes) && HasConflictMarkers(t[p].bytes)
  }

  /** The paths of an open conflict that are not resolved in the workspace. */
  function Unresolved(utf8: Bytes -> bool, f: Fork): seq<Path> {
    match f.conflict
    case None => []
    case Some(paths) => if !f.pending then paths else Retain(paths, p => StillMarked(utf8, f.workspace, p))
  }

  function Sources(ours: Tree, plan: MergePlan): (r: seq<(Path, Source)>)
    ensures Entries(r) == LandingEntries(ours, plan)
  {
    seq(|plan.takeOurs|, i requires 0 <= i < |plan.takeOurs| => (plan.takeOurs[i], FromGeneration(ours))) +
    seq(|plan.merged|, i requires 0 <= i < |plan.merged| => (plan.merged[i].path, FileContent(plan.merged[i].bytes)))
  }

  function MarkSources(files: seq<ConflictedFile>): (r: seq<(Path, Source)>)
    ensures Entries(r) == FileEntries(Marks(files))
  {
    seq(|files|, i requires 0 <= i < |files| => (files[i].path, FileContent(files[i].marked)))
  }

  /** The store accepts the list: real paths, and well-formed generations. */
  ghost predicate Appliable(entries: seq<(Path, Source)>) {
    forall e :: e in entries ==> e.0 != [] && (e.1.FromGeneration? ==> WellFormed(e.1.generation))
  }

  lemma SourcesApply(env: Env, g: Three, plan: MergePlan)
    requires ValidThree(g) && IsPlan(env, g, plan)
    ensures Appliable(Sources(g.ours, plan)) && Unblocked(g.theirs, LandingEntries(g.ours, plan))
  {
    var all, entries := LandingEntries(g.ours, plan), Sources(g.ours, plan);
    LandingEntriesNameRoots(env, g, plan);
    LandingEntriesAreReady(env, g, plan);
    LandingRootsDoNotNest(env, g, plan);
    forall i | 0 <= i < |all| ensures !ParentBlocked(PutAll(g.theirs, all[..i]), all[i].path) {
      ReadyEntriesAreUnblocked(g.theirs, WithFiles(g.ours, plan.merged), all, i);
    }
    forall i | 0 <= i < |entries|
      ensures entries[i].0 != [] && (entries[i].1.FromGeneration? ==> WellFormed(entries[i].1.generation))
    {
      assert Entries(entries)[i] == EntryFor(entries[i].0, entries[i].1);
      assert EntryPaths(all)[i] in Members(EntryPaths(all));
    }
  }

  /** Builds the merged generation in a scratch checkout of the mainline. */
  method BuildMerged(env: Env, g: Three, plan: MergePlan) returns (ok: bool, built: Tree)
    requires ValidThree(g) && IsPlan(env, g, plan)
    ensures ok && built == Landed(g, plan)
  {
    SourcesApply(env, g, plan);
    BuildIsOrderFree(env, g, plan, LandingEntries(g.ours, plan));
    UnblockedEntriesApply(g.theirs, Sources(g.ours, plan));
    var scratch := new Checkout(g.theirs);
    ok := scratch.ApplyEntries(Sources(g.ours, plan));
    built := scratch.nodes;
  }

  lemma MarksAreUnblocked(t: Tree, files: seq<MergedFile>, i: nat)
    requires WellFormed(t) && NoNesting(MergedPaths(files)) && (forall m :: m in files ==> FileFits(t, m.path))
    requires i < |files|
    ensures !ParentBlocked(PutAll(t, FileEntries(files)[..i]), files[i].path)
  {
    var upTo := files[..i + 1];
    assert MergedPaths(upTo) == MergedPaths(files)[..i + 1];
    forall k, l | 0 <= k <= i && 0 <= l <= i && StartsWith(MergedPaths(upTo)[k], MergedPaths(upTo)[l]) ensures k == l {
      assert StartsWith(MergedPaths(files)[k], MergedPaths(files)[l]);
    }
    LastFileIsApart(upTo);
    assert upTo[..i] == files[..i];
    assert forall m :: m in files[..i] ==> m in files;
    assert files[i] in files;
    FilesLandOnLeaves(t, files[..i]);
    assert FileEntries(files)[..i] == FileEntries(files[..i]);
    FileStillFits(t, files[..i], files[i].path);
    forall a | a in ParentSet(files[i].path) ensures Get(WithFiles(t, files[..i]), a) == Some(Dir) {}
  }

  lemma MarksFit(env: Env, g: Three, plan: MergePlan, ignored: seq<Path>)
    requires ValidThree(g) && IsPlan(env, g, plan)
    ensures forall m :: m in Marks(DropConflicts(plan.conflicted, ignored)) ==> FileFits(Landed(g, plan), m.path)
  {
    var conflicts := DropConflicts(plan.conflicted, ignored);
    var marks := Marks(conflicts);
    forall m | m in marks ensures FileFits(Landed(g, plan), m.path) {
      var i :| 0 <= i < |marks| && marks[i] == m;
      DropConflictsMembers(plan.conflicted, ignored, conflicts[i]);
      ConflictFits(env, g, plan, conflicts[i]);
    }
  }

  lemma MarkSourcesApply(env: Env, g: Three, plan: MergePlan, ignored: seq<Path>)
    requires ValidThree(g) && IsPlan(env, g, plan)
    ensures var files := DropConflicts(plan.conflicted, ignored);
            Appliable(MarkSources(files)) && Unblocked(Landed(g, plan), FileEntries(Marks(files)))
  {
    var files := DropConflicts(plan.conflicted, ignored);
    var entries, marks := MarkSources(files), Marks(files);
    LandedIsWellFormed(env, g, plan);
    ConflictsDoNotNest(env, g, plan, ignored);
    MarksFit(env, g, plan, ignored);
    forall i | 0 <= i < |marks|
      ensures !ParentBlocked(PutAll(Landed(g, plan), FileEntries(marks)[..i]), marks[i].path)
    {
      MarksAreUnblocked(Landed(g, plan), marks, i);
    }
    forall i | 0 <= i < |entries| ensures entries[i].0 != [] && entries[i].1.FileContent? {
      assert marks[i] in marks;
    }
  }

  /** Writes the marked files over the merged generation. */
  method BuildRebased(env: Env, g: Three, plan: MergePlan, ghost ignored: seq<Path>, merged: Tree,
      files: seq<ConflictedFile>)
    returns (ok: bool, rebased: Tree)
    requires ValidThree(g) && IsPlan(env, g, plan) && merged == Landed(g, plan)
    requires files == DropConflicts(plan.conflicted, ignored)
    ensures ok && rebased == Rebased(g, plan, files) && WellFormed(rebased)
  {
    MarkSourcesApply(env, g, plan, ignored);
    RebasedHoldsMarks(env, g, plan, ignored);
    var scratch := new Checkout(merged);
    LandedIsWellFormed(env, g, plan);
    UnblockedEntriesApply(merged, MarkSources(files));
    ok := scratch.ApplyEntries(MarkSources(files));
    rebased := scratch.nodes;
  }

  /** Every path holds what it held before or what it is to hold. */
  ghost predicate Partway(before: Tree, target: Tree, t: Tree) {
    forall p :: Get(t, p) == Get(before, p) || Get(t, p) == Get(target, p)
  }

  /** Makes a fork's workspace equal to `rebased`: writes only what differs.  A
      write that fails leaves it partway. */
  method RebaseFork(f: Fork, rebased: Tree, written: Option<nat>) returns (ok: bool, workspace: Tree)
    requires WellFormed(f.workspace) && WellFormed(rebased)
    ensures ok <==> written == None
    ensures ok ==> ContentOfBoth(workspace, rebased, f.workspace)
    ensures WellFormed(workspace) && Partway(f.workspace, rebased, workspace)
  {
    var changed := ChangedPaths(f.workspace, rebased);
    var roots := SubtreeRoots(changed);
    var n := if written.Some? && written.value < |roots| then written.value else |roots|;
    var dir := new WorkTree(f.workspace);
    RebaseReaches(f.workspace, rebased, changed, roots);
    assert roots[..|roots|] == roots;
    RebaseGoesOn(f.workspace, rebased, changed, roots, n);
    MaterializingRefinesRestoring(f.workspace, rebased, roots[..n]);
    if f.mounted {
      ok := dir.MaterializePaths(rebased, roots[..n]);
    } else {
      ok := dir.RestorePaths(rebased, roots[..n]);
    }
    workspace := dir.nodes;
    ok := ok && written == None;
    forall p ensures Get(workspace, p) == Get(f.workspace, p) || Get(workspace, p) == Get(rebased, p) {
      OverlayAt(f.workspace, rebased, Members(roots[..n]), p);
    }
  }

  /** Rebases a fork in conflict onto the head, with the conflicts marked. */
  method SendBack(env: Env, f: Fork, head: Tree, plan: MergePlan, ghost ignored: seq<Path>, merged: Tree,
      files: seq<ConflictedFile>, failure: Option<Failure>)
    returns (moved: bool, rebased: Fork)
    requires ValidFork(f) && WellFormed(head) && f.pending && IsPlan(env, Sides(f, head), plan)
    requires merged == Landed(Sides(f, head), plan) && files == DropConflicts(plan.conflicted, ignored)
    ensures ValidFork(rebased)
    ensures moved <==> !(failure.Some? && failure.value.Rebasing?)
    ensures moved ==> RebasedFork(f, rebased, head, plan, files)
    ensures !moved ==> FailedFork(f, rebased.(conflict := None), head, plan, files, failure.value)
  {
    var built, target := BuildRebased(env, Three(f.base, head, f.workspace), plan, ignored, merged, files);
    var stop := if failure.Some? && failure.value.Rebasing? then Some(failure.value.written) else None;
    var workspace;
    moved, workspace := RebaseFork(f, target, stop);
    rebased := f.(workspace := workspace);
    if moved {
      rebased := rebased.(base := head, pending := true, conflict := Some(ConflictedPaths(files)));
    }
  }

  /** What planning the promote of `f` onto `head` works with. */
  function Sides(f: Fork, head: Tree): Three {
    Three(f.base, head, f.workspace)
  }

  /** The workspace is read before the markers are checked: a copy always, a
      mounted fork for the files of a conflict written to since. */
  predicate FailsReading(f: Fork, failure: Option<Failure>) {
    failure == Some(Reading) && (!f.mounted || (f.conflict.Some? && f.pending))
  }

  /** Exactly which outcome a promote has. */
  ghost predicate OutcomeFor(utf8: Bytes -> bool, isIgnored: Path -> bool, f: Fork, plan: MergePlan,
      failure: Option<Failure>, r: Outcome)
  {
    var rest := WithoutIgnored(plan, ContestedPaths(isIgnored, plan));
    if FailsReading(f, failure) then r == Failed
    else if Unresolved(utf8, f) != [] then r == Refused(UnresolvedMarkers(Unresolved(utf8, f)))
    else if failure == Some(AtHead) then r == Failed
    else if !f.pending then r == Nothing
    else if rest.refusals != [] then r == Refused(CannotBeMerged(rest.refusals))
    else if LandsNothing(rest) then r == Nothing
    else if rest.conflicted != [] then
      if failure.Some? && failure.value.Rebasing? then r == Failed else r == Conflict(rest.conflicted)
    else if failure.Some? && failure.value.Restoring? then r == Failed
    else r.Replayed?
  }

  /** The promote gets as far as planning. */
  ghost predicate Plans(utf8: Bytes -> bool, f: Fork, failure: Option<Failure>) {
    f.pending && Unresolved(utf8, f) == [] && !FailsReading(f, failure) && failure != Some(AtHead)
  }

  function FirstPaths(plan: MergePlan, n: nat): seq<Path> {
    var paths := LandingPaths(plan);
    if n < |paths| then paths[..n] else paths
  }

  /** The mainline after the first `n` paths of a landing. */
  ghost function Halted(g: Three, plan: MergePlan, n: nat): Tree {
    Overlay(g.theirs, WithFiles(g.ours, plan.merged), Members(FirstPaths(plan, n)))
  }

  /** What a promote did: its outcome, and the head afterwards, which is the old
      one unless the merge landed or stopped on the way. */
  ghost predicate Promoted(env: Env, isIgnored: Path -> bool, f: Fork, head: Tree, plan: MergePlan,
      failure: Option<Failure>, r: Outcome, now: Tree)
  {
    OutcomeFor(env.utf8, isIgnored, f, plan, failure, r) &&
    (Plans(env.utf8, f, failure) ==> IsPlan(env, Sides(f, head), plan)) &&
    now == if r.Replayed? then Landed(Sides(f, head), plan)
           else if r == Failed && failure.value.Restoring? then Halted(Sides(f, head), plan, failure.value.written)
           else head
  }

  function ContestedPaths(isIgnored: Path -> bool, plan: MergePlan): seq<Path> {
    Retain(RefusedPaths(plan.refusals) + ConflictedPaths(plan.conflicted), isIgnored)
  }

  /** After a conflict: judged against the head it now sits on, holding that
      head with its own changes, the clean merges and the markers. */
  ghost predicate RebasedFork(before: Fork, after: Fork, head: Tree, plan: MergePlan, files: seq<ConflictedFile>) {
    after.base == head && after.conflict == Some(ConflictedPaths(files)) &&
    after.mounted == before.mounted && after.pending &&
    ContentOfBoth(after.workspace, Rebased(Sides(before, head), plan, files), before.workspace)
  }

  /** After a failure: as it was, with no conflict open, and with the rebase that
      was going on partway. */
  ghost predicate FailedFork(before: Fork, after: Fork, head: Tree, plan: MergePlan, files: seq<ConflictedFile>,
      failure: Failure)
  {
    after == before.(workspace := after.workspace, conflict := None) &&
    if failure.Rebasing? then Partway(before.workspace, Rebased(Sides(before, head), plan, files), after.workspace)
    else after.workspace == before.workspace
  }

  /** A landing that stops after `n` paths leaves what it would have left at and
      beneath the first `n` of them, and the mainline everywhere else. */
  lemma HaltedExactly(g: Three, plan: MergePlan, n: nat, p: Path)
    requires n <= |LandingPaths(plan)|
    ensures Get(Halted(g, plan, n), p) ==
            Get(if exists i :: 0 <= i < n && StartsWith(p, LandingPaths(plan)[i]) then Landed(g, plan) else g.theirs, p)
  {
    var src, paths, done := WithFiles(g.ours, plan.merged), LandingPaths(plan), FirstPaths(plan, n);
    OverlayAt(g.theirs, src, Members(done), p);
    OverlayAt(g.theirs, src, Roots(plan), p);
    assert done == paths[..n];
    if i :| 0 <= i < n && StartsWith(p, paths[i]) {
      assert done[i] == paths[i] && paths[i] in Roots(plan);
      assert Below(p, Members(done)) && Below(p, Roots(plan));
    }
    if Below(p, Members(done)) {
      var r :| r in Members(done) && StartsWith(p, r);
      var i :| 0 <= i < |done| && done[i] == r;
      assert paths[i] == r;
    }
  }

  /** The first paths of a landing can be restored, from either source. */
  lemma LandingHalts(env: Env, g: Three, plan: MergePlan, n: nat)
    requires ValidThree(g) && IsPlan(env, g, plan)
    ensures RestoreAll(g.theirs, Landed(g, plan), FirstPaths(plan, n)) == (true, Halted(g, plan, n))
    ensures plan.merged == [] ==>
      RestoreAll(g.theirs, g.ours, FirstPaths(plan, n)) == (true, Halted(g, plan, n))
    ensures WellFormed(Halted(g, plan, n))
    ensures Members(FirstPaths(plan, n)) <= Roots(plan)
  {
    var src, landed := WithFiles(g.ours, plan.merged), Landed(g, plan);
    var paths, done := LandingPaths(plan), FirstPaths(plan, n);
    LandingRootsDoNotNest(env, g, plan);
    LandingPathsDoNotNest(env, g, plan);
    LandingSourceIsWellFormed(env, g, plan);
    LandedIsWellFormed(env, g, plan);
    assert forall p :: p in done ==> p in paths;
    assert NoNesting(done) by {
      forall i, j | 0 <= i < |done| && 0 <= j < |done| && StartsWith(done[i], done[j]) ensures i == j {
        assert StartsWith(paths[i], paths[j]);
      }
    }
    forall p | p in done ensures p != [] && Restorable(g.theirs, src, p) && Restorable(g.theirs, landed, p) {
      assert p in Roots(plan) && StartsWith(p, p);
      LandingParentsInPlace(env, g, plan, p);
      OverlayAt(g.theirs, src, Roots(plan), p);
    }
    RestoreAllIsOverlay(g.theirs, src, done);
    RestoreAllIsOverlay(g.theirs, landed, done);
    OverlayOfOverlay(g.theirs, src, Roots(plan), Members(done));
    OverlayIsWellFormed(g.theirs, src, Members(done));
  }

  lemma OverlayOfOverlay(dst: Tree, src: Tree, roots: set<Path>, some: set<Path>)
    requires some <= roots
    ensures Overlay(dst, Overlay(dst, src, roots), some) == Overlay(dst, src, some)
  {
    forall p ensures Get(Overlay(dst, Overlay(dst, src, roots), some), p) == Get(Overlay(dst, src, some), p) {
      OverlayAt(dst, Overlay(dst, src, roots), some, p);
      OverlayAt(dst, src, roots, p);
      OverlayAt(dst, src, some, p);
      assert Below(p, some) ==> Below(p, roots);
    }
    TreesAgree(Overlay(dst, Overlay(dst, src, roots), some), Overlay(dst, src, some));
  }

  lemma MarkStays(env: Env, utf8: Bytes -> bool, f: Fork, head: Tree, plan: MergePlan, ignored: seq<Path>, after: Fork,
      i: nat)
    requires ValidThree(Sides(f, head)) && IsPlan(env, Sides(f, head), plan) && MarkerLaw(env.library)
    requires var files := DropConflicts(plan.conflicted, ignored);
             RebasedFork(f, after, head, plan, files) && i < |files| && utf8(files[i].marked)
    ensures StillMarked(utf8, after.workspace, DropConflicts(plan.conflicted, ignored)[i].path)
  {
    var g, files := Sides(f, head), DropConflicts(plan.conflicted, ignored);
    var c := files[i];
    RebasedHoldsMarks(env, g, plan, ignored);
    DropConflictsMembers(plan.conflicted, ignored, c);
    ConflictsComeFromFiles(env, g, plan, c);
    ConflictsAreMarked(env, ContentOf(Get(g.base, c.path)), ContentOf(Get(g.ours, c.path)),
        ContentOf(Get(g.theirs, c.path)));
    ChangesAreInside(g, c.path);
    assert Get(after.workspace, c.path) == Some(Regular(c.marked));
  }

  lemma {:induction false} RetainAll(s: seq<Path>, keep: Path -> bool)
    requires forall p :: p in s ==> keep(p)
    ensures Retain(s, keep) == s
  {
    if s != [] {
      assert s == [s[0]] + s[1..];
      assert s[0] in s;
      RetainAll(s[1..], keep);
    }
  }

  /** A fork left as the conflict left it cannot land: every one of its
      conflicted paths counts as unresolved. */
  lemma UntouchedConflictStaysOpen(env: Env, utf8: Bytes -> bool, f: Fork, head: Tree, plan: MergePlan,
                                   ignored: seq<Path>, after: Fork)
    requires ValidThree(Sides(f, head)) && IsPlan(env, Sides(f, head), plan) && MarkerLaw(env.library)
    requires var files := DropConflicts(plan.conflicted, ignored);
             RebasedFork(f, after, head, plan, files) && forall c :: c in files ==> utf8(c.marked)
    ensures Unresolved(utf8, after) == ConflictedPaths(DropConflicts(plan.conflicted, ignored))
  {
    var files := DropConflicts(plan.conflicted, ignored);
    var paths := ConflictedPaths(files);
    forall p | p in paths ensures StillMarked(utf8, after.workspace, p) {
      var i :| 0 <= i < |files| && paths[i] == p;
      assert files[i] in files;
      MarkStays(env, utf8, f, head, plan, ignored, after, i);
    }
    RetainAll(paths, p => StillMarked(utf8, after.workspace, p));
  }

  // -------------------------------------------------------------------------
  // The daemon
  // -------------------------------------------------------------------------

  /** The working tree, the forks, and what the merge depends on. */
  class Server {
    const tree: WorkTree
    var forks: map<ForkId, Fork>
    const library: Library
    const utf8: Bytes -> bool
    const maxFileBytes: nat
    const isIgnored: Path -> bool

    constructor (t: Tree, library: Library, utf8: Bytes -> bool, maxFileBytes: nat, isIgnored: Path -> bool)
      requires WellFormed(t)
      ensures Valid() && fresh(tree) && tree.nodes == t && forks == map[]
      ensures this.library == library && this.utf8 == utf8 && this.maxFileBytes == maxFileBytes &&
        this.isIgnored == isIgnored
    {
      tree := new WorkTree(t);
      forks := map[];
      this.library, this.utf8, this.maxFileBytes, this.isIgnored := library, utf8, maxFileBytes, isIgnored;
    }

    ghost predicate Valid()
      reads this, tree
    {
      WellFormed(tree.nodes) && forall id :: id in forks ==> ValidFork(forks[id])
    }

    function EnvFor(id: ForkId): Env {
      Env(library, utf8, maxFileBytes, "fork " + id)
    }

    /** Cuts a fork at the current tree.  A copy may differ from its base in
        timestamps from the start. */
    method CreateFork(id: ForkId, mounted: bool, stamped: bool) returns (ok: bool)
      requires Valid()
      modifies this`forks
      ensures Valid() && ok == (id !in old(forks))
      ensures forks == if ok then old(forks)[id := Fork(tree.nodes, tree.nodes, mounted, !mounted && stamped, None)]
                       else old(forks)
    {
      ok := id !in forks;
      if ok {
        forks := forks[id := Fork(tree.nodes, tree.nodes, mounted, !mounted && stamped, None)];
      }
    }

    /** Someone writes in a fork's workspace. */
    method EditFork(id: ForkId, workspace: Tree)
      requires Valid() && id in forks && WellFormed(workspace)
      modifies this`forks
      ensures Valid()
      ensures forks == old(forks)[id := old(forks)[id].(workspace := workspace, pending := true)]
    {
      forks := forks[id := forks[id].(workspace := workspace, pending := true)];
    }

    /** The merge of a fork that has something to land onto the head. */
    method MergeOntoHead(id: ForkId, f: Fork, failure: Option<Failure>)
      returns (r: Outcome, rebased: Fork, ghost plan: MergePlan)
      requires Valid() && ValidFork(f) && Plans(utf8, f, failure)
      modifies tree
      ensures Promoted(EnvFor(id), isIgnored, f, old(tree.nodes), plan, failure, r, tree.nodes)
      ensures r.Replayed? ==> (r.moved <==> old(tree.nodes) != f.base)
      ensures Kept(f, rebased, old(tree.nodes), plan, failure, r)
      ensures Valid()
    {
      var env, head := EnvFor(id), tree.nodes;
      var g := Three(f.base, head, f.workspace);
      rebased := f;
      var planned := Plan(env, g);
      plan := planned;
      var contested := RefusedPaths(planned.refusals) + ConflictedPaths(planned.conflicted);
      var ignored := Retain(contested, isIgnored);
      var rest, kept := KeepMainlineFor(planned, ignored);
      if rest.refusals != [] {
        return Refused(CannotBeMerged(rest.refusals)), rebased, plan;
      }
      ConflictsNeedAMovedHead(env, g, planned, ignored);
      if head == f.base && rest.conflicted != [] {
        assert false;  // the internal error of the daemon cannot be raised
      }
      if LandsNothing(rest) {
        return Nothing, rebased, plan;
      }
      r, rebased := WriteMerge(env, f, head, planned, ignored, rest, failure);
    }

    /** Writes what the merge came to: its conflicts into the workspace, or else
        what lands into the working tree. */
    method WriteMerge(env: Env, f: Fork, head: Tree, plan: MergePlan, ghost ignored: seq<Path>, rest: MergePlan,
        failure: Option<Failure>) returns (r: Outcome, rebased: Fork)
      requires Valid() && ValidFork(f) && Plans(env.utf8, f, failure) && IsPlan(env, Sides(f, head), plan)
      requires tree.nodes == head && ignored == ContestedPaths(isIgnored, plan)
      requires rest == WithoutIgnored(plan, ignored) && rest.refusals == [] && !LandsNothing(rest)
      modifies tree
      ensures Promoted(env, isIgnored, f, head, plan, failure, r, tree.nodes)
      ensures r.Replayed? ==> (r.moved <==> head != f.base)
      ensures Kept(f, rebased, head, plan, failure, r)
      ensures Valid()
    {
      var g := Sides(f, head);
      var merged := f.workspace;
      rebased := f;
      if rest.merged != [] || rest.conflicted != [] {
        var built;
        built, merged := BuildMerged(env, g, plan);
      }
      if rest.conflicted != [] {
        var moved;
        moved, rebased := SendBack(env, f, head, plan, ignored, merged, rest.conflicted, failure);
        return if moved then Conflict(rest.conflicted) else Failed, rebased;
      }
      var landed := Land(env, g, plan, merged, LandingPaths(rest), failure);
      r := if landed then Replayed(head != f.base) else Failed;
    }

    /** Restores the landing paths in the working tree, as far as the restores
        succeed. */
    method Land(env: Env, ghost g: Three, ghost plan: MergePlan, merged: Tree, paths: seq<Path>,
        failure: Option<Failure>) returns (landed: bool)
      requires ValidThree(g) && IsPlan(env, g, plan) && tree.nodes == g.theirs && paths == LandingPaths(plan)
      requires merged == Landed(g, plan) || (plan.merged == [] && merged == g.ours)
      modifies tree
      ensures landed <==> !(failure.Some? && failure.value.Restoring?)
      ensures tree.nodes == if landed then Landed(g, plan) else Halted(g, plan, failure.value.written)
      ensures WellFormed(tree.nodes)
    {
      RestoringFromForkRefinesBuild(env, g, plan);
      LandedIsWellFormed(env, g, plan);
      if failure.Some? && failure.value.Restoring? {
        var n := failure.value.written;
        LandingHalts(env, g, plan, n);
        var begun := tree.RestorePaths(merged, if n < |paths| then paths[..n] else paths);
        return false;
      }
      landed := tree.RestorePaths(merged, paths);
    }

    /** The checks before the merge: markers first, then whether there is
        anything to land. */
    method PromoteFork(id: ForkId, f: Fork, failure: Option<Failure>)
      returns (r: Outcome, rebased: Fork, ghost plan: MergePlan)
      requires Valid() && ValidFork(f)
      modifies tree
      ensures Valid()
      ensures Promoted(EnvFor(id), isIgnored, f, old(tree.nodes), plan, failure, r, tree.nodes)
      ensures r.Replayed? ==> (r.moved <==> old(tree.nodes) != f.base)
      ensures Kept(f, rebased, old(tree.nodes), plan, failure, r)
    {
      plan, rebased := EMPTY_PLAN, f;
      if FailsReading(f, failure) {
        return Failed, rebased, plan;
      }
      var unresolved := Unresolved(utf8, f);
      if unresolved != [] {
        return Refused(UnresolvedMarkers(unresolved)), rebased, plan;
      }
      if failure == Some(AtHead) {
        return Failed, rebased, plan;
      }
      if !f.pending {
        return Nothing, rebased, plan;
      }
      r, rebased, plan := MergeOntoHead(id, f, failure);
    }

    /** Puts a fork back after a promote that did not consume it. */
    method KeepFork(id: ForkId, f: Fork)
      requires Valid() && ValidFork(f)
      modifies this`forks
      ensures Valid() && forks == old(forks)[id := f]
      ensures forks - {id} == old(forks) - {id}
    {
      forks := forks[id := f];
    }

    /** Promotes a fork.  A landed fork is consumed; a conflicting one is kept,
        rebased; a refused one, and one whose promote failed, is kept with no
        conflict open unless its markers are what is wrong. */
    method Promote(id: ForkId, failure: Option<Failure>) returns (r: Outcome, ghost plan: MergePlan)
      requires Valid()
      modifies this`forks, tree
      ensures Valid()
      ensures id !in old(forks) ==> r == Refused(NoFork) && forks == old(forks) && tree.nodes == old(tree.nodes)
      ensures id in old(forks) ==>
        Promoted(EnvFor(id), isIgnored, old(forks)[id], old(tree.nodes), plan, failure, r, tree.nodes)
      ensures forks - {id} == old(forks) - {id}
      ensures r == Nothing || r.Replayed? ==> id !in forks
      ensures r.Replayed? ==> id in old(forks) && (r.moved <==> old(tree.nodes) != old(forks)[id].base)
      ensures r.Conflict? ==> id in forks && RebasedFork(old(forks)[id], forks[id], old(tree.nodes), plan, r.files)
      ensures r.Refused? && id in old(forks) ==> id in forks
      ensures r.Refused? && id in old(forks) ==>
        forks[id] == if r.problem.UnresolvedMarkers? then old(forks)[id] else old(forks)[id].(conflict := None)
      ensures r == Failed ==> id in old(forks) && id in forks && failure.Some?
      ensures r == Failed ==>
        FailedFork(old(forks)[id], forks[id], old(tree.nodes), plan, OpenConflicts(isIgnored, plan), failure.value)
    {
      plan := EMPTY_PLAN;
      if id !in forks {
        return Refused(NoFork), plan;
      }
      var f := forks[id];
      forks := forks - {id};
      var rebased;
      r, rebased, plan := PromoteFork(id, f, failure);
      var back := match r
        case Conflict(_) => Some(rebased)
        case Refused(problem) => Some(if problem.UnresolvedMarkers? then f else f.(conflict := None))
        case Failed => Some(rebased.(conflict := None))
        case _ => None;
      if back.Some? {
        KeepFork(id, back.value);
      }
    }

    /** The fork after an outcome that does not consume it. */
    ghost predicate Kept(f: Fork, rebased: Fork, head: Tree, plan: MergePlan, failure: Option<Failure>, r: Outcome)
      reads this
    {
      ValidFork(rebased) &&
      (r.Conflict? ==> RebasedFork(f, rebased, head, plan, r.files)) &&
      (r == Failed ==>
         failure.Some? &&
         FailedFork(f, rebased.(conflict := None), head, plan, OpenConflicts(isIgnored, plan), failure.value))
    }
  }

  /** The conflicts of a plan that are not ignored. */
  function OpenConflicts(isIgnored: Path -> bool, plan: MergePlan): seq<ConflictedFile> {
    DropConflicts(plan.conflicted, ContestedPaths(isIgnored, plan))
  }

  /** Against an unmoved mainline no conflict is left to report. */
  lemma ConflictsNeedAMovedHead(env: Env, g: Three, plan: MergePlan, ignored: seq<Path>)
    requires ValidThree(g) && IsPlan(env, g, plan)
    ensures DropConflicts(plan.conflicted, ignored) != [] ==> g.theirs != g.base
  {
    if g.theirs == g.base {
      UnmovedMainlineTakesFork(env, g, plan, []);
    }
  }

  lemma MarkedByPosition(utf8: Bytes -> bool, t: Tree, p: Path)
    ensures StillMarked(utf8, t, p) <==> HoldsOpenBlock(utf8, t, p)
  {
    if p in t && t[p].Regular? {
      MarkersByPosition(t[p].bytes);
    }
  }

  /** Which paths a promote finds unresolved: those of the open conflict, all of
      them while nothing was written since, and then those that hold a UTF-8 file
      with an open block. */
  lemma UnresolvedExactly(utf8: Bytes -> bool, f: Fork, p: Path)
    ensures p in Unresolved(utf8, f) <==>
      f.conflict.Some? && p in f.conflict.value && (f.pending ==> HoldsOpenBlock(utf8, f.workspace, p))
  {
    MarkedByPosition(utf8, f.workspace, p);
  }

  /** When a promote finds nothing unresolved: no conflict is open, or something
      was written since and no conflicted path holds an open block any more. */
  lemma NothingUnresolvedExactly(utf8: Bytes -> bool, f: Fork)
    ensures Unresolved(utf8, f) == [] <==>
      f.conflict == None || f.conflict.value == [] ||
      (f.pending && forall p :: p in f.conflict.value ==> !HoldsOpenBlock(utf8, f.workspace, p))
  {
    var open := Unresolved(utf8, f);
    if f.conflict.Some? {
      forall p | p in f.conflict.value
        ensures p in open <==> (f.pending ==> HoldsOpenBlock(utf8, f.workspace, p))
      {
        UnresolvedExactly(utf8, f, p);
      }
      if f.conflict.value != [] {
        assert f.conflict.value[0] in f.conflict.value;
      }
      if open != [] {
        assert open[0] in open;
        UnresolvedExactly(utf8, f, open[0]);
      }
    }
  }

  ghost predicate SomeRefused(isIgnored: Path -> bool, plan: MergePlan) {
    exists r :: r in plan.refusals && !isIgnored(r.path)
  }

  ghost predicate SomeConflicted(isIgnored: Path -> bool, plan: MergePlan) {
    exists c :: c in plan.conflicted && !isIgnored(c.path)
  }

  /** What is left of a plan's refusals and conflicts: those on paths that are not
      ignored, in order. */
  ghost predicate Leaves(isIgnored: Path -> bool, plan: MergePlan, rest: MergePlan) {
    Ascending(RefusedPaths(rest.refusals)) && Ascending(ConflictedPaths(rest.conflicted)) &&
    (forall x :: x in rest.refusals <==> x in plan.refusals && !isIgnored(x.path)) &&
    (forall c :: c in rest.conflicted <==> c in plan.conflicted && !isIgnored(c.path))
  }

  lemma WithoutIgnoredLeaves(isIgnored: Path -> bool, plan: MergePlan)
    requires ListsInOrder(plan)
    ensures Leaves(isIgnored, plan, WithoutIgnored(plan, ContestedPaths(isIgnored, plan)))
  {
    var ignored := ContestedPaths(isIgnored, plan);
    var rest := WithoutIgnored(plan, ignored);
    DropRefusalsKeepsOrder(plan.refusals, ignored);
    DropConflictsKeepsOrder(plan.conflicted, ignored);
    forall x ensures x in rest.refusals <==> x in plan.refusals && !isIgnored(x.path) {
      RefusalsLeft(isIgnored, plan, x);
    }
    forall c ensures c in rest.conflicted <==> c in plan.conflicted && !isIgnored(c.path) {
      ConflictsLeft(isIgnored, plan, c);
    }
  }

  lemma SomethingIsLeft(isIgnored: Path -> bool, plan: MergePlan, rest: MergePlan)
    requires Leaves(isIgnored, plan, rest)
    ensures rest.refusals != [] <==> SomeRefused(isIgnored, plan)
    ensures rest.conflicted != [] <==> SomeConflicted(isIgnored, plan)
  {
    if rest.refusals != [] {
      assert rest.refusals[0] in rest.refusals;
    }
    if rest.conflicted != [] {
      assert rest.conflicted[0] in rest.conflicted;
    }
  }

  /** What a promote of a fork with nothing unresolved answers and leaves, when no
      call fails.  Refusals come first, then conflicts; ignored paths count for
      neither; and what neither holds back lands. */
  lemma PromoteOutcomes(env: Env, isIgnored: Path -> bool, f: Fork, head: Tree, plan: MergePlan, r: Outcome, now: Tree)
    requires Promoted(env, isIgnored, f, head, plan, None, r, now) && f.pending && Unresolved(env.utf8, f) == []
    ensures IsPlan(env, Sides(f, head), plan)
    ensures r.Refused? <==> SomeRefused(isIgnored, plan)
    ensures r.Refused? ==> r.problem.CannotBeMerged? && Ascending(RefusedPaths(r.problem.refusals))
    ensures r.Refused? ==> forall x :: x in r.problem.refusals <==> x in plan.refusals && !isIgnored(x.path)
    ensures r.Conflict? <==> !SomeRefused(isIgnored, plan) && SomeConflicted(isIgnored, plan)
    ensures r.Conflict? ==> Ascending(ConflictedPaths(r.files))
    ensures r.Conflict? ==> forall c :: c in r.files <==> c in plan.conflicted && !isIgnored(c.path)
    ensures r.Replayed? || r == Nothing <==> !SomeRefused(isIgnored, plan) && !SomeConflicted(isIgnored, plan)
    ensures r == Nothing ==> plan.takeOurs == [] && plan.merged == []
    ensures r.Replayed? ==> plan.takeOurs != [] || plan.merged != []
    ensures now == if r.Refused? || r.Conflict? then head else Landed(Sides(f, head), plan)
  {
    var rest := WithoutIgnored(plan, ContestedPaths(isIgnored, plan));
    WithoutIgnoredLeaves(isIgnored, plan);
    SomethingIsLeft(isIgnored, plan, rest);
    if r == Nothing {
      NothingToLand(Sides(f, head), plan);
    }
  }

  /** The outcome is one that writes what a failure can stop: the workspace for a
      conflict, the working tree for a landing. */
  ghost predicate Stops(failure: Failure, r: Outcome) {
    (failure.Rebasing? && r.Conflict?) || (failure.Restoring? && r.Replayed?)
  }

  /** Which promotes a failing call fails: one that cannot read a copy, or a
      workspace with an open conflict written in since; one that is not refused over
      markers and cannot publish the head; and one whose writes, of markers or of
      what lands, are what fails.  Any other has the outcome it has without the
      failure. */
  lemma FailureDecides(env: Env, isIgnored: Path -> bool, f: Fork, head: Tree, plan: MergePlan, failure: Failure,
      r: Outcome, undisturbed: Outcome)
    requires OutcomeFor(env.utf8, isIgnored, f, plan, Some(failure), r)
    requires OutcomeFor(env.utf8, isIgnored, f, plan, None, undisturbed)
    ensures r == Failed <==>
      (failure == Reading && (!f.mounted || (f.conflict.Some? && f.pending))) ||
      (failure == AtHead && Unresolved(env.utf8, f) == []) || Stops(failure, undisturbed)
    ensures undisturbed != Failed && (r == Failed || r == undisturbed || (r.Replayed? && undisturbed.Replayed?))
  {}

  lemma RefusalsLeft(isIgnored: Path -> bool, plan: MergePlan, x: Refusal)
    ensures x in WithoutIgnored(plan, ContestedPaths(isIgnored, plan)).refusals <==>
            x in plan.refusals && !isIgnored(x.path)
  {
    var ignored := ContestedPaths(isIgnored, plan);
    DropRefusalsMembers(plan.refusals, ignored, x);
    if x in plan.refusals {
      var i :| 0 <= i < |plan.refusals| && plan.refusals[i] == x;
      assert RefusedPaths(plan.refusals)[i] == x.path;
    }
  }

  lemma ConflictsLeft(isIgnored: Path -> bool, plan: MergePlan, c: ConflictedFile)
    ensures c in WithoutIgnored(plan, ContestedPaths(isIgnored, plan)).conflicted <==>
            c in plan.conflicted && !isIgnored(c.path)
  {
    var ignored := ContestedPaths(isIgnored, plan);
    DropConflictsMembers(plan.conflicted, ignored, c);
    if c in plan.conflicted {
      var i :| 0 <= i < |plan.conflicted| && plan.conflicted[i] == c;
      assert ConflictedPaths(plan.conflicted)[i] == c.path;
    }
  }

  /** A plan that takes and merges nothing leaves the mainline alone. */
  lemma NothingToLand(g: Three, plan: MergePlan)
    requires plan.takeOurs == [] && plan.merged == []
    ensures Landed(g, plan) == g.theirs
  {
    RootsArePlanned(plan);
    assert Roots(plan) == {};
    OverlayNothing(g.theirs, WithFiles(g.ours, plan.merged));
  }

  /** What a promote that was neither refused nor in conflict left. */
  lemma PromotedIsLanded(env: Env, isIgnored: Path -> bool, f: Fork, head: Tree, plan: MergePlan, r: Outcome, now: Tree)
    requires Promoted(env, isIgnored, f, head, plan, None, r, now) && f.pending && !r.Refused? && !r.Conflict?
    ensures IsPlan(env, Sides(f, head), plan) && now == Landed(Sides(f, head), plan)
  {
    if r == Nothing {
      NothingToLand(Sides(f, head), plan);
    }
  }

  /** An uncontested merge is never refused and never in conflict. */
  lemma UncontestedLands(env: Env, isIgnored: Path -> bool, f: Fork, head: Tree, plan: MergePlan, r: Outcome, now: Tree)
    requires Promoted(env, isIgnored, f, head, plan, None, r, now) && Unresolved(env.utf8, f) == [] && Uncontested(plan)
    ensures !r.Refused? && !r.Conflict?
  {}

  /** The fork has nothing of its own to land on `head`, which it is judged
      against. */
  ghost predicate SameContent(workspace: Tree, head: Tree) {
    forall p :: !Changed(head, workspace, p)
  }

  /** Promoting a fork that is judged against the present head: refused exactly
      when something is left unresolved; otherwise the mainline becomes the
      fork, and nothing lands exactly when the fork holds what the mainline does. */
  method PromoteOntoUnmoved(server: Server, id: ForkId) returns (r: Outcome)
    requires server.Valid() && id in server.forks && server.forks[id].base == server.tree.nodes
    modifies server`forks, server.tree
    ensures server.Valid() && server.forks - {id} == old(server.forks) - {id} && r != Failed
    ensures Unresolved(server.utf8, old(server.forks)[id]) != [] ==>
      r == Refused(UnresolvedMarkers(Unresolved(server.utf8, old(server.forks)[id]))) &&
      server.tree.nodes == old(server.tree.nodes) && id in server.forks && server.forks[id] == old(server.forks)[id]
    ensures Unresolved(server.utf8, old(server.forks)[id]) == [] ==>
      !r.Refused? && !r.Conflict? && id !in server.forks &&
      ContentOfBoth(server.tree.nodes, old(server.forks)[id].workspace, old(server.tree.nodes))
    ensures Unresolved(server.utf8, old(server.forks)[id]) == [] ==>
      (r == Nothing <==> SameContent(old(server.forks)[id].workspace, old(server.tree.nodes)))
  {
    ghost var f, head := server.forks[id], server.tree.nodes;
    ghost var plan;
    r, plan := server.Promote(id, None);
    if Unresolved(server.utf8, f) == [] && f.pending {
      ResolvedForkLands(server.EnvFor(id), f, head, plan);
      UncontestedLands(server.EnvFor(id), server.isIgnored, f, head, plan, r, server.tree.nodes);
      PromotedIsLanded(server.EnvFor(id), server.isIgnored, f, head, plan, r, server.tree.nodes);
    }
  }

  /** A fork is cut, written in, and promoted while the mainline stands still:
      the mainline becomes what was written, mount or copy alike. */
  method LandEdit(server: Server, id: ForkId, mounted: bool, stamped: bool, edit: Tree) returns (r: Outcome)
    requires server.Valid() && id !in server.forks && WellFormed(edit)
    modifies server`forks, server.tree
    ensures server.Valid() && server.forks == old(server.forks)
    ensures !r.Refused? && !r.Conflict? && ContentOfBoth(server.tree.nodes, edit, old(server.tree.nodes))
    ensures r == Nothing <==> SameContent(edit, old(server.tree.nodes))
  {
    var cut := server.CreateFork(id, mounted, stamped);
    server.EditFork(id, edit);
    ghost var others := server.forks - {id};
    r := PromoteOntoUnmoved(server, id);
    assert server.forks == server.forks - {id} == others == old(server.forks);
  }

  /** The conflict loop: promote; on a conflict write a resolution into the
      fork; promote again.  The second promote is refused exactly while a
      conflicted path holds an open block, for the paths that do, and leaves
      everything as it was.  Otherwise the mainline is then the resolution, and
      one equal to the mainline lands nothing and consumes the fork. */
  method ResolveAndPromote(server: Server, id: ForkId, resolved: Tree)
    returns (first: Outcome, second: Outcome, ghost plan: MergePlan, ghost open: seq<Path>)
    requires server.Valid() && id in server.forks && WellFormed(resolved)
    modifies server`forks, server.tree
    ensures server.Valid()
    ensures Plans(server.utf8, old(server.forks)[id], None) ==>
      IsPlan(server.EnvFor(id), Sides(old(server.forks)[id], old(server.tree.nodes)), plan)
    ensures OutcomeFor(server.utf8, server.isIgnored, old(server.forks)[id], plan, None, first)
    ensures !first.Conflict? ==>
      Promoted(server.EnvFor(id), server.isIgnored, old(server.forks)[id], old(server.tree.nodes), plan, None, first,
               server.tree.nodes)
    ensures first.Conflict? ==>
      forall p :: p in open <==> p in ConflictedPaths(first.files) && HoldsOpenBlock(server.utf8, resolved, p)
    ensures first.Conflict? ==> Ascending(open)
    ensures first.Conflict? && open != [] ==>
      second == Refused(UnresolvedMarkers(open)) && server.tree.nodes == old(server.tree.nodes) && id in server.forks
    ensures first.Conflict? && open == [] ==>
      !second.Refused? && !second.Conflict? && id !in server.forks &&
      ContentOfBoth(server.tree.nodes, resolved, old(server.tree.nodes))
    ensures first.Conflict? && open == [] ==>
      (second == Nothing <==> SameContent(resolved, old(server.tree.nodes)))
  {
    first, plan := server.Promote(id, None);
    second, open := first, [];
    if first.Conflict? {
      server.EditFork(id, resolved);
      open := Unresolved(server.utf8, server.forks[id]);
      DropConflictsKeepsOrder(plan.conflicted, ContestedPaths(server.isIgnored, plan));
      RetainKeepsOrder(ConflictedPaths(first.files), p => StillMarked(server.utf8, resolved, p));
      forall p ensures p in open <==> p in ConflictedPaths(first.files) && HoldsOpenBlock(server.utf8, resolved, p) {
        UnresolvedExactly(server.utf8, server.forks[id], p);
      }
      second := PromoteOntoUnmoved(server, id);
    }
  }

  /** Judged against the head it was rebased onto, a fork contests nothing, and
      what lands is the fork; the plan is empty exactly when that changes
      nothing. */
  lemma ResolvedForkLands(env: Env, f: Fork, head: Tree, plan: MergePlan)
    requires ValidFork(f) && WellFormed(head) && f.base == head && IsPlan(env, Sides(f, head), plan)
    ensures Uncontested(plan) && plan.merged == []
    ensures ContentOfBoth(Landed(Sides(f, head), plan), f.workspace, head)
    ensures plan.takeOurs == [] <==> SameContent(f.workspace, head)
  {
    var g := Sides(f, head);
    forall p ensures Get(Landed(g, plan), p) == Get(if IsGitInternal(p) then head else f.workspace, p) {
      UnmovedMainlineTakesFork(env, g, plan, p);
    }
    UnmovedMainlineTakesFork(env, g, plan, []);
    if plan.takeOurs == [] {
      NothingToLand(g, plan);
    } else {
      var p := SomeTakenChange(env, g, plan);
    }
  }

  lemma SomeTakenChange(env: Env, g: Three, plan: MergePlan) returns (p: Path)
    requires IsPlan(env, g, plan) && g.theirs == g.base && plan.takeOurs != []
    ensures Changed(g.base, g.ours, p)
  {
    p := plan.takeOurs[0];
    assert p in plan.takeOurs;
    assert InUnion(g, p);
  }

  // -------------------------------------------------------------------------
  // Independent forks
  // -------------------------------------------------------------------------

  /** Two forks cut from the present tree, with no conflict open, neither of
      which changes a path at, above or beneath one the other changes. */
  ghost predicate CutApart(server: Server, one: ForkId, two: ForkId)
    reads server, server.tree
  {
    server.Valid() && one != two && one in server.forks && two in server.forks &&
    server.forks[one].base == server.tree.nodes && server.forks[two].base == server.tree.nodes &&
    server.forks[one].conflict == None && server.forks[two].conflict == None &&
    Independent(server.tree.nodes, server.forks[one].workspace, server.forks[two].workspace)
  }

  /** The second of two independent promotes. */
  lemma SecondPromoteLands(env: Env, isIgnored: Path -> bool, base: Tree, one: Tree, f: Fork, head: Tree,
                           plan: MergePlan, r: Outcome, now: Tree)
    requires ValidFork(f) && f.base == base && f.conflict == None && WellFormed(head)
    requires Independent(base, one, f.workspace) && HoldsFork(base, one, head)
    requires Promoted(env, isIgnored, f, head, plan, None, r, now)
    ensures !r.Refused? && !r.Conflict? && HoldsBoth(base, one, f.workspace, now)
    ensures f.pending ==> Uncontested(plan) && plan.merged == []
  {
    if f.pending {
      SecondLanding(env, base, one, f.workspace, head, plan);
      UncontestedLands(env, isIgnored, f, head, plan, r, now);
      PromotedIsLanded(env, isIgnored, f, head, plan, r, now);
    }
  }

  /** Promotes one and then the other: both land, without a refusal or a
      conflict, and the mainline holds what each of them changed. */
  method PromoteBoth(server: Server, one: ForkId, two: ForkId) returns (first: Outcome, second: Outcome)
    requires CutApart(server, one, two)
    modifies server`forks, server.tree
    ensures server.Valid() && one !in server.forks && two !in server.forks
    ensures !first.Refused? && !first.Conflict? && !second.Refused? && !second.Conflict?
    ensures HoldsBoth(old(server.tree.nodes), old(server.forks)[one].workspace, old(server.forks)[two].workspace,
                      server.tree.nodes)
  {
    ghost var base, f, g := server.tree.nodes, server.forks[one], server.forks[two];
    ghost var plan;
    first, plan := server.Promote(one, None);
    ghost var head := server.tree.nodes;
    FirstPromoteLands(server.EnvFor(one), server.isIgnored, f, plan, first, head);
    KeptFork(server.forks, old(server.forks), one, two);
    second, plan := server.Promote(two, None);
    SecondPromoteLands(server.EnvFor(two), server.isIgnored, base, f.workspace, g, head, plan, second,
        server.tree.nodes);
    assert one !in server.forks - {two};
  }

  lemma FirstPromoteLands(env: Env, isIgnored: Path -> bool, f: Fork, plan: MergePlan, r: Outcome, now: Tree)
    requires ValidFork(f) && f.conflict == None && Promoted(env, isIgnored, f, f.base, plan, None, r, now)
    ensures !r.Refused? && !r.Conflict? && HoldsFork(f.base, f.workspace, now)
  {
    if f.pending {
      FirstLanding(env, f.base, f.workspace, plan);
      UnmovedMainlineTakesFork(env, Sides(f, f.base), plan, []);
      UncontestedLands(env, isIgnored, f, f.base, plan, r, now);
      PromotedIsLanded(env, isIgnored, f, f.base, plan, r, now);
    }
  }

  lemma KeptFork(now: map<ForkId, Fork>, before: map<ForkId, Fork>, one: ForkId, two: ForkId)
    requires now - {one} == before - {one} && one != two && two in before
    ensures two in now && now[two] == before[two]
  {
    assert two in before - {one};
  }

  /** On two daemons in the same state, the two orders end in the same tree. */
  method PromoteInBothOrders(server: Server, other: Server, one: ForkId, two: ForkId)
    requires CutApart(server, one, two) && CutApart(other, two, one)
    requires server != other && server.tree != other.tree
    requires server.tree.nodes == other.tree.nodes && server.forks == other.forks
    modifies server`forks, server.tree, other`forks, other.tree
    ensures server.tree.nodes == other.tree.nodes
    ensures one !in server.forks && two !in server.forks && one !in other.forks && two !in other.forks
  {
    ghost var base, f, g := server.tree.nodes, server.forks[one].workspace, server.forks[two].workspace;
    var a, b := PromoteBoth(server, one, two);
    var c, d := PromoteBoth(other, two, one);
    EndsAgree(base, f, g, server.tree.nodes, other.tree.nodes);
  }
}
